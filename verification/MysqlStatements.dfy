/** What the scanner finds in every text: where statements lie, and that what is inferred is run as inferred. */
module MysqlStatements {
  import opened Wrappers
  import opened MysqlScanner

  // ---- the ends of tokens ----

  lemma {:induction false} SpanCloses(rest: string, k: nat, delimiter: char, plain: bool, ambiguous: bool)
    requires SpanFrom(rest, k, delimiter, plain, ambiguous).Some?
    ensures rest[SpanFrom(rest, k, delimiter, plain, ambiguous).value.end - 1] == delimiter
    decreases |rest| - k
  {
    if rest[k] == '\\' && !(plain && delimiter != '`') {
      var next := k + Run(rest, k);
      var odd := Run(rest, k) % 2 == 1;
      SpanCloses(rest, if odd then next + 1 else next, delimiter, plain,
                 ambiguous || (odd && rest[next] == delimiter && delimiter != '`'));
    } else if rest[k] == delimiter {
      if k + 1 < |rest| && rest[k + 1] == delimiter {
        SpanCloses(rest, k + 2, delimiter, plain, ambiguous);
      }
    } else {
      SpanCloses(rest, k + 1, delimiter, plain, ambiguous);
    }
  }

  lemma {:induction false} BlockCloses(rest: string, k: nat)
    requires BlockEnd(rest, k).Some?
    ensures rest[BlockEnd(rest, k).value - 1] == '/'
    decreases |rest| - k
  {
    if !(rest[k] == '*' && rest[k + 1] == '/') {
      BlockCloses(rest, k + 1);
    }
  }

  /** Executable tokens and terminators begin and end with a character that is not white space. */
  lemma TokenEnds(rest: string, plain: bool)
    requires rest != []
    ensures var token := Lex(rest, plain);
            Executes(token.kind) || token.kind.Semicolon? ==>
              !IsWhitespace(rest[0]) && !IsWhitespace(rest[token.length - 1])
  {
    hide SpanFrom, BlockEnd, LineEnd, DashComment;
    if BlockComment(rest) && BlockEnd(rest, 2).Some? {
      BlockCloses(rest, 2);
    }
    if IsQuote(rest[0]) && SpanFrom(rest, 1, rest[0], plain, false).Some? {
      SpanCloses(rest, 1, rest[0], plain, false);
    }
  }

  // ---- order ----

  ghost predicate Solid(text: string, start: nat, end: nat) {
    start < end <= |text| && !IsWhitespace(text[start]) && !IsWhitespace(text[end - 1])
  }

  /** The statements lie in `text` from `from` on, one after the other, none of them empty or padded. */
  ghost predicate InOrder(text: string, statements: seq<Statement>, from: nat) {
    statements == []
    || (from <= statements[0].start && Solid(text, statements[0].start, statements[0].end)
        && InOrder(text, statements[1..], statements[0].end))
  }

  ghost predicate WellPending(text: string, i: nat, p: Pending) {
    && (p.first.None? ==> p == NOTHING)
    && (p.first.Some? ==> p.last <= i && Solid(text, p.first.value, p.last))
  }

  lemma TokenAt(text: string, plain: bool, i: nat, p: Pending)
    requires i < |text| && WellPending(text, i, p)
    ensures var step := StepAt(text, plain, i, p);
            && (step.More? ==> WellPending(text, step.next, step.pending) && step.pending.StartOr(step.next) >= p.StartOr(i)
                               && (step.found != [] ==> |step.found| == 1 && step.pending == NOTHING
                                                        && step.found[0].start == p.StartOr(i)
                                                        && step.found[0].end == step.next
                                                        && Solid(text, step.found[0].start, step.found[0].end)))
            && (step.Stop? ==> step.issue.statementStart == p.StartOr(i) < |text|)
  {
    hide Lex;
    TokenEnds(text[i..], plain);
  }

  lemma {:induction false} ScanInOrder(text: string, plain: bool, i: nat, p: Pending)
    requires i <= |text| && WellPending(text, i, p)
    ensures var scan := ScanFrom(text, plain, i, p);
            && InOrder(text, scan.statements, p.StartOr(i))
            && (scan.issue.Some? ==> scan.issue.value.statementStart < |text|
                                     && (forall s | s in scan.statements :: s.end <= scan.issue.value.statementStart))
            && (scan.issue.Some? ==> p.StartOr(i) <= scan.issue.value.statementStart)
    decreases |text| - i
  {
    hide StepAt;
    if i < |text| {
      TokenAt(text, plain, i, p);
      var step := StepAt(text, plain, i, p);
      if step.More? {
        ScanInOrder(text, plain, step.next, step.pending);
        var rest := ScanFrom(text, plain, step.next, step.pending).statements;
        var all := step.found + rest;
        if step.found == [] {
          assert all == rest;
          Earlier(text, rest, step.pending.StartOr(step.next), p.StartOr(i));
        } else {
          assert all[0] == step.found[0] && all[1..] == rest;
        }
      }
    }
  }

  lemma Earlier(text: string, statements: seq<Statement>, later: nat, from: nat)
    requires from <= later && InOrder(text, statements, later)
    ensures InOrder(text, statements, from)
  {
  }

  lemma {:induction false} InOrderAt(text: string, statements: seq<Statement>, from: nat, a: nat)
    requires InOrder(text, statements, from) && a < |statements|
    ensures from <= statements[a].start && Solid(text, statements[a].start, statements[a].end)
    ensures forall b | a < b < |statements| :: statements[a].end <= statements[b].start
  {
    var rest := statements[1..];
    if a == 0 {
      forall b | 0 < b < |statements|
        ensures statements[0].end <= statements[b].start
      {
        InOrderAt(text, rest, statements[0].end, b - 1);
      }
    } else {
      InOrderAt(text, rest, statements[0].end, a - 1);
      forall b | a < b < |statements|
        ensures statements[a].end <= statements[b].start
      {
        assert rest[b - 1] == statements[b];
      }
    }
  }

  /**
   For every text: the statements found are in order, apart from each other, not empty, and begin and end with
   text that is not white space; what is left open after them begins behind the last.
   */
  lemma StatementsAreApart(text: string)
    ensures forall a | 0 <= a < |ScanOf(text).statements| ::
              Solid(text, ScanOf(text).statements[a].start, ScanOf(text).statements[a].end)
    ensures forall a, b | 0 <= a < b < |ScanOf(text).statements| ::
              ScanOf(text).statements[a].end <= ScanOf(text).statements[b].start
    ensures ScanOf(text).issue.Some? ==>
              ScanOf(text).issue.value.statementStart < |text|
              && (forall s | s in ScanOf(text).statements :: s.end <= ScanOf(text).issue.value.statementStart)
  {
    hide ScanFrom, Solid;
    ScanInOrder(text, false, 0, NOTHING);
    var statements := ScanOf(text).statements;
    forall a | 0 <= a < |statements|
      ensures Solid(text, statements[a].start, statements[a].end)
      ensures forall b | a < b < |statements| :: statements[a].end <= statements[b].start
    {
      InOrderAt(text, statements, 0, a);
    }
  }

  // ---- coverage ----

  /** A token begins at `k` when the text is read from `i` on. */
  ghost predicate Reaches(text: string, i: nat, k: nat)
    requires i <= |text|
    decreases |text| - i
  {
    i == k
    || (i < |text| && !IsOpen(Lex(text[i..], false).kind)
        && Reaches(text, i + Lex(text[i..], false).length, k))
  }

  ghost predicate Inside(statements: seq<Statement>, k: nat, end: nat) {
    exists a | 0 <= a < |statements| :: statements[a].start <= k && end <= statements[a].end
  }

  ghost predicate BeforeIssue(scan: Scan, k: nat) {
    scan.issue.None? || k < scan.issue.value.statementStart
  }

  lemma InsideMore(found: seq<Statement>, rest: seq<Statement>, k: nat, end: nat)
    requires Inside(found, k, end) || Inside(rest, k, end)
    ensures Inside(found + rest, k, end)
  {
    var all := found + rest;
    if Inside(found, k, end) {
      var a :| 0 <= a < |found| && found[a].start <= k && end <= found[a].end;
      assert all[a] == found[a];
    } else {
      var a :| 0 <= a < |rest| && rest[a].start <= k && end <= rest[a].end;
      assert all[|found| + a] == rest[a];
    }
  }

  /** What is pending becomes a statement, unless the scan stops first. */
  lemma {:induction false} PendingIsFound(text: string, i: nat, p: Pending)
    requires i <= |text| && p.first.Some?
    ensures var scan := ScanFrom(text, false, i, p);
            && (scan.statements == [] ==> scan.issue.Some? && scan.issue.value.statementStart == p.first.value)
            && (scan.statements != [] ==> scan.statements[0].start == p.first.value
                                          && (p.last <= i ==> p.last <= scan.statements[0].end))
    decreases |text| - i
  {
    if i < |text| {
      var step := StepAt(text, false, i, p);
      if step.More? && step.found == [] {
        PendingIsFound(text, step.next, step.pending);
        var rest := ScanFrom(text, false, step.next, step.pending);
        assert step.found + rest.statements == rest.statements;
      }
    }
  }

  /** One token at its own position, with what is pending before it. */
  lemma TokenIsCovered(text: string, i: nat, p: Pending)
    requires i < |text| && WellPending(text, i, p)
    ensures var scan, token := ScanFrom(text, false, i, p), Lex(text[i..], false);
            && (Executes(token.kind) && BeforeIssue(scan, i) ==> Inside(scan.statements, i, i + token.length))
            && (token.kind.Semicolon? ==>
                  if p.first.Some? then Inside(scan.statements, i, i + token.length) else scan.stray)
  {
    hide Lex, OddRunBefore;
    var step := StepAt(text, false, i, p);
    if step.More? {
      var rest := ScanFrom(text, false, step.next, step.pending);
      if step.pending.first.Some? {
        PendingIsFound(text, step.next, step.pending);
        if rest.statements != [] {
          var all := step.found + rest.statements;
          assert all[|step.found|] == rest.statements[0];
        }
      } else if step.found != [] {
        assert (step.found + rest.statements)[0] == step.found[0];
      }
    }
  }

  lemma {:induction false} Coverage(text: string, i: nat, p: Pending, k: nat)
    requires i <= |text| && WellPending(text, i, p) && k < |text| && Reaches(text, i, k)
    ensures var scan, token := ScanFrom(text, false, i, p), Lex(text[k..], false);
            && (Executes(token.kind) && BeforeIssue(scan, k) ==> Inside(scan.statements, k, k + token.length))
            && (token.kind.Semicolon? && !scan.stray ==> Inside(scan.statements, k, k + token.length))
    decreases |text| - i
  {
    hide Lex, OddRunBefore, Inside;
    if i == k {
      TokenIsCovered(text, i, p);
    } else {
      var step := StepAt(text, false, i, p);
      TokenAt(text, false, i, p);
      var rest := ScanFrom(text, false, step.next, step.pending);
      Coverage(text, step.next, step.pending, k);
      var end := k + Lex(text[k..], false).length;
      if Inside(rest.statements, k, end) {
        InsideMore(step.found, rest.statements, k, end);
      }
    }
  }

  /** A terminator with no statement before it, at `k`. */
  ghost predicate StrayAt(text: string, i: nat, statements: seq<Statement>, k: nat)
    requires i <= |text|
  {
    k < |text| && Reaches(text, i, k) && Lex(text[k..], false).kind.Semicolon? && !Inside(statements, k, k + 1)
  }

  lemma {:induction false} StrayIsSomewhere(text: string, i: nat, p: Pending) returns (k: nat)
    requires i <= |text| && WellPending(text, i, p) && ScanFrom(text, false, i, p).stray
    ensures i <= k && StrayAt(text, i, ScanFrom(text, false, i, p).statements, k)
    decreases |text| - i
  {
    hide Lex, OddRunBefore, Inside, Solid, InOrder;
    var step := StepAt(text, false, i, p);
    TokenAt(text, false, i, p);
    var rest := ScanFrom(text, false, step.next, step.pending);
    if step.stray {
      k := i;
      ScanInOrder(text, false, step.next, step.pending);
      NothingBefore(text, rest.statements, step.next, k);
      SemicolonIsOne(text[i..]);
      assert step.found + rest.statements == rest.statements;
    } else {
      k := StrayIsSomewhere(text, step.next, step.pending);
      NotInsideMore(step.found, rest.statements, k);
    }
  }

  lemma NotInsideMore(found: seq<Statement>, rest: seq<Statement>, k: nat)
    requires found == [] || (|found| == 1 && found[0].end <= k)
    requires !Inside(rest, k, k + 1)
    ensures !Inside(found + rest, k, k + 1)
  {
    var all := found + rest;
    forall a | 0 <= a < |all|
      ensures !(all[a].start <= k && k + 1 <= all[a].end)
    {
      if a >= |found| {
        assert all[a] == rest[a - |found|];
      }
    }
  }

  lemma NothingBefore(text: string, statements: seq<Statement>, from: nat, k: nat)
    requires InOrder(text, statements, from) && k < from
    ensures !Inside(statements, k, k + 1)
  {
    if Inside(statements, k, k + 1) {
      var a :| 0 <= a < |statements| && statements[a].start <= k && k + 1 <= statements[a].end;
      InOrderAt(text, statements, from, a);
    }
  }

  /**
   For every text: each token before what is left open is white space or a plain comment, or lies in a
   statement, or is a terminator that ends nothing; and there is one of those exactly where the scan says so.
   */
  lemma EveryTokenIsCovered(text: string)
    ensures forall k | 0 <= k < |text| && Reaches(text, 0, k) && BeforeIssue(ScanOf(text), k) ::
              var token := Lex(text[k..], false);
              || token.kind.Blank?
              || Inside(ScanOf(text).statements, k, k + token.length)
              || StrayAt(text, 0, ScanOf(text).statements, k)
    ensures ScanOf(text).stray <==> exists k :: StrayAt(text, 0, ScanOf(text).statements, k)
  {
    hide Lex, Reaches, ScanFrom, Inside;
    forall k | 0 <= k < |text| && Reaches(text, 0, k)
      ensures BeforeIssue(ScanOf(text), k) ==>
                var token := Lex(text[k..], false);
                || token.kind.Blank?
                || Inside(ScanOf(text).statements, k, k + token.length)
                || StrayAt(text, 0, ScanOf(text).statements, k)
      ensures StrayAt(text, 0, ScanOf(text).statements, k) ==> ScanOf(text).stray
    {
      Coverage(text, 0, NOTHING, k);
      OpenIsIssue(text, 0, NOTHING, k);
      SemicolonIsOne(text[k..]);
    }
    if ScanOf(text).stray {
      var k := StrayIsSomewhere(text, 0, NOTHING);
    }
  }

  lemma SemicolonIsOne(rest: string)
    requires rest != []
    ensures Lex(rest, false).kind.Semicolon? ==> Lex(rest, false).length == 1 && rest[0] == ';'
  {
    hide SpanFrom, BlockEnd, LineEnd, DashComment;
  }

  /** An open token is where the scan stops. */
  lemma {:induction false} OpenIsIssue(text: string, i: nat, p: Pending, k: nat)
    requires i <= |text| && WellPending(text, i, p) && k < |text| && Reaches(text, i, k)
    ensures IsOpen(Lex(text[k..], false).kind) ==>
              ScanFrom(text, false, i, p).issue.Some? && ScanFrom(text, false, i, p).issue.value.statementStart <= k
    decreases |text| - i
  {
    hide Lex, OddRunBefore;
    TokenAt(text, false, i, p);
    if i != k {
      var step := StepAt(text, false, i, p);
      OpenIsIssue(text, step.next, step.pending, k);
    } else if p.first.Some? {
      assert p.first.value < i;
    }
  }

  // ---- coverage, character by character ----

  /** The token that begins at `k` contains the character at `c`. */
  ghost predicate TokenAround(text: string, k: nat, c: nat) {
    k <= c && k < |text| && Reaches(text, 0, k) && c < k + Lex(text[k..], false).length
  }

  /** Tokens leave no gap: every character before what is left open is in one. */
  lemma {:induction false} Covers(text: string, i: nat, p: Pending, c: nat) returns (k: nat)
    requires i <= c < |text| && WellPending(text, i, p) && BeforeIssue(ScanFrom(text, false, i, p), c)
    ensures i <= k <= c && Reaches(text, i, k) && c < k + Lex(text[k..], false).length
    decreases |text| - i
  {
    hide Lex, OddRunBefore;
    if c < i + Lex(text[i..], false).length {
      k := i;
    } else {
      var step := StepAt(text, false, i, p);
      TokenAt(text, false, i, p);
      k := Covers(text, step.next, step.pending, c);
    }
  }

  /** A comment the scanner passes over: not the kind that holds a statement for some server versions. */
  predicate PlainComment(rest: string) {
    || (rest != [] && rest[0] == '#')
    || (|rest| > 2 && rest[..2] == "--" && (rest[2] as int <= 0x20 || rest[2] as int == 0x7F))
    || (|rest| > 1 && rest[..2] == "/*" && !(|rest| > 2 && rest[2] == '!'))
  }

  ghost predicate InComment(text: string, c: nat) {
    exists k: nat :: TokenAround(text, k, c) && PlainComment(text[k..])
  }

  lemma BlankMeaning(rest: string)
    requires rest != [] && Lex(rest, false).kind.Blank?
    ensures PlainComment(rest) || (IsWhitespace(rest[0]) && Lex(rest, false).length == 1)
  {
    hide SpanFrom, BlockEnd, LineEnd, IsWhitespace;
  }

  ghost predicate InOneStatement(statements: seq<Statement>, c: nat) {
    exists a | 0 <= a < |statements| ::
      && statements[a].start <= c < statements[a].end
      && forall b | 0 <= b < |statements| && statements[b].start <= c < statements[b].end :: a == b
  }

  lemma InsideIsOne(text: string, k: nat, end: nat, c: nat)
    requires Inside(ScanOf(text).statements, k, end) && k <= c < end
    ensures InOneStatement(ScanOf(text).statements, c)
  {
    hide ScanFrom;
    StatementsAreApart(text);
    var statements := ScanOf(text).statements;
    var a :| 0 <= a < |statements| && statements[a].start <= k && end <= statements[a].end;
    assert statements[a].start <= c < statements[a].end;
  }

  /** One character: white space, in a plain comment, in exactly one statement, or itself a stray terminator. */
  lemma CharacterIsCovered(text: string, c: nat)
    requires c < |text| && BeforeIssue(ScanOf(text), c)
    ensures || IsWhitespace(text[c]) || InComment(text, c) || InOneStatement(ScanOf(text).statements, c)
            || (text[c] == ';' && StrayAt(text, 0, ScanOf(text).statements, c))
  {
    hide Lex, ScanFrom, Inside, IsWhitespace, PlainComment, InOneStatement;
    var k := Covers(text, 0, NOTHING, c);
    assert TokenAround(text, k, c);
    var rest := text[k..];
    var token := Lex(rest, false);
    EveryTokenIsCovered(text);
    if token.kind.Blank? {
      BlankMeaning(rest);
    } else if Inside(ScanOf(text).statements, k, k + token.length) {
      InsideIsOne(text, k, k + token.length, c);
    } else {
      SemicolonIsOne(rest);
    }
  }

  /**
   For every text: each character before what is left open that is neither white space nor in a plain comment lies
   in exactly one statement, or is a terminator that ends nothing.
   */
  lemma EveryCharacterIsCovered(text: string)
    ensures forall c | 0 <= c < |text| && BeforeIssue(ScanOf(text), c) && !IsWhitespace(text[c]) && !InComment(text, c) ::
              || InOneStatement(ScanOf(text).statements, c)
              || (text[c] == ';' && StrayAt(text, 0, ScanOf(text).statements, c))
  {
    hide IsWhitespace, InComment, InOneStatement, StrayAt, BeforeIssue, ScanOf;
    forall c | 0 <= c < |text| && BeforeIssue(ScanOf(text), c) && !IsWhitespace(text[c]) && !InComment(text, c)
      ensures || InOneStatement(ScanOf(text).statements, c)
              || (text[c] == ';' && StrayAt(text, 0, ScanOf(text).statements, c))
    {
      CharacterIsCovered(text, c);
    }
  }

  // ---- the statement at the caret ----

  /** `mysql_statement_contains`. */
  predicate Contains(s: Statement, caret: nat, textLength: nat) {
    s.start <= caret < s.end || (caret == textLength && s.end == textLength && caret >= s.start)
  }

  /** At most one statement contains the caret, wherever it is. */
  lemma OneStatementAtTheCaret(text: string, caret: nat, a: nat, b: nat)
    requires a < |ScanOf(text).statements| && b < |ScanOf(text).statements|
    requires Contains(ScanOf(text).statements[a], caret, |text|) && Contains(ScanOf(text).statements[b], caret, |text|)
    ensures a == b
  {
    hide ScanFrom;
    StatementsAreApart(text);
  }

  // ---- the statement read again ----

  /** Where the statement that is pending at `i` ends; `None` where it is left open. */
  function StatementEnd(text: string, i: nat, last: nat): Option<nat>
    requires i <= |text|
    decreases |text| - i
  {
    if i == |text| then Some(last)
    else
      var token := Lex(text[i..], false);
      var next := i + token.length;
      if token.kind.Blank? then StatementEnd(text, next, last)
      else if Executes(token.kind) then StatementEnd(text, next, next)
      else if token.kind.Semicolon? then Some(next)
      else None
  }

  lemma {:induction false} EndIsBeyond(text: string, i: nat, last: nat)
    requires i <= |text|
    ensures var end := StatementEnd(text, i, last);
            end.Some? ==> end.value == last || i < end.value <= |text|
    decreases |text| - i
  {
    hide Lex;
    if i < |text| {
      var next := i + Lex(text[i..], false).length;
      EndIsBeyond(text, next, last);
      EndIsBeyond(text, next, next);
    }
  }

  ghost predicate IsStatement(text: string, start: nat, end: nat) {
    start < |text| && Executes(Lex(text[start..], false).kind) && StatementEnd(text, start, start) == Some(end)
  }

  ghost predicate BeganAt(text: string, i: nat, p: Pending)
    requires i <= |text|
  {
    p.first.Some? ==>
      && p.first.value < |text| && Executes(Lex(text[p.first.value..], false).kind)
      && StatementEnd(text, p.first.value, p.first.value) == StatementEnd(text, i, p.last)
  }

  lemma {:induction false} FoundAreStatements(text: string, i: nat, p: Pending)
    requires i <= |text| && BeganAt(text, i, p)
    ensures forall s | s in ScanFrom(text, false, i, p).statements :: IsStatement(text, s.start, s.end)
    decreases |text| - i
  {
    hide Lex, OddRunBefore;
    if i < |text| {
      var step := StepAt(text, false, i, p);
      if step.More? {
        FoundAreStatements(text, step.next, step.pending);
      }
    }
  }

  // A token cut off behind its end is the same token.

  lemma {:induction false} CutLine(rest: string, m: nat)
    requires LineEnd(rest) < m <= |rest|
    ensures LineEnd(rest[..m]) == LineEnd(rest)
  {
    if rest[0] != '\n' {
      CutLine(rest[1..], m - 1);
      assert rest[..m][1..] == rest[1..][..m - 1];
    }
  }

  lemma {:induction false} CutBlock(rest: string, k: nat, m: nat)
    requires BlockEnd(rest, k).Some? && BlockEnd(rest, k).value <= m <= |rest|
    ensures BlockEnd(rest[..m], k) == BlockEnd(rest, k)
    decreases |rest| - k
  {
    if !(rest[k] == '*' && rest[k + 1] == '/') {
      CutBlock(rest, k + 1, m);
    }
  }

  lemma {:induction false} CutRun(rest: string, k: nat, m: nat)
    requires k <= m <= |rest| && k + Run(rest, k) < m
    ensures Run(rest[..m], k) == Run(rest, k)
    decreases |rest| - k
  {
    if k < |rest| && rest[k] == '\\' {
      CutRun(rest, k + 1, m);
    }
  }

  lemma {:induction false} CutSpan(rest: string, k: nat, delimiter: char, ambiguous: bool, m: nat)
    requires var span := SpanFrom(rest, k, delimiter, false, ambiguous); span.Some? && span.value.end <= m <= |rest|
    ensures SpanFrom(rest[..m], k, delimiter, false, ambiguous) == SpanFrom(rest, k, delimiter, false, ambiguous)
    decreases |rest| - k
  {
    if rest[k] == '\\' {
      var next := k + Run(rest, k);
      var odd := Run(rest, k) % 2 == 1;
      CutSpan(rest, if odd then next + 1 else next, delimiter,
              ambiguous || (odd && rest[next] == delimiter && delimiter != '`'), m);
      CutRun(rest, k, m);
    } else if rest[k] == delimiter {
      if k + 1 < |rest| && rest[k + 1] == delimiter {
        CutSpan(rest, k + 2, delimiter, ambiguous, m);
      }
    } else {
      CutSpan(rest, k + 1, delimiter, ambiguous, m);
    }
  }

  lemma CutToken(rest: string, m: nat)
    requires rest != [] && !IsOpen(Lex(rest, false).kind)
    requires Lex(rest, false).length < m <= |rest|
             || (Lex(rest, false).length == m <= |rest| && !Lex(rest, false).kind.Blank?)
    ensures Lex(rest[..m], false) == Lex(rest, false)
  {
    hide SpanFrom, BlockEnd, LineEnd, IsWhitespace;
    if rest[0] == '#' || DashComment(rest) {
      if DashComment(rest) {
        DashIsLong(rest);
      }
      CutLine(rest, m);
    } else if BlockComment(rest) {
      CutBlock(rest, 2, m);
    } else if IsQuote(rest[0]) {
      CutSpan(rest, 1, rest[0], false, m);
    }
  }

  lemma DashIsLong(rest: string)
    requires DashComment(rest)
    ensures LineEnd(rest) >= 2
  {
    assert rest[0] != '\n' && rest[1..][0] != '\n';
  }
}
