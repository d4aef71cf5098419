/** What the scanner and the editor's targets mean, in terms of the characters of a text and of positions in it. */
module MysqlLaws {
  import opened Wrappers
  import opened MysqlScanner
  import opened MysqlStatements
  import opened MysqlTargets

  // ---- quoted text, one character at a time ----

  /** Where quoted text closes that is read from `k` on: a backslash takes the next character with it, a delimiter its
      double, and the first delimiter left over closes. */
  function Closing(rest: string, k: nat, delimiter: char): (end: Option<nat>)
    ensures end.Some? ==> k < end.value <= |rest|
    decreases |rest| - k
  {
    if k >= |rest| then None
    else if rest[k] == '\\' then Closing(rest, k + 2, delimiter)
    else if rest[k] == delimiter && k + 1 < |rest| && rest[k + 1] == delimiter then Closing(rest, k + 2, delimiter)
    else if rest[k] == delimiter then Some(k + 1)
    else Closing(rest, k + 1, delimiter)
  }

  /** A row of backslashes takes the character behind it along exactly when it is odd. */
  lemma {:induction false} RunTakes(rest: string, k: nat, delimiter: char)
    requires k <= |rest|
    ensures var next := k + Run(rest, k);
            Closing(rest, k, delimiter)
            == if next >= |rest| && Run(rest, k) > 0 then None
               else Closing(rest, if Run(rest, k) % 2 == 1 then next + 1 else next, delimiter)
    decreases |rest| - k
  {
    if k < |rest| && rest[k] == '\\' {
      if k + 1 < |rest| && rest[k + 1] == '\\' {
        RunTakes(rest, k + 2, delimiter);
      }
    }
  }

  /** The scanner's runs and skips close quoted text where reading it one character at a time does. */
  lemma {:induction false} SpanClosing(rest: string, k: nat, delimiter: char, ambiguous: bool)
    requires delimiter != '\\'
    ensures var span := SpanFrom(rest, k, delimiter, false, ambiguous);
            if span.Some? then Closing(rest, k, delimiter) == Some(span.value.end) else Closing(rest, k, delimiter).None?
    decreases |rest| - k
  {
    if k < |rest| {
      if rest[k] == '\\' {
        RunTakes(rest, k, delimiter);
        var next := k + Run(rest, k);
        if next < |rest| {
          var odd := Run(rest, k) % 2 == 1;
          SpanClosing(rest, if odd then next + 1 else next, delimiter,
                      ambiguous || (odd && rest[next] == delimiter && delimiter != '`'));
        }
      } else if rest[k] == delimiter {
        if k + 1 < |rest| && rest[k + 1] == delimiter {
          SpanClosing(rest, k + 2, delimiter, ambiguous);
        }
      } else {
        SpanClosing(rest, k + 1, delimiter, ambiguous);
      }
    }
  }

  /** Where quoted text closes to a server for which a backslash is a character like any other. */
  function PlainClosing(rest: string, k: nat, delimiter: char): Option<nat>
    decreases |rest| - k
  {
    if k >= |rest| then None
    else if rest[k] != delimiter then PlainClosing(rest, k + 1, delimiter)
    else if k + 1 < |rest| && rest[k + 1] == delimiter then PlainClosing(rest, k + 2, delimiter)
    else Some(k + 1)
  }

  /** The scanner's other reading is that server's, but for text in backticks, which it reads in one way only. */
  lemma {:induction false} PlainSpanClosing(rest: string, k: nat, delimiter: char, ambiguous: bool)
    requires IsQuote(delimiter)
    ensures var span := SpanFrom(rest, k, delimiter, true, ambiguous);
            var end := if delimiter == '`' then Closing(rest, k, delimiter) else PlainClosing(rest, k, delimiter);
            (span.Some? <==> end.Some?) && (span.Some? ==> span.value.end == end.value)
    decreases |rest| - k
  {
    if delimiter == '`' {
      BackticksAlike(rest, k, ambiguous);
      SpanClosing(rest, k, delimiter, ambiguous);
    } else if k < |rest| {
      PlainSpanClosing(rest, if rest[k] == delimiter then k + 2 else k + 1, delimiter, ambiguous);
    }
  }

  lemma {:induction false} BackticksAlike(rest: string, k: nat, ambiguous: bool)
    ensures SpanFrom(rest, k, '`', true, ambiguous) == SpanFrom(rest, k, '`', false, ambiguous)
    decreases |rest| - k
  {
    if k < |rest| {
      if rest[k] == '\\' {
        var next := k + Run(rest, k);
        if next < |rest| {
          BackticksAlike(rest, if Run(rest, k) % 2 == 1 then next + 1 else next, ambiguous);
        }
      } else {
        BackticksAlike(rest, if rest[k] == '`' then k + 2 else k + 1, ambiguous);
      }
    }
  }

  /** A delimiter at `j` behind an odd number of backslashes: text to some modes, and the end to others. */
  predicate Doubtful(rest: string, j: nat, delimiter: char) {
    j < |rest| && rest[j] == delimiter && delimiter != '`' && OddRunBefore(rest, j)
  }

  lemma {:induction false} RunCountedBack(text: string, k: nat, n: nat)
    requires k + n <= |text| && forall i | k <= i < k + n :: text[i] == '\\'
    ensures RunBefore(text, k + n) == n + RunBefore(text, k)
  {
    if n > 0 {
      RunCountedBack(text, k, n - 1);
    }
  }

  lemma {:induction false} RunIsBackslashes(rest: string, k: nat)
    requires k <= |rest|
    ensures forall i | k <= i < k + Run(rest, k) :: rest[i] == '\\'
    ensures k + Run(rest, k) < |rest| ==> rest[k + Run(rest, k)] != '\\'
    decreases |rest| - k
  {
    if k < |rest| && rest[k] == '\\' {
      RunIsBackslashes(rest, k + 1);
    }
  }

  /** The scanner is between runs: none ends here that could go on, and none is odd. */
  ghost predicate BetweenRuns(rest: string, k: nat)
    requires k <= |rest|
  {
    if k < |rest| && rest[k] == '\\' then RunBefore(rest, k) == 0 else RunBefore(rest, k) % 2 == 0
  }

  ghost predicate AnyDoubtful(rest: string, from: nat, end: nat, delimiter: char) {
    exists j | from <= j < end :: Doubtful(rest, j, delimiter)
  }

  lemma DoubtfulSplits(rest: string, from: nat, middle: nat, end: nat, delimiter: char)
    requires from <= middle <= end
    ensures AnyDoubtful(rest, from, end, delimiter)
       <==> AnyDoubtful(rest, from, middle, delimiter) || AnyDoubtful(rest, middle, end, delimiter)
  {
    hide Doubtful;
  }

  lemma OneDoubtful(rest: string, j: nat, end: nat, delimiter: char)
    requires end <= j + 1
    ensures AnyDoubtful(rest, j, end, delimiter) <==> j < end && Doubtful(rest, j, delimiter)
  {
    hide Doubtful;
  }

  lemma NoneInRun(rest: string, k: nat, n: nat, delimiter: char)
    requires k + n <= |rest| && delimiter != '\\' && forall i | k <= i < k + n :: rest[i] == '\\'
    ensures !AnyDoubtful(rest, k, k + n, delimiter)
  {
  }

  /** A row of backslashes, with what it takes along, is doubtful where that is a delimiter. */
  lemma RunDoubt(rest: string, k: nat, delimiter: char)
    requires k < |rest| && rest[k] == '\\' && IsQuote(delimiter) && BetweenRuns(rest, k)
    requires k + Run(rest, k) < |rest|
    ensures var next := k + Run(rest, k);
            var onward := if Run(rest, k) % 2 == 1 then next + 1 else next;
            && BetweenRuns(rest, onward)
            && (AnyDoubtful(rest, k, onward, delimiter)
                <==> Run(rest, k) % 2 == 1 && rest[next] == delimiter && delimiter != '`')
  {
    var n := Run(rest, k);
    var next := k + n;
    var onward := if n % 2 == 1 then next + 1 else next;
    RunIsBackslashes(rest, k);
    RunCountedBack(rest, k, n);
    assert onward > next ==> RunBefore(rest, onward) == 0;
    NoneInRun(rest, k, n, delimiter);
    DoubtfulSplits(rest, k, next, onward, delimiter);
    OneDoubtful(rest, next, onward, delimiter);
    hide Run, AnyDoubtful;
  }

  /** Quoted text is flagged exactly where it has a doubtful delimiter. */
  lemma {:induction false} SpanFlag(rest: string, k: nat, delimiter: char, ambiguous: bool)
    requires k <= |rest| && IsQuote(delimiter) && BetweenRuns(rest, k)
    requires SpanFrom(rest, k, delimiter, false, ambiguous).Some?
    ensures var span := SpanFrom(rest, k, delimiter, false, ambiguous).value;
            span.ambiguous <==> ambiguous || AnyDoubtful(rest, k, span.end, delimiter)
    decreases |rest| - k
  {
    var end := SpanFrom(rest, k, delimiter, false, ambiguous).value.end;
    if rest[k] == '\\' {
      var n := Run(rest, k);
      var next := k + n;
      var onward := if n % 2 == 1 then next + 1 else next;
      RunDoubt(rest, k, delimiter);
      SpanFlag(rest, onward, delimiter, ambiguous || (n % 2 == 1 && rest[next] == delimiter && delimiter != '`'));
      DoubtfulSplits(rest, k, onward, end, delimiter);
    } else if rest[k] == delimiter {
      if k + 1 < |rest| && rest[k + 1] == delimiter {
        SpanFlag(rest, k + 2, delimiter, ambiguous);
        DoubtfulSplits(rest, k, k + 2, end, delimiter);
        DoubtfulSplits(rest, k, k + 1, k + 2, delimiter);
        OneDoubtful(rest, k, k + 1, delimiter);
        OneDoubtful(rest, k + 1, k + 2, delimiter);
      } else {
        OneDoubtful(rest, k, k + 1, delimiter);
      }
    } else {
      SpanFlag(rest, k + 1, delimiter, ambiguous);
      DoubtfulSplits(rest, k, k + 1, end, delimiter);
      OneDoubtful(rest, k, k + 1, delimiter);
    }
  }

  // ---- tokens, by their characters ----

  ghost predicate BeginsLineComment(rest: string) {
    || (rest != [] && rest[0] == '#')
    || (|rest| > 2 && rest[..2] == "--" && (rest[2] as int <= 0x20 || rest[2] as int == 0x7F))
  }

  /** The beginning of the text up to its first line break, which is not part of it, or all of it. */
  ghost predicate IsLine(rest: string, n: nat) {
    && n <= |rest| && (forall i | 0 <= i < n :: rest[i] != '\n') && (n < |rest| ==> rest[n] == '\n')
  }

  predicate ClosesBlock(rest: string, k: nat) {
    k + 1 < |rest| && rest[k] == '*' && rest[k + 1] == '/'
  }

  /** The text up to and with the first closing mark behind the opening one. */
  ghost predicate IsBlock(rest: string, n: nat) {
    n >= 4 && ClosesBlock(rest, n - 2) && forall k | 2 <= k < n - 2 :: !ClosesBlock(rest, k)
  }

  /**
   What a text begins with: a comment up to its end, where one for some server versions is code; quoted text up to
   where it closes, flagged where it has a doubtful delimiter; a terminator; or one character, blank if it is white
   space. What does not close is open and takes all of the text.
   */
  ghost predicate IsToken(rest: string, token: Token)
    requires rest != []
  {
    if BeginsLineComment(rest) then token.kind.Blank? && IsLine(rest, token.length)
    else if |rest| > 1 && rest[..2] == "/*" then
      if forall k | 2 <= k < |rest| :: !ClosesBlock(rest, k) then token == Token(OpenComment, |rest|)
      else IsBlock(rest, token.length) && token.kind == if rest[2] == '!' then Code else Blank
    else if rest[0] in "'\"`" then
      var end := Closing(rest, 1, rest[0]);
      if end.None? then token == Token(OpenQuote, |rest|)
      else token == Token(Quoted(AnyDoubtful(rest, 1, end.value, rest[0])), end.value)
    else token == Token(if rest[0] == ';' then Semicolon else if IsWhitespace(rest[0]) then Blank else Code, 1)
  }

  lemma {:induction false} LineIsLine(rest: string)
    ensures IsLine(rest, LineEnd(rest))
  {
    if rest != [] && rest[0] != '\n' {
      LineIsLine(rest[1..]);
      var n := LineEnd(rest);
      forall i | 0 <= i < n
        ensures rest[i] != '\n'
      {
        assert i > 0 ==> rest[i] == rest[1..][i - 1];
      }
    }
  }

  lemma {:induction false} BlockIsFirst(rest: string, k: nat)
    ensures var end := BlockEnd(rest, k);
            if end.None? then forall j | k <= j < |rest| :: !ClosesBlock(rest, j)
            else ClosesBlock(rest, end.value - 2) && forall j | k <= j < end.value - 2 :: !ClosesBlock(rest, j)
    decreases |rest| - k
  {
    if k + 1 < |rest| && !(rest[k] == '*' && rest[k + 1] == '/') {
      BlockIsFirst(rest, k + 1);
    }
  }

  /** For every text, the token the scanner takes is the one there is. */
  lemma LexIsToken(rest: string)
    requires rest != []
    ensures IsToken(rest, Lex(rest, false))
  {
    LineIsLine(rest);
    BlockIsFirst(rest, 2);
    if IsQuote(rest[0]) {
      SpanClosing(rest, 1, rest[0], false);
      if SpanFrom(rest, 1, rest[0], false, false).Some? {
        SpanFlag(rest, 1, rest[0], false);
      }
    }
    hide SpanFrom, BlockEnd, LineEnd, Closing, AnyDoubtful, IsWhitespace;
  }

  /** White space, as the Unicode property has it: by the numbers of all the characters there are of it. */
  lemma WhitespaceMeaning(c: char)
    ensures IsWhitespace(c) <==>
              c as int in {9, 10, 11, 12, 13, 32, 133, 160, 5760, 8192, 8193, 8194, 8195, 8196, 8197, 8198, 8199, 8200,
                           8201, 8202, 8232, 8233, 8239, 8287, 12288}
  {
  }

  // ---- flags ----

  lemma {:induction false} RunInSuffix(text: string, k: nat, j: nat)
    requires k < |text| && 1 <= j && k + j <= |text| && text[k] != '\\'
    ensures RunBefore(text[k..], j) == RunBefore(text, k + j)
    decreases j
  {
    if j > 1 && text[k + j - 1] == '\\' {
      RunInSuffix(text, k, j - 1);
    }
  }

  /** The token at `k` is quoted text that closes, with a doubtful delimiter in it or at its beginning. */
  ghost predicate FlaggedAt(text: string, k: nat)
    requires k < |text|
  {
    var token := Lex(text[k..], false);
    token.kind.Quoted? && (token.kind.ambiguous || QuoteIsOdd(text, k))
  }

  /** The same by its characters: one of its delimiters is behind an odd number of backslashes. */
  lemma FlagMeaning(text: string, k: nat)
    requires k < |text|
    ensures FlaggedAt(text, k)
       <==> && Lex(text[k..], false).kind.Quoted?
            && exists j | k <= j < k + Lex(text[k..], false).length :: Doubtful(text, j, text[k])
  {
    var rest := text[k..];
    var token := Lex(rest, false);
    LexIsToken(rest);
    if token.kind.Quoted? {
      assert rest[0] == text[k] && rest[0] in "'\"`";
      assert token.kind.ambiguous <==> AnyDoubtful(rest, 1, token.length, rest[0]);
      hide Lex, IsToken, Closing;
      forall j | 1 <= j < token.length
        ensures Doubtful(rest, j, rest[0]) <==> Doubtful(text, k + j, text[k])
      {
        RunInSuffix(text, k, j);
      }
      if j :| k <= j < k + token.length && Doubtful(text, j, text[k]) {
        assert j > k ==> Doubtful(rest, j - k, rest[0]);
      }
      if AnyDoubtful(rest, 1, token.length, rest[0]) {
        var j :| 1 <= j < token.length && Doubtful(rest, j, rest[0]);
        assert Doubtful(text, k + j, text[k]);
      }
      assert QuoteIsOdd(text, k) ==> Doubtful(text, k, text[k]);
    }
  }

  lemma ReachesOn(text: string, i: nat, k: nat)
    requires i < |text|
    ensures var next := i + Lex(text[i..], false).length;
            && (Reaches(text, i, k) <==> i == k || (!IsOpen(Lex(text[i..], false).kind) && Reaches(text, next, k)))
            && (Reaches(text, next, k) ==> k >= next)
  {
    hide Lex;
    var next := i + Lex(text[i..], false).length;
    if Reaches(text, next, k) {
      ReachesForward(text, next, k);
    }
  }

  lemma {:induction false} ReachesForward(text: string, i: nat, k: nat)
    requires i <= |text| && Reaches(text, i, k)
    ensures k >= i
    decreases |text| - i
  {
    hide Lex;
    if i != k {
      ReachesForward(text, i + Lex(text[i..], false).length, k);
    }
  }

  // ---- the flag of a statement ----

  /** A flagged token of the statement, among those read from `i` on. */
  ghost predicate FlagIn(text: string, i: nat, start: nat, end: nat)
    requires i <= |text|
  {
    exists k: nat | k < |text| && start <= k < end :: Reaches(text, i, k) && FlaggedAt(text, k)
  }

  lemma FlagInOn(text: string, i: nat, start: nat, end: nat)
    requires i < |text| && !IsOpen(Lex(text[i..], false).kind)
    ensures FlagIn(text, i, start, end)
       <==> || (start <= i < end && FlaggedAt(text, i))
            || FlagIn(text, i + Lex(text[i..], false).length, start, end)
  {
    hide FlaggedAt, Lex, Reaches;
    var next := i + Lex(text[i..], false).length;
    forall k: nat
      ensures Reaches(text, i, k) <==> i == k || Reaches(text, next, k)
    {
      ReachesOn(text, i, k);
    }
  }

  lemma FlagInNone(text: string, i: nat, start: nat, end: nat)
    requires i <= |text| && end <= i
    ensures !FlagIn(text, i, start, end)
  {
    hide FlaggedAt, Lex, Reaches;
    forall k: nat | k < end && Reaches(text, i, k)
      ensures false
    {
      ReachesForward(text, i, k);
    }
  }

  /** The statement is the one that is pending, or begins from `i` on. */
  ghost predicate BeginsFrom(s: Statement, i: nat, p: Pending) {
    s.start >= i || (p.first.Some? && s.start == p.first.value && s.end >= p.last)
  }

  ghost predicate FlagRight(text: string, i: nat, p: Pending, s: Statement)
    requires i <= |text|
  {
    s.ambiguous <==> (s.start < i && p.ambiguous) || FlagIn(text, i, s.start, s.end)
  }

  /** One token further on, what a flag says is the same, with this token counted. */
  lemma FlagStep(text: string, i: nat, p: Pending, s: Statement)
    requires i < |text| && WellPending(text, i, p) && StepAt(text, false, i, p).More?
    requires var step := StepAt(text, false, i, p);
             BeginsFrom(s, step.next, step.pending) && FlagRight(text, step.next, step.pending, s)
    ensures BeginsFrom(s, i, p) && FlagRight(text, i, p, s)
  {
    hide Lex, OddRunBefore, FlagIn;
    var step := StepAt(text, false, i, p);
    FlagInOn(text, i, s.start, s.end);
  }

  lemma FoundFlag(text: string, i: nat, p: Pending, s: Statement)
    requires i < |text| && WellPending(text, i, p) && StepAt(text, false, i, p).More?
    requires s in StepAt(text, false, i, p).found
    ensures BeginsFrom(s, i, p) && FlagRight(text, i, p, s)
  {
    hide Lex, OddRunBefore, FlagIn;
    var next := StepAt(text, false, i, p).next;
    FlagInOn(text, i, s.start, s.end);
    FlagInNone(text, next, s.start, s.end);
  }

  lemma {:induction false} FlagsFrom(text: string, i: nat, p: Pending)
    requires i <= |text| && WellPending(text, i, p)
    ensures forall s | s in ScanFrom(text, false, i, p).statements :: BeginsFrom(s, i, p) && FlagRight(text, i, p, s)
    decreases |text| - i
  {
    hide StepAt, FlagRight, BeginsFrom;
    if i == |text| {
      LastFlag(text, p);
    } else {
      var step := StepAt(text, false, i, p);
      if step.More? {
        TokenAt(text, false, i, p);
        FlagsFrom(text, step.next, step.pending);
        var rest := ScanFrom(text, false, step.next, step.pending).statements;
        forall s | s in step.found + rest
          ensures BeginsFrom(s, i, p) && FlagRight(text, i, p, s)
        {
          if s in rest {
            FlagStep(text, i, p, s);
          } else {
            FoundFlag(text, i, p, s);
          }
        }
      }
    }
  }

  lemma LastFlag(text: string, p: Pending)
    requires WellPending(text, |text|, p)
    ensures forall s | s in ScanFrom(text, false, |text|, p).statements ::
              BeginsFrom(s, |text|, p) && FlagRight(text, |text|, p, s)
  {
    hide FlagIn;
    if p.first.Some? {
      FlagInNone(text, |text|, p.first.value, p.last);
    }
  }

  /** A statement is flagged exactly where quoted text in it is. */
  lemma FlaggedStatements(text: string)
    ensures forall s | s in ScanOf(text).statements :: s.ambiguous <==> FlagIn(text, 0, s.start, s.end)
  {
    hide FlagIn;
    FlagsFrom(text, 0, NOTHING);
  }

  // ---- what is left open ----

  /** Executable text, or text that does not close. */
  ghost predicate Counts(text: string, k: nat) {
    k < |text| && var kind := Lex(text[k..], false).kind; Executes(kind) || IsOpen(kind)
  }

  /** Doubtful quoted text, closed or not. */
  ghost predicate DoubtAt(text: string, k: nat)
    requires k < |text|
  {
    FlaggedAt(text, k) || (Lex(text[k..], false).kind.OpenQuote? && QuoteIsOdd(text, k))
  }

  ghost predicate DoubtFrom(text: string, i: nat, start: nat)
    requires i <= |text|
  {
    exists k: nat | start <= k < |text| :: Reaches(text, i, k) && DoubtAt(text, k)
  }

  ghost predicate OpenFrom(text: string, i: nat, start: nat)
    requires i <= |text|
  {
    exists k: nat | start <= k < |text| :: Reaches(text, i, k) && IsOpen(Lex(text[k..], false).kind)
  }

  /** No terminator from `start` on, among the tokens read from `i` on. */
  ghost predicate NoTerminator(text: string, i: nat, start: nat)
    requires i <= |text|
  {
    forall k: nat | start <= k < |text| && Reaches(text, i, k) :: !Lex(text[k..], false).kind.Semicolon?
  }

  ghost predicate IssueRight(text: string, i: nat, p: Pending, issue: Option<Issue>)
    requires i <= |text|
  {
    && (issue.Some? <==> OpenFrom(text, i, 0))
    && (issue.Some? ==>
          var start := issue.value.statementStart;
          && (if p.first.Some? && start == p.first.value then true
              else start >= i && Reaches(text, i, start) && Counts(text, start))
          && NoTerminator(text, i, start)
          && (issue.value.ambiguous <==> (start < i && p.ambiguous) || DoubtFrom(text, i, start)))
  }

  lemma ReachesAll(text: string, i: nat, next: nat)
    requires i < |text| && next == i + Lex(text[i..], false).length
    ensures var open := IsOpen(Lex(text[i..], false).kind);
            && Reaches(text, i, i)
            && (forall k: nat | Reaches(text, i, k) :: k == i || (!open && Reaches(text, next, k)))
            && (forall k: nat | Reaches(text, next, k) :: k >= next && (!open ==> Reaches(text, i, k)))
  {
    hide Lex, Reaches;
    forall k: nat | Reaches(text, i, k)
      ensures k == i || (!IsOpen(Lex(text[i..], false).kind) && Reaches(text, next, k))
    {
      ReachesOn(text, i, k);
    }
    forall k: nat | Reaches(text, next, k)
      ensures k >= next && (!IsOpen(Lex(text[i..], false).kind) ==> Reaches(text, i, k))
    {
      ReachesOn(text, i, k);
    }
    ReachesOn(text, i, i);
  }

  lemma OpenStops(text: string, i: nat, p: Pending)
    requires i < |text| && WellPending(text, i, p) && StepAt(text, false, i, p).Stop?
    ensures IssueRight(text, i, p, Some(StepAt(text, false, i, p).issue))
  {
    ReachesAll(text, i, i + Lex(text[i..], false).length);
    hide Lex, OddRunBefore, Reaches;
  }

  lemma OneTokenOn(text: string, i: nat, next: nat, start: nat)
    requires i < |text| && next == i + Lex(text[i..], false).length && !IsOpen(Lex(text[i..], false).kind)
    ensures OpenFrom(text, i, 0) <==> OpenFrom(text, next, 0)
    ensures DoubtFrom(text, i, start) <==> (start <= i && DoubtAt(text, i)) || DoubtFrom(text, next, start)
    ensures NoTerminator(text, i, start)
       <==> (start <= i ==> !Lex(text[i..], false).kind.Semicolon?) && NoTerminator(text, next, start)
    ensures Reaches(text, i, i) && (Reaches(text, next, start) ==> Reaches(text, i, start))
  {
    ReachesAll(text, i, next);
    hide Lex, DoubtAt, Reaches;
  }

  lemma IssueStep(text: string, i: nat, p: Pending, issue: Option<Issue>)
    requires i < |text| && WellPending(text, i, p) && StepAt(text, false, i, p).More?
    requires IssueRight(text, StepAt(text, false, i, p).next, StepAt(text, false, i, p).pending, issue)
    ensures IssueRight(text, i, p, issue)
  {
    hide Lex, OddRunBefore, Reaches, OpenFrom, DoubtFrom, NoTerminator;
    var next := i + Lex(text[i..], false).length;
    OneTokenOn(text, i, next, if issue.Some? then issue.value.statementStart else 0);
  }

  lemma {:induction false} IssueFrom(text: string, i: nat, p: Pending)
    requires i <= |text| && WellPending(text, i, p)
    ensures IssueRight(text, i, p, ScanFrom(text, false, i, p).issue)
    decreases |text| - i
  {
    hide StepAt, IssueRight;
    if i == |text| {
      NothingOpen(text, p);
    } else {
      var step := StepAt(text, false, i, p);
      TokenAt(text, false, i, p);
      if step.More? {
        IssueFrom(text, step.next, step.pending);
        IssueStep(text, i, p, ScanFrom(text, false, step.next, step.pending).issue);
      } else {
        OpenStops(text, i, p);
      }
    }
  }

  lemma NothingOpen(text: string, p: Pending)
    ensures IssueRight(text, |text|, p, None)
  {
  }

  /**
   Something is left open exactly where a comment or quoted text does not close. It begins with the first executable
   token behind the last terminator, and is flagged exactly where quoted text from there on is doubtful.
   */
  lemma IssueMeaning(text: string)
    ensures var issue := ScanOf(text).issue;
            && (issue.Some? <==> OpenFrom(text, 0, 0))
            && (issue.Some? ==>
                  var start := issue.value.statementStart;
                  && Reaches(text, 0, start) && Counts(text, start) && NoTerminator(text, 0, start)
                  && (issue.value.ambiguous <==> DoubtFrom(text, 0, start)))
  {
    hide ScanFrom, OpenFrom, NoTerminator, DoubtFrom, Counts, Reaches;
    IssueFrom(text, 0, NOTHING);
  }

  // ---- the statement at the caret ----

  /** The caret is in the statement, or behind its last character at the end of the text. */
  ghost predicate CaretIn(text: string, caret: nat, s: Statement) {
    s.start <= caret < s.end || caret == |text| == s.end
  }

  /**
   For every text and caret: what is inferred is the text of the statement the caret is in, unless that is flagged.
   In no statement, it is an error: behind the beginning of what is left open that it is left open, or flagged, and
   anywhere else that there is none.
   */
  lemma StatementAtTheCaret(text: string, caret: nat)
    ensures forall s | s in ScanOf(text).statements && CaretIn(text, caret, s) ::
              s.start < s.end <= |text|
              && Inferred(text, caret) == if s.ambiguous then Err(AmbiguousSqlMode) else Ok(text[s.start..s.end])
    ensures (forall s | s in ScanOf(text).statements :: !CaretIn(text, caret, s)) ==>
              var issue := ScanOf(text).issue;
              Inferred(text, caret)
              == Err(if issue.Some? && caret >= issue.value.statementStart
                     then if issue.value.ambiguous then AmbiguousSqlMode else UnterminatedSqlToken
                     else NoCurrentStatement)
  {
    StatementsAreApart(text);
    hide ScanFrom;
    var statements := ScanOf(text).statements;
    forall s | s in statements
      ensures s.start < s.end <= |text|
    {
      var a :| 0 <= a < |statements| && statements[a] == s;
    }
    var current := Current(statements, caret, |text|);
    forall s | s in statements && CaretIn(text, caret, s)
      ensures current == Some(s)
    {
      var a :| 0 <= a < |statements| && statements[a] == s;
      var b :| 0 <= b < |statements| && statements[b] == current.value;
      OneStatementAtTheCaret(text, caret, a, b);
    }
  }

  // ---- targets ----

  ghost predicate AllBlank(text: string) {
    forall i | 0 <= i < |text| :: IsWhitespace(text[i])
  }

  lemma {:induction false} StartIsBlank(text: string) returns (a: nat)
    ensures a <= |text| && TrimStart(text) == text[a..] && AllBlank(text[..a])
  {
    hide IsWhitespace;
    if text != [] && IsWhitespace(text[0]) {
      a := StartIsBlank(text[1..]);
      assert text[1..][a..] == text[a + 1..];
      assert text[..a + 1] == [text[0]] + text[1..][..a];
      a := a + 1;
    } else {
      a := 0;
    }
  }

  lemma {:induction false} EndIsBlank(text: string)
    ensures TrimEnd(text) <= text && AllBlank(text[|TrimEnd(text)|..])
  {
    hide IsWhitespace;
    if text != [] && IsWhitespace(text[|text| - 1]) {
      var shorter := text[..|text| - 1];
      EndIsBlank(shorter);
      var n := |TrimEnd(shorter)|;
      forall i | 0 <= i < |text| - n
        ensures IsWhitespace(text[n..][i])
      {
        assert n + i < |text| - 1 ==> text[n..][i] == shorter[n..][i];
      }
    }
  }

  /** Trimming takes white space from both ends and nothing else, until none is left there. */
  lemma TrimIsBetween(text: string) returns (a: nat, b: nat)
    ensures a <= b <= |text| && Trim(text) == text[a..b] && AllBlank(text[..a]) && AllBlank(text[b..])
    ensures a < b ==> !IsWhitespace(text[a]) && !IsWhitespace(text[b - 1])
  {
    hide IsWhitespace, TrimStart, TrimEnd, AllBlank;
    a := StartIsBlank(text);
    var rest := text[a..];
    EndIsBlank(rest);
    b := a + |TrimEnd(rest)|;
    assert text[b..] == rest[|TrimEnd(rest)|..];
    assert rest[..b - a] == text[a..b];
    if a < b {
      TrimMeaning(text);
    }
  }

  /** From `start` to `end` only white space is outside `a` to `b`, and none at the ends inside. */
  ghost predicate TrimsTo(text: string, start: nat, end: nat, a: nat, b: nat) {
    && start <= a <= b <= end <= |text| && AllBlank(text[start..a]) && AllBlank(text[b..end])
    && (a < b ==> !IsWhitespace(text[a]) && !IsWhitespace(text[b - 1]))
  }

  /** A selection is one whole statement, or it is refused for the first of the reasons there are. */
  lemma SelectionMeaning(selection: string)
    ensures var scan := ScanOf(selection);
            SelectionError(selection)
            == if OpenFrom(selection, 0, 0) then Some(UnterminatedSqlToken)
               else if scan.statements == [] then Some(NoCurrentStatement)
               else if |scan.statements| == 1 && !scan.stray then None
               else Some(MultipleStatements)
  {
    IssueMeaning(selection);
    if selection == [] {
      assert ScanOf(selection) == Scan([], None, false);
    }
    hide ScanFrom, OpenFrom;
  }

  /**
   What the editor sends: limits and caret are checked first, in this order; a selection is cut out and trimmed, and
   runs if it is one statement; without one the caret chooses.
   */
  lemma ExtractionMeaning(text: string, caret: nat, selection: Option<CharacterRange>, rowLimit: nat, timeout: nat)
    ensures var extracted := Extracted(text, caret, selection, rowLimit, timeout);
            if rowLimit == 0 || rowLimit > 10_000 then extracted == Err(InvalidRowLimit)
            else if timeout == 0 || timeout > 300 then extracted == Err(InvalidTimeout)
            else if caret > |text| then extracted == Err(InvalidCaretPosition)
            else if selection.None? then extracted == Inferred(text, caret)
            else
              var range := selection.value;
              if !(range.start <= range.end <= |text|) then extracted == Err(InvalidSelectionRange)
              else
                exists a: nat, b: nat :: TrimsTo(text, range.start, range.end, a, b)
                               && extracted == if SelectionError(text[a..b]).Some?
                                               then Err(SelectionError(text[a..b]).value) else Ok(text[a..b])
  {
    hide SelectionError, Inferred, Trim, IsWhitespace, AllBlank;
    if selection.Some? && selection.value.start <= selection.value.end <= |text| {
      var start, end := selection.value.start, selection.value.end;
      var slice := text[start..end];
      var a, b := TrimIsBetween(slice);
      assert slice[..a] == text[start..start + a] && slice[b..] == text[start + b..end];
      assert slice[a..b] == text[start + a..start + b];
      assert TrimsTo(text, start, end, start + a, start + b);
    }
  }
}
