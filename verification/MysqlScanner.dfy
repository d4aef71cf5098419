/**
 The statement scanner for MySQL text. Positions are character positions, as in the editor; every character the
 scanner looks for is ASCII, so no byte inside another character can be mistaken for one.
 */
module MysqlScanner {
  import opened Wrappers

  // ---- characters ----

  /** `char::is_whitespace`: the Unicode property White_Space. */
  predicate IsWhitespace(c: char) {
    var code := c as int;
    || 0x09 <= code <= 0x0D || code == 0x20 || code == 0x85 || code == 0xA0 || code == 0x1680
    || 0x2000 <= code <= 0x200A || code == 0x2028 || code == 0x2029 || code == 0x202F || code == 0x205F
    || code == 0x3000
  }

  predicate IsAsciiBlank(c: char) {
    c as int <= 0x20 || c as int == 0x7F
  }

  predicate IsQuote(c: char) {
    c == '\'' || c == '"' || c == '`'
  }

  // ---- comments and quoted text, in the text from their first character on ----

  predicate DashComment(rest: string) {
    |rest| > 2 && rest[0] == '-' && rest[1] == '-' && IsAsciiBlank(rest[2])
  }

  predicate BlockComment(rest: string) {
    |rest| > 1 && rest[0] == '/' && rest[1] == '*'
  }

  /** `line_comment_end`. */
  function LineEnd(rest: string): (end: nat)
    ensures end <= |rest|
    ensures rest != [] && rest[0] != '\n' ==> end >= 1
  {
    if rest == [] || rest[0] == '\n' then 0 else 1 + LineEnd(rest[1..])
  }

  /** `block_comment_end`: past the first closing mark at or after `k`. */
  function BlockEnd(rest: string, k: nat): (end: Option<nat>)
    ensures end.Some? ==> k + 2 <= end.value <= |rest|
    decreases |rest| - k
  {
    if k + 1 >= |rest| then None
    else if rest[k] == '*' && rest[k + 1] == '/' then Some(k + 2)
    else BlockEnd(rest, k + 1)
  }

  /** The backslashes in a row from `k` on. */
  function Run(rest: string, k: nat): (run: nat)
    ensures k <= |rest| ==> k + run <= |rest|
    ensures k < |rest| && rest[k] == '\\' ==> run >= 1
    decreases |rest| - k
  {
    if k < |rest| && rest[k] == '\\' then 1 + Run(rest, k + 1) else 0
  }

  /** The backslashes in a row that end before `k`. */
  function RunBefore(text: string, k: nat): nat
    requires k <= |text|
  {
    if k > 0 && text[k - 1] == '\\' then 1 + RunBefore(text, k - 1) else 0
  }

  predicate OddRunBefore(text: string, k: nat)
    requires k <= |text|
  {
    RunBefore(text, k) % 2 == 1
  }

  datatype Span = Span(end: nat, ambiguous: bool)

  /**
   Quoted text from `k` on, up to its closing delimiter. Where `plain`, a backslash inside single or double
   quotes is a character like any other, as it is under the SQL mode NO_BACKSLASH_ESCAPES.
   */
  function SpanFrom(rest: string, k: nat, delimiter: char, plain: bool, ambiguous: bool): (span: Option<Span>)
    ensures span.Some? ==> k < span.value.end <= |rest|
    decreases |rest| - k
  {
    if k >= |rest| then None
    else if rest[k] == '\\' && !(plain && delimiter != '`') then
      var next := k + Run(rest, k);
      if next >= |rest| then None
      else
        var odd := Run(rest, k) % 2 == 1;
        SpanFrom(rest, if odd then next + 1 else next, delimiter, plain,
                 ambiguous || (odd && rest[next] == delimiter && delimiter != '`'))
    else if rest[k] == delimiter then
      if k + 1 < |rest| && rest[k + 1] == delimiter then SpanFrom(rest, k + 2, delimiter, plain, ambiguous)
      else Some(Span(k + 1, ambiguous))
    else SpanFrom(rest, k + 1, delimiter, plain, ambiguous)
  }

  // ---- tokens ----

  datatype Kind = Blank | Code | Quoted(ambiguous: bool) | Semicolon | OpenComment | OpenQuote

  datatype Token = Token(kind: Kind, length: nat)

  predicate IsOpen(kind: Kind) {
    kind.OpenComment? || kind.OpenQuote?
  }

  /** Executable text. */
  predicate Executes(kind: Kind) {
    kind.Code? || kind.Quoted?
  }

  /** The token a text begins with. It depends on nothing before it. */
  function Lex(rest: string, plain: bool): (token: Token)
    requires rest != []
    ensures 1 <= token.length <= |rest|
  {
    if rest[0] == '#' || DashComment(rest) then Token(Blank, LineEnd(rest))
    else if BlockComment(rest) then
      var end := BlockEnd(rest, 2);
      if end.None? then Token(OpenComment, |rest|)
      else Token(if rest[2] == '!' then Code else Blank, end.value)
    else if IsQuote(rest[0]) then
      var span := SpanFrom(rest, 1, rest[0], plain, false);
      if span.None? then Token(OpenQuote, |rest|) else Token(Quoted(span.value.ambiguous), span.value.end)
    else if rest[0] == ';' then Token(Semicolon, 1)
    else Token(if IsWhitespace(rest[0]) then Blank else Code, 1)
  }

  // ---- statements ----

  datatype Pending = Pending(first: Option<nat>, last: nat, ambiguous: bool) {
    function Mark(start: nat, end: nat): Pending {
      Pending(if first.None? then Some(start) else first, end, ambiguous)
    }

    function Finish(end: nat): seq<Statement> {
      if first.None? then [] else [Statement(first.value, end, ambiguous)]
    }

    function StartOr(index: nat): nat {
      if first.Some? then first.value else index
    }
  }

  const NOTHING := Pending(None, 0, false)

  datatype Statement = Statement(start: nat, end: nat, ambiguous: bool)

  datatype Issue = Issue(statementStart: nat, ambiguous: bool)

  datatype Scan = Scan(statements: seq<Statement>, issue: Option<Issue>, stray: bool)

  function After(statements: seq<Statement>, stray: bool, rest: Scan): Scan {
    Scan(statements + rest.statements, rest.issue, stray || rest.stray)
  }

  /** A quote after an odd number of backslashes, which some modes would read as a character. */
  predicate QuoteIsOdd(text: string, i: nat)
    requires i < |text|
  {
    text[i] != '`' && OddRunBefore(text, i)
  }

  datatype Step =
    | More(next: nat, pending: Pending, found: seq<Statement>, stray: bool)
    | Stop(issue: Issue)

  /** What the token at `i` does when `p` is pending. */
  function StepAt(text: string, plain: bool, i: nat, p: Pending): (step: Step)
    requires i < |text|
    ensures step.More? ==> i < step.next <= |text|
  {
    var token := Lex(text[i..], plain);
    var next := i + token.length;
    match token.kind
    case Blank => More(next, p, [], false)
    case Code => More(next, p.Mark(i, next), [], false)
    case Quoted(ambiguous) =>
      More(next, p.Mark(i, next).(ambiguous := p.ambiguous || QuoteIsOdd(text, i) || ambiguous), [], false)
    case Semicolon => More(next, NOTHING, p.Finish(next), p.first.None?)
    case OpenComment => Stop(Issue(p.StartOr(i), p.ambiguous))
    case OpenQuote => Stop(Issue(p.StartOr(i), p.ambiguous || QuoteIsOdd(text, i)))
  }

  /** What is found from `i` on, when `p` is pending. */
  function ScanFrom(text: string, plain: bool, i: nat, p: Pending): Scan
    requires i <= |text|
    decreases |text| - i
  {
    if i == |text| then Scan(p.Finish(p.last), None, false)
    else
      match StepAt(text, plain, i, p)
      case More(next, pending, found, stray) => After(found, stray, ScanFrom(text, plain, next, pending))
      case Stop(issue) => Scan([], Some(issue), false)
  }

  lemma Unfolded(text: string, plain: bool, i: nat, p: Pending)
    requires i < |text|
    ensures ScanFrom(text, plain, i, p)
         == match StepAt(text, plain, i, p)
            case More(next, pending, found, stray) => After(found, stray, ScanFrom(text, plain, next, pending))
            case Stop(issue) => Scan([], Some(issue), false)
  {
  }

  lemma AfterTwice(a: seq<Statement>, s: bool, b: seq<Statement>, t: bool, rest: Scan)
    ensures After(a, s, After(b, t, rest)) == After(a + b, s || t, rest)
    ensures After([], false, rest) == rest
  {
    assert a + (b + rest.statements) == (a + b) + rest.statements;
  }

  function ScanOf(text: string): Scan {
    ScanFrom(text, false, 0, NOTHING)
  }

  // ---- the scanner as it runs ----

  /** `quoted_span`, from the opening delimiter on. */
  method QuotedSpan(rest: string, delimiter: char) returns (span: Option<Span>)
    requires rest != []
    ensures span == SpanFrom(rest, 1, delimiter, false, false)
  {
    var index := 1;
    var ambiguous := false;
    while index < |rest|
      invariant 1 <= index
      invariant SpanFrom(rest, index, delimiter, false, ambiguous) == SpanFrom(rest, 1, delimiter, false, false)
    {
      if rest[index] == '\\' {
        var runStart := index;
        while index < |rest| && rest[index] == '\\'
          invariant runStart <= index <= |rest|
          invariant (index - runStart) + Run(rest, index) == Run(rest, runStart)
        {
          index := index + 1;
        }
        var oddRun := (index - runStart) % 2 == 1;
        if index >= |rest| {
          break;
        }
        if rest[index] == delimiter && delimiter != '`' && oddRun {
          ambiguous := true;
        }
        if oddRun {
          index := index + 1;
        }
        continue;
      }
      if rest[index] == delimiter {
        if index + 1 < |rest| && rest[index + 1] == delimiter {
          index := index + 2;
          continue;
        }
        return Some(Span(index + 1, ambiguous));
      }
      index := index + 1;
    }
    return None;
  }

  /** One turn of the loop, on what is found so far. */
  lemma OneStep(statements: seq<Statement>, stray: bool, text: string, i: nat, p: Pending)
    requires i < |text|
    ensures match StepAt(text, false, i, p)
            case More(next, pending, found, more) =>
              After(statements, stray, ScanFrom(text, false, i, p))
              == After(statements + found, stray || more, ScanFrom(text, false, next, pending))
            case Stop(issue) =>
              After(statements, stray, ScanFrom(text, false, i, p)) == Scan(statements, Some(issue), stray)
  {
    Unfolded(text, false, i, p);
    match StepAt(text, false, i, p) {
      case More(next, pending, found, more) =>
        AfterTwice(statements, stray, found, more, ScanFrom(text, false, next, pending));
      case Stop(issue) =>
    }
  }

  lemma TheEnd(statements: seq<Statement>, stray: bool, text: string, p: Pending)
    ensures After(statements, stray, ScanFrom(text, false, |text|, p)) == Scan(statements + p.Finish(p.last), None, stray)
  {
  }

  /** `scan_mysql`. */
  method ScanMysql(text: string) returns (scan: Scan)
    ensures scan == ScanOf(text)
  {
    hide SpanFrom, BlockEnd, LineEnd, DashComment, IsWhitespace, RunBefore, ScanFrom, After;
    var statements: seq<Statement> := [];
    var pending := NOTHING;
    var stray := false;
    var index := 0;
    AfterTwice([], false, [], false, ScanOf(text));
    while index < |text|
      invariant 0 <= index <= |text|
      invariant pending.first.None? ==> pending == NOTHING
      invariant After(statements, stray, ScanFrom(text, false, index, pending)) == ScanOf(text)
    {
      OneStep(statements, stray, text, index, pending);
      assert statements + [] == statements;
      var rest := text[index..];
      if rest[0] == '#' || DashComment(rest) {
        index := index + LineEnd(rest);
        continue;
      }
      if BlockComment(rest) {
        var version := |rest| > 2 && rest[2] == '!';
        var end := BlockEnd(rest, 2);
        if end.None? {
          return Scan(statements, Some(Issue(pending.StartOr(index), pending.ambiguous)), stray);
        }
        if version {
          pending := pending.Mark(index, index + end.value);
        }
        index := index + end.value;
        continue;
      }
      var c := rest[0];
      if IsQuote(c) {
        pending := pending.Mark(index, index + 1);
        var precedingOdd := c != '`' && OddRunBefore(text, index);
        var span := QuotedSpan(rest, c);
        match span {
          case Some(quoted) =>
            pending := pending.Mark(index, index + quoted.end);
            pending := pending.(ambiguous := pending.ambiguous || precedingOdd || quoted.ambiguous);
            index := index + quoted.end;
          case None =>
            pending := pending.(ambiguous := pending.ambiguous || precedingOdd);
            return Scan(statements, Some(Issue(pending.StartOr(index), pending.ambiguous)), stray);
        }
        continue;
      }
      if c == ';' {
        if pending.first.Some? {
          statements := statements + pending.Finish(index + 1);
          pending := NOTHING;
        } else {
          stray := true;
        }
        index := index + 1;
        continue;
      }
      if !IsWhitespace(c) {
        pending := pending.Mark(index, index + 1);
      }
      index := index + 1;
    }
    TheEnd(statements, stray, text, pending);
    return Scan(statements + pending.Finish(pending.last), None, stray);
  }
}
