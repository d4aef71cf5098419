/** From the editor's caret or selection to the one statement that is run. */
module MysqlTargets {
  import opened Wrappers
  import opened MysqlScanner
  import opened MysqlStatements

  const MAX_EXECUTE_ROW_LIMIT: nat := 10_000
  const MAX_EXECUTE_TIMEOUT_SECONDS: nat := 300

  datatype TargetError =
    | InvalidCaretPosition
    | InvalidSelectionRange
    | InvalidRowLimit
    | InvalidTimeout
    | NoCurrentStatement
    | MultipleStatements
    | AmbiguousSqlMode
    | UnterminatedSqlToken

  // ---- validation and inference ----

  /** `validate_mysql_selection`: the error, if there is one. */
  method ValidateSelection(selection: string) returns (error: Option<TargetError>)
    ensures error == SelectionError(selection)
  {
    if selection == [] {
      return Some(NoCurrentStatement);
    }
    var scan := ScanMysql(selection);
    if scan.issue.Some? {
      return Some(UnterminatedSqlToken);
    }
    if |scan.statements| == 0 {
      return Some(NoCurrentStatement);
    }
    if |scan.statements| == 1 && !scan.stray {
      return None;
    }
    return Some(MultipleStatements);
  }

  function SelectionError(selection: string): Option<TargetError> {
    var scan := ScanOf(selection);
    if selection == [] then Some(NoCurrentStatement)
    else if scan.issue.Some? then Some(UnterminatedSqlToken)
    else if |scan.statements| == 0 then Some(NoCurrentStatement)
    else if |scan.statements| > 1 || scan.stray then Some(MultipleStatements)
    else None
  }

  /** The first statement that contains the caret. */
  function Current(statements: seq<Statement>, caret: nat, textLength: nat): (current: Option<Statement>)
    ensures current.Some? ==> current.value in statements && Contains(current.value, caret, textLength)
    ensures current.None? ==> forall s | s in statements :: !Contains(s, caret, textLength)
  {
    if statements == [] then None
    else if Contains(statements[0], caret, textLength) then Some(statements[0])
    else Current(statements[1..], caret, textLength)
  }

  /** `infer_mysql_target`. */
  function Inferred(text: string, caret: nat): Result<string, TargetError> {
    var scan := ScanOf(text);
    var current := Current(scan.statements, caret, |text|);
    if current.Some? then
      if current.value.ambiguous then Err(AmbiguousSqlMode)
      else if current.value.start <= current.value.end <= |text| then
        Ok(text[current.value.start..current.value.end])
      else Err(InvalidCaretPosition)
    else if scan.issue.Some? && caret >= scan.issue.value.statementStart then
      Err(if scan.issue.value.ambiguous then AmbiguousSqlMode else UnterminatedSqlToken)
    else Err(NoCurrentStatement)
  }

  // ---- trimming ----

  function TrimStart(text: string): (trimmed: string)
    ensures trimmed == [] || !IsWhitespace(trimmed[0])
  {
    if text != [] && IsWhitespace(text[0]) then TrimStart(text[1..]) else text
  }

  function TrimEnd(text: string): (trimmed: string)
    ensures trimmed <= text
    ensures trimmed == [] || !IsWhitespace(trimmed[|trimmed| - 1])
  {
    if text != [] && IsWhitespace(text[|text| - 1]) then TrimEnd(text[..|text| - 1]) else text
  }

  /** `str::trim`. */
  function Trim(text: string): string {
    TrimEnd(TrimStart(text))
  }

  /** What begins and ends with other than white space is not trimmed, and nothing is trimmed twice. */
  lemma TrimMeaning(text: string)
    ensures Trim(text) == [] || (!IsWhitespace(Trim(text)[0]) && !IsWhitespace(Trim(text)[|Trim(text)| - 1]))
    ensures Trim(text) == text <==> text == [] || (!IsWhitespace(text[0]) && !IsWhitespace(text[|text| - 1]))
    ensures Trim(Trim(text)) == Trim(text)
  {
  }

  // ---- a statement read again ----

  ghost predicate OneStatement(scan: Scan, start: nat, end: nat) {
    && scan.issue.None? && !scan.stray && |scan.statements| == 1
    && scan.statements[0].start == start && scan.statements[0].end == end
  }

  /** Reading on inside a statement that was cut out of its text finds the end where the text had it. */
  lemma {:induction false} ReadAgain(text: string, start: nat, end: nat, i: nat, last: nat, p: Pending)
    requires start <= last <= i <= end <= |text| && StatementEnd(text, i, last) == Some(end)
    requires p.first == Some(0) && p.last == last - start
    ensures OneStatement(ScanFrom(text[start..end], false, i - start, p), 0, end - start)
    decreases end - i
  {
    hide Lex, OddRunBefore;
    var slice := text[start..end];
    EndIsBeyond(text, i, last);
    if i < end {
      var rest := text[i..];
      var token := Lex(rest, false);
      var next := i + token.length;
      EndIsBeyond(text, next, last);
      EndIsBeyond(text, next, next);
      assert slice[i - start..] == rest[..end - i];
      CutToken(rest, end - i);
      var step := StepAt(slice, false, i - start, p);
      if token.kind.Blank? {
        ReadAgain(text, start, end, next, last, p);
      } else if Executes(token.kind) {
        ReadAgain(text, start, end, next, next, step.pending);
      } else {
        assert ScanFrom(slice, false, end - start, NOTHING) == Scan([], None, false);
      }
    }
  }

  /** A statement cut out of its text is exactly one statement. */
  lemma CutOut(text: string, start: nat, end: nat)
    requires IsStatement(text, start, end)
    ensures start < end <= |text| && OneStatement(ScanOf(text[start..end]), 0, end - start)
  {
    hide Lex, OddRunBefore;
    var rest := text[start..];
    var token := Lex(rest, false);
    var next := start + token.length;
    EndIsBeyond(text, next, next);
    var slice := text[start..end];
    assert slice[0..] == rest[..end - start];
    CutToken(rest, end - start);
    var step := StepAt(slice, false, 0, NOTHING);
    ReadAgain(text, start, end, next, next, step.pending);
  }

  /**
   For every text and caret: a statement that is inferred is not changed by trimming and is accepted as a
   selection, as one statement from its first character to its last.
   */
  lemma InferredIsAccepted(text: string, caret: nat)
    requires Inferred(text, caret).Ok?
    ensures var target := Inferred(text, caret).value;
            && target != [] && Trim(target) == target && SelectionError(target).None?
            && OneStatement(ScanOf(target), 0, |target|)
  {
    hide ScanFrom, Lex, StatementEnd;
    var scan := ScanOf(text);
    var current := Current(scan.statements, caret, |text|).value;
    FoundAreStatements(text, 0, NOTHING);
    CutOut(text, current.start, current.end);
    StatementsAreApart(text);
    TrimMeaning(text[current.start..current.end]);
  }

  /** Inference fails for the three reasons it may, each exactly where the text gives it. */
  lemma InferenceMeaning(text: string, caret: nat)
    ensures Inferred(text, caret).Ok?
       <==> exists s | s in ScanOf(text).statements :: Contains(s, caret, |text|) && !s.ambiguous
    ensures forall s | s in ScanOf(text).statements && Contains(s, caret, |text|) && !s.ambiguous ::
              s.start <= s.end <= |text| && Inferred(text, caret) == Ok(text[s.start..s.end])
    ensures Inferred(text, caret) != Err(InvalidCaretPosition)
  {
    hide ScanFrom;
    StatementsAreApart(text);
    var statements := ScanOf(text).statements;
    var current := Current(statements, caret, |text|);
    if current.Some? {
      var a :| 0 <= a < |statements| && statements[a] == current.value;
      forall s | s in statements && Contains(s, caret, |text|)
        ensures s == current.value
      {
        var b :| 0 <= b < |statements| && statements[b] == s;
        OneStatementAtTheCaret(text, caret, a, b);
      }
    }
  }

  // ---- the request ----

  datatype CharacterRange = CharacterRange(start: nat, end: nat)

  /** `checked_character_slice`. */
  function Slice(text: string, range: CharacterRange): Result<string, TargetError> {
    if range.start > range.end || range.end > |text| then Err(InvalidSelectionRange)
    else Ok(text[range.start..range.end])
  }

  /** `extract_and_validate_target` for MySQL. */
  function Extracted(text: string, caret: nat, selection: Option<CharacterRange>, rowLimit: nat, timeout: nat)
    : Result<string, TargetError>
  {
    if !(1 <= rowLimit <= MAX_EXECUTE_ROW_LIMIT) then Err(InvalidRowLimit)
    else if !(1 <= timeout <= MAX_EXECUTE_TIMEOUT_SECONDS) then Err(InvalidTimeout)
    else if caret > |text| then Err(InvalidCaretPosition)
    else if selection.None? then Inferred(text, caret)
    else
      var selected := Slice(text, selection.value);
      if selected.Err? then selected
      else
        var target := Trim(selected.value);
        if SelectionError(target).Some? then Err(SelectionError(target).value) else Ok(target)
  }

  /** `validate_execute_target`: the service reads the whole text it is sent as a selection. */
  function Served(text: string, rowLimit: nat, timeout: nat): Result<string, TargetError> {
    Extracted(text, |text|, Some(CharacterRange(0, |text|)), rowLimit, timeout)
  }

  /**
   For every text, caret, selection and pair of limits: the service accepts what the editor extracts, and runs
   precisely that, which is one whole statement.
   */
  lemma ServedIsExtracted(text: string, caret: nat, selection: Option<CharacterRange>, rowLimit: nat, timeout: nat)
    requires Extracted(text, caret, selection, rowLimit, timeout).Ok?
    ensures var target := Extracted(text, caret, selection, rowLimit, timeout).value;
            && Served(target, rowLimit, timeout) == Ok(target)
            && |ScanOf(target).statements| == 1 && ScanOf(target).issue.None? && !ScanOf(target).stray
  {
    hide ScanFrom, Trim;
    var target := Extracted(text, caret, selection, rowLimit, timeout).value;
    assert target[0..|target|] == target;
    if selection.None? {
      InferredIsAccepted(text, caret);
    } else {
      TrimMeaning(Slice(text, selection.value).value);
    }
  }

  // ---- the dependence on the SQL mode ----

  /** A flag once raised stays. */
  lemma {:induction false} FlagStays(rest: string, k: nat, delimiter: char, plain: bool)
    ensures var span := SpanFrom(rest, k, delimiter, plain, true); span.Some? ==> span.value.ambiguous
    decreases |rest| - k
  {
    if k < |rest| {
      if rest[k] == '\\' && !(plain && delimiter != '`') {
        var next := k + Run(rest, k);
        if next < |rest| {
          FlagStays(rest, if Run(rest, k) % 2 == 1 then next + 1 else next, delimiter, plain);
        }
      } else if rest[k] == delimiter {
        FlagStays(rest, k + 2, delimiter, plain);
      } else {
        FlagStays(rest, k + 1, delimiter, plain);
      }
    }
  }

  /** Where a backslash is a character like any other, a row of them is passed one by one. */
  lemma {:induction false} PlainRun(rest: string, k: nat, delimiter: char)
    requires k <= |rest| && delimiter != '`' && delimiter != '\\'
    ensures SpanFrom(rest, k, delimiter, true, false) == SpanFrom(rest, k + Run(rest, k), delimiter, true, false)
    ensures k + Run(rest, k) < |rest| ==> rest[k + Run(rest, k)] != '\\'
    decreases |rest| - k
  {
    if k < |rest| && rest[k] == '\\' {
      PlainRun(rest, k + 1, delimiter);
    }
  }

  /** Quoted text that is not flagged ends in the same place under both readings. */
  lemma {:induction false} SpanInBothModes(rest: string, k: nat, delimiter: char)
    requires IsQuote(delimiter)
    requires var span := SpanFrom(rest, k, delimiter, false, false); span.Some? && !span.value.ambiguous
    ensures SpanFrom(rest, k, delimiter, true, false) == SpanFrom(rest, k, delimiter, false, false)
    decreases |rest| - k
  {
    if rest[k] == '\\' {
      var next := k + Run(rest, k);
      var odd := Run(rest, k) % 2 == 1;
      var onward := if odd then next + 1 else next;
      if odd && rest[next] == delimiter && delimiter != '`' {
        FlagStays(rest, onward, delimiter, false);
      } else {
        SpanInBothModes(rest, onward, delimiter);
      }
      if delimiter != '`' {
        PlainRun(rest, k, delimiter);
      }
    } else if rest[k] == delimiter {
      if k + 1 < |rest| && rest[k + 1] == delimiter {
        SpanInBothModes(rest, k + 2, delimiter);
      }
    } else {
      SpanInBothModes(rest, k + 1, delimiter);
    }
  }

  lemma TokenInBothModes(rest: string)
    requires rest != [] && !IsOpen(Lex(rest, false).kind)
    requires Lex(rest, false).kind != Quoted(true)
    ensures Lex(rest, true) == Lex(rest, false)
  {
    hide SpanFrom, BlockEnd, LineEnd, DashComment, IsWhitespace;
    if IsQuote(rest[0]) && rest[0] != '#' && !DashComment(rest) && !BlockComment(rest) {
      SpanInBothModes(rest, 1, rest[0]);
    }
  }

  ghost predicate Unflagged(scan: Scan) {
    scan.issue.None? && forall s | s in scan.statements :: !s.ambiguous
  }

  /** A flag on what is pending ends on a statement. */
  lemma {:induction false} PendingFlagIsFound(text: string, i: nat, p: Pending)
    requires i <= |text| && p.first.Some? && p.ambiguous
    ensures !Unflagged(ScanFrom(text, false, i, p))
    decreases |text| - i
  {
    hide Lex, OddRunBefore;
    if i < |text| {
      var step := StepAt(text, false, i, p);
      if step.More? {
        var rest := ScanFrom(text, false, step.next, step.pending);
        var all := step.found + rest.statements;
        if step.found == [] {
          PendingFlagIsFound(text, step.next, step.pending);
          assert all == rest.statements;
        } else {
          assert all[0] == step.found[0];
        }
      }
    } else {
      assert p.Finish(p.last)[0].ambiguous;
    }
  }

  lemma {:induction false} ScanInBothModes(text: string, i: nat, p: Pending)
    requires i <= |text| && (p.first.None? ==> p == NOTHING)
    requires Unflagged(ScanFrom(text, false, i, p))
    ensures ScanFrom(text, true, i, p) == ScanFrom(text, false, i, p)
    decreases |text| - i
  {
    hide Lex, OddRunBefore;
    if i < |text| {
      var step := StepAt(text, false, i, p);
      var rest := ScanFrom(text, false, step.next, step.pending);
      forall s | s in rest.statements
        ensures s in step.found + rest.statements
      {
      }
      if step.pending.ambiguous && step.pending.first.Some? {
        PendingFlagIsFound(text, step.next, step.pending);
      }
      assert Lex(text[i..], false).kind != Quoted(true);
      TokenInBothModes(text[i..]);
      ScanInBothModes(text, step.next, step.pending);
    }
  }

  /**
   For every text: where nothing is left open and no statement is flagged, a server that gives backslashes no
   meaning inside single and double quotes finds the very same statements.
   */
  lemma UnflaggedMeansTheSameInBothModes(text: string)
    requires Unflagged(ScanOf(text))
    ensures ScanFrom(text, true, 0, NOTHING) == ScanOf(text)
  {
    ScanInBothModes(text, 0, NOTHING);
  }
}
