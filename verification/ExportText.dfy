/** The CSV and TSV text of a grid, and the readers that give the grid back. */
module ExportText {
  import opened Wrappers

  // ---- CSV ----

  predicate NeedsQuotes(field: string) {
    exists i | 0 <= i < |field| :: field[i] == ',' || field[i] == '"' || field[i] == '\r' || field[i] == '\n'
  }

  function DoubleQuotes(text: string): string {
    if text == [] then [] else (if text[0] == '"' then "\"\"" else [text[0]]) + DoubleQuotes(text[1..])
  }

  function CsvField(field: string): string {
    if NeedsQuotes(field) then "\"" + DoubleQuotes(field) + "\"" else field
  }

  /** A field is written as it is exactly where it has no comma, quote or line break, and in quotes otherwise. */
  lemma QuotedWhereNeeded(field: string)
    ensures CsvField(field) == field <==> forall c | c in field :: c !in ",\"\r\n"
    ensures CsvField(field) != field ==>
              |CsvField(field)| >= 2 && CsvField(field)[0] == '"' && CsvField(field)[|CsvField(field)| - 1] == '"'
  {
    QuotesGrow(field);
    if NeedsQuotes(field) {
      var i :| 0 <= i < |field| && (field[i] == ',' || field[i] == '"' || field[i] == '\r' || field[i] == '\n');
      assert field[i] in field;
    }
  }

  lemma {:induction false} QuotesGrow(text: string)
    ensures |DoubleQuotes(text)| >= |text|
  {
    if text != [] {
      QuotesGrow(text[1..]);
    }
  }

  function CsvFields(fields: seq<string>): string {
    if fields == [] then []
    else if |fields| == 1 then CsvField(fields[0])
    else CsvField(fields[0]) + "," + CsvFields(fields[1..])
  }

  function CsvLine(fields: seq<string>): string {
    CsvFields(fields) + "\r\n"
  }

  function CsvText(lines: seq<seq<string>>): string {
    if lines == [] then [] else CsvLine(lines[0]) + CsvText(lines[1..])
  }

  // ---- reading CSV, section 2 of RFC 4180 ----

  /** Inside quotes: two quotes are one, and a single one ends the field. */
  function ReadQuoted(text: string): (read: Option<Read<string>>)
    ensures read.Some? ==> |read.value.rest| < |text|
  {
    if text == [] then None
    else if text[0] != '"' then
      var more := ReadQuoted(text[1..]);
      if more.None? then None else Some(Read([text[0]] + more.value.value, more.value.rest))
    else if |text| > 1 && text[1] == '"' then
      var more := ReadQuoted(text[2..]);
      if more.None? then None else Some(Read("\"" + more.value.value, more.value.rest))
    else Some(Read("", text[1..]))
  }

  /** Outside quotes: up to a comma or the end of the line. */
  function ReadPlain(text: string): (read: Read<string>)
    ensures |read.rest| <= |text|
  {
    if text == [] || text[0] == ',' || text[0] == '\r' || text[0] == '\n' then Read("", text)
    else
      var more := ReadPlain(text[1..]);
      Read([text[0]] + more.value, more.rest)
  }

  function ReadField(text: string): (read: Option<Read<string>>)
    ensures read.Some? ==> |read.value.rest| <= |text|
  {
    if text != [] && text[0] == '"' then ReadQuoted(text[1..]) else Some(ReadPlain(text))
  }

  predicate EndsLine(text: string) {
    |text| >= 2 && text[0] == '\r' && text[1] == '\n'
  }

  function ReadLine(text: string): (read: Option<Read<seq<string>>>)
    ensures read.Some? ==> |read.value.rest| < |text|
    decreases |text|
  {
    var field := ReadField(text);
    if field.None? then None
    else
      var rest := field.value.rest;
      if EndsLine(rest) then Some(Read([field.value.value], rest[2..]))
      else if rest != [] && rest[0] == ',' then
        var more := ReadLine(rest[1..]);
        if more.None? then None else Some(Read([field.value.value] + more.value.value, more.value.rest))
      else None
  }

  function ReadCsv(text: string): Option<seq<seq<string>>>
    decreases |text|
  {
    if text == [] then Some([])
    else
      var line := ReadLine(text);
      if line.None? then None
      else
        var more := ReadCsv(line.value.rest);
        if more.None? then None else Some([line.value.value] + more.value)
  }

  lemma {:induction false} QuotedReadsBack(field: string, rest: string)
    requires rest == [] || rest[0] != '"'
    ensures ReadQuoted(DoubleQuotes(field) + "\"" + rest) == Some(Read(field, rest))
  {
    var text := DoubleQuotes(field) + "\"" + rest;
    if field == [] {
      assert text[1..] == rest;
    } else {
      QuotedReadsBack(field[1..], rest);
      var tail := DoubleQuotes(field[1..]) + "\"" + rest;
      if field[0] == '"' {
        assert text[2..] == tail;
      } else {
        assert text[1..] == tail;
      }
      assert [field[0]] + field[1..] == field;
    }
  }

  lemma {:induction false} PlainReadsBack(field: string, rest: string)
    requires !NeedsQuotes(field) && rest != [] && (rest[0] == ',' || rest[0] == '\r')
    ensures ReadPlain(field + rest) == Read(field, rest)
  {
    var text := field + rest;
    if field == [] {
      assert text == rest;
    } else {
      forall i | 0 <= i < |field[1..]|
        ensures field[1..][i] == field[i + 1]
      {
      }
      PlainReadsBack(field[1..], rest);
      assert text[1..] == field[1..] + rest;
      assert [field[0]] + field[1..] == field;
    }
  }

  lemma FieldReadsBack(field: string, rest: string)
    requires rest != [] && (rest[0] == ',' || rest[0] == '\r')
    ensures ReadField(CsvField(field) + rest) == Some(Read(field, rest))
  {
    hide ReadQuoted, ReadPlain, DoubleQuotes;
    var text := CsvField(field) + rest;
    if NeedsQuotes(field) {
      QuotedReadsBack(field, rest);
      assert text[0] == '"' && text[1..] == DoubleQuotes(field) + "\"" + rest;
    } else {
      PlainReadsBack(field, rest);
      assert text == field + rest;
      if field != [] {
        assert text[0] == field[0] && field[0] != '"';
      } else {
        assert text == rest;
      }
    }
  }

  lemma {:induction false} LineReadsBack(fields: seq<string>, rest: string)
    requires fields != []
    ensures ReadLine(CsvLine(fields) + rest) == Some(Read(fields, rest))
  {
    hide CsvField, ReadField;
    var text, end := CsvLine(fields) + rest, "\r\n" + rest;
    if |fields| == 1 {
      assert text == CsvField(fields[0]) + end;
      FieldReadsBack(fields[0], end);
      assert end[2..] == rest && [fields[0]] == fields;
    } else {
      var after := "," + (CsvLine(fields[1..]) + rest);
      assert text == CsvField(fields[0]) + after;
      FieldReadsBack(fields[0], after);
      assert after[1..] == CsvLine(fields[1..]) + rest;
      LineReadsBack(fields[1..], rest);
      assert [fields[0]] + fields[1..] == fields;
    }
  }

  /** For every grid with a column: reading its CSV gives the grid. */
  lemma {:induction false} CsvReadsBack(lines: seq<seq<string>>)
    requires forall i | 0 <= i < |lines| :: lines[i] != []
    ensures ReadCsv(CsvText(lines)) == Some(lines)
  {
    hide CsvLine, ReadLine;
    if lines != [] {
      LineReadsBack(lines[0], CsvText(lines[1..]));
      LineIsSome(lines[0]);
      CsvReadsBack(lines[1..]);
      assert [lines[0]] + lines[1..] == lines;
    }
  }

  lemma LineIsSome(fields: seq<string>)
    ensures CsvLine(fields) != []
  {
  }

  // ---- TSV ----

  function TsvChar(c: char): string {
    if c == '\\' then "\\\\" else if c == '\t' then "\\t" else if c == '\r' then "\\r" else if c == '\n' then "\\n" else [c]
  }

  function TsvField(value: string): string {
    if value == [] then [] else TsvChar(value[0]) + TsvField(value[1..])
  }

  /** `tsv_field`. */
  method EscapeTsv(value: string) returns (escaped: string)
    ensures escaped == TsvField(value)
  {
    escaped := [];
    var i := 0;
    while i < |value|
      invariant 0 <= i <= |value| && escaped + TsvField(value[i..]) == TsvField(value)
    {
      assert value[i..][1..] == value[i + 1..];
      assert escaped + (TsvChar(value[i]) + TsvField(value[i + 1..])) == escaped + TsvChar(value[i]) + TsvField(value[i + 1..]);
      escaped := escaped + TsvChar(value[i]);
      i := i + 1;
    }
  }

  function Unescaped(text: string): string {
    if text == [] then []
    else if text[0] == '\\' && |text| > 1 then
      [if text[1] == 't' then '\t' else if text[1] == 'r' then '\r' else if text[1] == 'n' then '\n' else text[1]]
      + Unescaped(text[2..])
    else [text[0]] + Unescaped(text[1..])
  }

  lemma {:induction false} TsvFieldReadsBack(value: string)
    ensures Unescaped(TsvField(value)) == value
  {
    if value != [] {
      TsvFieldReadsBack(value[1..]);
      OneUnescaped(value[0], TsvField(value[1..]));
      assert [value[0]] + value[1..] == value;
    }
  }

  lemma OneUnescaped(c: char, tail: string)
    ensures Unescaped(TsvChar(c) + tail) == [c] + Unescaped(tail)
  {
    assert (TsvChar(c) + tail)[|TsvChar(c)|..] == tail;
  }

  /** An escaped field is one line and one column. */
  lemma {:induction false} TsvFieldIsPlain(value: string)
    ensures forall i | 0 <= i < |TsvField(value)| :: TsvField(value)[i] !in "\t\r\n"
  {
    if value != [] {
      TsvFieldIsPlain(value[1..]);
      assert forall i | 0 <= i < |TsvChar(value[0])| :: TsvChar(value[0])[i] !in "\t\r\n";
    }
  }

  function TsvFields(fields: seq<string>): string {
    if fields == [] then []
    else if |fields| == 1 then TsvField(fields[0])
    else TsvField(fields[0]) + "\t" + TsvFields(fields[1..])
  }

  function TsvLine(fields: seq<string>): string {
    TsvFields(fields) + "\n"
  }

  function TsvText(lines: seq<seq<string>>): string {
    if lines == [] then [] else TsvLine(lines[0]) + TsvText(lines[1..])
  }

  /** The text up to the first `stop`, and what follows it. */
  function UpTo(text: string, stop: char): Read<string> {
    if text == [] || text[0] == stop then Read("", text)
    else
      var more := UpTo(text[1..], stop);
      Read([text[0]] + more.value, more.rest)
  }

  lemma {:induction false} UpToLength(text: string, stop: char)
    ensures |UpTo(text, stop).rest| <= |text|
    ensures UpTo(text, stop).rest != [] ==> UpTo(text, stop).rest[0] == stop
  {
    if text != [] && text[0] != stop {
      UpToLength(text[1..], stop);
    }
  }

  function SplitFields(line: string): seq<string>
    decreases |line|
  {
    var read := UpTo(line, '\t');
    UpToLength(line, '\t');
    if read.rest == [] then [Unescaped(read.value)] else [Unescaped(read.value)] + SplitFields(read.rest[1..])
  }

  function ReadTsv(text: string): seq<seq<string>>
    decreases |text|
  {
    if text == [] then []
    else
      var read := UpTo(text, '\n');
      UpToLength(text, '\n');
      [SplitFields(read.value)] + if read.rest == [] then [] else ReadTsv(read.rest[1..])
  }

  lemma {:induction false} UpToStop(value: string, stop: char, rest: string)
    requires stop !in value && (rest == [] || rest[0] == stop)
    ensures UpTo(value + rest, stop) == Read(value, rest)
  {
    if value == [] {
      assert value + rest == rest;
    } else {
      UpToStop(value[1..], stop, rest);
      assert (value + rest)[1..] == value[1..] + rest;
      assert [value[0]] + value[1..] == value;
    }
  }

  lemma {:induction false} TsvFieldsReadBack(fields: seq<string>)
    requires fields != []
    ensures SplitFields(TsvFields(fields)) == fields
    ensures '\n' !in TsvFields(fields)
  {
    hide TsvField, Unescaped;
    var field := TsvField(fields[0]);
    TsvFieldReadsBack(fields[0]);
    TsvFieldIsPlain(fields[0]);
    assert '\t' !in field && '\n' !in field;
    if |fields| == 1 {
      UpToStop(field, '\t', []);
      assert field + [] == field;
    } else {
      var rest := "\t" + TsvFields(fields[1..]);
      UpToStop(field, '\t', rest);
      assert field + rest == TsvFields(fields);
      assert rest[1..] == TsvFields(fields[1..]);
      TsvFieldsReadBack(fields[1..]);
      assert [fields[0]] + fields[1..] == fields;
    }
  }

  /** For every grid with a column: splitting its TSV and unescaping gives the grid. */
  lemma {:induction false} TsvReadsBack(lines: seq<seq<string>>)
    requires forall i | 0 <= i < |lines| :: lines[i] != []
    ensures ReadTsv(TsvText(lines)) == lines
  {
    hide TsvFields, SplitFields;
    if lines != [] {
      TsvFieldsReadBack(lines[0]);
      var rest := "\n" + TsvText(lines[1..]);
      UpToStop(TsvFields(lines[0]), '\n', rest);
      assert TsvFields(lines[0]) + rest == TsvText(lines);
      assert rest[1..] == TsvText(lines[1..]);
      TsvReadsBack(lines[1..]);
      assert [lines[0]] + lines[1..] == lines;
    }
  }
}
