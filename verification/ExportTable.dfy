/** `write_csv` and `write_tsv`: a snapshot's columns and rows through the streaming writer. */
module ExportTable {
  import opened Wrappers
  import opened Cells
  import opened ExportText
  import opened ExportWriter
  import opened Utf8Reader
  import Json

  datatype Format = Csv | Tsv

  function FieldOf(format: Format, field: string): string {
    if format.Csv? then CsvField(field) else TsvField(field)
  }

  function Separator(format: Format): string {
    if format.Csv? then "," else "\t"
  }

  function LineEnd(format: Format): string {
    if format.Csv? then "\r\n" else "\n"
  }

  function LineOf(format: Format, fields: seq<string>): string {
    if format.Csv? then CsvLine(fields) else TsvLine(fields)
  }

  function TextOf(format: Format, lines: seq<seq<string>>): string {
    if format.Csv? then CsvText(lines) else TsvText(lines)
  }

  /** What is left of a line after its first `i` fields. */
  function LineTail(format: Format, fields: seq<string>, i: nat): string
    requires i <= |fields|
    decreases |fields| - i
  {
    if i == |fields| then LineEnd(format)
    else (if i == 0 then "" else Separator(format)) + FieldOf(format, fields[i]) + LineTail(format, fields, i + 1)
  }

  lemma FirstOfLine(format: Format, fields: seq<string>)
    requires fields != []
    ensures LineOf(format, fields)
         == FieldOf(format, fields[0])
            + if |fields| == 1 then LineEnd(format) else Separator(format) + LineOf(format, fields[1..])
  {
    hide CsvField, TsvField;
    if |fields| > 1 {
      var field, rest, separator := FieldOf(format, fields[0]), fields[1..], Separator(format);
      if format.Csv? {
        assert CsvFields(fields) + "\r\n" == field + (separator + (CsvFields(rest) + "\r\n"));
      } else {
        assert TsvFields(fields) + "\n" == field + (separator + (TsvFields(rest) + "\n"));
      }
    }
  }

  lemma {:induction false} TailOfLine(format: Format, fields: seq<string>, i: nat)
    requires i < |fields|
    ensures LineTail(format, fields, i) == (if i == 0 then "" else Separator(format)) + LineOf(format, fields[i..])
    decreases |fields| - i
  {
    hide LineOf, FieldOf, Separator, LineEnd;
    var rest := fields[i..];
    FirstOfLine(format, rest);
    if i + 1 < |fields| {
      TailOfLine(format, fields, i + 1);
      assert rest[1..] == fields[i + 1..];
    } else {
      assert LineTail(format, fields, i + 1) == LineEnd(format);
    }
  }

  /** The texts of the cells: `clipboard_scalar` of each. */
  function Texts(row: seq<Cell>, scalar: Cell -> string): (texts: seq<string>)
    ensures |texts| == |row|
  {
    seq(|row|, i requires 0 <= i < |row| => scalar(row[i]))
  }

  function Names(columns: seq<Column>): (names: seq<string>)
    ensures |names| == |columns|
  {
    seq(|columns|, i requires 0 <= i < |columns| => columns[i].name)
  }

  /** The header and the first `n` rows. */
  function Lines(columns: seq<Column>, rows: seq<seq<Cell>>, n: nat, scalar: Cell -> string): (lines: seq<seq<string>>)
    requires n <= |rows|
    ensures |lines| == n + 1
  {
    [Names(columns)] + seq(n, i requires 0 <= i < n => Texts(rows[i], scalar))
  }

  lemma {:induction false} OneMoreLine(format: Format, lines: seq<seq<string>>, line: seq<string>)
    ensures TextOf(format, lines + [line]) == TextOf(format, lines) + LineOf(format, line)
  {
    hide CsvLine, TsvLine;
    if lines == [] {
      assert [line][1..] == [] && lines + [line] == [line];
    } else {
      OneMoreLine(format, lines[1..], line);
      assert (lines + [line])[1..] == lines[1..] + [line];
      Json.Associates(LineOf(format, lines[0]), TextOf(format, lines[1..]), LineOf(format, line));
    }
  }

  lemma {:induction false} TextStarts(format: Format, lines: seq<seq<string>>, k: nat)
    requires k <= |lines|
    ensures TextOf(format, lines) == TextOf(format, lines[..k]) + TextOf(format, lines[k..])
  {
    hide CsvLine, TsvLine;
    if k == 0 {
      assert lines[0..] == lines && lines[..0] == [];
    } else {
      TextStarts(format, lines[1..], k - 1);
      assert lines[..k][1..] == lines[1..][..k - 1] && lines[1..][k - 1..] == lines[k..];
      Json.Associates(LineOf(format, lines[0]), TextOf(format, lines[1..k]), TextOf(format, lines[k..]));
    }
  }

  method WriteLine(writer: StreamingWriter, format: Format, fields: seq<string>) returns (ok: bool)
    requires fields != []
    modifies writer
    ensures Wrote(old(writer.output), LineOf(format, fields), ok, writer.output)
    ensures Asked(writer.sink, old(writer.calls), writer.calls, ok)
    ensures writer.cancelled <==> old(writer.cancelled) || (!ok && writer.sink.cancels(writer.calls - 1))
  {
    hide Wrote, FieldOf, LineOf, Separator, LineEnd, Asked;
    ghost var whole := LineOf(format, fields);
    ghost var written := "";
    TailOfLine(format, fields, 0);
    assert fields[0..] == fields;
    WroteNothing(writer.output, "");
    NothingAsked(writer.sink, writer.calls);
    var i := 0;
    while i < |fields|
      invariant 0 <= i <= |fields| && writer.cancelled == old(writer.cancelled)
      invariant Asked(writer.sink, old(writer.calls), writer.calls, true)
      invariant Wrote(old(writer.output), written, true, writer.output)
      invariant written + LineTail(format, fields, i) == whole
    {
      ghost var tail := FieldOf(format, fields[i]) + LineTail(format, fields, i + 1);
      if i != 0 {
        ghost var before, asked := writer.output, writer.calls;
        ok := writer.WriteText(Separator(format));
        AskedOn(writer.sink, old(writer.calls), asked, writer.calls, ok);
        WroteMore(old(writer.output), written, before, Separator(format), ok, writer.output);
        written := written + Separator(format);
        assert written + tail == whole;
        if !ok {
          WroteStart(old(writer.output), written, tail, writer.output);
          return;
        }
      }
      assert written + tail == whole;
      ghost var before, asked := writer.output, writer.calls;
      ok := WriteField(writer, format, fields[i]);
      AskedOn(writer.sink, old(writer.calls), asked, writer.calls, ok);
      WroteMore(old(writer.output), written, before, FieldOf(format, fields[i]), ok, writer.output);
      written := written + FieldOf(format, fields[i]);
      i := i + 1;
      assert written + LineTail(format, fields, i) == whole;
      if !ok {
        WroteStart(old(writer.output), written, LineTail(format, fields, i), writer.output);
        return;
      }
    }
    ghost var before, asked := writer.output, writer.calls;
    ok := writer.WriteText(LineEnd(format));
    AskedOn(writer.sink, old(writer.calls), asked, writer.calls, ok);
    WroteMore(old(writer.output), written, before, LineEnd(format), ok, writer.output);
  }

  lemma NothingAsked(sink: Sink, calls: nat)
    ensures Asked(sink, calls, calls, true)
  {
  }

  method WriteField(writer: StreamingWriter, format: Format, field: string) returns (ok: bool)
    modifies writer
    ensures Wrote(old(writer.output), FieldOf(format, field), ok, writer.output)
    ensures Asked(writer.sink, old(writer.calls), writer.calls, ok)
    ensures writer.cancelled <==> old(writer.cancelled) || (!ok && writer.sink.cancels(writer.calls - 1))
  {
    hide Wrote;
    if format.Csv? {
      ok := writer.WriteCsvField(field);
    } else {
      var escaped := EscapeTsv(field);
      ok := writer.WriteText(escaped);
    }
  }

  /** Every row is as wide as the header. */
  predicate Rectangular(columns: seq<Column>, rows: seq<seq<Cell>>) {
    forall i | 0 <= i < |rows| :: |rows[i]| == |columns|
  }

  /**
   What an export to a table promises: the whole text on success; for a row of the wrong width, the text of
   the rows before it; and otherwise the part of the text before the writer stopped.
   */
  ghost predicate Exported(format: Format, columns: seq<Column>, rows: seq<seq<Cell>>, scalar: Cell -> string,
                           before: seq<Json.Byte>, error: Option<ExportError>, after: seq<Json.Byte>)
  {
    match error
    case None =>
      && columns != [] && Rectangular(columns, rows)
      && after == before + Json.Utf8(TextOf(format, Lines(columns, rows, |rows|, scalar)))
    case Some(TabularResultRequired) => columns == [] && after == before
    case Some(InvalidRowWidth) =>
      columns != [] && exists n | 0 <= n < |rows| ::
        && |rows[n]| != |columns| && Rectangular(columns, rows[..n])
        && after == before + Json.Utf8(TextOf(format, Lines(columns, rows, n, scalar)))
    case _ => before <= after <= before + Json.Utf8(TextOf(format, Lines(columns, rows, |rows|, scalar)))
  }

  lemma LinesGrow(columns: seq<Column>, rows: seq<seq<Cell>>, n: nat, scalar: Cell -> string)
    requires n < |rows|
    ensures Lines(columns, rows, n + 1, scalar) == Lines(columns, rows, n, scalar) + [Texts(rows[n], scalar)]
  {
  }

  lemma PartOfLines(format: Format, columns: seq<Column>, rows: seq<seq<Cell>>, n: nat, scalar: Cell -> string,
                    before: seq<Json.Byte>, after: seq<Json.Byte>)
    requires n <= |rows| && Wrote(before, TextOf(format, Lines(columns, rows, n, scalar)), false, after)
    ensures Wrote(before, TextOf(format, Lines(columns, rows, |rows|, scalar)), false, after)
  {
    hide Wrote, TextOf;
    var all := Lines(columns, rows, |rows|, scalar);
    assert all[..n + 1] == Lines(columns, rows, n, scalar);
    TextStarts(format, all, n + 1);
    WroteStart(before, TextOf(format, all[..n + 1]), TextOf(format, all[n + 1..]), after);
  }

  /** `write_csv` and `write_tsv`. */
  method WriteTable(writer: StreamingWriter, format: Format, columns: seq<Column>, rows: seq<seq<Cell>>,
                    scalar: Cell -> string)
    returns (error: Option<ExportError>)
    modifies writer
    ensures Exported(format, columns, rows, scalar, old(writer.output), error, writer.output)
    ensures error != Some(Cancelled)
    ensures Asked(writer.sink, old(writer.calls), writer.calls, error != Some(Io))
    ensures writer.cancelled <==> old(writer.cancelled) || (error == Some(Io) && writer.sink.cancels(writer.calls - 1))
  {
    hide TextOf, LineOf, Lines, Asked;
    NothingAsked(writer.sink, writer.calls);
    if columns == [] {
      return Some(TabularResultRequired);
    }
    ghost var start := writer.output;
    var ok := WriteLine(writer, format, Names(columns));
    HeaderAlone(format, columns, rows, scalar);
    if !ok {
      PartOfLines(format, columns, rows, 0, scalar, start, writer.output);
      return Some(Io);
    }
    var i := 0;
    while i < |rows|
      invariant 0 <= i <= |rows| && writer.cancelled == old(writer.cancelled)
      invariant Asked(writer.sink, old(writer.calls), writer.calls, true)
      invariant Wrote(start, TextOf(format, Lines(columns, rows, i, scalar)), true, writer.output)
      invariant Rectangular(columns, rows[..i])
    {
      if |rows[i]| != |columns| {
        return Some(InvalidRowWidth);
      }
      ghost var before, asked := writer.output, writer.calls;
      ok := WriteLine(writer, format, Texts(rows[i], scalar));
      WroteMore(start, TextOf(format, Lines(columns, rows, i, scalar)), before,
                LineOf(format, Texts(rows[i], scalar)), ok, writer.output);
      AskedOn(writer.sink, old(writer.calls), asked, writer.calls, ok);
      LinesGrow(columns, rows, i, scalar);
      OneMoreLine(format, Lines(columns, rows, i, scalar), Texts(rows[i], scalar));
      if !ok {
        PartOfLines(format, columns, rows, i + 1, scalar, start, writer.output);
        return Some(Io);
      }
      assert forall j | 0 <= j < i :: rows[..i][j] == rows[j];
      i := i + 1;
    }
    assert rows[..i] == rows;
    return None;
  }

  lemma HeaderAlone(format: Format, columns: seq<Column>, rows: seq<seq<Cell>>, scalar: Cell -> string)
    ensures TextOf(format, Lines(columns, rows, 0, scalar)) == LineOf(format, Names(columns))
  {
    hide CsvLine, TsvLine;
    assert Lines(columns, rows, 0, scalar) == [Names(columns)];
    OneMoreLine(format, [], Names(columns));
    assert [] + [Names(columns)] == [Names(columns)];
  }

  /** What a reader makes of the bytes of an export. */
  function ReadBack(format: Format, bytes: seq<Json.Byte>): Option<seq<seq<string>>> {
    var text := Decoded(bytes);
    if text.None? then None else if format.Csv? then ReadCsv(text.value) else Some(ReadTsv(text.value))
  }

  /** The bytes of the header and any number of rows read back as the column names and the texts of the cells. */
  lemma LinesReadBack(format: Format, columns: seq<Column>, rows: seq<seq<Cell>>, n: nat, scalar: Cell -> string)
    requires columns != [] && n <= |rows| && Rectangular(columns, rows[..n])
    ensures var lines := Lines(columns, rows, n, scalar);
            ReadBack(format, Json.Utf8(TextOf(format, lines))) == Some(lines)
  {
    hide ReadCsv, ReadTsv, CsvText, TsvText, Json.Utf8, Decoded;
    var lines := Lines(columns, rows, n, scalar);
    forall i | 0 <= i < |lines|
      ensures lines[i] != []
    {
      if i > 0 {
        assert lines[i] == Texts(rows[i - 1], scalar) && rows[..n][i - 1] == rows[i - 1];
      }
    }
    Utf8ReadsBack(TextOf(format, lines));
    CsvReadsBack(lines);
    TsvReadsBack(lines);
  }

  /** The bytes of an export that succeeded read back as the whole table. */
  lemma ExportReadsBack(format: Format, columns: seq<Column>, rows: seq<seq<Cell>>, scalar: Cell -> string,
                        output: seq<Json.Byte>)
    requires Exported(format, columns, rows, scalar, [], None, output)
    ensures ReadBack(format, output) == Some(Lines(columns, rows, |rows|, scalar))
  {
    hide ReadBack, TextOf, Lines, Json.Utf8;
    assert rows[..|rows|] == rows;
    var bytes := Json.Utf8(TextOf(format, Lines(columns, rows, |rows|, scalar)));
    assert [] + bytes == bytes;
    LinesReadBack(format, columns, rows, |rows|, scalar);
  }

  /** The bytes before a row of the wrong width read back as the rows before it. */
  lemma PartReadsBack(format: Format, columns: seq<Column>, rows: seq<seq<Cell>>, scalar: Cell -> string,
                      output: seq<Json.Byte>) returns (n: nat)
    requires Exported(format, columns, rows, scalar, [], Some(InvalidRowWidth), output)
    ensures n < |rows| && |rows[n]| != |columns|
    ensures ReadBack(format, output) == Some(Lines(columns, rows, n, scalar))
  {
    hide ReadBack, TextOf, Lines, Json.Utf8;
    n :| 0 <= n < |rows| && |rows[n]| != |columns| && Rectangular(columns, rows[..n])
         && output == [] + Json.Utf8(TextOf(format, Lines(columns, rows, n, scalar)));
    var bytes := Json.Utf8(TextOf(format, Lines(columns, rows, n, scalar)));
    assert [] + bytes == bytes;
    LinesReadBack(format, columns, rows, n, scalar);
  }

  /**
   `write_export_with_cancel` for a table, which makes `calls` writes: it says that it was cancelled exactly where its
   last write was, and that it failed exactly where that failed or took nothing; none before ended it. The bytes of an
   export that succeeds read back as the table.
   */
  method WriteExport(sink: Sink, format: Format, columns: seq<Column>, rows: seq<seq<Cell>>, scalar: Cell -> string)
    returns (error: Option<ExportError>, output: seq<Json.Byte>, ghost calls: nat)
    ensures Exported(format, columns, rows, scalar, [], error, output)
    ensures error == Some(Cancelled) <==> calls > 0 && sink.cancels(calls - 1)
    ensures error == Some(Io) <==> calls > 0 && !sink.cancels(calls - 1) && Refuses(sink, calls - 1)
    ensures Asked(sink, 0, calls, error != Some(Cancelled) && error != Some(Io))
    ensures error.None? ==> ReadBack(format, output) == Some(Lines(columns, rows, |rows|, scalar))
    ensures Willing(sink) && columns != [] && Rectangular(columns, rows) ==> error.None?
  {
    hide ReadBack, Lines;
    var writer := new StreamingWriter(sink, []);
    error := WriteTable(writer, format, columns, rows, scalar);
    output, calls := writer.output, writer.calls;
    assert calls > 0 ==> (error == Some(Io) <==> Refuses(sink, calls - 1));
    if writer.cancelled {
      CancelledIsPart(format, columns, rows, scalar, output);
      error := Some(Cancelled);
    }
    if error.None? {
      ExportReadsBack(format, columns, rows, scalar, output);
    } else if Willing(sink) && Rectangular(columns, rows) {
      WillingIsAsked(sink, 0, calls, error != Some(Cancelled) && error != Some(Io));
    }
  }

  lemma CancelledIsPart(format: Format, columns: seq<Column>, rows: seq<seq<Cell>>, scalar: Cell -> string,
                        output: seq<Json.Byte>)
    requires Exported(format, columns, rows, scalar, [], Some(Io), output)
    ensures Exported(format, columns, rows, scalar, [], Some(Cancelled), output)
  {
    hide TextOf, Lines, Json.Utf8;
  }
}
