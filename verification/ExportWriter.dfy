/** The export writers: text in chunks to a sink that may take part of a chunk, fail, or be cancelled. */
module ExportWriter {
  import opened ExportText
  import opened Numbers
  import Json

  const STREAM_CHUNK_BYTES: nat := 4 * 1024

  datatype ExportError = Cancelled | Io | TabularResultRequired | InvalidRowWidth

  /**
   The sink and the user, by the number of the write: whether the export is cancelled before it, how many writes
   from it on are interrupted, whether the sink fails, and how many bytes of the chunk it takes.
   */
  datatype Replies = Replies(cancels: nat -> bool, interruptions: nat -> nat, fails: nat -> bool, takes: nat -> nat)

  /** No interruption is the last reply there is. */
  ghost predicate Answers(replies: Replies) {
    forall call: nat | replies.interruptions(call) > 0 :: replies.interruptions(call + 1) < replies.interruptions(call)
  }

  type Sink = replies: Replies | Answers(replies)
    witness Replies(call => false, call => 0, call => false, call => 0)

  datatype Reply = Taken(count: nat) | Interrupted | Failed

  /** Nobody cancels, nothing fails, and every write that is not interrupted takes something. */
  ghost predicate Willing(sink: Sink) {
    forall call :: !sink.cancels(call) && !sink.fails(call) && sink.takes(call) > 0
  }

  /** The write with this number ends the export: it is cancelled, fails, or takes nothing. */
  ghost predicate Refuses(sink: Sink, call: nat) {
    sink.cancels(call) || (sink.interruptions(call) == 0 && (sink.fails(call) || sink.takes(call) == 0))
  }

  /** Of the writes from `from` on none ended the export, or only the last did. */
  ghost predicate Asked(sink: Sink, from: nat, to: nat, ok: bool) {
    && from <= to && (!ok ==> from < to && Refuses(sink, to - 1))
    && forall call: nat | from <= call < (if ok then to else to - 1) :: !Refuses(sink, call)
  }

  lemma AskedOn(sink: Sink, from: nat, middle: nat, to: nat, ok: bool)
    requires Asked(sink, from, middle, true) && Asked(sink, middle, to, ok)
    ensures Asked(sink, from, to, ok)
  {
  }

  lemma WillingIsAsked(sink: Sink, from: nat, to: nat, ok: bool)
    requires Willing(sink) && Asked(sink, from, to, ok)
    ensures ok
  {
  }

  /** What was written is the text, or the part of it before the writer stopped. */
  ghost predicate Wrote(before: seq<Json.Byte>, text: string, ok: bool, after: seq<Json.Byte>) {
    if ok then after == before + Json.Utf8(text) else before <= after <= before + Json.Utf8(text)
  }

  lemma WroteMore(before: seq<Json.Byte>, a: string, middle: seq<Json.Byte>, b: string, ok: bool, after: seq<Json.Byte>)
    requires Wrote(before, a, true, middle) && Wrote(middle, b, ok, after)
    ensures Wrote(before, a + b, ok, after)
  {
    Json.Utf8Append(a, b);
    hide Json.Utf8;
    assert before + (Json.Utf8(a) + Json.Utf8(b)) == (before + Json.Utf8(a)) + Json.Utf8(b);
  }

  lemma WroteStart(before: seq<Json.Byte>, a: string, b: string, after: seq<Json.Byte>)
    requires Wrote(before, a, false, after)
    ensures Wrote(before, a + b, false, after)
  {
    Json.Utf8Append(a, b);
    hide Json.Utf8;
    assert before + (Json.Utf8(a) + Json.Utf8(b)) == (before + Json.Utf8(a)) + Json.Utf8(b);
  }

  lemma WroteNothing(before: seq<Json.Byte>, text: string)
    ensures Wrote(before, text, false, before) && Wrote(before, "", true, before)
  {
    assert before + [] == before;
  }

  class StreamingWriter {
    const sink: Sink
    var output: seq<Json.Byte>
    var calls: nat
    var cancelled: bool

    constructor (sink: Sink, output: seq<Json.Byte>)
      ensures this.sink == sink && this.output == output && calls == 0 && !cancelled
    {
      this.sink := sink;
      this.output := output;
      calls := 0;
      cancelled := false;
    }

    /** `write`: at most one chunk, of which the sink takes what it will. */
    method Write(bytes: seq<Json.Byte>) returns (reply: Reply)
      modifies this
      ensures calls == old(calls) + 1
      ensures cancelled <==> old(cancelled) || sink.cancels(old(calls))
      ensures reply == if sink.cancels(old(calls)) then Failed
                       else if sink.interruptions(old(calls)) > 0 then Interrupted
                       else if sink.fails(old(calls)) then Failed
                       else Taken(Lesser(sink.takes(old(calls)), Lesser(|bytes|, STREAM_CHUNK_BYTES)))
      ensures output == old(output) + if reply.Taken? then bytes[..reply.count] else []
    {
      var call := calls;
      calls := calls + 1;
      if sink.cancels(call) {
        cancelled := true;
        assert output + [] == output;
        return Failed;
      }
      var chunk := Lesser(|bytes|, STREAM_CHUNK_BYTES);
      if sink.interruptions(call) > 0 {
        return Interrupted;
      }
      if sink.fails(call) {
        return Failed;
      }
      var count := Lesser(sink.takes(call), chunk);
      output := output + bytes[..count];
      return Taken(count);
    }

    /** `write_all`: until every byte is taken, the sink takes none, or a write fails; interrupted ones are repeated. */
    method WriteText(text: string) returns (ok: bool)
      modifies this
      ensures Wrote(old(output), text, ok, output)
      ensures Asked(sink, old(calls), calls, ok)
      ensures cancelled <==> old(cancelled) || (!ok && sink.cancels(calls - 1))
    {
      hide Json.Utf8;
      var bytes := Json.Utf8(text);
      var done := 0;
      assert old(output) + bytes[..0] == old(output);
      while done < |bytes|
        invariant 0 <= done <= |bytes| && output == old(output) + bytes[..done]
        invariant cancelled == old(cancelled) && Asked(sink, old(calls), calls, true)
        decreases |bytes| - done, sink.interruptions(calls)
      {
        var reply := Write(bytes[done..]);
        assert bytes[..done] <= bytes;
        if reply.Interrupted? {
          continue;
        }
        if reply.Failed? || reply.count == 0 {
          return false;
        }
        assert bytes[..done] + bytes[done..][..reply.count] == bytes[..done + reply.count];
        done := done + reply.count;
      }
      assert bytes[..done] == bytes;
      return true;
    }

    /** Two writes, the second only after the first. */
    method WriteTwo(a: string, b: string) returns (ok: bool)
      modifies this
      ensures Wrote(old(output), a + b, ok, output)
      ensures Asked(sink, old(calls), calls, ok)
      ensures cancelled <==> old(cancelled) || (!ok && sink.cancels(calls - 1))
    {
      hide Wrote, Asked;
      ok := WriteText(a);
      if ok {
        ghost var middle, asked := output, calls;
        ok := WriteText(b);
        AskedOn(sink, old(calls), asked, calls, ok);
        WroteMore(old(output), a, middle, b, ok, output);
      } else {
        WroteStart(old(output), a, b, output);
      }
    }

    /** `write_csv_field`. */
    method WriteCsvField(field: string) returns (ok: bool)
      modifies this
      ensures Wrote(old(output), CsvField(field), ok, output)
      ensures Asked(sink, old(calls), calls, ok)
      ensures cancelled <==> old(cancelled) || (!ok && sink.cancels(calls - 1))
    {
      hide Wrote, DoubleQuotes, Asked, NeedsQuotes;
      if !NeedsQuotes(field) {
        ok := WriteText(field);
        return;
      }
      ghost var whole := "\"" + DoubleQuotes(field) + "\"";
      assert whole == CsvField(field);
      hide CsvField;
      ok := WriteText("\"");
      if !ok {
        assert whole == "\"" + (DoubleQuotes(field) + "\"");
        WroteStart(old(output), "\"", DoubleQuotes(field) + "\"", output);
        return;
      }
      var remainder := field;
      ghost var written := "\"";
      while true
        invariant cancelled == old(cancelled) && Wrote(old(output), written, true, output)
        invariant Asked(sink, old(calls), calls, true)
        invariant written + DoubleQuotes(remainder) + "\"" == whole
        decreases |remainder|
      {
        var index := FirstQuote(remainder);
        if index == |remainder| {
          NoQuotes(remainder);
          break;
        }
        QuoteSplits(remainder, index);
        ghost var piece, rest, before := remainder[..index] + "\"\"", DoubleQuotes(remainder[index + 1..]), output;
        ghost var asked := calls;
        ok := WriteTwo(remainder[..index], "\"\"");
        AskedOn(sink, old(calls), asked, calls, ok);
        WroteMore(old(output), written, before, piece, ok, output);
        assert written + (piece + rest) + "\"" == (written + piece) + rest + "\"";
        written := written + piece;
        if !ok {
          assert whole == written + (rest + "\"");
          WroteStart(old(output), written, rest + "\"", output);
          return;
        }
        remainder := remainder[index + 1..];
      }
      ghost var before, asked := output, calls;
      ok := WriteTwo(remainder, "\"");
      AskedOn(sink, old(calls), asked, calls, ok);
      WroteMore(old(output), written, before, remainder + "\"", ok, output);
      assert written + (remainder + "\"") == whole;
    }
  }

  /** `find('"')`; the length where there is none. */
  function FirstQuote(text: string): (index: nat)
    ensures index <= |text|
    ensures index < |text| ==> text[index] == '"'
    ensures forall i | 0 <= i < index :: text[i] != '"'
  {
    if text == [] || text[0] == '"' then 0 else 1 + FirstQuote(text[1..])
  }

  lemma {:induction false} NoQuotes(text: string)
    requires forall i | 0 <= i < |text| :: text[i] != '"'
    ensures DoubleQuotes(text) == text
  {
    if text != [] {
      NoQuotes(text[1..]);
      assert [text[0]] + text[1..] == text;
    }
  }

  lemma {:induction false} QuoteSplits(text: string, index: nat)
    requires index < |text| && text[index] == '"' && forall i | 0 <= i < index :: text[i] != '"'
    ensures DoubleQuotes(text) == text[..index] + "\"\"" + DoubleQuotes(text[index + 1..])
  {
    if index > 0 {
      QuoteSplits(text[1..], index - 1);
      assert text[1..][..index - 1] == text[1..index] && text[1..][index..] == text[index + 1..];
      assert text[..index] == [text[0]] + text[1..index];
    }
  }
}
