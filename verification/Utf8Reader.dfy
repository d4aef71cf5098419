/** Reading UTF-8, section 3 of RFC 3629: the inverse of `Json.Utf8`. */
module Utf8Reader {
  import opened Wrappers
  import opened Json

  predicate Continues(b: Byte) {
    0x80 <= b < 0xC0
  }

  /** How many bytes a character takes by its first byte; 0 where no character begins with it. */
  function Width(first: Byte): nat {
    if first < 0x80 then 1
    else if 0xC0 <= first < 0xE0 then 2
    else if 0xE0 <= first < 0xF0 then 3
    else if 0xF0 <= first < 0xF8 then 4
    else 0
  }

  /** The bits of the bytes put together. */
  function Code(bytes: seq<Byte>): int
    requires bytes != [] && Width(bytes[0]) == |bytes|
  {
    var first: int := bytes[0];
    match |bytes|
    case 1 => first
    case 2 => More(first - 0xC0, bytes[1])
    case 3 => More(More(first - 0xE0, bytes[1]), bytes[2])
    case _ => More(More(More(first - 0xF0, bytes[1]), bytes[2]), bytes[3])
  }

  /** Six more bits. */
  function More(high: int, next: int): int {
    high * 0x40 + (next - 0x80)
  }

  lemma MoreDivides(high: int, next: int)
    requires 0x80 <= next < 0xC0
    ensures More(high, next) / 0x40 == high && More(high, next) % 0x40 == next - 0x80
  {
  }

  /** The least code that needs so many bytes. */
  function Least(width: nat): nat {
    match width
    case 2 => 0x80
    case 3 => 0x800
    case 4 => 0x1_0000
    case _ => 0
  }

  predicate IsScalar(code: int) {
    0 <= code < 0xD800 || 0xE000 <= code < 0x11_0000
  }

  /** The character of one complete sequence in its shortest form. */
  function CharOf(bytes: seq<Byte>): Option<char>
    requires bytes != [] && Width(bytes[0]) == |bytes|
  {
    if (forall i | 1 <= i < |bytes| :: Continues(bytes[i])) && Least(|bytes|) <= Code(bytes) && IsScalar(Code(bytes))
    then Some(Code(bytes) as char) else None
  }

  function Decoded(bytes: seq<Byte>): Option<string> {
    if bytes == [] then Some("")
    else
      var width := Width(bytes[0]);
      if width == 0 || |bytes| < width then None
      else
        var first, rest := CharOf(bytes[..width]), Decoded(bytes[width..]);
        if first.None? || rest.None? then None else Some([first.value] + rest.value)
  }

  lemma CharReadsBack(c: char)
    ensures Width(Utf8Char(c)[0]) == |Utf8Char(c)| && CharOf(Utf8Char(c)) == Some(c)
  {
    var code := c as int;
    assert code == code / 0x40 * 0x40 + code % 0x40;
    assert code / 0x40 == code / 0x1000 * 0x40 + code / 0x40 % 0x40;
    assert code / 0x1000 == code / 0x4_0000 * 0x40 + code / 0x1000 % 0x40;
  }

  /** Reading the bytes of any text gives the text. */
  lemma {:induction false} Utf8ReadsBack(text: string)
    ensures Decoded(Utf8(text)) == Some(text)
  {
    hide Utf8Char, CharOf, Width;
    if text != [] {
      var first, rest, bytes := Utf8Char(text[0]), Utf8(text[1..]), Utf8(text);
      CharReadsBack(text[0]);
      Utf8ReadsBack(text[1..]);
      assert bytes[0] == first[0] && bytes[..|first|] == first && bytes[|first|..] == rest;
      assert [text[0]] + text[1..] == text;
    }
  }

  lemma CharIsExact(bytes: seq<Byte>)
    requires bytes != [] && Width(bytes[0]) == |bytes| && CharOf(bytes).Some?
    ensures Utf8Char(CharOf(bytes).value) == bytes
  {
    hide More;
    var first: int := bytes[0];
    if |bytes| == 2 {
      MoreDivides(first - 0xC0, bytes[1]);
    } else if |bytes| == 3 {
      ThreeDivide(first - 0xE0, bytes[1], bytes[2]);
    } else if |bytes| == 4 {
      ThreeDivide(More(first - 0xF0, bytes[1]), bytes[2], bytes[3]);
      MoreDivides(first - 0xF0, bytes[1]);
      assert Code(bytes) / 0x4_0000 == Code(bytes) / 0x1000 / 0x40;
    }
  }

  lemma ThreeDivide(high: int, next: int, last: int)
    requires 0x80 <= next < 0xC0 && 0x80 <= last < 0xC0
    ensures var code := More(More(high, next), last);
            code / 0x1000 == high && code / 0x40 % 0x40 == next - 0x80 && code % 0x40 == last - 0x80
  {
    MoreDivides(high, next);
    MoreDivides(More(high, next), last);
    hide More;
    var code := More(More(high, next), last);
    assert code / 0x1000 == code / 0x40 / 0x40;
  }

  /** Bytes that read as a text are the bytes of that text and of no other. */
  lemma {:induction false} DecodedIsExact(bytes: seq<Byte>)
    requires Decoded(bytes).Some?
    ensures Utf8(Decoded(bytes).value) == bytes
  {
    hide Utf8Char, CharOf, Width;
    if bytes != [] {
      var width, text := Width(bytes[0]), Decoded(bytes).value;
      DecodedIsExact(bytes[width..]);
      CharIsExact(bytes[..width]);
      assert text[1..] == Decoded(bytes[width..]).value;
      assert bytes[..width] + bytes[width..] == bytes;
    }
  }
}
