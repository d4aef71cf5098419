/** UTF-8, base64 and the compact JSON text the values of this project are serialized to, byte by byte. */
module Json {
  type Byte = b: int | 0 <= b < 256

  // ---- UTF-8 ----

  function Utf8Length(c: char): nat {
    var code := c as int;
    if code < 0x80 then 1 else if code < 0x800 then 2 else if code < 0x1_0000 then 3 else 4
  }

  function Utf8Char(c: char): (bytes: seq<Byte>)
    ensures |bytes| == Utf8Length(c)
  {
    var code := c as int;
    if code < 0x80 then [code]
    else if code < 0x800 then [0xC0 + code / 0x40, 0x80 + code % 0x40]
    else if code < 0x1_0000 then [0xE0 + code / 0x1000, 0x80 + code / 0x40 % 0x40, 0x80 + code % 0x40]
    else [0xF0 + code / 0x4_0000, 0x80 + code / 0x1000 % 0x40, 0x80 + code / 0x40 % 0x40, 0x80 + code % 0x40]
  }

  function Utf8(text: string): seq<Byte> {
    if text == [] then [] else Utf8Char(text[0]) + Utf8(text[1..])
  }

  lemma {:induction false} Utf8Append(a: string, b: string)
    ensures Utf8(a + b) == Utf8(a) + Utf8(b)
  {
    hide Utf8Char;
    if a == [] {
      assert a + b == b;
    } else {
      Utf8Append(a[1..], b);
      var whole := a + b;
      assert whole[1..] == a[1..] + b;
      Associates(Utf8Char(a[0]), Utf8(a[1..]), Utf8(b));
    }
  }

  lemma Associates<T>(a: seq<T>, b: seq<T>, c: seq<T>)
    ensures a + (b + c) == (a + b) + c
  {
  }

  /** Text below U+0080 takes one byte a character. */
  lemma {:induction false} Utf8Ascii(text: string)
    requires forall i | 0 <= i < |text| :: text[i] as int < 0x80
    ensures |Utf8(text)| == |text|
  {
    if text != [] {
      Utf8Ascii(text[1..]);
    }
  }

  // ---- base64 ----

  function Base64Char(sextet: nat): char
    requires sextet < 64
  {
    if sextet < 26 then ('A' as int + sextet) as char
    else if sextet < 52 then ('a' as int + sextet - 26) as char
    else if sextet < 62 then ('0' as int + sextet - 52) as char
    else if sextet == 62 then '+' else '/'
  }

  /** The standard alphabet with padding, section 4 of RFC 4648. */
  function Base64(bytes: seq<Byte>): string {
    if bytes == [] then ""
    else if |bytes| == 1 then
      [Base64Char(bytes[0] / 4), Base64Char(bytes[0] % 4 * 16), '=', '=']
    else if |bytes| == 2 then
      [Base64Char(bytes[0] / 4), Base64Char(bytes[0] % 4 * 16 + bytes[1] / 16),
       Base64Char(bytes[1] % 16 * 4), '=']
    else
      [Base64Char(bytes[0] / 4), Base64Char(bytes[0] % 4 * 16 + bytes[1] / 16),
       Base64Char(bytes[1] % 16 * 4 + bytes[2] / 64), Base64Char(bytes[2] % 64)]
      + Base64(bytes[3..])
  }

  lemma {:induction false} Base64Length(bytes: seq<Byte>)
    ensures |Base64(bytes)| == (|bytes| + 2) / 3 * 4
  {
    hide Base64Char;
    var n := |bytes|;
    if n > 2 {
      Base64Length(bytes[3..]);
      assert (n + 2) / 3 == (n - 3 + 2) / 3 + 1;
    }
  }

  lemma Base64CharPlain(sextet: nat)
    requires sextet < 64
    ensures Plain(Base64Char(sextet))
  {
  }

  lemma {:induction false} Base64Plain(bytes: seq<Byte>)
    ensures forall i | 0 <= i < |Base64(bytes)| :: Plain(Base64(bytes)[i])
  {
    if bytes != [] {
      var b := bytes[0] % 4 * 16;
      Base64CharPlain(bytes[0] / 4);
      if |bytes| == 1 {
        Base64CharPlain(b);
      } else {
        Base64CharPlain(b + bytes[1] / 16);
        if |bytes| == 2 {
          Base64CharPlain(bytes[1] % 16 * 4);
        } else {
          Base64CharPlain(bytes[1] % 16 * 4 + bytes[2] / 64);
          Base64CharPlain(bytes[2] % 64);
          Base64Plain(bytes[3..]);
        }
      }
    }
  }

  // ---- documents ----

  datatype Document =
    | Null
    | Bool(value: bool)
    | Number(text: string)
    | String(text: string)
    | Array(items: seq<Document>)
    | Object(members: seq<Member>)

  datatype Member = Member(name: string, value: Document)

  function HexDigit(d: nat): char
    requires d < 16
  {
    if d < 10 then ('0' as int + d) as char else ('a' as int + d - 10) as char
  }

  /** One character inside a JSON string, section 7 of RFC 8259. */
  function EscapedChar(c: char): string {
    if c == '"' then "\\\"" else if c == '\\' then "\\\\"
    else if c as int == 0x08 then "\\b" else if c as int == 0x0C then "\\f"
    else if c == '\n' then "\\n" else if c == '\r' then "\\r" else if c == '\t' then "\\t"
    else if c as int < 0x20 then "\\u00" + [HexDigit(c as int / 16), HexDigit(c as int % 16)]
    else [c]
  }

  function Escaped(text: string): string {
    if text == [] then "" else EscapedChar(text[0]) + Escaped(text[1..])
  }

  function Quoted(text: string): string {
    "\"" + Escaped(text) + "\""
  }

  /** The compact text of a document. */
  function Compact(d: Document): string {
    match d
    case Null => "null"
    case Bool(value) => if value then "true" else "false"
    case Number(text) => text
    case String(text) => Quoted(text)
    case Array(items) => "[" + CompactItems(items) + "]"
    case Object(members) => "{" + CompactMembers(members) + "}"
  }

  function CompactItems(items: seq<Document>): string {
    if items == [] then ""
    else if |items| == 1 then Compact(items[0])
    else Compact(items[0]) + "," + CompactItems(items[1..])
  }

  function CompactMember(member: Member): string {
    Quoted(member.name) + ":" + Compact(member.value)
  }

  function CompactMembers(members: seq<Member>): string {
    if members == [] then ""
    else if |members| == 1 then CompactMember(members[0])
    else CompactMember(members[0]) + "," + CompactMembers(members[1..])
  }

  // ---- how long it is ----

  function EscapedLength(c: char): nat {
    if c == '"' || c == '\\' || c as int == 0x08 || c as int == 0x0C || c == '\n' || c == '\r' || c == '\t' then 2
    else if c as int <= 0x1F then 6
    else Utf8Length(c)
  }

  function StringLength(text: string): nat {
    if text == [] then 0 else EscapedLength(text[0]) + StringLength(text[1..])
  }

  lemma EscapedCharLength(c: char)
    ensures |Utf8(EscapedChar(c))| == EscapedLength(c)
  {
    if EscapedChar(c) != [c] {
      var text := EscapedChar(c);
      assert |text| == EscapedLength(c);
      if |text| == 6 {
        assert text == ['\\', 'u', '0', '0', HexDigit(c as int / 16), HexDigit(c as int % 16)];
      }
      assert text[0] as int < 0x80 && text[1] as int < 0x80;
      Utf8Ascii(text);
    } else {
      assert Utf8([c]) == Utf8Char(c) + Utf8([]);
    }
  }

  lemma {:induction false} EscapedTextLength(text: string)
    ensures |Utf8(Escaped(text))| == StringLength(text)
  {
    if text != [] {
      EscapedTextLength(text[1..]);
      EscapedCharLength(text[0]);
      Utf8Append(EscapedChar(text[0]), Escaped(text[1..]));
    }
  }

  /** The length in bytes, which is what every limit counts. */
  function ByteLen(text: string): nat {
    |Utf8(text)|
  }

  ghost function TextBytes(document: Document): nat {
    ByteLen(Compact(document))
  }

  lemma ByteLenAppend(a: string, b: string)
    ensures ByteLen(a + b) == ByteLen(a) + ByteLen(b)
  {
    Utf8Append(a, b);
  }

  lemma ByteLenOne(c: char)
    requires c as int < 0x80
    ensures ByteLen([c]) == 1
  {
    Utf8Ascii([c]);
  }

  lemma QuotedLength(text: string)
    ensures ByteLen(Quoted(text)) == 2 + StringLength(text)
  {
    EscapedTextLength(text);
    ByteLenAppend("\"" + Escaped(text), "\"");
    ByteLenAppend("\"", Escaped(text));
    ByteLenOne('"');
  }

  predicate Plain(c: char) {
    0x20 <= c as int < 0x80 && c != '"' && c != '\\'
  }

  /** Text with nothing to escape is quoted as it is. */
  lemma {:induction false} PlainLength(text: string)
    requires forall i | 0 <= i < |text| :: Plain(text[i])
    ensures StringLength(text) == |text|
  {
    if text != [] {
      PlainLength(text[1..]);
    }
  }

  function CompactTotal(items: seq<Document>): nat {
    if items == [] then 0 else ByteLen(Compact(items[0])) + CompactTotal(items[1..])
  }

  lemma {:induction false} ItemsLength(items: seq<Document>)
    ensures ByteLen(CompactItems(items)) == CompactTotal(items) + (if items == [] then 0 else |items| - 1)
  {
    if |items| == 1 {
      assert items[1..] == [];
      assert CompactTotal(items[1..]) == 0;
    } else if items != [] {
      ItemsLength(items[1..]);
      ByteLenOne(',');
      ByteLenAppend(Compact(items[0]) + ",", CompactItems(items[1..]));
      ByteLenAppend(Compact(items[0]), ",");
    }
  }

  lemma Enclosed(left: char, text: string, right: char)
    requires left as int < 0x80 && right as int < 0x80
    ensures ByteLen([left] + text + [right]) == 2 + ByteLen(text)
  {
    ByteLenOne(left);
    ByteLenOne(right);
    ByteLenAppend([left] + text, [right]);
    ByteLenAppend([left], text);
  }

  /** Brackets, separators and items. */
  lemma ArrayLength(items: seq<Document>)
    ensures ByteLen(Compact(Array(items))) == 2 + (if items == [] then 0 else |items| - 1) + CompactTotal(items)
  {
    ItemsLength(items);
    Enclosed('[', CompactItems(items), ']');
  }

  function MemberTotal(members: seq<Member>): nat {
    if members == [] then 0
    else 3 + StringLength(members[0].name) + ByteLen(Compact(members[0].value)) + MemberTotal(members[1..])
  }

  lemma MemberLength(member: Member)
    ensures ByteLen(CompactMember(member)) == 3 + StringLength(member.name) + ByteLen(Compact(member.value))
  {
    QuotedLength(member.name);
    ByteLenOne(':');
    ByteLenAppend(Quoted(member.name) + ":", Compact(member.value));
    ByteLenAppend(Quoted(member.name), ":");
  }

  lemma {:induction false} MembersLength(members: seq<Member>)
    ensures ByteLen(CompactMembers(members)) == MemberTotal(members) + (if members == [] then 0 else |members| - 1)
  {
    if members != [] {
      MemberLength(members[0]);
      MembersLength(members[1..]);
      if |members| > 1 {
        ByteLenOne(',');
        ByteLenAppend(CompactMember(members[0]) + ",", CompactMembers(members[1..]));
        ByteLenAppend(CompactMember(members[0]), ",");
      } else {
        assert members[1..] == [];
      }
    }
  }

  /** Braces, quotes, colons, separators, names and values. */
  lemma ObjectLength(members: seq<Member>)
    ensures ByteLen(Compact(Object(members)))
         == 2 + (if members == [] then 0 else |members| - 1) + MemberTotal(members)
  {
    MembersLength(members);
    Enclosed('{', CompactMembers(members), '}');
  }
}
