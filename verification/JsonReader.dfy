/** Readers of base64 and of JSON text: the inverses of `Json.Base64` and `Json.Compact`. */
module JsonReader {
  import opened Wrappers
  import opened Json

  // ---- base64, section 4 of RFC 4648 ----

  function Sextet(c: char): (sextet: Option<nat>)
    ensures sextet.Some? ==> sextet.value < 64
  {
    if 'A' <= c <= 'Z' then Some(c as int - 'A' as int)
    else if 'a' <= c <= 'z' then Some(c as int - 'a' as int + 26)
    else if '0' <= c <= '9' then Some(c as int - '0' as int + 52)
    else if c == '+' then Some(62)
    else if c == '/' then Some(63)
    else None
  }

  function First(a: nat, b: nat): Byte
    requires a < 64 && b < 64
  {
    a * 4 + b / 16
  }

  function Second(b: nat, c: nat): Byte
    requires b < 64 && c < 64
  {
    b % 16 * 16 + c / 4
  }

  function Third(c: nat, d: nat): Byte
    requires c < 64 && d < 64
  {
    c % 4 * 64 + d
  }

  /** Groups of four characters, the last of them padded where it stands for one byte or two. */
  function ReadBase64(text: string): Option<seq<Byte>> {
    if text == [] then Some([])
    else if |text| < 4 || Sextet(text[0]).None? || Sextet(text[1]).None? then None
    else
      var a, b := Sextet(text[0]).value, Sextet(text[1]).value;
      if text[2] == '=' then
        if text[3] == '=' && |text| == 4 && b % 16 == 0 then Some([First(a, b)]) else None
      else if Sextet(text[2]).None? then None
      else
        var c := Sextet(text[2]).value;
        if text[3] == '=' then
          if |text| == 4 && c % 4 == 0 then Some([First(a, b), Second(b, c)]) else None
        else if Sextet(text[3]).None? then None
        else
          var rest := ReadBase64(text[4..]);
          if rest.None? then None
          else Some([First(a, b), Second(b, c), Third(c, Sextet(text[3]).value)] + rest.value)
  }

  lemma SextetReadsBack(sextet: nat)
    requires sextet < 64
    ensures Sextet(Base64Char(sextet)) == Some(sextet) && Base64Char(sextet) != '='
  {
  }

  lemma GroupOf(bytes: seq<Byte>) returns (a: nat, b: nat, c: nat, d: nat)
    requires |bytes| > 2
    ensures a < 64 && b < 64 && c < 64 && d < 64
    ensures Base64(bytes) == [Base64Char(a), Base64Char(b), Base64Char(c), Base64Char(d)] + Base64(bytes[3..])
    ensures First(a, b) == bytes[0] && Second(b, c) == bytes[1] && Third(c, d) == bytes[2]
  {
    a, b, c, d := bytes[0] / 4, bytes[0] % 4 * 16 + bytes[1] / 16, bytes[1] % 16 * 4 + bytes[2] / 64, bytes[2] % 64;
    hide Base64Char;
  }

  lemma LastOf(bytes: seq<Byte>) returns (a: nat, b: nat, c: nat)
    requires 1 <= |bytes| <= 2
    ensures a < 64 && b < 64 && c < 64 && First(a, b) == bytes[0]
    ensures |bytes| == 1 ==> Base64(bytes) == [Base64Char(a), Base64Char(b), '=', '='] && b % 16 == 0
    ensures |bytes| == 2 ==> Base64(bytes) == [Base64Char(a), Base64Char(b), Base64Char(c), '='] && c % 4 == 0
                             && Second(b, c) == bytes[1]
  {
    var second: nat := if |bytes| == 2 then bytes[1] else 0;
    a, b, c := bytes[0] / 4, bytes[0] % 4 * 16 + second / 16, second % 16 * 4;
    hide Base64Char;
  }

  /** Reading the encoding of any bytes gives the bytes. */
  lemma {:induction false} Base64ReadsBack(bytes: seq<Byte>)
    ensures ReadBase64(Base64(bytes)) == Some(bytes)
  {
    hide Sextet, Base64Char, First, Second, Third;
    if |bytes| > 2 {
      var a, b, c, d := GroupOf(bytes);
      SextetReadsBack(a);
      SextetReadsBack(b);
      SextetReadsBack(c);
      SextetReadsBack(d);
      Base64ReadsBack(bytes[3..]);
      assert Base64(bytes)[4..] == Base64(bytes[3..]);
      assert [bytes[0], bytes[1], bytes[2]] + bytes[3..] == bytes;
    } else if bytes != [] {
      var a, b, c := LastOf(bytes);
      SextetReadsBack(a);
      SextetReadsBack(b);
      SextetReadsBack(c);
      assert bytes == if |bytes| == 1 then [First(a, b)] else [First(a, b), Second(b, c)];
    }
  }

  // ---- JSON, RFC 8259, without white space ----

  predicate IsNumberChar(c: char) {
    '0' <= c <= '9' || c == '-' || c == '+' || c == '.' || c == 'e' || c == 'E'
  }

  function HexValue(c: char): (value: Option<nat>)
    ensures value.Some? ==> value.value < 16
  {
    if '0' <= c <= '9' then Some(c as int - '0' as int)
    else if 'a' <= c <= 'f' then Some(c as int - 'a' as int + 10)
    else if 'A' <= c <= 'F' then Some(c as int - 'A' as int + 10)
    else None
  }

  /** The character that four hexadecimal digits name, below the surrogates. */
  function HexChar(text: string): Option<char>
    requires |text| >= 4
  {
    var a, b, c, d := HexValue(text[0]), HexValue(text[1]), HexValue(text[2]), HexValue(text[3]);
    if a.None? || b.None? || c.None? || d.None? || a.value >= 13 then None
    else Some((a.value * 0x1000 + b.value * 0x100 + c.value * 0x10 + d.value) as char)
  }

  /** The character behind a backslash, and how long its escape is without the backslash. */
  function ReadEscape(text: string): (read: Option<Read<char>>)
    ensures read.Some? ==> |read.value.rest| < |text|
  {
    if text == [] then None
    else
      match text[0]
      case '"' => Some(Read('"', text[1..]))
      case '\\' => Some(Read('\\', text[1..]))
      case '/' => Some(Read('/', text[1..]))
      case 'b' => Some(Read(8 as char, text[1..]))
      case 'f' => Some(Read(12 as char, text[1..]))
      case 'n' => Some(Read('\n', text[1..]))
      case 'r' => Some(Read('\r', text[1..]))
      case 't' => Some(Read('\t', text[1..]))
      case 'u' =>
        if |text| < 5 || HexChar(text[1..]).None? then None else Some(Read(HexChar(text[1..]).value, text[5..]))
      case _ => None
  }

  /** Behind the opening quote, up to the closing one. */
  function ReadString(text: string): (read: Option<Read<string>>)
    ensures read.Some? ==> |read.value.rest| < |text|
    decreases |text|
  {
    if text == [] || text[0] as int < 0x20 then None
    else if text[0] == '"' then Some(Read("", text[1..]))
    else
      var first := if text[0] == '\\' then ReadEscape(text[1..]) else Some(Read(text[0], text[1..]));
      if first.None? then None
      else
        var more := ReadString(first.value.rest);
        if more.None? then None else Some(Read([first.value.value] + more.value.value, more.value.rest))
  }

  function ReadNumber(text: string): (read: Read<string>)
    ensures |read.rest| <= |text|
    ensures text != [] && IsNumberChar(text[0]) ==> |read.rest| < |text|
  {
    if text == [] || !IsNumberChar(text[0]) then Read("", text)
    else
      var more := ReadNumber(text[1..]);
      Read([text[0]] + more.value, more.rest)
  }

  function ReadValue(text: string): (read: Option<Read<Document>>)
    ensures read.Some? ==> |read.value.rest| < |text|
    decreases |text|, 0
  {
    if text == [] then None
    else if "null" <= text then Some(Read(Null, text[4..]))
    else if "true" <= text then Some(Read(Bool(true), text[4..]))
    else if "false" <= text then Some(Read(Bool(false), text[5..]))
    else if text[0] == '"' then
      var read := ReadString(text[1..]);
      if read.None? then None else Some(Read(String(read.value.value), read.value.rest))
    else if text[0] == '[' then
      if "[]" <= text then Some(Read(Array([]), text[2..]))
      else
        var read := ReadItems(text[1..]);
        if read.None? then None else Some(Read(Array(read.value.value), read.value.rest))
    else if text[0] == '{' then
      if "{}" <= text then Some(Read(Object([]), text[2..]))
      else
        var read := ReadMembers(text[1..]);
        if read.None? then None else Some(Read(Object(read.value.value), read.value.rest))
    else if IsNumberChar(text[0]) then
      var read := ReadNumber(text);
      Some(Read(Number(read.value), read.rest))
    else None
  }

  /** One item or more, up to the closing bracket. */
  function ReadItems(text: string): (read: Option<Read<seq<Document>>>)
    ensures read.Some? ==> |read.value.rest| < |text|
    decreases |text|, 1
  {
    var first := ReadValue(text);
    if first.None? || first.value.rest == [] then None
    else if first.value.rest[0] == ']' then Some(Read([first.value.value], first.value.rest[1..]))
    else if first.value.rest[0] != ',' then None
    else
      var more := ReadItems(first.value.rest[1..]);
      if more.None? then None else Some(Read([first.value.value] + more.value.value, more.value.rest))
  }

  function ReadMember(text: string): (read: Option<Read<Member>>)
    ensures read.Some? ==> |read.value.rest| < |text|
    decreases |text|, 0
  {
    if text == [] || text[0] != '"' then None
    else
      var name := ReadString(text[1..]);
      if name.None? || name.value.rest == [] || name.value.rest[0] != ':' then None
      else
        var value := ReadValue(name.value.rest[1..]);
        if value.None? then None else Some(Read(Member(name.value.value, value.value.value), value.value.rest))
  }

  function ReadMembers(text: string): (read: Option<Read<seq<Member>>>)
    ensures read.Some? ==> |read.value.rest| < |text|
    decreases |text|, 1
  {
    var first := ReadMember(text);
    if first.None? || first.value.rest == [] then None
    else if first.value.rest[0] == '}' then Some(Read([first.value.value], first.value.rest[1..]))
    else if first.value.rest[0] != ',' then None
    else
      var more := ReadMembers(first.value.rest[1..]);
      if more.None? then None else Some(Read([first.value.value] + more.value.value, more.value.rest))
  }

  // ---- reading back ----

  predicate IsNumberText(text: string) {
    text != [] && forall i | 0 <= i < |text| :: IsNumberChar(text[i])
  }

  /** Every number of the document is spelled like one. */
  predicate WellSpelled(d: Document)
    decreases d
  {
    match d
    case Number(text) => IsNumberText(text)
    case Array(items) => forall i | 0 <= i < |items| :: WellSpelled(items[i])
    case Object(members) => forall i | 0 <= i < |members| :: WellSpelled(members[i].value)
    case _ => true
  }

  lemma EscapeReadsBack(c: char, rest: string)
    ensures EscapedChar(c) != [] && EscapedChar(c)[0] != '"' && EscapedChar(c)[0] as int >= 0x20
    ensures if EscapedChar(c)[0] == '\\' then ReadEscape((EscapedChar(c) + rest)[1..]) == Some(Read(c, rest))
            else EscapedChar(c) == [c]
  {
    var text := (EscapedChar(c) + rest)[1..];
    if |EscapedChar(c)| == 6 {
      var code := c as int;
      assert text[0] == 'u' && text[1] == '0' && text[2] == '0';
      assert text[3] == HexDigit(code / 16) && text[4] == HexDigit(code % 16);
      assert text[5..] == rest;
    } else if |EscapedChar(c)| == 2 {
      assert text[1..] == rest;
    }
  }

  lemma {:induction false} StringReadsBack(text: string, rest: string)
    ensures ReadString(Escaped(text) + "\"" + rest) == Some(Read(text, rest))
  {
    hide EscapedChar, ReadEscape;
    var whole := Escaped(text) + "\"" + rest;
    if text == [] {
      assert whole[1..] == rest;
    } else {
      var first, tail := EscapedChar(text[0]), Escaped(text[1..]) + "\"" + rest;
      EscapeReadsBack(text[0], tail);
      assert whole == first + tail;
      StringReadsBack(text[1..], rest);
      if first[0] != '\\' {
        assert whole[1..] == tail;
      }
      assert [text[0]] + text[1..] == text;
    }
  }

  /** What may follow a value: nothing that could go on a number. */
  predicate Ends(rest: string) {
    rest == [] || !IsNumberChar(rest[0])
  }

  lemma {:induction false} NumberReadsBack(text: string, rest: string)
    requires (forall i | 0 <= i < |text| :: IsNumberChar(text[i])) && Ends(rest)
    ensures ReadNumber(text + rest) == Read(text, rest)
  {
    if text == [] {
      assert text + rest == rest;
    } else {
      NumberReadsBack(text[1..], rest);
      assert (text + rest)[1..] == text[1..] + rest;
      assert [text[0]] + text[1..] == text;
    }
  }

  lemma CompactStarts(d: Document)
    requires WellSpelled(d)
    ensures Compact(d) != [] && Compact(d)[0] != ']' && Compact(d)[0] != '}'
  {
  }

  lemma ScalarReadsBack(d: Document, rest: string)
    requires WellSpelled(d) && !d.Array? && !d.Object? && Ends(rest)
    ensures ReadValue(Compact(d) + rest) == Some(Read(d, rest))
  {
    hide ReadString, ReadNumber, Escaped;
    var text := Compact(d) + rest;
    match d {
      case Number(number) =>
        NumberReadsBack(number, rest);
        assert text[0] == number[0] && IsNumberChar(number[0]);
      case String(value) =>
        StringReadsBack(value, rest);
        assert text[1..] == Escaped(value) + "\"" + rest;
      case Bool(value) =>
        assert text[0] == (if value then 't' else 'f') && Compact(d) <= text;
        assert text[|Compact(d)|..] == rest;
      case Null => assert text[4..] == rest;
    }
  }

  /** Reading the text of a document gives the document, whatever ends it. */
  lemma {:induction false} ValueReadsBack(d: Document, rest: string)
    requires WellSpelled(d) && Ends(rest)
    ensures ReadValue(Compact(d) + rest) == Some(Read(d, rest))
    decreases d, 0
  {
    hide ReadString, ReadNumber, Quoted, ReadItems, ReadMembers, CompactItems, CompactMembers;
    match d {
      case Array(items) =>
        var text := Compact(d) + rest;
        if items == [] {
          NoItems();
          assert text[0] == '[' && text[1] == ']' && text[2..] == rest;
        } else {
          ItemsReadBack(items, rest);
          ItemsStart(items);
          assert text[0] == '[' && text[1] == CompactItems(items)[0];
          assert text[1..] == CompactItems(items) + "]" + rest;
        }
      case Object(members) =>
        var text := Compact(d) + rest;
        if members == [] {
          NoItems();
          assert text[0] == '{' && text[1] == '}' && text[2..] == rest;
        } else {
          MembersReadBack(members, rest);
          MembersStart(members);
          assert text[0] == '{' && text[1] == CompactMembers(members)[0];
          assert text[1..] == CompactMembers(members) + "}" + rest;
        }
      case _ => ScalarReadsBack(d, rest);
    }
  }

  lemma NoItems()
    ensures CompactItems([]) == "" && CompactMembers([]) == ""
  {
  }

  lemma ItemsStart(items: seq<Document>)
    requires items != [] && forall i | 0 <= i < |items| :: WellSpelled(items[i])
    ensures CompactItems(items) != [] && CompactItems(items)[0] != ']'
  {
    hide Compact, WellSpelled;
    CompactStarts(items[0]);
  }

  lemma MembersStart(members: seq<Member>)
    requires members != []
    ensures CompactMembers(members) != [] && CompactMembers(members)[0] == '"'
  {
    hide Compact, Escaped;
  }

  lemma {:induction false} ItemsReadBack(items: seq<Document>, rest: string)
    requires items != [] && forall i | 0 <= i < |items| :: WellSpelled(items[i])
    ensures ReadItems(CompactItems(items) + "]" + rest) == Some(Read(items, rest))
    decreases items
  {
    hide ReadValue, Compact, WellSpelled;
    var text := CompactItems(items) + "]" + rest;
    if |items| == 1 {
      ValueReadsBack(items[0], "]" + rest);
      assert text == Compact(items[0]) + ("]" + rest);
      assert ("]" + rest)[1..] == rest && [items[0]] == items;
    } else {
      var more := CompactItems(items[1..]) + "]" + rest;
      ValueReadsBack(items[0], "," + more);
      ItemsReadBack(items[1..], rest);
      assert text == Compact(items[0]) + ("," + more);
      assert ("," + more)[1..] == more && [items[0]] + items[1..] == items;
    }
  }

  lemma MemberReadsBack(member: Member, rest: string)
    requires WellSpelled(member.value) && Ends(rest)
    ensures ReadMember(CompactMember(member) + rest) == Some(Read(member, rest))
    decreases member, 1
  {
    hide ReadValue, ReadString, Escaped, Compact, WellSpelled;
    var after := ":" + Compact(member.value) + rest;
    var text := CompactMember(member) + rest;
    StringReadsBack(member.name, after);
    assert text[1..] == Escaped(member.name) + "\"" + after;
    assert after[1..] == Compact(member.value) + rest;
    ValueReadsBack(member.value, rest);
  }

  lemma {:induction false} MembersReadBack(members: seq<Member>, rest: string)
    requires members != [] && forall i | 0 <= i < |members| :: WellSpelled(members[i].value)
    ensures ReadMembers(CompactMembers(members) + "}" + rest) == Some(Read(members, rest))
    decreases members
  {
    hide ReadMember, CompactMember, WellSpelled;
    var text := CompactMembers(members) + "}" + rest;
    if |members| == 1 {
      MemberReadsBack(members[0], "}" + rest);
      assert text == CompactMember(members[0]) + ("}" + rest);
      assert ("}" + rest)[1..] == rest && [members[0]] == members;
    } else {
      var more := CompactMembers(members[1..]) + "}" + rest;
      MemberReadsBack(members[0], "," + more);
      MembersReadBack(members[1..], rest);
      assert text == CompactMember(members[0]) + ("," + more);
      assert ("," + more)[1..] == more && [members[0]] + members[1..] == members;
    }
  }

  /** The compact text of any document, its numbers well spelled, reads back to the document. */
  lemma CompactReadsBack(d: Document)
    requires WellSpelled(d)
    ensures ReadValue(Compact(d)) == Some(Read(d, ""))
  {
    ValueReadsBack(d, "");
    assert Compact(d) + "" == Compact(d);
  }
}
