/** How one cell of a result is cut down to what a snapshot keeps of it. */
module CellRetention {
  import opened Wrappers
  import opened Numbers
  import Json

  // ---- cutting text at a character boundary ----

  /** The longest prefix of a text within `cap` bytes. */
  function Cut(text: string, cap: nat): string {
    if text == [] || Json.Utf8Length(text[0]) > cap then []
    else [text[0]] + Cut(text[1..], cap - Json.Utf8Length(text[0]))
  }

  /** The part is the beginning of the text, within `cap` bytes, and one character more would not be. */
  ghost predicate LongestPrefix(part: string, text: string, cap: nat) {
    && part <= text && Json.ByteLen(part) <= cap
    && (|part| < |text| ==> Json.ByteLen(text[..|part| + 1]) > cap)
  }

  lemma ByteLenStep(text: string)
    requires text != []
    ensures Json.ByteLen(text) == Json.Utf8Length(text[0]) + Json.ByteLen(text[1..])
  {
  }

  lemma {:induction false} CutMeaning(text: string, cap: nat)
    ensures LongestPrefix(Cut(text, cap), text, cap)
  {
    hide Json.ByteLen, Json.Utf8Length;
    if text == [] || Json.Utf8Length(text[0]) > cap {
      NoText();
      if text != [] {
        ByteLenStep(text[..1]);
        assert text[..1][1..] == [];
      }
    } else {
      var rest := Cut(text[1..], cap - Json.Utf8Length(text[0]));
      CutMeaning(text[1..], cap - Json.Utf8Length(text[0]));
      var cut := [text[0]] + rest;
      ByteLenStep(cut);
      assert cut[1..] == rest;
      assert text == [text[0]] + text[1..];
      if |cut| < |text| {
        var longer := text[..|cut| + 1];
        ByteLenStep(longer);
        assert longer[1..] == text[1..][..|rest| + 1];
      }
    }
  }

  lemma NoText()
    ensures Json.ByteLen("") == 0
  {
  }

  lemma {:induction false} CutWhole(text: string, cap: nat)
    ensures Cut(text, cap) == text <==> Json.ByteLen(text) <= cap
    ensures Json.ByteLen(Cut(text, cap)) < Json.ByteLen(text) <==> Json.ByteLen(text) > cap
  {
    CutMeaning(text, cap);
    var cut := Cut(text, cap);
    var rest := text[|cut|..];
    assert text == cut + rest;
    Json.ByteLenAppend(cut, rest);
    hide Cut, Json.ByteLen;
    if |cut| < |text| {
      var longer := text[..|cut| + 1];
      var beyond := text[|cut| + 1..];
      assert text == longer + beyond;
      Json.ByteLenAppend(longer, beyond);
    } else {
      assert rest == [];
      NoText();
    }
  }

  /** `str::is_char_boundary`. */
  predicate IsCharBoundary(text: string, n: nat) {
    n == 0 || (text != [] && Json.Utf8Length(text[0]) <= n && IsCharBoundary(text[1..], n - Json.Utf8Length(text[0])))
  }

  /** `String::truncate` at a character boundary. */
  function TakeBytes(text: string, n: nat): string
    requires IsCharBoundary(text, n)
  {
    if n == 0 then [] else [text[0]] + TakeBytes(text[1..], n - Json.Utf8Length(text[0]))
  }

  /** The last character boundary at or before `cap` is where the longest prefix ends. */
  lemma {:induction false} LastBoundary(text: string, boundary: nat, cap: nat)
    requires boundary <= cap && cap < Json.ByteLen(text) && IsCharBoundary(text, boundary)
    requires forall n | boundary < n <= cap :: !IsCharBoundary(text, n)
    ensures TakeBytes(text, boundary) == Cut(text, cap)
  {
    ByteLenStep(text);
    hide Json.ByteLen;
    var first := Json.Utf8Length(text[0]);
    if first <= cap {
      assert IsCharBoundary(text[1..], 0);
      assert IsCharBoundary(text, first);
      forall n | boundary - first < n <= cap - first
        ensures !IsCharBoundary(text[1..], n)
      {
        assert !IsCharBoundary(text, n + first);
      }
      LastBoundary(text[1..], boundary - first, cap - first);
    } else {
      assert boundary == 0;
    }
  }

  /** `truncate_utf8`. */
  method TruncateUtf8(text: string, cap: nat) returns (value: string)
    ensures value == Cut(text, cap)
  {
    CutWhole(text, cap);
    hide Json.ByteLen, Cut, TakeBytes;
    if Json.ByteLen(text) <= cap {
      return text;
    }
    var boundary: nat := cap;
    while boundary > 0 && !IsCharBoundary(text, boundary)
      invariant boundary <= cap
      invariant forall n | boundary < n <= cap :: !IsCharBoundary(text, n)
    {
      boundary := boundary - 1;
    }
    LastBoundary(text, boundary, cap);
    value := TakeBytes(text, boundary);
  }

  // ---- cutting a document at a depth ----

  /** The levels of a document; a container with nothing in it counts as a scalar. */
  function Levels(d: Json.Document): (levels: nat)
    ensures levels >= 1
    decreases d
  {
    match d
    case Array(items) => if items == [] then 1 else 1 + ItemLevels(items)
    case Object(members) => if members == [] then 1 else 1 + MemberLevels(members)
    case _ => 1
  }

  function ItemLevels(items: seq<Json.Document>): (levels: nat)
    ensures levels >= 1
    decreases items
  {
    if items == [] then 1 else Max(Levels(items[0]), ItemLevels(items[1..]))
  }

  function LevelsOfMember(member: Json.Member): (levels: nat)
    ensures levels >= 1
    decreases member
  {
    Levels(member.value)
  }

  function MemberLevels(members: seq<Json.Member>): (levels: nat)
    ensures levels >= 1
    decreases members
  {
    if members == [] then 1 else Max(LevelsOfMember(members[0]), MemberLevels(members[1..]))
  }

  /** The document with every container beyond `room` levels emptied. */
  function Shallow(d: Json.Document, room: nat): Json.Document
    decreases d
  {
    match d
    case Array(items) => if room <= 1 then Json.Array([]) else Json.Array(ShallowItems(items, room - 1))
    case Object(members) => if room <= 1 then Json.Object([]) else Json.Object(ShallowMembers(members, room - 1))
    case _ => d
  }

  function ShallowItems(items: seq<Json.Document>, room: nat): (shallow: seq<Json.Document>)
    ensures |shallow| == |items|
    decreases items
  {
    if items == [] then [] else [Shallow(items[0], room)] + ShallowItems(items[1..], room)
  }

  function ShallowMember(member: Json.Member, room: nat): Json.Member
    decreases member
  {
    Json.Member(member.name, Shallow(member.value, room))
  }

  function ShallowMembers(members: seq<Json.Member>, room: nat): (shallow: seq<Json.Member>)
    ensures |shallow| == |members|
    decreases members
  {
    if members == [] then [] else [ShallowMember(members[0], room)] + ShallowMembers(members[1..], room)
  }

  /** The cut leaves at most `room` levels, and leaves alone exactly the documents with no more. */
  lemma {:induction false} ShallowLevels(d: Json.Document, room: nat)
    requires room >= 1
    ensures Levels(Shallow(d, room)) <= room
    ensures Shallow(d, room) == d <==> Levels(d) <= room
    decreases d
  {
    match d {
      case Array(items) => if room > 1 { ShallowItemLevels(items, room - 1); }
      case Object(members) => if room > 1 { ShallowMemberLevels(members, room - 1); }
      case _ =>
    }
  }

  lemma {:induction false} ShallowItemLevels(items: seq<Json.Document>, room: nat)
    requires room >= 1
    ensures ItemLevels(ShallowItems(items, room)) <= room
    ensures ShallowItems(items, room) == items <==> ItemLevels(items) <= room
    decreases items
  {
    hide Levels, Shallow;
    if items != [] {
      ShallowLevels(items[0], room);
      ShallowItemLevels(items[1..], room);
      var shallow := ShallowItems(items, room);
      assert shallow[0] == Shallow(items[0], room) && shallow[1..] == ShallowItems(items[1..], room);
      assert items == [items[0]] + items[1..];
    }
  }

  lemma {:induction false} ShallowMemberLevels(members: seq<Json.Member>, room: nat)
    requires room >= 1
    ensures MemberLevels(ShallowMembers(members, room)) <= room
    ensures ShallowMembers(members, room) == members <==> MemberLevels(members) <= room
    decreases members
  {
    hide Levels, Shallow;
    if members != [] {
      ShallowOneMember(members[0], room);
      ShallowMemberLevels(members[1..], room);
      var shallow := ShallowMembers(members, room);
      assert shallow[0] == ShallowMember(members[0], room) && shallow[1..] == ShallowMembers(members[1..], room);
      assert members == [members[0]] + members[1..];
    }
  }

  lemma ShallowOneMember(member: Json.Member, room: nat)
    requires room >= 1
    ensures LevelsOfMember(ShallowMember(member, room)) <= room
    ensures ShallowMember(member, room) == member <==> LevelsOfMember(member) <= room
    decreases member
  {
    hide Levels, Shallow;
    ShallowLevels(member.value, room);
  }

  // ---- what the cut leaves, place by place ----

  /** The items of an array, or the values of an object. */
  function ChildrenOf(d: Json.Document): seq<Json.Document> {
    match d
    case Array(items) => items
    case Object(members) => seq(|members|, i requires 0 <= i < |members| => members[i].value)
    case _ => []
  }

  /** What is found at a path of positions. */
  function At(d: Json.Document, path: seq<nat>): Option<Json.Document>
    decreases |path|
  {
    if path == [] then Some(d)
    else if path[0] >= |ChildrenOf(d)| then None
    else At(ChildrenOf(d)[path[0]], path[1..])
  }

  /** Both are arrays, both are objects, or they are one and the same. */
  ghost predicate SameKind(a: Json.Document, b: Json.Document) {
    if a.Array? then b.Array? else if a.Object? then b.Object? else a == b
  }

  /** As many items, or members of the same names. */
  ghost predicate SameParts(a: Json.Document, b: Json.Document) {
    && |ChildrenOf(a)| == |ChildrenOf(b)|
    && (a.Object? && b.Object? ==> forall i | 0 <= i < |a.members| :: a.members[i].name == b.members[i].name)
  }

  /**
   The document cut at a depth: above the last level everything is as it was; at the last level scalars are as they
   were and arrays and objects are empty; and nothing is deeper.
   */
  ghost predicate CutAtDepth(d: Json.Document, depth: nat, cut: Json.Document) {
    forall path :: PlaceIsCut(d, depth, cut, path)
  }

  ghost predicate PlaceIsCut(d: Json.Document, depth: nat, cut: Json.Document, path: seq<nat>) {
    var before, after := At(d, path), At(cut, path);
    if |path| >= depth then after.None?
    else
      && (before.Some? <==> after.Some?)
      && (before.Some? ==>
            && SameKind(before.value, after.value)
            && if |path| + 1 < depth then SameParts(before.value, after.value) else ChildrenOf(after.value) == [])
  }

  lemma {:induction false} ShallowItemAt(items: seq<Json.Document>, room: nat, i: nat)
    requires i < |items|
    ensures ShallowItems(items, room)[i] == Shallow(items[i], room)
  {
    hide Shallow;
    if i > 0 {
      ShallowItemAt(items[1..], room, i - 1);
    }
  }

  lemma {:induction false} ShallowMemberAt(members: seq<Json.Member>, room: nat, i: nat)
    requires i < |members|
    ensures ShallowMembers(members, room)[i] == ShallowMember(members[i], room)
  {
    hide ShallowMember;
    if i > 0 {
      ShallowMemberAt(members[1..], room, i - 1);
    }
  }

  lemma ShallowParts(d: Json.Document, room: nat)
    requires room > 1
    ensures SameKind(d, Shallow(d, room)) && SameParts(d, Shallow(d, room))
    ensures forall i | 0 <= i < |ChildrenOf(d)| :: ChildrenOf(Shallow(d, room))[i] == Shallow(ChildrenOf(d)[i], room - 1)
  {
    match d {
      case Array(items) =>
        forall i | 0 <= i < |items|
          ensures ShallowItems(items, room - 1)[i] == Shallow(items[i], room - 1)
        {
          ShallowItemAt(items, room - 1, i);
        }
      case Object(members) =>
        forall i | 0 <= i < |members|
          ensures ShallowMembers(members, room - 1)[i]
               == Json.Member(members[i].name, Shallow(members[i].value, room - 1))
        {
          ShallowMemberAt(members, room - 1, i);
        }
      case _ =>
    }
  }

  lemma {:induction false} ShallowAt(d: Json.Document, room: nat, path: seq<nat>)
    requires room >= 1
    ensures PlaceIsCut(d, room, Shallow(d, room), path)
    decreases |path|
  {
    if room > 1 {
      ShallowParts(d, room);
    }
    if path != [] && room > 1 && path[0] < |ChildrenOf(d)| {
      ShallowAt(ChildrenOf(d)[path[0]], room - 1, path[1..]);
    }
  }

  lemma ShallowIsCut(d: Json.Document, room: nat)
    requires room >= 1
    ensures CutAtDepth(d, room, Shallow(d, room))
  {
    hide Shallow, PlaceIsCut;
    forall path
      ensures PlaceIsCut(d, room, Shallow(d, room), path)
    {
      ShallowAt(d, room, path);
    }
  }

  lemma ContainerText(items: seq<Json.Document>, members: seq<Json.Member>)
    ensures Json.TextBytes(Json.Array(items)) == 2 + (if items == [] then 0 else |items| - 1) + Json.CompactTotal(items)
    ensures Json.TextBytes(Json.Object(members))
         == 2 + (if members == [] then 0 else |members| - 1) + Json.MemberTotal(members)
  {
    Json.ArrayLength(items);
    Json.ObjectLength(members);
  }

  /** Cutting at a depth never lengthens the text. */
  lemma {:induction false} ShallowIsShorter(d: Json.Document, room: nat)
    ensures Json.TextBytes(Shallow(d, room)) <= Json.TextBytes(d)
    decreases d
  {
    hide Json.TextBytes;
    match d {
      case Array(items) =>
        ContainerText(items, []);
        if room > 1 {
          ContainerText(ShallowItems(items, room - 1), []);
          ShallowItemsShorter(items, room - 1);
        } else {
          ContainerText([], []);
        }
      case Object(members) =>
        ContainerText([], members);
        if room > 1 {
          ContainerText([], ShallowMembers(members, room - 1));
          ShallowMembersShorter(members, room - 1);
        } else {
          ContainerText([], []);
        }
      case _ =>
    }
  }

  lemma {:induction false} ShallowItemsShorter(items: seq<Json.Document>, room: nat)
    ensures Json.CompactTotal(ShallowItems(items, room)) <= Json.CompactTotal(items)
    decreases items
  {
    hide Shallow, Json.Compact, Json.ByteLen;
    if items != [] {
      ShallowIsShorter(items[0], room);
      ShallowItemsShorter(items[1..], room);
      var shallow := ShallowItems(items, room);
      assert shallow[0] == Shallow(items[0], room) && shallow[1..] == ShallowItems(items[1..], room);
    }
  }

  lemma ShallowMemberShorter(member: Json.Member, room: nat)
    ensures Json.TextBytes(ShallowMember(member, room).value) <= Json.TextBytes(member.value)
    decreases member
  {
    hide Shallow, Json.TextBytes;
    ShallowIsShorter(member.value, room);
  }

  lemma {:induction false} ShallowMembersShorter(members: seq<Json.Member>, room: nat)
    ensures Json.MemberTotal(ShallowMembers(members, room)) <= Json.MemberTotal(members)
    decreases members
  {
    hide Shallow, Json.Compact, Json.ByteLen, Json.StringLength;
    if members != [] {
      ShallowMemberShorter(members[0], room);
      ShallowMembersShorter(members[1..], room);
      var shallow := ShallowMembers(members, room);
      assert shallow[0] == ShallowMember(members[0], room) && shallow[1..] == ShallowMembers(members[1..], room);
    }
  }

  /** `truncate_json_depth`: the cut document, and whether anything was cut. */
  method TruncateJsonDepth(value: Json.Document, depth: nat, maxDepth: nat)
    returns (cut: Json.Document, truncated: bool)
    requires 1 <= depth <= maxDepth
    ensures cut == Shallow(value, maxDepth - depth + 1)
    ensures truncated <==> Levels(value) > maxDepth - depth + 1
    decreases value
  {
    match value {
      case Array(items) =>
        if depth >= maxDepth {
          return Json.Array([]), items != [];
        }
        var shallow, did := TruncateItems(items, depth + 1, maxDepth);
        return Json.Array(shallow), did;
      case Object(members) =>
        if depth >= maxDepth {
          return Json.Object([]), members != [];
        }
        var shallow, did := TruncateMembers(members, depth + 1, maxDepth);
        return Json.Object(shallow), did;
      case _ =>
        return value, false;
    }
  }

  method TruncateItems(items: seq<Json.Document>, depth: nat, maxDepth: nat)
    returns (cut: seq<Json.Document>, truncated: bool)
    requires 1 <= depth <= maxDepth
    ensures cut == ShallowItems(items, maxDepth - depth + 1)
    ensures truncated <==> ItemLevels(items) > maxDepth - depth + 1
    decreases items
  {
    hide Levels, Shallow;
    var room := maxDepth - depth + 1;
    cut, truncated := [], false;
    var i := 0;
    while i < |items|
      invariant 0 <= i <= |items|
      invariant cut + ShallowItems(items[i..], room) == ShallowItems(items, room)
      invariant truncated || ItemLevels(items[i..]) > room <==> ItemLevels(items) > room
    {
      assert items[i..][1..] == items[i + 1..];
      var one, did := TruncateJsonDepth(items[i], depth, maxDepth);
      ghost var rest := ShallowItems(items[i + 1..], room);
      assert cut + ([one] + rest) == (cut + [one]) + rest;
      cut := cut + [one];
      truncated := truncated || did;
      i := i + 1;
    }
  }

  method TruncateMember(member: Json.Member, depth: nat, maxDepth: nat)
    returns (cut: Json.Member, truncated: bool)
    requires 1 <= depth <= maxDepth
    ensures cut == ShallowMember(member, maxDepth - depth + 1)
    ensures truncated <==> LevelsOfMember(member) > maxDepth - depth + 1
    decreases member
  {
    hide Levels, Shallow;
    var value, did := TruncateJsonDepth(member.value, depth, maxDepth);
    return Json.Member(member.name, value), did;
  }

  method TruncateMembers(members: seq<Json.Member>, depth: nat, maxDepth: nat)
    returns (cut: seq<Json.Member>, truncated: bool)
    requires 1 <= depth <= maxDepth
    ensures cut == ShallowMembers(members, maxDepth - depth + 1)
    ensures truncated <==> MemberLevels(members) > maxDepth - depth + 1
    decreases members
  {
    hide LevelsOfMember, ShallowMember;
    var room := maxDepth - depth + 1;
    cut, truncated := [], false;
    var i := 0;
    while i < |members|
      invariant 0 <= i <= |members|
      invariant cut + ShallowMembers(members[i..], room) == ShallowMembers(members, room)
      invariant truncated || MemberLevels(members[i..]) > room <==> MemberLevels(members) > room
    {
      assert members[i..][1..] == members[i + 1..];
      var one, did := TruncateMember(members[i], depth, maxDepth);
      ghost var rest := ShallowMembers(members[i + 1..], room);
      assert cut + ([one] + rest) == (cut + [one]) + rest;
      cut := cut + [one];
      truncated := truncated || did;
      i := i + 1;
    }
  }
}
