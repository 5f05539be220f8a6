/** The listing of a type: one line a member, nested members below their message,
    indented by tabs that a shared buffer keeps count of. */
module TypeListing {
  import opened Arithmetic
  import opened Wrappers
  import opened Introspection
  import opened StringUtilities

  /** A printed line as the values that go into it. */
  datatype Line =
    | Heading(indent: string, msgNamespace: string, msgName: string, count: nat, sizeOf: nat)
    | Entry(indent: string, name: string, form: string, typeName: string,
            msgNamespace: string, msgName: string, toInit: bool)

  function Tabs(n: nat): string {
    seq(n, _ => '\t')
  }

  function Form(m: Member): string {
    if m.isArray then (if m.arraySize == 0 then "Sequence of " else "Array of ") else ""
  }

  function EntryOf(m: Member, indent: string): Line
    requires TypeId(m.kind) <= MESSAGE_ID
  {
    Entry(indent, m.name, Form(m), BASIC_TYPE_NAMES[TypeId(m.kind)],
          if m.kind.Message? then m.kind.members.msgNamespace else "",
          if m.kind.Message? then m.kind.members.msgName else "",
          m.HasHeader())
  }

  /** What a member's line says, from the member's own fields. */
  lemma EntryExact(m: Member, indent: string)
    requires TypeId(m.kind) <= MESSAGE_ID && (m.kind.Basic? ==> TypeId(m.kind) < MESSAGE_ID)
    ensures var l := EntryOf(m, indent);
            && l.indent == indent && l.name == m.name
            && (l.form == "Sequence of " <==> m.isArray && m.arraySize == 0)
            && (l.form == "Array of " <==> m.isArray && 0 < m.arraySize)
            && (l.form == "" <==> !m.isArray)
            && (l.toInit <==> m.kind.StringKind? || (m.isArray && m.arraySize == 0))
            && (l.typeName == "ROS2 type" <==> m.kind.Message?)
            && (m.kind.StringKind? ==> l.typeName == "string")
            && (m.kind.Message? ==>
                  l.msgNamespace == m.kind.members.msgNamespace && l.msgName == m.kind.members.msgName)
  {
    var a, b: string := "Sequence of ", "Array of ";
    assert a[0] != b[0];
    if m.kind.Basic? {
      NamesDiffer(TypeId(m.kind), MESSAGE_ID);
    }
  }

  /** The lines of members `i..` of a message at nesting depth `level`: preorder,
      each with one tab more than the depth of its message. */
  ghost function Lines(mm: MessageMembers, i: nat, level: nat): seq<Line>
    requires i <= |mm.members| && ValidIds(mm)
    decreases mm, |mm.members| - i
  {
    if i == |mm.members| then []
    else
      var m := mm.members[i];
      MemberLines(m, level) + Lines(mm, i + 1, level)
  }

  /** The lines of one member, its nested members included. */
  ghost function MemberLines(m: Member, level: nat): seq<Line>
    requires TypeId(m.kind) <= MESSAGE_ID && (m.kind.Message? ==> ValidIds(m.kind.members))
    decreases m
  {
    [EntryOf(m, Tabs(level + 1))] + if m.kind.Message? then Lines(m.kind.members, 0, level + 1) else []
  }

  ghost function Listing(mm: MessageMembers): seq<Line>
    requires ValidIds(mm)
  {
    [Heading(Tabs(1), mm.msgNamespace, mm.msgName, |mm.members|, mm.sizeOf)] + Lines(mm, 0, 0)
  }

  // ------------------------------------------- what the listing tells

  /** A type without array lengths, offsets and sizes of nested messages. */
  datatype Sketch = Sketch(msgNamespace: string, msgName: string, members: seq<SketchMember>)
  datatype SketchMember =
    SketchMember(name: string, isArray: bool, unbounded: bool, typeId: nat, nested: Option<Sketch>)

  /** What a whole listing tells: the type, and the count and size in its heading. */
  datatype Report = Report(sketch: Sketch, count: nat, sizeOf: nat)

  ghost function SketchOf(mm: MessageMembers): Sketch
    requires ValidIds(mm)
    decreases mm, |mm.members| + 1
  {
    Sketch(mm.msgNamespace, mm.msgName, SketchFrom(mm, 0))
  }

  ghost function SketchFrom(mm: MessageMembers, i: nat): seq<SketchMember>
    requires i <= |mm.members| && ValidIds(mm)
    decreases mm, |mm.members| - i
  {
    if i == |mm.members| then []
    else
      var m := mm.members[i];
      [SketchMember(m.name, m.isArray, m.isArray && m.arraySize == 0, TypeId(m.kind),
                    if m.kind.Message? then Some(SketchOf(m.kind.members)) else None)]
      + SketchFrom(mm, i + 1)
  }

  /** The id that goes by a printed type name. */
  function IdOfName(name: string, i: nat): nat
    requires i <= |BASIC_TYPE_NAMES|
    decreases |BASIC_TYPE_NAMES| - i
  {
    if i == |BASIC_TYPE_NAMES| || BASIC_TYPE_NAMES[i] == name then i else IdOfName(name, i + 1)
  }

  predicate AllTabs(s: string) {
    forall c | c in s :: c == '\t'
  }

  /** The members at depth `level` that `lines` starts with, and the lines after them. */
  function Decode(lines: seq<Line>, level: nat): (r: (seq<SketchMember>, seq<Line>))
    ensures |r.1| <= |lines|
    decreases |lines|
  {
    if lines == [] || !lines[0].Entry? || |lines[0].indent| != level + 1 || !AllTabs(lines[0].indent) then ([], lines)
    else
      var l := lines[0];
      if l.typeName == BASIC_TYPE_NAMES[MESSAGE_ID] then
        var (inner, after) := Decode(lines[1..], level + 1);
        var (more, rest) := Decode(after, level);
        var nested := Sketch(l.msgNamespace, l.msgName, inner);
        ([SketchMember(l.name, l.form != "", l.form == "Sequence of ", MESSAGE_ID, Some(nested))] + more, rest)
      else
        var (more, rest) := Decode(lines[1..], level);
        ([SketchMember(l.name, l.form != "", l.form == "Sequence of ", IdOfName(l.typeName, 0), None)] + more, rest)
  }

  /** A listing read back: its heading, and members down to the last line. */
  function ReadListing(lines: seq<Line>): Option<Report> {
    if lines == [] || !lines[0].Heading? || lines[0].indent != "\t" then None
    else
      var (members, rest) := Decode(lines[1..], 0);
      var h := lines[0];
      if rest == [] then Some(Report(Sketch(h.msgNamespace, h.msgName, members), h.count, h.sizeOf)) else None
  }

  /** No two type ids print alike. */
  lemma NamesDiffer(i: nat, j: nat)
    requires i < j < |BASIC_TYPE_NAMES|
    ensures BASIC_TYPE_NAMES[i] != BASIC_TYPE_NAMES[j]
  {
    var a, b := BASIC_TYPE_NAMES[i], BASIC_TYPE_NAMES[j];
    assert |a| != |b| || a[0] != b[0] || a[|a| - 1] != b[|a| - 1] || a[1] != b[1] || a[4] != b[4];
  }

  /** `name` is the name of type id `id` and of no other, and a value takes `size` bytes. */
  ghost predicate IsKnown(name: string, id: nat, size: nat) {
    && id < |BASIC_TYPE_NAMES|
    && (forall k | 0 <= k < |BASIC_TYPE_NAMES| :: BASIC_TYPE_NAMES[k] == name <==> k == id)
    && BASIC_TYPE_SIZES[id] == size
  }

  lemma Known(name: string, id: nat)
    requires id < |BASIC_TYPE_NAMES| && BASIC_TYPE_NAMES[id] == name
    ensures IsKnown(name, id, BASIC_TYPE_SIZES[id])
  {
    forall k | 0 <= k < |BASIC_TYPE_NAMES| && k != id ensures BASIC_TYPE_NAMES[k] != name {
      if k < id { NamesDiffer(k, id); } else { NamesDiffer(id, k); }
    }
  }

  /** Integers by name: their ids in the introspection headers; N bits take N / 8
      bytes, signed or not. */
  lemma IntegersByName()
    ensures IsKnown("uint8", 8, 8 / 8) && IsKnown("int8", 9, 8 / 8)
    ensures IsKnown("uint16", 10, 16 / 8) && IsKnown("int16", 11, 16 / 8)
    ensures IsKnown("uint32", 12, 32 / 8) && IsKnown("int32", 13, 32 / 8)
    ensures IsKnown("uint64", 14, 64 / 8) && IsKnown("int64", 15, 64 / 8)
  {
    Known("uint8", 8);
    Known("int8", 9);
    Known("uint16", 10);
    Known("int16", 11);
    Known("uint32", 12);
    Known("int32", 13);
    Known("uint64", 14);
    Known("int64", 15);
  }

  /** Floating-point numbers by name: a double takes two floats, a long double as much as a double. */
  lemma FloatsByName()
    ensures IsKnown("float", 1, 32 / 8) && IsKnown("double", 2, 2 * 32 / 8) && IsKnown("long double", 3, 2 * 32 / 8)
  {
    Known("float", 1);
    Known("double", 2);
    Known("long double", 3);
  }

  /** Characters, truth values and bytes take one byte, in a string too. */
  lemma CharactersByName()
    ensures IsKnown("char", 4, 1) && IsKnown("wchar", 5, 1) && IsKnown("bool", 6, 1) && IsKnown("octec", 7, 1)
    ensures IsKnown("string", STRING_ID, 1) && IsKnown("wstring", 17, 1) && STRING_ID == 16
  {
    Known("char", 4);
    Known("wchar", 5);
    Known("bool", 6);
    Known("octec", 7);
    Known("string", 16);
    Known("wstring", 17);
  }

  /** Nothing, and a nested message, have no size of their own here. */
  lemma SizelessByName()
    ensures IsKnown("none", 0, 0) && IsKnown("ROS2 type", MESSAGE_ID, 0) && MESSAGE_ID == 18
  {
    Known("none", 0);
    Known("ROS2 type", 18);
  }

  lemma {:induction false} IdFound(id: nat, i: nat)
    requires i <= id < |BASIC_TYPE_NAMES|
    ensures IdOfName(BASIC_TYPE_NAMES[id], i) == id
    decreases id - i
  {
    if i < id {
      NamesDiffer(i, id);
      IdFound(id, i + 1);
    }
  }

  /** The lines after a message's own are not taken for its members. */
  predicate Outside(lines: seq<Line>, level: nat) {
    lines == [] || lines[0].Heading? || |lines[0].indent| <= level
  }

  /** One entry is decoded to the member it was printed for. */
  lemma DecodeEntry(m: Member, rest: seq<Line>, level: nat)
    requires TypeId(m.kind) <= MESSAGE_ID && (m.kind.Basic? ==> TypeId(m.kind) < MESSAGE_ID)
    ensures var d := Decode([EntryOf(m, Tabs(level + 1))] + rest, level);
            var unbounded := m.isArray && m.arraySize == 0;
            if m.kind.Message? then
              var (inner, after) := Decode(rest, level + 1);
              var (more, last) := Decode(after, level);
              var nested := Sketch(m.kind.members.msgNamespace, m.kind.members.msgName, inner);
              d == ([SketchMember(m.name, m.isArray, unbounded, MESSAGE_ID, Some(nested))] + more, last)
            else
              var (more, last) := Decode(rest, level);
              d == ([SketchMember(m.name, m.isArray, unbounded, TypeId(m.kind), None)] + more, last)
  {
    var lines := [EntryOf(m, Tabs(level + 1))] + rest;
    assert lines[0] == EntryOf(m, Tabs(level + 1)) && lines[1..] == rest;
    IdFound(TypeId(m.kind), 0);
    EntryExact(m, Tabs(level + 1));
  }

  lemma {:induction false} DecodeLines(mm: MessageMembers, i: nat, level: nat, tail: seq<Line>)
    requires i <= |mm.members| && ValidIds(mm) && Outside(tail, level)
    ensures Decode(Lines(mm, i, level) + tail, level) == (SketchFrom(mm, i), tail)
    decreases mm, |mm.members| - i
  {
    if i == |mm.members| {
      assert Lines(mm, i, level) + tail == tail;
    } else {
      var m := mm.members[i];
      var more := Lines(mm, i + 1, level) + tail;
      DecodeLines(mm, i + 1, level, tail);
      var nested := if m.kind.Message? then Lines(m.kind.members, 0, level + 1) else [];
      Regroup([EntryOf(m, Tabs(level + 1))], nested, Lines(mm, i + 1, level), tail);
      DecodeEntry(m, nested + more, level);
      if m.kind.Message? {
        OutsideDeeper(mm, i + 1, level, tail);
        DecodeLines(m.kind.members, 0, level + 1, more);
      } else {
        assert nested + more == more;
      }
    }
  }

  lemma Regroup<T>(a: seq<T>, b: seq<T>, c: seq<T>, d: seq<T>)
    ensures a + b + c + d == a + (b + (c + d))
  {
  }

  lemma OutsideDeeper(mm: MessageMembers, i: nat, level: nat, tail: seq<Line>)
    requires i <= |mm.members| && ValidIds(mm) && Outside(tail, level)
    ensures Outside(Lines(mm, i, level) + tail, level + 1)
  {
    if i < |mm.members| {
      assert (Lines(mm, i, level) + tail)[0] == EntryOf(mm.members[i], Tabs(level + 1));
    } else {
      assert Lines(mm, i, level) + tail == tail;
    }
  }

  /** Reading the listing back gives the type, up to array lengths, offsets and
      nested sizes, with its own size and number of members. */
  lemma ListingFaithful(mm: MessageMembers)
    requires ValidIds(mm)
    ensures ReadListing(Listing(mm)) == Some(Report(SketchOf(mm), |mm.members|, mm.sizeOf))
  {
    assert Listing(mm)[1..] == Lines(mm, 0, 0) + [];
    DecodeLines(mm, 0, 0, []);
  }

  /** So types with the same listing are the same up to those. */
  lemma SameListingSameType(a: MessageMembers, b: MessageMembers)
    requires ValidIds(a) && ValidIds(b) && Listing(a) == Listing(b)
    ensures SketchOf(a) == SketchOf(b) && |a.members| == |b.members| && a.sizeOf == b.sizeOf
  {
    ListingFaithful(a);
    ListingFaithful(b);
  }

  // ---------------------------------------------------------------- printing

  /** What `%s` prints of a buffer. */
  function UpToNul(bytes: seq<char>): string {
    if bytes == [] || bytes[0] == NUL then "" else [bytes[0]] + UpToNul(bytes[1..])
  }

  lemma {:induction false} UpToNulOfText(bytes: seq<char>, n: nat)
    requires n < |bytes| && NUL !in bytes[..n] && bytes[n] == NUL
    ensures UpToNul(bytes) == bytes[..n]
    decreases n
  {
    if n > 0 {
      assert bytes[0] in bytes[..n];
      assert bytes[1..][..n - 1] == bytes[..n][1..];
      UpToNulOfText(bytes[1..], n - 1);
    }
  }

  /** Tabs that listing members `i..` adds, at most. */
  function TabRoom(mm: MessageMembers, i: nat): nat
    requires i <= |mm.members|
    decreases mm, |mm.members| - i
  {
    if i == |mm.members| then 1
    else
      var kind := mm.members[i].kind;
      Max(if kind.Message? then 1 + TabRoom(kind.members, 0) else 1, TabRoom(mm, i + 1))
  }

  lemma {:induction false} TabRoomOfMember(mm: MessageMembers, i: nat, j: nat)
    requires i <= j < |mm.members|
    ensures TabRoom(mm, i) >= if mm.members[j].kind.Message? then 1 + TabRoom(mm.members[j].kind.members, 0) else 1
    decreases j - i
  {
    if i < j { TabRoomOfMember(mm, i + 1, j); }
  }

  lemma {:induction false} TabRoomPositive(mm: MessageMembers, i: nat)
    requires i <= |mm.members|
    ensures 1 <= TabRoom(mm, i)
    decreases |mm.members| - i
  {
    if i < |mm.members| { TabRoomPositive(mm, i + 1); }
  }

  /** The indent buffer holds `level` tabs, terminated, and has room for `more`. */
  ghost predicate IndentAt(indent: RosString, level: nat, more: nat)
    reads indent.data
  {
    && indent.data != null && indent.capacity == indent.data.Length
    && indent.size == level && level + more < indent.capacity
    && indent.data[..level] == Tabs(level) && indent.data[level] == NUL
  }

  method PushTab(indent: RosString, ghost level: nat, ghost more: nat) returns (deeper: RosString)
    requires IndentAt(indent, level, more) && 1 <= more
    modifies indent.data
    ensures deeper.data == indent.data && IndentAt(deeper, level + 1, more - 1)
  {
    deeper := AppendText(indent, "\t");
    assert deeper.data[..level + 1] == Tabs(level) + "\t" == Tabs(level + 1);
  }

  method PopTab(indent: RosString, ghost level: nat, ghost more: nat) returns (shallower: RosString)
    requires IndentAt(indent, level + 1, more)
    modifies indent.data
    ensures shallower.data == indent.data && IndentAt(shallower, level, more + 1)
  {
    assert indent.data[..level] == Tabs(level + 1)[..level] == Tabs(level);
    shallower := RemoveTailChars(indent, 1);
    assert shallower.data[..level] == Tabs(level);
  }

  /** What is printed for `indent_buffer.data`. */
  method IndentText(indent: RosString, ghost level: nat, ghost more: nat) returns (text: string)
    requires IndentAt(indent, level, more)
    ensures text == Tabs(level)
  {
    text := UpToNul(indent.data[..]);
    UpToNulOfText(indent.data[..], level);
  }

  class Printer {
    var out: seq<Line>

    constructor ()
      ensures out == []
    {
      out := [];
    }

    /** One member's line, and those nested below it. */
    method PrintMember(m: Member, indent: RosString, level: nat, ghost room: nat)
      requires TypeId(m.kind) <= MESSAGE_ID && (m.kind.Message? ==> ValidIds(m.kind.members))
      requires IndentAt(indent, level + 1, room) && (m.kind.Message? ==> TabRoom(m.kind.members, 0) <= room)
      modifies this, indent.data
      ensures out == old(out) + MemberLines(m, level)
      ensures IndentAt(indent, level + 1, room)
      decreases m
    {
      var text := IndentText(indent, level + 1, room);
      out := out + [EntryOf(m, text)];
      if m.kind.Message? {
        PrintTypeInfo(m.kind.members, indent, level + 1);
        assert out == old(out) + [EntryOf(m, text)] + Lines(m.kind.members, 0, level + 1);
      }
    }

    /** The members of a message, in order. */
    method PrintMembers(mm: MessageMembers, indent: RosString, level: nat, ghost room: nat)
      requires ValidIds(mm) && IndentAt(indent, level + 1, room) && TabRoom(mm, 0) <= room + 1
      modifies this, indent.data
      ensures out == old(out) + Lines(mm, 0, level)
      ensures IndentAt(indent, level + 1, room)
      decreases mm, 0
    {
      ghost var head := out;
      var i := 0;
      while i < |mm.members|
        invariant 0 <= i <= |mm.members|
        invariant IndentAt(indent, level + 1, room)
        invariant out + Lines(mm, i, level) == head + Lines(mm, 0, level)
      {
        TabRoomOfMember(mm, 0, i);
        ghost var before := out;
        PrintMember(mm.members[i], indent, level, room);
        assert before + Lines(mm, i, level) == out + Lines(mm, i + 1, level);
        i := i + 1;
      }
    }

    /** The lines of a message go out in order, and the caller's indent is as it was. */
    method PrintTypeInfo(mm: MessageMembers, indent: RosString, level: nat)
      requires ValidIds(mm) && IndentAt(indent, level, TabRoom(mm, 0))
      modifies this, indent.data
      ensures out == old(out) + if level == 0 then Listing(mm) else Lines(mm, 0, level)
      ensures IndentAt(indent, level, TabRoom(mm, 0))
      decreases mm, 1
    {
      TabRoomPositive(mm, 0);
      ghost var room := TabRoom(mm, 0) - 1;
      var deeper := PushTab(indent, level, TabRoom(mm, 0));
      if level == 0 {
        var text := IndentText(deeper, level + 1, room);
        out := out + [Heading(text, mm.msgNamespace, mm.msgName, |mm.members|, mm.sizeOf)];
      }
      PrintMembers(mm, deeper, level, room);
      var _ := PopTab(deeper, level, room);
    }

    /** The whole listing, on an indent buffer with room for the deepest line. */
    method TypeInfo(mm: MessageMembers)
      requires ValidIds(mm)
      modifies this
      ensures out == old(out) + Listing(mm)
    {
      var n := TabRoom(mm, 0) + 1;
      var block := new char[n](_ => NUL);
      PrintTypeInfo(mm, RosString(block, 0, n), 0);
    }
  }
}
