/** The dynamic size, the number of requests and the header bytes of a type, worked
    out from a caller's configuration and the fields of the members alone. */
module Costs {
  import opened Arithmetic
  import opened Introspection
  import opened MemoryRules
  import opened Plans

  /** Units a member gets: the first rule that names it, else the caller's
      capacity for its kind, else 20 characters, 5 messages or 5 basic values. */
  ghost function Units(conf: Conf, m: Member, path: string): nat {
    FirstMatch(conf.rules, path + m.name + ".",
               match m.kind
               case StringKind => if conf.maxString != 0 then conf.maxString else 20
               case Message(_) => if conf.maxRos2Sequence != 0 then conf.maxRos2Sequence else 5
               case Basic(_) => if conf.maxBasicSequence != 0 then conf.maxBasicSequence else 5)
  }

  /** Bytes that members `i..` ask for. */
  ghost function Bytes(mm: MessageMembers, i: nat, conf: Conf, path: string): nat
    requires i <= |mm.members| && ValidIds(mm)
    decreases mm, |mm.members| - i
  {
    if i == |mm.members| then 0
    else
      var m := mm.members[i];
      var n := Units(conf, m, path);
      Bytes(mm, i + 1, conf, path) +
      match m.kind
      case StringKind => n
      case Basic(id) => if m.isArray && m.arraySize == 0 then n * BASIC_TYPE_SIZES[id] else 0
      case Message(rec) =>
        if m.isArray && m.arraySize == 0 then n * (rec.sizeOf + Bytes(rec, 0, conf, path + m.name + "."))
        else Bytes(rec, 0, conf, path + m.name + ".")
  }

  /** Requests that members `i..` make. */
  ghost function Asks(mm: MessageMembers, i: nat, conf: Conf, path: string): nat
    requires i <= |mm.members| && ValidIds(mm)
    decreases mm, |mm.members| - i
  {
    if i == |mm.members| then 0
    else
      var m := mm.members[i];
      Asks(mm, i + 1, conf, path) +
      match m.kind
      case StringKind => 1
      case Basic(_) => if m.isArray && m.arraySize == 0 then 1 else 0
      case Message(rec) =>
        if m.isArray && m.arraySize == 0 then 1 + Units(conf, m, path) * Asks(rec, 0, conf, path + m.name + ".")
        else Asks(rec, 0, conf, path + m.name + ".")
  }

  lemma UnitsAreCapacity(conf: Conf, m: Member, path: string)
    ensures Capacity(Configured(conf), m.kind, path + m.name + ".") == Units(conf, m, path)
  {
  }

  /** The plan of a type under a caller's configuration costs exactly that. */
  lemma {:induction false} PlanCosts(mm: MessageMembers, i: nat, conf: Conf, path: string)
    requires i <= |mm.members| && ValidIds(mm)
    ensures Size(PlanFrom(mm, i, Configured(conf), path)) == Bytes(mm, i, conf, path)
    ensures Requests(PlanFrom(mm, i, Configured(conf), path)) == Asks(mm, i, conf, path)
    decreases mm, |mm.members| - i
  {
    if i < |mm.members| {
      var m := mm.members[i];
      PlanCosts(mm, i + 1, conf, path);
      MemberCost(mm, i, Configured(conf), path);
      UnitsAreCapacity(conf, m, path);
      if m.kind.Message? {
        PlanCosts(m.kind.members, 0, conf, path + m.name + ".");
        Distribute(Units(conf, m, path), m.kind.members.sizeOf, Bytes(m.kind.members, 0, conf, path + m.name + "."));
      }
    }
  }

  lemma Distribute(n: nat, a: nat, b: nat)
    ensures n * (a + b) == n * a + n * b
  {
  }

  /** The size of a message of one member that no rule names. */
  lemma UnnamedMemberSize(mm: MessageMembers, conf: Conf)
    requires ValidIds(mm) && |mm.members| == 1
    requires forall k | 0 <= k < |conf.rules| :: !Names(conf.rules[k].rule, mm.members[0].name + ".")
    ensures var m := mm.members[0];
            var strings := if 0 < conf.maxString then conf.maxString else 20;
            var messages := if 0 < conf.maxRos2Sequence then conf.maxRos2Sequence else 5;
            var values := if 0 < conf.maxBasicSequence then conf.maxBasicSequence else 5;
            Bytes(mm, 0, conf, "") ==
            match m.kind
            case StringKind => strings
            case Basic(id) => if m.isArray && m.arraySize == 0 then values * BASIC_TYPE_SIZES[id] else 0
            case Message(rec) =>
              var inner := Bytes(rec, 0, conf, m.name + ".");
              if m.isArray && m.arraySize == 0 then messages * (rec.sizeOf + inner) else inner
  {
    var m := mm.members[0];
    assert "" + m.name + "." == m.name + ".";
    assert Bytes(mm, 1, conf, "") == 0;
    FirstMatchExact(conf.rules, m.name + ".", Units(conf.(rules := []), m, ""));
  }

  /** Offset `o` of a message holds a byte of the header of one of members `i..`, or
      of a message nested in them; of a fixed-size array only element 0 counts. */
  ghost predicate HeaderByte(mm: MessageMembers, i: nat, o: int)
    requires i <= |mm.members|
    decreases mm, |mm.members| - i
  {
    i < |mm.members| &&
    var m := mm.members[i];
    || HeaderByte(mm, i + 1, o)
    || (if m.kind.StringKind? || (m.isArray && m.arraySize == 0) then m.offset <= o < m.offset + 3 * WORD
        else m.kind.Message? && HeaderByte(m.kind.members, 0, o - m.offset))
  }

  /** Those are the bytes that the plan covers, under any configuration. */
  lemma {:induction false} PlanCovers(mm: MessageMembers, i: nat, conf: Conf, path: string, o: int)
    requires i <= |mm.members| && ValidIds(mm)
    ensures Covers(PlanFrom(mm, i, conf, path), o) <==> HeaderByte(mm, i, o)
    decreases mm, |mm.members| - i
  {
    if i < |mm.members| {
      var m := mm.members[i];
      PlanCovers(mm, i + 1, conf, path, o);
      if m.kind.Message? {
        PlanCovers(m.kind.members, 0, conf, path + m.name + ".", o - m.offset);
      }
    }
  }

  /** Each message nested in members `i..` that the walk visits has no string and no
      unbounded array, or asks for some bytes; and so on below it. */
  ghost predicate NestedAccountable(mm: MessageMembers, i: nat, conf: Conf, path: string)
    requires i <= |mm.members| && ValidIds(mm)
    decreases mm, |mm.members| - i
  {
    i < |mm.members| ==>
      var m := mm.members[i];
      && NestedAccountable(mm, i + 1, conf, path)
      && (m.kind.Message? && (m.isArray && m.arraySize == 0 ==> 0 < Units(conf, m, path)) ==>
            Accountable(m.kind.members, conf, path + m.name + "."))
  }

  /** The same with the message itself. */
  ghost predicate Accountable(mm: MessageMembers, conf: Conf, path: string)
    requires ValidIds(mm)
    decreases mm, |mm.members| + 1
  {
    NestedAccountable(mm, 0, conf, path) && (Plain(mm) || 0 < Bytes(mm, 0, conf, path))
  }

  /** No visited sequence in members `i..` has elements with a string or an unbounded array in them. */
  ghost predicate FlatType(mm: MessageMembers, i: nat, conf: Conf, path: string)
    requires i <= |mm.members|
    decreases mm, |mm.members| - i
  {
    i < |mm.members| ==>
      var m := mm.members[i];
      && FlatType(mm, i + 1, conf, path)
      && (m.kind.Message? ==>
            if m.isArray && m.arraySize == 0 then Units(conf, m, path) == 0 || Plain(m.kind.members)
            else FlatType(m.kind.members, 0, conf, path + m.name + "."))
  }

  lemma PlainExact(mm: MessageMembers, conf: Conf, path: string)
    requires ValidIds(mm)
    ensures Plain(mm) <==> Requests(PlanFrom(mm, 0, conf, path)) == 0
  {
    if Plain(mm) {
      PlainAsksNothing(mm, 0, conf, path);
    } else if Requests(PlanFrom(mm, 0, conf, path)) == 0 {
      OnlyPlainAsksNothing(mm, conf, path);
    }
  }
}
