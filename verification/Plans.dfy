/** The memory plan of a message type: its type tree with every capacity
    resolved.  Each walk of `handle_message_memory` visits the headers of the
    plan in order. */
module Plans {
  import opened Arithmetic
  import opened Introspection
  import opened MemoryRules

  /** What remains to be visited of one message.
      `Slot`: a header at `off`, for `capacity` units of `unit` bytes; when the
      units are messages, all `count == capacity` of them follow `inner`.
      `Inline`: a nested message stored at `off`. */
  datatype Plan =
    | Done
    | Slot(off: nat, capacity: nat, unit: nat, count: nat, inner: Plan, rest: Plan)
    | Inline(off: nat, inner: Plan, rest: Plan)

  /** The plan of members `i..` of `mm`, reached along the dotted `path`. */
  ghost function PlanFrom(mm: MessageMembers, i: nat, conf: Conf, path: string): Plan
    requires i <= |mm.members| && ValidIds(mm)
    decreases mm, |mm.members| - i
  {
    if i == |mm.members| then Done
    else
      var m := mm.members[i];
      var dotted := path + m.name + ".";
      var rest := PlanFrom(mm, i + 1, conf, path);
      if m.HasHeader() then
        var capacity := Capacity(conf, m.kind, dotted);
        if m.kind.Message? then
          Slot(m.offset, capacity, m.kind.members.sizeOf, capacity,
               PlanFrom(m.kind.members, 0, conf, dotted), rest)
        else
          Slot(m.offset, capacity, UnitSize(m.kind), 0, Done, rest)
      else if m.kind.Message? then
        Inline(m.offset, PlanFrom(m.kind.members, 0, conf, dotted), rest)
      else rest
  }

  ghost function PlanOf(mm: MessageMembers, conf: Conf): Plan
    requires ValidIds(mm)
  {
    PlanFrom(mm, 0, conf, "")
  }

  /** Bytes asked for by one walk over the plan. */
  ghost function Size(w: Plan): nat {
    match w
    case Done => 0
    case Slot(_, capacity, unit, count, inner, rest) => capacity * unit + Times(count, Size(inner)) + Size(rest)
    case Inline(_, inner, rest) => Size(inner) + Size(rest)
  }

  /** Requests made by one walk over the plan. */
  ghost function Requests(w: Plan): nat {
    match w
    case Done => 0
    case Slot(_, _, _, count, inner, rest) => 1 + Times(count, Requests(inner)) + Requests(rest)
    case Inline(_, inner, rest) => Requests(inner) + Requests(rest)
  }

  /** Every request is for at least one byte. */
  ghost predicate Positive(w: Plan) {
    match w
    case Done => true
    case Slot(_, capacity, unit, count, inner, rest) => 0 < capacity * unit && Positive(inner) && Positive(rest)
    case Inline(_, inner, rest) => Positive(inner) && Positive(rest)
  }

  /** Offset `o` of the message holds a byte of a header of the plan. */
  ghost predicate Covers(w: Plan, o: int) {
    match w
    case Done => false
    case Slot(off, _, _, _, _, rest) => off <= o < off + HEADER || Covers(rest, o)
    case Inline(off, inner, rest) => Covers(inner, o - off) || Covers(rest, o)
  }

  ghost predicate Within(w: Plan, size: nat) {
    forall o | Covers(w, o) :: 0 <= o < size
  }

  /** Headers of one message do not overlap, and fit their message. */
  ghost predicate Separate(w: Plan) {
    match w
    case Done => true
    case Slot(off, capacity, unit, count, inner, rest) =>
      && count <= capacity
      && (forall o | off <= o < off + HEADER :: !Covers(rest, o))
      && Within(inner, unit) && Separate(inner) && Separate(rest)
    case Inline(off, inner, rest) =>
      && (forall o | Covers(inner, o - off) :: !Covers(rest, o))
      && Separate(inner) && Separate(rest)
  }

  /** Covered offsets belong to some visited member. */
  lemma {:induction false} CoveredByMember(mm: MessageMembers, i: nat, conf: Conf, path: string, o: int)
    requires i <= |mm.members| && ValidIds(mm) && WellFormed(mm)
    requires Covers(PlanFrom(mm, i, conf, path), o)
    ensures exists j | i <= j < |mm.members| ::
              mm.members[j].offset <= o < mm.members[j].offset + mm.members[j].Extent()
    decreases mm, |mm.members| - i
  {
    if i < |mm.members| {
      var m := mm.members[i];
      var dotted := path + m.name + ".";
      if Covers(PlanFrom(mm, i + 1, conf, path), o) {
        CoveredByMember(mm, i + 1, conf, path, o);
      } else if m.kind.Message? && !m.HasHeader() {
        CoveredByMember(m.kind.members, 0, conf, dotted, o - m.offset);
      }
      assert m.offset <= o < m.offset + m.Extent() ||
             exists j | i + 1 <= j < |mm.members| ::
               mm.members[j].offset <= o < mm.members[j].offset + mm.members[j].Extent();
    }
  }

  /** A well-formed type gives a plan whose headers are separate and fit. */
  lemma {:induction false} PlanIsSeparate(mm: MessageMembers, i: nat, conf: Conf, path: string)
    requires i <= |mm.members| && ValidIds(mm) && WellFormed(mm)
    ensures Separate(PlanFrom(mm, i, conf, path))
    ensures Within(PlanFrom(mm, i, conf, path), mm.sizeOf)
    decreases mm, |mm.members| - i
  {
    var w := PlanFrom(mm, i, conf, path);
    forall o | Covers(w, o) ensures 0 <= o < mm.sizeOf {
      CoveredByMember(mm, i, conf, path, o);
    }
    if i < |mm.members| {
      var m := mm.members[i];
      var dotted := path + m.name + ".";
      var rest := PlanFrom(mm, i + 1, conf, path);
      PlanIsSeparate(mm, i + 1, conf, path);
      if m.kind.Message? {
        PlanIsSeparate(m.kind.members, 0, conf, dotted);
      }
      assert forall j | i + 1 <= j < |mm.members| :: Apart(m, mm.members[j]);
      forall o | Covers(rest, o) ensures !(m.offset <= o < m.offset + m.Extent()) {
        CoveredByMember(mm, i + 1, conf, path, o);
      }
    }
  }

  /** Types and rules under which no request is for zero bytes. */
  ghost predicate SizedType(mm: MessageMembers) {
    forall i | 0 <= i < |mm.members| ::
      match mm.members[i].kind
      case Basic(id) => mm.members[i].HasHeader() ==> 0 < id
      case StringKind => true
      case Message(rec) => (mm.members[i].HasHeader() ==> 0 < rec.sizeOf) && SizedType(rec)
  }

  lemma {:induction false} FirstMatchPositive(rules: seq<Rule>, dotted: string, default: nat)
    requires 0 < default && forall k | 0 <= k < |rules| :: 0 < rules[k].size
    ensures 0 < FirstMatch(rules, dotted, default)
  {
    if rules != [] {
      FirstMatchPositive(rules[1..], dotted, default);
    }
  }

  /** With sized types, positive defaults and positive rules, every request is positive. */
  lemma {:induction false} PlanIsPositive(mm: MessageMembers, i: nat, conf: Conf, path: string)
    requires i <= |mm.members| && ValidIds(mm) && SizedType(mm)
    requires 0 < conf.maxString && 0 < conf.maxRos2Sequence && 0 < conf.maxBasicSequence
    requires forall k | 0 <= k < |conf.rules| :: 0 < conf.rules[k].size
    ensures Positive(PlanFrom(mm, i, conf, path))
    decreases mm, |mm.members| - i
  {
    if i < |mm.members| {
      var m := mm.members[i];
      var dotted := path + m.name + ".";
      PlanIsPositive(mm, i + 1, conf, path);
      FirstMatchPositive(conf.rules, dotted, DefaultCapacity(conf, m.kind));
      if m.kind.Message? {
        PlanIsPositive(m.kind.members, 0, conf, dotted);
      }
      if m.HasHeader() {
        assert 0 < UnitSize(m.kind);
        MulPositive(Capacity(conf, m.kind, dotted), UnitSize(m.kind));
      }
    }
  }

  /** What a member adds to the dynamic size and to the number of requests, from
      its own fields: a string one header, of any shape; a basic value something
      only in an unbounded array; a message what it asks for itself, and in an
      unbounded array that many times over, besides the data of the array. */
  lemma MemberCost(mm: MessageMembers, i: nat, conf: Conf, path: string)
    requires i < |mm.members| && ValidIds(mm)
    ensures var m := mm.members[i];
            var n := Capacity(conf, m.kind, path + m.name + ".");
            var here, rest := PlanFrom(mm, i, conf, path), PlanFrom(mm, i + 1, conf, path);
            var bytes, asked := Size(here) - Size(rest), Requests(here) - Requests(rest);
            match m.kind
            case StringKind => bytes == n && asked == 1
            case Basic(id) =>
              if m.isArray && m.arraySize == 0 then bytes == n * BASIC_TYPE_SIZES[id] && asked == 1
              else bytes == 0 && asked == 0
            case Message(rec) =>
              var inner := PlanFrom(rec, 0, conf, path + m.name + ".");
              if m.isArray && m.arraySize == 0 then
                bytes == n * rec.sizeOf + n * Size(inner) && asked == 1 + n * Requests(inner)
              else bytes == Size(inner) && asked == Requests(inner)
  {
    var m := mm.members[i];
    var dotted := path + m.name + ".";
    if m.kind.Message? {
      TimesIsProduct(Capacity(conf, m.kind, dotted), Size(PlanFrom(m.kind.members, 0, conf, dotted)));
      TimesIsProduct(Capacity(conf, m.kind, dotted), Requests(PlanFrom(m.kind.members, 0, conf, dotted)));
    }
  }

  /** No string, and no unbounded array, at any depth. */
  ghost predicate Plain(mm: MessageMembers) {
    forall i | 0 <= i < |mm.members| ::
      var m := mm.members[i];
      match m.kind
      case StringKind => false
      case Basic(_) => !m.isArray || 0 < m.arraySize
      case Message(rec) => (!m.isArray || 0 < m.arraySize) && Plain(rec)
  }

  /** Plain types, and only they, make no request; no byte of theirs is a header's. */
  lemma {:induction false} PlainAsksNothing(mm: MessageMembers, i: nat, conf: Conf, path: string)
    requires i <= |mm.members| && ValidIds(mm) && Plain(mm)
    ensures Requests(PlanFrom(mm, i, conf, path)) == 0
    ensures forall o :: !Covers(PlanFrom(mm, i, conf, path), o)
    decreases mm, |mm.members| - i
  {
    if i < |mm.members| {
      var m := mm.members[i];
      PlainAsksNothing(mm, i + 1, conf, path);
      if m.kind.Message? {
        PlainAsksNothing(m.kind.members, 0, conf, path + m.name + ".");
      }
    }
  }

  lemma {:induction false} OnlyPlainAsksNothing(mm: MessageMembers, conf: Conf, path: string)
    requires ValidIds(mm) && Requests(PlanFrom(mm, 0, conf, path)) == 0
    ensures Plain(mm)
    decreases mm
  {
    forall i | 0 <= i < |mm.members|
      ensures var m := mm.members[i];
              match m.kind
              case StringKind => false
              case Basic(_) => !m.isArray || 0 < m.arraySize
              case Message(rec) => (!m.isArray || 0 < m.arraySize) && Plain(rec)
    {
      var m := mm.members[i];
      NoRequestFrom(mm, i, conf, path);
      MemberCost(mm, i, conf, path);
      if m.kind.Message? && !(m.isArray && m.arraySize == 0) {
        OnlyPlainAsksNothing(m.kind.members, conf, path + m.name + ".");
      }
    }
  }

  lemma {:induction false} NoRequestFrom(mm: MessageMembers, i: nat, conf: Conf, path: string)
    requires i <= |mm.members| && ValidIds(mm) && Requests(PlanFrom(mm, 0, conf, path)) == 0
    ensures Requests(PlanFrom(mm, i, conf, path)) == 0
    decreases i
  {
    if 0 < i {
      NoRequestFrom(mm, i - 1, conf, path);
    }
  }
}
