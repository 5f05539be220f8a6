/** What a newly created message looks like, told from the fields of its members
    and the caller's configuration. */
module Messages {
  import opened Wrappers
  import opened Arithmetic
  import opened Introspection
  import opened MemoryRules
  import opened Plans
  import opened Costs
  import opened Layout
  import opened Store
  import opened Ownership

  /** The bytes of the message that belong to no header are zero. */
  ghost predicate ZeroElsewhere(m: Memory, mm: MessageMembers, p: Ptr) {
    && InBounds(m, p, mm.sizeOf)
    && forall o | p.off <= o < p.off + mm.sizeOf && !HeaderByte(mm, 0, o - p.off) :: m[p.block][o] == Byte(0)
  }

  ghost predicate ZeroBytes(m: Memory, q: Ptr, n: nat) {
    InBounds(m, q, n) && forall o | q.off <= o < q.off + n :: m[q.block][o] == Byte(0)
  }

  /** An empty string or sequence with room for `capacity` elements, its data at `q`. */
  ghost predicate Empty(m: Memory, at: Ptr, q: Ptr, capacity: nat) {
    && Points(m, at, q)
    && Holds(m, at.Plus(WORD), Number(0))
    && Holds(m, at.Plus(2 * WORD), Number(capacity))
  }

  /** Members `i..` of the message at `p`; a nested message, and element 0 of a
      fixed-size array of them, is created in place. */
  ghost predicate Created(m: Memory, mm: MessageMembers, i: nat, conf: Conf, path: string, p: Ptr)
    requires i <= |mm.members| && ValidIds(mm)
    decreases mm, |mm.members| - i
  {
    i < |mm.members| ==>
      var f := mm.members[i];
      && Created(m, mm, i + 1, conf, path, p)
      && if f.kind.StringKind? || (f.isArray && f.arraySize == 0) then
           HeaderCreated(m, f, conf, path, p.Plus(f.offset))
         else
           f.kind.Message? ==> Created(m, f.kind.members, 0, conf, path + f.name + ".", p.Plus(f.offset))
  }

  /** A string or sequence at `at` is empty, its capacity is what the configuration gives that member. */
  ghost predicate HeaderCreated(m: Memory, f: Member, conf: Conf, path: string, at: Ptr)
    requires TypeId(f.kind) <= MESSAGE_ID && (f.kind.Message? ==> ValidIds(f.kind.members))
    decreases f, 1
  {
    && ReadPtr(m, at).Some?
    && Empty(m, at, ReadPtr(m, at).value, Units(conf, f, path))
    && DataCreated(m, f, conf, path, ReadPtr(m, at).value, Units(conf, f, path))
  }

  /** The data at `q`: `n` zero characters, zero values, or created messages one after the other. */
  ghost predicate DataCreated(m: Memory, f: Member, conf: Conf, path: string, q: Ptr, n: nat)
    requires TypeId(f.kind) <= MESSAGE_ID && (f.kind.Message? ==> ValidIds(f.kind.members))
    decreases f, 0
  {
    match f.kind
    case StringKind => ZeroBytes(m, q, n)
    case Basic(id) => ZeroBytes(m, q, n * BASIC_TYPE_SIZES[id])
    case Message(rec) =>
      InBounds(m, q, n * rec.sizeOf) &&
      forall k: nat | k < n :: ElementCreated(m, rec, conf, path + f.name + ".", q, k)
  }

  /** Element `k` of the sequence of messages with its data at `q`. */
  ghost predicate ElementCreated(m: Memory, rec: MessageMembers, conf: Conf, path: string, q: Ptr, k: nat)
    requires ValidIds(rec)
    decreases rec, |rec.members| + 1
  {
    var p := q.Plus(k * rec.sizeOf);
    ZeroElsewhere(m, rec, p) && Created(m, rec, 0, conf, path, p)
  }

  // ---------------------------------------------- what the walks build is that

  lemma {:induction false} ElementBuilt(mode: Mode, m: Memory, inner: Plan, q: Ptr, unit: nat, count: nat, c: nat,
                                        k: nat) returns (d: nat)
    requires ElementsBuilt(mode, true, m, inner, q, unit, count, c) && k < count
    ensures Built(mode, true, m, inner, q.Plus(k * unit), d)
    decreases count
  {
    if k == count - 1 {
      d := AfterElements(mode, inner, k, c);
    } else {
      d := ElementBuilt(mode, m, inner, q, unit, count - 1, c, k);
    }
  }

  /** A covered byte of element `k` is covered by that element. */
  lemma {:induction false} CoveredInElement(inner: Plan, unit: nat, count: nat, k: nat, o: int)
    requires Within(inner, unit) && CoversElements(inner, unit, count, o)
    requires k < count && k * unit <= o < k * unit + unit
    ensures Covers(inner, o - k * unit)
    decreases count
  {
    if k == count - 1 {
      if CoversElements(inner, unit, count - 1, o) {
        ElementsWithin(inner, unit, count - 1, o);
      }
    } else {
      MulMonotone(k + 1, count - 1, unit);
      Unfold(k + 1, unit);
      CoveredInElement(inner, unit, count - 1, k, o);
    }
  }

  lemma ElementInside(k: nat, capacity: nat, unit: nat)
    requires k < capacity
    ensures k * unit + unit <= capacity * unit
  {
    MulMonotone(k + 1, capacity, unit);
    Unfold(k + 1, unit);
  }

  /** The bytes of an element that belong to no header are zero. */
  lemma ElementZero(mode: Mode, m: Memory, inner: Plan, unit: nat, q: Ptr, size: nat, count: nat, k: nat, o: int)
    requires Within(inner, unit) && RegionAt(m, mode, q, size, inner, unit, count, true)
    requires k < count && k * unit + unit <= size
    requires k * unit <= o < k * unit + unit && !Covers(inner, o - k * unit)
    ensures m[q.block][q.off + o] == Byte(0)
  {
    if CoversElements(inner, unit, count, o) {
      CoveredInElement(inner, unit, count, k, o);
    }
    assert !CoversElements(inner, unit, count, q.off + o - q.off);
  }

  lemma ElementZeroElsewhere(mode: Mode, m: Memory, rec: MessageMembers, inner: Plan, conf: Conf, path: string,
                             q: Ptr, size: nat, count: nat, k: nat, start: nat)
    requires ValidIds(rec) && inner == PlanFrom(rec, 0, conf, path) && Within(inner, rec.sizeOf)
    requires RegionAt(m, mode, q, size, inner, rec.sizeOf, count, true)
    requires k < count && start == k * rec.sizeOf && start + rec.sizeOf <= size
    ensures ZeroElsewhere(m, rec, q.Plus(start))
  {
    var p := q.Plus(start);
    forall o | p.off <= o < p.off + rec.sizeOf && !HeaderByte(rec, 0, o - p.off) ensures m[p.block][o] == Byte(0) {
      PlanCovers(rec, 0, conf, path, o - p.off);
      ElementZero(mode, m, inner, rec.sizeOf, q, size, count, k, o - q.off);
    }
  }

  lemma HeaderIsEmpty(m: Memory, at: Ptr, q: Ptr, capacity: nat)
    requires HeaderAt(m, at, q, capacity, true)
    ensures ReadPtr(m, at) == Some(q) && Empty(m, at, q, capacity)
  {
    assert Points(m, at, q);
  }

  /** What a create walk builds is a created message. */
  lemma {:induction false} BuiltIsCreated(mode: Mode, m: Memory, mm: MessageMembers, i: nat, conf: Conf, path: string,
                                          p: Ptr, c: nat)
    requires i <= |mm.members| && ValidIds(mm) && WellFormed(mm)
    requires Built(mode, true, m, PlanFrom(mm, i, Configured(conf), path), p, c)
    ensures Created(m, mm, i, conf, path, p)
    decreases mm, |mm.members| - i
  {
    if i < |mm.members| {
      var w := PlanFrom(mm, i, Configured(conf), path);
      var f := mm.members[i];
      var at, dotted := p.Plus(f.offset), path + f.name + ".";
      if f.HasHeader() {
        UnitsAreCapacity(conf, f, path);
        SlotIsCreated(mode, m, f, conf, path, at, w.capacity, w.unit, w.count, w.inner, c);
        BuiltIsCreated(mode, m, mm, i + 1, conf, path, p,
                       AfterElements(mode, w.inner, w.count, Next(mode, c, w.capacity * w.unit)));
      } else if f.kind.Message? {
        BuiltIsCreated(mode, m, f.kind.members, 0, conf, dotted, at, c);
        BuiltIsCreated(mode, m, mm, i + 1, conf, path, p, After(mode, w.inner, c));
      } else {
        BuiltIsCreated(mode, m, mm, i + 1, conf, path, p, c);
      }
    }
  }

  lemma {:induction false} SlotIsCreated(mode: Mode, m: Memory, f: Member, conf: Conf, path: string, at: Ptr,
                                         n: nat, unit: nat, count: nat, inner: Plan, c: nat)
    requires TypeId(f.kind) <= MESSAGE_ID && n == Units(conf, f, path) && unit == UnitSize(f.kind)
    requires f.kind.Message? ==> ValidIds(f.kind.members) && WellFormed(f.kind.members)
    requires f.kind.Message? ==>
               count == n && inner == PlanFrom(f.kind.members, 0, Configured(conf), path + f.name + ".")
    requires !f.kind.Message? ==> count == 0
    requires SlotBuilt(mode, true, m, at, n, unit, count, inner, c)
    ensures HeaderCreated(m, f, conf, path, at)
    decreases f, 1
  {
    var q := DataAt(mode, c);
    HeaderIsEmpty(m, at, q, n);
    DataIsCreated(mode, m, f, conf, path, q, n, inner, count, Next(mode, c, n * unit));
  }

  lemma {:induction false} DataIsCreated(mode: Mode, m: Memory, f: Member, conf: Conf, path: string, q: Ptr, n: nat,
                                         inner: Plan, count: nat, c: nat)
    requires TypeId(f.kind) <= MESSAGE_ID
    requires f.kind.Message? ==> ValidIds(f.kind.members) && WellFormed(f.kind.members)
    requires f.kind.Message? ==>
               count == n && inner == PlanFrom(f.kind.members, 0, Configured(conf), path + f.name + ".")
    requires !f.kind.Message? ==> count == 0
    requires RegionAt(m, mode, q, n * UnitSize(f.kind), inner, UnitSize(f.kind), count, true)
    requires ElementsBuilt(mode, true, m, inner, q, UnitSize(f.kind), count, c)
    ensures DataCreated(m, f, conf, path, q, n)
    decreases f, 0
  {
    if f.kind.Message? {
      ElementsAreCreated(mode, m, f.kind.members, conf, path + f.name + ".", q, inner, n, c);
    } else {
      AllZero(mode, m, q, n * UnitSize(f.kind), inner, UnitSize(f.kind));
    }
  }

  lemma AllZero(mode: Mode, m: Memory, q: Ptr, size: nat, inner: Plan, unit: nat)
    requires RegionAt(m, mode, q, size, inner, unit, 0, true)
    ensures ZeroBytes(m, q, size)
  {
    forall o | q.off <= o < q.off + size ensures m[q.block][o] == Byte(0) {
      assert !CoversElements(inner, unit, 0, o - q.off);
    }
  }

  lemma {:induction false} ElementsAreCreated(mode: Mode, m: Memory, rec: MessageMembers, conf: Conf, path: string,
                                              q: Ptr, inner: Plan, n: nat, c: nat)
    requires ValidIds(rec) && WellFormed(rec) && inner == PlanFrom(rec, 0, Configured(conf), path)
    requires RegionAt(m, mode, q, n * rec.sizeOf, inner, rec.sizeOf, n, true)
    requires ElementsBuilt(mode, true, m, inner, q, rec.sizeOf, n, c)
    ensures forall k: nat | k < n :: ElementCreated(m, rec, conf, path, q, k)
    decreases rec, |rec.members| + 1
  {
    PlanIsSeparate(rec, 0, Configured(conf), path);
    forall k: nat | k < n ensures ElementCreated(m, rec, conf, path, q, k) {
      ElementInside(k, n, rec.sizeOf);
      ElementZeroElsewhere(mode, m, rec, inner, Configured(conf), path, q, n * rec.sizeOf, n, k, k * rec.sizeOf);
      var d := ElementBuilt(mode, m, inner, q, rec.sizeOf, n, c, k);
      BuiltIsCreated(mode, m, rec, 0, conf, path, q.Plus(k * rec.sizeOf), d);
    }
  }
}
