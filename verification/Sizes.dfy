/** The sizes the walks report, and what comparing two of them detects. */
module Sizes {
  import opened Arithmetic
  import opened Introspection
  import opened MemoryRules
  import opened Plans
  import opened Costs
  import opened Layout
  import opened Store
  import opened Semantics

  // --------------------------------------------------- walks without failure

  /** The dynamic-size walk changes nothing and reports the size of the plan. */
  lemma {:induction false} DynamicSizeWalk(w: Plan, p: Ptr, s: State, fails: nat -> bool)
    ensures Run(CalculateSize, w, p, s, fails) == Outcome(s, Size(w), false)
    decreases w, 0, 0
  {
    match w
    case Done =>
    case Slot(off, capacity, unit, count, inner, rest) =>
      DynamicSizeElements(inner, p.Plus(off), unit, count, s, fails);
      DynamicSizeWalk(rest, p, s, fails);
    case Inline(off, inner, rest) =>
      DynamicSizeWalk(inner, p.Plus(off), s, fails);
      DynamicSizeWalk(rest, p, s, fails);
  }

  lemma {:induction false} DynamicSizeElements(inner: Plan, at: Ptr, unit: nat, k: nat, s: State, fails: nat -> bool)
    ensures Elements(CalculateSize, inner, at, unit, k, s, fails) == Outcome(s, Times(k, Size(inner)), false)
    decreases inner, 1, k
  {
    if k > 0 {
      DynamicSizeElements(inner, at, unit, k - 1, s, fails);
      DynamicSizeWalk(inner, NULL, s, fails);
    }
  }

  /** The destroy walk reports the size of the plan, whatever memory holds. */
  lemma {:induction false} DestroySize(w: Plan, p: Ptr, s: State, fails: nat -> bool)
    ensures var out := Run(Destroy, w, p, s, fails);
            out.used == Size(w) && !out.aborted && out.s.requests == s.requests
    decreases w, 0, 0
  {
    match w
    case Done =>
    case Slot(off, capacity, unit, count, inner, rest) =>
      var v := VisitSlot(Destroy, p.Plus(off), capacity, unit, count, inner, s, fails);
      DestroyElementsSize(inner, p.Plus(off), unit, count, s, fails);
      DestroySize(rest, p, v.s, fails);
    case Inline(off, inner, rest) =>
      DestroySize(inner, p.Plus(off), s, fails);
      DestroySize(rest, p, Run(Destroy, inner, p.Plus(off), s, fails).s, fails);
  }

  lemma {:induction false} DestroyElementsSize(inner: Plan, at: Ptr, unit: nat, k: nat, s: State, fails: nat -> bool)
    ensures var out := Elements(Destroy, inner, at, unit, k, s, fails);
            out.used == Times(k, Size(inner)) && !out.aborted && out.s.requests == s.requests
    decreases inner, 1, k
  {
    if k > 0 {
      DestroyElementsSize(inner, at, unit, k - 1, s, fails);
      var e := Elements(Destroy, inner, at, unit, k - 1, s, fails);
      var (s1, q) := LoadPtr(e.s, at);
      DestroySize(inner, q.Plus((k - 1) * unit), s1, fails);
    }
  }

  /** A walk that visits no header does nothing and counts nothing, whatever the operation. */
  lemma {:induction false} NothingToWalk(op: Operation, w: Plan, p: Ptr, s: State, fails: nat -> bool)
    requires Requests(w) == 0
    ensures Run(op, w, p, s, fails) == Outcome(s, 0, false)
  {
    match w
    case Done =>
    case Inline(off, inner, rest) =>
      NothingToWalk(op, inner, p.Plus(off), s, fails);
      NothingToWalk(op, rest, p, s, fails);
  }

  /** The two walks that use the bump allocator. */
  predicate IsStatic(op: Operation) {
    op.CreatePreallocated? || op.CalculateSizePreallocated?
  }

  /** Between `s` and the outcome the regions `rs` were handed out, the index
      moved to `end`, and the outcome reports by how much; sizing touches no
      memory. */
  ghost predicate Reserves(op: Operation, s: State, out: Outcome, end: nat, rs: seq<Region>) {
    && !out.aborted
    && out.s.index == end
    && out.used == end - s.index
    && out.s.handed == s.handed + rs
    && out.s.buffer == s.buffer && out.s.requests == s.requests
    && (IsSizing(op) ==> out.s == s.(index := end, handed := s.handed + rs))
  }

  lemma ReserveMore(op: Operation, s: State, a: Outcome, b: Outcome, out: Outcome,
                    mid: nat, end: nat, rs: seq<Region>, ts: seq<Region>)
    requires Reserves(op, s, a, mid, rs) && Reserves(op, a.s, b, end, ts)
    requires out == Outcome(b.s, a.used + b.used, false)
    ensures Reserves(op, s, out, end, rs + ts)
  {
    assert s.handed + rs + ts == s.handed + (rs + ts);
  }

  /** Both static walks hand out the regions of the layout, in the same order,
      and report final index minus initial index. */
  lemma {:induction false} StaticWalk(op: Operation, w: Plan, p: Ptr, s: State, fails: nat -> bool)
    requires IsStatic(op) && (op.CreatePreallocated? ==> s.buffer != NULL)
    ensures Reserves(op, s, Run(op, w, p, s, fails), End(w, s.index), Regions(w, s.index))
    decreases w, 0, 0
  {
    match w
    case Done =>
    case Slot(off, capacity, unit, count, inner, rest) =>
      var v := VisitSlot(op, p.Plus(off), capacity, unit, count, inner, s, fails);
      var next := Align(s.index) + capacity * unit;
      var mid := EndOfElements(inner, count, next);
      StaticSlot(op, p.Plus(off), capacity, unit, count, inner, s, fails);
      StaticWalk(op, rest, p, v.s, fails);
      ReserveMore(op, s, v, Run(op, rest, p, v.s, fails), Run(op, w, p, s, fails), mid, End(rest, mid),
                  [Region(Align(s.index), capacity * unit)] + RegionsOfElements(inner, count, next),
                  Regions(rest, mid));
    case Inline(off, inner, rest) =>
      var n := Run(op, inner, p.Plus(off), s, fails);
      var mid := End(inner, s.index);
      StaticWalk(op, inner, p.Plus(off), s, fails);
      StaticWalk(op, rest, p, n.s, fails);
      ReserveMore(op, s, n, Run(op, rest, p, n.s, fails), Run(op, w, p, s, fails), mid, End(rest, mid),
                  Regions(inner, s.index), Regions(rest, mid));
  }

  lemma {:induction false} StaticSlot(op: Operation, at: Ptr, capacity: nat, unit: nat, count: nat, inner: Plan,
                                      s: State, fails: nat -> bool)
    requires IsStatic(op) && (op.CreatePreallocated? ==> s.buffer != NULL)
    ensures var next := Align(s.index) + capacity * unit;
            Reserves(op, s, VisitSlot(op, at, capacity, unit, count, inner, s, fails),
                     EndOfElements(inner, count, next),
                     [Region(Align(s.index), capacity * unit)] + RegionsOfElements(inner, count, next))
    decreases inner, 2, 0
  {
    var next := Align(s.index) + capacity * unit;
    var a := Acquire(op, at, capacity, unit, s, fails);
    StaticAcquire(op, at, capacity, unit, s, fails);
    StaticElements(op, inner, at, unit, count, a.s, fails);
    ReserveMore(op, s, a, Elements(op, inner, at, unit, count, a.s, fails),
                VisitSlot(op, at, capacity, unit, count, inner, s, fails), next, EndOfElements(inner, count, next),
                [Region(Align(s.index), capacity * unit)], RegionsOfElements(inner, count, next));
  }

  lemma StaticAcquire(op: Operation, at: Ptr, capacity: nat, unit: nat, s: State, fails: nat -> bool)
    requires IsStatic(op) && (op.CreatePreallocated? ==> s.buffer != NULL)
    ensures Reserves(op, s, Acquire(op, at, capacity, unit, s, fails),
                     Align(s.index) + capacity * unit, [Region(Align(s.index), capacity * unit)])
  {
    if op.CreatePreallocated? {
      assert s.buffer.Plus(Align(s.index)) != NULL;
    }
  }

  lemma {:induction false} StaticElements(op: Operation, inner: Plan, at: Ptr, unit: nat, k: nat,
                                          s: State, fails: nat -> bool)
    requires IsStatic(op) && (op.CreatePreallocated? ==> s.buffer != NULL)
    ensures Reserves(op, s, Elements(op, inner, at, unit, k, s, fails),
                     EndOfElements(inner, k, s.index), RegionsOfElements(inner, k, s.index))
    decreases inner, 1, k
  {
    if k > 0 {
      StaticElements(op, inner, at, unit, k - 1, s, fails);
      var e := Elements(op, inner, at, unit, k - 1, s, fails);
      var s1 := if IsSizing(op) then e.s else LoadPtr(e.s, at).0;
      var data := if IsSizing(op) then NULL else LoadPtr(e.s, at).1.Plus((k - 1) * unit);
      StaticWalk(op, inner, data, s1, fails);
      var mid := EndOfElements(inner, k - 1, s.index);
      ReserveMore(op, s, e.(s := s1), Run(op, inner, data, s1, fails), Elements(op, inner, at, unit, k, s, fails),
                  mid, End(inner, mid), RegionsOfElements(inner, k - 1, s.index), Regions(inner, mid));
    }
  }

  /** With no buffer a real static walk gives up at its first request and counts
      nothing; the index stays within what the whole walk would use. */
  lemma {:induction false} NoBufferWalk(w: Plan, p: Ptr, s: State, fails: nat -> bool)
    requires s.buffer == NULL
    ensures var out := Run(CreatePreallocated, w, p, s, fails);
            out.used == 0 && out.s.buffer == NULL && out.s.index <= End(w, s.index)
    decreases w
  {
    match w
    case Done =>
    case Slot(off, capacity, unit, count, inner, rest) =>
      var next := Align(s.index) + capacity * unit;
      ElementsGrow(inner, count, next);
      EndGrows(rest, EndOfElements(inner, count, next));
    case Inline(off, inner, rest) =>
      var n := Run(CreatePreallocated, inner, p.Plus(off), s, fails);
      NoBufferWalk(inner, p.Plus(off), s, fails);
      NoBufferWalk(rest, p, n.s, fails);
      EnlargesItself(rest);
      EndMonotone(rest, rest, n.s.index, End(inner, s.index));
  }

  // -------------------------------------------------------- failing requests

  /** No request numbered `lo..hi` fails. */
  ghost predicate NoneFail(fails: nat -> bool, lo: nat, hi: nat) {
    forall r | lo <= r < hi :: !fails(r)
  }

  /** Every nested message that makes requests asks for some bytes. */
  ghost predicate NestedCharged(w: Plan)
    decreases w, 0
  {
    match w
    case Done => true
    case Slot(_, _, _, count, inner, rest) => (0 < count ==> Charged(inner)) && NestedCharged(rest)
    case Inline(_, inner, rest) => Charged(inner) && NestedCharged(rest)
  }

  /** The message, if it makes requests, asks for some bytes; so does each message nested in it. */
  ghost predicate Charged(w: Plan)
    decreases w, 1
  {
    NestedCharged(w) && (0 < Requests(w) ==> 0 < Size(w))
  }

  /** What the create walk does with `asked` requests for `size` bytes in all.
      It makes no more requests and counts no more bytes; all of both when no
      request failed.  When one did, a walk that nevertheless ran to its end
      counts less, provided nested messages are charged for their requests. */
  ghost predicate Detects(out: Outcome, size: nat, asked: nat, from: nat, fails: nat -> bool, charged: bool) {
    var to := out.s.requests;
    && from <= to <= from + asked
    && (0 < asked ==> from < to)
    && out.used <= size
    && (out.aborted ==> out.used == 0 && !NoneFail(fails, from, to))
    && (NoneFail(fails, from, to) ==> out.used == size && to == from + asked)
    && (charged && !out.aborted && !NoneFail(fails, from, to) ==> out.used < size)
  }

  lemma DetectMore(a: Outcome, b: Outcome, out: Outcome, sizeA: nat, sizeB: nat, askedA: nat, askedB: nat,
                   from: nat, fails: nat -> bool, chargedA: bool, chargedB: bool)
    requires Detects(a, sizeA, askedA, from, fails, chargedA) && !a.aborted
    requires Detects(b, sizeB, askedB, a.s.requests, fails, chargedB)
    requires out == Then(a.used, b)
    ensures Detects(out, sizeA + sizeB, askedA + askedB, from, fails, chargedA && chargedB)
  {
    var mid, to := a.s.requests, out.s.requests;
    assert NoneFail(fails, from, to) <==> NoneFail(fails, from, mid) && NoneFail(fails, mid, to);
  }

  lemma {:induction false} CreateDetects(w: Plan, p: Ptr, s: State, fails: nat -> bool)
    ensures Detects(Run(Create, w, p, s, fails), Size(w), Requests(w), s.requests, fails, NestedCharged(w))
    decreases w, 0, 0
  {
    match w
    case Done =>
    case Slot(off, capacity, unit, count, inner, rest) =>
      var v := VisitSlot(Create, p.Plus(off), capacity, unit, count, inner, s, fails);
      SlotDetects(p.Plus(off), capacity, unit, count, inner, s, fails);
      if !v.aborted {
        CreateDetects(rest, p, v.s, fails);
        DetectMore(v, Run(Create, rest, p, v.s, fails), Run(Create, w, p, s, fails),
                   capacity * unit + Times(count, Size(inner)), Size(rest),
                   1 + Times(count, Requests(inner)), Requests(rest),
                   s.requests, fails, 0 < count ==> Charged(inner), NestedCharged(rest));
      }
    case Inline(off, inner, rest) =>
      var n := Run(Create, inner, p.Plus(off), s, fails);
      FrameDetects(inner, p.Plus(off), s, fails);
      CreateDetects(rest, p, n.s, fails);
      DetectMore(n.(aborted := false), Run(Create, rest, p, n.s, fails), Run(Create, w, p, s, fails),
                 Size(inner), Size(rest), Requests(inner), Requests(rest),
                 s.requests, fails, Charged(inner), NestedCharged(rest));
  }

  /** Seen from the message around it: a nested message whose walk gave up counts nothing. */
  lemma {:induction false} FrameDetects(w: Plan, p: Ptr, s: State, fails: nat -> bool)
    ensures var out := Run(Create, w, p, s, fails);
            Detects(out.(aborted := false), Size(w), Requests(w), s.requests, fails, Charged(w))
    decreases w, 0, 1
  {
    CreateDetects(w, p, s, fails);
  }

  lemma AcquireDetects(at: Ptr, capacity: nat, unit: nat, s: State, fails: nat -> bool)
    ensures var a := Acquire(Create, at, capacity, unit, s, fails);
            && a.aborted == fails(s.requests)
            && Detects(a, capacity * unit, 1, s.requests, fails, true)
  {
    assert NoneFail(fails, s.requests, s.requests + 1) <==> !fails(s.requests);
  }

  lemma {:induction false} SlotDetects(at: Ptr, capacity: nat, unit: nat, count: nat, inner: Plan,
                                       s: State, fails: nat -> bool)
    ensures Detects(VisitSlot(Create, at, capacity, unit, count, inner, s, fails),
                    capacity * unit + Times(count, Size(inner)), 1 + Times(count, Requests(inner)),
                    s.requests, fails, 0 < count ==> Charged(inner))
    decreases inner, 2, 0
  {
    var a := Acquire(Create, at, capacity, unit, s, fails);
    AcquireDetects(at, capacity, unit, s, fails);
    if !a.aborted {
      ElementsDetect(inner, at, unit, count, a.s, fails);
      DetectMore(a, Elements(Create, inner, at, unit, count, a.s, fails),
                 VisitSlot(Create, at, capacity, unit, count, inner, s, fails),
                 capacity * unit, Times(count, Size(inner)), 1, Times(count, Requests(inner)),
                 s.requests, fails, true, 0 < count ==> Charged(inner));
    }
  }

  lemma {:induction false} ElementsDetect(inner: Plan, at: Ptr, unit: nat, k: nat, s: State, fails: nat -> bool)
    ensures Detects(Elements(Create, inner, at, unit, k, s, fails), Times(k, Size(inner)), Times(k, Requests(inner)),
                    s.requests, fails, 0 < k ==> Charged(inner))
    ensures !Elements(Create, inner, at, unit, k, s, fails).aborted
    decreases inner, 1, k
  {
    if k > 0 {
      ElementsDetect(inner, at, unit, k - 1, s, fails);
      var e := Elements(Create, inner, at, unit, k - 1, s, fails);
      var (s1, q) := LoadPtr(e.s, at);
      var n := Run(Create, inner, q.Plus((k - 1) * unit), s1, fails);
      FrameDetects(inner, q.Plus((k - 1) * unit), s1, fails);
      DetectMore(e, n.(aborted := false), Elements(Create, inner, at, unit, k, s, fails),
                 Times(k - 1, Size(inner)), Size(inner), Times(k - 1, Requests(inner)), Requests(inner),
                 s.requests, fails, 0 < k - 1 ==> Charged(inner), Charged(inner));
    }
  }

  /** When every request is for at least one byte, every message is charged. */
  lemma {:induction false} PositiveIsCharged(w: Plan)
    requires Positive(w)
    ensures Charged(w)
  {
    match w
    case Done =>
    case Slot(_, capacity, unit, count, inner, rest) =>
      PositiveIsCharged(inner);
      PositiveIsCharged(rest);
    case Inline(_, inner, rest) =>
      PositiveIsCharged(inner);
      PositiveIsCharged(rest);
  }

  /** Charged plans are those of accountable types. */
  lemma {:induction false} ChargedType(mm: MessageMembers, conf: Conf, path: string)
    requires ValidIds(mm)
    ensures Charged(PlanFrom(mm, 0, Configured(conf), path)) <==> Accountable(mm, conf, path)
    decreases mm, |mm.members| + 1
  {
    NestedChargedType(mm, 0, conf, path);
    PlainExact(mm, Configured(conf), path);
    PlanCosts(mm, 0, conf, path);
  }

  lemma {:induction false} NestedChargedType(mm: MessageMembers, i: nat, conf: Conf, path: string)
    requires i <= |mm.members| && ValidIds(mm)
    ensures NestedCharged(PlanFrom(mm, i, Configured(conf), path)) <==> NestedAccountable(mm, i, conf, path)
    decreases mm, |mm.members| - i
  {
    if i < |mm.members| {
      var m := mm.members[i];
      NestedChargedType(mm, i + 1, conf, path);
      UnitsAreCapacity(conf, m, path);
      if m.kind.Message? {
        ChargedType(m.kind.members, conf, path + m.name + ".");
      }
    }
  }

  // ----------------------------- a failure that the comparison cannot see

  /** Requests made before the first one of a nested message that is not charged. */
  ghost function Before(w: Plan): nat
    decreases w, 0
  {
    match w
    case Done => 0
    case Slot(_, _, _, count, inner, rest) =>
      if 0 < count && !Charged(inner) then 1 + BeforeIn(inner)
      else 1 + Times(count, Requests(inner)) + Before(rest)
    case Inline(_, inner, rest) =>
      if !Charged(inner) then BeforeIn(inner) else Requests(inner) + Before(rest)
  }

  ghost function BeforeIn(w: Plan): nat
    decreases w, 1
  {
    if NestedCharged(w) then 0 else Before(w)
  }

  ghost predicate OnlyFails(fails: nat -> bool, n: nat) {
    forall r :: fails(r) <==> r == n
  }

  /** Only request `n` failed, and the walk reports the full size all the same. */
  ghost predicate Misses(out: Outcome, size: nat, n: nat) {
    out.used == size && n < out.s.requests
  }

  lemma {:induction false} CreateMisses(w: Plan, p: Ptr, s: State, fails: nat -> bool)
    requires !NestedCharged(w) && OnlyFails(fails, s.requests + Before(w))
    ensures Misses(Run(Create, w, p, s, fails), Size(w), s.requests + Before(w))
    ensures !Run(Create, w, p, s, fails).aborted
    decreases w, 0, 0
  {
    match w
    case Slot(off, capacity, unit, count, inner, rest) =>
      var v := VisitSlot(Create, p.Plus(off), capacity, unit, count, inner, s, fails);
      SlotDetects(p.Plus(off), capacity, unit, count, inner, s, fails);
      if 0 < count && !Charged(inner) {
        var a := Acquire(Create, p.Plus(off), capacity, unit, s, fails);
        AcquireDetects(p.Plus(off), capacity, unit, s, fails);
        ElementsMiss(inner, p.Plus(off), unit, count, a.s, fails);
        CreateDetects(rest, p, v.s, fails);
      } else {
        CreateMisses(rest, p, v.s, fails);
      }
    case Inline(off, inner, rest) =>
      var n := Run(Create, inner, p.Plus(off), s, fails);
      if !Charged(inner) {
        FrameMisses(inner, p.Plus(off), s, fails);
        CreateDetects(rest, p, n.s, fails);
      } else {
        CreateDetects(inner, p.Plus(off), s, fails);
        CreateMisses(rest, p, n.s, fails);
      }
  }

  lemma {:induction false} FrameMisses(w: Plan, p: Ptr, s: State, fails: nat -> bool)
    requires !Charged(w) && OnlyFails(fails, s.requests + BeforeIn(w))
    ensures Misses(Run(Create, w, p, s, fails), Size(w), s.requests + BeforeIn(w))
    decreases w, 0, 1
  {
    if NestedCharged(w) {
      CreateDetects(w, p, s, fails);
    } else {
      CreateMisses(w, p, s, fails);
    }
  }

  lemma {:induction false} ElementsMiss(inner: Plan, at: Ptr, unit: nat, k: nat, s: State, fails: nat -> bool)
    requires 0 < k && !Charged(inner) && OnlyFails(fails, s.requests + BeforeIn(inner))
    ensures Misses(Elements(Create, inner, at, unit, k, s, fails), Times(k, Size(inner)), s.requests + BeforeIn(inner))
    decreases inner, 1, k
  {
    var e := Elements(Create, inner, at, unit, k - 1, s, fails);
    var (s1, q) := LoadPtr(e.s, at);
    if k == 1 {
      FrameMisses(inner, q.Plus(0), s1, fails);
    } else {
      ElementsMiss(inner, at, unit, k - 1, s, fails);
      CreateDetects(inner, q.Plus((k - 1) * unit), s1, fails);
    }
  }

  /** The counted bytes equal the size of the plan exactly when no request failed. */
  ghost predicate Honest(w: Plan, p: Ptr, s: State, fails: nat -> bool) {
    var out := Run(Create, w, p, s, fails);
    out.used == Size(w) <==> NoneFail(fails, s.requests, out.s.requests)
  }

  /** The comparison is honest for every allocator exactly when every message of
      the plan that makes requests asks for some bytes. */
  lemma FailureDetectionExact(w: Plan, p: Ptr, s: State)
    ensures (forall fails: nat -> bool :: Honest(w, p, s, fails)) <==> Charged(w)
  {
    if Charged(w) {
      forall fails: nat -> bool ensures Honest(w, p, s, fails) {
        FrameDetects(w, p, s, fails);
      }
    } else {
      var n := s.requests + BeforeIn(w);
      var fails: nat -> bool := r => r == n;
      FrameMisses(w, p, s, fails);
      assert fails(n) && !Honest(w, p, s, fails);
    }
  }
}
