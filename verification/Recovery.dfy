/** What destroy does after a create on the heap in which requests may have
    failed: the destroy walk counts elements by the configured capacity, so a
    data pointer left NULL sends it into memory that is not there. */
module Recovery {
  import opened Arithmetic
  import opened Wrappers
  import opened Introspection
  import opened MemoryRules
  import opened Plans
  import opened Costs
  import opened Layout
  import opened Store
  import opened Semantics
  import opened Sizes
  import opened Ownership
  import opened Creation
  import opened Destruction

  // ------------------------------------------- what a failed create leaves

  ghost predicate NoBlocks(m: Memory, lo: nat, hi: nat) {
    forall n: nat | lo <= n < hi :: HeapBlock(n) !in m
  }

  /** Memory `m` holds, for the message at `p`, what a create walk left that made
      requests `lo..hi`: every data pointer of `w` is NULL or its own block, and
      no block numbered `lo..hi` is without its pointer. */
  ghost predicate Left(m: Memory, w: Plan, p: Ptr, lo: nat, hi: nat)
    decreases w, 0, 0
  {
    match w
    case Done => lo <= hi && NoBlocks(m, lo, hi)
    case Slot(off, _, unit, count, inner, rest) =>
      exists mid: nat ::
        lo <= mid <= hi && SlotLeft(m, p.Plus(off), unit, count, inner, lo, mid) && Left(m, rest, p, mid, hi)
    case Inline(off, inner, rest) =>
      exists mid: nat :: lo <= mid <= hi && Left(m, inner, p.Plus(off), lo, mid) && Left(m, rest, p, mid, hi)
  }

  ghost predicate SlotLeft(m: Memory, at: Ptr, unit: nat, count: nat, inner: Plan, lo: nat, mid: nat)
    decreases inner, 2, 0
  {
    && InBounds(m, at, HEADER)
    && ((Points(m, at, NULL) && mid == lo)
        || (lo < mid && Points(m, at, Ptr(HeapBlock(lo), 0)) && HeapBlock(lo) in m
            && ElementsLeft(m, inner, Ptr(HeapBlock(lo), 0), unit, count, lo + 1, mid)))
  }

  ghost predicate ElementsLeft(m: Memory, inner: Plan, q: Ptr, unit: nat, k: nat, lo: nat, hi: nat)
    decreases inner, 1, k
  {
    if k == 0 then lo <= hi && NoBlocks(m, lo, hi)
    else
      exists mid: nat ::
        lo <= mid <= hi && ElementsLeft(m, inner, q, unit, k - 1, lo, mid) && LastLeft(m, inner, q, unit, k, mid, hi)
  }

  ghost predicate LastLeft(m: Memory, inner: Plan, q: Ptr, unit: nat, k: nat, mid: nat, hi: nat)
    requires 0 < k
    decreases inner, 1, 0
  {
    Left(m, inner, q.Plus((k - 1) * unit), mid, hi)
  }

  /** No sequence whose elements have headers has its data pointer NULL. */
  ghost predicate Shallow(m: Memory, w: Plan, p: Ptr)
    decreases w, 0, 0
  {
    match w
    case Done => true
    case Slot(off, _, unit, count, inner, rest) =>
      SlotShallow(m, p.Plus(off), unit, count, inner) && Shallow(m, rest, p)
    case Inline(off, inner, rest) => Shallow(m, inner, p.Plus(off)) && Shallow(m, rest, p)
  }

  ghost predicate SlotShallow(m: Memory, at: Ptr, unit: nat, count: nat, inner: Plan)
    decreases inner, 2, 0
  {
    match ReadPtr(m, at)
    case None => true
    case Some(q) =>
      if q == NULL then count == 0 || Requests(inner) == 0 else ElementsShallow(m, inner, q, unit, count)
  }

  ghost predicate ElementsShallow(m: Memory, inner: Plan, q: Ptr, unit: nat, k: nat)
    decreases inner, 1, k
  {
    0 < k ==> ElementsShallow(m, inner, q, unit, k - 1) && Shallow(m, inner, q.Plus((k - 1) * unit))
  }

  // --------------------------------------------------------------- stability

  /** Bytes `foot` of `b` and blocks `lo..hi` stay as they are, and no block so numbered appears. */
  ghost predicate Settled(m: Memory, m': Memory, b: Block, foot: iset<int>, lo: nat, hi: nat) {
    && Stable(m, m', OnHeap, b, foot, lo, hi)
    && forall d | d in m' && OwnsPartOf(OnHeap, d, lo, hi) :: d in m
  }

  lemma SettledLess(m: Memory, m': Memory, b: Block, foot: iset<int>, lo: nat, hi: nat,
                    d: Block, less: iset<int>, lo': nat, hi': nat)
    requires Settled(m, m', b, foot, lo, hi) && lo <= lo' && hi' <= hi
    requires (d == b && less <= foot) || OwnsPartOf(OnHeap, d, lo, hi)
    ensures Settled(m, m', d, less, lo', hi')
  {
    StableLess(m, m', OnHeap, b, foot, lo, hi, d, less, lo', hi');
  }

  lemma PointsStable(m: Memory, m': Memory, at: Ptr, q: Ptr, lo: nat, hi: nat)
    requires Points(m, at, q) && InBounds(m, at, HEADER) && Stable(m, m', OnHeap, at.block, Span(at, HEADER), lo, hi)
    ensures Points(m', at, q) && InBounds(m', at, HEADER)
  {
    forall o | at.off <= o < at.off + HEADER ensures m'[at.block][o] == m[at.block][o] {
      assert InSpan(at, HEADER, o) && o in Span(at, HEADER);
      assert Kept(m, m', at.block, o);
    }
  }

  /** What was left stays while its headers and blocks are left alone. */
  lemma {:induction false} LeftStable(m: Memory, m': Memory, w: Plan, p: Ptr, lo: nat, hi: nat)
    requires Separate(w) && Left(m, w, p, lo, hi) && Settled(m, m', p.block, Foot(w, p), lo, hi)
    ensures Left(m', w, p, lo, hi) && (Shallow(m', w, p) <==> Shallow(m, w, p))
    decreases w, 0, 0
  {
    match w
    case Done =>
    case Slot(off, capacity, unit, count, inner, rest) =>
      var at := p.Plus(off);
      var mid: nat :| lo <= mid <= hi && SlotLeft(m, at, unit, count, inner, lo, mid) && Left(m, rest, p, mid, hi);
      SlotFeet(w, p);
      SettledLess(m, m', p.block, Foot(w, p), lo, hi, p.block, Span(at, HEADER), lo, mid);
      SettledLess(m, m', p.block, Foot(w, p), lo, hi, p.block, Foot(rest, p), mid, hi);
      SlotLeftStable(m, m', at, capacity, unit, count, inner, lo, mid);
      LeftStable(m, m', rest, p, mid, hi);
    case Inline(off, inner, rest) =>
      var at := p.Plus(off);
      var mid: nat :| lo <= mid <= hi && Left(m, inner, at, lo, mid) && Left(m, rest, p, mid, hi);
      InlineFeet(w, p);
      SettledLess(m, m', p.block, Foot(w, p), lo, hi, p.block, Foot(inner, at), lo, mid);
      SettledLess(m, m', p.block, Foot(w, p), lo, hi, p.block, Foot(rest, p), mid, hi);
      LeftStable(m, m', inner, at, lo, mid);
      LeftStable(m, m', rest, p, mid, hi);
  }

  lemma {:induction false} SlotLeftStable(m: Memory, m': Memory, at: Ptr, capacity: nat, unit: nat, count: nat,
                                          inner: Plan, lo: nat, mid: nat)
    requires Within(inner, unit) && Separate(inner) && SlotLeft(m, at, unit, count, inner, lo, mid)
    requires Settled(m, m', at.block, Span(at, HEADER), lo, mid)
    ensures SlotLeft(m', at, unit, count, inner, lo, mid)
    ensures SlotShallow(m', at, unit, count, inner) <==> SlotShallow(m, at, unit, count, inner)
    decreases inner, 2, 0
  {
    var q := Ptr(HeapBlock(lo), 0);
    if mid == lo {
      PointsStable(m, m', at, NULL, lo, mid);
    } else {
      PointsStable(m, m', at, q, lo, mid);
      SettledLess(m, m', at.block, Span(at, HEADER), lo, mid,
                  q.block, FootOfElements(inner, q, unit, count), lo + 1, mid);
      ElementsLeftStable(m, m', inner, q, unit, count, lo + 1, mid);
    }
  }

  lemma {:induction false} ElementsLeftStable(m: Memory, m': Memory, inner: Plan, q: Ptr, unit: nat, k: nat,
                                              lo: nat, hi: nat)
    requires Within(inner, unit) && Separate(inner) && ElementsLeft(m, inner, q, unit, k, lo, hi)
    requires Settled(m, m', q.block, FootOfElements(inner, q, unit, k), lo, hi)
    ensures ElementsLeft(m', inner, q, unit, k, lo, hi)
    ensures ElementsShallow(m', inner, q, unit, k) <==> ElementsShallow(m, inner, q, unit, k)
    decreases inner, 1, k
  {
    if 0 < k {
      var last, feet := q.Plus((k - 1) * unit), FootOfElements(inner, q, unit, k);
      var mid: nat :|
        lo <= mid <= hi && ElementsLeft(m, inner, q, unit, k - 1, lo, mid) && LastLeft(m, inner, q, unit, k, mid, hi);
      ElementFeet(inner, q, unit, k);
      SettledLess(m, m', q.block, feet, lo, hi, q.block, FootOfElements(inner, q, unit, k - 1), lo, mid);
      SettledLess(m, m', q.block, feet, lo, hi, q.block, Foot(inner, last), mid, hi);
      ElementsLeftStable(m, m', inner, q, unit, k - 1, lo, mid);
      LeftStable(m, m', inner, last, mid, hi);
      assert LastLeft(m', inner, q, unit, k, mid, hi);
    }
  }

  // ------------------------------------------------------------ create leaves

  /** The headers to come are zero bytes. */
  ghost predicate Blank(m: Memory, b: Block, foot: iset<int>) {
    forall o | o in foot :: b in m && 0 <= o < |m[b]| && m[b][o] == Byte(0)
  }

  lemma BlankLess(m: Memory, b: Block, foot: iset<int>, less: iset<int>)
    requires Blank(m, b, foot) && less <= foot
    ensures Blank(m, b, less)
  {
  }

  /** Zero bytes apart from a step stay zero. */
  lemma StaysBlank(s: State, t: State, b: Block, foot: iset<int>, end: nat, hi: nat, d: Block, other: iset<int>)
    requires Effect(OnHeap, s, t, b, foot, end) && Ready(OnHeap, s, hi) && Blank(s.mem, d, other)
    requires d == b ==> foot !! other
    ensures Blank(t.mem, d, other)
  {
    forall o | o in other ensures d in t.mem && o < |t.mem[d]| && t.mem[d][o] == Byte(0) {
      assert Kept(s.mem, t.mem, d, o);
    }
  }

  /** What a step leaves alone is settled. */
  lemma EffectSettles(s: State, t: State, b: Block, foot: iset<int>, end: nat, hi: nat,
                      d: Block, other: iset<int>, lo: nat, mid: nat)
    requires Effect(OnHeap, s, t, b, foot, end) && Ready(OnHeap, s, hi) && mid <= s.requests
    requires Placed(OnHeap, s, d, other) && !OwnsPartOf(OnHeap, b, lo, mid)
    requires d == b ==> foot !! other
    ensures Settled(s.mem, t.mem, d, other, lo, mid)
  {
    EffectKeeps(OnHeap, s, t, b, foot, end, hi, d, other, lo, mid);
  }

  /** A message whose walk never came to it is left with nothing. */
  lemma {:induction false} BlankIsLeft(m: Memory, w: Plan, p: Ptr, lo: nat, hi: nat)
    requires Separate(w) && Blank(m, p.block, Foot(w, p)) && lo <= hi && NoBlocks(m, lo, hi)
    ensures Left(m, w, p, lo, hi)
    decreases w
  {
    match w
    case Done =>
    case Slot(off, _, unit, count, inner, rest) =>
      var at := p.Plus(off);
      SlotFeet(w, p);
      BlankHeader(m, at, p, Foot(w, p));
      BlankIsLeft(m, rest, p, lo, hi);
      assert SlotLeft(m, at, unit, count, inner, lo, lo);
    case Inline(off, inner, rest) =>
      InlineFeet(w, p);
      BlankIsLeft(m, inner, p.Plus(off), lo, lo);
      BlankIsLeft(m, rest, p, lo, hi);
  }

  lemma BlankHeader(m: Memory, at: Ptr, p: Ptr, foot: iset<int>)
    requires Blank(m, p.block, foot) && at.block == p.block && Span(at, HEADER) <= foot
    ensures InBounds(m, at, HEADER) && Points(m, at, NULL)
  {
    forall o | at.off <= o < at.off + HEADER ensures at.block in m && o < |m[at.block]| && m[at.block][o] == Byte(0) {
      assert InSpan(at, HEADER, o) && o in Span(at, HEADER);
    }
    assert InSpan(at, HEADER, at.off + HEADER - 1) && at.off + HEADER - 1 in Span(at, HEADER);
  }

  /** Whatever the allocator does, the create walk on a cleared message leaves it so. */
  lemma {:induction false} WalkLeaves(w: Plan, p: Ptr, s: State, fails: nat -> bool)
    requires Separate(w) && Ready(OnHeap, s, s.requests)
    requires Placed(OnHeap, s, p.block, Foot(w, p)) && Blank(s.mem, p.block, Foot(w, p))
    ensures var t := Run(Create, w, p, s, fails).s;
            s.requests <= t.requests && Left(t.mem, w, p, s.requests, t.requests)
    decreases w, 1, 0
  {
    match w
    case Done =>
    case Slot(_, _, _, _, _, _) =>
      if fails(s.requests) {
        RefusedSlotLeaves(w, p, s, fails);
      } else {
        ServedSlotLeaves(w, p, s, fails);
      }
    case Inline(_, _, _) =>
      InlineLeaves(w, p, s, fails);
  }

  /** The request of a slot failed: its pointer is NULL, and the rest is as before. */
  lemma RefusedSlotLeaves(w: Plan, p: Ptr, s: State, fails: nat -> bool)
    requires w.Slot? && Separate(w) && Ready(OnHeap, s, s.requests) && fails(s.requests)
    requires Placed(OnHeap, s, p.block, Foot(w, p)) && Blank(s.mem, p.block, Foot(w, p))
    ensures var t := Run(Create, w, p, s, fails).s;
            t.requests == s.requests + 1 && Left(t.mem, w, p, s.requests, t.requests)
  {
    var at, lo := p.Plus(w.off), s.requests;
    SlotFeet(w, p);
    HeaderPlaced(OnHeap, s, w, p);
    HeapRefused(at, w.capacity, w.unit, s, fails);
    StoreWordHolds(s.(requests := lo + 1), at, Address(NULL));
    var t := Acquire(Create, at, w.capacity, w.unit, s, fails).s;
    assert t.mem.Keys == s.mem.Keys;
    BlankLess(s.mem, p.block, Foot(w, p), Foot(w.rest, p));
    StaysBlank(s, t, p.block, Span(at, HEADER), lo + 1, lo, p.block, Foot(w.rest, p));
    BlankIsLeft(t.mem, w.rest, p, lo, lo + 1);
    assert SlotLeft(t.mem, at, w.unit, w.count, w.inner, lo, lo);
  }

  lemma {:induction false} SlotLeaves(at: Ptr, capacity: nat, unit: nat, count: nat, inner: Plan,
                                      s: State, fails: nat -> bool)
    requires count <= capacity && Within(inner, unit) && Separate(inner)
    requires Ready(OnHeap, s, s.requests) && !fails(s.requests)
    requires InBounds(s.mem, at, HEADER) && Placed(OnHeap, s, at.block, Span(at, HEADER))
    ensures var v := VisitSlot(Create, at, capacity, unit, count, inner, s, fails);
            !v.aborted && s.requests < v.s.requests
            && SlotLeft(v.s.mem, at, unit, count, inner, s.requests, v.s.requests)
    decreases inner, 2, 0
  {
    var a := Acquire(Create, at, capacity, unit, s, fails);
    HeapAcquire(at, capacity, unit, inner, s, fails);
    SlotPrepared(at, capacity, unit, count, inner, s, a.s);
    ElementsServed(at, capacity, unit, count, inner, s, a.s, fails);
    SlotServed(at, capacity, unit, count, inner, s, a.s, Elements(Create, inner, at, unit, count, a.s, fails), fails);
  }

  /** The elements of a slot just acquired may be walked: their data is there, zero, and pointed to. */
  ghost predicate Prepared(s: State, at: Ptr, q: Ptr, n: nat) {
    && Ready(OnHeap, s, s.requests) && PointsTo(OnHeap, s, at, q)
    && q.block.HeapBlock? && q.block.request < s.requests
    && Placed(OnHeap, s, q.block, Span(q, n)) && Blank(s.mem, q.block, Span(q, n))
  }

  lemma SlotPrepared(at: Ptr, capacity: nat, unit: nat, count: nat, inner: Plan, s: State, t: State)
    requires count <= capacity && Ready(OnHeap, s, s.requests) && Placed(OnHeap, s, at.block, Span(at, HEADER))
    requires Acquired(OnHeap, s, t, at, capacity, unit, inner, s.requests + 1)
    ensures Prepared(t, at, Ptr(HeapBlock(s.requests), 0), count * unit)
  {
    ElementsReady(OnHeap, at, capacity, unit, count, inner, s, t, s.requests, capacity * unit, count * unit);
    RegionIsBlank(t.mem, Ptr(HeapBlock(s.requests), 0), capacity * unit, inner, unit, count, capacity);
  }

  lemma {:induction false} ElementsServed(at: Ptr, capacity: nat, unit: nat, count: nat, inner: Plan,
                                          s: State, t: State, fails: nat -> bool)
    requires count <= capacity && Within(inner, unit) && Separate(inner)
    requires Prepared(t, at, Ptr(HeapBlock(s.requests), 0), count * unit)
    ensures var q := Ptr(HeapBlock(s.requests), 0);
            var e := Elements(Create, inner, at, unit, count, t, fails);
            && ElementsResult(OnHeap, t, e, fails, inner, q, unit, count)
            && t.requests <= e.s.requests && ElementsLeft(e.s.mem, inner, q, unit, count, t.requests, e.s.requests)
    decreases inner, 1, count + 1
  {
    var q := Ptr(HeapBlock(s.requests), 0);
    ElementsLeave(inner, at, q, unit, count, t, fails);
    ElementsCreated(OnHeap, inner, at, q, unit, count, t, fails, AfterElements(OnHeap, inner, count, t.requests));
  }

  /** A slot whose request was served, after the walks of its elements. */
  lemma SlotServed(at: Ptr, capacity: nat, unit: nat, count: nat, inner: Plan, s: State, t: State, e: Outcome,
                   fails: nat -> bool)
    requires Ready(OnHeap, s, s.requests) && Ready(OnHeap, t, t.requests)
    requires Acquired(OnHeap, s, t, at, capacity, unit, inner, s.requests + 1)
    requires InBounds(s.mem, at, HEADER) && Placed(OnHeap, s, at.block, Span(at, HEADER))
    requires var q := Ptr(HeapBlock(s.requests), 0);
             && ElementsResult(OnHeap, t, e, fails, inner, q, unit, count)
             && t.requests <= e.s.requests && ElementsLeft(e.s.mem, inner, q, unit, count, t.requests, e.s.requests)
    ensures SlotLeft(e.s.mem, at, unit, count, inner, s.requests, e.s.requests)
  {
    var lo, q, end := s.requests, Ptr(HeapBlock(s.requests), 0), AfterElements(OnHeap, inner, count, s.requests + 1);
    StaysPlaced(OnHeap, s, t, at.block, Span(at, HEADER), lo + 1, at.block, Span(at, HEADER));
    EffectSettles(t, e.s, q.block, FootOfElements(inner, q, unit, count), end, end, at.block, Span(at, HEADER), lo, lo);
    PointsStable(t.mem, e.s.mem, at, q, lo, lo);
  }

  /** The data of a slot just acquired. */
  lemma RegionIsBlank(m: Memory, q: Ptr, size: nat, inner: Plan, unit: nat, count: nat, capacity: nat)
    requires RegionAt(m, OnHeap, q, size, inner, unit, 0, true) && count <= capacity && size == capacity * unit
    ensures Blank(m, q.block, Span(q, count * unit))
  {
    MulMonotone(count, capacity, unit);
    forall o | o in Span(q, count * unit) ensures q.block in m && 0 <= o < |m[q.block]| && m[q.block][o] == Byte(0) {
      assert InSpan(q, count * unit, o);
    }
  }

  lemma {:induction false} ElementsLeave(inner: Plan, at: Ptr, q: Ptr, unit: nat, k: nat, s: State, fails: nat -> bool)
    requires Within(inner, unit) && Separate(inner) && Ready(OnHeap, s, s.requests)
    requires PointsTo(OnHeap, s, at, q) && q.block.HeapBlock? && q.block.request < s.requests
    requires Placed(OnHeap, s, q.block, Span(q, k * unit)) && Blank(s.mem, q.block, Span(q, k * unit))
    ensures var t := Elements(Create, inner, at, unit, k, s, fails).s;
            s.requests <= t.requests && ElementsLeft(t.mem, inner, q, unit, k, s.requests, t.requests)
    decreases inner, 1, k
  {
    if k == 0 {
      assert NoBlocks(s.mem, s.requests, s.requests);
    } else {
      var data, feet := q.Plus((k - 1) * unit), FootOfElements(inner, q, unit, k - 1);
      var mid := AfterElements(OnHeap, inner, k - 1, s.requests);
      ElementFeet(inner, q, unit, k);
      PlacedLess(OnHeap, s, q.block, Span(q, k * unit), Span(q, (k - 1) * unit));
      BlankLess(s.mem, q.block, Span(q, k * unit), Span(q, (k - 1) * unit));
      BlankLess(s.mem, q.block, Span(q, k * unit), Foot(inner, data));
      ElementsLeave(inner, at, q, unit, k - 1, s, fails);
      ElementsCreated(OnHeap, inner, at, q, unit, k - 1, s, fails, mid);
      var e := Elements(Create, inner, at, unit, k - 1, s, fails);
      PointerKept(OnHeap, inner, at, q, unit, k, s, e.s, mid, mid);
      StaysBlank(s, e.s, q.block, feet, mid, mid, q.block, Foot(inner, data));
      PlacedLess(OnHeap, e.s, q.block, Span(q, k * unit), Foot(inner, data));
      PlacedLess(OnHeap, e.s, q.block, Span(q, k * unit), feet);
      WalkLeaves(inner, data, e.s, fails);
      LastLeaves(inner, q, unit, k, e.s, s.requests, fails);
    }
  }

  /** The walk of one more element leaves the earlier ones as they were. */
  lemma LastLeaves(inner: Plan, q: Ptr, unit: nat, k: nat, s: State, lo: nat, fails: nat -> bool)
    requires 0 < k && Within(inner, unit) && Separate(inner) && Ready(OnHeap, s, s.requests)
    requires q.block.HeapBlock? && q.block.request < lo <= s.requests
    requires Placed(OnHeap, s, q.block, FootOfElements(inner, q, unit, k - 1))
    requires Placed(OnHeap, s, q.block, Foot(inner, q.Plus((k - 1) * unit)))
    requires ElementsLeft(s.mem, inner, q, unit, k - 1, lo, s.requests)
    requires var t := Run(Create, inner, q.Plus((k - 1) * unit), s, fails).s;
             s.requests <= t.requests && Left(t.mem, inner, q.Plus((k - 1) * unit), s.requests, t.requests)
    ensures var t := Run(Create, inner, q.Plus((k - 1) * unit), s, fails).s;
            ElementsLeft(t.mem, inner, q, unit, k, lo, t.requests)
  {
    var data, feet := q.Plus((k - 1) * unit), FootOfElements(inner, q, unit, k - 1);
    var end := After(OnHeap, inner, s.requests);
    var t := Run(Create, inner, data, s, fails).s;
    ElementFeet(inner, q, unit, k);
    WalkCreated(OnHeap, inner, data, s, fails, end);
    EffectSettles(s, t, q.block, Foot(inner, data), end, end, q.block, feet, lo, s.requests);
    ElementsLeftStable(s.mem, t.mem, inner, q, unit, k - 1, lo, s.requests);
    assert LastLeft(t.mem, inner, q, unit, k, s.requests, t.requests);
  }

  lemma {:induction false} ServedSlotLeaves(w: Plan, p: Ptr, s: State, fails: nat -> bool)
    requires w.Slot? && Separate(w) && Ready(OnHeap, s, s.requests) && !fails(s.requests)
    requires Placed(OnHeap, s, p.block, Foot(w, p)) && Blank(s.mem, p.block, Foot(w, p))
    ensures var t := Run(Create, w, p, s, fails).s;
            s.requests <= t.requests && Left(t.mem, w, p, s.requests, t.requests)
    decreases w, 0
  {
    var at, mid := p.Plus(w.off), AfterElements(OnHeap, w.inner, w.count, s.requests + 1);
    SlotFeet(w, p);
    HeaderPlaced(OnHeap, s, w, p);
    BlankLess(s.mem, p.block, Foot(w, p), Foot(w.rest, p));
    SlotCreated(OnHeap, at, w.capacity, w.unit, w.count, w.inner, s, fails, mid);
    SlotLeaves(at, w.capacity, w.unit, w.count, w.inner, s, fails);
    RestLeaves(w, p, s, VisitSlot(Create, at, w.capacity, w.unit, w.count, w.inner, s, fails).s, mid, fails);
  }

  /** After a slot that was served, the rest of its message. */
  lemma {:induction false} RestLeaves(w: Plan, p: Ptr, s: State, t: State, mid: nat, fails: nat -> bool)
    requires w.Slot? && Separate(w) && Ready(OnHeap, s, s.requests)
    requires Placed(OnHeap, s, p.block, Foot(w, p)) && Blank(s.mem, p.block, Foot(w.rest, p))
    requires Effect(OnHeap, s, t, p.block, Span(p.Plus(w.off), HEADER), mid) && s.requests < t.requests
    requires SlotLeft(t.mem, p.Plus(w.off), w.unit, w.count, w.inner, s.requests, t.requests)
    ensures var r := Run(Create, w.rest, p, t, fails).s;
            s.requests <= r.requests && Left(r.mem, w, p, s.requests, r.requests)
    decreases w.rest, 1, 1
  {
    var end := After(OnHeap, w.rest, t.requests);
    RestReady(w, p, s, t, mid);
    WalkLeaves(w.rest, p, t, fails);
    WalkCreated(OnHeap, w.rest, p, t, fails, end);
    SlotLeftStays(w, p, t, Run(Create, w.rest, p, t, fails).s, s.requests, end);
  }

  /** After a slot, the rest of its message is as it was before. */
  lemma RestReady(w: Plan, p: Ptr, s: State, t: State, mid: nat)
    requires w.Slot? && Separate(w) && Ready(OnHeap, s, s.requests)
    requires Placed(OnHeap, s, p.block, Foot(w, p)) && Blank(s.mem, p.block, Foot(w.rest, p))
    requires Effect(OnHeap, s, t, p.block, Span(p.Plus(w.off), HEADER), mid)
    ensures Ready(OnHeap, t, t.requests) && Blank(t.mem, p.block, Foot(w.rest, p))
    ensures Placed(OnHeap, t, p.block, Foot(w.rest, p)) && Placed(OnHeap, t, p.block, Span(p.Plus(w.off), HEADER))
    ensures p.block.HeapBlock? ==> p.block.request < s.requests
  {
    var at := p.Plus(w.off);
    SlotFeet(w, p);
    HeaderPlaced(OnHeap, s, w, p);
    StaysReady(OnHeap, s, t, p.block, Span(at, HEADER), mid, mid);
    StaysPlaced(OnHeap, s, t, p.block, Span(at, HEADER), mid, p.block, Foot(w, p));
    PlacedLess(OnHeap, t, p.block, Foot(w, p), Foot(w.rest, p));
    PlacedLess(OnHeap, t, p.block, Foot(w, p), Span(at, HEADER));
    StaysBlank(s, t, p.block, Span(at, HEADER), mid, mid, p.block, Foot(w.rest, p));
  }

  /** A slot stays as left while the rest of its message is walked. */
  lemma SlotLeftStays(w: Plan, p: Ptr, s: State, r: State, lo: nat, end: nat)
    requires w.Slot? && Separate(w) && Ready(OnHeap, s, s.requests) && lo <= s.requests <= r.requests
    requires Placed(OnHeap, s, p.block, Span(p.Plus(w.off), HEADER)) && (p.block.HeapBlock? ==> p.block.request < lo)
    requires SlotLeft(s.mem, p.Plus(w.off), w.unit, w.count, w.inner, lo, s.requests)
    requires Effect(OnHeap, s, r, p.block, Foot(w.rest, p), end) && Left(r.mem, w.rest, p, s.requests, r.requests)
    ensures Left(r.mem, w, p, lo, r.requests)
  {
    var at := p.Plus(w.off);
    SlotFeet(w, p);
    EffectSettles(s, r, p.block, Foot(w.rest, p), end, end, p.block, Span(at, HEADER), lo, s.requests);
    SlotLeftStable(s.mem, r.mem, at, w.capacity, w.unit, w.count, w.inner, lo, s.requests);
  }

  lemma {:induction false} InlineLeaves(w: Plan, p: Ptr, s: State, fails: nat -> bool)
    requires w.Inline? && Separate(w) && Ready(OnHeap, s, s.requests)
    requires Placed(OnHeap, s, p.block, Foot(w, p)) && Blank(s.mem, p.block, Foot(w, p))
    ensures var t := Run(Create, w, p, s, fails).s;
            s.requests <= t.requests && Left(t.mem, w, p, s.requests, t.requests)
    decreases w, 0
  {
    var at, lo := p.Plus(w.off), s.requests;
    InlineFeet(w, p);
    PlacedLess(OnHeap, s, p.block, Foot(w, p), Foot(w.inner, at));
    BlankLess(s.mem, p.block, Foot(w, p), Foot(w.inner, at));
    BlankLess(s.mem, p.block, Foot(w, p), Foot(w.rest, p));
    WalkLeaves(w.inner, at, s, fails);
    var n, mid := Run(Create, w.inner, at, s, fails).s, After(OnHeap, w.inner, lo);
    WalkCreated(OnHeap, w.inner, at, s, fails, mid);
    StaysReady(OnHeap, s, n, p.block, Foot(w.inner, at), mid, mid);
    StaysPlaced(OnHeap, s, n, p.block, Foot(w.inner, at), mid, p.block, Foot(w, p));
    PlacedLess(OnHeap, n, p.block, Foot(w, p), Foot(w.inner, at));
    PlacedLess(OnHeap, n, p.block, Foot(w, p), Foot(w.rest, p));
    StaysBlank(s, n, p.block, Foot(w.inner, at), mid, mid, p.block, Foot(w.rest, p));
    WalkLeaves(w.rest, p, n, fails);
    var end, r := After(OnHeap, w.rest, n.requests), Run(Create, w.rest, p, n, fails).s;
    WalkCreated(OnHeap, w.rest, p, n, fails, end);
    InnerStays(w, p, s, n, r, end);
  }

  lemma InnerStays(w: Plan, p: Ptr, s: State, n: State, r: State, end: nat)
    requires w.Inline? && Separate(w) && Ready(OnHeap, s, s.requests) && Ready(OnHeap, n, n.requests)
    requires Placed(OnHeap, s, p.block, Foot(w, p)) && Placed(OnHeap, n, p.block, Foot(w.inner, p.Plus(w.off)))
    requires Left(n.mem, w.inner, p.Plus(w.off), s.requests, n.requests) && s.requests <= n.requests <= r.requests
    requires Effect(OnHeap, n, r, p.block, Foot(w.rest, p), end) && Left(r.mem, w.rest, p, n.requests, r.requests)
    ensures Left(r.mem, w, p, s.requests, r.requests)
  {
    var at := p.Plus(w.off);
    InlineFeet(w, p);
    if exists o :: o in Foot(w, p) {
      EffectSettles(n, r, p.block, Foot(w.rest, p), end, end, p.block, Foot(w.inner, at), s.requests, n.requests);
    } else {
      assert Foot(w.rest, p) == iset{} && Foot(w.inner, at) == iset{};
    }
    LeftStable(n.mem, r.mem, w.inner, at, s.requests, n.requests);
  }

  // ----------------------------------------------------------- destroying it

  /** A destroy walk takes no fault back and adds no block. */
  lemma {:induction false} DestroyOnlyDrops(w: Plan, p: Ptr, s: State, fails: nat -> bool)
    ensures var t := Run(Destroy, w, p, s, fails).s; (s.fault ==> t.fault) && t.mem.Keys <= s.mem.Keys
    decreases w, 0, 0
  {
    match w
    case Done =>
    case Slot(off, capacity, unit, count, inner, rest) =>
      var v := VisitSlot(Destroy, p.Plus(off), capacity, unit, count, inner, s, fails);
      ElementsOnlyDrop(inner, p.Plus(off), unit, count, s, fails);
      ReleaseOnlyDrops(p.Plus(off), Elements(Destroy, inner, p.Plus(off), unit, count, s, fails).s);
      DestroyOnlyDrops(rest, p, v.s, fails);
    case Inline(off, inner, rest) =>
      DestroyOnlyDrops(inner, p.Plus(off), s, fails);
      DestroyOnlyDrops(rest, p, Run(Destroy, inner, p.Plus(off), s, fails).s, fails);
  }

  lemma {:induction false} ElementsOnlyDrop(inner: Plan, at: Ptr, unit: nat, k: nat, s: State, fails: nat -> bool)
    ensures var t := Elements(Destroy, inner, at, unit, k, s, fails).s;
            (s.fault ==> t.fault) && t.mem.Keys <= s.mem.Keys
    decreases inner, 1, k
  {
    if k > 0 {
      ElementsOnlyDrop(inner, at, unit, k - 1, s, fails);
      var (s1, q) := LoadPtr(Elements(Destroy, inner, at, unit, k - 1, s, fails).s, at);
      DestroyOnlyDrops(inner, q.Plus((k - 1) * unit), s1, fails);
    }
  }

  lemma ReleaseOnlyDrops(at: Ptr, s: State)
    ensures var t := Release(Destroy, at, s); (s.fault ==> t.fault) && t.mem.Keys <= s.mem.Keys
  {
    var (s1, q) := LoadPtr(s, at);
    var s2 := Deallocate(s1, q);
    StoreOnly(s2, at.Plus(WORD), Parts(Number(0)));
    StoreOnly(StoreWord(s2, at.Plus(WORD), Number(0)), at.Plus(2 * WORD), Parts(Number(0)));
  }

  lemma StoreOnly(s: State, p: Ptr, cells: seq<Cell>)
    ensures var t := StoreCells(s, p, cells); (s.fault ==> t.fault) && t.mem.Keys == s.mem.Keys
  {
  }

  /** A walk over a message at NULL is a stray access, if it visits a header at all. */
  lemma {:induction false} DestroyAtNull(w: Plan, p: Ptr, s: State, fails: nat -> bool)
    requires p.block == NoBlock && NoBlock !in s.mem && 0 < Requests(w)
    ensures Run(Destroy, w, p, s, fails).s.fault
  {
    match w
    case Slot(off, capacity, unit, count, inner, rest) =>
      var at := p.Plus(off);
      var e := Elements(Destroy, inner, at, unit, count, s, fails).s;
      ElementsOnlyDrop(inner, at, unit, count, s, fails);
      var (s1, q) := LoadPtr(e, at);
      assert s1.fault;
      ReleaseFaults(at, e);
      DestroyOnlyDrops(rest, p, VisitSlot(Destroy, at, capacity, unit, count, inner, s, fails).s, fails);
    case Inline(off, inner, rest) =>
      var n := Run(Destroy, inner, p.Plus(off), s, fails).s;
      DestroyOnlyDrops(inner, p.Plus(off), s, fails);
      if 0 < Requests(inner) {
        DestroyAtNull(inner, p.Plus(off), s, fails);
        DestroyOnlyDrops(rest, p, n, fails);
      } else {
        DestroyAtNull(rest, p, n, fails);
      }
  }

  lemma ReleaseFaults(at: Ptr, s: State)
    requires at.block !in s.mem
    ensures Release(Destroy, at, s).fault
  {
    var (s1, q) := LoadPtr(s, at);
    assert Deallocate(s1, q).fault;
  }

  /** The elements of a sequence whose data pointer is NULL. */
  lemma {:induction false} ElementsAtNull(inner: Plan, at: Ptr, unit: nat, k: nat, s: State, fails: nat -> bool)
    requires Points(s.mem, at, NULL) && NoBlock !in s.mem
    ensures var t := Elements(Destroy, inner, at, unit, k, s, fails).s;
            if k == 0 || Requests(inner) == 0 then t == s else t.fault
    decreases k
  {
    if k > 0 {
      var e := Elements(Destroy, inner, at, unit, k - 1, s, fails).s;
      ElementsAtNull(inner, at, unit, k - 1, s, fails);
      var (s1, q) := LoadPtr(e, at);
      if Requests(inner) == 0 {
        NothingToWalk(Destroy, inner, NULL.Plus((k - 1) * unit), s, fails);
      } else if k == 1 {
        DestroyAtNull(inner, NULL.Plus(0), s, fails);
      } else {
        DestroyOnlyDrops(inner, q.Plus((k - 1) * unit), s1, fails);
      }
    }
  }

  /** The outcome of destroying what requests `lo..hi` left: a stray access, or exactly their blocks gone. */
  ghost predicate Cleans(s: State, t: State, b: Block, foot: iset<int>, lo: nat, hi: nat, shallow: bool) {
    if shallow then t.fault == s.fault && Drops(s.mem, t.mem, b, foot, lo, hi) else t.fault
  }

  /** Releasing a slot whose pointer is NULL changes its header only. */
  lemma ReleaseNull(at: Ptr, s: State, lo: nat)
    requires InBounds(s.mem, at, HEADER) && Points(s.mem, at, NULL)
    ensures Cleans(s, Release(Destroy, at, s), at.block, Span(at, HEADER), lo, lo, true)
  {
    var t := FinishHeader(s, at, 0);
    var p1, p2 := at.Plus(WORD), at.Plus(2 * WORD);
    var s1 := StoreWord(s, p1, Number(0));
    forall d, o: int | d in t.mem && !(d == at.block && o in Span(at, HEADER)) ensures Kept(s.mem, t.mem, d, o) {
      assert d == at.block ==> !InSpan(at, HEADER, o);
    }
  }

  lemma {:induction false} SlotCleaned(at: Ptr, capacity: nat, unit: nat, count: nat, inner: Plan, s: State,
                                       lo: nat, mid: nat, fails: nat -> bool)
    requires Within(inner, unit) && Separate(inner) && SlotLeft(s.mem, at, unit, count, inner, lo, mid)
    requires NoBlock !in s.mem && (at.block.HeapBlock? ==> at.block.request < lo)
    ensures Cleans(s, VisitSlot(Destroy, at, capacity, unit, count, inner, s, fails).s, at.block, Span(at, HEADER),
                   lo, mid, SlotShallow(s.mem, at, unit, count, inner))
    decreases inner, 2, 0
  {
    var e := Elements(Destroy, inner, at, unit, count, s, fails).s;
    if mid == lo {
      ElementsAtNull(inner, at, unit, count, s, fails);
      if e == s { ReleaseNull(at, s, lo); }
      if e.fault { ReleaseOnlyDrops(at, e); }
    } else {
      var q := Ptr(HeapBlock(lo), 0);
      ElementsCleaned(inner, at, q, unit, count, s, lo + 1, mid, fails);
      if ElementsShallow(s.mem, inner, q, unit, count) {
        ServedSlotCleaned(at, s, e, lo, FootOfElements(inner, q, unit, count), mid);
      } else {
        ReleaseOnlyDrops(at, e);
      }
    }
  }

  lemma ServedSlotCleaned(at: Ptr, s: State, t: State, c: nat, feet: iset<int>, mid: nat)
    requires Cleans(s, t, HeapBlock(c), feet, c + 1, mid, true)
    requires InBounds(s.mem, at, HEADER) && Points(s.mem, at, Ptr(HeapBlock(c), 0)) && HeapBlock(c) in s.mem
    requires at.block.HeapBlock? ==> at.block.request < c
    ensures Cleans(s, Release(Destroy, at, t), at.block, Span(at, HEADER), c, mid, true)
  {
    DropsKeeps(s.mem, t.mem, HeapBlock(c), feet, c + 1, mid, at.block, Span(at, HEADER), c, c);
    PointsStable(s.mem, t.mem, at, Ptr(HeapBlock(c), 0), c, c);
    ReleaseSlot(at, t, c);
    DropsInside(s.mem, t.mem, Release(Destroy, at, t).mem, c, feet, mid, at.block, Span(at, HEADER));
  }

  /** What was left by later requests stays when earlier ones are cleaned up. */
  lemma LeftStays(rest: Plan, p: Ptr, s: State, t: State, foot: iset<int>, lo: nat, mid: nat, hi: nat)
    requires Cleans(s, t, p.block, foot, lo, mid, true) && foot !! Foot(rest, p)
    requires p.block.HeapBlock? ==> p.block.request < lo
    requires Separate(rest) && Left(s.mem, rest, p, mid, hi)
    ensures Left(t.mem, rest, p, mid, hi) && (Shallow(t.mem, rest, p) <==> Shallow(s.mem, rest, p))
  {
    DropsKeeps(s.mem, t.mem, p.block, foot, lo, mid, p.block, Foot(rest, p), mid, hi);
    LeftStable(s.mem, t.mem, rest, p, mid, hi);
  }

  lemma {:induction false} ElementsCleaned(inner: Plan, at: Ptr, q: Ptr, unit: nat, k: nat, s: State,
                                           lo: nat, hi: nat, fails: nat -> bool)
    requires Within(inner, unit) && Separate(inner) && ElementsLeft(s.mem, inner, q, unit, k, lo, hi)
    requires Points(s.mem, at, q) && InBounds(s.mem, at, HEADER) && NoBlock !in s.mem
    requires at.block.HeapBlock? ==> at.block.request < lo
    requires at.block != q.block && q.block.HeapBlock? && q.block.request < lo
    ensures Cleans(s, Elements(Destroy, inner, at, unit, k, s, fails).s, q.block, FootOfElements(inner, q, unit, k),
                   lo, hi, ElementsShallow(s.mem, inner, q, unit, k))
    decreases inner, 1, k
  {
    if 0 < k {
      var data, feet := q.Plus((k - 1) * unit), FootOfElements(inner, q, unit, k - 1);
      var mid: nat :|
        && lo <= mid <= hi && ElementsLeft(s.mem, inner, q, unit, k - 1, lo, mid)
        && LastLeft(s.mem, inner, q, unit, k, mid, hi);
      var e := Elements(Destroy, inner, at, unit, k - 1, s, fails).s;
      ElementsCleaned(inner, at, q, unit, k - 1, s, lo, mid, fails);
      if ElementsShallow(s.mem, inner, q, unit, k - 1) {
        DropsKeeps(s.mem, e.mem, q.block, feet, lo, mid, at.block, Span(at, HEADER), lo, lo);
        PointsStable(s.mem, e.mem, at, q, lo, lo);
        ElementFeet(inner, q, unit, k);
        LeftStays(inner, data, s, e, feet, lo, mid, hi);
        WalkCleaned(inner, data, e, mid, hi, fails);
        CleansTwice(s, e, Run(Destroy, inner, data, e, fails).s, q.block, feet, Foot(inner, data),
                    FootOfElements(inner, q, unit, k), lo, mid, hi, Shallow(e.mem, inner, data));
      } else {
        var (s1, r) := LoadPtr(e, at);
        DestroyOnlyDrops(inner, r.Plus((k - 1) * unit), s1, fails);
      }
    }
  }

  lemma CleansTwice(s: State, t: State, u: State, b: Block, foot1: iset<int>, foot2: iset<int>, foot: iset<int>,
                    lo: nat, mid: nat, hi: nat, shallow: bool)
    requires Cleans(s, t, b, foot1, lo, mid, true) && Cleans(t, u, b, foot2, mid, hi, shallow)
    requires foot1 + foot2 <= foot
    ensures Cleans(s, u, b, foot, lo, hi, shallow)
  {
    if shallow { DropsTwice(s.mem, t.mem, u.mem, b, foot1, foot2, foot, lo, mid, hi); }
  }

  /** Main lemma: the destroy walk on what a create walk left, whichever of its
      requests failed.  It drops exactly the blocks there are, unless it meets a
      NULL data pointer of a sequence whose elements have headers. */
  lemma {:induction false} WalkCleaned(w: Plan, p: Ptr, s: State, lo: nat, hi: nat, fails: nat -> bool)
    requires Separate(w) && Left(s.mem, w, p, lo, hi) && NoBlock !in s.mem
    requires p.block.HeapBlock? ==> p.block.request < lo
    ensures Cleans(s, Run(Destroy, w, p, s, fails).s, p.block, Foot(w, p), lo, hi, Shallow(s.mem, w, p))
    decreases w, 0, 0
  {
    match w
    case Done =>
    case Slot(off, capacity, unit, count, inner, rest) =>
      var at := p.Plus(off);
      var mid: nat :|
        lo <= mid <= hi && SlotLeft(s.mem, at, unit, count, inner, lo, mid) && Left(s.mem, rest, p, mid, hi);
      var v := VisitSlot(Destroy, at, capacity, unit, count, inner, s, fails).s;
      SlotFeet(w, p);
      SlotCleaned(at, capacity, unit, count, inner, s, lo, mid, fails);
      if SlotShallow(s.mem, at, unit, count, inner) {
        LeftStays(rest, p, s, v, Span(at, HEADER), lo, mid, hi);
        WalkCleaned(rest, p, v, mid, hi, fails);
        CleansTwice(s, v, Run(Destroy, rest, p, v, fails).s, p.block, Span(at, HEADER), Foot(rest, p), Foot(w, p),
                    lo, mid, hi, Shallow(v.mem, rest, p));
      } else {
        DestroyOnlyDrops(rest, p, v, fails);
      }
    case Inline(off, inner, rest) =>
      var at := p.Plus(off);
      var mid: nat :| lo <= mid <= hi && Left(s.mem, inner, at, lo, mid) && Left(s.mem, rest, p, mid, hi);
      var n := Run(Destroy, inner, at, s, fails).s;
      InlineFeet(w, p);
      WalkCleaned(inner, at, s, lo, mid, fails);
      if Shallow(s.mem, inner, at) {
        LeftStays(rest, p, s, n, Foot(inner, at), lo, mid, hi);
        WalkCleaned(rest, p, n, mid, hi, fails);
        CleansTwice(s, n, Run(Destroy, rest, p, n, fails).s, p.block, Foot(inner, at), Foot(rest, p), Foot(w, p),
                    lo, mid, hi, Shallow(n.mem, rest, p));
      } else {
        DestroyOnlyDrops(rest, p, n, fails);
      }
  }

  // --------------------------------------------------------- the type's part

  /** No visited sequence has elements with headers. */
  ghost predicate Flat(w: Plan) {
    match w
    case Done => true
    case Slot(_, _, _, count, inner, rest) => (count == 0 || Requests(inner) == 0) && Flat(rest)
    case Inline(_, inner, rest) => Flat(inner) && Flat(rest)
  }

  /** Flat plans are those of flat types. */
  lemma {:induction false} FlatPlan(mm: MessageMembers, i: nat, conf: Conf, path: string)
    requires i <= |mm.members| && ValidIds(mm)
    ensures Flat(PlanFrom(mm, i, Configured(conf), path)) <==> FlatType(mm, i, conf, path)
    decreases mm, |mm.members| - i
  {
    if i < |mm.members| {
      var m := mm.members[i];
      FlatPlan(mm, i + 1, conf, path);
      UnitsAreCapacity(conf, m, path);
      if m.kind.Message? {
        FlatPlan(m.kind.members, 0, conf, path + m.name + ".");
        PlainExact(m.kind.members, Configured(conf), path + m.name + ".");
      }
    }
  }

  /** A flat plan leaves nothing to trip over, whatever is in memory. */
  lemma {:induction false} FlatIsShallow(m: Memory, w: Plan, p: Ptr)
    requires Flat(w)
    ensures Shallow(m, w, p)
    decreases w
  {
    match w
    case Done =>
    case Slot(off, _, unit, count, inner, rest) =>
      FlatIsShallow(m, rest, p);
      match ReadPtr(m, p.Plus(off)) {
        case None =>
        case Some(q) => HeaderlessElements(m, inner, q, unit, count);
      }
    case Inline(off, inner, rest) =>
      FlatIsShallow(m, inner, p.Plus(off));
      FlatIsShallow(m, rest, p);
  }

  lemma {:induction false} HeaderlessElements(m: Memory, inner: Plan, q: Ptr, unit: nat, k: nat)
    requires k == 0 || Requests(inner) == 0
    ensures ElementsShallow(m, inner, q, unit, k)
    decreases k
  {
    if 0 < k {
      HeaderlessElements(m, inner, q, unit, k - 1);
      Headerless(m, inner, q.Plus((k - 1) * unit));
    }
  }

  lemma {:induction false} Headerless(m: Memory, w: Plan, p: Ptr)
    requires Requests(w) == 0
    ensures Shallow(m, w, p)
  {
    match w
    case Done =>
    case Inline(off, inner, rest) =>
      Headerless(m, inner, p.Plus(off));
      Headerless(m, rest, p);
  }

  /** With every request refused the create walk adds no block. */
  lemma {:induction false} AllRefused(w: Plan, p: Ptr, s: State, fails: nat -> bool)
    requires forall r :: fails(r)
    ensures Run(Create, w, p, s, fails).s.mem.Keys == s.mem.Keys
  {
    match w
    case Done =>
    case Slot(off, capacity, unit, count, inner, rest) =>
      assert VisitSlot(Create, p.Plus(off), capacity, unit, count, inner, s, fails).aborted;
    case Inline(off, inner, rest) =>
      AllRefused(inner, p.Plus(off), s, fails);
      AllRefused(rest, p, Run(Create, inner, p.Plus(off), s, fails).s, fails);
  }

  /** Where no block was left every pointer is NULL, so a plan that is not flat trips. */
  lemma {:induction false} EmptyHanded(m: Memory, w: Plan, p: Ptr, lo: nat, hi: nat)
    requires Left(m, w, p, lo, hi) && NoBlocks(m, lo, hi)
    ensures Shallow(m, w, p) ==> Flat(w)
    decreases w
  {
    match w
    case Done =>
    case Slot(off, _, unit, count, inner, rest) =>
      var mid: nat :|
        lo <= mid <= hi && SlotLeft(m, p.Plus(off), unit, count, inner, lo, mid) && Left(m, rest, p, mid, hi);
      assert Points(m, p.Plus(off), NULL);
      assert ReadPtr(m, p.Plus(off)) == Some(NULL);
      if Shallow(m, w, p) {
        assert SlotShallow(m, p.Plus(off), unit, count, inner);
      }
      EmptyHanded(m, rest, p, mid, hi);
    case Inline(off, inner, rest) =>
      var mid: nat :| lo <= mid <= hi && Left(m, inner, p.Plus(off), lo, mid) && Left(m, rest, p, mid, hi);
      EmptyHanded(m, inner, p.Plus(off), lo, mid);
      EmptyHanded(m, rest, p, mid, hi);
  }
}
