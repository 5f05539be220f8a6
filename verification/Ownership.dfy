/** Which bytes a walk may touch, and what a created message looks like.
    Both create walks are described at once: a cursor (the number of the next
    heap request, or the buffer index) moves forward, and what is handed out
    while it moves from `lo` to `hi` is owned by that stretch of the walk. */
module Ownership {
  import opened Arithmetic
  import opened Introspection
  import opened Plans
  import opened Layout
  import opened Store
  import opened Semantics

  datatype Mode = OnHeap | InBuffer

  function CreateOp(mode: Mode): Operation {
    if mode.OnHeap? then Create else CreatePreallocated
  }

  function Cursor(mode: Mode, s: State): nat {
    if mode.OnHeap? then s.requests else s.index
  }

  /** The data pointer that a request made at cursor `c` yields. */
  function DataAt(mode: Mode, c: nat): Ptr {
    if mode.OnHeap? then Ptr(HeapBlock(c), 0) else Ptr(UserBuffer, Align(c))
  }

  function Next(mode: Mode, c: nat, size: nat): nat {
    if mode.OnHeap? then c + 1 else Align(c) + size
  }

  ghost function After(mode: Mode, w: Plan, c: nat): nat {
    if mode.OnHeap? then c + Requests(w) else End(w, c)
  }

  ghost function AfterElements(mode: Mode, inner: Plan, k: nat, c: nat): nat {
    if k == 0 then c else After(mode, inner, AfterElements(mode, inner, k - 1, c))
  }

  lemma {:induction false} AfterElementsClosed(mode: Mode, inner: Plan, k: nat, c: nat)
    ensures AfterElements(mode, inner, k, c) ==
            if mode.OnHeap? then c + Times(k, Requests(inner)) else EndOfElements(inner, k, c)
  {
    if k > 0 {
      AfterElementsClosed(mode, inner, k - 1, c);
    }
  }

  lemma AfterGrows(mode: Mode, w: Plan, c: nat)
    ensures c <= After(mode, w, c)
  {
    EndGrows(w, c);
  }

  lemma {:induction false} AfterElementsGrow(mode: Mode, inner: Plan, k: nat, c: nat)
    ensures c <= AfterElements(mode, inner, k, c)
  {
    if k > 0 {
      AfterElementsGrow(mode, inner, k - 1, c);
      AfterGrows(mode, inner, AfterElements(mode, inner, k - 1, c));
    }
  }

  /** Byte `o` of block `d` was handed out while the cursor moved from `lo` to `hi`. */
  ghost predicate Owned(mode: Mode, d: Block, o: int, lo: nat, hi: nat) {
    if mode.OnHeap? then d.HeapBlock? && lo <= d.request < hi else d == UserBuffer && lo <= o < hi
  }

  ghost predicate OwnsPartOf(mode: Mode, d: Block, lo: nat, hi: nat) {
    if mode.OnHeap? then d.HeapBlock? && lo <= d.request < hi else d == UserBuffer
  }

  /** Offsets of the headers of plan `w` for the message at `p`. */
  ghost function Foot(w: Plan, p: Ptr): iset<int> {
    iset o: int | InFoot(w, p, o)
  }

  ghost predicate InFoot(w: Plan, p: Ptr, o: int) {
    Covers(w, o - p.off)
  }

  ghost function Span(p: Ptr, n: nat): iset<int> {
    iset o: int | InSpan(p, n, o)
  }

  ghost predicate InSpan(p: Ptr, n: nat, o: int) {
    p.off <= o < p.off + n
  }

  /** Offset `o` of a sequence's data is covered by a header of elements `0..k`. */
  ghost predicate CoversElements(inner: Plan, unit: nat, k: nat, o: int) {
    0 < k && (Covers(inner, o - (k - 1) * unit) || CoversElements(inner, unit, k - 1, o))
  }

  ghost function FootOfElements(inner: Plan, q: Ptr, unit: nat, k: nat): iset<int> {
    iset o: int | InElements(inner, q, unit, k, o)
  }

  ghost predicate InElements(inner: Plan, q: Ptr, unit: nat, k: nat, o: int) {
    CoversElements(inner, unit, k, o - q.off)
  }

  lemma {:induction false} ElementsWithin(inner: Plan, unit: nat, k: nat, o: int)
    requires Within(inner, unit) && CoversElements(inner, unit, k, o)
    ensures 0 <= o < k * unit
  {
    Unfold(k, unit);
    if CoversElements(inner, unit, k - 1, o) {
      ElementsWithin(inner, unit, k - 1, o);
    }
  }

  /** Byte `o` of block `d`, if `m` has it, is still there in `m'`. */
  ghost predicate Kept(m: Memory, m': Memory, d: Block, o: int) {
    d in m && 0 <= o < |m[d]| ==> d in m' && o < |m'[d]| && m'[d][o] == m[d][o]
  }

  /** From `m` to `m'` no block disappears or changes size, new blocks are heap
      blocks numbered `lo..hi`, and only bytes `foot` of block `b` and bytes
      owned by `lo..hi` change. */
  ghost predicate Preserves(m: Memory, m': Memory, mode: Mode, b: Block, foot: iset<int>, lo: nat, hi: nat) {
    && lo <= hi
    && (forall d | d in m :: d in m' && |m'[d]| == |m[d]|)
    && (forall d | d in m' :: d in m || (mode.OnHeap? && d.HeapBlock? && lo <= d.request < hi))
    && (forall d, o: int | !(d == b && o in foot) && !Owned(mode, d, o, lo, hi) :: Kept(m, m', d, o))
  }

  /** From `m` to `m'` bytes `foot` of block `b` and bytes owned by `lo..hi` do
      not change, nor do the sizes of their blocks. */
  ghost predicate Stable(m: Memory, m': Memory, mode: Mode, b: Block, foot: iset<int>, lo: nat, hi: nat) {
    && (forall d | d in m && (d == b || OwnsPartOf(mode, d, lo, hi)) :: d in m' && |m'[d]| == |m[d]|)
    && (forall d, o: int | (d == b && o in foot) || Owned(mode, d, o, lo, hi) :: Kept(m, m', d, o))
  }

  lemma PreservesTwice(m: Memory, m1: Memory, m2: Memory, mode: Mode, b: Block,
                       foot1: iset<int>, lo1: nat, hi1: nat, foot2: iset<int>, lo2: nat, hi2: nat,
                       foot: iset<int>, lo: nat, hi: nat)
    requires Preserves(m, m1, mode, b, foot1, lo1, hi1) && Preserves(m1, m2, mode, b, foot2, lo2, hi2)
    requires foot1 + foot2 <= foot && lo <= lo1 && lo <= lo2 && hi1 <= hi && hi2 <= hi
    ensures Preserves(m, m2, mode, b, foot, lo, hi)
  {
    forall d, o: int | !(d == b && o in foot) && !Owned(mode, d, o, lo, hi) ensures Kept(m, m2, d, o) {
      assert o in foot1 + foot2 ==> o in foot;
      assert Kept(m, m1, d, o) && Kept(m1, m2, d, o);
    }
  }

  /** Changes inside what `lo..mid` owns are changes to what `lo..hi` owns. */
  lemma PreservesInside(m: Memory, m': Memory, mode: Mode, d: Block, inside: iset<int>, b: Block,
                        lo: nat, mid: nat, hi: nat)
    requires lo <= mid && Preserves(m, m', mode, d, inside, mid, hi)
    requires forall o | o in inside :: Owned(mode, d, o, lo, mid)
    ensures Preserves(m, m', mode, b, iset{}, lo, hi)
  {
    forall e, o: int | !Owned(mode, e, o, lo, hi) ensures Kept(m, m', e, o) {
      assert !(e == d && o in inside) && !Owned(mode, e, o, mid, hi);
    }
  }

  /** What is neither in `foot` nor handed out since stays. */
  lemma PreservesKeeps(m: Memory, m': Memory, mode: Mode, b: Block, foot: iset<int>, lo: nat, hi: nat,
                       d: Block, other: iset<int>, lo': nat, hi': nat)
    requires Preserves(m, m', mode, b, foot, lo, hi) && hi' <= lo
    requires d == b ==> foot !! other
    requires forall o | o in foot :: !Owned(mode, b, o, lo', hi')
    requires forall o | o in other :: !Owned(mode, d, o, lo, hi)
    ensures Stable(m, m', mode, d, other, lo', hi')
  {
    forall e, o: int | (e == d && o in other) || Owned(mode, e, o, lo', hi') ensures Kept(m, m', e, o) {
      assert !(e == b && o in foot) && !Owned(mode, e, o, lo, hi);
    }
  }

  /** The header at `at` points to `q`; a pristine one is empty with its capacity recorded. */
  ghost predicate HeaderAt(m: Memory, at: Ptr, q: Ptr, capacity: nat, pristine: bool) {
    && InBounds(m, at, HEADER)
    && Holds(m, at, Address(q))
    && (pristine ==> Holds(m, at.Plus(WORD), Number(0)) && Holds(m, at.Plus(2 * WORD), Number(capacity)))
  }

  /** The region at `q` is there; a pristine one is zero except for its elements' headers. */
  ghost predicate RegionAt(m: Memory, mode: Mode, q: Ptr, size: nat, inner: Plan, unit: nat, count: nat,
                           pristine: bool)
  {
    && InBounds(m, q, size)
    && (mode.OnHeap? ==> |m[q.block]| == size)
    && (pristine ==> forall o | q.off <= o < q.off + size && !CoversElements(inner, unit, count, o - q.off) ::
                    m[q.block][o] == Byte(0))
  }

  /** The slot with its header at `at` was served at cursor `c`, and its elements after it. */
  ghost predicate SlotBuilt(mode: Mode, pristine: bool, m: Memory, at: Ptr,
                            capacity: nat, unit: nat, count: nat, inner: Plan, c: nat)
    decreases inner, 2, 0
  {
    var q := DataAt(mode, c);
    && HeaderAt(m, at, q, capacity, pristine)
    && RegionAt(m, mode, q, capacity * unit, inner, unit, count, pristine)
    && ElementsBuilt(mode, pristine, m, inner, q, unit, count, Next(mode, c, capacity * unit))
  }

  ghost predicate ElementsBuilt(mode: Mode, pristine: bool, m: Memory, inner: Plan, q: Ptr, unit: nat, k: nat, c: nat)
    decreases inner, 1, k
  {
    0 < k ==>
      && ElementsBuilt(mode, pristine, m, inner, q, unit, k - 1, c)
      && Built(mode, pristine, m, inner, q.Plus((k - 1) * unit), AfterElements(mode, inner, k - 1, c))
  }

  /** Memory `m` holds, for the message at `p`, everything that the plan `w`
      asks for when its walk starts at cursor `c`: every header at every depth
      points to the region of its own request.  `pristine` adds that nobody has
      used the message since. */
  ghost predicate Built(mode: Mode, pristine: bool, m: Memory, w: Plan, p: Ptr, c: nat)
    decreases w, 0, 0
  {
    match w
    case Done => true
    case Slot(off, capacity, unit, count, inner, rest) =>
      && SlotBuilt(mode, pristine, m, p.Plus(off), capacity, unit, count, inner, c)
      && Built(mode, pristine, m, rest, p, AfterElements(mode, inner, count, Next(mode, c, capacity * unit)))
    case Inline(off, inner, rest) =>
      && Built(mode, pristine, m, inner, p.Plus(off), c)
      && Built(mode, pristine, m, rest, p, After(mode, inner, c))
  }

  lemma SlotAfter(mode: Mode, off: nat, capacity: nat, unit: nat, count: nat, inner: Plan, rest: Plan, c: nat)
    ensures var next := Next(mode, c, capacity * unit);
            var mid := AfterElements(mode, inner, count, next);
            var end := After(mode, Slot(off, capacity, unit, count, inner, rest), c);
            c <= next <= mid <= end && end == After(mode, rest, mid)
  {
    var next := Next(mode, c, capacity * unit);
    AfterElementsClosed(mode, inner, count, next);
    AfterElementsGrow(mode, inner, count, next);
    AfterGrows(mode, rest, AfterElements(mode, inner, count, next));
  }

  lemma StableLess(m: Memory, m': Memory, mode: Mode, b: Block, foot: iset<int>, lo: nat, hi: nat,
                   d: Block, less: iset<int>, lo': nat, hi': nat)
    requires Stable(m, m', mode, b, foot, lo, hi) && lo <= lo' && hi' <= hi
    requires || (d == b && less <= foot)
             || (OwnsPartOf(mode, d, lo, hi) && forall o | o in less :: Owned(mode, d, o, lo, hi))
    ensures Stable(m, m', mode, d, less, lo', hi')
  {
    forall e, o: int | (e == d && o in less) || Owned(mode, e, o, lo', hi') ensures Kept(m, m', e, o) {
      assert (e == b && o in foot) || Owned(mode, e, o, lo, hi);
    }
  }

  lemma HoldsStable(m: Memory, m': Memory, p: Ptr, w: Word)
    requires Holds(m, p, w) && p.block in m' && |m'[p.block]| == |m[p.block]|
    requires forall o | p.off <= o < p.off + WORD :: Kept(m, m', p.block, o)
    ensures Holds(m', p, w)
  {
    forall o | p.off <= o < p.off + WORD ensures m'[p.block][o] == Part(w, o - p.off) {
      assert Kept(m, m', p.block, o);
    }
  }

  lemma WordStable(m: Memory, m': Memory, mode: Mode, at: Ptr, w: Word, lo: nat, hi: nat)
    requires Holds(m, at, w) && Stable(m, m', mode, at.block, Span(at, WORD), lo, hi)
    ensures Holds(m', at, w)
  {
    assert forall o | at.off <= o < at.off + WORD :: o in Span(at, WORD) && Kept(m, m', at.block, o);
    HoldsStable(m, m', at, w);
  }

  lemma HeaderStable(m: Memory, m': Memory, mode: Mode, at: Ptr, q: Ptr, capacity: nat, pristine: bool,
                     lo: nat, hi: nat)
    requires HeaderAt(m, at, q, capacity, pristine) && Stable(m, m', mode, at.block, Span(at, HEADER), lo, hi)
    ensures HeaderAt(m', at, q, capacity, pristine)
  {
    assert forall o | at.off <= o < at.off + HEADER :: o in Span(at, HEADER) && Kept(m, m', at.block, o);
    HoldsStable(m, m', at, Address(q));
    if pristine {
      HoldsStable(m, m', at.Plus(WORD), Number(0));
      HoldsStable(m, m', at.Plus(2 * WORD), Number(capacity));
    }
  }

  lemma RegionStable(m: Memory, m': Memory, mode: Mode, size: nat, inner: Plan, unit: nat, count: nat, pristine: bool,
                     b: Block, foot: iset<int>, c: nat, hi: nat)
    requires RegionAt(m, mode, DataAt(mode, c), size, inner, unit, count, pristine)
    requires Stable(m, m', mode, b, foot, c, hi) && Next(mode, c, size) <= hi
    ensures RegionAt(m', mode, DataAt(mode, c), size, inner, unit, count, pristine)
  {
    var q := DataAt(mode, c);
    forall o | q.off <= o < q.off + size ensures m'[q.block][o] == m[q.block][o] {
      assert Owned(mode, q.block, o, c, hi);
      assert Kept(m, m', q.block, o);
    }
  }

  /** Elements lie in the region of their sequence. */
  lemma FootInRegion(mode: Mode, capacity: nat, unit: nat, count: nat, inner: Plan, c: nat)
    requires count <= capacity && Within(inner, unit)
    ensures var q := DataAt(mode, c);
            forall o | o in FootOfElements(inner, q, unit, count) ::
              q.off <= o < q.off + capacity * unit && Owned(mode, q.block, o, c, Next(mode, c, capacity * unit))
  {
    var q := DataAt(mode, c);
    forall o | o in FootOfElements(inner, q, unit, count)
      ensures q.off <= o < q.off + capacity * unit
    {
      ElementsWithin(inner, unit, count, o - q.off);
      MulMonotone(count, capacity, unit);
    }
  }

  /** What was built stays built while its headers and what it owns are left alone. */
  lemma {:induction false} BuiltStable(mode: Mode, pristine: bool, m: Memory, m': Memory, w: Plan, p: Ptr, c: nat)
    requires Separate(w) && Built(mode, pristine, m, w, p, c)
    requires Stable(m, m', mode, p.block, Foot(w, p), c, After(mode, w, c))
    ensures Built(mode, pristine, m', w, p, c)
    decreases w, 0, 0
  {
    match w
    case Done =>
    case Slot(off, capacity, unit, count, inner, rest) =>
      var mid := AfterElements(mode, inner, count, Next(mode, c, capacity * unit));
      var end := After(mode, w, c);
      SlotAfter(mode, off, capacity, unit, count, inner, rest, c);
      StableLess(m, m', mode, p.block, Foot(w, p), c, end, p.block, Span(p.Plus(off), HEADER), c, mid);
      SlotStable(mode, pristine, m, m', p.Plus(off), capacity, unit, count, inner, c);
      StableLess(m, m', mode, p.block, Foot(w, p), c, end, p.block, Foot(rest, p), mid, end);
      BuiltStable(mode, pristine, m, m', rest, p, mid);
    case Inline(off, inner, rest) =>
      var mid, end := After(mode, inner, c), After(mode, w, c);
      AfterGrows(mode, inner, c);
      AfterGrows(mode, rest, mid);
      StableLess(m, m', mode, p.block, Foot(w, p), c, end, p.block, Foot(inner, p.Plus(off)), c, mid);
      BuiltStable(mode, pristine, m, m', inner, p.Plus(off), c);
      StableLess(m, m', mode, p.block, Foot(w, p), c, end, p.block, Foot(rest, p), mid, end);
      BuiltStable(mode, pristine, m, m', rest, p, mid);
  }

  lemma {:induction false} SlotStable(mode: Mode, pristine: bool, m: Memory, m': Memory, at: Ptr,
                                      capacity: nat, unit: nat, count: nat, inner: Plan, c: nat)
    requires count <= capacity && Within(inner, unit) && Separate(inner)
    requires SlotBuilt(mode, pristine, m, at, capacity, unit, count, inner, c)
    requires Stable(m, m', mode, at.block, Span(at, HEADER), c,
                    AfterElements(mode, inner, count, Next(mode, c, capacity * unit)))
    ensures SlotBuilt(mode, pristine, m', at, capacity, unit, count, inner, c)
    decreases inner, 2, 0
  {
    var q, size := DataAt(mode, c), capacity * unit;
    var next := Next(mode, c, size);
    var mid := AfterElements(mode, inner, count, next);
    AfterElementsGrow(mode, inner, count, next);
    HeaderStable(m, m', mode, at, q, capacity, pristine, c, mid);
    RegionStable(m, m', mode, size, inner, unit, count, pristine, at.block, Span(at, HEADER), c, mid);
    FootInRegion(mode, capacity, unit, count, inner, c);
    StableLess(m, m', mode, at.block, Span(at, HEADER), c, mid, q.block, FootOfElements(inner, q, unit, count),
               next, mid);
    ElementsStable(mode, pristine, m, m', inner, q, unit, count, next);
  }

  lemma {:induction false} ElementsStable(mode: Mode, pristine: bool, m: Memory, m': Memory, inner: Plan, q: Ptr,
                                          unit: nat, k: nat, c: nat)
    requires Separate(inner) && ElementsBuilt(mode, pristine, m, inner, q, unit, k, c)
    requires Stable(m, m', mode, q.block, FootOfElements(inner, q, unit, k), c, AfterElements(mode, inner, k, c))
    ensures ElementsBuilt(mode, pristine, m', inner, q, unit, k, c)
    decreases inner, 1, k
  {
    if 0 < k {
      var mid, end := AfterElements(mode, inner, k - 1, c), AfterElements(mode, inner, k, c);
      AfterElementsGrow(mode, inner, k - 1, c);
      AfterGrows(mode, inner, mid);
      var foot, last := FootOfElements(inner, q, unit, k), q.Plus((k - 1) * unit);
      StableLess(m, m', mode, q.block, foot, c, end, q.block, FootOfElements(inner, q, unit, k - 1), c, mid);
      ElementsStable(mode, pristine, m, m', inner, q, unit, k - 1, c);
      assert Foot(inner, last) <= foot;
      StableLess(m, m', mode, q.block, foot, c, end, q.block, Foot(inner, last), mid, end);
      BuiltStable(mode, pristine, m, m', inner, last, mid);
    }
  }

  // ----------------------------------------------------------- footprints

  lemma SpanInside(p: Ptr, n: nat, q: Ptr, k: nat)
    requires q.off <= p.off && p.off + n <= q.off + k
    ensures Span(p, n) <= Span(q, k)
  {
    forall o | o in Span(p, n) ensures o in Span(q, k) {
      assert InSpan(p, n, o) && InSpan(q, k, o);
    }
  }

  /** The footprints of a sequence's elements lie one after the other. */
  lemma ElementFeet(inner: Plan, q: Ptr, unit: nat, k: nat)
    requires Within(inner, unit) && 0 < k
    ensures var data := q.Plus((k - 1) * unit);
            && Foot(inner, data) <= Span(q, k * unit)
            && FootOfElements(inner, q, unit, k - 1) <= Span(q, k * unit)
            && Span(q, (k - 1) * unit) <= Span(q, k * unit)
            && Foot(inner, data) !! FootOfElements(inner, q, unit, k - 1)
            && FootOfElements(inner, q, unit, k - 1) + Foot(inner, data) <= FootOfElements(inner, q, unit, k)
  {
    var data := q.Plus((k - 1) * unit);
    Unfold(k, unit);
    forall o | o in FootOfElements(inner, q, unit, k - 1)
      ensures InSpan(q, k * unit, o) && o < data.off && InElements(inner, q, unit, k, o)
    {
      assert InElements(inner, q, unit, k - 1, o);
      ElementsWithin(inner, unit, k - 1, o - q.off);
    }
    forall o | o in Foot(inner, data)
      ensures InSpan(q, k * unit, o) && data.off <= o && InElements(inner, q, unit, k, o)
    {
      assert InFoot(inner, data, o);
      assert Covers(inner, o - data.off);
    }
    SpanInside(q, (k - 1) * unit, q, k * unit);
  }

  lemma SlotFeet(w: Plan, p: Ptr)
    requires w.Slot? && Separate(w)
    ensures Span(p.Plus(w.off), HEADER) + Foot(w.rest, p) <= Foot(w, p)
    ensures Span(p.Plus(w.off), HEADER) !! Foot(w.rest, p)
  {
    var at := p.Plus(w.off);
    forall o | o in Span(at, HEADER) ensures InFoot(w, p, o) && !InFoot(w.rest, p, o) {
      assert InSpan(at, HEADER, o);
      assert w.off <= o - p.off < w.off + HEADER;
    }
    forall o | o in Foot(w.rest, p) ensures InFoot(w, p, o) {
      assert InFoot(w.rest, p, o);
    }
  }

  lemma InlineFeet(w: Plan, p: Ptr)
    requires w.Inline? && Separate(w)
    ensures Foot(w.inner, p.Plus(w.off)) + Foot(w.rest, p) <= Foot(w, p)
    ensures Foot(w.inner, p.Plus(w.off)) !! Foot(w.rest, p)
  {
    var at := p.Plus(w.off);
    forall o | o in Foot(w.inner, at) ensures InFoot(w, p, o) && !InFoot(w.rest, p, o) {
      assert InFoot(w.inner, at, o);
      assert Covers(w.inner, (o - p.off) - w.off);
    }
    forall o | o in Foot(w.rest, p) ensures InFoot(w, p, o) {
      assert InFoot(w.rest, p, o);
    }
  }
}
