/** What the destroy walk does to a message that a heap create walk built. */
module Destruction {
  import opened Introspection
  import opened Plans
  import opened Store
  import opened Semantics
  import opened Ownership
  import opened Creation

  /** From `m` to `m'` exactly the heap blocks numbered `lo..hi` disappear, and
      of the other blocks only bytes `foot` of block `b` change. */
  ghost predicate Drops(m: Memory, m': Memory, b: Block, foot: iset<int>, lo: nat, hi: nat) {
    && lo <= hi
    && (forall d :: d in m' <==> d in m && !OwnsPartOf(OnHeap, d, lo, hi))
    && (forall d | d in m' :: |m'[d]| == |m[d]|)
    && (forall d, o: int | d in m' && !(d == b && o in foot) :: Kept(m, m', d, o))
  }

  lemma DropsTwice(m: Memory, m1: Memory, m2: Memory, b: Block, foot1: iset<int>, foot2: iset<int>, foot: iset<int>,
                   lo: nat, mid: nat, hi: nat)
    requires Drops(m, m1, b, foot1, lo, mid) && Drops(m1, m2, b, foot2, mid, hi) && foot1 + foot2 <= foot
    ensures Drops(m, m2, b, foot, lo, hi)
  {
    forall d, o: int | d in m2 && !(d == b && o in foot) ensures Kept(m, m2, d, o) {
      assert o in foot1 + foot2 ==> o in foot;
      assert Kept(m, m1, d, o) && Kept(m1, m2, d, o);
    }
  }

  /** Changes to a block that is dropped afterwards do not count. */
  lemma DropsInside(m: Memory, m1: Memory, m2: Memory, c: nat, inside: iset<int>, hi: nat, b: Block, foot: iset<int>)
    requires Drops(m, m1, HeapBlock(c), inside, c + 1, hi) && Drops(m1, m2, b, foot, c, c + 1)
    ensures Drops(m, m2, b, foot, c, hi)
  {
    forall d, o: int | d in m2 && !(d == b && o in foot) ensures Kept(m, m2, d, o) {
      assert Kept(m, m1, d, o) && Kept(m1, m2, d, o);
    }
  }

  /** What lies outside the dropped blocks and the changed bytes stays. */
  lemma DropsKeeps(m: Memory, m': Memory, b: Block, foot: iset<int>, lo: nat, hi: nat,
                   d: Block, other: iset<int>, lo': nat, hi': nat)
    requires Drops(m, m', b, foot, lo, hi)
    requires (hi <= lo' || hi' <= lo) && !OwnsPartOf(OnHeap, d, lo, hi) && !OwnsPartOf(OnHeap, b, lo', hi')
    requires d == b ==> foot !! other
    ensures Stable(m, m', OnHeap, d, other, lo', hi')
  {
    forall e, o: int | (e == d && o in other) || Owned(OnHeap, e, o, lo', hi') ensures Kept(m, m', e, o) {
      if e in m {
        assert e in m' && !(e == b && o in foot);
      }
    }
  }

  /** The blocks of a plan whose walk started at request `c`, as they are released. */
  ghost function ReleaseOrder(w: Plan, c: nat): seq<Block>
    decreases w, 0, 0
  {
    match w
    case Done => []
    case Slot(_, capacity, unit, count, inner, rest) =>
      ReleaseOrderOfElements(inner, count, c + 1) + [HeapBlock(c)]
      + ReleaseOrder(rest, AfterElements(OnHeap, inner, count, c + 1))
    case Inline(_, inner, rest) => ReleaseOrder(inner, c) + ReleaseOrder(rest, After(OnHeap, inner, c))
  }

  ghost function ReleaseOrderOfElements(inner: Plan, k: nat, c: nat): seq<Block>
    decreases inner, 1, k
  {
    if k == 0 then []
    else ReleaseOrderOfElements(inner, k - 1, c) + ReleaseOrder(inner, AfterElements(OnHeap, inner, k - 1, c))
  }

  /** The effect of a destroy step: no fault, blocks `lo..hi` released in that order. */
  ghost predicate Released(s: State, t: State, b: Block, foot: iset<int>, lo: nat, hi: nat, order: seq<Block>) {
    && t == s.(mem := t.mem, released := s.released + order)
    && Drops(s.mem, t.mem, b, foot, lo, hi)
  }

  /** Releasing one slot whose elements are gone: its block disappears, and its
      header is left empty, the pointer still in it. */
  lemma ReleaseSlot(at: Ptr, s: State, c: nat)
    requires InBounds(s.mem, at, HEADER) && Holds(s.mem, at, Address(Ptr(HeapBlock(c), 0)))
    requires HeapBlock(c) in s.mem && at.block != HeapBlock(c)
    ensures Released(s, Release(Destroy, at, s), at.block, Span(at, HEADER), c, c + 1, [HeapBlock(c)])
    ensures HeaderAt(Release(Destroy, at, s).mem, at, Ptr(HeapBlock(c), 0), 0, true)
  {
    var (s1, q) := LoadPtr(s, at);
    assert s1 == s && q == Ptr(HeapBlock(c), 0);
    var s2 := Deallocate(s, q);
    var t := FinishHeader(s2, at, 0);
    FinishHeaderEffect(OnHeap, s2, at, q, 0);
    forall d, o: int | d in t.mem && !(d == at.block && o in Span(at, HEADER)) ensures Kept(s.mem, t.mem, d, o) {
      assert Kept(s2.mem, t.mem, d, o);
    }
  }

  lemma ReleasedTwice(s: State, t: State, u: State, b: Block, foot1: iset<int>, foot2: iset<int>, foot: iset<int>,
                      lo: nat, mid: nat, hi: nat, order1: seq<Block>, order2: seq<Block>)
    requires Released(s, t, b, foot1, lo, mid, order1) && Released(t, u, b, foot2, mid, hi, order2)
    requires foot1 + foot2 <= foot
    ensures Released(s, u, b, foot, lo, hi, order1 + order2)
  {
    DropsTwice(s.mem, t.mem, u.mem, b, foot1, foot2, foot, lo, mid, hi);
    assert s.released + order1 + order2 == s.released + (order1 + order2);
  }

  /** What was built after blocks `lo..mid` stays when those are released. */
  lemma RestStays(rest: Plan, p: Ptr, s: State, t: State, foot: iset<int>, lo: nat, mid: nat, order: seq<Block>)
    requires Released(s, t, p.block, foot, lo, mid, order) && foot !! Foot(rest, p)
    requires p.block.HeapBlock? ==> p.block.request < lo
    requires Separate(rest) && Built(OnHeap, false, s.mem, rest, p, mid)
    ensures Built(OnHeap, false, t.mem, rest, p, mid)
  {
    DropsKeeps(s.mem, t.mem, p.block, foot, lo, mid, p.block, Foot(rest, p), mid, After(OnHeap, rest, mid));
    BuiltStable(OnHeap, false, s.mem, t.mem, rest, p, mid);
  }

  /** A pointer outside what was released stays. */
  lemma PointerStays(at: Ptr, q: Ptr, b: Block, s: State, t: State, foot: iset<int>, lo: nat, hi: nat,
                     order: seq<Block>)
    requires Released(s, t, b, foot, lo, hi, order) && Holds(s.mem, at, Address(q))
    requires at.block != b && (at.block.HeapBlock? ==> at.block.request < lo)
    ensures Holds(t.mem, at, Address(q)) && LoadPtr(t, at) == (t, q)
  {
    DropsKeeps(s.mem, t.mem, b, foot, lo, hi, at.block, Span(at, WORD), lo, lo);
    WordStable(s.mem, t.mem, OnHeap, at, Address(q), lo, lo);
  }

  lemma {:induction false} SlotDestroyed(at: Ptr, capacity: nat, unit: nat, count: nat, inner: Plan,
                                         s: State, c: nat, fails: nat -> bool)
    requires count <= capacity && Within(inner, unit) && Separate(inner)
    requires SlotBuilt(OnHeap, false, s.mem, at, capacity, unit, count, inner, c)
    requires at.block.HeapBlock? ==> at.block.request < c
    ensures Released(s, VisitSlot(Destroy, at, capacity, unit, count, inner, s, fails).s, at.block, Span(at, HEADER),
                     c, AfterElements(OnHeap, inner, count, c + 1),
                     ReleaseOrderOfElements(inner, count, c + 1) + [HeapBlock(c)])
    decreases inner, 2, 0
  {
    var q, mid := DataAt(OnHeap, c), AfterElements(OnHeap, inner, count, c + 1);
    AfterElementsGrow(OnHeap, inner, count, c + 1);
    ElementsDestroyed(inner, at, q, unit, count, s, c + 1, fails);
    SlotReleased(at, s, Elements(Destroy, inner, at, unit, count, s, fails).s, c,
                 FootOfElements(inner, q, unit, count), mid, ReleaseOrderOfElements(inner, count, c + 1));
  }

  /** A slot whose elements are gone, from before they went. */
  lemma SlotReleased(at: Ptr, s: State, t: State, c: nat, feet: iset<int>, mid: nat, order: seq<Block>)
    requires Released(s, t, HeapBlock(c), feet, c + 1, mid, order)
    requires InBounds(s.mem, at, HEADER) && Holds(s.mem, at, Address(Ptr(HeapBlock(c), 0))) && HeapBlock(c) in s.mem
    requires at.block.HeapBlock? ==> at.block.request < c
    ensures Released(s, Release(Destroy, at, t), at.block, Span(at, HEADER), c, mid, order + [HeapBlock(c)])
  {
    PointerStays(at, Ptr(HeapBlock(c), 0), HeapBlock(c), s, t, feet, c + 1, mid, order);
    ReleaseSlot(at, t, c);
    DropsInside(s.mem, t.mem, Release(Destroy, at, t).mem, c, feet, mid, at.block, Span(at, HEADER));
  }

  lemma {:induction false} ElementsDestroyed(inner: Plan, at: Ptr, q: Ptr, unit: nat, k: nat,
                                             s: State, c: nat, fails: nat -> bool)
    requires Within(inner, unit) && Separate(inner)
    requires Holds(s.mem, at, Address(q)) && ElementsBuilt(OnHeap, false, s.mem, inner, q, unit, k, c)
    requires at.block.HeapBlock? ==> at.block.request < c
    requires at.block != q.block && q.block.HeapBlock? && q.block.request < c
    ensures Released(s, Elements(Destroy, inner, at, unit, k, s, fails).s, q.block, FootOfElements(inner, q, unit, k),
                     c, AfterElements(OnHeap, inner, k, c), ReleaseOrderOfElements(inner, k, c))
    decreases inner, 1, k
  {
    if k == 0 {
    } else {
      var mid, end := AfterElements(OnHeap, inner, k - 1, c), AfterElements(OnHeap, inner, k, c);
      var feet, data := FootOfElements(inner, q, unit, k - 1), q.Plus((k - 1) * unit);
      var order := ReleaseOrderOfElements(inner, k - 1, c);
      AfterElementsGrow(OnHeap, inner, k - 1, c);
      ElementsDestroyed(inner, at, q, unit, k - 1, s, c, fails);
      var t := Elements(Destroy, inner, at, unit, k - 1, s, fails).s;
      PointerStays(at, q, q.block, s, t, feet, c, mid, order);
      ElementFeet(inner, q, unit, k);
      RestStays(inner, data, s, t, feet, c, mid, order);
      WalkDestroyed(inner, data, t, mid, fails);
      ReleasedTwice(s, t, Run(Destroy, inner, data, t, fails).s, q.block, feet, Foot(inner, data),
                    FootOfElements(inner, q, unit, k), c, mid, end, order, ReleaseOrder(inner, mid));
    }
  }

  /** Main lemma: on a message built from request `c` on, whatever its user did
      to sizes, capacities and contents since, the destroy walk releases exactly
      the blocks of the plan and touches nothing else. */
  lemma {:induction false} WalkDestroyed(w: Plan, p: Ptr, s: State, c: nat, fails: nat -> bool)
    requires Separate(w) && Built(OnHeap, false, s.mem, w, p, c)
    requires p.block.HeapBlock? ==> p.block.request < c
    ensures Released(s, Run(Destroy, w, p, s, fails).s, p.block, Foot(w, p), c, After(OnHeap, w, c), ReleaseOrder(w, c))
    decreases w, 0, 0
  {
    match w
    case Done =>
    case Slot(off, capacity, unit, count, inner, rest) =>
      var at, mid := p.Plus(off), AfterElements(OnHeap, inner, count, c + 1);
      SlotAfter(OnHeap, off, capacity, unit, count, inner, rest, c);
      SlotDestroyed(at, capacity, unit, count, inner, s, c, fails);
      var v := VisitSlot(Destroy, at, capacity, unit, count, inner, s, fails);
      var order := ReleaseOrderOfElements(inner, count, c + 1) + [HeapBlock(c)];
      SlotFeet(w, p);
      RestStays(rest, p, s, v.s, Span(at, HEADER), c, mid, order);
      WalkDestroyed(rest, p, v.s, mid, fails);
      ReleasedTwice(s, v.s, Run(Destroy, rest, p, v.s, fails).s, p.block, Span(at, HEADER), Foot(rest, p), Foot(w, p),
                    c, mid, After(OnHeap, w, c), order, ReleaseOrder(rest, mid));
    case Inline(off, inner, rest) =>
      var at, mid := p.Plus(off), After(OnHeap, inner, c);
      InlineFeet(w, p);
      WalkDestroyed(inner, at, s, c, fails);
      var n := Run(Destroy, inner, at, s, fails);
      RestStays(rest, p, s, n.s, Foot(inner, at), c, mid, ReleaseOrder(inner, c));
      WalkDestroyed(rest, p, n.s, mid, fails);
      ReleasedTwice(s, n.s, Run(Destroy, rest, p, n.s, fails).s, p.block, Foot(inner, at), Foot(rest, p), Foot(w, p),
                    c, mid, After(OnHeap, w, c), ReleaseOrder(inner, c), ReleaseOrder(rest, mid));
  }

  // ------------------------------------------------------- order of release

  /** The block that holds the header of request `n`, when the message itself is in `h`. */
  ghost function Holder(w: Plan, h: Block, c: nat, n: int): Block
    decreases w, 0, 0
  {
    match w
    case Done => h
    case Slot(_, capacity, unit, count, inner, rest) =>
      var mid := AfterElements(OnHeap, inner, count, c + 1);
      if n <= c then h
      else if n < mid then HolderInElements(inner, HeapBlock(c), count, c + 1, n)
      else Holder(rest, h, mid, n)
    case Inline(_, inner, rest) =>
      var mid := After(OnHeap, inner, c);
      if n < mid then Holder(inner, h, c, n) else Holder(rest, h, mid, n)
  }

  ghost function HolderInElements(inner: Plan, h: Block, k: nat, c: nat, n: int): Block
    decreases inner, 1, k
  {
    if k == 0 then h
    else
      var mid := AfterElements(OnHeap, inner, k - 1, c);
      if n < mid then HolderInElements(inner, h, k - 1, c, n) else Holder(inner, h, mid, n)
  }

  /** `Holder` is where memory has it: some word of that block is the data pointer of request `n`. */
  lemma {:induction false} HolderHolds(pristine: bool, m: Memory, w: Plan, p: Ptr, c: nat, n: int) returns (at: Ptr)
    requires Built(OnHeap, pristine, m, w, p, c) && c <= n < After(OnHeap, w, c)
    ensures at.block == Holder(w, p.block, c, n) && Holds(m, at, Address(Ptr(HeapBlock(n), 0)))
    decreases w, 0, 0
  {
    match w
    case Slot(off, capacity, unit, count, inner, rest) =>
      var mid := AfterElements(OnHeap, inner, count, c + 1);
      SlotAfter(OnHeap, off, capacity, unit, count, inner, rest, c);
      if n == c {
        at := p.Plus(off);
      } else if n < mid {
        at := ElementsHolderHolds(pristine, m, inner, DataAt(OnHeap, c), unit, count, c + 1, n);
      } else {
        at := HolderHolds(pristine, m, rest, p, mid, n);
      }
    case Inline(off, inner, rest) =>
      var mid := After(OnHeap, inner, c);
      if n < mid {
        at := HolderHolds(pristine, m, inner, p.Plus(off), c, n);
      } else {
        at := HolderHolds(pristine, m, rest, p, mid, n);
      }
  }

  lemma {:induction false} ElementsHolderHolds(pristine: bool, m: Memory, inner: Plan, q: Ptr, unit: nat,
                                               k: nat, c: nat, n: int)
    returns (at: Ptr)
    requires ElementsBuilt(OnHeap, pristine, m, inner, q, unit, k, c) && c <= n < AfterElements(OnHeap, inner, k, c)
    ensures at.block == HolderInElements(inner, q.block, k, c, n) && Holds(m, at, Address(Ptr(HeapBlock(n), 0)))
    decreases inner, 1, k
  {
    if k > 0 {
      var mid := AfterElements(OnHeap, inner, k - 1, c);
      if n < mid {
        at := ElementsHolderHolds(pristine, m, inner, q, unit, k - 1, c, n);
      } else {
        at := HolderHolds(pristine, m, inner, q.Plus((k - 1) * unit), mid, n);
      }
    }
  }

  /** `order` lists the blocks numbered `lo..hi`, each once. */
  ghost predicate Lists(order: seq<Block>, lo: nat, hi: nat) {
    && lo <= hi && |order| == hi - lo
    && (forall i | 0 <= i < |order| :: order[i].HeapBlock? && lo <= order[i].request < hi)
    && (forall i, j | 0 <= i < j < |order| :: order[i] != order[j])
  }

  lemma ListsTwice(a: seq<Block>, b: seq<Block>, lo: nat, mid: nat, hi: nat)
    requires Lists(a, lo, mid) && Lists(b, mid, hi)
    ensures Lists(a + b, lo, hi)
  {
  }

  /** Every block of the plan is released exactly once. */
  lemma {:induction false} ReleasedOnce(w: Plan, c: nat)
    ensures Lists(ReleaseOrder(w, c), c, After(OnHeap, w, c))
    decreases w, 0, 0
  {
    match w
    case Done =>
    case Slot(_, capacity, unit, count, inner, rest) =>
      var mid := AfterElements(OnHeap, inner, count, c + 1);
      AfterElementsClosed(OnHeap, inner, count, c + 1);
      ElementsReleasedOnce(inner, count, c + 1);
      ReleasedOnce(rest, mid);
      var a := ReleaseOrderOfElements(inner, count, c + 1);
      assert Lists(a + [HeapBlock(c)], c, mid);
      ListsTwice(a + [HeapBlock(c)], ReleaseOrder(rest, mid), c, mid, After(OnHeap, w, c));
    case Inline(_, inner, rest) =>
      var mid := After(OnHeap, inner, c);
      ReleasedOnce(inner, c);
      ReleasedOnce(rest, mid);
      ListsTwice(ReleaseOrder(inner, c), ReleaseOrder(rest, mid), c, mid, After(OnHeap, w, c));
  }

  lemma {:induction false} ElementsReleasedOnce(inner: Plan, k: nat, c: nat)
    ensures Lists(ReleaseOrderOfElements(inner, k, c), c, AfterElements(OnHeap, inner, k, c))
    decreases inner, 1, k
  {
    if k > 0 {
      var mid := AfterElements(OnHeap, inner, k - 1, c);
      ElementsReleasedOnce(inner, k - 1, c);
      ReleasedOnce(inner, mid);
      ListsTwice(ReleaseOrderOfElements(inner, k - 1, c), ReleaseOrder(inner, mid), c, mid,
                 AfterElements(OnHeap, inner, k, c));
    }
  }

  /** Request `n` of the walk has its header in `h` or in an earlier block of the walk. */
  lemma {:induction false} HolderIsEarlier(w: Plan, h: Block, c: nat, n: int)
    requires c <= n < After(OnHeap, w, c)
    ensures var b := Holder(w, h, c, n); b == h || (b.HeapBlock? && c <= b.request < n)
    decreases w, 0, 0
  {
    match w
    case Slot(off, capacity, unit, count, inner, rest) =>
      var mid := AfterElements(OnHeap, inner, count, c + 1);
      SlotAfter(OnHeap, off, capacity, unit, count, inner, rest, c);
      if c < n < mid {
        ElementsHolderIsEarlier(inner, HeapBlock(c), count, c + 1, n);
      } else if mid <= n {
        HolderIsEarlier(rest, h, mid, n);
      }
    case Inline(_, inner, rest) =>
      var mid := After(OnHeap, inner, c);
      if n < mid { HolderIsEarlier(inner, h, c, n); } else { HolderIsEarlier(rest, h, mid, n); }
  }

  lemma {:induction false} ElementsHolderIsEarlier(inner: Plan, h: Block, k: nat, c: nat, n: int)
    requires c <= n < AfterElements(OnHeap, inner, k, c)
    ensures var b := HolderInElements(inner, h, k, c, n); b == h || (b.HeapBlock? && c <= b.request < n)
    decreases inner, 1, k
  {
    if k > 0 {
      var mid := AfterElements(OnHeap, inner, k - 1, c);
      AfterElementsGrow(OnHeap, inner, k - 1, c);
      if n < mid {
        ElementsHolderIsEarlier(inner, h, k - 1, c, n);
      } else {
        HolderIsEarlier(inner, h, mid, n);
      }
    }
  }

  /** Nested blocks go before the block that holds their headers. */
  lemma {:induction false} NestedReleasedFirst(w: Plan, h: Block, c: nat, i: int, j: int)
    requires !OwnsPartOf(OnHeap, h, c, After(OnHeap, w, c))
    requires 0 <= i < j < |ReleaseOrder(w, c)|
    ensures var order := ReleaseOrder(w, c);
            order[j].HeapBlock? && order[i] != Holder(w, h, c, order[j].request)
    decreases w, 0, 0
  {
    match w
    case Slot(off, capacity, unit, count, inner, rest) =>
      var mid := AfterElements(OnHeap, inner, count, c + 1);
      var a := ReleaseOrderOfElements(inner, count, c + 1);
      SlotAfter(OnHeap, off, capacity, unit, count, inner, rest, c);
      ElementsReleasedOnce(inner, count, c + 1);
      assert Lists(a + [HeapBlock(c)], c, mid);
      if j < |a| {
        ElementsReleasedFirst(inner, HeapBlock(c), count, c + 1, i, j);
      } else if |a| < j {
        RestReleasedFirst(rest, h, c, mid, a + [HeapBlock(c)], i, j);
      }
    case Inline(_, inner, rest) =>
      var mid := After(OnHeap, inner, c);
      var a := ReleaseOrder(inner, c);
      ReleasedOnce(inner, c);
      if j < |a| {
        NestedReleasedFirst(inner, h, c, i, j);
      } else {
        RestReleasedFirst(rest, h, c, mid, a, i, j);
      }
  }

  lemma {:induction false} RestReleasedFirst(rest: Plan, h: Block, c: nat, mid: nat, a: seq<Block>, i: int, j: int)
    requires Lists(a, c, mid) && !OwnsPartOf(OnHeap, h, c, After(OnHeap, rest, mid))
    requires 0 <= i < j < |a + ReleaseOrder(rest, mid)| && |a| <= j
    ensures var order := a + ReleaseOrder(rest, mid);
            order[j].HeapBlock? && mid <= order[j].request && order[i] != Holder(rest, h, mid, order[j].request)
    decreases rest, 0, 1
  {
    var b := ReleaseOrder(rest, mid);
    ReleasedOnce(rest, mid);
    HolderIsEarlier(rest, h, mid, b[j - |a|].request);
    if |a| <= i {
      NestedReleasedFirst(rest, h, mid, i - |a|, j - |a|);
    }
  }

  lemma {:induction false} ElementsReleasedFirst(inner: Plan, h: Block, k: nat, c: nat, i: int, j: int)
    requires !OwnsPartOf(OnHeap, h, c, AfterElements(OnHeap, inner, k, c))
    requires 0 <= i < j < |ReleaseOrderOfElements(inner, k, c)|
    ensures var order := ReleaseOrderOfElements(inner, k, c);
            order[j].HeapBlock? && order[i] != HolderInElements(inner, h, k, c, order[j].request)
    decreases inner, 1, k
  {
    if k > 0 {
      var mid := AfterElements(OnHeap, inner, k - 1, c);
      var a := ReleaseOrderOfElements(inner, k - 1, c);
      ElementsReleasedOnce(inner, k - 1, c);
      if j < |a| {
        ElementsReleasedFirst(inner, h, k - 1, c, i, j);
      } else {
        RestReleasedFirst(inner, h, c, mid, a, i, j);
      }
    }
  }
}
