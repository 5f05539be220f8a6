/** What the two create walks do: every header they visit ends up describing
    its own region, and nothing else changes. */
module Creation {
  import opened Arithmetic
  import opened Introspection
  import opened Plans
  import opened Layout
  import opened Store
  import opened Semantics
  import opened Sizes
  import opened Ownership

  /** The allocator can serve a create walk whose cursor stays within `hi`: heap
      blocks are numbered below the next request; the buffer is long enough,
      and zero from the index on. */
  ghost predicate Ready(mode: Mode, s: State, hi: nat) {
    match mode
    case OnHeap => forall n: nat | HeapBlock(n) in s.mem :: n < s.requests
    case InBuffer =>
      && s.buffer == Ptr(UserBuffer, 0) && InBounds(s.mem, s.buffer, hi)
      && forall o | s.index <= o < hi :: s.mem[UserBuffer][o] == Byte(0)
  }

  /** Bytes `foot` of block `b` exist and are not about to be handed out. */
  ghost predicate Placed(mode: Mode, s: State, b: Block, foot: iset<int>) {
    forall o | o in foot ::
      b in s.mem && 0 <= o < |s.mem[b]| && (mode.InBuffer? && b == UserBuffer ==> o < s.index)
  }

  /** A request numbered from the first cursor up to the second failed. */
  ghost predicate Failed(mode: Mode, fails: nat -> bool, lo: nat, hi: nat) {
    mode.OnHeap? && !NoneFail(fails, lo, hi)
  }

  /** The common effect of the steps of a create walk: no fault, nothing released,
      the other mode's cursor still, this one's at most at `end`, only `foot` and
      what was handed out changed. */
  ghost predicate Effect(mode: Mode, s: State, t: State, b: Block, foot: iset<int>, end: nat) {
    && t.fault == s.fault && t.buffer == s.buffer && t.released == s.released
    && (if mode.OnHeap? then t.index == s.index && t.handed == s.handed else t.requests == s.requests)
    && Cursor(mode, t) <= end
    && Preserves(s.mem, t.mem, mode, b, foot, Cursor(mode, s), Cursor(mode, t))
  }

  lemma EffectTwice(mode: Mode, s: State, t: State, u: State, b: Block,
                    foot1: iset<int>, foot2: iset<int>, foot: iset<int>, mid: nat, end: nat)
    requires Effect(mode, s, t, b, foot1, mid) && Effect(mode, t, u, b, foot2, end) && foot1 + foot2 <= foot
    ensures Effect(mode, s, u, b, foot, end)
  {
    var c, d, e := Cursor(mode, s), Cursor(mode, t), Cursor(mode, u);
    PreservesTwice(s.mem, t.mem, u.mem, mode, b, foot1, c, d, foot2, d, e, foot, c, e);
  }

  lemma StaysReady(mode: Mode, s: State, t: State, b: Block, foot: iset<int>, end: nat, hi: nat)
    requires Ready(mode, s, hi) && Placed(mode, s, b, foot) && Effect(mode, s, t, b, foot, end)
    ensures Ready(mode, t, hi)
  {
    if mode.InBuffer? {
      forall o | t.index <= o < hi ensures t.mem[UserBuffer][o] == Byte(0) {
        assert !Owned(mode, UserBuffer, o, s.index, t.index) && !(b == UserBuffer && o in foot);
        assert Kept(s.mem, t.mem, UserBuffer, o);
      }
    }
  }

  lemma StaysPlaced(mode: Mode, s: State, t: State, b: Block, foot: iset<int>, end: nat, d: Block, other: iset<int>)
    requires Effect(mode, s, t, b, foot, end) && Placed(mode, s, d, other)
    ensures Placed(mode, t, d, other)
  {
  }

  /** Writing cells at `p` changes only those bytes. */
  lemma StoreEffect(mode: Mode, s: State, p: Ptr, cells: seq<Cell>)
    requires InBounds(s.mem, p, |cells|)
    ensures Effect(mode, s, StoreCells(s, p, cells), p.block, Span(p, |cells|), Cursor(mode, s))
  {
    var t := StoreCells(s, p, cells);
    var c := Cursor(mode, s);
    forall d, o: int | !(d == p.block && o in Span(p, |cells|)) && !Owned(mode, d, o, c, c)
      ensures Kept(s.mem, t.mem, d, o)
    {
      assert d == p.block ==> !InSpan(p, |cells|, o);
    }
  }

  /** A word just written is there. */
  lemma StoreWordHolds(s: State, p: Ptr, w: Word)
    requires InBounds(s.mem, p, WORD)
    ensures Holds(StoreWord(s, p, w).mem, p, w)
  {
  }

  lemma OtherWordHolds(s: State, p: Ptr, w: Word, q: Ptr, v: Word)
    requires InBounds(s.mem, p, WORD) && Holds(s.mem, q, v)
    requires p.block == q.block ==> p.off + WORD <= q.off || q.off + WORD <= p.off
    ensures Holds(StoreWord(s, p, w).mem, q, v)
  {
  }

  /** The rest of a header, once its data pointer is written. */
  lemma FinishHeaderEffect(mode: Mode, s: State, at: Ptr, q: Ptr, capacity: nat)
    requires InBounds(s.mem, at, HEADER) && Holds(s.mem, at, Address(q))
    ensures var t := FinishHeader(s, at, capacity);
            && t == s.(mem := t.mem)
            && Effect(mode, s, t, at.block, Span(at, HEADER), Cursor(mode, s))
            && HeaderAt(t.mem, at, q, capacity, true)
  {
    var p1, p2 := at.Plus(WORD), at.Plus(2 * WORD);
    var s1 := StoreWord(s, p1, Number(0));
    StoreEffect(mode, s, p1, Parts(Number(0)));
    StoreWordHolds(s, p1, Number(0));
    OtherWordHolds(s, p1, Number(0), at, Address(q));
    StoreEffect(mode, s1, p2, Parts(Number(capacity)));
    StoreWordHolds(s1, p2, Number(capacity));
    OtherWordHolds(s1, p2, Number(capacity), at, Address(q));
    OtherWordHolds(s1, p2, Number(capacity), p1, Number(0));
    SpanInside(p1, WORD, at, HEADER);
    SpanInside(p2, WORD, at, HEADER);
    EffectTwice(mode, s, s1, FinishHeader(s, at, capacity), at.block, Span(p1, WORD), Span(p2, WORD),
                Span(at, HEADER), Cursor(mode, s), Cursor(mode, s));
  }

  /** Writing a header leaves a zeroed region elsewhere zero. */
  lemma RegionSurvives(mode: Mode, m: Memory, m': Memory, at: Ptr, q: Ptr, size: nat, inner: Plan, unit: nat, c: nat)
    requires RegionAt(m, mode, q, size, inner, unit, 0, true)
    requires Preserves(m, m', mode, at.block, Span(at, HEADER), c, c)
    requires at.block == q.block ==> at.off + HEADER <= q.off
    ensures RegionAt(m', mode, q, size, inner, unit, 0, true)
  {
    forall o | q.off <= o < q.off + size ensures m'[q.block][o] == Byte(0) {
      assert at.block == q.block ==> !InSpan(at, HEADER, o);
      assert Kept(m, m', q.block, o);
    }
  }

  /** Zeroing the block of request `c`. */
  lemma ZeroBlock(at: Ptr, s: State, c: nat, size: nat, inner: Plan, unit: nat)
    requires HeapBlock(c) in s.mem && |s.mem[HeapBlock(c)]| == size && s.requests == c + 1
    ensures var q := Ptr(HeapBlock(c), 0);
            var t := StoreCells(s, q, Fill(size, Byte(0)));
            && t == s.(mem := t.mem)
            && Preserves(s.mem, t.mem, OnHeap, at.block, iset{}, c, c + 1)
            && RegionAt(t.mem, OnHeap, q, size, inner, unit, 0, true)
  {
    var q := Ptr(HeapBlock(c), 0);
    StoreEffect(OnHeap, s, q, Fill(size, Byte(0)));
    PreservesInside(s.mem, StoreCells(s, q, Fill(size, Byte(0))).mem, OnHeap, q.block, Span(q, size), at.block,
                    c, c + 1, c + 1);
  }

  /** Request `c` answered with a new block, and its address stored at `at`. */
  lemma NewBlock(at: Ptr, size: nat, s: State, fails: nat -> bool)
    requires Ready(OnHeap, s, s.requests) && InBounds(s.mem, at, HEADER) && !fails(s.requests)
    ensures var c := s.requests;
            var (s1, q) := Allocate(s, size, fails);
            var t := StoreWord(s1, at, Address(q));
            && t == s.(mem := t.mem, requests := c + 1)
            && q == DataAt(OnHeap, c) && q.block in t.mem && |t.mem[q.block]| == size && q.block != at.block
            && Preserves(s.mem, t.mem, OnHeap, at.block, Span(at, HEADER), c, c + 1)
            && Holds(t.mem, at, Address(q))
  {
    var c := s.requests;
    var (s1, q) := Allocate(s, size, fails);
    assert Preserves(s.mem, s1.mem, OnHeap, at.block, iset{}, c, c + 1);
    StoreEffect(OnHeap, s1, at, Parts(Address(q)));
    StoreWordHolds(s1, at, Address(q));
    SpanInside(at, WORD, at, HEADER);
    PreservesTwice(s.mem, s1.mem, StoreWord(s1, at, Address(q)).mem, OnHeap, at.block,
                   iset{}, c, c + 1, Span(at, WORD), c + 1, c + 1, Span(at, HEADER), c, c + 1);
  }

  /** A slot at `at` whose request was answered: only its header and what the
      request handed out changed, the header is complete, its region zero. */
  ghost predicate Acquired(mode: Mode, s: State, t: State, at: Ptr, capacity: nat, unit: nat, inner: Plan, end: nat) {
    var q := DataAt(mode, Cursor(mode, s));
    && Cursor(mode, t) == end
    && Effect(mode, s, t, at.block, Span(at, HEADER), end)
    && HeaderAt(t.mem, at, q, capacity, true)
    && RegionAt(t.mem, mode, q, capacity * unit, inner, unit, 0, true)
  }

  lemma FinishAcquire(mode: Mode, s: State, t: State, at: Ptr, capacity: nat, unit: nat, inner: Plan, end: nat)
    requires Effect(mode, s, t, at.block, Span(at, HEADER), end) && Cursor(mode, t) == end
    requires var q := DataAt(mode, Cursor(mode, s));
             && InBounds(s.mem, at, HEADER) && Holds(t.mem, at, Address(q))
             && RegionAt(t.mem, mode, q, capacity * unit, inner, unit, 0, true)
             && (at.block == q.block ==> at.off + HEADER <= q.off)
    ensures Acquired(mode, s, FinishHeader(t, at, capacity), at, capacity, unit, inner, end)
  {
    var q := DataAt(mode, Cursor(mode, s));
    var u := FinishHeader(t, at, capacity);
    FinishHeaderEffect(mode, t, at, q, capacity);
    RegionSurvives(mode, t.mem, u.mem, at, q, capacity * unit, inner, unit, end);
    EffectTwice(mode, s, t, u, at.block, Span(at, HEADER), Span(at, HEADER), Span(at, HEADER), end, end);
  }

  /** A request from the heap that does not fail: one new block, set to zero. */
  lemma HeapObtain(at: Ptr, size: nat, unit: nat, inner: Plan, s: State, fails: nat -> bool)
    requires Ready(OnHeap, s, s.requests) && InBounds(s.mem, at, HEADER) && !fails(s.requests)
    ensures var (t, q) := Obtain(Create, at, size, s, fails);
            && q == DataAt(OnHeap, s.requests) && q.block != at.block
            && t.requests == s.requests + 1
            && Effect(OnHeap, s, t, at.block, Span(at, HEADER), t.requests)
            && Holds(t.mem, at, Address(q))
            && RegionAt(t.mem, OnHeap, q, size, inner, unit, 0, true)
  {
    var c, foot := s.requests, Span(at, HEADER);
    var q := DataAt(OnHeap, c);
    var s2 := StoreWord(Allocate(s, size, fails).0, at, Address(q));
    NewBlock(at, size, s, fails);
    var s3 := StoreCells(s2, q, Fill(size, Byte(0)));
    ZeroBlock(at, s2, c, size, inner, unit);
    HoldsStable(s2.mem, s3.mem, at, Address(q));
    PreservesTwice(s.mem, s2.mem, s3.mem, OnHeap, at.block, foot, c, c + 1, iset{}, c, c + 1, foot, c, c + 1);
  }

  lemma HeapAcquire(at: Ptr, capacity: nat, unit: nat, inner: Plan, s: State, fails: nat -> bool)
    requires Ready(OnHeap, s, s.requests) && InBounds(s.mem, at, HEADER) && !fails(s.requests)
    ensures var a := Acquire(Create, at, capacity, unit, s, fails);
            !a.aborted && Acquired(OnHeap, s, a.s, at, capacity, unit, inner, s.requests + 1)
  {
    HeapObtain(at, capacity * unit, unit, inner, s, fails);
    var (t, q) := Obtain(Create, at, capacity * unit, s, fails);
    FinishAcquire(OnHeap, s, t, at, capacity, unit, inner, s.requests + 1);
  }

  /** A request from the heap that fails: the pointer is cleared, no more.  The
      header's size and capacity keep their bytes. */
  lemma HeapRefused(at: Ptr, capacity: nat, unit: nat, s: State, fails: nat -> bool)
    requires InBounds(s.mem, at, HEADER) && fails(s.requests)
    ensures var a := Acquire(Create, at, capacity, unit, s, fails);
            && a.aborted && a.used == 0
            && a.s.requests == s.requests + 1
            && Points(a.s.mem, at, NULL)
            && Effect(OnHeap, s, a.s, at.block, Span(at, WORD), s.requests + 1)
            && Effect(OnHeap, s, a.s, at.block, Span(at, HEADER), s.requests + 1)
  {
    var s1 := s.(requests := s.requests + 1);
    assert Preserves(s.mem, s1.mem, OnHeap, at.block, iset{}, s.requests, s1.requests);
    StoreEffect(OnHeap, s1, at, Parts(Address(NULL)));
    StoreWordHolds(s1, at, Address(NULL));
    SpanInside(at, WORD, at, HEADER);
    var t := StoreWord(s1, at, Address(NULL));
    EffectTwice(OnHeap, s, s1, t, at.block, iset{}, Span(at, WORD), Span(at, WORD), s1.requests, s1.requests);
    EffectTwice(OnHeap, s, s1, t, at.block, iset{}, Span(at, WORD), Span(at, HEADER), s1.requests, s1.requests);
  }

  lemma HeaderBelow(at: Ptr, s: State)
    requires Placed(InBuffer, s, at.block, Span(at, HEADER)) && at.block == UserBuffer
    ensures at.off + HEADER <= s.index
  {
    assert InSpan(at, HEADER, at.off + HEADER - 1);
    assert at.off + HEADER - 1 in Span(at, HEADER);
  }

  /** A request from the buffer: an aligned region, zero since the buffer was. */
  lemma BufferObtain(at: Ptr, size: nat, unit: nat, inner: Plan, s: State, fails: nat -> bool, hi: nat)
    requires Ready(InBuffer, s, hi) && Align(s.index) + size <= hi
    requires InBounds(s.mem, at, HEADER) && Placed(InBuffer, s, at.block, Span(at, HEADER))
    ensures var (t, q) := Obtain(CreatePreallocated, at, size, s, fails);
            && q == DataAt(InBuffer, s.index) && (at.block == q.block ==> at.off + HEADER <= q.off)
            && t.index == Align(s.index) + size
            && Effect(InBuffer, s, t, at.block, Span(at, HEADER), t.index)
            && Holds(t.mem, at, Address(q))
            && RegionAt(t.mem, InBuffer, q, size, inner, unit, 0, true)
  {
    var (s1, q) := Reserve(s, size);
    var t := StoreWord(s1, at, Address(q));
    assert Effect(InBuffer, s, s1, at.block, iset{}, s1.index);
    StoreEffect(InBuffer, s1, at, Parts(Address(q)));
    StoreWordHolds(s1, at, Address(q));
    SpanInside(at, WORD, at, HEADER);
    EffectTwice(InBuffer, s, s1, t, at.block, iset{}, Span(at, WORD), Span(at, HEADER), s1.index, s1.index);
    if at.block == UserBuffer { HeaderBelow(at, s); }
    forall o | q.off <= o < q.off + size ensures t.mem[UserBuffer][o] == Byte(0) {
      assert s.mem[UserBuffer][o] == Byte(0);
    }
  }

  lemma BufferAcquire(at: Ptr, capacity: nat, unit: nat, inner: Plan, s: State, fails: nat -> bool, hi: nat, size: nat)
    requires size == capacity * unit && Ready(InBuffer, s, hi) && Align(s.index) + size <= hi
    requires InBounds(s.mem, at, HEADER) && Placed(InBuffer, s, at.block, Span(at, HEADER))
    ensures var a := Acquire(CreatePreallocated, at, capacity, unit, s, fails);
            !a.aborted && Acquired(InBuffer, s, a.s, at, capacity, unit, inner, Align(s.index) + size)
  {
    BufferObtain(at, size, unit, inner, s, fails, hi);
    var (t, q) := Obtain(CreatePreallocated, at, size, s, fails);
    FinishAcquire(InBuffer, s, t, at, capacity, unit, inner, t.index);
  }

  // ------------------------------------------------------------ whole walks

  lemma NotOwned(mode: Mode, s: State, hi: nat, b: Block, foot: iset<int>, end: nat)
    requires Ready(mode, s, hi) && Placed(mode, s, b, foot)
    ensures forall o | o in foot :: !Owned(mode, b, o, Cursor(mode, s), end)
  {
  }

  /** What was set apart before a step is not touched by it. */
  lemma EffectKeeps(mode: Mode, s: State, t: State, b: Block, foot: iset<int>, end: nat, hi: nat,
                    d: Block, other: iset<int>, lo: nat, mid: nat)
    requires Effect(mode, s, t, b, foot, end) && Ready(mode, s, hi) && mid <= Cursor(mode, s)
    requires Placed(mode, s, d, other)
    requires forall o | o in foot :: !Owned(mode, b, o, lo, mid)
    requires d == b ==> foot !! other
    ensures Stable(s.mem, t.mem, mode, d, other, lo, mid)
  {
    NotOwned(mode, s, hi, d, other, Cursor(mode, t));
    PreservesKeeps(s.mem, t.mem, mode, b, foot, Cursor(mode, s), Cursor(mode, t), d, other, lo, mid);
  }

  /** The visit of one header in either create walk. */
  lemma AcquireEffect(mode: Mode, at: Ptr, capacity: nat, unit: nat, inner: Plan, s: State, fails: nat -> bool, hi: nat)
    requires Ready(mode, s, hi) && Next(mode, Cursor(mode, s), capacity * unit) <= hi
    requires InBounds(s.mem, at, HEADER) && Placed(mode, s, at.block, Span(at, HEADER))
    ensures var c := Cursor(mode, s);
            var next := Next(mode, c, capacity * unit);
            var a := Acquire(CreateOp(mode), at, capacity, unit, s, fails);
            && Effect(mode, s, a.s, at.block, Span(at, HEADER), next) && Cursor(mode, a.s) == next
            && (a.aborted ==> Failed(mode, fails, c, next))
            && (!a.aborted ==> Acquired(mode, s, a.s, at, capacity, unit, inner, next))
  {
    if mode.InBuffer? {
      BufferAcquire(at, capacity, unit, inner, s, fails, hi, capacity * unit);
    } else if fails(s.requests) {
      HeapRefused(at, capacity, unit, s, fails);
    } else {
      HeapAcquire(at, capacity, unit, inner, s, fails);
    }
  }

  lemma RegionAfterElements(mode: Mode, m: Memory, m': Memory, q: Ptr, size: nat, inner: Plan, unit: nat, count: nat,
                            lo: nat, hi: nat)
    requires RegionAt(m, mode, q, size, inner, unit, 0, true)
    requires Preserves(m, m', mode, q.block, FootOfElements(inner, q, unit, count), lo, hi)
    requires forall o | q.off <= o < q.off + size :: !Owned(mode, q.block, o, lo, hi)
    ensures RegionAt(m', mode, q, size, inner, unit, count, true)
  {
    forall o | q.off <= o < q.off + size && !CoversElements(inner, unit, count, o - q.off)
      ensures m'[q.block][o] == Byte(0)
    {
      assert !InElements(inner, q, unit, count, o);
      assert Kept(m, m', q.block, o);
    }
  }

  /** Where the elements of a freshly acquired slot go. */
  lemma RegionPlaced(mode: Mode, t: State, q: Ptr, c: nat, size: nat)
    requires q == DataAt(mode, c) && Cursor(mode, t) == Next(mode, c, size) && InBounds(t.mem, q, size)
    ensures Placed(mode, t, q.block, Span(q, size))
  {
  }

  /** What a create walk does to a slot, up to the cursor `mid`. */
  ghost predicate SlotResult(mode: Mode, s: State, v: Outcome, fails: nat -> bool, at: Ptr,
                             capacity: nat, unit: nat, count: nat, inner: Plan) {
    var c := Cursor(mode, s);
    var mid := AfterElements(mode, inner, count, Next(mode, c, capacity * unit));
    && Effect(mode, s, v.s, at.block, Span(at, HEADER), mid)
    && (v.aborted ==> Failed(mode, fails, c, Cursor(mode, v.s)))
    && (!Failed(mode, fails, c, Cursor(mode, v.s)) ==>
          Cursor(mode, v.s) == mid && SlotBuilt(mode, true, v.s.mem, at, capacity, unit, count, inner, c))
  }

  /** What a create walk does to elements `0..k` of the sequence whose data is at `q`. */
  ghost predicate ElementsResult(mode: Mode, s: State, e: Outcome, fails: nat -> bool,
                                 inner: Plan, q: Ptr, unit: nat, k: nat) {
    var c := Cursor(mode, s);
    var end := AfterElements(mode, inner, k, c);
    && Effect(mode, s, e.s, q.block, FootOfElements(inner, q, unit, k), end)
    && (!Failed(mode, fails, c, Cursor(mode, e.s)) ==>
          Cursor(mode, e.s) == end && ElementsBuilt(mode, true, e.s.mem, inner, q, unit, k, c))
  }

  /** What a create walk does to the message at `p`. */
  ghost predicate WalkResult(mode: Mode, s: State, out: Outcome, fails: nat -> bool, w: Plan, p: Ptr) {
    var c := Cursor(mode, s);
    var end := After(mode, w, c);
    && Effect(mode, s, out.s, p.block, Foot(w, p), end)
    && (out.aborted ==> Failed(mode, fails, c, Cursor(mode, out.s)))
    && (!Failed(mode, fails, c, Cursor(mode, out.s)) ==>
          Cursor(mode, out.s) == end && Built(mode, true, out.s.mem, w, p, c))
  }

  /** `at` holds the data pointer `q` of a sequence whose data lies elsewhere. */
  ghost predicate PointsTo(mode: Mode, s: State, at: Ptr, q: Ptr) {
    && Holds(s.mem, at, Address(q)) && Placed(mode, s, at.block, Span(at, WORD))
    && (at.block == q.block ==> at.off + WORD <= q.off)
  }

  lemma SlotElementsCreated(mode: Mode, at: Ptr, capacity: nat, unit: nat, count: nat, inner: Plan,
                            s: State, t: State, e: Outcome, fails: nat -> bool, hi: nat)
    requires count <= capacity && Within(inner, unit) && Separate(inner) && Ready(mode, s, hi) && Ready(mode, t, hi)
    requires Placed(mode, s, at.block, Span(at, HEADER))
    requires Acquired(mode, s, t, at, capacity, unit, inner, Next(mode, Cursor(mode, s), capacity * unit))
    requires ElementsResult(mode, t, e, fails, inner, DataAt(mode, Cursor(mode, s)), unit, count)
    ensures SlotResult(mode, s, e.(aborted := false), fails, at, capacity, unit, count, inner)
  {
    var c, size := Cursor(mode, s), capacity * unit;
    var next, q := Next(mode, c, size), DataAt(mode, c);
    var c2, foot := Cursor(mode, e.s), FootOfElements(inner, q, unit, count);
    FootInRegion(mode, capacity, unit, count, inner, c);
    PreservesInside(t.mem, e.s.mem, mode, q.block, foot, at.block, c, next, c2);
    PreservesTwice(s.mem, t.mem, e.s.mem, mode, at.block, Span(at, HEADER), c, next, iset{}, c, c2,
                   Span(at, HEADER), c, c2);
    if !Failed(mode, fails, c, c2) {
      assert !Failed(mode, fails, next, c2);
      RegionAfterElements(mode, t.mem, e.s.mem, q, size, inner, unit, count, next, c2);
      StaysPlaced(mode, s, t, at.block, Span(at, HEADER), next, at.block, Span(at, HEADER));
      HeaderApart(mode, s, at, size, foot, hi);
      EffectKeeps(mode, t, e.s, q.block, foot, AfterElements(mode, inner, count, next), hi,
                  at.block, Span(at, HEADER), c, c);
      HeaderStable(t.mem, e.s.mem, mode, at, q, capacity, true, c, c);
    }
  }

  /** A header set apart does not meet the region handed out next. */
  lemma HeaderApart(mode: Mode, s: State, at: Ptr, size: nat, foot: iset<int>, hi: nat)
    requires Ready(mode, s, hi) && Placed(mode, s, at.block, Span(at, HEADER))
    requires var q := DataAt(mode, Cursor(mode, s)); forall o | o in foot :: q.off <= o < q.off + size
    ensures var q := DataAt(mode, Cursor(mode, s));
            at.block == q.block ==> at.off + HEADER <= q.off && foot !! Span(at, HEADER)
  {
    var q := DataAt(mode, Cursor(mode, s));
    if at.block == q.block {
      assert InSpan(at, HEADER, at.off + HEADER - 1) && at.off + HEADER - 1 in Span(at, HEADER);
    }
  }

  lemma {:induction false} SlotCreated(mode: Mode, at: Ptr, capacity: nat, unit: nat, count: nat, inner: Plan,
                                       s: State, fails: nat -> bool, hi: nat)
    requires count <= capacity && Within(inner, unit) && Separate(inner) && Ready(mode, s, hi)
    requires AfterElements(mode, inner, count, Next(mode, Cursor(mode, s), capacity * unit)) <= hi
    requires InBounds(s.mem, at, HEADER) && Placed(mode, s, at.block, Span(at, HEADER))
    ensures SlotResult(mode, s, VisitSlot(CreateOp(mode), at, capacity, unit, count, inner, s, fails),
                       fails, at, capacity, unit, count, inner)
    decreases inner, 2, 0
  {
    AfterElementsGrow(mode, inner, count, Next(mode, Cursor(mode, s), capacity * unit));
    AcquireEffect(mode, at, capacity, unit, inner, s, fails, hi);
    var a := Acquire(CreateOp(mode), at, capacity, unit, s, fails);
    if !a.aborted {
      ServedSlotCreated(mode, at, capacity, unit, count, inner, s, a.s, fails, hi);
    }
  }

  lemma {:induction false} ServedSlotCreated(mode: Mode, at: Ptr, capacity: nat, unit: nat, count: nat, inner: Plan,
                                             s: State, t: State, fails: nat -> bool, hi: nat)
    requires count <= capacity && Within(inner, unit) && Separate(inner) && Ready(mode, s, hi)
    requires AfterElements(mode, inner, count, Next(mode, Cursor(mode, s), capacity * unit)) <= hi
    requires Placed(mode, s, at.block, Span(at, HEADER))
    requires Acquired(mode, s, t, at, capacity, unit, inner, Next(mode, Cursor(mode, s), capacity * unit))
    ensures SlotResult(mode, s, Elements(CreateOp(mode), inner, at, unit, count, t, fails).(aborted := false),
                       fails, at, capacity, unit, count, inner)
    decreases inner, 1, count + 1
  {
    ElementsReady(mode, at, capacity, unit, count, inner, s, t, hi, capacity * unit, count * unit);
    ElementsCreated(mode, inner, at, DataAt(mode, Cursor(mode, s)), unit, count, t, fails, hi);
    SlotElementsCreated(mode, at, capacity, unit, count, inner, s, t,
                        Elements(CreateOp(mode), inner, at, unit, count, t, fails), fails, hi);
  }

  /** A slot just acquired is ready for the walks of its elements. */
  lemma ElementsReady(mode: Mode, at: Ptr, capacity: nat, unit: nat, count: nat, inner: Plan,
                      s: State, t: State, hi: nat, size: nat, length: nat)
    requires size == capacity * unit && length == count * unit
    requires count <= capacity && Ready(mode, s, hi) && Placed(mode, s, at.block, Span(at, HEADER))
    requires Acquired(mode, s, t, at, capacity, unit, inner, Next(mode, Cursor(mode, s), size))
    ensures var q := DataAt(mode, Cursor(mode, s));
            Ready(mode, t, hi) && PointsTo(mode, t, at, q) && Placed(mode, t, q.block, Span(q, length))
  {
    var c := Cursor(mode, s);
    var next, q := Next(mode, c, size), DataAt(mode, c);
    StaysReady(mode, s, t, at.block, Span(at, HEADER), next, hi);
    HeaderApart(mode, s, at, 0, iset{}, hi);
    StaysPlaced(mode, s, t, at.block, Span(at, HEADER), next, at.block, Span(at, HEADER));
    SpanInside(at, WORD, at, HEADER);
    RegionPlaced(mode, t, q, c, size);
    MulMonotone(count, capacity, unit);
    SpanInside(q, length, q, size);
  }

  lemma PlacedLess(mode: Mode, s: State, b: Block, foot: iset<int>, less: iset<int>)
    requires Placed(mode, s, b, foot) && less <= foot
    ensures Placed(mode, s, b, less)
  {
  }

  lemma {:induction false} ElementsCreated(mode: Mode, inner: Plan, at: Ptr, q: Ptr, unit: nat, k: nat,
                                           s: State, fails: nat -> bool, hi: nat)
    requires Within(inner, unit) && Separate(inner) && Ready(mode, s, hi)
    requires AfterElements(mode, inner, k, Cursor(mode, s)) <= hi
    requires PointsTo(mode, s, at, q) && Placed(mode, s, q.block, Span(q, k * unit))
    ensures ElementsResult(mode, s, Elements(CreateOp(mode), inner, at, unit, k, s, fails), fails, inner, q, unit, k)
    decreases inner, 1, k
  {
    if k > 0 {
      var c := Cursor(mode, s);
      AfterGrows(mode, inner, AfterElements(mode, inner, k - 1, c));
      ElementFeet(inner, q, unit, k);
      PlacedLess(mode, s, q.block, Span(q, k * unit), Span(q, (k - 1) * unit));
      ElementsCreated(mode, inner, at, q, unit, k - 1, s, fails, hi);
      var e := Elements(CreateOp(mode), inner, at, unit, k - 1, s, fails);
      PointerKept(mode, inner, at, q, unit, k, s, e.s, AfterElements(mode, inner, k - 1, c), hi);
      PlacedLess(mode, e.s, q.block, Span(q, k * unit), Foot(inner, q.Plus((k - 1) * unit)));
      EndMonotoneAt(mode, inner, Cursor(mode, e.s), AfterElements(mode, inner, k - 1, c));
      WalkCreated(mode, inner, q.Plus((k - 1) * unit), e.s, fails, hi);
      ElementAdded(mode, inner, q, unit, k, s, e,
                   Run(CreateOp(mode), inner, q.Plus((k - 1) * unit), e.s, fails), fails, hi);
    }
  }

  lemma EndMonotoneAt(mode: Mode, w: Plan, b: nat, c: nat)
    requires b <= c
    ensures After(mode, w, b) <= After(mode, w, c)
  {
    EnlargesItself(w);
    EndMonotone(w, w, b, c);
  }

  /** After `k - 1` elements the data pointer of the sequence is still in its header. */
  lemma PointerKept(mode: Mode, inner: Plan, at: Ptr, q: Ptr, unit: nat, k: nat, s: State, t: State, end: nat, hi: nat)
    requires Within(inner, unit) && 0 < k && Ready(mode, s, hi)
    requires PointsTo(mode, s, at, q) && Placed(mode, s, q.block, Span(q, k * unit))
    requires Effect(mode, s, t, q.block, FootOfElements(inner, q, unit, k - 1), end)
    ensures LoadPtr(t, at) == (t, q)
    ensures Ready(mode, t, hi) && Placed(mode, t, q.block, Span(q, k * unit))
  {
    var foot, c := FootOfElements(inner, q, unit, k - 1), Cursor(mode, s);
    ElementFeet(inner, q, unit, k);
    PlacedLess(mode, s, q.block, Span(q, k * unit), foot);
    StaysReady(mode, s, t, q.block, foot, end, hi);
    StaysPlaced(mode, s, t, q.block, foot, end, q.block, Span(q, k * unit));
    if at.block == q.block {
      forall o | o in foot ensures o !in Span(at, WORD) {
        assert o in Span(q, k * unit) && InSpan(q, k * unit, o);
        assert !InSpan(at, WORD, o);
      }
    }
    EffectKeeps(mode, s, t, q.block, foot, end, hi, at.block, Span(at, WORD), c, c);
    WordStable(s.mem, t.mem, mode, at, Address(q), c, c);
  }

  /** One more element: the earlier ones stay as they were built. */
  lemma ElementAdded(mode: Mode, inner: Plan, q: Ptr, unit: nat, k: nat, s: State, e: Outcome, n: Outcome,
                     fails: nat -> bool, hi: nat)
    requires Within(inner, unit) && Separate(inner) && 0 < k && Ready(mode, s, hi) && Ready(mode, e.s, hi)
    requires Placed(mode, s, q.block, Span(q, k * unit))
    requires ElementsResult(mode, s, e, fails, inner, q, unit, k - 1)
    requires WalkResult(mode, e.s, n, fails, inner, q.Plus((k - 1) * unit))
    ensures ElementsResult(mode, s, n, fails, inner, q, unit, k)
  {
    var c, d, data := Cursor(mode, s), Cursor(mode, e.s), q.Plus((k - 1) * unit);
    var mid, end := AfterElements(mode, inner, k - 1, c), AfterElements(mode, inner, k, c);
    var feet := FootOfElements(inner, q, unit, k - 1);
    ElementFeet(inner, q, unit, k);
    EndMonotoneAt(mode, inner, d, mid);
    EffectTwice(mode, s, e.s, n.s, q.block, feet, Foot(inner, data), FootOfElements(inner, q, unit, k), mid, end);
    if !Failed(mode, fails, c, Cursor(mode, n.s)) {
      assert !Failed(mode, fails, c, d) && !Failed(mode, fails, d, Cursor(mode, n.s));
      NotOwned(mode, s, hi, q.block, Span(q, k * unit), d);
      StaysPlaced(mode, s, e.s, q.block, feet, mid, q.block, Span(q, k * unit));
      PlacedLess(mode, e.s, q.block, Span(q, k * unit), feet);
      EffectKeeps(mode, e.s, n.s, q.block, Foot(inner, data), end, hi, q.block, feet, c, d);
      ElementsStable(mode, true, e.s.mem, n.s.mem, inner, q, unit, k - 1, c);
    }
  }

  /** Main lemma: both create walks, whatever the heap allocator does. */
  lemma {:induction false} WalkCreated(mode: Mode, w: Plan, p: Ptr, s: State, fails: nat -> bool, hi: nat)
    requires Separate(w) && Ready(mode, s, hi) && After(mode, w, Cursor(mode, s)) <= hi
    requires Placed(mode, s, p.block, Foot(w, p))
    ensures WalkResult(mode, s, Run(CreateOp(mode), w, p, s, fails), fails, w, p)
    decreases w, 0, 0
  {
    match w
    case Done =>
    case Slot(off, capacity, unit, count, inner, rest) =>
      var c, at := Cursor(mode, s), p.Plus(off);
      var mid := AfterElements(mode, inner, count, Next(mode, c, capacity * unit));
      SlotAfter(mode, off, capacity, unit, count, inner, rest, c);
      SlotFeet(w, p);
      HeaderPlaced(mode, s, w, p);
      SlotCreated(mode, at, capacity, unit, count, inner, s, fails, hi);
      var v := VisitSlot(CreateOp(mode), at, capacity, unit, count, inner, s, fails);
      if v.aborted {
        EffectLess(mode, s, v.s, p.block, Span(at, HEADER), mid, Foot(w, p), After(mode, w, c));
      } else {
        PlacedLess(mode, s, p.block, Foot(w, p), Foot(rest, p));
        StaysReady(mode, s, v.s, p.block, Span(at, HEADER), mid, hi);
        StaysPlaced(mode, s, v.s, p.block, Span(at, HEADER), mid, p.block, Foot(w, p));
        EndMonotoneAt(mode, rest, Cursor(mode, v.s), mid);
        WalkCreated(mode, rest, p, v.s, fails, hi);
        SlotThenRest(mode, w, p, s, v, Run(CreateOp(mode), rest, p, v.s, fails), fails, hi);
      }
    case Inline(off, inner, rest) =>
      var c := Cursor(mode, s);
      var mid := After(mode, inner, c);
      InlineFeet(w, p);
      AfterGrows(mode, rest, mid);
      PlacedLess(mode, s, p.block, Foot(w, p), Foot(inner, p.Plus(off)));
      WalkCreated(mode, inner, p.Plus(off), s, fails, hi);
      var n := Run(CreateOp(mode), inner, p.Plus(off), s, fails);
      StaysReady(mode, s, n.s, p.block, Foot(inner, p.Plus(off)), mid, hi);
      StaysPlaced(mode, s, n.s, p.block, Foot(inner, p.Plus(off)), mid, p.block, Foot(w, p));
      PlacedLess(mode, n.s, p.block, Foot(w, p), Foot(rest, p));
      EndMonotoneAt(mode, rest, Cursor(mode, n.s), mid);
      WalkCreated(mode, rest, p, n.s, fails, hi);
      InlineThenRest(mode, w, p, s, n, Run(CreateOp(mode), rest, p, n.s, fails), fails, hi);
  }

  lemma HeaderPlaced(mode: Mode, s: State, w: Plan, p: Ptr)
    requires w.Slot? && Separate(w) && Placed(mode, s, p.block, Foot(w, p))
    ensures InBounds(s.mem, p.Plus(w.off), HEADER) && Placed(mode, s, p.block, Span(p.Plus(w.off), HEADER))
  {
    var at := p.Plus(w.off);
    SlotFeet(w, p);
    assert InSpan(at, HEADER, at.off + HEADER - 1) && at.off + HEADER - 1 in Span(at, HEADER);
    PlacedLess(mode, s, p.block, Foot(w, p), Span(at, HEADER));
  }

  lemma EffectLess(mode: Mode, s: State, t: State, b: Block, less: iset<int>, end': nat, foot: iset<int>, end: nat)
    requires Effect(mode, s, t, b, less, end') && less <= foot && end' <= end
    ensures Effect(mode, s, t, b, foot, end)
  {
    EffectTwice(mode, s, t, t, b, less, iset{}, foot, end', end);
  }

  /** A slot stays as built while the rest of its message is walked. */
  lemma SlotStays(mode: Mode, w: Plan, p: Ptr, s: State, v: State, r: State, end: nat, hi: nat)
    requires w.Slot? && Separate(w) && Ready(mode, s, hi) && Ready(mode, v, hi)
    requires Placed(mode, s, p.block, Foot(w, p)) && Placed(mode, v, p.block, Foot(w, p))
    requires var mid := AfterElements(mode, w.inner, w.count, Next(mode, Cursor(mode, s), w.capacity * w.unit));
             Cursor(mode, v) == mid && Effect(mode, v, r, p.block, Foot(w.rest, p), end)
    requires SlotBuilt(mode, true, v.mem, p.Plus(w.off), w.capacity, w.unit, w.count, w.inner, Cursor(mode, s))
    ensures SlotBuilt(mode, true, r.mem, p.Plus(w.off), w.capacity, w.unit, w.count, w.inner, Cursor(mode, s))
  {
    var c, d, at := Cursor(mode, s), Cursor(mode, v), p.Plus(w.off);
    SlotFeet(w, p);
    NotOwned(mode, s, hi, p.block, Foot(w, p), d);
    PlacedLess(mode, v, p.block, Foot(w, p), Span(at, HEADER));
    EffectKeeps(mode, v, r, p.block, Foot(w.rest, p), end, hi, p.block, Span(at, HEADER), c, d);
    SlotStable(mode, true, v.mem, r.mem, at, w.capacity, w.unit, w.count, w.inner, c);
  }

  lemma SlotThenRest(mode: Mode, w: Plan, p: Ptr, s: State, v: Outcome, r: Outcome, fails: nat -> bool, hi: nat)
    requires w.Slot? && Separate(w) && Ready(mode, s, hi) && Ready(mode, v.s, hi)
    requires Placed(mode, s, p.block, Foot(w, p)) && Placed(mode, v.s, p.block, Foot(w, p))
    requires SlotResult(mode, s, v, fails, p.Plus(w.off), w.capacity, w.unit, w.count, w.inner) && !v.aborted
    requires WalkResult(mode, v.s, r, fails, w.rest, p)
    ensures WalkResult(mode, s, Then(v.used, r), fails, w, p)
  {
    var c, d, at := Cursor(mode, s), Cursor(mode, v.s), p.Plus(w.off);
    var mid, end := AfterElements(mode, w.inner, w.count, Next(mode, c, w.capacity * w.unit)), After(mode, w, c);
    SlotAfter(mode, w.off, w.capacity, w.unit, w.count, w.inner, w.rest, c);
    SlotFeet(w, p);
    EndMonotoneAt(mode, w.rest, d, mid);
    EffectTwice(mode, s, v.s, r.s, p.block, Span(at, HEADER), Foot(w.rest, p), Foot(w, p), mid, end);
    if !Failed(mode, fails, c, Cursor(mode, r.s)) {
      assert !Failed(mode, fails, c, d) && !Failed(mode, fails, d, Cursor(mode, r.s));
      SlotStays(mode, w, p, s, v.s, r.s, end, hi);
    }
  }

  lemma InlineThenRest(mode: Mode, w: Plan, p: Ptr, s: State, n: Outcome, r: Outcome, fails: nat -> bool, hi: nat)
    requires w.Inline? && Separate(w) && Ready(mode, s, hi) && Ready(mode, n.s, hi)
    requires Placed(mode, s, p.block, Foot(w, p)) && Placed(mode, n.s, p.block, Foot(w, p))
    requires WalkResult(mode, s, n, fails, w.inner, p.Plus(w.off))
    requires WalkResult(mode, n.s, r, fails, w.rest, p)
    ensures WalkResult(mode, s, Then(n.used, r), fails, w, p)
  {
    var c, d, at := Cursor(mode, s), Cursor(mode, n.s), p.Plus(w.off);
    var mid, end := After(mode, w.inner, c), After(mode, w, c);
    InlineFeet(w, p);
    EndMonotoneAt(mode, w.rest, d, mid);
    EffectTwice(mode, s, n.s, r.s, p.block, Foot(w.inner, at), Foot(w.rest, p), Foot(w, p), mid, end);
    if !Failed(mode, fails, c, Cursor(mode, r.s)) {
      assert !Failed(mode, fails, c, d) && !Failed(mode, fails, d, Cursor(mode, r.s));
      NotOwned(mode, s, hi, p.block, Foot(w, p), d);
      PlacedLess(mode, n.s, p.block, Foot(w, p), Foot(w.inner, at));
      EffectKeeps(mode, n.s, r.s, p.block, Foot(w.rest, p), end, hi, p.block, Foot(w.inner, at), c, d);
      BuiltStable(mode, true, n.s.mem, r.s.mem, w.inner, at, c);
    }
  }
}
