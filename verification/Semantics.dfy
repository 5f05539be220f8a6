/** What each of the five walks does to memory, plan step by plan step. */
module Semantics {
  import opened Wrappers
  import opened Introspection
  import opened Plans
  import opened Layout
  import opened Store

  datatype Operation =
    | Create
    | CreatePreallocated
    | Destroy
    | CalculateSize
    | CalculateSizePreallocated

  predicate IsSizing(op: Operation) {
    op.CalculateSize? || op.CalculateSizePreallocated?
  }

  /** Memory, the two file-level variables of the bump allocator, the number of
      requests made to the heap allocator, and three records of a run: the
      regions handed out of the buffer, the blocks released, and whether
      anything outside live memory was read, written or released. */
  datatype State = State(
    mem: Memory,
    buffer: Ptr,
    index: nat,
    requests: nat,
    handed: seq<Region>,
    released: seq<Block>,
    fault: bool)

  /** The state after a step, the bytes it counts, and whether it gave up. */
  datatype Outcome = Outcome(s: State, used: nat, aborted: bool)

  ghost function StoreCells(s: State, p: Ptr, cells: seq<Cell>): State {
    if InBounds(s.mem, p, |cells|) then s.(mem := Put(s.mem, p, cells)) else s.(fault := true)
  }

  ghost function StoreWord(s: State, p: Ptr, w: Word): State {
    StoreCells(s, p, Parts(w))
  }

  ghost function LoadPtr(s: State, p: Ptr): (State, Ptr) {
    match ReadPtr(s.mem, p)
    case Some(q) => (s, q)
    case None => (s.(fault := true), NULL)
  }

  /** The heap allocator: request number `s.requests` fails or yields a new block. */
  ghost function Allocate(s: State, size: nat, fails: nat -> bool): (State, Ptr) {
    if fails(s.requests) then (s.(requests := s.requests + 1), NULL)
    else (s.(requests := s.requests + 1, mem := s.mem[HeapBlock(s.requests) := Fill(size, Undefined)]),
          Ptr(HeapBlock(s.requests), 0))
  }

  ghost function Deallocate(s: State, p: Ptr): State {
    if p == NULL then s
    else if p.block.HeapBlock? && p.off == 0 && p.block in s.mem then
      s.(mem := s.mem - {p.block}, released := s.released + [p.block])
    else s.(fault := true)
  }

  /** The bump allocator; with no buffer it only counts. */
  ghost function Reserve(s: State, size: nat): (State, Ptr) {
    var start := Align(s.index);
    (s.(index := start + size, handed := s.handed + [Region(start, size)]),
     if s.buffer == NULL then NULL else s.buffer.Plus(start))
  }

  /** The data pointer of the header at `at` was set; now its size and capacity. */
  ghost function FinishHeader(s: State, at: Ptr, capacity: nat): State {
    StoreWord(StoreWord(s, at.Plus(WORD), Number(0)), at.Plus(2 * WORD), Number(capacity))
  }

  /** A create walk's request for `size` bytes: the pointer obtained is stored
      at `at`, and a new heap block is set to zero. */
  ghost function Obtain(op: Operation, at: Ptr, size: nat, s: State, fails: nat -> bool): (State, Ptr) {
    if op.Create? then
      var (s1, q) := Allocate(s, size, fails);
      var s2 := StoreWord(s1, at, Address(q));
      (if q == NULL then s2 else StoreCells(s2, q, Fill(size, Byte(0))), q)
    else
      var (s1, q) := Reserve(s, size);
      (StoreWord(s1, at, Address(q)), q)
  }

  /** The visit of one header, before its elements. */
  ghost function Acquire(op: Operation, at: Ptr, capacity: nat, unit: nat, s: State, fails: nat -> bool): Outcome {
    var size := capacity * unit;
    if op.Create? || op.CreatePreallocated? then
      var (s1, q) := Obtain(op, at, size, s, fails);
      if q == NULL then Outcome(s1, 0, true)
      else Outcome(FinishHeader(s1, at, capacity), if op.Create? then size else s1.index - s.index, false)
    else if op.CalculateSizePreallocated? then
      var (s1, _) := Reserve(s, size);
      Outcome(s1, s1.index - s.index, false)
    else
      Outcome(s, size, false)
  }

  /** The visit of one header, after its elements. */
  ghost function Release(op: Operation, at: Ptr, s: State): State {
    if op.Destroy? then
      var (s1, q) := LoadPtr(s, at);
      var s2 := Deallocate(s1, q);
      StoreWord(StoreWord(s2, at.Plus(WORD), Number(0)), at.Plus(2 * WORD), Number(0))
    else s
  }

  /** The visit of one header and of the messages in its data. */
  ghost function VisitSlot(op: Operation, at: Ptr, capacity: nat, unit: nat, count: nat, inner: Plan,
                           s: State, fails: nat -> bool): Outcome
    decreases inner, 2, 0
  {
    var a := Acquire(op, at, capacity, unit, s, fails);
    if a.aborted then a
    else
      var e := Elements(op, inner, at, unit, count, a.s, fails);
      Outcome(Release(op, at, e.s), a.used + e.used, false)
  }

  /** The visits of elements `0..k` of the sequence whose header is at `at`. */
  ghost function Elements(op: Operation, inner: Plan, at: Ptr, unit: nat, k: nat,
                          s: State, fails: nat -> bool): Outcome
    decreases inner, 1, k
  {
    if k == 0 then Outcome(s, 0, false)
    else
      var e := Elements(op, inner, at, unit, k - 1, s, fails);
      var (s1, q) := if IsSizing(op) then (e.s, NULL) else LoadPtr(e.s, at);
      var data := if IsSizing(op) then NULL else q.Plus((k - 1) * unit);
      var n := Run(op, inner, data, s1, fails);
      Outcome(n.s, e.used + n.used, false)
  }

  /** What one visit adds to the rest of its message's walk. */
  ghost function Then(used: nat, out: Outcome): Outcome {
    if out.aborted then out else out.(used := used + out.used)
  }

  /** A whole walk over the plan of the message at `p`.  When a request fails
      the walk of that message stops and counts nothing; the walk of the
      message that contains it goes on. */
  ghost function Run(op: Operation, w: Plan, p: Ptr, s: State, fails: nat -> bool): Outcome
    decreases w, 0, 0
  {
    match w
    case Done => Outcome(s, 0, false)
    case Slot(off, capacity, unit, count, inner, rest) =>
      var v := VisitSlot(op, p.Plus(off), capacity, unit, count, inner, s, fails);
      if v.aborted then v else Then(v.used, Run(op, rest, p, v.s, fails))
    case Inline(off, inner, rest) =>
      var n := Run(op, inner, p.Plus(off), s, fails);
      Then(n.used, Run(op, rest, p, n.s, fails))
  }
}
