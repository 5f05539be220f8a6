/** What the public operations promise, for every type, configuration, memory
    and behaviour of the heap allocator. */
module Guarantees {
  import opened Introspection
  import opened MemoryRules
  import opened Plans
  import opened Costs
  import opened Messages
  import opened Layout
  import opened Store
  import opened Semantics
  import opened Sizes
  import opened Ownership
  import opened Creation
  import opened Destruction
  import opened Recovery
  import opened TypeUtilities

  // ----------------------------------------------------- nothing to allocate

  /** A type without strings and unbounded arrays, at any depth: no walk does
      anything, the sizes are 0, and create and destroy only clear the message. */
  lemma PlainTypeUntouched(mm: MessageMembers, p: Ptr, conf: Conf, op: Operation, s: State, fails: nat -> bool)
    requires ValidIds(mm) && Plain(mm)
    ensures Run(op, ConfiguredPlan(mm, conf), p, s, fails) == Outcome(s, 0, false)
    ensures Size(ConfiguredPlan(mm, conf)) == 0 && MeasureStatic(mm, conf, s, fails).used == 0
    ensures CreateMessage(mm, p, conf, s, fails) == (ClearMessage(s, p, mm.sizeOf), true)
    ensures DestroyMessage(mm, p, conf, s, fails) == (ClearMessage(s, p, mm.sizeOf), true)
  {
    var plan, clear := ConfiguredPlan(mm, conf), ClearMessage(s, p, mm.sizeOf);
    PlainAsksNothing(mm, 0, Configured(conf), "");
    NothingToWalk(op, plan, p, s, fails);
    NothingToWalk(Create, plan, p, clear, fails);
    NothingToWalk(Destroy, plan, p, s, fails);
    NothingToWalk(CalculateSizePreallocated, plan, NULL, s.(buffer := NULL, index := 0), fails);
    DynamicSizeWalk(plan, p, s, fails);
    NothingToWalk(CalculateSize, plan, p, s, fails);
  }

  // ------------------------------------------------------------------- heap

  /** A create on the heap that tells the truth about its requests. */
  ghost predicate HonestCreate(mm: MessageMembers, p: Ptr, conf: Conf, s: State, fails: nat -> bool)
    requires ValidIds(mm)
  {
    var (t, ok) := CreateMessage(mm, p, conf, s, fails);
    ok <==> NoneFail(fails, s.requests, t.requests)
  }

  /** The same whatever the allocator does. */
  ghost predicate ReportsFailures(mm: MessageMembers, p: Ptr, conf: Conf, s: State)
    requires ValidIds(mm)
  {
    forall fails: nat -> bool :: HonestCreate(mm, p, conf, s, fails)
  }

  /** The result of create tells whether a request failed, whatever the
      allocator does, exactly when every message, at every depth, that has a string
      or an unbounded array asks for some bytes. */
  lemma CreateReportsFailures(mm: MessageMembers, p: Ptr, conf: Conf, s: State)
    requires ValidIds(mm)
    ensures ReportsFailures(mm, p, conf, s) <==> Charged(ConfiguredPlan(mm, conf))
    ensures ReportsFailures(mm, p, conf, s) <==> Accountable(mm, conf, "")
  {
    ChargedType(mm, conf, "");
    var plan, start := ConfiguredPlan(mm, conf), ClearMessage(s, p, mm.sizeOf);
    FailureDetectionExact(plan, p, start);
    assert forall fails: nat -> bool :: HonestCreate(mm, p, conf, s, fails) <==> Honest(plan, p, start, fails);
  }

  /** In particular when no rule asks for zero units. */
  lemma PositiveRulesReportFailures(mm: MessageMembers, p: Ptr, conf: Conf, s: State, fails: nat -> bool)
    requires ValidIds(mm) && SizedType(mm) && forall k | 0 <= k < |conf.rules| :: 0 < conf.rules[k].size
    ensures HonestCreate(mm, p, conf, s, fails)
  {
    PlanIsPositive(mm, 0, Configured(conf), "");
    PositiveIsCharged(ConfiguredPlan(mm, conf));
    CreateReportsFailures(mm, p, conf, s);
  }

  /** The caller's side: a live message of the right size and sound memory. */
  ghost predicate CanCreate(mm: MessageMembers, p: Ptr, s: State) {
    ValidIds(mm) && WellFormed(mm) && InBounds(s.mem, p, mm.sizeOf) && Ready(OnHeap, s, s.requests)
  }

  /** The footprint of a plan lies in its message. */
  lemma MessageCovers(mm: MessageMembers, p: Ptr, conf: Conf)
    requires ValidIds(mm) && WellFormed(mm)
    ensures var plan := ConfiguredPlan(mm, conf); Separate(plan) && Foot(plan, p) <= Span(p, mm.sizeOf)
  {
    var plan := ConfiguredPlan(mm, conf);
    PlanIsSeparate(mm, 0, Configured(conf), "");
    forall o | o in Foot(plan, p) ensures o in Span(p, mm.sizeOf) {
      assert InFoot(plan, p, o) && Covers(plan, o - p.off);
      assert InSpan(p, mm.sizeOf, o);
    }
  }

  /** A message that was cleared and then changed in its headers only. */
  lemma UncoveredStaysZero(mode: Mode, mm: MessageMembers, p: Ptr, conf: Conf, s: State, m: Memory, m': Memory,
                           lo: nat, hi: nat)
    requires ValidIds(mm) && InBounds(s.mem, p, mm.sizeOf) && m == ClearMessage(s, p, mm.sizeOf).mem
    requires Preserves(m, m', mode, p.block, Foot(ConfiguredPlan(mm, conf), p), lo, hi)
    requires forall o: int :: 0 <= o < |s.mem[p.block]| ==> !Owned(mode, p.block, o, lo, hi)
    ensures ZeroElsewhere(m', mm, p)
  {
    var plan := ConfiguredPlan(mm, conf);
    forall o | p.off <= o < p.off + mm.sizeOf && !HeaderByte(mm, 0, o - p.off) ensures m'[p.block][o] == Byte(0) {
      PlanCovers(mm, 0, Configured(conf), "", o - p.off);
      assert !InFoot(plan, p, o);
      assert Kept(m, m', p.block, o);
    }
  }

  /** Create on the heap: whatever the allocator does there is no stray access
      and only the message and new blocks change; the message is zero outside its
      headers.  When no request fails it succeeds, with as many requests as the type
      asks for, and the message is a created one, every header at every depth
      describing its own region. */
  lemma CreateBuilds(mm: MessageMembers, p: Ptr, conf: Conf, s: State, fails: nat -> bool)
    requires CanCreate(mm, p, s)
    ensures var plan := ConfiguredPlan(mm, conf);
            var (t, ok) := CreateMessage(mm, p, conf, s, fails);
            && t == s.(mem := t.mem, requests := t.requests)
            && Preserves(s.mem, t.mem, OnHeap, p.block, Span(p, mm.sizeOf), s.requests, t.requests)
            && ZeroElsewhere(t.mem, mm, p)
            && (NoneFail(fails, s.requests, t.requests) ==>
                  && ok && t.requests == After(OnHeap, plan, s.requests) == s.requests + Asks(mm, 0, conf, "")
                  && Created(t.mem, mm, 0, conf, "", p)
                  && Built(OnHeap, true, t.mem, plan, p, s.requests))
  {
    var plan, start := ConfiguredPlan(mm, conf), ClearMessage(s, p, mm.sizeOf);
    MessageCovers(mm, p, conf);
    StoreEffect(OnHeap, s, p, Fill(mm.sizeOf, Byte(0)));
    assert forall o | o in Foot(plan, p) :: o in Span(p, mm.sizeOf) && InSpan(p, mm.sizeOf, o);
    WalkCreated(OnHeap, plan, p, start, fails, After(OnHeap, plan, s.requests));
    FrameDetects(plan, p, start, fails);
    var t := Run(Create, plan, p, start, fails).s;
    EffectTwice(OnHeap, s, start, t, p.block, Span(p, mm.sizeOf), Foot(plan, p),
                Span(p, mm.sizeOf), s.requests, After(OnHeap, plan, s.requests));
    UncoveredStaysZero(OnHeap, mm, p, conf, s, start.mem, t.mem, s.requests, t.requests);
    if NoneFail(fails, s.requests, t.requests) {
      PlanCosts(mm, 0, conf, "");
      BuiltIsCreated(OnHeap, t.mem, mm, 0, conf, "", p, s.requests);
    }
  }

  /** Destroy: on a message created with the same configuration and used since in
      any way that leaves the data pointers alone, it succeeds without a stray
      access; exactly the blocks of the message disappear, each released once;
      the message is zero; nothing else changes. */
  lemma DestroyReleases(mm: MessageMembers, p: Ptr, conf: Conf, s: State, c: nat, fails: nat -> bool)
    requires ValidIds(mm) && WellFormed(mm) && InBounds(s.mem, p, mm.sizeOf)
    requires Built(OnHeap, false, s.mem, ConfiguredPlan(mm, conf), p, c)
    requires p.block.HeapBlock? ==> p.block.request < c
    ensures var plan := ConfiguredPlan(mm, conf);
            var (t, ok) := DestroyMessage(mm, p, conf, s, fails);
            && ok && t == s.(mem := t.mem, released := s.released + ReleaseOrder(plan, c))
            && Lists(ReleaseOrder(plan, c), c, After(OnHeap, plan, c))
            && Drops(s.mem, t.mem, p.block, Span(p, mm.sizeOf), c, After(OnHeap, plan, c))
            && forall o | p.off <= o < p.off + mm.sizeOf :: t.mem[p.block][o] == Byte(0)
  {
    var plan := ConfiguredPlan(mm, conf);
    var end := After(OnHeap, plan, c);
    MessageCovers(mm, p, conf);
    WalkDestroyed(plan, p, s, c, fails);
    DestroySize(plan, p, s, fails);
    ReleasedOnce(plan, c);
    ClearedAfterDrops(s, Run(Destroy, plan, p, s, fails).s, p, mm.sizeOf, Foot(plan, p), c, end);
  }

  /** A message just created may be destroyed. */
  lemma {:induction false} PristineIsBuilt(mode: Mode, m: Memory, w: Plan, p: Ptr, c: nat)
    requires Built(mode, true, m, w, p, c)
    ensures Built(mode, false, m, w, p, c)
    decreases w, 0, 0
  {
    match w
    case Done =>
    case Slot(off, capacity, unit, count, inner, rest) =>
      var next := Next(mode, c, capacity * unit);
      PristineElements(mode, m, inner, DataAt(mode, c), unit, count, next);
      PristineIsBuilt(mode, m, rest, p, AfterElements(mode, inner, count, next));
    case Inline(off, inner, rest) =>
      PristineIsBuilt(mode, m, inner, p.Plus(off), c);
      PristineIsBuilt(mode, m, rest, p, After(mode, inner, c));
  }

  lemma {:induction false} PristineElements(mode: Mode, m: Memory, inner: Plan, q: Ptr, unit: nat, k: nat, c: nat)
    requires ElementsBuilt(mode, true, m, inner, q, unit, k, c)
    ensures ElementsBuilt(mode, false, m, inner, q, unit, k, c)
    decreases inner, 1, k
  {
    if 0 < k {
      PristineElements(mode, m, inner, q, unit, k - 1, c);
      PristineIsBuilt(mode, m, inner, q.Plus((k - 1) * unit), AfterElements(mode, inner, k - 1, c));
    }
  }

  /** Create and then destroy with the same configuration: memory is what it was
      with the message zeroed, block for block and byte for byte. */
  lemma CreateThenDestroy(mm: MessageMembers, p: Ptr, conf: Conf, s: State, fails: nat -> bool)
    requires CanCreate(mm, p, s)
    requires NoneFail(fails, s.requests, CreateMessage(mm, p, conf, s, fails).0.requests)
    ensures var (t, created) := CreateMessage(mm, p, conf, s, fails);
            var (u, destroyed) := DestroyMessage(mm, p, conf, t, fails);
            && created && destroyed && u.fault == s.fault
            && u.mem == ClearMessage(s, p, mm.sizeOf).mem
  {
    var plan, c := ConfiguredPlan(mm, conf), s.requests;
    var t := CreateMessage(mm, p, conf, s, fails).0;
    var u := DestroyMessage(mm, p, conf, t, fails).0;
    CreateBuilds(mm, p, conf, s, fails);
    PristineIsBuilt(OnHeap, t.mem, plan, p, c);
    DestroyReleases(mm, p, conf, t, c, fails);
    SameAgain(s.mem, t.mem, u.mem, p, mm.sizeOf, c, t.requests);
  }

  /** Blocks added and dropped again, the message zeroed, the rest untouched. */
  lemma SameAgain(m: Memory, m1: Memory, m2: Memory, p: Ptr, n: nat, lo: nat, hi: nat)
    requires InBounds(m, p, n) && forall r: nat | HeapBlock(r) in m :: r < lo
    requires Preserves(m, m1, OnHeap, p.block, Span(p, n), lo, hi) && Drops(m1, m2, p.block, Span(p, n), lo, hi)
    requires InBounds(m2, p, n) && forall o | p.off <= o < p.off + n :: m2[p.block][o] == Byte(0)
    ensures m2 == Put(m, p, Fill(n, Byte(0)))
  {
    var z := Put(m, p, Fill(n, Byte(0)));
    assert forall d :: d in m2 <==> d in z;
    forall d | d in m2 ensures m2[d] == z[d] {
      forall o | 0 <= o < |m2[d]| ensures m2[d][o] == z[d][o] {
        if !(d == p.block && o in Span(p, n)) {
          assert d == p.block ==> !InSpan(p, n, o);
          assert Kept(m, m1, d, o) && Kept(m1, m2, d, o);
        } else {
          assert InSpan(p, n, o);
        }
      }
    }
  }

  /** Create and then destroy, whatever the allocator does in between: destroy
      returns true.  It makes a stray access exactly when create left NULL the data
      pointer of a sequence whose elements have headers; otherwise memory is what
      it was, with the message zeroed. */
  lemma DestroyAfterCreate(mm: MessageMembers, p: Ptr, conf: Conf, s: State, fails: nat -> bool)
    requires CanCreate(mm, p, s) && NoBlock !in s.mem
    ensures var (t, created) := CreateMessage(mm, p, conf, s, fails);
            var (u, destroyed) := DestroyMessage(mm, p, conf, t, fails);
            && destroyed
            && if Shallow(t.mem, ConfiguredPlan(mm, conf), p)
               then u.fault == s.fault && u.mem == ClearMessage(s, p, mm.sizeOf).mem
               else u.fault
  {
    var plan, start := ConfiguredPlan(mm, conf), ClearMessage(s, p, mm.sizeOf);
    var t := CreateMessage(mm, p, conf, s, fails).0;
    var u := Run(Destroy, plan, p, t, fails).s;
    CreateBuilds(mm, p, conf, s, fails);
    CreateLeaves(mm, p, conf, s, fails);
    MessageCovers(mm, p, conf);
    WalkCleaned(plan, p, t, s.requests, t.requests, fails);
    DestroySize(plan, p, t, fails);
    if Shallow(t.mem, plan, p) {
      ClearedAfterDrops(t, u, p, mm.sizeOf, Foot(plan, p), s.requests, t.requests);
      SameAgain(s.mem, t.mem, ClearMessage(u, p, mm.sizeOf).mem, p, mm.sizeOf, s.requests, t.requests);
    }
  }

  /** What create leaves in memory, whichever requests failed. */
  lemma CreateLeaves(mm: MessageMembers, p: Ptr, conf: Conf, s: State, fails: nat -> bool)
    requires CanCreate(mm, p, s)
    ensures var t := CreateMessage(mm, p, conf, s, fails).0;
            s.requests <= t.requests && Left(t.mem, ConfiguredPlan(mm, conf), p, s.requests, t.requests)
  {
    var plan, start := ConfiguredPlan(mm, conf), ClearMessage(s, p, mm.sizeOf);
    MessageCovers(mm, p, conf);
    StoreEffect(OnHeap, s, p, Fill(mm.sizeOf, Byte(0)));
    assert forall o | o in Foot(plan, p) :: o in Span(p, mm.sizeOf) && InSpan(p, mm.sizeOf, o);
    WalkLeaves(plan, p, start, fails);
  }

  /** The message cleared after its blocks are gone. */
  lemma ClearedAfterDrops(s: State, u: State, p: Ptr, n: nat, foot: iset<int>, lo: nat, hi: nat)
    requires InBounds(s.mem, p, n) && foot <= Span(p, n) && (p.block.HeapBlock? ==> p.block.request < lo)
    requires Drops(s.mem, u.mem, p.block, foot, lo, hi)
    ensures var t := ClearMessage(u, p, n);
            && t == u.(mem := t.mem) && InBounds(t.mem, p, n)
            && Drops(s.mem, t.mem, p.block, Span(p, n), lo, hi)
            && forall o | p.off <= o < p.off + n :: t.mem[p.block][o] == Byte(0)
  {
    var t := ClearMessage(u, p, n);
    forall d, o: int | d in t.mem && !(d == p.block && o in Span(p, n)) ensures Kept(u.mem, t.mem, d, o) {
      assert d == p.block ==> !InSpan(p, n, o);
    }
    assert Drops(u.mem, t.mem, p.block, Span(p, n), hi, hi);
    DropsTwice(s.mem, u.mem, t.mem, p.block, foot, Span(p, n), Span(p, n), lo, hi, hi);
  }

  /** Create and then destroy restore memory without a stray access. */
  ghost predicate Recovers(mm: MessageMembers, p: Ptr, conf: Conf, s: State, fails: nat -> bool)
    requires ValidIds(mm)
  {
    var t := CreateMessage(mm, p, conf, s, fails).0;
    var u := DestroyMessage(mm, p, conf, t, fails).0;
    !u.fault && u.mem == ClearMessage(s, p, mm.sizeOf).mem
  }

  ghost predicate AlwaysRecovers(mm: MessageMembers, p: Ptr, conf: Conf, s: State)
    requires ValidIds(mm)
  {
    forall fails: nat -> bool :: Recovers(mm, p, conf, s, fails)
  }

  /** They do so for every allocator exactly when no visited sequence has
      elements with a string or an unbounded array in them. */
  lemma RecoveryExact(mm: MessageMembers, p: Ptr, conf: Conf, s: State)
    requires CanCreate(mm, p, s) && NoBlock !in s.mem && !s.fault
    ensures AlwaysRecovers(mm, p, conf, s) <==> Flat(ConfiguredPlan(mm, conf))
    ensures AlwaysRecovers(mm, p, conf, s) <==> FlatType(mm, 0, conf, "")
  {
    FlatPlan(mm, 0, conf, "");
    var plan := ConfiguredPlan(mm, conf);
    if Flat(plan) {
      forall fails: nat -> bool ensures Recovers(mm, p, conf, s, fails) {
        DestroyAfterCreate(mm, p, conf, s, fails);
        FlatIsShallow(CreateMessage(mm, p, conf, s, fails).0.mem, plan, p);
      }
    } else {
      var fails: nat -> bool := _ => true;
      var t := CreateMessage(mm, p, conf, s, fails).0;
      AllRefused(plan, p, ClearMessage(s, p, mm.sizeOf), fails);
      NothingGained(mm, p, conf, s, fails);
      assert !Recovers(mm, p, conf, s, fails);
    }
  }

  /** Where create gained no block, destroy on a plan that is not flat goes astray, and returns true. */
  lemma NothingGained(mm: MessageMembers, p: Ptr, conf: Conf, s: State, fails: nat -> bool)
    requires CanCreate(mm, p, s) && NoBlock !in s.mem && !Flat(ConfiguredPlan(mm, conf))
    requires CreateMessage(mm, p, conf, s, fails).0.mem.Keys == s.mem.Keys
    ensures var (u, destroyed) := DestroyMessage(mm, p, conf, CreateMessage(mm, p, conf, s, fails).0, fails);
            u.fault && destroyed
  {
    var plan, t := ConfiguredPlan(mm, conf), CreateMessage(mm, p, conf, s, fails).0;
    CreateLeaves(mm, p, conf, s, fails);
    EmptyHanded(t.mem, plan, p, s.requests, t.requests);
    DestroyAfterCreate(mm, p, conf, s, fails);
  }

  /** Destroying a zeroed message, one destroyed before, say: it returns true, and
      leaves memory as it was exactly for the types that always recover; for the
      others it goes astray. */
  lemma DestroyZeroed(mm: MessageMembers, p: Ptr, conf: Conf, s: State, fails: nat -> bool)
    requires ValidIds(mm) && WellFormed(mm) && InBounds(s.mem, p, mm.sizeOf) && NoBlock !in s.mem
    requires forall o | p.off <= o < p.off + mm.sizeOf :: s.mem[p.block][o] == Byte(0)
    ensures var (u, destroyed) := DestroyMessage(mm, p, conf, s, fails);
            && destroyed
            && if FlatType(mm, 0, conf, "") then u.fault == s.fault && u.mem == s.mem else u.fault
  {
    var plan := ConfiguredPlan(mm, conf);
    var n := if p.block.HeapBlock? then p.block.request + 1 else 0;
    MessageCovers(mm, p, conf);
    assert Blank(s.mem, p.block, Foot(plan, p)) by {
      assert forall o | o in Foot(plan, p) :: o in Span(p, mm.sizeOf) && InSpan(p, mm.sizeOf, o);
    }
    BlankIsLeft(s.mem, plan, p, n, n);
    WalkCleaned(plan, p, s, n, n, fails);
    DestroySize(plan, p, s, fails);
    FlatPlan(mm, 0, conf, "");
    if FlatType(mm, 0, conf, "") {
      FlatIsShallow(s.mem, plan, p);
      var out := Run(Destroy, plan, p, s, fails).s;
      ClearedAfterDrops(s, out, p, mm.sizeOf, Foot(plan, p), n, n);
      ZeroAgain(s.mem, ClearMessage(out, p, mm.sizeOf).mem, p, mm.sizeOf, n);
    } else {
      EmptyHanded(s.mem, plan, p, n, n);
    }
  }

  lemma ZeroAgain(m: Memory, m': Memory, p: Ptr, n: nat, c: nat)
    requires InBounds(m, p, n) && InBounds(m', p, n) && Drops(m, m', p.block, Span(p, n), c, c)
    requires forall o | p.off <= o < p.off + n :: m[p.block][o] == Byte(0) && m'[p.block][o] == Byte(0)
    ensures m' == m
  {
    forall d | d in m ensures m'[d] == m[d] {
      forall o | 0 <= o < |m[d]| ensures m'[d][o] == m[d][o] {
        if d == p.block && o in Span(p, n) {
          assert InSpan(p, n, o);
        } else {
          assert Kept(m, m', d, o);
        }
      }
    }
  }

  // ------------------------------------------------------------ user buffer

  /** Create in a buffer succeeds exactly when the static size fits, and otherwise
      leaves memory alone.  The sizing walk and the real one hand out the same
      regions in the same order. */
  lemma StaticSucceedsWhenItFits(mm: MessageMembers, p: Ptr, conf: Conf, buffer: Ptr, len: nat,
                                 s: State, fails: nat -> bool)
    requires ValidIds(mm) && buffer != NULL
    ensures var size := MeasureStatic(mm, conf, s, fails).used;
            var regions := Regions(ConfiguredPlan(mm, conf), 0);
            var (t, ok) := CreateStatic(mm, p, conf, buffer, len, s, fails);
            && size == End(ConfiguredPlan(mm, conf), 0)
            && (ok <==> size <= len)
            && t.buffer == (if ok then buffer else NULL) && t.index == size && t.requests == s.requests
            && (!ok ==> t.mem == s.mem)
            && t.handed == s.handed + regions + if ok then regions else []
  {
    var plan := ConfiguredPlan(mm, conf);
    var m := MeasureStatic(mm, conf, s, fails);
    StaticWalk(CalculateSizePreallocated, plan, NULL, s.(buffer := NULL, index := 0), fails);
    if m.used <= len {
      var s1 := StoreCells(m.s, buffer, Fill(m.used, Byte(0)));
      StaticWalk(CreatePreallocated, plan, p, ClearMessage(s1.(buffer := buffer, index := 0), p, mm.sizeOf), fails);
    }
  }

  /** With NULL for a buffer, create in a buffer succeeds exactly when the static size is 0. */
  lemma NoBufferFails(mm: MessageMembers, p: Ptr, conf: Conf, len: nat, s: State, fails: nat -> bool)
    requires ValidIds(mm)
    ensures CreateStatic(mm, p, conf, NULL, len, s, fails).1 <==> End(ConfiguredPlan(mm, conf), 0) == 0
  {
    var plan := ConfiguredPlan(mm, conf);
    var m := MeasureStatic(mm, conf, s, fails);
    StaticWalk(CalculateSizePreallocated, plan, NULL, s.(buffer := NULL, index := 0), fails);
    if m.used <= len {
      var s1 := StoreCells(m.s, NULL, Fill(m.used, Byte(0)));
      NoBufferWalk(plan, p, ClearMessage(s1.(buffer := NULL, index := 0), p, mm.sizeOf), fails);
    }
  }

  /** A user's buffer of `len` bytes and a message outside it. */
  ghost predicate CanCreateStatic(mm: MessageMembers, p: Ptr, len: nat, s: State) {
    && ValidIds(mm) && WellFormed(mm)
    && InBounds(s.mem, p, mm.sizeOf) && InBounds(s.mem, Ptr(UserBuffer, 0), len) && p.block != UserBuffer
  }

  /** Create in a buffer.  One that succeeds: no stray access, aligned disjoint
      regions inside the static size, a created message, every header at every depth
      describing its own region, the rest of the message zero; only the message and
      that part of the buffer change.  One that does not changes no memory. */
  lemma StaticBuilds(mm: MessageMembers, p: Ptr, conf: Conf, len: nat, s: State, fails: nat -> bool)
    requires CanCreateStatic(mm, p, len, s)
    ensures var plan := ConfiguredPlan(mm, conf);
            var (t, ok) := CreateStatic(mm, p, conf, Ptr(UserBuffer, 0), len, s, fails);
            && Chain(Regions(plan, 0), 0, End(plan, 0))
            && t == s.(mem := t.mem, buffer := t.buffer, index := t.index, handed := t.handed)
            && (ok ==>
                  && Built(InBuffer, true, t.mem, plan, p, 0)
                  && ZeroElsewhere(t.mem, mm, p) && Created(t.mem, mm, 0, conf, "", p)
                  && Preserves(s.mem, t.mem, InBuffer, p.block, Span(p, mm.sizeOf), 0, End(plan, 0)))
            && (!ok ==> t.mem == s.mem)
  {
    var plan, buffer := ConfiguredPlan(mm, conf), Ptr(UserBuffer, 0);
    var end, span := End(plan, 0), Span(p, mm.sizeOf);
    LayoutSound(plan, 0);
    StaticSucceedsWhenItFits(mm, p, conf, buffer, len, s, fails);
    StaticWalk(CalculateSizePreallocated, plan, NULL, s.(buffer := NULL, index := 0), fails);
    if end <= len {
      var m := MeasureStatic(mm, conf, s, fails).s;
      var s1 := StoreCells(m, buffer, Fill(end, Byte(0))).(buffer := buffer, index := 0);
      var s2 := ClearMessage(s1, p, mm.sizeOf);
      BufferCleared(m, buffer, end, p, mm.sizeOf);
      MessageCovers(mm, p, conf);
      assert forall o | o in Foot(plan, p) :: o in span && InSpan(p, mm.sizeOf, o);
      WalkCreated(InBuffer, plan, p, s2, fails, end);
      var t := Run(CreatePreallocated, plan, p, s2, fails).s;
      PreservesTwice(m.mem, s2.mem, t.mem, InBuffer, p.block, span, 0, end, Foot(plan, p), 0, end, span, 0, end);
      UncoveredStaysZero(InBuffer, mm, p, conf, s1, s2.mem, t.mem, 0, end);
      BuiltIsCreated(InBuffer, t.mem, mm, 0, conf, "", p, 0);
    }
  }

  lemma BufferCleared(m: State, buffer: Ptr, end: nat, p: Ptr, n: nat)
    requires buffer == Ptr(UserBuffer, 0) && p.block != UserBuffer
    requires InBounds(m.mem, buffer, end) && InBounds(m.mem, p, n)
    ensures var s1 := StoreCells(m, buffer, Fill(end, Byte(0))).(buffer := buffer, index := 0);
            var s2 := ClearMessage(s1, p, n);
            && Ready(InBuffer, s2, end) && s2.index == 0 && s2.fault == m.fault && InBounds(s2.mem, p, n)
            && Preserves(m.mem, s2.mem, InBuffer, p.block, Span(p, n), 0, end)
  {
    var s1 := StoreCells(m, buffer, Fill(end, Byte(0))).(buffer := buffer, index := 0);
    var s2 := ClearMessage(s1, p, n);
    forall d, o: int | !(d == p.block && o in Span(p, n)) && !Owned(InBuffer, d, o, 0, end)
      ensures Kept(m.mem, s2.mem, d, o)
    {
      assert d == p.block ==> !InSpan(p, n, o);
    }
  }

  /** Every region that was handed out is the data of some header. */
  lemma {:induction false} RegionHasHeader(pristine: bool, m: Memory, w: Plan, p: Ptr, c: nat, i: nat) returns (at: Ptr)
    requires Built(InBuffer, pristine, m, w, p, c) && i < |Regions(w, c)|
    ensures Holds(m, at, Address(Ptr(UserBuffer, Regions(w, c)[i].start)))
    decreases w, 0, 0
  {
    match w
    case Slot(off, capacity, unit, count, inner, rest) =>
      var next := Next(InBuffer, c, capacity * unit);
      var n := |RegionsOfElements(inner, count, next)|;
      AfterElementsClosed(InBuffer, inner, count, next);
      if i == 0 {
        at := p.Plus(off);
      } else if i <= n {
        at := ElementRegionHasHeader(pristine, m, inner, DataAt(InBuffer, c), unit, count, next, i - 1,
                                     Regions(w, c)[i].start);
      } else {
        at := RegionHasHeader(pristine, m, rest, p, EndOfElements(inner, count, next), i - 1 - n);
      }
    case Inline(off, inner, rest) =>
      var n := |Regions(inner, c)|;
      if i < n {
        at := RegionHasHeader(pristine, m, inner, p.Plus(off), c, i);
      } else {
        at := RegionHasHeader(pristine, m, rest, p, End(inner, c), i - n);
      }
  }

  lemma {:induction false} ElementRegionHasHeader(pristine: bool, m: Memory, inner: Plan, q: Ptr, unit: nat, k: nat,
                                                  c: nat, i: nat, start: nat) returns (at: Ptr)
    requires ElementsBuilt(InBuffer, pristine, m, inner, q, unit, k, c)
    requires i < |RegionsOfElements(inner, k, c)| && RegionsOfElements(inner, k, c)[i].start == start
    ensures Holds(m, at, Address(Ptr(UserBuffer, start)))
    decreases inner, 1, k
  {
    if 0 < k {
      var n := |RegionsOfElements(inner, k - 1, c)|;
      LastRegions(inner, k, c, i);
      if i < n {
        at := ElementRegionHasHeader(pristine, m, inner, q, unit, k - 1, c, i, start);
      } else {
        AfterElementsClosed(InBuffer, inner, k - 1, c);
        at := RegionHasHeader(pristine, m, inner, q.Plus((k - 1) * unit), EndOfElements(inner, k - 1, c), i - n);
      }
    }
  }

  lemma LastRegions(inner: Plan, k: nat, c: nat, i: nat)
    requires 0 < k && i < |RegionsOfElements(inner, k, c)|
    ensures var before := RegionsOfElements(inner, k - 1, c);
            var last := Regions(inner, EndOfElements(inner, k - 1, c));
            if i < |before| then RegionsOfElements(inner, k, c)[i] == before[i]
            else i < |before| + |last| && RegionsOfElements(inner, k, c)[i] == last[i - |before|]
  {
  }

  /** A buffer that served the larger of two configurations serves the smaller. */
  lemma SmallerConfigurationFits(mm: MessageMembers, p: Ptr, a: Conf, b: Conf, buffer: Ptr, len: nat,
                                 s: State, fails: nat -> bool)
    requires ValidIds(mm) && buffer != NULL && RaisesDefaults(Configured(a), Configured(b))
    requires CreateStatic(mm, p, b, buffer, len, s, fails).1
    ensures CreateStatic(mm, p, a, buffer, len, s, fails).1
  {
    StaticSizeMonotone(mm, a, b);
    StaticSucceedsWhenItFits(mm, p, a, buffer, len, s, fails);
    StaticSucceedsWhenItFits(mm, p, b, buffer, len, s, fails);
  }
}
