/** Where the bump allocator puts the regions of a plan. */
module Layout {
  import opened Arithmetic
  import opened Introspection
  import opened MemoryRules
  import opened Plans

  const ALIGNMENT: nat := 4

  /** The least multiple of 4 that is not below `i`. */
  function Align(i: nat): (a: nat)
    ensures i <= a < i + 4 && a % 4 == 0
  {
    (i + 3) / 4 * 4
  }

  /** A piece of the buffer handed out for one request. */
  datatype Region = Region(start: nat, size: nat)

  /** The buffer index after a walk over the plan that starts at `c`. */
  ghost function End(w: Plan, c: nat): nat
    decreases w, 0, 0
  {
    match w
    case Done => c
    case Slot(_, capacity, unit, count, inner, rest) =>
      End(rest, EndOfElements(inner, count, Align(c) + capacity * unit))
    case Inline(_, inner, rest) => End(rest, End(inner, c))
  }

  /** The buffer index after `k` consecutive messages of plan `inner`. */
  ghost function EndOfElements(inner: Plan, k: nat, c: nat): nat
    decreases inner, 1, k
  {
    if k == 0 then c else End(inner, EndOfElements(inner, k - 1, c))
  }

  /** The regions handed out by that walk, in order. */
  ghost function Regions(w: Plan, c: nat): seq<Region>
    decreases w, 0, 0
  {
    match w
    case Done => []
    case Slot(_, capacity, unit, count, inner, rest) =>
      var next := Align(c) + capacity * unit;
      [Region(Align(c), capacity * unit)] + RegionsOfElements(inner, count, next)
      + Regions(rest, EndOfElements(inner, count, next))
    case Inline(_, inner, rest) => Regions(inner, c) + Regions(rest, End(inner, c))
  }

  ghost function RegionsOfElements(inner: Plan, k: nat, c: nat): seq<Region>
    decreases inner, 1, k
  {
    if k == 0 then []
    else RegionsOfElements(inner, k - 1, c) + Regions(inner, EndOfElements(inner, k - 1, c))
  }

  lemma {:induction false} EndGrows(w: Plan, c: nat)
    ensures c <= End(w, c)
    decreases w, 0, 0
  {
    match w
    case Done =>
    case Slot(_, capacity, unit, count, inner, rest) =>
      ElementsGrow(inner, count, Align(c) + capacity * unit);
      EndGrows(rest, EndOfElements(inner, count, Align(c) + capacity * unit));
    case Inline(_, inner, rest) =>
      EndGrows(inner, c);
      EndGrows(rest, End(inner, c));
  }

  lemma {:induction false} ElementsGrow(inner: Plan, k: nat, c: nat)
    ensures c <= EndOfElements(inner, k, c)
    decreases inner, 1, k
  {
    if k > 0 {
      ElementsGrow(inner, k - 1, c);
      EndGrows(inner, EndOfElements(inner, k - 1, c));
    }
  }

  // ---------------------------------------------------------------- soundness

  /** Aligned regions inside `[lo, hi)`, each ending before the next starts. */
  ghost predicate Chain(rs: seq<Region>, lo: nat, hi: nat) {
    && lo <= hi
    && (forall i | 0 <= i < |rs| ::
          rs[i].start % ALIGNMENT == 0 && lo <= rs[i].start && rs[i].start + rs[i].size <= hi)
    && (forall i, j | 0 <= i < j < |rs| :: rs[i].start + rs[i].size <= rs[j].start)
  }

  lemma JoinChains(a: seq<Region>, b: seq<Region>, lo: nat, mid: nat, hi: nat)
    requires Chain(a, lo, mid) && Chain(b, mid, hi)
    ensures Chain(a + b, lo, hi)
  {
    var s := a + b;
    forall i, j | 0 <= i < j < |s| ensures s[i].start + s[i].size <= s[j].start {
      if i < |a| <= j {
        assert s[i] == a[i] && s[j] == b[j - |a|];
      } else if j < |a| {
        assert s[i] == a[i] && s[j] == a[j];
      } else {
        assert s[i] == b[i - |a|] && s[j] == b[j - |a|];
      }
    }
  }

  /** Every layout is sound: the regions of a walk are aligned, pairwise
      disjoint, and lie inside `[c, End(w, c))`. */
  lemma {:induction false} LayoutSound(w: Plan, c: nat)
    ensures Chain(Regions(w, c), c, End(w, c))
    decreases w, 0, 0
  {
    match w
    case Done =>
    case Slot(_, capacity, unit, count, inner, rest) =>
      var next := Align(c) + capacity * unit;
      var mid := EndOfElements(inner, count, next);
      var first := [Region(Align(c), capacity * unit)];
      assert Chain(first, c, next);
      ElementsSound(inner, count, next);
      LayoutSound(rest, mid);
      JoinChains(first, RegionsOfElements(inner, count, next), c, next, mid);
      JoinChains(first + RegionsOfElements(inner, count, next), Regions(rest, mid), c, mid, End(w, c));
    case Inline(_, inner, rest) =>
      LayoutSound(inner, c);
      LayoutSound(rest, End(inner, c));
      JoinChains(Regions(inner, c), Regions(rest, End(inner, c)), c, End(inner, c), End(w, c));
  }

  lemma {:induction false} ElementsSound(inner: Plan, k: nat, c: nat)
    ensures Chain(RegionsOfElements(inner, k, c), c, EndOfElements(inner, k, c))
    decreases inner, 1, k
  {
    if k > 0 {
      var mid := EndOfElements(inner, k - 1, c);
      ElementsSound(inner, k - 1, c);
      LayoutSound(inner, mid);
      JoinChains(RegionsOfElements(inner, k - 1, c), Regions(inner, mid), c, mid, End(inner, mid));
    }
  }

  /** One region for each request. */
  lemma {:induction false} RegionPerRequest(w: Plan, c: nat)
    ensures |Regions(w, c)| == Requests(w)
    decreases w, 0, 0
  {
    match w
    case Done =>
    case Slot(_, capacity, unit, count, inner, rest) =>
      var next := Align(c) + capacity * unit;
      ElementRegionPerRequest(inner, count, next);
      RegionPerRequest(rest, EndOfElements(inner, count, next));
    case Inline(_, inner, rest) =>
      RegionPerRequest(inner, c);
      RegionPerRequest(rest, End(inner, c));
  }

  lemma {:induction false} ElementRegionPerRequest(inner: Plan, k: nat, c: nat)
    ensures |RegionsOfElements(inner, k, c)| == Times(k, Requests(inner))
    decreases inner, 1, k
  {
    if k > 0 {
      ElementRegionPerRequest(inner, k - 1, c);
      RegionPerRequest(inner, EndOfElements(inner, k - 1, c));
    }
  }

  ghost function Total(rs: seq<Region>): nat {
    if rs == [] then 0 else rs[0].size + Total(rs[1..])
  }

  lemma {:induction false} TotalJoins(a: seq<Region>, b: seq<Region>)
    ensures Total(a + b) == Total(a) + Total(b)
    decreases |a|
  {
    if a == [] {
      assert a + b == b;
    } else {
      TotalJoins(a[1..], b);
      assert (a + b)[0] == a[0] && (a + b)[1..] == a[1..] + b;
    }
  }

  /** The regions of a walk hold, in all, exactly the size of the plan: no
      request is left out or counted twice, wherever padding falls. */
  lemma {:induction false} RegionsTotal(w: Plan, c: nat)
    ensures Total(Regions(w, c)) == Size(w)
    decreases w, 0, 0
  {
    match w
    case Done =>
    case Slot(_, capacity, unit, count, inner, rest) =>
      var next := Align(c) + capacity * unit;
      var first, elements := [Region(Align(c), capacity * unit)], RegionsOfElements(inner, count, next);
      var mid := EndOfElements(inner, count, next);
      ElementsTotal(inner, count, next);
      RegionsTotal(rest, mid);
      TotalJoins(first, elements);
      TotalJoins(first + elements, Regions(rest, mid));
    case Inline(_, inner, rest) =>
      RegionsTotal(inner, c);
      RegionsTotal(rest, End(inner, c));
      TotalJoins(Regions(inner, c), Regions(rest, End(inner, c)));
  }

  lemma {:induction false} ElementsTotal(inner: Plan, k: nat, c: nat)
    ensures Total(RegionsOfElements(inner, k, c)) == Times(k, Size(inner))
    decreases inner, 1, k
  {
    if k > 0 {
      var mid := EndOfElements(inner, k - 1, c);
      var earlier, last := RegionsOfElements(inner, k - 1, c), Regions(inner, mid);
      ElementsTotal(inner, k - 1, c);
      RegionsTotal(inner, mid);
      TotalStep(earlier, last, k, Size(inner));
    }
  }

  lemma TotalStep(earlier: seq<Region>, last: seq<Region>, k: nat, n: nat)
    requires 0 < k && Total(earlier) == Times(k - 1, n) && Total(last) == n
    ensures Total(earlier + last) == Times(k, n)
  {
    TotalJoins(earlier, last);
  }

  // ------------------------------------------------------------- monotonicity

  /** The same plan with capacities at least as large. */
  ghost predicate Enlarges(v: Plan, w: Plan) {
    match v
    case Done => w.Done?
    case Slot(off, capacity, unit, count, inner, rest) =>
      && w.Slot? && w.off == off && w.unit == unit && capacity <= w.capacity && count <= w.count
      && Enlarges(inner, w.inner) && Enlarges(rest, w.rest)
    case Inline(off, inner, rest) =>
      w.Inline? && w.off == off && Enlarges(inner, w.inner) && Enlarges(rest, w.rest)
  }

  lemma AlignMonotone(b: nat, c: nat)
    requires b <= c
    ensures Align(b) <= Align(c)
  {
  }

  lemma {:induction false} EnlargesItself(w: Plan)
    ensures Enlarges(w, w)
  {
    match w
    case Done =>
    case Slot(_, _, _, _, inner, rest) =>
      EnlargesItself(inner);
      EnlargesItself(rest);
    case Inline(_, inner, rest) =>
      EnlargesItself(inner);
      EnlargesItself(rest);
  }

  lemma {:induction false} EndMonotone(v: Plan, w: Plan, b: nat, c: nat)
    requires Enlarges(v, w) && b <= c
    ensures End(v, b) <= End(w, c)
    decreases w, 0, 0
  {
    match w
    case Done =>
    case Slot(_, capacity, unit, count, inner, rest) =>
      AlignMonotone(b, c);
      MulMonotone(v.capacity, capacity, unit);
      var b', c' := Align(b) + v.capacity * unit, Align(c) + capacity * unit;
      ElementsMonotone(v.inner, inner, v.count, count, b', c');
      EndMonotone(v.rest, rest, EndOfElements(v.inner, v.count, b'), EndOfElements(inner, count, c'));
    case Inline(_, inner, rest) =>
      EndMonotone(v.inner, inner, b, c);
      EndMonotone(v.rest, rest, End(v.inner, b), End(inner, c));
  }

  lemma {:induction false} ElementsMonotone(v: Plan, w: Plan, j: nat, k: nat, b: nat, c: nat)
    requires Enlarges(v, w) && j <= k && b <= c
    ensures EndOfElements(v, j, b) <= EndOfElements(w, k, c)
    decreases w, 1, k
  {
    if j == 0 {
      ElementsGrow(w, k, c);
    } else {
      ElementsMonotone(v, w, j - 1, k - 1, b, c);
      EndMonotone(v, w, EndOfElements(v, j - 1, b), EndOfElements(w, k - 1, c));
    }
  }

  ghost predicate RaisesDefaults(a: Conf, b: Conf) {
    && a.rules == b.rules
    && a.maxString <= b.maxString
    && a.maxRos2Sequence <= b.maxRos2Sequence
    && a.maxBasicSequence <= b.maxBasicSequence
  }

  lemma {:induction false} FirstMatchMonotone(rules: seq<Rule>, dotted: string, d: nat, e: nat)
    requires d <= e
    ensures FirstMatch(rules, dotted, d) <= FirstMatch(rules, dotted, e)
  {
    if rules != [] {
      FirstMatchMonotone(rules[1..], dotted, d, e);
    }
  }

  lemma {:induction false} RaisingEnlarges(mm: MessageMembers, i: nat, a: Conf, b: Conf, path: string)
    requires i <= |mm.members| && ValidIds(mm) && RaisesDefaults(a, b)
    ensures Enlarges(PlanFrom(mm, i, a, path), PlanFrom(mm, i, b, path))
    decreases mm, |mm.members| - i
  {
    if i < |mm.members| {
      var m := mm.members[i];
      var dotted := path + m.name + ".";
      RaisingEnlarges(mm, i + 1, a, b, path);
      FirstMatchMonotone(a.rules, dotted, DefaultCapacity(a, m.kind), DefaultCapacity(b, m.kind));
      if m.kind.Message? {
        RaisingEnlarges(m.kind.members, 0, a, b, dotted);
      }
    }
  }

  /** With the same rules, raising a resolved default capacity never lowers the
      static size, so a buffer for the larger configuration serves the smaller. */
  lemma StaticSizeMonotone(mm: MessageMembers, a: Conf, b: Conf)
    requires ValidIds(mm) && RaisesDefaults(Configured(a), Configured(b))
    ensures End(PlanOf(mm, Configured(a)), 0) <= End(PlanOf(mm, Configured(b)), 0)
  {
    RaisingEnlarges(mm, 0, Configured(a), Configured(b), "");
    EndMonotone(PlanOf(mm, Configured(a)), PlanOf(mm, Configured(b)), 0, 0);
  }

  // -------------------------------------------------- position and stride

  ghost function Shift(rs: seq<Region>, d: nat): seq<Region> {
    seq(|rs|, i requires 0 <= i < |rs| => Region(rs[i].start + d, rs[i].size))
  }

  lemma AlignShift(c: nat, d: nat)
    requires d % ALIGNMENT == 0
    ensures Align(c + d) == Align(c) + d
  {
  }

  lemma ShiftJoin(a: seq<Region>, b: seq<Region>, d: nat)
    ensures Shift(a, d) + Shift(b, d) == Shift(a + b, d)
  {
  }

  lemma {:induction false} EndShifts(w: Plan, c: nat, d: nat)
    requires d % ALIGNMENT == 0
    ensures End(w, c + d) == End(w, c) + d
    decreases w, 0, 0
  {
    match w
    case Done =>
    case Slot(_, capacity, unit, count, inner, rest) =>
      AlignShift(c, d);
      var next := Align(c) + capacity * unit;
      EndOfElementsShifts(inner, count, next, d);
      EndShifts(rest, EndOfElements(inner, count, next), d);
    case Inline(_, inner, rest) =>
      EndShifts(inner, c, d);
      EndShifts(rest, End(inner, c), d);
  }

  lemma {:induction false} EndOfElementsShifts(inner: Plan, k: nat, c: nat, d: nat)
    requires d % ALIGNMENT == 0
    ensures EndOfElements(inner, k, c + d) == EndOfElements(inner, k, c) + d
    decreases inner, 1, k
  {
    if k > 0 {
      EndOfElementsShifts(inner, k - 1, c, d);
      EndShifts(inner, EndOfElements(inner, k - 1, c), d);
    }
  }

  /** A layout does not depend on its position: starting `d` bytes later, a
      multiple of the alignment, moves every region by `d`, as it does the end. */
  lemma {:induction false} LayoutShifts(w: Plan, c: nat, d: nat)
    requires d % ALIGNMENT == 0
    ensures Regions(w, c + d) == Shift(Regions(w, c), d) && End(w, c + d) == End(w, c) + d
    decreases w, 0, 0
  {
    EndShifts(w, c, d);
    match w
    case Done =>
    case Slot(_, capacity, unit, count, inner, rest) =>
      AlignShift(c, d);
      var next := Align(c) + capacity * unit;
      var first, elements := [Region(Align(c), capacity * unit)], RegionsOfElements(inner, count, next);
      var mid := EndOfElements(inner, count, next);
      EndOfElementsShifts(inner, count, next, d);
      ElementsShift(inner, count, next, d);
      LayoutShifts(rest, mid, d);
      assert Shift(first, d) == [Region(Align(c) + d, capacity * unit)];
      ShiftJoin(first, elements, d);
      ShiftJoin(first + elements, Regions(rest, mid), d);
    case Inline(_, inner, rest) =>
      LayoutShifts(inner, c, d);
      LayoutShifts(rest, End(inner, c), d);
      ShiftJoin(Regions(inner, c), Regions(rest, End(inner, c)), d);
  }

  lemma {:induction false} ElementsShift(inner: Plan, k: nat, c: nat, d: nat)
    requires d % ALIGNMENT == 0
    ensures RegionsOfElements(inner, k, c + d) == Shift(RegionsOfElements(inner, k, c), d)
    decreases inner, 1, k
  {
    if k > 0 {
      var mid := EndOfElements(inner, k - 1, c);
      EndOfElementsShifts(inner, k - 1, c, d);
      ElementsShift(inner, k - 1, c, d);
      LayoutShifts(inner, mid, d);
      ShiftJoin(RegionsOfElements(inner, k - 1, c), Regions(inner, mid), d);
      assert RegionsOfElements(inner, k, c + d) ==
             Shift(RegionsOfElements(inner, k - 1, c), d) + Shift(Regions(inner, mid), d);
    }
  }

  /** A walk that makes a request first aligns; one that makes none does not move. */
  lemma {:induction false} EndFromAligned(w: Plan, c: nat)
    ensures Requests(w) == 0 ==> End(w, c) == c
    ensures Requests(w) > 0 ==> End(w, c) == End(w, Align(c))
    decreases w, 0, 0
  {
    match w
    case Done =>
    case Slot(_, capacity, unit, count, inner, rest) =>
      AlignShift(0, Align(c));
    case Inline(_, inner, rest) =>
      EndFromAligned(inner, c);
      if Requests(inner) == 0 {
        EndFromAligned(inner, Align(c));
        EndFromAligned(rest, c);
      }
  }

  /** Bytes that element `k` of a sequence of messages uses, padding included. */
  ghost function Stride(inner: Plan, k: nat, c: nat): int {
    EndOfElements(inner, k + 1, c) - EndOfElements(inner, k, c)
  }

  lemma AlignGap(b: nat, c: nat) returns (d: nat)
    requires b <= c
    ensures Align(c) == Align(b) + d && d % ALIGNMENT == 0
  {
    d := Align(c) - Align(b);
  }

  /** Laid out twice in a row, a message that makes requests ends a multiple of the alignment later. */
  lemma SecondEnd(inner: Plan, z: nat) returns (d: nat)
    requires Requests(inner) > 0
    ensures d % ALIGNMENT == 0 && End(inner, End(inner, z)) == End(inner, z) + d
  {
    EndFromAligned(inner, z);
    EndFromAligned(inner, End(inner, z));
    EndGrows(inner, z);
    d := AlignGap(z, End(inner, z));
    EndShifts(inner, Align(z), d);
  }

  /** Of three messages laid out one after the other, the last two take equal space. */
  lemma StrideStep(inner: Plan, z: nat)
    ensures var a := End(inner, z); var b := End(inner, a); End(inner, b) - b == b - a
  {
    if Requests(inner) > 0 {
      var d := SecondEnd(inner, z);
      EndShifts(inner, End(inner, z), d);
    } else {
      EndFromAligned(inner, z);
    }
  }

  /** From the second element on, every element of a sequence of messages uses
      the same number of bytes. */
  lemma {:induction false} StrideConstant(inner: Plan, k: nat, c: nat)
    requires 1 <= k
    ensures Stride(inner, k, c) == Stride(inner, 1, c)
    decreases k
  {
    if k > 1 {
      StrideConstant(inner, k - 1, c);
      StrideStep(inner, EndOfElements(inner, k - 2, c));
    }
  }

  // --------------------------------------------------------------- padding

  lemma {:induction false} PaddingBound(w: Plan, c: nat)
    ensures c + Size(w) <= End(w, c) <= c + Size(w) + 3 * Requests(w)
    decreases w, 0, 0
  {
    match w
    case Done =>
    case Slot(_, capacity, unit, count, inner, rest) =>
      var next := Align(c) + capacity * unit;
      ElementsPadding(inner, count, next);
      PaddingBound(rest, EndOfElements(inner, count, next));
    case Inline(_, inner, rest) =>
      PaddingBound(inner, c);
      PaddingBound(rest, End(inner, c));
  }

  lemma {:induction false} ElementsPadding(inner: Plan, k: nat, c: nat)
    ensures c + Times(k, Size(inner)) <= EndOfElements(inner, k, c)
                                <= c + Times(k, Size(inner)) + 3 * Times(k, Requests(inner))
    decreases inner, 1, k
  {
    if k > 0 {
      ElementsPadding(inner, k - 1, c);
      PaddingBound(inner, EndOfElements(inner, k - 1, c));
    }
  }

  /** Walks that start aligned pad every request but the first. */
  lemma {:induction false} PaddingFromAligned(w: Plan, c: nat)
    requires c % ALIGNMENT == 0 && Requests(w) > 0
    ensures End(w, c) <= c + Size(w) + 3 * (Requests(w) - 1)
  {
    match w
    case Slot(_, capacity, unit, count, inner, rest) =>
      var next := c + capacity * unit;
      assert Align(c) == c by { AlignShift(0, c); }
      ElementsPadding(inner, count, next);
      PaddingBound(rest, EndOfElements(inner, count, next));
    case Inline(_, inner, rest) =>
      if Requests(inner) > 0 {
        PaddingFromAligned(inner, c);
        PaddingBound(rest, End(inner, c));
      } else {
        EndFromAligned(inner, c);
        PaddingFromAligned(rest, c);
      }
  }

  /** For `k >= 1` requests: dynamic size <= static size <= dynamic size + 3(k-1). */
  lemma StaticSizeBounds(w: Plan)
    requires Requests(w) > 0
    ensures Size(w) <= End(w, 0) <= Size(w) + 3 * (Requests(w) - 1)
  {
    PaddingBound(w, 0);
    PaddingFromAligned(w, 0);
  }
}
