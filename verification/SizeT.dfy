/** Sizes counted in a `size_t` that wraps at `m`: as long as the totals fit,
    no sum or product on the way wraps, and the results are those of the model. */
module SizeT {
  import opened Arithmetic
  import opened Introspection
  import opened Plans
  import opened Layout

  /** The value of `x` in a `size_t`. */
  function Wrap(x: nat, m: PositiveNat): (r: nat)
    ensures r == x % m
  {
    if x < m then x else x % m
  }

  /** Bytes counted request by request, each product and each sum reduced. */
  ghost function Count(acc: nat, rs: seq<Region>, m: PositiveNat): nat
    decreases |rs|
  {
    if rs == [] then acc else Count(Wrap(acc + Wrap(rs[0].size, m), m), rs[1..], m)
  }

  /** The buffer index moved request by request, alignment included. */
  ghost function Bump(index: nat, rs: seq<Region>, m: PositiveNat): nat
    decreases |rs|
  {
    if rs == [] then index else Bump(Wrap(Wrap(Align(index), m) + Wrap(rs[0].size, m), m), rs[1..], m)
  }

  /** A wrapping count differs from the total by a multiple of `m`. */
  lemma {:induction false} CountExact(acc: nat, rs: seq<Region>, m: PositiveNat) returns (k: nat)
    requires acc < m
    ensures Count(acc, rs, m) < m && Count(acc, rs, m) + k * m == acc + Total(rs)
    decreases |rs|
  {
    k := 0;
    if rs != [] {
      var q := WrapParts(rs[0].size, m);
      var r := WrapParts(acc + Wrap(rs[0].size, m), m);
      k := CountExact(Wrap(acc + Wrap(rs[0].size, m), m), rs[1..], m);
      Distribute(q, r, m);
      Distribute(q + r, k, m);
      k := q + r + k;
    }
  }

  lemma WrapParts(x: nat, m: PositiveNat) returns (q: nat)
    ensures Wrap(x, m) < m && x == q * m + Wrap(x, m)
  {
    q := x / m;
  }

  lemma Distribute(j: nat, k: nat, m: nat)
    ensures (j + k) * m == j * m + k * m
  {
  }

  /** The remainder is the one way to write a number like this. */
  lemma Remainder(x: nat, q: nat, r: nat, m: PositiveNat)
    requires r < m && x == r + q * m
    ensures x % m == r
  {
    var p := WrapParts(x, m);
    if p < q {
      MulMonotone(p + 1, q, m);
      Unfold(p + 1, m);
    } else if q < p {
      MulMonotone(q + 1, p, m);
      Unfold(q + 1, m);
    }
  }

  /** Each region starts at the next aligned index, and the last ends at `hi`. */
  ghost predicate Consecutive(rs: seq<Region>, lo: nat, hi: nat)
    decreases |rs|
  {
    if rs == [] then lo == hi
    else rs[0].start == Align(lo) && Consecutive(rs[1..], rs[0].start + rs[0].size, hi)
  }

  lemma {:induction false} ConsecutiveJoins(a: seq<Region>, b: seq<Region>, lo: nat, mid: nat, hi: nat)
    requires Consecutive(a, lo, mid) && Consecutive(b, mid, hi)
    ensures Consecutive(a + b, lo, hi)
    decreases |a|
  {
    if a == [] {
      assert a + b == b;
    } else {
      ConsecutiveJoins(a[1..], b, a[0].start + a[0].size, mid, hi);
      assert (a + b)[0] == a[0] && (a + b)[1..] == a[1..] + b;
    }
  }

  /** The regions of a walk leave no gap but alignment. */
  lemma {:induction false} RegionsConsecutive(w: Plan, c: nat)
    ensures Consecutive(Regions(w, c), c, End(w, c))
    decreases w, 0, 0
  {
    match w
    case Done =>
    case Slot(_, capacity, unit, count, inner, rest) =>
      var next := Align(c) + capacity * unit;
      var first, elements := [Region(Align(c), capacity * unit)], RegionsOfElements(inner, count, next);
      var mid := EndOfElements(inner, count, next);
      assert first[1..] == [] && Consecutive(first, c, next);
      ElementsConsecutive(inner, count, next);
      RegionsConsecutive(rest, mid);
      ConsecutiveJoins(first, elements, c, next, mid);
      ConsecutiveJoins(first + elements, Regions(rest, mid), c, mid, End(w, c));
    case Inline(_, inner, rest) =>
      RegionsConsecutive(inner, c);
      RegionsConsecutive(rest, End(inner, c));
      ConsecutiveJoins(Regions(inner, c), Regions(rest, End(inner, c)), c, End(inner, c), End(w, c));
  }

  lemma {:induction false} ElementsConsecutive(inner: Plan, k: nat, c: nat)
    ensures Consecutive(RegionsOfElements(inner, k, c), c, EndOfElements(inner, k, c))
    decreases inner, 1, k
  {
    if k > 0 {
      var mid := EndOfElements(inner, k - 1, c);
      ElementsConsecutive(inner, k - 1, c);
      RegionsConsecutive(inner, mid);
      ConsecutiveJoins(RegionsOfElements(inner, k - 1, c), Regions(inner, mid), c, mid, End(inner, mid));
    }
  }

  lemma {:induction false} BumpExact(rs: seq<Region>, lo: nat, hi: nat, m: PositiveNat)
    requires Consecutive(rs, lo, hi) && hi < m
    ensures lo <= hi && Bump(lo, rs, m) == hi
    decreases |rs|
  {
    if rs != [] {
      BumpExact(rs[1..], rs[0].start + rs[0].size, hi, m);
    }
  }

  lemma AlignedSum(a: nat, b: nat)
    requires a % ALIGNMENT == 0 && b % ALIGNMENT == 0
    ensures (a + b) % ALIGNMENT == 0
  {
  }

  lemma {:induction false} MultipleOfAlignment(j: nat, m: nat, product: nat)
    requires m % ALIGNMENT == 0 && product == j * m
    ensures product % ALIGNMENT == 0
    decreases j
  {
    if j > 0 {
      var less := (j - 1) * m;
      Unfold(j, m);
      MultipleOfAlignment(j - 1, m, less);
      AlignedSum(less, m);
    }
  }

  /** A wrapping index differs from the model's by a multiple of `m`, if that is a multiple of the alignment. */
  lemma {:induction false} BumpWraps(index: nat, j: nat, rs: seq<Region>, lo: nat, hi: nat, m: PositiveNat)
    returns (k: nat)
    requires index < m && m % ALIGNMENT == 0 && index + j * m == lo && Consecutive(rs, lo, hi)
    ensures Bump(index, rs, m) < m && Bump(index, rs, m) + k * m == hi
    decreases |rs|
  {
    k := j;
    if rs != [] {
      MultipleOfAlignment(j, m, j * m);
      AlignShift(index, j * m);
      var q := WrapParts(Align(index), m);
      var r := WrapParts(rs[0].size, m);
      var s := WrapParts(Wrap(Align(index), m) + Wrap(rs[0].size, m), m);
      Distribute(q, r, m);
      Distribute(q + r, s, m);
      Distribute(q + r + s, j, m);
      k := BumpWraps(Wrap(Wrap(Align(index), m) + Wrap(rs[0].size, m), m), q + r + s + j, rs[1..],
                     rs[0].start + rs[0].size, hi, m);
    }
  }

  /** The static size in a `size_t` whose range is a multiple of the alignment: the model's modulo `m`. */
  lemma StaticSizeWraps(w: Plan, m: PositiveNat)
    requires m % ALIGNMENT == 0
    ensures Bump(0, Regions(w, 0), m) == End(w, 0) % m
  {
    RegionsConsecutive(w, 0);
    var k := BumpWraps(0, 0, Regions(w, 0), 0, End(w, 0), m);
    Remainder(End(w, 0), k, Bump(0, Regions(w, 0), m), m);
  }

  /** The dynamic size in a `size_t`: the model's modulo `m`, whatever wraps on the way. */
  lemma DynamicSizeWraps(w: Plan, c: nat, m: PositiveNat)
    ensures Count(0, Regions(w, c), m) == Size(w) % m
  {
    RegionsTotal(w, c);
    var k := CountExact(0, Regions(w, c), m);
    Remainder(Size(w), k, Count(0, Regions(w, c), m), m);
  }

  /** If the static size fits, the wrapping index of a static walk is that of the model at every request. */
  lemma StaticSizeFits(w: Plan, m: PositiveNat)
    requires End(w, 0) < m
    ensures Bump(0, Regions(w, 0), m) == End(w, 0)
    ensures forall i | 0 <= i < |Regions(w, 0)| :: Regions(w, 0)[i].start + Regions(w, 0)[i].size < m
  {
    RegionsConsecutive(w, 0);
    BumpExact(Regions(w, 0), 0, End(w, 0), m);
    LayoutSound(w, 0);
  }

  /** If the dynamic size fits, wrapping counts reach it. */
  lemma DynamicSizeFits(w: Plan, c: nat, m: PositiveNat)
    requires Size(w) < m
    ensures Count(0, Regions(w, c), m) == Size(w)
  {
    DynamicSizeWraps(w, c, m);
    Remainder(Size(w), 0, Size(w), m);
  }
}
