/** The microsecond clock of the UDP transport, which extends a 32-bit tick
    count over its wrap-arounds. */
module UdpClock {

  import opened Arithmetic

  const U64: nat := 0x1_0000_0000_0000_0000
  const ROLLOVER_USECONDS: nat := 4294967295
  const TICKS_PER_SECOND: nat := 1000

  /** The measure taken at a tick, in 32-bit arithmetic up to its last step. */
  function Measure(tick: nat, ticksPerSecond: nat): (m: nat)
    requires 0 < ticksPerSecond
    ensures m < U32
  {
    tick * 1000 % U32 / ticksPerSecond * 1000 % U32
  }

  /** At any tick rate, while neither product wraps, the measure is the true time
      in microseconds rounded down to a millisecond. */
  lemma MeasureExact(tick: nat, ticksPerSecond: nat)
    requires 0 < ticksPerSecond && tick * 1000 < U32 && tick * 1_000_000 / ticksPerSecond < U32
    ensures var m := Measure(tick, ticksPerSecond);
            && m % 1000 == 0
            && m * ticksPerSecond <= tick * 1_000_000 < (m + 1000) * ticksPerSecond
  {
    var ms := MeasuredMillis(tick, ticksPerSecond);
    ThousandTimes(tick * 1000, ticksPerSecond, ms);
  }

  lemma MeasuredMillis(tick: nat, ticksPerSecond: nat) returns (ms: nat)
    requires 0 < ticksPerSecond && tick * 1000 < U32 && tick * 1_000_000 / ticksPerSecond < U32
    ensures Measure(tick, ticksPerSecond) == ms * 1000
    ensures ms * ticksPerSecond <= tick * 1000 < (ms + 1) * ticksPerSecond
  {
    ms := Quotient(tick * 1000, ticksPerSecond);
    var us := Quotient(tick * 1_000_000, ticksPerSecond);
    ScaledBound(tick * 1000, ticksPerSecond, ms, us);
    WholeMilliseconds(tick, ticksPerSecond, ms);
  }

  /** Bounds in milliseconds are bounds in microseconds. */
  lemma ThousandTimes(t: nat, f: nat, ms: nat)
    ensures ms * f <= t < (ms + 1) * f <==> (ms * 1000) * f <= t * 1000 < (ms * 1000 + 1000) * f
  {
    Scale(ms, f);
    Scale(ms + 1, f);
  }

  lemma WholeMilliseconds(tick: nat, ticksPerSecond: nat, ms: nat)
    requires 0 < ticksPerSecond && tick * 1000 < U32 && ms == tick * 1000 / ticksPerSecond && ms * 1000 < U32
    ensures Measure(tick, ticksPerSecond) == ms * 1000
  {
    assert tick * 1000 % U32 == tick * 1000;
  }

  lemma Quotient(a: nat, b: nat) returns (q: nat)
    requires 0 < b
    ensures q == a / b && q * b <= a < (q + 1) * b
  {
    q := a / b;
  }

  lemma Scale(a: nat, b: nat)
    ensures (a * 1000) * b == (a * b) * 1000
  {
  }

  lemma ScaledBound(a: nat, b: nat, q: nat, r: nat)
    requires q * b <= a && a * 1000 < (r + 1) * b
    ensures q * 1000 <= r
  {
    Scale(q, b);
    if r + 1 <= q * 1000 {
      MulMonotone(r + 1, q * 1000, b);
    }
  }

  /** The two static variables: rollovers seen and the last measure. */
  datatype Clock = Clock(rollover: nat, last: nat) {
    predicate Valid() {
      rollover < U32 && last < U32
    }

    /** Microseconds reported after a call that leaves the clock like this. */
    function Reading(): nat {
      (last + rollover * ROLLOVER_USECONDS) % U64
    }
  }

  const START := Clock(0, 0)

  type Micros32 = m: nat | m < U32

  /** One call that measures `m`: a measure that falls is a rollover. */
  function Observe(c: Clock, m: Micros32): (d: Clock)
    requires c.Valid()
    ensures d.Valid()
  {
    Clock((c.rollover + if m < c.last then 1 else 0) % U32, m)
  }

  /** The sum never leaves 64 bits.  Its product, formed as a signed value, does
      so after 2^31 rollovers and not before. */
  lemma ReadingFits(c: Clock)
    requires c.Valid()
    ensures c.Reading() == c.last + c.rollover * ROLLOVER_USECONDS < U64
    ensures c.rollover * ROLLOVER_USECONDS < U64 / 2 <==> c.rollover <= U32 / 2
  {
    assert c.rollover * ROLLOVER_USECONDS <= (U32 - 1) * ROLLOVER_USECONDS;
  }

  /** A call never reports less than the call before it, except when the rollover count itself wraps. */
  lemma NeverBackwards(c: Clock, m: Micros32)
    requires c.Valid()
    ensures c.Reading() <= Observe(c, m).Reading() <==> !(m < c.last && c.rollover == U32 - 1)
  {
    var d := Observe(c, m);
    ReadingFits(c);
    ReadingFits(d);
    if d.last < c.last && c.rollover < U32 - 1 {
      assert d.rollover == c.rollover + 1;
      assert d.rollover * ROLLOVER_USECONDS == c.rollover * ROLLOVER_USECONDS + ROLLOVER_USECONDS;
    } else if d.last < c.last {
      assert d.rollover == 0;
    } else {
      assert d.rollover == c.rollover;
    }
  }

  // ------------------------------------------------------------------- runs

  /** The clock after calls with the given measures. */
  function After(c: Clock, ms: seq<Micros32>): (d: Clock)
    requires c.Valid()
    ensures d.Valid()
    decreases |ms|
  {
    if ms == [] then c else After(Observe(c, ms[0]), ms[1..])
  }

  /** What those calls report. */
  function Readings(c: Clock, ms: seq<Micros32>): (r: seq<nat>)
    requires c.Valid()
    ensures |r| == |ms|
    decreases |ms|
  {
    if ms == [] then []
    else [Observe(c, ms[0]).Reading()] + Readings(Observe(c, ms[0]), ms[1..])
  }

  /** How often the measure falls during those calls. */
  function Falls(last: nat, ms: seq<Micros32>): nat
    decreases |ms|
  {
    if ms == [] then 0 else (if ms[0] < last then 1 else 0) + Falls(ms[0], ms[1..])
  }

  predicate Sorted(r: seq<nat>) {
    forall i, j | 0 <= i < j < |r| :: r[i] <= r[j]
  }

  /** Over any sequence of measures whose rollovers can be counted, no call
      reports less than an earlier one. */
  lemma {:induction false} RunNeverBackwards(c: Clock, ms: seq<Micros32>)
    requires c.Valid() && c.rollover + Falls(c.last, ms) < U32
    ensures Sorted([c.Reading()] + Readings(c, ms))
    ensures After(c, ms).rollover == c.rollover + Falls(c.last, ms)
    decreases |ms|
  {
    if ms != [] {
      var d := Observe(c, ms[0]);
      NeverBackwards(c, ms[0]);
      RunNeverBackwards(d, ms[1..]);
      var tail := [d.Reading()] + Readings(d, ms[1..]);
      assert Readings(c, ms) == tail;
      assert forall j | 0 <= j < |tail| :: tail[0] <= tail[j];
    }
  }

  // ------------------------------------------------------------------ drift

  /** True microseconds after `t` ticks, at 1000 ticks a second. */
  function TrueMicros(t: nat): nat {
    t * 1000
  }

  /** The clock is where the true tick count `t` puts it: every wrap of the 32-bit microseconds was seen. */
  ghost predicate Tracks(c: Clock, t: nat) {
    c.last == TrueMicros(t) % U32 / 1000 * 1000 && c.rollover == TrueMicros(t) / U32
  }

  /** What the clock measures when the tick counter, 32 bits wide, has counted `t` ticks. */
  function MeasureAt(t: nat): Micros32 {
    Measure(t % U32, TICKS_PER_SECOND)
  }

  lemma {:induction false} WholeWraps(a: nat, k: nat)
    ensures (a + k * U32) % U32 == a % U32
  {
    if k > 0 {
      WholeWraps(a, k - 1);
      assert a + k * U32 == (a + (k - 1) * U32) + U32;
    }
  }

  lemma MeasureOfTrueTick(t: nat)
    ensures MeasureAt(t) == TrueMicros(t) % U32 / 1000 * 1000
  {
    var k, r := t / U32, t % U32;
    assert t == k * U32 + r;
    WholeWraps(r * 1000, k * 1000);
    assert TrueMicros(t) == r * 1000 + k * 1000 * U32;
  }

  /** Longest gap between calls, in microseconds, that surely shows a wrap. */
  const LONGEST_GAP: nat := U32 - 1000

  lemma TracksOn(c: Clock, t: nat, t': nat)
    requires Tracks(c, t) && t <= t' && TrueMicros(t') - TrueMicros(t) <= LONGEST_GAP
    requires c.Valid() && TrueMicros(t') / U32 < U32
    ensures Tracks(Observe(c, MeasureAt(t')), t')
  {
    MeasureOfTrueTick(t');
    var x, x' := TrueMicros(t), TrueMicros(t');
    assert x == x / U32 * U32 + x % U32 && x' == x' / U32 * U32 + x' % U32;
    if x' / U32 == x / U32 {
      assert x % U32 / 1000 <= x' % U32 / 1000;
    } else {
      assert x' / U32 == x / U32 + 1;
      assert x' % U32 <= x % U32 - 1000;
    }
  }

  /** A clock that tracks reports late, by what the measure cuts off and one microsecond for each rollover. */
  lemma DriftOfTracking(c: Clock, t: nat)
    requires c.Valid() && Tracks(c, t)
    ensures TrueMicros(t) - c.Reading() == TrueMicros(t) % U32 % 1000 + c.rollover
  {
    ReadingFits(c);
    var x := TrueMicros(t);
    assert x == c.rollover * U32 + x % U32;
    assert c.rollover * U32 == c.rollover * ROLLOVER_USECONDS + c.rollover;
  }

  /** Calls at true ticks `ts`, none longer than the longest gap after the one before it. */
  ghost predicate Spaced(from: nat, ts: seq<nat>)
    decreases |ts|
  {
    ts == [] || (from <= ts[0] && TrueMicros(ts[0]) - TrueMicros(from) <= LONGEST_GAP && Spaced(ts[0], ts[1..]))
  }

  function Measures(ts: seq<nat>): (ms: seq<Micros32>) {
    seq(|ts|, i requires 0 <= i < |ts| => MeasureAt(ts[i]))
  }

  function Latest(from: nat, ts: seq<nat>): nat {
    if ts == [] then from else ts[|ts| - 1]
  }

  lemma {:induction false} RunTracks(c: Clock, from: nat, ts: seq<nat>)
    requires c.Valid() && Tracks(c, from) && Spaced(from, ts)
    requires forall i | 0 <= i < |ts| :: TrueMicros(ts[i]) / U32 < U32
    ensures Tracks(After(c, Measures(ts)), Latest(from, ts))
    decreases |ts|
  {
    if ts != [] {
      var d := Observe(c, MeasureAt(ts[0]));
      TracksOn(c, from, ts[0]);
      assert Measures(ts)[0] == MeasureAt(ts[0]) && Measures(ts)[1..] == Measures(ts[1..]);
      assert forall i | 0 <= i < |ts[1..]| :: ts[1..][i] == ts[i + 1];
      RunTracks(d, ts[0], ts[1..]);
    }
  }

  /** From start, over any such run: true minus reported microseconds lies in
      `[0, 999 + q]` after `q` rollovers. */
  lemma BoundedDrift(ts: seq<nat>)
    requires Spaced(0, ts)
    requires forall i | 0 <= i < |ts| :: TrueMicros(ts[i]) / U32 < U32
    ensures var c := After(START, Measures(ts));
            && c.rollover == TrueMicros(Latest(0, ts)) / U32
            && TrueMicros(Latest(0, ts)) - c.Reading() == TrueMicros(Latest(0, ts)) % U32 % 1000 + c.rollover
            && 0 <= TrueMicros(Latest(0, ts)) - c.Reading() <= 999 + c.rollover
  {
    RunTracks(START, 0, ts);
    DriftOfTracking(After(START, Measures(ts)), Latest(0, ts));
  }

  /** Whenever a clock that tracks is called again `gap` ticks later, it still tracks. */
  ghost predicate SafeGap(gap: nat) {
    forall c: Clock, t: nat {:trigger Tracks(c, t)} ::
      c.Valid() && Tracks(c, t) && TrueMicros(t + gap) / U32 < U32 ==> Tracks(Observe(c, MeasureAt(t + gap)), t + gap)
  }

  /** No gap beyond the longest is safe: one of two clocks that track misses a wrap. */
  lemma LongGapMisses(gap: nat) returns (c: Clock, t: nat)
    requires TrueMicros(gap) > LONGEST_GAP && TrueMicros(gap) / U32 < U32
    ensures c.Valid() && Tracks(c, t) && TrueMicros(t + gap) / U32 < U32
    ensures !Tracks(Observe(c, MeasureAt(t + gap)), t + gap)
  {
    if gap == LONGEST_GAP / 1000 + 1 {
      c, t := Clock(1, 0), 4294968;
      assert TrueMicros(t + gap) / U32 == 2;
    } else {
      c, t := START, 0;
      assert TrueMicros(gap) / U32 >= 1;
    }
    MeasureOfTrueTick(t + gap);
  }

  /** For every gap over which rollovers can be counted: it is safe exactly when
      it is at most the longest. */
  lemma SafeGapExact(gap: nat)
    requires TrueMicros(gap) / U32 < U32
    ensures SafeGap(gap) <==> TrueMicros(gap) <= LONGEST_GAP
  {
    if TrueMicros(gap) <= LONGEST_GAP {
      forall c: Clock, t: nat | c.Valid() && Tracks(c, t) && TrueMicros(t + gap) / U32 < U32
        ensures Tracks(Observe(c, MeasureAt(t + gap)), t + gap)
      {
        TracksOn(c, t, t + gap);
      }
    } else {
      var c, t := LongGapMisses(gap);
    }
  }

  // ----------------------------------------------------------------- method

  /** `tv_sec` and `tv_nsec` recombine to the reading; nanoseconds stay below a second. */
  predicate Splits(us: nat, sec: nat, nsec: nat) {
    nsec < 1_000_000_000 && sec * 1_000_000_000 + nsec == us * 1000
  }

  /** The first call reports the true time rounded down to a millisecond, at any tick rate. */
  lemma FirstReport(tick: nat, ticksPerSecond: nat, sec: nat, nsec: nat)
    requires 0 < ticksPerSecond && tick * 1000 < U32 && tick * 1_000_000 / ticksPerSecond < U32
    requires Splits(Observe(START, Measure(tick, ticksPerSecond)).Reading(), sec, nsec)
    ensures nsec % 1_000_000 == 0
    ensures var ms := sec * 1000 + nsec / 1_000_000;
            ms * ticksPerSecond <= tick * 1000 < (ms + 1) * ticksPerSecond
  {
    MeasureExact(tick, ticksPerSecond);
    var m := Measure(tick, ticksPerSecond);
    FirstReading(m);
    WholeReport(m, sec, nsec);
    ThousandTimes(tick * 1000, ticksPerSecond, sec * 1000 + nsec / 1_000_000);
  }

  lemma FirstReading(m: Micros32)
    ensures Observe(START, m).Reading() == m
  {
  }

  lemma WholeReport(us: nat, sec: nat, nsec: nat)
    requires Splits(us, sec, nsec) && us % 1000 == 0
    ensures nsec % 1_000_000 == 0 && (sec * 1000 + nsec / 1_000_000) * 1000 == us
  {
    var k := us / 1000 - sec * 1000;
    assert us == us / 1000 * 1000;
    assert nsec == 1_000_000 * k;
  }

  class ClockSource {
    var rollover: nat
    var lastMeasure: nat

    constructor ()
      ensures Now() == START
    {
      rollover, lastMeasure := 0, 0;
    }

    ghost function Now(): Clock
      reads this
    {
      Clock(rollover, lastMeasure)
    }

    method GetTime(tick: nat, ticksPerSecond: nat) returns (sec: nat, nsec: nat)
      requires 0 < ticksPerSecond && Now().Valid()
      modifies this
      ensures Now() == Observe(old(Now()), Measure(tick, ticksPerSecond))
      ensures Splits(Now().Reading(), sec, nsec)
      ensures old(Now()) == START && tick * 1000 < U32 && tick * 1_000_000 / ticksPerSecond < U32 ==>
                var ms := sec * 1000 + nsec / 1_000_000;
                nsec % 1_000_000 == 0 && ms * ticksPerSecond <= tick * 1000 < (ms + 1) * ticksPerSecond
    {
      var m := Measure(tick, ticksPerSecond);
      rollover := (rollover + if m < lastMeasure then 1 else 0) % U32;
      var realUs := (m + rollover * ROLLOVER_USECONDS) % U64;
      sec := realUs / 1_000_000;
      nsec := realUs % 1_000_000 * 1000;
      lastMeasure := m;
      if old(Now()) == START && tick * 1000 < U32 && tick * 1_000_000 / ticksPerSecond < U32 {
        FirstReport(tick, ticksPerSecond, sec, nsec);
      }
    }
  }
}
