/** Modular RTP timestamps (src/rtp/clock.rs). */
module RtpTimestamps {
  const TIMESTAMP_SPACE: nat := 0x1_0000_0000
  const HALF_SPACE: nat := 0x8000_0000

  /** `wrapping_timestamp_distance`: forward distance from `older` to `newer`. */
  function WrappingDistance(newer: nat, older: nat): nat {
    (newer - older) % TIMESTAMP_SPACE
  }

  /** `signed_timestamp_distance`: that distance read as a 32-bit signed number. */
  function SignedDistance(newer: nat, older: nat): int {
    var d := WrappingDistance(newer, older);
    if d < HALF_SPACE then d else d - TIMESTAMP_SPACE
  }

  /** A 32-bit timestamp that lies in the half of the circle starting at `base`. */
  predicate InWindow(base: nat, timestamp: nat) {
    timestamp < TIMESTAMP_SPACE && WrappingDistance(timestamp, base) < HALF_SPACE
  }

  /**
   * Up to and including half the circle a timestamp that looks newer is
   * further from the base, and distance zero means the same timestamp.
   */
  lemma NewerIsFurther(base: nat, a: nat, b: nat)
    requires a < TIMESTAMP_SPACE && WrappingDistance(a, base) <= HALF_SPACE
    requires b < TIMESTAMP_SPACE && WrappingDistance(b, base) <= HALF_SPACE
    ensures SignedDistance(a, b) > 0 ==> WrappingDistance(a, base) > WrappingDistance(b, base)
    ensures WrappingDistance(a, base) == WrappingDistance(b, base) ==> a == b
  {
    var x, y := WrappingDistance(a, base), WrappingDistance(b, base);
    DistanceOfOffsets(base, a, b);
    if x == y {
      assert WrappingDistance(a, b) == 0;
      SameTimestamp(a, b);
    }
  }

  lemma DistanceOfOffsets(base: nat, a: nat, b: nat)
    ensures var x, y := WrappingDistance(a, base), WrappingDistance(b, base);
            WrappingDistance(a, b) == if x >= y then x - y else x - y + TIMESTAMP_SPACE
  {
    var x, y := WrappingDistance(a, base), WrappingDistance(b, base);
    var k, l := (a - base) / TIMESTAMP_SPACE, (b - base) / TIMESTAMP_SPACE;
    assert a - b == (x - y) + (k - l) * TIMESTAMP_SPACE;
    ModuloOfShift(x - y, k - l);
  }

  lemma SameTimestamp(a: nat, b: nat)
    requires a < TIMESTAMP_SPACE && b < TIMESTAMP_SPACE && WrappingDistance(a, b) == 0
    ensures a == b
  {
  }

  /** Within half the circle the signed distance is a true order: it subtracts offsets. */
  lemma SignedDistanceIsOffset(base: nat, a: nat, b: nat)
    requires InWindow(base, a) && InWindow(base, b)
    ensures SignedDistance(a, b) == WrappingDistance(a, base) - WrappingDistance(b, base)
    ensures SignedDistance(a, b) == 0 <==> a == b
  {
    DistanceOfOffsets(base, a, b);
    if WrappingDistance(a, b) == 0 {
      SameTimestamp(a, b);
    }
  }

  lemma ModuloOfShift(v: int, k: int)
    ensures (v + k * TIMESTAMP_SPACE) % TIMESTAMP_SPACE == v % TIMESTAMP_SPACE
  {
  }
}

/** The drift-free media clock (src/rtp/clock.rs). */
module RtpClock {
  import opened Wrappers
  import opened Division
  import opened RtpTimestamps

  const MAX_RTP_CLOCK_RATE: nat := 1_000_000_000
  const U128_MAX: nat := 0xFFFF_FFFF_FFFF_FFFF_FFFF_FFFF_FFFF_FFFF

  datatype ClockError = ZeroRate | RateTooHigh | ArithmeticOverflow | TickCountOverflow | DurationOverflow

  /** A rate accepted by `RtpClockRate::new`. */
  type ClockRate = r: nat | 1 <= r <= MAX_RTP_CLOCK_RATE witness 8_000

  /** A duration as the standard library can hold it, in nanoseconds. */
  type Nanos = n: nat | n <= DURATION_MAX

  function NewRate(ticksPerSecond: nat): Result<ClockRate, ClockError> {
    if ticksPerSecond == 0 then Err(ZeroRate)
    else if ticksPerSecond > MAX_RTP_CLOCK_RATE then Err(RateTooHigh)
    else Ok(ticksPerSecond)
  }

  /** Every rate from one tick to a thousand million a second, and no other. */
  lemma RatesAre(ticksPerSecond: nat)
    ensures NewRate(ticksPerSecond).Ok? <==> 1 <= ticksPerSecond <= 1_000_000_000
    ensures NewRate(ticksPerSecond) == Err(ZeroRate) <==> ticksPerSecond == 0
    ensures NewRate(ticksPerSecond) == Err(RateTooHigh) <==> ticksPerSecond > 1_000_000_000
  {
  }

  // ---------------------------------------------------------------------------
  // One-shot conversions
  // ---------------------------------------------------------------------------

  function DurationForTicks(rate: ClockRate, ticks: nat): Result<Nanos, ClockError> {
    if ticks * NANOS_PER_SECOND > U128_MAX then Err(ArithmeticOverflow)
    else
      var nanos := ticks * NANOS_PER_SECOND / rate;
      if nanos > DURATION_MAX then Err(DurationOverflow) else Ok(nanos)
  }

  function TicksForDuration(rate: ClockRate, duration: Nanos): Result<nat, ClockError> {
    if duration * rate > U128_MAX then Err(ArithmeticOverflow)
    else
      var ticks := duration * rate / NANOS_PER_SECOND;
      if ticks > U64_MAX then Err(TickCountOverflow) else Ok(ticks)
  }

  /** The 128-bit product never overflows for an accepted rate and a representable duration. */
  lemma ProductFits(rate: ClockRate, duration: Nanos)
    ensures duration * rate <= DURATION_MAX * MAX_RTP_CLOCK_RATE <= U128_MAX - NANOS_PER_SECOND
  {
    ProductIsMonotone(duration, DURATION_MAX, rate);
    ProductIsMonotone(rate, MAX_RTP_CLOCK_RATE, DURATION_MAX);
  }

  lemma ProductIsMonotone(a: nat, b: nat, c: nat)
    requires a <= b
    ensures a * c <= b * c
  {
  }

  lemma ProductGrows(k: nat, d: nat)
    requires d > 0
    ensures k <= k * d
  {
  }

  /**
   * Ticks to a duration and back always succeeds and loses at most one tick; it
   * loses none exactly when the duration is a whole number of nanoseconds.
   */
  lemma TicksRoundTrip(rate: ClockRate, ticks: nat)
    requires ticks <= U64_MAX
    ensures var d := DurationForTicks(rate, ticks);
            && d.Ok?
            && var back := TicksForDuration(rate, d.value);
               && back.Ok?
               && back.value == if ticks * NANOS_PER_SECOND % rate == 0 then ticks else ticks - 1
  {
    var n := ticks * NANOS_PER_SECOND;
    var nanos := n / rate;
    FloorIsSmaller(n, rate);
    var d: Nanos := nanos;
    ProductFits(rate, d);
    BackToTicks(rate, ticks);
  }

  /** A duration converts exactly when its ticks fit 64 bits. */
  lemma ConversionFailsExactly(rate: ClockRate, duration: Nanos)
    ensures TicksForDuration(rate, duration) ==
            if duration * rate < (U64_MAX + 1) * NANOS_PER_SECOND then Ok(duration * rate / NANOS_PER_SECOND)
            else Err(TickCountOverflow)
  {
    ProductFits(rate, duration);
    QuotientBounds(duration * rate, NANOS_PER_SECOND);
  }

  lemma FloorIsSmaller(n: nat, d: nat)
    requires d > 0
    ensures n / d <= n
  {
    QuotientBounds(n, d);
    ProductGrows(n / d, d);
  }

  lemma BackToTicks(rate: ClockRate, ticks: nat)
    ensures var n := ticks * NANOS_PER_SECOND;
            (n / rate) * rate / NANOS_PER_SECOND == if n % rate == 0 then ticks else ticks - 1
  {
    var n := ticks * NANOS_PER_SECOND;
    var whole, lost := (n / rate) * rate, n % rate;
    assert n == whole + lost;
    if lost == 0 {
      QuotientIs(whole, NANOS_PER_SECOND, ticks);
    } else {
      assert (ticks - 1) * NANOS_PER_SECOND == n - NANOS_PER_SECOND;
      QuotientIs(whole, NANOS_PER_SECOND, ticks - 1);
    }
  }

  // ---------------------------------------------------------------------------
  // The running clock
  // ---------------------------------------------------------------------------

  datatype Clock = Clock(rate: ClockRate, timestamp: nat, fraction: nat) {

    predicate Valid() { timestamp < TIMESTAMP_SPACE && fraction < NANOS_PER_SECOND }

    function AdvanceError(elapsed: Nanos): Option<ClockError> {
      if elapsed * rate + fraction > U128_MAX then Some(ArithmeticOverflow)
      else if (elapsed * rate + fraction) / NANOS_PER_SECOND > U64_MAX then Some(TickCountOverflow)
      else None
    }

    /** Whole ticks emitted by advancing; the timestamp adds their low 32 bits. */
    function Ticks(elapsed: Nanos): nat {
      (elapsed * rate + fraction) / NANOS_PER_SECOND
    }

    function Advance(elapsed: Nanos): Clock {
      if AdvanceError(elapsed).Some? then this
      else this.(timestamp := (timestamp + Ticks(elapsed) % TIMESTAMP_SPACE) % TIMESTAMP_SPACE,
                 fraction := (elapsed * rate + fraction) % NANOS_PER_SECOND)
    }

    function Do(op: Op): Clock {
      match op
      case Elapse(time) => Advance(time)
      case Skip(ticks) => this.(timestamp := (timestamp + ticks) % TIMESTAMP_SPACE)
      case Restart(initial) => Clock(rate, initial, 0)
    }
  }

  type Timestamp = t: nat | t < TIMESTAMP_SPACE

  /** `advance`, `advance_ticks` and `reset`. */
  datatype Op = Elapse(time: Nanos) | Skip(ticks: Timestamp) | Restart(initial: Timestamp)

  /** An advance fails exactly when it would emit more ticks than 64 bits count. */
  lemma AdvanceFailsExactly(c: Clock, elapsed: Nanos)
    requires c.Valid()
    ensures c.AdvanceError(elapsed) ==
            if elapsed * c.rate + c.fraction < (U64_MAX + 1) * NANOS_PER_SECOND then None else Some(TickCountOverflow)
  {
    var owed := elapsed * c.rate + c.fraction;
    ProductFits(c.rate, elapsed);
    QuotientBounds(owed, NANOS_PER_SECOND);
  }

  function Run(c: Clock, ops: seq<Op>): Clock {
    if ops == [] then c else Run(c, ops[..|ops| - 1]).Do(ops[|ops| - 1])
  }

  // ---------------------------------------------------------------------------
  // Nothing is lost
  // ---------------------------------------------------------------------------

  /**
   * What happened since the clock was last anchored: the time that advances
   * accounted for, the ticks they emitted, and the ticks added directly.
   */
  datatype Ledger = Ledger(anchor: Clock, elapsed: nat, emitted: nat, added: nat) {
    function Note(r: Clock, op: Op): Ledger {
      match op
      case Elapse(time) =>
        if r.AdvanceError(time).Some? then this
        else this.(elapsed := elapsed + time, emitted := emitted + r.Ticks(time))
      case Skip(ticks) => this.(added := added + ticks)
      case Restart(initial) => Ledger(Clock(r.rate, initial, 0), 0, 0, 0)
    }

    /** Rate times elapsed time, in billionths of a tick. */
    function Owed(): nat { anchor.rate * elapsed + anchor.fraction }

    /** The clock that these totals alone determine. */
    function Settled(): Clock {
      Clock(anchor.rate,
            (anchor.timestamp + (Owed() / NANOS_PER_SECOND + added)) % TIMESTAMP_SPACE,
            Owed() % NANOS_PER_SECOND)
    }
  }

  function LedgerOf(c: Clock, ops: seq<Op>): Ledger {
    if ops == [] then Ledger(c, 0, 0, 0)
    else LedgerOf(c, ops[..|ops| - 1]).Note(Run(c, ops[..|ops| - 1]), ops[|ops| - 1])
  }

  /** Emitted ticks and the retained fraction together are exactly rate times elapsed time. */
  ghost predicate Balanced(l: Ledger, r: Clock) {
    && l.anchor.Valid() && r.Valid() && r.rate == l.anchor.rate
    && l.emitted * NANOS_PER_SECOND + r.fraction == l.Owed()
    && r.timestamp == (l.anchor.timestamp + (l.emitted + l.added)) % TIMESTAMP_SPACE
  }

  lemma BalanceAdds(rate: nat, emitted: nat, ticks: nat, kept: nat, left: nat, elapsed: nat, step: nat, initial: nat)
    requires emitted * NANOS_PER_SECOND + kept == rate * elapsed + initial
    requires ticks * NANOS_PER_SECOND + left == step * rate + kept
    ensures (emitted + ticks) * NANOS_PER_SECOND + left == rate * (elapsed + step) + initial
  {
    assert rate * (elapsed + step) == rate * elapsed + step * rate;
  }

  lemma AdvanceBalances(c: Clock, elapsed: Nanos)
    requires c.Valid() && c.AdvanceError(elapsed).None?
    ensures c.Ticks(elapsed) * NANOS_PER_SECOND + c.Advance(elapsed).fraction == elapsed * c.rate + c.fraction
    ensures c.Advance(elapsed).Valid()
  {
  }

  lemma AddWrapped(timestamp: nat, before: nat, ticks: nat)
    ensures ((timestamp + before) % TIMESTAMP_SPACE + ticks % TIMESTAMP_SPACE) % TIMESTAMP_SPACE
         == (timestamp + (before + ticks)) % TIMESTAMP_SPACE
  {
    var a, b := timestamp + before, ticks;
    var k := a / TIMESTAMP_SPACE + b / TIMESTAMP_SPACE;
    assert a % TIMESTAMP_SPACE + b % TIMESTAMP_SPACE == a + b + (-k) * TIMESTAMP_SPACE;
    ModuloOfShift(a + b, -k);
  }

  lemma AdvanceKeepsBalance(l: Ledger, r: Clock, time: Nanos)
    requires Balanced(l, r) && r.AdvanceError(time).None?
    ensures Balanced(l.Note(r, Elapse(time)), r.Advance(time))
  {
    var ticks := r.Ticks(time);
    AdvanceBalances(r, time);
    BalanceAdds(r.rate, l.emitted, ticks, r.fraction, r.Advance(time).fraction, l.elapsed, time, l.anchor.fraction);
    AddWrapped(l.anchor.timestamp, l.emitted + l.added, ticks);
    assert l.emitted + ticks + l.added == l.emitted + l.added + ticks;
  }

  lemma SkipKeepsBalance(l: Ledger, r: Clock, ticks: Timestamp)
    requires Balanced(l, r)
    ensures Balanced(l.Note(r, Skip(ticks)), r.Do(Skip(ticks)))
  {
    AddWrapped(l.anchor.timestamp, l.emitted + l.added, ticks);
    assert ticks % TIMESTAMP_SPACE == ticks;
    assert l.emitted + (l.added + ticks) == l.emitted + l.added + ticks;
  }

  /**
   * After any mix of advances, direct ticks and resets, nothing has been lost
   * since the last reset.
   */
  lemma {:induction false} DriftFree(c: Clock, ops: seq<Op>)
    requires c.Valid()
    ensures Balanced(LedgerOf(c, ops), Run(c, ops))
    decreases |ops|
  {
    if ops != [] {
      var init, last := ops[..|ops| - 1], ops[|ops| - 1];
      DriftFree(c, init);
      match last
      case Elapse(time) =>
        if Run(c, init).AdvanceError(time).None? {
          AdvanceKeepsBalance(LedgerOf(c, init), Run(c, init), time);
        }
      case Skip(ticks) => SkipKeepsBalance(LedgerOf(c, init), Run(c, init), ticks);
      case Restart(_) =>
    }
  }

  lemma BalanceSettles(l: Ledger, r: Clock)
    requires Balanced(l, r)
    ensures r == l.Settled() && l.emitted == l.Owed() / NANOS_PER_SECOND
  {
    QuotientIs(l.Owed(), NANOS_PER_SECOND, l.emitted);
    assert l.Owed() % NANOS_PER_SECOND == l.Owed() - l.Owed() / NANOS_PER_SECOND * NANOS_PER_SECOND;
  }

  /** The clock is determined by its last anchor and the totals since, however they came about. */
  lemma OnlyTotalsMatter(c: Clock, ops: seq<Op>)
    requires c.Valid()
    ensures Run(c, ops) == LedgerOf(c, ops).Settled()
    ensures LedgerOf(c, ops).emitted == LedgerOf(c, ops).Owed() / NANOS_PER_SECOND
  {
    DriftFree(c, ops);
    BalanceSettles(LedgerOf(c, ops), Run(c, ops));
  }

  /**
   * Two ways of splitting the same elapsed time and the same added ticks emit
   * the same ticks and leave the same clock.
   */
  lemma SplitDoesNotMatter(c: Clock, one: seq<Op>, two: seq<Op>)
    requires c.Valid() && LedgerOf(c, one).anchor == LedgerOf(c, two).anchor
    requires LedgerOf(c, one).elapsed == LedgerOf(c, two).elapsed && LedgerOf(c, one).added == LedgerOf(c, two).added
    ensures Run(c, one) == Run(c, two) && LedgerOf(c, one).emitted == LedgerOf(c, two).emitted
  {
    DriftFree(c, one);
    DriftFree(c, two);
    SameTotals(LedgerOf(c, one), Run(c, one), LedgerOf(c, two), Run(c, two));
  }

  lemma SameTotals(l: Ledger, r: Clock, m: Ledger, q: Clock)
    requires Balanced(l, r) && Balanced(m, q)
    requires l.anchor == m.anchor && l.elapsed == m.elapsed && l.added == m.added
    ensures r == q && l.emitted == m.emitted
  {
    assert l.Owed() == m.Owed();
    BalanceSettles(l, r);
    BalanceSettles(m, q);
    assert l.Settled() == m.Settled();
  }

  /** A reset forgets: clocks of one rate that are reset alike stay alike, whatever they did before. */
  lemma {:induction false} ResetForgets(c: Clock, d: Clock, one: seq<Op>, two: seq<Op>, initial: Timestamp,
                                        later: seq<Op>)
    requires c.Valid() && d.Valid() && c.rate == d.rate
    ensures Run(c, one + [Restart(initial)] + later) == Run(d, two + [Restart(initial)] + later)
    decreases |later|
  {
    var first, second := one + [Restart(initial)], two + [Restart(initial)];
    if later == [] {
      assert first + later == first && second + later == second;
      assert first[..|one|] == one && second[..|two|] == two;
      DriftFree(c, one);
      DriftFree(d, two);
      RateStays(c, one);
      RateStays(d, two);
    } else {
      var init := later[..|later| - 1];
      assert (first + later)[..|first + later| - 1] == first + init;
      assert (second + later)[..|second + later| - 1] == second + init;
      ResetForgets(c, d, one, two, initial, init);
    }
  }

  lemma {:induction false} RateStays(c: Clock, ops: seq<Op>)
    ensures Run(c, ops).rate == c.rate
  {
    if ops != [] {
      RateStays(c, ops[..|ops| - 1]);
    }
  }

  class MediaClock {
    const rate: ClockRate
    var timestamp: nat
    var fraction: nat

    ghost predicate Valid()
      reads this
    {
      AsClock().Valid()
    }

    ghost function AsClock(): Clock
      reads this
    {
      Clock(rate, timestamp, fraction)
    }

    constructor (rate: ClockRate, initial: Timestamp)
      ensures Valid() && AsClock() == Clock(rate, initial, 0)
    {
      this.rate, timestamp, fraction := rate, initial, 0;
    }

    method Advance(elapsed: Nanos) returns (r: Result<nat, ClockError>)
      requires Valid()
      modifies this
      ensures Valid() && AsClock() == old(AsClock()).Do(Elapse(elapsed))
      ensures r == if old(AsClock()).AdvanceError(elapsed).Some? then Err(TickCountOverflow)
                   else Ok(old(AsClock()).Ticks(elapsed))
    {
      ProductFits(rate, elapsed);
      var numerator := elapsed * rate + fraction;
      if numerator > U128_MAX {
        return Err(ArithmeticOverflow);
      }
      var whole, remainder := numerator / NANOS_PER_SECOND, numerator % NANOS_PER_SECOND;
      if whole > U64_MAX {
        return Err(TickCountOverflow);
      }
      timestamp := (timestamp + whole % TIMESTAMP_SPACE) % TIMESTAMP_SPACE;
      fraction := remainder;
      r := Ok(whole);
    }

    method AdvanceTicks(ticks: Timestamp)
      requires Valid()
      modifies this
      ensures Valid() && AsClock() == old(AsClock()).Do(Skip(ticks))
    {
      timestamp := (timestamp + ticks) % TIMESTAMP_SPACE;
    }

    method Reset(newTimestamp: Timestamp)
      requires Valid()
      modifies this
      ensures Valid() && AsClock() == old(AsClock()).Do(Restart(newTimestamp))
    {
      timestamp, fraction := newTimestamp, 0;
    }
  }
}
