/**
 * Fixed-rate scheduling (src/util/time.rs) and the media clock that uses it
 * (src/call/execution/runtime.rs). Times are nanoseconds.
 */
module Periodic {
  import opened Wrappers
  import opened Division

  const MEDIA_TICK_INTERVAL: nat := 10_000_000
  const MAX_MEDIA_TICKS_PER_CYCLE: nat := 8

  datatype TimeError = ZeroInterval | ZeroExecutionLimit | Overflow

  datatype Advance = Advance(due: nat, executed: nat, nextDeadline: nat)

  function CheckedDeadline(now: nat, delay: nat): Result<nat, TimeError> {
    if now + delay > DURATION_MAX then Err(Overflow) else Ok(now + delay)
  }

  /** Seconds must fit 64 bits; a 128-bit product that overflows is longer still. */
  function CheckedDurationMul(value: nat, multiplier: nat): Result<nat, TimeError> {
    if value * multiplier / NANOS_PER_SECOND > U64_MAX then Err(Overflow) else Ok(value * multiplier)
  }

  function AdvancePeriodic(next: nat, now: nat, interval: nat, limit: nat): Result<Option<Advance>, TimeError> {
    if interval == 0 then Err(ZeroInterval)
    else if limit == 0 then Err(ZeroExecutionLimit)
    else if now < next then Ok(None)
    else
      var due := (now - next) / interval + 1;
      if due > U64_MAX then Err(Overflow)
      else match CheckedDurationMul(interval, due)
        case Err(error) => Err(error)
        case Ok(advance) =>
          match CheckedDeadline(next, advance)
          case Err(error) => Err(error)
          case Ok(deadline) => Ok(Some(Advance(due, if due <= limit then due else limit, deadline)))
  }

  // ---------------------------------------------------------------------------
  // One advance
  // ---------------------------------------------------------------------------

  /** `due` grid instants, and no more, have come by `now`: the last of them has, the next has not. */
  predicate Counts(next: nat, now: nat, interval: nat, due: nat) {
    due >= 1 && next + interval * due - interval <= now < next + interval * due
  }

  lemma DueCounts(next: nat, now: nat, interval: nat)
    requires interval > 0 && next <= now
    ensures Counts(next, now, interval, (now - next) / interval + 1)
  {
    var q := (now - next) / interval;
    QuotientBounds(now - next, interval);
    assert interval * (q + 1) == q * interval + interval;
  }

  lemma CountIsUnique(next: nat, now: nat, interval: nat, due: nat)
    requires interval > 0 && Counts(next, now, interval, due)
    ensures next <= now && due == (now - next) / interval + 1
  {
    assert interval * due - interval == (due - 1) * interval;
    assert (due - 1) * interval >= 0;
    QuotientIs(now - next, interval, due - 1);
  }

  predicate Representable(next: nat, interval: nat, due: nat) {
    due <= U64_MAX && next + interval * due <= DURATION_MAX
  }

  lemma MulFits(interval: nat, due: nat)
    ensures CheckedDurationMul(interval, due).Ok? <==> interval * due <= DURATION_MAX
  {
    var product := interval * due;
    assert product == product / NANOS_PER_SECOND * NANOS_PER_SECOND + product % NANOS_PER_SECOND;
  }

  /**
   * An advance succeeds exactly when the number of instants due and the new
   * deadline are representable; it then counts exactly the grid instants that
   * came, leaves the deadline on the grid and in (now, now + interval].
   */
  lemma AdvanceIsExact(next: nat, now: nat, interval: nat, limit: nat, due: nat)
    requires interval > 0 && limit > 0 && Counts(next, now, interval, due)
    ensures AdvancePeriodic(next, now, interval, limit) ==
            if Representable(next, interval, due)
            then Ok(Some(Advance(due, if due <= limit then due else limit, next + interval * due)))
            else Err(Overflow)
    ensures now < next + interval * due <= now + interval
  {
    CountIsUnique(next, now, interval, due);
    MulFits(interval, due);
  }

  /** A schedule without an interval or a limit is refused, and before its deadline nothing is due. */
  lemma OtherAnswers(next: nat, now: nat, interval: nat, limit: nat)
    ensures AdvancePeriodic(next, now, interval, limit) == Err(ZeroInterval) <==> interval == 0
    ensures AdvancePeriodic(next, now, interval, limit) == Err(ZeroExecutionLimit) <==> interval > 0 && limit == 0
    ensures AdvancePeriodic(next, now, interval, limit) == Ok(None) <==> interval > 0 && limit > 0 && now < next
  {
  }

  // ---------------------------------------------------------------------------
  // Polling in one go or in two
  // ---------------------------------------------------------------------------

  lemma SplitCounts(next: nat, interval: nat, first: nat, t1: nat, second: nat, t2: nat)
    requires interval > 0 && Counts(next, t1, interval, first) && Counts(next + interval * first, t2, interval, second)
    ensures Counts(next, t2, interval, first + second)
    ensures next + interval * (first + second) == next + interval * first + interval * second
  {
    assert interval * (first + second) == interval * first + interval * second;
    assert interval * first >= 0;
  }

  /**
   * If one poll at `t2` succeeds, so do polls at `t1` and then `t2`, with the
   * same deadline and the same total.
   */
  lemma SplittingIsSafe(next: nat, t1: nat, t2: nat, interval: nat, limit: nat)
    requires interval > 0 && limit > 0 && next <= t1 <= t2
    requires AdvancePeriodic(next, t2, interval, limit).Ok?
    ensures AdvancePeriodic(next, t1, interval, limit).Ok?
    ensures var whole := AdvancePeriodic(next, t2, interval, limit).value.value;
            var first := AdvancePeriodic(next, t1, interval, limit).value.value;
            var second := AdvancePeriodic(first.nextDeadline, t2, interval, limit);
            && second.Ok?
            && match second.value
               case None => first.due == whole.due && first.nextDeadline == whole.nextDeadline
               case Some(s) => first.due + s.due == whole.due && s.nextDeadline == whole.nextDeadline
  {
    var first := (t1 - next) / interval + 1;
    DueCounts(next, t1, interval);
    DueCounts(next, t2, interval);
    AdvanceIsExact(next, t2, interval, limit, (t2 - next) / interval + 1);
    if t2 < next + interval * first {
      SameCount(next, t1, t2, interval, first);
      AdvanceIsExact(next, t1, interval, limit, first);
    } else {
      var second := (t2 - (next + interval * first)) / interval + 1;
      DueCounts(next + interval * first, t2, interval);
      SplitCounts(next, interval, first, t1, second, t2);
      CountIsUnique(next, t2, interval, first + second);
      AdvanceIsExact(next, t1, interval, limit, first);
      AdvanceIsExact(next + interval * first, t2, interval, limit, second);
    }
  }

  lemma SameCount(next: nat, t1: nat, t2: nat, interval: nat, due: nat)
    requires interval > 0 && Counts(next, t1, interval, due) && t1 <= t2 < next + interval * due
    ensures Counts(next, t2, interval, due) && (t2 - next) / interval + 1 == due
  {
    CountIsUnique(next, t2, interval, due);
  }

  /** If polls at `t1` and `t2` succeed, one poll at `t2` does exactly when the total due fits 64 bits. */
  lemma JoiningIsSafeExactly(next: nat, t1: nat, t2: nat, interval: nat, limit: nat, first: Advance, second: Advance)
    requires interval > 0 && limit > 0 && next <= t1 <= t2
    requires AdvancePeriodic(next, t1, interval, limit) == Ok(Some(first))
    requires AdvancePeriodic(first.nextDeadline, t2, interval, limit) == Ok(Some(second))
    ensures var whole := AdvancePeriodic(next, t2, interval, limit);
            && (whole.Ok? <==> first.due + second.due <= U64_MAX)
            && (whole.Ok? ==> whole.value.Some? && whole.value.value.due == first.due + second.due
                              && whole.value.value.nextDeadline == second.nextDeadline)
  {
    DueCounts(next, t1, interval);
    AdvanceIsExact(next, t1, interval, limit, first.due);
    DueCounts(first.nextDeadline, t2, interval);
    AdvanceIsExact(first.nextDeadline, t2, interval, limit, second.due);
    SplitCounts(next, interval, first.due, t1, second.due, t2);
    AdvanceIsExact(next, t2, interval, limit, first.due + second.due);
  }

  /** Two polls a nanosecond apart succeed where the one poll they could be overflows. */
  lemma OnePollOverflows()
    ensures AdvancePeriodic(0, U64_MAX - 1, 1, 1) == Ok(Some(Advance(U64_MAX, 1, U64_MAX)))
    ensures AdvancePeriodic(U64_MAX, U64_MAX, 1, 1) == Ok(Some(Advance(1, 1, U64_MAX + 1)))
    ensures AdvancePeriodic(0, U64_MAX, 1, 1) == Err(Overflow)
  {
    AdvanceIsExact(0, U64_MAX - 1, 1, 1, U64_MAX);
    AdvanceIsExact(U64_MAX, U64_MAX, 1, 1, 1);
    AdvanceIsExact(0, U64_MAX, 1, 1, U64_MAX + 1);
  }

  // ---------------------------------------------------------------------------
  // The media clock
  // ---------------------------------------------------------------------------

  /** `process_media_clock`: an error leaves everything as it was. */
  datatype Media = Media(next: Option<nat>, ticks: nat, skipped: nat) {
    function Process(now: nat): (Media, Option<TimeError>) {
      if next.None? then (this, None)
      else match AdvancePeriodic(next.value, now, MEDIA_TICK_INTERVAL, MAX_MEDIA_TICKS_PER_CYCLE)
        case Err(error) => (this, Some(error))
        case Ok(None) => (this, None)
        case Ok(Some(a)) =>
          (Media(Some(a.nextDeadline),
                 SaturatingAdd(ticks, a.executed),
                 SaturatingAdd(skipped, a.due - a.executed)), None)
    }
  }

  function Run(m: Media, times: seq<nat>): Media {
    if times == [] then m else Run(m, times[..|times| - 1]).Process(times[|times| - 1]).0
  }

  function Sum(counts: seq<nat>): nat {
    if counts == [] then 0 else Sum(counts[..|counts| - 1]) + counts[|counts| - 1]
  }

  /** At most eight instants are played in one poll; the rest are skipped. */
  function Played(counts: seq<nat>): nat {
    if counts == [] then 0
    else
      var last := counts[|counts| - 1];
      Played(counts[..|counts| - 1]) + if last <= 8 then last else 8
  }

  function Limited(n: nat): nat { if n > U64_MAX then U64_MAX else n }

  /** After polls that passed these numbers of grid instants: the deadline is on the grid and each instant counted. */
  predicate OnGrid(start: Media, m: Media, counts: seq<nat>)
    requires start.next.Some?
  {
    && m.next == Some(start.next.value + MEDIA_TICK_INTERVAL * Sum(counts))
    && m.ticks == Limited(start.ticks + Played(counts))
    && Played(counts) <= Sum(counts) && m.skipped == Limited(start.skipped + (Sum(counts) - Played(counts)))
  }

  /** One poll passes exactly the instants that came, or fails and changes nothing. */
  lemma ProcessKeepsGrid(start: Media, m: Media, counts: seq<nat>, now: nat) returns (count: nat)
    requires start.next.Some? && OnGrid(start, m, counts)
    ensures OnGrid(start, m.Process(now).0, counts + [count]) && Passes(m, now, count)
    ensures m.Process(now).1.Some? ==> m.Process(now).0 == m && count == 0
    ensures m.Process(now).1.None? ==>
              && now < m.Process(now).0.next.value
              && if now < m.next.value then count == 0 && m.Process(now).0 == m
                 else Counts(m.next.value, now, MEDIA_TICK_INTERVAL, count)
    ensures m.Process(now).1.Some? <==>
              m.next.value <= now &&
              !Representable(m.next.value, MEDIA_TICK_INTERVAL, (now - m.next.value) / MEDIA_TICK_INTERVAL + 1)
  {
    count := 0;
    if m.next.value <= now {
      var due := (now - m.next.value) / MEDIA_TICK_INTERVAL + 1;
      DueCounts(m.next.value, now, MEDIA_TICK_INTERVAL);
      AdvanceIsExact(m.next.value, now, MEDIA_TICK_INTERVAL, MAX_MEDIA_TICKS_PER_CYCLE, due);
      if Representable(m.next.value, MEDIA_TICK_INTERVAL, due) {
        count := due;
      }
    }
    assert (counts + [count])[..|counts|] == counts;
  }

  lemma NothingPolled(m: Media)
    requires m.next.Some? && m.ticks <= U64_MAX && m.skipped <= U64_MAX
    ensures OnGrid(m, m, [])
  {
  }

  /**
   * Over any run of polls the deadline stays on its grid, every grid instant
   * passed is counted exactly once, and at most eight of one poll are played.
   */
  lemma {:induction false} GridIsKept(m: Media, times: seq<nat>) returns (counts: seq<nat>)
    requires m.next.Some? && m.ticks <= U64_MAX && m.skipped <= U64_MAX
    ensures |counts| == |times| && OnGrid(m, Run(m, times), counts)
    ensures forall i | 0 <= i < |times| :: Passes(Run(m, times[..i]), times[i], counts[i])
  {
    hide OnGrid, Passes, Media.Process;
    if times == [] {
      counts := [];
      assert OnGrid(m, m, []) by { NothingPolled(m); }
    } else {
      var init, last := times[..|times| - 1], times[|times| - 1];
      var before := GridIsKept(m, init);
      var count := ProcessKeepsGrid(m, Run(m, init), before, last);
      counts := before + [count];
      forall i | 0 <= i < |init| ensures times[..i] == init[..i] && times[i] == init[i] {}
    }
  }

  /** A poll at `now` passes `count` grid instants: those that came since the deadline, or none if it fails. */
  predicate Passes(m: Media, now: nat, count: nat) {
    m.next.Some? &&
    if m.Process(now).1.Some? || now < m.next.value then count == 0
    else Counts(m.next.value, now, MEDIA_TICK_INTERVAL, count)
  }
}
