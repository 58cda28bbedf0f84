/** Which remote RTP source a stream listens to (src/rtp/source.rs). */
module RemoteSource {
  import opened Wrappers

  type Sequence = s: nat | s <= U16_MAX

  /** 16-bit wrap-around. */
  function Successor(s: Sequence): Sequence { if s == U16_MAX then 0 else s + 1 }

  datatype Policy = Policy(probation: nat, allowSwitch: bool) {
    predicate Valid() { 1 <= probation <= 255 }
  }

  datatype Observation = Current | Probation(observed: nat, required: nat) | Bound | Switched | Rejected

  datatype Candidate = Candidate(ssrc: nat, lastSequence: Sequence, sequential: nat)

  /** One event of the tracker's life. */
  datatype Event = Packet(ssrc: nat, sequence: Sequence) | Authorize(ssrc: nat) | Clear

  datatype Tracker = Tracker(policy: Policy, active: Option<nat>, candidate: Option<Candidate>) {
    function Streak(ssrc: nat, sequence: Sequence): nat {
      if candidate.Some? && candidate.value.ssrc == ssrc && Successor(candidate.value.lastSequence) == sequence
      then
        var next := if candidate.value.sequential >= 255 then 255 else candidate.value.sequential + 1;
        if next <= policy.probation then next else policy.probation
      else 1
    }

    function Observe(ssrc: nat, sequence: Sequence): (Tracker, Observation) {
      if active == Some(ssrc) then (this.(candidate := None), Current)
      else if active.Some? && !policy.allowSwitch then (this, Rejected)
      else
        var streak := Streak(ssrc, sequence);
        if streak < policy.probation then
          (this.(candidate := Some(Candidate(ssrc, sequence, streak))), Probation(streak, policy.probation))
        else (this.(active := Some(ssrc), candidate := None), if active.Some? then Switched else Bound)
    }

    function Do(e: Event): Tracker {
      match e
      case Packet(ssrc, sequence) => Observe(ssrc, sequence).0
      case Authorize(ssrc) => this.(active := Some(ssrc), candidate := None)
      case Clear => this.(active := None, candidate := None)
    }
  }

  function Run(t: Tracker, events: seq<Event>): Tracker {
    if events == [] then t else Run(t, events[..|events| - 1]).Do(events[|events| - 1])
  }

  /** The last `n` events are packets of this source with consecutive sequence numbers up to `sequence`. */
  predicate Sequential(events: seq<Event>, n: nat, ssrc: nat, sequence: Sequence) {
    n <= |events| && forall i | 0 <= i < n :: events[|events| - 1 - i] == Packet(ssrc, Back(sequence, i))
  }

  function Predecessor(s: Sequence): Sequence { if s == 0 then U16_MAX else s - 1 }

  /** The number `i` packets earlier. */
  function Back(sequence: Sequence, i: nat): Sequence
    decreases i
  {
    if i == 0 then sequence else Back(Predecessor(sequence), i - 1)
  }

  /** A candidate's count is backed by that many packets at the end of the log. */
  predicate Backed(t: Tracker, events: seq<Event>) {
    t.candidate.Some? ==>
      && 1 <= t.candidate.value.sequential < t.policy.probation
      && (t.active.None? || t.policy.allowSwitch)
      && Sequential(events, t.candidate.value.sequential, t.candidate.value.ssrc, t.candidate.value.lastSequence)
  }

  lemma BackOne(sequence: Sequence, i: nat)
    ensures Back(Successor(sequence), i + 1) == Back(sequence, i)
  {
    assert Predecessor(Successor(sequence)) == sequence;
  }

  lemma SequentialGrows(events: seq<Event>, n: nat, ssrc: nat, sequence: Sequence, next: Sequence)
    requires Sequential(events, n, ssrc, sequence) && next == Successor(sequence)
    ensures Sequential(events + [Packet(ssrc, next)], n + 1, ssrc, next)
  {
    var longer := events + [Packet(ssrc, next)];
    forall i | 0 <= i < n + 1
      ensures longer[|longer| - 1 - i] == Packet(ssrc, Back(next, i))
    {
      if i > 0 {
        BackOne(sequence, i - 1);
        assert longer[|longer| - 1 - i] == events[|events| - 1 - (i - 1)];
      }
    }
  }

  lemma SequentialStarts(events: seq<Event>, ssrc: nat, sequence: Sequence)
    ensures Sequential(events + [Packet(ssrc, sequence)], 1, ssrc, sequence)
  {
  }

  lemma StreakIsBacked(t: Tracker, events: seq<Event>, ssrc: nat, sequence: Sequence)
    requires t.policy.Valid() && Backed(t, events)
    ensures 1 <= t.Streak(ssrc, sequence) <= t.policy.probation
    ensures Sequential(events + [Packet(ssrc, sequence)], t.Streak(ssrc, sequence), ssrc, sequence)
  {
    SequentialStarts(events, ssrc, sequence);
    if t.candidate.Some? && t.candidate.value.ssrc == ssrc {
      var c := t.candidate.value;
      if Successor(c.lastSequence) == sequence {
        SequentialGrows(events, c.sequential, ssrc, c.lastSequence, sequence);
      }
    }
  }

  lemma EventKeepsBacked(t: Tracker, events: seq<Event>, e: Event)
    requires t.policy.Valid() && Backed(t, events)
    ensures Backed(t.Do(e), events + [e]) && t.Do(e).policy == t.policy
  {
    if e.Packet? {
      StreakIsBacked(t, events, e.ssrc, e.sequence);
    }
  }

  lemma {:induction false} EveryRunIsBacked(t: Tracker, events: seq<Event>)
    requires t.policy.Valid() && t.candidate.None?
    ensures Backed(Run(t, events), events) && Run(t, events).policy == t.policy
  {
    if events != [] {
      var init, last := events[..|events| - 1], events[|events| - 1];
      EveryRunIsBacked(t, init);
      EventKeepsBacked(Run(t, init), init, last);
      assert events == init + [last];
    }
  }

  /**
   * In every run, a packet changes the active source only as the last of
   * `probation` consecutive packets of that source, and never where switching
   * is not allowed.
   */
  lemma SourceChangesOnlyAfterProbation(t: Tracker, events: seq<Event>, ssrc: nat, sequence: Sequence)
    requires t.policy.Valid() && t.candidate.None?
    requires Run(t, events).Observe(ssrc, sequence).0.active != Run(t, events).active
    ensures Run(t, events).Observe(ssrc, sequence).0.active == Some(ssrc)
    ensures Sequential(events + [Packet(ssrc, sequence)], t.policy.probation, ssrc, sequence)
    ensures Run(t, events).active.None? || t.policy.allowSwitch
    ensures Run(t, events).Observe(ssrc, sequence).1 == if Run(t, events).active.None? then Bound else Switched
  {
    EveryRunIsBacked(t, events);
    StreakIsBacked(Run(t, events), events, ssrc, sequence);
  }

  /** The packets of one source with consecutive numbers from `sequence` on. */
  function Burst(ssrc: nat, sequence: Sequence, n: nat): seq<Event>
    decreases n
  {
    if n == 0 then [] else [Packet(ssrc, sequence)] + Burst(ssrc, Successor(sequence), n - 1)
  }

  function RunFrom(t: Tracker, events: seq<Event>): Tracker
    decreases |events|
  {
    if events == [] then t else RunFrom(t.Do(events[0]), events[1..])
  }

  /** The tracker still waits for `n` more packets of this source, the next one with this number. */
  predicate Waiting(t: Tracker, ssrc: nat, sequence: Sequence, n: nat) {
    t.active != Some(ssrc) ==>
      t.candidate.Some? && t.candidate.value.ssrc == ssrc && Successor(t.candidate.value.lastSequence) == sequence
      && t.candidate.value.sequential + n >= t.policy.probation
  }

  lemma {:induction false} BurstFinishes(t: Tracker, ssrc: nat, sequence: Sequence, n: nat)
    requires t.policy.Valid() && (t.active.None? || t.policy.allowSwitch || t.active == Some(ssrc))
    requires t.candidate.Some? ==> 1 <= t.candidate.value.sequential < t.policy.probation
    requires Waiting(t, ssrc, sequence, n)
    ensures RunFrom(t, Burst(ssrc, sequence, n)).active == Some(ssrc)
    decreases n
  {
    if n > 0 {
      var u := t.Observe(ssrc, sequence).0;
      assert Burst(ssrc, sequence, n)[1..] == Burst(ssrc, Successor(sequence), n - 1);
      BurstFinishes(u, ssrc, Successor(sequence), n - 1);
    }
  }

  /** Conversely, `probation` consecutive packets are always enough where switching is possible. */
  lemma ProbationIsEnough(t: Tracker, ssrc: nat, sequence: Sequence)
    requires t.policy.Valid() && (t.active.None? || t.policy.allowSwitch || t.active == Some(ssrc))
    requires t.candidate.Some? ==> 1 <= t.candidate.value.sequential < t.policy.probation
    ensures RunFrom(t, Burst(ssrc, sequence, t.policy.probation)).active == Some(ssrc)
  {
    var u, n := t.Observe(ssrc, sequence).0, t.policy.probation - 1;
    assert Burst(ssrc, sequence, n + 1)[1..] == Burst(ssrc, Successor(sequence), n);
    BurstFinishes(u, ssrc, Successor(sequence), n);
  }

  // ---------------------------------------------------------------------------
  // The tracker said by its log
  // ---------------------------------------------------------------------------

  /** How many packets of one source with consecutive numbers the log ends with. */
  function RunLength(events: seq<Event>): nat {
    if events == [] || !events[|events| - 1].Packet? then 0
    else
      var init, last := events[..|events| - 1], events[|events| - 1];
      if init != [] && init[|init| - 1] == Packet(last.ssrc, Predecessor(last.sequence)) then RunLength(init) + 1 else 1
  }

  /** May a packet of this source change the source listened to? */
  predicate Eligible(policy: Policy, listening: Option<nat>, ssrc: nat) {
    listening != Some(ssrc) && (listening.None? || policy.allowSwitch)
  }

  /**
   * The source a log leads to: the last one authorized since the last clearing,
   * unless an eligible source has since sent enough consecutive packets.
   */
  function Listening(policy: Policy, initial: Option<nat>, events: seq<Event>): Option<nat> {
    if events == [] then initial
    else
      var before := Listening(policy, initial, events[..|events| - 1]);
      match events[|events| - 1]
      case Authorize(ssrc) => Some(ssrc)
      case Clear => None
      case Packet(ssrc, _) =>
        if Eligible(policy, before, ssrc) && RunLength(events) >= policy.probation then Some(ssrc) else before
  }

  /** What the tracker answers to the packet the log ends with. */
  function AnswerTo(policy: Policy, initial: Option<nat>, events: seq<Event>): Observation
    requires events != [] && events[|events| - 1].Packet?
  {
    var before, ssrc := Listening(policy, initial, events[..|events| - 1]), events[|events| - 1].ssrc;
    if before == Some(ssrc) then Current
    else if !Eligible(policy, before, ssrc) then Rejected
    else if RunLength(events) < policy.probation then Probation(RunLength(events), policy.probation)
    else if before.Some? then Switched else Bound
  }

  /** The candidate is the source the log ends with, if it is eligible. */
  predicate Remembers(t: Tracker, events: seq<Event>) {
    if events != [] && events[|events| - 1].Packet? && Eligible(t.policy, t.active, events[|events| - 1].ssrc) then
      && RunLength(events) < t.policy.probation
      && t.candidate == Some(Candidate(events[|events| - 1].ssrc, events[|events| - 1].sequence, RunLength(events)))
    else t.candidate.None?
  }

  lemma StreakIsRun(t: Tracker, events: seq<Event>, ssrc: nat, sequence: Sequence)
    requires t.policy.Valid() && Remembers(t, events) && Eligible(t.policy, t.active, ssrc)
    ensures t.Streak(ssrc, sequence) == RunLength(events + [Packet(ssrc, sequence)]) <= t.policy.probation
  {
    var after := events + [Packet(ssrc, sequence)];
    assert after[..|after| - 1] == events;
    assert forall q: Sequence :: Successor(q) == sequence <==> q == Predecessor(sequence);
  }

  /** After any log the tracker listens where the log says, and answered its last packet accordingly. */
  lemma {:induction false} TrackerIsItsLog(t: Tracker, events: seq<Event>)
    requires t.policy.Valid() && t.candidate.None?
    ensures Run(t, events).policy == t.policy && Run(t, events).active == Listening(t.policy, t.active, events)
    ensures Remembers(Run(t, events), events)
    ensures events != [] && events[|events| - 1].Packet? ==>
              Run(t, events[..|events| - 1]).Observe(events[|events| - 1].ssrc, events[|events| - 1].sequence).1
              == AnswerTo(t.policy, t.active, events)
  {
    if events != [] {
      var init, last := events[..|events| - 1], events[|events| - 1];
      TrackerIsItsLog(t, init);
      assert events == init + [last];
      if last.Packet? && Eligible(t.policy, Run(t, init).active, last.ssrc) {
        StreakIsRun(Run(t, init), init, last.ssrc, last.sequence);
      }
    }
  }

  // ---------------------------------------------------------------------------
  // The tracker in place
  // ---------------------------------------------------------------------------

  class RemoteSourceTracker {
    const policy: Policy
    var active: Option<nat>
    var candidate: Option<Candidate>
    var activePackets: nat
    var probationPackets: nat
    var bindings: nat
    var switches: nat
    var rejected: nat

    function AsTracker(): Tracker
      reads this
    {
      Tracker(policy, active, candidate)
    }

    constructor (expected: Option<nat>, policy: Policy)
      ensures AsTracker() == Tracker(policy, expected, None)
      ensures activePackets == probationPackets == bindings == switches == rejected == 0
    {
      this.policy, active, candidate := policy, expected, None;
      activePackets, probationPackets, bindings, switches, rejected := 0, 0, 0, 0, 0;
    }

    method Observe(ssrc: nat, sequence: Sequence) returns (r: Observation)
      modifies this
      ensures (AsTracker(), r) == old(AsTracker()).Observe(ssrc, sequence)
      ensures activePackets == if r.Current? then SaturatingAdd(old(activePackets), 1) else old(activePackets)
      ensures rejected == if r.Rejected? then SaturatingAdd(old(rejected), 1) else old(rejected)
      ensures bindings == if r.Bound? then SaturatingAdd(old(bindings), 1) else old(bindings)
      ensures switches == if r.Switched? then SaturatingAdd(old(switches), 1) else old(switches)
      ensures probationPackets ==
              if r.Current? || r.Rejected? then old(probationPackets) else SaturatingAdd(old(probationPackets), 1)
    {
      if active == Some(ssrc) {
        candidate := None;
        activePackets := SaturatingAdd(activePackets, 1);
        return Current;
      }
      if active.Some? && !policy.allowSwitch {
        rejected := SaturatingAdd(rejected, 1);
        return Rejected;
      }
      probationPackets := SaturatingAdd(probationPackets, 1);
      var streak := AsTracker().Streak(ssrc, sequence);
      if streak < policy.probation {
        candidate := Some(Candidate(ssrc, sequence, streak));
        return Probation(streak, policy.probation);
      }
      var switched := active.Some?;
      active, candidate := Some(ssrc), None;
      if switched {
        switches := SaturatingAdd(switches, 1);
        return Switched;
      }
      bindings := SaturatingAdd(bindings, 1);
      return Bound;
    }

    method AuthorizeSource(ssrc: nat) returns (changed: bool)
      modifies this
      ensures AsTracker() == old(AsTracker()).Do(Authorize(ssrc))
      ensures changed <==> old(active) != Some(ssrc)
      ensures bindings == if changed && old(active).None? then SaturatingAdd(old(bindings), 1) else old(bindings)
      ensures switches == if changed && old(active).Some? then SaturatingAdd(old(switches), 1) else old(switches)
      ensures unchanged(`activePackets, `probationPackets, `rejected)
    {
      candidate := None;
      if active == Some(ssrc) {
        return false;
      }
      if active.Some? {
        switches := SaturatingAdd(switches, 1);
      } else {
        bindings := SaturatingAdd(bindings, 1);
      }
      active := Some(ssrc);
      return true;
    }

    method ClearSource()
      modifies `active, `candidate
      ensures AsTracker() == old(AsTracker()).Do(Clear)
    {
      active, candidate := None, None;
    }
  }
}
