/** RFC 4733 telephone-event payloads (src/rtp/dtmf/event.rs). */
module TelephoneEvents {
  import opened Wrappers

  const TELEPHONE_EVENT_BYTES: nat := 4
  const MAX_VOLUME: nat := 63

  /** Keypad keys 0-9, star, pound, A-D by their event codes. */
  type DtmfDigit = d: nat | d < 16

  datatype EventCode = Digit(digit: DtmfDigit) | Flash | Other(value: Byte)

  function FromRaw(value: Byte): EventCode {
    if value < 16 then Digit(value) else if value == 16 then Flash else Other(value)
  }

  function AsRaw(code: EventCode): Byte {
    match code
    case Digit(digit) => digit
    case Flash => 16
    case Other(value) => value
  }

  datatype TelephoneEvent = TelephoneEvent(code: EventCode, end: bool, volume: nat, duration: nat) {
    predicate Valid() { volume <= MAX_VOLUME && duration <= U16_MAX }
  }

  datatype EventError = Truncated | TrailingBytes | ReservedBitSet

  function BigEndian(high: nat, low: nat): nat { 256 * high + low }

  function Parse(input: seq<Byte>): Result<TelephoneEvent, EventError> {
    if |input| < TELEPHONE_EVENT_BYTES then Err(Truncated)
    else if |input| > TELEPHONE_EVENT_BYTES then Err(TrailingBytes)
    else if input[1] / 64 % 2 != 0 then Err(ReservedBitSet)
    else Ok(TelephoneEvent(FromRaw(input[0]), input[1] / 128 != 0, input[1] % 64, BigEndian(input[2], input[3])))
  }

  function Encode(event: TelephoneEvent): seq<Byte>
    requires event.Valid()
  {
    [AsRaw(event.code), (if event.end then 128 else 0) + event.volume, event.duration / 256, event.duration % 256]
  }

  /**
   * Encoding then parsing gives the event back exactly when its code is the one
   * the wire value is classified as: `Other` must not name a digit or the flash.
   */
  lemma ParseEncoded(event: TelephoneEvent)
    requires event.Valid()
    ensures Parse(Encode(event)) == Ok(event) <==> !(event.code.Other? && event.code.value <= 16)
    ensures Parse(Encode(event)).Ok?
    ensures Parse(Encode(event)).value == event.(code := FromRaw(AsRaw(event.code)))
  {
    assert BigEndian(event.duration / 256, event.duration % 256) == event.duration;
  }

  /** Section 2.3 of RFC 4733: code, end bit, reserved bit, volume, and a duration with its high byte first. */
  lemma ParsesExactly(input: seq<Byte>, event: TelephoneEvent)
    ensures Parse(input) == Ok(event) <==>
              && |input| == 4 && FromRaw(input[0]) == event.code && event.volume <= 63
              && input[1] == (if event.end then 128 else 0) + event.volume
              && event.duration == BigEndian(input[2], input[3])
    ensures Parse(input) == Err(Truncated) <==> |input| < 4
    ensures Parse(input) == Err(TrailingBytes) <==> |input| > 4
    ensures Parse(input) == Err(ReservedBitSet) <==> |input| == 4 && (64 <= input[1] < 128 || 192 <= input[1])
  {
  }

  /** The codes on the wire: sixteen keys, the flash, and everything else. */
  lemma CodesAre(value: Byte)
    ensures FromRaw(value).Digit? <==> value < 16
    ensures FromRaw(value) == Flash <==> value == 16
    ensures AsRaw(FromRaw(value)) == value && BigEndian(3, 32) == 800
  {
  }

  /** Every accepted payload is reproduced byte for byte. */
  lemma EncodeParsed(input: seq<Byte>)
    requires Parse(input).Ok?
    ensures Parse(input).value.Valid() && Encode(Parse(input).value) == input
  {
    var event := Parse(input).value;
    assert input[1] == (if event.end then 128 else 0) + event.volume;
    assert BigEndian(input[2], input[3]) / 256 == input[2];
  }
}

/** The telephone-event generator (src/rtp/dtmf/sender.rs). */
module DtmfSending {
  import opened Wrappers
  import opened TelephoneEvents

  const MAX_END_REPETITIONS: nat := 10

  datatype Config = Config(packetTicks: nat, maximumTicks: nat, volume: nat, endRepetitions: nat) {
    predicate Valid() {
      && 0 < packetTicks <= maximumTicks <= U16_MAX
      && volume <= MAX_VOLUME
      && 1 <= endRepetitions <= MAX_END_REPETITIONS
    }

    /** `increment`: the saturating 16-bit sum never exceeds the ceiling. */
    function Increment(duration: nat): nat {
      var sum := if duration + packetTicks > U16_MAX then U16_MAX else duration + packetTicks;
      if sum > maximumTicks then maximumTicks else sum
    }
  }

  datatype Phase = Active | Ending(remaining: nat, finalReady: bool)

  datatype ActiveEvent = ActiveEvent(code: EventCode, timestamp: nat, duration: nat, packets: nat, phase: Phase)

  datatype Packet = Packet(timestamp: nat, marker: bool, event: TelephoneEvent, finalRetransmission: bool)

  datatype SenderError = EventAlreadyActive | NoActiveEvent

  function Saturate(count: nat, limit: nat): nat {
    if count < limit then count + 1 else count
  }

  // ---------------------------------------------------------------------------
  // One event, step by step
  // ---------------------------------------------------------------------------

  function Started(code: EventCode, timestamp: nat): ActiveEvent {
    ActiveEvent(code, timestamp, 0, 0, Active)
  }

  function EndRequested(config: Config, a: ActiveEvent): ActiveEvent {
    if a.phase.Active? then a.(phase := Ending(config.endRepetitions, false)) else a
  }

  /** The event after its next packet, before a last retransmission retires it. */
  function Stepped(config: Config, a: ActiveEvent): ActiveEvent
    requires config.Valid() && (a.phase.Ending? ==> a.phase.remaining > 0)
  {
    var grown := config.Increment(a.duration);
    var stepped :=
      match a.phase
      case Active =>
        if grown == config.maximumTicks then a.(duration := grown, phase := Ending(config.endRepetitions - 1, true))
        else a.(duration := grown)
      case Ending(remaining, finalReady) =>
        a.(duration := if finalReady then a.duration else grown, phase := Ending(remaining - 1, true));
    stepped.(packets := Saturate(a.packets, U32_MAX))
  }

  function PacketOf(config: Config, a: ActiveEvent): Packet
    requires config.Valid() && (a.phase.Ending? ==> a.phase.remaining > 0)
  {
    var s := Stepped(config, a);
    Packet(a.timestamp, a.packets == 0,
           TelephoneEvent(a.code, s.phase.Ending?, config.volume, s.duration),
           s.phase.Ending? && s.phase.remaining == 0)
  }

  function AfterPacket(config: Config, a: ActiveEvent): Option<ActiveEvent>
    requires config.Valid() && (a.phase.Ending? ==> a.phase.remaining > 0)
  {
    if PacketOf(config, a).finalRetransmission then None else Some(Stepped(config, a))
  }

  // ---------------------------------------------------------------------------
  // Every run of one event
  // ---------------------------------------------------------------------------

  datatype Command = NextPacket | RequestEnd | Abort

  /** The active event, if any, the packets emitted so far, and whether it was cut short. */
  datatype Run = Run(active: Option<ActiveEvent>, packets: seq<Packet>, aborted: bool)

  /** What `packets` of one event look like, however long it ran and however it ended. */
  ghost predicate Train(config: Config, code: EventCode, timestamp: nat, packets: seq<Packet>) {
    && (forall i | 0 <= i < |packets| ::
          && packets[i].timestamp == timestamp && packets[i].event.code == code
          && packets[i].event.volume == config.volume && packets[i].event.Valid()
          && (packets[i].marker <==> i == 0))
    && (forall i, j | 0 <= i < j < |packets| ::
          if packets[i].event.end
          then packets[j].event.end && packets[j].event.duration == packets[i].event.duration
          else packets[i].event.duration < packets[j].event.duration)
  }

  function EndCount(packets: seq<Packet>): nat {
    if packets == [] then 0
    else EndCount(packets[..|packets| - 1]) + if packets[|packets| - 1].event.end then 1 else 0
  }

  /** The active event continues the train. */
  ghost predicate Continues(config: Config, code: EventCode, timestamp: nat, r: Run) {
    && Train(config, code, timestamp, r.packets)
    && EndCount(r.packets) <= config.endRepetitions
    && (r.active.Some? ==> Reaches(config, code, timestamp, r.active.value, r.packets))
    && (r.active.None? && !r.aborted ==> EndCount(r.packets) == config.endRepetitions)
  }

  ghost predicate Reaches(config: Config, code: EventCode, timestamp: nat, a: ActiveEvent, packets: seq<Packet>) {
    && a.code == code && a.timestamp == timestamp && (a.packets == 0 <==> packets == [])
    && a.duration == (if packets == [] then 0 else packets[|packets| - 1].event.duration)
    && match a.phase
       case Active => a.duration < config.maximumTicks && EndCount(packets) == 0
       case Ending(remaining, finalReady) =>
         if finalReady then
           packets != [] && packets[|packets| - 1].event.end
           && 0 < remaining && EndCount(packets) + remaining == config.endRepetitions
         else
           a.duration < config.maximumTicks && EndCount(packets) == 0 && remaining == config.endRepetitions
  }

  function Obey(config: Config, r: Run, command: Command): Run
    requires config.Valid()
    requires r.active.Some? && r.active.value.phase.Ending? ==> r.active.value.phase.remaining > 0
  {
    if r.active.None? then r
    else match command
      case RequestEnd => r.(active := Some(EndRequested(config, r.active.value)))
      case Abort => r.(active := None, aborted := true)
      case NextPacket =>
        Run(AfterPacket(config, r.active.value), r.packets + [PacketOf(config, r.active.value)], r.aborted)
  }

  lemma {:induction false} EndCountZero(packets: seq<Packet>)
    ensures EndCount(packets) == 0 <==> forall i | 0 <= i < |packets| :: !packets[i].event.end
  {
    if packets != [] {
      var n := |packets| - 1;
      EndCountZero(packets[..n]);
      assert forall i | 0 <= i < n :: packets[..n][i] == packets[i];
    }
  }

  lemma PacketExtendsTrain(config: Config, code: EventCode, timestamp: nat, a: ActiveEvent, packets: seq<Packet>)
    requires config.Valid() && Train(config, code, timestamp, packets) && Reaches(config, code, timestamp, a, packets)
    ensures Train(config, code, timestamp, packets + [PacketOf(config, a)])
  {
    EndCountZero(packets);
    var p := PacketOf(config, a);
    assert a.phase.Active? || !a.phase.finalReady ==> config.Increment(a.duration) > a.duration;
  }

  lemma PacketReaches(config: Config, code: EventCode, timestamp: nat, a: ActiveEvent, packets: seq<Packet>)
    requires config.Valid() && Reaches(config, code, timestamp, a, packets)
    ensures var more := packets + [PacketOf(config, a)];
            && EndCount(more) <= config.endRepetitions
            && match AfterPacket(config, a)
               case Some(next) => Reaches(config, code, timestamp, next, more)
               case None => EndCount(more) == config.endRepetitions
  {
    var more := packets + [PacketOf(config, a)];
    assert more[..|packets|] == packets;
  }

  lemma ObeyContinues(config: Config, code: EventCode, timestamp: nat, r: Run, command: Command)
    requires config.Valid() && Continues(config, code, timestamp, r)
    ensures Continues(config, code, timestamp, Obey(config, r, command))
  {
    if r.active.Some? && command.NextPacket? {
      PacketExtendsTrain(config, code, timestamp, r.active.value, r.packets);
      PacketReaches(config, code, timestamp, r.active.value, r.packets);
    }
  }

  /**
   * The run of one event under any commands. Its packets form a train: one
   * timestamp and code, a marker on the first packet only, durations that grow
   * until the first end packet and then repeat. An event that was not aborted
   * stops only after exactly the configured number of end packets.
   */
  function RunOf(config: Config, code: EventCode, timestamp: nat, commands: seq<Command>): (r: Run)
    requires config.Valid()
    ensures Continues(config, code, timestamp, r)
  {
    if commands == [] then Run(Some(Started(code, timestamp)), [], false)
    else
      var n := |commands| - 1;
      var before := RunOf(config, code, timestamp, commands[..n]);
      ObeyContinues(config, code, timestamp, before, commands[n]);
      Obey(config, before, commands[n])
  }

  // ---------------------------------------------------------------------------
  // The packets of a run, written out
  // ---------------------------------------------------------------------------

  /** The duration of the `i`th packet while the event lasts: whole packets up to the ceiling. */
  function Grown(config: Config, i: nat): nat {
    if (i + 1) * config.packetTicks < config.maximumTicks then (i + 1) * config.packetTicks else config.maximumTicks
  }

  /** The packet that reaches the ceiling. */
  function Ceiling(config: Config): nat
    requires config.Valid()
  {
    (config.maximumTicks - 1) / config.packetTicks
  }

  lemma CeilingIsReached(config: Config, i: nat)
    requires config.Valid()
    ensures Grown(config, i) == config.maximumTicks <==> i >= Ceiling(config)
    ensures config.Increment(0) == Grown(config, 0)
    ensures config.Increment(Grown(config, i)) == Grown(config, i + 1)
  {
    var p, c := config.packetTicks, Ceiling(config);
    assert c * p <= config.maximumTicks - 1 < (c + 1) * p;
    if i >= c {
      assert (i + 1) * p >= (c + 1) * p;
    } else {
      assert (i + 1) * p <= c * p;
    }
    assert (i + 1) * p + p == (i + 1 + 1) * p;
  }

  /** How many packets were asked for. */
  function Asked(commands: seq<Command>): nat {
    if commands == [] then 0
    else Asked(commands[..|commands| - 1]) + if commands[|commands| - 1].NextPacket? then 1 else 0
  }

  /** How many packets were asked for before the first request to end. */
  function EndRequest(commands: seq<Command>): Option<nat> {
    if commands == [] then None
    else
      var before := EndRequest(commands[..|commands| - 1]);
      if before.Some? || !commands[|commands| - 1].RequestEnd? then before else Some(Asked(commands[..|commands| - 1]))
  }

  /** The first end packet: the one after the request to end, or the one at the ceiling. */
  function FirstEnd(config: Config, request: Option<nat>): nat
    requires config.Valid()
  {
    if request.Some? && request.value < Ceiling(config) then request.value else Ceiling(config)
  }

  /** The `i`th packet of an event whose first end packet is packet `first`. */
  function Ideal(config: Config, code: EventCode, timestamp: nat, first: nat, i: nat): Packet {
    Packet(timestamp, i == 0,
           TelephoneEvent(code, i >= first, config.volume, Grown(config, if i < first then i else first)),
           i + 1 == first + config.endRepetitions)
  }

  /** Where the sender stands after `k` packets. */
  predicate Stands(config: Config, code: EventCode, timestamp: nat, request: Option<nat>, k: nat, a: ActiveEvent)
    requires config.Valid()
  {
    var first := FirstEnd(config, request);
    && a.code == code && a.timestamp == timestamp && k < first + config.endRepetitions
    && a.duration == (if k == 0 then 0 else Grown(config, if k - 1 < first then k - 1 else first))
    && (a.packets == 0 <==> k == 0)
    && a.phase == (if k > first then Ending(first + config.endRepetitions - k, true)
                   else if request.Some? then Ending(config.endRepetitions, false) else Active)
  }

  ghost predicate Exact(config: Config, code: EventCode, timestamp: nat, commands: seq<Command>, r: Run)
    requires config.Valid()
  {
    var request, k := EndRequest(commands), |r.packets|;
    var first := FirstEnd(config, request);
    && (request.Some? ==> request.value <= Asked(commands))
    && k == (if Asked(commands) < first + config.endRepetitions then Asked(commands)
             else first + config.endRepetitions)
    && (forall i | 0 <= i < k :: r.packets[i] == Ideal(config, code, timestamp, first, i))
    && !r.aborted
    && (r.active.Some? <==> k < first + config.endRepetitions)
    && (r.active.Some? ==> Stands(config, code, timestamp, request, k, r.active.value))
  }

  lemma PacketIsIdeal(config: Config, code: EventCode, timestamp: nat, request: Option<nat>, k: nat, a: ActiveEvent)
    requires config.Valid() && Stands(config, code, timestamp, request, k, a)
    requires request.Some? ==> request.value <= k
    ensures PacketOf(config, a) == Ideal(config, code, timestamp, FirstEnd(config, request), k)
    ensures AfterPacket(config, a).None? <==> k + 1 == FirstEnd(config, request) + config.endRepetitions
    ensures AfterPacket(config, a).Some? ==>
              Stands(config, code, timestamp, request, k + 1, AfterPacket(config, a).value)
  {
    CeilingIsReached(config, k);
    if k > 0 {
      CeilingIsReached(config, k - 1);
    }
  }

  lemma RequestStands(config: Config, code: EventCode, timestamp: nat, request: Option<nat>, k: nat, a: ActiveEvent)
    requires config.Valid() && Stands(config, code, timestamp, request, k, a)
    requires request.Some? ==> request.value <= k
    ensures var later := if request.Some? then request else Some(k);
            Stands(config, code, timestamp, later, k, EndRequested(config, a))
  {
  }

  /**
   * Every run that is not aborted, packet by packet: durations are whole
   * packets up to the ceiling, the first end packet is the one after the first
   * request to end or the one at the ceiling, and it is sent the configured
   * number of times with the same duration.
   */
  lemma {:induction false} RunIsExact(config: Config, code: EventCode, timestamp: nat, commands: seq<Command>)
    requires config.Valid() && Abort !in commands
    ensures Exact(config, code, timestamp, commands, RunOf(config, code, timestamp, commands))
  {
    if commands != [] {
      var n := |commands| - 1;
      var before := RunOf(config, code, timestamp, commands[..n]);
      RunIsExact(config, code, timestamp, commands[..n]);
      CommandIsExact(config, code, timestamp, commands, before);
    }
  }

  /** An aborted event sends nothing more. */
  lemma {:induction false} AbortIsFinal(
    config: Config, code: EventCode, timestamp: nat, commands: seq<Command>, more: seq<Command>)
    requires config.Valid()
    ensures var r := RunOf(config, code, timestamp, commands + [Abort] + more);
            r.packets == RunOf(config, code, timestamp, commands).packets && r.active.None?
    decreases |more|
  {
    hide PacketOf, AfterPacket, EndRequested, Continues;
    var all := commands + [Abort] + more;
    if more == [] {
      assert all[..|all| - 1] == commands && all[|all| - 1] == Abort;
    } else {
      assert all[..|all| - 1] == commands + [Abort] + more[..|more| - 1];
      AbortIsFinal(config, code, timestamp, commands, more[..|more| - 1]);
    }
  }

  lemma CommandIsExact(config: Config, code: EventCode, timestamp: nat, commands: seq<Command>, r: Run)
    requires config.Valid() && commands != [] && !commands[|commands| - 1].Abort?
    requires Exact(config, code, timestamp, commands[..|commands| - 1], r)
    ensures Exact(config, code, timestamp, commands, Obey(config, r, commands[|commands| - 1]))
  {
    hide PacketOf, AfterPacket, EndRequested, Stands, Grown;
    var n := |commands| - 1;
    if r.active.Some? {
      assert |r.packets| == Asked(commands[..n]);
      if commands[n].NextPacket? {
        PacketIsIdeal(config, code, timestamp, EndRequest(commands), |r.packets|, r.active.value);
      } else {
        RequestStands(config, code, timestamp, EndRequest(commands[..n]), |r.packets|, r.active.value);
      }
    }
  }

  // ---------------------------------------------------------------------------
  // The object updated in place
  // ---------------------------------------------------------------------------

  class DtmfSender {
    const config: Config
    var active: Option<ActiveEvent>
    var started: nat
    var completed: nat
    var cancelled: nat
    var emitted: nat

    ghost predicate Valid()
      reads this
    {
      config.Valid() && (active.Some? && active.value.phase.Ending? ==> active.value.phase.remaining > 0)
    }

    constructor (config: Config)
      requires config.Valid()
      ensures Valid() && active == None && this.config == config
    {
      this.config, active := config, None;
      started, completed, cancelled, emitted := 0, 0, 0, 0;
    }

    method Start(code: EventCode, timestamp: nat) returns (r: Result<(), SenderError>)
      requires Valid()
      modifies this
      ensures Valid()
      ensures old(active).Some? ==> r == Err(EventAlreadyActive) && active == old(active)
      ensures old(active).None? ==> r == Ok(()) && active == Some(Started(code, timestamp))
      ensures started == if r.Ok? then Saturate(old(started), U64_MAX) else old(started)
      ensures unchanged(`completed) && unchanged(`cancelled) && unchanged(`emitted)
    {
      if active.Some? {
        return Err(EventAlreadyActive);
      }
      active := Some(ActiveEvent(code, timestamp, 0, 0, Active));
      started := Saturate(started, U64_MAX);
      r := Ok(());
    }

    method RequestEnd() returns (r: Result<(), SenderError>)
      requires Valid()
      modifies this`active
      ensures Valid()
      ensures r == if old(active).None? then Err(NoActiveEvent) else Ok(())
      ensures active == if old(active).None? then None else Some(EndRequested(config, old(active).value))
    {
      if active.None? {
        return Err(NoActiveEvent);
      }
      if active.value.phase.Active? {
        active := Some(active.value.(phase := Ending(config.endRepetitions, false)));
      }
      r := Ok(());
    }

    /** Emits the packet and moves to the state that `Obey` gives for `NextPacket`. */
    method NextPacket() returns (packet: Option<Packet>)
      requires Valid()
      modifies this`active, this`completed, this`emitted
      ensures old(active).None? ==> packet.None? && active.None?
      ensures old(active).Some? ==>
                && packet == Some(PacketOf(config, old(active).value))
                && active == AfterPacket(config, old(active).value)
      ensures completed == if packet.Some? && packet.value.finalRetransmission
                           then Saturate(old(completed), U64_MAX) else old(completed)
      ensures emitted == if packet.Some? then Saturate(old(emitted), U64_MAX) else old(emitted)
      ensures Valid()
    {
      if active.None? {
        return None;
      }
      var event := active.value;
      var marker := event.packets == 0;
      var isEnd, finalRetransmission := false, false;
      match event.phase {
      case Active =>
        event := event.(duration := config.Increment(event.duration));
        if event.duration == config.maximumTicks {
          var remaining := config.endRepetitions - 1;
          event := event.(phase := Ending(remaining, true));
          isEnd, finalRetransmission := true, remaining == 0;
        }
      case Ending(before, finalReady) =>
        if !finalReady {
          event := event.(duration := config.Increment(event.duration));
        }
        var remaining := before - 1;
        event := event.(phase := Ending(remaining, true));
        isEnd, finalRetransmission := true, remaining == 0;
      }
      event := event.(packets := Saturate(event.packets, U32_MAX));
      packet := Some(Packet(event.timestamp, marker,
                            TelephoneEvent(event.code, isEnd, config.volume, event.duration), finalRetransmission));
      emitted := Saturate(emitted, U64_MAX);
      if finalRetransmission {
        active := None;
        completed := Saturate(completed, U64_MAX);
      } else {
        active := Some(event);
      }
    }

    method Cancel() returns (changed: bool)
      requires Valid()
      modifies this`active, this`cancelled
      ensures Valid() && active == None && changed == old(active).Some?
      ensures cancelled == if changed then Saturate(old(cancelled), U64_MAX) else old(cancelled)
    {
      changed := active.Some?;
      active := None;
      if changed {
        cancelled := Saturate(cancelled, U64_MAX);
      }
    }
  }
}

/** The telephone-event receiver (src/rtp/dtmf/receiver.rs). */
module DtmfReceiving {
  import opened Wrappers
  import opened RtpTimestamps
  import opened TelephoneEvents
  import opened DtmfSending

  datatype Update =
    | Started(code: EventCode, start: nat, volume: nat, duration: nat)
    | Continued(code: EventCode, duration: nat)
    | Ended(code: EventCode, duration: nat, recovered: bool)
    | Replaced(previous: EventCode, current: EventCode, duration: nat)
    | Duplicate
    | Stale

  datatype ReceiveError = MissingStartMarker | ConflictingCode | DurationRegressed

  type Outcome = Result<Update, ReceiveError>

  datatype EventState = EventState(code: EventCode, start: nat, volume: nat, duration: nat)

  datatype Receiver = Receiver(
    requireMarker: bool,
    active: Option<EventState>,
    completed: Option<EventState>,
    completedEvents: nat)
  {
    function Finish(state: EventState): Receiver {
      this.(active := None, completed := Some(state), completedEvents := Saturate(completedEvents, U64_MAX))
    }

    function ObserveActive(current: EventState, event: TelephoneEvent): (Receiver, Outcome) {
      if current.code != event.code then (this, Err(ConflictingCode))
      else if event.duration < current.duration then (this, Err(DurationRegressed))
      else if event.duration == current.duration && !event.end then (this, Ok(Duplicate))
      else
        var updated := current.(volume := event.volume, duration := event.duration);
        if event.end then (Finish(updated), Ok(Ended(updated.code, updated.duration, false)))
        else (this.(active := Some(updated)), Ok(Continued(updated.code, updated.duration)))
    }

    function StartOrRecover(timestamp: nat, event: TelephoneEvent): (Receiver, Outcome) {
      var state := EventState(event.code, timestamp, event.volume, event.duration);
      if event.end then (Finish(state), Ok(Ended(state.code, state.duration, true)))
      else (this.(active := Some(state)), Ok(Update.Started(state.code, timestamp, state.volume, state.duration)))
    }

    function ReplaceActive(current: EventState, timestamp: nat, event: TelephoneEvent): (Receiver, Outcome) {
      var state := EventState(event.code, timestamp, event.volume, event.duration);
      (if event.end then Finish(state) else this.(active := Some(state)),
       Ok(Replaced(current.code, event.code, event.duration)))
    }

    /** `DtmfReceiver::observe`. */
    function Observe(timestamp: nat, marker: bool, event: TelephoneEvent): (Receiver, Outcome) {
      match active
      case Some(current) =>
        if current.start == timestamp then ObserveActive(current, event)
        else if SignedDistance(timestamp, current.start) <= 0 then (this, Ok(Stale))
        else if requireMarker && !marker then (this, Err(MissingStartMarker))
        else ReplaceActive(current, timestamp, event)
      case None =>
        if completed.Some? && completed.value.start == timestamp then
          (this, if completed.value.code != event.code then Err(ConflictingCode) else Ok(Duplicate))
        else if completed.Some? && SignedDistance(timestamp, completed.value.start) <= 0 then (this, Ok(Stale))
        else if requireMarker && !marker then (this, Err(MissingStartMarker))
        else StartOrRecover(timestamp, event)
    }
  }

  function NewReceiver(requireMarker: bool): Receiver {
    Receiver(requireMarker, None, None, 0)
  }

  /** A failed observation leaves the event state as it was. */
  lemma RejectionIsTransactional(r: Receiver, timestamp: nat, marker: bool, event: TelephoneEvent)
    requires r.Observe(timestamp, marker, event).1.Err?
    ensures r.Observe(timestamp, marker, event).0 == r
  {
  }

  // ---------------------------------------------------------------------------
  // One event over a channel that loses, duplicates and reorders
  // ---------------------------------------------------------------------------

  /** The receiver and its answers after these packets arrived, in this order. */
  datatype Reception = Reception(receiver: Receiver, answers: seq<Outcome>)

  function Deliver(requireMarker: bool, arrived: seq<Packet>): Reception {
    if arrived == [] then Reception(NewReceiver(requireMarker), [])
    else
      var n := |arrived| - 1;
      var before := Deliver(requireMarker, arrived[..n]);
      var (receiver, answer) := before.receiver.Observe(arrived[n].timestamp, arrived[n].marker, arrived[n].event);
      Reception(receiver, before.answers + [answer])
  }

  predicate IsEnded(answer: Outcome) { answer.Ok? && answer.value.Ended? }

  function Completions(answers: seq<Outcome>): nat {
    if answers == [] then 0
    else Completions(answers[..|answers| - 1]) + if IsEnded(answers[|answers| - 1]) then 1 else 0
  }

  /** May this packet open an event under the receiver's policy? */
  predicate Opens(requireMarker: bool, p: Packet) {
    requireMarker ==> p.marker
  }

  predicate Opened(requireMarker: bool, arrived: seq<Packet>) {
    exists p | p in arrived :: Opens(requireMarker, p)
  }

  /** Some end packet came with, or after, a packet that may open the event. */
  predicate Completable(requireMarker: bool, arrived: seq<Packet>) {
    exists l | 0 <= l < |arrived| :: arrived[l].event.end && Opened(requireMarker, arrived[..l + 1])
  }

  lemma CompletableStep(requireMarker: bool, arrived: seq<Packet>)
    requires arrived != []
    ensures var n := |arrived| - 1;
            && (Opened(requireMarker, arrived) <==>
                  Opened(requireMarker, arrived[..n]) || Opens(requireMarker, arrived[n]))
            && (Completable(requireMarker, arrived) <==>
                  Completable(requireMarker, arrived[..n]) || (arrived[n].event.end && Opened(requireMarker, arrived)))
  {
    var n := |arrived| - 1;
    assert arrived == arrived[..n] + [arrived[n]];
    assert arrived[..n + 1] == arrived;
    forall l | 0 <= l < n ensures arrived[..l + 1] == arrived[..n][..l + 1] && arrived[..n][l] == arrived[l] {}
    if Completable(requireMarker, arrived[..n]) {
      var l :| 0 <= l < n && arrived[..n][l].event.end && Opened(requireMarker, arrived[..n][..l + 1]);
      assert arrived[l].event.end && Opened(requireMarker, arrived[..l + 1]);
    }
  }

  /** `p` belongs to the event whose final duration is `final`. */
  predicate Belongs(code: EventCode, timestamp: nat, final: nat, p: Packet) {
    && p.timestamp == timestamp && p.event.code == code
    && if p.event.end then p.event.duration == final else p.event.duration < final
  }

  /** A sender's packets all belong to one event. */
  lemma TrainBelongs(config: Config, code: EventCode, timestamp: nat, packets: seq<Packet>) returns (final: nat)
    requires Train(config, code, timestamp, packets)
    ensures forall p | p in packets :: Belongs(code, timestamp, final, p)
  {
    if i :| 0 <= i < |packets| && packets[i].event.end {
      final := packets[i].event.duration;
      forall p | p in packets ensures Belongs(code, timestamp, final, p) {
        var j :| 0 <= j < |packets| && packets[j] == p;
        assert j < i || j == i || i < j;
      }
    } else {
      final := U16_MAX + 1;
    }
  }

  /** What the receiver holds, by what has arrived. */
  ghost predicate Tracks(
    requireMarker: bool, code: EventCode, timestamp: nat, final: nat, arrived: seq<Packet>, r: Receiver)
  {
    && r.requireMarker == requireMarker
    && if Completable(requireMarker, arrived) then
         r.active.None? && r.completed.Some? && r.completedEvents == 1
         && r.completed.value.code == code && r.completed.value.start == timestamp
       else
         r.completed.None? && r.completedEvents == 0
         && (r.active.Some? <==> Opened(requireMarker, arrived))
         && (r.active.Some? ==>
               r.active.value.code == code && r.active.value.start == timestamp && r.active.value.duration < final)
  }

  lemma {:induction false} DeliveryTracks(
    requireMarker: bool, code: EventCode, timestamp: nat, final: nat, arrived: seq<Packet>)
    requires forall p | p in arrived :: Belongs(code, timestamp, final, p)
    ensures var r := Deliver(requireMarker, arrived);
            && Tracks(requireMarker, code, timestamp, final, arrived, r.receiver)
            && Completions(r.answers) == (if Completable(requireMarker, arrived) then 1 else 0)
            && (forall a | a in r.answers && IsEnded(a) :: a.value.code == code && a.value.duration == final)
            && |r.answers| == |arrived|
  {
    if arrived != [] {
      var n := |arrived| - 1;
      DeliveryTracks(requireMarker, code, timestamp, final, arrived[..n]);
      CompletableStep(requireMarker, arrived);
      var before := Deliver(requireMarker, arrived[..n]);
      ObservationTracks(requireMarker, code, timestamp, final, arrived);
      var answers := Deliver(requireMarker, arrived).answers;
      assert answers[..n] == before.answers;
    }
  }

  /** One arrival, in the invariant's terms. */
  lemma ObservationTracks(requireMarker: bool, code: EventCode, timestamp: nat, final: nat, arrived: seq<Packet>)
    requires arrived != [] && Belongs(code, timestamp, final, arrived[|arrived| - 1])
    requires Tracks(requireMarker, code, timestamp, final, arrived[..|arrived| - 1],
                    Deliver(requireMarker, arrived[..|arrived| - 1]).receiver)
    ensures var n := |arrived| - 1;
            var (r, answer) := Deliver(requireMarker, arrived[..n]).receiver
                               .Observe(arrived[n].timestamp, arrived[n].marker, arrived[n].event);
            && Tracks(requireMarker, code, timestamp, final, arrived, r)
            && (IsEnded(answer) <==> Completable(requireMarker, arrived) && !Completable(requireMarker, arrived[..n]))
            && (IsEnded(answer) ==> answer.value.code == code && answer.value.duration == final)
  {
    CompletableStep(requireMarker, arrived);
  }

  /**
   * Exactly once over a bad channel. Take any run of one event and any sequence
   * drawn from its packets: losses, duplicates and reorderings included. The
   * receiver reports the event's end once if an end packet arrives with or
   * after a packet that may open the event, and never otherwise; the reported
   * code and duration are the sender's. For the interoperable policy every
   * packet may open, so one arriving end packet is enough; the strict policy
   * also needs the marked first packet no later than some end packet.
   */
  lemma ExactlyOnce(config: Config, code: EventCode, timestamp: nat, commands: seq<Command>,
                    requireMarker: bool, arrived: seq<Packet>)
    requires config.Valid()
    requires forall p | p in arrived :: p in RunOf(config, code, timestamp, commands).packets
    ensures var r := Deliver(requireMarker, arrived);
            && Completions(r.answers) == r.receiver.completedEvents
            && r.receiver.completedEvents == (if Completable(requireMarker, arrived) then 1 else 0)
            && (forall a | a in r.answers && IsEnded(a) ::
                  && a.value.code == code
                  && forall p | p in RunOf(config, code, timestamp, commands).packets && p.event.end ::
                       p.event.duration == a.value.duration)
            && (!requireMarker ==> (Completable(requireMarker, arrived) <==> exists p | p in arrived :: p.event.end))
  {
    var packets := RunOf(config, code, timestamp, commands).packets;
    var final := TrainBelongs(config, code, timestamp, packets);
    DeliveryTracks(requireMarker, code, timestamp, final, arrived);
    if !requireMarker {
      forall l | 0 <= l < |arrived| && arrived[l].event.end ensures Opened(requireMarker, arrived[..l + 1]) {
        assert arrived[..l + 1][l] == arrived[l] && Opens(requireMarker, arrived[l]);
      }
    }
  }

  // ---------------------------------------------------------------------------
  // One event, arrival by arrival
  // ---------------------------------------------------------------------------

  /** The first arrival that may open the event. */
  function Opening(requireMarker: bool, arrived: seq<Packet>): (r: Option<nat>)
    ensures r.Some? ==> r.value < |arrived| && Opens(requireMarker, arrived[r.value])
    ensures forall i | 0 <= i < (if r.Some? then r.value else |arrived|) :: !Opens(requireMarker, arrived[i])
  {
    if arrived == [] then None
    else
      var n := |arrived| - 1;
      var before := Opening(requireMarker, arrived[..n]);
      if before.Some? then before else if Opens(requireMarker, arrived[n]) then Some(n) else None
  }

  /** No arrival from `from` on is longer than `duration`. */
  predicate Longest(arrived: seq<Packet>, from: nat, duration: nat) {
    forall i | from <= i < |arrived| :: arrived[i].event.duration <= duration
  }

  /** An end packet, at or after the opening, that is no shorter than anything since. */
  predicate Closes(arrived: seq<Packet>, from: nat, l: nat) {
    from <= l < |arrived| && arrived[l].event.end && Longest(arrived[..l], from, arrived[l].event.duration)
  }

  /** The arrival that ends the event. */
  predicate Ends(arrived: seq<Packet>, from: nat, l: nat) {
    Closes(arrived, from, l) && forall i | from <= i < l :: !Closes(arrived, from, i)
  }

  predicate HasEnded(arrived: seq<Packet>, from: nat) { exists l | from <= l < |arrived| :: Closes(arrived, from, l) }

  /** The first arrival since the opening that is as long as any. */
  predicate Peak(arrived: seq<Packet>, from: nat, k: nat) {
    && from <= k < |arrived| && Longest(arrived, from, arrived[k].event.duration)
    && forall i | from <= i < k :: arrived[i].event.duration < arrived[k].event.duration
  }

  function StateOf(p: Packet): EventState {
    EventState(p.event.code, p.timestamp, p.event.volume, p.event.duration)
  }

  predicate SameEvent(code: EventCode, timestamp: nat, arrived: seq<Packet>) {
    forall i | 0 <= i < |arrived| :: arrived[i].timestamp == timestamp && arrived[i].event.code == code
  }

  ghost predicate KeepsEnd(arrived: seq<Packet>, from: nat, r: Receiver) {
    && r.active.None? && r.completedEvents == 1
    && exists l: nat :: Ends(arrived, from, l) && r.completed == Some(StateOf(arrived[l]))
  }

  ghost predicate KeepsPeak(arrived: seq<Packet>, from: nat, r: Receiver) {
    && r.completed.None? && r.completedEvents == 0
    && exists k: nat :: Peak(arrived, from, k) && r.active == Some(StateOf(arrived[k]))
  }

  /** The receiver keeps the packet that ended the event, or else the first of the longest so far. */
  ghost predicate Keeps(requireMarker: bool, arrived: seq<Packet>, r: Receiver) {
    && r.requireMarker == requireMarker
    && match Opening(requireMarker, arrived)
       case None => r.active.None? && r.completed.None? && r.completedEvents == 0
       case Some(from) => if HasEnded(arrived, from) then KeepsEnd(arrived, from, r) else KeepsPeak(arrived, from, r)
  }

  /** What the receiver says to `p` after `before`. */
  predicate Replies(requireMarker: bool, before: seq<Packet>, p: Packet, answer: Outcome) {
    match Opening(requireMarker, before)
    case None =>
      if !Opens(requireMarker, p) then answer == Err(MissingStartMarker)
      else if p.event.end then answer == Ok(Ended(p.event.code, p.event.duration, true))
      else answer == Ok(Update.Started(p.event.code, p.timestamp, p.event.volume, p.event.duration))
    case Some(from) =>
      if HasEnded(before, from) then answer == Ok(Duplicate)
      else if !Longest(before, from, p.event.duration) then answer == Err(DurationRegressed)
      else if p.event.end then answer == Ok(Ended(p.event.code, p.event.duration, false))
      else if exists i | from <= i < |before| :: before[i].event.duration == p.event.duration
      then answer == Ok(Duplicate)
      else answer == Ok(Continued(p.event.code, p.event.duration))
  }

  lemma OpeningLast(requireMarker: bool, before: seq<Packet>, p: Packet)
    ensures Opening(requireMarker, before + [p]) ==
              if Opening(requireMarker, before).Some? then Opening(requireMarker, before)
              else if Opens(requireMarker, p) then Some(|before|) else None
  {
    assert (before + [p])[..|before|] == before;
  }

  lemma ClosesLater(before: seq<Packet>, p: Packet, from: nat, l: nat)
    requires l < |before|
    ensures Closes(before + [p], from, l) <==> Closes(before, from, l)
  {
    assert (before + [p])[..l] == before[..l];
  }

  lemma EndedLast(before: seq<Packet>, p: Packet, from: nat)
    requires from <= |before|
    ensures HasEnded(before + [p], from) <==>
            HasEnded(before, from) || (p.event.end && Longest(before, from, p.event.duration))
    ensures forall l :: Ends(before, from, l) ==> Ends(before + [p], from, l)
    ensures !HasEnded(before, from) && p.event.end && Longest(before, from, p.event.duration) ==>
              Ends(before + [p], from, |before|)
  {
    var after := before + [p];
    assert after[..|before|] == before;
    forall l | 0 <= l < |before| ensures Closes(after, from, l) <==> Closes(before, from, l) {
      ClosesLater(before, p, from, l);
    }
    if HasEnded(before, from) {
      var l :| from <= l < |before| && Closes(before, from, l);
      assert Closes(after, from, l);
    }
    if p.event.end && Longest(before, from, p.event.duration) {
      assert Closes(after, from, |before|);
    }
  }

  lemma PeakLast(before: seq<Packet>, p: Packet, from: nat, k: nat)
    requires Peak(before, from, k)
    ensures Longest(before, from, p.event.duration) <==> p.event.duration >= before[k].event.duration
    ensures (exists i | from <= i < |before| :: before[i].event.duration == p.event.duration) ||
            p.event.duration != before[k].event.duration
    ensures p.event.duration <= before[k].event.duration ==> Peak(before + [p], from, k)
    ensures p.event.duration > before[k].event.duration ==> Peak(before + [p], from, |before|)
    ensures p.event.duration > before[k].event.duration ==>
              forall i | from <= i < |before| :: before[i].event.duration != p.event.duration
  {
  }

  /** One arrival at an event that is open with this peak. */
  lemma OpenStep(before: seq<Packet>, p: Packet, r: Receiver, from: nat, k: nat)
    requires Peak(before, from, k) && r.active == Some(StateOf(before[k]))
    requires r.completed.None? && r.completedEvents == 0
    requires SameEvent(p.event.code, p.timestamp, before) && !HasEnded(before, from)
    ensures var next := r.Observe(p.timestamp, p.marker, p.event).0;
            if HasEnded(before + [p], from) then KeepsEnd(before + [p], from, next)
            else KeepsPeak(before + [p], from, next)
  {
    hide Closes, HasEnded, Longest;
    var after := before + [p];
    EndedLast(before, p, from);
    PeakLast(before, p, from, k);
    assert after[|before|] == p && after[k] == before[k];
    var next := r.Observe(p.timestamp, p.marker, p.event).0;
    if p.event.duration < before[k].event.duration {
      assert next == r && Peak(after, from, k);
    } else if p.event.end {
      assert next.completed == Some(StateOf(p)) && Ends(after, from, |before|);
    } else if p.event.duration == before[k].event.duration {
      assert next == r && Peak(after, from, k);
    } else {
      assert next.active == Some(StateOf(p)) && Peak(after, from, |before|);
    }
  }

  lemma OpenReply(requireMarker: bool, before: seq<Packet>, p: Packet, r: Receiver, from: nat, k: nat)
    requires Peak(before, from, k) && r.active == Some(StateOf(before[k]))
    requires SameEvent(p.event.code, p.timestamp, before) && !HasEnded(before, from)
    requires Opening(requireMarker, before) == Some(from)
    ensures Replies(requireMarker, before, p, r.Observe(p.timestamp, p.marker, p.event).1)
  {
    hide HasEnded, Longest;
    PeakLast(before, p, from, k);
  }

  lemma ArrivalKeeps(requireMarker: bool, before: seq<Packet>, p: Packet, r: Receiver)
    requires Keeps(requireMarker, before, r) && SameEvent(p.event.code, p.timestamp, before)
    ensures Keeps(requireMarker, before + [p], r.Observe(p.timestamp, p.marker, p.event).0)
  {
    hide Opening, Longest, Closes;
    var after, opening := before + [p], Opening(requireMarker, before);
    OpeningLast(requireMarker, before, p);
    if opening.None? {
      FirstArrival(requireMarker, before, p, r);
    } else if HasEnded(before, opening.value) {
      EndedLast(before, p, opening.value);
      var l: nat :| Ends(before, opening.value, l) && r.completed == Some(StateOf(before[l]));
      assert after[l] == before[l] && Ends(after, opening.value, l);
      assert r.completed.value.start == p.timestamp;
    } else {
      var k: nat :| Peak(before, opening.value, k) && r.active == Some(StateOf(before[k]));
      OpenStep(before, p, r, opening.value, k);
    }
  }

  lemma FirstArrival(requireMarker: bool, before: seq<Packet>, p: Packet, r: Receiver)
    requires Keeps(requireMarker, before, r) && Opening(requireMarker, before).None?
    ensures Keeps(requireMarker, before + [p], r.Observe(p.timestamp, p.marker, p.event).0)
    ensures Replies(requireMarker, before, p, r.Observe(p.timestamp, p.marker, p.event).1)
  {
    hide Opening, Closes;
    var after, from := before + [p], |before|;
    OpeningLast(requireMarker, before, p);
    EndedLast(before, p, from);
    assert after[from] == p && Peak(after, from, from);
    assert !HasEnded(before, from) && Longest(before, from, p.event.duration);
  }

  lemma ArrivalReply(requireMarker: bool, before: seq<Packet>, p: Packet, r: Receiver)
    requires Keeps(requireMarker, before, r) && SameEvent(p.event.code, p.timestamp, before)
    ensures Replies(requireMarker, before, p, r.Observe(p.timestamp, p.marker, p.event).1)
  {
    hide Opening, Longest, Closes;
    var opening := Opening(requireMarker, before);
    if opening.None? {
      FirstArrival(requireMarker, before, p, r);
    } else if HasEnded(before, opening.value) {
      var l: nat :| Ends(before, opening.value, l) && r.completed == Some(StateOf(before[l]));
      assert l < |before| by { EndsInside(before, opening.value, l); }
    } else {
      var k: nat :| Peak(before, opening.value, k) && r.active == Some(StateOf(before[k]));
      OpenReply(requireMarker, before, p, r, opening.value, k);
    }
  }

  lemma EndsInside(arrived: seq<Packet>, from: nat, l: nat)
    requires Ends(arrived, from, l)
    ensures l < |arrived|
  {
  }

  lemma NothingArrived(requireMarker: bool)
    ensures Keeps(requireMarker, [], NewReceiver(requireMarker))
  {
  }

  /**
   * Whatever packets of one event arrive, in whatever order: while it lasts the
   * receiver holds the longest packet since the opening, and every arrival is
   * answered by how it compares with those before it.
   */
  lemma {:induction false} ReceptionIsExact(requireMarker: bool, code: EventCode, timestamp: nat, arrived: seq<Packet>)
    requires SameEvent(code, timestamp, arrived)
    ensures var r := Deliver(requireMarker, arrived);
            && Keeps(requireMarker, arrived, r.receiver) && |r.answers| == |arrived|
            && forall k | 0 <= k < |arrived| :: Replies(requireMarker, arrived[..k], arrived[k], r.answers[k])
  {
    hide Keeps, Replies, Receiver.Observe;
    if arrived == [] {
      NothingArrived(requireMarker);
    } else {
      var n := |arrived| - 1;
      var before := Deliver(requireMarker, arrived[..n]);
      ReceptionIsExact(requireMarker, code, timestamp, arrived[..n]);
      ArrivalKeeps(requireMarker, arrived[..n], arrived[n], before.receiver);
      ArrivalReply(requireMarker, arrived[..n], arrived[n], before.receiver);
      assert arrived[..n] + [arrived[n]] == arrived;
      forall k | 0 <= k < n ensures arrived[..n][..k] == arrived[..k] {}
    }
  }

  // ---------------------------------------------------------------------------
  // Many events
  // ---------------------------------------------------------------------------

  /** This packet completes an event, whether or not the answer says so. */
  predicate Completes(r: Receiver, p: Packet) {
    var answer := r.Observe(p.timestamp, p.marker, p.event).1;
    IsEnded(answer) || (answer.Ok? && answer.value.Replaced? && p.event.end)
  }

  /**
   * A completion is exactly a step of the completion counter. It is reported as
   * `Ended` unless the end packet is the first seen of an event that interrupts
   * another: then the answer is `Replaced` and the completion is only counted.
   */
  lemma CompletionIsCounted(r: Receiver, p: Packet)
    requires r.completedEvents < U64_MAX
    ensures var (next, answer) := r.Observe(p.timestamp, p.marker, p.event);
            && (Completes(r, p) <==> next.completedEvents == r.completedEvents + 1)
            && (Completes(r, p) ==>
                  next.active.None? && next.completed.Some? && next.completed.value.start == p.timestamp)
            && (Completes(r, p) ==> (IsEnded(answer) <==> r.active.None? || r.active.value.start == p.timestamp))
  {
  }

  /** Start timestamps of the events completed, in order of completion. */
  function CompletedStarts(requireMarker: bool, arrived: seq<Packet>): seq<nat> {
    if arrived == [] then []
    else
      var n := |arrived| - 1;
      CompletedStarts(requireMarker, arrived[..n])
      + if Completes(Deliver(requireMarker, arrived[..n]).receiver, arrived[n]) then [arrived[n].timestamp] else []
  }

  /** The newest start timestamp the receiver has accepted. */
  function HighWater(r: Receiver): Option<nat> {
    if r.active.Some? then Some(r.active.value.start)
    else if r.completed.Some? then Some(r.completed.value.start)
    else None
  }

  /** A packet of no event seen so far, and of none before those. */
  predicate IsNewer(r: Receiver, p: Packet) {
    HighWater(r).Some? ==>
      p.timestamp != HighWater(r).value && SignedDistance(p.timestamp, HighWater(r).value) > 0
  }

  /** The same start timestamp with another code. */
  predicate Conflicts(r: Receiver, p: Packet) {
    var state := if r.active.Some? then r.active else r.completed;
    state.Some? && state.value.start == p.timestamp && state.value.code != p.event.code
  }

  /**
   * How events follow each other. An older packet is stale, another code for
   * the newest event is refused, and neither changes anything. A newer packet
   * that may open an event makes the receiver forget an unfinished one and
   * start afresh; one that may not is refused.
   */
  lemma NewerEventsReplace(r: Receiver, p: Packet)
    ensures var (next, answer) := r.Observe(p.timestamp, p.marker, p.event);
            && (answer == Ok(Stale) <==> !IsNewer(r, p) && HighWater(r).value != p.timestamp)
            && (answer == Err(ConflictingCode) <==> Conflicts(r, p))
            && (answer == Err(MissingStartMarker) <==> IsNewer(r, p) && !Opens(r.requireMarker, p))
            && (answer == Ok(Stale) || answer.Err? ==> next == r)
            && (IsNewer(r, p) && Opens(r.requireMarker, p) ==>
                  && HighWater(next) == Some(p.timestamp)
                  && next.active == (if p.event.end then None else Some(StateOf(p)))
                  && next.completed == (if p.event.end then Some(StateOf(p)) else r.completed)
                  && (answer.Ok? && answer.value.Replaced? <==> r.active.Some?)
                  && (answer.value.Replaced? ==>
                        answer.value == Replaced(r.active.value.code, p.event.code, p.event.duration)))
  {
  }

  function Offset(base: nat, timestamp: nat): nat {
    WrappingDistance(timestamp, base)
  }

  /** A 32-bit timestamp up to half the circle after `base`, the opposite point included. */
  predicate InHalf(base: nat, timestamp: nat) {
    timestamp < TIMESTAMP_SPACE && Offset(base, timestamp) <= HALF_SPACE
  }

  ghost predicate NotBehind(base: nat, earlier: Option<nat>, later: Option<nat>) {
    earlier.Some? ==> later.Some? && Offset(base, earlier.value) <= Offset(base, later.value)
  }

  /** The receiver's memory lies in the window, the active event after the completed one. */
  ghost predicate Ordered(base: nat, r: Receiver) {
    && (r.active.Some? ==> InHalf(base, r.active.value.start))
    && (r.completed.Some? ==> InHalf(base, r.completed.value.start))
    && (r.active.Some? && r.completed.Some? ==>
          Offset(base, r.completed.value.start) < Offset(base, r.active.value.start))
  }

  /** What one arrival does to the order of the receiver's memory. */
  ghost predicate Advances(base: nat, r: Receiver, p: Packet, next: Receiver) {
    && Ordered(base, next) && NotBehind(base, HighWater(r), HighWater(next))
    && (!Completes(r, p) ==> next.completed == r.completed)
    && (Completes(r, p) ==>
          && next.completed.Some? && next.completed.value.start == p.timestamp
          && (r.completed.Some? ==> Offset(base, r.completed.value.start) < Offset(base, p.timestamp)))
  }

  lemma ActiveObservationOrdered(base: nat, r: Receiver, p: Packet)
    requires Ordered(base, r) && InHalf(base, p.timestamp) && r.active.Some?
    ensures Advances(base, r, p, r.Observe(p.timestamp, p.marker, p.event).0)
  {
    NewerIsFurther(base, p.timestamp, r.active.value.start);
  }

  lemma IdleObservationOrdered(base: nat, r: Receiver, p: Packet)
    requires Ordered(base, r) && InHalf(base, p.timestamp) && r.active.None?
    ensures Advances(base, r, p, r.Observe(p.timestamp, p.marker, p.event).0)
  {
    if r.completed.Some? {
      NewerIsFurther(base, p.timestamp, r.completed.value.start);
    }
  }

  lemma ObservationOrdered(base: nat, r: Receiver, p: Packet)
    requires Ordered(base, r) && InHalf(base, p.timestamp)
    ensures Advances(base, r, p, r.Observe(p.timestamp, p.marker, p.event).0)
  {
    if r.active.Some? {
      ActiveObservationOrdered(base, r, p);
    } else {
      IdleObservationOrdered(base, r, p);
    }
  }

  ghost predicate Climbing(base: nat, starts: seq<nat>) {
    forall i, j | 0 <= i < j < |starts| :: Offset(base, starts[i]) < Offset(base, starts[j])
  }

  lemma {:induction false} CompletionsClimb(requireMarker: bool, base: nat, arrived: seq<Packet>)
    requires forall p | p in arrived :: InHalf(base, p.timestamp)
    ensures var r, starts := Deliver(requireMarker, arrived).receiver, CompletedStarts(requireMarker, arrived);
            && Ordered(base, r) && Climbing(base, starts)
            && (starts == [] <==> r.completed.None?)
            && (starts != [] ==> r.completed.value.start == starts[|starts| - 1])
  {
    if arrived != [] {
      var n := |arrived| - 1;
      CompletionsClimb(requireMarker, base, arrived[..n]);
      ObservationOrdered(base, Deliver(requireMarker, arrived[..n]).receiver, arrived[n]);
    }
  }

  lemma {:induction false} HighWaterNeverFalls(requireMarker: bool, base: nat, arrived: seq<Packet>, k: nat)
    requires k <= |arrived| && forall p | p in arrived :: InHalf(base, p.timestamp)
    ensures NotBehind(base, HighWater(Deliver(requireMarker, arrived[..k]).receiver),
                      HighWater(Deliver(requireMarker, arrived).receiver))
    decreases |arrived|
  {
    if k == |arrived| {
      assert arrived[..k] == arrived;
    } else {
      var n := |arrived| - 1;
      assert arrived[..n][..k] == arrived[..k];
      HighWaterNeverFalls(requireMarker, base, arrived[..n], k);
      CompletionsClimb(requireMarker, base, arrived[..n]);
      var before := Deliver(requireMarker, arrived[..n]).receiver;
      ObservationOrdered(base, before, arrived[n]);
      NotBehindTransitive(base, HighWater(Deliver(requireMarker, arrived[..k]).receiver), HighWater(before),
                          HighWater(Deliver(requireMarker, arrived).receiver));
    }
  }

  lemma NotBehindTransitive(base: nat, a: Option<nat>, b: Option<nat>, c: Option<nat>)
    requires NotBehind(base, a, b) && NotBehind(base, b, c)
    ensures NotBehind(base, a, c)
  {
  }

  predicate Distinct(starts: seq<nat>) {
    forall i, j | 0 <= i < j < |starts| :: starts[i] != starts[j]
  }

  /**
   * Whatever arrives, in whatever order, no start timestamp completes twice as
   * long as all start timestamps lie within half the timestamp circle.
   */
  lemma NoStartCompletesTwice(requireMarker: bool, base: nat, arrived: seq<Packet>)
    requires forall p | p in arrived :: InHalf(base, p.timestamp)
    ensures Distinct(CompletedStarts(requireMarker, arrived))
  {
    CompletionsClimb(requireMarker, base, arrived);
  }

  function EndPacket(timestamp: nat): Packet {
    Packet(timestamp, true, TelephoneEvent(Digit(5), true, 10, 80), false)
  }

  /** Nothing is active, and the completed events are these, the last one last. */
  predicate Rests(requireMarker: bool, arrived: seq<Packet>, starts: seq<nat>) {
    var r := Deliver(requireMarker, arrived).receiver;
    && r.active.None? && CompletedStarts(requireMarker, arrived) == starts
    && r.completed.Some? == (starts != [])
    && (starts != [] ==> r.completed.value.start == starts[|starts| - 1])
  }

  /** A lone end packet that looks newer than the last completed event completes its own. */
  lemma {:induction false} NewerEndCompletes(requireMarker: bool, arrived: seq<Packet>, starts: seq<nat>,
                                             timestamp: nat)
    returns (more: seq<Packet>)
    requires Rests(requireMarker, arrived, starts)
    requires starts != [] ==> SignedDistance(timestamp, starts[|starts| - 1]) > 0
    ensures more == arrived + [EndPacket(timestamp)] && Rests(requireMarker, more, starts + [timestamp])
  {
    more := arrived + [EndPacket(timestamp)];
    assert more[..|arrived|] == arrived;
  }

  lemma StepsLookNewer()
    ensures SignedDistance(2, 0) > 0
    ensures SignedDistance(HALF_SPACE + 1, 2) > 0
    ensures SignedDistance(0, HALF_SPACE + 1) > 0
  {
  }

  /** One step past half the circle is too far: timestamp 0 completes again after 2 and half the circle plus one. */
  lemma {:induction false} JustBeyondHalfAnEventRepeats(requireMarker: bool) returns (arrived: seq<Packet>)
    ensures arrived == [EndPacket(0), EndPacket(2), EndPacket(HALF_SPACE + 1), EndPacket(0)]
    ensures CompletedStarts(requireMarker, arrived) == [0, 2, HALF_SPACE + 1, 0]
  {
    StepsLookNewer();
    var one := NewerEndCompletes(requireMarker, [], [], 0);
    var two := NewerEndCompletes(requireMarker, one, [] + [0], 2);
    var three := NewerEndCompletes(requireMarker, two, [] + [0] + [2], HALF_SPACE + 1);
    arrived := NewerEndCompletes(requireMarker, three, [] + [0] + [2] + [HALF_SPACE + 1], 0);
    assert [] + [0] + [2] + [HALF_SPACE + 1] + [0] == [0, 2, HALF_SPACE + 1, 0];
  }

  /** All start timestamps lie at most `width` after `base` on the circle. */
  predicate Spread(base: nat, width: nat, arrived: seq<Packet>) {
    forall p | p in arrived :: p.timestamp < TIMESTAMP_SPACE && Offset(base, p.timestamp) <= width
  }

  /** Whatever packets of this spread arrive, no event completes twice. */
  ghost predicate SafeWidth(requireMarker: bool, width: nat) {
    forall base: nat, arrived | Spread(base, width, arrived) :: Distinct(CompletedStarts(requireMarker, arrived))
  }

  /** Half the circle is exactly the spread within which no event completes twice, under either marker policy. */
  lemma WidthIsExact(requireMarker: bool, width: nat)
    ensures SafeWidth(requireMarker, width) <==> width <= HALF_SPACE
  {
    if width <= HALF_SPACE {
      forall base: nat, arrived | Spread(base, width, arrived)
        ensures Distinct(CompletedStarts(requireMarker, arrived))
      {
        NoStartCompletesTwice(requireMarker, base, arrived);
      }
    } else {
      var arrived := JustBeyondHalfAnEventRepeats(requireMarker);
      var starts := CompletedStarts(requireMarker, arrived);
      assert Spread(0, width, arrived);
      assert starts[0] == starts[3];
    }
  }

  function BeginPacket(): Packet {
    Packet(0, true, TelephoneEvent(Digit(1), false, 10, 80), false)
  }

  /**
   * An event whose end packet is the first seen of it and interrupts another
   * one is completed, and counted, but nothing is reported as ended.
   */
  lemma InterruptingEndIsReplaced(requireMarker: bool)
    ensures var r := Deliver(requireMarker, [BeginPacket(), EndPacket(1000)]);
            && r.answers == [Ok(Update.Started(Digit(1), 0, 10, 80)), Ok(Replaced(Digit(1), Digit(5), 80))]
            && r.receiver.completedEvents == 1
  {
    assert [BeginPacket(), EndPacket(1000)][..1] == [BeginPacket()] && [BeginPacket()][..0] == [];
    assert Deliver(requireMarker, [BeginPacket()]).answers == [Ok(Update.Started(Digit(1), 0, 10, 80))];
  }

  // ---------------------------------------------------------------------------
  // The object updated in place
  // ---------------------------------------------------------------------------

  class DtmfReceiver {
    const requireMarker: bool
    var active: Option<EventState>
    var completed: Option<EventState>
    var packets: nat
    var duplicates: nat
    var stale: nat
    var completedEvents: nat
    var interruptedEvents: nat

    ghost function AsReceiver(): Receiver
      reads this
    {
      Receiver(requireMarker, active, completed, completedEvents)
    }

    constructor (requireMarker: bool)
      ensures AsReceiver() == NewReceiver(requireMarker)
    {
      this.requireMarker, active, completed := requireMarker, None, None;
      packets, duplicates, stale, completedEvents, interruptedEvents := 0, 0, 0, 0, 0;
    }

    method Observe(timestamp: nat, marker: bool, event: TelephoneEvent) returns (r: Outcome)
      modifies this
      ensures (AsReceiver(), r) == old(AsReceiver()).Observe(timestamp, marker, event)
      ensures packets == Saturate(old(packets), U64_MAX)
      ensures duplicates == if r == Ok(Duplicate) then Saturate(old(duplicates), U64_MAX) else old(duplicates)
      ensures stale == if r == Ok(Stale) then Saturate(old(stale), U64_MAX) else old(stale)
      ensures interruptedEvents == if r.Ok? && r.value.Replaced?
                                   then Saturate(old(interruptedEvents), U64_MAX) else old(interruptedEvents)
    {
      packets := Saturate(packets, U64_MAX);
      if active.Some? {
        var current := active.value;
        if current.start == timestamp {
          r := ObserveActive(current, event);
          return;
        }
        if SignedDistance(timestamp, current.start) <= 0 {
          stale := Saturate(stale, U64_MAX);
          return Ok(Stale);
        }
        if requireMarker && !marker {
          return Err(MissingStartMarker);
        }
        r := ReplaceActive(current, timestamp, event);
        return;
      }
      if completed.Some? {
        if completed.value.start == timestamp {
          if completed.value.code != event.code {
            return Err(ConflictingCode);
          }
          duplicates := Saturate(duplicates, U64_MAX);
          return Ok(Duplicate);
        }
        if SignedDistance(timestamp, completed.value.start) <= 0 {
          stale := Saturate(stale, U64_MAX);
          return Ok(Stale);
        }
      }
      if requireMarker && !marker {
        return Err(MissingStartMarker);
      }
      r := StartOrRecover(timestamp, event);
    }

    method ObserveActive(current: EventState, event: TelephoneEvent) returns (r: Outcome)
      requires active == Some(current)
      modifies this`active, this`completed, this`completedEvents, this`duplicates
      ensures (AsReceiver(), r) == old(AsReceiver()).ObserveActive(current, event)
      ensures duplicates == if r == Ok(Duplicate) then Saturate(old(duplicates), U64_MAX) else old(duplicates)
    {
      if current.code != event.code {
        return Err(ConflictingCode);
      }
      if event.duration < current.duration {
        return Err(DurationRegressed);
      }
      if event.duration == current.duration && !event.end {
        duplicates := Saturate(duplicates, U64_MAX);
        return Ok(Duplicate);
      }
      var updated := current.(volume := event.volume, duration := event.duration);
      if event.end {
        active := None;
        completed := Some(updated);
        completedEvents := Saturate(completedEvents, U64_MAX);
        r := Ok(Ended(updated.code, updated.duration, false));
      } else {
        active := Some(updated);
        r := Ok(Continued(updated.code, updated.duration));
      }
    }

    method StartOrRecover(timestamp: nat, event: TelephoneEvent) returns (r: Outcome)
      requires active.None?
      modifies this`active, this`completed, this`completedEvents
      ensures (AsReceiver(), r) == old(AsReceiver()).StartOrRecover(timestamp, event)
    {
      var state := EventState(event.code, timestamp, event.volume, event.duration);
      if event.end {
        completed := Some(state);
        completedEvents := Saturate(completedEvents, U64_MAX);
        r := Ok(Ended(state.code, state.duration, true));
      } else {
        active := Some(state);
        r := Ok(Update.Started(state.code, state.start, state.volume, state.duration));
      }
    }

    method ReplaceActive(current: EventState, timestamp: nat, event: TelephoneEvent) returns (r: Outcome)
      requires active == Some(current)
      modifies this`active, this`completed, this`completedEvents, this`interruptedEvents
      ensures (AsReceiver(), r) == old(AsReceiver()).ReplaceActive(current, timestamp, event)
      ensures interruptedEvents == Saturate(old(interruptedEvents), U64_MAX)
    {
      interruptedEvents := Saturate(interruptedEvents, U64_MAX);
      var state := EventState(event.code, timestamp, event.volume, event.duration);
      if event.end {
        active := None;
        completed := Some(state);
        completedEvents := Saturate(completedEvents, U64_MAX);
      } else {
        active := Some(state);
      }
      r := Ok(Replaced(current.code, event.code, event.duration));
    }
  }
}
