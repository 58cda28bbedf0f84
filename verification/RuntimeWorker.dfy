/**
 * The process worker (src/runtime/worker.rs) over the service: lifetime
 * counters, phases and the clock it hands down.
 */
module RuntimeWorker {
  import opened Wrappers
  import opened OpaqueIds
  import opened CallRegistry
  import opened Notifications
  import opened RuntimeService
  import Shutdown

  datatype Phase = Ready | Draining | Stopped

  datatype WorkerError =
    | NotAccepting | CounterExhausted | ClockMovedBackward | AlreadyDraining | AlreadyStopped
    | ServiceFailed(service: RuntimeService.Error)

  /** What one poll meets in the service and, while draining, in the shutdown. */
  datatype Scene = Scene(order: seq<Token>, visits: map<nat, Visit>, joins: Joins)

  datatype Worker = Worker(
    service: Service,
    phase: Phase,
    lastPoll: nat,
    polls: nat,
    started: nat,
    completed: nat,
    forced: nat)
  {
    function Dial(callId: nat, fate: DialFate): (Worker, Result<Token, WorkerError>) {
      if phase != Ready then (this, Err(NotAccepting))
      else if started >= U64_MAX then (this, Err(CounterExhausted))
      else
        var (s, result) := service.Dial(callId, fate);
        if result.Err? then (this.(service := s), Err(ServiceFailed(result.error)))
        else (this.(service := s, started := started + 1), Ok(result.value))
    }

    function BeginShutdownAt(now: nat): (Worker, Option<WorkerError>) {
      if now < lastPoll then (this, Some(ClockMovedBackward))
      else if phase == Draining then (this, Some(AlreadyDraining))
      else if phase == Stopped then (this, Some(AlreadyStopped))
      else
        var (s, error) := service.BeginShutdown(now);
        if error.Some? then (this.(service := s), Some(ServiceFailed(error.value)))
        else (this.(service := s, lastPoll := now, phase := Draining), None)
    }

    /** What the pump leaves for the rest of a poll. */
    function Pumped(scene: Scene): (Worker, Option<RuntimeService.Error>) {
      var (s, completed', error) := service.Pump(scene.order, scene.visits);
      if error.Some? then (this.(service := s), error)
      else (this.(service := s, completed := SaturatingAdd(completed, completed')), None)
    }

    /** The shutdown part of a poll. */
    function Drained(now: nat, joins: Joins): (Worker, Option<RuntimeService.Error>)
      requires joins.Iterate(service.registry.calls)
    {
      var (s, result) := service.PollShutdown(now, joins);
      if result.Err? then (this.(service := s), Some(result.error))
      else
        var p := result.value;
        (this.(service := s,
               completed := SaturatingAdd(SaturatingAdd(completed, p.completed), p.forced),
               forced := SaturatingAdd(forced, p.forced),
               phase := if p.action.Completed? || s.shutdown.phase == Shutdown.Complete then Stopped else phase), None)
    }

    /** The hash orders of this scene are possible ones. */
    ghost predicate Possible(scene: Scene) {
      && Scanned(service, scene.order)
      && (Pumped(scene).1.None? ==> scene.joins.Iterate(Pumped(scene).0.service.registry.calls))
    }

    function PollAt(now: nat, scene: Scene): (Worker, Option<WorkerError>)
      requires Possible(scene)
    {
      if now < lastPoll then (this, Some(ClockMovedBackward))
      else if polls >= U64_MAX then (this, Some(CounterExhausted))
      else if phase == Stopped then (this.(lastPoll := now, polls := polls + 1), None)
      else
        var (w, failure) := Pumped(scene);
        if failure.Some? then (w, Some(ServiceFailed(failure.value)))
        else if phase != Draining then (w.(lastPoll := now, polls := polls + 1), None)
        else
          var (v, problem) := w.Drained(now, scene.joins);
          if problem.Some? then (v, Some(ServiceFailed(problem.value)))
          else (v.(lastPoll := now, polls := polls + 1), None)
    }

    /** Every started call is active, completed, or one of `lost` that ended uncounted. */
    predicate Conserved(lost: nat) {
      started == completed + |service.calls| + lost && forced <= completed && started <= U64_MAX
    }

    /** The worker's phase, the coordinator's phase and the registry's gate tell the same story. */
    predicate Phased() {
      && service.shutdown.Valid()
      && (phase == Ready <==> service.shutdown.phase == Shutdown.Running)
      && (phase == Stopped <==> service.shutdown.phase == Shutdown.Complete)
      && (service.registry.accepting <==> phase == Ready)
      && (service.shutdown.phase != Shutdown.Running ==> service.shutdown.lastPoll.value <= lastPoll)
      && (service.shutdown.phase == Shutdown.Forcing || phase == Stopped ==> |service.calls| == 0)
    }

    predicate Sound(lost: nat) { service.Sound({}) && Conserved(lost) && Phased() }

    /** Exactly when and how a poll fails. */
    function Failure(now: nat, scene: Scene): Option<WorkerError>
      requires Scanned(service, scene.order)
    {
      if now < lastPoll then Some(ClockMovedBackward)
      else if polls >= U64_MAX then Some(CounterExhausted)
      else if phase != Stopped && SomeOverflows(service, scene.order, scene.visits) then
        Some(ServiceFailed(NotificationSequenceExhausted))
      else None
    }

    /** The calls that a poll ends without counting them: those met before the first that has no number left. */
    function Lost(now: nat, scene: Scene): nat
      requires Scanned(service, scene.order)
    {
      if Failure(now, scene) == Some(ServiceFailed(NotificationSequenceExhausted))
      then Ended(service, scene.order, scene.visits) else 0
    }
  }

  // ---------------------------------------------------------------------------
  // Every operation accounts for every call
  // ---------------------------------------------------------------------------

  lemma DialConserves(w: Worker, callId: nat, fate: DialFate, lost: nat)
    requires w.Sound(lost)
    ensures w.Dial(callId, fate).0.Sound(lost)
  {
    hide Service.Sound, Service.Dial;
    if w.phase == Ready && w.started < U64_MAX {
      if w.service.Dial(callId, fate).1.Ok? {
        var t := DialKeepsSound(w.service, callId, fate);
      } else {
        FailedDialKeepsSound(w.service, callId, fate);
      }
    }
  }

  /** The worker refuses a dial of its own accord only when draining or stopped, or out of counter. */
  lemma DialCounts(w: Worker, callId: nat, fate: DialFate)
    ensures w.Dial(callId, fate).1 == Err(NotAccepting) <==> w.phase != Ready
    ensures w.Dial(callId, fate).1 == Err(CounterExhausted) <==> w.phase == Ready && w.started >= U64_MAX
    ensures w.phase == Ready && w.started < U64_MAX ==>
              && (w.Dial(callId, fate).1.Ok? <==> w.service.Dial(callId, fate).1.Ok?)
              && w.Dial(callId, fate).0.service == w.service.Dial(callId, fate).0
              && (w.Dial(callId, fate).1.Ok? ==> w.Dial(callId, fate).1.value == w.service.Dial(callId, fate).1.value)
              && (w.Dial(callId, fate).1.Err? ==>
                    w.Dial(callId, fate).1.error == ServiceFailed(w.service.Dial(callId, fate).1.error))
    ensures w.Dial(callId, fate).0.started == w.started + if w.Dial(callId, fate).1.Ok? then 1 else 0
  {
    hide Service.Dial;
  }

  /**
   * A shutdown begins exactly when the worker is ready, time has not moved back
   * and the grace period ends at a representable time; its deadline is then the
   * end of the grace period, and no call is admitted any more.
   */
  lemma BeginShutdownOpensGrace(w: Worker, now: nat, lost: nat)
    requires w.Sound(lost)
    ensures var (v, error) := w.BeginShutdownAt(now);
            && (error.None? <==>
                  now >= w.lastPoll && w.phase == Ready && w.service.grace > 0 && now + w.service.grace <= DURATION_MAX)
            && (error.None? ==>
                  && v.phase == Draining && v.lastPoll == now && !v.service.registry.accepting
                  && v.service.shutdown == Shutdown.RUNNING.Begin(now, w.service.grace).0
                  && v.service.shutdown.deadline == Some(now + w.service.grace)
                  && v.service.calls == w.service.calls)
            && (error.Some? ==> v == w)
            && (error == Some(ClockMovedBackward) <==> now < w.lastPoll)
            && (error == Some(AlreadyDraining) <==> now >= w.lastPoll && w.phase == Draining)
            && (error == Some(AlreadyStopped) <==> now >= w.lastPoll && w.phase == Stopped)
  {
    hide Service.Sound;
    Shutdown.BeginsOnce(w.service.shutdown, now, w.service.grace);
  }

  lemma BeginShutdownConserves(w: Worker, now: nat, lost: nat)
    requires w.Sound(lost)
    ensures w.BeginShutdownAt(now).0.Sound(lost)
  {
    hide Service.Sound;
    ClosedGateKeepsSound(w.service, w.service.shutdown.Begin(now, w.service.grace).0);
  }

  lemma PumpedConserves(w: Worker, scene: Scene, lost: nat) returns (v: Worker, error: Option<RuntimeService.Error>)
    requires w.Sound(lost) && Scanned(w.service, scene.order)
    ensures w.Pumped(scene) == (v, error)
    ensures error == if SomeOverflows(w.service, scene.order, scene.visits) then Some(NotificationSequenceExhausted)
                     else None
    ensures v.Sound(lost + if error.Some? then Ended(w.service, scene.order, scene.visits) else 0)
    ensures v == w.(service := v.service, completed := v.completed) && (error.Some? ==> v.completed == w.completed)
    ensures v.service.shutdown == w.service.shutdown
  {
    hide Service.Sound, Service.Pump, Scanned, SomeOverflows, Ended;
    var t;
    t, error := PumpKeepsSound(w.service, scene.order, scene.visits);
    v := w.Pumped(scene).0;
  }

  /** The grace period is over and calls are left. */
  predicate ForcesNow(w: Worker, now: nat, joins: Joins) {
    var c := w.service.shutdown;
    c.phase == Shutdown.Draining && c.deadline.Some? && now >= c.deadline.value && joins.rest != []
  }

  /** What a poll of the shutdown leads to: finished calls go, the rest are forced out once the grace period is over. */
  predicate Advanced(w: Worker, now: nat, joins: Joins, v: Worker) {
    && v.polls == w.polls && v.started == w.started && v.lastPoll == w.lastPoll
    && (v.phase == Stopped <==> joins.rest == []) && (v.phase != Stopped ==> v.phase == w.phase)
    && v.forced == w.forced + (if ForcesNow(w, now, joins) then |joins.rest| else 0)
    && |v.service.calls| == (if ForcesNow(w, now, joins) then 0 else |joins.rest|)
    && (ForcesNow(w, now, joins) ==> Forced(v))
    && (w.service.shutdown.phase == Shutdown.Forcing ==> v.phase == Stopped)
  }

  /** Past the deadline, with every call forced out, all that is left is the poll that notices. */
  predicate Forced(w: Worker) {
    w.phase == Stopped || (w.phase == Draining && w.service.shutdown.phase == Shutdown.Forcing)
  }

  lemma DrainedConserves(w: Worker, now: nat, joins: Joins, lost: nat) returns (v: Worker)
    requires w.Sound(lost) && w.phase == Draining && now >= w.lastPoll && joins.Iterate(w.service.registry.calls)
    ensures w.Drained(now, joins) == (v, None) && v.(lastPoll := now).Sound(lost) && Advanced(w, now, joins, v)
  {
    hide Service.Sound, Service.PollShutdown, Joins.Iterate;
    var t, p := PollShutdownKeepsSound(w.service, now, joins);
    Shutdown.PollOutcome(w.service.shutdown, now, |joins.rest|);
    v := w.Drained(now, joins).0;
  }

  lemma ClockKeepsSound(w: Worker, now: nat, polls: nat, lost: nat)
    requires w.Sound(lost) && now >= w.lastPoll
    ensures w.(lastPoll := now, polls := polls).Sound(lost)
  {
    hide Service.Sound;
  }

  lemma ReadyPollIs(w: Worker, now: nat, scene: Scene)
    requires w.Possible(scene) && now >= w.lastPoll && w.polls < U64_MAX && w.phase == Ready
    ensures w.PollAt(now, scene) ==
            var (u, failure) := w.Pumped(scene);
            if failure.Some? then (u, Some(ServiceFailed(failure.value)))
            else (u.(lastPoll := now, polls := w.polls + 1), None)
  {
  }

  lemma DrainingPollIs(w: Worker, now: nat, scene: Scene)
    requires w.Possible(scene) && now >= w.lastPoll && w.polls < U64_MAX && w.phase == Draining
    ensures w.PollAt(now, scene) ==
            var (u, failure) := w.Pumped(scene);
            if failure.Some? then (u, Some(ServiceFailed(failure.value)))
            else
              var (v, problem) := u.Drained(now, scene.joins);
              if problem.Some? then (v, Some(ServiceFailed(problem.value)))
              else (v.(lastPoll := now, polls := w.polls + 1), None)
  {
  }

  /** What a poll leads to, the calls it loses included. */
  predicate Polled(w: Worker, now: nat, scene: Scene, v: Worker, lost: nat)
    requires Scanned(w.service, scene.order)
  {
    && v.Sound(lost + w.Lost(now, scene))
    && (w.Failure(now, scene).None? ==> v.lastPoll == now && v.polls == w.polls + 1)
    && (w.Failure(now, scene).Some? ==> v == w.(service := v.service) && v.service.shutdown == w.service.shutdown)
    && (w.Failure(now, scene) in {Some(ClockMovedBackward), Some(CounterExhausted)} ==> v == w)
  }

  lemma ReadyPoll(w: Worker, now: nat, scene: Scene, lost: nat) returns (v: Worker)
    requires w.Sound(lost) && w.Possible(scene) && now >= w.lastPoll && w.polls < U64_MAX && w.phase == Ready
    ensures w.PollAt(now, scene) == (v, w.Failure(now, scene)) && Polled(w, now, scene, v, lost)
  {
    hide Service.Sound, Service.Pump, Worker.PollAt, Worker.Pumped, Worker.Drained, Joins.Iterate, SomeOverflows, Ended;
    ReadyPollIs(w, now, scene);
    var u, error := PumpedConserves(w, scene, lost);
    v := w.PollAt(now, scene).0;
    if error.None? {
      ClockKeepsSound(u, now, w.polls + 1, lost);
    }
  }

  lemma DrainingPoll(w: Worker, now: nat, scene: Scene, lost: nat) returns (v: Worker)
    requires w.Sound(lost) && w.Possible(scene) && now >= w.lastPoll && w.polls < U64_MAX && w.phase == Draining
    ensures w.PollAt(now, scene) == (v, w.Failure(now, scene)) && Polled(w, now, scene, v, lost)
    ensures var c := w.service.shutdown;
            w.Failure(now, scene).None? && c.phase == Shutdown.Draining && c.deadline.Some? && now >= c.deadline.value
            ==> Forced(v)
    ensures w.service.shutdown.phase == Shutdown.Forcing && w.Failure(now, scene).None? ==> v.phase == Stopped
  {
    hide Service.Sound, Service.Pump, Worker.PollAt, Worker.Pumped, Worker.Drained, Joins.Iterate, SomeOverflows, Ended;
    DrainingPollIs(w, now, scene);
    var u, error := PumpedConserves(w, scene, lost);
    v := w.PollAt(now, scene).0;
    if error.None? {
      var x := DrainedConserves(u, now, scene.joins, lost);
      ClockKeepsSound(x.(lastPoll := now), now, w.polls + 1, lost);
    }
  }

  /**
   * A poll fails exactly as `Failure` says. Whatever happens, tokens, capacity,
   * notifications and phases stay in order, and the only calls that go
   * uncounted are those that an exhausted sequence leaves behind.
   */
  lemma PollConserves(w: Worker, now: nat, scene: Scene, lost: nat) returns (v: Worker)
    requires w.Sound(lost) && w.Possible(scene)
    ensures w.PollAt(now, scene) == (v, w.Failure(now, scene)) && Polled(w, now, scene, v, lost)
  {
    hide Service.Sound, Service.Pump, Worker.Pumped, Worker.Drained, Joins.Iterate, SomeOverflows, Ended;
    if now >= w.lastPoll && w.polls < U64_MAX {
      match w.phase
      case Ready => v := ReadyPoll(w, now, scene, lost);
      case Draining => v := DrainingPoll(w, now, scene, lost);
      case Stopped =>
        v := w.PollAt(now, scene).0;
        ClockKeepsSound(w, now, w.polls + 1, lost);
    } else {
      v := w;
    }
  }

  // ---------------------------------------------------------------------------
  // Whole runs
  // ---------------------------------------------------------------------------

  datatype Event =
    | DialEvent(callId: nat, fate: DialFate)
    | BeginShutdownEvent(now: nat)
    | PollEvent(now: nat, scene: Scene)
    | TakeOutcomeEvent(callId: nat)
    | NextNotificationEvent

  /** An event that can happen here: the hash orders of a poll are orders of the calls that are there. */
  ghost predicate Proper(w: Worker, e: Event) {
    e.PollEvent? ==> w.Possible(e.scene)
  }

  ghost function Do(w: Worker, e: Event): Worker
    requires Proper(w, e)
  {
    match e
    case DialEvent(callId, fate) => w.Dial(callId, fate).0
    case BeginShutdownEvent(now) => w.BeginShutdownAt(now).0
    case PollEvent(now, scene) => w.PollAt(now, scene).0
    case TakeOutcomeEvent(callId) => w.(service := w.service.Take(callId))
    case NextNotificationEvent => w.(service := w.service.NextNotification())
  }

  ghost predicate ProperRun(w: Worker, events: seq<Event>)
    decreases |events|
  {
    events == [] || (Proper(w, events[0]) && ProperRun(Do(w, events[0]), events[1..]))
  }

  ghost function Run(w: Worker, events: seq<Event>): Worker
    requires ProperRun(w, events)
    decreases |events|
  {
    if events == [] then w else Run(Do(w, events[0]), events[1..])
  }

  /** The calls that an event ends without counting them. */
  ghost function LostIn(w: Worker, e: Event): nat
    requires Proper(w, e)
  {
    if e.PollEvent? then w.Lost(e.now, e.scene) else 0
  }

  ghost function LostOver(w: Worker, events: seq<Event>): nat
    requires ProperRun(w, events)
    decreases |events|
  {
    if events == [] then 0 else LostIn(w, events[0]) + LostOver(Do(w, events[0]), events[1..])
  }

  lemma TakingConserves(w: Worker, callId: nat, lost: nat)
    requires w.Sound(lost)
    ensures w.(service := w.service.Take(callId)).Sound(lost)
    ensures w.(service := w.service.NextNotification()).Sound(lost)
  {
    hide Service.Sound;
    TakeKeepsSound(w.service, callId);
    NextNotificationKeepsSound(w.service);
  }

  lemma EventKeepsSound(w: Worker, e: Event, lost: nat)
    requires w.Sound(lost) && Proper(w, e)
    ensures Do(w, e).Sound(lost + LostIn(w, e))
  {
    hide Worker.Sound, Worker.Possible, Worker.Dial, Worker.BeginShutdownAt, Worker.PollAt, Worker.Lost;
    match e
    case DialEvent(callId, fate) => DialConserves(w, callId, fate, lost);
    case BeginShutdownEvent(now) => BeginShutdownConserves(w, now, lost);
    case PollEvent(now, scene) => var v := PollConserves(w, now, scene, lost);
    case TakeOutcomeEvent(callId) => TakingConserves(w, callId, lost);
    case NextNotificationEvent => TakingConserves(w, 0, lost);
  }

  /** A worker that was just created. */
  function New(capacity: nat, notificationCapacity: nat, grace: nat, generator: Generator): Worker {
    var board := Board(Queue([], notificationCapacity, 0), [], []);
    Worker(Service(Registry(map[], capacity, true, generator), Shutdown.RUNNING, grace, map[], map[], board, capacity),
           Ready, 0, 0, 0, 0, 0)
  }

  lemma NewIsSound(capacity: nat, notificationCapacity: nat, grace: nat, generator: Generator)
    requires generator.Valid()
    ensures New(capacity, notificationCapacity, grace, generator).Sound(0)
  {
  }

  lemma {:induction false} RunKeepsSound(w: Worker, events: seq<Event>, lost: nat)
    requires w.Sound(lost) && ProperRun(w, events)
    ensures Run(w, events).Sound(lost + LostOver(w, events))
    decreases |events|
  {
    hide Worker.Sound, Proper, Do, LostIn;
    if events != [] {
      EventKeepsSound(w, events[0], lost);
      RunKeepsSound(Do(w, events[0]), events[1..], lost + LostIn(w, events[0]));
    }
  }

  /**
   * On every run from a new worker tokens agree, capacity holds, notifications
   * stay ordered and phases agree. Every started call is completed, active, or
   * one that a poll ended and then lost to an exhausted sequence, so the
   * counters are right exactly when no poll lost one.
   */
  lemma EveryRunIsSound(capacity: nat, notificationCapacity: nat, grace: nat, generator: Generator, events: seq<Event>)
    requires generator.Valid() && ProperRun(New(capacity, notificationCapacity, grace, generator), events)
    ensures var w := New(capacity, notificationCapacity, grace, generator);
            var v := Run(w, events);
            && v.service.Sound({}) && v.Phased() && v.forced <= v.completed
            && v.started == v.completed + |v.service.calls| + LostOver(w, events)
            && (v.started == v.completed + |v.service.calls| <==> LostOver(w, events) == 0)
  {
    hide Service.Sound, Worker.Phased, New, Run, ProperRun, LostOver;
    var w := New(capacity, notificationCapacity, grace, generator);
    NewIsSound(capacity, notificationCapacity, grace, generator);
    RunKeepsSound(w, events, 0);
  }

  // ---------------------------------------------------------------------------
  // Shutdown ends
  // ---------------------------------------------------------------------------

  lemma OverflowNeedsACall(s: Service, order: seq<Token>, visits: map<nat, Visit>)
    requires Scanned(s, order) && SomeOverflows(s, order, visits)
    ensures |s.calls| != 0
  {
    assert order[0].callId in s.calls;
  }

  /** A poll at or past the deadline forces every call out, exactly when it meets no exhausted sequence. */
  lemma DeadlinePoll(w: Worker, now: nat, scene: Scene, lost: nat) returns (v: Worker)
    requires w.Sound(lost) && w.Possible(scene) && w.phase == Draining
    requires now >= w.lastPoll && w.polls < U64_MAX && now >= w.service.shutdown.deadline.value
    ensures v == w.PollAt(now, scene).0
    ensures Forced(v) <==> !SomeOverflows(w.service, scene.order, scene.visits)
    ensures Forced(v) ==> v.Sound(lost) && v.lastPoll == now && v.polls == w.polls + 1
  {
    hide Service.Sound, Service.Pump, Worker.PollAt, Worker.Pumped, Joins.Iterate, SomeOverflows, Ended;
    v := DrainingPoll(w, now, scene, lost);
    if SomeOverflows(w.service, scene.order, scene.visits) {
      OverflowNeedsACall(w.service, scene.order, scene.visits);
    }
  }

  lemma LastPoll(w: Worker, now: nat, scene: Scene, lost: nat)
    requires w.Sound(lost) && w.Possible(scene) && Forced(w) && now >= w.lastPoll && w.polls < U64_MAX
    ensures w.PollAt(now, scene).1.None? && w.PollAt(now, scene).0.phase == Stopped
  {
    hide Service.Sound, Service.Pump, Worker.Pumped, Worker.Drained, Joins.Iterate, SomeOverflows, Ended;
    if w.phase == Draining {
      var v := DrainingPoll(w, now, scene, lost);
      if SomeOverflows(w.service, scene.order, scene.visits) {
        OverflowNeedsACall(w.service, scene.order, scene.visits);
      }
    }
  }

  /** A poll at or past the deadline that meets no exhausted sequence, and one more, reach Stopped. */
  lemma TwoPollsStop(w: Worker, first: nat, scene: Scene, second: nat, next: Scene, lost: nat)
    requires w.Sound(lost) && w.Possible(scene) && w.phase == Draining
    requires first >= w.lastPoll && w.polls + 1 < U64_MAX && first >= w.service.shutdown.deadline.value
    requires second >= first && w.PollAt(first, scene).0.Possible(next)
    requires !SomeOverflows(w.service, scene.order, scene.visits)
    ensures w.PollAt(first, scene).0.PollAt(second, next).1.None?
    ensures w.PollAt(first, scene).0.PollAt(second, next).0.phase == Stopped
  {
    hide Worker.Sound, Worker.PollAt, Worker.Possible, Scanned, SomeOverflows;
    var v := DeadlinePoll(w, first, scene, lost);
    LastPoll(v, second, next, lost);
  }

  // ---------------------------------------------------------------------------
  // Outcomes wait to be acknowledged
  // ---------------------------------------------------------------------------

  lemma PollKeepsOutcomes(w: Worker, now: nat, scene: Scene, lost: nat)
    requires w.Sound(lost) && w.Possible(scene)
    ensures KeepsOutcomes(w.service, w.PollAt(now, scene).0.service)
  {
    hide Service.Sound, Service.Pump, Service.PollShutdown, Joins.Iterate;
    PumpRetains(w.service, scene.order, scene.visits);
    var u, error := PumpedConserves(w, scene, lost);
    if error.None? && w.phase == Draining && now >= w.lastPoll {
      var v := DrainedConserves(u, now, scene.joins, lost);
      PollShutdownRetains(u.service, now, scene.joins);
    }
  }

  /** A terminal outcome, once retained, stays as it is until it is taken, whatever fails meanwhile. */
  lemma OutcomesStay(w: Worker, e: Event, id: nat, lost: nat)
    requires w.Sound(lost) && Proper(w, e) && id in w.service.terminal && e != TakeOutcomeEvent(id)
    ensures id in Do(w, e).service.terminal && Do(w, e).service.terminal[id] == w.service.terminal[id]
  {
    hide Service.Sound, Worker.PollAt;
    if e.PollEvent? {
      PollKeepsOutcomes(w, e.now, e.scene, lost);
    }
  }
}
