/** Graceful shutdown of the process runtime (src/runtime/shutdown.rs). */
module Shutdown {
  import opened Wrappers

  datatype Phase = Running | Draining | Forcing | Complete

  datatype Action = NoAction | StopAdmission | ForceTerminate(activeCalls: nat) | Completed

  datatype Error = AlreadyStarted | NotStarted | ZeroGrace | TimeOverflow | ClockMovedBackward | InternalInvariant

  datatype Coordinator = Coordinator(
    phase: Phase,
    startedAt: Option<nat>,
    deadline: Option<nat>,
    lastPoll: Option<nat>)
  {
    predicate Valid() {
      phase != Running ==> startedAt.Some? && deadline.Some? && lastPoll.Some? && startedAt.value <= lastPoll.value
    }

    function BeginError(now: nat, grace: nat): Option<Error> {
      if phase != Running then Some(AlreadyStarted)
      else if grace == 0 then Some(ZeroGrace)
      else if now + grace > DURATION_MAX then Some(TimeOverflow)
      else None
    }

    function Begin(now: nat, grace: nat): (Coordinator, Result<Action, Error>) {
      if BeginError(now, grace).Some? then (this, Err(BeginError(now, grace).value))
      else (Coordinator(Draining, Some(now), Some(now + grace), Some(now)), Ok(StopAdmission))
    }

    function Poll(now: nat, activeCalls: nat): (Coordinator, Result<Action, Error>) {
      if phase == Running then (this, Err(NotStarted))
      else if lastPoll.Some? && now < lastPoll.value then (this, Err(ClockMovedBackward))
      else
        var polled := this.(lastPoll := Some(now));
        if phase == Complete then (polled, Ok(NoAction))
        else if activeCalls == 0 then (polled.(phase := Complete), Ok(Completed))
        else if phase == Draining && deadline.None? then (polled, Err(InternalInvariant))
        else if phase == Draining && now >= deadline.value then
          (polled.(phase := Forcing), Ok(ForceTerminate(activeCalls)))
        else (polled, Ok(NoAction))
    }
  }

  const RUNNING := Coordinator(Running, None, None, None)

  /** Polling fails only before the start or when time runs backwards; the phase never moves back. */
  lemma PollOutcome(c: Coordinator, now: nat, activeCalls: nat)
    requires c.Valid()
    ensures c.Poll(now, activeCalls).0.Valid()
    ensures c.Poll(now, activeCalls).1.Err? <==> c.phase == Running || now < c.lastPoll.value
    ensures c.Poll(now, activeCalls).1.Ok? ==>
              && c.Poll(now, activeCalls).0.lastPoll == Some(now)
              && c.Poll(now, activeCalls).0.deadline == c.deadline
              && (c.Poll(now, activeCalls).0.phase == Complete <==> c.phase == Complete || activeCalls == 0)
              && (c.Poll(now, activeCalls).1.value.ForceTerminate? <==>
                  c.phase == Draining && activeCalls > 0 && now >= c.deadline.value)
              && c.Poll(now, activeCalls).0.phase ==
                 (if c.phase == Complete || activeCalls == 0 then Complete
                  else if c.phase == Draining && now < c.deadline.value then Draining else Forcing)
  {
  }

  /** A time at which the coordinator is polled, and the calls then active. */
  datatype Look = Look(now: nat, activeCalls: nat)

  function Polled(c: Coordinator, looks: seq<Look>): Coordinator {
    if looks == [] then c
    else Polled(c, looks[..|looks| - 1]).Poll(looks[|looks| - 1].now, looks[|looks| - 1].activeCalls).0
  }

  /** Looks in order of time, from `start` on, all with calls active and before `end`. */
  predicate Patient(looks: seq<Look>, start: nat, end: nat) {
    && (forall i | 0 <= i < |looks| :: start <= looks[i].now < end && looks[i].activeCalls > 0)
    && (forall i, j | 0 <= i < j < |looks| :: looks[i].now <= looks[j].now)
  }

  lemma {:induction false} GraceLasts(start: nat, grace: nat, looks: seq<Look>)
    requires RUNNING.Begin(start, grace).1.Ok? && Patient(looks, start, start + grace)
    ensures var c := Polled(RUNNING.Begin(start, grace).0, looks);
            && c.phase == Draining && c.deadline == Some(start + grace) && c.startedAt == Some(start)
            && c.lastPoll == Some(if looks == [] then start else looks[|looks| - 1].now)
  {
    if looks != [] {
      GraceLasts(start, grace, looks[..|looks| - 1]);
    }
  }

  /**
   * A shutdown that began at `start` leaves active calls alone until the grace
   * period is over, forces them at the first look after that, and completes at
   * the first look that finds none.
   */
  lemma GraceIsKept(start: nat, grace: nat, looks: seq<Look>, now: nat, activeCalls: nat)
    requires RUNNING.Begin(start, grace).1.Ok? && Patient(looks, start, start + grace)
    requires now >= if looks == [] then start else looks[|looks| - 1].now
    ensures Polled(RUNNING.Begin(start, grace).0, looks).Poll(now, activeCalls).1 ==
            Ok(if activeCalls == 0 then Completed
               else if now < start + grace then NoAction else ForceTerminate(activeCalls))
  {
    GraceLasts(start, grace, looks);
  }

  /** The two ways a poll fails, neither of which changes anything, and the one way it has nothing left to say. */
  lemma PollsThatSayNothing(c: Coordinator, now: nat, activeCalls: nat)
    requires c.Valid()
    ensures c.Poll(now, activeCalls).1 == Err(NotStarted) <==> c.phase == Running
    ensures c.Poll(now, activeCalls).1 == Err(Error.ClockMovedBackward) <==>
              c.phase != Running && now < c.lastPoll.value
    ensures c.Poll(now, activeCalls).1.Err? ==>
              c.Poll(now, activeCalls).0 == c && c.Poll(now, activeCalls).1.error != InternalInvariant
    ensures c.phase == Complete && now >= c.lastPoll.value ==>
              c.Poll(now, activeCalls) == (c.(lastPoll := Some(now)), Ok(NoAction))
  {
  }

  /** A shutdown can begin exactly once, with a grace period whose end is a time. */
  lemma BeginsOnce(c: Coordinator, now: nat, grace: nat)
    ensures c.Begin(now, grace).1 == Ok(StopAdmission) <==>
              c.phase == Running && grace > 0 && now + grace <= DURATION_MAX
    ensures c.Begin(now, grace).1.Ok? ==> c.Begin(now, grace).0 == RUNNING.Begin(now, grace).0
    ensures c.Begin(now, grace).1.Err? ==> c.Begin(now, grace).0 == c
    ensures c.Begin(now, grace).1 == Err(AlreadyStarted) <==> c.phase != Running
    ensures c.Begin(now, grace).1 == Err(ZeroGrace) <==> c.phase == Running && grace == 0
    ensures c.Begin(now, grace).1 == Err(TimeOverflow) <==>
              c.phase == Running && grace > 0 && now + grace > DURATION_MAX
    ensures forall later, more :: c.Begin(now, grace).1.Ok? ==>
              c.Begin(now, grace).0.Begin(later, more).1 == Err(AlreadyStarted)
  {
  }

  class ShutdownCoordinator {
    var phase: Phase
    var startedAt: Option<nat>
    var deadline: Option<nat>
    var lastPoll: Option<nat>

    function AsCoordinator(): Coordinator
      reads this
    {
      Coordinator(phase, startedAt, deadline, lastPoll)
    }

    constructor ()
      ensures AsCoordinator() == RUNNING
    {
      phase, startedAt, deadline, lastPoll := Running, None, None, None;
    }

    method Begin(now: nat, grace: nat) returns (r: Result<Action, Error>)
      modifies this
      ensures (AsCoordinator(), r) == old(AsCoordinator()).Begin(now, grace)
    {
      if phase != Running {
        return Err(AlreadyStarted);
      }
      if grace == 0 {
        return Err(ZeroGrace);
      }
      if now + grace > DURATION_MAX {
        return Err(TimeOverflow);
      }
      phase, startedAt, deadline, lastPoll := Draining, Some(now), Some(now + grace), Some(now);
      return Ok(StopAdmission);
    }

    method Poll(now: nat, activeCalls: nat) returns (r: Result<Action, Error>)
      modifies this
      ensures (AsCoordinator(), r) == old(AsCoordinator()).Poll(now, activeCalls)
    {
      if phase == Running {
        return Err(NotStarted);
      }
      if lastPoll.Some? && now < lastPoll.value {
        return Err(ClockMovedBackward);
      }
      lastPoll := Some(now);
      if phase == Complete {
        return Ok(NoAction);
      }
      if activeCalls == 0 {
        phase := Complete;
        return Ok(Completed);
      }
      if phase == Draining {
        if deadline.None? {
          return Err(InternalInvariant);
        }
        if now >= deadline.value {
          phase := Forcing;
          return Ok(ForceTerminate(activeCalls));
        }
      }
      return Ok(NoAction);
    }
  }
}

/**
 * The process service (src/runtime/service.rs) over its engine
 * (src/runtime/engine.rs), as a value.
 *
 * Outside the model: what call threads publish, when they finish, whether a
 * dial can be prepared and in which order a hash map iterates. These are
 * parameters. Joins succeed.
 */
module RuntimeService {
  import opened Wrappers
  import opened OpaqueIds
  import opened CallRegistry
  import opened Notifications
  import Shutdown

  const MAX_ACTION_BATCHES: nat := 64

  datatype Error =
    | DuplicateCall | OutcomeCapacity | UnknownCall | StaleCallGeneration | NotificationSequenceExhausted
    | Overloaded | DialFailed | Calls(calls: CallRegistry.Error) | StartFailed
    | ShutdownFailed(shutdown: Shutdown.Error)

  /** How far a dial gets: admission, preparation, native thread, first command. */
  datatype DialFate = NotAdmitted | NotPrepared | Prepared(threadOk: bool, startOk: bool)

  datatype Active = Active(token: Token, nextSequence: nat)

  datatype Outcome = Outcome(token: Token, exit: nat, finalSequence: nat)

  /** What a pump finds at one call: action batches in its queue, and its exit if its thread is terminal. */
  datatype Visit = Visit(batches: seq<seq<nat>>, exit: Option<nat>)

  datatype Report = Report(token: Token, exit: nat)

  datatype Progress = Progress(action: Shutdown.Action, completed: nat, forced: nat)

  /** What a shutdown poll meets: the finished calls and the others, in hash order, and how each call ended. */
  datatype Joins = Joins(finished: seq<nat>, rest: seq<nat>, exits: map<Token, nat>) {
    ghost predicate Iterate(live: map<nat, nat>) {
      && Distinct(finished) && (forall id | id in finished :: id in live)
      && Lists(rest, live.Keys - Elements(finished))
    }

    function Reports(tokens: seq<Token>): (reports: seq<Report>)
      ensures |reports| == |tokens|
      ensures forall i | 0 <= i < |tokens| ::
                reports[i] == Report(tokens[i], if tokens[i] in exits then exits[tokens[i]] else 0)
    {
      if tokens == [] then []
      else [Report(tokens[0], if tokens[0] in exits then exits[tokens[0]] else 0)] + Reports(tokens[1..])
    }
  }

  datatype Service = Service(
    registry: Registry,
    shutdown: Shutdown.Coordinator,
    grace: nat,
    calls: map<nat, Active>,
    terminal: map<nat, Outcome>,
    board: Board,
    capacity: nat)
  {
    function Enqueue(n: Notification): Service { this.(board := board.Enqueue(n)) }

    function DialError(callId: nat, fate: DialFate): Option<Error> {
      if callId in calls || callId in terminal then Some(Error.DuplicateCall)
      else if |calls| + |terminal| >= capacity then Some(OutcomeCapacity)
      else if fate.NotAdmitted? then Some(Overloaded)
      else if fate.NotPrepared? then Some(DialFailed)
      else None
    }

    function Dial(callId: nat, fate: DialFate): (Service, Result<Token, Error>) {
      if DialError(callId, fate).Some? then (this, Err(DialError(callId, fate).value))
      else
        var (spawned, result) := registry.Spawn(callId, fate.threadOk);
        if result.Err? then (this.(registry := spawned), Err(Calls(result.error)))
        else if !fate.startOk then (this.(registry := spawned.Without(callId)), Err(StartFailed))
        else
          (this.(registry := spawned, calls := calls[callId := Active(result.value, 2)])
               .Enqueue(Notification(result.value, 1, DialStarted)), Ok(result.value))
    }

    /** `publish_action`: the next sequence number of the call goes with the action. */
    function Publish(callId: nat, action: nat): (Service, Option<Error>) {
      if callId !in calls then (this, Some(Error.UnknownCall))
      else if calls[callId].nextSequence >= U64_MAX then (this, Some(NotificationSequenceExhausted))
      else
        var Active(token, sequence) := calls[callId];
        (this.(calls := calls[callId := Active(token, sequence + 1)])
             .Enqueue(Notification(token, sequence, Action(action))), None)
    }

    function PublishAll(callId: nat, actions: seq<nat>): (Service, Option<Error>)
      decreases |actions|
    {
      if actions == [] then (this, None)
      else
        var (s, error) := Publish(callId, actions[0]);
        if error.Some? then (s, error) else s.PublishAll(callId, actions[1..])
    }

    /** `finish_call`: the call leaves the active ones and its outcome is retained. */
    function Finish(report: Report): (Service, Option<Error>) {
      var id := report.token.callId;
      if id !in calls then (this, Some(Error.UnknownCall))
      else
        var removed := this.(calls := calls - {id});
        if calls[id].token != report.token then (removed, Some(StaleCallGeneration))
        else
          var sequence := calls[id].nextSequence;
          var kept := removed.(terminal := terminal[id := Outcome(report.token, report.exit, sequence)]);
          if id in terminal then (kept, Some(Error.DuplicateCall))
          else (kept.Enqueue(Notification(report.token, sequence, CallExited(report.exit))), None)
    }

    function FinishAll(reports: seq<Report>): (Service, Option<Error>)
      decreases |reports|
    {
      if reports == [] then (this, None)
      else
        var (s, error) := Finish(reports[0]);
        if error.Some? then (s, error) else s.FinishAll(reports[1..])
    }

    /** One call of a pump: publish what it queued, then join it and keep its report if it is done. */
    function PumpCall(token: Token, visit: Visit): (Service, Option<Error>) {
      if !registry.Knows(token) then (this, Some(Calls(registry.Verify(token).error)))
      else
        var (s, error) := PublishAll(token.callId, Actions(visit.batches));
        if error.Some? || visit.exit.None? then (s, error)
        else s.(registry := s.registry.Without(token.callId)).Finish(Report(token, visit.exit.value))
    }

    /** The pump over the tokens it collected; also the number of calls completed. */
    function Pump(order: seq<Token>, visits: map<nat, Visit>): (Service, nat, Option<Error>)
      decreases |order|
    {
      if order == [] then (this, 0, None)
      else
        var visit := VisitOf(visits, order[0]);
        var (s, error) := PumpCall(order[0], visit);
        if error.Some? then (s, 0, error)
        else
          var (t, completed, later) := s.Pump(order[1..], visits);
          (t, completed + (if visit.exit.Some? then 1 else 0), later)
    }

    /** Acknowledge a retained outcome. */
    function Take(callId: nat): Service { this.(terminal := terminal - {callId}) }

    function NextNotification(): Service { this.(board := board.Pop()) }

    function BeginShutdown(now: nat): (Service, Option<Error>) {
      var (c, result) := shutdown.Begin(now, grace);
      if result.Err? then (this.(shutdown := c), Some(ShutdownFailed(result.error)))
      else (this.(shutdown := c, registry := registry.BeginShutdown()), None)
    }

    /** The service's `poll_shutdown`: finish every call that the engine joined. */
    function PollShutdown(now: nat, joins: Joins): (Service, Result<Progress, Error>)
      requires joins.Iterate(registry.calls)
    {
      var (r, c, result) := EnginePoll(registry, shutdown, now, joins);
      if result.Err? then (this.(registry := r, shutdown := c), Err(ShutdownFailed(result.error)))
      else
        var Joined(action, completed, forced) := result.value;
        Settle(r, c, joins.Reports(completed) + joins.Reports(forced), Progress(action, |completed|, |forced|))
    }

    /** Finish the calls whose joins the registry `r` no longer holds. */
    function Settle(r: Registry, c: Shutdown.Coordinator, reports: seq<Report>, progress: Progress):
      (Service, Result<Progress, Error>)
    {
      var (t, error) := this.(registry := r, shutdown := c).FinishAll(reports);
      (t, if error.Some? then Err(error.value) else Ok(progress))
    }

    /** What the service keeps true between operations; inside one, `pending` calls are joined but not finished. */
    predicate Sound(pending: set<Token>) {
      && registry.Sound() && registry.capacity == capacity
      && Named(calls, registry.generator) && Matched(calls, registry.calls, pending) && Fits(calls, terminal, capacity)
      && Delivers(board) && Known(board.attempted, registry.generator) && Ahead(calls, board.attempted)
    }
  }

  /** An active call is filed under its own id, with a generation that was issued. */
  predicate Named(calls: map<nat, Active>, g: Generator) {
    forall id | id in calls :: calls[id].token.callId == id && g.WasIssued(calls[id].token.generation)
  }

  /** Service and registry hold the same tokens, apart from the pending ones, which only the service holds. */
  predicate Matched(calls: map<nat, Active>, live: map<nat, nat>, pending: set<Token>) {
    && (forall id | id in calls ::
          calls[id].token in pending || (id in live && live[id] == calls[id].token.generation))
    && (forall id | id in live ::
          id in calls && calls[id].token == Token(id, live[id]) && calls[id].token !in pending)
    && (forall t | t in pending :: t.callId in calls && calls[t.callId].token == t)
  }

  /** Active calls and retained outcomes share one capacity, and no id is both. */
  predicate Fits(calls: map<nat, Active>, terminal: map<nat, Outcome>, capacity: nat) {
    calls.Keys !! terminal.Keys && |calls| + |terminal| <= capacity
  }

  predicate Delivers(board: Board) { board.Sound() && Ordered(board.attempted) }

  predicate Known(attempted: seq<Notification>, g: Generator) {
    forall n | n in attempted :: g.WasIssued(n.token.generation)
  }

  /** Whatever a call is offered next comes after everything it was offered. */
  predicate Ahead(calls: map<nat, Active>, attempted: seq<Notification>) {
    && (forall id | id in calls :: calls[id].nextSequence <= U64_MAX)
    && (forall id, n | id in calls && n in attempted && n.token == calls[id].token ::
          n.sequence < calls[id].nextSequence)
  }

  datatype Joined = Joined(action: Shutdown.Action, completed: seq<Token>, forced: seq<Token>)

  /** The engine's `poll_shutdown`: join what has finished, advance the coordinator, join the rest if it says so. */
  function EnginePoll(registry: Registry, shutdown: Shutdown.Coordinator, now: nat, joins: Joins):
    (Registry, Shutdown.Coordinator, Result<Joined, Shutdown.Error>)
    requires joins.Iterate(registry.calls)
  {
    ReapConserves(registry, [], joins.finished, Elements(joins.finished));
    var (reaped, completed) := registry.Reap([], joins.finished, Elements(joins.finished));
    var (c, action) := shutdown.Poll(now, |reaped.calls|);
    if action.Err? then (reaped, c, Err(action.error))
    else if !action.value.ForceTerminate? then (reaped, c, Ok(Joined(action.value, completed.value, [])))
    else
      var (empty, forced) := reaped.ShutdownAll(joins.rest, Elements(joins.rest));
      (empty, c, Ok(Joined(action.value, completed.value, forced.value)))
  }

  function VisitOf(visits: map<nat, Visit>, token: Token): Visit {
    if token.callId in visits then visits[token.callId] else Visit([], None)
  }

  /** At most 64 batches are drained from one call in one pump. */
  function Actions(batches: seq<seq<nat>>): seq<nat> {
    Flatten(if |batches| <= MAX_ACTION_BATCHES then batches else batches[..MAX_ACTION_BATCHES])
  }

  function Flatten(batches: seq<seq<nat>>): seq<nat> {
    if batches == [] then [] else Flatten(batches[..|batches| - 1]) + batches[|batches| - 1]
  }

  lemma OneFewer<T>(m: map<nat, T>, id: nat)
    requires id in m
    ensures |m - {id}| == |m| - 1
  {
    assert m.Keys == (m - {id}).Keys + {id};
  }

  lemma OneMore<T>(m: map<nat, T>, id: nat, value: T)
    requires id !in m
    ensures m[id := value].Keys == m.Keys + {id} && |m[id := value]| == |m| + 1
  {
    assert m[id := value].Keys == m.Keys + {id};
  }

  lemma OfferDelivers(board: Board, n: Notification)
    requires Delivers(board) && Latest(board.attempted, n)
    ensures Delivers(board.Enqueue(n))
  {
    EnqueueKeepsSound(board, n);
    OrderedLast(board.attempted, n);
  }

  lemma KnownLast(attempted: seq<Notification>, n: Notification, g: Generator)
    requires Known(attempted, g) && g.WasIssued(n.token.generation)
    ensures Known(attempted + [n], g)
  {
  }

  // ---------------------------------------------------------------------------
  // Publishing
  // ---------------------------------------------------------------------------

  predicate SameTokens(a: map<nat, Active>, b: map<nat, Active>) {
    a.Keys == b.Keys && forall id | id in a :: a[id].token == b[id].token
  }

  lemma OnlyNumberChanges(calls: map<nat, Active>, id: nat, sequence: nat)
    requires id in calls
    ensures SameTokens(calls, calls[id := Active(calls[id].token, sequence)])
  {
    assert calls[id := Active(calls[id].token, sequence)].Keys == calls.Keys;
  }

  lemma NextIsAhead(calls: map<nat, Active>, attempted: seq<Notification>, id: nat, n: Notification, g: Generator)
    requires Ahead(calls, attempted) && Named(calls, g)
    requires id in calls && calls[id].nextSequence < U64_MAX
    requires n.token == calls[id].token && n.sequence == calls[id].nextSequence
    ensures Ahead(calls[id := Active(n.token, n.sequence + 1)], attempted + [n])
    ensures Latest(attempted, n)
  {
  }

  /** Publishing touches nothing but the call's next sequence number and the queue. */
  predicate SameCalls(s: Service, t: Service) {
    && t.registry == s.registry && t.shutdown == s.shutdown && t.grace == s.grace
    && t.terminal == s.terminal && t.capacity == s.capacity && SameTokens(s.calls, t.calls)
  }

  lemma PublishChanges(s: Service, callId: nat, action: nat)
    requires callId in s.calls
    ensures SameCalls(s, s.Publish(callId, action).0)
    ensures s.Publish(callId, action).1 ==
              if s.calls[callId].nextSequence < U64_MAX then None else Some(NotificationSequenceExhausted)
    ensures s.calls[callId].nextSequence < U64_MAX ==>
              s.Publish(callId, action).0.calls[callId].nextSequence == s.calls[callId].nextSequence + 1
    ensures forall k | k in s.calls && k != callId :: s.Publish(callId, action).0.calls[k] == s.calls[k]
  {
    OnlyNumberChanges(s.calls, callId, s.calls[callId].nextSequence + 1);
  }

  lemma SameCallsKeepSound(s: Service, t: Service)
    requires s.Sound({}) && SameCalls(s, t)
    requires Delivers(t.board) && Known(t.board.attempted, s.registry.generator) && Ahead(t.calls, t.board.attempted)
    ensures t.Sound({})
  {
    assert |s.calls.Keys| == |t.calls.Keys|;
  }

  lemma PublishKeepsSound(s: Service, callId: nat, action: nat)
    requires s.Sound({}) && callId in s.calls
    ensures s.Publish(callId, action).0.Sound({})
  {
    hide Registry.Sound, Generator.WasIssued, Matched, Fits, Delivers, Known, Ahead;
    PublishChanges(s, callId, action);
    if s.calls[callId].nextSequence < U64_MAX {
      var n := Notification(s.calls[callId].token, s.calls[callId].nextSequence, Action(action));
      NextIsAhead(s.calls, s.board.attempted, callId, n, s.registry.generator);
      OfferDelivers(s.board, n);
      KnownLast(s.board.attempted, n, s.registry.generator);
      SameCallsKeepSound(s, s.Publish(callId, action).0);
    }
  }

  /** `t` is `s` after the call `id` used `n` more sequence numbers, as far as there were any. */
  predicate Published(s: Service, t: Service, id: nat, n: nat) {
    && SameCalls(s, t) && id in s.calls
    && t.calls[id].nextSequence == Min(s.calls[id].nextSequence + n, U64_MAX)
    && (forall k | k in s.calls && k != id :: t.calls[k] == s.calls[k])
  }

  lemma PublishOne(s: Service, callId: nat, action: nat) returns (t: Service)
    requires s.Sound({}) && callId in s.calls && s.calls[callId].nextSequence < U64_MAX
    ensures s.Publish(callId, action) == (t, None) && t.Sound({}) && Published(s, t, callId, 1)
  {
    PublishChanges(s, callId, action);
    PublishKeepsSound(s, callId, action);
    t := s.Publish(callId, action).0;
  }

  lemma PublishedTransitive(s: Service, t: Service, u: Service, id: nat, n: nat)
    requires Published(s, t, id, 1) && Published(t, u, id, n) && s.calls[id].nextSequence < U64_MAX
    ensures Published(s, u, id, n + 1)
  {
  }

  lemma NothingPublished(s: Service, id: nat)
    requires s.Sound({}) && id in s.calls
    ensures Published(s, s, id, 0) && s.calls[id].nextSequence <= U64_MAX
    ensures s.calls[id].nextSequence == U64_MAX ==> forall n :: Published(s, s, id, n)
  {
  }

  /** Actions take consecutive numbers, and publishing fails exactly when the 64-bit numbers run out. */
  lemma {:induction false} PublishAllKeepsSound(s: Service, callId: nat, actions: seq<nat>)
    returns (t: Service, error: Option<Error>)
    requires s.Sound({}) && callId in s.calls
    ensures s.PublishAll(callId, actions) == (t, error) && t.Sound({}) && Published(s, t, callId, |actions|)
    ensures error == if s.calls[callId].nextSequence + |actions| <= U64_MAX then None
                     else Some(NotificationSequenceExhausted)
    decreases |actions|
  {
    hide Service.Sound;
    NothingPublished(s, callId);
    if actions == [] {
      t, error := s, None;
    } else if s.calls[callId].nextSequence < U64_MAX {
      var u := PublishOne(s, callId, actions[0]);
      t, error := PublishAllKeepsSound(u, callId, actions[1..]);
      PublishedTransitive(s, u, t, callId, |actions| - 1);
    } else {
      t, error := s, Some(NotificationSequenceExhausted);
    }
  }

  // ---------------------------------------------------------------------------
  // Finishing
  // ---------------------------------------------------------------------------

  lemma FinishMatches(calls: map<nat, Active>, live: map<nat, nat>, pending: set<Token>, token: Token, g: Generator)
    requires Named(calls, g) && Matched(calls, live, pending) && token in pending
    ensures Named(calls - {token.callId}, g)
    ensures Matched(calls - {token.callId}, live, pending - {token})
  {
  }

  lemma ExitIsLatest(calls: map<nat, Active>, attempted: seq<Notification>, id: nat, n: Notification, g: Generator)
    requires Ahead(calls, attempted) && Named(calls, g)
    requires id in calls && n.token == calls[id].token && n.sequence == calls[id].nextSequence
    ensures Ahead(calls - {id}, attempted + [n])
    ensures Latest(attempted, n)
  {
  }

  lemma FinishFits(calls: map<nat, Active>, terminal: map<nat, Outcome>, capacity: nat, id: nat, outcome: Outcome)
    requires Fits(calls, terminal, capacity) && id in calls
    ensures Fits(calls - {id}, terminal[id := outcome], capacity)
    ensures |calls - {id}| == |calls| - 1 && |terminal[id := outcome]| == |terminal| + 1
  {
    OneFewer(calls, id);
    OneMore(terminal, id, outcome);
  }

  lemma FinishKeepsSound(s: Service, report: Report, pending: set<Token>) returns (t: Service)
    requires s.Sound(pending) && report.token in pending
    ensures t == s.Finish(report).0 && s.Finish(report).1 == None && t.Sound(pending - {report.token})
    ensures |t.calls| == |s.calls| - 1 && |t.terminal| == |s.terminal| + 1
    ensures t == s.(calls := s.calls - {report.token.callId}, terminal := t.terminal, board := t.board)
  {
    var id := report.token.callId;
    var n := Notification(report.token, s.calls[id].nextSequence, CallExited(report.exit));
    t := s.Finish(report).0;
    FinishFits(s.calls, s.terminal, s.capacity, id, Outcome(report.token, report.exit, n.sequence));
    FinishMatches(s.calls, s.registry.calls, pending, report.token, s.registry.generator);
    ExitIsLatest(s.calls, s.board.attempted, id, n, s.registry.generator);
    KnownLast(s.board.attempted, n, s.registry.generator);
    OfferDelivers(s.board, n);
  }

  // ---------------------------------------------------------------------------
  // Dialing and pumping
  // ---------------------------------------------------------------------------

  lemma LaterGenerator(calls: map<nat, Active>, attempted: seq<Notification>, g: Generator, later: Generator)
    requires Named(calls, g) && Known(attempted, g) && (forall x | g.WasIssued(x) :: later.WasIssued(x))
    ensures Named(calls, later) && Known(attempted, later)
  {
  }

  lemma SpentKeepsSound(s: Service, r: Registry)
    requires s.Sound({}) && r.Sound() && r == s.registry.(generator := r.generator)
    requires forall x | s.registry.generator.WasIssued(x) :: r.generator.WasIssued(x)
    ensures s.(registry := r).Sound({})
  {
    LaterGenerator(s.calls, s.board.attempted, s.registry.generator, r.generator);
  }

  lemma AddThenRemove<T>(m: map<nat, T>, id: nat, value: T)
    requires id !in m
    ensures m[id := value] - {id} == m && m - {id} == m
  {
  }

  lemma SpawnUndone(r: Registry, callId: nat, threadOk: bool)
    requires r.Sound() && callId !in r.calls
    ensures var after := r.Spawn(callId, threadOk).0.Without(callId);
            && after == r.(generator := after.generator) && after.Sound()
            && (forall x | r.generator.WasIssued(x) :: after.generator.WasIssued(x))
  {
    var spawned := r.Spawn(callId, threadOk).0;
    SpawnKeepsSound(r, callId, threadOk);
    WithinKeepsSound(spawned.Without(callId), spawned);
    AddThenRemove(r.calls, callId, r.generator.permutation.Value(r.generator.next));
  }

  lemma RefusedSpawn(r: Registry, callId: nat, threadOk: bool)
    requires callId !in r.calls && r.Spawn(callId, threadOk).1.Err?
    ensures r.Spawn(callId, threadOk).0 == r.Spawn(callId, threadOk).0.Without(callId)
  {
    AddThenRemove(r.calls, callId, 0);
  }

  /** A dial that fails spends at most a generation. */
  lemma FailedDialKeepsSound(s: Service, callId: nat, fate: DialFate)
    requires s.Sound({}) && s.Dial(callId, fate).1.Err?
    ensures s.Dial(callId, fate).0 == s.(registry := s.Dial(callId, fate).0.registry)
    ensures s.Dial(callId, fate).0.registry == s.registry.(generator := s.Dial(callId, fate).0.registry.generator)
    ensures s.Dial(callId, fate).0.Sound({})
  {
    hide Named, Fits, Delivers, Known, Ahead;
    if s.DialError(callId, fate).None? {
      assert callId !in s.registry.calls;
      SpawnUndone(s.registry, callId, fate.threadOk);
      if s.registry.Spawn(callId, fate.threadOk).1.Err? {
        RefusedSpawn(s.registry, callId, fate.threadOk);
      }
      SpentKeepsSound(s, s.registry.Spawn(callId, fate.threadOk).0.Without(callId));
    }
  }

  lemma NewCallIsAhead(calls: map<nat, Active>, attempted: seq<Notification>, g: Generator, n: Notification)
    requires Ahead(calls, attempted) && Named(calls, g) && Known(attempted, g)
    requires !g.WasIssued(n.token.generation) && n.sequence == 1
    ensures Ahead(calls[n.token.callId := Active(n.token, 2)], attempted + [n])
    ensures Latest(attempted, n)
  {
  }

  lemma NewCallMatches(calls: map<nat, Active>, live: map<nat, nat>, token: Token, g: Generator)
    requires Named(calls, g) && Matched(calls, live, {}) && g.WasIssued(token.generation)
    ensures Named(calls[token.callId := Active(token, 2)], g)
    ensures Matched(calls[token.callId := Active(token, 2)], live[token.callId := token.generation], {})
  {
  }

  /** A dial spends a generation exactly when it gets as far as the thread, whether or not it succeeds. */
  lemma DialSpends(s: Service, callId: nat, fate: DialFate)
    requires s.Sound({})
    ensures s.Dial(callId, fate).0.registry.generator ==
            if callId !in s.calls && callId !in s.terminal && |s.calls| + |s.terminal| < s.capacity
               && fate.Prepared? && s.registry.accepting
            then s.registry.generator.Advanced() else s.registry.generator
  {
    hide Registry.Sound, Named, Delivers, Known, Ahead, Permutation.Value;
    SameCallsRegistered(s);
  }

  /**
   * A dial succeeds exactly when the call is neither active nor retained, there
   * is room for it and its outcome, admission is open, it is admitted and
   * prepared, a generation is left, and its thread and first command succeed.
   */
  lemma DialSucceedsExactly(s: Service, callId: nat, fate: DialFate)
    requires s.Sound({})
    ensures s.Dial(callId, fate).1.Ok? <==>
              && callId !in s.calls && callId !in s.terminal && |s.calls| + |s.terminal| < s.capacity
              && fate == Prepared(true, true) && s.registry.accepting && s.registry.generator.next != 0
    ensures s.Dial(callId, fate).1 == Err(Error.DuplicateCall) <==> callId in s.calls || callId in s.terminal
    ensures s.Dial(callId, fate).1 == Err(OutcomeCapacity) <==>
              callId !in s.calls && callId !in s.terminal && |s.calls| + |s.terminal| >= s.capacity
    ensures s.DialError(callId, fate).None? && !s.registry.accepting ==>
              s.Dial(callId, fate).1 == Err(Calls(ShuttingDown))
    ensures s.Dial(callId, fate).1 == Err(StartFailed) <==>
              && s.DialError(callId, fate).None? && s.registry.accepting && s.registry.generator.next != 0
              && fate == Prepared(true, false)
    ensures var free := callId !in s.calls && callId !in s.terminal && |s.calls| + |s.terminal| < s.capacity;
            && (s.Dial(callId, fate).1 == Err(Overloaded) <==> free && fate == NotAdmitted)
            && (s.Dial(callId, fate).1 == Err(DialFailed) <==> free && fate == NotPrepared)
  {
    hide Registry.Sound, Named, Delivers, Known, Ahead;
    if s.DialError(callId, fate).None? {
      SameCallsRegistered(s);
      SpawnSucceedsExactly(s.registry, callId, fate.threadOk);
    }
  }

  lemma SameCallsRegistered(s: Service)
    requires s.Sound({})
    ensures s.registry.calls.Keys == s.calls.Keys && |s.registry.calls| == |s.calls|
    ensures s.registry.capacity == s.capacity
  {
    hide Registry.Sound, Named, Fits, Delivers, Known, Ahead;
    MatchedKeys(s.calls, s.registry.calls);
  }

  lemma MatchedKeys(calls: map<nat, Active>, live: map<nat, nat>)
    requires Matched(calls, live, {})
    ensures live.Keys == calls.Keys && |live| == |calls|
  {
    assert live.Keys == calls.Keys;
    assert |live.Keys| == |calls.Keys|;
  }

  /** What a successful dial is made of. */
  lemma DialIs(s: Service, callId: nat, fate: DialFate) returns (r: Registry, token: Token, n: Notification)
    requires s.Sound({}) && s.Dial(callId, fate).1.Ok?
    ensures token.callId == callId && n == Notification(token, 1, DialStarted)
    ensures s.Dial(callId, fate) ==
            (s.(registry := r, calls := s.calls[callId := Active(token, 2)], board := s.board.Enqueue(n)), Ok(token))
    ensures r == s.registry.(generator := r.generator, calls := s.registry.calls[callId := token.generation])
    ensures s.registry.accepting && callId !in s.calls && callId !in s.terminal
    ensures |s.calls| + |s.terminal| < s.capacity
    ensures r.Sound() && !s.registry.generator.WasIssued(token.generation) && r.generator.WasIssued(token.generation)
    ensures forall x | s.registry.generator.WasIssued(x) :: r.generator.WasIssued(x)
  {
    hide Registry.Sound, Generator.WasIssued, Named, Matched, Fits, Delivers, Known, Ahead;
    token := s.Dial(callId, fate).1.value;
    n := Notification(token, 1, DialStarted);
    r := s.registry.Spawn(callId, fate.threadOk).0;
    SpawnKeepsSound(s.registry, callId, fate.threadOk);
  }

  lemma DialKeepsSound(s: Service, callId: nat, fate: DialFate) returns (t: Service)
    requires s.Sound({}) && s.Dial(callId, fate).1.Ok?
    ensures t == s.Dial(callId, fate).0 && t.Sound({})
    ensures |t.calls| == |s.calls| + 1
    ensures t.registry.accepting && s.registry.accepting
    ensures var token := s.Dial(callId, fate).1.value;
            && token.callId == callId && t.calls == s.calls[callId := Active(token, 2)]
            && t.board.attempted == s.board.attempted + [Notification(token, 1, DialStarted)]
    ensures t == s.(registry := t.registry, calls := t.calls, board := t.board)
  {
    hide Service.Dial, Registry.Sound, Generator.WasIssued, Named, Matched, Delivers, Known, Ahead;
    var r, token, n := DialIs(s, callId, fate);
    t := s.Dial(callId, fate).0;
    OneMore(s.calls, callId, Active(token, 2));
    NewCallIsAhead(s.calls, s.board.attempted, s.registry.generator, n);
    LaterGenerator(s.calls, s.board.attempted, s.registry.generator, r.generator);
    NewCallMatches(s.calls, s.registry.calls, token, r.generator);
    KnownLast(s.board.attempted, n, r.generator);
    OfferDelivers(s.board, n);
  }

  lemma JoinedMatches(calls: map<nat, Active>, live: map<nat, nat>, token: Token)
    requires Matched(calls, live, {}) && token.callId in live && live[token.callId] == token.generation
    ensures Matched(calls, live - {token.callId}, {token})
  {
  }

  lemma JoinedCallIsPending(s: Service, token: Token)
    requires s.Sound({}) && s.registry.Knows(token)
    ensures s.(registry := s.registry.Without(token.callId)).Sound({token})
  {
    WithinKeepsSound(s.registry.Without(token.callId), s.registry);
    JoinedMatches(s.calls, s.registry.calls, token);
  }

  /** `t` is `s` after the call `id` was finished or only published something. */
  predicate Others(s: Service, t: Service, id: nat) {
    && t.shutdown == s.shutdown && t.grace == s.grace && t.capacity == s.capacity
    && t.registry.accepting == s.registry.accepting
    && (forall k | k in s.calls && k != id :: k in t.calls && t.calls[k] == s.calls[k])
    && t.calls.Keys <= s.calls.Keys
  }

  lemma ActiveIsKnown(s: Service, token: Token)
    requires s.Sound({}) && token.callId in s.calls && s.calls[token.callId].token == token
    ensures s.registry.Knows(token)
  {
  }

  /** A call that is still running, or that has no number left, keeps its place. */
  lemma PumpPublishes(s: Service, token: Token, visit: Visit) returns (t: Service, error: Option<Error>)
    requires s.Sound({}) && token.callId in s.calls && s.calls[token.callId].token == token
    requires visit.exit.None? || s.calls[token.callId].nextSequence + |Actions(visit.batches)| > U64_MAX
    ensures s.PumpCall(token, visit) == (t, error) && t.Sound({})
    ensures Published(s, t, token.callId, |Actions(visit.batches)|)
    ensures error == if s.calls[token.callId].nextSequence + |Actions(visit.batches)| <= U64_MAX then None
                     else Some(NotificationSequenceExhausted)
  {
    hide Service.Sound;
    ActiveIsKnown(s, token);
    t, error := PublishAllKeepsSound(s, token.callId, Actions(visit.batches));
  }

  /** A call that has ended leaves the registry and becomes a retained outcome. */
  lemma PumpEnds(s: Service, token: Token, visit: Visit) returns (t: Service)
    requires s.Sound({}) && token.callId in s.calls && s.calls[token.callId].token == token
    requires visit.exit.Some? && s.calls[token.callId].nextSequence + |Actions(visit.batches)| <= U64_MAX
    ensures s.PumpCall(token, visit) == (t, None) && t.Sound({}) && Others(s, t, token.callId)
    ensures |t.calls| == |s.calls| - 1 && |t.terminal| == |s.terminal| + 1
  {
    hide Service.Sound;
    ActiveIsKnown(s, token);
    var u, error := PublishAllKeepsSound(s, token.callId, Actions(visit.batches));
    JoinedCallIsPending(u, token);
    var joined := u.(registry := u.registry.Without(token.callId));
    t := FinishKeepsSound(joined, Report(token, visit.exit.value), {token});
    assert {token} - {token} == {};
    assert |u.calls.Keys| == |s.calls.Keys|;
    EndedCallLeavesOthers(s, u, joined, t, token.callId);
  }

  lemma EndedCallLeavesOthers(s: Service, u: Service, joined: Service, t: Service, id: nat)
    requires SameCalls(s, u) && (forall k | k in s.calls && k != id :: u.calls[k] == s.calls[k])
    requires joined == u.(registry := u.registry.Without(id))
    requires t == joined.(calls := joined.calls - {id}, terminal := t.terminal, board := t.board)
    ensures Others(s, t, id)
  {
  }

  lemma PublishedLeavesOthers(s: Service, t: Service, id: nat, n: nat)
    requires Published(s, t, id, n)
    ensures Others(s, t, id) && |t.calls| == |s.calls| && |t.terminal| == |s.terminal|
  {
    assert |t.calls.Keys| == |s.calls.Keys|;
  }

  /** 1 for a call that this visit ends. */
  function Ends(s: Service, token: Token, visit: Visit): nat
    requires token.callId in s.calls
  {
    if visit.exit.Some? && s.calls[token.callId].nextSequence + |Actions(visit.batches)| <= U64_MAX then 1 else 0
  }

  lemma PumpCallKeepsSound(s: Service, token: Token, visit: Visit) returns (t: Service, error: Option<Error>)
    requires s.Sound({}) && token.callId in s.calls && s.calls[token.callId].token == token
    ensures s.PumpCall(token, visit) == (t, error) && t.Sound({}) && Others(s, t, token.callId)
    ensures error == if s.calls[token.callId].nextSequence + |Actions(visit.batches)| <= U64_MAX then None
                     else Some(NotificationSequenceExhausted)
    ensures |t.calls| + Ends(s, token, visit) == |s.calls| && |t.terminal| == |s.terminal| + Ends(s, token, visit)
  {
    hide Service.Sound;
    if Ends(s, token, visit) == 1 {
      error := None;
      t := PumpEnds(s, token, visit);
    } else {
      t, error := PumpPublishes(s, token, visit);
      PublishedLeavesOthers(s, t, token.callId, |Actions(visit.batches)|);
    }
  }

  /** The tokens a pump collected: active calls, each once. */
  predicate Scanned(s: Service, order: seq<Token>) {
    && (forall i | 0 <= i < |order| :: order[i].callId in s.calls && s.calls[order[i].callId].token == order[i])
    && (forall i, j | 0 <= i < j < |order| :: order[i].callId != order[j].callId)
  }

  lemma RestIsScanned(s: Service, t: Service, order: seq<Token>)
    requires order != [] && Scanned(s, order) && Others(s, t, order[0].callId)
    ensures Scanned(t, order[1..])
  {
    forall i | 0 <= i < |order[1..]|
      ensures order[1..][i].callId in t.calls && t.calls[order[1..][i].callId].token == order[1..][i]
    {
      assert order[1..][i] == order[i + 1] && order[i + 1].callId != order[0].callId;
    }
  }

  /** What is queued at this call would use up its sequence numbers. */
  predicate Overflows(s: Service, token: Token, visits: map<nat, Visit>)
    requires token.callId in s.calls
  {
    s.calls[token.callId].nextSequence + |Actions(VisitOf(visits, token).batches)| > U64_MAX
  }

  predicate SomeOverflows(s: Service, order: seq<Token>, visits: map<nat, Visit>)
    requires Scanned(s, order)
  {
    exists i | 0 <= i < |order| :: Overflows(s, order[i], visits)
  }

  /** How many calls end before the first one that overflows. */
  function Ended(s: Service, order: seq<Token>, visits: map<nat, Visit>): nat
    requires forall i | 0 <= i < |order| :: order[i].callId in s.calls
    decreases |order|
  {
    if order == [] || Overflows(s, order[0], visits) then 0
    else (if VisitOf(visits, order[0]).exit.Some? then 1 else 0) + Ended(s, order[1..], visits)
  }

  lemma FirstOrLaterOverflows(s: Service, t: Service, order: seq<Token>, visits: map<nat, Visit>)
    requires order != [] && Scanned(s, order) && Others(s, t, order[0].callId) && Scanned(t, order[1..])
    ensures SomeOverflows(s, order, visits) <==> Overflows(s, order[0], visits) || SomeOverflows(t, order[1..], visits)
  {
    forall i | 1 <= i < |order|
      ensures Overflows(s, order[i], visits) == Overflows(t, order[1..][i - 1], visits)
    {
      assert order[i].callId != order[0].callId;
    }
  }

  /** Calls that a visit does not touch end alike before and after it. */
  lemma {:induction false} EndedAlike(s: Service, t: Service, order: seq<Token>, visits: map<nat, Visit>)
    requires forall i | 0 <= i < |order| ::
               && order[i].callId in s.calls && order[i].callId in t.calls
               && s.calls[order[i].callId] == t.calls[order[i].callId]
    ensures Ended(s, order, visits) == Ended(t, order, visits)
    decreases |order|
  {
    if order != [] && !Overflows(s, order[0], visits) {
      EndedAlike(s, t, order[1..], visits);
    }
  }

  lemma EndedFirst(s: Service, t: Service, order: seq<Token>, visits: map<nat, Visit>)
    requires order != [] && Scanned(s, order) && Others(s, t, order[0].callId) && !Overflows(s, order[0], visits)
    ensures Scanned(t, order[1..])
    ensures Ended(s, order, visits) == Ends(s, order[0], VisitOf(visits, order[0])) + Ended(t, order[1..], visits)
  {
    RestIsScanned(s, t, order);
    forall i | 0 <= i < |order[1..]|
      ensures s.calls[order[1..][i].callId] == t.calls[order[1..][i].callId]
    {
      assert order[1..][i] == order[i + 1] && order[i + 1].callId != order[0].callId;
    }
    EndedAlike(s, t, order[1..], visits);
  }

  /** `t` is `s` after a pump that ended `n` calls. */
  predicate Pumped(s: Service, t: Service, n: nat) {
    && t.shutdown == s.shutdown && t.grace == s.grace && t.capacity == s.capacity
    && t.registry.accepting == s.registry.accepting && t.calls.Keys <= s.calls.Keys
    && |t.calls| + n == |s.calls| && |t.terminal| == |s.terminal| + n
  }

  lemma PumpedFirst(s: Service, t: Service, u: Service, id: nat, first: nat, later: nat)
    requires Others(s, t, id) && |t.calls| + first == |s.calls| && |t.terminal| == |s.terminal| + first
    requires Pumped(t, u, later)
    ensures Pumped(s, u, first + later)
  {
  }

  /**
   * A pump fails exactly when what waits at some call would use up its sequence
   * numbers. Failing or not, it moves to retained the calls that end before the
   * first such call, and keeps everything else in order.
   */
  lemma {:induction false} PumpKeepsSound(s: Service, order: seq<Token>, visits: map<nat, Visit>)
    returns (t: Service, error: Option<Error>)
    requires s.Sound({}) && Scanned(s, order)
    ensures s.Pump(order, visits) == (t, Ended(s, order, visits), error)
    ensures t.Sound({}) && Pumped(s, t, Ended(s, order, visits))
    ensures error == if SomeOverflows(s, order, visits) then Some(NotificationSequenceExhausted) else None
    decreases |order|
  {
    hide Service.Sound, Service.PumpCall, Others;
    if order == [] {
      t, error := s, None;
    } else {
      var visit := VisitOf(visits, order[0]);
      var u, problem := PumpCallKeepsSound(s, order[0], visit);
      RestIsScanned(s, u, order);
      FirstOrLaterOverflows(s, u, order, visits);
      if problem.Some? {
        t, error := u, problem;
        PumpedFirst(s, u, u, order[0].callId, 0, 0);
      } else {
        t, error := PumpKeepsSound(u, order[1..], visits);
        EndedFirst(s, u, order, visits);
        PumpedFirst(s, u, t, order[0].callId, Ends(s, order[0], visit), Ended(u, order[1..], visits));
      }
    }
  }

  // ---------------------------------------------------------------------------
  // Shutdown
  // ---------------------------------------------------------------------------

  function TokenSet(reports: seq<Report>): set<Token> { set r | r in reports :: r.token }

  predicate OnceEach(reports: seq<Report>) {
    forall i, j | 0 <= i < j < |reports| :: reports[i].token != reports[j].token
  }

  lemma TokenSetFirst(reports: seq<Report>)
    requires reports != [] && OnceEach(reports)
    ensures TokenSet(reports) - {reports[0].token} == TokenSet(reports[1..])
    ensures OnceEach(reports[1..]) && reports[0].token in TokenSet(reports)
  {
    assert reports == [reports[0]] + reports[1..];
    assert reports[0] in reports;
    forall r | r in reports[1..]
      ensures r.token != reports[0].token
    {
      var i :| 0 <= i < |reports[1..]| && reports[1..][i] == r;
      assert r == reports[i + 1];
    }
  }

  /** Finishing every joined call empties the pending set and retains one outcome each. */
  lemma {:induction false} FinishAllKeepsSound(s: Service, reports: seq<Report>) returns (t: Service)
    requires s.Sound(TokenSet(reports)) && OnceEach(reports)
    ensures t == s.FinishAll(reports).0 && s.FinishAll(reports).1 == None && t.Sound({})
    ensures |t.calls| + |reports| == |s.calls| && |t.terminal| == |s.terminal| + |reports|
    ensures t == s.(calls := t.calls, terminal := t.terminal, board := t.board)
    ensures t.calls.Keys <= s.calls.Keys
    decreases |reports|
  {
    hide Service.Sound;
    if reports == [] {
      t := s;
      assert TokenSet(reports) == {};
    } else {
      TokenSetFirst(reports);
      var u := FinishKeepsSound(s, reports[0], TokenSet(reports));
      t := FinishAllKeepsSound(u, reports[1..]);
    }
  }

  lemma JoinedAllMatch(calls: map<nat, Active>, live: map<nat, nat>, ids: set<nat>, pending: set<Token>)
    requires Matched(calls, live, {}) && ids <= live.Keys
    requires forall t :: t in pending <==> t.callId in ids && live[t.callId] == t.generation
    ensures Matched(calls, live - ids, pending)
  {
  }

  lemma ReportedTokens(joins: Joins, live: map<nat, nat>, ids: seq<nat>)
    requires Distinct(ids) && (forall id | id in ids :: id in live)
    ensures OnceEach(joins.Reports(TokensOf(live, ids)))
    ensures forall t :: t in TokenSet(joins.Reports(TokensOf(live, ids))) <==>
              t.callId in Elements(ids) && live[t.callId] == t.generation
  {
    var reports := joins.Reports(TokensOf(live, ids));
    forall t
      ensures t in TokenSet(reports) <==> t.callId in Elements(ids) && live[t.callId] == t.generation
    {
      if t.callId in ids && live[t.callId] == t.generation {
        var i :| 0 <= i < |ids| && ids[i] == t.callId;
        assert reports[i] in reports && reports[i].token == t;
      }
    }
  }

  lemma JoinedAllPending(s: Service, joins: Joins, ids: seq<nat>, c: Shutdown.Coordinator)
    requires s.Sound({}) && !s.registry.accepting && Distinct(ids) && (forall id | id in ids :: id in s.registry.calls)
    ensures var reports := joins.Reports(TokensOf(s.registry.calls, ids));
            && OnceEach(reports)
            && var r := s.registry.(calls := s.registry.calls - Elements(ids));
               s.(registry := r, shutdown := c).Sound(TokenSet(reports))
  {
    var pending := TokenSet(joins.Reports(TokensOf(s.registry.calls, ids)));
    ReportedTokens(joins, s.registry.calls, ids);
    JoinedAllMatch(s.calls, s.registry.calls, Elements(ids), pending);
    WithinKeepsSound(s.registry.(calls := s.registry.calls - Elements(ids)), s.registry);
  }

  lemma SameSize(s: Service)
    requires s.Sound({})
    ensures s.calls.Keys == s.registry.calls.Keys && |s.calls| == |s.registry.calls|
  {
    assert s.calls.Keys == s.registry.calls.Keys;
  }

  lemma CountWithout(live: map<nat, nat>, ids: seq<nat>)
    requires Distinct(ids) && Elements(ids) <= live.Keys
    ensures |live - Elements(ids)| == |live| - |ids|
  {
    ElementsCount(ids);
    assert (live - Elements(ids)).Keys == live.Keys - Elements(ids);
  }

  lemma DistinctTogether(a: seq<nat>, b: seq<nat>)
    requires Distinct(a) && Distinct(b) && (forall id | id in b :: id !in a)
    ensures Distinct(a + b)
  {
    forall i, j | 0 <= i < j < |a + b|
      ensures (a + b)[i] != (a + b)[j]
    {
      assert i < |a| ==> (a + b)[i] in a;
      assert j >= |a| ==> (a + b)[j] in b;
    }
  }

  lemma ElementsTogether(a: seq<nat>, b: seq<nat>)
    ensures Elements(a + b) == Elements(a) + Elements(b)
  {
  }

  lemma RestCounts(live: map<nat, nat>, joins: Joins)
    requires joins.Iterate(live)
    ensures |live - Elements(joins.finished)| == |joins.rest|
    ensures |live| == |joins.finished| + |joins.rest|
  {
    CountWithout(live, joins.finished);
    ElementsCount(joins.rest);
    assert Elements(joins.rest) == live.Keys - Elements(joins.finished);
    assert (live - Elements(joins.finished)).Keys == live.Keys - Elements(joins.finished);
  }

  lemma AllIds(live: map<nat, nat>, joins: Joins)
    requires joins.Iterate(live)
    ensures Distinct(joins.finished + joins.rest)
    ensures Elements(joins.finished + joins.rest) == live.Keys
    ensures live - Elements(joins.finished + joins.rest) == map[]
  {
    DistinctTogether(joins.finished, joins.rest);
    ElementsTogether(joins.finished, joins.rest);
    assert Elements(joins.rest) == live.Keys - Elements(joins.finished);
    assert live - live.Keys == map[];
  }

  lemma {:induction false} ReportsOfBoth(joins: Joins, a: seq<Token>, b: seq<Token>)
    ensures joins.Reports(a) + joins.Reports(b) == joins.Reports(a + b)
  {
    var left, right, whole := joins.Reports(a), joins.Reports(b), joins.Reports(a + b);
    assert |left + right| == |whole|;
    forall i | 0 <= i < |whole|
      ensures (left + right)[i] == whole[i]
    {
      assert (a + b)[i] == if i < |a| then a[i] else b[i - |a|];
    }
  }

  lemma {:induction false} TokensOfBoth(live: map<nat, nat>, a: seq<nat>, b: seq<nat>)
    requires forall id | id in a || id in b :: id in live
    ensures TokensOf(live, a) + TokensOf(live, b) == TokensOf(live, a + b)
  {
  }

  lemma ReportsTogether(joins: Joins, live: map<nat, nat>)
    requires joins.Iterate(live)
    ensures joins.Reports(TokensOf(live, joins.finished))
            + joins.Reports(TokensOf(live - Elements(joins.finished), joins.rest))
            == joins.Reports(TokensOf(live, joins.finished + joins.rest))
  {
    var rest := live - Elements(joins.finished);
    SameTokensOf(rest, live, joins.rest);
    ReportsOfBoth(joins, TokensOf(live, joins.finished), TokensOf(live, joins.rest));
    TokensOfBoth(live, joins.finished, joins.rest);
  }

  predicate Forces(c: Shutdown.Coordinator, now: nat, active: nat) {
    c.Poll(now, active).1.Ok? && c.Poll(now, active).1.value.ForceTerminate?
  }

  /** The calls that a poll joins, in the order in which it finishes them. */
  function JoinedIds(c: Shutdown.Coordinator, now: nat, joins: Joins): seq<nat> {
    if Forces(c, now, |joins.rest|) then joins.finished + joins.rest else joins.finished
  }

  lemma ReapStage(r: Registry, joins: Joins)
    requires joins.Iterate(r.calls)
    ensures r.Reap([], joins.finished, Elements(joins.finished)) ==
            (r.(calls := r.calls - Elements(joins.finished)), Ok(TokensOf(r.calls, joins.finished)))
  {
    ReapConserves(r, [], joins.finished, Elements(joins.finished));
    assert [] + TokensOf(r.calls, joins.finished) == TokensOf(r.calls, joins.finished);
  }

  lemma ForceStage(r: Registry, joins: Joins)
    requires joins.Iterate(r.calls) && !r.accepting
    ensures forall id | id in joins.rest :: id in r.calls - Elements(joins.finished)
    ensures r.(calls := r.calls - Elements(joins.finished)).ShutdownAll(joins.rest, Elements(joins.rest)) ==
            (r.(calls := map[]), Ok(TokensOf(r.calls - Elements(joins.finished), joins.rest)))
  {
  }

  /** What a poll leaves in the registry. */
  function After(r: Registry, ids: seq<nat>): Registry { r.(calls := r.calls - Elements(ids)) }

  lemma EnginePollIs(r: Registry, shutdown: Shutdown.Coordinator, now: nat, joins: Joins)
    requires joins.Iterate(r.calls) && !r.accepting && shutdown.Poll(now, |joins.rest|).1.Ok?
    ensures var (c, action) := shutdown.Poll(now, |joins.rest|);
            EnginePoll(r, shutdown, now, joins) ==
            if Forces(shutdown, now, |joins.rest|) then
              (r.(calls := map[]), c, Ok(Joined(action.value, TokensOf(r.calls, joins.finished),
                                                TokensOf(r.calls - Elements(joins.finished), joins.rest))))
            else (After(r, joins.finished), c, Ok(Joined(action.value, TokensOf(r.calls, joins.finished), [])))
  {
    RestCounts(r.calls, joins);
    ReapStage(r, joins);
    ForceStage(r, joins);
  }

  lemma PlainPollSettles(s: Service, now: nat, joins: Joins)
    requires joins.Iterate(s.registry.calls) && !s.registry.accepting && s.shutdown.Poll(now, |joins.rest|).1.Ok?
    requires !Forces(s.shutdown, now, |joins.rest|)
    ensures var (c, action) := s.shutdown.Poll(now, |joins.rest|);
            s.PollShutdown(now, joins) ==
            s.Settle(After(s.registry, joins.finished), c, joins.Reports(TokensOf(s.registry.calls, joins.finished)),
                     Progress(action.value, |joins.finished|, 0))
  {
    var reports := joins.Reports(TokensOf(s.registry.calls, joins.finished));
    EnginePollIs(s.registry, s.shutdown, now, joins);
    assert reports + joins.Reports([]) == reports;
  }

  lemma ForcedPollSettles(s: Service, now: nat, joins: Joins)
    requires joins.Iterate(s.registry.calls) && !s.registry.accepting && Forces(s.shutdown, now, |joins.rest|)
    requires forall id | id in joins.finished + joins.rest :: id in s.registry.calls
    ensures var (c, action) := s.shutdown.Poll(now, |joins.rest|);
            var ids := joins.finished + joins.rest;
            s.PollShutdown(now, joins) ==
            s.Settle(After(s.registry, ids), c, joins.Reports(TokensOf(s.registry.calls, ids)),
                     Progress(action.value, |joins.finished|, |joins.rest|))
  {
    EnginePollIs(s.registry, s.shutdown, now, joins);
    AllIds(s.registry.calls, joins);
    ReportsTogether(joins, s.registry.calls);
  }

  lemma SettleKeepsSound(s: Service, joins: Joins, ids: seq<nat>, c: Shutdown.Coordinator, p: Progress)
    returns (t: Service)
    requires s.Sound({}) && !s.registry.accepting && Distinct(ids) && (forall id | id in ids :: id in s.registry.calls)
    ensures s.Settle(After(s.registry, ids), c, joins.Reports(TokensOf(s.registry.calls, ids)), p) == (t, Ok(p))
    ensures t.Sound({}) && t.shutdown == c && !t.registry.accepting && t.grace == s.grace && t.capacity == s.capacity
    ensures |t.calls| + |ids| == |s.calls| && |t.terminal| == |s.terminal| + |ids|
  {
    JoinedAllPending(s, joins, ids, c);
    t := FinishAllKeepsSound(s.(registry := After(s.registry, ids), shutdown := c),
                             joins.Reports(TokensOf(s.registry.calls, ids)));
  }

  /** The outcome of a poll that joins the calls `ids`. */
  predicate Settled(s: Service, t: Service, now: nat, joins: Joins, ids: seq<nat>, p: Progress) {
    && t.Sound({}) && !t.registry.accepting && t.grace == s.grace && t.capacity == s.capacity
    && p.completed == |joins.finished| && p.completed + p.forced == |ids|
    && |t.calls| + |ids| == |s.calls| && |t.terminal| == |s.terminal| + |ids|
    && s.shutdown.Poll(now, |joins.rest|) == (t.shutdown, Ok(p.action))
  }

  lemma PlainPollKeepsSound(s: Service, now: nat, joins: Joins) returns (t: Service, p: Progress)
    requires s.Sound({}) && joins.Iterate(s.registry.calls) && !s.registry.accepting
    requires s.shutdown.Poll(now, |joins.rest|).1.Ok? && !Forces(s.shutdown, now, |joins.rest|)
    ensures s.PollShutdown(now, joins) == (t, Ok(p)) && Settled(s, t, now, joins, joins.finished, p)
  {
    PlainPollSettles(s, now, joins);
    p := Progress(s.shutdown.Poll(now, |joins.rest|).1.value, |joins.finished|, 0);
    t := SettleKeepsSound(s, joins, joins.finished, s.shutdown.Poll(now, |joins.rest|).0, p);
  }

  lemma ForcedPollKeepsSound(s: Service, now: nat, joins: Joins) returns (t: Service, p: Progress)
    requires s.Sound({}) && joins.Iterate(s.registry.calls) && !s.registry.accepting
    requires Forces(s.shutdown, now, |joins.rest|)
    ensures s.PollShutdown(now, joins) == (t, Ok(p)) && Settled(s, t, now, joins, joins.finished + joins.rest, p)
  {
    AllIds(s.registry.calls, joins);
    ElementsAreMembers(joins.finished + joins.rest, s.registry.calls);
    ForcedPollSettles(s, now, joins);
    p := Progress(s.shutdown.Poll(now, |joins.rest|).1.value, |joins.finished|, |joins.rest|);
    t := SettleKeepsSound(s, joins, joins.finished + joins.rest, s.shutdown.Poll(now, |joins.rest|).0, p);
  }

  lemma ElementsAreMembers(s: seq<nat>, m: map<nat, nat>)
    requires Elements(s) <= m.Keys
    ensures forall id | id in s :: id in m
  {
    assert forall id | id in s :: id in Elements(s);
  }

  /**
   * A poll of a shutdown that has begun, at a time not before the last one,
   * never fails: every joined call is finished and its outcome retained.
   */
  lemma PollShutdownKeepsSound(s: Service, now: nat, joins: Joins) returns (t: Service, p: Progress)
    requires s.Sound({}) && s.shutdown.Valid() && joins.Iterate(s.registry.calls) && !s.registry.accepting
    requires s.shutdown.phase != Shutdown.Running && now >= s.shutdown.lastPoll.value
    ensures s.PollShutdown(now, joins) == (t, Ok(p))
    ensures Settled(s, t, now, joins, JoinedIds(s.shutdown, now, joins), p)
    ensures |s.calls| == |joins.finished| + |joins.rest|
  {
    Shutdown.PollOutcome(s.shutdown, now, |joins.rest|);
    RestCounts(s.registry.calls, joins);
    SameSize(s);
    if Forces(s.shutdown, now, |joins.rest|) {
      t, p := ForcedPollKeepsSound(s, now, joins);
    } else {
      t, p := PlainPollKeepsSound(s, now, joins);
    }
  }

  /**
   * A poll fails exactly before the shutdown begins or when time has moved
   * back. The engine has by then joined the finished calls, so the registry
   * has forgotten them while the service still holds them as active.
   */
  lemma FailedPollForgets(s: Service, now: nat, joins: Joins)
    requires s.Sound({}) && s.shutdown.Valid() && joins.Iterate(s.registry.calls)
    requires s.registry.accepting <==> s.shutdown.phase == Shutdown.Running
    ensures s.PollShutdown(now, joins).1.Err? <==>
              s.shutdown.phase == Shutdown.Running || now < s.shutdown.lastPoll.value
    ensures s.PollShutdown(now, joins).1.Err? ==>
              s.PollShutdown(now, joins) ==
              (s.(registry := After(s.registry, joins.finished)),
               Err(ShutdownFailed(if s.shutdown.phase == Shutdown.Running then Shutdown.NotStarted
                                  else Shutdown.ClockMovedBackward)))
  {
    hide Service.Sound, Registry.Sound;
    if s.shutdown.phase == Shutdown.Running || now < s.shutdown.lastPoll.value {
      ReapStage(s.registry, joins);
    } else {
      var t, p := PollShutdownKeepsSound(s, now, joins);
    }
  }

  /** So service and registry still agree exactly when nothing had finished, and a later pump does not know the rest. */
  lemma ForgottenCallsAreStuck(s: Service, finished: seq<nat>)
    requires s.Sound({}) && forall id | id in finished :: id in s.registry.calls
    ensures s.(registry := After(s.registry, finished)).Sound({}) <==> finished == []
    ensures forall id, visit | id in finished ::
              id in s.calls && s.(registry := After(s.registry, finished)).PumpCall(s.calls[id].token, visit).1
                               == Some(Calls(CallRegistry.Error.UnknownCall))
  {
    hide Registry.Sound, Fits, Delivers, Known, Ahead;
    var t := s.(registry := After(s.registry, finished));
    SameCallsRegistered(s);
    if finished == [] {
      assert s.registry.calls - Elements([]) == s.registry.calls;
    } else {
      assert finished[0] in Elements(finished) && finished[0] !in t.registry.calls;
      assert finished[0] in t.calls;
    }
    forall id | id in finished ensures id in s.calls && s.calls[id].token.callId == id && id !in t.registry.calls {}
  }

  lemma ClosedGateKeepsSound(s: Service, c: Shutdown.Coordinator)
    requires s.Sound({})
    ensures s.(shutdown := c, registry := s.registry.BeginShutdown()).Sound({})
  {
    WithinKeepsSound(s.registry.BeginShutdown(), s.registry);
  }

  lemma TakeKeepsSound(s: Service, callId: nat)
    requires s.Sound({})
    ensures s.Take(callId).Sound({}) && callId !in s.Take(callId).terminal
    ensures forall id | id in s.terminal && id != callId ::
              id in s.Take(callId).terminal && s.Take(callId).terminal[id] == s.terminal[id]
    ensures s.Take(callId) == s.(terminal := s.Take(callId).terminal)
    ensures callId in s.terminal ==> |s.Take(callId).terminal| == |s.terminal| - 1
  {
    if callId in s.terminal {
      OneFewer(s.terminal, callId);
    }
    CardinalityOfSubset((s.terminal - {callId}).Keys, s.terminal.Keys);
  }

  lemma NextNotificationKeepsSound(s: Service)
    requires s.Sound({})
    ensures s.NextNotification().Sound({}) && s.NextNotification() == s.(board := s.NextNotification().board)
    ensures s.board.queue.items != [] ==>
              && s.NextNotification().board.popped == s.board.popped + [s.board.queue.items[0]]
              && s.NextNotification().board.queue.items == s.board.queue.items[1..]
    ensures s.board.queue.items == [] ==> s.NextNotification() == s
  {
    PopKeepsSound(s.board);
  }

  /** Per call, what the observer has popped and will pop carries strictly increasing sequence numbers. */
  lemma DeliveryIsOrdered(s: Service)
    requires s.Sound({})
    ensures Ordered(s.board.popped + s.board.queue.items)
    ensures s.board.queue.dropped < U64_MAX ==>
              |s.board.attempted| == |s.board.popped| + |s.board.queue.items| + s.board.queue.dropped
  {
    SubsequenceOrdered(s.board.Kept(), s.board.attempted);
  }

  // ---------------------------------------------------------------------------
  // Outcomes are retained
  // ---------------------------------------------------------------------------

  predicate Retains(s: Service, report: Report) {
    && report.token.callId in s.terminal
    && s.terminal[report.token.callId].token == report.token && s.terminal[report.token.callId].exit == report.exit
  }

  /** No outcome that was retained is lost or overwritten. */
  predicate KeepsOutcomes(s: Service, t: Service) {
    forall id | id in s.terminal :: id in t.terminal && t.terminal[id] == s.terminal[id]
  }

  /** A finished call's outcome carries its exit, and its last sequence number is that of its last notification. */
  /** How finishing a call could fail if service and registry disagreed: the call is gone either way. */
  lemma FinishFailsExactly(s: Service, report: Report)
    ensures var id, r := report.token.callId, s.Finish(report);
            && (r.1 == Some(Error.UnknownCall) <==> id !in s.calls)
            && (r.1 == Some(StaleCallGeneration) <==> id in s.calls && s.calls[id].token != report.token)
            && (r.1 == Some(Error.DuplicateCall) <==>
                  id in s.calls && s.calls[id].token == report.token && id in s.terminal)
            && r.0.calls == s.calls - {id}
            && (r.1 in {Some(Error.UnknownCall), Some(StaleCallGeneration)} ==> r.0 == s.(calls := s.calls - {id}))
  {
    if report.token.callId !in s.calls {
      assert s.calls - {report.token.callId} == s.calls;
    }
  }

  lemma FinishRetains(s: Service, report: Report)
    requires s.Finish(report).1 == None
    ensures Retains(s.Finish(report).0, report) && KeepsOutcomes(s, s.Finish(report).0)
    ensures s.Finish(report).0.board.attempted ==
            var sequence := s.Finish(report).0.terminal[report.token.callId].finalSequence;
            s.board.attempted + [Notification(report.token, sequence, CallExited(report.exit))]
  {
  }

  lemma {:induction false} FinishAllRetains(s: Service, reports: seq<Report>)
    requires s.FinishAll(reports).1 == None
    ensures KeepsOutcomes(s, s.FinishAll(reports).0)
    ensures forall r | r in reports :: Retains(s.FinishAll(reports).0, r)
    decreases |reports|
  {
    if reports != [] {
      FinishRetains(s, reports[0]);
      FinishAllRetains(s.Finish(reports[0]).0, reports[1..]);
      assert reports == [reports[0]] + reports[1..];
    }
  }

  lemma {:induction false} PublishAllKeepsOutcomes(s: Service, callId: nat, actions: seq<nat>)
    ensures s.PublishAll(callId, actions).0.terminal == s.terminal
    decreases |actions|
  {
    if actions != [] && s.Publish(callId, actions[0]).1.None? {
      PublishAllKeepsOutcomes(s.Publish(callId, actions[0]).0, callId, actions[1..]);
    }
  }

  lemma PumpCallRetains(s: Service, token: Token, visit: Visit)
    requires s.Sound({}) && token.callId in s.calls && s.calls[token.callId].token == token
    ensures KeepsOutcomes(s, s.PumpCall(token, visit).0)
    ensures Ends(s, token, visit) == 1 ==> Retains(s.PumpCall(token, visit).0, Report(token, visit.exit.value))
  {
    hide Service.Sound;
    ActiveIsKnown(s, token);
    PublishAllKeepsOutcomes(s, token.callId, Actions(visit.batches));
    var t, error := PublishAllKeepsSound(s, token.callId, Actions(visit.batches));
    if Ends(s, token, visit) == 1 {
      var u := PumpEnds(s, token, visit);
      FinishRetains(t.(registry := t.registry.Without(token.callId)), Report(token, visit.exit.value));
    }
  }

  /** This token's call ends in the pump: it has an exit and no call before it, nor it, overflows. */
  predicate EndsAt(s: Service, order: seq<Token>, visits: map<nat, Visit>, i: nat)
    requires Scanned(s, order) && i < |order|
  {
    VisitOf(visits, order[i]).exit.Some? && forall j | 0 <= j <= i :: !Overflows(s, order[j], visits)
  }

  /** Every call that a pump ends leaves its report behind, and none that was retained is touched. */
  lemma {:induction false} PumpRetains(s: Service, order: seq<Token>, visits: map<nat, Visit>)
    requires s.Sound({}) && Scanned(s, order)
    ensures KeepsOutcomes(s, s.Pump(order, visits).0)
    ensures forall i | 0 <= i < |order| && EndsAt(s, order, visits, i) ::
              Retains(s.Pump(order, visits).0, Report(order[i], VisitOf(visits, order[i]).exit.value))
    decreases |order|
  {
    hide Service.Sound;
    if order != [] {
      var visit := VisitOf(visits, order[0]);
      var t, error := PumpCallKeepsSound(s, order[0], visit);
      PumpCallRetains(s, order[0], visit);
      if error.None? {
        RestIsScanned(s, t, order);
        PumpRetains(t, order[1..], visits);
        forall i | 1 <= i < |order| && EndsAt(s, order, visits, i)
          ensures EndsAt(t, order[1..], visits, i - 1)
        {
          LaterEnds(s, t, order, visits, i);
        }
      }
    }
  }

  lemma LaterEnds(s: Service, t: Service, order: seq<Token>, visits: map<nat, Visit>, i: nat)
    requires 1 <= i < |order| && Scanned(s, order) && Others(s, t, order[0].callId) && Scanned(t, order[1..])
    requires EndsAt(s, order, visits, i)
    ensures EndsAt(t, order[1..], visits, i - 1)
  {
    forall j | 0 <= j <= i - 1
      ensures !Overflows(t, order[1..][j], visits)
    {
      assert order[1..][j] == order[j + 1] && order[j + 1].callId != order[0].callId;
      assert !Overflows(s, order[j + 1], visits);
    }
  }

  /** So does every call that a shutdown poll joins, forced or not. */
  lemma PollShutdownRetains(s: Service, now: nat, joins: Joins)
    requires joins.Iterate(s.registry.calls) && s.PollShutdown(now, joins).1.Ok?
    ensures KeepsOutcomes(s, s.PollShutdown(now, joins).0)
    ensures var (_, _, joined) := EnginePoll(s.registry, s.shutdown, now, joins);
            && joined.Ok?
            && forall r | r in joins.Reports(joined.value.completed) + joins.Reports(joined.value.forced) ::
                 Retains(s.PollShutdown(now, joins).0, r)
  {
    var (r, c, joined) := EnginePoll(s.registry, s.shutdown, now, joins);
    var reports := joins.Reports(joined.value.completed) + joins.Reports(joined.value.forced);
    FinishAllRetains(s.(registry := r, shutdown := c), reports);
  }
}
