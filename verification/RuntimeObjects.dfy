/**
 * The runtime service and worker as objects updated in place
 * (src/runtime/service.rs, src/runtime/engine.rs, src/runtime/worker.rs), each
 * method proved to compute the operation on values that specifies it.
 */
module RuntimeObjects {
  import opened Wrappers
  import OpaqueIds
  import opened CallRegistry
  import opened Notifications
  import opened RuntimeService
  import opened RuntimeWorker
  import Shutdown

  lemma {:induction false} PublishAllAppend(s: Service, callId: nat, a: seq<nat>, b: seq<nat>)
    ensures s.PublishAll(callId, a + b) ==
            var (t, error) := s.PublishAll(callId, a);
            if error.Some? then (t, error) else t.PublishAll(callId, b)
    decreases |a|
  {
    if a == [] {
      assert a + b == b;
    } else {
      assert (a + b)[1..] == a[1..] + b;
      if s.Publish(callId, a[0]).1.None? {
        PublishAllAppend(s.Publish(callId, a[0]).0, callId, a[1..], b);
      }
    }
  }

  class ProcessService {
    const manager: CallManager
    const shutdown: Shutdown.ShutdownCoordinator
    const queue: NotificationQueue
    const grace: nat
    const capacity: nat
    var calls: map<nat, Active>
    var terminal: map<nat, Outcome>

    ghost function AsService(): Service
      reads this, manager, manager.generations, shutdown, queue
    {
      Service(manager.AsRegistry(), shutdown.AsCoordinator(), grace, calls, terminal, queue.AsBoard(), capacity)
    }

    constructor (capacity: nat, notificationCapacity: nat, grace: nat, first: nat, second: nat)
      requires first < OpaqueIds.WORD && second < OpaqueIds.WORD
      ensures AsService().Sound({}) && calls == map[] && terminal == map[]
      ensures shutdown.AsCoordinator() == Shutdown.RUNNING && manager.accepting
      ensures fresh(manager) && fresh(manager.generations) && fresh(shutdown) && fresh(queue)
    {
      manager := new CallManager(capacity, first, second);
      shutdown := new Shutdown.ShutdownCoordinator();
      queue := new NotificationQueue(notificationCapacity);
      this.grace, this.capacity, calls, terminal := grace, capacity, map[], map[];
    }

    /** The service's `dial` around the engine's: admission, preparation, spawn, first command. */
    method Dial(callId: nat, fate: DialFate, spurious: nat) returns (r: Result<Token, RuntimeService.Error>)
      requires manager.AsRegistry().Sound()
      modifies this, manager, manager.generations, queue
      ensures (AsService(), r) == old(AsService()).Dial(callId, fate)
    {
      if callId in calls || callId in terminal {
        return Err(RuntimeService.Error.DuplicateCall);
      }
      if |calls| + |terminal| >= capacity {
        return Err(OutcomeCapacity);
      }
      if fate.NotAdmitted? {
        return Err(Overloaded);
      }
      if fate.NotPrepared? {
        return Err(DialFailed);
      }
      var spawned := manager.Spawn(callId, spurious, fate.threadOk);
      if spawned.Err? {
        return Err(Calls(spawned.error));
      }
      if !fate.startOk {
        var cleanup := manager.Remove(spawned.value, true);
        return Err(StartFailed);
      }
      calls := calls[callId := Active(spawned.value, 2)];
      queue.Enqueue(Notification(spawned.value, 1, DialStarted));
      return Ok(spawned.value);
    }

    method PublishAction(callId: nat, action: nat) returns (error: Option<RuntimeService.Error>)
      modifies this, queue
      ensures (AsService(), error) == old(AsService()).Publish(callId, action)
    {
      if callId !in calls {
        return Some(RuntimeService.Error.UnknownCall);
      }
      var Active(token, sequence) := calls[callId];
      if sequence >= U64_MAX {
        return Some(NotificationSequenceExhausted);
      }
      calls := calls[callId := Active(token, sequence + 1)];
      queue.Enqueue(Notification(token, sequence, Action(action)));
      return None;
    }

    method FinishCall(report: Report) returns (error: Option<RuntimeService.Error>)
      modifies this, queue
      ensures (AsService(), error) == old(AsService()).Finish(report)
    {
      var id := report.token.callId;
      if id !in calls {
        return Some(RuntimeService.Error.UnknownCall);
      }
      var active := calls[id];
      calls := calls - {id};
      if active.token != report.token {
        return Some(StaleCallGeneration);
      }
      var occupied := id in terminal;
      terminal := terminal[id := Outcome(report.token, report.exit, active.nextSequence)];
      if occupied {
        return Some(RuntimeService.Error.DuplicateCall);
      }
      queue.Enqueue(Notification(report.token, active.nextSequence, CallExited(report.exit)));
      return None;
    }

    method PublishBatch(callId: nat, actions: seq<nat>) returns (error: Option<RuntimeService.Error>)
      modifies this, queue
      ensures (AsService(), error) == old(AsService()).PublishAll(callId, actions)
    {
      for i := 0 to |actions|
        invariant AsService().PublishAll(callId, actions[i..]) == old(AsService()).PublishAll(callId, actions)
      {
        assert actions[i..][1..] == actions[i + 1..];
        error := PublishAction(callId, actions[i]);
        if error.Some? {
          return;
        }
      }
      return None;
    }

    /** At most 64 batches, until the call's queue is empty or closed. */
    method PublishBatches(callId: nat, batches: seq<seq<nat>>) returns (error: Option<RuntimeService.Error>)
      modifies this, queue
      ensures (AsService(), error) == old(AsService()).PublishAll(callId, Actions(batches))
    {
      hide Service.Publish;
      ghost var drained := if |batches| <= MAX_ACTION_BATCHES then batches else batches[..MAX_ACTION_BATCHES];
      var round := 0;
      while round < MAX_ACTION_BATCHES && round < |batches|
        invariant round <= |drained|
        invariant (AsService(), None) == old(AsService()).PublishAll(callId, Flatten(drained[..round]))
      {
        assert drained[..round + 1][..round] == drained[..round];
        FlattenGrows(old(AsService()), callId, drained, round);
        error := PublishBatch(callId, batches[round]);
        round := round + 1;
        if error.Some? {
          PublishStops(old(AsService()), callId, drained, round);
          return;
        }
      }
      assert drained[..round] == drained;
      return None;
    }

    method PumpOne(token: Token, visit: Visit) returns (error: Option<RuntimeService.Error>)
      requires manager.AsRegistry().Sound()
      modifies this, manager, queue
      ensures (AsService(), error) == old(AsService()).PumpCall(token, visit)
      ensures manager.AsRegistry().Sound()
    {
      var verified := manager.VerifyToken(token);
      if verified.Err? {
        return Some(Calls(verified.error));
      }
      error := PublishBatches(token.callId, visit.batches);
      if error.Some? || visit.exit.None? {
        return;
      }
      var joined := manager.Remove(token, true);
      error := FinishCall(Report(token, visit.exit.value));
    }

    /** `order` holds the tokens of the active calls in hash order. */
    method Pump(order: seq<Token>, visits: map<nat, Visit>)
      returns (completed: nat, error: Option<RuntimeService.Error>)
      requires manager.AsRegistry().Sound()
      modifies this, manager, queue
      ensures (AsService(), completed, error) == old(AsService()).Pump(order, visits)
      ensures manager.AsRegistry().Sound()
    {
      PumpFromZero(AsService(), order, visits);
      completed := 0;
      for i := 0 to |order|
        invariant manager.AsRegistry().Sound()
        invariant PumpFrom(AsService(), completed, order[i..], visits) == PumpFrom(old(AsService()), 0, order, visits)
      {
        assert order[i..][1..] == order[i + 1..];
        var visit := VisitOf(visits, order[i]);
        error := PumpOne(order[i], visit);
        if error.Some? {
          return;
        }
        completed := completed + if visit.exit.Some? then 1 else 0;
      }
      return completed, None;
    }

    method TakeTerminalOutcome(callId: nat) returns (r: Option<Outcome>)
      modifies this
      ensures AsService() == old(AsService()).Take(callId)
      ensures r == if callId in old(terminal) then Some(old(terminal)[callId]) else None
    {
      r := if callId in terminal then Some(terminal[callId]) else None;
      terminal := terminal - {callId};
    }

    method NextNotification() returns (r: Option<Notification>)
      modifies queue
      ensures AsService() == old(AsService()).NextNotification()
      ensures r == if old(queue.items) == [] then None else Some(old(queue.items)[0])
    {
      r := queue.Next();
    }

    method BeginShutdown(now: nat) returns (error: Option<RuntimeService.Error>)
      requires manager.AsRegistry().Sound()
      modifies manager, shutdown
      ensures (AsService(), error) == old(AsService()).BeginShutdown(now)
    {
      var begun := shutdown.Begin(now, grace);
      if begun.Err? {
        return Some(ShutdownFailed(begun.error));
      }
      manager.BeginShutdown();
      return None;
    }

    method FinishReports(reports: seq<Report>) returns (error: Option<RuntimeService.Error>)
      modifies this, queue
      ensures (AsService(), error) == old(AsService()).FinishAll(reports)
    {
      for i := 0 to |reports|
        invariant AsService().FinishAll(reports[i..]) == old(AsService()).FinishAll(reports)
      {
        assert reports[i..][1..] == reports[i + 1..];
        error := FinishCall(reports[i]);
        if error.Some? {
          return;
        }
      }
      return None;
    }

    /** The engine's `poll_shutdown`. */
    method JoinCalls(now: nat, joins: Joins) returns (r: Result<Joined, Shutdown.Error>)
      requires manager.AsRegistry().Sound() && joins.Iterate(manager.calls)
      modifies manager, shutdown
      ensures (manager.AsRegistry(), shutdown.AsCoordinator(), r) ==
              EnginePoll(old(manager.AsRegistry()), old(shutdown.AsCoordinator()), now, joins)
    {
      ReapConserves(manager.AsRegistry(), [], joins.finished, Elements(joins.finished));
      var completed := manager.ReapFinishedReports(joins.finished, Elements(joins.finished));
      var action := shutdown.Poll(now, |manager.calls|);
      if action.Err? {
        return Err(action.error);
      }
      if !action.value.ForceTerminate? {
        return Ok(Joined(action.value, completed.value, []));
      }
      var forced := manager.ShutdownEverything(joins.rest, Elements(joins.rest));
      return Ok(Joined(action.value, completed.value, forced.value));
    }

    method PollShutdown(now: nat, joins: Joins) returns (r: Result<Progress, RuntimeService.Error>)
      requires manager.AsRegistry().Sound() && joins.Iterate(manager.calls)
      modifies this, manager, shutdown, queue
      ensures (AsService(), r) == old(AsService()).PollShutdown(now, joins)
    {
      var joined := JoinCalls(now, joins);
      if joined.Err? {
        return Err(ShutdownFailed(joined.error));
      }
      var Joined(action, completed, forced) := joined.value;
      var error := FinishReports(joins.Reports(completed) + joins.Reports(forced));
      return if error.Some? then Err(error.value) else Ok(Progress(action, |completed|, |forced|));
    }
  }

  class ProcessWorker {
    const service: ProcessService
    var phase: RuntimeWorker.Phase
    var lastPoll: nat
    var polls: nat
    var started: nat
    var completed: nat
    var forced: nat

    ghost function AsWorker(): Worker
      reads this, service, service.manager, service.manager.generations, service.shutdown, service.queue
    {
      Worker(service.AsService(), phase, lastPoll, polls, started, completed, forced)
    }

    constructor (capacity: nat, notificationCapacity: nat, grace: nat, first: nat, second: nat)
      requires first < OpaqueIds.WORD && second < OpaqueIds.WORD
      ensures AsWorker().Sound(0) && phase == Ready && started == 0
    {
      service := new ProcessService(capacity, notificationCapacity, grace, first, second);
      phase, lastPoll, polls, started, completed, forced := Ready, 0, 0, 0, 0, 0;
    }

    method Dial(callId: nat, fate: DialFate, spurious: nat) returns (r: Result<Token, WorkerError>)
      requires service.manager.AsRegistry().Sound()
      modifies this, service, service.manager, service.manager.generations, service.queue
      ensures (AsWorker(), r) == old(AsWorker()).Dial(callId, fate)
    {
      if phase != Ready {
        return Err(NotAccepting);
      }
      if started >= U64_MAX {
        return Err(CounterExhausted);
      }
      var dialed := service.Dial(callId, fate, spurious);
      if dialed.Err? {
        return Err(ServiceFailed(dialed.error));
      }
      started := started + 1;
      return Ok(dialed.value);
    }

    method BeginShutdownAt(now: nat) returns (error: Option<WorkerError>)
      requires service.manager.AsRegistry().Sound()
      modifies this, service.manager, service.shutdown
      ensures (AsWorker(), error) == old(AsWorker()).BeginShutdownAt(now)
    {
      if now < lastPoll {
        return Some(ClockMovedBackward);
      }
      if phase == Draining {
        return Some(AlreadyDraining);
      }
      if phase == Stopped {
        return Some(AlreadyStopped);
      }
      var begun := service.BeginShutdown(now);
      if begun.Some? {
        return Some(ServiceFailed(begun.value));
      }
      lastPoll, phase := now, Draining;
      return None;
    }

    method PumpService(scene: Scene) returns (error: Option<RuntimeService.Error>)
      requires service.manager.AsRegistry().Sound()
      modifies this`completed, service, service.manager, service.queue
      ensures (AsWorker(), error) == old(AsWorker()).Pumped(scene)
      ensures service.manager.AsRegistry().Sound()
    {
      var count;
      count, error := service.Pump(scene.order, scene.visits);
      if error.None? {
        completed := SaturatingAdd(completed, count);
      }
    }

    method DrainService(now: nat, joins: Joins) returns (error: Option<RuntimeService.Error>)
      requires service.manager.AsRegistry().Sound() && joins.Iterate(service.manager.calls)
      modifies this, service, service.manager, service.shutdown, service.queue
      ensures (AsWorker(), error) == old(AsWorker()).Drained(now, joins)
    {
      var polled := service.PollShutdown(now, joins);
      if polled.Err? {
        return Some(polled.error);
      }
      var p := polled.value;
      completed := SaturatingAdd(SaturatingAdd(completed, p.completed), p.forced);
      forced := SaturatingAdd(forced, p.forced);
      if p.action.Completed? || service.shutdown.phase == Shutdown.Complete {
        phase := Stopped;
      }
      return None;
    }

    method PollAt(now: nat, scene: Scene) returns (error: Option<WorkerError>)
      requires service.manager.AsRegistry().Sound() && AsWorker().Possible(scene)
      modifies this, service, service.manager, service.shutdown, service.queue
      ensures (AsWorker(), error) == old(AsWorker()).PollAt(now, scene)
    {
      hide Registry.Sound, Service.Pump, Service.PollShutdown, Joins.Iterate, Scanned;
      if now < lastPoll {
        return Some(ClockMovedBackward);
      }
      if polls >= U64_MAX {
        return Some(CounterExhausted);
      }
      var nextPolls := polls + 1;
      if phase == Stopped {
        lastPoll, polls := now, nextPolls;
        return None;
      }
      var failure := PumpService(scene);
      if failure.Some? {
        return Some(ServiceFailed(failure.value));
      }
      if phase == Draining {
        var problem := DrainService(now, scene.joins);
        if problem.Some? {
          return Some(ServiceFailed(problem.value));
        }
      }
      lastPoll, polls := now, nextPolls;
      return None;
    }
  }

  /** The pump with the number of calls completed so far. */
  function PumpFrom(s: Service, completed: nat, order: seq<Token>, visits: map<nat, Visit>):
    (Service, nat, Option<RuntimeService.Error>)
    decreases |order|
  {
    if order == [] then (s, completed, None)
    else
      var visit := VisitOf(visits, order[0]);
      var (t, error) := s.PumpCall(order[0], visit);
      if error.Some? then (t, completed, error)
      else PumpFrom(t, completed + (if visit.exit.Some? then 1 else 0), order[1..], visits)
  }

  lemma {:induction false} PumpFromAdds(s: Service, completed: nat, order: seq<Token>, visits: map<nat, Visit>)
    ensures PumpFrom(s, completed, order, visits) ==
            (s.Pump(order, visits).0, completed + s.Pump(order, visits).1, s.Pump(order, visits).2)
    decreases |order|
  {
    if order != [] {
      var visit := VisitOf(visits, order[0]);
      var (t, error) := s.PumpCall(order[0], visit);
      if error.None? {
        PumpFromAdds(t, completed + (if visit.exit.Some? then 1 else 0), order[1..], visits);
      }
    }
  }

  lemma PumpFromZero(s: Service, order: seq<Token>, visits: map<nat, Visit>)
    ensures PumpFrom(s, 0, order, visits) == s.Pump(order, visits)
  {
    PumpFromAdds(s, 0, order, visits);
  }

  lemma FlattenGrows(s: Service, callId: nat, batches: seq<seq<nat>>, k: nat)
    requires k < |batches| && s.PublishAll(callId, Flatten(batches[..k])).1.None?
    ensures s.PublishAll(callId, Flatten(batches[..k + 1])) ==
            s.PublishAll(callId, Flatten(batches[..k])).0.PublishAll(callId, batches[k])
  {
    assert batches[..k + 1][..k] == batches[..k];
    PublishAllAppend(s, callId, Flatten(batches[..k]), batches[k]);
  }

  /** A failure in an early batch is the outcome of the whole. */
  lemma {:induction false} PublishStops(s: Service, callId: nat, batches: seq<seq<nat>>, k: nat)
    requires k <= |batches| && s.PublishAll(callId, Flatten(batches[..k])).1.Some?
    ensures s.PublishAll(callId, Flatten(batches)) == s.PublishAll(callId, Flatten(batches[..k]))
    decreases |batches|
  {
    if k == |batches| {
      assert batches[..k] == batches;
    } else {
      var init := batches[..|batches| - 1];
      assert init[..k] == batches[..k];
      PublishStops(s, callId, init, k);
      PublishAllAppend(s, callId, Flatten(init), batches[|batches| - 1]);
    }
  }
}
