/**
 * The transaction-timer table of the signaling engine (src/call/signaling/engine.rs)
 * kept in step with the shared deadline scheduler.
 *
 * `Book` is the plain meaning: which (token, timer) pairs are armed, and the
 * scheduler's plan. The class edits a vector in place with `swap_remove` and a
 * scheduler beside it; it is proved to compute the book's operations.
 */
module SignalingTimers {
  import opened Wrappers
  import opened Deadlines

  const MAX_TRANSACTION_TIMERS: nat := 384

  datatype Token = Token(key: nat, generation: nat, isClient: bool)

  datatype ClientTimer = Retransmit | RequestTimeout | Linger

  datatype ServerTimer = Trying | ResponseRetransmit | FinalResponseLifetime | Termination

  datatype TransactionTimer = Client(client: ClientTimer) | Server(server: ServerTimer, destination: nat)

  datatype TimerEntry = TimerEntry(id: nat, token: Token, timer: TransactionTimer) {
    function Key(): TimerKey { KeyOf(token, timer) }
  }

  /** What identifies a timer: a server timer's destination does not. */
  datatype TimerKey =
    | ClientKey(token: Token, client: ClientTimer)
    | ServerKey(token: Token, server: ServerTimer)

  function KeyOf(token: Token, timer: TransactionTimer): TimerKey {
    match timer
    case Client(client) => ClientKey(token, client)
    case Server(server, _) => ServerKey(token, server)
  }

  /** `client_timer_kind` and `server_timer_kind`. */
  function KindOf(timer: TransactionTimer): nat {
    match timer
    case Client(Retransmit) => 1
    case Client(RequestTimeout) => 2
    case Client(Linger) => 3
    case Server(Trying, _) => 101
    case Server(ResponseRetransmit, _) => 102
    case Server(FinalResponseLifetime, _) => 103
    case Server(Termination, _) => 104
  }

  /**
   * One action of a client or server transaction. `ok` is the answer of the
   * socket (`Send`) or of the transaction manager (`Terminate`).
   */
  datatype TimerAction =
    | Send(ok: bool)
    | Arm(timer: TransactionTimer, after: nat)
    | Disarm(timer: TransactionTimer)
    | Deliver
    | Terminate(ok: bool)

  datatype SignalingError =
    | TimerCapacity
    | TimeOverflow
    | DeadlineRefused(error: DeadlineError)
    | SendFailed
    | TransactionFailed

  /** What the transaction manager answers when told that a timer fired. */
  type Reaction = TimerEntry -> Option<seq<TimerAction>>

  // ---------------------------------------------------------------------------
  // The plain specification
  // ---------------------------------------------------------------------------

  function IdsOf(armed: map<TimerKey, TimerEntry>, keys: set<TimerKey>): set<nat> {
    set k | k in keys && k in armed :: armed[k].id
  }

  function TransactionIds(plan: Plan): set<nat> {
    set i | i in plan.pending && plan.pending[i].owner.Transaction?
  }

  function KeysOfToken(armed: map<TimerKey, TimerEntry>, token: Token): set<TimerKey> {
    set k | k in armed && k.token == token
  }

  /** The identifiers in the table are exactly the pending transaction deadlines. */
  ghost predicate Agreeing(armed: map<TimerKey, TimerEntry>, plan: Plan) {
    IdsOf(armed, armed.Keys) == TransactionIds(plan)
  }

  ghost predicate DistinctIds(armed: map<TimerKey, TimerEntry>) {
    forall k, l | k in armed && l in armed && armed[k].id == armed[l].id :: k == l
  }

  datatype Book = Book(armed: map<TimerKey, TimerEntry>, plan: Plan) {

    /** Table and scheduler agree. */
    ghost predicate InStep() {
      && plan.WellFormed()
      && |armed| <= MAX_TRANSACTION_TIMERS
      && Agreeing(armed, plan)
      && DistinctIds(armed)
      && forall k | k in armed :: armed[k].Key() == k && Describes(armed[k])
    }

    /** The pending deadline of an entry carries that entry's generation and kind. */
    predicate Describes(entry: TimerEntry) {
      && entry.id in plan.pending
      && plan.pending[entry.id].owner.Transaction?
      && plan.pending[entry.id].generation == entry.token.generation
      && plan.pending[entry.id].kind == KindOf(entry.timer)
    }

    function Drop(keys: set<TimerKey>): Book {
      Book(armed - keys, plan.(pending := plan.pending - IdsOf(armed, keys)))
    }

    function Add(token: Token, timer: TransactionTimer, at: nat): Book
      requires plan.ScheduleError(token.generation).None?
    {
      Book(armed[KeyOf(token, timer) := TimerEntry(plan.nextId, token, timer)],
           plan.Schedule(at, DeadlineOwner.Transaction, token.generation, KindOf(timer)))
    }

    function ArmError(token: Token, after: nat, now: nat): Option<SignalingError> {
      if |armed| >= MAX_TRANSACTION_TIMERS then Some(TimerCapacity)
      else if now + after > DURATION_MAX then Some(TimeOverflow)
      else match plan.ScheduleError(token.generation)
           case Some(error) => Some(DeadlineRefused(error))
           case None => None
    }

    function Apply(token: Token, action: TimerAction, now: nat): (Book, Option<SignalingError>) {
      match action
      case Send(ok) => (this, if ok then None else Some(SendFailed))
      case Deliver => (this, None)
      case Disarm(timer) => (Drop({KeyOf(token, timer)}), None)
      case Terminate(ok) => (Drop(KeysOfToken(armed, token)), if ok then None else Some(TransactionFailed))
      case Arm(timer, after) =>
        Drop({KeyOf(token, timer)}).ArmFresh(token, timer, after, now)
    }

    /** Arms a timer that is not in the table. */
    function ArmFresh(token: Token, timer: TransactionTimer, after: nat, now: nat): (Book, Option<SignalingError>) {
      var error := ArmError(token, after, now);
      (if error.Some? then this else Add(token, timer, now + after), error)
    }

    /** Actions run in order; the first failure stops the list and keeps what was done. */
    function Execute(token: Token, actions: seq<TimerAction>, now: nat): (Book, Option<SignalingError>)
      decreases |actions|
    {
      if actions == [] then (this, None)
      else
        var (next, error) := Apply(token, actions[0], now);
        if error.Some? then (next, error) else next.Execute(token, actions[1..], now)
    }

    /** The answer to a timer whose deadline is out of the scheduler already, and whether a request timed out. */
    function Answer(key: TimerKey, react: Reaction, now: nat): (Book, Result<bool, SignalingError>)
      requires key in armed
    {
      match react(armed[key])
      case None => (this.(armed := armed - {key}), Err(TransactionFailed))
      case Some(actions) =>
        var (b, error) := this.(armed := armed - {key}).Execute(armed[key].token, actions, now);
        (b, if error.Some? then Err(error.value) else Ok(armed[key].timer == Client(RequestTimeout)))
    }

    /** A due deadline of the table: its entry leaves, then the transaction reacts. */
    function Fire(key: TimerKey, react: Reaction, now: nat): Book
      requires key in armed
    {
      match react(armed[key])
      case None => Drop({key})
      case Some(actions) => Drop({key}).Execute(armed[key].token, actions, now).0
    }
  }

  lemma DropOne(b: Book, key: TimerKey)
    ensures key in b.armed ==> b.Drop({key}) == Book(b.armed - {key}, b.plan.Cancel(b.armed[key].id))
    ensures key !in b.armed ==> b.Drop({key}) == b
  {
    assert IdsOf(b.armed, {key}) == if key in b.armed then {b.armed[key].id} else {};
  }

  // ---------------------------------------------------------------------------
  // Every operation keeps table and scheduler in step
  // ---------------------------------------------------------------------------

  lemma DropKeepsAgreement(b: Book, keys: set<TimerKey>)
    requires Agreeing(b.armed, b.plan) && DistinctIds(b.armed)
    ensures Agreeing(b.Drop(keys).armed, b.Drop(keys).plan)
  {
    var d := b.Drop(keys);
    forall i | i in IdsOf(d.armed, d.armed.Keys) ensures i in TransactionIds(d.plan) {
      var k :| k in d.armed && d.armed[k].id == i;
      assert i in IdsOf(b.armed, b.armed.Keys);
      assert i !in IdsOf(b.armed, keys);
    }
    forall i | i in TransactionIds(d.plan) ensures i in IdsOf(d.armed, d.armed.Keys) {
      assert i in IdsOf(b.armed, b.armed.Keys);
      var k :| k in b.armed && b.armed[k].id == i;
      assert k !in keys;
      assert d.armed[k].id == i;
    }
  }

  lemma DropKeepsInStep(b: Book, keys: set<TimerKey>)
    requires b.InStep()
    ensures b.Drop(keys).InStep()
  {
    var d := b.Drop(keys);
    DropKeepsAgreement(b, keys);
    CardinalityOfSubset(d.armed.Keys, b.armed.Keys);
    CardinalityOfSubset(d.plan.pending.Keys, b.plan.pending.Keys);
    forall k | k in d.armed ensures d.Describes(d.armed[k]) {
      assert b.Describes(b.armed[k]);
      assert b.armed[k].id !in IdsOf(b.armed, keys);
    }
  }

  lemma AddKeepsAgreement(b: Book, token: Token, timer: TransactionTimer, at: nat)
    requires b.InStep() && KeyOf(token, timer) !in b.armed
    requires b.plan.ScheduleError(token.generation).None?
    ensures Agreeing(b.Add(token, timer, at).armed, b.Add(token, timer, at).plan)
    ensures DistinctIds(b.Add(token, timer, at).armed)
  {
    var key, a := KeyOf(token, timer), b.Add(token, timer, at);
    forall i | i in IdsOf(a.armed, a.armed.Keys) ensures i in TransactionIds(a.plan) {
      var k :| k in a.armed && a.armed[k].id == i;
      assert k == key || i in IdsOf(b.armed, b.armed.Keys);
    }
    forall i | i in TransactionIds(a.plan) ensures i in IdsOf(a.armed, a.armed.Keys) {
      if i == b.plan.nextId {
        assert a.armed[key].id == i;
      } else {
        assert i in IdsOf(b.armed, b.armed.Keys);
        var k :| k in b.armed && b.armed[k].id == i;
        assert a.armed[k].id == i;
      }
    }
    forall k | k in b.armed ensures b.armed[k].id < b.plan.nextId {
      assert b.Describes(b.armed[k]);
    }
  }

  lemma AddKeepsInStep(b: Book, token: Token, timer: TransactionTimer, at: nat)
    requires b.InStep() && |b.armed| < MAX_TRANSACTION_TIMERS && KeyOf(token, timer) !in b.armed
    requires b.plan.ScheduleError(token.generation).None?
    ensures b.Add(token, timer, at).InStep()
  {
    var key, a := KeyOf(token, timer), b.Add(token, timer, at);
    ScheduleKeepsWellFormed(b.plan, at, DeadlineOwner.Transaction, token.generation, KindOf(timer));
    AddKeepsAgreement(b, token, timer, at);
    assert a.armed.Keys == b.armed.Keys + {key};
    forall k | k in a.armed ensures a.armed[k].Key() == k && a.Describes(a.armed[k]) {
      assert k != key ==> b.Describes(b.armed[k]);
    }
  }

  lemma ArmFreshKeepsInStep(b: Book, token: Token, timer: TransactionTimer, after: nat, now: nat)
    requires b.InStep() && KeyOf(token, timer) !in b.armed
    ensures b.ArmFresh(token, timer, after, now).0.InStep()
  {
    hide Book.InStep, Book.Add;
    if b.ArmError(token, after, now).None? {
      AddKeepsInStep(b, token, timer, now + after);
    }
  }

  lemma ApplyKeepsInStep(b: Book, token: Token, action: TimerAction, now: nat)
    requires b.InStep()
    ensures b.Apply(token, action, now).0.InStep()
  {
    match action
    case Send(_) =>
    case Deliver =>
    case Disarm(timer) => DropKeepsInStep(b, {KeyOf(token, timer)});
    case Terminate(_) => DropKeepsInStep(b, KeysOfToken(b.armed, token));
    case Arm(timer, after) =>
      DropKeepsInStep(b, {KeyOf(token, timer)});
      ArmFreshKeepsInStep(b.Drop({KeyOf(token, timer)}), token, timer, after, now);
  }

  lemma {:induction false} ExecuteKeepsInStep(b: Book, token: Token, actions: seq<TimerAction>, now: nat)
    requires b.InStep()
    ensures b.Execute(token, actions, now).0.InStep()
    decreases |actions|
  {
    if actions != [] {
      var (next, error) := b.Apply(token, actions[0], now);
      ApplyKeepsInStep(b, token, actions[0], now);
      if error.None? {
        ExecuteKeepsInStep(next, token, actions[1..], now);
      }
    }
  }

  /** A pending transaction deadline always belongs to some armed timer. */
  lemma DeadlineHasTimer(b: Book, id: nat) returns (key: TimerKey)
    requires b.InStep() && id in TransactionIds(b.plan)
    ensures key in b.armed && b.armed[key].id == id
  {
    assert id in IdsOf(b.armed, b.armed.Keys);
    key :| key in b.armed && b.armed[key].id == id;
  }

  lemma FireKeepsInStep(b: Book, key: TimerKey, react: Reaction, now: nat)
    requires b.InStep() && key in b.armed
    ensures b.Fire(key, react, now).InStep()
  {
    DropKeepsInStep(b, {key});
    if react(b.armed[key]).Some? {
      ExecuteKeepsInStep(b.Drop({key}), b.armed[key].token, react(b.armed[key]).value, now);
    }
  }

  // ---------------------------------------------------------------------------
  // What an action list means
  // ---------------------------------------------------------------------------

  predicate Touches(token: Token, action: TimerAction, key: TimerKey) {
    match action
    case Arm(timer, _) => KeyOf(token, timer) == key
    case Disarm(timer) => KeyOf(token, timer) == key
    case Terminate(_) => token == key.token
    case _ => false
  }

  function LastTouch(token: Token, actions: seq<TimerAction>, key: TimerKey): Option<TimerAction> {
    if actions == [] then None
    else
      var later := LastTouch(token, actions[1..], key);
      if later.Some? then later
      else if Touches(token, actions[0], key) then Some(actions[0]) else None
  }

  /** `key` is armed in both books or in neither, for the same instant. */
  predicate SameTimer(b: Book, r: Book, key: TimerKey) {
    && (key in b.armed <==> key in r.armed)
    && (key in b.armed ==>
          && r.armed[key] == b.armed[key]
          && b.armed[key].id in b.plan.pending && b.armed[key].id in r.plan.pending
          && r.plan.pending[b.armed[key].id] == b.plan.pending[b.armed[key].id])
  }

  /** `key` is armed with exactly this timer, due at `at`. */
  predicate ArmedAt(b: Book, key: TimerKey, timer: TransactionTimer, at: nat) {
    && key in b.armed && b.armed[key].timer == timer
    && b.armed[key].id in b.plan.pending && b.plan.pending[b.armed[key].id].at == at
  }

  /** What `action` says about `key`, given the book `b` before it. */
  predicate Decided(b: Book, r: Book, key: TimerKey, action: Option<TimerAction>, now: nat) {
    match action
    case None => SameTimer(b, r, key)
    case Some(Arm(timer, after)) => ArmedAt(r, key, timer, now + after)
    case Some(_) => key !in r.armed
  }

  lemma DropSparesOthers(b: Book, keys: set<TimerKey>, key: TimerKey)
    requires b.InStep() && key !in keys
    ensures SameTimer(b, b.Drop(keys), key)
  {
    if key in b.armed {
      assert b.Describes(b.armed[key]);
      assert b.armed[key].id !in IdsOf(b.armed, keys);
    }
  }

  lemma ArmDecides(b: Book, token: Token, timer: TransactionTimer, after: nat, now: nat, key: TimerKey)
    requires b.InStep() && b.Apply(token, Arm(timer, after), now).1.None? && KeyOf(token, timer) != key
    ensures Decided(b, b.Apply(token, Arm(timer, after), now).0, key, None, now)
  {
    hide Agreeing, DistinctIds, IdsOf;
    DropSparesOthers(b, {KeyOf(token, timer)}, key);
    if key in b.armed {
      assert b.Describes(b.armed[key]) && b.plan.nextId != b.armed[key].id;
    }
  }

  lemma ApplyDecides(b: Book, token: Token, action: TimerAction, now: nat, key: TimerKey)
    requires b.InStep() && b.Apply(token, action, now).1.None?
    ensures Decided(b, b.Apply(token, action, now).0, key,
                    if Touches(token, action, key) then Some(action) else None, now)
  {
    if key in b.armed {
      assert b.Describes(b.armed[key]);
    }
    match action
    case Send(_) =>
    case Deliver =>
    case Disarm(timer) =>
      if KeyOf(token, timer) != key {
        DropSparesOthers(b, {KeyOf(token, timer)}, key);
      }
    case Terminate(_) =>
      if key.token != token {
        DropSparesOthers(b, KeysOfToken(b.armed, token), key);
      }
    case Arm(timer, after) =>
      if KeyOf(token, timer) != key {
        ArmDecides(b, token, timer, after, now, key);
      }
  }

  /**
   * After a list that succeeds, a timer is armed exactly as the last action
   * that mentions it says, and untouched when none does: every timer of
   * another transaction is untouched.
   */
  lemma {:induction false} LastActionDecides(b: Book, token: Token, actions: seq<TimerAction>, now: nat, key: TimerKey)
    requires b.InStep() && b.Execute(token, actions, now).1.None?
    ensures Decided(b, b.Execute(token, actions, now).0, key, LastTouch(token, actions, key), now)
    decreases |actions|
  {
    if actions == [] {
      if key in b.armed {
        assert b.Describes(b.armed[key]);
      }
    } else {
      var next := b.Apply(token, actions[0], now).0;
      ApplyDecides(b, token, actions[0], now, key);
      ApplyKeepsInStep(b, token, actions[0], now);
      LastActionDecides(next, token, actions[1..], now, key);
    }
  }

  lemma ApplySparesOtherOwners(b: Book, token: Token, action: TimerAction, now: nat, id: nat)
    requires b.InStep() && id in b.plan.pending && !b.plan.pending[id].owner.Transaction?
    ensures id in b.Apply(token, action, now).0.plan.pending
    ensures b.Apply(token, action, now).0.plan.pending[id] == b.plan.pending[id]
  {
    match action
    case Send(_) =>
    case Deliver =>
    case Disarm(timer) => DropSparesOtherOwners(b, {KeyOf(token, timer)}, id);
    case Terminate(_) => DropSparesOtherOwners(b, KeysOfToken(b.armed, token), id);
    case Arm(timer, after) =>
      DropSparesOtherOwners(b, {KeyOf(token, timer)}, id);
      ArmSparesOtherOwners(b.Drop({KeyOf(token, timer)}), token, timer, after, now, id);
  }

  lemma ArmSparesOtherOwners(b: Book, token: Token, timer: TransactionTimer, after: nat, now: nat, id: nat)
    requires id in b.plan.pending && id < b.plan.nextId
    ensures id in b.ArmFresh(token, timer, after, now).0.plan.pending
    ensures b.ArmFresh(token, timer, after, now).0.plan.pending[id] == b.plan.pending[id]
  {
  }

  lemma DropSparesOtherOwners(b: Book, keys: set<TimerKey>, id: nat)
    requires b.InStep() && id in b.plan.pending && !b.plan.pending[id].owner.Transaction?
    ensures id in b.Drop(keys).plan.pending && b.Drop(keys).plan.pending[id] == b.plan.pending[id]
    ensures id < b.plan.nextId
  {
    forall k | k in b.armed ensures b.armed[k].id != id {
      assert b.Describes(b.armed[k]);
    }
  }

  /** Deadlines of other owners are never disturbed, whether or not the list succeeds. */
  lemma {:induction false} ExecuteSparesOtherOwners(b: Book, token: Token, actions: seq<TimerAction>, now: nat, id: nat)
    requires b.InStep() && id in b.plan.pending && !b.plan.pending[id].owner.Transaction?
    ensures id in b.Execute(token, actions, now).0.plan.pending
    ensures b.Execute(token, actions, now).0.plan.pending[id] == b.plan.pending[id]
    decreases |actions|
  {
    if actions != [] {
      var (next, error) := b.Apply(token, actions[0], now);
      ApplySparesOtherOwners(b, token, actions[0], now, id);
      ApplyKeepsInStep(b, token, actions[0], now);
      if error.None? {
        ExecuteSparesOtherOwners(next, token, actions[1..], now, id);
      }
    }
  }

  /** No timer of a terminated transaction survives, in the table or in the scheduler. */
  lemma TerminateLeavesNothing(b: Book, token: Token, ok: bool, now: nat)
    requires b.InStep()
    ensures var r := b.Apply(token, Terminate(ok), now).0;
            && (forall k | k in r.armed :: k.token != token)
            && (forall k | k in b.armed && k.token == token :: b.armed[k].id !in r.plan.pending)
            && (forall k | k in b.armed && k.token != token :: SameTimer(b, r, k))
  {
    var r := b.Apply(token, Terminate(ok), now).0;
    forall k | k in b.armed && k.token == token ensures b.armed[k].id !in r.plan.pending {
      assert b.armed[k].id in IdsOf(b.armed, KeysOfToken(b.armed, token));
    }
    forall k | k in b.armed && k.token != token ensures SameTimer(b, r, k) {
      DropSparesOthers(b, KeysOfToken(b.armed, token), k);
    }
  }

  // ---------------------------------------------------------------------------
  // When an action list fails
  // ---------------------------------------------------------------------------

  /** Why a timer cannot be armed beside `timers` other timers and `pending` other deadlines. */
  predicate NoRoom(timers: nat, pending: nat, maximum: nat, nextId: nat, generation: nat, at: nat,
                   error: SignalingError)
  {
    match error
    case TimerCapacity => timers >= MAX_TRANSACTION_TIMERS
    case TimeOverflow => timers < MAX_TRANSACTION_TIMERS && at > DURATION_MAX
    case DeadlineRefused(refusal) =>
      && timers < MAX_TRANSACTION_TIMERS && at <= DURATION_MAX
      && (match refusal
          case ZeroGeneration => generation == 0
          case Capacity => generation != 0 && pending >= maximum
          case IdExhausted => generation != 0 && pending < maximum && nextId >= U64_MAX
          case InvalidCapacity => false)
    case _ => false
  }

  function OtherTimers(b: Book, key: TimerKey): nat { |b.armed - {key}| }

  function OtherDeadlines(b: Book, key: TimerKey): nat {
    if key in b.armed then |b.plan.pending - {b.armed[key].id}| else |b.plan.pending|
  }

  lemma OthersAreLeft(b: Book, key: TimerKey)
    ensures var c := b.Drop({key});
            && |c.armed| == OtherTimers(b, key) && |c.plan.pending| == OtherDeadlines(b, key)
            && c.plan.maximum == b.plan.maximum && c.plan.nextId == b.plan.nextId
  {
    DropOne(b, key);
  }

  /** This action cannot be carried out here, and why. The timer it would replace takes no room. */
  predicate FailsWith(b: Book, token: Token, action: TimerAction, now: nat, error: SignalingError) {
    match action
    case Send(ok) => !ok && error == SendFailed
    case Terminate(ok) => !ok && error == TransactionFailed
    case Arm(timer, after) =>
      NoRoom(OtherTimers(b, KeyOf(token, timer)), OtherDeadlines(b, KeyOf(token, timer)),
             b.plan.maximum, b.plan.nextId, token.generation, now + after, error)
    case _ => false
  }

  lemma ArmFailsExactly(b: Book, token: Token, timer: TransactionTimer, after: nat, now: nat, error: SignalingError)
    ensures b.ArmFresh(token, timer, after, now).1 == Some(error) <==>
            NoRoom(|b.armed|, |b.plan.pending|, b.plan.maximum, b.plan.nextId, token.generation, now + after, error)
  {
  }

  lemma ApplyFailsExactly(b: Book, token: Token, action: TimerAction, now: nat, error: SignalingError)
    ensures b.Apply(token, action, now).1 == Some(error) <==> FailsWith(b, token, action, now, error)
  {
    hide Book.Drop, Book.ArmFresh, NoRoom, OtherTimers, OtherDeadlines;
    if action.Arm? {
      var key := KeyOf(token, action.timer);
      OthersAreLeft(b, key);
      ArmFailsExactly(b.Drop({key}), token, action.timer, action.after, now, error);
    }
  }

  /** The actions before the `i`th succeed, and it is the first that does not. */
  ghost predicate FirstFailure(b: Book, token: Token, actions: seq<TimerAction>, now: nat, i: nat,
                               error: SignalingError)
  {
    && i < |actions| && b.Execute(token, actions[..i], now).1.None?
    && FailsWith(b.Execute(token, actions[..i], now).0, token, actions[i], now, error)
  }

  lemma FirstActionFirst(b: Book, token: Token, actions: seq<TimerAction>, now: nat, i: nat)
    requires 0 < i <= |actions| && b.Apply(token, actions[0], now).1.None?
    ensures b.Execute(token, actions[..i], now) ==
            b.Apply(token, actions[0], now).0.Execute(token, actions[1..][..i - 1], now)
  {
    assert actions[..i][1..] == actions[1..][..i - 1] && actions[..i][0] == actions[0];
  }

  /** A list fails exactly at its first action that cannot be carried out, with that action's error. */
  lemma {:induction false} ListFailsAtFirst(b: Book, token: Token, actions: seq<TimerAction>, now: nat,
                                            error: SignalingError)
    returns (i: nat)
    requires b.Execute(token, actions, now).1 == Some(error)
    ensures FirstFailure(b, token, actions, now, i, error)
    ensures b.Execute(token, actions, now).0 ==
            b.Execute(token, actions[..i], now).0.Apply(token, actions[i], now).0
    decreases |actions|
  {
    hide Book.Apply, FailsWith;
    ApplyFailsExactly(b, token, actions[0], now, error);
    if b.Apply(token, actions[0], now).1.Some? {
      i := 0;
    } else {
      var next := b.Apply(token, actions[0], now).0;
      var j := ListFailsAtFirst(next, token, actions[1..], now, error);
      i := j + 1;
      FirstActionFirst(b, token, actions, now, i);
    }
  }

  lemma {:induction false} FirstFailureFails(b: Book, token: Token, actions: seq<TimerAction>, now: nat, i: nat,
                                             error: SignalingError)
    requires FirstFailure(b, token, actions, now, i, error)
    ensures b.Execute(token, actions, now).1 == Some(error)
    decreases |actions|
  {
    hide Book.Apply, FailsWith;
    if i == 0 {
      ApplyFailsExactly(b, token, actions[0], now, error);
    } else {
      assert actions[..i][0] == actions[0];
      FirstActionFirst(b, token, actions, now, i);
      FirstFailureFails(b.Apply(token, actions[0], now).0, token, actions[1..], now, i - 1, error);
    }
  }

  lemma ListFailsExactly(b: Book, token: Token, actions: seq<TimerAction>, now: nat, error: SignalingError)
    ensures b.Execute(token, actions, now).1 == Some(error) <==>
            exists i :: FirstFailure(b, token, actions, now, i, error)
  {
    hide FirstFailure;
    if b.Execute(token, actions, now).1 == Some(error) {
      var i := ListFailsAtFirst(b, token, actions, now, error);
    }
    if i :| FirstFailure(b, token, actions, now, i, error) {
      FirstFailureFails(b, token, actions, now, i, error);
    }
  }

  // ---------------------------------------------------------------------------
  // What a fired timer reports
  // ---------------------------------------------------------------------------

  const REQUEST_TIMEOUT_KIND: nat := 2

  /** The scheduler's record tells the timers of a transaction apart. */
  lemma KindsDiffer(token: Token, one: TransactionTimer, two: TransactionTimer)
    ensures KindOf(one) == KindOf(two) <==> KeyOf(token, one) == KeyOf(token, two)
    ensures KindOf(one) == REQUEST_TIMEOUT_KIND <==> one == Client(RequestTimeout)
    ensures one.Client? <==> KindOf(one) in {1, 2, 3}
    ensures one.Server? <==> KindOf(one) in {101, 102, 103, 104}
  {
  }

  /** A timeout is reported exactly when the scheduler recorded a request timeout. */
  lemma TimeoutIsReported(b: Book, d: DueDeadline, key: TimerKey, react: Reaction, now: nat)
    requires b.InStep() && d.id in b.plan.pending && b.plan.pending[d.id] == d
    requires key in b.armed && b.armed[key].id == d.id
    ensures var r := b.(plan := b.plan.Cancel(d.id)).Answer(key, react, now).1;
            r.Ok? ==> (r.value <==> d.kind == REQUEST_TIMEOUT_KIND)
  {
    assert b.Describes(b.armed[key]);
    KindsDiffer(key.token, b.armed[key].timer, b.armed[key].timer);
  }

  /** Firing fails exactly when the transaction refuses the timer or its first impossible action does. */
  lemma FiringFailsExactly(b: Book, key: TimerKey, react: Reaction, now: nat, error: SignalingError)
    requires key in b.armed
    ensures b.Answer(key, react, now).1 == Err(error) <==>
            match react(b.armed[key])
            case None => error == TransactionFailed
            case Some(actions) =>
              exists i :: FirstFailure(b.(armed := b.armed - {key}), b.armed[key].token, actions, now, i, error)
  {
    hide FirstFailure;
    if react(b.armed[key]).Some? {
      ListFailsExactly(b.(armed := b.armed - {key}), b.armed[key].token, react(b.armed[key]).value, now, error);
    }
  }

  // ---------------------------------------------------------------------------
  // Whole runs
  // ---------------------------------------------------------------------------

  datatype Event =
    | Routed(token: Token, actions: seq<TimerAction>, now: nat)
    | Poll(now: nat, react: Reaction)
    | CallSchedule(at: nat, generation: nat, kind: nat)
    | CallCancel(id: nat)

  /** One turn of the call thread as it touches timers. */
  ghost predicate Step(b: Book, event: Event, r: Book) {
    match event
    case Routed(token, actions, now) => r == b.Execute(token, actions, now).0
    case CallSchedule(at, generation, kind) =>
      r == (if b.plan.ScheduleError(generation).Some? then b
            else b.(plan := b.plan.Schedule(at, DeadlineOwner.Call, generation, kind)))
    case CallCancel(id) => r == b.(plan := b.plan.Cancel(id))
    case Poll(now, react) =>
      || (b.plan.NothingDue(now) && r == b)
      || exists d :: b.plan.IsEarliest(d) && d.at <= now && AfterDue(b, d, react, now, r)
  }

  /** A transaction's deadline fires the timer that has it, if there is one; any other is just taken out. */
  ghost predicate AfterDue(b: Book, d: DueDeadline, react: Reaction, now: nat, r: Book) {
    if d.owner.Transaction? && d.id in IdsOf(b.armed, b.armed.Keys) then
      exists key :: key in b.armed && b.armed[key].id == d.id && r == b.Fire(key, react, now)
    else
      r == b.(plan := b.plan.Cancel(d.id))
  }

  /** Cancelling an arbitrary identifier is harmless exactly when it is no transaction deadline. */
  lemma CallCancelKeepsInStep(b: Book, id: nat)
    requires b.InStep()
    ensures b.(plan := b.plan.Cancel(id)).InStep() <==> id !in TransactionIds(b.plan)
  {
    var r := b.(plan := b.plan.Cancel(id));
    CancelKeepsWellFormed(b.plan, id);
    if id in TransactionIds(b.plan) {
      assert id in IdsOf(r.armed, r.armed.Keys) && id !in TransactionIds(r.plan);
    } else {
      assert TransactionIds(r.plan) == TransactionIds(b.plan);
      forall k | k in b.armed ensures r.Describes(b.armed[k]) {
        assert b.Describes(b.armed[k]);
      }
    }
  }

  lemma CallScheduleKeepsInStep(b: Book, at: nat, generation: nat, kind: nat)
    requires b.InStep() && b.plan.ScheduleError(generation).None?
    ensures b.(plan := b.plan.Schedule(at, DeadlineOwner.Call, generation, kind)).InStep()
  {
    var r := b.(plan := b.plan.Schedule(at, DeadlineOwner.Call, generation, kind));
    ScheduleKeepsWellFormed(b.plan, at, DeadlineOwner.Call, generation, kind);
    assert TransactionIds(r.plan) == TransactionIds(b.plan);
    forall k | k in b.armed ensures r.Describes(b.armed[k]) {
      assert b.Describes(b.armed[k]);
    }
  }

  /** The one thing that can break the agreement: cancelling a transaction's deadline from outside. */
  predicate Harmless(b: Book, event: Event) {
    event.CallCancel? ==> event.id !in TransactionIds(b.plan)
  }

  lemma DueKeepsInStep(b: Book, d: DueDeadline, react: Reaction, now: nat, r: Book)
    requires b.InStep() && b.plan.IsEarliest(d) && AfterDue(b, d, react, now, r)
    ensures r.InStep()
  {
    if d.owner.Transaction? {
      var _ := DeadlineHasTimer(b, d.id);
      var key :| key in b.armed && b.armed[key].id == d.id && r == b.Fire(key, react, now);
      FireKeepsInStep(b, key, react, now);
    } else {
      CallCancelKeepsInStep(b, d.id);
    }
  }

  /** Every event of the call's loop keeps agreement, but for a harmful cancel, which always breaks it. */
  lemma StepKeepsInStepExactly(b: Book, event: Event, r: Book)
    requires b.InStep() && Step(b, event, r)
    ensures r.InStep() <==> Harmless(b, event)
  {
    match event
    case Routed(token, actions, now) => ExecuteKeepsInStep(b, token, actions, now);
    case CallCancel(id) => CallCancelKeepsInStep(b, id);
    case CallSchedule(at, generation, kind) =>
      if b.plan.ScheduleError(generation).None? {
        CallScheduleKeepsInStep(b, at, generation, kind);
      }
    case Poll(now, react) =>
      if r != b {
        var d :| b.plan.IsEarliest(d) && d.at <= now && AfterDue(b, d, react, now, r);
        DueKeepsInStep(b, d, react, now, r);
      }
  }

  ghost predicate IsRun(books: seq<Book>, events: seq<Event>) {
    && |books| == |events| + 1
    && forall i | 0 <= i < |events| :: Step(books[i], events[i], books[i + 1])
  }

  function NewBook(maximum: nat): Book { Book(map[], Plan(maximum, 1, map[])) }

  ghost predicate AllInStep(books: seq<Book>) { forall i | 0 <= i < |books| :: books[i].InStep() }

  ghost predicate AllHarmless(books: seq<Book>, events: seq<Event>)
    requires |books| == |events| + 1
  {
    forall i | 0 <= i < |events| :: Harmless(books[i], events[i])
  }

  lemma {:induction false} HarmlessRunStaysInStep(books: seq<Book>, events: seq<Event>, i: nat)
    requires IsRun(books, events) && books[0].InStep() && AllHarmless(books, events) && i < |books|
    ensures books[i].InStep()
  {
    if i > 0 {
      HarmlessRunStaysInStep(books, events, i - 1);
      assert Harmless(books[i - 1], events[i - 1]);
      StepKeepsInStepExactly(books[i - 1], events[i - 1], books[i]);
    }
  }

  /**
   * Table and scheduler agree in every state of a run exactly when the run
   * never cancels a transaction's deadline from outside.
   */
  lemma EveryRunStaysInStepExactly(books: seq<Book>, events: seq<Event>, maximum: nat)
    requires IsRun(books, events) && 1 <= maximum <= MAX_DEADLINES && books[0] == NewBook(maximum)
    ensures AllInStep(books) <==> AllHarmless(books, events)
  {
    if AllHarmless(books, events) {
      forall i | 0 <= i < |books| ensures books[i].InStep() {
        HarmlessRunStaysInStep(books, events, i);
      }
    } else {
      var i :| 0 <= i < |events| && !Harmless(books[i], events[i]);
      if books[i].InStep() {
        StepKeepsInStepExactly(books[i], events[i], books[i + 1]);
      }
    }
  }

  // ---------------------------------------------------------------------------
  // Which identifiers the call may cancel
  // ---------------------------------------------------------------------------

  /** What was pending under an identifier already handed out can only go, never change. */
  predicate OnlyGoes(p: Plan, q: Plan) {
    && p.nextId <= q.nextId
    && forall id | id in q.pending && id < p.nextId :: id in p.pending && q.pending[id] == p.pending[id]
  }

  lemma OnlyGoesTransitive(p: Plan, q: Plan, r: Plan)
    requires OnlyGoes(p, q) && OnlyGoes(q, r)
    ensures OnlyGoes(p, r)
  {
  }

  lemma ApplyOnlyGoes(b: Book, token: Token, action: TimerAction, now: nat)
    ensures OnlyGoes(b.plan, b.Apply(token, action, now).0.plan)
  {
  }

  lemma {:induction false} ExecuteOnlyGoes(b: Book, token: Token, actions: seq<TimerAction>, now: nat)
    ensures OnlyGoes(b.plan, b.Execute(token, actions, now).0.plan)
    decreases |actions|
  {
    if actions != [] {
      var (next, error) := b.Apply(token, actions[0], now);
      ApplyOnlyGoes(b, token, actions[0], now);
      if error.None? {
        ExecuteOnlyGoes(next, token, actions[1..], now);
        OnlyGoesTransitive(b.plan, next.plan, next.Execute(token, actions[1..], now).0.plan);
      }
    }
  }

  lemma FireOnlyGoes(b: Book, key: TimerKey, react: Reaction, now: nat)
    requires key in b.armed
    ensures OnlyGoes(b.plan, b.Fire(key, react, now).plan)
  {
    if react(b.armed[key]).Some? {
      var dropped, actions := b.Drop({key}), react(b.armed[key]).value;
      ExecuteOnlyGoes(dropped, b.armed[key].token, actions, now);
      OnlyGoesTransitive(b.plan, dropped.plan, dropped.Execute(b.armed[key].token, actions, now).0.plan);
    }
  }

  lemma StepOnlyGoes(b: Book, event: Event, r: Book)
    requires Step(b, event, r)
    ensures OnlyGoes(b.plan, r.plan)
  {
    match event
    case Routed(token, actions, now) => ExecuteOnlyGoes(b, token, actions, now);
    case CallCancel(id) =>
    case CallSchedule(at, generation, kind) =>
    case Poll(now, react) =>
      if r != b {
        var d :| b.plan.IsEarliest(d) && d.at <= now && AfterDue(b, d, react, now, r);
        if d.owner.Transaction? && d.id in IdsOf(b.armed, b.armed.Keys) {
          var key :| key in b.armed && b.armed[key].id == d.id && r == b.Fire(key, react, now);
          FireOnlyGoes(b, key, react, now);
        }
      }
  }

  lemma {:induction false} RunOnlyGoes(books: seq<Book>, events: seq<Event>, i: nat, j: nat)
    requires IsRun(books, events) && i <= j < |books|
    ensures OnlyGoes(books[i].plan, books[j].plan)
    decreases j - i
  {
    hide Step;
    if i < j {
      StepOnlyGoes(books[i], events[i], books[i + 1]);
      RunOnlyGoes(books, events, i + 1, j);
      OnlyGoesTransitive(books[i].plan, books[i + 1].plan, books[j].plan);
    }
  }

  /** Event `i` scheduled a deadline of the call itself and returned this identifier. */
  predicate HandsOut(books: seq<Book>, events: seq<Event>, i: nat, id: nat)
    requires |books| == |events| + 1
  {
    && i < |events| && events[i].CallSchedule?
    && books[i].plan.ScheduleError(events[i].generation).None? && id == books[i].plan.nextId
  }

  /** The call cancels only what its own scheduling handed out earlier. */
  ghost predicate CancelsOwn(books: seq<Book>, events: seq<Event>)
    requires |books| == |events| + 1
  {
    forall j | 0 <= j < |events| && events[j].CallCancel? ::
      exists i | 0 <= i < j :: HandsOut(books, events, i, events[j].id)
  }

  /** Identifiers that this call's scheduler handed to the call are safe to cancel at any later time. */
  lemma OwnCancelsAreHarmless(books: seq<Book>, events: seq<Event>)
    requires IsRun(books, events) && CancelsOwn(books, events)
    ensures AllHarmless(books, events)
  {
    forall j | 0 <= j < |events|
      ensures Harmless(books[j], events[j])
    {
      if events[j].CallCancel? {
        var i :| 0 <= i < j && HandsOut(books, events, i, events[j].id);
        assert Step(books[i], events[i], books[i + 1]);
        RunOnlyGoes(books, events, i + 1, j);
      }
    }
  }

  /** A call's first own deadline gets identifier 1, whatever the call. */
  lemma FirstOwnDeadline(maximum: nat) returns (books: seq<Book>, events: seq<Event>)
    requires 1 <= maximum <= MAX_DEADLINES
    ensures IsRun(books, events) && books[0] == NewBook(maximum) && HandsOut(books, events, 0, 1)
  {
    var empty := NewBook(maximum);
    events := [CallSchedule(0, 1, 1)];
    books := [empty, empty.(plan := empty.plan.Schedule(0, DeadlineOwner.Call, 1, 1))];
  }

  /**
   * Every call's scheduler starts counting at 1, so the identifier that another
   * call was handed names this call's transaction timer, and cancelling it here
   * breaks the agreement.
   */
  lemma ForeignCancelBreaksAgreement(maximum: nat, token: Token) returns (books: seq<Book>, events: seq<Event>)
    requires 1 <= maximum <= MAX_DEADLINES && token.generation != 0
    ensures IsRun(books, events) && books[0] == NewBook(maximum)
    ensures |events| == 2 && events[1] == CallCancel(1) && books[1].InStep() && !books[2].InStep()
  {
    hide Book.InStep, Book.Execute, TransactionIds;
    var empty, actions := NewBook(maximum), [Arm(Client(Retransmit), 0)];
    var armed := empty.Execute(token, actions, 0).0;
    events := [Routed(token, actions, 0), CallCancel(1)];
    books := [empty, armed, armed.(plan := armed.plan.Cancel(1))];
    NewBookIsInStep(maximum);
    ExecuteKeepsInStep(empty, token, actions, 0);
    FirstTimer(maximum, token);
    CallCancelKeepsInStep(armed, 1);
  }

  lemma NewBookIsInStep(maximum: nat)
    requires 1 <= maximum <= MAX_DEADLINES
    ensures NewBook(maximum).InStep()
  {
  }

  lemma FirstTimer(maximum: nat, token: Token)
    requires 1 <= maximum <= MAX_DEADLINES && token.generation != 0
    ensures 1 in TransactionIds(NewBook(maximum).Execute(token, [Arm(Client(Retransmit), 0)], 0).0.plan)
  {
    var empty, timer := NewBook(maximum), Client(Retransmit);
    DropOne(empty, KeyOf(token, timer));
    var armed := empty.Apply(token, Arm(timer, 0), 0).0;
    assert armed == empty.Add(token, timer, 0);
    assert empty.Execute(token, [Arm(timer, 0)], 0) == armed.Execute(token, [], 0);
  }

  // ---------------------------------------------------------------------------
  // The table edited in place
  // ---------------------------------------------------------------------------

  /** `Vec::swap_remove`: the last element takes the removed one's place. */
  function SwapRemove<T>(s: seq<T>, index: nat): (r: seq<T>)
    requires index < |s|
    ensures |r| == |s| - 1
    ensures forall j | 0 <= j < |r| :: r[j] == if j == index then s[|s| - 1] else s[j]
  {
    s[index := s[|s| - 1]][..|s| - 1]
  }

  /** The vector lists each armed timer once, in some order. */
  ghost predicate Lists(timers: seq<TimerEntry>, armed: map<TimerKey, TimerEntry>) {
    && (forall i | 0 <= i < |timers| :: timers[i].Key() in armed && armed[timers[i].Key()] == timers[i])
    && (forall i, j | 0 <= i < j < |timers| :: timers[i].Key() != timers[j].Key())
    && (forall k | k in armed :: armed[k] in timers && armed[k].Key() == k)
  }

  lemma SwapRemoveKeepsPrefix<T>(s: seq<T>, index: nat)
    requires index < |s|
    ensures SwapRemove(s, index)[..index] == s[..index]
  {
  }

  lemma SwapRemoveLists(timers: seq<TimerEntry>, armed: map<TimerKey, TimerEntry>, index: nat)
    requires Lists(timers, armed) && index < |timers|
    ensures timers[index].Key() in armed && armed[timers[index].Key()] == timers[index]
    ensures Lists(SwapRemove(timers, index), armed - {timers[index].Key()})
  {
    var r, rest := SwapRemove(timers, index), armed - {timers[index].Key()};
    forall k | k in rest ensures rest[k] in r {
      var i :| 0 <= i < |timers| && timers[i] == armed[k];
      assert i != index;
      assert r[if i == |timers| - 1 then index else i] == armed[k];
    }
  }

  lemma PushLists(timers: seq<TimerEntry>, armed: map<TimerKey, TimerEntry>, entry: TimerEntry)
    requires Lists(timers, armed) && entry.Key() !in armed
    ensures Lists(timers + [entry], armed[entry.Key() := entry])
  {
    var r, more := timers + [entry], armed[entry.Key() := entry];
    assert r[|timers|] == entry;
    forall k | k in more ensures more[k] in r && more[k].Key() == k {
      if k != entry.Key() {
        assert armed[k] in timers;
      }
    }
  }

  lemma {:induction false} ListedCount(timers: seq<TimerEntry>, armed: map<TimerKey, TimerEntry>)
    requires Lists(timers, armed)
    ensures |timers| == |armed|
    decreases |timers|
  {
    if timers == [] {
      assert armed.Keys == {};
    } else {
      var key := timers[0].Key();
      SwapRemoveLists(timers, armed, 0);
      ListedCount(SwapRemove(timers, 0), armed - {key});
      assert (armed - {key}).Keys == armed.Keys - {key};
    }
  }

  predicate NoneOf(timers: seq<TimerEntry>, token: Token) {
    forall e | e in timers :: e.token != token
  }

  /** `b` is what is left of `before` once the timers `gone`, all of `token`, are removed. */
  ghost predicate Swept(before: Book, b: Book, gone: set<TimerKey>, token: Token) {
    b == before.Drop(gone) && gone <= KeysOfToken(before.armed, token)
  }

  lemma NothingSwept(b: Book, token: Token)
    ensures Swept(b, b, {}, token)
  {
    assert IdsOf(b.armed, {}) == {};
  }

  lemma SweepOne(before: Book, b: Book, gone: set<TimerKey>, token: Token, key: TimerKey)
    requires Swept(before, b, gone, token) && key in b.armed && key.token == token
    ensures Swept(before, b.Drop({key}), gone + {key}, token)
  {
    assert IdsOf(b.armed, {key}) == {before.armed[key].id};
    assert IdsOf(before.armed, gone + {key}) == IdsOf(before.armed, gone) + {before.armed[key].id};
  }

  class TimerTable {
    var timers: seq<TimerEntry>
    ghost var armed: map<TimerKey, TimerEntry>

    ghost predicate Valid()
      reads this
    {
      Lists(timers, armed)
    }

    ghost function AsBook(deadlines: DeadlineScheduler): Book
      reads this, deadlines
    {
      Book(armed, deadlines.plan)
    }

    constructor ()
      ensures Valid() && armed == map[]
    {
      timers, armed := [], map[];
    }

    method Position(key: TimerKey) returns (index: Option<nat>)
      requires Valid()
      ensures index.None? <==> key !in armed
      ensures index.Some? ==> index.value < |timers| && timers[index.value].Key() == key
    {
      for i := 0 to |timers|
        invariant forall j | 0 <= j < i :: timers[j].Key() != key
      {
        if timers[i].Key() == key {
          return Some(i);
        }
      }
      index := None;
    }

    method PositionOfId(id: nat) returns (index: Option<nat>)
      ensures index.None? <==> forall j | 0 <= j < |timers| :: timers[j].id != id
      ensures index.Some? ==> index.value < |timers| && timers[index.value].id == id
    {
      for i := 0 to |timers|
        invariant forall j | 0 <= j < i :: timers[j].id != id
      {
        if timers[i].id == id {
          return Some(i);
        }
      }
      index := None;
    }

    /** Takes one entry out of the table and its deadline out of the scheduler. */
    method RemoveAt(index: nat, deadlines: DeadlineScheduler)
      requires Valid() && deadlines.Valid() && index < |timers|
      modifies this, deadlines
      ensures Valid() && deadlines.Valid()
      ensures |timers| == |old(timers)| - 1 && timers[..index] == old(timers)[..index]
      ensures AsBook(deadlines) == old(AsBook(deadlines)).Drop({old(timers)[index].Key()})
    {
      hide Lists, SwapRemove, Book.Drop, DeadlineScheduler.Valid;
      var entry := timers[index];
      SwapRemoveLists(timers, armed, index);
      SwapRemoveKeepsPrefix(timers, index);
      DropOne(AsBook(deadlines), entry.Key());
      timers, armed := SwapRemove(timers, index), armed - {entry.Key()};
      var _ := deadlines.Cancel(entry.id);
    }

    /** `cancel_client_timer` and `cancel_server_timer`. */
    method CancelTimer(token: Token, timer: TransactionTimer, deadlines: DeadlineScheduler)
      requires Valid() && deadlines.Valid()
      modifies this, deadlines
      ensures Valid() && deadlines.Valid()
      ensures AsBook(deadlines) == old(AsBook(deadlines)).Drop({KeyOf(token, timer)})
    {
      var index := Position(KeyOf(token, timer));
      if index.Some? {
        RemoveAt(index.value, deadlines);
      } else {
        DropOne(AsBook(deadlines), KeyOf(token, timer));
      }
    }

    /** `cancel_token`: the index does not move past the element swapped into its place. */
    method CancelToken(token: Token, deadlines: DeadlineScheduler)
      requires Valid() && deadlines.Valid()
      modifies this, deadlines
      ensures Valid() && deadlines.Valid()
      ensures AsBook(deadlines) == old(AsBook(deadlines)).Drop(KeysOfToken(old(armed), token))
    {
      ghost var gone: set<TimerKey> := {};
      ghost var before := AsBook(deadlines);
      NothingSwept(before, token);
      var index: nat := 0;
      while index < |timers|
        invariant Valid() && deadlines.Valid() && index <= |timers|
        invariant Swept(before, AsBook(deadlines), gone, token)
        invariant NoneOf(timers[..index], token)
        decreases |timers| - index
      {
        index, gone := SweepAt(index, token, deadlines, before, gone);
      }
      assert timers[..|timers|] == timers;
      SweptAll(before.armed, gone, token);
    }

    method SweepAt(index: nat, token: Token, deadlines: DeadlineScheduler,
                   ghost before: Book, ghost gone: set<TimerKey>)
      returns (next: nat, ghost more: set<TimerKey>)
      requires Valid() && deadlines.Valid() && index < |timers| && NoneOf(timers[..index], token)
      requires Swept(before, AsBook(deadlines), gone, token)
      modifies this, deadlines
      ensures Valid() && deadlines.Valid() && next <= |timers| && NoneOf(timers[..next], token)
      ensures Swept(before, AsBook(deadlines), more, token)
      ensures |timers| - next < |old(timers)| - index
    {
      hide Swept, Book.Drop;
      if timers[index].token == token {
        ghost var key := timers[index].Key();
        SweepOne(before, AsBook(deadlines), gone, token, key);
        RemoveAt(index, deadlines);
        next, more := index, gone + {key};
      } else {
        assert timers[..index + 1] == timers[..index] + [timers[index]];
        next, more := index + 1, gone;
      }
    }

    /** When no listed entry has the token left, everything of the token is gone. */
    lemma SweptAll(before: map<TimerKey, TimerEntry>, gone: set<TimerKey>, token: Token)
      requires Valid() && armed == before - gone && gone <= KeysOfToken(before, token)
      requires NoneOf(timers, token)
      ensures gone == KeysOfToken(before, token)
    {
      forall k | k in armed ensures k.token != token {
        assert armed[k] in timers;
      }
    }

    /** The scheduling arm shared by the client and server action loops. */
    method ArmTimer(token: Token, timer: TransactionTimer, after: nat, now: nat, deadlines: DeadlineScheduler)
      returns (error: Option<SignalingError>)
      requires Valid() && deadlines.Valid()
      modifies this, deadlines
      ensures Valid() && deadlines.Valid()
      ensures (AsBook(deadlines), error) == old(AsBook(deadlines)).Apply(token, Arm(timer, after), now)
    {
      CancelTimer(token, timer, deadlines);
      error := Enter(token, timer, after, now, deadlines);
    }

    /** Schedules a deadline and pushes its entry, or does neither. */
    method Enter(token: Token, timer: TransactionTimer, after: nat, now: nat, deadlines: DeadlineScheduler)
      returns (error: Option<SignalingError>)
      requires Valid() && deadlines.Valid() && KeyOf(token, timer) !in armed
      modifies this, deadlines
      ensures Valid() && deadlines.Valid()
      ensures (AsBook(deadlines), error) == old(AsBook(deadlines)).ArmFresh(token, timer, after, now)
    {
      hide Lists;
      ListedCount(timers, armed);
      if |timers| >= MAX_TRANSACTION_TIMERS {
        return Some(TimerCapacity);
      }
      if now + after > DURATION_MAX {
        return Some(TimeOverflow);
      }
      var scheduled := deadlines.Schedule(now + after, DeadlineOwner.Transaction, token.generation, KindOf(timer));
      match scheduled
      case Err(refusal) =>
        error := Some(DeadlineRefused(refusal));
      case Ok(id) =>
        var entry := TimerEntry(id, token, timer);
        PushLists(timers, armed, entry);
        timers, armed := timers + [entry], armed[entry.Key() := entry];
        error := None;
    }

    /** One arm of the action loops. */
    method ApplyAction(token: Token, action: TimerAction, now: nat, deadlines: DeadlineScheduler)
      returns (error: Option<SignalingError>)
      requires Valid() && deadlines.Valid()
      modifies this, deadlines
      ensures Valid() && deadlines.Valid()
      ensures (AsBook(deadlines), error) == old(AsBook(deadlines)).Apply(token, action, now)
    {
      error := None;
      match action
      case Send(ok) =>
        error := if ok then None else Some(SendFailed);
      case Deliver =>
      case Disarm(timer) =>
        CancelTimer(token, timer, deadlines);
      case Terminate(ok) =>
        CancelToken(token, deadlines);
        error := if ok then None else Some(TransactionFailed);
      case Arm(timer, after) =>
        error := ArmTimer(token, timer, after, now, deadlines);
    }

    /** `execute_client_actions` and `execute_server_actions`. */
    method ExecuteActions(token: Token, actions: seq<TimerAction>, now: nat, deadlines: DeadlineScheduler)
      returns (r: Result<bool, SignalingError>)
      requires Valid() && deadlines.Valid()
      modifies this, deadlines
      ensures Valid() && deadlines.Valid()
      ensures AsBook(deadlines) == old(AsBook(deadlines)).Execute(token, actions, now).0
      ensures r == match old(AsBook(deadlines)).Execute(token, actions, now).1
                   case Some(error) => Err(error)
                   case None => Ok(Deliver in actions)
    {
      ghost var before := AsBook(deadlines);
      var deliver := false;
      for i := 0 to |actions|
        invariant Valid() && deadlines.Valid()
        invariant before.Execute(token, actions, now) == AsBook(deadlines).Execute(token, actions[i..], now)
        invariant deliver == (Deliver in actions[..i])
      {
        assert actions[i..][1..] == actions[i + 1..];
        assert actions[..i + 1] == actions[..i] + [actions[i]];
        var error := ApplyAction(token, actions[i], now, deadlines);
        deliver := deliver || actions[i].Deliver?;
        if error.Some? {
          return Err(error.value);
        }
      }
      assert actions[..|actions|] == actions;
      r := Ok(deliver);
    }

    /**
     * `on_deadline` for a deadline the scheduler has just handed out: `fired` is
     * the timer that has this identifier; without one nothing happens.
     */
    method OnDeadline(id: nat, react: Reaction, now: nat, deadlines: DeadlineScheduler)
      returns (r: Result<bool, SignalingError>, ghost fired: Option<TimerKey>)
      requires Valid() && deadlines.Valid()
      modifies this, deadlines
      ensures Valid() && deadlines.Valid()
      ensures fired.None? ==>
                && id !in IdsOf(old(armed), old(armed).Keys)
                && r == Ok(false) && AsBook(deadlines) == old(AsBook(deadlines))
      ensures fired.Some? ==>
                && fired.value in old(armed) && old(armed)[fired.value].id == id
                && (AsBook(deadlines), r) == old(AsBook(deadlines)).Answer(fired.value, react, now)
    {
      var index := PositionOfId(id);
      if index.None? {
        forall k | k in armed ensures armed[k].id != id {
          assert armed[k] in timers;
        }
        return Ok(false), None;
      }
      var entry := timers[index.value];
      fired := Some(entry.Key());
      SwapRemoveLists(timers, armed, index.value);
      timers, armed := SwapRemove(timers, index.value), armed - {entry.Key()};
      var reaction := react(entry);
      if reaction.None? {
        return Err(TransactionFailed), fired;
      }
      var done := ExecuteActions(entry.token, reaction.value, now, deadlines);
      r := if done.Err? then Err(done.error) else Ok(entry.timer == Client(RequestTimeout));
    }

    /** One iteration of `process_due_deadlines` as far as timers go: poll, then `on_deadline` for a transaction. */
    method PollDeadline(now: nat, react: Reaction, deadlines: DeadlineScheduler)
      returns (due: Option<DueDeadline>, r: Result<bool, SignalingError>)
      requires Valid() && deadlines.Valid()
      modifies this, deadlines
      ensures Valid() && deadlines.Valid()
      ensures Step(old(AsBook(deadlines)), Poll(now, react), AsBook(deadlines))
      ensures due.None? <==> old(AsBook(deadlines)).plan.NothingDue(now)
      ensures due.None? ==> AsBook(deadlines) == old(AsBook(deadlines))
      ensures due.Some? ==> old(AsBook(deadlines)).plan.IsEarliest(due.value) && due.value.at <= now
      ensures due.None? || !due.value.owner.Transaction? ==> r == Ok(false)
      ensures due.Some? && due.value.owner.Transaction? && r.Ok? && old(AsBook(deadlines)).InStep() ==>
                (r.value <==> due.value.kind == REQUEST_TIMEOUT_KIND)
    {
      ghost var before := AsBook(deadlines);
      r := Ok(false);
      due := deadlines.Poll(now);
      if due.None? {
        return;
      }
      if due.value.owner.Transaction? {
        ghost var fired;
        r, fired := OnDeadline(due.value.id, react, now, deadlines);
        if fired.Some? {
          AnswerIsFire(before, fired.value, react, now);
        }
        if before.InStep() {
          var key := DeadlineHasTimer(before, due.value.id);
          TimeoutIsReported(before, due.value, fired.value, react, now);
        }
      }
      assert AfterDue(before, due.value, react, now, AsBook(deadlines));
    }

    /**
     * The bounded loop of `process_due_deadlines`. Every deadline taken out is
     * one poll of a run; the loop ends on an error, when the call is finished,
     * after 64 deadlines, or because nothing is due any more.
     */
    method ProcessDueDeadlines(now: nat, react: Reaction, handle: Handler, deadlines: DeadlineScheduler)
      returns (processed: nat, end: CycleEnd, ghost books: seq<Book>, ghost events: seq<Event>,
               ghost records: seq<Record>)
      requires Valid() && deadlines.Valid()
      modifies this, deadlines
      ensures Valid() && deadlines.Valid() && processed == |records| <= MAX_DUE_DEADLINES_PER_CYCLE
      ensures PollRun(old(AsBook(deadlines)), AsBook(deadlines), books, events, now, react)
      ensures end.Drained? ==> AsBook(deadlines).plan.NothingDue(now) && processed == |events| - 1
      ensures !end.Drained? ==> processed == |events|
      ensures Taken(books, records)
      ensures forall i | 0 <= i < processed ::
                EndAfter(records[i].due, records[i].answer, handle) ==
                if i + 1 < processed || end.Drained? || end.Full? then Going else end
      ensures end.Full? ==> processed == MAX_DUE_DEADLINES_PER_CYCLE
      ensures !end.Going?
    {
      ghost var first := AsBook(deadlines);
      processed, end, books, events, records := 0, Going, [first], [], [];
      while processed < MAX_DUE_DEADLINES_PER_CYCLE
        invariant Valid() && deadlines.Valid() && processed == |events| == |records| <= MAX_DUE_DEADLINES_PER_CYCLE
        invariant PollRun(first, AsBook(deadlines), books, events, now, react) && Taken(books, records)
        invariant forall i | 0 <= i < processed :: EndAfter(records[i].due, records[i].answer, handle).Going?
      {
        ghost var record;
        ghost var before := books;
        end, books, events, record := ProcessOne(now, react, handle, deadlines, first, books, events);
        if end.Drained? {
          TakenStays(before, books, records);
          return;
        }
        TakenGrows(before, books, records, record.value);
        processed, records := processed + 1, records + [record.value];
        if !end.Going? {
          return;
        }
      }
      end := Full;
    }

    method ProcessOne(now: nat, react: Reaction, handle: Handler, deadlines: DeadlineScheduler,
                      ghost first: Book, ghost books: seq<Book>, ghost events: seq<Event>)
      returns (end: CycleEnd, ghost more: seq<Book>, ghost later: seq<Event>, ghost record: Option<Record>)
      requires Valid() && deadlines.Valid() && PollRun(first, AsBook(deadlines), books, events, now, react)
      modifies this, deadlines
      ensures Valid() && deadlines.Valid() && |later| == |events| + 1
      ensures PollRun(first, AsBook(deadlines), more, later, now, react) && more == books + [AsBook(deadlines)]
      ensures end.Drained? <==> record.None?
      ensures end.Drained? ==> AsBook(deadlines).plan.NothingDue(now)
      ensures record.Some? ==>
                && end == EndAfter(record.value.due, record.value.answer, handle)
                && old(AsBook(deadlines)).plan.IsEarliest(record.value.due)
    {
      ghost var before := AsBook(deadlines);
      var due, r := PollDeadline(now, react, deadlines);
      PollRunGrows(first, before, AsBook(deadlines), books, events, now, react);
      more, later := books + [AsBook(deadlines)], events + [Poll(now, react)];
      if due.None? {
        return Drained, more, later, None;
      }
      end, record := EndAfter(due.value, r, handle), Some(Record(due.value, r));
    }
  }

  /** A deadline that was taken out, and what came of it. */
  datatype Record = Record(due: DueDeadline, answer: Result<bool, SignalingError>)

  /** Each record is of the deadline that was then the earliest. */
  ghost predicate Taken(books: seq<Book>, records: seq<Record>) {
    && |records| <= |books|
    && forall i | 0 <= i < |records| :: books[i].plan.IsEarliest(records[i].due)
  }

  lemma TakenStays(books: seq<Book>, more: seq<Book>, records: seq<Record>)
    requires Taken(books, records) && |books| + 1 == |more| && more[..|books|] == books
    ensures Taken(more, records)
  {
    forall i | 0 <= i < |records| ensures more[i].plan.IsEarliest(records[i].due) {
      assert more[i] == more[..|books|][i];
      assert books[i].plan.IsEarliest(records[i].due);
    }
  }

  lemma TakenGrows(books: seq<Book>, more: seq<Book>, records: seq<Record>, record: Record)
    requires Taken(books, records) && |books| + 1 == |more| && more[..|books|] == books
    requires |records| < |books| && books[|records|].plan.IsEarliest(record.due)
    ensures Taken(more, records + [record])
  {
    hide Plan.IsEarliest;
    forall i | 0 <= i < |records| + 1 ensures more[i].plan.IsEarliest((records + [record])[i].due) {
      assert more[i] == more[..|books|][i];
      if i < |records| {
        assert books[i].plan.IsEarliest(records[i].due);
      }
    }
  }

  /** How the loop goes on after a deadline, case by case. */
  lemma CycleEndsExactly(due: DueDeadline, r: Result<bool, SignalingError>, handle: Handler)
    ensures var end := EndAfter(due, r, handle);
            var known := due.owner.Call? && due.kind in {1, 2, 3, 4, 5};
            && (end == UnsupportedOwner(due.owner) <==> due.owner.Dialog? || due.owner.Media? || due.owner.Transport?)
            && (end == UnknownKind(due.kind) <==> due.owner.Call? && !known)
            && (end.SignalingFailed? <==> due.owner.Transaction? && r.Err?)
            && (end.SignalingFailed? ==> end.error == r.error)
            && (end == CallFinished <==> known && handle(due) == Finished)
            && (end == CallFailed <==>
                  (known || (due.owner.Transaction? && r == Ok(true))) && handle(due) == Failed)
  {
  }

  const MAX_DUE_DEADLINES_PER_CYCLE: nat := 64

  /** What the call does with a due deadline, or with a transaction that timed out. */
  datatype CallAnswer = Handled | Finished | Failed

  type Handler = DueDeadline -> CallAnswer

  datatype CycleEnd =
    | Going | Drained | Full | CallFinished
    | SignalingFailed(error: SignalingError) | UnsupportedOwner(owner: DeadlineOwner) | UnknownKind(kind: nat)
    | CallFailed

  /** How one due deadline leaves the loop; a transaction never ends it by finishing the call. */
  function EndAfter(due: DueDeadline, r: Result<bool, SignalingError>, handle: Handler): (end: CycleEnd)
    ensures !end.Drained? && !end.Full?
    ensures end.Going? && !due.owner.Transaction? ==> due.owner.Call? && 1 <= due.kind <= 5
  {
    if due.owner.Transaction? then
      if r.Err? then SignalingFailed(r.error)
      else if r.value && handle(due).Failed? then CallFailed
      else Going
    else if !due.owner.Call? then UnsupportedOwner(due.owner)
    else if !(1 <= due.kind <= 5) then UnknownKind(due.kind)
    else match handle(due)
      case Failed => CallFailed
      case Finished => CallFinished
      case Handled => Going
  }

  /** A run of polls at one time from one book to another. */
  ghost predicate PollRun(first: Book, last: Book, books: seq<Book>, events: seq<Event>, now: nat, react: Reaction) {
    && IsRun(books, events) && books[0] == first && books[|books| - 1] == last
    && forall i | 0 <= i < |events| :: events[i] == Poll(now, react)
  }

  lemma PollRunGrows(first: Book, last: Book, r: Book, books: seq<Book>, events: seq<Event>, now: nat, react: Reaction)
    requires PollRun(first, last, books, events, now, react) && Step(last, Poll(now, react), r)
    ensures PollRun(first, r, books + [r], events + [Poll(now, react)], now, react)
  {
    hide Step;
    var more, later := books + [r], events + [Poll(now, react)];
    forall i | 0 <= i < |later| ensures Step(more[i], later[i], more[i + 1]) {
      if i < |events| {
        assert more[i] == books[i] && more[i + 1] == books[i + 1] && later[i] == events[i];
      }
    }
  }

  /** A cycle of due deadlines never breaks the agreement. */
  lemma PollRunStaysInStep(first: Book, last: Book, books: seq<Book>, events: seq<Event>, now: nat, react: Reaction)
    requires PollRun(first, last, books, events, now, react) && first.InStep()
    ensures last.InStep()
  {
    HarmlessRunStaysInStep(books, events, |books| - 1);
  }

  /** Answering for a timer whose deadline was polled is firing it. */
  lemma AnswerIsFire(b: Book, key: TimerKey, react: Reaction, now: nat)
    requires key in b.armed
    ensures b.(plan := b.plan.Cancel(b.armed[key].id)).Answer(key, react, now).0 == b.Fire(key, react, now)
  {
    DropOne(b, key);
  }
}
