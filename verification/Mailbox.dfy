/**
 * The call thread's mailbox and wake-up protocol (src/call/execution/handle.rs,
 * reactor.rs and thread.rs), as a system of atomic steps.
 *
 * Any number of senders reserve a slot, push into a bounded channel and write a
 * wake byte. One owner drains the wake stream, drains the mailbox in batches and
 * may block without a timeout. A run is any interleaving of these steps.
 */
module Mailbox {
  const MAX_CALL_COMMANDS_PER_TURN: nat := 64
  const WAKE_DRAIN_BYTES: nat := 256

  datatype Message = Shutdown | Ordinary(id: nat)

  /** Where one `try_send` call stands. */
  datatype SenderPc =
    | Idle
    | Reserved(message: Message)          // slot counted, channel not yet tried
    | Sent                                // in the channel, wake byte not yet written
    | Refused(message: Message, full: bool) // channel said no, slot not yet given back

  /** Where `run_call` stands. */
  datatype OwnerPc =
    | Turn                                   // deadlines and sockets, before the mailbox
    | Draining(processed: nat)               // about to test the batch loop's guard
    | Received(processed: nat, message: Message) // popped, slot not yet released
    | Deciding(processed: nat)               // after the batch
    | Waiting(forever: bool)                 // inside poll, with or without a timeout
    | Waking                                 // poll reported the wake stream: reading it
    | Gone                                   // thread ended, receiver dropped

  /** Shared state, the owner's locals, and the history of accepted messages. */
  datatype System = System(
    capacity: nat,
    wakeLimit: nat,
    depth: nat,
    queue: seq<Message>,
    wake: nat,
    wakeFailures: nat,
    senders: map<nat, SenderPc>,
    owner: OwnerPc,
    mailboxOpen: bool,
    backlog: bool,
    readyCommand: bool,
    accepted: seq<Message>,
    delivered: seq<Message>,
    abandoned: seq<Message>)
  {
    function Limit(message: Message): nat {
      if message.Shutdown? then capacity else if capacity == 0 then 0 else capacity - 1
    }

    function InHand(): seq<Message> {
      if owner.Received? then [owner.message] else []
    }
  }

  function Initial(capacity: nat, wakeLimit: nat): System {
    System(capacity, wakeLimit, 0, [], 0, 0, map[0 := Idle], Turn, true, true, false, [], [], [])
  }

  datatype Step =
    // senders
    | CloneHandle(id: nat)
    | DropHandle(id: nat)
    | Reserve(id: nat, message: Message)
    | TryChannel(id: nat)
    | GiveBack(id: nat)
    | Notify(id: nat, works: bool)
    // owner
    | StartTurn
    | TryReceive
    | ReleaseSlot
    | LeaveBatch
    | Decide(hasDeadline: bool)
    | PollWake
    | PollOther
    | ReadWake(bytes: nat)
    | WakeDrained
    | Exit
  {
    predicate OfSender() {
      CloneHandle? || DropHandle? || Reserve? || TryChannel? || GiveBack? || Notify?
    }
  }

  predicate Enabled(s: System, step: Step) {
    match step
    case CloneHandle(id) => s.senders != map[] && id !in s.senders
    case DropHandle(id) => id in s.senders && s.senders[id].Idle?
    case Reserve(id, _) => id in s.senders && s.senders[id].Idle?
    case TryChannel(id) => id in s.senders && s.senders[id].Reserved?
    case GiveBack(id) => id in s.senders && s.senders[id].Refused? && s.depth > 0
    case Notify(id, _) => id in s.senders && s.senders[id].Sent?
    case StartTurn => s.owner.Turn?
    case TryReceive =>
      s.owner.Draining? && s.mailboxOpen && s.backlog && s.owner.processed < MAX_CALL_COMMANDS_PER_TURN
    case ReleaseSlot => s.owner.Received? && s.depth > 0
    case LeaveBatch =>
      s.owner.Draining? && !(s.mailboxOpen && s.backlog && s.owner.processed < MAX_CALL_COMMANDS_PER_TURN)
    case Decide(_) => s.owner.Deciding?
    case PollWake => s.owner.Waiting? && (s.wake > 0 || s.senders == map[])
    case PollOther => s.owner.Waiting?
    case ReadWake(bytes) => s.owner.Waking? && 0 < bytes <= s.wake && bytes <= WAKE_DRAIN_BYTES
    case WakeDrained => s.owner.Waking? && s.wake == 0
    case Exit => !s.owner.Gone? && !s.owner.Received?
  }

  function Do(s: System, step: Step): System
    requires Enabled(s, step)
  {
    match step
    case CloneHandle(id) => s.(senders := s.senders[id := Idle])
    case DropHandle(id) => s.(senders := s.senders - {id})
    case Reserve(id, message) =>
      if s.depth < s.Limit(message) then s.(depth := s.depth + 1, senders := s.senders[id := Reserved(message)])
      else s
    case TryChannel(id) => DoTryChannel(s, id)
    case GiveBack(id) => s.(depth := s.depth - 1, senders := s.senders[id := Idle])
    case Notify(id, works) =>
      s.(senders := s.senders[id := Idle],
         wake := if works && s.wake < s.wakeLimit then s.wake + 1 else s.wake,
         wakeFailures := if works then s.wakeFailures else s.wakeFailures + 1)
    case StartTurn => s.(backlog := s.backlog || s.readyCommand, owner := Draining(0))
    case TryReceive => DoTryReceive(s)
    case ReleaseSlot =>
      s.(depth := s.depth - 1, delivered := s.delivered + [s.owner.message], owner := Draining(s.owner.processed + 1))
    case LeaveBatch => s.(owner := Deciding(s.owner.processed))
    case Decide(hasDeadline) =>
      var backlog := s.backlog || s.owner.processed == MAX_CALL_COMMANDS_PER_TURN;
      s.(backlog := backlog, owner := Waiting(!backlog && !hasDeadline))
    case PollWake => s.(owner := Waking)
    case PollOther => s.(owner := Turn, readyCommand := false)
    case ReadWake(bytes) => s.(wake := s.wake - bytes)
    case WakeDrained => s.(owner := Turn, readyCommand := true)
    case Exit => s.(owner := Gone, abandoned := s.abandoned + s.queue, queue := [])
  }

  function DoTryChannel(s: System, id: nat): System
    requires Enabled(s, TryChannel(id))
  {
    var message := s.senders[id].message;
    if s.owner.Gone? then s.(senders := s.senders[id := Refused(message, false)])
    else if |s.queue| >= s.capacity then s.(senders := s.senders[id := Refused(message, true)])
    else s.(senders := s.senders[id := Sent], queue := s.queue + [message], accepted := s.accepted + [message])
  }

  function DoTryReceive(s: System): System
    requires Enabled(s, TryReceive)
  {
    if s.queue != [] then s.(owner := Received(s.owner.processed, s.queue[0]), queue := s.queue[1..])
    else if s.senders != map[] then s.(backlog := false, owner := Deciding(s.owner.processed))
    else s.(mailboxOpen := false, backlog := false)
  }

  // ---------------------------------------------------------------------------
  // Counting slots
  // ---------------------------------------------------------------------------

  /** A sender that occupies a slot without a message in the channel. */
  predicate Holds(pc: SenderPc) { pc.Reserved? || pc.Refused? }

  predicate HoldsOrdinary(pc: SenderPc) { Holds(pc) && pc.message.Ordinary? }

  function Where(senders: map<nat, SenderPc>, p: SenderPc -> bool): set<nat> {
    set id | id in senders && p(senders[id])
  }

  lemma WhereRemoved(senders: map<nat, SenderPc>, id: nat, p: SenderPc -> bool)
    ensures |Where(senders, p)| == |Where(senders - {id}, p)| + (if id in senders && p(senders[id]) then 1 else 0)
  {
    var rest := Where(senders - {id}, p);
    assert Where(senders, p) == if id in senders && p(senders[id]) then rest + {id} else rest;
  }

  lemma WhereUpdated(senders: map<nat, SenderPc>, id: nat, pc: SenderPc, p: SenderPc -> bool)
    ensures |Where(senders[id := pc], p)| - (if p(pc) then 1 else 0)
         == |Where(senders, p)| - (if id in senders && p(senders[id]) then 1 else 0)
  {
    WhereRemoved(senders, id, p);
    WhereRemoved(senders[id := pc], id, p);
    assert senders[id := pc] - {id} == senders - {id};
  }

  function Ordinaries(messages: seq<Message>): nat {
    if messages == [] then 0 else (if messages[0].Ordinary? then 1 else 0) + Ordinaries(messages[1..])
  }

  lemma {:induction false} OrdinariesAppend(a: seq<Message>, b: seq<Message>)
    ensures Ordinaries(a + b) == Ordinaries(a) + Ordinaries(b)
  {
    if a == [] {
      assert a + b == b;
    } else {
      assert (a + b)[1..] == a[1..] + b;
      OrdinariesAppend(a[1..], b);
    }
  }

  lemma {:induction false} OrdinariesBound(messages: seq<Message>)
    ensures Ordinaries(messages) <= |messages|
    ensures Ordinaries(messages) < |messages| <==> Shutdown in messages
  {
    if messages != [] {
      OrdinariesBound(messages[1..]);
    }
  }

  /** Every counted slot is a holding sender, a queued, an in-hand or an abandoned message. */
  ghost predicate SlotsCounted(s: System) {
    s.depth == |Where(s.senders, Holds)| + |s.queue| + |s.InHand()| + |s.abandoned|
  }

  function OrdinarySlots(s: System): nat {
    |Where(s.senders, HoldsOrdinary)| + Ordinaries(s.queue) + Ordinaries(s.InHand()) + Ordinaries(s.abandoned)
  }

  lemma {:induction false} OneMessage(m: Message)
    ensures Ordinaries([m]) == if m.Ordinary? then 1 else 0
  {
    assert [m][1..] == [];
  }

  ghost predicate Counted(s: System) {
    && s.capacity >= 2
    && SlotsCounted(s)
    && s.depth <= s.capacity
    && OrdinarySlots(s) <= s.capacity - 1
  }

  /** How a sender's move changes the two counts. */
  lemma SenderMoves(s: System, id: nat, pc: SenderPc)
    ensures var n := s.(senders := s.senders[id := pc]);
            && |Where(n.senders, Holds)| - Unit(Holds(pc))
               == |Where(s.senders, Holds)| - Unit(id in s.senders && Holds(s.senders[id]))
            && OrdinarySlots(n) - Unit(HoldsOrdinary(pc))
               == OrdinarySlots(s) - Unit(id in s.senders && HoldsOrdinary(s.senders[id]))
  {
    WhereUpdated(s.senders, id, pc, Holds);
    WhereUpdated(s.senders, id, pc, HoldsOrdinary);
  }

  function Unit(b: bool): nat { if b then 1 else 0 }

  lemma SenderKeepsCounted(s: System, step: Step)
    requires Counted(s) && Enabled(s, step)
    requires step.OfSender()
    ensures Counted(Do(s, step))
  {
    hide DoTryChannel;
    match step
    case CloneHandle(id) => SenderMoves(s, id, Idle);
    case DropHandle(id) =>
      WhereRemoved(s.senders, id, Holds);
      WhereRemoved(s.senders, id, HoldsOrdinary);
    case Reserve(id, message) => ReserveKeepsCounted(s, id, message);
    case GiveBack(id) => SenderMoves(s, id, Idle);
    case Notify(id, _) => SenderMoves(s, id, Idle);
    case TryChannel(id) => ChannelKeepsCounted(s, id);
  }

  lemma ReserveKeepsCounted(s: System, id: nat, message: Message)
    requires Counted(s) && Enabled(s, Reserve(id, message))
    ensures Counted(Do(s, Reserve(id, message)))
  {
    SenderMoves(s, id, Reserved(message));
    OrdinaryFitsDepth(s);
  }

  lemma ChannelKeepsCounted(s: System, id: nat)
    requires Counted(s) && Enabled(s, TryChannel(id))
    ensures Counted(DoTryChannel(s, id))
  {
    var message := s.senders[id].message;
    SenderMoves(s, id, DoTryChannel(s, id).senders[id]);
    OrdinariesAppend(s.queue, [message]);
    OneMessage(message);
  }

  /** Ordinary slots are slots. */
  lemma OrdinaryFitsDepth(s: System)
    requires SlotsCounted(s)
    ensures OrdinarySlots(s) <= s.depth
    ensures OrdinarySlots(s) < s.depth ==> ShutdownOutstanding(s)
  {
    var ordinary, all := Where(s.senders, HoldsOrdinary), Where(s.senders, Holds);
    SubsetCount(ordinary, all);
    OrdinariesBound(s.queue);
    OrdinariesBound(s.InHand());
    OrdinariesBound(s.abandoned);
    if |ordinary| < |all| {
      var id :| id in all && id !in ordinary;
      assert s.senders[id].message == Shutdown;
    }
  }

  lemma {:induction false} SubsetCount(a: set<nat>, b: set<nat>)
    requires a <= b
    ensures |a| <= |b| && (|a| < |b| ==> exists x :: x in b && x !in a)
  {
    assert b == a + (b - a);
    if b - a != {} {
      var x :| x in b - a;
    }
  }

  /** A Shutdown holds a slot: reserved, queued, in hand, or left behind by an ended thread. */
  ghost predicate ShutdownOutstanding(s: System) {
    || (exists id | id in s.senders :: Holds(s.senders[id]) && s.senders[id].message == Shutdown)
    || Shutdown in s.queue || Shutdown in s.InHand() || Shutdown in s.abandoned
  }

  lemma OwnerKeepsCounted(s: System, step: Step)
    requires Counted(s) && Enabled(s, step)
    requires !step.OfSender()
    ensures Counted(Do(s, step))
  {
    match step
    case TryReceive =>
      if s.queue != [] {
        assert s.queue == [s.queue[0]] + s.queue[1..];
        OneMessage(s.queue[0]);
      }
    case ReleaseSlot => OneMessage(s.owner.message);
    case Exit => OrdinariesAppend(s.abandoned, s.queue);
    case _ =>
  }

  // ---------------------------------------------------------------------------
  // Delivery and wake-up
  // ---------------------------------------------------------------------------

  /** Accepted messages are delivered in order, still on their way, or lost with the thread. */
  ghost predicate InOrder(s: System) {
    && s.accepted == s.delivered + s.InHand() + s.queue + s.abandoned
    && (s.abandoned != [] ==> s.owner.Gone?)
    && (s.owner.Gone? ==> s.queue == [])
  }

  /** Moving the oldest queued message over, and adding one at the end, keep the order. */
  lemma Regroup(delivered: seq<Message>, queue: seq<Message>, m: Message)
    ensures queue != [] ==> delivered + [queue[0]] + queue[1..] == delivered + queue
    ensures (delivered + queue) + [m] == delivered + (queue + [m])
  {
    if queue != [] {
      assert queue == [queue[0]] + queue[1..];
    }
  }

  lemma ReceiveKeepsOrder(s: System)
    requires InOrder(s) && Enabled(s, TryReceive)
    ensures InOrder(DoTryReceive(s))
  {
    assert s.abandoned == [];
    if s.queue != [] {
      Regroup(s.delivered, s.queue, s.queue[0]);
    }
  }

  lemma SendKeepsOrder(s: System, id: nat)
    requires InOrder(s) && Enabled(s, TryChannel(id))
    ensures InOrder(DoTryChannel(s, id))
  {
    if !s.owner.Gone? {
      assert s.abandoned == [];
      Regroup(s.delivered + s.InHand(), s.queue, s.senders[id].message);
    }
  }

  lemma StepKeepsOrder(s: System, step: Step)
    requires InOrder(s) && Enabled(s, step)
    ensures InOrder(Do(s, step))
  {
    hide DoTryReceive, DoTryChannel;
    match step
    case TryChannel(id) => SendKeepsOrder(s, id);
    case TryReceive => ReceiveKeepsOrder(s);
    case _ =>
  }

  /** The owner will look into the mailbox without being woken. */
  predicate Attentive(s: System) {
    s.backlog || s.owner.Waking? || (s.owner.Turn? && s.readyCommand)
  }

  /** Some sender has pushed its message and not yet written the wake byte. */
  ghost predicate AboutToNotify(s: System) {
    exists id | id in s.senders :: s.senders[id].Sent?
  }

  /** As long as no wake write failed, a queued message is never forgotten. */
  ghost predicate Noticed(s: System) {
    && s.wakeLimit >= 1
    && (!s.mailboxOpen ==> s.queue == [] && s.senders == map[])
    && (s.owner.Waiting? && s.owner.forever ==> !s.backlog)
    && (s.wakeFailures == 0 && s.queue != [] ==> Attentive(s) || s.wake > 0 || AboutToNotify(s))
  }

  lemma SenderKeepsNoticed(s: System, step: Step)
    requires Noticed(s) && Enabled(s, step)
    requires step.OfSender()
    ensures Noticed(Do(s, step))
  {
    var n := Do(s, step);
    if step.TryChannel? && n.senders[step.id].Sent? {
      assert AboutToNotify(n);
    } else if AboutToNotify(s) && !step.Notify? {
      var id :| id in s.senders && s.senders[id].Sent?;
      assert n.senders[id].Sent?;
    }
  }

  lemma OwnerKeepsNoticed(s: System, step: Step)
    requires Noticed(s) && Enabled(s, step) && InOrder(s)
    requires !step.OfSender()
    ensures Noticed(Do(s, step))
  {
    var n := Do(s, step);
    assert n.senders == s.senders;
    assert AboutToNotify(s) <==> AboutToNotify(n);
  }

  // ---------------------------------------------------------------------------
  // Every interleaving
  // ---------------------------------------------------------------------------

  ghost predicate Sound(s: System) {
    Counted(s) && InOrder(s) && Noticed(s)
  }

  lemma StepKeepsSound(s: System, step: Step)
    requires Sound(s) && Enabled(s, step)
    ensures Sound(Do(s, step))
  {
    StepKeepsOrder(s, step);
    if step.OfSender() {
      SenderKeepsCounted(s, step);
      SenderKeepsNoticed(s, step);
    } else {
      OwnerKeepsCounted(s, step);
      OwnerKeepsNoticed(s, step);
    }
  }

  /** `steps` can be taken one after the other from `s`, ending in `r`. */
  predicate Leads(s: System, steps: seq<Step>, r: System)
    decreases |steps|
  {
    if steps == [] then r == s
    else Enabled(s, steps[0]) && Leads(Do(s, steps[0]), steps[1..], r)
  }

  lemma {:induction false} EveryRunIsSound(s: System, steps: seq<Step>, r: System)
    requires Sound(s) && Leads(s, steps, r)
    ensures Sound(r)
    decreases |steps|
  {
    if steps != [] {
      StepKeepsSound(s, steps[0]);
      EveryRunIsSound(Do(s, steps[0]), steps[1..], r);
    }
  }

  ghost predicate Reachable(r: System) {
    exists capacity, wakeLimit, steps ::
      capacity >= 2 && wakeLimit >= 1 && Leads(Initial(capacity, wakeLimit), steps, r)
  }

  lemma ReachableIsSound(r: System)
    requires Reachable(r)
    ensures Sound(r)
  {
    var capacity, wakeLimit, steps :|
      capacity >= 2 && wakeLimit >= 1 && Leads(Initial(capacity, wakeLimit), steps, r);
    NewMailboxIsSound(capacity, wakeLimit);
    EveryRunIsSound(Initial(capacity, wakeLimit), steps, r);
  }

  /**
   * No lost wake-up: when the owner blocks without a timeout and a message is
   * queued, a wake byte is readable or some sender has yet to write one.
   */
  lemma NoLostWakeUp(r: System)
    requires Reachable(r) && r.wakeFailures == 0
    requires r.owner == Waiting(true) && r.queue != []
    ensures r.wake > 0 || AboutToNotify(r)
  {
    ReachableIsSound(r);
  }

  /** So an owner that sleeps while every sender has returned has delivered everything, in order. */
  lemma SleepMeansDelivered(r: System)
    requires Reachable(r) && r.wakeFailures == 0
    requires r.owner == Waiting(true) && r.wake == 0 && !AboutToNotify(r)
    ensures r.delivered == r.accepted
  {
    ReachableIsSound(r);
    assert r.queue == [];
  }

  predicate OwnerOnly(steps: seq<Step>) {
    forall step | step in steps ::
      step.PollWake? || step.ReadWake? || step.WakeDrained? || step.StartTurn? || step.TryReceive? || step.ReleaseSlot?
  }

  /** The owner reads the wake stream dry, 256 bytes at a time, and starts a turn that looks at the mailbox. */
  lemma {:induction false} WakeStreamRunsDry(s: System) returns (steps: seq<Step>, r: System)
    requires s.owner.Waking?
    ensures Leads(s, steps, r) && OwnerOnly(steps)
    ensures r == s.(wake := 0, owner := Turn, readyCommand := true)
    decreases s.wake
  {
    if s.wake == 0 {
      r := Do(s, WakeDrained);
      steps := [WakeDrained];
      Prepend(s, WakeDrained, [], r);
    } else {
      var read := ReadWake(if s.wake < WAKE_DRAIN_BYTES then s.wake else WAKE_DRAIN_BYTES);
      var rest;
      rest, r := WakeStreamRunsDry(Do(s, read));
      steps := [read] + rest;
      Prepend(s, read, rest, r);
    }
  }

  /** An owner that starts a turn with a message waiting delivers it in three steps. */
  lemma TurnDelivers(s: System) returns (r: System)
    requires s.owner.Turn? && s.readyCommand && s.mailboxOpen && s.queue != [] && s.depth > 0
    ensures Leads(s, [StartTurn, TryReceive, ReleaseSlot], r)
    ensures r.delivered == s.delivered + [s.queue[0]] && r.queue == s.queue[1..]
  {
    var drain := Do(s, StartTurn);
    r := OneReceipt(drain);
    Prepend(s, StartTurn, [TryReceive, ReleaseSlot], r);
    assert [StartTurn] + [TryReceive, ReleaseSlot] == [StartTurn, TryReceive, ReleaseSlot];
  }

  /** A readable wake byte is enough: the owner alone can then deliver the oldest queued message. */
  lemma WokenOwnerDelivers(s: System) returns (steps: seq<Step>, r: System)
    requires Sound(s) && s.owner.Waiting? && s.wake > 0 && s.queue != []
    ensures Leads(s, steps, r) && OwnerOnly(steps)
    ensures r.delivered == s.delivered + [s.queue[0]] && r.queue == s.queue[1..]
  {
    hide Leads;
    var woken := Do(s, PollWake);
    var readings, turn := WakeStreamRunsDry(woken);
    r := TurnDelivers(turn);
    Chain(woken, readings, turn, [StartTurn, TryReceive, ReleaseSlot], r);
    steps := [PollWake] + (readings + [StartTurn, TryReceive, ReleaseSlot]);
    Prepend(s, PollWake, readings + [StartTurn, TryReceive, ReleaseSlot], r);
  }

  lemma {:induction false} Chain(s: System, one: seq<Step>, m: System, two: seq<Step>, r: System)
    requires Leads(s, one, m) && Leads(m, two, r)
    ensures Leads(s, one + two, r)
    decreases |one|
  {
    if one == [] {
      assert one + two == two;
    } else {
      Chain(Do(s, one[0]), one[1..], m, two, r);
      Prepend(s, one[0], one[1..] + two, r);
      assert one + two == [one[0]] + (one[1..] + two);
    }
  }

  /** Slots are counted exactly, never exceed the capacity, and the channel itself is never full. */
  lemma DepthIsExact(r: System)
    requires Reachable(r)
    ensures r.depth == |Where(r.senders, Holds)| + |r.queue| + |r.InHand()| + |r.abandoned|
    ensures r.depth <= r.capacity
    ensures (exists id | id in r.senders :: r.senders[id].Reserved?) && !r.owner.Gone? ==> |r.queue| < r.capacity
  {
    ReachableIsSound(r);
    if id :| id in r.senders && r.senders[id].Reserved? {
      WhereRemoved(r.senders, id, Holds);
    }
  }

  /** The messages that occupy a slot: held by a sender, queued, in the owner's hand, or left behind. */
  function Occupied(s: System): nat {
    |Where(s.senders, Holds)| + |s.queue| + |s.InHand()| + |s.abandoned|
  }

  /** A message is turned away exactly when all slots are occupied, an ordinary one also when only one is free. */
  lemma AdmissionIsExact(r: System, id: nat, m: Message)
    requires (Reachable(r) || r.depth == Occupied(r)) && Enabled(r, Reserve(id, m))
    ensures Do(r, Reserve(id, m)) ==
            if Occupied(r) + (if m.Shutdown? then 0 else 1) >= r.capacity then r
            else r.(depth := r.depth + 1, senders := r.senders[id := Reserved(m)])
  {
    if Reachable(r) {
      ReachableIsSound(r);
    }
  }

  /** With a slot to spare and the call alive, one send puts the message at the end of the queue. */
  lemma SendArrives(s: System, id: nat, m: Message) returns (r: System)
    requires Sound(s) && id in s.senders && s.senders[id].Idle? && !s.owner.Gone?
    requires Occupied(s) + (if m.Shutdown? then 0 else 1) < s.capacity
    ensures Leads(s, [Reserve(id, m), TryChannel(id), Notify(id, true)], r)
    ensures r == s.(depth := s.depth + 1, queue := s.queue + [m], accepted := s.accepted + [m],
                    wake := if s.wake < s.wakeLimit then s.wake + 1 else s.wake)
  {
    hide Noticed, InOrder, Leads;
    var s2 := Do(Do(s, Reserve(id, m)), TryChannel(id));
    r := Do(s2, Notify(id, true));
    assert r.senders == s.senders;
    ThreeSteps(s, Reserve(id, m), TryChannel(id), Notify(id, true));
  }

  lemma NoStep(s: System)
    ensures Leads(s, [], s)
  {
  }

  /** A send that the channel refuses, as closed after the call has ended and as full before, leaves no trace. */
  lemma RefusedSendLeavesNoTrace(s: System, id: nat, m: Message)
    requires id in s.senders && s.senders[id].Idle? && s.depth < s.Limit(m)
    requires s.owner.Gone? || |s.queue| >= s.capacity
    ensures var s2 := Do(Do(s, Reserve(id, m)), TryChannel(id));
            && s2.senders[id] == Refused(m, !s.owner.Gone?)
            && Leads(s, [Reserve(id, m), TryChannel(id), GiveBack(id)], s)
  {
    var s2 := Do(Do(s, Reserve(id, m)), TryChannel(id));
    var r := Do(s2, GiveBack(id));
    assert r.senders == s.senders;
    assert r == s;
    ThreeSteps(s, Reserve(id, m), TryChannel(id), GiveBack(id));
  }

  /** The first `k` ordinary messages. */
  function Batch(k: nat): seq<Message> { seq(k, (i: nat) => Ordinary(i)) }

  /** A new mailbox takes one ordinary message less than its capacity before any is received. */
  lemma {:induction false} MailboxFills(capacity: nat, wakeLimit: nat, k: nat) returns (steps: seq<Step>, r: System)
    requires capacity >= 2 && wakeLimit >= 1 && k < capacity
    ensures Leads(Initial(capacity, wakeLimit), steps, r) && Sound(r)
    ensures r.accepted == r.queue == Batch(k) && r.delivered == [] && Occupied(r) == k
    ensures r.capacity == capacity && r.owner == Turn && r.senders == map[0 := Idle]
  {
    hide Counted, Noticed, InOrder, Leads;
    if k == 0 {
      NoStep(Initial(capacity, wakeLimit));
      steps, r := [], Initial(capacity, wakeLimit);
      NewMailboxIsSound(capacity, wakeLimit);
    } else {
      var before, s := MailboxFills(capacity, wakeLimit, k - 1);
      var send := [Reserve(0, Ordinary(k - 1)), TryChannel(0), Notify(0, true)];
      r := SendArrives(s, 0, Ordinary(k - 1));
      Chain(Initial(capacity, wakeLimit), before, s, send, r);
      EveryRunIsSound(s, send, r);
      steps := before + send;
      assert Batch(k) == Batch(k - 1) + [Ordinary(k - 1)];
    }
  }

  lemma NewMailboxIsSound(capacity: nat, wakeLimit: nat)
    requires capacity >= 2 && wakeLimit >= 1
    ensures Sound(Initial(capacity, wakeLimit)) && Occupied(Initial(capacity, wakeLimit)) == 0
  {
    var s := Initial(capacity, wakeLimit);
    assert Where(s.senders, Holds) == {} && Where(s.senders, HoldsOrdinary) == {};
  }

  /** Receiving and releasing `n` messages. */
  function Receipts(n: nat): seq<Step> {
    if n == 0 then [] else [TryReceive, ReleaseSlot] + Receipts(n - 1)
  }

  lemma OneReceipt(s: System) returns (r: System)
    requires s.owner.Draining? && s.mailboxOpen && s.backlog && s.queue != [] && s.depth > 0
    requires s.owner.processed < MAX_CALL_COMMANDS_PER_TURN
    ensures Leads(s, [TryReceive, ReleaseSlot], r)
    ensures r == s.(depth := s.depth - 1, queue := s.queue[1..], delivered := s.delivered + [s.queue[0]],
                    owner := Draining(s.owner.processed + 1))
  {
    TwoSteps(s, TryReceive, ReleaseSlot);
    r := Do(Do(s, TryReceive), ReleaseSlot);
  }

  /** One turn delivers what is queued, in order, up to 64 messages. */
  lemma {:induction false} BatchDelivers(s: System, n: nat) returns (r: System)
    requires s.owner.Draining? && s.mailboxOpen && s.backlog && n <= |s.queue| <= s.depth
    requires s.owner.processed + n <= MAX_CALL_COMMANDS_PER_TURN
    ensures Leads(s, Receipts(n), r)
    ensures r == s.(depth := s.depth - n, queue := s.queue[n..], delivered := s.delivered + s.queue[..n],
                    owner := Draining(s.owner.processed + n))
    decreases n
  {
    hide Leads;
    if n == 0 {
      r := s;
      NoStep(s);
      assert s.delivered + s.queue[..0] == s.delivered;
    } else {
      var next := OneReceipt(s);
      r := BatchDelivers(next, n - 1);
      Chain(s, [TryReceive, ReleaseSlot], next, Receipts(n - 1), r);
      assert s.queue[1..][n - 1..] == s.queue[n..];
      assert s.delivered + [s.queue[0]] + s.queue[1..][..n - 1] == s.delivered + s.queue[..n];
    }
  }

  /** A turn that finds the mailbox marked takes up to 64 messages out of it. */
  lemma TurnTakes(s: System, n: nat) returns (r: System)
    requires s.owner.Turn? && (s.readyCommand || s.backlog) && s.mailboxOpen
    requires n <= |s.queue| <= s.depth && n <= MAX_CALL_COMMANDS_PER_TURN
    ensures Leads(s, [StartTurn] + Receipts(n), r)
    ensures r.delivered == s.delivered + s.queue[..n] && r.queue == s.queue[n..] && r.owner == Draining(n)
  {
    hide Leads;
    r := BatchDelivers(Do(s, StartTurn), n);
    Prepend(s, StartTurn, Receipts(n), r);
  }

  /** No turn takes more. */
  predicate Bounded(s: System) {
    match s.owner
    case Draining(processed) => processed <= MAX_CALL_COMMANDS_PER_TURN
    case Received(processed, _) => processed < MAX_CALL_COMMANDS_PER_TURN
    case Deciding(processed) => processed <= MAX_CALL_COMMANDS_PER_TURN
    case _ => true
  }

  lemma {:induction false} BatchesAreBounded(s: System, steps: seq<Step>, r: System)
    requires Bounded(s) && Leads(s, steps, r)
    ensures Bounded(r)
    decreases |steps|
  {
    hide Bounded, Do, Enabled;
    if steps != [] {
      StepKeepsBounded(s, steps[0]);
      BatchesAreBounded(Do(s, steps[0]), steps[1..], r);
    }
  }

  lemma StepKeepsBounded(s: System, step: Step)
    requires Bounded(s) && Enabled(s, step)
    ensures Bounded(Do(s, step))
  {
  }

  /** In the batch loop the owner never has a choice: it receives or it leaves. */
  lemma OneWayOn(s: System)
    requires s.owner.Draining?
    ensures Enabled(s, TryReceive) <==> !Enabled(s, LeaveBatch)
    ensures Enabled(s, TryReceive) ==> s.owner.processed < MAX_CALL_COMMANDS_PER_TURN
  {
  }

  /** A deadline or a socket starts a turn that leaves the mailbox alone, unless a batch was cut short before. */
  lemma OtherTurns(s: System)
    requires s.owner.Waiting? && !s.backlog
    ensures Leads(s, [PollOther, StartTurn, LeaveBatch], s.(readyCommand := false, owner := Deciding(0)))
  {
    ThreeSteps(s, PollOther, StartTurn, LeaveBatch);
  }

  /** The wake stream reports only bytes or the end of the last handle, and every read takes bytes out. */
  lemma WakesForAReason(s: System, bytes: nat)
    requires s.owner.Waiting? || s.owner.Waking?
    ensures Enabled(s, PollWake) ==> s.owner.Waiting? && (s.wake > 0 || s.senders == map[])
    ensures Enabled(s, ReadWake(bytes)) ==> Do(s, ReadWake(bytes)).wake == s.wake - bytes < s.wake
    ensures Enabled(s, WakeDrained) ==> s.wake == 0
  {
  }

  /** When the last handle goes, the sleeping owner wakes up, finds nothing left and closes the mailbox. */
  lemma LastHandleClosesMailbox(s: System, id: nat) returns (r: System)
    requires s.senders == map[id := Idle] && s.owner.Waiting? && s.wake == 0 && s.queue == [] && s.mailboxOpen
    ensures Leads(s, [DropHandle(id), PollWake, WakeDrained] + [StartTurn, TryReceive, LeaveBatch], r)
    ensures !r.mailboxOpen && !r.backlog && r.owner.Deciding?
  {
    var gone := Do(s, DropHandle(id));
    assert gone.senders == map[];
    var turn := Do(Do(gone, PollWake), WakeDrained);
    ThreeSteps(s, DropHandle(id), PollWake, WakeDrained);
    ThreeSteps(turn, StartTurn, TryReceive, LeaveBatch);
    r := Do(Do(Do(turn, StartTurn), TryReceive), LeaveBatch);
    Chain(s, [DropHandle(id), PollWake, WakeDrained], turn, [StartTurn, TryReceive, LeaveBatch], r);
  }

  /** A clone of a handle can send as soon as it exists. */
  lemma ClonesSend(s: System, id: nat, m: Message) returns (r: System)
    requires Sound(s) && Enabled(s, CloneHandle(id)) && !s.owner.Gone?
    requires Occupied(s) + (if m.Shutdown? then 0 else 1) < s.capacity
    ensures Leads(s, [CloneHandle(id)] + [Reserve(id, m), TryChannel(id), Notify(id, true)], r)
    ensures r.queue == s.queue + [m] && r.senders == s.senders[id := Idle]
  {
    hide Leads, Noticed, InOrder;
    var cloned := Do(s, CloneHandle(id));
    StepKeepsSound(s, CloneHandle(id));
    SenderMoves(s, id, Idle);
    r := SendArrives(cloned, id, m);
    Prepend(s, CloneHandle(id), [Reserve(id, m), TryChannel(id), Notify(id, true)], r);
  }

  /** After a full batch the owner does not wait; once the mailbox is empty it does, endlessly without a deadline. */
  lemma AfterTheBatch(s: System, hasDeadline: bool)
    requires s.owner.Draining? && s.mailboxOpen && s.backlog && s.senders != map[]
    ensures s.owner.processed == MAX_CALL_COMMANDS_PER_TURN ==>
              Leads(s, [LeaveBatch, Decide(hasDeadline)], s.(owner := Waiting(false)))
    ensures s.owner.processed < MAX_CALL_COMMANDS_PER_TURN && s.queue == [] ==>
              Leads(s, [TryReceive, Decide(hasDeadline)], s.(backlog := false, owner := Waiting(!hasDeadline)))
  {
    hide Leads;
    if s.owner.processed == MAX_CALL_COMMANDS_PER_TURN {
      TwoSteps(s, LeaveBatch, Decide(hasDeadline));
    } else if s.owner.processed < MAX_CALL_COMMANDS_PER_TURN && s.queue == [] {
      TwoSteps(s, TryReceive, Decide(hasDeadline));
    }
  }

  lemma TwoSteps(s: System, one: Step, two: Step)
    requires Enabled(s, one) && Enabled(Do(s, one), two)
    ensures Leads(s, [one, two], Do(Do(s, one), two))
  {
    hide Leads, Do;
    var r := Do(Do(s, one), two);
    NoStep(r);
    assert [two] + [] == [two] && [one] + [two] == [one, two];
    Prepend(Do(s, one), two, [], r);
    Prepend(s, one, [two], r);
  }

  lemma ThreeSteps(s: System, one: Step, two: Step, three: Step)
    requires Enabled(s, one) && Enabled(Do(s, one), two) && Enabled(Do(Do(s, one), two), three)
    ensures Leads(s, [one, two, three], Do(Do(Do(s, one), two), three))
  {
    hide Leads, Do;
    TwoSteps(Do(s, one), two, three);
    assert [one] + [two, three] == [one, two, three];
    Prepend(s, one, [two, three], Do(Do(Do(s, one), two), three));
  }

  /** A Shutdown is refused as full only while another Shutdown holds a slot. */
  lemma ShutdownRefusedOnlyByShutdown(r: System, id: nat)
    requires Reachable(r) && Enabled(r, Reserve(id, Shutdown)) && Do(r, Reserve(id, Shutdown)) == r
    ensures ShutdownOutstanding(r)
  {
    ReachableIsSound(r);
    assert r.depth >= r.capacity;
    OrdinaryFitsDepth(r);
  }

  /** Accepted messages reach the call in the order accepted; only an ended thread loses any. */
  lemma DeliveryIsFifo(r: System)
    requires Reachable(r)
    ensures r.delivered <= r.accepted
    ensures !r.owner.Gone? ==> r.accepted == r.delivered + r.InHand() + r.queue
  {
    ReachableIsSound(r);
    assert r.accepted == r.delivered + (r.InHand() + r.queue + r.abandoned);
    assert r.InHand() + r.queue + [] == r.InHand() + r.queue;
  }

  /** Without the wake byte the message is lost to a sleeping owner: one failed write is enough. */
  lemma OneFailedWakeLosesAMessage()
    ensures exists r :: Reachable(r) && r.wakeFailures == 1
              && r.owner == Waiting(true) && r.queue != [] && r.wake == 0 && !AboutToNotify(r)
  {
    var s0 := Initial(2, 1);
    var tail := [Reserve(0, Ordinary(7)), TryChannel(0), Notify(0, false)];
    var lost := UnwokenSend();
    OwnerFallsAsleep(tail, lost);
    assert s0.capacity == 2 && s0.wakeLimit == 1;
    assert Reachable(lost);
  }

  /** A fresh owner finds nothing to do and blocks. */
  const ASLEEP := Initial(2, 1).(backlog := false, owner := Waiting(true))

  lemma OwnerFallsAsleep(tail: seq<Step>, r: System)
    requires Leads(ASLEEP, tail, r)
    ensures Leads(Initial(2, 1), [StartTurn] + ([TryReceive] + ([Decide(false)] + tail)), r)
  {
    var s1 := Do(Initial(2, 1), StartTurn);
    assert 0 in s1.senders;
    var s2 := Do(s1, TryReceive);
    Prepend(s2, Decide(false), tail, r);
    Prepend(s1, TryReceive, [Decide(false)] + tail, r);
    Prepend(Initial(2, 1), StartTurn, [TryReceive] + ([Decide(false)] + tail), r);
  }

  lemma UnwokenSend() returns (r: System)
    ensures Leads(ASLEEP, [Reserve(0, Ordinary(7)), TryChannel(0), Notify(0, false)], r)
    ensures r.wakeFailures == 1 && r.owner == Waiting(true) && r.queue != [] && r.wake == 0 && !AboutToNotify(r)
  {
    r := Do(Do(Do(ASLEEP, Reserve(0, Ordinary(7))), TryChannel(0)), Notify(0, false));
    ThreeSteps(ASLEEP, Reserve(0, Ordinary(7)), TryChannel(0), Notify(0, false));
  }

  lemma Prepend(s: System, step: Step, steps: seq<Step>, r: System)
    requires Enabled(s, step) && Leads(Do(s, step), steps, r)
    ensures Leads(s, [step] + steps, r)
  {
    assert ([step] + steps)[1..] == steps;
  }
}
