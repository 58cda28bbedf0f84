/** Fork branches of one outbound INVITE (src/call/model/branch.rs). */
module Forks {
  import opened Wrappers

  const MAX_FORKED_DIALOGS: nat := 16

  datatype BranchId = BranchId(tag: string)

  datatype BranchState = Early | Confirmed | Terminated

  datatype Branch = Branch(id: BranchId, state: BranchState)

  datatype ForkError = BranchLimitExceeded

  /** The set as a map: what is known of each branch. */
  type ForkMap = map<BranchId, BranchState>

  predicate CanNote(forks: ForkMap, id: BranchId) {
    id in forks || |forks| < MAX_FORKED_DIALOGS
  }

  predicate HasLive(forks: ForkMap) {
    exists id | id in forks :: !forks[id].Terminated?
  }

  /** The vector holds each branch once, in order of first appearance. */
  ghost predicate Lists(branches: seq<Branch>, forks: ForkMap) {
    && (forall i | 0 <= i < |branches| :: branches[i].id in forks && forks[branches[i].id] == branches[i].state)
    && (forall i, j | 0 <= i < j < |branches| :: branches[i].id != branches[j].id)
    && (forall id | id in forks :: Branch(id, forks[id]) in branches)
  }

  lemma ListsUpdate(branches: seq<Branch>, forks: ForkMap, index: nat, state: BranchState)
    requires Lists(branches, forks) && index < |branches|
    ensures Lists(branches[index := Branch(branches[index].id, state)], forks[branches[index].id := state])
  {
    var id := branches[index].id;
    var r, m := branches[index := Branch(id, state)], forks[id := state];
    assert forall i | 0 <= i < |r| :: r[i].id == branches[i].id;
    forall k | k in m ensures Branch(k, m[k]) in r {
      UpdatedMember(branches, forks, index, state, k);
    }
  }

  lemma UpdatedMember(branches: seq<Branch>, forks: ForkMap, index: nat, state: BranchState, k: BranchId)
    requires Lists(branches, forks) && index < |branches| && k in forks
    ensures var id := branches[index].id;
            Branch(k, forks[id := state][k]) in branches[index := Branch(id, state)]
  {
    var id := branches[index].id;
    var r := branches[index := Branch(id, state)];
    if k == id {
      assert r[index] == Branch(k, state);
    } else {
      var i := IndexOf(branches, Branch(k, forks[k]));
      assert r[i] == Branch(k, forks[k]);
    }
  }

  lemma IndexOf(branches: seq<Branch>, b: Branch) returns (i: nat)
    requires b in branches
    ensures i < |branches| && branches[i] == b
  {
    i :| i < |branches| && branches[i] == b;
  }

  lemma ListsPush(branches: seq<Branch>, forks: ForkMap, id: BranchId, state: BranchState)
    requires Lists(branches, forks) && id !in forks
    ensures Lists(branches + [Branch(id, state)], forks[id := state])
  {
    var r, m := branches + [Branch(id, state)], forks[id := state];
    assert r[|branches|] == Branch(id, state);
    forall k | k in m ensures Branch(k, m[k]) in r {
      assert k != id ==> Branch(k, forks[k]) in branches;
    }
  }

  lemma {:induction false} ListedCount(branches: seq<Branch>, forks: ForkMap)
    requires Lists(branches, forks)
    ensures |branches| == |forks|
    decreases |branches|
  {
    if branches == [] {
      assert forks.Keys == {};
    } else {
      var n := |branches| - 1;
      var id := branches[n].id;
      var rest := forks - {id};
      forall k | k in rest ensures Branch(k, rest[k]) in branches[..n] {
        var i := IndexOf(branches, Branch(k, forks[k]));
        assert branches[..n][i] == Branch(k, forks[k]);
      }
      ListedCount(branches[..n], rest);
      assert rest.Keys == forks.Keys - {id};
    }
  }

  class ForkSet {
    var branches: seq<Branch>
    ghost var known: ForkMap

    ghost predicate Valid()
      reads this
    {
      Lists(branches, known) && |branches| <= MAX_FORKED_DIALOGS
    }

    constructor ()
      ensures Valid() && known == map[]
    {
      branches, known := [], map[];
    }

    method Find(id: BranchId) returns (index: Option<nat>)
      requires Valid()
      ensures index.None? <==> id !in known
      ensures index.Some? ==> index.value < |branches| && branches[index.value].id == id
    {
      for i := 0 to |branches|
        invariant forall j | 0 <= j < i :: branches[j].id != id
      {
        if branches[i].id == id {
          return Some(i);
        }
      }
      index := None;
    }

    /** Records the branch's newest state, or refuses a seventeenth branch. */
    method Upsert(id: BranchId, state: BranchState) returns (r: Result<(), ForkError>)
      requires Valid()
      modifies this
      ensures Valid()
      ensures r.Ok? <==> CanNote(old(known), id)
      ensures r.Err? ==> r.error == BranchLimitExceeded
      ensures known == if r.Ok? then old(known)[id := state] else old(known)
    {
      var index := Find(id);
      if index.Some? {
        ListsUpdate(branches, known, index.value, state);
        branches := branches[index.value := Branch(id, state)];
        known := known[id := state];
        return Ok(());
      }
      ListedCount(branches, known);
      if |branches| == MAX_FORKED_DIALOGS {
        return Err(BranchLimitExceeded);
      }
      ListsPush(branches, known, id, state);
      branches := branches + [Branch(id, state)];
      known := known[id := state];
      r := Ok(());
    }

    method HasLiveBranches() returns (live: bool)
      requires Valid()
      ensures live == HasLive(known)
    {
      for i := 0 to |branches|
        invariant forall j | 0 <= j < i :: branches[j].state.Terminated?
      {
        if !branches[i].state.Terminated? {
          return true;
        }
      }
      live := false;
    }
  }
}

/**
 * The outbound call state machine (src/call/model/lifecycle.rs): forked 2xx
 * answers, CANCEL races and BYE clean-up, following sections 9.1, 13.2.2.4 and
 * 15 of RFC 3261.
 */
module Lifecycle {
  import opened Wrappers
  import opened Forks

  datatype CallEndReason =
    | RemoteBusy | RemoteRejected | RemoteUnavailable | NoAnswer | Canceled | LocalHangup | RemoteHangup
    | SignalingTimeout | TransportFailure | AuthenticationFailed | MediaTimeout | MediaNegotiationFailed
    | SecurityFailure | InternalError | Transferred

  datatype CallState =
    | Idle | Inviting | Cancelling | Established | Terminating
    | Ended(reason: CallEndReason)

  function ReasonFromStatus(status: nat): CallEndReason {
    if status == 401 || status == 407 then AuthenticationFailed
    else if status in {404, 410, 480, 502, 503, 504} then RemoteUnavailable
    else if status == 408 then NoAnswer
    else if status == 486 || status == 600 then RemoteBusy
    else if status == 487 then Canceled
    else RemoteRejected
  }

  datatype CallCommand =
    | Start
    | Hangup
    | BlindTransfer(target: string)
    | AttendedTransfer(callId: nat, generation: nat)

  datatype CallEvent =
    | Command(command: CallCommand)
    | Provisional(branch: BranchId, hasSdp: bool)
    | InviteAccepted(branch: BranchId)
    | InviteRejected(branch: BranchId, status: nat)
    | CancelAccepted
    | ByeCompleted(branch: BranchId)
    | RemoteBye
    | SignalingTimedOut
    | MediaTimedOut
    | TransportFailed
    | SessionModification(isUpdate: bool, hasOffer: bool)

  datatype CallAction =
    | SendInvite
    | SendCancel
    | SendAck(branch: BranchId)
    | SendBye(branch: BranchId)
    | SelectBranch(branch: BranchId)
    | ApplyEarlyMedia(branch: BranchId)
    | SendRefer(target: string)
    | SendReferReplaces(callId: nat, generation: nat)
    | ApplySessionModification(isUpdate: bool, hasOffer: bool)
    | PublishEnded(reason: CallEndReason)

  datatype LifecycleError =
    | InvalidEvent | InvalidFinalStatus | AlreadyEnded | MissingSelectedBranch | Fork(error: ForkError)

  type Outcome = Result<seq<CallAction>, LifecycleError>

  // ---------------------------------------------------------------------------
  // One event
  // ---------------------------------------------------------------------------

  datatype Call = Call(
    state: CallState,
    forks: ForkMap,
    selected: Option<BranchId>,
    cancelRequested: bool,
    cancelSent: bool,
    lastStatus: Option<nat>)
  {
    function End(reason: CallEndReason): (Call, Outcome) {
      (this.(state := Ended(reason)), Ok([PublishEnded(reason)]))
    }

    function OnCommand(command: CallCommand): (Call, Outcome) {
      match command
      case Start =>
        if state.Idle? then (this.(state := Inviting), Ok([SendInvite])) else (this, Err(InvalidEvent))
      case Hangup =>
        if state.Inviting? || state.Cancelling? then
          (this.(cancelRequested := true, cancelSent := true, state := Cancelling),
           Ok(if cancelSent then [] else [SendCancel]))
        else if state.Established? then
          match selected
          case None => (this, Err(MissingSelectedBranch))
          case Some(branch) => (this.(state := Terminating), Ok([SendBye(branch)]))
        else (this, Err(InvalidEvent))
      case BlindTransfer(target) =>
        if state.Established? then (this, Ok([SendRefer(target)])) else (this, Err(InvalidEvent))
      case AttendedTransfer(callId, generation) =>
        if state.Established? then (this, Ok([SendReferReplaces(callId, generation)])) else (this, Err(InvalidEvent))
    }

    function OnProvisional(branch: BranchId, hasSdp: bool): (Call, Outcome) {
      if !state.Inviting? && !state.Cancelling? then (this, Err(InvalidEvent))
      else if !CanNote(forks, branch) then (this, Err(Fork(BranchLimitExceeded)))
      else (this.(forks := forks[branch := Early]), Ok(if hasSdp then [ApplyEarlyMedia(branch)] else []))
    }

    function OnAccepted(branch: BranchId): (Call, Outcome) {
      if state.Idle? || state.Ended? then (this, Err(InvalidEvent))
      else if !CanNote(forks, branch) then (this, Err(Fork(BranchLimitExceeded)))
      else
        var noted := this.(forks := forks[branch := Confirmed]);
        if cancelRequested || state.Terminating? then
          (noted.(state := Terminating), Ok([SendAck(branch), SendBye(branch)]))
        else if selected.None? then
          (noted.(selected := Some(branch), state := Established), Ok([SendAck(branch), SelectBranch(branch)]))
        else if selected.value != branch then
          (noted, Ok([SendAck(branch), SendBye(branch)]))
        else (noted, Ok([SendAck(branch)]))
    }

    function OnRejected(branch: BranchId, status: nat): (Call, Outcome) {
      if !(300 <= status <= 699) then (this, Err(InvalidFinalStatus))
      else
        var seen := this.(lastStatus := Some(status));
        if !CanNote(forks, branch) then (seen, Err(Fork(BranchLimitExceeded)))
        else
          var noted := seen.(forks := forks[branch := Terminated]);
          if selected.Some? || HasLive(noted.forks) then (noted, Ok([]))
          else noted.End(if cancelRequested then Canceled else ReasonFromStatus(status))
    }

    function OnByeCompleted(branch: BranchId): (Call, Outcome) {
      if !CanNote(forks, branch) then (this, Err(Fork(BranchLimitExceeded)))
      else
        var noted := this.(forks := forks[branch := Terminated]);
        if state.Terminating? && !HasLive(noted.forks) then
          noted.End(if cancelRequested then Canceled else LocalHangup)
        else (noted, Ok([]))
    }

    /** `CallLifecycle::handle`. */
    function Handle(event: CallEvent): (Call, Outcome) {
      if state.Ended? then (this, Err(AlreadyEnded))
      else match event
        case Command(command) => OnCommand(command)
        case Provisional(branch, hasSdp) => OnProvisional(branch, hasSdp)
        case InviteAccepted(branch) => OnAccepted(branch)
        case InviteRejected(branch, status) => OnRejected(branch, status)
        case CancelAccepted => (this, Ok([]))
        case ByeCompleted(branch) => OnByeCompleted(branch)
        case RemoteBye => End(RemoteHangup)
        case SignalingTimedOut => End(SignalingTimeout)
        case MediaTimedOut => End(MediaTimeout)
        case TransportFailed => End(TransportFailure)
        case SessionModification(isUpdate, hasOffer) =>
          if state.Established? then (this, Ok([ApplySessionModification(isUpdate, hasOffer)]))
          else (this, Err(InvalidEvent))
    }

    /** `force_end`: emits the terminal action once. */
    function Force(reason: CallEndReason): (Call, seq<CallAction>) {
      if state.Ended? then (this, []) else (this.(state := Ended(reason)), [PublishEnded(reason)])
    }
  }

  const NEW_CALL := Call(Idle, map[], None, false, false, None)

  // ---------------------------------------------------------------------------
  // Whole runs
  // ---------------------------------------------------------------------------

  datatype Input = Event(event: CallEvent) | ForceEnd(reason: CallEndReason)

  /** The call, every action it has emitted, and every 2xx it has taken, in order. */
  datatype History = History(call: Call, log: seq<CallAction>, accepted: seq<BranchId>) {

    function Feed(input: Input): History {
      History(Next(call, input),
              log + Emitted(call, input),
              if Takes2xx(call, input) then accepted + [input.event.branch] else accepted)
    }
  }

  function Next(c: Call, input: Input): Call {
    match input
    case ForceEnd(reason) => c.Force(reason).0
    case Event(event) => c.Handle(event).0
  }

  function Emitted(c: Call, input: Input): seq<CallAction> {
    match input
    case ForceEnd(reason) => c.Force(reason).1
    case Event(event) =>
      var outcome := c.Handle(event).1;
      if outcome.Ok? then outcome.value else []
  }

  predicate Takes2xx(c: Call, input: Input) {
    input.Event? && input.event.InviteAccepted? && c.Handle(input.event).1.Ok?
  }

  function Run(inputs: seq<Input>): History {
    if inputs == [] then History(NEW_CALL, [], [])
    else Run(inputs[..|inputs| - 1]).Feed(inputs[|inputs| - 1])
  }

  function Count(log: seq<CallAction>, p: CallAction -> bool): nat {
    if log == [] then 0 else (if p(log[0]) then 1 else 0) + Count(log[1..], p)
  }

  lemma {:induction false} CountAppend(log: seq<CallAction>, more: seq<CallAction>, p: CallAction -> bool)
    ensures Count(log + more, p) == Count(log, p) + Count(more, p)
  {
    if log == [] {
      assert log + more == more;
    } else {
      assert (log + more)[1..] == log[1..] + more;
      CountAppend(log[1..], more, p);
    }
  }

  const isInvite := (a: CallAction) => a.SendInvite?
  const isCancel := (a: CallAction) => a.SendCancel?
  const isSelect := (a: CallAction) => a.SelectBranch?
  const isEnded := (a: CallAction) => a.PublishEnded?

  /** How the lifecycle state restricts selection and cancellation. */
  ghost predicate Coherent(c: Call) {
    && c.cancelSent == c.cancelRequested
    && !(c.selected.Some? && c.cancelRequested)
    && match c.state
       case Idle => c.selected.None? && !c.cancelRequested
       case Inviting => c.selected.None? && !c.cancelRequested
       case Cancelling => c.selected.None? && c.cancelRequested
       case Established => c.selected.Some?
       case Terminating => c.selected.Some? <==> !c.cancelRequested
       case Ended(_) => true
  }

  /** Which one-off actions have been emitted, and what that says of the call. */
  ghost predicate OnceEach(h: History) {
    var c := h.call;
    && Count(h.log, isInvite) <= (if c.state.Idle? then 0 else 1)
    && Count(h.log, isCancel) == (if c.cancelSent then 1 else 0)
    && Count(h.log, isSelect) == (if c.selected.Some? then 1 else 0)
    && Count(h.log, isEnded) == (if c.state.Ended? then 1 else 0)
    && (c.selected.Some? ==> SelectBranch(c.selected.value) in h.log)
    && (c.state.Ended? ==> h.log != [] && h.log[|h.log| - 1] == PublishEnded(c.state.reason))
  }

  /** Every 2xx taken was acknowledged, once. */
  ghost predicate Acknowledged(h: History) {
    forall b :: multiset(h.log)[SendAck(b)] == multiset(h.accepted)[b]
  }

  /** Every answered branch was sent BYE, except the one that carries the call. */
  ghost predicate Byed(h: History) {
    && (forall b | b in h.accepted :: SendBye(b) in h.log || h.call.selected == Some(b))
    && (h.call.selected.Some? ==> h.call.selected.value in h.accepted)
    && (h.call.state.Terminating? && h.call.selected.Some? ==> SendBye(h.call.selected.value) in h.log)
  }

  /** Section 13.2.2.4 of RFC 3261: a dialog is acknowledged before it is ended. */
  ghost predicate AckBeforeBye(log: seq<CallAction>) {
    forall j | 0 <= j < |log| && log[j].SendBye? :: SendAck(log[j].branch) in log[..j]
  }

  lemma NextKeepsCoherent(c: Call, input: Input)
    requires Coherent(c)
    ensures Coherent(Next(c, input))
  {
  }

  function Hits(e: seq<CallAction>, p: CallAction -> bool): nat {
    (if |e| > 0 && p(e[0]) then 1 else 0) + (if |e| > 1 && p(e[1]) then 1 else 0)
  }

  lemma ShortCount(e: seq<CallAction>, p: CallAction -> bool)
    requires |e| <= 2
    ensures Count(e, p) == Hits(e, p)
  {
    if |e| == 2 {
      assert e[1..][0] == e[1];
      assert Count(e[1..], p) == (if p(e[1]) then 1 else 0) + Count(e[1..][1..], p);
    }
  }

  function Tally(b: bool): nat { if b then 1 else 0 }

  /** The one-off actions an input emits mark the changes of state it makes: INVITE and CANCEL, */
  lemma RequestsMarkChanges(c: Call, input: Input)
    requires Coherent(c)
    ensures var e, n := Emitted(c, input), Next(c, input);
            && |e| <= 2
            && Hits(e, isInvite) <= Tally(c.state.Idle? && !n.state.Idle?)
            && (n.state.Idle? ==> c.state.Idle?)
            && Tally(c.cancelSent) + Hits(e, isCancel) == Tally(n.cancelSent)
  {
    match input
    case ForceEnd(_) =>
    case Event(event) =>
      match event
      case Command(command) => match command { case Start => case Hangup => case _ => }
      case Provisional(_, _) =>
      case InviteAccepted(_) =>
      case InviteRejected(_, _) =>
      case ByeCompleted(_) =>
      case _ =>
  }

  /** the choice of a branch, which is never revised, */
  lemma SelectionMarksChange(c: Call, input: Input)
    requires Coherent(c)
    ensures var e, n := Emitted(c, input), Next(c, input);
            && Tally(c.selected.Some?) + Hits(e, isSelect) == Tally(n.selected.Some?)
            && (c.selected.Some? ==> n.selected == c.selected)
            && (c.selected.None? && n.selected.Some? ==> SelectBranch(n.selected.value) in e)
  {
    match input
    case ForceEnd(_) =>
    case Event(event) =>
      match event
      case Command(command) => match command { case Start => case Hangup => case _ => }
      case Provisional(_, _) =>
      case InviteAccepted(_) =>
      case InviteRejected(_, _) =>
      case ByeCompleted(_) =>
      case _ =>
  }

  /** and the end of the call, after which nothing happens. */
  lemma EndMarksChange(c: Call, input: Input)
    requires Coherent(c)
    ensures var e, n := Emitted(c, input), Next(c, input);
            && Tally(c.state.Ended?) + Hits(e, isEnded) == Tally(n.state.Ended?)
            && (c.state.Ended? ==> e == [] && n == c)
            && (n.state.Ended? && !c.state.Ended? ==> e == [PublishEnded(n.state.reason)])
  {
    match input
    case ForceEnd(_) =>
    case Event(event) =>
      match event
      case Command(command) => match command { case Start => case Hangup => case _ => }
      case Provisional(_, _) =>
      case InviteAccepted(_) =>
      case InviteRejected(_, _) =>
      case ByeCompleted(_) =>
      case _ =>
  }

  lemma FeedKeepsOnceEach(h: History, input: Input)
    requires Coherent(h.call) && OnceEach(h)
    ensures OnceEach(h.Feed(input))
  {
    var e := Emitted(h.call, input);
    RequestsMarkChanges(h.call, input);
    SelectionMarksChange(h.call, input);
    EndMarksChange(h.call, input);
    ShortCount(e, isInvite); CountAppend(h.log, e, isInvite);
    ShortCount(e, isCancel); CountAppend(h.log, e, isCancel);
    ShortCount(e, isSelect); CountAppend(h.log, e, isSelect);
    ShortCount(e, isEnded); CountAppend(h.log, e, isEnded);
  }

  /** What one input says of ACK and BYE. */
  lemma EmissionsAccount(c: Call, input: Input)
    requires Coherent(c)
    ensures var e, n := Emitted(c, input), Next(c, input);
            && (!Takes2xx(c, input) ==> forall b :: SendAck(b) !in e)
            && (Takes2xx(c, input) ==>
                  var b := input.event.branch;
                  && (e == [SendAck(b)] || e == [SendAck(b), SendBye(b)] || e == [SendAck(b), SelectBranch(b)])
                  && (SendBye(b) in e || n.selected == Some(b)))
            && (n.selected.Some? && c.selected.None? ==> Takes2xx(c, input) && n.selected == Some(input.event.branch))
            && (n.selected.Some? && n.state.Terminating? && !c.state.Terminating? ==> e == [SendBye(n.selected.value)])
            && (!Takes2xx(c, input) ==>
                  forall b :: SendBye(b) in e ==> c.selected == Some(b) && e == [SendBye(b)])
  {
    match input
    case ForceEnd(_) =>
    case Event(event) =>
      match event
      case Command(command) => match command { case Start => case Hangup => case _ => }
      case Provisional(_, _) =>
      case InviteAccepted(_) =>
      case InviteRejected(_, _) =>
      case ByeCompleted(_) =>
      case _ =>
  }

  lemma FeedKeepsAcks(h: History, input: Input)
    requires Coherent(h.call) && Acknowledged(h)
    ensures Acknowledged(h.Feed(input))
  {
    var e := Emitted(h.call, input);
    EmissionsAccount(h.call, input);
    forall b ensures multiset(h.log + e)[SendAck(b)] == multiset(h.Feed(input).accepted)[b] {
      assert multiset(h.log + e) == multiset(h.log) + multiset(e);
    }
  }

  lemma FeedKeepsByes(h: History, input: Input)
    requires Coherent(h.call) && Byed(h)
    ensures Byed(h.Feed(input))
  {
    EmissionsAccount(h.call, input);
    SelectionMarksChange(h.call, input);
    EndMarksChange(h.call, input);
  }

  lemma FeedKeepsOrder(h: History, input: Input)
    requires Coherent(h.call) && Acknowledged(h) && Byed(h) && AckBeforeBye(h.log)
    ensures AckBeforeBye(h.Feed(input).log)
  {
    var e := Emitted(h.call, input);
    EmissionsAccount(h.call, input);
    var log := h.Feed(input).log;
    forall j | 0 <= j < |log| && log[j].SendBye? ensures SendAck(log[j].branch) in log[..j] {
      var b := log[j].branch;
      if j < |h.log| {
        assert h.log[..j] == log[..j];
      } else if Takes2xx(h.call, input) {
        assert log[|h.log|] == SendAck(b);
        assert log[..j][|h.log|] == SendAck(b);
      } else {
        assert b in h.accepted;
        assert multiset(h.log)[SendAck(b)] > 0;
        assert log[..j] == h.log;
      }
    }
  }

  // ---------------------------------------------------------------------------
  // Main results
  // ---------------------------------------------------------------------------

  ghost predicate Sound(h: History) {
    Coherent(h.call) && OnceEach(h) && Acknowledged(h) && Byed(h) && AckBeforeBye(h.log)
  }

  /**
   * On every run INVITE, CANCEL, the selection and the end are emitted at most
   * once, every 2xx taken is acknowledged exactly once, every answered branch
   * but the carried one is sent BYE, and no BYE precedes its ACK.
   */
  lemma {:induction false} EveryRunIsSound(inputs: seq<Input>)
    ensures Sound(Run(inputs))
    decreases |inputs|
  {
    if inputs != [] {
      var before, input := inputs[..|inputs| - 1], inputs[|inputs| - 1];
      EveryRunIsSound(before);
      NextKeepsCoherent(Run(before).call, input);
      FeedKeepsOnceEach(Run(before), input);
      FeedKeepsAcks(Run(before), input);
      FeedKeepsByes(Run(before), input);
      FeedKeepsOrder(Run(before), input);
    }
  }

  /**
   * A call that ends on a final rejection or on a completed BYE leaves nothing
   * behind: every branch that ever answered was sent BYE, and none is live.
   */
  lemma CleanUpIsComplete(inputs: seq<Input>, event: CallEvent)
    requires event.InviteRejected? || event.ByeCompleted?
    requires !Run(inputs).call.state.Ended? && Run(inputs + [Event(event)]).call.state.Ended?
    ensures var h := Run(inputs + [Event(event)]);
            && (forall b | b in h.accepted :: SendAck(b) in h.log && SendBye(b) in h.log)
            && !HasLive(h.call.forks)
  {
    var h, after := Run(inputs), inputs + [Event(event)];
    EveryRunIsSound(inputs);
    assert after[..|after| - 1] == inputs;
    CleanEnd(h.call, event);
    forall b | b in h.accepted ensures SendAck(b) in h.log && SendBye(b) in h.log {
      assert multiset(h.log)[SendAck(b)] > 0;
    }
  }

  lemma CleanEnd(c: Call, event: CallEvent)
    requires event.InviteRejected? || event.ByeCompleted?
    requires !c.state.Ended? && c.Handle(event).0.state.Ended?
    ensures !HasLive(c.Handle(event).0.forks)
    ensures c.selected.None? || c.state.Terminating?
  {
  }

  /** An event the lifecycle refuses changes nothing but the remembered final status. */
  lemma RefusalChangesNothing(c: Call, event: CallEvent)
    requires c.Handle(event).1.Err?
    ensures var n := c.Handle(event).0;
            && n == c.(lastStatus := n.lastStatus)
            && (n.lastStatus != c.lastStatus ==>
                  event.InviteRejected? && n.lastStatus == Some(event.status) && !CanNote(c.forks, event.branch))
  {
    match event
    case Command(command) =>
    case InviteRejected(_, _) =>
    case _ =>
  }

  /** The internal error of an established call without a branch cannot be returned. */
  lemma SelectedBranchIsNeverMissing(inputs: seq<Input>, event: CallEvent)
    ensures Run(inputs).call.Handle(event).1 != Err(MissingSelectedBranch)
  {
    EveryRunIsSound(inputs);
    CoherentCallHasBranch(Run(inputs).call, event);
  }

  lemma CoherentCallHasBranch(c: Call, event: CallEvent)
    requires Coherent(c)
    ensures c.Handle(event).1 != Err(MissingSelectedBranch)
  {
    match event
    case Command(command) =>
    case _ =>
  }

  /** What a later run cannot take back. */
  ghost predicate Irrevocable(earlier: History, later: History) {
    && (earlier.call.selected.Some? ==> later.call.selected == earlier.call.selected)
    && (earlier.call.cancelRequested ==> later.call.cancelRequested && later.call.selected.None?)
    && (earlier.call.state.Ended? ==> later == earlier)
    && earlier.log <= later.log && earlier.accepted <= later.accepted
  }

  lemma NextKeepsCancel(c: Call, input: Input)
    requires Coherent(c)
    ensures c.cancelRequested ==> Next(c, input).cancelRequested
  {
    match input
    case ForceEnd(_) =>
    case Event(event) =>
      match event
      case Command(command) =>
      case _ =>
  }

  /**
   * A selection stands, a cancel request rules out any later selection, and an
   * ended call is frozen, whatever inputs follow.
   */
  lemma {:induction false} DecisionsStand(inputs: seq<Input>, k: nat)
    requires k <= |inputs|
    ensures Irrevocable(Run(inputs[..k]), Run(inputs))
    decreases |inputs|
  {
    if k == |inputs| {
      assert inputs[..k] == inputs;
      EveryRunIsSound(inputs);
    } else {
      var before, input := inputs[..|inputs| - 1], inputs[|inputs| - 1];
      DecisionsStand(before, k);
      assert before[..k] == inputs[..k];
      EveryRunIsSound(before);
      EveryRunIsSound(inputs);
      NextKeepsCancel(Run(before).call, input);
      SelectionMarksChange(Run(before).call, input);
      EndMarksChange(Run(before).call, input);
    }
  }

  // ---------------------------------------------------------------------------
  // The object updated in place
  // ---------------------------------------------------------------------------

  class CallLifecycle {
    var state: CallState
    const forks: ForkSet
    var selected: Option<BranchId>
    var cancelRequested: bool
    var cancelSent: bool
    var lastStatus: Option<nat>

    ghost predicate Valid()
      reads this, forks
    {
      forks.Valid()
    }

    ghost function AsCall(): Call
      reads this, forks
    {
      Call(state, forks.known, selected, cancelRequested, cancelSent, lastStatus)
    }

    constructor ()
      ensures Valid() && AsCall() == NEW_CALL && fresh(forks)
    {
      state, selected, lastStatus := Idle, None, None;
      cancelRequested, cancelSent := false, false;
      forks := new ForkSet();
    }

    method Handle(event: CallEvent) returns (r: Outcome)
      requires Valid()
      modifies this, forks
      ensures Valid()
      ensures (AsCall(), r) == old(AsCall()).Handle(event)
    {
      if state.Ended? {
        return Err(AlreadyEnded);
      }
      match event
      case Command(command) => r := OnCommand(command);
      case Provisional(branch, hasSdp) => r := OnProvisional(branch, hasSdp);
      case InviteAccepted(branch) => r := OnAccepted(branch);
      case InviteRejected(branch, status) => r := OnRejected(branch, status);
      case CancelAccepted => r := Ok([]);
      case ByeCompleted(branch) => r := OnByeCompleted(branch);
      case RemoteBye => r := End(RemoteHangup);
      case SignalingTimedOut => r := End(SignalingTimeout);
      case MediaTimedOut => r := End(MediaTimeout);
      case TransportFailed => r := End(TransportFailure);
      case SessionModification(isUpdate, hasOffer) =>
        r := if state.Established? then Ok([ApplySessionModification(isUpdate, hasOffer)]) else Err(InvalidEvent);
    }

    method End(reason: CallEndReason) returns (r: Outcome)
      modifies this
      ensures (AsCall(), r) == old(AsCall()).End(reason)
    {
      state := Ended(reason);
      r := Ok([PublishEnded(reason)]);
    }

    method ForceEnd(reason: CallEndReason) returns (actions: seq<CallAction>)
      modifies this
      ensures (AsCall(), actions) == old(AsCall()).Force(reason)
    {
      if state.Ended? {
        return [];
      }
      state := Ended(reason);
      actions := [PublishEnded(reason)];
    }

    method OnCommand(command: CallCommand) returns (r: Outcome)
      modifies this
      ensures (AsCall(), r) == old(AsCall()).OnCommand(command)
    {
      match command
      case Start =>
        if !state.Idle? {
          return Err(InvalidEvent);
        }
        state := Inviting;
        r := Ok([SendInvite]);
      case Hangup =>
        if state.Inviting? || state.Cancelling? {
          cancelRequested := true;
          state := Cancelling;
          if cancelSent {
            return Ok([]);
          }
          cancelSent := true;
          return Ok([SendCancel]);
        }
        if !state.Established? {
          return Err(InvalidEvent);
        }
        if selected.None? {
          return Err(MissingSelectedBranch);
        }
        state := Terminating;
        r := Ok([SendBye(selected.value)]);
      case BlindTransfer(target) =>
        r := if state.Established? then Ok([SendRefer(target)]) else Err(InvalidEvent);
      case AttendedTransfer(callId, generation) =>
        r := if state.Established? then Ok([SendReferReplaces(callId, generation)]) else Err(InvalidEvent);
    }

    method OnProvisional(branch: BranchId, hasSdp: bool) returns (r: Outcome)
      requires Valid()
      modifies this, forks
      ensures Valid()
      ensures (AsCall(), r) == old(AsCall()).OnProvisional(branch, hasSdp)
    {
      if !state.Inviting? && !state.Cancelling? {
        return Err(InvalidEvent);
      }
      var noted := forks.Upsert(branch, Early);
      if noted.Err? {
        return Err(Fork(noted.error));
      }
      r := Ok(if hasSdp then [ApplyEarlyMedia(branch)] else []);
    }

    method OnAccepted(branch: BranchId) returns (r: Outcome)
      requires Valid()
      modifies this, forks
      ensures Valid()
      ensures (AsCall(), r) == old(AsCall()).OnAccepted(branch)
    {
      if state.Idle? || state.Ended? {
        return Err(InvalidEvent);
      }
      var noted := forks.Upsert(branch, Confirmed);
      if noted.Err? {
        return Err(Fork(noted.error));
      }
      var actions := [SendAck(branch)];
      assert forall a: CallAction :: [SendAck(branch)] + [a] == [SendAck(branch), a];
      if cancelRequested || state.Terminating? {
        state := Terminating;
        return Ok(actions + [SendBye(branch)]);
      }
      if selected.None? {
        selected := Some(branch);
        state := Established;
        actions := actions + [SelectBranch(branch)];
      } else if selected != Some(branch) {
        actions := actions + [SendBye(branch)];
      }
      r := Ok(actions);
    }

    method OnRejected(branch: BranchId, status: nat) returns (r: Outcome)
      requires Valid()
      modifies this, forks
      ensures Valid()
      ensures (AsCall(), r) == old(AsCall()).OnRejected(branch, status)
    {
      if !(300 <= status <= 699) {
        return Err(InvalidFinalStatus);
      }
      lastStatus := Some(status);
      var noted := forks.Upsert(branch, Terminated);
      if noted.Err? {
        return Err(Fork(noted.error));
      }
      var live := forks.HasLiveBranches();
      if selected.Some? || live {
        return Ok([]);
      }
      r := End(if cancelRequested then Canceled else ReasonFromStatus(status));
    }

    method OnByeCompleted(branch: BranchId) returns (r: Outcome)
      requires Valid()
      modifies this, forks
      ensures Valid()
      ensures (AsCall(), r) == old(AsCall()).OnByeCompleted(branch)
    {
      var noted := forks.Upsert(branch, Terminated);
      if noted.Err? {
        return Err(Fork(noted.error));
      }
      var live := forks.HasLiveBranches();
      if state.Terminating? && !live {
        r := End(if cancelRequested then Canceled else LocalHangup);
      } else {
        r := Ok([]);
      }
    }
  }
}
