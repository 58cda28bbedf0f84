/**
 * The call lifecycle (src/call/model/lifecycle.rs) said by its past.
 *
 * The state machine remembers six fields. This module never looks at them: it
 * says by the inputs that were taken what the call is, what it refuses and what
 * it answers, and proves that the state machine agrees on every run.
 */
module LifecyclePast {
  import opened Wrappers
  import opened Forks
  import opened Lifecycle

  /** The inputs taken so far, oldest first. */
  type Past = seq<Input>

  const START := Event(Command(Start))
  const HANGUP := Event(Command(Hangup))

  predicate IsAnswer(i: Input) { i.Event? && i.event.InviteAccepted? }

  predicate Answered(p: Past) { exists i | i in p :: IsAnswer(i) }

  /** Whichever came first, a hang-up or an answer: it decides what becomes of the call. */
  function Decider(p: Past): (r: Option<Input>)
    ensures r.Some? ==> r.value in p && (r.value == HANGUP || IsAnswer(r.value))
    ensures r.None? <==> HANGUP !in p && !Answered(p)
  {
    if p == [] then None
    else
      var n := |p| - 1;
      assert p == p[..n] + [p[n]];
      var earlier := Decider(p[..n]);
      if earlier.Some? then earlier else if p[n] == HANGUP || IsAnswer(p[n]) then Some(p[n]) else None
  }

  /** The branch that carries the call: the first answer, unless a hang-up came before it. */
  function Carrier(p: Past): Option<BranchId> {
    match Decider(p)
    case Some(Event(InviteAccepted(branch))) => Some(branch)
    case _ => None
  }

  predicate Canceling(p: Past) { Decider(p) == Some(HANGUP) }

  /** What an input says about a branch. */
  function NoteOf(i: Input): Option<Branch> {
    match i
    case Event(Provisional(branch, _)) => Some(Branch(branch, Early))
    case Event(InviteAccepted(branch)) => Some(Branch(branch, Confirmed))
    case Event(InviteRejected(branch, _)) => Some(Branch(branch, Terminated))
    case Event(ByeCompleted(branch)) => Some(Branch(branch, Terminated))
    case _ => None
  }

  /** The newest word on every branch. */
  function Notes(p: Past): ForkMap {
    if p == [] then map[]
    else
      var n := |p| - 1;
      var note := NoteOf(p[n]);
      if note.Some? then Notes(p[..n])[note.value.id := note.value.state] else Notes(p[..n])
  }

  predicate Quiet(p: Past) { forall b | b in Notes(p) :: Notes(p)[b] == Terminated }

  /** Whether and why `i` ends the call after `p`. */
  function EndedBy(p: Past, i: Input): Option<CallEndReason> {
    match i
    case ForceEnd(reason) => Some(reason)
    case Event(RemoteBye) => Some(RemoteHangup)
    case Event(SignalingTimedOut) => Some(SignalingTimeout)
    case Event(MediaTimedOut) => Some(MediaTimeout)
    case Event(TransportFailed) => Some(TransportFailure)
    case Event(InviteRejected(_, status)) =>
      if Carrier(p).Some? || !Quiet(p + [i]) then None
      else Some(if HANGUP in p then Canceled else ReasonFromStatus(status))
    case Event(ByeCompleted(_)) =>
      if HANGUP !in p || !Answered(p) || !Quiet(p + [i]) then None
      else Some(if Carrier(p).Some? then LocalHangup else Canceled)
    case _ => None
  }

  /** Why the call has ended, if it has: an ended call takes nothing more. */
  function Ending(p: Past): Option<CallEndReason> {
    if p == [] then None else EndedBy(p[..|p| - 1], p[|p| - 1])
  }

  function StateOf(p: Past): CallState {
    match Ending(p)
    case Some(reason) => Ended(reason)
    case None =>
      if Answered(p) then if HANGUP in p then Terminating else Established
      else if HANGUP in p then Cancelling
      else if START in p then Inviting else Idle
  }

  /** Why `i` is refused after `p`. */
  function Refusal(p: Past, i: Input): Option<LifecycleError> {
    match i
    case ForceEnd(_) => None
    case Event(event) =>
      if Ending(p).Some? then Some(AlreadyEnded)
      else match event
        case Command(Start) => if START in p then Some(InvalidEvent) else None
        case Command(Hangup) =>
          if START !in p || (HANGUP in p && Answered(p)) then Some(InvalidEvent) else None
        case Command(_) => if Answered(p) && HANGUP !in p then None else Some(InvalidEvent)
        case SessionModification(_, _) => if Answered(p) && HANGUP !in p then None else Some(InvalidEvent)
        case Provisional(branch, _) =>
          if START !in p || Answered(p) then Some(InvalidEvent) else NoRoom(p, branch)
        case InviteAccepted(branch) => if START !in p then Some(InvalidEvent) else NoRoom(p, branch)
        case InviteRejected(branch, status) =>
          if status < 300 || status > 699 then Some(InvalidFinalStatus) else NoRoom(p, branch)
        case ByeCompleted(branch) => NoRoom(p, branch)
        case _ => None
  }

  /** Sixteen branches are remembered. */
  function NoRoom(p: Past, branch: BranchId): Option<LifecycleError> {
    if branch in Notes(p) || |Notes(p)| < 16 then None else Some(Fork(BranchLimitExceeded))
  }

  /** What is done about `i` after `p`. */
  function Reply(p: Past, i: Input): seq<CallAction> {
    var ended := EndedBy(p, i);
    if ended.Some? then [PublishEnded(ended.value)]
    else match i
      case Event(Command(Start)) => [SendInvite]
      case Event(Command(Hangup)) =>
        if Carrier(p).Some? then [SendBye(Carrier(p).value)] else if HANGUP in p then [] else [SendCancel]
      case Event(Command(BlindTransfer(target))) => [SendRefer(target)]
      case Event(Command(AttendedTransfer(callId, generation))) => [SendReferReplaces(callId, generation)]
      case Event(SessionModification(isUpdate, hasOffer)) => [ApplySessionModification(isUpdate, hasOffer)]
      case Event(Provisional(branch, hasSdp)) => if hasSdp then [ApplyEarlyMedia(branch)] else []
      case Event(InviteAccepted(branch)) =>
        if !Answered(p) && HANGUP !in p then [SendAck(branch), SelectBranch(branch)]
        else if Carrier(p) == Some(branch) && HANGUP !in p then [SendAck(branch)]
        else [SendAck(branch), SendBye(branch)]
      case _ => []
  }

  // ---------------------------------------------------------------------------
  // The state machine agrees
  // ---------------------------------------------------------------------------

  /** The call is what its past makes it. */
  predicate Recalls(c: Call, p: Past) {
    && c.state == StateOf(p) && c.forks == Notes(p) && c.selected == Carrier(p)
    && c.cancelRequested == c.cancelSent == Canceling(p)
    && ((HANGUP in p || Answered(p)) ==> START in p)
  }

  lemma OneMore(p: Past, i: Input)
    ensures HANGUP in p + [i] <==> HANGUP in p || i == HANGUP
    ensures START in p + [i] <==> START in p || i == START
    ensures Answered(p + [i]) <==> Answered(p) || IsAnswer(i)
    ensures Decider(p + [i]) ==
              if Decider(p).Some? then Decider(p) else if i == HANGUP || IsAnswer(i) then Some(i) else None
    ensures Notes(p + [i]) ==
              if NoteOf(i).Some? then Notes(p)[NoteOf(i).value.id := NoteOf(i).value.state] else Notes(p)
    ensures Ending(p + [i]) == EndedBy(p, i)
  {
    var all := p + [i];
    assert all[..|all| - 1] == p && all[|all| - 1] == i;
    if Answered(p) {
      var a :| a in p && IsAnswer(a);
      assert a in all;
    }
    if IsAnswer(i) {
      assert i in all;
    }
  }

  lemma QuietIsDead(p: Past)
    ensures Quiet(p) <==> !HasLive(Notes(p))
  {
  }

  /** An answer before any hang-up carries the call. */
  lemma DeciderTells(p: Past)
    ensures Carrier(p).Some? ==> Answered(p)
    ensures HANGUP !in p ==> (Answered(p) <==> Carrier(p).Some?)
    ensures !Answered(p) ==> (HANGUP in p <==> Canceling(p))
    ensures HANGUP in p && Answered(p) ==> (Carrier(p).Some? <==> !Canceling(p))
    ensures Canceling(p) ==> HANGUP in p && Carrier(p).None?
  {
  }

  lemma RefusedAlike(c: Call, p: Past, i: Input)
    requires Recalls(c, p) && i.Event?
    ensures c.Handle(i.event).1.Err? <==> Refusal(p, i).Some?
    ensures Refusal(p, i).Some? ==> c.Handle(i.event).1 == Err(Refusal(p, i).value)
  {
    hide Decider, Notes, Quiet, EndedBy;
    DeciderTells(p);
    match i.event
    case Command(command) => match command { case Start => case Hangup => case _ => }
    case Provisional(_, _) =>
    case InviteAccepted(_) =>
    case InviteRejected(_, _) =>
    case ByeCompleted(_) =>
    case _ =>
  }

  /** Agreement on one input that is taken. */
  predicate Agrees(c: Call, p: Past, i: Input) {
    Emitted(c, i) == Reply(p, i) && Recalls(Next(c, i), p + [i])
  }

  lemma CommandTaken(c: Call, p: Past, i: Input)
    requires Recalls(c, p) && Ending(p).None? && Refusal(p, i).None? && i.Event? && i.event.Command?
    ensures Agrees(c, p, i)
  {
    hide Decider, Notes, Quiet;
    OneMore(p, i);
    DeciderTells(p);
    match i.event.command { case Start => case Hangup => case _ => }
  }

  lemma AnswerTaken(c: Call, p: Past, i: Input)
    requires Recalls(c, p) && Ending(p).None? && Refusal(p, i).None? && IsAnswer(i)
    ensures Agrees(c, p, i)
  {
    hide Decider, Notes, Quiet;
    OneMore(p, i);
    DeciderTells(p);
  }

  lemma RejectionTaken(c: Call, p: Past, i: Input)
    requires Recalls(c, p) && Ending(p).None? && Refusal(p, i).None? && i.Event? && i.event.InviteRejected?
    ensures Agrees(c, p, i)
  {
    hide Decider, Notes, Quiet;
    OneMore(p, i);
    DeciderTells(p);
    QuietIsDead(p + [i]);
  }

  lemma ByeTaken(c: Call, p: Past, i: Input)
    requires Recalls(c, p) && Ending(p).None? && Refusal(p, i).None? && i.Event? && i.event.ByeCompleted?
    ensures Agrees(c, p, i)
  {
    hide Decider, Notes, Quiet;
    OneMore(p, i);
    DeciderTells(p);
    QuietIsDead(p + [i]);
  }

  lemma OtherTaken(c: Call, p: Past, i: Input)
    requires Recalls(c, p) && Ending(p).None? && Refusal(p, i).None?
    requires i.Event? ==>
               !i.event.Command? && !i.event.InviteAccepted? && !i.event.InviteRejected? && !i.event.ByeCompleted?
    ensures Agrees(c, p, i)
  {
    hide Decider, Notes, Quiet;
    OneMore(p, i);
    DeciderTells(p);
  }

  lemma InputTaken(c: Call, p: Past, i: Input)
    requires Recalls(c, p) && Takes(p, i)
    ensures Agrees(c, p, i)
  {
    hide Agrees, Recalls, Refusal, EndedBy;
    match i
    case Event(Command(_)) => CommandTaken(c, p, i);
    case Event(InviteAccepted(_)) => AnswerTaken(c, p, i);
    case Event(InviteRejected(_, _)) => RejectionTaken(c, p, i);
    case Event(ByeCompleted(_)) => ByeTaken(c, p, i);
    case _ => OtherTaken(c, p, i);
  }

  lemma InputRefused(c: Call, p: Past, i: Input)
    requires Recalls(c, p) && !Takes(p, i)
    ensures Emitted(c, i) == [] && Recalls(Next(c, i), p)
  {
    if i.Event? {
      RefusedAlike(c, p, i);
      RefusalChangesNothing(c, i.event);
    }
  }

  // ---------------------------------------------------------------------------
  // Every run
  // ---------------------------------------------------------------------------

  predicate Takes(p: Past, i: Input) { Ending(p).None? && Refusal(p, i).None? }

  /** What a run takes in. */
  function Heard(inputs: seq<Input>): Past {
    if inputs == [] then []
    else
      var n := |inputs| - 1;
      var p := Heard(inputs[..n]);
      if Takes(p, inputs[n]) then p + [inputs[n]] else p
  }

  /** What it answers. */
  function Said(inputs: seq<Input>): seq<CallAction> {
    if inputs == [] then []
    else
      var n := |inputs| - 1;
      var p := Heard(inputs[..n]);
      Said(inputs[..n]) + if Takes(p, inputs[n]) then Reply(p, inputs[n]) else []
  }

  /** The last final status that reached the call before its end, even if its branch was one too many. */
  function LastFinal(inputs: seq<Input>): Option<nat> {
    if inputs == [] then None
    else
      var n := |inputs| - 1;
      match inputs[n]
      case Event(InviteRejected(_, status)) =>
        if Ending(Heard(inputs[..n])).None? && 300 <= status <= 699 then Some(status) else LastFinal(inputs[..n])
      case _ => LastFinal(inputs[..n])
  }

  lemma StatusStep(c: Call, p: Past, i: Input)
    requires Recalls(c, p)
    ensures Next(c, i).lastStatus ==
            match i
            case Event(InviteRejected(_, status)) =>
              if Ending(p).None? && 300 <= status <= 699 then Some(status) else c.lastStatus
            case _ => c.lastStatus
  {
    hide Notes, Decider, EndedBy;
  }

  /** On every run the call is what its past makes it, and has said what its past calls for. */
  lemma {:induction false} CallIsItsPast(inputs: seq<Input>)
    ensures Recalls(Run(inputs).call, Heard(inputs)) && Run(inputs).log == Said(inputs)
    ensures Run(inputs).call.lastStatus == LastFinal(inputs)
  {
    hide Recalls, Takes, Reply, Ending, Next, Emitted;
    if inputs == [] {
      NothingHeard();
    } else {
      var n := |inputs| - 1;
      CallIsItsPast(inputs[..n]);
      var c, p := Run(inputs[..n]).call, Heard(inputs[..n]);
      StatusStep(c, p, inputs[n]);
      if Takes(p, inputs[n]) {
        InputTaken(c, p, inputs[n]);
      } else {
        InputRefused(c, p, inputs[n]);
      }
    }
  }

  lemma NothingHeard()
    ensures Recalls(NEW_CALL, [])
  {
  }

  // ---------------------------------------------------------------------------
  // The first answer carries the call
  // ---------------------------------------------------------------------------

  /** The branches of all answers taken are those the run acknowledged, in order. */
  lemma {:induction false} AnswersHeard(inputs: seq<Input>)
    ensures Run(inputs).accepted == Answers(Heard(inputs))
  {
    hide Recalls, Refusal, Ending, Reply, Call.Handle;
    if inputs != [] {
      var n := |inputs| - 1;
      AnswersHeard(inputs[..n]);
      CallIsItsPast(inputs[..n]);
      var c, p := Run(inputs[..n]).call, Heard(inputs[..n]);
      if IsAnswer(inputs[n]) {
        RefusedAlike(c, p, inputs[n]);
        if Refusal(p, inputs[n]).None? {
          EndRefuses(p, inputs[n]);
        }
      }
      assert (p + [inputs[n]])[..|p|] == p;
    }
  }

  lemma EndRefuses(p: Past, i: Input)
    requires i.Event? && Refusal(p, i).None?
    ensures Ending(p).None?
  {
  }

  function Answers(p: Past): seq<BranchId> {
    if p == [] then []
    else Answers(p[..|p| - 1]) + if IsAnswer(p[|p| - 1]) then [p[|p| - 1].event.branch] else []
  }

  lemma {:induction false} FirstAnswerDecides(p: Past)
    ensures Answers(p) == [] <==> !Answered(p)
    ensures Answered(p) && !Canceling(p) ==> Carrier(p) == Some(Answers(p)[0])
  {
    hide Decider, Notes, EndedBy;
    if p != [] {
      var n := |p| - 1;
      FirstAnswerDecides(p[..n]);
      OneMore(p[..n], p[n]);
      assert p == p[..n] + [p[n]];
    }
  }

  /** Unless a hang-up came first, the first branch to answer carries the call. */
  lemma FirstAnswerCarries(inputs: seq<Input>)
    ensures var h := Run(inputs);
            !h.call.cancelRequested && h.accepted != [] ==> h.call.selected == Some(h.accepted[0])
  {
    hide StateOf, Notes;
    CallIsItsPast(inputs);
    AnswersHeard(inputs);
    FirstAnswerDecides(Heard(inputs));
  }

  lemma {:induction false} HungWhileEstablished(inputs: seq<Input>) returns (k: nat)
    requires HANGUP in Heard(inputs) && Carrier(Heard(inputs)).Some?
    ensures k < |inputs| && inputs[k] == HANGUP && StateOf(Heard(inputs[..k])) == Established
  {
    var n := |inputs| - 1;
    var p := Heard(inputs[..n]);
    OneMore(p, inputs[n]);
    DeciderTells(p);
    if HANGUP in p {
      k := HungWhileEstablished(inputs[..n]);
      assert inputs[..n][..k] == inputs[..k];
    } else {
      k := n;
    }
  }

  lemma {:induction false} CarrierIsSpared(inputs: seq<Input>)
    requires Carrier(Heard(inputs)).Some? && SendBye(Carrier(Heard(inputs)).value) in Said(inputs)
    ensures HANGUP in Heard(inputs)
  {
    var n := |inputs| - 1;
    var p, b := Heard(inputs[..n]), Carrier(Heard(inputs)).value;
    OneMore(p, inputs[n]);
    DeciderTells(p);
    if SendBye(b) in Said(inputs[..n]) && Carrier(p).Some? {
      CarrierIsSpared(inputs[..n]);
    } else if SendBye(b) in Said(inputs[..n]) {
      NoByeBeforeAnAnswer(inputs[..n], b);
    }
  }

  lemma {:induction false} NoByeBeforeAnAnswer(inputs: seq<Input>, b: BranchId)
    requires Decider(Heard(inputs)).None?
    ensures SendBye(b) !in Said(inputs)
  {
    if inputs != [] {
      var n := |inputs| - 1;
      OneMore(Heard(inputs[..n]), inputs[n]);
      DeciderTells(Heard(inputs[..n]));
      NoByeBeforeAnAnswer(inputs[..n], b);
    }
  }

  /** The branch that carries the call is sent BYE only once the established call was hung up. */
  lemma CarrierIsByedOnHangup(inputs: seq<Input>) returns (k: nat)
    requires var h := Run(inputs); h.call.selected.Some? && SendBye(h.call.selected.value) in h.log
    ensures k < |inputs| && inputs[k] == HANGUP && Run(inputs[..k]).call.state == Established
  {
    hide StateOf, Notes, Reply;
    CallIsItsPast(inputs);
    CarrierIsSpared(inputs);
    k := HungWhileEstablished(inputs);
    CallIsItsPast(inputs[..k]);
  }

  /** The statuses with a reason of their own; any other is a plain rejection. */
  lemma StatusesWithAReason(status: nat)
    ensures ReasonFromStatus(status) == AuthenticationFailed <==> status in {401, 407}
    ensures ReasonFromStatus(status) == NoAnswer <==> status == 408
    ensures ReasonFromStatus(status) == RemoteBusy <==> status in {486, 600}
    ensures ReasonFromStatus(status) == Canceled <==> status == 487
    ensures ReasonFromStatus(status) == RemoteUnavailable <==> status in {404, 410, 480, 502, 503, 504}
    ensures ReasonFromStatus(status) == RemoteRejected <==>
              status !in {401, 404, 407, 408, 410, 480, 486, 487, 502, 503, 504, 600}
  {
  }
}
