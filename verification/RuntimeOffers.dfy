/**
 * What the observer of the process service is offered (src/runtime/service.rs):
 * which notification, about which call, under which number.
 */
module RuntimeOffers {
  import opened Wrappers
  import opened CallRegistry
  import opened Notifications
  import opened RuntimeService

  /** The notifications of these actions, numbered from `sequence` on. */
  function Numbered(token: Token, sequence: nat, actions: seq<nat>): seq<Notification>
    decreases |actions|
  {
    if actions == [] then []
    else [Notification(token, sequence, Action(actions[0]))] + Numbered(token, sequence + 1, actions[1..])
  }

  /** Every action is offered under the next number, in order, until the numbers run out. */
  lemma {:induction false} PublishAllOffers(s: Service, callId: nat, actions: seq<nat>)
    requires callId in s.calls && s.calls[callId].nextSequence <= U64_MAX
    ensures var call := s.calls[callId];
            var offered := Min(|actions|, U64_MAX - call.nextSequence);
            s.PublishAll(callId, actions).0.board.attempted ==
            s.board.attempted + Numbered(call.token, call.nextSequence, actions[..offered])
    decreases |actions|
  {
    var call := s.calls[callId];
    var offered := Min(|actions|, U64_MAX - call.nextSequence);
    if actions != [] && call.nextSequence < U64_MAX {
      var t := s.Publish(callId, actions[0]).0;
      PublishAllOffers(t, callId, actions[1..]);
      assert actions[..offered][1..] == actions[1..][..offered - 1];
      assert t.board.attempted == s.board.attempted + [Notification(call.token, call.nextSequence, Action(actions[0]))];
    } else {
      assert Numbered(call.token, call.nextSequence, actions[..offered]) == [];
    }
  }

  /** What one call of a pump offers: its actions and, if it has ended with numbers left, its exit. */
  function OfferedBy(s: Service, token: Token, visits: map<nat, Visit>): seq<Notification>
    requires token.callId in s.calls
  {
    var call, visit := s.calls[token.callId], VisitOf(visits, token);
    var actions := Actions(visit.batches);
    if call.nextSequence + |actions| > U64_MAX then
      Numbered(token, call.nextSequence, actions[..Min(|actions|, U64_MAX - Min(call.nextSequence, U64_MAX))])
    else
      Numbered(token, call.nextSequence, actions)
      + if visit.exit.None? then []
        else [Notification(token, call.nextSequence + |actions|, CallExited(visit.exit.value))]
  }

  lemma PumpCallOffers(s: Service, token: Token, visits: map<nat, Visit>)
    requires s.Sound({}) && token.callId in s.calls && s.calls[token.callId].token == token
    ensures s.PumpCall(token, VisitOf(visits, token)).0.board.attempted ==
            s.board.attempted + OfferedBy(s, token, visits)
  {
    hide Service.Sound, Service.PublishAll, Service.Finish, Actions, Numbered, Registry.Knows;
    var visit, call := VisitOf(visits, token), s.calls[token.callId];
    var actions := Actions(visit.batches);
    ActiveIsKnown(s, token);
    NothingPublished(s, token.callId);
    PublishAllOffers(s, token.callId, actions);
    var t, error := PublishAllKeepsSound(s, token.callId, actions);
    assert actions[..|actions|] == actions;
    if error.None? && visit.exit.Some? {
      NotYetRetained(t, token);
      FinishOffers(t.(registry := t.registry.Without(token.callId)), token, visit.exit.value);
    }
  }

  lemma FinishOffers(s: Service, token: Token, exit: nat)
    requires token.callId in s.calls && s.calls[token.callId].token == token && token.callId !in s.terminal
    ensures s.Finish(Report(token, exit)).0.board.attempted ==
            s.board.attempted + [Notification(token, s.calls[token.callId].nextSequence, CallExited(exit))]
  {
  }

  lemma NotYetRetained(s: Service, token: Token)
    requires s.Sound({}) && token.callId in s.calls
    ensures token.callId !in s.terminal
  {
  }

  /** What a pump offers, call by call, up to the first that has no number left. */
  function Offered(s: Service, order: seq<Token>, visits: map<nat, Visit>): seq<Notification>
    requires forall i | 0 <= i < |order| :: order[i].callId in s.calls
    decreases |order|
  {
    if order == [] then []
    else
      OfferedBy(s, order[0], visits) + if Overflows(s, order[0], visits) then [] else Offered(s, order[1..], visits)
  }

  lemma {:induction false} OfferedAlike(s: Service, t: Service, order: seq<Token>, visits: map<nat, Visit>)
    requires forall i | 0 <= i < |order| ::
               && order[i].callId in s.calls && order[i].callId in t.calls
               && s.calls[order[i].callId] == t.calls[order[i].callId]
    ensures Offered(s, order, visits) == Offered(t, order, visits)
    decreases |order|
  {
    hide OfferedBy, Overflows;
    if order != [] {
      OneOfferedAlike(s, t, order[0], visits);
      OfferedAlike(s, t, order[1..], visits);
    }
  }

  lemma OneOfferedAlike(s: Service, t: Service, token: Token, visits: map<nat, Visit>)
    requires token.callId in s.calls && token.callId in t.calls && s.calls[token.callId] == t.calls[token.callId]
    ensures OfferedBy(s, token, visits) == OfferedBy(t, token, visits)
    ensures Overflows(s, token, visits) <==> Overflows(t, token, visits)
  {
  }

  /** A pump offers every call's actions in order, numbered onwards, each exit after its call's actions. */
  lemma {:induction false} PumpOffers(s: Service, order: seq<Token>, visits: map<nat, Visit>)
    requires s.Sound({}) && Scanned(s, order)
    ensures s.Pump(order, visits).0.board.attempted == s.board.attempted + Offered(s, order, visits)
    decreases |order|
  {
    hide Service.Sound, Service.PumpCall, OfferedBy;
    if order != [] {
      PumpCallOffers(s, order[0], visits);
      var t, error := PumpCallKeepsSound(s, order[0], VisitOf(visits, order[0]));
      if error.None? {
        RestIsScanned(s, t, order);
        PumpOffers(t, order[1..], visits);
        forall i | 0 <= i < |order[1..]|
          ensures s.calls[order[1..][i].callId] == t.calls[order[1..][i].callId]
        {
          assert order[1..][i] == order[i + 1] && order[i + 1].callId != order[0].callId;
        }
        OfferedAlike(s, t, order[1..], visits);
      }
    }
  }

  /** Batches are published one after the other, each in its own order. */
  lemma {:induction false} BatchesInOrder(one: seq<seq<nat>>, two: seq<seq<nat>>, batch: seq<nat>)
    ensures Flatten(one + two) == Flatten(one) + Flatten(two) && Flatten([batch]) == batch
    decreases |two|
  {
    assert [batch][..0] == [];
    if two == [] {
      assert one + two == one;
    } else {
      var init := two[..|two| - 1];
      BatchesInOrder(one, init, batch);
      assert (one + two)[..|one + two| - 1] == one + init;
    }
  }
}
