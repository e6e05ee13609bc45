/**
 Running the listeners of a message when listeners cancel their own subscription as they
 are run. The broker engine walks the live array, out of which each cancel takes an
 entry, so the listener behind a cancelling one is passed over.
 */
module BusDelivery {
  import opened Wrappers
  import opened BusListeners
  import opened NatsBusEngine

  /** Who is run: a listener that cancels takes the turn of the one behind it. */
  function Turns(listeners: seq<Receiver>, once: set<Receiver>): seq<Receiver>
    decreases |listeners|
  {
    if listeners == [] then []
    else if listeners[0] !in once then [listeners[0]] + Turns(listeners[1..], once)
    else [listeners[0]] + Turns(if |listeners| > 1 then listeners[2..] else [], once - {listeners[0]})
  }

  lemma {:induction false} TurnsAreFewer(listeners: seq<Receiver>, once: set<Receiver>)
    ensures |Turns(listeners, once)| <= |listeners|
    decreases |listeners|
  {
    if listeners != [] {
      if listeners[0] !in once {
        TurnsAreFewer(listeners[1..], once);
      } else {
        TurnsAreFewer(if |listeners| > 1 then listeners[2..] else [], once - {listeners[0]});
      }
    }
  }

  /** Everybody is run iff nobody cancels, except perhaps the last in the array. */
  lemma {:induction false} AllAreRunIff(listeners: seq<Receiver>, once: set<Receiver>)
    ensures Turns(listeners, once) == listeners <==> forall i | 0 <= i < |listeners| - 1 :: listeners[i] !in once
    decreases |listeners|
  {
    if |listeners| > 1 {
      var rest := listeners[1..];
      if listeners[0] !in once {
        AllAreRunIff(rest, once);
        assert listeners == [listeners[0]] + rest;
        assert Turns(listeners, once) == listeners <==> Turns(rest, once) == rest by {
          assert Turns(listeners, once)[1..] == Turns(rest, once);
        }
        assert forall i | 0 < i < |listeners| :: listeners[i] == rest[i - 1];
      } else {
        TurnsAreFewer(listeners[2..], once - {listeners[0]});
        assert |Turns(listeners, once)| < |listeners|;
      }
    } else if |listeners| == 1 {
      assert listeners[1..] == [];
    }
  }

  /** When just the listener at `i` cancels, everybody is run but the one behind it. */
  lemma {:induction false} OneIsPassedOver(listeners: seq<Receiver>, i: nat)
    requires i < |listeners| && listeners[i] !in listeners[..i]
    ensures Turns(listeners, {listeners[i]}) ==
      listeners[..i + 1] + if i + 1 < |listeners| then listeners[i + 2..] else []
    decreases i
  {
    if i == 0 {
      NobodyCancels(if |listeners| > 1 then listeners[2..] else []);
      assert {listeners[0]} - {listeners[0]} == {};
    } else {
      assert listeners[0] in listeners[..i];
      assert forall j | 0 <= j < i - 1 :: listeners[1..][j] == listeners[..i][j + 1];
      OneIsPassedOver(listeners[1..], i - 1);
    }
  }

  lemma NobodyCancels(listeners: seq<Receiver>)
    ensures Turns(listeners, {}) == listeners
  {
    AllAreRunIff(listeners, {});
  }

  /** An open handle's cancel takes the first entry of its receiver out of its topic's record. */
  lemma CancelSplices(s: State, k: nat, h: nat)
    requires Inv(s) && k < |s.records| && s.records[k].listeners != []
    requires h < |s.handles| && !s.handles[h].canceled && s.handles[h].topic == s.records[k].topic
    ensures var t := Do(s, Step.Cancel(h));
      var listeners, index := s.records[k].listeners, IndexOf(s.records[k].listeners, s.handles[h].receiver);
      && HandleCancelled(s, h) == Ok(t)
      && |t.records| == |s.records| && t.records[k].topic == s.records[k].topic
      && t.handles == Cancelled(s.handles, h)
      && 0 <= index < |listeners| && t.records[k].listeners == Spliced(listeners, index)
  {
    assert ListenersOk(s, k);
    CancelFinds(s, h);
  }

  /** What of an array is still ahead of position `i`; a position past the end has nothing ahead. */
  function Ahead(listeners: seq<Receiver>, i: nat): seq<Receiver> {
    if i <= |listeners| then listeners[i..] else []
  }

  /** Taking out an entry at or before position `i` moves everything behind it one up. */
  lemma SplicedAhead(listeners: seq<Receiver>, index: nat, i: nat)
    requires index <= i < |listeners|
    ensures Ahead(Spliced(listeners, index), i + 1) == if i + 1 < |listeners| then listeners[i..][2..] else []
  {
    if i + 1 < |listeners| {
      assert Spliced(listeners, index)[i + 1..] == listeners[i + 2..];
    }
  }

  /** What the engine is after `listener` was run. */
  ghost function AfterTurn(s: State, own: map<Receiver, nat>, listener: Receiver): State
    requires Inv(s) && (listener in own ==> own[listener] < |s.handles|)
  {
    if listener in own && !s.handles[own[listener]].canceled then Do(s, Step.Cancel(own[listener])) else s
  }

  /** One turn of the loop runs the next listener of what is due, and leaves the rest due. */
  lemma OneTurn(s: State, k: nat, i: nat, own: map<Receiver, nat>)
    requires Inv(s) && k < |s.records| && i < |s.records[k].listeners| && Own(s.handles, s.records[k].topic, own)
    ensures var listener := s.records[k].listeners[i];
      var t := AfterTurn(s, own, listener);
      && Inv(t) && |t.records| == |s.records| && t.records[k].topic == s.records[k].topic
      && Own(t.handles, t.records[k].topic, own)
      && Once(t.handles, own) == Once(s.handles, own) - {listener}
      && |t.records[k].listeners| <= |s.records[k].listeners|
      && Turns(Ahead(s.records[k].listeners, i), Once(s.handles, own)) ==
           [listener] + Turns(Ahead(t.records[k].listeners, i + 1), Once(t.handles, own))
  {
    hide Inv, Do, IndexOf;
    var listeners, listener := s.records[k].listeners, s.records[k].listeners[i];
    var due := Ahead(listeners, i);
    assert due[0] == listener && due[1..] == Ahead(listeners, i + 1);
    if listener in own && !s.handles[own[listener]].canceled {
      CancelSplices(s, k, own[listener]);
      StepKeepsInv(s, Step.Cancel(own[listener]));
      OnceCancelled(s.handles, s.records[k].topic, own, listener);
      IndexIsEarly(listeners, listener, i);
      SplicedAhead(listeners, IndexOf(listeners, listener), i);
    } else {
      assert listener !in Once(s.handles, own);
    }
  }

  /**
   The callback of a broker subscription with record `k`: it iterates over the live
   array, and each listener in `own` cancels its own handle when it is run.
   */
  method Deliver(engine: Engine, k: nat, own: map<Receiver, nat>) returns (called: seq<Receiver>)
    requires Inv(engine.Model()) && k < |engine.records| && Own(engine.handles, engine.records[k].topic, own)
    modifies engine
    ensures called == Turns(old(engine.records[k].listeners), old(Once(engine.handles, own)))
    ensures Inv(engine.Model()) && |engine.records| == |old(engine.records)|
    ensures Once(engine.handles, own) == old(Once(engine.handles, own)) - set r | r in called
  {
    hide Inv, Turns, Once, Ahead, AfterTurn;
    called := [];
    var i := 0;
    AheadOfAll(engine.records[k].listeners);
    while i < |engine.records[k].listeners|
      invariant Inv(engine.Model()) && |engine.records| == |old(engine.records)|
      invariant Own(engine.handles, engine.records[k].topic, own)
      invariant called + Turns(Ahead(engine.records[k].listeners, i), Once(engine.handles, own)) ==
        Turns(old(engine.records[k].listeners), old(Once(engine.handles, own)))
      invariant Once(engine.handles, own) == old(Once(engine.handles, own)) - set r | r in called
      decreases |engine.records[k].listeners| - i
    {
      var listener := engine.records[k].listeners[i];
      OneTurn(engine.Model(), k, i, own);
      InvKnowsTopics(engine.Model());
      ghost var t := AfterTurn(engine.Model(), own, listener);
      Regroup(called, [listener], Turns(Ahead(t.records[k].listeners, i + 1), Once(t.handles, own)));
      called := called + [listener];
      if listener in own {
        TurnIsCancel(engine.Model(), own, listener);
        var _ := engine.Cancel(own[listener]);
      } else {
        TurnIsNothing(engine.Model(), own, listener);
      }
      assert engine.Model() == t;
      i := i + 1;
    }
    NothingAhead(engine.records[k].listeners, i, Once(engine.handles, own));
  }

  lemma AheadOfAll(listeners: seq<Receiver>)
    ensures Ahead(listeners, 0) == listeners
  {
  }

  lemma NothingAhead(listeners: seq<Receiver>, i: nat, once: set<Receiver>)
    requires |listeners| <= i
    ensures Turns(Ahead(listeners, i), once) == []
  {
  }

  lemma TurnIsCancel(s: State, own: map<Receiver, nat>, listener: Receiver)
    requires Inv(s) && listener in own && own[listener] < |s.handles|
    requires forall t | t in s.subscriptions :: s.subscriptions[t] < |s.records|
    ensures HandleCancelled(s, own[listener]) == Ok(AfterTurn(s, own, listener))
  {
    hide Inv;
    if !s.handles[own[listener]].canceled {
      CancelFinds(s, own[listener]);
    }
  }

  lemma TurnIsNothing(s: State, own: map<Receiver, nat>, listener: Receiver)
    requires Inv(s) && listener !in own
    ensures AfterTurn(s, own, listener) == s
  {
  }

  lemma InvKnowsTopics(s: State)
    requires Inv(s)
    ensures forall t | t in s.subscriptions :: s.subscriptions[t] < |s.records|
  {
  }

  /**
   In every run, what a message delivered to a mapped record runs while listeners cancel
   their own handles: everybody iff none of them but the last is to cancel.
   */
  lemma DeliveryIsCompleteIff(steps: seq<Step>, id: BrokerId, own: map<Receiver, nat>)
    requires id in Exec(steps).live && Delivered(Exec(steps), id) != []
    requires var s := Exec(steps); s.live[id] < |s.records| && Own(s.handles, s.records[s.live[id]].topic, own)
    ensures var s := Exec(steps);
      var listeners := Delivered(s, id);
      Turns(listeners, Once(s.handles, own)) == listeners <==>
        forall r | r in own && r in listeners[..|listeners| - 1] :: s.handles[own[r]].canceled
  {
    var s := Exec(steps);
    hide Exec;
    var listeners := Delivered(s, id);
    AllAreRunIff(listeners, Once(s.handles, own));
    forall i | 0 <= i < |listeners| - 1
      ensures listeners[i] in listeners[..|listeners| - 1]
    {
      assert listeners[..|listeners| - 1][i] == listeners[i];
    }
  }
}
