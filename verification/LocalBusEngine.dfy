/**
 `LocalBusEngine`: the in-process bus. A topic's array is made once and kept, so the
 array a handle's closure holds is the one in the map.
 */
module LocalBusEngine {
  import opened BusListeners

  class Engine {
    var subscriptions: map<string, seq<Receiver>>
    var handles: seq<Handle>

    ghost predicate Valid()
      reads this
    {
      && (forall t | t in subscriptions :: Matches(subscriptions[t], handles, t))
      && (forall t, r | t !in subscriptions :: Open(handles, t, r) == 0)
    }

    constructor ()
      ensures Valid() && handles == [] && subscriptions == map[]
    {
      subscriptions, handles := map[], [];
    }

    /** Returns the position of the new handle. */
    method Subscribe(topic: string, receiver: Receiver) returns (handle: nat)
      requires Valid()
      modifies this
      ensures Valid()
      ensures handle == |old(handles)| && handles == old(handles) + [Handle(topic, receiver, false)]
      ensures topic in subscriptions
      ensures subscriptions[topic] ==
        (if topic in old(subscriptions) then old(subscriptions)[topic] else []) + [receiver]
      ensures subscriptions == old(subscriptions)[topic := subscriptions[topic]]
    {
      ghost var before := handles;
      handle := |handles|;
      if topic !in subscriptions {
        NoneMatches(handles, topic);
      }
      var ex := if topic in subscriptions then subscriptions[topic] else [];
      PushMatches(ex, handles, topic, receiver);
      subscriptions := subscriptions[topic := ex + [receiver]];
      handles := handles + [Handle(topic, receiver, false)];
      hide Matches, Open;
      forall t | t in subscriptions && t != topic
        ensures Matches(subscriptions[t], handles, t)
      {
        MatchesElsewhere(subscriptions[t], before, handles, t);
      }
    }

    /** The index lookup succeeds for every handle, so the "Impossible" throw is not reachable. */
    method Cancel(i: nat)
      requires Valid() && i < |handles|
      modifies this
      ensures Valid() && handles == Cancelled(old(handles), i)
      ensures var h := old(handles)[i];
        if h.canceled then subscriptions == old(subscriptions)
        else
          && h.topic in old(subscriptions)
          && IndexOf(old(subscriptions)[h.topic], h.receiver) != -1
          && subscriptions == old(subscriptions)[
               h.topic := Spliced(old(subscriptions)[h.topic], IndexOf(old(subscriptions)[h.topic], h.receiver))]
    {
      if handles[i].canceled {
        assert handles == Cancelled(handles, i);
        return;
      }
      ghost var before := handles;
      var topic, receiver := handles[i].topic, handles[i].receiver;
      OpenMeansHandle(handles, topic, receiver);
      assert topic in subscriptions;
      var ex := subscriptions[topic];
      OpenIsListed(ex, handles, i);
      var index := FindIndex(ex, receiver);
      SpliceMatches(ex, handles, i, index);
      handles := Cancelled(handles, i);
      subscriptions := subscriptions[topic := Spliced(ex, index)];
      hide Matches, Open;
      forall t | t in subscriptions && t != topic
        ensures Matches(subscriptions[t], handles, t)
      {
        MatchesElsewhere(subscriptions[t], before, handles, t);
      }
    }

    /**
     The callbacks a published message runs: those of the topic's array at that moment, in
     their order, each as often as it has open handles, whatever handles of their own the
     listeners in `own` cancel when they are run.
     */
    method Publish(topic: string, own: map<Receiver, nat>) returns (called: seq<Receiver>)
      requires Valid() && Own(handles, topic, own)
      modifies this
      ensures Valid()
      ensures called == if topic in old(subscriptions) then old(subscriptions)[topic] else []
      ensures forall r: Receiver :: multiset(called)[r] == Open(old(handles), topic, r)
      ensures Once(handles, own) == old(Once(handles, own)) - set r | r in called
    {
      called := [];
      if topic in subscriptions {
        var copy := subscriptions[topic];
        for i := 0 to |copy|
          invariant Valid() && Own(handles, topic, own) && called == copy[..i]
          invariant Once(handles, own) == old(Once(handles, own)) - set r | r in called
        {
          hide Valid;
          called := called + [copy[i]];
          if copy[i] in own {
            OnceCancelled(handles, topic, own, copy[i]);
            Cancel(own[copy[i]]);
          }
        }
        assert copy[..|copy|] == copy;
      }
    }
  }

}
