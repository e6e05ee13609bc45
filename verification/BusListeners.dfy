/** Handles that `subscribe` returns, and listener arrays that hold one entry per open handle. */
module BusListeners {

  /** A listener function; only its identity matters. */
  type Receiver = nat

  /** The object `subscribe` returns, with the `canceled` flag its closure keeps. */
  datatype Handle = Handle(topic: string, receiver: Receiver, canceled: bool)

  /** How many uncancelled handles hold this receiver on this topic. */
  function Open(handles: seq<Handle>, topic: string, receiver: Receiver): nat {
    if handles == [] then 0
    else
      var h := handles[|handles| - 1];
      Open(handles[..|handles| - 1], topic, receiver) +
      if h == Handle(topic, receiver, false) then 1 else 0
  }

  /** The array holds every receiver once for each of its open handles. */
  ghost predicate Matches(listeners: seq<Receiver>, handles: seq<Handle>, topic: string) {
    forall r: Receiver :: multiset(listeners)[r] == Open(handles, topic, r)
  }

  lemma OpenAppend(handles: seq<Handle>, h: Handle, topic: string, receiver: Receiver)
    ensures Open(handles + [h], topic, receiver) ==
      Open(handles, topic, receiver) + if h == Handle(topic, receiver, false) then 1 else 0
  {
    assert (handles + [h])[..|handles|] == handles;
  }

  function Cancelled(handles: seq<Handle>, i: nat): seq<Handle>
    requires i < |handles|
  {
    handles[i := handles[i].(canceled := true)]
  }

  lemma {:induction false} OpenCancelled(handles: seq<Handle>, i: nat, topic: string, receiver: Receiver)
    requires i < |handles|
    ensures Open(handles, topic, receiver) ==
      Open(Cancelled(handles, i), topic, receiver) + if handles[i] == Handle(topic, receiver, false) then 1 else 0
  {
    var n := |handles| - 1;
    if i == n {
      assert Cancelled(handles, i)[..n] == handles[..n];
    } else {
      assert Cancelled(handles, i)[..n] == Cancelled(handles[..n], i);
      OpenCancelled(handles[..n], i, topic, receiver);
    }
  }

  lemma {:induction false} OpenMeansHandle(handles: seq<Handle>, topic: string, receiver: Receiver)
    ensures Open(handles, topic, receiver) > 0 <==>
      exists i | 0 <= i < |handles| :: handles[i] == Handle(topic, receiver, false)
  {
    if handles != [] {
      var n := |handles| - 1;
      OpenMeansHandle(handles[..n], topic, receiver);
      if Open(handles[..n], topic, receiver) > 0 {
        var i :| 0 <= i < n && handles[..n][i] == Handle(topic, receiver, false);
        assert handles[i] == Handle(topic, receiver, false);
      }
      if i :| 0 <= i < |handles| && handles[i] == Handle(topic, receiver, false) {
        if i < n {
          assert handles[..n][i] == handles[i];
        }
      }
    }
  }

  lemma PushMatches(listeners: seq<Receiver>, handles: seq<Handle>, topic: string, receiver: Receiver)
    requires Matches(listeners, handles, topic)
    ensures Matches(listeners + [receiver], handles + [Handle(topic, receiver, false)], topic)
    ensures forall t, r | t != topic ::
      Open(handles + [Handle(topic, receiver, false)], t, r) == Open(handles, t, r)
  {
    forall t: string, r: Receiver
      ensures Open(handles + [Handle(topic, receiver, false)], t, r) ==
        Open(handles, t, r) + if t == topic && r == receiver then 1 else 0
    {
      OpenAppend(handles, Handle(topic, receiver, false), t, r);
    }
  }

  lemma NoneMatches(handles: seq<Handle>, topic: string)
    requires forall r :: Open(handles, topic, r) == 0
    ensures Matches([], handles, topic)
  {
  }

  lemma MatchesElsewhere(listeners: seq<Receiver>, handles: seq<Handle>, more: seq<Handle>, topic: string)
    requires Matches(listeners, handles, topic)
    requires forall r :: Open(more, topic, r) == Open(handles, topic, r)
    ensures Matches(listeners, more, topic)
  {
  }

  function Spliced(listeners: seq<Receiver>, i: nat): seq<Receiver>
    requires i < |listeners|
  {
    listeners[..i] + listeners[i + 1..]
  }

  lemma SplicedCount(listeners: seq<Receiver>, i: nat)
    requires i < |listeners|
    ensures multiset(listeners) == multiset(Spliced(listeners, i)) + multiset{listeners[i]}
  {
    assert listeners == listeners[..i] + [listeners[i]] + listeners[i + 1..];
  }

  /** Cancelling a handle takes one entry of its receiver, so the array keeps matching. */
  lemma SpliceMatches(listeners: seq<Receiver>, handles: seq<Handle>, i: nat, k: nat)
    requires i < |handles| && !handles[i].canceled && Matches(listeners, handles, handles[i].topic)
    requires k < |listeners| && listeners[k] == handles[i].receiver
    ensures Matches(Spliced(listeners, k), Cancelled(handles, i), handles[i].topic)
    ensures forall t, r | t != handles[i].topic :: Open(Cancelled(handles, i), t, r) == Open(handles, t, r)
  {
    SplicedCount(listeners, k);
    forall t: string, r: Receiver
      ensures Open(handles, t, r) ==
        Open(Cancelled(handles, i), t, r) + if t == handles[i].topic && r == handles[i].receiver then 1 else 0
    {
      OpenCancelled(handles, i, t, r);
    }
  }

  /** An open handle's receiver is in the array, so the lookup on cancel cannot fail. */
  lemma OpenIsListed(listeners: seq<Receiver>, handles: seq<Handle>, i: nat)
    requires i < |handles| && !handles[i].canceled && Matches(listeners, handles, handles[i].topic)
    ensures handles[i].receiver in listeners
  {
    OpenMeansHandle(handles, handles[i].topic, handles[i].receiver);
    assert multiset(listeners)[handles[i].receiver] > 0;
  }

  /** `findIndex`: the first position of the receiver, or -1. */
  function IndexOf(listeners: seq<Receiver>, receiver: Receiver): (index: int)
    ensures index == -1 <==> receiver !in listeners
    ensures index != -1 ==> 0 <= index < |listeners| && listeners[index] == receiver
  {
    if listeners == [] then -1
    else if listeners[0] == receiver then 0
    else
      var rest := IndexOf(listeners[1..], receiver);
      if rest == -1 then -1 else rest + 1
  }

  lemma {:induction false} IndexIsFirst(listeners: seq<Receiver>, receiver: Receiver, index: nat)
    requires index < |listeners| && listeners[index] == receiver && receiver !in listeners[..index]
    ensures IndexOf(listeners, receiver) == index
    decreases index
  {
    if index > 0 {
      assert listeners[0] == listeners[..index][0];
      assert listeners[1..][..index - 1] == listeners[..index][1..];
      IndexIsFirst(listeners[1..], receiver, index - 1);
    }
  }

  method FindIndex(listeners: seq<Receiver>, receiver: Receiver) returns (index: int)
    ensures index == IndexOf(listeners, receiver)
  {
    index := 0;
    while index < |listeners|
      invariant 0 <= index <= |listeners| && receiver !in listeners[..index]
    {
      if listeners[index] == receiver {
        IndexIsFirst(listeners, receiver, index);
        return;
      }
      index := index + 1;
    }
    assert listeners[..index] == listeners;
    index := -1;
  }

  lemma {:induction false} IndexIsEarly(listeners: seq<Receiver>, receiver: Receiver, index: nat)
    requires index < |listeners| && listeners[index] == receiver
    ensures 0 <= IndexOf(listeners, receiver) <= index
    decreases index
  {
    if index > 0 && listeners[0] != receiver {
      IndexIsEarly(listeners[1..], receiver, index - 1);
    }
  }

  // ---------- listeners that cancel while they are run ----------

  /** Handles that listeners of `topic` keep, to cancel their own subscription when they are run. */
  ghost predicate Own(handles: seq<Handle>, topic: string, own: map<Receiver, nat>) {
    forall r | r in own :: own[r] < |handles| && handles[own[r]].topic == topic && handles[own[r]].receiver == r
  }

  /** The listeners whose own handle is still open. */
  function Once(handles: seq<Handle>, own: map<Receiver, nat>): set<Receiver> {
    set r | r in own && own[r] < |handles| && !handles[own[r]].canceled
  }

  lemma OnceCancelled(handles: seq<Handle>, topic: string, own: map<Receiver, nat>, r: Receiver)
    requires Own(handles, topic, own) && r in own
    ensures Own(Cancelled(handles, own[r]), topic, own)
    ensures Once(Cancelled(handles, own[r]), own) == Once(handles, own) - {r}
  {
    var after := Cancelled(handles, own[r]);
    forall q | q in own
      ensures after[own[q]].canceled <==> q == r || handles[own[q]].canceled
    {
      assert own[q] == own[r] ==> q == r;
    }
  }

}
