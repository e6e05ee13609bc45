/**
 The broker engine by its history: who listens to a topic, in which order, told from the
 subscribe and cancel calls alone, without records, broker calls or subscriptions.
 */
module BusHistory {
  import opened Wrappers
  import opened BusListeners
  import opened NatsBusEngine
  import opened BusDelivery

  /** The handles returned so far; a handle is canceled once `cancel` was called on it. */
  function Handed(steps: seq<Step>): seq<Handle> {
    if steps == [] then []
    else
      var before := Handed(steps[..|steps| - 1]);
      match steps[|steps| - 1]
      case Subscribe(topic, receiver) => before + [Handle(topic, receiver, false)]
      case Cancel(i) =>
        if i < |before| then before[i := Handle(before[i].topic, before[i].receiver, true)] else before
      case _ => before
  }

  function WithoutFirst(listeners: seq<Receiver>, receiver: Receiver): seq<Receiver> {
    if listeners == [] then []
    else if listeners[0] == receiver then listeners[1..]
    else [listeners[0]] + WithoutFirst(listeners[1..], receiver)
  }

  /** Subscribing joins the end of the queue; the first cancel of a handle takes the first entry of its receiver out. */
  function Listening(steps: seq<Step>, topic: string): seq<Receiver> {
    if steps == [] then []
    else
      var earlier := steps[..|steps| - 1];
      var before := Listening(earlier, topic);
      match steps[|steps| - 1]
      case Subscribe(t, receiver) => if t == topic then before + [receiver] else before
      case Cancel(i) =>
        var handles := Handed(earlier);
        if i < |handles| && !handles[i].canceled && handles[i].topic == topic
        then WithoutFirst(before, handles[i].receiver)
        else before
      case _ => before
  }

  lemma {:induction false} SplicedIsWithoutFirst(listeners: seq<Receiver>, receiver: Receiver)
    requires receiver in listeners
    ensures Spliced(listeners, IndexOf(listeners, receiver)) == WithoutFirst(listeners, receiver)
  {
    if listeners[0] != receiver {
      assert listeners == [listeners[0]] + listeners[1..];
      SplicedIsWithoutFirst(listeners[1..], receiver);
      var rest, i := listeners[1..], IndexOf(listeners[1..], receiver);
      assert listeners[..i + 1] == [listeners[0]] + rest[..i];
      assert listeners[i + 2..] == rest[i + 1..];
    }
  }

  /** The listeners a topic has in the engine. */
  ghost function ListenersOf(s: State, topic: string): seq<Receiver>
    requires Inv(s)
  {
    if topic in s.subscriptions then s.records[s.subscriptions[topic]].listeners else []
  }

  lemma SubscribeListens(s: State, t: string, r: Receiver, topic: string)
    requires Inv(s)
    ensures Inv(Do(s, Step.Subscribe(t, r)))
    ensures ListenersOf(Do(s, Step.Subscribe(t, r)), topic) ==
      ListenersOf(s, topic) + if t == topic then [r] else []
  {
    StepKeepsInv(s, Step.Subscribe(t, r));
  }

  lemma OthersListen(s: State, step: Step, topic: string)
    requires Inv(s) && (step.Accept? || step.Return?)
    ensures Inv(Do(s, step)) && Do(s, step).handles == s.handles
    ensures ListenersOf(Do(s, step), topic) == ListenersOf(s, topic)
  {
    StepKeepsInv(s, step);
  }

  lemma CancelListens(s: State, i: nat, topic: string)
    requires Inv(s) && i < |s.handles| && !s.handles[i].canceled
    ensures var t := Do(s, Step.Cancel(i));
      && Inv(t) && t.handles == Cancelled(s.handles, i)
      && ListenersOf(t, topic) ==
           if s.handles[i].topic == topic then WithoutFirst(ListenersOf(s, topic), s.handles[i].receiver)
           else ListenersOf(s, topic)
  {
    var h, t := s.handles[i], Do(s, Step.Cancel(i));
    CancelFinds(s, i);
    var k := s.subscriptions[h.topic];
    assert s.records[k].topic == h.topic;
    CancelSplices(s, k, i);
    StepKeepsInv(s, Step.Cancel(i));
    SplicedIsWithoutFirst(s.records[k].listeners, h.receiver);
    if topic == h.topic && topic !in t.subscriptions {
      DroppedIsEmpty(t, k);
    }
    if topic == h.topic && topic in t.subscriptions {
      assert t.subscriptions[topic] == k;
    }
  }

  lemma DroppedIsEmpty(s: State, k: nat)
    requires Inv(s) && k < |s.records| && s.records[k].topic !in s.subscriptions
    ensures s.records[k].listeners == []
  {
    assert ListenersOk(s, k);
  }

  lemma {:induction false} HandlesAre(steps: seq<Step>)
    ensures Exec(steps).handles == Handed(steps)
  {
    if steps != [] {
      var before, last := steps[..|steps| - 1], steps[|steps| - 1];
      HandlesAre(before);
      var s := Exec(before);
      assert Exec(steps) == Do(s, last);
      hide Exec, Inv;
      match last
      case Subscribe(t, r) => SubscribeListens(s, t, r, t);
      case Cancel(i) =>
        if i < |s.handles| && !s.handles[i].canceled {
          CancelListens(s, i, "");
        }
      case _ => OthersListen(s, last, "");
    }
  }

  /** In every run a topic has exactly the listeners, in exactly the order, that its calls say. */
  lemma {:induction false} ListenersAre(steps: seq<Step>, topic: string)
    ensures ListenersOf(Exec(steps), topic) == Listening(steps, topic)
  {
    if steps != [] {
      var before, last := steps[..|steps| - 1], steps[|steps| - 1];
      ListenersAre(before, topic);
      HandlesAre(before);
      var s := Exec(before);
      assert Exec(steps) == Do(s, last);
      hide Exec, Inv, ListenersOf;
      match last
      case Subscribe(t, r) => SubscribeListens(s, t, r, topic);
      case Cancel(i) =>
        if i < |s.handles| && !s.handles[i].canceled {
          CancelListens(s, i, topic);
        }
      case _ => OthersListen(s, last, topic);
    }
  }

  /** So a message that a broker subscription delivers finds either nobody, or the topic's listeners in that order. */
  lemma DeliveredInOrder(steps: seq<Step>, id: BrokerId)
    requires id in Exec(steps).live && Delivered(Exec(steps), id) != []
    ensures var s := Exec(steps);
      s.live[id] < |s.records| && Delivered(s, id) == Listening(steps, s.records[s.live[id]].topic)
  {
    var s := Exec(steps);
    assert LiveOk(s, id) && ListenersOk(s, s.live[id]);
    ListenersAre(steps, s.records[s.live[id]].topic);
  }
}
