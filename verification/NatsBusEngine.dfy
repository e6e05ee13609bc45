/**
 `NatsBusEngine`: one broker subscription per topic, shared by its listeners, set up
 asynchronously and torn down when the last listener leaves, whenever the broker
 answers. A `TopicSubscription` object is known by its index among all the records
 ever made, so the closures of pending broker calls can still refer to dropped ones.
 */
module NatsBusEngine {
  import opened Wrappers
  import opened BusListeners

  type BrokerId = nat

  datatype Record = Record(
    topic: string, canceled: bool, ncSubscription: Option<BrokerId>, listeners: seq<Receiver>)

  /** A call of the broker's `subscribe` that has not returned to the engine yet. */
  datatype Call = Requested | Accepted(id: BrokerId)

  /** `live` is what the broker holds: each subscription and the record its callback reads. */
  datatype State = State(
    subscriptions: map<string, nat>,
    records: seq<Record>,
    handles: seq<Handle>,
    live: map<BrokerId, nat>,
    nextId: BrokerId,
    calls: map<nat, Call>)

  const EMPTY := State(map[], [], [], map[], 0, map[])

  datatype Failure = Inconsistency | DoubleUnsubscribe

  // ---------- the operations as functions ----------

  function WithListeners(s: State, k: nat, listeners: seq<Receiver>): State
    requires k < |s.records|
  {
    s.(records := s.records[k := s.records[k].(listeners := listeners)])
  }

  function Subscribed(s: State, topic: string, receiver: Receiver): State
    requires topic in s.subscriptions ==> s.subscriptions[topic] < |s.records|
  {
    var t := s.(handles := s.handles + [Handle(topic, receiver, false)]);
    if topic in s.subscriptions then
      var k := s.subscriptions[topic];
      WithListeners(t, k, s.records[k].listeners + [receiver])
    else
      t.(subscriptions := s.subscriptions[topic := |s.records|],
         records := s.records + [Record(topic, false, None, [receiver])],
         calls := s.calls[|s.records| := Requested])
  }

  /** The broker takes up a requested subscription and may deliver to it from now on. */
  function BrokerAccepted(s: State, k: nat): State {
    s.(live := s.live[s.nextId := k], calls := s.calls[k := Accepted(s.nextId)], nextId := s.nextId + 1)
  }

  /** The code after the awaited `subscribe`: a record dropped meanwhile gives its subscription up. */
  function SubscribeReturned(s: State, k: nat): State
    requires k < |s.records| && k in s.calls && s.calls[k].Accepted?
  {
    var t := s.(calls := s.calls - {k});
    if s.records[k].canceled then t.(live := s.live - {s.calls[k].id})
    else t.(records := s.records[k := s.records[k].(ncSubscription := Some(s.calls[k].id))])
  }

  function Unsubscribed(s: State, topic: string, receiver: Receiver): Result<State, Failure>
    requires topic in s.subscriptions ==> s.subscriptions[topic] < |s.records|
  {
    if topic !in s.subscriptions then Err(Inconsistency)
    else
      var k := s.subscriptions[topic];
      var r := s.records[k];
      var index := IndexOf(r.listeners, receiver);
      if index == -1 then Err(DoubleUnsubscribe)
      else if |r.listeners| != 1 then Ok(WithListeners(s, k, Spliced(r.listeners, index)))
      else
        Ok(s.(records := s.records[k := r.(listeners := [], canceled := true)],
              live := s.live - if r.ncSubscription.Some? then {r.ncSubscription.value} else {},
              subscriptions := s.subscriptions - {topic}))
  }

  /** `cancel` of handle `i`: only the first call does anything. */
  function HandleCancelled(s: State, i: nat): Result<State, Failure>
    requires i < |s.handles|
    requires forall t | t in s.subscriptions :: s.subscriptions[t] < |s.records|
  {
    if s.handles[i].canceled then Ok(s)
    else Unsubscribed(s.(handles := Cancelled(s.handles, i)), s.handles[i].topic, s.handles[i].receiver)
  }

  // ---------- the engine ----------

  class Engine {
    var subscriptions: map<string, nat>
    var records: seq<Record>
    var handles: seq<Handle>
    var live: map<BrokerId, nat>
    var nextId: BrokerId
    var calls: map<nat, Call>

    ghost function Model(): State
      reads this
    {
      State(subscriptions, records, handles, live, nextId, calls)
    }

    constructor ()
      ensures Model() == EMPTY
    {
      subscriptions, records, handles, live, nextId, calls := map[], [], [], map[], 0, map[];
    }

    /** Returns the position of the new handle. */
    method Subscribe(topic: string, receiver: Receiver) returns (handle: nat)
      requires topic in subscriptions ==> subscriptions[topic] < |records|
      modifies this
      ensures handle == |old(handles)| && Model() == Subscribed(old(Model()), topic, receiver)
    {
      handle := |handles|;
      handles := handles + [Handle(topic, receiver, false)];
      if topic in subscriptions {
        var k := subscriptions[topic];
        records := records[k := records[k].(listeners := records[k].listeners + [receiver])];
      } else {
        var _ := CreateNewSubscription(topic, receiver);
      }
    }

    /** Returns the record of the topic: a new one, unless there is one already. */
    method CreateNewSubscription(topic: string, receiver: Receiver) returns (k: nat)
      modifies this`subscriptions, this`records, this`calls
      ensures topic in subscriptions && k == subscriptions[topic]
      ensures topic in old(subscriptions) ==> Model() == old(Model())
      ensures topic !in old(subscriptions) ==>
        k == |old(records)| &&
        subscriptions == old(subscriptions)[topic := k] &&
        records == old(records) + [Record(topic, false, None, [receiver])] &&
        calls == old(calls)[k := Requested]
    {
      if topic in subscriptions {
        return subscriptions[topic];
      }
      k := |records|;
      records := records + [Record(topic, false, None, [receiver])];
      subscriptions := subscriptions[topic := k];
      calls := calls[k := Requested];
    }

    method SubscribeReturns(k: nat)
      requires k < |records| && k in calls && calls[k].Accepted?
      modifies this
      ensures Model() == SubscribeReturned(old(Model()), k)
    {
      var id := calls[k].id;
      calls := calls - {k};
      if records[k].canceled {
        live := live - {id};
      } else {
        records := records[k := records[k].(ncSubscription := Some(id))];
      }
    }

    method Cancel(i: nat) returns (failure: Option<Failure>)
      requires i < |handles|
      requires forall t | t in subscriptions :: subscriptions[t] < |records|
      modifies this
      ensures match HandleCancelled(old(Model()), i)
        case Ok(s) => failure == None && Model() == s
        case Err(e) => failure == Some(e)
    {
      if handles[i].canceled {
        return None;
      }
      handles := Cancelled(handles, i);
      failure := Unsubscribe(handles[i].topic, handles[i].receiver);
    }

    method Unsubscribe(topic: string, receiver: Receiver) returns (failure: Option<Failure>)
      requires topic in subscriptions ==> subscriptions[topic] < |records|
      modifies this`subscriptions, this`records, this`live
      ensures match Unsubscribed(old(Model()), topic, receiver)
        case Ok(s) => failure == None && Model() == s
        case Err(e) => failure == Some(e)
    {
      if topic !in subscriptions {
        return Some(Inconsistency);
      }
      var k := subscriptions[topic];
      var index := FindIndex(records[k].listeners, receiver);
      if index == -1 {
        return Some(DoubleUnsubscribe);
      }
      records := records[k := records[k].(listeners := Spliced(records[k].listeners, index))];
      if |records[k].listeners| == 0 {
        records := records[k := records[k].(canceled := true)];
        if records[k].ncSubscription.Some? {
          live := live - {records[k].ncSubscription.value};
        }
        subscriptions := subscriptions - {topic};
      }
      failure := None;
    }
  }

  // ---------- runs ----------

  datatype Step =
    | Subscribe(topic: string, receiver: Receiver)
    | Accept(record: nat)
    | Return(record: nat)
    | Cancel(handle: nat)

  ghost predicate Mapped(s: State, k: nat)
    requires k < |s.records|
  {
    s.records[k].topic in s.subscriptions && s.subscriptions[s.records[k].topic] == k
  }

  /** A mapped record lists every open handle of its topic; a dropped one lists nothing. */
  ghost predicate ListenersOk(s: State, k: nat)
    requires k < |s.records|
  {
    var r := s.records[k];
    if Mapped(s, k) then !r.canceled && r.listeners != [] && Matches(r.listeners, s.handles, r.topic)
    else r.canceled && r.listeners == []
  }

  /** A pending record learns its broker subscription later; a settled one has it exactly while mapped. */
  ghost predicate ConnectionOk(s: State, k: nat)
    requires k < |s.records|
  {
    var nc := s.records[k].ncSubscription;
    if k in s.calls then
      nc == None && (s.calls[k].Accepted? ==> s.calls[k].id in s.live && s.live[s.calls[k].id] == k)
    else if Mapped(s, k) then nc.Some? && nc.value in s.live && s.live[nc.value] == k
    else forall id | id in s.live :: s.live[id] != k
  }

  /** Every broker subscription is the one its record knows of or is about to learn. */
  ghost predicate LiveOk(s: State, id: BrokerId)
    requires id in s.live
  {
    var k := s.live[id];
    && id < s.nextId && k < |s.records|
    && if k in s.calls then s.calls[k] == Accepted(id) else s.records[k].ncSubscription == Some(id)
  }

  ghost predicate Inv(s: State) {
    && (forall t | t in s.subscriptions ::
          s.subscriptions[t] < |s.records| && s.records[s.subscriptions[t]].topic == t)
    && (forall k | k in s.calls :: k < |s.records|)
    && (forall k | 0 <= k < |s.records| :: ListenersOk(s, k))
    && (forall k | 0 <= k < |s.records| :: ConnectionOk(s, k))
    && (forall id | id in s.live :: LiveOk(s, id))
    && (forall t, r | t !in s.subscriptions :: Open(s.handles, t, r) == 0)
  }

  ghost function Do(s: State, step: Step): State
    requires Inv(s)
  {
    match step
    case Subscribe(t, r) => Subscribed(s, t, r)
    case Accept(k) => if k in s.calls && s.calls[k] == Requested then BrokerAccepted(s, k) else s
    case Return(k) => if k in s.calls && s.calls[k].Accepted? then SubscribeReturned(s, k) else s
    case Cancel(i) =>
      if i < |s.handles| then
        match HandleCancelled(s, i)
        case Ok(t) => t
        case Err(_) => s
      else s
  }

  lemma PushKeepsInv(s: State, topic: string, receiver: Receiver)
    requires Inv(s) && topic in s.subscriptions
    ensures Inv(Subscribed(s, topic, receiver))
  {
    hide Matches, Open;
    var t, k := Subscribed(s, topic, receiver), s.subscriptions[topic];
    assert ListenersOk(s, k);
    PushMatches(s.records[k].listeners, s.handles, topic, receiver);
    forall j | 0 <= j < |t.records|
      ensures ListenersOk(t, j) && ConnectionOk(t, j)
    {
      assert ListenersOk(s, j) && ConnectionOk(s, j);
      if j != k && Mapped(s, j) {
        MatchesElsewhere(s.records[j].listeners, s.handles, t.handles, s.records[j].topic);
      }
    }
    assert forall id | id in t.live :: LiveOk(s, id);
  }

  lemma CreateKeepsInv(s: State, topic: string, receiver: Receiver)
    requires Inv(s) && topic !in s.subscriptions
    ensures Inv(Subscribed(s, topic, receiver))
  {
    NoneMatches(s.handles, topic);
    PushMatches([], s.handles, topic, receiver);
    assert [] + [receiver] == [receiver];
    hide Matches, Open;
    var t := Subscribed(s, topic, receiver);
    forall id | id in t.live
      ensures LiveOk(t, id)
    {
      assert LiveOk(s, id);
    }
    forall j | 0 <= j < |t.records|
      ensures ListenersOk(t, j) && ConnectionOk(t, j)
    {
      if j < |s.records| {
        assert ListenersOk(s, j) && ConnectionOk(s, j);
        if Mapped(s, j) {
          MatchesElsewhere(s.records[j].listeners, s.handles, t.handles, s.records[j].topic);
        }
      }
    }
  }

  lemma AcceptKeepsInv(s: State, k: nat)
    requires Inv(s) && k in s.calls && s.calls[k] == Requested
    ensures Inv(BrokerAccepted(s, k))
  {
    hide Matches, Open;
    var t := BrokerAccepted(s, k);
    forall id | id in t.live
      ensures LiveOk(t, id)
    {
      if id in s.live {
        assert LiveOk(s, id);
      }
    }
    forall j | 0 <= j < |t.records|
      ensures ListenersOk(t, j) && ConnectionOk(t, j)
    {
      assert ListenersOk(s, j) && ConnectionOk(s, j);
      assert s.nextId in s.live ==> LiveOk(s, s.nextId);
    }
  }

  lemma ReturnKeepsInv(s: State, k: nat)
    requires Inv(s) && k in s.calls && s.calls[k].Accepted?
    ensures Inv(SubscribeReturned(s, k))
  {
    hide Matches, Open;
    var t := SubscribeReturned(s, k);
    assert ListenersOk(s, k) && ConnectionOk(s, k);
    forall id | id in t.live
      ensures LiveOk(t, id)
    {
      assert LiveOk(s, id);
    }
    forall j | 0 <= j < |t.records|
      ensures ListenersOk(t, j) && ConnectionOk(t, j)
    {
      assert ListenersOk(s, j) && ConnectionOk(s, j);
      assert forall id | id in s.live && s.live[id] == j :: LiveOk(s, id);
    }
  }

  /** Cancelling an open handle always finds its record and its listener: neither throw is reachable. */
  lemma CancelFinds(s: State, i: nat)
    requires Inv(s) && i < |s.handles| && !s.handles[i].canceled
    ensures var t := s.handles[i].topic;
      && t in s.subscriptions
      && s.handles[i].receiver in s.records[s.subscriptions[t]].listeners
      && HandleCancelled(s, i).Ok?
  {
    var h := s.handles[i];
    OpenMeansHandle(s.handles, h.topic, h.receiver);
    assert ListenersOk(s, s.subscriptions[h.topic]);
    OpenIsListed(s.records[s.subscriptions[h.topic]].listeners, s.handles, i);
  }

  lemma OneListenerLeft(listeners: seq<Receiver>, index: nat)
    requires index < |listeners|
    ensures |listeners| == 1 ==> Spliced(listeners, index) == []
    ensures |listeners| != 1 ==> Spliced(listeners, index) != []
  {
  }

  lemma CancelKeepsInv(s: State, i: nat)
    requires Inv(s) && i < |s.handles| && !s.handles[i].canceled && HandleCancelled(s, i).Ok?
    ensures Inv(HandleCancelled(s, i).value)
  {
    var h, t := s.handles[i], HandleCancelled(s, i).value;
    var k := s.subscriptions[h.topic];
    var r := s.records[k];
    var index := IndexOf(r.listeners, h.receiver);
    assert ListenersOk(s, k) && ConnectionOk(s, k);
    SpliceMatches(r.listeners, s.handles, i, index);
    OneListenerLeft(r.listeners, index);
    if |r.listeners| == 1 {
      NothingListed(t.handles, h.topic);
    }
    CancelledOthers(s, i, t, k);
  }

  lemma NothingListed(handles: seq<Handle>, topic: string)
    requires Matches([], handles, topic)
    ensures forall r :: Open(handles, topic, r) == 0
  {
    forall r: Receiver
      ensures Open(handles, topic, r) == 0
    {
      assert multiset([])[r] == Open(handles, topic, r);
    }
  }

  /** What cancelling leaves as it was, record by record. */
  lemma CancelledListeners(s: State, i: nat, t: State, k: nat, j: nat)
    requires Inv(s) && i < |s.handles| && !s.handles[i].canceled && HandleCancelled(s, i) == Ok(t)
    requires s.handles[i].topic in s.subscriptions && k == s.subscriptions[s.handles[i].topic]
    requires IndexOf(s.records[k].listeners, s.handles[i].receiver) != -1
    requires Matches(t.records[k].listeners, t.handles, s.handles[i].topic)
    requires t.records[k].listeners == [] <==> |s.records[k].listeners| == 1
    requires forall u, r | u != s.handles[i].topic :: Open(t.handles, u, r) == Open(s.handles, u, r)
    requires j < |s.records|
    ensures |t.records| == |s.records| && ListenersOk(t, j) && ConnectionOk(t, j)
  {
    assert ListenersOk(s, k) && ConnectionOk(s, k);
    assert ListenersOk(s, j) && ConnectionOk(s, j);
    assert forall id | id in s.live && s.live[id] == j :: LiveOk(s, id);
    hide Matches, Open, IndexOf, Cancelled, Spliced, Inv;
    if j != k && Mapped(s, j) {
      MatchesElsewhere(s.records[j].listeners, s.handles, t.handles, s.records[j].topic);
    }
  }

  lemma CancelledLive(s: State, i: nat, t: State, id: BrokerId)
    requires Inv(s) && i < |s.handles| && !s.handles[i].canceled && HandleCancelled(s, i) == Ok(t)
    requires id in t.live
    ensures LiveOk(t, id)
  {
    hide Open, IndexOf, Cancelled, Spliced, Matches;
    assert LiveOk(s, id);
    assert ListenersOk(s, s.live[id]) && ConnectionOk(s, s.live[id]);
  }

  lemma CancelledOthers(s: State, i: nat, t: State, k: nat)
    requires Inv(s) && i < |s.handles| && !s.handles[i].canceled && HandleCancelled(s, i) == Ok(t)
    requires s.handles[i].topic in s.subscriptions && k == s.subscriptions[s.handles[i].topic]
    requires IndexOf(s.records[k].listeners, s.handles[i].receiver) != -1
    requires Matches(t.records[k].listeners, t.handles, s.handles[i].topic)
    requires t.records[k].listeners == [] ==> forall r :: Open(t.handles, s.handles[i].topic, r) == 0
    requires t.records[k].listeners == [] <==> |s.records[k].listeners| == 1
    requires forall u, r | u != s.handles[i].topic :: Open(t.handles, u, r) == Open(s.handles, u, r)
    ensures Inv(t)
  {
    forall id | id in t.live
      ensures LiveOk(t, id)
    {
      CancelledLive(s, i, t, id);
    }
    forall j | 0 <= j < |s.records|
      ensures |t.records| == |s.records| && ListenersOk(t, j) && ConnectionOk(t, j)
    {
      CancelledListeners(s, i, t, k, j);
    }
    hide Matches, Open, IndexOf, Cancelled, Spliced, ListenersOk, ConnectionOk, LiveOk;
  }

  lemma StepKeepsInv(s: State, step: Step)
    requires Inv(s)
    ensures Inv(Do(s, step))
  {
    hide Inv;
    match step
    case Subscribe(t, r) =>
      if t in s.subscriptions {
        PushKeepsInv(s, t, r);
      } else {
        CreateKeepsInv(s, t, r);
      }
    case Accept(k) =>
      if k in s.calls && s.calls[k] == Requested {
        AcceptKeepsInv(s, k);
      }
    case Return(k) =>
      if k in s.calls && s.calls[k].Accepted? {
        ReturnKeepsInv(s, k);
      }
    case Cancel(i) =>
      if i < |s.handles| && !s.handles[i].canceled {
        CancelFinds(s, i);
        CancelKeepsInv(s, i);
      }
  }

  /** The state after any steps, in any order, from an engine without subscriptions. */
  ghost function Exec(steps: seq<Step>): (s: State)
    ensures Inv(s)
  {
    hide Inv;
    if steps == [] then EmptyIsFine(); EMPTY
    else
      var before := Exec(steps[..|steps| - 1]);
      StepKeepsInv(before, steps[|steps| - 1]);
      Do(before, steps[|steps| - 1])
  }

  lemma EmptyIsFine()
    ensures Inv(EMPTY)
  {
  }

  // ---------- what every run keeps ----------

  /** The topic map holds exactly the topics that have an uncancelled handle. */
  lemma MappedTopicsAreOpen(steps: seq<Step>, topic: string)
    ensures var s := Exec(steps);
      topic in s.subscriptions <==>
        exists i | 0 <= i < |s.handles| :: s.handles[i].topic == topic && !s.handles[i].canceled
  {
    var s := Exec(steps);
    if topic in s.subscriptions {
      var k := s.subscriptions[topic];
      assert ListenersOk(s, k);
      var r := s.records[k].listeners[0];
      assert multiset(s.records[k].listeners)[r] > 0;
      OpenMeansHandle(s.handles, topic, r);
      var i :| 0 <= i < |s.handles| && s.handles[i] == Handle(topic, r, false);
    }
    if i :| 0 <= i < |s.handles| && s.handles[i].topic == topic && !s.handles[i].canceled {
      OpenMeansHandle(s.handles, topic, s.handles[i].receiver);
    }
  }

  /**
   A dropped record has no listeners, and it has no broker subscription unless its
   call is still pending, in which case it is marked to be given up.
   */
  lemma DroppedRecordsDoNotLeak(steps: seq<Step>, k: nat)
    requires k < |Exec(steps).records| && !Mapped(Exec(steps), k)
    ensures var s := Exec(steps);
      && s.records[k].listeners == []
      && (k in s.calls ==> s.records[k].canceled && k !in LiveAfterReturn(s, k))
      && (k !in s.calls ==> k !in s.live.Values)
  {
    var s := Exec(steps);
    assert ListenersOk(s, k) && ConnectionOk(s, k);
    assert forall id | id in s.live && s.live[id] == k :: LiveOk(s, id);
  }

  /** The records that still have a broker subscription once the call of `k` has returned. */
  ghost function LiveAfterReturn(s: State, k: nat): set<nat>
    requires k < |s.records|
  {
    if k in s.calls && s.calls[k].Accepted? then SubscribeReturned(s, k).live.Values else s.live.Values
  }

  /** When nothing is pending there is exactly one broker subscription per mapped topic, and no other. */
  lemma SettledMeansOnePerTopic(steps: seq<Step>)
    requires Exec(steps).calls == map[]
    ensures var s := Exec(steps);
      && s.live.Values == s.subscriptions.Values
      && (forall a, b | a in s.live && b in s.live && s.live[a] == s.live[b] :: a == b)
      && |s.live| == |s.subscriptions|
  {
    var s := Exec(steps);
    forall id | id in s.live
      ensures s.live[id] in s.subscriptions.Values && s.records[s.live[id]].ncSubscription == Some(id)
    {
      assert LiveOk(s, id) && ConnectionOk(s, s.live[id]);
    }
    forall t | t in s.subscriptions
      ensures s.subscriptions[t] in s.live.Values
    {
      assert ConnectionOk(s, s.subscriptions[t]);
    }
    InjectiveSize(s.live);
    forall t, u | t in s.subscriptions && u in s.subscriptions && s.subscriptions[t] == s.subscriptions[u]
      ensures t == u
    {
    }
    InjectiveSize(s.subscriptions);
  }

  lemma {:induction false} InjectiveSize<K>(m: map<K, nat>)
    requires forall a, b | a in m && b in m && m[a] == m[b] :: a == b
    ensures |m| == |m.Values|
    decreases |m|
  {
    if m != map[] {
      var k :| k in m;
      var rest := m - {k};
      InjectiveSize(rest);
      assert m == rest[k := m[k]];
      assert m.Values == rest.Values + {m[k]};
    }
  }

  /** The listeners the callback of broker subscription `id` runs for a message. */
  function Delivered(s: State, id: BrokerId): seq<Receiver> {
    if id in s.live && s.live[id] < |s.records| then s.records[s.live[id]].listeners else []
  }

  /**
   A message the broker hands to subscription `id` runs either nobody, or every open
   handle of its topic once; and no two subscriptions do so for the same topic.
   */
  lemma DeliveredOncePerHandle(steps: seq<Step>, id: BrokerId)
    requires id in Exec(steps).live && Delivered(Exec(steps), id) != []
    ensures var s := Exec(steps);
      var topic := s.records[s.live[id]].topic;
      && (forall r: Receiver :: multiset(Delivered(s, id))[r] == Open(s.handles, topic, r))
      && (forall other | other in s.live && other != id && s.records[s.live[other]].topic == topic ::
            Delivered(s, other) == [])
  {
    var s := Exec(steps);
    assert LiveOk(s, id) && ListenersOk(s, s.live[id]);
    forall other | other in s.live && other != id && s.records[s.live[other]].topic == s.records[s.live[id]].topic
      ensures Delivered(s, other) == []
    {
      assert LiveOk(s, other) && ListenersOk(s, s.live[other]);
    }
  }

  /** No cancel in any run reaches one of the throws. */
  lemma CancelNeverFails(steps: seq<Step>, i: nat)
    requires i < |Exec(steps).handles|
    ensures HandleCancelled(Exec(steps), i).Ok?
  {
    if !Exec(steps).handles[i].canceled {
      CancelFinds(Exec(steps), i);
    }
  }

}
