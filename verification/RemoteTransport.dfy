/**
 One endpoint of `RemoteTransport`: the value its fields hold, each handler as a
 function on that value, and the class whose methods carry the handlers out.
 */
module RemoteTransport {
  import opened Wrappers

  /** A message body; only its identity and its truthiness matter, and 0 is the falsy one. */
  type Body = int

  predicate Truthy(b: Body) {
    b != 0
  }

  datatype Packet =
    | Msg(seqNo: int, body: Body)
    | KeepAlive
    | Ack(seqNo: int)
    | Nack(seqNo: int)
    | Reply(seqNo: int, body: Body)
    | StopSignal

  datatype Status = Init | Started | Connected | Stopped

  /**
   `log` (bodies passed to `send`), `emitted` (bodies given to the message listeners),
   `arrived` (sequence numbers that got in) and `published` are histories.
   */
  datatype Endpoint = Endpoint(
    status: Status,
    remoteId: Option<string>,
    received: map<int, Body>,
    receivedProcessedSeq: int,
    receivedSeq: int,
    retryTimer: Option<int>,
    sentSeq: int,
    sent: map<int, Body>,
    log: seq<Body>,
    emitted: seq<Body>,
    arrived: set<int>,
    published: seq<Packet>)

  const FRESH := Endpoint(Init, None, map[], -1, -1, None, -1, map[], [], [], {}, [])

  // ---------- gap-free runs ----------

  function Above(keys: set<int>, from: int): set<int> {
    set k | k in keys && from < k
  }

  /** The end of the run of consecutive keys that follows `from`. */
  function RunEnd(keys: set<int>, from: int): (end: int)
    ensures from <= end && end + 1 !in keys
    ensures forall q | from < q <= end :: q in keys
    decreases |Above(keys, from)|
  {
    if from + 1 in keys then
      assert Above(keys, from) == Above(keys, from + 1) + {from + 1};
      RunEnd(keys, from + 1)
    else from
  }

  function Bodies(m: map<int, Body>, from: int, end: int): seq<Body>
    requires from <= end && forall q | from < q <= end :: q in m
  {
    seq(end - from, i requires 0 <= i < end - from => m[from + 1 + i])
  }

  function Acks(from: int, end: int): seq<Packet>
    requires from <= end
  {
    seq(end - from, i => Ack(from + 1 + i))
  }

  ghost predicate IsHighest(keys: set<int>, floor: int, m: int) {
    floor <= m && (m == floor || m in keys) && forall k | k in keys :: k <= m
  }

  lemma {:induction false} HighestExists(keys: set<int>, floor: int)
    ensures exists m :: IsHighest(keys, floor, m)
  {
    if keys == {} {
      assert IsHighest(keys, floor, floor);
    } else {
      var x := SomeElement(keys);
      HighestExists(keys - {x}, floor);
      var m :| IsHighest(keys - {x}, floor, m);
      var top := if m < x then x else m;
      forall k | k in keys
        ensures k <= top
      {
        assert k == x || k in keys - {x};
      }
      assert IsHighest(keys, floor, if x in keys && m < x then x else m);
    }
  }

  ghost function Highest(keys: set<int>, floor: int): (m: int)
    ensures IsHighest(keys, floor, m)
  {
    HighestExists(keys, floor);
    var m :| IsHighest(keys, floor, m);
    m
  }

  // ---------- the handlers as functions ----------

  predicate HasRemote(e: Endpoint) {
    e.remoteId.Some? && e.remoteId.value != ""
  }

  function Buffered(e: Endpoint, q: int, b: Body): Endpoint {
    if q in e.received then e else e.(received := e.received[q := b])
  }

  function Flushed(e: Endpoint): Endpoint {
    var end := RunEnd(e.received.Keys, e.receivedProcessedSeq);
    e.(receivedProcessedSeq := end,
       emitted := e.emitted + Bodies(e.received, e.receivedProcessedSeq, end),
       published := e.published + Acks(e.receivedProcessedSeq, end))
  }

  function RetryStarted(e: Endpoint): Endpoint {
    if e.retryTimer.None? && e.receivedProcessedSeq != e.receivedSeq
    then e.(retryTimer := Some(e.receivedSeq + 1))
    else e
  }

  function AllPendingProcessed(e: Endpoint): Endpoint {
    RetryStarted(e.(retryTimer := None))
  }

  function SeqReceived(e: Endpoint, q: int): Endpoint {
    RetryStarted(e.(receivedSeq := if e.receivedSeq < q then q else e.receivedSeq))
  }

  function Received(e: Endpoint, q: int, b: Body): Endpoint {
    e.(emitted := e.emitted + [b], published := e.published + [Ack(q)])
  }

  function Handled(e: Endpoint, q: int, b: Body): Endpoint {
    var e := e.(arrived := e.arrived + {q});
    if e.receivedProcessedSeq + 1 == q then
      AllPendingProcessed(Flushed(Received(e.(receivedProcessedSeq := q), q, b)))
    else if e.receivedProcessedSeq + 1 < q then Buffered(e, q, b)
    else e
  }

  function OnMsg(e: Endpoint, q: int, b: Body): Endpoint {
    if q < 0 then e
    else if HasRemote(e) then SeqReceived(Handled(e, q, b), q)
    else Buffered(e.(arrived := e.arrived + {q}), q, b)
  }

  function OnAck(e: Endpoint, q: int): Endpoint {
    if q in e.sent && Truthy(e.sent[q]) then e.(sent := e.sent - {q}) else e
  }

  function OnNack(e: Endpoint, q: int): Endpoint {
    if q in e.sent && Truthy(e.sent[q])
    then e.(published := e.published + [Reply(q, e.sent[q])])
    else e
  }

  function OnReply(e: Endpoint, q: int, b: Body): Endpoint {
    if e.status == Stopped then e else Handled(e, q, b)
  }

  function StoppedEndpoint(e: Endpoint): Endpoint
    requires e.status != Stopped
  {
    e.(status := Stopped, remoteId := None, retryTimer := None,
       published := e.published + if HasRemote(e) then [StopSignal] else [])
  }

  function OnStopSignal(e: Endpoint): Endpoint {
    if e.status == Stopped then e.(remoteId := None)
    else StoppedEndpoint(e.(remoteId := None))
  }

  ghost function ConnectedTo(e: Endpoint, remoteId: string): Endpoint
    requires e.status == Started
  {
    var f := Flushed(e.(status := Connected, remoteId := Some(remoteId)));
    AllPendingProcessed(f.(receivedSeq := Highest(f.received.Keys, f.receivedSeq)))
  }

  function AfterSend(e: Endpoint, b: Body): Endpoint
    requires e.status == Connected
  {
    var q := e.sentSeq + 1;
    e.(sentSeq := q, sent := e.sent[q := b], log := e.log + [b],
       published := e.published + [Msg(q, b)])
  }

  function RetryFired(e: Endpoint): Endpoint
    requires e.retryTimer.Some?
  {
    e.(published := e.published + [Nack(e.retryTimer.value)])
  }

  function RetryFailed(e: Endpoint, q: int): Endpoint {
    if e.status != Stopped && e.receivedSeq + 1 == q then StoppedEndpoint(e) else e
  }

  lemma NothingYet(m: map<int, Body>, from: int)
    ensures Bodies(m, from, from) == [] && Acks(from, from) == []
  {
  }

  lemma OneMore(m: map<int, Body>, from: int, next: int)
    requires from < next && forall q | from < q <= next :: q in m
    ensures Bodies(m, from, next) == Bodies(m, from, next - 1) + [m[next]]
    ensures Acks(from, next) == Acks(from, next - 1) + [Ack(next)]
    ensures |Above(m.Keys, next)| < |Above(m.Keys, next - 1)|
    ensures RunEnd(m.Keys, next - 1) == RunEnd(m.Keys, next)
  {
    assert Above(m.Keys, next - 1) == Above(m.Keys, next) + {next};
  }

  // ---------- the class ----------

  class Transport {
    var status: Status
    var remoteId: Option<string>
    var received: map<int, Body>
    var receivedProcessedSeq: int
    var receivedSeq: int
    var retryTimer: Option<int>
    var sentSeq: int
    var sent: map<int, Body>
    ghost var log: seq<Body>
    ghost var emitted: seq<Body>
    ghost var arrived: set<int>
    var published: seq<Packet>

    ghost function Model(): Endpoint
      reads this
    {
      Endpoint(status, remoteId, received, receivedProcessedSeq, receivedSeq, retryTimer,
               sentSeq, sent, log, emitted, arrived, published)
    }

    constructor ()
      ensures Model() == FRESH
    {
      status, remoteId, received := Init, None, map[];
      receivedProcessedSeq, receivedSeq, retryTimer := -1, -1, None;
      sentSeq, sent := -1, map[];
      log, emitted, arrived, published := [], [], {}, [];
    }

    method Start() returns (ok: bool)
      modifies this
      ensures ok <==> old(status) == Init
      ensures Model() == if ok then old(Model()).(status := Started) else old(Model())
    {
      if status != Init {
        return false;
      }
      status := Started;
      return true;
    }

    method Publish(p: Packet)
      modifies this`published
      ensures published == old(published) + [p]
    {
      published := published + [p];
    }

    method NotifyReceived(q: int, b: Body)
      modifies this`emitted, this`published
      ensures Model() == Received(old(Model()), q, b)
    {
      emitted := emitted + [b];
      Publish(Ack(q));
    }

    method FlushIfNeeded()
      modifies this`receivedProcessedSeq, this`emitted, this`published
      ensures Model() == Flushed(old(Model()))
    {
      hide RunEnd, Bodies, Acks, Above;
      ghost var before := Model();
      ghost var from := receivedProcessedSeq;
      NothingYet(received, from);
      while receivedProcessedSeq + 1 in received
        invariant Model() == before.(
          receivedProcessedSeq := receivedProcessedSeq, emitted := emitted, published := published)
        invariant from <= receivedProcessedSeq
        invariant forall q | from < q <= receivedProcessedSeq :: q in received
        invariant RunEnd(received.Keys, from) == RunEnd(received.Keys, receivedProcessedSeq)
        invariant emitted == before.emitted + Bodies(received, from, receivedProcessedSeq)
        invariant published == before.published + Acks(from, receivedProcessedSeq)
        decreases |Above(received.Keys, receivedProcessedSeq)|
      {
        var next := receivedProcessedSeq + 1;
        OneMore(received, from, next);
        var value := received[next];
        receivedProcessedSeq := next;
        NotifyReceived(receivedProcessedSeq, value);
      }
    }

    method StartRetryTimerIfNeeded()
      modifies this`retryTimer
      ensures Model() == RetryStarted(old(Model()))
    {
      if retryTimer.None? {
        if receivedProcessedSeq == receivedSeq {
          return;
        }
        retryTimer := Some(receivedSeq + 1);
      }
    }

    method OnAllPendingProcessed()
      modifies this`retryTimer
      ensures Model() == AllPendingProcessed(old(Model()))
    {
      if retryTimer.Some? {
        retryTimer := None;
      }
      StartRetryTimerIfNeeded();
    }

    method OnReceivedSeq(q: int)
      modifies this`receivedSeq, this`retryTimer
      ensures Model() == SeqReceived(old(Model()), q)
    {
      receivedSeq := if receivedSeq < q then q else receivedSeq;
      if receivedProcessedSeq == receivedSeq {
        return;
      }
      StartRetryTimerIfNeeded();
    }

    method HandleMessage(q: int, b: Body)
      modifies this
      ensures Model() == Handled(old(Model()), q, b)
    {
      arrived := arrived + {q};
      if receivedProcessedSeq + 1 == q {
        receivedProcessedSeq := receivedProcessedSeq + 1;
        NotifyReceived(q, b);
        FlushIfNeeded();
        OnAllPendingProcessed();
      } else if receivedProcessedSeq + 1 < q {
        if q !in received {
          received := received[q := b];
        }
      }
    }

    method ReceiveMsg(q: int, b: Body)
      modifies this
      ensures Model() == OnMsg(old(Model()), q, b)
    {
      if q < 0 {
        return;
      }
      if remoteId.Some? && remoteId.value != "" {
        HandleMessage(q, b);
        OnReceivedSeq(q);
      } else {
        arrived := arrived + {q};
        if q !in received {
          received := received[q := b];
        }
      }
    }

    method ReceiveAck(q: int)
      modifies this
      ensures Model() == OnAck(old(Model()), q)
    {
      if q in sent && Truthy(sent[q]) {
        sent := sent - {q};
      }
    }

    method ReceiveNack(q: int)
      modifies this
      ensures Model() == OnNack(old(Model()), q)
    {
      if q in sent && Truthy(sent[q]) {
        Publish(Reply(q, sent[q]));
      }
    }

    /** `ok` is false where the source throws "Already stopped". */
    method ReceiveStop() returns (ok: bool)
      modifies this
      ensures Model() == OnStopSignal(old(Model())) && (ok <==> old(status) != Stopped)
    {
      remoteId := None;
      ok := Stop();
    }

    method ReceiveReply(q: int, b: Body)
      modifies this
      ensures Model() == OnReply(old(Model()), q, b)
    {
      if status == Stopped {
        return;
      }
      HandleMessage(q, b);
    }

    method FireRetry()
      requires retryTimer.Some?
      modifies this
      ensures Model() == RetryFired(old(Model()))
    {
      Publish(Nack(retryTimer.value));
    }

    method FailRetry(q: int)
      modifies this
      ensures Model() == RetryFailed(old(Model()), q)
    {
      if status == Stopped {
        return;
      }
      if receivedSeq + 1 == q {
        var _ := Stop();
      }
    }

    method ReplayReceivedSeqs()
      modifies this`receivedSeq, this`retryTimer
      ensures receivedSeq == Highest(received.Keys, old(receivedSeq))
    {
      ghost var floor := receivedSeq;
      var keys := received.Keys;
      while keys != {}
        invariant keys <= received.Keys
        invariant floor <= receivedSeq
        invariant receivedSeq == floor || receivedSeq in received.Keys
        invariant forall k | k in received.Keys && k !in keys :: k <= receivedSeq
      {
        ghost var some := SomeElement(keys);
        var q: int :| q in keys;
        OnReceivedSeq(q);
        keys := keys - {q};
      }
    }

    method Connect(remoteId: string) returns (ok: bool)
      modifies this
      ensures ok <==> old(status) == Started
      ensures Model() == if ok then ConnectedTo(old(Model()), remoteId) else old(Model())
    {
      if status == Init || status == Stopped || status == Connected {
        return false;
      }
      status := Connected;
      this.remoteId := Some(remoteId);
      FlushIfNeeded();
      ReplayReceivedSeqs();
      OnAllPendingProcessed();
      return true;
    }

    method Send(b: Body) returns (ok: bool)
      modifies this
      ensures ok <==> old(status) == Connected
      ensures Model() == if ok then AfterSend(old(Model()), b) else old(Model())
    {
      if status != Connected {
        return false;
      }
      sentSeq := sentSeq + 1;
      sent := sent[sentSeq := b];
      log := log + [b];
      Publish(Msg(sentSeq, b));
      return true;
    }

    method Stop() returns (ok: bool)
      modifies this
      ensures ok <==> old(status) != Stopped
      ensures Model() == if ok then StoppedEndpoint(old(Model())) else old(Model())
    {
      if status == Stopped {
        return false;
      }
      status := Stopped;
      if remoteId.Some? && remoteId.value != "" {
        Publish(StopSignal);
      }
      remoteId := None;
      retryTimer := None;
      return true;
    }
  }

}
