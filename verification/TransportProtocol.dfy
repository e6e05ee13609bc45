/**
 Two endpoints joined by a network that may drop, duplicate and reorder packets:
 any packet a side ever published may reach the other at any time, any number of
 times, or never. What every such run keeps, in both directions at once.
 */
module TransportProtocol {
  import opened Wrappers
  import opened RemoteTransport

  datatype Action =
    | DoStart
    | DoConnect(remoteId: string)
    | DoSend(body: Body)
    | Deliver(packet: Packet)
    | RetryFires
    | RetryFails(seqNo: int)
    | DoStop

  datatype Side = A | B

  datatype Sys = Sys(a: Endpoint, b: Endpoint) {
    function At(side: Side): Endpoint {
      if side == A then a else b
    }

    function Peer(side: Side): Endpoint {
      if side == A then b else a
    }

    function With(side: Side, e: Endpoint): Sys {
      if side == A then Sys(e, b) else Sys(a, e)
    }
  }

  datatype Step = Step(side: Side, action: Action)

  ghost function OnPacket(e: Endpoint, p: Packet): Endpoint {
    match p
    case Msg(q, b) => OnMsg(e, q, b)
    case KeepAlive => e
    case Ack(q) => OnAck(e, q)
    case Nack(q) => OnNack(e, q)
    case Reply(q, b) => OnReply(e, q, b)
    case StopSignal => OnStopSignal(e)
  }

  ghost predicate Enabled(e: Endpoint, peer: Endpoint, action: Action) {
    match action
    case DoStart => e.status == Init
    case DoConnect(id) => e.status == Started && id != ""
    case DoSend(_) => e.status == Connected
    case Deliver(p) => p in peer.published
    case RetryFires => e.retryTimer.Some?
    case RetryFails(q) => Nack(q) in e.published
    case DoStop => e.status != Stopped
  }

  ghost function Act(e: Endpoint, action: Action): Endpoint
    requires action.DoConnect? ==> e.status == Started
    requires action.DoSend? ==> e.status == Connected
    requires action.RetryFires? ==> e.retryTimer.Some?
    requires action.DoStop? ==> e.status != Stopped
  {
    match action
    case DoStart => e.(status := Started)
    case DoConnect(id) => ConnectedTo(e, id)
    case DoSend(b) => AfterSend(e, b)
    case Deliver(p) => OnPacket(e, p)
    case RetryFires => RetryFired(e)
    case RetryFails(q) => RetryFailed(e, q)
    case DoStop => StoppedEndpoint(e)
  }

  ghost function Do(sys: Sys, step: Step): Sys {
    var e, peer := sys.At(step.side), sys.Peer(step.side);
    if Enabled(e, peer, step.action) then sys.With(step.side, Act(e, step.action)) else sys
  }

  ghost function Exec(steps: seq<Step>): Sys {
    if steps == [] then Sys(FRESH, FRESH)
    else Do(Exec(steps[..|steps| - 1]), steps[|steps| - 1])
  }

  // ---------- what one endpoint keeps about itself ----------

  /**
   What has arrived is what is buffered or was emitted; a connected endpoint never
   sits on a message it could emit; and a pending retry names some number other than
   the one that is missing.
   */
  ghost predicate Local(e: Endpoint) {
    && -1 <= e.receivedProcessedSeq
    && |e.emitted| == e.receivedProcessedSeq + 1
    && e.sentSeq + 1 == |e.log|
    && (forall q :: q in e.arrived <==> q in e.received || 0 <= q <= e.receivedProcessedSeq)
    && (forall q | q in e.received :: 0 <= q)
    && (HasRemote(e) <==> e.status == Connected)
    && (e.status in {Init, Started} ==> e.receivedProcessedSeq == -1)
    && (e.status == Connected ==> e.receivedProcessedSeq + 1 !in e.received)
    && (e.retryTimer.Some? ==>
          e.status == Connected && e.retryTimer.value != e.receivedProcessedSeq + 1)
    && (forall q | Nack(q) in e.published :: e.status in {Connected, Stopped})
  }

  // ---------- what holds between a sender and a receiver ----------

  /** Everything in flight from `s` is something `s` sent under that number; falsy bodies are held for good. */
  ghost predicate InFlight(s: Endpoint) {
    && (forall q, b | Msg(q, b) in s.published :: 0 <= q < |s.log| && b == s.log[q])
    && (forall q, b | Reply(q, b) in s.published :: 0 <= q < |s.log| && b == s.log[q])
    && (forall q | q in s.sent :: 0 <= q < |s.log| && s.sent[q] == s.log[q])
    && (forall q | 0 <= q < |s.log| && !Truthy(s.log[q]) :: q in s.sent)
  }

  ghost predicate Delivered(s: Endpoint, r: Endpoint) {
    && (forall q | q in r.received :: 0 <= q < |s.log| && r.received[q] == s.log[q])
    && |r.emitted| <= |s.log|
    && r.emitted == s.log[..|r.emitted|]
  }

  ghost predicate Kept(s: Endpoint, r: Endpoint) {
    && (forall q | Ack(q) in r.published :: 0 <= q < |r.emitted|)
    && (forall q | 0 <= q < |s.log| :: q in s.sent || q < |r.emitted|)
    && ((exists q, b :: Reply(q, b) in s.published) ==> r.status in {Connected, Stopped})
  }

  ghost predicate Dir(s: Endpoint, r: Endpoint) {
    InFlight(s) && Delivered(s, r) && Kept(s, r)
  }

  ghost predicate Inv(sys: Sys) {
    Local(sys.a) && Local(sys.b) && Dir(sys.a, sys.b) && Dir(sys.b, sys.a)
  }

  // ---------- one action, seen from each side ----------

  /** `f` is `e` as a sender: same messages, and nothing new in flight that carries a body. */
  ghost predicate SameSender(e: Endpoint, f: Endpoint) {
    && f.log == e.log && f.sentSeq == e.sentSeq && f.sent == e.sent
    && forall p | p in f.published && (p.Msg? || p.Reply?) :: p in e.published
  }

  /** `f` is `e` as a receiver. */
  ghost predicate SameReceiver(e: Endpoint, f: Endpoint) {
    && f.received == e.received && f.emitted == e.emitted && f.arrived == e.arrived
    && f.receivedProcessedSeq == e.receivedProcessedSeq
    && (forall p | p in f.published && p.Ack? :: p in e.published)
    && (e.status in {Connected, Stopped} ==> f.status in {Connected, Stopped})
  }

  lemma SenderStays(e: Endpoint, f: Endpoint, r: Endpoint)
    requires Dir(e, r) && SameSender(e, f)
    ensures Dir(f, r)
  {
  }

  lemma ReceiverStays(s: Endpoint, e: Endpoint, f: Endpoint)
    requires Dir(s, e) && SameReceiver(e, f)
    ensures Dir(s, f)
  {
  }

  lemma RunIsLogSlice(s: Endpoint, e: Endpoint)
    requires Local(e) && Delivered(s, e)
    ensures var end := RunEnd(e.received.Keys, e.receivedProcessedSeq);
      && -1 <= e.receivedProcessedSeq <= end < |s.log|
      && e.emitted + Bodies(e.received, e.receivedProcessedSeq, end) == s.log[..end + 1]
  {
    var from, end := e.receivedProcessedSeq, RunEnd(e.received.Keys, e.receivedProcessedSeq);
    assert from < end ==> end in e.received;
    var run := Bodies(e.received, from, end);
    forall i | 0 <= i < end - from
      ensures run[i] == s.log[from + 1 + i]
    {
      assert from + 1 + i in e.received;
    }
  }

  lemma AcksAreThere(from: int, end: int)
    requires from <= end
    ensures forall p | p in Acks(from, end) :: p.Ack? && from < p.seqNo <= end
  {
  }

  /** Flushing emits the longest run and keeps both directions. */
  lemma FlushKeeps(s: Endpoint, e: Endpoint)
    requires Local(e) && Dir(s, e)
    ensures var f := Flushed(e);
      && SameSender(e, f) && Dir(s, f)
      && |f.emitted| == f.receivedProcessedSeq + 1 && f.receivedProcessedSeq + 1 !in f.received
      && (forall q :: q in f.arrived <==> q in f.received || 0 <= q <= f.receivedProcessedSeq)
      && (forall p | p in f.published && p.Nack? :: p in e.published)
  {
    RunIsLogSlice(s, e);
    AcksAreThere(e.receivedProcessedSeq, RunEnd(e.received.Keys, e.receivedProcessedSeq));
  }

  /** What `connect` does after flushing concerns the retry only. */
  lemma ConnectSettles(e: Endpoint, id: string)
    requires e.status == Started
    ensures var f, g := Flushed(e), ConnectedTo(e, id);
      g == f.(status := Connected, remoteId := Some(id), receivedSeq := g.receivedSeq, retryTimer := g.retryTimer) &&
      (g.retryTimer.Some? ==> g.retryTimer.value == g.receivedSeq + 1 && g.receivedProcessedSeq != g.receivedSeq)
  {
    hide RunEnd, Bodies, Acks;
    assert Flushed(e.(status := Connected, remoteId := Some(id))) ==
      Flushed(e).(status := Connected, remoteId := Some(id));
  }

  lemma ConnectKeeps(s: Endpoint, e: Endpoint, id: string)
    requires Local(e) && Dir(s, e) && e.status == Started && id != ""
    ensures Local(ConnectedTo(e, id)) && SameSender(e, ConnectedTo(e, id)) && Dir(s, ConnectedTo(e, id))
  {
    FlushKeeps(s, e);
    ConnectSettles(e, id);
    assert Flushed(e).sentSeq == e.sentSeq && Flushed(e).status == Started;
    hide Flushed, ConnectedTo, Dir;
    ReceiverStays(s, Flushed(e), ConnectedTo(e, id));
  }

  /** The next message, emitted before what is buffered behind it; timers and status are left aside. */
  lemma NextKeeps(s: Endpoint, e: Endpoint, b: Body)
    requires Local(e) && Dir(s, e)
    requires e.receivedProcessedSeq + 1 < |s.log| && b == s.log[e.receivedProcessedSeq + 1]
    ensures var q := e.receivedProcessedSeq + 1;
      var f := Received(e.(arrived := e.arrived + {q}, receivedProcessedSeq := q,
                           retryTimer := None, status := Stopped, remoteId := None), q, b);
      Local(f) && SameSender(e, f) && Dir(s, f)
  {
    var q := e.receivedProcessedSeq + 1;
    assert s.log[..q] + [b] == s.log[..q + 1];
  }

  /** Taking in message `q`, or a reply carrying it, at a connected endpoint. */
  lemma HandledKeeps(s: Endpoint, e: Endpoint, q: int, b: Body)
    requires Local(e) && Dir(s, e) && e.status == Connected
    requires 0 <= q < |s.log| && b == s.log[q]
    ensures var f := Handled(e, q, b);
      Local(f) && SameSender(e, f) && Dir(s, f) && f.status == Connected
  {
    hide RunEnd, Bodies, Acks;
    if e.receivedProcessedSeq + 1 == q {
      var e1 := Received(e.(arrived := e.arrived + {q}, receivedProcessedSeq := q), q, b);
      var e2 := e1.(retryTimer := None, status := Stopped, remoteId := None);
      NextKeeps(s, e, b);
      FlushKeeps(s, e2);
      assert Flushed(e1) == Flushed(e2).(retryTimer := e.retryTimer, status := Connected, remoteId := e.remoteId);
      HandledNext(s, e, Flushed(e2), Handled(e, q, b));
    } else if e.receivedProcessedSeq + 1 < q {
      BufferKeeps(s, e, q, b);
    } else {
      DuplicateKeeps(s, e, q);
    }
  }

  lemma HandledNext(s: Endpoint, e: Endpoint, f: Endpoint, g: Endpoint)
    requires Local(e) && e.status == Connected
    requires g == AllPendingProcessed(f.(retryTimer := e.retryTimer, status := Connected, remoteId := e.remoteId))
    requires SameSender(e, f) && Dir(s, f) && f.status == Stopped && f.sentSeq == e.sentSeq
    requires |f.emitted| == f.receivedProcessedSeq + 1 && f.receivedProcessedSeq + 1 !in f.received
    requires forall q :: q in f.arrived <==> q in f.received || 0 <= q <= f.receivedProcessedSeq
    requires -1 <= f.receivedProcessedSeq
    ensures Local(g) && SameSender(e, g) && Dir(s, g)
  {
    ReceiverStays(s, f, g);
  }

  lemma BufferKeeps(s: Endpoint, e: Endpoint, q: int, b: Body)
    requires Local(e) && Dir(s, e) && 0 <= q < |s.log| && b == s.log[q]
    requires e.status == Connected ==> e.receivedProcessedSeq + 1 != q
    ensures var f := Buffered(e.(arrived := e.arrived + {q}), q, b);
      Local(f) && SameSender(e, f) && Dir(s, f)
  {
  }

  lemma DuplicateKeeps(s: Endpoint, e: Endpoint, q: int)
    requires Local(e) && Dir(s, e) && 0 <= q <= e.receivedProcessedSeq
    ensures var f := e.(arrived := e.arrived + {q});
      Local(f) && SameSender(e, f) && Dir(s, f)
  {
  }

  lemma MsgKeeps(s: Endpoint, e: Endpoint, q: int, b: Body)
    requires Local(e) && Dir(s, e) && Msg(q, b) in s.published
    ensures Local(OnMsg(e, q, b)) && SameSender(e, OnMsg(e, q, b)) && Dir(s, OnMsg(e, q, b))
  {
    hide Handled;
    if HasRemote(e) {
      HandledKeeps(s, e, q, b);
      ReceiverStays(s, Handled(e, q, b), OnMsg(e, q, b));
    } else {
      BufferKeeps(s, e, q, b);
    }
  }

  lemma SendLocal(e: Endpoint, b: Body)
    requires Local(e) && e.status == Connected
    ensures Local(AfterSend(e, b)) && SameReceiver(e, AfterSend(e, b))
  {
  }

  lemma SendInFlight(e: Endpoint, b: Body)
    requires InFlight(e) && e.sentSeq + 1 == |e.log| && e.status == Connected
    ensures InFlight(AfterSend(e, b))
  {
    var f := AfterSend(e, b);
    assert forall q | 0 <= q < |e.log| :: f.log[q] == e.log[q];
    forall q, c | Msg(q, c) in f.published
      ensures 0 <= q < |f.log| && c == f.log[q]
    {
      assert Msg(q, c) in e.published || Msg(q, c) == Msg(|e.log|, b);
    }
    forall q, c | Reply(q, c) in f.published
      ensures 0 <= q < |f.log| && c == f.log[q]
    {
      assert Reply(q, c) in e.published;
    }
  }

  lemma SendDelivered(e: Endpoint, r: Endpoint, b: Body)
    requires Delivered(e, r) && Kept(e, r) && e.sentSeq + 1 == |e.log| && e.status == Connected
    ensures Delivered(AfterSend(e, b), r) && Kept(AfterSend(e, b), r)
  {
    var f := AfterSend(e, b);
    assert forall q | 0 <= q < |e.log| :: f.log[q] == e.log[q];
    assert f.log[..|r.emitted|] == e.log[..|r.emitted|];
    assert forall q, c | Reply(q, c) in f.published :: Reply(q, c) in e.published;
  }

  lemma SendKeeps(e: Endpoint, r: Endpoint, b: Body)
    requires Local(e) && Dir(e, r) && e.status == Connected
    ensures Local(AfterSend(e, b)) && SameReceiver(e, AfterSend(e, b)) && Dir(AfterSend(e, b), r)
  {
    SendLocal(e, b);
    SendInFlight(e, b);
    SendDelivered(e, r, b);
  }

  lemma AckKeeps(e: Endpoint, r: Endpoint, q: int)
    requires Local(e) && Dir(e, r) && Ack(q) in r.published
    ensures Local(OnAck(e, q)) && SameReceiver(e, OnAck(e, q)) && Dir(OnAck(e, q), r)
  {
  }

  lemma NackKeeps(e: Endpoint, r: Endpoint, q: int)
    requires Local(e) && Local(r) && Dir(e, r) && Nack(q) in r.published
    ensures Local(OnNack(e, q)) && SameReceiver(e, OnNack(e, q)) && Dir(OnNack(e, q), r)
  {
  }

  lemma ActKeeps(e: Endpoint, peer: Endpoint, action: Action)
    requires Local(e) && Local(peer) && Dir(e, peer) && Dir(peer, e) && Enabled(e, peer, action)
    ensures Local(Act(e, action)) && Dir(Act(e, action), peer) && Dir(peer, Act(e, action))
  {
    hide Local, Dir;
    var f := Act(e, action);
    match action
    case DoConnect(id) =>
      ConnectKeeps(peer, e, id);
      SenderStays(e, f, peer);
    case DoSend(b) =>
      SendKeeps(e, peer, b);
      ReceiverStays(peer, e, f);
    case Deliver(Msg(q, b)) =>
      MsgKeeps(peer, e, q, b);
      SenderStays(e, f, peer);
    case Deliver(Ack(q)) =>
      AckKeeps(e, peer, q);
      ReceiverStays(peer, e, f);
    case Deliver(Nack(q)) =>
      NackKeeps(e, peer, q);
      ReceiverStays(peer, e, f);
    case Deliver(Reply(q, b)) =>
      if e.status != Stopped {
        ReplyKeeps(peer, e, q, b);
      }
      SenderStays(e, f, peer);
    case _ =>
      OtherKeeps(e, peer, action);
      SenderStays(e, f, peer);
      ReceiverStays(peer, e, f);
  }

  lemma ReplyKeeps(s: Endpoint, e: Endpoint, q: int, b: Body)
    requires Local(e) && Dir(s, e) && Reply(q, b) in s.published && e.status != Stopped
    ensures Local(OnReply(e, q, b)) && SameSender(e, OnReply(e, q, b)) && Dir(s, OnReply(e, q, b))
  {
    HandledKeeps(s, e, q, b);
  }

  lemma OtherKeeps(e: Endpoint, peer: Endpoint, action: Action)
    requires Local(e) && Enabled(e, peer, action)
    requires action.DoStart? || action.RetryFires? || action.RetryFails? || action.DoStop? ||
      (action.Deliver? && (action.packet.KeepAlive? || action.packet.StopSignal?))
    ensures Local(Act(e, action)) && SameSender(e, Act(e, action)) && SameReceiver(e, Act(e, action))
  {
  }

  lemma {:induction false} RunKeepsInv(steps: seq<Step>)
    ensures Inv(Exec(steps))
  {
    if steps != [] {
      var n := |steps| - 1;
      var sys := Exec(steps[..n]);
      RunKeepsInv(steps[..n]);
      var e, peer := sys.At(steps[n].side), sys.Peer(steps[n].side);
      if Enabled(e, peer, steps[n].action) {
        ActKeeps(e, peer, steps[n].action);
      }
    }
  }

  // ---------- what every run delivers ----------

  /**
   Exactly once and in order: at every moment of every run, what each side has
   emitted is exactly a prefix of what the other passed to `send`.
   */
  lemma ExactlyOnceInOrder(steps: seq<Step>, side: Side)
    ensures var r, s := Exec(steps).At(side), Exec(steps).Peer(side);
      && 0 <= r.receivedProcessedSeq + 1 <= |s.log|
      && r.emitted == s.log[..r.receivedProcessedSeq + 1]
  {
    RunKeepsInv(steps);
  }

  /**
   Nothing is forgotten too early: a sent message is still held by its sender or was
   emitted by the receiver, and an ack in flight names an emitted message.
   */
  lemma NothingForgotten(steps: seq<Step>, side: Side)
    ensures var s, r := Exec(steps).At(side), Exec(steps).Peer(side);
      && (forall q | 0 <= q < |s.log| && |r.emitted| <= q :: q in s.sent && s.sent[q] == s.log[q])
      && (forall q | Ack(q) in r.published :: 0 <= q < |r.emitted|)
  {
    RunKeepsInv(steps);
  }

  /**
   The message the receiver needs next is still held by its sender; a nack that names
   it is answered with its body exactly when the body is truthy.
   */
  lemma NextMissingIsHeld(steps: seq<Step>, side: Side)
    ensures var s, r := Exec(steps).At(side), Exec(steps).Peer(side);
      var next := r.receivedProcessedSeq + 1;
      0 <= next && (next < |s.log| ==>
        && next in s.sent && s.sent[next] == s.log[next]
        && OnNack(s, next).published ==
             s.published + if Truthy(s.log[next]) then [Reply(next, s.log[next])] else [])
  {
    RunKeepsInv(steps);
  }

  /** In every run a falsy body is held for good: no ack makes its sender forget it, no nack makes it resend it. */
  lemma FalsyIsHeldForGood(steps: seq<Step>, side: Side, q: int)
    requires var s := Exec(steps).At(side); 0 <= q < |s.log| && !Truthy(s.log[q])
    ensures var s := Exec(steps).At(side);
      q in s.sent && s.sent[q] == s.log[q] && OnAck(s, q) == s && OnNack(s, q) == s
  {
    RunKeepsInv(steps);
    hide Exec;
  }

  /**
   Buffering before `connect` is transparent: once connected, the emitted prefix is
   the longest gap-free prefix of whatever has arrived, in any order.
   */
  lemma EmitsLongestArrivedPrefix(steps: seq<Step>, side: Side)
    ensures var r := Exec(steps).At(side);
      r.status == Connected ==>
        && (forall q | 0 <= q < |r.emitted| :: q in r.arrived)
        && |r.emitted| !in r.arrived
    ensures var r := Exec(steps).At(side);
      r.status in {Init, Started} ==> |r.emitted| == 0 && r.received.Keys == r.arrived
  {
    RunKeepsInv(steps);
    hide Exec, Dir;
    var r := Exec(steps).At(side);
    if r.status in {Init, Started} {
      assert forall q :: q in r.arrived <==> q in r.received.Keys;
    }
  }

  /** A retry never asks for the message that is missing: this holds in every run. */
  lemma RetryNeverNamesTheGap(steps: seq<Step>, side: Side)
    ensures var r := Exec(steps).At(side);
      r.retryTimer.Some? ==> r.retryTimer.value != r.receivedProcessedSeq + 1
  {
    RunKeepsInv(steps);
  }

  lemma ExecAppend(steps: seq<Step>, step: Step)
    ensures Exec(steps + [step]) == Do(Exec(steps), step)
  {
    assert (steps + [step])[..|steps + [step]| - 1] == steps;
  }

  /** Both sides connected, `x` and `y` sent by the first, and only `y` delivered. */
  function LostFirst(x: Body, y: Body): seq<Step> {
    [Step(A, DoStart)] + [Step(B, DoStart)] + [Step(A, DoConnect("b"))] + [Step(B, DoConnect("a"))] +
    [Step(A, DoSend(x))] + [Step(A, DoSend(y))] + [Step(B, Deliver(Msg(1, y)))]
  }

  /** The run in which the first of two messages is lost: number 0 is missing, the retry asks for 2. */
  lemma RetryMissesALostMessage(x: Body, y: Body)
    ensures var sys := Exec(LostFirst(x, y));
      && sys.a.log == [x, y] && sys.a.sent == map[0 := x, 1 := y]
      && sys.b.status == Connected && sys.b.emitted == [] && sys.b.received == map[1 := y]
      && sys.b.retryTimer == Some(2)
  {
    var a1 := FRESH.(status := Started);
    var a2 := a1.(status := Connected, remoteId := Some("b"));
    assert ConnectedTo(a1, "b") == a2;
    var b2 := a1.(status := Connected, remoteId := Some("a"));
    assert ConnectedTo(a1, "a") == b2;
    var a3 := AfterSend(a2, x);
    var a4 := AfterSend(a3, y);
    var s1 := [Step(A, DoStart)];
    ExecAppend([], Step(A, DoStart));
    assert [] + s1 == s1;
    assert Exec(s1) == Sys(a1, FRESH);
    ExecAppend(s1, Step(B, DoStart));
    var s2 := s1 + [Step(B, DoStart)];
    ExecAppend(s2, Step(A, DoConnect("b")));
    var s3 := s2 + [Step(A, DoConnect("b"))];
    ExecAppend(s3, Step(B, DoConnect("a")));
    var s4 := s3 + [Step(B, DoConnect("a"))];
    assert Exec(s4) == Sys(a2, b2);
    ExecAppend(s4, Step(A, DoSend(x)));
    var s5 := s4 + [Step(A, DoSend(x))];
    ExecAppend(s5, Step(A, DoSend(y)));
    var s6 := s5 + [Step(A, DoSend(y))];
    assert Exec(s6) == Sys(a4, b2);
    assert a4.published[1] == Msg(1, y);
    ExecAppend(s6, Step(B, Deliver(Msg(1, y))));
  }

}
