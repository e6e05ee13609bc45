/**
 The two-sided runs again, told from their steps: which step puts which packet on the
 wire, what a side has sent, taken in and still holds, when it runs and when it is
 stopped, how far it has seen, and when it asks again.
 */
module TransportHistory {
  import opened Wrappers
  import opened RemoteTransport
  import opened TransportProtocol

  /** The run's next step is one its side can take. */
  ghost predicate Takes(steps: seq<Step>, step: Step) {
    Enabled(Exec(steps).At(step.side), Exec(steps).Peer(step.side), step.action)
  }

  lemma OneStep(steps: seq<Step>, step: Step, side: Side)
    ensures Exec(steps + [step]).At(side) ==
      if step.side == side && Takes(steps, step) then Act(Exec(steps).At(side), step.action) else Exec(steps).At(side)
  {
    ExecAppend(steps, step);
  }

  // ---------- what one action does ----------

  /** The packets of one action that takes an endpoint from `e` to `f`. */
  ghost function Said(e: Endpoint, f: Endpoint, action: Action): seq<Packet>
    requires action.RetryFires? ==> e.retryTimer.Some?
  {
    match action
    case DoSend(b) => [Msg(|e.log|, b)]
    case Deliver(Nack(q)) => if q in e.sent && e.sent[q] != 0 then [Reply(q, e.sent[q])] else []
    case RetryFires => [Nack(e.retryTimer.value)]
    case DoStop => if e.status == Connected then [StopSignal] else []
    case RetryFails(q) => if e.status == Connected && q == e.receivedSeq + 1 then [StopSignal] else []
    case _ => seq(if |e.emitted| < |f.emitted| then |f.emitted| - |e.emitted| else 0, i => Ack(|e.emitted| + i))
  }

  /** The number an action brings in. */
  ghost function TakenIn(e: Endpoint, action: Action): set<int> {
    match action
    case Deliver(Msg(q, _)) => if 0 <= q then {q} else {}
    case Deliver(Reply(q, _)) => if e.status != Stopped then {q} else {}
    case _ => {}
  }

  /** The numbers an action makes a side forget. */
  ghost function LetGo(e: Endpoint, action: Action): set<int> {
    match action
    case Deliver(Ack(q)) => if 0 <= q < |e.log| && e.log[q] != 0 then {q} else {}
    case _ => {}
  }

  /** The action stops a running side: its own call, a stop signal, or a retry that failed at the frontier. */
  ghost predicate Stops(e: Endpoint, action: Action) {
    action.DoStop? || action == Deliver(StopSignal) || (action.RetryFails? && action.seqNo == e.receivedSeq + 1)
  }

  ghost function NextStatus(e: Endpoint, action: Action): Status {
    if e.status == Stopped || Stops(e, action) then Stopped
    else if action.DoStart? then Started
    else if action.DoConnect? then Connected
    else e.status
  }

  /** How the pending retry of a side that still runs moves with an action that takes it from `e` to `f`. */
  ghost predicate AsksOn(e: Endpoint, f: Endpoint, action: Action) {
    var known := if action.DoConnect? then f.receivedSeq else e.receivedSeq;
    var kept := if |f.emitted| == |e.emitted| && !action.DoConnect? then e.retryTimer
                else if |f.emitted| == known + 1 then None
                else Some(known + 1);
    var behind := f.status == Connected && |f.emitted| != f.receivedSeq + 1;
    if kept == None && behind && action.Deliver? && action.packet.Msg?
    then f.retryTimer == Some(f.receivedSeq + 1)
    else f.retryTimer == kept
  }

  predicate CarriesBody(action: Action) {
    action.Deliver? && (action.packet.Msg? || action.packet.Reply?)
  }

  ghost predicate Moves(e: Endpoint, f: Endpoint, action: Action)
    requires action.RetryFires? ==> e.retryTimer.Some?
  {
    && f.published == e.published + Said(e, f, action)
    && f.log == e.log + (if action.DoSend? then [action.body] else [])
    && f.arrived == e.arrived + TakenIn(e, action)
    && f.sent.Keys == (e.sent.Keys - LetGo(e, action)) + (if action.DoSend? then {|e.log|} else {})
    && f.status == NextStatus(e, action)
    && |e.emitted| <= |f.emitted|
    && (f.status == Connected ==> f.remoteId == if action.DoConnect? then Some(action.remoteId) else e.remoteId)
    && (e.status != Stopped && f.status == Stopped ==> f.remoteId == None)
    && (action.DoConnect? || CarriesBody(action) || f.emitted == e.emitted)
    && (f.status != Connected ==> f.emitted == e.emitted && f.retryTimer == None)
    && (e.status != Stopped && f.status != Stopped ==> AsksOn(e, f, action))
  }

  /** How far a side has seen. */
  ghost predicate Sees(e: Endpoint, f: Endpoint, action: Action) {
    if action.DoConnect? then
      && (forall q | q in e.received :: q <= f.receivedSeq)
      && e.receivedSeq <= f.receivedSeq && (f.receivedSeq == e.receivedSeq || f.receivedSeq in e.received)
    else if e.status == Connected && action.Deliver? && action.packet.Msg? && e.receivedSeq < action.packet.seqNo then
      f.receivedSeq == action.packet.seqNo
    else f.receivedSeq == e.receivedSeq
  }

  lemma FlushedSays(e: Endpoint)
    requires |e.emitted| == e.receivedProcessedSeq + 1
    ensures var f := Flushed(e);
      && |e.emitted| <= |f.emitted| == f.receivedProcessedSeq + 1
      && f.published == e.published + seq(|f.emitted| - |e.emitted|, i => Ack(|e.emitted| + i))
      && f == e.(receivedProcessedSeq := f.receivedProcessedSeq, emitted := f.emitted, published := f.published)
  {
  }

  /** Taking in number `q` at a connected side changes no more than this. */
  ghost predicate Intake(e: Endpoint, f: Endpoint, q: int) {
    && f == e.(received := f.received, receivedProcessedSeq := f.receivedProcessedSeq, retryTimer := f.retryTimer,
               emitted := f.emitted, arrived := f.arrived, published := f.published)
    && f.arrived == e.arrived + {q}
    && |e.emitted| <= |f.emitted| == f.receivedProcessedSeq + 1
    && f.published == e.published + seq(|f.emitted| - |e.emitted|, i => Ack(|e.emitted| + i))
    && f.retryTimer == if |f.emitted| == |e.emitted| then e.retryTimer
                       else if |f.emitted| == e.receivedSeq + 1 then None
                       else Some(e.receivedSeq + 1)
  }

  lemma HandledMoves(e: Endpoint, q: int, b: Body)
    requires Local(e) && e.status == Connected && 0 <= q
    ensures Intake(e, Handled(e, q, b), q)
  {
    hide Flushed;
    if e.receivedProcessedSeq + 1 == q {
      var g := Received(e.(arrived := e.arrived + {q}, receivedProcessedSeq := q), q, b);
      FlushedSays(g);
      var f := Handled(e, q, b);
      assert f == AllPendingProcessed(Flushed(g));
      assert [Ack(q)] + seq(|f.emitted| - |g.emitted|, i => Ack(|g.emitted| + i)) ==
        seq(|f.emitted| - |e.emitted|, i => Ack(|e.emitted| + i));
    }
  }

  lemma SeenMoves(e: Endpoint, h: Endpoint, q: int, b: Body)
    requires e.status == Connected && 0 <= q && Intake(e, h, q)
    ensures Moves(e, SeqReceived(h, q), Deliver(Msg(q, b))) && Sees(e, SeqReceived(h, q), Deliver(Msg(q, b)))
  {
    var f := SeqReceived(h, q);
    assert f == h.(receivedSeq := f.receivedSeq, retryTimer := f.retryTimer);
  }

  lemma BufferedMoves(e: Endpoint, q: int, b: Body)
    requires Local(e) && e.status != Connected && 0 <= q
    ensures var f := Buffered(e.(arrived := e.arrived + {q}), q, b);
      Moves(e, f, Deliver(Msg(q, b))) && Sees(e, f, Deliver(Msg(q, b)))
  {
  }

  lemma MsgMoves(e: Endpoint, q: int, b: Body)
    requires Local(e) && 0 <= q
    ensures Moves(e, OnMsg(e, q, b), Deliver(Msg(q, b))) && Sees(e, OnMsg(e, q, b), Deliver(Msg(q, b)))
  {
    hide Handled, Buffered, Moves, Sees, Intake, SeqReceived;
    if e.status == Connected {
      HandledMoves(e, q, b);
      SeenMoves(e, Handled(e, q, b), q, b);
    } else {
      BufferedMoves(e, q, b);
    }
  }

  lemma ReplyMoves(e: Endpoint, q: int, b: Body)
    requires Local(e) && 0 <= q && e.status in {Connected, Stopped}
    ensures Moves(e, OnReply(e, q, b), Deliver(Reply(q, b))) && Sees(e, OnReply(e, q, b), Deliver(Reply(q, b)))
  {
    if e.status == Connected {
      HandledMoves(e, q, b);
    }
    hide Handled;
  }

  lemma ConnectMoves(e: Endpoint, id: string)
    requires Local(e) && e.status == Started && id != ""
    ensures Moves(e, ConnectedTo(e, id), DoConnect(id)) && Sees(e, ConnectedTo(e, id), DoConnect(id))
  {
    var g := e.(status := Connected, remoteId := Some(id));
    FlushedSays(g);
    hide Flushed, Local;
    assert Flushed(g).received == e.received;
  }

  lemma ActMoves(e: Endpoint, peer: Endpoint, action: Action)
    requires Local(e) && Dir(e, peer) && Dir(peer, e) && Enabled(e, peer, action)
    ensures Moves(e, Act(e, action), action) && Sees(e, Act(e, action), action)
  {
    match action
    case DoConnect(id) => ConnectMoves(e, id);
    case Deliver(Msg(q, b)) => MsgMoves(e, q, b);
    case Deliver(Reply(q, b)) => ReplyMoves(e, q, b);
    case Deliver(Ack(q)) => AckMoves(e, q);
    case Deliver(Nack(q)) => NackMoves(e, q);
    case DoSend(b) => SendMoves(e, b);
    case _ => StopMoves(e, peer, action);
  }

  lemma AckMoves(e: Endpoint, q: int)
    requires Local(e) && InFlight(e)
    ensures Moves(e, OnAck(e, q), Deliver(Ack(q))) && Sees(e, OnAck(e, q), Deliver(Ack(q)))
  {
    var f, gone := OnAck(e, q), LetGo(e, Deliver(Ack(q)));
    assert f.sent.Keys == e.sent.Keys - gone;
  }

  lemma NackMoves(e: Endpoint, q: int)
    requires Local(e)
    ensures Moves(e, OnNack(e, q), Deliver(Nack(q))) && Sees(e, OnNack(e, q), Deliver(Nack(q)))
  {
  }

  lemma SendMoves(e: Endpoint, b: Body)
    requires Local(e) && e.status == Connected
    ensures Moves(e, AfterSend(e, b), DoSend(b)) && Sees(e, AfterSend(e, b), DoSend(b))
  {
    assert e.sent[|e.log| := b].Keys == e.sent.Keys + {|e.log|};
  }

  lemma StopMoves(e: Endpoint, peer: Endpoint, action: Action)
    requires Local(e) && Enabled(e, peer, action)
    requires action.DoStart? || action.RetryFires? || action.RetryFails? || action.DoStop? ||
      action == Deliver(StopSignal) || action == Deliver(KeepAlive)
    ensures Moves(e, Act(e, action), action) && Sees(e, Act(e, action), action)
  {
  }

  // ---------- what every run does, step by step ----------

  lemma StepMoves(steps: seq<Step>, step: Step, side: Side)
    ensures var e, f := Exec(steps).At(side), Exec(steps + [step]).At(side);
      if step.side == side && Takes(steps, step) then Moves(e, f, step.action) && Sees(e, f, step.action) else f == e
  {
    hide Exec, Act, Moves, Sees;
    OneStep(steps, step, side);
    RunKeepsInv(steps);
    if step.side == side && Takes(steps, step) {
      ActMoves(Exec(steps).At(side), Exec(steps).Peer(side), step.action);
    }
  }

  lemma Split(steps: seq<Step>)
    requires steps != []
    ensures steps == steps[..|steps| - 1] + [steps[|steps| - 1]]
  {
  }

  /** Every packet has its cause: a step adds exactly what its action says, and no step takes a packet back. */
  lemma EveryPacketHasItsCause(steps: seq<Step>, step: Step, side: Side)
    ensures var e, f := Exec(steps).At(side), Exec(steps + [step]).At(side);
      f.published == e.published + if step.side == side && Takes(steps, step) then Said(e, f, step.action) else []
  {
    hide Exec, Said, AsksOn, Sees, TakenIn, LetGo, NextStatus;
    StepMoves(steps, step, side);
  }

  /** Init, Started, Connected, Stopped, in that order: only these actions move a side on, and none moves it back. */
  lemma StatusMoves(steps: seq<Step>, step: Step)
    requires Takes(steps, step)
    ensures var e, f := Exec(steps).At(step.side), Exec(steps + [step]).At(step.side);
      && f.status == NextStatus(e, step.action)
      && (e.status == Stopped || f.status == Init ==> f.status == e.status)
      && (f.status == Connected ==>
            f.remoteId == if step.action.DoConnect? then Some(step.action.remoteId) else e.remoteId)
  {
    hide Exec, Said, AsksOn, Sees, TakenIn, LetGo;
    StepMoves(steps, step, step.side);
  }

  /** How a retry starts, is replaced and is called off, in every run. */
  lemma RetryMoves(steps: seq<Step>, step: Step)
    requires Takes(steps, step)
    ensures var e, f := Exec(steps).At(step.side), Exec(steps + [step]).At(step.side);
      if e.status == Stopped || f.status == Stopped then f.retryTimer == None else AsksOn(e, f, step.action)
  {
    hide Exec, Said, AsksOn, Sees, TakenIn, LetGo;
    StepMoves(steps, step, step.side);
  }

  // ---------- what a side has sent, taken in and still holds ----------

  ghost function Sends(steps: seq<Step>, side: Side): seq<Body> {
    if steps == [] then []
    else
      var before, step := steps[..|steps| - 1], steps[|steps| - 1];
      Sends(before, side) +
      if step.side == side && step.action.DoSend? && Exec(before).At(side).status == Connected
      then [step.action.body] else []
  }

  /** The numbers of the messages delivered to a side, and of the replies delivered before it stopped. */
  ghost function Arrivals(steps: seq<Step>, side: Side): set<int> {
    if steps == [] then {}
    else
      var before, step := steps[..|steps| - 1], steps[|steps| - 1];
      Arrivals(before, side) +
      if step.side == side && Takes(before, step) then TakenIn(Exec(before).At(side), step.action) else {}
  }

  /** The numbers of the messages alone. */
  ghost function MsgArrivals(steps: seq<Step>, side: Side): set<int> {
    if steps == [] then {}
    else
      var before, step := steps[..|steps| - 1], steps[|steps| - 1];
      MsgArrivals(before, side) +
      if step.side == side && Takes(before, step) && step.action.Deliver? && step.action.packet.Msg?
      then {step.action.packet.seqNo} else {}
  }

  /** The numbers whose acks were delivered to a side. */
  ghost function Acked(steps: seq<Step>, side: Side): set<int> {
    if steps == [] then {}
    else
      var before, step := steps[..|steps| - 1], steps[|steps| - 1];
      Acked(before, side) +
      if step.side == side && Takes(before, step) && step.action.Deliver? && step.action.packet.Ack?
      then {step.action.packet.seqNo} else {}
  }

  lemma {:induction false} LogIsSends(steps: seq<Step>, side: Side)
    ensures Exec(steps).At(side).log == Sends(steps, side)
  {
    hide Exec, Said, AsksOn, Sees, TakenIn, LetGo, NextStatus;
    if steps == [] {
      AtTheStart(side);
    } else {
      var before, step := steps[..|steps| - 1], steps[|steps| - 1];
      LogIsSends(before, side);
      Split(steps);
      StepMoves(before, step, side);
    }
  }

  lemma AtTheStart(side: Side)
    ensures Exec([]).At(side) == FRESH
  {
  }

  lemma {:induction false} ArrivedIs(steps: seq<Step>, side: Side)
    ensures Exec(steps).At(side).arrived == Arrivals(steps, side)
  {
    hide Exec, Said, AsksOn, Sees, TakenIn, LetGo, NextStatus;
    if steps == [] {
      AtTheStart(side);
    } else {
      var before, step := steps[..|steps| - 1], steps[|steps| - 1];
      ArrivedIs(before, side);
      Split(steps);
      StepMoves(before, step, side);
    }
  }

  /** A side holds what it sent, but for the truthy bodies with these numbers. */
  ghost predicate Holds(s: Endpoint, acked: set<int>) {
    && (forall q :: q in s.sent.Keys <==> 0 <= q < |s.log| && (s.log[q] == 0 || q !in acked))
    && forall q | q in acked :: 0 <= q < |s.log|
  }

  lemma HoldsStill(e: Endpoint, f: Endpoint, peer: Endpoint, action: Action, acked: set<int>)
    requires Holds(e, acked) && Enabled(e, peer, action) && Moves(e, f, action) && Kept(e, peer) && Delivered(e, peer)
    ensures Holds(f, acked + if action.Deliver? && action.packet.Ack? then {action.packet.seqNo} else {})
  {
    hide Said, AsksOn, TakenIn, NextStatus;
  }

  /** A side still holds what it sent, but for the truthy bodies whose acks reached it. */
  lemma {:induction false} HeldUnlessAcked(steps: seq<Step>, side: Side)
    ensures Holds(Exec(steps).At(side), Acked(steps, side))
  {
    hide Exec, Holds, Moves;
    if steps == [] {
      AtTheStart(side);
      assert Holds(FRESH, {}) by { NothingHeld(); }
    } else {
      var before, step := steps[..|steps| - 1], steps[|steps| - 1];
      HeldUnlessAcked(before, side);
      Split(steps);
      StepMoves(before, step, side);
      if step.side == side && Takes(before, step) {
        RunKeepsInv(before);
        var e, peer := Exec(before).At(side), Exec(before).Peer(side);
        HoldsStill(e, Exec(steps).At(side), peer, step.action, Acked(before, side));
      } else {
        assert Acked(steps, side) == Acked(before, side);
      }
    }
  }

  lemma NothingHeld()
    ensures Holds(FRESH, {})
  {
  }

  // ---------- what a side has published, kind by kind ----------

  predicate IsMsg(p: Packet) {
    p.Msg?
  }

  predicate IsAck(p: Packet) {
    p.Ack?
  }

  predicate IsStop(p: Packet) {
    p.StopSignal?
  }

  function Only(packets: seq<Packet>, kind: Packet -> bool): seq<Packet> {
    if packets == [] then []
    else Only(packets[..|packets| - 1], kind) + if kind(packets[|packets| - 1]) then [packets[|packets| - 1]] else []
  }

  lemma {:induction false} OnlyConcat(a: seq<Packet>, b: seq<Packet>, kind: Packet -> bool)
    ensures Only(a + b, kind) == Only(a, kind) + Only(b, kind)
  {
    if b == [] {
      assert a + b == a;
    } else {
      assert (a + b)[..|a + b| - 1] == a + b[..|b| - 1];
      OnlyConcat(a, b[..|b| - 1], kind);
    }
  }

  lemma {:induction false} OnlyAll(a: seq<Packet>, kind: Packet -> bool)
    requires forall i | 0 <= i < |a| :: kind(a[i])
    ensures Only(a, kind) == a
  {
    if a != [] {
      OnlyAll(a[..|a| - 1], kind);
    }
  }

  lemma {:induction false} OnlyNone(a: seq<Packet>, kind: Packet -> bool)
    requires forall i | 0 <= i < |a| :: !kind(a[i])
    ensures Only(a, kind) == []
  {
    if a != [] {
      OnlyNone(a[..|a| - 1], kind);
    }
  }

  lemma {:induction false} OnlyHas(a: seq<Packet>, kind: Packet -> bool, p: Packet)
    requires p in a && kind(p)
    ensures p in Only(a, kind)
  {
    if a[|a| - 1] != p {
      OnlyHas(a[..|a| - 1], kind, p);
    }
  }

  function NumberedMsgs(log: seq<Body>): seq<Packet> {
    seq(|log|, i requires 0 <= i < |log| => Msg(i, log[i]))
  }

  function AcksUpTo(n: nat): seq<Packet> {
    seq(n, i => Ack(i))
  }

  lemma SaidMsgs(e: Endpoint, f: Endpoint, action: Action)
    requires action.RetryFires? ==> e.retryTimer.Some?
    ensures Only(Said(e, f, action), IsMsg) == if action.DoSend? then [Msg(|e.log|, action.body)] else []
  {
    if action.DoSend? {
      OnlyAll(Said(e, f, action), IsMsg);
    } else {
      OnlyNone(Said(e, f, action), IsMsg);
    }
  }

  lemma AcksJoin(m: nat, n: nat)
    requires m <= n
    ensures AcksUpTo(m) + seq(n - m, i => Ack(m + i)) == AcksUpTo(n)
  {
  }

  lemma NoAcks(e: Endpoint, f: Endpoint, action: Action)
    requires (action.RetryFires? ==> e.retryTimer.Some?) && |f.emitted| == |e.emitted|
    ensures forall i | 0 <= i < |Said(e, f, action)| :: !IsAck(Said(e, f, action)[i])
  {
  }

  lemma SaidAcks(e: Endpoint, f: Endpoint, action: Action)
    requires action.RetryFires? ==> e.retryTimer.Some?
    requires |e.emitted| <= |f.emitted|
    requires action.DoConnect? || CarriesBody(action) || |f.emitted| == |e.emitted|
    ensures AcksUpTo(|e.emitted|) + Only(Said(e, f, action), IsAck) == AcksUpTo(|f.emitted|)
  {
    if |f.emitted| == |e.emitted| {
      NoAcks(e, f, action);
      OnlyNone(Said(e, f, action), IsAck);
    } else {
      var said := Said(e, f, action);
      assert said == seq(|f.emitted| - |e.emitted|, i => Ack(|e.emitted| + i));
      hide Said, Only, AcksUpTo;
      OnlyAll(said, IsAck);
      AcksJoin(|e.emitted|, |f.emitted|);
    }
  }

  /** The messages on the wire are the log, numbered from 0 in the order of sending, each once. */
  lemma {:induction false} MsgsAreTheLog(steps: seq<Step>, side: Side)
    ensures Only(Exec(steps).At(side).published, IsMsg) == NumberedMsgs(Exec(steps).At(side).log)
  {
    hide Exec, Said, AsksOn, Sees, TakenIn, LetGo, NextStatus, Only;
    if steps == [] {
      AtTheStart(side);
      OnlyNone([], IsMsg);
    } else {
      var before, step := steps[..|steps| - 1], steps[|steps| - 1];
      MsgsAreTheLog(before, side);
      Split(steps);
      StepMoves(before, step, side);
      if step.side == side && Takes(before, step) {
        var e, f := Exec(before).At(side), Exec(steps).At(side);
        OnlyConcat(e.published, Said(e, f, step.action), IsMsg);
        SaidMsgs(e, f, step.action);
      }
    }
  }

  /** The acks on the wire are those of what was emitted, in order, each once. */
  lemma {:induction false} AcksAreTheEmitted(steps: seq<Step>, side: Side)
    ensures Only(Exec(steps).At(side).published, IsAck) == AcksUpTo(|Exec(steps).At(side).emitted|)
  {
    hide Exec, Said, AsksOn, Sees, TakenIn, LetGo, NextStatus, Only;
    if steps == [] {
      AtTheStart(side);
      OnlyNone([], IsAck);
    } else {
      var before, step := steps[..|steps| - 1], steps[|steps| - 1];
      AcksAreTheEmitted(before, side);
      Split(steps);
      StepMoves(before, step, side);
      if step.side == side && Takes(before, step) {
        var e, f := Exec(before).At(side), Exec(steps).At(side);
        OnlyConcat(e.published, Said(e, f, step.action), IsAck);
        SaidAcks(e, f, step.action);
      }
    }
  }

  // ---------- stopping ----------

  /** At some step of the run the side was connected and stopped itself. */
  ghost predicate LeftOnItsOwn(steps: seq<Step>, side: Side) {
    steps != [] &&
    var before, step := steps[..|steps| - 1], steps[|steps| - 1];
    LeftOnItsOwn(before, side) || (
      var e := Exec(before).At(side);
      && step.side == side && Takes(before, step) && e.status == Connected
      && (step.action.DoStop? || step.action == RetryFails(e.receivedSeq + 1)))
  }

  lemma SaidStops(e: Endpoint, f: Endpoint, action: Action)
    requires action.RetryFires? ==> e.retryTimer.Some?
    ensures Only(Said(e, f, action), IsStop) ==
      if e.status == Connected && (action.DoStop? || action == RetryFails(e.receivedSeq + 1)) then [StopSignal] else []
  {
    var said := Said(e, f, action);
    if e.status == Connected && (action.DoStop? || action == RetryFails(e.receivedSeq + 1)) {
      OnlyAll(said, IsStop);
    } else {
      OnlyNone(said, IsStop);
    }
  }

  /** A side tells its peer to stop once, and only when it was connected and stopped on its own. */
  lemma {:induction false} StopSignalOnceIff(steps: seq<Step>, side: Side)
    ensures var e := Exec(steps).At(side);
      && Only(e.published, IsStop) == (if LeftOnItsOwn(steps, side) then [StopSignal] else [])
      && (LeftOnItsOwn(steps, side) ==> e.status == Stopped)
  {
    hide Exec, Said, AsksOn, Sees, TakenIn, LetGo, Only;
    if steps == [] {
      AtTheStart(side);
      OnlyNone([], IsStop);
    } else {
      var before, step := steps[..|steps| - 1], steps[|steps| - 1];
      StopSignalOnceIff(before, side);
      Split(steps);
      StepMoves(before, step, side);
      if step.side == side && Takes(before, step) {
        var e, f := Exec(before).At(side), Exec(steps).At(side);
        OnlyConcat(e.published, Said(e, f, step.action), IsStop);
        SaidStops(e, f, step.action);
      }
    }
  }

  /** Before `connect` a side has sent, emitted and published nothing at all. */
  lemma {:induction false} QuietBeforeConnect(steps: seq<Step>, side: Side)
    requires Exec(steps).At(side).status in {Init, Started}
    ensures var e := Exec(steps).At(side); e.published == [] && e.log == [] && e.emitted == []
  {
    hide Exec, AsksOn, Sees, LetGo, TakenIn;
    if steps == [] {
      AtTheStart(side);
    } else {
      var before, step := steps[..|steps| - 1], steps[|steps| - 1];
      Split(steps);
      StepMoves(before, step, side);
      QuietBeforeConnect(before, side);
      RunKeepsInv(before);
    }
  }

  ghost function Other(side: Side): Side {
    if side == A then B else A
  }

  /** A connected side that stops says so, once and last. */
  lemma StopIsTold(steps: seq<Step>, side: Side)
    requires Exec(steps).At(side).status == Connected
    ensures var e, f := Exec(steps).At(side), Exec(steps + [Step(side, DoStop)]).At(side);
      && f.status == Stopped && f.remoteId == None && f.retryTimer == None
      && f.published == e.published + [StopSignal] && StopSignal !in e.published
  {
    hide Exec, AsksOn, Sees, LetGo, TakenIn;
    StepMoves(steps, Step(side, DoStop), side);
    NotToldBefore(steps, side);
  }

  lemma NotToldBefore(steps: seq<Step>, side: Side)
    requires Exec(steps).At(side).status != Stopped
    ensures StopSignal !in Exec(steps).At(side).published
  {
    hide Exec, Only;
    StopSignalOnceIff(steps, side);
    if StopSignal in Exec(steps).At(side).published {
      OnlyHas(Exec(steps).At(side).published, IsStop, StopSignal);
    }
  }

  /** A side that stops before `connect` publishes nothing, then or ever before. */
  lemma EarlyStopIsSilent(steps: seq<Step>, side: Side)
    requires Exec(steps).At(side).status in {Init, Started}
    ensures var f := Exec(steps + [Step(side, DoStop)]).At(side);
      f.status == Stopped && f.remoteId == None && f.retryTimer == None && f.published == []
  {
    hide Exec, AsksOn, Sees, LetGo, TakenIn;
    StepMoves(steps, Step(side, DoStop), side);
    QuietBeforeConnect(steps, side);
  }

  /** The stop signal stops a peer that still runs, which sends none back and calls its retry off. */
  lemma StopStopsThePeer(steps: seq<Step>, side: Side)
    requires Exec(steps).At(side).status == Connected && Exec(steps).Peer(side).status != Stopped
    ensures var told := steps + [Step(side, DoStop)];
      var p, g := Exec(steps).Peer(side), Exec(told + [Step(Other(side), Deliver(StopSignal))]).Peer(side);
      && g.status == Stopped && g.remoteId == None && g.retryTimer == None
      && g.published == p.published && g.emitted == p.emitted && StopSignal !in g.published
  {
    hide Exec, AsksOn, Sees, LetGo, TakenIn;
    var told, peer := steps + [Step(side, DoStop)], Other(side);
    StopIsTold(steps, side);
    NotToldBefore(steps, peer);
    StepMoves(steps, Step(side, DoStop), peer);
    StepMoves(told, Step(peer, Deliver(StopSignal)), peer);
  }

  // ---------- how far a side has seen, and when it asks again ----------

  /** Until it connects a side takes in messages only, and counts none of them as seen. */
  lemma {:induction false} NothingSeenBefore(steps: seq<Step>, side: Side)
    requires Exec(steps).At(side).status in {Init, Started}
    ensures Exec(steps).At(side).receivedSeq == -1
    ensures Exec(steps).At(side).received.Keys == MsgArrivals(steps, side)
  {
    EmitsLongestArrivedPrefix(steps, side);
    ArrivalsAreMsgs(steps, side);
    ArrivedIs(steps, side);
    hide Exec, AsksOn, LetGo, TakenIn, Said, Arrivals, MsgArrivals;
    if steps == [] {
      AtTheStart(side);
    } else {
      var before, step := steps[..|steps| - 1], steps[|steps| - 1];
      Split(steps);
      StepMoves(before, step, side);
      NothingSeenBefore(before, side);
    }
  }

  lemma OnlyMsgsCome(e: Endpoint, f: Endpoint, peer: Endpoint, action: Action)
    requires Enabled(e, peer, action) && Moves(e, f, action) && InFlight(peer) && Kept(peer, e)
    requires f.status in {Init, Started}
    ensures e.status in {Init, Started}
    ensures TakenIn(e, action) == if action.Deliver? && action.packet.Msg? then {action.packet.seqNo} else {}
  {
    hide Said, AsksOn, LetGo;
  }

  lemma {:induction false} ArrivalsAreMsgs(steps: seq<Step>, side: Side)
    requires Exec(steps).At(side).status in {Init, Started}
    ensures Arrivals(steps, side) == MsgArrivals(steps, side)
  {
    hide Exec, Moves, Sees, TakenIn;
    if steps != [] {
      var before, step := steps[..|steps| - 1], steps[|steps| - 1];
      Split(steps);
      StepMoves(before, step, side);
      if step.side == side && Takes(before, step) {
        RunKeepsInv(before);
        OnlyMsgsCome(Exec(before).At(side), Exec(steps).At(side), Exec(before).Peer(side), step.action);
      }
      ArrivalsAreMsgs(before, side);
    }
  }

  ghost predicate IsGreatest(m: int, of: set<int>) {
    (m == -1 || m in of) && forall q | q in of :: q <= m
  }

  /** A connected side has seen up to the greatest number of any message delivered to it, before or after `connect`. */
  lemma {:induction false} SeenIsGreatestArrival(steps: seq<Step>, side: Side)
    requires Exec(steps).At(side).status == Connected
    ensures IsGreatest(Exec(steps).At(side).receivedSeq, MsgArrivals(steps, side))
  {
    hide Exec, AsksOn, LetGo, TakenIn, Said;
    if steps == [] {
      AtTheStart(side);
    } else {
      var before, step := steps[..|steps| - 1], steps[|steps| - 1];
      Split(steps);
      StepMoves(before, step, side);
      RunKeepsInv(before);
      if Exec(before).At(side).status == Connected {
        SeenIsGreatestArrival(before, side);
      } else {
        NothingSeenBefore(before, side);
      }
    }
  }

  /** A connected side whose emitted prefix is not all it has seen has a retry pending. */
  lemma {:induction false} GapIsCovered(steps: seq<Step>, side: Side)
    ensures var e := Exec(steps).At(side);
      e.status == Connected && |e.emitted| != e.receivedSeq + 1 ==> e.retryTimer.Some?
  {
    hide Exec, LetGo, TakenIn, Said;
    if steps == [] {
      AtTheStart(side);
    } else {
      var before, step := steps[..|steps| - 1], steps[|steps| - 1];
      Split(steps);
      StepMoves(before, step, side);
      GapIsCovered(before, side);
    }
  }

  /** So a message that came and waits for an earlier one has a retry pending, in every run. */
  lemma WaitingMessageHasRetry(steps: seq<Step>, side: Side, q: int)
    requires Exec(steps).At(side).status == Connected
    requires q in MsgArrivals(steps, side) && |Exec(steps).At(side).emitted| <= q
    ensures Exec(steps).At(side).retryTimer.Some?
  {
    hide Exec;
    SeenIsGreatestArrival(steps, side);
    GapIsCovered(steps, side);
  }

  /**
   The other way round it fails: the next message, coming in order with nothing missing,
   leaves a retry pending that asks for this very message, just emitted and acked.
   */
  lemma InOrderStillAsks(steps: seq<Step>, side: Side, b: Body)
    requires var e := Exec(steps).At(side);
      && e.status == Connected && e.receivedSeq + 1 == |e.emitted|
      && Takes(steps, Step(side, Deliver(Msg(|e.emitted|, b))))
    ensures var e := Exec(steps).At(side);
      var f := Exec(steps + [Step(side, Deliver(Msg(|e.emitted|, b)))]).At(side);
      |e.emitted| < |f.emitted| && f.retryTimer == Some(|e.emitted|) && Ack(|e.emitted|) in f.published
  {
    hide Exec, LetGo, Sees;
    var e := Exec(steps).At(side);
    var step := Step(side, Deliver(Msg(|e.emitted|, b)));
    StepMoves(steps, step, side);
    EmitsLongestArrivedPrefix(steps + [step], side);
    var f := Exec(steps + [step]).At(side);
    assert f.published[|e.published|] == Ack(|e.emitted|);
  }
}
