/** Flow control lets data through: once everything sent is read, the windows at the sender open again. */
module FlowProgress {
  import opened FlowControl
  import opened FlowSystem

  /** The sender starts with exactly what the receiver grants, as the handshake tells it. */
  ghost predicate Matching(p: Params, q: Params) {
    Compatible(p, q) && p.sendStream == q.recvStream && p.sendConn == q.recvConn
  }

  /** A controller at the sender: its window is the initial one or an announced one, which is not smaller. */
  ghost predicate AtLeast(c: Ctl, initial: nat) {
    c.initialSend == initial && (c.sendWindow == 0 || c.sendWindow >= initial)
  }

  ghost predicate SenderKnown(m: Mgr) {
    (forall id :: id in m.streams ==> AtLeast(m.streams[id], m.params.sendStream)) && AtLeast(m.conn, m.params.sendConn)
  }

  /** A receive window is the initial one, or has been announced. */
  ghost predicate Announced(wire: set<Message>, id: StreamID, c: Ctl, initial: nat) {
    (c.receiveWindow == initial || Update(id, c.receiveWindow) in wire) && c.increment >= initial
  }

  ghost predicate ReceiverKnown(m: Mgr, wire: set<Message>) {
    && (forall id :: id in m.streams ==> Announced(wire, id, m.streams[id], m.params.recvStream))
    && Announced(wire, 0, m.conn, m.params.recvConn)
  }

  ghost predicate Known(s: Sys) {
    Matching(s.snd.params, s.rcv.params) && SenderKnown(s.snd) && ReceiverKnown(s.rcv, s.wire)
  }

  lemma UpdateKnown(s: Sys, id: StreamID, frequent: bool, force: bool)
    requires Inv(s) && Known(s)
    ensures Known(Step(s, UpdateStream(id, frequent, force)))
  {
    if id in s.rcv.streams {
      assert ReceiverStreamOk(s, id);
      InvMeansNoViolation(s);
      UpdateLeavesHalf(s.rcv.streams[id], frequent);
    }
  }

  lemma ConnectionKnown(s: Sys, frequent: bool, force: bool)
    requires Inv(s) && Known(s)
    ensures Known(Step(s, UpdateConnection(frequent, force)))
  {
    InvMeansNoViolation(s);
    UpdateLeavesHalf(s.rcv.conn, frequent);
  }

  /** What arrives raises counters and no window. */
  lemma ReceivedKnown(m: Mgr, wire: set<Message>, id: StreamID, offset: nat)
    requires ReceiverKnown(m, wire)
    ensures ReceiverKnown(Received(m, id, offset).1, wire)
  {}

  lemma RaisedKnown(s: Sys, id: StreamID, offset: nat)
    requires Inv(s) && Known(s) && Update(id, offset) in s.wire
    ensures SenderKnown(WindowRaised(s.snd, id, offset).1)
  {
    assert MessageOk(s, Update(id, offset));
  }

  lemma DeliverKnown(s: Sys, m: Message)
    requires Inv(s) && Known(s) && m in s.wire
    ensures Known(Delivered(s, m))
  {
    match m
    case StreamFrame(id, end) => ReceivedKnown(s.rcv, s.wire, id, end);
    case RstStream(id, offset) => ReceivedKnown(s.rcv, s.wire, id, offset);
    case Update(id, offset) => RaisedKnown(s, id, offset);
  }

  lemma MoreOnWire(m: Mgr, wire: set<Message>, more: set<Message>)
    requires ReceiverKnown(m, wire)
    ensures ReceiverKnown(m, wire + more)
  {
    forall id | id in m.streams ensures Announced(wire + more, id, m.streams[id], m.params.recvStream) {
      assert Announced(wire, id, m.streams[id], m.params.recvStream);
    }
  }

  /** Steps of the sender. */
  lemma SenderStepKnown(s: Sys, e: Event)
    requires Known(s) && (e.OpenAtSender? || e.RemoveAtSender? || e.Send? || e.Resend? || e.Reset?)
    ensures Known(Step(s, e))
  {
    var t := Step(s, e);
    assert SenderKnown(t.snd);
    MoreOnWire(s.rcv, s.wire, t.wire);
    assert s.wire + t.wire == t.wire;
  }

  lemma StepKnown(s: Sys, e: Event)
    requires Inv(s) && Known(s)
    ensures Known(Step(s, e))
  {
    match e
    case UpdateStream(id, frequent, force) => UpdateKnown(s, id, frequent, force);
    case UpdateConnection(frequent, force) => ConnectionKnown(s, frequent, force);
    case Deliver(m) => if m in s.wire { DeliverKnown(s, m); }
    case OpenAtReceiver(id) =>
    case RemoveAtReceiver(id) =>
    case Read(id, n) =>
    case _ => SenderStepKnown(s, e);
  }

  lemma {:induction false} RunKnown(p: Params, q: Params, events: seq<Event>)
    requires Matching(p, q)
    ensures Inv(Run(p, q, events)) && Known(Run(p, q, events))
  {
    RunInv(p, q, events);
    if events != [] {
      var front := events[..|events| - 1];
      RunKnown(p, q, front);
      StepKnown(Run(p, q, front), events[|events| - 1]);
    }
  }

  // ---------- the windows open again ----------

  /** After an update message for the current window was delivered, or none was ever needed, the sender has that window. */
  lemma WindowArrives(s: Sys, id: StreamID)
    requires Inv(s) && Known(s) && id in s.snd.streams && id in s.rcv.streams
    ensures var t := Step(s, Deliver(Update(id, s.rcv.streams[id].receiveWindow)));
      && t == s.(snd := t.snd) && t.snd.conn == s.snd.conn && id in t.snd.streams
      && t.snd.streams[id].bytesSent == s.snd.streams[id].bytesSent && t.snd.streams[id].contributes == s.snd.streams[id].contributes
      && SendWindow(t.snd.streams[id]) == s.rcv.streams[id].receiveWindow
  {
    assert SenderStreamOk(s, id) && ReceiverStreamOk(s, id) && LedgerOk(s, id);
    assert AtLeast(s.snd.streams[id], s.snd.params.sendStream);
    assert Announced(s.wire, id, s.rcv.streams[id], s.rcv.params.recvStream);
  }

  lemma ConnectionWindowArrives(s: Sys)
    requires Inv(s) && Known(s)
    ensures var t := Step(s, Deliver(Update(0, s.rcv.conn.receiveWindow)));
      && t == s.(snd := t.snd) && t.snd.streams == s.snd.streams && t.snd.conn.bytesSent == s.snd.conn.bytesSent
      && SendWindow(t.snd.conn) == s.rcv.conn.receiveWindow
  {
    assert Announced(s.wire, 0, s.rcv.conn, s.rcv.params.recvConn) && AtLeast(s.snd.conn, s.snd.params.sendConn);
    assert s.snd.conn.bytesSent <= SendWindow(s.snd.conn) <= s.rcv.conn.receiveWindow;
  }

  lemma RunSnoc(p: Params, q: Params, events: seq<Event>, e: Event)
    ensures Run(p, q, events + [e]) == Step(Run(p, q, events), e)
  {
    assert (events + [e])[..|events|] == events;
  }

  /** The receiver looks at the window of the stream, then at the connection's. */
  ghost function Looked(s: Sys, id: StreamID, frequent: bool, frequentConn: bool): Sys {
    Step(Step(s, UpdateStream(id, frequent, false)), UpdateConnection(frequentConn, false))
  }

  lemma LookedGood(s: Sys, id: StreamID, frequent: bool, frequentConn: bool)
    requires Inv(s) && Known(s)
    ensures Inv(Looked(s, id, frequent, frequentConn)) && Known(Looked(s, id, frequent, frequentConn))
  {
    var a := Step(s, UpdateStream(id, frequent, false));
    StepKeepsInv(s, UpdateStream(id, frequent, false));
    UpdateKnown(s, id, frequent, false);
    StepKeepsInv(a, UpdateConnection(frequentConn, false));
    ConnectionKnown(a, frequentConn, false);
  }

  /** Both windows then leave half of what they started with. */
  lemma UpdatesLeaveRoom(s: Sys, id: StreamID, frequent: bool, frequentConn: bool)
    requires Inv(s) && Known(s) && id in s.rcv.streams
    ensures var t := Looked(s, id, frequent, frequentConn);
      && t.snd == s.snd && t.rcv.params == s.rcv.params && id in t.rcv.streams
      && t.rcv.streams[id].receiveWindow >= s.rcv.streams[id].bytesRead + s.rcv.params.recvStream / 2
      && t.rcv.conn.receiveWindow >= s.rcv.conn.bytesRead + s.rcv.params.recvConn / 2
  {
    var m := Step(s, UpdateStream(id, frequent, false));
    assert ReceiverStreamOk(s, id);
    InvMeansNoViolation(s);
    UpdateLeavesHalf(s.rcv.streams[id], frequent);
    StepKeepsInv(s, UpdateStream(id, frequent, false));
    InvMeansNoViolation(m);
    UpdateKnown(s, id, frequent, false);
    UpdateLeavesHalf(m.rcv.conn, frequentConn);
    assert Announced(s.wire, id, s.rcv.streams[id], s.rcv.params.recvStream);
  }

  /** The sender's windows are ahead of what it has sent by at least half of what it started with. */
  ghost predicate Open(s: Sys, id: StreamID)
    requires id in s.snd.streams
  {
    && SendWindow(s.snd.streams[id]) >= s.snd.streams[id].bytesSent + s.snd.params.sendStream / 2
    && SendWindow(s.snd.conn) >= s.snd.conn.bytesSent + s.snd.params.sendConn / 2
  }

  /** Everything the sender sent on the stream, and on the connection, has been read. */
  ghost predicate AllRead(s: Sys, id: StreamID) {
    && id in s.snd.streams && id in s.rcv.streams
    && s.rcv.streams[id].bytesRead == s.snd.streams[id].bytesSent && s.rcv.conn.bytesRead == s.snd.conn.bytesSent
  }

  /** The current windows are delivered to the sender. */
  ghost function Told(s: Sys, id: StreamID): Sys
    requires id in s.rcv.streams
  {
    Step(Step(s, Deliver(Update(id, s.rcv.streams[id].receiveWindow))), Deliver(Update(0, s.rcv.conn.receiveWindow)))
  }

  lemma ToldWindows(s: Sys, id: StreamID)
    requires Inv(s) && Known(s) && id in s.snd.streams && id in s.rcv.streams
    ensures var t := Told(s, id);
      && id in t.snd.streams && t.snd.streams[id].bytesSent == s.snd.streams[id].bytesSent && t.snd.conn.bytesSent == s.snd.conn.bytesSent
      && t.snd.params == s.snd.params
      && SendWindow(t.snd.streams[id]) == s.rcv.streams[id].receiveWindow && SendWindow(t.snd.conn) == s.rcv.conn.receiveWindow
  {
    var m := Update(id, s.rcv.streams[id].receiveWindow);
    WindowArrives(s, id);
    StepKeepsInv(s, Deliver(m));
    StepKnown(s, Deliver(m));
    ConnectionWindowArrives(Step(s, Deliver(m)));
  }

  lemma LookingOpens(s: Sys, id: StreamID, frequent: bool, frequentConn: bool)
    requires Inv(s) && Known(s) && AllRead(s, id)
    ensures var t := Looked(s, id, frequent, frequentConn);
      id in t.rcv.streams && id in Told(t, id).snd.streams && Open(Told(t, id), id)
  {
    LookedGood(s, id, frequent, frequentConn);
    UpdatesLeaveRoom(s, id, frequent, frequentConn);
    ToldWindows(Looked(s, id, frequent, frequentConn), id);
  }

  /** Progress: in every run, once everything sent has been read, a look at both windows and the delivery of what they
      announce, now or before, leave the sender room at both levels, whatever was lost on the way. */
  lemma WindowsOpenAgain(p: Params, q: Params, events: seq<Event>, id: StreamID, frequent: bool, frequentConn: bool) returns (more: seq<Event>)
    requires Matching(p, q) && q.recvStream >= 2 && q.recvConn >= 2 && AllRead(Run(p, q, events), id)
    ensures |more| == 4 && more[0] == UpdateStream(id, frequent, false) && more[1] == UpdateConnection(frequentConn, false)
    ensures more[2].Deliver? && more[2].message.Update? && more[3].Deliver? && more[3].message.Update?
    ensures var t := Run(p, q, events + more); id in t.snd.streams && Open(t, id) && StreamSendWindowSize(t.snd, id) > 0
  {
    RunKnown(p, q, events);
    RunParams(p, q, events);
    var s := Run(p, q, events);
    LookingOpens(s, id, frequent, frequentConn);
    var t := Looked(s, id, frequent, frequentConn);
    var look, conn := UpdateStream(id, frequent, false), UpdateConnection(frequentConn, false);
    var one, two := Deliver(Update(id, t.rcv.streams[id].receiveWindow)), Deliver(Update(0, t.rcv.conn.receiveWindow));
    more := [look, conn, one, two];
    FourMore(p, q, events, look, conn, one, two);
    RunParams(p, q, events + more);
  }

  lemma FourMore(p: Params, q: Params, events: seq<Event>, a: Event, b: Event, c: Event, d: Event)
    ensures Run(p, q, events + [a, b, c, d]) == Step(Step(Step(Step(Run(p, q, events), a), b), c), d)
  {
    assert events + [a, b, c, d] == events + [a] + [b] + [c] + [d];
    RunSnoc(p, q, events, a);
    RunSnoc(p, q, events + [a], b);
    RunSnoc(p, q, events + [a] + [b], c);
    RunSnoc(p, q, events + [a] + [b] + [c], d);
  }

  lemma DeliveredParams(s: Sys, m: Message)
    ensures Delivered(s, m).snd.params == s.snd.params && Delivered(s, m).rcv.params == s.rcv.params
  {}

  lemma StepParams(s: Sys, e: Event)
    ensures Step(s, e).snd.params == s.snd.params && Step(s, e).rcv.params == s.rcv.params
  {
    if e.Deliver? { DeliveredParams(s, e.message); }
  }

  lemma {:induction false} RunParams(p: Params, q: Params, events: seq<Event>)
    ensures Run(p, q, events).snd.params == p && Run(p, q, events).rcv.params == q
  {
    if events != [] {
      RunParams(p, q, events[..|events| - 1]);
      StepParams(Run(p, q, events[..|events| - 1]), events[|events| - 1]);
    }
  }

  // ---------- the connection's window keeps pace ----------

  /** The stream still has its first increment, or the connection's is one and a half times as large, or at its maximum. */
  ghost predicate Paced(c: Ctl, conn: Ctl, initial: nat, max: nat) {
    c.contributes && c.increment != initial ==> conn.increment >= MinByteCount(c.increment * 3 / 2, max)
  }

  ghost predicate AllPaced(m: Mgr) {
    && m.conn.maxIncrement == m.params.maxRecvConn
    && forall id :: id in m.streams ==> Paced(m.streams[id], m.conn, m.params.recvStream, m.params.maxRecvConn)
  }

  lemma StreamUpdatePaced(m: Mgr, id: StreamID, frequent: bool, force: bool)
    requires AllPaced(m) && id in m.streams
    ensures AllPaced(StreamUpdated(m, id, frequent, force))
  {
    assert Paced(m.streams[id], m.conn, m.params.recvStream, m.params.maxRecvConn);
  }

  lemma ReceivedPaced(m: Mgr, id: StreamID, offset: nat)
    requires AllPaced(m)
    ensures AllPaced(Received(m, id, offset).1)
  {}

  lemma DeliverPaced(s: Sys, m: Message)
    requires AllPaced(s.rcv)
    ensures AllPaced(Delivered(s, m).rcv)
  {
    match m
    case StreamFrame(id, end) => ReceivedPaced(s.rcv, id, end);
    case RstStream(id, offset) => ReceivedPaced(s.rcv, id, offset);
    case Update(id, offset) =>
  }

  lemma ConnectionPaced(m: Mgr, frequent: bool)
    requires AllPaced(m)
    ensures AllPaced(m.(conn := Updated(m.conn, frequent)))
  {}

  lemma ReadPaced(m: Mgr, id: StreamID, n: nat)
    requires AllPaced(m)
    ensures AllPaced(BytesRead(m, id, n).1)
  {}

  lemma StepPaced(s: Sys, e: Event)
    requires AllPaced(s.rcv)
    ensures AllPaced(Step(s, e).rcv)
  {
    match e
    case UpdateStream(id, frequent, force) => if id in s.rcv.streams { StreamUpdatePaced(s.rcv, id, frequent, force); }
    case UpdateConnection(frequent, force) => ConnectionPaced(s.rcv, frequent);
    case Deliver(m) => DeliverPaced(s, m);
    case Read(id, n) => ReadPaced(s.rcv, id, n);
    case _ =>
  }

  lemma {:induction false} RunPaced(p: Params, q: Params, events: seq<Event>)
    ensures AllPaced(Run(p, q, events).rcv)
  {
    if events != [] {
      RunPaced(p, q, events[..|events| - 1]);
      StepPaced(Run(p, q, events[..|events| - 1]), events[|events| - 1]);
    }
  }

  /** In every run, whatever the windows are, a stream whose window has grown has pulled the connection's along. */
  lemma {:induction false} ConnectionKeepsPace(p: Params, q: Params, events: seq<Event>, id: StreamID)
    requires id in Run(p, q, events).rcv.streams
    ensures Paced(Run(p, q, events).rcv.streams[id], Run(p, q, events).rcv.conn, q.recvStream, q.maxRecvConn)
  {
    RunPaced(p, q, events);
    RunParams(p, q, events);
  }

  /** A sender that starts with less than the receiver grants is answered after using that up exactly when less
      than half is left; otherwise no update is due, and it waits for one that was not asked for. */
  lemma FirstUpdateIff(p: Params, q: Params, contributes: bool)
    requires p.sendStream <= q.recvStream
    ensures NeedsUpdate(NewStreamCtl(q, contributes).(bytesRead := p.sendStream, highestReceived := p.sendStream))
       <==> q.recvStream - p.sendStream < q.recvStream / 2
  {}
}
