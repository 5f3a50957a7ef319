/** Two endpoints under flow control, with a network that loses, duplicates, delays and reorders. */
module FlowSystem {
  import opened FlowControl

  // ---------- sums over streams ----------

  ghost function Sum(m: map<StreamID, nat>): nat
    decreases |m|
  {
    if m == map[] then 0
    else
      var k :| k in m;
      m[k] + Sum(m - {k})
  }

  lemma {:induction false} SumSplit(m: map<StreamID, nat>, k: StreamID)
    requires k in m
    ensures Sum(m) == m[k] + Sum(m - {k})
    decreases |m|
  {
    var j :| j in m && Sum(m) == m[j] + Sum(m - {j});
    if j != k {
      SumSplit(m - {j}, k);
      SumSplit(m - {k}, j);
      assert m - {j} - {k} == m - {k} - {j};
    }
  }

  lemma SumUpdate(m: map<StreamID, nat>, k: StreamID, v: nat)
    ensures Sum(m[k := v]) + (if k in m then m[k] else 0) == Sum(m) + v
  {
    SumSplit(m[k := v], k);
    if k in m {
      SumSplit(m, k);
      assert m[k := v] - {k} == m - {k};
    } else {
      assert m[k := v] - {k} == m;
    }
  }

  lemma {:induction false} SumLe(a: map<StreamID, nat>, b: map<StreamID, nat>)
    requires forall k :: k in a && a[k] != 0 ==> k in b && a[k] <= b[k]
    ensures Sum(a) <= Sum(b)
    decreases |a|
  {
    if a != map[] {
      var k :| k in a && Sum(a) == a[k] + Sum(a - {k});
      if k in b {
        SumSplit(b, k);
        SumLe(a - {k}, b - {k});
      } else {
        SumLe(a - {k}, b);
      }
    }
  }

  // ---------- the system ----------

  /** Streams 1 and 3 do not count towards the connection; stream 1 also bypasses send accounting. */
  predicate Contributes(id: StreamID) { id != 1 && id != 3 }

  datatype Message = StreamFrame(id: StreamID, end: nat) | RstStream(id: StreamID, offset: nat) | Update(id: StreamID, offset: nat)

  /** The manager at the sending end, the one at the receiving end, and everything ever put on the wire.
      `reset` are the streams the sender has reset.  The ledgers keep the counters of every stream ever
      opened, also after it is removed: bytes sent, highest offset received, bytes read and the last
      receive window. */
  datatype Sys = Sys(snd: Mgr, rcv: Mgr, wire: set<Message>, reset: set<StreamID>, failed: bool,
                     sent: map<StreamID, nat>, high: map<StreamID, nat>, read: map<StreamID, nat>, granted: map<StreamID, nat>)

  datatype Event =
    | OpenAtSender(id: StreamID)
    | OpenAtReceiver(id: StreamID)
    | RemoveAtSender(id: StreamID)
    | RemoveAtReceiver(id: StreamID)
    | Send(id: StreamID, n: nat)
    | Resend(id: StreamID, end: nat)
    | Reset(id: StreamID)
    | Deliver(message: Message)
    | Read(id: StreamID, n: nat)
    | UpdateStream(id: StreamID, frequent: bool, force: bool)
    | UpdateConnection(frequent: bool, force: bool)

  /** The receiver's bookkeeping of a stream, mirrored in the ledgers. */
  ghost function Book(s: Sys, id: StreamID): Sys {
    if id !in s.rcv.streams then s
    else
      var c := s.rcv.streams[id];
      s.(high := s.high[id := c.highestReceived], read := s.read[id := c.bytesRead], granted := s.granted[id := c.receiveWindow])
  }

  ghost function Step(s: Sys, e: Event): Sys {
    match e
    case OpenAtSender(id) =>
      // a stream identifier is used once
      if id in s.sent || id == 0 then s else s.(snd := WithStream(s.snd, id, Contributes(id)), sent := s.sent[id := 0])
    case OpenAtReceiver(id) =>
      if id in s.high || id == 0 then s else Book(s.(rcv := WithStream(s.rcv, id, Contributes(id))), id)
    case RemoveAtSender(id) => s.(snd := WithoutStream(s.snd, id))
    case RemoveAtReceiver(id) => s.(rcv := WithoutStream(s.rcv, id))
    case Send(id, n) =>
      // the framer takes no more new data than the manager allows
      if id !in s.snd.streams || id == 1 || id in s.reset || n > StreamSendWindowSize(s.snd, id) then s
      else
        var snd := BytesSent(s.snd, id, n).1;
        var end := snd.streams[id].bytesSent;
        s.(snd := snd, sent := s.sent[id := end], wire := s.wire + {StreamFrame(id, end)})
    case Resend(id, end) =>
      // a retransmitted or split frame ends within what was sent
      if id in s.sent && end <= s.sent[id] then s.(wire := s.wire + {StreamFrame(id, end)}) else s
    case Reset(id) =>
      if id !in s.snd.streams || id == 1 || id in s.reset then s
      else s.(wire := s.wire + {RstStream(id, s.snd.streams[id].bytesSent)}, reset := s.reset + {id})
    case Deliver(m) => if m !in s.wire || s.failed then s else Delivered(s, m)
    case Read(id, n) =>
      // only bytes that arrived are read
      if id !in s.rcv.streams || s.rcv.streams[id].bytesRead + n > s.rcv.streams[id].highestReceived then s
      else Book(s.(rcv := BytesRead(s.rcv, id, n).1), id)
    case UpdateStream(id, frequent, force) =>
      if id !in s.rcv.streams then s
      else
        var rcv := StreamUpdated(s.rcv, id, frequent, force);
        var sent := force || NeedsUpdate(s.rcv.streams[id]);
        Book(s.(rcv := rcv, wire := s.wire + if sent then {Update(id, rcv.streams[id].receiveWindow)} else {}), id)
    case UpdateConnection(frequent, force) =>
      var conn := Updated(s.rcv.conn, frequent);
      var sent := force || NeedsUpdate(s.rcv.conn);
      s.(rcv := s.rcv.(conn := conn), wire := s.wire + if sent then {Update(0, conn.receiveWindow)} else {})
  }

  /** A message arrives.  Frames for streams that are closed are ignored; any other error is a failure. */
  ghost function Delivered(s: Sys, m: Message): Sys {
    match m
    case StreamFrame(id, end) => var (err, rcv) := Received(s.rcv, id, end); Judge(s, err, rcv, id)
    case RstStream(id, offset) => var (err, rcv) := ResetReceived(s.rcv, id, offset); Judge(s, err, rcv, id)
    case Update(id, offset) => s.(snd := WindowRaised(s.snd, id, offset).1)
  }

  ghost function Judge(s: Sys, err: FlowError, rcv: Mgr, id: StreamID): Sys {
    Book(s.(rcv := rcv, failed := err != NoError && err != UnknownStream), id)
  }

  ghost function Begin(p: Params, q: Params): Sys {
    Sys(NewMgr(p), NewMgr(q), {}, {}, false, map[], map[], map[], map[])
  }

  /** The configuration the protocol relies on: the sender starts with at most what the receiver
      grants, and window increments start at most at their maxima. */
  ghost predicate Compatible(p: Params, q: Params) {
    && p.sendStream <= q.recvStream && p.sendConn <= q.recvConn
    && q.recvStream <= q.maxRecvStream && q.recvConn <= q.maxRecvConn
  }

  // ---------- invariant ----------

  /** What the receiver allows on a stream: its window, or the initial one while it is not open. */
  ghost function Grant(s: Sys, id: StreamID): nat {
    if id in s.granted then s.granted[id] else s.rcv.params.recvStream
  }

  /** The part of a ledger that counts towards the connection. */
  ghost function Counted(m: map<StreamID, nat>): map<StreamID, nat> { m - {1, 3} }

  ghost predicate SenderStreamOk(s: Sys, id: StreamID)
    requires id in s.snd.streams
  {
    var c := s.snd.streams[id];
    && id in s.sent && c.bytesSent == s.sent[id] && c.contributes == Contributes(id)
    && c.initialSend <= s.rcv.params.recvStream && c.bytesSent <= SendWindow(c) <= Grant(s, id)
  }

  ghost predicate ReceiverStreamOk(s: Sys, id: StreamID)
    requires id in s.rcv.streams
  {
    var c := s.rcv.streams[id];
    && id in s.high && id in s.read && id in s.granted && id != 0
    && c.highestReceived == s.high[id] && c.bytesRead == s.read[id] && c.receiveWindow == s.granted[id]
    && c.contributes == Contributes(id) && c.increment <= c.maxIncrement
  }

  /** What was read had arrived, what arrived had been sent, and what was sent had been granted. */
  ghost predicate LedgerOk(s: Sys, id: StreamID) {
    && (id in s.sent ==> s.sent[id] <= Grant(s, id))
    && (id in s.high <==> id in s.read) && (id in s.high <==> id in s.granted)
    && (id in s.high ==> s.read[id] <= s.high[id] && s.granted[id] >= s.rcv.params.recvStream)
    && (id in s.high && s.high[id] != 0 ==> id in s.sent && s.high[id] <= s.sent[id])
  }

  ghost predicate MessageOk(s: Sys, m: Message) {
    match m
    case StreamFrame(id, end) => id in s.sent && end <= s.sent[id]
    case RstStream(id, offset) => id in s.sent && id in s.reset && offset == s.sent[id]
    case Update(id, offset) =>
      if id == 0 then s.rcv.params.recvConn <= offset <= s.rcv.conn.receiveWindow
      else id in s.granted && s.rcv.params.recvStream <= offset <= s.granted[id]
  }

  /** The connection's counters are the sums over all streams ever opened that count towards it. */
  ghost predicate ConnectionOk(s: Sys) {
    && s.snd.conn.bytesSent == Sum(Counted(s.sent))
    && s.rcv.conn.highestReceived == Sum(Counted(s.high))
    && s.rcv.conn.bytesRead == Sum(Counted(s.read))
    && s.snd.conn.bytesSent <= SendWindow(s.snd.conn) <= s.rcv.conn.receiveWindow && s.snd.conn.initialSend <= s.rcv.params.recvConn
    && s.rcv.conn.increment <= s.rcv.conn.maxIncrement && s.rcv.params.recvConn <= s.rcv.conn.receiveWindow
  }

  ghost predicate Inv(s: Sys) {
    && Compatible(s.snd.params, s.rcv.params) && !s.failed
    && 0 !in s.sent && 0 !in s.high
    && (forall id :: id in s.snd.streams ==> SenderStreamOk(s, id))
    && (forall id :: id in s.rcv.streams ==> ReceiverStreamOk(s, id))
    && (forall id :: LedgerOk(s, id))
    && (forall m :: m in s.wire ==> MessageOk(s, m))
    && ConnectionOk(s)
  }

  // ---------- consequences ----------

  lemma CountedLe(a: map<StreamID, nat>, b: map<StreamID, nat>)
    requires forall k :: k in a && a[k] != 0 ==> k in b && a[k] <= b[k]
    ensures Sum(Counted(a)) <= Sum(Counted(b))
  {
    SumLe(Counted(a), Counted(b));
  }

  lemma CountedUpdate(m: map<StreamID, nat>, id: StreamID, v: nat)
    ensures Contributes(id) ==> Sum(Counted(m[id := v])) + (if id in m then m[id] else 0) == Sum(Counted(m)) + v
    ensures !Contributes(id) ==> Counted(m[id := v]) == Counted(m)
  {
    if Contributes(id) {
      assert Counted(m[id := v]) == Counted(m)[id := v];
      SumUpdate(Counted(m), id, v);
    }
  }

  /** In every good state all windows hold: neither level is violated and no subtraction wraps. */
  lemma InvMeansNoViolation(s: Sys)
    requires Inv(s)
    ensures !Violated(s.rcv.conn) && s.rcv.conn.bytesRead <= s.rcv.conn.receiveWindow
    ensures forall id :: id in s.rcv.streams ==> !Violated(s.rcv.streams[id]) && s.rcv.streams[id].bytesRead <= s.rcv.streams[id].receiveWindow
  {
    forall k | k in s.high && s.high[k] != 0 ensures k in s.sent && s.high[k] <= s.sent[k] { assert LedgerOk(s, k); }
    forall k | k in s.read && s.read[k] != 0 ensures k in s.high && s.read[k] <= s.high[k] { assert LedgerOk(s, k); }
    CountedLe(s.high, s.sent);
    CountedLe(s.read, s.high);
    forall id | id in s.rcv.streams
      ensures !Violated(s.rcv.streams[id]) && s.rcv.streams[id].bytesRead <= s.rcv.streams[id].receiveWindow
    {
      assert ReceiverStreamOk(s, id) && LedgerOk(s, id);
    }
  }

  /** A window update never takes back what was granted. */
  lemma UpdatedGrows(c: Ctl, frequent: bool)
    requires c.bytesRead <= c.receiveWindow && c.increment <= c.maxIncrement
    ensures c.receiveWindow <= Updated(c, frequent).receiveWindow
    ensures Updated(c, frequent).increment <= c.maxIncrement && c.increment <= Updated(c, frequent).increment
  {}

  // ---------- every step keeps the invariant ----------

  /** Facts about other streams and earlier messages survive when ledgers and windows only grow. */
  ghost predicate Extends(s: Sys, t: Sys) {
    && t.snd.params == s.snd.params && t.rcv.params == s.rcv.params && s.reset <= t.reset
    && (forall id :: id in s.sent ==> id in t.sent && s.sent[id] <= t.sent[id])
    && (forall id :: id in s.reset && id in s.sent ==> t.sent[id] == s.sent[id])
    && (forall id :: id in s.granted ==> id in t.granted && s.granted[id] <= t.granted[id])
    && s.rcv.conn.receiveWindow <= t.rcv.conn.receiveWindow
  }

  lemma ExtendsMessage(s: Sys, t: Sys, m: Message)
    requires Extends(s, t) && MessageOk(s, m)
    ensures MessageOk(t, m)
  {}

  /** The sender's controller for `id` and its connection controller change to legal values. */
  ghost predicate SenderMove(s: Sys, t: Sys, id: StreamID, c: Ctl) {
    && id != 0
    && t == s.(snd := s.snd.(streams := s.snd.streams[id := c], conn := t.snd.conn), sent := s.sent[id := c.bytesSent], wire := t.wire)
    && c.contributes == Contributes(id) && c.initialSend <= s.rcv.params.recvStream && c.bytesSent <= SendWindow(c) <= Grant(s, id)
    && (id in s.sent ==> s.sent[id] <= c.bytesSent && (id in s.reset ==> s.sent[id] == c.bytesSent))
    && (forall m :: m in t.wire ==> m in s.wire || MessageOk(t, m))
    && t.snd.conn.bytesSent <= SendWindow(t.snd.conn) <= s.rcv.conn.receiveWindow && t.snd.conn.initialSend == s.snd.conn.initialSend
    && t.snd.conn.bytesSent == s.snd.conn.bytesSent + (if Contributes(id) then c.bytesSent - (if id in s.sent then s.sent[id] else 0) else 0)
  }

  lemma SenderMoveLedger(s: Sys, t: Sys, id: StreamID, c: Ctl)
    requires Inv(s) && SenderMove(s, t, id, c)
    ensures forall k :: LedgerOk(t, k)
  {
    forall k ensures LedgerOk(t, k) { assert LedgerOk(s, k); }
  }

  lemma SenderMoveConnection(s: Sys, t: Sys, id: StreamID, c: Ctl)
    requires ConnectionOk(s) && SenderMove(s, t, id, c)
    ensures ConnectionOk(t)
  {
    CountedUpdate(s.sent, id, c.bytesSent);
  }

  lemma SenderChange(s: Sys, t: Sys, id: StreamID, c: Ctl)
    requires Inv(s) && SenderMove(s, t, id, c)
    ensures Inv(t)
  {
    SenderMoveLedger(s, t, id, c);
    SenderMoveConnection(s, t, id, c);
    forall k | k in t.snd.streams ensures SenderStreamOk(t, k) { if k != id { assert SenderStreamOk(s, k); } }
    forall k | k in t.rcv.streams ensures ReceiverStreamOk(t, k) { assert ReceiverStreamOk(s, k); }
    forall m | m in t.wire ensures MessageOk(t, m) { if m in s.wire { ExtendsMessage(s, t, m); } }
  }

  lemma OpenSenderKeepsInv(s: Sys, id: StreamID)
    requires Inv(s)
    ensures Inv(Step(s, OpenAtSender(id)))
  {
    if id !in s.sent && id != 0 {
      assert forall k :: k in s.snd.streams ==> SenderStreamOk(s, k);
      assert LedgerOk(s, id);
      SenderChange(s, Step(s, OpenAtSender(id)), id, NewStreamCtl(s.snd.params, Contributes(id)));
    }
  }

  lemma OpenReceiverKeepsInv(s: Sys, id: StreamID)
    requires Inv(s)
    ensures Inv(Step(s, OpenAtReceiver(id)))
  {
    if id !in s.high && id != 0 {
      assert forall k :: k in s.rcv.streams ==> ReceiverStreamOk(s, k);
      assert LedgerOk(s, id);
      ReceiverChange(s, Step(s, OpenAtReceiver(id)), id, NewStreamCtl(s.rcv.params, Contributes(id)));
    }
  }

  lemma RemoveKeepsInv(s: Sys, id: StreamID)
    requires Inv(s)
    ensures Inv(Step(s, RemoveAtSender(id))) && Inv(Step(s, RemoveAtReceiver(id)))
  {
    var t, u := Step(s, RemoveAtSender(id)), Step(s, RemoveAtReceiver(id));
    forall k ensures LedgerOk(t, k) && LedgerOk(u, k) { assert LedgerOk(s, k); }
    forall k | k in s.snd.streams ensures SenderStreamOk(u, k) && (k in t.snd.streams ==> SenderStreamOk(t, k)) { assert SenderStreamOk(s, k); }
    forall k | k in s.rcv.streams ensures ReceiverStreamOk(t, k) && (k in u.rcv.streams ==> ReceiverStreamOk(u, k)) { assert ReceiverStreamOk(s, k); }
    forall m | m in s.wire ensures MessageOk(t, m) && MessageOk(u, m) { assert MessageOk(s, m); }
  }

  lemma SendKeepsInv(s: Sys, id: StreamID, n: nat)
    requires Inv(s)
    ensures Inv(Step(s, Send(id, n)))
  {
    if id in s.snd.streams && id != 1 && id !in s.reset && n <= StreamSendWindowSize(s.snd, id) {
      assert SenderStreamOk(s, id) && LedgerOk(s, id);
      var c := s.snd.streams[id];
      SenderChange(s, Step(s, Send(id, n)), id, c.(bytesSent := c.bytesSent + n));
    }
  }

  lemma WireKeepsInv(s: Sys, t: Sys, m: Message)
    requires Inv(s) && t == s.(wire := s.wire + {m}, reset := t.reset) && s.reset <= t.reset && MessageOk(t, m)
    ensures Inv(t)
  {
    forall k ensures LedgerOk(t, k) { assert LedgerOk(s, k); }
    forall k | k in t.snd.streams ensures SenderStreamOk(t, k) { assert SenderStreamOk(s, k); }
    forall k | k in t.rcv.streams ensures ReceiverStreamOk(t, k) { assert ReceiverStreamOk(s, k); }
    forall x | x in t.wire ensures MessageOk(t, x) { if x in s.wire { ExtendsMessage(s, t, x); } }
  }

  lemma ResetKeepsInv(s: Sys, id: StreamID)
    requires Inv(s)
    ensures Inv(Step(s, Reset(id)))
  {
    if id in s.snd.streams && id != 1 && id !in s.reset {
      assert SenderStreamOk(s, id);
      WireKeepsInv(s, Step(s, Reset(id)), RstStream(id, s.snd.streams[id].bytesSent));
    }
  }

  lemma WindowKeepsInv(s: Sys, id: StreamID, offset: nat)
    requires Inv(s) && Update(id, offset) in s.wire
    ensures Inv(Delivered(s, Update(id, offset)))
  {
    var t := Delivered(s, Update(id, offset));
    assert MessageOk(s, Update(id, offset));
    if id == 0 {
      SenderConnectionChange(s, t, t.snd.conn);
    } else if id in s.snd.streams {
      assert SenderStreamOk(s, id) && LedgerOk(s, id);
      assert s.sent[id := s.sent[id]] == s.sent;
      SenderChange(s, t, id, UpdatedSendWindow(s.snd.streams[id], offset));
    } else {
      assert t == s;
    }
  }

  lemma SenderConnectionChange(s: Sys, t: Sys, conn: Ctl)
    requires Inv(s) && t == s.(snd := s.snd.(conn := conn))
    requires conn.bytesSent == s.snd.conn.bytesSent <= SendWindow(conn) <= s.rcv.conn.receiveWindow && conn.initialSend == s.snd.conn.initialSend
    ensures Inv(t)
  {
    forall k ensures LedgerOk(t, k) { assert LedgerOk(s, k); }
    forall k | k in t.snd.streams ensures SenderStreamOk(t, k) { assert SenderStreamOk(s, k); }
    forall k | k in t.rcv.streams ensures ReceiverStreamOk(t, k) { assert ReceiverStreamOk(s, k); }
    forall m | m in t.wire ensures MessageOk(t, m) { ExtendsMessage(s, t, m); }
  }

  /** The receiver's controller for `id` and its connection controller change to legal values. */
  ghost predicate ReceiverMove(s: Sys, t: Sys, id: StreamID, c: Ctl) {
    && id != 0 && (id in s.rcv.streams || id !in s.high)
    && t == Book(s.(rcv := s.rcv.(streams := s.rcv.streams[id := c], conn := t.rcv.conn), wire := t.wire), id)
    && c.contributes == Contributes(id) && c.increment <= c.maxIncrement && c.receiveWindow >= Grant(s, id)
    && c.bytesRead <= c.highestReceived && (c.highestReceived != 0 ==> id in s.sent && c.highestReceived <= s.sent[id])
    && (forall m :: m in t.wire ==> m in s.wire || MessageOk(t, m))
    && s.rcv.conn.receiveWindow <= t.rcv.conn.receiveWindow && t.rcv.conn.increment <= t.rcv.conn.maxIncrement
    && t.rcv.conn.highestReceived == s.rcv.conn.highestReceived +
      (if Contributes(id) then c.highestReceived - (if id in s.high then s.high[id] else 0) else 0)
    && t.rcv.conn.bytesRead == s.rcv.conn.bytesRead +
      (if Contributes(id) then c.bytesRead - (if id in s.read then s.read[id] else 0) else 0)
  }

  lemma ReceiverMoveLedger(s: Sys, t: Sys, id: StreamID, c: Ctl)
    requires Inv(s) && ReceiverMove(s, t, id, c)
    ensures forall k :: LedgerOk(t, k)
  {
    assert LedgerOk(s, id);
    forall k ensures LedgerOk(t, k) { assert LedgerOk(s, k); }
  }

  lemma ReceiverMoveConnection(s: Sys, t: Sys, id: StreamID, c: Ctl)
    requires ConnectionOk(s) && ReceiverMove(s, t, id, c)
    ensures ConnectionOk(t)
  {
    CountedUpdate(s.high, id, c.highestReceived);
    CountedUpdate(s.read, id, c.bytesRead);
  }

  lemma ReceiverChange(s: Sys, t: Sys, id: StreamID, c: Ctl)
    requires Inv(s) && ReceiverMove(s, t, id, c)
    ensures Inv(t)
  {
    assert LedgerOk(s, id);
    ReceiverMoveLedger(s, t, id, c);
    ReceiverMoveConnection(s, t, id, c);
    forall k | k in t.snd.streams ensures SenderStreamOk(t, k) { assert SenderStreamOk(s, k); }
    forall k | k in t.rcv.streams ensures ReceiverStreamOk(t, k) { if k != id { assert ReceiverStreamOk(s, k); } }
    forall m | m in t.wire ensures MessageOk(t, m) { if m in s.wire { ExtendsMessage(s, t, m); } }
  }

  /** An honest offset raises the counters without a violation at either level. */
  lemma ReceivedKeepsInv(s: Sys, id: StreamID, offset: nat)
    requires Inv(s) && (id in s.rcv.streams ==> id in s.sent && offset <= s.sent[id])
    ensures var (err, rcv) := Received(s.rcv, id, offset); (err == NoError || err == UnknownStream) && Inv(Judge(s, err, rcv, id))
  {
    if id in s.rcv.streams {
      assert ReceiverStreamOk(s, id) && LedgerOk(s, id);
      var (inc, c) := Raised(s.rcv.streams[id], offset);
      var conn := if c.contributes then s.rcv.conn.(highestReceived := s.rcv.conn.highestReceived + inc) else s.rcv.conn;
      var t := Book(s.(rcv := s.rcv.(streams := s.rcv.streams[id := c], conn := conn)), id);
      ReceiverChange(s, t, id, c);
      InvMeansNoViolation(t);
      assert !Violated(t.rcv.streams[id]);
      var (err, rcv) := Received(s.rcv, id, offset);
      assert err == NoError && Judge(s, err, rcv, id) == t;
    } else {
      assert Judge(s, UnknownStream, s.rcv, id) == s;
    }
  }

  lemma DeliverKeepsInv(s: Sys, m: Message)
    requires Inv(s) && m in s.wire
    ensures Inv(Delivered(s, m))
  {
    assert MessageOk(s, m);
    match m
    case StreamFrame(id, end) => ReceivedKeepsInv(s, id, end);
    case RstStream(id, offset) =>
      // a reset names the final offset, so it is never below what arrived
      if id in s.rcv.streams { assert ReceiverStreamOk(s, id) && LedgerOk(s, id); }
      ReceivedKeepsInv(s, id, offset);
    case Update(id, offset) => WindowKeepsInv(s, id, offset);
  }

  lemma ReadKeepsInv(s: Sys, id: StreamID, n: nat)
    requires Inv(s)
    ensures Inv(Step(s, Read(id, n)))
  {
    if id in s.rcv.streams && s.rcv.streams[id].bytesRead + n <= s.rcv.streams[id].highestReceived {
      assert ReceiverStreamOk(s, id) && LedgerOk(s, id);
      ReceiverChange(s, Step(s, Read(id, n)), id, WithBytesRead(s.rcv.streams[id], n));
    }
  }

  lemma UpdateStreamKeepsInv(s: Sys, id: StreamID, frequent: bool, force: bool)
    requires Inv(s)
    ensures Inv(Step(s, UpdateStream(id, frequent, force)))
  {
    if id in s.rcv.streams {
      assert ReceiverStreamOk(s, id) && LedgerOk(s, id);
      InvMeansNoViolation(s);
      var c := s.rcv.streams[id];
      UpdatedGrows(c, frequent);
      ReceiverChange(s, Step(s, UpdateStream(id, frequent, force)), id, Updated(c, frequent));
    }
  }

  lemma UpdateConnectionKeepsInv(s: Sys, frequent: bool, force: bool)
    requires Inv(s)
    ensures Inv(Step(s, UpdateConnection(frequent, force)))
  {
    var t := Step(s, UpdateConnection(frequent, force));
    InvMeansNoViolation(s);
    UpdatedGrows(s.rcv.conn, frequent);
    forall k ensures LedgerOk(t, k) { assert LedgerOk(s, k); }
    forall k | k in t.snd.streams ensures SenderStreamOk(t, k) { assert SenderStreamOk(s, k); }
    forall k | k in t.rcv.streams ensures ReceiverStreamOk(t, k) { assert ReceiverStreamOk(s, k); }
    forall m | m in t.wire ensures MessageOk(t, m) { if m in s.wire { ExtendsMessage(s, t, m); } }
  }

  lemma StepKeepsInv(s: Sys, e: Event)
    requires Inv(s)
    ensures Inv(Step(s, e))
  {
    match e
    case OpenAtSender(id) => OpenSenderKeepsInv(s, id);
    case OpenAtReceiver(id) => OpenReceiverKeepsInv(s, id);
    case RemoveAtSender(id) => RemoveKeepsInv(s, id);
    case RemoveAtReceiver(id) => RemoveKeepsInv(s, id);
    case Send(id, n) => SendKeepsInv(s, id, n);
    case Resend(id, end) => if id in s.sent && end <= s.sent[id] { WireKeepsInv(s, Step(s, e), StreamFrame(id, end)); }
    case Reset(id) => ResetKeepsInv(s, id);
    case Deliver(m) => if m in s.wire { DeliverKeepsInv(s, m); }
    case Read(id, n) => ReadKeepsInv(s, id, n);
    case UpdateStream(id, frequent, force) => UpdateStreamKeepsInv(s, id, frequent, force);
    case UpdateConnection(frequent, force) => UpdateConnectionKeepsInv(s, frequent, force);
  }

  ghost function Run(p: Params, q: Params, events: seq<Event>): Sys {
    if events == [] then Begin(p, q) else Step(Run(p, q, events[..|events| - 1]), events[|events| - 1])
  }

  lemma {:induction false} RunInv(p: Params, q: Params, events: seq<Event>)
    requires Compatible(p, q)
    ensures Inv(Run(p, q, events))
  {
    if events == [] {
      assert Counted(map[]) == map[];
    } else {
      RunInv(p, q, events[..|events| - 1]);
      StepKeepsInv(Run(p, q, events[..|events| - 1]), events[|events| - 1]);
    }
  }

  /** Flow control across two endpoints: in every run, whatever the network does, neither the stream nor
      the connection check ever fires, no reset contradicts received data, and the difference between
      receive window and bytes read never wraps; nor does a sender ever exceed its own window. */
  lemma NeverViolated(p: Params, q: Params, events: seq<Event>)
    requires Compatible(p, q)
    ensures var s := Run(p, q, events);
      && !s.failed && !Violated(s.rcv.conn) && s.rcv.conn.bytesRead <= s.rcv.conn.receiveWindow
      && (forall id :: id in s.rcv.streams ==> !Violated(s.rcv.streams[id]) && s.rcv.streams[id].bytesRead <= s.rcv.streams[id].receiveWindow)
      && s.snd.conn.bytesSent <= SendWindow(s.snd.conn)
      && (forall id :: id in s.snd.streams ==> s.snd.streams[id].bytesSent <= SendWindow(s.snd.streams[id]))
  {
    RunInv(p, q, events);
    var s := Run(p, q, events);
    InvMeansNoViolation(s);
    assert forall id :: id in s.snd.streams ==> SenderStreamOk(s, id);
  }

  /** Conservation: in every run the connection's counters are the sums over all contributing streams
      ever opened, including removed ones. */
  lemma CountersAreSums(p: Params, q: Params, events: seq<Event>)
    requires Compatible(p, q)
    ensures var s := Run(p, q, events);
      && s.snd.conn.bytesSent == Sum(Counted(s.sent))
      && s.rcv.conn.highestReceived == Sum(Counted(s.high))
      && s.rcv.conn.bytesRead == Sum(Counted(s.read))
      && (forall id :: id in s.snd.streams ==> id in s.sent && s.snd.streams[id].bytesSent == s.sent[id])
      && (forall id :: id in s.rcv.streams ==> id in s.high && s.rcv.streams[id].highestReceived == s.high[id])
      && (forall id :: id in s.rcv.streams ==> id in s.read && s.rcv.streams[id].bytesRead == s.read[id])
  {
    RunInv(p, q, events);
    var s := Run(p, q, events);
    assert forall id :: id in s.snd.streams ==> SenderStreamOk(s, id);
    assert forall id :: id in s.rcv.streams ==> ReceiverStreamOk(s, id);
  }
}
