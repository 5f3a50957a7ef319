/** Flow control: one controller per stream, one for the connection, and the manager that keeps them. */
module FlowControl {

  const TwoTo64: nat := 0x1_0000_0000_0000_0000

  /** Unsigned 64-bit subtraction. */
  function Sub64(a: nat, b: nat): (r: nat) {
    if a >= b then a - b else (a - b) % TwoTo64
  }

  function MinByteCount(a: nat, b: nat): nat { if a <= b then a else b }

  /** The windows of one endpoint, from the configuration and the handshake. */
  datatype Params = Params(sendStream: nat, sendConn: nat, recvStream: nat, recvConn: nat, maxRecvStream: nat, maxRecvConn: nat)

  /** A flow controller as a value.  `timed` says whether lastWindowUpdateTime is set; `initialSend` is what
      the connection parameters give as the send window until an update arrives. */
  datatype Ctl = Ctl(contributes: bool, initialSend: nat, bytesSent: nat, sendWindow: nat,
                     bytesRead: nat, highestReceived: nat, receiveWindow: nat, increment: nat, maxIncrement: nat, timed: bool)

  function NewStreamCtl(p: Params, contributes: bool): Ctl {
    Ctl(contributes, p.sendStream, 0, 0, 0, 0, p.recvStream, p.recvStream, p.maxRecvStream, false)
  }

  function NewConnCtl(p: Params): Ctl {
    Ctl(false, p.sendConn, 0, 0, 0, 0, p.recvConn, p.recvConn, p.maxRecvConn, false)
  }

  /** Zero stands for a window that no update has set yet. */
  function SendWindow(c: Ctl): nat {
    if c.sendWindow == 0 then c.initialSend else c.sendWindow
  }

  function SendWindowSize(c: Ctl): nat {
    if c.bytesSent > SendWindow(c) then 0 else SendWindow(c) - c.bytesSent
  }

  function UpdatedSendWindow(c: Ctl, offset: nat): Ctl {
    if offset > c.sendWindow then c.(sendWindow := offset) else c
  }

  /** The increment by which highestReceived grows, and the new controller; a smaller offset changes nothing. */
  function Raised(c: Ctl, offset: nat): (nat, Ctl) {
    if offset > c.highestReceived then (offset - c.highestReceived, c.(highestReceived := offset)) else (0, c)
  }

  predicate Violated(c: Ctl) {
    c.highestReceived > c.receiveWindow
  }

  function WithBytesRead(c: Ctl, n: nat): Ctl {
    c.(bytesRead := c.bytesRead + n, timed := c.timed || c.bytesRead == 0)
  }

  /** The increment doubles, up to its maximum, when window updates are too frequent.  `frequent` is the
      outcome of the comparison with the round-trip times. */
  function Adjusted(c: Ctl, frequent: bool): Ctl {
    if c.timed && frequent then c.(increment := MinByteCount(2 * c.increment, c.maxIncrement)) else c
  }

  predicate NeedsUpdate(c: Ctl) {
    Sub64(c.receiveWindow, c.bytesRead) < c.increment / 2
  }

  function Updated(c: Ctl, frequent: bool): Ctl {
    if !NeedsUpdate(c) then c
    else
      var a := Adjusted(c, frequent);
      a.(receiveWindow := a.bytesRead + a.increment, timed := true)
  }

  /** The increment reported with an update: zero if the update left it as it was. */
  function ReportedIncrement(c: Ctl, frequent: bool): nat {
    if !NeedsUpdate(c) then c.increment
    else if Adjusted(c, frequent).increment != c.increment then Adjusted(c, frequent).increment else 0
  }

  function WithMinimumIncrement(c: Ctl, inc: nat): Ctl {
    if inc > c.increment then c.(increment := MinByteCount(inc, c.maxIncrement), timed := false) else c
  }

  /** What a look at the window does, in numbers: it leaves at least half the increment to be read, it moves and
      announces the window exactly when less than that was left, and then a whole increment is left.  The increment
      doubles, up to its maximum, when updates are frequent. */
  ghost predicate LeavesHalf(before: Ctl, after: Ctl, frequent: bool, announced: bool) {
    && after == before.(receiveWindow := after.receiveWindow, increment := after.increment, timed := after.timed)
    && after.receiveWindow - after.bytesRead >= before.increment / 2
    && (announced <==> before.receiveWindow - before.bytesRead < before.increment / 2)
    && (!announced ==> after == before)
    && (announced ==> after.receiveWindow - after.bytesRead == after.increment && after.receiveWindow > before.receiveWindow && after.timed)
    && (announced && !(before.timed && frequent) ==> after.increment == before.increment)
    && (announced && before.timed && frequent ==> after.increment == MinByteCount(2 * before.increment, before.maxIncrement))
  }

  lemma UpdateLeavesHalf(c: Ctl, frequent: bool)
    requires c.bytesRead <= c.receiveWindow && c.increment <= c.maxIncrement
    ensures LeavesHalf(c, Updated(c, frequent), frequent, NeedsUpdate(c))
  {}

  /** A window that was read to its end moves exactly when its increment is at least two bytes. */
  lemma MovesIff(c: Ctl, frequent: bool)
    requires c.bytesRead == c.receiveWindow && c.increment <= c.maxIncrement
    ensures Updated(c, frequent).receiveWindow > c.receiveWindow <==> c.increment >= 2
  {}

  /** ConnectionFlowControlMultiplier is 1.5. */
  function TimesMultiplier(inc: nat): nat { inc * 3 / 2 }

  // ---------- the manager ----------

  type StreamID = nat

  datatype Mgr = Mgr(params: Params, streams: map<StreamID, Ctl>, conn: Ctl)

  datatype FlowError = NoError | UnknownStream | DataAfterTermination | TooMuchStreamData | TooMuchConnectionData

  function NewMgr(p: Params): Mgr {
    Mgr(p, map[], NewConnCtl(p))
  }

  function WithStream(m: Mgr, id: StreamID, contributes: bool): Mgr {
    if id in m.streams then m else m.(streams := m.streams[id := NewStreamCtl(m.params, contributes)])
  }

  function WithoutStream(m: Mgr, id: StreamID): Mgr {
    m.(streams := m.streams - {id})
  }

  /** Records that the stream was received up to `offset`, at the stream and then at the connection. */
  function Received(m: Mgr, id: StreamID, offset: nat): (FlowError, Mgr) {
    if id !in m.streams then (UnknownStream, m)
    else
      var (inc, c) := Raised(m.streams[id], offset);
      var m1 := m.(streams := m.streams[id := c]);
      if Violated(c) then (TooMuchStreamData, m1)
      else if !c.contributes then (NoError, m1)
      else
        var conn := m.conn.(highestReceived := m.conn.highestReceived + inc);
        (if Violated(conn) then TooMuchConnectionData else NoError, m1.(conn := conn))
  }

  /** A reset must not name an offset below what was already received. */
  function ResetReceived(m: Mgr, id: StreamID, offset: nat): (FlowError, Mgr) {
    if id in m.streams && offset < m.streams[id].highestReceived then (DataAfterTermination, m) else Received(m, id, offset)
  }

  function BytesRead(m: Mgr, id: StreamID, n: nat): (FlowError, Mgr) {
    if id !in m.streams then (UnknownStream, m)
    else
      var c := m.streams[id];
      (NoError, m.(streams := m.streams[id := WithBytesRead(c, n)], conn := if c.contributes then WithBytesRead(m.conn, n) else m.conn))
  }

  function BytesSent(m: Mgr, id: StreamID, n: nat): (FlowError, Mgr) {
    if id !in m.streams then (UnknownStream, m)
    else
      var c := m.streams[id];
      (NoError, m.(streams := m.streams[id := c.(bytesSent := c.bytesSent + n)],
                   conn := if c.contributes then m.conn.(bytesSent := m.conn.bytesSent + n) else m.conn))
  }

  function StreamSendWindowSize(m: Mgr, id: StreamID): nat {
    if id !in m.streams then 0
    else if m.streams[id].contributes then MinByteCount(SendWindowSize(m.streams[id]), SendWindowSize(m.conn))
    else SendWindowSize(m.streams[id])
  }

  /** Whether a WINDOW_UPDATE frame raises the window it names. */
  predicate Raises(m: Mgr, id: StreamID, offset: nat) {
    if id == 0 then offset > m.conn.sendWindow else id in m.streams && offset > m.streams[id].sendWindow
  }

  /** A WINDOW_UPDATE frame; stream 0 is the connection. */
  function WindowRaised(m: Mgr, id: StreamID, offset: nat): (FlowError, Mgr) {
    if id == 0 then (NoError, m.(conn := UpdatedSendWindow(m.conn, offset)))
    else if id !in m.streams then (UnknownStream, m)
    else (NoError, m.(streams := m.streams[id := UpdatedSendWindow(m.streams[id], offset)]))
  }

  /** One stream's turn in GetWindowUpdates: its window, and the pull it exerts on the connection's. */
  function StreamUpdated(m: Mgr, id: StreamID, frequent: bool, force: bool): Mgr
    requires id in m.streams
  {
    var c := m.streams[id];
    var inc := ReportedIncrement(c, frequent);
    m.(streams := m.streams[id := Updated(c, frequent)],
       conn := if (force || NeedsUpdate(c)) && c.contributes && inc != 0 then WithMinimumIncrement(m.conn, TimesMultiplier(inc)) else m.conn)
  }

  /** The turns of several streams, in the given order, which is that of a map iteration. */
  function StreamsUpdated(m: Mgr, order: seq<StreamID>, frequent: StreamID -> bool, force: bool): (r: Mgr)
    requires forall id :: id in order ==> id in m.streams
    ensures r.streams.Keys == m.streams.Keys && r.params == m.params
  {
    if order == [] then m
    else
      var last := |order| - 1;
      StreamUpdated(StreamsUpdated(m, order[..last], frequent, force), order[last], frequent(order[last]), force)
  }

  datatype WindowUpdate = WindowUpdate(id: StreamID, offset: nat)

  /** The update sent for one stream, if any. */
  function StreamUpdate(c: Ctl, id: StreamID, frequent: bool, force: bool): seq<WindowUpdate> {
    if force || NeedsUpdate(c) then [WindowUpdate(id, Updated(c, frequent).receiveWindow)] else []
  }

  /** The updates sent for the streams visited. */
  function StreamUpdates(m: Mgr, order: seq<StreamID>, frequent: StreamID -> bool, force: bool): seq<WindowUpdate>
    requires forall id :: id in order ==> id in m.streams
  {
    if order == [] then []
    else
      var k := |order| - 1;
      StreamUpdates(m, order[..k], frequent, force) +
      StreamUpdate(StreamsUpdated(m, order[..k], frequent, force).streams[order[k]], order[k], frequent(order[k]), force)
  }

  /** No stream is visited twice. */
  ghost predicate Distinct(order: seq<StreamID>) {
    order == [] || (order[|order| - 1] !in order[..|order| - 1] && Distinct(order[..|order| - 1]))
  }

  /** Every key is either visited, once, or left. */
  ghost predicate Left(order: seq<StreamID>, todo: set<StreamID>, keys: set<StreamID>) {
    todo <= keys && Distinct(order) && forall id :: id in order <==> id in keys - todo
  }

  lemma {:induction false} LeftNext(order: seq<StreamID>, todo: set<StreamID>, keys: set<StreamID>, id: StreamID)
    requires Left(order, todo, keys) && id in todo
    ensures id in keys && Left(order + [id], todo - {id}, keys)
  {
    assert (order + [id])[..|order|] == order;
  }

  /** Each stream is updated on its own turn only. */
  lemma {:induction false} UpdatedOnce(m: Mgr, order: seq<StreamID>, frequent: StreamID -> bool, force: bool, id: StreamID)
    requires (forall k :: k in order ==> k in m.streams) && Distinct(order) && id in m.streams
    ensures StreamsUpdated(m, order, frequent, force).streams[id] ==
            if id in order then Updated(m.streams[id], frequent(id)) else m.streams[id]
  {
    if order != [] {
      var k := |order| - 1;
      UpdatedOnce(m, order[..k], frequent, force, id);
      assert order[k] !in order[..k] && order == order[..k] + [order[k]];
    }
  }

  /** Exactly the streams that need it, or all when forced, get an update, with their new window. */
  lemma {:induction false} UpdatesAreDue(m: Mgr, order: seq<StreamID>, frequent: StreamID -> bool, force: bool, u: WindowUpdate)
    requires (forall k :: k in order ==> k in m.streams) && Distinct(order)
    ensures u in StreamUpdates(m, order, frequent, force) <==>
      u.id in order && (force || NeedsUpdate(m.streams[u.id])) && u.offset == Updated(m.streams[u.id], frequent(u.id)).receiveWindow
  {
    if order != [] {
      var k := |order| - 1;
      UpdatesAreDue(m, order[..k], frequent, force, u);
      UpdatedOnce(m, order[..k], frequent, force, order[k]);
      assert order[k] !in order[..k] && order == order[..k] + [order[k]];
    }
  }

  // ---------- the objects ----------

  class FlowController {
    const contributes: bool
    const initialSend: nat
    const maxIncrement: nat
    var bytesSent: nat
    var sendWindow: nat
    var bytesRead: nat
    var highestReceived: nat
    var receiveWindow: nat
    var increment: nat
    var timed: bool

    constructor ForStream(p: Params, contributes: bool)
      ensures Value() == NewStreamCtl(p, contributes)
    {
      this.contributes := contributes;
      initialSend, maxIncrement := p.sendStream, p.maxRecvStream;
      bytesSent, sendWindow, bytesRead, highestReceived := 0, 0, 0, 0;
      receiveWindow, increment := p.recvStream, p.recvStream;
      timed := false;
    }

    constructor ForConnection(p: Params)
      ensures Value() == NewConnCtl(p)
    {
      contributes := false;
      initialSend, maxIncrement := p.sendConn, p.maxRecvConn;
      bytesSent, sendWindow, bytesRead, highestReceived := 0, 0, 0, 0;
      receiveWindow, increment := p.recvConn, p.recvConn;
      timed := false;
    }

    ghost function Value(): Ctl
      reads this
    {
      Ctl(contributes, initialSend, bytesSent, sendWindow, bytesRead, highestReceived, receiveWindow, increment, maxIncrement, timed)
    }

    method UpdateSendWindow(offset: nat) returns (updated: bool)
      modifies this
      ensures Value() == UpdatedSendWindow(old(Value()), offset) && updated == (offset > old(sendWindow))
    {
      updated := offset > sendWindow;
      if updated { sendWindow := offset; }
    }

    method SendSize() returns (r: nat)
      ensures r == SendWindowSize(Value())
    {
      var window := if sendWindow == 0 then initialSend else sendWindow;
      if bytesSent > window { return 0; }
      return window - bytesSent;
    }

    method UpdateHighestReceived(offset: nat) returns (inc: nat, smaller: bool)
      modifies this
      ensures (inc, Value()) == Raised(old(Value()), offset) && smaller == (offset < old(highestReceived))
    {
      if offset == highestReceived { return 0, false; }
      if offset > highestReceived {
        inc := offset - highestReceived;
        highestReceived := offset;
        return inc, false;
      }
      return 0, true;
    }

    method AddBytesRead(n: nat)
      modifies this
      ensures Value() == WithBytesRead(old(Value()), n)
    {
      if bytesRead == 0 { timed := true; }
      bytesRead := bytesRead + n;
    }

    /** Whether an update is necessary, the increment to report and the offset of the window. */
    method MaybeUpdateWindow(frequent: bool) returns (necessary: bool, newIncrement: nat, offset: nat)
      modifies this
      ensures Value() == Updated(old(Value()), frequent)
      ensures necessary == NeedsUpdate(old(Value())) && newIncrement == ReportedIncrement(old(Value()), frequent) && offset == receiveWindow
      ensures old(bytesRead <= receiveWindow && increment <= maxIncrement) ==> LeavesHalf(old(Value()), Value(), frequent, necessary)
    {
      if bytesRead <= receiveWindow && increment <= maxIncrement { UpdateLeavesHalf(Value(), frequent); }
      var diff := Sub64(receiveWindow, bytesRead);
      if diff < increment / 2 {
        var before := increment;
        if timed && frequent { increment := MinByteCount(2 * increment, maxIncrement); }
        newIncrement := if increment != before then increment else 0;
        timed := true;
        receiveWindow := bytesRead + increment;
        return true, newIncrement, receiveWindow;
      }
      return false, increment, receiveWindow;
    }

    method EnsureMinimumWindowIncrement(inc: nat)
      modifies this
      ensures Value() == WithMinimumIncrement(old(Value()), inc)
    {
      if inc > increment {
        increment := MinByteCount(inc, maxIncrement);
        timed := false;
      }
    }
  }

  class FlowControlManager {
    const params: Params
    var streams: map<StreamID, FlowController>
    const conn: FlowController

    /** The controllers are distinct objects. */
    ghost predicate Valid()
      reads this
    {
      && (forall a :: a in streams ==> streams[a] != conn)
      && (forall a, b :: a in streams && b in streams && a != b ==> streams[a] != streams[b])
    }

    ghost function Value(): Mgr
      reads this, conn, streams.Values
    {
      Mgr(params, map id | id in streams :: streams[id].Value(), conn.Value())
    }

    constructor (p: Params)
      ensures Valid() && Value() == NewMgr(p) && fresh(conn)
    {
      params := p;
      streams := map[];
      conn := new FlowController.ForConnection(p);
    }

    method NewStream(id: StreamID, contributes: bool)
      requires Valid()
      modifies this`streams
      ensures Valid() && Value() == WithStream(old(Value()), id, contributes)
    {
      if id in streams { return; }
      var c := new FlowController.ForStream(params, contributes);
      streams := streams[id := c];
    }

    method RemoveStream(id: StreamID)
      requires Valid()
      modifies this`streams
      ensures Valid() && Value() == WithoutStream(old(Value()), id)
    {
      streams := streams - {id};
    }

    method UpdateHighestReceived(id: StreamID, offset: nat) returns (err: FlowError)
      requires Valid()
      modifies conn, streams.Values
      ensures (err, Value()) == Received(old(Value()), id, offset)
    {
      if id !in streams { return UnknownStream; }
      var fc := streams[id];
      var inc, smaller := fc.UpdateHighestReceived(offset);
      assert Value().streams == old(Value()).streams[id := streams[id].Value()];
      if fc.highestReceived > fc.receiveWindow { return TooMuchStreamData; }
      if fc.contributes {
        conn.highestReceived := conn.highestReceived + inc;
        assert Value().streams == old(Value()).streams[id := streams[id].Value()];
        if conn.highestReceived > conn.receiveWindow { return TooMuchConnectionData; }
      }
      return NoError;
    }

    method ResetStream(id: StreamID, offset: nat) returns (err: FlowError)
      requires Valid()
      modifies conn, streams.Values
      ensures (err, Value()) == ResetReceived(old(Value()), id, offset)
    {
      if id !in streams { return UnknownStream; }
      if offset < streams[id].highestReceived { return DataAfterTermination; }
      err := UpdateHighestReceived(id, offset);
    }

    method AddBytesRead(id: StreamID, n: nat) returns (err: FlowError)
      requires Valid()
      modifies conn, streams.Values
      ensures (err, Value()) == BytesRead(old(Value()), id, n)
    {
      if id !in streams { return UnknownStream; }
      var fc := streams[id];
      fc.AddBytesRead(n);
      if fc.contributes { conn.AddBytesRead(n); }
      assert Value().streams == old(Value()).streams[id := streams[id].Value()];
      return NoError;
    }

    method AddBytesSent(id: StreamID, n: nat) returns (err: FlowError)
      requires Valid()
      modifies conn, streams.Values
      ensures (err, Value()) == BytesSent(old(Value()), id, n)
    {
      if id !in streams { return UnknownStream; }
      var fc := streams[id];
      fc.bytesSent := fc.bytesSent + n;
      if fc.contributes { conn.bytesSent := conn.bytesSent + n; }
      assert Value().streams == old(Value()).streams[id := streams[id].Value()];
      return NoError;
    }

    method SendWindowSize(id: StreamID) returns (r: nat, err: FlowError)
      requires Valid()
      ensures r == StreamSendWindowSize(Value(), id) && (err == NoError <==> id in streams)
    {
      if id !in streams { return 0, UnknownStream; }
      r := streams[id].SendSize();
      if streams[id].contributes {
        var c := conn.SendSize();
        r := MinByteCount(r, c);
      }
      return r, NoError;
    }

    method UpdateWindow(id: StreamID, offset: nat) returns (updated: bool, err: FlowError)
      requires Valid()
      modifies conn, streams.Values
      ensures (err, Value()) == WindowRaised(old(Value()), id, offset) && updated == Raises(old(Value()), id, offset)
    {
      if id == 0 {
        updated := conn.UpdateSendWindow(offset);
        assert Value().streams == old(Value()).streams;
      } else {
        if id !in streams { return false, UnknownStream; }
        updated := streams[id].UpdateSendWindow(offset);
        assert Value().streams == old(Value()).streams[id := streams[id].Value()];
      }
      return updated, NoError;
    }

    /** One stream's turn in the loop below. */
    method UpdateStreamWindow(id: StreamID, frequent: bool, force: bool) returns (res: seq<WindowUpdate>)
      requires Valid() && id in streams
      modifies conn, streams.Values
      ensures Value() == StreamUpdated(old(Value()), id, frequent, force)
      ensures res == StreamUpdate(old(streams[id].Value()), id, frequent, force)
    {
      var fc := streams[id];
      var necessary, newIncrement, offset := fc.MaybeUpdateWindow(frequent);
      res := [];
      if force || necessary {
        res := [WindowUpdate(id, offset)];
        if fc.contributes && newIncrement != 0 {
          conn.EnsureMinimumWindowIncrement(TimesMultiplier(newIncrement));
        }
      }
      assert Value().streams == old(Value()).streams[id := streams[id].Value()];
    }

    /** So far the streams of `order` had their turn, starting from `m`, and `res` was collected. */
    ghost predicate Visited(m: Mgr, order: seq<StreamID>, res: seq<WindowUpdate>, frequent: StreamID -> bool, force: bool)
      reads this, conn, streams.Values
    {
      && (forall id :: id in order ==> id in m.streams)
      && Value() == StreamsUpdated(m, order, frequent, force) && res == StreamUpdates(m, order, frequent, force)
    }

    method VisitStream(id: StreamID, force: bool, frequent: StreamID -> bool, res: seq<WindowUpdate>, ghost m: Mgr, ghost order: seq<StreamID>)
      returns (res': seq<WindowUpdate>)
      requires Valid() && id in streams && id in m.streams && Visited(m, order, res, frequent, force)
      modifies conn, streams.Values
      ensures Visited(m, order + [id], res', frequent, force)
    {
      assert streams[id].Value() == Value().streams[id];
      NextUpdated(m, order, id, frequent, force);
      var u := UpdateStreamWindow(id, frequent(id), force);
      res' := res + u;
    }

    /** Visits the streams in the order of a map iteration. */
    method UpdateStreamWindows(force: bool, frequent: StreamID -> bool) returns (res: seq<WindowUpdate>, ghost order: seq<StreamID>)
      requires Valid()
      modifies conn, streams.Values
      ensures Distinct(order) && (forall id :: id in order <==> id in streams) && Visited(old(Value()), order, res, frequent, force)
    {
      ghost var m := Value();
      assert m.streams.Keys == streams.Keys;
      res := [];
      order := [];
      var todo := streams.Keys;
      while todo != {}
        invariant Left(order, todo, m.streams.Keys) && Visited(m, order, res, frequent, force)
        decreases todo
      {
        var id :| id in todo;
        LeftNext(order, todo, m.streams.Keys, id);
        res := VisitStream(id, force, frequent, res, m, order);
        todo, order := todo - {id}, order + [id];
      }
    }

    /** All window updates that are due, or all there are.  `frequent` stands for the comparisons with
        clock and round-trip times. */
    method GetWindowUpdates(force: bool, frequent: StreamID -> bool) returns (res: seq<WindowUpdate>, ghost order: seq<StreamID>)
      requires Valid()
      modifies conn, streams.Values
      ensures Distinct(order) && forall id :: id in order <==> id in streams
      ensures var m := StreamsUpdated(old(Value()), order, frequent, force); Value() == m.(conn := Updated(m.conn, frequent(0)))
      ensures var m := StreamsUpdated(old(Value()), order, frequent, force);
        res == StreamUpdates(old(Value()), order, frequent, force) + StreamUpdate(m.conn, 0, frequent(0), force)
    {
      res, order := UpdateStreamWindows(force, frequent);
      ghost var m := Value();
      var necessary, _, offset := conn.MaybeUpdateWindow(frequent(0));
      assert Value().streams == m.streams;
      if force || necessary { res := res + [WindowUpdate(0, offset)]; }
    }
  }

  lemma {:induction false} NextUpdated(m: Mgr, order: seq<StreamID>, id: StreamID, frequent: StreamID -> bool, force: bool)
    requires (forall k :: k in order ==> k in m.streams) && id in m.streams
    ensures forall k :: k in order + [id] ==> k in m.streams
    ensures var m' := StreamsUpdated(m, order, frequent, force);
      && StreamsUpdated(m, order + [id], frequent, force) == StreamUpdated(m', id, frequent(id), force)
      && StreamUpdates(m, order + [id], frequent, force) == StreamUpdates(m, order, frequent, force) + StreamUpdate(m'.streams[id], id, frequent(id), force)
  {
    assert (order + [id])[..|order|] == order;
  }
}
