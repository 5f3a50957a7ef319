/** Filling a packet: control frames, retransmissions and new stream data within a size budget. */
module Packing {
  import opened Folds

  const MaxPacketSize: nat := 1350
  const NonForwardSecurePacketSizeReduction: nat := 50

  datatype Option<T> = None | Some(value: T)

  // ---------- stream frames ----------

  datatype StreamFrame<T> = StreamFrame(id: nat, offset: nat, data: seq<T>, fin: bool, dataLenPresent: bool) {
    /** The exact length of the written header. */
    function MinLength(): nat {
      1 + StreamIDLength(id) + OffsetLength(offset) + if dataLenPresent then 2 else 0
    }

    function Length(): nat { MinLength() + |data| }
  }

  function StreamIDLength(id: nat): nat {
    if id < 0x100 then 1 else if id < 0x1_0000 then 2 else if id < 0x100_0000 then 3 else 4
  }

  function OffsetLength(offset: nat): nat {
    if offset == 0 then 0
    else if offset < 0x1_0000 then 2
    else if offset < 0x100_0000 then 3
    else if offset < 0x1_0000_0000 then 4
    else if offset < 0x100_0000_0000 then 5
    else if offset < 0x1_0000_0000_0000 then 6
    else if offset < 0x100_0000_0000_0000 then 7
    else 8
  }

  function Total<T>(fs: seq<StreamFrame<T>>): nat {
    if fs == [] then 0 else Total(fs[..|fs| - 1]) + fs[|fs| - 1].Length()
  }

  /** What frames carry: bytes of a stream at their offsets, and where a stream ends. */
  datatype Item<T> = Byte(id: nat, offset: nat, value: T) | End(id: nat, offset: nat)

  function Items<T>(id: nat, offset: nat, data: seq<T>, fin: bool): seq<Item<T>> {
    seq(|data|, i requires 0 <= i < |data| => Byte(id, offset + i, data[i])) + if fin then [End(id, offset + |data|)] else []
  }

  function Carried<T>(fs: seq<StreamFrame<T>>): seq<Item<T>> {
    if fs == [] then []
    else Items(fs[0].id, fs[0].offset, fs[0].data, fs[0].fin) + Carried(fs[1..])
  }

  lemma TotalSnoc<T>(fs: seq<StreamFrame<T>>, f: StreamFrame<T>)
    ensures Total(fs + [f]) == Total(fs) + f.Length()
  {
    assert (fs + [f])[..|fs|] == fs;
  }

  lemma {:induction false} CarriedAppend<T>(a: seq<StreamFrame<T>>, b: seq<StreamFrame<T>>)
    ensures Carried(a + b) == Carried(a) + Carried(b)
  {
    if a == [] {
      assert a + b == b;
    } else {
      CarriedAppend(a[1..], b);
      CarriedCons(a[0], a[1..]);
      CarriedCons(a[0], a[1..] + b);
      assert [a[0]] + a[1..] == a && [a[0]] + (a[1..] + b) == a + b;
      Associates(Carried([a[0]]), Carried(a[1..]), Carried(b));
    }
  }

  lemma CarriedCons<T>(f: StreamFrame<T>, fs: seq<StreamFrame<T>>)
    ensures Carried([f] + fs) == Carried([f]) + Carried(fs)
  {
    CarriedOne(f);
    assert ([f] + fs)[1..] == fs;
  }

  lemma Associates<E>(a: seq<E>, b: seq<E>, c: seq<E>)
    ensures a + (b + c) == a + b + c
  {
  }

  lemma ItemsSplit<T>(id: nat, offset: nat, data: seq<T>, fin: bool, n: nat)
    requires n <= |data|
    ensures Items(id, offset, data, fin) == Items(id, offset, data[..n], false) + Items(id, offset + n, data[n..], fin)
  {
  }

  /** The first `n` bytes as a frame of their own, if the frame is longer. */
  method MaybeSplitOffFrame<T>(frame: StreamFrame<T>, n: nat) returns (front: Option<StreamFrame<T>>, rest: StreamFrame<T>)
    ensures front.None? <==> n >= |frame.data|
    ensures front.None? ==> rest == frame
    ensures front.Some? ==> Carried([front.value]) + Carried([rest]) == Carried([frame])
    ensures front.Some? ==> front.value.Length() == frame.MinLength() + n && front.value.dataLenPresent == frame.dataLenPresent
  {
    if n >= |frame.data| { return None, frame; }
    front := Some(StreamFrame(frame.id, frame.offset, frame.data[..n], false, frame.dataLenPresent));
    rest := frame.(data := frame.data[n..], offset := frame.offset + n);
    ItemsSplit(frame.id, frame.offset, frame.data, frame.fin, n);
    CarriedOne(front.value);
    CarriedOne(rest);
    CarriedOne(frame);
  }

  lemma CarriedOne<T>(f: StreamFrame<T>)
    ensures Carried([f]) == Items(f.id, f.offset, f.data, f.fin)
  {
    assert [f][1..] == [];
  }

  /** One more frame leaves the front of the queue, whole or in part. */
  lemma PoppedStep<T>(res: seq<StreamFrame<T>>, out: StreamFrame<T>, queue: seq<StreamFrame<T>>, queue': seq<StreamFrame<T>>)
    requires Carried([out]) + Carried(queue') == Carried(queue)
    ensures Carried(res + [out]) + Carried(queue') == Carried(res) + Carried(queue)
  {
    CarriedAppend(res, [out]);
    Associates(Carried(res), Carried([out]), Carried(queue'));
  }

  /** The queue is empty or the header of its first frame alone would use up the room. */
  predicate NoRoom<T>(queue: seq<StreamFrame<T>>, room: nat) {
    queue == [] || room <= queue[0].(dataLenPresent := true).MinLength()
  }

  ghost predicate AllWithLength<T>(fs: seq<StreamFrame<T>>) {
    forall i :: 0 <= i < |fs| ==> fs[i].dataLenPresent
  }

  /** Frames with lengths that take up `len` of `max` bytes. */
  ghost predicate Fits<T>(fs: seq<StreamFrame<T>>, len: nat, max: nat) { len == Total(fs) <= max && AllWithLength(fs) }

  lemma FitsNext<T>(fs: seq<StreamFrame<T>>, f: StreamFrame<T>, len: nat, max: nat)
    requires Fits(fs, len, max) && f.Length() <= max - len && f.dataLenPresent
    ensures Fits(fs + [f], len + f.Length(), max)
  {
    TotalSnoc(fs, f);
  }

  // ---------- streams with data to send ----------

  datatype Stream<T> = Stream(id: nat, writeOffset: nat, dataForWriting: seq<T>, finishedWriting: bool, finSent: bool) {
    /** What is still to be sent. */
    function Pending(): seq<Item<T>> {
      Items(id, writeOffset, dataForWriting, finishedWriting && !finSent)
    }
  }

  ghost function Union<E>(parts: seq<multiset<E>>): multiset<E> {
    if parts == [] then multiset{} else Union(parts[..|parts| - 1]) + parts[|parts| - 1]
  }

  lemma {:induction false} UnionUpdate<E>(parts: seq<multiset<E>>, k: nat, m: multiset<E>)
    requires k < |parts|
    ensures Union(parts[k := m]) + parts[k] == Union(parts) + m
  {
    var n := |parts| - 1;
    if k == n {
      assert parts[k := m][..n] == parts[..n];
      assert Union(parts[..n]) + m + parts[n] == Union(parts[..n]) + parts[n] + m;
    } else {
      UnionUpdate(parts[..n], k, m);
      assert parts[k := m][..n] == parts[..n][k := m];
      AddToBoth(Union(parts[..n][k := m]), parts[k], Union(parts[..n]), m, parts[n]);
    }
  }

  ghost function PendingParts<T>(streams: seq<Stream<T>>): seq<multiset<Item<T>>> {
    seq(|streams|, i requires 0 <= i < |streams| => multiset(streams[i].Pending()))
  }

  /** Everything that is still to be sent. */
  ghost function AllPending<T>(streams: seq<Stream<T>>): multiset<Item<T>> { Union(PendingParts(streams)) }

  lemma {:induction false} PendingUpdate<T>(streams: seq<Stream<T>>, k: nat, s: Stream<T>)
    requires k < |streams|
    ensures AllPending(streams[k := s]) + multiset(streams[k].Pending()) == AllPending(streams) + multiset(s.Pending())
  {
    assert PendingParts(streams[k := s]) == PendingParts(streams)[k := multiset(s.Pending())];
    UnionUpdate(PendingParts(streams), k, multiset(s.Pending()));
  }

  lemma {:induction false} Cancel<E>(sent: multiset<E>, f: multiset<E>, p: multiset<E>, before: multiset<E>, after: multiset<E>)
    requires after + (f + p) == before + p
    ensures sent + f + after == sent + before
  {
    forall x ensures (sent + f + after)[x] == (sent + before)[x] { assert (after + (f + p))[x] == (before + p)[x]; }
  }

  /** The frame holds what the one changed stream no longer has to send. */
  ghost predicate TakenFrom<T>(before: seq<Stream<T>>, k: nat, f: StreamFrame<T>, after: seq<Stream<T>>) {
    && |after| == |before| && k < |before| && after == before[k := after[k]]
    && Carried([f]) + after[k].Pending() == before[k].Pending()
  }

  /** Sent and still pending make up everything. */
  ghost predicate Accounted<T>(res: seq<StreamFrame<T>>, streams: seq<Stream<T>>, all: multiset<Item<T>>) {
    multiset(Carried(res)) + AllPending(streams) == all
  }

  lemma {:induction false} AccountedNext<T>(res: seq<StreamFrame<T>>, before: seq<Stream<T>>, k: nat, f: StreamFrame<T>, after: seq<Stream<T>>, all: multiset<Item<T>>)
    requires Accounted(res, before, all) && TakenFrom(before, k, f, after)
    ensures Accounted(res + [f], after, all)
  {
    var s := after[k];
    PendingUpdate(before, k, s);
    CarriedAppend(res, [f]);
    assert multiset(before[k].Pending()) == multiset(Carried([f])) + multiset(s.Pending());
    Cancel(multiset(Carried(res)), multiset(Carried([f])), multiset(s.Pending()), AllPending(before), AllPending(after));
  }

  /** The crypto stream, no room, no window, or nothing to send. */
  predicate Withheld<T>(s: Stream<T>, room: nat, window: nat) {
    || s.id == 1 || room <= 3 + StreamIDLength(s.id) + OffsetLength(s.writeOffset)
    || (if s.dataForWriting != [] then window == 0 else !s.finishedWriting || s.finSent)
  }

  /** Not even the header of a frame for this stream fits. */
  predicate HeaderTooLong<T>(s: Stream<T>, room: nat) {
    s.id != 1 && room < 3 + StreamIDLength(s.id) + OffsetLength(s.writeOffset)
  }

  /** The front of the data is gone, within the window, and no more of it can go. */
  ghost predicate Served<T>(before: Stream<T>, after: Stream<T>, room: nat, window: nat) {
    var n := |before.dataForWriting| - |after.dataForWriting|;
    0 <= n <= window && after.dataForWriting == before.dataForWriting[n..] && Withheld(after, room, window - n)
  }

  /** Only stream `k` may have changed. */
  ghost predicate Touched<T>(before: seq<Stream<T>>, k: nat, after: seq<Stream<T>>) {
    |after| == |before| && forall i :: 0 <= i < |before| && i != k ==> after[i] == before[i]
  }

  ghost predicate Distinct(order: seq<nat>) { forall i, j :: 0 <= i < j < |order| ==> order[i] != order[j] }

  ghost predicate InRange<T>(order: seq<nat>, streams: seq<Stream<T>>) { forall i :: 0 <= i < |order| ==> order[i] < |streams| }

  ghost predicate SomeHeaderTooLong<T>(order: seq<nat>, streams: seq<Stream<T>>, room: nat)
    requires InRange(order, streams)
  {
    exists i :: 0 <= i < |order| && HeaderTooLong(streams[order[i]], room)
  }

  /** The first `n` streams of the order were served and the others not touched. */
  ghost predicate ServedFirst<T>(order: seq<nat>, n: nat, before: seq<Stream<T>>, after: seq<Stream<T>>, room: nat, windows: seq<nat>)
    requires n <= |order| == |windows| && |after| == |before| && InRange(order, before)
  {
    forall i :: 0 <= i < |order| ==>
      if i < n then Served(before[order[i]], after[order[i]], room, windows[i]) else after[order[i]] == before[order[i]]
  }

  lemma ServedNext<T>(order: seq<nat>, n: nat, before: seq<Stream<T>>, mid: seq<Stream<T>>, after: seq<Stream<T>>, room: nat, room': nat,
                      windows: seq<nat>)
    requires n < |order| == |windows| && |after| == |mid| == |before| && InRange(order, before) && Distinct(order) && room' <= room
    requires ServedFirst(order, n, before, mid, room, windows)
    requires Touched(mid, order[n], after) && Served(mid[order[n]], after[order[n]], room', windows[n])
    ensures ServedFirst(order, n + 1, before, after, room', windows)
  {
    forall i | 0 <= i < |order| && i != n ensures after[order[i]] == mid[order[i]] { assert order[i] != order[n]; }
  }

  /** Where the round stands after `n` streams. */
  ghost predicate Round<T>(order: seq<nat>, n: nat, done: bool, before: seq<Stream<T>>, after: seq<Stream<T>>, room: nat, windows: seq<nat>)
    requires n <= |order| == |windows| && |after| == |before| && InRange(order, before)
  {
    && (Distinct(order) ==> ServedFirst(order, n, before, after, room, windows))
    && (done ==> room == 0 || SomeHeaderTooLong(order, after, room))
  }

  lemma RoundNext<T>(order: seq<nat>, n: nat, done: bool, before: seq<Stream<T>>, mid: seq<Stream<T>>, after: seq<Stream<T>>, room: nat,
                     room': nat, windows: seq<nat>)
    requires n < |order| == |windows| && |after| == |mid| == |before| && InRange(order, before) && room' <= room
    requires Round(order, n, false, before, mid, room, windows)
    requires Touched(mid, order[n], after) && Served(mid[order[n]], after[order[n]], room', windows[n])
    requires done ==> room' == 0 || HeaderTooLong(after[order[n]], room')
    ensures Round(order, n + 1, done, before, after, room', windows)
  {
    if Distinct(order) { ServedNext(order, n, before, mid, after, room, room', windows); }
  }

  /** Every stream was served, or the headers no longer fit. */
  ghost predicate Exhausted<T>(order: seq<nat>, before: seq<Stream<T>>, after: seq<Stream<T>>, room: nat, windows: seq<nat>)
    requires |order| == |windows| && |after| == |before| && InRange(order, before)
  {
    SomeHeaderTooLong(order, after, room) || (Distinct(order) ==> ServedFirst(order, |order|, before, after, room, windows))
  }

  lemma RoundEnds<T>(order: seq<nat>, n: nat, done: bool, before: seq<Stream<T>>, after: seq<Stream<T>>, room: nat, windows: seq<nat>)
    requires n <= |order| == |windows| && |after| == |before| && InRange(order, before)
    requires Round(order, n, done, before, after, room, windows) && (done || n == |order|)
    ensures Exhausted(order, before, after, room, windows)
  {
  }

  class StreamFramer<T> {
    var retransmissionQueue: seq<StreamFrame<T>>
    var streams: seq<Stream<T>>

    /** The next handshake data of stream `cs`, without a length field. */
    method PopCryptoStreamFrame(cs: nat, maxLen: nat) returns (frame: StreamFrame<T>)
      requires cs < |streams| && streams[cs].id == 1 && streams[cs].dataForWriting != [] && maxLen > 10
      modifies this`streams
      ensures TakesData(old(streams), cs, frame, streams) && frame.Length() <= maxLen
      ensures streams[cs].dataForWriting == [] || frame.Length() == maxLen
    {
      var s := streams[cs];
      frame := StreamFrame(1, s.writeOffset, [], false, false);
      var data, s' := GetDataForWriting(s, maxLen - frame.MinLength());
      frame := frame.(data := data);
      streams := streams[cs := s'];
    }

    /** The frame at the head of the queue, split if it does not fit in `room`; nothing if even its header fills the room. */
    method PopRetransmission(room: nat) returns (out: Option<StreamFrame<T>>, last: bool)
      requires retransmissionQueue != []
      modifies this`retransmissionQueue
      ensures out.None? ==> last && Carried(retransmissionQueue) == Carried(old(retransmissionQueue))
      ensures out.Some? ==> Carried([out.value]) + Carried(retransmissionQueue) == Carried(old(retransmissionQueue))
      ensures out.Some? ==> out.value.Length() <= room && out.value.dataLenPresent
      ensures out.None? <==> room <= old(retransmissionQueue)[0].(dataLenPresent := true).MinLength()
      ensures if last then NoRoom(retransmissionQueue, if out.Some? then room - out.value.Length() else room)
              else |retransmissionQueue| < |old(retransmissionQueue)|
    {
      var frame, rest := retransmissionQueue[0].(dataLenPresent := true), retransmissionQueue[1..];
      HeadMarked(retransmissionQueue);
      var frameHeaderLen := frame.MinLength();
      if frameHeaderLen >= room {
        retransmissionQueue := [frame] + rest;
        return None, true;
      }
      var split, left := MaybeSplitOffFrame(frame, room - frameHeaderLen);
      if split.Some? {
        SplitStep(frame, split.value, left, rest);
        retransmissionQueue := [left] + rest;
        return split, true;
      }
      CarriedCons(frame, rest);
      retransmissionQueue := rest;
      return Some(frame), false;
    }

    /** Takes frames off the queue while they fit.  Nothing queued is lost or repeated. */
    method MaybePopFramesForRetransmission(maxLen: nat) returns (res: seq<StreamFrame<T>>, currentLen: nat)
      modifies this`retransmissionQueue
      ensures currentLen == Total(res) <= maxLen && AllWithLength(res) && NoRoom(retransmissionQueue, maxLen - currentLen)
      ensures Carried(res) + Carried(retransmissionQueue) == Carried(old(retransmissionQueue))
    {
      res, currentLen := [], 0;
      assert Carried(res) + Carried(retransmissionQueue) == Carried(retransmissionQueue);
      while |retransmissionQueue| > 0
        invariant currentLen == Total(res) <= maxLen && AllWithLength(res)
        invariant Carried(res) + Carried(retransmissionQueue) == Carried(old(retransmissionQueue))
        decreases |retransmissionQueue|
      {
        ghost var before := retransmissionQueue;
        var out, last := PopRetransmission(maxLen - currentLen);
        if out.Some? {
          PoppedStep(res, out.value, before, retransmissionQueue);
          TotalSnoc(res, out.value);
          res, currentLen := res + [out.value], currentLen + out.value.Length();
        }
        if last { break; }
      }
    }

    /** New data of one stream, at most `window` bytes of it.  `stop`: not even the header fits. */
    method PopNormalFrame(k: nat, room: nat, window: nat) returns (out: Option<StreamFrame<T>>, stop: bool)
      requires k < |streams|
      modifies this`streams
      ensures out.None? <==> Withheld(old(streams[k]), room, window)
      ensures (stop ==> out.None?) && (out.None? ==> streams == old(streams))
      ensures out.Some? ==> TakenFrom(old(streams), k, out.value, streams)
      ensures out.Some? ==> out.value.Length() <= room && |out.value.data| <= window && out.value.dataLenPresent
      ensures stop <==> HeaderTooLong(old(streams[k]), room)
      ensures Served(old(streams[k]), streams[k], if out.Some? then room - out.value.Length() else room, window)
    {
      var s := streams[k];
      if s.id == 1 { return None, false; }
      var frame := StreamFrame(s.id, s.writeOffset, [], false, true);
      var frameHeaderBytes := frame.MinLength();
      if frameHeaderBytes > room { return None, true; }
      var maxLen := room - frameHeaderBytes;
      if s.dataForWriting != [] && window < maxLen { maxLen := window; }
      if maxLen == 0 { return None, false; }
      var data, s' := GetDataForWriting(s, maxLen);
      var fin := s'.finishedWriting && !s'.finSent && s'.dataForWriting == [];
      if data == [] && !fin { return None, false; }
      frame := frame.(data := data, fin := fin);
      FrameCarries(s, frame);
      streams := streams[k := s'.(finSent := s'.finSent || fin)];
      return Some(frame), false;
    }

    /** One stream's turn. */
    method Visit(res: seq<StreamFrame<T>>, currentLen: nat, maxBytes: nat, k: nat, window: nat, ghost all: multiset<Item<T>>)
      returns (res': seq<StreamFrame<T>>, currentLen': nat, done: bool)
      requires k < |streams| && Fits(res, currentLen, maxBytes) && Accounted(res, streams, all)
      modifies this`streams
      ensures |streams| == |old(streams)| && Accounted(res', streams, all) && Touched(old(streams), k, streams)
      ensures currentLen <= currentLen' && Fits(res', currentLen', maxBytes) && res <= res'
      ensures Served(old(streams[k]), streams[k], maxBytes - currentLen', window)
      ensures done ==> currentLen' == maxBytes || HeaderTooLong(streams[k], maxBytes - currentLen')
    {
      var out, stop := PopNormalFrame(k, maxBytes - currentLen, window);
      if out.None? { return res, currentLen, stop; }
      AccountedNext(res, old(streams), k, out.value, streams, all);
      FitsNext(res, out.value, currentLen, maxBytes);
      res', currentLen' := res + [out.value], currentLen + out.value.Length();
      done := currentLen' == maxBytes;
    }

    /** Visits the streams in the given order until the room is used up. */
    /** Goes round the streams.  At the end each has nothing that can still go, unless the headers no longer fit. */
    method MaybePopNormalFrames(maxBytes: nat, order: seq<nat>, windows: seq<nat>) returns (res: seq<StreamFrame<T>>)
      requires |windows| == |order| && InRange(order, streams)
      modifies this`streams
      ensures |streams| == |old(streams)| && Total(res) <= maxBytes && AllWithLength(res)
      ensures Accounted(res, streams, AllPending(old(streams)))
      ensures Exhausted(order, old(streams), streams, maxBytes - Total(res), windows)
    {
      res := [];
      var currentLen, i: nat, done := 0, 0, false;
      while i < |order| && !done
        invariant i <= |order| && |streams| == |old(streams)| && Fits(res, currentLen, maxBytes)
        invariant Accounted(res, streams, AllPending(old(streams)))
        invariant Round(order, i, done, old(streams), streams, maxBytes - currentLen, windows)
      {
        ghost var mid, room: nat := streams, maxBytes - currentLen;
        res, currentLen, done := Visit(res, currentLen, maxBytes, order[i], windows[i], AllPending(old(streams)));
        RoundNext(order, i, done, old(streams), mid, streams, room, maxBytes - currentLen, windows);
        i := i + 1;
      }
      RoundEnds(order, i, done, old(streams), streams, maxBytes - currentLen, windows);
    }

    /** Retransmissions first, then new data in what room is left.  The first `k` frames come from the queue. */
    method PopStreamFrames(maxLen: nat, order: seq<nat>, windows: seq<nat>) returns (res: seq<StreamFrame<T>>, k: nat)
      requires |windows| == |order| && forall i :: 0 <= i < |order| ==> order[i] < |streams|
      modifies this
      ensures |streams| == |old(streams)| && Total(res) <= maxLen && AllWithLength(res) && k <= |res|
      ensures Carried(res[..k]) + Carried(retransmissionQueue) == Carried(old(retransmissionQueue))
      ensures Accounted(res[k..], streams, AllPending(old(streams)))
    {
      var again, currentLen := MaybePopFramesForRetransmission(maxLen);
      var added := MaybePopNormalFrames(maxLen - currentLen, order, windows);
      TotalAppend(again, added);
      res, k := again + added, |again|;
      assert res[..k] == again && res[k..] == added;
    }
  }

  lemma {:induction false} TotalAppend<T>(a: seq<StreamFrame<T>>, b: seq<StreamFrame<T>>)
    ensures Total(a + b) == Total(a) + Total(b)
  {
    if b == [] {
      assert a + b == a;
    } else {
      TotalAppend(a, b[..|b| - 1]);
      assert (a + b)[..|a + b| - 1] == a + b[..|b| - 1];
    }
  }

  method GetDataForWriting<T>(s: Stream<T>, maxBytes: nat) returns (data: seq<T>, s': Stream<T>)
    ensures data + s'.dataForWriting == s.dataForWriting && |data| <= maxBytes
    ensures s' == s.(dataForWriting := s'.dataForWriting, writeOffset := s.writeOffset + |data|)
    ensures s'.dataForWriting == [] || |data| == maxBytes
  {
    if |s.dataForWriting| > maxBytes {
      data := s.dataForWriting[..maxBytes];
      s' := s.(dataForWriting := s.dataForWriting[maxBytes..], writeOffset := s.writeOffset + maxBytes);
    } else {
      data := s.dataForWriting;
      s' := s.(dataForWriting := [], writeOffset := s.writeOffset + |data|);
    }
  }

  /** A frame with the next data of a stream, and the end marker when that was all. */
  lemma FrameCarries<T>(s: Stream<T>, f: StreamFrame<T>)
    requires f.data <= s.dataForWriting && f.id == s.id && f.offset == s.writeOffset
    requires f.fin == (s.finishedWriting && !s.finSent && |f.data| == |s.dataForWriting|)
    ensures var n := |f.data|;
      Carried([f]) + s.(dataForWriting := s.dataForWriting[n..], writeOffset := s.writeOffset + n, finSent := s.finSent || f.fin).Pending() == s.Pending()
  {
    CarriedOne(f);
    ItemsSplit(s.id, s.writeOffset, s.dataForWriting, s.finishedWriting && !s.finSent, |f.data|);
  }

  lemma HeadMarked<T>(q: seq<StreamFrame<T>>)
    requires q != []
    ensures Carried([q[0].(dataLenPresent := true)] + q[1..]) == Carried(q)
  {
    CarriedCons(q[0].(dataLenPresent := true), q[1..]);
    CarriedCons(q[0], q[1..]);
    CarriedOne(q[0]);
    CarriedOne(q[0].(dataLenPresent := true));
    assert [q[0]] + q[1..] == q;
  }

  lemma SplitStep<T>(frame: StreamFrame<T>, front: StreamFrame<T>, left: StreamFrame<T>, rest: seq<StreamFrame<T>>)
    requires Carried([front]) + Carried([left]) == Carried([frame])
    ensures Carried([front]) + Carried([left] + rest) == Carried([frame] + rest)
  {
    CarriedCons(left, rest);
    CarriedCons(frame, rest);
    Associates(Carried([front]), Carried([left]), Carried(rest));
  }

  // ---------- the packer ----------

  /** A control frame; only the one-byte PING is told apart from the others. */
  datatype Control = Ping | Control(tag: nat, size: nat) {
    function Length(): nat {
      if Ping? then 1 else size
    }
  }

  datatype Payload<T> = StopWaitingFrame(length: nat) | AckFrame(length: nat) | ControlFrame(control: Control) | Data(frame: StreamFrame<T>) {
    function Length(): nat {
      match this
      case StopWaitingFrame(l) => l
      case AckFrame(l) => l
      case ControlFrame(c) => c.Length()
      case Data(f) => f.Length()
    }
  }

  function Size<T>(ps: seq<Payload<T>>): nat {
    if ps == [] then 0 else Size(ps[..|ps| - 1]) + ps[|ps| - 1].Length()
  }

  lemma {:induction false} SizeSnoc<T>(ps: seq<Payload<T>>, p: Payload<T>)
    ensures Size(ps + [p]) == Size(ps) + p.Length()
  {
    assert (ps + [p])[..|ps|] == ps;
  }

  function DataOf<T>(fs: seq<StreamFrame<T>>): seq<Payload<T>> { seq(|fs|, i requires 0 <= i < |fs| => Data(fs[i])) }

  lemma {:induction false} SizeOfData<T>(ps: seq<Payload<T>>, fs: seq<StreamFrame<T>>)
    ensures Size(ps + DataOf(fs)) == Size(ps) + Total(fs)
  {
    if fs == [] {
      assert ps + DataOf(fs) == ps;
    } else {
      var n := |fs| - 1;
      SizeOfData(ps, fs[..n]);
      assert ps + DataOf(fs) == ps + DataOf(fs[..n]) + [Data(fs[n])];
      SizeSnoc(ps + DataOf(fs[..n]), Data(fs[n]));
    }
  }

  lemma NoData<T>(ps: seq<Payload<T>>)
    ensures ps + DataOf(LastOpen<T>([])) == ps
  {
    assert DataOf(LastOpen<T>([])) == [];
  }

  /** The last stream frame runs to the end of the packet, so its length field is left out. */
  function LastOpen<T>(fs: seq<StreamFrame<T>>): seq<StreamFrame<T>> {
    if fs == [] then [] else fs[|fs| - 1 := fs[|fs| - 1].(dataLenPresent := false)]
  }

  lemma {:induction false} LastOpenSaves<T>(fs: seq<StreamFrame<T>>)
    requires fs != [] && AllWithLength(fs)
    ensures Total(LastOpen(fs)) + 2 == Total(fs)
  {
    var n := |fs| - 1;
    assert LastOpen(fs)[..n] == fs[..n];
  }

  function First<T>(stopWaiting: Option<nat>, ackFrame: Option<nat>): seq<Payload<T>> {
    (if stopWaiting.Some? then [StopWaitingFrame(stopWaiting.value)] else []) + if ackFrame.Some? then [AckFrame(ackFrame.value)] else []
  }

  lemma {:induction false} FirstSize<T>(stopWaiting: Option<nat>, ackFrame: Option<nat>)
    ensures Size(First<T>(stopWaiting, ackFrame)) ==
            (if stopWaiting.Some? then stopWaiting.value else 0) + if ackFrame.Some? then ackFrame.value else 0
  {
    var a: seq<Payload<T>> := if stopWaiting.Some? then [StopWaitingFrame(stopWaiting.value)] else [];
    assert Size(a) == if stopWaiting.Some? then stopWaiting.value else 0;
    if ackFrame.Some? { SizeSnoc(a, AckFrame(ackFrame.value)); } else { assert a + [] == a; }
  }

  /** Where the stream frames of a packet come from: the first `k` from the queue, the others from the streams. */
  ghost predicate Supplied<T>(sent: seq<StreamFrame<T>>, k: nat, queue: seq<StreamFrame<T>>, streams: seq<Stream<T>>,
                              queue': seq<StreamFrame<T>>, streams': seq<Stream<T>>)
  {
    && k <= |sent| && |streams'| == |streams|
    && Carried(sent[..k]) + Carried(queue') == Carried(queue)
    && Accounted(sent[k..], streams', AllPending(streams))
  }

  lemma {:induction false} NothingSupplied<T>(queue: seq<StreamFrame<T>>, streams: seq<Stream<T>>)
    ensures Supplied([], 0, queue, streams, queue, streams)
  {
    assert Carried<T>([]) == [];
    assert Carried<T>([]) + Carried(queue) == Carried(queue);
  }

  class PacketPacker<T> {
    const streamFramer: StreamFramer<T>
    var stopWaiting: Option<nat>
    var ackFrame: Option<nat>
    var controlFrames: seq<Control>

    constructor (framer: StreamFramer<T>)
      ensures streamFramer == framer && stopWaiting == None && ackFrame == None && controlFrames == []
    {
      streamFramer, stopWaiting, ackFrame, controlFrames := framer, None, None, [];
    }

    /** The stop-waiting frame and the acknowledgement, whatever their size. */
    method FirstFrames() returns (payloadFrames: seq<Payload<T>>, payloadLength: nat)
      ensures payloadFrames == First(stopWaiting, ackFrame) && payloadLength == Size(payloadFrames)
    {
      payloadFrames, payloadLength := [], 0;
      if stopWaiting.Some? {
        payloadFrames, payloadLength := [StopWaitingFrame(stopWaiting.value)], stopWaiting.value;
      }
      assert Size(payloadFrames) == payloadLength by { FirstSize<T>(stopWaiting, None); }
      if ackFrame.Some? {
        SizeSnoc(payloadFrames, AckFrame(ackFrame.value));
        payloadFrames, payloadLength := payloadFrames + [AckFrame(ackFrame.value)], payloadLength + ackFrame.value;
      }
    }

    /** Control frames are taken from the back while they fit. */
    method AddControlFrames(first: seq<Payload<T>>, length: nat, maxFrameSize: nat)
      returns (payloadFrames: seq<Payload<T>>, payloadLength: nat, ghost controls: seq<Payload<T>>)
      requires length == Size(first)
      modifies this`controlFrames
      ensures payloadLength == Size(payloadFrames) && (length <= maxFrameSize <==> payloadLength <= maxFrameSize)
      ensures length > maxFrameSize ==> payloadFrames == first && controlFrames == old(controlFrames)
      ensures payloadFrames == first + controls && controlFrames <= old(controlFrames)
      ensures Backwards(old(controlFrames), |controlFrames|, controls)
      ensures NextDoesNotFit(controlFrames, payloadLength, maxFrameSize)
    {
      payloadFrames, payloadLength, controls := first, length, [];
      while |controlFrames| > 0
        invariant controlFrames <= old(controlFrames) && payloadFrames == first + controls && payloadLength == Size(payloadFrames)
        invariant length <= maxFrameSize <==> payloadLength <= maxFrameSize
        invariant length > maxFrameSize ==> payloadFrames == first && controlFrames == old(controlFrames)
        invariant Backwards(old(controlFrames), |controlFrames|, controls)
      {
        var frame := controlFrames[|controlFrames| - 1];
        if payloadLength + frame.Length() > maxFrameSize { break; }
        SizeSnoc(payloadFrames, ControlFrame(frame));
        payloadFrames, payloadLength := payloadFrames + [ControlFrame(frame)], payloadLength + frame.Length();
        controls := controls + [ControlFrame(frame)];
        controlFrames := controlFrames[..|controlFrames| - 1];
      }
    }

    /** Stream frames are given two bytes more than there is room for; the last one gives them back. */
    method AddStreamFrames(payloadFrames: seq<Payload<T>>, payloadLength: nat, maxFrameSize: nat, order: seq<nat>, windows: seq<nat>)
      returns (all: seq<Payload<T>>, ghost sent: seq<StreamFrame<T>>, ghost k: nat)
      requires payloadLength == Size(payloadFrames) <= maxFrameSize
      requires |windows| == |order| && forall i :: 0 <= i < |order| ==> order[i] < |streamFramer.streams|
      modifies streamFramer
      ensures Size(all) <= maxFrameSize && all == payloadFrames + DataOf(LastOpen(sent))
      ensures Supplied(sent, k, old(streamFramer.retransmissionQueue), old(streamFramer.streams), streamFramer.retransmissionQueue, streamFramer.streams)
    {
      var fs, n := streamFramer.PopStreamFrames(maxFrameSize + 2 - payloadLength, order, windows);
      if |fs| != 0 { LastOpenSaves(fs); }
      SizeOfData(payloadFrames, LastOpen(fs));
      return payloadFrames + DataOf(LastOpen(fs)), fs, n;
    }

    /** The frames of the next packet.  They always fit; only an oversized first part is an error, and then
        nothing is taken. */
    method ComposeNextPacket(maxFrameSize: nat, canSendStreamFrames: bool, order: seq<nat>, windows: seq<nat>)
      returns (r: Option<seq<Payload<T>>>, ghost controls: seq<Payload<T>>, ghost sent: seq<StreamFrame<T>>, ghost k: nat)
      requires |windows| == |order| && forall i :: 0 <= i < |order| ==> order[i] < |streamFramer.streams|
      modifies this`controlFrames, streamFramer
      ensures r.Some? <==> Size(First<T>(stopWaiting, ackFrame)) <= maxFrameSize
      ensures r.Some? ==> Size(r.value) <= maxFrameSize
      ensures r.Some? ==> r.value == First(stopWaiting, ackFrame) + controls + DataOf(LastOpen(sent))
      ensures controlFrames <= old(controlFrames) && Backwards(old(controlFrames), |controlFrames|, controls)
      ensures r.None? || !canSendStreamFrames ==> sent == []
      ensures r.None? ==> controlFrames == old(controlFrames)
      ensures Supplied(sent, k, old(streamFramer.retransmissionQueue), old(streamFramer.streams), streamFramer.retransmissionQueue, streamFramer.streams)
    {
      NothingSupplied(streamFramer.retransmissionQueue, streamFramer.streams);
      var first, firstLength := FirstFrames();
      var payloadFrames, payloadLength, cs := AddControlFrames(first, firstLength, maxFrameSize);
      controls, sent, k := cs, [], 0;
      if payloadLength > maxFrameSize { return None, controls, sent, k; }
      if canSendStreamFrames {
        payloadFrames, sent, k := AddStreamFrames(payloadFrames, payloadLength, maxFrameSize, order, windows);
      } else {
        NoData(payloadFrames);
      }
      r := Some(payloadFrames);
    }

    /** Leaves out a packet that would only say what to stop waiting for, and checks the size before sealing. */
    method Finish(payloadFrames: seq<Payload<T>>, headerLength: nat, overhead: nat) returns (r: Packed<T>)
      modifies this`stopWaiting, this`ackFrame
      ensures r.Nothing? <==> payloadFrames == [] || (|payloadFrames| == 1 && old(stopWaiting).Some?)
      ensures r.PacketTooLarge? <==> !r.Nothing? && headerLength + Size(payloadFrames) + overhead > MaxPacketSize
      ensures !r.PayloadTooLarge? && (r.Packet? ==> r.frames == payloadFrames)
      ensures r.Nothing? ==> stopWaiting == old(stopWaiting) && ackFrame == old(ackFrame)
      ensures !r.Nothing? ==> stopWaiting == None && ackFrame == None
    {
      if payloadFrames == [] || (|payloadFrames| == 1 && stopWaiting.Some?) { return Nothing; }
      stopWaiting, ackFrame := None, None;
      if headerLength + Size(payloadFrames) + overhead > MaxPacketSize { return PacketTooLarge; }
      return Packet(payloadFrames);
    }

    ghost function Value(): Packer<T>
      reads this, streamFramer
    {
      Packer(stopWaiting, ackFrame, controlFrames, streamFramer.retransmissionQueue, streamFramer.streams)
    }

    /** A packet of control, acknowledgement and stream frames. */
    method PackFrames(headerLength: nat, overhead: nat, canSendStreamFrames: bool, order: seq<nat>, windows: seq<nat>)
      returns (r: Packed<T>, ghost controls: seq<Payload<T>>, ghost sent: seq<StreamFrame<T>>, ghost k: nat)
      requires headerLength + overhead <= MaxPacketSize
      requires |windows| == |order| && forall i :: 0 <= i < |order| ==> order[i] < |streamFramer.streams|
      modifies this, streamFramer
      ensures PacksFrames(old(Value()), Value(), headerLength + overhead, r, controls, sent, k)
    {
      controls, sent, k := [], [], 0;
      if PingFirst(controlFrames) {
        NothingSupplied(streamFramer.retransmissionQueue, streamFramer.streams);
        assert Size([Payload<T>.ControlFrame(Ping)]) == 1;
        controlFrames := controlFrames[1..];
        r := Finish([ControlFrame(Ping)], headerLength, overhead);
      } else {
        var payload, cs, ss, n := ComposeNextPacket(MaxPacketSize - overhead - headerLength, canSendStreamFrames, order, windows);
        controls, sent, k := cs, ss, n;
        if payload.None? { return PayloadTooLarge, controls, sent, k; }
        assert |First<T>(stopWaiting, ackFrame)| + |controls| + |sent| == |payload.value|;
        r := Finish(payload.value, headerLength, overhead);
      }
    }

    /** A packet with handshake data alone, smaller than others. */
    method PackCryptoPacket(cs: nat, headerLength: nat, overhead: nat) returns (r: Packed<T>)
      requires cs < |streamFramer.streams| && streamFramer.streams[cs].id == 1 && streamFramer.streams[cs].dataForWriting != []
      requires headerLength + overhead + NonForwardSecurePacketSizeReduction + 10 < MaxPacketSize
      modifies streamFramer`streams
      ensures PacksCrypto(old(Value()), Value(), cs, headerLength + overhead, r)
    {
      var frame := streamFramer.PopCryptoStreamFrame(cs, MaxPacketSize - overhead - NonForwardSecurePacketSizeReduction - headerLength);
      assert Size([Data(frame)]) == frame.Length();
      return Packet([Data(frame)]);
    }

    /** The next packet: handshake data, which wait in stream `cs`, go before everything else. */
    method PackPacket(cs: nat, cryptoHeader: nat, cryptoOverhead: nat,
                      headerLength: nat, overhead: nat, canSendStreamFrames: bool, order: seq<nat>, windows: seq<nat>)
      returns (r: Packed<T>, ghost controls: seq<Payload<T>>, ghost sent: seq<StreamFrame<T>>, ghost k: nat)
      requires cs < |streamFramer.streams| && streamFramer.streams[cs].id == 1
      requires cryptoHeader + cryptoOverhead + NonForwardSecurePacketSizeReduction + 10 < MaxPacketSize
      requires headerLength + overhead <= MaxPacketSize
      requires |windows| == |order| && forall i :: 0 <= i < |order| ==> order[i] < |streamFramer.streams|
      modifies this, streamFramer
      ensures old(streamFramer.streams[cs].dataForWriting) != [] ==> PacksCrypto(old(Value()), Value(), cs, cryptoHeader + cryptoOverhead, r)
      ensures old(streamFramer.streams[cs].dataForWriting) == [] ==>
        PacksFrames(old(Value()), Value(), headerLength + overhead, r, controls, sent, k)
    {
      if streamFramer.streams[cs].dataForWriting != [] {
        controls, sent, k := [], [], 0;
        r := PackCryptoPacket(cs, cryptoHeader, cryptoOverhead);
      } else {
        r, controls, sent, k := PackFrames(headerLength, overhead, canSendStreamFrames, order, windows);
      }
    }
  }

  /** What the packer works on. */
  datatype Packer<T> = Packer(stopWaiting: Option<nat>, ackFrame: Option<nat>, controlFrames: seq<Control>,
                              queue: seq<StreamFrame<T>>, streams: seq<Stream<T>>)

  /** A composed packet is never too large to be sealed, and when none results nothing was taken.  A PING at the
      front of the control frames goes out alone: it is dropped when a stop-waiting frame is queued, and
      otherwise a queued acknowledgement is dropped with it. */
  ghost predicate PacksFrames<T>(b: Packer<T>, a: Packer<T>, extra: nat, r: Packed<T>, controls: seq<Payload<T>>,
                                 sent: seq<StreamFrame<T>>, k: nat)
  {
    && Supplied(sent, k, b.queue, b.streams, a.queue, a.streams)
    && (r.Packet? ==> r.frames != [] && extra + Size(r.frames) <= MaxPacketSize)
    && (r.PacketTooLarge? <==> PingFirst(b.controlFrames) && b.stopWaiting.None? && extra + 1 > MaxPacketSize)
    && (r.PayloadTooLarge? <==> !PingFirst(b.controlFrames) && extra + Size(First<T>(b.stopWaiting, b.ackFrame)) > MaxPacketSize)
    && (if r.Packet? || r.PacketTooLarge? then a.stopWaiting == None && a.ackFrame == None
        else a.stopWaiting == b.stopWaiting && a.ackFrame == b.ackFrame)
    && if PingFirst(b.controlFrames) then
        && a.controlFrames == b.controlFrames[1..] && sent == [] && (r.Nothing? <==> b.stopWaiting.Some?)
        && (r.Packet? ==> r.frames == [ControlFrame(Ping)])
      else if !r.Packet? then a.controlFrames == b.controlFrames && sent == []
      else
        && r.frames == First(b.stopWaiting, b.ackFrame) + controls + DataOf(LastOpen(sent))
        && a.controlFrames <= b.controlFrames && Backwards(b.controlFrames, |a.controlFrames|, controls)
  }

  /** The next handshake data go out alone and leave fifty bytes of the packet unused; everything else stays. */
  ghost predicate PacksCrypto<T>(b: Packer<T>, a: Packer<T>, cs: nat, extra: nat, r: Packed<T>)
    requires cs < |b.streams|
  {
    && a == b.(streams := a.streams) && r.Packet? && |r.frames| == 1 && r.frames[0].Data?
    && extra + Size(r.frames) + NonForwardSecurePacketSizeReduction <= MaxPacketSize
    && TakesData(b.streams, cs, r.frames[0].frame, a.streams)
    && (a.streams[cs].dataForWriting == [] || extra + Size(r.frames) + NonForwardSecurePacketSizeReduction == MaxPacketSize)
  }

  /** The frame holds the next bytes of stream `cs`, as the stream no longer does; the end marker stays. */
  ghost predicate TakesData<T>(before: seq<Stream<T>>, cs: nat, f: StreamFrame<T>, after: seq<Stream<T>>)
    requires cs < |before|
  {
    && f.id == before[cs].id && f.offset == before[cs].writeOffset && f.data != [] && f.data <= before[cs].dataForWriting && !f.fin
    && after == before[cs := before[cs].(dataForWriting := before[cs].dataForWriting[|f.data|..], writeOffset := f.offset + |f.data|)]
  }

  datatype Packed<T> = Packet(frames: seq<Payload<T>>) | Nothing | PayloadTooLarge | PacketTooLarge

  /** No control frame is left, or the next one would not fit behind `length` bytes. */
  predicate NextDoesNotFit(controls: seq<Control>, length: nat, maxFrameSize: nat) {
    controls == [] || length + controls[|controls| - 1].Length() > maxFrameSize
  }

  predicate PingFirst(controls: seq<Control>) {
    controls != [] && controls[0].Ping?
  }

  /** The control frames from position `n` on, last one first. */
  ghost predicate Backwards<T>(controls: seq<Control>, n: nat, taken: seq<Payload<T>>) {
    && n + |taken| == |controls|
    && forall i :: 0 <= i < |taken| ==> taken[i] == ControlFrame(controls[|controls| - 1 - i])
  }
}
