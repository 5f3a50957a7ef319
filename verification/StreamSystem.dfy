/** Both ends of a stream with an arbitrary network between them. */
module StreamSystem {
  import opened Reassembly
  import opened ByteStream
  import opened Folds

  /** The sending side: everything passed to Write, how much of it has been framed, what waits to be
      framed, and the frames queued for retransmission. */
  datatype Sender<!T> = Sender(written: seq<T>, writeOffset: nat, dataForWriting: seq<T>,
                               finishedWriting: bool, finSent: bool, retransmissionQueue: seq<Frame<T>>)

  /** `sent` holds every frame ever put on the wire; the network may deliver any of them, any number of
      times, at any moment, or never.  `finished` is set when the reader has used up a frame with the end
      marker, `dead` when the receiver closed on an error. */
  datatype Net<!T> = Net(snd: Sender<T>, sent: seq<Frame<T>>, rcv: Sorter<T>, readOffset: nat, output: seq<T>,
                         finished: bool, dead: bool)

  datatype Event<!T> =
    | Write(p: seq<T>)
    | Close
    | SendNew(maxLen: nat)
    | DeclareLost(lost: Frame<T>)
    | Resend(room: nat)
    | Deliver(frame: Frame<T>)
    | ReadRound(space: nat)

  /** Write hands over the next bytes.  It blocks while earlier bytes wait, so they are never replaced;
      offsets are 64 bits wide. */
  function WriteData<T>(s: Sender<T>, p: seq<T>): Sender<T> {
    if s.finishedWriting || p == [] || s.dataForWriting != [] || |s.written| + |p| >= MaxByteCount then s
    else s.(written := s.written + p, dataForWriting := p)
  }

  /** getDataForWriting: at most `maxLen` of the waiting bytes. */
  function GetData<T>(s: Sender<T>, maxLen: nat): (r: (seq<T>, Sender<T>)) {
    var k := Min(maxLen, |s.dataForWriting|);
    (s.dataForWriting[..k], s.(dataForWriting := s.dataForWriting[k..], writeOffset := s.writeOffset + k))
  }

  /** The frame the framer builds next, if any: new data, the end marker, or both. */
  function NextFrame<T>(s: Sender<T>, maxLen: nat): (r: (Option<Frame<T>>, Sender<T>)) {
    if maxLen == 0 then (None, s)
    else
      var (data, s') := GetData(s, maxLen);
      var fin := s'.finishedWriting && !s'.finSent && s'.dataForWriting == [];
      if data == [] && !fin then (None, s) else (Some(Frame(s.writeOffset, data, fin)), s'.(finSent := s'.finSent || fin))
  }

  /** maybeSplitOffFrame: the first `n` bytes of a frame that is longer, and what stays in the queue. */
  function SplitOff<T>(f: Frame<T>, n: nat): (r: (Option<Frame<T>>, Frame<T>))
    ensures r.0.Some? <==> n < |f.data|
    ensures r.0.Some? ==>
      && r.0.value.offset == f.offset && |r.0.value.data| == n && !r.0.value.fin
      && r.1.offset == f.offset + n && r.0.value.data + r.1.data == f.data && r.1.fin == f.fin
    ensures r.0.None? ==> r.1 == f
  {
    if n >= |f.data| then (None, f)
    else (Some(Frame(f.offset, f.data[..n], false)), Frame(f.offset + n, f.data[n..], f.fin))
  }

  /** The head of the retransmission queue goes out, whole or split. */
  function NextRetransmission<T>(s: Sender<T>, room: nat): (r: (Option<Frame<T>>, Sender<T>)) {
    if s.retransmissionQueue == [] || room == 0 then (None, s)
    else
      var (front, rest) := SplitOff(s.retransmissionQueue[0], room);
      match front
      case Some(f) => (Some(f), s.(retransmissionQueue := [rest] + s.retransmissionQueue[1..]))
      case None => (Some(rest), s.(retransmissionQueue := s.retransmissionQueue[1..]))
  }

  ghost function Transmit<T>(n: Net<T>, r: (Option<Frame<T>>, Sender<T>)): Net<T> {
    n.(snd := r.1, sent := n.sent + if r.0.Some? then [r.0.value] else [])
  }

  /** What is left of frame `g` once its front has been split off.  A frame is shared by the packets that
      carry it, and splitting shortens it for all of them. */
  ghost predicate Rest<T>(g: Frame<T>, f: Frame<T>) {
    && g.offset <= f.offset && f.End() == g.End() && f.fin == g.fin
    && f.data == g.data[f.offset - g.offset..] && (f.data == [] ==> g.data == [])
  }

  /** Reads only when a frame is at the head of the queue. */
  ghost predicate HeadReady<T>(n: Net<T>) {
    && n.rcv.readPosition in n.rcv.queued
    && n.rcv.queued[n.rcv.readPosition].offset <= n.readOffset <= n.rcv.queued[n.rcv.readPosition].End()
  }

  /** One round of Read: the reader has finished once it used up a frame with the end marker. */
  ghost function ReadHead<T>(n: Net<T>, space: nat): Net<T>
    requires HeadReady(n)
  {
    var head := n.rcv.queued[n.rcv.readPosition];
    var (bytes, rcv, readOffset) := Take(n.rcv, n.readOffset, space);
    n.(rcv := rcv, readOffset := readOffset, output := n.output + bytes, finished := head.fin && head.End() <= readOffset)
  }

  ghost function Receive<T>(n: Net<T>, f: Frame<T>): Net<T>
    requires GapsOk(n.rcv.gaps)
  {
    var (r, rcv) := Pushed(n.rcv, f);
    if r.Queued? || r.DuplicateData? then n.(rcv := rcv) else n.(dead := true)
  }

  ghost function Step<T>(n: Net<T>, e: Event<T>): Net<T> {
    match e
    case Write(p) => n.(snd := WriteData(n.snd, p))
    case Close => n.(snd := n.snd.(finishedWriting := true))
    case SendNew(maxLen) => Transmit(n, NextFrame(n.snd, maxLen))
    case DeclareLost(f) =>
      if exists g :: g in n.sent && Rest(g, f) then Requeued(n, f) else n
    case Resend(room) => Transmit(n, NextRetransmission(n.snd, room))
    case Deliver(f) => if f !in n.sent || n.dead || !GapsOk(n.rcv.gaps) then n else Receive(n, f)
    case ReadRound(space) => if n.dead || n.finished || space == 0 || !HeadReady(n) then n else ReadHead(n, space)
  }

  ghost function Begin<T>(): Net<T> {
    Net(Sender([], 0, [], false, false, []), [], Sorter(map[], 0, [Gap(0, MaxByteCount)]), 0, [], false, false)
  }

  // ---------- invariant ----------

  ghost predicate SenderOk<T>(s: Sender<T>) {
    && s.writeOffset <= |s.written| < MaxByteCount
    && s.dataForWriting == s.written[s.writeOffset..]
    && (s.finSent ==> s.finishedWriting && s.writeOffset == |s.written|)
    && forall f :: f in s.retransmissionQueue ==> FromSender(s, f)
  }

  /** A frame this sender may have built: a slice of what was written, and the end marker only at the
      end of a closed stream. */
  ghost predicate FromSender<T>(s: Sender<T>, f: Frame<T>) {
    && Slice(s.written, f) && (f.data == [] ==> f.fin) && (f.fin ==> s.finishedWriting && s.finSent && f.End() == |s.written|)
  }

  ghost predicate Inv<T>(n: Net<T>) {
    && SenderOk(n.snd)
    && (forall f :: f in n.sent ==> FromSender(n.snd, f))
    && n.readOffset <= |n.snd.written| && n.output == n.snd.written[..n.readOffset]
    && (n.finished ==> n.snd.finishedWriting)
    && (!n.dead ==> ReceiverOk(n))
  }

  ghost predicate ReceiverOk<T>(n: Net<T>) {
    && Indexed(n.rcv, n.snd.written) && ReadOk(n.rcv, n.readOffset) && |n.rcv.gaps| <= MaxStreamFrameSorterGaps
    && forall o :: o in n.rcv.queued && n.rcv.queued[o].fin ==> n.snd.finSent
  }

  lemma GrownSlice<T>(s: Sender<T>, p: seq<T>, f: Frame<T>)
    requires FromSender(s, f) && !s.finishedWriting
    ensures FromSender(s.(written := s.written + p, dataForWriting := p), f)
  {
    assert (s.written + p)[f.offset..f.End()] == s.written[f.offset..f.End()];
  }

  /** Writing more keeps the receiver's index, as long as no end marker has been seen. */
  lemma GrownIndex<T>(r: Sorter<T>, w: seq<T>, p: seq<T>)
    requires Indexed(r, w) && |w| + |p| < MaxByteCount
    requires forall o :: o in r.queued ==> !r.queued[o].fin
    ensures Indexed(r, w + p)
  {
    forall o | o in r.queued
      ensures FrameOk(r, w + p, o)
    {
      assert FrameOk(r, w, o);
      assert (w + p)[o..r.queued[o].End()] == w[o..r.queued[o].End()];
    }
  }

  lemma WriteKeepsInv<T>(n: Net<T>, p: seq<T>)
    requires Inv(n)
    ensures Inv(Step(n, Write(p)))
  {
    var n' := Step(n, Write(p));
    if n'.snd != n.snd {
      forall f | FromSender(n.snd, f) ensures FromSender(n'.snd, f) { GrownSlice(n.snd, p, f); }
      assert n'.snd.written[..n.readOffset] == n.snd.written[..n.readOffset];
      assert n'.snd.written[n.snd.writeOffset..] == p by { assert |n.snd.dataForWriting| == |n.snd.written| - n.snd.writeOffset; }
      if !n.dead { GrownIndex(n.rcv, n.snd.written, p); }
    }
  }

  lemma BuiltFrame<T>(s: Sender<T>, maxLen: nat)
    requires SenderOk(s)
    ensures var (f, s') := NextFrame(s, maxLen); SenderOk(s') && (f.Some? ==> FromSender(s', f.value))
    ensures NextFrame(s, maxLen).1.written == s.written && NextFrame(s, maxLen).1.finishedWriting == s.finishedWriting
    ensures s.finSent ==> NextFrame(s, maxLen).1.finSent
  {
    var k := Min(maxLen, |s.dataForWriting|);
    assert s.dataForWriting[..k] == s.written[s.writeOffset..s.writeOffset + k];
    assert s.dataForWriting[k..] == s.written[s.writeOffset + k..];
  }

  /** A split frame and its rest are again slices; the end marker stays with the rest. */
  lemma SplitFromSender<T>(s: Sender<T>, f: Frame<T>, room: nat)
    requires FromSender(s, f) && room > 0
    ensures var (front, rest) := SplitOff(f, room); FromSender(s, rest) && (front.Some? ==> FromSender(s, front.value))
  {
    if room < |f.data| {
      var (front, rest) := SplitOff(f, room);
      var mid := f.offset + room;
      assert front.value.data == f.data[0..room] == s.written[f.offset..mid] by { SliceOfSlice(s.written, f.offset, f.End(), f.offset, mid); }
      assert rest.data == f.data[room..|f.data|] == s.written[mid..f.End()] by { SliceOfSlice(s.written, f.offset, f.End(), mid, f.End()); }
      assert rest.End() == f.End() && front.value.End() == mid;
    }
  }

  lemma RestFromSender<T>(s: Sender<T>, g: Frame<T>, f: Frame<T>)
    requires FromSender(s, g) && Rest(g, f)
    ensures FromSender(s, f)
  {
    SliceOfSlice(s.written, g.offset, g.End(), f.offset, g.End());
    assert g.data[f.offset - g.offset..] == g.data[f.offset - g.offset..g.End() - g.offset];
  }

  lemma Retransmitted<T>(s: Sender<T>, room: nat)
    requires SenderOk(s)
    ensures var (f, s') := NextRetransmission(s, room); SenderOk(s') && (f.Some? ==> FromSender(s', f.value))
    ensures NextRetransmission(s, room).1.written == s.written && NextRetransmission(s, room).1.finishedWriting == s.finishedWriting
    ensures NextRetransmission(s, room).1.finSent == s.finSent
  {
    if s.retransmissionQueue != [] && room > 0 {
      SplitFromSender(s, s.retransmissionQueue[0], room);
      var s' := NextRetransmission(s, room).1;
      forall f | f in s'.retransmissionQueue
        ensures FromSender(s', f)
      {
        assert f == SplitOff(s.retransmissionQueue[0], room).1 || f in s.retransmissionQueue;
        assert FromSender(s, f);
      }
    }
  }

  lemma TransmitKeepsInv<T>(n: Net<T>, r: (Option<Frame<T>>, Sender<T>))
    requires Inv(n) && SenderOk(r.1) && r.1.written == n.snd.written && r.1.finishedWriting == n.snd.finishedWriting
    requires n.snd.finSent ==> r.1.finSent
    requires r.0.Some? ==> FromSender(r.1, r.0.value)
    ensures Inv(Transmit(n, r))
  {
    forall f | f in Transmit(n, r).sent
      ensures FromSender(r.1, f)
    {
      assert f in n.sent ==> FromSender(n.snd, f);
    }
  }

  /** A reader in the middle of a frame is not disturbed by arrivals. */
  lemma AcceptedKeepsReader<T>(s: Sorter<T>, f: Frame<T>, s': Sorter<T>, readOffset: nat)
    requires Accepted(s, f, s') && ReadOk(s, readOffset) && forall o :: o in s.queued ==> s.queued[o].offset == o
    ensures ReadOk(s', readOffset)
  {}

  /** The queue after a push: new entries carry a marker only if the frame does. */
  ghost predicate MarkersFrom<T>(s: Sorter<T>, f: Frame<T>, s': Sorter<T>) {
    forall o :: o in s'.queued && s'.queued[o].fin ==> f.fin || (o in s.queued && s.queued[o].fin)
  }

  lemma {:induction false} PushedMarkers<T>(s: Sorter<T>, f: Frame<T>, from: nat)
    requires GapsOk(s.gaps) && f.offset <= from < f.End()
    ensures MarkersFrom(s, f, PushedFrom(s, f, from).1)
  {
    var end := f.End();
    var g := FirstGap(s.gaps, from, end, 0);
    if g < |s.gaps| && s.gaps[g].start < end && LastGap(s.gaps, end, g).Some? {
      var h := LastGap(s.gaps, end, g).value;
      EndsIncrease(s.gaps, g, h);
      PlacedMarkers(s, f, g, h, Max(from, s.gaps[g].start), Min(end, s.gaps[h].end));
    }
  }

  lemma {:induction false} PlacedMarkers<T>(s: Sorter<T>, f: Frame<T>, g: nat, h: nat, start: nat, end: nat)
    requires g <= h < |s.gaps| && f.offset <= start <= end <= f.End()
    ensures MarkersFrom(s, f, Placed(s, f, g, h, start, end).1)
  {
  }

  /** Queued end markers come from frames that carried one. */
  lemma {:induction false} MarkersComeFromFrames<T>(s: Sorter<T>, f: Frame<T>)
    requires GapsOk(s.gaps)
    ensures MarkersFrom(s, f, Pushed(s, f).1)
  {
    if f.data != [] && CutStart(s, f) < f.End() {
      PushedMarkers(s, f, CutStart(s, f));
    }
  }

  lemma {:induction false} DeliverReceiver<T>(n: Net<T>, f: Frame<T>)
    requires Inv(n) && f in n.sent && !n.dead
    ensures var (r, rcv) := Pushed(n.rcv, f); r.Queued? || r.DuplicateData? ==> ReceiverOk(n.(rcv := rcv))
  {
    assert FromSender(n.snd, f);
    PushKeepsIndex(n.rcv, n.snd.written, f);
    var (r, rcv) := Pushed(n.rcv, f);
    if r.Queued? || r.DuplicateData? {
      AcceptedKeepsReader(n.rcv, f, rcv, n.readOffset);
      QueuedWithinLimit(n.rcv, f);
      MarkersComeFromFrames(n.rcv, f);
    }
  }

  lemma {:induction false} DeliverKeepsInv<T>(n: Net<T>, f: Frame<T>)
    requires Inv(n)
    ensures Inv(Step(n, Deliver(f)))
  {
    if f in n.sent && !n.dead {
      DeliverReceiver(n, f);
    }
  }

  lemma ReadKeepsInv<T>(n: Net<T>, space: nat)
    requires Inv(n)
    ensures Inv(Step(n, ReadRound(space)))
  {
    ReadStep(n, space);
    if !n.dead && HeadReady(n) { HeadKeepsInv(n, space); }
  }

  lemma HeadKeepsInv<T>(n: Net<T>, space: nat)
    requires Inv(n) && !n.dead && HeadReady(n)
    ensures Inv(ReadHead(n, space))
  {
    TakeBytes(n.rcv, n.snd.written, n.readOffset, space);
    TakeKeeps(n.rcv, n.snd.written, n.readOffset, space);
    var (bytes, rcv, readOffset) := Take(n.rcv, n.readOffset, space);
    SliceJoin(n.snd.written, 0, n.readOffset, readOffset);
    TakeKeepsFrames(n.rcv, n.readOffset, space);
  }

  lemma TakeKeepsFrames<T>(s: Sorter<T>, readOffset: nat, space: nat)
    requires s.readPosition in s.queued && s.queued[s.readPosition].offset <= readOffset <= s.queued[s.readPosition].End()
    ensures forall o :: o in Take(s, readOffset, space).1.queued ==> o in s.queued && Take(s, readOffset, space).1.queued[o] == s.queued[o]
  {}

  lemma SendKeepsInv<T>(n: Net<T>, maxLen: nat)
    requires Inv(n)
    ensures Inv(Step(n, SendNew(maxLen)))
  {
    BuiltFrame(n.snd, maxLen);
    TransmitKeepsInv(n, NextFrame(n.snd, maxLen));
  }

  lemma ResendKeepsInv<T>(n: Net<T>, room: nat)
    requires Inv(n)
    ensures Inv(Step(n, Resend(room)))
  {
    Retransmitted(n.snd, room);
    TransmitKeepsInv(n, NextRetransmission(n.snd, room));
  }

  ghost function Requeued<T>(n: Net<T>, f: Frame<T>): Net<T> {
    n.(snd := n.snd.(retransmissionQueue := n.snd.retransmissionQueue + [f]))
  }

  lemma RequeuedKeepsInv<T>(n: Net<T>, f: Frame<T>)
    requires Inv(n) && FromSender(n.snd, f)
    ensures Inv(Requeued(n, f))
  {
    var snd := Requeued(n, f).snd;
    forall g | FromSender(n.snd, g) ensures FromSender(snd, g) {}
    forall g | g in snd.retransmissionQueue ensures FromSender(snd, g) { assert g in n.snd.retransmissionQueue || g == f; }
  }

  lemma LostKeepsInv<T>(n: Net<T>, f: Frame<T>)
    requires Inv(n)
    ensures Inv(Step(n, DeclareLost(f)))
  {
    if g :| g in n.sent && Rest(g, f) {
      RestFromSender(n.snd, g, f);
      RequeuedKeepsInv(n, f);
    }
  }

  lemma StepKeepsInv<T>(n: Net<T>, e: Event<T>)
    requires Inv(n)
    ensures Inv(Step(n, e))
  {
    match e
    case Write(p) => WriteKeepsInv(n, p);
    case Close =>
      forall f | FromSender(n.snd, f) ensures FromSender(Step(n, Close).snd, f) {}
    case SendNew(maxLen) => SendKeepsInv(n, maxLen);
    case DeclareLost(f) => LostKeepsInv(n, f);
    case Resend(room) => ResendKeepsInv(n, room);
    case Deliver(f) => DeliverKeepsInv(n, f);
    case ReadRound(space) => ReadKeepsInv(n, space);
  }

  /** The state after further events. */
  ghost function After<T>(n: Net<T>, events: seq<Event<T>>): Net<T> {
    if events == [] then n else Step(After(n, events[..|events| - 1]), events[|events| - 1])
  }

  ghost function Run<T>(events: seq<Event<T>>): Net<T> {
    After(Begin(), events)
  }

  lemma BeginInv<T>()
    ensures Inv(Begin<T>())
  {
    assert Begin<T>().rcv.gaps[0] == Gap(0, MaxByteCount);
  }

  lemma {:induction false} AfterInv<T>(n: Net<T>, events: seq<Event<T>>)
    requires Inv(n)
    ensures Inv(After(n, events))
  {
    if events != [] {
      AfterInv(n, events[..|events| - 1]);
      StepKeepsInv(After(n, events[..|events| - 1]), events[|events| - 1]);
    }
  }

  lemma RunInv<T>(events: seq<Event<T>>)
    ensures Inv(Run(events))
  {
    BeginInv<T>();
    AfterInv(Begin(), events);
  }

  /** Byte-stream safety: whatever is lost, duplicated, reordered, split or retransmitted, the bytes read
      so far are a prefix of the bytes written so far. */
  lemma ReadsArePrefix<T>(events: seq<Event<T>>)
    ensures var n := Run(events); n.output <= n.snd.written && |n.output| == n.readOffset
  {
    RunInv(events);
  }

  // ---------- what was delivered ----------

  /** The network hands over a frame with byte `x`. */
  ghost predicate Delivers<T>(n: Net<T>, e: Event<T>, x: nat) {
    e.Deliver? && e.frame in n.sent && e.frame.offset <= x < e.frame.End()
  }

  /** Byte `x` was in a frame delivered at some point. */
  ghost predicate Delivered<T>(events: seq<Event<T>>, x: nat) {
    events != [] && (Delivered(events[..|events| - 1], x) || Delivers(Run(events[..|events| - 1]), events[|events| - 1], x))
  }

  lemma {:induction false} ReceiveGaps<T>(n: Net<T>, f: Frame<T>, x: nat)
    requires Inv(n) && !n.dead && f in n.sent && !Receive(n, f).dead
    ensures Missing(Receive(n, f).rcv.gaps, x) <==> Missing(n.rcv.gaps, x) && !(f.offset <= x < f.End())
  {
    assert FromSender(n.snd, f);
    PushKeepsIndex(n.rcv, n.snd.written, f);
  }

  lemma {:induction false} ReadGaps<T>(n: Net<T>, space: nat)
    ensures Step(n, ReadRound(space)).rcv.gaps == n.rcv.gaps && Step(n, ReadRound(space)).dead == n.dead
  {}

  lemma {:induction false} StepGaps<T>(n: Net<T>, e: Event<T>, x: nat)
    requires Inv(n) && !Step(n, e).dead
    ensures !n.dead && (Missing(Step(n, e).rcv.gaps, x) <==> Missing(n.rcv.gaps, x) && !Delivers(n, e, x))
  {
    match e
    case Deliver(f) => if f in n.sent && !n.dead { ReceiveGaps(n, f, x); }
    case ReadRound(space) => ReadGaps(n, space);
    case _ =>
  }

  /** While the receiver lives, its gap list is exactly the complement of the bytes delivered to it. */
  lemma {:induction false} GapsAreUndelivered<T>(events: seq<Event<T>>, x: nat)
    requires !Run(events).dead
    ensures Missing(Run(events).rcv.gaps, x) <==> x < MaxByteCount && !Delivered(events, x)
  {
    if events == [] {
      var gaps := Begin<T>().rcv.gaps;
      assert x < MaxByteCount ==> gaps[0].start <= x < gaps[0].end;
    } else {
      var before, e := events[..|events| - 1], events[|events| - 1];
      RunInv(before);
      StepGaps(Run(before), e, x);
      GapsAreUndelivered(before, x);
    }
  }

  /** A reader with room gets something exactly when it has not used up an end marker and the next byte has
      been delivered. */
  lemma {:induction false} ArrivedCanBeRead<T>(events: seq<Event<T>>, space: nat)
    requires !Run(events).dead && space > 0
    ensures var n := Run(events);
      |Step(n, ReadRound(space)).output| > |n.output| <==> !n.finished && Delivered(events, n.readOffset)
  {
    var n := Run(events);
    RunInv(events);
    GapsAreUndelivered(events, n.readOffset);
    if !n.finished { ReadsIffArrived(n, space); }
  }

  lemma {:induction false} RoundBytes<T>(s: Sorter<T>, stream: seq<T>, readOffset: nat, space: nat)
    requires Indexed(s, stream) && ReadOk(s, readOffset) && s.readPosition in s.queued && space > 0
    ensures s.queued[s.readPosition].offset <= readOffset <= s.queued[s.readPosition].End()
    ensures |Take(s, readOffset, space).0| > 0 <==> s.queued[s.readPosition].data != []
  {
    TakeBytes(s, stream, readOffset, space);
  }

  lemma {:induction false} HeadBytes<T>(n: Net<T>, space: nat)
    requires Inv(n) && !n.dead && n.rcv.readPosition in n.rcv.queued && space > 0
    ensures HeadReady(n) && (|ReadHead(n, space).output| > |n.output| <==> n.rcv.queued[n.rcv.readPosition].data != [])
  {
    RoundBytes(n.rcv, n.snd.written, n.readOffset, space);
  }

  lemma {:induction false} ReadStep<T>(n: Net<T>, space: nat)
    ensures Step(n, ReadRound(space)) == if n.dead || n.finished || space == 0 || !HeadReady(n) then n else ReadHead(n, space)
  {}

  lemma {:induction false} ReadsIffArrived<T>(n: Net<T>, space: nat)
    requires Inv(n) && !n.dead && !n.finished && space > 0
    ensures |Step(n, ReadRound(space)).output| > |n.output| <==> !Missing(n.rcv.gaps, n.readOffset)
  {
    ReadStep(n, space);
    ReadableHead(n.rcv, n.snd.written, n.readOffset);
    if n.rcv.readPosition in n.rcv.queued { HeadBytes(n, space); }
  }

  lemma {:induction false} ReadableHead<T>(s: Sorter<T>, stream: seq<T>, readOffset: nat)
    requires Indexed(s, stream) && ReadOk(s, readOffset)
    ensures !Missing(s.gaps, readOffset) <==> s.readPosition in s.queued && s.queued[s.readPosition].data != []
  {
    ArrivedMeansHead(s, stream);
    assert s.readPosition in s.queued ==> FrameOk(s, stream, s.readPosition);
  }
}
