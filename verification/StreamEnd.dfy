/** Where the reader of a stream is told that it ended.

    Push keeps the end marker on a frame whose tail it cuts off, so the marker may come to stand in front of
    bytes of the stream.  A reader that uses up such a frame stops there for good. */
module StreamEnd {
  import opened Reassembly
  import opened ByteStream
  import opened StreamSystem
  import opened Folds

  /** The reader was told that the stream ended, and was not given all of it. */
  ghost predicate EndsEarly<T>(n: Net<T>) {
    n.finished && n.readOffset < |n.snd.written|
  }

  /** A delivery that makes the receiver queue an end marker in front of bytes of the stream. */
  ghost predicate Cuts<T>(n: Net<T>, e: Event<T>) {
    !n.dead && !n.finished && e.Deliver? && e.frame in n.sent && CutsEnd(n.rcv.gaps, e.frame)
  }

  ghost predicate Uncut<T>(n: Net<T>, events: seq<Event<T>>) {
    events == [] || (Uncut(n, events[..|events| - 1]) && !Cuts(After(n, events[..|events| - 1]), events[|events| - 1]))
  }

  /** Every end marker queued stands at the end of the stream, and so does a reader that has finished. */
  ghost predicate Unspoiled<T>(n: Net<T>) {
    && (n.finished ==> n.readOffset == |n.snd.written|)
    && (!n.dead && !n.finished ==> forall o :: o in n.rcv.queued && n.rcv.queued[o].fin ==> n.rcv.queued[o].End() == |n.snd.written|)
  }

  lemma {:induction false} ReceiveUnspoiled<T>(n: Net<T>, f: Frame<T>)
    requires Inv(n) && Unspoiled(n) && !n.dead && !n.finished && f in n.sent && !CutsEnd(n.rcv.gaps, f)
    ensures Unspoiled(Receive(n, f))
  {
    assert FromSender(n.snd, f);
    var s, stream := n.rcv, n.snd.written;
    assert Indexed(s, stream) && Honest(stream, f);
    var r, rcv := Pushed(s, f).0, Pushed(s, f).1;
    forall o | o in rcv.queued && rcv.queued[o].fin ensures rcv.queued[o].End() == |stream| { UncutMarks(s, stream, f, rcv, o); }
    assert Receive(n, f) == if r.Queued? || r.DuplicateData? then n.(rcv := rcv) else n.(dead := true);
  }

  lemma {:induction false} ReadUnspoiled<T>(n: Net<T>, space: nat)
    requires Inv(n) && Unspoiled(n) && !n.dead && !n.finished && HeadReady(n)
    ensures Unspoiled(ReadHead(n, space))
  {
    TakeBytes(n.rcv, n.snd.written, n.readOffset, space);
    TakeKeepsFrames(n.rcv, n.readOffset, space);
  }

  lemma {:induction false} StepUnspoiled<T>(n: Net<T>, e: Event<T>)
    requires Inv(n) && Unspoiled(n) && !Cuts(n, e)
    ensures Unspoiled(Step(n, e))
  {
    match e
    case Deliver(f) => if f in n.sent && !n.dead && !n.finished { ReceiveUnspoiled(n, f); }
    case ReadRound(space) => if !n.dead && !n.finished && HeadReady(n) { ReadUnspoiled(n, space); }
    case SendNew(maxLen) => BuiltFrame(n.snd, maxLen);
    case Resend(room) => Retransmitted(n.snd, room);
    case _ =>
  }

  lemma {:induction false} UncutUnspoiled<T>(n: Net<T>, events: seq<Event<T>>)
    requires Inv(n) && Unspoiled(n) && Uncut(n, events)
    ensures Unspoiled(After(n, events))
  {
    if events != [] {
      var before := events[..|events| - 1];
      UncutUnspoiled(n, before);
      AfterInv(n, before);
      StepUnspoiled(After(n, before), events[|events| - 1]);
    }
  }

  /** Without such a delivery, a reader that was told the end has read everything written. */
  lemma EndIsTheEnd<T>(events: seq<Event<T>>)
    requires Uncut(Begin(), events)
    ensures Run(events).finished ==> Run(events).output == Run(events).snd.written
  {
    BeginInv<T>();
    UncutUnspoiled(Begin(), events);
    RunInv(events);
  }

  // ---------- the way to a queued frame ----------

  function Len<T>(q: map<nat, Frame<T>>, a: nat): nat {
    if a in q then |q[a].data| else 0
  }

  /** Following queued frames, and going byte by byte where there is none, leads from `a` to `o`. */
  ghost predicate Walk<T>(q: map<nat, Frame<T>>, a: nat, o: nat)
    decreases o - a
  {
    a == o || (a < o && if Len(q, a) > 0 then a + Len(q, a) <= o && Walk(q, a + Len(q, a), o) else Walk(q, a + 1, o))
  }

  lemma {:induction false} WalkDepends<T>(q: map<nat, Frame<T>>, q': map<nat, Frame<T>>, a: nat, o: nat)
    requires Walk(q, a, o) && forall x :: a <= x < o ==> Len(q', x) == Len(q, x)
    ensures Walk(q', a, o)
    decreases o - a
  {
    if a < o { WalkDepends(q, q', if Len(q, a) > 0 then a + Len(q, a) else a + 1, o); }
  }

  lemma {:induction false} WalkJoin<T>(q: map<nat, Frame<T>>, a: nat, b: nat, c: nat)
    requires Walk(q, a, b) && Walk(q, b, c)
    ensures Walk(q, a, c)
    decreases b - a
  {
    if a < b { WalkJoin(q, if Len(q, a) > 0 then a + Len(q, a) else a + 1, b, c); }
  }

  lemma {:induction false} WalkChain<T>(q: map<nat, Frame<T>>, a: nat, b: nat)
    requires Chain(q, a, b)
    ensures Walk(q, a, b)
    decreases b - a
  {
    if a < b { WalkChain(q, a + |q[a].data|, b); }
  }

  lemma {:induction false} WalkInGap<T>(s: Sorter<T>, stream: seq<T>, i: nat, a: nat, o: nat)
    requires Indexed(s, stream) && i < |s.gaps| && s.gaps[i].start <= a <= o <= s.gaps[i].end
    ensures Walk(s.queued, a, o)
    decreases o - a
  {
    if a < o {
      assert Missing(s.gaps, a);
      assert a in s.queued ==> FrameOk(s, stream, a);
      WalkInGap(s, stream, i, a + 1, o);
    }
  }

  lemma {:induction false} WalkRegions<T>(s: Sorter<T>, stream: seq<T>, i: nat, g: nat, x: nat)
    requires Indexed(s, stream) && i <= g < |s.gaps| && s.gaps[g].start <= x < s.gaps[g].end
    ensures Walk(s.queued, RegionStart(s, i), x)
    decreases g - i
  {
    var a, b := RegionStart(s, i), s.gaps[i].start;
    assert Chain(s.queued, a, b);
    WalkChain(s.queued, a, b);
    if i == g {
      WalkInGap(s, stream, i, b, x);
    } else {
      WalkInGap(s, stream, i, b, s.gaps[i].end);
      WalkRegions(s, stream, i + 1, g, x);
      WalkJoin(s.queued, b, s.gaps[i].end, x);
    }
    WalkJoin(s.queued, a, b, x);
  }

  lemma {:induction false} SameBefore<T>(s: Sorter<T>, g: nat, h: nat, part: Frame<T>, x: nat)
    requires GapsOk(s.gaps) && Spans(s.gaps, g, h, part.offset, part.End()) && x < part.offset
    ensures Len(Inserted(s, g, h, part).queued, x) == Len(s.queued, x)
  {
    if x in s.queued { QueuedElsewhere(s, g, h, part, x); }
  }

  /** A part queued at a missing byte can be reached by the reader. */
  lemma {:induction false} WalkToInserted<T>(s: Sorter<T>, stream: seq<T>, g: nat, h: nat, part: Frame<T>)
    requires Indexed(s, stream) && Spans(s.gaps, g, h, part.offset, part.End())
    ensures Walk(Inserted(s, g, h, part).queued, s.readPosition, part.offset)
  {
    var q := Inserted(s, g, h, part).queued;
    WalkRegions(s, stream, 0, g, part.offset);
    forall x | s.readPosition <= x < part.offset ensures Len(q, x) == Len(s.queued, x) { SameBefore(s, g, h, part, x); }
    WalkDepends(s.queued, q, s.readPosition, part.offset);
  }

  /** A marked frame that stops short of the end of the stream lies ahead of the reader. */
  ghost predicate MarkAhead<T>(n: Net<T>, o: nat) {
    && o in n.rcv.queued && n.rcv.queued[o].fin && n.rcv.queued[o].data != [] && n.rcv.queued[o].End() < |n.snd.written|
    && Walk(n.rcv.queued, n.rcv.readPosition, o)
  }

  lemma {:induction false} CutLeavesMark<T>(n: Net<T>, e: Event<T>) returns (o: nat)
    requires Inv(n) && Cuts(n, e)
    ensures !Step(n, e).dead && !Step(n, e).finished && MarkAhead(Step(n, e), o)
  {
    var s, stream, f := n.rcv, n.snd.written, e.frame;
    assert FromSender(n.snd, f);
    PushKeepsIndex(s, stream, f);
    CutIsQueued(s, stream, f);
    var g, h, start, cut := QueuedPart(s, stream, f);
    o := start;
    WalkToInserted(s, stream, g, h, Trimmed(f, start, cut));
    assert Step(n, e) == n.(rcv := Inserted(s, g, h, Trimmed(f, start, cut)));
  }

  // ---------- sending one byte again ----------

  ghost predicate Covered<T>(sent: seq<Frame<T>>, x: nat) {
    exists g :: g in sent && g.offset <= x < g.End()
  }

  /** Everything framed has been put on the wire. */
  ghost predicate AllSent<T>(n: Net<T>) {
    forall x :: 0 <= x < n.snd.writeOffset ==> Covered(n.sent, x)
  }

  lemma {:induction false} TransmitAllSent<T>(n: Net<T>, r: (Option<Frame<T>>, Sender<T>))
    requires AllSent(n)
    requires n.snd.writeOffset < r.1.writeOffset ==> r.0.Some? && r.0.value.offset <= n.snd.writeOffset && r.1.writeOffset <= r.0.value.End()
    ensures AllSent(Transmit(n, r))
  {
    var n' := Transmit(n, r);
    forall x | 0 <= x < r.1.writeOffset
      ensures Covered(n'.sent, x)
    {
      if x < n.snd.writeOffset {
        assert Covered(n.sent, x);
        var g :| g in n.sent && g.offset <= x < g.End();
        assert g in n'.sent;
      } else {
        assert r.0.value in n'.sent;
      }
    }
  }

  lemma {:induction false} StepAllSent<T>(n: Net<T>, e: Event<T>)
    requires AllSent(n)
    ensures AllSent(Step(n, e))
  {
    match e
    case SendNew(maxLen) => TransmitAllSent(n, NextFrame(n.snd, maxLen));
    case Resend(room) => TransmitAllSent(n, NextRetransmission(n.snd, room));
    case _ =>
  }

  lemma {:induction false} AfterAllSent<T>(n: Net<T>, events: seq<Event<T>>)
    requires AllSent(n)
    ensures AllSent(After(n, events))
  {
    if events != [] {
      AfterAllSent(n, events[..|events| - 1]);
      StepAllSent(After(n, events[..|events| - 1]), events[|events| - 1]);
    }
  }

  lemma {:induction false} AfterSnoc<T>(n: Net<T>, events: seq<Event<T>>, e: Event<T>)
    ensures After(n, events + [e]) == Step(After(n, events), e)
    ensures Uncut(n, events + [e]) <==> Uncut(n, events) && !Cuts(After(n, events), e)
  {
    assert (events + [e])[..|events|] == events;
  }

  lemma {:induction false} AfterIsFold<T>(n: Net<T>, events: seq<Event<T>>)
    ensures After(n, events) == Fold((m, e) => Step(m, e), n, events)
  {
    if events != [] { AfterIsFold(n, events[..|events| - 1]); }
  }

  lemma {:induction false} AfterJoin<T>(n: Net<T>, a: seq<Event<T>>, b: seq<Event<T>>)
    ensures After(n, a + b) == After(After(n, a), b)
  {
    AfterIsFold(n, a + b);
    AfterIsFold(n, a);
    AfterIsFold(After(n, a), b);
    FoldAppend((m, e) => Step(m, e), n, a, b);
  }

  lemma {:induction false} UncutJoin<T>(n: Net<T>, a: seq<Event<T>>, b: seq<Event<T>>)
    ensures Uncut(n, a + b) <==> Uncut(n, a) && Uncut(After(n, a), b)
  {
    if b == [] {
      assert a + b == a;
    } else {
      var front, e := b[..|b| - 1], b[|b| - 1];
      UncutJoin(n, a, front);
      AfterJoin(n, a, front);
      assert a + b == (a + front) + [e];
      AfterSnoc(n, a + front, e);
    }
  }

  /** Only the sender did something. */
  ghost predicate Quiet<T>(n: Net<T>, n': Net<T>) {
    n' == n.(snd := n'.snd, sent := n'.sent) && n'.snd.written == n.snd.written && n'.snd.writeOffset == n.snd.writeOffset
  }

  /** The first frames of the retransmission queue go out whole. */
  lemma {:induction false} Flush<T>(n: Net<T>, k: nat) returns (events: seq<Event<T>>)
    requires Inv(n) && k <= |n.snd.retransmissionQueue|
    ensures Uncut(n, events) && Quiet(n, After(n, events))
    ensures After(n, events).snd.retransmissionQueue == n.snd.retransmissionQueue[k..]
  {
    events := [];
    if k > 0 {
      var front := Flush(n, k - 1);
      var m, room := After(n, front), |n.snd.written| + 1;
      AfterInv(n, front);
      AfterSnoc(n, front, Resend(room));
      var head := m.snd.retransmissionQueue[0];
      assert FromSender(m.snd, head);
      events := front + [Resend(room)];
    }
  }

  ghost predicate ByteSent<T>(n: Net<T>, x: nat) {
    exists f :: f in n.sent && f.offset == x && |f.data| == 1
  }

  lemma {:induction false} SplitHead<T>(n: Net<T>, g: Frame<T>, k: nat)
    requires n.snd.retransmissionQueue == [g] && 0 < k < |g.data|
    ensures Step(n, Resend(k)).snd.retransmissionQueue == [Frame(g.offset + k, g.data[k..], g.fin)] && Quiet(n, Step(n, Resend(k)))
  {}

  lemma {:induction false} ResendByte<T>(n: Net<T>, h: Frame<T>)
    requires n.snd.retransmissionQueue == [h] && h.data != []
    ensures Quiet(n, Step(n, Resend(1))) && ByteSent(Step(n, Resend(1)), h.offset)
  {
    var out := NextRetransmission(n.snd, 1).0.value;
    assert out.offset == h.offset && |out.data| == 1;
    assert out in n.sent + [out];
  }

  /** Of the only frame in the queue, byte `x` can be sent alone. */
  lemma {:induction false} SplitToByte<T>(n: Net<T>, g: Frame<T>, x: nat) returns (events: seq<Event<T>>)
    requires n.snd.retransmissionQueue == [g] && g.offset <= x < g.End()
    ensures Uncut(n, events) && Quiet(n, After(n, events)) && ByteSent(After(n, events), x)
  {
    events := [];
    var h := g;
    if g.offset < x {
      SplitHead(n, g, x - g.offset);
      AfterSnoc(n, [], Resend(x - g.offset));
      events, h := [Resend(x - g.offset)], Frame(x, g.data[x - g.offset..], g.fin);
    }
    ResendByte(After(n, events), h);
    AfterSnoc(n, events, Resend(1));
    events := events + [Resend(1)];
  }

  lemma {:induction false} DeclaredLost<T>(n: Net<T>, g: Frame<T>)
    requires g in n.sent
    ensures Step(n, DeclareLost(g)) == n.(snd := n.snd.(retransmissionQueue := n.snd.retransmissionQueue + [g]))
  {
    assert Rest(g, g);
  }

  /** Every byte framed can be put on the wire once more, alone in a frame. */
  lemma {:induction false} SendByte<T>(n: Net<T>, x: nat) returns (events: seq<Event<T>>)
    requires Inv(n) && AllSent(n) && x < n.snd.writeOffset
    ensures Uncut(n, events) && Quiet(n, After(n, events)) && ByteSent(After(n, events), x)
  {
    assert Covered(n.sent, x);
    var g :| g in n.sent && g.offset <= x < g.End();
    var lost := [DeclareLost(g)];
    DeclaredLost(n, g);
    AfterSnoc(n, [], DeclareLost(g));
    var n1 := After(n, lost);
    AfterInv(n, lost);
    var whole := Flush(n1, |n.snd.retransmissionQueue|);
    var n2 := After(n1, whole);
    assert n2.snd.retransmissionQueue == [g];
    var split := SplitToByte(n2, g, x);
    AfterJoin(n, lost, whole);
    UncutJoin(n, lost, whole);
    AfterJoin(n, lost + whole, split);
    UncutJoin(n, lost + whole, split);
    events := lost + whole + split;
  }

  // ---------- the end comes early exactly after a cut ----------

  lemma {:induction false} InsertedAlone<T>(s: Sorter<T>, f: Frame<T>)
    requires s.gaps != []
    ensures Inserted(s, 0, 0, f).queued == s.queued[f.offset := f]
  {}

  lemma {:induction false} OnlyFirstGap(gaps: seq<Gap>, g: nat, h: nat, start: nat)
    requires GapsOk(gaps) && Spans(gaps, g, h, start, start + 1) && start == gaps[0].start
    ensures g == h == 0
  {}

  lemma {:induction false} FirstByteFits<T>(s: Sorter<T>, stream: seq<T>, f: Frame<T>)
    requires Indexed(s, stream) && |s.gaps| <= MaxStreamFrameSorterGaps && Honest(stream, f)
    requires |f.data| == 1 && f.offset == s.gaps[0].start
    ensures Pushed(s, f).0.Queued? && !CutsEnd(s.gaps, f)
  {
    assert Missing(s.gaps, f.offset);
    PushKeepsIndex(s, stream, f);
    TooManyGapsIff(s, stream, f);
    NewFrameResult(s, stream, f);
  }

  /** The first missing byte, arriving alone, is queued as it is. */
  lemma {:induction false} FirstByteQueued<T>(s: Sorter<T>, stream: seq<T>, f: Frame<T>)
    requires Indexed(s, stream) && |s.gaps| <= MaxStreamFrameSorterGaps && Honest(stream, f)
    requires |f.data| == 1 && f.offset == s.gaps[0].start
    ensures Pushed(s, f).0.Queued? && !CutsEnd(s.gaps, f)
    ensures Pushed(s, f).1.queued == s.queued[f.offset := f] && Pushed(s, f).1.readPosition == s.readPosition
  {
    FirstByteFits(s, stream, f);
    var g, h, start, cut := QueuedPart(s, stream, f);
    OnlyFirstGap(s.gaps, g, h, start);
    assert Trimmed(f, start, cut) == f;
    InsertedAlone(s, f);
  }

  /** A byte queued at the read position is on the way to the mark. */
  lemma {:induction false} MarkStaysAhead<T>(n: Net<T>, m: Net<T>, f: Frame<T>, o: nat)
    requires MarkAhead(n, o) && n.rcv.readPosition !in n.rcv.queued && |f.data| == 1
    requires m.snd == n.snd && m.rcv.readPosition == n.rcv.readPosition && m.rcv.queued == n.rcv.queued[n.rcv.readPosition := f]
    ensures MarkAhead(m, o)
  {
    WalkDepends(n.rcv.queued, m.rcv.queued, n.rcv.readPosition + 1, o);
  }

  lemma {:induction false} Accepts<T>(n: Net<T>, f: Frame<T>)
    requires GapsOk(n.rcv.gaps) && !n.dead && f in n.sent && Pushed(n.rcv, f).0.Queued?
    ensures Step(n, Deliver(f)) == n.(rcv := Pushed(n.rcv, f).1)
  {}

  lemma {:induction false} DeliverByte<T>(n: Net<T>, o: nat, f: Frame<T>)
    requires Inv(n) && !n.dead && !n.finished && MarkAhead(n, o) && n.rcv.readPosition !in n.rcv.queued
    requires f in n.sent && |f.data| == 1 && f.offset == n.rcv.readPosition == n.rcv.gaps[0].start
    ensures !Cuts(n, Deliver(f))
    ensures var m := Step(n, Deliver(f));
      && !m.dead && !m.finished && m.rcv.readPosition == n.rcv.readPosition && m.rcv.readPosition in m.rcv.queued && MarkAhead(m, o)
  {
    assert FromSender(n.snd, f);
    FirstByteQueued(n.rcv, n.snd.written, f);
    Accepts(n, f);
    MarkStaysAhead(n, Step(n, Deliver(f)), f, o);
  }

  lemma {:induction false} BringByte<T>(n: Net<T>, o: nat) returns (events: seq<Event<T>>)
    requires Inv(n) && AllSent(n) && !n.dead && !n.finished && MarkAhead(n, o) && n.rcv.readPosition !in n.rcv.queued
    ensures Uncut(n, events)
    ensures var m := After(n, events);
      && !m.dead && !m.finished && m.rcv.readPosition == n.rcv.readPosition && m.rcv.readPosition in m.rcv.queued && MarkAhead(m, o)
  {
    NothingToRead(n.rcv, n.snd.written, n.readOffset);
    assert n.snd.finSent && n.snd.writeOffset == |n.snd.written|;
    var sending := SendByte(n, n.rcv.readPosition);
    var m := After(n, sending);
    AfterInv(n, sending);
    var f :| f in m.sent && f.offset == n.rcv.readPosition && |f.data| == 1;
    DeliverByte(m, o, f);
    AfterSnoc(n, sending, Deliver(f));
    events := sending + [Deliver(f)];
  }

  lemma {:induction false} WholeHead<T>(s: Sorter<T>, stream: seq<T>, readOffset: nat, space: nat)
    requires Indexed(s, stream) && ReadOk(s, readOffset) && s.readPosition in s.queued && space > |stream|
    ensures var head := s.queued[s.readPosition];
      && head.offset == s.readPosition && head.offset <= readOffset <= head.End() <= |stream|
      && Take(s, readOffset, space).1 == Popped(s) && Take(s, readOffset, space).2 == head.End()
  {
    HeadContains(s, stream, readOffset);
  }

  /** A round with enough room uses up the head frame. */
  lemma {:induction false} HeadUsedUp<T>(n: Net<T>)
    requires Inv(n) && !n.dead && !n.finished && n.rcv.readPosition in n.rcv.queued
    ensures var head, m := n.rcv.queued[n.rcv.readPosition], Step(n, ReadRound(|n.snd.written| + 1));
      && n.rcv.readPosition == head.offset && m.dead == n.dead && m.snd == n.snd
      && m.rcv == Popped(n.rcv) && m.readOffset == head.End() && m.finished == head.fin
  {
    WholeHead(n.rcv, n.snd.written, n.readOffset, |n.snd.written| + 1);
    ReadStep(n, |n.snd.written| + 1);
  }

  lemma {:induction false} MarkBehindHead<T>(n: Net<T>, m: Net<T>, o: nat)
    requires MarkAhead(n, o) && n.rcv.readPosition in n.rcv.queued && n.rcv.readPosition < o
    requires n.rcv.queued[n.rcv.readPosition].offset == n.rcv.readPosition && n.rcv.queued[n.rcv.readPosition].data != []
    requires m.snd == n.snd && m.rcv == Popped(n.rcv)
    ensures n.rcv.queued[n.rcv.readPosition].End() <= o && MarkAhead(m, o)
  {
    assert Len(n.rcv.queued, n.rcv.readPosition) == |n.rcv.queued[n.rcv.readPosition].data|;
    WalkDepends(n.rcv.queued, m.rcv.queued, n.rcv.queued[n.rcv.readPosition].End(), o);
  }

  /** It leads on to the mark, or ends the stream early. */
  lemma {:induction false} UseHead<T>(n: Net<T>, o: nat)
    requires Inv(n) && !n.dead && !n.finished && MarkAhead(n, o) && n.rcv.readPosition in n.rcv.queued
    ensures var m := Step(n, ReadRound(|n.snd.written| + 1));
      && !m.dead && n.rcv.readPosition < m.rcv.readPosition
      && (EndsEarly(m) || (!m.finished && m.rcv.readPosition <= o && MarkAhead(m, o)))
  {
    var p, m := n.rcv.readPosition, Step(n, ReadRound(|n.snd.written| + 1));
    HeadUsedUp(n);
    assert FrameOk(n.rcv, n.snd.written, p) && FrameOk(n.rcv, n.snd.written, o);
    assert p <= o;
    if p < o { MarkBehindHead(n, m, o); }
  }

  /** From a state with a short marked frame ahead, the reader can be brought to an early end. */
  lemma {:induction false} MarkEndsEarly<T>(n: Net<T>, o: nat) returns (events: seq<Event<T>>)
    requires Inv(n) && AllSent(n) && !n.dead && !n.finished && MarkAhead(n, o) && n.rcv.readPosition <= o
    ensures Uncut(n, events) && EndsEarly(After(n, events))
    decreases o - n.rcv.readPosition, if n.rcv.readPosition in n.rcv.queued then 0 else 1
  {
    var first;
    if n.rcv.readPosition in n.rcv.queued {
      UseHead(n, o);
      first := [ReadRound(|n.snd.written| + 1)];
      AfterSnoc(n, [], ReadRound(|n.snd.written| + 1));
    } else {
      first := BringByte(n, o);
    }
    events := first;
    var m := After(n, first);
    if !EndsEarly(m) {
      AfterInv(n, first);
      AfterAllSent(n, first);
      var rest := MarkEndsEarly(m, o);
      AfterJoin(n, first, rest);
      UncutJoin(n, first, rest);
      events := first + rest;
    }
  }

  /** After a run without such a delivery, the next event opens the way to an early end, one that needs no
      other such delivery, exactly when it is one. */
  lemma {:induction false} EndsEarlyIff<T(!new)>(events: seq<Event<T>>, e: Event<T>)
    requires Uncut(Begin(), events)
    ensures Cuts(Run(events), e) <==> exists rest :: Uncut(Run(events + [e]), rest) && EndsEarly(Run(events + [e] + rest))
  {
    var n, all := Run(events), events + [e];
    RunInv(events);
    AfterSnoc(Begin(), events, e);
    if Cuts(n, e) {
      var o := CutLeavesMark(n, e);
      RunInv(all);
      AfterAllSent(Begin<T>(), all);
      var rest := MarkEndsEarly(Run(all), o);
      AfterJoin(Begin(), all, rest);
      UncutJoin(Begin(), all, rest);
    } else {
      forall rest | Uncut(Run(all), rest)
        ensures !EndsEarly(Run(all + rest))
      {
        AfterJoin(Begin(), all, rest);
        UncutJoin(Begin(), all, rest);
        EndIsTheEnd(all + rest);
        RunInv(all + rest);
      }
    }
  }

  // ---------- a call of Read as rounds of the system ----------

  /** What the reader becomes when a read of the whole call ends with `r`. */
  ghost function WithReading<T>(n: Net<T>, r: Reading<T>): Net<T> {
    n.(rcv := r.sorter, readOffset := r.readOffset, output := n.output + r.data, finished := n.finished || r.status == Eof)
  }

  /** The reading after one round. */
  ghost function RoundReading<T>(s: Sorter<T>, readOffset: nat, len: nat): Reading<T>
    requires HeadFits(s, readOffset)
  {
    var (bytes, s', readOffset') := Take(s, readOffset, len);
    Reading(bytes, s', readOffset', if TakesEnd(s, readOffset, len) then Eof else Ok)
  }

  /** One round of the system does what one round of Read does. */
  lemma {:induction false} RoundIsRound<T>(n: Net<T>, len: nat)
    requires !n.dead && !n.finished && len > 0 && HeadFits(n.rcv, n.readOffset)
    ensures After(n, [ReadRound(len)]) == WithReading(n, RoundReading(n.rcv, n.readOffset, len))
  {
    ReadStep(n, len);
    AfterSnoc(n, [], ReadRound(len));
  }

  lemma {:induction false} WithReadingJoins<T>(n: Net<T>, r: Reading<T>, rest: Reading<T>)
    requires r.status == Ok
    ensures WithReading(WithReading(n, r), rest) == WithReading(n, rest.(data := r.data + rest.data))
  {
    assert n.output + r.data + rest.data == n.output + (r.data + rest.data);
  }

  lemma {:induction false} NothingRead<T>(n: Net<T>, len: nat)
    requires len == 0 || !HeadFits(n.rcv, n.readOffset)
    ensures WithReading(n, Rounds(n.rcv, n.readOffset, len)) == n
  {
    assert n.output + [] == n.output;
  }

  ghost predicate OnlyRounds<T>(events: seq<Event<T>>) {
    forall i :: 0 <= i < |events| ==> events[i].ReadRound?
  }

  lemma {:induction false} RoundAndRest<T>(n: Net<T>, len: nat, rest: seq<Event<T>>)
    requires !n.dead && !n.finished && len > 0 && HeadFits(n.rcv, n.readOffset) && !TakesEnd(n.rcv, n.readOffset, len)
    requires var r := RoundReading(n.rcv, n.readOffset, len);
      |r.data| <= len && After(WithReading(n, r), rest) == WithReading(WithReading(n, r), Rounds(r.sorter, r.readOffset, len - |r.data|))
    ensures After(n, [ReadRound(len)] + rest) == WithReading(n, Rounds(n.rcv, n.readOffset, len))
  {
    var r := RoundReading(n.rcv, n.readOffset, len);
    RoundIsRound(n, len);
    AfterJoin(n, [ReadRound(len)], rest);
    RoundsNext(n.rcv, n.readOffset, len);
    WithReadingJoins(n, r, Rounds(r.sorter, r.readOffset, len - |r.data|));
  }

  /** Every call of Read is a sequence of rounds of the system: it takes the reader to the same place, hands out
      the same bytes, and ends the stream in the same cases. */
  lemma {:induction false} ReadIsRounds<T>(n: Net<T>, len: nat) returns (events: seq<Event<T>>)
    requires !n.dead && !n.finished
    ensures OnlyRounds(events) && After(n, events) == WithReading(n, Rounds(n.rcv, n.readOffset, len))
    decreases len, |n.rcv.queued|
  {
    if len == 0 || !HeadFits(n.rcv, n.readOffset) {
      NothingRead(n, len);
      return [];
    }
    var s, readOffset, r := n.rcv, n.readOffset, RoundReading(n.rcv, n.readOffset, len);
    QueueShrinks(s, readOffset, len);
    if r.status == Ok {
      var rest := ReadIsRounds(WithReading(n, r), len - |r.data|);
      RoundAndRest(n, len, rest);
      events := [ReadRound(len)] + rest;
    } else {
      RoundIsRound(n, len);
      events := [ReadRound(len)];
    }
  }

  // ---------- a run that ends early ----------

  lemma {:induction false} AfterStates<T>(events: seq<Event<T>>, states: seq<Net<T>>)
    requires |states| == |events| + 1 && forall i :: 0 <= i < |events| ==> Step(states[i], events[i]) == states[i + 1]
    ensures After(states[0], events) == states[|events|]
  {
    if events != [] {
      var k := |events| - 1;
      AfterStates(events[..k], states[..k + 1]);
      assert Step(states[k], events[k]) == states[k + 1];
    }
  }

  lemma {:induction false} PushedInside<T>(s: Sorter<T>, f: Frame<T>)
    requires GapsOk(s.gaps) && f.data != [] && f.offset !in s.queued && s.gaps[0].start <= f.offset && f.End() < s.gaps[0].end
    ensures Pushed(s, f) == Placed(s, f, 0, 0, f.offset, f.End())
  {
    PushedPlaces(s, f, f.offset, 0, 0);
  }

  lemma {:induction false} PushedOver<T>(s: Sorter<T>, f: Frame<T>)
    requires GapsOk(s.gaps) && |s.gaps| > 1 && f.data != [] && f.offset !in s.queued
    requires f.offset == s.gaps[0].start && s.gaps[0].end <= f.End() <= s.gaps[1].start
    ensures Pushed(s, f) == Placed(s, f, 0, 0, f.offset, s.gaps[0].end)
  {
    PushedPlaces(s, f, f.offset, 0, 0);
  }

  /** Three bytes and the end marker go out in one frame, which is taken for lost and sent again in two. */
  const Whole: Frame<nat> := Frame(0, [7, 8, 9], true)
  const Front: Frame<nat> := Frame(0, [7, 8], false)
  const Tail: Frame<nat> := Frame(2, [9], true)

  const ShortRun: seq<Event<nat>> :=
    [Write([7, 8, 9]), Close, SendNew(10), DeclareLost(Whole), Resend(2), Resend(5), Deliver(Tail), Deliver(Whole), ReadRound(10)]

  const Nothing: Sorter<nat> := Sorter(map[], 0, [Gap(0, MaxByteCount)])

  /** The sender has written everything and holds `queue` for retransmission. */
  ghost function Sending(queue: seq<Frame<nat>>, sent: seq<Frame<nat>>): Net<nat> {
    Net(Sender([7, 8, 9], 3, [], true, true, queue), sent, Nothing, 0, [], false, false)
  }

  ghost function Writing(closed: bool): Net<nat> {
    Net(Sender([7, 8, 9], 0, [7, 8, 9], closed, false, []), [], Nothing, 0, [], false, false)
  }

  ghost function Receiving(rcv: Sorter<nat>): Net<nat> {
    Sending([], [Whole, Front, Tail]).(rcv := rcv)
  }

  const TailQueued: Sorter<nat> := Sorter(map[2 := Tail], 0, [Gap(0, 2), Gap(3, MaxByteCount)])
  const ShortQueued: Sorter<nat> := Sorter(map[0 := Frame(0, [7, 8], true), 2 := Tail], 0, [Gap(3, MaxByteCount)])
  const ShortRead: Sorter<nat> := Sorter(map[2 := Tail], 2, [Gap(3, MaxByteCount)])

  lemma {:induction false} FirstFrame()
    ensures Step(Begin(), Write([7, 8, 9])) == Writing(false)
    ensures Step(Writing(true), SendNew(10)) == Sending([], [Whole])
  {
    assert [] + [7, 8, 9] == [7, 8, 9];
    assert Writing(true).snd.dataForWriting[..3] == [7, 8, 9];
  }

  lemma {:induction false} TwoFrames()
    ensures Step(Sending([], [Whole]), DeclareLost(Whole)) == Sending([Whole], [Whole])
    ensures Step(Sending([Whole], [Whole]), Resend(2)) == Sending([Tail], [Whole, Front])
    ensures Step(Sending([Tail], [Whole, Front]), Resend(5)) == Receiving(Nothing)
  {
    DeclaredLost(Sending([], [Whole]), Whole);
    assert Whole.data[..2] == [7, 8] && Whole.data[2..] == [9];
    assert [Tail] + [Whole][1..] == [Tail] && [Tail][1..] == [];
  }

  lemma {:induction false} TailPlaced()
    ensures Placed(Nothing, Tail, 0, 0, 2, 3) == (Queued, TailQueued)
  {
    assert Trimmed(Tail, 2, 3) == Tail;
    assert Filled(Nothing.gaps, 0, 0, 2, 3) == TailQueued.gaps;
    InsertedAlone(Nothing, Tail);
    PlacedIs(Nothing, Tail, 0, 0, 2, 3);
  }

  lemma {:induction false} TailArrives()
    ensures GapsOk(Nothing.gaps) && Pushed(Nothing, Tail) == (Queued, TailQueued)
  {
    PushedInside(Nothing, Tail);
    TailPlaced();
  }

  lemma {:induction false} WholePlaced()
    ensures Placed(TailQueued, Whole, 0, 0, 0, 2) == (Queued, ShortQueued)
  {
    var part := Frame(0, [7, 8], true);
    assert Trimmed(Whole, 0, 2) == part;
    assert Filled(TailQueued.gaps, 0, 0, 0, 2) == ShortQueued.gaps;
    InsertedAlone(TailQueued, part);
    assert TailQueued.queued[0 := part] == ShortQueued.queued;
    PlacedIs(TailQueued, Whole, 0, 0, 0, 2);
  }

  lemma {:induction false} WholeArrives()
    ensures GapsOk(TailQueued.gaps) && Pushed(TailQueued, Whole) == (Queued, ShortQueued)
  {
    PushedOver(TailQueued, Whole);
    WholePlaced();
  }

  lemma {:induction false} ShortIsRead()
    ensures HeadReady(Receiving(ShortQueued))
    ensures ReadHead(Receiving(ShortQueued), 10) == Receiving(ShortRead).(readOffset := 2, output := [7, 8], finished := true)
  {
    assert [7, 8][0..2] == [7, 8];
    assert [] + [7, 8] == [7, 8];
    assert Popped(ShortQueued) == ShortRead;
  }

  ghost const ShortEnd: Net<nat> := Receiving(ShortRead).(readOffset := 2, output := [7, 8], finished := true)

  lemma {:induction false} TailDelivered()
    ensures Step(Receiving(Nothing), Deliver(Tail)) == Receiving(TailQueued)
  {
    var n := Receiving(Nothing);
    assert n.sent[2] == Tail;
    TailArrives();
    Accepts(n, Tail);
  }

  lemma {:induction false} WholeDelivered()
    ensures Step(Receiving(TailQueued), Deliver(Whole)) == Receiving(ShortQueued)
  {
    var n := Receiving(TailQueued);
    assert n.sent[0] == Whole;
    WholeArrives();
    Accepts(n, Whole);
  }

  ghost const ShortStates: seq<Net<nat>> :=
    [Begin(), Writing(false), Writing(true), Sending([], [Whole]), Sending([Whole], [Whole]), Sending([Tail], [Whole, Front]),
     Receiving(Nothing), Receiving(TailQueued), Receiving(ShortQueued), ShortEnd]

  lemma {:induction false} ShortStep(i: nat)
    requires i < |ShortRun|
    ensures Step(ShortStates[i], ShortRun[i]) == ShortStates[i + 1]
  {
    if i == 0 || i == 2 {
      FirstFrame();
    } else if 3 <= i < 6 {
      TwoFrames();
    } else if i == 6 {
      TailDelivered();
    } else if i == 7 {
      WholeDelivered();
    } else if i == 8 {
      ShortIsRead();
    }
  }

  /** The reader is told that the stream ended after two of its three bytes, and byte 2, which was delivered
      twice, is never read. */
  lemma {:induction false} EndsEarlyOnce()
    ensures EndsEarly(Run(ShortRun)) && Run(ShortRun).output == [7, 8] && Delivered(ShortRun, 2)
    ensures forall space: nat :: Step(Run(ShortRun), ReadRound(space)) == Run(ShortRun)
  {
    forall i | 0 <= i < |ShortRun| ensures Step(ShortStates[i], ShortRun[i]) == ShortStates[i + 1] { ShortStep(i); }
    AfterStates(ShortRun, ShortStates);
    assert Run(ShortRun) == ShortEnd;
    GapsAreUndelivered(ShortRun, 2);
    var gaps := ShortEnd.rcv.gaps;
    assert !Missing(gaps, 2);
  }
}
