/** Reassembly of stream frames: a list of gaps and a map of queued frames that together index the bytes
    that have arrived. */
module Reassembly {

  datatype Frame<!T> = Frame(offset: nat, data: seq<T>, fin: bool)
  {
    function End(): nat { offset + |data| }
  }

  /** A half-open interval of offsets that have not arrived. */
  datatype Gap = Gap(start: nat, end: nat)

  datatype Sorter<!T> = Sorter(queued: map<nat, Frame<T>>, readPosition: nat, gaps: seq<Gap>)

  const MaxByteCount: nat := 0xFFFF_FFFF_FFFF_FFFF
  const MaxStreamFrameSorterGaps: nat := 2500

  // ---------- gap lists ----------

  /** Sorted, disjoint, with at least one received byte between neighbours, open at the top. */
  ghost predicate GapsOk(gaps: seq<Gap>) {
    && |gaps| > 0
    && gaps[|gaps| - 1].end == MaxByteCount
    && (forall i :: 0 <= i < |gaps| ==> gaps[i].start < gaps[i].end)
    && (forall i, j :: 0 <= i < j < |gaps| ==> gaps[i].end < gaps[j].start)
  }

  ghost predicate Missing(gaps: seq<Gap>, x: nat) {
    exists i :: 0 <= i < |gaps| && gaps[i].start <= x < gaps[i].end
  }

  /** Gaps g to h replaced by what the interval [start, end) leaves of the two ends. */
  function Filled(gaps: seq<Gap>, g: nat, h: nat, start: nat, end: nat): (r: seq<Gap>)
    requires g <= h < |gaps|
  {
    gaps[..g] +
    (if start == gaps[g].start then [] else [Gap(gaps[g].start, start)]) +
    (if end == gaps[h].end then [] else [Gap(end, gaps[h].end)]) +
    gaps[h + 1..]
  }

  /** [start, end) begins in gap g, ends in gap h and covers everything between them. */
  ghost predicate Spans(gaps: seq<Gap>, g: nat, h: nat, start: nat, end: nat) {
    && g <= h < |gaps| && start < end
    && gaps[g].start <= start < gaps[g].end
    && gaps[h].start < end <= gaps[h].end
    && (h + 1 == |gaps| ==> end < gaps[h].end)
  }

  lemma FilledIndex(gaps: seq<Gap>, g: nat, h: nat, start: nat, end: nat, i: nat)
    requires g <= h < |gaps| && i < |Filled(gaps, g, h, start, end)|
    ensures var left := if start == gaps[g].start then 0 else 1; var right := if end == gaps[h].end then 0 else 1;
      && |Filled(gaps, g, h, start, end)| == g + left + right + (|gaps| - h - 1)
      && Filled(gaps, g, h, start, end)[i] ==
        if i < g then gaps[i] else if i < g + left then Gap(gaps[g].start, start)
        else if i < g + left + right then Gap(end, gaps[h].end) else gaps[i - g - left - right + h + 1]
  {}

  lemma FilledOk(gaps: seq<Gap>, g: nat, h: nat, start: nat, end: nat)
    requires GapsOk(gaps) && Spans(gaps, g, h, start, end)
    ensures GapsOk(Filled(gaps, g, h, start, end))
  {
    var r := Filled(gaps, g, h, start, end);
    assert |r| > 0 && r[|r| - 1].end == MaxByteCount;
    forall i | 0 <= i < |r| ensures r[i].start < r[i].end { FilledIndex(gaps, g, h, start, end, i); }
    forall i, j | 0 <= i < j < |r| ensures r[i].end < r[j].start {
      FilledIndex(gaps, g, h, start, end, i);
      FilledIndex(gaps, g, h, start, end, j);
    }
  }

  /** Each gap left is part of an old one and misses the filled interval. */
  lemma {:induction false} FilledFrom(gaps: seq<Gap>, g: nat, h: nat, start: nat, end: nat, i: nat)
    requires GapsOk(gaps) && Spans(gaps, g, h, start, end) && i < |Filled(gaps, g, h, start, end)|
    ensures var r := Filled(gaps, g, h, start, end)[i];
      exists k :: 0 <= k < |gaps| && gaps[k].start <= r.start < r.end <= gaps[k].end && (r.end <= start || end <= r.start)
  {
    FilledIndex(gaps, g, h, start, end, i);
    var left := if start == gaps[g].start then 0 else 1;
    var right := if end == gaps[h].end then 0 else 1;
    var r := Filled(gaps, g, h, start, end)[i];
    if i < g {
      assert r == gaps[i] && gaps[i].end < gaps[g].start;
    } else if i < g + left {
      assert r == Gap(gaps[g].start, start);
    } else if i < g + left + right {
      assert r == Gap(end, gaps[h].end);
    } else {
      var k := i - g - left - right + h + 1;
      assert r == gaps[k] && gaps[h].end < gaps[k].start;
    }
  }

  lemma {:induction false} FilledMissingOld(gaps: seq<Gap>, g: nat, h: nat, start: nat, end: nat, x: nat)
    requires GapsOk(gaps) && Spans(gaps, g, h, start, end) && Missing(Filled(gaps, g, h, start, end), x)
    ensures Missing(gaps, x) && !(start <= x < end)
  {
    var r := Filled(gaps, g, h, start, end);
    var i :| 0 <= i < |r| && r[i].start <= x < r[i].end;
    FilledFrom(gaps, g, h, start, end, i);
    var k :| 0 <= k < |gaps| && gaps[k].start <= r[i].start < r[i].end <= gaps[k].end && (r[i].end <= start || end <= r[i].start);
    assert gaps[k].start <= x < gaps[k].end;
  }

  lemma FilledMissingNew(gaps: seq<Gap>, g: nat, h: nat, start: nat, end: nat, x: nat)
    requires GapsOk(gaps) && Spans(gaps, g, h, start, end) && Missing(gaps, x) && !(start <= x < end)
    ensures Missing(Filled(gaps, g, h, start, end), x)
  {
    var r := Filled(gaps, g, h, start, end);
    var left := if start == gaps[g].start then 0 else 1;
    var right := if end == gaps[h].end then 0 else 1;
    var k :| 0 <= k < |gaps| && gaps[k].start <= x < gaps[k].end;
    var i := if k < g then k else if x < start then g else if k <= h then g + left else k - h - 1 + g + left + right;
    FilledIndex(gaps, g, h, start, end, i);
    assert r[i].start <= x < r[i].end;
  }

  /** Filling removes exactly the interval from the missing offsets. */
  lemma FilledMissing(gaps: seq<Gap>, g: nat, h: nat, start: nat, end: nat)
    requires GapsOk(gaps) && Spans(gaps, g, h, start, end)
    ensures forall x: nat :: Missing(Filled(gaps, g, h, start, end), x) <==> Missing(gaps, x) && !(start <= x < end)
  {
    forall x: nat
      ensures Missing(Filled(gaps, g, h, start, end), x) <==> Missing(gaps, x) && !(start <= x < end)
    {
      if Missing(Filled(gaps, g, h, start, end), x) { FilledMissingOld(gaps, g, h, start, end, x); }
      if Missing(gaps, x) && !(start <= x < end) { FilledMissingNew(gaps, g, h, start, end, x); }
    }
  }

  // ---------- chains of queued frames ----------

  /** Queued frames cover [a, b) exactly, each starting where the one before ends. */
  ghost predicate Chain<T>(queued: map<nat, Frame<T>>, a: nat, b: nat)
    decreases b - a
  {
    a == b || (a < b && a in queued && |queued[a].data| > 0 && a + |queued[a].data| <= b && Chain(queued, a + |queued[a].data|, b))
  }

  lemma {:induction false} ChainDepends<T>(queued: map<nat, Frame<T>>, queued': map<nat, Frame<T>>, a: nat, b: nat)
    requires Chain(queued, a, b)
    requires forall o :: a <= o < b && o in queued ==> o in queued' && queued'[o] == queued[o]
    ensures Chain(queued', a, b)
    decreases b - a
  {
    if a < b { ChainDepends(queued, queued', a + |queued[a].data|, b); }
  }

  lemma {:induction false} ChainAppend<T>(queued: map<nat, Frame<T>>, a: nat, b: nat, c: nat)
    requires Chain(queued, a, b) && Chain(queued, b, c)
    ensures Chain(queued, a, c)
    decreases b - a
  {
    if a < b { ChainAppend(queued, a + |queued[a].data|, b, c); }
  }

  // ---------- the index invariant ----------

  /** Where the received region that ends at gap i begins. */
  function RegionStart<T>(s: Sorter<T>, i: nat): nat
    requires i < |s.gaps|
  {
    if i == 0 then s.readPosition else s.gaps[i - 1].end
  }

  ghost predicate Slice<T>(stream: seq<T>, f: Frame<T>) {
    f.End() <= |stream| && f.data == stream[f.offset..f.End()]
  }

  /** A frame an honest sender of `stream` may have sent: a slice of it; an empty frame only carries the
      end of the stream and stands there. */
  ghost predicate Honest<T>(stream: seq<T>, f: Frame<T>) {
    Slice(stream, f) && (f.data == [] && f.fin ==> f.offset == |stream|)
  }

  ghost predicate FrameOk<T>(s: Sorter<T>, stream: seq<T>, o: nat)
    requires o in s.queued
  {
    && s.queued[o].offset == o && Slice(stream, s.queued[o])
    && (s.queued[o].data == [] ==> o == |stream| && s.queued[o].fin)
    && forall x :: o <= x < s.queued[o].End() ==> !Missing(s.gaps, x)
  }

  /** The gap list and the frame map index the received bytes of `stream`: every queued frame is a slice
      of received bytes, and each received region that has not been read is covered by a chain. */
  ghost predicate Indexed<T>(s: Sorter<T>, stream: seq<T>) {
    && GapsOk(s.gaps) && |stream| < MaxByteCount
    && s.readPosition <= s.gaps[0].start && s.gaps[|s.gaps| - 1].start <= |stream|
    && (forall o :: o in s.queued ==> FrameOk(s, stream, o))
    && (forall i :: 0 <= i < |s.gaps| ==> Chain(s.queued, RegionStart(s, i), s.gaps[i].start))
  }

  /** A byte that has arrived and is next to be read is at the head of the queue. */
  lemma ArrivedMeansHead<T>(s: Sorter<T>, stream: seq<T>)
    requires Indexed(s, stream)
    ensures !Missing(s.gaps, s.readPosition) ==> s.readPosition in s.queued && |s.queued[s.readPosition].data| > 0
    ensures Missing(s.gaps, s.readPosition) && s.readPosition in s.queued ==> s.queued[s.readPosition].data == []
  {
    assert Chain(s.queued, RegionStart(s, 0), s.gaps[0].start);
    if s.readPosition == s.gaps[0].start { assert Missing(s.gaps, s.readPosition); }
    if s.readPosition in s.queued { assert FrameOk(s, stream, s.readPosition); }
  }

  // ---------- one insertion ----------

  /** The sorter after a frame that fills [frame.offset, frame.End()) from gap g to gap h is queued. */
  function Inserted<T>(s: Sorter<T>, g: nat, h: nat, frame: Frame<T>): Sorter<T>
    requires g <= h < |s.gaps|
  {
    var swallowed := set k | g <= k < h :: s.gaps[k].end;
    Sorter((s.queued - swallowed)[frame.offset := frame], s.readPosition, Filled(s.gaps, g, h, frame.offset, frame.End()))
  }

  lemma QueuedElsewhere<T>(s: Sorter<T>, g: nat, h: nat, frame: Frame<T>, o: nat)
    requires GapsOk(s.gaps) && Spans(s.gaps, g, h, frame.offset, frame.End()) && o in s.queued
    requires !(frame.offset <= o < frame.End())
    ensures o in Inserted(s, g, h, frame).queued && Inserted(s, g, h, frame).queued[o] == s.queued[o]
  {
    assert forall k :: g <= k < h ==> frame.offset < s.gaps[k].end < frame.End() by {
      assert forall k :: g <= k < h ==> s.gaps[g].end <= s.gaps[k].end < s.gaps[h].start;
    }
  }

  lemma InsertedFramesOk<T>(s: Sorter<T>, stream: seq<T>, g: nat, h: nat, frame: Frame<T>)
    requires Indexed(s, stream) && Slice(stream, frame) && frame.data != []
    requires Spans(s.gaps, g, h, frame.offset, frame.End())
    ensures var r := Inserted(s, g, h, frame); forall o :: o in r.queued ==> FrameOk(r, stream, o)
  {
    var r := Inserted(s, g, h, frame);
    FilledMissing(s.gaps, g, h, frame.offset, frame.End());
    forall o | o in r.queued
      ensures FrameOk(r, stream, o)
    {
      if o != frame.offset { assert o in s.queued && FrameOk(s, stream, o); }
    }
  }

  /** A chain over received bytes outside the new frame survives the insertion. */
  lemma ChainKept<T>(s: Sorter<T>, g: nat, h: nat, frame: Frame<T>, a: nat, b: nat)
    requires GapsOk(s.gaps) && Spans(s.gaps, g, h, frame.offset, frame.End()) && Chain(s.queued, a, b)
    requires b <= frame.offset || frame.End() <= a
    ensures Chain(Inserted(s, g, h, frame).queued, a, b)
  {
    var r := Inserted(s, g, h, frame);
    forall o | a <= o < b && o in s.queued
      ensures o in r.queued && r.queued[o] == s.queued[o]
    {
      QueuedElsewhere(s, g, h, frame, o);
    }
    ChainDepends(s.queued, r.queued, a, b);
  }

  /** From the new frame on, the chain reaches the next gap. */
  lemma {:induction false} ChainOfFrame<T>(queued: map<nat, Frame<T>>, frame: Frame<T>)
    requires frame.offset in queued && queued[frame.offset] == frame && frame.data != []
    ensures Chain(queued, frame.offset, frame.End())
  {
    assert Chain(queued, frame.End(), frame.End());
  }

  lemma {:induction false} ChainFromFrame<T>(s: Sorter<T>, stream: seq<T>, g: nat, h: nat, frame: Frame<T>)
    requires Indexed(s, stream) && Slice(stream, frame) && frame.data != []
    requires Spans(s.gaps, g, h, frame.offset, frame.End())
    ensures var q := Inserted(s, g, h, frame).queued;
      Chain(q, frame.offset, if frame.End() == s.gaps[h].end then s.gaps[h + 1].start else frame.End())
  {
    var q := Inserted(s, g, h, frame).queued;
    ChainOfFrame(q, frame);
    if frame.End() == s.gaps[h].end {
      assert Chain(s.queued, RegionStart(s, h + 1), s.gaps[h + 1].start);
      ChainKept(s, g, h, frame, s.gaps[h].end, s.gaps[h + 1].start);
      ChainAppend(q, frame.offset, frame.End(), s.gaps[h + 1].start);
    }
  }

  lemma EndsIncrease(gaps: seq<Gap>, i: nat, j: nat)
    requires GapsOk(gaps) && i <= j < |gaps|
    ensures gaps[i].end <= gaps[j].end && gaps[i].start <= gaps[j].start
  {}

  // The received regions after an insertion: those before gap g, the one that contains the new frame,
  // and those after gap h.

  lemma RegionBefore<T>(s: Sorter<T>, g: nat, h: nat, frame: Frame<T>, i: nat)
    requires GapsOk(s.gaps) && Spans(s.gaps, g, h, frame.offset, frame.End())
    requires i < g || (i == g && frame.offset != s.gaps[g].start)
    ensures var r := Inserted(s, g, h, frame);
      i < |r.gaps| && RegionStart(r, i) == RegionStart(s, i) && r.gaps[i].start == s.gaps[i].start
  {
    var r := Inserted(s, g, h, frame);
    FilledIndex(s.gaps, g, h, frame.offset, frame.End(), i);
    if i > 0 { FilledIndex(s.gaps, g, h, frame.offset, frame.End(), i - 1); }
  }

  lemma RegionAt<T>(s: Sorter<T>, g: nat, h: nat, frame: Frame<T>, i: nat)
    requires GapsOk(s.gaps) && Spans(s.gaps, g, h, frame.offset, frame.End())
    requires i == g + if frame.offset == s.gaps[g].start then 0 else 1
    ensures var r := Inserted(s, g, h, frame);
      && i < |r.gaps| && RegionStart(r, i) == (if i == g then RegionStart(s, g) else frame.offset)
      && (frame.End() != s.gaps[h].end ==> r.gaps[i].start == frame.End())
      && (frame.End() == s.gaps[h].end ==> h + 1 < |s.gaps| && r.gaps[i].start == s.gaps[h + 1].start)
  {
    var r := Inserted(s, g, h, frame);
    assert |r.gaps| > i;
    FilledIndex(s.gaps, g, h, frame.offset, frame.End(), i);
    if i > 0 { FilledIndex(s.gaps, g, h, frame.offset, frame.End(), i - 1); }
  }

  lemma RegionAfter<T>(s: Sorter<T>, g: nat, h: nat, frame: Frame<T>, i: nat, k: nat)
    requires GapsOk(s.gaps) && Spans(s.gaps, g, h, frame.offset, frame.End())
    requires i > g + if frame.offset == s.gaps[g].start then 0 else 1
    requires i < |Inserted(s, g, h, frame).gaps| && |s.gaps| - k == |Inserted(s, g, h, frame).gaps| - i
    ensures h < k < |s.gaps|
    ensures var r := Inserted(s, g, h, frame); RegionStart(r, i) == RegionStart(s, k) && r.gaps[i].start == s.gaps[k].start
  {
    FilledIndex(s.gaps, g, h, frame.offset, frame.End(), i);
    FilledIndex(s.gaps, g, h, frame.offset, frame.End(), i - 1);
  }

  /** The chain through the region that contains the new frame. */
  lemma ChainAtFrame<T>(s: Sorter<T>, stream: seq<T>, g: nat, h: nat, frame: Frame<T>)
    requires Indexed(s, stream) && Slice(stream, frame) && frame.data != []
    requires Spans(s.gaps, g, h, frame.offset, frame.End())
    ensures var q := Inserted(s, g, h, frame).queued;
      var next := if frame.End() == s.gaps[h].end then s.gaps[h + 1].start else frame.End();
      Chain(q, frame.offset, next) && (frame.offset == s.gaps[g].start ==> Chain(q, RegionStart(s, g), next))
  {
    ChainFromFrame(s, stream, g, h, frame);
    if frame.offset == s.gaps[g].start {
      var next := if frame.End() == s.gaps[h].end then s.gaps[h + 1].start else frame.End();
      assert Chain(s.queued, RegionStart(s, g), s.gaps[g].start);
      ChainKept(s, g, h, frame, RegionStart(s, g), frame.offset);
      ChainAppend(Inserted(s, g, h, frame).queued, RegionStart(s, g), frame.offset, next);
    }
  }

  lemma InsertedChains<T>(s: Sorter<T>, stream: seq<T>, g: nat, h: nat, frame: Frame<T>, i: nat)
    requires Indexed(s, stream) && Slice(stream, frame) && frame.data != []
    requires Spans(s.gaps, g, h, frame.offset, frame.End())
    requires i < |Inserted(s, g, h, frame).gaps|
    ensures var r := Inserted(s, g, h, frame); Chain(r.queued, RegionStart(r, i), r.gaps[i].start)
  {
    var at := g + if frame.offset == s.gaps[g].start then 0 else 1;
    if i < at {
      RegionBefore(s, g, h, frame, i);
      EndsIncrease(s.gaps, i, g);
      assert Chain(s.queued, RegionStart(s, i), s.gaps[i].start);
      ChainKept(s, g, h, frame, RegionStart(s, i), s.gaps[i].start);
    } else if i == at {
      RegionAt(s, g, h, frame, i);
      ChainAtFrame(s, stream, g, h, frame);
    } else {
      var k := |s.gaps| - (|Inserted(s, g, h, frame).gaps| - i);
      RegionAfter(s, g, h, frame, i, k);
      EndsIncrease(s.gaps, h, k - 1);
      assert RegionStart(s, k) == s.gaps[k - 1].end >= frame.End();
      assert Chain(s.queued, RegionStart(s, k), s.gaps[k].start);
      ChainKept(s, g, h, frame, RegionStart(s, k), s.gaps[k].start);
    }
  }

  /** Queueing a slice of the stream keeps the index, and removes exactly its bytes from the gaps. */
  lemma InsertedIndexed<T>(s: Sorter<T>, stream: seq<T>, g: nat, h: nat, frame: Frame<T>)
    requires Indexed(s, stream) && Slice(stream, frame) && frame.data != []
    requires Spans(s.gaps, g, h, frame.offset, frame.End())
    ensures Indexed(Inserted(s, g, h, frame), stream)
  {
    var r := Inserted(s, g, h, frame);
    FilledOk(s.gaps, g, h, frame.offset, frame.End());
    InsertedFramesOk(s, stream, g, h, frame);
    forall i | 0 <= i < |r.gaps|
      ensures Chain(r.queued, RegionStart(r, i), r.gaps[i].start)
    {
      InsertedChains(s, stream, g, h, frame, i);
    }
    FilledIndex(s.gaps, g, h, frame.offset, frame.End(), 0);
    FilledIndex(s.gaps, g, h, frame.offset, frame.End(), |r.gaps| - 1);
  }

  // ---------- operations ----------

  datatype PushResult = Queued | DuplicateData | EmptyData | NoGapFound | NoEndGapFound | TooManyGaps
  datatype Option<+T> = None | Some(value: T)

  /** What a caller may rely on after a frame was accepted: the read position and a frame being read stay,
      and exactly the frame's bytes have left the gaps. */
  ghost predicate Accepted<T>(s: Sorter<T>, f: Frame<T>, s': Sorter<T>) {
    && s'.readPosition == s.readPosition
    && (forall x: nat :: Missing(s'.gaps, x) <==> Missing(s.gaps, x) && !(f.offset <= x < f.End()))
    && (s.readPosition in s.queued && s.queued[s.readPosition].data != [] ==>
          s.readPosition in s'.queued && s'.queued[s.readPosition] == s.queued[s.readPosition])
  }

  /** All bytes of [start, end) have arrived. */
  ghost predicate Arrived(gaps: seq<Gap>, start: nat, end: nat) {
    forall x :: start <= x < end ==> !Missing(gaps, x)
  }

  /** The marker for the end of the stream disturbs nothing. */
  lemma FinQueued<T>(s: Sorter<T>, stream: seq<T>, frame: Frame<T>)
    requires Indexed(s, stream) && Honest(stream, frame) && frame.data == [] && frame.fin
    ensures Indexed(s.(queued := s.queued[frame.offset := frame]), stream)
    ensures Accepted(s, frame, s.(queued := s.queued[frame.offset := frame]))
  {
    var s' := s.(queued := s.queued[frame.offset := frame]);
    forall o | o in s'.queued
      ensures FrameOk(s', stream, o)
    {
      if o != frame.offset { assert FrameOk(s, stream, o); }
    }
    forall i | 0 <= i < |s.gaps|
      ensures Chain(s'.queued, RegionStart(s', i), s'.gaps[i].start)
    {
      ChainWithoutEnd(s, stream, frame, i);
    }
    if s.readPosition in s.queued { assert FrameOk(s, stream, s.readPosition); }
  }

  lemma ChainWithoutEnd<T>(s: Sorter<T>, stream: seq<T>, frame: Frame<T>, i: nat)
    requires Indexed(s, stream) && frame.offset == |stream| && i < |s.gaps|
    ensures Chain(s.queued[frame.offset := frame], RegionStart(s, i), s.gaps[i].start)
  {
    EndsIncrease(s.gaps, i, |s.gaps| - 1);
    assert Chain(s.queued, RegionStart(s, i), s.gaps[i].start);
    ChainDepends(s.queued, s.queued[frame.offset := frame], RegionStart(s, i), s.gaps[i].start);
  }

  /** A received region between gaps starts with a queued frame. */
  lemma {:induction false} RegionHead<T>(s: Sorter<T>, stream: seq<T>, i: nat)
    requires Indexed(s, stream) && i + 1 < |s.gaps|
    ensures s.gaps[i].end in s.queued && |s.queued[s.gaps[i].end].data| > 0
    ensures s.gaps[i].end > 0 && Missing(s.gaps, s.gaps[i].end - 1)
  {
    assert Chain(s.queued, RegionStart(s, i + 1), s.gaps[i + 1].start);
  }

  /** A frame cut against a queued one does not start where another queued frame starts behind a missing byte. */
  lemma {:induction false} NotBehindMissing<T>(s: Sorter<T>, frame: Frame<T>, e: nat)
    requires e in s.queued && |s.queued[e].data| > 0 && e > 0 && Missing(s.gaps, e - 1)
    requires frame.offset in s.queued ==> Arrived(s.gaps, frame.offset, frame.offset + |s.queued[frame.offset].data|)
    ensures CutStart(s, frame) != e
  {}

  /** After the first cut a frame never starts exactly at the end of a gap. */
  lemma {:induction false} NotAtGapEnd<T>(s: Sorter<T>, stream: seq<T>, frame: Frame<T>, start: nat)
    requires Indexed(s, stream) && Slice(stream, frame) && frame.data != []
    requires start == CutStart(s, frame) < frame.End()
    ensures Arrived(s.gaps, frame.offset, start)
    ensures forall i :: 0 <= i < |s.gaps| ==> s.gaps[i].end != start
  {
    assert frame.offset in s.queued ==> FrameOk(s, stream, frame.offset);
    forall i | 0 <= i < |s.gaps|
      ensures s.gaps[i].end != start
    {
      if i + 1 < |s.gaps| {
        RegionHead(s, stream, i);
        NotBehindMissing(s, frame, s.gaps[i].end);
      }
    }
  }

  /** What the searches for the first and the last gap establish about the interval to be filled:
      [from, frame.End()) trimmed to [start, end). */
  ghost predicate Located<T>(s: Sorter<T>, frame: Frame<T>, from: nat, g: nat, h: nat, start: nat, end: nat) {
    && g <= h < |s.gaps| && frame.offset <= from < frame.End()
    && (forall i :: 0 <= i < |s.gaps| ==> s.gaps[i].end != from)
    && (forall i :: 0 <= i < g ==> s.gaps[i].end < from)
    && s.gaps[g].start < frame.End() && from <= s.gaps[g].end
    && start == (if from < s.gaps[g].start then s.gaps[g].start else from)
    && s.gaps[h].start < frame.End()
    && end == (if frame.End() <= s.gaps[h].end then frame.End() else s.gaps[h].end)
    && (frame.End() >= s.gaps[h].end ==> h + 1 < |s.gaps| && frame.End() <= s.gaps[h + 1].start)
  }

  lemma LocatedSpans<T>(s: Sorter<T>, frame: Frame<T>, from: nat, g: nat, h: nat, start: nat, end: nat)
    requires GapsOk(s.gaps) && Located(s, frame, from, g, h, start, end)
    ensures frame.offset <= start < end <= frame.End() && Spans(s.gaps, g, h, start, end)
  {
    EndsIncrease(s.gaps, g, h);
  }

  /** What was trimmed off had arrived. */
  lemma TrimmedArrived<T>(s: Sorter<T>, frame: Frame<T>, from: nat, g: nat, h: nat, start: nat, end: nat)
    requires GapsOk(s.gaps) && Located(s, frame, from, g, h, start, end)
    ensures Arrived(s.gaps, from, start) && Arrived(s.gaps, end, frame.End())
  {
    forall x | from <= x < start
      ensures !Missing(s.gaps, x)
    {
      forall i | 0 <= i < |s.gaps| ensures !(s.gaps[i].start <= x < s.gaps[i].end) {
        if i >= g { EndsIncrease(s.gaps, g, i); }
      }
    }
    forall x | end <= x < frame.End()
      ensures !Missing(s.gaps, x)
    {
      forall i | 0 <= i < |s.gaps| ensures !(s.gaps[i].start <= x < s.gaps[i].end) {
        if i <= h { EndsIncrease(s.gaps, i, h); } else { EndsIncrease(s.gaps, h + 1, i); }
      }
    }
  }

  lemma HeadKept<T>(s: Sorter<T>, stream: seq<T>, g: nat, h: nat, frame: Frame<T>)
    requires Indexed(s, stream) && Spans(s.gaps, g, h, frame.offset, frame.End())
    requires s.readPosition in s.queued && s.queued[s.readPosition].data != []
    ensures var q := Inserted(s, g, h, frame).queued; s.readPosition in q && q[s.readPosition] == s.queued[s.readPosition]
  {
    assert FrameOk(s, stream, s.readPosition) && !Missing(s.gaps, s.readPosition);
    EndsIncrease(s.gaps, 0, g);
    QueuedElsewhere(s, g, h, frame, s.readPosition);
  }

  /** The part of a frame on [start, end). */
  function Trimmed<T>(frame: Frame<T>, start: nat, end: nat): (r: Frame<T>)
    requires frame.offset <= start <= end <= frame.End()
    ensures r.offset == start && r.End() == end
  {
    Frame(start, frame.data[start - frame.offset..end - frame.offset], frame.fin)
  }

  lemma TrimmedSlice<T>(stream: seq<T>, frame: Frame<T>, start: nat, end: nat)
    requires Slice(stream, frame) && frame.offset <= start <= end <= frame.End()
    ensures Slice(stream, Trimmed(frame, start, end))
  {}

  /** Queueing the trimmed frame is as good as queueing all of it. */
  lemma TrimmedAccepted<T>(s: Sorter<T>, stream: seq<T>, frame: Frame<T>, from: nat, g: nat, h: nat, start: nat, end: nat)
    requires Indexed(s, stream) && Slice(stream, frame) && Located(s, frame, from, g, h, start, end)
    requires Arrived(s.gaps, frame.offset, from)
    ensures frame.offset <= start < end <= frame.End()
    ensures var s' := Inserted(s, g, h, Trimmed(frame, start, end)); Indexed(s', stream) && Accepted(s, frame, s')
    ensures !Arrived(s.gaps, frame.offset, frame.End())
  {
    LocatedSpans(s, frame, from, g, h, start, end);
    TrimmedArrived(s, frame, from, g, h, start, end);
    TrimmedSlice(stream, frame, start, end);
    InsertedIndexed(s, stream, g, h, Trimmed(frame, start, end));
    FilledMissing(s.gaps, g, h, start, end);
    if s.readPosition in s.queued && s.queued[s.readPosition].data != [] { HeadKept(s, stream, g, h, Trimmed(frame, start, end)); }
    assert Missing(s.gaps, start);
    assert forall x: nat :: frame.offset <= x < frame.End() && Missing(s.gaps, x) ==> start <= x < end;
  }

  /** The sorter after its head frame has been taken. */
  function Popped<T>(s: Sorter<T>): Sorter<T>
    requires s.readPosition in s.queued
  {
    Sorter(s.queued - {s.queued[s.readPosition].offset}, s.readPosition + |s.queued[s.readPosition].data|, s.gaps)
  }

  lemma HeadPopped<T>(s: Sorter<T>, stream: seq<T>)
    requires Indexed(s, stream) && s.readPosition in s.queued
    ensures s.queued[s.readPosition].offset == s.readPosition && Indexed(Popped(s), stream)
  {
    var s' := Popped(s);
    assert FrameOk(s, stream, s.readPosition);
    NotMissingBelowOrAt(s, stream);
    forall o | o in s'.queued
      ensures FrameOk(s', stream, o)
    {
      assert FrameOk(s, stream, o);
    }
    forall i | 0 <= i < |s.gaps|
      ensures Chain(s'.queued, RegionStart(s', i), s'.gaps[i].start)
    {
      PoppedChain(s, stream, i);
    }
    assert Chain(s.queued, RegionStart(s, 0), s.gaps[0].start);
  }

  lemma {:induction false} PoppedChainAbove<T>(s: Sorter<T>, stream: seq<T>, i: nat)
    requires Indexed(s, stream) && s.readPosition in s.queued && s.queued[s.readPosition].offset == s.readPosition && 0 < i < |s.gaps|
    ensures Chain(Popped(s).queued, s.gaps[i - 1].end, s.gaps[i].start)
  {
    assert Chain(s.queued, RegionStart(s, i), s.gaps[i].start);
    EndsIncrease(s.gaps, 0, i - 1);
    assert s.readPosition < s.gaps[i - 1].end;
    KeptChain(s.queued, s.readPosition, s.gaps[i - 1].end, s.gaps[i].start);
  }

  /** Removing an entry in front of a chain leaves the chain. */
  lemma {:induction false} KeptChain<T>(queued: map<nat, Frame<T>>, o: nat, a: nat, b: nat)
    requires Chain(queued, a, b) && o < a
    ensures Chain(queued - {o}, a, b)
  {
    ChainDepends(queued, queued - {o}, a, b);
  }

  /** A chain without its first frame. */
  lemma {:induction false} ChainTail<T>(queued: map<nat, Frame<T>>, a: nat, b: nat)
    requires Chain(queued, a, b) && a in queued && (queued[a].data == [] <==> a == b)
    ensures Chain(queued - {a}, a + |queued[a].data|, b)
  {
    if a < b { KeptChain(queued, a, a + |queued[a].data|, b); }
  }

  lemma {:induction false} PoppedChainFirst<T>(s: Sorter<T>, stream: seq<T>)
    requires Indexed(s, stream) && s.readPosition in s.queued && s.queued[s.readPosition].offset == s.readPosition
    ensures Chain(Popped(s).queued, Popped(s).readPosition, s.gaps[0].start)
  {
    assert Chain(s.queued, RegionStart(s, 0), s.gaps[0].start);
    NotMissingBelowOrAt(s, stream);
    ChainTail(s.queued, s.readPosition, s.gaps[0].start);
  }

  lemma {:induction false} PoppedChain<T>(s: Sorter<T>, stream: seq<T>, i: nat)
    requires Indexed(s, stream) && s.readPosition in s.queued && s.queued[s.readPosition].offset == s.readPosition && i < |s.gaps|
    ensures Chain(Popped(s).queued, RegionStart(Popped(s), i), s.gaps[i].start)
  {
    if i > 0 {
      PoppedChainAbove(s, stream, i);
    } else {
      PoppedChainFirst(s, stream);
    }
  }

  /** The head frame is empty exactly when the next byte has not arrived. */
  lemma NotMissingBelowOrAt<T>(s: Sorter<T>, stream: seq<T>)
    requires Indexed(s, stream) && s.readPosition in s.queued
    ensures s.queued[s.readPosition].data == [] <==> s.readPosition == s.gaps[0].start
  {
    assert Chain(s.queued, RegionStart(s, 0), s.gaps[0].start);
    assert FrameOk(s, stream, s.readPosition);
    if s.readPosition == s.gaps[0].start { assert Missing(s.gaps, s.readPosition); }
  }

  // ---------- Push as a function ----------

  /** The first gap from `g` on that [start, end) reaches, or that lies behind it. */
  function FirstGap(gaps: seq<Gap>, start: nat, end: nat, g: nat): (r: nat)
    requires g <= |gaps|
    ensures g <= r <= |gaps| && (r < |gaps| ==> end <= gaps[r].start || start <= gaps[r].end)
    decreases |gaps| - g
  {
    if g == |gaps| || end <= gaps[g].start || start <= gaps[g].end then g else FirstGap(gaps, start, end, g + 1)
  }

  /** The last gap from `h` on that ends the interval, if the list does not run out before. */
  function LastGap(gaps: seq<Gap>, end: nat, h: nat): (r: Option<nat>)
    requires h < |gaps|
    ensures r.Some? ==> h <= r.value < |gaps|
    decreases |gaps| - h
  {
    if end < gaps[h].end then Some(h)
    else if h + 1 == |gaps| then None
    else if end <= gaps[h + 1].start then Some(h)
    else LastGap(gaps, end, h + 1)
  }

  function Min(a: nat, b: nat): nat { if a <= b then a else b }
  function Max(a: nat, b: nat): nat { if a <= b then b else a }

  /** The offset a frame starts at once it is cut against a queued frame at its own offset. */
  function CutStart<T>(s: Sorter<T>, frame: Frame<T>): nat {
    frame.offset + if frame.offset in s.queued then |s.queued[frame.offset].data| else 0
  }

  /** Push: what is returned and what the sorter becomes. */
  function Pushed<T>(s: Sorter<T>, frame: Frame<T>): (r: (PushResult, Sorter<T>))
    requires GapsOk(s.gaps)
  {
    if frame.data == [] then
      if frame.fin then (Queued, s.(queued := s.queued[frame.offset := frame])) else (EmptyData, s)
    else if frame.End() <= CutStart(s, frame) then (DuplicateData, s)
    else PushedFrom(s, frame, CutStart(s, frame))
  }

  /** The two searches over the gap list for the frame's bytes from `from` on. */
  function PushedFrom<T>(s: Sorter<T>, frame: Frame<T>, from: nat): (r: (PushResult, Sorter<T>))
    requires GapsOk(s.gaps) && frame.offset <= from < frame.End()
  {
    var end := frame.End();
    var g := FirstGap(s.gaps, from, end, 0);
    if g == |s.gaps| then (NoGapFound, s)
    else if end <= s.gaps[g].start then (DuplicateData, s)
    else match LastGap(s.gaps, end, g)
      case None => (NoEndGapFound, s)
      case Some(h) =>
        EndsIncrease(s.gaps, g, h);
        Placed(s, frame, g, h, Max(from, s.gaps[g].start), Min(end, s.gaps[h].end))
  }

  /** Queues the part of the frame on [start, end), which goes from gap g to gap h. */
  function Placed<T>(s: Sorter<T>, frame: Frame<T>, g: nat, h: nat, start: nat, end: nat): (PushResult, Sorter<T>)
    requires g <= h < |s.gaps| && frame.offset <= start <= end <= frame.End()
  {
    var s' := Inserted(s, g, h, Trimmed(frame, start, end));
    if |s'.gaps| > MaxStreamFrameSorterGaps then (TooManyGaps, s') else (Queued, s')
  }

  lemma {:induction false} FirstGapFound(gaps: seq<Gap>, start: nat, end: nat, g: nat)
    requires GapsOk(gaps) && g < |gaps| && start < end < MaxByteCount && forall i :: 0 <= i < g ==> gaps[i].end < start
    ensures var r := FirstGap(gaps, start, end, g);
      r < |gaps| && (end <= gaps[r].start || start <= gaps[r].end) && forall i :: 0 <= i < r ==> gaps[i].end < start
    decreases |gaps| - g
  {
    if !(end <= gaps[g].start || start <= gaps[g].end) { FirstGapFound(gaps, start, end, g + 1); }
  }

  lemma {:induction false} LastGapFound(gaps: seq<Gap>, end: nat, h: nat)
    requires GapsOk(gaps) && h < |gaps| && gaps[h].start < end < MaxByteCount
    ensures var r := LastGap(gaps, end, h);
      r.Some? && gaps[r.value].start < end &&
      (end >= gaps[r.value].end ==> r.value + 1 < |gaps| && end <= gaps[r.value + 1].start)
    decreases |gaps| - h
  {
    if end >= gaps[h].end && h + 1 < |gaps| && end > gaps[h + 1].start { LastGapFound(gaps, end, h + 1); }
  }

  /** An interval that no gap reaches has arrived. */
  lemma BetweenGapsArrived(gaps: seq<Gap>, start: nat, end: nat, g: nat)
    requires GapsOk(gaps) && g < |gaps| && end <= gaps[g].start && forall i :: 0 <= i < g ==> gaps[i].end < start
    ensures Arrived(gaps, start, end)
  {
    forall x | start <= x < end
      ensures !Missing(gaps, x)
    {
      forall i | 0 <= i < |gaps| ensures !(gaps[i].start <= x < gaps[i].end) {
        if i >= g { EndsIncrease(gaps, g, i); }
      }
    }
  }

  lemma PushedPlaces<T>(s: Sorter<T>, frame: Frame<T>, from: nat, g: nat, h: nat)
    requires GapsOk(s.gaps) && frame.offset <= from < frame.End()
    requires g == FirstGap(s.gaps, from, frame.End(), 0) < |s.gaps| && s.gaps[g].start < frame.End()
    requires LastGap(s.gaps, frame.End(), g) == Some(h)
    ensures var start, cut := Max(from, s.gaps[g].start), Min(frame.End(), s.gaps[h].end);
      frame.offset <= start <= cut <= frame.End() && PushedFrom(s, frame, from) == Placed(s, frame, g, h, start, cut)
  {
    EndsIncrease(s.gaps, g, h);
  }

  lemma SearchesLocate<T>(s: Sorter<T>, frame: Frame<T>, from: nat, g: nat)
    requires GapsOk(s.gaps) && frame.offset <= from < frame.End() < MaxByteCount
    requires g < |s.gaps| && s.gaps[g].start < frame.End() && from <= s.gaps[g].end
    requires (forall i :: 0 <= i < g ==> s.gaps[i].end < from) && (forall i :: 0 <= i < |s.gaps| ==> s.gaps[i].end != from)
    ensures LastGap(s.gaps, frame.End(), g).Some?
    ensures var h := LastGap(s.gaps, frame.End(), g).value;
      Located(s, frame, from, g, h, Max(from, s.gaps[g].start), Min(frame.End(), s.gaps[h].end))
  {
    LastGapFound(s.gaps, frame.End(), g);
  }

  /** A frame with something new reaches a gap, and is queued unless there are too many gaps. */
  lemma {:induction false} PlacedIs<T>(s: Sorter<T>, frame: Frame<T>, g: nat, h: nat, start: nat, end: nat)
    requires g <= h < |s.gaps| && frame.offset <= start <= end <= frame.End()
    ensures Placed(s, frame, g, h, start, end).1 == Inserted(s, g, h, Trimmed(frame, start, end))
    ensures Placed(s, frame, g, h, start, end).0 in {TooManyGaps, Queued}
  {
  }

  lemma {:induction false} NewFrame<T>(s: Sorter<T>, stream: seq<T>, frame: Frame<T>, from: nat, g: nat)
    requires Indexed(s, stream) && Slice(stream, frame) && frame.data != [] && from == CutStart(s, frame) < frame.End()
    requires g == FirstGap(s.gaps, from, frame.End(), 0) < |s.gaps| && s.gaps[g].start < frame.End()
    requires forall i :: 0 <= i < g ==> s.gaps[i].end < from
    ensures !Arrived(s.gaps, frame.offset, frame.End())
    ensures var (r, s') := PushedFrom(s, frame, from); (r.TooManyGaps? || r.Queued?) && (r.Queued? ==> Indexed(s', stream) && Accepted(s, frame, s'))
  {
    NotAtGapEnd(s, stream, frame, from);
    SearchesLocate(s, frame, from, g);
    var h := LastGap(s.gaps, frame.End(), g).value;
    var start, cut := Max(from, s.gaps[g].start), Min(frame.End(), s.gaps[h].end);
    PushedPlaces(s, frame, from, g, h);
    PlacedIs(s, frame, g, h, start, cut);
    TrimmedAccepted(s, stream, frame, from, g, h, start, cut);
  }

  /** A frame that reaches no gap has arrived. */
  lemma OldFrame<T>(s: Sorter<T>, stream: seq<T>, frame: Frame<T>, from: nat, g: nat)
    requires Indexed(s, stream) && Slice(stream, frame) && frame.data != [] && from == CutStart(s, frame) < frame.End()
    requires g == FirstGap(s.gaps, from, frame.End(), 0) < |s.gaps| && frame.End() <= s.gaps[g].start
    requires forall i :: 0 <= i < g ==> s.gaps[i].end < from
    ensures Arrived(s.gaps, frame.offset, frame.End()) && PushedFrom(s, frame, from) == (DuplicateData, s)
  {
    NotAtGapEnd(s, stream, frame, from);
    BetweenGapsArrived(s.gaps, from, frame.End(), g);
  }

  /** Reassembly: Push of any frame of the stream never reports an internal error, reports a duplicate
      exactly when every byte has arrived, and otherwise keeps the index with exactly the frame's bytes
      gone from the gaps. */
  lemma PushKeepsIndex<T>(s: Sorter<T>, stream: seq<T>, frame: Frame<T>)
    requires Indexed(s, stream) && Honest(stream, frame)
    ensures var (r, s') := Pushed(s, frame);
      && !r.NoGapFound? && !r.NoEndGapFound?
      && (r.EmptyData? <==> frame.data == [] && !frame.fin)
      && (r.DuplicateData? <==> frame.data != [] && Arrived(s.gaps, frame.offset, frame.End()))
      && (r.EmptyData? || r.DuplicateData? ==> s' == s)
      && (r.Queued? || r.DuplicateData? ==> Indexed(s', stream) && Accepted(s, frame, s'))
  {
    if frame.data == [] {
      if frame.fin { FinQueued(s, stream, frame); }
    } else if frame.End() <= CutStart(s, frame) {
      assert FrameOk(s, stream, frame.offset);
    } else {
      var from := CutStart(s, frame);
      FirstGapFound(s.gaps, from, frame.End(), 0);
      var g := FirstGap(s.gaps, from, frame.End(), 0);
      if frame.End() <= s.gaps[g].start { OldFrame(s, stream, frame, from, g); } else { NewFrame(s, stream, frame, from, g); }
    }
  }

  /** A frame strictly inside one gap splits it. */
  ghost predicate Splits<T>(gaps: seq<Gap>, frame: Frame<T>) {
    exists g :: 0 <= g < |gaps| && gaps[g].start < frame.offset && frame.End() < gaps[g].end
  }

  lemma QueuedArrived<T>(s: Sorter<T>, stream: seq<T>, x: nat)
    requires Indexed(s, stream) && x < |stream|
    ensures x in s.queued ==> !Missing(s.gaps, x)
  {
    if x in s.queued { assert FrameOk(s, stream, x); }
  }

  /** Of a frame that lies inside a gap nothing has arrived. */
  lemma {:induction false} InsideIsNew<T>(s: Sorter<T>, stream: seq<T>, frame: Frame<T>, k: nat)
    requires Indexed(s, stream) && Slice(stream, frame) && frame.data != []
    requires k < |s.gaps| && s.gaps[k].start < frame.offset && frame.End() < s.gaps[k].end
    ensures CutStart(s, frame) == frame.offset && FirstGap(s.gaps, frame.offset, frame.End(), 0) == k
    ensures LastGap(s.gaps, frame.End(), k) == Some(k)
  {
    QueuedArrived(s, stream, frame.offset);
    assert s.gaps[k].start <= frame.offset < s.gaps[k].end;
    FirstGapFound(s.gaps, frame.offset, frame.End(), 0);
    var g := FirstGap(s.gaps, frame.offset, frame.End(), 0);
    assert g <= k;
    assert forall i :: 0 <= i < k ==> s.gaps[i].end < s.gaps[k].start;
  }

  /** With room for one more gap at most, the list overflows exactly when it is full and the frame splits a gap. */
  lemma {:induction false} TooManyGapsIff<T>(s: Sorter<T>, stream: seq<T>, frame: Frame<T>)
    requires Indexed(s, stream) && Honest(stream, frame) && |s.gaps| <= MaxStreamFrameSorterGaps
    ensures Pushed(s, frame).0.TooManyGaps? <==>
      frame.data != [] && |s.gaps| == MaxStreamFrameSorterGaps && Splits(s.gaps, frame)
  {
    if frame.data != [] {
      if k :| 0 <= k < |s.gaps| && s.gaps[k].start < frame.offset && frame.End() < s.gaps[k].end {
        InsideIsNew(s, stream, frame, k);
        SplitCount(s, frame, k);
      }
      if Pushed(s, frame).0.TooManyGaps? { OverflowSplits(s, stream, frame); }
    }
  }

  lemma {:induction false} SplitCount<T>(s: Sorter<T>, frame: Frame<T>, k: nat)
    requires GapsOk(s.gaps) && frame.data != [] && CutStart(s, frame) == frame.offset
    requires FirstGap(s.gaps, frame.offset, frame.End(), 0) == k < |s.gaps| && LastGap(s.gaps, frame.End(), k) == Some(k)
    requires s.gaps[k].start < frame.offset && frame.End() < s.gaps[k].end
    ensures Pushed(s, frame).0.TooManyGaps? <==> |s.gaps| + 1 > MaxStreamFrameSorterGaps
  {
    PushedPlaces(s, frame, frame.offset, k, k);
    FilledIndex(s.gaps, k, k, frame.offset, frame.End(), 0);
  }

  lemma {:induction false} OneMoreGap(gaps: seq<Gap>, g: nat, h: nat, start: nat, end: nat)
    requires GapsOk(gaps) && Spans(gaps, g, h, start, end) && |Filled(gaps, g, h, start, end)| > |gaps|
    ensures |Filled(gaps, g, h, start, end)| == |gaps| + 1 && g == h && start != gaps[g].start && end != gaps[g].end
  {
    FilledIndex(gaps, g, h, start, end, 0);
  }

  /** Where a frame with something new is placed. */
  lemma {:induction false} PlaceOf<T>(s: Sorter<T>, stream: seq<T>, frame: Frame<T>) returns (g: nat, h: nat, start: nat, cut: nat)
    requires Indexed(s, stream) && Slice(stream, frame) && frame.data != [] && !Pushed(s, frame).0.DuplicateData?
    ensures Located(s, frame, CutStart(s, frame), g, h, start, cut) && Arrived(s.gaps, frame.offset, CutStart(s, frame))
    ensures frame.offset <= start <= cut <= frame.End() && Pushed(s, frame) == Placed(s, frame, g, h, start, cut)
  {
    var from := CutStart(s, frame);
    NotAtGapEnd(s, stream, frame, from);
    FirstGapFound(s.gaps, from, frame.End(), 0);
    g := FirstGap(s.gaps, from, frame.End(), 0);
    SearchesLocate(s, frame, from, g);
    h := LastGap(s.gaps, frame.End(), g).value;
    start, cut := Max(from, s.gaps[g].start), Min(frame.End(), s.gaps[h].end);
    PushedPlaces(s, frame, from, g, h);
  }

  lemma {:induction false} StartsInside<T>(gaps: seq<Gap>, frame: Frame<T>, from: nat, g: nat)
    requires g < |gaps| && frame.offset <= from && Arrived(gaps, frame.offset, from)
    requires gaps[g].start < from < gaps[g].end && frame.End() < gaps[g].end
    ensures Splits(gaps, frame)
  {
    assert Missing(gaps, from - 1);
  }

  lemma {:induction false} OverflowSplits<T>(s: Sorter<T>, stream: seq<T>, frame: Frame<T>)
    requires Indexed(s, stream) && Honest(stream, frame) && |s.gaps| <= MaxStreamFrameSorterGaps && frame.data != []
    requires Pushed(s, frame).0.TooManyGaps?
    ensures |s.gaps| == MaxStreamFrameSorterGaps && Splits(s.gaps, frame)
  {
    var from := CutStart(s, frame);
    var g, h, start, cut := PlaceOf(s, stream, frame);
    LocatedSpans(s, frame, from, g, h, start, cut);
    PlacedIs(s, frame, g, h, start, cut);
    OneMoreGap(s.gaps, g, h, start, cut);
    StartsInside(s.gaps, frame, from, g);
  }

  // ---------- the end marker of a frame that is cut ----------

  /** The last byte of a marked frame has arrived and some other byte of it has not: Push cuts the frame's
      tail off and leaves the marker on what it queues. */
  ghost predicate CutsEnd<T>(gaps: seq<Gap>, frame: Frame<T>) {
    frame.fin && frame.data != [] && !Missing(gaps, frame.End() - 1) && !Arrived(gaps, frame.offset, frame.End())
  }

  /** The part of a frame with something new that is queued: it starts at a byte that was missing, and stops
      short of the frame's end exactly when the last byte had arrived. */
  lemma {:induction false} QueuedPart<T>(s: Sorter<T>, stream: seq<T>, frame: Frame<T>) returns (g: nat, h: nat, start: nat, cut: nat)
    requires Indexed(s, stream) && Slice(stream, frame) && frame.data != [] && !Pushed(s, frame).0.DuplicateData?
    ensures g <= h < |s.gaps| && frame.offset <= start < cut <= frame.End() && Spans(s.gaps, g, h, start, cut)
    ensures Pushed(s, frame).1 == Inserted(s, g, h, Trimmed(frame, start, cut))
    ensures Missing(s.gaps, start) && start !in s.queued
    ensures cut < frame.End() <==> !Missing(s.gaps, frame.End() - 1)
  {
    g, h, start, cut := PlaceOf(s, stream, frame);
    LocatedSpans(s, frame, CutStart(s, frame), g, h, start, cut);
    TrimmedArrived(s, frame, CutStart(s, frame), g, h, start, cut);
    PlacedIs(s, frame, g, h, start, cut);
    QueuedArrived(s, stream, start);
    assert Missing(s.gaps, start);
    if cut == frame.End() { assert s.gaps[h].start <= cut - 1 < s.gaps[h].end; }
  }

  /** A marked frame, new at `o`, that stops short of `end`. */
  ghost predicate ShortMark<T>(s: Sorter<T>, s': Sorter<T>, end: nat, o: nat) {
    o in s'.queued && o !in s.queued && s'.queued[o].fin && s'.queued[o].End() < end
  }

  lemma {:induction false} InsertedMark<T>(s: Sorter<T>, g: nat, h: nat, part: Frame<T>, end: nat)
    requires g <= h < |s.gaps| && part.offset !in s.queued
    ensures (exists o :: ShortMark(s, Inserted(s, g, h, part), end, o)) <==> part.fin && part.End() < end
  {
    if part.fin && part.End() < end { assert ShortMark(s, Inserted(s, g, h, part), end, part.offset); }
  }

  /** Push queues a marked part that stops short of the frame's end exactly in that case. */
  lemma {:induction false} CutShortIff<T>(s: Sorter<T>, stream: seq<T>, frame: Frame<T>)
    requires Indexed(s, stream) && Honest(stream, frame)
    ensures (exists o :: ShortMark(s, Pushed(s, frame).1, frame.End(), o)) <==> CutsEnd(s.gaps, frame)
  {
    PushKeepsIndex(s, stream, frame);
    if frame.data != [] && !Pushed(s, frame).0.DuplicateData? {
      var g, h, start, cut := QueuedPart(s, stream, frame);
      InsertedMark(s, g, h, Trimmed(frame, start, cut), frame.End());
      assert frame.offset <= start < frame.End() && Missing(s.gaps, start);
    }
  }

  /** Without it, whatever marked frame a push queues ends where the pushed frame ends. */
  lemma {:induction false} UncutMarks<T>(s: Sorter<T>, stream: seq<T>, frame: Frame<T>, s': Sorter<T>, o: nat)
    requires Indexed(s, stream) && Honest(stream, frame) && !CutsEnd(s.gaps, frame) && s' == Pushed(s, frame).1
    requires o in s'.queued && s'.queued[o].fin
    ensures (o in s.queued && s.queued[o] == s'.queued[o]) || (frame.fin && s'.queued[o].End() == frame.End())
  {
    PushKeepsIndex(s, stream, frame);
    if frame.data != [] && !Pushed(s, frame).0.DuplicateData? {
      var g, h, start, cut := QueuedPart(s, stream, frame);
    }
  }

  /** Such a frame never overflows the gap list. */
  lemma {:induction false} CutIsQueued<T>(s: Sorter<T>, stream: seq<T>, frame: Frame<T>)
    requires Indexed(s, stream) && Honest(stream, frame) && |s.gaps| <= MaxStreamFrameSorterGaps && CutsEnd(s.gaps, frame)
    ensures Pushed(s, frame).0.Queued?
  {
    PushKeepsIndex(s, stream, frame);
    TooManyGapsIff(s, stream, frame);
    if k :| 0 <= k < |s.gaps| && s.gaps[k].start < frame.offset && frame.End() < s.gaps[k].end {
      assert Missing(s.gaps, frame.End() - 1);
    }
    NewFrameResult(s, stream, frame);
  }

  lemma {:induction false} NewFrameResult<T>(s: Sorter<T>, stream: seq<T>, frame: Frame<T>)
    requires Indexed(s, stream) && Slice(stream, frame) && frame.data != [] && !Pushed(s, frame).0.DuplicateData?
    ensures Pushed(s, frame).0.Queued? || Pushed(s, frame).0.TooManyGaps?
  {
    var g, h, start, cut := PlaceOf(s, stream, frame);
    PlacedIs(s, frame, g, h, start, cut);
  }

  // ---------- runs ----------

  datatype Op<!T> = PushOp(frame: Frame<T>) | PopOp

  /** What an error-free call leaves behind. */
  ghost predicate Leads<T>(s: Sorter<T>, op: Op<T>, s': Sorter<T>)
    requires GapsOk(s.gaps)
  {
    match op
    case PushOp(f) => var (r, t) := Pushed(s, f); (r.Queued? || r.DuplicateData?) && s' == t
    case PopOp => s' == if s.readPosition in s.queued then Popped(s) else s
  }

  /** The states of an error-free run on slices of one stream. */
  ghost predicate ErrorFree<T>(stream: seq<T>, ops: seq<Op<T>>, states: seq<Sorter<T>>) {
    && |states| == |ops| + 1 && states[0] == Sorter(map[], 0, [Gap(0, MaxByteCount)]) && |stream| < MaxByteCount
    && (forall i :: 0 <= i < |ops| && ops[i].PushOp? ==> Honest(stream, ops[i].frame))
    && (forall i :: 0 <= i < |ops| ==> Steps(states[i], ops[i], states[i + 1]))
  }

  ghost predicate Steps<T>(s: Sorter<T>, op: Op<T>, s': Sorter<T>) { GapsOk(s.gaps) ==> Leads(s, op, s') }

  /** Some pushed frame holds byte `x`. */
  ghost predicate PushedByte<T>(ops: seq<Op<T>>, x: nat) {
    exists i :: 0 <= i < |ops| && ops[i].PushOp? && ops[i].frame.offset <= x < ops[i].frame.End()
  }

  /** The gap list is the complement of what was pushed. */
  ghost predicate Complement<T>(gaps: seq<Gap>, ops: seq<Op<T>>) {
    forall x: nat :: Missing(gaps, x) <==> x < MaxByteCount && !PushedByte(ops, x)
  }

  lemma {:induction false} PushedByteNext<T>(ops: seq<Op<T>>, x: nat)
    requires ops != []
    ensures var op := ops[|ops| - 1];
      PushedByte(ops, x) <==> PushedByte(ops[..|ops| - 1], x) || (op.PushOp? && op.frame.offset <= x < op.frame.End())
  {
    var k := |ops| - 1;
    if i :| 0 <= i < |ops| && ops[i].PushOp? && ops[i].frame.offset <= x < ops[i].frame.End() && i < k {
      assert ops[..k][i] == ops[i];
    }
    if i :| 0 <= i < k && ops[..k][i].PushOp? && ops[..k][i].frame.offset <= x < ops[..k][i].frame.End() {
      assert ops[i] == ops[..k][i];
    }
  }

  lemma {:induction false} ComplementNext<T>(gaps: seq<Gap>, ops: seq<Op<T>>, gaps': seq<Gap>)
    requires ops != [] && Complement(gaps, ops[..|ops| - 1])
    requires var op := ops[|ops| - 1];
      forall x: nat :: Missing(gaps', x) <==> Missing(gaps, x) && !(op.PushOp? && op.frame.offset <= x < op.frame.End())
    ensures Complement(gaps', ops)
  {
    forall x: nat ensures Missing(gaps', x) <==> x < MaxByteCount && !PushedByte(ops, x) { PushedByteNext(ops, x); }
  }

  /** One call of a run. */
  lemma {:induction false} LeadsKeeps<T>(s: Sorter<T>, stream: seq<T>, op: Op<T>, s': Sorter<T>)
    requires Indexed(s, stream) && Leads(s, op, s') && (op.PushOp? ==> Honest(stream, op.frame))
    requires |s.gaps| <= MaxStreamFrameSorterGaps
    ensures Indexed(s', stream) && |s'.gaps| <= MaxStreamFrameSorterGaps
    ensures forall x: nat :: Missing(s'.gaps, x) <==> Missing(s.gaps, x) && !(op.PushOp? && op.frame.offset <= x < op.frame.End())
  {
    match op
    case PushOp(f) =>
      PushKeepsIndex(s, stream, f);
      QueuedWithinLimit(s, f);
    case PopOp => if s.readPosition in s.queued { HeadPopped(s, stream); }
  }

  lemma {:induction false} PlacedWithinLimit<T>(s: Sorter<T>, f: Frame<T>, g: nat, h: nat, start: nat, end: nat)
    requires g <= h < |s.gaps| && f.offset <= start <= end <= f.End() && Placed(s, f, g, h, start, end).0.Queued?
    ensures |Placed(s, f, g, h, start, end).1.gaps| <= MaxStreamFrameSorterGaps
  {
  }

  lemma {:induction false} FromWithinLimit<T>(s: Sorter<T>, f: Frame<T>, from: nat)
    requires GapsOk(s.gaps) && |s.gaps| <= MaxStreamFrameSorterGaps && f.offset <= from < f.End()
    ensures PushedFrom(s, f, from).0.Queued? || PushedFrom(s, f, from).0.DuplicateData? ==>
      |PushedFrom(s, f, from).1.gaps| <= MaxStreamFrameSorterGaps
  {
    var end := f.End();
    var g := FirstGap(s.gaps, from, end, 0);
    if g < |s.gaps| && s.gaps[g].start < end && LastGap(s.gaps, end, g).Some? {
      var h := LastGap(s.gaps, end, g).value;
      PushedPlaces(s, f, from, g, h);
      var start, cut := Max(from, s.gaps[g].start), Min(end, s.gaps[h].end);
      if Placed(s, f, g, h, start, cut).0.Queued? { PlacedWithinLimit(s, f, g, h, start, cut); }
      PlacedIs(s, f, g, h, start, cut);
    }
  }

  lemma {:induction false} QueuedWithinLimit<T>(s: Sorter<T>, f: Frame<T>)
    requires GapsOk(s.gaps) && |s.gaps| <= MaxStreamFrameSorterGaps
    ensures Pushed(s, f).0.Queued? || Pushed(s, f).0.DuplicateData? ==> |Pushed(s, f).1.gaps| <= MaxStreamFrameSorterGaps
  {
    if f.data != [] && CutStart(s, f) < f.End() { FromWithinLimit(s, f, CutStart(s, f)); }
  }

  /** What every error-free run keeps. */
  ghost predicate Reassembled<T>(stream: seq<T>, ops: seq<Op<T>>, s: Sorter<T>) {
    Indexed(s, stream) && Complement(s.gaps, ops) && |s.gaps| <= MaxStreamFrameSorterGaps
  }

  lemma {:induction false} NothingPushed<T>(stream: seq<T>)
    requires |stream| < MaxByteCount
    ensures Reassembled(stream, [], Sorter(map[], 0, [Gap(0, MaxByteCount)]))
  {
    var gaps := [Gap(0, MaxByteCount)];
    forall x: nat ensures Missing(gaps, x) <==> x < MaxByteCount { assert x < MaxByteCount ==> gaps[0].start <= x < gaps[0].end; }
  }

  lemma {:induction false} ErrorFreePrefix<T>(stream: seq<T>, ops: seq<Op<T>>, states: seq<Sorter<T>>, k: nat)
    requires ErrorFree(stream, ops, states) && k <= |ops|
    ensures ErrorFree(stream, ops[..k], states[..k + 1])
  {
    forall i | 0 <= i < k ensures Steps(states[..k + 1][i], ops[..k][i], states[..k + 1][i + 1]) {
      assert Steps(states[i], ops[i], states[i + 1]);
    }
  }

  lemma {:induction false} RunKeeps<T>(stream: seq<T>, ops: seq<Op<T>>, states: seq<Sorter<T>>)
    requires ErrorFree(stream, ops, states)
    ensures Reassembled(stream, ops, states[|ops|])
  {
    if ops == [] {
      NothingPushed(stream);
    } else {
      var k := |ops| - 1;
      ErrorFreePrefix(stream, ops, states, k);
      RunKeeps(stream, ops[..k], states[..k + 1]);
      NextReassembled(stream, ops, states[k], states[k + 1]);
    }
  }

  lemma {:induction false} NextReassembled<T>(stream: seq<T>, ops: seq<Op<T>>, s: Sorter<T>, s': Sorter<T>)
    requires ops != [] && Reassembled(stream, ops[..|ops| - 1], s) && Steps(s, ops[|ops| - 1], s')
    requires ops[|ops| - 1].PushOp? ==> Honest(stream, ops[|ops| - 1].frame)
    ensures Reassembled(stream, ops, s')
  {
    LeadsKeeps(s, stream, ops[|ops| - 1], s');
    ComplementNext(s.gaps, ops, s'.gaps);
  }

  /** Reassembly over whole runs: the gap list is exactly the complement of the bytes pushed, the index is exact,
      and the head is there whenever the byte at the read position was pushed. */
  lemma {:induction false} RunReassembles<T>(stream: seq<T>, ops: seq<Op<T>>, states: seq<Sorter<T>>)
    requires ErrorFree(stream, ops, states)
    ensures var s := states[|ops|];
      && Indexed(s, stream) && Complement(s.gaps, ops) && |s.gaps| <= MaxStreamFrameSorterGaps
      && (PushedByte(ops, s.readPosition) ==> s.readPosition in s.queued && |s.queued[s.readPosition].data| > 0)
  {
    RunKeeps(stream, ops, states);
    ArrivedMeansHead(states[|ops|], stream);
  }

  class StreamFrameSorter<T(!new)> {
    var queuedFrames: map<nat, Frame<T>>
    var readPosition: nat
    var gaps: seq<Gap>

    constructor ()
      ensures Value() == Sorter(map[], 0, [Gap(0, MaxByteCount)]) && GapsOk(gaps)
    {
      queuedFrames := map[];
      readPosition := 0;
      gaps := [Gap(0, MaxByteCount)];
    }

    ghost function Value(): Sorter<T>
      reads this
    {
      Sorter(queuedFrames, readPosition, gaps)
    }

    /** Skips all gaps that are before [start, end). */
    method SkipGaps(start: nat, end: nat) returns (g: nat)
      ensures g == FirstGap(gaps, start, end, 0)
    {
      g := 0;
      while g < |gaps| && !(end <= gaps[g].start) && !(start <= gaps[g].end)
        invariant g <= |gaps| && FirstGap(gaps, start, end, g) == FirstGap(gaps, start, end, 0)
      {
        g := g + 1;
      }
    }

    /** Finds the last gap the interval reaches, dropping the first queued frame of every region that it
        covers on the way. */
    method SwallowGaps(g: nat, end: nat) returns (h: Option<nat>)
      requires g < |gaps|
      modifies this`queuedFrames
      ensures h == LastGap(gaps, end, g)
      ensures h.Some? ==> queuedFrames == old(queuedFrames) - set k | g <= k < h.value :: gaps[k].end
    {
      var i := g;
      while end >= gaps[i].end
        invariant g <= i < |gaps| && LastGap(gaps, end, i) == LastGap(gaps, end, g)
        invariant queuedFrames == old(queuedFrames) - set k | g <= k < i :: gaps[k].end
        decreases |gaps| - i
      {
        if i + 1 == |gaps| { return None; }
        if end <= gaps[i + 1].start { return Some(i); }
        queuedFrames := queuedFrames - {gaps[i].end};
        i := i + 1;
      }
      return Some(i);
    }

    /** Queues what is new of a frame.  After an internal error the sorter is not to be used any more. */
    method Push(frame: Frame<T>) returns (r: PushResult)
      requires GapsOk(gaps)
      modifies this
      ensures r == Pushed(old(Value()), frame).0
      ensures r.Queued? || r.DuplicateData? || r.EmptyData? ==> Value() == Pushed(old(Value()), frame).1
    {
      if |frame.data| == 0 {
        if frame.fin {
          queuedFrames := queuedFrames[frame.offset := frame];
          return Queued;
        }
        return EmptyData;
      }
      var start := frame.offset;
      if start in queuedFrames {
        if |frame.data| <= |queuedFrames[start].data| { return DuplicateData; }
        start := start + |queuedFrames[start].data|;
      }
      assert start == CutStart(Value(), frame) < frame.End();
      assert Pushed(Value(), frame) == PushedFrom(Value(), frame, start);
      r := PushFrom(frame, start);
    }

    /** The part of Push after the cut against a queued frame at the same offset. */
    method PushFrom(frame: Frame<T>, from: nat) returns (r: PushResult)
      requires GapsOk(gaps) && frame.offset <= from < frame.End()
      modifies this
      ensures r == PushedFrom(old(Value()), frame, from).0
      ensures r.Queued? || r.DuplicateData? ==> Value() == PushedFrom(old(Value()), frame, from).1
    {
      var end := frame.End();
      var g := SkipGaps(from, end);
      if g == |gaps| { return NoGapFound; }
      if end <= gaps[g].start { return DuplicateData; }
      var h := SwallowGaps(g, end);
      if h.None? { return NoEndGapFound; }
      PushedPlaces(old(Value()), frame, from, g, h.value);
      r := Fill(frame, g, h.value, Max(from, gaps[g].start), Min(end, gaps[h.value].end), old(Value()));
    }

    /** Shrinks, splits or removes the gaps that the frame fills and queues its trimmed data. */
    method Fill(frame: Frame<T>, g: nat, h: nat, start: nat, end: nat, ghost before: Sorter<T>) returns (r: PushResult)
      requires g <= h < |gaps| && before.gaps == gaps && before.readPosition == readPosition
      requires frame.offset <= start <= end <= frame.End() && end <= gaps[h].end
      requires queuedFrames == before.queued - set k | g <= k < h :: gaps[k].end
      modifies this`gaps, this`queuedFrames
      ensures r == Placed(before, frame, g, h, start, end).0
      ensures r.Queued? ==> Value() == Placed(before, frame, g, h, start, end).1
    {
      var gap, endGap := gaps[g], gaps[h];
      if start == gap.start {
        gaps := gaps[..g] + (if end < endGap.end then [Gap(end, endGap.end)] else []) + gaps[h + 1..];
      } else if end == endGap.end {
        gaps := gaps[..g] + [Gap(gap.start, start)] + gaps[h + 1..];
      } else {
        gaps := gaps[..g] + [Gap(gap.start, start), Gap(end, endGap.end)] + gaps[h + 1..];
      }
      assert gaps == Filled(before.gaps, g, h, start, end);
      if |gaps| > MaxStreamFrameSorterGaps { return TooManyGaps; }
      queuedFrames := queuedFrames[start := Trimmed(frame, start, end)];
      return Queued;
    }

    function Head(): (r: Option<Frame<T>>)
      reads this
    {
      if readPosition in queuedFrames then Some(queuedFrames[readPosition]) else None
    }

    /** Takes the frame at the read position and moves past it. */
    method Pop() returns (r: Option<Frame<T>>)
      modifies this`readPosition, this`queuedFrames
      ensures r == old(Head())
      ensures Value() == if r.Some? then Popped(old(Value())) else old(Value())
    {
      r := Head();
      if r.Some? {
        readPosition := readPosition + |r.value.data|;
        queuedFrames := queuedFrames - {r.value.offset};
      }
    }
  }
}
