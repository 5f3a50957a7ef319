/** How the intervals of an acknowledgement travel: as blocks of a one-byte gap and a length.  A gap longer
    than 255 packets takes several blocks, all but the last of length zero. */
module AckWire {
  import opened ReceivedPackets
  import opened AckFrames
  import opened Folds

  datatype Block = Block(gap: nat, length: nat)

  const MaxGap: nat := 255

  function BlocksFor(gap: nat, length: nat): seq<Block> {
    if gap <= MaxGap then [Block(gap, length)] else [Block(MaxGap, 0)] + BlocksFor(gap - MaxGap, length)
  }

  /** The number of blocks for one interval, and the gap of the last of them, as the writer computes them. */
  function BlockCount(gap: nat): nat { gap / MaxGap + if gap % MaxGap == 0 then 0 else 1 }

  function LastGap(gap: nat): nat requires gap > 0 { 1 + (gap - 1) % MaxGap }

  function Fillers(n: nat): seq<Block> { seq(n, _ => Block(MaxGap, 0)) }

  lemma {:induction false} BlocksClosed(gap: nat, length: nat)
    requires gap > 0
    ensures BlockCount(gap) >= 1
    ensures BlocksFor(gap, length) == Fillers(BlockCount(gap) - 1) + [Block(LastGap(gap), length)]
    decreases gap
  {
    if gap > MaxGap {
      CountSteps(gap);
      BlocksClosed(gap - MaxGap, length);
      FillersNext(BlockCount(gap) - 1);
    } else {
      CountOne(gap);
    }
  }

  lemma {:induction false} CountOne(gap: nat)
    requires 0 < gap <= MaxGap
    ensures BlockCount(gap) == 1 && LastGap(gap) == gap
  {
  }

  lemma {:induction false} CountSteps(gap: nat)
    requires gap > MaxGap
    ensures BlockCount(gap) == BlockCount(gap - MaxGap) + 1 && LastGap(gap) == LastGap(gap - MaxGap) && BlockCount(gap - MaxGap) >= 1
  {
  }

  lemma {:induction false} FillersNext(n: nat)
    requires n > 0
    ensures Fillers(n) == [Block(MaxGap, 0)] + Fillers(n - 1)
  {
  }

  function GapBelow(before: Interval, r: Interval): int { before.start - r.end - 1 }

  function Size(r: Interval): int { r.end - r.start + 1 }

  /** Interval `i` holds numbers and lies below the one before it with a gap. */
  predicate Link(d: seq<Interval>, i: nat)
    requires i < |d|
  {
    d[i].start <= d[i].end && (i > 0 ==> d[i].end + 1 < d[i - 1].start)
  }

  predicate Chained(d: seq<Interval>) { forall i :: 0 <= i < |d| ==> Link(d, i) }

  /** The lists that acknowledgement frames carry. */
  lemma {:induction false} FallingIsChained(d: seq<Interval>)
    requires Falling(d)
    ensures Chained(d)
  {
    forall i | 0 <= i < |d| ensures Link(d, i) { assert i > 0 ==> d[i].end + 1 < d[i - 1].start; }
  }

  lemma {:induction false} PrefixChained(d: seq<Interval>, k: nat)
    requires Chained(d) && k <= |d|
    ensures Chained(d[..k])
  {
    forall i | 0 <= i < k ensures Link(d[..k], i) { assert Link(d, i); }
  }

  /** All intervals but the first, as blocks. */
  ghost function Encoded(d: seq<Interval>): seq<Block>
    requires Chained(d)
  {
    if |d| <= 1 then []
    else
      var k := |d| - 1;
      PrefixChained(d, k);
      assert Link(d, k);
      Encoded(d[..k]) + BlocksFor(GapBelow(d[k - 1], d[k]), Size(d[k]))
  }

  // ---------- reading ----------

  /** The reader: the intervals so far, whether the last one is still moving down, and whether it has numbers. */
  datatype Reader = Reader(ranges: seq<(int, int)>, inLongBlock: bool, complete: bool)

  function Read(p: Reader, b: Block): Reader {
    if p.ranges == [] then p
    else
      var k := |p.ranges| - 1;
      var (first, last) := p.ranges[k];
      if p.inLongBlock then
        Reader(p.ranges[k := (first - (b.gap + b.length), last - b.gap)], b.length == 0, p.complete || b.length > 0)
      else
        var last' := first - b.gap - 1;
        Reader(p.ranges + [(last' - b.length + 1, last')], b.length == 0, b.length > 0)
  }

  function Pairs(d: seq<Interval>): seq<(int, int)> { seq(|d|, i requires 0 <= i < |d| => (d[i].start, d[i].end)) }

  function Start(r: Interval): Reader { Reader([(r.start, r.end)], false, true) }

  /** In the middle of a long gap: the blocks left move the interval down to its place. */
  lemma {:induction false} ReadLong(p: Reader, gap: nat, length: nat)
    requires p.inLongBlock && p.ranges != [] && !p.complete && gap > 0 && length > 0
    ensures var k := |p.ranges| - 1; var (first, last) := p.ranges[k];
      Fold(Read, p, BlocksFor(gap, length)) == Reader(p.ranges[k := (first - gap - length, last - gap)], false, true)
    decreases gap
  {
    if gap <= MaxGap {
      FoldCons(Read, p, Block(gap, length), []);
    } else {
      FoldCons(Read, p, Block(MaxGap, 0), BlocksFor(gap - MaxGap, length));
      ReadLong(Read(p, Block(MaxGap, 0)), gap - MaxGap, length);
    }
  }

  /** The blocks of one interval, read after the interval above it. */
  lemma {:induction false} ReadRange(p: Reader, before: Interval, r: Interval)
    requires !p.inLongBlock && p.ranges != [] && p.ranges[|p.ranges| - 1] == (before.start, before.end)
    requires r.start <= r.end && r.end + 1 < before.start
    ensures Fold(Read, p, BlocksFor(GapBelow(before, r), Size(r))) == Reader(p.ranges + [(r.start, r.end)], false, true)
  {
    var gap, length := GapBelow(before, r), Size(r);
    if gap <= MaxGap {
      FoldCons(Read, p, Block(gap, length), []);
    } else {
      FoldCons(Read, p, Block(MaxGap, 0), BlocksFor(gap - MaxGap, length));
      var q := Read(p, Block(MaxGap, 0));
      var x := before.start - MaxGap - 1;
      assert q == Reader(p.ranges + [(x + 1, x)], true, false);
      ReadLong(q, gap - MaxGap, length);
      assert q.ranges[|p.ranges| := (r.start, r.end)] == p.ranges + [(r.start, r.end)];
    }
  }

  lemma {:induction false} ReadThen(s: Reader, e: seq<Block>, p: Reader, before: Interval, r: Interval)
    requires Fold(Read, s, e) == p
    requires !p.inLongBlock && p.ranges != [] && p.ranges[|p.ranges| - 1] == (before.start, before.end)
    requires r.start <= r.end && r.end + 1 < before.start
    ensures Fold(Read, s, e + BlocksFor(GapBelow(before, r), Size(r))) == Reader(p.ranges + [(r.start, r.end)], false, true)
  {
    FoldAppend(Read, s, e, BlocksFor(GapBelow(before, r), Size(r)));
    ReadRange(p, before, r);
  }

  lemma {:induction false} ReadLast(d: seq<Interval>)
    requires Chained(d) && |d| > 1 && Chained(d[..|d| - 1])
    requires Fold(Read, Start(d[0]), Encoded(d[..|d| - 1])) == Reader(Pairs(d[..|d| - 1]), false, true)
    ensures Fold(Read, Start(d[0]), Encoded(d)) == Reader(Pairs(d), false, true)
  {
    var k := |d| - 1;
    assert Link(d, k);
    var p := Reader(Pairs(d[..k]), false, true);
    assert p.ranges[k - 1] == (d[k - 1].start, d[k - 1].end);
    ReadThen(Start(d[0]), Encoded(d[..k]), p, d[k - 1], d[k]);
    assert Pairs(d) == p.ranges + [(d[k].start, d[k].end)];
  }

  /** Reading what was written gives the intervals back. */
  lemma {:induction false} ReadEncoded(d: seq<Interval>)
    requires Chained(d) && d != []
    ensures Fold(Read, Start(d[0]), Encoded(d)) == Reader(Pairs(d), false, true)
  {
    if |d| > 1 {
      PrefixChained(d, |d| - 1);
      ReadEncoded(d[..|d| - 1]);
      ReadLast(d);
    } else {
      assert Pairs(d) == [(d[0].start, d[0].end)];
    }
  }

  // ---------- writing ----------

  /** The number of blocks of the first `n` intervals. */
  ghost function EncodedLength(d: seq<Interval>, n: nat): nat
    requires Chained(d) && n <= |d|
  {
    PrefixChained(d, n);
    |Encoded(d[..n])|
  }

  /** The first `n` intervals fit in the 255 blocks that one byte can count, the first one included, and no more do. */
  ghost predicate Fits(d: seq<Interval>, n: nat)
    requires Chained(d)
  {
    && 1 <= n <= |d| && EncodedLength(d, n) < MaxGap
    && (n < |d| ==> EncodedLength(d, n + 1) >= MaxGap)
  }

  /** How many intervals fit, if the first `n` do. */
  ghost function FitFrom(d: seq<Interval>, n: nat): (r: nat)
    requires Chained(d) && 1 <= n <= |d| && EncodedLength(d, n) < MaxGap
    ensures Fits(d, r)
    decreases |d| - n
  {
    if n < |d| && EncodedLength(d, n + 1) < MaxGap then FitFrom(d, n + 1) else n
  }

  ghost function Fit(d: seq<Interval>): (n: nat)
    requires Chained(d) && d != []
    ensures Fits(d, n) && Chained(d[..n])
  {
    var n := FitFrom(d, 1);
    PrefixChained(d, n);
    n
  }

  lemma {:induction false} EncodedNext(d: seq<Interval>, i: nat)
    requires Chained(d) && 1 <= i < |d|
    ensures Link(d, i) && Chained(d[..i]) && Chained(d[..i + 1])
    ensures Encoded(d[..i + 1]) == Encoded(d[..i]) + BlocksFor(GapBelow(d[i - 1], d[i]), Size(d[i]))
    ensures EncodedLength(d, i + 1) == EncodedLength(d, i) + BlockCount(GapBelow(d[i - 1], d[i])) > EncodedLength(d, i)
  {
    PrefixChained(d, i);
    PrefixChained(d, i + 1);
    assert d[..i + 1][..i] == d[..i];
    assert Link(d, i);
    BlocksClosed(GapBelow(d[i - 1], d[i]), Size(d[i]));
  }

  /** How many blocks are going to be written, the first interval included. */
  method NumWritableNackRanges(d: seq<Interval>) returns (numRanges: nat)
    requires Chained(d) && d != []
    ensures numRanges == EncodedLength(d, Fit(d)) + 1
  {
    numRanges := 0;
    var i: nat := 1;
    while i < |d|
      invariant 1 <= i <= |d| && numRanges == EncodedLength(d, i) < MaxGap && FitFrom(d, i) == Fit(d)
    {
      EncodedNext(d, i);
      var rangeLength := BlockCount(GapBelow(d[i - 1], d[i]));
      if numRanges + rangeLength < MaxGap { numRanges := numRanges + rangeLength; } else { break; }
      i := i + 1;
    }
    numRanges := numRanges + 1;
  }

  method WriteGap(gap: nat, length: nat) returns (bs: seq<Block>)
    requires gap > 0
    ensures bs == BlocksFor(gap, length)
  {
    BlocksClosed(gap, length);
    var num := BlockCount(gap);
    bs := [];
    var i: nat := 0;
    while i < num - 1
      invariant i <= num - 1 && bs == Fillers(i)
    {
      bs := bs + [Block(MaxGap, 0)];
      i := i + 1;
    }
    if num == 1 { LastOfOne(gap); }
    bs := bs + [Block(if num == 1 then gap else LastGap(gap), length)];
  }

  lemma {:induction false} LastOfOne(gap: nat)
    requires gap > 0 && BlockCount(gap) == 1
    ensures LastGap(gap) == gap
  {
    if gap > MaxGap { CountSteps(gap); }
  }

  lemma {:induction false} EncodedGrows(d: seq<Interval>, i: nat, n: nat)
    requires Chained(d) && 1 <= i <= n <= |d|
    ensures EncodedLength(d, i) <= EncodedLength(d, n) && (i < n ==> EncodedLength(d, i) < EncodedLength(d, n))
    decreases n - i
  {
    if i < n {
      EncodedNext(d, i);
      EncodedGrows(d, i + 1, n);
    }
  }

  /** Only the first interval fits exactly when the gap below it takes 255 blocks or more. */
  lemma {:induction false} OnlyFirstFits(d: seq<Interval>)
    requires Chained(d) && |d| > 1
    ensures Fit(d) == 1 <==> GapBelow(d[0], d[1]) > 254 * 255
  {
    var n := Fit(d);
    EncodedNext(d, 1);
    EncodedGrows(d, 2, if n < 2 then 2 else n);
    CountBound(GapBelow(d[0], d[1]));
  }

  lemma {:induction false} CountBound(gap: nat)
    ensures BlockCount(gap) >= 255 <==> gap > 254 * 255
  {
  }

  /** The first gap alone takes more blocks than one byte can count. */
  predicate TooWide(d: seq<Interval>) { |d| > 1 && GapBelow(d[0], d[1]) > 254 * 255 }

  lemma WideCount(d: seq<Interval>)
    requires Chained(d) && TooWide(d)
    ensures EncodedLength(d, 1) == 0 && Fit(d) == 1 && Chained(d[..2]) && |Encoded(d[..2])| >= 255
  {
    EncodedNext(d, 1);
    OnlyFirstFits(d);
    CountBound(GapBelow(d[0], d[1]));
  }

  /** Writes interval after interval; whether to stop is looked at after each one.  The count announced and the
      count written differ exactly when the first gap is too wide. */
  method WriteBlocks(d: seq<Interval>) returns (numRanges: nat, bs: seq<Block>)
    requires Chained(d) && d != []
    ensures 1 <= numRanges <= MaxGap
    ensures numRanges == |bs| + 1 <==> !TooWide(d)
    ensures !TooWide(d) ==> bs == Encoded(d[..Fit(d)])
    ensures TooWide(d) ==> numRanges == 1 && |bs| >= 255
  {
    ghost var n := Fit(d);
    ghost var m := if |d| > 1 && n == 1 then 2 else n;
    if |d| > 1 { OnlyFirstFits(d); }
    numRanges := NumWritableNackRanges(d);
    PrefixChained(d, 1);
    bs := [];
    var numRangesWritten, i: nat := 1, 1;
    while i < |d|
      invariant 1 <= i <= m && Chained(d[..i]) && bs == Encoded(d[..i]) && numRangesWritten == |bs| + 1
      invariant i == 1 || numRangesWritten < numRanges
    {
      EncodedNext(d, i);
      if i < n { EncodedGrows(d, i, n); }
      var more := WriteGap(GapBelow(d[i - 1], d[i]), Size(d[i]));
      bs, numRangesWritten, i := bs + more, numRangesWritten + |more|, i + 1;
      if i <= n { EncodedGrows(d, i, n); }
      if numRangesWritten >= numRanges { break; }
    }
    if n > 1 { EncodedGrows(d, i, n); }
    if TooWide(d) { WideCount(d); }
  }

  // ---------- frames on the wire ----------

  /** A written frame: the largest number, whether packets are missing, and the blocks. */
  datatype WireAck = WireAck(largest: nat, missing: bool, firstLength: nat, blocks: seq<Block>)

  datatype WriteResult = Written(wire: WireAck) | InconsistentLargest | InconsistentLowest | InconsistentCount

  /** The wire form of a frame whose blocks can be counted. */
  ghost function OnWire(a: AckFrame): WireAck
    requires Chained(a.ranges) && (a.ranges == [] ==> a.lowest <= a.largest)
  {
    if a.ranges == [] then WireAck(a.largest, false, a.largest - a.lowest + 1, [])
    else
      assert Link(a.ranges, 0);
      WireAck(a.largest, true, Size(a.ranges[0]), Encoded(a.ranges[..Fit(a.ranges)]))
  }

  method Write(a: AckFrame) returns (r: WriteResult)
    requires Chained(a.ranges) && (a.ranges == [] ==> a.lowest <= a.largest)
    ensures r.InconsistentLargest? <==> a.ranges != [] && a.largest != a.ranges[0].end
    ensures r.InconsistentLowest? <==> a.ranges != [] && a.largest == a.ranges[0].end && a.lowest != a.ranges[|a.ranges| - 1].start
    ensures r.InconsistentCount? <==>
      a.ranges != [] && a.largest == a.ranges[0].end && a.lowest == a.ranges[|a.ranges| - 1].start && TooWide(a.ranges)
    ensures r.Written? ==> r.wire == OnWire(a)
  {
    if a.ranges == [] { return Written(WireAck(a.largest, false, a.largest - a.lowest + 1, [])); }
    assert Link(a.ranges, 0);
    if a.largest != a.ranges[0].end { return InconsistentLargest; }
    if a.lowest != a.ranges[|a.ranges| - 1].start { return InconsistentLowest; }
    var numRanges, bs := WriteBlocks(a.ranges);
    if numRanges != |bs| + 1 { return InconsistentCount; }
    return Written(WireAck(a.largest, true, a.largest - a.ranges[0].start + 1, bs));
  }

  // ---------- parsing ----------

  ghost predicate ReaderOk(p: Reader) { |p.ranges| >= if p.complete then 1 else 2 }

  lemma {:induction false} FoldReaderOk(p: Reader, bs: seq<Block>)
    requires ReaderOk(p)
    ensures ReaderOk(Fold(Read, p, bs))
  {
    if bs != [] { FoldReaderOk(p, bs[..|bs| - 1]); }
  }

  /** The intervals read; one left without numbers is dropped. */
  ghost function RangesRead(w: WireAck): (r: seq<(int, int)>)
    requires w.firstLength <= w.largest
    ensures r != []
  {
    var start := Start(Interval(w.largest - w.firstLength + 1, w.largest));
    FoldReaderOk(start, w.blocks);
    var p := Fold(Read, start, w.blocks);
    if p.complete then p.ranges else p.ranges[..|p.ranges| - 1]
  }

  /** What the parser makes of a written frame. */
  ghost function Parsed(w: WireAck): Option<AckFrame> {
    if (w.missing && w.blocks == []) || (w.largest > 0 && w.firstLength < 1) || w.firstLength > w.largest then None
    else if !w.missing then Some(AckFrame(w.largest, if w.largest == 0 then 0 else w.largest + 1 - w.firstLength, []))
    else
      var d := Intervals(RangesRead(w));
      if d.None? then None
      else
        var a := AckFrame(w.largest, d.value[|d.value| - 1].start, d.value);
        if ValidRanges(a) then Some(a) else None
  }

  /** Pairs as intervals, unless a number is negative. */
  function Intervals(ps: seq<(int, int)>): (r: Option<seq<Interval>>)
    ensures r.Some? ==> |r.value| == |ps| && Pairs(r.value) == ps
  {
    if ps == [] then Some([])
    else
      var rest := Intervals(ps[..|ps| - 1]);
      var (first, last) := ps[|ps| - 1];
      if rest.None? || first < 0 || last < 0 then None else Some(rest.value + [Interval(first, last)])
  }

  lemma {:induction false} IntervalsOfPairs(d: seq<Interval>)
    ensures Intervals(Pairs(d)) == Some(d)
  {
    if d != [] {
      var k := |d| - 1;
      IntervalsOfPairs(d[..k]);
      assert Pairs(d)[..k] == Pairs(d[..k]);
      assert d == d[..k] + [d[k]];
    }
  }

  /** Reads the blocks one by one. */
  method ReadBlocks(w: WireAck) returns (ranges: seq<(int, int)>)
    requires w.firstLength <= w.largest
    ensures ranges == RangesRead(w)
  {
    var p := Start(Interval(w.largest - w.firstLength + 1, w.largest));
    ghost var start := p;
    FoldReaderOk(start, w.blocks);
    var i: nat := 0;
    while i < |w.blocks|
      invariant i <= |w.blocks| && p == Fold(Read, start, w.blocks[..i])
    {
      assert w.blocks[..i + 1][..i] == w.blocks[..i];
      p := Read(p, w.blocks[i]);
      i := i + 1;
    }
    assert w.blocks[..|w.blocks|] == w.blocks;
    ranges := p.ranges;
    if !p.complete { ranges := ranges[..|ranges| - 1]; }
  }

  method Parse(w: WireAck) returns (r: Option<AckFrame>)
    ensures r == Parsed(w)
  {
    if w.missing && |w.blocks| == 0 { return None; }
    if w.largest > 0 && w.firstLength < 1 { return None; }
    if w.firstLength > w.largest { return None; }
    if !w.missing { return Some(AckFrame(w.largest, if w.largest == 0 then 0 else w.largest + 1 - w.firstLength, [])); }
    var ranges := ReadBlocks(w);
    var d := Intervals(ranges);
    if d.None? { return None; }
    var a := AckFrame(w.largest, d.value[|d.value| - 1].start, d.value);
    var valid := ValidateAckRanges(a);
    return if valid then Some(a) else None;
  }

  // ---------- from one end to the other ----------

  lemma {:induction false} RangesArrive(d: seq<Interval>, n: nat, w: WireAck)
    requires Chained(d) && 2 <= n <= |d| && Chained(d[..n])
    requires w.largest == d[0].end && w.firstLength == Size(d[0]) && w.blocks == Encoded(d[..n])
    ensures w.firstLength <= w.largest && RangesRead(w) == Pairs(d[..n]) && w.blocks != []
  {
    assert Link(d, 1);
    EncodedNext(d, 1);
    EncodedGrows(d, 1, n);
    ReadEncoded(d[..n]);
  }

  lemma {:induction false} ParsedWhenRead(w: WireAck, a: AckFrame)
    requires w.missing && w.blocks != [] && 0 < w.firstLength <= w.largest && RangesRead(w) == Pairs(a.ranges)
    requires a.ranges != [] && a.largest == w.largest && a.lowest == a.ranges[|a.ranges| - 1].start && ValidRanges(a)
    ensures Parsed(w) == Some(a)
  {
    IntervalsOfPairs(a.ranges);
  }

  lemma {:induction false} ParsedRanges(a: AckFrame)
    requires WellFormed(a) && Chained(a.ranges) && a.ranges != [] && !TooWide(a.ranges)
    ensures Parsed(OnWire(a)) == Some(Cut(a, Fit(a.ranges)))
  {
    var n := Fit(a.ranges);
    OnlyFirstFits(a.ranges);
    RangesArrive(a.ranges, n, OnWire(a));
    CutValid(a, n);
    assert Link(a.ranges, 0);
    ParsedWhenRead(OnWire(a), Cut(a, n));
  }

  /** Over the wire: the sender fails exactly when the first gap is too wide, the parser exactly when a frame
      without gaps claims number zero; otherwise the longest part that fits arrives, from the top. */
  method Travel(a: AckFrame) returns (sent: WriteResult, r: Option<AckFrame>)
    requires WellFormed(a)
    ensures if TooWide(a.ranges) then sent == InconsistentCount && r == None
            else sent.Written? && r == if a.ranges == [] && a.lowest == 0 then None
                                       else if a.ranges == [] then Some(a) else Some(Cut(a, Fit(a.ranges)))
  {
    FallingIsChained(a.ranges);
    sent := Write(a);
    if !sent.Written? { return sent, None; }
    r := Parse(sent.wire);
    if a.ranges != [] { ParsedRanges(a); }
  }

  /** Every frame the receiver builds from numbers it recorded is of that form, and survives unless it is too wide. */
  lemma {:induction false} HandlerFramesTravel(r: seq<Interval>)
    requires Canonical(r) && r != [] && r[0].start > 0
    ensures var a := FrameOf(Highest(r).end, r); WellFormed(a) && a.lowest > 0
    ensures TooWide(FrameOf(Highest(r).end, r).ranges) <==>
      |r| > 1 && r[|r| - 1].start - r[|r| - 2].end - 1 > 254 * 255
  {
    FrameExactIff(Highest(r).end, r);
  }

  /** With packets 1 and 64773 received no acknowledgement can be written; one number less and it can. */
  lemma {:induction false} WideOnce()
    ensures TooWide(FrameOf(64773, [Interval(1, 1), Interval(64773, 64773)]).ranges)
    ensures !TooWide(FrameOf(64772, [Interval(1, 1), Interval(64772, 64772)]).ranges)
  {
    HandlerFramesTravel([Interval(1, 1), Interval(64773, 64773)]);
    HandlerFramesTravel([Interval(1, 1), Interval(64772, 64772)]);
  }
}
