/** Acknowledgement frames: what they say, and when a list of received intervals makes a truthful one. */
module AckFrames {
  import opened ReceivedPackets

  /** `ranges` runs from the highest interval to the lowest and is empty when nothing is missing. */
  datatype AckFrame = AckFrame(largest: nat, lowest: nat, ranges: seq<Interval>)

  ghost predicate Acks(a: AckFrame, p: nat) {
    a.lowest <= p <= a.largest && (a.ranges == [] || Covers(a.ranges, p))
  }

  method AcksPacket(a: AckFrame, p: nat) returns (b: bool)
    ensures b <==> Acks(a, p)
  {
    if p < a.lowest || p > a.largest { return false; }
    if a.ranges == [] { return true; }
    var i: nat := 0;
    while i < |a.ranges|
      invariant i <= |a.ranges|
      invariant forall j :: 0 <= j < i ==> !(a.ranges[j].start <= p <= a.ranges[j].end)
    {
      if a.ranges[i].start <= p <= a.ranges[i].end { return true; }
      i := i + 1;
    }
    return false;
  }

  /** What a parsed frame is checked for: one interval is never spelled out, and the list is strictly falling. */
  ghost predicate ValidRanges(a: AckFrame) {
    a.ranges == [] ||
    (|a.ranges| > 1 && a.ranges[0].end == a.largest && Falling(a.ranges))
  }

  ghost predicate Falling(d: seq<Interval>) {
    && (forall i :: 0 <= i < |d| ==> d[i].start <= d[i].end)
    && (forall i, j :: 0 <= i < j < |d| ==> d[j].end + 1 < d[i].start)
  }

  method ValidateAckRanges(a: AckFrame) returns (b: bool)
    ensures b <==> ValidRanges(a)
  {
    if |a.ranges| == 0 { return true; }
    if |a.ranges| == 1 { return false; }
    if a.ranges[0].end != a.largest { return false; }
    var i: nat := 0;
    while i < |a.ranges|
      invariant i <= |a.ranges|
      invariant forall k :: 0 <= k < i ==> a.ranges[k].start <= a.ranges[k].end
    {
      if a.ranges[i].start > a.ranges[i].end { return false; }
      i := i + 1;
    }
    i := 1;
    while i < |a.ranges|
      invariant 1 <= i <= |a.ranges| && Falling(a.ranges[..i])
    {
      var last, here := a.ranges[i - 1], a.ranges[i];
      if last.start <= here.start || last.start <= here.end + 1 { return false; }
      i := i + 1;
    }
    assert a.ranges[..i] == a.ranges;
    return true;
  }

  /** Only the first so many intervals of a long frame fit on the wire. */
  function Cut(a: AckFrame, blocks: nat): AckFrame {
    if 2 <= blocks < |a.ranges| then AckFrame(a.largest, a.ranges[blocks - 1].start, a.ranges[..blocks]) else a
  }

  /** What the handler builds and the parser delivers: a checked list, and the lowest number at its end. */
  ghost predicate WellFormed(a: AckFrame) {
    && ValidRanges(a)
    && (if a.ranges == [] then a.lowest <= a.largest else a.lowest == a.ranges[|a.ranges| - 1].start)
  }

  lemma {:induction false} CutValid(a: AckFrame, n: nat)
    requires WellFormed(a) && 2 <= n <= |a.ranges|
    ensures WellFormed(Cut(a, n)) && Cut(a, n) == AckFrame(a.largest, a.ranges[n - 1].start, a.ranges[..n])
  {
    if n == |a.ranges| { assert a.ranges[..n] == a.ranges; }
  }

  function FrameOf(largest: nat, r: seq<Interval>): AckFrame
    requires r != []
  {
    AckFrame(largest, r[0].start, if |r| > 1 then Descending(r) else [])
  }

  lemma DescendingCovers(r: seq<Interval>, x: nat)
    ensures Covers(Descending(r), x) <==> Covers(r, x)
  {
    var d := Descending(r);
    if i :| 0 <= i < |r| && r[i].start <= x <= r[i].end { assert d[|r| - 1 - i] == r[i]; }
    if i :| 0 <= i < |d| && d[i].start <= x <= d[i].end { assert r[|r| - 1 - i] == d[i]; }
  }

  /** Everything covered lies between the first start and the last end. */
  lemma CoverBounds(r: seq<Interval>, x: nat)
    requires Canonical(r) && Covers(r, x)
    ensures r != [] && r[0].start <= x <= Highest(r).end
  {
    var i :| 0 <= i < |r| && r[i].start <= x <= r[i].end;
    if i > 0 { assert r[0].start <= r[0].end < r[i].start; }
    if i < |r| - 1 { assert r[i].end < r[|r| - 1].start <= r[|r| - 1].end; }
  }

  ghost predicate Exact(largest: nat, r: seq<Interval>)
    requires r != []
  {
    forall x: nat :: Acks(FrameOf(largest, r), x) <==> Covers(r, x)
  }

  /** A frame is exact and passes the peer's parser exactly when the largest number seen tops the list. */
  lemma FrameExactIff(largest: nat, r: seq<Interval>)
    requires Canonical(r) && r != [] && Highest(r).end <= largest
    ensures Exact(largest, r) && ValidRanges(FrameOf(largest, r)) <==> Highest(r).end == largest
  {
    var a := FrameOf(largest, r);
    if |r| == 1 {
      SingleExactIff(largest, r);
    } else {
      forall x: nat ensures Acks(a, x) <==> Covers(r, x) {
        DescendingCovers(r, x);
        if Covers(r, x) { CoverBounds(r, x); }
      }
      assert a.ranges[0] == Highest(r);
    }
  }

  lemma SingleExactIff(largest: nat, r: seq<Interval>)
    requires Canonical(r) && |r| == 1 && Highest(r).end <= largest
    ensures Exact(largest, r) <==> Highest(r).end == largest
  {
    var a := FrameOf(largest, r);
    assert Acks(a, largest);
    assert Covers(r, largest) <==> r[0].start <= largest <= r[0].end;
    if Highest(r).end == largest {
      forall x: nat ensures Acks(a, x) <==> Covers(r, x) {
        if a.lowest <= x <= a.largest { assert r[0].start <= x <= r[0].end; }
      }
    }
  }
}
