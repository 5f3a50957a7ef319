/** The receiver's record of packet numbers as a list of intervals, and the acknowledgements made of it. */
module ReceivedPackets {

  datatype Interval = Interval(start: nat, end: nat)

  datatype Option<T> = None | Some(value: T)

  const MaxTrackedReceivedAckRanges: nat := 2500

  /** Sorted, nonempty, neither overlapping nor adjacent. */
  ghost predicate Canonical(r: seq<Interval>) {
    && (forall i :: 0 <= i < |r| ==> r[i].start <= r[i].end)
    && (forall i, j :: 0 <= i < j < |r| ==> r[i].end + 1 < r[j].start)
  }

  ghost predicate Covers(r: seq<Interval>, x: nat) {
    exists i :: 0 <= i < |r| && r[i].start <= x <= r[i].end
  }

  ghost predicate SameCover(a: seq<Interval>, b: seq<Interval>) {
    forall x: nat :: Covers(a, x) <==> Covers(b, x)
  }

  lemma FirstStart(a: seq<Interval>, b: seq<Interval>)
    requires Canonical(a) && Canonical(b) && SameCover(a, b) && a != []
    ensures b != [] && b[0].start <= a[0].start
  {
    assert Covers(a, a[0].start);
    assert Covers(b, a[0].start);
  }

  lemma FirstEnd(a: seq<Interval>, b: seq<Interval>)
    requires Canonical(a) && Canonical(b) && SameCover(a, b) && a != [] && b != [] && a[0].start == b[0].start
    ensures a[0].end <= b[0].end
  {
    // the first number after b's first interval is not covered
    var x := b[0].end + 1;
    assert !Covers(b, x);
    assert !Covers(a, x);
    assert !(a[0].start <= x <= a[0].end);
  }

  lemma TailCover(a: seq<Interval>, x: nat)
    requires Canonical(a) && a != []
    ensures Covers(a[1..], x) <==> Covers(a, x) && x > a[0].end
  {
    if i :| 0 <= i < |a| && a[i].start <= x <= a[i].end && x > a[0].end { assert a[1..][i - 1] == a[i]; }
    if i :| 0 <= i < |a| - 1 && a[1..][i].start <= x <= a[1..][i].end { assert a[i + 1] == a[1..][i]; }
  }

  lemma {:induction false} FirstSame(a: seq<Interval>, b: seq<Interval>)
    requires Canonical(a) && Canonical(b) && SameCover(a, b) && a != []
    ensures b != [] && a[0] == b[0] && Canonical(a[1..]) && Canonical(b[1..]) && SameCover(a[1..], b[1..])
  {
    FirstStart(a, b);
    FirstStart(b, a);
    FirstEnd(a, b);
    FirstEnd(b, a);
    forall x: nat ensures Covers(a[1..], x) <==> Covers(b[1..], x) {
      TailCover(a, x);
      TailCover(b, x);
    }
  }

  /** The interval list is determined by the set it stands for. */
  lemma {:induction false} CanonicalUnique(a: seq<Interval>, b: seq<Interval>)
    requires Canonical(a) && Canonical(b) && SameCover(a, b)
    ensures a == b
  {
    if a == [] {
      if b != [] { FirstStart(b, a); }
    } else {
      FirstSame(a, b);
      CanonicalUnique(a[1..], b[1..]);
      assert a == [a[0]] + a[1..] && b == [b[0]] + b[1..];
    }
  }

  /** One interval replaced by another. */
  lemma ReplacedCover(r: seq<Interval>, k: nat, v: Interval, x: nat)
    requires Canonical(r) && k < |r| && v.start <= r[k].start && r[k].end <= v.end
    ensures Covers(r[k := v], x) <==> Covers(r, x) || v.start <= x <= v.end
  {
    var s := r[k := v];
    if i :| 0 <= i < |r| && r[i].start <= x <= r[i].end { assert s[i].start <= x <= s[i].end; }
    if v.start <= x <= v.end { assert s[k].start <= x <= s[k].end; }
    if i :| 0 <= i < |s| && s[i].start <= x <= s[i].end && i != k { assert r[i] == s[i]; }
  }

  lemma InsertedCover(r: seq<Interval>, k: nat, v: Interval, x: nat)
    requires k <= |r|
    ensures Covers(r[..k] + [v] + r[k..], x) <==> Covers(r, x) || v.start <= x <= v.end
  {
    var s := r[..k] + [v] + r[k..];
    if i :| 0 <= i < |r| && r[i].start <= x <= r[i].end { assert s[if i < k then i else i + 1] == r[i]; }
    if v.start <= x <= v.end { assert s[k] == v; }
    if i :| 0 <= i < |s| && s[i].start <= x <= s[i].end && i != k { assert r[if i < k then i else i - 1] == s[i]; }
  }

  /** Two neighbours joined into one interval. */
  lemma MergedCover(r: seq<Interval>, k: nat, x: nat)
    requires 0 < k < |r| && r[k - 1].start <= r[k - 1].end && r[k].start <= r[k].end && r[k - 1].end + 1 == r[k].start
    ensures Covers(r[..k - 1] + [Interval(r[k - 1].start, r[k].end)] + r[k + 1..], x) <==> Covers(r, x)
  {
    var v := Interval(r[k - 1].start, r[k].end);
    var s := r[..k - 1] + [v] + r[k + 1..];
    assert s[k - 1] == v;
    if i :| 0 <= i < |r| && r[i].start <= x <= r[i].end { assert i == k - 1 || i == k || s[if i < k - 1 then i else i - 1] == r[i]; }
    if i :| 0 <= i < |s| && s[i].start <= x <= s[i].end {
      if i == k - 1 { assert x <= r[k - 1].end || r[k].start <= x; } else { assert r[if i < k - 1 then i else i + 1] == s[i]; }
    }
  }

  /** `s` stands for the set of `r` with `p` added. */
  ghost predicate Adds(r: seq<Interval>, p: nat, s: seq<Interval>) {
    Canonical(s) && forall x: nat :: Covers(s, x) <==> Covers(r, x) || x == p
  }

  lemma AddsByInsertion(r: seq<Interval>, k: nat, p: nat)
    requires Canonical(r) && k <= |r|
    requires k == 0 || r[k - 1].end + 1 < p
    requires k == |r| || p + 1 < r[k].start
    ensures Adds(r, p, r[..k] + [Interval(p, p)] + r[k..])
  {
    forall x: nat ensures Covers(r[..k] + [Interval(p, p)] + r[k..], x) <==> Covers(r, x) || x == p {
      InsertedCover(r, k, Interval(p, p), x);
    }
  }

  /** The interval `v` is `before` with the adjacent number `p`. */
  predicate Grown(before: Interval, p: nat, v: Interval) {
    || (v == Interval(before.start, p) && before.end + 1 == p)
    || (v == Interval(p, before.end) && p + 1 == before.start)
  }

  lemma AddsByExtension(r: seq<Interval>, k: nat, p: nat, v: Interval)
    requires Canonical(r) && k < |r|
    requires Grown(r[k], p, v)
    ensures forall x: nat :: Covers(r[k := v], x) <==> Covers(r, x) || x == p
  {
    forall x: nat ensures Covers(r[k := v], x) <==> Covers(r, x) || x == p {
      ReplacedCover(r, k, v, x);
      if v.start <= x <= v.end && x != p { assert r[k].start <= x <= r[k].end; }
    }
  }

  /** What the list looks like after interval `k` grew to `v`: joined to its predecessor if they now touch. */
  function Merged(r: seq<Interval>, k: nat): seq<Interval>
    requires k < |r|
  {
    if k > 0 && r[k - 1].end + 1 == r[k].start
    then r[..k - 1] + [Interval(r[k - 1].start, r[k].end)] + r[k + 1..] else r
  }

  lemma GrownCanonical(r: seq<Interval>, k: nat, v: Interval)
    requires Canonical(r) && k < |r| && v.start <= v.end
    requires k > 0 ==> r[k - 1].end + 1 < v.start
    requires k + 1 < |r| ==> v.end + 1 < r[k + 1].start
    ensures Canonical(r[k := v])
  {
    var s := r[k := v];
    forall i, j | 0 <= i < j < |s| ensures s[i].end + 1 < s[j].start {
      if i == k { assert j == k + 1 || r[k + 1].start <= r[k + 1].end < r[j].start; }
      if j == k { assert i == k - 1 || r[i].end < r[k - 1].start <= r[k - 1].end; }
    }
  }

  lemma JoinedCanonical(r: seq<Interval>, k: nat, e: nat)
    requires Canonical(r) && 0 < k < |r| && r[k].end <= e
    requires k + 1 < |r| ==> e + 1 < r[k + 1].start
    ensures Canonical(r[..k - 1] + [Interval(r[k - 1].start, e)] + r[k + 1..])
  {
    var v := Interval(r[k - 1].start, e);
    var s := r[..k - 1] + [v] + r[k + 1..];
    forall i | 0 <= i < |s| ensures s[i] == (if i < k - 1 then r[i] else if i == k - 1 then v else r[i + 1]) {}
    forall i, j | 0 <= i < j < |s| ensures s[i].end + 1 < s[j].start {
      if i == k - 1 { assert j == k || r[k + 1].start <= r[k + 1].end < r[j + 1].start; }
    }
  }

  lemma AddsByMerging(r: seq<Interval>, k: nat, p: nat, v: Interval)
    requires Canonical(r) && k < |r|
    requires k > 0 ==> r[k - 1].end < p
    requires k + 1 < |r| ==> p + 1 < r[k + 1].start
    requires Grown(r[k], p, v)
    ensures Adds(r, p, Merged(r[k := v], k))
  {
    AddsByExtension(r, k, p, v);
    var s := r[k := v];
    if k > 0 && s[k - 1].end + 1 == s[k].start {
      JoinedCanonical(r, k, v.end);
      assert Merged(s, k) == r[..k - 1] + [Interval(r[k - 1].start, v.end)] + r[k + 1..];
      forall x: nat ensures Covers(Merged(s, k), x) <==> Covers(s, x) { MergedCover(s, k, x); }
    } else {
      GrownCanonical(r, k, v);
    }
  }

  /** `s` stands for the numbers of `r` above `p`. */
  ghost predicate Keeps(r: seq<Interval>, p: nat, s: seq<Interval>) {
    Canonical(s) && forall x: nat :: Covers(s, x) <==> Covers(r, x) && x > p
  }

  /** `s` agrees with `r` above `p` and holds nothing that `r` does not. */
  ghost predicate SameAbove(r: seq<Interval>, p: nat, s: seq<Interval>) {
    forall x: nat :: (Covers(s, x) ==> Covers(r, x)) && (x > p ==> (Covers(s, x) <==> Covers(r, x)))
  }

  lemma TrimmedSameAbove(r: seq<Interval>, s: seq<Interval>, i: nat, p: nat)
    requires Canonical(s) && SameAbove(r, p, s) && i < |s| && s[i].start <= p < s[i].end
    requires i <= 1 && (i == 1 ==> p < s[0].start)
    ensures i == 0 && Canonical(s[0 := Interval(p + 1, s[0].end)])
    ensures SameAbove(r, p, s[0 := Interval(p + 1, s[0].end)])
  {
    assert i == 0;
    var t := s[0 := Interval(p + 1, s[0].end)];
    GrownCanonical(s, 0, Interval(p + 1, s[0].end));
    forall x: nat ensures (Covers(t, x) ==> Covers(s, x)) && (x > p ==> (Covers(t, x) <==> Covers(s, x))) {
      if j :| 0 <= j < |t| && t[j].start <= x <= t[j].end { assert s[j].start <= x <= s[j].end; }
      if j :| 0 <= j < |s| && s[j].start <= x <= s[j].end && x > p { assert t[j].start <= x <= t[j].end; }
    }
  }

  lemma DroppedSameAbove(r: seq<Interval>, s: seq<Interval>, p: nat)
    requires Canonical(s) && SameAbove(r, p, s) && s != [] && s[0].end <= p
    ensures Canonical(s[1..]) && SameAbove(r, p, s[1..])
  {
    forall x: nat ensures (Covers(s[1..], x) ==> Covers(s, x)) && (x > p ==> (Covers(s[1..], x) <==> Covers(s, x))) {
      TailCover(s, x);
    }
  }

  datatype Op = Receive(number: nat) | DeleteThrough(number: nat)

  /** The lists left behind by the accepted calls `ops`, one after another. */
  ghost predicate Leaves(ops: seq<Op>, lists: seq<seq<Interval>>) {
    |lists| == |ops| + 1 && lists[0] == [] && forall i :: 0 <= i < |ops| ==> Follows(lists[i], ops[i], lists[i + 1])
  }

  ghost predicate Follows(before: seq<Interval>, op: Op, r: seq<Interval>) {
    match op
    case Receive(p) => Adds(before, p, r)
    case DeleteThrough(p) => Keeps(before, p, r)
  }

  /** The packet set itself: received, and not deleted since. */
  predicate Held(ops: seq<Op>, x: nat) {
    ops != [] &&
    match ops[|ops| - 1]
    case Receive(p) => x == p || Held(ops[..|ops| - 1], x)
    case DeleteThrough(p) => x > p && Held(ops[..|ops| - 1], x)
  }

  lemma {:induction false} ListIsPacketSet(ops: seq<Op>, lists: seq<seq<Interval>>)
    requires Leaves(ops, lists)
    ensures Canonical(lists[|ops|]) && forall x: nat :: Covers(lists[|ops|], x) <==> Held(ops, x)
  {
    if ops != [] {
      var n := |ops| - 1;
      assert Leaves(ops[..n], lists[..n + 1]);
      ListIsPacketSet(ops[..n], lists[..n + 1]);
      assert Follows(lists[n], ops[n], lists[n + 1]);
    }
  }

  ghost predicate SamePackets(ops: seq<Op>, ops': seq<Op>) {
    forall x: nat :: Held(ops, x) <==> Held(ops', x)
  }

  /** Any two call sequences leave the same list exactly when they leave the same packet set. */
  lemma ListDeterminedBySet(ops: seq<Op>, lists: seq<seq<Interval>>, ops': seq<Op>, lists': seq<seq<Interval>>)
    requires Leaves(ops, lists) && Leaves(ops', lists')
    ensures lists[|ops|] == lists'[|ops'|] <==> SamePackets(ops, ops')
  {
    var r, r' := lists[|ops|], lists'[|ops'|];
    ListIsPacketSet(ops, lists);
    ListIsPacketSet(ops', lists');
    if r == r' {
      forall x: nat ensures Held(ops, x) <==> Held(ops', x) { assert Covers(r, x) <==> Held(ops, x); }
    }
    if SamePackets(ops, ops') {
      forall x: nat ensures Covers(r, x) <==> Covers(r', x) { assert Held(ops, x) <==> Held(ops', x); }
      CanonicalUnique(r, r');
    }
  }

  function Max(a: nat, b: nat): nat { if a >= b then a else b }

  function Descending(r: seq<Interval>): (d: seq<Interval>)
    ensures |d| == |r| && forall k :: 0 <= k < |d| ==> d[k] == r[|r| - 1 - k]
  {
    seq(|r|, k requires 0 <= k < |r| => r[|r| - 1 - k])
  }

  function Highest(r: seq<Interval>): Interval {
    if r == [] then Interval(0, 0) else r[|r| - 1]
  }

  class ReceivedPacketHistory {
    var ranges: seq<Interval>
    var lowestInReceivedPacketNumbers: nat

    ghost predicate Valid() reads this {
      Canonical(ranges) && |ranges| <= MaxTrackedReceivedAckRanges
    }

    constructor ()
      ensures Valid() && ranges == []
    {
      ranges := [];
      lowestInReceivedPacketNumbers := 0;
    }

    /** The interval at `k` has just been extended. */
    method MaybeMerge(k: nat)
      requires k < |ranges|
      modifies this`ranges
      ensures ranges == Merged(old(ranges), k)
    {
      if k > 0 && ranges[k - 1].end + 1 == ranges[k].start {
        ranges := ranges[..k - 1] + [Interval(ranges[k - 1].start, ranges[k].end)] + ranges[k + 1..];
      }
    }

    /** Adds one number. Refused, whatever the number, once the list is full. */
    method ReceivedPacket(p: nat) returns (ok: bool)
      requires Valid()
      modifies this`ranges
      ensures Valid()
      ensures ok <==> |old(ranges)| < MaxTrackedReceivedAckRanges
      ensures !ok ==> ranges == old(ranges)
      ensures ok ==> Adds(old(ranges), p, ranges)
    {
      if |ranges| >= MaxTrackedReceivedAckRanges { return false; }
      var i: nat := |ranges|;
      while i > 0
        invariant i <= |ranges| && ranges == old(ranges)
        invariant i < |ranges| ==> p + 1 < ranges[i].start
      {
        i := i - 1;
        var el := ranges[i];
        if el.start <= p <= el.end {
          assert Covers(ranges, p);
          return true;
        }
        if el.end + 1 == p {
          AddsByMerging(ranges, i, p, Interval(el.start, p));
          ranges := ranges[i := Interval(el.start, p)];
          MaybeMerge(i);
          return true;
        } else if el.start == p + 1 {
          AddsByMerging(ranges, i, p, Interval(p, el.end));
          ranges := ranges[i := Interval(p, el.end)];
          MaybeMerge(i);
          return true;
        }
        if p > el.end {
          AddsByInsertion(ranges, i + 1, p);
          ranges := ranges[..i + 1] + [Interval(p, p)] + ranges[i + 1..];
          return true;
        }
      }
      AddsByInsertion(ranges, 0, p);
      assert ranges[..0] + [Interval(p, p)] + ranges[0..] == [Interval(p, p)] + ranges;
      ranges := [Interval(p, p)] + ranges;
      return true;
    }

    /** Removes every number up to and including `p`. */
    method DeleteUpTo(p: nat)
      requires Valid()
      modifies this
      ensures Valid() && Keeps(old(ranges), p, ranges)
      ensures lowestInReceivedPacketNumbers == Max(old(lowestInReceivedPacketNumbers), p + 1)
    {
      lowestInReceivedPacketNumbers := Max(lowestInReceivedPacketNumbers, p + 1);
      var i: nat := 0;
      while i < |ranges|
        invariant i <= |ranges| && i <= 1
        invariant Valid() && SameAbove(old(ranges), p, ranges)
        invariant i == 1 ==> p < ranges[0].start
        invariant lowestInReceivedPacketNumbers == Max(old(lowestInReceivedPacketNumbers), p + 1)
        decreases |ranges| - i
      {
        var el := ranges[i];
        if el.start <= p < el.end {
          TrimmedSameAbove(old(ranges), ranges, i, p);
          ranges := ranges[i := Interval(p + 1, el.end)];
          i := i + 1;
        } else if el.end <= p {
          DroppedSameAbove(old(ranges), ranges, p);
          assert ranges[..i] + ranges[i + 1..] == ranges[1..];
          ranges := ranges[..i] + ranges[i + 1..];
        } else {
          break;
        }
      }
      assert forall j :: 0 <= j < |ranges| ==> p < ranges[j].start;
    }

    /** The intervals from the highest to the lowest. */
    method GetAckRanges() returns (ackRanges: seq<Interval>)
      ensures ackRanges == Descending(ranges)
    {
      ackRanges := [];
      var i: nat := |ranges|;
      while i > 0
        invariant i <= |ranges| && |ackRanges| == |ranges| - i
        invariant forall k :: 0 <= k < |ackRanges| ==> ackRanges[k] == ranges[|ranges| - 1 - k]
      {
        i := i - 1;
        ackRanges := ackRanges + [ranges[i]];
      }
    }

    /** The highest interval, or zeros when nothing is stored. */
    method GetHighestAckRange() returns (r: Interval)
      ensures r == Highest(ranges)
    {
      r := Interval(0, 0);
      if |ranges| > 0 { r := ranges[|ranges| - 1]; }
    }
  }
}
