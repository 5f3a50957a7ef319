/** The OLIA coupled congestion control: the epsilons that move window from the largest paths to the best ones. */
module Olia {

  /** Path identifiers are one byte. */
  type PathID = x: nat | x < 256

  /** A signed 64-bit product. */
  function Wrap64(x: int): int {
    (x + 0x8000_0000_0000_0000) % 0x1_0000_0000_0000_0000 - 0x8000_0000_0000_0000
  }

  /** What one round reads of a path: window, squared round-trip time and bytes between losses. */
  datatype Path = Path(cwnd: nat, rtt2: int, bytes: nat)

  /** The best quality found so far. */
  datatype Best = Best(rtt2: int, bytes: nat) {
    predicate Beaten(p: Path) { Wrap64(p.bytes * rtt2) >= Wrap64(bytes * p.rtt2) }
  }

  datatype Epsilon = Epsilon(num: int, den: nat) {
    function Value(): real requires den != 0 { num as real / den as real }
  }

  ghost predicate Distinct(order: seq<PathID>) {
    forall i, j :: 0 <= i < j < |order| ==> order[i] != order[j]
  }

  /** One visiting order of the paths. */
  ghost predicate Visits(order: seq<PathID>, paths: map<PathID, Path>) {
    Distinct(order) && forall id :: id in order <==> id in paths
  }

  function Count(order: seq<PathID>, t: PathID -> bool): nat {
    if order == [] then 0 else Count(order[..|order| - 1], t) + if t(order[|order| - 1]) then 1 else 0
  }

  ghost function Passing(order: seq<PathID>, t: PathID -> bool): set<PathID> { set id | id in order && t(id) }

  /** Counting along an order without repetition counts the paths that pass. */
  lemma {:induction false} CountIsSize(order: seq<PathID>, t: PathID -> bool)
    requires Distinct(order)
    ensures Count(order, t) == |Passing(order, t)|
  {
    if order != [] {
      var k := |order| - 1;
      CountIsSize(order[..k], t);
      assert order[k] !in order[..k];
      assert Passing(order, t) == Passing(order[..k], t) + if t(order[k]) then {order[k]} else {};
    }
  }

  /** So the order does not matter. */
  lemma {:induction false} CountSame(a: seq<PathID>, b: seq<PathID>, t: PathID -> bool)
    requires Distinct(a) && Distinct(b) && forall id :: id in a <==> id in b
    ensures Count(a, t) == Count(b, t)
  {
    CountIsSize(a, t);
    CountIsSize(b, t);
    assert Passing(a, t) == Passing(b, t);
  }

  lemma {:induction false} CountDisjoint(order: seq<PathID>, t: PathID -> bool, u: PathID -> bool)
    requires forall id :: id in order ==> !(t(id) && u(id))
    ensures Count(order, t) + Count(order, u) <= |order|
  {
    if order != [] {
      CountDisjoint(order[..|order| - 1], t, u);
      assert order[|order| - 1] in order;
    }
  }

  lemma {:induction false} CountSome(order: seq<PathID>, t: PathID -> bool, i: nat)
    requires i < |order| && t(order[i])
    ensures Count(order, t) >= 1
  {
    if i < |order| - 1 { CountSome(order[..|order| - 1], t, i); }
  }

  // ---------- one round on values ----------

  ghost predicate IsMaxCwnd(paths: map<PathID, Path>, n: nat) {
    && (forall id :: id in paths ==> paths[id].cwnd <= n)
    && (exists id :: id in paths && paths[id].cwnd == n)
  }

  /** The paths with the largest window. */
  function Largest(paths: map<PathID, Path>, maxCwnd: nat): PathID -> bool {
    (id: PathID) => id in paths && paths[id].cwnd == maxCwnd
  }

  /** The best paths among the others. */
  function BestOthers(paths: map<PathID, Path>, maxCwnd: nat, best: Best): PathID -> bool {
    (id: PathID) => id in paths && paths[id].cwnd != maxCwnd && best.Beaten(paths[id])
  }

  /** What is written for one path, from the two 8-bit counters. */
  function EpsilonOf(paths: map<PathID, Path>, maxCwnd: nat, best: Best, m: nat, b: nat, id: PathID): Epsilon
    requires id in paths
  {
    if b == 0 then Epsilon(0, 1)
    else if paths[id].cwnd < maxCwnd && best.Beaten(paths[id]) then Epsilon(1, |paths| * b)
    else if paths[id].cwnd == maxCwnd then Epsilon(-1, |paths| * m)
    else Epsilon(0, 1)
  }

  // ---------- the best path ----------

  function Quality(p: Path): Best {
    Best(p.rtt2, p.bytes)
  }

  /** The last path visited that is at least as good as the best before it. */
  ghost function BestAlong(paths: map<PathID, Path>, order: seq<PathID>): Best
    requires forall id :: id in order ==> id in paths
  {
    if order == [] then Best(0, 0)
    else
      var best, id := BestAlong(paths, order[..|order| - 1]), order[|order| - 1];
      assert id in order;
      if best.Beaten(paths[id]) then Quality(paths[id]) else best
  }

  lemma BestSnoc(paths: map<PathID, Path>, order: seq<PathID>, i: nat)
    requires i < |order| && forall id :: id in order ==> id in paths
    ensures var best := BestAlong(paths, order[..i]);
      BestAlong(paths, order[..i + 1]) == if best.Beaten(paths[order[i]]) then Quality(paths[order[i]]) else best
  {
    assert order[..i + 1][..i] == order[..i];
  }

  /** `a` has at least as many bytes between losses per squared round-trip time as `b`. */
  predicate Covers(a: Best, b: Best) {
    b.bytes * a.rtt2 <= a.bytes * b.rtt2
  }

  /** No estimate of the round-trip time and no bytes yet: such a path compares as equal with every other. */
  predicate Blank(p: Path) {
    p.rtt2 == 0 && p.bytes == 0
  }

  predicate Fits(p: Path, q: Path) {
    p.bytes * q.rtt2 < 0x8000_0000_0000_0000
  }

  /** Squares are not negative, and the products compared are exact in 64 bits. */
  ghost predicate Exact(paths: map<PathID, Path>) {
    && (forall id :: id in paths ==> paths[id].rtt2 >= 0)
    && forall id, other :: id in paths && other in paths ==> Fits(paths[id], paths[other])
  }

  ghost predicate CoversAll(best: Best, paths: map<PathID, Path>) {
    forall id :: id in paths ==> Covers(best, Quality(paths[id]))
  }

  lemma WrapExact(x: int)
    requires 0 <= x < 0x8000_0000_0000_0000
    ensures Wrap64(x) == x
  {}

  lemma BeatenIffCovers(p: Path, q: Path)
    requires p.rtt2 >= 0 && q.rtt2 >= 0 && Fits(p, q) && Fits(q, p)
    ensures Quality(p).Beaten(q) <==> Covers(Quality(q), Quality(p))
  {
    assert 0 <= q.bytes * p.rtt2 && 0 <= p.bytes * q.rtt2;
    WrapExact(q.bytes * p.rtt2);
    WrapExact(p.bytes * q.rtt2);
  }

  lemma MulMono(a: int, b: int, c: int)
    requires a <= b && c >= 0
    ensures a * c <= b * c
  {}

  lemma MulCancel(a: int, b: int, c: int)
    requires a * c <= b * c && c > 0
    ensures a <= b
  {
    assert (b + 1) * c == b * c + c;
    if a > b { MulMono(b + 1, a, c); }
  }

  lemma Reorder(x: int, y: int, z: int)
    ensures x * y * z == x * z * y
  {}

  /** Cross-multiplied comparison goes through a middle fraction with a positive denominator. */
  lemma FractionsThrough(an: int, ad: int, bn: int, bd: int, cn: int, cd: int)
    requires ad >= 0 && bd > 0 && cd >= 0 && bn * ad <= an * bd && cn * bd <= bn * cd
    ensures cn * ad <= an * cd
  {
    MulMono(cn * bd, bn * cd, ad);
    MulMono(bn * ad, an * bd, cd);
    Reorder(cn, ad, bd);
    Reorder(bn, cd, ad);
    Reorder(an, bd, cd);
    MulCancel(cn * ad, an * cd, bd);
  }

  lemma CoversThrough(a: Best, b: Best, c: Best)
    requires a.rtt2 >= 0 && b.rtt2 >= 0 && c.rtt2 >= 0 && !(b.rtt2 == 0 && b.bytes == 0)
    requires Covers(a, b) && Covers(b, c)
    ensures Covers(a, c)
  {
    if b.rtt2 > 0 {
      FractionsThrough(a.bytes, a.rtt2, b.bytes, b.rtt2, c.bytes, c.rtt2);
    } else {
      assert a.rtt2 == 0 by {
        if a.rtt2 > 0 { MulMono(1, a.rtt2, b.bytes); }
      }
      assert 0 <= a.bytes * c.rtt2;
    }
  }

  lemma {:induction false} BestIsOne(paths: map<PathID, Path>, order: seq<PathID>)
    requires order != [] && forall id :: id in order ==> id in paths
    ensures exists id :: id in order && BestAlong(paths, order) == Quality(paths[id])
  {
    var front, last := order[..|order| - 1], order[|order| - 1];
    assert last in order;
    if front != [] {
      BestIsOne(paths, front);
    } else {
      assert BestAlong(paths, front) == Best(0, 0) && Best(0, 0).Beaten(paths[last]);
      assert BestAlong(paths, order) == Quality(paths[last]);
    }
  }

  lemma {:induction false} BestCovers(paths: map<PathID, Path>, order: seq<PathID>, id: PathID)
    requires Exact(paths) && (forall id :: id in order ==> id in paths && !Blank(paths[id])) && id in order
    ensures Covers(BestAlong(paths, order), Quality(paths[id]))
  {
    var front, last := order[..|order| - 1], order[|order| - 1];
    assert last in order;
    if front != [] {
      BestIsOne(paths, front);
      var b :| b in front && BestAlong(paths, front) == Quality(paths[b]);
      assert b in order && Fits(paths[b], paths[last]) && Fits(paths[last], paths[b]);
      BeatenIffCovers(paths[b], paths[last]);
      if id in front {
        BestCovers(paths, front, id);
        if Quality(paths[b]).Beaten(paths[last]) {
          CoversThrough(Quality(paths[last]), Quality(paths[b]), Quality(paths[id]));
        }
      }
    }
  }

  lemma {:induction false} SomeOrder(ids: set<PathID>) returns (order: seq<PathID>)
    ensures Distinct(order) && forall id :: id in order <==> id in ids
  {
    if ids == {} {
      order := [];
    } else {
      var id :| id in ids;
      var rest := SomeOrder(ids - {id});
      order := rest + [id];
    }
  }

  /** A blank path makes the search start over. */
  lemma BlankStartsOver(paths: map<PathID, Path>, rest: seq<PathID>, blank: PathID, last: PathID)
    requires (forall id :: id in rest ==> id in paths) && blank in paths && last in paths && Blank(paths[blank])
    ensures BestAlong(paths, rest + [blank, last]) == Quality(paths[last])
  {
    var all := rest + [blank, last];
    assert all[..|all| - 1] == rest + [blank];
    assert (rest + [blank])[..|rest|] == rest;
    assert BestAlong(paths, rest + [blank]) == Best(0, 0);
  }

  /** The search ends with a path that none outdoes, whatever the visiting order, exactly when no path is
      blank or all are equally good. */
  lemma BestInEveryOrderIff(paths: map<PathID, Path>)
    requires Exact(paths)
    ensures (forall order :: Visits(order, paths) ==> CoversAll(BestAlong(paths, order), paths)) <==>
      ((forall id :: id in paths ==> !Blank(paths[id])) || forall id :: id in paths ==> CoversAll(Quality(paths[id]), paths))
  {
    if forall id :: id in paths ==> !Blank(paths[id]) {
      forall order, id | Visits(order, paths) && id in paths
        ensures Covers(BestAlong(paths, order), Quality(paths[id]))
      {
        BestCovers(paths, order, id);
      }
    } else if forall id :: id in paths ==> CoversAll(Quality(paths[id]), paths) {
      forall order | Visits(order, paths)
        ensures CoversAll(BestAlong(paths, order), paths)
      {
        if order != [] { BestIsOne(paths, order); }
      }
    } else {
      var blank :| blank in paths && Blank(paths[blank]);
      var q :| q in paths && !CoversAll(Quality(paths[q]), paths);
      var order := BadOrder(paths, blank, q);
    }
  }

  /** Path 0 is twice as good as path 2, and path 1 has neither round-trip time nor bytes: visited last but
      one it lets path 2 win. */
  const ThreePaths: map<PathID, Path> := map[0 := Path(1, 1, 2), 1 := Path(1, 0, 0), 2 := Path(1, 1, 1)]

  lemma OrderMatters()
    ensures Visits([1, 2, 0], ThreePaths) && BestAlong(ThreePaths, [1, 2, 0]) == Quality(ThreePaths[0])
    ensures Visits([0, 1, 2], ThreePaths) && BestAlong(ThreePaths, [0, 1, 2]) == Quality(ThreePaths[2])
    ensures !Covers(Quality(ThreePaths[2]), Quality(ThreePaths[0])) && CoversAll(Quality(ThreePaths[0]), ThreePaths)
  {
    BlankStartsOver(ThreePaths, [0], 1, 2);
    assert [0] + [1, 2] == [0, 1, 2];
    var order := [1, 2, 0];
    BestSnoc(ThreePaths, order, 0);
    BestSnoc(ThreePaths, order, 1);
    BestSnoc(ThreePaths, order, 2);
    assert order[..0] == [] && order[..3] == order;
  }

  lemma BadOrder(paths: map<PathID, Path>, blank: PathID, q: PathID) returns (order: seq<PathID>)
    requires blank in paths && Blank(paths[blank]) && q in paths && !CoversAll(Quality(paths[q]), paths)
    ensures Visits(order, paths) && !CoversAll(BestAlong(paths, order), paths)
  {
    assert q != blank;
    var rest := SomeOrder(paths.Keys - {blank, q});
    order := rest + [blank, q];
    BlankStartsOver(paths, rest, blank, q);
  }

  // ---------- balance ----------

  ghost function Sum(order: seq<PathID>, eps: map<PathID, Epsilon>): real
    requires Valued(order, eps)
  {
    if order == [] then 0.0
    else
      var id := order[|order| - 1];
      assert id in order;
      Sum(order[..|order| - 1], eps) + eps[id].Value()
  }

  /** `k` shares of size `p`. */
  function Multiple(k: nat, p: real): real {
    if k == 0 then 0.0 else Multiple(k - 1, p) + p
  }

  lemma {:induction false} MultipleIsProduct(k: nat, p: real)
    ensures Multiple(k, p) == k as real * p
  {
    if k > 0 {
      MultipleIsProduct(k - 1, p);
      var x := (k - 1) as real;
      assert k as real == x + 1.0;
      assert (x + 1.0) * p == x * p + p;
    }
  }

  ghost predicate Valued(order: seq<PathID>, eps: map<PathID, Epsilon>) {
    forall id :: id in order ==> id in eps && eps[id].den != 0
  }

  /** What a path contributes. */
  function Share(t: PathID -> bool, u: PathID -> bool, p: real, q: real, id: PathID): real {
    if t(id) then p else if u(id) then -q else 0.0
  }

  /** The sum along an order: so many shares up, so many down. */
  lemma {:induction false} SumShares(order: seq<PathID>, eps: map<PathID, Epsilon>, t: PathID -> bool, u: PathID -> bool, p: real, q: real)
    requires Valued(order, eps)
    requires forall id :: id in order ==> !(t(id) && u(id)) && eps[id].Value() == Share(t, u, p, q, id)
    ensures Sum(order, eps) == Multiple(Count(order, t), p) - Multiple(Count(order, u), q)
  {
    if order != [] {
      var rest, id := order[..|order| - 1], order[|order| - 1];
      assert id in order;
      SumShares(rest, eps, t, u, p, q);
      assert eps[id].Value() == Share(t, u, p, q, id);
    }
  }

  lemma {:induction false} SmallSet(s: set<nat>, n: nat)
    requires forall x :: x in s ==> x < n
    ensures |s| <= n
  {
    if n == 0 {
      assert s == {};
    } else {
      SmallSet(s - {n - 1}, n - 1);
    }
  }

  lemma {:induction false} AllVisited(order: seq<PathID>, paths: map<PathID, Path>)
    requires Visits(order, paths)
    ensures |order| == |paths| <= 256
  {
    var all := (id: PathID) => true;
    CountIsSize(order, all);
    CountAll(order, all);
    assert Passing(order, all) == paths.Keys;
    SmallSet(paths.Keys, 256);
  }

  lemma {:induction false} CountAll(order: seq<PathID>, t: PathID -> bool)
    requires forall id :: id in order ==> t(id)
    ensures Count(order, t) == |order|
  {
    if order != [] {
      CountAll(order[..|order| - 1], t);
      assert order[|order| - 1] in order;
    }
  }

  lemma {:induction false} CountNone(order: seq<PathID>)
    ensures Count(order, id => false) == 0
  {
    if order != [] { CountNone(order[..|order| - 1]); }
  }

  /** The byte counters never wrap when they matter: a path among the best others leaves at most 255 for each. */
  lemma {:induction false} CountersExact(order: seq<PathID>, paths: map<PathID, Path>, maxCwnd: nat, best: Best)
    requires Visits(order, paths) && IsMaxCwnd(paths, maxCwnd)
    ensures var m, b := Count(order, Largest(paths, maxCwnd)), Count(order, BestOthers(paths, maxCwnd, best));
      m >= 1 && b % 256 == b && (b > 0 ==> m % 256 == m)
  {
    AllVisited(order, paths);
    CountDisjoint(order, Largest(paths, maxCwnd), BestOthers(paths, maxCwnd, best));
    var id :| id in paths && paths[id].cwnd == maxCwnd;
    var i :| 0 <= i < |order| && order[i] == id;
    CountSome(order, Largest(paths, maxCwnd), i);
  }

  function Unit(n: nat): real requires n > 0 { 1.0 / n as real }

  lemma {:induction false} EqualShares(n: nat, k: nat)
    requires n > 0 && k > 0
    ensures n * k > 0 && Multiple(k, Unit(n * k)) == Unit(n)
  {
    var a, b := n as real, k as real;
    assert n * k > 0 && (n * k) as real == a * b;
    MultipleIsProduct(k, Unit(n * k));
    assert 1.0 / (a * b) == 1.0 / a / b;
  }

  lemma {:induction false} UnitValues(n: nat)
    requires n > 0
    ensures Epsilon(1, n).Value() == Unit(n) && Epsilon(-1, n).Value() == -Unit(n) && Epsilon(0, 1).Value() == 0.0
  {
    assert (-1) as real == -1.0;
    assert -1.0 / n as real == -(1.0 / n as real);
  }

  /** The epsilons of one round. */
  ghost predicate IsRound(paths: map<PathID, Path>, maxCwnd: nat, best: Best, order: seq<PathID>, eps: map<PathID, Epsilon>) {
    var m, b := Count(order, Largest(paths, maxCwnd)), Count(order, BestOthers(paths, maxCwnd, best));
    && Visits(order, paths) && IsMaxCwnd(paths, maxCwnd) && eps.Keys == paths.Keys
    && forall id :: id in paths ==> eps[id] == EpsilonOf(paths, maxCwnd, best, m % 256, b % 256, id)
  }

  /** With best others present, each path has its share. */
  lemma {:induction false} Shares(paths: map<PathID, Path>, maxCwnd: nat, best: Best, m: nat, b: nat, id: PathID)
    requires id in paths && IsMaxCwnd(paths, maxCwnd) && b > 0
    ensures EpsilonOf(paths, maxCwnd, best, m, b, id) ==
            if BestOthers(paths, maxCwnd, best)(id) then Epsilon(1, |paths| * b)
            else if Largest(paths, maxCwnd)(id) then Epsilon(-1, |paths| * m) else Epsilon(0, 1)
  {
  }

  /** Without, nothing moves. */
  lemma {:induction false} BalanceNone(paths: map<PathID, Path>, maxCwnd: nat, best: Best, m: nat, eps: map<PathID, Epsilon>, visit: seq<PathID>)
    requires eps.Keys == paths.Keys && Visits(visit, paths)
    requires forall id :: id in paths ==> eps[id] == EpsilonOf(paths, maxCwnd, best, m, 0, id)
    ensures (forall id :: id in eps ==> eps[id].den != 0) && Sum(visit, eps) == 0.0
  {
    SumShares(visit, eps, id => false, id => false, 0.0, 0.0);
    CountNone(visit);
  }

  lemma {:induction false} BalanceSome(paths: map<PathID, Path>, maxCwnd: nat, best: Best, m: nat, b: nat, eps: map<PathID, Epsilon>, visit: seq<PathID>)
    requires eps.Keys == paths.Keys && Visits(visit, paths) && IsMaxCwnd(paths, maxCwnd) && m > 0 && b > 0
    requires m == Count(visit, Largest(paths, maxCwnd)) && b == Count(visit, BestOthers(paths, maxCwnd, best))
    requires forall id :: id in paths ==> eps[id] == EpsilonOf(paths, maxCwnd, best, m, b, id)
    ensures (forall id :: id in eps ==> eps[id].den != 0) && Sum(visit, eps) == 0.0
  {
    var n := |paths|;
    assert n > 0;
    var t, u := BestOthers(paths, maxCwnd, best), Largest(paths, maxCwnd);
    EqualShares(n, m);
    EqualShares(n, b);
    UnitValues(n * b);
    UnitValues(n * m);
    var p, q := Unit(n * b), Unit(n * m);
    forall id | id in paths ensures eps[id].den != 0 && eps[id].Value() == Share(t, u, p, q, id) {
      Shares(paths, maxCwnd, best, m, b, id);
    }
    SumShares(visit, eps, t, u, p, q);
  }

  /** Whatever path was found best, and in whatever order the paths are visited: no denominator is zero
      and the epsilons add up to zero. */
  lemma {:induction false} Balance(paths: map<PathID, Path>, maxCwnd: nat, best: Best, order: seq<PathID>, eps: map<PathID, Epsilon>, visit: seq<PathID>)
    requires IsRound(paths, maxCwnd, best, order, eps) && Visits(visit, paths)
    ensures (forall id :: id in eps ==> eps[id].den != 0) && Sum(visit, eps) == 0.0
  {
    var t, u := BestOthers(paths, maxCwnd, best), Largest(paths, maxCwnd);
    var m, b := Count(order, u), Count(order, t);
    CountersExact(order, paths, maxCwnd, best);
    CountSame(order, visit, t);
    CountSame(order, visit, u);
    if b == 0 {
      BalanceNone(paths, maxCwnd, best, m % 256, eps, visit);
    } else {
      BalanceSome(paths, maxCwnd, best, m, b, eps, visit);
    }
  }

  // ---------- the senders ----------

  class Sender {
    var congestionWindow: nat
    var squaredRTT: int
    var bytesBetweenLosses: nat
    var epsilonNum: int
    var epsilonDen: nat

    function Read(): Path reads this`congestionWindow, this`squaredRTT, this`bytesBetweenLosses {
      Path(congestionWindow, squaredRTT, bytesBetweenLosses)
    }

    function Eps(): Epsilon reads this`epsilonNum, this`epsilonDen { Epsilon(epsilonNum, epsilonDen) }
  }

  type Senders = map<PathID, Sender>

  ghost function PathsOf(senders: Senders): map<PathID, Path>
    reads senders.Values
  {
    map id | id in senders :: senders[id].Read()
  }

  ghost function EpsOf(senders: Senders): map<PathID, Epsilon>
    reads senders.Values
  {
    map id | id in senders :: senders[id].Eps()
  }

  /** Each path has its own sender. */
  ghost predicate Separate(senders: Senders) {
    forall a, b :: a in senders && b in senders && a != b ==> senders[a] != senders[b]
  }

  method GetMaxCwnd(senders: Senders, order: seq<PathID>) returns (bestCwnd: nat)
    requires Visits(order, PathsOf(senders))
    ensures senders != map[] ==> IsMaxCwnd(PathsOf(senders), bestCwnd)
  {
    bestCwnd := 0;
    ghost var paths := PathsOf(senders);
    ghost var at: nat := 0;
    for i := 0 to |order|
      invariant forall j :: 0 <= j < i ==> paths[order[j]].cwnd <= bestCwnd
      invariant if i == 0 then bestCwnd == 0 else at < i && paths[order[at]].cwnd == bestCwnd
    {
      assert order[i] in order && order[i] in paths;
      var cwnd := senders[order[i]].congestionWindow;
      assert paths[order[i]].cwnd == cwnd;
      if cwnd >= bestCwnd { bestCwnd, at := cwnd, i; }
    }
    assert forall id :: id in paths ==> id in order;
    if senders != map[] {
      var id :| id in senders;
      assert id in paths && id in order && order[at] in order;
    }
  }

  method FindBest(senders: Senders, order: seq<PathID>) returns (best: Best)
    requires Visits(order, PathsOf(senders))
    ensures best == BestAlong(PathsOf(senders), order)
  {
    best := Best(0, 0);
    for i := 0 to |order|
      invariant best == BestAlong(PathsOf(senders), order[..i])
    {
      assert order[i] in order && order[i] in PathsOf(senders);
      BestSnoc(PathsOf(senders), order, i);
      var s := senders[order[i]];
      if best.Beaten(s.Read()) { best := Best(s.squaredRTT, s.bytesBetweenLosses); }
    }
    assert order[..|order|] == order;
  }

  function Bump(n: nat): nat { (n + 1) % 256 }

  /** Counting with one byte. */
  function ByteCount(order: seq<PathID>, t: PathID -> bool): nat {
    if order == [] then 0
    else
      var n := ByteCount(order[..|order| - 1], t);
      if t(order[|order| - 1]) then Bump(n) else n
  }

  lemma {:induction false} ByteCountWraps(order: seq<PathID>, t: PathID -> bool)
    ensures ByteCount(order, t) == Count(order, t) % 256
  {
    if order != [] {
      ByteCountWraps(order[..|order| - 1], t);
      ByteNext(Count(order[..|order| - 1], t));
    }
  }

  lemma {:induction false} ByteNext(n: nat)
    ensures (n + 1) % 256 == Bump(n % 256)
  {
  }

  /** Two counters of one byte each. */
  method CountSets(senders: Senders, order: seq<PathID>, maxCwnd: nat, best: Best) returns (m: nat, b: nat)
    requires Visits(order, PathsOf(senders))
    ensures m == Count(order, Largest(PathsOf(senders), maxCwnd)) % 256
    ensures b == Count(order, BestOthers(PathsOf(senders), maxCwnd, best)) % 256
  {
    m, b := 0, 0;
    ghost var t, u := Largest(PathsOf(senders), maxCwnd), BestOthers(PathsOf(senders), maxCwnd, best);
    for i := 0 to |order|
      invariant m == ByteCount(order[..i], t) && b == ByteCount(order[..i], u)
    {
      assert order[i] in order && order[i] in PathsOf(senders);
      var s := senders[order[i]];
      assert t(order[i]) == (s.congestionWindow == maxCwnd);
      assert u(order[i]) == (s.congestionWindow != maxCwnd && best.Beaten(s.Read()));
      assert order[..i + 1][..i] == order[..i];
      if s.congestionWindow == maxCwnd {
        m := Bump(m);
      } else if best.Beaten(s.Read()) {
        b := Bump(b);
      }
    }
    assert order[..|order|] == order;
    ByteCountWraps(order, t);
    ByteCountWraps(order, u);
  }

  /** Writes the epsilon of one path. */
  method SetEpsilon(s: Sender, n: nat, maxCwnd: nat, best: Best, m: nat, b: nat, ghost paths: map<PathID, Path>, ghost id: PathID)
    requires id in paths && paths[id] == s.Read() && |paths| == n
    modifies s`epsilonNum, s`epsilonDen
    ensures s.Eps() == EpsilonOf(paths, maxCwnd, best, m, b, id)
  {
    if b == 0 {
      s.epsilonNum, s.epsilonDen := 0, 1;
    } else if s.congestionWindow < maxCwnd && best.Beaten(s.Read()) {
      s.epsilonNum, s.epsilonDen := 1, n * b;
    } else if s.congestionWindow == maxCwnd {
      s.epsilonNum, s.epsilonDen := -1, n * m;
    } else {
      s.epsilonNum, s.epsilonDen := 0, 1;
    }
  }

  ghost predicate Written(senders: Senders, paths: map<PathID, Path>, maxCwnd: nat, best: Best, m: nat, b: nat, id: PathID)
    requires id in senders && id in paths
    reads senders[id]
  {
    senders[id].Eps() == EpsilonOf(paths, maxCwnd, best, m, b, id)
  }

  method SetEpsilons(senders: Senders, order: seq<PathID>, maxCwnd: nat, best: Best, m: nat, b: nat)
    requires Separate(senders) && Visits(order, PathsOf(senders))
    modifies senders.Values
    ensures PathsOf(senders) == old(PathsOf(senders))
    ensures forall id :: id in senders ==> Written(senders, old(PathsOf(senders)), maxCwnd, best, m, b, id)
  {
    ghost var paths := PathsOf(senders);
    assert paths.Keys == senders.Keys;
    for i := 0 to |order|
      invariant forall id :: id in senders ==> senders[id].Read() == paths[id]
      invariant forall j :: 0 <= j < i ==> order[j] in senders && Written(senders, paths, maxCwnd, best, m, b, order[j])
    {
      assert order[i] in order && order[i] in paths;
      assert forall j :: 0 <= j < i ==> senders[order[j]] != senders[order[i]];
      SetEpsilon(senders[order[i]], |senders|, maxCwnd, best, m, b, paths, order[i]);
    }
    assert forall id :: id in senders ==> id in order;
  }

  /** One round. Each of its loops may visit the paths in its own order. */
  method GetEpsilon(senders: Senders, order: seq<PathID>, order1: seq<PathID>, order2: seq<PathID>, order3: seq<PathID>)
    returns (maxCwnd: nat, best: Best)
    requires Separate(senders) && Visits(order, PathsOf(senders)) && Visits(order1, PathsOf(senders))
    requires Visits(order2, PathsOf(senders)) && Visits(order3, PathsOf(senders))
    modifies senders.Values
    ensures PathsOf(senders) == old(PathsOf(senders)) && best == BestAlong(PathsOf(senders), order1)
    ensures senders != map[] ==> IsRound(PathsOf(senders), maxCwnd, best, order2, EpsOf(senders))
  {
    maxCwnd := GetMaxCwnd(senders, order);
    best := FindBest(senders, order1);
    var m, b := CountSets(senders, order2, maxCwnd, best);
    SetEpsilons(senders, order3, maxCwnd, best, m, b);
    assert forall id :: id in senders ==> Written(senders, PathsOf(senders), maxCwnd, best, m, b, id);
  }
}
