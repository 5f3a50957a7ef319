/** Lists of packets in order of packet number, and taking packets out of them. */
module PacketLists {

  /** `Listed` stands for the eight frame kinds that count as outstanding when the alarm fires. */
  datatype Frame = StopWaiting | Ack | Listed(id: nat) | Unlisted(id: nat)

  datatype Packet = Packet(number: nat, frames: seq<Frame>, length: nat)

  ghost predicate Increasing(h: seq<Packet>) {
    forall i, j :: 0 <= i < j < |h| ==> Less(h, i, j)
  }

  ghost predicate Less(h: seq<Packet>, i: nat, j: nat)
    requires i < |h| && j < |h|
  {
    h[i].number < h[j].number
  }

  lemma PrefixIncreasing(h: seq<Packet>, k: nat)
    requires Increasing(h) && k <= |h|
    ensures Increasing(h[..k])
    ensures k < |h| ==> forall p :: p in h[..k] ==> p.number < h[k].number
  {
    forall i, j | 0 <= i < j < k ensures Less(h[..k], i, j) { assert Less(h, i, j); }
    forall i | 0 <= i < k && k < |h| ensures h[i].number < h[k].number { assert Less(h, i, k); }
  }

  lemma SnocIncreasing(h: seq<Packet>, p: Packet)
    requires Increasing(h) && forall q :: q in h ==> q.number < p.number
    ensures Increasing(h + [p])
  {
    var h' := h + [p];
    forall i, j | 0 <= i < j < |h'| ensures Less(h', i, j) {
      if j < |h| { assert Less(h, i, j); } else { assert h'[i] in h; }
    }
  }

  function Total(h: seq<Packet>): nat {
    if h == [] then 0 else Total(h[..|h| - 1]) + h[|h| - 1].length
  }

  /** The packets that pass the test, in order. */
  function Taken(h: seq<Packet>, t: Packet -> bool): seq<Packet> {
    if h == [] then [] else Taken(h[..|h| - 1], t) + One(t(h[|h| - 1]), h[|h| - 1])
  }

  function One(b: bool, p: Packet): seq<Packet> { if b then [p] else [] }

  function Not(t: Packet -> bool): Packet -> bool { p => !t(p) }

  /** The packets that fail it. */
  function Rest(h: seq<Packet>, t: Packet -> bool): seq<Packet> { Taken(h, Not(t)) }

  lemma TakenSnoc(h: seq<Packet>, p: Packet, t: Packet -> bool)
    ensures Taken(h + [p], t) == Taken(h, t) + One(t(p), p)
  {
    assert (h + [p])[..|h|] == h;
  }

  lemma TotalSnoc(h: seq<Packet>, p: Packet)
    ensures Total(h + [p]) == Total(h) + p.length
  {
    assert (h + [p])[..|h|] == h;
  }

  lemma TotalOne(h: seq<Packet>, b: bool, p: Packet)
    ensures Total(h + One(b, p)) == Total(h) + if b then p.length else 0
  {
    if b { TotalSnoc(h, p); } else { assert h + [] == h; }
  }

  lemma {:induction false} TotalAppend(a: seq<Packet>, b: seq<Packet>)
    ensures Total(a + b) == Total(a) + Total(b)
  {
    if b == [] {
      assert a + b == a;
    } else {
      TotalAppend(a, b[..|b| - 1]);
      assert (a + b)[..|a + b| - 1] == a + b[..|b| - 1];
    }
  }

  lemma {:induction false} TakenIn(h: seq<Packet>, t: Packet -> bool, p: Packet)
    ensures p in Taken(h, t) <==> p in h && t(p)
  {
    if h != [] {
      TakenIn(h[..|h| - 1], t, p);
    }
  }

  lemma RestIn(h: seq<Packet>, t: Packet -> bool, p: Packet)
    ensures p in Rest(h, t) <==> p in h && !t(p)
  {
    TakenIn(h, Not(t), p);
  }

  /** Taking out neither loses nor copies a packet. */
  lemma {:induction false} TakenConserves(h: seq<Packet>, t: Packet -> bool)
    ensures multiset(h) == multiset(Taken(h, t)) + multiset(Rest(h, t))
    ensures |h| == |Taken(h, t)| + |Rest(h, t)|
  {
    if h != [] {
      var h', p := h[..|h| - 1], h[|h| - 1];
      TakenConserves(h', t);
      assert h == h' + [p];
      if t(p) {
        assert Taken(h, t) == Taken(h', t) + [p] && Rest(h, t) == Rest(h', t);
      } else {
        assert Taken(h, t) == Taken(h', t) && Rest(h, t) == Rest(h', t) + [p];
      }
    }
  }

  lemma {:induction false} TakenTotal(h: seq<Packet>, t: Packet -> bool)
    ensures Total(h) == Total(Taken(h, t)) + Total(Rest(h, t))
  {
    if h != [] {
      var h', p := h[..|h| - 1], h[|h| - 1];
      TakenTotal(h', t);
      TotalOne(Taken(h', t), t(p), p);
      TotalOne(Taken(h', Not(t)), !t(p), p);
    }
  }

  lemma {:induction false} TakenIncreasing(h: seq<Packet>, t: Packet -> bool)
    requires Increasing(h)
    ensures Increasing(Taken(h, t))
  {
    if h != [] {
      var k := |h| - 1;
      PrefixIncreasing(h, k);
      TakenIncreasing(h[..k], t);
      forall p | p in Taken(h[..k], t) ensures p.number < h[k].number { TakenIn(h[..k], t, p); }
      if t(h[k]) { SnocIncreasing(Taken(h[..k], t), h[k]); } else { assert Taken(h, t) == Taken(h[..k], t); }
    }
  }

  /** Packets with equal numbers are the same packet. */
  lemma SameNumber(h: seq<Packet>, p: Packet, q: Packet)
    requires Increasing(h) && p in h && q in h && p.number == q.number
    ensures p == q
  {
    var i, j :| 0 <= i < |h| && 0 <= j < |h| && h[i] == p && h[j] == q;
    assert i < j ==> Less(h, i, j);
    assert j < i ==> Less(h, j, i);
  }

  lemma {:induction false} TakenSame(h: seq<Packet>, t: Packet -> bool, u: Packet -> bool)
    requires forall p :: p in h ==> (t(p) <==> u(p))
    ensures Taken(h, t) == Taken(h, u)
  {
    if h != [] {
      TakenSame(h[..|h| - 1], t, u);
      assert h[|h| - 1] in h;
    }
  }

  lemma {:induction false} TakenAll(h: seq<Packet>, t: Packet -> bool)
    requires forall p :: p in h ==> t(p)
    ensures Taken(h, t) == h
  {
    if h != [] {
      var h', p := h[..|h| - 1], h[|h| - 1];
      assert p in h && t(p);
      TakenAll(h', t);
      assert Taken(h, t) == h' + [p] == h;
    }
  }

  lemma {:induction false} TakenNone(h: seq<Packet>, t: Packet -> bool)
    requires forall p :: p in h ==> !t(p)
    ensures Taken(h, t) == []
  {
    if h != [] {
      assert h[|h| - 1] in h;
      TakenNone(h[..|h| - 1], t);
    }
  }

  lemma TakenOne(h: seq<Packet>, b: bool, p: Packet, t: Packet -> bool)
    ensures Taken(h + One(b, p), t) == Taken(h, t) + One(b && t(p), p)
  {
    if b { TakenSnoc(h, p, t); } else { assert h + [] == h; }
  }

  /** Taking out twice is taking out once with both tests. */
  lemma {:induction false} TakenTwice(h: seq<Packet>, t: Packet -> bool, u: Packet -> bool, v: Packet -> bool)
    requires forall p :: p in h ==> (v(p) <==> t(p) && u(p))
    ensures Taken(Taken(h, t), u) == Taken(h, v)
  {
    if h != [] {
      var k := |h| - 1;
      assert h[k] in h;
      TakenTwice(h[..k], t, u, v);
      TakenOne(Taken(h[..k], t), t(h[k]), h[k], u);
    }
  }

  function ByNumber(n: nat): Packet -> bool { (p: Packet) => p.number == n }

  function Among(ps: seq<Packet>): Packet -> bool { (p: Packet) => p in ps }

  /** Removing one listed element. */
  lemma {:induction false} RemoveAt(h: seq<Packet>, i: nat)
    requires Increasing(h) && i < |h|
    ensures Rest(h, ByNumber(h[i].number)) == h[..i] + h[i + 1..]
  {
    var t := Not(ByNumber(h[i].number));
    var h', p := h[..|h| - 1], h[|h| - 1];
    assert Taken(h, t) == Taken(h', t) + One(t(p), p);
    PrefixIncreasing(h, |h| - 1);
    if i == |h| - 1 {
      TakenAll(h', t);
    } else {
      assert h'[i] in h';
      RemoveAt(h', i);
      assert h[..i] + h[i + 1..] == (h'[..i] + h'[i + 1..]) + [p];
    }
  }
}
