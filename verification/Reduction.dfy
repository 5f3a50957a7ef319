/** What one piece does to the rows of a decoder, said of the rows themselves. */
module Reduction {
  import opened Fields
  import opened LinearAlgebra
  import opened Elimination
  import opened Decoding
  import opened Coding
  import opened RowSpace

  ghost predicate Before(at: seq<nat>, i: nat, j: nat)
    requires i < |at| && j < |at|
  {
    at[i] < at[j]
  }

  ghost predicate NonzeroRow<T>(f: Field<T>, m: seq<Row<T>>, k: nat) {
    k < |m| && !IsZero(f, m[k].vec)
  }

  ghost predicate ListedIfNonzero<T>(f: Field<T>, m: seq<Row<T>>, at: seq<nat>, k: nat) {
    NonzeroRow(f, m, k) ==> k in at
  }

  /** `at` lists, in order, the rows of `m` whose coding vector is not zero. */
  ghost predicate NonzeroAt<T>(f: Field<T>, m: seq<Row<T>>, at: seq<nat>) {
    && (forall i :: 0 <= i < |at| ==> NonzeroRow(f, m, at[i]))
    && (forall i, j :: 0 <= i < j < |at| ==> Before(at, i, j))
    && forall k :: ListedIfNonzero(f, m, at, k)
  }

  /** `r` are the rows of `m` at `at`. */
  ghost predicate RowsAt<T>(m: seq<Row<T>>, at: seq<nat>, r: seq<Row<T>>) {
    |r| == |at| && forall i :: 0 <= i < |r| ==> at[i] < |m| && r[i] == m[at[i]]
  }

  /** `r` are exactly the rows of `m` with a nonzero coding vector, in order. */
  ghost predicate NonzeroRows<T>(f: Field<T>, m: seq<Row<T>>, r: seq<Row<T>>) {
    exists at :: NonzeroAt(f, m, at) && RowsAt(m, at, r)
  }

  /** `r` are the nonzero rows of a matrix with the span of `all` that is upper triangular and has a unit
      column at every nonzero diagonal entry. */
  ghost predicate Reduces<T(!new)>(f: Field<T>, all: seq<Row<T>>, r: seq<Row<T>>, n: nat, w: nat)
    requires Shaped(all, n, w)
  {
    exists m :: |m| == |all| && Shaped(m, n, w) && SameSpan(f, all, m, n, w) && Reduced(f, m, n, w, 0) && NonzeroRows(f, m, r)
  }

  /** What a call of AddPiece does: nothing once done; the first piece is kept as it is; every other one
      is reduced together with the rows held. */
  ghost predicate Takes<T(!new)>(f: Field<T>, before: Dec<T>, piece: Row<T>, after: Dec<T>, w: nat)
    requires Shaped(before.rows + [piece], before.expected, w)
  {
    if before.useful >= before.expected then after == before
    else
      && after.expected == before.expected && after.received == before.received + 1 && after.useful == |after.rows|
      && if before.received == 0 then after.rows == before.rows + [piece]
         else Reduces(f, before.rows + [piece], after.rows, before.expected, w)
  }

  function Later(at: seq<nat>): (r: seq<nat>)
    ensures |r| == |at| && forall i :: 0 <= i < |at| ==> r[i] == at[i] + 1
  {
    seq(|at|, i requires 0 <= i < |at| => at[i] + 1)
  }

  /** The nonzero rows of `[row] + m`, from those of `m`. */
  function Onward(keep: bool, at: seq<nat>): seq<nat> {
    if keep then [0] + Later(at) else Later(at)
  }

  lemma {:induction false} OnwardRises(keep: bool, at: seq<nat>)
    requires forall i, j :: 0 <= i < j < |at| ==> Before(at, i, j)
    ensures var up := Onward(keep, at); forall i, j :: 0 <= i < j < |up| ==> Before(up, i, j)
  {
    var up := Onward(keep, at);
    forall i, j | 0 <= i < j < |up|
      ensures Before(up, i, j)
    {
      if !keep { assert Before(at, i, j); } else if i > 0 { assert Before(at, i - 1, j - 1); }
    }
  }

  lemma {:induction false} OnwardHas(keep: bool, at: seq<nat>, k: nat)
    requires if k == 0 then keep else k - 1 in at
    ensures k in Onward(keep, at)
  {
    var up := Onward(keep, at);
    if k == 0 {
      assert up[0] == 0;
    } else {
      var i :| 0 <= i < |at| && at[i] == k - 1;
      assert up[if keep then i + 1 else i] == k;
    }
  }

  lemma {:induction false} OnwardListed<T>(f: Field<T>, row: Row<T>, m: seq<Row<T>>, at: seq<nat>, k: nat)
    requires k > 0 ==> ListedIfNonzero(f, m, at, k - 1)
    ensures ListedIfNonzero(f, [row] + m, Onward(!IsZero(f, row.vec), at), k)
  {
    if NonzeroRow(f, [row] + m, k) { OnwardHas(!IsZero(f, row.vec), at, k); }
  }

  lemma {:induction false} OnwardNonzero<T>(f: Field<T>, row: Row<T>, m: seq<Row<T>>, at: seq<nat>, i: nat)
    requires i < |Onward(!IsZero(f, row.vec), at)| && forall j :: 0 <= j < |at| ==> NonzeroRow(f, m, at[j])
    ensures NonzeroRow(f, [row] + m, Onward(!IsZero(f, row.vec), at)[i])
  {
    var j := if IsZero(f, row.vec) then i else i - 1;
    assert j >= 0 ==> NonzeroRow(f, m, at[j]);
  }

  lemma {:induction false} OnwardAt<T>(f: Field<T>, row: Row<T>, m: seq<Row<T>>, at: seq<nat>)
    requires NonzeroAt(f, m, at)
    ensures NonzeroAt(f, [row] + m, Onward(!IsZero(f, row.vec), at))
  {
    var all, up := [row] + m, Onward(!IsZero(f, row.vec), at);
    OnwardRises(!IsZero(f, row.vec), at);
    forall i | 0 <= i < |up| ensures NonzeroRow(f, all, up[i]) { OnwardNonzero(f, row, m, at, i); }
    forall k: nat ensures ListedIfNonzero(f, all, up, k) { OnwardListed(f, row, m, at, k); }
  }

  lemma {:induction false} OnwardRows<T>(row: Row<T>, m: seq<Row<T>>, keep: bool, at: seq<nat>, r: seq<Row<T>>)
    requires RowsAt(m, at, r)
    ensures RowsAt([row] + m, Onward(keep, at), if keep then [row] + r else r)
  {}

  lemma {:induction false} DropsToNonzero<T>(f: Field<T>, m: seq<Row<T>>, n: nat, w: nat) returns (at: seq<nat>)
    requires Shaped(m, n, w)
    ensures NonzeroAt(f, m, at) && RowsAt(m, at, DropZeroRows(f, m, n, w))
  {
    if m == [] {
      at := [];
    } else {
      var rest := DropsToNonzero(f, m[1..], n, w);
      var keep := !IsZero(f, m[0].vec);
      OnwardAt(f, m[0], m[1..], rest);
      OnwardRows(m[0], m[1..], keep, rest, DropZeroRows(f, m[1..], n, w));
      assert [m[0]] + m[1..] == m;
      at := Onward(keep, rest);
    }
  }

  lemma RrefReduces<T(!new)>(f: Field<T>, all: seq<Row<T>>, n: nat, w: nat)
    requires Lawful(f) && Shaped(all, n, w)
    ensures Reduces(f, all, Rref(f, all, n, w), n, w)
  {
    var b := Boundary(|all|, n);
    var fwd := Forward(f, all, b, n, w);
    var m := Backward(f, fwd, 0, n, w);
    EliminationKeepsSpan(f, all, n, w);
    ForwardTriangle(f, all, b, n, w);
    BackwardReduced(f, fwd, 0, n, w);
    var at := DropsToNonzero(f, m, n, w);
    assert NonzeroRows(f, m, Rref(f, all, n, w));
  }

  /** Every call of AddPiece does that. */
  lemma ReceiveTakes<T(!new)>(f: Field<T>, d: Dec<T>, piece: Row<T>, w: nat)
    requires Lawful(f) && WellFormed(f, d, w) && |piece.vec| == d.expected && |piece.load| == w
    ensures Takes(f, d, piece, Receive(f, d, piece, w), w)
  {
    if !Decoded(d) && d.received > 0 { RrefReduces(f, d.rows + [piece], d.expected, w); }
  }

  // ---------- a piece received twice ----------

  /** `v` is a multiple of `p`. */
  ghost predicate Along<T(!new)>(f: Field<T>, v: seq<T>, p: seq<T>) {
    exists e :: v == Scaled(f, p, e)
  }

  lemma AlongPlus<T(!new)>(f: Field<T>, a: seq<T>, b: seq<T>, q: T, p: seq<T>)
    requires Lawful(f) && Along(f, a, p) && Along(f, b, p)
    ensures |a| == |b| && Along(f, AddScaled(f, a, b, q, 0), p)
  {
    var d :| a == Scaled(f, p, d);
    var e :| b == Scaled(f, p, e);
    var c := f.Add(d, f.Mul(e, q));
    forall k | 0 <= k < |p|
      ensures AddScaled(f, a, b, q, 0)[k] == f.Mul(p[k], c)
    {
      MulAssoc(f, p[k], e, q);
      MulComm(f, p[k], c);
      Distribute(f, d, f.Mul(e, q), p[k]);
      MulComm(f, d, p[k]);
      MulComm(f, f.Mul(e, q), p[k]);
    }
    assert AddScaled(f, a, b, q, 0) == Scaled(f, p, c);
  }

  lemma AlongZero<T(!new)>(f: Field<T>, p: seq<T>)
    requires Lawful(f)
    ensures Along(f, Zeros(f, |p|), p)
  {
    forall k | 0 <= k < |p| ensures f.Mul(p[k], f.zero) == f.zero { MulZero(f, p[k]); }
    assert Zeros(f, |p|) == Scaled(f, p, f.zero);
  }

  lemma AlongZeroIsZero<T(!new)>(f: Field<T>, v: seq<T>, n: nat)
    requires Lawful(f) && Along(f, v, Zeros(f, n))
    ensures IsZero(f, v)
  {
    var e :| v == Scaled(f, Zeros(f, n), e);
    MulZero(f, e);
  }

  lemma AlongItself<T(!new)>(f: Field<T>, p: seq<T>)
    requires Lawful(f)
    ensures Along(f, p, p)
  {
    forall k | 0 <= k < |p| ensures f.Mul(p[k], f.one) == p[k] { MulOne(f, p[k]); }
    assert p == Scaled(f, p, f.one);
  }

  lemma {:induction false} CombineAlong<T(!new)>(f: Field<T>, c: seq<T>, vectors: seq<seq<T>>, p: seq<T>, k: nat)
    requires Lawful(f) && k <= |c| == |vectors| && Originals(vectors, |vectors|, |p|)
    requires forall i :: 0 <= i < |vectors| ==> Along(f, vectors[i], p)
    ensures Along(f, Combine(f, c, vectors, |p|, k), p)
  {
    if k == 0 {
      AlongZero(f, p);
    } else {
      CombineAlong(f, c, vectors, p, k - 1);
      AlongPlus(f, Combine(f, c, vectors, |p|, k - 1), vectors[k - 1], c[k - 1], p);
    }
  }

  /** Rows that are multiples of one vector span only multiples of it. */
  lemma SpanAlong<T(!new)>(f: Field<T>, m: seq<Row<T>>, n: nat, w: nat, row: Row<T>, p: seq<T>)
    requires Lawful(f) && Shaped(m, n, w) && |p| == n && InSpan(f, m, n, w, row)
    requires forall i :: 0 <= i < |m| ==> Along(f, m[i].vec, p)
    ensures Along(f, row.vec, p)
  {
    var c :| |c| == |m| && Recoded(f, c, m, n, w) == row;
    CombineAlong(f, c, Vectors(m), p, |c|);
  }

  /** A multiple that vanishes where the vector does not is zero. */
  lemma AlongVanishes<T(!new)>(f: Field<T>, v: seq<T>, p: seq<T>, x: nat)
    requires Lawful(f) && Along(f, v, p) && x < |p| && p[x] != f.zero && v[x] == f.zero
    ensures IsZero(f, v)
  {
    var e :| v == Scaled(f, p, e);
    NoZeroDivisors(f, p[x], e);
    forall k | 0 <= k < |v| ensures v[k] == f.zero { MulZero(f, p[k]); }
  }

  /** A matrix whose span holds a nonzero vector has a nonzero row. */
  lemma SomeNonzero<T(!new)>(f: Field<T>, m: seq<Row<T>>, n: nat, w: nat, row: Row<T>)
    requires Lawful(f) && Shaped(m, n, w) && InSpan(f, m, n, w, row) && !IsZero(f, row.vec)
    ensures exists i :: 0 <= i < |m| && !IsZero(f, m[i].vec)
  {
    if forall i :: 0 <= i < |m| ==> IsZero(f, m[i].vec) {
      var z := Zeros(f, n);
      AlongItself(f, z);
      assert forall i :: 0 <= i < |m| ==> m[i].vec == z;
      SpanAlong(f, m, n, w, row, z);
      AlongZeroIsZero(f, row.vec, n);
    }
  }

  /** Two rows that are multiples of `p`, reduced: exactly one is left when `p` meets one of the two
      columns in which a pivot is looked for. */
  lemma TwoReduced<T(!new)>(f: Field<T>, m: seq<Row<T>>, n: nat, w: nat, p: seq<T>, x: nat)
    requires Lawful(f) && Shaped(m, n, w) && |m| == 2 && |p| == n && x < 2 <= n && p[x] != f.zero
    requires Reduced(f, m, n, w, 0) && Along(f, m[0].vec, p) && Along(f, m[1].vec, p)
    ensures IsZero(f, m[0].vec) || IsZero(f, m[1].vec)
  {
    if x == 0 {
      AlongVanishes(f, m[1].vec, p, 0);
    } else if m[1].vec[1] == f.zero {
      AlongVanishes(f, m[1].vec, p, 1);
    } else {
      assert UnitColumn(f, m, n, w, 1);
      AlongVanishes(f, m[0].vec, p, 1);
    }
  }

  lemma OnlyOnce(at: seq<nat>, k: nat)
    requires k in at && (forall i :: 0 <= i < |at| ==> at[i] == k) && forall i, j :: 0 <= i < j < |at| ==> Before(at, i, j)
    ensures at == [k]
  {
    assert |at| > 1 ==> Before(at, 0, 1);
  }

  lemma OneOfTwo<T>(f: Field<T>, m: seq<Row<T>>, r: seq<Row<T>>, k: nat)
    requires |m| == 2 && NonzeroRows(f, m, r) && k < 2 && !IsZero(f, m[k].vec) && IsZero(f, m[1 - k].vec)
    ensures r == [m[k]]
  {
    var at :| NonzeroAt(f, m, at) && RowsAt(m, at, r);
    assert ListedIfNonzero(f, m, at, k);
    forall i | 0 <= i < |at| ensures at[i] == k { assert NonzeroRow(f, m, at[i]); }
    OnlyOnce(at, k);
  }

  /** The same two rows, one of them not zero. */
  lemma TwoLeaveOne<T(!new)>(f: Field<T>, m: seq<Row<T>>, r: seq<Row<T>>, n: nat, w: nat, p: Row<T>, x: nat)
    requires Lawful(f) && Shaped(m, n, w) && |m| == 2 && |p.vec| == n && x < 2 <= n && p.vec[x] != f.zero
    requires Reduced(f, m, n, w, 0) && Along(f, m[0].vec, p.vec) && Along(f, m[1].vec, p.vec)
    requires InSpan(f, m, n, w, p) && NonzeroRows(f, m, r)
    ensures r == [m[0]] || r == [m[1]]
  {
    TwoReduced(f, m, n, w, p.vec, x);
    SomeNonzero(f, m, n, w, p);
    OneOfTwo(f, m, r, if IsZero(f, m[0].vec) then 1 else 0);
  }

  lemma BothAlong<T(!new)>(f: Field<T>, q: Row<T>, p: Row<T>, n: nat, w: nat, row: Row<T>)
    requires Lawful(f) && |q.vec| == |p.vec| == n && |q.load| == |p.load| == w
    requires Along(f, q.vec, p.vec) && InSpan(f, [q, p], n, w, row)
    ensures Along(f, row.vec, p.vec)
  {
    AlongItself(f, p.vec);
    SpanAlong(f, [q, p], n, w, row, p.vec);
  }

  /** Reducing a row together with a multiple of it leaves one row, a multiple of both. */
  lemma PairReduces<T(!new)>(f: Field<T>, q: Row<T>, p: Row<T>, r: seq<Row<T>>, n: nat, w: nat, x: nat)
    requires Lawful(f) && |q.vec| == |p.vec| == n && |q.load| == |p.load| == w
    requires Along(f, q.vec, p.vec) && x < 2 <= n && p.vec[x] != f.zero && Reduces(f, [q, p], r, n, w)
    ensures |r| == 1 && |r[0].vec| == n && |r[0].load| == w && Along(f, r[0].vec, p.vec)
  {
    var all := [q, p];
    var m: seq<Row<T>> :| |m| == 2 && Shaped(m, n, w) && SameSpan(f, all, m, n, w) && Reduced(f, m, n, w, 0) && NonzeroRows(f, m, r);
    assert InSpan(f, all, n, w, m[0]) && InSpan(f, all, n, w, m[1]) && InSpan(f, m, n, w, all[1]);
    BothAlong(f, q, p, n, w, m[0]);
    BothAlong(f, q, p, n, w, m[1]);
    TwoLeaveOne(f, m, r, n, w, p, x);
  }

  lemma {:induction false} NoPivots<T>(f: Field<T>, m: seq<Row<T>>, i: nat, n: nat, w: nat)
    requires Shaped(m, n, w) && i <= Boundary(|m|, n)
    requires forall r, c :: 0 <= r < |m| && 0 <= c < Boundary(|m|, n) ==> m[r].vec[c] == f.zero
    ensures Forward(f, m, i, n, w) == m
  {
    if i > 0 { NoPivots(f, m, i - 1, n, w); }
  }

  lemma {:induction false} NothingAbove<T>(f: Field<T>, m: seq<Row<T>>, i: nat, n: nat, w: nat)
    requires Shaped(m, n, w) && i <= Boundary(|m|, n)
    requires forall r, c :: 0 <= r < |m| && 0 <= c < Boundary(|m|, n) ==> m[r].vec[c] == f.zero
    ensures Backward(f, m, i, n, w) == m
    decreases Boundary(|m|, n) - i
  {
    if i < Boundary(|m|, n) { NothingAbove(f, m, i + 1, n, w); }
  }

  ghost predicate InPivotColumns<T>(f: Field<T>, v: seq<T>) {
    |v| >= 2 && (v[0] != f.zero || v[1] != f.zero)
  }

  lemma RunTwo<T>(f: Field<T>, n: nat, w: nat, p: Row<T>)
    requires |p.vec| == n >= 2 && |p.load| == w
    ensures Run(f, n, w, [p]) == Dec(n, 1, 1, [p])
    ensures Run(f, n, w, [p, p]) == Receive(f, Dec(n, 1, 1, [p]), p, w)
  {
    assert [p][..0] == [] && [p, p][..1] == [p];
    assert Run(f, n, w, [p][..0]) == Initial(n);
  }

  /** A piece received twice counts once exactly when its vector is nonzero in one of the first two cells.
      Otherwise the elimination finds no pivot: a zero vector is dropped, and any other counts twice. */
  lemma RepeatedPiece<T(!new)>(f: Field<T>, n: nat, w: nat, p: Row<T>)
    requires Lawful(f) && |p.vec| == n >= 2 && |p.load| == w
    ensures Run(f, n, w, [p, p]).useful == if InPivotColumns(f, p.vec) then 1 else if IsZero(f, p.vec) then 0 else 2
  {
    RunTwo(f, n, w, p);
    var d, all := Dec(n, 1, 1, [p]), [p, p];
    assert d.rows + [p] == all;
    if InPivotColumns(f, p.vec) {
      ReceiveTakes(f, d, p, w);
      AlongItself(f, p.vec);
      PairReduces(f, p, p, Run(f, n, w, all).rows, n, w, if p.vec[0] != f.zero then 0 else 1);
    } else {
      NoPivots(f, all, 2, n, w);
      NothingAbove(f, all, 0, n, w);
      assert all == [p] + [p] && all[1..] == [p] && [p][1..] == [];
      assert DropZeroRows(f, [p], n, w) == if IsZero(f, p.vec) then [] else [p];
    }
  }

  function Copies<T>(p: Row<T>, k: nat): (r: seq<Row<T>>)
    ensures |r| == k && forall i :: 0 <= i < k ==> r[i] == p
  {
    seq(k, _ => p)
  }

  /** One row is held, a multiple of `p`. */
  ghost predicate HoldsOne<T(!new)>(f: Field<T>, d: Dec<T>, p: Row<T>, w: nat, k: nat) {
    && WellFormed(f, d, w) && d.expected == |p.vec| && d.received == k
    && d.useful == |d.rows| == 1 && Along(f, d.rows[0].vec, p.vec)
  }

  lemma OneMoreCopy<T(!new)>(f: Field<T>, d: Dec<T>, p: Row<T>, w: nat, k: nat)
    requires Lawful(f) && |p.load| == w && InPivotColumns(f, p.vec) && HoldsOne(f, d, p, w, k) && k > 0
    ensures HoldsOne(f, Receive(f, d, p, w), p, w, k + 1)
  {
    ReceiveWellFormed(f, d, p, w);
    ReceiveTakes(f, d, p, w);
    assert d.rows + [p] == [d.rows[0], p];
    PairReduces(f, d.rows[0], p, Receive(f, d, p, w).rows, |p.vec|, w, if p.vec[0] != f.zero then 0 else 1);
  }

  /** However often such a piece arrives, it counts once. */
  lemma {:induction false} CopiesCountOnce<T(!new)>(f: Field<T>, n: nat, w: nat, p: Row<T>, k: nat)
    requires Lawful(f) && |p.vec| == n && |p.load| == w && InPivotColumns(f, p.vec) && k > 0
    ensures HoldsOne(f, Run(f, n, w, Copies(p, k)), p, w, k)
  {
    var all := Copies(p, k);
    assert all[..k - 1] == Copies(p, k - 1);
    if k == 1 {
      AlongItself(f, p.vec);
      assert all == [p];
      RunTwo(f, n, w, p);
    } else {
      CopiesCountOnce(f, n, w, p, k - 1);
      OneMoreCopy(f, Run(f, n, w, Copies(p, k - 1)), p, w, k - 1);
    }
  }
}
