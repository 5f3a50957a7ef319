/** Row spaces said directly: the elimination only ever combines rows, and no coding vector is lost.

    A combination of rows is what a recoder would emit for them, so the statements read: every row the
    decoder holds is a recoding of the pieces it received, and every coding vector it received is a
    combination of the coding vectors it holds. */
module RowSpace {
  import opened Fields
  import opened LinearAlgebra
  import opened Elimination
  import opened Decoding
  import opened Coding

  /** `row` is a combination of the rows of `m`, vector and payload with the same coefficients. */
  ghost predicate InSpan<T(!new)>(f: Field<T>, m: seq<Row<T>>, n: nat, w: nat, row: Row<T>)
    requires Shaped(m, n, w)
  {
    exists c :: |c| == |m| && Recoded(f, c, m, n, w) == row
  }

  /** Every row of `r` is a combination of rows of `m`. */
  ghost predicate Spans<T(!new)>(f: Field<T>, m: seq<Row<T>>, r: seq<Row<T>>, n: nat, w: nat)
    requires Shaped(m, n, w)
  {
    forall i {:trigger InSpan(f, m, n, w, r[i])} :: 0 <= i < |r| ==> InSpan(f, m, n, w, r[i])
  }

  /** `vec` is a combination of the coding vectors of `m`. */
  ghost predicate VectorInSpan<T(!new)>(f: Field<T>, m: seq<Row<T>>, n: nat, w: nat, vec: seq<T>)
    requires Shaped(m, n, w)
  {
    exists c :: |c| == |m| && Combine(f, c, Vectors(m), n, |c|) == vec
  }

  // ---------- combinations ----------

  lemma CombineLinearCell<T(!new)>(f: Field<T>, c: seq<T>, d: seq<T>, q: T, pieces: seq<seq<T>>, w: nat, x: nat)
    requires Lawful(f) && |c| == |d| == |pieces| && Originals(pieces, |pieces|, w) && x < w
    ensures Combine(f, AddScaled(f, c, d, q, 0), pieces, w, |c|)[x]
         == f.Add(Combine(f, c, pieces, w, |c|)[x], f.Mul(Combine(f, d, pieces, w, |c|)[x], q))
  {
    CombineCell(f, AddScaled(f, c, d, q, 0), pieces, w, |c|, x);
    CombineCell(f, c, pieces, w, |c|, x);
    CombineCell(f, d, pieces, w, |c|, x);
    DotAddScaled(f, c, d, q, Column(pieces, x), |c|);
    MulComm(f, q, Dot(f, d, Column(pieces, x), |c|));
  }

  lemma CombineLinear<T(!new)>(f: Field<T>, c: seq<T>, d: seq<T>, q: T, pieces: seq<seq<T>>, w: nat)
    requires Lawful(f) && |c| == |d| == |pieces| && Originals(pieces, |pieces|, w)
    ensures Combine(f, AddScaled(f, c, d, q, 0), pieces, w, |c|)
         == AddScaled(f, Combine(f, c, pieces, w, |c|), Combine(f, d, pieces, w, |c|), q, 0)
  {
    forall x | 0 <= x < w
      ensures Combine(f, AddScaled(f, c, d, q, 0), pieces, w, |c|)[x]
           == AddScaled(f, Combine(f, c, pieces, w, |c|), Combine(f, d, pieces, w, |c|), q, 0)[x]
    {
      CombineLinearCell(f, c, d, q, pieces, w, x);
    }
  }

  lemma CombineUnit<T(!new)>(f: Field<T>, pieces: seq<seq<T>>, w: nat, i: nat)
    requires Lawful(f) && Originals(pieces, |pieces|, w) && i < |pieces|
    ensures Combine(f, Unit(f, |pieces|, i), pieces, w, |pieces|) == pieces[i]
  {
    forall x | 0 <= x < w
      ensures Combine(f, Unit(f, |pieces|, i), pieces, w, |pieces|)[x] == pieces[i][x]
    {
      CombineCell(f, Unit(f, |pieces|, i), pieces, w, |pieces|, x);
      DotUnit(f, |pieces|, i, Column(pieces, x));
    }
  }

  lemma CombineZeros<T(!new)>(f: Field<T>, pieces: seq<seq<T>>, w: nat)
    requires Lawful(f) && Originals(pieces, |pieces|, w)
    ensures Combine(f, Zeros(f, |pieces|), pieces, w, |pieces|) == Zeros(f, w)
  {
    forall x | 0 <= x < w
      ensures Combine(f, Zeros(f, |pieces|), pieces, w, |pieces|)[x] == f.zero
    {
      CombineCell(f, Zeros(f, |pieces|), pieces, w, |pieces|, x);
      DotZero(f, Zeros(f, |pieces|), Column(pieces, x), |pieces|);
    }
  }

  ghost function ZeroRow<T>(f: Field<T>, n: nat, w: nat): Row<T> {
    Row(Zeros(f, n), Zeros(f, w))
  }

  lemma ZeroInSpan<T(!new)>(f: Field<T>, m: seq<Row<T>>, n: nat, w: nat)
    requires Lawful(f) && Shaped(m, n, w)
    ensures InSpan(f, m, n, w, ZeroRow(f, n, w))
  {
    CombineZeros(f, Vectors(m), n);
    CombineZeros(f, Loads(m), w);
    assert Recoded(f, Zeros(f, |m|), m, n, w) == ZeroRow(f, n, w);
  }

  lemma MemberInSpan<T(!new)>(f: Field<T>, m: seq<Row<T>>, n: nat, w: nat, i: nat)
    requires Lawful(f) && Shaped(m, n, w) && i < |m|
    ensures InSpan(f, m, n, w, m[i])
  {
    CombineUnit(f, Vectors(m), n, i);
    CombineUnit(f, Loads(m), w, i);
    assert Recoded(f, Unit(f, |m|, i), m, n, w) == m[i];
  }

  lemma PlusInSpan<T(!new)>(f: Field<T>, m: seq<Row<T>>, n: nat, w: nat, a: Row<T>, b: Row<T>, q: T)
    requires Lawful(f) && Shaped(m, n, w) && InSpan(f, m, n, w, a) && InSpan(f, m, n, w, b)
    ensures |a.vec| == |b.vec| == n && |a.load| == |b.load| == w && InSpan(f, m, n, w, RowPlus(f, a, b, q, 0))
  {
    var c :| |c| == |m| && Recoded(f, c, m, n, w) == a;
    var d :| |d| == |m| && Recoded(f, d, m, n, w) == b;
    CombineLinear(f, c, d, q, Vectors(m), n);
    CombineLinear(f, c, d, q, Loads(m), w);
    assert Recoded(f, AddScaled(f, c, d, q, 0), m, n, w) == RowPlus(f, a, b, q, 0);
  }

  ghost function TimesRow<T>(f: Field<T>, row: Row<T>, q: T): Row<T> {
    Row(Scaled(f, row.vec, q), Scaled(f, row.load, q))
  }

  lemma TimesInSpan<T(!new)>(f: Field<T>, m: seq<Row<T>>, n: nat, w: nat, a: Row<T>, q: T)
    requires Lawful(f) && Shaped(m, n, w) && InSpan(f, m, n, w, a)
    ensures InSpan(f, m, n, w, TimesRow(f, a, q))
  {
    ZeroInSpan(f, m, n, w);
    PlusInSpan(f, m, n, w, ZeroRow(f, n, w), a, q);
    ZeroPlus(f, a.vec, q);
    ZeroPlus(f, a.load, q);
  }

  lemma ZeroPlus<T(!new)>(f: Field<T>, a: seq<T>, q: T)
    requires Lawful(f)
    ensures AddScaled(f, Zeros(f, |a|), a, q, 0) == Scaled(f, a, q)
  {
    forall k | 0 <= k < |a| ensures f.Add(f.zero, f.Mul(a[k], q)) == f.Mul(a[k], q) { AddZero(f, f.Mul(a[k], q)); }
  }

  /** Combinations of combinations are combinations. */
  lemma {:induction false} PartialInSpan<T(!new)>(f: Field<T>, m: seq<Row<T>>, r: seq<Row<T>>, n: nat, w: nat, c: seq<T>, k: nat)
    requires Lawful(f) && Shaped(m, n, w) && Shaped(r, n, w) && Spans(f, m, r, n, w) && k <= |c| == |r|
    ensures InSpan(f, m, n, w, Row(Combine(f, c, Vectors(r), n, k), Combine(f, c, Loads(r), w, k)))
  {
    if k == 0 {
      ZeroInSpan(f, m, n, w);
    } else {
      PartialInSpan(f, m, r, n, w, c, k - 1);
      var part := Row(Combine(f, c, Vectors(r), n, k - 1), Combine(f, c, Loads(r), w, k - 1));
      PlusInSpan(f, m, n, w, part, r[k - 1], c[k - 1]);
      assert RowPlus(f, part, r[k - 1], c[k - 1], 0) == Row(Combine(f, c, Vectors(r), n, k), Combine(f, c, Loads(r), w, k));
    }
  }

  lemma SpanThrough<T(!new)>(f: Field<T>, m: seq<Row<T>>, r: seq<Row<T>>, n: nat, w: nat, row: Row<T>)
    requires Lawful(f) && Shaped(m, n, w) && Shaped(r, n, w) && Spans(f, m, r, n, w) && InSpan(f, r, n, w, row)
    ensures InSpan(f, m, n, w, row)
  {
    var c :| |c| == |r| && Recoded(f, c, r, n, w) == row;
    PartialInSpan(f, m, r, n, w, c, |r|);
  }

  lemma SpansThrough<T(!new)>(f: Field<T>, m: seq<Row<T>>, r: seq<Row<T>>, s: seq<Row<T>>, n: nat, w: nat)
    requires Lawful(f) && Shaped(m, n, w) && Shaped(r, n, w) && Spans(f, m, r, n, w) && Spans(f, r, s, n, w)
    ensures Spans(f, m, s, n, w)
  {
    forall i | 0 <= i < |s| ensures InSpan(f, m, n, w, s[i]) { SpanThrough(f, m, r, n, w, s[i]); }
  }

  lemma SpansItself<T(!new)>(f: Field<T>, m: seq<Row<T>>, n: nat, w: nat)
    requires Lawful(f) && Shaped(m, n, w)
    ensures Spans(f, m, m, n, w)
  {
    forall i | 0 <= i < |m| ensures InSpan(f, m, n, w, m[i]) { MemberInSpan(f, m, n, w, i); }
  }

  // ---------- the steps of the elimination ----------

  /** Each matrix is made of combinations of the other's rows. */
  ghost predicate SameSpan<T(!new)>(f: Field<T>, m: seq<Row<T>>, r: seq<Row<T>>, n: nat, w: nat)
    requires Shaped(m, n, w) && Shaped(r, n, w)
  {
    Spans(f, m, r, n, w) && Spans(f, r, m, n, w)
  }

  lemma SameSpanThrough<T(!new)>(f: Field<T>, m: seq<Row<T>>, r: seq<Row<T>>, s: seq<Row<T>>, n: nat, w: nat)
    requires Lawful(f) && Shaped(m, n, w) && Shaped(r, n, w) && Shaped(s, n, w)
    requires SameSpan(f, m, r, n, w) && SameSpan(f, r, s, n, w)
    ensures SameSpan(f, m, s, n, w)
  {
    SpansThrough(f, m, r, s, n, w);
    SpansThrough(f, s, r, m, n, w);
  }

  lemma SwapSpan<T(!new)>(f: Field<T>, m: seq<Row<T>>, i: nat, p: nat, n: nat, w: nat)
    requires Lawful(f) && Shaped(m, n, w) && i < |m| && p < |m|
    ensures SameSpan(f, m, Swapped(m, i, p), n, w)
  {
    var s := Swapped(m, i, p);
    forall k | 0 <= k < |m|
      ensures InSpan(f, m, n, w, s[k]) && InSpan(f, s, n, w, m[k])
    {
      var other := if k == i then p else if k == p then i else k;
      MemberInSpan(f, m, n, w, other);
      MemberInSpan(f, s, n, w, other);
    }
  }

  /** Adding a multiple twice gives the row back, in characteristic two. */
  lemma PlusTwice<T(!new)>(f: Field<T>, a: seq<T>, b: seq<T>, q: T)
    requires Lawful(f) && |a| == |b|
    ensures AddScaled(f, AddScaled(f, a, b, q, 0), b, q, 0) == a
  {
    forall k | 0 <= k < |a|
      ensures f.Add(f.Add(a[k], f.Mul(b[k], q)), f.Mul(b[k], q)) == a[k]
    {
      AddTwice(f, a[k], f.Mul(b[k], q));
    }
  }

  lemma ClearedInSpan<T(!new)>(f: Field<T>, m: seq<Row<T>>, n: nat, w: nat, target: Row<T>, pivot: Row<T>, i: nat)
    requires Lawful(f) && Shaped(m, n, w) && i < n && |target.vec| == n && |target.load| == w
    requires InSpan(f, m, n, w, pivot) && forall k :: 0 <= k < i && k < |pivot.vec| ==> pivot.vec[k] == f.zero
    ensures |pivot.vec| == n && |pivot.load| == w
    ensures InSpan(f, m, n, w, target) <==> InSpan(f, m, n, w, Cleared(f, target, pivot, i))
  {
    if target.vec[i] != f.zero {
      var q := f.Div(target.vec[i], pivot.vec[i]);
      var r := RowPlus(f, target, pivot, q, 0);
      AddScaledFrom(f, target.vec, pivot.vec, q, i);
      if InSpan(f, m, n, w, target) {
        PlusInSpan(f, m, n, w, target, pivot, q);
      }
      if InSpan(f, m, n, w, r) {
        PlusInSpan(f, m, n, w, r, pivot, q);
        PlusTwice(f, target.vec, pivot.vec, q);
        PlusTwice(f, target.load, pivot.load, q);
      }
    }
  }

  /** Clearing column `i` of any rows but row `i` itself keeps the span. */
  lemma ClearSpan<T(!new)>(f: Field<T>, m: seq<Row<T>>, r: seq<Row<T>>, i: nat, n: nat, w: nat)
    requires Lawful(f) && Shaped(m, n, w) && Shaped(r, n, w) && i < |m| == |r| && i < n && r[i] == m[i]
    requires forall k :: 0 <= k < i ==> m[i].vec[k] == f.zero
    requires forall j :: 0 <= j < |m| ==> r[j] == m[j] || r[j] == Cleared(f, m[j], m[i], i)
    ensures SameSpan(f, m, r, n, w)
  {
    MemberInSpan(f, m, n, w, i);
    MemberInSpan(f, r, n, w, i);
    forall j | 0 <= j < |m|
      ensures InSpan(f, m, n, w, r[j])
    {
      MemberInSpan(f, m, n, w, j);
      ClearedInSpan(f, m, n, w, m[j], m[i], i);
    }
    forall j | 0 <= j < |m|
      ensures InSpan(f, r, n, w, m[j])
    {
      MemberInSpan(f, r, n, w, j);
      ClearedInSpan(f, r, n, w, m[j], m[i], i);
    }
  }

  lemma ClearBelowSpan<T(!new)>(f: Field<T>, m: seq<Row<T>>, i: nat, n: nat, w: nat)
    requires Lawful(f) && Shaped(m, n, w) && i < |m| && i < n && UpperTriangular(f, m, n, w, i)
    ensures SameSpan(f, m, ClearBelow(f, m, i, n, w), n, w)
  {
    ClearSpan(f, m, ClearBelow(f, m, i, n, w), i, n, w);
  }

  lemma SwapClearSpan<T(!new)>(f: Field<T>, m: seq<Row<T>>, i: nat, p: nat, n: nat, w: nat)
    requires Lawful(f) && Shaped(m, n, w) && i <= p < |m| && i < n && UpperTriangular(f, m, n, w, i)
    ensures SameSpan(f, m, ClearBelow(f, Swapped(m, i, p), i, n, w), n, w)
  {
    SwapKeepsTriangle(f, m, i, p, n, w);
    SwapSpan(f, m, i, p, n, w);
    ClearBelowSpan(f, Swapped(m, i, p), i, n, w);
    SameSpanThrough(f, m, Swapped(m, i, p), ClearBelow(f, Swapped(m, i, p), i, n, w), n, w);
  }

  lemma ForwardStepSpan<T(!new)>(f: Field<T>, m: seq<Row<T>>, i: nat, n: nat, w: nat)
    requires Lawful(f) && Shaped(m, n, w) && i < |m| && i < n && UpperTriangular(f, m, n, w, i)
    ensures SameSpan(f, m, ForwardStep(f, m, i, n, w), n, w)
  {
    var p := FindPivot(f, m, i, i);
    if p < |m| { SwapClearSpan(f, m, i, p, n, w); } else { SpansItself(f, m, n, w); }
  }

  lemma ForwardNextSpan<T(!new)>(f: Field<T>, m: seq<Row<T>>, g: seq<Row<T>>, i: nat, n: nat, w: nat)
    requires Lawful(f) && Shaped(m, n, w) && Shaped(g, n, w) && i < |g| && i < n && UpperTriangular(f, g, n, w, i)
    requires SameSpan(f, m, g, n, w)
    ensures SameSpan(f, m, ForwardStep(f, g, i, n, w), n, w)
  {
    ForwardStepSpan(f, g, i, n, w);
    SameSpanThrough(f, m, g, ForwardStep(f, g, i, n, w), n, w);
  }

  lemma ForwardSpan<T(!new)>(f: Field<T>, m: seq<Row<T>>, i: nat, n: nat, w: nat)
    requires Lawful(f) && Shaped(m, n, w) && i <= Boundary(|m|, n)
    ensures SameSpan(f, m, Forward(f, m, i, n, w), n, w)
  {
    var keeps: seq<Row<T>> -> bool := r => Shaped(r, n, w) && SameSpan(f, m, r, n, w);
    SpansItself(f, m, n, w);
    forall g: seq<Row<T>>, k: nat | Shaped(g, n, w) && k < |g| && k < n && UpperTriangular(f, g, n, w, k) && keeps(g)
      ensures keeps(ForwardStep(f, g, k, n, w))
    {
      ForwardNextSpan(f, m, g, k, n, w);
    }
    ForwardKeeps(f, m, i, n, w, keeps);
  }

  /** Dividing a row by its diagonal cell is a multiplication, and multiplying by the cell undoes it. */
  lemma NormalizedIsMultiple<T(!new)>(f: Field<T>, row: Row<T>, i: nat)
    requires Lawful(f) && i < |row.vec| && row.vec[i] != f.zero
    requires forall k :: 0 <= k < i ==> row.vec[k] == f.zero
    ensures row.vec[i] != f.one ==> Normalized(f, row, i) == TimesRow(f, row, f.Div(f.one, row.vec[i]))
    ensures TimesRow(f, TimesRow(f, row, f.Div(f.one, row.vec[i])), row.vec[i]) == row
  {
    var inv := f.Div(f.one, row.vec[i]);
    DivMul(f, f.one, row.vec[i]);
    MulZero(f, inv);
    MulComm(f, row.vec[i], inv);
    assert NormalizedVec(f, row.vec, i, inv) == Scaled(f, row.vec, inv);
    TimesBack(f, row.vec, inv, row.vec[i]);
    TimesBack(f, row.load, inv, row.vec[i]);
  }

  lemma TimesBack<T(!new)>(f: Field<T>, a: seq<T>, p: T, q: T)
    requires Lawful(f) && f.Mul(p, q) == f.one
    ensures Scaled(f, Scaled(f, a, p), q) == a
  {
    forall k | 0 <= k < |a|
      ensures f.Mul(f.Mul(a[k], p), q) == a[k]
    {
      MulAssoc(f, a[k], p, q);
      MulOne(f, a[k]);
    }
  }

  lemma NormalizedInSpan<T(!new)>(f: Field<T>, m: seq<Row<T>>, n: nat, w: nat, row: Row<T>, i: nat)
    requires Lawful(f) && Shaped(m, n, w) && i < |row.vec| && row.vec[i] != f.zero
    requires forall k :: 0 <= k < i ==> row.vec[k] == f.zero
    ensures InSpan(f, m, n, w, row) <==> InSpan(f, m, n, w, Normalized(f, row, i))
  {
    NormalizedIsMultiple(f, row, i);
    if row.vec[i] != f.one {
      if InSpan(f, m, n, w, row) { TimesInSpan(f, m, n, w, row, f.Div(f.one, row.vec[i])); }
      if InSpan(f, m, n, w, Normalized(f, row, i)) { TimesInSpan(f, m, n, w, Normalized(f, row, i), row.vec[i]); }
    }
  }

  lemma NormalizeSpan<T(!new)>(f: Field<T>, m: seq<Row<T>>, i: nat, n: nat, w: nat)
    requires Lawful(f) && Shaped(m, n, w) && i < |m| && i < n && m[i].vec[i] != f.zero
    requires forall k :: 0 <= k < i ==> m[i].vec[k] == f.zero
    ensures SameSpan(f, m, m[i := Normalized(f, m[i], i)], n, w)
  {
    var r := m[i := Normalized(f, m[i], i)];
    forall j | 0 <= j < |m|
      ensures InSpan(f, m, n, w, r[j]) && InSpan(f, r, n, w, m[j])
    {
      MemberInSpan(f, m, n, w, j);
      MemberInSpan(f, r, n, w, j);
      if j == i {
        NormalizedInSpan(f, m, n, w, m[i], i);
        NormalizedInSpan(f, r, n, w, m[i], i);
      }
    }
  }

  lemma BackwardStepSpan<T(!new)>(f: Field<T>, m: seq<Row<T>>, i: nat, n: nat, w: nat)
    requires Lawful(f) && Shaped(m, n, w) && i < |m| && i < n && UpperTriangular(f, m, n, w, i)
    ensures SameSpan(f, m, BackwardStep(f, m, i, n, w), n, w)
  {
    if m[i].vec[i] == f.zero {
      SpansItself(f, m, n, w);
    } else {
      var above := ClearAbove(f, m, i, n, w);
      ClearSpan(f, m, above, i, n, w);
      NormalizeSpan(f, above, i, n, w);
      SameSpanThrough(f, m, above, BackwardStep(f, m, i, n, w), n, w);
    }
  }

  lemma {:induction false} BackwardSpan<T(!new)>(f: Field<T>, m: seq<Row<T>>, i: nat, n: nat, w: nat)
    requires Lawful(f) && Shaped(m, n, w) && i <= Boundary(|m|, n)
    requires UpperTriangular(f, m, n, w, Boundary(|m|, n))
    ensures SameSpan(f, m, Backward(f, m, i, n, w), n, w)
    decreases Boundary(|m|, n) - i
  {
    if i == Boundary(|m|, n) {
      SpansItself(f, m, n, w);
    } else {
      var g := Backward(f, m, i + 1, n, w);
      BackwardSpan(f, m, i + 1, n, w);
      BackwardReduced(f, m, i + 1, n, w);
      BackwardStepSpan(f, g, i, n, w);
      SameSpanThrough(f, m, g, BackwardStep(f, g, i, n, w), n, w);
    }
  }

  // ---------- coding vectors alone ----------

  /** The rows with their payloads taken off. */
  ghost function Bare<T>(m: seq<Row<T>>): (r: seq<Row<T>>)
    ensures |r| == |m| && forall i :: 0 <= i < |m| ==> r[i] == Row(m[i].vec, [])
  {
    seq(|m|, i requires 0 <= i < |m| => Row(m[i].vec, []))
  }

  lemma BareInSpan<T(!new)>(f: Field<T>, m: seq<Row<T>>, n: nat, w: nat, row: Row<T>)
    requires Shaped(m, n, w) && InSpan(f, m, n, w, row)
    ensures InSpan(f, Bare(m), n, 0, Row(row.vec, []))
  {
    var c :| |c| == |m| && Recoded(f, c, m, n, w) == row;
    assert Vectors(Bare(m)) == Vectors(m);
    assert Recoded(f, c, Bare(m), n, 0) == Row(row.vec, []);
  }

  lemma BareSpans<T(!new)>(f: Field<T>, m: seq<Row<T>>, r: seq<Row<T>>, n: nat, w: nat)
    requires Shaped(m, n, w) && Spans(f, m, r, n, w)
    ensures Spans(f, Bare(m), Bare(r), n, 0)
  {
    forall i | 0 <= i < |r| ensures InSpan(f, Bare(m), n, 0, Bare(r)[i]) { BareInSpan(f, m, n, w, r[i]); }
  }

  lemma VectorInSpanIff<T(!new)>(f: Field<T>, m: seq<Row<T>>, n: nat, w: nat, vec: seq<T>)
    requires Shaped(m, n, w)
    ensures VectorInSpan(f, m, n, w, vec) <==> InSpan(f, Bare(m), n, 0, Row(vec, []))
  {
    assert Vectors(Bare(m)) == Vectors(m);
    forall c | |c| == |m|
      ensures Recoded(f, c, Bare(m), n, 0) == Row(vec, []) <==> Combine(f, c, Vectors(m), n, |c|) == vec
    {
      assert Recoded(f, c, Bare(m), n, 0).load == [];
    }
  }

  lemma {:induction false} KeptOrZero<T(!new)>(f: Field<T>, m: seq<Row<T>>, n: nat, w: nat, i: nat)
    requires Shaped(m, n, w) && i < |m|
    ensures IsZero(f, m[i].vec) || m[i] in DropZeroRows(f, m, n, w)
  {
    if i > 0 { KeptOrZero(f, m[1..], n, w, i - 1); }
  }

  lemma {:induction false} KeptWasThere<T(!new)>(f: Field<T>, m: seq<Row<T>>, n: nat, w: nat, row: Row<T>)
    requires Shaped(m, n, w) && row in DropZeroRows(f, m, n, w)
    ensures row in m
  {
    if m != [] && !(!IsZero(f, m[0].vec) && row == m[0]) { KeptWasThere(f, m[1..], n, w, row); }
  }

  lemma DropSpan<T(!new)>(f: Field<T>, m: seq<Row<T>>, n: nat, w: nat)
    requires Lawful(f) && Shaped(m, n, w)
    ensures Spans(f, m, DropZeroRows(f, m, n, w), n, w)
    ensures Spans(f, Bare(DropZeroRows(f, m, n, w)), Bare(m), n, 0)
  {
    var r := DropZeroRows(f, m, n, w);
    forall i | 0 <= i < |r|
      ensures InSpan(f, m, n, w, r[i])
    {
      KeptWasThere(f, m, n, w, r[i]);
      var j :| 0 <= j < |m| && m[j] == r[i];
      MemberInSpan(f, m, n, w, j);
    }
    forall i | 0 <= i < |m|
      ensures InSpan(f, Bare(r), n, 0, Bare(m)[i])
    {
      KeptOrZero(f, m, n, w, i);
      if IsZero(f, m[i].vec) {
        ZeroInSpan(f, Bare(r), n, 0);
        assert Bare(m)[i] == ZeroRow(f, n, 0);
      } else {
        var j :| 0 <= j < |r| && r[j] == m[i];
        MemberInSpan(f, Bare(r), n, 0, j);
      }
    }
  }

  // ---------- the whole elimination, and whole runs ----------

  /** Before rows are dropped the elimination keeps the row space, payloads included. */
  lemma EliminationKeepsSpan<T(!new)>(f: Field<T>, m: seq<Row<T>>, n: nat, w: nat)
    requires Lawful(f) && Shaped(m, n, w)
    ensures SameSpan(f, m, Backward(f, Forward(f, m, Boundary(|m|, n), n, w), 0, n, w), n, w)
  {
    var b := Boundary(|m|, n);
    var fwd := Forward(f, m, b, n, w);
    ForwardSpan(f, m, b, n, w);
    ForwardTriangle(f, m, b, n, w);
    BackwardSpan(f, fwd, 0, n, w);
    SameSpanThrough(f, m, fwd, Backward(f, fwd, 0, n, w), n, w);
  }

  lemma RrefSpans<T(!new)>(f: Field<T>, m: seq<Row<T>>, n: nat, w: nat)
    requires Lawful(f) && Shaped(m, n, w)
    ensures Spans(f, m, Rref(f, m, n, w), n, w)
    ensures Spans(f, Bare(Rref(f, m, n, w)), Bare(m), n, 0)
  {
    var s := Backward(f, Forward(f, m, Boundary(|m|, n), n, w), 0, n, w);
    EliminationKeepsSpan(f, m, n, w);
    DropSpan(f, s, n, w);
    SpansThrough(f, m, s, Rref(f, m, n, w), n, w);
    BareSpans(f, s, m, n, w);
    SpansThrough(f, Bare(Rref(f, m, n, w)), Bare(s), Bare(m), n, 0);
  }

  /** Every row of the result is a combination of the input rows, payload included, and every input
      coding vector is a combination of the coding vectors of the result. */
  lemma RrefRowSpace<T(!new)>(f: Field<T>, m: seq<Row<T>>, n: nat, w: nat)
    requires Lawful(f) && Shaped(m, n, w)
    ensures forall j :: 0 <= j < |Rref(f, m, n, w)| ==> InSpan(f, m, n, w, Rref(f, m, n, w)[j])
    ensures forall i :: 0 <= i < |m| ==> VectorInSpan(f, Rref(f, m, n, w), n, w, m[i].vec)
  {
    RrefSpans(f, m, n, w);
    forall i | 0 <= i < |m|
      ensures VectorInSpan(f, Rref(f, m, n, w), n, w, m[i].vec)
    {
      assert InSpan(f, Bare(Rref(f, m, n, w)), n, 0, Bare(m)[i]);
      VectorInSpanIff(f, Rref(f, m, n, w), n, w, m[i].vec);
    }
  }

  /** Every vector is a combination of the unit vectors. */
  lemma IdentitySpansAll<T(!new)>(f: Field<T>, m: seq<Row<T>>, n: nat, w: nat, vec: seq<T>)
    requires Lawful(f) && Shaped(m, n, w) && IsIdentity(f, m, n) && |vec| == n
    ensures VectorInSpan(f, m, n, w, vec)
  {
    forall x | 0 <= x < n
      ensures Combine(f, vec, Vectors(m), n, n)[x] == vec[x]
    {
      CombineCell(f, vec, Vectors(m), n, n, x);
      assert Column(Vectors(m), x) == Unit(f, n, x);
      DotUnit(f, n, x, vec);
    }
    assert Combine(f, vec, Vectors(m), n, |vec|) == vec;
  }

  lemma SpansMore<T(!new)>(f: Field<T>, m: seq<Row<T>>, n: nat, w: nat, last: Row<T>, rows: seq<Row<T>>)
    requires Lawful(f) && Shaped(m, n, w) && Shaped([last], n, w) && Spans(f, m, rows, n, w)
    ensures Spans(f, m + [last], rows + [last], n, w)
  {
    var all := m + [last];
    forall i | 0 <= i < |m| ensures InSpan(f, all, n, w, m[i]) { MemberInSpan(f, all, n, w, i); }
    MemberInSpan(f, all, n, w, |m|);
    SpansThrough(f, all, m, rows, n, w);
  }

  /** Every row a decoder holds, after any run, is a combination of the pieces it was given. */
  lemma {:induction false} HeldRowsAreCombinations<T(!new)>(f: Field<T>, n: nat, w: nat, pieces: seq<Row<T>>)
    requires Lawful(f) && Shaped(pieces, n, w)
    ensures Spans(f, pieces, Run(f, n, w, pieces).rows, n, w)
  {
    if pieces != [] {
      var front, last := pieces[..|pieces| - 1], pieces[|pieces| - 1];
      assert front + [last] == pieces;
      var d := Run(f, n, w, front);
      HeldRowsAreCombinations(f, n, w, front);
      SpansMore(f, front, n, w, last, d.rows);
      assert Spans(f, pieces, d.rows, n, w) by {
        forall i | 0 <= i < |d.rows| ensures InSpan(f, pieces, n, w, d.rows[i]) { assert (d.rows + [last])[i] == d.rows[i]; }
      }
      RrefSpans(f, d.rows + [last], n, w);
      SpansThrough(f, pieces, d.rows + [last], Rref(f, d.rows + [last], n, w), n, w);
    }
  }

  /** One AddPiece call keeps every coding vector it held, and the new one. */
  lemma KeptByReceive<T(!new)>(f: Field<T>, d: Dec<T>, piece: Row<T>, w: nat)
    requires Lawful(f) && Shaped(d.rows, d.expected, w) && |piece.vec| == d.expected && |piece.load| == w && !Decoded(d)
    ensures Spans(f, Bare(Receive(f, d, piece, w).rows), Bare(d.rows), d.expected, 0)
    ensures InSpan(f, Bare(Receive(f, d, piece, w).rows), d.expected, 0, Row(piece.vec, []))
  {
    var all, r := d.rows + [piece], Receive(f, d, piece, w).rows;
    if d.received == 0 {
      SpansItself(f, Bare(all), d.expected, 0);
    } else {
      RrefSpans(f, all, d.expected, w);
    }
    assert Bare(all)[|d.rows|] == Row(piece.vec, []);
    forall i | 0 <= i < |d.rows|
      ensures InSpan(f, Bare(r), d.expected, 0, Bare(d.rows)[i])
    {
      assert Bare(all)[i] == Bare(d.rows)[i];
    }
  }

  lemma OldVectorKept<T(!new)>(f: Field<T>, d: Dec<T>, piece: Row<T>, w: nat, vec: seq<T>)
    requires Lawful(f) && Shaped(d.rows, d.expected, w) && |piece.vec| == d.expected && |piece.load| == w && !Decoded(d)
    requires vec == piece.vec || VectorInSpan(f, d.rows, d.expected, w, vec)
    ensures VectorInSpan(f, Receive(f, d, piece, w).rows, d.expected, w, vec)
  {
    var r := Receive(f, d, piece, w).rows;
    assert InSpan(f, Bare(r), d.expected, 0, Row(vec, [])) by {
      KeptByReceive(f, d, piece, w);
      if vec != piece.vec {
        VectorInSpanIff(f, d.rows, d.expected, w, vec);
        SpanThrough(f, Bare(r), Bare(d.rows), d.expected, 0, Row(vec, []));
      }
    }
    VectorInSpanIff(f, r, d.expected, w, vec);
  }

  /** Every coding vector a decoder was given, in any run, is a combination of those it holds. */
  lemma {:induction false} GivenVectorsAreKept<T(!new)>(f: Field<T>, n: nat, w: nat, pieces: seq<Row<T>>, i: nat)
    requires Lawful(f) && Shaped(pieces, n, w) && n != 1 && i < |pieces|
    ensures VectorInSpan(f, Run(f, n, w, pieces).rows, n, w, pieces[i].vec)
  {
    var front, last := pieces[..|pieces| - 1], pieces[|pieces| - 1];
    var d := Run(f, n, w, front);
    if Decoded(d) {
      RunWellFormed(f, n, w, front);
      IdentitySpansAll(f, d.rows, n, w, pieces[i].vec);
    } else {
      if i < |front| { GivenVectorsAreKept(f, n, w, front, i); }
      OldVectorKept(f, d, last, w, pieces[i].vec);
    }
  }
}
