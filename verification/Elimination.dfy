/** The decoder's elimination on matrix values: what `Rref` computes, step by step, and what it keeps.

    A row pairs a coding vector with the coded payload it multiplies.  The algorithm is not the textbook
    reduced row echelon form: it looks for the pivot of column i only in rows i and below, leaves the
    column alone when there is none, and never tries to put a later pivot on that row. */
module Elimination {
  import opened Fields
  import opened LinearAlgebra

  datatype Row<!T> = Row(vec: seq<T>, load: seq<T>)

  ghost predicate Shaped<T>(m: seq<Row<T>>, n: nat, w: nat) {
    forall i :: 0 <= i < |m| ==> |m[i].vec| == n && |m[i].load| == w
  }

  // ---------- the steps ----------

  function RowPlus<T>(f: Field<T>, dst: Row<T>, src: Row<T>, q: T, from: nat): (r: Row<T>)
    requires |dst.vec| == |src.vec| && |dst.load| == |src.load|
  {
    Row(AddScaled(f, dst.vec, src.vec, q, from), AddScaled(f, dst.load, src.load, q, 0))
  }

  /** `target` with its cell in column `i` cleared against the pivot row, unless it is zero already. */
  function Cleared<T(==)>(f: Field<T>, target: Row<T>, pivot: Row<T>, i: nat): (r: Row<T>)
    requires |target.vec| == |pivot.vec| && |target.load| == |pivot.load| && i < |pivot.vec|
    ensures |r.vec| == |target.vec| && |r.load| == |target.load|
  {
    if target.vec[i] == f.zero then target
    else RowPlus(f, target, pivot, f.Div(target.vec[i], pivot.vec[i]), i)
  }

  /** The first row at or below `from` with a nonzero cell in column `i`, or the number of rows. */
  function FindPivot<T(==)>(f: Field<T>, m: seq<Row<T>>, i: nat, from: nat): (p: nat)
    requires from <= |m| && forall r :: 0 <= r < |m| ==> i < |m[r].vec|
    ensures from <= p <= |m|
    ensures p < |m| ==> m[p].vec[i] != f.zero
    ensures forall r :: from <= r < p ==> m[r].vec[i] == f.zero
    decreases |m| - from
  {
    if from == |m| || m[from].vec[i] != f.zero then from else FindPivot(f, m, i, from + 1)
  }

  function Swapped<T>(m: seq<Row<T>>, i: nat, j: nat): (r: seq<Row<T>>)
    requires i < |m| && j < |m|
    ensures |r| == |m| && r[i] == m[j] && r[j] == m[i]
    ensures forall k :: 0 <= k < |m| && k != i && k != j ==> r[k] == m[k]
  {
    m[i := m[j]][j := m[i]]
  }

  function ClearBelow<T(==)>(f: Field<T>, m: seq<Row<T>>, i: nat, n: nat, w: nat): (r: seq<Row<T>>)
    requires Shaped(m, n, w) && i < |m| && i < n
    ensures |r| == |m| && Shaped(r, n, w)
    ensures forall j :: 0 <= j < |m| ==> r[j] == if j > i then Cleared(f, m[j], m[i], i) else m[j]
  {
    seq(|m|, j requires 0 <= j < |m| => if j > i then Cleared(f, m[j], m[i], i) else m[j])
  }

  function ClearAbove<T(==)>(f: Field<T>, m: seq<Row<T>>, i: nat, n: nat, w: nat): (r: seq<Row<T>>)
    requires Shaped(m, n, w) && i < |m| && i < n
    ensures |r| == |m| && Shaped(r, n, w)
    ensures forall j :: 0 <= j < |m| ==> r[j] == if j < i then Cleared(f, m[j], m[i], i) else m[j]
  {
    seq(|m|, j requires 0 <= j < |m| => if j < i then Cleared(f, m[j], m[i], i) else m[j])
  }

  function ForwardStep<T(==)>(f: Field<T>, m: seq<Row<T>>, i: nat, n: nat, w: nat): (r: seq<Row<T>>)
    requires Shaped(m, n, w) && i < |m| && i < n
    ensures |r| == |m| && Shaped(r, n, w)
  {
    var p := FindPivot(f, m, i, i);
    if p == |m| then m else ClearBelow(f, Swapped(m, i, p), i, n, w)
  }

  /** `vec` times `inv` right of position `i`, with a one at `i`: cells left of `i` are not touched. */
  function NormalizedVec<T(==)>(f: Field<T>, vec: seq<T>, i: nat, inv: T): (r: seq<T>)
    requires i < |vec|
    ensures |r| == |vec|
    ensures forall k :: 0 <= k < |vec| ==> r[k] == (if k == i then f.one else if k < i || vec[k] == f.zero then vec[k] else f.Mul(vec[k], inv))
  {
    seq(|vec|, k requires 0 <= k < |vec| =>
      if k == i then f.one else if k < i || vec[k] == f.zero then vec[k] else f.Mul(vec[k], inv))
  }

  /** `row` divided by its diagonal cell. */
  function Normalized<T(==)>(f: Field<T>, row: Row<T>, i: nat): (r: Row<T>)
    requires i < |row.vec|
    ensures |r.vec| == |row.vec| && |r.load| == |row.load|
  {
    if row.vec[i] == f.one then row
    else
      var inv := f.Div(f.one, row.vec[i]);
      Row(NormalizedVec(f, row.vec, i, inv), Scaled(f, row.load, inv))
  }

  function BackwardStep<T(==)>(f: Field<T>, m: seq<Row<T>>, i: nat, n: nat, w: nat): (r: seq<Row<T>>)
    requires Shaped(m, n, w) && i < |m| && i < n
    ensures |r| == |m| && Shaped(r, n, w)
  {
    if m[i].vec[i] == f.zero then m
    else
      var above := ClearAbove(f, m, i, n, w);
      above[i := Normalized(f, above[i], i)]
  }

  function Boundary(rows: nat, n: nat): (b: nat) {
    if rows <= n then rows else n
  }

  /** The matrix after the forward pass over columns 0 .. i - 1. */
  function Forward<T(==)>(f: Field<T>, m: seq<Row<T>>, i: nat, n: nat, w: nat): (r: seq<Row<T>>)
    requires Shaped(m, n, w) && i <= Boundary(|m|, n)
    ensures |r| == |m| && Shaped(r, n, w)
  {
    if i == 0 then m else ForwardStep(f, Forward(f, m, i - 1, n, w), i - 1, n, w)
  }

  /** The matrix after the backward pass over the columns from the boundary down to i. */
  function Backward<T(==)>(f: Field<T>, m: seq<Row<T>>, i: nat, n: nat, w: nat): (r: seq<Row<T>>)
    requires Shaped(m, n, w) && i <= Boundary(|m|, n)
    ensures |r| == |m| && Shaped(r, n, w)
    decreases Boundary(|m|, n) - i
  {
    if i == Boundary(|m|, n) then m else BackwardStep(f, Backward(f, m, i + 1, n, w), i, n, w)
  }

  predicate IsZero<T(==)>(f: Field<T>, v: seq<T>) {
    forall k :: 0 <= k < |v| ==> v[k] == f.zero
  }

  function DropZeroRows<T(==)>(f: Field<T>, m: seq<Row<T>>, n: nat, w: nat): (r: seq<Row<T>>)
    requires Shaped(m, n, w)
    ensures |r| <= |m| && Shaped(r, n, w)
  {
    if m == [] then []
    else if IsZero(f, m[0].vec) then DropZeroRows(f, m[1..], n, w)
    else [m[0]] + DropZeroRows(f, m[1..], n, w)
  }

  function Rref<T(==)>(f: Field<T>, m: seq<Row<T>>, n: nat, w: nat): (r: seq<Row<T>>)
    requires Shaped(m, n, w)
    ensures |r| <= |m| && Shaped(r, n, w)
  {
    DropZeroRows(f, Backward(f, Forward(f, m, Boundary(|m|, n), n, w), 0, n, w), n, w)
  }

  // ---------- what a linear functional sees of a row ----------

  /** The value of the functional (v, u) on a row: the vector weighed by v plus the payload weighed by u. */
  ghost function Pair<T>(f: Field<T>, row: Row<T>, v: seq<T>, u: seq<T>): T
    requires |row.vec| == |v| && |row.load| == |u|
  {
    f.Add(Dot(f, row.vec, v, |v|), Dot(f, row.load, u, |u|))
  }

  /** (v, u) vanishes on every row.  With u = 0 this says that v is in the null space of the coding
      vectors; with v a column of originals and u a unit vector, that this column solves the system.
      `RowSpace` says the same of row spaces directly. */
  ghost predicate Vanishes<T>(f: Field<T>, m: seq<Row<T>>, n: nat, w: nat, v: seq<T>, u: seq<T>)
    requires Shaped(m, n, w) && |v| == n && |u| == w
  {
    forall i :: 0 <= i < |m| ==> Pair(f, m[i], v, u) == f.zero
  }

  lemma PairPlus<T(!new)>(f: Field<T>, dst: Row<T>, src: Row<T>, q: T, v: seq<T>, u: seq<T>)
    requires Lawful(f)
    requires |dst.vec| == |src.vec| == |v| && |dst.load| == |src.load| == |u|
    ensures Pair(f, RowPlus(f, dst, src, q, 0), v, u) == f.Add(Pair(f, dst, v, u), f.Mul(q, Pair(f, src, v, u)))
  {
    var a, b := Dot(f, dst.vec, v, |v|), Dot(f, dst.load, u, |u|);
    var c, d := Dot(f, src.vec, v, |v|), Dot(f, src.load, u, |u|);
    DotAddScaled(f, dst.vec, src.vec, q, v, |v|);
    DotAddScaled(f, dst.load, src.load, q, u, |u|);
    AddSwap(f, a, f.Mul(q, c), b, f.Mul(q, d));
    Distribute(f, c, d, q);
  }

  /** Clearing a cell keeps whether a functional that vanishes on the pivot vanishes on the row. */
  lemma ClearedVanishes<T(!new)>(f: Field<T>, target: Row<T>, pivot: Row<T>, i: nat, v: seq<T>, u: seq<T>)
    requires Lawful(f)
    requires |target.vec| == |pivot.vec| == |v| && |target.load| == |pivot.load| == |u| && i < |pivot.vec|
    requires forall k :: 0 <= k < i ==> pivot.vec[k] == f.zero
    requires Pair(f, pivot, v, u) == f.zero
    ensures Pair(f, Cleared(f, target, pivot, i), v, u) == Pair(f, target, v, u)
  {
    if target.vec[i] != f.zero {
      var q := f.Div(target.vec[i], pivot.vec[i]);
      AddScaledFrom(f, target.vec, pivot.vec, q, i);
      PairPlus(f, target, pivot, q, v, u);
      MulZero(f, q);
      AddZero(f, Pair(f, target, v, u));
    }
  }

  lemma ClearedCell<T(!new)>(f: Field<T>, target: Row<T>, pivot: Row<T>, i: nat)
    requires Lawful(f)
    requires |target.vec| == |pivot.vec| && |target.load| == |pivot.load| && i < |pivot.vec|
    requires pivot.vec[i] != f.zero
    ensures Cleared(f, target, pivot, i).vec[i] == f.zero
  {
    DivMul(f, target.vec[i], pivot.vec[i]);
    AddSelf(f, target.vec[i]);
  }

  /** A cell whose pivot entry is zero is not changed. */
  lemma ClearedKeeps<T(!new)>(f: Field<T>, target: Row<T>, pivot: Row<T>, i: nat, k: nat)
    requires Lawful(f)
    requires |target.vec| == |pivot.vec| && |target.load| == |pivot.load| && i < |pivot.vec| && k < |pivot.vec|
    requires k < i || pivot.vec[k] == f.zero
    ensures Cleared(f, target, pivot, i).vec[k] == target.vec[k]
  {
    MulZero(f, f.Div(target.vec[i], pivot.vec[i]));
    AddZero(f, target.vec[k]);
  }

  // ---------- forward pass ----------

  /** Columns 0 .. i - 1 are zero below the diagonal. */
  ghost predicate UpperTriangular<T>(f: Field<T>, m: seq<Row<T>>, n: nat, w: nat, i: nat)
    requires Shaped(m, n, w)
  {
    forall r, c :: 0 <= c < i && c < n && c < r < |m| ==> m[r].vec[c] == f.zero
  }

  lemma SwapKeepsTriangle<T>(f: Field<T>, m: seq<Row<T>>, i: nat, p: nat, n: nat, w: nat)
    requires Shaped(m, n, w) && UpperTriangular(f, m, n, w, i) && i <= p < |m|
    ensures UpperTriangular(f, Swapped(m, i, p), n, w, i)
  {}

  lemma SwapVanishes<T>(f: Field<T>, m: seq<Row<T>>, i: nat, p: nat, n: nat, w: nat, v: seq<T>, u: seq<T>)
    requires Shaped(m, n, w) && i < |m| && p < |m| && |v| == n && |u| == w
    ensures Vanishes(f, Swapped(m, i, p), n, w, v, u) <==> Vanishes(f, m, n, w, v, u)
  {
    var s := Swapped(m, i, p);
    assert forall k :: 0 <= k < |m| ==> m[k] == s[if k == i then p else if k == p then i else k];
  }

  lemma ClearBelowTriangle<T(!new)>(f: Field<T>, m: seq<Row<T>>, i: nat, n: nat, w: nat)
    requires Lawful(f) && Shaped(m, n, w) && i < |m| && i < n
    requires UpperTriangular(f, m, n, w, i) && m[i].vec[i] != f.zero
    ensures UpperTriangular(f, ClearBelow(f, m, i, n, w), n, w, i + 1)
  {
    var r := ClearBelow(f, m, i, n, w);
    forall j, c | 0 <= c < i + 1 && c < n && c < j < |m|
      ensures r[j].vec[c] == f.zero
    {
      if j > i {
        if c == i { ClearedCell(f, m[j], m[i], i); } else { ClearedKeeps(f, m[j], m[i], i, c); }
      }
    }
  }

  lemma ClearBelowVanishes<T(!new)>(f: Field<T>, m: seq<Row<T>>, i: nat, n: nat, w: nat, v: seq<T>, u: seq<T>)
    requires Lawful(f) && Shaped(m, n, w) && i < |m| && i < n && |v| == n && |u| == w
    requires UpperTriangular(f, m, n, w, i)
    ensures Vanishes(f, ClearBelow(f, m, i, n, w), n, w, v, u) <==> Vanishes(f, m, n, w, v, u)
  {
    var r := ClearBelow(f, m, i, n, w);
    assert r[i] == m[i];
    if Pair(f, m[i], v, u) == f.zero {
      forall j | 0 <= j < |m|
        ensures Pair(f, r[j], v, u) == Pair(f, m[j], v, u)
      {
        ClearedVanishes(f, m[j], m[i], i, v, u);
      }
    }
  }

  lemma ForwardStepTriangle<T(!new)>(f: Field<T>, m: seq<Row<T>>, i: nat, n: nat, w: nat)
    requires Lawful(f) && Shaped(m, n, w) && i < |m| && i < n && UpperTriangular(f, m, n, w, i)
    ensures UpperTriangular(f, ForwardStep(f, m, i, n, w), n, w, i + 1)
  {
    var p := FindPivot(f, m, i, i);
    if p < |m| {
      SwapKeepsTriangle(f, m, i, p, n, w);
      ClearBelowTriangle(f, Swapped(m, i, p), i, n, w);
    }
  }

  lemma ForwardStepVanishes<T(!new)>(f: Field<T>, m: seq<Row<T>>, i: nat, n: nat, w: nat, v: seq<T>, u: seq<T>)
    requires Lawful(f) && Shaped(m, n, w) && i < |m| && i < n && UpperTriangular(f, m, n, w, i)
    requires |v| == n && |u| == w
    ensures Vanishes(f, ForwardStep(f, m, i, n, w), n, w, v, u) <==> Vanishes(f, m, n, w, v, u)
  {
    var p := FindPivot(f, m, i, i);
    if p < |m| {
      SwapKeepsTriangle(f, m, i, p, n, w);
      SwapVanishes(f, m, i, p, n, w, v, u);
      ClearBelowVanishes(f, Swapped(m, i, p), i, n, w, v, u);
    }
  }

  lemma {:induction false} ForwardTriangle<T(!new)>(f: Field<T>, m: seq<Row<T>>, i: nat, n: nat, w: nat)
    requires Lawful(f) && Shaped(m, n, w) && i <= Boundary(|m|, n)
    ensures UpperTriangular(f, Forward(f, m, i, n, w), n, w, i)
  {
    if i > 0 {
      ForwardTriangle(f, m, i - 1, n, w);
      ForwardStepTriangle(f, Forward(f, m, i - 1, n, w), i - 1, n, w);
    }
  }

  lemma {:induction false} ForwardExtends<T>(f: Field<T>, m: seq<Row<T>>, g: seq<Row<T>>, r: seq<Row<T>>, k: nat, n: nat, w: nat)
    requires Shaped(m, n, w) && 0 < k <= Boundary(|m|, n) && g == Forward(f, m, k - 1, n, w) && r == ForwardStep(f, g, k - 1, n, w)
    ensures r == Forward(f, m, k, n, w)
  {}

  /** What every step of the forward pass keeps holds of its result. */
  lemma {:induction false} ForwardKeeps<T(!new)>(f: Field<T>, m: seq<Row<T>>, i: nat, n: nat, w: nat, keeps: seq<Row<T>> -> bool)
    requires Lawful(f) && Shaped(m, n, w) && i <= Boundary(|m|, n) && keeps(m)
    requires forall g: seq<Row<T>>, k: nat {:trigger ForwardStep(f, g, k, n, w)} ::
      Shaped(g, n, w) && k < |g| && k < n && UpperTriangular(f, g, n, w, k) && keeps(g) ==> keeps(ForwardStep(f, g, k, n, w))
    ensures keeps(Forward(f, m, i, n, w))
  {
    if i > 0 {
      var g := Forward(f, m, i - 1, n, w);
      ForwardKeeps(f, m, i - 1, n, w, keeps);
      assert UpperTriangular(f, g, n, w, i - 1) by { ForwardTriangle(f, m, i - 1, n, w); }
      assert keeps(ForwardStep(f, g, i - 1, n, w));
    }
  }

  lemma ForwardVanishes<T(!new)>(f: Field<T>, m: seq<Row<T>>, i: nat, n: nat, w: nat, v: seq<T>, u: seq<T>)
    requires Lawful(f) && Shaped(m, n, w) && i <= Boundary(|m|, n) && |v| == n && |u| == w
    ensures Vanishes(f, Forward(f, m, i, n, w), n, w, v, u) <==> Vanishes(f, m, n, w, v, u)
  {
    var keeps: seq<Row<T>> -> bool := r => Shaped(r, n, w) && (Vanishes(f, r, n, w, v, u) <==> Vanishes(f, m, n, w, v, u));
    forall g: seq<Row<T>>, k: nat | Shaped(g, n, w) && k < |g| && k < n && UpperTriangular(f, g, n, w, k) && keeps(g)
      ensures keeps(ForwardStep(f, g, k, n, w))
    {
      ForwardStepVanishes(f, g, k, n, w, v, u);
    }
    ForwardKeeps(f, m, i, n, w, keeps);
  }

  // ---------- backward pass ----------

  /** Upper triangular, and every column from i on with a nonzero diagonal cell is a unit column. */
  ghost predicate Reduced<T>(f: Field<T>, m: seq<Row<T>>, n: nat, w: nat, i: nat)
    requires Shaped(m, n, w)
  {
    && UpperTriangular(f, m, n, w, Boundary(|m|, n))
    && forall k :: i <= k < Boundary(|m|, n) && m[k].vec[k] != f.zero ==> UnitColumn(f, m, n, w, k)
  }

  ghost predicate UnitColumn<T>(f: Field<T>, m: seq<Row<T>>, n: nat, w: nat, k: nat)
    requires Shaped(m, n, w) && k < |m| && k < n
  {
    forall r :: 0 <= r < |m| ==> m[r].vec[k] == if r == k then f.one else f.zero
  }

  lemma NormalizedVanishes<T(!new)>(f: Field<T>, row: Row<T>, i: nat, v: seq<T>, u: seq<T>)
    requires Lawful(f) && i < |row.vec| == |v| && |row.load| == |u| && row.vec[i] != f.zero
    requires forall k :: 0 <= k < i ==> row.vec[k] == f.zero
    ensures Pair(f, Normalized(f, row, i), v, u) == f.zero <==> Pair(f, row, v, u) == f.zero
  {
    if row.vec[i] != f.one {
      var inv := f.Div(f.one, row.vec[i]);
      DivMul(f, f.one, row.vec[i]);
      MulZero(f, inv);
      assert Normalized(f, row, i).vec == Scaled(f, row.vec, inv);
      DotScaled(f, row.vec, inv, v, |v|);
      DotScaled(f, row.load, inv, u, |u|);
      Distribute(f, Dot(f, row.vec, v, |v|), Dot(f, row.load, u, |u|), inv);
      MulZero(f, row.vec[i]);
      NoZeroDivisors(f, inv, Pair(f, row, v, u));
    }
  }

  lemma ClearAboveVanishes<T(!new)>(f: Field<T>, m: seq<Row<T>>, i: nat, n: nat, w: nat, v: seq<T>, u: seq<T>)
    requires Lawful(f) && Shaped(m, n, w) && i < |m| && i < n && |v| == n && |u| == w
    requires UpperTriangular(f, m, n, w, i)
    ensures Vanishes(f, ClearAbove(f, m, i, n, w), n, w, v, u) <==> Vanishes(f, m, n, w, v, u)
  {
    var r := ClearAbove(f, m, i, n, w);
    assert r[i] == m[i];
    if Pair(f, m[i], v, u) == f.zero {
      forall j | 0 <= j < |m|
        ensures Pair(f, r[j], v, u) == Pair(f, m[j], v, u)
      {
        ClearedVanishes(f, m[j], m[i], i, v, u);
      }
    }
  }

  lemma BackwardStepVanishes<T(!new)>(f: Field<T>, m: seq<Row<T>>, i: nat, n: nat, w: nat, v: seq<T>, u: seq<T>)
    requires Lawful(f) && Shaped(m, n, w) && i < |m| && i < n && |v| == n && |u| == w
    requires UpperTriangular(f, m, n, w, i)
    ensures Vanishes(f, BackwardStep(f, m, i, n, w), n, w, v, u) <==> Vanishes(f, m, n, w, v, u)
  {
    if m[i].vec[i] != f.zero {
      var above := ClearAbove(f, m, i, n, w);
      var r := BackwardStep(f, m, i, n, w);
      ClearAboveVanishes(f, m, i, n, w, v, u);
      assert above[i] == m[i];
      NormalizedVanishes(f, above[i], i, v, u);
      assert forall j :: 0 <= j < |m| ==> r[j] == if j == i then Normalized(f, above[i], i) else above[j];
      assert Pair(f, r[i], v, u) == f.zero <==> Pair(f, above[i], v, u) == f.zero;
    }
  }

  /** How one backward step changes a cell of the coefficient matrix. */
  lemma BackwardStepCell<T(!new)>(f: Field<T>, m: seq<Row<T>>, i: nat, n: nat, w: nat, r: nat, c: nat)
    requires Lawful(f) && Shaped(m, n, w) && i < |m| && i < n && r < |m| && c < n
    requires m[i].vec[i] != f.zero
    ensures r > i || (r < i && (c < i || m[i].vec[c] == f.zero)) ==> BackwardStep(f, m, i, n, w)[r].vec[c] == m[r].vec[c]
    ensures r == i && c < i ==> BackwardStep(f, m, i, n, w)[r].vec[c] == m[r].vec[c]
    ensures r == i && m[r].vec[c] == f.zero ==> BackwardStep(f, m, i, n, w)[r].vec[c] == f.zero
    ensures r == i == c ==> BackwardStep(f, m, i, n, w)[r].vec[c] == f.one
    ensures r < i == c ==> BackwardStep(f, m, i, n, w)[r].vec[c] == f.zero
  {
    if r < i {
      if c < i || m[i].vec[c] == f.zero { ClearedKeeps(f, m[r], m[i], i, c); }
      ClearedCell(f, m[r], m[i], i);
    }
  }

  lemma BackwardStepReduced<T(!new)>(f: Field<T>, m: seq<Row<T>>, i: nat, n: nat, w: nat)
    requires Lawful(f) && Shaped(m, n, w) && i < Boundary(|m|, n) && Reduced(f, m, n, w, i + 1)
    ensures Reduced(f, BackwardStep(f, m, i, n, w), n, w, i)
  {
    if m[i].vec[i] != f.zero {
      var b := Boundary(|m|, n);
      var s := BackwardStep(f, m, i, n, w);
      forall r, c | 0 <= c < b && c < r < |m|
        ensures s[r].vec[c] == f.zero
      {
        BackwardStepCell(f, m, i, n, w, r, c);
      }
      forall k | i <= k < b && s[k].vec[k] != f.zero
        ensures UnitColumn(f, s, n, w, k)
      {
        if k > i {
          BackwardStepCell(f, m, i, n, w, k, k);
          assert UnitColumn(f, m, n, w, k);
        }
        forall r | 0 <= r < |m|
          ensures s[r].vec[k] == if r == k then f.one else f.zero
        {
          BackwardStepCell(f, m, i, n, w, r, k);
        }
      }
    }
  }

  lemma {:induction false} BackwardReduced<T(!new)>(f: Field<T>, m: seq<Row<T>>, i: nat, n: nat, w: nat)
    requires Lawful(f) && Shaped(m, n, w) && i <= Boundary(|m|, n)
    requires UpperTriangular(f, m, n, w, Boundary(|m|, n))
    ensures Reduced(f, Backward(f, m, i, n, w), n, w, i)
    decreases Boundary(|m|, n) - i
  {
    if i < Boundary(|m|, n) {
      BackwardReduced(f, m, i + 1, n, w);
      BackwardStepReduced(f, Backward(f, m, i + 1, n, w), i, n, w);
    }
  }

  lemma {:induction false} BackwardVanishes<T(!new)>(f: Field<T>, m: seq<Row<T>>, i: nat, n: nat, w: nat, v: seq<T>, u: seq<T>)
    requires Lawful(f) && Shaped(m, n, w) && i <= Boundary(|m|, n) && |v| == n && |u| == w
    requires UpperTriangular(f, m, n, w, Boundary(|m|, n))
    ensures Vanishes(f, Backward(f, m, i, n, w), n, w, v, u) <==> Vanishes(f, m, n, w, v, u)
    decreases Boundary(|m|, n) - i
  {
    if i < Boundary(|m|, n) {
      BackwardVanishes(f, m, i + 1, n, w, v, u);
      BackwardReduced(f, m, i + 1, n, w);
      BackwardStepVanishes(f, Backward(f, m, i + 1, n, w), i, n, w, v, u);
    }
  }

  // ---------- zero rows ----------

  lemma {:induction false} DropVanishes<T(!new)>(f: Field<T>, m: seq<Row<T>>, n: nat, w: nat, v: seq<T>, u: seq<T>)
    requires Lawful(f) && Shaped(m, n, w) && |v| == n && |u| == w
    ensures Vanishes(f, m, n, w, v, u) ==> Vanishes(f, DropZeroRows(f, m, n, w), n, w, v, u)
    ensures IsZero(f, u) && Vanishes(f, DropZeroRows(f, m, n, w), n, w, v, u) ==> Vanishes(f, m, n, w, v, u)
  {
    if m != [] {
      var kept := DropZeroRows(f, m[1..], n, w);
      DropVanishes(f, m[1..], n, w, v, u);
      assert m == [m[0]] + m[1..];
      if IsZero(f, m[0].vec) && IsZero(f, u) {
        DotZero(f, m[0].vec, v, n);
        DotZero(f, m[0].load, u, w);
        AddZero(f, f.zero);
      }
      if !IsZero(f, m[0].vec) {
        var all := [m[0]] + kept;
        assert all[1..] == kept && all[0] == m[0];
      }
    }
  }

  lemma {:induction false} DropNothing<T>(f: Field<T>, m: seq<Row<T>>, n: nat, w: nat)
    requires Shaped(m, n, w)
    ensures |DropZeroRows(f, m, n, w)| == |m| <==> forall i :: 0 <= i < |m| ==> !IsZero(f, m[i].vec)
    ensures |DropZeroRows(f, m, n, w)| == |m| ==> DropZeroRows(f, m, n, w) == m
  {
    if m != [] {
      DropNothing(f, m[1..], n, w);
      assert m == [m[0]] + m[1..];
    }
  }

  // ---------- the whole elimination ----------

  /** The coefficient part is the n by n identity. */
  ghost predicate IsIdentity<T>(f: Field<T>, m: seq<Row<T>>, n: nat) {
    |m| == n && forall i :: 0 <= i < n ==> |m[i].vec| == n && m[i].vec == Unit(f, n, i)
  }

  /** A reduced square matrix with a zero on its diagonal has a zero row: the last such row. */
  lemma {:induction false} ZeroDiagonalForcesZeroRow<T>(f: Field<T>, m: seq<Row<T>>, n: nat, w: nat, i: nat)
    requires Shaped(m, n, w) && |m| == n && Reduced(f, m, n, w, 0) && i < n && m[i].vec[i] == f.zero
    ensures exists r :: 0 <= r < n && IsZero(f, m[r].vec)
    decreases n - i
  {
    if k :| i < k < n && m[k].vec[k] == f.zero {
      ZeroDiagonalForcesZeroRow(f, m, n, w, k);
    } else {
      forall k | 0 <= k < n
        ensures m[i].vec[k] == f.zero
      {
        if k > i { assert UnitColumn(f, m, n, w, k); }
      }
      assert IsZero(f, m[i].vec);
    }
  }

  /** On a square matrix no row is dropped exactly when the coefficients became the identity. */
  lemma RrefSquare<T(!new)>(f: Field<T>, m: seq<Row<T>>, n: nat, w: nat)
    requires Lawful(f) && Shaped(m, n, w) && |m| == n
    ensures |Rref(f, m, n, w)| == n <==> IsIdentity(f, Rref(f, m, n, w), n)
  {
    var fwd := Forward(f, m, n, n, w);
    ForwardTriangle(f, m, n, n, w);
    BackwardReduced(f, fwd, 0, n, w);
    var b := Backward(f, fwd, 0, n, w);
    DropNothing(f, b, n, w);
    if |Rref(f, m, n, w)| == n {
      forall i | 0 <= i < n
        ensures UnitColumn(f, b, n, w, i)
      {
        if b[i].vec[i] == f.zero { ZeroDiagonalForcesZeroRow(f, b, n, w, i); }
      }
      forall i | 0 <= i < n
        ensures b[i].vec == Unit(f, n, i)
      {
        forall k | 0 <= k < n
          ensures b[i].vec[k] == Unit(f, n, i)[k]
        {
          assert UnitColumn(f, b, n, w, k);
        }
      }
    }
  }

  /** Whatever vanishes on the rows before the elimination vanishes after it, and the null space of
      the coding vectors stays exactly the same. */
  lemma RrefVanishes<T(!new)>(f: Field<T>, m: seq<Row<T>>, n: nat, w: nat, v: seq<T>, u: seq<T>)
    requires Lawful(f) && Shaped(m, n, w) && |v| == n && |u| == w
    ensures Vanishes(f, m, n, w, v, u) ==> Vanishes(f, Rref(f, m, n, w), n, w, v, u)
    ensures IsZero(f, u) && Vanishes(f, Rref(f, m, n, w), n, w, v, u) ==> Vanishes(f, m, n, w, v, u)
  {
    var b := Boundary(|m|, n);
    var fwd := Forward(f, m, b, n, w);
    ForwardVanishes(f, m, b, n, w, v, u);
    ForwardTriangle(f, m, b, n, w);
    BackwardVanishes(f, fwd, 0, n, w, v, u);
    DropVanishes(f, Backward(f, fwd, 0, n, w), n, w, v, u);
  }
}
