/** Vectors and linear systems over a field of characteristic two. */
module LinearAlgebra {
  import opened Fields

  /** The first `k` terms of the dot product. */
  function Dot<T>(f: Field<T>, a: seq<T>, b: seq<T>, k: nat): T
    requires k <= |a| && k <= |b|
  {
    if k == 0 then f.zero else f.Add(Dot(f, a, b, k - 1), f.Mul(a[k - 1], b[k - 1]))
  }

  /** `a + q * b` on the cells from `from` on; the other cells keep their value. */
  function AddScaled<T>(f: Field<T>, a: seq<T>, b: seq<T>, q: T, from: nat): (r: seq<T>)
    requires |a| == |b|
    ensures |r| == |a|
    ensures forall k :: 0 <= k < |r| ==> r[k] == if k < from then a[k] else f.Add(a[k], f.Mul(b[k], q))
  {
    seq(|a|, k requires 0 <= k < |a| => if k < from then a[k] else f.Add(a[k], f.Mul(b[k], q)))
  }

  function Scaled<T>(f: Field<T>, a: seq<T>, q: T): (r: seq<T>)
    ensures |r| == |a|
    ensures forall k :: 0 <= k < |r| ==> r[k] == f.Mul(a[k], q)
  {
    seq(|a|, k requires 0 <= k < |a| => f.Mul(a[k], q))
  }

  function Zeros<T>(f: Field<T>, n: nat): (r: seq<T>)
    ensures |r| == n && forall k :: 0 <= k < n ==> r[k] == f.zero
  {
    seq(n, k => f.zero)
  }

  function Unit<T>(f: Field<T>, n: nat, i: nat): (r: seq<T>)
    requires i < n
    ensures |r| == n && forall k :: 0 <= k < n ==> r[k] == if k == i then f.one else f.zero
  {
    Zeros(f, n)[i := f.one]
  }

  lemma {:induction false} DotCongruent<T>(f: Field<T>, a: seq<T>, b: seq<T>, c: seq<T>, d: seq<T>, k: nat)
    requires k <= |a| && k <= |b| && k <= |c| && k <= |d|
    requires forall i :: 0 <= i < k ==> a[i] == c[i] && b[i] == d[i]
    ensures Dot(f, a, b, k) == Dot(f, c, d, k)
  {
    if k > 0 { DotCongruent(f, a, b, c, d, k - 1); }
  }

  lemma {:induction false} DotZero<T(!new)>(f: Field<T>, a: seq<T>, b: seq<T>, k: nat)
    requires Lawful(f) && k <= |a| && k <= |b|
    requires forall i :: 0 <= i < k ==> a[i] == f.zero || b[i] == f.zero
    ensures Dot(f, a, b, k) == f.zero
  {
    if k > 0 {
      DotZero(f, a, b, k - 1);
      MulZero(f, a[k - 1]);
      MulZero(f, b[k - 1]);
      AddZero(f, f.zero);
    }
  }

  /** Only position `i` contributes when every other term has a zero factor. */
  lemma {:induction false} DotSingle<T(!new)>(f: Field<T>, a: seq<T>, b: seq<T>, k: nat, i: nat)
    requires Lawful(f) && i < k <= |a| && k <= |b|
    requires forall j :: 0 <= j < k && j != i ==> a[j] == f.zero || b[j] == f.zero
    ensures Dot(f, a, b, k) == f.Mul(a[i], b[i])
  {
    if i == k - 1 {
      DotZero(f, a, b, k - 1);
      AddZero(f, f.Mul(a[i], b[i]));
    } else {
      DotSingle(f, a, b, k - 1, i);
      MulZero(f, a[k - 1]);
      MulZero(f, b[k - 1]);
      AddZero(f, f.Mul(a[i], b[i]));
    }
  }

  lemma {:induction false} DotComm<T(!new)>(f: Field<T>, a: seq<T>, b: seq<T>, k: nat)
    requires Lawful(f) && k <= |a| && k <= |b|
    ensures Dot(f, a, b, k) == Dot(f, b, a, k)
  {
    if k > 0 {
      DotComm(f, a, b, k - 1);
      MulComm(f, a[k - 1], b[k - 1]);
    }
  }

  /** The dot product is linear in its first argument. */
  lemma {:induction false} DotAddScaled<T(!new)>(f: Field<T>, a: seq<T>, b: seq<T>, q: T, v: seq<T>, k: nat)
    requires Lawful(f) && |a| == |b| && k <= |a| && k <= |v|
    ensures Dot(f, AddScaled(f, a, b, q, 0), v, k) == f.Add(Dot(f, a, v, k), f.Mul(q, Dot(f, b, v, k)))
  {
    if k == 0 {
      MulZero(f, q);
      AddZero(f, f.zero);
    } else {
      var x, y, z := a[k - 1], b[k - 1], v[k - 1];
      var da, db := Dot(f, a, v, k - 1), Dot(f, b, v, k - 1);
      DotAddScaled(f, a, b, q, v, k - 1);
      // (x + y q) z == x z + q (y z)
      Distribute(f, x, f.Mul(y, q), z);
      MulComm(f, y, q);
      MulAssoc(f, q, y, z);
      AddSwap(f, da, f.Mul(q, db), f.Mul(x, z), f.Mul(q, f.Mul(y, z)));
      Distribute(f, db, f.Mul(y, z), q);
    }
  }

  lemma {:induction false} DotScaled<T(!new)>(f: Field<T>, a: seq<T>, q: T, v: seq<T>, k: nat)
    requires Lawful(f) && k <= |a| && k <= |v|
    ensures Dot(f, Scaled(f, a, q), v, k) == f.Mul(q, Dot(f, a, v, k))
  {
    if k == 0 {
      MulZero(f, q);
    } else {
      DotScaled(f, a, q, v, k - 1);
      MulComm(f, a[k - 1], q);
      MulAssoc(f, q, a[k - 1], v[k - 1]);
      Distribute(f, Dot(f, a, v, k - 1), f.Mul(a[k - 1], v[k - 1]), q);
    }
  }

  /** Cells before `from` may be skipped when the added vector is zero there. */
  lemma AddScaledFrom<T(!new)>(f: Field<T>, a: seq<T>, b: seq<T>, q: T, from: nat)
    requires Lawful(f) && |a| == |b|
    requires forall k :: 0 <= k < from && k < |b| ==> b[k] == f.zero
    ensures AddScaled(f, a, b, q, from) == AddScaled(f, a, b, q, 0)
  {
    forall k | 0 <= k < |a| && k < from
      ensures f.Add(a[k], f.Mul(b[k], q)) == a[k]
    {
      MulZero(f, q);
      AddZero(f, a[k]);
    }
  }

  ghost predicate Annihilates<T>(f: Field<T>, rows: seq<seq<T>>, n: nat, v: seq<T>)
    requires |v| == n && forall r :: r in rows ==> |r| == n
  {
    forall i :: 0 <= i < |rows| ==> Dot(f, rows[i], v, n) == f.zero
  }

  ghost predicate NonZero<T>(f: Field<T>, v: seq<T>) {
    exists i :: 0 <= i < |v| && v[i] != f.zero
  }

  /** A homogeneous system with fewer equations than unknowns has a nonzero solution. */
  lemma {:induction false} Underdetermined<T(!new)>(f: Field<T>, rows: seq<seq<T>>, n: nat) returns (v: seq<T>)
    requires Lawful(f) && |rows| < n && forall r :: r in rows ==> |r| == n
    ensures |v| == n && NonZero(f, v) && Annihilates(f, rows, n, v)
    decreases |rows|
  {
    var last := n - 1;
    if p :| 0 <= p < |rows| && rows[p][last] != f.zero {
      var rest := ClearLast(f, rows, n, p);
      var short := seq(|rest|, i requires 0 <= i < |rest| => rest[i][..last]);
      var w := Underdetermined(f, short, last);
      var x := f.Div(Dot(f, rows[p], w, last), rows[p][last]);
      v := w + [x];
      var nz :| 0 <= nz < |w| && w[nz] != f.zero;
      assert v[nz] != f.zero;
      DotCongruent(f, rows[p], v, rows[p], w, last);
      DivMul(f, Dot(f, rows[p], w, last), rows[p][last]);
      AddSelf(f, Dot(f, rows[p], w, last));
      assert Dot(f, rows[p], v, n) == f.zero;
      forall i | 0 <= i < |rows|
        ensures Dot(f, rows[i], v, n) == f.zero
      {
        if i != p {
          var j := if i < p then i else i - 1;
          assert Dot(f, short[j], w, last) == f.zero;
          ClearedRowAnnihilated(f, rows[i], rows[p], rest[j], v, n);
        }
      }
    } else {
      v := Unit(f, n, last);
      assert v[last] != f.zero;
      forall i | 0 <= i < |rows|
        ensures Dot(f, rows[i], v, n) == f.zero
      {
        assert rows[i][last] == f.zero;
        DotZero(f, rows[i], v, n);
      }
    }
  }

  function ClearedRow<T>(f: Field<T>, row: seq<T>, pivot: seq<T>, n: nat): (r: seq<T>)
    requires |row| == |pivot| == n && n > 0
    ensures |r| == n
  {
    AddScaled(f, row, pivot, f.Div(row[n - 1], pivot[n - 1]), 0)
  }

  function Skip(i: nat, p: nat): nat {
    if i < p then i else i + 1
  }

  /** Every row but `p`, with the last column cleared against row `p`. */
  function ClearLast<T>(f: Field<T>, rows: seq<seq<T>>, n: nat, p: nat): (r: seq<seq<T>>)
    requires n > 0 && p < |rows| && forall r :: r in rows ==> |r| == n
    ensures |r| == |rows| - 1
    ensures forall i :: 0 <= i < |r| ==> r[i] == ClearedRow(f, rows[Skip(i, p)], rows[p], n)
  {
    seq(|rows| - 1, i requires 0 <= i < |rows| - 1 => ClearedRow(f, rows[Skip(i, p)], rows[p], n))
  }

  lemma ClearedRowAnnihilated<T(!new)>(f: Field<T>, row: seq<T>, pivot: seq<T>, cleared: seq<T>, v: seq<T>, n: nat)
    requires Lawful(f) && n > 0 && |row| == |pivot| == |v| == n
    requires pivot[n - 1] != f.zero && cleared == ClearedRow(f, row, pivot, n)
    requires Dot(f, pivot, v, n) == f.zero
    requires Dot(f, cleared[..n - 1], v[..n - 1], n - 1) == f.zero
    ensures Dot(f, row, v, n) == f.zero
  {
    var q := f.Div(row[n - 1], pivot[n - 1]);
    DotCongruent(f, cleared[..n - 1], v[..n - 1], cleared, v, n - 1);
    // the last cell of the cleared row is zero, so its dot product is that of the short prefix
    DivMul(f, row[n - 1], pivot[n - 1]);
    AddSelf(f, row[n - 1]);
    MulZero(f, v[n - 1]);
    AddZero(f, f.zero);
    assert Dot(f, cleared, v, n) == f.zero;
    DotAddScaled(f, row, pivot, q, v, n);
    MulZero(f, q);
    AddZero(f, Dot(f, row, v, n));
  }
}
