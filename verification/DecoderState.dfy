/** The decoder's matrices, eliminated in place. */
module DecoderMatrix {
  import opened Fields
  import opened LinearAlgebra
  import opened Elimination

  datatype PieceResult<T> = Piece(data: array<T>) | OutOfBound | NotDecodedYet

  /** Rows of equal shape that do not share storage. */
  ghost predicate Separate<T>(coeffs: seq<array<T>>, coded: seq<array<T>>, n: nat, w: nat) {
    && |coeffs| == |coded|
    && (forall i :: 0 <= i < |coeffs| ==> coeffs[i].Length == n && coded[i].Length == w)
    && (forall i, j :: 0 <= i < j < |coeffs| ==> coeffs[i] != coeffs[j] && coded[i] != coded[j])
    && (forall i, j :: 0 <= i < |coeffs| && 0 <= j < |coeffs| ==> coeffs[i] != coded[j])
  }

  ghost function Contents<T>(coeffs: seq<array<T>>, coded: seq<array<T>>): (m: seq<Row<T>>)
    requires |coeffs| == |coded|
    reads coeffs, coded
    ensures |m| == |coeffs|
    ensures forall i :: 0 <= i < |m| ==> m[i] == Row(coeffs[i][..], coded[i][..])
  {
    seq(|coeffs|, i requires 0 <= i < |coeffs| reads coeffs, coded => Row(coeffs[i][..], coded[i][..]))
  }

  /** Adds `q` times `src` to `dst` in place, from cell `from` on. */
  method AddRow<T>(f: Field<T>, dst: array<T>, src: array<T>, q: T, from: nat)
    requires dst != src && dst.Length == src.Length && from <= dst.Length
    modifies dst
    ensures dst[..] == AddScaled(f, old(dst[..]), src[..], q, from)
  {
    for k := from to dst.Length
      invariant forall c :: 0 <= c < dst.Length ==>
        dst[c] == if from <= c < k then f.Add(old(dst[c]), f.Mul(src[c], q)) else old(dst[c])
    {
      dst[k] := f.Add(dst[k], f.Mul(src[k], q));
    }
  }

  /** Writes a one at cell `i` and multiplies the nonzero cells to its right by `inv`. */
  method NormalizeVector<T(==)>(f: Field<T>, row: array<T>, i: nat, inv: T)
    requires i < row.Length
    modifies row
    ensures row[..] == NormalizedVec(f, old(row[..]), i, inv)
  {
    row[i] := f.one;
    for j := i + 1 to row.Length
      invariant row[i] == f.one
      invariant forall k :: 0 <= k < row.Length && k != i ==>
        row[k] == if i < k < j && old(row[k]) != f.zero then f.Mul(old(row[k]), inv) else old(row[k])
    {
      if row[j] != f.zero { row[j] := f.Mul(row[j], inv); }
    }
  }

  method ScaleRow<T>(f: Field<T>, row: array<T>, inv: T)
    modifies row
    ensures row[..] == Scaled(f, old(row[..]), inv)
  {
    for j := 0 to row.Length
      invariant forall k :: 0 <= k < row.Length ==> row[k] == if k < j then f.Mul(old(row[k]), inv) else old(row[k])
    {
      row[j] := f.Mul(row[j], inv);
    }
  }

  method AllZero<T(==)>(f: Field<T>, row: array<T>) returns (zero: bool)
    ensures zero == IsZero(f, row[..])
  {
    for j := 0 to row.Length
      invariant forall k :: 0 <= k < j ==> row[k] == f.zero
    {
      if row[j] != f.zero { return false; }
    }
    return true;
  }

  /** Scanning from row `i` on, removing each row whose coding vector is zero. */
  ghost function DropFrom<T>(f: Field<T>, m: seq<Row<T>>, i: nat): seq<Row<T>>
    requires i <= |m|
    decreases |m| - i
  {
    if i == |m| then m
    else if IsZero(f, m[i].vec) then DropFrom(f, m[..i] + m[i + 1..], i)
    else DropFrom(f, m, i + 1)
  }

  lemma {:induction false} DropFromIsDrop<T>(f: Field<T>, kept: seq<Row<T>>, rest: seq<Row<T>>, n: nat, w: nat)
    requires Shaped(rest, n, w)
    ensures DropFrom(f, kept + rest, |kept|) == kept + DropZeroRows(f, rest, n, w)
    decreases |rest|
  {
    var m := kept + rest;
    if rest != [] {
      assert m[|kept|] == rest[0];
      if IsZero(f, rest[0].vec) {
        DropFromIsDrop(f, kept, rest[1..], n, w);
        assert m[..|kept|] + m[|kept| + 1..] == kept + rest[1..];
      } else {
        DropFromIsDrop(f, kept + [rest[0]], rest[1..], n, w);
        assert (kept + [rest[0]]) + rest[1..] == m;
      }
    }
  }

  /** The test made on a row before the decoding is complete: a one at `idx` and no zero elsewhere. */
  ghost predicate PassesEarlyTest<T>(f: Field<T>, vec: seq<T>, idx: nat) {
    forall k :: 0 <= k < |vec| ==> if k == idx then vec[k] == f.one else vec[k] != f.zero
  }

  /** A row that already equals a unit vector, so that its payload is an original piece, fails the test
      whenever at least two pieces are coded together. */
  lemma RevealedPieceFailsEarlyTest<T>(f: Field<T>, n: nat, idx: nat)
    requires 2 <= n && idx < n
    ensures !PassesEarlyTest(f, Unit(f, n, idx), idx)
  {
    var k := if idx == 0 then 1 else 0;
    assert Unit(f, n, idx)[k] == f.zero;
  }

  class DecoderState<T(==,!new)> {
    const field: Field<T>
    const pieceCount: nat
    var coeffs: seq<array<T>>
    var coded: seq<array<T>>
    ghost var repr: set<array<T>>

    constructor (field: Field<T>, pieceCount: nat)
      ensures this.field == field && this.pieceCount == pieceCount && coeffs == [] && coded == [] && repr == {}
    {
      this.field := field;
      this.pieceCount := pieceCount;
      this.coeffs := [];
      this.coded := [];
      this.repr := {};
    }

    ghost predicate Valid(n: nat, w: nat)
      reads this
    {
      && Separate(coeffs, coded, n, w)
      && (forall i :: 0 <= i < |coeffs| ==> coeffs[i] in repr)
      && (forall i :: 0 <= i < |coded| ==> coded[i] in repr)
    }

    ghost function Rows(): (m: seq<Row<T>>)
      requires |coeffs| == |coded|
      reads this, coeffs, coded
      ensures |m| == |coeffs|
      ensures forall i :: 0 <= i < |m| ==> m[i] == Row(coeffs[i][..], coded[i][..])
    {
      Contents(coeffs, coded)
    }

    /** Clears column `i` of row `j` against row `i`, in both matrices. */
    method ClearRow(i: nat, j: nat, n: nat, w: nat)
      requires Valid(n, w) && i < |coeffs| && j < |coeffs| && i != j && i < n
      modifies coeffs[j], coded[j]
      ensures Rows() == old(Rows())[j := Cleared(field, old(Rows())[j], old(Rows())[i], i)]
    {
      if coeffs[j][i] != field.zero {
        var q := field.Div(coeffs[j][i], coeffs[i][i]);
        AddRow(field, coeffs[j], coeffs[i], q, i);
        AddRow(field, coded[j], coded[i], q, 0);
      }
    }

    /** The row to use as the pivot of column `i`, or the number of rows when there is none. */
    method PivotRow(i: nat, n: nat, w: nat) returns (pivot: nat)
      requires Valid(n, w) && i < |coeffs| && i < n
      ensures pivot == FindPivot(field, Rows(), i, i)
    {
      pivot := i;
      if coeffs[i][i] == field.zero {
        pivot := i + 1;
        while pivot < |coeffs| && coeffs[pivot][i] == field.zero
          invariant i < pivot <= |coeffs|
          invariant forall r :: i <= r < pivot ==> coeffs[r][i] == field.zero
        {
          pivot := pivot + 1;
        }
      }
    }

    method SwapRows(i: nat, j: nat, n: nat, w: nat)
      requires Valid(n, w) && i < |coeffs| && j < |coeffs|
      modifies this`coeffs, this`coded
      ensures Valid(n, w)
      ensures Rows() == Swapped(old(Rows()), i, j)
    {
      coeffs := coeffs[i := coeffs[j]][j := coeffs[i]];
      coded := coded[i := coded[j]][j := coded[i]];
    }

    method ClearRowsBelow(i: nat, n: nat, w: nat)
      requires Valid(n, w) && i < |coeffs| && i < n
      modifies repr
      ensures Rows() == ClearBelow(field, old(Rows()), i, n, w)
    {
      for j := i + 1 to |coeffs|
        invariant forall r :: 0 <= r < |coeffs| ==>
          Rows()[r] == if i < r < j then Cleared(field, old(Rows())[r], old(Rows())[i], i) else old(Rows())[r]
      {
        ClearRow(i, j, n, w);
      }
    }

    method ForwardColumn(i: nat, n: nat, w: nat)
      requires Valid(n, w) && i < |coeffs| && i < n
      modifies this`coeffs, this`coded, repr
      ensures Valid(n, w) && |coeffs| == old(|coeffs|)
      ensures Rows() == ForwardStep(field, old(Rows()), i, n, w)
    {
      var pivot := PivotRow(i, n, w);
      if pivot < |coeffs| {
        SwapRows(i, pivot, n, w);
        ClearRowsBelow(i, n, w);
      }
    }

    /** The next column of a forward pass that began with the rows `start`. */
    method ForwardNext(i: nat, n: nat, w: nat, ghost start: seq<Row<T>>)
      requires Valid(n, w) && Shaped(start, n, w) && |start| == |coeffs| && i < Boundary(|coeffs|, n)
      requires Rows() == Forward(field, start, i, n, w)
      modifies this`coeffs, this`coded, repr
      ensures Valid(n, w) && |coeffs| == old(|coeffs|)
      ensures Rows() == Forward(field, start, i + 1, n, w)
    {
      ForwardColumn(i, n, w);
      ForwardExtends(field, start, old(Rows()), Rows(), i + 1, n, w);
    }

    method CleanForward(n: nat, w: nat)
      requires Valid(n, w)
      modifies this`coeffs, this`coded, repr
      ensures Valid(n, w) && |coeffs| == old(|coeffs|)
      ensures Rows() == Forward(field, old(Rows()), Boundary(|coeffs|, n), n, w)
    {
      var boundary := Boundary(|coeffs|, n);
      for i := 0 to boundary
        invariant Valid(n, w) && |coeffs| == old(|coeffs|)
        invariant Rows() == Forward(field, old(Rows()), i, n, w)
      {
        ForwardNext(i, n, w, old(Rows()));
      }
    }

    method ClearRowsAbove(i: nat, n: nat, w: nat)
      requires Valid(n, w) && i < |coeffs| && i < n
      modifies repr
      ensures Rows() == ClearAbove(field, old(Rows()), i, n, w)
    {
      for j := 0 to i
        invariant forall r :: 0 <= r < |coeffs| ==>
          Rows()[r] == if r < j then Cleared(field, old(Rows())[r], old(Rows())[i], i) else old(Rows())[r]
      {
        ClearRow(i, j, n, w);
      }
    }

    /** Divides row `i` by its diagonal cell, writing the cells right of the diagonal and the payload. */
    method NormalizeRow(i: nat, n: nat, w: nat)
      requires Valid(n, w) && i < |coeffs| && i < n
      modifies coeffs[i], coded[i]
      ensures Rows() == old(Rows())[i := Normalized(field, old(Rows())[i], i)]
    {
      if coeffs[i][i] != field.one {
        var inv := field.Div(field.one, coeffs[i][i]);
        NormalizeVector(field, coeffs[i], i, inv);
        ScaleRow(field, coded[i], inv);
      }
    }

    method BackwardColumn(i: nat, n: nat, w: nat)
      requires Valid(n, w) && i < |coeffs| && i < n
      modifies repr
      ensures Rows() == BackwardStep(field, old(Rows()), i, n, w)
    {
      if coeffs[i][i] != field.zero {
        ClearRowsAbove(i, n, w);
        NormalizeRow(i, n, w);
      }
    }

    method CleanBackward(n: nat, w: nat)
      requires Valid(n, w)
      modifies repr
      ensures Rows() == Backward(field, old(Rows()), 0, n, w)
    {
      var boundary := Boundary(|coeffs|, n);
      for i := boundary downto 0
        invariant Rows() == Backward(field, old(Rows()), i, n, w)
      {
        BackwardColumn(i, n, w);
      }
    }

    /** Removes row `i` from both matrices. */
    method RemoveRow(i: nat, n: nat, w: nat)
      requires Valid(n, w) && i < |coeffs|
      modifies this`coeffs, this`coded
      ensures Valid(n, w) && |coeffs| == old(|coeffs|) - 1
      ensures Rows() == old(Rows())[..i] + old(Rows())[i + 1..]
    {
      coeffs := coeffs[..i] + coeffs[i + 1..];
      coded := coded[..i] + coded[i + 1..];
    }

    /** Looks at row `i`: removes it if its coding vector is zero, moves past it otherwise. */
    method RemoveIfZero(i: nat, n: nat, w: nat) returns (next: nat)
      requires Valid(n, w) && i < |coeffs|
      modifies this`coeffs, this`coded
      ensures Valid(n, w) && next <= |coeffs| && |coeffs| - next == old(|coeffs|) - i - 1
      ensures IsZero(field, old(Rows())[i].vec) ==> next == i && Rows() == old(Rows())[..i] + old(Rows())[i + 1..]
      ensures !IsZero(field, old(Rows())[i].vec) ==> next == i + 1 && Rows() == old(Rows())
    {
      var zero := AllZero(field, coeffs[i]);
      next := if zero then i else i + 1;
      if zero { RemoveRow(i, n, w); }
    }

    method RemoveZeroRows(n: nat, w: nat)
      requires Valid(n, w)
      modifies this`coeffs, this`coded
      ensures Valid(n, w)
      ensures Rows() == DropZeroRows(field, old(Rows()), n, w)
    {
      var i: nat := 0;
      while i < |coeffs|
        invariant Valid(n, w) && i <= |coeffs|
        invariant DropFrom(field, Rows(), i) == DropFrom(field, old(Rows()), 0)
        decreases |coeffs| - i
      {
        i := RemoveIfZero(i, n, w);
      }
      DropFromIsDrop(field, [], old(Rows()), n, w);
      assert [] + old(Rows()) == old(Rows());
    }

    method Rref(n: nat, w: nat)
      requires Valid(n, w)
      modifies this`coeffs, this`coded, repr
      ensures Valid(n, w)
      ensures Rows() == Elimination.Rref(field, old(Rows()), n, w)
    {
      CleanForward(n, w);
      CleanBackward(n, w);
      RemoveZeroRows(n, w);
    }

    function Rank(): nat
      reads this
    {
      |coeffs|
    }

    /** Stores the caller's arrays as a new last row. */
    method AddPiece(vector: array<T>, piece: array<T>, n: nat, w: nat)
      requires Valid(n, w) && vector.Length == n && piece.Length == w && vector != piece
      requires vector !in repr && piece !in repr
      modifies this
      ensures Valid(n, w) && repr == old(repr) + {vector, piece}
      ensures coeffs == old(coeffs) + [vector] && coded == old(coded) + [piece]
      ensures Rows() == old(Rows()) + [Row(vector[..], piece[..])]
    {
      coeffs := coeffs + [vector];
      coded := coded + [piece];
      repr := repr + {vector, piece};
    }

    /** Piece `idx`, if it can be read.  With all rows in place the stored array itself is handed out.
        Before that a copy is returned only if the test of the coding vector passes. */
    method GetPiece(idx: nat, ghost w: nat) returns (r: PieceResult<T>)
      requires Valid(pieceCount, w)
      ensures r.OutOfBound? <==> idx >= pieceCount
      ensures |coeffs| <= idx < pieceCount ==> r.NotDecodedYet?
      ensures idx < pieceCount <= |coeffs| ==> r == Piece(coded[idx])
      ensures idx < |coeffs| < pieceCount ==> (r.Piece? <==> PassesEarlyTest(field, coeffs[idx][..], idx))
      ensures idx < |coeffs| < pieceCount && r.Piece? ==> fresh(r.data) && r.data[..] == coded[idx][..]
    {
      if idx >= pieceCount { return OutOfBound; }
      if idx >= |coeffs| { return NotDecodedYet; }
      if Rank() >= pieceCount { return Piece(coded[idx]); }
      var row := coeffs[idx];
      for i := 0 to row.Length
        invariant forall k :: 0 <= k < i ==> if k == idx then row[k] == field.one else row[k] != field.zero
      {
        if i == idx {
          if row[i] != field.one { return NotDecodedYet; }
        } else if row[i] == field.zero {
          return NotDecodedYet;
        }
      }
      var src := coded[idx];
      var copied := new T[src.Length](i requires 0 <= i < src.Length reads src => src[i]);
      return Piece(copied);
    }
  }
}
