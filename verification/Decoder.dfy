/** The full RLNC decoder: a run of AddPiece calls, when it reports success, and what it then returns. */
module Decoding {
  import opened Fields
  import opened LinearAlgebra
  import opened Elimination

  /** The decoder's counters and matrix as values. */
  datatype Dec<!T> = Dec(expected: nat, useful: nat, received: nat, rows: seq<Row<T>>)

  predicate Decoded<T>(d: Dec<T>) {
    d.useful >= d.expected
  }

  function Initial<T>(n: nat): Dec<T> {
    Dec(n, 0, 0, [])
  }

  /** One AddPiece call.  The first piece ever received is counted without an elimination. */
  function Receive<T(==)>(f: Field<T>, d: Dec<T>, piece: Row<T>, w: nat): (r: Dec<T>)
    requires Shaped(d.rows, d.expected, w) && |piece.vec| == d.expected && |piece.load| == w
    ensures r.expected == d.expected && Shaped(r.rows, r.expected, w)
  {
    var rows := d.rows + [piece];
    if Decoded(d) then d
    else if d.received == 0 then Dec(d.expected, d.useful + 1, 1, rows)
    else
      var reduced := Rref(f, rows, d.expected, w);
      Dec(d.expected, |reduced|, d.received + 1, reduced)
  }

  /** The decoder after the given pieces have been handed to AddPiece, in order. */
  function Run<T(==)>(f: Field<T>, n: nat, w: nat, pieces: seq<Row<T>>): (r: Dec<T>)
    requires Shaped(pieces, n, w)
    ensures r.expected == n && Shaped(r.rows, n, w)
  {
    if pieces == [] then Initial(n)
    else Receive(f, Run(f, n, w, pieces[..|pieces| - 1]), pieces[|pieces| - 1], w)
  }

  /** Facts every decoder state satisfies. */
  ghost predicate WellFormed<T>(f: Field<T>, d: Dec<T>, w: nat) {
    && Shaped(d.rows, d.expected, w)
    && d.useful == |d.rows| <= d.expected
    && (d.received == 0 ==> d.rows == [])
    && (d.expected != 1 && Decoded(d) ==> IsIdentity(f, d.rows, d.expected))
  }

  lemma ReceiveWellFormed<T(!new)>(f: Field<T>, d: Dec<T>, piece: Row<T>, w: nat)
    requires Lawful(f) && WellFormed(f, d, w) && |piece.vec| == d.expected && |piece.load| == w
    ensures WellFormed(f, Receive(f, d, piece, w), w)
  {
    if !Decoded(d) && d.received > 0 && |d.rows| + 1 == d.expected {
      RrefSquare(f, d.rows + [piece], d.expected, w);
    }
  }

  lemma {:induction false} RunWellFormed<T(!new)>(f: Field<T>, n: nat, w: nat, pieces: seq<Row<T>>)
    requires Lawful(f) && Shaped(pieces, n, w)
    ensures WellFormed(f, Run(f, n, w, pieces), w)
  {
    if pieces != [] {
      var front := pieces[..|pieces| - 1];
      RunWellFormed(f, n, w, front);
      ReceiveWellFormed(f, Run(f, n, w, front), pieces[|pieces| - 1], w);
    }
  }

  // ---------- the received pieces as a linear system ----------

  ghost predicate InNullSpace<T>(f: Field<T>, pieces: seq<Row<T>>, n: nat, w: nat, v: seq<T>)
    requires Shaped(pieces, n, w) && |v| == n
  {
    forall i :: 0 <= i < |pieces| ==> Dot(f, pieces[i].vec, v, n) == f.zero
  }

  /** The received coding vectors determine the originals: only zero is orthogonal to all of them. */
  ghost predicate Determined<T(!new)>(f: Field<T>, pieces: seq<Row<T>>, n: nat, w: nat)
    requires Shaped(pieces, n, w)
  {
    forall v :: |v| == n && InNullSpace(f, pieces, n, w, v) ==> IsZero(f, v)
  }

  lemma NullSpaceVanishes<T(!new)>(f: Field<T>, m: seq<Row<T>>, n: nat, w: nat, v: seq<T>)
    requires Lawful(f) && Shaped(m, n, w) && |v| == n
    ensures InNullSpace(f, m, n, w, v) <==> Vanishes(f, m, n, w, v, Zeros(f, w))
  {
    forall i | 0 <= i < |m|
      ensures Pair(f, m[i], v, Zeros(f, w)) == Dot(f, m[i].vec, v, n)
    {
      DotZero(f, m[i].load, Zeros(f, w), w);
      AddZero(f, Dot(f, m[i].vec, v, n));
    }
  }

  lemma VanishesSnoc<T>(f: Field<T>, m: seq<Row<T>>, row: Row<T>, n: nat, w: nat, v: seq<T>, u: seq<T>)
    requires Shaped(m, n, w) && |row.vec| == n && |row.load| == w && |v| == n && |u| == w
    ensures Vanishes(f, m + [row], n, w, v, u) <==> Vanishes(f, m, n, w, v, u) && Pair(f, row, v, u) == f.zero
  {
    var all := m + [row];
    assert all[|m|] == row && forall i :: 0 <= i < |m| ==> all[i] == m[i];
  }

  /** Every linear relation the received pieces satisfy holds of the decoder's rows. */
  lemma {:induction false} RunKeepsRelations<T(!new)>(f: Field<T>, n: nat, w: nat, pieces: seq<Row<T>>, v: seq<T>, u: seq<T>)
    requires Lawful(f) && Shaped(pieces, n, w) && |v| == n && |u| == w
    ensures Vanishes(f, pieces, n, w, v, u) ==> Vanishes(f, Run(f, n, w, pieces).rows, n, w, v, u)
  {
    if pieces != [] {
      var front, last := pieces[..|pieces| - 1], pieces[|pieces| - 1];
      assert front + [last] == pieces;
      var d := Run(f, n, w, front);
      RunKeepsRelations(f, n, w, front, v, u);
      VanishesSnoc(f, front, last, n, w, v, u);
      VanishesSnoc(f, d.rows, last, n, w, v, u);
      RrefVanishes(f, d.rows + [last], n, w, v, u);
    }
  }

  /** The decoder loses nothing: a vector orthogonal to its rows is orthogonal to all received vectors. */
  lemma {:induction false} RunKeepsNullSpace<T(!new)>(f: Field<T>, n: nat, w: nat, pieces: seq<Row<T>>, v: seq<T>)
    requires Lawful(f) && Shaped(pieces, n, w) && |v| == n && n != 1
    requires Vanishes(f, Run(f, n, w, pieces).rows, n, w, v, Zeros(f, w))
    ensures Vanishes(f, pieces, n, w, v, Zeros(f, w))
  {
    if pieces != [] {
      var front, last := pieces[..|pieces| - 1], pieces[|pieces| - 1];
      assert front + [last] == pieces;
      var d := Run(f, n, w, front);
      var u := Zeros(f, w);
      VanishesSnoc(f, front, last, n, w, v, u);
      if Decoded(d) {
        RunWellFormed(f, n, w, front);
        IdentityHasTrivialNullSpace(f, d.rows, n, w, v);
        DotZero(f, last.vec, v, n);
        DotZero(f, last.load, u, w);
        AddZero(f, f.zero);
      } else {
        RrefVanishes(f, d.rows + [last], n, w, v, u);
        VanishesSnoc(f, d.rows, last, n, w, v, u);
      }
      RunKeepsNullSpace(f, n, w, front, v);
    }
  }

  lemma DotUnit<T(!new)>(f: Field<T>, n: nat, i: nat, v: seq<T>)
    requires Lawful(f) && |v| == n && i < n
    ensures Dot(f, Unit(f, n, i), v, n) == v[i]
    ensures Dot(f, v, Unit(f, n, i), n) == v[i]
  {
    DotSingle(f, Unit(f, n, i), v, n, i);
    DotSingle(f, v, Unit(f, n, i), n, i);
    MulOne(f, v[i]);
  }

  lemma IdentityHasTrivialNullSpace<T(!new)>(f: Field<T>, m: seq<Row<T>>, n: nat, w: nat, v: seq<T>)
    requires Lawful(f) && Shaped(m, n, w) && IsIdentity(f, m, n) && |v| == n
    requires Vanishes(f, m, n, w, v, Zeros(f, w))
    ensures IsZero(f, v)
  {
    NullSpaceVanishes(f, m, n, w, v);
    forall i | 0 <= i < n
      ensures v[i] == f.zero
    {
      DotUnit(f, n, i, v);
    }
  }

  function Vectors<T>(m: seq<Row<T>>): (r: seq<seq<T>>)
    ensures |r| == |m| && forall i :: 0 <= i < |m| ==> r[i] == m[i].vec
  {
    seq(|m|, i requires 0 <= i < |m| => m[i].vec)
  }

  /** While fewer than n rows survive, some nonzero vector is orthogonal to everything received. */
  lemma UndecodedNullVector<T(!new)>(f: Field<T>, n: nat, w: nat, pieces: seq<Row<T>>) returns (v: seq<T>)
    requires Lawful(f) && Shaped(pieces, n, w) && n != 1 && !Decoded(Run(f, n, w, pieces))
    ensures |v| == n && NonZero(f, v) && InNullSpace(f, pieces, n, w, v)
  {
    var d := Run(f, n, w, pieces);
    RunWellFormed(f, n, w, pieces);
    var rows := Vectors(d.rows);
    v := Underdetermined(f, rows, n);
    assert InNullSpace(f, d.rows, n, w, v) by {
      assert forall i :: 0 <= i < |d.rows| ==> Dot(f, rows[i], v, n) == f.zero;
    }
    NullSpaceVanishes(f, d.rows, n, w, v);
    RunKeepsNullSpace(f, n, w, pieces, v);
    NullSpaceVanishes(f, pieces, n, w, v);
  }

  /** Decoder optimality: after any run of AddPiece calls the decoder reports success exactly when the
      coding vectors it was given determine the originals. */
  lemma DecodedIffDetermined<T(!new)>(f: Field<T>, n: nat, w: nat, pieces: seq<Row<T>>)
    requires Lawful(f) && Shaped(pieces, n, w) && n != 1
    ensures Decoded(Run(f, n, w, pieces)) <==> Determined(f, pieces, n, w)
  {
    var d := Run(f, n, w, pieces);
    if Decoded(d) {
      RunWellFormed(f, n, w, pieces);
      forall v | |v| == n && InNullSpace(f, pieces, n, w, v)
        ensures IsZero(f, v)
      {
        NullSpaceVanishes(f, pieces, n, w, v);
        RunKeepsRelations(f, n, w, pieces, v, Zeros(f, w));
        IdentityHasTrivialNullSpace(f, d.rows, n, w, v);
      }
    } else {
      var v := UndecodedNullVector(f, n, w, pieces);
    }
  }

  // ---------- originals ----------

  ghost predicate Originals<T>(originals: seq<seq<T>>, n: nat, w: nat) {
    |originals| == n && forall i :: 0 <= i < n ==> |originals[i]| == w
  }

  function Column<T>(originals: seq<seq<T>>, x: nat): (r: seq<T>)
    requires forall i :: 0 <= i < |originals| ==> x < |originals[i]|
    ensures |r| == |originals| && forall i :: 0 <= i < |r| ==> r[i] == originals[i][x]
  {
    seq(|originals|, i requires 0 <= i < |originals| => originals[i][x])
  }

  /** The payload is the combination of the originals that the coding vector describes. */
  ghost predicate Codes<T>(f: Field<T>, piece: Row<T>, originals: seq<seq<T>>, n: nat, w: nat)
    requires Originals(originals, n, w) && |piece.vec| == n && |piece.load| == w
  {
    forall x :: 0 <= x < w ==> piece.load[x] == Dot(f, piece.vec, Column(originals, x), n)
  }

  ghost predicate AllCode<T>(f: Field<T>, pieces: seq<Row<T>>, originals: seq<seq<T>>, n: nat, w: nat)
    requires Originals(originals, n, w) && Shaped(pieces, n, w)
  {
    forall i :: 0 <= i < |pieces| ==> Codes(f, pieces[i], originals, n, w)
  }

  function Loads<T>(m: seq<Row<T>>): (r: seq<seq<T>>)
    ensures |r| == |m| && forall i :: 0 <= i < |m| ==> r[i] == m[i].load
  {
    seq(|m|, i requires 0 <= i < |m| => m[i].load)
  }

  lemma CodesVanishes<T(!new)>(f: Field<T>, pieces: seq<Row<T>>, originals: seq<seq<T>>, n: nat, w: nat, x: nat)
    requires Lawful(f) && Originals(originals, n, w) && Shaped(pieces, n, w) && x < w
    requires AllCode(f, pieces, originals, n, w)
    ensures Vanishes(f, pieces, n, w, Column(originals, x), Unit(f, w, x))
  {
    forall i | 0 <= i < |pieces|
      ensures Pair(f, pieces[i], Column(originals, x), Unit(f, w, x)) == f.zero
    {
      assert Codes(f, pieces[i], originals, n, w);
      DotUnit(f, w, x, pieces[i].load);
      AddSelf(f, pieces[i].load[x]);
    }
  }

  lemma IdentityRowLoad<T(!new)>(f: Field<T>, m: seq<Row<T>>, originals: seq<seq<T>>, n: nat, w: nat, i: nat, x: nat)
    requires Lawful(f) && Originals(originals, n, w) && Shaped(m, n, w) && IsIdentity(f, m, n) && i < n && x < w
    requires Vanishes(f, m, n, w, Column(originals, x), Unit(f, w, x))
    ensures m[i].load[x] == originals[i][x]
  {
    assert Pair(f, m[i], Column(originals, x), Unit(f, w, x)) == f.zero;
    DotUnit(f, n, i, Column(originals, x));
    DotUnit(f, w, x, m[i].load);
    AddIsZero(f, originals[i][x], m[i].load[x]);
  }

  /** Decoding inverts encoding: if every piece is what its vector says of the originals, a decoder
      that reports success holds exactly the originals, in order, whatever was received and when. */
  lemma DecodedPiecesAreOriginals<T(!new)>(f: Field<T>, n: nat, w: nat, pieces: seq<Row<T>>, originals: seq<seq<T>>)
    requires Lawful(f) && Shaped(pieces, n, w) && n != 1 && Originals(originals, n, w)
    requires AllCode(f, pieces, originals, n, w) && Decoded(Run(f, n, w, pieces))
    ensures Loads(Run(f, n, w, pieces).rows) == originals
  {
    var d := Run(f, n, w, pieces);
    RunWellFormed(f, n, w, pieces);
    forall i | 0 <= i < n
      ensures d.rows[i].load == originals[i]
    {
      forall x | 0 <= x < w
        ensures d.rows[i].load[x] == originals[i][x]
      {
        CodesVanishes(f, pieces, originals, n, w, x);
        RunKeepsRelations(f, n, w, pieces, Column(originals, x), Unit(f, w, x));
        IdentityRowLoad(f, d.rows, originals, n, w, i, x);
      }
    }
  }

  /** The originals with `v` added to their first column. */
  function Shifted<T>(f: Field<T>, originals: seq<seq<T>>, v: seq<T>): (r: seq<seq<T>>)
    requires |originals| == |v| && forall i :: 0 <= i < |originals| ==> |originals[i]| > 0
    ensures |r| == |originals|
    ensures forall i :: 0 <= i < |r| ==> r[i] == originals[i][0 := f.Add(originals[i][0], v[i])]
  {
    seq(|originals|, i requires 0 <= i < |originals| => originals[i][0 := f.Add(originals[i][0], v[i])])
  }

  lemma ShiftedCodes<T(!new)>(f: Field<T>, piece: Row<T>, originals: seq<seq<T>>, v: seq<T>, n: nat, w: nat)
    requires Lawful(f) && Originals(originals, n, w) && w > 0 && |v| == n
    requires |piece.vec| == n && |piece.load| == w && Codes(f, piece, originals, n, w)
    requires Dot(f, piece.vec, v, n) == f.zero
    ensures Codes(f, piece, Shifted(f, originals, v), n, w)
  {
    var other := Shifted(f, originals, v);
    forall x | 0 <= x < w
      ensures piece.load[x] == Dot(f, piece.vec, Column(other, x), n)
    {
      var col, moved := Column(originals, x), Column(other, x);
      if x == 0 {
        assert moved == AddScaled(f, col, v, f.one, 0) by {
          forall k | 0 <= k < n ensures moved[k] == AddScaled(f, col, v, f.one, 0)[k] { MulOne(f, v[k]); }
        }
        DotComm(f, piece.vec, moved, n);
        DotAddScaled(f, col, v, f.one, piece.vec, n);
        DotComm(f, v, piece.vec, n);
        DotComm(f, col, piece.vec, n);
        MulZero(f, f.one);
        AddZero(f, piece.load[x]);
      } else {
        assert moved == col;
      }
    }
  }

  /** While the decoder does not report success, some other originals explain everything received
      just as well, so no decoder could have answered. */
  lemma UndecodedIsAmbiguous<T(!new)>(f: Field<T>, n: nat, w: nat, pieces: seq<Row<T>>, originals: seq<seq<T>>)
    returns (other: seq<seq<T>>)
    requires Lawful(f) && Shaped(pieces, n, w) && n != 1 && w > 0 && Originals(originals, n, w)
    requires AllCode(f, pieces, originals, n, w) && !Decoded(Run(f, n, w, pieces))
    ensures other != originals && Originals(other, n, w) && AllCode(f, pieces, other, n, w)
  {
    var v := UndecodedNullVector(f, n, w, pieces);
    other := Shifted(f, originals, v);
    var i :| 0 <= i < n && v[i] != f.zero;
    AddTwice(f, v[i], originals[i][0]);
    AddComm(f, v[i], originals[i][0]);
    AddSelf(f, originals[i][0]);
    assert other[i][0] != originals[i][0];
    forall j | 0 <= j < |pieces|
      ensures Codes(f, pieces[j], other, n, w)
    {
      assert Codes(f, pieces[j], originals, n, w);
      ShiftedCodes(f, pieces[j], originals, v, n, w);
    }
  }

  // ---------- one piece only ----------

  /** With a single expected piece the first arrival ends the run without an elimination, so the answer
      is right for every original exactly when the coefficient received is one. */
  lemma SinglePieceNeedsUnitCoefficient<T(!new)>(f: Field<T>, c: T, w: nat)
    requires Lawful(f) && w > 0
    ensures Decoded(Run(f, 1, w, [Row([c], Zeros(f, w))]))
    ensures (forall x: seq<T> :: |x| == w ==> Loads(Run(f, 1, w, [Row([c], Scaled(f, x, c))]).rows) == [x]) <==> c == f.one
  {
    forall load: seq<T> | |load| == w
      ensures Run(f, 1, w, [Row([c], load)]) == Dec(1, 1, 1, [Row([c], load)])
    {
      var ps := [Row([c], load)];
      assert ps[..0] == [] && Run(f, 1, w, ps[..0]) == Initial(1);
    }
    var ones := seq(w, _ => f.one);
    assert Scaled(f, ones, c)[0] == c by { MulOne(f, c); }
    assert Loads(Run(f, 1, w, [Row([c], Scaled(f, ones, c))]).rows)[0] == Scaled(f, ones, c);
    if c == f.one {
      forall x: seq<T> | |x| == w
        ensures Loads(Run(f, 1, w, [Row([c], Scaled(f, x, c))]).rows) == [x]
      {
        assert Scaled(f, x, c) == x by { forall k | 0 <= k < w ensures Scaled(f, x, c)[k] == x[k] { MulOne(f, x[k]); } }
      }
    }
  }

  lemma {:induction false} SinglePieceDecoded<T>(f: Field<T>, w: nat, pieces: seq<Row<T>>)
    requires Shaped(pieces, 1, w)
    ensures Decoded(Run(f, 1, w, pieces)) <==> pieces != []
    ensures Run(f, 1, w, pieces).received == if pieces == [] then 0 else 1
  {
    if pieces != [] { SinglePieceDecoded(f, w, pieces[..|pieces| - 1]); }
  }

  /** With a single expected piece, success and determinacy agree exactly when nothing has been received
      or some received coefficient is not zero. */
  lemma SinglePieceDetermined<T(!new)>(f: Field<T>, w: nat, pieces: seq<Row<T>>)
    requires Lawful(f) && Shaped(pieces, 1, w)
    ensures (Decoded(Run(f, 1, w, pieces)) <==> Determined(f, pieces, 1, w))
      <==> (pieces == [] || exists i :: 0 <= i < |pieces| && pieces[i].vec[0] != f.zero)
  {
    SinglePieceDecoded(f, w, pieces);
    forall v: seq<T>, i | |v| == 1 && 0 <= i < |pieces|
      ensures Dot(f, pieces[i].vec, v, 1) == f.Mul(pieces[i].vec[0], v[0])
    {
      AddZero(f, f.Mul(pieces[i].vec[0], v[0]));
      assert Dot(f, pieces[i].vec, v, 0) == f.zero;
    }
    if i :| 0 <= i < |pieces| && pieces[i].vec[0] != f.zero {
      forall v | |v| == 1 && InNullSpace(f, pieces, 1, w, v)
        ensures IsZero(f, v)
      {
        assert Dot(f, pieces[i].vec, v, 1) == f.zero;
        NoZeroDivisors(f, pieces[i].vec[0], v[0]);
      }
    } else {
      MulZero(f, f.one);
      var v := [f.one];
      assert InNullSpace(f, pieces, 1, w, v) && v[0] != f.zero;
    }
  }
}
