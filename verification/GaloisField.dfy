/** A field with 256 elements: three quadratic extensions of the two-element field.

    Each extension adjoins a root y of y * y + y + c, where no element t of the base field has t * t + t == c.
    A pair (a, b) stands for a + b * y. */
module GaloisField {
  import opened Fields

  // ---------- pairs as vectors over the base field ----------

  function Plus<T>(f: Field<T>, u: (T, T), v: (T, T)): (T, T) { (f.Add(u.0, v.0), f.Add(u.1, v.1)) }

  function Times<T>(f: Field<T>, s: T, v: (T, T)): (T, T) { (f.Mul(s, v.0), f.Mul(s, v.1)) }

  /** Multiplication by y. */
  function Y<T>(f: Field<T>, c: T, v: (T, T)): (T, T) { (f.Mul(c, v.1), f.Add(v.0, v.1)) }

  lemma PlusSwap<T(!new)>(f: Field<T>, a: (T, T), b: (T, T), c: (T, T), d: (T, T))
    requires Lawful(f)
    ensures Plus(f, Plus(f, a, b), Plus(f, c, d)) == Plus(f, Plus(f, a, c), Plus(f, b, d))
  {
    AddSwap(f, a.0, b.0, c.0, d.0);
    AddSwap(f, a.1, b.1, c.1, d.1);
  }

  lemma TimesPlus<T(!new)>(f: Field<T>, s: T, u: (T, T), v: (T, T))
    requires Lawful(f)
    ensures Times(f, s, Plus(f, u, v)) == Plus(f, Times(f, s, u), Times(f, s, v))
  {
    Distribute(f, u.0, v.0, s);
    Distribute(f, u.1, v.1, s);
  }

  lemma PlusTimes<T(!new)>(f: Field<T>, s: T, t: T, v: (T, T))
    requires Lawful(f)
    ensures Times(f, f.Add(s, t), v) == Plus(f, Times(f, s, v), Times(f, t, v))
  {
    Distribute(f, s, t, v.0);
    Distribute(f, s, t, v.1);
  }

  lemma TimesTimes<T(!new)>(f: Field<T>, s: T, t: T, v: (T, T))
    requires Lawful(f)
    ensures Times(f, f.Mul(s, t), v) == Times(f, s, Times(f, t, v))
  {
    MulAssoc(f, s, t, v.0);
    MulAssoc(f, s, t, v.1);
  }

  lemma YPlus<T(!new)>(f: Field<T>, c: T, u: (T, T), v: (T, T))
    requires Lawful(f)
    ensures Y(f, c, Plus(f, u, v)) == Plus(f, Y(f, c, u), Y(f, c, v))
  {
    Distribute(f, u.1, v.1, c);
    AddSwap(f, u.0, v.0, u.1, v.1);
  }

  lemma YTimes<T(!new)>(f: Field<T>, c: T, s: T, v: (T, T))
    requires Lawful(f)
    ensures Y(f, c, Times(f, s, v)) == Times(f, s, Y(f, c, v))
  {
    MulAssoc(f, c, s, v.1);
    MulComm(f, c, s);
    MulAssoc(f, s, c, v.1);
    Distribute(f, v.0, v.1, s);
  }

  /** y * y == y + c. */
  lemma YY<T(!new)>(f: Field<T>, c: T, v: (T, T))
    requires Lawful(f)
    ensures Y(f, c, Y(f, c, v)) == Plus(f, Times(f, c, v), Y(f, c, v))
  {
    Distribute(f, v.0, v.1, c);
  }

  // ---------- the extension ----------

  function ExtMul<T>(f: Field<T>, c: T, u: (T, T), v: (T, T)): (T, T) {
    Plus(f, Times(f, u.0, v), Times(f, u.1, Y(f, c, v)))
  }

  function Conjugate<T>(f: Field<T>, v: (T, T)): (T, T) { (f.Add(v.0, v.1), v.1) }

  function Norm<T>(f: Field<T>, c: T, v: (T, T)): T {
    f.Add(f.Mul(v.0, f.Add(v.0, v.1)), f.Mul(c, f.Mul(v.1, v.1)))
  }

  function Inverse<T>(f: Field<T>, c: T, v: (T, T)): (T, T) {
    Times(f, f.Div(f.one, Norm(f, c, v)), Conjugate(f, v))
  }

  function Extension<T>(f: Field<T>, c: T): Field<(T, T)> {
    Field((f.zero, f.zero), (f.one, f.zero),
          (u, v) => Plus(f, u, v), (u, v) => ExtMul(f, c, u, v), (u, v) => ExtMul(f, c, u, Inverse(f, c, v)))
  }

  lemma LeftPlus<T(!new)>(f: Field<T>, c: T, a: (T, T), b: (T, T), w: (T, T))
    requires Lawful(f)
    ensures ExtMul(f, c, Plus(f, a, b), w) == Plus(f, ExtMul(f, c, a, w), ExtMul(f, c, b, w))
  {
    PlusTimes(f, a.0, b.0, w);
    PlusTimes(f, a.1, b.1, Y(f, c, w));
    PlusSwap(f, Times(f, a.0, w), Times(f, b.0, w), Times(f, a.1, Y(f, c, w)), Times(f, b.1, Y(f, c, w)));
  }

  lemma LeftTimes<T(!new)>(f: Field<T>, c: T, s: T, a: (T, T), w: (T, T))
    requires Lawful(f)
    ensures ExtMul(f, c, Times(f, s, a), w) == Times(f, s, ExtMul(f, c, a, w))
  {
    TimesTimes(f, s, a.0, w);
    TimesTimes(f, s, a.1, Y(f, c, w));
    TimesPlus(f, s, Times(f, a.0, w), Times(f, a.1, Y(f, c, w)));
  }

  lemma YTurn<T(!new)>(f: Field<T>, a: (T, T), b: (T, T), d: (T, T))
    requires Lawful(f)
    ensures Plus(f, a, Plus(f, b, d)) == Plus(f, b, Plus(f, a, d))
  {
    AddAssoc(f, a.0, b.0, d.0);
    AddAssoc(f, a.1, b.1, d.1);
    AddComm(f, a.0, b.0);
    AddComm(f, a.1, b.1);
    AddAssoc(f, b.0, a.0, d.0);
    AddAssoc(f, b.1, a.1, d.1);
  }

  lemma LeftY<T(!new)>(f: Field<T>, c: T, v: (T, T), w: (T, T))
    requires Lawful(f)
    ensures ExtMul(f, c, Y(f, c, v), w) == Y(f, c, ExtMul(f, c, v, w))
  {
    var y := Y(f, c, w);
    var cw, p, q := Times(f, f.Mul(c, v.1), w), Times(f, v.0, y), Times(f, v.1, y);
    calc {
      Y(f, c, ExtMul(f, c, v, w));
    == { YPlus(f, c, Times(f, v.0, w), Times(f, v.1, y)); YTimes(f, c, v.0, w); YTimes(f, c, v.1, y); }
      Plus(f, p, Times(f, v.1, Y(f, c, y)));
    == { YY(f, c, w); TimesPlus(f, v.1, Times(f, c, w), y); }
      Plus(f, p, Plus(f, Times(f, v.1, Times(f, c, w)), q));
    == { TimesTimes(f, v.1, c, w); MulComm(f, v.1, c); }
      Plus(f, p, Plus(f, cw, q));
    == { YTurn(f, p, cw, q); }
      Plus(f, cw, Plus(f, p, q));
    == { PlusTimes(f, v.0, v.1, y); }
      ExtMul(f, c, Y(f, c, v), w);
    }
  }

  lemma ExtAssoc<T(!new)>(f: Field<T>, c: T, u: (T, T), v: (T, T), w: (T, T))
    requires Lawful(f)
    ensures ExtMul(f, c, ExtMul(f, c, u, v), w) == ExtMul(f, c, u, ExtMul(f, c, v, w))
  {
    LeftPlus(f, c, Times(f, u.0, v), Times(f, u.1, Y(f, c, v)), w);
    LeftTimes(f, c, u.0, v, w);
    LeftTimes(f, c, u.1, Y(f, c, v), w);
    LeftY(f, c, v, w);
  }

  lemma ExtComm<T(!new)>(f: Field<T>, c: T, u: (T, T), v: (T, T))
    requires Lawful(f)
    ensures ExtMul(f, c, u, v) == ExtMul(f, c, v, u)
  {
    // first component: u0 v0 + u1 (c v1)
    MulComm(f, u.0, v.0);
    MulAssoc(f, u.1, c, v.1);
    MulComm(f, u.1, f.Mul(c, v.1));
    MulAssoc(f, c, v.1, u.1);
    MulComm(f, v.1, u.1);
    MulAssoc(f, c, u.1, v.1);
    MulComm(f, v.1, f.Mul(c, u.1));
    // second component: u0 v1 + (u1 v0 + u1 v1)
    Distribute(f, v.0, v.1, u.1);
    Distribute(f, u.0, u.1, v.1);
    MulComm(f, u.0, v.1);
    MulComm(f, u.1, v.0);
    var x, y, z := f.Mul(u.0, v.1), f.Mul(u.1, v.0), f.Mul(u.1, v.1);
    AddAssoc(f, x, y, z);
    AddComm(f, x, y);
    AddAssoc(f, y, x, z);
  }

  lemma ExtOne<T(!new)>(f: Field<T>, c: T, v: (T, T))
    requires Lawful(f)
    ensures ExtMul(f, c, v, (f.one, f.zero)) == v
  {
    MulOne(f, v.0);
    MulOne(f, v.1);
    MulZero(f, c);
    MulZero(f, v.0);
    MulZero(f, v.1);
    AddZero(f, v.0);
    AddZero(f, v.1);
    AddZero(f, f.one);
  }

  // ---------- division ----------

  ghost predicate NoRoot<T>(f: Field<T>, c: T, t: T) { f.Add(f.Mul(t, t), t) != c }

  ghost predicate Irreducible<T(!new)>(f: Field<T>, c: T) { forall t :: NoRoot(f, c, t) }

  lemma ConjugateMul<T(!new)>(f: Field<T>, c: T, v: (T, T))
    requires Lawful(f)
    ensures ExtMul(f, c, v, Conjugate(f, v)) == (Norm(f, c, v), f.zero)
  {
    var (a, b) := v;
    MulComm(f, b, f.Mul(c, b));
    MulAssoc(f, c, b, b);
    AddTwice(f, a, b);
    MulComm(f, a, b);
    AddSelf(f, f.Mul(a, b));
  }

  /** The norm of a + b y is b * b * (t * t + t + c) for t = a / b. */
  lemma NormFactors<T(!new)>(f: Field<T>, c: T, t: T, b: T)
    requires Lawful(f)
    ensures Norm(f, c, (f.Mul(t, b), b)) == f.Mul(f.Add(f.Add(f.Mul(t, t), t), c), f.Mul(b, b))
  {
    var a, bb := f.Mul(t, b), f.Mul(b, b);
    calc {
      f.Mul(a, f.Add(a, b));
    == { Distribute(f, a, b, a); }
      f.Add(f.Mul(a, a), f.Mul(a, b));
    == { MulAssoc(f, t, b, b); }
      f.Add(f.Mul(a, a), f.Mul(t, bb));
    == { MulAssoc(f, t, b, a); MulAssoc(f, b, t, b); MulComm(f, b, t); MulAssoc(f, t, b, b); MulAssoc(f, t, t, bb); }
      f.Add(f.Mul(f.Mul(t, t), bb), f.Mul(t, bb));
    == { Distribute(f, f.Mul(t, t), t, bb); }
      f.Mul(f.Add(f.Mul(t, t), t), bb);
    }
    Distribute(f, f.Add(f.Mul(t, t), t), c, bb);
  }

  lemma NormNonzero<T(!new)>(f: Field<T>, c: T, v: (T, T))
    requires Lawful(f) && Irreducible(f, c) && v != (f.zero, f.zero)
    ensures Norm(f, c, v) != f.zero
  {
    var (a, b) := v;
    if b == f.zero {
      AddZero(f, a);
      MulZero(f, f.zero);
      MulZero(f, c);
      AddZero(f, f.Mul(a, a));
      NoZeroDivisors(f, a, a);
    } else {
      var t := f.Div(a, b);
      DivMul(f, a, b);
      NormFactors(f, c, t, b);
      NoZeroDivisors(f, b, b);
      assert NoRoot(f, c, t);
      AddIsZero(f, f.Add(f.Mul(t, t), t), c);
      NoZeroDivisors(f, f.Add(f.Add(f.Mul(t, t), t), c), f.Mul(b, b));
    }
  }

  lemma InverseMul<T(!new)>(f: Field<T>, c: T, v: (T, T))
    requires Lawful(f) && Irreducible(f, c) && v != (f.zero, f.zero)
    ensures ExtMul(f, c, Inverse(f, c, v), v) == (f.one, f.zero)
  {
    var n := Norm(f, c, v);
    var s := f.Div(f.one, n);
    NormNonzero(f, c, v);
    LeftTimes(f, c, s, Conjugate(f, v), v);
    ExtComm(f, c, Conjugate(f, v), v);
    ConjugateMul(f, c, v);
    DivMul(f, f.one, n);
    MulZero(f, s);
  }

  /** A quadratic extension is again a field of characteristic two. */
  lemma ExtensionLawful<T(!new)>(f: Field<T>, c: T)
    requires Lawful(f) && Irreducible(f, c)
    ensures Lawful(Extension(f, c))
  {
    var e := Extension(f, c);
    forall a, b ensures AddCommutes(e, a, b) { AddComm(f, a.0, b.0); AddComm(f, a.1, b.1); }
    forall a, b, d ensures AddAssociates(e, a, b, d) { AddAssoc(f, a.0, b.0, d.0); AddAssoc(f, a.1, b.1, d.1); }
    forall a ensures AddIdentity(e, a) { AddZero(f, a.0); AddZero(f, a.1); }
    forall a ensures SelfInverse(e, a) { AddSelf(f, a.0); AddSelf(f, a.1); }
    forall a, b ensures MulCommutes(e, a, b) { ExtComm(f, c, a, b); }
    forall a, b, d ensures MulAssociates(e, a, b, d) { ExtAssoc(f, c, a, b, d); }
    forall a ensures MulIdentity(e, a) { ExtOne(f, c, a); }
    forall a, b, d ensures Distributes(e, a, b, d) { LeftPlus(f, c, a, b, d); }
    forall a, b ensures DivUndoesMul(e, a, b) {
      if b != e.zero {
        ExtAssoc(f, c, a, Inverse(f, c, b), b);
        InverseMul(f, c, b);
        ExtOne(f, c, a);
      }
    }
  }

  /** And it can be extended once more. */
  lemma ExtensionIrreducible<T(!new)>(f: Field<T>, c: T)
    requires Lawful(f) && Irreducible(f, c)
    ensures Irreducible(Extension(f, c), (f.zero, c))
  {
    var e := Extension(f, c);
    forall t ensures NoRoot(e, (f.zero, c), t) {
      var (a, b) := t;
      assert e.Mul(t, t).1 == f.Add(f.Mul(a, b), f.Mul(b, f.Add(a, b)));
      Distribute(f, a, b, b);
      MulComm(f, a, b);
      AddAssoc(f, f.Mul(a, b), f.Mul(a, b), f.Mul(b, b));
      AddSelf(f, f.Mul(a, b));
      AddZero(f, f.Mul(b, b));
      assert NoRoot(f, c, b);
    }
  }

  // ---------- from two elements to 256 ----------

  const Bits: Field<bool> := Field(false, true, (a, b) => a != b, (a, b) => a && b, (a, b) => a && b)

  lemma BitsLawful()
    ensures Lawful(Bits) && Irreducible(Bits, true)
  {
    forall t ensures NoRoot(Bits, true, t) {}
  }

  const Quads: Field<(bool, bool)> := Extension(Bits, true)
  const Nibbles: Field<((bool, bool), (bool, bool))> := Extension(Quads, (false, true))
  const Octets: Field<(((bool, bool), (bool, bool)), ((bool, bool), (bool, bool)))> :=
    Extension(Nibbles, ((false, false), (false, true)))

  lemma OctetsLawful()
    ensures Lawful(Octets)
  {
    BitsLawful();
    ExtensionLawful(Bits, true);
    ExtensionIrreducible(Bits, true);
    ExtensionLawful(Quads, (false, true));
    ExtensionIrreducible(Quads, (false, true));
    ExtensionLawful(Nibbles, ((false, false), (false, true)));
  }

  // ---------- renaming the elements ----------

  function Renamed<T, U>(f: Field<T>, to: T -> U, from: U -> T): Field<U> {
    Field(to(f.zero), to(f.one),
          (a, b) => to(f.Add(from(a), from(b))), (a, b) => to(f.Mul(from(a), from(b))), (a, b) => to(f.Div(from(a), from(b))))
  }

  lemma RenamedLawful<T(!new), U(!new)>(f: Field<T>, to: T -> U, from: U -> T)
    requires Lawful(f)
    requires (forall t :: from(to(t)) == t) && (forall u :: to(from(u)) == u)
    ensures Lawful(Renamed(f, to, from))
  {
    var g := Renamed(f, to, from);
    forall a, b ensures AddCommutes(g, a, b) { AddComm(f, from(a), from(b)); }
    forall a, b, c ensures AddAssociates(g, a, b, c) { AddAssoc(f, from(a), from(b), from(c)); }
    forall a ensures AddIdentity(g, a) { AddZero(f, from(a)); }
    forall a ensures SelfInverse(g, a) { AddSelf(f, from(a)); }
    forall a, b ensures MulCommutes(g, a, b) { MulComm(f, from(a), from(b)); }
    forall a, b, c ensures MulAssociates(g, a, b, c) { MulAssoc(f, from(a), from(b), from(c)); }
    forall a ensures MulIdentity(g, a) { MulOne(f, from(a)); }
    forall a, b, c ensures Distributes(g, a, b, c) { Distribute(f, from(a), from(b), from(c)); }
    forall a, b ensures DivUndoesMul(g, a, b) {
      if b != g.zero { DivMul(f, from(a), from(b)); }
    }
  }
}

/** The field on bytes that the file transfer codes over. */
module ByteField {
  import opened Fields
  import opened GaloisField
  import opened Xnc

  type Quad = (bool, bool)
  type Nibble = (Quad, Quad)
  type Octet = (Nibble, Nibble)

  function FromQuad(q: Quad): (n: int) ensures 0 <= n < 4 { (if q.0 then 1 else 0) + if q.1 then 2 else 0 }
  function FromNibble(q: Nibble): (n: int) ensures 0 <= n < 16 { FromQuad(q.0) + 4 * FromQuad(q.1) }
  function ToByte(q: Octet): byte { (FromNibble(q.0) + 16 * FromNibble(q.1)) as byte }

  function ToQuad(n: int): Quad { (n % 2 == 1, n / 2 == 1) }
  function ToNibble(n: int): Nibble { (ToQuad(n % 4), ToQuad(n / 4)) }
  function FromByte(b: byte): Octet { (ToNibble(b as int % 16), ToNibble(b as int / 16)) }

  lemma NibbleThere(q: Nibble)
    ensures ToNibble(FromNibble(q)) == q
  {
    var x, y := FromQuad(q.0), FromQuad(q.1);
    assert (x + 4 * y) % 4 == x && (x + 4 * y) / 4 == y;
    assert ToQuad(x) == q.0 && ToQuad(y) == q.1;
  }

  lemma NibbleBack(n: int)
    requires 0 <= n < 16
    ensures FromNibble(ToNibble(n)) == n
  {
    assert FromQuad(ToQuad(n % 4)) == n % 4 && FromQuad(ToQuad(n / 4)) == n / 4;
  }

  lemma Halves(b: byte, x: int, y: int)
    requires b as int == x + 16 * y && 0 <= x < 16
    ensures FromByte(b) == (ToNibble(x), ToNibble(y))
  {
    DivMod(b as int, x, y);
  }

  lemma DivMod(n: int, x: int, y: int)
    requires n == x + 16 * y && 0 <= x < 16
    ensures n % 16 == x && n / 16 == y
  {
  }

  lemma ByteThere(q: Octet)
    ensures FromByte(ToByte(q)) == q
  {
    Halves(ToByte(q), FromNibble(q.0), FromNibble(q.1));
    NibbleThere(q.0);
    NibbleThere(q.1);
  }

  lemma ByteBack(b: byte)
    ensures ToByte(FromByte(b)) == b
  {
    NibbleBack(b as int % 16);
    NibbleBack(b as int / 16);
  }

  const Bytes: Field<byte> := Renamed(Octets, ToByte, FromByte)

  lemma BytesLawful()
    ensures Lawful(Bytes)
  {
    OctetsLawful();
    forall q ensures FromByte(ToByte(q)) == q { ByteThere(q); }
    forall b ensures ToByte(FromByte(b)) == b { ByteBack(b); }
    RenamedLawful(Octets, ToByte, FromByte);
  }
}
