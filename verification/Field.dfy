/** Finite-field arithmetic as the RLNC code sees it.

    The codec only ever talks to a `*galoisfield.GF` handle through Add, Mul and Div and compares
    cells with the literals 0 and 1.  `Field` is that handle; `Lawful` collects what the codec relies
    on, characteristic two included, since the eliminations add where a textbook subtracts.

    Each law is a named predicate, so a proof picks the instance it needs by naming it. */
module Fields {

  datatype Field<!T> = Field(zero: T, one: T, add: (T, T) -> T, mul: (T, T) -> T, div: (T, T) -> T)
  {
    function Add(a: T, b: T): T { add(a, b) }
    function Mul(a: T, b: T): T { mul(a, b) }
    function Div(a: T, b: T): T { div(a, b) }
  }

  ghost predicate AddCommutes<T>(f: Field<T>, a: T, b: T) { f.Add(a, b) == f.Add(b, a) }
  ghost predicate AddAssociates<T>(f: Field<T>, a: T, b: T, c: T) { f.Add(f.Add(a, b), c) == f.Add(a, f.Add(b, c)) }
  ghost predicate AddIdentity<T>(f: Field<T>, a: T) { f.Add(a, f.zero) == a }
  ghost predicate SelfInverse<T>(f: Field<T>, a: T) { f.Add(a, a) == f.zero }
  ghost predicate MulCommutes<T>(f: Field<T>, a: T, b: T) { f.Mul(a, b) == f.Mul(b, a) }
  ghost predicate MulAssociates<T>(f: Field<T>, a: T, b: T, c: T) { f.Mul(f.Mul(a, b), c) == f.Mul(a, f.Mul(b, c)) }
  ghost predicate MulIdentity<T>(f: Field<T>, a: T) { f.Mul(a, f.one) == a }
  ghost predicate Distributes<T>(f: Field<T>, a: T, b: T, c: T) { f.Mul(f.Add(a, b), c) == f.Add(f.Mul(a, c), f.Mul(b, c)) }
  ghost predicate DivUndoesMul<T>(f: Field<T>, a: T, b: T) { b != f.zero ==> f.Mul(f.Div(a, b), b) == a }

  /** A field of characteristic two. */
  ghost predicate Lawful<T(!new)>(f: Field<T>) {
    && f.zero != f.one
    && (forall a, b :: AddCommutes(f, a, b))
    && (forall a, b, c :: AddAssociates(f, a, b, c))
    && (forall a :: AddIdentity(f, a))
    && (forall a :: SelfInverse(f, a))
    && (forall a, b :: MulCommutes(f, a, b))
    && (forall a, b, c :: MulAssociates(f, a, b, c))
    && (forall a :: MulIdentity(f, a))
    && (forall a, b, c :: Distributes(f, a, b, c))
    && (forall a, b :: DivUndoesMul(f, a, b))
  }

  lemma AddComm<T(!new)>(f: Field<T>, a: T, b: T)
    requires Lawful(f)
    ensures f.Add(a, b) == f.Add(b, a)
  {
    assert AddCommutes(f, a, b);
  }

  lemma AddAssoc<T(!new)>(f: Field<T>, a: T, b: T, c: T)
    requires Lawful(f)
    ensures f.Add(f.Add(a, b), c) == f.Add(a, f.Add(b, c))
  {
    assert AddAssociates(f, a, b, c);
  }

  lemma AddZero<T(!new)>(f: Field<T>, a: T)
    requires Lawful(f)
    ensures f.Add(a, f.zero) == a && f.Add(f.zero, a) == a
  {
    assert AddIdentity(f, a);
    AddComm(f, a, f.zero);
  }

  lemma AddSelf<T(!new)>(f: Field<T>, a: T)
    requires Lawful(f)
    ensures f.Add(a, a) == f.zero
  {
    assert SelfInverse(f, a);
  }

  lemma MulComm<T(!new)>(f: Field<T>, a: T, b: T)
    requires Lawful(f)
    ensures f.Mul(a, b) == f.Mul(b, a)
  {
    assert MulCommutes(f, a, b);
  }

  lemma MulAssoc<T(!new)>(f: Field<T>, a: T, b: T, c: T)
    requires Lawful(f)
    ensures f.Mul(f.Mul(a, b), c) == f.Mul(a, f.Mul(b, c))
  {
    assert MulAssociates(f, a, b, c);
  }

  lemma MulOne<T(!new)>(f: Field<T>, a: T)
    requires Lawful(f)
    ensures f.Mul(a, f.one) == a && f.Mul(f.one, a) == a
  {
    assert MulIdentity(f, a);
    MulComm(f, a, f.one);
  }

  lemma Distribute<T(!new)>(f: Field<T>, a: T, b: T, c: T)
    requires Lawful(f)
    ensures f.Mul(f.Add(a, b), c) == f.Add(f.Mul(a, c), f.Mul(b, c))
    ensures f.Mul(c, f.Add(a, b)) == f.Add(f.Mul(c, a), f.Mul(c, b))
  {
    assert Distributes(f, a, b, c);
    MulComm(f, f.Add(a, b), c);
    MulComm(f, a, c);
    MulComm(f, b, c);
  }

  lemma DivMul<T(!new)>(f: Field<T>, a: T, b: T)
    requires Lawful(f) && b != f.zero
    ensures f.Mul(f.Div(a, b), b) == a && f.Mul(b, f.Div(a, b)) == a
  {
    assert DivUndoesMul(f, a, b);
    MulComm(f, b, f.Div(a, b));
  }

  lemma MulZero<T(!new)>(f: Field<T>, a: T)
    requires Lawful(f)
    ensures f.Mul(a, f.zero) == f.zero && f.Mul(f.zero, a) == f.zero
  {
    // zero is one + one, so zero * a is a + a
    AddSelf(f, f.one);
    Distribute(f, f.one, f.one, a);
    MulOne(f, a);
    AddSelf(f, a);
    MulComm(f, a, f.zero);
  }

  /** Equal summands cancel: in characteristic two a sum is zero only for equal operands. */
  lemma AddIsZero<T(!new)>(f: Field<T>, a: T, b: T)
    requires Lawful(f)
    ensures f.Add(a, b) == f.zero <==> a == b
  {
    AddSelf(f, b);
    AddAssoc(f, a, b, b);
    AddZero(f, a);
    AddZero(f, b);
  }

  /** Adding the same value twice restores the original. */
  lemma AddTwice<T(!new)>(f: Field<T>, a: T, b: T)
    requires Lawful(f)
    ensures f.Add(f.Add(a, b), b) == a
  {
    AddAssoc(f, a, b, b);
    AddSelf(f, b);
    AddZero(f, a);
  }

  /** The middle operands of a four-term sum can be exchanged. */
  lemma AddSwap<T(!new)>(f: Field<T>, a: T, b: T, c: T, d: T)
    requires Lawful(f)
    ensures f.Add(f.Add(a, b), f.Add(c, d)) == f.Add(f.Add(a, c), f.Add(b, d))
  {
    AddAssoc(f, a, b, f.Add(c, d));
    AddAssoc(f, b, c, d);
    AddComm(f, b, c);
    AddAssoc(f, c, b, d);
    AddAssoc(f, a, c, f.Add(b, d));
  }

  lemma NoZeroDivisors<T(!new)>(f: Field<T>, a: T, b: T)
    requires Lawful(f) && a != f.zero
    ensures f.Mul(a, b) == f.zero <==> b == f.zero
  {
    MulZero(f, a);
    DivMul(f, f.one, a);
    MulAssoc(f, f.Div(f.one, a), a, b);
    MulOne(f, b);
    MulZero(f, f.Div(f.one, a));
  }
}
