/** Reductions: an associative operation with an identity, folded over a sequence. */
module Monoids {

  datatype Monoid<!T(!new)> = Monoid(op: (T, T) -> T, id: T)

  ghost predicate Lawful<T(!new)>(m: Monoid<T>) {
    && (forall a, b, c :: m.op(m.op(a, b), c) == m.op(a, m.op(b, c)))
    && (forall a :: m.op(m.id, a) == a)
    && (forall a :: m.op(a, m.id) == a)
  }

  ghost predicate Commutative<T(!new)>(m: Monoid<T>)
    ensures Commutative(m) ==> Lawful(m)
  {
    Lawful(m) && forall a, b :: m.op(a, b) == m.op(b, a)
  }

  lemma Assoc<T(!new)>(m: Monoid<T>, a: T, b: T, c: T)
    requires Lawful(m)
    ensures m.op(m.op(a, b), c) == m.op(a, m.op(b, c))
  {
  }

  lemma Identity<T(!new)>(m: Monoid<T>, a: T)
    requires Lawful(m)
    ensures m.op(m.id, a) == a && m.op(a, m.id) == a
  {
  }

  lemma Interchange<T(!new)>(m: Monoid<T>, a: T, b: T, c: T, d: T)
    requires Commutative(m)
    ensures m.op(m.op(a, b), m.op(c, d)) == m.op(m.op(a, c), m.op(b, d))
  {
    assert m.op(b, c) == m.op(c, b);
    hide Commutative, Lawful;
    Assoc(m, a, b, m.op(c, d));
    Assoc(m, b, c, d);
    Assoc(m, c, b, d);
    Assoc(m, a, c, m.op(b, d));
  }

  function Fold<T(!new)>(m: Monoid<T>, xs: seq<T>): T {
    if xs == [] then m.id else m.op(xs[0], Fold(m, xs[1..]))
  }

  lemma {:induction false} FoldConcat<T(!new)>(m: Monoid<T>, xs: seq<T>, ys: seq<T>)
    requires Lawful(m)
    ensures Fold(m, xs + ys) == m.op(Fold(m, xs), Fold(m, ys))
  {
    hide Lawful;
    if xs == [] {
      assert xs + ys == ys;
      Identity(m, Fold(m, ys));
    } else {
      assert (xs + ys)[1..] == xs[1..] + ys;
      FoldConcat(m, xs[1..], ys);
      Assoc(m, xs[0], Fold(m, xs[1..]), Fold(m, ys));
    }
  }

  /** Adjacent slices fold to the fold of their union. */
  lemma FoldSlices<T(!new)>(m: Monoid<T>, xs: seq<T>, a: nat, b: nat, c: nat)
    requires Lawful(m) && a <= b <= c <= |xs|
    ensures Fold(m, xs[a..c]) == m.op(Fold(m, xs[a..b]), Fold(m, xs[b..c]))
  {
    assert xs[a..c] == xs[a..b] + xs[b..c];
    FoldConcat(m, xs[a..b], xs[b..c]);
  }
}
