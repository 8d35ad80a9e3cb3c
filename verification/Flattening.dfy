/**
  Concatenating what a function yields for each element, and that only the order of the result
  depends on the order of the elements.
 */
module Flattening {
  ghost function Flat<A, B>(g: A -> seq<B>, xs: seq<A>): (ys: seq<B>) {
    if xs == [] then [] else g(xs[0]) + Flat(g, xs[1..])
  }

  lemma {:induction false} FlatConcat<A, B>(g: A -> seq<B>, a: seq<A>, b: seq<A>)
    ensures Flat(g, a + b) == Flat(g, a) + Flat(g, b)
  {
    if a == [] {
      assert a + b == b;
    } else {
      assert (a + b)[0] == a[0] && (a + b)[1..] == a[1..] + b;
      FlatConcat(g, a[1..], b);
    }
  }

  lemma FlatOne<A, B>(g: A -> seq<B>, x: A)
    ensures Flat(g, [x]) == g(x)
  {
    assert [x][1..] == [];
    assert Flat(g, []) == [];
  }

  lemma FlatMiddle<A, B>(g: A -> seq<B>, a: seq<A>, x: A, b: seq<A>)
    ensures multiset(Flat(g, a + [x] + b)) == multiset(g(x)) + multiset(Flat(g, a + b))
  {
    assert a + [x] + b == a + ([x] + b);
    FlatConcat(g, a, [x] + b);
    FlatConcat(g, [x], b);
    FlatOne(g, x);
    FlatConcat(g, a, b);
  }

  /** Removing one occurrence of an element of b. */
  lemma Extract<A>(x: A, rest: seq<A>, b: seq<A>) returns (b1: seq<A>, b2: seq<A>)
    requires multiset([x] + rest) == multiset(b)
    ensures b == b1 + [x] + b2 && multiset(rest) == multiset(b1 + b2)
  {
    assert ([x] + rest)[0] == x;
    assert x in multiset(b);
    var i :| 0 <= i < |b| && b[i] == x;
    b1, b2 := b[..i], b[i + 1..];
    assert b == b1 + [x] + b2;
    assert multiset([x] + rest) == multiset{x} + multiset(rest);
    assert multiset(b) == multiset(b1 + [x] + b2) == multiset{x} + multiset(b1 + b2);
    assert multiset(rest) == multiset(b) - multiset{x} == multiset(b1 + b2);
  }

  lemma {:induction false} FlatPermute<A, B>(g: A -> seq<B>, a: seq<A>, b: seq<A>)
    requires multiset(a) == multiset(b)
    ensures multiset(Flat(g, a)) == multiset(Flat(g, b))
  {
    if a == [] {
      assert |b| == |multiset(b)|;
    } else {
      assert a == [a[0]] + a[1..];
      var b1, b2 := Extract(a[0], a[1..], b);
      FlatMiddle(g, b1, a[0], b2);
      FlatPermute(g, a[1..], b1 + b2);
    }
  }
}
