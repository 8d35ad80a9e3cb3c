/**
  Syntax trees: nodes with data of their own and children, and how large they are.
 */
module Trees {
  datatype Tree<D> = Tree(data: D, children: seq<Tree<D>>)

  function Size<D>(n: Tree<D>): (k: nat)
    ensures k >= 1
    decreases n, 0
  {
    1 + SizeAll(n.children)
  }

  function SizeAll<D>(ns: seq<Tree<D>>): nat
    decreases ns, 1
  {
    if ns == [] then 0 else Size(ns[0]) + SizeAll(ns[1..])
  }

  lemma {:induction false} SizeConcat<D>(a: seq<Tree<D>>, b: seq<Tree<D>>)
    ensures SizeAll(a + b) == SizeAll(a) + SizeAll(b)
  {
    if a == [] {
      assert a + b == b;
    } else {
      assert (a + b)[0] == a[0] && (a + b)[1..] == a[1..] + b;
      SizeConcat(a[1..], b);
    }
  }

  lemma {:induction false} SizeMember<D>(ns: seq<Tree<D>>, i: nat)
    requires i < |ns|
    ensures Size(ns[i]) <= SizeAll(ns)
  {
    if i > 0 {
      SizeMember(ns[1..], i - 1);
    }
  }

  lemma {:induction false} CountIsLess<D>(ns: seq<Tree<D>>)
    ensures |ns| <= SizeAll(ns)
  {
    if ns != [] {
      CountIsLess(ns[1..]);
    }
  }
}
