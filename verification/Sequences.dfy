/**
  An optional value, and what the walks need to know about reversing and regrouping sequences.
 */
module Sequences {
  datatype Option<+T> = None | Some(value: T)

  lemma Assoc<T>(a: seq<T>, b: seq<T>, c: seq<T>)
    ensures a + (b + c) == (a + b) + c
  {
  }

  lemma NothingBefore<T>(s: seq<T>)
    ensures [] + s == s
  {
  }

  function Reversed<T>(s: seq<T>): (r: seq<T>)
    ensures |r| == |s| && forall i :: 0 <= i < |s| ==> r[i] == s[|s| - 1 - i]
  {
    seq(|s|, i requires 0 <= i < |s| => s[|s| - 1 - i])
  }

  lemma ReversedConcat<T>(a: seq<T>, b: seq<T>)
    ensures Reversed(a + b) == Reversed(b) + Reversed(a)
  {
  }

  lemma ReversedFirst<T>(s: seq<T>)
    requires s != []
    ensures Reversed(s)[|s| - 1] == s[0] && Reversed(s)[..|s| - 1] == Reversed(s[1..])
  {
  }

  lemma {:induction false} ReversedBag<T>(s: seq<T>)
    ensures multiset(Reversed(s)) == multiset(s)
  {
    if s == [] {
      assert Reversed(s) == [];
    } else {
      assert s == [s[0]] + s[1..];
      ReversedConcat([s[0]], s[1..]);
      assert Reversed([s[0]]) == [s[0]];
      ReversedBag(s[1..]);
    }
  }

  lemma ReversedOne<T>(x: T)
    ensures Reversed([x]) == [x]
  {
  }

  lemma ReversedTwice<T>(s: seq<T>)
    ensures Reversed(Reversed(s)) == s
  {
  }

  /** The sequence with the element at a place taken out, if there is one. */
  function Without<T>(s: seq<T>, i: nat): (r: seq<T>)
    requires i <= |s|
    ensures i == |s| ==> r == s
    ensures i < |s| ==> |r| == |s| - 1 && forall j :: 0 <= j < |r| ==> r[j] == s[if j < i then j else j + 1]
  {
    if i == |s| then s else s[..i] + s[i + 1..]
  }

  /** No element comes twice. */
  predicate Distinct<T(==)>(s: seq<T>) {
    forall i, j :: 0 <= i < j < |s| ==> s[i] != s[j]
  }

  /** The elements of a sequence. */
  function Elements<T(==)>(s: seq<T>): (e: set<T>) {
    set x | x in s
  }

  lemma ElementsAppend<T>(s: seq<T>, x: T)
    ensures Elements(s + [x]) == Elements(s) + {x}
  {
    assert x in s + [x];
  }

  lemma DistinctAppend<T>(s: seq<T>, x: T)
    ensures Distinct(s + [x]) <==> Distinct(s) && x !in s
  {
    if x in s {
      var i :| 0 <= i < |s| && s[i] == x;
      assert (s + [x])[i] == (s + [x])[|s|];
    } else if Distinct(s) {
      forall i | 0 <= i < |s|
        ensures s[i] != x
      {
        assert s[i] in s;
      }
    }
    if Distinct(s + [x]) {
      assert forall i :: 0 <= i < |s| ==> (s + [x])[i] == s[i];
    }
  }

  /** A sequence has at most as many elements as places, and exactly as many when it is distinct. */
  lemma {:induction false} DistinctIffSize<T>(s: seq<T>)
    ensures |Elements(s)| <= |s|
    ensures Distinct(s) <==> |Elements(s)| == |s|
  {
    if s == [] {
      assert Elements(s) == {};
    } else {
      var front, last := s[..|s| - 1], s[|s| - 1];
      assert s == front + [last];
      DistinctIffSize(front);
      DistinctAppend(front, last);
      ElementsAppend(front, last);
      if last in front {
        assert Elements(s) == Elements(front);
      }
    }
  }

  /** What is left of b when a is taken out. */
  lemma BagRest<T>(a: seq<T>, b: seq<T>) returns (c: seq<T>)
    requires multiset(a) <= multiset(b)
    ensures multiset(a + c) == multiset(b)
  {
    c := [];
    var left := multiset(b) - multiset(a);
    while left != multiset{}
      invariant multiset(c) + left == multiset(b) - multiset(a)
      decreases |left|
    {
      var x :| x in left;
      c := c + [x];
      left := left - multiset{x};
    }
    assert multiset(c) == multiset(b) - multiset(a);
    assert multiset(a + c) == multiset(a) + multiset(c);
  }

  lemma {:induction false} DistinctOnce<T>(s: seq<T>, x: T)
    requires Distinct(s)
    ensures multiset(s)[x] == if x in s then 1 else 0
  {
    if s != [] {
      assert s == [s[0]] + s[1..];
      DistinctOnce(s[1..], x);
      assert s[0] !in s[1..];
    }
  }

  lemma DistinctWithin<T>(a: seq<T>, b: seq<T>)
    requires multiset(a) <= multiset(b) && Distinct(b)
    ensures Distinct(a)
  {
    forall i, j | 0 <= i < j < |a|
      ensures a[i] != a[j]
    {
      if a[i] == a[j] {
        DistinctOnce(b, a[i]);
        TwiceInBag(a, i, j);
      }
    }
  }

  lemma TwiceInBag<T>(a: seq<T>, i: nat, j: nat)
    requires i < j < |a| && a[i] == a[j]
    ensures multiset(a)[a[i]] >= 2
  {
    assert a == a[..i] + [a[i]] + a[i + 1..j] + [a[j]] + a[j + 1..];
  }
}
