/**
  Walking with an explicit stack, for any notion of what lies below an entry: the order of the walk,
  its independence from the order among siblings, and a stack that may refuse entries.
 */
module TreeWalks {
  import opened Sequences
  import opened Flattening

  ghost function Sum<F>(size: F -> nat, fs: seq<F>): nat {
    if fs == [] then 0 else size(fs[0]) + Sum(size, fs[1..])
  }

  lemma {:induction false} SumConcat<F>(size: F -> nat, a: seq<F>, b: seq<F>)
    ensures Sum(size, a + b) == Sum(size, a) + Sum(size, b)
  {
    if a == [] {
      assert a + b == b;
    } else {
      assert (a + b)[0] == a[0] && (a + b)[1..] == a[1..] + b;
      SumConcat(size, a[1..], b);
    }
  }

  /** What lies below an entry is smaller than the entry. */
  ghost predicate Shrinks<F(!new)>(next: F -> seq<F>, size: F -> nat) {
    forall f :: ShrinksAt(next, size, f)
  }

  ghost predicate ShrinksAt<F>(next: F -> seq<F>, size: F -> nat, f: F) {
    Sum(size, next(f)) < size(f)
  }

  /** The entries met from f on: f, then all that is met from what lies below it, in that order. */
  ghost function Visits<F(!new)>(next: F -> seq<F>, size: F -> nat, f: F): (vs: seq<F>)
    requires Shrinks(next, size)
    decreases size(f), 1
  {
    assert ShrinksAt(next, size, f);
    [f] + VisitsAll(next, size, next(f))
  }

  ghost function VisitsAll<F(!new)>(next: F -> seq<F>, size: F -> nat, fs: seq<F>): (vs: seq<F>)
    requires Shrinks(next, size)
    decreases Sum(size, fs), 2, |fs|
  {
    if fs == [] then [] else Visits(next, size, fs[0]) + VisitsAll(next, size, fs[1..])
  }

  ghost function VisitOf<F(!new)>(next: F -> seq<F>, size: F -> nat): F -> seq<F>
    requires Shrinks(next, size)
  {
    f => Visits(next, size, f)
  }

  lemma {:induction false} VisitsFlat<F(!new)>(next: F -> seq<F>, size: F -> nat, fs: seq<F>)
    requires Shrinks(next, size)
    ensures VisitsAll(next, size, fs) == Flat(VisitOf(next, size), fs)
  {
    if fs != [] {
      VisitsFlat(next, size, fs[1..]);
    }
  }

  lemma VisitsConcat<F(!new)>(next: F -> seq<F>, size: F -> nat, a: seq<F>, b: seq<F>)
    requires Shrinks(next, size)
    ensures VisitsAll(next, size, a + b) == VisitsAll(next, size, a) + VisitsAll(next, size, b)
  {
    VisitsFlat(next, size, a);
    VisitsFlat(next, size, b);
    VisitsFlat(next, size, a + b);
    FlatConcat(VisitOf(next, size), a, b);
  }

  /** Two walks that differ only in the order among siblings meet the same entries, each as often. */
  lemma {:induction false} SiblingOrderDoesNotMatter<F(!new)>(next: F -> seq<F>, next': F -> seq<F>, size: F -> nat,
                                                              f: F)
    requires Shrinks(next, size) && Shrinks(next', size)
    requires forall x :: multiset(next(x)) == multiset(next'(x))
    ensures multiset(Visits(next, size, f)) == multiset(Visits(next', size, f))
    decreases size(f), 1
  {
    assert ShrinksAt(next, size, f) && ShrinksAt(next', size, f);
    VisitsFlat(next, size, next(f));
    VisitsFlat(next, size, next'(f));
    FlatPermute(VisitOf(next, size), next(f), next'(f));
    SiblingOrderDoesNotMatterAll(next, next', size, next'(f));
  }

  lemma {:induction false} SiblingOrderDoesNotMatterAll<F(!new)>(next: F -> seq<F>, next': F -> seq<F>, size: F -> nat,
                                                                 fs: seq<F>)
    requires Shrinks(next, size) && Shrinks(next', size)
    requires forall x :: multiset(next(x)) == multiset(next'(x))
    ensures multiset(VisitsAll(next, size, fs)) == multiset(VisitsAll(next', size, fs))
    decreases Sum(size, fs), 2, |fs|
  {
    if fs != [] {
      SiblingOrderDoesNotMatter(next, next', size, fs[0]);
      SiblingOrderDoesNotMatterAll(next, next', size, fs[1..]);
    }
  }

  // ----- a stack that may refuse entries

  /** A stack as a value: what it holds, what was refused, and how many entries it can hold. */
  datatype Held<F> = Held(contents: seq<F>, refused: seq<F>, limit: nat)

  /** How many of n entries still fit. */
  function Fitting<F>(h: Held<F>, n: nat): (k: nat)
    ensures k <= n
  {
    if |h.contents| >= h.limit then 0 else if |h.contents| + n <= h.limit then n else h.limit - |h.contents|
  }

  /** One entry goes on the stack when there is room, and is refused otherwise. */
  function PushOne<F>(h: Held<F>, f: F): (h': Held<F>) {
    if |h.contents| < h.limit then h.(contents := h.contents + [f]) else h.(refused := h.refused + [f])
  }

  /** Entries pushed in order. */
  function PushAll<F>(h: Held<F>, fs: seq<F>): (h': Held<F>)
    ensures h'.limit == h.limit
    decreases |fs|
  {
    if fs == [] then h else PushOne(PushAll(h, fs[..|fs| - 1]), fs[|fs| - 1])
  }

  lemma {:induction false} PushNone<F>(h: Held<F>)
    ensures PushAll(h, []) == h
  {
  }

  lemma {:induction false} PushLast<F>(h: Held<F>, fs: seq<F>, f: F)
    ensures PushAll(h, fs + [f]) == PushOne(PushAll(h, fs), f)
  {
    assert (fs + [f])[..|fs|] == fs;
  }

  lemma {:induction false} PushSingle<F>(h: Held<F>, f: F)
    ensures PushAll(h, [f]) == PushOne(h, f)
  {
    PushLast(h, [], f);
    NothingBefore([f]);
    PushNone(h);
  }

  lemma {:induction false} PushBoth<F>(h: Held<F>, fs: seq<F>, gs: seq<F>)
    ensures PushAll(PushAll(h, fs), gs) == PushAll(h, fs + gs)
    decreases |gs|
  {
    if gs == [] {
      NothingBehind(fs);
    } else {
      var front, g := gs[..|gs| - 1], gs[|gs| - 1];
      SplitTop(gs);
      PushBoth(h, fs, front);
      Assoc(fs, front, [g]);
      PushLast(h, fs + front, g);
    }
  }

  /** Of fs those that fit are on the stack, the others are refused. */
  lemma {:induction false} PushedIs<F>(h: Held<F>, fs: seq<F>)
    ensures var k := Fitting(h, |fs|);
            PushAll(h, fs) == Held(h.contents + fs[..k], h.refused + fs[k..], h.limit)
    decreases |fs|
  {
    if fs != [] {
      var n := |fs| - 1;
      var k := Fitting(h, n);
      PushedIs(h, fs[..n]);
      if Fitting(h, |fs|) == |fs| {
        assert fs[..n][..k] == fs[..n] && fs[..n][k..] == [];
        assert h.contents + fs[..n] + [fs[n]] == h.contents + fs[..|fs|];
      } else {
        assert fs[..n][..k] == fs[..k] && fs[..n][k..] + [fs[n]] == fs[k..];
        Assoc(h.refused, fs[..n][k..], [fs[n]]);
      }
    }
  }

  lemma {:induction false} NothingBehind<T>(s: seq<T>)
    ensures s + [] == s
  {
  }

  lemma {:induction false} SplitTop<F>(s: seq<F>)
    requires s != []
    ensures s == s[..|s| - 1] + [s[|s| - 1]]
  {
  }

  /** All that is met from the entries of fs. */
  ghost function Bag<F(!new)>(next: F -> seq<F>, size: F -> nat, fs: seq<F>): multiset<F>
    requires Shrinks(next, size)
  {
    multiset(VisitsAll(next, size, fs))
  }

  lemma BagConcat<F(!new)>(next: F -> seq<F>, size: F -> nat, a: seq<F>, b: seq<F>)
    requires Shrinks(next, size)
    ensures Bag(next, size, a + b) == Bag(next, size, a) + Bag(next, size, b)
  {
    VisitsConcat(next, size, a, b);
  }

  lemma Regroup<F>(a: multiset<F>, b: multiset<F>, c: multiset<F>)
    ensures (a + c) + b == (a + b) + c
    ensures a + (b + c) == (a + b) + c
  {
  }

  ghost function Work<F(!new)>(next: F -> seq<F>, size: F -> nat, h: Held<F>): multiset<F>
    requires Shrinks(next, size)
  {
    Bag(next, size, h.contents) + Bag(next, size, h.refused)
  }

  /** Pushing loses track of none of the work. */
  lemma {:induction false} PushKeepsWork<F(!new)>(next: F -> seq<F>, size: F -> nat, h: Held<F>, fs: seq<F>)
    requires Shrinks(next, size)
    ensures Work(next, size, PushAll(h, fs)) == Work(next, size, h) + Bag(next, size, fs)
    ensures Sum(size, PushAll(h, fs).contents) <= Sum(size, h.contents) + Sum(size, fs)
  {
    var k := Fitting(h, |fs|);
    PushedIs(h, fs);
    assert fs == fs[..k] + fs[k..];
    BagConcat(next, size, fs[..k], fs[k..]);
    BagConcat(next, size, h.contents, fs[..k]);
    BagConcat(next, size, h.refused, fs[k..]);
    SumConcat(size, fs[..k], fs[k..]);
    SumConcat(size, h.contents, fs[..k]);
  }

  // ----- a whole walk

  lemma {:induction false} SumReversed<F>(size: F -> nat, s: seq<F>)
    ensures Sum(size, Reversed(s)) == Sum(size, s)
  {
    if s != [] {
      assert s == [s[0]] + s[1..];
      ReversedConcat([s[0]], s[1..]);
      ReversedOne(s[0]);
      SumReversed(size, s[1..]);
      SumConcat(size, Reversed(s[1..]), [s[0]]);
      SumConcat(size, [s[0]], s[1..]);
    }
  }

  lemma BagReversed<F(!new)>(next: F -> seq<F>, size: F -> nat, s: seq<F>)
    requires Shrinks(next, size)
    ensures Bag(next, size, Reversed(s)) == Bag(next, size, s)
  {
    VisitsFlat(next, size, s);
    VisitsFlat(next, size, Reversed(s));
    ReversedBag(s);
    FlatPermute(VisitOf(next, size), Reversed(s), s);
  }

  lemma VisitsOne<F(!new)>(next: F -> seq<F>, size: F -> nat, f: F)
    requires Shrinks(next, size)
    ensures VisitsAll(next, size, [f]) == Visits(next, size, f)
    ensures VisitsAll(next, size, []) == []
  {
    assert [f][1..] == [];
    assert VisitsAll(next, size, []) == [];
  }

  /** The stack after one turn: the entry on top is taken off, and what lies below it put on. */
  function AfterTurn<F>(next: F -> seq<F>, h: Held<F>): (h': Held<F>)
    requires h.contents != []
    ensures h'.limit == h.limit
  {
    var n := |h.contents| - 1;
    PushAll(h.(contents := h.contents[..n]), Reversed(next(h.contents[n])))
  }

  lemma {:induction false} TurnShrinks<F(!new)>(next: F -> seq<F>, size: F -> nat, h: Held<F>)
    requires Shrinks(next, size) && h.contents != []
    ensures Sum(size, AfterTurn(next, h).contents) < Sum(size, h.contents)
  {
    var n := |h.contents| - 1;
    var f, rest := h.contents[n], h.(contents := h.contents[..n]);
    assert ShrinksAt(next, size, f);
    SplitTop(h.contents);
    SumConcat(size, rest.contents, [f]);
    SumReversed(size, next(f));
    PushKeepsWork(next, size, rest, Reversed(next(f)));
  }

  /** What a walk on this stack visits, and what it has refused at the end. */
  datatype Outcome<F> = Outcome(visited: seq<F>, refused: seq<F>)

  ghost function Run<F(!new)>(next: F -> seq<F>, size: F -> nat, h: Held<F>): (o: Outcome<F>)
    requires Shrinks(next, size)
    decreases Sum(size, h.contents)
  {
    if h.contents == [] then Outcome([], h.refused) else
      TurnShrinks(next, size, h);
      var o := Run(next, size, AfterTurn(next, h));
      Outcome([h.contents[|h.contents| - 1]] + o.visited, o.refused)
  }

  lemma MovedBag<F>(v: multiset<F>, x: multiset<F>, c: multiset<F>, n: multiset<F>, r: multiset<F>)
    ensures v + ((x + (c + n)) + r) == (v + x) + ((c + r) + n)
  {
  }

  lemma {:induction false} TurnKeepsWork<F(!new)>(next: F -> seq<F>, size: F -> nat, h: Held<F>)
    requires Shrinks(next, size) && h.contents != []
    ensures Work(next, size, h) == multiset{h.contents[|h.contents| - 1]} + Work(next, size, AfterTurn(next, h))
  {
    var n := |h.contents| - 1;
    var f, rest := h.contents[n], h.(contents := h.contents[..n]);
    SplitTop(h.contents);
    BagConcat(next, size, rest.contents, [f]);
    VisitsOne(next, size, f);
    BagReversed(next, size, next(f));
    PushKeepsWork(next, size, rest, Reversed(next(f)));
    MovedBag(multiset{}, multiset{f}, Bag(next, size, rest.contents), Bag(next, size, next(f)),
             Bag(next, size, h.refused));
  }

  /** What is visited and what lies below what is refused are the whole work, each entry as often. */
  lemma {:induction false} RunKeepsWork<F(!new)>(next: F -> seq<F>, size: F -> nat, h: Held<F>)
    requires Shrinks(next, size)
    ensures multiset(Run(next, size, h).visited) + Bag(next, size, Run(next, size, h).refused) == Work(next, size, h)
    decreases Sum(size, h.contents)
  {
    if h.contents == [] {
      assert VisitsAll(next, size, []) == [];
    } else {
      TurnShrinks(next, size, h);
      TurnKeepsWork(next, size, h);
      RunKeepsWork(next, size, AfterTurn(next, h));
    }
  }

  lemma {:induction false} RefusedStays<F(!new)>(next: F -> seq<F>, size: F -> nat, h: Held<F>)
    requires Shrinks(next, size)
    ensures h.refused <= Run(next, size, h).refused
    decreases Sum(size, h.contents)
  {
    if h.contents != [] {
      TurnShrinks(next, size, h);
      PushedIs(h.(contents := h.contents[..|h.contents| - 1]), Reversed(next(h.contents[|h.contents| - 1])));
      RefusedStays(next, size, AfterTurn(next, h));
    }
  }

  /** The entries on the stack in the order they will be taken, before and after a turn that refuses nothing. */
  lemma {:induction false} TurnOrder<F>(next: F -> seq<F>, h: Held<F>)
    requires h.contents != []
    ensures var n := |h.contents| - 1;
            var f, rest := h.contents[n], Reversed(h.contents[..n]);
            && Reversed(h.contents) == [f] + rest && |rest| == n
            && (next(f) == [] || n + |next(f)| <= h.limit ==>
                  Reversed(AfterTurn(next, h).contents) == next(f) + rest && AfterTurn(next, h).refused == h.refused)
            && (next(f) != [] && n + |next(f)| > h.limit ==> AfterTurn(next, h).refused != [])
  {
    var n := |h.contents| - 1;
    var f, front := h.contents[n], h.contents[..n];
    SplitTop(h.contents);
    ReversedConcat(front, [f]);
    ReversedOne(f);
    var below := Reversed(next(f));
    PushedIs(h.(contents := front), below);
    ReversedConcat(front, below);
    ReversedTwice(next(f));
    if next(f) == [] || n + |next(f)| <= h.limit {
      assert below[..|below|] == below && below[|below|..] == [];
    }
  }

  /** Without a refusal the walk visits everything, in the order of the recursion. */
  lemma {:induction false} RunInOrder<F(!new)>(next: F -> seq<F>, size: F -> nat, h: Held<F>)
    requires Shrinks(next, size) && Run(next, size, h).refused == []
    ensures Run(next, size, h).visited == VisitsAll(next, size, Reversed(h.contents))
    decreases Sum(size, h.contents)
  {
    if h.contents == [] {
      assert VisitsAll(next, size, []) == [] && Reversed(h.contents) == [];
    } else {
      var n := |h.contents| - 1;
      var f, rest := h.contents[n], Reversed(h.contents[..n]);
      TurnShrinks(next, size, h);
      RefusedStays(next, size, AfterTurn(next, h));
      TurnOrder(next, h);
      RunInOrder(next, size, AfterTurn(next, h));
      VisitsConcat(next, size, [f], rest);
      VisitsConcat(next, size, next(f), rest);
      VisitsOne(next, size, f);
      Assoc([f], VisitsAll(next, size, next(f)), VisitsAll(next, size, rest));
    }
  }

  // ----- how high the stack grows

  function Max(a: nat, b: nat): nat {
    if a >= b then a else b
  }

  /** The height a stack needs to walk one entry, and to walk a list of them with the later ones waiting below. */
  ghost function Peak<F(!new)>(next: F -> seq<F>, size: F -> nat, f: F): (p: nat)
    requires Shrinks(next, size)
    decreases size(f), 1
  {
    assert ShrinksAt(next, size, f);
    Max(1, PeakAll(next, size, next(f)))
  }

  ghost function PeakAll<F(!new)>(next: F -> seq<F>, size: F -> nat, fs: seq<F>): (p: nat)
    requires Shrinks(next, size)
    decreases Sum(size, fs), 2, |fs|
  {
    if fs == [] then 0 else Max(|fs| - 1 + Peak(next, size, fs[0]), PeakAll(next, size, fs[1..]))
  }

  lemma PeakAtLeast<F(!new)>(next: F -> seq<F>, size: F -> nat, fs: seq<F>)
    requires Shrinks(next, size)
    ensures |fs| <= PeakAll(next, size, fs)
  {
  }

  lemma {:induction false} PeakConcat<F(!new)>(next: F -> seq<F>, size: F -> nat, a: seq<F>, b: seq<F>)
    requires Shrinks(next, size) && a != []
    ensures PeakAll(next, size, a + b) == Max(|b| + PeakAll(next, size, a), PeakAll(next, size, b))
    decreases |a|
  {
    assert (a + b)[0] == a[0] && (a + b)[1..] == a[1..] + b;
    PeakAtLeast(next, size, b);
    if |a| > 1 {
      PeakConcat(next, size, a[1..], b);
    } else {
      assert a[1..] == [] && a[1..] + b == b;
      assert PeakAll(next, size, []) == 0;
    }
  }

  lemma ConsParts<F>(f: F, rest: seq<F>)
    ensures ([f] + rest)[0] == f && ([f] + rest)[1..] == rest
  {
  }

  lemma {:induction false} PeakBelow<F(!new)>(next: F -> seq<F>, size: F -> nat, fs: seq<F>, rest: seq<F>)
    requires Shrinks(next, size)
    ensures PeakAll(next, size, fs + rest) == Max(|rest| + PeakAll(next, size, fs), PeakAll(next, size, rest))
  {
    PeakAtLeast(next, size, rest);
    if fs == [] {
      NothingBefore(rest);
    } else {
      PeakConcat(next, size, fs, rest);
    }
  }

  /** Taking the first entry off and putting what lies below it on. */
  lemma {:induction false} PeakUnfold<F(!new)>(next: F -> seq<F>, size: F -> nat, fs: seq<F>)
    requires Shrinks(next, size) && fs != []
    ensures PeakAll(next, size, fs) == Max(|fs|, PeakAll(next, size, next(fs[0]) + fs[1..]))
  {
    PeakBelow(next, size, next(fs[0]), fs[1..]);
  }

  lemma {:induction false} PeakOne<F(!new)>(next: F -> seq<F>, size: F -> nat, f: F)
    requires Shrinks(next, size)
    ensures PeakAll(next, size, [f]) == Peak(next, size, f)
  {
    assert [f][1..] == [];
    assert PeakAll(next, size, []) == 0;
  }

  /** A stack never needs more room than there are entries to walk. */
  lemma {:induction false} PeakAtMost<F(!new)>(next: F -> seq<F>, size: F -> nat, fs: seq<F>)
    requires Shrinks(next, size)
    ensures PeakAll(next, size, fs) <= Sum(size, fs) && |fs| <= Sum(size, fs)
    decreases Sum(size, fs), |fs|
  {
    if fs != [] {
      assert ShrinksAt(next, size, fs[0]);
      PeakAtMost(next, size, next(fs[0]));
      PeakAtMost(next, size, fs[1..]);
    }
  }

  /** Something is refused exactly when the walk needs more room than there is. */
  lemma {:induction false} RefusedIff<F(!new)>(next: F -> seq<F>, size: F -> nat, h: Held<F>)
    requires Shrinks(next, size) && h.refused == [] && |h.contents| <= h.limit
    ensures Run(next, size, h).refused != [] <==> PeakAll(next, size, Reversed(h.contents)) > h.limit
    decreases Sum(size, h.contents)
  {
    if h.contents == [] {
      assert Reversed(h.contents) == [];
      assert PeakAll(next, size, []) == 0;
    } else {
      var n := |h.contents| - 1;
      var f, rest := h.contents[n], Reversed(h.contents[..n]);
      TurnShrinks(next, size, h);
      TurnOrder(next, h);
      ConsParts(f, rest);
      PeakUnfold(next, size, Reversed(h.contents));
      if n + |next(f)| <= h.limit {
        RefusedIff(next, size, AfterTurn(next, h));
      } else {
        RefusedStays(next, size, AfterTurn(next, h));
        PeakAtLeast(next, size, next(f) + rest);
      }
    }
  }

  // ----- the stack itself

  const FIRST_FRAMES: nat := 256

  /** The capacity that doubling from cap on ends at. */
  function DoubledFrom(cap: nat, ceiling: nat): (l: nat)
    requires 0 < cap <= ceiling
    ensures cap <= l <= ceiling < 2 * l
    decreases ceiling - cap
  {
    if 2 * cap > ceiling then cap else DoubledFrom(2 * cap, ceiling)
  }

  /** How many entries a stack with a ceiling can ever hold: the largest 256 * 2^n within it. */
  function Limit(ceiling: int): (l: nat) {
    if ceiling < FIRST_FRAMES then 0 else DoubledFrom(FIRST_FRAMES, ceiling)
  }

  /** 256 doubled n times. */
  function Doublings(n: nat): (k: nat) {
    if n == 0 then 256 else 2 * Doublings(n - 1)
  }

  lemma {:induction false} DoubledIs(n: nat, ceiling: nat) returns (k: nat)
    requires 0 < Doublings(n) <= ceiling
    ensures DoubledFrom(Doublings(n), ceiling) == Doublings(k) && Doublings(k) <= ceiling < Doublings(k + 1)
    decreases ceiling - Doublings(n)
  {
    if Doublings(n + 1) <= ceiling {
      k := DoubledIs(n + 1, ceiling);
    } else {
      k := n;
    }
  }

  lemma LimitIs(ceiling: int)
    ensures ceiling < 256 ==> Limit(ceiling) == 0
    ensures ceiling >= 256 ==>
              exists n: nat :: Limit(ceiling) == Doublings(n) && Doublings(n) <= ceiling < Doublings(n + 1)
  {
    if ceiling >= 256 {
      var k := DoubledIs(0, ceiling);
    }
  }

  /** A heap stack that doubles on demand up to a ceiling; past it, entries are refused and a warning is raised once. */
  class WorkStack<F> {
    const ceiling: int
    var data: array<F>
    var top: nat
    var warned: bool
    ghost var refused: seq<F>

    ghost predicate Valid()
      reads this
    {
      && top <= data.Length && (warned <==> refused != [])
      && (data.Length != 0 ==> data.Length <= ceiling && DoubledFrom(data.Length, ceiling) == Limit(ceiling))
    }

    ghost function View(): (h: Held<F>)
      requires Valid()
      reads this, data
    {
      Held(data[..top], refused, Limit(ceiling))
    }

    constructor (ceiling: int)
      ensures Valid() && fresh(data) && View() == Held([], [], Limit(ceiling)) && this.ceiling == ceiling
    {
      this.ceiling := ceiling;
      data := new F[0];
      top, warned, refused := 0, false, [];
    }

    /** wd_push: the entry goes on the stack exactly when the stack can still hold one. */
    method Push(f: F)
      requires Valid()
      modifies this, data
      ensures Valid() && (data == old(data) || fresh(data))
      ensures View() == PushAll(old(View()), [f])
    {
      PushSingle(View(), f);
      if top >= data.Length {
        var cap := if data.Length != 0 then data.Length * 2 else FIRST_FRAMES;
        if cap > ceiling {
          if !warned {
            warned := true;
          }
          refused := refused + [f];
          return;
        }
        var bigger := new F[cap](_ => f);
        forall i | 0 <= i < top {
          bigger[i] := data[i];
        }
        data := bigger;
      }
      data[top] := f;
      top := top + 1;
    }

    method Pop() returns (f: F)
      requires Valid() && top > 0
      modifies `top
      ensures Valid() && old(View()) == View().(contents := View().contents + [f])
    {
      top := top - 1;
      f := data[top];
    }
  }
}
