/**
  The star re-exports of scripts/gen-py-stdlib.py: copying the entries of imported modules in rounds,
  and exactly which names have arrived where after a number of rounds.
 */
module Reexports {
  const MAX_ROUNDS: nat := 8

  datatype Detail = ClassDetail(methods: seq<string>, bases: seq<string>) | FunctionDetail(moduleQn: string)

  /** A class or a function of a module stub. */
  datatype Stub = Stub(qualifiedName: string, shortName: string, detail: Detail)

  /** The classes, or the functions, of every module. */
  type Table = map<string, seq<Stub>>

  /** One star import. */
  datatype Hop = Hop(importer: string, target: string)

  // ----- one hop

  /** An entry copied into a module: its methods and bases stay, its names become the module's. */
  function Copy(m: string, s: Stub): Stub {
    Stub(m + "." + s.shortName, s.shortName,
         match s.detail
         case ClassDetail(methods, bases) => ClassDetail(methods, bases)
         case FunctionDetail(_) => FunctionDetail(m))
  }

  function Names(ss: seq<Stub>): (xs: set<string>) {
    set s | s in ss :: s.shortName
  }

  function Merge(m: string, own: seq<Stub>, from: seq<Stub>): (ss: seq<Stub>)
    decreases |from|
  {
    if from == [] then own
    else Merge(m, if from[0].shortName in Names(own) then own else own + [Copy(m, from[0])], from[1..])
  }

  /** The entry after the ones of own is a copy. */
  lemma {:induction false} MergeGrows(m: string, own: seq<Stub>, from: seq<Stub>)
    ensures own <= Merge(m, own, from)
    ensures forall i :: |own| <= i < |Merge(m, own, from)| ==>
              exists s :: s in from && Merge(m, own, from)[i] == Copy(m, s)
    decreases |from|
  {
    if from != [] {
      var own' := if from[0].shortName in Names(own) then own else own + [Copy(m, from[0])];
      MergeGrows(m, own', from[1..]);
      var all := Merge(m, own, from);
      forall i | |own| <= i < |all|
        ensures exists s :: s in from && all[i] == Copy(m, s)
      {
        if i < |own'| {
          assert all[i] == own'[i] == Copy(m, from[0]);
        } else {
          var s :| s in from[1..] && all[i] == Copy(m, s);
          assert s in from;
        }
      }
    }
  }

  lemma NamesAppend(ss: seq<Stub>, s: Stub)
    ensures Names(ss + [s]) == Names(ss) + {s.shortName}
  {
    assert s in ss + [s];
  }

  lemma NamesFirst(ss: seq<Stub>)
    requires ss != []
    ensures Names(ss) == {ss[0].shortName} + Names(ss[1..])
  {
    assert ss == [ss[0]] + ss[1..];
  }

  /** A hop carries exactly the names of the target over. */
  lemma {:induction false} MergeNames(m: string, own: seq<Stub>, from: seq<Stub>)
    ensures Names(Merge(m, own, from)) == Names(own) + Names(from)
    decreases |from|
  {
    if from != [] {
      var own' := if from[0].shortName in Names(own) then own else own + [Copy(m, from[0])];
      NamesAppend(own, Copy(m, from[0]));
      NamesFirst(from);
      MergeNames(m, own', from[1..]);
    }
  }

  function Step(t: Table, h: Hop): (t': Table) {
    if h.importer in t && h.target in t then t[h.importer := Merge(h.importer, t[h.importer], t[h.target])] else t
  }

  lemma StepNames(t: Table, h: Hop, m: string)
    requires m in t
    ensures Names(Step(t, h)[m]) == Names(t[m]) + if h.importer == m && h.target in t then Names(t[h.target]) else {}
  {
    if h.importer == m && h.target in t {
      MergeNames(m, t[m], t[h.target]);
    }
  }

  lemma StepEntry(t: Table, h: Hop, m: string, e: Stub) returns (e': Stub)
    requires m in t && e in Step(t, h)[m] && e !in t[m]
    ensures h.importer == m && h.target in t && e' in t[h.target] && e == Copy(m, e')
  {
    MergeGrows(m, t[m], t[h.target]);
    var i :| 0 <= i < |Step(t, h)[m]| && Step(t, h)[m][i] == e;
    e' :| e' in t[h.target] && e == Copy(m, e');
  }

  function Run(t: Table, hops: seq<Hop>): (t': Table)
    ensures t'.Keys == t.Keys
  {
    if hops == [] then t else Step(Run(t, hops[..|hops| - 1]), hops[|hops| - 1])
  }

  function Rounds(t: Table, hops: seq<Hop>, k: nat): (t': Table)
    ensures t'.Keys == t.Keys
  {
    if k == 0 then t else Run(Rounds(t, hops, k - 1), hops)
  }

  // ----- paths of star imports

  /** The hops numbered p lead, first to last, from module o up to module m. */
  predicate Path(hops: seq<Hop>, o: string, m: string, p: seq<nat>)
    decreases |p|
  {
    if p == [] then o == m
    else
      var last := p[|p| - 1];
      last < |hops| && hops[last].importer == m && Path(hops, o, hops[last].target, p[..|p| - 1])
  }

  /** The rounds a path takes: a hop shares the round of the hop before it exactly when it is processed after it. */
  function Cost(p: seq<nat>): (c: nat) {
    if |p| == 0 then 0
    else if |p| == 1 then 1
    else Cost(p[..|p| - 1]) + if p[|p| - 1] <= p[|p| - 2] then 1 else 0
  }

  lemma {:induction false} CostBound(p: seq<nat>)
    ensures Cost(p) <= |p| && (p != [] ==> 1 <= Cost(p))
  {
    if |p| > 1 {
      CostBound(p[..|p| - 1]);
    }
  }

  /** The path is through k whole rounds and the first j hops of the next. */
  predicate Through(p: seq<nat>, k: nat, j: nat) {
    Cost(p) <= k || (Cost(p) == k + 1 && p != [] && p[|p| - 1] < j)
  }

  /** One more hop j. */
  lemma ThroughHop(p: seq<nat>, k: nat, j: nat)
    requires Through(p, k, j)
    ensures Through(p + [j], k, j + 1)
  {
    var q := p + [j];
    assert q[..|q| - 1] == p;
    CostBound(p);
  }

  lemma ThroughBack(p: seq<nat>, k: nat, j: nat)
    requires p != [] && p[|p| - 1] == j && Through(p, k, j + 1) && !Through(p, k, j)
    ensures Through(p[..|p| - 1], k, j)
  {
    var q := p[..|p| - 1];
    CostBound(q);
    if |p| == 1 {
      assert q == [];
    } else {
      assert p[|p| - 2] == q[|q| - 1];
    }
  }

  lemma ThroughRound(hops: seq<Hop>, o: string, m: string, p: seq<nat>, k: nat)
    requires Path(hops, o, m, p) && k > 0
    ensures Through(p, k, 0) <==> Through(p, k - 1, |hops|)
  {
  }

  function After(t: Table, hops: seq<Hop>, k: nat, j: nat): (t': Table)
    requires j <= |hops|
    ensures t'.Keys == t.Keys
  {
    Run(Rounds(t, hops, k), hops[..j])
  }

  lemma AfterHop(t: Table, hops: seq<Hop>, k: nat, j: nat)
    requires 0 < j <= |hops|
    ensures After(t, hops, k, j) == Step(After(t, hops, k, j - 1), hops[j - 1])
  {
    assert hops[..j][..j - 1] == hops[..j - 1];
  }

  lemma AfterRound(t: Table, hops: seq<Hop>, k: nat)
    ensures After(t, hops, k + 1, 0) == After(t, hops, k, |hops|) && After(t, hops, k, 0) == Rounds(t, hops, k)
  {
    assert hops[..|hops|] == hops;
  }

  /** The importers are modules. */
  predicate ImportersKnown(t: Table, hops: seq<Hop>) {
    forall i :: 0 <= i < |hops| ==> hops[i].importer in t
  }

  /** A path leads to a module. */
  lemma LastIsModule(t: Table, hops: seq<Hop>, o: string, m: string, p: seq<nat>)
    requires ImportersKnown(t, hops) && o in t && Path(hops, o, m, p)
    ensures m in t
  {
  }

  // The last hop of a path that the next hop to be processed completes.
  lemma LastHop(hops: seq<Hop>, o: string, m: string, p: seq<nat>, k: nat, j: nat)
    requires Path(hops, o, m, p) && Through(p, k, j + 1) && !Through(p, k, j)
    ensures p != [] && j < |hops| && hops[j].importer == m
    ensures Path(hops, o, hops[j].target, p[..|p| - 1]) && Through(p[..|p| - 1], k, j)
  {
    ThroughBack(p, k, j);
  }

  /** What module m holds after k rounds and j hops. */
  ghost function EntriesAt(t: Table, hops: seq<Hop>, k: nat, j: nat, m: string): seq<Stub> {
    if j <= |hops| && m in t then After(t, hops, k, j)[m] else []
  }

  ghost function NamesAt(t: Table, hops: seq<Hop>, k: nat, j: nat, m: string): set<string> {
    Names(EntriesAt(t, hops, k, j, m))
  }

  lemma AtStart(t: Table, hops: seq<Hop>, m: string)
    requires m in t
    ensures EntriesAt(t, hops, 0, 0, m) == t[m]
  {
    AfterRound(t, hops, 0);
  }

  lemma AtRound(t: Table, hops: seq<Hop>, k: nat, m: string)
    requires k > 0
    ensures EntriesAt(t, hops, k, 0, m) == EntriesAt(t, hops, k - 1, |hops|, m)
  {
    AfterRound(t, hops, k - 1);
  }

  lemma NamesAtHop(t: Table, hops: seq<Hop>, k: nat, j: nat, m: string)
    requires 0 < j <= |hops| && m in t
    ensures NamesAt(t, hops, k, j, m) ==
            NamesAt(t, hops, k, j - 1, m) +
            if hops[j - 1].importer == m then NamesAt(t, hops, k, j - 1, hops[j - 1].target) else {}
  {
    AfterHop(t, hops, k, j);
    StepNames(After(t, hops, k, j - 1), hops[j - 1], m);
  }

  lemma EntryAtHop(t: Table, hops: seq<Hop>, k: nat, j: nat, m: string, e: Stub) returns (e': Stub)
    requires 0 < j <= |hops| && e in EntriesAt(t, hops, k, j, m) && e !in EntriesAt(t, hops, k, j - 1, m)
    ensures hops[j - 1].importer == m && e' in EntriesAt(t, hops, k, j - 1, hops[j - 1].target) && e == Copy(m, e')
  {
    AfterHop(t, hops, k, j);
    e' := StepEntry(After(t, hops, k, j - 1), hops[j - 1], m, e);
  }

  /** Whatever a path brings is there once the path is through. */
  lemma {:induction false} PathBrings(t: Table, hops: seq<Hop>, k: nat, j: nat, o: string, m: string, p: seq<nat>,
                                      x: string)
    requires ImportersKnown(t, hops) && j <= |hops| && o in t && m in t
    requires Path(hops, o, m, p) && Through(p, k, j) && x in Names(t[o])
    ensures x in NamesAt(t, hops, k, j, m)
    decreases k, j
  {
    if j > 0 {
      NamesAtHop(t, hops, k, j, m);
      if Through(p, k, j - 1) {
        PathBrings(t, hops, k, j - 1, o, m, p, x);
      } else {
        LastHop(hops, o, m, p, k, j - 1);
        LastIsModule(t, hops, o, hops[j - 1].target, p[..|p| - 1]);
        PathBrings(t, hops, k, j - 1, o, hops[j - 1].target, p[..|p| - 1], x);
      }
    } else if k > 0 {
      ThroughRound(hops, o, m, p, k);
      PathBrings(t, hops, k - 1, |hops|, o, m, p, x);
      AtRound(t, hops, k, m);
    } else {
      CostBound(p);
      AtStart(t, hops, m);
    }
  }

  lemma CopyTwice(m: string, m': string, s: Stub)
    ensures Copy(m, Copy(m', s)) == Copy(m, s)
  {
  }

  /** e is the original entry s, or its copy into m when it came along a path. */
  predicate CopyOf(m: string, e: Stub, p: seq<nat>, s: Stub) {
    e == if p == [] then s else Copy(m, s)
  }

  lemma PathHop(hops: seq<Hop>, o: string, p: seq<nat>, k: nat, j: nat, e': Stub, s: Stub)
    requires j < |hops| && Path(hops, o, hops[j].target, p) && Through(p, k, j) && CopyOf(hops[j].target, e', p, s)
    ensures Path(hops, o, hops[j].importer, p + [j]) && Through(p + [j], k, j + 1)
    ensures CopyOf(hops[j].importer, Copy(hops[j].importer, e'), p + [j], s)
  {
    ThroughHop(p, k, j);
    CopyTwice(hops[j].importer, hops[j].target, s);
    assert (p + [j])[..|p|] == p;
  }

  /** Every entry has come along a path that is through, and is the copy of an original entry. */
  lemma {:induction false} EntryCame(t: Table, hops: seq<Hop>, k: nat, j: nat, m: string, e: Stub)
    returns (o: string, p: seq<nat>, s: Stub)
    requires j <= |hops| && e in EntriesAt(t, hops, k, j, m)
    ensures o in t && s in t[o] && Path(hops, o, m, p) && Through(p, k, j) && CopyOf(m, e, p, s)
    decreases k, j
  {
    if j > 0 {
      if e in EntriesAt(t, hops, k, j - 1, m) {
        o, p, s := EntryCame(t, hops, k, j - 1, m, e);
      } else {
        var e' := EntryAtHop(t, hops, k, j, m, e);
        var q;
        o, q, s := EntryCame(t, hops, k, j - 1, hops[j - 1].target, e');
        PathHop(hops, o, q, k, j - 1, e', s);
        p := q + [j - 1];
      }
    } else if k > 0 {
      AtRound(t, hops, k, m);
      o, p, s := EntryCame(t, hops, k - 1, |hops|, m, e);
      ThroughRound(hops, o, m, p, k);
    } else {
      AtStart(t, hops, m);
      o, p, s := m, [], e;
    }
  }

  /** A path from a module that has name x to m, through after k rounds. */
  ghost predicate Brought(t: Table, hops: seq<Hop>, k: nat, m: string, x: string) {
    exists o, p :: o in t && Path(hops, o, m, p) && Cost(p) <= k && x in Names(t[o])
  }

  /** Name x is to be had from m along some path. */
  ghost predicate Reachable(t: Table, hops: seq<Hop>, m: string, x: string) {
    exists o, p :: o in t && Path(hops, o, m, p) && x in Names(t[o])
  }

  /** Every reachable name has a path of cost at most k: a condition on the imports and the original names alone. */
  ghost predicate WithinCost(t: Table, hops: seq<Hop>, k: nat) {
    forall m, x :: m in t && Reachable(t, hops, m, x) ==> Brought(t, hops, k, m, x)
  }

  /** After k rounds a module holds exactly the names that a path of cost at most k brings. */
  lemma HeldIffBrought(t: Table, hops: seq<Hop>, k: nat, m: string, x: string)
    requires ImportersKnown(t, hops) && m in t
    ensures x in Names(Rounds(t, hops, k)[m]) <==> Brought(t, hops, k, m, x)
  {
    AfterRound(t, hops, k);
    if x in Names(Rounds(t, hops, k)[m]) {
      var e :| e in Rounds(t, hops, k)[m] && e.shortName == x;
      var o, p, s := EntryCame(t, hops, k, 0, m, e);
      assert x in Names(t[o]);
    }
    if Brought(t, hops, k, m, x) {
      var o, p :| o in t && Path(hops, o, m, p) && Cost(p) <= k && x in Names(t[o]);
      PathBrings(t, hops, k, 0, o, m, p, x);
    }
  }

  /** In particular all names within k hops. */
  lemma WithinHops(t: Table, hops: seq<Hop>, k: nat, o: string, m: string, p: seq<nat>, x: string)
    requires ImportersKnown(t, hops) && o in t && m in t
    requires Path(hops, o, m, p) && |p| <= k && x in Names(t[o])
    ensures x in Names(Rounds(t, hops, k)[m])
  {
    CostBound(p);
    HeldIffBrought(t, hops, k, m, x);
  }

  /** Every reachable name is held after k rounds exactly when each has a path of cost at most k. */
  lemma CompleteIff(t: Table, hops: seq<Hop>, k: nat)
    requires ImportersKnown(t, hops)
    ensures (forall m, x :: m in t && Reachable(t, hops, m, x) ==> x in Names(Rounds(t, hops, k)[m])) <==>
            WithinCost(t, hops, k)
  {
    forall m, x | m in t
      ensures x in Names(Rounds(t, hops, k)[m]) <==> Brought(t, hops, k, m, x)
    {
      HeldIffBrought(t, hops, k, m, x);
    }
  }

  // ----- what rounds keep

  /** all continues own, and no entry after own repeats a short name. */
  ghost predicate Continues(own: seq<Stub>, all: seq<Stub>) {
    && own <= all
    && forall i, j :: 0 <= i < j < |all| && |own| <= j ==> all[i].shortName != all[j].shortName
  }

  lemma ContinuesOne(own: seq<Stub>, all: seq<Stub>, s: Stub)
    requires Continues(own, all) && s.shortName !in Names(all)
    ensures Continues(own, all + [s])
  {
    forall i | 0 <= i < |all|
      ensures all[i].shortName != s.shortName
    {
      assert all[i] in all;
    }
  }

  lemma {:induction false} MergeContinues(m: string, first: seq<Stub>, own: seq<Stub>, from: seq<Stub>)
    requires Continues(first, own)
    ensures Continues(first, Merge(m, own, from))
    decreases |from|
  {
    if from != [] {
      if from[0].shortName in Names(own) {
        MergeContinues(m, first, own, from[1..]);
      } else {
        ContinuesOne(first, own, Copy(m, from[0]));
        MergeContinues(m, first, own + [Copy(m, from[0])], from[1..]);
      }
    }
  }

  ghost predicate Grown(t: Table, t': Table) {
    t'.Keys == t.Keys && forall m :: m in t ==> Continues(t[m], t'[m])
  }

  lemma StepGrows(first: Table, t: Table, h: Hop)
    requires Grown(first, t)
    ensures Grown(first, Step(t, h))
  {
    forall m | m in first
      ensures Continues(first[m], Step(t, h)[m])
    {
      if m == h.importer && h.target in t {
        MergeContinues(m, first[m], t[m], t[h.target]);
      }
    }
  }

  lemma {:induction false} RunGrows(first: Table, t: Table, hops: seq<Hop>)
    requires Grown(first, t)
    ensures Grown(first, Run(t, hops))
    decreases |hops|
  {
    if hops != [] {
      RunGrows(first, t, hops[..|hops| - 1]);
      StepGrows(first, Run(t, hops[..|hops| - 1]), hops[|hops| - 1]);
    }
  }

  /** Original entries stay in front, and no copied name is added twice. */
  lemma {:induction false} RoundsGrow(t: Table, hops: seq<Hop>, k: nat)
    ensures Grown(t, Rounds(t, hops, k))
  {
    if k > 0 {
      RoundsGrow(t, hops, k - 1);
      RunGrows(t, Rounds(t, hops, k - 1), hops);
    }
  }

  lemma GrownBack(t: Table, t': Table)
    requires Grown(t, t') && Grown(t', t)
    ensures t == t'
  {
    forall m | m in t
      ensures t[m] == t'[m]
    {
      assert Continues(t[m], t'[m]) && Continues(t'[m], t[m]);
    }
  }

  lemma Same(t: Table)
    ensures Grown(t, t)
  {
  }

  /** Entries only come: a table that has changed and grows on stays changed. */
  lemma ChangeStays(t: Table, t': Table, t'': Table)
    requires Grown(t, t') && Grown(t', t'')
    ensures t'' == t ==> t' == t
  {
    if t'' == t {
      GrownBack(t, t');
    }
  }

  lemma {:induction false} RunConcat(t: Table, a: seq<Hop>, b: seq<Hop>)
    ensures Run(t, a + b) == Run(Run(t, a), b)
    decreases |b|
  {
    if b == [] {
      assert a + b == a;
    } else {
      assert (a + b)[..|a + b| - 1] == a + b[..|b| - 1];
      RunConcat(t, a, b[..|b| - 1]);
    }
  }

  /** A round that changes nothing is a true fixed point: no single hop changes anything. */
  lemma FixedEveryHop(t: Table, hops: seq<Hop>, i: nat)
    requires Run(t, hops) == t && i < |hops|
    ensures Step(t, hops[i]) == t
  {
    Same(t);
    FixedPrefix(t, hops, i);
    FixedPrefix(t, hops, i + 1);
    assert hops[..i + 1][..i] == hops[..i];
  }

  lemma FixedPrefix(t: Table, hops: seq<Hop>, i: nat)
    requires Run(t, hops) == t && i <= |hops|
    ensures Run(t, hops[..i]) == t
  {
    Same(t);
    RunGrows(t, t, hops[..i]);
    var mid := Run(t, hops[..i]);
    Same(mid);
    RunGrows(mid, mid, hops[i..]);
    RunConcat(t, hops[..i], hops[i..]);
    assert hops[..i] + hops[i..] == hops;
    GrownBack(t, mid);
  }

  /** Round k changes nothing any more. */
  ghost predicate Settles(t: Table, hops: seq<Hop>, k: nat)
    requires k > 0
  {
    Rounds(t, hops, k) == Rounds(t, hops, k - 1)
  }

  lemma {:induction false} FixedStays(t: Table, hops: seq<Hop>, k: nat, l: nat)
    requires 0 < k <= l && Settles(t, hops, k)
    ensures Rounds(t, hops, l) == Rounds(t, hops, k) && Settles(t, hops, l)
  {
    if l > k {
      FixedStays(t, hops, k, l - 1);
      assert Rounds(t, hops, l) == Run(Rounds(t, hops, l - 1), hops);
      assert Rounds(t, hops, l - 1) == Run(Rounds(t, hops, l - 2), hops);
    }
  }

  lemma SettledHolds(t: Table, hops: seq<Hop>, k: nat, o: string, m: string, p: seq<nat>, x: string)
    requires ImportersKnown(t, hops) && o in t && m in t
    requires k > 0 && Settles(t, hops, k) && Path(hops, o, m, p) && x in Names(t[o])
    ensures x in Names(Rounds(t, hops, k)[m])
  {
    var l := k + |p|;
    FixedStays(t, hops, k, l);
    WithinHops(t, hops, l, o, m, p, x);
  }

  /** Once a round changes nothing, every reachable name is held. */
  lemma SettledIsComplete(t: Table, hops: seq<Hop>, k: nat, m: string, x: string)
    requires ImportersKnown(t, hops) && m in t
    requires k > 0 && Settles(t, hops, k) && Reachable(t, hops, m, x)
    ensures x in Names(Rounds(t, hops, k)[m])
  {
    var o, p :| o in t && Path(hops, o, m, p) && x in Names(t[o]);
    SettledHolds(t, hops, k, o, m, p, x);
  }

  // ----- exactly when a round changes nothing

  lemma {:induction false} MergeIdle(m: string, own: seq<Stub>, from: seq<Stub>)
    requires Names(from) <= Names(own)
    ensures Merge(m, own, from) == own
    decreases |from|
  {
    if from != [] {
      NamesFirst(from);
      MergeIdle(m, own, from[1..]);
    }
  }

  /** The importer has every name of the target. */
  ghost predicate Idle(t: Table, h: Hop) {
    h.importer in t && h.target in t ==> Names(t[h.target]) <= Names(t[h.importer])
  }

  lemma IdleStep(t: Table, h: Hop)
    requires Idle(t, h)
    ensures Step(t, h) == t
  {
    if h.importer in t && h.target in t {
      MergeIdle(h.importer, t[h.importer], t[h.target]);
    }
  }

  lemma {:induction false} IdleRun(t: Table, hops: seq<Hop>)
    requires forall i :: 0 <= i < |hops| ==> Idle(t, hops[i])
    ensures Run(t, hops) == t
    decreases |hops|
  {
    if hops != [] {
      IdleRun(t, hops[..|hops| - 1]);
      IdleStep(t, hops[|hops| - 1]);
    }
  }

  lemma PathOn(hops: seq<Hop>, o: string, p: seq<nat>, i: nat)
    requires i < |hops| && Path(hops, o, hops[i].target, p)
    ensures Path(hops, o, hops[i].importer, p + [i])
  {
    assert (p + [i])[..|p|] == p;
  }

  /** What the target of an import can reach, the importer can. */
  lemma ReachableOn(t: Table, hops: seq<Hop>, i: nat, x: string)
    requires i < |hops| && Reachable(t, hops, hops[i].target, x)
    ensures Reachable(t, hops, hops[i].importer, x)
  {
    var o, p :| o in t && Path(hops, o, hops[i].target, p) && x in Names(t[o]);
    PathOn(hops, o, p, i);
  }

  lemma BroughtIsReachable(t: Table, hops: seq<Hop>, k: nat, m: string, x: string)
    requires Brought(t, hops, k, m, x)
    ensures Reachable(t, hops, m, x)
  {
  }

  lemma CostMakesIdle(t: Table, hops: seq<Hop>, k: nat, i: nat)
    requires ImportersKnown(t, hops) && WithinCost(t, hops, k) && i < |hops|
    ensures Idle(Rounds(t, hops, k), hops[i])
  {
    var t', m, o := Rounds(t, hops, k), hops[i].importer, hops[i].target;
    if o in t' {
      forall x | x in Names(t'[o])
        ensures x in Names(t'[m])
      {
        HeldIffBrought(t, hops, k, o, x);
        BroughtIsReachable(t, hops, k, o, x);
        ReachableOn(t, hops, i, x);
        HeldIffBrought(t, hops, k, m, x);
      }
    }
  }

  lemma SettledWithinCost(t: Table, hops: seq<Hop>, k: nat)
    requires ImportersKnown(t, hops) && Settles(t, hops, k + 1)
    ensures WithinCost(t, hops, k)
  {
    forall m, x | m in t && Reachable(t, hops, m, x)
      ensures Brought(t, hops, k, m, x)
    {
      SettledIsComplete(t, hops, k + 1, m, x);
      HeldIffBrought(t, hops, k, m, x);
    }
  }

  /** Round k + 1 changes nothing exactly when every reachable name has a path of cost at most k. */
  lemma SettlesIff(t: Table, hops: seq<Hop>, k: nat)
    requires ImportersKnown(t, hops)
    ensures Settles(t, hops, k + 1) <==> WithinCost(t, hops, k)
    ensures Run(Rounds(t, hops, k), hops) == Rounds(t, hops, k) <==> WithinCost(t, hops, k)
  {
    if Settles(t, hops, k + 1) {
      SettledWithinCost(t, hops, k);
    }
    if WithinCost(t, hops, k) {
      forall i | 0 <= i < |hops|
        ensures Idle(Rounds(t, hops, k), hops[i])
      {
        CostMakesIdle(t, hops, k, i);
      }
      IdleRun(Rounds(t, hops, k), hops);
    }
  }

  // ----- what a table holds after some rounds, said of the entries

  /**
    An entry of m that came by star imports: along a path from a module that had an entry of this short
    name. It is qualified by m, and is the class that was there, with its methods and bases, or a function
    that is said to be in m.
   */
  ghost predicate Reexported(t: Table, hops: seq<Hop>, m: string, e: Stub) {
    exists o, p, s ::
      && Path(hops, o, m, p) && p != [] && o in t && s in t[o] && s.shortName == e.shortName
      && e.qualifiedName == m + "." + e.shortName
      && e.detail == if s.detail.ClassDetail? then s.detail else FunctionDetail(m)
  }

  lemma AddedIsNew(own: seq<Stub>, all: seq<Stub>, i: nat)
    requires Continues(own, all) && |own| <= i < |all|
    ensures all[i] !in own
  {
    forall j | 0 <= j < |own|
      ensures own[j] != all[i]
    {
      assert own[j] == all[j];
    }
  }

  lemma EntryIsReexported(t: Table, hops: seq<Hop>, k: nat, m: string, i: nat)
    requires ImportersKnown(t, hops) && m in t && |t[m]| <= i < |Rounds(t, hops, k)[m]|
    ensures Reexported(t, hops, m, Rounds(t, hops, k)[m][i])
  {
    var all := Rounds(t, hops, k)[m];
    AfterRound(t, hops, k);
    var o, p, s := EntryCame(t, hops, k, 0, m, all[i]);
    RoundsGrow(t, hops, k);
    AddedIsNew(t[m], all, i);
  }

  /** After k rounds: the original entries in front, then re-exported ones, no short name of which is repeated. */
  ghost predicate ReexportedTable(t: Table, hops: seq<Hop>, t': Table) {
    && t'.Keys == t.Keys
    && forall m :: m in t ==>
         && t[m] <= t'[m]
         && (forall i :: |t[m]| <= i < |t'[m]| ==> Reexported(t, hops, m, t'[m][i]))
         && (forall i, j :: 0 <= i < j < |t'[m]| && |t[m]| <= j ==> t'[m][i].shortName != t'[m][j].shortName)
  }

  lemma RoundsReexport(t: Table, hops: seq<Hop>, k: nat)
    requires ImportersKnown(t, hops)
    ensures ReexportedTable(t, hops, Rounds(t, hops, k))
  {
    RoundsGrow(t, hops, k);
    forall m, i | m in t && |t[m]| <= i < |Rounds(t, hops, k)[m]|
      ensures Reexported(t, hops, m, Rounds(t, hops, k)[m][i])
    {
      EntryIsReexported(t, hops, k, m, i);
    }
  }

  // ----- a chain of imports, importers first

  function Mod(i: nat): string {
    seq(i, _ => 'm')
  }

  function Chain(n: nat): (hops: seq<Hop>) {
    seq(n, i requires 0 <= i < n => Hop(Mod(i), Mod(i + 1)))
  }

  function Mods(n: nat): set<string> {
    set i: nat | i <= n :: Mod(i)
  }

  function ChainTable(n: nat, x: Stub): (t: Table) {
    map m | m in Mods(n) :: if m == Mod(n) then [x] else []
  }

  lemma ModsDiffer(i: nat, j: nat)
    requires Mod(i) == Mod(j)
    ensures i == j
  {
    assert |Mod(i)| == i;
  }

  /** The only path from the end of the chain takes the hops backwards, so every hop waits for the next round. */
  lemma {:induction false} ChainCost(n: nat, a: nat, p: seq<nat>)
    requires a <= n && Path(Chain(n), Mod(n), Mod(a), p)
    ensures |p| == Cost(p) == n - a && (p != [] ==> p[|p| - 1] == a)
    decreases |p|
  {
    if p == [] {
      ModsDiffer(n, a);
    } else {
      var q := p[..|p| - 1];
      ModsDiffer(p[|p| - 1], a);
      ChainCost(n, a + 1, q);
      assert q != [] ==> q[|q| - 1] == p[|p| - 2];
    }
  }

  lemma {:induction false} ChainPath(n: nat, a: nat) returns (p: seq<nat>)
    requires a <= n
    ensures Path(Chain(n), Mod(n), Mod(a), p)
    decreases n - a
  {
    if a == n {
      p := [];
    } else {
      var q := ChainPath(n, a + 1);
      p := q + [a];
      assert p[..|p| - 1] == q;
    }
  }

  lemma ChainOrigin(n: nat, x: Stub, o: string)
    requires o in ChainTable(n, x)
    ensures x.shortName in Names(ChainTable(n, x)[o]) <==> o == Mod(n)
  {
    var i: nat :| i <= n && o == Mod(i);
    if Mod(i) == Mod(n) {
      ModsDiffer(i, n);
      assert x in ChainTable(n, x)[o];
    }
    assert forall j: nat :: Mod(j) == Mod(i) ==> |Mod(j)| == |Mod(i)|;
  }

  /** A chain of n imports in importer-first order needs exactly n rounds; nine are more than the eight there are. */
  lemma ChainNeedsAllRounds(n: nat, k: nat, x: Stub)
    ensures x.shortName in Names(Rounds(ChainTable(n, x), Chain(n), k)[Mod(0)]) <==> k >= n
  {
    var t, hops := ChainTable(n, x), Chain(n);
    assert ImportersKnown(t, hops) && Mod(0) in t && Mod(n) in t;
    HeldIffBrought(t, hops, k, Mod(0), x.shortName);
    if Brought(t, hops, k, Mod(0), x.shortName) {
      var o, p :| o in t && Path(hops, o, Mod(0), p) && Cost(p) <= k && x.shortName in Names(t[o]);
      ChainOrigin(n, x, o);
      ChainCost(n, 0, p);
    }
    if k >= n {
      var p := ChainPath(n, 0);
      ChainCost(n, 0, p);
      ChainOrigin(n, x, Mod(n));
    }
  }
}
