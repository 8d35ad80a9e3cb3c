/**
  The stub generator of scripts/gen-py-stdlib.py at work: the worklist that loads module stubs, and
  the rounds that copy star re-exports in place.
 */
module StubTables {
  import opened Reexports

  /** The star imports of a module, in source order. */
  datatype Imports = Imports(moduleQn: string, targets: seq<string>)

  function HopsFrom(m: string, targets: seq<string>): (hops: seq<Hop>)
    ensures |hops| == |targets| && forall i :: 0 <= i < |hops| ==> hops[i] == Hop(m, targets[i])
  {
    seq(|targets|, i requires 0 <= i < |targets| => Hop(m, targets[i]))
  }

  /** All hops of one round in the order they are taken. */
  function HopsOf(order: seq<Imports>): (hops: seq<Hop>) {
    if order == [] then []
    else
      var last := order[|order| - 1];
      HopsOf(order[..|order| - 1]) + HopsFrom(last.moduleQn, last.targets)
  }

  lemma {:induction false} HopsKnown(t: Table, order: seq<Imports>)
    requires forall i :: 0 <= i < |order| ==> order[i].moduleQn in t
    ensures ImportersKnown(t, HopsOf(order))
  {
    if order != [] {
      HopsKnown(t, order[..|order| - 1]);
    }
  }

  lemma RunOne(t: Table, h: Hop)
    ensures Run(t, [h]) == Step(t, h)
  {
    assert [h][..0] == [];
    assert Run(t, []) == t;
  }

  lemma NextTarget(t: Table, m: string, targets: seq<string>, i: nat)
    requires i < |targets|
    ensures Run(t, HopsFrom(m, targets[..i + 1])) == Step(Run(t, HopsFrom(m, targets[..i])), Hop(m, targets[i]))
  {
    assert HopsFrom(m, targets[..i + 1])[..i] == HopsFrom(m, targets[..i]);
  }

  // One more module, seen from the start of the round.
  lemma NextModule(t: Table, t': Table, order: seq<Imports>, i: nat)
    requires i < |order| && t' == Run(t, HopsOf(order[..i]))
    ensures var t'' := Run(t', HopsFrom(order[i].moduleQn, order[i].targets));
            t'' == Run(t, HopsOf(order[..i + 1])) && (t'' == t <==> t' == t && t'' == t')
  {
    assert order[..i + 1][..i] == order[..i];
    RunConcat(t, HopsOf(order[..i]), HopsFrom(order[i].moduleQn, order[i].targets));
    RunsOn(t, HopsOf(order[..i]), HopsFrom(order[i].moduleQn, order[i].targets));
  }

  lemma RoundNext(t: Table, hops: seq<Hop>, k: nat)
    ensures Rounds(t, hops, k + 1) == Run(Rounds(t, hops, k), hops)
    ensures Settles(t, hops, k + 1) <==> Run(Rounds(t, hops, k), hops) == Rounds(t, hops, k)
  {
  }

  /** Copies into own what from has and own lacks, by short name. */
  method CopyMissing(m: string, own: seq<Stub>, from: seq<Stub>) returns (out: seq<Stub>, added: bool)
    ensures out == Merge(m, own, from) && (added <==> out != own)
  {
    out, added := own, false;
    var existing := Names(own);
    for i := 0 to |from|
      invariant existing == Names(out) && own <= out && (added <==> |out| > |own|)
      invariant Merge(m, out, from[i..]) == Merge(m, own, from)
    {
      assert from[i..][0] == from[i] && from[i..][1..] == from[i + 1..];
      if from[i].shortName !in existing {
        NamesAppend(out, Copy(m, from[i]));
        out := out + [Copy(m, from[i])];
        existing := existing + {from[i].shortName};
        added := true;
      }
    }
  }

  /** The modules, with the two lists of each. */
  class Modules {
    var classes: Table
    var functions: Table

    ghost predicate Valid()
      reads this
    {
      classes.Keys == functions.Keys
    }

    constructor (classes: Table, functions: Table)
      requires classes.Keys == functions.Keys
      ensures Valid() && this.classes == classes && this.functions == functions
    {
      this.classes, this.functions := classes, functions;
    }

    /** One star import: the target's classes, then its functions. */
    method TakeHop(h: Hop) returns (changed: bool)
      requires Valid() && h.importer in classes
      modifies this
      ensures Valid() && classes == Step(old(classes), h) && functions == Step(old(functions), h)
      ensures changed <==> classes != old(classes) || functions != old(functions)
    {
      if h.target !in classes {
        return false;
      }
      ghost var c0, f0 := classes, functions;
      var cs, moreClasses := CopyMissing(h.importer, classes[h.importer], classes[h.target]);
      var fs, moreFunctions := CopyMissing(h.importer, functions[h.importer], functions[h.target]);
      classes := classes[h.importer := cs];
      functions := functions[h.importer := fs];
      assert classes == c0 <==> cs == c0[h.importer];
      assert functions == f0 <==> fs == f0[h.importer];
      changed := moreClasses || moreFunctions;
    }

    /** The star imports of one module. */
    method TakeModule(m: string, targets: seq<string>) returns (changed: bool)
      requires Valid() && m in classes
      modifies this
      ensures Valid()
      ensures classes == Run(old(classes), HopsFrom(m, targets)) &&
              functions == Run(old(functions), HopsFrom(m, targets))
      ensures changed <==> classes != old(classes) || functions != old(functions)
    {
      ghost var c0, f0 := classes, functions;
      changed := false;
      var i := 0;
      while i < |targets|
        invariant i <= |targets| && Valid() && m in classes
        invariant classes == Run(c0, HopsFrom(m, targets[..i])) && functions == Run(f0, HopsFrom(m, targets[..i]))
        invariant changed <==> classes != c0 || functions != f0
      {
        ghost var c1, f1 := classes, functions;
        var more := TakeHop(Hop(m, targets[i]));
        NextTarget(c0, m, targets, i);
        NextTarget(f0, m, targets, i);
        RunsOn(c0, HopsFrom(m, targets[..i]), [Hop(m, targets[i])]);
        RunsOn(f0, HopsFrom(m, targets[..i]), [Hop(m, targets[i])]);
        RunOne(c1, Hop(m, targets[i]));
        RunOne(f1, Hop(m, targets[i]));
        changed := changed || more;
        i := i + 1;
      }
      assert targets[..i] == targets;
    }

    /** One round over all modules in their order. */
    method TakeRound(order: seq<Imports>) returns (changed: bool)
      requires Valid() && forall i :: 0 <= i < |order| ==> order[i].moduleQn in classes
      modifies this
      ensures Valid() && classes == Run(old(classes), HopsOf(order)) && functions == Run(old(functions), HopsOf(order))
      ensures changed <==> classes != old(classes) || functions != old(functions)
    {
      ghost var c0, f0 := classes, functions;
      changed := false;
      var i := 0;
      while i < |order|
        invariant i <= |order| && Valid() && classes.Keys == c0.Keys
        invariant classes == Run(c0, HopsOf(order[..i])) && functions == Run(f0, HopsOf(order[..i]))
        invariant changed <==> classes != c0 || functions != f0
      {
        ghost var c1, f1 := classes, functions;
        var more := TakeModule(order[i].moduleQn, order[i].targets);
        NextModule(c0, c1, order, i);
        NextModule(f0, f1, order, i);
        changed := changed || more;
        i := i + 1;
      }
      assert order[..i] == order;
    }

    /**
      resolve_reexports: every module holds exactly the names that a path of cost at most eight brings,
      behind its own entries those of others under its own name. These are always the tables of
      MAX_ROUNDS rounds, although it stops early at a fixed point. The result is a fixed point exactly
      when every reachable name has a path of cost at most MAX_ROUNDS in the imports; the loop sees that
      itself exactly when one round less is enough.
     */
    method ResolveReexports(order: seq<Imports>) returns (ghost settled: bool)
      requires Valid() && forall i :: 0 <= i < |order| ==> order[i].moduleQn in classes
      modifies this
      ensures Valid()
      ensures ReexportedTable(old(classes), HopsOf(order), classes)
      ensures ReexportedTable(old(functions), HopsOf(order), functions)
      ensures forall m, x :: m in classes ==>
                (x in Names(classes[m]) <==> Brought(old(classes), HopsOf(order), 8, m, x))
      ensures forall m, x :: m in functions ==>
                (x in Names(functions[m]) <==> Brought(old(functions), HopsOf(order), 8, m, x))
      ensures classes == Rounds(old(classes), HopsOf(order), MAX_ROUNDS)
      ensures functions == Rounds(old(functions), HopsOf(order), MAX_ROUNDS)
      ensures settled <==> WithinCost(old(classes), HopsOf(order), MAX_ROUNDS - 1) &&
                           WithinCost(old(functions), HopsOf(order), MAX_ROUNDS - 1)
      ensures Run(classes, HopsOf(order)) == classes <==> WithinCost(old(classes), HopsOf(order), MAX_ROUNDS)
      ensures Run(functions, HopsOf(order)) == functions <==> WithinCost(old(functions), HopsOf(order), MAX_ROUNDS)
    {
      ghost var c0, f0 := classes, functions;
      settled := ResolveWithin(order, MAX_ROUNDS);
      AllReexported(c0, order, MAX_ROUNDS);
      AllReexported(f0, order, MAX_ROUNDS);
      SettledIff(c0, order, MAX_ROUNDS);
      SettledIff(f0, order, MAX_ROUNDS);
    }

    method ResolveWithin(order: seq<Imports>, limit: nat) returns (ghost settled: bool)
      requires Valid() && limit > 0 && forall i :: 0 <= i < |order| ==> order[i].moduleQn in classes
      modifies this
      ensures Valid()
      ensures classes == Rounds(old(classes), HopsOf(order), limit)
      ensures functions == Rounds(old(functions), HopsOf(order), limit)
      ensures settled <==> Settles(old(classes), HopsOf(order), limit) && Settles(old(functions), HopsOf(order), limit)
    {
      ghost var c0, f0, hops := classes, functions, HopsOf(order);
      var changed, rounds := true, 0;
      while changed && rounds < limit
        invariant rounds <= limit && Valid() && classes.Keys == c0.Keys
        invariant classes == Rounds(c0, hops, rounds) && functions == Rounds(f0, hops, rounds)
        invariant rounds == 0 ==> changed
        invariant rounds > 0 ==> (!changed <==> Settles(c0, hops, rounds) && Settles(f0, hops, rounds))
      {
        RoundNext(c0, hops, rounds);
        RoundNext(f0, hops, rounds);
        changed := TakeRound(order);
        rounds := rounds + 1;
      }
      settled := !changed;
      if !changed {
        FixedStays(c0, hops, rounds, limit);
        FixedStays(f0, hops, rounds, limit);
      }
    }
  }

  /** What the tables hold after some rounds, said of the entries and of the names. */
  lemma AllReexported(t: Table, order: seq<Imports>, k: nat)
    requires forall i :: 0 <= i < |order| ==> order[i].moduleQn in t
    ensures ReexportedTable(t, HopsOf(order), Rounds(t, HopsOf(order), k))
    ensures forall m, x :: m in t ==>
              (x in Names(Rounds(t, HopsOf(order), k)[m]) <==> Brought(t, HopsOf(order), k, m, x))
  {
    HopsKnown(t, order);
    RoundsReexport(t, HopsOf(order), k);
    forall m, x | m in t
      ensures x in Names(Rounds(t, HopsOf(order), k)[m]) <==> Brought(t, HopsOf(order), k, m, x)
    {
      HeldIffBrought(t, HopsOf(order), k, m, x);
    }
  }

  // What the last round shows, and what one more would, in terms of the imports.
  lemma SettledIff(t: Table, order: seq<Imports>, limit: nat)
    requires limit > 0 && forall i :: 0 <= i < |order| ==> order[i].moduleQn in t
    ensures Settles(t, HopsOf(order), limit) <==> WithinCost(t, HopsOf(order), limit - 1)
    ensures Run(Rounds(t, HopsOf(order), limit), HopsOf(order)) == Rounds(t, HopsOf(order), limit) <==>
            WithinCost(t, HopsOf(order), limit)
  {
    HopsKnown(t, order);
    SettlesIff(t, HopsOf(order), limit - 1);
    SettlesIff(t, HopsOf(order), limit);
  }

  lemma RunsOn(t: Table, a: seq<Hop>, b: seq<Hop>)
    ensures Run(Run(t, a), b) == t ==> Run(t, a) == t
    ensures Run(Run(t, a), b) == t || Run(t, a) != t || Run(Run(t, a), b) != Run(t, a)
  {
    Same(t);
    RunGrows(t, t, a);
    Same(Run(t, a));
    RunGrows(Run(t, a), Run(t, a), b);
    ChangeStays(t, Run(t, a), Run(Run(t, a), b));
  }
}
