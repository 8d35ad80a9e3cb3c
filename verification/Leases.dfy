/**
  The list of project leases that local mutations hold, from src/main.c: taken at the head, unlinked
  by project, and all released at the end.
 */
module Leases {
  import opened Sequences

  datatype Status = Ok | Busy | Failed

  /** What the native lock answers: a status, and whether it hands out a lease. */
  datatype Answer = Answer(status: Status, handed: bool)

  /** What beginning a mutation comes to. */
  datatype Outcome = Taken | Refused | StillAsking

  /** The first answer that is not busy decides. */
  function OutcomeOf(answers: seq<Answer>): Outcome {
    if answers == [] then StillAsking
    else if answers[0].status == Busy then OutcomeOf(answers[1..])
    else if answers[0].status == Ok && answers[0].handed then Taken
    else Refused
  }

  /** This is the first answer that does not say that the lock is busy. */
  ghost predicate DecidedBy(answers: seq<Answer>, answer: Answer) {
    exists n :: 0 <= n < |answers| && answers[n] == answer && answer.status != Busy &&
                forall j :: 0 <= j < n ==> answers[j].status == Busy
  }

  lemma {:induction false} OutcomeIs(answers: seq<Answer>)
    ensures OutcomeOf(answers) == Taken <==> DecidedBy(answers, Answer(Ok, true))
    ensures OutcomeOf(answers) == StillAsking <==> forall j :: 0 <= j < |answers| ==> answers[j].status == Busy
  {
    if answers != [] {
      var rest := answers[1..];
      OutcomeIs(rest);
      assert forall j :: 0 <= j < |rest| ==> answers[j + 1] == rest[j];
      assert forall j :: 0 < j < |answers| ==> answers[j] == rest[j - 1];
      if answers[0].status == Busy && DecidedBy(rest, Answer(Ok, true)) {
        var n :| 0 <= n < |rest| && rest[n] == Answer(Ok, true) && forall j :: 0 <= j < n ==> rest[j].status == Busy;
        assert answers[n + 1] == Answer(Ok, true);
      }
      if answers[0].status == Busy && DecidedBy(answers, Answer(Ok, true)) {
        var n :| 0 <= n < |answers| && answers[n] == Answer(Ok, true) &&
                 forall j :: 0 <= j < n ==> answers[j].status == Busy;
        assert rest[n - 1] == Answer(Ok, true);
      }
    }
  }

  /** A lease on the list. */
  datatype Entry = Entry(project: string, lease: nat)

  class LeaseNode {
    const project: string
    const lease: nat
    var next: LeaseNode?

    constructor (project: string, lease: nat, next: LeaseNode?)
      ensures this.project == project && this.lease == lease && this.next == next
    {
      this.project, this.lease, this.next := project, lease, next;
    }
  }

  function LeasesOf(es: seq<Entry>): (ls: set<nat>) {
    set e | e in es :: e.lease
  }

  /** No native lease is on the list twice. */
  predicate DistinctLeases(es: seq<Entry>) {
    forall i, j :: 0 <= i < j < |es| ==> es[i].lease != es[j].lease
  }

  /** The first entry of a project, or the number of entries. */
  function Find(es: seq<Entry>, project: string): (i: nat)
    ensures i <= |es| && (i < |es| ==> es[i].project == project) && forall j :: 0 <= j < i ==> es[j].project != project
  {
    if es == [] || es[0].project == project then 0 else 1 + Find(es[1..], project)
  }

  lemma {:induction false} FindIs(es: seq<Entry>, project: string, i: nat)
    requires i <= |es| && (i < |es| ==> es[i].project == project) && forall j :: 0 <= j < i ==> es[j].project != project
    ensures Find(es, project) == i
  {
  }

  /** Taking an entry out takes exactly its lease out. */
  lemma WithoutLease(es: seq<Entry>, i: nat)
    requires i < |es| && DistinctLeases(es)
    ensures DistinctLeases(Without(es, i)) && LeasesOf(Without(es, i)) == LeasesOf(es) - {es[i].lease}
  {
    var r := Without(es, i);
    forall j | 0 <= j < |r|
      ensures r[j] in es && r[j].lease != es[i].lease
    {
    }
    forall e | e in es && e.lease != es[i].lease
      ensures e in r
    {
      var j :| 0 <= j < |es| && es[j] == e;
      assert r[if j < i then j else j - 1] == e;
    }
  }

  lemma WithFirst(es: seq<Entry>, e: Entry)
    requires DistinctLeases(es) && e.lease !in LeasesOf(es)
    ensures DistinctLeases([e] + es) && LeasesOf([e] + es) == LeasesOf(es) + {e.lease}
  {
    forall j | 0 <= j < |es|
      ensures es[j].lease != e.lease
    {
      assert es[j] in es;
    }
    assert e in [e] + es;
    assert forall x :: x in es ==> x in [e] + es;
  }

  /** Begun and ended again, a mutation leaves the list as it was. */
  lemma EndUndoesBegin(es: seq<Entry>, e: Entry)
    ensures Without([e] + es, Find([e] + es, e.project)) == es
  {
    assert ([e] + es)[0] == e;
  }

  function EntriesOf(nodes: seq<LeaseNode>): (es: seq<Entry>)
    ensures |es| == |nodes| && forall i :: 0 <= i < |es| ==> es[i] == Entry(nodes[i].project, nodes[i].lease)
  {
    seq(|nodes|, i requires 0 <= i < |nodes| => Entry(nodes[i].project, nodes[i].lease))
  }

  function NodeAt(nodes: seq<LeaseNode>, i: nat): LeaseNode? {
    if i < |nodes| then nodes[i] else null
  }

  /** The nodes are linked in order, the last one to nothing. */
  ghost predicate Chained(nodes: seq<LeaseNode>)
    reads nodes
  {
    forall i :: 0 <= i < |nodes| ==> nodes[i].next == NodeAt(nodes, i + 1)
  }

  lemma EntriesWithout(nodes: seq<LeaseNode>, i: nat)
    requires i < |nodes|
    ensures EntriesOf(Without(nodes, i)) == Without(EntriesOf(nodes), i)
  {
  }

  // The node before it takes over the link of the node left out.
  lemma ChainedWithout(nodes: seq<LeaseNode>, i: nat)
    requires i < |nodes| && Distinct(nodes)
    requires forall j :: 0 <= j < |nodes| ==> nodes[j].next == NodeAt(nodes, if j + 1 == i then i + 1 else j + 1)
    ensures Chained(Without(nodes, i)) && Distinct(Without(nodes, i))
  {
  }

  lemma ChainedPrepend(nodes: seq<LeaseNode>, x: LeaseNode)
    requires Chained(nodes) && Distinct(nodes) && x !in nodes && x.next == NodeAt(nodes, 0)
    ensures Chained([x] + nodes) && Distinct([x] + nodes)
  {
    var all := [x] + nodes;
    forall i | 0 <= i < |all|
      ensures all[i].next == NodeAt(all, i + 1)
    {
      if i > 0 {
        assert all[i] == nodes[i - 1];
      }
    }
  }

  lemma EntriesPrepend(nodes: seq<LeaseNode>, x: LeaseNode)
    ensures EntriesOf([x] + nodes) == [Entry(x.project, x.lease)] + EntriesOf(nodes)
  {
  }

  /** The books over a list of entries: the leases held are those of the entries, each there once. */
  ghost predicate BooksOf(es: seq<Entry>, held: set<nat>, issued: nat) {
    DistinctLeases(es) && held == LeasesOf(es) && forall l :: l in held ==> l < issued
  }

  lemma BooksWithout(es: seq<Entry>, held: set<nat>, issued: nat, i: nat)
    requires BooksOf(es, held, issued) && i < |es|
    ensures BooksOf(Without(es, i), held - {es[i].lease}, issued)
  {
    WithoutLease(es, i);
  }

  class Mutation {
    var leases: LeaseNode?

    /** The native leases that are held, and a bound above every lease handed out. */
    var held: set<nat>
    var issued: nat

    ghost var spine: seq<LeaseNode>

    ghost function Entries(): (es: seq<Entry>)
      reads `spine
    {
      EntriesOf(spine)
    }

    /** The native leases held are those on the list, each there once. */
    ghost predicate Books()
      reads this
    {
      BooksOf(Entries(), held, issued)
    }

    ghost predicate Valid()
      reads this, spine
    {
      leases == NodeAt(spine, 0) && Chained(spine) && Distinct(spine) && Books()
    }

    constructor ()
      ensures Valid() && Entries() == [] && held == {} && spine == []
    {
      leases, held, issued, spine := null, {}, 0, [];
    }

    /** The native lock answers; a lease it hands out is held. */
    method Acquire(answer: Answer) returns (lease: nat)
      requires Books()
      modifies `held, `issued
      ensures lease == old(issued) && issued == old(issued) + 1
      ensures held == if answer.handed then old(held) + {lease} else old(held)
    {
      lease := issued;
      issued := issued + 1;
      if answer.handed {
        held := held + {lease};
      }
    }

    /**
      Asks as long as the lock is busy; a lease that comes with another status is given back. The answers
      are those given so far: when all are busy, it is still asking, and nothing has changed.
     */
    method AskOn(answers: seq<Answer>) returns (r: Outcome, lease: nat)
      requires Books()
      modifies `held, `issued
      ensures r == OutcomeOf(answers)
      ensures issued >= old(issued) && lease !in old(held) && (r == Taken ==> lease < issued)
      ensures held == (if r == Taken then old(held) + {lease} else old(held))
      ensures forall l :: l in held ==> l < issued
    {
      lease := issued;
      var n := 0;
      while n < |answers|
        invariant n <= |answers| && held == old(held) && issued >= old(issued) && Books()
        invariant lease !in old(held) && OutcomeOf(answers) == OutcomeOf(answers[n..])
      {
        var answer := answers[n];
        assert answers[n..][0] == answer && answers[n..][1..] == answers[n + 1..];
        lease := Acquire(answer);
        if answer.status == Ok && answer.handed {
          return Taken, lease;
        }
        if answer.handed {
          held := held - {lease};
        }
        assert held == old(held);
        if answer.status != Busy {
          return Refused, lease;
        }
        n := n + 1;
      }
      r := StillAsking;
    }

    /**
      main_local_cli_mutation_begin: a lease handed out goes to the head of the list; on every failure,
      also for want of memory, and as long as it is asking, list and held leases are as before.
     */
    method Begin(project: string, answers: seq<Answer>, memory: bool) returns (r: Outcome, lease: nat)
      requires Valid()
      modifies this
      ensures Valid() && forall x :: x in spine ==> x in old(spine) || fresh(x)
      ensures r == if project == "" then Refused
                   else if OutcomeOf(answers) == Taken && !memory then Refused else OutcomeOf(answers)
      ensures r == Taken <==> project != "" && memory && DecidedBy(answers, Answer(Ok, true))
      ensures r == StillAsking <==> project != "" && forall j :: 0 <= j < |answers| ==> answers[j].status == Busy
      ensures r == Taken ==> Entries() == [Entry(project, lease)] + old(Entries()) && lease !in old(held)
      ensures r != Taken ==> Entries() == old(Entries()) && held == old(held) && leases == old(leases)
    {
      OutcomeIs(answers);
      if project == "" {
        return Refused, 0;
      }
      r, lease := AskOn(answers);
      if r != Taken {
        return;
      }
      if !memory {
        held := held - {lease};
        assert held == old(held);
        return Refused, lease;
      }
      Prepend(project, lease);
    }

    /** A lease that is held already goes to the head of the list. */
    method Prepend(project: string, lease: nat)
      requires leases == NodeAt(spine, 0) && Chained(spine) && Distinct(spine) && DistinctLeases(Entries())
      requires lease !in LeasesOf(Entries()) && held == LeasesOf(Entries()) + {lease} &&
               forall l :: l in held ==> l < issued
      modifies `leases, `spine
      ensures Valid() && Entries() == [Entry(project, lease)] + old(Entries())
      ensures forall x :: x in spine ==> x in old(spine) || fresh(x)
    {
      WithFirst(Entries(), Entry(project, lease));
      var node := new LeaseNode(project, lease, leases);
      ChainedPrepend(spine, node);
      EntriesPrepend(spine, node);
      leases := node;
      spine := [node] + spine;
    }

    /** Walks to the first node of the project; the node before it comes along. */
    method FindNode(project: string) returns (cur: LeaseNode?, prev: LeaseNode?, ghost i: nat)
      requires Valid()
      ensures i == Find(Entries(), project)
      ensures cur == NodeAt(spine, Find(Entries(), project))
      ensures prev == if i > 0 then spine[i - 1] else null
    {
      cur, prev, i := leases, null, 0;
      while cur != null && cur.project != project
        invariant i <= |spine| && cur == (NodeAt(spine, i))
        invariant prev == (if i > 0 then spine[i - 1] else null)
        invariant forall j :: 0 <= j < i ==> Entries()[j].project != project
        decreases |spine| - i
      {
        assert spine[i].next == NodeAt(spine, i + 1);
        prev, cur := cur, cur.next;
        i := i + 1;
      }
      FindIs(Entries(), project, i);
    }

    /** Takes a node out of the links, from the pointer that leads to it. */
    method Unlink(cur: LeaseNode, prev: LeaseNode?, ghost i: nat)
      requires leases == NodeAt(spine, 0) && Chained(spine) && Distinct(spine)
      requires i < |spine| && cur == spine[i] && prev == if i > 0 then spine[i - 1] else null
      modifies `leases, `spine, if prev == null then {} else {prev}
      ensures spine == Without(old(spine), i)
      ensures leases == NodeAt(spine, 0) && Chained(spine) && Distinct(spine)
    {
      ghost var was := spine;
      if prev == null {
        leases := cur.next;
      } else {
        prev.next := cur.next;
      }
      ChainedWithout(was, i);
      spine := Without(was, i);
    }

    /** A node is unlinked and its lease released. */
    method Drop(cur: LeaseNode, prev: LeaseNode?, ghost i: nat)
      requires Valid() && i < |spine| && cur == spine[i] && prev == if i > 0 then spine[i - 1] else null
      modifies this, if prev == null then {} else {prev}
      ensures leases == NodeAt(spine, 0) && Chained(spine) && Distinct(spine) && Books()
      ensures spine == Without(old(spine), i)
    {
      BooksWithout(Entries(), held, issued, i);
      EntriesWithout(spine, i);
      Unlink(cur, prev, i);
      held := held - {cur.lease};
    }

    /** main_local_cli_mutation_end: unlinks and releases the first lease of the project, if there is one. */
    method End(project: string)
      requires Valid()
      modifies this, spine
      ensures Valid() && Entries() == Without(old(Entries()), Find(old(Entries()), project))
      ensures held == LeasesOf(Entries())
    {
      var cur, prev;
      ghost var i;
      cur, prev, i := FindNode(project);
      if cur != null {
        EntriesWithout(spine, i);
        Drop(cur, prev, i);
      }
    }

    /** main_local_cli_mutation_release_all: nothing is left on the list, and no native lease is held. */
    method ReleaseAll()
      requires Valid()
      modifies this
      ensures Valid() && Entries() == [] && held == {} && leases == null
    {
      while leases != null
        invariant Valid()
        decreases |spine|
      {
        Drop(leases, null, 0);
      }
      assert Entries() == [];
    }
  }
}
