/**
  Phase two of the build (internal/pmm/ac.c:102-138): the breadth-first pass that turns the trie
  rows into full rows, in place, and closes the output masks. The pass is described by where it
  stands: entry h of the queue is being expanded and its first c columns are done. The queue here
  has the root in front, so that the loop over the root's row is entry 0.
 */
module Failure {
  import opened Words
  import opened Bitmask
  import opened Trie

  /** The tables of the pass; masks are seen as sets of ids. */
  datatype Pass = Pass(rows: Rows, fail: seq<int>, ids: seq<set<nat>>, next: seq<int>, queue: seq<int>)

  /** What the pass leaves alone. */
  datatype Built = Built(pats: seq<Word>, k: nat, spell: seq<Word>)

  ghost predicate WellBuilt(b: Built) {
    && Spells(b.pats, b.spell)
    && (forall s, i :: 0 <= s < |b.spell| && 0 <= i < |b.spell[s]| ==> b.spell[s][i] < b.k)
  }

  // ----- finished cells, masks and links

  /** The finished transition: to the longest suffix of the extended word that is a node. */
  predicate DoneCell(b: Built, s: int, c: nat, x: int)
    requires 0 <= s < |b.spell|
  {
    0 <= x < |b.spell| && b.spell[x] == Delta(b.pats, b.spell[s], c)
  }

  /** Row s with its first done columns finished and the rest still raw trie edges. */
  ghost predicate RowUpTo(b: Built, s: int, row: seq<int>, done: nat)
    requires 0 <= s < |b.spell|
  {
    && |row| == b.k
    && forall c :: 0 <= c < b.k ==> if c < done then DoneCell(b, s, c, row[c]) else RawCell(b.spell, s, c, row[c])
  }

  ghost function ReportIds(pats: seq<Word>, w: Word): (ids: set<nat>) {
    set p: nat | p < WIDTH && Reports(pats, w, p)
  }

  predicate FailAt(b: Built, s: int, f: int)
    requires 0 <= s < |b.spell| && b.spell[s] != []
  {
    0 <= f < |b.spell| && b.spell[f] == Fail(b.pats, b.spell[s])
  }

  /** output_next links to the failure state when that state ends a pattern, below depth one. */
  predicate NextAt(b: Built, s: int, x: int)
    requires 0 <= s < |b.spell|
  {
    var w := b.spell[s];
    if |w| < 2 || LastEnding(b.pats, |b.pats|, Fail(b.pats, w)) == NO_STATE then x == NO_STATE
    else 0 <= x < |b.spell| && b.spell[x] == Fail(b.pats, w)
  }

  // ----- the order of discovery

  function Parent(w: Word): Word
    requires w != []
  {
    w[..|w| - 1]
  }

  function Last(w: Word): nat
    requires w != []
  {
    w[|w| - 1]
  }

  /** The word w hangs below a queue entry already expanded, or below entry h at a column before c. */
  ghost predicate Discovered(b: Built, queue: seq<int>, h: nat, c: nat, w: Word)
    requires forall i :: 0 <= i < |queue| ==> 0 <= queue[i] < |b.spell|
  {
    w != [] && exists i :: 0 <= i <= h && i < |queue| && b.spell[queue[i]] == Parent(w) && (i < h || Last(w) < c)
  }

  ghost predicate QueueShape(b: Built, queue: seq<int>) {
    && |queue| >= 1 && queue[0] == 0
    && (forall i :: 0 <= i < |queue| ==> 0 <= queue[i] < |b.spell|)
    && (forall i, j :: 0 <= i < j < |queue| ==> queue[i] != queue[j])
  }

  /** Depths never fall along the queue, and span at most two levels from entry h on. */
  ghost predicate QueueOrder(b: Built, queue: seq<int>, h: nat)
    requires QueueShape(b, queue)
  {
    && (forall i, j :: 0 <= i < j < |queue| ==> |b.spell[queue[i]]| <= |b.spell[queue[j]]|)
    && (h < |queue| ==> forall j :: 0 <= j < |queue| ==> |b.spell[queue[j]]| <= |b.spell[queue[h]]| + 1)
  }

  ghost predicate QueueExact(b: Built, queue: seq<int>, h: nat, c: nat)
    requires QueueShape(b, queue)
  {
    forall s :: 0 < s < |b.spell| ==> (s in queue <==> Discovered(b, queue, h, c, b.spell[s]))
  }

  /** How many columns of row s are finished. */
  function Progress(b: Built, queue: seq<int>, h: nat, c: nat, s: int): nat
    requires h <= |queue|
  {
    if s == 0 || s in queue[..h] then b.k
    else if h < |queue| && s == queue[h] then c
    else 0
  }

  ghost predicate QueueInv(b: Built, queue: seq<int>, h: nat, c: nat) {
    QueueShape(b, queue) && h <= |queue| && QueueOrder(b, queue, h) && QueueExact(b, queue, h, c)
  }

  ghost predicate RowsInv(b: Built, rows: Rows, queue: seq<int>, h: nat, c: nat) {
    && |rows| >= |b.spell| && h <= |queue|
    && forall s :: 0 <= s < |b.spell| ==> RowUpTo(b, s, rows[s], Progress(b, queue, h, c, s))
  }

  ghost predicate StatesInv(b: Built, p: Pass) {
    && |p.fail| >= |b.spell| && |p.ids| >= |b.spell| && |p.next| >= |b.spell|
    && (forall s :: 0 < s < |b.spell| && s in p.queue ==> StateDone(b, s, p.fail[s], p.ids[s], p.next[s]))
    && (forall s :: 0 <= s < |b.spell| && (s == 0 || s !in p.queue) ==> StateFresh(b, s, p.ids[s], p.next[s]))
  }

  /** The invariant of both loops of the pass. */
  ghost predicate Inv(b: Built, p: Pass, h: nat, c: nat) {
    && WellBuilt(b) && c <= b.k
    && QueueInv(b, p.queue, h, c) && RowsInv(b, p.rows, p.queue, h, c) && StatesInv(b, p)
  }

  /** The record of a queued state: failure link, mask and output link are final. */
  ghost predicate StateDone(b: Built, s: int, f: int, ids: set<nat>, next: int)
    requires 0 <= s < |b.spell|
  {
    b.spell[s] != [] && FailAt(b, s, f) && ids == ReportIds(b.pats, b.spell[s]) && NextAt(b, s, next)
  }

  ghost predicate StateFresh(b: Built, s: int, ids: set<nat>, next: int)
    requires 0 <= s < |b.spell|
  {
    ids == OwnIds(b.pats, |b.pats|, b.spell[s]) && next == NO_STATE
  }

  // ----- finding states

  lemma StateOf(b: Built, w: Word) returns (s: nat)
    requires WellBuilt(b) && IsNode(b.pats, w)
    ensures s < |b.spell| && b.spell[s] == w
  {
    assert w in b.spell;
    s :| s < |b.spell| && b.spell[s] == w;
  }

  lemma OnlyRootIsEmpty(b: Built, s: nat)
    requires WellBuilt(b) && s < |b.spell|
    ensures b.spell[s] == [] <==> s == 0
  {
  }

  /**
    When entry h is expanded, every state no deeper than it is queued, and every shallower one has
    already been expanded. This is what makes it safe to read other rows and masks.
   */
  lemma {:induction false} Shallow(b: Built, queue: seq<int>, h: nat, c: nat, s: nat)
    requires WellBuilt(b) && QueueShape(b, queue) && h < |queue|
    requires QueueOrder(b, queue, h) && QueueExact(b, queue, h, c)
    requires s < |b.spell| && |b.spell[s]| <= |b.spell[queue[h]]|
    ensures s in queue
    ensures |b.spell[s]| < |b.spell[queue[h]]| ==> s in queue[..h]
    decreases |b.spell[s]|
  {
    if s != 0 {
      var w := b.spell[s];
      OnlyRootIsEmpty(b, s);
      var t := ParentState(b, w);
      Shallow(b, queue, h, c, t);
      BelowExpanded(b, queue, h, c, w, t);
    } else {
      assert queue[0] == s;
    }
    if |b.spell[s]| < |b.spell[queue[h]]| {
      ShallowIsExpanded(b, queue, h, s);
    }
  }

  lemma ParentState(b: Built, w: Word) returns (t: nat)
    requires WellBuilt(b) && IsNode(b.pats, w) && w != []
    ensures t < |b.spell| && b.spell[t] == Parent(w)
  {
    assert w == Parent(w) + [Last(w)];
    NodePrefix(b.pats, Parent(w), Last(w));
    t := StateOf(b, Parent(w));
  }

  lemma BelowExpanded(b: Built, queue: seq<int>, h: nat, c: nat, w: Word, t: nat)
    requires QueueShape(b, queue) && h < |queue|
    requires w != [] && t < |b.spell| && b.spell[t] == Parent(w) && t in queue[..h]
    ensures Discovered(b, queue, h, c, w)
  {
    var i :| 0 <= i < |queue[..h]| && queue[..h][i] == t;
    assert queue[i] == t;
  }

  lemma ShallowIsExpanded(b: Built, queue: seq<int>, h: nat, s: nat)
    requires QueueShape(b, queue) && h < |queue| && QueueOrder(b, queue, h)
    requires s in queue && |b.spell[s]| < |b.spell[queue[h]]|
    ensures s in queue[..h]
  {
    var j :| 0 <= j < |queue| && queue[j] == s;
    assert j < h;
    assert queue[..h][j] == s;
  }

  lemma {:induction false} QueueFits(b: Built, queue: seq<int>)
    requires QueueShape(b, queue)
    ensures |queue| <= |b.spell|
  {
    DistinctStates(queue);
    SubsetCount((set x | x in queue), Range(|b.spell|));
  }

  lemma {:induction false} DistinctStates(queue: seq<int>)
    requires forall i, j :: 0 <= i < j < |queue| ==> queue[i] != queue[j]
    ensures |set x | x in queue| == |queue|
  {
    if queue != [] {
      var front, last := queue[..|queue| - 1], queue[|queue| - 1];
      DistinctStates(front);
      assert (set x | x in queue) == (set x | x in front) + {last};
      assert last !in front;
    }
  }

  function Range(n: nat): (r: set<int>)
    ensures |r| == n && forall x :: x in r <==> 0 <= x < n
  {
    if n == 0 then {} else Range(n - 1) + {n - 1}
  }

  lemma {:induction false} SubsetCount(s: set<int>, t: set<int>)
    requires s <= t
    ensures |s| <= |t|
  {
    assert t == s + (t - s);
  }

  // ----- the steps

  lemma DiscoveredStep(b: Built, queue: seq<int>, more: seq<int>, h: nat, c: nat, w: Word)
    requires QueueShape(b, queue) && h < |queue| && QueueShape(b, queue + more)
    ensures Discovered(b, queue + more, h, c + 1, w) <==>
            Discovered(b, queue, h, c, w) || w == b.spell[queue[h]] + [c]
  {
    var u := b.spell[queue[h]];
    if w != [] {
      assert w == Parent(w) + [Last(w)];
      if Discovered(b, queue + more, h, c + 1, w) {
        var i :| 0 <= i <= h && i < |queue + more| && b.spell[(queue + more)[i]] == Parent(w) &&
            (i < h || Last(w) < c + 1);
        assert (queue + more)[i] == queue[i];
      }
      if Discovered(b, queue, h, c, w) {
        var i :| 0 <= i <= h && i < |queue| && b.spell[queue[i]] == Parent(w) && (i < h || Last(w) < c);
        assert (queue + more)[i] == queue[i];
      }
    }
    if w == u + [c] {
      assert Parent(w) == u && Last(w) == c;
      assert (queue + more)[h] == queue[h];
    }
  }

  /** A child found for the first time is not in the queue yet. */
  lemma ChildIsNew(b: Built, queue: seq<int>, h: nat, c: nat, s: nat)
    requires WellBuilt(b) && QueueShape(b, queue) && h < |queue| && QueueExact(b, queue, h, c)
    requires s < |b.spell| && b.spell[s] == b.spell[queue[h]] + [c]
    ensures s > 0 && s !in queue
  {
    var w := b.spell[s];
    assert Parent(w) == b.spell[queue[h]] && Last(w) == c;
    assert forall i :: 0 <= i < h ==> b.spell[queue[i]] != Parent(w);
  }

  lemma PushShape(b: Built, queue: seq<int>, h: nat, s: nat)
    requires QueueShape(b, queue) && h < |queue| && QueueOrder(b, queue, h)
    requires s < |b.spell| && |b.spell[s]| == |b.spell[queue[h]]| + 1 && s !in queue
    ensures QueueShape(b, queue + [s]) && QueueOrder(b, queue + [s], h)
  {
  }

  lemma PushChild(b: Built, queue: seq<int>, h: nat, c: nat, s: nat)
    requires WellBuilt(b) && QueueShape(b, queue) && h < |queue|
    requires QueueOrder(b, queue, h) && QueueExact(b, queue, h, c)
    requires s < |b.spell| && b.spell[s] == b.spell[queue[h]] + [c]
    ensures QueueShape(b, queue + [s]) && QueueOrder(b, queue + [s], h) && QueueExact(b, queue + [s], h, c + 1)
  {
    ChildIsNew(b, queue, h, c, s);
    PushShape(b, queue, h, s);
    forall t | 0 < t < |b.spell|
      ensures t in queue + [s] <==> Discovered(b, queue + [s], h, c + 1, b.spell[t])
    {
      DiscoveredStep(b, queue, [s], h, c, b.spell[t]);
      assert b.spell[t] == b.spell[s] ==> t == s;
      assert t in queue <==> Discovered(b, queue, h, c, b.spell[t]);
    }
  }

  lemma SkipColumn(b: Built, queue: seq<int>, h: nat, c: nat)
    requires WellBuilt(b) && QueueShape(b, queue) && h < |queue| && QueueExact(b, queue, h, c)
    requires b.spell[queue[h]] + [c] !in b.spell
    ensures QueueExact(b, queue, h, c + 1)
  {
    forall t | 0 < t < |b.spell|
      ensures t in queue <==> Discovered(b, queue, h, c + 1, b.spell[t])
    {
      assert queue + [] == queue;
      DiscoveredStep(b, queue, [], h, c, b.spell[t]);
    }
  }

  /** The root row after the self-loops of phase one is finished. */
  lemma RootCell(b: Built, c: nat, x: int)
    requires WellBuilt(b) && RawCell(b.spell, 0, c, x)
    ensures DoneCell(b, 0, c, if x == NO_STATE then 0 else x)
  {
    assert [] + [c] == [c];
    if x == NO_STATE {
      assert LongestSuffix(b.pats, []) == [];
    }
  }

  lemma RootFinished(b: Built, c: nat, x: int)
    requires WellBuilt(b) && DoneCell(b, 0, c, x)
    ensures x != 0 ==> b.spell[x] == [c]
    ensures x == 0 ==> [c] !in b.spell
  {
    assert [] + [c] == [c];
    OnlyRootIsEmpty(b, x);
    if [c] in b.spell {
      assert IsNode(b.pats, [c]);
    }
  }

  lemma ShallowReports(b: Built, w: Word)
    requires |w| <= 1 && IsNode(b.pats, w)
    ensures ReportIds(b.pats, w) == OwnIds(b.pats, |b.pats|, w)
  {
    forall p: nat | p < |b.pats|
      ensures Reports(b.pats, w, p) <==> b.pats[p] == w
    {
      ReportsShallow(b.pats, w, p);
    }
  }

  lemma DeepReports(b: Built, w: Word)
    requires |w| >= 2 && IsNode(b.pats, w)
    ensures ReportIds(b.pats, w) == OwnIds(b.pats, |b.pats|, w) + ReportIds(b.pats, Fail(b.pats, w))
  {
    forall p: nat
      ensures p in ReportIds(b.pats, w) <==>
              p in OwnIds(b.pats, |b.pats|, w) || p in ReportIds(b.pats, Fail(b.pats, w))
    {
      DeepReportsId(b, w, Fail(b.pats, w), p);
    }
  }

  lemma DeepReportsId(b: Built, w: Word, f: Word, p: nat)
    requires |w| >= 2 && IsNode(b.pats, w) && f == Fail(b.pats, w)
    ensures p in ReportIds(b.pats, w) <==> p in OwnIds(b.pats, |b.pats|, w) || p in ReportIds(b.pats, f)
  {
    if p < |b.pats| {
      ReportsDeep(b.pats, w, p);
    }
  }

  // ----- the invariant through the pass

  /** Phase one leaves raw rows below the root, a finished root row, and every state's own patterns. */
  lemma Start(b: Built, p: Pass)
    requires WellBuilt(b) && p.queue == [0]
    requires |p.rows| >= |b.spell| && |p.fail| >= |b.spell| && |p.ids| >= |b.spell| && |p.next| >= |b.spell|
    requires RowUpTo(b, 0, p.rows[0], b.k)
    requires forall s :: 0 < s < |b.spell| ==> RawRow(b.spell, s, p.rows[s], b.k)
    requires forall s :: 0 <= s < |b.spell| ==> StateFresh(b, s, p.ids[s], p.next[s])
    ensures Inv(b, p, 0, 0)
  {
    forall s | 0 < s < |b.spell|
      ensures s !in p.queue && !Discovered(b, p.queue, 0, 0, b.spell[s])
    {
    }
    forall s | 0 <= s < |b.spell|
      ensures RowUpTo(b, s, p.rows[s], Progress(b, p.queue, 0, 0, s))
    {
    }
  }

  lemma ProgressNext(b: Built, q: seq<int>, h: nat, s: nat)
    requires h < |q|
    ensures Progress(b, q, h + 1, 0, s) == Progress(b, q, h, b.k, s)
  {
    assert q[..h + 1] == q[..h] + [q[h]];
  }

  lemma OrderNext(b: Built, q: seq<int>, h: nat)
    requires QueueShape(b, q) && QueueOrder(b, q, h) && h < |q|
    ensures QueueOrder(b, q, h + 1)
  {
  }

  lemma ExactNext(b: Built, q: seq<int>, h: nat)
    requires WellBuilt(b) && QueueShape(b, q) && QueueExact(b, q, h, b.k) && h < |q|
    ensures QueueExact(b, q, h + 1, 0)
  {
    forall s | 0 < s < |b.spell|
      ensures s in q <==> Discovered(b, q, h + 1, 0, b.spell[s])
    {
      OnlyRootIsEmpty(b, s);
      assert Last(b.spell[s]) < b.k;
      assert s in q <==> Discovered(b, q, h, b.k, b.spell[s]);
    }
  }

  /** Finishing the row of entry h is being about to expand entry h + 1. */
  lemma NextEntry(b: Built, p: Pass, h: nat)
    requires Inv(b, p, h, b.k) && h < |p.queue|
    ensures Inv(b, p, h + 1, 0)
  {
    OrderNext(b, p.queue, h);
    ExactNext(b, p.queue, h);
    forall s | 0 <= s < |b.spell|
      ensures RowUpTo(b, s, p.rows[s], Progress(b, p.queue, h + 1, 0, s))
    {
      ProgressNext(b, p.queue, h, s);
      assert RowUpTo(b, s, p.rows[s], Progress(b, p.queue, h, b.k, s));
    }
  }

  /** The entry being expanded: its own failure link is final, its row still raw from column c on. */
  lemma Entry(b: Built, p: Pass, h: nat, c: nat, r: nat)
    requires Inv(b, p, h, c) && 1 <= h < |p.queue| && r == p.queue[h]
    ensures 0 < r < |b.spell| && StateDone(b, r, p.fail[r], p.ids[r], p.next[r]) && RowUpTo(b, r, p.rows[r], c)
  {
    assert p.queue[0] != p.queue[h];
    assert r in p.queue;
    assert p.queue + [] == p.queue;
    ProgressStep(b, p.queue, [], h, c, r);
    assert RowUpTo(b, r, p.rows[r], Progress(b, p.queue, h, c, r));
  }

  /** The row of a state shallower than the entry being expanded is finished. */
  lemma ShallowRow(b: Built, rows: Rows, queue: seq<int>, h: nat, c: nat, f: nat)
    requires WellBuilt(b) && QueueInv(b, queue, h, c) && RowsInv(b, rows, queue, h, c)
    requires h < |queue| && f < |b.spell| && |b.spell[f]| < |b.spell[queue[h]]|
    ensures RowUpTo(b, f, rows[f], b.k)
  {
    Shallow(b, queue, h, c, f);
    assert Progress(b, queue, h, c, f) == b.k;
  }

  lemma FinishedCell(b: Built, f: nat, row: seq<int>, c: nat)
    requires f < |b.spell| && c < b.k && RowUpTo(b, f, row, b.k)
    ensures DoneCell(b, f, c, row[c])
  {
  }

  /** What the pass reads while it expands entry h >= 1 at column c. */
  lemma Reading(b: Built, p: Pass, h: nat, c: nat, r: nat) returns (t: nat)
    requires Inv(b, p, h, c) && 1 <= h < |p.queue| && c < b.k && r == p.queue[h]
    ensures 0 < r < |b.spell| && b.spell[r] != [] && FailAt(b, r, p.fail[r])
    ensures |p.rows[r]| == b.k && RawCell(b.spell, r, c, p.rows[r][c])
    ensures p.fail[r] != r && |p.rows[p.fail[r]]| == b.k
    ensures t == p.rows[p.fail[r]][c] && t < |b.spell|
    ensures b.spell[t] == Delta(b.pats, Fail(b.pats, b.spell[r]), c)
    ensures t in p.queue
  {
    Entry(b, p, h, c, r);
    var f := p.fail[r];
    ShallowRow(b, p.rows, p.queue, h, c, f);
    FinishedCell(b, f, p.rows[f], c);
    t := p.rows[f][c];
    assert |b.spell[t]| <= |b.spell[f] + [c]|;
    Shallow(b, p.queue, h, c, t);
  }

  lemma ProgressStep(b: Built, q: seq<int>, more: seq<int>, h: nat, c: nat, s: nat)
    requires h < |q| && q[0] == 0 && forall i, j :: 0 <= i < j < |q| ==> q[i] != q[j]
    ensures Progress(b, q + more, h, c + 1, s) == if s == q[h] && s != 0 then c + 1 else Progress(b, q, h, c, s)
    ensures s == q[h] && s != 0 ==> Progress(b, q, h, c, s) == c
    ensures s == q[h] && s == 0 ==> h == 0
  {
    assert (q + more)[..h] == q[..h];
    assert h > 0 ==> q[0] != q[h];
  }

  lemma RowStep(b: Built, s: nat, row: seq<int>, c: nat, x: int)
    requires s < |b.spell| && c < b.k && RowUpTo(b, s, row, c) && DoneCell(b, s, c, x)
    ensures RowUpTo(b, s, row[c := x], c + 1)
  {
  }

  /** One cell of the expanded row moves from raw to finished; no other row changes. */
  lemma RowsStep(b: Built, rows: Rows, rows': Rows, queue: seq<int>, more: seq<int>, h: nat, c: nat, x: int)
    requires QueueShape(b, queue) && h < |queue| && c < b.k
    requires RowsInv(b, rows, queue, h, c)
    requires DoneCell(b, queue[h], c, x)
    requires |rows[queue[h]]| == b.k && rows' == rows[queue[h] := rows[queue[h]][c := x]]
    requires h == 0 ==> x == rows[0][c]
    ensures RowsInv(b, rows', queue + more, h, c + 1)
  {
    var r := queue[h];
    forall s | 0 <= s < |b.spell|
      ensures RowUpTo(b, s, rows'[s], Progress(b, queue + more, h, c + 1, s))
    {
      assert RowUpTo(b, s, rows[s], Progress(b, queue, h, c, s));
      ProgressStep(b, queue, more, h, c, s);
      if s == r {
        if s == 0 {
          assert rows[0][c := x] == rows[0];
        } else {
          RowStep(b, s, rows[s], c, x);
        }
      }
    }
  }

  lemma SameRow(rows: Rows, r: nat, c: nat)
    requires r < |rows| && c < |rows[r]|
    ensures rows[r := rows[r][c := rows[r][c]]] == rows
  {
    assert rows[r][c := rows[r][c]] == rows[r];
  }

  /** First loop of the pass: a child of the root is queued with the root as its failure state. */
  lemma RootChild(b: Built, p: Pass, c: nat)
    requires Inv(b, p, 0, c) && c < b.k && p.rows[0][c] != 0
    ensures var s := p.rows[0][c];
            && 0 < s < |b.spell| && s !in p.queue
            && Inv(b, p.(queue := p.queue + [s], fail := p.fail[s := 0]), 0, c + 1)
  {
    var s := p.rows[0][c];
    assert RowUpTo(b, 0, p.rows[0], b.k);
    assert DoneCell(b, 0, c, s);
    RootFinished(b, c, s);
    assert [] + [c] == [c];
    ChildIsNew(b, p.queue, 0, c, s);
    PushChild(b, p.queue, 0, c, s);
    var p' := p.(queue := p.queue + [s], fail := p.fail[s := 0]);
    SameRow(p.rows, 0, c);
    RowsStep(b, p.rows, p.rows, p.queue, [s], 0, c, s);
    assert LongestSuffix(b.pats, []) == [];
    ShallowReports(b, b.spell[s]);
    assert StateFresh(b, s, p.ids[s], p.next[s]);
    assert StateDone(b, s, p'.fail[s], p'.ids[s], p'.next[s]);
    StatesKept(b, p, p', s);
  }

  lemma RootHole(b: Built, p: Pass, c: nat)
    requires Inv(b, p, 0, c) && c < b.k && p.rows[0][c] == 0
    ensures Inv(b, p, 0, c + 1)
  {
    assert RowUpTo(b, 0, p.rows[0], b.k);
    assert DoneCell(b, 0, c, 0);
    RootFinished(b, c, 0);
    assert [] + [c] == [c];
    SkipColumn(b, p.queue, 0, c);
    SameRow(p.rows, 0, c);
    RowsStep(b, p.rows, p.rows, p.queue, [], 0, c, 0);
    assert p.queue + [] == p.queue;
  }

  // Only the record of s changes; s is the only state whose membership in the queue changes.
  lemma StatesKept(b: Built, p: Pass, p': Pass, s: nat)
    requires StatesInv(b, p)
    requires 0 < s < |b.spell| && p'.queue == p.queue + [s]
    requires |p'.fail| >= |b.spell| && |p'.ids| >= |b.spell| && |p'.next| >= |b.spell|
    requires forall t :: 0 <= t < |b.spell| && t != s ==>
               p'.fail[t] == p.fail[t] && p'.ids[t] == p.ids[t] && p'.next[t] == p.next[t]
    requires s !in p.queue && StateDone(b, s, p'.fail[s], p'.ids[s], p'.next[s])
    ensures StatesInv(b, p')
  {
    forall t | 0 < t < |b.spell| && t in p'.queue
      ensures StateDone(b, t, p'.fail[t], p'.ids[t], p'.next[t])
    {
      if t != s {
        assert StateDone(b, t, p.fail[t], p.ids[t], p.next[t]);
      }
    }
    forall t | 0 <= t < |b.spell| && (t == 0 || t !in p'.queue)
      ensures StateFresh(b, t, p'.ids[t], p'.next[t])
    {
      assert StateFresh(b, t, p.ids[t], p.next[t]);
    }
  }

  lemma ChildWord(b: Built, r: nat, c: nat, s: nat, t: nat)
    requires WellBuilt(b) && r < |b.spell| && s < |b.spell| && t < |b.spell| && b.spell[r] != []
    requires b.spell[s] == b.spell[r] + [c]
    requires b.spell[t] == Delta(b.pats, Fail(b.pats, b.spell[r]), c)
    ensures |b.spell[s]| >= 2 && s > 0 && b.spell[t] == Fail(b.pats, b.spell[s])
    ensures DoneCell(b, r, c, s)
  {
    DeltaThroughFail(b.pats, b.spell[r], c);
    assert IsNode(b.pats, b.spell[s]);
  }

  ghost predicate IsLink(b: Built, t: nat, link: int)
    requires t < |b.spell|
  {
    link == if LastEnding(b.pats, |b.pats|, b.spell[t]) != NO_STATE then t else NO_STATE
  }

  function WithChild(p: Pass, s: nat, t: nat, link: int): Pass
    requires s < |p.fail| && s < |p.ids| && s < |p.next| && t < |p.ids|
  {
    p.(queue := p.queue + [s], fail := p.fail[s := t], ids := p.ids[s := p.ids[s] + p.ids[t]],
        next := p.next[s := link])
  }

  lemma MaskMerged(b: Built, p: Pass, s: nat, t: nat)
    requires WellBuilt(b) && 0 < s < |b.spell| && t < |b.spell| && |p.fail| >= |b.spell| && |p.ids| >= |b.spell| &&
             |p.next| >= |b.spell|
    requires |b.spell[s]| >= 2 && b.spell[t] == Fail(b.pats, b.spell[s])
    requires StateFresh(b, s, p.ids[s], p.next[s])
    requires if t == 0 then StateFresh(b, t, p.ids[t], p.next[t]) else StateDone(b, t, p.fail[t], p.ids[t], p.next[t])
    ensures p.ids[s] + p.ids[t] == ReportIds(b.pats, b.spell[s])
  {
    DeepReports(b, b.spell[s]);
    if t == 0 {
      ShallowReports(b, b.spell[0]);
    }
  }

  lemma ChildDone(b: Built, p: Pass, s: nat, t: nat, link: int)
    requires WellBuilt(b) && StatesInv(b, p) && 0 < s < |b.spell| && t < |b.spell| && s !in p.queue && t in p.queue
    requires |b.spell[s]| >= 2 && b.spell[t] == Fail(b.pats, b.spell[s])
    requires IsLink(b, t, link)
    ensures p.next[s] == NO_STATE
    ensures StateDone(b, s, t, p.ids[s] + p.ids[t], link)
  {
    assert StateFresh(b, s, p.ids[s], p.next[s]);
    MaskMerged(b, p, s, t);
  }

  lemma ChildRecorded(b: Built, p: Pass, s: nat, t: nat, link: int)
    requires WellBuilt(b) && StatesInv(b, p) && 0 < s < |b.spell| && t < |b.spell| && s !in p.queue && t in p.queue
    requires |b.spell[s]| >= 2 && b.spell[t] == Fail(b.pats, b.spell[s])
    requires IsLink(b, t, link)
    ensures p.next[s] == NO_STATE
    ensures StatesInv(b, WithChild(p, s, t, link))
  {
    ChildDone(b, p, s, t, link);
    StatesKept(b, p, WithChild(p, s, t, link), s);
  }

  // The queue and the rows after child s of entry h is queued.
  lemma ChildQueued(b: Built, rows: Rows, queue: seq<int>, h: nat, c: nat, r: nat, s: nat)
    requires WellBuilt(b) && QueueInv(b, queue, h, c) && RowsInv(b, rows, queue, h, c)
    requires 1 <= h < |queue| && c < b.k && r == queue[h] && |rows[r]| == b.k && s == rows[r][c]
    requires s < |b.spell| && b.spell[s] == b.spell[r] + [c] && DoneCell(b, r, c, s)
    ensures s !in queue
    ensures QueueInv(b, queue + [s], h, c + 1) && RowsInv(b, rows, queue + [s], h, c + 1)
  {
    ChildIsNew(b, queue, h, c, s);
    PushChild(b, queue, h, c, s);
    SameRow(rows, r, c);
    RowsStep(b, rows, rows, queue, [s], h, c, s);
  }

  /** Second loop, a trie edge: the child's failure state, mask and link are final when it is queued. */
  lemma Child(b: Built, p: Pass, h: nat, c: nat, r: nat, s: nat, t: nat, link: int)
    requires Inv(b, p, h, c) && 1 <= h < |p.queue| && c < b.k && r == p.queue[h]
    requires |p.rows[r]| == b.k && s == p.rows[r][c] && RawCell(b.spell, r, c, s) && b.spell[r] != []
    requires t < |b.spell| && t in p.queue
    requires b.spell[t] == Delta(b.pats, Fail(b.pats, b.spell[r]), c)
    requires IsLink(b, t, link)
    ensures 0 < s < |b.spell| && s !in p.queue && p.next[s] == NO_STATE
    ensures Inv(b, WithChild(p, s, t, link), h, c + 1)
  {
    ChildWord(b, r, c, s, t);
    ChildQueued(b, p.rows, p.queue, h, c, r, s);
    ChildRecorded(b, p, s, t, link);
  }

  /** Second loop, a hole: the cell takes the failure state's transition. */
  lemma Hole(b: Built, p: Pass, h: nat, c: nat, r: nat, t: nat)
    requires Inv(b, p, h, c) && 1 <= h < |p.queue| && c < b.k && r == p.queue[h]
    requires |p.rows[r]| == b.k && p.rows[r][c] == NO_STATE && RawCell(b.spell, r, c, NO_STATE) && b.spell[r] != []
    requires t < |b.spell| && b.spell[t] == Delta(b.pats, Fail(b.pats, b.spell[r]), c)
    ensures Inv(b, p.(rows := p.rows[r := p.rows[r][c := t]]), h, c + 1)
  {
    DeltaThroughFail(b.pats, b.spell[r], c);
    SkipColumn(b, p.queue, h, c);
    RowsStep(b, p.rows, p.rows[r := p.rows[r][c := t]], p.queue, [], h, c, t);
    assert p.queue + [] == p.queue;
    RowsDoNotMatter(b, p, p.rows[r := p.rows[r][c := t]]);
  }

  lemma RowsDoNotMatter(b: Built, p: Pass, rows: Rows)
    requires StatesInv(b, p)
    ensures StatesInv(b, p.(rows := rows))
  {
    var p' := p.(rows := rows);
    forall s | 0 < s < |b.spell| && s in p.queue
      ensures StateDone(b, s, p'.fail[s], p'.ids[s], p'.next[s])
    {
      assert StateDone(b, s, p.fail[s], p.ids[s], p.next[s]);
    }
    forall s | 0 <= s < |b.spell| && (s == 0 || s !in p.queue)
      ensures StateFresh(b, s, p'.ids[s], p'.next[s])
    {
      assert StateFresh(b, s, p.ids[s], p.next[s]);
    }
  }

  // ----- the end of the pass

  /** The finished automaton: full rows, exact masks, links one level up. */
  ghost predicate Finished(b: Built, rows: Rows, ids: seq<set<nat>>, next: seq<int>) {
    && WellBuilt(b)
    && |rows| >= |b.spell| && |ids| >= |b.spell| && |next| >= |b.spell|
    && (forall s :: 0 <= s < |b.spell| ==> RowUpTo(b, s, rows[s], b.k))
    && (forall s :: 0 <= s < |b.spell| ==> ids[s] == ReportIds(b.pats, b.spell[s]))
    && (forall s :: 0 <= s < |b.spell| ==> NextAt(b, s, next[s]))
  }

  /** Once the queue is exhausted every state has been expanded. */
  lemma {:induction false} AllExpanded(b: Built, queue: seq<int>, s: nat)
    requires WellBuilt(b) && QueueShape(b, queue) && QueueExact(b, queue, |queue|, 0)
    requires s < |b.spell|
    ensures s in queue
    decreases |b.spell[s]|
  {
    if s != 0 {
      OnlyRootIsEmpty(b, s);
      var t := ParentState(b, b.spell[s]);
      AllExpanded(b, queue, t);
      var i :| 0 <= i < |queue| && queue[i] == t;
      assert Discovered(b, queue, |queue|, 0, b.spell[s]);
    } else {
      assert queue[0] == s;
    }
  }

  lemma Finish(b: Built, p: Pass)
    requires Inv(b, p, |p.queue|, 0)
    ensures Finished(b, p.rows, p.ids, p.next)
    ensures |p.queue| == |b.spell|
  {
    assert p.queue[..|p.queue|] == p.queue;
    forall s | 0 <= s < |b.spell|
      ensures RowUpTo(b, s, p.rows[s], b.k)
      ensures p.ids[s] == ReportIds(b.pats, b.spell[s]) && NextAt(b, s, p.next[s])
      ensures s in p.queue
    {
      AllExpanded(b, p.queue, s);
      assert RowUpTo(b, s, p.rows[s], Progress(b, p.queue, |p.queue|, 0, s));
      if s == 0 {
        assert StateFresh(b, 0, p.ids[0], p.next[0]);
        ShallowReports(b, b.spell[0]);
      } else {
        assert StateDone(b, s, p.fail[s], p.ids[s], p.next[s]);
      }
    }
    QueueFits(b, p.queue);
    DistinctStates(p.queue);
    SubsetCount(Range(|b.spell|), (set x | x in p.queue));
  }
}
