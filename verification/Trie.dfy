/**
  The flat transition table of the matcher seen as rows, and the trie that phase one
  (internal/pmm/ac.c:72-99) grows in it. A ghost sequence spell gives the word of each state.
 */
module Trie {
  import opened Words
  import opened Bitmask

  const NO_STATE: int := -1

  // ----- rows of the flat table

  type Rows = seq<seq<int>>

  predicate Rectangular(rows: Rows, k: nat) {
    forall s :: 0 <= s < |rows| ==> |rows[s]| == k
  }

  /** Cell (s, c) of the rows is entry s * k + c of the table, and there is nothing else. */
  ghost predicate Flat(go: seq<int>, k: nat, rows: Rows) {
    && |go| == |rows| * k && Rectangular(rows, k)
    && forall s, c :: 0 <= s < |rows| && 0 <= c < k ==> go[Cell(|rows|, k, s, c)] == rows[s][c]
  }

  function Cell(m: nat, k: nat, s: nat, c: nat): (i: nat)
    requires s < m && c < k
    ensures i < m * k
  {
    assert (s + 1) * k <= m * k;
    s * k + c
  }

  lemma CellInjective(m: nat, k: nat, s: nat, c: nat, t: nat, d: nat)
    requires s < m && t < m && c < k && d < k && (s != t || c != d)
    ensures Cell(m, k, s, c) != Cell(m, k, t, d)
  {
    if s < t {
      assert (s + 1) * k <= t * k;
    } else if t < s {
      assert (t + 1) * k <= s * k;
    }
  }

  lemma FlatUpdate(go: seq<int>, k: nat, rows: Rows, s: nat, c: nat, v: int)
    requires Flat(go, k, rows) && s < |rows| && c < k
    ensures Flat(go[Cell(|rows|, k, s, c) := v], k, rows[s := rows[s][c := v]])
  {
    forall t, d | 0 <= t < |rows| && 0 <= d < k && (t != s || d != c)
      ensures Cell(|rows|, k, t, d) != Cell(|rows|, k, s, c)
    {
      CellInjective(|rows|, k, s, c, t, d);
    }
  }

  // ----- states and words

  /** spell lists every node of pats once, the root first. */
  ghost predicate Spells(pats: seq<Word>, spell: seq<Word>) {
    && |spell| >= 1 && spell[0] == []
    && (forall s :: 0 <= s < |spell| ==> IsNode(pats, spell[s]))
    && (forall s, t :: 0 <= s < t < |spell| ==> spell[s] != spell[t])
    && (forall w :: IsNode(pats, w) ==> w in spell)
  }

  /** A raw trie edge: NO_STATE exactly where the longer word is no node. */
  predicate RawCell(spell: seq<Word>, s: int, c: nat, x: int)
    requires 0 <= s < |spell|
  {
    if x == NO_STATE then spell[s] + [c] !in spell
    else 0 < x < |spell| && spell[x] == spell[s] + [c]
  }

  ghost predicate RawRow(spell: seq<Word>, s: int, row: seq<int>, k: nat)
    requires 0 <= s < |spell|
  {
    |row| == k && forall c :: 0 <= c < k ==> RawCell(spell, s, c, row[c])
  }

  predicate EmptyRow(row: seq<int>, k: nat) {
    |row| == k && forall c :: 0 <= c < k ==> row[c] == NO_STATE
  }

  /** The rows hold the trie of pats: raw rows for its states, empty rows beyond them. */
  ghost predicate IsTrie(pats: seq<Word>, spell: seq<Word>, rows: Rows, k: nat) {
    && Spells(pats, spell) && |spell| <= |rows|
    && (forall s :: 0 <= s < |spell| ==> RawRow(spell, s, rows[s], k))
    && (forall s :: |spell| <= s < |rows| ==> EmptyRow(rows[s], k))
  }

  lemma NewTrie(rows: Rows, k: nat)
    requires |rows| >= 1 && forall s :: 0 <= s < |rows| ==> EmptyRow(rows[s], k)
    ensures IsTrie([], [[]], rows, k)
  {
  }

  /** Beginning a new pattern adds no node. */
  lemma BeginPattern(pats: seq<Word>, spell: seq<Word>, rows: Rows, k: nat)
    requires IsTrie(pats, spell, rows, k)
    ensures IsTrie(pats + [[]], spell, rows, k)
  {
    forall u: Word
      ensures IsNode(pats + [[]], u) <==> IsNode(pats, u)
    {
      EmptyPatternAddsNone(pats, u);
    }
  }

  lemma EmptyPatternAddsNone(base: seq<Word>, u: Word)
    ensures IsNode(base + [[]], u) <==> IsNode(base, u)
  {
    NodesSplit(base + [[]]);
    assert (base + [[]])[..|base|] == base;
  }

  lemma LetterAddsOne(base: seq<Word>, w: Word, c: nat, u: Word)
    ensures IsNode(base + [w + [c]], u) <==> IsNode(base + [w], u) || u == w + [c]
  {
    NodesSplit(base + [w]);
    NodesSplit(base + [w + [c]]);
    assert (base + [w])[..|base|] == base == (base + [w + [c]])[..|base|];
    if u <= w + [c] && u != w + [c] {
      assert u == (w + [c])[..|u|] == w[..|u|];
    }
  }

  /** Reading a letter along an edge that is there. */
  lemma FollowEdge(base: seq<Word>, w: Word, c: nat, spell: seq<Word>, rows: Rows, k: nat, s: nat)
    requires IsTrie(base + [w], spell, rows, k)
    requires s < |spell| && spell[s] == w && c < k && rows[s][c] != NO_STATE
    ensures IsTrie(base + [w + [c]], spell, rows, k)
    ensures 0 < rows[s][c] < |spell| && spell[rows[s][c]] == w + [c]
  {
    assert RawCell(spell, s, c, rows[s][c]);
    forall u: Word
      ensures IsNode(base + [w + [c]], u) <==> IsNode(base + [w], u) || u == w + [c]
    {
      LetterAddsOne(base, w, c, u);
    }
  }

  lemma AddNode(base: seq<Word>, w: Word, c: nat, spell: seq<Word>)
    requires Spells(base + [w], spell) && w + [c] !in spell
    ensures Spells(base + [w + [c]], spell + [w + [c]])
    ensures forall u :: u in spell && u != [] ==> u[..|u| - 1] in spell
  {
    forall u: Word
      ensures IsNode(base + [w + [c]], u) <==> IsNode(base + [w], u) || u == w + [c]
    {
      LetterAddsOne(base, w, c, u);
    }
    forall u | u in spell && u != []
      ensures u[..|u| - 1] in spell
    {
      assert u == u[..|u| - 1] + [u[|u| - 1]];
      NodePrefix(base + [w], u[..|u| - 1], u[|u| - 1]);
    }
  }

  /** Reading a letter for which a state is added. */
  lemma AddEdge(base: seq<Word>, w: Word, c: nat, spell: seq<Word>, rows: Rows, k: nat, s: nat)
    requires IsTrie(base + [w], spell, rows, k) && |spell| < |rows|
    requires s < |spell| && spell[s] == w && c < k && rows[s][c] == NO_STATE
    ensures w + [c] !in spell
    ensures IsTrie(base + [w + [c]], spell + [w + [c]], rows[s := rows[s][c := |spell|]], k)
  {
    assert RawCell(spell, s, c, rows[s][c]);
    AddNode(base, w, c, spell);
    var rows' := rows[s := rows[s][c := |spell|]];
    forall t | 0 <= t <= |spell|
      ensures RawRow(spell + [w + [c]], t, rows'[t], k)
    {
      AddEdgeRow(spell, w, c, rows[t], k, s, t);
    }
  }

  lemma AddEdgeRow(spell: seq<Word>, w: Word, c: nat, row: seq<int>, k: nat, s: nat, t: nat)
    requires s < |spell| && spell[s] == w && c < k && w + [c] !in spell
    requires forall i, j :: 0 <= i < j < |spell| ==> spell[i] != spell[j]
    requires forall u :: u in spell && u != [] ==> u[..|u| - 1] in spell
    requires if t < |spell| then RawRow(spell, t, row, k) else t == |spell| && EmptyRow(row, k)
    ensures RawRow(spell + [w + [c]], t, if t == s then row[c := |spell|] else row, k)
  {
    var spell' := spell + [w + [c]];
    var row' := if t == s then row[c := |spell|] else row;
    forall x: nat | x < k
      ensures RawCell(spell', t, x, row'[x])
    {
      if t < |spell| {
        assert RawCell(spell, t, x, row[x]);
        if spell[t] + [x] == w + [c] {
          assert (spell[t] + [x])[..|spell[t]|] == spell[t] == w;
          assert (spell[t] + [x])[|spell[t]|] == (w + [c])[|w|];
        }
      } else {
        assert (w + [c] + [x])[..|w + [c] + [x]| - 1] == w + [c];
      }
    }
  }

  // ----- what ends at a node

  /** The ids below 64 among the first cnt patterns that are exactly w. */
  ghost function OwnIds(pats: seq<Word>, cnt: nat, w: Word): (ids: set<nat>)
    requires cnt <= |pats|
  {
    set p: nat | p < cnt && p < WIDTH && pats[p] == w
  }

  /** The last of the first cnt patterns that is exactly w. */
  function LastEnding(pats: seq<Word>, cnt: nat, w: Word): (p: int)
    requires cnt <= |pats|
    ensures NO_STATE <= p < cnt
    ensures p != NO_STATE ==> pats[p] == w && forall q :: p < q < cnt ==> pats[q] != w
    ensures p == NO_STATE ==> forall q :: 0 <= q < cnt ==> pats[q] != w
  {
    if cnt == 0 then NO_STATE
    else if pats[cnt - 1] == w then cnt - 1
    else LastEnding(pats, cnt - 1, w)
  }

  ghost predicate OwnsAt(pats: seq<Word>, cnt: nat, w: Word, ids: set<nat>, last: int)
    requires cnt <= |pats|
  {
    ids == OwnIds(pats, cnt, w) && last == LastEnding(pats, cnt, w)
  }

  /** The masks and last pattern ids that phase one leaves after cnt patterns. */
  ghost predicate HoldsOwn(pats: seq<Word>, cnt: nat, spell: seq<Word>, ids: seq<set<nat>>, list: seq<int>, m: nat)
    requires cnt <= |pats|
  {
    && |spell| <= m && |ids| == |list| == m
    && (forall s :: 0 <= s < |spell| ==> OwnsAt(pats, cnt, spell[s], ids[s], list[s]))
    && (forall s :: |spell| <= s < m ==> ids[s] == {} && list[s] == NO_STATE)
  }

  lemma NewStateOwnsNothing(pats: seq<Word>, cnt: nat, spell: seq<Word>, ids: seq<set<nat>>, list: seq<int>, m: nat,
                            w: Word)
    requires cnt <= |pats| && HoldsOwn(pats, cnt, spell, ids, list, m) && |spell| < m
    requires forall p :: 0 <= p < cnt ==> pats[p] != w
    ensures HoldsOwn(pats, cnt, spell + [w], ids, list, m)
  {
    assert OwnIds(pats, cnt, w) == {};
  }

  lemma OwnIdsGrow(pats: seq<Word>, cnt: nat, w: Word)
    requires cnt < |pats|
    ensures OwnIds(pats, cnt + 1, w) ==
            OwnIds(pats, cnt, w) + if pats[cnt] == w && cnt < WIDTH then {cnt} else {}
  {
  }

  /** Recording pattern cnt at its state s. */
  lemma RecordPattern(pats: seq<Word>, cnt: nat, spell: seq<Word>, ids: seq<set<nat>>, list: seq<int>, m: nat, s: int)
    requires cnt < |pats| && HoldsOwn(pats, cnt, spell, ids, list, m)
    requires 0 <= s < |spell| && spell[s] == pats[cnt]
    requires forall i, j :: 0 <= i < j < |spell| ==> spell[i] != spell[j]
    ensures HoldsOwn(pats, cnt + 1, spell, ids[s := ids[s] + if cnt < WIDTH then {cnt} else {}], list[s := cnt], m)
  {
    var ids' := ids[s := ids[s] + if cnt < WIDTH then {cnt} else {}];
    forall t | 0 <= t < |spell|
      ensures OwnsAt(pats, cnt + 1, spell[t], ids'[t], list[s := cnt][t])
    {
      OwnIdsGrow(pats, cnt, spell[t]);
      assert OwnsAt(pats, cnt, spell[t], ids[t], list[t]);
    }
  }

  // ----- counting

  lemma {:induction false} TotalLengthPrefix(pats: seq<Word>, p: nat)
    requires p <= |pats|
    ensures TotalLength(pats[..p]) <= TotalLength(pats)
    ensures p < |pats| ==> TotalLength(pats[..p + 1]) == TotalLength(pats[..p]) + |pats[p]|
    decreases |pats| - p
  {
    if p < |pats| {
      assert pats[..p + 1][..p] == pats[..p];
      TotalLengthPrefix(pats, p + 1);
    } else {
      assert pats[..p] == pats;
    }
  }

  /** As many states as there are distinct prefixes. */
  lemma StateCount(pats: seq<Word>, spell: seq<Word>)
    requires Spells(pats, spell)
    ensures |spell| == |Nodes(pats)|
  {
    DistinctCount(spell);
    assert (set w | w in spell) == Nodes(pats);
  }

  lemma {:induction false} DistinctCount(spell: seq<Word>)
    requires forall s, t :: 0 <= s < t < |spell| ==> spell[s] != spell[t]
    ensures |set w | w in spell| == |spell|
  {
    if spell != [] {
      var front, last := spell[..|spell| - 1], spell[|spell| - 1];
      DistinctCount(front);
      assert (set w | w in spell) == (set w | w in front) + {last};
      assert last !in front;
    }
  }
}
