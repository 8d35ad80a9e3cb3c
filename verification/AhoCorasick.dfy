/**
  The automaton of internal/pmm/ac.c: its tables, the two build phases that fill them in place, and
  the single-text scan. Every array access is in bounds of the table that the source allocates.
 */
module AhoCorasick {
  import opened Words
  import opened Bitmask
  import opened Trie
  import opened Failure

  const BYTE_RANGE: nat := 256

  type Byte = b: nat | b < 256

  /** A text as the matcher sees it: each byte replaced by its class. */
  function MapText(alphaMap: seq<nat>, text: seq<Byte>): (w: Word)
    requires |alphaMap| == BYTE_RANGE
    ensures |w| == |text| && forall i :: 0 <= i < |text| ==> w[i] == alphaMap[text[i]]
  {
    seq(|text|, i requires 0 <= i < |text| => alphaMap[text[i]])
  }

  function MapAll(alphaMap: seq<nat>, texts: seq<seq<Byte>>): (ws: seq<Word>)
    requires |alphaMap| == BYTE_RANGE
    ensures |ws| == |texts| && forall i :: 0 <= i < |texts| ==> ws[i] == MapText(alphaMap, texts[i])
  {
    seq(|texts|, i requires 0 <= i < |texts| => MapText(alphaMap, texts[i]))
  }

  ghost function IdsOf(output: seq<Mask>): (ids: seq<set<nat>>)
    ensures |ids| == |output| && forall s :: 0 <= s < |output| ==> ids[s] == Ids(output[s])
  {
    seq(|output|, s requires 0 <= s < |output| => Ids(output[s]))
  }

  // ----- phase one on values

  datatype Growth = Growth(go: seq<int>, rows: Rows, spell: seq<Word>, ids: seq<set<nat>>, list: seq<int>)

  ghost predicate Grown(pats: seq<Word>, k: nat, m: nat, base: seq<Word>, cnt: nat, g: Growth)
    requires cnt <= |pats|
  {
    && |g.rows| == m && Flat(g.go, k, g.rows) && IsTrie(base, g.spell, g.rows, k)
    && HoldsOwn(pats, cnt, g.spell, g.ids, g.list, m)
  }

  function EmptyRows(m: nat, k: nat): (rows: Rows)
    ensures |rows| == m && forall s :: 0 <= s < m ==> EmptyRow(rows[s], k)
  {
    seq(m, s => seq(k, c => NO_STATE))
  }

  lemma GrowStart(pats: seq<Word>, k: nat, m: nat, g: Growth)
    requires m >= 1 && |g.go| == m * k && |g.ids| == |g.list| == m
    requires g.spell == [[]] && g.rows == EmptyRows(m, k)
    requires forall i :: 0 <= i < |g.go| ==> g.go[i] == NO_STATE
    requires forall i :: 0 <= i < m ==> g.ids[i] == {} && g.list[i] == NO_STATE
    ensures Grown(pats, k, m, pats[..0], 0, g)
  {
    NewTrie(g.rows, k);
    assert pats[..0] == [];
    assert OwnIds(pats, 0, []) == {};
    forall s, c | 0 <= s < m && 0 <= c < k
      ensures g.go[Cell(m, k, s, c)] == g.rows[s][c]
    {
    }
  }

  lemma GrowBegin(pats: seq<Word>, k: nat, m: nat, p: nat, g: Growth)
    requires p < |pats| && Grown(pats, k, m, pats[..p], p, g)
    ensures Grown(pats, k, m, pats[..p] + [[]], p, g)
  {
    BeginPattern(pats[..p], g.spell, g.rows, k);
  }

  function WithEdge(k: nat, m: nat, g: Growth, s: nat, c: nat, w: Word): Growth
    requires s < m && c < k && |g.go| == m * k && |g.rows| == m && |g.rows[s]| == k
  {
    g.(go := g.go[Cell(m, k, s, c) := |g.spell|], rows := g.rows[s := g.rows[s][c := |g.spell|]],
        spell := g.spell + [w + [c]])
  }

  lemma GrowCell(pats: seq<Word>, k: nat, m: nat, p: nat, w: Word, c: nat, g: Growth, s: nat)
    requires p < |pats| && Grown(pats, k, m, pats[..p] + [w], p, g)
    requires s < |g.spell| && g.spell[s] == w && c < k
    ensures g.go[Cell(m, k, s, c)] == g.rows[s][c]
    ensures g.rows[s][c] != NO_STATE ==>
              0 <= g.rows[s][c] < |g.spell| && g.spell[g.rows[s][c]] == w + [c] &&
              Grown(pats, k, m, pats[..p] + [w + [c]], p, g)
  {
    if g.rows[s][c] != NO_STATE {
      FollowEdge(pats[..p], w, c, g.spell, g.rows, k, s);
    }
  }

  lemma GrowEdge(pats: seq<Word>, k: nat, m: nat, p: nat, w: Word, c: nat, g: Growth, s: nat)
    requires p < |pats| && Grown(pats, k, m, pats[..p] + [w], p, g) && |g.spell| < m
    requires s < |g.spell| && g.spell[s] == w && c < k && g.rows[s][c] == NO_STATE
    ensures Grown(pats, k, m, pats[..p] + [w + [c]], p, WithEdge(k, m, g, s, c, w))
  {
    AddEdge(pats[..p], w, c, g.spell, g.rows, k, s);
    NotAnEarlierPattern(pats, p, w, c, g.spell);
    NewStateOwnsNothing(pats, p, g.spell, g.ids, g.list, m, w + [c]);
    FlatUpdate(g.go, k, g.rows, s, c, |g.spell|);
  }

  function WithRecord(g: Growth, s: nat, p: nat): Growth
    requires s < |g.ids| && s < |g.list|
  {
    g.(ids := g.ids[s := g.ids[s] + if p < WIDTH then {p} else {}], list := g.list[s := p])
  }

  lemma GrowRecord(pats: seq<Word>, k: nat, m: nat, p: nat, g: Growth, s: nat)
    requires p < |pats| && Grown(pats, k, m, pats[..p + 1], p, g)
    requires s < |g.spell| && g.spell[s] == pats[p]
    ensures Grown(pats, k, m, pats[..p + 1], p + 1, WithRecord(g, s, p))
  {
    RecordPattern(pats, p, g.spell, g.ids, g.list, m, s);
  }

  lemma IdsOfUpdate(masks: seq<Mask>, s: nat, mask: Mask, extra: set<nat>)
    requires s < |masks| && Ids(mask) == Ids(masks[s]) + extra
    ensures IdsOf(masks[s := mask]) == IdsOf(masks)[s := IdsOf(masks)[s] + extra]
  {
  }

  // ----- phase one in place

  /** The edge from state on letter c, added when it is missing. */
  method ReadLetter(go: array<int>, k: nat, m: nat, state: nat, c: nat, n: nat,
                    ghost pats: seq<Word>, ghost p: nat, ghost w: Word, ghost g: Growth)
    returns (next: nat, count: nat, ghost g': Growth)
    requires p < |pats| && c < k && n < m
    requires go[..] == g.go && n == |g.spell| && Grown(pats, k, m, pats[..p] + [w], p, g)
    requires state < n && g.spell[state] == w
    modifies go
    ensures go[..] == g'.go && count == |g'.spell| && Grown(pats, k, m, pats[..p] + [w + [c]], p, g')
    ensures g'.ids == g.ids && g'.list == g.list && n <= count <= n + 1
    ensures next < count && g'.spell[next] == w + [c]
  {
    count, g' := n, g;
    var idx := Cell(m, k, state, c);
    GrowCell(pats, k, m, p, w, c, g, state);
    if go[idx] == NO_STATE {
      GrowEdge(pats, k, m, p, w, c, g, state);
      go[idx] := n;
      g' := WithEdge(k, m, g, state, c, w);
      count := n + 1;
    }
    next := go[idx];
  }

  /** Letter j of a pattern. */
  method ReadNext(go: array<int>, k: nat, m: nat, state: nat, c: nat, n: nat,
                  ghost pats: seq<Word>, ghost p: nat, ghost w: Word, ghost j: nat, ghost g: Growth)
    returns (next: nat, count: nat, ghost g': Growth)
    requires p < |pats| && j < |w| && c == w[j] < k && n < m
    requires go[..] == g.go && n == |g.spell| && Grown(pats, k, m, pats[..p] + [w[..j]], p, g)
    requires state < n && g.spell[state] == w[..j]
    modifies go
    ensures go[..] == g'.go && count == |g'.spell| && Grown(pats, k, m, pats[..p] + [w[..j + 1]], p, g')
    ensures g'.ids == g.ids && g'.list == g.list && n <= count <= n + 1
    ensures next < count && g'.spell[next] == w[..j + 1]
  {
    assert w[..j] + [w[j]] == w[..j + 1];
    next, count, g' := ReadLetter(go, k, m, state, c, n, pats, p, w[..j], g);
  }

  /** The letters of one pattern, from the root on. */
  method ReadLetters(go: array<int>, alphaMap: seq<nat>, k: nat, m: nat, text: seq<Byte>, n: nat,
                     ghost pats: seq<Word>, ghost p: nat, ghost w: Word, ghost g: Growth)
    returns (state: nat, count: nat, ghost g': Growth)
    requires |alphaMap| == BYTE_RANGE && forall i :: 0 <= i < BYTE_RANGE ==> alphaMap[i] < k
    requires p < |pats| && w == MapText(alphaMap, text) && n + |text| <= m
    requires go[..] == g.go && n == |g.spell| && Grown(pats, k, m, pats[..p] + [w[..0]], p, g)
    modifies go
    ensures go[..] == g'.go && count == |g'.spell| && Grown(pats, k, m, pats[..p] + [w[..|text|]], p, g')
    ensures g'.ids == g.ids && g'.list == g.list && count <= n + |text|
    ensures state < count && g'.spell[state] == w[..|text|]
  {
    state, count, g' := 0, n, g;
    var j := 0;
    while j < |text|
      invariant 0 <= j <= |text|
      invariant go[..] == g'.go && count == |g'.spell| && Grown(pats, k, m, pats[..p] + [w[..j]], p, g')
      invariant g'.ids == g.ids && g'.list == g.list && count <= n + j
      invariant state < count && g'.spell[state] == w[..j]
    {
      state, count, g' := ReadNext(go, k, m, state, alphaMap[text[j]], count, pats, p, w, j, g');
      j := j + 1;
    }
  }

  /** Walks one pattern into the trie; returns its state and the new state count. */
  method InsertPattern(go: array<int>, alphaMap: seq<nat>, k: nat, m: nat, text: seq<Byte>, n: nat,
                       ghost pats: seq<Word>, ghost p: nat, ghost g: Growth)
    returns (state: nat, count: nat, ghost g': Growth)
    requires |alphaMap| == BYTE_RANGE && forall i :: 0 <= i < BYTE_RANGE ==> alphaMap[i] < k
    requires p < |pats| && pats[p] == MapText(alphaMap, text) && n + |text| <= m
    requires go[..] == g.go && n == |g.spell| && Grown(pats, k, m, pats[..p], p, g)
    modifies go
    ensures go[..] == g'.go && count == |g'.spell| && Grown(pats, k, m, pats[..p + 1], p, g')
    ensures g'.ids == g.ids && g'.list == g.list && count <= n + |text|
    ensures state < count && g'.spell[state] == pats[p]
  {
    GrowBegin(pats, k, m, p, g);
    assert pats[p][..0] == [];
    assert pats[p][..|text|] == pats[p];
    assert pats[..p] + [pats[p]] == pats[..p + 1];
    state, count, g' := ReadLetters(go, alphaMap, k, m, text, n, pats, p, pats[p], g);
  }

  /** Sets the bit of pattern p, when it has one, and makes p the last pattern of its state. */
  method Record(output: array<Mask>, list: array<int>, m: nat, state: nat, p: nat,
                ghost pats: seq<Word>, ghost g: Growth, ghost k: nat)
    returns (ghost g': Growth)
    requires p < |pats| && Grown(pats, k, m, pats[..p + 1], p, g)
    requires IdsOf(output[..]) == g.ids && list[..] == g.list
    requires state < |g.spell| && g.spell[state] == pats[p] && (list as object) != (output as object)
    modifies output, list
    ensures IdsOf(output[..]) == g'.ids && list[..] == g'.list
    ensures g'.go == g.go && g'.rows == g.rows && g'.spell == g.spell
    ensures Grown(pats, k, m, pats[..p + 1], p + 1, g')
  {
    GrowRecord(pats, k, m, p, g, state);
    g' := WithRecord(g, state, p);
    SetBit(output, state, p);
    ghost var masks := output[..];
    list[state] := p;
    assert output[..] == masks;
  }

  method SetBit(output: array<Mask>, state: nat, p: nat)
    requires state < output.Length
    modifies output
    ensures var ids := IdsOf(old(output[..]));
            IdsOf(output[..]) == ids[state := ids[state] + if p < WIDTH then {p} else {}]
  {
    ghost var masks := output[..];
    var mask := output[state];
    if p < WIDTH {
      mask := WithBit(mask, p);
    }
    IdsOfUpdate(masks, state, mask, if p < WIDTH then {p} else {});
    output[state] := mask;
    assert output[..] == masks[state := mask];
  }

  predicate Separate(go: array<int>, output: array<Mask>, list: array<int>) {
    go != list && (go as object) != (output as object) && (list as object) != (output as object)
  }

  /** One pattern of phase one. */
  method AddPattern(go: array<int>, output: array<Mask>, list: array<int>, alphaMap: seq<nat>, k: nat,
                    text: seq<Byte>, p: nat, n: nat, ghost pats: seq<Word>, ghost g: Growth)
    returns (count: nat, ghost g': Growth)
    requires |alphaMap| == BYTE_RANGE && forall i :: 0 <= i < BYTE_RANGE ==> alphaMap[i] < k
    requires p < |pats| && pats[p] == MapText(alphaMap, text) && n + |text| <= output.Length &&
             Separate(go, output, list)
    requires go[..] == g.go && IdsOf(output[..]) == g.ids && list[..] == g.list && n == |g.spell|
    requires Grown(pats, k, output.Length, pats[..p], p, g)
    modifies go, output, list
    ensures go[..] == g'.go && IdsOf(output[..]) == g'.ids && list[..] == g'.list && count == |g'.spell|
    ensures Grown(pats, k, output.Length, pats[..p + 1], p + 1, g') && count <= n + |text|
  {
    ghost var masks, last := output[..], list[..];
    var state: nat;
    state, count, g' := InsertPattern(go, alphaMap, k, output.Length, text, n, pats, p, g);
    assert output[..] == masks && list[..] == last;
    ghost var table := go[..];
    g' := Record(output, list, output.Length, state, p, pats, g', k);
    assert go[..] == table;
  }

  /** Phase one: the trie of the patterns in the flat table; returns the state count. */
  method BuildTrie(go: array<int>, output: array<Mask>, list: array<int>, alphaMap: seq<nat>, k: nat,
                   patterns: seq<seq<Byte>>, ghost pats: seq<Word>)
    returns (n: nat, ghost g: Growth)
    requires |alphaMap| == BYTE_RANGE && forall i :: 0 <= i < BYTE_RANGE ==> alphaMap[i] < k
    requires pats == MapAll(alphaMap, patterns)
    requires output.Length == list.Length == 1 + TotalLength(pats) && go.Length == output.Length * k &&
             Separate(go, output, list)
    requires forall i :: 0 <= i < go.Length ==> go[i] == NO_STATE
    requires forall i :: 0 <= i < output.Length ==> Ids(output[i]) == {} && list[i] == NO_STATE
    modifies go, output, list
    ensures go[..] == g.go && IdsOf(output[..]) == g.ids && list[..] == g.list && n == |g.spell| <= output.Length
    ensures TrieBuilt(pats, k, output.Length, g)
  {
    n := 1;
    g := Growth(go[..], EmptyRows(output.Length, k), [[]], IdsOf(output[..]), list[..]);
    GrowStart(pats, k, output.Length, g);
    for p := 0 to |patterns|
      invariant go[..] == g.go && IdsOf(output[..]) == g.ids && list[..] == g.list && n == |g.spell|
      invariant Grown(pats, k, output.Length, pats[..p], p, g) && n <= 1 + TotalLength(pats[..p])
    {
      TotalLengthPrefix(pats, p);
      TotalLengthPrefix(pats, p + 1);
      n, g := AddPattern(go, output, list, alphaMap, k, patterns[p], p, n, pats, g);
    }
    assert pats[..|pats|] == pats;
    AllLettersInRange(alphaMap, k, patterns, pats, g.spell);
    ghost var masks, last := output[..], list[..];
    g := AddRootLoops(go, k, output.Length, pats, g);
    assert output[..] == masks && list[..] == last;
  }

  lemma AllLettersInRange(alphaMap: seq<nat>, k: nat, patterns: seq<seq<Byte>>, pats: seq<Word>, spell: seq<Word>)
    requires |alphaMap| == BYTE_RANGE && forall i :: 0 <= i < BYTE_RANGE ==> alphaMap[i] < k
    requires pats == MapAll(alphaMap, patterns) && Spells(pats, spell)
    ensures WellBuilt(Built(pats, k, spell))
  {
    LettersInRange(pats, k, spell);
  }

  /** What phase one hands to phase two. */
  ghost predicate TrieBuilt(pats: seq<Word>, k: nat, m: nat, g: Growth) {
    && WellBuilt(Built(pats, k, g.spell)) && |g.spell| <= m
    && |g.rows| == m && Flat(g.go, k, g.rows)
    && RowUpTo(Built(pats, k, g.spell), 0, g.rows[0], k)
    && (forall s :: 0 < s < |g.spell| ==> RawRow(g.spell, s, g.rows[s], k))
    && HoldsOwn(pats, |pats|, g.spell, g.ids, g.list, m)
  }

  /** Root self-loops for letters that begin no pattern. */
  method AddRootLoops(go: array<int>, k: nat, m: nat, ghost pats: seq<Word>, ghost g: Growth)
    returns (ghost g': Growth)
    requires go[..] == g.go && Grown(pats, k, m, pats, |pats|, g) && WellBuilt(Built(pats, k, g.spell))
    modifies go
    ensures go[..] == g'.go && g'.ids == g.ids && g'.list == g.list && g'.spell == g.spell
    ensures TrieBuilt(pats, k, m, g')
  {
    g' := g;
    for c := 0 to k
      invariant go[..] == g'.go && Looping(pats, k, m, g, g', c)
    {
      LoopStep(pats, k, m, g, g', c);
      if go[c] == NO_STATE {
        go[c] := 0;
        g' := WithLoop(g', c);
      }
    }
  }

  /** The root row is finished up to column c; nothing else has changed since g. */
  ghost predicate Looping(pats: seq<Word>, k: nat, m: nat, g: Growth, g': Growth, c: nat) {
    && WellBuilt(Built(pats, k, g.spell)) && |g.spell| <= m && HoldsOwn(pats, |pats|, g.spell, g.ids, g.list, m)
    && g'.spell == g.spell && g'.ids == g.ids && g'.list == g.list
    && |g'.rows| == m && Flat(g'.go, k, g'.rows) && RowUpTo(Built(pats, k, g.spell), 0, g'.rows[0], c)
    && (forall s :: 0 < s < |g.spell| ==> RawRow(g.spell, s, g'.rows[s], k))
  }

  function WithLoop(g: Growth, c: nat): Growth
    requires c < |g.go| && 0 < |g.rows| && c < |g.rows[0]|
  {
    g.(go := g.go[c := 0], rows := g.rows[0 := g.rows[0][c := 0]])
  }

  lemma LoopStep(pats: seq<Word>, k: nat, m: nat, g: Growth, g': Growth, c: nat)
    requires Looping(pats, k, m, g, g', c) && c < k
    ensures c < |g'.go| && 0 < |g'.rows| && c < |g'.rows[0]|
    ensures Looping(pats, k, m, g, if g'.go[c] == NO_STATE then WithLoop(g', c) else g', c + 1)
  {
    LoopCell(Built(pats, k, g.spell), g'.rows, g'.go, m, c);
  }

  lemma LoopCell(b: Built, rows: Rows, go: seq<int>, m: nat, c: nat)
    requires WellBuilt(b) && |rows| == m >= 1 && Flat(go, b.k, rows) && c < b.k && RowUpTo(b, 0, rows[0], c)
    ensures c < |go| && go[c] == rows[0][c]
    ensures var x := if rows[0][c] == NO_STATE then 0 else rows[0][c];
            && RowUpTo(b, 0, rows[0][c := x], c + 1)
            && Flat(go[c := x], b.k, rows[0 := rows[0][c := x]])
    ensures rows[0][c] != NO_STATE ==> rows[0][c := rows[0][c]] == rows[0]
  {
    var x := if rows[0][c] == NO_STATE then 0 else rows[0][c];
    assert Cell(m, b.k, 0, c) == c;
    RootCell(b, c, rows[0][c]);
    RowStep(b, 0, rows[0], c, x);
    FlatUpdate(go, b.k, rows, 0, c, x);
  }

  lemma LettersInRange(pats: seq<Word>, k: nat, spell: seq<Word>)
    requires Spells(pats, spell)
    requires forall p, i :: 0 <= p < |pats| && 0 <= i < |pats[p]| ==> pats[p][i] < k
    ensures WellBuilt(Built(pats, k, spell))
  {
    forall s, i | 0 <= s < |spell| && 0 <= i < |spell[s]|
      ensures spell[s][i] < k
    {
      var p :| 0 <= p < |pats| && spell[s] <= pats[p];
      assert spell[s][i] == pats[p][i];
    }
  }

  lemma NotAnEarlierPattern(pats: seq<Word>, p: nat, w: Word, c: nat, spell: seq<Word>)
    requires p <= |pats| && Spells(pats[..p] + [w], spell) && w + [c] !in spell
    ensures forall q :: 0 <= q < p ==> pats[q] != w + [c]
  {
    forall q | 0 <= q < p
      ensures pats[q] != w + [c]
    {
      assert pats[q] <= (pats[..p] + [w])[q];
    }
  }

  // ----- phase two in place

  predicate Apart(go: array<int>, output: array<Mask>, list: array<int>, next: array<int>,
                  fail: array<int>, data: array<int>) {
    && go != next && go != fail && go != data && next != fail && next != data && fail != data
    && list != go && list != next && list != fail && list != data
    && (go as object) != (output as object) && (next as object) != (output as object)
    && (fail as object) != (output as object) && (data as object) != (output as object)
    && (list as object) != (output as object)
  }

  /** The arrays of phase two hold the values of p; the queue array lacks only the root in front. */
  ghost predicate Holds(go: seq<int>, k: nat, fail: seq<int>, output: seq<Mask>, next: seq<int>,
                        data: seq<int>, tail: nat, p: Pass) {
    && Flat(go, k, p.rows) && fail == p.fail && IdsOf(output) == p.ids && next == p.next
    && tail <= |data| && p.queue == [0] + data[..tail]
  }

  ghost predicate ListsOwn(b: Built, list: seq<int>) {
    |list| >= |b.spell| && forall s :: 0 <= s < |b.spell| ==> list[s] == LastEnding(b.pats, |b.pats|, b.spell[s])
  }

  /** The queue array has room for every state found. */
  lemma RoomToPush(b: Built, queue: seq<int>, s: nat)
    requires QueueShape(b, queue) && s < |b.spell| && s !in queue
    ensures |queue| < |b.spell|
  {
    assert QueueShape(b, queue + [s]);
    QueueFits(b, queue + [s]);
  }

  lemma Pushed(data: seq<int>, tail: nat, s: int, queue: seq<int>)
    requires tail < |data| && queue == [0] + data[..tail]
    ensures queue + [s] == [0] + data[tail := s][..tail + 1]
  {
  }

  lemma FlatCell(go: seq<int>, k: nat, rows: Rows, s: nat, c: nat)
    requires Flat(go, k, rows) && s < |rows| && c < k
    ensures go[Cell(|rows|, k, s, c)] == rows[s][c]
  {
  }

  /** First loop of phase two: the children of the root, with the root as their failure state. */
  method QueueRootChildren(go: array<int>, k: nat, m: nat, fail: array<int>, data: array<int>,
                           ghost out: seq<Mask>, ghost next: seq<int>, ghost b: Built, ghost p0: Pass)
    returns (tail: nat, ghost p: Pass)
    requires go != fail && go != data && fail != data && k == b.k && m == |p0.rows|
    requires Holds(go[..], k, fail[..], out, next, data[..], 0, p0) && Inv(b, p0, 0, 0)
    requires fail.Length == data.Length == |b.spell|
    modifies fail, data
    ensures Holds(go[..], k, fail[..], out, next, data[..], tail, p) && Inv(b, p, 1, 0)
    ensures |p.rows| == m
  {
    tail, p := QueueRootRow(go, m, k, fail, data, out, next, b, p0);
    NextEntry(b, p, 0);
  }

  /** The whole root row, cell by cell. */
  method QueueRootRow(go: array<int>, m: nat, k: nat, fail: array<int>, data: array<int>,
                      ghost out: seq<Mask>, ghost next: seq<int>, ghost b: Built, ghost p0: Pass)
    returns (tail: nat, ghost p: Pass)
    requires go != fail && go != data && fail != data && k == b.k && m == |p0.rows|
    requires Holds(go[..], k, fail[..], out, next, data[..], 0, p0) && Inv(b, p0, 0, 0)
    requires fail.Length == data.Length == |b.spell|
    modifies fail, data
    ensures Holds(go[..], k, fail[..], out, next, data[..], tail, p) && Inv(b, p, 0, k)
    ensures p.rows == p0.rows
  {
    tail, p := 0, p0;
    var c := 0;
    while c < k
      invariant 0 <= c <= k && p.rows == p0.rows
      invariant Holds(go[..], k, fail[..], out, next, data[..], tail, p) && Inv(b, p, 0, c)
    {
      tail, p := QueueRootCell(go, m, c, k, fail, data, tail, out, next, b, p);
      c := c + 1;
    }
  }

  /** One cell of the root row: a child is queued, a self-loop passed over. */
  method QueueRootCell(go: array<int>, m: nat, c: nat, k: nat, fail: array<int>, data: array<int>, tail: nat,
                       ghost out: seq<Mask>, ghost next: seq<int>, ghost b: Built, ghost p: Pass)
    returns (tail': nat, ghost p': Pass)
    requires go != fail && go != data && fail != data && k == b.k && c < k && m == |p.rows|
    requires Holds(go[..], k, fail[..], out, next, data[..], tail, p) && Inv(b, p, 0, c)
    requires fail.Length == data.Length == |b.spell|
    modifies fail, data
    ensures Holds(go[..], k, fail[..], out, next, data[..], tail', p') && Inv(b, p', 0, c + 1) && p'.rows == p.rows
  {
    tail', p' := tail, p;
    FlatCell(go[..], k, p.rows, 0, c);
    var s := go[Cell(m, k, 0, c)];
    if s != 0 {
      RootChild(b, p, c);
      RoomToPush(b, p.queue, s);
      Pushed(data[..], tail, s, p.queue);
      ghost var fail', data' := fail[..][s := 0], data[..][tail := s];
      fail[s] := 0;
      data[tail] := s;
      tail' := tail + 1;
      assert fail[..] == fail' && data[..] == data';
      p' := p.(queue := p.queue + [s], fail := p.fail[s := 0]);
    } else {
      RootHole(b, p, c);
    }
  }

  /** The body of the inner loop of phase two, for a trie edge to s. */
  method VisitChild(output: array<Mask>, list: array<int>, next: array<int>, fail: array<int>, data: array<int>,
                    s: nat, t: nat, tail: nat, h: nat, c: nat, r: nat, ghost table: seq<int>, ghost b: Built,
                    ghost p: Pass)
    returns (tail': nat, ghost p': Pass)
    requires next != fail && next != data && fail != data && list != next && list != fail && list != data
    requires (next as object) != (output as object) && (fail as object) != (output as object)
    requires (data as object) != (output as object) && (list as object) != (output as object)
    requires Holds(table, b.k, fail[..], output[..], next[..], data[..], tail, p) && ListsOwn(b, list[..])
    requires fail.Length == data.Length == |b.spell|
    requires Inv(b, p, h, c) && 1 <= h < |p.queue| && c < b.k && r == p.queue[h]
    requires |p.rows[r]| == b.k && s == p.rows[r][c] && RawCell(b.spell, r, c, s) && b.spell[r] != []
    requires t < |b.spell| && t in p.queue && b.spell[t] == Delta(b.pats, Fail(b.pats, b.spell[r]), c)
    modifies output, next, fail, data
    ensures Holds(table, b.k, fail[..], output[..], next[..], data[..], tail', p') && Inv(b, p', h, c + 1)
    ensures p.queue <= p'.queue && p'.rows == p.rows
  {
    ghost var link := if list[t] != NO_STATE then t else NO_STATE;
    Child(b, p, h, c, r, s, t, link);
    RoomToPush(b, p.queue, s);
    Pushed(data[..], tail, s, p.queue);
    p' := WithChild(p, s, t, link);
    WriteChild(output, list, next, fail, data, s, t, tail);
    tail' := tail + 1;
  }

  /** The four writes for a child: failure state, mask, output link, queue. */
  method WriteChild(output: array<Mask>, list: array<int>, next: array<int>, fail: array<int>, data: array<int>,
                    s: nat, t: nat, tail: nat)
    requires next != fail && next != data && fail != data && list != next && list != fail && list != data
    requires (next as object) != (output as object) && (fail as object) != (output as object)
    requires (data as object) != (output as object) && (list as object) != (output as object)
    requires s < fail.Length && s < output.Length && t < output.Length && s < next.Length && t < list.Length
    requires tail < data.Length && next[s] == NO_STATE
    modifies output, next, fail, data
    ensures fail[..] == old(fail[..])[s := t]
    ensures IdsOf(output[..]) == IdsOf(old(output[..]))[s := IdsOf(old(output[..]))[s] + IdsOf(old(output[..]))[t]]
    ensures next[..] == old(next[..])[s := if list[t] != NO_STATE then t else NO_STATE]
    ensures data[..] == old(data[..])[tail := s]
  {
    fail[s] := t;
    MergeMask(output, s, t);
    if next[s] == NO_STATE && list[t] != NO_STATE {
      next[s] := t;
    }
    data[tail] := s;
  }

  /** output[s] |= output[t] */
  method MergeMask(output: array<Mask>, s: nat, t: nat)
    requires s < output.Length && t < output.Length
    modifies output
    ensures IdsOf(output[..]) == IdsOf(old(output[..]))[s := IdsOf(old(output[..]))[s] + IdsOf(old(output[..]))[t]]
  {
    ghost var masks := output[..];
    var mask := Union(output[s], output[t]);
    IdsOfUpdate(masks, s, mask, Ids(masks[t]));
    output[s] := mask;
    assert output[..] == masks[s := mask];
  }

  /** The inner loop of phase two: every column of the row of queue entry h. */
  method ExpandEntry(go: array<int>, k: nat, m: nat, output: array<Mask>, list: array<int>, next: array<int>,
                     fail: array<int>, data: array<int>, r: nat, tail: nat, h: nat, ghost b: Built, ghost p0: Pass)
    returns (tail': nat, ghost p: Pass)
    requires Apart(go, output, list, next, fail, data) && k == b.k && m == |p0.rows|
    requires Holds(go[..], k, fail[..], output[..], next[..], data[..], tail, p0) && ListsOwn(b, list[..])
    requires fail.Length == data.Length == |b.spell|
    requires Inv(b, p0, h, 0) && 1 <= h < |p0.queue| && r == p0.queue[h]
    modifies go, output, next, fail, data
    ensures Holds(go[..], k, fail[..], output[..], next[..], data[..], tail', p) && list[..] == old(list[..])
    ensures Inv(b, p, h + 1, 0) && p0.queue <= p.queue && |p.rows| == m
  {
    tail', p := tail, p0;
    ghost var last := list[..];
    for c := 0 to k
      invariant list[..] == last && |p.rows| == m && p0.queue <= p.queue
      invariant Holds(go[..], k, fail[..], output[..], next[..], data[..], tail', p)
      invariant Inv(b, p, h, c)
    {
      ghost var t' := Reading(b, p, h, c, r);
      var f := fail[r];
      var s := go[Cell(m, k, r, c)];
      var t := go[Cell(m, k, f, c)];
      FlatCell(go[..], k, p.rows, r, c);
      FlatCell(go[..], k, p.rows, f, c);
      if s != NO_STATE {
        ghost var table := go[..];
        tail', p := VisitChild(output, list, next, fail, data, s, t, tail', h, c, r, table, b, p);
        assert go[..] == table;
      } else {
        Hole(b, p, h, c, r, t);
        p := FillHole(go, k, m, r, c, t, p);
      }
    }
    NextEntry(b, p, h);
  }

  /** go_table[r][c] = t */
  method FillHole(go: array<int>, k: nat, m: nat, r: nat, c: nat, t: nat, ghost p: Pass)
    returns (ghost p': Pass)
    requires m == |p.rows| && r < m && c < k && Flat(go[..], k, p.rows)
    modifies go
    ensures p' == p.(rows := p.rows[r := p.rows[r][c := t]]) && Flat(go[..], k, p'.rows)
  {
    FlatUpdate(go[..], k, p.rows, r, c, t);
    ghost var table := go[..][Cell(m, k, r, c) := t];
    go[Cell(m, k, r, c)] := t;
    assert go[..] == table;
    p' := p.(rows := p.rows[r := p.rows[r][c := t]]);
  }

  /** Phase two: failure states, full transition rows, closed masks and output links. */
  method BuildFailure(go: array<int>, k: nat, output: array<Mask>, list: array<int>, next: array<int>, n: nat,
                      ghost b: Built, ghost g: Growth)
    returns (ghost rows: Rows)
    requires go != list && go != next && list != next
    requires (go as object) != (output as object) && (list as object) != (output as object) &&
             (next as object) != (output as object)
    requires b == Built(b.pats, k, g.spell) && n == |g.spell|
    requires go[..] == g.go && IdsOf(output[..]) == g.ids && list[..] == g.list
    requires TrieBuilt(b.pats, k, output.Length, g)
    requires next.Length == output.Length && forall i :: 0 <= i < next.Length ==> next[i] == NO_STATE
    modifies go, output, next
    ensures |rows| == output.Length && Flat(go[..], k, rows)
    ensures Finished(b, rows, IdsOf(output[..]), next[..])
  {
    var fail := new int[n](_ => 0);
    var data := new int[n](_ => 0);
    var m := output.Length;
    ghost var p := Pass(g.rows, fail[..], g.ids, next[..], [0]);
    Begin(b, g, p);
    var tail: nat;
    tail, p := QueueRootChildren(go, k, m, fail, data, output[..], next[..], b, p);
    p := DrainQueue(go, k, output, list, next, fail, data, tail, b, p);
    Finish(b, p);
    rows := p.rows;
  }

  /** Second loop of phase two: expand the queue until it is empty. */
  method DrainQueue(go: array<int>, k: nat, output: array<Mask>, list: array<int>, next: array<int>,
                    fail: array<int>, data: array<int>, tail0: nat, ghost b: Built, ghost p0: Pass)
    returns (ghost p: Pass)
    requires Apart(go, output, list, next, fail, data) && k == b.k && output.Length == |p0.rows|
    requires Holds(go[..], k, fail[..], output[..], next[..], data[..], tail0, p0) && ListsOwn(b, list[..])
    requires fail.Length == data.Length == |b.spell|
    requires Inv(b, p0, 1, 0)
    modifies go, output, next, fail, data
    ensures |p.rows| == output.Length && Flat(go[..], k, p.rows) && IdsOf(output[..]) == p.ids && next[..] == p.next
    ensures Inv(b, p, |p.queue|, 0)
  {
    var head, tail := 0, tail0;
    p := p0;
    ghost var last := list[..];
    while head < tail
      invariant list[..] == last && |p.rows| == output.Length && head <= tail
      invariant Holds(go[..], k, fail[..], output[..], next[..], data[..], tail, p)
      invariant Inv(b, p, head + 1, 0)
      decreases data.Length - head
    {
      var r := data[head];
      HeadEntry(b, p, data[..], tail, head, r);
      tail, p := ExpandEntry(go, k, output.Length, output, list, next, fail, data, r, tail, head + 1, b, p);
      head := head + 1;
    }
  }

  lemma HeadEntry(b: Built, p: Pass, data: seq<int>, tail: nat, head: nat, r: int)
    requires tail <= |data| && p.queue == [0] + data[..tail] && head < tail && r == data[head]
    requires QueueShape(b, p.queue)
    ensures head + 1 < |p.queue| && r == p.queue[head + 1] && r >= 0
  {
  }

  lemma Begin(b: Built, g: Growth, p: Pass)
    requires TrieBuilt(b.pats, b.k, |g.rows|, g) && g.spell == b.spell
    requires p.rows == g.rows && p.ids == g.ids && p.queue == [0] && |p.fail| >= |b.spell|
    requires |p.next| >= |b.spell| && forall i :: 0 <= i < |p.next| ==> p.next[i] == NO_STATE
    ensures Inv(b, p, 0, 0)
    ensures ListsOwn(b, g.list)
  {
    forall s | 0 <= s < |b.spell|
      ensures StateFresh(b, s, p.ids[s], p.next[s]) && g.list[s] == LastEnding(b.pats, |b.pats|, b.spell[s])
    {
      assert OwnsAt(b.pats, |b.pats|, b.spell[s], g.ids[s], g.list[s]);
    }
    Start(b, p);
  }
}
