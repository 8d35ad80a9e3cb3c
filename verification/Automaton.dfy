/**
  The automaton object of internal/pmm/ac.c: built once from a pattern list, then scanned.
 */
module Automata {
  import opened Sequences
  import opened Words
  import opened Bitmask
  import opened Trie
  import opened Failure
  import opened Matching
  import opened AhoCorasick
  import opened ByteSearch

  /** Every byte must fall in the alphabet. */
  predicate AlphabetOk(alphaMap: seq<nat>, k: nat) {
    |alphaMap| == BYTE_RANGE && forall i :: 0 <= i < BYTE_RANGE ==> alphaMap[i] < k
  }

  /** What a caller must see to; without a map every byte is a class of its own, and takes all 256. */
  predicate BuildOk(given: Option<seq<nat>>, givenSize: int) {
    match given
    case Some(m) => |m| == 256 && forall c :: 0 <= c < 256 ==> m[c] < if givenSize <= 0 then 256 else givenSize
    case None => givenSize <= 0 || givenSize >= 256
  }

  class Automaton {
    const numStates: nat
    const numPatterns: nat
    const alphaSize: nat
    const alphaMap: seq<nat>
    const goTable: array<int>
    const output: array<Mask>
    const outputList: array<int>
    const outputNext: array<int>

    /** What was built from: the patterns and the map as they were given, and the patterns mapped. */
    ghost const patterns: seq<seq<Byte>>
    ghost const given: Option<seq<nat>>
    ghost const pats: seq<Word>

    ghost const spell: seq<Word>
    ghost const rows: Rows

    ghost function Shape(): Built {
      Built(pats, alphaSize, spell)
    }

    /** A finished automaton, its tables of exactly the size its states need. */
    ghost predicate Valid()
      reads goTable, output, outputList, outputNext
    {
      && GivenOk(given) && MapOf(given, alphaMap) && pats == MapAll(alphaMap, patterns)
      && AlphabetOk(alphaMap, alphaSize) && numPatterns == |pats| > 0 && numStates == |spell| == |rows|
      && output.Length == outputList.Length == outputNext.Length == numStates
      && Flat(goTable[..], alphaSize, rows)
      && Finished(Shape(), rows, IdsOf(output[..]), outputNext[..])
      && ListsOwn(Shape(), outputList[..])
    }

    constructor (alphaMap: seq<nat>, alphaSize: nat, numPatterns: nat, numStates: nat,
                 goTable: array<int>, output: array<Mask>, outputList: array<int>, outputNext: array<int>,
                 ghost patterns: seq<seq<Byte>>, ghost given: Option<seq<nat>>, ghost pats: seq<Word>,
                 ghost spell: seq<Word>, ghost rows: Rows)
      ensures this.alphaMap == alphaMap && this.alphaSize == alphaSize
      ensures this.numPatterns == numPatterns && this.numStates == numStates
      ensures this.goTable == goTable && this.output == output
      ensures this.outputList == outputList && this.outputNext == outputNext
      ensures this.patterns == patterns && this.given == given
      ensures this.pats == pats && this.spell == spell && this.rows == rows
    {
      this.alphaMap, this.alphaSize := alphaMap, alphaSize;
      this.numPatterns, this.numStates := numPatterns, numStates;
      this.goTable, this.output := goTable, output;
      this.outputList, this.outputNext := outputList, outputNext;
      this.patterns, this.given := patterns, given;
      this.pats, this.spell, this.rows := pats, spell, rows;
    }

    /**
      pmm_ac_build: no automaton for an empty list; otherwise a finished one for these patterns, with as
      many states as the mapped ones have distinct prefixes. Without a map each byte is its own class.
     */
    static method Build(patterns: seq<seq<Byte>>, given: Option<seq<nat>>, givenSize: int) returns (ac: Automaton?)
      requires BuildOk(given, givenSize)
      ensures ac == null <==> patterns == []
      ensures ac != null ==> fresh(ac) && ac.Valid() && ac.patterns == patterns && ac.given == given
      ensures ac != null ==> ac.alphaSize == if givenSize <= 0 then 256 else givenSize
      ensures ac != null && given.None? ==> |ac.alphaMap| == 256 && forall c :: 0 <= c < 256 ==> ac.alphaMap[c] == c
      ensures ac != null && given.Some? ==> ac.alphaMap == given.value
      ensures ac != null ==> ac.numStates == |Nodes(ac.pats)| <= 1 + TotalLength(ac.pats)
    {
      if |patterns| == 0 {
        return null;
      }
      var k: nat := if givenSize <= 0 then BYTE_RANGE else givenSize;
      var alphaMap := MakeMap(given);
      ac := BuildMapped(patterns, alphaMap, k, given);
    }

    /** Allocates for the worst case, runs the two phases, and shrinks. */
    static method BuildMapped(patterns: seq<seq<Byte>>, alphaMap: seq<nat>, k: nat, ghost given: Option<seq<nat>>)
      returns (ac: Automaton)
      requires patterns != [] && AlphabetOk(alphaMap, k) && GivenOk(given) && MapOf(given, alphaMap)
      ensures fresh(ac) && ac.Valid() && ac.patterns == patterns && ac.given == given
      ensures ac.alphaSize == k && ac.alphaMap == alphaMap
      ensures ac.numStates == |Nodes(ac.pats)| <= 1 + TotalLength(ac.pats)
    {
      ghost var pats := MapAll(alphaMap, patterns);
      var m := MaxStates(patterns, alphaMap, pats);
      var go := new int[m * k](_ => NO_STATE);
      var output := new Mask[m](_ => 0);
      var list := new int[m](_ => NO_STATE);
      var next := new int[m](_ => NO_STATE);
      IdsZero();
      ghost var g: Growth;
      var n: nat;
      n, g := BuildTrie(go, output, list, alphaMap, k, patterns, pats);
      ghost var b := Built(pats, k, g.spell);
      ghost var rows := BuildFailure(go, k, output, list, next, n, b, g);
      ac := Assemble(alphaMap, k, m, |patterns|, n, go, output, list, next, b, rows, patterns, given);
    }

    /** The map given, or the identity. */
    static method MakeMap(given: Option<seq<nat>>) returns (alphaMap: seq<nat>)
      requires GivenOk(given)
      ensures MapOf(given, alphaMap)
    {
      match given
      case Some(m) =>
        alphaMap := m;
      case None =>
        alphaMap := [];
        for i := 0 to BYTE_RANGE
          invariant |alphaMap| == i && forall c :: 0 <= c < i ==> alphaMap[c] == c
        {
          alphaMap := alphaMap + [i];
        }
    }

    /** Shrinks the tables to the exact state count and wraps them. */
    static method Assemble(alphaMap: seq<nat>, k: nat, m: nat, count: nat, n: nat, go: array<int>, output: array<Mask>,
                           list: array<int>, next: array<int>, ghost b: Built, ghost rows: Rows,
                           ghost patterns: seq<seq<Byte>>, ghost given: Option<seq<nat>>)
      returns (ac: Automaton)
      requires GivenOk(given) && MapOf(given, alphaMap) && b.pats == MapAll(alphaMap, patterns)
      requires AlphabetOk(alphaMap, k) && count == |b.pats| > 0 && b.k == k && n == |b.spell| <= m
      requires |rows| == output.Length == list.Length == next.Length == m
      requires Flat(go[..], k, rows) && Finished(b, rows, IdsOf(output[..]), next[..]) && ListsOwn(b, list[..])
      ensures fresh(ac) && ac.Valid()
      ensures ac.patterns == patterns && ac.given == given
      ensures ac.alphaMap == alphaMap && ac.alphaSize == k && ac.pats == b.pats
      ensures ac.numStates == n == |Nodes(b.pats)|
    {
      ShrunkIsFinished(b, go[..], k, rows, output[..], next[..], list[..]);
      StateCount(b.pats, b.spell);
      FlatPrefix(go[..], k, rows, n);
      var go', output', list', next' := go, output, list, next;
      if n < m {
        go' := Shrink(go, n * k);
        output' := ShrinkMasks(output, n);
        list' := Shrink(list, n);
        next' := Shrink(next, n);
      } else {
        assert rows[..n] == rows && go[..n * k] == go[..];
        assert output[..n] == output[..] && next[..n] == next[..] && list[..n] == list[..];
      }
      ac := new Automaton(alphaMap, k, count, n, go', output', list', next', patterns, given, b.pats, b.spell,
                          rows[..n]);
    }

    /**
      pmm_ac_scan_bitmask: one table lookup per byte. The ids reported are those of naive search for the
      patterns that were given, byte by byte modulo the map that was given, or without one as pieces of
      the text.
     */
    method ScanBitmask(text: seq<Byte>) returns (result: Mask)
      requires Valid()
      ensures forall p: nat :: p in Ids(result) <==> p < 64 && Found(given, patterns, text, p)
      ensures given.None? ==> forall p: nat :: p < 64 && p < |patterns| && patterns[p] != [] ==>
                (p in Ids(result) <==>
                 exists i :: 0 <= i <= |text| - |patterns[p]| && text[i..][..|patterns[p]|] == patterns[p])
      ensures Ids(result) == MatchedIds(pats, MapText(alphaMap, text))
    {
      result := ScanMapped(text);
      forall p: nat
        ensures p in Ids(result) <==> p < 64 && Found(given, patterns, text, p)
      {
        FoundIs(given, alphaMap, patterns, text, p);
      }
      if given.None? {
        forall p: nat | p < 64 && p < |patterns| && patterns[p] != []
          ensures p in Ids(result) <==>
                  exists i :: 0 <= i <= |text| - |patterns[p]| && text[i..][..|patterns[p]|] == patterns[p]
        {
          PlainIsPiece(patterns, text, p);
        }
      }
    }

    /** The loop of the scan; the ids reported are those of naive search over the mapped text. */
    method ScanMapped(text: seq<Byte>) returns (result: Mask)
      requires Valid()
      ensures Ids(result) == MatchedIds(pats, MapText(alphaMap, text))
    {
      ghost var t := MapText(alphaMap, text);
      result := 0;
      IdsZero();
      var state: nat := 0;
      assert t[..0] == [];
      for i := 0 to |text|
        invariant state < numStates && spell[state] == LongestSuffix(pats, t[..i])
        invariant Ids(result) == VisitedIds(pats, t[..i])
      {
        VisitedStep(pats, t, i);
        state := Step(state, alphaMap[text[i]], t[..i]);
        result := Union(result, output[state]);
      }
      assert t[..|text|] == t;
      VisitedIsMatched(pats, t);
    }

    /** go_table[state * alpha_size + c] */
    method Step(state: nat, c: nat, ghost t: Word) returns (next: nat)
      requires Valid() && state < numStates && c < alphaSize && spell[state] == LongestSuffix(pats, t)
      ensures next < numStates && spell[next] == LongestSuffix(pats, t + [c])
      ensures Ids(output[next]) == ReportIds(pats, spell[next])
      ensures next == goTable[Cell(numStates, alphaSize, state, c)]
    {
      FlatCell(goTable[..], alphaSize, rows, state, c);
      ScanStep(Shape(), rows, state, t, c);
      next := goTable[Cell(numStates, alphaSize, state, c)];
    }
  }

  lemma VisitedStep(pats: seq<Word>, t: Word, i: nat)
    requires i < |t|
    ensures t[..i + 1] == t[..i] + [t[i]]
    ensures VisitedIds(pats, t[..i + 1]) == VisitedIds(pats, t[..i]) + ReportIds(pats, LongestSuffix(pats, t[..i + 1]))
  {
    assert t[..i + 1][..i] == t[..i];
  }

  /** max_states: one more than the summed lengths. */
  method MaxStates(patterns: seq<seq<Byte>>, alphaMap: seq<nat>, ghost pats: seq<Word>) returns (m: nat)
    requires |alphaMap| == BYTE_RANGE && pats == MapAll(alphaMap, patterns)
    ensures m == 1 + TotalLength(pats)
  {
    m := 1;
    for i := 0 to |patterns|
      invariant m == 1 + TotalLength(pats[..i])
    {
      TotalLengthPrefix(pats, i);
      m := m + |patterns[i]|;
    }
    assert pats[..|pats|] == pats;
  }

  method Shrink(a: array<int>, n: nat) returns (r: array<int>)
    requires n <= a.Length
    ensures fresh(r) && r[..] == a[..n]
  {
    r := new int[n](i requires 0 <= i < n reads a => a[i]);
  }

  method ShrinkMasks(a: array<Mask>, n: nat) returns (r: array<Mask>)
    requires n <= a.Length
    ensures fresh(r) && r[..] == a[..n]
  {
    r := new Mask[n](i requires 0 <= i < n reads a => a[i]);
  }

  lemma RowsBefore(n: nat, m: nat, k: nat)
    requires n <= m
    ensures n * k <= m * k
  {
  }

  lemma FlatPrefix(go: seq<int>, k: nat, rows: Rows, n: nat)
    requires Flat(go, k, rows) && n <= |rows|
    ensures n * k <= |go| && Flat(go[..n * k], k, rows[..n])
  {
    RowsBefore(n, |rows|, k);
    forall s, c | 0 <= s < n && 0 <= c < k
      ensures go[..n * k][Cell(n, k, s, c)] == rows[..n][s][c]
    {
      assert Cell(n, k, s, c) == Cell(|rows|, k, s, c);
    }
  }

  lemma ShrunkIsFinished(b: Built, go: seq<int>, k: nat, rows: Rows, output: seq<Mask>, next: seq<int>, list: seq<int>)
    requires Finished(b, rows, IdsOf(output), next) && ListsOwn(b, list)
    requires |rows| == |output| == |next| == |list|
    ensures var n := |b.spell|;
            Finished(b, rows[..n], IdsOf(output[..n]), next[..n]) && ListsOwn(b, list[..n])
  {
  }
}
