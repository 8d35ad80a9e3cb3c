/**
  The batch scan over names (internal/pmm/ac.c:367-410): for each name, every id once, in the order
  the scan first meets it, cut off at the capacity of the result buffer.
 */
module BatchScan {
  import opened Sequences
  import opened Words
  import opened Bitmask
  import opened Trie
  import opened Failure
  import opened Matching
  import opened AhoCorasick
  import opened Automata
  import opened ByteSearch

  datatype Match = Match(name: nat, id: nat)

  // ----- sets of ids in ascending order

  /** The elements of s below n, ascending. */
  function Ascending(s: set<nat>, n: nat): (ids: seq<nat>) {
    if n == 0 then [] else Ascending(s, n - 1) + if n - 1 in s then [n - 1] else []
  }

  lemma {:induction false} AscendingExact(s: set<nat>, n: nat)
    ensures forall x :: x in Ascending(s, n) <==> x in s && x < n
    ensures forall i, j :: 0 <= i < j < |Ascending(s, n)| ==> Ascending(s, n)[i] < Ascending(s, n)[j]
  {
    if n > 0 {
      AscendingExact(s, n - 1);
      var rest := Ascending(s, n - 1);
      assert forall i :: 0 <= i < |rest| ==> rest[i] in rest;
    }
  }

  lemma {:induction false} LeastFirst(s: set<nat>, m: nat, n: nat)
    requires m in s && m < n && forall x :: x in s ==> m <= x
    ensures Ascending(s, n) == [m] + Ascending(s - {m}, n)
  {
    if m < n - 1 {
      LeastFirst(s, m, n - 1);
    } else {
      NothingBelow(s, n - 1);
      NothingBelow(s - {m}, n - 1);
    }
  }

  lemma {:induction false} NothingBelow(s: set<nat>, n: nat)
    requires forall x :: x in s ==> n <= x
    ensures Ascending(s, n) == []
  {
    if n > 0 {
      NothingBelow(s, n - 1);
    }
  }

  // ----- what one name reports

  /** What the batch scan can report at node w: the root is skipped. */
  ghost function NodeIds(pats: seq<Word>, w: Word): set<nat> {
    if w == [] then {} else ReportIds(pats, w)
  }

  ghost function SeenIds(pats: seq<Word>, t: Word): set<nat> {
    if t == [] then {} else SeenIds(pats, t[..|t| - 1]) + NodeIds(pats, LongestSuffix(pats, t))
  }

  /** The ids of a name in report order: at each letter the new ones, ascending. */
  ghost function NameIds(pats: seq<Word>, t: Word): (ids: seq<nat>) {
    if t == [] then [] else NameIds(pats, t[..|t| - 1]) + NewIds(pats, t)
  }

  ghost function NewIds(pats: seq<Word>, t: Word): (ids: seq<nat>)
    requires t != []
  {
    Ascending(NodeIds(pats, LongestSuffix(pats, t)) - SeenIds(pats, t[..|t| - 1]), WIDTH)
  }

  lemma NewIdsExact(pats: seq<Word>, t: Word)
    requires t != []
    ensures forall p :: p in NewIds(pats, t) <==>
              p in NodeIds(pats, LongestSuffix(pats, t)) && p !in SeenIds(pats, t[..|t| - 1])
    ensures Distinct(NewIds(pats, t))
  {
    var found := NodeIds(pats, LongestSuffix(pats, t)) - SeenIds(pats, t[..|t| - 1]);
    assert forall x :: x in found ==> x < WIDTH;
    AscendingExact(found, WIDTH);
  }

  lemma AppendDistinct(a: seq<nat>, b: seq<nat>)
    requires Distinct(a) && Distinct(b) && forall x :: x in b ==> x !in a
    ensures Distinct(a + b)
  {
    forall i, j | 0 <= i < |a| && 0 <= j < |b|
      ensures a[i] != b[j]
    {
      assert b[j] in b;
    }
  }

  /** A name reports each id it has seen, and none twice. */
  lemma {:induction false} NameIdsExact(pats: seq<Word>, t: Word)
    ensures forall p :: p in NameIds(pats, t) <==> p in SeenIds(pats, t)
    ensures Distinct(NameIds(pats, t))
  {
    if t != [] {
      NameIdsExact(pats, t[..|t| - 1]);
      NewIdsExact(pats, t);
      AppendDistinct(NameIds(pats, t[..|t| - 1]), NewIds(pats, t));
    }
  }

  /** The ids a name reports, in terms of substring search. */
  predicate BatchMatched(pats: seq<Word>, t: Word, p: nat) {
    p < |pats| &&
    if pats[p] != [] then Occurs(pats[p], t)
    else exists e :: 0 < e <= |t| && InheritsRoot(pats, t, e)
  }

  /** After e letters the state is below the root and the last letter begins no pattern. */
  predicate InheritsRoot(pats: seq<Word>, t: Word, e: nat)
    requires 0 < e <= |t|
  {
    LongestSuffix(pats, t[..e]) != [] && !IsNode(pats, [t[e - 1]])
  }

  ghost predicate SeenAt(pats: seq<Word>, t: Word, p: nat, e: nat)
    requires 0 < e <= |t|
  {
    p in NodeIds(pats, LongestSuffix(pats, t[..e]))
  }

  lemma {:induction false} MetIsSeen(pats: seq<Word>, t: Word, p: nat, e: nat)
    requires 0 < e <= |t| && SeenAt(pats, t, p, e)
    ensures p in SeenIds(pats, t)
  {
    if e < |t| {
      var front := t[..|t| - 1];
      assert front[..e] == t[..e];
      MetIsSeen(pats, front, p, e);
    } else {
      assert t[..e] == t;
    }
  }

  lemma {:induction false} SeenIsMet(pats: seq<Word>, t: Word, p: nat) returns (e: nat)
    requires p in SeenIds(pats, t)
    ensures 0 < e <= |t| && SeenAt(pats, t, p, e)
  {
    if p in NodeIds(pats, LongestSuffix(pats, t)) {
      e := |t|;
      assert t[..e] == t;
    } else {
      var front := t[..|t| - 1];
      e := SeenIsMet(pats, front, p);
      assert front[..e] == t[..e];
    }
  }

  lemma SeenAtIff(pats: seq<Word>, t: Word, p: nat, e: nat)
    requires 0 < e <= |t|
    ensures SeenAt(pats, t, p, e) <==> p < WIDTH && p < |pats| && MeetsAt(pats, t, p, e)
  {
    ReportIffEnds(pats, t, p, e);
    var w := LongestSuffix(pats, t[..e]);
    assert ReportedAt(pats, t, p, e) <==> p in ReportIds(pats, w);
    if w == [] && p < |pats| && pats[p] != [] {
      InReportIds(pats, w, p);
    }
  }

  lemma BatchIffEnds(pats: seq<Word>, t: Word, p: nat)
    ensures BatchMatched(pats, t, p) <==> p < |pats| && exists e :: 0 < e <= |t| && MeetsAt(pats, t, p, e)
  {
    EndsIffMatched(pats, t, p);
    if p < |pats| && pats[p] != [] && BatchMatched(pats, t, p) {
      var e: nat :| 0 < e <= |t| && EndsAt(pats, t, p, e);
      assert MeetsAt(pats, t, p, e);
    }
    if p < |pats| && pats[p] == [] && BatchMatched(pats, t, p) {
      var e: nat :| 0 < e <= |t| && InheritsRoot(pats, t, e);
      assert MeetsAt(pats, t, p, e);
    }
    if e: nat :| p < |pats| && 0 < e <= |t| && MeetsAt(pats, t, p, e) {
      assert if pats[p] != [] then EndsAt(pats, t, p, e) else InheritsRoot(pats, t, e);
    }
  }

  /** What the letter at e contributes to id p. */
  ghost predicate MeetsAt(pats: seq<Word>, t: Word, p: nat, e: nat)
    requires 0 < e <= |t| && p < |pats|
  {
    if pats[p] != [] then EndsAt(pats, t, p, e) else InheritsRoot(pats, t, e)
  }

  /** Over a whole name the batch scan reports exactly the ids of BatchMatched. */
  lemma NameReports(pats: seq<Word>, t: Word, p: nat)
    ensures p in NameIds(pats, t) <==> p < WIDTH && BatchMatched(pats, t, p)
  {
    NameIdsExact(pats, t);
    BatchIffEnds(pats, t, p);
    if p in SeenIds(pats, t) {
      var e := SeenIsMet(pats, t, p);
      SeenAtIff(pats, t, p, e);
    }
    if p < WIDTH && BatchMatched(pats, t, p) {
      var e: nat :| 0 < e <= |t| && MeetsAt(pats, t, p, e);
      SeenAtIff(pats, t, p, e);
      MetIsSeen(pats, t, p, e);
    }
  }

  /**
    When the batch scan and the single scan report the same ids for a name: exactly when no pattern
    below 64 is empty, or every letter of the name begins a pattern, or some letter that begins none
    is met below the root.
   */
  lemma BatchIsScanIff(pats: seq<Word>, t: Word)
    ensures (forall p :: p in NameIds(pats, t) <==> p in MatchedIds(pats, t))
            <==> (forall p: nat :: p < WIDTH && p < |pats| ==> pats[p] != [])
                 || (forall i :: 0 <= i < |t| ==> IsNode(pats, [t[i]]))
                 || (exists e :: 0 < e <= |t| && InheritsRoot(pats, t, e))
  {
    forall p: nat
      ensures p in NameIds(pats, t) <==> p < WIDTH && BatchMatched(pats, t, p)
      ensures p in MatchedIds(pats, t) <==> p < WIDTH && Matched(pats, t, p)
    {
      NameReports(pats, t, p);
    }
    if e :| 0 < e <= |t| && InheritsRoot(pats, t, e) {
      assert !IsNode(pats, [t[e - 1]]);
    }
    if p: nat :| p < WIDTH && p < |pats| && pats[p] == [] {
      assert p in NameIds(pats, t) <==> exists e :: 0 < e <= |t| && InheritsRoot(pats, t, e);
      assert p in MatchedIds(pats, t) <==> exists i :: 0 <= i < |t| && !IsNode(pats, [t[i]]);
    }
  }

  lemma NoNode()
    ensures !IsNode([[], [0]], [1])
  {
    var pats: seq<Word> := [[], [0]];
    forall p | 0 <= p < |pats|
      ensures !([1] <= pats[p])
    {
      assert pats[p] == [] || pats[p] == [0];
      assert [1][0] == 1;
    }
  }

  /** An empty pattern beside "a": for the name "b" the single scan reports it, the batch scan does not. */
  lemma EmptyPatternSkipped()
    ensures 0 in MatchedIds([[], [0]], [1]) && 0 !in NameIds([[], [0]], [1])
  {
    var pats: seq<Word> := [[], [0]];
    var t: Word := [1];
    NoNode();
    assert pats[0] == [] && t[0] == 1 && [t[0]] == [1];
    assert Matched(pats, t, 0);
    NameReports(pats, t, 0);
    StaysAtRoot(pats, t);
  }

  lemma StaysAtRoot(pats: seq<Word>, t: Word)
    requires |t| == 1 && !IsNode(pats, t)
    ensures forall e :: 0 < e <= |t| ==> !InheritsRoot(pats, t, e)
  {
    assert t[1..] == [] && t[..1] == t;
    assert LongestSuffix(pats, t) == LongestSuffix(pats, t[1..]) == [];
  }

  // ----- the scan itself

  function Tagged(name: nat, ids: seq<nat>): (ms: seq<Match>)
    ensures |ms| == |ids| && forall i :: 0 <= i < |ids| ==> ms[i] == Match(name, ids[i])
  {
    seq(|ids|, i requires 0 <= i < |ids| => Match(name, ids[i]))
  }

  /** Every match of every name, in order. */
  ghost function AllMatches(pats: seq<Word>, names: seq<Word>): (ms: seq<Match>) {
    if names == [] then [] else
      AllMatches(pats, names[..|names| - 1]) + Tagged(|names| - 1, NameIds(pats, names[|names| - 1]))
  }

  /** The buffer holds full up to its capacity max: all of it while there is room. */
  ghost predicate CutOff<T>(out: seq<T>, total: nat, full: seq<T>, max: int) {
    && total <= |out| && total <= |full| && out[..total] == full[..total]
    && (total < max ==> total == |full|)
  }

  /** Part of all is written; what is left of it is the ids still set, ascending. */
  ghost predicate Reporting(out: seq<Match>, total: nat, all: seq<Match>, name: nat, left: set<nat>) {
    && total <= |out| && total <= |all| && out[..total] == all[..total]
    && all[total..] == Tagged(name, Ascending(left, WIDTH))
  }

  lemma ReportNext(out: seq<Match>, total: nat, all: seq<Match>, name: nat, left: set<nat>, pid: nat)
    requires Reporting(out, total, all, name, left) && total < |out|
    requires pid in left && pid < WIDTH && forall x :: x in left ==> pid <= x
    ensures Reporting(out[total := Match(name, pid)], total + 1, all, name, left - {pid})
  {
    LeastFirst(left, pid, WIDTH);
    TaggedFirst(name, pid, Ascending(left - {pid}, WIDTH));
    TailStep(out, total, all, Match(name, pid), Tagged(name, Ascending(left - {pid}, WIDTH)));
  }

  lemma TaggedFirst(name: nat, id: nat, rest: seq<nat>)
    ensures Tagged(name, [id] + rest) == [Match(name, id)] + Tagged(name, rest)
  {
  }

  lemma TailStep(out: seq<Match>, total: nat, all: seq<Match>, m: Match, rest: seq<Match>)
    requires total < |out| && total <= |all| && out[..total] == all[..total] && all[total..] == [m] + rest
    ensures total < |all| && out[total := m][..total + 1] == all[..total + 1] && all[total + 1..] == rest
  {
    assert all[total] == all[total..][0] == m;
    assert all[total + 1..] == all[total..][1..];
  }

  lemma ReportStart(out: seq<Match>, total: nat, full: seq<Match>, max: int, name: nat, left: set<nat>)
    requires CutOff(out, total, full, max) && total < max
    ensures Reporting(out, total, full + Tagged(name, Ascending(left, WIDTH)), name, left)
  {
  }

  lemma ReportEnd(out: seq<Match>, total: nat, all: seq<Match>, max: int, name: nat, left: set<nat>)
    requires Reporting(out, total, all, name, left) && (total < max ==> left == {})
    ensures CutOff(out, total, all, max)
  {
    NothingBelow({}, WIDTH);
  }

  lemma CutOffFull<T>(out: seq<T>, total: nat, full: seq<T>, more: seq<T>, max: int)
    requires CutOff(out, total, full, max) && total >= max
    ensures CutOff(out, total, full + more, max)
  {
    assert (full + more)[..total] == full[..total];
  }

  /** The loop over the set bits of one mask. */
  method ReportBits(out: array<Match>, name: nat, bits0: Mask, seen0: Mask, total0: nat, max: int,
                    ghost full: seq<Match>)
    returns (seen: Mask, total: nat)
    requires total0 < max <= out.Length && CutOff(out[..], total0, full, max)
    modifies out
    ensures total0 <= total && CutOff(out[..], total, full + Tagged(name, Ascending(Ids(bits0), WIDTH)), max)
    ensures total < max ==> Ids(seen) == Ids(seen0) + Ids(bits0)
    ensures total <= max
  {
    var bits := bits0;
    seen, total := seen0, total0;
    ghost var ids, left, have := Ids(bits0), Ids(bits0), Ids(seen0);
    ghost var all := full + Tagged(name, Ascending(ids, WIDTH));
    ReportStart(out[..], total, full, max, name, ids);
    while bits != 0 && total < max
      invariant total0 <= total <= max
      invariant Reporting(out[..], total, all, name, left)
      invariant left == Ids(bits) && have == Ids(seen)
      invariant left <= ids && have == Ids(seen0) + (ids - left)
      decreases bits
    {
      var pid: nat;
      pid, bits := TakeLowest(bits);
      WriteMatch(out, name, pid, total, all, left);
      MovedBit(Ids(seen0), ids, left, pid);
      total := total + 1;
      seen := WithBit(seen, pid);
      left, have := left - {pid}, have + {pid};
    }
    IdsEmpty(bits);
    ReportEnd(out[..], total, all, max, name, left);
  }

  lemma MovedBit(seen0: set<nat>, bits0: set<nat>, bits: set<nat>, pid: nat)
    requires bits <= bits0 && pid in bits
    ensures seen0 + (bits0 - bits) + {pid} == seen0 + (bits0 - (bits - {pid}))
  {
  }

  method WriteMatch(out: array<Match>, name: nat, pid: nat, total: nat, ghost all: seq<Match>, ghost left: set<nat>)
    requires total < out.Length && Reporting(out[..], total, all, name, left)
    requires pid in left && pid < WIDTH && forall x :: x in left ==> pid <= x
    modifies out
    ensures Reporting(out[..], total + 1, all, name, left - {pid})
  {
    ReportNext(out[..], total, all, name, left, pid);
    ghost var out' := out[..][total := Match(name, pid)];
    out[total] := Match(name, pid);
    assert out[..] == out';
  }

  /** What a walk along the output links relies on. */
  ghost predicate Linked(b: Built, ids: seq<set<nat>>, next: seq<int>) {
    && WellBuilt(b) && |ids| == |next| == |b.spell|
    && (forall s :: 0 <= s < |b.spell| ==> ids[s] == ReportIds(b.pats, b.spell[s]))
    && (forall s :: 0 <= s < |b.spell| ==> NextAt(b, s, next[s]))
  }

  ghost predicate Falls(b: Built, s: nat, x: int)
    requires s < |b.spell|
  {
    0 <= x < |b.spell| && |b.spell[x]| < |b.spell[s]| && ReportIds(b.pats, b.spell[x]) <= ReportIds(b.pats, b.spell[s])
  }

  /** Every output link leads to a shallower state that reports nothing new. */
  lemma LinksFall(b: Built, ids: seq<set<nat>>, next: seq<int>)
    requires Linked(b, ids, next)
    ensures forall s :: 0 <= s < |b.spell| && next[s] != NO_STATE ==> Falls(b, s, next[s])
  {
    forall s | 0 <= s < |b.spell| && next[s] != NO_STATE
      ensures Falls(b, s, next[s])
    {
      assert NextAt(b, s, next[s]);
      DeepReports(b, b.spell[s]);
    }
  }

  lemma RootIsEmptyWord(b: Built, s: nat)
    requires WellBuilt(b) && s < |b.spell|
    ensures NodeIds(b.pats, b.spell[s]) == if s == 0 then {} else ReportIds(b.pats, b.spell[s])
  {
    OnlyRootIsEmpty(b, s);
  }

  lemma NothingNew(cur: seq<Match>, name: nat, ids: set<nat>, seen: set<nat>)
    requires ids <= seen
    ensures cur + Tagged(name, Ascending(ids - seen, WIDTH)) == cur
  {
    assert ids - seen == {};
    NothingBelow({}, WIDTH);
  }

  /** One letter's matches: the walk from its state along the output links, shallower at each step. */
  method WalkLinks(output: array<Mask>, links: array<int>, out: array<Match>, name: nat, state: nat, seen0: Mask,
                   total0: nat, max: int, ghost b: Built, ghost full: seq<Match>)
    returns (seen: Mask, total: nat)
    requires Linked(b, IdsOf(output[..]), links[..]) && state < |b.spell|
    requires (out as object) != (output as object) && (out as object) != (links as object)
    requires max <= out.Length && CutOff(out[..], total0, full, max)
    modifies out
    ensures total0 <= total
    ensures CutOff(out[..], total, full + Tagged(name,
            Ascending(NodeIds(b.pats, b.spell[state]) - Ids(seen0), WIDTH)), max)
    ensures total < max ==> Ids(seen) == Ids(seen0) + NodeIds(b.pats, b.spell[state])
    ensures total0 >= max ==> total == total0 && out[..] == old(out[..])
    ensures total0 < max ==> total <= max
  {
    seen, total := seen0, total0;
    var s := state;
    ghost var ids := NodeIds(b.pats, b.spell[state]);
    ghost var all := full + Tagged(name, Ascending(ids - Ids(seen0), WIDTH));
    ghost var cur, masks0, next0 := full, output[..], links[..];
    ghost var masks := IdsOf(masks0);
    LinksFall(b, masks, next0);
    RootIsEmptyWord(b, state);
    NothingNew(full, name, {}, Ids(seen0));
    CutOffFullOr(out[..], total, full, Tagged(name, Ascending(ids - Ids(seen0), WIDTH)), max);
    while s > 0 && total < max
      invariant output[..] == masks0 && links[..] == next0
      invariant s < |b.spell| && total0 <= total <= out.Length
      invariant if total0 >= max then total == total0 && out[..] == old(out[..]) else total <= max
      invariant CutOff(out[..], total, if total < max then cur else all, max)
      invariant s > 0 ==> ReportIds(b.pats, b.spell[s]) <= ids
      invariant total < max ==>
                  Ids(seen) <= Ids(seen0) + ids <=
                  Ids(seen) + (if s > 0 then ReportIds(b.pats, b.spell[s]) else {})
      invariant total < max ==>
                  all == if s > 0 then cur + Tagged(name, Ascending(ReportIds(b.pats, b.spell[s]) - Ids(seen), WIDTH))
                         else cur
      decreases Depth(b, s)
    {
      var bits := Difference(output[s], seen);
      SeenAfter(Ids(seen), Ids(seen0), ids, ReportIds(b.pats, b.spell[s]));
      seen, total := ReportBits(out, name, bits, seen, total, max, cur);
      cur := all;
      assert links[..] == next0 && output[..] == masks0;
      var next := links[s];
      assert next == next0[s];
      if next == NO_STATE || next == s {
        break;
      }
      assert Falls(b, s, next);
      s := next;
      if total < max {
        NothingNew(all, name, ReportIds(b.pats, b.spell[s]), Ids(seen));
      }
    }
  }

  function Depth(b: Built, s: int): nat {
    if 0 <= s < |b.spell| then |b.spell[s]| else 0
  }

  lemma SeenAfter(seen: set<nat>, seen0: set<nat>, ids: set<nat>, here: set<nat>)
    requires seen <= seen0 + ids <= seen + here && here <= ids
    ensures seen + (here - seen) == seen0 + ids
  {
  }

  lemma CutOffFullOr(out: seq<Match>, total: nat, full: seq<Match>, more: seq<Match>, max: int)
    requires CutOff(out, total, full, max)
    ensures total >= max ==> CutOff(out, total, full + more, max)
  {
    if total >= max {
      CutOffFull(out, total, full, more, max);
    }
  }

  predicate Outside<T>(ac: Automaton, out: array<T>) {
    && (out as object) != (ac.goTable as object) && (out as object) != (ac.output as object)
    && (out as object) != (ac.outputList as object) && (out as object) != (ac.outputNext as object)
  }

  lemma NameStep(pats: seq<Word>, t: Word, i: nat, name: nat, full: seq<Match>)
    requires i < |t|
    ensures t[..i + 1] == t[..i] + [t[i]]
    ensures SeenIds(pats, t[..i + 1]) == SeenIds(pats, t[..i]) + NodeIds(pats, LongestSuffix(pats, t[..i + 1]))
    ensures full + Tagged(name, NameIds(pats, t[..i + 1])) ==
            full + Tagged(name, NameIds(pats, t[..i])) +
            Tagged(name, Ascending(NodeIds(pats, LongestSuffix(pats, t[..i + 1])) - SeenIds(pats, t[..i]), WIDTH))
  {
    assert t[..i + 1][..i] == t[..i];
  }

  /** One name: its ids in report order, after the matches already in the buffer. */
  method ScanName(ac: Automaton, out: array<Match>, name: nat, text: seq<Byte>, total0: nat, max: int,
                  ghost full: seq<Match>)
    returns (total: nat)
    requires ac.Valid() && Outside(ac, out)
    requires max <= out.Length && CutOff(out[..], total0, full, max)
    modifies out
    ensures CutOff(out[..], total, full + Tagged(name, NameIds(ac.pats, MapText(ac.alphaMap, text))), max)
    ensures total0 < max ==> total <= max
  {
    ghost var t := MapText(ac.alphaMap, text);
    var state: nat, seen: Mask := 0, 0;
    total := total0;
    IdsZero();
    assert t[..0] == [];
    assert full + Tagged(name, []) == full;
    for i := 0 to |text|
      invariant state < ac.numStates && ac.spell[state] == LongestSuffix(ac.pats, t[..i])
      invariant CutOff(out[..], total, full + Tagged(name, NameIds(ac.pats, t[..i])), max)
      invariant total < max ==> Ids(seen) == SeenIds(ac.pats, t[..i])
      invariant total0 < max ==> total <= max
    {
      NameStep(ac.pats, t, i, name, full);
      state := ac.Step(state, ac.alphaMap[text[i]], t[..i]);
      CutOffFullOr(out[..], total, full + Tagged(name, NameIds(ac.pats, t[..i])),
                   Tagged(name, Ascending(NodeIds(ac.pats, ac.spell[state]) - SeenIds(ac.pats, t[..i]), WIDTH)), max);
      seen, total := WalkLinks(ac.output, ac.outputNext, out, name, state, seen, total, max, ac.Shape(),
                               full + Tagged(name, NameIds(ac.pats, t[..i])));
    }
    assert t[..|text|] == t;
  }

  /** The names as slices of the buffer they are packed in. */
  ghost function Slices(buffer: seq<Byte>, offsets: seq<nat>, lengths: seq<nat>): (names: seq<seq<Byte>>)
    requires |offsets| == |lengths|
    requires forall n :: 0 <= n < |offsets| ==> offsets[n] + lengths[n] <= |buffer|
    ensures |names| == |offsets|
    ensures forall n :: 0 <= n < |offsets| ==> names[n] == buffer[offsets[n]..offsets[n] + lengths[n]]
  {
    seq(|offsets|, n requires 0 <= n < |offsets| => buffer[offsets[n]..offsets[n] + lengths[n]])
  }

  /**
    pmm_ac_scan_batch: the matches of all names in order, cut off at max. A match says that the pattern
    stands in the part of the buffer that its name takes; with room for all, each that does is matched.
   */
  method ScanBatch(ac: Automaton, buffer: seq<Byte>, offsets: seq<nat>, lengths: seq<nat>, out: array<Match>, max: int)
    returns (total: nat)
    requires ac.Valid() && Outside(ac, out) && max <= out.Length
    requires |offsets| == |lengths|
    requires forall n :: 0 <= n < |offsets| ==> offsets[n] + lengths[n] <= |buffer|
    modifies out
    ensures total <= out.Length && (total == 0 || total <= max)
    ensures forall i :: 0 <= i < total ==> out[i].name < |offsets| && out[i].id < 64 && out[i].id < |ac.patterns|
    ensures forall i :: 0 <= i < total && ac.patterns[out[i].id] != [] ==>
              StandsWithin(ac.given, ac.patterns[out[i].id], buffer, offsets[out[i].name], lengths[out[i].name])
    ensures total < max ==>
              forall n, p | 0 <= n < |offsets| && 0 <= p < 64 && p < |ac.patterns| && ac.patterns[p] != [] ::
                StandsWithin(ac.given, ac.patterns[p], buffer, offsets[n], lengths[n]) ==> Match(n, p) in out[..total]
    ensures forall i, j :: 0 <= i < j < total ==> out[i] != out[j] && out[i].name <= out[j].name
    ensures CutOff(out[..], total, AllMatches(ac.pats, MapAll(ac.alphaMap, Slices(buffer, offsets, lengths))), max)
  {
    total := ScanNames(ac, buffer, offsets, lengths, out, max);
    ghost var names := MapAll(ac.alphaMap, Slices(buffer, offsets, lengths));
    ghost var full := AllMatches(ac.pats, names);
    AllMatchesNames(ac.pats, names);
    forall i | 0 <= i < total
      ensures out[i] == full[i] && out[i].name < |offsets| && out[i].id < 64 && out[i].id < |ac.patterns|
      ensures ac.patterns[out[i].id] != [] ==>
              StandsWithin(ac.given, ac.patterns[out[i].id], buffer, offsets[out[i].name], lengths[out[i].name])
    {
      assert out[..][..total][i] == full[..total][i];
      var n := full[i].name;
      NameAt(ac.alphaMap, buffer, offsets, lengths, n);
      MatchIsStanding(ac.given, ac.alphaMap, ac.patterns, buffer, offsets[n], lengths[n], names, full[i]);
    }
    if total < max {
      forall n, p | 0 <= n < |offsets| && 0 <= p < 64 && p < |ac.patterns| && ac.patterns[p] != [] &&
                    StandsWithin(ac.given, ac.patterns[p], buffer, offsets[n], lengths[n])
        ensures Match(n, p) in out[..total]
      {
        NameAt(ac.alphaMap, buffer, offsets, lengths, n);
        MatchIsStanding(ac.given, ac.alphaMap, ac.patterns, buffer, offsets[n], lengths[n], names, Match(n, p));
        assert out[..total] == full;
      }
    }
  }

  /** The loop over the names. */
  method ScanNames(ac: Automaton, buffer: seq<Byte>, offsets: seq<nat>, lengths: seq<nat>, out: array<Match>, max: int)
    returns (total: nat)
    requires ac.Valid() && Outside(ac, out) && max <= out.Length
    requires |offsets| == |lengths|
    requires forall n :: 0 <= n < |offsets| ==> offsets[n] + lengths[n] <= |buffer|
    modifies out
    ensures CutOff(out[..], total, AllMatches(ac.pats, MapAll(ac.alphaMap, Slices(buffer, offsets, lengths))), max)
    ensures total == 0 || total <= max
  {
    total := 0;
    var n := 0;
    ghost var names := MapAll(ac.alphaMap, Slices(buffer, offsets, lengths));
    assert names[..0] == [];
    while n < |offsets| && total < max
      invariant n <= |offsets|
      invariant CutOff(out[..], total, AllMatches(ac.pats, names[..n]), max)
      invariant total == 0 || total <= max
    {
      AllMatchesStep(ac.pats, names, n);
      var text := buffer[offsets[n]..offsets[n] + lengths[n]];
      total := ScanName(ac, out, n, text, total, max, AllMatches(ac.pats, names[..n]));
      n := n + 1;
    }
    AllMatchesCut(ac.pats, names, n, out[..], total, max);
  }

  /** The pattern stands somewhere in the length bytes of the buffer from offset on. */
  ghost predicate StandsWithin(given: Option<seq<nat>>, pattern: seq<Byte>, buffer: seq<Byte>, offset: nat, length: nat)
    requires GivenOk(given)
  {
    exists i :: offset <= i && i + |pattern| <= offset + length && Stands(given, pattern, buffer, i)
  }

  // Position i of a slice is position offset + i of the buffer.
  lemma StandsShifted(given: Option<seq<nat>>, pattern: seq<Byte>, buffer: seq<Byte>, offset: nat, length: nat, i: nat)
    requires GivenOk(given) && offset + length <= |buffer| && i + |pattern| <= length
    ensures Stands(given, pattern, buffer[offset..offset + length], i) <==> Stands(given, pattern, buffer, offset + i)
  {
    var text := buffer[offset..offset + length];
    forall j | 0 <= j < |pattern|
      ensures Same(given, text[i + j], pattern[j]) <==> Same(given, buffer[offset + i + j], pattern[j])
    {
      assert text[i + j] == buffer[offset + i + j];
    }
  }

  lemma WithinIsSlice(given: Option<seq<nat>>, pattern: seq<Byte>, buffer: seq<Byte>, offset: nat, length: nat)
    requires GivenOk(given) && offset + length <= |buffer|
    ensures StandsWithin(given, pattern, buffer, offset, length) <==>
            StandsIn(given, pattern, buffer[offset..offset + length])
  {
    var text := buffer[offset..offset + length];
    if i: nat :| offset <= i && i + |pattern| <= offset + length && Stands(given, pattern, buffer, i) {
      StandsShifted(given, pattern, buffer, offset, length, i - offset);
    }
    if i: nat :| Stands(given, pattern, text, i) {
      StandsShifted(given, pattern, buffer, offset, length, i);
    }
  }

  /** A name reports patterns below 64, and one that is not empty exactly when it stands in the name. */
  lemma {:induction false} NameIsStanding(given: Option<seq<nat>>, m: seq<nat>, patterns: seq<seq<Byte>>,
                                          buffer: seq<Byte>, offset: nat, length: nat, p: nat)
    requires GivenOk(given) && MapOf(given, m) && offset + length <= |buffer|
    ensures var ids := NameIds(MapAll(m, patterns), MapText(m, buffer[offset..offset + length]));
            && (p in ids ==> p < 64 && p < |patterns|)
            && (p < 64 && p < |patterns| && patterns[p] != [] ==>
                (p in ids <==> StandsWithin(given, patterns[p], buffer, offset, length)))
  {
    NameReports(MapAll(m, patterns), MapText(m, buffer[offset..offset + length]), p);
    if p < |patterns| && patterns[p] != [] {
      assert MapAll(m, patterns)[p] == MapText(m, patterns[p]);
      OccursIs(given, m, patterns[p], buffer[offset..offset + length]);
      WithinIsSlice(given, patterns[p], buffer, offset, length);
    }
  }

  /** So a match on the list is in range, and for a pattern that is not empty says that it stands in the name. */
  lemma {:induction false} MatchIsStanding(given: Option<seq<nat>>, m: seq<nat>, patterns: seq<seq<Byte>>,
                                           buffer: seq<Byte>, offset: nat, length: nat, names: seq<Word>, x: Match)
    requires GivenOk(given) && MapOf(given, m) && offset + length <= |buffer|
    requires x.name < |names| && names[x.name] == MapText(m, buffer[offset..offset + length])
    ensures x in AllMatches(MapAll(m, patterns), names) ==> x.id < 64 && x.id < |patterns|
    ensures x.id < 64 && x.id < |patterns| && patterns[x.id] != [] ==>
            (x in AllMatches(MapAll(m, patterns), names) <==>
             StandsWithin(given, patterns[x.id], buffer, offset, length))
  {
    AllMatchesHas(MapAll(m, patterns), names, x);
    NameIsStanding(given, m, patterns, buffer, offset, length, x.id);
  }

  lemma NameAt(m: seq<nat>, buffer: seq<Byte>, offsets: seq<nat>, lengths: seq<nat>, n: nat)
    requires |m| == BYTE_RANGE && |offsets| == |lengths| && n < |offsets|
    requires forall n :: 0 <= n < |offsets| ==> offsets[n] + lengths[n] <= |buffer|
    ensures MapAll(m, Slices(buffer, offsets, lengths))[n] == MapText(m, buffer[offsets[n]..offsets[n] + lengths[n]])
  {
  }

  lemma AllMatchesStep(pats: seq<Word>, names: seq<Word>, n: nat)
    requires n < |names|
    ensures AllMatches(pats, names[..n + 1]) == AllMatches(pats, names[..n]) + Tagged(n, NameIds(pats, names[n]))
  {
    assert names[..n + 1][..n] == names[..n];
  }

  lemma AllMatchesCut(pats: seq<Word>, names: seq<Word>, n: nat, out: seq<Match>, total: nat, max: int)
    requires n <= |names| && (n < |names| ==> total >= max)
    requires CutOff(out, total, AllMatches(pats, names[..n]), max)
    ensures CutOff(out, total, AllMatches(pats, names), max)
  {
    AllMatchesExtend(pats, names, n);
    if n < |names| {
      PrefixCut(out, total, AllMatches(pats, names[..n]), AllMatches(pats, names), max);
    } else {
      assert names[..n] == names;
    }
  }

  lemma PrefixCut<T>(out: seq<T>, total: nat, part: seq<T>, full: seq<T>, max: int)
    requires part <= full && total >= max && CutOff(out, total, part, max)
    ensures CutOff(out, total, full, max)
  {
    assert full[..total] == part[..total];
  }

  lemma {:induction false} AllMatchesExtend(pats: seq<Word>, names: seq<Word>, n: nat)
    requires n <= |names|
    ensures AllMatches(pats, names[..n]) <= AllMatches(pats, names)
    decreases |names| - n
  {
    if n < |names| {
      assert names[..n + 1][..n] == names[..n];
      AllMatchesExtend(pats, names, n + 1);
    } else {
      assert names[..n] == names;
    }
  }

  /** Matches come in the order of their names, and none comes twice. */
  lemma {:induction false} AllMatchesNames(pats: seq<Word>, names: seq<Word>)
    ensures forall i :: 0 <= i < |AllMatches(pats, names)| ==> AllMatches(pats, names)[i].name < |names|
    ensures forall i, j :: 0 <= i < j < |AllMatches(pats, names)| ==>
            AllMatches(pats, names)[i] != AllMatches(pats, names)[j] &&
            AllMatches(pats, names)[i].name <= AllMatches(pats, names)[j].name
  {
    if names != [] {
      AllMatchesNames(pats, names[..|names| - 1]);
      NameIdsExact(pats, names[|names| - 1]);
    }
  }

  lemma TaggedHas(name: nat, ids: seq<nat>, m: Match)
    ensures m in Tagged(name, ids) <==> m.name == name && m.id in ids
  {
    if m.name == name && m.id in ids {
      var i :| 0 <= i < |ids| && ids[i] == m.id;
      assert Tagged(name, ids)[i] == m;
    }
  }

  lemma {:induction false} AllMatchesHas(pats: seq<Word>, names: seq<Word>, m: Match)
    ensures m in AllMatches(pats, names) <==> m.name < |names| && m.id in NameIds(pats, names[m.name])
  {
    if names != [] {
      AllMatchesHas(pats, names[..|names| - 1], m);
      TaggedHas(|names| - 1, NameIds(pats, names[|names| - 1]), m);
    }
  }

  /** With enough room, a match is written exactly for each id that its name reports. */
  lemma AllMatchesExact(pats: seq<Word>, names: seq<Word>, m: Match)
    ensures m in AllMatches(pats, names) <==>
            m.name < |names| && m.id < WIDTH && BatchMatched(pats, names[m.name], m.id)
  {
    AllMatchesHas(pats, names, m);
    if m.name < |names| {
      NameReports(pats, names[m.name], m.id);
    }
  }
}
