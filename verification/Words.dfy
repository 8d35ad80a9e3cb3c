/**
  Words over the mapped alphabet, and the theory behind the matcher: which words are trie nodes for
  a list of patterns, the longest suffix of a text that is a node, and what a node must report.
  Nothing here mentions states or tables.
 */
module Words {
  type Word = seq<nat>

  predicate IsSuffix(u: Word, w: Word) {
    |u| <= |w| && w[|w| - |u|..] == u
  }

  /** Naive substring search: p stands at some offset of t. */
  predicate Occurs(p: Word, t: Word) {
    exists i :: 0 <= i <= |t| - |p| && t[i..][..|p|] == p
  }

  /** w is a prefix of one of the patterns; the empty word always is a node. */
  predicate IsNode(pats: seq<Word>, w: Word) {
    w == [] || exists p :: 0 <= p < |pats| && w <= pats[p]
  }

  function LongestSuffix(pats: seq<Word>, t: Word): (w: Word)
    ensures IsNode(pats, w) && IsSuffix(w, t)
  {
    if IsNode(pats, t) then t else LongestSuffix(pats, t[1..])
  }

  lemma {:induction false} NodePrefix(pats: seq<Word>, w: Word, c: nat)
    requires IsNode(pats, w + [c])
    ensures IsNode(pats, w)
  {
    var p :| 0 <= p < |pats| && w + [c] <= pats[p];
    assert w <= pats[p] by { assert (w + [c])[..|w|] == w; }
  }

  /** No suffix of t that is a node is longer than LongestSuffix; each is a suffix of it. */
  lemma {:induction false} LongestSuffixIsLongest(pats: seq<Word>, t: Word, u: Word)
    requires IsNode(pats, u) && IsSuffix(u, t)
    ensures IsSuffix(u, LongestSuffix(pats, t))
    decreases |t|
  {
    if !IsNode(pats, t) {
      assert u != t;
      assert t[1..][|t[1..]| - |u|..] == t[|t| - |u|..];
      LongestSuffixIsLongest(pats, t[1..], u);
    }
  }

  /** Reading one more letter only needs the longest suffix found so far. */
  lemma {:induction false} LongestSuffixStep(pats: seq<Word>, t: Word, c: nat)
    ensures LongestSuffix(pats, t + [c]) == LongestSuffix(pats, LongestSuffix(pats, t) + [c])
    decreases |t|
  {
    if !IsNode(pats, t) {
      if IsNode(pats, t + [c]) {
        NodePrefix(pats, t, c);
      }
      assert (t + [c])[1..] == t[1..] + [c];
      LongestSuffixStep(pats, t[1..], c);
    }
  }

  /** The failure link of a non-empty node. */
  function Fail(pats: seq<Word>, w: Word): (f: Word)
    requires w != []
    ensures IsNode(pats, f) && IsSuffix(f, w) && |f| < |w|
  {
    var f := LongestSuffix(pats, w[1..]);
    assert w[1..][|w| - 1 - |f|..] == w[|w| - |f|..];
    f
  }

  /** Where the automaton goes from node w on letter c. */
  function Delta(pats: seq<Word>, w: Word, c: nat): (d: Word)
    ensures IsNode(pats, d) && IsSuffix(d, w + [c])
  {
    LongestSuffix(pats, w + [c])
  }

  /** The recurrence the breadth-first pass relies on, for both branches of its inner loop. */
  lemma {:induction false} DeltaThroughFail(pats: seq<Word>, w: Word, c: nat)
    requires w != []
    ensures !IsNode(pats, w + [c]) ==> Delta(pats, w, c) == Delta(pats, Fail(pats, w), c)
    ensures Fail(pats, w + [c]) == Delta(pats, Fail(pats, w), c)
  {
    assert (w + [c])[1..] == w[1..] + [c];
    LongestSuffixStep(pats, w[1..], c);
  }

  /**
    What the built automaton reports at node w. A non-empty pattern is reported exactly where it is
    a suffix. An empty pattern sits on the root alone, and the breadth-first pass never merges the
    root into a depth-one node, so it is inherited only past letters that begin no pattern.
   */
  predicate Reports(pats: seq<Word>, w: Word, p: nat)
  {
    p < |pats| &&
    if pats[p] != [] then IsSuffix(pats[p], w)
    else w == [] || !IsNode(pats, [w[|w| - 1]])
  }

  lemma {:induction false} ReportsShallow(pats: seq<Word>, w: Word, p: nat)
    requires |w| <= 1 && IsNode(pats, w) && p < |pats|
    ensures Reports(pats, w, p) <==> pats[p] == w
  {
    if |w| == 1 {
      assert [w[0]] == w;
    }
  }

  lemma {:induction false} ReportsDeep(pats: seq<Word>, w: Word, p: nat)
    requires |w| >= 2 && IsNode(pats, w) && p < |pats|
    ensures Reports(pats, w, p) <==> pats[p] == w || Reports(pats, Fail(pats, w), p)
  {
    var f := Fail(pats, w);
    if pats[p] != [] {
      assert IsNode(pats, pats[p]);
      if IsSuffix(pats[p], w) && pats[p] != w {
        assert w[1..][|w| - 1 - |pats[p]|..] == w[|w| - |pats[p]|..];
        LongestSuffixIsLongest(pats, w[1..], pats[p]);
      }
      if IsSuffix(pats[p], f) {
        SuffixTrans(pats[p], f, w);
      }
    } else {
      LastLetter(pats, w[1..]);
    }
  }

  lemma {:induction false} SuffixTrans(u: Word, v: Word, w: Word)
    requires IsSuffix(u, v) && IsSuffix(v, w)
    ensures IsSuffix(u, w)
  {
    assert w[|w| - |v|..][|v| - |u|..] == w[|w| - |u|..];
  }

  /** The longest suffix keeps the last letter of the text when that letter begins a pattern. */
  lemma {:induction false} LastLetter(pats: seq<Word>, t: Word)
    requires t != []
    ensures var w := LongestSuffix(pats, t);
            if w == [] then !IsNode(pats, [t[|t| - 1]]) else w[|w| - 1] == t[|t| - 1]
  {
    var w := LongestSuffix(pats, t);
    if w == [] && IsNode(pats, [t[|t| - 1]]) {
      assert IsSuffix([t[|t| - 1]], t);
      LongestSuffixIsLongest(pats, t, [t[|t| - 1]]);
    } else if w != [] {
      assert w[|w| - 1] == t[|t| - |w|..][|w| - 1];
    }
  }

  /** Reporting at the longest suffix of t: the patterns that end where t ends. */
  lemma {:induction false} ReportsAtText(pats: seq<Word>, t: Word, p: nat)
    requires t != [] && p < |pats|
    ensures Reports(pats, LongestSuffix(pats, t), p) <==>
            if pats[p] != [] then IsSuffix(pats[p], t) else !IsNode(pats, [t[|t| - 1]])
  {
    var w := LongestSuffix(pats, t);
    LastLetter(pats, t);
    if pats[p] != [] {
      assert IsNode(pats, pats[p]);
      if IsSuffix(pats[p], t) {
        LongestSuffixIsLongest(pats, t, pats[p]);
      }
      if IsSuffix(pats[p], w) {
        SuffixTrans(pats[p], w, t);
      }
    }
  }

  /** Occurring somewhere is ending somewhere. */
  lemma {:induction false} OccursIffEnds(p: Word, t: Word)
    ensures Occurs(p, t) <==> exists e :: 0 <= e <= |t| && IsSuffix(p, t[..e])
  {
    if Occurs(p, t) {
      var i :| 0 <= i <= |t| - |p| && t[i..][..|p|] == p;
      var e := i + |p|;
      assert t[..e][|t[..e]| - |p|..] == t[i..][..|p|];
      assert IsSuffix(p, t[..e]);
    }
    if exists e :: 0 <= e <= |t| && IsSuffix(p, t[..e]) {
      var e :| 0 <= e <= |t| && IsSuffix(p, t[..e]);
      assert t[e - |p|..][..|p|] == t[..e][|t[..e]| - |p|..];
    }
  }

  // ----- the nodes as a finite set, for the state count

  function Prefixes(w: Word): (s: set<Word>)
    ensures forall u :: u in s <==> u <= w
  {
    var s := set i | 0 <= i <= |w| :: w[..i];
    assert forall u :: u <= w ==> u == w[..|u|];
    s
  }

  function Nodes(pats: seq<Word>): (s: set<Word>)
    ensures forall w :: w in s <==> IsNode(pats, w)
  {
    if pats == [] then {[]} else
      var rest := pats[..|pats| - 1];
      NodesSplit(pats);
      Nodes(rest) + Prefixes(pats[|pats| - 1])
  }

  lemma {:induction false} NodesSplit(pats: seq<Word>)
    requires pats != []
    ensures forall w :: IsNode(pats, w) <==> IsNode(pats[..|pats| - 1], w) || w <= pats[|pats| - 1]
  {
    var rest, last := pats[..|pats| - 1], pats[|pats| - 1];
    forall w: Word
      ensures IsNode(pats, w) <==> IsNode(rest, w) || w <= last
    {
      if IsNode(rest, w) && w != [] {
        var p :| 0 <= p < |rest| && w <= rest[p];
        assert w <= pats[p];
      }
      if IsNode(pats, w) && w != [] {
        var p :| 0 <= p < |pats| && w <= pats[p];
        assert p < |rest| ==> w <= rest[p];
      }
    }
  }

  function TotalLength(pats: seq<Word>): nat {
    if pats == [] then 0 else TotalLength(pats[..|pats| - 1]) + |pats[|pats| - 1]|
  }
}
