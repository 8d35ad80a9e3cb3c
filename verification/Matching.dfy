/**
  What scanning a text through the finished automaton means: the state is the longest suffix that is
  a node, and the ids collected are those of naive substring search.
 */
module Matching {
  import opened Words
  import opened Bitmask
  import opened Trie
  import opened Failure

  /**
    Naive search over the mapped text: which ids below 64 a scan reports. A non-empty pattern is
    reported exactly when it occurs. An empty pattern is reported exactly when some letter of the
    text begins no pattern.
   */
  predicate Matched(pats: seq<Word>, t: Word, p: nat) {
    p < |pats| &&
    if pats[p] != [] then Occurs(pats[p], t)
    else exists i :: 0 <= i < |t| && !IsNode(pats, [t[i]])
  }

  ghost function MatchedIds(pats: seq<Word>, t: Word): (ids: set<nat>) {
    set p: nat | p < WIDTH && Matched(pats, t, p)
  }

  /** The union of what the states visited on t report. */
  ghost function VisitedIds(pats: seq<Word>, t: Word): (ids: set<nat>) {
    if t == [] then {} else VisitedIds(pats, t[..|t| - 1]) + ReportIds(pats, LongestSuffix(pats, t))
  }

  ghost predicate ReportedAt(pats: seq<Word>, t: Word, p: nat, e: nat)
    requires 0 < e <= |t|
  {
    p in ReportIds(pats, LongestSuffix(pats, t[..e]))
  }

  lemma {:induction false} ReportedIsVisited(pats: seq<Word>, t: Word, p: nat, e: nat)
    requires 0 < e <= |t| && ReportedAt(pats, t, p, e)
    ensures p in VisitedIds(pats, t)
  {
    if e < |t| {
      var front := t[..|t| - 1];
      assert front[..e] == t[..e];
      ReportedIsVisited(pats, front, p, e);
    } else {
      assert t[..e] == t;
    }
  }

  lemma {:induction false} VisitedIsReported(pats: seq<Word>, t: Word, p: nat) returns (e: nat)
    requires p in VisitedIds(pats, t)
    ensures 0 < e <= |t| && ReportedAt(pats, t, p, e)
  {
    if p in ReportIds(pats, LongestSuffix(pats, t)) {
      e := |t|;
      assert t[..e] == t;
    } else {
      var front := t[..|t| - 1];
      e := VisitedIsReported(pats, front, p);
      assert front[..e] == t[..e];
    }
  }

  /** What one prefix of the text contributes for id p. */
  ghost predicate EndsAt(pats: seq<Word>, t: Word, p: nat, e: nat)
    requires 0 < e <= |t| && p < |pats|
  {
    if pats[p] != [] then IsSuffix(pats[p], t[..e]) else !IsNode(pats, [t[e - 1]])
  }

  lemma ReportIffEnds(pats: seq<Word>, t: Word, p: nat, e: nat)
    requires 0 < e <= |t|
    ensures ReportedAt(pats, t, p, e) <==> p < WIDTH && p < |pats| && EndsAt(pats, t, p, e)
  {
    var u := t[..e];
    assert u[|u| - 1] == t[e - 1];
    InReportIds(pats, LongestSuffix(pats, u), p);
    if p < |pats| {
      ReportsAtText(pats, u, p);
    }
  }

  lemma InReportIds(pats: seq<Word>, w: Word, p: nat)
    ensures p in ReportIds(pats, w) <==> p < WIDTH && Reports(pats, w, p)
  {
  }

  /** The ids collected along the scan are those of naive search. */
  lemma {:induction false} VisitedIsMatched(pats: seq<Word>, t: Word)
    ensures VisitedIds(pats, t) == MatchedIds(pats, t)
  {
    forall p: nat
      ensures p in VisitedIds(pats, t) <==> p in MatchedIds(pats, t)
    {
      EndsIffMatched(pats, t, p);
      if p in VisitedIds(pats, t) {
        var e := VisitedIsReported(pats, t, p);
        ReportIffEnds(pats, t, p, e);
      }
      if p in MatchedIds(pats, t) {
        var e: nat :| 0 < e <= |t| && EndsAt(pats, t, p, e);
        ReportIffEnds(pats, t, p, e);
        ReportedIsVisited(pats, t, p, e);
      }
    }
  }

  lemma EndsIffMatched(pats: seq<Word>, t: Word, p: nat)
    ensures Matched(pats, t, p) <==> p < |pats| && exists e :: 0 < e <= |t| && EndsAt(pats, t, p, e)
  {
    if p < |pats| {
      if pats[p] != [] {
        OccursIffEnds(pats[p], t);
        if Occurs(pats[p], t) {
          var e :| 0 <= e <= |t| && IsSuffix(pats[p], t[..e]);
          assert EndsAt(pats, t, p, e);
        }
      } else if exists i :: 0 <= i < |t| && !IsNode(pats, [t[i]]) {
        var i :| 0 <= i < |t| && !IsNode(pats, [t[i]]);
        assert EndsAt(pats, t, p, i + 1);
      }
      if exists e :: 0 < e <= |t| && EndsAt(pats, t, p, e) {
        var e :| 0 < e <= |t| && EndsAt(pats, t, p, e);
        if pats[p] == [] {
          assert !IsNode(pats, [t[e - 1]]);
        }
      }
    }
  }

  /** Following one finished cell keeps the state at the longest suffix of the text read. */
  lemma ScanStep(b: Built, rows: Rows, s: nat, t: Word, c: nat)
    requires WellBuilt(b) && s < |b.spell| <= |rows| && RowUpTo(b, s, rows[s], b.k) && c < b.k
    requires b.spell[s] == LongestSuffix(b.pats, t)
    ensures 0 <= rows[s][c] < |b.spell|
    ensures b.spell[rows[s][c]] == LongestSuffix(b.pats, t + [c])
  {
    assert DoneCell(b, s, c, rows[s][c]);
    LongestSuffixStep(b.pats, t, c);
  }

  /**
    When the scan equals naive search for every pattern, empty ones included, where an empty pattern
    occurs in every text: exactly when no pattern below 64 is empty or some letter of the text
    begins no pattern.
   */
  lemma ScanIsSearchIff(pats: seq<Word>, t: Word)
    ensures (forall p: nat :: p < WIDTH && p < |pats| ==> (p in MatchedIds(pats, t) <==> Occurs(pats[p], t)))
            <==> (forall p: nat :: p < WIDTH && p < |pats| ==> pats[p] != [])
                 || (exists i :: 0 <= i < |t| && !IsNode(pats, [t[i]]))
  {
    assert t[0..][..0] == [];
    assert Occurs([], t);
    if p: nat :| p < WIDTH && p < |pats| && pats[p] == [] {
      assert Occurs(pats[p], t);
      assert p in MatchedIds(pats, t) <==> exists i :: 0 <= i < |t| && !IsNode(pats, [t[i]]);
    }
  }

  /** An empty pattern beside "a" is missed in the text "a". */
  lemma EmptyPatternMissed()
    ensures Occurs([], [0]) && !Matched([[], [0]], [0], 0)
  {
    var pats: seq<Word> := [[], [0]];
    assert [0][0..][..0] == [];
    assert pats[1] == [0];
    assert IsNode(pats, [0]);
  }
}
