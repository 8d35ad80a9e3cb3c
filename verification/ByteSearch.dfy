/**
  What the scanners find, said of the bytes: where a pattern stands in a text, with the map that was
  given or with none.
 */
module ByteSearch {
  import opened Sequences
  import opened Words
  import opened Matching
  import opened AhoCorasick

  /** The map given to a build, if any, has an entry for each of the 256 bytes. */
  predicate GivenOk(given: Option<seq<nat>>) {
    given.Some? ==> |given.value| == 256
  }

  /** Two bytes are the same to the matcher: when they are equal, or when a map that was given takes them together. */
  predicate Same(given: Option<seq<nat>>, a: Byte, b: Byte)
    requires GivenOk(given)
  {
    match given
    case None => a == b
    case Some(m) => m[a] == m[b]
  }

  /** The pattern stands at position i of the text. */
  predicate Stands(given: Option<seq<nat>>, pattern: seq<Byte>, text: seq<Byte>, i: nat)
    requires GivenOk(given)
  {
    i + |pattern| <= |text| && forall j :: 0 <= j < |pattern| ==> Same(given, text[i + j], pattern[j])
  }

  ghost predicate StandsIn(given: Option<seq<nat>>, pattern: seq<Byte>, text: seq<Byte>)
    requires GivenOk(given)
  {
    exists i :: Stands(given, pattern, text, i)
  }

  predicate BeginsNone(given: Option<seq<nat>>, patterns: seq<seq<Byte>>, c: Byte)
    requires GivenOk(given)
  {
    forall q :: 0 <= q < |patterns| && patterns[q] != [] ==> !Same(given, patterns[q][0], c)
  }

  /** What a scan finds: a pattern that stands somewhere; an empty one where a byte begins no pattern. */
  ghost predicate Found(given: Option<seq<nat>>, patterns: seq<seq<Byte>>, text: seq<Byte>, p: nat)
    requires GivenOk(given)
  {
    p < |patterns| &&
    if patterns[p] != [] then StandsIn(given, patterns[p], text)
    else exists i :: 0 <= i < |text| && BeginsNone(given, patterns, text[i])
  }

  // ----- the same of the mapped words

  /** The map a build works with: the one given, or each byte its own class. */
  predicate MapOf(given: Option<seq<nat>>, m: seq<nat>) {
    && |m| == BYTE_RANGE == 256
    && match given
       case None => forall c :: 0 <= c < 256 ==> m[c] == c
       case Some(m') => m == m'
  }

  lemma SameIs(given: Option<seq<nat>>, m: seq<nat>, a: Byte, b: Byte)
    requires GivenOk(given) && MapOf(given, m)
    ensures Same(given, a, b) <==> m[a] == m[b]
  {
  }

  lemma StandsIs(given: Option<seq<nat>>, m: seq<nat>, pattern: seq<Byte>, text: seq<Byte>, i: nat)
    requires GivenOk(given) && MapOf(given, m)
    ensures var w, t := MapText(m, pattern), MapText(m, text);
            Stands(given, pattern, text, i) <==> i <= |t| - |w| && t[i..][..|w|] == w
  {
    var w, t := MapText(m, pattern), MapText(m, text);
    if i + |pattern| <= |text| {
      forall j | 0 <= j < |pattern|
        ensures Same(given, text[i + j], pattern[j]) <==> t[i..][..|w|][j] == w[j]
      {
        SameIs(given, m, text[i + j], pattern[j]);
        assert t[i..][..|w|][j] == t[i + j];
      }
    }
  }

  lemma BeginsNoneIs(given: Option<seq<nat>>, m: seq<nat>, patterns: seq<seq<Byte>>, c: Byte)
    requires GivenOk(given) && MapOf(given, m)
    ensures BeginsNone(given, patterns, c) <==> !IsNode(MapAll(m, patterns), [m[c]])
  {
    var pats := MapAll(m, patterns);
    forall q | 0 <= q < |patterns|
      ensures [m[c]] <= pats[q] <==> patterns[q] != [] && Same(given, patterns[q][0], c)
    {
      assert pats[q] == MapText(m, patterns[q]);
      if patterns[q] != [] {
        SameIs(given, m, patterns[q][0], c);
        assert pats[q][0] == m[patterns[q][0]];
      }
    }
  }

  lemma OccursIs(given: Option<seq<nat>>, m: seq<nat>, pattern: seq<Byte>, text: seq<Byte>)
    requires GivenOk(given) && MapOf(given, m)
    ensures StandsIn(given, pattern, text) <==> Occurs(MapText(m, pattern), MapText(m, text))
  {
    var w, t := MapText(m, pattern), MapText(m, text);
    if i :| Stands(given, pattern, text, i) {
      StandsIs(given, m, pattern, text, i);
    }
    if Occurs(w, t) {
      var i :| 0 <= i <= |t| - |w| && t[i..][..|w|] == w;
      StandsIs(given, m, pattern, text, i);
    }
  }

  /** Naive search over the mapped text is naive search over the bytes. */
  lemma FoundIs(given: Option<seq<nat>>, m: seq<nat>, patterns: seq<seq<Byte>>, text: seq<Byte>, p: nat)
    requires GivenOk(given) && MapOf(given, m)
    ensures Found(given, patterns, text, p) <==> Matched(MapAll(m, patterns), MapText(m, text), p)
  {
    if p < |patterns| {
      assert MapAll(m, patterns)[p] == MapText(m, patterns[p]);
      if patterns[p] != [] {
        OccursIs(given, m, patterns[p], text);
      } else {
        forall i | 0 <= i < |text|
          ensures BeginsNone(given, patterns, text[i]) <==> !IsNode(MapAll(m, patterns), [MapText(m, text)[i]])
        {
          BeginsNoneIs(given, m, patterns, text[i]);
        }
      }
    }
  }

  /** Without a map a pattern that is not empty is found exactly when it is a piece of the text. */
  lemma PlainIsPiece(patterns: seq<seq<Byte>>, text: seq<Byte>, p: nat)
    requires p < |patterns| && patterns[p] != []
    ensures Found(None, patterns, text, p) <==>
            exists i :: 0 <= i <= |text| - |patterns[p]| && text[i..][..|patterns[p]|] == patterns[p]
  {
    var w := patterns[p];
    if i: nat :| Stands(None, w, text, i) {
      assert text[i..][..|w|] == w;
    }
    if i :| 0 <= i <= |text| - |w| && text[i..][..|w|] == w {
      forall j | 0 <= j < |w|
        ensures Same(None, text[i + j], w[j])
      {
        assert text[i..][..|w|][j] == text[i + j];
      }
      assert Stands(None, w, text, i);
    }
  }
}
