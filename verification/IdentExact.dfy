/**
  What a run of internal/pmm/extract_defs.c appends when nothing gets in its way: the identifiers in the
  order in which they first occur, with spaces between them.
 */
module IdentExact {
  import opened Sequences
  import opened IdentTokens
  import opened IdentLoss

  // ----- the text of the buffer

  /** Words one after the other with a space, which is byte 32, between each two. */
  function Spaced(ws: seq<Text>): (s: Text) {
    if ws == [] then [] else if |ws| == 1 then ws[0] else ws[0] + [32] + Spaced(ws[1..])
  }

  ghost predicate NoneEmpty(ws: seq<Text>) {
    forall i :: 0 <= i < |ws| ==> ws[i] != []
  }

  lemma {:induction false} SpacedAppend(ws: seq<Text>, w: Text)
    ensures Spaced(ws + [w]) == if ws == [] then w else Spaced(ws) + [32] + w
  {
    if ws == [] {
      assert [] + [w] == [w];
    } else if |ws| == 1 {
      assert (ws + [w])[1..] == [w] && ws[0] + [32] + w == Spaced(ws) + [32] + w;
    } else {
      assert (ws + [w])[1..] == ws[1..] + [w];
      SpacedAppend(ws[1..], w);
      Assoc(ws[0] + [32], Spaced(ws[1..]) + [32], w);
      Assoc(ws[0] + [32], Spaced(ws[1..]), [32]);
    }
  }

  lemma {:induction false} SpacedNotEmpty(ws: seq<Text>)
    requires NoneEmpty(ws) && ws != []
    ensures Spaced(ws) != []
  {
  }

  /** The buffer holds the words so. */
  lemma {:induction false} JoinIsSpaced(ws: seq<Text>)
    requires NoneEmpty(ws)
    ensures Join(ws) == Spaced(ws)
  {
    if ws != [] {
      var front, w := ws[..|ws| - 1], ws[|ws| - 1];
      assert ws == front + [w];
      JoinIsSpaced(front);
      SpacedAppend(front, w);
      if front != [] {
        SpacedNotEmpty(front);
      }
      assert [] + w == w;
    }
  }

  /** Only words that were handled are appended. */
  lemma {:induction false} AppendedWasHandled(ws: seq<Text>, w: Text)
    requires w in TryAll(EMPTY, ws).words
    ensures w in ws
  {
    var front, last := ws[..|ws| - 1], ws[|ws| - 1];
    SplitLast(ws);
    if w in TryAll(EMPTY, front).words {
      AppendedWasHandled(front, w);
    }
  }

  // ----- a run without collisions and with room

  /** Each word once, where it comes first. */
  function Firsts(ws: seq<Text>): (fs: seq<Text>) {
    if ws == [] then []
    else
      var front, w := ws[..|ws| - 1], ws[|ws| - 1];
      Firsts(front) + if w in front then [] else [w]
  }

  lemma {:induction false} FirstsAre(ws: seq<Text>)
    ensures Distinct(Firsts(ws)) && forall w :: w in Firsts(ws) <==> w in ws
  {
    if ws != [] {
      var front, w := ws[..|ws| - 1], ws[|ws| - 1];
      SplitLast(ws);
      FirstsAre(front);
      if w !in front {
        DistinctAppend(Firsts(front), w);
      }
    }
  }

  /** The room that words take at most, with a byte behind each. */
  function Span(ws: seq<Text>): nat {
    if ws == [] then 0 else Span(ws[..|ws| - 1]) + |ws[|ws| - 1]| + 1
  }

  /** Different words have hashes that differ, and not in the lowest bit alone. */
  ghost predicate NoCollisions(ws: seq<Text>) {
    forall i, j :: 0 <= i < |ws| && 0 <= j < |ws| && Hash(ws[i]) / 2 == Hash(ws[j]) / 2 ==> ws[i] == ws[j]
  }

  lemma KeyIsHalf(h: Word32, g: Word32)
    ensures Key(h) == Key(g) <==> h / 2 == g / 2
  {
  }

  lemma {:induction false} HashesAtMost(ws: seq<Text>)
    ensures |HashesOf(ws)| <= |ws|
  {
    if ws != [] {
      HashesAtMost(ws[..|ws| - 1]);
    }
  }

  lemma {:induction false} JoinAtMost(ws: seq<Text>)
    ensures |Join(ws)| <= Span(ws)
  {
    if ws != [] {
      JoinAtMost(ws[..|ws| - 1]);
    }
  }

  lemma SpanAppend(ws: seq<Text>, w: Text)
    ensures Span(ws + [w]) == Span(ws) + |w| + 1
  {
    assert (ws + [w])[..|ws|] == ws;
  }

  lemma {:induction false} FirstsSpan(ws: seq<Text>)
    ensures Span(Firsts(ws)) <= Span(ws)
  {
    if ws != [] {
      var front, w := ws[..|ws| - 1], ws[|ws| - 1];
      FirstsSpan(front);
      if w in front {
        assert Firsts(front) + [] == Firsts(front);
      } else {
        SpanAppend(Firsts(front), w);
      }
    }
  }

  /** A word is new to the table exactly when it was not handled before. */
  lemma {:induction false} SeenIffHandled(ws: seq<Text>, w: Text)
    requires |ws| < 256 && NoCollisions(ws + [w])
    ensures Seen(TryAll(EMPTY, ws).table, Hash(w)) <==> w in ws
  {
    HashesAtMost(ws);
    FullBounds(ws);
    HashesExact(ws, Hash(w));
    KeysExact(ws, Key(Hash(w)));
    forall j | 0 <= j < |ws| && Key(Hash(ws[j])) == Key(Hash(w))
      ensures ws[j] == w
    {
      KeyIsHalf(Hash(ws[j]), Hash(w));
      assert (ws + [w])[j] == ws[j] && (ws + [w])[|ws|] == w;
    }
    if w in ws {
      var j :| 0 <= j < |ws| && ws[j] == w;
      assert Hash(ws[j]) == Hash(w);
      HandledIsSeen(ws, Hash(w));
    }
    if Seen(TryAll(EMPTY, ws).table, Hash(w)) {
      SeenHasKey(ws, Hash(w));
    }
  }

  /**
    A run of at most 256 identifiers without collisions and with room for all appends each identifier once,
    in the order in which they first occur.
   */
  lemma {:induction false} AllAppended(ws: seq<Text>)
    requires |ws| <= 256 && NoCollisions(ws) && Span(ws) < 2048
    ensures TryAll(EMPTY, ws).words == Firsts(ws)
  {
    if ws != [] {
      var front, w := ws[..|ws| - 1], ws[|ws| - 1];
      SplitLast(ws);
      assert forall i :: 0 <= i < |front| ==> front[i] == ws[i];
      AllAppended(front);
      SeenIffHandled(front, w);
      FirstsSpan(front);
      JoinAtMost(Firsts(front));
      assert HasRoom(Firsts(front), w);
    }
  }
}
