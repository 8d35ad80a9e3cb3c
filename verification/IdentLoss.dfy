/**
  Which identifiers a run of internal/pmm/extract_defs.c appends: bounds in terms of the identifiers
  handled before, and runs in which one is lost or repeated.
 */
module IdentLoss {
  import opened Sequences
  import opened IdentTokens

  /** The different hashes, and the different keys, of a run. */
  function HashesOf(ws: seq<Text>): (hs: set<Word32>) {
    if ws == [] then {} else HashesOf(ws[..|ws| - 1]) + {Hash(ws[|ws| - 1])}
  }

  function KeysOf(ws: seq<Text>): (ks: set<Word32>) {
    if ws == [] then {} else KeysOf(ws[..|ws| - 1]) + {Key(Hash(ws[|ws| - 1]))}
  }

  lemma HashesAppend(ws: seq<Text>, w: Text)
    ensures HashesOf(ws + [w]) == HashesOf(ws) + {Hash(w)}
    ensures KeysOf(ws + [w]) == KeysOf(ws) + {Key(Hash(w))}
  {
    assert (ws + [w])[..|ws|] == ws;
  }

  lemma {:induction false} HashesExact(ws: seq<Text>, h: Word32)
    ensures h in HashesOf(ws) <==> exists j :: 0 <= j < |ws| && Hash(ws[j]) == h
  {
    if ws != [] {
      HashesExact(ws[..|ws| - 1], h);
      assert forall j :: 0 <= j < |ws| - 1 ==> ws[..|ws| - 1][j] == ws[j];
    }
  }

  lemma {:induction false} KeysExact(ws: seq<Text>, k: Word32)
    ensures k in KeysOf(ws) <==> exists j :: 0 <= j < |ws| && Key(Hash(ws[j])) == k
  {
    if ws != [] {
      KeysExact(ws[..|ws| - 1], k);
      assert forall j :: 0 <= j < |ws| - 1 ==> ws[..|ws| - 1][j] == ws[j];
    }
  }

  lemma TryAllNext(ws: seq<Text>, w: Text)
    ensures TryAll(EMPTY, ws + [w]) == Try(TryAll(EMPTY, ws), w)
  {
    assert (ws + [w])[..|ws|] == ws;
  }

  /** A new hash: its identifier is appended when there is room. */
  lemma NewWord(ws: seq<Text>, w: Text, kept: seq<Text>)
    requires TryAll(EMPTY, ws).words == kept && !Seen(TryAll(EMPTY, ws).table, Hash(w))
    ensures TryAll(EMPTY, ws + [w]).words == if HasRoom(kept, w) then kept + [w] else kept
  {
    TryAllNext(ws, w);
  }

  lemma SplitLast(ws: seq<Text>)
    requires ws != []
    ensures ws == ws[..|ws| - 1] + [ws[|ws| - 1]]
  {
  }

  // ----- the slots in use

  function Taken(t: Table): (s: set<nat>) {
    set i: nat | i < SLOTS && t[i] != 0
  }

  function Below(n: nat): (s: set<nat>)
    ensures |s| == n && forall i: nat :: i in s <==> i < n
  {
    if n == 0 then {} else
      var rest := Below(n - 1);
      assert n - 1 !in rest;
      rest + {n - 1}
  }

  lemma {:induction false} SubsetSize<T>(s: set<T>, t: set<T>)
    requires s <= t
    ensures |s| <= |t| && (|s| == |t| ==> s == t)
  {
    if x :| x in s {
      SubsetSize(s - {x}, t - {x});
    }
  }

  lemma FullIffTaken(t: Table)
    ensures |Taken(t)| <= SLOTS && (Full(t) <==> |Taken(t)| == SLOTS)
  {
    SubsetSize(Taken(t), Below(SLOTS));
    if Full(t) {
      assert Taken(t) == Below(SLOTS);
    } else {
      var i :| 0 <= i < SLOTS && t[i] == 0;
      assert i !in Taken(t) && i in Below(SLOTS);
    }
  }

  /** A hash takes one more slot exactly when it was not met and a slot is empty. */
  lemma InsertTakes(t: Table, h: Word32)
    ensures |Taken(Inserted(t, h))| == |Taken(t)| + if !Seen(t, h) && !Full(t) then 1 else 0
  {
    ProbeFindsSeen(t, h);
    InsertedIsSeen(t, h);
    var p := Probe(t, h, 0);
    if !Seen(t, h) && !Full(t) {
      assert t[Slot(h, p)] == 0;
      assert Taken(Inserted(t, h)) == Taken(t) + {Slot(h, p)};
    }
  }

  // ----- what a run leaves in the table

  /** Every key in the table is the key of an identifier handled before. */
  lemma {:induction false} KeysAreHandled(ws: seq<Text>, i: nat)
    requires i < SLOTS && TryAll(EMPTY, ws).table[i] != 0
    ensures TryAll(EMPTY, ws).table[i] in KeysOf(ws)
  {
    if ws != [] {
      var front, w := ws[..|ws| - 1], ws[|ws| - 1];
      SplitLast(ws);
      HashesAppend(front, w);
      if TryAll(EMPTY, front).table[i] != 0 {
        KeysAreHandled(front, i);
      }
    }
  }

  /** What counts as seen shares its key with an identifier handled before. */
  lemma SeenHasKey(ws: seq<Text>, h: Word32)
    requires Seen(TryAll(EMPTY, ws).table, h)
    ensures Key(h) in KeysOf(ws)
  {
    var t := TryAll(EMPTY, ws).table;
    var p: nat :| p < SLOTS && t[Slot(h, p)] == Key(h) && forall q: nat :: q < p ==> t[Slot(h, q)] != 0;
    KeysAreHandled(ws, Slot(h, p));
  }

  /** While a slot is empty, the hash of every identifier handled before is seen. */
  lemma {:induction false} HandledIsSeen(ws: seq<Text>, h: Word32)
    requires !Full(TryAll(EMPTY, ws).table) && h in HashesOf(ws)
    ensures Seen(TryAll(EMPTY, ws).table, h)
  {
    var front, w := ws[..|ws| - 1], ws[|ws| - 1];
    var t := TryAll(EMPTY, front).table;
    SplitLast(ws);
    HashesAppend(front, w);
    InsertedIsSeen(t, Hash(w));
    if h != Hash(w) {
      HandledIsSeen(front, h);
      SeenStays(t, Hash(w), h);
    }
  }

  lemma NewHash(ws: seq<Text>, w: Text)
    requires !Full(TryAll(EMPTY, ws).table) && !Seen(TryAll(EMPTY, ws).table, Hash(w))
    ensures Hash(w) !in HashesOf(ws)
  {
    if Hash(w) in HashesOf(ws) {
      HandledIsSeen(ws, Hash(w));
    }
  }

  lemma NewHashCount(ws: seq<Text>, w: Text)
    ensures HashesOf(ws) <= HashesOf(ws + [w])
    ensures Hash(w) !in HashesOf(ws) ==> |HashesOf(ws + [w])| == |HashesOf(ws)| + 1
  {
    HashesAppend(ws, w);
  }

  /** The slots in use are at most as many as the different hashes. */
  lemma {:induction false} TakenAtMost(ws: seq<Text>)
    ensures |Taken(TryAll(EMPTY, ws).table)| <= |HashesOf(ws)|
  {
    if ws == [] {
      assert Taken(EMPTY.table) == {};
    } else {
      var front, w := ws[..|ws| - 1], ws[|ws| - 1];
      SplitLast(ws);
      TakenAtMost(front);
      TakenNext(front, w);
    }
  }

  lemma TakenNext(ws: seq<Text>, w: Text)
    requires |Taken(TryAll(EMPTY, ws).table)| <= |HashesOf(ws)|
    ensures |Taken(TryAll(EMPTY, ws + [w]).table)| <= |HashesOf(ws + [w])|
  {
    var t := TryAll(EMPTY, ws).table;
    TryAllNext(ws, w);
    NewHashCount(ws, w);
    InsertTakes(t, Hash(w));
    if !Seen(t, Hash(w)) && !Full(t) {
      NewHash(ws, w);
    } else {
      SubsetSize(HashesOf(ws), HashesOf(ws + [w]));
    }
  }

  /** Until the table is full, they are at least as many as the different keys. */
  lemma {:induction false} TakenAtLeast(ws: seq<Text>)
    ensures Full(TryAll(EMPTY, ws).table) || |KeysOf(ws)| <= |Taken(TryAll(EMPTY, ws).table)|
  {
    if ws != [] {
      var front, w := ws[..|ws| - 1], ws[|ws| - 1];
      var t := TryAll(EMPTY, front).table;
      SplitLast(ws);
      HashesAppend(front, w);
      TakenAtLeast(front);
      InsertTakes(t, Hash(w));
      InsertedIsSeen(t, Hash(w));
      if Seen(t, Hash(w)) {
        SeenHasKey(front, Hash(w));
        assert KeysOf(ws) == KeysOf(front);
      }
    }
  }

  /** Fewer than 256 different hashes leave an empty slot; 256 different keys leave none. */
  lemma FullBounds(ws: seq<Text>)
    ensures |HashesOf(ws)| < 256 ==> !Full(TryAll(EMPTY, ws).table)
    ensures |KeysOf(ws)| >= 256 ==> Full(TryAll(EMPTY, ws).table)
  {
    TakenAtMost(ws);
    TakenAtLeast(ws);
    FullIffTaken(TryAll(EMPTY, ws).table);
  }

  // ----- identifiers repeated

  /** No identifier is appended twice while the table has an empty slot. */
  lemma {:induction false} WordsDeduped(ws: seq<Text>)
    ensures Deduped(TryAll(EMPTY, ws))
  {
    if ws != [] {
      WordsDeduped(ws[..|ws| - 1]);
      TryDeduped(TryAll(EMPTY, ws[..|ws| - 1]), ws[|ws| - 1]);
    }
  }

  /** So a run of fewer than 256 different hashes appends every identifier at most once. */
  lemma NoneTwice(ws: seq<Text>)
    ensures !Full(TryAll(EMPTY, ws).table) ==> Distinct(TryAll(EMPTY, ws).words)
    ensures |HashesOf(ws)| < 256 ==> Distinct(TryAll(EMPTY, ws).words)
  {
    WordsDeduped(ws);
    FullBounds(ws);
  }

  ghost predicate Appends(ws: seq<Text>, w: Text) {
    TryAll(EMPTY, ws + [w]).words == TryAll(EMPTY, ws).words + [w]
  }

  lemma AppendsIff(ws: seq<Text>, w: Text)
    ensures var st := TryAll(EMPTY, ws); Appends(ws, w) <==> !Seen(st.table, Hash(w)) && HasRoom(st.words, w)
  {
    TryAllNext(ws, w);
  }

  /**
    An identifier already appended is appended again exactly when the table is full, its key is not met
    and there is room.
   */
  lemma RepeatedIff(ws: seq<Text>, w: Text)
    requires w in TryAll(EMPTY, ws).words
    ensures var st := TryAll(EMPTY, ws);
            Appends(ws, w) <==> Full(st.table) && !Seen(st.table, Hash(w)) && HasRoom(st.words, w)
  {
    AppendsIff(ws, w);
    WordsDeduped(ws);
  }

  /** With a full table an identifier that is not in it is appended each time. */
  lemma FullTableRepeats(st: State, w: Text)
    requires Full(st.table) && !Seen(st.table, Hash(w)) && HasRoom(st.words, w) && HasRoom(st.words + [w], w)
    ensures Try(Try(st, w), w).words == st.words + [w, w]
  {
    InsertedIsSeen(st.table, Hash(w));
    assert Try(st, w) == State(st.table, st.words + [w]);
    assert st.words + [w] + [w] == st.words + [w, w];
  }

  // ----- identifiers lost

  /** Different identifiers with the same hash: the second one is lost. */
  lemma CollisionIsLost(st: State, v: Text, w: Text)
    requires Hash(v) == Hash(w) && !Full(st.table)
    ensures Try(Try(st, v), w).words == Try(st, v).words
  {
    InsertedIsSeen(st.table, Hash(v));
  }

  /**
    Lost for a hash met before, as long as a slot is empty; and lost only for a key met before or for
    want of room.
   */
  lemma LostBounds(ws: seq<Text>, w: Text)
    ensures !Full(TryAll(EMPTY, ws).table) && Hash(w) in HashesOf(ws) ==> !Appends(ws, w)
    ensures !Appends(ws, w) ==> Key(Hash(w)) in KeysOf(ws) || !HasRoom(TryAll(EMPTY, ws).words, w)
  {
    AppendsIff(ws, w);
    if !Full(TryAll(EMPTY, ws).table) && Hash(w) in HashesOf(ws) {
      HandledIsSeen(ws, Hash(w));
    }
    if Seen(TryAll(EMPTY, ws).table, Hash(w)) {
      SeenHasKey(ws, Hash(w));
    }
  }

  /** When no hash before differs from this one in its lowest bit alone, the two bounds meet. */
  lemma LostIff(ws: seq<Text>, w: Text)
    requires |HashesOf(ws)| < 256 || !Full(TryAll(EMPTY, ws).table)
    requires forall j :: 0 <= j < |ws| && Key(Hash(ws[j])) == Key(Hash(w)) ==> Hash(ws[j]) == Hash(w)
    ensures Appends(ws, w) <==> Hash(w) !in HashesOf(ws) && HasRoom(TryAll(EMPTY, ws).words, w)
  {
    FullBounds(ws);
    LostBounds(ws, w);
    AppendsIff(ws, w);
    KeysExact(ws, Key(Hash(w)));
    HashesExact(ws, Hash(w));
  }
}
