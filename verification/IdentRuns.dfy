/**
  Two runs of identifiers: one in which an identifier is lost although no other had its hash, and one
  that fills the table and then repeats an identifier.
 */
module IdentRuns {
  import opened Sequences
  import opened IdentTokens
  import opened IdentLoss

  lemma HashNext(w: Text, b: Byte)
    ensures Hash(w + [b]) == (Hash(w) * HASH_MUL + b) % WORD_MOD
  {
    assert (w + [b])[..|w|] == w;
  }

  lemma HashOfTwo(a: Byte, b: Byte)
    ensures Hash([a, b]) == a * HASH_MUL + b
  {
    HashNext([], a);
    HashNext([a], b);
    assert [] + [a] == [a] && [a] + [b] == [a, b];
  }

  /** There are such identifiers: Aa and BB. */
  lemma AaAndBBCollide()
    ensures Hash([65, 97]) == Hash([66, 66]) && [65, 97] != [66, 66]
  {
    HashOfTwo(65, 97);
    HashOfTwo(66, 66);
  }

  // ----- lost to a hash that differs in the lowest bit

  /** Pp, aa, ab */
  const PP: Text := [80, 112]
  const AA: Text := [97, 97]
  const AB: Text := [97, 98]

  lemma PushedAside()
    ensures Hash(PP) == 2592 && Hash(AA) == 3104 && Hash(AB) == 3105
    ensures Slot(2592, 0) == 32 && Slot(3104, 0) == 32 && Slot(3104, 1) == 33 && Slot(3105, 0) == 33
    ensures Key(2592) == 2593 && Key(3104) == Key(3105) == 3105
  {
    HashOfTwo(80, 112);
    HashOfTwo(97, 97);
    HashOfTwo(97, 98);
  }

  lemma FirstStop(t: Table, h: Word32, p: nat)
    requires p < SLOTS && StopsAt(t, h, p) && forall q: nat :: q < p ==> !StopsAt(t, h, q)
    ensures Probe(t, h, 0) == p
  {
    var q := Probe(t, h, 0);
    assert q < SLOTS ==> StopsAt(t, h, q);
  }

  /** The table after Pp and aa: aa is pushed from its own slot to the one of ab. */
  lemma AfterTwo()
    ensures var t := Inserted(Inserted(EmptyTable(), 2592), 3104); t[33] == 3105 && t[32] == 2593
    ensures !Seen(EmptyTable(), 2592) && !Seen(Inserted(EmptyTable(), 2592), 3104)
  {
    PushedAside();
    var t := EmptyTable();
    FirstStop(t, 2592, 0);
    ProbeFindsSeen(t, 2592);
    var t' := Inserted(t, 2592);
    assert t' == t[32 := 2593];
    assert !StopsAt(t', 3104, 0) && StopsAt(t', 3104, 1);
    FirstStop(t', 3104, 1);
    ProbeFindsSeen(t', 3104);
  }

  lemma Appended(st: State, w: Text, h: Word32)
    requires Hash(w) == h && !Seen(st.table, h) && HasRoom(st.words, w)
    ensures Try(st, w) == State(Inserted(st.table, h), st.words + [w])
    ensures |Join(st.words + [w])| == |Join(st.words)| + |w| + if Join(st.words) == [] then 0 else 1
  {
    JoinNext(st.words, w);
  }

  lemma TwoRun()
    ensures TryAll(EMPTY, [PP, AA]) == State(Inserted(Inserted(EmptyTable(), 2592), 3104), [PP, AA])
  {
    PushedAside();
    AfterTwo();
    TryAllNext([], PP);
    TryAllNext([PP], AA);
    assert TryAll(EMPTY, []) == EMPTY;
    assert [] + [PP] == [PP] && [PP] + [AA] == [PP, AA];
    Appended(EMPTY, PP, 2592);
    Appended(State(Inserted(EmptyTable(), 2592), [PP]), AA, 3104);
  }

  lemma SeenAtOnce(t: Table, h: Word32)
    requires t[Slot(h, 0)] == Key(h)
    ensures Seen(t, h)
  {
  }

  /** ab is lost although no identifier before it has its hash. */
  lemma NearMissIsLost()
    ensures TryAll(EMPTY, [PP, AA, AB]).words == [PP, AA]
    ensures Hash(AB) !in HashesOf([PP, AA])
  {
    PushedAside();
    AfterTwo();
    TwoRun();
    SeenAtOnce(Inserted(Inserted(EmptyTable(), 2592), 3104), 3105);
    TryAllNext([PP, AA], AB);
    assert [PP, AA] + [AB] == [PP, AA, AB];
    TwoHashes();
  }

  lemma TwoHashes()
    ensures HashesOf([PP, AA]) == {2592, 3104}
  {
    PushedAside();
    HashesAppend([], PP);
    HashesAppend([PP], AA);
    assert [] + [PP] == [PP] && [PP] + [AA] == [PP, AA];
  }

  // ----- a run that fills the table

  const FILLERS: nat := 256
  const APPENDED: nat := 113

  /** n letters a. */
  function Letters(n: nat): (w: Text)
    ensures |w| == n
  {
    if n == 0 then [] else Letters(n - 1) + [97]
  }

  lemma LettersNext(n: nat, h: Word32, h': Word32)
    requires Hash(Letters(n)) == h && h' == (h * HASH_MUL + 97) % WORD_MOD
    ensures Hash(Letters(n + 1)) == h'
  {
    HashNext(Letters(n), 97);
  }

  lemma SevenLetters()
    ensures Hash(Letters(7)) == 3058106369
  {
    LettersNext(0, 0, 97);
    LettersNext(1, 97, 3104);
    LettersNext(2, 3104, 96321);
    LettersNext(3, 96321, 2986048);
    LettersNext(4, 2986048, 92567585);
    LettersNext(5, 92567585, 2869595232);
    LettersNext(6, 2869595232, 3058106369);
  }

  lemma FourteenLetters()
    ensures Hash(Letters(14)) == 436284640
  {
    SevenLetters();
    LettersNext(7, 3058106369, 312017024);
    LettersNext(8, 312017024, 1082593249);
    LettersNext(9, 1082593249, 3495619744);
    LettersNext(10, 3495619744, 990029761);
    LettersNext(11, 990029761, 626151616);
    LettersNext(12, 626151616, 2230831009);
    LettersNext(13, 2230831009, 436284640);
  }

  /** What the runs need to know of the fourteen letters. */
  predicate IsPrefix(p: Text) {
    |p| == 14 && Hash(p) == 436284640
  }

  /** An identifier of 17 letters: fourteen that the hash is known of, two from a to p that count i, and a. */
  function Filler(p: Text, i: nat): (w: Text)
    requires i < FILLERS
    ensures |w| == |p| + 3
  {
    p + [97 + i / 16] + [97 + i % 16] + [97]
  }

  lemma FillerHash(p: Text, i: nat)
    requires IsPrefix(p) && i < FILLERS
    ensures Hash(Filler(p, i)) == 784768865 + 961 * (i / 16) + 31 * (i % 16)
  {
    var w := p;
    HashNext(w, 97 + i / 16);
    assert Hash(w + [97 + i / 16]) == 639922049 + i / 16;
    HashNext(w + [97 + i / 16], 97 + i % 16);
    assert Hash(w + [97 + i / 16] + [97 + i % 16]) == 2657714432 + 31 * (i / 16) + i % 16;
    HashNext(w + [97 + i / 16] + [97 + i % 16], 97);
  }

  /** The keys of the fillers differ, and none is the key of a short identifier. */
  lemma FillerKeys(p: Text, i: nat, j: nat)
    requires IsPrefix(p) && i < j < FILLERS
    ensures Key(Hash(Filler(p, i))) != Key(Hash(Filler(p, j)))
  {
    FillerHash(p, i);
    FillerHash(p, j);
    TwoDigits(i / 16, i % 16, j / 16, j % 16);
    KeysApart(Hash(Filler(p, i)), Hash(Filler(p, j)));
  }

  lemma TwoDigits(a: nat, b: nat, c: nat, d: nat)
    requires b < 16 && d < 16 && (a != c || b != d)
    ensures 31 * a + b != 31 * c + d
  {
  }

  lemma KeysApart(g: Word32, h: Word32)
    requires g + 1 < h || h + 1 < g
    ensures Key(g) != Key(h)
  {
  }

  function Fillers(p: Text, n: nat): (ws: seq<Text>)
    requires n <= FILLERS
    ensures |ws| == n
  {
    if n == 0 then [] else Fillers(p, n - 1) + [Filler(p, n - 1)]
  }

  lemma {:induction false} FillerAt(p: Text, n: nat, i: nat)
    requires i < n <= FILLERS
    ensures Fillers(p, n)[i] == Filler(p, i)
  {
    if i < n - 1 {
      FillerAt(p, n - 1, i);
    }
  }

  lemma FillersNext(p: Text, n: nat)
    requires n < FILLERS
    ensures Fillers(p, n + 1) == Fillers(p, n) + [Filler(p, n)]
  {
  }

  lemma NewKey(p: Text, n: nat, w: Text)
    requires IsPrefix(p) && n <= FILLERS && forall i :: 0 <= i < n ==> Key(Hash(Filler(p, i))) != Key(Hash(w))
    ensures Key(Hash(w)) !in KeysOf(Fillers(p, n)) && !Seen(TryAll(EMPTY, Fillers(p, n)).table, Hash(w))
  {
    forall i | 0 <= i < n
      ensures Key(Hash(Fillers(p, n)[i])) != Key(Hash(w))
    {
      FillerAt(p, n, i);
    }
    KeysExact(Fillers(p, n), Key(Hash(w)));
    if Seen(TryAll(EMPTY, Fillers(p, n)).table, Hash(w)) {
      SeenHasKey(Fillers(p, n), Hash(w));
    }
  }

  lemma FillerIsNew(p: Text, n: nat)
    requires IsPrefix(p) && n < FILLERS
    ensures Key(Hash(Filler(p, n))) !in KeysOf(Fillers(p, n)) &&
            !Seen(TryAll(EMPTY, Fillers(p, n)).table, Hash(Filler(p, n)))
  {
    forall i | 0 <= i < n
      ensures Key(Hash(Filler(p, i))) != Key(Hash(Filler(p, n)))
    {
      FillerKeys(p, i, n);
    }
    NewKey(p, n, Filler(p, n));
  }

  lemma {:induction false} FillerKeyCount(p: Text, n: nat)
    requires IsPrefix(p) && n <= FILLERS
    ensures |KeysOf(Fillers(p, n))| == n
  {
    if n > 0 {
      FillerKeyCount(p, n - 1);
      FillerKeyNext(p, n - 1);
      FillersNext(p, n - 1);
    } else {
      assert KeysOf([]) == {};
    }
  }

  lemma FillerKeyNext(p: Text, n: nat)
    requires IsPrefix(p) && n < FILLERS
    ensures |KeysOf(Fillers(p, n) + [Filler(p, n)])| == |KeysOf(Fillers(p, n))| + 1
  {
    FillerIsNew(p, n);
    NewKeyCount(Fillers(p, n), Filler(p, n));
  }

  lemma NewKeyCount(ws: seq<Text>, w: Text)
    requires Key(Hash(w)) !in KeysOf(ws)
    ensures |KeysOf(ws + [w])| == |KeysOf(ws)| + 1
  {
    HashesAppend(ws, w);
  }

  lemma {:induction false} FillersJoined(p: Text, n: nat)
    requires IsPrefix(p) && 0 < n <= FILLERS
    ensures |Join(Fillers(p, n))| == 18 * n - 1
  {
    FillersNext(p, n - 1);
    JoinNext(Fillers(p, n - 1), Filler(p, n - 1));
    if n > 1 {
      FillersJoined(p, n - 1);
    } else {
      assert Join(Fillers(p, 0)) == [];
    }
  }

  lemma FillerRoom(p: Text, n: nat, i: nat)
    requires IsPrefix(p) && n <= APPENDED && i < FILLERS
    ensures HasRoom(Fillers(p, n), Filler(p, i)) <==> n < APPENDED
  {
    if n > 0 {
      FillersJoined(p, n);
    } else {
      assert Join(Fillers(p, 0)) == [];
    }
  }

  function Kept(n: nat): (k: nat)
    ensures k <= APPENDED
  {
    if n <= APPENDED then n else APPENDED
  }

  /** The buffer takes 113 fillers; the others still take slots. */
  lemma {:induction false} FillersAppended(p: Text, n: nat)
    requires IsPrefix(p) && n <= FILLERS
    ensures TryAll(EMPTY, Fillers(p, n)).words == Fillers(p, Kept(n))
    decreases n, 1
  {
    if n == 0 {
      NoFillers(p);
    } else {
      LastFiller(p, n);
    }
  }

  lemma NoFillers(p: Text)
    requires IsPrefix(p)
    ensures TryAll(EMPTY, Fillers(p, 0)).words == Fillers(p, Kept(0))
  {
  }

  lemma {:induction false} LastFiller(p: Text, n: nat)
    requires IsPrefix(p) && 0 < n <= FILLERS
    ensures TryAll(EMPTY, Fillers(p, n)).words == Fillers(p, Kept(n))
    decreases n, 0
  {
    FillersAppended(p, n - 1);
    FillersStep(p, n);
  }

  lemma FillersStep(p: Text, n: nat)
    requires IsPrefix(p) && 0 < n <= FILLERS && TryAll(EMPTY, Fillers(p, n - 1)).words == Fillers(p, Kept(n - 1))
    ensures TryAll(EMPTY, Fillers(p, n)).words == Fillers(p, Kept(n))
  {
    FillerTried(p, n - 1, Fillers(p, Kept(n - 1)));
    FillersNext(p, n - 1);
    FillerRoom(p, Kept(n - 1), n - 1);
    KeptNext(p, n);
  }

  lemma FillerTried(p: Text, n: nat, kept: seq<Text>)
    requires IsPrefix(p) && n < FILLERS && TryAll(EMPTY, Fillers(p, n)).words == kept
    ensures TryAll(EMPTY, Fillers(p, n) + [Filler(p, n)]).words ==
            if HasRoom(kept, Filler(p, n)) then kept + [Filler(p, n)] else kept
  {
    FillerIsNew(p, n);
    NewWord(Fillers(p, n), Filler(p, n), kept);
  }

  lemma KeptNext(p: Text, n: nat)
    requires 0 < n <= FILLERS
    ensures Fillers(p, Kept(n)) ==
            if n - 1 < APPENDED then Fillers(p, Kept(n - 1)) + [Filler(p, n - 1)] else Fillers(p, Kept(n - 1))
  {
  }

  /** x */
  const X: Text := [120]

  lemma HashOfX()
    ensures Hash(X) == 120
  {
    HashNext([], 120);
    assert [] + [120] == X;
  }

  lemma FillerNotX(p: Text, i: nat)
    requires IsPrefix(p) && i < FILLERS
    ensures Key(Hash(Filler(p, i))) != Key(Hash(X))
  {
    HashOfX();
    FillerHash(p, i);
    KeysApart(Hash(Filler(p, i)), 120);
  }

  lemma ShortIsNew(p: Text)
    requires IsPrefix(p)
    ensures Hash(X) == 120 && !Seen(TryAll(EMPTY, Fillers(p, FILLERS)).table, 120)
  {
    HashOfX();
    forall i | 0 <= i < FILLERS
      ensures Key(Hash(Filler(p, i))) != Key(Hash(X))
    {
      FillerNotX(p, i);
    }
    NewKey(p, FILLERS, X);
  }

  lemma FillersFull(p: Text)
    requires IsPrefix(p)
    ensures Full(TryAll(EMPTY, Fillers(p, FILLERS)).table)
    ensures TryAll(EMPTY, Fillers(p, FILLERS)).words == Fillers(p, APPENDED) && |Join(Fillers(p, APPENDED))| == 2033
  {
    FillerKeyCount(p, FILLERS);
    FullBounds(Fillers(p, FILLERS));
    FillersAppended(p, FILLERS);
    FillersJoined(p, APPENDED);
  }

  lemma Repeats(st: State)
    requires Full(st.table) && !Seen(st.table, 120) && |Join(st.words)| == 2033
    ensures Try(Try(st, X), X).words == st.words + [X, X]
  {
    HashOfX();
    JoinNext(st.words, X);
    FullTableRepeats(st, X);
  }

  lemma RunRepeats(p: Text)
    requires IsPrefix(p)
    ensures TryAll(EMPTY, Fillers(p, FILLERS) + [X] + [X]).words == Fillers(p, APPENDED) + [X, X]
  {
    FillersFull(p);
    ShortIsNew(p);
    TryAllNext(Fillers(p, FILLERS), X);
    TryAllNext(Fillers(p, FILLERS) + [X], X);
    Repeats(TryAll(EMPTY, Fillers(p, FILLERS)));
  }

  /** 256 identifiers of 17 letters, and then x twice: 115 words are appended, and both x are among them. */
  lemma FullRunRepeats()
    ensures TryAll(EMPTY, Fillers(Letters(14), FILLERS) + [X] + [X]).words == Fillers(Letters(14), APPENDED) + [X, X]
  {
    FourteenLetters();
    RunRepeats(Letters(14));
  }
}
