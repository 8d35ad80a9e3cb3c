/**
  The identifier tokens of a function body, from internal/pmm/extract_defs.c: a bounded walk of the
  syntax tree, and a fixed open-addressing table that keeps an identifier from being appended twice.
 */
module IdentTokens {
  import opened Sequences

  const SLOTS: nat := 256
  const BUF_SIZE: nat := 2048
  const MAX_IDENTS: nat := 128
  const STACK_SIZE: nat := 512
  const WORD_MOD: nat := 0x1_0000_0000
  const HASH_MUL: nat := 31
  const SPACE: Byte := 32

  type Byte = b: nat | b < 256
  type Word32 = w: nat | w < WORD_MOD
  type Text = seq<Byte>
  type Table = t: seq<Word32> | |t| == SLOTS witness seq(SLOTS, i => 0)

  // ----- the hash table on values

  function Hash(w: Text): (h: Word32) {
    if w == [] then 0 else (Hash(w[..|w| - 1]) * HASH_MUL + w[|w| - 1]) % WORD_MOD
  }

  /** The hash with its lowest bit set: never zero, which marks an empty slot. */
  function Key(h: Word32): (k: Word32)
    ensures k != 0
  {
    if h % 2 == 0 then h + 1 else h
  }

  function Slot(h: Word32, p: nat): (i: nat)
    ensures i < SLOTS
  {
    (h % SLOTS + p) % SLOTS
  }

  predicate StopsAt(t: Table, h: Word32, p: nat) {
    t[Slot(h, p)] == 0 || t[Slot(h, p)] == Key(h)
  }

  /** Probing for h from its slot on meets its key before an empty slot. */
  ghost predicate Seen(t: Table, h: Word32) {
    exists p: nat :: p < SLOTS && t[Slot(h, p)] == Key(h) && forall q: nat :: q < p ==> t[Slot(h, q)] != 0
  }

  predicate Full(t: Table) {
    forall i :: 0 <= i < SLOTS ==> t[i] != 0
  }

  /** The first probe from p on that meets an empty slot or the key, or SLOTS. */
  function Probe(t: Table, h: Word32, p: nat): (q: nat)
    requires p <= SLOTS
    ensures p <= q <= SLOTS && (q < SLOTS ==> StopsAt(t, h, q)) && forall r :: p <= r < q ==> !StopsAt(t, h, r)
    decreases SLOTS - p, h
  {
    if p == SLOTS || StopsAt(t, h, p) then p else Probe(t, h, p + 1)
  }

  /** The key goes into the empty slot that probing ends at, if it ends at one. */
  function Inserted(t: Table, h: Word32): Table {
    var p := Probe(t, h, 0);
    if p < SLOTS && t[Slot(h, p)] == 0 then t[Slot(h, p) := Key(h)] else t
  }

  /** Probing passes every slot. */
  lemma SlotsCovered(h: Word32, i: nat) returns (p: nat)
    requires i < SLOTS
    ensures p < SLOTS && Slot(h, p) == i
  {
    var s := h % SLOTS;
    p := if i >= s then i - s else i + SLOTS - s;
  }

  lemma ProbeFindsSeen(t: Table, h: Word32)
    ensures var p := Probe(t, h, 0); Seen(t, h) <==> p < SLOTS && t[Slot(h, p)] == Key(h)
    ensures var p := Probe(t, h, 0); p == SLOTS ==> Full(t)
  {
    var p := Probe(t, h, 0);
    if Seen(t, h) {
      var q: nat :| q < SLOTS && t[Slot(h, q)] == Key(h) && forall r: nat :: r < q ==> t[Slot(h, r)] != 0;
      assert StopsAt(t, h, q);
      assert p <= q;
    }
    if p == SLOTS {
      forall i | 0 <= i < SLOTS
        ensures t[i] != 0
      {
        var q := SlotsCovered(h, i);
        assert !StopsAt(t, h, q);
      }
    } else if t[Slot(h, p)] == Key(h) {
      forall q: nat | q < p
        ensures t[Slot(h, q)] != 0
      {
        assert !StopsAt(t, h, q);
      }
    }
  }

  /** What was seen stays seen. */
  lemma SeenStays(t: Table, h: Word32, g: Word32)
    requires Seen(t, g)
    ensures Seen(Inserted(t, h), g)
  {
    var t' := Inserted(t, h);
    var p: nat :| p < SLOTS && t[Slot(g, p)] == Key(g) && forall q: nat :: q < p ==> t[Slot(g, q)] != 0;
    assert t'[Slot(g, p)] == Key(g);
    forall q: nat | q < p
      ensures t'[Slot(g, q)] != 0
    {
      assert t[Slot(g, q)] != 0;
    }
  }

  /** A hash put into a table with an empty slot is seen from then on; a full table stays as it is. */
  lemma InsertedIsSeen(t: Table, h: Word32)
    ensures !Full(t) ==> Seen(Inserted(t, h), h)
    ensures Full(t) ==> Inserted(t, h) == t
    ensures Full(Inserted(t, h)) || !Full(t)
    ensures Seen(t, h) ==> Inserted(t, h) == t
  {
    ProbeFindsSeen(t, h);
    var p, t' := Probe(t, h, 0), Inserted(t, h);
    if !Full(t) && t[Slot(h, p)] == 0 {
      assert t'[Slot(h, p)] == Key(h);
      forall q: nat | q < p
        ensures t'[Slot(h, q)] != 0
      {
        assert !StopsAt(t, h, q);
      }
    } else if !Full(t) {
      assert t' == t && Seen(t, h);
    }
  }

  // ----- the words on values

  function Join(ws: seq<Text>): (s: Text) {
    if ws == [] then [] else
      var front := Join(ws[..|ws| - 1]);
      (if front == [] then [] else front + [SPACE]) + ws[|ws| - 1]
  }

  datatype State = State(table: Table, words: seq<Text>)

  function EmptyTable(): (t: Table)
    ensures forall i :: 0 <= i < SLOTS ==> t[i] == 0
  {
    seq(SLOTS, i => 0)
  }

  const EMPTY: State := State(EmptyTable(), [])

  predicate HasRoom(words: seq<Text>, w: Text) {
    |Join(words)| + |w| + 1 < BUF_SIZE
  }

  /** An identifier is appended when its hash was not seen and there is room; it counts as seen either way. */
  ghost function Try(st: State, w: Text): State {
    State(Inserted(st.table, Hash(w)),
          if !Seen(st.table, Hash(w)) && HasRoom(st.words, w) then st.words + [w] else st.words)
  }

  ghost function TryAll(st: State, ws: seq<Text>): State {
    if ws == [] then st else Try(TryAll(st, ws[..|ws| - 1]), ws[|ws| - 1])
  }

  /** Until the table is full, all words are seen, and no two are the same. */
  ghost predicate Deduped(st: State) {
    Full(st.table) || (Distinct(st.words) && forall i :: 0 <= i < |st.words| ==> Seen(st.table, Hash(st.words[i])))
  }

  lemma TryDeduped(st: State, w: Text)
    requires Deduped(st)
    ensures Deduped(Try(st, w))
  {
    InsertedIsSeen(st.table, Hash(w));
    if !Full(Try(st, w).table) {
      var st' := Try(st, w);
      forall i | 0 <= i < |st'.words|
        ensures Seen(st'.table, Hash(st'.words[i])) && (i < |st.words| && st'.words != st.words ==> st.words[i] != w)
      {
        if i < |st.words| {
          SeenStays(st.table, Hash(w), Hash(st.words[i]));
        }
      }
    }
  }

  // ----- in place

  /** hash_source_span */
  method HashSpan(w: Text) returns (h: Word32)
    ensures h == Hash(w)
  {
    h := 0;
    for x := 0 to |w|
      invariant h == Hash(w[..x])
    {
      assert w[..x + 1][..x] == w[..x];
      h := (h * HASH_MUL + w[x]) % WORD_MOD;
    }
    assert w[..|w|] == w;
  }

  /** The probing loop: whether the key was met; otherwise it is put into the first empty slot. */
  method Note(seen: array<Word32>, h: Word32) returns (dup: bool)
    requires seen.Length == SLOTS
    modifies seen
    ensures dup <==> Seen(old(seen[..]), h)
    ensures seen[..] == Inserted(old(seen[..]), h)
  {
    var key := Key(h);
    ghost var t: Table := seen[..];
    dup := false;
    ProbeFindsSeen(t, h);
    var p := 0;
    while p < SLOTS
      invariant p <= SLOTS && seen[..] == t && Probe(t, h, 0) == Probe(t, h, p)
    {
      var idx := (h % SLOTS + p) % SLOTS;
      assert seen[idx] == t[Slot(h, p)];
      if seen[idx] == 0 {
        seen[idx] := key;
        assert seen[..] == t[idx := key];
        return false;
      }
      if seen[idx] == key {
        return true;
      }
      p := p + 1;
    }
  }

  /** The buffer holds the words, one space apart, and has room for a terminator. */
  ghost predicate Holds(buf: array<Byte>, pos: nat, words: seq<Text>)
    reads buf
  {
    buf.Length == BUF_SIZE && pos < BUF_SIZE && buf[..pos] == Join(words)
  }

  lemma JoinNext(words: seq<Text>, w: Text)
    ensures Join(words + [w]) == (if Join(words) == [] then [] else Join(words) + [SPACE]) + w
  {
    assert (words + [w])[..|words|] == words;
  }

  /** Writes a span behind position pos. */
  method Write(buf: array<Byte>, pos: nat, w: Text) returns (pos': nat)
    requires pos + |w| <= buf.Length
    modifies buf
    ensures pos' == pos + |w| && buf[..pos'] == old(buf[..pos]) + w
  {
    forall i | 0 <= i < |w| {
      buf[pos + i] := w[i];
    }
    pos' := pos + |w|;
  }

  /** try_append_ident */
  method TryAppend(w: Text, seen: array<Word32>, buf: array<Byte>, pos: nat, ghost st: State)
    returns (appended: bool, pos': nat, ghost st': State)
    requires seen.Length == SLOTS && seen[..] == st.table && Holds(buf, pos, st.words)
    requires (seen as object) != (buf as object)
    modifies seen, buf
    ensures st' == Try(st, w) && seen[..] == st'.table && Holds(buf, pos', st'.words)
    ensures appended <==> st'.words != st.words
    ensures appended <==> !Seen(st.table, Hash(w)) && HasRoom(st.words, w)
  {
    var h := HashSpan(w);
    var dup := Note(seen, h);
    st' := Try(st, w);
    if dup || pos + |w| + 1 >= BUF_SIZE {
      return false, pos, st';
    }
    JoinNext(st.words, w);
    pos' := pos;
    if pos > 0 {
      pos' := Write(buf, pos', [SPACE]);
    }
    pos' := Write(buf, pos', w);
    appended := true;
  }
}
