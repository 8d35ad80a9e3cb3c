/**
  Scanning compressed files (internal/pmm/ac.c:253-349). The decompressor is an abstract function
  that says which bytes it writes and what it returns; the buffer it writes to is reused between
  files and between calls, whatever it still holds.
 */
module Lz4Scan {
  import opened Sequences
  import opened Words
  import opened Bitmask
  import opened Matching
  import opened AhoCorasick
  import opened Automata
  import opened BatchScan
  import opened ByteSearch

  const CHUNK: int := 0x1_0000
  const INT_MAX: int := 0x7FFF_FFFF

  /** One call of the decompressor: the bytes put at the front of the buffer, and the return value. */
  datatype Decoded = Decoded(written: seq<Byte>, ret: int)

  /** The decompressor stays in the room it is given and returns at most what it wrote. */
  ghost predicate Bounded(codec: (seq<Byte>, nat) -> Decoded) {
    forall data, room :: |codec(data, room).written| <= room && codec(data, room).ret <= |codec(data, room).written|
  }

  datatype Entry = Entry(data: Option<seq<Byte>>, compressedLen: int, originalLen: int)

  /** The lengths an entry may carry: its data is readable, and rounding up does not overflow an int. */
  predicate EntryOk(e: Entry) {
    (e.data.Some? ==> e.compressedLen <= |e.data.value|) && e.originalLen + (CHUNK - 1) <= INT_MAX
  }

  datatype FileMatch = FileMatch(file: nat, bitmask: Mask)
  datatype Hit = Hit(file: nat, ids: set<nat>)

  predicate Usable(e: Entry) {
    e.data.Some? && e.compressedLen > 0 && e.originalLen > 0
  }

  /** The text of an entry: nothing when it is skipped or does not decompress. */
  function Text(codec: (seq<Byte>, nat) -> Decoded, e: Entry): (text: seq<Byte>)
    requires EntryOk(e)
  {
    if !Usable(e) then [] else
      var d := codec(e.data.value[..e.compressedLen], e.originalLen);
      if 0 <= d.ret <= |d.written| then d.written[..d.ret] else []
  }

  /**
    A pattern is found in an entry: the entry has data and lengths, the decompressor returns a positive
    number for its first compressedLen bytes, and of what it wrote the first so many have the pattern.
   */
  ghost predicate InEntry(codec: (seq<Byte>, nat) -> Decoded, given: Option<seq<nat>>, patterns: seq<seq<Byte>>,
                          e: Entry, p: nat)
    requires EntryOk(e) && GivenOk(given)
  {
    && e.data.Some? && e.compressedLen > 0 && e.originalLen > 0
    && var d := codec(e.data.value[..e.compressedLen], e.originalLen);
       0 < d.ret <= |d.written| && Found(given, patterns, d.written[..d.ret], p)
  }

  /** The mask has exactly the ids below 64 of the patterns found in the entry. */
  ghost predicate MaskSays(codec: (seq<Byte>, nat) -> Decoded, given: Option<seq<nat>>, patterns: seq<seq<Byte>>,
                           e: Entry, mask: Mask)
    requires EntryOk(e) && GivenOk(given)
  {
    forall p: nat :: p in Ids(mask) <==> p < 64 && InEntry(codec, given, patterns, e, p)
  }

  lemma EntryIdsAre(codec: (seq<Byte>, nat) -> Decoded, given: Option<seq<nat>>, m: seq<nat>,
                    patterns: seq<seq<Byte>>, e: Entry, p: nat)
    requires EntryOk(e) && GivenOk(given) && MapOf(given, m)
    ensures p in EntryIds(codec, MapAll(m, patterns), m, e) <==> p < 64 && InEntry(codec, given, patterns, e, p)
  {
    FoundIs(given, m, patterns, Text(codec, e), p);
  }

  lemma MaskIs(codec: (seq<Byte>, nat) -> Decoded, given: Option<seq<nat>>, m: seq<nat>, patterns: seq<seq<Byte>>,
               e: Entry, mask: Mask)
    requires EntryOk(e) && GivenOk(given) && MapOf(given, m)
    requires Ids(mask) == EntryIds(codec, MapAll(m, patterns), m, e)
    ensures MaskSays(codec, given, patterns, e, mask)
  {
    forall p: nat
      ensures p in Ids(mask) <==> p < 64 && InEntry(codec, given, patterns, e, p)
    {
      EntryIdsAre(codec, given, m, patterns, e, p);
    }
  }

  /** What naive search finds in an entry. */
  ghost function EntryIds(codec: (seq<Byte>, nat) -> Decoded, pats: seq<Word>, alphaMap: seq<nat>, e: Entry): set<nat>
    requires EntryOk(e) && |alphaMap| == BYTE_RANGE
  {
    MatchedIds(pats, MapText(alphaMap, Text(codec, e)))
  }

  /** The mask that the single-file scan returns for an entry. */
  ghost function EntryMask(codec: (seq<Byte>, nat) -> Decoded, pats: seq<Word>, alphaMap: seq<nat>, e: Entry): Mask
    requires EntryOk(e) && |alphaMap| == BYTE_RANGE
  {
    MaskOf(EntryIds(codec, pats, alphaMap, e))
  }

  /** Found ids by file: the files in which something is found, in order. */
  ghost function Hits(found: seq<set<nat>>): (hits: seq<Hit>) {
    if found == [] then [] else
      Hits(found[..|found| - 1]) + if found[|found| - 1] == {} then [] else [Hit(|found| - 1, found[|found| - 1])]
  }

  /** Hits are exactly the files with something found, by increasing index, each with its ids. */
  lemma {:induction false} HitsExact(found: seq<set<nat>>, h: Hit)
    ensures h in Hits(found) <==> h.file < |found| && h.ids == found[h.file] && h.ids != {}
    ensures forall i, j :: 0 <= i < j < |Hits(found)| ==> Hits(found)[i].file < Hits(found)[j].file
    ensures forall i :: 0 <= i < |Hits(found)| ==> Hits(found)[i].file < |found|
  {
    if found != [] {
      HitsExact(found[..|found| - 1], h);
    }
  }

  lemma {:induction false} HitsExtend(found: seq<set<nat>>, n: nat)
    requires n <= |found|
    ensures Hits(found[..n]) <= Hits(found)
    decreases |found| - n
  {
    if n < |found| {
      assert found[..n + 1][..n] == found[..n];
      HitsExtend(found, n + 1);
    } else {
      assert found[..n] == found;
    }
  }

  lemma HitsStep(found: seq<set<nat>>, n: nat)
    requires n < |found|
    ensures Hits(found[..n + 1]) == Hits(found[..n]) + if found[n] == {} then [] else [Hit(n, found[n])]
  {
    assert found[..n + 1][..n] == found[..n];
  }

  lemma {:induction false} NoHits(found: seq<set<nat>>)
    requires forall i :: 0 <= i < |found| ==> found[i] == {}
    ensures Hits(found) == []
  {
    if found != [] {
      NoHits(found[..|found| - 1]);
    }
  }

  ghost function FoundIn(codec: (seq<Byte>, nat) -> Decoded, pats: seq<Word>, alphaMap: seq<nat>,
                       es: seq<Entry>): (found: seq<set<nat>>)
    requires (forall i :: 0 <= i < |es| ==> EntryOk(es[i])) && |alphaMap| == BYTE_RANGE
    ensures |found| == |es| && forall i :: 0 <= i < |es| ==> found[i] == EntryIds(codec, pats, alphaMap, es[i])
  {
    seq(|es|, i requires 0 <= i < |es| => EntryIds(codec, pats, alphaMap, es[i]))
  }

  lemma NothingInEmptyText(pats: seq<Word>, alphaMap: seq<nat>)
    requires |alphaMap| == BYTE_RANGE
    ensures MatchedIds(pats, MapText(alphaMap, [])) == {}
  {
    VisitedIsMatched(pats, MapText(alphaMap, []));
  }

  lemma NothingUsable(codec: (seq<Byte>, nat) -> Decoded, pats: seq<Word>, alphaMap: seq<nat>, es: seq<Entry>)
    requires (forall i :: 0 <= i < |es| ==> EntryOk(es[i]) && es[i].originalLen <= 0) && |alphaMap| == BYTE_RANGE
    ensures Hits(FoundIn(codec, pats, alphaMap, es)) == []
  {
    NothingInEmptyText(pats, alphaMap);
    NoHits(FoundIn(codec, pats, alphaMap, es));
  }

  ghost function View(out: seq<FileMatch>): (hits: seq<Hit>)
    ensures |hits| == |out| && forall i :: 0 <= i < |out| ==> hits[i] == Hit(out[i].file, Ids(out[i].bitmask))
  {
    seq(|out|, i requires 0 <= i < |out| => Hit(out[i].file, Ids(out[i].bitmask)))
  }

  /** A match of the batch has the mask that the single-file scan returns for its file. */
  ghost predicate SameMask(codec: (seq<Byte>, nat) -> Decoded, pats: seq<Word>, alphaMap: seq<nat>, es: seq<Entry>,
                           m: FileMatch)
    requires (forall i :: 0 <= i < |es| ==> EntryOk(es[i])) && |alphaMap| == BYTE_RANGE
  {
    m.file < |es| && m.bitmask == EntryMask(codec, pats, alphaMap, es[m.file])
  }

  lemma MasksAreSame(codec: (seq<Byte>, nat) -> Decoded, pats: seq<Word>, alphaMap: seq<nat>, es: seq<Entry>,
                     out: seq<FileMatch>, total: nat, max: int)
    requires (forall i :: 0 <= i < |es| ==> EntryOk(es[i])) && |alphaMap| == BYTE_RANGE
    requires CutOff(View(out), total, Hits(FoundIn(codec, pats, alphaMap, es)), max)
    ensures forall i :: 0 <= i < total ==> SameMask(codec, pats, alphaMap, es, out[i])
  {
    var found := FoundIn(codec, pats, alphaMap, es);
    forall i | 0 <= i < total
      ensures SameMask(codec, pats, alphaMap, es, out[i])
    {
      var h := Hits(found)[i];
      assert View(out)[i] == View(out)[..total][i] == Hits(found)[..total][i] == h;
      HitsExact(found, h);
      IsMaskOf(out[i].bitmask, EntryIds(codec, pats, alphaMap, es[out[i].file]));
    }
  }

  ghost predicate Listed(out: seq<FileMatch>, f: nat) {
    exists i :: 0 <= i < |out| && out[i].file == f
  }

  /** The hits are files in which something stands, in order, and none of these is left out. */
  lemma HitsAreFiles(codec: (seq<Byte>, nat) -> Decoded, given: Option<seq<nat>>, m: seq<nat>,
                     patterns: seq<seq<Byte>>, es: seq<Entry>, out: seq<FileMatch>, total: nat, max: int)
    requires (forall i :: 0 <= i < |es| ==> EntryOk(es[i])) && GivenOk(given) && MapOf(given, m)
    requires CutOff(View(out), total, Hits(FoundIn(codec, MapAll(m, patterns), m, es)), max)
    ensures forall i :: 0 <= i < total ==>
              out[i].file < |es| && MaskSays(codec, given, patterns, es[out[i].file], out[i].bitmask)
    ensures forall i, j :: 0 <= i < j < total ==> out[i].file < out[j].file
    ensures total < max ==>
              forall f, p: nat | 0 <= f < |es| && p < 64 && InEntry(codec, given, patterns, es[f], p) ::
                Listed(out[..total], f)
  {
    var found := FoundIn(codec, MapAll(m, patterns), m, es);
    forall i | 0 <= i < total
      ensures Hits(found)[i] == Hit(out[i].file, Ids(out[i].bitmask))
      ensures out[i].file < |es| && MaskSays(codec, given, patterns, es[out[i].file], out[i].bitmask)
    {
      assert View(out)[i] == View(out)[..total][i] == Hits(found)[..total][i];
      HitsExact(found, Hits(found)[i]);
      MaskIs(codec, given, m, patterns, es[out[i].file], out[i].bitmask);
    }
    HitsExact(found, Hit(0, {}));
    if total < max {
      forall f, p: nat | 0 <= f < |es| && p < 64 && InEntry(codec, given, patterns, es[f], p)
        ensures Listed(out[..total], f)
      {
        EntryIdsAre(codec, given, m, patterns, es[f], p);
        HitsExact(found, Hit(f, found[f]));
        var i :| 0 <= i < |Hits(found)| && Hits(found)[i] == Hit(f, found[f]);
        assert out[..total][i].file == f;
      }
    }
  }

  /** The thread's scanner: a decompressor and the buffer kept between calls. */
  class Scanner {
    const codec: (seq<Byte>, nat) -> Decoded
    var buf: array?<Byte>
    var cap: int

    constructor (codec: (seq<Byte>, nat) -> Decoded)
      requires Bounded(codec)
      ensures Valid() && this.codec == codec && buf == null
    {
      this.codec := codec;
      buf := null;
      cap := 0;
    }

    ghost predicate Valid()
      reads this
    {
      Bounded(codec) && 0 <= cap && if buf == null then cap == 0 else buf.Length == cap
    }

    /** get_decomp_buf: grows in 64 KiB steps, keeps a buffer that is already large enough. */
    method GetBuffer(needed: int) returns (b: array?<Byte>)
      requires Valid() && needed + (CHUNK - 1) <= INT_MAX
      modifies this
      ensures Valid() && b == buf && (b == old(buf) || fresh(b))
      ensures needed <= cap && cap >= old(cap)
      ensures needed <= old(cap) ==> b == old(buf)
      ensures needed > old(cap) ==> b != null && cap % 65536 == 0 && cap < needed + 65536
    {
      if needed > cap {
        var rounded := (needed + (CHUNK - 1)) / CHUNK * CHUNK;
        buf := new Byte[rounded](_ => 0);
        cap := rounded;
      }
      b := buf;
    }

    /** pmm_lz4_decompress: overwrites the front of the buffer. */
    method Decompress(data: seq<Byte>, b: array<Byte>, room: nat) returns (ret: int)
      requires Bounded(codec) && room <= b.Length
      modifies b
      ensures ret == codec(data, room).ret <= |codec(data, room).written| <= room
      ensures b[..|codec(data, room).written|] == codec(data, room).written
    {
      var d := codec(data, room);
      var n := |d.written|;
      forall i | 0 <= i < n {
        b[i] := d.written[i];
      }
      ret := d.ret;
    }

    /** pmm_ac_scan_lz4_bitmask: the mask of what stands in the decompressed bytes. */
    method ScanFile(ac: Automaton?, e: Entry) returns (result: Mask)
      requires Valid() && EntryOk(e)
      requires ac != null ==> ac.Valid() && (buf == null || Apart(ac, buf))
      modifies this, buf
      ensures Valid() && (buf == null || buf == old(buf) || fresh(buf))
      ensures result == if ac == null then 0 else EntryMask(codec, ac.pats, ac.alphaMap, e)
      ensures ac != null ==> MaskSays(codec, ac.given, ac.patterns, e, result)
    {
      result := FileMask(ac, e);
      if ac != null {
        MaskIs(codec, ac.given, ac.alphaMap, ac.patterns, e, result);
        IsMaskOf(result, EntryIds(codec, ac.pats, ac.alphaMap, e));
      }
    }

    /** The mask of one file, known by its ids. */
    method FileMask(ac: Automaton?, e: Entry) returns (result: Mask)
      requires Valid() && EntryOk(e)
      requires ac != null ==> ac.Valid() && (buf == null || Apart(ac, buf))
      modifies this, buf
      ensures Valid() && (buf == null || buf == old(buf) || fresh(buf))
      ensures ac == null ==> result == 0
      ensures ac != null ==> Ids(result) == EntryIds(codec, ac.pats, ac.alphaMap, e)
    {
      IdsZero();
      result := 0;
      if ac != null {
        NothingInEmptyText(ac.pats, ac.alphaMap);
        if Usable(e) {
          var b := GetBuffer(e.originalLen);
          var n := Decompress(e.data.value[..e.compressedLen], b, e.originalLen);
          if n >= 0 {
            assert b[..n] == Text(codec, e);
            result := ac.ScanBitmask(b[..n]);
          }
        }
      }
    }

    /**
      pmm_ac_scan_lz4_batch: the first max files in which the single-file scan finds something, by
      increasing index, each with the mask that scan returns.
     */
    method ScanFiles(ac: Automaton?, es: seq<Entry>, out: array<FileMatch>, max: int) returns (total: nat)
      requires Valid() && max <= out.Length && forall i :: 0 <= i < |es| ==> EntryOk(es[i])
      requires ac != null ==> ac.Valid() && (buf == null || Apart(ac, buf)) && Outside(ac, out)
      requires (out as object) != (this as object) && (buf == null || (out as object) != (buf as object))
      modifies this, buf, out
      ensures Valid() && (buf == null || buf == old(buf) || fresh(buf))
      ensures ac == null ==> total == 0
      ensures ac != null ==>
                CutOff(View(out[..]), total, Hits(FoundIn(codec, ac.pats, ac.alphaMap, es)), max) &&
                (total == 0 || total <= max)
      ensures ac != null ==> forall i :: 0 <= i < total ==> SameMask(codec, ac.pats, ac.alphaMap, es, out[i])
      ensures ac != null ==> forall i :: 0 <= i < total ==>
                out[i].file < |es| && MaskSays(codec, ac.given, ac.patterns, es[out[i].file], out[i].bitmask)
      ensures ac != null ==> forall i, j :: 0 <= i < j < total ==> out[i].file < out[j].file
      ensures ac != null && total < max ==>
                forall f, p: nat | 0 <= f < |es| && p < 64 && InEntry(codec, ac.given, ac.patterns, es[f], p) ::
                  Listed(out[..total], f)
    {
      total := WriteFiles(ac, es, out, max);
      if ac != null {
        MasksAreSame(codec, ac.pats, ac.alphaMap, es, out[..], total, max);
        HitsAreFiles(codec, ac.given, ac.alphaMap, ac.patterns, es, out[..], total, max);
      }
    }

    /** The files of a batch, known by their ids. */
    method WriteFiles(ac: Automaton?, es: seq<Entry>, out: array<FileMatch>, max: int) returns (total: nat)
      requires Valid() && max <= out.Length && forall i :: 0 <= i < |es| ==> EntryOk(es[i])
      requires ac != null ==> ac.Valid() && (buf == null || Apart(ac, buf)) && Outside(ac, out)
      requires (out as object) != (this as object) && (buf == null || (out as object) != (buf as object))
      modifies this, buf, out
      ensures Valid() && (buf == null || buf == old(buf) || fresh(buf))
      ensures ac == null ==> total == 0
      ensures ac != null ==>
                CutOff(View(out[..]), total, Hits(FoundIn(codec, ac.pats, ac.alphaMap, es)), max) &&
                (total == 0 || total <= max)
    {
      total := 0;
      if ac == null || |es| == 0 {
        return;
      }
      var longest := Longest(es);
      var b := GetBuffer(longest);
      if b == null {
        NothingUsable(codec, ac.pats, ac.alphaMap, es);
        return;
      }
      total := ScanEach(ac, b, es, out, max);
    }

    /** The loop of the batch scan, into a buffer large enough for every entry. */
    method ScanEach(ac: Automaton, b: array<Byte>, es: seq<Entry>, out: array<FileMatch>, max: int) returns (total: nat)
      requires Bounded(codec) && ac.Valid() && Apart(ac, b) && Outside(ac, out) && (out as object) != (b as object)
      requires max <= out.Length && forall i :: 0 <= i < |es| ==> EntryOk(es[i]) && es[i].originalLen <= b.Length
      modifies b, out
      ensures CutOff(View(out[..]), total, Hits(FoundIn(codec, ac.pats, ac.alphaMap, es)), max) &&
              (total == 0 || total <= max)
    {
      total := 0;
      ghost var found := FoundIn(codec, ac.pats, ac.alphaMap, es);
      assert found[..0] == [];
      var i := 0;
      while i < |es| && total < max
        invariant i <= |es| && (total == 0 || total <= max)
        invariant CutOff(View(out[..]), total, Hits(found[..i]), max)
      {
        total := ScanNext(ac, b, es, i, out, total, max, found);
        i := i + 1;
      }
      HitsCut(found, i, View(out[..]), total, max);
    }

    /** One turn of the loop: file i is scanned, and recorded when something is found in it. */
    method ScanNext(ac: Automaton, b: array<Byte>, es: seq<Entry>, i: nat, out: array<FileMatch>, total: nat, max: int,
                    ghost found: seq<set<nat>>)
      returns (total': nat)
      requires Bounded(codec) && ac.Valid() && Apart(ac, b) && Outside(ac, out) && (out as object) != (b as object)
      requires i < |es| && EntryOk(es[i]) && es[i].originalLen <= b.Length && total < max <= out.Length
      requires i < |found| && found[i] == EntryIds(codec, ac.pats, ac.alphaMap, es[i])
      requires CutOff(View(out[..]), total, Hits(found[..i]), max)
      modifies b, out
      ensures total' <= max && CutOff(View(out[..]), total', Hits(found[..i + 1]), max)
    {
      ghost var before := out[..];
      var result := ScanEntry(ac, b, es[i]);
      assert out[..] == before;
      HitsStep(found, i);
      total' := RecordHit(out, total, i, result, max, Hits(found[..i]));
    }

    /** One file of the batch, into a buffer already large enough; bytes left from earlier files do not matter. */
    method ScanEntry(ac: Automaton, b: array<Byte>, e: Entry) returns (result: Mask)
      requires Bounded(codec) && ac.Valid() && Apart(ac, b) && EntryOk(e) && e.originalLen <= b.Length
      modifies b
      ensures Ids(result) == EntryIds(codec, ac.pats, ac.alphaMap, e)
    {
      IdsZero();
      NothingInEmptyText(ac.pats, ac.alphaMap);
      result := 0;
      if Usable(e) {
        var n := Decompress(e.data.value[..e.compressedLen], b, e.originalLen);
        if n > 0 {
          assert b[..n] == Text(codec, e);
          result := ac.ScanBitmask(b[..n]);
        }
      }
    }

    static predicate Apart(ac: Automaton, b: array<Byte>) {
      && (b as object) != (ac.goTable as object) && (b as object) != (ac.output as object)
      && (b as object) != (ac.outputList as object) && (b as object) != (ac.outputNext as object)
    }
  }

  /** max_orig */
  method Longest(es: seq<Entry>) returns (longest: int)
    requires forall i :: 0 <= i < |es| ==> EntryOk(es[i])
    ensures 0 <= longest && longest + (CHUNK - 1) <= INT_MAX
    ensures forall i :: 0 <= i < |es| ==> es[i].originalLen <= longest
  {
    longest := 0;
    for i := 0 to |es|
      invariant 0 <= longest && longest + (CHUNK - 1) <= INT_MAX
      invariant forall j :: 0 <= j < i ==> es[j].originalLen <= longest
    {
      if es[i].originalLen > longest {
        longest := es[i].originalLen;
      }
    }
  }

  /** Writes a match for file i when its mask is not zero. */
  method RecordHit(out: array<FileMatch>, total0: nat, i: nat, result: Mask, max: int, ghost hits: seq<Hit>)
    returns (total: nat)
    requires total0 < max <= out.Length && CutOff(View(out[..]), total0, hits, max)
    modifies out
    ensures total0 <= total <= max
    ensures CutOff(View(out[..]), total, hits + if Ids(result) == {} then [] else [Hit(i, Ids(result))], max)
  {
    total := total0;
    IdsEmpty(result);
    if result != 0 {
      ghost var before := View(out[..]);
      ghost var out' := out[..][total := FileMatch(i, result)];
      out[total] := FileMatch(i, result);
      assert out[..] == out';
      assert View(out[..])[..total] == before[..total];
      total := total + 1;
    } else {
      assert hits + [] == hits;
    }
  }

  lemma HitsCut(found: seq<set<nat>>, n: nat, out: seq<Hit>, total: nat, max: int)
    requires n <= |found| && (n < |found| ==> total >= max) && CutOff(out, total, Hits(found[..n]), max)
    ensures CutOff(out, total, Hits(found), max)
  {
    HitsExtend(found, n);
    if n == |found| {
      assert found[..n] == found;
    } else {
      PrefixCut(out, total, Hits(found[..n]), Hits(found), max);
    }
  }
}
