/**
  Splitting a plain text into bounded chunks, as internal/pmm/extract_docs.c does it.
 */
module DocChunks {
  const MAX_SECTIONS: nat := 512
  const DOC_CHUNK: nat := 3500

  datatype Heading = Part(number: nat) | WholeDocument | Titled(text: string)

  datatype Section = Section(heading: Heading, body: string, startLine: nat, endLine: nat)

  function Concat(ss: seq<string>): string {
    if ss == [] then "" else ss[0] + Concat(ss[1..])
  }

  lemma ConcatFirst(s: string, ss: seq<string>)
    ensures Concat([s] + ss) == s + Concat(ss)
  {
    assert ([s] + ss)[1..] == ss;
  }

  lemma {:induction false} ConcatAppend(ss: seq<string>, s: string)
    ensures Concat(ss + [s]) == Concat(ss) + s
  {
    if ss == [] {
      assert [s][1..] == [];
      assert Concat([]) == "";
      assert [] + [s] == [s];
    } else {
      assert (ss + [s])[0] == ss[0] && (ss + [s])[1..] == ss[1..] + [s];
      ConcatAppend(ss[1..], s);
    }
  }

  lemma {:induction false} ConcatSplit(a: seq<string>, b: seq<string>)
    ensures Concat(a + b) == Concat(a) + Concat(b)
  {
    if a == [] {
      assert a + b == b;
    } else {
      assert (a + b)[0] == a[0] && (a + b)[1..] == a[1..] + b;
      ConcatSplit(a[1..], b);
    }
  }

  // ----- where a chunk ends

  /** k is the length of the first chunk of text. */
  predicate IsCut(text: string, k: nat) {
    if |text| <= 3500 then k == |text|
    else if exists i :: 1750 < i <= 3500 && text[i] == '\n' then
      1750 < k - 1 <= 3500 && text[k - 1] == '\n' && forall i :: k <= i <= 3500 ==> text[i] != '\n'
    else k == 3500
  }

  lemma CutUnique(text: string, k: nat, k': nat)
    requires IsCut(text, k) && IsCut(text, k')
    ensures k == k'
  {
  }

  function CutBelow(text: string, i: nat): (k: nat)
    requires |text| > DOC_CHUNK && i <= DOC_CHUNK
    requires forall j :: i < j <= DOC_CHUNK ==> text[j] != '\n'
    ensures IsCut(text, k)
  {
    if i <= DOC_CHUNK / 2 then DOC_CHUNK else if text[i] == '\n' then i + 1 else CutBelow(text, i - 1)
  }

  function Cut(text: string): (k: nat)
    ensures k <= |text| && (text != "" ==> 0 < k)
  {
    if |text| <= DOC_CHUNK then |text| else CutBelow(text, DOC_CHUNK)
  }

  lemma CutIsCut(text: string)
    ensures IsCut(text, Cut(text))
  {
  }

  /** The chunks of a text, without a limit on their number. */
  function Chunks(text: string): (cs: seq<string>)
    decreases |text|
  {
    if text == "" then [] else [text[..Cut(text)]] + Chunks(text[Cut(text)..])
  }

  /** Chunking conserves the text. */
  lemma {:induction false} ChunksConserve(text: string)
    ensures Concat(Chunks(text)) == text
    decreases |text|
  {
    if text != "" {
      var k := Cut(text);
      ChunksConserve(text[k..]);
      ConcatFirst(text[..k], Chunks(text[k..]));
      assert text[..k] + text[k..] == text;
    }
  }

  /** Every chunk but the last is of 1752 to 3501 characters, and the last of 1 to 3500. */
  lemma {:induction false} ChunkLengths(text: string, i: nat)
    requires i < |Chunks(text)|
    ensures i + 1 < |Chunks(text)| ==> 1752 <= |Chunks(text)[i]| <= 3501
    ensures 1 <= |Chunks(text)[i]| <= 3501
    decreases i
  {
    var k := Cut(text);
    CutIsCut(text);
    assert text[k..] == "" ==> Chunks(text[k..]) == [];
    if i > 0 {
      ChunkLengths(text[k..], i - 1);
      assert Chunks(text)[i] == Chunks(text[k..])[i - 1];
    }
  }

  /** How many chunks a text of a length can need. */
  lemma {:induction false} ChunkCount(text: string)
    ensures text != "" ==> (|Chunks(text)| - 1) * 1752 < |text| <= |Chunks(text)| * 3501
    decreases |text|
  {
    if text != "" {
      var k := Cut(text);
      CutIsCut(text);
      var rest := text[k..];
      ChunkCount(rest);
      assert |Chunks(text)| == 1 + |Chunks(rest)|;
      if rest == "" {
        assert Chunks(rest) == [];
      } else {
        assert Chunks(rest) != [];
        assert 1752 <= k <= 3501;
      }
    }
  }

  lemma {:induction false} EmptyConcat(ss: seq<string>)
    requires forall i :: 0 <= i < |ss| ==> ss[i] != ""
    ensures Concat(ss) == "" <==> ss == []
  {
  }

  /** The chunks kept make up the whole text exactly when there are at most 512 of them. */
  lemma WholeIff(text: string)
    ensures var cs := Chunks(text); Concat(if |cs| <= MAX_SECTIONS then cs else cs[..MAX_SECTIONS]) == text <==>
            |cs| <= MAX_SECTIONS
    ensures |text| <= 512 * 1752 ==> |Chunks(text)| <= 512
    ensures |text| > 512 * 3501 ==> |Chunks(text)| > 512
  {
    var cs := Chunks(text);
    ChunksConserve(text);
    ChunkCount(text);
    if |cs| > MAX_SECTIONS {
      var kept, lost := cs[..MAX_SECTIONS], cs[MAX_SECTIONS..];
      assert cs == kept + lost;
      ConcatSplit(kept, lost);
      forall i | 0 <= i < |lost|
        ensures lost[i] != ""
      {
        ChunkLengths(text, MAX_SECTIONS + i);
      }
      EmptyConcat(lost);
    }
  }

  // ----- lines

  function Newlines(s: string): nat {
    if s == "" then 0 else Newlines(s[..|s| - 1]) + if s[|s| - 1] == '\n' then 1 else 0
  }

  lemma {:induction false} NewlinesConcat(a: string, b: string)
    ensures Newlines(a + b) == Newlines(a) + Newlines(b)
    decreases |b|
  {
    if b == "" {
      assert a + b == a;
    } else {
      assert (a + b)[..|a + b| - 1] == a + b[..|b| - 1];
      NewlinesConcat(a, b[..|b| - 1]);
    }
  }

  /** The line on which offset off of a text stands. */
  function LineAt(text: string, off: nat): nat
    requires off <= |text|
  {
    1 + Newlines(text[..off])
  }

  function Bodies(ss: seq<Section>): (bs: seq<string>)
    ensures |bs| == |ss| && forall i :: 0 <= i < |ss| ==> bs[i] == ss[i].body
  {
    seq(|ss|, i requires 0 <= i < |ss| => ss[i].body)
  }

  // ----- the document

  class Document {
    var sections: seq<Section>

    constructor ()
      ensures sections == []
    {
      sections := [];
    }

    /** doc_add_section: refuses past the limit, and callers do not look. */
    method AddSection(s: Section) returns (added: bool)
      modifies this
      ensures added <==> |old(sections)| < MAX_SECTIONS
      ensures sections == if added then old(sections) + [s] else old(sections)
    {
      added := |sections| < MAX_SECTIONS;
      if added {
        sections := sections + [s];
      }
    }
  }

  /** The length of the next chunk. */
  method FindCut(text: string, off: nat) returns (take: nat)
    requires off < |text|
    ensures take == Cut(text[off..])
  {
    ghost var rest := text[off..];
    take := |text| - off;
    if take > DOC_CHUNK {
      take := DOC_CHUNK;
      var i := take;
      while i > DOC_CHUNK / 2
        invariant DOC_CHUNK / 2 <= i <= DOC_CHUNK && take == DOC_CHUNK
        invariant forall j :: i < j <= DOC_CHUNK ==> rest[j] != '\n'
      {
        assert text[off + i] == rest[i];
        if text[off + i] == '\n' {
          take := i + 1;
          break;
        }
        i := i - 1;
      }
    }
    assert IsCut(rest, take);
    CutIsCut(rest);
    CutUnique(rest, take, Cut(rest));
  }

  method CountLines(text: string, off: nat, take: nat) returns (lines: nat)
    requires off + take <= |text|
    ensures lines == 1 + Newlines(text[off..off + take])
  {
    lines := 1;
    for i := 0 to take
      invariant lines == 1 + Newlines(text[off..off + i])
    {
      assert text[off..off + i + 1] == text[off..off + i] + [text[off + i]];
      assert text[off..off + i + 1][..i] == text[off..off + i];
      if text[off + i] == '\n' {
        lines := lines + 1;
      }
    }
  }

  function Min(a: nat, b: nat): nat {
    if a <= b then a else b
  }

  /** Chunks of a text, then the chunks of the rest. */
  ghost predicate Taken(text: string, off: nat, bodies: seq<string>) {
    off <= |text| && bodies + Chunks(text[off..]) == Chunks(text) && Concat(bodies) == text[..off]
  }

  lemma TakenStart(text: string)
    ensures Taken(text, 0, []) && LineAt(text, 0) == 1
  {
    assert text[0..] == text;
  }

  lemma SplitAt(text: string, off: nat, k: nat)
    requires off + k <= |text|
    ensures text[off..][..k] == text[off..off + k] && text[off..][k..] == text[off + k..]
    ensures text[..off + k] == text[..off] + text[off..off + k]
  {
  }

  lemma Regroup<T>(a: seq<T>, x: T, b: seq<T>)
    ensures a + ([x] + b) == (a + [x]) + b
  {
  }

  lemma ChunksNext(text: string, off: nat, k: nat)
    requires off < |text| && k == Cut(text[off..])
    ensures off + k <= |text| && Chunks(text[off..]) == [text[off..off + k]] + Chunks(text[off + k..])
  {
    SplitAt(text, off, k);
  }

  lemma TextNext(text: string, off: nat, k: nat, bodies: seq<string>)
    requires off + k <= |text| && Concat(bodies) == text[..off]
    ensures Concat(bodies + [text[off..off + k]]) == text[..off + k]
  {
    SplitAt(text, off, k);
    ConcatAppend(bodies, text[off..off + k]);
  }

  lemma TakenNext(text: string, off: nat, bodies: seq<string>)
    requires Taken(text, off, bodies) && off < |text|
    ensures var k := Cut(text[off..]); off + k <= |text| && Taken(text, off + k, bodies + [text[off..off + k]])
  {
    var k := Cut(text[off..]);
    ChunksNext(text, off, k);
    TextNext(text, off, k, bodies);
    Regroup(bodies, text[off..off + k], Chunks(text[off + k..]));
  }

  /** At the end, or at the limit, the bodies are the first chunks of the text. */
  lemma TakenEnd(text: string, off: nat, bodies: seq<string>)
    requires Taken(text, off, bodies) && |bodies| <= MAX_SECTIONS && (off == |text| || |bodies| == MAX_SECTIONS)
    ensures bodies == Chunks(text)[..Min(|Chunks(text)|, MAX_SECTIONS)]
    ensures bodies == [] ==> text == ""
  {
    if off == |text| {
      assert text[off..] == "" && text[..off] == text;
      assert Chunks(text[off..]) == [];
    }
    assert Chunks(text)[..|bodies|] == bodies;
  }

  lemma LineNext(text: string, off: nat, k: nat)
    requires off + k <= |text|
    ensures LineAt(text, off + k) == LineAt(text, off) + Newlines(text[off..off + k])
  {
    SplitAt(text, off, k);
    NewlinesConcat(text[..off], text[off..off + k]);
  }

  /** The start line reported for a chunk is ahead of its true line by the number of chunks before it. */
  ghost predicate Drifts(text: string, ss: seq<Section>) {
    forall i :: 0 <= i < |ss| ==> DriftAt(text, ss, i)
  }

  ghost predicate DriftAt(text: string, ss: seq<Section>, i: nat)
    requires i < |ss|
  {
    var off := |Concat(Bodies(ss[..i]))|;
    off <= |text| && ss[i].startLine == LineAt(text, off) + i
  }

  /** Parts are numbered from 1, and each ends as many lines behind its start as it has newlines. */
  predicate Numbered(ss: seq<Section>) {
    forall i :: 0 <= i < |ss| ==> IsPart(ss[i], i + 1)
  }

  predicate IsPart(s: Section, number: nat) {
    s.heading == Part(number) && s.endLine == s.startLine + Newlines(s.body)
  }

  lemma DriftsNext(text: string, ss: seq<Section>, s: Section, off: nat)
    requires off <= |text| && Drifts(text, ss) && Concat(Bodies(ss)) == text[..off]
    requires s.startLine == LineAt(text, off) + |ss|
    ensures Drifts(text, ss + [s])
  {
    var all := ss + [s];
    forall i | 0 <= i < |all|
      ensures DriftAt(text, all, i)
    {
      assert all[..i] == ss[..i];
      if i < |ss| {
        assert DriftAt(text, ss, i);
      } else {
        assert ss[..i] == ss;
      }
    }
  }

  lemma BodiesAppend(ss: seq<Section>, s: Section)
    ensures Bodies(ss + [s]) == Bodies(ss) + [s.body]
  {
  }

  /** The sections taken so far, and the line the next one is said to start at. */
  ghost predicate Parsing(text: string, off: nat, ss: seq<Section>, line: nat) {
    Taken(text, off, Bodies(ss)) && Drifts(text, ss) && Numbered(ss) && line == LineAt(text, off) + |ss|
  }

  lemma ParsingStart(text: string)
    ensures Parsing(text, 0, [], 1)
  {
    TakenStart(text);
    assert Bodies([]) == [];
  }

  /** The section of the next chunk, and the offset and the line behind it. */
  function SectionAt(text: string, off: nat, line: nat, part: nat): Section
    requires off < |text|
  {
    var body := text[off..Behind(text, off)];
    Section(Part(part + 1), body, line, line + Newlines(body))
  }

  function Behind(text: string, off: nat): (off': nat)
    requires off < |text|
    ensures off < off' <= |text|
  {
    off + Cut(text[off..])
  }

  function LineBehind(text: string, off: nat, line: nat): nat
    requires off < |text|
  {
    line + 1 + Newlines(text[off..Behind(text, off)])
  }

  lemma TakenStep(text: string, off: nat, ss: seq<Section>, s: Section)
    requires off < |text| && Taken(text, off, Bodies(ss)) && s.body == text[off..Behind(text, off)]
    ensures Taken(text, Behind(text, off), Bodies(ss + [s]))
  {
    TakenNext(text, off, Bodies(ss));
    BodiesAppend(ss, s);
  }

  lemma LineStep(text: string, off: nat, line: nat, count: nat)
    requires off < |text| && line == LineAt(text, off) + count
    ensures LineBehind(text, off, line) == LineAt(text, Behind(text, off)) + count + 1
  {
    LineNext(text, off, Cut(text[off..]));
  }

  lemma ParsingNext(text: string, off: nat, ss: seq<Section>, line: nat)
    requires off < |text| && Parsing(text, off, ss, line)
    ensures Parsing(text, Behind(text, off), ss + [SectionAt(text, off, line, |ss|)], LineBehind(text, off, line))
  {
    var s := SectionAt(text, off, line, |ss|);
    TakenStep(text, off, ss, s);
    LineStep(text, off, line, |ss|);
    DriftsNext(text, ss, s, off);
    NumberedNext(ss, s);
  }

  lemma NumberedNext(ss: seq<Section>, s: Section)
    requires Numbered(ss) && IsPart(s, |ss| + 1)
    ensures Numbered(ss + [s])
  {
  }

  /** One chunk becomes a section. */
  method TakeChunk(doc: Document, text: string, off: nat, line: nat) returns (off': nat, line': nat)
    requires off < |text| && |doc.sections| < MAX_SECTIONS
    modifies doc
    ensures doc.sections == old(doc.sections) + [SectionAt(text, off, line, |old(doc.sections)|)]
    ensures off' == Behind(text, off) && line' == LineBehind(text, off, line)
  {
    var take := FindCut(text, off);
    var lines := CountLines(text, off, take);
    var _ := doc.AddSection(Section(Part(|doc.sections| + 1), text[off..off + take], line, line + lines - 1));
    off', line' := off + take, line + lines;
  }

  /** The body c stands in the text at off, and ends where what is left from there is to be cut. */
  predicate CutAt(text: string, off: nat, c: string) {
    off + |c| <= |text| && c == text[off..][..|c|] && IsCut(text[off..], |c|)
  }

  /** Section i is the piece of the text behind the bodies before it, up to where it is to be cut. */
  ghost predicate PieceAt(text: string, ss: seq<Section>, i: nat)
    requires i < |ss|
  {
    CutAt(text, |Concat(Bodies(ss[..i]))|, ss[i].body)
  }

  lemma {:induction false} CutShifted(text: string, k: nat, off: nat, c: string)
    requires k <= |text| && CutAt(text[k..], off, c)
    ensures CutAt(text, k + off, c)
  {
    assert text[k..][off..] == text[k + off..];
  }

  lemma {:induction false} ChunkAt(text: string, i: nat)
    requires i < |Chunks(text)|
    ensures CutAt(text, |Concat(Chunks(text)[..i])|, Chunks(text)[i])
    decreases i
  {
    var k := Cut(text);
    if i == 0 {
      CutIsCut(text);
      assert Chunks(text)[..0] == [] && text[0..] == text;
    } else {
      var cs := Chunks(text[k..]);
      ChunkAt(text[k..], i - 1);
      CutShifted(text, k, |Concat(cs[..i - 1])|, cs[i - 1]);
      FirstsLength(text[..k], cs, i);
    }
  }

  lemma {:induction false} FirstsLength(c: string, cs: seq<string>, i: nat)
    requires 0 < i <= |cs| + 1
    ensures |Concat(([c] + cs)[..i])| == |c| + |Concat(cs[..i - 1])|
  {
    assert ([c] + cs)[..i] == [c] + cs[..i - 1];
    ConcatFirst(c, cs[..i - 1]);
  }

  lemma PiecesAre(text: string, ss: seq<Section>, i: nat)
    requires Bodies(ss) <= Chunks(text) && i < |ss|
    ensures PieceAt(text, ss, i)
  {
    ChunkAt(text, i);
    assert Bodies(ss[..i]) == Chunks(text)[..i];
    assert Bodies(ss)[i] == Chunks(text)[i];
  }

  /** parse_plain_chunks on an empty document: the first 512 chunks of the text, or one empty body. */
  method ParsePlainChunks(doc: Document, text: string)
    requires doc.sections == []
    modifies doc
    ensures text == "" ==> doc.sections == [Section(WholeDocument, "", 1, 1)]
    ensures text != "" ==> Bodies(doc.sections) == Chunks(text)[..Min(|Chunks(text)|, MAX_SECTIONS)]
    ensures text != "" ==> Numbered(doc.sections)
    ensures text != "" ==>
              |doc.sections| <= 512 && forall i :: 0 <= i < |doc.sections| ==>
                PieceAt(text, doc.sections, i) && doc.sections[i].heading == Part(i + 1)
    ensures |doc.sections| < 512 ==> Concat(Bodies(doc.sections)) == text
    ensures Drifts(text, doc.sections)
  {
    var off, line := 0, 1;
    ParsingStart(text);
    while off < |text| && |doc.sections| < MAX_SECTIONS
      invariant off <= |text| && |doc.sections| <= MAX_SECTIONS && Parsing(text, off, doc.sections, line)
    {
      ParsingNext(text, off, doc.sections, line);
      off, line := TakeChunk(doc, text, off, line);
    }
    TakenEnd(text, off, Bodies(doc.sections));
    forall i | 0 <= i < |doc.sections|
      ensures PieceAt(text, doc.sections, i) && doc.sections[i].heading == Part(i + 1)
    {
      assert IsPart(doc.sections[i], i + 1);
      PiecesAre(text, doc.sections, i);
    }
    assert off == |text| ==> text[..off] == text;
    if |doc.sections| == 0 {
      DriftsNext(text, [], Section(WholeDocument, text, 1, 1), 0);
      var _ := doc.AddSection(Section(WholeDocument, text, 1, 1));
      assert doc.sections == [] + [Section(WholeDocument, text, 1, 1)];
    }
  }
}
