/**
  Splitting a Markdown text into sections by its headings, as internal/pmm/extract_docs.c does it:
  a body buffer that grows by doubling to a limit, and is flushed when a line does not fit.
 */
module Markdown {
  import opened Sequences
  import opened DocChunks

  const FIRST_CAP: nat := 8192
  const MAX_BODY: nat := 0x2_0000
  const MAX_HEADING: nat := 511
  const FULL_BODY: nat := MAX_BODY - FIRST_CAP

  // ----- lines

  function Eol(text: string, p: nat): (e: nat)
    requires p <= |text|
    ensures p <= e <= |text| && (e < |text| ==> text[e] == '\n') && forall i :: p <= i < e ==> text[i] != '\n'
    decreases |text| - p
  {
    if p == |text| || text[p] == '\n' then p else Eol(text, p + 1)
  }

  /** The lines from position p on, without their newlines. */
  function LinesFrom(text: string, p: nat): (ls: seq<string>)
    decreases |text| - p
  {
    if p >= |text| then [] else [text[p..Eol(text, p)]] + LinesFrom(text, Eol(text, p) + 1)
  }

  function Ended(ls: seq<string>): string {
    if ls == [] then "" else ls[0] + ['\n'] + Ended(ls[1..])
  }

  lemma TailAt(text: string, p: nat, e: nat)
    requires p <= e < |text| && text[e] == '\n'
    ensures text[p..] == text[p..e] + ['\n'] + text[e + 1..]
  {
  }

  lemma FirstLine(text: string, p: nat)
    requires p < |text|
    ensures LinesFrom(text, p) != [] && LinesFrom(text, p)[0] == text[p..Eol(text, p)]
    ensures LinesFrom(text, p)[1..] == LinesFrom(text, Eol(text, p) + 1)
  {
  }

  /** The lines, each ended by a newline, are the text, up to a missing last newline. */
  lemma {:induction false} LinesCover(text: string, p: nat)
    requires p <= |text|
    ensures Ended(LinesFrom(text, p)) == text[p..] || Ended(LinesFrom(text, p)) == text[p..] + ['\n']
    decreases |text| - p
  {
    if p < |text| {
      var e := Eol(text, p);
      FirstLine(text, p);
      var rest := Ended(LinesFrom(text, e + 1));
      assert Ended(LinesFrom(text, p)) == text[p..e] + ['\n'] + rest;
      if e < |text| {
        LinesCover(text, e + 1);
        TailAt(text, p, e);
        Assoc(text[p..e] + ['\n'], text[e + 1..], ['\n']);
      } else {
        assert rest == "" && text[p..e] == text[p..];
      }
    }
  }

  predicate IsHeading(l: string) {
    l != "" && l[0] == '#'
  }

  predicate IsContent(l: string) {
    l != "" && l[0] != '#'
  }

  function SkipMarks(l: string): (i: nat)
    ensures i <= |l| && forall j :: 0 <= j < i ==> l[j] == '#'
    ensures i < |l| ==> l[i] != '#'
  {
    if l == "" || l[0] != '#' then 0 else 1 + SkipMarks(l[1..])
  }

  function SkipBlanks(l: string): (i: nat)
    ensures i <= |l| && forall j :: 0 <= j < i ==> l[j] == ' ' || l[j] == '\t'
    ensures i < |l| ==> l[i] != ' ' && l[i] != '\t'
  {
    if l == "" || (l[0] != ' ' && l[0] != '\t') then 0 else 1 + SkipBlanks(l[1..])
  }

  /** Where the title starts: after the marks and the blanks behind them. */
  function TitleStart(l: string): (i: nat)
    ensures i <= |l|
  {
    SkipMarks(l) + SkipBlanks(l[SkipMarks(l)..])
  }

  /** The title, cut to 511 characters. */
  function HeadingText(l: string): string {
    var i := TitleStart(l);
    l[i..i + Min(|l| - i, MAX_HEADING)]
  }

  // ----- one line

  /**
    What has been handed out as sections, the heading and the body at hand, the size of its buffer, the
    line it starts at, and how many lines are done.
   */
  datatype State = State(pieces: seq<Section>, heading: string, body: string, cap: nat, start: nat, done: nat)

  const INITIAL: State := State([], "Introduction", "", FIRST_CAP, 1, 0)

  function Doubled(cap: nat): (nc: nat) {
    if cap * 2 > MAX_BODY then MAX_BODY else cap * 2
  }

  /** The body with a section made of it, up to a line. */
  function Flushed(st: State, end: nat): State {
    st.(pieces := st.pieces + [Section(Titled(st.heading), st.body, st.start, end)], body := "")
  }

  /** Room is made for a line: none needed, the buffer doubled, or the body flushed. */
  function MakeRoom(st: State, l: string): State {
    if |st.body| + |l| + 2 <= st.cap then st
    else if |st.body| + |l| + 2 <= Doubled(st.cap) then st.(cap := Doubled(st.cap))
    else Flushed(st, st.done + 1).(start := st.done + 1)
  }

  function Close(st: State, end: nat): State {
    if st.body != "" || st.pieces == [] then Flushed(st, end) else st
  }

  function Step(st: State, l: string): State {
    if IsHeading(l) then
      Close(st, st.done).(heading := HeadingText(l), body := "", start := st.done + 1, done := st.done + 1)
    else
      var st' := MakeRoom(st, l);
      if l != "" && |st'.body| + |l| + 2 <= st'.cap then st'.(body := st'.body + l + ['\n'], done := st.done + 1)
      else st'.(done := st.done + 1)
  }

  function Fold(st: State, ls: seq<string>): State
    decreases |ls|
  {
    if ls == [] then st else Fold(Step(st, ls[0]), ls[1..])
  }

  predicate Ok(st: State) {
    FIRST_CAP <= st.cap <= MAX_BODY && |st.body| < st.cap
  }

  // ----- what is conserved

  function PieceText(ps: seq<Section>): string {
    if ps == [] then "" else PieceText(ps[..|ps| - 1]) + ps[|ps| - 1].body
  }

  /** All body text so far. */
  function Held(st: State): string {
    PieceText(st.pieces) + st.body
  }

  /** What the document says: its lines that are neither blank nor headings. */
  function Content(ls: seq<string>): string {
    if ls == [] then "" else Kept(ls[0]) + Content(ls[1..])
  }

  function Kept(l: string): string {
    if IsContent(l) then l + ['\n'] else ""
  }

  /** A line finds room: in a fresh buffer of the present size, or behind the body in a doubled one. */
  predicate Fits(st: State, l: string) {
    IsContent(l) ==> |l| + 2 <= st.cap || |st.body| + |l| + 2 <= Doubled(st.cap)
  }

  predicate AllFit(st: State, ls: seq<string>)
    decreases |ls|
  {
    ls == [] || (Fits(st, ls[0]) && AllFit(Step(st, ls[0]), ls[1..]))
  }

  lemma FlushedHeld(st: State, end: nat)
    ensures Held(Flushed(st, end)) == Held(st)
  {
    var ps := Flushed(st, end).pieces;
    assert ps[..|ps| - 1] == st.pieces;
  }

  lemma StepOk(st: State, l: string)
    requires Ok(st)
    ensures Ok(Step(st, l))
  {
  }

  /** One line adds itself to the text held, exactly when it is content and fits. */
  lemma StepHeld(st: State, l: string)
    requires Ok(st)
    ensures Held(Step(st, l)) == Held(st) + if Fits(st, l) then Kept(l) else ""
  {
    FlushedHeld(st, st.done);
    FlushedHeld(st, st.done + 1);
    var st' := MakeRoom(st, l);
    assert Held(st') == Held(st);
    if IsContent(l) && Fits(st, l) {
      assert PieceText(st'.pieces) + (st'.body + l + ['\n']) == (PieceText(st'.pieces) + st'.body) + (l + ['\n']);
    }
  }

  /** A whole text is conserved exactly when every line fits at its turn. */
  lemma {:induction false} FoldHeld(st: State, ls: seq<string>)
    requires Ok(st)
    ensures Ok(Fold(st, ls)) && |Held(Fold(st, ls))| <= |Held(st) + Content(ls)|
    ensures Held(Fold(st, ls)) == Held(st) + Content(ls) <==> AllFit(st, ls)
    ensures !AllFit(st, ls) ==> |Held(Fold(st, ls))| < |Held(st) + Content(ls)|
    decreases |ls|
  {
    if ls != [] {
      var st' := Step(st, ls[0]);
      StepOk(st, ls[0]);
      StepHeld(st, ls[0]);
      FoldHeld(st', ls[1..]);
      Assoc(Held(st), Kept(ls[0]), Content(ls[1..]));
      if Fits(st, ls[0]) {
        assert Held(st') + Content(ls[1..]) == Held(st) + Content(ls);
      } else {
        assert |Held(st') + Content(ls[1..])| < |Held(st) + Content(ls)|;
      }
    }
  }

  /** Lines of at most 8190 characters always fit. */
  lemma {:induction false} ShortLinesFit(st: State, ls: seq<string>)
    requires Ok(st) && ShortLines(ls)
    ensures AllFit(st, ls)
    decreases |ls|
  {
    if ls != [] {
      StepOk(st, ls[0]);
      assert |ls[0]| <= FIRST_CAP - 2;
      ShortLinesFit(Step(st, ls[0]), ls[1..]);
    }
  }

  /** Content of 131071 characters or more in one line never fits. */
  lemma {:induction false} HugeLineIsLost(st: State, ls: seq<string>, i: nat)
    requires Ok(st) && i < |ls| && IsContent(ls[i]) && |ls[i]| >= 131071
    ensures !AllFit(st, ls)
    decreases i
  {
    if i > 0 {
      StepOk(st, ls[0]);
      HugeLineIsLost(Step(st, ls[0]), ls[1..], i - 1);
    }
  }

  /** A first line of content is kept exactly up to 16382 characters, an eighth of the limit on bodies. */
  lemma FirstLineKeptIff(l: string)
    requires IsContent(l)
    ensures Held(Step(INITIAL, l)) == l + ['\n'] <==> |l| <= 16382
    ensures Held(Step(INITIAL, l)) == "" <==> |l| > 16382
  {
    StepHeld(INITIAL, l);
    assert PieceText([]) == "";
  }

  // ----- the section limit

  lemma {:induction false} PieceTextIsConcat(ps: seq<Section>)
    ensures PieceText(ps) == Concat(Bodies(ps))
  {
    if ps != [] {
      var front := ps[..|ps| - 1];
      PieceTextIsConcat(front);
      assert Bodies(ps) == Bodies(front) + [ps[|ps| - 1].body];
      ConcatAppend(Bodies(front), ps[|ps| - 1].body);
    }
  }

  function Capped<T>(ps: seq<T>): seq<T> {
    if |ps| <= MAX_SECTIONS then ps else ps[..MAX_SECTIONS]
  }

  /** The pieces when the text has ended: the last one is said to end a line behind it. */
  function Finished(st: State): (ps: seq<Section>) {
    Close(st, st.done + 1).pieces
  }

  function Parsed(text: string): (ps: seq<Section>) {
    Finished(Fold(INITIAL, LinesFrom(text, 0)))
  }

  /**
    The bodies of the sections kept, one after the other, are all content of the document exactly when
    every line fits at its turn and the sections past the limit have nothing in them.
   */
  lemma ConservedIff(text: string)
    ensures Concat(Bodies(Capped(Parsed(text)))) == Content(LinesFrom(text, 0)) <==>
            AllFit(INITIAL, LinesFrom(text, 0)) && Concat(Bodies(Parsed(text)[|Capped(Parsed(text))|..])) == ""
  {
    ParsedHeld(text);
    CappedSplit(Parsed(text));
    var kept, lost := Concat(Bodies(Capped(Parsed(text)))), Concat(Bodies(Parsed(text)[|Capped(Parsed(text))|..]));
    assert |kept + lost| == |kept| + |lost|;
    assert lost == "" ==> kept + lost == kept;
  }

  /** All pieces together, before the limit. */
  lemma ParsedHeld(text: string)
    ensures var all, content := Concat(Bodies(Parsed(text))), Content(LinesFrom(text, 0));
            |all| <= |content| && (all == content <==> AllFit(INITIAL, LinesFrom(text, 0))) &&
            (!AllFit(INITIAL, LinesFrom(text, 0)) ==> |all| < |content|)
  {
    var ls := LinesFrom(text, 0);
    FoldHeld(INITIAL, ls);
    assert PieceText(INITIAL.pieces) == "" && Held(INITIAL) == "" && "" + Content(ls) == Content(ls);
    ClosedHeld(Fold(INITIAL, ls));
    PieceTextIsConcat(Parsed(text));
  }

  lemma ClosedHeld(st: State)
    ensures PieceText(Finished(st)) == Held(st)
  {
    FlushedHeld(st, st.done + 1);
    assert Held(Flushed(st, st.done + 1)) == PieceText(Flushed(st, st.done + 1).pieces) + "";
    assert st.body == "" ==> Held(st) == PieceText(st.pieces);
  }

  lemma CappedSplit(ps: seq<Section>)
    ensures Concat(Bodies(ps)) == Concat(Bodies(Capped(ps))) + Concat(Bodies(ps[|Capped(ps)|..]))
  {
    var kept, lost := Capped(ps), ps[|Capped(ps)|..];
    assert ps == kept + lost && Bodies(ps) == Bodies(kept) + Bodies(lost);
    ConcatSplit(Bodies(kept), Bodies(lost));
  }

  /** Short lines and no more than 512 sections: nothing is lost. */
  lemma FewSectionsConserved(text: string)
    requires ShortLines(LinesFrom(text, 0)) && |Parsed(text)| <= 512
    ensures Concat(Bodies(Capped(Parsed(text)))) == Content(LinesFrom(text, 0))
  {
    ShortLinesFit(INITIAL, LinesFrom(text, 0));
    ConservedIff(text);
    assert Parsed(text)[|Parsed(text)|..] == [];
  }

  // ----- how many sections a text takes

  predicate ShortLines(ls: seq<string>) {
    forall i :: 0 <= i < |ls| ==> |ls[i]| <= 8190
  }

  function Headings(ls: seq<string>): nat {
    if ls == [] then 0 else (if IsHeading(ls[0]) then 1 else 0) + Headings(ls[1..])
  }

  /** Among short lines only a body of more than FULL_BODY characters is flushed. */
  lemma FlushedIsLong(st: State, l: string)
    requires Ok(st) && |l| <= FIRST_CAP - 2 && |st.body| <= FULL_BODY
    ensures MakeRoom(st, l).pieces == st.pieces && MakeRoom(st, l).body == st.body
  {
  }

  /** What a line adds at most to the pieces, counted as full bodies, and the body. */
  function Allowed(l: string): nat {
    |Kept(l)| + if IsHeading(l) then FULL_BODY else 0
  }

  function AllowedAll(ls: seq<string>): nat {
    if ls == [] then 0 else Allowed(ls[0]) + AllowedAll(ls[1..])
  }

  lemma {:induction false} AllowedIs(ls: seq<string>)
    ensures AllowedAll(ls) == |Content(ls)| + FULL_BODY * Headings(ls)
  {
    if ls != [] {
      AllowedIs(ls[1..]);
    }
  }

  function Weight(st: State): nat {
    FULL_BODY * |st.pieces| + |st.body|
  }

  lemma ShortStep(st: State, l: string)
    requires Ok(st) && |l| <= FIRST_CAP - 2
    ensures Weight(Step(st, l)) <= Weight(st) + Allowed(l)
  {
    if |st.body| <= FULL_BODY {
      FlushedIsLong(st, l);
    }
  }

  lemma {:induction false} WeightBound(st: State, ls: seq<string>)
    requires Ok(st) && ShortLines(ls)
    ensures Weight(Fold(st, ls)) <= Weight(st) + AllowedAll(ls)
    decreases |ls|
  {
    if ls != [] {
      StepOk(st, ls[0]);
      ShortStep(st, ls[0]);
      WeightBound(Step(st, ls[0]), ls[1..]);
    }
  }

  /** Each piece closes with a heading, with the text, or holds more than FULL_BODY characters. */
  lemma PiecesBound(st: State, ls: seq<string>)
    requires Ok(st) && ShortLines(ls)
    ensures FULL_BODY * |Finished(Fold(st, ls))| <=
            FULL_BODY * |st.pieces| + |st.body| + |Content(ls)| + FULL_BODY * (Headings(ls) + 1)
  {
    WeightBound(st, ls);
    AllowedIs(ls);
    FullBodies(|Finished(Fold(st, ls))|, |Fold(st, ls).pieces|, Headings(ls));
  }

  lemma FullBodies(a: nat, b: nat, h: nat)
    requires a <= b + 1
    ensures FULL_BODY * a <= FULL_BODY * b + FULL_BODY && FULL_BODY * (h + 1) == FULL_BODY * h + FULL_BODY
  {
  }

  /** Short lines whose headings and content are few enough, by the input alone: nothing is lost. */
  lemma ShortLinesConserved(text: string)
    requires ShortLines(LinesFrom(text, 0))
    requires |Content(LinesFrom(text, 0))| < 122880 * (512 - Headings(LinesFrom(text, 0)))
    ensures |Parsed(text)| <= MAX_SECTIONS
    ensures Concat(Bodies(Capped(Parsed(text)))) == Content(LinesFrom(text, 0))
  {
    PiecesBound(INITIAL, LinesFrom(text, 0));
    FewSectionsConserved(text);
  }

  /**
    The sections of lines that need no flush: a section that is open or the first closes at a heading and
    at the end.
   */
  function SectionCount(any: bool, open: bool, ls: seq<string>): nat
    decreases |ls|
  {
    var closing := if open || !any then 1 else 0;
    if ls == [] then closing
    else if IsHeading(ls[0]) then closing + SectionCount(true, false, ls[1..])
    else SectionCount(any, open || IsContent(ls[0]), ls[1..])
  }

  /** No section, of which len characters are there already, has more than FULL_BODY characters. */
  predicate SmallSections(len: nat, ls: seq<string>)
    decreases |ls|
  {
    len <= FULL_BODY &&
    (ls == [] || SmallSections(if IsHeading(ls[0]) then 0 else len + |Kept(ls[0])|, ls[1..]))
  }

  /** Only the first piece may be empty. */
  predicate FilledPieces(ps: seq<Section>) {
    forall i :: 1 <= i < |ps| ==> ps[i].body != ""
  }

  lemma SmallStep(st: State, l: string)
    requires Ok(st) && |l| <= FIRST_CAP - 2 && |st.body| <= FULL_BODY && FilledPieces(st.pieces)
    ensures var st' := Step(st, l);
            if IsHeading(l) then st'.pieces == Close(st, st.done).pieces && st'.body == "" && FilledPieces(st'.pieces)
            else st'.pieces == st.pieces && st'.body == st.body + Kept(l)
  {
    FlushedIsLong(st, l);
  }

  lemma {:induction false} CountedPieces(st: State, ls: seq<string>)
    requires Ok(st) && ShortLines(ls) && SmallSections(|st.body|, ls) && FilledPieces(st.pieces)
    ensures var ps := Finished(Fold(st, ls));
            |ps| == |st.pieces| + SectionCount(st.pieces != [], st.body != "", ls) && FilledPieces(ps)
    decreases |ls|
  {
    if ls != [] {
      StepOk(st, ls[0]);
      SmallStep(st, ls[0]);
      assert |st.body + Kept(ls[0])| == |st.body| + |Kept(ls[0])|;
      CountedPieces(Step(st, ls[0]), ls[1..]);
    }
  }

  lemma {:induction false} FilledIsNotEmpty(ps: seq<Section>)
    requires forall i :: 0 <= i < |ps| ==> ps[i].body != ""
    ensures Concat(Bodies(ps)) == "" <==> ps == []
  {
    EmptyConcat(Bodies(ps));
  }

  /**
    Short lines in small sections: all is conserved exactly when there are at most 512 sections, counted
    on the input.
   */
  lemma SmallSectionsConservedIff(text: string)
    requires ShortLines(LinesFrom(text, 0)) && SmallSections(0, LinesFrom(text, 0))
    ensures |Parsed(text)| == SectionCount(false, false, LinesFrom(text, 0))
    ensures Concat(Bodies(Capped(Parsed(text)))) == Content(LinesFrom(text, 0)) <==>
            SectionCount(false, false, LinesFrom(text, 0)) <= 512
  {
    CountedPieces(INITIAL, LinesFrom(text, 0));
    ShortLinesFit(INITIAL, LinesFrom(text, 0));
    ConservedIff(text);
    FilledIsNotEmpty(Parsed(text)[|Capped(Parsed(text))|..]);
  }

  // ----- the lines of a section

  /** Sections follow each other from line 1 on, each up to a line not behind the start of the next. */
  predicate InLineOrder(ps: seq<Section>, start: nat) {
    (ps != [] ==> ps[0].startLine == 1) && forall i :: 0 <= i < |ps| ==> InPlace(ps, start, i)
  }

  predicate InPlace(ps: seq<Section>, start: nat, i: nat)
    requires i < |ps|
  {
    && 1 <= ps[i].startLine <= ps[i].endLine + 1
    && ps[i].endLine <= if i + 1 < |ps| then ps[i + 1].startLine else start
  }

  ghost predicate LinesOk(st: State) {
    && InLineOrder(st.pieces, st.start) && 1 <= st.start <= st.done + 1
    && (st.pieces == [] ==> st.start == 1)
  }

  lemma OneMoreInOrder(ps: seq<Section>, s: Section, next: nat)
    requires InLineOrder(ps, s.startLine) && (ps == [] ==> s.startLine == 1)
    requires 1 <= s.startLine <= s.endLine + 1 && s.endLine <= next
    ensures InLineOrder(ps + [s], next)
  {
    var all := ps + [s];
    forall i | 0 <= i < |all|
      ensures InPlace(all, next, i)
    {
      if i < |ps| {
        assert InPlace(ps, s.startLine, i);
      }
    }
  }

  lemma FlushLines(st: State, end: nat, next: nat)
    requires LinesOk(st) && st.done <= end <= next
    ensures InLineOrder(Flushed(st, end).pieces, next)
  {
    OneMoreInOrder(st.pieces, Section(Titled(st.heading), st.body, st.start, end), next);
  }

  lemma LaterStart(ps: seq<Section>, start: nat, next: nat)
    requires InLineOrder(ps, start) && start <= next
    ensures InLineOrder(ps, next)
  {
    forall i | 0 <= i < |ps|
      ensures InPlace(ps, next, i)
    {
      assert InPlace(ps, start, i);
    }
  }

  lemma CloseLines(st: State, end: nat)
    requires LinesOk(st) && st.done <= end
    ensures InLineOrder(Close(st, end).pieces, end + 1)
  {
    FlushLines(st, end, end + 1);
    LaterStart(st.pieces, st.start, end + 1);
  }

  lemma StepLines(st: State, l: string)
    requires LinesOk(st)
    ensures LinesOk(Step(st, l)) && Step(st, l).done == st.done + 1
  {
    var st' := Step(st, l);
    if IsHeading(l) {
      CloseLines(st, st.done);
      assert st'.pieces == Close(st, st.done).pieces && st'.pieces != [] && st'.start == st.done + 1;
    } else {
      FlushLines(st, st.done + 1, st.done + 1);
      RoomLines(st, l);
    }
  }

  lemma RoomLines(st: State, l: string)
    requires LinesOk(st) && InLineOrder(Flushed(st, st.done + 1).pieces, st.done + 1) && !IsHeading(l)
    ensures LinesOk(Step(st, l)) && Step(st, l).done == st.done + 1
  {
    var r, st' := MakeRoom(st, l), Step(st, l);
    assert st'.pieces == r.pieces && st'.start == r.start;
  }

  lemma {:induction false} FoldLines(st: State, ls: seq<string>)
    requires LinesOk(st)
    ensures LinesOk(Fold(st, ls)) && Fold(st, ls).done == st.done + |ls|
    decreases |ls|
  {
    if ls != [] {
      StepLines(st, ls[0]);
      FoldLines(Step(st, ls[0]), ls[1..]);
    }
  }

  /**
    The sections of a text are in the order of its lines; one that ends with the text is said to end a
    line behind the last.
   */
  lemma SectionLines(text: string)
    ensures InLineOrder(Parsed(text), |LinesFrom(text, 0)| + 2)
    ensures var st, ps := Fold(INITIAL, LinesFrom(text, 0)), Parsed(text);
            st.body != "" || st.pieces == [] ==> ps[|ps| - 1].endLine == |LinesFrom(text, 0)| + 1
  {
    FoldLines(INITIAL, LinesFrom(text, 0));
    CloseLines(Fold(INITIAL, LinesFrom(text, 0)), |LinesFrom(text, 0)| + 1);
  }

  // ----- the loop

  method CountMarks(l: string) returns (i: nat)
    ensures i == SkipMarks(l)
  {
    i := 0;
    assert l[0..] == l;
    while i < |l| && l[i] == '#'
      invariant i <= |l| && SkipMarks(l) == i + SkipMarks(l[i..])
    {
      assert l[i..][1..] == l[i + 1..];
      i := i + 1;
    }
  }

  method SkipFrom(l: string, start: nat) returns (i: nat)
    requires start <= |l|
    ensures i == start + SkipBlanks(l[start..])
  {
    i := start;
    while i < |l| && (l[i] == ' ' || l[i] == '\t')
      invariant start <= i <= |l| && start + SkipBlanks(l[start..]) == i + SkipBlanks(l[i..])
    {
      assert l[i..][1..] == l[i + 1..];
      i := i + 1;
    }
  }

  method ParseHeading(l: string) returns (title: string)
    requires IsHeading(l)
    ensures title == HeadingText(l)
  {
    var marks := CountMarks(l);
    var i := SkipFrom(l, marks);
    var hlen := |l| - i;
    if hlen > MAX_HEADING {
      hlen := MAX_HEADING;
    }
    title := l[i..i + hlen];
  }

  /** A section is added for a piece, or refused past the limit. */
  method AddPiece(doc: Document, s: Section, ghost ps: seq<Section>)
    requires doc.sections == Capped(ps)
    modifies doc
    ensures doc.sections == Capped(ps + [s])
  {
    var _ := doc.AddSection(s);
  }

  /** The mutable part of the parser: heading, body buffer and its size, start line. */
  class Parser {
    const doc: Document
    var heading: string
    var body: string
    var bodyCap: nat
    var startLine: nat
    var line: nat

    constructor (doc: Document)
      requires doc.sections == []
      ensures this.doc == doc && InState(INITIAL)
    {
      this.doc := doc;
      heading, body, bodyCap, startLine, line := "Introduction", "", FIRST_CAP, 1, 1;
    }

    ghost predicate InState(st: State)
      reads this, doc
    {
      && doc.sections == Capped(st.pieces) && heading == st.heading && body == st.body && bodyCap == st.cap
      && startLine == st.start && line == st.done + 1
    }

    /** A section of the body, unless it is empty and not the first. */
    method CloseSection(endLine: nat, ghost st: State)
      requires InState(st)
      modifies `body, doc
      ensures InState(Close(st, endLine).(body := ""))
    {
      if body != "" || |doc.sections| == 0 {
        AddPiece(doc, Section(Titled(heading), body, startLine, endLine), st.pieces);
      }
      body := "";
    }

    /** One line that is not a heading. */
    method TakeLine(l: string, ghost st: State)
      requires InState(st) && !IsHeading(l)
      modifies this, doc
      ensures InState(Step(st, l))
    {
      if |body| + |l| + 2 > bodyCap {
        var nc := bodyCap * 2;
        if nc > MAX_BODY {
          nc := MAX_BODY;
        }
        if |body| + |l| + 2 > nc {
          AddPiece(doc, Section(Titled(heading), body, startLine, line), st.pieces);
          body := "";
          startLine := line;
        } else {
          bodyCap := nc;
        }
      }
      if |l| > 0 && |body| + |l| + 2 <= bodyCap {
        body := body + l + ['\n'];
      }
      line := line + 1;
    }

    method Take(l: string, ghost st: State)
      requires InState(st)
      modifies this, doc
      ensures InState(Step(st, l))
    {
      if IsHeading(l) {
        TakeHeading(l, st);
      } else {
        TakeLine(l, st);
      }
    }

    method TakeHeading(l: string, ghost st: State)
      requires InState(st) && IsHeading(l)
      modifies this, doc
      ensures InState(Step(st, l))
    {
      var next := ParseHeading(l);
      CloseSection(line - 1, st);
      heading := next;
      startLine := line;
      line := line + 1;
    }
  }

  /** strchr for the end of a line. */
  method FindEol(text: string, p: nat) returns (e: nat)
    requires p <= |text|
    ensures e == Eol(text, p)
  {
    e := p;
    while e < |text| && text[e] != '\n'
      invariant p <= e <= |text| && Eol(text, e) == Eol(text, p)
    {
      e := e + 1;
    }
  }

  /** The line at a position, and the position behind it. */
  function LineFrom(text: string, p: nat): string
    requires p <= |text|
  {
    text[p..Eol(text, p)]
  }

  function Behind(text: string, p: nat): (p': nat)
    requires p < |text|
    ensures p < p' <= |text|
  {
    if Eol(text, p) < |text| then Eol(text, p) + 1 else Eol(text, p)
  }

  // One line is taken off the rest of the text.
  lemma FoldNext(st: State, text: string, p: nat)
    requires p < |text|
    ensures Fold(st, LinesFrom(text, p)) == Fold(Step(st, LineFrom(text, p)), LinesFrom(text, Behind(text, p)))
  {
    FirstLine(text, p);
  }

  method ReadLine(text: string, p: nat) returns (l: string, p': nat)
    requires p < |text|
    ensures l == LineFrom(text, p) && p' == Behind(text, p)
  {
    var eol := FindEol(text, p);
    l := text[p..eol];
    p' := if eol < |text| then eol + 1 else eol;
  }

  /** One turn of the loop: the line at p is taken, and p moves behind it. */
  method TakeNext(parser: Parser, text: string, p: nat, ghost st: State) returns (p': nat, ghost st': State)
    requires p < |text| && parser.InState(st)
    modifies parser, parser.doc
    ensures p < p' <= |text| && parser.InState(st')
    ensures Fold(st, LinesFrom(text, p)) == Fold(st', LinesFrom(text, p'))
  {
    FoldNext(st, text, p);
    var l;
    l, p' := ReadLine(text, p);
    st' := Step(st, l);
    parser.Take(l, st);
  }

  /** The loop over the lines: the sections are the first 512 pieces of the text. */
  method ParseLines(doc: Document, text: string)
    requires doc.sections == []
    modifies doc
    ensures doc.sections == Capped(Parsed(text))
  {
    var parser := new Parser(doc);
    var p: nat := 0;
    ghost var st := INITIAL;
    while p < |text|
      invariant parser.doc == doc && fresh(parser) && parser.InState(st)
      invariant p <= |text| && Fold(st, LinesFrom(text, p)) == Fold(INITIAL, LinesFrom(text, 0))
      decreases |text| - p
    {
      p, st := TakeNext(parser, text, p, st);
    }
    parser.CloseSection(parser.line, st);
  }
}
