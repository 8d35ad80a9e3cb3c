/**
  What the sections of a Markdown text are in terms of its lines: which heading a section carries, from
  which line to which it goes, and what its body is.
 */
module MarkdownSections {
  import opened Sequences
  import opened DocChunks
  import opened Markdown

  // ----- the title of a heading line

  predicate IsMark(c: char) { c == '#' }

  predicate IsMarked(l: string) {
    l != "" && IsMark(l[0])
  }

  predicate IsBlank(c: char) { c == ' ' || c == '\t' }

  /** The marks end before i and the blanks behind them before k; the title is at most 511 characters from there. */
  predicate TitleFrom(l: string, i: nat, k: nat, title: string) {
    && i <= k <= |l|
    && (forall j :: 0 <= j < i ==> IsMark(l[j])) && (i < |l| ==> !IsMark(l[i]))
    && (forall j :: i <= j < k ==> IsBlank(l[j])) && (k < |l| ==> !IsBlank(l[k]))
    && title <= l[k..] && |title| == if |l| - k <= 511 then |l| - k else 511
  }

  ghost predicate IsTitle(l: string, title: string) {
    exists i, k :: TitleFrom(l, i, k, title)
  }

  lemma HeadingTextIsTitle(l: string)
    ensures IsTitle(l, HeadingText(l))
  {
    var i := SkipMarks(l);
    var k := i + SkipBlanks(l[i..]);
    forall j | i <= j < k
      ensures IsBlank(l[j])
    {
      assert l[j] == l[i..][j - i];
    }
    assert k < |l| ==> l[k] == l[i..][k - i];
    assert TitleFrom(l, i, k, HeadingText(l));
  }

  // ----- a section

  /** The title of the last heading among the first n lines; in front of all headings it is the introduction. */
  ghost predicate IsTitleAt(ls: seq<string>, n: nat, t: string)
    requires n <= |ls|
  {
    if n == 0 then t == "Introduction"
    else if IsMarked(ls[n - 1]) then IsTitle(ls[n - 1], t)
    else IsTitleAt(ls, n - 1, t)
  }

  function TitleAt(ls: seq<string>, n: nat): (t: string)
    requires n <= |ls|
  {
    if n == 0 then "Introduction" else if IsMarked(ls[n - 1]) then HeadingText(ls[n - 1]) else TitleAt(ls, n - 1)
  }

  lemma {:induction false} TitleAtIs(ls: seq<string>, n: nat)
    requires n <= |ls|
    ensures IsTitleAt(ls, n, TitleAt(ls, n))
  {
    if n > 0 {
      HeadingTextIsTitle(ls[n - 1]);
      TitleAtIs(ls, n - 1);
    }
  }

  /**
    The section goes from its start line up to line b + 1, which is not in it: that is a heading, or a line
    for which there was no room, or the one behind the end. Between them there is no heading.
   */
  predicate Spans(ls: seq<string>, s: Section, b: nat) {
    && 1 <= s.startLine <= b + 1 && b <= |ls|
    && (forall j :: s.startLine <= j < b ==> !IsMarked(ls[j]))
    && if b == |ls| then s.endLine == b + 1
       else if IsMarked(ls[b]) then s.endLine == b
       else s.endLine == b + 1 && |s.body| + |ls[b]| + 2 > 16384
  }

  /** Its heading is the one it starts with or behind, but of the first one always the introduction. */
  ghost predicate HeadedAs(ls: seq<string>, s: Section, first: bool) {
    if first then s.heading == Titled("Introduction")
    else s.startLine <= |ls| && s.heading.Titled? && IsTitleAt(ls, s.startLine, s.heading.text)
  }

  /** When all lines fit, its body is what these lines say. */
  ghost predicate IsSection(ls: seq<string>, s: Section, first: bool, fit: bool) {
    HeadedAs(ls, s, first) && exists b: nat :: Spans(ls, s, b) && (fit ==> s.body == Content(ls[s.startLine - 1..b]))
  }

  // ----- the state of the parser after some lines

  ghost predicate PiecesAre(ls: seq<string>, ps: seq<Section>, fit: bool) {
    forall i :: 0 <= i < |ps| ==> IsSection(ls, ps[i], i == 0, fit)
  }

  /** There is no heading among the lines from a on before b. */
  ghost predicate NoHeading(ls: seq<string>, a: nat, b: nat)
    requires b <= |ls|
  {
    forall j {:trigger ls[j]} :: a <= j < b ==> !IsHeading(ls[j])
  }

  /** The section at hand: where it started, that no heading has come since, and its heading. */
  ghost predicate OpenAt(ls: seq<string>, st: State) {
    && st.done <= |ls| && 1 <= st.start <= st.done + 1 && NoHeading(ls, st.start, st.done)
    && if st.pieces == [] then st.start == 1 && st.heading == "Introduction" && NoHeading(ls, 0, st.done)
       else st.start <= st.done && st.heading == TitleAt(ls, st.start)
  }

  /** Its body. */
  ghost predicate BodyIs(ls: seq<string>, st: State, fit: bool)
    requires OpenAt(ls, st)
  {
    fit ==> st.body == Content(ls[st.start - 1..st.done])
  }

  ghost predicate OpenIs(ls: seq<string>, st: State, fit: bool) {
    OpenAt(ls, st) && BodyIs(ls, st, fit)
  }

  lemma {:induction false} ContentAppend(ls: seq<string>, l: string)
    ensures Content(ls + [l]) == Content(ls) + Kept(l)
  {
    if ls == [] {
      assert [] + [l] == [l] && [l][1..] == [];
      assert "" + Kept(l) == Kept(l) && Kept(l) + "" == Kept(l);
    } else {
      assert (ls + [l])[1..] == ls[1..] + [l];
      ContentAppend(ls[1..], l);
    }
  }

  /** The lines of a stretch, with the next one. */
  lemma ContentNext(ls: seq<string>, a: nat, b: nat)
    requires a <= b < |ls|
    ensures Content(ls[a..b + 1]) == Content(ls[a..b]) + Kept(ls[b])
  {
    assert ls[a..b + 1] == ls[a..b] + [ls[b]];
    ContentAppend(ls[a..b], ls[b]);
  }

  /** The section at hand closed at line done, for one of the three reasons. */
  lemma ClosedIs(ls: seq<string>, st: State, end: nat, fit: bool)
    requires PiecesAre(ls, st.pieces, fit) && OpenIs(ls, st, fit)
    requires if st.done == |ls| then end == st.done + 1
             else if IsHeading(ls[st.done]) then end == st.done
             else end == st.done + 1 && |st.body| + |ls[st.done]| + 2 > 16384
    ensures PiecesAre(ls, Flushed(st, end).pieces, fit)
  {
    var ps, s := Flushed(st, end).pieces, Section(Titled(st.heading), st.body, st.start, end);
    forall i | 0 <= i < |ps|
      ensures IsSection(ls, ps[i], i == 0, fit)
    {
      if i < |st.pieces| {
        assert ps[i] == st.pieces[i];
      } else {
        assert Spans(ls, s, st.done);
        if st.pieces != [] {
          TitleAtIs(ls, st.start);
        }
      }
    }
  }

  predicate NoRoom(st: State, l: string) {
    |st.body| + |l| + 2 > st.cap && |st.body| + |l| + 2 > Doubled(st.cap)
  }

  // What one line does to the state: a heading, a line for which there is no room, any other.
  lemma {:induction false} StepFields(st: State, l: string)
    requires Ok(st)
    ensures var st' := Step(st, l);
            && st'.done == st.done + 1
            && if IsHeading(l) then
                 && st'.pieces == (if st.body != "" || st.pieces == [] then Flushed(st, st.done).pieces else st.pieces)
                 && st'.heading == HeadingText(l) && st'.body == "" && st'.start == st.done + 1
               else if NoRoom(st, l) then
                 && st'.pieces == Flushed(st, st.done + 1).pieces && st'.heading == st.heading
                 && st'.start == st.done + 1 && (Fits(st, l) ==> st'.body == Kept(l))
               else
                 && st'.pieces == st.pieces && st'.heading == st.heading && st'.start == st.start
                 && st'.body == st.body + Kept(l)
  {
    assert st.body + l + ['\n'] == st.body + (l + ['\n']) && st.body + "" == st.body;
    assert "" + l + ['\n'] == l + ['\n'];
  }

  // A section that starts with the line done last.
  lemma {:induction false} OpensWith(ls: seq<string>, st: State, fit: bool)
    requires 0 < st.done <= |ls| && st.start == st.done && st.pieces != []
    requires st.heading == TitleAt(ls, st.done) && (fit ==> st.body == Kept(ls[st.done - 1]))
    ensures OpenIs(ls, st, fit)
  {
    ContentNext(ls, st.done - 1, st.done - 1);
    assert ls[st.done - 1..st.done - 1] == [] && Content([]) == "";
    assert "" + Kept(ls[st.done - 1]) == Kept(ls[st.done - 1]);
  }

  // A section that goes on with it.
  lemma {:induction false} OpenStays(ls: seq<string>, st: State, st': State)
    requires OpenAt(ls, st) && st.done < |ls| && !IsHeading(ls[st.done])
    requires st'.pieces == st.pieces && st'.start == st.start && st'.heading == st.heading && st'.done == st.done + 1
    ensures OpenAt(ls, st')
  {
  }

  lemma {:induction false} BodyStays(ls: seq<string>, st: State, st': State, fit: bool)
    requires OpenIs(ls, st, fit) && st.done < |ls| && OpenAt(ls, st')
    requires st'.start == st.start && st'.done == st.done + 1 && st'.body == st.body + Kept(ls[st.done])
    ensures BodyIs(ls, st', fit)
  {
    ContentNext(ls, st.start - 1, st.done);
  }

  // After a flush the heading is still the last one.
  lemma {:induction false} TitleStays(ls: seq<string>, st: State)
    requires OpenIs(ls, st, false) && st.done < |ls| && !IsHeading(ls[st.done])
    ensures st.heading == TitleAt(ls, st.done + 1)
  {
    var n := if st.pieces == [] then 0 else st.start;
    TitleBetween(ls, n, st.done + 1);
  }

  lemma {:induction false} TitleBetween(ls: seq<string>, n: nat, n': nat)
    requires n <= n' <= |ls| && forall j :: n <= j < n' ==> !IsHeading(ls[j])
    ensures TitleAt(ls, n') == TitleAt(ls, n)
    decreases n'
  {
    if n < n' {
      TitleBetween(ls, n, n' - 1);
    }
  }

  /** One line keeps the sections what they are, */
  lemma {:induction false} StepPieces(ls: seq<string>, st: State, fit: bool)
    requires Ok(st) && st.done < |ls| && PiecesAre(ls, st.pieces, fit) && OpenIs(ls, st, fit)
    ensures PiecesAre(ls, Step(st, ls[st.done]).pieces, fit)
  {
    var l := ls[st.done];
    StepFields(st, l);
    if IsHeading(l) && (st.body != "" || st.pieces == []) {
      ClosedIs(ls, st, st.done, fit);
    } else if !IsHeading(l) && NoRoom(st, l) {
      ClosedIs(ls, st, st.done + 1, fit);
    }
  }

  /** and the one at hand. */
  lemma {:induction false} StepOpen(ls: seq<string>, st: State, st': State, fit: bool)
    requires Ok(st) && st.done < |ls| && OpenIs(ls, st, fit) && (fit ==> Fits(st, ls[st.done]))
    requires st' == Step(st, ls[st.done])
    ensures OpenIs(ls, st', fit)
  {
    var l := ls[st.done];
    StepFields(st, l);
    if IsHeading(l) {
      OpensWith(ls, st', fit);
    } else if NoRoom(st, l) {
      TitleStays(ls, st);
      OpensWith(ls, st', fit);
    } else {
      OpenStays(ls, st, st');
      BodyStays(ls, st, st', fit);
    }
  }

  lemma {:induction false} FoldIs(ls: seq<string>, st: State, fit: bool)
    requires Ok(st) && PiecesAre(ls, st.pieces, fit) && OpenIs(ls, st, fit) && (fit ==> AllFit(st, ls[st.done..]))
    ensures var st' := Fold(st, ls[st.done..]);
            PiecesAre(ls, st'.pieces, fit) && OpenIs(ls, st', fit) && st'.done == |ls|
    decreases |ls| - st.done
  {
    if st.done < |ls| {
      assert ls[st.done..][0] == ls[st.done] && ls[st.done..][1..] == ls[st.done + 1..];
      StepPieces(ls, st, fit);
      StepOpen(ls, st, Step(st, ls[st.done]), fit);
      StepOk(st, ls[st.done]);
      FoldIs(ls, Step(st, ls[st.done]), fit);
    }
  }

  /** The sections of a text, each headed and placed as its lines say, with the body they say when all fit. */
  lemma {:induction false} ParsedAre(text: string)
    ensures var ls := LinesFrom(text, 0); PiecesAre(ls, Parsed(text), AllFit(INITIAL, ls))
  {
    var ls := LinesFrom(text, 0);
    var fit := AllFit(INITIAL, ls);
    assert ls[0..] == ls && ls[0..0] == [];
    FoldIs(ls, INITIAL, fit);
    var st := Fold(INITIAL, ls);
    if st.body != "" || st.pieces == [] {
      ClosedIs(ls, st, st.done + 1, fit);
    }
  }

  /**
    parse_markdown_or_rst in Markdown mode: the sections are the first 512 pieces of the text. Each is
    headed and placed as the lines say; its body is what its lines say when all fit, and lines of at most
    8190 characters do.
   */
  method ParseMarkdown(doc: Document, text: string)
    requires doc.sections == []
    modifies doc
    ensures |doc.sections| <= 512
    ensures var ls := LinesFrom(text, 0);
            forall i :: 0 <= i < |doc.sections| ==> IsSection(ls, doc.sections[i], i == 0, AllFit(INITIAL, ls))
    ensures var ls := LinesFrom(text, 0); (forall i :: 0 <= i < |ls| ==> |ls[i]| <= 8190) ==>
              forall i :: 0 <= i < |doc.sections| ==> IsSection(ls, doc.sections[i], i == 0, true)
    ensures doc.sections == Capped(Parsed(text))
  {
    ParseLines(doc, text);
    ParsedAre(text);
    if forall i :: 0 <= i < |LinesFrom(text, 0)| ==> |LinesFrom(text, 0)[i]| <= 8190 {
      ShortLinesFit(INITIAL, LinesFrom(text, 0));
    }
  }
}
