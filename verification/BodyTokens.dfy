/**
  Collecting the identifier tokens of a function body, from internal/pmm/extract_defs.c: a walk on a
  stack of fixed size, the tokens put through the table of IdentTokens.
 */
module BodyTokens {
  import opened Sequences
  import opened IdentTokens
  import opened IdentLoss
  import opened IdentExact
  import opened Trees

  /** A syntax node: whether its kind is one of the identifier kinds, its text, its children. */
  datatype Info = Info(isIdent: bool, text: Text)

  type Node = Tree<Info>

  predicate IsToken(n: Node) {
    n.children == [] && n.data.isIdent && 0 < |n.data.text| < 64
  }

  /** A leaf of an identifier kind with this text, of 1 to 63 bytes, stands in the tree. */
  predicate HasLeaf(n: Node, w: Text)
    decreases n
  {
    if n.children == [] then n.data.isIdent && 1 <= |n.data.text| <= 63 && n.data.text == w
    else exists i :: 0 <= i < |n.children| && HasLeaf(n.children[i], w)
  }

  lemma {:induction false} TokensAreLeaves(n: Node, w: Text)
    ensures w in Tokens(n) <==> HasLeaf(n, w)
    decreases n, 0
  {
    if n.children != [] {
      AllTokensAreLeaves(n.children, w);
    }
  }

  lemma {:induction false} AllTokensAreLeaves(ns: seq<Node>, w: Text)
    ensures w in TokensAll(ns) <==> exists i :: 0 <= i < |ns| && HasLeaf(ns[i], w)
    decreases ns, 1
  {
    if ns != [] {
      TokensAreLeaves(ns[0], w);
      AllTokensAreLeaves(ns[1..], w);
      assert forall i :: 0 <= i < |ns| - 1 ==> ns[1..][i] == ns[i + 1];
      if i :| 0 <= i < |ns| && HasLeaf(ns[i], w) {
        assert i > 0 ==> ns[1..][i - 1] == ns[i];
      }
      if i :| 0 <= i < |ns[1..]| && HasLeaf(ns[1..][i], w) {
        assert HasLeaf(ns[i + 1], w);
      }
    }
  }

  /** The tokens of a tree in source order. */
  function Tokens(n: Node): (ws: seq<Text>)
    decreases n, 0
  {
    if n.children == [] then if IsToken(n) then [n.data.text] else [] else TokensAll(n.children)
  }

  function TokensAll(ns: seq<Node>): (ws: seq<Text>)
    decreases ns, 1
  {
    if ns == [] then [] else Tokens(ns[0]) + TokensAll(ns[1..])
  }

  lemma {:induction false} Concat(a: seq<Node>, b: seq<Node>)
    ensures TokensAll(a + b) == TokensAll(a) + TokensAll(b) && SizeAll(a + b) == SizeAll(a) + SizeAll(b)
  {
    if a == [] {
      assert a + b == b;
    } else {
      assert (a + b)[0] == a[0] && (a + b)[1..] == a[1..] + b;
      Concat(a[1..], b);
    }
  }

  lemma LaterChildren(ns: seq<Node>, i: nat)
    requires i <= |ns|
    ensures multiset(TokensAll(ns[i..])) <= multiset(TokensAll(ns)) && SizeAll(ns[i..]) <= SizeAll(ns)
    ensures i == 0 ==> ns[i..] == ns
  {
    Concat(ns[..i], ns[i..]);
    assert ns == ns[..i] + ns[i..];
  }

  // ----- the walk on values

  /** The tokens handled so far, and the nodes on the stack, the top first. */
  datatype Stage = Stage(done: seq<Text>, pending: seq<Node>)

  function Start(body: Node): Stage {
    Stage([], [body])
  }

  /** The walk ends with an empty stack or at the limit on words. */
  ghost predicate Stopped(st: Stage) {
    st.pending == [] || |TryAll(EMPTY, st.done).words| >= MAX_IDENTS
  }

  /** How many of the first children find no room on the stack, above those that wait. */
  function Dropped(kids: seq<Node>, waiting: nat): (i: nat)
    ensures i <= |kids|
  {
    if waiting + |kids| <= STACK_SIZE then 0
    else if waiting >= STACK_SIZE then |kids|
    else waiting + |kids| - STACK_SIZE
  }

  /** One turn: a leaf is handled, or makes place for its children, of which the last have precedence. */
  function Next(st: Stage): (st': Stage)
    requires st.pending != []
    ensures SizeAll(st'.pending) < SizeAll(st.pending)
  {
    var n, rest := st.pending[0], st.pending[1..];
    if n.children == [] then Stage(st.done + Tokens(n), rest)
    else
      var i := Dropped(n.children, |rest|);
      LaterChildren(n.children, i);
      SizeConcat(n.children[i..], rest);
      Stage(st.done, n.children[i..] + rest)
  }

  /** The same turn on a stack without a limit. */
  function Free(st: Stage): (st': Stage)
    requires st.pending != []
    ensures SizeAll(st'.pending) < SizeAll(st.pending)
  {
    var n, rest := st.pending[0], st.pending[1..];
    if n.children == [] then Stage(st.done + Tokens(n), rest)
    else
      SizeConcat(n.children, rest);
      Stage(st.done, n.children + rest)
  }

  /** The tokens that the walk handles. */
  ghost function Handled(st: Stage): (ws: seq<Text>)
    decreases SizeAll(st.pending)
  {
    if Stopped(st) then st.done else Handled(Next(st))
  }

  /** Somewhere the walk drops a child. */
  ghost predicate Drops(st: Stage)
    decreases SizeAll(st.pending)
  {
    !Stopped(st) && (Dropped(st.pending[0].children, |st.pending| - 1) > 0 || Drops(Next(st)))
  }

  /** The greatest height of a stack without a limit, up to where the walk ends. */
  ghost function Needed(st: Stage): (h: nat)
    ensures h >= |st.pending|
    decreases SizeAll(st.pending)
  {
    if Stopped(st) then |st.pending|
    else
      var h := Needed(Free(st));
      if h >= |st.pending| then h else |st.pending|
  }

  /** A child is dropped exactly when the walk needs a higher stack than the 512 nodes there are. */
  lemma {:induction false} DropsIff(st: Stage)
    requires |st.pending| <= STACK_SIZE
    ensures Drops(st) <==> Needed(st) > STACK_SIZE
    decreases SizeAll(st.pending)
  {
    if !Stopped(st) {
      if Dropped(st.pending[0].children, |st.pending| - 1) == 0 {
        NextIsFree(st);
        DropsIff(Next(st));
      } else {
        assert |Free(st).pending| > STACK_SIZE;
      }
    }
  }

  lemma NextIsFree(st: Stage)
    requires st.pending != [] && |st.pending| <= STACK_SIZE && Dropped(st.pending[0].children, |st.pending| - 1) == 0
    ensures Next(st) == Free(st) && |Next(st).pending| <= STACK_SIZE
  {
    var kids := st.pending[0].children;
    assert kids[0..] == kids;
  }

  /** No walk needs a higher stack than it has nodes to walk. */
  lemma {:induction false} NeededAtMost(st: Stage)
    ensures Needed(st) <= SizeAll(st.pending)
    decreases SizeAll(st.pending)
  {
    CountIsLess(st.pending);
    if !Stopped(st) {
      NeededAtMost(Free(st));
    }
  }

  lemma NextTokens(st: Stage)
    requires st.pending != []
    ensures multiset(Next(st).done) + multiset(TokensAll(Next(st).pending)) <=
            multiset(st.done) + multiset(TokensAll(st.pending))
  {
    var n, rest := st.pending[0], st.pending[1..];
    if n.children != [] {
      var i := Dropped(n.children, |rest|);
      LaterChildren(n.children, i);
      Concat(n.children[i..], rest);
    }
  }

  /** No token is handled oftener than it stands in the nodes. */
  lemma {:induction false} HandledWithin(st: Stage)
    ensures multiset(Handled(st)) <= multiset(st.done) + multiset(TokensAll(st.pending))
    decreases SizeAll(st.pending)
  {
    if !Stopped(st) {
      NextTokens(st);
      HandledWithin(Next(st));
    }
  }

  lemma FreeTokens(st: Stage)
    requires st.pending != []
    ensures Free(st).done + TokensAll(Free(st).pending) == st.done + TokensAll(st.pending)
  {
    var n, rest := st.pending[0], st.pending[1..];
    Concat(n.children, rest);
    Assoc(st.done, Tokens(n), TokensAll(rest));
  }

  /** On a stack high enough the tokens are handled in source order, and all of them below the limit on words. */
  lemma {:induction false} HandledInOrder(st: Stage)
    requires Needed(st) <= STACK_SIZE
    ensures Handled(st) <= st.done + TokensAll(st.pending)
    ensures |TryAll(EMPTY, Handled(st)).words| < MAX_IDENTS ==> Handled(st) == st.done + TokensAll(st.pending)
    decreases SizeAll(st.pending)
  {
    if !Stopped(st) {
      DropsIff(st);
      NextIsFree(st);
      FreeTokens(st);
      HandledInOrder(Next(st));
    } else if st.pending == [] {
      NothingAfter(st.done);
    }
  }

  lemma NothingAfter(ws: seq<Text>)
    ensures ws + TokensAll([]) == ws
  {
  }

  lemma {:induction false} WordsAtMost(ws: seq<Text>)
    ensures |TryAll(EMPTY, ws).words| <= |ws|
  {
    if ws != [] {
      WordsAtMost(ws[..|ws| - 1]);
    }
  }

  /** Children go on the stack from the last to the first, as long as there is room. */
  method PushKids(stack: array<Node>, top: nat, kids: seq<Node>) returns (top': nat, ghost first: nat)
    requires top < stack.Length == STACK_SIZE
    modifies stack
    ensures first == Dropped(kids, top) && top' <= stack.Length
    ensures stack[..top'] == old(stack[..top]) + Reversed(kids[first..])
  {
    top' := top;
    ghost var base := stack[..top];
    var i: int := |kids|;
    while i > 0 && top' < stack.Length
      invariant 0 <= i <= |kids| && top' <= stack.Length && top' - top == |kids| - i
      invariant stack[..top'] == base + Reversed(kids[i..])
    {
      i := i - 1;
      assert kids[i..] == [kids[i]] + kids[i + 1..];
      stack[top'] := kids[i];
      top' := top' + 1;
    }
    first := i;
  }

  lemma TriedNext(done: seq<Text>, n: Node)
    requires n.children == []
    ensures TryAll(EMPTY, done + Tokens(n)) == if IsToken(n)
            then Try(TryAll(EMPTY, done), n.data.text) else TryAll(EMPTY, done)
  {
    assert (done + [n.data.text])[..|done|] == done;
    assert done + [] == done;
  }

  /** The table and the buffer hold what the tokens handled have left in them. */
  ghost predicate Collected(seen: array<Word32>, buf: array<Byte>, pos: nat, count: nat, done: seq<Text>)
    reads seen, buf
  {
    var st := TryAll(EMPTY, done);
    seen.Length == SLOTS && seen[..] == st.table && Holds(buf, pos, st.words) && count == |st.words|
  }

  /** A leaf is handled: its text is tried when it is a token. */
  method TryLeaf(n: Node, seen: array<Word32>, buf: array<Byte>, pos: nat, count: nat, ghost done: seq<Text>)
    returns (pos': nat, count': nat)
    requires n.children == [] && Collected(seen, buf, pos, count, done) && (seen as object) != (buf as object)
    modifies seen, buf
    ensures Collected(seen, buf, pos', count', done + Tokens(n)) && count' <= count + 1
  {
    pos', count' := pos, count;
    TriedNext(done, n);
    if n.data.isIdent && |n.data.text| > 0 && |n.data.text| < 64 {
      var appended;
      ghost var st;
      appended, pos', st := TryAppend(n.data.text, seen, buf, pos, TryAll(EMPTY, done));
      if appended {
        count' := count + 1;
      }
    }
  }

  lemma Nothing()
    ensures TryAll(EMPTY, []) == EMPTY && Join(EMPTY.words) == []
  {
  }

  method NewTable() returns (seen: array<Word32>, buf: array<Byte>)
    ensures fresh(seen) && fresh(buf) && (seen as object) != (buf as object) && Collected(seen, buf, 0, 0, [])
  {
    seen := new Word32[SLOTS](_ => 0);
    buf := new Byte[BUF_SIZE](_ => 0);
    Nothing();
    assert seen[..] == EMPTY.table;
  }

  // The node on top of the stack.
  lemma Top(stack: seq<Node>, pending: seq<Node>)
    requires stack == Reversed(pending) && stack != []
    ensures pending != [] && stack[|stack| - 1] == pending[0] && stack[..|stack| - 1] == Reversed(pending[1..])
    ensures pending == [pending[0]] + pending[1..]
  {
    ReversedFirst(pending);
  }

  /** One turn of the walk: the node on top is a leaf that is handled, or makes place for its children. */
  method Turn(stack: array<Node>, top: nat, seen: array<Word32>, buf: array<Byte>, pos: nat, count: nat,
              ghost st: Stage)
    returns (top': nat, pos': nat, count': nat, ghost st': Stage)
    requires 0 < top <= stack.Length == STACK_SIZE && stack[..top] == Reversed(st.pending)
    requires Collected(seen, buf, pos, count, st.done) && st.pending != []
    requires (seen as object) != (buf as object) && (stack as object) != (seen as object) &&
             (stack as object) != (buf as object)
    modifies stack, seen, buf
    ensures st' == Next(st) && top' <= stack.Length && stack[..top'] == Reversed(st'.pending)
    ensures Collected(seen, buf, pos', count', st'.done) && count' <= count + 1
  {
    top', pos', count', st' := top - 1, pos, count, Next(st);
    ghost var rest := st.pending[1..];
    Top(stack[..top], st.pending);
    var nd := stack[top'];
    assert stack[..top'] == stack[..top][..top - 1];
    if |nd.children| == 0 {
      pos', count' := TryLeaf(nd, seen, buf, pos, count, st.done);
    } else {
      ghost var first;
      top', first := PushKids(stack, top', nd.children);
      assert |Reversed(rest)| == top - 1;
      ReversedConcat(nd.children[first..], rest);
    }
  }

  /** The buffer as it is returned: nothing when there are no words. */
  function Rendered(words: seq<Text>): Option<Text> {
    if Join(words) == [] then None else Some(Join(words))
  }

  /** The tokens handled are those of the body in source order, up to the limits; none comes twice. */
  lemma HandledOf(body: Node)
    ensures var ws, st := Handled(Start(body)), Start(body);
            && multiset(ws) <= multiset(Tokens(body))
            && (Needed(st) <= STACK_SIZE ==> ws <= Tokens(body))
            && (Needed(st) <= STACK_SIZE && |TryAll(EMPTY, ws).words| < MAX_IDENTS ==> ws == Tokens(body))
            && (Size(body) <= STACK_SIZE ==> Needed(st) <= STACK_SIZE)
  {
    var st := Start(body);
    OnlyBody(body);
    HandledWithin(st);
    NeededAtMost(st);
    if Needed(st) <= STACK_SIZE {
      HandledInOrder(st);
    }
  }

  lemma OnlyBody(body: Node)
    ensures [] + TokensAll([body]) == Tokens(body) && SizeAll([body]) == Size(body)
  {
    assert [body][1..] == [];
    assert TokensAll([]) == [] && SizeAll<Info>([]) == 0;
  }

  /** With fewer tokens than the limit on words, a stack high enough lets the walk handle all of them. */
  lemma FewTokens(body: Node)
    requires Needed(Start(body)) <= STACK_SIZE && |Tokens(body)| < MAX_IDENTS
    ensures Handled(Start(body)) == Tokens(body)
  {
    HandledOf(body);
    WordsAtMost(Handled(Start(body)));
  }

  /** The loop of the walk. */
  method CollectTokens(body: Node) returns (tokens: Option<Text>, ghost done: seq<Text>, ghost overflowed: bool)
    ensures done == Handled(Start(body)) && (overflowed <==> Drops(Start(body)))
    ensures overflowed <==> Needed(Start(body)) > STACK_SIZE
    ensures tokens == Rendered(TryAll(EMPTY, done).words) && |TryAll(EMPTY, done).words| <= MAX_IDENTS
    ensures tokens.Some? ==> 0 < |tokens.value| < BUF_SIZE
    ensures multiset(done) <= multiset(Tokens(body))
    ensures !overflowed ==> done <= Tokens(body) && (|TryAll(EMPTY, done).words| < MAX_IDENTS ==> done == Tokens(body))
    ensures Size(body) <= STACK_SIZE && |Tokens(body)| < MAX_IDENTS ==>
            tokens == Rendered(TryAll(EMPTY, Tokens(body)).words)
  {
    var stack := new Node[STACK_SIZE](_ => body);
    var seen, buf := NewTable();
    var top: nat, pos: nat, count: nat := 1, 0, 0;
    ghost var st := Start(body);
    assert stack[..1] == Reversed([body]);
    while top > 0 && count < MAX_IDENTS
      invariant fresh(stack) && fresh(seen) && fresh(buf)
      invariant top <= stack.Length == STACK_SIZE && stack[..top] == Reversed(st.pending)
      invariant Collected(seen, buf, pos, count, st.done) && count <= MAX_IDENTS
      invariant Handled(st) == Handled(Start(body))
      decreases SizeAll(st.pending)
    {
      assert |Reversed(st.pending)| == top;
      top, pos, count, st := Turn(stack, top, seen, buf, pos, count, st);
    }
    assert |Reversed(st.pending)| == top;
    done, overflowed := st.done, Drops(Start(body));
    DropsIff(Start(body));
    HandledOf(body);
    if Size(body) <= STACK_SIZE && |Tokens(body)| < MAX_IDENTS {
      FewTokens(body);
    }
    tokens := if pos > 0 then Some(buf[..pos]) else None;
  }

  /** What is returned holds words of the body only, with spaces between them. */
  lemma RenderedIsSpaced(done: seq<Text>, body: Node)
    requires multiset(done) <= multiset(Tokens(body))
    ensures var words := TryAll(EMPTY, done).words;
            && Rendered(words) == (if words == [] then None else Some(Spaced(words)))
            && forall w :: w in words ==> HasLeaf(body, w)
  {
    var words := TryAll(EMPTY, done).words;
    forall w | w in words
      ensures HasLeaf(body, w) && w != []
    {
      AppendedWasHandled(done, w);
      assert w in multiset(Tokens(body));
      TokensAreLeaves(body, w);
      LeafIsNotEmpty(body, w);
    }
    forall i | 0 <= i < |words|
      ensures words[i] != []
    {
      assert words[i] in words;
    }
    JoinIsSpaced(words);
    if words != [] {
      SpacedNotEmpty(words);
    }
  }

  /** A small body whose identifiers do not collide and have room: all of them, where they first occur. */
  lemma CleanRun(body: Node)
    requires Size(body) <= 512 && |Tokens(body)| < 128 && NoCollisions(Tokens(body)) && Span(Tokens(body)) < 2048
    ensures TryAll(EMPTY, Handled(Start(body))).words == Firsts(Tokens(body))
    ensures Firsts(Tokens(body)) == [] <==> Tokens(body) == []
  {
    var ws := Tokens(body);
    HandledOf(body);
    FewTokens(body);
    AllAppended(ws);
    FirstsAre(ws);
    assert ws != [] ==> ws[0] in Firsts(ws);
  }

  lemma {:induction false} LeafIsNotEmpty(n: Node, w: Text)
    requires HasLeaf(n, w)
    ensures w != []
    decreases n
  {
    if n.children != [] {
      var i :| 0 <= i < |n.children| && HasLeaf(n.children[i], w);
      LeafIsNotEmpty(n.children[i], w);
    }
  }

  /**
    extract_body_ident_tokens: the words that the table and the buffer let through of the tokens that the
    walk on the fixed stack handles, with spaces between them; each is the text of a leaf of the body. A
    child is dropped exactly when the walk needs more than the 512 nodes there are; otherwise the tokens
    are those of the body in source order, up to the limit on words. A body of at most 512 nodes and fewer
    than 128 tokens is handled whole; when there is room for all and no hashes collide, the words are its
    identifiers in the order in which they first occur.
   */
  method ExtractTokens(body: Node) returns (tokens: Option<Text>, ghost done: seq<Text>, ghost overflowed: bool)
    ensures var words := TryAll(EMPTY, done).words;
            && tokens == (if words == [] then None else Some(Spaced(words))) && |words| <= 128
            && forall w :: w in words ==> HasLeaf(body, w)
    ensures tokens.Some? ==> 0 < |tokens.value| < 2048
    ensures overflowed <==> Needed(Start(body)) > 512
    ensures Size(body) <= 512 && |Tokens(body)| < 128 && NoCollisions(Tokens(body)) && Span(Tokens(body)) < 2048 ==>
              tokens == if Tokens(body) == [] then None else Some(Spaced(Firsts(Tokens(body))))
    ensures done == Handled(Start(body)) && (overflowed <==> Drops(Start(body)))
    ensures overflowed <==> Needed(Start(body)) > STACK_SIZE
    ensures tokens == Rendered(TryAll(EMPTY, done).words) && |TryAll(EMPTY, done).words| <= MAX_IDENTS
    ensures multiset(done) <= multiset(Tokens(body))
    ensures !overflowed ==> done <= Tokens(body) && (|TryAll(EMPTY, done).words| < MAX_IDENTS ==> done == Tokens(body))
    ensures Size(body) <= STACK_SIZE && |Tokens(body)| < MAX_IDENTS ==>
            tokens == Rendered(TryAll(EMPTY, Tokens(body)).words)
  {
    tokens, done, overflowed := CollectTokens(body);
    RenderedIsSpaced(done, body);
    ghost var ws := Tokens(body);
    if Size(body) <= 512 && |ws| < 128 && NoCollisions(ws) && Span(ws) < 2048 {
      CleanRun(body);
    }
  }

  // ----- a body that is too wide

  function Leaf(w: Text): Node {
    Tree(Info(true, w), [])
  }

  function Copies<T>(x: T, n: nat): (s: seq<T>)
    ensures |s| == n && forall i :: 0 <= i < n ==> s[i] == x
  {
    seq(n, _ => x)
  }

  /** One identifier, and n times another. */
  function Wide(first: Text, other: Text, n: nat): Node {
    Tree(Info(false, []), [Leaf(first)] + Copies(Leaf(other), n))
  }

  lemma CopiesNext<T>(x: T, n: nat)
    ensures Copies(x, n + 1) == [x] + Copies(x, n) && Copies(x, n + 1) == Copies(x, n) + [x]
  {
  }

  /** The same identifier again and again is one word. */
  lemma {:induction false} CopiesAreOneWord(w: Text, n: nat)
    requires n > 0 && |w| < 64
    ensures TryAll(EMPTY, Copies(w, n)) == TryAll(EMPTY, [w]) && TryAll(EMPTY, [w]).words == [w]
    ensures Seen(TryAll(EMPTY, [w]).table, Hash(w))
  {
    OneWord(w);
    if n == 1 {
      assert Copies(w, 1) == [w];
    } else {
      CopiesAreOneWord(w, n - 1);
      CopiesNext(w, n - 1);
      TryAllNext(Copies(w, n - 1), w);
      InsertedIsSeen(TryAll(EMPTY, [w]).table, Hash(w));
    }
  }

  lemma OneWord(w: Text)
    requires |w| < 64
    ensures TryAll(EMPTY, [w]).words == [w] && Seen(TryAll(EMPTY, [w]).table, Hash(w))
  {
    Nothing();
    assert [] + [w] == [w];
    TryAllNext([], w);
    LostBounds([], w);
    assert EMPTY.table[0] == 0;
    InsertedIsSeen(EMPTY.table, Hash(w));
  }

  lemma {:induction false} FewWords(w: Text, k: nat)
    requires |w| < 64
    ensures |TryAll(EMPTY, Copies(w, k)).words| < MAX_IDENTS
  {
    if k > 0 {
      CopiesAreOneWord(w, k);
    } else {
      WordsAtMost(Copies(w, k));
    }
  }

  lemma {:induction false} LeafTokens(w: Text, n: nat)
    requires 0 < |w| < 64
    ensures TokensAll(Copies(Leaf(w), n)) == Copies(w, n) && SizeAll(Copies(Leaf(w), n)) == n
  {
    if n > 0 {
      CopiesNext(Leaf(w), n - 1);
      assert Copies(Leaf(w), n)[1..] == Copies(Leaf(w), n - 1);
      assert Tokens(Leaf(w)) == [w] && Size(Leaf(w)) == 1;
      CopiesNext(w, n - 1);
      LeafTokens(w, n - 1);
    }
  }

  /** Leaves of one identifier are all handled when the stack holds them. */
  lemma {:induction false} LeavesHandled(w: Text, n: nat)
    requires 0 < |w| < 64 && n <= STACK_SIZE
    ensures Handled(Stage([], Copies(Leaf(w), n))) == Copies(w, n)
  {
    var st := Stage([], Copies(Leaf(w), n));
    LeafTokens(w, n);
    NeededAtMost(st);
    HandledInOrder(st);
    var ws := Handled(st);
    assert ws == Copies(w, |ws|);
    FewWords(w, |ws|);
  }

  // A stack that has room for all children but the first drops that one.
  lemma WideTurn(first: Text, other: Text)
    ensures var st := Start(Wide(first, other, STACK_SIZE));
            && Dropped(st.pending[0].children, 0) == 1
            && Next(st) == Stage([], Copies(Leaf(other), STACK_SIZE))
  {
    var kids := Wide(first, other, STACK_SIZE).children;
    assert kids[1..] == Copies(Leaf(other), STACK_SIZE);
    assert kids[1..] + [] == kids[1..];
  }

  lemma {:induction false} WideHandled(first: Text, other: Text)
    requires 0 < |other| < 64
    ensures Handled(Start(Wide(first, other, STACK_SIZE))) == Copies(other, STACK_SIZE)
    ensures Drops(Start(Wide(first, other, STACK_SIZE)))
  {
    WideTurn(first, other);
    assert !Stopped(Start(Wide(first, other, STACK_SIZE))) by {
      Nothing();
    }
    LeavesHandled(other, STACK_SIZE);
  }

  /** Of 513 identifiers side by side the first is dropped: the result misses it. */
  lemma {:induction false} FirstIsDropped(first: Text, other: Text)
    requires 0 < |first| < 64 && 0 < |other| < 64 && first != other
    ensures var body := Wide(first, other, STACK_SIZE);
            && first in Tokens(body) && first !in Handled(Start(body))
            && Rendered(TryAll(EMPTY, Handled(Start(body))).words) == Some(other)
            && Needed(Start(body)) > STACK_SIZE
  {
    var body := Wide(first, other, STACK_SIZE);
    WideHandled(first, other);
    DropsIff(Start(body));
    CopiesAreOneWord(other, STACK_SIZE);
    OneWordRendered(other);
    assert body.children[0] == Leaf(first) && Tokens(Leaf(first)) == [first];
  }

  lemma {:induction false} OneWordRendered(w: Text)
    requires w != []
    ensures Rendered([w]) == Some(w)
  {
    Nothing();
    assert [w][..0] == EMPTY.words;
    assert Join([w]) == [] + w;
    assert [] + w == w;
  }
}
