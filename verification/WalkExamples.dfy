/**
  Definitions that the walk of internal/pmm/extract_defs.c does not reach: one lost at the ceiling, of
  257 classes side by side under a ceiling of 300 frames, of which a stack that doubles from 256 can use
  256; and a class inside a method of a class. And a class in a class in a namespace, under its full name.
 */
module WalkExamples {
  import opened Sequences
  import opened Trees
  import opened Flattening
  import opened TreeWalks
  import opened WalkDefs
  import opened WalkPaths
  import opened DefinitionWalk

  const ROOT: Kind := OtherKind("module")
  const CLASS: Kind := OtherKind("class")

  function Plain(): Config {
    Config(OtherLang, {}, {CLASS}, false, (name: string) => name)
  }

  /** A class with neither name nor body. */
  function Leaf(i: nat): Node {
    Tree(Info(i, CLASS, true, None, false), [])
  }

  /** A module of n classes. */
  function Side(n: nat): (t: Node)
    ensures |t.children| == n && forall i :: 0 <= i < n ==> t.children[i] == Leaf(i)
  {
    Tree(Info(n, ROOT, true, None, false), seq(n, i requires 0 <= i < n => Leaf(i)))
  }

  lemma RootIsLeft(n: Node, scope: Option<string>)
    requires n.data.kind == ROOT
    ensures DescentOf(Plain(), n) == Same && BelowPopped(Plain(), Frame(n, scope)) == Frames(n.children, scope)
  {
  }

  lemma NothingBelowLeaf(i: nat, scope: Option<string>)
    ensures BelowPopped(Plain(), Frame(Leaf(i), scope)) == [] && Below(Plain(), Frame(Leaf(i), scope)) == []
    ensures EventsOf(Plain(), Frame(Leaf(i), scope)) == [Event(Class, Leaf(i), scope)]
  {
    assert DescentOf(Plain(), Leaf(i)) == IntoClass;
    assert ClassNodes(Plain(), Leaf(i)) == [] && ClassNodesPopped(Plain(), Leaf(i)) == [];
  }

  predicate IsLeaf(f: Frame) {
    f == Frame(Leaf(f.node.data.id), None)
  }

  predicate Leaves(fs: seq<Frame>) {
    forall j :: 0 <= j < |fs| ==> IsLeaf(fs[j])
  }

  /** A leaf is taken off, and nothing put on. */
  lemma LeafTurn(h: Held<Frame>)
    requires h.contents != [] && IsLeaf(h.contents[|h.contents| - 1])
    ensures AfterTurn(StackOrder(Plain()), h) == h.(contents := h.contents[..|h.contents| - 1])
  {
    var n := |h.contents| - 1;
    NothingBelowLeaf(h.contents[n].node.data.id, None);
    assert StackOrder(Plain())(h.contents[n]) == [] && Reversed<Frame>([]) == [];
    PushNone(h.(contents := h.contents[..n]));
  }

  lemma TopFirst(s: seq<Frame>)
    requires s != []
    ensures Reversed(s) == [s[|s| - 1]] + Reversed(s[..|s| - 1])
  {
    SplitTop(s);
    ReversedConcat(s[..|s| - 1], [s[|s| - 1]]);
    ReversedOne(s[|s| - 1]);
  }

  /** A stack of leaves is emptied without a refusal. */
  lemma {:induction false} LeavesAreEmptied(h: Held<Frame>)
    requires Leaves(h.contents)
    ensures Walk(Plain(), h) == Outcome(Reversed(h.contents), h.refused)
    decreases |h.contents|
  {
    WalksEnd(Plain());
    if h.contents == [] {
      WalkEnd(Plain(), h);
    } else {
      LeafTurn(h);
      TurnShrinks(StackOrder(Plain()), FrameSize(), h);
      LeavesAreEmptied(h.(contents := h.contents[..|h.contents| - 1]));
      TopFirst(h.contents);
    }
  }

  function Start(n: nat): (h: Held<Frame>) {
    Held([Frame(Side(n + 1), None)], [], n)
  }

  lemma StartIsPush(n: nat)
    requires n > 0
    ensures PushAll(Held([], [], n), [Frame(Side(n + 1), None)]) == Start(n)
  {
    var f := Frame(Side(n + 1), None);
    PushSingle(Held([], [], n), f);
  }

  lemma {:induction false} SideReversed(n: nat)
    ensures var below := Reversed(Frames(Side(n + 1).children, None));
            && |below| == n + 1 && below[n..] == [Frame(Leaf(0), None)]
            && Leaves(below[..n])
  {
    var below := Reversed(Frames(Side(n + 1).children, None));
    forall j | 0 <= j < n
      ensures IsLeaf(below[..n][j])
    {
      assert below[..n][j] == Frame(Leaf(n - j), None);
    }
  }

  lemma {:induction false} AfterRoot(n: nat)
    requires n > 0
    ensures var h' := AfterTurn(StackOrder(Plain()), Start(n));
            Leaves(h'.contents) && |h'.contents| == n && h'.refused == [Frame(Leaf(0), None)]
  {
    var f := Frame(Side(n + 1), None);
    RootIsLeft(f.node, None);
    SideReversed(n);
    var below := Reversed(Frames(f.node.children, None));
    PushedIs(Held([], [], n), below);
    NothingBefore(below[..n]);
    NothingBefore(below[n..]);
    assert AfterTurn(StackOrder(Plain()), Start(n)) == PushAll(Held([], [], n), below);
  }

  /** Of n + 1 classes on a stack of n the first is refused. */
  lemma FirstIsRefused(n: nat)
    requires n > 0
    ensures var o := WalkFrom(Plain(), Frame(Side(n + 1), None), n);
            o.refused == [Frame(Leaf(0), None)] && |o.visited| == n + 1
  {
    WalksEnd(Plain());
    StartIsPush(n);
    AfterRoot(n);
    TurnShrinks(StackOrder(Plain()), FrameSize(), Start(n));
    LeavesAreEmptied(AfterTurn(StackOrder(Plain()), Start(n)));
  }

  /** Under a ceiling of 300 frames the first of 257 classes is refused, and with it its definition is lost. */
  lemma FirstClassIsLost()
    ensures Limit(300) == 256
    ensures var o := WalkFrom(Plain(), Frame(Side(257), None), Limit(300));
            && o.refused == [Frame(Leaf(0), None)] && |o.visited| == 257
            && Events(Plain(), LexicalAll(Plain(), o.refused)) == [Event(Class, Leaf(0), None)]
  {
    assert Limit(300) == DoubledFrom(256, 300) == 256;
    FirstIsRefused(256);
    LeafIsAll();
  }

  lemma LeafIsAll()
    ensures Events(Plain(), LexicalAll(Plain(), [Frame(Leaf(0), None)])) == [Event(Class, Leaf(0), None)]
  {
    WalksEnd(Plain());
    var f := Frame(Leaf(0), None);
    NothingBelowLeaf(0, None);
    VisitsOne(SourceOrder(Plain()), FrameSize(), f);
    assert LexicalAll(Plain(), [f]) == [f];
    FlatOne(EventOf(Plain()), f);
  }

  // ----- a class inside a method

  const METHOD: Kind := OtherKind("method")

  /** A class whose body holds a method that holds a class. */
  function MethodWithClass(): Node {
    Tree(Info(1, CLASS, true, Some("Outer"), false),
         [Tree(Info(2, ClassBody, true, None, false),
               [Tree(Info(3, METHOD, true, None, false), [Leaf(4)])])])
  }

  /** The walk looks through wrappers only, so the inner class is in the tree but not walked. */
  lemma {:induction false} ClassInMethodIsMissed(outer: Node)
    requires outer == MethodWithClass()
    ensures Lexical(Plain(), Frame(outer, None)) == [Frame(outer, None)]
    ensures Leaf(4) in TreeNodes(outer)
  {
    var body := outer.children[0];
    var inner := body.children[0];
    AllInside(outer, body, inner);
    NothingNested(outer, body, inner);
    assert SourceOrder(Plain())(Frame(outer, None)) == [];
    assert LexicalAll(Plain(), []) == [];
  }

  lemma {:induction false} NothingNested(outer: Node, body: Node, inner: Node)
    requires outer.children == [body] && body.children == [inner]
    requires IsClass(Plain(), outer) && IsBody(Plain(), body) && !IsClass(Plain(), inner) && !IsWrapper(inner)
    ensures Below(Plain(), Frame(outer, None)) == []
  {
    NoNestedClass(inner);
    assert BodyIndex(Plain(), outer.children) == 0;
    assert DescentOf(Plain(), outer) == IntoClass && ClassNodes(Plain(), outer) == [];
  }

  lemma NoNestedClass(n: Node)
    requires !IsClass(Plain(), n) && !IsWrapper(n)
    ensures NestedClasses(Plain(), [n]) == []
  {
    assert [n][1..] == [];
  }

  lemma AllInside(outer: Node, body: Node, inner: Node)
    requires outer.children == [body] && body.children == [inner] && inner.children == [Leaf(4)]
    ensures Leaf(4) in TreeNodes(outer)
  {
    assert ForestNodes([Leaf(4)]) == [Leaf(4)] + ForestNodes([]) + ForestNodes([Leaf(4)][1..]);
    assert Leaf(4) in TreeNodes(inner);
    assert ForestNodes([inner]) == TreeNodes(inner) + ForestNodes([inner][1..]);
    assert ForestNodes([body]) == TreeNodes(body) + ForestNodes([body][1..]);
  }

  // ----- a class in a class in a namespace

  const CPP: Config := Config(Cpp, {}, {ClassSpecifier}, false, (name: string) => "p.f." + name)

  function Inner(): Node {
    Tree(Info(4, ClassSpecifier, true, Some("C"), false), [])
  }

  /** The namespace a with the class B, in whose body the class C stands. */
  function Namespace(): Node {
    Tree(Info(1, NamespaceDefinition, true, Some("a"), false), [Outer()])
  }

  function Outer(): Node {
    Tree(Info(2, ClassSpecifier, true, Some("B"), false), [Members()])
  }

  function Members(): Node {
    Tree(Info(3, FieldDeclarationList, true, None, false), [Inner()])
  }

  lemma {:induction false} PathInMembers(n: Node, p: seq<nat>, m: Node)
    requires n == Members() && p == [0] && m == Inner()
    ensures ReachesNested(CPP, n, p, m) && NamesNested(CPP, n, p) == []
  {
    assert p[1..] == [];
  }

  lemma {:induction false} PathInOuter(n: Node, p: seq<nat>, m: Node)
    requires n == Outer() && p == [0, 0] && m == Inner()
    ensures Reaches(CPP, n, p, m) && NamesAlong(CPP, n, p) == ["B"]
  {
    PathInMembers(n.children[0], p[1..], m);
    assert IsClassBody(CPP, n.children[0]);
    assert BodyAt(CPP, n, 0) && HasBody(CPP, n);
    assert OwnName(CPP, n) == ["B"];
  }

  lemma {:induction false} PathInNamespace(n: Node, p: seq<nat>, m: Node)
    requires n == Namespace() && p == [0, 0, 0] && m == Inner()
    ensures Reaches(CPP, n, p, m) && NamesAlong(CPP, n, p) == ["a", "B"]
  {
    PathInOuter(n.children[0], p[1..], m);
    assert OwnName(CPP, n) == ["a"] && !HoldsClasses(CPP, n) && !Ends(CPP, n);
    assert NamesAlong(CPP, n, p) == ["a"] + NamesAlong(CPP, n.children[0], p[1..]);
  }

  lemma {:induction false} InnerIsClass(m: Node)
    requires m == Inner()
    ensures Runs(CPP, m, Class)
  {
  }

  lemma {:induction false} FullName(names: seq<string>)
    requires names == ["a", "B"]
    ensures Dotted(CPP, None, names) == Some("p.f.a.B")
  {
    var rest := names[1..];
    assert rest == ["B"] && rest[1..] == [];
    assert Dots(rest) == "." + "B" + "" == ".B";
    assert CPP.topName(names[0]) + Dots(rest) == "p.f." + "a" + ".B" == "p.f.a.B";
  }

  lemma {:induction false} DefinedBy(cfg: Config, root: Frame, p: seq<nat>, f: Frame, rule: Rule)
    requires Reaches(cfg, root.node, p, f.node) && f.scope == Dotted(cfg, root.scope, NamesAlong(cfg, root.node, p))
    requires Runs(cfg, f.node, rule)
    ensures f in Lexical(cfg, root) && Event(rule, f.node, f.scope) in Events(cfg, Lexical(cfg, root))
  {
    assert ReachedUnder(cfg, root, f);
    WalkedIff(cfg, root, f);
    EventsHave(cfg, Lexical(cfg, root), Event(rule, f.node, f.scope));
  }

  /** The inner class is walked under the names of both, which its definition carries. */
  lemma {:induction false} InnerIsQualified(root: Frame, f: Frame)
    requires root == Frame(Namespace(), None) && f == Frame(Inner(), Some("p.f.a.B"))
    ensures f in Lexical(CPP, root) && Event(Class, f.node, f.scope) in Events(CPP, Lexical(CPP, root))
  {
    var p: seq<nat> := [0, 0, 0];
    PathInNamespace(root.node, p, f.node);
    InnerIsClass(f.node);
    var names := NamesAlong(CPP, root.node, p);
    FullName(names);
    assert f.scope == Dotted(CPP, root.scope, names);
    DefinedBy(CPP, root, p, f, Class);
  }
}
