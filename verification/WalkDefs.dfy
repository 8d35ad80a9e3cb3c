/**
  The definition walker of internal/pmm/extract_defs.c on an abstract syntax tree: which extractor
  runs on which node, under which enclosing scope, and what is descended into.
 */
module WalkDefs {
  import opened Sequences
  import opened Flattening
  import opened TreeWalks
  import opened Trees

  /** The node kinds the walker tests for by name. */
  datatype Kind =
    | ErrorNode | Call | PreprocDef | PreprocFunctionDef | CfFunctionTag | DefineAction | ListForm | ListLit
    | ParTupLit | ExportItem | ImportItem | ImplItem | NamespaceDefinition | TemplateDeclaration
    | ClassSpecifier | StructSpecifier | UnionSpecifier | FieldDeclarationList | ClassBody | DeclarationList
    | Body | Block | Suite | Closure | FieldDeclaration | Declaration | OtherKind(name: string)

  datatype Lang =
    | Kotlin | Elixir | C | Cpp | Cuda | Glsl | ObjC | Ispc | Cfml | GoTemplate | Clojure | Racket | Scheme
    | Janet | Wit | Wolfram | TypeScript | JavaScript | Tsx | Ada | Rust | Groovy | OtherLang

  /**
    A syntax node: an identity that nothing reads, its kind, whether it is a named child, the name that the
    language's scope lookup finds in it, whether a func_type stands somewhere below it, and its children.
   */
  datatype Info = Info(id: nat, kind: Kind, named: bool, scopeName: Option<string>, hasFuncType: bool)

  type Node = Tree<Info>

  /** The language tables, and how a top-level name is qualified. */
  datatype Config = Config(lang: Lang, functionKinds: set<Kind>, classKinds: set<Kind>, macros: bool,
                           topName: string -> string)

  /** A node to walk and the scope it is walked under. */
  datatype Frame = Frame(node: Node, scope: Option<string>)

  datatype Rule =
    | Recover | ElixirCall | Macro | FunctionTag | Template | LispForm | JanetForm | Function | RustImpl | Class

  /** One run of an extractor: its definitions depend on the rule, the node and the scope alone. */
  datatype Event = Event(rule: Rule, node: Node, scope: Option<string>)

  // ----- tests on kinds

  predicate IsPreprocessorLang(l: Lang) {
    l == C || l == Cpp || l == Cuda || l == Glsl || l == ObjC || l == Ispc
  }

  predicate DescendsIntoFunctions(l: Lang) {
    l == Wolfram || l == TypeScript || l == JavaScript || l == Tsx || l == Ada
  }

  predicate IsTemplateClass(cfg: Config, n: Node) {
    && (cfg.lang == Cpp || cfg.lang == Cuda) && n.data.kind == TemplateDeclaration
    && exists i :: 0 <= i < |n.children| && n.children[i].data.named &&
         (n.children[i].data.kind == ClassSpecifier || n.children[i].data.kind == StructSpecifier ||
          n.children[i].data.kind == UnionSpecifier)
  }

  predicate IsNamespace(cfg: Config, n: Node) {
    (cfg.lang == Cpp || cfg.lang == Cuda) && n.data.kind == NamespaceDefinition
  }

  predicate IsBody(cfg: Config, n: Node) {
    || n.data.kind == FieldDeclarationList || n.data.kind == ClassBody || n.data.kind == DeclarationList
    || n.data.kind == Body || n.data.kind == Block || n.data.kind == Suite
    || (n.data.kind == Closure && cfg.lang == Groovy)
  }

  predicate IsWrapper(n: Node) {
    n.data.kind == FieldDeclaration || n.data.kind == TemplateDeclaration || n.data.kind == Declaration
  }

  predicate IsClass(cfg: Config, n: Node) {
    n.data.kind in cfg.classKinds
  }

  /** compute_class_qn: a named scope extends the enclosing one, or starts at the top. */
  function Scoped(cfg: Config, n: Node, scope: Option<string>): Option<string> {
    match n.data.scopeName
    case None => scope
    case Some(name) =>
      if name == "" then scope
      else if scope.Some? then Some(scope.value + "." + name)
      else Some(cfg.topName(name))
  }

  // ----- nested classes

  /** The class nodes of a class body in source order, looking through wrappers. */
  function NestedClasses(cfg: Config, ns: seq<Node>): (cs: seq<Node>)
    ensures SizeAll(cs) <= SizeAll(ns)
    decreases ns
  {
    if ns == [] then [] else
      var rest := NestedClasses(cfg, ns[1..]);
      if IsClass(cfg, ns[0]) then
        assert ([ns[0]] + rest)[1..] == rest;
        [ns[0]] + rest
      else if IsWrapper(ns[0]) then
        var inner := NestedClasses(cfg, ns[0].children);
        SizeConcat(inner, rest);
        inner + rest
      else rest
  }

  function Direct(cfg: Config, ns: seq<Node>): (cs: seq<Node>) {
    if ns == [] then [] else (if IsClass(cfg, ns[0]) then [ns[0]] else []) + Direct(cfg, ns[1..])
  }

  /** The order push_nested_class_nodes pushes them in: each container's own, last first, then its wrappers'. */
  function PushOrder(cfg: Config, n: Node): (cs: seq<Node>)
    decreases n, 0
  {
    Reversed(Direct(cfg, n.children)) + PushWrapped(cfg, n.children)
  }

  function PushWrapped(cfg: Config, ns: seq<Node>): (cs: seq<Node>)
    decreases ns, 1
  {
    if ns == [] then [] else
      (if !IsClass(cfg, ns[0]) && IsWrapper(ns[0]) then PushOrder(cfg, ns[0]) else []) + PushWrapped(cfg, ns[1..])
  }

  /** Whatever the order, the classes pushed are the nested classes of the body. */
  lemma {:induction false} PushOrderExact(cfg: Config, n: Node)
    ensures multiset(PushOrder(cfg, n)) == multiset(NestedClasses(cfg, n.children))
    decreases n, 0
  {
    ReversedBag(Direct(cfg, n.children));
    PushWrappedExact(cfg, n.children);
  }

  lemma {:induction false} PushWrappedExact(cfg: Config, ns: seq<Node>)
    ensures multiset(Direct(cfg, ns)) + multiset(PushWrapped(cfg, ns)) == multiset(NestedClasses(cfg, ns))
    decreases ns, 1
  {
    if ns != [] {
      PushWrappedExact(cfg, ns[1..]);
      if !IsClass(cfg, ns[0]) && IsWrapper(ns[0]) {
        PushOrderExact(cfg, ns[0]);
      }
    }
  }

  // ----- one node

  function Frames(ns: seq<Node>, scope: Option<string>): (fs: seq<Frame>)
    ensures |fs| == |ns| && forall i :: 0 <= i < |ns| ==> fs[i] == Frame(ns[i], scope)
  {
    seq(|ns|, i requires 0 <= i < |ns| => Frame(ns[i], scope))
  }

  function Nodes(fs: seq<Frame>): (ns: seq<Node>)
    ensures |ns| == |fs| && forall i :: 0 <= i < |fs| ==> ns[i] == fs[i].node
  {
    seq(|fs|, i requires 0 <= i < |fs| => fs[i].node)
  }

  /** The index of the first body container among the children, or their number. */
  function BodyIndex(cfg: Config, ns: seq<Node>): (i: nat)
    ensures i <= |ns| && (i < |ns| ==> IsBody(cfg, ns[i])) && forall j :: 0 <= j < i ==> !IsBody(cfg, ns[j])
  {
    if ns == [] then 0
    else if IsBody(cfg, ns[0]) then 0
    else 1 + BodyIndex(cfg, ns[1..])
  }

  function On(rule: Rule, f: Frame, when: bool): (es: seq<Event>) {
    if when then [Event(rule, f.node, f.scope)] else []
  }

  /** The extractors that run on a frame, in order. */
  function EventsOf(cfg: Config, f: Frame): (es: seq<Event>) {
    On(Recover, f, cfg.lang == Kotlin && f.node.data.kind == ErrorNode) + KindEvents(cfg, f)
  }

  /** From the Elixir test on. */
  function KindEvents(cfg: Config, f: Frame): (es: seq<Event>) {
    if StopsAtCall(cfg, f.node) then On(ElixirCall, f, true)
    else if StopsAtMacro(cfg, f.node) then On(Macro, f, cfg.macros)
    else if IsFunctionTag(cfg, f.node) then On(FunctionTag, f, true)
    else if IsTemplate(cfg, f.node) then On(Template, f, true)
    else FormEvents(cfg, f) + PlainEvents(cfg, f)
  }

  /** The two form extractors that are followed by a further descent. */
  function FormEvents(cfg: Config, f: Frame): (es: seq<Event>) {
    On(LispForm, f, IsLispForm(cfg, f.node)) + On(JanetForm, f, IsJanetForm(cfg, f.node))
  }

  /** From the function test on. */
  function PlainEvents(cfg: Config, f: Frame): (es: seq<Event>) {
    if IsPlainWitItem(cfg, f.node) then []
    else if RunsFunction(cfg, f.node) && !DescendsIntoFunctions(cfg.lang) then On(Function, f, true)
    else
      On(Function, f, RunsFunction(cfg, f.node)) +
      if IsRustImpl(cfg, f.node) then On(RustImpl, f, true)
      else On(Class, f, IsClass(cfg, f.node) && !IsNamespace(cfg, f.node))
  }

  predicate IsRustImpl(cfg: Config, n: Node) { cfg.lang == Rust && n.data.kind == ImplItem }

  predicate IsJanetForm(cfg: Config, n: Node) { cfg.lang == Janet && n.data.kind == ParTupLit }

  predicate StopsAtCall(cfg: Config, n: Node) { cfg.lang == Elixir && n.data.kind == Call }

  predicate StopsAtMacro(cfg: Config, n: Node) {
    IsPreprocessorLang(cfg.lang) && (n.data.kind == PreprocDef || n.data.kind == PreprocFunctionDef)
  }

  predicate IsFunctionTag(cfg: Config, n: Node) { cfg.lang == Cfml && n.data.kind == CfFunctionTag }

  predicate IsTemplate(cfg: Config, n: Node) { cfg.lang == GoTemplate && n.data.kind == DefineAction }

  predicate IsLispForm(cfg: Config, n: Node) {
    (cfg.lang == Clojure || cfg.lang == Racket || cfg.lang == Scheme) &&
        (n.data.kind == ListForm || n.data.kind == ListLit)
  }

  predicate IsPlainWitItem(cfg: Config, n: Node) {
    cfg.lang == Wit && (n.data.kind == ExportItem || n.data.kind == ImportItem) && !n.data.hasFuncType
  }

  predicate RunsFunction(cfg: Config, n: Node) {
    n.data.kind in cfg.functionKinds && !IsTemplateClass(cfg, n)
  }

  /** How a frame is left: nowhere further, into its children under its own or a new scope, or into a class. */
  datatype Descent = Stop | Same | Extended | IntoClass

  function DescentOf(cfg: Config, n: Node): Descent {
    if StopsAtCall(cfg, n) || StopsAtMacro(cfg, n) then Stop
    else if IsFunctionTag(cfg, n) || IsTemplate(cfg, n) || IsPlainWitItem(cfg, n) then Same
    else if RunsFunction(cfg, n) && !DescendsIntoFunctions(cfg.lang) then Stop
    else if IsRustImpl(cfg, n) then Stop
    else if IsNamespace(cfg, n) then Extended
    else if IsClass(cfg, n) then IntoClass
    else Same
  }

  /** The nodes a class is left into: the nested classes of its body, or all children when it has none. */
  function ClassNodes(cfg: Config, n: Node): (ns: seq<Node>) {
    var i := BodyIndex(cfg, n.children);
    if i < |n.children| then NestedClasses(cfg, n.children[i].children) else n.children
  }

  /** The same nodes in the order they leave the stack again. */
  function ClassNodesPopped(cfg: Config, n: Node): (ns: seq<Node>) {
    var i := BodyIndex(cfg, n.children);
    if i < |n.children| then Reversed(PushOrder(cfg, n.children[i])) else n.children
  }

  /** The frames below a frame in source order: the lexical walk. */
  function Below(cfg: Config, f: Frame): (fs: seq<Frame>) {
    match DescentOf(cfg, f.node)
    case Stop => []
    case Same => Frames(f.node.children, f.scope)
    case Extended => Frames(f.node.children, Scoped(cfg, f.node, f.scope))
    case IntoClass => Frames(ClassNodes(cfg, f.node), Scoped(cfg, f.node, f.scope))
  }

  /** The frames below a frame in the order the iterative walk takes them. */
  function BelowPopped(cfg: Config, f: Frame): (fs: seq<Frame>) {
    match DescentOf(cfg, f.node)
    case Stop => []
    case Same => Frames(f.node.children, f.scope)
    case Extended => Frames(f.node.children, Scoped(cfg, f.node, f.scope))
    case IntoClass => Frames(ClassNodesPopped(cfg, f.node), Scoped(cfg, f.node, f.scope))
  }

  lemma {:induction false} SizePermute(a: seq<Node>, b: seq<Node>)
    requires multiset(a) == multiset(b)
    ensures SizeAll(a) == SizeAll(b)
  {
    if a == [] {
      assert |b| == |multiset(b)|;
    } else {
      assert a == [a[0]] + a[1..];
      var b1, b2 := Extract(a[0], a[1..], b);
      SizePermute(a[1..], b1 + b2);
      SizeConcat(b1, b2);
      SizeConcat(b1 + [a[0]], b2);
      SizeConcat(b1, [a[0]]);
      SizeConcat([a[0]], []);
      assert [a[0]] + [] == [a[0]] && [a[0]][1..] == [];
    }
  }

  lemma NodesOfFrames(ns: seq<Node>, scope: Option<string>)
    ensures Nodes(Frames(ns, scope)) == ns
  {
  }

  lemma BelowNodes(cfg: Config, f: Frame)
    ensures Nodes(Below(cfg, f)) ==
            match DescentOf(cfg, f.node)
            case Stop => []
            case Same => f.node.children
            case Extended => f.node.children
            case IntoClass => ClassNodes(cfg, f.node)
  {
    var scope := Scoped(cfg, f.node, f.scope);
    NodesOfFrames(f.node.children, f.scope);
    NodesOfFrames(f.node.children, scope);
    NodesOfFrames(ClassNodes(cfg, f.node), scope);
  }

  lemma ClassNodesAgree(cfg: Config, n: Node)
    ensures multiset(ClassNodesPopped(cfg, n)) == multiset(ClassNodes(cfg, n))
    ensures SizeAll(ClassNodes(cfg, n)) <= SizeAll(n.children)
  {
    var i := BodyIndex(cfg, n.children);
    if i < |n.children| {
      PushOrderExact(cfg, n.children[i]);
      ReversedBag(PushOrder(cfg, n.children[i]));
      SizeMember(n.children, i);
    }
  }

  /** Both orders leave a frame into the same smaller nodes. */
  lemma BelowAgree(cfg: Config, f: Frame)
    ensures multiset(BelowPopped(cfg, f)) == multiset(Below(cfg, f))
    ensures SizeAll(Nodes(Below(cfg, f))) < Size(f.node)
    ensures SizeAll(Nodes(BelowPopped(cfg, f))) < Size(f.node)
  {
    BelowNodes(cfg, f);
    ClassNodesAgree(cfg, f.node);
    if DescentOf(cfg, f.node) == IntoClass {
      var scope := Scoped(cfg, f.node, f.scope);
      FramesBag(ClassNodesPopped(cfg, f.node), ClassNodes(cfg, f.node), scope);
      SizePermute(ClassNodesPopped(cfg, f.node), ClassNodes(cfg, f.node));
      NodesOfFrames(ClassNodesPopped(cfg, f.node), scope);
    }
  }

  ghost function FrameOf(scope: Option<string>): Node -> seq<Frame> {
    n => [Frame(n, scope)]
  }

  lemma {:induction false} FramesFlat(ns: seq<Node>, scope: Option<string>)
    ensures Frames(ns, scope) == Flat(FrameOf(scope), ns)
  {
    if ns != [] {
      FramesFlat(ns[1..], scope);
      assert Frames(ns, scope) == [Frame(ns[0], scope)] + Frames(ns[1..], scope);
    }
  }

  lemma FramesBag(a: seq<Node>, b: seq<Node>, scope: Option<string>)
    requires multiset(a) == multiset(b)
    ensures multiset(Frames(a, scope)) == multiset(Frames(b, scope))
  {
    FramesFlat(a, scope);
    FramesFlat(b, scope);
    FlatPermute(FrameOf(scope), a, b);
  }

  // ----- the recursive walks

  ghost function SourceOrder(cfg: Config): Frame -> seq<Frame> {
    (f: Frame) => Below(cfg, f)
  }

  ghost function StackOrder(cfg: Config): Frame -> seq<Frame> {
    (f: Frame) => BelowPopped(cfg, f)
  }

  ghost function FrameSize(): Frame -> nat {
    (f: Frame) => Size(f.node)
  }

  lemma {:induction false} SumIsSize(fs: seq<Frame>)
    ensures Sum(FrameSize(), fs) == SizeAll(Nodes(fs))
  {
    if fs != [] {
      assert Nodes(fs)[0] == fs[0].node && Nodes(fs)[1..] == Nodes(fs[1..]);
      SumIsSize(fs[1..]);
    }
  }

  lemma BelowSmaller(cfg: Config, f: Frame)
    ensures Sum(FrameSize(), Below(cfg, f)) < Size(f.node) && Sum(FrameSize(), BelowPopped(cfg, f)) < Size(f.node)
    ensures SizeAll(Nodes(Below(cfg, f))) < Size(f.node)
  {
    BelowAgree(cfg, f);
    SumIsSize(Below(cfg, f));
    SumIsSize(BelowPopped(cfg, f));
  }

  lemma WalksEnd(cfg: Config)
    ensures Shrinks(SourceOrder(cfg), FrameSize()) && Shrinks(StackOrder(cfg), FrameSize())
  {
    forall f: Frame
      ensures ShrinksAt(SourceOrder(cfg), FrameSize(), f)
      ensures ShrinksAt(StackOrder(cfg), FrameSize(), f)
    {
      BelowSmaller(cfg, f);
    }
  }

  /** The lexical walk: plain recursion in source order, the scope handed down. */
  ghost function Lexical(cfg: Config, f: Frame): (fs: seq<Frame>)
  {
    WalksEnd(cfg);
    Visits(SourceOrder(cfg), FrameSize(), f)
  }

  ghost function LexicalAll(cfg: Config, fs: seq<Frame>): (vs: seq<Frame>)
  {
    WalksEnd(cfg);
    VisitsAll(SourceOrder(cfg), FrameSize(), fs)
  }

  /** The frames in the order the iterative walk meets them. */
  ghost function Popped(cfg: Config, f: Frame): (fs: seq<Frame>)
  {
    WalksEnd(cfg);
    Visits(StackOrder(cfg), FrameSize(), f)
  }

  /** The iterative order meets the frames of the lexical walk, each as often. */
  lemma PoppedIsLexical(cfg: Config, f: Frame)
    ensures multiset(Popped(cfg, f)) == multiset(Lexical(cfg, f))
  {
    WalksEnd(cfg);
    forall x: Frame
      ensures multiset(StackOrder(cfg)(x)) == multiset(SourceOrder(cfg)(x))
    {
      BelowAgree(cfg, x);
    }
    SiblingOrderDoesNotMatter(StackOrder(cfg), SourceOrder(cfg), FrameSize(), f);
  }

  ghost function EventOf(cfg: Config): Frame -> seq<Event> {
    (f: Frame) => EventsOf(cfg, f)
  }

  /** The extractor runs of a list of frames. */
  ghost function Events(cfg: Config, fs: seq<Frame>): (es: seq<Event>) {
    Flat(EventOf(cfg), fs)
  }

  lemma EventsStep(cfg: Config, fs: seq<Frame>, f: Frame)
    ensures Events(cfg, fs + [f]) == Events(cfg, fs) + EventsOf(cfg, f)
  {
    FlatConcat(EventOf(cfg), fs, [f]);
    FlatOne(EventOf(cfg), f);
  }

  // ----- each node at most once

  /** The nodes of a tree. */
  function TreeNodes(n: Node): (ns: seq<Node>)
    decreases n, 0
  {
    [n] + ForestNodes(n.children)
  }

  function ForestNodes(ns: seq<Node>): (all: seq<Node>)
    decreases ns, 1
  {
    if ns == [] then [] else TreeNodes(ns[0]) + ForestNodes(ns[1..])
  }

  lemma {:induction false} ForestConcat(a: seq<Node>, b: seq<Node>)
    ensures ForestNodes(a + b) == ForestNodes(a) + ForestNodes(b)
  {
    if a == [] {
      assert a + b == b;
    } else {
      assert (a + b)[0] == a[0] && (a + b)[1..] == a[1..] + b;
      ForestConcat(a[1..], b);
    }
  }

  // ----- the scope of every node of the tree

  /** Named classes and namespaces open a scope. */
  predicate OpensScope(cfg: Config, n: Node) {
    (IsNamespace(cfg, n) || IsClass(cfg, n)) && !IsFunctionTag(cfg, n) && !IsTemplate(cfg, n) && !IsPlainWitItem(cfg, n)
  }

  function ScopeInside(cfg: Config, n: Node, scope: Option<string>): Option<string> {
    if OpensScope(cfg, n) then Scoped(cfg, n, scope) else scope
  }

  /** The child of a class that is its body, or the number of children. */
  function BodyOf(cfg: Config, n: Node): (i: nat)
    ensures i <= |n.children|
  {
    if OpensScope(cfg, n) && !IsNamespace(cfg, n) then BodyIndex(cfg, n.children) else |n.children|
  }

  /**
    All nodes of a tree in source order, each under the scope that the classes and namespaces around it
    open one in another. The body of a class opens none of its own.
   */
  function ScopedNodes(cfg: Config, n: Node, scope: Option<string>): (fs: seq<Frame>)
    decreases n, 0
  {
    [Frame(n, scope)] + ScopedForest(cfg, n.children, BodyOf(cfg, n), ScopeInside(cfg, n, scope))
  }

  /** The same of several trees, of which the one at position body is the body of a class. */
  function ScopedForest(cfg: Config, ns: seq<Node>, body: nat, scope: Option<string>): (fs: seq<Frame>)
    decreases ns, 1
  {
    if ns == [] then []
    else if body == 0 then
      [Frame(ns[0], scope)] + ScopedForest(cfg, ns[0].children, |ns[0].children|, scope) +
      ScopedForest(cfg, ns[1..], |ns|, scope)
    else ScopedNodes(cfg, ns[0], scope) + ScopedForest(cfg, ns[1..], body - 1, scope)
  }

  lemma NodesConcat(a: seq<Frame>, b: seq<Frame>)
    ensures Nodes(a + b) == Nodes(a) + Nodes(b)
    ensures |a| == 1 ==> Nodes(a) == [a[0].node]
  {
  }

  /** These are the nodes of the tree, each once. */
  lemma {:induction false} ScopedNodesAreAll(cfg: Config, n: Node, scope: Option<string>)
    ensures Nodes(ScopedNodes(cfg, n, scope)) == TreeNodes(n)
    decreases n, 0
  {
    ScopedForestIsAll(cfg, n.children, BodyOf(cfg, n), ScopeInside(cfg, n, scope));
    NodesConcat([Frame(n, scope)], ScopedForest(cfg, n.children, BodyOf(cfg, n), ScopeInside(cfg, n, scope)));
  }

  lemma {:induction false} ScopedForestIsAll(cfg: Config, ns: seq<Node>, body: nat, scope: Option<string>)
    ensures Nodes(ScopedForest(cfg, ns, body, scope)) == ForestNodes(ns)
    decreases ns, 1
  {
    if ns == [] {
    } else if body == 0 {
      var inside := ScopedForest(cfg, ns[0].children, |ns[0].children|, scope);
      ScopedForestIsAll(cfg, ns[0].children, |ns[0].children|, scope);
      ScopedForestIsAll(cfg, ns[1..], |ns|, scope);
      NodesConcat([Frame(ns[0], scope)], inside);
      NodesConcat([Frame(ns[0], scope)] + inside, ScopedForest(cfg, ns[1..], |ns|, scope));
    } else {
      ScopedNodesAreAll(cfg, ns[0], scope);
      ScopedForestIsAll(cfg, ns[1..], body - 1, scope);
      NodesConcat(ScopedNodes(cfg, ns[0], scope), ScopedForest(cfg, ns[1..], body - 1, scope));
    }
  }

  /** All that stands in the trees of some frames. */
  function ScopedAll(cfg: Config, fs: seq<Frame>): (all: seq<Frame>) {
    if fs == [] then [] else ScopedNodes(cfg, fs[0].node, fs[0].scope) + ScopedAll(cfg, fs[1..])
  }

  lemma {:induction false} ScopedConcat(cfg: Config, a: seq<Frame>, b: seq<Frame>)
    ensures ScopedAll(cfg, a + b) == ScopedAll(cfg, a) + ScopedAll(cfg, b)
  {
    if a == [] {
      assert a + b == b;
    } else {
      assert (a + b)[0] == a[0] && (a + b)[1..] == a[1..] + b;
      ScopedConcat(cfg, a[1..], b);
    }
  }

  lemma {:induction false} ScopedFrames(cfg: Config, ns: seq<Node>, body: nat, scope: Option<string>)
    requires body >= |ns|
    ensures ScopedAll(cfg, Frames(ns, scope)) == ScopedForest(cfg, ns, body, scope)
  {
    if ns != [] {
      assert Frames(ns, scope)[0] == Frame(ns[0], scope) && Frames(ns, scope)[1..] == Frames(ns[1..], scope);
      ScopedFrames(cfg, ns[1..], body - 1, scope);
    }
  }

  lemma FramesConcat(a: seq<Node>, b: seq<Node>, scope: Option<string>)
    ensures Frames(a + b, scope) == Frames(a, scope) + Frames(b, scope)
  {
  }

  lemma ScopedFirst(cfg: Config, n: Node, rest: seq<Node>, scope: Option<string>)
    ensures ScopedAll(cfg, Frames([n] + rest, scope)) ==
            ScopedNodes(cfg, n, scope) + ScopedAll(cfg, Frames(rest, scope))
  {
    var fs := Frames([n] + rest, scope);
    assert fs[0] == Frame(n, scope) && fs[1..] == Frames(rest, scope);
  }

  lemma ScopedJoined(cfg: Config, a: seq<Node>, b: seq<Node>, scope: Option<string>)
    ensures ScopedAll(cfg, Frames(a + b, scope)) == ScopedAll(cfg, Frames(a, scope)) + ScopedAll(cfg, Frames(b, scope))
  {
    FramesConcat(a, b, scope);
    ScopedConcat(cfg, Frames(a, scope), Frames(b, scope));
  }

  /** A wrapper opens no scope. */
  lemma WrapperWithin(cfg: Config, n: Node, scope: Option<string>)
    requires !IsClass(cfg, n) && IsWrapper(n)
    ensures ScopedNodes(cfg, n, scope) == [Frame(n, scope)] + ScopedAll(cfg, Frames(n.children, scope))
  {
    ScopedFrames(cfg, n.children, |n.children|, scope);
  }

  /** The nested classes of some nodes stand in them, under the same scope. */
  lemma {:induction false} NestedWithin(cfg: Config, ns: seq<Node>, scope: Option<string>)
    ensures multiset(ScopedAll(cfg, Frames(NestedClasses(cfg, ns), scope))) <=
            multiset(ScopedAll(cfg, Frames(ns, scope)))
    decreases ns
  {
    if ns != [] {
      var rest := NestedClasses(cfg, ns[1..]);
      NestedWithin(cfg, ns[1..], scope);
      assert ns == [ns[0]] + ns[1..];
      ScopedFirst(cfg, ns[0], ns[1..], scope);
      if IsClass(cfg, ns[0]) {
        ScopedFirst(cfg, ns[0], rest, scope);
      } else if IsWrapper(ns[0]) {
        NestedWithin(cfg, ns[0].children, scope);
        WrapperWithin(cfg, ns[0], scope);
        ScopedJoined(cfg, NestedClasses(cfg, ns[0].children), rest, scope);
      }
    }
  }

  lemma {:induction false} BodyWithin(cfg: Config, ns: seq<Node>, i: nat, scope: Option<string>)
    requires i < |ns|
    ensures multiset(ScopedAll(cfg, Frames(ns[i].children, scope))) <= multiset(ScopedForest(cfg, ns, i, scope))
  {
    if i > 0 {
      BodyWithin(cfg, ns[1..], i - 1, scope);
    } else {
      ScopedFrames(cfg, ns[0].children, |ns[0].children|, scope);
    }
  }

  /** What is said to stand below a frame in the tree. */
  function ScopedBelow(cfg: Config, f: Frame): (fs: seq<Frame>) {
    ScopedForest(cfg, f.node.children, BodyOf(cfg, f.node), ScopeInside(cfg, f.node, f.scope))
  }

  lemma ClassBelowWithin(cfg: Config, f: Frame)
    requires DescentOf(cfg, f.node) == IntoClass
    ensures multiset(ScopedAll(cfg, Below(cfg, f))) <= multiset(ScopedBelow(cfg, f))
  {
    var n, scope, i := f.node, Scoped(cfg, f.node, f.scope), BodyIndex(cfg, f.node.children);
    if i < |n.children| {
      NestedWithin(cfg, n.children[i].children, scope);
      BodyWithin(cfg, n.children, i, scope);
    } else {
      ScopedFrames(cfg, n.children, i, scope);
    }
  }

  lemma SameBelowWithin(cfg: Config, f: Frame)
    requires DescentOf(cfg, f.node) == Same || DescentOf(cfg, f.node) == Extended
    ensures ScopedAll(cfg, Below(cfg, f)) == ScopedBelow(cfg, f)
  {
    ScopedFrames(cfg, f.node.children, BodyOf(cfg, f.node), ScopeInside(cfg, f.node, f.scope));
  }

  /** What a frame is left into stands below it in the tree, under the scope it has there. */
  lemma BelowWithin(cfg: Config, f: Frame)
    ensures multiset(ScopedAll(cfg, Below(cfg, f))) <= multiset(ScopedBelow(cfg, f))
  {
    match DescentOf(cfg, f.node)
    case Stop => assert ScopedAll(cfg, []) == [];
    case IntoClass => ClassBelowWithin(cfg, f);
    case Same => SameBelowWithin(cfg, f);
    case Extended => SameBelowWithin(cfg, f);
  }

  lemma ConsBag<T>(x: T, a: seq<T>, b: seq<T>)
    requires multiset(a) <= multiset(b)
    ensures multiset([x] + a) <= multiset([x] + b)
  {
  }

  /** Each node walked is walked under the scope it has in the tree, and no occurrence of it twice. */
  lemma {:induction false} WalkedInScope(cfg: Config, f: Frame)
    ensures multiset(Lexical(cfg, f)) <= multiset(ScopedNodes(cfg, f.node, f.scope))
    decreases Size(f.node), 1
  {
    var below := Below(cfg, f);
    BelowSmaller(cfg, f);
    AllWalkedInScope(cfg, below);
    BelowWithin(cfg, f);
    ConsBag(f, LexicalAll(cfg, below), ScopedBelow(cfg, f));
  }

  lemma {:induction false} AllWalkedInScope(cfg: Config, fs: seq<Frame>)
    ensures multiset(LexicalAll(cfg, fs)) <= multiset(ScopedAll(cfg, fs))
    decreases SizeAll(Nodes(fs)), 2
  {
    if fs != [] {
      assert Nodes(fs)[0] == fs[0].node && Nodes(fs)[1..] == Nodes(fs[1..]);
      WalkedInScope(cfg, fs[0]);
      AllWalkedInScope(cfg, fs[1..]);
    }
  }
}
