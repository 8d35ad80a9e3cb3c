/**
  The iterative definition walk of internal/pmm/extract_defs.c: an explicit frame stack with a
  ceiling, and a scope field that every turn of the loop overwrites from the frame it pops.
 */
module DefinitionWalk {
  import opened Sequences
  import opened NodeStacks
  import opened Flattening
  import opened TreeWalks
  import opened Trees
  import opened WalkDefs
  import opened WalkPaths

  const NESTED_CLASS_STACK_CAP: nat := 128

  /** fs went onto the stack in that order, as far as there was room. */
  predicate Grew(h: Held<Frame>, h': Held<Frame>, fs: seq<Frame>) {
    h' == PushAll(h, fs)
  }

  /** One frame onto the stack, after fs. */
  method PushFrame(cfg: Config, s: WorkStack<Frame>, f: Frame, ghost h: Held<Frame>, ghost fs: seq<Frame>)
    requires s.Valid() && Grew(h, s.View(), fs)
    modifies s, s.data
    ensures s.Valid() && (s.data == old(s.data) || fresh(s.data)) && Grew(h, s.View(), fs + [f])
  {
    ghost var h' := s.View();
    s.Push(f);
    PushBoth(h, fs, [f]);
  }

  lemma NextReversed(ns: seq<Node>, scope: Option<string>, i: nat)
    requires i < |ns|
    ensures Reversed(Frames(ns[i + 1..], scope)) + [Frame(ns[i], scope)] == Reversed(Frames(ns[i..], scope))
  {
  }

  // Child i goes on the stack after the children behind it.
  method PushNext(cfg: Config, s: WorkStack<Frame>, ns: seq<Node>, scope: Option<string>, i: nat, ghost h: Held<Frame>)
    requires i < |ns| && s.Valid() && Grew(h, s.View(), Reversed(Frames(ns[i + 1..], scope)))
    modifies s, s.data
    ensures s.Valid() && (s.data == old(s.data) || fresh(s.data))
    ensures Grew(h, s.View(), Reversed(Frames(ns[i..], scope)))
  {
    NextReversed(ns, scope, i);
    PushFrame(cfg, s, Frame(ns[i], scope), h, Reversed(Frames(ns[i + 1..], scope)));
  }

  /** wd_push_children_reverse: the children pushed from the last to the first. */
  method PushReversed(cfg: Config, s: WorkStack<Frame>, ns: seq<Node>, scope: Option<string>)
    requires s.Valid()
    modifies s, s.data
    ensures s.Valid() && (s.data == old(s.data) || fresh(s.data))
    ensures Grew(old(s.View()), s.View(), Reversed(Frames(ns, scope)))
  {
    ghost var h := s.View();
    PushNone(h);
    assert Reversed(Frames(ns[|ns|..], scope)) == [];
    var i: int := |ns|;
    while i > 0
      invariant s.Valid() && (s.data == old(s.data) || fresh(s.data)) && 0 <= i <= |ns|
      invariant Grew(h, s.View(), Reversed(Frames(ns[i..], scope)))
    {
      i := i - 1;
      PushNext(cfg, s, ns, scope, i, h);
    }
    assert ns[0..] == ns;
  }

  /** The wrappers among ns that are looked into. */
  function Wrappers(cfg: Config, ns: seq<Node>): (ws: seq<Node>)
    ensures SizeAll(ws) <= SizeAll(ns)
  {
    if ns == [] then [] else
      var rest := Wrappers(cfg, ns[1..]);
      assert ([ns[0]] + rest)[1..] == rest;
      if !IsClass(cfg, ns[0]) && IsWrapper(ns[0]) then [ns[0]] + rest else rest
  }

  ghost function PushOrderOf(cfg: Config): Node -> seq<Node> {
    (n: Node) => PushOrder(cfg, n)
  }

  lemma {:induction false} WrappedFlat(cfg: Config, ns: seq<Node>)
    ensures PushWrapped(cfg, ns) == Flat(PushOrderOf(cfg), Wrappers(cfg, ns))
  {
    if ns != [] {
      WrappedFlat(cfg, ns[1..]);
      var rest := Wrappers(cfg, ns[1..]);
      assert ([ns[0]] + rest)[0] == ns[0] && ([ns[0]] + rest)[1..] == rest;
    }
  }

  lemma DropFirst(cfg: Config, ns: seq<Node>, i: nat)
    requires i < |ns|
    ensures Direct(cfg, ns[i..]) == if IsClass(cfg, ns[i])
            then [ns[i]] + Direct(cfg, ns[i + 1..]) else Direct(cfg, ns[i + 1..])
    ensures Wrappers(cfg, ns[i..]) ==
            if !IsClass(cfg, ns[i]) && IsWrapper(ns[i])
                then [ns[i]] + Wrappers(cfg, ns[i + 1..]) else Wrappers(cfg, ns[i + 1..])
  {
    assert ns[i..][0] == ns[i] && ns[i..][1..] == ns[i + 1..];
  }

  function ClassFrames(cfg: Config, ns: seq<Node>, scope: Option<string>): seq<Frame> {
    Frames(Reversed(Direct(cfg, ns)), scope)
  }

  function KeptWrappers(cfg: Config, ns: seq<Node>): seq<Node> {
    Reversed(Wrappers(cfg, ns))
  }

  // What child i adds to what the children after it have pushed.
  lemma NextChild(cfg: Config, ns: seq<Node>, scope: Option<string>, i: nat, base: seq<Node>)
    requires i < |ns|
    ensures ClassFrames(cfg, ns[i..], scope) ==
            if IsClass(cfg, ns[i]) then ClassFrames(cfg, ns[i + 1..], scope) + [Frame(ns[i], scope)]
            else ClassFrames(cfg, ns[i + 1..], scope)
    ensures base + KeptWrappers(cfg, ns[i..]) ==
            if !IsClass(cfg, ns[i]) && IsWrapper(ns[i]) then base + KeptWrappers(cfg, ns[i + 1..]) + [ns[i]]
            else base + KeptWrappers(cfg, ns[i + 1..])
  {
    NextFrames(cfg, ns, scope, i);
    NextWrappers(cfg, ns, i);
    Assoc(base, KeptWrappers(cfg, ns[i + 1..]), [ns[i]]);
  }

  lemma NextFrames(cfg: Config, ns: seq<Node>, scope: Option<string>, i: nat)
    requires i < |ns|
    ensures ClassFrames(cfg, ns[i..], scope) ==
            if IsClass(cfg, ns[i]) then ClassFrames(cfg, ns[i + 1..], scope) + [Frame(ns[i], scope)]
            else ClassFrames(cfg, ns[i + 1..], scope)
  {
    DropFirst(cfg, ns, i);
    FramesOfReversed(ns[i], Direct(cfg, ns[i + 1..]), scope);
  }

  lemma NextWrappers(cfg: Config, ns: seq<Node>, i: nat)
    requires i < |ns|
    ensures KeptWrappers(cfg, ns[i..]) ==
            if !IsClass(cfg, ns[i]) && IsWrapper(ns[i]) then KeptWrappers(cfg, ns[i + 1..]) + [ns[i]]
            else KeptWrappers(cfg, ns[i + 1..])
  {
    DropFirst(cfg, ns, i);
    ReversedFront(ns[i], Wrappers(cfg, ns[i + 1..]));
  }

  lemma FramesOfReversed(n: Node, rest: seq<Node>, scope: Option<string>)
    ensures Frames(Reversed([n] + rest), scope) == Frames(Reversed(rest), scope) + [Frame(n, scope)]
  {
  }

  lemma ReversedFront(n: Node, rest: seq<Node>)
    ensures Reversed([n] + rest) == Reversed(rest) + [n]
  {
  }

  predicate Separate(s: WorkStack<Frame>, nested: NodeStack<Node>)
    reads s, nested
  {
    (s as object) != (nested as object) && (s.data as object) != (nested.items as object)
  }

  /** One child of a container: a class goes on the frame stack, a wrapper on the inner one. */
  method PushChild(cfg: Config, s: WorkStack<Frame>, nested: NodeStack<Node>, n: Node, scope: Option<string>,
                   ghost h: Held<Frame>, ghost done: seq<Frame>)
    requires s.Valid() && nested.Valid() && Separate(s, nested) && Grew(h, s.View(), done)
    modifies s, s.data, nested, nested.items
    ensures s.Valid() && (s.data == old(s.data) || fresh(s.data))
    ensures nested.Valid() && (nested.items == old(nested.items) || fresh(nested.items)) && Separate(s, nested)
    ensures Grew(h, s.View(), if IsClass(cfg, n) then done + [Frame(n, scope)] else done)
    ensures nested.Contents() ==
            if !IsClass(cfg, n) && IsWrapper(n) then old(nested.Contents()) + [n] else old(nested.Contents())
  {
    if IsClass(cfg, n) {
      PushFrame(cfg, s, Frame(n, scope), h, done);
    } else if IsWrapper(n) {
      nested.Push(n);
    }
  }

  /** One container of push_nested_class_nodes, its children from the last to the first. */
  method PushContainer(cfg: Config, s: WorkStack<Frame>, nested: NodeStack<Node>, ns: seq<Node>, scope: Option<string>,
                       ghost h: Held<Frame>)
    requires s.Valid() && nested.Valid() && Separate(s, nested) && h == s.View()
    modifies s, s.data, nested, nested.items
    ensures s.Valid() && (s.data == old(s.data) || fresh(s.data))
    ensures nested.Valid() && (nested.items == old(nested.items) || fresh(nested.items)) && Separate(s, nested)
    ensures Grew(h, s.View(), ClassFrames(cfg, ns, scope))
    ensures nested.Contents() == old(nested.Contents()) + KeptWrappers(cfg, ns)
  {
    ghost var base := nested.Contents();
    ghost var done: seq<Frame>, kept: seq<Node> := [], base;
    PushNone(h);
    var i: int := |ns|;
    while i > 0
      invariant 0 <= i <= |ns| && Separate(s, nested)
      invariant s.Valid() && (s.data == old(s.data) || fresh(s.data))
      invariant nested.Valid() && (nested.items == old(nested.items) || fresh(nested.items))
      invariant done == ClassFrames(cfg, ns[i..], scope) && kept == base + KeptWrappers(cfg, ns[i..])
      invariant Grew(h, s.View(), done) && nested.Contents() == kept
    {
      i := i - 1;
      PushChild(cfg, s, nested, ns[i], scope, h, done);
      NextChild(cfg, ns, scope, i, base);
      done, kept := ClassFrames(cfg, ns[i..], scope), base + KeptWrappers(cfg, ns[i..]);
    }
    assert ns[0..] == ns;
  }

  // ----- the nested classes of a body

  /** What has been pushed and what the containers still to look into will push make up the whole order. */
  ghost predicate Emptying(cfg: Config, body: Node, pushed: seq<Node>, pending: seq<Node>) {
    pushed + Flat(PushOrderOf(cfg), pending) == PushOrder(cfg, body)
  }

  lemma EmptyingStart(cfg: Config, body: Node)
    ensures Emptying(cfg, body, [], [body])
  {
    FlatOne(PushOrderOf(cfg), body);
  }

  lemma EmptyingTurn(cfg: Config, body: Node, pushed: seq<Node>, pending: seq<Node>)
    requires pending != [] && Emptying(cfg, body, pushed, pending)
    ensures Emptying(cfg, body, pushed + Reversed(Direct(cfg, pending[0].children)),
                     Wrappers(cfg, pending[0].children) + pending[1..])
    ensures SizeAll(Wrappers(cfg, pending[0].children) + pending[1..]) < SizeAll(pending)
    ensures Reversed(pending)[..|pending| - 1] + Reversed(Wrappers(cfg, pending[0].children)) ==
            Reversed(Wrappers(cfg, pending[0].children) + pending[1..])
  {
    var n, rest := pending[0], pending[1..];
    var own, ws := Reversed(Direct(cfg, n.children)), Wrappers(cfg, n.children);
    WrappedFlat(cfg, n.children);
    FlatConcat(PushOrderOf(cfg), ws, rest);
    Assoc(own, PushWrapped(cfg, n.children), Flat(PushOrderOf(cfg), rest));
    Assoc(pushed, own, Flat(PushOrderOf(cfg), ws + rest));
    SizeConcat(ws, rest);
    ReversedConcat(ws, rest);
    ReversedFirst(pending);
  }

  // What emptying the first pending container does to the frame stack.
  lemma EmptyingGrew(cfg: Config, h: Held<Frame>, h': Held<Frame>, h'': Held<Frame>, pushed: seq<Node>, n: Node,
                     scope: Option<string>)
    requires Grew(h, h', Frames(pushed, scope)) && Grew(h', h'', ClassFrames(cfg, n.children, scope))
    ensures Grew(h, h'', Frames(pushed + Reversed(Direct(cfg, n.children)), scope))
  {
    PushBoth(h, Frames(pushed, scope), ClassFrames(cfg, n.children, scope));
    FramesConcat(pushed, Reversed(Direct(cfg, n.children)), scope);
  }

  /** One container taken off the inner stack and emptied. */
  method EmptyTop(cfg: Config, s: WorkStack<Frame>, nested: NodeStack<Node>, scope: Option<string>,
                  ghost pending: seq<Node>)
    requires s.Valid() && nested.Valid() && Separate(s, nested) && pending != [] &&
             nested.Contents() == Reversed(pending)
    modifies s, s.data, nested, nested.items
    ensures s.Valid() && (s.data == old(s.data) || fresh(s.data))
    ensures nested.Valid() && (nested.items == old(nested.items) || fresh(nested.items)) && Separate(s, nested)
    ensures nested.Contents() == Reversed(pending)[..|pending| - 1] + KeptWrappers(cfg, pending[0].children)
    ensures Grew(old(s.View()), s.View(), ClassFrames(cfg, pending[0].children, scope))
  {
    ReversedFirst(pending);
    var cur := nested.Pop();
    PushContainer(cfg, s, nested, cur.children, scope, s.View());
  }

  lemma Emptied(cfg: Config, body: Node, pushed: seq<Node>)
    requires Emptying(cfg, body, pushed, [])
    ensures pushed == PushOrder(cfg, body)
  {
  }

  /** push_nested_class_nodes */
  method PushNested(cfg: Config, s: WorkStack<Frame>, body: Node, scope: Option<string>)
    requires s.Valid()
    modifies s, s.data
    ensures s.Valid() && (s.data == old(s.data) || fresh(s.data))
    ensures Grew(old(s.View()), s.View(), Frames(PushOrder(cfg, body), scope))
  {
    ghost var h, pushed, pending := s.View(), [], [body];
    var nested := new NodeStack<Node>(NESTED_CLASS_STACK_CAP);
    nested.Push(body);
    PushNone(h);
    EmptyingStart(cfg, body);
    while nested.count > 0
      invariant s.Valid() && (s.data == old(s.data) || fresh(s.data))
      invariant nested.Valid() && fresh(nested) && fresh(nested.items) && Separate(s, nested)
      invariant nested.Contents() == Reversed(pending) && Emptying(cfg, body, pushed, pending)
      invariant Grew(h, s.View(), Frames(pushed, scope))
      decreases SizeAll(pending)
    {
      ghost var h', n := s.View(), pending[0];
      EmptyTop(cfg, s, nested, scope, pending);
      EmptyingTurn(cfg, body, pushed, pending);
      EmptyingGrew(cfg, h, h', s.View(), pushed, n, scope);
      pushed, pending := pushed + Reversed(Direct(cfg, n.children)), Wrappers(cfg, n.children) + pending[1..];
    }
    Emptied(cfg, body, pushed);
  }

  lemma FramesReversed(ns: seq<Node>, scope: Option<string>)
    ensures Reversed(Frames(ns, scope)) == Frames(Reversed(ns), scope)
  {
  }

  lemma {:induction false} FirstBody(cfg: Config, ns: seq<Node>, i: nat)
    requires i <= |ns| && (i < |ns| ==> IsBody(cfg, ns[i])) && forall j :: 0 <= j < i ==> !IsBody(cfg, ns[j])
    ensures BodyIndex(cfg, ns) == i
  {
  }

  lemma BodyFound(cfg: Config, node: Node, i: nat, scope: Option<string>)
    requires i < |node.children| && IsBody(cfg, node.children[i])
    requires forall j :: 0 <= j < i ==> !IsBody(cfg, node.children[j])
    ensures Frames(PushOrder(cfg, node.children[i]), scope) == Reversed(Frames(ClassNodesPopped(cfg, node), scope))
  {
    var order := PushOrder(cfg, node.children[i]);
    FirstBody(cfg, node.children, i);
    ReversedTwice(order);
    FramesReversed(Reversed(order), scope);
  }

  lemma NoBodyFound(cfg: Config, node: Node)
    requires forall j :: 0 <= j < |node.children| ==> !IsBody(cfg, node.children[j])
    ensures ClassNodesPopped(cfg, node) == node.children
  {
    FirstBody(cfg, node.children, |node.children|);
  }

  /** push_class_body_children */
  method PushClassBody(cfg: Config, s: WorkStack<Frame>, node: Node, scope: Option<string>)
    requires s.Valid()
    modifies s, s.data
    ensures s.Valid() && (s.data == old(s.data) || fresh(s.data))
    ensures Grew(old(s.View()), s.View(), Reversed(Frames(ClassNodesPopped(cfg, node), scope)))
  {
    var ci := 0;
    while ci < |node.children|
      invariant ci <= |node.children| && forall j :: 0 <= j < ci ==> !IsBody(cfg, node.children[j])
    {
      if IsBody(cfg, node.children[ci]) {
        BodyFound(cfg, node, ci, scope);
        PushNested(cfg, s, node.children[ci], scope);
        return;
      }
      ci := ci + 1;
    }
    NoBodyFound(cfg, node);
    PushReversed(cfg, s, node.children, scope);
  }

  // ----- the walk

  /** The part of the extraction context the walk works on: the mutable scope field and what was extracted. */
  class Context {
    var enclosingClassQn: Option<string>
    var events: seq<Event>

    constructor (scope: Option<string>)
      ensures enclosingClassQn == scope && events == []
    {
      enclosingClassQn, events := scope, [];
    }

    /** An extractor reads the scope from the field, not from the frame. */
    method Emit(rule: Rule, node: Node)
      modifies `events
      ensures events == old(events) + [Event(rule, node, enclosingClassQn)]
    {
      events := events + [Event(rule, node, enclosingClassQn)];
    }
  }

  /** The extractor runs of one node, branch by branch, and where the branch goes on. */
  method Extract(cfg: Config, ctx: Context, node: Node) returns (d: Descent)
    modifies ctx`events
    ensures ctx.events == old(ctx.events) + EventsOf(cfg, Frame(node, ctx.enclosingClassQn))
    ensures d == DescentOf(cfg, node)
  {
    if cfg.lang == Kotlin && node.data.kind == ErrorNode {
      ctx.Emit(Recover, node);
    }
    d := ExtractByKind(cfg, ctx, node);
  }

  /** From the Elixir test on. */
  method ExtractByKind(cfg: Config, ctx: Context, node: Node) returns (d: Descent)
    modifies ctx`events
    ensures ctx.events == old(ctx.events) + KindEvents(cfg, Frame(node, ctx.enclosingClassQn))
    ensures d == DescentOf(cfg, node)
  {
    ghost var before, f := ctx.events, Frame(node, ctx.enclosingClassQn);
    if cfg.lang == Elixir && node.data.kind == Call {
      ctx.Emit(ElixirCall, node);
      return Stop;
    }
    if IsPreprocessorLang(cfg.lang) && (node.data.kind == PreprocDef || node.data.kind == PreprocFunctionDef) {
      if cfg.macros {
        ctx.Emit(Macro, node);
      }
      return Stop;
    }
    if cfg.lang == Cfml && node.data.kind == CfFunctionTag {
      ctx.Emit(FunctionTag, node);
      return Same;
    }
    if cfg.lang == GoTemplate && node.data.kind == DefineAction {
      ctx.Emit(Template, node);
      return Same;
    }
    ExtractForms(cfg, ctx, node);
    Assoc(before, FormEvents(cfg, f), PlainEvents(cfg, f));
    d := ExtractPlain(cfg, ctx, node);
  }

  method ExtractForms(cfg: Config, ctx: Context, node: Node)
    modifies ctx`events
    ensures ctx.events == old(ctx.events) + FormEvents(cfg, Frame(node, ctx.enclosingClassQn))
  {
    if (cfg.lang == Clojure || cfg.lang == Racket || cfg.lang == Scheme) &&
        (node.data.kind == ListForm || node.data.kind == ListLit) {
      ctx.Emit(LispForm, node);
    }
    if cfg.lang == Janet && node.data.kind == ParTupLit {
      ctx.Emit(JanetForm, node);
    }
  }

  /** From the function test on. */
  method ExtractPlain(cfg: Config, ctx: Context, node: Node) returns (d: Descent)
    requires !StopsAtCall(cfg, node) && !StopsAtMacro(cfg, node) && !IsFunctionTag(cfg, node) && !IsTemplate(cfg, node)
    modifies ctx`events
    ensures ctx.events == old(ctx.events) + PlainEvents(cfg, Frame(node, ctx.enclosingClassQn))
    ensures d == DescentOf(cfg, node)
  {
    if cfg.lang == Wit && (node.data.kind == ExportItem || node.data.kind == ImportItem) && !node.data.hasFuncType {
      return Same;
    }
    if node.data.kind in cfg.functionKinds {
      if !IsTemplateClass(cfg, node) {
        ctx.Emit(Function, node);
        if !DescendsIntoFunctions(cfg.lang) {
          return Stop;
        }
      }
    }
    if cfg.lang == Rust && node.data.kind == ImplItem {
      ctx.Emit(RustImpl, node);
      return Stop;
    }
    if IsNamespace(cfg, node) {
      return Extended;
    }
    if node.data.kind in cfg.classKinds {
      ctx.Emit(Class, node);
      return IntoClass;
    }
    return Same;
  }

  /** Pushes what a frame is left into. */
  method Descend(cfg: Config, s: WorkStack<Frame>, f: Frame, d: Descent)
    requires s.Valid() && d == DescentOf(cfg, f.node)
    modifies s, s.data
    ensures s.Valid() && (s.data == old(s.data) || fresh(s.data))
    ensures Grew(old(s.View()), s.View(), Reversed(BelowPopped(cfg, f)))
  {
    match d
    case Stop =>
      PushNone(s.View());
      assert Reversed(BelowPopped(cfg, f)) == [];
    case Same =>
      PushReversed(cfg, s, f.node.children, f.scope);
    case Extended =>
      PushReversed(cfg, s, f.node.children, Scoped(cfg, f.node, f.scope));
    case IntoClass =>
      PushClassBody(cfg, s, f.node, Scoped(cfg, f.node, f.scope));
  }

  /** The walk on a stack: what it visits and what it refuses. */
  ghost function Walk(cfg: Config, h: Held<Frame>): (o: Outcome<Frame>) {
    WalksEnd(cfg);
    Run(StackOrder(cfg), FrameSize(), h)
  }

  /** The walk from a root on an empty stack that can hold so many frames. */
  ghost function WalkFrom(cfg: Config, root: Frame, limit: nat): (o: Outcome<Frame>) {
    Walk(cfg, PushAll(Held([], [], limit), [root]))
  }

  /** The height a stack needs to walk a frame. */
  ghost function Height(cfg: Config, f: Frame): (p: nat) {
    WalksEnd(cfg);
    Peak(StackOrder(cfg), FrameSize(), f)
  }

  lemma Turn(cfg: Config, h: Held<Frame>, f: Frame, h': Held<Frame>, h'': Held<Frame>)
    requires h == h'.(contents := h'.contents + [f]) && Grew(h', h'', Reversed(BelowPopped(cfg, f)))
    ensures Walk(cfg, h).visited == [f] + Walk(cfg, h'').visited && Walk(cfg, h).refused == Walk(cfg, h'').refused
    ensures Sum(FrameSize(), h''.contents) < Sum(FrameSize(), h.contents)
  {
    WalksEnd(cfg);
    TurnShrinks(StackOrder(cfg), FrameSize(), h);
    assert AfterTurn(StackOrder(cfg), h) == h'';
  }

  /** Whatever the room, visited and refused parts are exactly the frames of the lexical walk. */
  lemma WalkIsLexical(cfg: Config, root: Frame, limit: nat)
    ensures var o := WalkFrom(cfg, root, limit);
            multiset(o.visited) + multiset(LexicalAll(cfg, o.refused)) == multiset(Lexical(cfg, root))
  {
    WalksEnd(cfg);
    var h := PushAll(Held([], [], limit), [root]);
    RunKeepsWork(StackOrder(cfg), FrameSize(), h);
    PushKeepsWork(StackOrder(cfg), FrameSize(), Held([], [], limit), [root]);
    VisitsOne(StackOrder(cfg), FrameSize(), root);
    PoppedIsLexical(cfg, root);
    forall x: Frame
      ensures multiset(StackOrder(cfg)(x)) == multiset(SourceOrder(cfg)(x))
    {
      BelowAgree(cfg, x);
    }
    SiblingOrderDoesNotMatterAll(StackOrder(cfg), SourceOrder(cfg), FrameSize(),
                                 Run(StackOrder(cfg), FrameSize(), h).refused);
  }

  /**
    Something is refused exactly when the walk needs a higher stack than there is; otherwise it is the
    iterative order itself.
   */
  lemma RefusedIffTooHigh(cfg: Config, root: Frame, limit: nat)
    ensures WalkFrom(cfg, root, limit).refused != [] <==> Height(cfg, root) > limit
    ensures Height(cfg, root) <= limit ==> WalkFrom(cfg, root, limit).visited == Popped(cfg, root)
  {
    WalksEnd(cfg);
    var h := PushAll(Held([], [], limit), [root]);
    ReversedOne(root);
    PushSingle(Held([], [], limit), root);
    PeakOne(StackOrder(cfg), FrameSize(), root);
    VisitsOne(StackOrder(cfg), FrameSize(), root);
    if limit == 0 {
      assert h.refused == [root] && h.contents == [];
      RefusedStays(StackOrder(cfg), FrameSize(), h);
    } else {
      assert h.refused == [] && h.contents == [root];
      RefusedIff(StackOrder(cfg), FrameSize(), h);
      if Height(cfg, root) <= limit {
        RunInOrder(StackOrder(cfg), FrameSize(), h);
      }
    }
  }

  /** No walk needs more frames than the tree has nodes, and the limit is more than half the ceiling. */
  lemma RoomyCeiling(cfg: Config, root: Frame, ceiling: int)
    requires ceiling >= 256 && 2 * Size(root.node) <= ceiling
    ensures Height(cfg, root) <= Limit(ceiling)
  {
    WalksEnd(cfg);
    PeakOne(StackOrder(cfg), FrameSize(), root);
    PeakAtMost(StackOrder(cfg), FrameSize(), [root]);
    assert Sum(FrameSize(), [root][1..]) == 0;
  }

  /** Frames that make up the lexical walk with others: what they extract with what the others extract. */
  lemma EventsSplit(cfg: Config, visited: seq<Frame>, lost: seq<Frame>, all: seq<Frame>)
    requires multiset(visited) + multiset(lost) == multiset(all)
    ensures multiset(Events(cfg, visited)) + multiset(Events(cfg, lost)) == multiset(Events(cfg, all))
  {
    FlatConcat(EventOf(cfg), visited, lost);
    FlatPermute(EventOf(cfg), visited + lost, all);
  }

  ghost function NodeOf(): Frame -> seq<Node> {
    (f: Frame) => [f.node]
  }

  lemma {:induction false} NodesFlat(fs: seq<Frame>)
    ensures Nodes(fs) == Flat(NodeOf(), fs)
  {
    if fs != [] {
      assert Nodes(fs) == [fs[0].node] + Nodes(fs[1..]);
      NodesFlat(fs[1..]);
    }
  }

  lemma NodesBag(a: seq<Frame>, b: seq<Frame>)
    requires multiset(a) <= multiset(b)
    ensures multiset(Nodes(a)) <= multiset(Nodes(b))
  {
    var c := BagRest(a, b);
    NodesFlat(a);
    NodesFlat(b);
    FlatConcat(NodeOf(), a, c);
    FlatPermute(NodeOf(), a + c, b);
  }

  /** Each occurrence of a node in the tree is walked at most once. */
  lemma WalkedAtMostOnce(cfg: Config, f: Frame)
    ensures multiset(Nodes(Lexical(cfg, f))) <= multiset(TreeNodes(f.node))
  {
    WalkedInScope(cfg, f);
    ScopedNodesAreAll(cfg, f.node, f.scope);
    NodesBag(Lexical(cfg, f), ScopedNodes(cfg, f.node, f.scope));
  }

  /** No visited node is visited more often than it occurs in the tree, and each under its scope. */
  lemma VisitedAtMostOnce(cfg: Config, root: Frame, visited: seq<Frame>, lost: seq<Frame>)
    requires multiset(visited) + multiset(lost) == multiset(Lexical(cfg, root))
    ensures multiset(Nodes(visited)) <= multiset(TreeNodes(root.node))
    ensures multiset(visited) <= multiset(ScopedNodes(cfg, root.node, root.scope))
    ensures Distinct(TreeNodes(root.node)) ==> Distinct(Nodes(visited))
  {
    WalkedInScope(cfg, root);
    WalkedAtMostOnce(cfg, root);
    NodesBag(visited, Lexical(cfg, root));
    if Distinct(TreeNodes(root.node)) {
      DistinctWithin(Nodes(visited), TreeNodes(root.node));
    }
  }

  /** The start of the walk: the root on an empty stack, under the scope the context has. */
  method StartWalk(cfg: Config, root: Frame, ceiling: int) returns (s: WorkStack<Frame>)
    ensures fresh(s) && fresh(s.data) && s.Valid() && s.ceiling == ceiling
    ensures s.View() == PushAll(Held([], [], Limit(ceiling)), [root])
  {
    s := new WorkStack<Frame>(ceiling);
    s.Push(root);
  }

  /** One turn of the walk. */
  method WalkNext(cfg: Config, ctx: Context, s: WorkStack<Frame>) returns (frame: Frame)
    requires s.Valid() && s.top > 0
    modifies ctx, s, s.data
    ensures s.Valid() && (s.data == old(s.data) || fresh(s.data))
    ensures old(Walk(cfg, s.View())) == Outcome([frame] + Walk(cfg, s.View()).visited, Walk(cfg, s.View()).refused)
    ensures Sum(FrameSize(), s.View().contents) < old(Sum(FrameSize(), s.View().contents))
    ensures ctx.enclosingClassQn == frame.scope && ctx.events == old(ctx.events) + EventsOf(cfg, frame)
  {
    ghost var h := s.View();
    frame := s.Pop();
    ghost var h' := s.View();
    ctx.enclosingClassQn := frame.scope;
    var d := Extract(cfg, ctx, frame.node);
    Descend(cfg, s, frame, d);
    Turn(cfg, h, frame, h', s.View());
  }

  lemma WalkEnd(cfg: Config, h: Held<Frame>)
    requires h.contents == []
    ensures Walk(cfg, h) == Outcome([], h.refused)
  {
  }

  /** The loop of the walk; what it visits and refuses is what the walk on a stack of the limit of the ceiling does. */
  method WalkTree(cfg: Config, ctx: Context, root: Node, ceiling: int)
    returns (warned: bool, ghost visited: seq<Frame>, ghost refused: seq<Frame>)
    modifies ctx
    ensures Outcome(visited, refused) == WalkFrom(cfg, Frame(root, old(ctx.enclosingClassQn)), Limit(ceiling))
    ensures ctx.events == old(ctx.events) + Events(cfg, visited)
    ensures multiset(visited) + multiset(LexicalAll(cfg, refused)) ==
            multiset(Lexical(cfg, Frame(root, old(ctx.enclosingClassQn))))
    ensures multiset(Events(cfg, visited)) + multiset(Events(cfg, LexicalAll(cfg, refused))) ==
            multiset(Events(cfg, Lexical(cfg, Frame(root, old(ctx.enclosingClassQn)))))
    ensures multiset(visited) <= multiset(ScopedNodes(cfg, root, old(ctx.enclosingClassQn)))
    ensures multiset(Nodes(visited)) <= multiset(TreeNodes(root))
    ensures Distinct(TreeNodes(root)) ==> Distinct(Nodes(visited))
    ensures warned <==> refused != []
    ensures warned <==> Height(cfg, Frame(root, old(ctx.enclosingClassQn))) > Limit(ceiling)
    ensures !warned ==> visited == Popped(cfg, Frame(root, old(ctx.enclosingClassQn)))
  {
    ghost var top, before := Frame(root, ctx.enclosingClassQn), ctx.events;
    var s := StartWalk(cfg, Frame(root, ctx.enclosingClassQn), ceiling);
    ghost var o := Walk(cfg, s.View());
    visited := [];
    while s.top > 0
      invariant s.Valid() && fresh(s) && fresh(s.data)
      invariant o == Outcome(visited + Walk(cfg, s.View()).visited, Walk(cfg, s.View()).refused)
      invariant ctx.events == before + Events(cfg, visited)
      decreases Sum(FrameSize(), s.View().contents)
    {
      ghost var left := Walk(cfg, s.View()).visited;
      var frame := WalkNext(cfg, ctx, s);
      EventsStep(cfg, visited, frame);
      Assoc(before, Events(cfg, visited), EventsOf(cfg, frame));
      Assoc(visited, [frame], Walk(cfg, s.View()).visited);
      visited := visited + [frame];
    }
    WalkEnd(cfg, s.View());
    assert visited + [] == visited;
    warned, refused := s.warned, s.refused;
    WalkIsLexical(cfg, top, Limit(ceiling));
    RefusedIffTooHigh(cfg, top, Limit(ceiling));
    EventsSplit(cfg, visited, LexicalAll(cfg, refused), Lexical(cfg, top));
    VisitedAtMostOnce(cfg, top, visited, LexicalAll(cfg, refused));
  }
  lemma {:induction false} EventsHave(cfg: Config, fs: seq<Frame>, e: Event)
    ensures e in Events(cfg, fs) <==> Frame(e.node, e.scope) in fs && Runs(cfg, e.node, e.rule)
  {
    if fs != [] {
      EventsHave(cfg, fs[1..], e);
      EventsAre(cfg, fs[0], e);
    }
  }

  /** What was visited is reached by the walk under its scope, and without a refusal all of that was visited. */
  lemma VisitedAreReached(cfg: Config, root: Frame, visited: seq<Frame>, lost: seq<Frame>)
    requires multiset(visited) + multiset(lost) == multiset(Lexical(cfg, root))
    ensures forall f :: f in visited ==> ReachedUnder(cfg, root, f)
    ensures lost == [] ==> forall f :: ReachedUnder(cfg, root, f) ==> f in visited
  {
    forall f
      ensures f in visited ==> ReachedUnder(cfg, root, f)
      ensures lost == [] && ReachedUnder(cfg, root, f) ==> f in visited
    {
      WalkedIff(cfg, root, f);
      assert f in visited ==> f in multiset(Lexical(cfg, root));
      assert f in Lexical(cfg, root) ==> f in multiset(Lexical(cfg, root));
      assert lost == [] ==> multiset(visited) + multiset(lost) == multiset(visited);
    }
  }

  /**
    walk_defs: visits and refuses what the walk on a stack of the limit of the ceiling does. Every visited
    frame is reached from the root by a path that the walk takes, under the scope that the names of the
    classes and namespaces on this path make, and just the extractors of its node have run on it.
    Visited frames and those of the refused parts are exactly the frames of the lexical walk, none oftener
    than its node stands in the tree; and a warning is raised exactly when the walk needs a higher stack
    than the ceiling allows. Without one, all that can be reached was visited.
   */
  method WalkDefinitions(cfg: Config, ctx: Context, root: Node, ceiling: int)
    returns (warned: bool, ghost visited: seq<Frame>, ghost refused: seq<Frame>)
    modifies ctx
    ensures forall f :: f in visited ==> ReachedUnder(cfg, Frame(root, old(ctx.enclosingClassQn)), f)
    ensures !warned ==> forall f :: ReachedUnder(cfg, Frame(root, old(ctx.enclosingClassQn)), f) ==> f in visited
    ensures old(ctx.events) <= ctx.events
    ensures forall e :: e in ctx.events[|old(ctx.events)|..] <==>
                        Frame(e.node, e.scope) in visited && Runs(cfg, e.node, e.rule)
    ensures Outcome(visited, refused) == WalkFrom(cfg, Frame(root, old(ctx.enclosingClassQn)), Limit(ceiling))
    ensures ctx.events == old(ctx.events) + Events(cfg, visited)
    ensures multiset(visited) + multiset(LexicalAll(cfg, refused)) ==
            multiset(Lexical(cfg, Frame(root, old(ctx.enclosingClassQn))))
    ensures multiset(Events(cfg, visited)) + multiset(Events(cfg, LexicalAll(cfg, refused))) ==
            multiset(Events(cfg, Lexical(cfg, Frame(root, old(ctx.enclosingClassQn)))))
    ensures multiset(visited) <= multiset(ScopedNodes(cfg, root, old(ctx.enclosingClassQn)))
    ensures multiset(Nodes(visited)) <= multiset(TreeNodes(root))
    ensures Distinct(TreeNodes(root)) ==> Distinct(Nodes(visited))
    ensures warned <==> refused != []
    ensures warned <==> Height(cfg, Frame(root, old(ctx.enclosingClassQn))) > Limit(ceiling)
    ensures !warned ==> visited == Popped(cfg, Frame(root, old(ctx.enclosingClassQn)))
  {
    ghost var top, before := Frame(root, ctx.enclosingClassQn), ctx.events;
    warned, visited, refused := WalkTree(cfg, ctx, root, ceiling);
    VisitedAreReached(cfg, top, visited, LexicalAll(cfg, refused));
    assert ctx.events[|before|..] == Events(cfg, visited);
    forall e
      ensures e in Events(cfg, visited) <==> Frame(e.node, e.scope) in visited && Runs(cfg, e.node, e.rule)
    {
      EventsHave(cfg, visited, e);
    }
  }
}
