/**
  Which nodes the definition walk of internal/pmm/extract_defs.c reaches at all, said by the path that
  leads to a node from the root.
 */
module WalkPaths {
  import opened Sequences
  import opened Trees
  import opened WalkDefs

  // ----- what the walk does at a node, by language and kind

  /** It goes on into the children under the same scope, whatever else the node is. */
  predicate PassedThrough(cfg: Config, n: Node) {
    || (cfg.lang == Cfml && n.data.kind == CfFunctionTag)
    || (cfg.lang == GoTemplate && n.data.kind == DefineAction)
    || (cfg.lang == Wit && n.data.kind in {ExportItem, ImportItem} && !n.data.hasFuncType)
  }

  predicate IsCall(cfg: Config, n: Node) {
    cfg.lang == Elixir && n.data.kind == Call
  }

  predicate IsMacro(cfg: Config, n: Node) {
    cfg.lang in {C, Cpp, Cuda, Glsl, ObjC, Ispc} && n.data.kind in {PreprocDef, PreprocFunctionDef}
  }

  predicate IsFunction(cfg: Config, n: Node) {
    && n.data.kind in cfg.functionKinds
    && !(cfg.lang in {Cpp, Cuda} && n.data.kind == TemplateDeclaration &&
         exists i :: 0 <= i < |n.children| && n.children[i].data.named &&
                     n.children[i].data.kind in {ClassSpecifier, StructSpecifier, UnionSpecifier})
  }

  predicate IsNamedSpace(cfg: Config, n: Node) {
    cfg.lang in {Cpp, Cuda} && n.data.kind == NamespaceDefinition
  }

  /** Nothing below the node is walked. */
  predicate Ends(cfg: Config, n: Node) {
    || IsCall(cfg, n) || IsMacro(cfg, n)
    || (!PassedThrough(cfg, n) &&
        ((IsFunction(cfg, n) && cfg.lang !in {Wolfram, TypeScript, JavaScript, Tsx, Ada}) ||
         (cfg.lang == Rust && n.data.kind == ImplItem)))
  }

  /** A class, whose body alone is looked into. */
  predicate HoldsClasses(cfg: Config, n: Node) {
    !PassedThrough(cfg, n) && !IsNamedSpace(cfg, n) && n.data.kind in cfg.classKinds
  }

  predicate IsClassBody(cfg: Config, n: Node) {
    || n.data.kind in {FieldDeclarationList, ClassBody, DeclarationList, Body, Block, Suite}
    || (n.data.kind == Closure && cfg.lang == Groovy)
  }

  predicate HasBody(cfg: Config, n: Node) {
    exists i :: 0 <= i < |n.children| && IsClassBody(cfg, n.children[i])
  }

  /** Child i is the first body. */
  predicate BodyAt(cfg: Config, n: Node, i: nat) {
    i < |n.children| && IsClassBody(cfg, n.children[i]) && forall j :: 0 <= j < i ==> !IsClassBody(cfg, n.children[j])
  }

  /** Which extractors run on a node. */
  predicate Runs(cfg: Config, n: Node, rule: Rule) {
    match rule
    case Recover => cfg.lang == Kotlin && n.data.kind == ErrorNode
    case ElixirCall => IsCall(cfg, n)
    case Macro => IsMacro(cfg, n) && cfg.macros
    case FunctionTag => cfg.lang == Cfml && n.data.kind == CfFunctionTag
    case Template => cfg.lang == GoTemplate && n.data.kind == DefineAction
    case LispForm => cfg.lang in {Clojure, Racket, Scheme} && n.data.kind in {ListForm, ListLit}
    case JanetForm => cfg.lang == Janet && n.data.kind == ParTupLit
    case Function => IsFunction(cfg, n) && !IsCall(cfg, n) && !IsMacro(cfg, n) && !PassedThrough(cfg, n)
    case RustImpl => cfg.lang == Rust && n.data.kind == ImplItem && !IsFunction(cfg, n)
    case Class => HoldsClasses(cfg, n) && !Ends(cfg, n)
  }

  // ----- paths

  /**
    The walk takes the path p of child positions from n, and it leads to m. It goes on nowhere below a
    node that ends it, and below a class with a body only in the first one.
   */
  predicate Reaches(cfg: Config, n: Node, p: seq<nat>, m: Node)
    decreases |p|
  {
    if p == [] then n == m
    else
      && p[0] < |n.children| && !Ends(cfg, n)
      && if HoldsClasses(cfg, n) && HasBody(cfg, n)
         then BodyAt(cfg, n, p[0]) && ReachesNested(cfg, n.children[p[0]], p[1..], m)
         else Reaches(cfg, n.children[p[0]], p[1..], m)
  }

  /** In a class body it looks for classes, and below wrappers only. */
  predicate ReachesNested(cfg: Config, n: Node, p: seq<nat>, m: Node)
    decreases |p|
  {
    && p != [] && p[0] < |n.children|
    && var c := n.children[p[0]];
       if c.data.kind in cfg.classKinds then Reaches(cfg, c, p[1..], m)
       else c.data.kind in {FieldDeclaration, TemplateDeclaration, Declaration} && ReachesNested(cfg, c, p[1..], m)
  }

  /** The name that a class or namespace adds to the scope of what is below it, if it has one. */
  function OwnName(cfg: Config, n: Node): (ns: seq<string>) {
    if (IsNamedSpace(cfg, n) || HoldsClasses(cfg, n)) && n.data.scopeName.Some? && n.data.scopeName.value != ""
    then [n.data.scopeName.value] else []
  }

  /** The names of the classes and namespaces on a path, above its end, the outermost first. */
  function NamesAlong(cfg: Config, n: Node, p: seq<nat>): (ns: seq<string>)
    decreases |p|
  {
    if p == [] || p[0] >= |n.children| then []
    else
      OwnName(cfg, n) +
      if HoldsClasses(cfg, n) && HasBody(cfg, n) then NamesNested(cfg, n.children[p[0]], p[1..])
      else NamesAlong(cfg, n.children[p[0]], p[1..])
  }

  /** In a class body the body itself and the wrappers add none. */
  function NamesNested(cfg: Config, n: Node, p: seq<nat>): (ns: seq<string>)
    decreases |p|
  {
    if p == [] || p[0] >= |n.children| then []
    else
      var c := n.children[p[0]];
      if c.data.kind in cfg.classKinds then NamesAlong(cfg, c, p[1..]) else NamesNested(cfg, c, p[1..])
  }

  /** Names behind a qualified name, each after a dot. */
  function Dots(names: seq<string>): (s: string) {
    if names == [] then "" else "." + names[0] + Dots(names[1..])
  }

  /** The qualified name that names opened one in another make of the scope they stand in. */
  function Dotted(cfg: Config, scope: Option<string>, names: seq<string>): Option<string> {
    if names == [] then scope
    else match scope
         case Some(s) => Some(s + Dots(names))
         case None => Some(cfg.topName(names[0]) + Dots(names[1..]))
  }

  /** The walk from f takes some path to the node of g, and the names on it make the scope of g. */
  ghost predicate ReachedUnder(cfg: Config, f: Frame, g: Frame) {
    exists p :: Reaches(cfg, f.node, p, g.node) && g.scope == Dotted(cfg, f.scope, NamesAlong(cfg, f.node, p))
  }

  // ----- the same as the recursion does it

  lemma DescentIs(cfg: Config, n: Node)
    ensures DescentOf(cfg, n) == if Ends(cfg, n) then Stop
                                 else if PassedThrough(cfg, n) then Same
                                 else if IsNamedSpace(cfg, n) then Extended
                                 else if HoldsClasses(cfg, n) then IntoClass else Same
  {
  }

  lemma BodyIs(cfg: Config, n: Node)
    ensures HasBody(cfg, n) <==> BodyIndex(cfg, n.children) < |n.children|
    ensures HasBody(cfg, n) ==> forall i :: BodyAt(cfg, n, i) <==> i == BodyIndex(cfg, n.children)
  {
    assert forall c :: IsClassBody(cfg, c) <==> IsBody(cfg, c);
  }

  lemma {:induction false} DotsConcat(a: seq<string>, b: seq<string>)
    ensures Dots(a + b) == Dots(a) + Dots(b)
  {
    if a == [] {
      assert a + b == b;
    } else {
      assert (a + b)[0] == a[0] && (a + b)[1..] == a[1..] + b;
      DotsConcat(a[1..], b);
    }
  }

  lemma DottedTwice(cfg: Config, scope: Option<string>, a: seq<string>, b: seq<string>)
    ensures Dotted(cfg, Dotted(cfg, scope, a), b) == Dotted(cfg, scope, a + b)
  {
    if a == [] {
      assert a + b == b;
    } else if b == [] {
      assert a + b == a;
    } else {
      assert (a + b)[0] == a[0] && (a + b)[1..] == a[1..] + b;
      match scope
      case Some(s) =>
        DotsConcat(a, b);
        Assoc(s, Dots(a), Dots(b));
      case None =>
        DotsConcat(a[1..], b);
        Assoc(cfg.topName(a[0]), Dots(a[1..]), Dots(b));
    }
  }

  /** What a frame is left into has its scope and its own name. */
  lemma BelowScope(cfg: Config, f: Frame, g: Frame)
    requires g in Below(cfg, f)
    ensures g.scope == Dotted(cfg, f.scope, OwnName(cfg, f.node))
  {
    DescentIs(cfg, f.node);
    if IsNamedSpace(cfg, f.node) || HoldsClasses(cfg, f.node) {
      ScopedIs(cfg, f.node, f.scope);
    }
  }

  lemma ScopedIs(cfg: Config, n: Node, scope: Option<string>)
    requires IsNamedSpace(cfg, n) || HoldsClasses(cfg, n)
    ensures Scoped(cfg, n, scope) == Dotted(cfg, scope, OwnName(cfg, n))
  {
    if OwnName(cfg, n) != [] {
      var name := n.data.scopeName.value;
      assert [name][1..] == [] && Dots([]) == "";
      assert Dots([name]) == "." + name;
      match scope
      case Some(s) => Assoc(s, ".", name);
      case None => assert cfg.topName(name) + Dots([]) == cfg.topName(name);
    }
  }

  lemma Nested(cfg: Config, ns: seq<Node>, c: Node) returns (i: nat)
    requires c in NestedClasses(cfg, ns)
    ensures i < |ns|
    ensures if IsClass(cfg, ns[i]) then c == ns[i] else IsWrapper(ns[i]) && c in NestedClasses(cfg, ns[i].children)
  {
    if (IsClass(cfg, ns[0]) && c == ns[0]) ||
       (!IsClass(cfg, ns[0]) && IsWrapper(ns[0]) && c in NestedClasses(cfg, ns[0].children)) {
      i := 0;
    } else {
      i := Nested(cfg, ns[1..], c);
      i := i + 1;
    }
  }

  lemma {:induction false} IsNested(cfg: Config, ns: seq<Node>, i: nat, c: Node)
    requires i < |ns|
    requires if IsClass(cfg, ns[i]) then c == ns[i] else IsWrapper(ns[i]) && c in NestedClasses(cfg, ns[i].children)
    ensures c in NestedClasses(cfg, ns)
  {
    if i > 0 {
      IsNested(cfg, ns[1..], i - 1, c);
    }
  }

  lemma Walked(cfg: Config, fs: seq<Frame>, g: Frame) returns (f: Frame)
    requires g in LexicalAll(cfg, fs)
    ensures f in fs && g in Lexical(cfg, f)
  {
    if g in Lexical(cfg, fs[0]) {
      f := fs[0];
    } else {
      f := Walked(cfg, fs[1..], g);
    }
  }

  lemma {:induction false} IsWalked(cfg: Config, fs: seq<Frame>, f: Frame, g: Frame)
    requires f in fs && g in Lexical(cfg, f)
    ensures g in LexicalAll(cfg, fs)
  {
    if f != fs[0] {
      IsWalked(cfg, fs[1..], f, g);
    }
  }

  lemma PathToNested(cfg: Config, n: Node, c: Node, q: seq<nat>, m: Node) returns (p: seq<nat>)
    requires c in NestedClasses(cfg, n.children) && Reaches(cfg, c, q, m)
    ensures ReachesNested(cfg, n, p, m) && NamesNested(cfg, n, p) == NamesAlong(cfg, c, q)
    decreases n
  {
    var i := Nested(cfg, n.children, c);
    if IsClass(cfg, n.children[i]) {
      p := [i] + q;
    } else {
      p := PathToNested(cfg, n.children[i], c, q, m);
      p := [i] + p;
    }
  }

  lemma PathFromNested(cfg: Config, n: Node, p: seq<nat>, m: Node) returns (c: Node, q: seq<nat>)
    requires ReachesNested(cfg, n, p, m)
    ensures c in NestedClasses(cfg, n.children) && Reaches(cfg, c, q, m) && |q| < |p|
    ensures NamesNested(cfg, n, p) == NamesAlong(cfg, c, q)
    decreases |p|
  {
    c, q := n.children[p[0]], p[1..];
    if !IsClass(cfg, c) {
      c, q := PathFromNested(cfg, c, q, m);
    }
    IsNested(cfg, n.children, p[0], c);
  }

  lemma SizeOfMember(fs: seq<Frame>, f: Frame)
    requires f in fs
    ensures Size(f.node) <= SizeAll(Nodes(fs))
  {
    var i: nat :| i < |fs| && fs[i] == f;
    SizeMember(Nodes(fs), i);
  }

  lemma PathThroughBody(cfg: Config, f: Frame, n: Node, q: seq<nat>, m: Node) returns (p: seq<nat>)
    requires !Ends(cfg, f.node) && HoldsClasses(cfg, f.node) && HasBody(cfg, f.node)
    requires n in ClassNodes(cfg, f.node) && Reaches(cfg, n, q, m)
    ensures Reaches(cfg, f.node, p, m) && NamesAlong(cfg, f.node, p) == OwnName(cfg, f.node) + NamesAlong(cfg, n, q)
  {
    var body := BodyIndex(cfg, f.node.children);
    BodyIs(cfg, f.node);
    var r := PathToNested(cfg, f.node.children[body], n, q, m);
    p := [body] + r;
    assert p[0] == body && p[1..] == r;
  }

  lemma PathThroughChild(cfg: Config, f: Frame, n: Node, q: seq<nat>, m: Node) returns (p: seq<nat>)
    requires !Ends(cfg, f.node) && !(HoldsClasses(cfg, f.node) && HasBody(cfg, f.node))
    requires n in f.node.children && Reaches(cfg, n, q, m)
    ensures Reaches(cfg, f.node, p, m) && NamesAlong(cfg, f.node, p) == OwnName(cfg, f.node) + NamesAlong(cfg, n, q)
  {
    var i: nat :| i < |f.node.children| && f.node.children[i] == n;
    p := [i] + q;
    assert p[0] == i && p[1..] == q;
  }

  lemma PathThrough(cfg: Config, f: Frame, n: Node, q: seq<nat>, m: Node) returns (p: seq<nat>)
    requires n in Nodes(Below(cfg, f)) && Reaches(cfg, n, q, m)
    ensures Reaches(cfg, f.node, p, m) && NamesAlong(cfg, f.node, p) == OwnName(cfg, f.node) + NamesAlong(cfg, n, q)
  {
    BelowNodes(cfg, f);
    DescentIs(cfg, f.node);
    BodyIs(cfg, f.node);
    if HoldsClasses(cfg, f.node) && HasBody(cfg, f.node) {
      p := PathThroughBody(cfg, f, n, q, m);
    } else {
      p := PathThroughChild(cfg, f, n, q, m);
    }
  }

  lemma PathTo(cfg: Config, f: Frame, g: Frame) returns (p: seq<nat>)
    requires g in Lexical(cfg, f)
    ensures Reaches(cfg, f.node, p, g.node) && g.scope == Dotted(cfg, f.scope, NamesAlong(cfg, f.node, p))
    decreases Size(f.node)
  {
    if g == f {
      return [];
    }
    var h := Walked(cfg, Below(cfg, f), g);
    BelowSmaller(cfg, f);
    SizeOfMember(Below(cfg, f), h);
    BelowScope(cfg, f, h);
    var q := PathTo(cfg, h, g);
    p := PathThrough(cfg, f, h.node, q, g.node);
    DottedTwice(cfg, f.scope, OwnName(cfg, f.node), NamesAlong(cfg, h.node, q));
  }

  // The first step of a path, and what is left of it.
  lemma StepFrom(cfg: Config, f: Frame, p: seq<nat>, m: Node) returns (h: Frame, q: seq<nat>)
    requires p != [] && Reaches(cfg, f.node, p, m)
    ensures h in Below(cfg, f) && Reaches(cfg, h.node, q, m) && |q| < |p|
    ensures NamesAlong(cfg, f.node, p) == OwnName(cfg, f.node) + NamesAlong(cfg, h.node, q)
  {
    DescentIs(cfg, f.node);
    BodyIs(cfg, f.node);
    var n := f.node.children[p[0]];
    q := p[1..];
    if HoldsClasses(cfg, f.node) && HasBody(cfg, f.node) {
      n, q := PathFromNested(cfg, n, q, m);
    }
    BelowNodes(cfg, f);
    var i: nat :| i < |Below(cfg, f)| && Nodes(Below(cfg, f))[i] == n;
    h := Below(cfg, f)[i];
  }

  lemma {:induction false} PathFrom(cfg: Config, f: Frame, p: seq<nat>, g: Frame)
    requires Reaches(cfg, f.node, p, g.node) && g.scope == Dotted(cfg, f.scope, NamesAlong(cfg, f.node, p))
    ensures g in Lexical(cfg, f)
    decreases |p|
  {
    if p != [] {
      var h, q := StepFrom(cfg, f, p, g.node);
      BelowScope(cfg, f, h);
      DottedTwice(cfg, f.scope, OwnName(cfg, f.node), NamesAlong(cfg, h.node, q));
      PathFrom(cfg, h, q, g);
      IsWalked(cfg, Below(cfg, f), h, g);
    }
  }

  lemma {:induction false} WalkedIsReached(cfg: Config, f: Frame, g: Frame)
    requires g in Lexical(cfg, f)
    ensures ReachedUnder(cfg, f, g)
  {
    var p := PathTo(cfg, f, g);
  }

  lemma {:induction false} ReachedIsWalked(cfg: Config, f: Frame, g: Frame)
    requires ReachedUnder(cfg, f, g)
    ensures g in Lexical(cfg, f)
  {
    var p :| Reaches(cfg, f.node, p, g.node) && g.scope == Dotted(cfg, f.scope, NamesAlong(cfg, f.node, p));
    PathFrom(cfg, f, p, g);
  }

  /**
    A node of the tree is walked exactly when the walk takes some path to it, under the scope that the
    names on the path make. So what stands below a function, beside the body of a class, or in a class
    body below anything but wrappers is not.
   */
  lemma {:induction false} WalkedIff(cfg: Config, f: Frame, g: Frame)
    ensures g in Lexical(cfg, f) <==> ReachedUnder(cfg, f, g)
  {
    if g in Lexical(cfg, f) {
      WalkedIsReached(cfg, f, g);
    } else if ReachedUnder(cfg, f, g) {
      ReachedIsWalked(cfg, f, g);
    }
  }

  // ----- what is extracted

  /** The event is the run of an extractor of its node on the frame. */
  predicate IsRun(cfg: Config, f: Frame, e: Event) {
    e.node == f.node && e.scope == f.scope && Runs(cfg, f.node, e.rule)
  }

  lemma {:induction false} PlainAre(cfg: Config, f: Frame, e: Event)
    requires !IsCall(cfg, f.node) && !IsMacro(cfg, f.node) && !IsFunctionTag(cfg, f.node) && !IsTemplate(cfg, f.node)
    ensures e in PlainEvents(cfg, f) <==>
            IsRun(cfg, f, e) && (e.rule == Function || e.rule == RustImpl || e.rule == Class)
  {
    assert IsFunction(cfg, f.node) <==> RunsFunction(cfg, f.node);
    assert IsPlainWitItem(cfg, f.node) <==> PassedThrough(cfg, f.node);
    if !IsPlainWitItem(cfg, f.node) && IsFunction(cfg, f.node) && !DescendsIntoFunctions(cfg.lang) {
      assert PlainEvents(cfg, f) == [Event(Function, f.node, f.scope)];
    }
  }

  lemma {:induction false} PlainOnce(cfg: Config, f: Frame)
    ensures Distinct(PlainEvents(cfg, f)) && |PlainEvents(cfg, f)| <= 2
    ensures forall e :: e in PlainEvents(cfg, f) ==> e.rule == Function || e.rule == RustImpl || e.rule == Class
  {
  }

  lemma {:induction false} FormsAre(cfg: Config, f: Frame, e: Event)
    ensures e in FormEvents(cfg, f) <==> IsRun(cfg, f, e) && (e.rule == LispForm || e.rule == JanetForm)
    ensures Distinct(FormEvents(cfg, f))
  {
  }

  lemma {:induction false} KindsAre(cfg: Config, f: Frame, e: Event)
    ensures e in KindEvents(cfg, f) <==> IsRun(cfg, f, e) && e.rule != Recover
  {
    if !IsCall(cfg, f.node) && !IsMacro(cfg, f.node) && !IsFunctionTag(cfg, f.node) && !IsTemplate(cfg, f.node) {
      PlainAre(cfg, f, e);
      FormsAre(cfg, f, e);
    }
  }

  lemma {:induction false} KindsOnce(cfg: Config, f: Frame)
    ensures Distinct(KindEvents(cfg, f)) && forall e :: e in KindEvents(cfg, f) ==> e.rule != Recover
  {
    PlainOnce(cfg, f);
  }

  /** On a frame exactly the extractors of its node run, each once and under its scope. */
  lemma {:induction false} EventsAre(cfg: Config, f: Frame, e: Event)
    ensures e in EventsOf(cfg, f) <==> IsRun(cfg, f, e)
    ensures Distinct(EventsOf(cfg, f))
  {
    KindsAre(cfg, f, e);
    KindsOnce(cfg, f);
  }
}
