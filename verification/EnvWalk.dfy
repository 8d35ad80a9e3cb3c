/**
  The environment-access walker of internal/pmm/extract_env_accesses.c: an iterative preorder that
  does not look below a hit, on the stack of NodeStacks.
 */
module EnvWalk {
  import opened Sequences
  import opened NodeStacks
  import opened Trees

  const MIN_ENV_NAME_LEN: nat := 2

  /**
    What the walker asks of a syntax node: whether its kind is one of the call kinds or one of the
    member kinds, the key that the call lookup and the member lookup would yield, and the function
    it stands in.
   */
  datatype Info = Info(isCall: bool, isMember: bool, callKey: Option<string>, memberKey: Option<string>, func: string)

  type Node = Tree<Info>

  datatype Access = Access(key: string, func: string)

  predicate IsUpper(c: char) { 'A' <= c <= 'Z' }

  predicate IsNameChar(c: char) { IsUpper(c) || c == '_' || '0' <= c <= '9' }

  /** At least two characters, all of them upper case, digit or underscore, one of them upper case. */
  predicate LooksLikeEnv(s: string) {
    && |s| >= MIN_ENV_NAME_LEN
    && (forall i :: 0 <= i < |s| ==> IsNameChar(s[i]))
    && (exists i :: 0 <= i < |s| && IsUpper(s[i]))
  }

  /** is_env_var_name */
  method IsEnvVarName(s: string) returns (ok: bool)
    ensures ok <==> LooksLikeEnv(s)
    ensures ok <==>
            && |s| >= 2 && (forall i :: 0 <= i < |s| ==> 'A' <= s[i] <= 'Z' || '0' <= s[i] <= '9' || s[i] == '_')
            && exists i :: 0 <= i < |s| && 'A' <= s[i] <= 'Z'
  {
    if |s| < MIN_ENV_NAME_LEN {
      return false;
    }
    var hasUpper := false;
    for i := 0 to |s|
      invariant forall j :: 0 <= j < i ==> IsNameChar(s[j])
      invariant hasUpper <==> exists j :: 0 <= j < i && IsUpper(s[j])
    {
      if IsUpper(s[i]) {
        hasUpper := true;
      } else if s[i] == '_' || '0' <= s[i] <= '9' {
      } else {
        return false;
      }
    }
    ok := hasUpper;
  }

  /** The call lookup is tried on call kinds only, and then the member lookup is not. */
  function Key(n: Node): Option<string> {
    if n.data.isCall then n.data.callKey else if n.data.isMember then n.data.memberKey else None
  }

  predicate IsHit(n: Node) {
    Key(n).Some? && LooksLikeEnv(Key(n).value)
  }

  function HitOf(n: Node): Access
    requires IsHit(n)
  {
    Access(Key(n).value, n.data.func)
  }

  // ----- the recursive walk

  /** Preorder of the nodes looked at: a hit is not looked below. */
  function Visits(n: Node): (vs: seq<Node>)
    decreases n, 0
  {
    [n] + if IsHit(n) then [] else VisitsAll(n.children)
  }

  function VisitsAll(ns: seq<Node>): (vs: seq<Node>)
    decreases ns, 1
  {
    if ns == [] then [] else Visits(ns[0]) + VisitsAll(ns[1..])
  }

  /** The accesses met, in that order. */
  function Emits(n: Node): (es: seq<Access>)
    decreases n, 0
  {
    if IsHit(n) then [HitOf(n)] else EmitsAll(n.children)
  }

  function EmitsAll(ns: seq<Node>): (es: seq<Access>)
    decreases ns, 1
  {
    if ns == [] then [] else Emits(ns[0]) + EmitsAll(ns[1..])
  }

  function Hits(vs: seq<Node>): (es: seq<Access>) {
    if vs == [] then [] else (if IsHit(vs[0]) then [HitOf(vs[0])] else []) + Hits(vs[1..])
  }

  lemma {:induction false} HitsConcat(a: seq<Node>, b: seq<Node>)
    ensures Hits(a + b) == Hits(a) + Hits(b)
  {
    if a == [] {
      assert a + b == b;
    } else {
      assert (a + b)[0] == a[0] && (a + b)[1..] == a[1..] + b;
      HitsConcat(a[1..], b);
    }
  }

  /** What is emitted is what is hit among the nodes visited. */
  lemma {:induction false} EmitsAreHits(n: Node)
    ensures Emits(n) == Hits(Visits(n))
    decreases n, 0
  {
    if IsHit(n) {
      assert Visits(n) == [n];
      assert Hits([]) == [];
    } else {
      EmitsAllAreHits(n.children);
      assert Visits(n)[1..] == VisitsAll(n.children);
    }
  }

  lemma {:induction false} EmitsAllAreHits(ns: seq<Node>)
    ensures EmitsAll(ns) == Hits(VisitsAll(ns))
    decreases ns, 1
  {
    if ns != [] {
      EmitsAreHits(ns[0]);
      EmitsAllAreHits(ns[1..]);
      HitsConcat(Visits(ns[0]), VisitsAll(ns[1..]));
    }
  }

  // ----- what pruning leaves out

  /** Every hit of the tree in source order, nested ones included. */
  function AllHits(n: Node): (es: seq<Access>)
    decreases n, 0
  {
    (if IsHit(n) then [HitOf(n)] else []) + AllHitsAll(n.children)
  }

  function AllHitsAll(ns: seq<Node>): (es: seq<Access>)
    decreases ns, 1
  {
    if ns == [] then [] else AllHits(ns[0]) + AllHitsAll(ns[1..])
  }

  predicate NoNestedHits(n: Node)
    decreases n, 0
  {
    if IsHit(n) then AllHitsAll(n.children) == [] else NoNestedHitsAll(n.children)
  }

  predicate NoNestedHitsAll(ns: seq<Node>)
    decreases ns, 1
  {
    ns == [] || (NoNestedHits(ns[0]) && NoNestedHitsAll(ns[1..]))
  }

  /** Pruning loses nothing exactly when no hit stands below another. */
  lemma {:induction false} PruningIsExactIff(n: Node)
    ensures |Emits(n)| <= |AllHits(n)|
    ensures Emits(n) == AllHits(n) <==> NoNestedHits(n)
    ensures |Emits(n)| == |AllHits(n)| ==> Emits(n) == AllHits(n)
    decreases n, 0
  {
    PruningIsExactIffAll(n.children);
  }

  lemma {:induction false} PruningIsExactIffAll(ns: seq<Node>)
    ensures |EmitsAll(ns)| <= |AllHitsAll(ns)|
    ensures EmitsAll(ns) == AllHitsAll(ns) <==> NoNestedHitsAll(ns)
    ensures |EmitsAll(ns)| == |AllHitsAll(ns)| ==> EmitsAll(ns) == AllHitsAll(ns)
    decreases ns, 1
  {
    if ns != [] {
      PruningIsExactIff(ns[0]);
      PruningIsExactIffAll(ns[1..]);
    }
  }

  /** A call that reads HOME, around a member access that reads PATH: only HOME is emitted. */
  lemma NestedHitIsLost()
    ensures var inner := Tree(Info(false, true, None, Some("PATH"), "main"), []);
            var outer := Tree(Info(true, false, Some("HOME"), None, "main"), [inner]);
            Emits(outer) == [Access("HOME", "main")] &&
                AllHits(outer) == [Access("HOME", "main"), Access("PATH", "main")]
  {
    var inner := Tree(Info(false, true, None, Some("PATH"), "main"), []);
    var outer := Tree(Info(true, false, Some("HOME"), None, "main"), [inner]);
    UpperName("PATH");
    UpperName("HOME");
    assert AllHits(inner) == [Access("PATH", "main")] + [];
    assert [inner][1..] == [] && AllHitsAll([]) == [];
    assert AllHitsAll([inner]) == [Access("PATH", "main")] + [];
  }

  lemma UpperName(s: string)
    requires |s| >= MIN_ENV_NAME_LEN && forall i :: 0 <= i < |s| ==> IsUpper(s[i])
    ensures LooksLikeEnv(s)
  {
    assert IsUpper(s[0]);
  }

  // ----- the iterative walk

  lemma {:induction false} VisitsConcat(a: seq<Node>, b: seq<Node>)
    ensures VisitsAll(a + b) == VisitsAll(a) + VisitsAll(b)
  {
    if a == [] {
      assert a + b == b;
    } else {
      assert (a + b)[0] == a[0] && (a + b)[1..] == a[1..] + b;
      VisitsConcat(a[1..], b);
    }
  }

  lemma {:induction false} EmitsConcat(a: seq<Node>, b: seq<Node>)
    ensures EmitsAll(a + b) == EmitsAll(a) + EmitsAll(b)
  {
    if a == [] {
      assert a + b == b;
    } else {
      assert (a + b)[0] == a[0] && (a + b)[1..] == a[1..] + b;
      EmitsConcat(a[1..], b);
    }
  }

  /** What is done so far and what the pending nodes will do make up the recursive walk. */
  ghost predicate Progress(root: Node, out: seq<Access>, visited: seq<Node>, pending: seq<Node>) {
    out + EmitsAll(pending) == Emits(root) && visited + VisitsAll(pending) == Visits(root)
  }

  lemma Unfold(n: Node, rest: seq<Node>)
    ensures EmitsAll([n] + rest) == Emits(n) + EmitsAll(rest)
    ensures VisitsAll([n] + rest) == Visits(n) + VisitsAll(rest)
    ensures SizeAll([n] + rest) == Size(n) + SizeAll(rest)
  {
    assert ([n] + rest)[0] == n && ([n] + rest)[1..] == rest;
  }

  // One turn of the loop, on the nodes still pending: a hit, or the children of a node that is none.
  lemma TurnHit(root: Node, out: seq<Access>, visited: seq<Node>, n: Node, rest: seq<Node>)
    requires Progress(root, out, visited, [n] + rest) && IsHit(n)
    ensures Progress(root, out + [HitOf(n)], visited + [n], rest)
    ensures SizeAll(rest) < SizeAll([n] + rest)
  {
    Unfold(n, rest);
    Assoc(out, [HitOf(n)], EmitsAll(rest));
    assert Visits(n) == [n];
    Assoc(visited, [n], VisitsAll(rest));
  }

  lemma TurnBelow(root: Node, out: seq<Access>, visited: seq<Node>, n: Node, rest: seq<Node>)
    requires Progress(root, out, visited, [n] + rest) && !IsHit(n)
    ensures Progress(root, out, visited + [n], n.children + rest)
    ensures SizeAll(n.children + rest) < SizeAll([n] + rest)
  {
    Unfold(n, rest);
    SizeConcat(n.children, rest);
    VisitsConcat(n.children, rest);
    EmitsConcat(n.children, rest);
    Assoc([n], VisitsAll(n.children), VisitsAll(rest));
    Assoc(visited, [n], VisitsAll(n.children + rest));
  }

  lemma Starting(root: Node)
    ensures Progress(root, [], [], [root])
  {
    Unfold(root, []);
    assert [root] + [] == [root];
  }

  /** The key of a node, when it names an environment variable. */
  method FindHit(node: Node) returns (hit: Option<Access>)
    ensures hit == if IsHit(node) then Some(HitOf(node)) else None
    ensures node.data.isCall ==>
              (hit.Some? <==> node.data.callKey.Some? && LooksLikeEnv(node.data.callKey.value)) &&
              (hit.Some? ==> hit.value == Access(node.data.callKey.value, node.data.func))
    ensures !node.data.isCall && node.data.isMember ==>
              (hit.Some? <==> node.data.memberKey.Some? && LooksLikeEnv(node.data.memberKey.value)) &&
              (hit.Some? ==> hit.value == Access(node.data.memberKey.value, node.data.func))
    ensures !node.data.isCall && !node.data.isMember ==> hit.None?
  {
    var key := if node.data.isCall then node.data.callKey else if node.data.isMember then node.data.memberKey else None;
    hit := None;
    if key.Some? && |key.value| > 0 {
      var named := IsEnvVarName(key.value);
      if named {
        hit := Some(Access(key.value, node.data.func));
      }
    }
  }

  /** One turn: a hit is emitted, or the children of the node on top go on the stack. */
  method Turn(stack: NodeStack<Node>, out: seq<Access>, ghost root: Node, ghost visited: seq<Node>,
              ghost pending: seq<Node>)
    returns (out': seq<Access>, ghost visited': seq<Node>, ghost pending': seq<Node>)
    requires stack.Valid() && stack.count > 0 && stack.Contents() == Reversed(pending)
    requires Progress(root, out, visited, pending)
    modifies stack, stack.items
    ensures stack.Valid() && (stack.items == old(stack.items) || fresh(stack.items))
    ensures stack.Contents() == Reversed(pending') && Progress(root, out', visited', pending')
    ensures SizeAll(pending') < SizeAll(pending)
  {
    ghost var rest := pending[1..];
    assert pending == [pending[0]] + rest;
    ReversedFirst(pending);
    var node := stack.Pop();
    var hit := FindHit(node);
    visited' := visited + [node];
    if hit.Some? {
      TurnHit(root, out, visited, node, rest);
      out', pending' := out + [hit.value], rest;
    } else {
      TurnBelow(root, out, visited, node, rest);
      ReversedConcat(node.children, rest);
      stack.PushChildren(node.children);
      out', pending' := out, node.children + rest;
    }
  }

  lemma Finished(root: Node, out: seq<Access>, visited: seq<Node>)
    requires Progress(root, out, visited, [])
    ensures out == Emits(root) && visited == Visits(root)
  {
    assert EmitsAll([]) == [] && VisitsAll([]) == [];
  }

  /**
    walk_env_accesses: emits exactly what the recursive walk emits, and looks at exactly the nodes it
    looks at, in the same order.
   */
  method Walk(root: Node) returns (out: seq<Access>, ghost visited: seq<Node>)
    ensures out == Emits(root) && visited == Visits(root)
  {
    var stack := new NodeStack<Node>(4096);
    stack.Push(root);
    out, visited := [], [];
    ghost var pending := [root];
    Starting(root);
    while stack.count > 0
      invariant stack.Valid() && fresh(stack) && fresh(stack.items)
      invariant stack.Contents() == Reversed(pending) && Progress(root, out, visited, pending)
      decreases SizeAll(pending)
    {
      out, visited, pending := Turn(stack, out, root, visited, pending);
    }
    Finished(root, out, visited);
  }
}
