/**
  The growable stack of internal/pmm/extract_node_stack.h, over any element type.
 */
module NodeStacks {
  import opened Sequences

  const FIRST_CAP: nat := 512

  // The tail of was from base on is turned round in now.
  lemma ReversedFrom<T>(was: seq<T>, now: seq<T>, base: nat)
    requires base <= |was| == |now| && forall i :: 0 <= i < base ==> now[i] == was[i]
    requires forall i :: base <= i < |was| ==> now[i] == was[base + |was| - 1 - i]
    ensures now == was[..base] + Reversed(was[base..])
  {
  }

  class NodeStack<T(0)> {
    var items: array<T>
    var count: nat

    ghost predicate Valid()
      reads this
    {
      count <= items.Length
    }

    /** The stack from bottom to top. */
    ghost function Contents(): (s: seq<T>)
      requires Valid()
      reads this, items
    {
      items[..count]
    }

    /** ts_nstack_init */
    constructor (initialCap: nat)
      ensures Valid() && fresh(items) && Contents() == [] && items.Length == initialCap
    {
      items := new T[initialCap];
      count := 0;
    }

    /** ts_nstack_push: doubles a full stack into a new block, or starts one of 512. */
    method Push(node: T)
      requires Valid()
      modifies this, items
      ensures Valid() && (items == old(items) || fresh(items))
      ensures Contents() == old(Contents()) + [node]
      ensures items.Length == if old(count) < old(items.Length) then old(items.Length)
                              else if old(items.Length) == 0 then 512 else 2 * old(items.Length)
    {
      if count >= items.Length {
        var cap := if items.Length != 0 then items.Length * 2 else FIRST_CAP;
        var bigger := new T[cap];
        forall i | 0 <= i < count {
          bigger[i] := items[i];
        }
        items := bigger;
      }
      items[count] := node;
      count := count + 1;
    }

    /** ts_nstack_pop */
    method Pop() returns (node: T)
      requires Valid() && Contents() != []
      modifies `count
      ensures Valid()
      ensures Contents() == old(Contents()[..count - 1]) && node == old(Contents()[count - 1])
    {
      count := count - 1;
      node := items[count];
    }

    /** ts_nstack_push_children: pushed forward in one pass, then the new segment is reversed in place. */
    method PushChildren(kids: seq<T>)
      requires Valid()
      modifies this, items
      ensures Valid() && (items == old(items) || fresh(items))
      ensures Contents() == old(Contents()) + Reversed(kids)
    {
      var base := count;
      ghost var before := Contents();
      var k := 0;
      while k < |kids|
        invariant Valid() && (items == old(items) || fresh(items)) && k <= |kids|
        invariant Contents() == before + kids[..k]
      {
        Push(kids[k]);
        k := k + 1;
      }
      assert Contents() == before + kids;
      ReverseFrom(base);
      assert (before + kids)[base..] == kids;
    }

    /** Reverses the entries from base to the top by swaps. */
    method ReverseFrom(base: nat)
      requires Valid() && base <= count
      modifies items
      ensures Valid() && Contents() == old(Contents())[..base] + Reversed(old(Contents())[base..])
    {
      ghost var was := Contents();
      var lo, hi: int := base, count - 1;
      while lo < hi
        invariant base <= lo <= hi + 2 && lo + hi == base + count - 1
        invariant forall i :: 0 <= i < base || lo <= i <= hi ==> items[i] == was[i]
        invariant forall i :: base <= i < lo || hi < i < count ==> items[i] == was[base + count - 1 - i]
      {
        items[lo], items[hi] := items[hi], items[lo];
        lo, hi := lo + 1, hi - 1;
      }
      ReversedFrom(was, Contents(), base);
    }

    /** The loop it replaces: index the children from the last to the first. */
    method PushChildrenIndexed(kids: seq<T>)
      requires Valid()
      modifies this, items
      ensures Valid() && (items == old(items) || fresh(items))
      ensures Contents() == old(Contents()) + Reversed(kids)
    {
      ghost var before := Contents();
      var i: int := |kids|;
      while i > 0
        invariant Valid() && (items == old(items) || fresh(items)) && 0 <= i <= |kids|
        invariant Contents() == before + Reversed(kids)[..|kids| - i]
      {
        i := i - 1;
        Push(kids[i]);
      }
    }
  }
}
