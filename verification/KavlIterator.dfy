/** The in-order iterator of kavl.h, and the traversal loop that dump_cache runs with it. */
module KavlIterator {
  import opened KavlTree
  import opened KavlHeight

  /** What is left to visit: each stacked node, then the tree to its right, from the top down. */
  ghost function Pending(stack: seq<Elem>, rights: seq<Tree>): seq<Elem>
    requires |stack| == |rights|
  {
    if stack == [] then []
    else
      var n := |stack| - 1;
      [stack[n]] + Inorder(rights[n]) + Pending(stack[..n], rights[..n])
  }

  /** The stacked nodes with their right subtrees, and the room each leaves on the stack. */
  ghost predicate Stacked(g: Heap, stack: seq<Elem>, rights: seq<Tree>, room: int) {
    && |stack| == |rights|
    && forall i :: 0 <= i < |stack| ==>
      && stack[i] in g
      && Good(g, g[stack[i]].p.r, rights[i]) == true
      && i + 1 + Ht(rights[i]) <= room
  }

  lemma PushPending(stack: seq<Elem>, rights: seq<Tree>, e: Elem, r: Tree)
    requires |stack| == |rights|
    ensures Pending(stack + [e], rights + [r]) == [e] + Inorder(r) + Pending(stack, rights)
  {
    assert (stack + [e])[..|stack|] == stack && (rights + [r])[..|rights|] == rights;
  }

  /** Going left at a node puts it, with its right subtree, in front of what is pending. */
  lemma PushOrder(l: Tree, e: Elem, r: Tree, rest: seq<Elem>)
    ensures Inorder(Node(l, e, r)) + rest == Inorder(l) + ([e] + Inorder(r) + rest)
  {
  }

  /** struct kavl_itr; `stack` holds the entries up to `top`. */
  class Itr {
    var stack: seq<Elem>
    var right: Elem?
    ghost var t: Tree
    ghost var rights: seq<Tree>

    /** The tree has not changed, and the iterator is somewhere in it. */
    ghost predicate Valid()
      reads this, Nodes(t)
    {
      && Stacked(Cells(Nodes(t)), stack, rights, Ht(t))
      && |stack| <= KAVL_MAX_DEPTH
      && (stack != [] ==> right == stack[|stack| - 1].p.r)
    }

    /** The nodes still to come, the current one first. */
    ghost function Rest(): seq<Elem>
      requires Valid()
      reads this, Nodes(t)
    {
      Pending(stack, rights)
    }

    /** `for (p = ..; p; p = p->p[0]) *++top = p` */
    method PushLeft(p0: Elem?, ghost u0: Tree)
      requires Stacked(Cells(Nodes(t)), stack, rights, Ht(t)) && Ht(t) <= 45
      requires Good(Cells(Nodes(t)), p0, u0) == true && |stack| + Ht(u0) <= Ht(t)
      modifies this`stack, this`rights
      ensures Stacked(Cells(Nodes(t)), stack, rights, Ht(t)) && |stack| <= KAVL_MAX_DEPTH
      ensures Pending(stack, rights) == Inorder(u0) + old(Pending(stack, rights))
    {
      hide Nodes, Pending, Ht, Count;
      var p := p0;
      ghost var u, g := u0, Cells(Nodes(t));
      ghost var all := Inorder(u0) + Pending(stack, rights);
      while p != null
        invariant t == old(t) && Cells(Nodes(t)) == g
        invariant Stacked(g, stack, rights, Ht(t)) && Good(g, p, u) == true && |stack| + Ht(u) <= Ht(t)
        invariant Inorder(u) + Pending(stack, rights) == all
        decreases u
      {
        GoodKeys(g, p, u);
        PushPending(stack, rights, p, u.r);
        PushOrder(u.l, u.e, u.r, Pending(stack, rights));
        GoodUnmk(g, false, u.l, u.e, u.r);
        stack, rights := stack + [p], rights + [u.r];
        p, u := p.p.l, u.l;
      }
    }

    /** kavl_itr_first */
    constructor First(root: Elem, ghost tree: Tree)
      requires KavlTree.Valid(root, tree) && Count(tree) < UINT_RANGE
      ensures t == tree && Valid() && Rest() == Inorder(tree)
    {
      hide Count;
      stack, right, t, rights := [], null, tree, [];
      new;
      HeightBound(Cells(Nodes(t)), root, t);
      PushLeft(root, t);
      right := stack[|stack| - 1].p.r;
    }

    /** kavl_at */
    function At(): (e: Elem)
      requires Valid() && Rest() != []
      reads this, Nodes(t)
      ensures e == Rest()[0]
    {
      stack[|stack| - 1]
    }

    /** kavl_itr_next */
    method Next() returns (more: bool)
      requires Valid() && Rest() != [] && Ht(t) <= 45
      modifies this
      ensures t == old(t) && Valid() && Rest() == old(Rest())[1..]
      ensures more <==> Rest() != []
    {
      hide Good, Nodes, Ht, Count, Max;
      var n := |stack| - 1;
      ghost var u := rights[n];
      stack, rights := stack[..n], rights[..n];
      PushLeft(right, u);
      if stack == [] {
        return false;
      }
      right := stack[|stack| - 1].p.r;
      return true;
    }
  }

  /** The traversal of dump_cache: every node once, in order. */
  method Traverse(root: Elem?, ghost t: Tree) returns (out: seq<Elem>)
    requires KavlTree.Valid(root, t) && Count(t) < UINT_RANGE
    ensures out == Inorder(t)
  {
    hide Cells, Nodes, Max, Count;
    out := [];
    if root == null {
      return;
    }
    HeightBound(Cells(Nodes(t)), root, t);
    var itr := new Itr.First(root, t);
    var more := true;
    while more
      invariant itr.t == t && fresh(itr) && itr.Valid()
      invariant out + itr.Rest() == Inorder(t)
      invariant more <==> itr.Rest() != []
      decreases |itr.Rest()|, more
    {
      out := out + [itr.At()];
      more := itr.Next();
    }
  }
}
