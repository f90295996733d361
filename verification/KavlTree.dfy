/**
  The intrusive AVL tree of kavl.h: its nodes on the heap, the mathematical tree they
  represent, and the root-to-node paths that every operation walks.

  A direction is a `bool`: false is child 0 (left), true is child 1 (right).
*/
module KavlTree {
  import opened Keys

  /** The `p[2]` array of a node. */
  datatype Kids = Kids(l: Elem?, r: Elem?) {
    function At(d: bool): Elem? {
      if d then r else l
    }

    function With(d: bool, v: Elem?): Kids {
      if d then Kids(l, v) else Kids(v, r)
    }
  }

  /** A `struct elem`: its key never changes, its `head` is rewritten in place. */
  class Elem {
    const key: Key
    var p: Kids
    var balance: int
    var size: nat

    constructor (key: Key)
      ensures this.key == key
      ensures p == Kids(null, null) && balance == 0 && size == 0
    {
      this.key := key;
      p, balance, size := Kids(null, null), 0, 0;
    }
  }

  /** The tree that a root pointer stands for. */
  datatype Tree = Leaf | Node(l: Tree, e: Elem, r: Tree)

  ghost function Inorder(t: Tree): seq<Elem> {
    match t
    case Leaf => []
    case Node(l, e, r) => Inorder(l) + [e] + Inorder(r)
  }

  ghost function Nodes(t: Tree): set<Elem> {
    match t
    case Leaf => {}
    case Node(l, e, r) => Nodes(l) + {e} + Nodes(r)
  }

  ghost function Count(t: Tree): nat {
    match t
    case Leaf => 0
    case Node(l, _, r) => Count(l) + 1 + Count(r)
  }

  ghost function Max(a: int, b: int): int {
    if a < b then b else a
  }

  ghost function Ht(t: Tree): nat {
    match t
    case Leaf => 0
    case Node(l, _, r) => 1 + Max(Ht(l), Ht(r))
  }

  /** Node count and height of a node over a subtree of `c` nodes and height `ht` and `sib`. */
  ghost function CountUp(c: int, sib: Tree): int {
    1 + c + Count(sib)
  }

  ghost function HtUp(ht: int, sib: Tree): int {
    1 + Max(ht, Ht(sib))
  }

  /** The node `e` with `t` on side `d` and `sib` on the other side. */
  ghost function Mk(d: bool, t: Tree, e: Elem, sib: Tree): (m: Tree)
    ensures m.Node? && m.e == e && Count(m) == CountUp(Count(t), sib)
    ensures Ht(m) == HtUp(Ht(t), sib) && Nodes(m) == Nodes(t) + {e} + Nodes(sib)
  {
    if d then Node(sib, e, t) else Node(t, e, sib)
  }

  /** The balance of a node whose subtree on side `d` has height `h` and the other one `hs`. */
  ghost function Lean(d: bool, h: int, hs: int): int {
    if d then h - hs else hs - h
  }

  // ---------------------------------------------------------------------------------------
  // Snapshots of the heap. All reasoning about trees is about snapshots; `Cells` takes one.

  datatype Cell = Cell(p: Kids, balance: int, size: int)
  type Heap = map<Elem, Cell>

  ghost function Cells(s: set<Elem>): (h: Heap)
    reads s
    ensures h.Keys == s
  {
    map e | e in s :: Cell(e.p, e.balance, e.size)
  }

  /** The snapshots agree on the nodes of `s`. */
  ghost predicate Agree(g: Heap, h: Heap, s: set<Elem>) {
    forall e :: e in s && e in g ==> e in h && h[e] == g[e]
  }

  // Recursive predicates are often written `P(..) == true` in contracts: it means the same, but
  // keeps the verifier from unfolding them at every call.

  /**
    In `h` the nodes below `p` represent `t`: the pointers spell the tree and share nothing,
    every `size` counts its subtree, every `balance` is height(right) - height(left) and is
    -1, 0 or 1.
  */
  ghost predicate Good(h: Heap, p: Elem?, t: Tree) {
    match t
    case Leaf => p == null
    case Node(l, e, r) =>
      && p == e && e in h
      && e !in Nodes(l) && e !in Nodes(r) && Nodes(l) !! Nodes(r)
      && h[e].size == Count(t)
      && h[e].balance == Ht(r) - Ht(l)
      && -1 <= h[e].balance <= 1
      && Good(h, h[e].p.l, l) && Good(h, h[e].p.r, r)
  }

  /** The heap itself, as it is now. */
  ghost predicate Valid(root: Elem?, t: Tree)
    reads Nodes(t)
  {
    Good(Cells(Nodes(t)), root, t) == true
  }

  lemma {:induction false} GoodFrame(g: Heap, h: Heap, p: Elem?, t: Tree)
    requires Good(g, p, t) == true && Agree(g, h, Nodes(t))
    ensures Good(h, p, t) == true
  {
    match t
    case Leaf =>
    case Node(l, e, r) =>
      GoodFrame(g, h, g[e].p.l, l);
      GoodFrame(g, h, g[e].p.r, r);
  }

  // ---------------------------------------------------------------------------------------
  // Lookup as a function of the tree

  /** Whether the search for `x` meets a node that compares equal. */
  ghost predicate Found(cmp: Cmp, x: Key, t: Tree) {
    match t
    case Leaf => false
    case Node(l, e, r) =>
      var c := cmp(x, e.key);
      if c < 0 then Found(cmp, x, l) else if c > 0 then Found(cmp, x, r) else true
  }

  /** The in-order position where the search for `x` ends. */
  ghost function Rank(cmp: Cmp, x: Key, t: Tree): (k: nat)
    ensures k <= |Inorder(t)|
    ensures Found(cmp, x, t) ==> k < |Inorder(t)| && cmp(x, Inorder(t)[k].key) == 0
  {
    match t
    case Leaf => 0
    case Node(l, e, r) =>
      var c := cmp(x, e.key);
      if c < 0 then Rank(cmp, x, l)
      else if c > 0 then |Inorder(l)| + 1 + Rank(cmp, x, r)
      else |Inorder(l)|
  }

  lemma InorderFacts(t: Tree)
    ensures |Inorder(t)| == Count(t)
    ensures forall e :: e in Inorder(t) <==> e in Nodes(t)
  {
  }

  // ---------------------------------------------------------------------------------------
  // Paths. A spine is the path array of the C code: the nodes passed from the root down, with
  // the direction taken at each and the subtree left behind on the other side. Everything is
  // about the first `n` steps, so that going back up the path is going from n to n - 1.

  datatype Step = Step(d: bool, e: Elem, sib: Tree)

  /** The tree obtained by hanging `t` below the first `n` steps. */
  ghost function Plug(s: seq<Step>, n: nat, t: Tree): Tree
    requires n <= |s|
  {
    if n == 0 then t else Plug(s, n - 1, Mk(s[n - 1].d, t, s[n - 1].e, s[n - 1].sib))
  }

  ghost function SpineNodes(s: seq<Step>, n: nat): set<Elem>
    requires n <= |s|
  {
    if n == 0 then {} else SpineNodes(s, n - 1) + {s[n - 1].e} + Nodes(s[n - 1].sib)
  }

  /** The in-order sequence left and right of the end of the path. */
  ghost function Before(s: seq<Step>, n: nat): seq<Elem>
    requires n <= |s|
  {
    if n == 0 then []
    else Before(s, n - 1) + if s[n - 1].d then Inorder(s[n - 1].sib) + [s[n - 1].e] else []
  }

  ghost function After(s: seq<Step>, n: nat): seq<Elem>
    requires n <= |s|
  {
    if n == 0 then []
    else (if s[n - 1].d then [] else [s[n - 1].e] + Inorder(s[n - 1].sib)) + After(s, n - 1)
  }

  /**
    In `h` the path from `root` represents the first `n` steps and ends in the pointer `q`, with
    the sizes and balances it has when a tree of `c` nodes and height `ht` hangs there.
  */
  ghost predicate Spine(h: Heap, root: Elem?, s: seq<Step>, n: nat, q: Elem?, c: int, ht: int)
    requires n <= |s|
  {
    if n == 0 then root == q
    else
      var z := s[n - 1];
      && z.e in h
      && z.e !in Nodes(z.sib) && z.e !in SpineNodes(s, n - 1) && Nodes(z.sib) !! SpineNodes(s, n - 1)
      && h[z.e].p.At(z.d) == q
      && h[z.e].size == CountUp(c, z.sib)
      && h[z.e].balance == Lean(z.d, ht, Ht(z.sib))
      && -1 <= h[z.e].balance <= 1
      && Good(h, h[z.e].p.At(!z.d), z.sib)
      && Spine(h, root, s, n - 1, z.e, CountUp(c, z.sib), HtUp(ht, z.sib))
  }

  /** Only the first `n` steps matter. */
  lemma {:induction false} SpinePrefix(h: Heap, root: Elem?, s: seq<Step>, s': seq<Step>, n: nat, q: Elem?, c: int, ht: int)
    requires n <= |s| && n <= |s'| && forall k :: 0 <= k < n ==> s[k] == s'[k]
    ensures Spine(h, root, s, n, q, c, ht) == Spine(h, root, s', n, q, c, ht)
    ensures SpineNodes(s, n) == SpineNodes(s', n)
  {
    if n > 0 {
      var z := s[n - 1];
      SpinePrefix(h, root, s, s', n - 1, z.e, CountUp(c, z.sib), HtUp(ht, z.sib));
    }
  }

  lemma {:induction false} OrderPrefix(s: seq<Step>, s': seq<Step>, n: nat)
    requires n <= |s| && n <= |s'| && forall k :: 0 <= k < n ==> s[k] == s'[k]
    ensures Before(s, n) == Before(s', n) && After(s, n) == After(s', n)
  {
    if n > 0 {
      OrderPrefix(s, s', n - 1);
    }
  }

  lemma {:induction false} PlugPrefix(s: seq<Step>, s': seq<Step>, n: nat, t: Tree)
    requires n <= |s| && n <= |s'| && forall k :: 0 <= k < n ==> s[k] == s'[k]
    ensures Plug(s, n, t) == Plug(s', n, t)
  {
    if n > 0 {
      PlugPrefix(s, s', n - 1, Mk(s[n - 1].d, t, s[n - 1].e, s[n - 1].sib));
    }
  }

  /** One node over two subtrees. */
  lemma GoodMk(h: Heap, d: bool, t: Tree, e: Elem, sib: Tree)
    requires e in h && Good(h, h[e].p.At(d), t) == true && Good(h, h[e].p.At(!d), sib) == true
    requires e !in Nodes(t) && e !in Nodes(sib) && Nodes(t) !! Nodes(sib)
    requires h[e].size == CountUp(Count(t), sib)
    requires h[e].balance == Lean(d, Ht(t), Ht(sib)) && -1 <= h[e].balance <= 1
    ensures Good(h, e, Mk(d, t, e, sib))
  {
  }

  /** A node taken apart. */
  lemma GoodUnmk(h: Heap, d: bool, t: Tree, e: Elem, sib: Tree)
    requires Good(h, e, Mk(d, t, e, sib)) == true
    ensures e in h && Good(h, h[e].p.At(d), t) == true && Good(h, h[e].p.At(!d), sib) == true
    ensures e !in Nodes(t) && e !in Nodes(sib) && Nodes(t) !! Nodes(sib)
    ensures h[e].size == CountUp(Count(t), sib)
    ensures h[e].balance == Lean(d, Ht(t), Ht(sib)) && -1 <= h[e].balance <= 1
  {
  }

  /** A node put over two subtrees that the change from `g` to `h` left alone. */
  lemma Refit(g: Heap, h: Heap, d: bool, pt: Elem?, t: Tree, e: Elem, ps: Elem?, sib: Tree)
    requires Good(g, pt, t) == true && Agree(g, h, Nodes(t))
    requires Good(g, ps, sib) == true && Agree(g, h, Nodes(sib))
    requires e in h && h[e].p.At(d) == pt && h[e].p.At(!d) == ps
    requires e !in Nodes(t) && e !in Nodes(sib) && Nodes(t) !! Nodes(sib)
    requires h[e].size == CountUp(Count(t), sib)
    requires h[e].balance == Lean(d, Ht(t), Ht(sib)) && -1 <= h[e].balance <= 1
    ensures Good(h, e, Mk(d, t, e, sib)) == true
  {
    GoodFrame(g, h, pt, t);
    GoodFrame(g, h, ps, sib);
    GoodMk(h, d, t, e, sib);
  }

  /** A path and the subtree at its end make up the whole tree. */
  lemma {:induction false} Assemble(h: Heap, root: Elem?, s: seq<Step>, n: nat, q: Elem?, t: Tree)
    requires n <= |s|
    requires Spine(h, root, s, n, q, Count(t), Ht(t)) == true && Good(h, q, t) == true
    requires SpineNodes(s, n) !! Nodes(t)
    ensures Good(h, root, Plug(s, n, t)) == true
  {
    if n > 0 {
      var z := s[n - 1];
      GoodMk(h, z.d, t, z.e, z.sib);
      Assemble(h, root, s, n - 1, z.e, Mk(z.d, t, z.e, z.sib));
    }
  }

  /** One more step on the path, as far as the tree is concerned. */
  lemma Push(s: seq<Step>, z: Step, u: Tree)
    ensures var s', n := s + [z], |s| + 1;
      && Plug(s', n, u) == Plug(s, |s|, Mk(z.d, u, z.e, z.sib))
      && Before(s', n) == Before(s, |s|) + (if z.d then Inorder(z.sib) + [z.e] else [])
      && After(s', n) == (if z.d then [] else [z.e] + Inorder(z.sib)) + After(s, |s|)
  {
    PlugPrefix(s, s + [z], |s|, Mk(z.d, u, z.e, z.sib));
    OrderPrefix(s, s + [z], |s|);
  }

  /** One more step on the path, on the heap. */
  lemma PushSpine(h: Heap, root: Elem?, s: seq<Step>, z: Step, q: Elem?, c: int, ht: int)
    requires Spine(h, root, s, |s|, z.e, CountUp(c, z.sib), HtUp(ht, z.sib)) == true
    requires z.e in h && Good(h, h[z.e].p.At(!z.d), z.sib) == true && h[z.e].p.At(z.d) == q
    requires z.e !in Nodes(z.sib) && z.e !in SpineNodes(s, |s|) && Nodes(z.sib) !! SpineNodes(s, |s|)
    requires h[z.e].size == CountUp(c, z.sib)
    requires h[z.e].balance == Lean(z.d, ht, Ht(z.sib)) && -1 <= h[z.e].balance <= 1
    ensures Spine(h, root, s + [z], |s| + 1, q, c, ht) == true
    ensures SpineNodes(s + [z], |s| + 1) == SpineNodes(s, |s|) + {z.e} + Nodes(z.sib)
  {
    SpinePrefix(h, root, s, s + [z], |s|, z.e, CountUp(c, z.sib), HtUp(ht, z.sib));
  }

  /** The last step taken back. */
  lemma PopSpine(h: Heap, root: Elem?, s: seq<Step>, m: nat, q: Elem?, c: int, ht: int)
    requires m < |s| && Spine(h, root, s, m + 1, q, c, ht) == true
    ensures var z := s[m];
      && z.e in h
      && z.e !in Nodes(z.sib) && z.e !in SpineNodes(s, m) && Nodes(z.sib) !! SpineNodes(s, m)
      && h[z.e].p.At(z.d) == q
      && h[z.e].size == CountUp(c, z.sib)
      && h[z.e].balance == Lean(z.d, ht, Ht(z.sib)) && -1 <= h[z.e].balance <= 1
      && Good(h, h[z.e].p.At(!z.d), z.sib) == true
      && Spine(h, root, s, m, z.e, CountUp(c, z.sib), HtUp(ht, z.sib)) == true
    ensures SpineNodes(s, m + 1) == SpineNodes(s, m) + {s[m].e} + Nodes(s[m].sib)
  {
  }

  /** One step down. */
  lemma Descend(h: Heap, root: Elem?, s: seq<Step>, q: Elem?, t: Tree, d: bool) returns (z: Step, u: Tree)
    requires t.Node? && Spine(h, root, s, |s|, q, Count(t), Ht(t)) == true && Good(h, q, t) == true
    requires SpineNodes(s, |s|) !! Nodes(t)
    ensures z.d == d && z.e == t.e && t == Mk(d, u, z.e, z.sib)
    ensures u == (if d then t.r else t.l) && z.sib == (if d then t.l else t.r)
    ensures t.e in h && Spine(h, root, s + [z], |s| + 1, h[t.e].p.At(d), Count(u), Ht(u)) == true
    ensures Good(h, h[t.e].p.At(d), u) == true
    ensures SpineNodes(s + [z], |s| + 1) !! Nodes(u)
    ensures Plug(s + [z], |s| + 1, u) == Plug(s, |s|, t)
    ensures Before(s + [z], |s| + 1) == Before(s, |s|) + if d then Inorder(t.l) + [t.e] else []
  {
    z, u := Step(d, t.e, if d then t.l else t.r), if d then t.r else t.l;
    assert Count(t) == CountUp(Count(u), z.sib) && Ht(t) == HtUp(Ht(u), z.sib);
    PushSpine(h, root, s, z, h[t.e].p.At(d), Count(u), Ht(u));
    Push(s, z, u);
  }

  lemma {:induction false} PlugNodes(s: seq<Step>, n: nat, t: Tree)
    requires n <= |s|
    ensures Nodes(Plug(s, n, t)) == SpineNodes(s, n) + Nodes(t)
  {
    if n > 0 {
      PlugNodes(s, n - 1, Mk(s[n - 1].d, t, s[n - 1].e, s[n - 1].sib));
    }
  }

  /** Reading the tree in order is reading the path's left, the subtree, the path's right. */
  lemma {:induction false} PlugInorder(s: seq<Step>, n: nat, t: Tree)
    requires n <= |s|
    ensures Inorder(Plug(s, n, t)) == Before(s, n) + Inorder(t) + After(s, n)
  {
    if n > 0 {
      PlugInorder(s, n - 1, Mk(s[n - 1].d, t, s[n - 1].e, s[n - 1].sib));
    }
  }

  /** The nodes of the path array itself. */
  ghost function Path(s: seq<Step>, n: nat): set<Elem>
    requires n <= |s|
  {
    set k | 0 <= k < n :: s[k].e
  }

  /** The nodes of a path are its own and pairwise different. */
  lemma {:induction false} SpineElems(h: Heap, root: Elem?, s: seq<Step>, n: nat, q: Elem?, c: int, ht: int)
    requires n <= |s| && Spine(h, root, s, n, q, c, ht)
    ensures forall k :: 0 <= k < n ==> s[k].e in SpineNodes(s, n) && s[k].e in h
    ensures forall k, m :: 0 <= k < m < n ==> s[k].e != s[m].e
    ensures forall k, m :: 0 <= k < n && 0 <= m < n ==> s[k].e !in Nodes(s[m].sib)
    ensures forall k :: 0 <= k < n ==> Nodes(s[k].sib) <= SpineNodes(s, n)
  {
    if n > 0 {
      var z := s[n - 1];
      SpineElems(h, root, s, n - 1, z.e, CountUp(c, z.sib), HtUp(ht, z.sib));
    }
  }

  /** The pointers of the path: each node points to the next one, the last to `q`. */
  lemma {:induction false} SpineLinks(h: Heap, root: Elem?, s: seq<Step>, n: nat, q: Elem?, c: int, ht: int)
    requires n <= |s| && Spine(h, root, s, n, q, c, ht)
    ensures root == if n == 0 then q else s[0].e
    ensures forall k :: 0 <= k < n ==>
      s[k].e in h && h[s[k].e].p.At(s[k].d) == if k + 1 < n then s[k + 1].e else q
  {
    if n > 0 {
      var z := s[n - 1];
      SpineLinks(h, root, s, n - 1, z.e, CountUp(c, z.sib), HtUp(ht, z.sib));
    }
  }

  lemma {:induction false} SpineFrame(g: Heap, h: Heap, root: Elem?, s: seq<Step>, n: nat, q: Elem?, c: int, ht: int)
    requires n <= |s| && Spine(g, root, s, n, q, c, ht) == true && Agree(g, h, SpineNodes(s, n))
    ensures Spine(h, root, s, n, q, c, ht) == true
  {
    if n > 0 {
      var z := s[n - 1];
      GoodFrame(g, h, g[z.e].p.At(!z.d), z.sib);
      SpineFrame(g, h, root, s, n - 1, z.e, CountUp(c, z.sib), HtUp(ht, z.sib));
    }
  }

  /** The node at the end of the path now points to `qNew`; without a path the root does. */
  ghost predicate Relinked(g: Heap, h: Heap, root: Elem?, rootNew: Elem?, s: seq<Step>, n: nat, qNew: Elem?)
    requires n <= |s|
  {
    if n == 0 then rootNew == qNew
    else
      var z := s[n - 1];
      && rootNew == root && z.e in g && z.e in h
      && h[z.e] == g[z.e].(p := g[z.e].p.With(z.d, qNew))
      && Agree(g, h, SpineNodes(s, n) - {z.e})
  }

  lemma Relink(g: Heap, h: Heap, root: Elem?, rootNew: Elem?, s: seq<Step>, n: nat, q: Elem?, qNew: Elem?, c: int, ht: int)
    requires n <= |s| && Spine(g, root, s, n, q, c, ht) == true
    requires Relinked(g, h, root, rootNew, s, n, qNew)
    ensures Spine(h, rootNew, s, n, qNew, c, ht) == true
  {
    if n > 0 {
      var z := s[n - 1];
      GoodFrame(g, h, g[z.e].p.At(!z.d), z.sib);
      SpineFrame(g, h, root, s, n - 1, z.e, CountUp(c, z.sib), HtUp(ht, z.sib));
    }
  }

  lemma {:induction false} GoodKeys(h: Heap, p: Elem?, t: Tree)
    requires Good(h, p, t) == true
    ensures Nodes(t) <= h.Keys
  {
    match t
    case Leaf =>
    case Node(l, e, r) =>
      GoodKeys(h, h[e].p.l, l);
      GoodKeys(h, h[e].p.r, r);
  }
}
