/** kavl_erase of kavl.h: unlinking a node in place and rebalancing back up the path. */
module KavlErase {
  import opened Wrappers
  import opened Keys
  import opened KavlTree
  import opened KavlHeight
  import opened KavlRotate
  import opened KavlInsert

  // ---------------------------------------------------------------------------------------
  // The path after unlinking

  /**
    The steps `s[m..n]` after a node below them is gone: sizes are one less, the last one points
    to `q`, and balances are still those of before.
  */
  ghost predicate Shortened(g: Heap, h: Heap, s: seq<Step>, m: nat, n: nat, q: Elem?)
    requires m <= n <= |s|
  {
    n > m ==>
      var z := s[n - 1];
      && z.e in g && z.e in h
      && h[z.e] == Cell(g[z.e].p.With(z.d, q), g[z.e].balance, g[z.e].size - 1)
      && Agree(g, h, Nodes(z.sib))
      && Shortened(g, h, s, m, n - 1, z.e)
  }

  /**
    Along `s[m..n]` the path with one node less is right if it is right up to `m`, where the new
    path `s'` may differ by the nodes `x`.
  */
  lemma {:induction false} Lower(g: Heap, h: Heap, root: Elem?, root': Elem?, s: seq<Step>, s': seq<Step>, x: set<Elem>,
                                 m: nat, n: nat, q0: Elem?, q: Elem?, c: int, ht: int) returns (c1: int, h1: int)
    requires m <= n <= |s| && |s'| == |s| && (forall k :: m <= k < n ==> s'[k] == s[k])
    requires Spine(g, root, s, n, q0, c, ht) == true && Shortened(g, h, s, m, n, q) == true
    requires SpineNodes(s', m) <= SpineNodes(s, m) + x && x !! SpineNodes(s, n)
    ensures Spine(g, root, s, m, if n > m then s[m].e else q0, c1, h1) == true
    ensures Spine(h, root', s', m, if n > m then s[m].e else q, c1 - 1, h1) == true
      ==> Spine(h, root', s', n, q, c - 1, ht) == true
    ensures SpineNodes(s', n) <= SpineNodes(s, n) + x
    decreases n
  {
    hide Lean, Nodes, Good, Max, Ht, HtUp, Count, Agree;
    if n == m {
      c1, h1 := c, ht;
    } else {
      var z := s[n - 1];
      c1, h1 := Lower(g, h, root, root', s, s', x, m, n - 1, z.e, z.e, CountUp(c, z.sib), HtUp(ht, z.sib));
      GoodFrame(g, h, g[z.e].p.At(!z.d), z.sib);
      assert CountUp(c - 1, z.sib) == CountUp(c, z.sib) - 1;
    }
  }

  /**
    The first `n` steps lead to `q`, and below it hangs `u`, one level lower than the balances on
    the path still say; sizes are right already.
  */
  ghost predicate Sunken(h: Heap, root: Elem?, s: seq<Step>, n: nat, q: Elem?, u: Tree)
    requires n <= |s|
  {
    && Spine(h, root, s, n, q, Count(u), Ht(u) + 1) == true
    && Good(h, q, u) == true && SpineNodes(s, n) !! Nodes(u)
  }

  /** A path and a subtree where no heap change is pending. */
  ghost predicate Hung(h: Heap, root: Elem?, s: seq<Step>, n: nat, q: Elem?, u: Tree)
    requires n <= |s|
  {
    && Spine(h, root, s, n, q, Count(u), Ht(u)) == true
    && Good(h, q, u) == true && SpineNodes(s, n) !! Nodes(u)
  }

  /** Where the root pointer is after the first node of the path, or the tree itself, became `q`. */
  ghost function RootAfter(root: Elem?, n: nat, q: Elem?): Elem? {
    if n == 0 then q else root
  }

  lemma ShortenAll(g: Heap, h: Heap, root: Elem?, s: seq<Step>, s': seq<Step>, n: nat, q0: Elem?, q: Elem?, c: int, ht: int)
    requires n <= |s| && |s'| == |s| && forall k :: 0 <= k < n ==> s'[k] == s[k]
    requires Spine(g, root, s, n, q0, c, ht) == true && Shortened(g, h, s, 0, n, q) == true
    ensures Spine(h, RootAfter(root, n, q), s', n, q, c - 1, ht) == true
    ensures SpineNodes(s', n) <= SpineNodes(s, n)
  {
    var c1, h1 := Lower(g, h, root, RootAfter(root, n, q), s, s', {}, 0, n, q0, q, c, ht);
  }

  /** Case 1, no right child: the left one takes the place. */
  lemma UnlinkLast(g: Heap, h: Heap, root: Elem?, s: seq<Step>, p: Elem, l: Tree)
    requires Hung(g, root, s, |s|, p, Node(l, p, Leaf))
    requires Shortened(g, h, s, 0, |s|, g[p].p.l) == true && Agree(g, h, Nodes(l))
    ensures Sunken(h, RootAfter(root, |s|, g[p].p.l), s, |s|, g[p].p.l, l)
  {
    var u := Node(l, p, Leaf);
    ShortenAll(g, h, root, s, s, |s|, p, g[p].p.l, Count(u), Ht(u));
    assert Count(u) - 1 == Count(l) && Ht(u) == Ht(l) + 1;
    GoodFrame(g, h, g[p].p.l, l);
  }

  /** Case 2, the right child has no left child: it moves up and gets the left subtree. */
  lemma UnlinkNear(g: Heap, h: Heap, root: Elem?, s: seq<Step>, p: Elem, l: Tree, q: Elem, rr: Tree)
    requires Hung(g, root, s, |s|, p, Node(l, p, Node(Leaf, q, rr)))
    requires p in g && q in g && q in h
    requires Shortened(g, h, s, 0, |s|, q) == true && Agree(g, h, Nodes(l)) && Agree(g, h, Nodes(rr))
    requires h[q] == Cell(g[q].p.With(false, g[p].p.l), g[p].balance, g[p].size - 1)
    ensures Sunken(h, RootAfter(root, |s|, q), s + [Step(true, q, l)], |s| + 1, h[q].p.r, rr)
  {
    hide Good, Lean, Agree, Count, CountUp, Ht, HtUp, Nodes, Spine, SpineNodes, Shortened;
    var u, root' := Node(l, p, Node(Leaf, q, rr)), RootAfter(root, |s|, q);
    ShortenAll(g, h, root, s, s, |s|, p, q, Count(u), Ht(u));
    NearNode(g, h, p, l, q, rr);
    NearShape(l, p, q, rr);
    NearSets(SpineNodes(s, |s|), Nodes(l), p, q, Nodes(rr));
    PushSpine(h, root', s, Step(true, q, l), h[q].p.r, Count(rr), Ht(rr) + 1);
  }

  lemma NearSets(path: set<Elem>, l: set<Elem>, p: Elem, q: Elem, r: set<Elem>)
    requires path !! l + {p} + ({q} + r) && q !in r && l !! r
    ensures q !in path && l !! path && path + {q} + l !! r
  {
  }

  /** The right child over the left subtree and its own right one. */
  lemma NearNode(g: Heap, h: Heap, p: Elem, l: Tree, q: Elem, rr: Tree)
    requires Good(g, p, Node(l, p, Node(Leaf, q, rr))) == true && p in g && q in g && q in h
    requires Agree(g, h, Nodes(l)) && Agree(g, h, Nodes(rr))
    requires h[q] == Cell(g[q].p.With(false, g[p].p.l), g[p].balance, g[p].size - 1)
    ensures Good(h, h[q].p.l, l) == true && Good(h, h[q].p.r, rr) == true
    ensures q !in Nodes(l) && q !in Nodes(rr) && Nodes(l) !! Nodes(rr)
    ensures h[q].size == CountUp(Count(rr), l)
    ensures h[q].balance == Lean(true, Ht(rr) + 1, Ht(l)) && -1 <= h[q].balance <= 1
  {
    hide Agree, Good, Lean, Nodes, Count, Ht;
    var r := Node(Leaf, q, rr);
    RightOnly(q, rr);
    GoodUnmk(g, true, r, p, l);
    RootIs(g, g[p].p.r, r);
    GoodUnmk(g, true, rr, q, Leaf);
    GoodFrame(g, h, g[p].p.l, l);
    GoodFrame(g, h, g[q].p.r, rr);
  }

  lemma RightOnly(q: Elem, rr: Tree)
    ensures var r := Node(Leaf, q, rr); Count(r) == 1 + Count(rr) && Ht(r) == 1 + Ht(rr) && Nodes(r) == {q} + Nodes(rr)
  {
  }

  lemma NearShape(l: Tree, p: Elem, q: Elem, rr: Tree)
    ensures var u := Node(l, p, Node(Leaf, q, rr));
      && Count(u) - 1 == CountUp(Count(rr), l) && Ht(u) == HtUp(Ht(rr) + 1, l)
      && Nodes(u) == Nodes(l) + {p} + ({q} + Nodes(rr))
  {
    RightOnly(q, rr);
  }

  /**
    Case 3, the successor `r` is deeper: its right subtree takes its place, and it takes that of
    `p`. `sp` is the path down to `r`; `p` is its step `n`.
  */
  lemma UnlinkFar(g: Heap, h: Heap, root: Elem?, sp: seq<Step>, n: nat, p: Elem, l: Tree, r: Elem, rr: Tree)
    requires n + 1 < |sp| && sp[n] == Step(true, p, l)
    requires Hung(g, root, sp, |sp|, r, Node(Leaf, r, rr)) && p in g && r in g && r in h
    requires Shortened(g, h, sp, 0, n, r) == true && Shortened(g, h, sp, n + 1, |sp|, g[r].p.r) == true
    requires Agree(g, h, Nodes(l)) && Agree(g, h, Nodes(rr))
    requires h[r] == Cell(g[p].p.With(false, g[p].p.l), g[p].balance, g[p].size - 1)
    ensures Sunken(h, RootAfter(root, n, r), sp[n := Step(true, r, l)], |sp|, g[r].p.r, rr)
  {
    hide SpineNodes, Good, Agree, Nodes, Shortened;
    var v, root' := Node(Leaf, r, rr), RootAfter(root, n, r);
    var s' := sp[n := Step(true, r, l)];
    GoodUnmk(g, true, rr, r, Leaf);
    GoodFrame(g, h, g[r].p.r, rr);
    UnlinkFarPath(g, h, root, root', sp, s', n, p, l, r, g[r].p.r, Count(v), Ht(v));
    assert Count(v) - 1 == Count(rr) && Ht(v) == Ht(rr) + 1;
  }

  lemma UnlinkFarPath(g: Heap, h: Heap, root: Elem?, root': Elem?, sp: seq<Step>, s': seq<Step>, n: nat,
                      p: Elem, l: Tree, r: Elem, q: Elem?, c: int, ht: int)
    requires n + 1 < |sp| && sp[n] == Step(true, p, l) && s' == sp[n := Step(true, r, l)]
    requires root' == RootAfter(root, n, r) && r !in SpineNodes(sp, |sp|)
    requires Spine(g, root, sp, |sp|, r, c, ht) == true && p in g && r in h
    requires Shortened(g, h, sp, 0, n, r) == true && Shortened(g, h, sp, n + 1, |sp|, q) == true
    requires Agree(g, h, Nodes(l))
    requires h[r] == Cell(g[p].p.With(false, g[p].p.l), g[p].balance, g[p].size - 1)
    ensures Spine(h, root', s', |sp|, q, c - 1, ht) == true
    ensures SpineNodes(s', |sp|) <= SpineNodes(sp, |sp|) + {r}
  {
    hide Nodes, Agree, Good, Lean, Max, Ht;
    SpineGrows(sp, n, |sp|);
    SpineGrows(sp, n + 1, |sp|);
    SpinePrefix(g, root, sp, s', n, p, 0, 0);
    var c1, h1 := Lower(g, h, root, root', sp, s', {r}, n + 1, |sp|, r, q, c, ht);
    PopSpine(g, root, sp, n, sp[n + 1].e, c1, h1);
    ShortenAll(g, h, root, sp, s', n, p, r, CountUp(c1, l), HtUp(h1, l));
    assert CountUp(c1 - 1, l) == CountUp(c1, l) - 1;
    GoodFrame(g, h, g[p].p.l, l);
    assert Spine(h, root', s', n + 1, sp[n + 1].e, c1 - 1, h1);
  }

  lemma {:induction false} SpineGrows(s: seq<Step>, m: nat, n: nat)
    requires m <= n <= |s|
    ensures SpineNodes(s, m) <= SpineNodes(s, n)
  {
    if m < n {
      SpineGrows(s, m, n - 1);
    }
  }

  // ---------------------------------------------------------------------------------------
  // Back up the path

  /** The step of the balance towards the side that did not shrink. */
  function Away(d: bool): int {
    if d then -1 else 1
  }

  /** The last path node has taken note of the shrunken side; the tree around it is complete. */
  ghost predicate Sagging(f: Heap, z: Step, u: Tree) {
    && z.e in f && Good(f, f[z.e].p.At(z.d), u) == true && Good(f, f[z.e].p.At(!z.d), z.sib) == true
    && z.e !in Nodes(u) && z.e !in Nodes(z.sib) && Nodes(u) !! Nodes(z.sib)
    && f[z.e].size == CountUp(Count(u), z.sib) && f[z.e].balance == Lean(z.d, Ht(u), Ht(z.sib))
  }

  lemma RetraceStep(h: Heap, f: Heap, root: Elem?, s: seq<Step>, n: nat, q: Elem?, u: Tree)
    requires n < |s| && Sunken(h, root, s, n + 1, q, u) && s[n].e in h && s[n].e in f
    requires f[s[n].e] == h[s[n].e].(balance := h[s[n].e].balance + Away(s[n].d))
    requires Agree(h, f, h.Keys - {s[n].e})
    ensures var z, b := s[n], f[s[n].e].balance;
      var m := Mk(z.d, u, z.e, z.sib);
      && Sagging(f, z, u) == true
      && SpineNodes(s, n) !! Nodes(m)
      && Spine(f, root, s, n, z.e, Count(m), HtUp(Ht(u) + 1, z.sib)) == true
      && (b == Away(z.d) ==> Hung(f, root, s, n, z.e, m) == true)
      && (b == 0 ==> Sunken(f, root, s, n, z.e, m) == true)
      && (b != Away(z.d) && b != 0 ==> b == 2 * Away(z.d) && Ht(z.sib) == Ht(u) + 2)
  {
    hide Nodes, Ht;
    var z := s[n];
    var m := Mk(z.d, u, z.e, z.sib);
    PopSpine(h, root, s, n, q, Count(u), Ht(u) + 1);
    GoodFrame(h, f, h[z.e].p.At(z.d), u);
    GoodFrame(h, f, h[z.e].p.At(!z.d), z.sib);
    SpineFrame(h, f, root, s, n, z.e, CountUp(Count(u), z.sib), HtUp(Ht(u) + 1, z.sib));
    if -1 <= f[z.e].balance <= 1 {
      GoodMk(f, z.d, u, z.e, z.sib);
    }
    if f[z.e].balance == Away(z.d) {
      assert HtUp(Ht(u) + 1, z.sib) == Ht(m);
    } else if f[z.e].balance == 0 {
      assert HtUp(Ht(u) + 1, z.sib) == Ht(m) + 1;
    }
  }

  /** The pattern of the single rotation: the other side is two higher and does not lean inwards. */
  lemma SaggingPair(f: Heap, z: Step, u: Tree) returns (inner: Tree, outer: Tree)
    requires Sagging(f, z, u) == true && Ht(z.sib) == Ht(u) + 2
    ensures z.sib == Mk(z.d, inner, z.sib.e, outer) && z.sib.e in f
    ensures Pair(f, z.e, z.sib.e, z.d, u, inner, outer) == true
    ensures f[z.sib.e].balance == Lean(z.d, Ht(inner), Ht(outer)) && -1 <= f[z.sib.e].balance <= 1
    ensures Ht(z.sib) == HtUp(Ht(inner), outer)
  {
    inner, outer := if z.d then z.sib.r else z.sib.l, if z.d then z.sib.l else z.sib.r;
    RootIs(f, f[z.e].p.At(!z.d), z.sib);
    GoodUnmk(f, z.d, inner, z.sib.e, outer);
  }

  /** The pattern of the double rotation: the other side is two higher and leans inwards. */
  lemma SaggingTriple(f: Heap, z: Step, u: Tree) returns (x: Tree, v: Tree, y: Tree, outer: Tree)
    requires Sagging(f, z, u) == true && Ht(z.sib) == Ht(u) + 2
    requires z.sib.e in f && f[z.sib.e].balance == -Away(z.d)
    ensures v.Node? && z.sib == Mk(z.d, v, z.sib.e, outer) && v == Mk(z.d, x, v.e, y)
    ensures Triple(f, z.e, z.sib.e, v.e, z.d, u, x, y, outer)
    ensures v.e == f[z.sib.e].p.At(z.d)
  {
    v, outer := if z.d then z.sib.r else z.sib.l, if z.d then z.sib.l else z.sib.r;
    RootIs(f, f[z.e].p.At(!z.d), z.sib);
    GoodUnmk(f, z.d, v, z.sib.e, outer);
    x, y := if z.d then v.r else v.l, if z.d then v.l else v.r;
    RootIs(f, f[z.sib.e].p.At(z.d), v);
    GoodUnmk(f, z.d, x, v.e, y);
  }

  /** `m` can take the place of the rotated node: same nodes in the same order. */
  ghost predicate Restores(k: Heap, m: Tree, z: Step, u: Tree) {
    && m.Node? && Good(k, m.e, m) == true
    && Nodes(m) == Nodes(u) + {z.e} + Nodes(z.sib) && Count(m) == CountUp(Count(u), z.sib)
    && Inorder(m) == Inorder(Mk(z.d, u, z.e, z.sib))
  }

  lemma RetraceOnce(f: Heap, h: Heap, k: Heap, z: Step, u: Tree) returns (m: Tree)
    requires Sagging(f, z, u) == true && Ht(z.sib) == Ht(u) + 2
    requires z.sib.e in f && f[z.sib.e].balance != -Away(z.d)
    requires CanRotate1(f, z.e, z.d) && Rotated1(f, h, z.e, z.d) == true && z.sib.e in h
    requires k.Keys == h.Keys && Agree(h, k, h.Keys - {z.e, z.sib.e})
    requires var b := if f[z.sib.e].balance == 0 then Away(z.d) else 0;
      k[z.e] == h[z.e].(balance := b) && k[z.sib.e] == h[z.sib.e].(balance := -b)
    ensures m.Node? && m.e == z.sib.e && Restores(k, m, z, u)
    ensures Ht(m) == if f[z.sib.e].balance == 0 then Ht(u) + 3 else Ht(u) + 2
  {
    hide Ht;
    var inner, outer := SaggingPair(f, z, u);
    SingleOrder(z.d, u, z.e, inner, z.sib.e, outer);
    m := SingleRotation(f, h, k, z.e, z.sib.e, z.d, u, inner, outer);
  }

  lemma RetraceTwice(f: Heap, k: Heap, z: Step, u: Tree) returns (m: Tree)
    requires Sagging(f, z, u) == true && Ht(z.sib) == Ht(u) + 2
    requires z.sib.e in f && f[z.sib.e].balance == -Away(z.d)
    requires CanRotate2(f, z.e, z.d) && Rotated2(f, k, z.e, z.d) == true
    ensures m.Node? && m.e == f[z.sib.e].p.At(z.d) && Restores(k, m, z, u) && Ht(m) == Ht(u) + 2
  {
    hide Ht, Nodes;
    var x, v, y, outer := SaggingTriple(f, z, u);
    DoubleOrder(z.d, u, z.e, x, v.e, y, z.sib.e, outer);
    m := DoubleRotation(f, k, z.e, z.sib.e, v.e, z.d, u, x, y, outer);
  }

  /** The rotating branch of the rebalancing loop of kavl_erase; `done` is its `break`. */
  method RotateUp(q: Elem, which: bool, ghost z: Step, ghost u: Tree, ghost dom: set<Elem>)
    returns (top: Elem, done: bool, ghost m: Tree)
    requires q == z.e && which == z.d && q in dom && Nodes(u) + Nodes(z.sib) <= dom
    requires Sagging(Cells(dom), z, u) && Ht(z.sib) == Ht(u) + 2
    modifies Nodes(z.sib) + {q}
    ensures m.Node? && m.e == top && Restores(Cells(dom), m, z, u) == true
    ensures Ht(m) == if done then Ht(z.sib) + 1 else Ht(z.sib)
    ensures Agree(old(Cells(dom)), Cells(dom), dom - Nodes(z.sib) - {q})
  {
    ghost var f := Cells(dom);
    var other, b1 := !which, Away(which);
    RootIs(f, f[z.e].p.At(!z.d), z.sib);
    var r := q.p.At(other);
    if r.balance == -b1 {
      top, m := RotateTwice(q, r, which, z, u, dom);
      done := false;
    } else {
      top, done, m := RotateOnce(q, r, which, z, u, dom);
    }
  }

  /** The inner subtree of the other side is the higher one. */
  method RotateTwice(q: Elem, r: Elem, which: bool, ghost z: Step, ghost u: Tree, ghost dom: set<Elem>)
    returns (top: Elem, ghost m: Tree)
    requires q == z.e && which == z.d && q in dom && Nodes(u) + Nodes(z.sib) <= dom
    requires Sagging(Cells(dom), z, u) == true && Ht(z.sib) == Ht(u) + 2
    requires z.sib.Node? && r == z.sib.e && r == q.p.At(!which) && r.balance == -Away(which)
    modifies Nodes(z.sib) + {q}
    ensures m.Node? && m.e == top && Restores(Cells(dom), m, z, u) == true && Ht(m) == Ht(z.sib)
    ensures Agree(old(Cells(dom)), Cells(dom), dom - Nodes(z.sib) - {q})
  {
    ghost var f := Cells(dom);
    ghost var x, v, y, outer := SaggingTriple(f, z, u);
    TripleCanRotate(f, q, r, v.e, which, u, x, y, outer);
    top := Rotate2(q, which, dom);
    m := RetraceTwice(f, Cells(dom), z, u);
  }

  /** It is not. */
  method RotateOnce(q: Elem, r: Elem, which: bool, ghost z: Step, ghost u: Tree, ghost dom: set<Elem>)
    returns (top: Elem, done: bool, ghost m: Tree)
    requires q == z.e && which == z.d && q in dom && Nodes(u) + Nodes(z.sib) <= dom
    requires Sagging(Cells(dom), z, u) == true && Ht(z.sib) == Ht(u) + 2
    requires z.sib.Node? && r == z.sib.e && r == q.p.At(!which) && r.balance != -Away(which)
    modifies Nodes(z.sib) + {q}
    ensures m.Node? && m.e == top && Restores(Cells(dom), m, z, u) == true
    ensures Ht(m) == if done then Ht(z.sib) + 1 else Ht(z.sib)
    ensures Agree(old(Cells(dom)), Cells(dom), dom - Nodes(z.sib) - {q})
  {
    hide Max, Count;
    var b1 := Away(which);
    ghost var f := Cells(dom);
    ghost var inner, outer := SaggingPair(f, z, u);
    PairCanRotate(f, q, r, which, u, inner, outer);
    top := Rotate1(q, which, dom);
    ghost var h := Cells(dom);
    if r.balance == 0 {
      r.balance, q.balance := -b1, b1;
      done := true;
    } else {
      r.balance, q.balance := 0, 0;
      done := false;
    }
    m := RetraceOnce(f, h, Cells(dom), z, u);
  }

  /** The rotated subtree linked below the next path node. */
  lemma RetraceLink(f: Heap, k: Heap, e: Heap, root: Elem?, root': Elem?, s: seq<Step>, n: nat, u: Tree, m: Tree)
    requires n < |s| && m.Node? && Restores(k, m, s[n], u) == true && Ht(s[n].sib) == Ht(u) + 2
    requires Spine(f, root, s, n, s[n].e, CountUp(Count(u), s[n].sib), HtUp(Ht(u) + 1, s[n].sib)) == true
    requires SpineNodes(s, n) !! Nodes(u) + {s[n].e} + Nodes(s[n].sib)
    requires Agree(f, k, SpineNodes(s, n))
    requires Relinked(k, e, root, root', s, n, m.e) == true && Agree(k, e, Nodes(m))
    ensures Ht(m) == Ht(s[n].sib) + 1 ==> Hung(e, root', s, n, m.e, m) == true
    ensures Ht(m) == Ht(s[n].sib) ==> Sunken(e, root', s, n, m.e, m) == true
  {
    hide Relinked, Agree, Spine, SpineNodes, Nodes, Good, Count, Inorder, Mk;
    var c, ht := CountUp(Count(u), s[n].sib), HtUp(Ht(u) + 1, s[n].sib);
    SpineFrame(f, k, root, s, n, s[n].e, c, ht);
    Relink(k, e, root, root', s, n, s[n].e, m.e, c, ht);
    GoodFrame(k, e, m.e, m);
    assert ht == Ht(s[n].sib) + 1;
  }

  /** The path arrays of kavl_erase: the stack node `fake` above the root, then the path. */
  ghost predicate Recorded(fake: Elem, path: seq<Elem>, dir: seq<bool>, s: seq<Step>) {
    && |path| == |dir| == |s| + 1 && path[0] == fake && !dir[0]
    && (forall k :: 0 <= k < |s| ==> path[k + 1] == s[k].e && dir[k + 1] == s[k].d)
  }

  /** `path[d]->p[dir[d]] = v` */
  method SetLink(fake: Elem, path: seq<Elem>, dir: seq<bool>, d: nat, v: Elem?, ghost s: seq<Step>, ghost dom: set<Elem>)
    requires d <= |s| && Recorded(fake, path, dir, s) && fake !in dom && SpineNodes(s, d) <= dom
    requires d > 0 ==> s[d - 1].e in SpineNodes(s, d)
    modifies path[d]
    ensures Relinked(old(Cells(dom)), Cells(dom), old(fake.p.l), fake.p.l, s, d, v)
    ensures Agree(old(Cells(dom)), Cells(dom), dom - Path(s, d))
  {
    path[d].p := path[d].p.With(dir[d], v);
  }

  /** The rotation of one round and its link. */
  method RotateAndLink(fake: Elem, path: seq<Elem>, dir: seq<bool>, d: nat, ghost f: Heap, ghost s: seq<Step>, ghost u: Tree,
                       ghost dom: set<Elem>) returns (done: bool, ghost m: Tree)
    requires Recorded(fake, path, dir, s) == true && fake !in dom && d < |s|
    requires f == Cells(dom) && Sagging(f, s[d], u) == true && Ht(s[d].sib) == Ht(u) + 2
    requires SpineNodes(s, d) !! Nodes(Mk(s[d].d, u, s[d].e, s[d].sib))
    requires SpineNodes(s, d) + Nodes(Mk(s[d].d, u, s[d].e, s[d].sib)) <= dom
    requires Spine(f, fake.p.l, s, d, s[d].e, CountUp(Count(u), s[d].sib), HtUp(Ht(u) + 1, s[d].sib)) == true
    modifies dom, fake
    ensures m.Node? && Inorder(m) == Inorder(Mk(s[d].d, u, s[d].e, s[d].sib))
    ensures SpineNodes(s, d) + Nodes(m) <= dom
    ensures done ==> Hung(Cells(dom), fake.p.l, s, d, m.e, m) == true
    ensures !done ==> Sunken(Cells(dom), fake.p.l, s, d, m.e, m) == true
  {
    hide Nodes, SpineNodes, Good, Cells, Lean, Max, Inorder, CountUp, Relinked, HtUp, Ht;
    ghost var z, root := s[d], fake.p.l;
    var top;
    top, done, m := RotateUp(path[d + 1], dir[d + 1], z, u, dom);
    ghost var k := Cells(dom);
    SpineElems(f, root, s, d, z.e, CountUp(Count(u), z.sib), HtUp(Ht(u) + 1, z.sib));
    SetLink(fake, path, dir, d, top, s, dom);
    RetraceLink(f, k, Cells(dom), root, fake.p.l, s, d, u, m);
  }

  /** One round of the rebalancing loop; `done` is a `break`. */
  method RetraceRound(fake: Elem, path: seq<Elem>, dir: seq<bool>, d: nat, ghost s: seq<Step>, ghost p: Elem?, ghost u: Tree,
                      ghost dom: set<Elem>) returns (done: bool, ghost m: Tree)
    requires Recorded(fake, path, dir, s) == true && fake !in dom && d < |s| && s[d].e in dom
    requires Sunken(Cells(dom), fake.p.l, s, d + 1, p, u) == true
    requires SpineNodes(s, d) + Nodes(Mk(s[d].d, u, s[d].e, s[d].sib)) <= dom
    modifies dom, fake
    ensures m.Node? && Inorder(m) == Inorder(Mk(s[d].d, u, s[d].e, s[d].sib))
    ensures SpineNodes(s, d) + Nodes(m) <= dom
    ensures done ==> Hung(Cells(dom), fake.p.l, s, d, m.e, m) == true
    ensures !done ==> Sunken(Cells(dom), fake.p.l, s, d, m.e, m) == true
  {
    var q, which := path[d + 1], dir[d + 1];
    var b1, b2 := Away(which), 2 * Away(which);
    ghost var h := Cells(dom);
    q.balance := q.balance + b1;
    ghost var f := Cells(dom);
    RetraceStep(h, f, fake.p.l, s, d, p, u);
    m := Mk(s[d].d, u, s[d].e, s[d].sib);
    done := q.balance == b1;
    if q.balance == b2 {
      done, m := RotateAndLink(fake, path, dir, d, f, s, u, dom);
    }
  }

  /** The rebalancing loop of kavl_erase. */
  method Retrace(fake: Elem, path: seq<Elem>, dir: seq<bool>, ghost s: seq<Step>, ghost q0: Elem?, ghost u0: Tree,
                 ghost dom: set<Elem>) returns (ghost t': Tree)
    requires Recorded(fake, path, dir, s) == true && fake !in dom
    requires Sunken(Cells(dom), fake.p.l, s, |s|, q0, u0) && SpineNodes(s, |s|) + Nodes(u0) <= dom
    modifies dom, fake
    ensures Good(Cells(dom), fake.p.l, t') == true
    ensures Inorder(t') == Before(s, |s|) + Inorder(u0) + After(s, |s|)
  {
    var d := |path| - 1;
    ghost var p, u := q0, u0;
    PlugInorder(s, |s|, u0);
    while d > 0
      invariant 0 <= d <= |s|
      invariant Sunken(Cells(dom), fake.p.l, s, d, p, u) == true && SpineNodes(s, d) + Nodes(u) <= dom
      invariant Inorder(Plug(s, d, u)) == Inorder(Plug(s, |s|, u0))
    {
      d := d - 1;
      PlugInorder(s, d, Mk(s[d].d, u, s[d].e, s[d].sib));
      var done;
      ghost var m;
      done, m := RetraceRound(fake, path, dir, d, s, p, u, dom);
      PlugInorder(s, d, m);
      p, u := m.e, m;
      if done {
        Assemble(Cells(dom), fake.p.l, s, d, p, u);
        t' := Plug(s, d, u);
        return;
      }
    }
    t' := u;
  }

  // ---------------------------------------------------------------------------------------
  // Unlinking

  /** The cells of the steps `s[m..n]` after they lost a node and the last one was linked to `q`. */
  ghost predicate Cut(g: Heap, h: Heap, s: seq<Step>, m: nat, n: nat, q: Elem?)
    requires m <= n <= |s|
  {
    forall k :: m <= k < n ==>
      && s[k].e in g && s[k].e in h
      && h[s[k].e] == Cell(if k == n - 1 then g[s[k].e].p.With(s[k].d, q) else g[s[k].e].p,
                           g[s[k].e].balance, g[s[k].e].size - 1)
      && (k + 1 < n ==> g[s[k].e].p.At(s[k].d) == s[k + 1].e)
      && Agree(g, h, Nodes(s[k].sib))
  }

  lemma {:induction false} CutShortened(g: Heap, h: Heap, s: seq<Step>, m: nat, n: nat, i: nat, q: Elem?)
    requires m <= i <= n <= |s| && Cut(g, h, s, m, n, q)
    ensures Shortened(g, h, s, m, i, if i == n then q else s[i].e) == true
    decreases i
  {
    if i > m {
      CutShortened(g, h, s, m, n, i - 1, q);
    }
  }

  /** Exactly the sizes of the nodes in `x` went down by one. */
  ghost predicate Dropped(g: Heap, h: Heap, x: set<Elem>) {
    && h.Keys == g.Keys && x <= g.Keys
    && (forall e :: e in x ==> h[e] == Cell(g[e].p, g[e].balance, g[e].size - 1))
    && Agree(g, h, g.Keys - x)
  }

  /** `for (i = a; i < b; ++i) --path[i]->size` */
  method DropSizes(path: seq<Elem>, a: nat, b: nat, ghost dom: set<Elem>)
    requires a <= b <= |path|
    requires forall k :: a <= k < b ==> path[k] in dom && path[k].size > 0
    requires forall k, m :: a <= k < m < b ==> path[k] != path[m]
    modifies dom
    ensures Dropped(old(Cells(dom)), Cells(dom), Range(path, a, b))
  {
    ghost var g := Cells(dom);
    for i := a to b
      invariant Dropped(g, Cells(dom), Range(path, a, i)) == true
      invariant forall k :: i <= k < b ==> path[k].size > 0
    {
      RangeMore(path, a, i);
      DropSize(path[i], g, Range(path, a, i), dom);
    }
  }

  method DropSize(p: Elem, ghost g: Heap, ghost done: set<Elem>, ghost dom: set<Elem>)
    requires p in dom && p !in done && p.size > 0 && Dropped(g, Cells(dom), done) == true
    modifies p
    ensures Dropped(g, Cells(dom), done + {p}) == true
  {
    p.size := p.size - 1;
  }

  lemma RangeMore(path: seq<Elem>, a: nat, i: nat)
    requires a <= i < |path|
    ensures Range(path, a, i + 1) == Range(path, a, i) + {path[i]}
    ensures (forall k :: a <= k < i ==> path[k] != path[i]) ==> path[i] !in Range(path, a, i)
  {
  }

  ghost function Range(path: seq<Elem>, a: nat, b: nat): set<Elem>
    requires a <= b <= |path|
  {
    set k | a <= k < b :: path[k]
  }

  /** The nodes of the steps `s[m..]`. */
  ghost function Tail(s: seq<Step>, m: nat): set<Elem> {
    set k | m <= k < |s| :: s[k].e
  }

  /** The path arrays after the slot of step `n` was filled with `r`. */
  lemma RecordedSlot(fake: Elem, path: seq<Elem>, dir: seq<bool>, s: seq<Step>, n: nat, l: Tree, r: Elem, path': seq<Elem>)
    requires Recorded(fake, path, dir, s) == true && n < |s| && s[n].d && path' == path[n + 1 := r]
    ensures Recorded(fake, path', dir, s[n := Step(true, r, l)]) == true
    ensures Range(path', n + 2, |path'|) == Tail(s, n + 1)
    ensures forall k :: n + 2 <= k < |path'| ==> path'[k] == s[k - 1].e
  {
    assert forall k :: n + 1 <= k < |s| ==> path'[k + 1] == s[k].e;
    assert Tail(s, n + 1) <= Range(path', n + 2, |path'|);
    assert forall k :: n + 2 <= k < |path'| ==> path'[k] == s[k - 1].e;
  }

  lemma RecordedPush(fake: Elem, path: seq<Elem>, dir: seq<bool>, s: seq<Step>, z: Step)
    requires Recorded(fake, path, dir, s) == true
    ensures Recorded(fake, path + [z.e], dir + [z.d], s + [z]) == true
  {
  }

  lemma RecordedPop(fake: Elem, path: seq<Elem>, dir: seq<bool>, s: seq<Step>, z: Step)
    requires Recorded(fake, path, dir, s + [z]) == true
    ensures |path| == |dir| == |s| + 2 && path[|s| + 1] == z.e
    ensures Recorded(fake, path[..|s| + 1], dir[..|s| + 1], s) == true
  {
    assert (s + [z])[|s|] == z;
    assert forall k :: 0 <= k < |s| ==> (s + [z])[k] == s[k];
  }

  lemma RecordedRange(fake: Elem, path: seq<Elem>, dir: seq<bool>, s: seq<Step>)
    requires Recorded(fake, path, dir, s) == true
    ensures Range(path, 1, |path|) == Path(s, |s|)
    ensures forall k :: 1 <= k < |path| ==> path[k] == s[k - 1].e
  {
    assert forall k :: 0 <= k < |s| ==> path[k + 1] == s[k].e;
    assert Path(s, |s|) <= Range(path, 1, |path|);
    assert forall k :: 1 <= k < |path| ==> path[k] == s[k - 1].e;
  }

  lemma PositiveSize(g: Heap, root: Elem?, s: seq<Step>, n: nat, p: Elem, u: Tree)
    requires n <= |s| && Hung(g, root, s, n, p, u)
    ensures forall k :: 0 <= k < n ==> s[k].e in g && g[s[k].e].size > 0
  {
    PositiveSpine(g, root, s, n, p, Count(u), Ht(u));
  }

  lemma {:induction false} PositiveSpine(g: Heap, root: Elem?, s: seq<Step>, n: nat, p: Elem?, c: int, ht: int)
    requires n <= |s| && Spine(g, root, s, n, p, c, ht) == true && c >= 0
    ensures forall k :: 0 <= k < n ==> s[k].e in g && g[s[k].e].size > 0
  {
    if n > 0 {
      var z := s[n - 1];
      PositiveSpine(g, root, s, n - 1, z.e, CountUp(c, z.sib), HtUp(ht, z.sib));
    }
  }

  /** The path above the removed node, from the size loop and the link; `x` is changed below it. */
  lemma CutAbove(g: Heap, g1: Heap, h: Heap, root: Elem?, root': Elem?, s: seq<Step>, n: nat, p: Elem, c: int, ht: int,
                 q: Elem?, x: set<Elem>)
    requires n <= |s| && Spine(g, root, s, n, p, c, ht) == true && x !! SpineNodes(s, n)
    requires SpineNodes(s, n) <= g.Keys
    requires g1.Keys == g.Keys && forall k :: 0 <= k < n ==>
      s[k].e in g && g1[s[k].e] == Cell(g[s[k].e].p, g[s[k].e].balance, g[s[k].e].size - 1)
    requires Relinked(g1, h, root, root', s, n, q)
    requires Agree(g, h, g.Keys - x - Path(s, n))
    ensures Shortened(g, h, s, 0, n, q) == true && root' == RootAfter(root, n, q)
  {
    hide Nodes;
    SpineElems(g, root, s, n, p, c, ht);
    SpineLinks(g, root, s, n, p, c, ht);
    assert Cut(g, h, s, 0, n, q);
    CutShortened(g, h, s, 0, n, n, q);
  }

  /** What the size loop leaves: the snapshot before it and the one after. */
  ghost predicate Counted(g: Heap, g1: Heap, root: Elem?, s: seq<Step>, p: Elem, l: Tree, r: Tree) {
    && Hung(g, root, s, |s|, p, Node(l, p, r)) == true
    && Dropped(g, g1, Path(s, |s|)) == true
    && SpineNodes(s, |s|) + Nodes(Node(l, p, r)) <= g.Keys
  }

  lemma CountedFacts(g: Heap, g1: Heap, root: Elem?, s: seq<Step>, p: Elem, l: Tree, r: Tree)
    requires Counted(g, g1, root, s, p, l, r) == true
    ensures g1.Keys == g.Keys && Agree(g, g1, g.Keys - Path(s, |s|)) && p in g && g1[p] == g[p]
    ensures Path(s, |s|) <= SpineNodes(s, |s|) && SpineNodes(s, |s|) !! Nodes(l) + {p} + Nodes(r)
    ensures SpineNodes(s, |s|) + Nodes(l) + {p} + Nodes(r) <= g.Keys
    ensures p !in Nodes(l) + Nodes(r) && Nodes(l) !! Nodes(r)
    ensures Good(g, g[p].p.l, l) == true && Good(g, g[p].p.r, r) == true
    ensures Spine(g, root, s, |s|, p, Count(Node(l, p, r)), Ht(Node(l, p, r))) == true
    ensures forall k :: 0 <= k < |s| ==>
      s[k].e in g && g1[s[k].e] == Cell(g[s[k].e].p, g[s[k].e].balance, g[s[k].e].size - 1)
    ensures forall k :: 0 <= k < |s| ==> s[k].e in SpineNodes(s, |s|)
  {
    var u := Node(l, p, r);
    SpineElems(g, root, s, |s|, p, Count(u), Ht(u));
  }

  /** Case 1, no right child: the left one takes the place. */
  method UnlinkCase1(fake: Elem, p: Elem, path: seq<Elem>, dir: seq<bool>, ghost g: Heap, ghost s: seq<Step>, ghost l: Tree,
                     ghost dom: set<Elem>)
    requires Recorded(fake, path, dir, s) == true && fake !in dom && g.Keys == dom
    requires Counted(g, Cells(dom), fake.p.l, s, p, l, Leaf) == true
    modifies dom, fake
    ensures Sunken(Cells(dom), fake.p.l, s, |s|, g[p].p.l, l)
  {
    hide Spine;
    ghost var g1, root := Cells(dom), fake.p.l;
    CountedFacts(g, g1, root, s, p, l, Leaf);
    SetLink(fake, path, dir, |path| - 1, p.p.l, s, dom);
    ghost var h := Cells(dom);
    ghost var u := Node(l, p, Leaf);
    CutAbove(g, g1, h, root, fake.p.l, s, |s|, p, Count(u), Ht(u), g[p].p.l, {});
    UnlinkLast(g, h, root, s, p, l);
  }

  /** The updates of case 2, cell by cell. */
  ghost predicate Near(g: Heap, h1: Heap, h2: Heap, h3: Heap, h4: Heap, root: Elem?, root': Elem?, s: seq<Step>, p: Elem, q: Elem) {
    && p in g && q in g
    && Wrote(h1, h2, q, Cell(g[q].p.With(false, g[p].p.l), g[p].balance, g[q].size))
    && Relinked(h2, h3, root, root', s, |s|, q) && h3.Keys == h2.Keys && Agree(h2, h3, h2.Keys - Path(s, |s|))
    && Wrote(h3, h4, q, Cell(g[q].p.With(false, g[p].p.l), g[p].balance, g[p].size - 1))
  }

  lemma NearSunken(g: Heap, h1: Heap, h2: Heap, h3: Heap, h4: Heap, root: Elem?, root': Elem?, s: seq<Step>,
                   p: Elem, l: Tree, q: Elem, rr: Tree)
    requires Counted(g, h1, root, s, p, l, Node(Leaf, q, rr)) == true
    requires Near(g, h1, h2, h3, h4, root, root', s, p, q)
    ensures Sunken(h4, root', s + [Step(true, q, l)], |s| + 1, g[q].p.r, rr) == true
  {
    hide Spine, Max, Ht, HtUp, Count, SpineNodes, Lean, Path, Nodes;
    var r := Node(Leaf, q, rr);
    var u := Node(l, p, r);
    CountedFacts(g, h1, root, s, p, l, r);
    GoodUnmk(g, true, rr, q, Leaf);
    assert Agree(g, h4, g.Keys - {q} - Path(s, |s|));
    CutAbove(g, h2, h4, root, root', s, |s|, p, Count(u), Ht(u), q, {q});
    UnlinkNear(g, h4, root, s, p, l, q, rr);
  }

  /** Case 2, the right child has no left child: it moves up and gets the left subtree. */
  method UnlinkCase2(fake: Elem, p: Elem, q: Elem, path: seq<Elem>, dir: seq<bool>, ghost g: Heap, ghost s: seq<Step>,
                     ghost l: Tree, ghost rr: Tree, ghost dom: set<Elem>)
    returns (path': seq<Elem>, dir': seq<bool>)
    requires Recorded(fake, path, dir, s) == true && fake !in dom && g.Keys == dom
    requires Counted(g, Cells(dom), fake.p.l, s, p, l, Node(Leaf, q, rr)) == true
    modifies dom, fake
    ensures Sunken(Cells(dom), fake.p.l, s + [Step(true, q, l)], |s| + 1, g[q].p.r, rr) == true
    ensures Recorded(fake, path', dir', s + [Step(true, q, l)]) == true
  {
    hide Counted, Nodes, SpineNodes, Ht, Hung, Dropped, Spine, Lean, Good, Path, Sunken, Count, Relinked;
    ghost var h1, root := Cells(dom), fake.p.l;
    NearStart(g, h1, root, s, p, l, q, rr);
    q.p := q.p.With(false, p.p.l);
    q.balance := p.balance;
    ghost var h2 := Cells(dom);
    SetLink(fake, path, dir, |path| - 1, q, s, dom);
    ghost var h3 := Cells(dom);
    path', dir' := path + [q], dir + [true];
    RecordedPush(fake, path, dir, s, Step(true, q, l));
    q.size := p.size - 1;
    NearSunken(g, h1, h2, h3, Cells(dom), root, fake.p.l, s, p, l, q, rr);
  }

  lemma NearStart(g: Heap, h1: Heap, root: Elem?, s: seq<Step>, p: Elem, l: Tree, q: Elem, rr: Tree)
    requires Counted(g, h1, root, s, p, l, Node(Leaf, q, rr)) == true
    ensures p in g && q in g && h1.Keys == g.Keys && h1[p] == g[p] && h1[q] == g[q] && p != q && g[p].size > 0
    ensures p !in Path(s, |s|) && q !in Path(s, |s|) && SpineNodes(s, |s|) <= g.Keys
    ensures |s| > 0 ==> s[|s| - 1].e in SpineNodes(s, |s|)
  {
    var r := Node(Leaf, q, rr);
    CountedFacts(g, h1, root, s, p, l, r);
    GoodUnmk(g, true, rr, q, Leaf);
    GoodUnmk(g, true, r, p, l);
  }

  // ---------------------------------------------------------------------------------------
  // The order, read from the end of the path upwards

  /** The in-order sequence below step `m` when the sequence below the path is `mid`. */
  ghost function Order(s: seq<Step>, m: nat, n: nat, mid: seq<Elem>): seq<Elem>
    requires m <= n <= |s|
  {
    if n == m then mid
    else
      var z := s[n - 1];
      Order(s, m, n - 1, if z.d then Inorder(z.sib) + [z.e] + mid else mid + [z.e] + Inorder(z.sib))
  }

  lemma {:induction false} OrderIs(s: seq<Step>, n: nat, mid: seq<Elem>)
    requires n <= |s|
    ensures Order(s, 0, n, mid) == Before(s, n) + mid + After(s, n)
  {
    if n > 0 {
      var z := s[n - 1];
      OrderIs(s, n - 1, if z.d then Inorder(z.sib) + [z.e] + mid else mid + [z.e] + Inorder(z.sib));
    }
  }

  lemma {:induction false} OrderPart(s: seq<Step>, s': seq<Step>, m: nat, n: nat, mid: seq<Elem>)
    requires m <= n <= |s| && n <= |s'| && forall k :: m <= k < n ==> s'[k] == s[k]
    ensures Order(s', m, n, mid) == Order(s, m, n, mid)
    decreases n
  {
    if n > m {
      var z := s[n - 1];
      OrderPart(s, s', m, n - 1, if z.d then Inorder(z.sib) + [z.e] + mid else mid + [z.e] + Inorder(z.sib));
    }
  }

  lemma {:induction false} OrderSplit(s: seq<Step>, m: nat, n: nat, mid: seq<Elem>)
    requires m <= n <= |s|
    ensures Order(s, 0, n, mid) == Order(s, 0, m, Order(s, m, n, mid))
    decreases n
  {
    if n > m {
      var z := s[n - 1];
      OrderSplit(s, m, n - 1, if z.d then Inorder(z.sib) + [z.e] + mid else mid + [z.e] + Inorder(z.sib));
    }
  }

  /** Below steps to the left the first node stays first. */
  lemma {:induction false} OrderFirst(s: seq<Step>, m: nat, n: nat, r: Elem, x: seq<Elem>)
    requires m <= n <= |s| && forall k :: m <= k < n ==> !s[k].d
    ensures Order(s, m, n, [r] + x) == [r] + Order(s, m, n, x)
    decreases n
  {
    if n > m {
      var z := s[n - 1];
      assert ([r] + x) + [z.e] + Inorder(z.sib) == [r] + (x + [z.e] + Inorder(z.sib));
      OrderFirst(s, m, n - 1, r, x + [z.e] + Inorder(z.sib));
    }
  }

  /** Where the walk of case 3 is: `sp` leads over `p` and then left to `r`. */
  ghost predicate Leftmost(g: Heap, root: Elem?, s: seq<Step>, p: Elem, l: Tree, rt: Tree, sp: seq<Step>, r: Elem?, w: Tree) {
    && Hung(g, root, sp, |sp|, r, w) == true
    && |sp| > |s| && (forall k :: 0 <= k < |s| ==> sp[k] == s[k]) && sp[|s|] == Step(true, p, l)
    && (forall k :: |s| < k < |sp| ==> !sp[k].d)
    && Order(sp, |s| + 1, |sp|, Inorder(w)) == Inorder(rt)
    && |sp| + Ht(w) <= |s| + 1 + Ht(rt)
    && SpineNodes(sp, |sp|) + Nodes(w) == SpineNodes(s, |s|) + Nodes(Node(l, p, rt))
  }

  lemma LeftmostStart(g: Heap, root: Elem?, s: seq<Step>, p: Elem, l: Tree, rt: Tree) returns (sp: seq<Step>)
    requires Hung(g, root, s, |s|, p, Node(l, p, rt)) == true
    ensures sp == s + [Step(true, p, l)] && p in g && Leftmost(g, root, s, p, l, rt, sp, g[p].p.r, rt)
  {
    hide SpineNodes, Max, Plug, Ht, Nodes, Lean, Good, CountUp, Count, Mk, Before, Spine, Inorder;
    var z, u := Descend(g, root, s, p, Node(l, p, rt), true);
    sp := s + [z];
    PlugNodes(sp, |sp|, u);
    PlugNodes(s, |s|, Node(l, p, rt));
  }

  lemma LeftmostStep(g: Heap, root: Elem?, s: seq<Step>, p: Elem, l: Tree, rt: Tree, sp: seq<Step>, q: Elem, w: Tree)
    returns (sp': seq<Step>)
    requires Leftmost(g, root, s, p, l, rt, sp, q, w) == true && w.Node?
    ensures w.e == q && q in g && sp' == sp + [Step(false, q, w.r)]
    ensures Leftmost(g, root, s, p, l, rt, sp', g[q].p.l, w.l)
  {
    hide Nodes, SpineNodes, Spine;
    var z, u := Descend(g, root, sp, q, w, false);
    sp' := sp + [z];
    OrderPart(sp, sp', |s| + 1, |sp|, Inorder(w));
    PlugNodes(sp', |sp'|, u);
    PlugNodes(sp, |sp|, w);
  }

  lemma Assoc<T>(a: seq<T>, b: seq<T>, c: seq<T>)
    ensures a + b + c == a + (b + c)
  {
  }

  lemma Case3Top(s: seq<Step>, s': seq<Step>, l: Tree, r: Elem, x: seq<Elem>, y: seq<Elem>)
    requires |s'| > |s| && s'[|s|] == Step(true, r, l) && y == [r] + x
    requires forall k :: 0 <= k < |s| ==> s'[k] == s[k]
    ensures Order(s', 0, |s| + 1, x) == Order(s, 0, |s|, Inorder(l) + y)
  {
    Assoc(Inorder(l), [r], x);
    OrderPart(s, s', 0, |s|, Inorder(l) + y);
  }

  /** In case 3 only `p` leaves the order: the successor `r` moves up to its place. */
  lemma Case3Order(s: seq<Step>, l: Tree, irt: seq<Elem>, sp: seq<Step>, r: Elem, irr: seq<Elem>, s': seq<Step>)
    requires |s'| == |sp| > |s| && s'[|s|] == Step(true, r, l)
    requires forall k :: 0 <= k < |s| ==> s'[k] == s[k]
    requires forall k :: |s| < k < |sp| ==> s'[k] == sp[k] && !sp[k].d
    requires Order(sp, |s| + 1, |sp|, [r] + irr) == irt
    ensures Order(s', 0, |s'|, irr) == Order(s, 0, |s|, Inorder(l) + irt)
  {
    hide Order;
    var n := |s|;
    OrderFirst(sp, n + 1, |sp|, r, irr);
    OrderPart(sp, s', n + 1, |sp|, irr);
    OrderSplit(s', n + 1, |s'|, irr);
    Case3Top(s, s', l, r, Order(s', n + 1, |s'|, irr), irt);
  }

  /** The heap has the pointers of `g`. */
  ghost predicate SamePointers(g: Heap, h: Heap) {
    h.Keys == g.Keys && forall e :: e in g ==> h[e].p == g[e].p
  }

  /** Case 3 of kavl_erase, the search for the successor `r` and its parent `q`. */
  method WalkLeft(fake: Elem, q0: Elem, path: seq<Elem>, dir: seq<bool>, ghost g: Heap, ghost root: Elem?, ghost s: seq<Step>,
                  ghost p: Elem, ghost l: Tree, ghost rt: Tree, ghost sp0: seq<Step>, ghost dom: set<Elem>)
    returns (q: Elem, r: Elem, path': seq<Elem>, dir': seq<bool>, ghost sp: seq<Step>, ghost rr: Tree)
    requires Leftmost(g, root, s, p, l, rt, sp0, q0, rt) == true && |sp0| == |s| + 1 && rt.Node? && rt.l.Node?
    requires SamePointers(g, Cells(dom)) && Recorded(fake, path, dir, sp0) && |s| + 1 + Ht(rt) <= 45
    ensures Leftmost(g, root, s, p, l, rt, sp, r, Node(Leaf, r, rr)) == true && |sp| > |s| + 1
    ensures q == sp[|sp| - 1].e && Recorded(fake, path', dir', sp)
  {
    hide Spine, Nodes, Ht, SpineNodes, Max, Lean, CountUp, Order;
    ghost var w := rt.l;
    sp := LeftmostStep(g, root, s, p, l, rt, sp0, q0, rt);
    q, r := q0, q0.p.l;
    assert |path| < KAVL_MAX_DEPTH;
    path', dir' := path + [q], dir + [false];
    LeftmostChild(g, root, s, p, l, rt, sp, r, w);
    while r.p.l != null
      invariant Leftmost(g, root, s, p, l, rt, sp, r, w) == true && w.Node? && r in g && |sp| > |s| + 1
      invariant g[r].p.l == null <==> w.l == Leaf
      invariant q == sp[|sp| - 1].e && Recorded(fake, path', dir', sp)
      decreases w
    {
      LeftmostDepth(g, root, s, p, l, rt, sp, r, w);
      sp := LeftmostStep(g, root, s, p, l, rt, sp, r, w);
      q, r := r, r.p.l;
      assert |path'| < KAVL_MAX_DEPTH;
      path', dir' := path' + [q], dir' + [false];
      w := w.l;
      LeftmostChild(g, root, s, p, l, rt, sp, r, w);
    }
    rr := w.r;
  }

  lemma LeftmostDepth(g: Heap, root: Elem?, s: seq<Step>, p: Elem, l: Tree, rt: Tree, sp: seq<Step>, r: Elem?, w: Tree)
    requires Leftmost(g, root, s, p, l, rt, sp, r, w) == true && |s| + 1 + Ht(rt) <= 45
    ensures |sp| <= 45
  {
  }

  lemma LeftmostChild(g: Heap, root: Elem?, s: seq<Step>, p: Elem, l: Tree, rt: Tree, sp: seq<Step>, r: Elem?, w: Tree)
    requires Leftmost(g, root, s, p, l, rt, sp, r, w) == true && w.Node?
    ensures r == w.e && w.e in g && (g[w.e].p.l == null <==> w.l == Leaf)
  {
    GoodUnmk(g, false, w.l, w.e, w.r);
    RootSize(g, g[w.e].p.l, w.l);
  }

  /** The facts about the path to the successor that the updates of case 3 rely on. */
  ghost predicate Successor(g: Heap, sp: seq<Step>, n: nat, p: Elem, q: Elem, r: Elem, l: Tree, rr: Tree) {
    && n + 1 < |sp| && sp[n] == Step(true, p, l) && sp[|sp| - 1].e == q && p in g && r in g
    && (forall k :: 0 <= k < |sp| ==> sp[k].e in g && sp[k].e != r && g[sp[k].e].size > 0 && (k > n ==> !sp[k].d))
    && (forall k, m :: 0 <= k < m < |sp| ==> sp[k].e != sp[m].e)
    && (forall k, m :: 0 <= k < |sp| && 0 <= m < |sp| ==> sp[k].e !in Nodes(sp[m].sib))
    && (forall k :: 0 <= k < |sp| ==> r !in Nodes(sp[k].sib))
    && (forall k :: 0 <= k < |sp| - 1 ==> g[sp[k].e].p.At(sp[k].d) == sp[k + 1].e)
    && r !in Nodes(rr) && (forall k :: 0 <= k < |sp| ==> sp[k].e !in Nodes(rr))
  }

  lemma SuccessorFacts(g: Heap, root: Elem?, s: seq<Step>, p: Elem, l: Tree, rt: Tree, sp: seq<Step>, r: Elem, rr: Tree)
    requires Leftmost(g, root, s, p, l, rt, sp, r, Node(Leaf, r, rr)) == true && |sp| > |s| + 1
    ensures Successor(g, sp, |s|, p, sp[|sp| - 1].e, r, l, rr)
  {
    var v := Node(Leaf, r, rr);
    SpineElems(g, root, sp, |sp|, r, Count(v), Ht(v));
    SpineLinks(g, root, sp, |sp|, r, Count(v), Ht(v));
    PositiveSize(g, root, sp, |sp|, r, v);
    GoodUnmk(g, true, rr, r, Leaf);
  }

  /** The first two rounds of updates of case 3: `r` takes over from `p`, then is linked above. */
  ghost predicate Promoted(g: Heap, h1: Heap, h2: Heap, h3: Heap, root: Elem?, root': Elem?, sp: seq<Step>, n: nat,
                           p: Elem, q: Elem, r: Elem)
    requires n < |sp| && p in g && q in g && r in g
  {
    && Dropped(g, h1, Path(sp, n)) && h1.Keys == g.Keys
    && h2.Keys == g.Keys && Agree(h1, h2, h1.Keys - {q, r})
    && h2[r] == Cell(g[p].p, g[p].balance, g[r].size)
    && h2[q] == Cell(g[q].p.With(false, g[r].p.r), g[q].balance, g[q].size)
    && Relinked(h2, h3, root, root', sp, n, r) && Agree(h2, h3, h2.Keys - Path(sp, n)) && h3.Keys == g.Keys
  }

  /** All four rounds, cell by cell. */
  ghost predicate Spliced(g: Heap, h1: Heap, h2: Heap, h3: Heap, h4: Heap, h5: Heap, root: Elem?, root': Elem?,
                          sp: seq<Step>, n: nat, p: Elem, q: Elem, r: Elem)
    requires n < |sp| && p in g && q in g && r in g
  {
    && Promoted(g, h1, h2, h3, root, root', sp, n, p, q, r)
    && Dropped(h3, h4, Tail(sp, n + 1))
    && Wrote(h4, h5, r, Cell(g[p].p, g[p].balance, g[p].size - 1))
  }

  lemma SplicedCell(g: Heap, h1: Heap, h2: Heap, h3: Heap, h4: Heap, h5: Heap, root: Elem?, root': Elem?,
                    sp: seq<Step>, n: nat, p: Elem, q: Elem, r: Elem, l: Tree, rr: Tree, k: nat)
    requires Successor(g, sp, n, p, q, r, l, rr) == true && n < |sp| && p in g && q in g && r in g
    requires Spliced(g, h1, h2, h3, h4, h5, root, root', sp, n, p, q, r) == true
    requires n < k < |sp|
    ensures sp[k].e in g && sp[k].e in h5
    ensures h5[sp[k].e] == Cell(if k == |sp| - 1 then g[sp[k].e].p.With(sp[k].d, g[r].p.r) else g[sp[k].e].p,
                                g[sp[k].e].balance, g[sp[k].e].size - 1)
  {
    hide Promoted, Successor, Path;
    BelowFacts(g, sp, n, p, q, r, l, rr, k);
    PromotedCell(g, h1, h2, h3, root, root', sp, n, p, q, r, sp[k].e);
    assert sp[k].e in Tail(sp, n + 1);
  }

  lemma BelowFacts(g: Heap, sp: seq<Step>, n: nat, p: Elem, q: Elem, r: Elem, l: Tree, rr: Tree, k: nat)
    requires Successor(g, sp, n, p, q, r, l, rr) && n < k < |sp|
    ensures sp[k].e in g && sp[k].e != r && sp[k].e !in Path(sp, n) && !sp[k].d && (sp[k].e == q <==> k == |sp| - 1)
  {
  }

  lemma PromotedCell(g: Heap, h1: Heap, h2: Heap, h3: Heap, root: Elem?, root': Elem?, sp: seq<Step>, n: nat,
                     p: Elem, q: Elem, r: Elem, e: Elem)
    requires n < |sp| && p in g && q in g && r in g && Promoted(g, h1, h2, h3, root, root', sp, n, p, q, r)
    requires e in g && e != r && e !in Path(sp, n)
    ensures h3.Keys == g.Keys
    ensures h3[e] == if e == q then Cell(g[q].p.With(false, g[r].p.r), g[q].balance, g[q].size) else g[e]
  {
    hide Relinked, SpineNodes;
    assert h1[e] == g[e];
    assert h3[e] == h2[e];
  }

  /** Subtrees beside the path and below `r` are untouched. */
  lemma SplicedOff(g: Heap, h1: Heap, h2: Heap, h3: Heap, h4: Heap, h5: Heap, root: Elem?, root': Elem?,
                   sp: seq<Step>, n: nat, p: Elem, q: Elem, r: Elem, x: set<Elem>)
    requires n < |sp| && p in g && q in g && r in g && sp[|sp| - 1].e == q
    requires Spliced(g, h1, h2, h3, h4, h5, root, root', sp, n, p, q, r) == true
    requires r !in x && forall k :: 0 <= k < |sp| ==> sp[k].e !in x
    ensures Agree(g, h5, x)
  {
    assert q !in x;
    assert x !! Path(sp, n);
    assert Agree(g, h1, x) && Agree(h1, h2, x) && Agree(h2, h3, x) && Agree(h3, h4, x) && Agree(h4, h5, x);
  }

  lemma SplicedBelow(g: Heap, h1: Heap, h2: Heap, h3: Heap, h4: Heap, h5: Heap, root: Elem?, root': Elem?,
                     sp: seq<Step>, n: nat, p: Elem, q: Elem, r: Elem, l: Tree, rr: Tree)
    requires Successor(g, sp, n, p, q, r, l, rr) && Spliced(g, h1, h2, h3, h4, h5, root, root', sp, n, p, q, r) == true
    ensures Shortened(g, h5, sp, n + 1, |sp|, g[r].p.r) == true
  {
    hide Spliced;
    forall k | n < k < |sp|
      ensures sp[k].e in g && sp[k].e in h5
      ensures h5[sp[k].e] == Cell(if k == |sp| - 1 then g[sp[k].e].p.With(sp[k].d, g[r].p.r) else g[sp[k].e].p,
                                  g[sp[k].e].balance, g[sp[k].e].size - 1)
      ensures Agree(g, h5, Nodes(sp[k].sib))
    {
      SplicedCell(g, h1, h2, h3, h4, h5, root, root', sp, n, p, q, r, l, rr, k);
      SplicedOff(g, h1, h2, h3, h4, h5, root, root', sp, n, p, q, r, Nodes(sp[k].sib));
    }
    assert Cut(g, h5, sp, n + 1, |sp|, g[r].p.r);
    CutShortened(g, h5, sp, n + 1, |sp|, |sp|, g[r].p.r);
  }

  lemma SplicedUp(g: Heap, h1: Heap, h2: Heap, h3: Heap, h4: Heap, h5: Heap, root: Elem?, root': Elem?,
                  sp: seq<Step>, n: nat, p: Elem, q: Elem, r: Elem, l: Tree, rr: Tree, k: nat)
    requires Successor(g, sp, n, p, q, r, l, rr) == true && n < |sp| && p in g && q in g && r in g
    requires Spliced(g, h1, h2, h3, h4, h5, root, root', sp, n, p, q, r) == true
    requires SpineNodes(sp, n) <= g.Keys && sp[|sp| - 1].e !in SpineNodes(sp, n)
    requires k < n && sp[k].e in SpineNodes(sp, n)
    ensures sp[k].e in g && sp[k].e in h5
    ensures h5[sp[k].e] == Cell(if k == n - 1 then g[sp[k].e].p.With(sp[k].d, r) else g[sp[k].e].p,
                                g[sp[k].e].balance, g[sp[k].e].size - 1)
  {
    hide SpineNodes;
    var e := sp[k].e;
    assert e in Path(sp, n) && e != r && e != q;
    assert h1[e] == Cell(g[e].p, g[e].balance, g[e].size - 1);
    assert h2[e] == h1[e];
    assert k < n - 1 ==> e != sp[n - 1].e && h3[e] == h2[e];
    assert e !in Tail(sp, n + 1);
    assert h4[e] == h3[e] && h5[e] == h4[e];
  }

  lemma SplicedAbove(g: Heap, h1: Heap, h2: Heap, h3: Heap, h4: Heap, h5: Heap, root: Elem?, root': Elem?,
                     sp: seq<Step>, n: nat, p: Elem, q: Elem, r: Elem, l: Tree, rr: Tree)
    requires Successor(g, sp, n, p, q, r, l, rr) && Spliced(g, h1, h2, h3, h4, h5, root, root', sp, n, p, q, r) == true
    requires SpineNodes(sp, n) <= g.Keys && q !in SpineNodes(sp, n)
    requires forall k :: 0 <= k < n ==> sp[k].e in SpineNodes(sp, n)
    ensures Shortened(g, h5, sp, 0, n, r) == true
  {
    forall k | 0 <= k < n
      ensures sp[k].e in g && sp[k].e in h5
      ensures h5[sp[k].e] == Cell(if k == n - 1 then g[sp[k].e].p.With(sp[k].d, r) else g[sp[k].e].p,
                                  g[sp[k].e].balance, g[sp[k].e].size - 1)
      ensures Agree(g, h5, Nodes(sp[k].sib))
    {
      SplicedUp(g, h1, h2, h3, h4, h5, root, root', sp, n, p, q, r, l, rr, k);
      SplicedOff(g, h1, h2, h3, h4, h5, root, root', sp, n, p, q, r, Nodes(sp[k].sib));
    }
    assert Cut(g, h5, sp, 0, n, r);
    CutShortened(g, h5, sp, 0, n, n, r);
  }

  /** Case 3 on the heap, from the updates to the path and subtree they leave. */
  lemma SplicedSunken(g: Heap, h1: Heap, h2: Heap, h3: Heap, h4: Heap, h5: Heap, root: Elem?, root': Elem?,
                      s: seq<Step>, p: Elem, l: Tree, rt: Tree, sp: seq<Step>, q: Elem, r: Elem, rr: Tree)
    requires Leftmost(g, root, s, p, l, rt, sp, r, Node(Leaf, r, rr)) == true && |sp| > |s| + 1 && q == sp[|sp| - 1].e
    requires p in g && q in g && r in g && SpineNodes(sp, |sp|) <= g.Keys
    requires |s| < |sp| && Spliced(g, h1, h2, h3, h4, h5, root, root', sp, |s|, p, q, r) == true
    ensures Sunken(h5, root', sp[|s| := Step(true, r, l)], |sp|, g[r].p.r, rr) == true
  {
    var n, v := |s|, Node(Leaf, r, rr);
    SuccessorFacts(g, root, s, p, l, rt, sp, r, rr);
    SpineElems(g, root, sp, |sp|, r, Count(v), Ht(v));
    SpineAt(g, root, sp, n, |sp|, r, Count(v), Ht(v));
    SplicedBelow(g, h1, h2, h3, h4, h5, root, root', sp, n, p, q, r, l, rr);
    SplicedAbove(g, h1, h2, h3, h4, h5, root, root', sp, n, p, q, r, l, rr);
    SplicedOff(g, h1, h2, h3, h4, h5, root, root', sp, n, p, q, r, Nodes(l));
    SplicedOff(g, h1, h2, h3, h4, h5, root, root', sp, n, p, q, r, Nodes(rr));
    UnlinkFar(g, h5, root, sp, n, p, l, r, rr);
  }

  /** The nodes of the first `m` steps, seen from a longer path. */
  lemma {:induction false} SpineAt(g: Heap, root: Elem?, s: seq<Step>, m: nat, n: nat, q: Elem?, c: int, ht: int)
    requires m <= n <= |s| && Spine(g, root, s, n, q, c, ht) == true
    ensures SpineNodes(s, m) <= SpineNodes(s, n)
    ensures forall k :: 0 <= k < m ==> s[k].e in SpineNodes(s, m)
    ensures forall k :: m <= k < n ==> s[k].e !in SpineNodes(s, m)
    decreases n
  {
    if n == m {
      SpineElems(g, root, s, n, q, c, ht);
    } else {
      SpineAt(g, root, s, m, n - 1, s[n - 1].e, CountUp(c, s[n - 1].sib), HtUp(ht, s[n - 1].sib));
    }
  }

  /** Case 3 of kavl_erase: `r` takes over the children and the balance of `p`, `q` those of `r`. */
  method TakeOver(p: Elem, q: Elem, r: Elem, ghost dom: set<Elem>)
    requires p in dom && q in dom && r in dom && p != r && q != r && p != q
    modifies q, r
    ensures var g, h := old(Cells(dom)), Cells(dom);
      && h[r] == Cell(g[p].p, g[p].balance, g[r].size)
      && h[q] == Cell(g[q].p.With(false, g[r].p.r), g[q].balance, g[q].size)
      && Agree(g, h, g.Keys - {q, r})
  {
    r.p := r.p.With(false, p.p.l);
    q.p := q.p.With(false, r.p.r);
    r.p := r.p.With(true, p.p.r);
    r.balance := p.balance;
  }

  /** What the updates of case 3 need to know about the nodes involved. */
  lemma SuccessorStart(g: Heap, h1: Heap, root: Elem?, s: seq<Step>, p: Elem, l: Tree, rt: Tree, sp: seq<Step>, r: Elem, rr: Tree)
    requires Leftmost(g, root, s, p, l, rt, sp, r, Node(Leaf, r, rr)) == true && |sp| > |s| + 1
    requires Dropped(g, h1, Path(sp, |s|)) == true
    ensures var q := sp[|sp| - 1].e;
      h1.Keys == g.Keys && p in g && q in g && r in g && h1[p] == g[p] && h1[q] == g[q] && h1[r] == g[r]
      && p != r && q != r && p != q && g[p].size > 0 && p !in Tail(sp, |s| + 1) && p !in Path(sp, |s|)
      && r !in Tail(sp, |s| + 1) && r !in Path(sp, |s|)
    ensures SpineNodes(sp, |s|) <= SpineNodes(sp, |sp|)
    ensures |s| > 0 ==> sp[|s| - 1].e in SpineNodes(sp, |s|)
    ensures forall k :: |s| < k < |sp| ==>
      && sp[k].e in g && h1[sp[k].e] == g[sp[k].e] && g[sp[k].e].size > 0
      && sp[k].e != r && sp[k].e != p && sp[k].e !in Path(sp, |s|)
    ensures forall j, k :: |s| < j < k < |sp| ==> sp[j].e != sp[k].e
  {
    var v := Node(Leaf, r, rr);
    SuccessorFacts(g, root, s, p, l, rt, sp, r, rr);
    SpineAt(g, root, sp, |s|, |sp|, r, Count(v), Ht(v));
    assert sp[|s|].e == p;
  }

  /** The cells that the last two rounds of case 3 read and write. */
  ghost predicate Ready(g: Heap, h: Heap, sp: seq<Step>, n: nat, p: Elem, r: Elem)
    requires n < |sp| && p in g
  {
    && p in h && r in h && p != r && h[p].size == g[p].size > 0
    && h[r].p == g[p].p && h[r].balance == g[p].balance
    && p !in Tail(sp, n + 1) && r !in Tail(sp, n + 1)
    && (forall k :: n < k < |sp| ==> sp[k].e in h && h[sp[k].e].size > 0)
    && (forall j, k :: n < j < k < |sp| ==> sp[j].e != sp[k].e)
  }

  lemma PromotedReady(g: Heap, h1: Heap, h2: Heap, h3: Heap, root: Elem?, root': Elem?, s: seq<Step>, p: Elem, l: Tree,
                      rt: Tree, sp: seq<Step>, r: Elem, rr: Tree)
    requires Leftmost(g, root, s, p, l, rt, sp, r, Node(Leaf, r, rr)) == true && |sp| > |s| + 1
    requires p in g && sp[|sp| - 1].e in g && r in g
    requires Promoted(g, h1, h2, h3, root, root', sp, |s|, p, sp[|sp| - 1].e, r) == true
    ensures Ready(g, h3, sp, |s|, p, r)
  {
    SuccessorStart(g, h1, root, s, p, l, rt, sp, r, rr);
    assert h1[p] == g[p] && h2[p] == h1[p];
    forall k | |s| < k < |sp|
      ensures sp[k].e in h3 && h3[sp[k].e].size > 0
    {
      var e := sp[k].e;
      assert h1[e] == g[e] && h3[e] == h2[e];
    }
  }

  /** Case 3 of kavl_erase up to the link of `r`; `e` is the slot of the path arrays kept for it. */
  method Promote(fake: Elem, p: Elem, q: Elem, r: Elem, path: seq<Elem>, dir: seq<bool>, e: nat, ghost g: Heap,
                 ghost s: seq<Step>, ghost l: Tree, ghost rt: Tree, ghost sp: seq<Step>, ghost rr: Tree,
                 ghost dom: set<Elem>) returns (ghost h2: Heap)
    requires Leftmost(g, fake.p.l, s, p, l, rt, sp, r, Node(Leaf, r, rr)) == true && |sp| > |s| + 1 && q == sp[|sp| - 1].e
    requires Recorded(fake, path, dir, sp) == true && fake !in dom && g.Keys == dom && e == |s| + 1
    requires SpineNodes(sp, |sp|) <= dom && Dropped(g, Cells(dom), Path(sp, |s|)) == true
    modifies dom, fake
    ensures p in dom && q in dom && r in dom
    ensures Promoted(g, old(Cells(dom)), h2, Cells(dom), old(fake.p.l), fake.p.l, sp, |s|, p, q, r) == true
    ensures Ready(g, Cells(dom), sp, |s|, p, r) == true
  {
    hide SpineNodes, Leftmost;
    ghost var h1, root := Cells(dom), fake.p.l;
    SuccessorStart(g, h1, root, s, p, l, rt, sp, r, rr);
    TakeOver(p, q, r, dom);
    h2 := Cells(dom);
    SetLink(fake, path, dir, e - 1, r, sp, dom);
    PromotedReady(g, h1, h2, Cells(dom), root, fake.p.l, s, p, l, rt, sp, r, rr);
  }

  /** Case 3 of kavl_erase, the sizes: behind `r` the path lost a node, `r` counts what `p` did. */
  method Recount(fake: Elem, p: Elem, r: Elem, path: seq<Elem>, dir: seq<bool>, e: nat, ghost g: Heap, ghost sp: seq<Step>,
                 ghost n: nat, ghost l: Tree, ghost dom: set<Elem>) returns (path': seq<Elem>, ghost h4: Heap)
    requires Recorded(fake, path, dir, sp) == true && n < |sp| && sp[n].d && e == n + 1
    requires p in g && Ready(g, Cells(dom), sp, n, p, r)
    modifies dom
    ensures Recorded(fake, path', dir, sp[n := Step(true, r, l)]) == true
    ensures Dropped(old(Cells(dom)), h4, Tail(sp, n + 1)) == true
    ensures Wrote(h4, Cells(dom), r, Cell(g[p].p, g[p].balance, g[p].size - 1))
  {
    path' := path[e := r];
    RecordedSlot(fake, path, dir, sp, n, l, r, path');
    DropSizes(path', e + 1, |path'|, dom);
    h4 := Cells(dom);
    r.size := p.size - 1;
  }

  /** Case 3 of kavl_erase, the updates. */
  method SpliceSuccessor(fake: Elem, p: Elem, q: Elem, r: Elem, path: seq<Elem>, dir: seq<bool>, e: nat, ghost g: Heap,
                         ghost s: seq<Step>, ghost l: Tree, ghost rt: Tree, ghost sp: seq<Step>, ghost rr: Tree,
                         ghost dom: set<Elem>) returns (path': seq<Elem>)
    requires Leftmost(g, fake.p.l, s, p, l, rt, sp, r, Node(Leaf, r, rr)) == true
    requires |sp| > |s| + 1 && q == sp[|sp| - 1].e && sp[|s|].d
    requires Recorded(fake, path, dir, sp) == true && fake !in dom && g.Keys == dom && e == |s| + 1
    requires SpineNodes(sp, |sp|) <= dom && Dropped(g, Cells(dom), Path(sp, |s|)) == true
    modifies dom, fake
    ensures Sunken(Cells(dom), fake.p.l, sp[|s| := Step(true, r, l)], |sp|, g[r].p.r, rr) == true
    ensures Recorded(fake, path', dir, sp[|s| := Step(true, r, l)]) == true
  {
    ghost var h1, root := Cells(dom), fake.p.l;
    ghost var h2 := Promote(fake, p, q, r, path, dir, e, g, s, l, rt, sp, rr, dom);
    ghost var h3 := Cells(dom);
    ghost var h4;
    path', h4 := Recount(fake, p, r, path, dir, e, g, sp, |s|, l, dom);
    SplicedSunken(g, h1, h2, h3, h4, Cells(dom), root, fake.p.l, s, p, l, rt, sp, q, r, rr);
  }

  lemma UnlinkOrder1(s: seq<Step>, l: Tree)
    ensures Order(s, 0, |s|, Inorder(l)) == Order(s, 0, |s|, Inorder(l) + Inorder(Leaf))
  {
    assert Inorder(l) + Inorder(Leaf) == Inorder(l);
  }

  lemma LeafFront(q: Elem, rr: Tree)
    ensures Inorder(Node(Leaf, q, rr)) == [q] + Inorder(rr)
  {
  }

  lemma UnlinkOrder2(s: seq<Step>, l: Tree, q: Elem, rr: Tree)
    ensures Order(s + [Step(true, q, l)], 0, |s| + 1, Inorder(rr)) == Order(s, 0, |s|, Inorder(l) + Inorder(Node(Leaf, q, rr)))
  {
    var s' := s + [Step(true, q, l)];
    Assoc(Inorder(l), [q], Inorder(rr));
    LeafFront(q, rr);
    OrderPart(s, s', 0, |s|, Inorder(l) + [q] + Inorder(rr));
  }

  /** Unlinking: all three cases of kavl_erase. Only `p` leaves the order. */
  method Unlink(fake: Elem, p: Elem, path: seq<Elem>, dir: seq<bool>, ghost g: Heap, ghost s: seq<Step>, ghost l: Tree,
                ghost rt: Tree, ghost dom: set<Elem>)
    returns (path': seq<Elem>, dir': seq<bool>, ghost s': seq<Step>, ghost q': Elem?, ghost u': Tree)
    requires Recorded(fake, path, dir, s) == true && fake !in dom && g.Keys == dom && |s| + Ht(Node(l, p, rt)) <= 45
    requires Counted(g, Cells(dom), fake.p.l, s, p, l, rt) == true
    modifies dom, fake
    ensures Sunken(Cells(dom), fake.p.l, s', |s'|, q', u') == true
    ensures Recorded(fake, path', dir', s') == true && |path'| <= KAVL_MAX_DEPTH
    ensures Order(s', 0, |s'|, Inorder(u')) == Order(s, 0, |s|, Inorder(l) + Inorder(rt))
  {
    hide Spine, SpineNodes, Dropped, Sunken, Counted, Agree, Nodes, Path, Inorder;
    UnlinkStart(g, Cells(dom), fake.p.l, s, p, l, rt);
    if p.p.r == null {
      UnlinkCase1(fake, p, path, dir, g, s, l, dom);
      path', dir', s', q', u' := path, dir, s, g[p].p.l, l;
      UnlinkOrder1(s, l);
    } else {
      var q := p.p.r;
      if q.p.l == null {
        path', dir' := UnlinkCase2(fake, p, q, path, dir, g, s, l, rt.r, dom);
        s', q', u' := s + [Step(true, q, l)], g[q].p.r, rt.r;
        UnlinkOrder2(s, l, q, rt.r);
      } else {
        var e := |path|;
        ghost var root := fake.p.l;
        ghost var sp0 := LeftmostStart(g, root, s, p, l, rt);
        RecordedPush(fake, path, dir, s, Step(true, p, l));
        var r;
        ghost var sp, rr;
        q, r, path', dir', sp, rr := WalkLeft(fake, q, path + [p], dir + [true], g, root, s, p, l, rt, sp0, dom);
        UnlinkFarStart(g, Cells(dom), root, s, p, l, rt, sp, r, rr);
        path' := SpliceSuccessor(fake, p, q, r, path', dir', e, g, s, l, rt, sp, rr, dom);
        s', q', u' := sp[|s| := Step(true, r, l)], g[r].p.r, rr;
        Case3Order(s, l, Inorder(rt), sp, r, Inorder(rr), s');
      }
    }
  }

  lemma UnlinkStart(g: Heap, h1: Heap, root: Elem?, s: seq<Step>, p: Elem, l: Tree, rt: Tree)
    requires Counted(g, h1, root, s, p, l, rt) == true
    ensures p in g && h1.Keys == g.Keys && h1[p] == g[p] && Hung(g, root, s, |s|, p, Node(l, p, rt)) == true
    ensures SamePointers(g, h1)
    ensures g[p].p.r == null <==> rt == Leaf
    ensures rt.Node? ==> g[p].p.r == rt.e && rt.e in g && (g[rt.e].p.l == null <==> rt.l == Leaf)
  {
    CountedFacts(g, h1, root, s, p, l, rt);
    RootSize(g, g[p].p.r, rt);
    if rt.Node? {
      RootIs(g, g[p].p.r, rt);
      GoodUnmk(g, false, rt.l, rt.e, rt.r);
      RootSize(g, g[rt.e].p.l, rt.l);
    }
  }

  lemma UnlinkFarStart(g: Heap, h1: Heap, root: Elem?, s: seq<Step>, p: Elem, l: Tree, rt: Tree, sp: seq<Step>, r: Elem, rr: Tree)
    requires Counted(g, h1, root, s, p, l, rt) == true
    requires Leftmost(g, root, s, p, l, rt, sp, r, Node(Leaf, r, rr)) == true
    ensures Dropped(g, h1, Path(sp, |s|)) == true && sp[|s|].d && |sp| <= |s| + 1 + Ht(rt)
    ensures SpineNodes(sp, |sp|) <= g.Keys
    ensures Order(sp, |s| + 1, |sp|, [r] + Inorder(rr)) == Inorder(rt)
    ensures forall k :: 0 <= k < |s| ==> sp[k] == s[k]
    ensures forall k :: |s| < k < |sp| ==> !sp[k].d
  {
    hide Inorder, Dropped, Ht;
    LeafFront(r, rr);
    assert Path(sp, |s|) == Path(s, |s|);
  }

  // ---------------------------------------------------------------------------------------
  // kavl_erase

  /** The search of kavl_erase has come down the path `s` to `p`. */
  ghost predicate Reached(g: Heap, root: Elem?, t: Tree, s: seq<Step>, p: Elem?, u: Tree) {
    Hung(g, root, s, |s|, p, u) == true && Plug(s, |s|, u) == t && |s| + Ht(u) <= Ht(t)
  }

  /** The fake root and the path leave room for one more entry. */
  lemma ReachedDepth(g: Heap, root: Elem?, t: Tree, s: seq<Step>, p: Elem?, u: Tree)
    requires Reached(g, root, t, s, p, u) == true && Ht(t) <= 45
    ensures |s| + 1 < KAVL_MAX_DEPTH
  {
  }

  lemma ReachedStep(g: Heap, root: Elem?, t: Tree, s: seq<Step>, p: Elem?, u: Tree, d: bool) returns (z: Step, w: Tree)
    requires Reached(g, root, t, s, p, u) == true && u.Node?
    ensures u.e == p && p in g && z == Step(d, p, if d then u.l else u.r) && w == (if d then u.r else u.l)
    ensures Reached(g, root, t, s + [z], g[p].p.At(d), w) == true
    ensures g[p].p.At(d) == null <==> w == Leaf
    ensures w.Node? ==> g[p].p.At(d) == w.e
    ensures Before(s + [z], |s| + 1) == Before(s, |s|) + if d then Inorder(u.l) + [u.e] else []
  {
    hide Spine, Ht, SpineNodes, Nodes, Plug, Before;
    z, w := Descend(g, root, s, p, u, d);
    RootSize(g, g[p].p.At(d), w);
    if w.Node? {
      RootIs(g, g[p].p.At(d), w);
    }
  }

  lemma ReachedNode(g: Heap, root: Elem?, t: Tree, s: seq<Step>, p: Elem?, u: Tree)
    requires Reached(g, root, t, s, p, u) == true
    ensures SpineNodes(s, |s|) + Nodes(u) == Nodes(t)
    ensures u.Node? ==> p == u.e && p in Nodes(t)
  {
    PlugNodes(s, |s|, u);
    if u.Node? {
      RootIs(g, p, u);
    }
  }

  /** The search of kavl_erase for a key. */
  method SearchKey(fake: Elem, x: Key, cmp: Cmp, ghost root: Elem?, ghost t: Tree)
    returns (p: Elem?, path: seq<Elem>, dir: seq<bool>, cnt: nat, ghost s: seq<Step>, ghost u: Tree)
    requires Valid(root, t) && fake !in Nodes(t) && fake.p == Kids(root, null) && Ht(t) <= 45 && Count(t) < UINT_RANGE
    ensures p != null <==> Found(cmp, x, t)
    ensures p == null ==> cnt == 0
    ensures p != null ==> Reached(Cells(Nodes(t)), root, t, s, p, u) == true && u.Node? && u.e == p
    ensures p != null ==> Recorded(fake, path, dir, s) == true
    ensures p != null ==> Rank(cmp, x, t) == |Before(s, |s|)| + |Inorder(u.l)| == cnt - 1
  {
    ghost var g := Cells(Nodes(t));
    var q: Elem, c := fake, -1;
    path, dir, cnt, s, u := [], [], 0, [], t;
    while c != 0
      invariant path == [] ==> c == -1 && q == fake && dir == [] && s == [] && u == t
      invariant path != [] ==> u.Node? && Recorded(fake, path, dir, s) == true
      invariant path != [] ==> q == u.e && Reached(g, root, t, s, q, u) == true && c == cmp(x, q.key)
      invariant cnt == |Before(s, |s|)| && Sought(cmp, x, t, s, u) == true
      decreases u, path == []
    {
      var which := c > 0;
      ghost var z, w := Step(false, fake, Leaf), t;
      if path != [] {
        ReachedNode(g, root, t, s, q, u);
        ReachedDepth(g, root, t, s, q, u);
        z, w := ReachedStep(g, root, t, s, q, u, which);
        SoughtStep(g, q, cmp, x, t, s, u, z, w);
        RecordedPush(fake, path, dir, s, z);
        assert g[q] == Cell(q.p, q.balance, q.size) && Size(q.p.l) == |Inorder(u.l)|;
      } else {
        SearchBegins(g, fake, root, t);
      }
      if c > 0 {
        cnt := cnt + Size(q.p.l) + 1;
      }
      assert |path| < KAVL_MAX_DEPTH;
      path, dir := path + [q], dir + [which];
      s, u := if z.e == fake then [] else s + [z], w;
      var next := q.p.At(which);
      if next == null {
        return null, path, dir, 0, s, u;
      }
      q := next;
      c := cmp(x, q.key);
    }
    ReachedNode(g, root, t, s, q, u);
    SoughtHere(g, q, cmp, x, t, s, u);
    p, cnt := q, cnt + Size(q.p.l) + 1;
  }

  lemma SoughtHere(g: Heap, p: Elem, cmp: Cmp, x: Key, t: Tree, s: seq<Step>, u: Tree)
    requires Good(g, p, u) == true && u.Node? && Sought(cmp, x, t, s, u) == true && cmp(x, u.e.key) == 0
    ensures Found(cmp, x, t) && Rank(cmp, x, t) == |Before(s, |s|)| + |Inorder(u.l)|
    ensures p in g && (g[p].p.l != null ==> g[p].p.l in g) && |Inorder(u.l)| == SizeIn(g, g[p].p.l)
  {
    InorderFacts(u.l);
    RootSize(g, g[p].p.l, u.l);
  }

  lemma SearchBegins(g: Heap, fake: Elem, root: Elem?, t: Tree)
    requires Good(g, root, t) == true
    ensures Reached(g, root, t, [], root, t) == true && Recorded(fake, [fake], [false], []) == true
    ensures root == null <==> t == Leaf
    ensures t.Node? ==> root == t.e
  {
    RootSize(g, root, t);
    if t.Node? {
      RootIs(g, root, t);
    }
  }

  /** The search of kavl_erase without a key: the first node. */
  method SearchFirst(fake: Elem, ghost root: Elem?, ghost t: Tree)
    returns (p: Elem, path: seq<Elem>, dir: seq<bool>, ghost s: seq<Step>, ghost u: Tree)
    requires Valid(root, t) && t.Node? && fake !in Nodes(t) && fake.p == Kids(root, null) && Ht(t) <= 45
    ensures Reached(Cells(Nodes(t)), root, t, s, p, u) == true && u.Node? && u.e == p && u.l == Leaf
    ensures Recorded(fake, path, dir, s) == true
    ensures Before(s, |s|) == []
  {
    hide Reached, Hung, Max, Nodes, Ht, Good;
    ghost var g := Cells(Nodes(t));
    var q: Elem? := fake;
    path, dir := [], [];
    ghost var w := t;
    s, u := [], t;
    ghost var v: seq<Step> := [];
    SearchBegins(g, fake, root, t);
    while q != null
      invariant path == [] ==> q == fake && dir == [] && v == [] && w == t
      invariant path != [] ==> Recorded(fake, path, dir, v) == true && Reached(g, root, t, v, q, w) == true
      invariant path != [] && v == [] ==> w == t
      invariant v != [] ==> u.Node? && v == s + [Step(false, u.e, u.r)] && u.l == w
      invariant v != [] ==> Reached(g, root, t, s, u.e, u) == true && Before(v, |v|) == []
      invariant path != [] ==> (q == null <==> w == Leaf)
      decreases w, path == []
    {
      if path != [] {
        ReachedNode(g, root, t, v, q, w);
        ReachedDepth(g, root, t, v, q, w);
        ghost var z, x := ReachedStep(g, root, t, v, q, w, false);
        RecordedPush(fake, path, dir, v, z);
        s, u, v, w := v, w, v + [z], x;
      }
      assert |path| < KAVL_MAX_DEPTH;
      path, dir := path + [q], dir + [false];
      q := q.p.l;
    }
    RecordedPop(fake, path, dir, s, Step(false, u.e, u.r));
    p := path[|path| - 1];
    path, dir := path[..|path| - 1], dir[..|path| - 1];
    FirstOrder(s, v, u);
  }

  lemma FirstOrder(s: seq<Step>, v: seq<Step>, u: Tree)
    requires u.Node? && v == s + [Step(false, u.e, u.r)] && Before(v, |v|) == []
    ensures Before(s, |s|) == []
  {
    OrderPrefix(s, v, |s|);
  }

  /** The position of the node that kavl_erase removes, if there is one. */
  ghost predicate Erasable(cmp: Cmp, x: Option<Key>, t: Tree) {
    x.None? || Found(cmp, x.value, t)
  }

  ghost function Position(cmp: Cmp, x: Option<Key>, t: Tree): (k: nat)
    requires Erasable(cmp, x, t) && t.Node?
    ensures k < |Inorder(t)|
  {
    if x.None? then 0 else Rank(cmp, x.value, t)
  }

  /** kavl_erase; without a key it removes the first node (kavl_erase_first). */
  method Erase(root: Elem?, x: Option<Key>, cmp: Cmp, ghost t: Tree)
    returns (root': Elem?, p: Elem?, cnt: nat, ghost t': Tree)
    requires Valid(root, t) && Count(t) < UINT_RANGE && (x.None? ==> root != null)
    modifies Nodes(t)
    ensures Valid(root', t')
    ensures p != null <==> Erasable(cmp, x, t)
    ensures p == null ==> root' == root && t' == t && cnt == 0
    ensures p != null ==>
      && t.Node? && p in Nodes(t)
      && var k := Position(cmp, x, t);
      && p == Inorder(t)[k] && cnt == k + 1
      && Inorder(t') == Inorder(t)[..k] + Inorder(t)[k + 1..]
  {
    hide Nodes, Cells, Spine, CountUp, Max, Ht, Before;
    ghost var dom, g := Nodes(t), Cells(Nodes(t));
    HeightBound(g, root, t);
    RootSize(g, root, t);
    var fake := new Elem(Key(CMP_BYTES, [], 0));
    fake.p := Kids(root, null);
    var path, dir;
    ghost var s, u;
    if x.Some? {
      p, path, dir, cnt, s, u := SearchKey(fake, x.value, cmp, root, t);
      if p == null {
        return root, null, 0, t;
      }
    } else {
      p, path, dir, s, u := SearchFirst(fake, root, t);
      cnt := 1;
    }
    root', t' := Remove(fake, p, path, dir, root, t, s, u);
    ErasedOrder(s, u, Inorder(t'), t);
  }

  /** kavl_erase after the search. */
  method Remove(fake: Elem, p: Elem, path: seq<Elem>, dir: seq<bool>, ghost root: Elem?, ghost t: Tree, ghost s: seq<Step>,
                ghost u: Tree) returns (root': Elem?, ghost t': Tree)
    requires Reached(Cells(Nodes(t)), root, t, s, p, u) == true && u.Node? && u.e == p && Ht(t) <= 45
    requires Recorded(fake, path, dir, s) == true && fake !in Nodes(t) && fake.p.l == root
    modifies Nodes(t), fake
    ensures Valid(root', t')
    ensures Inorder(t') == Order(s, 0, |s|, Inorder(u.l) + Inorder(u.r))
  {
    ghost var dom, g := Nodes(t), Cells(Nodes(t));
    ReachedNode(g, root, t, s, p, u);
    SearchedPath(g, root, t, s, p, u);
    RecordedRange(fake, path, dir, s);
    DropSizes(path, 1, |path|, dom);
    var path1, dir1;
    ghost var s1, q1, u1;
    path1, dir1, s1, q1, u1 := Unlink(fake, p, path, dir, g, s, u.l, u.r, dom);
    SunkenKeys(Cells(dom), fake.p.l, s1, |s1|, q1, u1);
    t' := Retrace(fake, path1, dir1, s1, q1, u1, dom);
    OrderIs(s1, |s1|, Inorder(u1));
    root' := fake.p.l;
    GoodFrame(Cells(dom), Cells(Nodes(t')), root', t');
  }

  lemma {:induction false} SpineKeys(h: Heap, root: Elem?, s: seq<Step>, n: nat, q: Elem?, c: int, ht: int)
    requires n <= |s| && Spine(h, root, s, n, q, c, ht) == true
    ensures SpineNodes(s, n) <= h.Keys
  {
    if n > 0 {
      var z := s[n - 1];
      GoodKeys(h, h[z.e].p.At(!z.d), z.sib);
      SpineKeys(h, root, s, n - 1, z.e, CountUp(c, z.sib), HtUp(ht, z.sib));
    }
  }

  lemma SunkenKeys(h: Heap, root: Elem?, s: seq<Step>, n: nat, q: Elem?, u: Tree)
    requires n <= |s| && Sunken(h, root, s, n, q, u) == true
    ensures SpineNodes(s, n) + Nodes(u) <= h.Keys
  {
    SpineKeys(h, root, s, n, q, Count(u), Ht(u) + 1);
    GoodKeys(h, q, u);
  }

  lemma SearchedPath(g: Heap, root: Elem?, t: Tree, s: seq<Step>, p: Elem, u: Tree)
    requires Reached(g, root, t, s, p, u) == true
    ensures forall k :: 0 <= k < |s| ==> s[k].e in g && g[s[k].e].size > 0
    ensures forall k, m :: 0 <= k < m < |s| ==> s[k].e != s[m].e
  {
    PositiveSize(g, root, s, |s|, p, u);
    SpineElems(g, root, s, |s|, p, Count(u), Ht(u));
  }

  lemma ErasedOrder(s: seq<Step>, u: Tree, o: seq<Elem>, t: Tree)
    requires u.Node? && Plug(s, |s|, u) == t && o == Order(s, 0, |s|, Inorder(u.l) + Inorder(u.r))
    ensures var k := |Before(s, |s|)| + |Inorder(u.l)|;
      && k < |Inorder(t)| && Inorder(t)[k] == u.e
      && o == Inorder(t)[..k] + Inorder(t)[k + 1..]
  {
    hide Inorder;
    OrderIs(s, |s|, Inorder(u.l) + Inorder(u.r));
    PlugInorder(s, |s|, u);
    NodeOrder(u.l, u.e, u.r);
    SliceOut(Before(s, |s|), Inorder(u.l), u.e, Inorder(u.r), After(s, |s|), Inorder(u), Inorder(t), o);
  }

  lemma NodeOrder(l: Tree, e: Elem, r: Tree)
    ensures Inorder(Node(l, e, r)) == Inorder(l) + [e] + Inorder(r)
  {
  }

  lemma SliceOut<T>(b: seq<T>, il: seq<T>, e: T, ir: seq<T>, a: seq<T>, iu: seq<T>, it: seq<T>, o: seq<T>)
    requires iu == il + [e] + ir && it == b + iu + a && o == b + (il + ir) + a
    ensures var k := |b| + |il|;
      && k < |it| && it[k] == e && o == it[..k] + it[k + 1..]
  {
    var k := |b| + |il|;
    assert it[..k] == b + il;
    assert it[k + 1..] == ir + a;
  }
}
