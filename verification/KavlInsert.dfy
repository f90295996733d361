/** kavl_find and kavl_insert of kavl.h, in place on the node heap. */
module KavlInsert {
  import opened Keys
  import opened KavlTree
  import opened KavlHeight
  import opened KavlRotate

  /** kavl_find: the node that compares equal, and the number of nodes up to it. */
  method Find(root: Elem?, x: Key, cmp: Cmp, ghost t: Tree) returns (p: Elem?, cnt: nat)
    requires Valid(root, t)
    ensures p != null <==> Found(cmp, x, t)
    ensures p != null ==> p in Nodes(t) && p == Inorder(t)[Rank(cmp, x, t)]
    ensures cnt == Rank(cmp, x, t) + (if p == null then 0 else 1)
  {
    p, cnt := root, 0;
    ghost var h := Cells(Nodes(t));
    ghost var s: seq<Step>, u := [], t;
    while p != null
      invariant Spine(h, root, s, |s|, p, Count(u), Ht(u)) == true && Good(h, p, u) == true
      invariant SpineNodes(s, |s|) !! Nodes(u)
      invariant Plug(s, |s|, u) == t
      invariant Found(cmp, x, t) == Found(cmp, x, u)
      invariant cnt == |Before(s, |s|)| && Rank(cmp, x, t) == cnt + Rank(cmp, x, u)
      decreases u
    {
      var c := cmp(x, p.key);
      PlugNodes(s, |s|, u);
      InorderFacts(u.l);
      if c >= 0 {
        LeftSize(h, p, u);
        cnt := cnt + Size(p.p.l) + 1;
      }
      if c == 0 {
        PlugInorder(s, |s|, u);
        break;
      }
      ghost var z, w := Descend(h, root, s, p, u, c > 0);
      p, s, u := if c < 0 then p.p.l else p.p.r, s + [z], w;
    }
  }

  lemma LeftSize(h: Heap, p: Elem?, u: Tree)
    requires u.Node? && Good(h, p, u)
    ensures h[u.e].p.l == null <==> u.l == Leaf
    ensures u.l.Node? ==> h[u.e].p.l == u.l.e && u.l.e in h && h[u.l.e].size == Count(u.l)
    ensures u.l.Node? ==> u.l.e in Nodes(u)
  {
  }

  // ---------------------------------------------------------------------------------------
  // Insertion

  ghost function Sign(d: bool): int {
    if d then 1 else -1
  }

  /** The changes from `g` to `h` that `Resize` and `Grow` are about, one step at a time. */
  ghost predicate Resized(g: Heap, h: Heap, s: seq<Step>, n: nat, delta: int)
    requires n <= |s|
  {
    n > 0 ==>
      var z := s[n - 1];
      && z.e in g && z.e in h
      && h[z.e] == Cell(g[z.e].p, g[z.e].balance, g[z.e].size + delta)
      && Agree(g, h, Nodes(z.sib))
      && Resized(g, h, s, n - 1, delta)
  }

  /** Only the sizes along the path changed, all by the same amount. */
  lemma {:induction false} Resize(g: Heap, h: Heap, root: Elem?, s: seq<Step>, n: nat, q: Elem?, c: int, ht: int, delta: int)
    requires n <= |s|
    requires Spine(g, root, s, n, q, c, ht) == true && Resized(g, h, s, n, delta) == true
    ensures Spine(h, root, s, n, q, c + delta, ht) == true
  {
    if n > 0 {
      var z := s[n - 1];
      GoodFrame(g, h, g[z.e].p.At(!z.d), z.sib);
      Resize(g, h, root, s, n - 1, z.e, CountUp(c, z.sib), HtUp(ht, z.sib), delta);
    }
  }

  /**
    The nodes `s[b..n]` after an insertion below them: each has one more node below, was even
    (except `s[b]`) and now leans the way the path goes; the last one points to `q`.
  */
  ghost predicate Bumped(g: Heap, h: Heap, s: seq<Step>, b: nat, n: nat, q: Elem)
    requires n <= |s|
  {
    n > b ==>
      var z := s[n - 1];
      && z.e in g && z.e in h
      && h[z.e] == Cell(g[z.e].p.With(z.d, q), g[z.e].balance + Sign(z.d), g[z.e].size + 1)
      && (n - 1 > b ==> g[z.e].balance == 0)
      && Agree(g, h, Nodes(z.sib))
      && Bumped(g, h, s, b, n - 1, z.e)
  }

  /** What insertion does below the rebalancing point `s[b]`, seen from the last path node up. */
  lemma {:induction false} Grow(g: Heap, h: Heap, root: Elem?, s: seq<Step>, b: nat, n: nat, q0: Elem?, q: Elem, u: Tree, c: int, ht: int)
    returns (w: Tree, q1: Elem?, c1: int, h1: int)
    requires b < n <= |s|
    requires Spine(g, root, s, n, q0, c, ht) == true && Bumped(g, h, s, b, n, q) == true
    requires Good(h, q, u) == true && Count(u) == c + 1 && Ht(u) == ht + 1 && Nodes(u) !! SpineNodes(s, n)
    requires Ht(u) == 1 || h[q].balance != 0
    ensures Spine(g, root, s, b + 1, q1, c1, h1) == true
    ensures w.Node? && w.e in h && Bumped(g, h, s, b, b + 1, w.e) == true
    ensures Good(h, w.e, w) == true && Count(w) == c1 + 1 && Ht(w) == h1 + 1
    ensures Ht(w) == 1 || h[w.e].balance != 0
    ensures Plug(s, b + 1, w) == Plug(s, n, u)
    ensures Nodes(w) !! SpineNodes(s, b + 1)
    decreases n
  {
    if n == b + 1 {
      w, q1, c1, h1 := u, q0, c, ht;
    } else {
      var z := s[n - 1];
      GoodFrame(g, h, g[z.e].p.At(!z.d), z.sib);
      GoodMk(h, z.d, u, z.e, z.sib);
      w, q1, c1, h1 := Grow(g, h, root, s, b, n - 1, z.e, z.e, Mk(z.d, u, z.e, z.sib), CountUp(c, z.sib), HtUp(ht, z.sib));
    }
  }

  /**
    The heap `h` while `x` is being inserted at the end of the path `s`: `x` is attached, the
    sizes of `s[..i]` are counted up, the balances of `s[b..j]` are updated.
  */
  ghost predicate Attached(g: Heap, h: Heap, s: seq<Step>, x: Elem, i: int, b: int, j: int) {
    && h.Keys == g.Keys && x in g && (forall k :: 0 <= k < |s| ==> s[k].e in g)
    && h[x] == Cell(Kids(null, null), 0, 1)
    && (forall k :: 0 <= k < |s| ==>
      h[s[k].e] == Cell(if k == |s| - 1 then g[s[k].e].p.With(s[k].d, x) else g[s[k].e].p,
                        g[s[k].e].balance + (if b <= k < j then Sign(s[k].d) else 0),
                        g[s[k].e].size + (if k < i then 1 else 0)))
    && Agree(g, h, g.Keys - Path(s, |s|) - {x})
  }

  /** The path in the old heap, and that insertion did not touch what hangs beside it. */
  ghost predicate Walked(g: Heap, h: Heap, s: seq<Step>) {
    forall k :: 0 <= k < |s| ==>
      && s[k].e in g
      && g[s[k].e].p.At(s[k].d) == (if k + 1 < |s| then s[k + 1].e else null)
      && Agree(g, h, Nodes(s[k].sib))
  }

  lemma AttachedWalked(g: Heap, h: Heap, root: Elem?, s: seq<Step>, x: Elem, b: nat)
    requires Attached(g, h, s, x, |s|, b, |s|)
    requires Spine(g, root, s, |s|, null, 0, 0) == true && x !in SpineNodes(s, |s|)
    requires SpineNodes(s, |s|) <= g.Keys
    ensures Walked(g, h, s)
  {
    SpineElems(g, root, s, |s|, null, 0, 0);
    SpineLinks(g, root, s, |s|, null, 0, 0);
  }

  lemma {:induction false} AttachedSteps(g: Heap, h: Heap, s: seq<Step>, x: Elem, b: nat, n: nat)
    requires Attached(g, h, s, x, |s|, b, |s|) && Walked(g, h, s) && b <= n <= |s|
    requires forall k :: b < k < |s| ==> g[s[k].e].balance == 0
    ensures Bumped(g, h, s, b, n, if n == |s| then x else s[n].e) == true
    decreases n
  {
    if n > b {
      AttachedSteps(g, h, s, x, b, n - 1);
    }
  }

  lemma {:induction false} AttachedAbove(g: Heap, h: Heap, s: seq<Step>, x: Elem, b: nat, n: nat)
    requires Attached(g, h, s, x, |s|, b, |s|) && Walked(g, h, s) && n <= b < |s|
    ensures Resized(g, h, s, n, 1) == true
    decreases n
  {
    if n > 0 {
      AttachedAbove(g, h, s, x, b, n - 1);
    }
  }

  /**
    The rebalancing point `z` once sizes and balances are updated. It may lean by two: `w` hangs
    below it, where a subtree of height `h1` hung before.
  */
  ghost predicate Heavy(h: Heap, z: Step, w: Tree, h1: int) {
    && w.Node? && Good(h, w.e, w) == true && Ht(w) == h1 + 1 && (h1 == 0 || h[w.e].balance != 0)
    && z.e in h && Good(h, h[z.e].p.At(!z.d), z.sib) == true && -1 <= h1 - Ht(z.sib) <= 1
    && h[z.e].p.At(z.d) == w.e
    && h[z.e].balance == Lean(z.d, h1 + 1, Ht(z.sib)) && h[z.e].size == CountUp(Count(w), z.sib)
    && z.e !in Nodes(w) && z.e !in Nodes(z.sib) && Nodes(w) !! Nodes(z.sib)
  }

  /** The same with the path above it, which already counts the new node. */
  ghost predicate Leaning(h: Heap, root: Elem?, s: seq<Step>, b: nat, w: Tree, h1: int)
    requires b < |s|
  {
    var z := s[b];
    && Heavy(h, z, w, h1)
    && SpineNodes(s, b) !! Nodes(w) + {z.e} + Nodes(z.sib)
    && Spine(h, root, s, b, z.e, CountUp(Count(w), z.sib), HtUp(h1, z.sib)) == true
  }

  lemma GoodSingle(h: Heap, x: Elem)
    requires x in h && h[x] == Cell(Kids(null, null), 0, 1)
    ensures Good(h, x, Node(Leaf, x, Leaf)) == true
  {
    assert Good(h, h[x].p.l, Leaf) && Good(h, h[x].p.r, Leaf);
    assert Good(h, x, Node(Leaf, x, Leaf));
  }

  lemma InsertLeaning(g: Heap, h: Heap, root: Elem?, s: seq<Step>, x: Elem, b: nat) returns (w: Tree, h1: int)
    requires b < |s| && Spine(g, root, s, |s|, null, 0, 0) == true && x !in SpineNodes(s, |s|)
    requires Bumped(g, h, s, b, |s|, x) == true && Resized(g, h, s, b, 1) == true
    requires x in h && h[x] == Cell(Kids(null, null), 0, 1)
    ensures Leaning(h, root, s, b, w, h1) == true
    ensures s[b].e in g && g[s[b].e].balance == Lean(s[b].d, h1, Ht(s[b].sib))
    ensures Plug(s, b + 1, w) == Plug(s, |s|, Node(Leaf, x, Leaf))
  {
    GoodSingle(h, x);
    var q1, c1;
    w, q1, c1, h1 := Grow(g, h, root, s, b, |s|, null, x, Node(Leaf, x, Leaf), 0, 0);
    LeaningAt(g, h, root, s, b, w, q1, c1, h1);
  }

  lemma LeaningAt(g: Heap, h: Heap, root: Elem?, s: seq<Step>, b: nat, w: Tree, q1: Elem?, c1: int, h1: int)
    requires b < |s| && Spine(g, root, s, b + 1, q1, c1, h1) == true && Resized(g, h, s, b, 1) == true
    requires w.Node? && w.e in h && Bumped(g, h, s, b, b + 1, w.e) == true
    requires Good(h, w.e, w) == true && Count(w) == c1 + 1 && Ht(w) == h1 + 1
    requires Ht(w) == 1 || h[w.e].balance != 0
    requires Nodes(w) !! SpineNodes(s, b + 1)
    ensures Leaning(h, root, s, b, w, h1)
    ensures s[b].e in g && g[s[b].e].balance == Lean(s[b].d, h1, Ht(s[b].sib))
  {
    var z := s[b];
    PopSpine(g, root, s, b, q1, c1, h1);
    Resize(g, h, root, s, b, z.e, CountUp(c1, z.sib), HtUp(h1, z.sib), 1);
    assert CountUp(c1, z.sib) + 1 == CountUp(Count(w), z.sib);
    PopBumped(g, h, s, b, w.e);
    GoodFrame(g, h, g[z.e].p.At(!z.d), z.sib);
  }

  lemma PopBumped(g: Heap, h: Heap, s: seq<Step>, b: nat, q: Elem)
    requires b < |s| && Bumped(g, h, s, b, b + 1, q) == true
    ensures var z := s[b];
      && z.e in g && z.e in h
      && h[z.e] == Cell(g[z.e].p.With(z.d, q), g[z.e].balance + Sign(z.d), g[z.e].size + 1)
      && Agree(g, h, Nodes(z.sib))
  {
  }

  /** The rebalancing point is not off: the tree is finished. */
  lemma SettleEven(h: Heap, root: Elem?, s: seq<Step>, b: nat, w: Tree, h1: int) returns (t: Tree)
    requires b < |s| && Leaning(h, root, s, b, w, h1) == true
    requires h[s[b].e].balance == 0 || (b == 0 && -1 <= h[s[b].e].balance <= 1)
    ensures t == Plug(s, b + 1, w) && Good(h, root, t) == true
  {
    var z := s[b];
    var m := Mk(z.d, w, z.e, z.sib);
    GoodMk(h, z.d, w, z.e, z.sib);
    assert SpineNodes(s, b + 1) == SpineNodes(s, b) + {z.e} + Nodes(z.sib);
    if b > 0 {
      assert Ht(m) == HtUp(h1, z.sib);
    }
    Assemble(h, root, s, b, z.e, m);
    t := Plug(s, b, m);
  }

  /** The pattern in front of the single rotation: the heavy side leans outwards. */
  lemma HeavyPair(h: Heap, z: Step, w: Tree, h1: int) returns (inner: Tree, outer: Tree)
    requires Heavy(h, z, w, h1) == true && !(-1 <= h[z.e].balance <= 1)
    requires h[w.e].balance == Sign(z.d)
    ensures w == Mk(!z.d, inner, w.e, outer)
    ensures Pair(h, z.e, w.e, !z.d, z.sib, inner, outer) == true
    ensures Ht(z.sib) == Ht(inner) == Ht(outer) - 1 && h1 == Ht(outer)
  {
    inner, outer := if z.d then w.l else w.r, if z.d then w.r else w.l;
    GoodUnmk(h, !z.d, inner, w.e, outer);
  }

  /** The pattern in front of the double rotation: the heavy side leans inwards. */
  lemma HeavyTriple(h: Heap, z: Step, w: Tree, h1: int) returns (x: Tree, v: Tree, y: Tree, outer: Tree)
    requires Heavy(h, z, w, h1) == true && !(-1 <= h[z.e].balance <= 1)
    requires h[w.e].balance != Sign(z.d)
    ensures v.Node? && w == Mk(!z.d, v, w.e, outer) && v == Mk(!z.d, x, v.e, y)
    ensures Triple(h, z.e, w.e, v.e, !z.d, z.sib, x, y, outer) == true
    ensures w.e in h && v.e == h[w.e].p.At(!z.d)
    ensures h1 == Ht(z.sib) + 1
  {
    hide HtUp, Count;
    v, outer := if z.d then w.l else w.r, if z.d then w.r else w.l;
    GoodUnmk(h, !z.d, v, w.e, outer);
    x, y := if z.d then v.l else v.r, if z.d then v.r else v.l;
    RootIs(h, h[w.e].p.At(!z.d), v);
    GoodUnmk(h, !z.d, x, v.e, y);
  }

  lemma RootIs(h: Heap, p: Elem?, t: Tree)
    requires Good(h, p, t) == true && t.Node?
    ensures p == t.e
  {
  }

  /** The rotated subtree `m` put in place of the rebalancing point. */
  lemma SettleRotated(h: Heap, k: Heap, f: Heap, root: Elem?, rootNew: Elem?, s: seq<Step>, b: nat, w: Tree, h1: int, m: Tree)
    requires b < |s| && Leaning(h, root, s, b, w, h1) == true
    requires m.Node? && Good(k, m.e, m) == true && Agree(h, k, SpineNodes(s, b))
    requires Nodes(m) == Nodes(w) + {s[b].e} + Nodes(s[b].sib)
    requires Count(m) == CountUp(Count(w), s[b].sib) && Ht(m) == HtUp(h1, s[b].sib)
    requires Relinked(k, f, root, rootNew, s, b, m.e) && Agree(k, f, Nodes(m))
    ensures Good(f, rootNew, Plug(s, b, m)) == true
  {
    SpineFrame(h, k, root, s, b, s[b].e, Count(m), Ht(m));
    Relink(k, f, root, rootNew, s, b, s[b].e, m.e, Count(m), Ht(m));
    GoodFrame(k, f, m.e, m);
    Assemble(f, rootNew, s, b, m.e, m);
  }

  // ---------------------------------------------------------------------------------------
  // kavl_insert, in the three parts of its body

  /**
    The search of kavl_insert: the path `s` leads from `root` to `p`, and `b` is the index of the
    last node on it that is not even (0 if there is none).
  */
  ghost predicate Trail(g: Heap, root: Elem?, t: Tree, s: seq<Step>, b: nat, p: Elem?, u: Tree) {
    && Spine(g, root, s, |s|, p, Count(u), Ht(u)) == true && Good(g, p, u) == true
    && SpineNodes(s, |s|) !! Nodes(u) && Plug(s, |s|, u) == t
    && |s| + Ht(u) <= Ht(t)
    && (forall k :: 0 <= k < |s| ==> s[k].e in g && (k > b ==> g[s[k].e].balance == 0))
    && (if |s| == 0 then b == 0 else b < |s|)
    && (b > 0 ==> g[s[b].e].balance != 0)
  }

  lemma TrailStep(g: Heap, root: Elem?, t: Tree, s: seq<Step>, b: nat, p: Elem?, u: Tree, d: bool)
    returns (z: Step, w: Tree)
    requires Trail(g, root, t, s, b, p, u) == true && u.Node?
    ensures z.d == d && z.e == u.e == p && p in g && p in Nodes(t)
    ensures w == if d then u.r else u.l
    ensures Trail(g, root, t, s + [z], if g[p].balance != 0 then |s| else b, g[p].p.At(d), w) == true
    ensures Before(s + [z], |s| + 1) == Before(s, |s|) + if d then Inorder(u.l) + [u.e] else []
  {
    hide Spine;
    PlugNodes(s, |s|, u);
    z, w := Descend(g, root, s, p, u, d);
  }

  /** What is left of the search for `x` once it has come down the path `s` to `u`. */
  ghost predicate Sought(cmp: Cmp, x: Key, t: Tree, s: seq<Step>, u: Tree) {
    Found(cmp, x, t) == Found(cmp, x, u) && Rank(cmp, x, t) == |Before(s, |s|)| + Rank(cmp, x, u)
  }

  lemma SoughtStep(g: Heap, p: Elem?, cmp: Cmp, x: Key, t: Tree, s: seq<Step>, u: Tree, z: Step, w: Tree)
    requires Good(g, p, u) == true && u.Node? && Sought(cmp, x, t, s, u) == true
    requires z.d == (cmp(x, u.e.key) > 0) && w == if z.d then u.r else u.l
    requires Before(s + [z], |s| + 1) == Before(s, |s|) + if z.d then Inorder(u.l) + [u.e] else []
    ensures cmp(x, u.e.key) != 0 ==> Sought(cmp, x, t, s + [z], w) == true
    ensures var n := |Before(s, |s|)| + |Inorder(u.l)|;
      && (cmp(x, u.e.key) > 0 ==> |Before(s + [z], |s| + 1)| == n + 1)
      && (cmp(x, u.e.key) < 0 ==> |Before(s + [z], |s| + 1)| == |Before(s, |s|)|)
      && (cmp(x, u.e.key) == 0 ==> Found(cmp, x, t) && Rank(cmp, x, t) == n)
    ensures p in g && (g[p].p.l != null ==> g[p].p.l in g) && |Inorder(u.l)| == SizeIn(g, g[p].p.l)
  {
    hide Before, Count, Nodes;
    InorderFacts(u.l);
    RootSize(g, g[p].p.l, u.l);
  }

  /** The nodes of a path, and its directions from index `b` on, as the C arrays hold them. */
  ghost function PathOf(s: seq<Step>): seq<Elem> {
    seq(|s|, k requires 0 <= k < |s| => s[k].e)
  }

  ghost function DirsOf(s: seq<Step>, b: nat): seq<bool>
    requires b <= |s|
  {
    seq(|s| - b, k requires 0 <= k < |s| - b => s[b + k].d)
  }

  /** The last node and the last direction of a path. */
  ghost function LastNode(s: seq<Step>, n: nat): Elem?
    requires n <= |s|
  {
    if n == 0 then null else s[n - 1].e
  }

  ghost predicate LastDir(s: seq<Step>) {
    |s| > 0 && s[|s| - 1].d
  }

  lemma RecordedAt(s: seq<Step>, b: nat)
    requires b <= |s|
    ensures |PathOf(s)| == |s| && |DirsOf(s, b)| == |s| - b
    ensures forall k :: 0 <= k < |s| ==> PathOf(s)[k] == s[k].e
    ensures forall k :: b <= k < |s| ==> DirsOf(s, b)[k - b] == s[k].d
  {
  }

  lemma PathStep(s: seq<Step>, z: Step, b: nat)
    requires b <= |s|
    ensures PathOf(s + [z]) == PathOf(s) + [z.e] && DirsOf(s + [z], b) == DirsOf(s, b) + [z.d]
    ensures LastNode(s + [z], |s| + 1) == z.e && LastDir(s + [z]) == z.d
    ensures LastNode(s + [z], b) == LastNode(s, b) && (s + [z])[b].e == if b == |s| then z.e else s[b].e
  {
  }

  /** The path consists of different nodes of the heap, none of them `x`, each pointing to the next. */
  ghost predicate Chain(g: Heap, s: seq<Step>, x: Elem) {
    && (forall k :: 0 <= k < |s| ==> s[k].e in g && s[k].e != x)
    && (forall k, m :: 0 <= k < m < |s| ==> s[k].e != s[m].e)
    && (forall k :: 0 <= k < |s| - 1 ==> g[s[k].e].p.At(s[k].d) == s[k + 1].e)
  }

  /** Exactly one cell was written. */
  ghost predicate Wrote(g: Heap, h: Heap, e: Elem, c: Cell) {
    h.Keys == g.Keys && e in h && h[e] == c && Agree(g, h, g.Keys - {e})
  }

  /** One round of the size loop and of the balance loop. */
  lemma AttachedSize(g: Heap, h: Heap, f: Heap, s: seq<Step>, x: Elem, i: nat, b: nat)
    requires Chain(g, s, x) && Attached(g, h, s, x, i, b, b) && i < |s|
    requires Wrote(h, f, s[i].e, h[s[i].e].(size := h[s[i].e].size + 1))
    ensures Attached(g, f, s, x, i + 1, b, b)
  {
  }

  lemma AttachedBalance(g: Heap, h: Heap, f: Heap, s: seq<Step>, x: Elem, b: nat, j: nat)
    requires Chain(g, s, x) && Attached(g, h, s, x, |s|, b, j) && b <= j < |s|
    requires Wrote(h, f, s[j].e, h[s[j].e].(balance := h[s[j].e].balance + Sign(s[j].d)))
    ensures Attached(g, f, s, x, |s|, b, j + 1)
    ensures f[s[j].e].p.At(s[j].d) == if j + 1 < |s| then s[j + 1].e else x
  {
  }

  /** kavl_insert once the place is found: `x` is attached and the sizes on its path count it. */
  method Attach(root: Elem?, x: Elem, which: bool, path: seq<Elem>, ghost s: seq<Step>, ghost b: nat, ghost dom: set<Elem>)
    returns (root': Elem?)
    requires x in dom && Chain(Cells(dom), s, x) && which == LastDir(s)
    requires |path| == |s| && forall k :: 0 <= k < |s| ==> path[k] == s[k].e
    modifies dom
    ensures root' == if |s| == 0 then x else root
    ensures Attached(old(Cells(dom)), Cells(dom), s, x, |s|, b, b)
  {
    ghost var g := Cells(dom);
    x.balance, x.size, x.p := 0, 1, Kids(null, null);
    if path == [] {
      root' := x;
    } else {
      var q := path[|path| - 1];
      q.p := q.p.With(which, x);
      root' := root;
    }
    for i := 0 to |path|
      invariant Attached(g, Cells(dom), s, x, i, b, b) == true
    {
      ghost var h := Cells(dom);
      path[i].size := path[i].size + 1;
      AttachedSize(g, h, Cells(dom), s, x, i, b);
    }
  }

  /** kavl_insert: from the rebalancing point down to `x` the balances follow the path. */
  method Tilt(bp: Elem, x: Elem, stack: seq<bool>, ghost g: Heap, ghost s: seq<Step>, ghost b: nat, ghost dom: set<Elem>)
    requires Chain(g, s, x) && b < |s| && bp == s[b].e && g.Keys == dom
    requires Attached(g, Cells(dom), s, x, |s|, b, b)
    requires |stack| == |s| - b && forall k :: b <= k < |s| ==> stack[k - b] == s[k].d
    modifies dom
    ensures Attached(g, Cells(dom), s, x, |s|, b, |s|)
  {
    var p, top := bp, 0;
    ghost var j := b;
    while p != x
      invariant b <= j <= |s| && top == j - b && p == (if j < |s| then s[j].e else x)
      invariant Attached(g, Cells(dom), s, x, |s|, b, j) == true
      decreases |s| - j
    {
      ghost var h := Cells(dom);
      assert p == s[j].e && p in dom && stack[top] == s[j].d;
      if !stack[top] {
        p.balance := p.balance - 1;
      } else {
        p.balance := p.balance + 1;
      }
      assert Wrote(h, Cells(dom), p, h[p].(balance := h[p].balance + Sign(s[j].d)));
      AttachedBalance(g, h, Cells(dom), s, x, b, j);
      p, top, j := p.p.At(stack[top]), top + 1, j + 1;
    }
  }

  /** `m` can take the place of the rebalancing point: same nodes in the same order, old height. */
  ghost predicate Replaces(k: Heap, m: Tree, z: Step, w: Tree, h1: int) {
    && m.Node? && Good(k, m.e, m) == true
    && Nodes(m) == Nodes(w) + {z.e} + Nodes(z.sib)
    && Count(m) == CountUp(Count(w), z.sib) && Ht(m) == HtUp(h1, z.sib)
    && Inorder(m) == Inorder(Mk(z.d, w, z.e, z.sib))
  }

  lemma RebalanceOnce(h: Heap, f: Heap, k: Heap, z: Step, w: Tree, h1: int) returns (m: Tree)
    requires Heavy(h, z, w, h1) == true && !(-1 <= h[z.e].balance <= 1) && h[w.e].balance == Sign(z.d)
    requires CanRotate1(h, z.e, !z.d) && Rotated1(h, f, z.e, !z.d) == true
    requires k.Keys == f.Keys && Agree(f, k, f.Keys - {z.e, w.e})
    requires k[z.e] == f[z.e].(balance := 0) && k[w.e] == f[w.e].(balance := 0)
    ensures m.Node? && m.e == w.e && Replaces(k, m, z, w, h1)
  {
    hide Ht, Good, Pair;
    var inner, outer := HeavyPair(h, z, w, h1);
    SingleOrder(!z.d, z.sib, z.e, inner, w.e, outer);
    m := SingleRotation(h, f, k, z.e, w.e, !z.d, z.sib, inner, outer);
  }

  lemma RebalanceTwice(h: Heap, k: Heap, z: Step, w: Tree, h1: int) returns (m: Tree)
    requires Heavy(h, z, w, h1) == true && !(-1 <= h[z.e].balance <= 1) && h[w.e].balance != Sign(z.d)
    requires CanRotate2(h, z.e, !z.d) && Rotated2(h, k, z.e, !z.d) == true
    ensures m.Node? && m.e == h[w.e].p.At(!z.d) && Replaces(k, m, z, w, h1)
  {
    hide CanRotate2, Good, Ht, Nodes, Count;
    var x, v, y, outer := HeavyTriple(h, z, w, h1);
    DoubleOrder(!z.d, z.sib, z.e, x, v.e, y, w.e, outer);
    m := DoubleRotation(h, k, z.e, w.e, v.e, !z.d, z.sib, x, y, outer);
  }

  /** kavl_insert: the rotation at the rebalancing point. */
  method Rebalance(bp: Elem, ghost z: Step, ghost w: Tree, ghost h1: int, ghost dom: set<Elem>)
    returns (r: Elem, ghost m: Tree)
    requires bp == z.e && bp in dom && Heavy(Cells(dom), z, w, h1) && !(-1 <= bp.balance <= 1)
    requires Nodes(w) <= dom
    modifies Nodes(w) + {bp}
    ensures m.Node? && m.e == r && Replaces(Cells(dom), m, z, w, h1) == true
    ensures Agree(old(Cells(dom)), Cells(dom), dom - Nodes(w) - {bp})
  {
    ghost var h := Cells(dom);
    var which := bp.balance < 0;
    var b1 := if !which then 1 else -1;
    var q := bp.p.At(!which);
    HeavySide(h, z, w, h1);
    if q.balance == b1 {
      ghost var inner, outer := HeavyPair(h, z, w, h1);
      PairCanRotate(h, bp, q, which, z.sib, inner, outer);
      r := Rotate1(bp, which, dom);
      ghost var f := Cells(dom);
      q.balance, bp.balance := 0, 0;
      m := RebalanceOnce(h, f, Cells(dom), z, w, h1);
    } else {
      ghost var x, v, y, outer := HeavyTriple(h, z, w, h1);
      TripleCanRotate(h, bp, q, v.e, which, z.sib, x, y, outer);
      r := Rotate2(bp, which, dom);
      m := RebalanceTwice(h, Cells(dom), z, w, h1);
    }
  }

  lemma HeavySide(h: Heap, z: Step, w: Tree, h1: int)
    requires Heavy(h, z, w, h1) && !(-1 <= h[z.e].balance <= 1)
    ensures w.e in h && h[z.e].p.At(z.d) == w.e && (h[z.e].balance < 0) == !z.d
  {
  }

  lemma LinkSides(h: Heap, root: Elem?, s: seq<Step>, b: nat, w: Tree, h1: int)
    requires b < |s| && Leaning(h, root, s, b, w, h1) == true
    ensures b > 0 ==> s[b - 1].e in h && (s[b].e != h[s[b - 1].e].p.l) == s[b - 1].d
    ensures b > 0 ==> s[b - 1].e in SpineNodes(s, b)
  {
    if b > 0 {
      LinkSide(h, root, s, b, s[b].e, CountUp(Count(w), s[b].sib), HtUp(h1, s[b].sib));
    }
  }

  /** The state after Tilt, put together. */
  lemma PlaceLeaning(g: Heap, h: Heap, root: Elem?, s: seq<Step>, x: Elem, b: nat) returns (w: Tree, h1: int)
    requires b < |s| && Attached(g, h, s, x, |s|, b, |s|) == true
    requires Spine(g, root, s, |s|, null, 0, 0) == true && g.Keys == SpineNodes(s, |s|) + {x}
    requires x !in SpineNodes(s, |s|)
    requires forall k :: 0 <= k < |s| ==> s[k].e in g && s[k].e in h
    requires forall k :: b < k < |s| ==> g[s[k].e].balance == 0
    requires b > 0 ==> g[s[b].e].balance != 0
    ensures Leaning(h, root, s, b, w, h1) == true && Heavy(h, s[b], w, h1) == true
    ensures -1 <= h[s[b].e].balance <= 1 ==> h[s[b].e].balance == 0 || b == 0
    ensures Plug(s, b + 1, w) == Plug(s, |s|, Node(Leaf, x, Leaf))
    ensures SpineNodes(s, b) !! Nodes(w) + {s[b].e} && SpineNodes(s, b) <= g.Keys
    ensures Nodes(w) + {s[b].e} + Nodes(s[b].sib) <= g.Keys
  {
    hide Agree, Path, Walked, Plug, Count, CountUp, Mk, Good, Sign, Bumped;
    AttachedWalked(g, h, root, s, x, b);
    AttachedSteps(g, h, s, x, b, |s|);
    AttachedAbove(g, h, s, x, b, b);
    w, h1 := InsertLeaning(g, h, root, s, x, b);
    PlugNodes(s, b + 1, w);
    PlugNodes(s, |s|, Node(Leaf, x, Leaf));
  }

  /** Exchanging the subtree at the rebalancing point for one with the same order. */
  lemma PlaceOrder(s: seq<Step>, b: nat, w: Tree, m: Tree, x: Elem)
    requires b < |s| && Plug(s, b + 1, w) == Plug(s, |s|, Node(Leaf, x, Leaf))
    requires Inorder(m) == Inorder(Mk(s[b].d, w, s[b].e, s[b].sib))
    ensures Inorder(Plug(s, b, m)) == Before(s, |s|) + [x] + After(s, |s|)
    ensures Inorder(Plug(s, b + 1, w)) == Before(s, |s|) + [x] + After(s, |s|)
  {
    PlugInorder(s, b, m);
    PlugInorder(s, b, Mk(s[b].d, w, s[b].e, s[b].sib));
    PlugInorder(s, |s|, Node(Leaf, x, Leaf));
  }

  /** The side of its parent on which a path node hangs, as the C code tells it. */
  lemma LinkSide(h: Heap, root: Elem?, s: seq<Step>, n: nat, q: Elem, c: int, ht: int)
    requires 0 < n <= |s| && Spine(h, root, s, n, q, c, ht) == true && q !in SpineNodes(s, n)
    ensures s[n - 1].e in h && (q != h[s[n - 1].e].p.l) == s[n - 1].d
  {
    var z := s[n - 1];
    RootSize(h, h[z.e].p.At(!z.d), z.sib);
  }

  /** What the search leaves behind, in a snapshot that includes the new node. */
  lemma PlaceStart(g0: Heap, g: Heap, root: Elem?, t: Tree, s: seq<Step>, b: nat, x: Elem)
    requires Trail(g0, root, t, s, b, null, Leaf) == true && g0.Keys == Nodes(t)
    requires Agree(g0, g, Nodes(t)) && g.Keys == Nodes(t) + {x} && x !in Nodes(t)
    ensures Spine(g, root, s, |s|, null, 0, 0) == true && SpineNodes(s, |s|) == Nodes(t)
    ensures Chain(g, s, x)
    ensures |s| == 0 ==> b == 0
    ensures |s| > 0 ==> b < |s|
    ensures forall k :: b < k < |s| ==> g[s[k].e].balance == 0
    ensures b > 0 ==> g[s[b].e].balance != 0
  {
    PlugNodes(s, |s|, Leaf);
    SpineFrame(g0, g, root, s, |s|, null, 0, 0);
    SpineElems(g, root, s, |s|, null, 0, 0);
    SpineLinks(g, root, s, |s|, null, 0, 0);
  }

  /** A tree of one node is even there. */
  lemma OneNode(g: Heap, root: Elem?, t: Tree, s: seq<Step>, b: nat)
    requires Trail(g, root, t, s, b, null, Leaf) == true
    ensures Count(t) == 1 ==> |s| == 1 && b == 0 && s[0].e in g && s[0].e in Nodes(t) && g[s[0].e].balance == 0
  {
    if Count(t) == 1 {
      NoNodes(t.l);
      NoNodes(t.r);
      assert Ht(t) == 1 && |s| == 1;
      var m := Mk(s[0].d, Leaf, s[0].e, s[0].sib);
      assert Plug(s, 1, Leaf) == Plug(s, 0, m) == m;
      NoNodes(s[0].sib);
    }
  }

  lemma NoNodes(t: Tree)
    ensures Count(t) == 0 <==> t == Leaf
  {
  }

  lemma Tilted(g: Heap, h: Heap, s: seq<Step>, x: Elem, b: nat)
    requires b < |s| && Attached(g, h, s, x, |s|, b, |s|) == true
    ensures s[b].e in g && s[b].e in h && h[s[b].e].balance == g[s[b].e].balance + Sign(s[b].d)
  {
  }

  /** kavl_insert: the rotated subtree is linked where `bp` was. */
  method LinkUp(root: Elem?, bp: Elem, bq: Elem?, r: Elem, ghost s: seq<Step>, ghost b: nat, ghost dom: set<Elem>)
    returns (root': Elem?)
    requires b <= |s| && bq == LastNode(s, b) && SpineNodes(s, b) <= dom
    requires b > 0 ==> bq in SpineNodes(s, b) && (bp != bq.p.l) == s[b - 1].d
    modifies if bq == null then {} else {bq}
    ensures Relinked(old(Cells(dom)), Cells(dom), root, root', s, b, r)
    ensures Agree(old(Cells(dom)), Cells(dom), dom - SpineNodes(s, b))
  {
    root' := root;
    if bq == null {
      root' := r;
    } else {
      bq.p := bq.p.With(bp != bq.p.l, r);
    }
  }

  /** kavl_insert after the search: from the path to the finished tree. */
  method Place(root: Elem?, x: Elem, bp: Elem?, bq: Elem?, which: bool, path: seq<Elem>, stack: seq<bool>,
               ghost t: Tree, ghost s: seq<Step>, ghost b: nat) returns (root': Elem?, ghost t': Tree)
    requires Trail(Cells(Nodes(t)), root, t, s, b, null, Leaf) == true && x !in Nodes(t)
    requires b <= |s| && bp == (if |s| == 0 then null else if b < |s| then s[b].e else null) && bq == LastNode(s, b)
    requires which == LastDir(s) && path == PathOf(s) && stack == DirsOf(s, b)
    modifies Nodes(t), x
    ensures Valid(root', t')
    ensures Inorder(t') == Before(s, |s|) + [x] + After(s, |s|)
    ensures Count(t) == 1 ==> root' == root
  {
    hide DirsOf, LastDir, Mk, Nodes, PathOf, Plug, Trail, Agree, Heavy, Good, Attached, Lean, Path;
    ghost var dom := Nodes(t) + {x};
    ghost var g := Cells(dom);
    PlaceStart(Cells(Nodes(t)), g, root, t, s, b, x);
    OneNode(Cells(Nodes(t)), root, t, s, b);
    RecordedAt(s, b);
    root' := Attach(root, x, which, path, s, b, dom);
    if bp == null {
      t' := Node(Leaf, x, Leaf);
      GoodSingle(Cells(dom), x);
      GoodFrame(Cells(dom), Cells(Nodes(t')), root', t');
      return;
    }
    Tilt(bp, x, stack, g, s, b, dom);
    ghost var h := Cells(dom);
    Tilted(g, h, s, x, b);
    ghost var w, h1 := PlaceLeaning(g, h, root, s, x, b);
    if -1 <= bp.balance <= 1 {
      t' := SettleEven(h, root, s, b, w, h1);
      PlaceOrder(s, b, w, Mk(s[b].d, w, s[b].e, s[b].sib), x);
    } else {
      LinkSides(h, root, s, b, w, h1);
      ghost var m;
      var r;
      r, m := Rebalance(bp, s[b], w, h1, dom);
      ghost var k := Cells(dom);
      root' := LinkUp(root, bp, bq, r, s, b, dom);
      SettleRotated(h, k, Cells(dom), root, root', s, b, w, h1, m);
      t' := Plug(s, b, m);
      PlaceOrder(s, b, w, m, x);
    }
    InorderFacts(t');
    GoodFrame(Cells(dom), Cells(Nodes(t')), root', t');
  }

  /** In front of a round of the search loop: all that the local variables mean. */
  ghost predicate Descent(g: Heap, root: Elem?, t: Tree, s: seq<Step>, b: nat, p: Elem?, u: Tree, cmp: Cmp, x: Key, cnt: int,
                          path: seq<Elem>, stack: seq<bool>, q: Elem?, which: bool, bp: Elem?, bq: Elem?) {
    && Trail(g, root, t, s, b, p, u) && cnt == |Before(s, |s|)| && Sought(cmp, x, t, s, u)
    && path == PathOf(s) && b <= |s| && stack == DirsOf(s, b)
    && q == LastNode(s, |s|) && which == LastDir(s)
    && bp == (if |s| == 0 then root else if b < |s| then s[b].e else null) && bq == LastNode(s, b)
  }

  lemma DescentBegins(g: Heap, root: Elem?, t: Tree, cmp: Cmp, x: Key)
    requires Good(g, root, t) == true
    ensures Descent(g, root, t, [], 0, root, t, cmp, x, 0, [], [], null, false, root, null) == true
  {
  }

  /** The node at hand is in the tree; so is its left child, if any. */
  lemma DescentAt(g: Heap, root: Elem?, t: Tree, s: seq<Step>, b: nat, p: Elem?, u: Tree, cmp: Cmp, x: Key, cnt: int,
                  path: seq<Elem>, stack: seq<bool>, q: Elem?, which: bool, bp: Elem?, bq: Elem?)
    requires Descent(g, root, t, s, b, p, u, cmp, x, cnt, path, stack, q, which, bp, bq) == true && p != null
    ensures p in Nodes(t) && p in g && (g[p].p.l != null ==> g[p].p.l in g && g[p].p.l in Nodes(t))
    ensures u.Node? && p == u.e
  {
    PlugNodes(s, |s|, u);
    LeftSize(g, p, u);
  }

  /** Where the search ends with an equal node. */
  lemma DescentEqual(g: Heap, root: Elem?, t: Tree, s: seq<Step>, b: nat, p: Elem, u: Tree, cmp: Cmp, x: Key, cnt: int,
                     path: seq<Elem>, stack: seq<bool>, q: Elem?, which: bool, bp: Elem?, bq: Elem?)
    requires Descent(g, root, t, s, b, p, u, cmp, x, cnt, path, stack, q, which, bp, bq) == true && cmp(x, p.key) == 0
    ensures p in g && (g[p].p.l != null ==> g[p].p.l in g)
    ensures Found(cmp, x, t) && Rank(cmp, x, t) == cnt + SizeIn(g, g[p].p.l) && p == Inorder(t)[Rank(cmp, x, t)]
  {
    var z, w := TrailStep(g, root, t, s, b, p, u, false);
    SoughtStep(g, p, cmp, x, t, s, u, z, w);
    PlugInorder(s, |s|, u);
  }

  /** A round that goes on: the variables afterwards. */
  lemma DescentStep(g: Heap, root: Elem?, t: Tree, s: seq<Step>, b: nat, p: Elem, u: Tree, cmp: Cmp, x: Key, cnt: int,
                    path: seq<Elem>, stack: seq<bool>, q: Elem?, which: bool, bp: Elem?, bq: Elem?)
    returns (z: Step, w: Tree)
    requires Descent(g, root, t, s, b, p, u, cmp, x, cnt, path, stack, q, which, bp, bq) == true && cmp(x, p.key) != 0
    ensures p in g && (g[p].p.l != null ==> g[p].p.l in g) && u.Node? && (w == u.l || w == u.r)
    ensures |path| < Ht(t) && |stack| < Ht(t)
    ensures var d, turn := cmp(x, p.key) > 0, g[p].balance != 0;
      Descent(g, root, t, s + [z], if turn then |s| else b, g[p].p.At(d), w, cmp, x,
              if d then cnt + SizeIn(g, g[p].p.l) + 1 else cnt, path + [p], (if turn then [] else stack) + [d], p, d,
              if turn then p else bp, if turn then q else bq) == true
  {
    var d := cmp(x, p.key) > 0;
    z, w := TrailStep(g, root, t, s, b, p, u, d);
    SoughtStep(g, p, cmp, x, t, s, u, z, w);
    PathStep(s, z, b);
    PathStep(s, z, |s|);
    assert DirsOf(s, |s|) == [];
    TrailRoom(g, root, t, s, b, p, u);
  }

  lemma TrailRoom(g: Heap, root: Elem?, t: Tree, s: seq<Step>, b: nat, p: Elem?, u: Tree)
    requires Trail(g, root, t, s, b, p, u) && u.Node?
    ensures |s| < Ht(t) && (|s| == 0 ==> root == p)
  {
  }

  /** Where it ends without one. */
  lemma DescentEnds(g: Heap, root: Elem?, t: Tree, s: seq<Step>, b: nat, u: Tree, cmp: Cmp, x: Key, cnt: int,
                    path: seq<Elem>, stack: seq<bool>, q: Elem?, which: bool, bp: Elem?, bq: Elem?)
    requires Descent(g, root, t, s, b, null, u, cmp, x, cnt, path, stack, q, which, bp, bq) == true
    ensures Trail(g, root, t, s, b, null, Leaf) == true
    ensures b <= |s| && bp == (if |s| == 0 then null else if b < |s| then s[b].e else null) && bq == LastNode(s, b)
    ensures which == LastDir(s) && path == PathOf(s) && stack == DirsOf(s, b)
    ensures !Found(cmp, x, t) && cnt == Rank(cmp, x, t)
    ensures Before(s, |s|) == Inorder(t)[..cnt] && After(s, |s|) == Inorder(t)[cnt..]
  {
    assert u == Leaf;
    PlugInorder(s, |s|, Leaf);
  }

  /** kavl_insert */
  method Insert(root: Elem?, x: Elem, cmp: Cmp, ghost t: Tree)
    returns (root': Elem?, v: Elem, cnt: nat, ghost t': Tree)
    requires Valid(root, t) && x !in Nodes(t) && Count(t) + 1 < UINT_RANGE
    modifies Nodes(t), x
    ensures Valid(root', t')
    ensures cnt == Rank(cmp, x.key, t) + (if Found(cmp, x.key, t) then 1 else 0)
    ensures Found(cmp, x.key, t) ==>
      v in Nodes(t) && v == Inorder(t)[Rank(cmp, x.key, t)] && root' == root && t' == t
    ensures !Found(cmp, x.key, t) ==>
      var k := Rank(cmp, x.key, t);
      v == x && Inorder(t') == Inorder(t)[..k] + [x] + Inorder(t)[k..]
    ensures Count(t) == 1 ==> root' == root
  {
    hide Descent, Good, Trail, Before, After, Inorder, Found, Rank, PathOf, DirsOf, LastNode, LastDir, Count, Ht, Nodes;
    ghost var g := Cells(Nodes(t));
    var path: seq<Elem>, stack: seq<bool> := [], [];
    var bp, bq: Elem? := root, null;
    var p, q: Elem? := bp, bq;
    var which := false;
    cnt := 0;
    ghost var s: seq<Step>, u, b: nat := [], t, 0;
    HeightBound(g, root, t);
    DescentBegins(g, root, t, cmp, x.key);
    while p != null
      invariant Cells(Nodes(t)) == g
      invariant Descent(g, root, t, s, b, p, u, cmp, x.key, cnt, path, stack, q, which, bp, bq) == true
      decreases u
    {
      var c := cmp(x.key, p.key);
      DescentAt(g, root, t, s, b, p, u, cmp, x.key, cnt, path, stack, q, which, bp, bq);
      assert g[p] == Cell(p.p, p.balance, p.size) && SizeIn(g, p.p.l) == Size(p.p.l);
      if c == 0 {
        DescentEqual(g, root, t, s, b, p, u, cmp, x.key, cnt, path, stack, q, which, bp, bq);
      }
      ghost var z, w;
      if c != 0 {
        z, w := DescentStep(g, root, t, s, b, p, u, cmp, x.key, cnt, path, stack, q, which, bp, bq);
      }
      if c >= 0 {
        cnt := cnt + Size(p.p.l) + 1;
      }
      if c == 0 {
        return root, p, cnt, t;
      }
      assert |path| < KAVL_MAX_DEPTH && |stack| < KAVL_MAX_DEPTH;
      if p.balance != 0 {
        bq, bp, stack := q, p, [];
        b := |s|;
      }
      which := c > 0;
      stack := stack + [which];
      path := path + [p];
      s, u := s + [z], w;
      q, p := p, p.p.At(which);
    }
    DescentEnds(g, root, t, s, b, u, cmp, x.key, cnt, path, stack, q, which, bp, bq);
    root', t' := Place(root, x, bp, bq, which, path, stack, t, s, b);
    v := x;
  }
}
