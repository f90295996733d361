/** The two rotations of kavl.h: the field updates, and what they make of the tree. */
module KavlRotate {
  import opened KavlTree

  /** kavl_size */
  function Size(p: Elem?): nat
    reads p
  {
    if p == null then 0 else p.size
  }

  ghost function SizeIn(g: Heap, p: Elem?): int
    requires p != null ==> p in g
  {
    if p == null then 0 else g[p].size
  }

  /** The children that the rotations follow exist and are different nodes. */
  ghost predicate CanRotate1(g: Heap, p: Elem, dir: bool) {
    && p in g
    && var q := g[p].p.At(!dir);
    && q != null && q != p && q in g
    && var b := g[q].p.At(dir);
    && (b != null ==> b in g)
    && g[p].size - (g[q].size - SizeIn(g, b)) >= 0
  }

  /** One rotation as a single simultaneous change of two cells. */
  ghost predicate Rotated1(g: Heap, h: Heap, p: Elem, dir: bool)
    requires CanRotate1(g, p, dir)
  {
    var q: Elem := g[p].p.At(!dir);
    var b := g[q].p.At(dir);
    && h.Keys == g.Keys && Agree(g, h, g.Keys - {p, q})
    && h[p] == Cell(g[p].p.With(!dir, b), g[p].balance, g[p].size - (g[q].size - SizeIn(g, b)))
    && h[q] == Cell(g[q].p.With(dir, p), g[q].balance, g[p].size)
  }

  /** kavl_rotate1 */
  method Rotate1(p: Elem, dir: bool, ghost dom: set<Elem>) returns (q: Elem)
    requires p in dom && CanRotate1(Cells(dom), p, dir)
    modifies p`p, p`size, p.p.At(!dir)`p, p.p.At(!dir)`size
    ensures q == old(p.p.At(!dir))
    ensures Rotated1(old(Cells(dom)), Cells(dom), p, dir)
  {
    var opp := !dir;
    q := p.p.At(opp);
    var sizeP := p.size;
    p.size := p.size - (q.size - Size(q.p.At(dir)));
    q.size := sizeP;
    p.p := p.p.With(opp, q.p.At(dir));
    q.p := q.p.With(dir, p);
  }

  ghost predicate CanRotate2(g: Heap, p: Elem, dir: bool) {
    && p in g
    && var q := g[p].p.At(!dir);
    && q != null && q != p && q in g
    && var r := g[q].p.At(dir);
    && r != null && r != p && r != q && r in g
    && var b := g[r].p.At(dir);
    && (b != null ==> b in g)
    && g[p].size - (g[q].size - SizeIn(g, b)) >= 0
    && g[q].size - (SizeIn(g, b) + 1) >= 0
  }

  /** The double rotation as a single simultaneous change of three cells. */
  ghost predicate Rotated2(g: Heap, h: Heap, p: Elem, dir: bool)
    requires CanRotate2(g, p, dir)
  {
    var q: Elem := g[p].p.At(!dir);
    var r: Elem := g[q].p.At(dir);
    var n := SizeIn(g, g[r].p.At(dir));
    var b1 := if dir then -1 else 1;
    && h.Keys == g.Keys && Agree(g, h, g.Keys - {p, q, r})
    && h[p] == Cell(g[p].p.With(!dir, g[r].p.At(dir)), if g[r].balance == b1 then -b1 else 0, g[p].size - (g[q].size - n))
    && h[q] == Cell(g[q].p.With(dir, g[r].p.At(!dir)), if g[r].balance in {b1, 0} then 0 else b1, g[q].size - (n + 1))
    && h[r] == Cell(Kids(null, null).With(dir, p).With(!dir, q), 0, g[p].size)
  }

  /** kavl_rotate2 */
  method Rotate2(p: Elem, dir: bool, ghost dom: set<Elem>) returns (r: Elem)
    requires p in dom && CanRotate2(Cells(dom), p, dir)
    modifies p, p.p.At(!dir), p.p.At(!dir).p.At(dir)
    ensures r == old(p.p.At(!dir).p.At(dir))
    ensures Rotated2(old(Cells(dom)), Cells(dom), p, dir)
  {
    var opp := !dir;
    var q := p.p.At(opp);
    r := q.p.At(dir);
    var sizeXDir := Size(r.p.At(dir));
    r.size := p.size;
    p.size := p.size - (q.size - sizeXDir);
    q.size := q.size - (sizeXDir + 1);
    p.p := p.p.With(opp, r.p.At(dir));
    r.p := r.p.With(dir, p);
    q.p := q.p.With(dir, r.p.At(opp));
    r.p := r.p.With(opp, q);
    assert p.p == old(p.p.With(opp, r.p.At(dir)));
    assert q.p == old(q.p.With(dir, r.p.At(opp)));
    assert r.p == Kids(null, null).With(dir, p).With(opp, q);
    var b1 := if !dir then 1 else -1;
    if r.balance == b1 {
      q.balance, p.balance := 0, -b1;
    } else if r.balance == 0 {
      q.balance, p.balance := 0, 0;
    } else {
      q.balance, p.balance := b1, 0;
    }
    r.balance := 0;
  }

  // ---------------------------------------------------------------------------------------
  // What the rotations mean for the tree

  /**
    The pattern (a,(b,c)q)p of a single rotation: `b` is on the inner side `dir` of q. Sizes are
    right, the balances of p and q are left open.
  */
  ghost predicate Pair(g: Heap, p: Elem, q: Elem, dir: bool, a: Tree, b: Tree, c: Tree) {
    && p != q && p in g && q in g
    && g[p].p.At(!dir) == q
    && Good(g, g[p].p.At(dir), a) == true && Good(g, g[q].p.At(dir), b) == true && Good(g, g[q].p.At(!dir), c) == true
    && {p, q} !! Nodes(a) && {p, q} !! Nodes(b) && {p, q} !! Nodes(c)
    && Nodes(a) !! Nodes(b) && Nodes(a) !! Nodes(c) && Nodes(b) !! Nodes(c)
    && g[q].size == Count(b) + Count(c) + 1
    && g[p].size == Count(a) + Count(b) + Count(c) + 2
  }

  lemma RootSize(g: Heap, p: Elem?, t: Tree)
    requires Good(g, p, t)
    ensures p != null ==> p in g && p in Nodes(t) && g[p].size == Count(t)
    ensures p == null <==> Count(t) == 0
  {
  }

  lemma AgreeOff(g: Heap, h: Heap, x: set<Elem>, s: set<Elem>)
    requires Agree(g, h, g.Keys - x) && x !! s
    ensures Agree(g, h, s)
  {
  }

  /** A single rotation: `q` comes above `p`, which takes over the inner subtree `b`. The balances may be set afterwards, as in `k`. */
  lemma SingleRotation(g: Heap, h: Heap, k: Heap, p: Elem, q: Elem, dir: bool, a: Tree, b: Tree, c: Tree)
    returns (m: Tree)
    requires Pair(g, p, q, dir, a, b, c) == true && CanRotate1(g, p, dir) && Rotated1(g, h, p, dir) == true
    requires k.Keys == h.Keys && Agree(h, k, h.Keys - {p, q})
    requires k[p] == h[p].(balance := Lean(dir, Ht(a), Ht(b))) && -1 <= k[p].balance <= 1
    requires k[q] == h[q].(balance := Lean(dir, HtUp(Ht(a), b), Ht(c))) && -1 <= k[q].balance <= 1
    ensures m == Mk(dir, Mk(dir, a, p, b), q, c) && Good(k, q, m) == true
  {
    RootSize(g, g[q].p.At(dir), b);
    var x := Mk(dir, a, p, b);
    assert Agree(g, k, Nodes(a)) && Agree(g, k, Nodes(b)) && Agree(g, k, Nodes(c));
    assert Good(k, p, x) == true by {
      Refit(g, k, dir, g[p].p.At(dir), a, p, g[q].p.At(dir), b);
    }
    GoodFrame(g, k, g[q].p.At(!dir), c);
    GoodMk(k, dir, x, q, c);
    m := Mk(dir, x, q, c);
  }

  /** The pattern (a,((b,c)r,d)q)p of a double rotation; the balances of p and q are left open. */
  ghost predicate Triple(g: Heap, p: Elem, q: Elem, r: Elem, dir: bool, a: Tree, b: Tree, c: Tree, d: Tree) {
    && p != q && p != r && q != r && p in g && q in g && r in g
    && g[p].p.At(!dir) == q && g[q].p.At(dir) == r
    && Good(g, g[p].p.At(dir), a) == true && Good(g, g[r].p.At(dir), b) == true
    && Good(g, g[r].p.At(!dir), c) == true && Good(g, g[q].p.At(!dir), d) == true
    && {p, q, r} !! Nodes(a) && {p, q, r} !! Nodes(b) && {p, q, r} !! Nodes(c) && {p, q, r} !! Nodes(d)
    && Nodes(a) !! Nodes(b) && Nodes(a) !! Nodes(c) && Nodes(a) !! Nodes(d)
    && Nodes(b) !! Nodes(c) && Nodes(b) !! Nodes(d) && Nodes(c) !! Nodes(d)
    && g[q].size == Count(b) + Count(c) + Count(d) + 2
    && g[p].size == Count(a) + Count(b) + Count(c) + Count(d) + 3
    && g[r].balance == Lean(dir, Ht(b), Ht(c)) && -1 <= g[r].balance <= 1
    && Ht(a) == Ht(d) == Max(Ht(b), Ht(c))
  }

  lemma DoubleRotationP(g: Heap, h: Heap, p: Elem, q: Elem, r: Elem, dir: bool, a: Tree, b: Tree, c: Tree, d: Tree)
    requires Triple(g, p, q, r, dir, a, b, c, d) == true && CanRotate2(g, p, dir) && Rotated2(g, h, p, dir) == true
    ensures Good(h, p, Mk(dir, a, p, b)) == true
  {
    RootSize(g, g[r].p.At(dir), b);
    AgreeOff(g, h, {p, q, r}, Nodes(a));
    AgreeOff(g, h, {p, q, r}, Nodes(b));
    Refit(g, h, dir, g[p].p.At(dir), a, p, g[r].p.At(dir), b);
  }

  lemma DoubleRotationQ(g: Heap, h: Heap, p: Elem, q: Elem, r: Elem, dir: bool, a: Tree, b: Tree, c: Tree, d: Tree)
    requires Triple(g, p, q, r, dir, a, b, c, d) == true && CanRotate2(g, p, dir) && Rotated2(g, h, p, dir) == true
    ensures Good(h, q, Mk(dir, c, q, d)) == true
  {
    RootSize(g, g[r].p.At(dir), b);
    AgreeOff(g, h, {p, q, r}, Nodes(c));
    AgreeOff(g, h, {p, q, r}, Nodes(d));
    Refit(g, h, dir, g[r].p.At(!dir), c, q, g[q].p.At(!dir), d);
  }

  /** A double rotation: the inner node `r` comes above both `p` and `q`, which share its subtrees `b` and `c`. */
  lemma DoubleRotation(g: Heap, h: Heap, p: Elem, q: Elem, r: Elem, dir: bool, a: Tree, b: Tree, c: Tree, d: Tree)
    returns (m: Tree)
    requires Triple(g, p, q, r, dir, a, b, c, d) == true && CanRotate2(g, p, dir) && Rotated2(g, h, p, dir) == true
    ensures m == Mk(dir, Mk(dir, a, p, b), r, Mk(dir, c, q, d))
    ensures Good(h, r, m) == true && Ht(m) == Ht(a) + 2
  {
    hide Nodes;
    DoubleRotationP(g, h, p, q, r, dir, a, b, c, d);
    DoubleRotationQ(g, h, p, q, r, dir, a, b, c, d);
    var x, y := Mk(dir, a, p, b), Mk(dir, c, q, d);
    GoodMk(h, dir, x, r, y);
    m := Mk(dir, x, r, y);
  }

  lemma PairCanRotate(g: Heap, p: Elem, q: Elem, dir: bool, a: Tree, b: Tree, c: Tree)
    requires Pair(g, p, q, dir, a, b, c)
    ensures CanRotate1(g, p, dir)
  {
    RootSize(g, g[q].p.At(dir), b);
  }

  lemma TripleCanRotate(g: Heap, p: Elem, q: Elem, r: Elem, dir: bool, a: Tree, b: Tree, c: Tree, d: Tree)
    requires Triple(g, p, q, r, dir, a, b, c, d)
    ensures CanRotate2(g, p, dir)
  {
    RootSize(g, g[r].p.At(dir), b);
  }

  /** Rotations do not change the order. */
  lemma SingleOrder(dir: bool, a: Tree, p: Elem, b: Tree, q: Elem, c: Tree)
    ensures Inorder(Mk(dir, Mk(dir, a, p, b), q, c)) == Inorder(Mk(!dir, Mk(dir, b, q, c), p, a))
  {
    if dir {
      assert Inorder(c) + [q] + (Inorder(b) + [p] + Inorder(a)) == (Inorder(c) + [q] + Inorder(b)) + [p] + Inorder(a);
    } else {
      assert Inorder(a) + [p] + (Inorder(b) + [q] + Inorder(c)) == (Inorder(a) + [p] + Inorder(b)) + [q] + Inorder(c);
    }
  }

  lemma DoubleOrder(dir: bool, a: Tree, p: Elem, b: Tree, r: Elem, c: Tree, q: Elem, d: Tree)
    ensures Inorder(Mk(dir, Mk(dir, a, p, b), r, Mk(dir, c, q, d)))
         == Inorder(Mk(!dir, Mk(dir, Mk(dir, b, r, c), q, d), p, a))
  {
    SingleOrder(dir, a, p, b, r, Mk(dir, c, q, d));
    SingleOrder(dir, b, r, c, q, d);
    var m, n := Mk(dir, b, r, Mk(dir, c, q, d)), Mk(dir, Mk(dir, b, r, c), q, d);
    assert Mk(!dir, Mk(!dir, Mk(dir, c, q, d), r, b), p, a) == Mk(!dir, m, p, a);
    assert Inorder(m) == Inorder(n);
  }
}
