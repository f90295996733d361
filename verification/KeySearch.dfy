/**
  The search of kavl_find is exact on a tree whose keys are pairwise unrelated and in order,
  although the comparator is not a total order.
*/
module KeySearch {
  import opened Keys
  import opened KeyOrder
  import opened KavlTree

  /** The keys ascend; in particular no two of them are related. */
  ghost predicate Ascending(cmp: Cmp, s: seq<Elem>) {
    forall i, j :: 0 <= i < j < |s| ==> cmp(s[i].key, s[j].key) < 0
  }

  ghost predicate KeysIn(s: seq<Elem>, u: iset<Key>) {
    forall i :: 0 <= i < |s| ==> s[i].key in u
  }

  /** Some stored key is related to `x`. */
  ghost predicate HasRelated(cmp: Cmp, x: Key, s: seq<Elem>) {
    exists i :: 0 <= i < |s| && Related(cmp, x, s[i].key)
  }

  ghost predicate AllAbove(cmp: Cmp, x: Key, s: seq<Elem>) {
    forall i :: 0 <= i < |s| ==> cmp(x, s[i].key) < 0
  }

  ghost predicate AllBelow(cmp: Cmp, x: Key, s: seq<Elem>) {
    forall i :: 0 <= i < |s| ==> cmp(x, s[i].key) > 0
  }

  /** The search for `x` meets `v`. */
  ghost predicate Met(t: Tree, x: Key, v: Elem) {
    Found(Scmp, x, t) && Inorder(t)[Rank(Scmp, x, t)] == v
  }

  lemma AscendingSplit(cmp: Cmp, a: seq<Elem>, e: Elem, b: seq<Elem>)
    requires Ascending(cmp, a + [e] + b)
    ensures Ascending(cmp, a) && Ascending(cmp, b)
    ensures forall i :: 0 <= i < |a| ==> cmp(a[i].key, e.key) < 0
    ensures forall i :: 0 <= i < |b| ==> cmp(e.key, b[i].key) < 0
    ensures forall i, j :: 0 <= i < |a| && 0 <= j < |b| ==> cmp(a[i].key, b[j].key) < 0
  {
    var s := a + [e] + b;
    assert s[|a|] == e;
    assert forall i :: 0 <= i < |a| ==> s[i] == a[i];
    forall i, j | 0 <= i < j < |b| ensures cmp(b[i].key, b[j].key) < 0 {
      assert s[|a| + 1 + i] == b[i] && s[|a| + 1 + j] == b[j];
    }
    forall i | 0 <= i < |b| ensures cmp(e.key, b[i].key) < 0 {
      assert s[|a| + 1 + i] == b[i];
    }
    forall i, j | 0 <= i < |a| && 0 <= j < |b| ensures cmp(a[i].key, b[j].key) < 0 {
      assert s[i] == a[i] && s[|a| + 1 + j] == b[j];
    }
  }

  /** Seen from `x` the keys come as: those below it, those related to it, those above it. */
  ghost predicate Parted(cmp: Cmp, x: Key, s: seq<Elem>) {
    forall i, j :: 0 <= i < j < |s| ==> Sgn(cmp(x, s[j].key)) <= Sgn(cmp(x, s[i].key))
  }

  lemma AscendingParted(cmp: Cmp, u: iset<Key>, x: Key, s: seq<Elem>)
    requires Lawful(cmp, u) && x in u && KeysIn(s, u) && Ascending(cmp, s)
    ensures Parted(cmp, x, s)
  {
  }

  lemma PartedSplit(cmp: Cmp, x: Key, a: seq<Elem>, e: Elem, b: seq<Elem>)
    requires Parted(cmp, x, a + [e] + b)
    ensures Parted(cmp, x, a) && Parted(cmp, x, b)
    ensures cmp(x, e.key) < 0 ==> AllAbove(cmp, x, b)
    ensures cmp(x, e.key) > 0 ==> AllBelow(cmp, x, a)
  {
    var s := a + [e] + b;
    assert s[|a|] == e;
    assert forall i :: 0 <= i < |a| ==> s[i] == a[i];
    forall i, j | 0 <= i < j < |b| ensures Sgn(cmp(x, b[j].key)) <= Sgn(cmp(x, b[i].key)) {
      assert s[|a| + 1 + i] == b[i] && s[|a| + 1 + j] == b[j];
    }
    forall i | 0 <= i < |b| && cmp(x, e.key) < 0 ensures cmp(x, b[i].key) < 0 {
      assert s[|a| + 1 + i] == b[i];
    }
  }

  /** `k` keys below `x`, then only keys above it. */
  ghost predicate SplitAt(cmp: Cmp, x: Key, s: seq<Elem>, k: int) {
    0 <= k <= |s| && AllBelow(cmp, x, s[..k]) && AllAbove(cmp, x, s[k..])
  }

  lemma SplitLeft(cmp: Cmp, x: Key, a: seq<Elem>, e: Elem, b: seq<Elem>, k: int)
    requires SplitAt(cmp, x, a, k) && cmp(x, e.key) < 0 && AllAbove(cmp, x, b)
    ensures SplitAt(cmp, x, a + [e] + b, k)
  {
    assert (a + [e] + b)[..k] == a[..k] && (a + [e] + b)[k..] == a[k..] + [e] + b;
  }

  lemma SplitRight(cmp: Cmp, x: Key, a: seq<Elem>, e: Elem, b: seq<Elem>, k: int)
    requires SplitAt(cmp, x, b, k) && cmp(x, e.key) > 0 && AllBelow(cmp, x, a)
    ensures SplitAt(cmp, x, a + [e] + b, |a| + 1 + k)
  {
    assert (a + [e] + b)[..|a| + 1 + k] == a + [e] + b[..k] && (a + [e] + b)[|a| + 1 + k..] == b[k..];
  }

  /** Where the keys are parted the search finds a related key or the point where they part. */
  lemma {:induction false} SearchParted(cmp: Cmp, x: Key, t: Tree)
    requires Parted(cmp, x, Inorder(t))
    ensures Found(cmp, x, t) || SplitAt(cmp, x, Inorder(t), Rank(cmp, x, t))
  {
    match t
    case Leaf =>
    case Node(l, e, r) =>
      var a, b := Inorder(l), Inorder(r);
      PartedSplit(cmp, x, a, e, b);
      if cmp(x, e.key) < 0 {
        SearchParted(cmp, x, l);
        if !Found(cmp, x, l) {
          SplitLeft(cmp, x, a, e, b, Rank(cmp, x, l));
        }
      } else if cmp(x, e.key) > 0 {
        SearchParted(cmp, x, r);
        if !Found(cmp, x, r) {
          SplitRight(cmp, x, a, e, b, Rank(cmp, x, r));
        }
      }
  }

  /**
    The search refines a linear scan: it finds a related key if there is one at all; otherwise
    it ends between the keys below and the keys above `x`.
  */
  lemma SearchExact(cmp: Cmp, u: iset<Key>, x: Key, t: Tree)
    requires Lawful(cmp, u) && x in u && KeysIn(Inorder(t), u) && Ascending(cmp, Inorder(t))
    ensures Found(cmp, x, t) <==> HasRelated(cmp, x, Inorder(t))
    ensures !Found(cmp, x, t) ==> SplitAt(cmp, x, Inorder(t), Rank(cmp, x, t))
  {
    AscendingParted(cmp, u, x, Inorder(t));
    SearchParted(cmp, x, t);
    var s, k := Inorder(t), Rank(cmp, x, t);
    if !Found(cmp, x, t) {
      assert forall i :: 0 <= i < k ==> s[i] == s[..k][i];
      assert forall i :: k <= i < |s| ==> s[i] == s[k..][i - k];
    }
  }

  /** A stored key is found where it is stored. */
  lemma SearchSelf(cmp: Cmp, u: iset<Key>, t: Tree, i: nat)
    requires Lawful(cmp, u) && KeysIn(Inorder(t), u) && Ascending(cmp, Inorder(t)) && i < |Inorder(t)|
    ensures Found(cmp, Inorder(t)[i].key, t) && Rank(cmp, Inorder(t)[i].key, t) == i
  {
    var x := Inorder(t)[i].key;
    assert Related(cmp, x, x);
    SearchExact(cmp, u, x, t);
    var k := Rank(cmp, x, t);
    assert cmp(x, Inorder(t)[k].key) == 0;
  }

  /** A key put where the search for it ended keeps the order. */
  lemma AscendingInsert(cmp: Cmp, u: iset<Key>, x: Elem, s: seq<Elem>, k: nat)
    requires Lawful(cmp, u) && x.key in u && KeysIn(s, u) && Ascending(cmp, s) && SplitAt(cmp, x.key, s, k)
    ensures Ascending(cmp, s[..k] + [x] + s[k..]) && KeysIn(s[..k] + [x] + s[k..], u)
  {
    assert forall i :: 0 <= i < k ==> s[..k][i] == s[i];
    assert forall i :: 0 <= i < k ==> Sgn(cmp(s[i].key, x.key)) == -Sgn(cmp(x.key, s[i].key));
    AscendingJoin(cmp, s[..k], x, s[k..]);
  }

  lemma AscendingJoin(cmp: Cmp, a: seq<Elem>, x: Elem, b: seq<Elem>)
    requires Ascending(cmp, a) && Ascending(cmp, b) && AllAbove(cmp, x.key, b)
    requires forall i :: 0 <= i < |a| ==> cmp(a[i].key, x.key) < 0
    requires forall i, j :: 0 <= i < |a| && 0 <= j < |b| ==> cmp(a[i].key, b[j].key) < 0
    ensures Ascending(cmp, a + [x] + b)
  {
  }

  lemma AscendingRemove(cmp: Cmp, u: iset<Key>, s: seq<Elem>, k: nat)
    requires KeysIn(s, u) && Ascending(cmp, s) && k < |s|
    ensures Ascending(cmp, s[..k] + s[k + 1..]) && KeysIn(s[..k] + s[k + 1..], u)
  {
  }

  // -- a search that stops early ------------------------------------------------------------

  /** The nodes passed on the way down to `v`. */
  ghost function Above(t: Tree, v: Elem): set<Elem> {
    match t
    case Leaf => {}
    case Node(l, e, r) => if v == e then {} else {e} + Above(if v in Nodes(l) then l else r, v)
  }

  /** `y` compares like `x` with every node that it is not related to. */
  ghost predicate Coarser(cmp: Cmp, x: Key, y: Key, t: Tree) {
    forall e :: e in Nodes(t) && cmp(y, e.key) != 0 ==> Sgn(cmp(y, e.key)) == Sgn(cmp(x, e.key))
  }

  lemma BelowIsNotFound(cmp: Cmp, x: Key, t: Tree, v: Elem)
    requires AllBelow(cmp, x, Inorder(t)) && cmp(x, v.key) == 0
    ensures v !in Nodes(t)
  {
    InorderFacts(t);
  }

  /** None of them is related to `y`. */
  ghost predicate Clear(cmp: Cmp, y: Key, t: Tree, v: Elem) {
    forall a :: a in Above(t, v) ==> !Related(cmp, y, a.key)
  }

  lemma ClearStep(cmp: Cmp, y: Key, t: Tree, v: Elem)
    requires t.Node? && v != t.e
    ensures Clear(cmp, y, t, v) <==> !Related(cmp, y, t.e.key) && Clear(cmp, y, if v in Nodes(t.l) then t.l else t.r, v)
  {
  }

  /** The search for `y` meets a node, and it is `v` exactly if no node above `v` is related to `y`. */
  ghost predicate MeetsIfClear(cmp: Cmp, y: Key, t: Tree, v: Elem) {
    Found(cmp, y, t) && (Inorder(t)[Rank(cmp, y, t)] == v <==> Clear(cmp, y, t, v))
  }

  lemma MeetsUp(cmp: Cmp, y: Key, l: Tree, e: Elem, r: Tree, v: Elem)
    requires v != e && MeetsIfClear(cmp, y, if v in Nodes(l) then l else r, v) == true
    requires if v in Nodes(l) then cmp(y, e.key) <= 0 else cmp(y, e.key) >= 0
    ensures MeetsIfClear(cmp, y, Node(l, e, r), v) == true
  {
    hide Clear;
    ClearStep(cmp, y, Node(l, e, r), v);
    if cmp(y, e.key) == 0 {
      assert Inorder(Node(l, e, r))[|Inorder(l)|] == e;
    }
  }

  /** That is what a coarser search does if the search for `x` meets `v`. */
  lemma {:induction false} CoarserSearch(cmp: Cmp, x: Key, y: Key, t: Tree, v: Elem)
    requires Parted(cmp, x, Inorder(t)) && Found(cmp, x, t) && Inorder(t)[Rank(cmp, x, t)] == v
    requires Coarser(cmp, x, y, t) && Related(cmp, y, v.key)
    ensures MeetsIfClear(cmp, y, t, v) == true
  {
    hide Parted, AllBelow, AllAbove, MeetsIfClear;
    match t
    case Leaf =>
    case Node(l, e, r) =>
      PartedSplit(cmp, x, Inorder(l), e, Inorder(r));
      InorderFacts(l);
      if cmp(x, e.key) < 0 {
        CoarserSearch(cmp, x, y, l, v);
        MeetsUp(cmp, y, l, e, r, v);
      } else if cmp(x, e.key) > 0 {
        BelowIsNotFound(cmp, x, l, v);
        CoarserSearch(cmp, x, y, r, v);
        MeetsUp(cmp, y, l, e, r, v);
      } else {
        MeetsHere(cmp, y, t);
      }
  }

  lemma MeetsHere(cmp: Cmp, y: Key, t: Tree)
    requires t.Node? && Related(cmp, y, t.e.key)
    ensures MeetsIfClear(cmp, y, t, t.e) == true
  {
  }
}
