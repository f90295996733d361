/**
  The search with host_cmp in a tree of any host names.

  Names with a dash pair among them are no lawful set, and a pool may then hold related names.
  But where host_cmp does not answer 0 it agrees with the lexicographic order of the reversed
  names. That order is total, and a tree that is in it stays in it whatever is inserted.
*/
module HostSearch {
  import opened Keys
  import opened KeyOrder
  import opened HostOrder
  import opened KavlTree
  import opened KeySearch

  ghost predicate HostKeys(s: seq<Elem>) {
    forall i :: 0 <= i < |s| ==> s[i].key.cmpType == CMP_HOST
  }

  /** A search with host_cmp that meets nothing goes the way of the lexicographic order. */
  lemma {:induction false} SameSearch(x: Key, t: Tree)
    requires x.cmpType == CMP_HOST && !Found(Scmp, x, t)
    ensures !Found(LexCmp, x, t) && Rank(LexCmp, x, t) == Rank(Scmp, x, t)
  {
    match t
    case Leaf =>
    case Node(l, e, r) =>
      Refines(x, e.key);
      if Scmp(x, e.key) < 0 {
        SameSearch(x, l);
      } else {
        SameSearch(x, r);
      }
  }

  /** So a name put where the search for it ended keeps the order. */
  lemma InsertedLex(x: Elem, t: Tree)
    requires Ascending(LexCmp, Inorder(t)) && HostKeys(Inorder(t)) && x.key.cmpType == CMP_HOST && !Found(Scmp, x.key, t)
    ensures var s, k := Inorder(t), Rank(Scmp, x.key, t); Ascending(LexCmp, s[..k] + [x] + s[k..])
  {
    var u := iset k: Key | k.cmpType == CMP_HOST;
    LexLawful(u);
    SameSearch(x.key, t);
    SearchExact(LexCmp, u, x.key, t);
    AscendingInsert(LexCmp, u, x, Inorder(t), Rank(LexCmp, x.key, t));
  }

  /** What is related to a name covered by `x` is related to `x`. */
  lemma RelatedUp(x: Key, v: Key, w: Key)
    requires Covers(HostCmp, x, v) && HostCmp(v, w) == 0
    ensures HostCmp(x, w) == 0
  {
    if v.len <= w.len {
      HostTransitive(x, v, w);
    } else {
      HostSign(v, w);
      BothCover(x, w, v);
    }
  }

  lemma MeetsDown(x: Key, l: Tree, e: Elem, r: Tree, v: Elem)
    ensures Met(Node(l, e, r), x, v) <==>
      if Scmp(x, e.key) < 0 then Met(l, x, v) else if Scmp(x, e.key) > 0 then Met(r, x, v) else v == e
  {
    hide Scmp;
    assert Scmp(x, e.key) > 0 && Found(Scmp, x, r) ==>
      Inorder(Node(l, e, r))[|Inorder(l)| + 1 + Rank(Scmp, x, r)] == Inorder(r)[Rank(Scmp, x, r)];
  }

  /** Where the search for `x` passes a name, the search for a name that `x` covers takes the side of that name. */
  lemma PassesAlike(x: Key, v: Key, w: Key)
    requires Covers(HostCmp, x, v) && HostCmp(x, w) != 0
    ensures HostCmp(v, w) != 0 && Sgn(HostCmp(v, w)) == Sgn(LexCmp(v, w))
  {
    hide HostCmp, LexCmp;
    if HostCmp(v, w) == 0 {
      RelatedUp(x, v, w);
    }
    Refines(v, w);
  }

  lemma HostKeysSplit(a: seq<Elem>, e: Elem, b: seq<Elem>)
    requires HostKeys(a + [e] + b)
    ensures HostKeys(a) && HostKeys(b) && e.key.cmpType == CMP_HOST
  {
    var s := a + [e] + b;
    assert forall i :: 0 <= i < |a| ==> s[i] == a[i];
    assert forall i :: 0 <= i < |b| ==> s[|a| + 1 + i] == b[i];
    assert s[|a|] == e;
  }

  lemma MetInside(x: Key, t: Tree, v: Elem)
    requires Met(t, x, v)
    ensures v in Inorder(t) && Scmp(x, v.key) == 0
  {
  }

  /** If the search for `x` meets a name that `x` covers, the search for that name meets it too. */
  lemma {:induction false} MeetsItself(x: Key, t: Tree, v: Elem)
    requires Ascending(LexCmp, Inorder(t)) && HostKeys(Inorder(t)) && x.cmpType == CMP_HOST
    requires Met(t, x, v) && x.len <= v.key.len && v.key.cmpType == CMP_HOST
    ensures Met(t, v.key, v)
  {
    hide HostCmp, LexCmp, Rank, Found, Met, HostKeys, Ascending;
    MetInside(x, t, v);
    assert t.Node?;
    var l, e, r := t.l, t.e, t.r;
    AscendingSplit(LexCmp, Inorder(l), e, Inorder(r));
    HostKeysSplit(Inorder(l), e, Inorder(r));
    MeetsDown(x, l, e, r, v);
    MeetsDown(v.key, l, e, r, v);
    if HostCmp(x, e.key) == 0 {
      HostSign(v.key, v.key);
    } else {
      PassesAlike(x, v.key, e.key);
      if HostCmp(x, e.key) < 0 {
        MetInside(x, l, v);
        MeetsItself(x, l, v);
      } else {
        MetInside(x, r, v);
        LexSign(e.key, v.key);
        MeetsItself(x, r, v);
      }
    }
  }
}
