/**
  mpool.c: a pool of keys in a kavl tree.

  A pool stands for the union of what its keys cover: CIDR blocks, or domains with their
  subdomains. Adding a key that is covered already changes nothing; adding one that covers
  stored keys takes their place. So the keys stay pairwise unrelated, unless host names with a
  dash pair among them make the search miss one; even then a pool covers what it should.
*/
module Mpool {
  import opened Bytes
  import opened Keys
  import opened KeyOrder
  import opened BitOrder
  import opened HostOrder
  import opened Wrappers
  import opened KavlTree
  import opened KavlHeight
  import opened KavlInsert
  import E = KavlErase
  import opened KeySearch
  import opened HostSearch

  /** The sets of keys that a pool may be given: the bit strings, or any host names. */
  ghost predicate Admissible(cmpType: int, u: iset<Key>) {
    if cmpType == CMP_BITS then u == BitKeys() else cmpType == CMP_HOST && forall k :: k in u ==> k.cmpType == CMP_HOST
  }

  /** Those that it keeps apart: all bit strings, host names without a dash pair. */
  ghost predicate Tidy(cmpType: int, u: iset<Key>) {
    Admissible(cmpType, u) && (cmpType == CMP_HOST ==> HostSet(u))
  }

  lemma TidyLawful(cmpType: int, u: iset<Key>)
    requires Tidy(cmpType, u)
    ensures Lawful(Scmp, u) && forall k :: k in u ==> k.cmpType == cmpType
  {
    if cmpType == CMP_BITS {
      BitsLawful();
    } else {
      HostsLawful(u);
    }
  }

  /** The keys are pairwise unrelated and in order. */
  ghost predicate Antichain(cmpType: int, u: iset<Key>, s: seq<Elem>) {
    Tidy(cmpType, u) && KeysIn(s, u) && Ascending(Scmp, s)
  }

  /** What holds of every pool: host names are in lexicographic order from the end; tidy keys are kept apart. */
  ghost predicate Orderly(cmpType: int, u: iset<Key>, s: seq<Elem>) {
    && Admissible(cmpType, u) && KeysIn(s, u)
    && (cmpType == CMP_HOST ==> Ascending(LexCmp, s))
    && (Tidy(cmpType, u) ==> Antichain(cmpType, u, s))
  }

  /** Some key of the pool is related to `x` and not longer than it. */
  ghost predicate Covered(s: set<Elem>, x: Key) {
    exists e :: e in s && Covers(Scmp, e.key, x)
  }

  /** The elements that make room for `x`. */
  ghost function RelatedTo(s: set<Elem>, x: Key): set<Elem> {
    set e | e in s && Related(Scmp, x, e.key)
  }

  lemma RelatedNodes(x: Key, t: Tree)
    ensures HasRelated(Scmp, x, Inorder(t)) <==> RelatedTo(Nodes(t), x) != {}
  {
    InorderFacts(t);
    var s := Inorder(t);
    if HasRelated(Scmp, x, s) {
      var i :| 0 <= i < |s| && Related(Scmp, x, s[i].key);
      assert s[i] in s;
      assert s[i] in RelatedTo(Nodes(t), x);
    }
    if RelatedTo(Nodes(t), x) != {} {
      var e :| e in RelatedTo(Nodes(t), x);
      assert e in s;
      var i :| 0 <= i < |s| && s[i] == e;
      assert Related(Scmp, x, s[i].key);
    }
  }

  ghost function Elements(s: seq<Elem>): set<Elem> {
    set e | e in s
  }

  lemma {:induction false} NodesElements(t: Tree)
    ensures Nodes(t) == Elements(Inorder(t)) && Count(t) == |Inorder(t)|
  {
    match t
    case Leaf =>
    case Node(l, e, r) =>
      NodesElements(l);
      NodesElements(r);
  }

  lemma OrderlySearch(cmpType: int, u: iset<Key>, x: Key, t: Tree)
    requires Orderly(cmpType, u, Inorder(t)) && Tidy(cmpType, u) && x in u
    ensures Found(Scmp, x, t) <==> RelatedTo(Nodes(t), x) != {}
  {
    AntichainSearch(cmpType, u, x, t);
  }

  lemma AntichainSearch(cmpType: int, u: iset<Key>, x: Key, t: Tree)
    requires Antichain(cmpType, u, Inorder(t)) && x in u
    ensures Found(Scmp, x, t) <==> RelatedTo(Nodes(t), x) != {}
  {
    TidyLawful(cmpType, u);
    SearchExact(Scmp, u, x, t);
    RelatedNodes(x, t);
  }

  /** `x` put into `s` at place `k`. */
  ghost function Put(s: seq<Elem>, k: nat, x: Elem): seq<Elem>
    requires k <= |s|
  {
    s[..k] + [x] + s[k..]
  }

  /** A key that meets none, put where the search for it ended. */
  lemma InsertedOrder(cmpType: int, u: iset<Key>, x: Elem, t: Tree)
    requires Orderly(cmpType, u, Inorder(t)) && x.key in u && !Found(Scmp, x.key, t)
    ensures Orderly(cmpType, u, Put(Inorder(t), Rank(Scmp, x.key, t), x))
  {
    hide LexCmp, Scmp;
    InsertedKeys(Inorder(t), u, Rank(Scmp, x.key, t), x);
    if Tidy(cmpType, u) {
      TidyLawful(cmpType, u);
      SearchExact(Scmp, u, x.key, t);
      AscendingInsert(Scmp, u, x, Inorder(t), Rank(Scmp, x.key, t));
    }
    if cmpType == CMP_HOST {
      InsertedLex(x, t);
    }
  }

  lemma InsertedKeys(s: seq<Elem>, u: iset<Key>, k: nat, x: Elem)
    requires KeysIn(s, u) && x.key in u && k <= |s|
    ensures KeysIn(Put(s, k, x), u)
  {
  }

  lemma InsertedNodes(t: Tree, t': Tree, k: nat, x: Elem)
    requires k <= |Inorder(t)| && Inorder(t') == Put(Inorder(t), k, x)
    ensures Count(t') == Count(t) + 1 && Nodes(t') == Nodes(t) + {x}
  {
    NodesElements(t);
    NodesElements(t');
    InsertedSet(Inorder(t), k, x);
  }

  lemma InsertedSet(s: seq<Elem>, k: nat, x: Elem)
    requires k <= |s|
    ensures Elements(s[..k] + [x] + s[k..]) == Elements(s) + {x}
  {
    assert s == s[..k] + s[k..];
  }

  lemma ErasedOrder(cmpType: int, u: iset<Key>, s: seq<Elem>, k: nat)
    requires Orderly(cmpType, u, s) && k < |s|
    ensures Orderly(cmpType, u, s[..k] + s[k + 1..])
    ensures forall i :: 0 <= i < |s| && i != k ==> s[i] != s[k]
  {
    hide LexCmp, Scmp;
    if Tidy(cmpType, u) {
      TidyLawful(cmpType, u);
      AscendingRemove(Scmp, u, s, k);
      assert Scmp(s[k].key, s[k].key) == 0;
    }
    if cmpType == CMP_HOST {
      AscendingRemove(LexCmp, u, s, k);
      LexSign(s[k].key, s[k].key);
    }
  }

  lemma ErasedNodes(t: Tree, t': Tree, k: nat)
    requires var s := Inorder(t);
      && k < |s| && Inorder(t') == s[..k] + s[k + 1..]
      && forall i :: 0 <= i < |s| && i != k ==> s[i] != s[k]
    ensures Count(t') == Count(t) - 1 && Nodes(t') == Nodes(t) - {Inorder(t)[k]}
  {
    NodesElements(t);
    NodesElements(t');
    ErasedSet(Inorder(t), k);
  }

  lemma ErasedSet(s: seq<Elem>, k: nat)
    requires k < |s| && forall i :: 0 <= i < |s| && i != k ==> s[i] != s[k]
    ensures Elements(s[..k] + s[k + 1..]) == Elements(s) - {s[k]}
  {
    assert s == s[..k] + [s[k]] + s[k + 1..];
  }

  /** If the search for `x` meets a key that is longer, the search for that key meets it again. */
  lemma MeetsAgain(cmpType: int, u: iset<Key>, x: Key, t: Tree, v: Elem)
    requires Orderly(cmpType, u, Inorder(t)) && x in u && Met(t, x, v) && x.len < v.key.len
    ensures v.key in u && v.key.cmpType == cmpType && Met(t, v.key, v)
  {
    if cmpType == CMP_BITS {
      TidyLawful(cmpType, u);
      SearchSelf(Scmp, u, t, Rank(Scmp, x, t));
    } else {
      MeetsItself(x, t, v);
    }
  }

  lemma MetNode(t: Tree, x: Key, v: Elem)
    requires Met(t, x, v)
    ensures v in RelatedTo(Nodes(t), x)
  {
    InorderFacts(t);
  }

  /** `gone` may make room for `x`, which covers all of it. */
  ghost predicate Ousted(s: set<Elem>, x: Key, gone: set<Elem>) {
    gone <= s && forall w :: w in gone ==> Covers(Scmp, x, w.key) && x.len < w.key.len
  }

  /**
    What mem_add makes of the stored elements when it is given the key `x` and returns `v`: some
    that `x` covers are gone, and `v`, an old element or the new one, covers `x`.
  */
  ghost predicate Joined(s: set<Elem>, x: Key, v: Elem, s': set<Elem>) {
    && (v in s || v.key == x) && Covers(Scmp, v.key, x)
    && exists gone :: gone <= s && Ousted(s, x, gone) && s' == s - gone + {v}
  }

  /** The same for tidy keys: nothing changes, or exactly the related elements are gone. */
  ghost predicate Added(s: set<Elem>, x: Key, s': set<Elem>) {
    if Covered(s, x) then s' == s
    else exists v :: v in s' && v.key == x && s' == s - RelatedTo(s, x) + {v}
  }

  /** The loop of mem_add: `gone` has been thrown out of `s`, `v` is what the last insertion returned. */
  ghost predicate Pending(tidy: bool, s: set<Elem>, gone: set<Elem>, e: Elem, v: Elem, s': set<Elem>) {
    && Ousted(s, e.key, gone)
    && if v == e then s' == s - gone + {e} && (tidy ==> RelatedTo(s - gone, e.key) == {})
       else s' == s - gone && v in RelatedTo(s', e.key)
  }

  lemma StillPending(tidy: bool, s: set<Elem>, gone: set<Elem>, e: Elem, v: Elem, s1: set<Elem>, v': Elem, s2: set<Elem>)
    requires Pending(tidy, s, gone, e, v, s1) && v != e && e.key.len < v.key.len
    requires if v' == e then s2 == s1 - {v} + {e} && (tidy ==> RelatedTo(s1 - {v}, e.key) == {})
      else s2 == s1 - {v} && v' in RelatedTo(s2, e.key)
    ensures Pending(tidy, s, gone + {v}, e, v', s2)
  {
    assert s - (gone + {v}) == s1 - {v};
  }

  /** How it ends. */
  ghost predicate Placed(tidy: bool, s: set<Elem>, e: Elem, v: Elem, s': set<Elem>) {
    && v in s' && (v == e || v in s) && Joined(s, e.key, v, s')
    && (!Covered(s, e.key) ==> v == e)
    && (tidy ==> if Covered(s, e.key) then v != e && s' == s else v == e && s' == s - RelatedTo(s, e.key) + {e})
  }

  lemma PlacedAdded(tidy: bool, s: set<Elem>, e: Elem, v: Elem, s': set<Elem>)
    requires Placed(tidy, s, e, v, s') == true && e !in s
    ensures v in s' && (v == e || v in s) && s' - s <= {e} && Joined(s, e.key, v, s')
    ensures !Covered(s, e.key) ==> v == e
    ensures tidy ==> Added(s, e.key, s') && (v == e <==> !Covered(s, e.key))
  {
  }

  lemma Settled(cmpType: int, u: iset<Key>, t: Tree, gone: set<Elem>, e: Elem, v: Elem, s': set<Elem>)
    requires Orderly(cmpType, u, Inorder(t)) && e.key in u && e !in Nodes(t)
    requires Pending(Tidy(cmpType, u), Nodes(t), gone, e, v, s') && (v == e || v.key.len <= e.key.len)
    ensures Placed(Tidy(cmpType, u), Nodes(t), e, v, s')
  {
    hide Antichain;
    var s := Nodes(t);
    PoolKeys(t, u);
    Symmetric(cmpType, u, e.key, v.key);
    Symmetric(cmpType, u, e.key, e.key);
    assert s' == s - gone + {v};
    assert v != e ==> Covered(s, e.key);
    if Tidy(cmpType, u) {
      SettledTidy(cmpType, u, t, gone, e, v, s');
    }
  }

  /** On tidy keys either nothing was thrown out or everything related was. */
  lemma SettledTidy(cmpType: int, u: iset<Key>, t: Tree, gone: set<Elem>, e: Elem, v: Elem, s': set<Elem>)
    requires Antichain(cmpType, u, Inorder(t)) && e.key in u && e !in Nodes(t)
    requires Pending(true, Nodes(t), gone, e, v, s') && (v == e || v.key.len <= e.key.len)
    ensures if Covered(Nodes(t), e.key) then v != e && s' == Nodes(t)
      else v == e && s' == Nodes(t) - RelatedTo(Nodes(t), e.key) + {e}
  {
    NodesElements(t);
    var s, x := Inorder(t), e.key;
    if v == e {
      assert Covers(Scmp, x, x) by {
        TidyLawful(cmpType, u);
      }
      forall e | e in s ensures e in RelatedTo(Nodes(t), x) ==> e in gone {
        assert e !in RelatedTo(Nodes(t) - gone, x);
      }
      forall e | e in s ensures !Covers(Scmp, e.key, x) {
        AntichainSign(cmpType, u, s, e, x);
      }
    } else {
      AntichainSign(cmpType, u, s, v, x);
      forall w | w in gone ensures false {
        AntichainApart(cmpType, u, s, v, x, w);
      }
    }
  }

  lemma PoolKeys(t: Tree, u: iset<Key>)
    requires KeysIn(Inorder(t), u)
    ensures forall e :: e in Nodes(t) ==> e.key in u
  {
    NodesElements(t);
  }

  lemma Symmetric(cmpType: int, u: iset<Key>, a: Key, b: Key)
    requires Admissible(cmpType, u) && a in u && b in u
    ensures Related(Scmp, a, b) <==> Related(Scmp, b, a)
    ensures Related(Scmp, a, a)
  {
    if cmpType == CMP_BITS {
      TidyLawful(cmpType, u);
    } else {
      HostSign(a, b);
    }
  }

  lemma AntichainSign(cmpType: int, u: iset<Key>, s: seq<Elem>, v: Elem, x: Key)
    requires Antichain(cmpType, u, s) && v in s && x in u
    ensures Related(Scmp, x, v.key) <==> Related(Scmp, v.key, x)
  {
    TidyLawful(cmpType, u);
    assert Sgn(Scmp(v.key, x)) == -Sgn(Scmp(x, v.key));
  }

  /** What covers `x` is related to everything that `x` covers; so both are not stored together. */
  lemma AntichainApart(cmpType: int, u: iset<Key>, s: seq<Elem>, v: Elem, x: Key, w: Elem)
    requires Antichain(cmpType, u, s) && v in s && w in s && v != w && x in u
    ensures !(Covers(Scmp, v.key, x) && Covers(Scmp, x, w.key))
  {
    TidyLawful(cmpType, u);
    Antichains(cmpType, u, s, v, w);
  }

  /** Two elements of a pool are never related. */
  lemma Antichains(cmpType: int, u: iset<Key>, s: seq<Elem>, v: Elem, w: Elem)
    requires Antichain(cmpType, u, s) && v in s && w in s && v != w
    ensures !Related(Scmp, v.key, w.key)
  {
    TidyLawful(cmpType, u);
    var i, j :| 0 <= i < |s| && s[i] == v && 0 <= j < |s| && s[j] == w;
    assert i < j || j < i;
  }

  class Pool {
    const cmpType: int
    var count: nat
    var root: Elem?
    ghost var t: Tree
    /** The keys this pool may be given. */
    ghost const u: iset<Key>

    ghost function Elems(): seq<Elem>
      reads this
    {
      Inorder(t)
    }

    /** The tree is in order; what `count` should be is left open. */
    ghost predicate Ready(n: int)
      reads this, Nodes(t)
    {
      KavlTree.Valid(root, t) && Count(t) == n && Orderly(cmpType, u, Elems())
    }

    ghost predicate Valid()
      reads this, Nodes(t)
    {
      Ready(count)
    }

    /** mem_pool */
    constructor (cmpType: int, ghost u: iset<Key>)
      requires Admissible(cmpType, u)
      ensures this.cmpType == cmpType && this.u == u && Valid() && t == Leaf
    {
      this.cmpType, this.u := cmpType, u;
      count, root, t := 0, null, Leaf;
    }

    /** mem_get. The key asked for need not be one the pool may store. */
    method Get(str: seq<Byte>, len: nat) returns (v: Elem?)
      requires Valid()
      ensures var x := Key(cmpType, str, len);
        && (v != null <==> Found(Scmp, x, t))
        && (v != null ==> v in Nodes(t) && v == Elems()[Rank(Scmp, x, t)] && Related(Scmp, x, v.key))
        && (x in u && Tidy(cmpType, u) ==> (v != null <==> RelatedTo(Nodes(t), x) != {}))
    {
      var temp := Key(cmpType, str, len);
      var cnt;
      v, cnt := Find(root, temp, Scmp, t);
      InorderFacts(t);
      if temp in u && Tidy(cmpType, u) {
        AntichainSearch(cmpType, u, temp, t);
      }
    }

    /** mem_delete takes out the element that the search meets, if any. */
    method Delete(str: seq<Byte>, len: nat)
      requires Valid() && count < UINT_RANGE
      modifies this, Nodes(t)
      ensures Valid()
      ensures var x := Key(cmpType, str, len);
        if old(Found(Scmp, x, t)) then
          var k := old(Rank(Scmp, x, t));
          && count == old(count) - 1 && Nodes(t) == old(Nodes(t)) - {old(Elems())[k]}
          && Elems() == old(Elems())[..k] + old(Elems())[k + 1..]
        else t == old(t) && count == old(count)
    {
      hide Good, Orderly, Found, Rank, Inorder, Scmp, Nodes;
      var temp := Key(cmpType, str, len);
      var e, cnt;
      root, e, cnt, t := E.Erase(root, Some(temp), Scmp, t);
      if e == null {
        return;
      }
      assert 0 < Count(old(t));
      count := count - 1;
      ErasedOrder(cmpType, u, Inorder(old(t)), Rank(Scmp, temp, old(t)));
      ErasedNodes(old(t), t, Rank(Scmp, temp, old(t)));
    }

    /** kavl_insert of an element that is not in the tree; `count` lags behind. */
    method Offer(e: Elem) returns (v: Elem)
      requires Valid() && e !in Nodes(t) && e.key in u && count + 1 < UINT_RANGE
      modifies this, Nodes(t), e
      ensures count == old(count) && Ready(if v == e then count + 1 else count)
      ensures v == e <==> !old(Found(Scmp, e.key, t))
      ensures v == e ==> Elems() == old(Put(Elems(), Rank(Scmp, e.key, t), e)) && Nodes(t) == old(Nodes(t)) + {e}
      ensures v != e ==> t == old(t) && Met(t, e.key, v)
      ensures Tidy(cmpType, u) ==> (v == e <==> old(RelatedTo(Nodes(t), e.key)) == {})
      ensures old(Count(t)) == 1 ==> root == old(root)
    {
      hide Good, Orderly, Found, Rank, Inorder, Scmp, Nodes;
      if Tidy(cmpType, u) {
        OrderlySearch(cmpType, u, e.key, t);
      }
      InorderFacts(t);
      var cnt;
      root, v, cnt, t := Insert(root, e, Scmp, t);
      if v == e {
        InsertedOrder(cmpType, u, e, old(t));
        InsertedNodes(old(t), t, Rank(Scmp, e.key, old(t)), e);
      }
    }

    /** One round of mem_add: `v` goes, `e` is offered again. */
    method Displace(e: Elem, v: Elem) returns (v': Elem)
      requires Valid() && e !in Nodes(t) && e.key in u && count + 1 < UINT_RANGE
      requires Met(t, e.key, v) && e.key.len < v.key.len
      modifies this, Nodes(t), e
      ensures count == old(count) - 1 && Ready(if v' == e then count + 1 else count)
      ensures v' == e ==> Nodes(t) == old(Nodes(t)) - {v} + {e}
      ensures v' != e ==> Nodes(t) == old(Nodes(t)) - {v} && Met(t, e.key, v')
      ensures Tidy(cmpType, u) ==> (v' == e <==> RelatedTo(old(Nodes(t)) - {v}, e.key) == {})
    {
      hide Good, Orderly, Found, Rank, Inorder, Scmp, Nodes;
      MeetsAgain(cmpType, u, e.key, t, v);
      Delete(v.key.data, v.key.len);
      v' := Offer(e);
    }

    /** The insertions of mem_add: until `e` is in the tree or meets a key that is not longer. */
    method Place(e: Elem) returns (v: Elem)
      requires Valid() && e !in Nodes(t) && e.key in u && count + 1 < UINT_RANGE
      modifies this, Nodes(t), e
      ensures Ready(if v == e then count + 1 else count) && count <= old(count)
      ensures Placed(Tidy(cmpType, u), old(Nodes(t)), e, v, Nodes(t))
      ensures !old(Found(Scmp, e.key, t)) ==> v == e && Elems() == old(Put(Elems(), Rank(Scmp, e.key, t), e))
      ensures !old(Found(Scmp, e.key, t)) && old(Count(t)) == 1 ==> root == old(root)
    {
      hide Good, Orderly, Placed, Inorder, Scmp, Nodes, Found, Rank;
      ghost var gone: set<Elem>, s, tidy := {}, Nodes(t), Tidy(cmpType, u);
      v := Offer(e);
      ghost var t0, root0 := t, root;
      if v != e {
        MetNode(t, e.key, v);
      }
      while e != v && e.key.len < v.key.len
        invariant count <= old(count) && Ready(if v == e then count + 1 else count)
        invariant Pending(tidy, s, gone, e, v, Nodes(t)) && (v != e ==> Met(t, e.key, v))
        invariant !old(Found(Scmp, e.key, t)) ==> v == e && t == t0 && root == root0
        decreases if v == e then 0 else count + 1
      {
        ghost var v1, s1 := v, Nodes(t);
        v := Displace(e, v);
        if v != e {
          MetNode(t, e.key, v);
        }
        StillPending(tidy, s, gone, e, v1, s1, v, Nodes(t));
        gone := gone + {v1};
      }
      Settled(cmpType, u, old(t), gone, e, v, Nodes(t));
    }

    /** mem_add */
    method Add(str: seq<Byte>, len: nat) returns (v: Elem)
      requires Valid() && Key(cmpType, str, len) in u && count + 1 < UINT_RANGE
      modifies this, Nodes(t)
      ensures Valid() && count <= old(count) + 1 && fresh(Nodes(t) - old(Nodes(t)))
      ensures v in Nodes(t) && Joined(old(Nodes(t)), Key(cmpType, str, len), v, Nodes(t))
      ensures !old(Covered(Nodes(t), Key(cmpType, str, len))) ==> fresh(v)
      ensures fresh(v) ==> v.key == Key(cmpType, str, len)
      ensures Tidy(cmpType, u) ==>
        && Added(old(Nodes(t)), Key(cmpType, str, len), Nodes(t))
        && (fresh(v) <==> !old(Covered(Nodes(t), Key(cmpType, str, len))))
      ensures var x := Key(cmpType, str, len);
        !old(Found(Scmp, x, t)) ==>
          && fresh(v) && Elems() == Put(old(Elems()), old(Rank(Scmp, x, t)), v)
          && (old(Count(t)) == 1 ==> root == old(root))
    {
      hide Good, Orderly, Placed, Joined, Added, Covered, Inorder, Scmp, Nodes, Found, Rank, Tidy;
      ghost var g := Cells(Nodes(t));
      var e := new Elem(Key(cmpType, str, len));
      assert Cells(Nodes(t)) == g;
      v := Place(e);
      PlacedAdded(Tidy(cmpType, u), old(Nodes(t)), e, v, Nodes(t));
      if e == v {
        count := count + 1;
      }
    }
  }

  // -- what a pool stands for ---------------------------------------------------------------

  lemma CoversTransitive(a: Key, b: Key, c: Key)
    requires a.cmpType == b.cmpType && (a.cmpType == CMP_BITS || a.cmpType == CMP_HOST)
    requires Covers(Scmp, a, b) && Covers(Scmp, b, c)
    ensures Covers(Scmp, a, c)
  {
    if a.cmpType == CMP_BITS {
      BitCmpMeaning(a, b);
      BitCmpMeaning(b, c);
      BitCmpMeaning(a, c);
    } else {
      HostTransitive(a, b, c);
    }
  }

  /** mem_add is set union: afterwards the pool covers what it covered before and what `x` covers. */
  lemma AddIsUnion(cmpType: int, u: iset<Key>, s: set<Elem>, x: Key, v: Elem, s': set<Elem>, a: Key)
    requires Admissible(cmpType, u) && x in u && Joined(s, x, v, s') && forall e :: e in s ==> e.key in u
    ensures Covered(s', a) <==> Covered(s, a) || Covers(Scmp, x, a)
  {
    hide BitCmp, HostCmp;
    assert v in s';
    if Covers(Scmp, x, a) {
      CoversTransitive(v.key, x, a);
    }
    var gone :| gone <= s && Ousted(s, x, gone) && s' == s - gone + {v};
    if Covered(s, a) {
      var w :| w in s && Covers(Scmp, w.key, a);
      if w in gone {
        CoversTransitive(x, w.key, a);
        CoversTransitive(v.key, x, a);
      }
    }
    if Covered(s', a) {
      var w :| w in s' && Covers(Scmp, w.key, a);
    }
  }

  /** One of the first `n` keys of the list covers `a`. */
  ghost predicate Listed(cmpType: int, list: seq<(seq<Byte>, nat)>, n: nat, a: Key)
    requires n <= |list|
  {
    exists i :: 0 <= i < n && Covers(Scmp, Key(cmpType, list[i].0, list[i].1), a)
  }

  ghost predicate Holds(s: set<Elem>, cmpType: int, list: seq<(seq<Byte>, nat)>, n: nat)
    requires n <= |list|
  {
    forall a :: Covered(s, a) <==> Listed(cmpType, list, n, a)
  }

  lemma HoldsOneMore(cmpType: int, u: iset<Key>, s: set<Elem>, list: seq<(seq<Byte>, nat)>, n: nat, v: Elem, s': set<Elem>)
    requires Admissible(cmpType, u) && n < |list| && Holds(s, cmpType, list, n) && forall e :: e in s ==> e.key in u
    requires var x := Key(cmpType, list[n].0, list[n].1); x in u && Joined(s, x, v, s')
    ensures Holds(s', cmpType, list, n + 1)
  {
    var x := Key(cmpType, list[n].0, list[n].1);
    forall a ensures Covered(s', a) <==> Listed(cmpType, list, n + 1, a) {
      AddIsUnion(cmpType, u, s, x, v, s', a);
    }
  }

  lemma EmptyHolds(cmpType: int, list: seq<(seq<Byte>, nat)>)
    ensures Holds(Nodes(Leaf), cmpType, list, 0) && Nodes(Leaf) == {}
  {
  }

  /**
    A list of keys given to an empty pool one after the other (parse_hosts, parse_ipset): the
    pool covers exactly what some key of the list covers.
  */
  method Fill(pool: Pool, list: seq<(seq<Byte>, nat)>)
    requires pool.Valid() && pool.t == Leaf && |list| + 1 < UINT_RANGE
    requires forall i :: 0 <= i < |list| ==> Key(pool.cmpType, list[i].0, list[i].1) in pool.u
    modifies pool
    ensures pool.Valid() && Holds(Nodes(pool.t), pool.cmpType, list, |list|)
  {
    hide Holds, Joined, Added, Covered, Found, Rank, Good, Tidy, Scmp, Nodes, Antichain;
    EmptyHolds(pool.cmpType, list);
    var i := 0;
    while i < |list|
      invariant i <= |list| && pool.Valid() && pool.count <= i && fresh(Nodes(pool.t))
      invariant Holds(Nodes(pool.t), pool.cmpType, list, i)
    {
      ghost var s := Nodes(pool.t);
      PoolKeys(pool.t, pool.u);
      var v := pool.Add(list[i].0, list[i].1);
      HoldsOneMore(pool.cmpType, pool.u, s, list, i, v, Nodes(pool.t));
      i := i + 1;
    }
  }
}
