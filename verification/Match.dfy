/**
  The lookups of extend.c in a pool built from a list: check_host and check_ip.
*/
module Match {
  import opened Bytes
  import opened Keys
  import opened KeyOrder
  import opened BitOrder
  import opened HostOrder
  import opened Wrappers
  import opened KavlTree
  import opened KeySearch
  import opened HostSearch
  import opened Mpool

  // -- check_host ---------------------------------------------------------------------------

  /** check_host, with the host that parse_tls or parse_http found in the request, if any. */
  method CheckHost(hosts: Pool, host: Option<seq<Byte>>) returns (r: bool)
    requires hosts.Valid() && hosts.cmpType == CMP_HOST
    ensures r <==> host.Some? && |host.value| > 0 && Accepts(HostQuery(host.value), hosts.t)
  {
    if host.None? || |host.value| == 0 {
      return false;
    }
    var v := hosts.Get(host.value, |host.value|);
    AcceptsFound(HostQuery(host.value), hosts.t);
    return v != null && v.key.len <= |host.value|;
  }

  function HostQuery(name: seq<Byte>): Key {
    Key(CMP_HOST, name, |name|)
  }

  /** The search for `x` meets a related key that is not longer. */
  ghost predicate Accepts(x: Key, t: Tree) {
    match t
    case Leaf => false
    case Node(l, e, r) =>
      var c := Scmp(x, e.key);
      if c < 0 then Accepts(x, l) else if c > 0 then Accepts(x, r) else e.key.len <= x.len
  }

  lemma {:induction false} AcceptsFound(x: Key, t: Tree)
    ensures Accepts(x, t) <==> Found(Scmp, x, t) && Inorder(t)[Rank(Scmp, x, t)].key.len <= x.len
  {
    hide Scmp;
    match t
    case Leaf =>
    case Node(l, e, r) =>
      AcceptsFound(x, l);
      AcceptsFound(x, r);
  }

  /** Any host names, in the lexicographic order that every pool of host names keeps. */
  ghost predicate HostTree(t: Tree) {
    (forall e :: e in Nodes(t) ==> HostKey(e.key)) && Ascending(LexCmp, Inorder(t))
  }

  /**
    The way of a search down to `v` is blocked: below no host that covers `v`, it passes on its
    left a host that extends `v` behind a dash or a dot.
  */
  ghost predicate Hidden(t: Tree, v: Elem) {
    match t
    case Leaf => false
    case Node(l, e, r) =>
      if v == e || Covers(Scmp, e.key, v.key) then false
      else if v in Nodes(l) then DashPair(v.key, e.key) || Covers(Scmp, v.key, e.key) || Hidden(l, v)
      else Hidden(r, v)
  }

  /** A subdomain of `v` goes to the left of `w` with `v`, unless `w` extends `v`. */
  lemma LeftAlike(v: Key, w: Key, c: Key)
    requires Covers(HostCmp, v, c) && LexCmp(v, w) < 0 && !DashPair(v, w) && !Covers(HostCmp, v, w)
    ensures HostCmp(c, w) < 0
  {
  }

  /** It goes to the right of `w` with `v`, unless `w` covers both. */
  lemma RightAlike(v: Key, w: Key, c: Key)
    requires Covers(HostCmp, v, c) && LexCmp(w, v) < 0 && !Covers(HostCmp, w, v)
    ensures HostCmp(c, w) > 0
  {
  }

  lemma HostTreeSplit(l: Tree, e: Elem, r: Tree)
    requires HostTree(Node(l, e, r))
    ensures HostTree(l) && HostTree(r) && HostKey(e.key)
    ensures forall v :: v in Nodes(l) ==> LexCmp(v.key, e.key) < 0
    ensures forall v :: v in Nodes(r) ==> LexCmp(e.key, v.key) < 0
    ensures forall v, w :: v in Nodes(l) && w in Nodes(r) ==> LexCmp(v.key, w.key) < 0
  {
    hide LexCmp;
    assert HostKey(e.key) by {
      assert e in Nodes(Node(l, e, r));
    }
    AscendingSplit(LexCmp, Inorder(l), e, Inorder(r));
    forall v | v in Nodes(l) ensures LexCmp(v.key, e.key) < 0 {
      var i := PlaceOf(l, v);
    }
    forall v | v in Nodes(r) ensures LexCmp(e.key, v.key) < 0 {
      var i := PlaceOf(r, v);
    }
    forall v, w | v in Nodes(l) && w in Nodes(r) ensures LexCmp(v.key, w.key) < 0 {
      var i := PlaceOf(l, v);
      var j := PlaceOf(r, w);
    }
  }

  lemma PlaceOf(t: Tree, v: Elem) returns (i: nat)
    requires v in Nodes(t)
    ensures i < |Inorder(t)| && Inorder(t)[i] == v
  {
    NodesElements(t);
    i :| i < |Inorder(t)| && Inorder(t)[i] == v;
  }

  /** If nothing hides `v`, the search for any subdomain of it finds `v` or a host that covers it. */
  lemma {:induction false} FindsParent(t: Tree, v: Elem, c: Key)
    requires HostTree(t) && v in Nodes(t) && !Hidden(t, v) && HostKey(c) && Covers(HostCmp, v.key, c)
    ensures Accepts(c, t)
  {
    hide HostCmp, LexCmp;
    match t
    case Node(l, e, r) =>
      HostTreeSplit(l, e, r);
      if v == e || Covers(HostCmp, e.key, v.key) {
        if v != e {
          HostTransitive(e.key, v.key, c);
        }
        HostSign(e.key, c);
      } else if v in Nodes(l) {
        LeftAlike(v.key, e.key, c);
        FindsParent(l, v, c);
      } else {
        RightAlike(v.key, e.key, c);
        FindsParent(r, v, c);
      }
  }

  /** What is accepted is covered. */
  lemma {:induction false} AcceptsCovered(t: Tree, c: Key)
    requires HostTree(t) && HostKey(c) && Accepts(c, t)
    ensures exists v :: v in Nodes(t) && Covers(Scmp, v.key, c)
  {
    hide HostCmp, LexCmp;
    match t
    case Node(l, e, r) =>
      HostTreeSplit(l, e, r);
      HostSign(e.key, c);
      if Scmp(c, e.key) < 0 {
        AcceptsCovered(l, c);
      } else if Scmp(c, e.key) > 0 {
        AcceptsCovered(r, c);
      } else {
        assert e in Nodes(t);
      }
  }

  /** The subdomain of `v` under a label of `k` bytes that sort above all others. */
  function Far(v: Key, k: nat): Key {
    HostQuery(seq(k, i => 127) + [DOT] + v.data)
  }

  lemma FarBytes(v: Key, k: nat)
    requires HostKey(v)
    ensures var c := Far(v, k); HostKey(c) && c.len == v.len + 1 + k && SameEnd(v, c, v.len)
    ensures Far(v, k).FromEnd(v.len) == DOT
    ensures forall i :: v.len < i < v.len + 1 + k ==> Far(v, k).FromEnd(i) == 127
  {
    var c := Far(v, k);
    assert c.data[|c.data| - |v.data|..] == v.data;
    SameEndMeaning(v, c);
  }

  lemma FarCovered(v: Key, k: nat)
    requires HostKey(v)
    ensures HostKey(Far(v, k)) && Covers(HostCmp, v, Far(v, k))
  {
    FarBytes(v, k);
  }

  /** It goes to the right of every shorter name that extends `v` behind a dash or a dot. */
  lemma FarPasses(v: Key, w: Key, k: nat)
    requires HostKey(v) && HostKey(w) && w.len < k && LexCmp(v, w) < 0 && (DashPair(v, w) || Covers(HostCmp, v, w))
    ensures HostCmp(Far(v, k), w) > 0
  {
    FarBytes(v, k);
  }

  /** And what covers it does not come behind `v`. */
  lemma FarCoverer(v: Key, w: Key, k: nat)
    requires HostKey(v) && HostKey(w) && w.len < k && Covers(HostCmp, w, Far(v, k))
    ensures LexCmp(v, w) >= 0
  {
    FarBytes(v, k);
  }

  /** The search for it misses a hidden `v`. */
  lemma {:induction false} Misses(t: Tree, v: Elem, k: nat)
    requires HostTree(t) && v in Nodes(t) && Hidden(t, v) && forall e :: e in Nodes(t) ==> e.key.len < k
    ensures !Accepts(Far(v.key, k), t)
  {
    hide HostCmp, LexCmp, Far;
    match t
    case Node(l, e, r) =>
      HostTreeSplit(l, e, r);
      FarCovered(v.key, k);
      if v in Nodes(l) {
        if DashPair(v.key, e.key) || Covers(HostCmp, v.key, e.key) {
          FarPasses(v.key, e.key, k);
          if Accepts(Far(v.key, k), r) {
            AcceptsCovered(r, Far(v.key, k));
            var w :| w in Nodes(r) && Covers(Scmp, w.key, Far(v.key, k));
            FarCoverer(v.key, w.key, k);
          }
        } else {
          LeftAlike(v.key, e.key, Far(v.key, k));
          Misses(l, v, k);
        }
      } else {
        RightAlike(v.key, e.key, Far(v.key, k));
        Misses(r, v, k);
      }
  }

  lemma {:induction false} Longer(t: Tree) returns (k: nat)
    ensures forall e :: e in Nodes(t) ==> e.key.len < k
  {
    match t
    case Leaf => k := 0;
    case Node(l, e, r) =>
      var i := Longer(l);
      var j := Longer(r);
      k := i + j + e.key.len + 1;
  }

  /** All subdomains of a stored host are recognised if and only if it is not hidden. */
  lemma MissesSubdomain(t: Tree, v: Elem)
    requires HostTree(t) && v in Nodes(t)
    ensures (exists c :: HostKey(c) && DomainOf(v.key.data, c.data) && !Accepts(c, t)) <==> Hidden(t, v)
  {
    hide HostCmp;
    if Hidden(t, v) {
      var k := Longer(t);
      Misses(t, v, k);
      FarCovered(v.key, k);
      FarBytes(v.key, k);
      HostCmpMeaning(v.key, Far(v.key, k));
    }
    if c :| HostKey(c) && DomainOf(v.key.data, c.data) && !Accepts(c, t) {
      HostCmpMeaning(v.key, c);
      if !Hidden(t, v) {
        FindsParent(t, v, c);
      }
    }
  }

  /**
    check_host recognises the stored hosts and their subdomains, and nothing else, if and only if
    no stored host is hidden.
  */
  lemma HostExact(t: Tree)
    requires HostTree(t)
    ensures (forall c :: HostKey(c) ==> (Accepts(c, t) <==> Covered(Nodes(t), c))) <==>
      forall v :: v in Nodes(t) ==> !Hidden(t, v)
  {
    hide HostCmp, LexCmp, HostTree, Hidden, Accepts;
    if v :| v in Nodes(t) && Hidden(t, v) {
      var k := Longer(t);
      Misses(t, v, k);
      HostKeyOf(t, v);
      FarCovered(v.key, k);
      assert Covers(Scmp, v.key, Far(v.key, k));
    } else {
      forall c | HostKey(c) ensures Accepts(c, t) <==> Covered(Nodes(t), c) {
        if Accepts(c, t) {
          AcceptsCovered(t, c);
        }
        if v :| v in Nodes(t) && Covers(Scmp, v.key, c) {
          HostKeyOf(t, v);
          FindsParent(t, v, c);
        }
      }
    }
  }

  lemma HostKeyOf(t: Tree, v: Elem)
    requires HostTree(t) && v in Nodes(t)
    ensures HostKey(v.key)
  {
  }

  const B := HostQuery(['b' as int])
  const AB := HostQuery(['a' as int, '-' as int, 'b' as int])
  const ZB := HostQuery(['z' as int, DOT, 'b' as int])
  const MB := HostQuery(['m' as int, DOT, 'b' as int])

  /** How these compare. */
  lemma Unrelated()
    ensures Scmp(B, AB) < 0 && LexCmp(B, AB) < 0 && DashPair(B, AB)
    ensures Scmp(ZB, AB) > 0 && Scmp(MB, AB) > 0 && LexCmp(AB, MB) < 0 && LexCmp(B, MB) < 0
  {
    assert SameEnd(B, AB, 1);
  }

  /** Such a tree: "a-b" above "b". The subdomain "z.b" of "b" is not recognised. */
  lemma DashCounterexample(b: Elem, ab: Elem)
    requires b.key == B && ab.key == AB
    ensures var t := Node(Node(Leaf, b, Leaf), ab, Leaf);
      HostTree(t) && Hidden(t, b) && DomainOf(b.key.data, ZB.data) && !Accepts(ZB, t)
  {
    var t := Node(Node(Leaf, b, Leaf), ab, Leaf);
    Unrelated();
    assert Inorder(t) == [b, ab];
    HostSign(AB, B);
    assert EndsWith(ZB.data, B.data);
  }

  /** With "b" above "a-b" it is recognised. */
  lemma OtherOrder(b: Elem, ab: Elem)
    requires b.key == B && ab.key == AB
    ensures Accepts(ZB, Node(Leaf, b, Node(Leaf, ab, Leaf)))
  {
    assert EndsWith(ZB.data, B.data);
    HostCmpMeaning(ZB, B);
  }

  /** What mem_add builds when it is given "a-b" and then "b": the first of these trees. */
  method BuildDashed() returns (pool: Pool, ab: Elem, b: Elem)
    ensures fresh(pool) && fresh(Nodes(pool.t)) && pool.Valid() && pool.count <= 2
    ensures pool.cmpType == CMP_HOST && pool.u == iset{AB, B, MB}
    ensures ab.key == AB && b.key == B && pool.t == Node(Node(Leaf, b, Leaf), ab, Leaf) && !Accepts(ZB, pool.t)
  {
    hide Accepts, Found, Rank, Joined, Added, Covered, Orderly, DashPair, Hidden, Good, HostCmp;
    pool := new Pool(CMP_HOST, iset{AB, B, MB});
    SearchesDashed(pool.t);
    ab := pool.Add(AB.data, AB.len);
    assert Put([], 0, ab) == [ab];
    Single(pool.t, ab);
    SearchesDashed(pool.t);
    ghost var root := pool.root;
    ValidRoot(root, pool.t);
    b := pool.Add(B.data, B.len);
    assert Put([ab], 0, b) == [b, ab];
    ValidRoot(pool.root, pool.t);
    Above(pool.t, b, ab);
    DashCounterexample(b, ab);
  }

  lemma ValidRoot(root: Elem?, t: Tree)
    requires KavlTree.Valid(root, t) && Inorder(t) != []
    ensures t.Node? && root == t.e
  {
  }

  /** Given "m.b" in addition, the pool keeps that beside "b", which covers it. */
  method KeepsRelated() returns (pool: Pool, b: Elem, mb: Elem)
    ensures pool.Valid() && b in Nodes(pool.t) && mb in Nodes(pool.t) && b.key == B && mb.key == MB
    ensures Covers(Scmp, b.key, mb.key)
  {
    hide Accepts, Found, Rank, Joined, Added, Covered, Orderly, DashPair, Hidden, Good, HostCmp, Nodes;
    var ab;
    pool, ab, b := BuildDashed();
    SearchesRelated(ab, b);
    mb := pool.Add(MB.data, MB.len);
    assert mb in pool.Elems() && b in pool.Elems();
    NodesElements(pool.t);
  }

  lemma SearchesRelated(ab: Elem, b: Elem)
    requires ab.key == AB && b.key == B
    ensures var t := Node(Node(Leaf, b, Leaf), ab, Leaf);
      Inorder(t) == [b, ab] && !Found(Scmp, MB, t) && Rank(Scmp, MB, t) == 2
    ensures Covers(Scmp, B, MB)
  {
    Unrelated();
    assert EndsWith(MB.data, B.data);
    HostCmpMeaning(MB, B);
    HostSign(MB, B);
  }

  lemma SearchesDashed(t: Tree)
    requires t == Leaf || (t.Node? && t.e.key == AB && t == Node(Leaf, t.e, Leaf))
    ensures t == Leaf ==> !Found(Scmp, AB, t) && Rank(Scmp, AB, t) == 0 && Inorder(t) == [] && Count(t) == 0
    ensures t.Node? ==> !Found(Scmp, B, t) && Rank(Scmp, B, t) == 0 && Inorder(t) == [t.e] && Count(t) == 1
  {
    Unrelated();
  }

  lemma Single(t: Tree, e: Elem)
    requires Inorder(t) == [e]
    ensures t == Node(Leaf, e, Leaf)
  {
    assert |Inorder(t.l)| + 1 + |Inorder(t.r)| == 1 && Inorder(t)[|Inorder(t.l)|] == t.e;
    Empty(t.l);
    Empty(t.r);
  }

  lemma Empty(t: Tree)
    ensures |Inorder(t)| == 0 <==> t == Leaf
  {
  }

  lemma Above(t: Tree, b: Elem, ab: Elem)
    requires t.Node? && t.e == ab && Inorder(t) == [b, ab] && b != ab
    ensures t == Node(Node(Leaf, b, Leaf), ab, Leaf)
  {
    assert Inorder(t)[|Inorder(t.l)|] == ab;
    assert |Inorder(t.l)| == 1 && Inorder(t.l)[0] == Inorder(t)[0];
    Single(t.l, b);
    Empty(t.r);
  }

  /** In a pool whose possible keys have no dash pair nothing is hidden. */
  lemma {:induction false} NothingHidden(u: iset<Key>, t: Tree, v: Elem)
    requires Antichain(CMP_HOST, u, Inorder(t)) && v in Nodes(t)
    ensures !Hidden(t, v)
  {
    hide HostCmp, DashPair;
    match t
    case Node(l, e, r) =>
      AntichainSplit(u, l, e, r);
      NodesElements(t);
      if v != e {
        assert e in Inorder(t) && v in Inorder(t);
        Antichains(CMP_HOST, u, Inorder(t), v, e);
        Antichains(CMP_HOST, u, Inorder(t), e, v);
        if v in Nodes(l) {
          NothingHidden(u, l, v);
        } else {
          NothingHidden(u, r, v);
        }
      }
  }

  lemma AntichainSplit(u: iset<Key>, l: Tree, e: Elem, r: Tree)
    requires Antichain(CMP_HOST, u, Inorder(Node(l, e, r)))
    ensures Antichain(CMP_HOST, u, Inorder(l)) && Antichain(CMP_HOST, u, Inorder(r))
  {
    hide Scmp;
    var s, a, b := Inorder(Node(l, e, r)), Inorder(l), Inorder(r);
    AscendingSplit(Scmp, a, e, b);
    assert forall i :: 0 <= i < |a| ==> s[i] == a[i];
    assert forall i :: 0 <= i < |b| ==> s[|a| + 1 + i] == b[i];
  }

  /** No host of the list dash-extends another one. */
  ghost predicate NoDashes(list: seq<seq<Byte>>) {
    forall i, j :: 0 <= i < |list| && 0 <= j < |list| ==> !DashExtends(list[i], list[j])
  }

  function HostEntries(list: seq<seq<Byte>>): seq<(seq<Byte>, nat)> {
    seq(|list|, i requires 0 <= i < |list| => (list[i], |list[i]|))
  }

  /** The host is listed or is a subdomain of a listed one. */
  ghost predicate Meant(list: seq<seq<Byte>>, host: seq<Byte>) {
    exists i :: 0 <= i < |list| && DomainOf(list[i], host)
  }

  /**
    From the host list to the answer, for any list: nothing is recognised that is not listed or a
    subdomain of a listed host; all that is meant is recognised if nothing is hidden in the tree
    `t` of the pool, and so whenever the list has no dash pair.
  */
  method HostInList(list: seq<seq<Byte>>, host: Option<seq<Byte>>) returns (r: bool, ghost t: Tree)
    requires |list| + 1 < 0x1_0000_0000
    ensures HostTree(t) && Holds(Nodes(t), CMP_HOST, HostEntries(list), |list|)
    ensures r <==> host.Some? && |host.value| > 0 && Accepts(HostQuery(host.value), t)
    ensures r ==> Meant(list, host.value)
    ensures (forall v :: v in Nodes(t) ==> !Hidden(t, v)) ==> (r <==> host.Some? && |host.value| > 0 && Meant(list, host.value))
    ensures NoDashes(list) ==> forall v :: v in Nodes(t) ==> !Hidden(t, v)
  {
    hide Accepts, Hidden, Holds, Orderly, HostTree;
    ghost var u := iset i | 0 <= i < |list| :: HostQuery(list[i]);
    var pool := new Pool(CMP_HOST, u);
    Fill(pool, HostEntries(list));
    r := CheckHost(pool, host);
    t := pool.t;
    PoolTree(u, t);
    if NoDashes(list) {
      ListTidy(list, u);
      NoneHidden(u, t);
    }
    if host.Some? && |host.value| > 0 {
      HostListed(t, list, HostQuery(host.value));
    }
  }

  lemma ListTidy(list: seq<seq<Byte>>, u: iset<Key>)
    requires NoDashes(list) && u == iset i | 0 <= i < |list| :: HostQuery(list[i])
    ensures Tidy(CMP_HOST, u)
  {
    forall h, g | h in u && g in u ensures !DashPair(h, g) {
      DashPairMeaning(h, g);
    }
  }

  lemma NoneHidden(u: iset<Key>, t: Tree)
    requires Orderly(CMP_HOST, u, Inorder(t)) && Tidy(CMP_HOST, u)
    ensures forall v :: v in Nodes(t) ==> !Hidden(t, v)
  {
    forall v | v in Nodes(t) ensures !Hidden(t, v) {
      NothingHidden(u, t, v);
    }
  }

  lemma HostListed(t: Tree, list: seq<seq<Byte>>, c: Key)
    requires HostTree(t) && HostKey(c) && Holds(Nodes(t), CMP_HOST, HostEntries(list), |list|)
    ensures Accepts(c, t) ==> Meant(list, c.data)
    ensures (forall v :: v in Nodes(t) ==> !Hidden(t, v)) ==> (Accepts(c, t) <==> Meant(list, c.data))
  {
    hide HostTree, Hidden, Accepts;
    HostExact(t);
    if Accepts(c, t) {
      AcceptsCovered(t, c);
    }
    assert Covered(Nodes(t), c) <==> Listed(CMP_HOST, HostEntries(list), |list|, c);
    ListedDomains(list, c);
  }

  lemma PoolTree(u: iset<Key>, t: Tree)
    requires Orderly(CMP_HOST, u, Inorder(t)) && forall h :: h in u ==> HostKey(h)
    ensures HostTree(t)
  {
    PoolKeys(t, u);
  }

  lemma ListedDomains(list: seq<seq<Byte>>, c: Key)
    requires HostKey(c)
    ensures Listed(CMP_HOST, HostEntries(list), |list|, c) <==> Meant(list, c.data)
  {
    var entries := HostEntries(list);
    if Listed(CMP_HOST, entries, |list|, c) {
      var i :| 0 <= i < |list| && Covers(Scmp, Key(CMP_HOST, entries[i].0, entries[i].1), c);
      EntryCovers(list[i], c);
    }
    if i :| 0 <= i < |list| && DomainOf(list[i], c.data) {
      EntryCovers(list[i], c);
      assert Covers(Scmp, Key(CMP_HOST, entries[i].0, entries[i].1), c);
    }
  }

  lemma EntryCovers(host: seq<Byte>, c: Key)
    requires HostKey(c)
    ensures Covers(Scmp, HostQuery(host), c) <==> DomainOf(host, c.data)
  {
    HostCmpMeaning(HostQuery(host), c);
  }

  // -- check_ip -----------------------------------------------------------------------------

  function AddrKey(addr: seq<Byte>): Key {
    Key(CMP_BITS, addr, |addr| * 8)
  }

  /** check_ip: `addr` holds the 4 or 16 bytes of the destination. */
  method CheckIp(ipset: Pool, addr: seq<Byte>) returns (r: bool)
    requires ipset.Valid() && ipset.cmpType == CMP_BITS
    ensures r <==> RelatedTo(Nodes(ipset.t), AddrKey(addr)) != {}
  {
    var v := ipset.Get(addr, |addr| * 8);
    r := v != null;
  }

  /** The address lies in the block of all addresses that start with the first `len` bits of `data`. */
  ghost predicate InBlock(block: (seq<Byte>, nat), addr: seq<Byte>) {
    block.1 <= |addr| * 8 && SameBits(Key(CMP_BITS, block.0, 0), Key(CMP_BITS, addr, 0), block.1)
  }

  /** The block is longer than the address and starts with it. */
  ghost predicate Extends(block: (seq<Byte>, nat), addr: seq<Byte>) {
    |addr| * 8 < block.1 && SameBits(Key(CMP_BITS, block.0, 0), Key(CMP_BITS, addr, 0), |addr| * 8)
  }

  lemma BlockRelated(block: (seq<Byte>, nat), addr: seq<Byte>)
    ensures Related(Scmp, Key(CMP_BITS, block.0, block.1), AddrKey(addr)) <==> InBlock(block, addr) || Extends(block, addr)
  {
    BitCmpMeaning(Key(CMP_BITS, block.0, block.1), AddrKey(addr));
    assert forall i: nat :: Bit(Key(CMP_BITS, block.0, block.1), i) == Bit(Key(CMP_BITS, block.0, 0), i);
    assert forall i: nat :: Bit(AddrKey(addr), i) == Bit(Key(CMP_BITS, addr, 0), i);
  }

  /** Two prefixes of the same bits are related. */
  lemma BothPrefix(a: Key, b: Key, c: Key)
    requires a.cmpType == b.cmpType == c.cmpType == CMP_BITS
    requires Covers(Scmp, a, c) && Covers(Scmp, b, c)
    ensures Related(Scmp, a, b) && Related(Scmp, b, a)
  {
    BitCmpMeaning(a, c);
    BitCmpMeaning(b, c);
    BitCmpMeaning(a, b);
    BitCmpMeaning(b, a);
  }

  lemma BitsSymmetric(a: Key, b: Key)
    ensures BitCmp(a, b) == 0 <==> BitCmp(b, a) == 0
    ensures BitCmp(a, a) == 0
  {
    BitCmpMeaning(a, b);
    BitCmpMeaning(b, a);
    BitCmpMeaning(a, a);
  }

  /** Related to the address, by either being shorter or longer: the other one then is related to it too. */
  lemma RelatedThrough(a: Key, x: Key, y: Key)
    requires a.cmpType == x.cmpType == y.cmpType == CMP_BITS
    requires Related(Scmp, a, x) && Covers(Scmp, y, x)
    ensures Related(Scmp, a, y)
  {
    BitsSymmetric(a, x);
    if a.len <= x.len {
      BothPrefix(a, y, x);
    } else {
      CoversTransitive(y, x, a);
      BitsSymmetric(y, a);
    }
  }

  /** A pool filled from a list is related to an address exactly when some key of the list is. */
  lemma FilledRelated(u: iset<Key>, t: Tree, list: seq<(seq<Byte>, nat)>, a: Key)
    requires Antichain(CMP_BITS, u, Inorder(t)) && Holds(Nodes(t), CMP_BITS, list, |list|) && a.cmpType == CMP_BITS
    ensures RelatedTo(Nodes(t), a) != {} <==>
      exists i :: 0 <= i < |list| && Related(Scmp, Key(CMP_BITS, list[i].0, list[i].1), a)
  {
    NodesElements(t);
    if e :| e in RelatedTo(Nodes(t), a) {
      BitsSymmetric(e.key, e.key);
      assert Covered(Nodes(t), e.key);
      assert Listed(CMP_BITS, list, |list|, e.key);
      var i :| 0 <= i < |list| && Covers(Scmp, Key(CMP_BITS, list[i].0, list[i].1), e.key);
      RelatedThrough(a, e.key, Key(CMP_BITS, list[i].0, list[i].1));
      BitsSymmetric(a, Key(CMP_BITS, list[i].0, list[i].1));
    }
    if i :| 0 <= i < |list| && Related(Scmp, Key(CMP_BITS, list[i].0, list[i].1), a) {
      var x := Key(CMP_BITS, list[i].0, list[i].1);
      BitsSymmetric(x, a);
      assert Listed(CMP_BITS, list, |list|, x);
      assert Covered(Nodes(t), x);
      var e :| e in Nodes(t) && Covers(Scmp, e.key, x);
      RelatedThrough(a, x, e.key);
      assert e in RelatedTo(Nodes(t), a);
    }
  }

  /**
    From the list of blocks to the answer: an address is recognised if and only if it lies in a
    listed block or a listed block extends it. The second cannot be when no block is longer than
    the address, that is, when all blocks are of its family.
  */
  method IpInList(list: seq<(seq<Byte>, nat)>, addr: seq<Byte>) returns (r: bool)
    requires |list| + 1 < 0x1_0000_0000
    ensures r <==> exists i :: 0 <= i < |list| && (InBlock(list[i], addr) || Extends(list[i], addr))
    ensures (forall i :: 0 <= i < |list| ==> list[i].1 <= |addr| * 8) ==>
      (r <==> exists i :: 0 <= i < |list| && InBlock(list[i], addr))
  {
    var pool := new Pool(CMP_BITS, BitKeys());
    Fill(pool, list);
    r := CheckIp(pool, addr);
    FilledRelated(pool.u, pool.t, list, AddrKey(addr));
    forall i | 0 <= i < |list|
      ensures Related(Scmp, Key(CMP_BITS, list[i].0, list[i].1), AddrKey(addr)) <==>
        InBlock(list[i], addr) || Extends(list[i], addr)
    {
      BlockRelated(list[i], addr);
    }
  }

  /** The IPv6 block 102:304:506::/48 makes check_ip answer yes for the IPv4 address 1.2.3.4. */
  lemma ForeignFamily()
    ensures var block, addr := ([1, 2, 3, 4, 5, 6], 48), [1, 2, 3, 4];
      Related(Scmp, Key(CMP_BITS, block.0, block.1), AddrKey(addr)) && !InBlock(block, addr)
  {
    var p, q := Key(CMP_BITS, [1, 2, 3, 4, 5, 6], 48), AddrKey([1, 2, 3, 4]);
    assert forall i :: 0 <= i < 4 ==> p.At(i) == q.At(i);
    var j := MemcmpMeaning(p, q, 0, 4);
  }
}
