/**
  host_cmp compares two host names from their ends and calls them equal when one is a parent
  domain of the other. It is the lexicographic order of the reversed names, but only as long as
  nothing sorts between a name and its subdomains: '-' is below '.', so "a-b" does sort between
  "b" and "x.b". The laws of KeyOrder hold for the sets of names without such a pair.
*/
module HostOrder {
  import opened Bytes
  import opened Keys
  import opened KeyOrder

  /** A key as the pools of host names store it. */
  predicate HostKey(k: Key) {
    k.cmpType == CMP_HOST && k.len == |k.data|
  }

  predicate EndsWith(g: seq<Byte>, h: seq<Byte>) {
    |h| <= |g| && g[|g| - |h|..] == h
  }

  /** `h` is the domain `g` or a parent domain of it. */
  predicate DomainOf(h: seq<Byte>, g: seq<Byte>) {
    h == g || (|h| < |g| && EndsWith(g, h) && g[|g| - |h| - 1] == DOT)
  }

  /** `g` is `h` with something in front that ends in a character sorting below the dot. */
  predicate DashExtends(g: seq<Byte>, h: seq<Byte>) {
    |h| < |g| && EndsWith(g, h) && Char(g[|g| - |h| - 1]) < DOT
  }

  /** The bytes that main.c lets into a host list: '-', '.', '/', digits and letters. */
  predicate HostByte(c: Byte) {
    '-' as int <= c <= '9' as int || 'a' as int <= c <= 'z' as int
  }

  /** Of those only '-' sorts below the dot. */
  lemma OnlyDash(g: seq<Byte>, h: seq<Byte>)
    requires forall i :: 0 <= i < |g| ==> HostByte(g[i])
    ensures DashExtends(g, h) <==> |h| < |g| && EndsWith(g, h) && g[|g| - |h| - 1] == '-' as int
  {
  }

  /** The last `n` bytes agree. */
  ghost predicate SameEnd(p: Key, q: Key, n: nat) {
    forall i: nat :: i < n ==> p.FromEnd(i) == q.FromEnd(i)
  }

  ghost predicate DashPair(h: Key, g: Key) {
    h.len < g.len && SameEnd(h, g, h.len) && g.FromEnd(h.len) < DOT
  }

  lemma SameEndMeaning(h: Key, g: Key)
    requires HostKey(h) && HostKey(g) && h.len <= g.len
    ensures SameEnd(h, g, h.len) <==> EndsWith(g.data, h.data)
  {
    var d := g.len - h.len;
    if SameEnd(h, g, h.len) {
      forall i | 0 <= i < h.len ensures g.data[d + i] == h.data[i] {
        assert h.FromEnd(h.len - 1 - i) == g.FromEnd(h.len - 1 - i);
      }
    } else {
      var i: nat :| i < h.len && h.FromEnd(i) != g.FromEnd(i);
      assert g.data[d..][h.len - 1 - i] != h.data[h.len - 1 - i];
    }
  }

  lemma DashPairMeaning(h: Key, g: Key)
    requires HostKey(h) && HostKey(g)
    ensures DashPair(h, g) <==> DashExtends(g.data, h.data)
  {
    if h.len < g.len {
      SameEndMeaning(h, g);
    }
  }

  /** host_cmp answers 0 exactly for a domain and its parent domains. */
  lemma HostCmpMeaning(p: Key, q: Key)
    requires HostKey(p) && HostKey(q)
    ensures HostCmp(p, q) == 0 <==> DomainOf(p.data, q.data) || DomainOf(q.data, p.data)
  {
    if p.len <= q.len {
      SameEndMeaning(p, q);
    }
    if q.len <= p.len {
      SameEndMeaning(q, p);
    }
    if HostCmp(p, q) == 0 && p.len == q.len {
      assert SameEnd(p, q, p.len);
    }
  }

  lemma HostSign(p: Key, q: Key)
    ensures Sgn(HostCmp(p, q)) == -Sgn(HostCmp(q, p)) && HostCmp(p, p) == 0
  {
  }

  /** Keys that are not related keep their order towards a third one. */
  lemma HostMonotone(a: Key, b: Key, c: Key)
    requires HostCmp(a, b) < 0 && !DashPair(a, b) && !DashPair(c, a)
    ensures Sgn(HostCmp(c, b)) <= Sgn(HostCmp(c, a))
  {
  }

  lemma HostTransitive(a: Key, b: Key, c: Key)
    requires Covers(HostCmp, a, b) && Covers(HostCmp, b, c)
    ensures Covers(HostCmp, a, c)
  {
  }

  // -- the order behind it -------------------------------------------------------------------

  /** The lexicographic order of the reversed names. Where host_cmp does not answer 0 it is this order. */
  function LexCmp(p: Key, q: Key): int {
    var n := Min(p.len, q.len);
    var j := Mismatch(p, q, 0, n);
    if j < n then (if p.FromEnd(j) < q.FromEnd(j) then -1 else 1) else p.len - q.len
  }

  lemma Refines(p: Key, q: Key)
    ensures HostCmp(p, q) != 0 ==> Sgn(HostCmp(p, q)) == Sgn(LexCmp(p, q))
  {
  }

  lemma LexMonotone(a: Key, b: Key, c: Key)
    requires LexCmp(a, b) < 0
    ensures Sgn(LexCmp(c, b)) <= Sgn(LexCmp(c, a))
  {
  }

  lemma LexTransitive(a: Key, b: Key, c: Key)
    requires Covers(LexCmp, a, b) && Covers(LexCmp, b, c)
    ensures Covers(LexCmp, a, c)
  {
  }

  lemma LexSign(a: Key, b: Key)
    ensures Sgn(LexCmp(a, b)) == -Sgn(LexCmp(b, a)) && LexCmp(a, a) == 0
  {
  }

  /** Being a total order it obeys the laws on every set of names. */
  lemma LexLawful(u: iset<Key>)
    ensures Lawful(LexCmp, u)
  {
    hide LexCmp;
    forall a, b ensures Sgn(LexCmp(a, b)) == -Sgn(LexCmp(b, a)) && LexCmp(a, a) == 0 {
      LexSign(a, b);
    }
    forall a, b, c | LexCmp(a, b) < 0 ensures Sgn(LexCmp(c, b)) <= Sgn(LexCmp(c, a)) {
      LexMonotone(a, b, c);
    }
    forall a, b, c | Covers(LexCmp, a, b) && Covers(LexCmp, b, c) ensures Covers(LexCmp, a, c) {
      LexTransitive(a, b, c);
    }
  }

  /** Hosts that both cover `c` are related. */
  lemma BothCover(v: Key, w: Key, c: Key)
    requires Covers(HostCmp, v, c) && Covers(HostCmp, w, c)
    ensures HostCmp(v, w) == 0
  {
  }

  ghost predicate HostSet(u: iset<Key>) {
    && (forall k :: k in u ==> k.cmpType == CMP_HOST)
    && (forall h, g :: h in u && g in u ==> !DashPair(h, g))
  }

  /** host_cmp obeys the laws on every set of names without a dash pair. */
  lemma HostsLawful(u: iset<Key>)
    requires HostSet(u)
    ensures Lawful(Scmp, u)
  {
    forall a, b | a in u && b in u
      ensures Sgn(Scmp(a, b)) == -Sgn(Scmp(b, a)) && Scmp(a, a) == 0
    {
      HostSign(a, b);
    }
    forall a, b, c | a in u && b in u && c in u && Scmp(a, b) < 0
      ensures Sgn(Scmp(c, b)) <= Sgn(Scmp(c, a))
    {
      HostMonotone(a, b, c);
    }
    forall a, b, c | a in u && b in u && c in u && Covers(Scmp, a, b) && Covers(Scmp, b, c)
      ensures Covers(Scmp, a, c)
    {
      HostTransitive(a, b, c);
    }
  }
}
