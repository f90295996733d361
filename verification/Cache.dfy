/**
  The address cache of extend.c: a pool of bit strings, one per destination or, with merging
  of IPv4 neighbours, one per common prefix.
*/
module Cache {
  import opened Bytes
  import opened Keys
  import opened KeyOrder
  import opened BitOrder
  import opened KavlTree
  import opened KavlHeight
  import opened KeySearch
  import opened Mpool

  const AF_INET: Byte := 2
  const AF_INET6: Byte := 10

  /** A `union sockaddr_u`; port and address are in network order. */
  datatype Addr = V4(port: seq<Byte>, ip: seq<Byte>) | V6(port: seq<Byte>, ip: seq<Byte>) {
    predicate Valid() {
      |port| == 2 && |ip| == if V4? then 4 else 16
    }
  }

  /** serialize_addr: `struct cache_key`, packed and cut to the size of the address. */
  function Serialize(dst: Addr): (r: seq<Byte>)
    requires dst.Valid()
    ensures |r| == if dst.V4? then 8 else 20
  {
    [if dst.V4? then AF_INET else AF_INET6, 0] + dst.port + dst.ip
  }

  function Bits(data: seq<Byte>, len: nat): Key {
    Key(CMP_BITS, data, len)
  }

  /** The key of a single address. */
  function FullKey(dst: Addr): Key
    requires dst.Valid()
  {
    Bits(Serialize(dst), |Serialize(dst)| * 8)
  }

  // -- eq_bitlen ----------------------------------------------------------------------------

  lemma ShiftTop(u: Byte, v: Byte, k: nat)
    requires k < 8
    ensures ShiftRight(Char(u), k) == ShiftRight(Char(v), k) <==> Top(u, 8 - k) == Top(v, 8 - k)
  {
    if k > 0 {
      ShiftValue(u, k);
      ShiftValue(v, k);
      SignedShift(u, k);
      SignedShift(v, k);
    }
  }

  /** The bit after the last common one. */
  lemma NextBit(u: Byte, v: Byte, d: nat)
    requires d < 8 && Top(u, d) == Top(v, d) && Top(u, d + 1) != Top(v, d + 1)
    ensures BitOfByte(u, d) != BitOfByte(v, d)
    ensures forall e: nat :: e < d ==> BitOfByte(u, e) == BitOfByte(v, e)
  {
    TopStep(u, d + 1);
    TopStep(v, d + 1);
    forall e: nat | e < d ensures BitOfByte(u, e) == BitOfByte(v, e) {
      SameTop(u, v, d, e);
    }
  }

  lemma FirstDifference(a: seq<Byte>, b: seq<Byte>, j: nat, d: nat)
    requires j < |a| && j < |b| && a[..j] == b[..j]
    requires d < 8 && Top(a[j], d) == Top(b[j], d) && Top(a[j], d + 1) != Top(b[j], d + 1)
    ensures SameBits(Bits(a, 0), Bits(b, 0), j * 8 + d) && Bit(Bits(a, 0), j * 8 + d) != Bit(Bits(b, 0), j * 8 + d)
  {
    NextBit(a[j], b[j], d);
    assert forall i :: 0 <= i < j ==> a[i] == a[..j][i] == b[..j][i] == b[i];
    forall e: nat | e < j * 8 + d ensures Bit(Bits(a, 0), e) == Bit(Bits(b, 0), e) {
      assert e / 8 < j || (e / 8 == j && e % 8 < d);
    }
  }

  /** Shifted by nothing, only equal bytes are equal. */
  lemma Unshifted(u: Byte, v: Byte)
    ensures ShiftRight(Char(u), 0) == ShiftRight(Char(v), 0) <==> u == v
  {
  }

  /**
    eq_bitlen: the number of bits that the two keys have in common, counted from the front; for
    identical bytes it is 8 more than there are bits.
  */
  method EqBitlen(a: seq<Byte>, b: seq<Byte>, n: nat) returns (r: nat)
    requires n <= |a| && n <= |b|
    ensures a[..n] == b[..n] ==> r == n * 8 + 8
    ensures a[..n] != b[..n] ==>
      && r < n * 8 && SameBits(Bits(a, 0), Bits(b, 0), r)
      && Bit(Bits(a, 0), r) != Bit(Bits(b, 0), r)
  {
    hide ShiftRight, Top, BitOfByte, SameBits, Bit, Char;
    var byte, bi := 0, 0;
    while byte < n && a[byte] == b[byte]
      invariant byte <= n && a[..byte] == b[..byte]
    {
      byte := byte + 1;
    }
    if byte != n {
      assert a[..n][byte] != b[..n][byte];
      Unshifted(a[byte], b[byte]);
      while bi < 8 && ShiftRight(Char(a[byte]), bi) != ShiftRight(Char(b[byte]), bi)
        invariant bi <= 8 && (bi > 0 ==> Top(a[byte], 9 - bi) != Top(b[byte], 9 - bi))
      {
        ShiftTop(a[byte], b[byte], bi);
        bi := bi + 1;
      }
      if bi < 8 {
        ShiftTop(a[byte], b[byte], bi);
      }
      TopStep(a[byte], 0);
      TopStep(b[byte], 0);
      FirstDifference(a, b, byte, 8 - bi);
    }
    r := byte * 8 + 8 - bi;
  }

  // -- the cache ----------------------------------------------------------------------------

  /**
    What the cache stores: IPv4 keys of at least 64 - pre bits (family, port and the first
    32 - pre bits of the address), IPv6 keys in full.
  */
  predicate CacheKey(k: Key, pre: nat) {
    && k.cmpType == CMP_BITS && |k.data| >= 2 && k.data[1] == 0
    && if k.data[0] == AF_INET then |k.data| == 8 && 64 - pre <= k.len <= 64
       else k.data[0] == AF_INET6 && |k.data| == 20 && k.len == 160
  }

  ghost predicate CacheValid(pool: Pool, pre: nat)
    reads pool, Nodes(pool.t)
  {
    && pool.Valid() && pool.cmpType == CMP_BITS && pool.u == BitKeys()
    && forall e :: e in Nodes(pool.t) ==> CacheKey(e.key, pre)
  }

  /** cache_get up to the test of the age. */
  method Lookup(pool: Pool, dst: Addr, ghost pre: nat) returns (v: Elem?)
    requires CacheValid(pool, pre) && dst.Valid() && pre <= 32
    ensures v != null <==> Covered(Nodes(pool.t), FullKey(dst))
    ensures v != null ==> v in Nodes(pool.t) && Covers(Scmp, v.key, FullKey(dst)) && Met(pool.t, FullKey(dst), v)
  {
    var key := Serialize(dst);
    v := pool.Get(key, |key| * 8);
    forall e | e in Nodes(pool.t) ensures Related(Scmp, FullKey(dst), e.key) <==> Covers(Scmp, e.key, FullKey(dst)) {
      CacheRelated(e.key, dst, |key| * 8, pre);
    }
  }

  /** Keys of different families are never related. */
  lemma CacheRelated(k: Key, dst: Addr, len: nat, pre: nat)
    requires CacheKey(k, pre) && dst.Valid() && pre <= 32 && 32 <= len <= |Serialize(dst)| * 8
    ensures var x := Bits(Serialize(dst), len);
      && (Related(Scmp, x, k) <==> Related(Scmp, k, x))
      && (Related(Scmp, x, k) ==> |k.data| == |Serialize(dst)| && k.len <= |Serialize(dst)| * 8)
  {
    var x := Bits(Serialize(dst), len);
    BitCmpMeaning(x, k);
    BitCmpMeaning(k, x);
    if Related(Scmp, x, k) && k.data[0] != x.data[0] {
      FirstByte(k, x);
    }
  }

  lemma FirstByte(p: Key, q: Key)
    requires |p.data| >= 1 && |q.data| >= 1 && p.data[0] != q.data[0]
    ensures !SameBits(p, q, 8)
  {
    OtherByte(p, q, 0);
  }

  /** Bytes that differ differ in a bit. */
  lemma OtherByte(p: Key, q: Key, j: nat)
    requires p.At(j) != q.At(j)
    ensures exists i: nat :: 8 * j <= i < 8 * j + 8 && Bit(p, i) != Bit(q, i)
  {
    var u, v := p.At(j), q.At(j);
    var b;
    if u < v {
      b := FirstBit(u, v, 8);
    } else {
      b := FirstBit(v, u, 8);
    }
    assert (8 * j + b) / 8 == j && (8 * j + b) % 8 == b;
    assert Bit(p, 8 * j + b) != Bit(q, 8 * j + b);
  }

  // -- what a key stands for ----------------------------------------------------------------

  /** Two bytes of family, two of port, then the address; the port is looked at in full. */
  predicate Shaped(k: Key) {
    && k.cmpType == CMP_BITS && 32 <= k.len <= |k.data| * 8 && |k.data| >= 4 && k.data[1] == 0
    && if |k.data| == 8 then k.data[0] == AF_INET else |k.data| == 20 && k.data[0] == AF_INET6
  }

  /** The key holds the family and the port of `dst`, and the address as far as it goes. */
  ghost predicate For(k: Key, dst: Addr)
    requires |k.data| >= 4 && k.len >= 32
  {
    && |k.data| == 4 + |dst.ip| && k.data[0] == (if dst.V4? then AF_INET else AF_INET6) && k.data[2..4] == dst.port
    && SameBits(Bits(k.data[4..], 0), Bits(dst.ip, 0), k.len - 32)
  }

  lemma Shifted(k: Key, i: nat)
    requires |k.data| >= 4
    ensures Bit(k, 32 + i) == Bit(Bits(k.data[4..], 0), i)
  {
    assert (32 + i) / 8 == 4 + i / 8 && (32 + i) % 8 == i % 8;
    assert i / 8 < |k.data| - 4 ==> k.data[4..][i / 8] == k.data[4 + i / 8];
  }

  /** Four equal bytes, then equal bits. */
  lemma SameFields(p: Key, q: Key, n: nat)
    requires |p.data| >= 4 && |q.data| >= 4 && n >= 32
    ensures SameBits(p, q, n) <==> p.data[..4] == q.data[..4] && SameBits(Bits(p.data[4..], 0), Bits(q.data[4..], 0), n - 32)
  {
    hide Bit;
    if SameBits(p, q, n) {
      forall j: nat | j < 4 ensures p.data[j] == q.data[j] {
        if p.data[j] != q.data[j] {
          OtherByte(p, q, j);
        }
      }
      forall i: nat | i < n - 32 ensures Bit(Bits(p.data[4..], 0), i) == Bit(Bits(q.data[4..], 0), i) {
        Shifted(p, i);
        Shifted(q, i);
      }
    }
    if p.data[..4] == q.data[..4] && SameBits(Bits(p.data[4..], 0), Bits(q.data[4..], 0), n - 32) {
      forall i: nat | i < n ensures Bit(p, i) == Bit(q, i) {
        if i < 32 {
          SameHead(p, q, i);
        } else {
          Shifted(p, i - 32);
          Shifted(q, i - 32);
        }
      }
    }
  }

  lemma SameHead(p: Key, q: Key, i: nat)
    requires |p.data| >= 4 && |q.data| >= 4 && i < 32 && p.data[..4] == q.data[..4]
    ensures Bit(p, i) == Bit(q, i)
  {
    assert p.data[..4][i / 8] == q.data[..4][i / 8];
  }

  /** The fields of struct cache_key. */
  lemma Fields(dst: Addr)
    requires dst.Valid()
    ensures var r := Serialize(dst);
      |r| == 4 + |dst.ip| && r[0] == (if dst.V4? then AF_INET else AF_INET6) && r[1] == 0 && r[2..4] == dst.port && r[4..] == dst.ip
  {
  }

  /** So a key covers an address exactly if it holds its family and port and the first bits of it. */
  lemma CoversFor(k: Key, dst: Addr)
    requires Shaped(k) && dst.Valid()
    ensures Covers(Scmp, k, FullKey(dst)) <==> For(k, dst)
  {
    hide SameBits, Serialize, BitCmp;
    var x := FullKey(dst);
    Fields(dst);
    BitCmpMeaning(k, x);
    SameFields(k, x, Min(k.len, x.len));
    Four(k.data, x.data);
  }

  lemma Four(a: seq<Byte>, b: seq<Byte>)
    requires |a| >= 4 && |b| >= 4
    ensures a[..4] == b[..4] <==> a[0] == b[0] && a[1] == b[1] && a[2..4] == b[2..4]
  {
    assert a[..4] == [a[0], a[1]] + a[2..4] && b[..4] == [b[0], b[1]] + b[2..4];
  }

  /** The first `len` bits of one key cover another address: same family, same port, same first bits of the address. */
  lemma PrefixFor(a: Addr, b: Addr, len: nat)
    requires a.Valid() && b.Valid() && 32 <= len <= 32 + |a.ip| * 8
    ensures Covers(Scmp, Bits(Serialize(a), len), FullKey(b)) <==>
      a.V4? == b.V4? && a.port == b.port && SameBits(Bits(a.ip, 0), Bits(b.ip, 0), len - 32)
  {
    hide SameBits, Serialize;
    Fields(a);
    CoversFor(Bits(Serialize(a), len), b);
  }

  /** In full it covers that address alone. */
  lemma FullKeyExact(a: Addr, b: Addr)
    requires a.Valid() && b.Valid()
    ensures Covers(Scmp, FullKey(a), FullKey(b)) <==> a == b
  {
    hide Serialize;
    Fields(a);
    PrefixFor(a, b, 32 + |a.ip| * 8);
    if |a.ip| == |b.ip| && SameBits(Bits(a.ip, 0), Bits(b.ip, 0), |a.ip| * 8) {
      AllBits(a.ip, b.ip);
    }
  }

  lemma AllBits(a: seq<Byte>, b: seq<Byte>)
    requires |a| == |b| && SameBits(Bits(a, 0), Bits(b, 0), |a| * 8)
    ensures a == b
  {
    forall j | 0 <= j < |a| ensures a[j] == b[j] {
      if a[j] != b[j] {
        OtherByte(Bits(a, 0), Bits(b, 0), j);
      }
    }
  }

  /** Two addresses that one stored key holds: same family and port, and all the bits that merging leaves. */
  lemma SameOrigin(k: Key, a: Addr, b: Addr, pre: nat)
    requires CacheKey(k, pre) && pre <= 32 && a.Valid() && b.Valid() && For(k, a) && For(k, b)
    ensures a.V4? == b.V4? && a.port == b.port
    ensures SameBits(Bits(a.ip, 0), Bits(b.ip, 0), if a.V4? then 32 - pre else 128)
    ensures a.V6? || pre == 0 ==> a == b
  {
    hide Bit;
    assert forall i: nat :: i < k.len - 32 ==> Bit(Bits(a.ip, 0), i) == Bit(Bits(k.data[4..], 0), i) == Bit(Bits(b.ip, 0), i);
    if a.V6? || pre == 0 {
      AllBits(a.ip, b.ip);
    }
  }

  /** A prefix of the address covers the address; so does every stored key that covers a longer string. */
  lemma PrefixCovers(v: Key, dst: Addr, len: nat, pre: nat)
    requires dst.Valid() && v.cmpType == CMP_BITS && v.len <= |Serialize(dst)| * 8
    requires Covers(Scmp, v, Bits(Serialize(dst), len))
    ensures Covers(Scmp, v, FullKey(dst))
  {
    BitCmpMeaning(v, Bits(Serialize(dst), len));
    BitCmpMeaning(v, FullKey(dst));
    assert forall i: nat :: i < v.len ==> Bit(Bits(Serialize(dst), len), i) == Bit(FullKey(dst), i);
  }

  /** What eq_bitlen answers for a stored neighbour: a common prefix, or 72 for the address itself. */
  lemma MergedLength(dst: Addr, val: Key, c: nat, pre: nat)
    requires dst.Valid() && dst.V4? && CacheKey(val, pre) && pre <= 32 && |val.data| == 8
    requires var key := Serialize(dst);
      && Related(Scmp, Bits(key, 64 - pre), val)
      && (key == val.data ==> c == 72)
      && (key != val.data ==> c < 64 && SameBits(Bits(key, 0), Bits(val.data, 0), c)
                              && Bit(Bits(key, 0), c) != Bit(Bits(val.data, 0), c))
    ensures c == 72 ==> Covers(Scmp, val, Bits(Serialize(dst), c))
    ensures c != 72 ==> 64 - pre <= c < 64
  {
    var key := Serialize(dst);
    BitCmpMeaning(Bits(key, 64 - pre), val);
    if c == 72 {
      BitCmpMeaning(val, Bits(key, 72));
      assert forall i: nat :: i < val.len ==> Bit(val, i) == Bit(Bits(key, 72), i);
    } else {
      forall i: nat | i < 64 - pre ensures Bit(Bits(key, 0), i) == Bit(Bits(val.data, 0), i) {
        assert Bit(Bits(key, 64 - pre), i) == Bit(val, i);
      }
    }
  }

  /** The pool after mem_add still is a cache. */
  lemma StaysCache(s: set<Elem>, x: Key, s': set<Elem>, pre: nat)
    requires (forall e :: e in s ==> CacheKey(e.key, pre)) && Added(s, x, s')
    requires CacheKey(x, pre) || Covered(s, x)
    ensures forall e :: e in s' ==> CacheKey(e.key, pre)
  {
  }

  ghost predicate Grows(s: set<Elem>, s': set<Elem>) {
    forall a :: Covered(s, a) ==> Covered(s', a)
  }

  lemma AddGrows(s: set<Elem>, x: Key, v: Elem, s': set<Elem>)
    requires x in BitKeys() && Joined(s, x, v, s') && forall e :: e in s ==> e.key in BitKeys()
    ensures Grows(s, s')
  {
    forall a | Covered(s, a) ensures Covered(s', a) {
      AddIsUnion(CMP_BITS, BitKeys(), s, x, v, s', a);
    }
  }

  /**
    How much of the address cache_add stores: with merging, the common prefix with the entry that
    the search for the first 64 - pre bits meets (8 more than all of it, if that is the address
    itself); otherwise all of it.
  */
  ghost predicate Merged(t: Tree, dst: Addr, pre: nat, len: nat)
    requires dst.Valid() && pre <= 32
  {
    var key := Serialize(dst);
    if dst.V4? && pre != 0 && Found(Scmp, Bits(key, 64 - pre), t) then
      var val := Inorder(t)[Rank(Scmp, Bits(key, 64 - pre), t)].key.data;
      if val == key then len == 72
      else SameBits(Bits(key, 0), Bits(val, 0), len) && Bit(Bits(key, 0), len) != Bit(Bits(val, 0), len)
    else len == |key| * 8
  }

  /** The key length that cache_add chooses. */
  method KeyLength(pool: Pool, dst: Addr, pre: nat) returns (len: nat)
    requires CacheValid(pool, pre) && dst.Valid() && pre <= 32
    ensures var x := Bits(Serialize(dst), len); CacheKey(x, pre) || Covered(Nodes(pool.t), x)
    ensures Merged(pool.t, dst, pre, len) == true
  {
    hide SameBits, Bit, Antichain, Good, Nodes, Covers, Inorder, Found, Rank;
    var key := Serialize(dst);
    var bytes := |key|;
    len := bytes * 8;
    if dst.V4? && pre != 0 {
      var val := pool.Get(key, len - pre);
      if val != null {
        CacheRelated(val.key, dst, len - pre, pre);
        len := EqBitlen(key, val.key.data, bytes);
        assert key[..bytes] == key && val.key.data[..bytes] == val.key.data;
        MergedLength(dst, val.key, len, pre);
      }
    }
  }

  /**
    cache_add, with `pre` for cache_pre (32 minus the option's value). The returned element
    covers the address, and nothing that was covered is lost.
  */
  method Add(pool: Pool, dst: Addr, pre: nat) returns (v: Elem, ghost len: nat)
    requires CacheValid(pool, pre) && dst.Valid() && pre <= 32 && pool.count + 1 < UINT_RANGE
    modifies pool, Nodes(pool.t)
    ensures CacheValid(pool, pre) && pool.count <= old(pool.count) + 1
    ensures fresh(Nodes(pool.t) - old(Nodes(pool.t)))
    ensures v in Nodes(pool.t) && Covers(Scmp, v.key, FullKey(dst)) && CacheKey(v.key, pre) && For(v.key, dst)
    ensures forall e :: e in Nodes(pool.t) - old(Nodes(pool.t)) ==> CacheKey(e.key, pre) && For(e.key, dst)
    ensures Grows(old(Nodes(pool.t)), Nodes(pool.t))
    ensures Merged(old(pool.t), dst, pre, len) == true
    ensures Added(old(Nodes(pool.t)), Bits(Serialize(dst), len), Nodes(pool.t))
  {
    ghost var g := Cells(Nodes(pool.t));
    var key := Serialize(dst);
    var cmpLen := KeyLength(pool, dst, pre);
    assert Cells(Nodes(pool.t)) == g;
    v := pool.Add(key, cmpLen);
    len := cmpLen;
    StaysCache(old(Nodes(pool.t)), Bits(key, len), Nodes(pool.t), pre);
    AddGrows(old(Nodes(pool.t)), Bits(key, len), v, Nodes(pool.t));
    BitsSymmetry(v.key, dst, len, pre);
    PrefixCovers(v.key, dst, len, pre);
    CoversFor(v.key, dst);
    NewFor(old(Nodes(pool.t)), dst, len, Nodes(pool.t), pre);
  }

  lemma NewFor(s: set<Elem>, dst: Addr, len: nat, s': set<Elem>, pre: nat)
    requires dst.Valid() && pre <= 32 && Added(s, Bits(Serialize(dst), len), s')
    requires forall e :: e in s' ==> CacheKey(e.key, pre)
    ensures forall e :: e in s' - s ==> CacheKey(e.key, pre) && For(e.key, dst)
  {
    hide RelatedTo, Covered, For, Serialize;
    forall e | e in s' - s ensures For(e.key, dst) {
      assert e.key == Bits(Serialize(dst), len);
      Fields(dst);
      PrefixFor(dst, dst, len);
      CacheShaped(e.key, pre);
      CoversFor(e.key, dst);
    }
  }

  lemma CacheShaped(k: Key, pre: nat)
    requires CacheKey(k, pre) && pre <= 32
    ensures Shaped(k) && |k.data| >= 4 && k.len >= 32
  {
  }

  lemma BitsSymmetry(k: Key, dst: Addr, len: nat, pre: nat)
    requires CacheKey(k, pre) && dst.Valid() && pre <= 32 && Covers(Scmp, k, Bits(Serialize(dst), len))
    ensures k.len <= |Serialize(dst)| * 8
  {
    var x := Bits(Serialize(dst), len);
    BitCmpMeaning(k, x);
    if k.data[0] != x.data[0] {
      FirstByte(k, x);
    }
  }

  // -- the age of an entry ------------------------------------------------------------------

  /** The `time` of an element and the `cache_ttl` of its group; 0 means that it never expires. */
  datatype Stamp = Stamp(time: int, ttl: int)

  /** What mem_delete is given in cache_get: as many bits as the address has bytes. */
  function ShortKey(dst: Addr): Key
    requires dst.Valid()
  {
    Bits(Serialize(dst), |Serialize(dst)|)
  }

  /** The key `a` has the same first bits: the family for IPv4, family and four bits of the port for IPv6. */
  ghost predicate Clashes(a: Key, dst: Addr)
    requires dst.Valid()
  {
    if dst.V4? then |a.data| > 0 && a.data[0] == AF_INET else SameBits(a, FullKey(dst), 20)
  }

  lemma ClashesRelated(a: Key, dst: Addr, pre: nat)
    requires CacheKey(a, pre) && dst.Valid() && pre <= 32
    ensures Related(Scmp, ShortKey(dst), a) <==> Clashes(a, dst)
  {
    var y, x := ShortKey(dst), FullKey(dst);
    BitCmpMeaning(y, a);
    assert forall i: nat :: Bit(y, i) == Bit(x, i);
    if dst.V4? {
      if a.data[0] != AF_INET {
        FirstByte(y, a);
      } else {
        assert forall i: nat :: i < 8 ==> Bit(y, i) == Bit(a, i);
      }
    }
  }

  /** A shorter prefix compares like the longer one, as long as it is not related. */
  lemma PrefixCompares(data: seq<Byte>, m: nat, n: nat, k: Key)
    requires m <= n && BitCmp(Bits(data, m), k) != 0
    ensures Sgn(BitCmp(Bits(data, m), k)) == Sgn(BitCmp(Bits(data, n), k))
  {
    var y, x := Bits(data, m), Bits(data, n);
    BitCmpMeaning(y, k);
    BitCmpMeaning(x, k);
    assert forall i: nat :: Bit(y, i) == Bit(x, i);
    if BitCmp(y, k) < 0 {
      var i: nat :| i < Min(m, k.len) && SameBits(y, k, i) && Bit(y, i) < Bit(k, i);
      assert SameBits(x, k, i) && Bit(x, i) < Bit(k, i);
    } else {
      var i: nat :| i < Min(m, k.len) && SameBits(k, y, i) && Bit(k, i) < Bit(y, i);
      assert SameBits(k, x, i) && Bit(k, i) < Bit(x, i);
    }
  }

  /** At most one stored key covers an address. */
  lemma OneCovers(t: Tree, v: Elem, w: Elem, x: Key)
    requires Antichain(CMP_BITS, BitKeys(), Inorder(t)) && v in Nodes(t) && w in Nodes(t)
    requires v.key.cmpType == w.key.cmpType == CMP_BITS && Covers(Scmp, v.key, x) && Covers(Scmp, w.key, x)
    ensures v == w
  {
    InorderFacts(t);
    BitCmpMeaning(v.key, x);
    BitCmpMeaning(w.key, x);
    BitCmpMeaning(v.key, w.key);
    assert forall i: nat :: i < Min(v.key.len, w.key.len) ==> Bit(v.key, i) == Bit(x, i) == Bit(w.key, i);
    if v != w {
      Antichains(CMP_BITS, BitKeys(), Inorder(t), v, w);
    }
  }

  lemma OnlyOne(t: Tree, v: Elem, dst: Addr, pre: nat)
    requires Antichain(CMP_BITS, BitKeys(), Inorder(t)) && v in Nodes(t) && dst.Valid()
    requires (forall e :: e in Nodes(t) ==> CacheKey(e.key, pre)) && Covers(Scmp, v.key, FullKey(dst))
    ensures forall w :: w in Nodes(t) && Covers(Scmp, w.key, FullKey(dst)) ==> w == v
  {
    forall w | w in Nodes(t) && Covers(Scmp, w.key, FullKey(dst)) ensures w == v {
      OneCovers(t, v, w, FullKey(dst));
    }
  }

  /** No entry above `v` in the tree has the same first bits as the address. */
  ghost predicate ClearAbove(t: Tree, v: Elem, dst: Addr)
    requires dst.Valid()
  {
    forall a :: a in Above(t, v) ==> !Clashes(a.key, dst)
  }

  /** What the mem_delete of cache_get meets: some element, and the expired one if and only if none above it clashes. */
  lemma DeletedIff(t: Tree, v: Elem, dst: Addr, pre: nat)
    requires Antichain(CMP_BITS, BitKeys(), Inorder(t)) && dst.Valid() && pre <= 32
    requires (forall e :: e in Nodes(t) ==> CacheKey(e.key, pre)) && v in Nodes(t)
    requires Covers(Scmp, v.key, FullKey(dst)) && Met(t, FullKey(dst), v)
    ensures Found(Scmp, ShortKey(dst), t) && Inorder(t)[Rank(Scmp, ShortKey(dst), t)] in Nodes(t)
    ensures (Met(t, ShortKey(dst), v) <==> ClearAbove(t, v, dst))
  {
    hide Inorder, Found, Rank, Above, BitCmp, Serialize, Clashes, Nodes, CacheKey;
    var x, y := FullKey(dst), ShortKey(dst);
    BitsLawful();
    AscendingParted(Scmp, BitKeys(), x, Inorder(t));
    forall e | e in Nodes(t) && Scmp(y, e.key) != 0 ensures Sgn(Scmp(y, e.key)) == Sgn(Scmp(x, e.key)) {
      PrefixCompares(Serialize(dst), |Serialize(dst)|, |Serialize(dst)| * 8, e.key);
    }
    ShortRelated(v.key, dst, pre);
    CoarserSearch(Scmp, x, y, t, v);
    RankIn(t, y);
    AboveNodes(t, v);
    forall a | a in Above(t, v) ensures Related(Scmp, y, a.key) <==> Clashes(a.key, dst) {
      ClashesRelated(a.key, dst, pre);
    }
  }

  lemma ShortRelated(k: Key, dst: Addr, pre: nat)
    requires CacheKey(k, pre) && dst.Valid() && pre <= 32 && Covers(Scmp, k, FullKey(dst))
    ensures Related(Scmp, ShortKey(dst), k)
  {
    var x, y := FullKey(dst), ShortKey(dst);
    BitCmpMeaning(k, x);
    BitCmpMeaning(y, k);
    assert forall i: nat :: i < y.len ==> Bit(y, i) == Bit(x, i) == Bit(k, i);
  }

  lemma RankIn(t: Tree, x: Key)
    requires Found(Scmp, x, t)
    ensures Inorder(t)[Rank(Scmp, x, t)] in Nodes(t)
  {
    InorderFacts(t);
  }

  lemma {:induction false} AboveNodes(t: Tree, v: Elem)
    ensures Above(t, v) <= Nodes(t)
  {
    match t
    case Leaf =>
    case Node(l, e, r) =>
      AboveNodes(l, v);
      AboveNodes(r, v);
  }

  /**
    cache_get. The element that covers the address is returned unless it has expired; then one
    element goes. But mem_delete is given the length in bytes where it counts bits, so the
    expired element is the one that goes if and only if the way to it is clear.
  */
  method Get(pool: Pool, dst: Addr, stamps: map<Elem, Stamp>, now: int, ghost pre: nat) returns (r: Elem?, ghost gone: Elem?)
    requires CacheValid(pool, pre) && dst.Valid() && pre <= 32 && pool.count < UINT_RANGE
    requires Nodes(pool.t) <= stamps.Keys
    modifies pool, Nodes(pool.t)
    ensures CacheValid(pool, pre)
    ensures r != null ==> r in old(Nodes(pool.t)) && Covers(Scmp, r.key, FullKey(dst))
    ensures r != null ==>
      CacheKey(r.key, pre) && For(r.key, dst) && (stamps[r].ttl == 0 || now <= stamps[r].time + stamps[r].ttl)
    ensures if gone == null then Nodes(pool.t) == old(Nodes(pool.t))
      else gone in old(Nodes(pool.t)) && Nodes(pool.t) == old(Nodes(pool.t)) - {gone} && pool.count == old(pool.count) - 1
    ensures !old(Covered(Nodes(pool.t), FullKey(dst))) ==> r == null && gone == null
    ensures forall v :: v in old(Nodes(pool.t)) && Covers(Scmp, v.key, FullKey(dst)) ==>
      if stamps[v].ttl != 0 && now > stamps[v].time + stamps[v].ttl then r == null && gone != null && (gone == v <==> ClearAbove(old(pool.t), v, dst))
      else r == v && gone == null
  {
    hide Inorder, Covers, Clashes, ClearAbove, Above, Found, Rank, CacheKey, Antichain, Good, FullKey, Serialize;
    var key := Serialize(dst);
    var val := Lookup(pool, dst, pre);
    gone := null;
    if val == null {
      return null, null;
    }
    OnlyOne(pool.t, val, dst, pre);
    CacheShaped(val.key, pre);
    CoversFor(val.key, dst);
    if stamps[val].ttl != 0 && now > stamps[val].time + stamps[val].ttl {
      DeletedIff(pool.t, val, dst, pre);
      gone := Inorder(pool.t)[Rank(Scmp, ShortKey(dst), pool.t)];
      pool.Delete(key, |key|);
      return null, gone;
    }
    return val, null;
  }

  /**
    So an expired entry `v` stays if another IPv4 entry `e` is at the root of the tree: the search
    of mem_delete meets `e`, which is the one removed.
  */
  lemma WrongEntry(l: Tree, e: Elem, r: Tree, v: Elem, dst: Addr, pre: nat)
    requires dst.Valid() && dst.V4? && CacheKey(e.key, pre) && pre <= 32 && e.key.data[0] == AF_INET
    requires v in Nodes(Node(l, e, r)) && v != e && Covers(Scmp, v.key, FullKey(dst))
    ensures Met(Node(l, e, r), ShortKey(dst), e) && !Met(Node(l, e, r), ShortKey(dst), v)
    ensures !ClearAbove(Node(l, e, r), v, dst)
  {
    ClashesRelated(e.key, dst, pre);
  }

  ghost predicate AllCovered(s: set<Elem>, dsts: seq<Addr>, n: nat)
    requires n <= |dsts| && forall i :: 0 <= i < |dsts| ==> dsts[i].Valid()
  {
    forall i :: 0 <= i < n ==> Covered(s, FullKey(dsts[i]))
  }

  lemma OneMoreCovered(s: set<Elem>, s': set<Elem>, dsts: seq<Addr>, n: nat, v: Elem)
    requires n < |dsts| && forall i :: 0 <= i < |dsts| ==> dsts[i].Valid()
    requires AllCovered(s, dsts, n) && Grows(s, s') && v in s' && Covers(Scmp, v.key, FullKey(dsts[n]))
    ensures AllCovered(s', dsts, n + 1)
  {
  }

  /** Every entry was made for one of the addresses. */
  ghost predicate MadeFor(s: set<Elem>, dsts: seq<Addr>, n: nat, pre: nat)
    requires n <= |dsts| && pre <= 32
  {
    forall e :: e in s ==> CacheKey(e.key, pre) && exists i :: 0 <= i < n && For(e.key, dsts[i])
  }

  lemma OneMoreMade(s: set<Elem>, s': set<Elem>, dsts: seq<Addr>, n: nat, pre: nat)
    requires n < |dsts| && pre <= 32 && MadeFor(s, dsts, n, pre)
    requires forall e :: e in s' - s ==> CacheKey(e.key, pre) && For(e.key, dsts[n])
    ensures MadeFor(s', dsts, n + 1, pre)
  {
  }

  /** A run of cache_add from the empty cache: every address that was added stays covered, and nothing else gets in. */
  method Run(dsts: seq<Addr>, pre: nat) returns (pool: Pool)
    requires pre <= 32 && |dsts| + 1 < UINT_RANGE && forall i :: 0 <= i < |dsts| ==> dsts[i].Valid()
    ensures CacheValid(pool, pre) && AllCovered(Nodes(pool.t), dsts, |dsts|) && MadeFor(Nodes(pool.t), dsts, |dsts|, pre)
  {
    hide For, Covers, Good, Orderly, Inorder, Merged, Added, Covered, Found, Rank, Serialize, FullKey, SameBits;
    pool := new Pool(CMP_BITS, BitKeys());
    var n := 0;
    while n < |dsts|
      invariant n <= |dsts| && CacheValid(pool, pre) && pool.count <= n && fresh(pool) && fresh(Nodes(pool.t))
      invariant AllCovered(Nodes(pool.t), dsts, n) && MadeFor(Nodes(pool.t), dsts, n, pre) == true
    {
      ghost var s := Nodes(pool.t);
      var v, _ := Add(pool, dsts[n], pre);
      OneMoreCovered(s, Nodes(pool.t), dsts, n, v);
      OneMoreMade(s, Nodes(pool.t), dsts, n, pre);
      n := n + 1;
    }
  }

  /**
    What answers for an address after such a run was stored for an address of the same family and
    port with the same first 32 - pre bits; for IPv6, or without merging, for that very address.
  */
  lemma AnswerFor(s: set<Elem>, dsts: seq<Addr>, pre: nat, dst: Addr, r: Elem) returns (i: nat)
    requires pre <= 32 && MadeFor(s, dsts, |dsts|, pre) && (forall i :: 0 <= i < |dsts| ==> dsts[i].Valid()) && dst.Valid()
    requires r in s && Covers(Scmp, r.key, FullKey(dst))
    ensures i < |dsts| && dsts[i].V4? == dst.V4? && dsts[i].port == dst.port
    ensures SameBits(Bits(dsts[i].ip, 0), Bits(dst.ip, 0), if dst.V4? then 32 - pre else 128)
    ensures dst.V6? || pre == 0 ==> dsts[i] == dst
  {
    hide SameBits;
    i :| 0 <= i < |dsts| && For(r.key, dsts[i]);
    CoversFor(r.key, dst);
    SameOrigin(r.key, dsts[i], dst, pre);
  }
}
