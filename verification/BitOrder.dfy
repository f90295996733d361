/**
  bit_cmp compares two bit strings on their common length. Read bit by bit it is the
  lexicographic order in which a prefix counts as equal, and it obeys the laws of KeyOrder on
  all keys.
*/
module BitOrder {
  import opened Bytes
  import opened Keys
  import opened KeyOrder

  /** The top `d` bits of a byte, as a number. */
  function Top(u: Byte, d: nat): int
    requires d <= 8
  {
    ShiftRight(u, 8 - d)
  }

  function BitOfByte(u: Byte, d: nat): int
    requires d < 8
  {
    Top(u, d + 1) % 2
  }

  /** Bit `i` of a key, the most significant bit of a byte first. */
  function Bit(k: Key, i: nat): int {
    BitOfByte(k.At(i / 8), i % 8)
  }

  ghost predicate SameBits(p: Key, q: Key, n: nat) {
    forall i: nat :: i < n ==> Bit(p, i) == Bit(q, i)
  }

  /** At the first of the first `n` bits where they differ, `p` has 0 and `q` has 1. */
  ghost predicate Below(p: Key, q: Key, n: nat) {
    exists i: nat :: i < n && SameBits(p, q, i) && Bit(p, i) < Bit(q, i)
  }

  // -- shifting a signed char ---------------------------------------------------------------

  function Pow2(k: nat): (r: nat)
    ensures r > 0
  {
    if k == 0 then 1 else 2 * Pow2(k - 1)
  }

  lemma {:induction false} ShiftMinus(x: int, j: nat, k: nat)
    requires k <= j
    ensures ShiftRight(x - Pow2(j), k) == ShiftRight(x, k) - Pow2(j - k)
    decreases k
  {
    if k > 0 {
      assert (x - Pow2(j)) / 2 == x / 2 - Pow2(j - 1);
      ShiftMinus(x / 2, j - 1, k - 1);
    }
  }

  lemma {:induction false} ShiftRange(x: int, j: nat, k: nat)
    requires k <= j
    ensures 0 <= x < Pow2(j) ==> 0 <= ShiftRight(x, k) < Pow2(j - k)
    ensures x >= Pow2(j) ==> ShiftRight(x, k) >= Pow2(j - k)
    decreases k
  {
    if k > 0 {
      ShiftRange(x / 2, j - 1, k - 1);
    }
  }

  /** One more bit. */
  lemma {:induction false} ShiftStep(x: int, k: nat)
    ensures ShiftRight(x, k) / 2 == ShiftRight(x, k + 1)
    decreases k
  {
    if k > 0 {
      ShiftStep(x / 2, k - 1);
    }
  }

  lemma SignedShift(w: Byte, k: nat)
    requires k <= 8
    ensures ShiftRight(Char(w), k) == ShiftRight(w, k) - if w < 128 then 0 else Pow2(8 - k)
  {
    assert Pow2(8) == 256 by { assert Pow2(4) == 16; }
    if w >= 128 {
      ShiftMinus(w, 8, k);
    }
  }

  lemma {:induction false} PowGrows(j: nat, k: nat)
    requires j <= k
    ensures Pow2(j) <= Pow2(k)
    decreases k - j
  {
    if j < k {
      PowGrows(j + 1, k);
    }
  }

  lemma ShiftValue(w: Byte, k: nat)
    requires 0 < k < 8
    ensures ShiftedByte(w, k) == ShiftRight(w, k) + if w < 128 then 0 else 256 - Pow2(8 - k)
    ensures w < 128 ==> 0 <= ShiftRight(w, k) < Pow2(7 - k)
    ensures w >= 128 ==> Pow2(7 - k) <= ShiftRight(w, k) < Pow2(8 - k)
    ensures Pow2(8 - k) <= 128
  {
    hide ShiftRight;
    assert Pow2(7) == 128 && Pow2(8) == 256 by {
      assert Pow2(3) == 8 && Pow2(5) == 32;
    }
    PowGrows(8 - k, 7);
    ShiftRange(w, 7, k);
    ShiftRange(w, 8, k);
    SignedShift(w, k);
  }

  /** The sign extension and the cast together keep the order of the unsigned bytes. */
  lemma ShiftOrder(u: Byte, v: Byte, d: nat)
    requires 0 < d < 8
    ensures ShiftedByte(u, 8 - d) < ShiftedByte(v, 8 - d) <==> Top(u, d) < Top(v, d)
    ensures ShiftedByte(u, 8 - d) == ShiftedByte(v, 8 - d) <==> Top(u, d) == Top(v, d)
  {
    ShiftValue(u, 8 - d);
    ShiftValue(v, 8 - d);
  }

  // -- from bytes to bits -------------------------------------------------------------------

  /** Two bytes whose top `d` bits differ differ first at some bit, the way the numbers do. */
  lemma {:induction false} FirstBit(u: Byte, v: Byte, d: nat) returns (b: nat)
    requires d <= 8 && Top(u, d) < Top(v, d)
    ensures b < d && BitOfByte(u, b) < BitOfByte(v, b)
    ensures forall e: nat :: e < b ==> BitOfByte(u, e) == BitOfByte(v, e)
    decreases d
  {
    TopStep(u, d);
    TopStep(v, d);
    if Top(u, d - 1) != Top(v, d - 1) {
      b := FirstBit(u, v, d - 1);
    } else {
      b := d - 1;
      forall e: nat | e < b ensures BitOfByte(u, e) == BitOfByte(v, e) {
        SameTop(u, v, d - 1, e);
      }
    }
  }

  lemma TopStep(u: Byte, d: nat)
    requires d <= 8
    ensures d == 0 ==> Top(u, d) == 0
    ensures d > 0 ==> Top(u, d) / 2 == Top(u, d - 1)
    ensures d > 0 ==> Top(u, d) == 2 * Top(u, d - 1) + BitOfByte(u, d - 1)
  {
    if d == 0 {
      assert Pow2(8) == 256 by { assert Pow2(4) == 16; }
      ShiftRange(u, 8, 8);
    } else {
      ShiftStep(u, 8 - d);
    }
  }

  /** Equal top bits are equal one by one. */
  lemma {:induction false} SameTop(u: Byte, v: Byte, d: nat, e: nat)
    requires e < d <= 8 && Top(u, d) == Top(v, d)
    ensures BitOfByte(u, e) == BitOfByte(v, e)
    decreases d
  {
    TopStep(u, d);
    TopStep(v, d);
    if e < d - 1 {
      SameTop(u, v, d - 1, e);
    }
  }

  // -- what bit_cmp decides -----------------------------------------------------------------

  lemma {:induction false} MemcmpMeaning(p: Key, q: Key, i: nat, n: nat) returns (j: nat)
    requires i <= n
    ensures i <= j <= n && forall k :: i <= k < j ==> p.At(k) == q.At(k)
    ensures Memcmp(p, q, i, n) == if j < n then p.At(j) - q.At(j) else 0
    ensures j < n ==> p.At(j) != q.At(j)
    decreases n - i
  {
    if i == n || p.At(i) != q.At(i) {
      j := i;
    } else {
      j := MemcmpMeaning(p, q, i + 1, n);
    }
  }

  /** Equal bytes, then a byte whose top `d` bits are lower. */
  lemma BelowAtByte(p: Key, q: Key, j: nat, d: nat, n: nat)
    requires d <= 8 && j * 8 + d <= n && forall k :: 0 <= k < j ==> p.At(k) == q.At(k)
    requires Top(p.At(j), d) < Top(q.At(j), d)
    ensures Below(p, q, n)
  {
    var b := FirstBit(p.At(j), q.At(j), d);
    var i := j * 8 + b;
    assert i / 8 == j && i % 8 == b;
    forall e: nat | e < i ensures Bit(p, e) == Bit(q, e) {
      assert e / 8 < j || (e / 8 == j && e % 8 < b);
    }
    assert SameBits(p, q, i) && Bit(p, i) < Bit(q, i);
  }

  /** bit_cmp is the lexicographic order of the bits that both keys have. */
  lemma BitCmpMeaning(p: Key, q: Key)
    ensures var n := Min(p.len, q.len);
      && (BitCmp(p, q) < 0 <==> Below(p, q, n))
      && (BitCmp(p, q) > 0 <==> Below(q, p, n))
      && (BitCmp(p, q) == 0 <==> SameBits(p, q, n))
  {
    var n := Min(p.len, q.len);
    var df, bytes := n % 8, n / 8;
    var j := MemcmpMeaning(p, q, 0, bytes);
    if j < bytes {
      assert forall u: Byte :: Top(u, 8) == u;
      if p.At(j) < q.At(j) {
        BelowAtByte(p, q, j, 8, n);
      } else {
        BelowAtByte(q, p, j, 8, n);
      }
    } else if df > 0 {
      ShiftOrder(p.At(bytes), q.At(bytes), df);
      if Top(p.At(bytes), df) < Top(q.At(bytes), df) {
        BelowAtByte(p, q, bytes, df, n);
      } else if Top(p.At(bytes), df) > Top(q.At(bytes), df) {
        BelowAtByte(q, p, bytes, df, n);
      } else {
        forall e: nat | e < n ensures Bit(p, e) == Bit(q, e) {
          if e / 8 == bytes {
            SameTop(p.At(bytes), q.At(bytes), df, e % 8);
          }
        }
      }
    }
    OneOfThree(p, q, n);
  }

  lemma OneOfThree(p: Key, q: Key, n: nat)
    ensures !(Below(p, q, n) && Below(q, p, n))
    ensures SameBits(p, q, n) ==> !Below(p, q, n) && !Below(q, p, n)
  {
  }

  /** All keys of bit pools. */
  ghost function BitKeys(): iset<Key> {
    iset k: Key | k.cmpType == CMP_BITS
  }

  lemma BitMonotone(a: Key, b: Key, c: Key)
    requires BitCmp(a, b) < 0
    ensures Sgn(BitCmp(c, b)) <= Sgn(BitCmp(c, a))
  {
    BitCmpMeaning(a, b);
    BitCmpMeaning(c, b);
    BitCmpMeaning(c, a);
    var i: nat :| i < Min(a.len, b.len) && SameBits(a, b, i) && Bit(a, i) < Bit(b, i);
    if BitCmp(c, b) > 0 {
      var j: nat :| j < Min(c.len, b.len) && SameBits(b, c, j) && Bit(b, j) < Bit(c, j);
      assert SameBits(a, c, Min(i, j)) && Bit(a, Min(i, j)) < Bit(c, Min(i, j));
    }
  }

  /** bit_cmp obeys the laws on all bit keys. */
  lemma BitsLawful()
    ensures Lawful(Scmp, BitKeys())
  {
    forall a, b | a in BitKeys() && b in BitKeys()
      ensures Sgn(Scmp(a, b)) == -Sgn(Scmp(b, a)) && Scmp(a, a) == 0
    {
      BitCmpMeaning(a, b);
      BitCmpMeaning(b, a);
      BitCmpMeaning(a, a);
    }
    forall a, b, c | a in BitKeys() && b in BitKeys() && c in BitKeys() && Scmp(a, b) < 0
      ensures Sgn(Scmp(c, b)) <= Sgn(Scmp(c, a))
    {
      BitMonotone(a, b, c);
    }
    forall a, b, c | a in BitKeys() && b in BitKeys() && c in BitKeys() && Covers(Scmp, a, b) && Covers(Scmp, b, c)
      ensures Covers(Scmp, a, c)
    {
      BitCmpMeaning(a, b);
      BitCmpMeaning(b, c);
      BitCmpMeaning(a, c);
    }
  }
}
