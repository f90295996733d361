/**
  The keys of mpool.c and their three comparators. A comparator is used for its sign alone.
*/
module Keys {
  import opened Bytes

  const CMP_BYTES := 0
  const CMP_BITS := 1
  const CMP_HOST := 2

  const DOT: int := 0x2e

  /** The `cmp_type`, `data` and `len` of a `struct elem`. `len` counts bits or bytes. */
  datatype Key = Key(cmpType: int, data: seq<Byte>, len: nat) {
    /** Byte `i` of the buffer; what lies behind its end reads as 0. */
    function At(i: int): Byte {
      if 0 <= i < |data| then data[i] else 0
    }

    /** Byte `i` counted from the end of the key. */
    function FromEnd(i: int): int {
      Char(At(len - 1 - i))
    }
  }

  /** What the macros of kavl.h are instantiated with. */
  type Cmp = (Key, Key) -> int

  function Min(a: int, b: int): int {
    if b < a then b else a
  }

  /** An arithmetic right shift: the division rounds down, also for a negative number. */
  function ShiftRight(x: int, k: nat): int
    decreases k
  {
    if k == 0 then x else ShiftRight(x / 2, k - 1)
  }

  /** `(uint8_t)(c >> k)` for a signed char: the shift copies the sign bit, the cast drops it again. */
  function ShiftedByte(u: Byte, k: nat): Byte {
    ShiftRight(Char(u), k) % 256
  }

  function Memcmp(p: Key, q: Key, i: nat, n: nat): int
    requires i <= n
    decreases n - i
  {
    if i == n then 0 else if p.At(i) != q.At(i) then p.At(i) - q.At(i) else Memcmp(p, q, i + 1, n)
  }

  function BitCmp(p: Key, q: Key): int {
    var len := Min(p.len, q.len);
    var df, bytes := len % 8, len / 8;
    var c := Memcmp(p, q, 0, bytes);
    if c != 0 || df == 0 then c
    else
      var c1, c2 := ShiftedByte(p.At(bytes), 8 - df), ShiftedByte(q.At(bytes), 8 - df);
      if c1 < c2 then -1 else if c1 > c2 then 1 else 0
  }

  function ByteCmp(p: Key, q: Key): int {
    if p.len != q.len then (if p.len < q.len then -1 else 1) else Memcmp(p, q, 0, p.len)
  }

  /** The first of the positions i .. n-1, counted from the end, where the keys differ; n if none. */
  function Mismatch(p: Key, q: Key, i: nat, n: nat): (j: nat)
    requires i <= n
    ensures i <= j <= n && forall k :: i <= k < j ==> p.FromEnd(k) == q.FromEnd(k)
    ensures j < n ==> p.FromEnd(j) != q.FromEnd(j)
    decreases n - i
  {
    if i == n || p.FromEnd(i) != q.FromEnd(i) then i else Mismatch(p, q, i + 1, n)
  }

  /** What the loop of host_cmp computes. */
  function HostCmp(p: Key, q: Key): int {
    var n := Min(p.len, q.len);
    var j := Mismatch(p, q, 0, n);
    if j < n then (if p.FromEnd(j) < q.FromEnd(j) then -1 else 1)
    else if p.len == q.len || (if p.len > q.len then p.FromEnd(n) else q.FromEnd(n)) == DOT then 0
    else if p.len > q.len then 1 else -1
  }

  /** host_cmp as written: two pointers moving down from the ends of the keys. */
  method HostCompare(p: Key, q: Key) returns (c: int)
    ensures c == HostCmp(p, q)
  {
    var len: int := if q.len < p.len then q.len else p.len;
    var pd, qd := p.len, q.len;
    while len > 0
      invariant 0 <= len <= Min(p.len, q.len)
      invariant p.len - pd == q.len - qd == Min(p.len, q.len) - len
      invariant Mismatch(p, q, 0, Min(p.len, q.len)) == Mismatch(p, q, p.len - pd, Min(p.len, q.len))
    {
      len := len - 1;
      pd, qd := pd - 1, qd - 1;
      if Char(p.At(pd)) != Char(q.At(qd)) {
        return if Char(p.At(pd)) < Char(q.At(qd)) then -1 else 1;
      }
    }
    if p.len == q.len || (if p.len > q.len then Char(p.At(pd - 1)) else Char(q.At(qd - 1))) == DOT {
      return 0;
    }
    return if p.len > q.len then 1 else -1;
  }

  function Scmp(p: Key, q: Key): int {
    if p.cmpType == CMP_BITS then BitCmp(p, q)
    else if p.cmpType == CMP_HOST then HostCmp(p, q)
    else ByteCmp(p, q)
  }
}
