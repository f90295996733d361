/** Bytes, 16-bit lengths in network order, and moving bytes inside a buffer. */
module Bytes {
  type Byte = x: int | 0 <= x < 256

  /** A byte read through a (signed) `char *`. */
  function Char(u: Byte): int {
    if u < 128 then u else u - 256
  }

  /** What SHTONA stores: the low 16 bits, high byte first. */
  function Be16(x: int): (r: seq<Byte>)
    ensures |r| == 2
  {
    [x / 256 % 256, x % 256]
  }

  /** ANTOHS assigned to a uint16_t: the sign extension of the first byte is cut off. */
  function Antohs(s: seq<Byte>, i: nat): (r: nat)
    requires i + 1 < |s|
    ensures r < 0x1_0000
  {
    s[i] as int * 256 + s[i + 1]
  }

  lemma AntohsBe16(s: seq<Byte>, i: nat, x: int)
    requires i + 1 < |s| && s[i..i + 2] == Be16(x)
    ensures Antohs(s, i) == x % 0x1_0000
  {
    assert s[i] == s[i..i + 2][0] && s[i + 1] == s[i..i + 2][1];
  }

  lemma Be16Antohs(s: seq<Byte>, i: nat)
    requires i + 1 < |s|
    ensures Be16(Antohs(s, i)) == s[i..i + 2] == [s[i], s[i + 1]]
  {
  }

  /** `s` with `x` written over it from `at` on. */
  ghost function Patch(s: seq<Byte>, at: nat, x: seq<Byte>): (r: seq<Byte>)
    requires at + |x| <= |s|
    ensures |r| == |s|
    ensures forall k :: 0 <= k < |s| ==> r[k] == if at <= k < at + |x| then x[k - at] else s[k]
  {
    s[..at] + x + s[at + |x|..]
  }

  method Shtona(a: array<Byte>, i: nat, x: int)
    requires i + 1 < a.Length
    modifies a
    ensures a[..] == Patch(old(a[..]), i, Be16(x))
  {
    a[i] := x / 256 % 256;
    a[i + 1] := x % 256;
  }

  /** memmove inside one buffer. */
  method Memmove(a: array<Byte>, dst: nat, src: nat, len: nat)
    requires src + len <= a.Length && dst + len <= a.Length
    modifies a
    ensures a[..] == Patch(old(a[..]), dst, old(a[..])[src..src + len])
  {
    forall i | 0 <= i < len {
      a[dst + i] := a[src + i];
    }
  }

  lemma Assoc(a: seq<Byte>, b: seq<Byte>, c: seq<Byte>)
    ensures a + (b + c) == a + b + c
  {
  }
}
