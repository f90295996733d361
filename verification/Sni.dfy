/**
  The extension list of a ClientHello: finding extensions (find_tls_ext_offset), reading the
  server name (parse_tls) and replacing it in place (change_tls_sni).

  An extension is a type, a length and that many bytes (section 4.2 of RFC 8446); server_name is
  section 3 of RFC 6066, padding section 3 of RFC 7685.
*/
module Sni {
  import opened Bytes
  import opened Wrappers
  import opened TlsRecords
  import opened MergeRecords

  const EXT_SERVER_NAME := 0x0000
  const EXT_PADDING := 0x0015
  const EXT_ECH := 0xfe0d

  // -- the extension list as a list ---------------------------------------------------------

  datatype Ext = Ext(typ: nat, body: seq<Byte>)

  /** Reads a list of extensions that fills `t`. */
  ghost function ReadExts(t: seq<Byte>): Option<seq<Ext>>
    decreases |t|
  {
    if |t| == 0 then Some([])
    else if |t| < 4 || |t| < 4 + Antohs(t, 2) then None
    else
      var rest := ReadExts(t[4 + Antohs(t, 2)..]);
      if rest.None? then None
      else Some([Ext(Antohs(t, 0), t[4..4 + Antohs(t, 2)])] + rest.value)
  }

  /** The bytes of one extension. */
  ghost function Encode(typ: nat, body: seq<Byte>): seq<Byte> {
    Be16(typ) + Be16(|body|) + body
  }

  lemma Fields(a: seq<Byte>, b: seq<Byte>, body: seq<Byte>, t: seq<Byte>)
    requires |a| == 2 && |b| == 2
    ensures var s := a + b + body + t;
      s[0..2] == a && s[2..4] == b && s[4..4 + |body|] == body && s[4 + |body|..] == t
  {
  }

  lemma ReadOne(s: seq<Byte>, typ: nat, body: seq<Byte>, t: seq<Byte>)
    requires |s| == 4 + |body| + |t| && Antohs(s, 0) == typ && Antohs(s, 2) == |body|
    requires s[4..4 + |body|] == body && s[4 + |body|..] == t && ReadExts(t).Some?
    ensures ReadExts(s) == Some([Ext(typ, body)] + ReadExts(t).value)
  {
  }

  lemma EncodeRead(typ: nat, body: seq<Byte>, t: seq<Byte>)
    requires typ < 0x1_0000 && |body| < 0x1_0000 && ReadExts(t).Some?
    ensures ReadExts(Encode(typ, body) + t) == Some([Ext(typ, body)] + ReadExts(t).value)
  {
    hide ReadExts, Be16, Antohs;
    var s := Encode(typ, body) + t;
    Fields(Be16(typ), Be16(|body|), body, t);
    AntohsBe16(s, 0, typ);
    AntohsBe16(s, 2, |body|);
    Small(typ);
    Small(|body|);
    ReadOne(s, typ, body, t);
  }

  lemma Slices(a: seq<Byte>, t: seq<Byte>, n: nat)
    requires 4 <= n <= |a|
    ensures (a + t)[n..] == a[n..] + t && (a + t)[4..n] == a[4..n]
    ensures Antohs(a + t, 0) == Antohs(a, 0) && Antohs(a + t, 2) == Antohs(a, 2)
  {
  }

  lemma Cons(e: Ext, x: seq<Ext>, y: seq<Ext>)
    ensures [e] + (x + y) == [e] + x + y
  {
  }

  /** Lists one after the other are read one after the other. */
  lemma {:induction false} ReadAppend(a: seq<Byte>, t: seq<Byte>)
    requires ReadExts(a).Some? && ReadExts(t).Some?
    ensures ReadExts(a + t) == Some(ReadExts(a).value + ReadExts(t).value)
    decreases |a|
  {
    if |a| == 0 {
      assert a + t == t && [] + ReadExts(t).value == ReadExts(t).value;
    } else {
      var n := 4 + Antohs(a, 2);
      ReadAppend(a[n..], t);
      Slices(a, t, n);
      Cons(Ext(Antohs(a, 0), a[4..n]), ReadExts(a[n..]).value, ReadExts(t).value);
    }
  }

  // -- find_tls_ext_offset ------------------------------------------------------------------

  /** The walk from offset `i`: the first extension of this type that begins more than four bytes before `size`. */
  function Walk(typ: nat, data: seq<Byte>, size: nat, i: nat): (r: nat)
    requires size <= |data|
    ensures r == 0 || (i <= r && r + 4 < size && Antohs(data, r) == typ)
    decreases if i < size then size - i else 0
  {
    if i + 4 >= size then 0
    else if Antohs(data, i) == typ then i
    else Walk(typ, data, size, i + Antohs(data, i + 2) + 4)
  }

  function WalkEnd(data: seq<Byte>, size: nat, skip: nat): nat
    requires skip + 2 <= size <= |data|
  {
    if Antohs(data, skip) < size - (skip + 2) then Antohs(data, skip) + skip + 2 else size
  }

  function FindExt(typ: nat, data: seq<Byte>, size: nat, skip: nat): nat
    requires size <= |data|
  {
    if size <= skip + 2 then 0 else Walk(typ, data, WalkEnd(data, size, skip), skip + 2)
  }

  /** find_tls_ext_offset */
  method FindTlsExtOffset(typ: nat, data: seq<Byte>, size: nat, skip: nat) returns (r: nat)
    requires size <= |data|
    ensures r == FindExt(typ, data, size, skip)
  {
    var sz, i := size, skip;
    if sz <= i + 2 {
      return 0;
    }
    var extLen := Antohs(data, i);
    i := i + 2;
    if extLen < sz - i {
      sz := extLen + i;
    }
    while i + 4 < sz
      invariant skip + 2 <= i && sz == WalkEnd(data, size, skip)
      invariant Walk(typ, data, sz, skip + 2) == Walk(typ, data, sz, i)
      decreases if i < sz then sz - i else 0
    {
      var epyt := Antohs(data, i);
      if typ == epyt {
        return i;
      }
      var len := Antohs(data, i + 2);
      i := i + len + 4;
    }
    return 0;
  }

  /** find_ext_block: where the length of the extension list is, if there is one compression method. */
  function FindExtBlock(data: seq<Byte>, size: nat): (r: nat)
    requires size <= |data|
    ensures r <= size
  {
    if size < 44 then 0
    else
      var sidLen := data[43] as int;
      if size < 44 + sidLen + 2 then 0
      else
        var skip := 44 + sidLen + 2 + Antohs(data, 44 + sidLen) + 2;
        if skip > size then 0 else skip
  }

  /** parse_tls: the host name, if any. */
  method ParseTls(b: seq<Byte>) returns (host: Option<seq<Byte>>)
    ensures host == ServerName(b)
  {
    if !IsTlsChello(b) {
      return None;
    }
    var skip := FindExtBlock(b, |b|);
    if skip == 0 {
      return None;
    }
    var sniOffs := FindTlsExtOffset(EXT_SERVER_NAME, b, |b|, skip);
    if sniOffs == 0 || sniOffs + 12 >= |b| {
      return None;
    }
    var len := Antohs(b, sniOffs + 7);
    if sniOffs + 9 + len > |b| {
      return None;
    }
    return Some(b[sniOffs + 9..sniOffs + 9 + len]);
  }

  function ServerName(b: seq<Byte>): Option<seq<Byte>> {
    if !IsTlsChello(b) then None
    else
      var skip := FindExtBlock(b, |b|);
      if skip == 0 then None
      else
        var s := FindExt(EXT_SERVER_NAME, b, |b|, skip);
        if s == 0 || s + 12 >= |b| then None
        else
          var len := Antohs(b, s + 7);
          if s + 9 + len > |b| then None else Some(b[s + 9..s + 9 + len])
  }

  // -- where the walk ends in a list that can be read ---------------------------------------

  /** `b` extensions between offsets `i` and `n` of `d`. */
  ghost predicate Reads(d: seq<Byte>, i: nat, n: nat, x: seq<Ext>) {
    i <= n <= |d| && ReadExts(d[i..n]) == Some(x)
  }

  ghost predicate Without(x: seq<Ext>, typ: nat) {
    forall k :: 0 <= k < |x| ==> x[k].typ != typ
  }

  lemma SubSlice(d: seq<Byte>, i: nat, n: nat, x: nat, y: nat)
    requires i <= n <= |d| && x <= y <= n - i
    ensures d[i..n][x..y] == d[i + x..i + y]
  {
    forall k | 0 <= k < y - x ensures d[i..n][x..y][k] == d[i + x..i + y][k] {
      assert d[i..n][x + k] == d[i + x + k];
    }
  }

  /** The first extension of a part of the buffer. */
  lemma ReadsFirst(d: seq<Byte>, i: nat, n: nat, x: seq<Ext>)
    requires Reads(d, i, n, x) && i + 4 <= n
    ensures var j := i + 4 + Antohs(d, i + 2);
      j <= n && x != [] && x[0] == Ext(Antohs(d, i), d[i + 4..j]) && Reads(d, j, n, x[1..])
  {
    var t, j := d[i..n], i + 4 + Antohs(d, i + 2);
    assert Antohs(t, 0) == Antohs(d, i) && Antohs(t, 2) == Antohs(d, i + 2);
    SubSlice(d, i, n, 4, j - i);
    SubSlice(d, i, n, j - i, n - i);
    assert t[j - i..] == t[j - i..n - i];
  }

  lemma ReadsMore(d: seq<Byte>, i: nat, n: nat, x: seq<Ext>)
    requires i + 4 <= n <= |d| && i + 4 + Antohs(d, i + 2) <= n && Reads(d, i + 4 + Antohs(d, i + 2), n, x)
    ensures Reads(d, i, n, [Ext(Antohs(d, i), d[i + 4..i + 4 + Antohs(d, i + 2)])] + x)
  {
    var t, j := d[i..n], i + 4 + Antohs(d, i + 2);
    assert Antohs(t, 0) == Antohs(d, i) && Antohs(t, 2) == Antohs(d, i + 2);
    SubSlice(d, i, n, 4, j - i);
    SubSlice(d, i, n, j - i, n - i);
    assert t[j - i..] == t[j - i..n - i];
  }

  /** The list `x` splits at the extension at `s`. */
  ghost predicate ExtSplit(typ: nat, d: seq<Byte>, i: nat, s: nat, n: nat, x: seq<Ext>, a: seq<Ext>, z: seq<Ext>) {
    && i <= s && s + 4 <= n <= |d|
    && ExtEnd(d, s) <= n && Reads(d, i, s, a) && Reads(d, ExtEnd(d, s), n, z)
    && Without(a, typ) && Antohs(d, s) == typ
    && x == a + [Ext(typ, d[s + 4..ExtEnd(d, s)])] + z
  }

  /** Where the extension at `s` ends. */
  function ExtEnd(d: seq<Byte>, s: nat): nat
    requires s + 4 <= |d|
  {
    s + 4 + Antohs(d, s + 2)
  }

  /** The extension found splits the list into what is in front of it, itself, and what follows. */
  lemma {:induction false} WalkSplits(typ: nat, d: seq<Byte>, n: nat, i: nat, x: seq<Ext>) returns (a: seq<Ext>, z: seq<Ext>)
    requires Reads(d, i, n, x) == true && i > 0 && n <= |d| && Walk(typ, d, n, i) != 0
    ensures ExtSplit(typ, d, i, Walk(typ, d, n, i), n, x, a, z) == true
    decreases if i < n then n - i else 0
  {
    ReadsFirst(d, i, n, x);
    if Antohs(d, i) == typ {
      a, z := [], x[1..];
      assert d[i..i] == [];
      assert x == [] + [x[0]] + x[1..];
    } else {
      a, z := WalkSplits(typ, d, n, i + 4 + Antohs(d, i + 2), x[1..]);
      ExtSplitMore(typ, d, i, Walk(typ, d, n, i), n, x, a, z);
      a := [x[0]] + a;
    }
  }

  lemma ExtSplitMore(typ: nat, d: seq<Byte>, i: nat, s: nat, n: nat, x: seq<Ext>, a: seq<Ext>, z: seq<Ext>)
    requires i + 4 <= n <= |d| && Antohs(d, i) != typ && x != []
    requires var j := i + 4 + Antohs(d, i + 2);
      ExtSplit(typ, d, j, s, n, x[1..], a, z) == true && x[0] == Ext(Antohs(d, i), d[i + 4..j])
    ensures ExtSplit(typ, d, i, s, n, x, [x[0]] + a, z) == true
  {
    ReadsMore(d, i, s, a);
    var f := Ext(typ, d[s + 4..ExtEnd(d, s)]);
    assert x == [x[0]] + x[1..];
    assert [x[0]] + (a + [f] + z) == ([x[0]] + a) + [f] + z;
  }

  /** The bytes that a list of extensions takes. */
  function Width(x: seq<Ext>): nat {
    if |x| == 0 then 0 else 4 + |x[0].body| + Width(x[1..])
  }

  /** The extension at place `s` is `e`. */
  ghost predicate Stands(d: seq<Byte>, s: nat, e: Ext) {
    && s + 4 + |e.body| <= |d| && Antohs(d, s) == e.typ && Antohs(d, s + 2) == |e.body|
    && d[s + 4..s + 4 + |e.body|] == e.body
  }

  /** The first extension of a type is found, wherever it is in the list. */
  lemma {:induction false} WalkFinds(typ: nat, d: seq<Byte>, n: nat, i: nat, x: seq<Ext>, j: nat)
    requires Reads(d, i, n, x) && j < |x| && x[j].typ == typ && |x[j].body| > 0
    requires forall k :: 0 <= k < j ==> x[k].typ != typ
    ensures var s := i + Width(x[..j]); Walk(typ, d, n, i) == s && s + 4 + |x[j].body| <= n && Stands(d, s, x[j])
    decreases j
  {
    hide Walk, ReadExts, Antohs, Reads;
    ReadsSome(d, i, n, x);
    ReadsFirst(d, i, n, x);
    var i' := i + 4 + Antohs(d, i + 2);
    FirstStands(d, i, n, x);
    WalkStep(typ, d, n, i);
    if j > 0 {
      assert x[1..][j - 1] == x[j] && forall k :: 0 <= k < j - 1 ==> x[1..][k] == x[k + 1];
      WalkFinds(typ, d, n, i', x[1..], j - 1);
      assert x[..j][1..] == x[1..][..j - 1];
    }
  }

  lemma WalkStep(typ: nat, d: seq<Byte>, n: nat, i: nat)
    requires i + 4 <= n <= |d|
    ensures i + 4 < n ==> Walk(typ, d, n, i) == if Antohs(d, i) == typ then i else Walk(typ, d, n, i + 4 + Antohs(d, i + 2))
  {
  }

  lemma ReadsSome(d: seq<Byte>, i: nat, n: nat, x: seq<Ext>)
    requires Reads(d, i, n, x) && |x| > 0
    ensures i + 4 <= n
  {
  }

  lemma FirstStands(d: seq<Byte>, i: nat, n: nat, x: seq<Ext>)
    requires Reads(d, i, n, x) && |x| > 0 && i + 4 <= n
    ensures Stands(d, i, x[0]) && i + 4 + |x[0].body| <= n
  {
    ReadsFirst(d, i, n, x);
  }

  /** Only what is in front of the extension found, and its type, matters. */
  lemma {:induction false} WalkPrefix(typ: nat, d: seq<Byte>, n: nat, d': seq<Byte>, n': nat, i: nat)
    requires n <= |d| && n' <= |d'| && 0 < i && Walk(typ, d, n, i) != 0
    requires var s := Walk(typ, d, n, i); s + 4 < n' && forall k :: i <= k < s + 2 ==> d'[k] == d[k]
    ensures Walk(typ, d', n', i) == Walk(typ, d, n, i)
    decreases if i < n then n - i else 0
  {
    var s := Walk(typ, d, n, i);
    if Antohs(d, i) != typ {
      assert i + 4 <= s;
      WalkPrefix(typ, d, n, d', n', i + Antohs(d, i + 2) + 4);
    }
  }

  /** The two bytes of the type are next to each other nowhere. */
  ghost predicate NoPair(d: seq<Byte>, typ: nat) {
    forall k :: 0 <= k < |d| - 1 ==> Antohs(d, k) != typ
  }

  lemma NotFound(typ: nat, d: seq<Byte>, size: nat, skip: nat)
    requires NoPair(d, typ) && size <= |d|
    ensures FindExt(typ, d, size, skip) == 0
  {
  }

  // -- what parse_tls finds -----------------------------------------------------------------

  /**
    A ClientHello as section 4.1.2 of RFC 8446 lays it out, in one record: record header, handshake
    header, version and random (43 bytes), session id, cipher suites, the one compression method,
    extensions; and whatever follows it.
  */
  ghost function Assembled(front: seq<Byte>, sid: seq<Byte>, ciphers: seq<Byte>, exts: seq<Byte>, rest: seq<Byte>): seq<Byte>
    requires |sid| < 256
  {
    front + [|sid|] + sid + Be16(|ciphers|) + ciphers + [1, 0] + Be16(|exts|) + exts + rest
  }

  lemma Within(p: seq<Byte>, m: seq<Byte>, t: seq<Byte>, d: seq<Byte>)
    requires d == p + m + t
    ensures |d| == |p| + |m| + |t| && d[|p|..|p| + |m|] == m && forall i :: 0 <= i < |m| ==> d[|p| + i] == m[i]
  {
  }

  lemma LengthIn(p: seq<Byte>, x: nat, t: seq<Byte>, d: seq<Byte>)
    requires d == p + Be16(x) + t && x < 0x1_0000
    ensures |d| == |p| + 2 + |t| && Antohs(d, |p|) == x
  {
    Within(p, Be16(x), t, d);
    AntohsBe16(d, |p|, x);
    Small(x);
  }

  /** The list of extensions is found where it is. */
  lemma BlockAt(front: seq<Byte>, sid: seq<Byte>, ciphers: seq<Byte>, exts: seq<Byte>, rest: seq<Byte>)
    requires |front| == 43 && |sid| < 256 && |ciphers| < 0x1_0000 && |exts| < 0x1_0000
    ensures var d, skip := Assembled(front, sid, ciphers, exts, rest), 48 + |sid| + |ciphers|;
      && |d| == skip + 2 + |exts| + |rest| && d[..43] == front
      && FindExtBlock(d, |d|) == skip && Antohs(d, skip) == |exts| && d[skip + 2..skip + 2 + |exts|] == exts
  {
    hide Be16, Antohs;
    var d := Assembled(front, sid, ciphers, exts, rest);
    var a := front + [|sid|] + sid;
    var b := a + Be16(|ciphers|) + ciphers + [1, 0];
    var t := ciphers + [1, 0] + Be16(|exts|) + exts + rest;
    assert d == front + ([|sid|] + sid + Be16(|ciphers|) + t);
    assert d == front + [|sid|] + (sid + Be16(|ciphers|) + t);
    assert d == a + Be16(|ciphers|) + t;
    assert d == b + Be16(|exts|) + (exts + rest);
    assert d == (b + Be16(|exts|)) + exts + rest;
    Within(front, [|sid|], sid + Be16(|ciphers|) + t, d);
    LengthIn(a, |ciphers|, t, d);
    LengthIn(b, |exts|, exts + rest, d);
    Within(b + Be16(|exts|), exts, rest, d);
    BlockBy(d, |sid|, |ciphers|);
  }

  lemma BlockBy(d: seq<Byte>, sid: nat, ciphers: nat)
    requires |d| >= 50 + sid + ciphers && d[43] == sid && Antohs(d, 44 + sid) == ciphers
    ensures FindExtBlock(d, |d|) == 48 + sid + ciphers
  {
  }

  /** And parse_tls returns the name in the first server_name extension, wherever that is in the list. */
  lemma ParsesHello(front: seq<Byte>, sid: seq<Byte>, ciphers: seq<Byte>, exts: seq<Byte>, rest: seq<Byte>, x: seq<Ext>, j: nat,
                    kind: seq<Byte>, host: seq<Byte>, more: seq<Byte>)
    requires |front| == 43 && front[0] == 0x16 && front[1] == 0x03 && front[5] == 0x01
    requires |sid| < 256 && |ciphers| < 0x1_0000 && |exts| < 0x1_0000 && |host| < 0x1_0000
    requires ReadExts(exts) == Some(x) && j < |x| && x[j].typ == 0
    requires forall k :: 0 <= k < j ==> x[k].typ != 0
    requires |kind| == 3 && x[j].body == kind + Be16(|host|) + host + more
    ensures var d := Assembled(front, sid, ciphers, exts, rest);
      50 + |sid| + |ciphers| + Width(x[..j]) + 12 < |d| ==> ServerName(d) == Some(host)
  {
    hide Walk, FindExtBlock, Be16, Antohs, Assembled, ReadExts;
    var d, skip := Assembled(front, sid, ciphers, exts, rest), 48 + |sid| + |ciphers|;
    BlockAt(front, sid, ciphers, exts, rest);
    assert d[0] == d[..43][0] && d[1] == d[..43][1] && d[5] == d[..43][5];
    WalkFinds(EXT_SERVER_NAME, d, skip + 2 + |exts|, skip + 2, x, j);
    var s := skip + 2 + Width(x[..j]);
    NameStands(d, s, x[j], kind, host, more);
    Answers(d, skip, |exts|, s, host);
  }

  lemma NameStands(d: seq<Byte>, s: nat, e: Ext, kind: seq<Byte>, host: seq<Byte>, more: seq<Byte>)
    requires Stands(d, s, e) && |kind| == 3 && |host| < 0x1_0000 && e.body == kind + Be16(|host|) + host + more
    ensures s + 9 + |host| <= |d| && Antohs(d, s + 7) == |host| && d[s + 9..s + 9 + |host|] == host
  {
    hide Antohs, Be16;
    var b := e.body;
    var p, t := d[..s + 4], d[s + 4 + |b|..];
    assert d == p + b + t;
    assert d == (p + kind) + Be16(|host|) + (host + more + t);
    assert d == (p + kind + Be16(|host|)) + host + (more + t);
    LengthIn(p + kind, |host|, host + more + t, d);
    Within(p + kind + Be16(|host|), host, more + t, d);
  }

  lemma Answers(d: seq<Byte>, skip: nat, len: nat, s: nat, host: seq<Byte>)
    requires IsTlsChello(d) && FindExtBlock(d, |d|) == skip > 0 && skip + 2 + len <= |d| && Antohs(d, skip) == len && s > 0
    requires Walk(EXT_SERVER_NAME, d, skip + 2 + len, skip + 2) == s && s + 9 + |host| <= |d|
    requires Antohs(d, s + 7) == |host| && d[s + 9..s + 9 + |host|] == host
    ensures s + 12 < |d| ==> ServerName(d) == Some(host)
  {
    assert FindExt(EXT_SERVER_NAME, d, |d|, skip) == if |d| <= skip + 2 then 0 else s;
  }

  /** What is no handshake record with a ClientHello in it has no name. */
  lemma NotHello(d: seq<Byte>)
    requires |d| <= 5 || Antohs(d, 0) != 0x1603 || d[5] != 0x01
    ensures ServerName(d) == None
  {
  }

  // -- wildcards in the new name ------------------------------------------------------------

  /** '*', '?' and '#' */
  const ANY: Byte := 0x2a
  const LETTER: Byte := 0x3f
  const DIGIT: Byte := 0x23

  const ZERO: Byte := 0x30
  const LOWER_A: Byte := 0x61
  const LOWER_Z: Byte := 0x7a

  function CopiedByte(c: Byte, r: nat): Byte {
    if c == ANY then (if r % 36 < 10 then ZERO else LOWER_A - 10) + r % 36
    else if c == LETTER then LOWER_A + r % 26
    else if c == DIGIT then ZERO + r % 10
    else c
  }

  /** The name that copy_name writes. */
  ghost function Copied(name: seq<Byte>, rand: nat -> nat): (r: seq<Byte>)
    ensures |r| == |name|
  {
    seq<Byte>(|name|, i requires 0 <= i < |name| => CopiedByte(name[i], rand(i)))
  }

  predicate IsDigit(c: Byte) {
    ZERO <= c < ZERO + 10
  }

  predicate IsLower(c: Byte) {
    LOWER_A <= c <= LOWER_Z
  }

  /** What a name and the name written for it have to do with each other. */
  ghost predicate Instance(name: seq<Byte>, host: seq<Byte>) {
    |host| == |name| && forall i :: 0 <= i < |name| ==>
      if name[i] == ANY then IsDigit(host[i]) || IsLower(host[i])
      else if name[i] == LETTER then IsLower(host[i])
      else if name[i] == DIGIT then IsDigit(host[i])
      else host[i] == name[i]
  }

  predicate NoWildcard(name: seq<Byte>) {
    ANY !in name && LETTER !in name && DIGIT !in name
  }

  lemma CopiedInstance(name: seq<Byte>, rand: nat -> nat)
    ensures Instance(name, Copied(name, rand)) && (NoWildcard(name) ==> Copied(name, rand) == name)
  {
  }

  /** A C string ends at its first zero byte. */
  predicate CString(name: seq<Byte>) {
    0 !in name
  }

  // -- the renamed ClientHello --------------------------------------------------------------

  /**
    A ClientHello that change_tls_sni is made for: one whole record, one compression method (in
    FindExtBlock), an extension list that reaches to the end, and in it a server_name with one
    host name.
  */
  ghost predicate Hello(b: seq<Byte>, skip: nat, s: nat, x: seq<Ext>) {
    && IsTlsChello(b) && |b| == Claimed(b) + 5 && |b| >= 9 && Antohs(b, 7) == |b| - 9
    && skip == FindExtBlock(b, |b|) != 0 && skip + 2 < |b| && Antohs(b, skip) == |b| - skip - 2
    && Reads(b, skip + 2, |b|, x)
    && s == FindExt(EXT_SERVER_NAME, b, |b|, skip) != 0
    && NameLen(b, s) >= 0 && s + 9 + NameLen(b, s) <= |b|
    && Antohs(b, s + 4) == NameLen(b, s) + 3 && Antohs(b, s + 7) == NameLen(b, s)
  }

  /** The length of the name in the extension at `s`. */
  function NameLen(b: seq<Byte>, s: nat): int
    requires s + 4 <= |b|
  {
    Antohs(b, s + 2) - 5
  }

  /** The body of a server_name extension; `kind` is the name type. */
  ghost function NameBody(kind: Byte, host: seq<Byte>): seq<Byte> {
    Be16(|host| + 3) + [kind] + Be16(|host|) + host
  }

  ghost function Zeros(k: nat): (r: seq<Byte>)
    ensures |r| == k
  {
    seq(k, _ => 0)
  }

  /** `k` bytes of padding, extension header included. */
  ghost function Padding(k: nat): (r: seq<Byte>)
    requires k == 0 || k >= 4
    ensures |r| == k
  {
    if k == 0 then [] else Be16(EXT_PADDING) + Be16(k - 4) + Zeros(k - 4)
  }

  /** How many bytes the padding gets when the result is to have `nn` bytes. */
  function Slack(b: seq<Byte>, s: nat, host: seq<Byte>, nn: nat): int
    requires s + 4 <= |b|
  {
    nn - |b| + NameLen(b, s) - |host|
  }

  /** The extension list of the result. */
  ghost function NewExts(b: seq<Byte>, skip: nat, s: nat, host: seq<Byte>, nn: nat): (r: seq<Byte>)
    requires skip + 2 <= s && s + 9 <= |b| && ExtEnd(b, s) <= |b|
    requires Slack(b, s, host, nn) == 0 || Slack(b, s, host, nn) >= 4
    ensures |r| == nn - skip - 2
  {
    b[skip + 2..s] + Encode(EXT_SERVER_NAME, NameBody(b[s + 6], host)) + b[ExtEnd(b, s)..] + Padding(Slack(b, s, host, nn))
  }

  /** The result: the lengths of the record, of the handshake message and of the list all end at `nn`. */
  ghost function Renamed(b: seq<Byte>, skip: nat, s: nat, host: seq<Byte>, nn: nat): (r: seq<Byte>)
    requires 9 <= skip && skip + 2 <= s && s + 9 <= |b| && ExtEnd(b, s) <= |b|
    requires Slack(b, s, host, nn) == 0 || Slack(b, s, host, nn) >= 4
    ensures |r| == nn
  {
    Patch(Patch(b[..skip], 3, Be16(nn - 5)), 7, Be16(nn - 9)) + Be16(nn - skip - 2) + NewExts(b, skip, s, host, nn)
  }

  /** What change_tls_sni is called with. */
  ghost predicate Renameable(b: seq<Byte>, skip: nat, s: nat, x: seq<Ext>, host: seq<Byte>, nn: nat) {
    && Hello(b, skip, s, x) && nn < 0x1_0000
    && (Slack(b, s, host, nn) == 0 || Slack(b, s, host, nn) >= 4)
  }

  lemma HelloPlaces(b: seq<Byte>, skip: nat, s: nat, x: seq<Ext>)
    requires Hello(b, skip, s, x)
    ensures 48 <= skip && skip + 2 <= s && s + 9 <= |b| && ExtEnd(b, s) <= |b|
    ensures Walk(EXT_SERVER_NAME, b, |b|, skip + 2) == s && Antohs(b, s) == EXT_SERVER_NAME
  {
  }

  lemma ReadFour(ab: seq<Byte>, zb: seq<Byte>, pb: seq<Byte>, typ: nat, body: seq<Byte>,
                 a: seq<Ext>, z: seq<Ext>, p: seq<Ext>)
    requires ReadExts(ab) == Some(a) && ReadExts(zb) == Some(z) && ReadExts(pb) == Some(p)
    requires typ < 0x1_0000 && |body| < 0x1_0000
    ensures ReadExts(ab + Encode(typ, body) + zb + pb) == Some(a + ([Ext(typ, body)] + (z + p)))
  {
    ReadAppend(zb, pb);
    EncodeRead(typ, body, zb + pb);
    ReadAppend(ab, Encode(typ, body) + (zb + pb));
    Assoc4(ab, Encode(typ, body), zb, pb);
  }

  lemma Assoc4(a: seq<Byte>, b: seq<Byte>, c: seq<Byte>, d: seq<Byte>)
    ensures a + b + c + d == a + (b + (c + d))
  {
  }

  /** The extensions of the result: server_name replaced, at most one padding at the end. */
  lemma RenamedExts(b: seq<Byte>, skip: nat, s: nat, x: seq<Ext>, host: seq<Byte>, nn: nat)
    returns (a: seq<Ext>, z: seq<Ext>)
    requires Renameable(b, skip, s, x, host, nn)
    ensures 9 <= skip && skip + 2 <= s && s + 9 <= |b| && ExtEnd(b, s) <= |b|
    ensures Without(a, EXT_SERVER_NAME) && x == a + [Ext(EXT_SERVER_NAME, b[s + 4..ExtEnd(b, s)])] + z
    ensures ReadExts(NewExts(b, skip, s, host, nn)) == Some(
      a + ([Ext(EXT_SERVER_NAME, NameBody(b[s + 6], host))] + (z + PaddingExt(Slack(b, s, host, nn)))))
  {
    var n, k := |b|, Slack(b, s, host, nn);
    HelloPlaces(b, skip, s, x);
    a, z := WalkSplits(EXT_SERVER_NAME, b, n, skip + 2, x);
    PaddingRead(k);
    assert b[ExtEnd(b, s)..] == b[ExtEnd(b, s)..n];
    ReadFour(b[skip + 2..s], b[ExtEnd(b, s)..], Padding(k), EXT_SERVER_NAME, NameBody(b[s + 6], host), a, z, PaddingExt(k));
  }

  ghost function PaddingExt(k: int): seq<Ext> {
    if k < 4 then [] else [Ext(EXT_PADDING, Zeros(k - 4))]
  }

  lemma PaddingRead(k: nat)
    requires k == 0 || 4 <= k < 0x1_0000
    ensures ReadExts(Padding(k)) == Some(PaddingExt(k))
  {
    if k > 0 {
      assert Padding(k) == Encode(EXT_PADDING, Zeros(k - 4)) + [];
      EncodeRead(EXT_PADDING, Zeros(k - 4), []);
      assert PaddingExt(k) + [] == PaddingExt(k);
    }
  }

  /** The bytes in front of the list, with the lengths set. */
  ghost function Heading(b: seq<Byte>, skip: nat, nn: nat): (r: seq<Byte>)
    requires 9 <= skip <= |b|
    ensures |r| == skip
  {
    Patch(Patch(b[..skip], 3, Be16(nn - 5)), 7, Be16(nn - 9))
  }

  lemma RenamedShape(b: seq<Byte>, skip: nat, s: nat, x: seq<Ext>, host: seq<Byte>, nn: nat)
    requires Renameable(b, skip, s, x, host, nn)
    ensures 48 <= skip && skip + 2 <= s && s + 9 <= |b| && ExtEnd(b, s) <= |b| && s + 9 + |host| <= nn
    ensures Renamed(b, skip, s, host, nn) == Heading(b, skip, nn) + Be16(nn - skip - 2) + b[skip + 2..s]
      + Encode(EXT_SERVER_NAME, NameBody(b[s + 6], host)) + (b[ExtEnd(b, s)..] + Padding(Slack(b, s, host, nn)))
  {
    hide Patch, Be16, Encode, NameBody, Padding, Antohs;
    HelloPlaces(b, skip, s, x);
    Regroup(Heading(b, skip, nn), Be16(nn - skip - 2), b[skip + 2..s], Encode(EXT_SERVER_NAME, NameBody(b[s + 6], host)),
            b[ExtEnd(b, s)..], Padding(Slack(b, s, host, nn)));
  }

  lemma Regroup(h: seq<Byte>, m: seq<Byte>, a: seq<Byte>, e: seq<Byte>, z: seq<Byte>, p: seq<Byte>)
    ensures h + m + (a + e + z + p) == h + m + a + e + (z + p)
  {
  }

  /** The result and the original agree in front of the name, but for the three lengths. */
  ghost predicate SameFront(b: seq<Byte>, skip: nat, s: nat, r: seq<Byte>) {
    forall k :: 0 <= k < s + 2 && k < |r| && k < |b| && !(3 <= k < 5) && !(7 <= k < 9) && !(skip <= k < skip + 2) ==>
      r[k] == b[k]
  }

  lemma RenamedFront(b: seq<Byte>, skip: nat, s: nat, x: seq<Ext>, host: seq<Byte>, nn: nat)
    requires Renameable(b, skip, s, x, host, nn)
    ensures 48 <= skip && skip + 2 <= s && s + 9 <= |b| && ExtEnd(b, s) <= |b| && s + 9 + |host| <= nn
    ensures var r := Renamed(b, skip, s, host, nn);
      r[3..5] == Be16(nn - 5) && r[7..9] == Be16(nn - 9) && r[skip..skip + 2] == Be16(nn - skip - 2)
  {
    RenamedShape(b, skip, s, x, host, nn);
    Parts(Heading(b, skip, nn), Be16(nn - skip - 2), b[skip + 2..s], Encode(EXT_SERVER_NAME, NameBody(b[s + 6], host)),
          b[ExtEnd(b, s)..] + Padding(Slack(b, s, host, nn)));
    assert Heading(b, skip, nn)[3..5] == Be16(nn - 5) && Heading(b, skip, nn)[7..9] == Be16(nn - 9);
  }

  lemma HeadingSame(b: seq<Byte>, skip: nat, nn: nat)
    requires 9 <= skip <= |b|
    ensures forall k :: 0 <= k < skip && !(3 <= k < 5) && !(7 <= k < 9) ==> Heading(b, skip, nn)[k] == b[k]
  {
  }

  lemma RenamedSame(b: seq<Byte>, skip: nat, s: nat, x: seq<Ext>, host: seq<Byte>, nn: nat)
    requires Renameable(b, skip, s, x, host, nn)
    ensures 48 <= skip && skip + 2 <= s && s + 9 <= |b| && ExtEnd(b, s) <= |b| && s + 9 + |host| <= nn
    ensures SameFront(b, skip, s, Renamed(b, skip, s, host, nn)) == true
  {
    RenamedShape(b, skip, s, x, host, nn);
    HelloPlaces(b, skip, s, x);
    var a, e, t := b[skip + 2..s], Encode(EXT_SERVER_NAME, NameBody(b[s + 6], host)),
                   b[ExtEnd(b, s)..] + Padding(Slack(b, s, host, nn));
    NameParts(b[s + 6], host);
    HeadingSame(b, skip, nn);
    Be16Antohs(b, s);
    SameParts(b, skip, s, Heading(b, skip, nn), Be16(nn - skip - 2), a, e, t);
  }

  lemma SameParts(b: seq<Byte>, skip: nat, s: nat, h: seq<Byte>, m: seq<Byte>, a: seq<Byte>, e: seq<Byte>, t: seq<Byte>)
    requires 9 <= skip == |h| && |m| == 2 && skip + 2 <= s && s + 2 <= |b| && a == b[skip + 2..s]
    requires |e| >= 2 && e[0..2] == b[s..s + 2]
    requires forall k :: 0 <= k < skip && !(3 <= k < 5) && !(7 <= k < 9) ==> h[k] == b[k]
    ensures SameFront(b, skip, s, h + m + a + e + t) == true
  {
    Parts(h, m, a, e, t);
    EncodePlaces(h + m + a, e, t);
    var r := h + m + a + e + t;
    assert r[s + 0..s + 2] == b[s..s + 2];
    forall k | 0 <= k < s + 2 && !(3 <= k < 5) && !(7 <= k < 9) && !(skip <= k < skip + 2) ensures r[k] == b[k] {
      if k >= s {
        assert r[k] == r[s..s + 2][k - s];
      } else if k >= skip + 2 {
        assert r[skip + 2 + (k - skip - 2)] == a[k - skip - 2];
      }
    }
  }

  lemma RenamedName(b: seq<Byte>, skip: nat, s: nat, x: seq<Ext>, host: seq<Byte>, nn: nat)
    requires Renameable(b, skip, s, x, host, nn)
    ensures 48 <= skip && skip + 2 <= s && s + 9 <= |b| && ExtEnd(b, s) <= |b| && s + 9 + |host| <= nn
    ensures var r := Renamed(b, skip, s, host, nn);
      && r[s..s + 9 + |host|] == Encode(EXT_SERVER_NAME, NameBody(b[s + 6], host))
      && r[s + 9 + |host|..] == b[ExtEnd(b, s)..] + Padding(Slack(b, s, host, nn))
      && r[s + 7..s + 9] == Be16(|host|) && r[s + 9..s + 9 + |host|] == host
  {
    RenamedShape(b, skip, s, x, host, nn);
    var a, e, t := b[skip + 2..s], Encode(EXT_SERVER_NAME, NameBody(b[s + 6], host)),
                   b[ExtEnd(b, s)..] + Padding(Slack(b, s, host, nn));
    NameParts(b[s + 6], host);
    EncodePlaces(Heading(b, skip, nn) + Be16(nn - skip - 2) + a, e, t);
    assert e[0..|e|] == e;
  }

  lemma Parts(h: seq<Byte>, m: seq<Byte>, a: seq<Byte>, e: seq<Byte>, t: seq<Byte>)
    requires |h| >= 9 && |m| == 2
    ensures var r := h + m + a + e + t;
      && r[3..5] == h[3..5] && r[7..9] == h[7..9] && r[|h|..|h| + 2] == m
      && (forall k :: 0 <= k < |h| ==> r[k] == h[k])
      && (forall k :: 0 <= k < |a| ==> r[|h| + 2 + k] == a[k])
  {
  }

  lemma EncodePlaces(p: seq<Byte>, e: seq<Byte>, t: seq<Byte>)
    ensures var r := p + e + t;
      && r[|p| + |e|..] == t && forall i, j :: 0 <= i <= j <= |e| ==> r[|p| + i..|p| + j] == e[i..j]
  {
  }

  lemma NameParts(kind: Byte, host: seq<Byte>)
    ensures var e := Encode(EXT_SERVER_NAME, NameBody(kind, host));
      && |e| == 9 + |host| && e[0..2] == Be16(0) && e[2..4] == Be16(|host| + 5) && e[4..6] == Be16(|host| + 3)
      && e[6..7] == [kind] && e[7..9] == Be16(|host|) && e[9..9 + |host|] == host
  {
  }

  lemma RenamedLengths(b: seq<Byte>, skip: nat, s: nat, x: seq<Ext>, host: seq<Byte>, nn: nat)
    requires Renameable(b, skip, s, x, host, nn)
    ensures 48 <= skip && skip + 2 <= s && s + 9 <= |b| && ExtEnd(b, s) <= |b| && s + 9 + |host| <= nn
    ensures var r := Renamed(b, skip, s, host, nn);
      Claimed(r) == nn - 5 && Antohs(r, 7) == nn - 9 && Antohs(r, skip) == nn - skip - 2 && Antohs(r, s + 7) == |host|
  {
    hide Renamed, Encode, NameBody, Padding, Antohs, Be16;
    RenamedFront(b, skip, s, x, host, nn);
    RenamedName(b, skip, s, x, host, nn);
    var r := Renamed(b, skip, s, host, nn);
    LengthAt(r, 3, nn - 5);
    LengthAt(r, 7, nn - 9);
    LengthAt(r, skip, nn - skip - 2);
    LengthAt(r, s + 7, |host|);
  }

  lemma LengthAt(r: seq<Byte>, i: nat, x: int)
    requires i + 2 <= |r| && r[i..i + 2] == Be16(x) && 0 <= x < 0x1_0000
    ensures Antohs(r, i) == x
  {
    AntohsBe16(r, i, x);
  }

  /** The walk ends at the same extension. */
  lemma RenamedFound(b: seq<Byte>, skip: nat, s: nat, x: seq<Ext>, host: seq<Byte>, nn: nat)
    requires Renameable(b, skip, s, x, host, nn)
    ensures 48 <= skip && skip + 2 <= s && s + 9 <= |b| && ExtEnd(b, s) <= |b| && s + 9 + |host| <= nn
    ensures var r := Renamed(b, skip, s, host, nn);
      IsTlsChello(r) && FindExtBlock(r, nn) == skip && Walk(EXT_SERVER_NAME, r, nn, skip + 2) == s
  {
    RenamedSame(b, skip, s, x, host, nn);
    HelloPlaces(b, skip, s, x);
    var r := Renamed(b, skip, s, host, nn);
    SameBlock(b, skip, s, r);
    WalkPrefix(EXT_SERVER_NAME, b, |b|, r, nn, skip + 2);
  }

  lemma SameBlock(b: seq<Byte>, skip: nat, s: nat, r: seq<Byte>)
    requires IsTlsChello(b) && skip == FindExtBlock(b, |b|) != 0 && skip + 2 <= s <= |b| && s <= |r|
    requires SameFront(b, skip, s, r)
    ensures IsTlsChello(r) && FindExtBlock(r, |r|) == skip
  {
    var at := 44 + b[43] as int;
    assert r[43] == b[43] && r[at] == b[at] && r[at + 1] == b[at + 1];
    assert r[0] == b[0] && r[1] == b[1] && r[5] == b[5];
  }

  /**
    The result is a ClientHello again whose three lengths end at `nn`, and parse_tls finds the
    new host in it.
  */
  lemma RenamedParses(b: seq<Byte>, skip: nat, s: nat, x: seq<Ext>, host: seq<Byte>, nn: nat)
    requires Renameable(b, skip, s, x, host, nn) && s + 12 < nn
    ensures 9 <= skip && skip + 2 <= s && s + 9 <= |b| && ExtEnd(b, s) <= |b|
    ensures var r := Renamed(b, skip, s, host, nn);
      && IsTlsChello(r) && |r| == nn == Claimed(r) + 5 == Antohs(r, 7) + 9
      && FindExtBlock(r, nn) == skip && Antohs(r, skip) == nn - skip - 2
      && ServerName(r) == Some(host)
  {
    RenamedLengths(b, skip, s, x, host, nn);
    RenamedFound(b, skip, s, x, host, nn);
    RenamedName(b, skip, s, x, host, nn);
    Named(Renamed(b, skip, s, host, nn), skip, s, host);
  }

  lemma Named(r: seq<Byte>, skip: nat, s: nat, host: seq<Byte>)
    requires IsTlsChello(r) && FindExtBlock(r, |r|) == skip != 0 && skip + 2 < |r| && Antohs(r, skip) == |r| - skip - 2
    requires Walk(EXT_SERVER_NAME, r, |r|, skip + 2) == s > 0 && s + 9 + |host| <= |r| && s + 12 < |r|
    requires Antohs(r, s + 7) == |host| && r[s + 9..s + 9 + |host|] == host
    ensures ServerName(r) == Some(host)
  {
  }

  // -- change_tls_sni in place --------------------------------------------------------------

  /** How far the bytes behind the name move: to the front if positive. */
  function Shift(b: seq<Byte>, s: nat, h: nat): int
    requires s + 4 <= |b|
  {
    NameLen(b, s) - h
  }

  /** The extension at `s` holds a name and lies in the buffer. */
  predicate HasName(b: seq<Byte>, s: nat) {
    s + 9 <= |b| && NameLen(b, s) >= 0 && s + 9 + NameLen(b, s) <= |b|
  }

  /** How many bytes are in use when it holds a name of `h` bytes: never fewer than there were. */
  function Used(b: seq<Byte>, s: nat, h: nat): nat
    requires s + 4 <= |b|
  {
    if h <= NameLen(b, s) then |b| else |b| + h - NameLen(b, s)
  }

  /** These bytes after resize_sni and copy_name; if the name got shorter the last bytes are there once more. */
  ghost function WithName(b: seq<Byte>, s: nat, host: seq<Byte>): (r: seq<Byte>)
    requires HasName(b, s)
    ensures |r| == Used(b, s, |host|)
  {
    b[..s] + Encode(EXT_SERVER_NAME, NameBody(b[s + 6], host)) + b[ExtEnd(b, s)..]
      + if |host| <= NameLen(b, s) then b[|b| - Shift(b, s, |host|)..] else []
  }

  /** The bytes where a name of `h` bytes will be. */
  ghost function OldName(b: seq<Byte>, s: nat, h: nat): (r: seq<Byte>)
    requires s + 9 + h <= |b|
    ensures |r| == h
  {
    b[s + 9..s + 9 + h]
  }

  /** Byte `k` of that. */
  ghost function NameByte(b: seq<Byte>, s: nat, host: seq<Byte>, k: nat): Byte
    requires HasName(b, s) && k < Used(b, s, |host|)
  {
    var h, d := |host|, Shift(b, s, |host|);
    if k < s then b[k]
    else if k < s + 2 then 0
    else if k < s + 4 then Be16(h + 5)[k - s - 2]
    else if k < s + 6 then Be16(h + 3)[k - s - 4]
    else if k == s + 6 then b[s + 6]
    else if k < s + 9 then Be16(h)[k - s - 7]
    else if k < s + 9 + h then host[k - s - 9]
    else if k < |b| - d then b[k + d]
    else b[k]
  }

  lemma WithNameBytes(b: seq<Byte>, s: nat, host: seq<Byte>)
    requires HasName(b, s)
    ensures forall k :: 0 <= k < Used(b, s, |host|) ==> WithName(b, s, host)[k] == NameByte(b, s, host, k)
  {
    var e := Encode(EXT_SERVER_NAME, NameBody(b[s + 6], host));
    forall k | 0 <= k < 9 + |host| ensures e[k] == NameByte(b, s, host, s + k) {
    }
  }

  /** What resize_sni makes of the buffer `w`, `n` bytes of which are in use. */
  ghost function Resized(w: seq<Byte>, n: nat, s: nat, h: nat): (r: seq<Byte>)
    requires n <= |w| && HasName(w[..n], s) && |w| == Used(w[..n], s, h)
    ensures |r| == |w|
  {
    Moved(Patch(Patch(Patch(w, s + 2, Be16(h + 5)), s + 4, Be16(h + 3)), s + 7, Be16(h)), n, s + 9 + h, ExtEnd(w, s))
  }

  /** What is in use behind `src` moved to `dst`. */
  ghost function Moved(w: seq<Byte>, n: nat, dst: nat, src: nat): (r: seq<Byte>)
    requires src <= n <= |w| && dst + n - src <= |w|
    ensures |r| == |w|
  {
    Patch(w, dst, w[src..n])
  }

  lemma ResizedName(w: seq<Byte>, n: nat, s: nat, h: nat)
    requires n <= |w| && HasName(w[..n], s) && |w| == Used(w[..n], s, h) && w[s] == 0 && w[s + 1] == 0
    ensures s + 9 + h <= |w| && Resized(w, n, s, h) == WithName(w[..n], s, OldName(w, s, h))
  {
    hide WithName, Antohs, HasName;
    NameFits(w, n, s, h);
    WithNameBytes(w[..n], s, OldName(w, s, h));
    forall k | 0 <= k < |w| ensures Resized(w, n, s, h)[k] == NameByte(w[..n], s, OldName(w, s, h), k) {
      ResizedByte(w, n, s, h, k);
    }
  }

  lemma ResizedByte(w: seq<Byte>, n: nat, s: nat, h: nat, k: nat)
    requires n <= |w| && HasName(w[..n], s) && |w| == Used(w[..n], s, h) && w[s] == 0 && w[s + 1] == 0 && k < |w|
    ensures s + 9 + h <= |w| && Resized(w, n, s, h)[k] == NameByte(w[..n], s, OldName(w, s, h), k)
  {
    hide Antohs, HasName, Be16, Patch;
    NameFits(w, n, s, h);
  }

  lemma NameFits(w: seq<Byte>, n: nat, s: nat, h: nat)
    requires n <= |w| && HasName(w[..n], s) && |w| == Used(w[..n], s, h)
    ensures s + 9 + h <= |w| && s + 9 <= n && NameLen(w[..n], s) == NameLen(w, s) >= 0 && s + 9 + NameLen(w, s) <= n
  {
  }

  /** With the old name in full nothing has changed. */
  lemma FullName(b: seq<Byte>, s: nat)
    requires HasName(b, s) && b[s] == 0 && b[s + 1] == 0
    requires Antohs(b, s + 4) == NameLen(b, s) + 3 && Antohs(b, s + 7) == NameLen(b, s)
    ensures WithName(b, s, OldName(b, s, NameLen(b, s))) == b
  {
    Be16Antohs(b, s + 2);
    Be16Antohs(b, s + 4);
    Be16Antohs(b, s + 7);
    WithNameBytes(b, s, OldName(b, s, NameLen(b, s)));
  }

  /** The name is written over what was there. */
  lemma CopiedName(b: seq<Byte>, s: nat, name: seq<Byte>, host: seq<Byte>)
    requires HasName(b, s) && |name| == |host|
    ensures s + 9 + |host| <= Used(b, s, |host|)
    ensures Patch(WithName(b, s, name), s + 9, host) == WithName(b, s, host)
  {
    WithNameBytes(b, s, name);
    WithNameBytes(b, s, host);
  }

  /** What holds of the record holds in a buffer that begins with it. */
  lemma InBuffer(b: seq<Byte>, w: seq<Byte>, skip: nat, s: nat, x: seq<Ext>)
    requires Hello(b, skip, s, x) && b <= w
    ensures 48 <= skip && skip + 2 <= s && HasName(b, s) && HasName(w, s) && ExtEnd(w, s) == ExtEnd(b, s) <= |b|
    ensures NameLen(w, s) == NameLen(b, s) && Antohs(w, s + 2) == Antohs(b, s + 2) && w[s] == 0 && w[s + 1] == 0
    ensures Antohs(w, s + 4) == NameLen(w, s) + 3 && Antohs(w, s + 7) == NameLen(w, s)
    ensures Antohs(w, skip) == |b| - skip - 2 && Walk(EXT_SERVER_NAME, b, |b|, skip + 2) == s
  {
    hide Reads, FindExtBlock, FindExt, IsTlsChello;
    HelloPlaces(b, skip, s, x);
    Be16Antohs(b, s);
  }

  /** What is in front of the name and what the name leaves is as it was, so the walk ends there again. */
  lemma FoundAgain(b: seq<Byte>, w: seq<Byte>, skip: nat, s: nat, x: seq<Ext>, name: seq<Byte>)
    requires Hello(b, skip, s, x) && b <= w && HasName(w, s) && |name| <= NameLen(w, s)
    ensures FindExt(EXT_SERVER_NAME, WithName(w, s, name), |w|, skip) == s
  {
    hide Hello;
    InBuffer(b, w, skip, s, x);
    var d := WithName(w, s, name);
    WithNameBytes(w, s, name);
    Be16Antohs(w, s);
    assert Antohs(d, skip) == Antohs(w, skip);
    WalkPrefix(EXT_SERVER_NAME, b, |b|, d, |b|, skip + 2);
  }

  lemma HelloBlock(b: seq<Byte>, skip: nat, s: nat, x: seq<Ext>)
    requires Hello(b, skip, s, x)
    ensures IsTlsChello(b) && skip == FindExtBlock(b, |b|)
  {
  }

  /** The lookups find it in that buffer. */
  lemma LocatedIn(b: seq<Byte>, w: seq<Byte>, skip: nat, s: nat, x: seq<Ext>)
    requires Hello(b, skip, s, x) && b <= w
    ensures Located(w) == Some((skip, s, Antohs(b, s + 2)))
  {
    hide Hello, FindExtBlock, HasName, Walk;
    InBuffer(b, w, skip, s, x);
    HelloBlock(b, skip, s, x);
    SameBlock(b, skip, s, w);
    NameIn(b, s);
    WalkPrefix(EXT_SERVER_NAME, b, |b|, w, |b|, skip + 2);
  }

  /** The name, what follows it, and the padding. */
  ghost function Padded(b: seq<Byte>, s: nat, host: seq<Byte>, nn: nat): (r: seq<Byte>)
    requires s + 9 <= |b| && ExtEnd(b, s) <= |b| && (Slack(b, s, host, nn) == 0 || Slack(b, s, host, nn) >= 4)
    ensures |r| == nn
  {
    b[..s] + Encode(EXT_SERVER_NAME, NameBody(b[s + 6], host)) + (b[ExtEnd(b, s)..] + Padding(Slack(b, s, host, nn)))
  }

  lemma PatchFront(h: seq<Byte>, t: seq<Byte>, at: nat, x: seq<Byte>)
    requires at + |x| <= |h|
    ensures Patch(h + t, at, x) == Patch(h, at, x) + t
  {
  }

  lemma PatchMiddle(h: seq<Byte>, m: seq<Byte>, t: seq<Byte>, x: seq<Byte>)
    requires |x| == |m|
    ensures Patch(h + m + t, |h|, x) == h + x + t
  {
  }

  lemma PaddedShape(b: seq<Byte>, skip: nat, s: nat, host: seq<Byte>, nn: nat)
    requires 9 <= skip && skip + 2 <= s && s + 9 <= |b| && ExtEnd(b, s) <= |b|
    requires Slack(b, s, host, nn) == 0 || Slack(b, s, host, nn) >= 4
    ensures Padded(b, s, host, nn) == b[..skip] + b[skip..skip + 2] + NewExts(b, skip, s, host, nn)
  {
    hide Slack, Encode, NameBody, Padding, Antohs;
    assert b[..s] == b[..skip] + b[skip..skip + 2] + b[skip + 2..s];
    Regrouped(b[..skip] + b[skip..skip + 2], b[skip + 2..s], Encode(EXT_SERVER_NAME, NameBody(b[s + 6], host)),
              b[ExtEnd(b, s)..], Padding(Slack(b, s, host, nn)));
  }

  lemma Regrouped(h: seq<Byte>, a: seq<Byte>, e: seq<Byte>, z: seq<Byte>, p: seq<Byte>)
    ensures h + a + e + (z + p) == h + (a + e + z + p)
  {
  }

  /** The three lengths make it the result. */
  lemma LengthsSet(b: seq<Byte>, skip: nat, s: nat, host: seq<Byte>, nn: nat)
    requires 9 <= skip && skip + 2 <= s && s + 9 <= |b| && ExtEnd(b, s) <= |b|
    requires Slack(b, s, host, nn) == 0 || Slack(b, s, host, nn) >= 4
    ensures Patch(Patch(Patch(Padded(b, s, host, nn), 3, Be16(nn - 5)), 7, Be16(nn - 9)), skip, Be16(nn - skip - 2))
      == Renamed(b, skip, s, host, nn)
  {
    var h, m, e := b[..skip], b[skip..skip + 2], NewExts(b, skip, s, host, nn);
    PaddedShape(b, skip, s, host, nn);
    Assoc(h, m, e);
    PatchFront(h, m + e, 3, Be16(nn - 5));
    PatchFront(Patch(h, 3, Be16(nn - 5)), m + e, 7, Be16(nn - 9));
    var h' := Patch(Patch(h, 3, Be16(nn - 5)), 7, Be16(nn - 9));
    Assoc(h', m, e);
    PatchMiddle(h', m, e, Be16(nn - skip - 2));
  }

  // -- writes to the first `n` bytes of the buffer

  method PutLength(buffer: array<Byte>, n: nat, i: nat, x: int)
    requires i + 2 <= n <= buffer.Length
    modifies buffer
    ensures buffer[..n] == Patch(old(buffer[..n]), i, Be16(x)) && buffer[n..] == old(buffer[n..])
  {
    ghost var w := buffer[..];
    assert w[..n] == buffer[..n] && w[n..] == buffer[n..];
    Shtona(buffer, i, x);
    assert buffer[..n] == buffer[..][..n] && buffer[n..] == buffer[..][n..];
  }

  method MoveIn(buffer: array<Byte>, m: nat, n: nat, dst: nat, src: nat)
    requires src <= n <= m <= buffer.Length && dst + n - src <= m
    modifies buffer
    ensures buffer[..m] == Moved(old(buffer[..m]), n, dst, src) && buffer[m..] == old(buffer[m..])
  {
    ghost var w := buffer[..];
    assert w[..m] == buffer[..m] && w[m..] == buffer[m..] && w[src..n] == buffer[..m][src..n];
    Memmove(buffer, dst, src, n - src);
    assert buffer[..] == Patch(w, dst, w[src..n]);
    assert buffer[..m] == buffer[..][..m] && buffer[m..] == buffer[..][m..];
  }

  /** copy_name; `rand(i)` is what rand() returns for byte `i`. */
  method CopyName(buffer: array<Byte>, n: nat, at: nat, name: seq<Byte>, rand: nat -> nat)
    requires at + |name| <= n <= buffer.Length
    modifies buffer
    ensures buffer[..n] == Patch(old(buffer[..n]), at, Copied(name, rand)) && buffer[n..] == old(buffer[n..])
  {
    ghost var w := buffer[..];
    assert w[..n] == buffer[..n] && w[n..] == buffer[n..];
    WriteName(buffer, at, name, rand);
    assert buffer[..n] == buffer[..][..n] && buffer[n..] == buffer[..][n..];
  }

  method WriteName(buffer: array<Byte>, at: nat, name: seq<Byte>, rand: nat -> nat)
    requires at + |name| <= buffer.Length
    modifies buffer
    ensures buffer[..] == Patch(old(buffer[..]), at, Copied(name, rand))
  {
    hide Copied;
    ghost var w, c := buffer[..], Copied(name, rand);
    for i := 0 to |name|
      invariant buffer[..] == Patch(w, at, c[..i])
    {
      var r := CopyByte(name[i], rand(i));
      CopiedAt(name, rand, i);
      PatchMore(w, at, c, i);
      ghost var before := buffer[..];
      buffer[at + i] := r;
      assert buffer[..] == before[at + i := r];
    }
    assert c[..|name|] == c;
  }

  lemma CopiedAt(name: seq<Byte>, rand: nat -> nat, i: nat)
    requires i < |name|
    ensures Copied(name, rand)[i] == CopiedByte(name[i], rand(i))
  {
  }

  lemma PatchMore(w: seq<Byte>, at: nat, c: seq<Byte>, i: nat)
    requires i < |c| && at + |c| <= |w|
    ensures Patch(w, at, c[..i])[at + i := c[i]] == Patch(w, at, c[..i + 1])
  {
  }

  /** One byte of it; `random` is what rand() returns. */
  method CopyByte(c: Byte, random: nat) returns (out: Byte)
    ensures out == CopiedByte(c, random)
  {
    if c == ANY {
      var r := random % (10 + LOWER_Z - LOWER_A + 1);
      out := (if r < 10 then ZERO else LOWER_A - 10) + r;
    } else if c == LETTER {
      out := LOWER_A + random % (LOWER_Z - LOWER_A + 1);
    } else if c == DIGIT {
      out := ZERO + random % 10;
    } else {
      out := c;
    }
  }

  /** resize_sni, with `m` for the bytes that are in use before or afterwards. */
  method ResizeSni(buffer: array<Byte>, n: nat, m: nat, s: nat, sniSz: nat, newSz: nat)
    requires n <= m <= buffer.Length && HasName(buffer[..n], s) && m == Used(buffer[..n], s, newSz)
    requires sniSz == Antohs(buffer[..n], s + 2)
    modifies buffer
    ensures buffer[..m] == Resized(old(buffer[..m]), n, s, newSz) && buffer[m..] == old(buffer[m..])
  {
    hide Patch, Resized, Moved, Be16, Antohs, HasName;
    ghost var w := buffer[..m];
    assert w[..n] == buffer[..n];
    NameFits(w, n, s, newSz);
    PutLength(buffer, m, s + 2, newSz + 5);
    ghost var w1 := buffer[..m];
    PutLength(buffer, m, s + 4, newSz + 3);
    ghost var w2 := buffer[..m];
    PutLength(buffer, m, s + 7, newSz);
    ghost var w3 := buffer[..m];
    assert w3 == Patch(Patch(Patch(w, s + 2, Be16(newSz + 5)), s + 4, Be16(newSz + 3)), s + 7, Be16(newSz));

    var sniEnd := s + 4 + sniSz;
    var dst := sniEnd + newSz - (sniSz - 5);
    assert sniEnd == ExtEnd(w, s) && dst == s + 9 + newSz;
    MoveIn(buffer, m, n, dst, sniEnd);
    ResizedBy(w, n, s, newSz, w3, dst, sniEnd);
  }

  lemma ResizedBy(b: seq<Byte>, n: nat, s: nat, h: nat, w: seq<Byte>, dst: nat, src: nat)
    requires n <= |b| && HasName(b[..n], s) && |b| == Used(b[..n], s, h) && |w| == |b|
    requires s + 9 + h <= |b| && w == Patch(Patch(Patch(b, s + 2, Be16(h + 5)), s + 4, Be16(h + 3)), s + 7, Be16(h))
    requires dst == s + 9 + h && src == ExtEnd(b, s) && src <= n && dst + n - src <= |w|
    ensures Moved(w, n, dst, src) == Resized(b, n, s, h)
  {
    hide Patch, Moved, Be16, Antohs;
  }

  /**
    resize_ech_ext on a buffer in which no encrypted_client_hello extension is found. What it does
    with one is not part of this model.
  */
  method ResizeEchExt(data: seq<Byte>, skip: nat) returns (inc: int)
    requires FindExt(EXT_ECH, data, |data|, skip) == 0
    ensures inc == 0
  {
    var echOffs := FindTlsExtOffset(EXT_ECH, data, |data|, skip);
    assert echOffs == 0;
    return 0;
  }

  /** The name that is there when there is room for padding: the old one, cut if it is too long. */
  ghost function Cut(b: seq<Byte>, s: nat, h: nat): seq<Byte>
    requires HasName(b, s)
  {
    OldName(b, s, if h <= NameLen(b, s) then h else NameLen(b, s))
  }

  /** The walks for an encrypted_client_hello find none, with the old name and with the new one. */
  ghost predicate EchFree(b: seq<Byte>, skip: nat, s: nat, host: seq<Byte>)
    requires HasName(b, s)
  {
    && FindExt(EXT_ECH, WithName(b, s, Cut(b, s, |host|)), |b|, skip) == 0
    && FindExt(EXT_ECH, WithName(b, s, host)[..|b|], |b|, skip) == 0
  }

  /** It is enough that the first byte of that type does not occur. */
  lemma NoFirstByte(b: seq<Byte>, skip: nat, s: nat, host: seq<Byte>)
    requires HasName(b, s) && |host| < 0xfd00
    requires 0xfe !in b && 0xfe !in host
    requires |host| % 256 != 0xfe && (|host| + 3) % 256 != 0xfe && (|host| + 5) % 256 != 0xfe
    requires b[s] == 0 && b[s + 1] == 0 && Antohs(b, s + 4) == NameLen(b, s) + 3 && Antohs(b, s + 7) == NameLen(b, s)
    ensures EchFree(b, skip, s, host)
  {
    if |host| <= NameLen(b, s) {
      NameWithout(b, s, Cut(b, s, |host|));
    } else {
      FullName(b, s);
    }
    NameWithout(b, s, host);
    NotFound(EXT_ECH, WithName(b, s, Cut(b, s, |host|)), |b|, skip);
    NotFound(EXT_ECH, WithName(b, s, host)[..|b|], |b|, skip);
  }

  lemma ByteWithout(b: seq<Byte>, s: nat, name: seq<Byte>, k: nat)
    requires HasName(b, s) && |name| < 0xfd00 && 0xfe !in b && 0xfe !in name && k < |b|
    requires |name| % 256 != 0xfe && (|name| + 3) % 256 != 0xfe && (|name| + 5) % 256 != 0xfe
    ensures NameByte(b, s, name, k) != 0xfe
  {
    hide Antohs;
  }

  lemma NameWithout(b: seq<Byte>, s: nat, name: seq<Byte>)
    requires HasName(b, s) && |name| < 0xfd00
    requires 0xfe !in b && 0xfe !in name
    requires |name| % 256 != 0xfe && (|name| + 3) % 256 != 0xfe && (|name| + 5) % 256 != 0xfe
    ensures NoPair(WithName(b, s, name)[..|b|], EXT_ECH) && (|name| <= NameLen(b, s) ==> NoPair(WithName(b, s, name), EXT_ECH))
  {
    hide WithName, NameByte, HasName;
    NameIn(b, s);
    WithNameBytes(b, s, name);
    var r := WithName(b, s, name);
    forall k | 0 <= k < |b| - 1 ensures Antohs(r[..|b|], k) != EXT_ECH {
      ByteWithout(b, s, name, k);
      assert r[k] == NameByte(b, s, name, k) != 0xfe;
    }
    if |name| <= NameLen(b, s) {
      assert r[..|b|] == r;
    }
  }

  /** The padding behind the list, and the three lengths. `w` is what `buffer` began with, `b` the record in front of it. */
  method SetLengths(buffer: array<Byte>, nn: nat, skip: nat, avail: nat,
                    ghost b: seq<Byte>, ghost w: seq<Byte>, ghost s: nat, ghost host: seq<Byte>)
    requires 9 <= skip && skip + 2 <= s && b <= w && HasName(b, s) && HasName(w, s)
    requires avail == Slack(b, s, host, nn) && (avail == 0 || avail >= 4)
    requires nn <= buffer.Length && Used(w, s, |host|) <= buffer.Length
    requires buffer[..Used(w, s, |host|)] == WithName(w, s, host)
    modifies buffer
    ensures buffer[..nn] == Renamed(b, skip, s, host, nn)
  {
    hide WithName, Renamed, Padding, Patch, Be16, NameBody, Encode, HasName;
    NameIn(b, s);
    AllButLast(b, w, s, host);
    ghost var v, rest := buffer[..], b[..s] + Encode(EXT_SERVER_NAME, NameBody(b[s + 6], host)) + b[ExtEnd(b, s)..];
    var at := nn - avail;
    assert |rest| == at;
    assert v[..at] == buffer[..Used(w, s, |host|)][..at] == rest;
    if avail >= 4 {
      WritePadding(buffer, at, avail);
    }
    assert buffer[..nn] == rest + Padding(avail);
    assert buffer[..nn] == Padded(b, s, host, nn);
    PutLength(buffer, nn, 3, nn - 5);
    PutLength(buffer, nn, 7, nn - 9);
    PutLength(buffer, nn, skip, nn - skip - 2);
    LengthsSet(b, skip, s, host, nn);
  }

  lemma NameIn(b: seq<Byte>, s: nat)
    requires HasName(b, s)
    ensures s + 9 <= |b| && NameLen(b, s) >= 0 && ExtEnd(b, s) == s + 9 + NameLen(b, s) <= |b|
  {
  }

  /** The record with the new name comes first, stale bytes only behind it. */
  lemma AllButLast(b: seq<Byte>, w: seq<Byte>, s: nat, host: seq<Byte>)
    requires b <= w && HasName(b, s) && HasName(w, s)
    ensures s + 9 <= |b| && ExtEnd(b, s) <= |b|
    ensures var rest := b[..s] + Encode(EXT_SERVER_NAME, NameBody(b[s + 6], host)) + b[ExtEnd(b, s)..];
      |rest| == |b| - Shift(b, s, |host|) <= Used(w, s, |host|) && WithName(w, s, host)[..|rest|] == rest
  {
    var e := Encode(EXT_SERVER_NAME, NameBody(b[s + 6], host));
    NameParts(b[s + 6], host);
    assert NameLen(w, s) == NameLen(b, s);
    assert b[..s] == w[..s] && b[s + 6] == w[s + 6];
    FrontOf(b[..s] + e, b[ExtEnd(b, s)..], w[ExtEnd(b, s)..],
            if |host| <= NameLen(b, s) then w[|w| - Shift(w, s, |host|)..] else []);
  }

  lemma FrontOf(p: seq<Byte>, q: seq<Byte>, q': seq<Byte>, r: seq<Byte>)
    requires q <= q'
    ensures (p + q' + r)[..|p| + |q|] == p + q
  {
  }

  method WritePadding(buffer: array<Byte>, at: nat, avail: nat)
    requires 4 <= avail && at + avail <= buffer.Length
    modifies buffer
    ensures buffer[..at + avail] == old(buffer[..at]) + Padding(avail)
  {
    hide Antohs, Patch;
    ghost var w := buffer[..at];
    PutLength(buffer, at + avail, at, EXT_PADDING);
    PutLength(buffer, at + avail, at + 2, avail - 4);
    ghost var v := buffer[..at + 4];
    assert v == w + (Be16(EXT_PADDING) + Be16(avail - 4));
    forall i | at + 4 <= i < at + avail {
      buffer[i] := 0;
    }
    assert buffer[..at + avail] == v + Zeros(avail - 4);
    Assoc(w, Be16(EXT_PADDING) + Be16(avail - 4), Zeros(avail - 4));
  }

  /** The lookups of change_tls_sni: the list, the extension and its size. */
  method Locate(b: seq<Byte>) returns (r: Option<(nat, nat, nat)>)
    ensures r == Located(b)
  {
    var skip := FindExtBlock(b, |b|);
    if skip == 0 {
      return None;
    }
    var sniOffs := FindTlsExtOffset(EXT_SERVER_NAME, b, |b|, skip);
    if sniOffs == 0 {
      return None;
    }
    var sniSz := Antohs(b, sniOffs + 2);
    if sniOffs + 4 + sniSz > |b| {
      return None;
    }
    return Some((skip, sniOffs, sniSz));
  }

  function Located(b: seq<Byte>): Option<(nat, nat, nat)> {
    var skip := FindExtBlock(b, |b|);
    if skip == 0 then None
    else
      var s := FindExt(EXT_SERVER_NAME, b, |b|, skip);
      if s == 0 || s + 4 + Antohs(b, s + 2) > |b| then None else Some((skip, s, Antohs(b, s + 2)))
  }

  /** The old name, cut if it is too long and there is room for padding. */
  ghost function Kept(b: seq<Byte>, s: nat, h: nat, slack: int): seq<Byte>
    requires HasName(b, s)
  {
    if slack > 0 then Cut(b, s, h) else OldName(b, s, NameLen(b, s))
  }

  /** The first half: the extension shrinks at once if there is room for padding. */
  method MakeRoom(buffer: array<Byte>, n: nat, skip: nat, s: nat, sniSz: nat, newSz: nat, slack: int,
                  ghost b: seq<Byte>, ghost w: seq<Byte>, ghost x: seq<Ext>, ghost host: seq<Byte>)
    returns (avail: int, diff: int)
    requires n <= buffer.Length && w == buffer[..n] && b <= w && Hello(b, skip, s, x) == true && HasName(w, s)
    requires newSz == |host| && sniSz == Antohs(w, s + 2) && slack >= 0
    requires slack > 0 ==> EchFree(w, skip, s, host) == true
    modifies buffer
    ensures avail == slack && diff == if slack > 0 && newSz < NameLen(w, s) then 0 else newSz - NameLen(w, s)
    ensures buffer[..n] == WithName(w, s, Kept(w, s, newSz, slack)) && buffer[n..] == old(buffer[n..])
  {
    hide WithName, FindExt, OldName, Reads, FindExtBlock, HasName, Hello;
    InBuffer(b, w, skip, s, x);
    NameIn(w, s);
    FullName(w, s);
    avail, diff := slack, newSz - (sniSz - 5);
    if diff < 0 && avail > 0 {
      Resize(buffer, n, n, s, sniSz, newSz);
      diff := 0;
    }
    assert buffer[..n] == WithName(w, s, Kept(w, s, newSz, slack));
    if avail != 0 {
      var inc := ResizeEchExt(buffer[..n], skip);
      avail := avail - inc;
    }
  }

  /** The second half: the extension is looked up again, resized if it has not been yet, and named. */
  method PutName(buffer: array<Byte>, n: nat, m: nat, skip: nat, sniSz: nat, name: seq<Byte>, rand: nat -> nat, diff: int,
                 slack: int, ghost b: seq<Byte>, ghost w: seq<Byte>, ghost s: nat, ghost x: seq<Ext>)
    requires n == |w| && n <= m <= buffer.Length && b <= w && Hello(b, skip, s, x) == true && HasName(w, s)
    requires m == Used(w, s, |name|) && sniSz == Antohs(w, s + 2)
    requires diff == if slack > 0 && |name| < NameLen(w, s) then 0 else |name| - NameLen(w, s)
    requires buffer[..n] == WithName(w, s, Kept(w, s, |name|, slack))
    modifies buffer
    ensures buffer[..m] == WithName(w, s, Copied(name, rand))
  {
    hide FindExt, Copied, WithName, Patch, OldName, HasName, Hello;
    InBuffer(b, w, skip, s, x);
    NameIn(w, s);
    FullName(w, s);
    FoundAgain(b, w, skip, s, x, Kept(w, s, |name|, slack));
    var sniOffs := FindTlsExtOffset(EXT_SERVER_NAME, buffer[..n], n, skip);
    ghost var there := Kept(w, s, |name|, slack);
    if diff != 0 {
      assert buffer[..n] == w;
      there := OldName(buffer[..m], s, |name|);
      Resize(buffer, n, m, sniOffs, sniSz, |name|);
    }
    CopiedName(w, s, there, Copied(name, rand));
    CopyName(buffer, m, sniOffs + 9, name, rand);
  }

  /** resize_sni for the name in the extension at `s`. */
  method Resize(buffer: array<Byte>, n: nat, m: nat, s: nat, sniSz: nat, newSz: nat)
    requires n <= m <= buffer.Length && HasName(buffer[..n], s) && m == Used(buffer[..n], s, newSz)
    requires sniSz == Antohs(buffer[..n], s + 2) && buffer[..n][s] == 0 && buffer[..n][s + 1] == 0
    modifies buffer
    ensures s + 9 + newSz <= m
    ensures buffer[..m] == WithName(old(buffer[..n]), s, OldName(old(buffer[..m]), s, newSz))
    ensures buffer[m..] == old(buffer[m..])
  {
    hide Resized, WithName, OldName;
    ghost var w := buffer[..m];
    assert w[..n] == buffer[..n];
    ResizedName(w, n, s, newSz);
    ResizeSni(buffer, n, m, s, sniSz, newSz);
  }

  /** What the buffer of change_tls_sni holds once the fragments of `b` are joined. */
  ghost function Merged(b: seq<Byte>, cuts: seq<nat>): (w: seq<Byte>)
    requires CutsOf(b, cuts)
    ensures |w| == |b| + 5 * |cuts|
  {
    b + Repeat(LastFive(b, cuts), |cuts|)
  }

  /**
    What change_tls_sni is called with: a ClientHello `b`, whole or in fragments, with nothing behind
    it, and a name (wildcards filled in) for which `nn` bytes suffice.
  */
  ghost predicate Callable(d: seq<Byte>, b: seq<Byte>, cuts: seq<nat>, skip: nat, s: nat, x: seq<Ext>, host: seq<Byte>, nn: nat) {
    && Joinable(d, b, cuts) && Renameable(b, skip, s, x, host, nn) && HasName(Merged(b, cuts), s)
    && (Slack(b, s, host, nn) > 0 ==> EchFree(Merged(b, cuts), skip, s, host))
  }

  /**
    change_tls_sni: the ClientHello `b` in `buffer[..n]` is joined to one record and gets the name
    `name`, with its wildcards filled in, and the length `nn`. Given such a ClientHello, and room in
    the buffer to move what follows the name, the function always succeeds.
  */
  method ChangeTlsSni(name: seq<Byte>, buffer: array<Byte>, n: nat, nn: nat, rand: nat -> nat,
                      ghost b: seq<Byte>, ghost cuts: seq<nat>, ghost skip: nat, ghost s: nat, ghost x: seq<Ext>)
    returns (r: int)
    requires CString(name) && n <= buffer.Length && nn <= buffer.Length
    requires Callable(buffer[..n], b, cuts, skip, s, x, Copied(name, rand), nn)
    requires Used(Merged(b, cuts), s, |name|) <= buffer.Length
    modifies buffer
    ensures r == 0 && 9 <= skip && skip + 2 <= s && s + 9 <= |b| && ExtEnd(b, s) <= |b|
    ensures buffer[..nn] == Renamed(b, skip, s, Copied(name, rand), nn)
  {
    hide Renamed, Copied, WithName, Reads, FindExtBlock, FindExt, OldName, Hello, HasName, EchFree, CutsOf, Split, Used,
      Repeat, LastFive, Located;
    ghost var w, host := Merged(b, cuts), Copied(name, rand);
    var merged := MergeHello(buffer, n, b, cuts, skip, s, x);
    InBuffer(b, w, skip, s, x);
    LocatedIn(b, w, skip, s, x);
    NameIn(b, s);
    var avail := merged + (nn - n);
    var at := Locate(buffer[..n]);
    if at.None? {
      return -1;
    }
    var (block, sniOffs, sniSz) := at.value;
    var diff := |name| - (sniSz - 5);
    avail := avail - diff;
    assert avail == Slack(b, s, host, nn);
    avail, diff := MakeRoom(buffer, n, block, sniOffs, sniSz, |name|, avail, b, w, x, host);
    var m := UsedBy(n, sniSz, |name|, w, s);
    PutName(buffer, n, m, block, sniSz, name, rand, diff, avail, b, w, s, x);
    if avail > 0 {
      StillEchFree(w, block, s, host, buffer[..m], buffer[..n]);
      var inc := ResizeEchExt(buffer[..n], block);
      avail := avail - inc;
    }
    SetLengths(buffer, nn, block, avail, b, w, s, host);
    return 0;
  }

  method UsedBy(n: nat, sniSz: nat, h: nat, ghost w: seq<Byte>, ghost s: nat) returns (m: nat)
    requires n == |w| && HasName(w, s) && sniSz == Antohs(w, s + 2)
    ensures m == Used(w, s, h) && n <= m
  {
    m := if h <= sniSz - 5 then n else n + h - (sniSz - 5);
  }

  lemma StillEchFree(w: seq<Byte>, skip: nat, s: nat, host: seq<Byte>, v: seq<Byte>, d: seq<Byte>)
    requires HasName(w, s) && EchFree(w, skip, s, host) && v == WithName(w, s, host) && |d| == |w| && d <= v
    ensures FindExt(EXT_ECH, d, |d|, skip) == 0
  {
    assert d == v[..|w|];
  }

  /** merge_tls_records leaves the ClientHello, whose length fields are right already, and stale bytes behind it. */
  method MergeHello(buffer: array<Byte>, n: nat, ghost b: seq<Byte>, ghost cuts: seq<nat>, ghost skip: nat, ghost s: nat,
                    ghost x: seq<Ext>)
    returns (r: nat)
    requires n <= buffer.Length && Joinable(buffer[..n], b, cuts) && Hello(b, skip, s, x)
    modifies buffer
    ensures CutsOf(b, cuts) && r == 5 * |cuts| && n == |b| + r && buffer[..n] == Merged(b, cuts)
  {
    r := Rejoin(buffer, n, b, cuts);
    Be16Antohs(b, 7);
    assert Patch(b, 7, Be16(|b| - 9)) == b;
  }

  /**
    change_tls_sni followed by parse_tls: what is found is an instance of the new name, and the
    name itself if there is no wildcard in it.
  */
  method ChangeThenParse(name: seq<Byte>, buffer: array<Byte>, n: nat, nn: nat, rand: nat -> nat,
                         ghost b: seq<Byte>, ghost cuts: seq<nat>, ghost skip: nat, ghost s: nat, ghost x: seq<Ext>)
    returns (found: Option<seq<Byte>>)
    requires CString(name) && n <= buffer.Length && nn <= buffer.Length
    requires Callable(buffer[..n], b, cuts, skip, s, x, Copied(name, rand), nn) && s + 12 < nn
    requires Used(Merged(b, cuts), s, |name|) <= buffer.Length
    modifies buffer
    ensures found.Some? && Instance(name, found.value) && (NoWildcard(name) ==> found.value == name)
  {
    RenamedParses(b, skip, s, x, Copied(name, rand), nn);
    CopiedInstance(name, rand);
    var r := ChangeTlsSni(name, buffer, n, nn, rand, b, cuts, skip, s, x);
    found := ParseTls(buffer[..nn]);
  }
}
