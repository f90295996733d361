/**
  Cutting one TLS record into several and joining them again: part_tls, the tlsrec loop of tamp
  and merge_tls_records.

  A record is five bytes of header, the last two of them the length, and the payload
  (section 5.1 of RFC 8446). A buffer starts with a record that may go on past its end.
*/
module TlsRecords {
  import opened Bytes
  import opened Offsets
  import opened Wrappers

  // -- what a cut record looks like ---------------------------------------------------------

  function Head(b: seq<Byte>): seq<Byte>
    requires |b| >= 5
  {
    b[..3]
  }

  /** The length that the first record claims. */
  function Claimed(b: seq<Byte>): nat
    requires |b| >= 5
  {
    Antohs(b, 3)
  }

  /** Positions in the payload, ascending, inside the buffer and inside the record. */
  ghost predicate CutsOf(b: seq<Byte>, cuts: seq<nat>) {
    && |b| >= 5
    && (forall i :: 0 <= i < |cuts| ==> cuts[i] <= |b| - 5 && cuts[i] <= Claimed(b))
    && (forall i, j :: 0 <= i <= j < |cuts| ==> cuts[i] <= cuts[j])
  }

  /** The first `j` cuts reach to here. */
  function Reach(cuts: seq<nat>, j: nat): nat
    requires j <= |cuts|
  {
    if j == 0 then 0 else cuts[j - 1]
  }

  /** The fragments in front of cut `j`. */
  ghost function Front(b: seq<Byte>, cuts: seq<nat>, j: nat): (r: seq<Byte>)
    requires CutsOf(b, cuts) && j <= |cuts|
    ensures |r| == Reach(cuts, j) + 5 * j
  {
    if j == 0 then [] else Front(b, cuts, j - 1) + Fragment(b, cuts, j - 1)
  }

  /** The fragment between cut `j` and the next one. */
  ghost function Fragment(b: seq<Byte>, cuts: seq<nat>, j: nat): (r: seq<Byte>)
    requires CutsOf(b, cuts) && j < |cuts|
    ensures |r| == 5 + cuts[j] - Reach(cuts, j)
  {
    Head(b) + Be16(cuts[j] - Reach(cuts, j)) + b[5 + Reach(cuts, j)..5 + cuts[j]]
  }

  /** The last fragment: all that is left. */
  ghost function Last(b: seq<Byte>, cuts: seq<nat>): (r: seq<Byte>)
    requires CutsOf(b, cuts)
    ensures |r| == |b| - Reach(cuts, |cuts|)
  {
    Head(b) + Be16(Claimed(b) - Reach(cuts, |cuts|)) + b[5 + Reach(cuts, |cuts|)..]
  }

  /** The buffer `b` with its first record cut at these positions. */
  ghost function Split(b: seq<Byte>, cuts: seq<nat>): (r: seq<Byte>)
    requires CutsOf(b, cuts)
    ensures |r| == |b| + 5 * |cuts|
  {
    Front(b, cuts, |cuts|) + Last(b, cuts)
  }

  // -- what it means: a reader of records ---------------------------------------------------

  datatype Record = Record(head: seq<Byte>, len: nat, body: seq<Byte>)

  /** Reads `k` whole records and takes the rest of the bytes as the start of one more. */
  ghost function Read(s: seq<Byte>, k: nat): Option<seq<Record>>
    decreases k
  {
    if |s| < 5 then None
    else if k == 0 then Some([Record(s[..3], Antohs(s, 3), s[5..])])
    else if |s| < 5 + Antohs(s, 3) then None
    else
      var rest := Read(s[5 + Antohs(s, 3)..], k - 1);
      if rest.None? then None
      else Some([Record(s[..3], Antohs(s, 3), s[5..5 + Antohs(s, 3)])] + rest.value)
  }

  ghost function Payload(rs: seq<Record>): seq<Byte> {
    if |rs| == 0 then [] else rs[0].body + Payload(rs[1..])
  }

  ghost function TotalLen(rs: seq<Record>): nat {
    if |rs| == 0 then 0 else rs[0].len + TotalLen(rs[1..])
  }

  /** The fragments from cut `j` on. */
  ghost function Tail(b: seq<Byte>, cuts: seq<nat>, j: nat): (r: seq<Byte>)
    requires CutsOf(b, cuts) && j <= |cuts|
    ensures |r| == |b| - Reach(cuts, j) + 5 * (|cuts| - j)
    decreases |cuts| - j
  {
    if j == |cuts| then Last(b, cuts) else Fragment(b, cuts, j) + Tail(b, cuts, j + 1)
  }

  lemma Reassociate(f: seq<Byte>, g: seq<Byte>, t: seq<Byte>, fg: seq<Byte>, gt: seq<Byte>, all: seq<Byte>)
    requires fg == f + g && gt == g + t && fg + t == all
    ensures f + gt == all
  {
  }

  lemma {:induction false} FrontTail(b: seq<Byte>, cuts: seq<nat>, j: nat)
    requires CutsOf(b, cuts) && j <= |cuts|
    ensures Front(b, cuts, j) + Tail(b, cuts, j) == Split(b, cuts)
    decreases |cuts| - j
  {
    if j < |cuts| {
      FrontTail(b, cuts, j + 1);
      Reassociate(Front(b, cuts, j), Fragment(b, cuts, j), Tail(b, cuts, j + 1), Front(b, cuts, j + 1), Tail(b, cuts, j),
                  Split(b, cuts));
    }
  }

  lemma Sections(a: seq<Byte>, l: seq<Byte>, p: seq<Byte>, rest: seq<Byte>)
    requires |a| == 3 && |l| == 2
    ensures var s := a + l + p + rest;
      s[..3] == a && s[3..5] == l && s[5..5 + |p|] == p && s[5 + |p|..] == rest
  {
  }

  lemma Joined(b: seq<Byte>, i: nat, j: nat)
    requires i <= j <= |b|
    ensures b[i..j] + b[j..] == b[i..]
  {
  }

  /** Read as k + 1 records, `s` has this type and version, length and payload. */
  ghost predicate Carries(s: seq<Byte>, k: nat, head: seq<Byte>, len: int, payload: seq<Byte>) {
    var rs := Read(s, k);
    && rs.Some? && |rs.value| == k + 1
    && (forall i :: 0 <= i < |rs.value| ==> rs.value[i].head == head)
    && TotalLen(rs.value) == len && Payload(rs.value) == payload
  }

  lemma CarriesLast(head: seq<Byte>, len: nat, body: seq<Byte>)
    requires |head| == 3 && len < 0x1_0000
    ensures Carries(head + Be16(len) + body, 0, head, len, body)
  {
    var s := head + Be16(len) + body;
    assert s == head + Be16(len) + body + [];
    Sections(head, Be16(len), body, []);
    AntohsBe16(s, 3, len);
    var rs := [Record(head, len, body)];
    assert Read(s, 0) == Some(rs);
    assert rs[1..] == [];
  }

  lemma ReadMore(head: seq<Byte>, body: seq<Byte>, rest: seq<Byte>, k: nat)
    requires |head| == 3 && |body| < 0x1_0000 && Read(rest, k).Some?
    ensures Read(head + Be16(|body|) + body + rest, k + 1) == Some([Record(head, |body|, body)] + Read(rest, k).value)
  {
    hide Antohs;
    var s := head + Be16(|body|) + body + rest;
    Sections(head, Be16(|body|), body, rest);
    AntohsBe16(s, 3, |body|);
  }

  lemma SumsMore(r: Record, rs: seq<Record>)
    ensures Payload([r] + rs) == r.body + Payload(rs) && TotalLen([r] + rs) == r.len + TotalLen(rs)
  {
    assert ([r] + rs)[1..] == rs;
  }

  lemma CarriesMore(s: seq<Byte>, head: seq<Byte>, body: seq<Byte>, rest: seq<Byte>, k: nat, len: int, payload: seq<Byte>,
                    len': int, payload': seq<Byte>)
    requires |head| == 3 && |body| < 0x1_0000 && Carries(rest, k, head, len, payload) == true
    requires s == head + Be16(|body|) + body + rest && len' == |body| + len && payload' == body + payload
    ensures Carries(s, k + 1, head, len', payload') == true
  {
    ReadMore(head, body, rest, k);
    SumsMore(Record(head, |body|, body), Read(rest, k).value);
  }

  /** What the fragments from cut `j` on have to carry. */
  ghost predicate TailOk(b: seq<Byte>, cuts: seq<nat>, j: nat)
    requires CutsOf(b, cuts) && j <= |cuts|
  {
    Carries(Tail(b, cuts, j), |cuts| - j, Head(b), Claimed(b) - Reach(cuts, j), b[5 + Reach(cuts, j)..])
  }

  lemma LastCarries(b: seq<Byte>, cuts: seq<nat>)
    requires CutsOf(b, cuts)
    ensures TailOk(b, cuts, |cuts|) == true
  {
    var c := Reach(cuts, |cuts|);
    CarriesLast(Head(b), Claimed(b) - c, b[5 + c..]);
  }

  lemma FragmentCarries(b: seq<Byte>, cuts: seq<nat>, j: nat)
    requires CutsOf(b, cuts) && j < |cuts| && TailOk(b, cuts, j + 1) == true
    ensures TailOk(b, cuts, j) == true
  {
    var c := Reach(cuts, j);
    Joined(b, 5 + c, 5 + cuts[j]);
    CarriesMore(Tail(b, cuts, j), Head(b), b[5 + c..5 + cuts[j]], Tail(b, cuts, j + 1), |cuts| - j - 1, Claimed(b) - cuts[j],
                b[5 + cuts[j]..], Claimed(b) - c, b[5 + c..]);
  }

  lemma {:induction false} TailCarries(b: seq<Byte>, cuts: seq<nat>, j: nat)
    requires CutsOf(b, cuts) && j <= |cuts|
    ensures TailOk(b, cuts, j) == true
    decreases |cuts| - j
  {
    if j == |cuts| {
      LastCarries(b, cuts);
    } else {
      TailCarries(b, cuts, j + 1);
      FragmentCarries(b, cuts, j);
    }
  }

  /**
    The reader gets |cuts| + 1 records out of a cut buffer, all with the type and version of the
    original; together they claim the original length and carry the original payload. This holds
    whether or not the record goes on past the buffer.
  */
  lemma SplitKeepsMeaning(b: seq<Byte>, cuts: seq<nat>)
    requires CutsOf(b, cuts)
    ensures Carries(Split(b, cuts), |cuts|, b[..3], Claimed(b), b[5..])
  {
    SplitIsTail(b, cuts);
    TailCarries(b, cuts, 0);
  }

  lemma SplitIsTail(b: seq<Byte>, cuts: seq<nat>)
    requires CutsOf(b, cuts)
    ensures Split(b, cuts) == Tail(b, cuts, 0)
  {
    FrontTail(b, cuts, 0);
    NothingInFront(Tail(b, cuts, 0));
  }

  lemma NothingInFront(s: seq<Byte>)
    ensures [] + s == s
  {
  }

  // -- part_tls -----------------------------------------------------------------------------

  /** `b` with a second header after `d` bytes of payload. */
  ghost function Cut(b: seq<Byte>, d: nat): (r: seq<Byte>)
    requires |b| >= 5 && d <= |b| - 5 && d <= Claimed(b)
    ensures |r| == |b| + 5
  {
    Head(b) + Be16(d) + b[5..5 + d] + (Head(b) + Be16(Claimed(b) - d) + b[5 + d..])
  }

  /** Whether part_tls touches the buffer at all. */
  predicate Fits(bsize: int, n: int, pos: int) {
    n >= 3 && bsize - n >= 5 && 0 <= pos <= n - 5
  }

  /** part_tls on the `n` bytes at `base`, with room for `bsize`. */
  method PartTls(buffer: array<Byte>, base: nat, bsize: nat, n: nat, pos: int) returns (r: int)
    requires base + bsize <= buffer.Length && n <= bsize
    modifies buffer
    ensures var s := old(buffer[..]);
      if !Fits(bsize, n, pos) then r == 0 && buffer[..] == s
      else if Claimed(s[base..base + n]) < pos then r == n && buffer[..] == s
      else r == 5 && buffer[..] == s[..base] + Cut(s[base..base + n], pos) + s[base + n + 5..]
  {
    hide Cut, CutPatches;
    if n < 3 || bsize - n < 5 || pos < 0 || pos + 5 > n {
      return 0;
    }
    ghost var s := buffer[..];
    var rSz := Antohs(buffer[base..base + n], 3);
    assert s[base..base + n] == buffer[base..base + n];
    if rSz < pos {
      return n;
    }
    MoveForCut(buffer, base, n, pos, rSz - pos);
    CutByPatches(s, base, n, pos, rSz - pos);
    return 5;
  }

  /** The four writes. */
  method MoveForCut(buffer: array<Byte>, base: nat, n: nat, d: nat, left: int)
    requires base + n + 5 <= buffer.Length && d + 5 <= n
    modifies buffer
    ensures buffer[..] == CutPatches(old(buffer[..]), base, n, d, left)
  {
    MakeGap(buffer, base, n, d);
    Shtona(buffer, base + 3, d);
    Shtona(buffer, base + 5 + d + 3, left);
  }

  /** Room for a header, and the first three bytes of it. */
  method MakeGap(buffer: array<Byte>, base: nat, n: nat, d: nat)
    requires base + n + 5 <= buffer.Length && d + 5 <= n
    modifies buffer
    ensures buffer[..] == Gap(old(buffer[..]), base, n, d)
  {
    hide Patch;
    ghost var s := buffer[..];
    Memmove(buffer, base + 5 + d + 5, base + 5 + d, n - (5 + d));
    ghost var s1 := buffer[..];
    assert s1 == Patch(s, base + 5 + d + 5, s[base + 5 + d..base + n]);
    Memmove(buffer, base + 5 + d, base, 3);
    assert buffer[..] == Patch(s1, base + 5 + d, s1[base..base + 3]);
  }

  ghost function Gap(s: seq<Byte>, base: nat, n: nat, d: nat): (r: seq<Byte>)
    requires base + n + 5 <= |s| && d + 5 <= n
    ensures |r| == |s|
  {
    var s1 := Patch(s, base + 5 + d + 5, s[base + 5 + d..base + n]);
    Patch(s1, base + 5 + d, s1[base..base + 3])
  }

  ghost function CutPatches(s: seq<Byte>, base: nat, n: nat, d: nat, left: int): (r: seq<Byte>)
    requires base + n + 5 <= |s| && d + 5 <= n
    ensures |r| == |s|
  {
    Patch(Patch(Gap(s, base, n, d), base + 3, Be16(d)), base + 5 + d + 3, Be16(left))
  }

  /** Byte `k` of a cut buffer. */
  ghost function CutByte(b: seq<Byte>, d: nat, left: int, k: nat): Byte
    requires |b| >= d + 5 && k < |b| + 5
  {
    if k < 3 then b[k] else if k < 5 then Be16(d)[k - 3] else if k < 5 + d then b[k]
    else if k < 8 + d then b[k - (5 + d)] else if k < 10 + d then Be16(left)[k - (8 + d)] else b[k - 5]
  }

  lemma CutBytes(b: seq<Byte>, d: nat)
    requires |b| >= 5 && d <= |b| - 5 && d <= Claimed(b)
    ensures forall k :: 0 <= k < |b| + 5 ==> Cut(b, d)[k] == CutByte(b, d, Claimed(b) - d, k)
  {
  }

  lemma PatchedBytes(s: seq<Byte>, base: nat, n: nat, d: nat, left: int)
    requires base + n + 5 <= |s| && d + 5 <= n
    ensures var r := CutPatches(s, base, n, d, left);
      forall k :: 0 <= k < |s| ==>
        r[k] == if base <= k < base + n + 5 then CutByte(s[base..base + n], d, left, k - base) else s[k]
  {
  }

  lemma CutByPatches(s: seq<Byte>, base: nat, n: nat, d: nat, left: int)
    requires base + n + 5 <= |s| && d + 5 <= n && d <= Claimed(s[base..base + n])
    requires left == Claimed(s[base..base + n]) - d
    ensures var r := CutPatches(s, base, n, d, left);
      r == s[..base] + Cut(s[base..base + n], d) + s[base + n + 5..]
  {
    PatchedBytes(s, base, n, d, left);
    CutBytes(s[base..base + n], d);
  }

  // -- the tlsrec loop of tamp --------------------------------------------------------------

  predicate IsTlsChello(b: seq<Byte>) {
    |b| > 5 && b[0] == 0x16 && b[1] == 0x03 && b[5] == 0x01
  }

  /** The payload position that a round asks for; `lp` is where the last record starts. */
  function Wanted(round: Round, n: nat, lp: int, info: ProtoInfo, rnd: nat): int {
    GenOffset(round.part.pos, round.part.flag, n, lp, info, rnd)
    - (if round.part.pos < 0 || round.part.flag.Any() then 5 else 0) + round.part.s * round.m
  }

  /**
    The cuts that the rounds from `k` on make in a request of `n` bytes with `room` bytes behind
    it, when the last cut was at `prev`: the loop ends at the first round whose position lies
    before the last cut or less than five bytes before the end, or for which there is no room.
  */
  ghost function Plan(rounds: seq<Round>, n: nat, room: int, info: ProtoInfo, rand: nat -> nat, k: nat, prev: nat): (r: seq<nat>)
    requires k <= |rounds|
    decreases |rounds| - k
  {
    if k == |rounds| then []
    else
      var c := Wanted(rounds[k], n, 5 * k + prev, info, rand(k));
      if c < prev || room < 5 * (k + 1) || c + 5 > n then []
      else [c] + Plan(rounds, n, room, info, rand, k + 1, c)
  }

  /** One more cut is a cut of the last fragment. */
  lemma SplitMore(b: seq<Byte>, cuts: seq<nat>, c: nat, d: nat)
    requires CutsOf(b, cuts) && CutsOf(b, cuts + [c]) && d == c - Reach(cuts, |cuts|)
    requires d <= |Last(b, cuts)| - 5 && d <= Claimed(Last(b, cuts))
    ensures Split(b, cuts + [c]) == Front(b, cuts, |cuts|) + Cut(Last(b, cuts), d)
  {
    var k := |cuts|;
    FrontPrefix(b, cuts, cuts + [c], k);
    LastClaims(b, cuts);
    CutLast(b, cuts, c, d);
    Assoc(Front(b, cuts, k), Fragment(b, cuts + [c], k), Last(b, cuts + [c]));
  }

  lemma Behind(h: seq<Byte>, b: seq<Byte>, i: nat, d: nat)
    requires |h| == 5 && i + d <= |b|
    ensures (h + b[i..])[5..5 + d] == b[i..i + d] && (h + b[i..])[5 + d..] == b[i + d..]
  {
  }

  lemma CutLast(b: seq<Byte>, cuts: seq<nat>, c: nat, d: nat)
    requires CutsOf(b, cuts) && CutsOf(b, cuts + [c]) && d == c - Reach(cuts, |cuts|)
    requires d <= |Last(b, cuts)| - 5 && d <= Claimed(Last(b, cuts)) == Claimed(b) - Reach(cuts, |cuts|)
    requires Head(Last(b, cuts)) == Head(b)
    ensures Cut(Last(b, cuts), d) == Fragment(b, cuts + [c], |cuts|) + Last(b, cuts + [c])
  {
    var r, k, more := Reach(cuts, |cuts|), |cuts|, cuts + [c];
    assert Reach(more, k) == r && more[k] == c && Reach(more, k + 1) == c;
    var l := Last(b, cuts);
    Behind(Head(b) + Be16(Claimed(b) - r), b, 5 + r, d);
    assert Fragment(b, more, k) == Head(l) + Be16(d) + l[5..5 + d];
    assert Last(b, more) == Head(l) + Be16(Claimed(l) - d) + l[5 + d..];
  }

  lemma {:induction false} FrontPrefix(b: seq<Byte>, cuts: seq<nat>, cuts': seq<nat>, j: nat)
    requires CutsOf(b, cuts) && CutsOf(b, cuts') && j <= |cuts| && j <= |cuts'|
    requires forall i :: 0 <= i < j ==> cuts[i] == cuts'[i]
    ensures Front(b, cuts, j) == Front(b, cuts', j)
  {
    if j > 0 {
      FrontPrefix(b, cuts, cuts', j - 1);
    }
  }

  lemma LastClaims(b: seq<Byte>, cuts: seq<nat>)
    requires CutsOf(b, cuts)
    ensures var l := Last(b, cuts);
      Head(l) == Head(b) && Claimed(l) == Claimed(b) - Reach(cuts, |cuts|)
  {
    var r := Reach(cuts, |cuts|);
    Sections(Head(b), Be16(Claimed(b) - r), b[5 + r..], []);
    assert Last(b, cuts) == Head(b) + Be16(Claimed(b) - r) + b[5 + r..] + [];
    AntohsBe16(Last(b, cuts), 3, Claimed(b) - r);
  }

  /** The buffer in the loop: `cuts` have been made, behind that it is as it was. */
  ghost predicate Cutting(s: seq<Byte>, b: seq<Byte>, rest: seq<Byte>, cuts: seq<nat>) {
    CutsOf(b, cuts) && 5 * |cuts| <= |rest| && s == Split(b, cuts) + rest[5 * |cuts|..]
  }

  lemma CuttingParts(s: seq<Byte>, b: seq<Byte>, rest: seq<Byte>, cuts: seq<nat>, lp: nat, n: nat)
    requires Cutting(s, b, rest, cuts) && lp == Reach(cuts, |cuts|) + 5 * |cuts| && n == |b| + 5 * |cuts|
    ensures |s| == |b| + |rest| && lp + 5 <= n
    ensures s[..lp] == Front(b, cuts, |cuts|) && s[lp..n] == Last(b, cuts)
    ensures n + 5 <= |s| ==> s[n + 5..] == rest[5 * |cuts| + 5..]
    ensures Claimed(s[lp..n]) == Claimed(b) - Reach(cuts, |cuts|)
  {
    var f, l, r := Front(b, cuts, |cuts|), Last(b, cuts), rest[5 * |cuts|..];
    assert s == f + l + r;
    assert s[lp..n] == l;
    LastClaims(b, cuts);
  }

  lemma CuttingMore(s: seq<Byte>, b: seq<Byte>, rest: seq<Byte>, cuts: seq<nat>, lp: nat, n: nat, c: nat, s': seq<Byte>)
    requires Cutting(s, b, rest, cuts) && lp == Reach(cuts, |cuts|) + 5 * |cuts| && n == |b| + 5 * |cuts|
    requires lp + 5 <= n && n + 5 <= |s| && CutsOf(b, cuts + [c]) && 5 * |cuts| + 5 <= |rest|
    requires Reach(cuts, |cuts|) <= c && c + 5 <= |b| && c <= Claimed(b)
    requires var d := c - Reach(cuts, |cuts|);
      d <= Claimed(s[lp..n]) && s' == s[..lp] + Cut(s[lp..n], d) + s[n + 5..]
    ensures Cutting(s', b, rest, cuts + [c])
  {
    CuttingParts(s, b, rest, cuts, lp, n);
    SplitMore(b, cuts, c, c - Reach(cuts, |cuts|));
  }

  lemma CuttingDone(s: seq<Byte>, s0: seq<Byte>, n: nat, cuts: seq<nat>)
    requires 5 <= n <= |s0| && Cutting(s, s0[..n], s0[n..], cuts) == true
    ensures var n' := n + 5 * |cuts|; n' <= |s| && s[..n'] == Split(s0[..n], cuts) && s[n'..] == s0[n'..]
  {
    var n' := n + 5 * |cuts|;
    assert s0[n..][5 * |cuts|..] == s0[n'..];
  }

  /** Whether the next round makes a cut. */
  predicate MayCut(n: nat, room: int, cuts: seq<nat>, c: int) {
    Reach(cuts, |cuts|) <= c && 5 * (|cuts| + 1) <= room && c + 5 <= n
  }

  /** What is left of the plan after the cuts made so far. */
  ghost function Todo(rounds: seq<Round>, n: nat, room: int, info: ProtoInfo, rand: nat -> nat, cuts: seq<nat>): seq<nat>
    requires |cuts| <= |rounds|
  {
    Plan(rounds, n, room, info, rand, |cuts|, Reach(cuts, |cuts|))
  }

  lemma TodoNext(rounds: seq<Round>, n: nat, room: int, info: ProtoInfo, rand: nat -> nat, cuts: seq<nat>, c: int, plan: seq<nat>)
    requires |cuts| < |rounds| && plan == cuts + Todo(rounds, n, room, info, rand, cuts)
    requires c == Wanted(rounds[|cuts|], n, 5 * |cuts| + Reach(cuts, |cuts|), info, rand(|cuts|))
    ensures MayCut(n, room, cuts, c) ==> plan == (cuts + [c]) + Todo(rounds, n, room, info, rand, cuts + [c])
    ensures !MayCut(n, room, cuts, c) ==> plan == cuts
  {
    if MayCut(n, room, cuts, c) {
      var more := Todo(rounds, n, room, info, rand, cuts + [c]);
      assert Todo(rounds, n, room, info, rand, cuts) == [c] + more;
      assert cuts + ([c] + more) == (cuts + [c]) + more;
    } else {
      assert Todo(rounds, n, room, info, rand, cuts) == [];
    }
  }

  lemma TodoNone(rounds: seq<Round>, n: nat, room: int, info: ProtoInfo, rand: nat -> nat, cuts: seq<nat>, plan: seq<nat>)
    requires |cuts| == |rounds| && plan == cuts + Todo(rounds, n, room, info, rand, cuts)
    ensures plan == cuts
  {
  }

  // -- what the rounds do to any buffer -----------------------------------------------------

  /** Positions that the loop accepts: ascending, at least five bytes before the end, with room for all headers. */
  ghost predicate Steady(plan: seq<nat>, n: nat, size: nat) {
    && 5 <= n && n + 5 * |plan| <= size
    && forall i :: 0 <= i < |plan| ==> Reach(plan, i) <= plan[i] && plan[i] + 5 <= n
  }

  lemma {:induction false} PlanSteady(rounds: seq<Round>, n: nat, room: nat, info: ProtoInfo, rand: nat -> nat, k: nat, prev: nat)
    requires k <= |rounds| && 5 * k <= room
    ensures var p := Plan(rounds, n, room, info, rand, k, prev);
      && 5 * (k + |p|) <= room
      && forall i :: 0 <= i < |p| ==> (if i == 0 then prev else p[i - 1]) <= p[i] && p[i] + 5 <= n
    decreases |rounds| - k
  {
    var p := Plan(rounds, n, room, info, rand, k, prev);
    if |p| > 0 {
      PlanSteady(rounds, n, room, info, rand, k + 1, p[0]);
      assert p[1..] == Plan(rounds, n, room, info, rand, k + 1, p[0]);
      forall i | 0 < i < |p| ensures p[i - 1] <= p[i] && p[i] + 5 <= n {
        var j := i - 1;
        assert p[i] == p[1..][j] && (j > 0 ==> p[j] == p[1..][j - 1]);
      }
    }
  }

  /** part_tls `d` bytes into the record at `lp`: a cut, or nothing if the record is shorter. */
  ghost function Step(s: seq<Byte>, n: nat, lp: nat, d: nat): (r: seq<Byte>)
    requires lp + d + 5 <= n && n + 5 <= |s|
    ensures |r| == |s|
  {
    if Claimed(s[lp..n]) < d then s else s[..lp] + Cut(s[lp..n], d) + s[n + 5..]
  }

  /** The buffer when the rounds from `k` on are done. */
  ghost function Carved(s: seq<Byte>, n: nat, plan: seq<nat>, k: nat): (r: seq<Byte>)
    requires Steady(plan, n, |s|) && k <= |plan|
    ensures |r| == |s|
    decreases |plan| - k
  {
    if k == |plan| then s else Carved(Carve(s, n, plan, k), n, plan, k + 1)
  }

  /** Round `k`. */
  ghost function Carve(s: seq<Byte>, n: nat, plan: seq<nat>, k: nat): (r: seq<Byte>)
    requires Steady(plan, n, |s|) && k < |plan|
    ensures |r| == |s|
  {
    Step(s, n + 5 * k, 5 * k + Reach(plan, k), plan[k] - Reach(plan, k))
  }

  /** How many headers the rounds from `k` on insert. */
  ghost function Headers(s: seq<Byte>, n: nat, plan: seq<nat>, k: nat): (r: nat)
    requires Steady(plan, n, |s|) && k <= |plan|
    ensures r <= |plan| - k
    decreases |plan| - k
  {
    if k == |plan| then 0
    else
      (if Claimed(s[5 * k + Reach(plan, k)..n + 5 * k]) < plan[k] - Reach(plan, k) then 0 else 1)
      + Headers(Carve(s, n, plan, k), n, plan, k + 1)
  }

  /** All positions lie in the record. */
  ghost predicate Inside(b: seq<Byte>, plan: seq<nat>)
    requires |b| >= 5
  {
    forall i :: 0 <= i < |plan| ==> plan[i] <= Claimed(b)
  }

  lemma SteadyCuts(b: seq<Byte>, plan: seq<nat>, size: nat, k: nat)
    requires Steady(plan, |b|, size) && k <= |plan| && Inside(b, plan[..k])
    ensures CutsOf(b, plan[..k])
  {
    forall i, j | 0 <= i <= j < k ensures plan[..k][i] <= plan[..k][j] {
      SteadyAscends(plan, |b|, size, i, j);
    }
    forall i | 0 <= i < k ensures plan[..k][i] <= |b| - 5 && plan[..k][i] <= Claimed(b) {
      assert plan[..k][i] == plan[i];
    }
  }

  lemma {:induction false} SteadyAscends(plan: seq<nat>, n: nat, size: nat, i: nat, j: nat)
    requires Steady(plan, n, size) && i <= j < |plan|
    ensures plan[i] <= plan[j]
    decreases j
  {
    if i < j {
      SteadyAscends(plan, n, size, i, j - 1);
      assert Reach(plan, j) == plan[j - 1];
    }
  }

  lemma CuttingInside(s: seq<Byte>, b: seq<Byte>, rest: seq<Byte>, cuts: seq<nat>, c: nat)
    requires Cutting(s, b, rest, cuts) && c <= Claimed(b)
    ensures Inside(b, cuts + [c])
  {
  }

  /** A round whose position lies in the record makes one more cut; one whose position does not makes none. */
  lemma CarveOne(s: seq<Byte>, b: seq<Byte>, rest: seq<Byte>, plan: seq<nat>, k: nat)
    requires Steady(plan, |b|, |s|) && k < |plan| && |s| == |b| + |rest| && Cutting(s, b, rest, plan[..k]) == true
    ensures var lp, n := 5 * k + Reach(plan, k), |b| + 5 * k;
      Claimed(s[lp..n]) < plan[k] - Reach(plan, k) <==> Claimed(b) < plan[k]
    ensures plan[k] <= Claimed(b) ==> Cutting(Carve(s, |b|, plan, k), b, rest, plan[..k + 1]) == true
    ensures plan[k] > Claimed(b) ==> Carve(s, |b|, plan, k) == s
  {
    hide Cutting, Cut, CutsOf, Inside, Fragment, Front, Be16, Last, Steady, Head, Claimed, Antohs, Split;
    var lp, n := 5 * k + Reach(plan, k), |b| + 5 * k;
    assert Reach(plan[..k], k) == Reach(plan, k);
    CuttingParts(s, b, rest, plan[..k], lp, n);
    if plan[k] <= Claimed(b) {
      assert plan[..k] + [plan[k]] == plan[..k + 1];
      CuttingInside(s, b, rest, plan[..k], plan[k]);
      SteadyCuts(b, plan, |s|, k + 1);
      CuttingMore(s, b, rest, plan[..k], lp, n, plan[k], Carve(s, |b|, plan, k));
    }
  }

  /** Positions that lie in the record all become cuts. */
  lemma {:induction false} CarvedInside(s: seq<Byte>, b: seq<Byte>, rest: seq<Byte>, plan: seq<nat>, k: nat)
    requires Steady(plan, |b|, |s|) && k <= |plan| && |s| == |b| + |rest| && Cutting(s, b, rest, plan[..k]) == true
    requires Inside(b, plan)
    ensures Cutting(Carved(s, |b|, plan, k), b, rest, plan) == true
    decreases |plan| - k
  {
    if k < |plan| {
      CarveOne(s, b, rest, plan, k);
      CarvedInside(Carve(s, |b|, plan, k), b, rest, plan, k + 1);
    } else {
      assert plan[..k] == plan;
    }
  }

  /** As many headers are inserted as there are positions if and only if all positions lie in the record. */
  lemma {:induction false} HeadersIff(s: seq<Byte>, b: seq<Byte>, rest: seq<Byte>, plan: seq<nat>, k: nat)
    requires Steady(plan, |b|, |s|) && k <= |plan| && |s| == |b| + |rest| && Cutting(s, b, rest, plan[..k]) == true
    ensures Headers(s, |b|, plan, k) == |plan| - k <==> forall i :: k <= i < |plan| ==> plan[i] <= Claimed(b)
    decreases |plan| - k
  {
    hide Cutting, Carve, Reach;
    if k < |plan| {
      CarveOne(s, b, rest, plan, k);
      if plan[k] <= Claimed(b) {
        HeadersIff(Carve(s, |b|, plan, k), b, rest, plan, k + 1);
      }
    }
  }

  /**
    If only the last position lies past the record, the five bytes that are counted for it are
    bytes from behind the request.
  */
  lemma Overcounted(b: seq<Byte>, rest: seq<Byte>, plan: seq<nat>)
    requires Steady(plan, |b|, |b| + |rest|) && |plan| > 0
    requires var k := |plan| - 1; Inside(b, plan[..k]) && plan[k] > Claimed(b)
    ensures var k := |plan| - 1;
      && CutsOf(b, plan[..k])
      && Carved(b + rest, |b|, plan, 0)[..|b| + 5 * |plan|] == Split(b, plan[..k]) + rest[5 * k..5 * k + 5]
  {
    var k := |plan| - 1;
    SteadyCuts(b, plan, |b| + |rest|, k);
    Uncut(b);
    assert plan[..0] == [] && rest[0..] == rest;
    assert Cutting(b + rest, b, rest, plan[..0]) == true;
    CarvedButLast(b + rest, b, rest, plan, 0);
    var w := Split(b, plan[..k]);
    assert (w + rest[5 * k..])[..|w| + 5] == w + rest[5 * k..5 * k + 5];
  }

  lemma {:induction false} CarvedButLast(s: seq<Byte>, b: seq<Byte>, rest: seq<Byte>, plan: seq<nat>, k: nat)
    requires Steady(plan, |b|, |s|) && k < |plan| && |s| == |b| + |rest| && Cutting(s, b, rest, plan[..k]) == true
    requires var m := |plan| - 1; Inside(b, plan[..m]) && plan[m] > Claimed(b)
    ensures var m := |plan| - 1; Cutting(Carved(s, |b|, plan, k), b, rest, plan[..m]) == true
    decreases |plan| - k
  {
    CarveOne(s, b, rest, plan, k);
    if k < |plan| - 1 {
      assert plan[..|plan| - 1][k] == plan[k];
      CarvedButLast(Carve(s, |b|, plan, k), b, rest, plan, k + 1);
    } else {
      assert Carved(s, |b|, plan, k + 1) == s;
    }
  }

  // -- the loop -----------------------------------------------------------------------------

  /** In front of a round: `cuts` are the positions so far, and what is left of the plan leads to `goal`. */
  ghost predicate Midway(s: seq<Byte>, n: nat, goal: seq<Byte>, rounds: seq<Round>, room: int, info: ProtoInfo,
                         rand: nat -> nat, plan: seq<nat>, cuts: seq<nat>, lp: int) {
    && Steady(plan, n, |s|) && |cuts| <= |rounds| && lp == Reach(cuts, |cuts|) + 5 * |cuts|
    && plan == cuts + Todo(rounds, n, room, info, rand, cuts)
    && Carved(s, n, plan, |cuts|) == goal
  }

  /** The next round makes a step of the plan, or it is where the plan ends. */
  lemma MidwayMore(s: seq<Byte>, n: nat, goal: seq<Byte>, rounds: seq<Round>, room: int, info: ProtoInfo,
                   rand: nat -> nat, plan: seq<nat>, cuts: seq<nat>, lp: int, c: int)
    requires Midway(s, n, goal, rounds, room, info, rand, plan, cuts, lp) == true && |cuts| < |rounds|
    requires c == Wanted(rounds[|cuts|], n, lp, info, rand(|cuts|))
    ensures !MayCut(n, room, cuts, c) ==> plan == cuts && s == goal
    ensures MayCut(n, room, cuts, c) ==>
      && lp + (c - Reach(cuts, |cuts|)) + 5 <= n + 5 * |cuts| && n + 5 * |cuts| + 5 <= |s| && lp >= 0
      && Midway(Step(s, n + 5 * |cuts|, lp, c - Reach(cuts, |cuts|)), n, goal, rounds, room, info, rand, plan,
                cuts + [c], c + 5 * |cuts| + 5) == true
  {
    hide Cut, Plan, Claimed, Step;
    var k := |cuts|;
    TodoNext(rounds, n, room, info, rand, cuts, c, plan);
    if MayCut(n, room, cuts, c) {
      assert plan[k] == c && Reach(plan, k) == Reach(cuts, k);
      assert Carve(s, n, plan, k) == Step(s, n + 5 * k, lp, c - Reach(cuts, k));
    }
  }

  lemma MidwayEnd(s: seq<Byte>, n: nat, goal: seq<Byte>, rounds: seq<Round>, room: int, info: ProtoInfo,
                  rand: nat -> nat, plan: seq<nat>, cuts: seq<nat>, lp: int)
    requires Midway(s, n, goal, rounds, room, info, rand, plan, cuts, lp) == true && |cuts| == |rounds|
    ensures plan == cuts && s == goal
  {
    TodoNone(rounds, n, room, info, rand, cuts, plan);
  }

  lemma MidwayStart(s: seq<Byte>, n: nat, rounds: seq<Round>, room: nat, info: ProtoInfo, rand: nat -> nat)
    requires 5 <= n && n + room <= |s|
    ensures var plan := Plan(rounds, n, room, info, rand, 0, 0);
      && Steady(plan, n, |s|)
      && Midway(s, n, Carved(s, n, plan, 0), rounds, room, info, rand, plan, [], 0) == true
  {
    PlanSteady(rounds, n, room, info, rand, 0, 0);
    var plan := Plan(rounds, n, room, info, rand, 0, 0);
    assert [] + plan == plan;
  }

  /** part_tls in a round, `c` being the position in the payload. */
  method CutAt(buffer: array<Byte>, bfsize: nat, n: nat, lp: nat, pos: int, ghost n0: nat, ghost cuts: seq<nat>)
    returns (done: int)
    requires n0 <= n == n0 + 5 * |cuts| <= bfsize <= buffer.Length && lp == Reach(cuts, |cuts|) + 5 * |cuts| <= pos
    requires lp + 5 <= n
    modifies buffer
    ensures var c := pos - 5 * |cuts|;
      if MayCut(n0, bfsize - n0, cuts, c) then done != 0 && buffer[..] == Step(old(buffer[..]), n, lp, c - Reach(cuts, |cuts|))
      else done == 0 && buffer[..] == old(buffer[..])
  {
    hide Cut;
    done := PartTls(buffer, lp, bfsize - lp, n - lp, pos - lp);
  }

  /** One round of the loop: where to cut, and the cut, if it can be made. */
  method CutRound(buffer: array<Byte>, bfsize: nat, n: nat, part: Part, m: int, info: ProtoInfo, rand: nat -> nat, lp: nat, rc: nat,
                  ghost n0: nat, ghost goal: seq<Byte>, ghost rounds: seq<Round>, ghost plan: seq<nat>, ghost cuts: seq<nat>)
    returns (done: bool, lp': nat, ghost cuts': seq<nat>)
    requires 5 < n0 <= bfsize <= buffer.Length
    requires Midway(buffer[..], n0, goal, rounds, bfsize - n0, info, rand, plan, cuts, lp) == true
    requires rc == |cuts| < |rounds| && rounds[rc] == Round(part, m) && n == n0 + 5 * rc <= bfsize && lp + 5 <= n
    modifies buffer
    ensures done ==> |cuts'| == rc + 1 && n + 5 <= bfsize && lp' + 5 <= n + 5
    ensures done ==> Midway(buffer[..], n0, goal, rounds, bfsize - n0, info, rand, plan, cuts', lp') == true
    ensures !done ==> cuts' == cuts == plan && buffer[..] == goal
  {
    hide Plan, Todo, Steady, Carved, Step, GenOffset;
    ghost var s := buffer[..];
    var pos := rc * 5;
    pos := pos + GenOffset(part.pos, part.flag, n - pos, lp, info, rand(rc));
    if part.pos < 0 || part.flag.Any() {
      pos := pos - 5;
    }
    pos := pos + part.s * m;
    ghost var c := pos - 5 * rc;
    MidwayMore(s, n0, goal, rounds, bfsize - n0, info, rand, plan, cuts, lp, c);
    done, lp', cuts' := false, lp, cuts;
    if pos >= lp {
      var r := CutAt(buffer, bfsize, n, lp, pos, n0, cuts);
      done := r != 0;
    }
    if done {
      lp', cuts' := pos + 5, cuts + [c];
    }
  }

  /** The loop. */
  method CutLoop(buffer: array<Byte>, bfsize: nat, parts: seq<Part>, info: ProtoInfo, rand: nat -> nat, n: nat)
    returns (n': nat)
    requires 5 < n <= bfsize <= buffer.Length
    modifies buffer
    ensures var plan, s := Plan(AllRounds(parts), n, bfsize - n, info, rand, 0, 0), old(buffer[..]);
      && Steady(plan, n, |s|) && n' == n + 5 * |plan| <= bfsize
      && buffer[..] == Carved(s, n, plan, 0)
  {
    hide Plan, Todo, Steady, Carved, Reach;
    n' := n;
    var lp := 0;
    var part := if |parts| > 0 then parts[0] else Part(0, Flags(false, false, false, false, false, false), 0, 0, 0);
    var i, r, rc := 0, 0, 0;
    ghost var rounds, room, cuts: seq<nat> := AllRounds(parts), bfsize - n, [];
    ghost var plan := Plan(rounds, n, room, info, rand, 0, 0);
    MidwayStart(buffer[..], n, rounds, room, info, rand);
    ghost var goal := Carved(buffer[..], n, plan, 0);
    AllLeft(parts, part);
    while r > 0 || i < |parts|
      invariant i <= |parts| && rc == |cuts| <= |rounds| && n' == n + 5 * rc <= bfsize && lp + 5 <= n'
      invariant Left(rounds, rc, parts, i, part, r) == true
      invariant Midway(buffer[..], n, goal, rounds, room, info, rand, plan, cuts, lp) == true
      decreases |rounds| - rc
    {
      ghost var i0, part0, r0 := i, part, r;
      if r <= 0 {
        part := parts[i];
        r, i := part.r, i + 1;
      }
      NextRound(rounds, rc, parts, i0, part0, r0, i, part, r);
      var done;
      done, lp, cuts := CutRound(buffer, bfsize, n', part, part.r - r, info, rand, lp, rc, n, goal, rounds, plan, cuts);
      if !done {
        return;
      }
      n', rc, r := n' + 5, rc + 1, r - 1;
    }
    NoneLeft(rounds, rc, parts, i, part, r);
    MidwayEnd(buffer[..], n, goal, rounds, room, info, rand, plan, cuts, lp);
  }

  /**
    What the loop makes of the request `s[..n]`, `s` being the buffer. If all planned positions
    lie in the record, they become cuts and nothing else is touched. If one does not, fewer
    headers are inserted than are counted in the new length.
  */
  ghost predicate Divided(s: seq<Byte>, n: nat, plan: seq<nat>, s': seq<Byte>, n': nat)
    requires n <= |s|
  {
    && Steady(plan, n, |s|) && n' == n + 5 * |plan| <= |s'| == |s| && s' == Carved(s, n, plan, 0)
    && (if Inside(s[..n], plan)
        then CutsOf(s[..n], plan) && s'[..n'] == Split(s[..n], plan) && s'[n'..] == s[n'..] && Headers(s, n, plan, 0) == |plan|
        else Headers(s, n, plan, 0) < |plan|)
  }

  lemma Divides(s: seq<Byte>, n: nat, plan: seq<nat>)
    requires Steady(plan, n, |s|)
    ensures Divided(s, n, plan, Carved(s, n, plan, 0), n + 5 * |plan|) == true
  {
    var b, rest := s[..n], s[n..];
    Uncut(b);
    assert plan[..0] == [] && s == b + rest;
    assert Cutting(s, b, rest, plan[..0]) == true;
    HeadersIff(s, b, rest, plan, 0);
    if Inside(b, plan) {
      CarvedInside(s, b, rest, plan, 0);
      CuttingDone(Carved(s, n, plan, 0), s, n, plan);
    }
  }

  /** The tlsrec loop of tamp on the request in `buffer[..n]`. */
  method SplitRecords(buffer: array<Byte>, bfsize: nat, n: nat, parts: seq<Part>, info: ProtoInfo, rand: nat -> nat)
    returns (n': nat)
    requires n <= bfsize <= buffer.Length && IsTlsChello(buffer[..n])
    modifies buffer
    ensures n' <= bfsize
    ensures Divided(old(buffer[..]), n, Plan(AllRounds(parts), n, bfsize - n, info, rand, 0, 0), buffer[..], n') == true
  {
    ghost var s := buffer[..];
    n' := CutLoop(buffer, bfsize, parts, info, rand, n);
    Divides(s, n, Plan(AllRounds(parts), n, bfsize - n, info, rand, 0, 0));
  }

  /**
    When there can be such a position at all: one that fits in the request but lies past the record
    exists if and only if the record ends before the request does.
  */
  lemma OvershootIff(b: seq<Byte>, bsize: nat)
    requires |b| >= 5 && bsize >= |b| + 5
    ensures (exists pos :: Fits(bsize, |b|, pos) && Claimed(b) < pos) <==> |b| > Claimed(b) + 5
  {
    if |b| > Claimed(b) + 5 {
      assert Fits(bsize, |b|, Claimed(b) + 1);
    }
  }

  /** The request after the version of the record was set. */
  ghost function Reversioned(s: seq<Byte>, n: nat, minor: Option<Byte>): (r: seq<Byte>)
    requires n <= |s|
    ensures |r| == |s|
  {
    if minor.Some? && IsTlsChello(s[..n]) then s[2 := minor.value] else s
  }

  /** tamp without the HTTP tricks: tlsminor, then tlsrec. */
  method Tamp(buffer: array<Byte>, bfsize: nat, n: nat, minor: Option<Byte>, tlsrec: seq<Part>, info: ProtoInfo, rand: nat -> nat)
    returns (n': nat)
    requires n <= bfsize <= buffer.Length
    modifies buffer
    ensures n' <= bfsize
    ensures !old(IsTlsChello(buffer[..n])) ==> n' == n && buffer[..] == old(buffer[..])
    ensures old(IsTlsChello(buffer[..n])) ==>
      var s, plan := Reversioned(old(buffer[..]), n, minor), Plan(AllRounds(tlsrec), n, bfsize - n, info, rand, 0, 0);
      Divided(s, n, plan, buffer[..], n') == true
  {
    hide Divided, Plan;
    ghost var s := buffer[..];
    assert s[..n] == buffer[..n];
    n' := n;
    if minor.Some? && IsTlsChello(buffer[..n]) {
      buffer[2] := minor.value;
      assert buffer[..n] == s[..n][2 := minor.value];
    }
    assert buffer[..] == Reversioned(s, n, minor) && buffer[..n] == buffer[..][..n];
    if |tlsrec| > 0 && IsTlsChello(buffer[..n]) {
      n' := SplitRecords(buffer, bfsize, n, tlsrec, info, rand);
    } else if IsTlsChello(buffer[..n]) {
      NoRounds(buffer[..], n, bfsize - n, info, rand);
    }
  }

  // -- where a single part cuts -------------------------------------------------------------

  /** What the bytes that is_tls_chello looks at mean. */
  lemma ChelloBytes(b: seq<Byte>)
    ensures IsTlsChello(b) <==> |b| > 5 && Antohs(b, 0) == 0x1603 && b[5] == 0x01
  {
  }

  /** Two records, the second of which begins with byte `t` of the request. */
  ghost predicate CutBefore(s: seq<Byte>, n: nat, t: int, s': seq<Byte>, n': nat)
    requires 5 <= t <= n && n + 5 <= |s|
  {
    var b := s[..n];
    && n' == n + 5
    && s' == (Head(b) + Be16(t - 5) + b[5..t]) + (Head(b) + Be16(Claimed(b) - (t - 5)) + b[t..]) + s[n + 5..]
  }

  /** So it is when that byte is in the request and there is room; the record may end before it. Otherwise nothing is cut. */
  ghost predicate Aimed(s: seq<Byte>, n: nat, room: int, t: int, s': seq<Byte>, n': nat)
    requires 5 <= n && n + room <= |s|
  {
    if 5 <= t <= n && room >= 5 then t - 5 <= Claimed(s[..n]) ==> CutBefore(s, n, t, s', n')
    else n' == n && s' == s
  }

  lemma OneCut(s: seq<Byte>, n: nat, room: int, part: Part, info: ProtoInfo, rand: nat -> nat, s': seq<Byte>, n': nat)
    requires part.r <= 1 && 5 <= n && 0 <= room && n + room <= |s|
    requires Divided(s, n, Plan(AllRounds([part]), n, room, info, rand, 0, 0), s', n') == true
    ensures Aimed(s, n, room, Wanted(Round(part, 0), n, 0, info, rand(0)) + 5, s', n')
  {
    hide GenOffset, Cut, Wanted;
    OneRepetition(part);
    var c, rounds := Wanted(Round(part, 0), n, 0, info, rand(0)), [Round(part, 0)];
    assert Plan(rounds, n, room, info, rand, 1, if c < 0 then 0 else c) == [];
    if 0 <= c && c + 5 <= n && room >= 5 {
      assert Plan(rounds, n, room, info, rand, 0, 0) == [c];
      if c <= Claimed(s[..n]) {
        SingleCut(s[..n], c);
        assert s' == s'[..n'] + s'[n'..];
      }
    } else {
      assert Plan(rounds, n, room, info, rand, 0, 0) == [];
      Uncut(s[..n]);
      assert s' == s'[..n'] + s'[n'..] && s == s[..n] + s[n..];
    }
  }

  lemma SingleCut(b: seq<Byte>, c: nat)
    requires CutsOf(b, [c])
    ensures 5 + c <= |b|
    ensures Split(b, [c]) == (Head(b) + Be16(c) + b[5..5 + c]) + (Head(b) + Be16(Claimed(b) - c) + b[5 + c..])
  {
    SplitIsTail(b, [c]);
  }

  /**
    A single `--tlsrec` part, by its flags: relative to the host (its begin, middle or end, or a random
    place in it), or else to a random place, to the middle or to the end of the request, or to the
    payload. That byte of the request begins the second record.
  */
  lemma TampAims(s: seq<Byte>, n: nat, room: int, part: Part, info: ProtoInfo, rand: nat -> nat, s': seq<Byte>, n': nat)
    requires part.r <= 1 && 5 <= n && 0 <= room && n + room <= |s|
    requires Divided(s, n, Plan(AllRounds([part]), n, room, info, rand, 0, 0), s', n') == true
    ensures var k, f, at := part.pos, part.flag, info.hostPos;
      && (Names(f, info) && f.end ==> Aimed(s, n, room, at + info.hostLen + k, s', n'))
      && (Names(f, info) && !f.end && f.mid ==> Aimed(s, n, room, at + info.hostLen / 2 + k, s', n'))
      && (Names(f, info) && !f.end && !f.mid && f.rand && info.hostLen > 0 ==>
        Aimed(s, n, room, at + rand(0) % info.hostLen + k, s', n'))
      && (Names(f, info) && !f.end && !f.mid && !f.rand ==> Aimed(s, n, room, at + k, s', n'))
      && ((f.sni || f.host) && !Names(f, info) ==> n' == n && s' == s)
    ensures var k, f := part.pos, part.flag;
      !f.sni && !f.host ==>
        && (f.rand ==> Aimed(s, n, room, rand(0) % n + k, s', n'))
        && (!f.rand && f.mid ==> Aimed(s, n, room, n / 2 + k, s', n'))
        && (!f.rand && !f.mid && (f.end || k < 0) ==> Aimed(s, n, room, n + k, s', n'))
        && (!f.rand && !f.mid && !f.end && k >= 0 ==> Aimed(s, n, room, if f.start then k else 5 + k, s', n'))
  {
    hide Divided, Plan, CutBefore;
    OneCut(s, n, room, part, info, rand, s', n');
  }

  /** The repetitions of a part that is not random cut `s` bytes further each time. */
  lemma EachFurther(part: Part, n: nat, room: int, info: ProtoInfo, rand: nat -> nat, i: nat)
    requires !part.flag.rand
    ensures var p := Plan(AllRounds([part]), n, room, info, rand, 0, 0);
      i < |p| ==> i < |AllRounds([part])| && p[i] == p[0] + part.s * i
  {
    hide GenOffset, AllRounds, Plan;
    var rounds := AllRounds([part]);
    RoundsAre([part]);
    assert Flat([part], 0) == Repeated(part) + [];
    var p := Plan(rounds, n, room, info, rand, 0, 0);
    if i < |p| {
      var lp := PlanAt(rounds, n, room, info, rand, 0, 0, i);
      var lp0 := PlanAt(rounds, n, room, info, rand, 0, 0, 0);
      Placeless(part, n, lp, lp0, info, rand(i), rand(0));
    }
  }

  lemma Placeless(part: Part, n: nat, lp: int, lp': int, info: ProtoInfo, rnd: nat, rnd': nat)
    requires !part.flag.rand
    ensures GenOffset(part.pos, part.flag, n, lp, info, rnd) == GenOffset(part.pos, part.flag, n, lp', info, rnd')
  {
  }

  /** Every cut of the plan is where its round wants it. */
  lemma {:induction false} PlanAt(rounds: seq<Round>, n: nat, room: int, info: ProtoInfo, rand: nat -> nat, k: nat, prev: nat, i: nat)
    returns (lp: int)
    requires k <= |rounds| && i < |Plan(rounds, n, room, info, rand, k, prev)|
    ensures k + i < |rounds|
    ensures Plan(rounds, n, room, info, rand, k, prev)[i] == Wanted(rounds[k + i], n, lp, info, rand(k + i))
    decreases i
  {
    hide Wanted;
    lp := 5 * k + prev;
    if i > 0 {
      var c := Wanted(rounds[k], n, lp, info, rand(k));
      lp := PlanAt(rounds, n, room, info, rand, k + 1, c, i - 1);
    }
  }

  lemma NoRounds(s: seq<Byte>, n: nat, room: int, info: ProtoInfo, rand: nat -> nat)
    requires 5 <= n <= |s|
    ensures Divided(s, n, Plan(AllRounds([]), n, room, info, rand, 0, 0), s, n) == true
  {
    assert Plan(AllRounds([]), n, room, info, rand, 0, 0) == [];
    Divides(s, n, []);
  }

  lemma Uncut(b: seq<Byte>)
    requires |b| >= 5
    ensures CutsOf(b, []) && Split(b, []) == b
  {
    assert b == Head(b) + Be16(Claimed(b)) + b[5..];
  }
}
