/**
  The configured positions of desync.c: where to cut, how often, and gen_offset, which turns a
  configured position into one of the request at hand.
*/
module Offsets {
  /** The OFFSET_ flags of a part. */
  datatype Flags = Flags(end: bool, mid: bool, rand: bool, sni: bool, host: bool, start: bool) {
    predicate Any() {
      end || mid || rand || sni || host || start
    }
  }

  /** `struct part`: `pos` with its flags, then `r` times, each `s` further. */
  datatype Part = Part(m: int, flag: Flags, pos: int, r: int, s: int)

  /** `struct proto_info`: what the request says about its host. */
  datatype ProtoInfo = ProtoInfo(https: bool, hostPos: nat, hostLen: nat)

  /** `rand() % m`; rand() returned `rnd`. */
  function RandBelow(rnd: nat, m: int): int {
    if m > 0 then rnd % m else rnd
  }

  function InHost(flag: Flags, len: nat, rnd: nat): int {
    if flag.end then len else if flag.mid then len / 2 else if flag.rand then RandBelow(rnd, len) else 0
  }

  /** gen_offset, with `rnd` for the value of rand(). */
  function GenOffset(pos: int, flag: Flags, n: nat, lp: int, info: ProtoInfo, rnd: nat): int {
    if flag.sni || flag.host then
      if info.hostPos == 0 || (flag.sni && !info.https) then -1
      else pos + info.hostPos + InHost(flag, info.hostLen, rnd)
    else if flag.rand then pos + lp + RandBelow(rnd, n - lp)
    else if flag.mid then pos + n / 2
    else if pos < 0 || flag.end then pos + n
    else pos
  }

  /** The position is relative to the host, and there is one (over TLS if it has to be a server name). */
  predicate Names(flag: Flags, info: ProtoInfo) {
    (flag.sni || flag.host) && info.hostPos != 0 && (flag.sni ==> info.https)
  }

  /** One round of a loop over parts: the part and how often it has been done before. */
  datatype Round = Round(part: Part, m: int)

  /** The rounds left when `r` repetitions of `part` and the parts from `i` on are left. */
  function Rounds(parts: seq<Part>, i: nat, part: Part, r: int): seq<Round>
    requires i <= |parts|
    decreases |parts| - i, if r > 0 then r else 0
  {
    if r > 0 then [Round(part, part.r - r)] + Rounds(parts, i, part, r - 1)
    else if i < |parts| then [Round(parts[i], 0)] + Rounds(parts, i + 1, parts[i], parts[i].r - 1)
    else []
  }

  /** The rounds of `for (; r > 0 || i < n; r--)` over all parts. */
  function AllRounds(parts: seq<Part>): seq<Round> {
    if |parts| == 0 then [] else Rounds(parts, 0, parts[0], 0)
  }

  /** All repetitions of a part; it is done once at least. */
  function Repeated(part: Part): seq<Round> {
    seq(if part.r > 1 then part.r else 1, j => Round(part, j))
  }

  function Flat(parts: seq<Part>, i: nat): seq<Round>
    requires i <= |parts|
    decreases |parts| - i
  {
    if i == |parts| then [] else Repeated(parts[i]) + Flat(parts, i + 1)
  }

  /** The last `r` repetitions. */
  function LastOnes(part: Part, r: int): seq<Round>
    requires r <= part.r
  {
    if r > 0 then Repeated(part)[part.r - r..] else []
  }

  lemma OneLess(part: Part, r: int)
    requires r <= part.r
    ensures r > 0 ==> LastOnes(part, r) == [Round(part, part.r - r)] + LastOnes(part, r - 1)
    ensures Repeated(part) == [Round(part, 0)] + LastOnes(part, part.r - 1)
  {
  }

  lemma {:induction false} RoundsFlat(parts: seq<Part>, i: nat, part: Part, r: int)
    requires i <= |parts| && r <= part.r
    ensures Rounds(parts, i, part, r) == LastOnes(part, r) + Flat(parts, i)
    decreases |parts| - i, if r > 0 then r else 0
  {
    hide LastOnes, Repeated;
    if r > 0 {
      RoundsFlat(parts, i, part, r - 1);
      OneLess(part, r);
      Glue([Round(part, part.r - r)], LastOnes(part, r - 1), Flat(parts, i));
    } else if i < |parts| {
      RoundsFlat(parts, i + 1, parts[i], parts[i].r - 1);
      OneLess(parts[i], parts[i].r - 1);
      NoneLast(part, r, Flat(parts, i));
      Glue([Round(parts[i], 0)], LastOnes(parts[i], parts[i].r - 1), Flat(parts, i + 1));
    } else {
      NoneLast(part, r, []);
    }
  }

  lemma NoneLast(part: Part, r: int, x: seq<Round>)
    requires r <= part.r && r <= 0
    ensures LastOnes(part, r) + x == x
  {
  }

  lemma Glue(a: seq<Round>, b: seq<Round>, c: seq<Round>)
    ensures a + (b + c) == a + b + c
  {
  }

  /** The rounds are the parts one after the other, each with its repetitions counted from 0. */
  lemma RoundsAre(parts: seq<Part>)
    ensures AllRounds(parts) == Flat(parts, 0)
  {
    if |parts| > 0 {
      var part := parts[0];
      RoundsFlat(parts, 0, part, if part.r < 0 then part.r else 0);
      assert [] + Flat(parts, 0) == Flat(parts, 0);
      if part.r < 0 {
        assert Rounds(parts, 0, part, 0) == Rounds(parts, 0, part, part.r);
      }
    }
  }

  lemma OneRepetition(part: Part)
    requires part.r <= 1
    ensures AllRounds([part]) == [Round(part, 0)]
  {
    RoundsAre([part]);
    assert Flat([part], 1) == [];
    assert Repeated(part) == [Round(part, 0)];
  }

  /** What is left of the rounds. */
  ghost predicate Left(rounds: seq<Round>, k: nat, parts: seq<Part>, i: nat, part: Part, r: int) {
    k <= |rounds| && i <= |parts| && rounds[k..] == Rounds(parts, i, part, r)
  }

  lemma AllLeft(parts: seq<Part>, part: Part)
    requires |parts| > 0 ==> part == parts[0]
    ensures Left(AllRounds(parts), 0, parts, 0, part, 0) == true
  {
    assert AllRounds(parts)[0..] == AllRounds(parts);
  }

  lemma NoneLeft(rounds: seq<Round>, k: nat, parts: seq<Part>, i: nat, part: Part, r: int)
    requires Left(rounds, k, parts, i, part, r) == true && r <= 0 && i == |parts|
    ensures k == |rounds|
  {
  }

  /** The next round, with the part that it is loaded with if the last one is done. */
  lemma NextRound(rounds: seq<Round>, k: nat, parts: seq<Part>, i: nat, part: Part, r: int, i': nat, part': Part, r': int)
    requires Left(rounds, k, parts, i, part, r) == true && (r > 0 || i < |parts|)
    requires if r > 0 then i' == i && part' == part && r' == r else i' == i + 1 && part' == parts[i] && r' == parts[i].r
    ensures k < |rounds| && rounds[k] == Round(part', part'.r - r') && Left(rounds, k + 1, parts, i', part', r' - 1) == true
  {
    assert rounds[k..][1..] == rounds[k + 1..];
  }
}
