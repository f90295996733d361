/**
  The resumable splitter: desync sends a request in parts, may stop to wait after any of them,
  and is called again by on_tunnel with three cursors to tell what is out already.

  A disordered or faked part counts as in-band bytes: the kernel sends the original again.
*/
module Desync {
  import opened Bytes
  import opened Offsets

  /** The methods that are more than a send. */
  const DESYNC_OOB := 3
  const DESYNC_DISOOB := 4
  const DESYNC_FAKE := 5

  /** What a send did: took everything, took only `k` bytes, would have blocked, failed. */
  datatype SendResult = Whole | Short(k: nat) | Again | Failed

  /** What happens during one call: the sends of the parts, the final send, whether the socket holds unsent data. */
  datatype Env = Env(sends: nat -> SendResult, last: SendResult, notSent: nat -> bool)

  /** Every part is taken whole or the connection fails; the final send may also block. */
  ghost predicate Honest(env: Env) {
    (forall j :: env.sends(j) == Whole || env.sends(j) == Failed) && !env.last.Short?
  }

  datatype Segment = Segment(m: int, bytes: seq<Byte>)

  /** A send of a part or the final one, how many bytes it was given and what it did. */
  datatype Sent = Sent(part: bool, len: nat, res: SendResult)

  /** What has become of the request so far: the bytes and parts that are out, the sends, and the bytes passed over. */
  datatype View = View(inband: seq<Byte>, log: seq<Segment>, sends: seq<Sent>, lost: nat)

  const NOTHING := View([], [], [], 0)

  /** `struct buffer` */
  class Buffer {
    const data: array<Byte>
    var lock: nat
    var offset: nat

    constructor (data: array<Byte>, lock: nat)
      ensures this.data == data && this.lock == lock && offset == 0
    {
      this.data, this.lock, offset := data, lock, 0;
    }
  }

  /** The client's `round_sent` and `part_sent`, and what has reached the remote side. */
  class Conn {
    var roundSent: nat
    var partSent: nat
    ghost var view: View
    ghost var urgent: seq<Byte>

    constructor ()
      ensures roundSent == 0 && partSent == 0 && view == NOTHING && urgent == []
    {
      roundSent, partSent, view, urgent := 0, 0, NOTHING, [];
    }
  }

  const NO_FLAGS := Flags(false, false, false, false, false, false)
  const AT_RANDOM := NO_FLAGS.(rand := true)

  // -- positions ----------------------------------------------------------------------------

  /** A part whose position depends on the length of the request alone. */
  predicate Plain(p: Part) {
    !p.flag.rand && !p.flag.sni && !p.flag.host && !p.flag.start
  }

  predicate AllPlain(parts: seq<Part>) {
    forall i :: 0 <= i < |parts| ==> Plain(parts[i])
  }

  /** Where a round cuts a request of `n` bytes. */
  function PartPos(rd: Round, n: nat): int {
    GenOffset(rd.part.pos, rd.part.flag, n, 0, ProtoInfo(false, 0, 0), 0) + rd.part.s * rd.m
  }

  lemma PlainPos(rd: Round, n: nat, lp: int, info: ProtoInfo, rnd: nat)
    requires Plain(rd.part)
    ensures GenOffset(rd.part.pos, rd.part.flag, n, lp, info, rnd) + rd.part.s * rd.m == PartPos(rd, n)
  {
  }

  /** How far the request is out when round `p` (counted from 1) was the last one. */
  function Mark(rounds: seq<Round>, n: nat, p: nat): int
    requires p <= |rounds|
  {
    if p == 0 then 0 else if PartPos(rounds[p - 1], n) > n then n else PartPos(rounds[p - 1], n)
  }

  ghost predicate Ascending(rounds: seq<Round>, n: nat) {
    && (forall i :: 0 <= i < |rounds| ==> 0 <= PartPos(rounds[i], n))
    && (forall i, j :: 0 <= i < j < |rounds| ==> PartPos(rounds[i], n) <= PartPos(rounds[j], n))
  }

  ghost function SegmentOf(rounds: seq<Round>, data: seq<Byte>, n: nat, p: nat): Segment
    requires 0 < p <= |rounds| && n <= |data| && Ascending(rounds, n)
  {
    Segment(rounds[p - 1].part.m, data[Mark(rounds, n, p - 1)..Mark(rounds, n, p)])
  }

  /** The segments of the first `p` rounds when the positions ascend. */
  ghost function Segments(rounds: seq<Round>, data: seq<Byte>, n: nat, p: nat): seq<Segment>
    requires p <= |rounds| && n <= |data| && Ascending(rounds, n)
  {
    if p == 0 then []
    else Segments(rounds, data, n, p - 1) + [SegmentOf(rounds, data, n, p)]
  }

  // -- what is out --------------------------------------------------------------------------

  /**
    A send after which bytes never go out: a short one, or that of a part when it would have
    blocked. The part counts as sent in both cases, and the final send is taken for complete.
  */
  predicate Loses(e: Sent) {
    e.len > 0 && (e.res.Short? || (e.part && e.res == Again))
  }

  ghost predicate NoneLost(sends: seq<Sent>) {
    forall i :: 0 <= i < |sends| ==> !Loses(sends[i])
  }

  /** All parts were taken whole, also the empty ones. */
  ghost predicate Clean(sends: seq<Sent>) {
    forall i :: 0 <= i < |sends| ==> sends[i].res == Whole || (!sends[i].part && sends[i].res == Again)
  }

  lemma CleanLoses(sends: seq<Sent>)
    requires Clean(sends)
    ensures NoneLost(sends)
  {
    forall i | 0 <= i < |sends| ensures !Loses(sends[i]) {
      assert sends[i].res == Whole || (!sends[i].part && sends[i].res == Again);
    }
  }

  lemma OneMore(sends: seq<Sent>, e: Sent)
    ensures NoneLost(sends + [e]) <==> NoneLost(sends) && !Loses(e)
    ensures Clean(sends + [e]) <==> Clean(sends) && (e.res == Whole || (!e.part && e.res == Again))
  {
    var l := sends + [e];
    assert l[|sends|] == e && forall i :: 0 <= i < |sends| ==> l[i] == sends[i];
  }

  /**
    The cursors are at `lp` and `p`: all bytes in front of `lp` are out, once and in order, but for
    those passed over. Bytes have been passed over, or will be with the rest of part `p`, exactly
    if some send was of the kind that loses bytes.
  */
  ghost predicate Accounted(v: View, p: nat, data: seq<Byte>, rounds: seq<Round>, n: nat, lp: int) {
    && 0 <= lp <= n <= |data| && p <= |rounds| && lp <= Mark(rounds, n, p)
    && |v.inband| + v.lost == lp
    && (NoneLost(v.sends) <==> v.lost == 0 && lp == Mark(rounds, n, p))
    && (NoneLost(v.sends) ==> v.inband == data[..lp])
    && (Clean(v.sends) && Ascending(rounds, n) ==> v.log == Segments(rounds, data, n, p))
  }

  /** A prefix of the request is out. */
  ghost predicate Prefix(v: View, data: seq<Byte>, n: nat) {
    n <= |data| && |v.inband| <= n && (NoneLost(v.sends) ==> v.inband == data[..|v.inband|])
  }

  lemma PrefixOut(v: View, p: nat, data: seq<Byte>, rounds: seq<Round>, n: nat, lp: int)
    requires Accounted(v, p, data, rounds, n, lp) == true
    ensures Prefix(v, data, n) == true
  {
  }

  /**
    What holds whatever the parts are: all bytes in front of `lp` are out, once and in order, but for
    those passed over.
  */
  ghost predicate Spent(v: View, data: seq<Byte>, n: nat, lp: int) {
    && 0 <= lp <= n <= |data| && |v.inband| + v.lost == lp
    && (v.lost == 0 ==> v.inband == data[..lp])
  }

  /** Between two calls, for plain parts. */
  ghost predicate Waiting(c: Conn, b: Buffer, rounds: seq<Round>)
    reads c, b, b.data
  {
    && Accounted(c.view, c.partSent, b.data[..], rounds, b.lock, b.offset) == true && c.roundSent == b.offset
    && (b.offset == 0 ==> c.partSent == 0)
  }

  /** All of the request is dealt with. */
  ghost predicate Complete(v: View, data: seq<Byte>, rounds: seq<Round>, n: nat) {
    && n <= |data| && |v.inband| + v.lost == n
    && (NoneLost(v.sends) <==> v.lost == 0)
    && (NoneLost(v.sends) ==> v.inband == data[..n])
    && (Clean(v.sends) && Ascending(rounds, n) ==> v.log == Segments(rounds, data, n, |rounds|))
  }

  // -- sending one part ---------------------------------------------------------------------

  /** A short count of everything is everything. */
  function Clip(res: SendResult, len: nat): SendResult {
    if res.Short? && res.k >= len then Whole else res
  }

  function Counted(res: SendResult, len: nat): int {
    match res
    case Whole => len
    case Short(k) => k
    case _ => -1
  }

  /** What a send of `bytes` adds to the view. */
  ghost function After(v: View, m: int, part: bool, bytes: seq<Byte>, res: SendResult): View {
    match res
    case Whole =>
      var log := if part then v.log + [Segment(m, bytes)] else v.log;
      View(v.inband + bytes, log, v.sends + [Sent(part, |bytes|, Whole)], v.lost)
    case Short(k) =>
      View(v.inband + if k <= |bytes| then bytes[..k] else bytes, v.log, v.sends + [Sent(part, |bytes|, res)], v.lost)
    case Again => v.(sends := v.sends + [Sent(part, |bytes|, Again)])
    case Failed => v
  }

  /** `send` on the bytes of a part. */
  method Send(c: Conn, m: int, bytes: seq<Byte>, res: SendResult) returns (s: int)
    requires res.Short? ==> res.k < |bytes|
    modifies c`view
    ensures c.view == After(old(c.view), m, true, bytes, res) && s == Counted(res, |bytes|)
  {
    c.view := After(c.view, m, true, bytes, res);
    s := match res case Whole => |bytes| case Short(k) => k case _ => -1;
  }

  predicate Urgent(m: int) {
    m == DESYNC_OOB || m == DESYNC_DISOOB
  }

  /** The urgent bytes that go with the parts of `log`: one for each part of these two methods. */
  ghost function Urgents(log: seq<Segment>, oob: Byte): seq<Byte> {
    if |log| == 0 then []
    else Urgents(log[..|log| - 1], oob) + if Urgent(log[|log| - 1].m) then [oob] else []
  }

  /** More parts may be out than before, and exactly the urgent bytes that go with them. */
  ghost predicate Urged(v: View, u: seq<Byte>, v': View, u': seq<Byte>, oob: Byte) {
    && |v.log| <= |v'.log| && v'.log[..|v.log|] == v.log
    && u' == u + Urgents(v'.log[|v.log|..], oob)
  }

  lemma {:induction false} UrgentsAppend(a: seq<Segment>, b: seq<Segment>, oob: Byte)
    ensures Urgents(a + b, oob) == Urgents(a, oob) + Urgents(b, oob)
  {
    if |b| == 0 {
      assert a + b == a;
    } else {
      var k := |b| - 1;
      UrgentsAppend(a, b[..k], oob);
      assert (a + b)[..|a| + k] == a + b[..k];
      Joined(Urgents(a, oob), Urgents(b[..k], oob), if Urgent(b[k].m) then [oob] else []);
    }
  }

  lemma Joined(a: seq<Byte>, b: seq<Byte>, c: seq<Byte>)
    ensures a + (b + c) == a + b + c
  {
  }

  lemma UrgedSame(v: View, v': View, u: seq<Byte>, oob: Byte)
    requires v'.log == v.log
    ensures Urged(v, u, v', u, oob) == true
  {
    assert u + [] == u;
  }

  lemma UrgedTwice(v: View, u: seq<Byte>, v1: View, u1: seq<Byte>, v2: View, u2: seq<Byte>, oob: Byte)
    requires Urged(v, u, v1, u1, oob) == true && Urged(v1, u1, v2, u2, oob) == true
    ensures Urged(v, u, v2, u2, oob) == true
  {
    var i, j := |v.log|, |v1.log|;
    assert v2.log[..i] == v2.log[..j][..i];
    assert v2.log[i..] == v1.log[i..] + v2.log[j..] by {
      assert v2.log[i..] == v2.log[..j][i..] + v2.log[j..];
    }
    UrgentsAppend(v1.log[i..], v2.log[j..], oob);
    Joined(u, Urgents(v1.log[i..], oob), Urgents(v2.log[j..], oob));
  }

  /** A part that was sent. */
  lemma UrgedPart(v: View, u: seq<Byte>, m: int, bytes: seq<Byte>, res: SendResult, oob: Byte)
    ensures Urged(v, u, After(v, m, true, bytes, res), u + if Urgent(m) && res == Whole then [oob] else [], oob) == true
  {
    var v' := After(v, m, true, bytes, res);
    if res == Whole {
      assert v'.log[|v.log|..] == [Segment(m, bytes)];
      assert [Segment(m, bytes)][..0] == [];
      assert Urgents([Segment(m, bytes)], oob) == if Urgent(m) then [oob] else [];
    } else {
      assert v'.log == v.log;
      UrgedSame(v, v', u, oob);
      assert u + [] == u;
    }
  }

  /** How many of the first `p` rounds are of these methods. */
  function OobRounds(rounds: seq<Round>, p: nat): nat
    requires p <= |rounds|
  {
    if p == 0 then 0 else OobRounds(rounds, p - 1) + if Urgent(rounds[p - 1].part.m) then 1 else 0
  }

  /** When the configured parts are out, there is one urgent byte for each of these rounds. */
  lemma {:induction false} UrgentRounds(rounds: seq<Round>, data: seq<Byte>, n: nat, p: nat, oob: Byte)
    requires p <= |rounds| && n <= |data| && Ascending(rounds, n)
    ensures Urgents(Segments(rounds, data, n, p), oob) == seq(OobRounds(rounds, p), _ => oob)
  {
    if p > 0 {
      UrgentRounds(rounds, data, n, p - 1, oob);
      var l, e := Segments(rounds, data, n, p - 1), SegmentOf(rounds, data, n, p);
      assert (l + [e])[..|l|] == l;
    }
  }

  /** Without room for the urgent byte nothing is sent; errno is what it was. */
  function Roomless(res: SendResult): SendResult {
    if res == Again then Again else Failed
  }

  /**
    send_oob: one byte more than the part, and that one urgent. The byte of the request in its
    place is written over for the time of the call.
  */
  method SendOob(c: Conn, data: array<Byte>, bfsize: nat, m: int, lp: nat, pos: nat, oob: Byte, res: SendResult)
    returns (s: int)
    requires lp <= pos <= bfsize <= data.Length && (res.Short? ==> res.k < pos - lp)
    modifies c`view, c`urgent, data
    ensures data[..] == old(data[..])
    ensures var done := if bfsize == pos then Roomless(res) else res;
      && c.view == After(old(c.view), m, true, data[lp..pos], done) && s == Counted(done, pos - lp)
      && c.urgent == if done == Whole then old(c.urgent) + [oob] else old(c.urgent)
  {
    if bfsize - lp <= pos - lp {
      c.view := After(c.view, m, true, data[lp..pos], Roomless(res));
      return -1;
    }
    ghost var d, part := data[..], data[lp..pos];
    var rchar := data[pos];
    data[pos] := oob;
    assert data[lp..pos] == part;
    s := Send(c, m, data[lp..pos], res);
    if res == Whole {
      c.urgent := c.urgent + [data[pos]];
    }
    data[pos] := rchar;
    assert data[..] == d && data[lp..pos] == part;
  }

  /** How the send of a part ends, `room` telling whether the buffer goes on behind it. */
  function Outcome(m: int, len: nat, room: bool, res: SendResult): SendResult {
    if m == DESYNC_FAKE && len == 0 then Whole
    else if (m == DESYNC_OOB || m == DESYNC_DISOOB) && !room then Roomless(res)
    else res
  }

  /** The switch over the method of a part. */
  method SendPart(c: Conn, data: array<Byte>, bfsize: nat, m: int, lp: nat, pos: nat, oob: Byte, res: SendResult)
    returns (s: int)
    requires lp <= pos <= bfsize <= data.Length && (res.Short? ==> res.k < pos - lp)
    modifies c`view, c`urgent, data
    ensures data[..] == old(data[..])
    ensures var done := Outcome(m, pos - lp, pos < bfsize, res);
      && c.view == After(old(c.view), m, true, old(data[lp..pos]), done) && s == Counted(done, pos - lp)
      && c.urgent == old(c.urgent) + if Urgent(m) && done == Whole then [oob] else []
  {
    hide After;
    ghost var d := data[..];
    assert c.urgent + [] == c.urgent;
    if m == DESYNC_FAKE && pos == lp {
      // nothing to send
      c.view := After(c.view, m, true, data[lp..pos], Whole);
      s := 0;
    } else if m == DESYNC_OOB || m == DESYNC_DISOOB {
      s := SendOob(c, data, bfsize, m, lp, pos, oob, res);
      assert data[lp..pos] == data[..][lp..pos] == d[lp..pos];
    } else {
      s := Send(c, m, data[lp..pos], res);
    }
  }

  /** The bytes of the part that the last call ended with are passed over. */
  ghost function PassedOver(v: View, len: nat): View {
    v.(lost := v.lost + len)
  }

  /** One part: sent now unless it is the one that the last call ended with; then part_sent. */
  method DoPart(c: Conn, data: array<Byte>, bfsize: nat, m: int, lp: nat, pos: nat, curr: nat, partSkip: nat, oob: Byte,
                res: SendResult)
    returns (s: int)
    requires lp <= pos <= bfsize <= data.Length && (res.Short? ==> res.k < pos - lp)
    modifies c`partSent, c`view, c`urgent, data
    ensures data[..] == old(data[..]) && c.partSent == curr
    ensures curr == partSkip ==> s == pos - lp && c.view == PassedOver(old(c.view), pos - lp) && c.urgent == old(c.urgent)
    ensures curr != partSkip ==>
      var done := Outcome(m, pos - lp, pos < bfsize, res);
      && c.view == After(old(c.view), m, true, old(data[lp..pos]), done) && s == Counted(done, pos - lp)
      && c.urgent == old(c.urgent) + if Urgent(m) && done == Whole then [oob] else []
  {
    if curr == partSkip {
      s := pos - lp;
      c.view := PassedOver(c.view, pos - lp);
    } else {
      s := SendPart(c, data, bfsize, m, lp, pos, oob, res);
    }
    c.partSent := curr;
  }

  // -- desync -------------------------------------------------------------------------------

  /** What holds in front of round `curr` + 1; `offset` and `skipped` are what the call began with. */
  ghost predicate Between(v: View, p: nat, data: seq<Byte>, rounds: seq<Round>, n: nat, lp: int, curr: nat, offset: nat,
                          skipped: nat)
  {
    && Accounted(v, p, data, rounds, n, lp) && offset <= lp && skipped <= p && offset <= Mark(rounds, n, skipped)
    && (curr < skipped ==> p == skipped && lp == offset)
    && (curr >= skipped ==> lp == Mark(rounds, n, p) && p <= curr && (Ascending(rounds, n) ==> p == curr))
  }

  datatype Verdict = Skip | Stop | Cut(pos: int)

  /** What the three tests in front of a send make of a position; `start` is OFFSET_START. */
  function Judge(pos: int, n: nat, lp: int, curr: nat, offset: nat, skip: nat, partSkip: nat, start: bool): Verdict {
    if ((skip != 0 && pos < skip) || curr < partSkip) && !start then Skip
    else if offset != 0 && pos < offset then Skip
    else if pos < 0 || pos < lp then Stop
    else Cut(if pos > n then n else pos)
  }

  lemma Judged(v: View, p: nat, data: seq<Byte>, rounds: seq<Round>, n: nat, lp: int, curr: nat, offset: nat, skipped: nat)
    requires Between(v, p, data, rounds, n, lp, curr, offset, skipped) == true && curr < |rounds|
    ensures match Judge(PartPos(rounds[curr], n), n, lp, curr + 1, offset, offset, skipped, false)
      case Skip => Between(v, p, data, rounds, n, lp, curr + 1, offset, skipped) == true
      case Stop => curr >= skipped && !Ascending(rounds, n)
      case Cut(pos) => lp <= pos == Mark(rounds, n, curr + 1) <= n && curr + 1 >= skipped
  {
    hide Accounted;
    assert Accounted(v, p, data, rounds, n, lp) && 0 <= lp <= n by {
      Placed(v, p, data, rounds, n, lp);
    }
    if curr + 1 > skipped && Ascending(rounds, n) {
      if curr > 0 {
        assert PartPos(rounds[curr - 1], n) <= PartPos(rounds[curr], n);
      }
      if skipped > 0 && skipped - 1 < curr {
        assert PartPos(rounds[skipped - 1], n) <= PartPos(rounds[curr], n);
      }
    }
  }

  lemma Placed(v: View, p: nat, data: seq<Byte>, rounds: seq<Round>, n: nat, lp: int)
    requires Accounted(v, p, data, rounds, n, lp)
    ensures 0 <= lp <= n <= |data| && p <= |rounds| && lp <= Mark(rounds, n, p)
  {
  }

  /** After the part that the last call ended with. */
  lemma AfterSkipped(v: View, p: nat, data: seq<Byte>, rounds: seq<Round>, n: nat, lp: int, curr: nat, offset: nat, pos: int)
    requires 0 < curr <= |rounds| && Between(v, p, data, rounds, n, lp, curr - 1, offset, curr) == true
    requires lp <= pos == Mark(rounds, n, curr) <= n
    ensures Between(PassedOver(v, pos - lp), curr, data, rounds, n, pos, curr, offset, curr) == true
  {
  }

  /** After a part that was sent: whole, in part, or not at all. */
  lemma AfterSent(v: View, p: nat, data: seq<Byte>, rounds: seq<Round>, n: nat, lp: int, curr: nat, offset: nat, skipped: nat,
                  pos: int, res: SendResult)
    requires skipped < curr <= |rounds| && Between(v, p, data, rounds, n, lp, curr - 1, offset, skipped) == true
    requires 0 <= lp <= pos == Mark(rounds, n, curr) <= n <= |data| && (res.Short? ==> res.k < pos - lp)
    ensures var v' := After(v, rounds[curr - 1].part.m, true, data[lp..pos], res);
      match res
      case Whole => Between(v', curr, data, rounds, n, pos, curr, offset, skipped) == true
      case Short(k) => Accounted(v', curr, data, rounds, n, lp + k) == true
      case Again => Accounted(v', curr, data, rounds, n, lp) == true
      case Failed => v' == v
  {
    if res != Failed {
      OneMore(v.sends, Sent(true, pos - lp, res));
    }
    if res == Whole {
      assert data[..lp] + data[lp..pos] == data[..pos];
    }
  }

  /** How a round ends: go on behind `lp`, leave the loop, return with `lp` bytes dealt with, give up. */
  datatype RoundEnd = Next(lp: nat) | Leave | Pause(lp: nat, wait: bool) | Fail

  /** What a call goes by: the request, the rounds, the cursors that it began with, and what happens during it. */
  datatype Ctx = Ctx(data: seq<Byte>, bfsize: nat, n: nat, rounds: seq<Round>, offset: nat, partSkip: nat, info: ProtoInfo,
    rand: nat -> nat, env: Env, waitSend: bool)

  /** Where round `curr` cuts in this call; it may depend on the host, on rand() and on what is out already. */
  function PosOf(x: Ctx, lp: nat, curr: nat): int
    requires 0 < curr <= |x.rounds|
  {
    var rd := x.rounds[curr - 1];
    GenOffset(rd.part.pos, rd.part.flag, x.n, lp, x.info, x.rand(curr - 1)) + rd.part.s * rd.m
  }

  /** The view and `part_sent` after a round, and how it ended. */
  datatype Step = Step(view: View, partSent: nat, end: RoundEnd)

  /** What becomes of a round that cuts at `pos`, `done` telling how the part was sent. */
  function EndOf(x: Ctx, lp: nat, pos: nat, curr: nat, done: SendResult): RoundEnd {
    match done
    case Whole => if x.env.notSent(curr) || (x.waitSend && curr > x.partSkip) then Pause(pos, true) else Next(pos)
    case Short(k) => Pause(lp + k, false)
    case Again => Pause(lp, false)
    case Failed => Fail
  }

  /** A round that cuts at `pos`. */
  ghost function StepAt(x: Ctx, v: View, lp: nat, pos: nat, curr: nat): (s: Step)
    requires 0 < curr <= |x.rounds| && lp <= pos <= x.n <= |x.data|
    ensures s.end.Next? ==> s.end.lp <= x.n
    ensures !s.end.Leave?
  {
    if curr == x.partSkip then Step(PassedOver(v, pos - lp), curr, EndOf(x, lp, pos, curr, Whole))
    else
      var m := x.rounds[curr - 1].part.m;
      var done := Outcome(m, pos - lp, pos < x.bfsize, Clip(x.env.sends(curr), pos - lp));
      Step(After(v, m, true, x.data[lp..pos], done), curr, EndOf(x, lp, pos, curr, done))
  }

  ghost function StepOf(x: Ctx, v: View, p: nat, lp: nat, curr: nat): (s: Step)
    requires 0 < curr <= |x.rounds| && lp <= x.n <= |x.data|
    ensures s.end.Next? ==> s.end.lp <= x.n
  {
    match Judge(PosOf(x, lp, curr), x.n, lp, curr, x.offset, x.offset, x.partSkip, x.rounds[curr - 1].part.flag.start)
    case Skip => Step(v, p, Next(lp))
    case Stop => Step(v, p, Leave)
    case Cut(pos) => StepAt(x, v, lp, pos, curr)
  }

  /** The rounds behind the first `curr`. */
  ghost function Walk(x: Ctx, v: View, p: nat, lp: nat, curr: nat): (s: Step)
    requires curr <= |x.rounds| && lp <= x.n <= |x.data|
    ensures !s.end.Leave? && (s.end.Next? ==> s.end.lp <= x.n)
    decreases |x.rounds| - curr
  {
    if curr == |x.rounds| then Step(v, p, Next(lp))
    else
      var s := StepOf(x, v, p, lp, curr + 1);
      match s.end
      case Next(to) => Walk(x, s.view, s.partSent, to, curr + 1)
      case Leave => Step(v, p, Next(lp))
      case _ => s
  }

  /** The view after a call, `part_sent`, and what desync answers. */
  datatype Call = Call(view: View, partSent: nat, r: int, wait: bool)

  ghost function RestOf(x: Ctx, v: View, p: nat, lp: nat): Call
    requires lp <= x.n <= |x.data|
  {
    if lp == x.n then Call(v, p, x.n - x.offset, false)
    else
      var res := Clip(x.env.last, x.n - lp);
      var v' := After(v, 0, false, x.data[lp..x.n], res);
      match res
      case Failed => Call(v, p, -1, false)
      case Again => Call(v', p, lp - x.offset, false)
      case Short(k) => Call(PassedOver(v', x.n - lp - k), p, x.n - x.offset, false)
      case Whole => Call(v', p, x.n - x.offset, false)
  }

  lemma WalkStep(x: Ctx, v: View, p: nat, lp: nat, curr: nat, s: Step)
    requires curr < |x.rounds| && lp <= x.n <= |x.data| && s == StepOf(x, v, p, lp, curr + 1)
    ensures Walk(x, v, p, lp, curr) == match s.end
      case Next(to) => Walk(x, s.view, s.partSent, to, curr + 1)
      case Leave => Step(v, p, Next(lp))
      case _ => s
  {
  }

  lemma WalkEnds(x: Ctx, v: View, p: nat, lp: nat)
    requires lp <= x.n <= |x.data|
    ensures Walk(x, v, p, lp, |x.rounds|) == Step(v, p, Next(lp))
  {
  }

  /** All of desync: what is out after a call is a function of what was out before and of what the sends did. */
  ghost function Called(x: Ctx, v: View): Call
    requires x.offset <= x.n <= |x.data|
  {
    var s := Walk(x, v, x.partSkip, x.offset, 0);
    match s.end
    case Next(lp) => RestOf(x, s.view, s.partSent, lp)
    case Pause(to, again) => Call(s.view, s.partSent, to - x.offset, again)
    case _ => Call(s.view, s.partSent, -1, false)
  }

  ghost function CtxOf(partSkip: nat, buff: Buffer, bfsize: nat, parts: seq<Part>, info: ProtoInfo, rand: nat -> nat, env: Env,
                       waitSend: bool): Ctx
    reads buff, buff.data
  {
    Ctx(buff.data[..], bfsize, buff.lock, AllRounds(parts), buff.offset, partSkip, info, rand, env, waitSend)
  }

  /** A part that was sent, whole or not, or passed over, keeps the account of all parts. */
  lemma SpentMore(v: View, m: int, part: bool, data: seq<Byte>, n: nat, lp: int, pos: int, res: SendResult)
    requires Spent(v, data, n, lp) && lp <= pos <= n && (res.Short? ==> res.k < pos - lp)
    ensures Spent(PassedOver(v, pos - lp), data, n, pos)
    ensures var v' := After(v, m, part, data[lp..pos], res);
      match res
      case Whole => Spent(v', data, n, pos)
      case Short(k) => Spent(v', data, n, lp + k) && Spent(PassedOver(v', pos - lp - k), data, n, pos)
      case Again => Spent(v', data, n, lp)
      case Failed => v' == v
  {
    assert data[..lp] + data[lp..pos] == data[..pos];
    if res.Short? {
      assert data[..lp] + data[lp..pos][..res.k] == data[..lp + res.k];
    }
  }

  /** A round from the send on: the part, and what its result leads to. */
  method SendRound(c: Conn, data: array<Byte>, bfsize: nat, n: nat, m: int, lp: nat, pos: nat, curr: nat, offset: nat,
                   partSkip: nat, env: Env, waitSend: bool, oob: Byte, ghost rounds: seq<Round>, ghost x: Ctx, ghost plain: bool)
    returns (e: RoundEnd)
    requires 0 < curr <= |rounds| && rounds[curr - 1].part.m == m && n <= bfsize <= data.Length && offset <= lp <= pos <= n
    requires x.data == data[..] && x.bfsize == bfsize && x.n == n && x.rounds == rounds && x.offset == offset
    requires x.partSkip == partSkip && x.env == env && x.waitSend == waitSend
    requires Spent(c.view, data[..], n, lp) == true
    requires plain ==> pos == Mark(rounds, n, curr) && curr >= partSkip
    requires plain ==> Between(c.view, c.partSent, data[..], rounds, n, lp, curr - 1, offset, partSkip) == true
    modifies c`partSent, c`view, c`urgent, data
    ensures data[..] == old(data[..]) && !e.Leave?
    ensures e.Next? ==> lp <= e.lp <= n && Spent(c.view, data[..], n, e.lp) == true
    ensures e.Pause? ==> lp <= e.lp <= n && Spent(c.view, data[..], n, e.lp) == true
    ensures plain && e.Next? ==> Between(c.view, c.partSent, data[..], rounds, n, e.lp, curr, offset, partSkip) == true
    ensures plain && e.Pause? ==> Accounted(c.view, c.partSent, data[..], rounds, n, e.lp) == true
    ensures e.Pause? && !e.wait ==> !Clean(c.view.sends)
    ensures e.Fail? ==> c.view == old(c.view)
    ensures Honest(env) && Clean(old(c.view.sends)) ==> Clean(c.view.sends)
    ensures Step(c.view, c.partSent, e) == StepAt(x, old(c.view), lp, pos, curr)
    ensures Urged(old(c.view), old(c.urgent), c.view, c.urgent, oob) == true
  {
    hide Between, Accounted, After, Mark, Clean, Honest, Spent, Urged, Urgent;
    ghost var d, v, p, u := data[..], c.view, c.partSent, c.urgent;
    var res := Clip(env.sends(curr), pos - lp);
    ghost var done := Outcome(m, pos - lp, pos < bfsize, res);
    var s := DoPart(c, data, bfsize, m, lp, pos, curr, partSkip, oob, res);
    assert old(data[lp..pos]) == d[lp..pos];
    SpentMore(v, m, true, d, n, lp, pos, done);
    UrgedPart(v, u, m, d[lp..pos], done, oob);
    UrgedSame(v, PassedOver(v, pos - lp), u, oob);
    if curr != partSkip {
      CleanAfter(v, m, d[lp..pos], done, env, curr, pos - lp, pos < bfsize);
    }
    if plain {
      if curr == partSkip {
        AfterSkipped(v, p, d, rounds, n, lp, curr, offset, pos);
      } else {
        AfterSent(v, p, d, rounds, n, lp, curr, offset, partSkip, pos, done);
      }
    }
    if s < 0 {
      if res == Again {
        return Pause(lp, false);
      }
      return Fail;
    } else if s != pos - lp {
      return Pause(lp + s, false);
    }
    if env.notSent(curr) || (waitSend && curr > partSkip) {
      if plain {
        Begun(c.view, curr, d, rounds, n, pos, curr, offset, partSkip);
      }
      return Pause(pos, true);
    }
    return Next(pos);
  }

  /** One round of the loop of desync, counted `curr` from 1. */
  method OneRound(c: Conn, data: array<Byte>, bfsize: nat, n: nat, part: Part, m: int, lp: nat, curr: nat, offset: nat,
                  skip: nat, partSkip: nat, info: ProtoInfo, rand: nat -> nat, env: Env, waitSend: bool, oob: Byte,
                  ghost x: Ctx, ghost plain: bool)
    returns (e: RoundEnd)
    requires x == Ctx(data[..], bfsize, n, x.rounds, offset, partSkip, info, rand, env, waitSend)
    requires 0 < curr <= |x.rounds| && x.rounds[curr - 1] == Round(part, m) && (plain ==> Plain(part))
    requires n <= bfsize <= data.Length && skip == offset <= lp <= n && Spent(c.view, data[..], n, lp) == true
    requires plain ==> Between(c.view, c.partSent, data[..], x.rounds, n, lp, curr - 1, offset, partSkip) == true
    modifies c`partSent, c`view, c`urgent, data
    ensures data[..] == old(data[..])
    ensures e.Next? ==> lp <= e.lp <= n && Spent(c.view, data[..], n, e.lp) == true
    ensures e.Pause? ==> lp <= e.lp <= n && Spent(c.view, data[..], n, e.lp) == true
    ensures plain && e.Next? ==> Between(c.view, c.partSent, data[..], x.rounds, n, e.lp, curr, offset, partSkip) == true
    ensures plain && e.Pause? ==> Accounted(c.view, c.partSent, data[..], x.rounds, n, e.lp) == true
    ensures e.Pause? && !e.wait ==> !Clean(c.view.sends)
    ensures plain && e.Leave? ==>
      && !Ascending(x.rounds, n) && curr > partSkip
      && Between(c.view, c.partSent, data[..], x.rounds, n, lp, curr - 1, offset, partSkip) == true
    ensures e.Leave? ==> c.partSent == old(c.partSent)
    ensures e.Leave? || e.Fail? ==> c.view == old(c.view)
    ensures Honest(env) && Clean(old(c.view.sends)) ==> Clean(c.view.sends)
    ensures Step(c.view, c.partSent, e) == StepOf(x, old(c.view), old(c.partSent), lp, curr)
    ensures Urged(old(c.view), old(c.urgent), c.view, c.urgent, oob) == true
  {
    hide Between, Accounted, Ascending, Mark, GenOffset, Clean, Honest, Spent, StepAt, Urged;
    UrgedSame(c.view, c.view, c.urgent, oob);
    var pos := GenOffset(part.pos, part.flag, n, lp, info, rand(curr - 1));
    pos := pos + part.s * m;
    if plain {
      PlainPos(x.rounds[curr - 1], n, lp, info, rand(curr - 1));
      Judged(c.view, c.partSent, data[..], x.rounds, n, lp, curr - 1, offset, partSkip);
    }
    if ((skip != 0 && pos < skip) || curr < partSkip) && !part.flag.start {
      return Next(lp);
    }
    if offset != 0 && pos < offset {
      return Next(lp);
    }
    if pos < 0 || pos < lp {
      return Leave;
    }
    if pos > n {
      pos := n;
    }
    e := SendRound(c, data, bfsize, n, part.m, lp, pos, curr, offset, partSkip, env, waitSend, oob, x.rounds, x, plain);
  }

  lemma Begun(v: View, p: nat, data: seq<Byte>, rounds: seq<Round>, n: nat, lp: int, curr: nat, offset: nat, skipped: nat)
    requires Between(v, p, data, rounds, n, lp, curr, offset, skipped) == true
    ensures Accounted(v, p, data, rounds, n, lp) == true && offset <= lp <= n <= |data|
  {
  }

  /** With an honest environment no part is cut or blocked. */
  lemma CleanAfter(v: View, m: int, bytes: seq<Byte>, done: SendResult, env: Env, curr: nat, len: nat, room: bool)
    requires done == Outcome(m, len, room, Clip(env.sends(curr), len))
    ensures Honest(env) && Clean(v.sends) ==> Clean(After(v, m, true, bytes, done).sends)
    ensures done == Again || done.Short? ==> !Clean(After(v, m, true, bytes, done).sends)
  {
    OneMore(v.sends, Sent(true, |bytes|, done));
  }

  lemma AllRoundsPlain(parts: seq<Part>)
    requires AllPlain(parts)
    ensures |parts| > 0 ==> Plain(parts[0])
    ensures forall k :: 0 <= k < |AllRounds(parts)| ==> Plain(AllRounds(parts)[k].part)
  {
    if |parts| > 0 {
      RoundsPlain(parts, 0, parts[0], 0);
    }
  }

  lemma {:induction false} RoundsPlain(parts: seq<Part>, i: nat, part: Part, r: int)
    requires i <= |parts| && AllPlain(parts) && (r > 0 ==> Plain(part))
    ensures forall k :: 0 <= k < |Rounds(parts, i, part, r)| ==> Plain(Rounds(parts, i, part, r)[k].part)
    decreases |parts| - i, if r > 0 then r else 0
  {
    if r > 0 {
      RoundsPlain(parts, i, part, r - 1);
    } else if i < |parts| {
      RoundsPlain(parts, i + 1, parts[i], parts[i].r - 1);
    }
  }

  /** The loop of desync is over, or was left early; `lp` bytes are dealt with. */
  ghost predicate LoopDone(v: View, p: nat, data: seq<Byte>, rounds: seq<Round>, n: nat, lp: int) {
    && Accounted(v, p, data, rounds, n, lp) && lp == Mark(rounds, n, p)
    && (Ascending(rounds, n) ==> p == |rounds|)
  }

  lemma LoopEnds(v: View, p: nat, data: seq<Byte>, rounds: seq<Round>, n: nat, lp: int, curr: nat, offset: nat, skipped: nat)
    requires Between(v, p, data, rounds, n, lp, curr, offset, skipped) == true
    requires curr == |rounds| || (curr >= skipped && !Ascending(rounds, n))
    ensures LoopDone(v, p, data, rounds, n, lp) == true && Accounted(v, p, data, rounds, n, lp) == true && offset <= lp <= n
  {
  }

  lemma Starts(v: View, p: nat, data: seq<Byte>, rounds: seq<Round>, n: nat, offset: nat)
    requires Accounted(v, p, data, rounds, n, offset) == true && (offset == 0 ==> p == 0)
    ensures Between(v, p, data, rounds, n, offset, 0, offset, p) == true && offset <= n <= |data| && p <= |rounds|
  {
  }

  /** What is behind the last part has been sent, or part of it. */
  lemma AfterRest(v: View, p: nat, data: seq<Byte>, rounds: seq<Round>, n: nat, lp: int, res: SendResult)
    requires LoopDone(v, p, data, rounds, n, lp) == true && 0 <= lp < n <= |data| && (res.Short? ==> res.k < n - lp)
    ensures var v' := After(v, 0, false, data[lp..n], res);
      match res
      case Whole => Complete(v', data, rounds, n) == true
      case Short(k) => Complete(PassedOver(v', n - lp - k), data, rounds, n) == true
      case Again => Accounted(v', p, data, rounds, n, lp) == true
      case Failed => v' == v
  {
    if res != Failed {
      OneMore(v.sends, Sent(false, n - lp, res));
    }
    assert data[..lp] + data[lp..n] == data[..n];
  }

  /** Nothing is left to send. */
  lemma NoRest(v: View, p: nat, data: seq<Byte>, rounds: seq<Round>, n: nat)
    requires Accounted(v, p, data, rounds, n, n) == true
    requires Clean(v.sends) && Ascending(rounds, n) ==> p == |rounds|
    ensures Complete(v, data, rounds, n) == true
  {
  }

  /** `send` on what is behind the last part; a short count is not noticed here. */
  method SendRest(c: Conn, data: array<Byte>, n: nat, lp: nat, offset: nat, env: Env, ghost p: nat, ghost rounds: seq<Round>,
                  ghost x: Ctx, ghost plain: bool)
    returns (r: int)
    requires x.data == data[..] && x.n == n && x.offset == offset && x.env == env
    requires offset <= lp <= n <= data.Length && Spent(c.view, data[..], n, lp) == true
    requires plain ==> LoopDone(c.view, p, data[..], rounds, n, lp) == true
    modifies c`view
    ensures r == -1 ==> c.view == old(c.view)
    ensures r != -1 ==> (offset + r == lp < n || r == n - offset) && Spent(c.view, data[..], n, offset + r) == true
    ensures plain && r != -1 ==>
      if r < n - offset then Accounted(c.view, p, data[..], rounds, n, lp) == true
      else Complete(c.view, data[..], rounds, n) == true
    ensures Honest(env) && Clean(old(c.view.sends)) ==> Clean(c.view.sends)
    ensures Call(c.view, p, r, false) == RestOf(x, old(c.view), p, lp)
    ensures c.view.log == old(c.view).log
  {
    hide Accounted, Complete, Mark, Ascending, Clean, Honest, Spent;
    if plain {
      LoopFacts(c.view, p, data[..], rounds, n, lp);
    }
    if lp < n {
      ghost var v := c.view;
      var res := Clip(env.last, n - lp);
      SpentMore(v, 0, false, data[..], n, lp, n, res);
      if plain {
        AfterRest(v, p, data[..], rounds, n, lp, res);
      }
      CleanRest(v, data[..][lp..n], res, env, n - lp);
      c.view := After(c.view, 0, false, data[..][lp..n], res);
      if res == Failed {
        return -1;
      } else if res == Again {
        return lp - offset;
      }
      if res.Short? {
        c.view := PassedOver(c.view, n - lp - res.k);
      }
    } else if plain {
      NoRest(c.view, p, data[..], rounds, n);
    }
    return n - offset;
  }

  lemma LoopFacts(v: View, p: nat, data: seq<Byte>, rounds: seq<Round>, n: nat, lp: int)
    requires LoopDone(v, p, data, rounds, n, lp) == true
    ensures Accounted(v, p, data, rounds, n, lp) == true && (Ascending(rounds, n) ==> p == |rounds|)
  {
  }

  lemma CleanRest(v: View, bytes: seq<Byte>, res: SendResult, env: Env, len: nat)
    requires res == Clip(env.last, len)
    ensures Honest(env) && Clean(v.sends) ==> Clean(After(v, 0, false, bytes, res).sends)
  {
    OneMore(v.sends, Sent(false, |bytes|, res));
  }

  /** Some bytes of the request are out, in order, but for those passed over. */
  ghost predicate Begins(v: View, data: seq<Byte>, n: nat) {
    n <= |data| && |v.inband| <= n && (v.lost == 0 ==> v.inband == data[..|v.inband|])
  }

  lemma SpentBegins(v: View, data: seq<Byte>, n: nat, lp: int)
    requires Spent(v, data, n, lp) == true
    ensures Begins(v, data, n) == true && 0 <= lp <= n <= |data|
  {
  }

  /**
    desync on the request in `buff`, which tamp has been over. `r` counts the bytes that are dealt
    with more than before; with `wait` set, or with less than the rest of the request, the caller
    is to call again later. Whatever the parts, the account of the bytes stays right; for plain
    parts it is also known which sends cost bytes.
  */
  method Desync(c: Conn, buff: Buffer, bfsize: nat, parts: seq<Part>, info: ProtoInfo, rand: nat -> nat, env: Env,
                waitSend: bool, oob: Byte)
    returns (r: int, wait: bool)
    requires buff.lock <= bfsize <= buff.data.Length && c.roundSent == buff.offset
    requires Spent(c.view, buff.data[..], buff.lock, buff.offset) == true
    requires AllPlain(parts) ==> Waiting(c, buff, AllRounds(parts))
    modifies c`partSent, c`view, c`urgent, buff.data
    ensures buff.data[..] == old(buff.data[..])
    ensures r == -1 || 0 <= r <= buff.lock - buff.offset
    ensures r == -1 ==> Begins(c.view, buff.data[..], buff.lock) == true
    ensures r >= 0 ==> Spent(c.view, buff.data[..], buff.lock, buff.offset + r) == true
    ensures AllPlain(parts) ==>
      && (r == -1 ==> Prefix(c.view, buff.data[..], buff.lock) == true)
      && (r >= 0 && (wait || r < buff.lock - buff.offset) ==>
        Accounted(c.view, c.partSent, buff.data[..], AllRounds(parts), buff.lock, buff.offset + r) == true)
      && (r == buff.lock - buff.offset && !wait ==> Complete(c.view, buff.data[..], AllRounds(parts), buff.lock) == true)
    ensures Honest(env) && Clean(old(c.view.sends)) ==> Clean(c.view.sends)
    ensures Call(c.view, c.partSent, r, wait)
      == Called(CtxOf(old(c.partSent), buff, bfsize, parts, info, rand, env, waitSend), old(c.view))
    ensures Urged(old(c.view), old(c.urgent), c.view, c.urgent, oob) == true
  {
    hide Urged, Accounted, Complete, Between, LoopDone, Mark, Ascending, Clean, Honest, Rounds, Left, Prefix, Walk, StepOf, RestOf,
      Spent, AllPlain, Begins;
    var n, offset, skip, partSkip := buff.lock, buff.offset, c.roundSent, c.partSent;
    var lp := offset;
    var part := if |parts| > 0 then parts[0] else Part(0, NO_FLAGS, 0, 0, 0);
    var i, rr, curr := 0, 0, 0;
    ghost var d, rounds, sends, plain := buff.data[..], AllRounds(parts), c.view.sends, AllPlain(parts);
    ghost var x := CtxOf(partSkip, buff, bfsize, parts, info, rand, env, waitSend);
    SpentBegins(c.view, d, n, offset);
    if plain {
      Starts(c.view, partSkip, d, rounds, n, offset);
      AllRoundsPlain(parts);
    }
    ghost var whole := Walk(x, c.view, partSkip, offset, 0);
    AllLeft(parts, part);
    var left := false;
    ghost var v0, u0 := c.view, c.urgent;
    UrgedSame(v0, v0, u0, oob);
    while !left && (rr > 0 || i < |parts|)
      invariant i <= |parts| && curr <= |rounds| && (left || Left(rounds, curr, parts, i, part, rr) == true)
      invariant buff.data[..] == d && offset <= lp <= n && Spent(c.view, d, n, lp) == true
      invariant plain ==> Between(c.view, c.partSent, d, rounds, n, lp, curr, offset, partSkip) == true
      invariant plain && left ==> curr >= partSkip && !Ascending(rounds, n)
      invariant whole == if left then Step(c.view, c.partSent, Next(lp)) else Walk(x, c.view, c.partSent, lp, curr)
      invariant Honest(env) && Clean(sends) ==> Clean(c.view.sends)
      invariant Urged(v0, u0, c.view, c.urgent, oob) == true
      decreases |rounds| - curr, !left
    {
      ghost var i0, part0, rr0 := i, part, rr;
      if rr <= 0 {
        part := parts[i];
        rr, i := part.r, i + 1;
      }
      ghost var v, p, u := c.view, c.partSent, c.urgent;
      NextRound(rounds, curr, parts, i0, part0, rr0, i, part, rr);
      var e := OneRound(c, buff.data, bfsize, n, part, part.r - rr, lp, curr + 1, offset, skip, partSkip, info, rand, env,
                        waitSend, oob, x, plain);
      WalkStep(x, v, p, lp, curr, Step(c.view, c.partSent, e));
      UrgedTwice(v0, u0, v, u, c.view, c.urgent, oob);
      match e
      case Next(to) =>
        lp, curr, rr := to, curr + 1, rr - 1;
      case Leave =>
        left := true;
      case Pause(to, again) =>
        if plain && to == n && !again {
          NoRest(c.view, c.partSent, d, rounds, n);
        }
        return to - offset, again;
      case Fail =>
        SpentBegins(c.view, d, n, lp);
        if plain {
          Begun(c.view, p, d, rounds, n, lp, curr, offset, partSkip);
          PrefixOut(c.view, p, d, rounds, n, lp);
        }
        return -1, false;
    }
    if !left {
      NoneLeft(rounds, curr, parts, i, part, rr);
      WalkEnds(x, c.view, c.partSent, lp);
    }
    SpentBegins(c.view, d, n, lp);
    if plain {
      LoopEnds(c.view, c.partSent, d, rounds, n, lp, curr, offset, partSkip);
      PrefixOut(c.view, c.partSent, d, rounds, n, lp);
    }
    ghost var v1, u1 := c.view, c.urgent;
    r := SendRest(c, buff.data, n, lp, offset, env, c.partSent, rounds, x, plain);
    UrgedSame(v1, c.view, u1, oob);
    UrgedTwice(v0, u0, v1, u1, c.view, c.urgent, oob);
    wait := false;
  }

  // -- on_tunnel ----------------------------------------------------------------------------

  /** All sent; more to send later; still nothing out, so that the next call begins with tamp again; connection lost. */
  datatype Status = Finished | Pending | Untouched | Broken

  /** What holds after a call with this outcome. */
  ghost predicate Holds(st: Status, c: Conn, buff: Buffer)
    reads c, buff, buff.data
  {
    match st
    case Finished => Spent(c.view, buff.data[..], buff.lock, buff.lock)
    case Pending => Spent(c.view, buff.data[..], buff.lock, buff.offset) && c.roundSent == buff.offset > 0
    case Untouched => c.view.inband == [] && c.roundSent == 0 == buff.offset
    case Broken => Begins(c.view, buff.data[..], buff.lock)
  }

  /** What holds in addition for plain parts. */
  ghost predicate PlainHolds(st: Status, c: Conn, buff: Buffer, rounds: seq<Round>)
    reads c, buff, buff.data
  {
    match st
    case Finished => Complete(c.view, buff.data[..], rounds, buff.lock)
    case Pending => Waiting(c, buff, rounds)
    case Untouched => true
    case Broken => Prefix(c.view, buff.data[..], buff.lock)
  }

  lemma NothingOut(v: View, data: seq<Byte>, n: nat)
    requires Spent(v, data, n, 0) == true
    ensures v.inband == []
  {
  }

  /** The sending half of on_tunnel with tcp_send_hook in between: the first call or a later one. */
  method Forward(c: Conn, buff: Buffer, bfsize: nat, parts: seq<Part>, info: ProtoInfo, rand: nat -> nat, env: Env,
                 waitSend: bool, oob: Byte)
    returns (st: Status)
    requires buff.lock <= bfsize <= buff.data.Length && c.roundSent == buff.offset
    requires Spent(c.view, buff.data[..], buff.lock, buff.offset) == true
    requires AllPlain(parts) ==> Waiting(c, buff, AllRounds(parts)) == true
    modifies c, buff`offset, buff.data
    ensures buff.data[..] == old(buff.data[..])
    ensures Holds(st, c, buff) == true && (AllPlain(parts) ==> PlainHolds(st, c, buff, AllRounds(parts)) == true)
    ensures Honest(env) && Clean(old(c.view.sends)) ==> Clean(c.view.sends)
    ensures var call := Called(old(CtxOf(c.partSent, buff, bfsize, parts, info, rand, env, waitSend)), old(c.view));
      && c.view == call.view && c.partSent == call.partSent
      && (st == Broken <==> call.r < 0)
      && (st == Finished <==> call.r == old(buff.lock - buff.offset) && !call.wait)
      && (call.r >= 0 ==> c.roundSent == old(c.roundSent) + call.r)
      && (st == Pending ==> buff.offset == old(buff.offset) + call.r)
    ensures Urged(old(c.view), old(c.urgent), c.view, c.urgent, oob) == true
  {
    hide Urged, Accounted, Complete, Clean, Honest, AllRounds, AllPlain, Prefix, Called, Spent, Begins;
    SpentBegins(c.view, buff.data[..], buff.lock, buff.offset);
    var n := buff.lock - buff.offset;
    var sn, wait := Desync(c, buff, bfsize, parts, info, rand, env, waitSend, oob);
    if sn < 0 {
      return Broken;
    }
    c.roundSent := c.roundSent + sn;
    if sn < n || wait {
      buff.offset := buff.offset + sn;
      if c.roundSent == 0 {
        NothingOut(c.view, buff.data[..], buff.lock);
        return Untouched;
      }
      return Pending;
    }
    return Finished;
  }

  /** At the end all of the request is out if and only if no send was of the kind that loses bytes. */
  lemma CompleteIff(v: View, data: seq<Byte>, rounds: seq<Round>, n: nat)
    requires Complete(v, data, rounds, n)
    ensures v.inband == data[..n] <==> NoneLost(v.sends)
  {
  }

  lemma CompleteUrgent(v: View, data: seq<Byte>, rounds: seq<Round>, n: nat, oob: Byte)
    requires Complete(v, data, rounds, n)
    ensures Clean(v.sends) && Ascending(rounds, n) ==> Urgents(v.log, oob) == seq(OobRounds(rounds, |rounds|), _ => oob)
  {
    if Clean(v.sends) && Ascending(rounds, n) {
      UrgentRounds(rounds, data, n, |rounds|, oob);
    }
  }

  lemma UrgedAll(u: seq<Byte>, v: View, u': seq<Byte>, oob: Byte)
    requires Urged(NOTHING, u, v, u', oob) == true
    ensures u' == u + Urgents(v.log, oob)
  {
    assert v.log[0..] == v.log;
  }

  lemma SpentIff(v: View, data: seq<Byte>, n: nat)
    requires Spent(v, data, n, n) == true
    ensures v.inband == data[..n] <==> v.lost == 0
  {
  }

  /**
    Every run of calls on one request after tamp, whatever the environment does in each.

    While the run is pending, the bytes in front of `offset` are out, each once and in order, but
    for those passed over; at the end the whole request is out if and only if none were. If the
    positions of the parts depend on the length of the request alone, then bytes are passed over
    if and only if there was a short or blocked send of a part, or a short final send; and with
    all parts taken whole and ascending positions, the parts that are out are the configured ones,
    each once, in order and cut where configured.
  */
  method Run(c: Conn, buff: Buffer, bfsize: nat, parts: seq<Part>, infos: nat -> ProtoInfo, rands: nat -> nat -> nat,
             envs: seq<Env>, waitSend: bool, oob: Byte)
    returns (st: Status, calls: nat)
    requires buff.lock <= bfsize <= buff.data.Length && buff.offset == 0
    requires c.roundSent == 0 && c.partSent == 0 && c.view == NOTHING
    modifies c, buff`offset, buff.data
    ensures buff.data[..] == old(buff.data[..]) && calls <= |envs| && (st == Pending ==> calls == |envs|)
    ensures calls > 0 ==> Holds(st, c, buff)
    ensures st == Finished ==> (c.view.inband == buff.data[..buff.lock] <==> c.view.lost == 0)
    ensures AllPlain(parts) ==>
      && PlainHolds(st, c, buff, AllRounds(parts))
      && (st == Finished ==> (c.view.inband == buff.data[..buff.lock] <==> NoneLost(c.view.sends)))
    ensures (forall i :: 0 <= i < |envs| ==> Honest(envs[i])) ==> Clean(c.view.sends) && NoneLost(c.view.sends)
    ensures c.urgent == old(c.urgent) + Urgents(c.view.log, oob)
    ensures AllPlain(parts) && st == Finished && Clean(c.view.sends) && Ascending(AllRounds(parts), buff.lock) ==>
      c.urgent == old(c.urgent) + seq(OobRounds(AllRounds(parts), |AllRounds(parts)|), _ => oob)
  {
    hide Accounted, Complete, Honest, AllRounds, AllPlain, Prefix, Spent, Begins, Called, Urged, Urgents, Ascending;
    st, calls := Pending, 0;
    ghost var u0 := c.urgent;
    UrgedSame(NOTHING, NOTHING, u0, oob);
    ghost var d := buff.data[..];
    Fresh(d, AllRounds(parts), buff.lock);
    while calls < |envs| && st == Pending
      invariant calls <= |envs| && buff.data[..] == d && (calls > 0 ==> Holds(st, c, buff) == true)
      invariant st == Pending ==> Spent(c.view, d, buff.lock, buff.offset) == true && c.roundSent == buff.offset
      invariant AllPlain(parts) ==> PlainHolds(st, c, buff, AllRounds(parts)) == true
      invariant (forall i :: 0 <= i < |envs| ==> Honest(envs[i])) ==> Clean(c.view.sends)
      invariant st == Finished ==> calls > 0
      invariant Urged(NOTHING, u0, c.view, c.urgent, oob) == true
      decreases |envs| - calls
    {
      ghost var v, u := c.view, c.urgent;
      st := Forward(c, buff, bfsize, parts, infos(calls), rands(calls), envs[calls], waitSend, oob);
      UrgedTwice(NOTHING, u0, v, u, c.view, c.urgent, oob);
      calls := calls + 1;
    }
    UrgedAll(u0, c.view, c.urgent, oob);
    if st == Finished {
      SpentIff(c.view, buff.data[..], buff.lock);
      if AllPlain(parts) {
        CompleteIff(c.view, buff.data[..], AllRounds(parts), buff.lock);
        CompleteUrgent(c.view, buff.data[..], AllRounds(parts), buff.lock, oob);
      }
      assert buff.data[..][..buff.lock] == buff.data[..buff.lock];
    }
    if Clean(c.view.sends) {
      CleanLoses(c.view.sends);
    }
  }

  lemma Fresh(data: seq<Byte>, rounds: seq<Round>, n: nat)
    requires n <= |data|
    ensures Accounted(NOTHING, 0, data, rounds, n, 0) == true && Spent(NOTHING, data, n, 0) == true
  {
  }

  /** All of the first part goes out with the first call: the bytes in front of `t`. */
  ghost predicate Leads(x: Ctx, part: Part, t: int)
    requires x.n <= |x.data| && x.offset == 0
  {
    Called(x, NOTHING).view.log ==
      if t < 0 then [] else [Segment(part.m, x.data[..if t > x.n then x.n else t])]
  }

  lemma FirstPart(x: Ctx, part: Part, m: nat)
    requires x.rounds == [Round(part, m)] && x.offset == 0 == x.partSkip && x.n <= |x.data| && x.n < x.bfsize
    requires x.env.sends(1) == Whole
    ensures Leads(x, part, PosOf(x, 0, 1))
  {
    hide GenOffset, RestOf;
    var t := PosOf(x, 0, 1);
    var s := StepOf(x, NOTHING, 0, 0, 1);
    if t >= 0 {
      var pos := if t > x.n then x.n else t;
      assert Judge(t, x.n, 0, 1, 0, 0, 0, part.flag.start) == Cut(pos);
      assert x.data[0..pos] == x.data[..pos];
      assert s.view.log == [Segment(part.m, x.data[..pos])];
    }
    var w := Walk(x, NOTHING, 0, 0, 0);
    WalkStep(x, NOTHING, 0, 0, 0, s);
    if s.end.Next? {
      WalkEnds(x, s.view, s.partSent, s.end.lp);
    }
    assert w.view.log == s.view.log;
    if w.end.Next? {
      RestLog(x, w.view, w.partSent, w.end.lp);
    }
  }

  lemma RestLog(x: Ctx, v: View, p: nat, lp: nat)
    requires lp <= x.n <= |x.data|
    ensures RestOf(x, v, p, lp).view.log == v.log
  {
  }

  /**
    Where a single part ends, by its flags: at a place relative to the host, or else to a random
    place, to the middle or to the end of the request, or to its begin; and `s` bytes further for
    each of the `m` times that it has been done before.
  */
  lemma DesyncAims(x: Ctx, part: Part, m: nat)
    requires x.rounds == [Round(part, m)] && x.offset == 0 == x.partSkip && x.n <= |x.data| && x.n < x.bfsize
    requires x.env.sends(1) == Whole
    ensures var k, f, at, len := part.pos, part.flag, x.info.hostPos, x.info.hostLen;
      && (Names(f, x.info) && f.end ==> Leads(x, part, at + len + k + part.s * m))
      && (Names(f, x.info) && !f.end && f.mid ==> Leads(x, part, at + len / 2 + k + part.s * m))
      && (Names(f, x.info) && !f.end && !f.mid && f.rand && len > 0 ==> Leads(x, part, at + x.rand(0) % len + k + part.s * m))
      && (Names(f, x.info) && !f.end && !f.mid && !f.rand ==> Leads(x, part, at + k + part.s * m))
      && ((f.sni || f.host) && !Names(f, x.info) ==> Leads(x, part, -1 + part.s * m))
    ensures var k, f := part.pos, part.flag;
      !f.sni && !f.host ==>
        && (f.rand && x.n > 0 ==> Leads(x, part, x.rand(0) % x.n + k + part.s * m))
        && (!f.rand && f.mid ==> Leads(x, part, x.n / 2 + k + part.s * m))
        && (!f.rand && !f.mid && (f.end || k < 0) ==> Leads(x, part, x.n + k + part.s * m))
        && (!f.rand && !f.mid && !f.end && k >= 0 ==> Leads(x, part, k + part.s * m))
  {
    hide Called;
    FirstPart(x, part, m);
  }

  /** A request cut once, at `pos`; the first send takes only `k` bytes, everything after it is sent. */
  ghost predicate CutsShort(pos: nat, k: nat, n: nat, first: Env, second: Env) {
    0 < k < pos < n && first.sends(1) == Short(k) && !second.notSent(1) && second.last == Whole
  }

  /** In the run of LosesBytes the first call stops behind these `k` bytes. */
  lemma FirstCut(x: Ctx, pos: nat, k: nat, second: Env)
    requires CutsShort(pos, k, x.n, x.env, second) && x.n <= |x.data| && x.n <= x.bfsize && x.offset == 0 == x.partSkip
    requires x.rounds == [Round(Part(0, NO_FLAGS, pos, 1, 0), 0)]
    ensures Called(x, NOTHING) == Call(View(x.data[..k], [], [Sent(true, pos, Short(k))], 0), 1, k, false)
  {
    var done := Outcome(0, pos, pos < x.bfsize, Clip(x.env.sends(1), pos));
    assert done == Short(k);
    assert x.data[0..pos][..k] == x.data[..k];
    assert StepOf(x, NOTHING, 0, 0, 1) == Step(View(x.data[..k], [], [Sent(true, pos, Short(k))], 0), 1, Pause(k, false));
  }

  /** How the first send of a run ends decides what the call answers. */
  lemma FirstSend(x: Ctx, part: Part, pos: nat)
    requires x.rounds == [Round(part, 0)] && x.offset == 0 == x.partSkip && PosOf(x, 0, 1) == pos <= x.n <= |x.data|
    requires x.n < x.bfsize && pos > 0
    ensures var call := Called(x, NOTHING);
      match x.env.sends(1)
      case Again => call == Call(View([], [], [Sent(true, pos, Again)], 0), 1, 0, false)
      case Failed => call.r == -1 && call.view == NOTHING
      case Short(k) => k < pos ==> call.r == k && call.view.inband == x.data[..k] && call.view.log == []
      case Whole => call.view.log == [Segment(part.m, x.data[..pos])]
  {
    hide GenOffset, RestOf;
    var s, res := StepOf(x, NOTHING, 0, 0, 1), x.env.sends(1);
    WalkStep(x, NOTHING, 0, 0, 0, s);
    if part.m == DESYNC_FAKE {
      assert Outcome(part.m, pos, true, Clip(res, pos)) == Clip(res, pos);
    }
    if res == Whole {
      FirstPart(x, part, 0);
    } else if res.Short? && res.k < pos {
      assert x.data[0..pos][..res.k] == x.data[..res.k];
    }
  }

  /** Without parts there is only the final send, and a short one counts as whole. */
  lemma OnlySend(x: Ctx)
    requires x.rounds == [] && x.offset == 0 == x.partSkip && 0 < x.n <= |x.data|
    ensures var call := Called(x, NOTHING);
      match x.env.last
      case Again => call.r == 0 && call.view.inband == []
      case Failed => call.r == -1 && call.view == NOTHING
      case Short(k) => call.r == x.n && call.view.inband == x.data[..if k < x.n then k else x.n]
      case Whole => call.r == x.n && call.view.inband == x.data[..x.n]
  {
    assert x.data[0..x.n] == x.data[..x.n];
    assert x.env.last.Short? && x.env.last.k < x.n ==> x.data[..x.n][..x.env.last.k] == x.data[..x.env.last.k];
  }

  /** The second one takes the part for sent, and goes on behind it. */
  lemma SecondGoesOn(x: Ctx, v: View, pos: nat, k: nat, first: Env)
    requires CutsShort(pos, k, x.n, first, x.env) && x.n <= |x.data| && x.offset == k && x.partSkip == 1
    requires x.rounds == [Round(Part(0, NO_FLAGS, pos, 1, 0), 0)]
    ensures var c := Called(x, v); c.r == x.n - k && !c.wait && c.view.inband == v.inband + x.data[pos..x.n]
  {
    var v' := PassedOver(v, pos - k);
    assert StepOf(x, v, 1, k, 1) == Step(v', 1, Next(pos));
    assert Walk(x, v', 1, pos, 1) == Step(v', 1, Next(pos));
  }

  /**
    A run in which the request does not go out: the bytes between the `k`-th and the cut are missing,
    and the run counts as finished.
  */
  method LosesBytes(c: Conn, buff: Buffer, bfsize: nat, pos: nat, k: nat, info: ProtoInfo, rand: nat -> nat,
                    first: Env, second: Env, waitSend: bool, oob: Byte)
    requires CutsShort(pos, k, buff.lock, first, second) && buff.lock <= bfsize <= buff.data.Length && buff.offset == 0
    requires c.roundSent == 0 && c.partSent == 0 && c.view == NOTHING
    modifies c, buff`offset, buff.data
    ensures buff.data[..] == old(buff.data[..]) && c.roundSent == buff.lock
    ensures c.view.inband == buff.data[..k] + buff.data[pos..buff.lock]
  {
    hide Called, Accounted, Complete, Prefix, Clean, Spent, Begins;
    var part := Part(0, NO_FLAGS, pos, 1, 0);
    ghost var d, n := buff.data[..], buff.lock;
    OnePart(part);
    Fresh(d, AllRounds([part]), n);
    FirstCut(CtxOf(0, buff, bfsize, [part], info, rand, first, waitSend), pos, k, second);
    var st := Forward(c, buff, bfsize, [part], info, rand, first, waitSend, oob);
    SecondGoesOn(CtxOf(1, buff, bfsize, [part], info, rand, second, waitSend), c.view, pos, k, first);
    st := Forward(c, buff, bfsize, [part], info, rand, second, waitSend, oob);
    assert d[..k] == buff.data[..k] && d[pos..n] == buff.data[pos..n];
  }

  /** A part at a random place, and the call that sends it has to wait; then everything is sent. */
  ghost predicate Redrawn(n: nat, a: nat, b: nat, rand: nat -> nat, rand': nat -> nat, first: Env, second: Env) {
    && 0 < a && 0 < b && a + b < n && RandBelow(rand(0), n) == a && RandBelow(rand'(0), n - a) == b
    && first.sends(1) == Whole && first.notSent(1) && !second.notSent(1) && second.last == Whole
  }

  lemma FirstDraw(x: Ctx, a: nat, b: nat, rand': nat -> nat, second: Env)
    requires Redrawn(x.n, a, b, x.rand, rand', x.env, second) && x.n <= |x.data| && x.n <= x.bfsize && x.offset == 0 == x.partSkip
    requires x.rounds == [Round(Part(0, AT_RANDOM, 0, 1, 0), 0)]
    ensures Called(x, NOTHING) == Call(View(x.data[..a], [Segment(0, x.data[..a])], [Sent(true, a, Whole)], 0), 1, a, true)
  {
    assert Outcome(0, a, a < x.bfsize, Clip(x.env.sends(1), a)) == Whole;
    assert x.data[0..a] == x.data[..a];
    assert StepOf(x, NOTHING, 0, 0, 1)
      == Step(View([] + x.data[..a], [] + [Segment(0, x.data[..a])], [] + [Sent(true, a, Whole)], 0), 1, Pause(a, true));
  }

  lemma SecondDraw(x: Ctx, v: View, a: nat, b: nat, rand: nat -> nat, first: Env)
    requires Redrawn(x.n, a, b, rand, x.rand, first, x.env) && x.n <= |x.data| && x.offset == a && x.partSkip == 1
    requires x.rounds == [Round(Part(0, AT_RANDOM, 0, 1, 0), 0)]
    ensures var c := Called(x, v);
      && c.r == x.n - a && !c.wait && c.view.inband == v.inband + x.data[a + b..x.n]
      && c.view.sends == v.sends + [Sent(false, x.n - a - b, Whole)]
  {
    var v' := PassedOver(v, b);
    assert StepOf(x, v, 1, a, 1) == Step(v', 1, Next(a + b));
    assert Walk(x, v', 1, a + b, 1) == Step(v', 1, Next(a + b));
  }

  /**
    A run in which every send takes everything and the request still does not go out: the place of
    a random part is drawn anew when the call is resumed, and the bytes up to it count as sent.
  */
  method DrawsAnew(c: Conn, buff: Buffer, bfsize: nat, a: nat, b: nat, info: ProtoInfo, rand: nat -> nat, rand': nat -> nat,
                   first: Env, second: Env, waitSend: bool, oob: Byte)
    requires Redrawn(buff.lock, a, b, rand, rand', first, second) && buff.lock <= bfsize <= buff.data.Length && buff.offset == 0
    requires c.roundSent == 0 && c.partSent == 0 && c.view == NOTHING
    modifies c, buff`offset, buff.data
    ensures buff.data[..] == old(buff.data[..]) && c.roundSent == buff.lock && Clean(c.view.sends)
    ensures c.view.inband == buff.data[..a] + buff.data[a + b..buff.lock]
  {
    hide Called, Accounted, Complete, Prefix, Spent, Begins, AllPlain;
    var part := Part(0, AT_RANDOM, 0, 1, 0);
    ghost var d, n := buff.data[..], buff.lock;
    OnePart(part);
    Fresh(d, AllRounds([part]), n);
    FirstDraw(CtxOf(0, buff, bfsize, [part], info, rand, first, waitSend), a, b, rand', second);
    assert !AllPlain([part]) by {
      NotPlain(part);
    }
    var st := Forward(c, buff, bfsize, [part], info, rand, first, waitSend, oob);
    SecondDraw(CtxOf(1, buff, bfsize, [part], info, rand', second, waitSend), c.view, a, b, rand, first);
    st := Forward(c, buff, bfsize, [part], info, rand', second, waitSend, oob);
    assert d[..a] == buff.data[..a] && d[a + b..n] == buff.data[a + b..n];
  }

  lemma NotPlain(part: Part)
    requires part.flag.rand
    ensures !AllPlain([part])
  {
    assert !Plain([part][0]);
  }

  lemma OnePart(part: Part)
    requires part.r == 1
    ensures AllRounds([part]) == [Round(part, 0)] && (Plain(part) ==> AllPlain([part]))
  {
    OneRepetition(part);
  }
}
