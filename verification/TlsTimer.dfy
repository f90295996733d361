/**
  try_set_tls_timer of extend.c: an incremental reader of TLS records that tells, after every
  chunk received, whether the server is in the middle of a record.
*/
module TlsTimer {
  import opened Bytes
  import opened Wrappers

  /** `tls_rec_pos`, `tls_rec_size` and `tls_rec`. */
  datatype Rec = Rec(pos: nat, size: nat, head: seq<Byte>) {
    /** Up to the whole header the size is not known; behind it it is what the header says. */
    predicate Valid() {
      |head| == 5 && if pos <= 5 then size == 0 else pos <= size == Antohs(head, 3) + 5
    }
  }

  predicate Acceptable(head: seq<Byte>)
    requires |head| == 5
  {
    0x14 <= head[0] <= 0x18 && Antohs(head, 3) > 0
  }

  /** What one byte does. Only the byte behind a header makes the header count. */
  function Step(st: Rec, b: Byte): (r: Option<Rec>)
    requires st.Valid()
    ensures r.Some? ==> r.value.Valid()
  {
    if st.pos < 5 then Some(Rec(st.pos + 1, 0, st.head[st.pos := b]))
    else if st.pos == 5 then
      if Acceptable(st.head) then Some(Rec(6, Antohs(st.head, 3) + 5, st.head)) else None
    else if st.pos == st.size then Some(Rec(1, 0, st.head[0 := b]))
    else Some(st.(pos := st.pos + 1))
  }

  function Feed(st: Rec, s: seq<Byte>): (r: Option<Rec>)
    requires st.Valid()
    ensures r.Some? ==> r.value.Valid()
    decreases |s|
  {
    if |s| == 0 then Some(st)
    else
      var next := Step(st, s[0]);
      if next.None? then None else Feed(next.value, s[1..])
  }

  /** How a stream is cut into chunks makes no difference. */
  lemma {:induction false} FeedAppend(st: Rec, a: seq<Byte>, b: seq<Byte>)
    requires st.Valid()
    ensures Feed(st, a + b) == var r := Feed(st, a); if r.None? then None else Feed(r.value, b)
    decreases |a|
  {
    if |a| == 0 {
      assert a + b == b;
    } else {
      assert (a + b)[1..] == a[1..] + b;
      if Step(st, a[0]).Some? {
        FeedAppend(Step(st, a[0]).value, a[1..], b);
      }
    }
  }

  // -- the reference: the stream read record by record --------------------------------------

  /** Bad: some header is not acceptable and more follows. Otherwise the bytes of the record begun last. */
  datatype Verdict = Bad | Ends(got: nat, size: nat)

  function ReadStream(s: seq<Byte>): Verdict
    decreases |s|
  {
    if |s| <= 5 then Ends(|s|, 0)
    else if !Acceptable(s[..5]) then Bad
    else
      var size := Antohs(s[..5], 3) + 5;
      if |s| <= size then Ends(|s|, size) else ReadStream(s[size..])
  }

  /** The stream is a sequence of whole acceptable records. */
  ghost predicate WholeRecords(s: seq<Byte>)
    decreases |s|
  {
    |s| == 0 || (|s| >= 5 && Acceptable(s[..5]) && |s| >= Antohs(s[..5], 3) + 5 && WholeRecords(s[Antohs(s[..5], 3) + 5..]))
  }

  lemma {:induction false} EndsWhole(s: seq<Byte>)
    ensures WholeRecords(s) <==> ReadStream(s).Ends? && ReadStream(s).got == ReadStream(s).size
    decreases |s|
  {
    if |s| > 5 && Acceptable(s[..5]) {
      var size := Antohs(s[..5], 3) + 5;
      if |s| > size {
        EndsWhole(s[size..]);
      } else if |s| == size {
        assert s[size..] == [];
      }
    }
  }

  /** Collecting header bytes. */
  lemma {:induction false} FeedHead(head: seq<Byte>, p: nat, s: seq<Byte>, k: nat)
    requires |head| == 5 && p <= k <= 5 && k <= |s| && forall i :: 0 <= i < p ==> head[i] == s[i]
    ensures var h := s[..k] + head[k..]; Feed(Rec(p, 0, head), s[p..k]) == Some(Rec(k, 0, h))
    decreases k - p
  {
    if p == k {
      assert s[..k] + head[k..] == head;
    } else {
      assert s[p..k][1..] == s[p + 1..k];
      FeedHead(head[p := s[p]], p + 1, s, k);
      assert s[..k] + head[p := s[p]][k..] == s[..k] + head[k..];
    }
  }

  /** Bytes of the payload only count. */
  lemma {:induction false} FeedBody(st: Rec, s: seq<Byte>)
    requires st.Valid() && 5 < st.pos && st.pos + |s| <= st.size
    ensures Feed(st, s) == Some(st.(pos := st.pos + |s|))
    decreases |s|
  {
    if |s| > 0 {
      FeedBody(st.(pos := st.pos + 1), s[1..]);
    }
  }

  /** From a boundary the incremental reader agrees with the record by record one. */
  lemma {:induction false} FeedReads(st: Rec, s: seq<Byte>)
    requires st.Valid() && (st.pos == 0 || st.pos == st.size)
    ensures match ReadStream(s)
      case Bad => Feed(st, s) == None
      case Ends(got, size) => s != [] ==> Feed(st, s).Some? && Feed(st, s).value.pos == got && Feed(st, s).value.size == size
    decreases |s|
  {
    var z := Rec(0, 0, st.head);
    if s != [] {
      FromBoundary(st, s);
    }
    if 0 < |s| <= 5 {
      FeedHead(st.head, 0, s, |s|);
      ToTheEnd(s, 0);
    } else if |s| > 5 {
      FeedHead(st.head, 0, s, 5);
      HeadAndRest(s, st.head);
      FeedAppend(z, s[0..5], s[5..]);
      FeedRecord(s);
      var size := Antohs(s[..5], 3) + 5;
      if Acceptable(s[..5]) && |s| > size {
        FeedAppend(Rec(5, 0, s[..5]), s[5..size], s[size..]);
        Cut(s, 5, size);
        FeedReads(Rec(size, size, s[..5]), s[size..]);
      } else if Acceptable(s[..5]) {
        ToTheEnd(s, 5);
      }
    }
  }

  lemma ToTheEnd(s: seq<Byte>, i: nat)
    requires i <= |s|
    ensures s[i..|s|] == s[i..] && s[0..] == s
  {
  }

  lemma Cut(s: seq<Byte>, i: nat, j: nat)
    requires i <= j <= |s|
    ensures s[i..] == s[i..j] + s[j..]
  {
  }

  lemma HeadAndRest(s: seq<Byte>, head: seq<Byte>)
    requires |s| > 5 && |head| == 5
    ensures s == s[0..5] + s[5..] && s[..5] == s[..5] + head[5..]
  {
  }

  lemma FromBoundary(st: Rec, s: seq<Byte>)
    requires st.Valid() && (st.pos == 0 || st.pos == st.size) && s != []
    ensures Feed(st, s) == Feed(Rec(0, 0, st.head), s)
  {
  }

  /** Behind a header: an error, or the payload up to the end of the record or of the stream. */
  lemma FeedRecord(s: seq<Byte>)
    requires |s| > 5
    ensures var size, st := Antohs(s[..5], 3) + 5, Rec(5, 0, s[..5]);
      && (!Acceptable(s[..5]) ==> Feed(st, s[5..]) == None)
      && (Acceptable(s[..5]) ==>
          var k := if |s| < size then |s| else size; Feed(st, s[5..k]) == Some(Rec(k, size, s[..5])))
  {
    var size := Antohs(s[..5], 3) + 5;
    if Acceptable(s[..5]) {
      var k := if |s| < size then |s| else size;
      assert s[5..k][1..] == s[6..k];
      FeedBody(Rec(6, size, s[..5]), s[6..k]);
    }
  }

  lemma Unread(s: seq<Byte>, i: nat)
    requires i < |s|
    ensures s[i..][0] == s[i] && s[i..][1..] == s[i + 1..]
  {
  }

  /** Behind the header the size may have been filled in already; the reader starts without it. */
  function Unsized(st: Rec): Rec {
    if st.pos == 5 then Rec(5, 0, st.head) else st
  }

  /** Several payload bytes at once. */
  lemma FeedRun(st: Rec, t: seq<Byte>)
    requires |st.head| == 5 && st.size == Antohs(st.head, 3) + 5 && 5 <= st.pos && st.pos + |t| <= st.size
    requires 0 < |t| && (st.pos == 5 ==> Acceptable(st.head))
    ensures Feed(Unsized(st), t) == Some(st.(pos := st.pos + |t|))
  {
    if st.pos == 5 {
      FeedBody(st.(pos := 6), t[1..]);
    } else {
      FeedBody(st, t);
    }
  }

  lemma FeedSome(st: Rec, s: seq<Byte>, i: nat, k: nat)
    requires |st.head| == 5 && st.size == Antohs(st.head, 3) + 5 && 5 <= st.pos && st.pos + k <= st.size
    requires 0 < k && i + k <= |s| && (st.pos == 5 ==> Acceptable(st.head))
    ensures Feed(Unsized(st), s[i..]) == Feed(st.(pos := st.pos + k), s[i + k..])
  {
    var t := s[i..i + k];
    assert s[i..] == t + s[i + k..];
    FeedRun(st, t);
    FeedAppend(Unsized(st), t, s[i + k..]);
  }

  // -- main results -------------------------------------------------------------------------

  /**
    Over a whole stream, however it is cut into chunks: an error exactly when the record by
    record reading finds one, and otherwise the timer is to be armed exactly when the stream
    does not end with a whole record.
  */
  lemma ArmedMidRecord(s: seq<Byte>)
    requires s != []
    ensures var r := Feed(Rec(0, 0, [0, 0, 0, 0, 0]), s);
      && (r == None <==> ReadStream(s) == Bad)
      && (r.Some? ==> (r.value.pos == r.value.size <==> WholeRecords(s)))
  {
    FeedReads(Rec(0, 0, [0, 0, 0, 0, 0]), s);
    EndsWhole(s);
  }

  /** The record types that are let through: change_cipher_spec, alert, handshake, application_data and heartbeat. */
  lemma RecordTypes(head: seq<Byte>, b: Byte)
    requires |head| == 5
    ensures Feed(Rec(0, 0, [0, 0, 0, 0, 0]), head + [b]) == None <==>
      head[0] !in {20, 21, 22, 23, 24} || (head[3] == 0 && head[4] == 0)
  {
    var s := head + [b];
    assert s[..5] == head;
    FeedReads(Rec(0, 0, [0, 0, 0, 0, 0]), s);
  }

  /** An empty record, which section 5.1 of RFC 8446 allows for application data, is an error once a byte follows. */
  lemma EmptyRecord(b: Byte)
    ensures Feed(Rec(0, 0, [0, 0, 0, 0, 0]), [0x17, 0x03, 0x03, 0x00, 0x00] + [b]) == None
  {
    var s := [0x17, 0x03, 0x03, 0x00, 0x00] + [b];
    assert s[..5] == [0x17, 0x03, 0x03, 0x00, 0x00];
    FeedReads(Rec(0, 0, [0, 0, 0, 0, 0]), s);
  }

  // -- the function itself ------------------------------------------------------------------

  /** The fields of `struct eval` that it uses; `armed` says whether the timer is set. */
  class Eval {
    var tlsRecPos: nat
    var tlsRecSize: nat
    var tlsRec: seq<Byte>
    var recvCount: nat
    var armed: bool

    constructor ()
      ensures State() == Rec(0, 0, [0, 0, 0, 0, 0]) && State().Valid() && !armed && recvCount == 0
    {
      tlsRecPos, tlsRecSize, tlsRec, recvCount, armed := 0, 0, [0, 0, 0, 0, 0], 0, false;
    }

    function State(): Rec
      reads this
    {
      Rec(tlsRecPos, tlsRecSize, tlsRec)
    }

    /** try_set_tls_timer; with -1 the caller clears `mark` and does not call it again for this connection. */
    method TrySetTlsTimer(buff: seq<Byte>, toBytesLim: nat, ptimeout: nat) returns (r: int)
      requires State().Valid() && |buff| > 0
      modifies this
      ensures recvCount == old(recvCount)
      ensures toBytesLim != 0 && recvCount > toBytesLim ==> r == -1 && !armed && State() == old(State())
      ensures toBytesLim == 0 || recvCount <= toBytesLim ==>
        match Feed(old(State()), buff)
        case None => r == -1 && armed == old(armed)
        case Some(st) =>
          r == 0 && State() == st && armed == if ptimeout != 0 then st.pos != st.size else old(armed)
    {
      if toBytesLim != 0 && recvCount > toBytesLim {
        armed := false;
        return -1;
      }
      var ok := Consume(buff);
      if !ok {
        return -1;
      }
      if ptimeout != 0 {
        armed := false;
        if tlsRecPos != tlsRecSize {
          armed := true;
        }
      }
      return 0;
    }

    /** Its loop, which takes the payload of a record in one step. */
    method Consume(buff: seq<Byte>) returns (ok: bool)
      requires State().Valid() && |buff| > 0
      modifies this`tlsRecPos, this`tlsRecSize, this`tlsRec
      ensures ok <==> Feed(old(State()), buff).Some?
      ensures ok ==> Feed(old(State()), buff) == Some(State())
    {
      var pos := 0;
      ghost var st := State();
      while pos < |buff|
        invariant pos <= |buff| && State().Valid() && Feed(st, buff) == Feed(State(), buff[pos..])
        decreases |buff| - pos, if tlsRecPos > 5 && tlsRecPos == tlsRecSize then 1 else 0
      {
        Unread(buff, pos);
        if tlsRecPos < 5 {
          tlsRec := tlsRec[tlsRecPos := buff[pos]];
          tlsRecPos, pos := tlsRecPos + 1, pos + 1;
          continue;
        } else if tlsRecPos == 5 {
          tlsRecSize := Antohs(tlsRec, 3) + 5;
          var t := tlsRec[0];
          if t < 0x14 || t > 0x18 {
            return false;
          }
        } else if tlsRecPos == tlsRecSize {
          FromBoundary(State(), buff[pos..]);
          tlsRecPos, tlsRecSize := 0, 0;
          continue;
        }
        var end := tlsRecSize - tlsRecPos;
        if end <= 0 {
          return false;
        }
        if pos + end > |buff| {
          end := |buff| - pos;
        }
        FeedSome(State(), buff, pos, end);
        tlsRecPos, pos := tlsRecPos + end, pos + end;
      }
      return true;
    }
  }

  // -- a whole response ---------------------------------------------------------------------

  function Concat(chunks: seq<seq<Byte>>): seq<Byte> {
    if |chunks| == 0 then [] else Concat(chunks[..|chunks| - 1]) + chunks[|chunks| - 1]
  }

  /**
    After the bytes `s`: as long as `mark` is set there was no error, no byte limit has been passed
    (`over`), and the fields tell where the bytes end; once it is cleared there was an error, or the
    limit has been passed and the timer is gone.
  */
  ghost predicate Read(s: seq<Byte>, mark: bool, st: Rec, over: bool, armed: bool) {
    var r := Feed(Rec(0, 0, [0, 0, 0, 0, 0]), s);
    if mark then st.Valid() && r == Some(st) && !over else r == None || (over && !armed)
  }

  lemma NothingRead(armed: bool)
    ensures Concat([]) == [] && ReadStream([]) != Bad && Read([], true, Rec(0, 0, [0, 0, 0, 0, 0]), false, armed) == true
  {
  }

  lemma ReadMore(s: seq<Byte>, mark: bool, st: Rec, over: bool, armed: bool, t: seq<Byte>, mark': bool, st': Rec, over': bool,
                 armed': bool)
    requires Read(s, mark, st, over, armed) && |t| > 0 && (over ==> over')
    requires if !mark then !mark' && armed' == armed
      else if over' then !mark' && !armed'
      else match Feed(st, t) case None => !mark' case Some(r) => mark' && r == st'
    ensures Read(s + t, mark', st', over', armed')
  {
    FeedAppend(Rec(0, 0, [0, 0, 0, 0, 0]), s, t);
  }

  /**
    The calls that tcp_recv_hook makes for the chunks of a response, with the byte limit `lim` (0 for
    none). Whatever the chunks: `mark` is cleared exactly if the response is in error or longer than
    the limit; if it is not, the timer is set exactly if the response has stopped in the middle of a
    record, and if only the limit has cleared it the timer is off.
  */
  method Receive(e: Eval, chunks: seq<seq<Byte>>, lim: nat, ptimeout: nat) returns (mark: bool)
    requires e.State() == Rec(0, 0, [0, 0, 0, 0, 0]) && e.recvCount == 0
    requires forall i :: 0 <= i < |chunks| ==> |chunks[i]| > 0
    modifies e
    ensures var s := Concat(chunks);
      && (mark <==> ReadStream(s) != Bad && (lim == 0 || |s| <= lim))
      && (mark && |chunks| > 0 && ptimeout != 0 ==> (e.armed <==> !WholeRecords(s)))
      && (!mark && ReadStream(s) != Bad ==> !e.armed)
  {
    hide Feed, ReadStream, WholeRecords;
    mark := true;
    var n := 0;
    NothingRead(e.armed);
    while n < |chunks|
      invariant n <= |chunks| && e.recvCount == |Concat(chunks[..n])|
      invariant Read(Concat(chunks[..n]), mark, e.State(), lim != 0 && e.recvCount > lim, e.armed) == true
      invariant n > 0 ==> e.recvCount > 0
      invariant n > 0 && mark && ptimeout != 0 ==> (e.armed <==> e.tlsRecPos != e.tlsRecSize)
    {
      ghost var s, st, over, armed, mark0 := Concat(chunks[..n]), e.State(), lim != 0 && e.recvCount > lim, e.armed, mark;
      assert chunks[..n + 1][..n] == chunks[..n];
      e.recvCount := e.recvCount + |chunks[n]|;
      if mark {
        var r := e.TrySetTlsTimer(chunks[n], lim, ptimeout);
        mark := r == 0;
      }
      ReadMore(s, mark0, st, over, armed, chunks[n], mark, e.State(), lim != 0 && e.recvCount > lim, e.armed);
      n := n + 1;
    }
    assert chunks[..n] == chunks && (n == 0 ==> chunks == []);
    if n > 0 {
      ArmedMidRecord(Concat(chunks));
    }
  }
}
