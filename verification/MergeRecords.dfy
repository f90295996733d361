/**
  merge_tls_records joins the records that a cut has made of one record, inside the buffer. It
  never shortens the range it works on, so after every join the last five bytes of the range
  are there once more; whether it stops in time depends on these stale bytes.
*/
module MergeRecords {
  import opened Bytes
  import opened Wrappers
  import opened TlsRecords

  /** Where the fragment that holds payload byte Reach(cuts, i) ends. */
  ghost function NextCut(b: seq<Byte>, cuts: seq<nat>, i: nat): nat
    requires CutsOf(b, cuts) && i <= |cuts|
  {
    if i < |cuts| then cuts[i] else Claimed(b)
  }

  /** After `i` joins: the first i + 1 fragments are one, the others are as they were. */
  ghost function Joining(b: seq<Byte>, cuts: seq<nat>, i: nat): (r: seq<Byte>)
    requires CutsOf(b, cuts) && i <= |cuts| && |b| == Claimed(b) + 5
    ensures |r| == |b| + 5 * (|cuts| - i)
  {
    Head(b) + Be16(NextCut(b, cuts, 0)) + b[5..5 + NextCut(b, cuts, i)] + Others(b, cuts, i)
  }

  ghost function Others(b: seq<Byte>, cuts: seq<nat>, i: nat): (r: seq<Byte>)
    requires CutsOf(b, cuts) && i <= |cuts| && |b| == Claimed(b) + 5
    ensures |r| == |b| - 5 - NextCut(b, cuts, i) + 5 * (|cuts| - i)
  {
    if i < |cuts| then Tail(b, cuts, i + 1) else []
  }

  /** `e`, `i` times. */
  ghost function Repeat(e: seq<Byte>, i: nat): (r: seq<Byte>)
    ensures |r| == |e| * i
  {
    if i == 0 then [] else Repeat(e, i - 1) + e
  }

  lemma {:induction false} RepeatFront(e: seq<Byte>, i: nat)
    ensures Repeat(e, i + 1) == e + Repeat(e, i)
  {
    if i > 0 {
      RepeatFront(e, i - 1);
      Assoc(e, Repeat(e, i - 1), e);
    } else {
      assert [] + e == e + [];
    }
  }

  /** The test at the head of the loop: another record of this type starts behind the first `full` bytes and fits. */
  predicate Goes(s: seq<Byte>, full: nat) {
    && |s| >= full + 10 && s[5 + full] == s[0]
    && full + 10 + Antohs(s, 5 + full + 3) <= |s|
  }

  /** The last five bytes of the cut buffer look like the header of a record that fits the bytes they end up in. */
  ghost predicate Stale(s: seq<Byte>, k: nat) {
    k > 0 && |s| >= 10 && s[|s| - 5] == s[0] && Antohs(s, |s| - 2) <= 5 * k - 5
  }

  /** The bytes that a join moves: everything behind the header at `at`, five to the left. */
  ghost function Closed(s: seq<Byte>, at: nat): (r: seq<Byte>)
    requires at + 5 <= |s|
    ensures |r| == |s|
  {
    s[..at] + s[at + 5..] + s[|s| - 5..]
  }

  // -- one join -----------------------------------------------------------------------------

  /** The header of the next fragment, and what follows it. */
  lemma NextHeader(b: seq<Byte>, cuts: seq<nat>, i: nat)
    requires CutsOf(b, cuts) && i < |cuts| && |b| == Claimed(b) + 5
    ensures Others(b, cuts, i) == Head(b) + Be16(NextCut(b, cuts, i + 1) - cuts[i])
      + b[5 + cuts[i]..5 + NextCut(b, cuts, i + 1)] + Others(b, cuts, i + 1)
  {
    if i + 1 == |cuts| {
      assert b[5 + cuts[i]..5 + NextCut(b, cuts, i + 1)] == b[5 + cuts[i]..];
    }
  }

  /** A range with a header in the middle, and the same with the header taken out. */
  ghost predicate Gapped(s: seq<Byte>, at: int, hl: seq<Byte>, joined: seq<Byte>) {
    && |hl| == 5 && 0 <= at && at + 5 <= |s|
    && s[at..at + 5] == hl && s[..at] + s[at + 5..] == joined
  }

  lemma TakeOut(x: seq<Byte>, p: seq<Byte>, hl: seq<Byte>, q: seq<Byte>, o: seq<Byte>, rep: seq<Byte>, at: int)
    requires |hl| == 5 && at == |x| + |p|
    ensures Gapped(x + p + (hl + q + o) + rep, at, hl, x + (p + q) + o + rep) == true
  {
    var s := x + p + (hl + q + o) + rep;
    assert s == (x + p) + hl + (q + o + rep);
    assert s[..at] == x + p && s[at..at + 5] == hl && s[at + 5..] == q + o + rep;
  }

  /** The first fragments as one, the next header left out. */
  lemma JoinedParts(b: seq<Byte>, cuts: seq<nat>, i: nat, p: seq<Byte>, q: seq<Byte>)
    requires CutsOf(b, cuts) && i < |cuts| && |b| == Claimed(b) + 5
    requires p == b[5..5 + cuts[i]] && q == b[5 + cuts[i]..5 + NextCut(b, cuts, i + 1)]
    ensures Joining(b, cuts, i + 1) == Head(b) + Be16(NextCut(b, cuts, 0)) + (p + q) + Others(b, cuts, i + 1)
  {
    JoinedUp(b, 5, 5 + cuts[i], 5 + NextCut(b, cuts, i + 1));
  }

  /** A join, given the two fragments `p` and `q` and the header `hl` between them. */
  lemma JoinParts(b: seq<Byte>, cuts: seq<nat>, i: nat, rep: seq<Byte>, p: seq<Byte>, hl: seq<Byte>, q: seq<Byte>)
    requires CutsOf(b, cuts) && i < |cuts| && |b| == Claimed(b) + 5
    requires p == b[5..5 + cuts[i]] && q == b[5 + cuts[i]..5 + NextCut(b, cuts, i + 1)]
    requires hl == Head(b) + Be16(NextCut(b, cuts, i + 1) - cuts[i])
    ensures Gapped(Joining(b, cuts, i) + rep, 5 + cuts[i], hl, Joining(b, cuts, i + 1) + rep) == true
  {
    var x, o := Head(b) + Be16(NextCut(b, cuts, 0)), Others(b, cuts, i + 1);
    NextHeader(b, cuts, i);
    JoinedParts(b, cuts, i, p, q);
    assert Joining(b, cuts, i) == x + p + (hl + q + o);
    TakeOut(x, p, hl, q, o, rep, 5 + cuts[i]);
  }

  lemma JoinOne(b: seq<Byte>, cuts: seq<nat>, i: nat, e: seq<Byte>)
    requires CutsOf(b, cuts) && i < |cuts| && |b| == Claimed(b) + 5 && |e| == 5
    ensures Gapped(Joining(b, cuts, i) + Repeat(e, i), 5 + cuts[i], Head(b) + Be16(NextCut(b, cuts, i + 1) - cuts[i]),
                   Joining(b, cuts, i + 1) + Repeat(e, i)) == true
  {
    hide Joining, Repeat;
    var next := NextCut(b, cuts, i + 1);
    JoinParts(b, cuts, i, Repeat(e, i), b[5..5 + cuts[i]], Head(b) + Be16(next - cuts[i]), b[5 + cuts[i]..5 + next]);
  }

  lemma JoinedUp(b: seq<Byte>, i: nat, j: nat, k: nat)
    requires i <= j <= k <= |b|
    ensures b[i..j] + b[j..k] == b[i..k]
  {
  }

  /** The range after `i` joins: what is joined so far, then the stale bytes. */
  ghost function Range(b: seq<Byte>, cuts: seq<nat>, i: nat): (r: seq<Byte>)
    requires CutsOf(b, cuts) && i <= |cuts| && |b| == Claimed(b) + 5
    ensures |r| == |b| + 5 * |cuts|
  {
    Joining(b, cuts, i) + Repeat(LastFive(b, cuts), i)
  }

  ghost function LastFive(b: seq<Byte>, cuts: seq<nat>): (r: seq<Byte>)
    requires CutsOf(b, cuts)
    ensures |r| == 5
  {
    Split(b, cuts)[|b| + 5 * |cuts| - 5..]
  }

  lemma RangeStart(b: seq<Byte>, cuts: seq<nat>)
    requires CutsOf(b, cuts) && |b| == Claimed(b) + 5
    ensures Range(b, cuts, 0) == Split(b, cuts)
  {
    SplitIsTail(b, cuts);
    if |cuts| == 0 {
      Uncut(b);
      assert b[5..5 + Claimed(b)] == b[5..];
    }
  }

  lemma RangeEnds(b: seq<Byte>, cuts: seq<nat>, i: nat)
    requires CutsOf(b, cuts) && i <= |cuts| && |b| == Claimed(b) + 5
    ensures var s := Range(b, cuts, i); s[|s| - 5..] == LastFive(b, cuts)
  {
    if i == 0 {
      RangeStart(b, cuts);
    } else {
      EndsWithLast(Joining(b, cuts, i), Repeat(LastFive(b, cuts), i - 1), LastFive(b, cuts));
    }
  }

  lemma EndsWithLast(a: seq<Byte>, r: seq<Byte>, e: seq<Byte>)
    ensures (a + (r + e))[|a| + |r|..] == e
  {
  }

  /** A join takes the header out and repeats the last five bytes. */
  lemma ClosedGap(s: seq<Byte>, at: nat, hl: seq<Byte>, j: seq<Byte>, rep: seq<Byte>, e: seq<Byte>)
    requires Gapped(s, at, hl, j + rep) == true && s[|s| - 5..] == e
    ensures Closed(s, at) == j + (rep + e)
  {
    Assoc(j, rep, e);
  }

  lemma RangeFirst(b: seq<Byte>, cuts: seq<nat>, i: nat)
    requires CutsOf(b, cuts) && i <= |cuts| && |b| == Claimed(b) + 5
    ensures Range(b, cuts, i)[0] == b[0]
  {
  }

  /** One join moves the range on to the next stage. */
  lemma JoinStep(b: seq<Byte>, cuts: seq<nat>, i: nat)
    requires CutsOf(b, cuts) && i < |cuts| && |b| == Claimed(b) + 5
    ensures Closed(Range(b, cuts, i), 5 + cuts[i]) == Range(b, cuts, i + 1)
  {
    hide Joining, LastFive, CutsOf;
    var e, hl := LastFive(b, cuts), Head(b) + Be16(NextCut(b, cuts, i + 1) - cuts[i]);
    JoinOne(b, cuts, i, e);
    RangeEnds(b, cuts, i);
    ClosedGap(Range(b, cuts, i), 5 + cuts[i], hl, Joining(b, cuts, i + 1), Repeat(e, i), e);
  }

  lemma HeaderAt(s: seq<Byte>, at: nat, head: seq<Byte>, len: nat)
    requires at + 5 <= |s| && |head| == 3 && s[at..at + 5] == head + Be16(len) && len < 0x1_0000
    ensures s[at] == head[0] && Antohs(s, at + 3) == len
  {
    assert s[at] == s[at..at + 5][0];
    assert s[at + 3..at + 5] == s[at..at + 5][3..];
    AntohsBe16(s, at + 3, len);
  }

  /**
    When the loop goes on: as long as there is a record to join, and afterwards exactly when the
    stale bytes look like one more.
  */
  lemma GoesExactly(b: seq<Byte>, cuts: seq<nat>, i: nat)
    requires CutsOf(b, cuts) && i <= |cuts| && |b| == Claimed(b) + 5
    ensures Goes(Range(b, cuts, i), NextCut(b, cuts, i)) <==> i < |cuts| || Stale(Split(b, cuts), |cuts|)
    ensures i < |cuts| ==> Antohs(Range(b, cuts, i), 5 + cuts[i] + 3) == NextCut(b, cuts, i + 1) - cuts[i]
  {
    hide Joining, Repeat;
    var s, e := Range(b, cuts, i), LastFive(b, cuts);
    RangeFirst(b, cuts, i);
    if i < |cuts| {
      JoinOne(b, cuts, i, e);
      HeaderAt(s, 5 + cuts[i], Head(b), NextCut(b, cuts, i + 1) - cuts[i]);
    } else if i > 0 {
      StaleAt(b, cuts);
    }
  }

  /** At the end the first stale bytes follow the joined record. */
  lemma StaleAt(b: seq<Byte>, cuts: seq<nat>)
    requires CutsOf(b, cuts) && |cuts| > 0 && |b| == Claimed(b) + 5
    ensures var s, t := Range(b, cuts, |cuts|), Split(b, cuts);
      && s[0] == t[0] && s[|b|] == t[|t| - 5] && Antohs(s, |b| + 3) == Antohs(t, |t| - 2)
  {
    var s, t, e, k := Range(b, cuts, |cuts|), Split(b, cuts), LastFive(b, cuts), |cuts|;
    RepeatFront(e, k - 1);
    var j := Joining(b, cuts, k);
    assert s == j + (e + Repeat(e, k - 1));
    assert forall m :: 0 <= m < 5 ==> s[|b| + m] == e[m];
    SplitIsTail(b, cuts);
  }

  /** The lengths that merge_tls_records writes at the end. */
  ghost function Finished(s: seq<Byte>, full: nat): seq<Byte>
    requires |s| >= 9
  {
    Patch(Patch(s, 3, Be16(full)), 7, Be16(full - 4))
  }

  lemma FinishedFront(s: seq<Byte>, rest: seq<Byte>, full: nat)
    requires |s| >= 9
    ensures Finished(s + rest, full) == Finished(s, full) + rest
  {
  }

  /** The last stage with its lengths written is the original record, and stale bytes behind it. */
  lemma Restored(b: seq<Byte>, cuts: seq<nat>)
    requires CutsOf(b, cuts) && |b| == Claimed(b) + 5 && |b| >= 9
    ensures Finished(Range(b, cuts, |cuts|), Claimed(b)) == Patch(b, 7, Be16(Claimed(b) - 4)) + Repeat(LastFive(b, cuts), |cuts|)
  {
    hide CutsOf, Split, Tail, Finished, Joining, Repeat, LastFive, Patch;
    var j := Joining(b, cuts, |cuts|);
    FinishedFront(j, Repeat(LastFive(b, cuts), |cuts|), Claimed(b));
    JoinedAll(b, cuts);
    RestoredRecord(b, j, NextCut(b, cuts, 0));
  }

  lemma JoinedAll(b: seq<Byte>, cuts: seq<nat>)
    requires CutsOf(b, cuts) && |b| == Claimed(b) + 5
    ensures Joining(b, cuts, |cuts|) == Head(b) + Be16(NextCut(b, cuts, 0)) + b[5..5 + Claimed(b)] + []
  {
    hide CutsOf, Split, Tail;
  }

  lemma RestoredRecord(b: seq<Byte>, j: seq<Byte>, x: int)
    requires |b| >= 9 && |b| == Claimed(b) + 5 && j == Head(b) + Be16(x) + b[5..5 + Claimed(b)] + []
    ensures Finished(j, Claimed(b)) == Patch(b, 7, Be16(Claimed(b) - 4))
  {
    assert forall m :: 0 <= m < |b| && m != 3 && m != 4 ==> j[m] == b[m];
    assert Be16(Claimed(b)) == [b[3], b[4]];
  }

  /**
    The cut record `b` and nothing else: it was whole, it has the header of a handshake message,
    and the last bytes do not look like one more record.
  */
  ghost predicate Joinable(s: seq<Byte>, b: seq<Byte>, cuts: seq<nat>) {
    CutsOf(b, cuts) && |b| == Claimed(b) + 5 && |b| >= 9 && s == Split(b, cuts) && !Stale(s, |cuts|)
  }

  // -- the loop on any buffer ---------------------------------------------------------------

  /** Byte `k` of the buffer followed by its last five bytes again and again: what the loop gets to see. */
  function Stream(s: seq<Byte>, k: nat): Byte
    requires |s| >= 5
  {
    if k < |s| then s[k] else s[|s| - 5 + (k - |s|) % 5]
  }

  /** The length in the header at `at`. */
  function StreamLen(s: seq<Byte>, at: nat): nat
    requires |s| >= 5
  {
    Stream(s, at + 3) * 256 + Stream(s, at + 4)
  }

  /** Where the next header is in that stream, after `k` joins and with `full` payload bytes joined. */
  function Ahead(k: nat, full: nat): nat {
    5 + full + 5 * k
  }

  /** It is a header of the type, and its record fits. */
  predicate GoesOn(s: seq<Byte>, k: nat, full: nat)
    requires |s| >= 5
  {
    && full + 10 <= |s| && Stream(s, Ahead(k, full)) == s[0]
    && full + 10 + StreamLen(s, Ahead(k, full)) <= |s|
  }

  /** The walk over the records: the payload bytes joined after `k` joins, None if the loop ends before. */
  function FullAfter(s: seq<Byte>, k: nat): (r: Option<nat>)
    requires |s| >= 5
    ensures k > 0 && r.Some? ==> r.value + 10 <= |s|
  {
    if k == 0 then Some(Antohs(s, 3))
    else
      var f := FullAfter(s, k - 1);
      if f.None? || !GoesOn(s, k - 1, f.value) then None else Some(f.value + StreamLen(s, Ahead(k - 1, f.value)))
  }

  /** The loop ends. */
  ghost predicate Ends(s: seq<Byte>)
    requires |s| >= 5
  {
    exists k: nat :: FullAfter(s, k).None?
  }

  /** It ends after `k` joins. */
  ghost predicate Stops(s: seq<Byte>, k: nat)
    requires |s| >= 5
  {
    FullAfter(s, k).Some? && FullAfter(s, k + 1).None?
  }

  /** The range after `k` joins. */
  ghost function Stage(s: seq<Byte>, k: nat): (r: seq<Byte>)
    requires |s| >= 5 && FullAfter(s, k).Some?
    ensures |r| == |s|
  {
    if k == 0 then s else Closed(Stage(s, k - 1), 5 + FullAfter(s, k - 1).value)
  }

  lemma Period(s: seq<Byte>, k: nat)
    requires |s| >= 5 && k + 5 >= |s|
    ensures Stream(s, k + 5) == Stream(s, k)
  {
    if k >= |s| {
      assert (k + 5 - |s|) % 5 == (k - |s|) % 5;
    }
  }

  /** Behind what it has joined, the range holds the stream, moved five bytes a join. */
  lemma {:induction false} StageStream(s: seq<Byte>, k: nat)
    requires |s| >= 5 && FullAfter(s, k).Some?
    ensures Stage(s, k)[0] == s[0]
    ensures forall m :: 5 + FullAfter(s, k).value <= m < |s| ==> Stage(s, k)[m] == Stream(s, m + 5 * k)
  {
    hide Stream, Closed;
    if k == 0 {
      StreamStart(s);
    } else {
      StageStream(s, k - 1);
      StreamMoves(s, Stage(s, k - 1), 5 + FullAfter(s, k - 1).value, k - 1);
    }
  }

  lemma StreamStart(s: seq<Byte>)
    requires |s| >= 5
    ensures forall m :: 0 <= m < |s| ==> s[m] == Stream(s, m + 5 * 0)
  {
  }

  lemma StreamMoves(s: seq<Byte>, p: seq<Byte>, at: nat, k: nat)
    requires |p| == |s| >= 5 && 5 <= at && at + 5 <= |s|
    requires p[0] == s[0] && forall m :: at <= m < |s| ==> p[m] == Stream(s, m + 5 * k)
    ensures Closed(p, at)[0] == s[0] && forall m :: at <= m < |s| ==> Closed(p, at)[m] == Stream(s, m + 5 * (k + 1))
  {
    hide Stream;
    forall m | at <= m < |s| ensures Closed(p, at)[m] == Stream(s, m + 5 * (k + 1)) {
      assert m + 5 * (k + 1) == m + 5 + 5 * k;
      if m + 5 < |s| {
        assert Closed(p, at)[m] == p[m + 5];
      } else {
        assert Closed(p, at)[m] == p[m];
        Period(s, m + 5 * k);
      }
    }
  }

  /** So the tests of the loop are the tests of the walk. */
  lemma StageGoes(s: seq<Byte>, k: nat)
    requires |s| >= 5 && FullAfter(s, k).Some?
    ensures var f := FullAfter(s, k).value;
      && (Goes(Stage(s, k), f) <==> GoesOn(s, k, f))
      && (f + 10 <= |s| ==> Antohs(Stage(s, k), 5 + f + 3) == StreamLen(s, Ahead(k, f)))
  {
    hide FullAfter, Stage, Stream;
    StageStream(s, k);
    var f := FullAfter(s, k).value;
    if f + 10 <= |s| {
      assert 5 + f + 5 * k == Ahead(k, f);
      assert Stage(s, k)[5 + f] == Stream(s, Ahead(k, f));
      assert Stage(s, k)[5 + f + 3] == Stream(s, Ahead(k, f) + 3);
      assert Stage(s, k)[5 + f + 4] == Stream(s, Ahead(k, f) + 4);
    }
  }

  // -- when it ends -------------------------------------------------------------------------

  /** The walk meets an empty record where the last five bytes begin, or behind that. */
  ghost predicate SpinsAt(s: seq<Byte>, k: nat)
    requires |s| >= 5
  {
    var f := FullAfter(s, k);
    f.Some? && GoesOn(s, k, f.value) && StreamLen(s, Ahead(k, f.value)) == 0 && Ahead(k, f.value) + 5 >= |s|
  }

  /** From there on it meets that record again and again. */
  lemma SpinsOn(s: seq<Byte>, k: nat)
    requires |s| >= 5 && SpinsAt(s, k)
    ensures FullAfter(s, k + 1) == FullAfter(s, k) && SpinsAt(s, k + 1)
  {
    var at := Ahead(k, FullAfter(s, k).value);
    assert Ahead(k + 1, FullAfter(s, k).value) == at + 5;
    Period(s, at);
    Period(s, at + 3);
    Period(s, at + 4);
  }

  lemma {:induction false} SpinsForever(s: seq<Byte>, k: nat, j: nat)
    requires |s| >= 5 && SpinsAt(s, k) && k <= j
    ensures FullAfter(s, j) == FullAfter(s, k) && SpinsAt(s, j)
    decreases j
  {
    if k < j {
      SpinsForever(s, k, j - 1);
      SpinsOn(s, j - 1);
    }
  }

  lemma {:induction false} StaysEnded(s: seq<Byte>, k: nat, j: nat)
    requires |s| >= 5 && FullAfter(s, k).None? && k <= j
    ensures FullAfter(s, j).None?
    decreases j
  {
    if k < j {
      StaysEnded(s, k, j - 1);
    }
  }

  /** Otherwise every join gets on: towards the last five bytes, or by payload. */
  lemma {:induction false} GetsOn(s: seq<Byte>, k: nat)
    requires |s| >= 5 && FullAfter(s, k).Some? && forall j :: 0 <= j < k ==> !SpinsAt(s, j)
    ensures k <= FullAfter(s, k).value + |s|
  {
    if k > 0 {
      GetsOn(s, k - 1);
      assert !SpinsAt(s, k - 1);
    }
  }

  /** The loop ends if and only if the walk never meets an empty record there; then it takes fewer than 2 |s| joins. */
  lemma EndsIff(s: seq<Byte>)
    requires |s| >= 5
    ensures Ends(s) <==> forall k: nat :: k < 2 * |s| ==> !SpinsAt(s, k)
    ensures Ends(s) ==> FullAfter(s, 2 * |s|).None?
  {
    if k: nat :| SpinsAt(s, k) {
      forall j: nat ensures FullAfter(s, j).Some? {
        if k <= j {
          SpinsForever(s, k, j);
        } else if FullAfter(s, j).None? {
          StaysEnded(s, j, k);
        }
      }
    } else if FullAfter(s, 2 * |s|).Some? {
      GetsOn(s, 2 * |s|);
    }
    if exists k: nat :: SpinsAt(s, k) {
      SpinsEarly(s);
    }
  }

  /** The first such record is met early. */
  lemma SpinsEarly(s: seq<Byte>)
    requires |s| >= 5 && exists k: nat :: SpinsAt(s, k)
    ensures exists k: nat :: k < 2 * |s| && SpinsAt(s, k)
  {
    var k: nat :| SpinsAt(s, k);
    if forall j: nat :: j < 2 * |s| ==> !SpinsAt(s, j) {
      if FullAfter(s, 2 * |s|).None? {
        StaysEnded(s, 2 * |s|, k);
      } else {
        GetsOn(s, 2 * |s|);
      }
    }
  }

  /** Rotated by `q` the five bytes read as the header of an empty record of type `t`. */
  predicate EmptyHeader(e: seq<Byte>, t: Byte, q: nat)
    requires |e| == 5 && q < 5
  {
    e[q] == t && e[(q + 3) % 5] == 0 && e[(q + 4) % 5] == 0
  }

  /** They do so in no rotation. */
  predicate NoEmptyHeader(e: seq<Byte>, t: Byte)
    requires |e| == 5
  {
    forall q :: 0 <= q < 5 ==> !EmptyHeader(e, t, q)
  }

  lemma InTail(s: seq<Byte>, k: nat)
    requires |s| >= 5 && k + 5 >= |s|
    ensures Stream(s, k) == s[|s| - 5..][(k + 5 - |s|) % 5]
  {
    assert k >= |s| ==> (k - |s|) % 5 == (k + 5 - |s|) % 5;
  }

  lemma NotInTail(s: seq<Byte>, at: nat)
    requires |s| >= 5 && NoEmptyHeader(s[|s| - 5..], s[0]) && at + 5 >= |s|
    ensures !(Stream(s, at) == s[0] && StreamLen(s, at) == 0)
  {
    hide Stream;
    InTail(s, at);
    InTail(s, at + 3);
    InTail(s, at + 4);
    var d := at + 5 - |s|;
    var q := d % 5;
    assert (d + 3) % 5 == (q + 3) % 5 && (d + 4) % 5 == (q + 4) % 5;
    assert !EmptyHeader(s[|s| - 5..], s[0], q);
  }

  lemma GoesType(s: seq<Byte>, k: nat, full: nat)
    requires |s| >= 5 && GoesOn(s, k, full)
    ensures Stream(s, Ahead(k, full)) == s[0]
  {
  }

  /** If the last five bytes read as an empty record in no rotation the loop ends, whatever comes before them. */
  lemma EndsByTail(s: seq<Byte>)
    requires |s| >= 5 && NoEmptyHeader(s[|s| - 5..], s[0])
    ensures Ends(s)
  {
    hide FullAfter, Ends, GoesOn;
    forall k: nat ensures !SpinsAt(s, k) {
      if SpinsAt(s, k) {
        GoesType(s, k, FullAfter(s, k).value);
        NotInTail(s, Ahead(k, FullAfter(s, k).value));
      }
    }
    EndsIff(s);
  }

  /** The 16-bit sum of the loop never wraps around. */
  ghost predicate NoWrap(s: seq<Byte>)
    requires |s| >= 5
  {
    forall k: nat :: FullAfter(s, k).Some? ==> FullAfter(s, k).value < 0x1_0000
  }

  /** It cannot in a buffer of about 64 KiB. */
  lemma ShortNoWrap(s: seq<Byte>)
    requires 5 <= |s| < 0x1_000a
    ensures NoWrap(s)
  {
    forall k: nat | FullAfter(s, k).Some? ensures FullAfter(s, k).value < 0x1_0000 {
      assert k > 0 || FullAfter(s, k).value == Antohs(s, 3);
    }
  }

  /**
    merge_tls_records on any buffer on which its loop ends: the range after the last join, with the
    two lengths written over it, and five bytes a join.
  */
  method MergeTlsRecords(buffer: array<Byte>, n: nat) returns (r: nat, ghost k: nat)
    requires n <= buffer.Length
    requires n >= 5 ==> buffer.Length >= 9 && NoWrap(buffer[..n]) && Ends(buffer[..n])
    modifies buffer
    ensures r == 5 * k && (n < 5 ==> k == 0 && buffer[..] == old(buffer[..]))
    ensures n >= 5 ==> var s := old(buffer[..n]);
      Stops(s, k) && buffer[..] == Finished(Stage(s, k) + old(buffer[n..]), FullAfter(s, k).value)
  {
    hide Patch, FullAfter, Stage, Goes, Ends, NoWrap;
    if n < 5 {
      return 0, 0;
    }
    ghost var s, rest := buffer[..n], buffer[n..];
    var fullSz: nat, i: nat, rSz: nat := 0, 0, Antohs(buffer[..n], 3);
    WalkBegins(s);
    while true
      invariant At(s, i, fullSz, rSz, buffer[..n]) == true && buffer[n..] == rest
      decreases 2 * n - i
    {
      EndsEarly(s, i);
      var next;
      fullSz, next := JoinRound(buffer, n, fullSz, rSz, s, i);
      if next.None? {
        break;
      }
      rSz, i := next.value, i + 1;
    }
    assert buffer[..] == buffer[..n] + rest;
    Shtona(buffer, 3, fullSz);
    Shtona(buffer, 7, fullSz - 4);
    return i * 5, i;
  }

  /** The head of the loop after `i` joins. */
  ghost predicate At(s: seq<Byte>, i: nat, full: int, rSz: int, cur: seq<Byte>) {
    && 5 <= |s| && NoWrap(s) && 0 <= full && 0 <= rSz
    && FullAfter(s, i) == Some(full + rSz) && cur == Stage(s, i)
  }

  lemma WalkBegins(s: seq<Byte>)
    requires 5 <= |s| && NoWrap(s)
    ensures At(s, 0, 0, Antohs(s, 3), s) == true
  {
  }

  lemma EndsEarly(s: seq<Byte>, i: nat)
    requires |s| >= 5 && Ends(s) && FullAfter(s, i).Some?
    ensures i < 2 * |s|
  {
    EndsIff(s);
    if 2 * |s| <= i {
      StaysEnded(s, 2 * |s|, i);
    }
  }

  /** One round: the sum, which does not wrap around, the two tests, and the join unless a test ends the loop. */
  method JoinRound(buffer: array<Byte>, n: nat, fullSz: nat, rSz: nat, ghost s: seq<Byte>, ghost i: nat)
    returns (full: nat, next: Option<nat>)
    requires 5 <= n <= buffer.Length && At(s, i, fullSz, rSz, buffer[..n]) == true
    modifies buffer
    ensures buffer[n..] == old(buffer[n..]) && FullAfter(s, i) == Some(full)
    ensures next.None? ==> Stops(s, i) && buffer[..n] == Stage(s, i)
    ensures next.Some? ==> At(s, i + 1, full, next.value, buffer[..n]) == true
  {
    hide FullAfter, Stage, Goes;
    full := (fullSz + rSz) % 0x1_0000;
    assert FullAfter(s, i).value == fullSz + rSz;
    Small(fullSz + rSz);
    Advance(s, i, full);
    next := NextRecord(buffer, n, full);
    if next.Some? {
      Close(buffer, n, 5 + full);
    }
  }

  lemma Small(x: int)
    requires 0 <= x < 0x1_0000
    ensures x % 0x1_0000 == x
  {
  }

  lemma Advance(s: seq<Byte>, i: nat, full: nat)
    requires 5 <= |s| && NoWrap(s) && FullAfter(s, i) == Some(full)
    ensures !Goes(Stage(s, i), full) ==> Stops(s, i)
    ensures Goes(Stage(s, i), full) ==>
      full + 10 <= |s| && At(s, i + 1, full, Antohs(Stage(s, i), 5 + full + 3), Closed(Stage(s, i), 5 + full)) == true
  {
    hide Stream, StreamLen, FullAfter, Stage, Goes, GoesOn, Closed;
    StageGoes(s, i);
    WalkStep(s, i, full);
    if Goes(Stage(s, i), full) {
      GoesFits(Stage(s, i), full);
      assert full + StreamLen(s, Ahead(i, full)) + 10 <= |s|;
    }
  }

  lemma WalkStep(s: seq<Byte>, i: nat, full: nat)
    requires |s| >= 5 && FullAfter(s, i) == Some(full)
    ensures FullAfter(s, i + 1) == if GoesOn(s, i, full) then Some(full + StreamLen(s, Ahead(i, full))) else None
    ensures GoesOn(s, i, full) ==> Stage(s, i + 1) == Closed(Stage(s, i), 5 + full)
  {
  }

  /** The two tests of the loop and the length between them. */
  method NextRecord(buffer: array<Byte>, n: nat, full: nat) returns (r: Option<nat>)
    requires 5 <= n <= buffer.Length
    ensures r == if Goes(buffer[..n], full) then Some(Antohs(buffer[..n], 5 + full + 3)) else None
  {
    if 5 + full > n - 5 || buffer[5 + full] != buffer[0] {
      return None;
    }
    var rSz := Antohs(buffer[..n], 5 + full + 3);
    if full + 10 + rSz > n {
      return None;
    }
    return Some(rSz);
  }

  /** The memmove of a join. */
  method Close(buffer: array<Byte>, n: nat, at: nat)
    requires at + 5 <= n <= buffer.Length
    modifies buffer
    ensures buffer[..n] == Closed(old(buffer[..n]), at) && buffer[n..] == old(buffer[n..])
  {
    ghost var s := buffer[..];
    assert s[..n] == buffer[..n] && s[n..] == buffer[n..];
    Memmove(buffer, at, at + 5, n - (at + 5));
    assert buffer[..] == Patch(s, at, s[at + 5..n]);
    assert buffer[..n] == buffer[..][..n] == Closed(s[..n], at);
    assert buffer[n..] == buffer[..][n..];
  }

  // -- what it makes of a cut record --------------------------------------------------------

  lemma FirstLength(b: seq<Byte>, cuts: seq<nat>)
    requires CutsOf(b, cuts) && |b| == Claimed(b) + 5
    ensures Antohs(Split(b, cuts), 3) == NextCut(b, cuts, 0)
  {
    SplitIsTail(b, cuts);
    var s := Split(b, cuts);
    if |cuts| > 0 {
      assert s == Fragment(b, cuts, 0) + Tail(b, cuts, 1);
      assert s[..5] == Head(b) + Be16(NextCut(b, cuts, 0)) by {
        assert s[..5] == Fragment(b, cuts, 0)[..5];
      }
    } else {
      assert s[..5] == Head(b) + Be16(NextCut(b, cuts, 0));
    }
    assert s[0..5] == s[..5];
    HeaderAt(s, 0, Head(b), NextCut(b, cuts, 0));
  }

  /** On the cuts of a record the walk passes fragment by fragment. */
  lemma {:induction false} CutStages(b: seq<Byte>, cuts: seq<nat>, i: nat)
    requires CutsOf(b, cuts) && i <= |cuts| && |b| == Claimed(b) + 5
    ensures var s := Split(b, cuts); FullAfter(s, i) == Some(NextCut(b, cuts, i)) && Stage(s, i) == Range(b, cuts, i)
  {
    hide Range, Split, Goes, GoesOn, Closed;
    var s := Split(b, cuts);
    if i == 0 {
      FirstLength(b, cuts);
      RangeStart(b, cuts);
    } else {
      CutStages(b, cuts, i - 1);
      GoesExactly(b, cuts, i - 1);
      StageGoes(s, i - 1);
      JoinStep(b, cuts, i - 1);
      GoesFits(Range(b, cuts, i - 1), cuts[i - 1]);
    }
  }

  lemma GoesFits(s: seq<Byte>, full: nat)
    requires Goes(s, full)
    ensures full + 10 <= |s|
  {
  }

  /** It stops when all fragments are joined, and so undoes the cuts, exactly if the last bytes are not stale. */
  lemma RejoinsIff(b: seq<Byte>, cuts: seq<nat>)
    requires CutsOf(b, cuts) && |b| == Claimed(b) + 5
    ensures var s := Split(b, cuts);
      && FullAfter(s, |cuts|).Some? && Stage(s, |cuts|) == Range(b, cuts, |cuts|)
      && (Stops(s, |cuts|) <==> !Stale(s, |cuts|))
  {
    hide Range, Goes, GoesOn, Split, Stale;
    CutStages(b, cuts, |cuts|);
    GoesExactly(b, cuts, |cuts|);
    StageGoes(Split(b, cuts), |cuts|);
  }

  lemma CutNoWrap(b: seq<Byte>, cuts: seq<nat>)
    requires CutsOf(b, cuts) && |b| == Claimed(b) + 5 && !Stale(Split(b, cuts), |cuts|)
    ensures NoWrap(Split(b, cuts))
  {
    hide FullAfter, Split, Stale;
    var s := Split(b, cuts);
    forall k: nat | FullAfter(s, k).Some? ensures FullAfter(s, k).value < 0x1_0000 {
      if k <= |cuts| {
        CutStages(b, cuts, k);
      } else {
        RejoinsIff(b, cuts);
        StaysEnded(s, |cuts| + 1, k);
      }
    }
  }

  /** The number of joins is a matter of the buffer alone. */
  lemma StopsOnce(s: seq<Byte>, j: nat, k: nat)
    requires |s| >= 5 && Stops(s, j) && Stops(s, k)
    ensures j == k
  {
    if j < k {
      StaysEnded(s, j + 1, k);
    } else if k < j {
      StaysEnded(s, k + 1, j);
    }
  }

  /** Stale bytes that read as an empty record: the next join changes nothing, and the loop does not end. */
  lemma StaleForever(b: seq<Byte>, cuts: seq<nat>)
    requires CutsOf(b, cuts) && |b| == Claimed(b) + 5 && |b| >= 9
    requires Stale(Split(b, cuts), |cuts|) && Antohs(Split(b, cuts), |b| + 5 * |cuts| - 2) == 0
    ensures Closed(Range(b, cuts, |cuts|), |b|) == Range(b, cuts, |cuts|) && !Ends(Split(b, cuts))
  {
    var s := Split(b, cuts);
    assert SpinsAt(s, |cuts|) by {
      StaleSpins(b, cuts);
    }
    EndsIff(s);
    ClosedSame(b, cuts);
  }

  lemma StaleSpins(b: seq<Byte>, cuts: seq<nat>)
    requires CutsOf(b, cuts) && |b| == Claimed(b) + 5 && |b| >= 9
    requires Stale(Split(b, cuts), |cuts|) && Antohs(Split(b, cuts), |b| + 5 * |cuts| - 2) == 0
    ensures SpinsAt(Split(b, cuts), |cuts|)
  {
    hide Range, Split, Joining, CutsOf;
    var s := Split(b, cuts);
    RejoinsIff(b, cuts);
    CutStages(b, cuts, |cuts|);
    StageGoes(s, |cuts|);
    StaleAt(b, cuts);
  }

  lemma ClosedSame(b: seq<Byte>, cuts: seq<nat>)
    requires CutsOf(b, cuts) && |cuts| > 0 && |b| == Claimed(b) + 5
    ensures Closed(Range(b, cuts, |cuts|), |b|) == Range(b, cuts, |cuts|)
  {
    hide CutsOf, Split, LastFive;
    var e, k := LastFive(b, cuts), |cuts|;
    var j := Joining(b, cuts, k);
    RepeatFront(e, k - 1);
    ClosedRepeat(j, e, Repeat(e, k - 1));
  }

  lemma ClosedRepeat(j: seq<Byte>, e: seq<Byte>, rep: seq<Byte>)
    requires |e| == 5 && e + rep == rep + e
    ensures Closed(j + (rep + e), |j|) == j + (rep + e)
  {
    var s := j + (rep + e);
    assert s == j + (e + rep);
    assert s[..|j|] == j && s[|j| + 5..] == rep && s[|s| - 5..] == e;
  }

  /**
    On a buffer that holds the cut record `b` and nothing more of it merge_tls_records returns the
    number of bytes saved and leaves the original record, with the length of the handshake message
    set to the length of the record minus four.
  */
  method Rejoin(buffer: array<Byte>, n: nat, ghost b: seq<Byte>, ghost cuts: seq<nat>) returns (r: nat)
    requires n <= buffer.Length && Joinable(buffer[..n], b, cuts)
    modifies buffer
    ensures r == 5 * |cuts| && n == |b| + r && CutsOf(b, cuts)
    ensures buffer[..n] == Patch(b, 7, Be16(Claimed(b) - 4)) + Repeat(LastFive(b, cuts), |cuts|)
    ensures buffer[n..] == old(buffer[n..])
  {
    hide Patch, FullAfter, Stage, Range, Split, CutsOf, Stale, Stops;
    ghost var s, rest := buffer[..n], buffer[n..];
    RejoinsIff(b, cuts);
    CutNoWrap(b, cuts);
    StopsEnds(s, |cuts|);
    ghost var k;
    r, k := MergeTlsRecords(buffer, n);
    StopsOnce(s, k, |cuts|);
    CutStages(b, cuts, |cuts|);
    Restored(b, cuts);
    FinishedFront(Range(b, cuts, |cuts|), rest, Claimed(b));
    assert buffer[..n] == buffer[..][..n] && buffer[n..] == buffer[..][n..];
  }

  lemma StopsEnds(s: seq<Byte>, k: nat)
    requires |s| >= 5 && Stops(s, k)
    ensures Ends(s)
  {
  }

  /**
    A request that is_tls_chello lets through: a record of one byte, which begins a ClientHello, and
    two empty records. The walk comes to the last of these and stays there.
  */
  lemma EmptyRecordsLoop()
    ensures var h := [0x16, 0x03, 0x01, 0x00]; var s := h + [0x01, 0x01] + h + [0x00] + h + [0x00];
      |s| > 5 && Antohs(s, 0) == 0x1603 && s[5] == 0x01 && SpinsAt(s, 1) && !Ends(s)
  {
    var h: seq<Byte> := [0x16, 0x03, 0x01, 0x00];
    var s := h + [0x01, 0x01] + h + [0x00] + h + [0x00];
    assert FullAfter(s, 0) == Some(1);
    assert GoesOn(s, 0, 1) && FullAfter(s, 1) == Some(1);
    assert SpinsAt(s, 1);
    EndsIff(s);
  }
}
