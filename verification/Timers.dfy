/**
  The timer list of conev.c: events with a deadline, doubly linked through the events themselves
  and kept in order of their deadlines.
*/
module Timers {

  /** `struct eval` as far as the event pool is concerned. `reg` counts registrations. */
  class Eval {
    var fd: int
    var index: nat
    var modIter: nat
    var pair: Eval?
    var tvMs: int
    var tvNext: Eval?
    var tvPrev: Eval?
    ghost var reg: nat

    constructor ()
      ensures fd == -1 && index == 0 && modIter == 0 && pair == null && reg == 0
      ensures tvMs == 0 && tvNext == null && tvPrev == null
    {
      fd, index, modIter, pair, reg := -1, 0, 0, null, 0;
      tvMs, tvNext, tvPrev := 0, null, null;
    }
  }

  // -- the links, as a snapshot -------------------------------------------------------------

  datatype Timer = Timer(prev: Eval?, next: Eval?, ms: int)

  const OFF := Timer(null, null, 0)

  type Clock = map<Eval, Timer>

  ghost function Snap(s: set<Eval>): (h: Clock)
    reads s
    ensures h.Keys == s
  {
    map e | e in s :: Timer(e.tvPrev, e.tvNext, e.tvMs)
  }

  function Neighbour(q: seq<Eval>, i: int): Eval? {
    if 0 <= i < |q| then q[i] else null
  }

  ghost predicate LinkAt(h: Clock, q: seq<Eval>, i: nat)
    requires i < |q|
  {
    q[i] in h && h[q[i]].prev == Neighbour(q, i - 1) && h[q[i]].next == Neighbour(q, i + 1) && h[q[i]].ms != 0
  }

  ghost predicate Distinct(q: seq<Eval>) {
    forall i, j :: 0 <= i < j < |q| ==> q[i] != q[j]
  }

  ghost predicate Sorted(h: Clock, q: seq<Eval>) {
    forall i, j :: 0 <= i < j < |q| && q[i] in h && q[j] in h ==> h[q[i]].ms <= h[q[j]].ms
  }

  /** The list is `q`, linked in both directions and in order; all other events have no timer. */
  ghost predicate Listed(h: Clock, first: Eval?, last: Eval?, q: seq<Eval>) {
    && first == Neighbour(q, 0) && last == Neighbour(q, |q| - 1) && Distinct(q) && Sorted(h, q)
    && (forall i :: 0 <= i < |q| ==> LinkAt(h, q, i))
    && (forall e :: e in h && e !in q ==> h[e] == OFF)
  }

  // -- inserting ----------------------------------------------------------------------------

  /** All deadlines in front of `k` are earlier than `ms`, from there on none is. */
  ghost predicate Place(h: Clock, q: seq<Eval>, k: nat, ms: int) {
    && k <= |q| && (forall i :: 0 <= i < k && q[i] in h ==> h[q[i]].ms < ms)
    && (forall i :: k <= i < |q| && q[i] in h ==> h[q[i]].ms >= ms)
  }

  /** `v` put between its neighbours. */
  ghost function Insert(h: Clock, q: seq<Eval>, k: nat, v: Eval, ms: int): Clock
    requires k <= |q|
  {
    var prev, next := Neighbour(q, k - 1), Neighbour(q, k);
    var h1 := h[v := Timer(prev, next, ms)];
    var h2 := if next == null || next !in h then h1 else h1[next := Timer(v, h[next].next, h[next].ms)];
    if prev == null || prev !in h then h2 else h2[prev := Timer(h2[prev].prev, v, h2[prev].ms)]
  }

  lemma InsertLinks(h: Clock, q: seq<Eval>, k: nat, v: Eval, ms: int, i: nat)
    requires k <= |q| && Distinct(q) && v in h && v !in q && ms != 0 && i <= |q|
    requires forall j :: 0 <= j < |q| ==> LinkAt(h, q, j)
    ensures LinkAt(Insert(h, q, k, v, ms), q[..k] + [v] + q[k..], i)
  {
    var q' := q[..k] + [v] + q[k..];
    if i < k {
      assert LinkAt(h, q, i) && q'[i] == q[i];
    } else if i > k {
      assert LinkAt(h, q, i - 1) && q'[i] == q[i - 1];
    }
    if k > 0 {
      assert LinkAt(h, q, k - 1);
    }
    if k < |q| {
      assert LinkAt(h, q, k);
    }
  }

  /** The deadlines stay, apart from the new one. */
  lemma InsertMs(h: Clock, q: seq<Eval>, k: nat, v: Eval, ms: int)
    requires k <= |q| && v in h && v !in q && forall j :: 0 <= j < |q| ==> LinkAt(h, q, j)
    ensures var h' := Insert(h, q, k, v, ms);
      && h'.Keys == h.Keys && h'[v].ms == ms
      && (forall e :: e in h && e != v ==> h'[e].ms == h[e].ms)
      && (forall e :: e in h && e != v && e !in q ==> h'[e] == h[e])
  {
    if k > 0 {
      assert LinkAt(h, q, k - 1);
    }
    if k < |q| {
      assert LinkAt(h, q, k);
    }
  }

  lemma InsertSorted(h: Clock, h': Clock, q: seq<Eval>, k: nat, v: Eval, ms: int)
    requires Sorted(h, q) && Place(h, q, k, ms) && v !in q
    requires v in h' && h'[v].ms == ms && forall i :: 0 <= i < |q| ==> q[i] in h && q[i] in h' && h'[q[i]].ms == h[q[i]].ms
    ensures Sorted(h', q[..k] + [v] + q[k..])
  {
    var q' := q[..k] + [v] + q[k..];
    forall i, j | 0 <= i < j < |q'| && q'[i] in h' && q'[j] in h' ensures h'[q'[i]].ms <= h'[q'[j]].ms {
      var a, b := if i < k then i else i - 1, if j < k then j else j - 1;
      assert i != k ==> q'[i] == q[a];
      assert j != k ==> q'[j] == q[b];
    }
  }

  lemma Inserted(h: Clock, first: Eval?, last: Eval?, q: seq<Eval>, k: nat, v: Eval, ms: int)
    requires Listed(h, first, last, q) && Place(h, q, k, ms) && v in h && v !in q && ms != 0
    ensures var q' := q[..k] + [v] + q[k..];
      Listed(Insert(h, q, k, v, ms), Neighbour(q', 0), Neighbour(q', |q|), q')
  {
    var q', h' := q[..k] + [v] + q[k..], Insert(h, q, k, v, ms);
    InsertMs(h, q, k, v, ms);
    forall i | 0 <= i < |q'| ensures LinkAt(h', q', i) {
      InsertLinks(h, q, k, v, ms, i);
    }
    assert Sorted(h', q') by {
      forall i | 0 <= i < |q| ensures q[i] in h && q[i] in h' && h'[q[i]].ms == h[q[i]].ms {
        assert LinkAt(h, q, i);
      }
      InsertSorted(h, h', q, k, v, ms);
    }
    forall e | e in h' && e !in q' ensures h'[e] == OFF {
      NotIn(q, k, v, e);
    }
    InsertDistinct(q, k, v);
  }

  lemma InsertDistinct(q: seq<Eval>, k: nat, v: Eval)
    requires Distinct(q) && k <= |q| && v !in q
    ensures Distinct(q[..k] + [v] + q[k..])
  {
  }

  lemma NotIn(q: seq<Eval>, k: nat, v: Eval, e: Eval)
    requires k <= |q| && e !in q[..k] + [v] + q[k..]
    ensures e !in q && e != v
  {
    assert q == q[..k] + q[k..];
  }

  // -- removing -----------------------------------------------------------------------------

  /** The neighbours of `v` are linked to each other, `v` itself to nothing. */
  ghost function Unlink(h: Clock, v: Eval): Clock
    requires v in h
  {
    var prev, next := h[v].prev, h[v].next;
    var h1 := if prev == null || prev !in h then h else h[prev := Timer(h[prev].prev, next, h[prev].ms)];
    var h2 := if next == null || next !in h then h1 else h1[next := Timer(prev, h1[next].next, h1[next].ms)];
    h2[v := OFF]
  }

  lemma RestNeighbour(q: seq<Eval>, k: nat, m: int)
    requires k < |q|
    ensures Neighbour(q[..k] + q[k + 1..], m) == Neighbour(q, if m < k then m else m + 1)
  {
  }

  lemma UnlinkLinks(h: Clock, q: seq<Eval>, k: nat, i: nat)
    requires k < |q| && Distinct(q) && q[k] in h && i < |q| - 1
    requires forall j :: 0 <= j < |q| ==> LinkAt(h, q, j)
    ensures LinkAt(Unlink(h, q[k]), q[..k] + q[k + 1..], i)
  {
    var q' := q[..k] + q[k + 1..];
    RestNeighbour(q, k, i - 1);
    RestNeighbour(q, k, i);
    RestNeighbour(q, k, i + 1);
    assert LinkAt(h, q, k);
    if i < k {
      assert LinkAt(h, q, i) && q'[i] == q[i];
    } else {
      assert LinkAt(h, q, i + 1) && q'[i] == q[i + 1];
    }
    if k > 0 {
      assert LinkAt(h, q, k - 1);
    }
    if k + 1 < |q| {
      assert LinkAt(h, q, k + 1);
    }
  }

  lemma UnlinkMs(h: Clock, q: seq<Eval>, k: nat)
    requires k < |q| && Distinct(q) && forall j :: 0 <= j < |q| ==> LinkAt(h, q, j)
    ensures q[k] in h
    ensures var h' := Unlink(h, q[k]);
      && h'.Keys == h.Keys && h'[q[k]] == OFF
      && (forall e :: e in h && e != q[k] ==> h'[e].ms == h[e].ms)
      && (forall e :: e in h && e !in q ==> h'[e] == h[e])
  {
    assert LinkAt(h, q, k);
    if k > 0 {
      assert LinkAt(h, q, k - 1);
    }
    if k + 1 < |q| {
      assert LinkAt(h, q, k + 1);
    }
  }

  lemma Unlinked(h: Clock, first: Eval?, last: Eval?, q: seq<Eval>, k: nat)
    requires Listed(h, first, last, q) && k < |q| && q[k] in h
    ensures var q' := q[..k] + q[k + 1..];
      Listed(Unlink(h, q[k]), Neighbour(q', 0), Neighbour(q', |q| - 2), q')
  {
    var q', h' := q[..k] + q[k + 1..], Unlink(h, q[k]);
    UnlinkMs(h, q, k);
    forall i | 0 <= i < |q'| ensures LinkAt(h', q', i) {
      UnlinkLinks(h, q, k, i);
    }
    forall i, j | 0 <= i < j < |q'| && q'[i] in h' && q'[j] in h' ensures h'[q'[i]].ms <= h'[q'[j]].ms {
      var a, b := if i < k then i else i + 1, if j < k then j else j + 1;
      assert q'[i] == q[a] && q'[j] == q[b] && LinkAt(h, q, a) && LinkAt(h, q, b);
    }
    forall e | e in h' && e !in q' ensures h'[e] == OFF {
      NotInRest(q, k, e);
    }
  }

  lemma NotInRest(q: seq<Eval>, k: nat, e: Eval)
    requires k < |q| && e !in q[..k] + q[k + 1..]
    ensures e == q[k] || e !in q
  {
    assert q == q[..k] + [q[k]] + q[k + 1..];
  }

  // -- the list itself ----------------------------------------------------------------------

  /** `tv_start` and `tv_end` of the pool. */
  class TimerList {
    var tvStart: Eval?
    var tvEnd: Eval?
    /** The list, and all events there are. */
    ghost var q: seq<Eval>
    ghost const items: set<Eval>

    constructor (ghost items: set<Eval>)
      requires forall e :: e in items ==> e.tvMs == 0 && e.tvNext == null && e.tvPrev == null
      ensures this.items == items && q == [] && Valid()
    {
      tvStart, tvEnd, q, this.items := null, null, [], items;
    }

    ghost predicate Valid()
      reads this, items
    {
      Listed(Snap(items), tvStart, tvEnd, q) == true
    }

    /** The place of a deadline, found from the end; deadlines that are equal stay behind. */
    method FindPlace(ms: int) returns (prev: Eval?, next: Eval?, ghost k: nat)
      requires Valid()
      ensures Place(Snap(items), q, k, ms) && prev == Neighbour(q, k - 1) && next == Neighbour(q, k)
    {
      ghost var h := Snap(items);
      next, prev, k := null, tvEnd, |q|;
      while prev != null && prev.tvMs >= ms
        invariant k <= |q| && prev == Neighbour(q, k - 1) && next == Neighbour(q, k)
        invariant forall i :: k <= i < |q| && q[i] in h ==> h[q[i]].ms >= ms
        decreases k
      {
        assert LinkAt(h, q, k - 1);
        next := prev;
        prev := prev.tvPrev;
        k := k - 1;
      }
      if prev != null {
        assert LinkAt(h, q, k - 1);
      }
    }
  
    /** The writes of set_timer to the events. */
    method Link(val: Eval, prev: Eval?, next: Eval?, ms: int, ghost k: nat)
      requires Valid() && val in items && val !in q && k <= |q| && prev == Neighbour(q, k - 1) && next == Neighbour(q, k)
      modifies items`tvMs, items`tvNext, items`tvPrev
      ensures Snap(items) == Insert(old(Snap(items)), q, k, val, ms)
    {
      ghost var h := Snap(items);
      if k > 0 {
        assert LinkAt(h, q, k - 1);
      }
      if k < |q| {
        assert LinkAt(h, q, k);
      }
      val.tvMs := ms;
      val.tvNext := next;
      val.tvPrev := prev;
      if next != null {
        next.tvPrev := val;
      }
      if prev != null {
        prev.tvNext := val;
      }
    }

    /**
      set_timer, `now` being the clock. An event that has a timer keeps it; otherwise it is put
      in front of the first event that is due no earlier.
    */
    method SetTimer(val: Eval, delay: int, now: int)
      requires Valid() && val in items && now + delay != 0
      modifies `tvStart, `tvEnd, `q, items`tvMs, items`tvNext, items`tvPrev
      ensures Valid() == true
      ensures old(val in q) ==> q == old(q) && Snap(items) == old(Snap(items))
      ensures old(val !in q) ==> Added(old(Snap(items)), old(q), val, now + delay, Snap(items), q) == true
    {
      Armed(Snap(items), tvStart, tvEnd, q, val);
      if val.tvMs != 0 {
        return;
      }
      var prev, next;
      ghost var k;
      prev, next, k := FindPlace(now + delay);
      Put(val, prev, next, now + delay, k);
    }

    method Put(val: Eval, prev: Eval?, next: Eval?, ms: int, ghost k: nat)
      requires Valid() && val in items && val !in q && ms != 0
      requires Place(Snap(items), q, k, ms) == true && k <= |q| && prev == Neighbour(q, k - 1) && next == Neighbour(q, k)
      modifies `tvStart, `tvEnd, `q, items`tvMs, items`tvNext, items`tvPrev
      ensures Valid() == true
      ensures Added(old(Snap(items)), old(q), val, ms, Snap(items), q) == true
    {
      hide Listed, Added, Place, Insert;
      ghost var h, q0, start, end := Snap(items), q, tvStart, tvEnd;
      PutIn(h, start, end, q, k, val, ms);
      Link(val, prev, next, ms, k);
      ghost var h' := Snap(items);
      q := q[..k] + [val] + q[k..];
      assert Added(h, q0, val, ms, h', q) == true;
      if tvStart == null || next == tvStart {
        tvStart := val;
      }
      if tvEnd == null || prev == tvEnd {
        tvEnd := val;
      }
      assert forall e :: e in items ==> Timer(e.tvPrev, e.tvNext, e.tvMs) == h'[e];
      assert Snap(items) == h';
      assert tvStart == if start == null || Neighbour(q0, k) == start then val else start;
      assert tvEnd == if end == null || Neighbour(q0, k - 1) == end then val else end;
      assert Listed(h', tvStart, tvEnd, q) == true;
    }

    /** The writes of remove_timer to the events. */
    method Cut(val: Eval)
      requires Valid() && val in items
      modifies items`tvMs, items`tvNext, items`tvPrev
      ensures Snap(items) == Unlink(old(Snap(items)), val)
    {
      Neighbours(Snap(items), tvStart, tvEnd, q, val);
      if val.tvPrev != null {
        val.tvPrev.tvNext := val.tvNext;
      }
      if val.tvNext != null {
        val.tvNext.tvPrev := val.tvPrev;
      }
      val.tvMs := 0;
      val.tvNext := null;
      val.tvPrev := null;
    }

    /** remove_timer; nothing happens to an event without a timer. */
    method RemoveTimer(val: Eval)
      requires Valid() && val in items
      modifies `tvStart, `tvEnd, `q, items`tvMs, items`tvNext, items`tvPrev
      ensures Valid() == true
      ensures Dropped(old(Snap(items)), old(q), val, Snap(items), q) == true
    {
      hide Listed, Dropped, Unlink, Without;
      ghost var h, q0, start, end := Snap(items), q, tvStart, tvEnd;
      TakeOut(h, start, end, q, val);
      var next, prev := val.tvNext, val.tvPrev;
      Cut(val);
      ghost var h' := Snap(items);
      q := Without(q, val);
      if tvStart == val {
        tvStart := next;
      }
      if tvEnd == val {
        tvEnd := prev;
      }
      assert forall e :: e in items ==> Timer(e.tvPrev, e.tvNext, e.tvMs) == h'[e];
      assert Snap(items) == h';
      assert Listed(h', tvStart, tvEnd, q) == true;
    }

    /** The end of next_event_tv: the event that is due first loses its timer and is dispatched. */
    method Expire() returns (val: Eval?)
      requires Valid()
      modifies `tvStart, `tvEnd, `q, items`tvMs, items`tvNext, items`tvPrev
      ensures Valid() == true
      ensures (val == null <==> old(q) == []) && (val == null ==> q == [] && Snap(items) == old(Snap(items)))
      ensures val == old(tvStart)
      ensures val != null ==>
        && val == old(q)[0] && val in items && q == old(q)[1..]
        && Dropped(old(Snap(items)), old(q), val, Snap(items), q) == true
        && forall e :: e in items && old(e.tvMs) != 0 ==> old(val.tvMs) <= old(e.tvMs)
    {
      val := tvStart;
      if val != null {
        Earliest(Snap(items), tvStart, tvEnd, q, items);
        RemoveTimer(val);
      }
    }
  }

  /** `q` without `v`. */
  ghost function Without(q: seq<Eval>, v: Eval): seq<Eval> {
    if v in q then var k := IndexOf(q, v); q[..k] + q[k + 1..] else q
  }

  ghost function IndexOf(q: seq<Eval>, v: Eval): (k: nat)
    requires v in q
    ensures k < |q| && q[k] == v
  {
    var k :| 0 <= k < |q| && q[k] == v;
    k
  }

  /** `v` is out of the list, with nothing else changed. */
  ghost predicate Dropped(h: Clock, q: seq<Eval>, v: Eval, h': Clock, q': seq<Eval>) {
    q' == Without(q, v) && v in h' && h'[v] == OFF && forall e :: e in h && e != v ==> e in h' && h'[e].ms == h[e].ms
  }

  /** The neighbours of an event are events of the list, and other ones. */
  lemma Neighbours(h: Clock, first: Eval?, last: Eval?, q: seq<Eval>, v: Eval)
    requires Listed(h, first, last, q) == true && v in h
    ensures h[v].prev != null ==> h[v].prev in h && h[v].prev != v && h[v].prev != h[v].next
    ensures h[v].next != null ==> h[v].next in h && h[v].next != v
  {
    if v in q {
      var k := IndexOf(q, v);
      assert LinkAt(h, q, k);
      if k > 0 {
        assert LinkAt(h, q, k - 1);
      }
      if k + 1 < |q| {
        assert LinkAt(h, q, k + 1);
      }
    }
  }

  lemma TakeOut(h: Clock, first: Eval?, last: Eval?, q: seq<Eval>, v: Eval)
    requires Listed(h, first, last, q) == true && v in h
    ensures var h', q' := Unlink(h, v), Without(q, v);
      && Listed(h', if first == v then h[v].next else first, if last == v then h[v].prev else last, q') == true
      && Dropped(h, q, v, h', q') == true
  {
    if v in q {
      var k := IndexOf(q, v);
      Unlinked(h, first, last, q, k);
      UnlinkMs(h, q, k);
      CutEnds(h, first, last, q, k);
    } else {
      assert Unlink(h, v) == h;
    }
  }

  lemma CutEnds(h: Clock, first: Eval?, last: Eval?, q: seq<Eval>, k: nat)
    requires Listed(h, first, last, q) == true && k < |q| && q[k] in h
    ensures var q' := q[..k] + q[k + 1..];
      && Neighbour(q', 0) == (if first == q[k] then h[q[k]].next else first)
      && Neighbour(q', |q| - 2) == if last == q[k] then h[q[k]].prev else last
  {
    assert LinkAt(h, q, k);
  }

  /** The first event of the list is due no later than any other event with a timer. */
  lemma Earliest(h: Clock, first: Eval?, last: Eval?, q: seq<Eval>, items: set<Eval>)
    requires Listed(h, first, last, q) == true && first != null && h.Keys == items
    ensures first in q && first in items && IndexOf(q, first) == 0
    ensures forall e :: e in h && h[e].ms != 0 ==> h[first].ms <= h[e].ms
  {
    assert LinkAt(h, q, 0);
    forall e | e in h && h[e].ms != 0 ensures h[first].ms <= h[e].ms {
      Armed(h, first, last, q, e);
      var i := IndexOf(q, e);
      assert LinkAt(h, q, i);
    }
  }

  /** `v` has been put into the list in its place, with nothing else changed. */
  ghost predicate AddedAt(h: Clock, q: seq<Eval>, v: Eval, ms: int, h': Clock, q': seq<Eval>, k: nat) {
    && Place(h, q, k, ms) && q' == q[..k] + [v] + q[k..] && v in h'
    && h'[v].ms == ms && forall e :: e in h && e != v ==> e in h' && h'[e].ms == h[e].ms
  }

  ghost predicate Added(h: Clock, q: seq<Eval>, v: Eval, ms: int, h': Clock, q': seq<Eval>) {
    exists k: nat :: AddedAt(h, q, v, ms, h', q', k)
  }

  lemma PutIn(h: Clock, first: Eval?, last: Eval?, q: seq<Eval>, k: nat, v: Eval, ms: int)
    requires Listed(h, first, last, q) == true && Place(h, q, k, ms) == true && v in h && v !in q && ms != 0
    ensures var q', h' := q[..k] + [v] + q[k..], Insert(h, q, k, v, ms);
      && Listed(h', if first == null || Neighbour(q, k) == first then v else first,
                if last == null || Neighbour(q, k - 1) == last then v else last, q') == true
      && Added(h, q, v, ms, h', q') == true
  {
    Inserted(h, first, last, q, k, v, ms);
    InsertMs(h, q, k, v, ms);
    InsertEnds(h, first, last, q, k, v);
    assert AddedAt(h, q, v, ms, Insert(h, q, k, v, ms), q[..k] + [v] + q[k..], k);
  }

  /** The ends of the list after an insertion. */
  lemma InsertEnds(h: Clock, first: Eval?, last: Eval?, q: seq<Eval>, k: nat, v: Eval)
    requires Listed(h, first, last, q) == true && k <= |q|
    ensures var q' := q[..k] + [v] + q[k..];
      && Neighbour(q', 0) == (if first == null || Neighbour(q, k) == first then v else first)
      && Neighbour(q', |q|) == if last == null || Neighbour(q, k - 1) == last then v else last
  {
  }

  /** The events with a non-zero `tv_ms` are those in the list. */
  lemma Armed(h: Clock, first: Eval?, last: Eval?, q: seq<Eval>, e: Eval)
    requires Listed(h, first, last, q) == true && e in h
    ensures e in q <==> h[e].ms != 0
  {
    if e in q {
      var i :| 0 <= i < |q| && q[i] == e;
      assert LinkAt(h, q, i);
    }
  }
}
