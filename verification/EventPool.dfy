/**
  The event pool of conev.c: slots that are registered and closed in place, an array of links
  in which the live ones come first, and the dispatch of the events that epoll reports.

  `reg` numbers the registrations; it is what a slot is known by once it may be used again.
*/
module EventPool {
  import opened Timers

  // -- the pool, as a snapshot --------------------------------------------------------------

  datatype Cell = Cell(fd: int, index: nat, modIter: nat, pair: Eval?, reg: nat)

  type Slots = map<Eval, Cell>

  ghost function Cells(s: set<Eval>): (h: Slots)
    reads s
    ensures h.Keys == s
  {
    map e | e in s :: Cell(e.fd, e.index, e.modIter, e.pair, e.reg)
  }

  ghost function Members(l: seq<Eval>, n: nat): set<Eval>
    requires n <= |l|
  {
    set i | 0 <= i < n :: l[i]
  }

  /** The links are the slots, each once; the first `n` are the live ones and know their place; pairs are slots. */
  ghost predicate Arranged(l: seq<Eval>, n: nat, h: Slots) {
    && n <= |l| && Distinct(l) && Members(l, |l|) == h.Keys
    && (forall i :: 0 <= i < |l| ==> Placed(l, n, h, i))
    && (forall e :: e in h && h[e].pair != null ==> h[e].pair in h && h[e].pair != e)
  }

  /** What the slot at place `i` is like. */
  ghost predicate Placed(l: seq<Eval>, n: nat, h: Slots, i: nat)
    requires i < |l|
  {
    l[i] in h && if i < n then h[l[i]].index == i && h[l[i]].fd > 0 else h[l[i]].fd == -1
  }

  /** A slot is live exactly when it has a descriptor. */
  lemma LiveFd(l: seq<Eval>, n: nat, h: Slots, e: Eval)
    requires Arranged(l, n, h) && e in h
    ensures e in Members(l, n) <==> h[e].fd != -1
    ensures e in Members(l, n) ==> h[e].index < n && l[h[e].index] == e
  {
    var i :| 0 <= i < |l| && l[i] == e;
    assert Placed(l, n, h, i);
    if e in Members(l, n) {
      var j :| 0 <= j < n && l[j] == e;
      assert Placed(l, n, h, j);
    } else {
      assert i >= n;
    }
  }

  // -- closing one slot ---------------------------------------------------------------------

  /** The last live link takes the place of the closed one, which moves behind the live ones. */
  ghost function Swapped(l: seq<Eval>, i: nat, j: nat): seq<Eval>
    requires i < |l| && j < |l|
  {
    l[i := l[j]][j := l[i]]
  }

  /** The slot `v`, at place `i` of `n` live ones, is closed; its pair is still there. */
  ghost function Closed(l: seq<Eval>, n: nat, h: Slots, i: nat, iters: nat): Slots
    requires i < n <= |l| && l[i] in h && l[n - 1] in h
  {
    Moved(h[l[i] := h[l[i]].(fd := -1, modIter := iters)], l[i], l[n - 1])
  }

  /** `last` is where `v` was. */
  ghost function Moved(h: Slots, v: Eval, last: Eval): Slots
    requires v in h && last in h
  {
    if last == v then h else h[last := h[last].(index := h[v].index)]
  }

  lemma ClosedPlace(l: seq<Eval>, n: nat, h: Slots, i: nat, iters: nat, k: nat)
    requires Arranged(l, n, h) == true && i < n <= |l| && k < |l| && l[i] in h && l[n - 1] in h
    ensures Placed(Swapped(l, i, n - 1), n - 1, Closed(l, n, h, i, iters), k)
  {
    var l' := Swapped(l, i, n - 1);
    var m := if k == i then n - 1 else if k == n - 1 then i else k;
    assert Placed(l, n, h, m) && Placed(l, n, h, i) && l'[k] == l[m];
    assert m != i ==> l[m] != l[i];
    assert m != n - 1 ==> l[m] != l[n - 1];
  }

  lemma ClosedArranged(l: seq<Eval>, n: nat, h: Slots, i: nat, iters: nat)
    requires Arranged(l, n, h) && i < n
    ensures l[i] in h && l[n - 1] in h
    ensures Arranged(Swapped(l, i, n - 1), n - 1, Closed(l, n, h, i, iters))
    ensures Members(Swapped(l, i, n - 1), n - 1) == Members(l, n) - {l[i]}
  {
    hide Distinct, Members;
    SwappedMembers(l, i, n - 1);
    SwappedFront(l, n, i);
    assert Placed(l, n, h, i) && Placed(l, n, h, n - 1);
    var l', h', m := Swapped(l, i, n - 1), Closed(l, n, h, i, iters), n - 1;
    forall k | 0 <= k < |l'| ensures Placed(l', m, h', k) {
      ClosedPlace(l, n, h, i, iters, k);
    }
  }

  lemma SwappedMembers(l: seq<Eval>, i: nat, j: nat)
    requires Distinct(l) && i <= j < |l|
    ensures Distinct(Swapped(l, i, j)) && Members(Swapped(l, i, j), |l|) == Members(l, |l|)
  {
    var l' := Swapped(l, i, j);
    forall e | e in Members(l, |l|) ensures e in Members(l', |l|) {
      var k :| 0 <= k < |l| && l[k] == e;
      assert l'[if k == i then j else if k == j then i else k] == e;
    }
  }

  lemma SwappedFront(l: seq<Eval>, n: nat, i: nat)
    requires Distinct(l) && i < n <= |l|
    ensures Members(Swapped(l, i, n - 1), n - 1) == Members(l, n) - {l[i]}
  {
    var l' := Swapped(l, i, n - 1);
    forall e | e in Members(l, n) - {l[i]} ensures e in Members(l', n - 1) {
      var k :| 0 <= k < n && l[k] == e;
      assert l'[if k == n - 1 then i else k] == e;
    }
    forall e | e in Members(l', n - 1) ensures e in Members(l, n) - {l[i]} {
      var k :| 0 <= k < n - 1 && l'[k] == e;
      assert e == l[if k == i then n - 1 else k];
    }
  }

  /** All that closing a slot does. */
  lemma ClosedStamped(l: seq<Eval>, n: nat, h: Slots, v: Eval, iters: nat)
    requires Stamped(l, n, h, iters) == true && v in h && h[v].fd != -1
    ensures var i := h[v].index;
      && i < n <= |l| && l[i] == v && l[n - 1] in h && v in Members(l, n)
      && |Swapped(l, i, n - 1)| == |l| && Members(Swapped(l, i, n - 1), n - 1) == Members(l, n) - {v}
      && Stamped(Swapped(l, i, n - 1), n - 1, Closed(l, n, h, i, iters), iters) == true
      && ClosedSlot(h, Closed(l, n, h, i, iters), v, iters) == true
  {
    LiveFd(l, n, h, v);
    ClosedArranged(l, n, h, h[v].index, iters);
  }

  // -- what del_event closes ----------------------------------------------------------------

  /** The live slots that are reached from `v` by going from pair to pair. */
  ghost function Chain(h: Slots, live: set<Eval>, v: Eval?): (r: set<Eval>)
    ensures r <= live
    decreases |live|
  {
    if v == null || v !in live || v !in h then {} else {v} + Chain(h, live - {v}, h[v].pair)
  }

  ghost predicate Severed(h: Slots, h': Slots, live: set<Eval>, e: Eval) {
    e in h && e in h' && (h'[e].pair == h[e].pair || (h'[e].pair == null && h[e].pair !in live))
  }

  /** Only the pairs of live slots matter, and a pair that is closed is as good as none. */
  lemma {:induction false} ChainSame(h: Slots, h': Slots, live: set<Eval>, v: Eval?)
    requires forall e :: e in live ==> Severed(h, h', live, e)
    ensures Chain(h', live, v) == Chain(h, live, v)
    decreases |live|
  {
    if v != null && v in live {
      assert Severed(h, h', live, v);
      forall e | e in live - {v} ensures Severed(h, h', live - {v}, e) {
        assert Severed(h, h', live, e);
      }
      ChainSame(h, h', live - {v}, h[v].pair);
    }
  }

  /** Three slots in a ring. */
  ghost predicate Ring(h: Slots, live: set<Eval>, v: Eval)
    requires v in h && live <= h.Keys
  {
    var p := h[v].pair;
    && p != null && p in live && p != v
    && var q := h[p].pair; q != null && q in live && q != v && q != p && h[q].pair == v
  }

  /** A slot alone, two that are each other's pair, three in a ring (udp_associate). */
  lemma ChainShapes(h: Slots, live: set<Eval>, v: Eval)
    requires v in live && live <= h.Keys
    ensures h[v].pair == null ==> Chain(h, live, v) == {v}
    ensures var p := h[v].pair;
      p != null && p in live && h[p].pair == v ==> Chain(h, live, v) == {v, p}
    ensures var p := h[v].pair; Ring(h, live, v) ==> Chain(h, live, v) == {v, p, h[p].pair}
  {
    var p := h[v].pair;
    if p != null && p in live && p != v {
      assert Chain(h, live - {v}, p) == {p} + Chain(h, live - {v} - {p}, h[p].pair);
      var q := h[p].pair;
      if q != null && q in live && q != v && q != p {
        assert Chain(h, live - {v} - {p}, q) == {q} + Chain(h, live - {v} - {p} - {q}, h[q].pair);
      }
    }
  }

  /** The slots of `gone` have been closed; all others are as they were, but for their places. */
  ghost predicate Gone(h: Slots, h': Slots, gone: set<Eval>, iters: nat) {
    h'.Keys == h.Keys && forall e :: e in h ==> GoneAt(h, h', gone, iters, e)
  }

  ghost predicate GoneAt(h: Slots, h': Slots, gone: set<Eval>, iters: nat, e: Eval)
    requires e in h && e in h'
  {
    && h'[e].reg == h[e].reg
    && if e in gone then h'[e].fd == -1 && h'[e].pair == null && h'[e].modIter == iters
       else h'[e].fd == h[e].fd && h'[e].pair == h[e].pair && h'[e].modIter == h[e].modIter
  }

  /** One slot has been closed and taken from its pair, which no longer points back. */
  ghost predicate Shut(h: Slots, h': Slots, v: Eval, iters: nat) {
    && v in h && h'.Keys == h.Keys
    && forall e :: e in h ==> ShutAt(h, h', v, iters, e)
  }

  ghost predicate ShutAt(h: Slots, h': Slots, v: Eval, iters: nat, e: Eval)
    requires v in h && e in h && e in h'
  {
    && h'[e].reg == h[e].reg
    && (if e == v then h'[e].fd == -1 && h'[e].modIter == iters else h'[e].fd == h[e].fd && h'[e].modIter == h[e].modIter)
    && h'[e].pair == if e == v || (h[v].pair == e && h[e].pair == v) then null else h[e].pair
  }

  /** The links are in order and no stamp lies in the future. */
  ghost predicate Stamped(l: seq<Eval>, n: nat, h: Slots, iters: nat) {
    Arranged(l, n, h) && forall e :: e in h ==> h[e].modIter <= iters
  }

  ghost predicate Coherent(l: seq<Eval>, n: nat, h: Slots, iters: nat, q: seq<Eval>) {
    Stamped(l, n, h, iters) && Unpaired(h) && forall e :: e in q ==> e in h && h[e].fd != -1
  }

  /** The first half of it: the slot is closed, its pair still there. */
  ghost predicate ClosedSlot(h: Slots, h': Slots, v: Eval, iters: nat) {
    && v in h && h'.Keys == h.Keys
    && forall e :: e in h ==>
      && h'[e].pair == h[e].pair && h'[e].reg == h[e].reg
      && h'[e].fd == (if e == v then -1 else h[e].fd) && h'[e].modIter == if e == v then iters else h[e].modIter
  }

  /** Closed slots have no pair. */
  ghost predicate Unpaired(h: Slots) {
    forall e :: e in h && h[e].fd == -1 ==> h[e].pair == null
  }

  /** Closing a slot and then the chain of its pair is closing its own chain. */
  lemma ShutThenGone(l: seq<Eval>, n: nat, h: Slots, live: set<Eval>, v: Eval, h1: Slots, h2: Slots, iters: nat)
    requires Arranged(l, n, h) && live == Members(l, n) && Unpaired(h) && v in live && v in h
    requires Shut(h, h1, v, iters) && Gone(h1, h2, Chain(h1, live - {v}, h[v].pair), iters)
    ensures Chain(h1, live - {v}, h[v].pair) == Chain(h, live - {v}, h[v].pair)
    ensures Chain(h, live, v) == {v} + Chain(h, live - {v}, h[v].pair)
    ensures Gone(h, h2, Chain(h, live, v), iters)
  {
    var p, rest := h[v].pair, live - {v};
    forall e | e in rest ensures Severed(h, h1, rest, e) {
      InSlots(l, n, h, e);
      assert ShutAt(h, h1, v, iters, e);
    }
    ChainSame(h, h1, rest, p);
    var gone := Chain(h, rest, p);
    assert v !in gone;
    forall e | e in h ensures GoneAt(h, h2, {v} + gone, iters, e) {
      assert ShutAt(h, h1, v, iters, e) && GoneAt(h1, h2, gone, iters, e);
      if e == p && h[e].pair == v {
        LiveFd(l, n, h, e);
        assert e in gone;
      }
    }
  }

  lemma InSlots(l: seq<Eval>, n: nat, h: Slots, e: Eval)
    requires Arranged(l, n, h) && e in Members(l, n)
    ensures e in h
  {
    var i :| 0 <= i < n && l[i] == e;
    assert Placed(l, n, h, i);
  }

  /** The timers of the slots of `gone` are out of the list, and the other ones as they were. */
  ghost predicate TimersGone(c: Clock, q: seq<Eval>, c': Clock, q': seq<Eval>, gone: set<Eval>) {
    && Members(q', |q'|) == Members(q, |q|) - gone
    && (forall e :: e in c && e !in gone ==> e in c' && c'[e].ms == c[e].ms)
  }

  lemma DroppedGone(c: Clock, q: seq<Eval>, v: Eval, c': Clock, q': seq<Eval>)
    requires Distinct(q) && Dropped(c, q, v, c', q')
    ensures TimersGone(c, q, c', q', {v})
  {
    if v in q {
      var k := IndexOf(q, v);
      forall e | e in Members(q, |q|) - {v} ensures e in Members(q', |q'|) {
        var i :| 0 <= i < |q| && q[i] == e;
        assert q'[if i < k then i else i - 1] == e;
      }
      forall e | e in Members(q', |q'|) ensures e in Members(q, |q|) - {v} {
        var i :| 0 <= i < |q'| && q'[i] == e;
        assert q[if i < k then i else i + 1] == e;
      }
    }
  }

  lemma TimersGoneTwice(c: Clock, q: seq<Eval>, c1: Clock, q1: seq<Eval>, c2: Clock, q2: seq<Eval>, v: Eval, gone: set<Eval>)
    requires TimersGone(c, q, c1, q1, {v}) && TimersGone(c1, q1, c2, q2, gone)
    ensures TimersGone(c, q, c2, q2, {v} + gone)
  {
  }

  // -- the pool -----------------------------------------------------------------------------

  /** `struct epoll_event` */
  datatype Pev = Pev(val: Eval, events: int)

  /** How epoll_wait ends. */
  datatype Wait = Events(batch: seq<Pev>) | Timeout | Error

  const POLLTIMEOUT := 0

  /** Where an event that is dispatched comes from. */
  datatype Origin = OfBatch | OfTimers | Nothing

  /** An event that is still to be looked at: its slot has changed since, or is the one it was fetched for. */
  ghost predicate FreshAt(h: Slots, iters: nat, ev: Pev, reg: nat) {
    ev.val in h && (h[ev.val].modIter == iters || (h[ev.val].fd != -1 && h[ev.val].reg == reg))
  }

  ghost predicate Fresh(h: Slots, iters: nat, batch: seq<Pev>, fetched: seq<nat>, offs: int) {
    && -1 <= offs < |batch| == |fetched| && forall i :: 0 <= i <= offs ==> FreshAt(h, iters, batch[i], fetched[i])
  }

  /** The events from place `lo` to `hi` are for slots that have been registered or closed since the fetch. */
  ghost predicate AllStale(batch: seq<Pev>, h: Slots, iters: nat, lo: int, hi: int) {
    forall i :: 0 <= i < |batch| && lo <= i <= hi ==> batch[i].val in h && h[batch[i].val].modIter == iters
  }

  /**
    How next_event goes on from place `offs` of a batch: one event further, passing over none but
    stale ones; or, when all that is left is stale, to the last event of a new batch, or to nothing
    if there is none.
  */
  ghost predicate BatchMoved(batch: seq<Pev>, iters: nat, offs: int, w: Wait, h: Slots, batch': seq<Pev>, iters': nat, offs': int,
                             found: bool)
  {
    if found && iters' == iters then
      batch' == batch && offs' < offs && AllStale(batch, h, iters, offs' + 2, offs)
    else
      && AllStale(batch, h, iters, 0, offs)
      && if found then w.Events? && batch' == w.batch && iters' == iters + 1 && offs' + 2 == |batch'|
         else !w.Events? && batch' == batch && iters' == iters && offs' == -1
  }

  ghost function Registrations(h: Slots, batch: seq<Pev>): seq<nat> {
    seq(|batch|, i requires 0 <= i < |batch| => if batch[i].val in h then h[batch[i].val].reg else 0)
  }

  /** Closing slots leaves the events fresh, because it stamps them. */
  lemma GoneFresh(h: Slots, h': Slots, gone: set<Eval>, iters: nat, batch: seq<Pev>, fetched: seq<nat>, offs: int)
    requires Gone(h, h', gone, iters) && Fresh(h, iters, batch, fetched, offs)
    ensures Fresh(h', iters, batch, fetched, offs)
  {
    forall i | 0 <= i <= offs ensures FreshAt(h', iters, batch[i], fetched[i]) {
      assert FreshAt(h, iters, batch[i], fetched[i]) && GoneAt(h, h', gone, iters, batch[i].val);
    }
  }

  /** A slot that was taken from its pair first is closed as well. */
  lemma GoneDetached(h: Slots, h1: Slots, h2: Slots, v: Eval, iters: nat)
    requires v in h && h1 == h[v := h[v].(pair := null)] && Gone(h1, h2, {v}, iters) == true
    ensures Gone(h, h2, {v}, iters) == true
  {
    forall e | e in h ensures GoneAt(h, h2, {v}, iters, e) {
      assert GoneAt(h1, h2, {v}, iters, e);
    }
  }

  /** So does using a slot again. */
  lemma OpenedFresh(h: Slots, h': Slots, v: Eval, iters: nat, batch: seq<Pev>, fetched: seq<nat>, offs: int)
    requires Fresh(h, iters, batch, fetched, offs) && v in h && v in h' && h'[v].modIter == iters
    requires h'.Keys == h.Keys && forall e :: e in h && e != v ==> h'[e] == h[e]
    ensures Fresh(h', iters, batch, fetched, offs)
  {
    forall i | 0 <= i <= offs ensures FreshAt(h', iters, batch[i], fetched[i]) {
      assert FreshAt(h, iters, batch[i], fetched[i]);
    }
  }

  class Pool {
    const max: nat
    const links: array<Eval>
    const timers: TimerList
    ghost const items: set<Eval>
    var count: nat
    var iters: nat
    /** The batch of events fetched last, with the registrations that the slots had then. */
    var pevents: seq<Pev>
    ghost var fetched: seq<nat>
    ghost var regs: nat

    /** init_pool, given the slots; one that was never registered counts as closed. */
    constructor (slots: seq<Eval>)
      requires Distinct(slots)
      requires forall e :: e in slots ==>
        e.fd == -1 && e.pair == null && e.modIter == 0 && e.tvMs == 0 && e.tvNext == null && e.tvPrev == null
      ensures Valid() && count == 0 && iters == 0 && max == |slots| && items == Members(slots, |slots|)
      ensures fresh(links) && fresh(timers) && timers.q == [] && pevents == [] && fetched == []
    {
      max := |slots|;
      links := new Eval[|slots|](i requires 0 <= i < |slots| => slots[i]);
      ghost var s := set i | 0 <= i < |slots| :: slots[i];
      items := s;
      timers := new TimerList(s);
      count, iters, pevents, fetched, regs := 0, 0, [], [], 0;
      new;
      assert links[..] == slots;
      AllClosed(slots, Cells(items));
    }

    ghost function Live(): set<Eval>
      reads this, links
      requires count <= links.Length
    {
      Members(links[..], count)
    }

    /** The links are in order and no stamp lies in the future. */
    ghost predicate Sound()
      reads this, links, items
    {
      count <= links.Length == max && Stamped(links[..], count, Cells(items), iters) == true
    }

    /** The links, the stamps and the timers agree; closed slots have neither a pair nor a timer. */
    ghost predicate Valid()
      reads this, links, items, timers, timers.items
    {
      && count <= links.Length == max && timers.items == items && timers.Valid()
      && Coherent(links[..], count, Cells(items), iters, timers.q) == true
    }

    /** The part of del_event that is about the slot itself: fd, stamp, and its place among the links. */
    method CloseSlot(val: Eval)
      requires Sound() && val in items && val.fd != -1
      modifies `count, links, items`fd, items`modIter, items`index
      ensures Sound() == true && count == old(count) - 1 && Live() == old(Live()) - {val} && val in old(Live())
      ensures ClosedSlot(old(Cells(items)), Cells(items), val, iters) == true
      ensures Snap(items) == old(Snap(items))
    {
      hide Stamped, Closed, Swapped, ClosedSlot;
      ClosedStamped(links[..], count, Cells(items), val, iters);
      Vacate(val);
    }

    /** The writes of it. */
    method Vacate(val: Eval)
      requires val in items && val.index < count <= links.Length && links[val.index] == val && links[count - 1] in items
      modifies `count, links, items`fd, items`modIter, items`index
      ensures count == old(count) - 1 && links[..] == Swapped(old(links[..]), old(val.index), count)
      ensures Cells(items) == Closed(old(links[..]), old(count), old(Cells(items)), old(val.index), iters)
      ensures Snap(items) == old(Snap(items))
    {
      ghost var h, l := Cells(items), links[..];
      Stamp(val);
      assert Cells(items) == h[val := h[val].(fd := -1, modIter := iters)] && links[..] == l;
      Displace(val);
    }

    method Stamp(val: Eval)
      requires val in items
      modifies val`fd, val`modIter
      ensures Cells(items) == old(Cells(items))[val := old(Cells(items))[val].(fd := -1, modIter := iters)]
      ensures Snap(items) == old(Snap(items))
    {
      val.fd := -1;
      val.modIter := iters;
    }

    method Displace(val: Eval)
      requires val in items && val.index < count <= links.Length && links[val.index] == val && links[count - 1] in items
      modifies `count, links, items`index
      ensures count == old(count) - 1 && links[..] == Swapped(old(links[..]), old(val.index), count)
      ensures Cells(items) == Moved(old(Cells(items)), val, old(links[count - 1]))
      ensures Snap(items) == old(Snap(items))
    {
      count := count - 1;
      var ev := links[count];
      if ev != val {
        var index := val.index;
        links[index] := ev;
        links[count] := val;
        SetIndex(ev, index);
      }
    }

    method SetIndex(val: Eval, index: nat)
      requires val in items
      modifies val`index
      ensures Cells(items) == old(Cells(items))[val := old(Cells(items))[val].(index := index)]
      ensures Snap(items) == old(Snap(items))
    {
      val.index := index;
    }

    /** The timer of a closed slot goes as well. */
    method DropTimer(val: Eval)
      requires Sound() && timers.items == items && timers.Valid() && val in items
      modifies timers`tvStart, timers`tvEnd, timers`q, items`tvMs, items`tvNext, items`tvPrev
      ensures Sound() == true && timers.Valid() == true && Cells(items) == old(Cells(items)) && Live() == old(Live())
      ensures TimersGone(old(Snap(items)), old(timers.q), Snap(items), timers.q, {val}) == true
    {
      ghost var c, q := Snap(items), timers.q;
      Untime(val);
      DroppedGone(c, q, val, Snap(items), timers.q);
    }

    /** remove_timer does not touch the rest of a slot. */
    method Untime(val: Eval)
      requires timers.items == items && timers.Valid() && val in items
      modifies timers`tvStart, timers`tvEnd, timers`q, items`tvMs, items`tvNext, items`tvPrev
      ensures timers.Valid() == true && Cells(items) == old(Cells(items))
      ensures Dropped(old(Snap(items)), old(timers.q), val, Snap(items), timers.q) == true
    {
      ghost var h := Cells(items);
      timers.RemoveTimer(val);
      SameCells(h);
    }

    /** set_timer does not touch the rest of a slot. */
    method Time(val: Eval, delay: int, now: int)
      requires timers.items == items && timers.Valid() && val in items && now + delay != 0
      modifies timers`tvStart, timers`tvEnd, timers`q, items`tvMs, items`tvNext, items`tvPrev
      ensures timers.Valid() == true && Cells(items) == old(Cells(items))
      ensures old(val in timers.q) ==> timers.q == old(timers.q) && Snap(items) == old(Snap(items))
      ensures old(val !in timers.q) ==>
        Added(old(Snap(items)), old(timers.q), val, now + delay, Snap(items), timers.q) == true
    {
      ghost var h := Cells(items);
      timers.SetTimer(val, delay, now);
      SameCells(h);
    }

    lemma SameCells(h: Slots)
      requires h.Keys == items && forall e :: e in items ==> Cell(e.fd, e.index, e.modIter, e.pair, e.reg) == h[e]
      ensures Cells(items) == h
    {
    }

    /** The pair of a closed slot is taken apart. */
    method Unpair(val: Eval) returns (e: Eval)
      requires Sound() && val in items && val.pair != null && val.pair in items && val.pair != val
      modifies items`pair
      ensures Sound() == true && e == old(val.pair) && Snap(items) == old(Snap(items)) && Live() == old(Live())
      ensures Taken(old(Cells(items)), Cells(items), val, e) == true
    {
      hide Stamped, Members, Taken;
      ghost var h, l := Cells(items), links[..];
      if val.pair.pair == val {
        val.pair.pair := null;
      }
      e := val.pair;
      val.pair := null;
      TakenStamped(l, count, h, Cells(items), iters, val, e);
    }

    /**
      del_event closes the live slots that are reached through `pair`, each once: nothing if the
      slot is closed already. Nothing else changes but places among the links.
    */
    method DelEvent(val: Eval)
      requires Valid() && val in items
      modifies `count, links, items`fd, items`modIter, items`index, items`pair
      modifies timers`tvStart, timers`tvEnd, timers`q, items`tvMs, items`tvNext, items`tvPrev
      ensures Valid() == true
      ensures var gone := old(Chain(Cells(items), Live(), val));
        && Live() == old(Live()) - gone && count == old(count) - |gone|
        && Gone(old(Cells(items)), Cells(items), gone, iters) == true
        && TimersGone(old(Snap(items)), old(timers.q), Snap(items), timers.q, gone) == true
      decreases count
    {
      hide Coherent, Chain, Gone, TimersGone, Shut, Listed, Members;
      ghost var h, live, c, q := Cells(items), Live(), Snap(items), timers.q;
      ChainOf(links[..], count, h, iters, q, val);
      if val.fd == -1 {
        GoneNone(h, c, q, iters);
        return;
      }
      var e := Shutdown(val);
      ghost var h1, c1, q1 := Cells(items), Snap(items), timers.q;
      if e != null {
        DelEvent(e);
      } else {
        GoneNone(h1, c1, q1, iters);
        NoChain(h1, live - {val});
      }
      Finished(old(links[..]), old(count), h, live, val, h1, Cells(items), iters, c, q, c1, q1, Snap(items), timers.q);
    }

    /** The events of the batch up to place `offs` are still to be dispatched. */
    ghost predicate Pending(offs: int)
      reads this, items
    {
      Fresh(Cells(items), iters, pevents, fetched, offs) == true
    }

    /** add_event takes the slot behind the live ones; its registration is a new one. */
    method AddEvent(fd: int) returns (val: Eval?)
      requires Valid() && fd > 0
      modifies `count, `regs, items
      ensures Valid() == true && Snap(items) == old(Snap(items))
      ensures val == null <==> old(count) >= max
      ensures val == null ==> Cells(items) == old(Cells(items)) && Live() == old(Live()) && count == old(count) && regs == old(regs)
      ensures val != null ==>
        && val in items && val !in old(Live()) && Live() == old(Live()) + {val}
        && count == old(count) + 1 && regs == old(regs) + 1
        && Cells(items) == old(Cells(items))[val := Cell(fd, old(count), iters, null, regs)]
    {
      hide Coherent, Listed, Members;
      if count >= max {
        return null;
      }
      val := links[count];
      Opened(links[..], count, Cells(items), fd, iters, regs + 1, timers.q);
      NoTimer(val);
      Register(val, fd);
    }

    /** The slot is wiped and filled in. */
    method Register(val: Eval, fd: int)
      requires val in items && val.tvMs == 0 && val.tvNext == null && val.tvPrev == null
      modifies val, `count, `regs
      ensures count == old(count) + 1 && regs == old(regs) + 1
      ensures Cells(items) == old(Cells(items))[val := Cell(fd, old(count), iters, null, regs)]
      ensures Snap(items) == old(Snap(items))
    {
      Wipe(val);
      Fill(val, fd, regs + 1);
      CountUp();
    }

    method CountUp()
      modifies `count, `regs
      ensures count == old(count) + 1 && regs == old(regs) + 1
      ensures Cells(items) == old(Cells(items)) && Snap(items) == old(Snap(items))
    {
      regs := regs + 1;
      count := count + 1;
    }

    method Wipe(val: Eval)
      requires val in items && val.tvMs == 0 && val.tvNext == null && val.tvPrev == null
      modifies val`tvMs, val`tvNext, val`tvPrev, val`pair
      ensures Cells(items) == old(Cells(items))[val := old(Cells(items))[val].(pair := null)]
      ensures Snap(items) == old(Snap(items))
    {
      val.tvMs, val.tvNext, val.tvPrev, val.pair := 0, null, null, null;
    }

    method Fill(val: Eval, fd: int, ghost reg: nat)
      requires val in items
      modifies val`fd, val`index, val`modIter, val`reg
      ensures Cells(items) == old(Cells(items))[val := Cell(fd, count, iters, old(val.pair), reg)]
      ensures Snap(items) == old(Snap(items))
    {
      val.modIter := iters;
      val.fd := fd;
      val.index := count;
      val.reg := reg;
    }

    lemma NoTimer(val: Eval)
      requires Valid() && val in items && val.fd == -1
      ensures val.tvMs == 0 && val.tvNext == null && val.tvPrev == null
    {
      var c := Snap(items);
      assert val !in timers.q;
      assert c[val] == OFF;
    }

    method SetPair(val: Eval, pair: Eval?)
      requires val in items
      modifies val`pair
      ensures Cells(items) == old(Cells(items))[val := old(Cells(items))[val].(pair := pair)]
      ensures Snap(items) == old(Snap(items))
    {
      val.pair := pair;
    }

    /** create_conn: two slots become each other's pair. */
    method Couple(val: Eval, pair: Eval)
      requires Valid() && val in Live() && pair in Live() && val != pair
      modifies items`pair
      ensures Valid() == true && Live() == old(Live()) && Snap(items) == old(Snap(items))
      ensures Paired(old(Cells(items)), Cells(items)) == true
      ensures Cells(items) == var h := old(Cells(items)); h[val := h[val].(pair := pair)][pair := h[pair].(pair := val)]
    {
      hide Coherent, Members, Paired, Listed;
      ghost var l, h := links[..], Cells(items);
      Coupled(l, count, h, val, pair, iters, timers.q);
      SetPair(val, pair);
      SetPair(pair, val);
    }

    /** udp_associate: three slots in a ring. */
    method Circle(val: Eval, client: Eval, pair: Eval)
      requires Valid() && val in Live() && client in Live() && pair in Live()
      requires val != client && client != pair && pair != val
      modifies items`pair
      ensures Valid() == true && Live() == old(Live()) && Snap(items) == old(Snap(items))
      ensures Live() <= items && Ring(Cells(items), Live(), val) == true && Paired(old(Cells(items)), Cells(items)) == true
      ensures Cells(items) == var h := old(Cells(items));
        h[val := h[val].(pair := client)][client := h[client].(pair := pair)][pair := h[pair].(pair := val)]
    {
      hide Coherent, Members, Paired, Ring, Listed;
      ghost var l, h := links[..], Cells(items);
      Circled(l, count, h, val, client, pair, iters, timers.q);
      SetPair(val, client);
      SetPair(client, pair);
      SetPair(pair, val);
    }

    /**
      The end of reconnect: the slot forgets its pair, which has another one by now, and is
      closed. The pair stays open.
    */
    method Discard(val: Eval)
      requires Valid() && val in Live()
      modifies `count, links, items`fd, items`modIter, items`index, items`pair
      modifies timers`tvStart, timers`tvEnd, timers`q, items`tvMs, items`tvNext, items`tvPrev
      ensures Valid() == true && Live() == old(Live()) - {val} && count == old(count) - 1
      ensures Gone(old(Cells(items)), Cells(items), {val}, iters) == true
      ensures TimersGone(old(Snap(items)), old(timers.q), Snap(items), timers.q, {val}) == true
    {
      ghost var h := Cells(items);
      LiveSlots(links[..], count, h);
      Detach(val);
      ghost var h1 := Cells(items);
      ChainShapes(h1, Live(), val);
      DelEvent(val);
      GoneDetached(h, h1, Cells(items), val, iters);
    }

    /** `val->pair = 0`, on one side only. */
    method Detach(val: Eval)
      requires Valid() && val in items
      modifies items`pair
      ensures Valid() == true && Live() == old(Live()) && Snap(items) == old(Snap(items)) && val.pair == null
      ensures Paired(old(Cells(items)), Cells(items)) == true
      ensures Cells(items) == old(Cells(items))[val := old(Cells(items))[val].(pair := null)]
    {
      hide Coherent, Members, Paired, Listed;
      Detached(links[..], count, Cells(items), val, iters, timers.q);
      SetPair(val, null);
    }

    /** A new batch: the stamp moves on, so that no slot carries it. */
    method Fetch(epoll: seq<Pev>)
      requires Valid() && forall i :: 0 <= i < |epoll| ==> epoll[i].val in items && epoll[i].val.fd != -1
      modifies `iters, `pevents, `fetched
      ensures Valid() == true && Cells(items) == old(Cells(items))
      ensures pevents == epoll && fetched == Registrations(Cells(items), epoll) && iters == old(iters) + 1
      ensures Pending(|epoll| - 1) == true && forall e :: e in items ==> e.modIter < iters
    {
      hide Coherent, Listed, Registrations, Fresh;
      ghost var h := Cells(items);
      Later(links[..], count, h, iters, timers.q);
      JustFetched(links[..], count, h, iters, timers.q, epoll);
      pevents := epoll;
      iters := iters + 1;
      fetched := Registrations(h, epoll);
      assert Cells(items) == h;
    }

    /**
      next_event (the epoll form). `wait` is how epoll_wait ends if it is called: events of live
      slots, a timeout or an error. An event whose slot carries the stamp of this batch is
      skipped. What is dispatched is live, and still the registration it was fetched for.
    */
    method NextEvent(offs: int, typ: int, wait: Wait) returns (val: Eval?, offs': int, typ': int)
      requires Valid() && Pending(offs) && Reports(wait)
      modifies `iters, `pevents, `fetched
      ensures Valid() == true && Pending(offs') == true && Cells(items) == old(Cells(items)) && Live() == old(Live())
      ensures Batched(wait, old(pevents), old(fetched))
      ensures BatchMoved(old(pevents), old(iters), offs, wait, Cells(items), pevents, iters, offs', val != null) == true
      ensures val == null <==> !wait.Events? && AllStale(old(pevents), Cells(items), old(iters), 0, offs)
      ensures val == null ==> typ' == if wait == Timeout then POLLTIMEOUT else typ
      ensures val != null ==> Dispatches(offs' + 1, val, typ') && val.modIter != iters
    {
      hide Coherent, Listed, Registrations, Members;
      offs', typ' := offs, typ;
      while true
        invariant Valid() && Pending(offs') == true && Cells(items) == old(Cells(items)) && Live() == old(Live())
        invariant iters == old(iters) && pevents == old(pevents) && fetched == old(fetched) && offs' <= offs
        invariant AllStale(pevents, Cells(items), iters, offs' + 1, offs)
        invariant typ' == typ
        decreases offs' + 1
      {
        var i := offs';
        if i < 0 {
          match wait
          case Timeout =>
            return null, -1, POLLTIMEOUT;
          case Error =>
            return null, -1, typ;
          case Events(batch) =>
            Fetch(batch);
            i := |batch| - 1;
        }
        val := pevents[i].val;
        offs' := i - 1;
        if val.modIter == iters {
          continue;
        }
        typ' := pevents[i].events;
        return;
      }
    }

    /** epoll reports live slots, at least one if any. */
    ghost predicate Reports(wait: Wait)
      reads this, items
    {
      wait.Events? ==> |wait.batch| > 0 && forall i :: 0 <= i < |wait.batch| ==>
        wait.batch[i].val in items && wait.batch[i].val.fd != -1
    }

    /** The batch has not changed. */
    ghost predicate SameBatch(pevents0: seq<Pev>, fetched0: seq<nat>, iters0: nat)
      reads this
    {
      pevents == pevents0 && fetched == fetched0 && iters == iters0
    }

    /** The batch is the one from before, or the one that epoll has just reported. */
    ghost predicate Batched(wait: Wait, pevents0: seq<Pev>, fetched0: seq<nat>)
      reads this, items
    {
      || (pevents == pevents0 && fetched == fetched0)
      || (wait.Events? && pevents == wait.batch && fetched == Registrations(Cells(items), wait.batch))
    }

    /** The event at place `i` of the batch goes to a slot that is live and has not been registered anew since. */
    ghost predicate Dispatches(i: int, val: Eval, typ: int)
      reads this, val
    {
      0 <= i < |pevents| == |fetched| && pevents[i] == Pev(val, typ) && val in items && val.fd != -1 && val.reg == fetched[i]
    }

    /** set_timer on a live slot. */
    method SetTimer(val: Eval, delay: int, now: int)
      requires Valid() && val in items && val.fd != -1 && now + delay != 0
      modifies timers`tvStart, timers`tvEnd, timers`q, items`tvMs, items`tvNext, items`tvPrev
      ensures Valid() == true && Cells(items) == old(Cells(items)) && Live() == old(Live())
      ensures old(val in timers.q) ==> timers.q == old(timers.q) && Snap(items) == old(Snap(items))
      ensures old(val !in timers.q) ==>
        Added(old(Snap(items)), old(timers.q), val, now + delay, Snap(items), timers.q) == true
    {
      hide Coherent, Added, Listed, Members;
      ghost var h, c, q := Cells(items), Snap(items), timers.q;
      Time(val, delay, now);
      if val !in q {
        AddedMembers(c, q, val, now + delay, Snap(items), timers.q);
      }
      Retimed(links[..], count, h, iters, q, timers.q, val);
    }

    /** remove_timer on a live slot. */
    method DisarmTimer(val: Eval)
      requires Valid() && val in items && val.fd != -1
      modifies timers`tvStart, timers`tvEnd, timers`q, items`tvMs, items`tvNext, items`tvPrev
      ensures Valid() == true && Cells(items) == old(Cells(items)) && Live() == old(Live())
      ensures Dropped(old(Snap(items)), old(timers.q), val, Snap(items), timers.q) == true
    {
      ghost var h, c, q := Cells(items), Snap(items), timers.q;
      Untime(val);
      DroppedGone(c, q, val, Snap(items), timers.q);
      FewerTimed(q, timers.q, val);
      Retimed(links[..], count, h, iters, q, timers.q, val);
    }

    /** The timer that is due first fires; its slot is live. */
    method FireTimer() returns (val: Eval?)
      requires Valid()
      modifies timers`tvStart, timers`tvEnd, timers`q, items`tvMs, items`tvNext, items`tvPrev
      ensures Valid() == true && Cells(items) == old(Cells(items)) && Live() == old(Live())
      ensures val == null <==> old(timers.q) == []
      ensures val == old(timers.tvStart)
      ensures val != null ==> Fires(old(Snap(items)), old(timers.q), val, timers.q) == true && val.fd != -1
      ensures val != null ==> Dropped(old(Snap(items)), old(timers.q), val, Snap(items), timers.q) == true
    {
      hide Dropped, Listed, Members, Arranged;
      ghost var h := Cells(items);
      ghost var q := timers.q;
      val := timers.Expire();
      SameCells(h);
      if val != null {
        Retimed(links[..], count, h, iters, q, timers.q, val);
      }
    }

    /**
      next_event_tv. What it returns is an event of the batch, or else the slot whose deadline is
      the earliest of all. That one is returned when it is due, when epoll_wait times out, and
      also when epoll_wait fails and `type` is still POLLTIMEOUT from an earlier call.
    */
    method NextEventTv(offs: int, typ: int, now: int, wait: Wait)
      returns (val: Eval?, offs': int, typ': int, ghost origin: Origin)
      requires Valid() && Pending(offs) && Reports(wait)
      modifies `iters, `pevents, `fetched
      modifies timers`tvStart, timers`tvEnd, timers`q, items`tvMs, items`tvNext, items`tvPrev
      ensures Valid() == true && Pending(offs') == true && Cells(items) == old(Cells(items)) && Live() == old(Live())
      ensures Batched(wait, old(pevents), old(fetched))
      ensures val == null <==> origin == Nothing
      ensures origin == Nothing ==> timers.q == old(timers.q) && (timers.q == [] || typ' != POLLTIMEOUT)
      ensures origin == OfBatch ==> Dispatches(offs' + 1, val, typ') && timers.q == old(timers.q)
      ensures origin == OfTimers ==>
        val.fd != -1 && typ' == POLLTIMEOUT && Fires(old(Snap(items)), old(timers.q), val, timers.q) == true
      ensures origin == OfTimers <==>
        && old(timers.tvStart != null)
        && (|| old(timers.tvStart.tvMs) <= now
            || (&& AllStale(old(pevents), old(Cells(items)), old(iters), 0, offs)
                && (wait == Timeout || (wait == Error && typ == POLLTIMEOUT))))
      ensures old(timers.tvStart != null && timers.tvStart.tvMs <= now) ==>
        offs' == offs && SameBatch(old(pevents), old(fetched), old(iters))
      ensures !old(timers.tvStart != null && timers.tvStart.tvMs <= now) ==>
        BatchMoved(old(pevents), old(iters), offs, wait, old(Cells(items)), pevents, iters, offs', origin == OfBatch) == true
      ensures origin == OfBatch ==> val.modIter != iters
      ensures origin == Nothing ==> typ' == if wait == Timeout then POLLTIMEOUT else typ
      ensures origin == OfTimers ==> Dropped(old(Snap(items)), old(timers.q), val, Snap(items), timers.q) == true
      ensures origin != OfTimers ==> Snap(items) == old(Snap(items))
    {
      hide Coherent, Fresh, Registrations, Members, Fires, Dropped, BatchMoved, Cells, Snap;
      if timers.tvStart == null {
        val, offs', typ' := NextEvent(offs, typ, wait);
        origin := if val == null then Nothing else OfBatch;
        return;
      }
      var ms := timers.tvStart.tvMs - now;
      if ms > 0 {
        val, offs', typ' := NextEvent(offs, typ, wait);
      } else {
        val, offs', typ' := null, offs, POLLTIMEOUT;
      }
      origin := if val == null then Nothing else OfBatch;
      if val == null && timers.tvStart != null && typ' == POLLTIMEOUT {
        val := FireTimer();
        origin := OfTimers;
      }
    }

    /** A wait that fails, with the type left from an earlier timeout: the timer fires although it is not due. */
    method FiresEarly(now: int) returns (val: Eval?)
      requires Valid() && Pending(-1) && timers.tvStart != null && now < timers.tvStart.tvMs
      modifies `iters, `pevents, `fetched
      modifies timers`tvStart, timers`tvEnd, timers`q, items`tvMs, items`tvNext, items`tvPrev
      ensures val == old(timers.tvStart) && now < old(timers.tvStart.tvMs)
      ensures Fires(old(Snap(items)), old(timers.q), val, timers.q) == true
    {
      var offs, typ;
      ghost var origin;
      val, offs, typ, origin := NextEventTv(-1, POLLTIMEOUT, now, Error);
    }

    /** Everything in del_event but the recursive call; it returns the pair to go on with. */
    method Shutdown(val: Eval) returns (e: Eval?)
      requires Valid() && val in items && val.fd != -1
      modifies `count, links, items`fd, items`modIter, items`index, items`pair
      modifies timers`tvStart, timers`tvEnd, timers`q, items`tvMs, items`tvNext, items`tvPrev
      ensures Valid() == true && e == old(val.pair) && (e != null ==> e in items)
      ensures count == old(count) - 1 && Live() == old(Live()) - {val} && val in old(Live())
      ensures Shut(old(Cells(items)), Cells(items), val, iters) == true
      ensures TimersGone(old(Snap(items)), old(timers.q), Snap(items), timers.q, {val}) == true
    {
      hide Coherent, Stamped, Shut, Taken, ClosedSlot, TimersGone, Members, Listed;
      ghost var h, c, q := Cells(items), Snap(items), timers.q;
      PairOf(links[..], count, h, iters, q, val);
      CloseSlot(val);
      ghost var h0 := Cells(items);
      DropTimer(val);
      ghost var c1, q1 := Snap(items), timers.q;
      e := null;
      if val.pair != null {
        e := Unpair(val);
        assert timers.Valid();
      }
      ShutDone(h, h0, Cells(items), val, iters, e);
      StillCoherent(old(links[..]), old(count), links[..], count, h, Cells(items), val, iters, c, q, c1, q1);
    }
  }

  /** Only pairs have changed: that of `v`, and that of `e` if it was `v`. */
  ghost predicate Taken(h: Slots, h': Slots, v: Eval, e: Eval) {
    && h'.Keys == h.Keys
    && forall x :: x in h ==> h'[x] == if x == v || (x == e && h[x].pair == v) then h[x].(pair := null) else h[x]
  }

  lemma TakenStamped(l: seq<Eval>, n: nat, h: Slots, h': Slots, iters: nat, v: Eval, e: Eval)
    requires Stamped(l, n, h, iters) == true && h'.Keys == h.Keys
    requires forall x :: x in h ==> h'[x] == if x == v || (x == e && h[x].pair == v) then h[x].(pair := null) else h[x]
    ensures Stamped(l, n, h', iters) == true && Taken(h, h', v, e) == true
  {
    forall i | 0 <= i < |l| ensures Placed(l, n, h', i) {
      assert Placed(l, n, h, i);
    }
  }

  lemma ShutDone(h: Slots, h0: Slots, h1: Slots, v: Eval, iters: nat, e: Eval?)
    requires ClosedSlot(h, h0, v, iters) && e == h[v].pair
    requires if e == null then h1 == h0 else Taken(h0, h1, v, e)
    ensures Shut(h, h1, v, iters) == true
  {
    forall x | x in h ensures ShutAt(h, h1, v, iters, x) {
    }
  }

  /** What is left is in order: closed slots have no pair, and events with a timer are live. */
  lemma StillCoherent(l: seq<Eval>, n: nat, l1: seq<Eval>, n1: nat, h: Slots, h1: Slots, v: Eval, iters: nat,
                      c: Clock, q: seq<Eval>, c1: Clock, q1: seq<Eval>)
    requires Coherent(l, n, h, iters, q) == true && Stamped(l1, n1, h1, iters) == true
    requires Shut(h, h1, v, iters) == true && TimersGone(c, q, c1, q1, {v}) == true
    ensures Coherent(l1, n1, h1, iters, q1) == true
  {
    forall e | e in h1 && h1[e].fd == -1 ensures h1[e].pair == null {
      assert ShutAt(h, h1, v, iters, e);
    }
    forall e | e in q1 ensures e in h1 && h1[e].fd != -1 {
      assert e in Members(q1, |q1|);
      assert e in Members(q, |q|);
      assert ShutAt(h, h1, v, iters, e);
    }
  }

  lemma PairOf(l: seq<Eval>, n: nat, h: Slots, iters: nat, q: seq<Eval>, v: Eval)
    requires Coherent(l, n, h, iters, q) == true && v in h
    ensures Stamped(l, n, h, iters) == true && (h[v].pair != null ==> h[v].pair in h && h[v].pair != v)
  {
  }

  /** A link is a slot, and a live one if it is among the first `n`. */
  lemma LinkLive(l: seq<Eval>, n: nat, h: Slots, iters: nat, q: seq<Eval>, i: nat)
    requires Coherent(l, n, h, iters, q) == true && i < |l|
    ensures l[i] in h && (i < n <= |l| ==> l[i] in Members(l, n) && h[l[i]].fd != -1)
  {
    assert Placed(l, n, h, i);
  }

  lemma GoneNone(h: Slots, c: Clock, q: seq<Eval>, iters: nat)
    ensures Gone(h, h, {}, iters) == true && TimersGone(c, q, c, q, {}) == true
  {
    forall e | e in h ensures GoneAt(h, h, {}, iters, e) {
    }
  }

  lemma ChainOf(l: seq<Eval>, n: nat, h: Slots, iters: nat, q: seq<Eval>, v: Eval)
    requires Coherent(l, n, h, iters, q) == true && v in h && n <= |l|
    ensures h[v].fd == -1 ==> Chain(h, Members(l, n), v) == {}
    ensures h[v].fd != -1 ==> v in Members(l, n)
  {
    LiveFd(l, n, h, v);
  }

  lemma NoChain(h: Slots, live: set<Eval>)
    ensures Chain(h, live, null) == {}
  {
  }

  /** What del_event has done after the recursive call. */
  lemma Finished(l: seq<Eval>, n: nat, h: Slots, live: set<Eval>, v: Eval, h1: Slots, h2: Slots, iters: nat,
                 c: Clock, q: seq<Eval>, c1: Clock, q1: seq<Eval>, c2: Clock, q2: seq<Eval>)
    requires Coherent(l, n, h, iters, q) == true && n <= |l| && live == Members(l, n) && v in live && v in h
    requires Shut(h, h1, v, iters) == true && TimersGone(c, q, c1, q1, {v}) == true
    requires var more := Chain(h1, live - {v}, h[v].pair);
      Gone(h1, h2, more, iters) == true && TimersGone(c1, q1, c2, q2, more) == true
    ensures var gone, more := Chain(h, live, v), Chain(h1, live - {v}, h[v].pair);
      && gone == {v} + more && |gone| == 1 + |more| && live - gone == live - {v} - more
      && Gone(h, h2, gone, iters) == true && TimersGone(c, q, c2, q2, gone) == true
  {
    ShutThenGone(l, n, h, live, v, h1, h2, iters);
    TimersGoneTwice(c, q, c1, q1, c2, q2, v, Chain(h, live - {v}, h[v].pair));
  }

  /** The first slot behind the live ones has been taken into use. */
  lemma Opened(l: seq<Eval>, n: nat, h: Slots, fd: int, iters: nat, reg: nat, q: seq<Eval>)
    requires Coherent(l, n, h, iters, q) == true && n < |l| && fd > 0
    ensures l[n] in h && l[n] !in Members(l, n) && h[l[n]].fd == -1
    ensures Coherent(l, n + 1, h[l[n] := Cell(fd, n, iters, null, reg)], iters, q) == true
    ensures Members(l, n + 1) == Members(l, n) + {l[n]}
  {
    assert Placed(l, n, h, n);
    var h', m := h[l[n] := Cell(fd, n, iters, null, reg)], n + 1;
    forall i | 0 <= i < |l| ensures Placed(l, m, h', i) {
      assert Placed(l, n, h, i);
    }
  }

  lemma AllClosed(l: seq<Eval>, h: Slots)
    requires Distinct(l) && h.Keys == Members(l, |l|)
    requires forall e :: e in h ==> h[e].fd == -1 && h[e].pair == null && h[e].modIter == 0
    ensures Coherent(l, 0, h, 0, []) == true
  {
    forall i | 0 <= i < |l| ensures Placed(l, 0, h, i) {
      assert l[i] in Members(l, |l|);
    }
  }

  /** Slots have other pairs, and nothing else has changed. */
  ghost predicate Paired(h: Slots, h': Slots) {
    h'.Keys == h.Keys && forall e :: e in h ==> h'[e] == h[e].(pair := h'[e].pair)
  }

  lemma Repaired(l: seq<Eval>, n: nat, h: Slots, h': Slots, iters: nat, q: seq<Eval>)
    requires Coherent(l, n, h, iters, q) == true && Paired(h, h')
    requires forall e :: e in h && h'[e].pair != null ==> h'[e].pair in h && h'[e].pair != e && h[e].fd != -1
    ensures Coherent(l, n, h', iters, q) == true
  {
    forall i | 0 <= i < |l| ensures Placed(l, n, h', i) {
      assert Placed(l, n, h, i);
    }
  }

  lemma Detached(l: seq<Eval>, n: nat, h: Slots, v: Eval, iters: nat, q: seq<Eval>)
    requires Coherent(l, n, h, iters, q) == true && v in h
    ensures var h' := h[v := h[v].(pair := null)]; Coherent(l, n, h', iters, q) == true && Paired(h, h') == true
  {
    Repaired(l, n, h, h[v := h[v].(pair := null)], iters, q);
  }

  lemma Coupled(l: seq<Eval>, n: nat, h: Slots, v: Eval, p: Eval, iters: nat, q: seq<Eval>)
    requires Coherent(l, n, h, iters, q) == true && {v, p} <= Members(l, n) && v != p
    ensures v in h && p in h
    ensures var h' := h[v := h[v].(pair := p)][p := h[p].(pair := v)];
      Coherent(l, n, h', iters, q) == true && Paired(h, h') == true
  {
    InSlots(l, n, h, v);
    InSlots(l, n, h, p);
    LiveFd(l, n, h, v);
    LiveFd(l, n, h, p);
    Repaired(l, n, h, h[v := h[v].(pair := p)][p := h[p].(pair := v)], iters, q);
  }

  lemma Circled(l: seq<Eval>, n: nat, h: Slots, v: Eval, p: Eval, r: Eval, iters: nat, q: seq<Eval>)
    requires Coherent(l, n, h, iters, q) == true && {v, p, r} <= Members(l, n) && v != p && p != r && r != v
    ensures v in h && p in h && r in h && Members(l, n) <= h.Keys
    ensures var h' := h[v := h[v].(pair := p)][p := h[p].(pair := r)][r := h[r].(pair := v)];
      Coherent(l, n, h', iters, q) == true && Ring(h', Members(l, n), v) == true && Paired(h, h') == true
  {
    LiveSlots(l, n, h);
    LiveFd(l, n, h, v);
    LiveFd(l, n, h, p);
    LiveFd(l, n, h, r);
    Repaired(l, n, h, h[v := h[v].(pair := p)][p := h[p].(pair := r)][r := h[r].(pair := v)], iters, q);
  }

  lemma Later(l: seq<Eval>, n: nat, h: Slots, iters: nat, q: seq<Eval>)
    requires Coherent(l, n, h, iters, q) == true
    ensures Coherent(l, n, h, iters + 1, q) == true && forall e :: e in h ==> h[e].modIter < iters + 1
  {
  }

  lemma JustFetched(l: seq<Eval>, n: nat, h: Slots, iters: nat, q: seq<Eval>, batch: seq<Pev>)
    requires Coherent(l, n, h, iters, q) == true
    requires forall i :: 0 <= i < |batch| ==> batch[i].val in h && h[batch[i].val].fd != -1
    ensures Fresh(h, iters + 1, batch, Registrations(h, batch), |batch| - 1) == true
  {
    var fetched, later := Registrations(h, batch), iters + 1;
    forall i | 0 <= i < |batch| ensures FreshAt(h, later, batch[i], fetched[i]) {
    }
  }

  lemma Retimed(l: seq<Eval>, n: nat, h: Slots, iters: nat, q: seq<Eval>, q': seq<Eval>, v: Eval)
    requires Coherent(l, n, h, iters, q) == true && v in h && h[v].fd != -1
    requires forall e :: e in q' ==> e in q || e == v
    ensures Coherent(l, n, h, iters, q') == true
  {
  }

  lemma FewerTimed(q: seq<Eval>, q': seq<Eval>, v: Eval)
    requires Members(q', |q'|) == Members(q, |q|) - {v}
    ensures forall e :: e in q' ==> e in q
  {
    forall e | e in q' ensures e in q {
      assert e in Members(q', |q'|);
    }
  }

  lemma LiveSlots(l: seq<Eval>, n: nat, h: Slots)
    requires Arranged(l, n, h)
    ensures Members(l, n) <= h.Keys
  {
    forall e | e in Members(l, n) ensures e in h {
      InSlots(l, n, h, e);
    }
  }

  /** `v` was first in the list, no deadline was earlier than its, and it is out of the list now. */
  ghost predicate Fires(c: Clock, q: seq<Eval>, v: Eval, q': seq<Eval>) {
    && q != [] && q[0] == v && q' == q[1..] && v in c
    && forall e :: e in c && c[e].ms != 0 ==> c[v].ms <= c[e].ms
  }

  lemma AddedMembers(c: Clock, q: seq<Eval>, v: Eval, ms: int, c': Clock, q': seq<Eval>)
    requires Added(c, q, v, ms, c', q')
    ensures forall e :: e in q' ==> e in q || e == v
  {
    var k: nat :| AddedAt(c, q, v, ms, c', q', k);
  }

  // -- whole runs ---------------------------------------------------------------------------

  /**
    What the loop and the callbacks do: wait for an event, register and close slots, pair them and
    take a pair from one side, set and remove timers.
  */
  datatype Action =
    | Await(now: int, picks: seq<(nat, int)>, failed: bool)
    | Register(fd: int)
    | Close(i: nat)
    | Couple(i: nat, j: nat)
    | Circle(i: nat, j: nat, k: nat)
    | Detach(i: nat)
    | Arm(i: nat, delay: int, now: int)
    | Disarm(i: nat)

  /**
    A dispatched event: the registration it was fetched for and the one it went to, or the deadline
    that has passed and all the deadlines there were; and whether it went to a live slot.
  */
  datatype Dispatch =
    | FromBatch(fetched: nat, reg: nat, live: bool)
    | FromTimer(due: int, deadlines: set<int>, live: bool)

  ghost predicate Right(d: Dispatch) {
    d.live && if d.FromBatch? then d.fetched == d.reg else forall ms :: ms in d.deadlines ==> d.due <= ms
  }

  /**
    No event went to a slot that was closed, or registered anew, after the event's batch had been
    fetched; and no timer before one that was due earlier.
  */
  ghost predicate NoneStale(log: seq<Dispatch>) {
    forall i :: 0 <= i < |log| ==> Right(log[i])
  }

  ghost function Deadlines(c: Clock): set<int> {
    set e | e in c && c[e].ms != 0 :: c[e].ms
  }

  /** The pool between two actions, where the batch goes on, and what the last wait dispatched. */
  datatype State = State(links: seq<Eval>, count: nat, regs: nat, h: Slots, c: Clock, q: seq<Eval>, iters: nat,
    batch: seq<Pev>, fetched: seq<nat>, offs: int, typ: int, origin: Origin, val: Eval?)

  ghost function StateOf(pool: Pool, offs: int, typ: int, origin: Origin, val: Eval?): State
    reads pool, pool.links, pool.items, pool.timers
  {
    State(pool.links[..], pool.count, pool.regs, Cells(pool.items), Snap(pool.items), pool.timers.q, pool.iters,
          pool.pevents, pool.fetched, offs, typ, origin, val)
  }

  ghost function Alive(s: State): set<Eval> {
    if s.count <= |s.links| then Members(s.links, s.count) else {}
  }

  /** The events that epoll reports, picked by place among the live slots; other places are passed over. */
  ghost function Picked(l: seq<Eval>, n: nat, picks: seq<(nat, int)>, k: nat): seq<Pev>
    requires n <= |l| && k <= |picks|
  {
    if k == 0 then []
    else Picked(l, n, picks, k - 1) + if picks[k - 1].0 < n then [Pev(l[picks[k - 1].0], picks[k - 1].1)] else []
  }

  ghost function Reported(l: seq<Eval>, n: nat, picks: seq<(nat, int)>, failed: bool): Wait
    requires n <= |l|
  {
    var batch := Picked(l, n, picks, |picks|);
    if failed then Error else if batch == [] then Timeout else Events(batch)
  }

  // -- what each action does to the state

  ghost predicate SameTimers(s: State, t: State) {
    t.c == s.c && t.q == s.q
  }

  ghost predicate SameLinks(s: State, t: State) {
    t.links == s.links && t.count == s.count && t.regs == s.regs
  }

  ghost predicate SameEvents(s: State, t: State) {
    && t.iters == s.iters && t.batch == s.batch && t.fetched == s.fetched && t.offs == s.offs && t.typ == s.typ
    && t.origin == Nothing && t.val == null
  }

  /** The timer that is first in the list is due. */
  ghost predicate Due(s: State, now: int) {
    s.q != [] && s.q[0] in s.c && s.c[s.q[0]].ms <= now
  }

  /** The wait of loop_event. */
  ghost predicate Awaits(s: State, now: int, w: Wait, t: State) {
    && SameLinks(s, t) && t.h == s.h
    && (if Due(s, now) then
          t.origin == OfTimers && t.iters == s.iters && t.batch == s.batch && t.fetched == s.fetched && t.offs == s.offs
        else BatchMoved(s.batch, s.iters, s.offs, w, s.h, t.batch, t.iters, t.offs, t.origin == OfBatch) == true)
    && match t.origin
       case Nothing =>
         && t.val == null && SameTimers(s, t)
         && t.typ == (if w == Timeout then POLLTIMEOUT else s.typ) && (s.q == [] || t.typ != POLLTIMEOUT)
       case OfBatch =>
         && SameTimers(s, t) && 0 <= t.offs + 1 < |t.batch| == |t.fetched|
         && t.val != null && t.batch[t.offs + 1] == Pev(t.val, t.typ)
         && t.val in s.h && s.h[t.val].fd != -1 && s.h[t.val].reg == t.fetched[t.offs + 1] && s.h[t.val].modIter != t.iters
       case OfTimers =>
         && t.val != null && t.val in s.h && s.h[t.val].fd != -1 && t.typ == POLLTIMEOUT
         && (Due(s, now) || w == Timeout || (w == Error && s.typ == POLLTIMEOUT))
         && Fires(s.c, s.q, t.val, t.q) == true && Dropped(s.c, s.q, t.val, t.c, t.q) == true
  }

  ghost predicate Opens(s: State, fd: int, v: Eval, t: State) {
    && v in s.h && v !in Alive(s) && Alive(t) == Alive(s) + {v}
    && t.h == s.h[v := Cell(fd, s.count, s.iters, null, t.regs)]
  }

  ghost predicate Registers(s: State, fd: int, t: State) {
    && SameTimers(s, t)
    && if fd > 0 && s.count < |s.links| then
         && t.links == s.links && t.count == s.count + 1 && t.regs == s.regs + 1
         && exists v :: v in s.h && Opens(s, fd, v, t)
       else SameLinks(s, t) && t.h == s.h
  }

  ghost predicate Closes(s: State, i: nat, t: State) {
    if i < |s.links| then
      var gone := Chain(s.h, Alive(s), s.links[i]);
      && Alive(t) == Alive(s) - gone && t.count == s.count - |gone| && t.regs == s.regs
      && Gone(s.h, t.h, gone, s.iters) == true && TimersGone(s.c, s.q, t.c, t.q, gone) == true
    else SameLinks(s, t) && t.h == s.h && SameTimers(s, t)
  }

  ghost predicate Couples(s: State, i: nat, j: nat, t: State) {
    && SameLinks(s, t) && SameTimers(s, t)
    && if i < s.count <= |s.links| && j < s.count && s.links[i] != s.links[j] && s.links[i] in s.h && s.links[j] in s.h then
         var v, p := s.links[i], s.links[j];
         t.h == s.h[v := s.h[v].(pair := p)][p := s.h[p].(pair := v)]
       else t.h == s.h
  }

  ghost predicate Circles(s: State, i: nat, j: nat, k: nat, t: State) {
    && SameLinks(s, t) && SameTimers(s, t)
    && if && i < s.count <= |s.links| && j < s.count && k < s.count
          && s.links[i] != s.links[j] && s.links[j] != s.links[k] && s.links[k] != s.links[i]
          && s.links[i] in s.h && s.links[j] in s.h && s.links[k] in s.h then
         var v, c, p := s.links[i], s.links[j], s.links[k];
         t.h == s.h[v := s.h[v].(pair := c)][c := s.h[c].(pair := p)][p := s.h[p].(pair := v)]
       else t.h == s.h
  }

  ghost predicate Detaches(s: State, i: nat, t: State) {
    && SameLinks(s, t) && SameTimers(s, t)
    && t.h == if i < s.count <= |s.links| && s.links[i] in s.h then s.h[s.links[i] := s.h[s.links[i]].(pair := null)] else s.h
  }

  ghost predicate Arms(s: State, i: nat, delay: int, now: int, t: State) {
    && SameLinks(s, t) && t.h == s.h
    && if i < s.count <= |s.links| && now + delay != 0 && s.links[i] !in s.q then
         Added(s.c, s.q, s.links[i], now + delay, t.c, t.q) == true
       else SameTimers(s, t)
  }

  ghost predicate Disarms(s: State, i: nat, t: State) {
    && SameLinks(s, t) && t.h == s.h
    && if i < s.count <= |s.links| then Dropped(s.c, s.q, s.links[i], t.c, t.q) == true else SameTimers(s, t)
  }

  /** The action is carried out, and nothing else happens; one that does not apply is passed over. */
  ghost predicate Does(s: State, a: Action, t: State) {
    match a
    case Await(now, picks, failed) => s.count <= |s.links| && Awaits(s, now, Reported(s.links, s.count, picks, failed), t) == true
    case Register(fd) => SameEvents(s, t) && Registers(s, fd, t) == true
    case Close(i) => SameEvents(s, t) && Closes(s, i, t) == true
    case Couple(i, j) => SameEvents(s, t) && Couples(s, i, j, t) == true
    case Circle(i, j, k) => SameEvents(s, t) && Circles(s, i, j, k, t) == true
    case Detach(i) => SameEvents(s, t) && Detaches(s, i, t) == true
    case Arm(i, delay, now) => SameEvents(s, t) && Arms(s, i, delay, now, t) == true
    case Disarm(i) => SameEvents(s, t) && Disarms(s, i, t) == true
  }

  /** What epoll reports. */
  method Report(pool: Pool, picks: seq<(nat, int)>, failed: bool) returns (w: Wait)
    requires pool.Valid()
    ensures pool.Reports(w) && w == Reported(pool.links[..], pool.count, picks, failed)
  {
    if failed {
      return Error;
    }
    var batch: seq<Pev>, i := [], 0;
    while i < |picks|
      invariant i <= |picks| && batch == Picked(pool.links[..], pool.count, picks, i)
      invariant forall k :: 0 <= k < |batch| ==> batch[k].val in pool.items && batch[k].val.fd != -1
    {
      if picks[i].0 < pool.count {
        assert Placed(pool.links[..], pool.count, Cells(pool.items), picks[i].0);
        batch := batch + [Pev(pool.links[picks[i].0], picks[i].1)];
      }
      i := i + 1;
    }
    w := if |batch| == 0 then Timeout else Events(batch);
  }

  /** The waiting half of loop_event. */
  method Await(pool: Pool, offs: int, typ: int, now: int, picks: seq<(nat, int)>, failed: bool, ghost s: State)
    returns (offs': int, typ': int, ghost log: seq<Dispatch>, ghost t: State)
    requires pool.Valid() && pool.Pending(offs) && s == StateOf(pool, offs, typ, s.origin, s.val)
    modifies pool`iters, pool`pevents, pool`fetched
    modifies pool.timers`tvStart, pool.timers`tvEnd, pool.timers`q, pool.items`tvMs, pool.items`tvNext, pool.items`tvPrev
    ensures pool.Valid() == true && pool.Pending(offs') == true && NoneStale(log)
    ensures t == StateOf(pool, offs', typ', t.origin, t.val) && Does(s, Action.Await(now, picks, failed), t) == true
  {
    hide Coherent, Fresh, Chain, Members, Dropped, Reported, Registrations, BatchMoved, AllStale, Listed, Due, Added;
    var w := Report(pool, picks, failed);
    ghost var c, q := Snap(pool.items), pool.timers.q;
    FirstDue(pool, now, s);
    var val;
    ghost var origin;
    val, offs', typ', origin := pool.NextEventTv(offs, typ, now, w);
    log := match origin
      case Nothing => []
      case OfBatch => [FromBatch(pool.fetched[offs' + 1], val.reg, val.fd != -1)]
      case OfTimers => [FromTimer(c[val].ms, Deadlines(c), val.fd != -1)];
    t := StateOf(pool, offs', typ', origin, val);
    assert val != null ==> Cells(pool.items)[val] == Cell(val.fd, val.index, val.modIter, val.pair, val.reg);
    assert Awaits(s, now, w, t);
  }

  lemma FirstDue(pool: Pool, now: int, s: State)
    requires pool.Valid() && s.q == pool.timers.q && s.c == Snap(pool.items)
    ensures Due(s, now) <==> pool.timers.tvStart != null && pool.timers.tvStart.tvMs <= now
    ensures s.q == [] <==> pool.timers.tvStart == null
  {
  }

  method DoRegister(pool: Pool, fd: int, ghost s: State, ghost offs: int)
    requires pool.Valid() && pool.Pending(offs) && s == StateOf(pool, offs, s.typ, s.origin, s.val)
    modifies pool`count, pool`regs, pool.items
    ensures pool.Valid() == true && pool.Pending(offs) == true
    ensures Does(s, Register(fd), StateOf(pool, offs, s.typ, Nothing, null)) == true
  {
    hide Coherent, Fresh, Members, Listed, Arranged, Chain;
    if fd > 0 {
      var val := pool.AddEvent(fd);
      if val != null {
        OpenedFresh(s.h, Cells(pool.items), val, s.iters, s.batch, s.fetched, offs);
        assert Opens(s, fd, val, StateOf(pool, offs, s.typ, Nothing, null));
      }
    }
  }

  method DoClose(pool: Pool, i: nat, ghost s: State, ghost offs: int)
    requires pool.Valid() && pool.Pending(offs) && s == StateOf(pool, offs, s.typ, s.origin, s.val)
    modifies pool`count, pool.links, pool.items
    modifies pool.timers`tvStart, pool.timers`tvEnd, pool.timers`q
    ensures pool.Valid() == true && pool.Pending(offs) == true
    ensures Does(s, Close(i), StateOf(pool, offs, s.typ, Nothing, null)) == true
  {
    hide Coherent, Fresh, Members, Gone, Chain, TimersGone, Snap;
    if i < pool.max {
      LinkLive(pool.links[..], pool.count, s.h, s.iters, s.q, i);
      ghost var gone := Chain(s.h, Alive(s), pool.links[i]);
      pool.DelEvent(pool.links[i]);
      GoneFresh(s.h, Cells(pool.items), gone, s.iters, s.batch, s.fetched, offs);
    }
  }

  method DoCouple(pool: Pool, i: nat, j: nat, ghost s: State, ghost offs: int)
    requires pool.Valid() && pool.Pending(offs) && s == StateOf(pool, offs, s.typ, s.origin, s.val)
    modifies pool.items`pair
    ensures pool.Valid() == true && pool.Pending(offs) == true
    ensures Does(s, Couple(i, j), StateOf(pool, offs, s.typ, Nothing, null)) == true
  {
    hide Coherent, Fresh, Paired, Members;
    if i < pool.count && j < pool.count && pool.links[i] != pool.links[j] {
      LinkLive(pool.links[..], pool.count, s.h, s.iters, s.q, i);
      LinkLive(pool.links[..], pool.count, s.h, s.iters, s.q, j);
      pool.Couple(pool.links[i], pool.links[j]);
      PairsFresh(s.h, Cells(pool.items), s.iters, s.batch, s.fetched, offs);
    }
  }

  method DoCircle(pool: Pool, i: nat, j: nat, k: nat, ghost s: State, ghost offs: int)
    requires pool.Valid() && pool.Pending(offs) && s == StateOf(pool, offs, s.typ, s.origin, s.val)
    modifies pool.items`pair
    ensures pool.Valid() == true && pool.Pending(offs) == true
    ensures Does(s, Circle(i, j, k), StateOf(pool, offs, s.typ, Nothing, null)) == true
  {
    hide Coherent, Fresh, Paired, Members, Ring;
    if && i < pool.count && j < pool.count && k < pool.count
       && pool.links[i] != pool.links[j] && pool.links[j] != pool.links[k] && pool.links[k] != pool.links[i] {
      LinkLive(pool.links[..], pool.count, s.h, s.iters, s.q, i);
      LinkLive(pool.links[..], pool.count, s.h, s.iters, s.q, j);
      LinkLive(pool.links[..], pool.count, s.h, s.iters, s.q, k);
      pool.Circle(pool.links[i], pool.links[j], pool.links[k]);
      PairsFresh(s.h, Cells(pool.items), s.iters, s.batch, s.fetched, offs);
    }
  }

  method DoDetach(pool: Pool, i: nat, ghost s: State, ghost offs: int)
    requires pool.Valid() && pool.Pending(offs) && s == StateOf(pool, offs, s.typ, s.origin, s.val)
    modifies pool.items`pair
    ensures pool.Valid() == true && pool.Pending(offs) == true
    ensures Does(s, Detach(i), StateOf(pool, offs, s.typ, Nothing, null)) == true
  {
    hide Coherent, Fresh, Paired, Members;
    if i < pool.count {
      LinkLive(pool.links[..], pool.count, s.h, s.iters, s.q, i);
      pool.Detach(pool.links[i]);
      PairsFresh(s.h, Cells(pool.items), s.iters, s.batch, s.fetched, offs);
    }
  }

  method DoArm(pool: Pool, i: nat, delay: int, now: int, ghost s: State, ghost offs: int)
    requires pool.Valid() && pool.Pending(offs) && s == StateOf(pool, offs, s.typ, s.origin, s.val)
    modifies pool.timers`tvStart, pool.timers`tvEnd, pool.timers`q, pool.items`tvMs, pool.items`tvNext, pool.items`tvPrev
    ensures pool.Valid() == true && pool.Pending(offs) == true
    ensures Does(s, Arm(i, delay, now), StateOf(pool, offs, s.typ, Nothing, null)) == true
  {
    hide Coherent, Fresh, Members, Added;
    if i < pool.count && now + delay != 0 {
      LinkLive(pool.links[..], pool.count, s.h, s.iters, s.q, i);
      pool.SetTimer(pool.links[i], delay, now);
    }
  }

  method DoDisarm(pool: Pool, i: nat, ghost s: State, ghost offs: int)
    requires pool.Valid() && pool.Pending(offs) && s == StateOf(pool, offs, s.typ, s.origin, s.val)
    modifies pool.timers`tvStart, pool.timers`tvEnd, pool.timers`q, pool.items`tvMs, pool.items`tvNext, pool.items`tvPrev
    ensures pool.Valid() == true && pool.Pending(offs) == true
    ensures Does(s, Disarm(i), StateOf(pool, offs, s.typ, Nothing, null)) == true
  {
    hide Coherent, Fresh, Members, Dropped;
    if i < pool.count {
      LinkLive(pool.links[..], pool.count, s.h, s.iters, s.q, i);
      pool.DisarmTimer(pool.links[i]);
    }
  }

  /** What a callback may do to the pool; an action that does not apply is passed over. */
  method Act(pool: Pool, a: Action, ghost s: State, ghost offs: int)
    requires pool.Valid() && pool.Pending(offs) && !a.Await? && s == StateOf(pool, offs, s.typ, s.origin, s.val)
    modifies pool`count, pool`regs, pool.links, pool.items
    modifies pool.timers`tvStart, pool.timers`tvEnd, pool.timers`q
    ensures pool.Valid() == true && pool.Pending(offs) == true
    ensures Does(s, a, StateOf(pool, offs, s.typ, Nothing, null)) == true
  {
    hide Does, Coherent, Fresh;
    match a
    case Register(fd) => DoRegister(pool, fd, s, offs);
    case Close(i) => DoClose(pool, i, s, offs);
    case Couple(i, j) => DoCouple(pool, i, j, s, offs);
    case Circle(i, j, k) => DoCircle(pool, i, j, k, s, offs);
    case Arm(i, delay, now) => DoArm(pool, i, delay, now, s, offs);
    case Detach(i) => DoDetach(pool, i, s, offs);
    case Disarm(i) => DoDisarm(pool, i, s, offs);
  }

  lemma PairsFresh(h: Slots, h': Slots, iters: nat, batch: seq<Pev>, fetched: seq<nat>, offs: int)
    requires Fresh(h, iters, batch, fetched, offs) == true && Paired(h, h') == true
    ensures Fresh(h', iters, batch, fetched, offs) == true
  {
    forall i | 0 <= i <= offs ensures FreshAt(h', iters, batch[i], fetched[i]) {
      assert FreshAt(h, iters, batch[i], fetched[i]);
    }
  }

  /** The states of a run: each action leads from one to the next. */
  ghost predicate Traced(trace: seq<State>, actions: seq<Action>, n: nat) {
    && n <= |actions| && |trace| == n + 1
    && forall k :: 0 <= k < n ==> Does(trace[k], actions[k], trace[k + 1]) == true
  }

  lemma TracedMore(trace: seq<State>, actions: seq<Action>, n: nat, t: State)
    requires Traced(trace, actions, n) == true && n < |actions| && Does(trace[n], actions[n], t) == true
    ensures Traced(trace + [t], actions, n + 1) == true
  {
    hide Does;
    var more := trace + [t];
    forall k | 0 <= k < n + 1 ensures Does(more[k], actions[k], more[k + 1]) == true {
      assert more[k] == trace[k];
    }
  }

  /**
    Every run of the event loop: whatever is reported, registered, closed, paired and timed in
    between, each action is carried out and does nothing else, the links, the stamps and the timers
    stay in order, and no stale event is dispatched.
  */
  method Run(pool: Pool, actions: seq<Action>) returns (offs: int, ghost log: seq<Dispatch>, ghost trace: seq<State>)
    requires pool.Valid() && pool.pevents == [] && pool.fetched == []
    modifies pool, pool.links, pool.items, pool.timers
    ensures pool.Valid() && NoneStale(log)
    ensures Traced(trace, actions, |actions|) && trace[0] == old(StateOf(pool, -1, -1, Nothing, null))
    ensures var last := trace[|actions|]; last == StateOf(pool, offs, last.typ, last.origin, last.val)
  {
    hide Coherent, Listed, Right, Does, Traced;
    offs, log := -1, [];
    var typ, n := -1, 0;
    trace := [StateOf(pool, -1, -1, Nothing, null)];
    Untraced(trace, actions);
    while n < |actions|
      invariant n <= |actions| && pool.Valid() && pool.Pending(offs) && NoneStale(log)
      invariant |trace| == n + 1 && Traced(trace, actions, n) == true && trace[0] == old(StateOf(pool, -1, -1, Nothing, null))
      invariant trace[n] == StateOf(pool, offs, typ, trace[n].origin, trace[n].val)
      decreases |actions| - n
    {
      ghost var s, t := trace[n], trace[n];
      if actions[n].Await? {
        ghost var more;
        offs, typ, more, t := Await(pool, offs, typ, actions[n].now, actions[n].picks, actions[n].failed, s);
        log := log + more;
      } else {
        Act(pool, actions[n], s, offs);
        t := StateOf(pool, offs, typ, Nothing, null);
      }
      TracedMore(trace, actions, n, t);
      trace := trace + [t];
      n := n + 1;
    }
  }

  lemma Untraced(trace: seq<State>, actions: seq<Action>)
    requires |trace| == 1
    ensures Traced(trace, actions, 0) == true
  {
  }

  /** At step `k` the event at place `i` of the batch is dispatched, or passed over because it is stale. */
  ghost predicate Settled(trace: seq<State>, k: nat, i: nat)
    requires k + 1 < |trace|
  {
    var s, t := trace[k], trace[k + 1];
    && i < |s.batch|
    && (|| (t.origin == OfBatch && t.iters == s.iters && t.offs + 1 == i && t.val == s.batch[i].val)
        || (s.batch[i].val in s.h && s.h[s.batch[i].val].modIter == s.iters))
  }

  /**
    No event is lost: one that is pending is dispatched or stale at some later step, while its batch
    is still there, or it is pending at the end.
  */
  lemma {:induction false} NoneLost(trace: seq<State>, actions: seq<Action>, n: nat, a: nat, i: nat) returns (k: nat)
    requires Traced(trace, actions, n) == true && a <= n && i <= trace[a].offs < |trace[a].batch|
    ensures a <= k <= n && trace[k].iters == trace[a].iters && trace[k].batch == trace[a].batch && i <= trace[k].offs
    ensures k == n || Settled(trace, k, i)
    decreases n - a
  {
    k := a;
    if a < n {
      StepEvents(trace[a], actions[a], trace[a + 1], i);
      if !Settled(trace, a, i) {
        k := NoneLost(trace, actions, n, a + 1, i);
      }
    }
  }

  /** One step: the event stays pending, or it is settled. */
  lemma StepEvents(s: State, a: Action, t: State, i: nat)
    requires Does(s, a, t) == true && i <= s.offs < |s.batch|
    ensures Settled([s, t], 0, i) || (t.iters == s.iters && t.batch == s.batch && i <= t.offs <= s.offs)
  {
    hide Reported, Fires, Dropped, Gone, Chain, TimersGone, Added;
  }
}
