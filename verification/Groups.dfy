/**
  The strategy groups of extend.c: a doubly linked list whose order on_trigger changes in place,
  and the mask of groups that a connection has used up.

  A mask is a set of group ids. In the program it is a word with one bit per group, `1 << id`;
  the ids are the numbers of the groups and there are at most 31 of them, so that every group
  has a bit of its own.
*/
module Groups {

  const MAX_GROUPS := 31

  /** The AUTO_ flags of a group. */
  datatype Auto = Auto(onReconn: bool, noReconn: bool, sort: bool)

  /** `struct desync_params` as far as the list is concerned; `detect` is the set of DETECT_ flags. */
  class Group {
    const id: nat
    var prev: Group?
    var next: Group?
    var detect: set<nat>
    var auto: Auto
    var pri: int
    var failCount: nat

    constructor (id: nat, detect: set<nat>, auto: Auto)
      ensures this.id == id && this.detect == detect && this.auto == auto
      ensures prev == null && next == null && pri == 0 && failCount == 0
    {
      this.id, this.detect, this.auto := id, detect, auto;
      prev, next, pri, failCount := null, null, 0, 0;
    }
  }

  ghost predicate Distinct(s: seq<Group>) {
    forall i, j :: 0 <= i < j < |s| ==> s[i] != s[j] && s[i].id != s[j].id
  }

  /** add_group numbers the groups; every number has a bit. */
  ghost predicate Numbered(s: seq<Group>) {
    |s| <= MAX_GROUPS && forall i :: 0 <= i < |s| ==> s[i].id < |s|
  }

  function Neighbour(s: seq<Group>, i: int): Group? {
    if 0 <= i < |s| then s[i] else null
  }

  /** The fields of a group other than its links. */
  datatype Slot = Slot(detect: set<nat>, auto: Auto, pri: int, failCount: nat)

  ghost function Slots(s: seq<Group>): (r: seq<Slot>)
    reads s
    ensures |r| == |s|
  {
    seq(|s|, k requires 0 <= k < |s| reads s => Slot(s[k].detect, s[k].auto, s[k].pri, s[k].failCount))
  }

  // -- the links, as a snapshot of the heap -------------------------------------------------

  datatype Link = Link(prev: Group?, next: Group?)

  ghost function Links(s: seq<Group>): map<Group, Link>
    reads s
    ensures Links(s).Keys == set g | g in s
  {
    map g | g in s :: Link(g.prev, g.next)
  }

  /** From `head` the list is `s`, in both directions. */
  ghost predicate Chained(h: map<Group, Link>, head: Group?, s: seq<Group>) {
    && head == Neighbour(s, 0) && Distinct(s) && h.Keys == (set g | g in s)
    && forall i :: 0 <= i < |s| ==> LinkAt(h, s, i)
  }

  /** Group `i` has the right neighbours. */
  ghost predicate LinkAt(h: map<Group, Link>, s: seq<Group>, i: nat)
    requires i < |s|
  {
    s[i] in h && h[s[i]] == Link(Neighbour(s, i - 1), Neighbour(s, i + 1))
  }

  ghost predicate Linked(head: Group?, s: seq<Group>)
    reads s
  {
    Chained(Links(s), head, s)
  }

  ghost function Swapped<T>(s: seq<T>, i: nat, j: nat): seq<T>
    requires i < |s| && j < |s|
  {
    s[i := s[j]][j := s[i]]
  }

  /** `c` for `n` and the other way round. */
  function Trade(c: Group, n: Group, g: Group?): (r: Group?)
    ensures g != null ==> r != null
  {
    if g == c then n else if g == n then c else g
  }

  /** The links with the two groups traded everywhere. */
  ghost predicate Traded(h: map<Group, Link>, h': map<Group, Link>, c: Group, n: Group) {
    && h'.Keys == h.Keys
    && forall g {:trigger h'[g]} :: g in h ==>
      && Trade(c, n, g) in h
      && var l := h[Trade(c, n, g)]; h'[g] == Link(Trade(c, n, l.prev), Trade(c, n, l.next))
  }

  lemma SwappedFacts(s: seq<Group>, i: nat, j: nat)
    requires Distinct(s) && i < j < |s|
    ensures Distinct(Swapped(s, i, j))
    ensures (set g | g in Swapped(s, i, j)) == set g | g in s
  {
    var s' := Swapped(s, i, j);
    forall g | g in s ensures g in s' {
      var k :| 0 <= k < |s| && s[k] == g;
      assert g == s'[if k == i then j else if k == j then i else k];
    }
    forall g | g in s' ensures g in s {
    }
  }

  lemma SwappedAt(s: seq<Group>, i: nat, j: nat, m: int)
    requires Distinct(s) == true && i < j < |s|
    ensures Neighbour(Swapped(s, i, j), m) == Trade(s[i], s[j], Neighbour(s, m))
  {
  }

  lemma TradedLink(h: map<Group, Link>, h': map<Group, Link>, s: seq<Group>, i: nat, j: nat, k: nat, g: Group)
    requires Distinct(s) == true && i < j < |s| && k < |s| && Traded(h, h', s[i], s[j]) == true && LinkAt(h, s, k) == true
    requires g == Swapped(s, i, j)[k] && g in h
    ensures LinkAt(h', Swapped(s, i, j), k)
  {
    var c, n := s[i], s[j];
    SwappedAt(s, i, j, k - 1);
    SwappedAt(s, i, j, k);
    SwappedAt(s, i, j, k + 1);
    assert Trade(c, n, g) == s[k];
    assert h'[g] == Link(Trade(c, n, h[s[k]].prev), Trade(c, n, h[s[k]].next));
  }

  lemma TradedLinks(h: map<Group, Link>, h': map<Group, Link>, head: Group?, s: seq<Group>, i: nat, j: nat)
    requires Chained(h, head, s) && i < j < |s| && Traded(h, h', s[i], s[j]) == true
    ensures forall k :: 0 <= k < |s| ==> LinkAt(h', Swapped(s, i, j), k)
  {
    hide Traded, Distinct;
    forall k | 0 <= k < |s| ensures LinkAt(h', Swapped(s, i, j), k) {
      var m := if k == i then j else if k == j then i else k;
      assert LinkAt(h, s, k) && LinkAt(h, s, m);
      TradedLink(h, h', s, i, j, k, s[m]);
    }
  }

  lemma TradedChained(h: map<Group, Link>, h': map<Group, Link>, head: Group?, s: seq<Group>, i: nat, j: nat)
    requires Chained(h, head, s) && i < j < |s| && Traded(h, h', s[i], s[j]) == true
    ensures Chained(h', Trade(s[i], s[j], head), Swapped(s, i, j))
  {
    SwappedFacts(s, i, j);
    SwappedAt(s, i, j, 0);
    TradedLinks(h, h', head, s, i, j);
  }

  /** Neighbours know each other. */
  lemma Mutual(h: map<Group, Link>, head: Group?, s: seq<Group>)
    requires Chained(h, head, s)
    ensures forall g, x :: g in h && x in h ==> Mutually(h, g, x)
    ensures forall g :: g in h ==> Closed(h, g)
  {
    forall g, x | g in h && x in h ensures Mutually(h, g, x) {
      var a, b :| 0 <= a < |s| && s[a] == g && 0 <= b < |s| && s[b] == x;
      assert LinkAt(h, s, a) && LinkAt(h, s, b);
    }
    forall g | g in h ensures Closed(h, g) {
      var a :| 0 <= a < |s| && s[a] == g;
      assert LinkAt(h, s, a);
    }
  }

  /** Of two groups in list order the later one is not in front of the earlier one. */
  lemma InOrder(h: map<Group, Link>, head: Group?, s: seq<Group>, i: nat, j: nat)
    requires Chained(h, head, s) && i < j < |s|
    ensures var c, n := s[i], s[j];
      && c in h && n in h && c != n && Closed(h, c) && Closed(h, n)
      && h[n].prev != null && h[c].next != null && h[n].next != c && h[c].prev != n && head != n
      && h[c].next != c && h[c].prev != c && h[n].next != n && h[n].prev != n
      && (h[c].next == n <==> h[n].prev == c)
      && (h[c].prev != null ==> h[c].prev != h[c].next && h[c].prev != h[n].prev && h[c].prev != h[n].next)
      && (h[n].next != null ==> h[n].next != h[n].prev && h[n].next != h[c].next)
  {
    assert LinkAt(h, s, i) && LinkAt(h, s, j);
  }

  /** The group in front of `g` points to `g`. */
  ghost function Forward(h: map<Group, Link>, g: Group): map<Group, Link>
    requires g in h
  {
    var p := h[g].prev;
    if p == null || p !in h then h else h[p := Link(h[p].prev, g)]
  }

  /** The group behind `g` points back to `g`. */
  ghost function Backward(h: map<Group, Link>, g: Group): map<Group, Link>
    requires g in h
  {
    var q := h[g].next;
    if q == null || q !in h then h else h[q := Link(g, h[q].next)]
  }

  /** All writes of swop_groups, in their order. */
  ghost predicate Rewired(h: map<Group, Link>, h': map<Group, Link>, c: Group, n: Group) {
    && c in h && n in h
    && var h2 := Halved(h, c, n);
       h' == if h[c].next != n then Forward(Backward(h2, n), c) else h2[c := Link(n, h2[c].next)][n := Link(h2[n].prev, c)]
  }

  /** The first half of them. */
  ghost function Halved(h: map<Group, Link>, c: Group, n: Group): (r: map<Group, Link>)
    requires c in h && n in h
    ensures r.Keys == h.Keys
  {
    Backward(Forward(h[c := h[n]][n := h[c]], n), c)
  }

  /** What the pointers that are followed in between point to. */
  lemma HalfWay(h: map<Group, Link>, head: Group?, s: seq<Group>, i: nat, j: nat)
    requires Chained(h, head, s) && i < j < |s|
    ensures var c, n := s[i], s[j];
      && c in h && n in h && c != n && h.Keys == (set g | g in s)
      && var h1, h2 := Forward(h[c := h[n]][n := h[c]], n), Halved(h, c, n);
      && (h[c].prev != null ==> h[c].prev in h)
      && c in h1 && (h1[c].next != null ==> h1[c].next in h)
      && h2 == Backward(h1, c)
      && (h[c].next != n ==>
            && h2[n].next != null && h2[n].next in h && h2[n].next != c
            && Backward(h2, n) == h2[h2[n].next := Link(n, h2[h2[n].next].next)]
            && h2[c].prev != null && h2[c].prev in h
            && var h3 := Backward(h2, n);
               && h3[c].prev == h2[c].prev && Forward(h3, c) == h3[h2[c].prev := Link(h3[h2[c].prev].prev, c)])
  {
    InOrder(h, head, s, i, j);
  }

  /** Everyone is behind the one in front of them, and nobody is their own neighbour. */
  ghost predicate Mutually(h: map<Group, Link>, g: Group, x: Group)
    requires g in h && x in h
  {
    (h[g].next == x <==> h[x].prev == g) && h[g].next != g && h[g].prev != g
  }

  ghost predicate Closed(h: map<Group, Link>, g: Group)
    requires g in h
  {
    (h[g].next != null ==> h[g].next in h) && (h[g].prev != null ==> h[g].prev in h)
  }

  lemma RewiredAt(h: map<Group, Link>, h': map<Group, Link>, c: Group, n: Group, g: Group)
    requires Rewired(h, h', c, n) && c != n && h[n].next != c && h[c].prev != n && g in h
    requires Mutually(h, c, n) && Mutually(h, n, c) && Mutually(h, g, c) && Mutually(h, g, n) && Mutually(h, c, g) && Mutually(h, n, g)
    requires Closed(h, c) && Closed(h, n)
    ensures g in h' && Trade(c, n, g) in h
    ensures var l := h[Trade(c, n, g)]; h'[g] == Link(Trade(c, n, l.prev), Trade(c, n, l.next))
  {
    if g == c {
    } else if g == n {
    } else {
    }
  }

  lemma RewiredKeys(h: map<Group, Link>, h': map<Group, Link>, c: Group, n: Group)
    requires Rewired(h, h', c, n)
    ensures h'.Keys == h.Keys
  {
  }

  /** In a list in which everyone knows their neighbours, they trade the two groups. */
  lemma RewiredTraded(h: map<Group, Link>, h': map<Group, Link>, c: Group, n: Group)
    requires Rewired(h, h', c, n) && c != n && h[n].next != c && h[c].prev != n
    requires forall g, x :: g in h && x in h ==> Mutually(h, g, x)
    requires forall g :: g in h ==> Closed(h, g)
    ensures Traded(h, h', c, n)
  {
    RewiredKeys(h, h', c, n);
    forall g | g in h
      ensures Trade(c, n, g) in h
      ensures var l := h[Trade(c, n, g)]; h'[g] == Link(Trade(c, n, l.prev), Trade(c, n, l.next))
    {
      RewiredAt(h, h', c, n, g);
    }
  }

  lemma RewiredChained(h: map<Group, Link>, h': map<Group, Link>, head: Group?, s: seq<Group>, i: nat, j: nat)
    requires Chained(h, head, s) && i < j < |s| && Rewired(h, h', s[i], s[j]) == true
    ensures Chained(h', Trade(s[i], s[j], head), Swapped(s, i, j))
  {
    Mutual(h, head, s);
    InOrder(h, head, s, i, j);
    RewiredTraded(h, h', s[i], s[j]);
    TradedChained(h, h', head, s, i, j);
  }

  lemma SwopFacts(h: map<Group, Link>, head: Group?, s: seq<Group>, i: nat, j: nat)
    requires Chained(h, head, s) && i < j < |s|
    ensures Distinct(s) && s[i] != s[j] && (set g | g in Swapped(s, i, j)) == set g | g in s
    ensures Numbered(s) ==> Numbered(Swapped(s, i, j))
    ensures head == Neighbour(s, 0)
  {
    SwappedFacts(s, i, j);
  }

  method SetNext(g: Group, v: Group?, ghost s: seq<Group>)
    requires g in s
    modifies g
    ensures Links(s) == old(Links(s))[g := Link(old(g.prev), v)] && Slots(s) == old(Slots(s))
  {
    g.next := v;
  }

  method SetPrev(g: Group, v: Group?, ghost s: seq<Group>)
    requires g in s
    modifies g
    ensures Links(s) == old(Links(s))[g := Link(v, old(g.next))] && Slots(s) == old(Slots(s))
  {
    g.prev := v;
  }

  /** After the swap: by position detect and auto_level are as before, `pri` and `fail_count` have gone with the group. */
  ghost predicate Reslotted(sl: seq<Slot>, sl': seq<Slot>, i: nat, j: nat)
    requires i < |sl| && j < |sl|
  {
    && |sl'| == |sl|
    && forall k :: 0 <= k < |sl| ==>
      && sl'[k].detect == sl[k].detect && sl'[k].auto == sl[k].auto
      && sl'[k].pri == Swapped(sl, i, j)[k].pri && sl'[k].failCount == Swapped(sl, i, j)[k].failCount
  }

  /** The global `params`: the head of the list, and the groups in order. */
  class Params {
    var dp: Group?
    var dpFullMask: set<nat>
    ghost var s: seq<Group>

    ghost predicate Valid()
      reads this, s
    {
      Linked(dp, s) && Numbered(s)
    }

    /** The group at place `k`, if there are so many. */
    method Nth(k: nat) returns (g: Group?)
      requires Valid()
      ensures g == Neighbour(s, k)
    {
      g := dp;
      var i := 0;
      while i < k && g != null
        invariant i <= k && g == Neighbour(s, i)
      {
        assert LinkAt(Links(s), s, i);
        g, i := g.next, i + 1;
      }
    }

    /** The two groups themselves take over each other's links. */
    method TradeOwn(dpc: Group, dpn: Group)
      requires dpc in s && dpn in s && dpc != dpn
      modifies dpc, dpn
      ensures Links(s) == old(Links(s))[dpc := old(Link(dpn.prev, dpn.next))][dpn := old(Link(dpc.prev, dpc.next))]
      ensures Slots(s) == old(Slots(s))
    {
      ghost var h, slots := Links(s), Slots(s);
      var cPrev, cNext := dpc.prev, dpc.next;
      SetNext(dpc, dpn.next, s);
      SetPrev(dpc, dpn.prev, s);
      assert Links(s) == h[dpc := h[dpn]] && Slots(s) == slots;

      SetPrev(dpn, cPrev, s);
      SetNext(dpn, cNext, s);
    }

    /** The other writes of swop_groups. */
    method TradeSlots(dpc: Group, dpn: Group, cDetect: set<nat>, cAuto: Auto, ghost i: nat, ghost j: nat)
      requires Distinct(s) && i < j < |s| && dpc == s[i] && dpn == s[j]
      requires cDetect == Slots(s)[i].detect && cAuto == Slots(s)[i].auto
      modifies s
      ensures Links(s) == old(Links(s))
      ensures Reslotted(old(Slots(s)), Slots(Swapped(s, i, j)), i, j)
    {
      ghost var sl := Slots(s);
      dpc.detect := dpn.detect;
      dpc.auto := dpn.auto;
      dpn.detect := cDetect;
      dpn.auto := cAuto;
      forall k | 0 <= k < |s|
        ensures Slots(Swapped(s, i, j))[k] == Slot(sl[k].detect, sl[k].auto, Swapped(sl, i, j)[k].pri, Swapped(sl, i, j)[k].failCount)
      {
      }
    }

    /** `g->prev->next = g`, if there is such a group. */
    method PointForward(g: Group)
      requires g in s && (g.prev != null ==> g.prev in s)
      modifies s
      ensures Links(s) == Forward(old(Links(s)), g) && Slots(s) == old(Slots(s))
    {
      if g.prev != null {
        SetNext(g.prev, g, s);
      }
    }

    /** `g->next->prev = g`, if there is such a group. */
    method PointBackward(g: Group)
      requires g in s && (g.next != null ==> g.next in s)
      modifies s
      ensures Links(s) == Backward(old(Links(s)), g) && Slots(s) == old(Slots(s))
    {
      if g.next != null {
        SetPrev(g.next, g, s);
      }
    }

    /** The pointer writes of swop_groups. */
    method Relink(dpc: Group, dpn: Group, ghost i: nat, ghost j: nat)
      requires Valid() && i < j < |s| && dpc == s[i] && dpn == s[j]
      modifies s
      ensures Rewired(old(Links(s)), Links(s), dpc, dpn) == true
      ensures Slots(s) == old(Slots(s))
    {
      hide Chained, Numbered, Slots, Forward, Backward, Halved;
      ghost var h := Links(s);
      HalfWay(h, dp, s, i, j);
      var cNext := dpc.next;
      TradeOwn(dpc, dpn);
      PointForward(dpn);
      PointBackward(dpc);
      ghost var h2 := Links(s);
      assert h2 == Halved(h, dpc, dpn);
      if cNext != dpn {
        assert h2[dpn] == Link(dpn.prev, dpn.next);
        SetPrev(dpn.next, dpn, s);
        ghost var h3 := Links(s);
        assert h3 == h2[h2[dpn].next := Link(dpn, h2[h2[dpn].next].next)] && h3[dpc] == Link(dpc.prev, dpc.next);
        SetNext(dpc.prev, dpc, s);
      } else {
        SetPrev(dpc, dpn, s);
        SetNext(dpn, dpc, s);
        assert Links(s) == h2[dpc := Link(dpn, h2[dpc].next)][dpn := Link(h2[dpn].prev, dpc)];
      }
    }

    /**
      swop_groups exchanges two groups of the list, next to each other or not, the first one
      included. Each takes over the other's detect and auto_level, so by position these stay.
    */
    method SwopGroups(dpc: Group, dpn: Group, ghost i: nat, ghost j: nat)
      requires Valid() && i < j < |s| && dpc == s[i] && dpn == s[j]
      modifies `dp, `s, s
      ensures Valid() && s == Swapped(old(s), i, j)
      ensures Reslotted(old(Slots(s)), Slots(s), i, j)
    {
      hide Chained, Numbered, Distinct, Rewired, Reslotted;
      ghost var h, s0, head := Links(s), s, dp;
      SwopFacts(h, head, s0, i, j);
      assert Slots(s)[i] == Slot(dpc.detect, dpc.auto, dpc.pri, dpc.failCount);
      var cDetect, cAuto := dpc.detect, dpc.auto;
      Relink(dpc, dpn, i, j);
      TradeSlots(dpc, dpn, cDetect, cAuto, i, j);
      if dp == dpc {
        dp := dpn;
      }
      s := Swapped(s, i, j);
      RewiredChained(h, Links(s0), head, s0, i, j);
      assert Links(s) == Links(s0);
    }
  }

  // -- on_trigger ---------------------------------------------------------------------------

  /** The client side of a connection: its group, the groups used up, the last failure. */
  class Client {
    var dp: Group?
    var dpMask: set<nat>
    var detect: set<nat>

    constructor (dpMask: set<nat>)
      ensures dp == null && this.dpMask == dpMask && detect == {}
    {
      dp, this.dpMask, detect := null, dpMask, {};
    }
  }

  /** What the cache keeps for the address. */
  class Entry {
    var dpMask: set<nat>
    var detect: set<nat>
    var dp: Group?

    constructor ()
      ensures dpMask == {} && detect == {} && dp == null
    {
      dpMask, detect, dp := {}, {}, null;
    }
  }

  /** The ids of the first `k` groups. */
  ghost function Ids(s: seq<Group>, k: nat): set<nat>
    requires k <= |s|
  {
    set i | 0 <= i < k :: s[i].id
  }

  /** Group `i` may take over after a failure of this type. */
  ghost predicate Eligible(s: seq<Group>, sl: seq<Slot>, mask: set<nat>, typ: set<nat>, canReconn: bool, i: nat)
    requires i < |s| == |sl|
  {
    && s[i].id !in mask && (sl[i].detect == {} || sl[i].detect * typ != {})
    && (sl[i].auto.onReconn ==> canReconn)
  }

  /** The walk over the list ends at group `i` without a successor: one without a trigger, behind all groups used up. */
  ghost predicate Barrier(s: seq<Group>, sl: seq<Slot>, mask: set<nat>, i: nat)
    requires i < |s| == |sl|
  {
    sl[i].detect == {} && mask <= Ids(s, i)
  }

  /** Where the walk ends, and with which successor. */
  ghost predicate Walked(s: seq<Group>, sl: seq<Slot>, mask: set<nat>, typ: set<nat>, canReconn: bool, k: nat, next: Group?)
    requires |s| == |sl|
  {
    && k <= |s| && (forall i :: 0 <= i < k ==> !Eligible(s, sl, mask, typ, canReconn, i) && !Barrier(s, sl, mask, i))
    && if next == null then k == |s| || Barrier(s, sl, mask, k)
       else k < |s| && next == s[k] && Eligible(s, sl, mask, typ, canReconn, k) && !Barrier(s, sl, mask, k)
  }

  lemma NoIds(s: seq<Group>, mask: set<nat>)
    ensures mask + Ids(s, 0) == mask && mask - Ids(s, 0) == mask
  {
  }

  lemma DistinctGroups(params: Params)
    requires params.Valid()
    ensures Distinct(params.s)
  {
  }

  lemma SlotAt(s: seq<Group>, i: nat)
    requires i < |s|
    ensures Slots(s)[i] == Slot(s[i].detect, s[i].auto, s[i].pri, s[i].failCount)
  {
  }

  /** What the tests of the loop decide at group `k`, and what passing it does to the masks. */
  lemma WalkAt(s: seq<Group>, sl: seq<Slot>, mask: set<nat>, typ: set<nat>, canReconn: bool, k: nat)
    requires Distinct(s) && k < |s| == |sl|
    ensures mask - Ids(s, k) == {} && sl[k].detect == {} <==> Barrier(s, sl, mask, k)
    ensures s[k].id !in mask + Ids(s, k) && (sl[k].detect == {} || sl[k].detect * typ != {}) && (!sl[k].auto.onReconn || canReconn)
      <==> Eligible(s, sl, mask, typ, canReconn, k)
    ensures mask + Ids(s, k + 1) == mask + Ids(s, k) + {s[k].id} && mask - Ids(s, k + 1) == mask - Ids(s, k) - {s[k].id}
  {
    assert s[k].id !in Ids(s, k);
    assert Ids(s, k + 1) == Ids(s, k) + {s[k].id};
    forall x | x in mask ensures x in mask - Ids(s, k) || x in Ids(s, k) {
    }
  }

  /** The loop of on_trigger. */
  method Walk(params: Params, lav: Client, typ: set<nat>, canReconn: bool)
    returns (next: Group?, uncheked: set<nat>, ghost k: nat)
    requires params.Valid()
    modifies lav`dpMask
    ensures Walked(params.s, Slots(params.s), old(lav.dpMask), typ, canReconn, k, next)
    ensures lav.dpMask == old(lav.dpMask) + Ids(params.s, k) && uncheked == old(lav.dpMask) - Ids(params.s, k)
  {
    hide Eligible, Barrier, Ids, Slots, Distinct;
    uncheked, next, k := lav.dpMask, null, 0;
    var dp := params.dp;
    ghost var s, sl, mask := params.s, Slots(params.s), lav.dpMask;
    DistinctGroups(params);
    NoIds(s, mask);
    while dp != null
      invariant k <= |s| && dp == Neighbour(s, k) && next == null
      invariant lav.dpMask == mask + Ids(s, k) && uncheked == mask - Ids(s, k)
      invariant forall i :: 0 <= i < k ==> !Eligible(s, sl, mask, typ, canReconn, i) && !Barrier(s, sl, mask, i)
      decreases |s| - k
    {
      assert LinkAt(Links(s), s, k);
      SlotAt(s, k);
      WalkAt(s, sl, mask, typ, canReconn, k);
      if uncheked == {} && dp.detect == {} {
        break;
      }
      if dp.id !in lav.dpMask && (dp.detect == {} || dp.detect * typ != {}) && (!dp.auto.onReconn || canReconn) {
        next := dp;
        break;
      }
      uncheked := uncheked - {dp.id};
      lav.dpMask := lav.dpMask + {dp.id};
      dp, k := dp.next, k + 1;
    }
  }

  /** The list after on_trigger: as it was, or the failed group and its successor, which is behind it, exchanged. */
  ghost predicate Resorted(s: seq<Group>, s': seq<Group>, c: Group, next: Group?) {
    s' == s || exists i, j :: 0 <= i < j < |s| && s[i] == c && s[j] == next && s' == Swapped(s, i, j)
  }

  /** By position detect and auto_level are as before. */
  ghost predicate SameSlots(sl: seq<Slot>, sl': seq<Slot>) {
    |sl'| == |sl| && forall k :: 0 <= k < |sl| ==> sl'[k].detect == sl[k].detect && sl'[k].auto == sl[k].auto
  }

  /**
    on_trigger after the failure `typ` of the group in use. `reconn` says whether the connection
    is to be tried again (reconnect); `k` is where the walk over the list ended. The group changes
    places with the successor found if the cache does not count it as used, it comes first, the
    successor is to be sorted, and its `pri` is the lower one.
  */
  method OnTrigger(params: Params, lav: Client, cache: Entry, typ: set<nat>, canReconn: bool)
    returns (reconn: bool, next: Group?, ghost k: nat)
    requires params.Valid() && lav.dp != null && lav.dp in params.s
    modifies params`dp, params`s, params.s, lav, cache
    ensures params.Valid() == true && Resorted(old(params.s), params.s, old(lav.dp), next)
    ensures Walked(old(params.s), old(Slots(params.s)), old(lav.dpMask + {lav.dp.id}), typ, canReconn, k, next) == true
    ensures lav.dpMask == old(lav.dpMask + {lav.dp.id}) + Ids(old(params.s), k)
    ensures lav.dp == old(lav.dp) && lav.detect == typ
    ensures var i, unused := Position(old(params.s), lav.dp), lav.dp.id !in old(cache.dpMask);
      var swap := unused && Swaps(old(Slots(params.s)), i, k, next != null);
      && params.s == (if swap then Swapped(old(params.s), i, k) else old(params.s))
      && Scored(old(Slots(params.s)), Slots(params.s), i, k, swap, if unused then 1 else 0, 1) == true
    ensures SameSlots(old(Slots(params.s)), Slots(params.s))
    ensures next == null ==> !reconn && cache.dpMask == {} && cache.detect == {} && cache.dp == params.dp
    ensures next != null ==> cache.dpMask == old(cache.dpMask) + lav.dpMask && cache.detect == typ && cache.dp == next
    ensures reconn <==> next != null && canReconn && !next.auto.noReconn
  {
    hide Linked, Slots, Walked, Numbered, Ids, Scored, SameSlots;
    ghost var s, sl, i := params.s, Slots(params.s), Position(params.s, lav.dp);
    var uncheked;
    next, uncheked, k := UseUp(params, lav, typ, canReconn, i);
    ghost var sl1, swap, raise := Slots(params.s), false, 0;
    assert Swaps(sl1, i, k, next != null) == Swaps(sl, i, k, next != null);
    if lav.dp.id !in cache.dpMask {
      Resort(params, lav.dp, next, uncheked, old(lav.dpMask + {lav.dp.id}), i, k);
      swap, raise := Swaps(sl1, i, k, next != null), 1;
    } else {
      NotScored(sl1, i, k);
    }
    ScoredTwice(sl, sl1, Slots(params.s), i, k, swap, raise);
    ScoredSame(sl, Slots(params.s), i, k, swap, raise, 1);
    reconn := Remember(params, lav, cache, next, canReconn);
  }

  /** The group has failed: it is used up, and the walk looks for another one. */
  method UseUp(params: Params, lav: Client, typ: set<nat>, canReconn: bool, ghost i: nat)
    returns (next: Group?, uncheked: set<nat>, ghost k: nat)
    requires params.Valid() && lav.dp != null && i < |params.s| && lav.dp == params.s[i]
    modifies params.s, lav
    ensures params.Valid() == true
    ensures Slots(params.s) == var sl := old(Slots(params.s)); sl[i := sl[i].(failCount := sl[i].failCount + 1)]
    ensures Walked(params.s, old(Slots(params.s)), old(lav.dpMask + {lav.dp.id}), typ, canReconn, k, next) == true
    ensures k <= |params.s| && lav.dpMask == old(lav.dpMask + {lav.dp.id}) + Ids(params.s, k)
    ensures uncheked == old(lav.dpMask + {lav.dp.id}) - Ids(params.s, k)
    ensures lav.dp == old(lav.dp) && lav.detect == typ
    ensures next != null ==> k < |params.s| && next == params.s[k]
  {
    hide Linked, Slots, Walked, Numbered;
    ghost var sl := Slots(params.s);
    CountFailure(params, lav.dp, i);
    lav.dpMask := lav.dpMask + {lav.dp.id};
    lav.detect := typ;
    ghost var mask, sl1 := lav.dpMask, Slots(params.s);
    next, uncheked, k := Walk(params, lav, typ, canReconn);
    SameWalk(params.s, sl, sl1, mask, typ, canReconn, k, next);
  }

  /** The outcome is kept for the address. */
  method Remember(params: Params, lav: Client, cache: Entry, next: Group?, canReconn: bool) returns (reconn: bool)
    modifies cache
    ensures next == null ==> !reconn && cache.dpMask == {} && cache.detect == {} && cache.dp == params.dp
    ensures next != null ==> cache.dpMask == old(cache.dpMask) + lav.dpMask && cache.detect == lav.detect && cache.dp == next
    ensures reconn <==> next != null && canReconn && !next.auto.noReconn
  {
    if next == null {
      cache.dpMask, cache.detect, cache.dp := {}, {}, params.dp;
      return false;
    }
    cache.dpMask := cache.dpMask + lav.dpMask;
    cache.detect := lav.detect;
    cache.dp := next;
    reconn := !next.auto.noReconn && canReconn;
  }

  lemma SameWalk(s: seq<Group>, sl: seq<Slot>, sl': seq<Slot>, mask: set<nat>, typ: set<nat>, canReconn: bool, k: nat, next: Group?)
    requires |s| == |sl| && SameSlots(sl, sl') && Walked(s, sl', mask, typ, canReconn, k, next)
    ensures Walked(s, sl, mask, typ, canReconn, k, next)
  {
    forall i | 0 <= i < k ensures !Eligible(s, sl, mask, typ, canReconn, i) && !Barrier(s, sl, mask, i) {
      assert !Eligible(s, sl', mask, typ, canReconn, i) && !Barrier(s, sl', mask, i);
    }
  }

  /** Group `i` has come earlier in the walk than where it ended exactly if it stands in front of that place. */
  lemma Checked(s: seq<Group>, k: nat, i: nat)
    requires Distinct(s) && k <= |s| && i < |s|
    ensures s[i].id in Ids(s, k) <==> i < k
  {
    if s[i].id in Ids(s, k) {
      var j :| 0 <= j < k && s[j].id == s[i].id;
      assert i == j || i < j || j < i;
    }
  }

  /** The failed group loses its place to a successor with a lower `pri`, provided that it comes first. */
  method Resort(params: Params, c: Group, next: Group?, uncheked: set<nat>, ghost mask: set<nat>, ghost i: nat, ghost k: nat)
    requires params.Valid() && i < |params.s| && c == params.s[i] && c.id in mask
    requires k <= |params.s| && uncheked == mask - Ids(params.s, k) && (next != null ==> k < |params.s| && next == params.s[k])
    modifies params`dp, params`s, params.s
    ensures params.Valid() == true
    ensures var swap := Swaps(old(Slots(params.s)), i, k, next != null);
      && params.s == (if swap then Swapped(old(params.s), i, k) else old(params.s))
      && Scored(old(Slots(params.s)), Slots(params.s), i, k, swap, 1, 0) == true
  {
    hide Linked, Numbered, Ids, Slots, Reslotted, Scored;
    ghost var s0, sl, at := params.s, Slots(params.s), i;
    DistinctGroups(params);
    Checked(s0, k, i);
    SlotAt(s0, i);
    if next != null {
      SlotAt(s0, k);
    }
    if next != null && next.auto.sort && c.pri > next.pri && c.id !in uncheked {
      params.SwopGroups(c, next, i, k);
      at := k;
    }
    ghost var sl1 := Slots(params.s);
    RaisePri(params, c, at);
    ScoredAfter(sl, sl1, Slots(params.s), i, k, at);
  }

  /** Whether the group at place `i` is to change places with the one at `k`. */
  ghost predicate Swaps(sl: seq<Slot>, i: nat, k: nat, found: bool) {
    found && i < k < |sl| && sl[k].auto.sort && sl[i].pri > sl[k].pri
  }

  /**
    By position detect and auto_level are as before; the counters have gone with their groups, and
    those of the group that was at place `i` have grown.
  */
  ghost predicate Scored(sl: seq<Slot>, sl': seq<Slot>, i: nat, k: nat, swap: bool, raise: nat, fail: nat) {
    && i < |sl| == |sl'| && (swap ==> k < |sl|)
    && forall m {:trigger sl'[m]} :: 0 <= m < |sl| ==>
      var from := if swap && m == i then k else if swap && m == k then i else m;
      sl'[m] == Slot(sl[m].detect, sl[m].auto, sl[from].pri + (if from == i then raise else 0),
                     sl[from].failCount + if from == i then fail else 0)
  }

  lemma ScoredAfter(sl: seq<Slot>, sl1: seq<Slot>, sl2: seq<Slot>, i: nat, k: nat, at: nat)
    requires i < |sl| && at < |sl1| && sl2 == sl1[at := sl1[at].(pri := sl1[at].pri + 1)]
    requires if at == i then sl1 == sl else at == k < |sl| && i != k && Reslotted(sl, sl1, i, k)
    ensures Scored(sl, sl2, i, k, at != i, 1, 0) == true
  {
  }

  /** First the failure is counted, then the list is sorted, or not. */
  lemma ScoredTwice(sl: seq<Slot>, sl1: seq<Slot>, sl2: seq<Slot>, i: nat, k: nat, swap: bool, raise: nat)
    requires i < |sl| && sl1 == sl[i := sl[i].(failCount := sl[i].failCount + 1)]
    requires Scored(sl1, sl2, i, k, swap, raise, 0) == true
    ensures Scored(sl, sl2, i, k, swap, raise, 1) == true
  {
  }

  lemma NotScored(sl: seq<Slot>, i: nat, k: nat)
    requires i < |sl|
    ensures Scored(sl, sl, i, k, false, 0, 0) == true
  {
  }

  lemma ScoredSame(sl: seq<Slot>, sl': seq<Slot>, i: nat, k: nat, swap: bool, raise: nat, fail: nat)
    requires Scored(sl, sl', i, k, swap, raise, fail)
    ensures SameSlots(sl, sl')
  {
  }

  method CountFailure(params: Params, g: Group, ghost i: nat)
    requires params.Valid() && i < |params.s| && g == params.s[i]
    modifies g`failCount
    ensures params.Valid() == true
    ensures Slots(params.s) == var sl := old(Slots(params.s)); sl[i := sl[i].(failCount := sl[i].failCount + 1)]
  {
    ghost var h := Links(params.s);
    g.failCount := g.failCount + 1;
    assert Links(params.s) == h;
  }

  method RaisePri(params: Params, g: Group, ghost i: nat)
    requires params.Valid() && i < |params.s| && g == params.s[i]
    modifies g`pri
    ensures params.Valid() == true
    ensures Slots(params.s) == var sl := old(Slots(params.s)); sl[i := sl[i].(pri := sl[i].pri + 1)]
  {
    ghost var h := Links(params.s);
    g.pri := g.pri + 1;
    assert Links(params.s) == h;
  }

  // -- find_dp ------------------------------------------------------------------------------

  /** The ids of all groups (dp_full_mask). */
  ghost function AllIds(s: seq<Group>): set<nat> {
    Ids(s, |s|)
  }

  /** The group `m` places behind position `p`, with the head of the list behind its end. */
  function Around(s: seq<Group>, p: nat, m: nat): Group
    requires p < |s| && m <= |s|
  {
    s[if p + m < |s| then p + m else p + m - |s|]
  }

  ghost function AroundIds(s: seq<Group>, p: nat, k: nat): set<nat>
    requires p < |s| && k <= |s|
  {
    set m: nat | m < k :: Around(s, p, m).id
  }

  /** The tests of find_dp that do not look at the mask; `adm` stands for those on address, protocol and host. */
  predicate Suits(g: Group, init: Group?, detect: set<nat>, adm: nat -> bool)
    reads g
  {
    (g == init || g.detect == {} || detect * g.detect != {}) && adm(g.id)
  }

  lemma AroundDistinct(s: seq<Group>, p: nat, k: nat)
    requires Distinct(s) && p < |s| && k < |s|
    ensures Around(s, p, k).id !in AroundIds(s, p, k)
  {
    forall m: nat | m < k ensures Around(s, p, m).id != Around(s, p, k).id {
      var a, b := if p + m < |s| then p + m else p + m - |s|, if p + k < |s| then p + k else p + k - |s|;
      assert a < b || b < a;
    }
  }

  /** Once around, all groups have been met. */
  lemma AroundAll(s: seq<Group>, p: nat)
    requires Distinct(s) && p < |s|
    ensures AllIds(s) == AroundIds(s, p, |s|)
  {
    forall x | x in AllIds(s) ensures x in AroundIds(s, p, |s|) {
      var i :| 0 <= i < |s| && s[i].id == x;
      var m := if i >= p then i - p else i + |s| - p;
      assert Around(s, p, m).id == x;
    }
  }

  lemma AroundStep(s: seq<Group>, p: nat, k: nat)
    requires p < |s| && k < |s|
    ensures AroundIds(s, p, k + 1) == AroundIds(s, p, k) + {Around(s, p, k).id}
  {
  }

  /** What find_dp returns: the first group from position `p` on that is not used up and suits; those in front of it are used up now. */
  ghost predicate FirstFrom(s: seq<Group>, p: nat, mask: set<nat>, suits: iset<nat>, mask': set<nat>, r: Group?)
    requires p < |s|
  {
    if r == null then
      mask' == AllIds(s) && forall m :: 0 <= m < |s| ==> Around(s, p, m).id in mask || Around(s, p, m).id !in suits
    else exists k: nat :: k < |s| && FoundAt(s, p, mask, suits, mask', r, k)
  }

  ghost predicate FoundAt(s: seq<Group>, p: nat, mask: set<nat>, suits: iset<nat>, mask': set<nat>, r: Group, k: nat)
    requires p < |s| && k < |s|
  {
    && Met(s, p, mask, suits, k)
    && r == Around(s, p, k) && r.id !in mask && r.id in suits && mask' == mask + AroundIds(s, p, k)
  }

  /** None of the first `k` groups from `p` on will do. */
  ghost predicate Met(s: seq<Group>, p: nat, mask: set<nat>, suits: iset<nat>, k: nat)
    requires p < |s| && k <= |s|
  {
    forall m :: 0 <= m < k ==> Around(s, p, m).id in mask || Around(s, p, m).id !in suits
  }

  /** Where the scan begins: at the group in use, or at the head. */
  ghost predicate StartsAt(s: seq<Group>, dp: Group?, p: nat) {
    p < |s| && if dp == null then p == 0 else s[p] == dp
  }

  /** The ids of the groups that suit, as the scan begins. */
  ghost function Suiting(s: seq<Group>, init: Group?, detect: set<nat>, adm: nat -> bool): iset<nat>
    reads s
  {
    iset i | 0 <= i < |s| && Suits(s[i], init, detect, adm) :: s[i].id
  }

  lemma SuitingAt(s: seq<Group>, init: Group?, detect: set<nat>, adm: nat -> bool, g: Group)
    requires Distinct(s) && g in s
    ensures g.id in Suiting(s, init, detect, adm) <==> Suits(g, init, detect, adm)
  {
    var i :| 0 <= i < |s| && s[i] == g;
    if g.id in Suiting(s, init, detect, adm) {
      var j :| 0 <= j < |s| && Suits(s[j], init, detect, adm) && s[j].id == g.id;
      assert i == j || i < j || j < i;
    }
  }

  /** One group of the scan is passed over. */
  lemma MetMore(s: seq<Group>, p: nat, mask: set<nat>, suits: iset<nat>, k: nat)
    requires Distinct(s) && p < |s| && k < |s| && Met(s, p, mask, suits, k)
    requires Around(s, p, k).id in mask + AroundIds(s, p, k) || Around(s, p, k).id !in suits
    ensures Met(s, p, mask, suits, k + 1)
    ensures mask + AroundIds(s, p, k + 1) == mask + AroundIds(s, p, k) + {Around(s, p, k).id}
  {
    AroundDistinct(s, p, k);
    AroundStep(s, p, k);
  }

  /** When everything is used up nothing will do. */
  lemma MetAll(s: seq<Group>, p: nat, mask: set<nat>, suits: iset<nat>, k: nat)
    requires Distinct(s) && p < |s| && k <= |s| && Met(s, p, mask, suits, k)
    requires mask + AroundIds(s, p, k) == AllIds(s)
    ensures FirstFrom(s, p, mask, suits, AllIds(s), null)
  {
    AroundAll(s, p);
    forall m | 0 <= m < |s| ensures Around(s, p, m).id in mask || Around(s, p, m).id !in suits {
      assert Around(s, p, m).id in AroundIds(s, p, |s|);
      if Around(s, p, m).id in AroundIds(s, p, k) && m >= k {
        AroundDistinct(s, p, m);
      }
    }
  }

  /** find_dp goes round the list at most once. */
  method FindDp(params: Params, client: Client, adm: nat -> bool, ghost p: nat) returns (r: Group?)
    requires params.Valid() && params.dpFullMask == AllIds(params.s)
    requires StartsAt(params.s, client.dp, p) && client.dpMask <= AllIds(params.s)
    modifies client`dpMask
    ensures old(client.dpMask) <= client.dpMask <= AllIds(params.s)
    ensures r != null ==>
      && r in params.s && r.id !in old(client.dpMask) && adm(r.id)
      && (r == old(client.dp) || r.detect == {} || exists d :: d in r.detect && d in client.detect)
    ensures FirstFrom(params.s, p, old(client.dpMask), Suiting(params.s, client.dp, client.detect, adm), client.dpMask, r)
  {
    hide Distinct;
    var dp, initDp := client.dp, client.dp;
    ghost var s, mask, k := params.s, client.dpMask, 0;
    ghost var suits := Suiting(s, client.dp, client.detect, adm);
    while true
      invariant k <= |s| && (dp == Around(s, p, k) || (dp == null && Around(s, p, k) == s[0]))
      invariant client.dpMask == mask + AroundIds(s, p, k) && client.dpMask <= AllIds(s)
      invariant Met(s, p, mask, suits, k)
      decreases |s| - k
    {
      if dp == null {
        dp := params.dp;
      }
      if client.dpMask == params.dpFullMask {
        MetAll(s, p, mask, suits, k);
        break;
      }
      Unmet(s, p, mask, k);
      SuitingAt(s, initDp, client.detect, adm, dp);
      if dp.id !in client.dpMask && (dp == initDp || dp.detect == {} || client.detect * dp.detect != {}) && adm(dp.id) {
        assert FoundAt(s, p, mask, suits, client.dpMask, dp, k);
        if dp != initDp && dp.detect != {} {
          ghost var d :| d in client.detect * dp.detect;
          assert d in dp.detect && d in client.detect;
        }
        return dp;
      }
      MetMore(s, p, mask, suits, k);
      AroundNext(params, p, k);
      client.dpMask := client.dpMask + {dp.id};
      dp, k := dp.next, k + 1;
    }
    r := null;
  }

  /** As long as not everything is used up the scan has not been all the way round. */
  lemma Unmet(s: seq<Group>, p: nat, mask: set<nat>, k: nat)
    requires Distinct(s) && p < |s| && k <= |s| && mask <= AllIds(s) && mask + AroundIds(s, p, k) != AllIds(s)
    ensures k < |s|
  {
    AroundAll(s, p);
  }

  lemma AroundNext(params: Params, p: nat, k: nat)
    requires params.Valid() && p < |params.s| && k < |params.s|
    ensures var g := Around(params.s, p, k); var n := Around(params.s, p, k + 1);
      g.id in AllIds(params.s) && (g.next == n || (g.next == null && n == params.s[0]))
  {
    var s := params.s;
    var a := if p + k < |s| then p + k else p + k - |s|;
    assert LinkAt(Links(s), s, a);
  }

  // -- a whole connection -------------------------------------------------------------------

  lemma {:induction false} CountIds(s: seq<Group>, k: nat)
    requires Distinct(s) && k <= |s|
    ensures |Ids(s, k)| == k
  {
    if k > 0 {
      CountIds(s, k - 1);
      var last := s[k - 1].id;
      assert last !in Ids(s, k - 1);
      assert Ids(s, k) == Ids(s, k - 1) + {last};
    }
  }

  /** What find_dp means for the groups used up, the one in use counted in. */
  lemma UsedUp(s: seq<Group>, p: nat, mask: set<nat>, suits: iset<nat>, mask': set<nat>, r: Group)
    requires Distinct(s) && p < |s| && mask <= AllIds(s) && FirstFrom(s, p, mask, suits, mask', r)
    ensures r.id !in mask && r.id in AllIds(s) && mask <= mask' && mask + {s[p].id} <= mask' + {r.id}
  {
    var k: nat :| k < |s| && FoundAt(s, p, mask, suits, mask', r, k);
    AroundAll(s, p);
    assert Around(s, p, k).id in AroundIds(s, p, |s|);
    assert Around(s, p, 0) == s[p];
    if k > 0 {
      assert Around(s, p, 0).id in AroundIds(s, p, k);
    }
  }

  ghost predicate SameGroups(s: seq<Group>, s': seq<Group>) {
    (set g | g in s) == set g | g in s'
  }

  lemma SameMembers(s: seq<Group>, s': seq<Group>)
    requires SameGroups(s, s')
    ensures forall i :: 0 <= i < |s'| ==> s'[i] in s
  {
    var a, b := set g | g in s, set g | g in s';
    forall i | 0 <= i < |s'| ensures s'[i] in s {
      assert s'[i] in b;
      assert s'[i] in a;
    }
  }

  lemma ResortedIds(s: seq<Group>, s': seq<Group>, c: Group, next: Group?)
    requires Distinct(s) && Resorted(s, s', c, next)
    ensures AllIds(s') == AllIds(s) && SameGroups(s, s') && (forall g :: g in s <==> g in s')
  {
    if s' != s {
      var i, j :| 0 <= i < j < |s| && s[i] == c && s[j] == next && s' == Swapped(s, i, j);
      forall g | g in s ensures g in s' {
        var k :| 0 <= k < |s| && s[k] == g;
        assert s'[if k == i then j else if k == j then i else k] == g;
      }
      forall x | x in AllIds(s) ensures x in AllIds(s') {
        var k :| 0 <= k < |s| && s[k].id == x;
        assert s[k] in s';
      }
      forall x | x in AllIds(s') ensures x in AllIds(s) {
        var k :| 0 <= k < |s'| && s'[k].id == x;
        assert s'[k] == s[if k == i then j else if k == j then i else k];
      }
    }
  }

  /** The connection is in use: its group is of the list, and this many groups have been used. */
  ghost predicate InUse(params: Params, client: Client, full: set<nat>, n: nat)
    reads params, params.s, client
  {
    && params.Valid() && params.dpFullMask == AllIds(params.s) == full && |params.s| > 0
    && client.dpMask <= full && client.dp != null && client.dp in params.s
    && n < |client.dpMask + {client.dp.id}|
  }

  /** find_dp for a connection in use; without a group the connection is dropped. */
  method Choose(params: Params, client: Client, adm: nat -> bool, ghost full: set<nat>, ghost n: nat) returns (ok: bool)
    requires InUse(params, client, full, n)
    modifies client
    ensures old(client.dpMask) <= client.dpMask && client.detect == old(client.detect)
    ensures ok ==> InUse(params, client, full, n) && client.dp.id !in old(client.dpMask)
  {
    hide Suiting, FirstFrom, AllIds, Numbered;
    ghost var s, mask, dp, p := params.s, client.dpMask, client.dp, Position(params.s, client.dp);
    ghost var suits := Suiting(s, dp, client.detect, adm);
    var r := FindDp(params, client, adm, p);
    if r == null {
      return false;
    }
    UsedUp(s, p, mask, suits, client.dpMask, r);
    client.dp := r;
    MoreUsed(mask + {dp.id}, client.dpMask + {r.id});
    return true;
  }

  ghost function Position(s: seq<Group>, g: Group): (p: nat)
    requires g in s
    ensures p < |s| && s[p] == g
  {
    var p :| 0 <= p < |s| && s[p] == g;
    p
  }

  lemma MoreUsed(a: set<nat>, b: set<nat>)
    requires a <= b
    ensures |a| <= |b|
  {
    assert b == a + (b - a);
  }

  lemma WalkedIds(s: seq<Group>, sl: seq<Slot>, mask: set<nat>, typ: set<nat>, canReconn: bool, k: nat, next: Group?, dp: Group)
    requires |sl| == |s| && Walked(s, sl, mask, typ, canReconn, k, next) && dp in s
    ensures k <= |s| && Ids(s, k) <= AllIds(s) && dp.id in AllIds(s)
  {
    assert s[Position(s, dp)].id in AllIds(s);
  }

  /** on_trigger, and with reconnect the choice of another group, which has not been used before. */
  method Retry(params: Params, client: Client, cache: Entry, typ: set<nat>, canReconn: bool, adm: nat -> bool,
               ghost full: set<nat>, ghost n: nat)
    returns (ok: bool)
    requires InUse(params, client, full, n)
    modifies params`dp, params`s, params.s, client, cache
    ensures old(client.dpMask) <= client.dpMask && SameGroups(old(params.s), params.s)
    ensures ok ==> InUse(params, client, full, n + 1)
  {
    hide Chained, Slots, Numbered, SameSlots, Walked, Ids, Resorted;
    ghost var s, used := params.s, client.dpMask + {client.dp.id};
    DistinctGroups(params);
    ghost var sl, mask0 := Slots(s), client.dpMask + {client.dp.id};
    var reconn, next, k := OnTrigger(params, client, cache, typ, canReconn);
    ResortedIds(s, params.s, client.dp, next);
    WalkedIds(s, sl, mask0, typ, canReconn, k, next, client.dp);
    if !reconn {
      return false;
    }
    ghost var mask := client.dpMask;
    MoreUsed(used, mask);
    assert mask + {client.dp.id} == mask;
    ok := Choose(params, client, adm, full, n);
    if ok {
      OneMoreUsed(used, mask, client.dp.id, client.dpMask);
    }
  }

  lemma OneMoreUsed(used: set<nat>, mask: set<nat>, id: nat, mask': set<nat>)
    requires used <= mask <= mask' && id !in mask
    ensures |used| + 1 <= |mask' + {id}|
  {
    assert |used + {id}| == |used| + 1;
    MoreUsed(used + {id}, mask' + {id});
  }

  /**
    What happens to a connection: the first data arrives, a response is looked at, the group in
    use fails; or another connection's failure reorders the list that all of them share.
  */
  datatype Event =
    | Setup(adm: nat -> bool)
    | Response
    | Failure(typ: set<nat>, canReconn: bool, adm: nat -> bool)
    | Elsewhere(i: nat, j: nat)

  /** A swap on behalf of another connection. */
  method SwapElsewhere(params: Params, i: nat, j: nat)
    requires params.Valid()
    modifies params`dp, params`s, params.s
    ensures params.Valid() == true && SameGroups(old(params.s), params.s)
    ensures |params.s| == |old(params.s)| && AllIds(params.s) == AllIds(old(params.s))
    ensures forall g :: g in old(params.s) <==> g in params.s
  {
    var c := params.Nth(i);
    var n := params.Nth(j);
    if c != null && n != null && i < j {
      ghost var s := params.s;
      params.SwopGroups(c, n, i, j);
      ResortedIds(s, params.s, c, n);
    }
  }

  /** One event (setup_conn, on_response, on_trigger with reconnect); `ok` is false when it ends the connection. */
  method Handle(params: Params, client: Client, cache: Entry, e: Event, ghost full: set<nat>, ghost n: nat)
    returns (ok: bool, again: nat)
    requires InUse(params, client, full, n)
    modifies params`dp, params`s, params.s, client, cache
    ensures old(client.dpMask) <= client.dpMask && again <= 1 && SameGroups(old(params.s), params.s)
    ensures ok ==> InUse(params, client, full, n + again)
  {
    again := 0;
    match e
    case Setup(adm) =>
      ok := Choose(params, client, adm, full, n);
    case Response =>
      assert client.dpMask + {client.dp.id} + {client.dp.id} == client.dpMask + {client.dp.id};
      ghost var p := Position(params.s, client.dp);
      assert params.s[p].id in AllIds(params.s);
      client.dpMask := client.dpMask + {client.dp.id};
      ok := true;
    case Failure(typ, canReconn, adm) =>
      ok := Retry(params, client, cache, typ, canReconn, adm, full, n);
      again := if ok then 1 else 0;
    case Elsewhere(i, j) =>
      SwapElsewhere(params, i, j);
      ok := true;
  }

  /** The first choice of a group, when the client has none yet. */
  method Begin(params: Params, client: Client, adm: nat -> bool, ghost full: set<nat>) returns (ok: bool)
    requires params.Valid() && params.dpFullMask == AllIds(params.s) == full && |params.s| > 0
    requires client.dp == null && client.dpMask <= full
    modifies client
    ensures old(client.dpMask) <= client.dpMask
    ensures ok ==> InUse(params, client, full, 0)
  {
    ghost var s, mask := params.s, client.dpMask;
    ghost var suits := Suiting(s, null, client.detect, adm);
    var r := FindDp(params, client, adm, 0);
    if r == null {
      return false;
    }
    UsedUp(s, 0, mask, suits, client.dpMask, r);
    client.dp := r;
    MoreUsed({r.id}, client.dpMask + {r.id});
    return true;
  }

  /**
    Every run of a connection through any events, with no group chosen at first or with the group,
    the mask and the errors that the cache remembers for the address: groups used up stay used up,
    and there are fewer reconnects than groups.
  */
  method Live(params: Params, client: Client, cache: Entry, adm: nat -> bool, events: seq<Event>)
    returns (reconnects: nat)
    requires params.Valid() && params.dpFullMask == AllIds(params.s) && |params.s| > 0
    requires client.dpMask <= params.dpFullMask && (client.dp != null ==> client.dp in params.s)
    modifies params`dp, params`s, params.s, client, cache
    ensures old(client.dpMask) <= client.dpMask
    ensures reconnects <= old(|params.s|) - 1
  {
    ghost var full := params.dpFullMask;
    CountIds(params.s, |params.s|);
    reconnects := 0;
    var ok;
    if client.dp == null {
      ok := Begin(params, client, adm, full);
    } else {
      ok := Choose(params, client, adm, full, 0);
    }
    var i := 0;
    while ok && i < |events|
      invariant old(client.dpMask) <= client.dpMask && SameGroups(old(params.s), params.s)
      invariant ok ==> InUse(params, client, full, reconnects)
      invariant reconnects < |full|
    {
      SameMembers(old(params.s), params.s);
      var again;
      ok, again := Handle(params, client, cache, events[i], full, reconnects);
      if ok {
        MoreUsed(client.dpMask + {client.dp.id}, full);
        reconnects := reconnects + again;
      }
      i := i + 1;
    }
  }
}
