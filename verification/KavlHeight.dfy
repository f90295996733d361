/**
  The AVL height bound, and what it means for the fixed arrays of kavl.h: `path`, `dir`,
  `stack` and the iterator stack have KAVL_MAX_DEPTH entries and no index is checked.
*/
module KavlHeight {
  import opened KavlTree

  const KAVL_MAX_DEPTH: nat := 64
  const UINT_RANGE: nat := 0x1_0000_0000

  ghost function Fib(n: nat): nat {
    if n < 2 then n else Fib(n - 2) + Fib(n - 1)
  }

  lemma {:induction false} FibGrows(m: nat, n: nat)
    requires m <= n
    ensures Fib(m) <= Fib(n)
    decreases n
  {
    if m < n {
      FibGrows(m, n - 1);
    }
  }

  /** The sparsest AVL trees are the Fibonacci trees. */
  lemma {:induction false} FibHeight(h: Heap, p: Elem?, t: Tree)
    requires Good(h, p, t)
    ensures Count(t) + 1 >= Fib(Ht(t) + 2)
  {
    match t
    case Leaf =>
    case Node(l, e, r) =>
      FibHeight(h, h[e].p.l, l);
      FibHeight(h, h[e].p.r, r);
      FibStep(Ht(l), Ht(r), Count(l), Count(r));
  }

  lemma FibStep(a: nat, b: nat, m: nat, n: nat)
    requires -1 <= a - b <= 1
    requires m + 1 >= Fib(a + 2) && n + 1 >= Fib(b + 2)
    ensures m + n + 2 >= Fib(Max(a, b) + 3)
  {
    var hi, lo := Max(a, b), if a < b then a else b;
    FibGrows(hi + 1, lo + 2);
    assert Fib(hi + 3) == Fib(hi + 1) + Fib(hi + 2);
  }

  /** Fib(47) + Fib(48) by doubling. */
  lemma Fib48()
    ensures Fib(48) == 4807526976
  {
    assert Fib(8) == 21 && Fib(9) == 34;
    assert Fib(16) == 987 && Fib(17) == 1597;
    assert Fib(24) == 46368 && Fib(25) == 75025;
    assert Fib(32) == 2178309 && Fib(33) == 3524578;
    assert Fib(40) == 102334155 && Fib(41) == 165580141;
  }

  /** A tree whose node count fits the 32-bit `size` field is at most 45 levels high. */
  lemma HeightBound(h: Heap, p: Elem?, t: Tree)
    requires Good(h, p, t) && Count(t) < UINT_RANGE
    ensures Ht(t) <= 45
  {
    FibHeight(h, p, t);
    if Ht(t) > 45 {
      FibGrows(48, Ht(t) + 2);
      Fib48();
    }
  }
}
