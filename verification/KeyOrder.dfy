/**
  What a search tree needs of a comparator that is not a total order.

  `cmp(a, b) == 0` means that one key is a prefix (a parent domain) of the other, or both are
  equal; it is not transitive. The laws below are the ones under which the search is exact.
*/
module KeyOrder {
  import opened Keys

  function Sgn(x: int): int {
    if x < 0 then -1 else if x > 0 then 1 else 0
  }

  /** One key is a prefix or a parent domain of the other, or both are equal. */
  predicate Related(cmp: Cmp, a: Key, b: Key) {
    cmp(a, b) == 0
  }

  /** `a` is related to `b` and not longer: it covers all that `b` covers. */
  predicate Covers(cmp: Cmp, a: Key, b: Key) {
    Related(cmp, a, b) && a.len <= b.len
  }

  ghost predicate Reflexive(cmp: Cmp, u: iset<Key>) {
    forall a :: a in u ==> cmp(a, a) == 0
  }

  ghost predicate Antisymmetric(cmp: Cmp, u: iset<Key>) {
    forall a, b :: a in u && b in u ==> Sgn(cmp(a, b)) == -Sgn(cmp(b, a))
  }

  /** Keys unrelated to each other are in an order that every comparison with a third key respects. */
  ghost predicate Monotone(cmp: Cmp, u: iset<Key>) {
    forall a, b, c :: a in u && b in u && c in u && cmp(a, b) < 0 ==> Sgn(cmp(c, b)) <= Sgn(cmp(c, a))
  }

  ghost predicate Transitive(cmp: Cmp, u: iset<Key>) {
    forall a, b, c :: a in u && b in u && c in u && Covers(cmp, a, b) && Covers(cmp, b, c) ==> Covers(cmp, a, c)
  }

  ghost predicate Lawful(cmp: Cmp, u: iset<Key>) {
    Reflexive(cmp, u) && Antisymmetric(cmp, u) && Monotone(cmp, u) && Transitive(cmp, u)
  }
}
