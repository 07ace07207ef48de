/** The half-open hour-interval test every component uses. */
module Intervalos {

  /** `[s1, e1)` and `[s2, e2)` share an hour: `s1 < e2 && e1 > s2`. */
  predicate Solapa(s1: int, e1: int, s2: int, e2: int) {
    s1 < e2 && e1 > s2
  }

  /** The test is symmetric, and blocks that only touch do not overlap. */
  lemma SolapaSimetrica(s1: int, e1: int, s2: int, e2: int)
    ensures Solapa(s1, e1, s2, e2) <==> Solapa(s2, e2, s1, e1)
    ensures e1 == s2 ==> !Solapa(s1, e1, s2, e2)
  {
  }
}
