/** How many places below a bound satisfy a condition. */
module Counting {

  function Places(p: nat -> bool, n: nat): set<nat> {
    set i: nat | i < n && p(i)
  }

  /** One more place counts exactly if it satisfies the condition. */
  lemma PlacesNext(p: nat -> bool, n: nat)
    ensures Places(p, 0) == {}
    ensures |Places(p, n + 1)| == |Places(p, n)| + if p(n) then 1 else 0
  {
    if p(n) {
      assert Places(p, n + 1) == Places(p, n) + {n};
    } else {
      assert Places(p, n + 1) == Places(p, n);
    }
  }
}
