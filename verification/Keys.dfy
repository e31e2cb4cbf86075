/**
 Keys for definitions that the verifier should look into only where it is told to. A guarded definition
 reads `forall k {:trigger See(k)} :: k == INSIDE ==> ...`; a proof that mentions See(INSIDE) sees it.
 Where a definition is a family over an index, the index itself is the key.
 */
module Keys {
  predicate See(k: int) {
    true
  }

  predicate SeeSlot(x: nat, i: nat) {
    true
  }

  const INSIDE: int := -1
  const WITHIN: int := -2 // a second key, where a proof must open one definition and not another
  const AROUND: int := -3
}
