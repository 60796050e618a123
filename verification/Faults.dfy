/**
 * Operations on the host (SQL statements, commits, unlink, directory sync, file writes) may each fail.
 * An oracle says whether the operation at a given tick succeeds; every theorem is for every oracle.
 */
module Faults {

  type Oracle = nat -> bool

  /** One for removals of queued files, one for the SQL and the sync of drains, one for everything else. */
  datatype Oracles = Oracles(general: Oracle, drains: Oracle, unlinks: Oracle)

  /** No operation between ticks `a` and `b` failed. */
  ghost predicate Faultless(oracle: Oracle, a: nat, b: nat)
  {
    forall t: nat :: a <= t < b ==> oracle(t)
  }

  lemma FaultlessJoin(oracle: Oracle, a: nat, b: nat, c: nat)
    requires a <= b <= c
    ensures Faultless(oracle, a, c) <==> Faultless(oracle, a, b) && Faultless(oracle, b, c)
  {
  }
}
