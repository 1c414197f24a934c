/** Caching states of a lease as 32-bit flag sets. */
module LeaseStates {

  type LeaseState = bv32

  const READ_CACHING: LeaseState := 0x01
  const WRITE_CACHING: LeaseState := 0x02
  const HANDLE_CACHING: LeaseState := 0x04

  predicate HasWrite(s: LeaseState) {
    s & WRITE_CACHING != 0
  }

  predicate Subset(a: LeaseState, b: LeaseState) {
    a & !b == 0
  }

  function WithoutWrite(s: LeaseState): LeaseState {
    s & !WRITE_CACHING
  }

  lemma WithoutWriteIsSubset(s: LeaseState)
    ensures !HasWrite(WithoutWrite(s)) && Subset(WithoutWrite(s), s)
  {
  }

  lemma WithoutWriteTwice(s: LeaseState)
    ensures WithoutWrite(WithoutWrite(s)) == WithoutWrite(s)
  {
  }

  lemma WithoutWriteIsGreatest(t: LeaseState, s: LeaseState)
    requires Subset(t, s) && !HasWrite(t)
    ensures Subset(t, WithoutWrite(s))
  {
  }

  lemma SubsetBounds(s: LeaseState)
    ensures Subset(0, s) && Subset(s, s) && !HasWrite(0)
    ensures Subset(s, 0) ==> s == 0
  {
  }

  lemma SubsetAntisymmetric(a: LeaseState, b: LeaseState)
    requires Subset(a, b) && Subset(b, a)
    ensures a == b
  {
  }

  lemma SubsetTransitive(a: LeaseState, b: LeaseState, c: LeaseState)
    requires Subset(a, b) && Subset(b, c)
    ensures Subset(a, c)
  {
  }

  /** calculate_break_state: what a lease must fall back to for a request. */
  function BreakState(existing: LeaseState, requested: LeaseState): LeaseState {
    if requested & WRITE_CACHING != 0 then
      if existing & READ_CACHING != 0 then READ_CACHING else 0
    else if requested & HANDLE_CACHING != 0 then existing & (READ_CACHING | WRITE_CACHING)
    else existing & !WRITE_CACHING
  }

  /**
   The break-to state never adds a flag, and takes write caching away unless the request
   is for handle caching without write caching.
   */
  lemma BreakStateFalls(existing: LeaseState, requested: LeaseState)
    ensures Subset(BreakState(existing, requested), existing)
    ensures HasWrite(BreakState(existing, requested)) <==>
            HasWrite(existing) && !HasWrite(requested) && requested & HANDLE_CACHING != 0
  {
  }

  /**
   Read caching always stays; handle caching and flags without a meaning stay only for a request
   of neither write nor handle caching.
   */
  lemma BreakStateKeeps(existing: LeaseState, requested: LeaseState)
    ensures BreakState(existing, requested) & READ_CACHING == existing & READ_CACHING
    ensures BreakState(existing, requested) & HANDLE_CACHING ==
            if !HasWrite(requested) && requested & HANDLE_CACHING == 0 then existing & HANDLE_CACHING else 0
    ensures BreakState(existing, requested) & 0xFFFF_FFF8 ==
            if !HasWrite(requested) && requested & HANDLE_CACHING == 0 then existing & 0xFFFF_FFF8 else 0
  {
  }

  /** A lease with read caching alone is never broken: every request leaves it as it is. */
  lemma ReadLeaseStays(requested: LeaseState)
    ensures BreakState(READ_CACHING, requested) == READ_CACHING
  {
  }
}
