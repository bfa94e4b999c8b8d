/** The cost record of the Soft-Bisim distance (weights.go): nine coefficients,
    modelled as exact reals instead of float64. */
module Costs {

  datatype Weights = Weights(
    Match: real,
    Replace: real,
    Insert: real,
    Delete: real,
    Transposition: real,
    Merge: real,
    Split: real,
    CaseChange: real,
    PhoneticChange: real)

  /** The six coefficients that the distance recurrence actually reads are non-negative. */
  predicate UsedCostsNonNegative(w: Weights) {
    && w.Match >= 0.0 && w.Replace >= 0.0 && w.Insert >= 0.0
    && w.Delete >= 0.0 && w.Transposition >= 0.0 && w.CaseChange >= 0.0
  }

  /** Every coefficient lies in [0,1), the range of Go's rand.Float64. */
  predicate InUnitInterval(w: Weights) {
    && 0.0 <= w.Match < 1.0 && 0.0 <= w.Replace < 1.0 && 0.0 <= w.Insert < 1.0
    && 0.0 <= w.Delete < 1.0 && 0.0 <= w.Transposition < 1.0 && 0.0 <= w.Merge < 1.0
    && 0.0 <= w.Split < 1.0 && 0.0 <= w.CaseChange < 1.0 && 0.0 <= w.PhoneticChange < 1.0
  }

  /** Two cost records agree on every coefficient the recurrence reads. */
  predicate SameUsedCosts(v: Weights, w: Weights) {
    && v.Match == w.Match && v.Replace == w.Replace && v.Insert == w.Insert
    && v.Delete == w.Delete && v.Transposition == w.Transposition && v.CaseChange == w.CaseChange
  }

  /** Every coefficient the recurrence reads is at most as large in v as in w. */
  predicate UsedCostsAtMost(v: Weights, w: Weights) {
    && v.Match <= w.Match && v.Replace <= w.Replace && v.Insert <= w.Insert
    && v.Delete <= w.Delete && v.Transposition <= w.Transposition && v.CaseChange <= w.CaseChange
  }

  /** The same costs with the roles of insertion and deletion exchanged. */
  function SwapInsertDelete(w: Weights): (s: Weights)
    ensures s.Insert == w.Delete && s.Delete == w.Insert
    ensures s.Match == w.Match && s.Replace == w.Replace && s.Transposition == w.Transposition
    ensures s.CaseChange == w.CaseChange
  {
    w.(Insert := w.Delete, Delete := w.Insert)
  }

  /** Builds a cost record from nine consecutive draws of a random source, in the
      field order of the record (soft_bisim.go:323-333 and 351-359). */
  function FromDraws(rng: nat -> real, k: nat): (w: Weights)
    ensures (forall n: nat :: 0.0 <= rng(n) < 1.0) ==> InUnitInterval(w)
  {
    Weights(rng(k), rng(k + 1), rng(k + 2), rng(k + 3), rng(k + 4),
            rng(k + 5), rng(k + 6), rng(k + 7), rng(k + 8))
  }
}
