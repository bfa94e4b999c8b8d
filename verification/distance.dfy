/** The weighted bigram edit-distance recurrence of SoftBisimDistance
    (soft_bisim.go:252-296), as a recursive specification, lemmas about it, and
    the matrix-filling loop of the source proved equal to it. */
module Distance {
  import opened Costs
  import opened Text

  /** math.Min on exact reals. */
  function Min(a: real, b: real): (m: real)
    ensures m <= a && m <= b
    ensures m == a || m == b
  {
    if a <= b then a else b
  }

  /** Bigrams i and j (1-based) are an adjacent swap of the two before them. */
  predicate Transposed(A: seq<string>, B: seq<string>, i: nat, j: nat)
    requires i <= |A| && j <= |B|
  {
    i > 1 && j > 1 && A[i - 1] == B[j - 2] && A[i - 2] == B[j - 1]
  }

  /** The substitution cost of two different bigrams: CaseChange when they agree
      after lower-casing, Replace otherwise. */
  function SubstitutionCost(a: string, b: string, w: Weights): real {
    if Lower(a) == Lower(b) then w.CaseChange else w.Replace
  }

  /** One interior cell (i, j > 0) from its neighbours: the diagonal, the cell
      above, the cell to the left and the cell two steps back diagonally (only
      read when the bigrams are transposed). */
  function Cell(A: seq<string>, B: seq<string>, w: Weights, i: nat, j: nat,
                diag: real, up: real, left: real, diag2: real): real
    requires 0 < i <= |A| && 0 < j <= |B|
  {
    if A[i - 1] == B[j - 1] then diag + w.Match
    else
      var best := Min(Min(up + w.Delete, left + w.Insert), diag + SubstitutionCost(A[i - 1], B[j - 1], w));
      if Transposed(A, B, i, j) then Min(best, diag2 + w.Transposition) else best
  }

  /** Cell (i, j) of the distance matrix: the cost of turning the first i bigrams
      of A into the first j bigrams of B. */
  function Dist(A: seq<string>, B: seq<string>, w: Weights, i: nat, j: nat): real
    requires i <= |A| && j <= |B|
    decreases i + j
  {
    if i == 0 then j as real * w.Insert
    else if j == 0 then i as real * w.Delete
    else Cell(A, B, w, i, j, Dist(A, B, w, i - 1, j - 1), Dist(A, B, w, i - 1, j), Dist(A, B, w, i, j - 1),
              if i > 1 && j > 1 then Dist(A, B, w, i - 2, j - 2) else 0.0)
  }

  lemma CellMonotone(A: seq<string>, B: seq<string>, v: Weights, w: Weights, i: nat, j: nat,
                     d: real, u: real, l: real, t: real, d': real, u': real, l': real, t': real)
    requires 0 < i <= |A| && 0 < j <= |B|
    requires UsedCostsAtMost(v, w) && d <= d' && u <= u' && l <= l' && t <= t'
    ensures Cell(A, B, v, i, j, d, u, l, t) <= Cell(A, B, w, i, j, d', u', l', t')
  {
  }

  lemma CellSwapped(A: seq<string>, B: seq<string>, w: Weights, i: nat, j: nat, d: real, u: real, l: real, t: real)
    requires 0 < i <= |A| && 0 < j <= |B|
    ensures Cell(A, B, w, i, j, d, u, l, t) == Cell(B, A, SwapInsertDelete(w), j, i, d, l, u, t)
  {
  }

  lemma ScaleStep(n: nat, x: real)
    ensures (n + 1) as real * x == n as real * x + x
  {
  }

  lemma ScaleMonotone(n: nat, x: real, y: real)
    requires x <= y
    ensures n as real * x <= n as real * y
  {
  }

  /** The distance between two bigram sequences: the bottom-right cell. */
  function BigramDistance(A: seq<string>, B: seq<string>, w: Weights): real {
    Dist(A, B, w, |A|, |B|)
  }

  /** Row 0 and column 0 hold the pure insertion and pure deletion costs, so an
      empty sequence is n insertions away from one of length n, and n deletions
      in the other direction. */
  lemma Boundary(A: seq<string>, B: seq<string>, w: Weights)
    ensures forall i :: 0 <= i <= |A| ==> Dist(A, B, w, i, 0) == i as real * w.Delete
    ensures forall j :: 0 <= j <= |B| ==> Dist(A, B, w, 0, j) == j as real * w.Insert
    ensures BigramDistance([], B, w) == |B| as real * w.Insert
    ensures BigramDistance(A, [], w) == |A| as real * w.Delete
  {
  }

  /** Equal bigrams take the diagonal plus Match, with no minimum over the other
      moves, even when those would be cheaper. */
  lemma ExactMatchCell(A: seq<string>, B: seq<string>, w: Weights, i: nat, j: nat)
    requires 0 < i <= |A| && 0 < j <= |B| && A[i - 1] == B[j - 1]
    ensures Dist(A, B, w, i, j) == Dist(A, B, w, i - 1, j - 1) + w.Match
  {
  }

  /** Different bigrams: the cell is the least of deletion, insertion and
      substitution, lowered further only by an applicable transposition. */
  lemma MismatchCell(A: seq<string>, B: seq<string>, w: Weights, i: nat, j: nat)
    requires 0 < i <= |A| && 0 < j <= |B| && A[i - 1] != B[j - 1]
    ensures var d := Dist(A, B, w, i, j);
      var del := Dist(A, B, w, i - 1, j) + w.Delete;
      var ins := Dist(A, B, w, i, j - 1) + w.Insert;
      var sub := Dist(A, B, w, i - 1, j - 1) + SubstitutionCost(A[i - 1], B[j - 1], w);
      && d <= del && d <= ins && d <= sub
      && (d == del || d == ins || d == sub || (Transposed(A, B, i, j) && d == Dist(A, B, w, i - 2, j - 2) + w.Transposition))
      && (Transposed(A, B, i, j) ==> d <= Dist(A, B, w, i - 2, j - 2) + w.Transposition)
  {
  }

  lemma {:induction false} IdenticalCells(A: seq<string>, w: Weights, i: nat)
    requires i <= |A|
    ensures Dist(A, A, w, i, i) == i as real * w.Match
  {
    if i > 0 {
      IdenticalCells(A, w, i - 1);
      ScaleStep(i - 1, w.Match);
    }
  }

  /** A sequence against itself is an exact match at every position: n * Match. */
  lemma IdenticalDistance(A: seq<string>, w: Weights)
    ensures BigramDistance(A, A, w) == |A| as real * w.Match
  {
    IdenticalCells(A, w, |A|);
  }

  /** With non-negative costs every cell, and so the distance, is non-negative. */
  lemma {:induction false} DistNonNegative(A: seq<string>, B: seq<string>, w: Weights, i: nat, j: nat)
    requires i <= |A| && j <= |B|
    requires UsedCostsNonNegative(w)
    ensures Dist(A, B, w, i, j) >= 0.0
    decreases i + j
  {
    if i > 0 && j > 0 {
      DistNonNegative(A, B, w, i - 1, j - 1);
      if A[i - 1] != B[j - 1] {
        DistNonNegative(A, B, w, i - 1, j);
        DistNonNegative(A, B, w, i, j - 1);
        if Transposed(A, B, i, j) {
          DistNonNegative(A, B, w, i - 2, j - 2);
        }
      }
    }
  }

  /** Merge, Split and PhoneticChange never affect the distance. */
  lemma {:induction false} DistIgnoresUnusedCosts(A: seq<string>, B: seq<string>, v: Weights, w: Weights, i: nat, j: nat)
    requires i <= |A| && j <= |B|
    requires SameUsedCosts(v, w)
    ensures Dist(A, B, v, i, j) == Dist(A, B, w, i, j)
    decreases i + j
  {
    if i > 0 && j > 0 {
      DistIgnoresUnusedCosts(A, B, v, w, i - 1, j - 1);
      if A[i - 1] != B[j - 1] {
        DistIgnoresUnusedCosts(A, B, v, w, i - 1, j);
        DistIgnoresUnusedCosts(A, B, v, w, i, j - 1);
        if Transposed(A, B, i, j) {
          DistIgnoresUnusedCosts(A, B, v, w, i - 2, j - 2);
        }
      }
    }
  }

  /** Raising any coefficient the recurrence reads never lowers a cell. */
  lemma {:induction false} DistMonotoneInCosts(A: seq<string>, B: seq<string>, v: Weights, w: Weights, i: nat, j: nat)
    requires i <= |A| && j <= |B|
    requires UsedCostsAtMost(v, w)
    ensures Dist(A, B, v, i, j) <= Dist(A, B, w, i, j)
    decreases i + j
  {
    if i == 0 {
      ScaleMonotone(j, v.Insert, w.Insert);
    } else if j == 0 {
      ScaleMonotone(i, v.Delete, w.Delete);
    } else {
      DistMonotoneInCosts(A, B, v, w, i - 1, j - 1);
      DistMonotoneInCosts(A, B, v, w, i - 1, j);
      DistMonotoneInCosts(A, B, v, w, i, j - 1);
      if i > 1 && j > 1 {
        DistMonotoneInCosts(A, B, v, w, i - 2, j - 2);
      }
      CellMonotone(A, B, v, w, i, j,
        Dist(A, B, v, i - 1, j - 1), Dist(A, B, v, i - 1, j), Dist(A, B, v, i, j - 1),
        if i > 1 && j > 1 then Dist(A, B, v, i - 2, j - 2) else 0.0,
        Dist(A, B, w, i - 1, j - 1), Dist(A, B, w, i - 1, j), Dist(A, B, w, i, j - 1),
        if i > 1 && j > 1 then Dist(A, B, w, i - 2, j - 2) else 0.0);
    }
  }

  /** The recurrence is symmetric once Insert and Delete change places. */
  lemma {:induction false} DistSwapped(A: seq<string>, B: seq<string>, w: Weights, i: nat, j: nat)
    requires i <= |A| && j <= |B|
    ensures Dist(A, B, w, i, j) == Dist(B, A, SwapInsertDelete(w), j, i)
    decreases i + j
  {
    if i > 0 && j > 0 {
      DistSwapped(A, B, w, i - 1, j - 1);
      DistSwapped(A, B, w, i - 1, j);
      DistSwapped(A, B, w, i, j - 1);
      if i > 1 && j > 1 {
        DistSwapped(A, B, w, i - 2, j - 2);
      }
      CellSwapped(A, B, w, i, j,
        Dist(A, B, w, i - 1, j - 1), Dist(A, B, w, i - 1, j), Dist(A, B, w, i, j - 1),
        if i > 1 && j > 1 then Dist(A, B, w, i - 2, j - 2) else 0.0);
    }
  }

  /** Two different bigrams that are already lower-case never cost CaseChange. */
  lemma LowerMismatchCostsReplace(a: string, b: string, w: Weights)
    requires IsLower(a) && IsLower(b) && a != b
    ensures SubstitutionCost(a, b, w) == w.Replace
  {
  }

  /** Every bigram of the sequence is free of upper-case letters. */
  predicate AllLower(A: seq<string>) {
    forall k :: 0 <= k < |A| ==> IsLower(A[k])
  }

  /** On lower-case bigrams the CaseChange coefficient never affects the distance. */
  lemma {:induction false} DistIgnoresCaseChange(A: seq<string>, B: seq<string>, w: Weights, c: real, i: nat, j: nat)
    requires i <= |A| && j <= |B| && AllLower(A) && AllLower(B)
    ensures Dist(A, B, w, i, j) == Dist(A, B, w.(CaseChange := c), i, j)
    decreases i + j
  {
    if i > 0 && j > 0 {
      DistIgnoresCaseChange(A, B, w, c, i - 1, j - 1);
      if A[i - 1] != B[j - 1] {
        LowerMismatchCostsReplace(A[i - 1], B[j - 1], w);
        LowerMismatchCostsReplace(A[i - 1], B[j - 1], w.(CaseChange := c));
        DistIgnoresCaseChange(A, B, w, c, i - 1, j);
        DistIgnoresCaseChange(A, B, w, c, i, j - 1);
        if Transposed(A, B, i, j) {
          DistIgnoresCaseChange(A, B, w, c, i - 2, j - 2);
        }
      }
    }
  }

  /** Exchanging the two sequences gives the same distance under the cost
      record with Insert and Delete exchanged. */
  lemma DistanceSymmetric(A: seq<string>, B: seq<string>, w: Weights)
    ensures BigramDistance(A, B, w) == BigramDistance(B, A, SwapInsertDelete(w))
    ensures w.Insert == w.Delete ==> BigramDistance(A, B, w) == BigramDistance(B, A, w)
  {
    DistSwapped(A, B, w, |A|, |B|);
    if w.Insert == w.Delete {
      assert SwapInsertDelete(w) == w;
    }
  }

  /** Whatever the costs, two different bigrams in swapped order are at most
      one Transposition apart: the transposition candidate of cell (2, 2)
      starts from the empty prefix. */
  lemma AdjacentSwapAtMostTransposition(x: string, y: string, w: Weights)
    requires x != y
    ensures BigramDistance([x, y], [y, x], w) <= w.Transposition
  {
    var A, B := [x, y], [y, x];
    assert A[1] != B[1];
    assert Transposed(A, B, 2, 2);
    assert Dist(A, B, w, 0, 0) == 0.0;
  }

  /** Two single bigrams that differ only in case are one substitution at
      CaseChange apart, or a deletion and an insertion when that is cheaper:
      the CaseChange branch of soft_bisim.go:275-277 is taken. */
  lemma CaseChangeCharged(a: string, b: string, w: Weights)
    requires a != b && Lower(a) == Lower(b)
    ensures SubstitutionCost(a, b, w) == w.CaseChange
    ensures BigramDistance([a], [b], w) == Min(w.Insert + w.Delete, w.CaseChange)
  {
    var A, B := [a], [b];
    assert Dist(A, B, w, 0, 1) == w.Insert;
    assert Dist(A, B, w, 1, 0) == w.Delete;
    assert Dist(A, B, w, 0, 0) == 0.0;
  }

  /** An adjacent swap of two bigrams costs one Transposition instead of two
      substitutions: with Match 0, Replace, Insert and Delete 1 and
      Transposition 1/2, ["ab", "ba"] is 1/2 away from ["ba", "ab"]. */
  lemma TranspositionExample(w: Weights)
    requires w.Match == 0.0 && w.Replace == 1.0 && w.Insert == 1.0 && w.Delete == 1.0
    requires w.Transposition == 0.5 && w.CaseChange == 1.0
    ensures BigramDistance(["ab", "ba"], ["ba", "ab"], w) == 0.5
  {
    var A, B := ["ab", "ba"], ["ba", "ab"];
    assert Lower("ab") != Lower("ba") by { assert Lower("ab")[0] == 'a' && Lower("ba")[0] == 'b'; }
    assert Dist(A, B, w, 1, 1) == 1.0;
    assert Dist(A, B, w, 1, 2) == 1.0;
    assert Dist(A, B, w, 2, 1) == 1.0;
    assert Transposed(A, B, 2, 2);
  }

  /** The exact-match rule does not take a minimum: with Match 1 and every other
      cost 0, identical single bigrams are farther apart (1) than different ones (0). */
  lemma ExactMatchNotMinimised(w: Weights)
    requires w.Match == 1.0 && w.Replace == 0.0 && w.Insert == 0.0 && w.Delete == 0.0
    requires w.Transposition == 0.0 && w.CaseChange == 0.0
    ensures BigramDistance(["ab"], ["ab"], w) == 1.0
    ensures BigramDistance(["ab"], ["cd"], w) == 0.0
  {
    assert Dist(["ab"], ["cd"], w, 1, 1) == 0.0;
  }

  /** The body of the source's inner loop for one interior cell, on the
      neighbouring values it reads. */
  method FillCell(A: seq<string>, B: seq<string>, w: Weights, i: nat, j: nat,
                  diag: real, up: real, left: real, diag2: real) returns (cell: real)
    requires 0 < i <= |A| && 0 < j <= |B|
    ensures cell == Cell(A, B, w, i, j, diag, up, left, diag2)
  {
    if A[i - 1] == B[j - 1] {
      cell := diag + w.Match;
    } else {
      var cost := w.Replace;
      if Lower(A[i - 1]) == Lower(B[j - 1]) {
        cost := w.CaseChange;
      }
      cell := Min(Min(up + w.Delete, left + w.Insert), diag + cost);
      if i > 1 && j > 1 && A[i - 1] == B[j - 2] && A[i - 2] == B[j - 1] {
        cell := Min(cell, diag2 + w.Transposition);
      }
    }
  }

  /** The source's matrix fill: boundary column and row, then the interior
      cells row by row. The value returned is the specification's distance. */
  method SoftBisimMatrix(A: seq<string>, B: seq<string>, w: Weights) returns (d: real)
    ensures d == BigramDistance(A, B, w)
  {
    var m, n := |A|, |B|;
    var M := NewMatrix(A, B, w);
    var i := 1;
    while i <= m
      invariant 1 <= i <= m + 1
      invariant forall p, q {:trigger M[p, q]} :: 0 <= p < i && 0 <= q <= n ==> M[p, q] == Dist(A, B, w, p, q)
      invariant forall p {:trigger M[p, 0]} :: i <= p <= m ==> M[p, 0] == Dist(A, B, w, p, 0)
    {
      FillRow(A, B, w, M, i);
      i := i + 1;
    }
    d := M[m, n];
  }

  /** The matrix with its boundary column (i * Delete) and row (j * Insert). */
  method NewMatrix(A: seq<string>, B: seq<string>, w: Weights) returns (M: array2<real>)
    ensures fresh(M) && M.Length0 == |A| + 1 && M.Length1 == |B| + 1
    ensures forall p {:trigger M[p, 0]} :: 0 <= p <= |A| ==> M[p, 0] == Dist(A, B, w, p, 0)
    ensures forall q {:trigger M[0, q]} :: 0 <= q <= |B| ==> M[0, q] == Dist(A, B, w, 0, q)
  {
    var m, n := |A|, |B|;
    M := new real[m + 1, n + 1];
    var i := 0;
    while i <= m
      invariant 0 <= i <= m + 1
      invariant forall p {:trigger M[p, 0]} :: 0 <= p < i ==> M[p, 0] == Dist(A, B, w, p, 0)
    {
      M[i, 0] := i as real * w.Delete;
      i := i + 1;
    }
    var j := 0;
    while j <= n
      invariant 0 <= j <= n + 1
      invariant forall p {:trigger M[p, 0]} :: 1 <= p <= m ==> M[p, 0] == Dist(A, B, w, p, 0)
      invariant forall q {:trigger M[0, q]} :: 0 <= q < j ==> M[0, q] == Dist(A, B, w, 0, q)
    {
      M[0, j] := j as real * w.Insert;
      j := j + 1;
    }
  }

  /** Row i of the interior, left to right, once rows 0 .. i-1 and cell (i, 0) hold. */
  method FillRow(A: seq<string>, B: seq<string>, w: Weights, M: array2<real>, i: nat)
    requires 0 < i <= |A| && M.Length0 == |A| + 1 && M.Length1 == |B| + 1
    requires forall p, q {:trigger M[p, q]} :: 0 <= p < i && 0 <= q <= |B| ==> M[p, q] == Dist(A, B, w, p, q)
    requires forall p {:trigger M[p, 0]} :: i <= p <= |A| ==> M[p, 0] == Dist(A, B, w, p, 0)
    modifies M
    ensures forall p, q {:trigger M[p, q]} :: 0 <= p <= i && 0 <= q <= |B| ==> M[p, q] == Dist(A, B, w, p, q)
    ensures forall p {:trigger M[p, 0]} :: i < p <= |A| ==> M[p, 0] == Dist(A, B, w, p, 0)
  {
    var n := |B|;
    var j := 1;
    while j <= n
      invariant 1 <= j <= n + 1
      invariant forall p, q {:trigger M[p, q]} :: 0 <= p < i && 0 <= q <= n ==> M[p, q] == Dist(A, B, w, p, q)
      invariant forall p {:trigger M[p, 0]} :: i <= p <= |A| ==> M[p, 0] == Dist(A, B, w, p, 0)
      invariant forall q {:trigger M[i, q]} :: 0 <= q < j ==> M[i, q] == Dist(A, B, w, i, q)
    {
      var diag2 := if i > 1 && j > 1 then M[i - 2, j - 2] else 0.0;
      var cell := FillCell(A, B, w, i, j, M[i - 1, j - 1], M[i - 1, j], M[i, j - 1], diag2);
      M[i, j] := cell;
      j := j + 1;
    }
  }
}
