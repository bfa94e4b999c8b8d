/** The best-so-far bookkeeping of GeneticAlgorithm (soft_bisim.go:319-364).
    rand.Float64 is an oracle `rng` read at consecutive positions. The search is
    written for any score function and then applied to FitnessFunction; it
    also returns every candidate it evaluated, with its score, in evaluation
    order, so that the contract can speak about them. */
module Genetic {
  import opened Costs
  import opened Fitness

  /** Position of the first greatest score: the candidate a strict `>` update
      keeps when the scores arrive in this order. */
  function BestIndex(scores: seq<real>): (b: nat)
    requires |scores| > 0
    ensures b < |scores|
    ensures forall k :: 0 <= k < |scores| ==> scores[k] <= scores[b]
    ensures forall k :: 0 <= k < b ==> scores[k] < scores[b]
  {
    if |scores| == 1 then 0
    else
      var b := BestIndex(scores[..|scores| - 1]);
      if scores[|scores| - 1] > scores[b] then |scores| - 1 else b
  }

  /** The first greatest score is unique: any position holding a greatest score
      with only smaller scores before it is BestIndex. */
  lemma BestIndexUnique(scores: seq<real>, b: nat)
    requires b < |scores|
    requires forall k :: 0 <= k < |scores| ==> scores[k] <= scores[b]
    requires forall k :: 0 <= k < b ==> scores[k] < scores[b]
    ensures b == BestIndex(scores)
  {
  }

  /** Scoring one more candidate moves the best to it exactly when its score is
      strictly greater than the best so far. */
  lemma BestIndexAppend(scores: seq<real>, x: real)
    requires |scores| > 0
    ensures BestIndex(scores + [x]) == if x > scores[BestIndex(scores)] then |scores| else BestIndex(scores)
  {
    assert (scores + [x])[..|scores|] == scores;
  }

  /** The best score never decreases as more candidates are evaluated, and the
      best candidate changes only to one with a strictly greater score. */
  lemma BestScoreMonotone(scores: seq<real>, n: nat)
    requires 0 < n <= |scores|
    ensures scores[BestIndex(scores[..n])] <= scores[BestIndex(scores)]
    ensures BestIndex(scores) < n ==> BestIndex(scores) == BestIndex(scores[..n])
    ensures BestIndex(scores) >= n ==> scores[BestIndex(scores[..n])] < scores[BestIndex(scores)]
  {
    var pre := scores[..n];
    var b, c := BestIndex(pre), BestIndex(scores);
    assert scores[b] == pre[b];
    if c < n {
      assert pre[c] == scores[c];
      BestIndexUnique(pre, c);
    }
  }

  /** Every candidate of p has all its coefficients in [0,1). */
  predicate AllInUnitInterval(p: seq<Weights>) {
    forall k :: 0 <= k < |p| ==> InUnitInterval(p[k])
  }

  /** The probability with which an evaluated candidate is replaced by a fresh
      one (soft_bisim.go:350). */
  const MutationRate := 0.1

  /** The state of the search between two evaluations: the population, the
      next rng position, the best candidate and its score, and (as an
      observation) every candidate evaluated so far with its score. */
  datatype Search = Search(population: seq<Weights>, draw: nat, bestWeights: Weights, bestScore: real,
                           trace: seq<Weights>, scores: seq<real>)

  /** The score of each candidate of a trace, in order. */
  function ScoresOf(score: Weights -> real, trace: seq<Weights>): (r: seq<real>)
    ensures |r| == |trace|
  {
    if |trace| == 0 then [] else ScoresOf(score, trace[..|trace| - 1]) + [score(trace[|trace| - 1])]
  }

  lemma ScoresOfAppend(score: Weights -> real, trace: seq<Weights>, w: Weights)
    ensures ScoresOf(score, trace + [w]) == ScoresOf(score, trace) + [score(w)]
  {
    assert (trace + [w])[..|trace|] == trace;
  }

  lemma {:induction false} ScoresOfPointwise(score: Weights -> real, trace: seq<Weights>)
    ensures forall k :: 0 <= k < |trace| ==> ScoresOf(score, trace)[k] == score(trace[k])
  {
    if |trace| > 0 {
      ScoresOfPointwise(score, trace[..|trace| - 1]);
    }
  }

  /** The population has the given size; the trace holds the candidates scored
      so far with their scores; the best candidate is the first
      greatest-scoring one of the trace. */
  predicate Tracked(s: Search, score: Weights -> real, size: int) {
    && |s.population| == size
    && |s.trace| == |s.scores| >= 1
    && s.scores == ScoresOf(score, s.trace)
    && s.bestWeights == s.trace[BestIndex(s.scores)]
    && s.bestScore == s.scores[BestIndex(s.scores)]
  }

  /** The inner loop over candidates i, i+1, .. of one generation, as a plain
      recursion: after candidate i is scored the next draw is the coin; when
      it comes up (below MutationRate) candidate i is replaced by the nine
      draws that follow it. The result is the population and the next draw
      after the generation (soft_bisim.go:341-362). */
  function Sweep(rng: nat -> real, population: seq<Weights>, draw: nat, i: nat): (r: (seq<Weights>, nat))
    ensures |r.0| == |population|
    decreases |population| - i
  {
    if i >= |population| then (population, draw)
    else if rng(draw) < MutationRate then Sweep(rng, population[i := FromDraws(rng, draw + 1)], draw + 10, i + 1)
    else Sweep(rng, population, draw + 1, i + 1)
  }

  /** A generation keeps the size of the population and puts only draws from
      [0,1) into it, and it reads at least one draw per candidate. */
  lemma {:induction false} SweepKeeps(rng: nat -> real, population: seq<Weights>, draw: nat, i: nat)
    requires forall n: nat :: 0.0 <= rng(n) < 1.0
    requires AllInUnitInterval(population)
    ensures |Sweep(rng, population, draw, i).0| == |population|
    ensures AllInUnitInterval(Sweep(rng, population, draw, i).0)
    ensures Sweep(rng, population, draw, i).1 >= draw + (|population| - i)
    decreases |population| - i
  {
    if i < |population| {
      if rng(draw) < MutationRate {
        SweepKeeps(rng, population[i := FromDraws(rng, draw + 1)], draw + 10, i + 1);
      } else {
        SweepKeeps(rng, population, draw + 1, i + 1);
      }
    }
  }

  /** The population and the next draw at the start of generation n
      (generation 0 starts from the initial population). */
  function PopulationAt(rng: nat -> real, size: nat, n: nat): (r: (seq<Weights>, nat))
    ensures |r.0| == size
  {
    if n == 0 then (InitialPopulation(rng, size), 9 * size)
    else
      var before := PopulationAt(rng, size, n - 1);
      Sweep(rng, before.0, before.1, 0)
  }

  /** Every candidate the search scores in n generations, in scoring order:
      the initial population[0], then each generation's population in order. */
  function Scored(rng: nat -> real, size: nat, n: nat): (r: seq<Weights>)
    ensures |r| == 1 + Evaluations(n, size)
  {
    if n == 0 then [FromDraws(rng, 0)] else Scored(rng, size, n - 1) + PopulationAt(rng, size, n - 1).0
  }

  /** Every generation starts from a population of the requested size whose
      coefficients lie in [0,1). */
  lemma {:induction false} PopulationAtShape(rng: nat -> real, size: nat, n: nat)
    requires forall n: nat :: 0.0 <= rng(n) < 1.0
    ensures |PopulationAt(rng, size, n).0| == size
    ensures AllInUnitInterval(PopulationAt(rng, size, n).0)
  {
    if n > 0 {
      PopulationAtShape(rng, size, n - 1);
      var before := PopulationAt(rng, size, n - 1);
      SweepKeeps(rng, before.0, before.1, 0);
    }
  }

  /** What is scored: 1 + n * size candidates, all with coefficients in [0,1);
      the first is the initial population[0] and, when there is a generation,
      the next size are the initial population in order. */
  lemma ScoredShape(rng: nat -> real, size: nat, n: nat)
    requires forall n: nat :: 0.0 <= rng(n) < 1.0
    ensures |Scored(rng, size, n)| == 1 + Evaluations(n, size)
    ensures forall k :: 0 <= k < |Scored(rng, size, n)| ==> InUnitInterval(Scored(rng, size, n)[k])
    ensures Scored(rng, size, n)[0] == FromDraws(rng, 0)
    ensures n > 0 ==> |Scored(rng, size, n)| > size && Scored(rng, size, n)[1..1 + size] == InitialPopulation(rng, size)
  {
    forall m: nat | m < n
      ensures AllInUnitInterval(PopulationAt(rng, size, m).0)
    {
      PopulationAtShape(rng, size, m);
    }
    ScoredInUnitInterval(rng, size, n);
    ScoredPrefix(rng, size, n);
  }

  lemma {:induction false} ScoredInUnitInterval(rng: nat -> real, size: nat, n: nat)
    requires InUnitInterval(FromDraws(rng, 0))
    requires forall m: nat :: m < n ==> AllInUnitInterval(PopulationAt(rng, size, m).0)
    ensures AllInUnitInterval(Scored(rng, size, n))
  {
    if n > 0 {
      ScoredInUnitInterval(rng, size, n - 1);
      AppendInUnitInterval(Scored(rng, size, n - 1), PopulationAt(rng, size, n - 1).0);
    }
  }

  lemma AppendInUnitInterval(a: seq<Weights>, b: seq<Weights>)
    requires AllInUnitInterval(a) && AllInUnitInterval(b)
    ensures AllInUnitInterval(a + b)
  {
    forall k | 0 <= k < |a + b| ensures InUnitInterval((a + b)[k]) {
      if k >= |a| {
        assert (a + b)[k] == b[k - |a|];
      }
    }
  }

  lemma {:induction false} ScoredPrefix(rng: nat -> real, size: nat, n: nat)
    ensures Scored(rng, size, n)[0] == FromDraws(rng, 0)
    ensures n > 0 ==> |Scored(rng, size, n)| > size && Scored(rng, size, n)[1..1 + size] == InitialPopulation(rng, size)
  {
    if n > 0 {
      ScoredPrefix(rng, size, n - 1);
      var prev, last := Scored(rng, size, n - 1), PopulationAt(rng, size, n - 1).0;
      if n == 1 {
        AppendSlice(prev, last, 0, 1);
        AppendSlice(prev, last, 1, 1 + size);
      } else {
        EvaluationsAtLeast(n - 1, size);
        AppendSlice(prev, last, 0, 1);
        AppendSlice(prev, last, 1, 1 + size);
      }
    }
  }

  /** A slice of a + b that lies within a or within b is that slice of a or b. */
  lemma AppendSlice(a: seq<Weights>, b: seq<Weights>, lo: nat, hi: nat)
    requires lo <= hi <= |a + b|
    ensures hi <= |a| ==> (a + b)[lo..hi] == a[lo..hi]
    ensures lo == |a| ==> (a + b)[lo..hi] == b[..hi - lo]
  {
  }

  lemma {:induction false} EvaluationsAtLeast(rounds: nat, size: nat)
    requires rounds > 0
    ensures Evaluations(rounds, size) >= size
  {
    if rounds > 1 {
      EvaluationsAtLeast(rounds - 1, size);
    }
  }

  /** One pass of the inner loop body (soft_bisim.go:342-361): score candidate
      i, keep it if it beats the best strictly, then draw the coin and, when it
      comes up, replace the candidate by nine fresh draws. */
  method Visit(score: Weights -> real, rng: nat -> real, s: Search, i: nat) returns (t: Search)
    requires Tracked(s, score, |s.population|) && i < |s.population|
    ensures Tracked(t, score, |s.population|)
    ensures t.trace == s.trace + [s.population[i]]
    ensures t.draw == s.draw + (if rng(s.draw) < MutationRate then 10 else 1)
    ensures t.population == if rng(s.draw) < MutationRate then s.population[i := FromDraws(rng, s.draw + 1)] else s.population
  {
    var population, draw, bestWeights, bestScore := s.population, s.draw, s.bestWeights, s.bestScore;
    var weights := population[i];
    var current := score(weights);
    if current > bestScore {
      bestScore := current;
      bestWeights := weights;
    }

    var coin := rng(draw);
    draw := draw + 1;
    if coin < MutationRate {
      var mutant := FromDraws(rng, draw);
      draw := draw + 9;
      population := population[i := mutant];
    }
    t := Search(population, draw, bestWeights, bestScore, s.trace + [weights], s.scores + [current]);
    ScoreOne(score, s, weights, population, draw);
  }

  /** Scoring one more candidate w, and keeping it only when it beats the best
      strictly, keeps the best-so-far invariant, whatever the population and
      draw position become. */
  lemma ScoreOne(score: Weights -> real, s: Search, w: Weights, p: seq<Weights>, d: nat)
    requires Tracked(s, score, |p|)
    ensures var better := score(w) > s.bestScore;
      Tracked(Search(p, d, if better then w else s.bestWeights, if better then score(w) else s.bestScore,
                     s.trace + [w], s.scores + [score(w)]), score, |p|)
  {
    BestIndexAppend(s.scores, score(w));
    ScoresOfAppend(score, s.trace, w);
  }

  /** One generation: every candidate visited in order (soft_bisim.go:341-362).
      The candidates scored are the population as it stood when the generation
      began, in order, and the population and draw it leaves are Sweep's. */
  method Generation(score: Weights -> real, rng: nat -> real, s: Search, size: int) returns (t: Search)
    requires Tracked(s, score, size)
    ensures Tracked(t, score, size)
    ensures t.trace == s.trace + s.population
    ensures (t.population, t.draw) == Sweep(rng, s.population, s.draw, 0)
  {
    t := s;
    var i := 0;
    while i < size
      invariant 0 <= i <= size
      invariant Tracked(t, score, size)
      invariant t.trace == s.trace + s.population[..i]
      invariant t.population[i..] == s.population[i..]
      invariant Sweep(rng, t.population, t.draw, i) == Sweep(rng, s.population, s.draw, 0)
    {
      t := VisitNext(score, rng, s, t, i, size);
      i := i + 1;
    }
    assert s.population[..i] == s.population;
  }

  /** Generation's loop body: visiting candidate i takes the loop's facts about
      candidates before i to the same facts about candidates up to i. */
  method VisitNext(score: Weights -> real, rng: nat -> real, s: Search, t: Search, i: nat, size: int) returns (u: Search)
    requires i < size && |s.population| == size
    requires Tracked(t, score, size)
    requires t.trace == s.trace + s.population[..i]
    requires t.population[i..] == s.population[i..]
    requires Sweep(rng, t.population, t.draw, i) == Sweep(rng, s.population, s.draw, 0)
    ensures Tracked(u, score, size)
    ensures u.trace == s.trace + s.population[..i + 1]
    ensures u.population[i + 1..] == s.population[i + 1..]
    ensures Sweep(rng, u.population, u.draw, i + 1) == Sweep(rng, s.population, s.draw, 0)
  {
    u := Visit(score, rng, t, i);
    VisitAdvances(rng, s, t, u, i);
  }

  /** The facts of VisitNext about the trace, the population and the draws,
      apart from the best-so-far bookkeeping. */
  lemma VisitAdvances(rng: nat -> real, s: Search, t: Search, u: Search, i: nat)
    requires i < |s.population| == |t.population|
    requires t.trace == s.trace + s.population[..i]
    requires t.population[i..] == s.population[i..]
    requires Sweep(rng, t.population, t.draw, i) == Sweep(rng, s.population, s.draw, 0)
    requires u.trace == t.trace + [t.population[i]]
    requires u.draw == t.draw + (if rng(t.draw) < MutationRate then 10 else 1)
    requires u.population == if rng(t.draw) < MutationRate then t.population[i := FromDraws(rng, t.draw + 1)] else t.population
    ensures u.trace == s.trace + s.population[..i + 1]
    ensures u.population[i + 1..] == s.population[i + 1..]
    ensures Sweep(rng, u.population, u.draw, i + 1) == Sweep(rng, s.population, s.draw, 0)
  {
    assert t.population[i] == s.population[i] by { assert t.population[i..][0] == s.population[i..][0]; }
    SweepStep(rng, t.population, t.draw, i, u.population, u.draw);
    assert s.population[..i + 1] == s.population[..i] + [s.population[i]];
    SuffixStep(t.population, u.population, s.population, i);
  }

  /** One Visit is one step of Sweep, and leaves the candidates after i alone. */
  lemma SweepStep(rng: nat -> real, p: seq<Weights>, d: nat, i: nat, p': seq<Weights>, d': nat)
    requires i < |p|
    requires d' == d + (if rng(d) < MutationRate then 10 else 1)
    requires p' == if rng(d) < MutationRate then p[i := FromDraws(rng, d + 1)] else p
    ensures Sweep(rng, p, d, i) == Sweep(rng, p', d', i + 1)
    ensures |p'| == |p| && p'[i + 1..] == p[i + 1..]
  {
  }

  lemma SuffixStep(p: seq<Weights>, p': seq<Weights>, q: seq<Weights>, i: nat)
    requires i < |p| == |p'| == |q|
    requires p[i..] == q[i..] && p'[i + 1..] == p[i + 1..]
    ensures p'[i + 1..] == q[i + 1..]
  {
    assert p[i + 1..] == p[i..][1..];
    assert q[i + 1..] == q[i..][1..];
  }

  /** The initial population: candidate i is built from draws 9i .. 9i+8
      (soft_bisim.go:321-334). */
  function InitialPopulation(rng: nat -> real, size: nat): (p: seq<Weights>)
    ensures |p| == size
    ensures forall i :: 0 <= i < size ==> p[i] == FromDraws(rng, 9 * i)
    ensures (forall n: nat :: 0.0 <= rng(n) < 1.0) ==> AllInUnitInterval(p)
  {
    seq(size, i requires 0 <= i => FromDraws(rng, 9 * i))
  }

  /** The state before the first generation: the initial population, the
      first candidate as best, scored once (soft_bisim.go:321-337). */
  method Start(score: Weights -> real, rng: nat -> real, size: int) returns (s: Search)
    requires size >= 1
    ensures Tracked(s, score, size)
    ensures s.trace == [FromDraws(rng, 0)]
    ensures s.population == InitialPopulation(rng, size) && s.draw == 9 * size
  {
    var population := InitialPopulation(rng, size);
    var bestWeights := population[0];
    var bestScore := score(bestWeights);
    assert BestIndex([bestScore]) == 0;
    s := Search(population, 9 * size, bestWeights, bestScore, [bestWeights], [bestScore]);
  }

  /** The number of candidates scored in `rounds` generations of `size`. */
  function Evaluations(rounds: nat, size: nat): nat {
    if rounds == 0 then 0 else Evaluations(rounds - 1, size) + size
  }

  lemma {:induction false} EvaluationsProduct(rounds: nat, size: nat)
    ensures Evaluations(rounds, size) == rounds * size
  {
    if rounds > 0 {
      EvaluationsProduct(rounds - 1, size);
    }
  }

  /** One Generation takes the search from the state the reference definition
      gives for generation n to the one it gives for generation n + 1. */
  lemma GenerationAdvances(rng: nat -> real, size: nat, n: nat, s: Search, t: Search)
    requires s.trace == Scored(rng, size, n) && (s.population, s.draw) == PopulationAt(rng, size, n)
    requires t.trace == s.trace + s.population && (t.population, t.draw) == Sweep(rng, s.population, s.draw, 0)
    ensures t.trace == Scored(rng, size, n + 1) && (t.population, t.draw) == PopulationAt(rng, size, n + 1)
  {
  }

  /** The number of generations the outer loop runs: none when iterations <= 0. */
  function Rounds(iterations: int): (n: nat)
    ensures iterations > 0 ==> n == iterations
    ensures iterations <= 0 ==> n == 0
  {
    if iterations > 0 then iterations else 0
  }

  /** ScoredShape with the count of scored candidates as a product. */
  lemma ScoredLength(rng: nat -> real, size: nat, n: nat)
    requires forall n: nat :: 0.0 <= rng(n) < 1.0
    ensures |Scored(rng, size, n)| == 1 + n * size
    ensures forall k :: 0 <= k < |Scored(rng, size, n)| ==> InUnitInterval(Scored(rng, size, n)[k])
    ensures Scored(rng, size, n)[0] == FromDraws(rng, 0)
    ensures n > 0 ==> |Scored(rng, size, n)| > size && Scored(rng, size, n)[1..1 + size] == InitialPopulation(rng, size)
  {
    ScoredShape(rng, size, n);
    EvaluationsProduct(n, size);
  }

  /** The source's search for any score function. The population is drawn
      from positions 0 .. 9P-1 of rng; after scoring a candidate the next value
      decides whether it is replaced by nine fresh draws. The result is the
      first candidate, in scoring order, with the greatest score. */
  method Evolve(score: Weights -> real, iterations: int, populationSize: int, rng: nat -> real)
    returns (best: Weights, trace: seq<Weights>, scores: seq<real>)
    requires populationSize >= 1
    requires forall n: nat :: 0.0 <= rng(n) < 1.0
    ensures |trace| == |scores| > 0
    ensures trace == Scored(rng, populationSize, Rounds(iterations))
    ensures |trace| == 1 + Rounds(iterations) * populationSize
    ensures iterations > 0 ==> |trace| > populationSize && trace[1..1 + populationSize] == InitialPopulation(rng, populationSize)
    ensures trace[0] == FromDraws(rng, 0)
    ensures forall k :: 0 <= k < |trace| ==> InUnitInterval(trace[k]) && scores[k] == score(trace[k])
    ensures best == trace[BestIndex(scores)]
    ensures forall k :: 0 <= k < |trace| ==> score(trace[k]) <= score(best)
    ensures iterations <= 0 ==> best == FromDraws(rng, 0)
    ensures InUnitInterval(best)
  {
    var rounds := Rounds(iterations);
    var s := Run(score, rng, populationSize, rounds);
    SearchOutcome(score, rng, populationSize, rounds, s);
    best, trace, scores := s.bestWeights, s.trace, s.scores;
  }

  /** The outer loop (soft_bisim.go:340-363): `rounds` generations from the
      initial state. */
  method Run(score: Weights -> real, rng: nat -> real, size: int, rounds: nat) returns (s: Search)
    requires size >= 1
    ensures Tracked(s, score, size)
    ensures s.trace == Scored(rng, size, rounds)
  {
    s := Start(score, rng, size);
    var iteration := 0;
    while iteration < rounds
      invariant 0 <= iteration <= rounds
      invariant Tracked(s, score, size)
      invariant s.trace == Scored(rng, size, iteration)
      invariant (s.population, s.draw) == PopulationAt(rng, size, iteration)
    {
      var t := Generation(score, rng, s, size);
      GenerationAdvances(rng, size, iteration, s, t);
      s := t;
      iteration := iteration + 1;
    }
  }

  /** What the final state of the search says about the candidates scored and
      the one returned. */
  lemma SearchOutcome(score: Weights -> real, rng: nat -> real, size: nat, rounds: nat, s: Search)
    requires forall n: nat :: 0.0 <= rng(n) < 1.0
    requires Tracked(s, score, size) && s.trace == Scored(rng, size, rounds)
    ensures |s.trace| == |s.scores| == 1 + rounds * size
    ensures rounds > 0 ==> |s.trace| > size && s.trace[1..1 + size] == InitialPopulation(rng, size)
    ensures s.trace[0] == FromDraws(rng, 0)
    ensures forall k :: 0 <= k < |s.trace| ==> InUnitInterval(s.trace[k]) && s.scores[k] == score(s.trace[k])
    ensures s.bestWeights == s.trace[BestIndex(s.scores)]
    ensures forall k :: 0 <= k < |s.trace| ==> score(s.trace[k]) <= score(s.bestWeights)
    ensures rounds == 0 ==> s.bestWeights == FromDraws(rng, 0)
    ensures InUnitInterval(s.bestWeights)
  {
    ScoredLength(rng, size, rounds);
    ScoresOfPointwise(score, s.trace);
  }

  /** GeneticAlgorithm (soft_bisim.go:319-364): the search scored by
      FitnessFunction on the training pairs. The result is the initial first
      candidate or one that was scored, and its fitness is at least that of
      every candidate scored. */
  method GeneticAlgorithm(data: seq<(string, string)>, normalize: string -> string, iterations: int,
                          populationSize: int, rng: nat -> real)
    returns (best: Weights, trace: seq<Weights>, scores: seq<real>)
    requires populationSize >= 1
    requires |data| > 0 && PairsDefined(data)
    requires forall n: nat :: 0.0 <= rng(n) < 1.0
    ensures |trace| == |scores| == 1 + Rounds(iterations) * populationSize
    ensures trace == Scored(rng, populationSize, Rounds(iterations))
    ensures trace[0] == FromDraws(rng, 0)
    ensures forall k :: 0 <= k < |trace| ==> scores[k] == FitnessFunction(data, trace[k], normalize)
    ensures best == trace[BestIndex(scores)]
    ensures forall k :: 0 <= k < |trace| ==> FitnessFunction(data, trace[k], normalize) <= FitnessFunction(data, best, normalize)
    ensures iterations <= 0 ==> best == FromDraws(rng, 0)
    ensures InUnitInterval(best)
  {
    best, trace, scores := Evolve(w => FitnessFunction(data, w, normalize), iterations, populationSize, rng);
  }
}
