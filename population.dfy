/** The two-row population shared by `EA.population_init` and
    `Replacement.fifo`: row 0 holds fitness values, row 1 the tours, and
    column `i` is population member `i`. */
module Populations {
  import opened Tours
  import opened CostFunction

  datatype Population = Population(fitness: seq<int>, tours: seq<seq<int>>)

  /** Both rows have one entry per member. */
  predicate WellFormed(pop: Population)
  {
    |pop.fitness| == |pop.tours|
  }

  function Size(pop: Population): nat
  {
    |pop.fitness|
  }

  /** Every fitness value is the cost of its tour under `d`, computed with
      `num_cities == len(d)` as both callers do. */
  predicate Lockstep(d: Matrix, pop: Population)
  {
    WellFormed(pop) &&
    forall i :: 0 <= i < |pop.tours| ==>
      CostDefined(d, pop.tours[i], |d|) && pop.fitness[i] == Cost(d, pop.tours[i], |d|)
  }

  /** A tour of all cities of a square matrix can be costed. */
  lemma TourCostDefined(d: Matrix, t: seq<int>)
    requires IsSquare(d) && IsTour(t, |d|)
    ensures CostDefined(d, t, |d|)
  {
  }

  /** Member `idx` replaced by (`fit`, `tour`) in both rows; every other
      member unchanged. */
  function Overwrite(pop: Population, idx: int, fit: int, tour: seq<int>): (r: Population)
    requires WellFormed(pop) && 0 <= idx < Size(pop)
    ensures WellFormed(r) && Size(r) == Size(pop)
    ensures r.fitness[idx] == fit && r.tours[idx] == tour
    ensures forall j :: 0 <= j < Size(pop) && j != idx ==>
      r.fitness[j] == pop.fitness[j] && r.tours[j] == pop.tours[j]
  {
    Population(pop.fitness[idx := fit], pop.tours[idx := tour])
  }

  /** Overwriting a member with a tour and that tour's own cost keeps every
      fitness in step with its tour. */
  lemma OverwriteKeepsLockstep(d: Matrix, pop: Population, idx: int, tour: seq<int>)
    requires Lockstep(d, pop) && 0 <= idx < Size(pop) && CostDefined(d, tour, |d|)
    ensures Lockstep(d, Overwrite(pop, idx, Cost(d, tour, |d|), tour))
  {
    var r := Overwrite(pop, idx, Cost(d, tour, |d|), tour);
    forall i | 0 <= i < |r.tours|
      ensures CostDefined(d, r.tours[i], |d|) && r.fitness[i] == Cost(d, r.tours[i], |d|)
    {
      if i != idx {
        assert r.tours[i] == pop.tours[i];
      }
    }
  }

  /** A wrong fitness at the overwritten position breaks the lockstep:
      the invariant pins the fitness entry down exactly. */
  lemma OverwriteWrongFitness(d: Matrix, pop: Population, idx: int, fit: int, tour: seq<int>)
    requires WellFormed(pop) && 0 <= idx < Size(pop) && CostDefined(d, tour, |d|)
    requires fit != Cost(d, tour, |d|)
    ensures !Lockstep(d, Overwrite(pop, idx, fit, tour))
  {
    var r := Overwrite(pop, idx, fit, tour);
    assert r.tours[idx] == tour;
  }
}
