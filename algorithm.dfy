/** `EA.population_init` of `Algorithm/__init__.py`. The distance matrix `D`
    (built from the TSPLIB file by `adjacency_matrix`) and the tours drawn by
    `RNG.permutation(range(len(D)))` are parameters. */
module Algorithm {
  import opened Tours
  import opened CostFunction
  import opened Populations
  import CrossoverOperator

  class EA {
    const populationSize: int
    const tournamentSize: int
    const mutationType: string
    const crossoverType: string

    /** The defaults of `EA.__init__`: `mutationType='singleSwap'`, `crossoverType='crossoverWithFix'`. */
    constructor (populationSize: int, tournamentSize: int,
                 mutationType: string := "singleSwap", crossoverType: string := "crossoverWithFix")
      ensures this.populationSize == populationSize && this.tournamentSize == tournamentSize
      ensures this.mutationType == mutationType && this.crossoverType == crossoverType
    {
      this.populationSize := populationSize;
      this.tournamentSize := tournamentSize;
      this.mutationType := mutationType;
      this.crossoverType := crossoverType;
    }

    /** `population_init`: a 2 x populationSize array whose column `i` is the
        `i`-th drawn tour and its cost. */
    method PopulationInit(d: Matrix, perms: seq<seq<int>>) returns (population: Population)
      requires IsSquare(d) && populationSize >= 0 && |perms| == populationSize
      requires forall i :: 0 <= i < |perms| ==> IsTour(perms[i], |d|)
      ensures WellFormed(population) && Size(population) == populationSize
      ensures population.tours == perms
      ensures forall i :: 0 <= i < Size(population) ==> IsTour(population.tours[i], |d|)
      ensures Lockstep(d, population)
    {
      var fitness := new int[populationSize](_ => 0);
      var tours := new seq<int>[populationSize](_ => []);
      for i := 0 to populationSize
        invariant forall k :: 0 <= k < i ==> tours[k] == perms[k]
        invariant forall k :: 0 <= k < i ==> CostDefined(d, tours[k], |d|) && fitness[k] == Cost(d, tours[k], |d|)
        invariant forall k :: i <= k < populationSize ==> tours[k] == [] && fitness[k] == 0
      {
        tours[i] := perms[i];
        TourCostDefined(d, tours[i]);
        fitness[i] := ComputeCost(d, tours[i], |d|);
      }
      population := Population(fitness[..], tours[..]);
      assert tours[..] == perms;
    }
  }

  /** The default crossover name of `EA.__init__` is not one `processCrossover`
      accepts: an `EA` built with the defaults would have its crossover rejected. */
  lemma DefaultCrossoverRejected()
    ensures CrossoverOperator.ParseCrossoverType("crossoverWithFix").None?
    ensures forall t :: CrossoverOperator.Name(t) != "crossoverWithFix"
  {
  }
}
