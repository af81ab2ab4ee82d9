/** FIFO (age-based) replacement of `Algorithm/Replacement.py`. The object
    keeps a cursor `fifoIndex` that each `fifo` call advances, wrapping to 0
    after the last member. The child picked by the random choice between the
    two offspring is the parameter `pickSecond`. */
module ReplacementOperator {
  import opened Tours
  import opened CostFunction
  import opened Populations

  /** The cursor after one `fifo` call on a population of `size` members. */
  function NextCursor(idx: int, size: int): (r: int)
    requires 0 <= idx < size
    ensures 0 <= r < size
    ensures r == (idx + 1) % size
  {
    if idx == size - 1 then 0 else idx + 1
  }

  /** The cursor after `k` consecutive `fifo` calls, each continuing from the
      cursor the previous one returned. */
  function CursorAfter(idx: int, size: int, k: nat): (r: int)
    requires 0 <= idx < size
    ensures 0 <= r < size
  {
    if k == 0 then idx else NextCursor(CursorAfter(idx, size, k - 1), size)
  }

  /** Within one round, `k` calls move the cursor `k` places on, wrapping
      once past the last member. */
  lemma {:induction false} CursorWithinRound(idx: int, size: int, k: nat)
    requires 0 <= idx < size && k <= size
    ensures CursorAfter(idx, size, k) == if idx + k < size then idx + k else idx + k - size
  {
    if k > 0 {
      CursorWithinRound(idx, size, k - 1);
    }
  }

  /** After `size` calls the cursor is back where it started. */
  lemma CursorFullRound(idx: int, size: int)
    requires 0 <= idx < size
    ensures CursorAfter(idx, size, size) == idx
  {
    CursorWithinRound(idx, size, size);
  }

  /** Within one round the cursor visits `size` different members, so every
      member is replaced exactly once per round. */
  lemma CursorRoundDistinct(idx: int, size: int, j: nat, k: nat)
    requires 0 <= idx < size && j < k < size
    ensures CursorAfter(idx, size, j) != CursorAfter(idx, size, k)
  {
    CursorWithinRound(idx, size, j);
    CursorWithinRound(idx, size, k);
  }

  /** The value `applyReplacement` returns: the stub's 0, the new cursor and
      population of `fifo`, or the exception for an unknown name. */
  datatype Outcome = RandomIndex(index: int) | FifoResult(cursor: int, population: Population) | InvalidReplacement

  class Replacement {
    const population: Population
    const adjMat: Matrix
    const child1: seq<int>
    const child2: seq<int>
    const replacementType: string
    var fifoIndex: int

    constructor (population: Population, adjMat: Matrix, child1: seq<int>, child2: seq<int>,
                 replacementType: string, replacementFifoIndex: int := 0)
      ensures this.population == population && this.adjMat == adjMat
      ensures this.child1 == child1 && this.child2 == child2
      ensures this.replacementType == replacementType
      ensures fifoIndex == replacementFifoIndex
    {
      this.population := population;
      this.adjMat := adjMat;
      this.child1 := child1;
      this.child2 := child2;
      this.replacementType := replacementType;
      fifoIndex := replacementFifoIndex;
    }

    /** The preconditions of `fifo` on `pop`: both rows line up, the cursor
        indexes a member, and the chosen child can be costed under `adjMat`. */
    predicate FifoReady(pop: Population, candidate: seq<int>)
      reads this
    {
      WellFormed(pop) && 0 <= fifoIndex < Size(pop) && CostDefined(adjMat, candidate, |adjMat|)
    }

    /** `fifo`: a copy of the population with member `fifoIndex` replaced by the
        chosen child and its cost; the cursor then advances and is returned. */
    method Fifo(population: Population, child1: seq<int>, child2: seq<int>, pickSecond: bool)
      returns (cursor: int, newPopulation: Population)
      requires FifoReady(population, if pickSecond then child2 else child1)
      modifies this`fifoIndex
      ensures var candidate := if pickSecond then child2 else child1;
        newPopulation == Overwrite(population, old(fifoIndex), Cost(adjMat, candidate, |adjMat|), candidate)
      ensures fifoIndex == NextCursor(old(fifoIndex), Size(population))
      ensures cursor == fifoIndex
      ensures Lockstep(adjMat, population) ==> Lockstep(adjMat, newPopulation)
    {
      newPopulation := population;
      var candidateChild := if pickSecond then child2 else child1;
      var candidateChildFitness := ComputeCost(adjMat, candidateChild, |adjMat|);
      newPopulation := newPopulation.(fitness := newPopulation.fitness[fifoIndex := candidateChildFitness]);
      newPopulation := newPopulation.(tours := newPopulation.tours[fifoIndex := candidateChild]);
      if Lockstep(adjMat, population) {
        OverwriteKeepsLockstep(adjMat, population, fifoIndex, candidateChild);
      }
      if fifoIndex == |population.fitness| - 1 {
        fifoIndex := 0;
      } else {
        fifoIndex := fifoIndex + 1;
      }
      cursor := fifoIndex;
    }

    /** `random`: a stub that returns 0 and builds no population. */
    method Random(population: Population, child1: seq<int>, child2: seq<int>) returns (index: int)
      ensures index == 0
    {
      index := 0;
    }

    /** `applyReplacement`: only "Random" and "FIFO" are in the dispatch table;
        any other name raises. */
    method ApplyReplacement(pickSecond: bool) returns (outcome: Outcome)
      requires replacementType == "FIFO" ==> FifoReady(population, if pickSecond then child2 else child1)
      modifies this`fifoIndex
      ensures outcome.InvalidReplacement? <==> replacementType != "Random" && replacementType != "FIFO"
      ensures replacementType == "Random" ==> outcome == RandomIndex(0) && fifoIndex == old(fifoIndex)
      ensures replacementType == "FIFO" ==>
        var candidate := if pickSecond then child2 else child1;
        outcome == FifoResult(fifoIndex, Overwrite(population, old(fifoIndex), Cost(adjMat, candidate, |adjMat|), candidate)) &&
        fifoIndex == NextCursor(old(fifoIndex), Size(population))
      ensures replacementType != "FIFO" ==> fifoIndex == old(fifoIndex)
    {
      if replacementType == "Random" {
        var index := Random(population, child1, child2);
        outcome := RandomIndex(index);
      } else if replacementType == "FIFO" {
        var cursor, newPopulation := Fifo(population, child1, child2, pickSecond);
        outcome := FifoResult(cursor, newPopulation);
      } else {
        outcome := InvalidReplacement;
      }
    }
  }
}
