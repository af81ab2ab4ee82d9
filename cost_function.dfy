/** The tour cost of `costFunction/__init__.py`.

    The routine loops `i` over `0 .. num_cities-3` and on every iteration adds
    the edge `C[i] -> C[i+1]` AND the closing edge `C[n-1] -> C[0]`. So the
    closing edge is counted `n-2` times and the edge `C[n-2] -> C[n-1]` is never
    counted. The model keeps this behaviour: all fitness values in the
    population are this number. `CyclicCost`, the usual cyclic tour length,
    is used as a reference. */
module CostFunction {
  import opened Tours

  type Matrix = seq<seq<int>>

  predicate IsSquare(d: Matrix)
  {
    forall r :: 0 <= r < |d| ==> |d[r]| == |d|
  }

  /** Every edge weight is non-negative. */
  predicate NonNegative(d: Matrix)
  {
    forall r, s :: 0 <= r < |d| && 0 <= s < |d[r]| ==> d[r][s] >= 0
  }

  /** The first `n` cities of `c` exist and are valid row/column indices. */
  predicate CitiesInRange(d: Matrix, c: seq<int>, n: int)
  {
    IsSquare(d) && 0 <= n <= |c| && forall k :: 0 <= k < n ==> 0 <= c[k] < |d|
  }

  /** What `cost(d, c, n)` reads: nothing at all when the loop is empty
      (`n <= 2`), otherwise `c[0..n-1]` and the matrix entries they index. */
  predicate CostDefined(d: Matrix, c: seq<int>, n: int)
  {
    n > 2 ==> CitiesInRange(d, c, n)
  }

  /** Weight of the edge `c[i] -> c[i+1]`. */
  function Edge(d: Matrix, c: seq<int>, n: int, i: int): int
    requires CitiesInRange(d, c, n) && 0 <= i && i + 1 < n
  {
    d[c[i]][c[i+1]]
  }

  /** Weight of the closing edge `c[n-1] -> c[0]`. */
  function Closing(d: Matrix, c: seq<int>, n: int): int
    requires CitiesInRange(d, c, n) && n >= 1
  {
    d[c[n-1]][c[0]]
  }

  /** Sum of the first `m` path edges `c[0]->c[1], ..., c[m-1]->c[m]`. */
  function PathSum(d: Matrix, c: seq<int>, n: int, m: int): int
    requires CitiesInRange(d, c, n) && 0 <= m < n
    decreases m
  {
    if m == 0 then 0 else PathSum(d, c, n, m - 1) + Edge(d, c, n, m - 1)
  }

  /** The value `cost` returns, in closed form:
      `PathSum(n-2) + (n-2) * Closing`, or 0 when `n <= 2`. Compared with the
      cyclic tour length, the edge `c[n-2] -> c[n-1]` is missing and the
      closing edge is counted `n-3` extra times. */
  function Cost(d: Matrix, c: seq<int>, n: int): (r: int)
    requires CostDefined(d, c, n)
    ensures n <= 2 ==> r == 0
    ensures n > 2 ==> r == CyclicCost(d, c, n) - Edge(d, c, n, n - 2) + (n - 3) * Closing(d, c, n)
  {
    if n <= 2 then 0 else PathSum(d, c, n, n - 2) + (n - 2) * Closing(d, c, n)
  }

  /** The cyclic tour length: every path edge once plus the closing edge once. */
  function CyclicCost(d: Matrix, c: seq<int>, n: int): int
    requires CitiesInRange(d, c, n) && n >= 1
  {
    PathSum(d, c, n, n - 1) + Closing(d, c, n)
  }

  /** The accumulation loop of `cost`. */
  method ComputeCost(adjMat: Matrix, tourVec: seq<int>, numCities: int) returns (runningCost: int)
    requires CostDefined(adjMat, tourVec, numCities)
    ensures numCities <= 2 ==> runningCost == 0
    ensures numCities > 2 ==>
      runningCost == PathSum(adjMat, tourVec, numCities, numCities - 2)
                     + (numCities - 2) * Closing(adjMat, tourVec, numCities)
    ensures runningCost == Cost(adjMat, tourVec, numCities)
  {
    runningCost := 0;
    var i := 0;
    while i < numCities - 2
      invariant numCities > 2 ==> 0 <= i <= numCities - 2
      invariant numCities <= 2 ==> i == 0
      invariant numCities > 2 ==>
        runningCost == PathSum(adjMat, tourVec, numCities, i) + i * Closing(adjMat, tourVec, numCities)
      invariant numCities <= 2 ==> runningCost == 0
    {
      runningCost := runningCost + adjMat[tourVec[i]][tourVec[i+1]]
                     + adjMat[tourVec[numCities-1]][tourVec[0]];
      i := i + 1;
    }
  }

  /** Non-negative weights give non-negative path sums. */
  lemma {:induction false} PathSumNonNegative(d: Matrix, c: seq<int>, n: int, m: int)
    requires CitiesInRange(d, c, n) && 0 <= m < n
    requires NonNegative(d)
    ensures PathSum(d, c, n, m) >= 0
  {
    if m > 0 {
      PathSumNonNegative(d, c, n, m - 1);
    }
  }

  /** With a non-negative matrix the cost is non-negative. */
  lemma CostNonNegative(d: Matrix, c: seq<int>, n: int)
    requires CostDefined(d, c, n)
    requires NonNegative(d)
    ensures Cost(d, c, n) >= 0
  {
    if n > 2 {
      PathSumNonNegative(d, c, n, n - 2);
    }
  }

  /** Path sums only look at the first `m + 1` cities. */
  lemma {:induction false} PathSumPrefix(d: Matrix, c: seq<int>, c': seq<int>, n: int, m: int)
    requires CitiesInRange(d, c, n) && CitiesInRange(d, c', n) && 0 <= m < n
    requires c[..n] == c'[..n]
    ensures PathSum(d, c, n, m) == PathSum(d, c', n, m)
  {
    if m > 0 {
      PathSumPrefix(d, c, c', n, m - 1);
      assert c[m-1] == c[..n][m-1] && c[m] == c[..n][m];
      assert c'[m-1] == c'[..n][m-1] && c'[m] == c'[..n][m];
    }
  }

  /** Only `tour_vec[0..num_cities-1]` matters: tours that agree there cost the same. */
  lemma CostReadsPrefix(d: Matrix, c: seq<int>, c': seq<int>, n: int)
    requires CostDefined(d, c, n) && CostDefined(d, c', n)
    requires n > 2 ==> c[..n] == c'[..n]
    ensures Cost(d, c, n) == Cost(d, c', n)
  {
    if n > 2 {
      PathSumPrefix(d, c, c', n, n - 2);
      assert c[n-1] == c[..n][n-1] && c[0] == c[..n][0];
      assert c'[n-1] == c'[..n][n-1] && c'[0] == c'[..n][0];
    }
  }

  /** Path sums for `m` edges do not read the entry for edge `c[m] -> c[m+1]`
      or later ones: `d` and `d'` may differ at the entry `(c[n-2], c[n-1])`. */
  lemma {:induction false} PathSumIgnoresEntry(d: Matrix, d': Matrix, c: seq<int>, n: int, m: int)
    requires CitiesInRange(d, c, n) && CitiesInRange(d', c, n) && |d| == |d'|
    requires Distinct(c[..n]) && n >= 2 && 0 <= m <= n - 2
    requires forall r, s :: 0 <= r < |d| && 0 <= s < |d| && (r, s) != (c[n-2], c[n-1]) ==> d[r][s] == d'[r][s]
    ensures PathSum(d, c, n, m) == PathSum(d', c, n, m)
  {
    if m > 0 {
      PathSumIgnoresEntry(d, d', c, n, m - 1);
      assert c[..n][m-1] != c[..n][n-2];
    }
  }

  /** The edge `c[n-2] -> c[n-1]` is never counted: on a duplicate-free tour,
      changing that single matrix entry does not change the cost. */
  lemma LastEdgeNeverCounted(d: Matrix, d': Matrix, c: seq<int>, n: int)
    requires n > 2 && CitiesInRange(d, c, n) && CitiesInRange(d', c, n) && |d| == |d'|
    requires Distinct(c[..n])
    requires forall r, s :: 0 <= r < |d| && 0 <= s < |d| && (r, s) != (c[n-2], c[n-1]) ==> d[r][s] == d'[r][s]
    ensures Cost(d, c, n) == Cost(d', c, n)
  {
    PathSumIgnoresEntry(d, d', c, n, n - 2);
    assert c[..n][n-1] != c[..n][n-2];
  }

  /** The tour started one city later: `c[1], ..., c[n-1], c[0]`. */
  function Rotated(c: seq<int>, n: int): (r: seq<int>)
    requires 1 <= n <= |c|
    ensures |r| == n && r[n - 1] == c[0]
    ensures forall k :: 0 <= k < n - 1 ==> r[k] == c[k + 1]
  {
    c[1..n] + [c[0]]
  }

  lemma {:induction false} PathSumRotated(d: Matrix, c: seq<int>, n: int, m: int)
    requires CitiesInRange(d, c, n) && n >= 2 && 0 <= m <= n - 2
    ensures CitiesInRange(d, Rotated(c, n), n)
    ensures PathSum(d, Rotated(c, n), n, m) == PathSum(d, c, n, m + 1) - Edge(d, c, n, 0)
  {
    if m > 0 {
      PathSumRotated(d, c, n, m - 1);
    }
  }

  /** The cyclic tour length does not depend on the starting city. */
  lemma CyclicCostRotationInvariant(d: Matrix, c: seq<int>, n: int)
    requires CitiesInRange(d, c, n) && n >= 2
    ensures CitiesInRange(d, Rotated(c, n), n)
    ensures CyclicCost(d, Rotated(c, n), n) == CyclicCost(d, c, n)
  {
    PathSumRotated(d, c, n, n - 2);
  }

  /** A concrete tour on which the two disagree, and on which the computed
      cost changes under rotation of the tour while the cyclic length does not. */
  lemma CostDiffersFromCyclicLength()
    ensures var d := [[0, 1, 2], [1, 0, 4], [2, 4, 0]];
      Cost(d, [0, 1, 2], 3) == 3 && CyclicCost(d, [0, 1, 2], 3) == 7 &&
      Cost(d, Rotated([0, 1, 2], 3), 3) == 5 && CyclicCost(d, Rotated([0, 1, 2], 3), 3) == 7
  {
    var d := [[0, 1, 2], [1, 0, 4], [2, 4, 0]];
    assert Rotated([0, 1, 2], 3) == [1, 2, 0];
    assert PathSum(d, [0, 1, 2], 3, 1) == 1;
    assert PathSum(d, [0, 1, 2], 3, 2) == 5;
    assert PathSum(d, [1, 2, 0], 3, 1) == 4;
    assert PathSum(d, [1, 2, 0], 3, 2) == 6;
  }
}
