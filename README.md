# TSP genetic algorithm operators, modelled in Dafny

This project models the operator core of a small genetic algorithm for the
Travelling Salesman Problem (davidMadueke/ECMM409-CA1-SUBMISSION). A tour is a
sequence of city indices. The model covers:

- the five mutation operators and their dispatcher,
- ordered and cycle crossover and their dispatcher,
- FIFO (age-based) replacement with its persistent cursor, and the stub `random`,
- the tour cost function,
- population initialisation of the `EA` class.

Every random draw is a parameter, with the preconditions the draw
guarantees. This covers the index pairs of `RNG.choice`, the crossover cut
point, the child FIFO picks, the scrambled slice and the initial tours. With
the draws fixed, everything is deterministic.

Modules, one file each:

- `Tours` (`tours.dfy`): shared vocabulary.
  - Duplicate-free sequences and tours of `0..n-1`.
  - Permutation as equal multisets.
  - Python's `list.index`.
  - The `int8` range of the mutation buffers.
- `CostFunction` (`cost_function.dfy`): `cost`.
  - The accumulation loop `ComputeCost` is proved equal to a closed form, `Cost`.
  - The loop adds the closing edge `C[n-1] -> C[0]` on every one of its `n-2` iterations.
  - It never adds the edge `C[n-2] -> C[n-1]`.
  - The model keeps this behaviour, because every fitness value in the population is this number.
  - `CyclicCost`, the usual cyclic tour length (every path edge once plus the closing edge once), is a reference definition. The contract of `Cost` relates the two, and a concrete tour shows where they disagree.
- `MutationOperator` (`mutation_operator.dfy`): the operators.
  - Each operator copies the caller's array into a new buffer and rewrites the buffer in place.
  - Each is proved equal to a function on sequences: `Swapped`, `SwapAll`, `Inverted`, `Scrambled` or `Inserted`.
  - Position-by-position and permutation lemmas are proved about those functions.
- `CrossoverOperator` (`crossover_operator.dfy`).
  - Ordered crossover is a pure function.
  - Cycle crossover has a labelling loop over a local `cycles` list, proved against the predicate `IsCycleLabelling`.
  - `IsCycleLabelling` requires every position labelled, labels constant along the cycle step `pos -> parent1.index(parent2[pos])`, and each label class equal to the cycle of its first position.
  - Labels are numbered in order of first position.
- `Populations` (`population.dfy`): the two-row population.
  - Row 0 is fitness, row 1 is tours.
  - Main invariant: `fitness[i] == cost(D, tour[i], len(D))` in every column (`Lockstep`).
- `ReplacementOperator` (`replacement.dfy`): `class Replacement`.
  - Its mutable field `fifoIndex` is advanced by `Fifo`.
  - Dispatcher: `ApplyReplacement`.
- `Algorithm` (`algorithm.dfy`): `class EA` and `population_init`.

Where the comments of the code and its statements disagree, the model follows the statements:

- `insert` writes the value from the upper index AT the lower index, and shifts `child[lo..hi-1]` up by one (Algorithm/MutationOperator.py:152 and :155). The comments at Algorithm/MutationOperator.py:151 and :154 speak of position `[INDEX 1]+1`, one past the lower index.
- `orderedCrossover` orders each remainder by its own parent: the `sortAccording` calls at Algorithm/CrossoverOperator.py:53-55 pass `parent1` for `parent1`'s remainder and `parent2` for `parent2`'s. The docstring at Algorithm/CrossoverOperator.py:24-26 says the remainder is ordered by the other parent. The model keeps each remainder in its own parent's order, as the comprehension leaves it (see "## Left out" on `sortAccording`).

## Model

| member | source | states |
|---|---|---|
| Tours.IndexOf | Algorithm/CrossoverOperator.py:95 | `list.index`: a position holding `x`, with no earlier position holding it |
| CostFunction.ComputeCost | costFunction/__init__.py:4-10 | the loop returns 0 when `num_cities <= 2`; otherwise it returns the first `n-2` path edges plus `(n-2)` times the closing edge, which is `Cost` |
| CostFunction.CostNonNegative | costFunction/__init__.py:7-9 | with a non-negative matrix the cost is non-negative |
| CostFunction.CostReadsPrefix | costFunction/__init__.py:5-9 | tours that agree on their first `num_cities` entries have the same cost |
| CostFunction.LastEdgeNeverCounted | costFunction/__init__.py:8-9 | on a duplicate-free tour, changing only `D[C[n-2]][C[n-1]]` does not change the cost |
| CostFunction.Cost | costFunction/__init__.py:4-10 | 0 when `num_cities <= 2`; otherwise the cyclic tour length, minus edge `C[n-2]->C[n-1]`, plus `n-3` extra closing edges |
| CostFunction.Rotated | costFunction/__init__.py:8-9 | the tour started one city later, given position by position |
| CostFunction.PathSumRotated | costFunction/__init__.py:8-9 | path sums of the rotated tour are those of the tour, shifted by one edge |
| CostFunction.CyclicCostRotationInvariant | costFunction/__init__.py:8-9 | the usual cyclic tour length, used as a reference, is the same for a tour and its rotation |
| CostFunction.CostDiffersFromCyclicLength | costFunction/__init__.py:8-9 | the 3-city matrix `[[0,1,2],[1,0,4],[2,4,0]]`: cost 3 for `[0,1,2]` and 5 for its rotation, cyclic length 7 for both |
| MutationOperator.ParseMutationType | Algorithm/MutationOperator.py:15-26 | exactly the five dictionary keys are accepted, each read back as the operator it names; any other name is rejected |
| MutationOperator.ParseName | Algorithm/MutationOperator.py:15-19 | every operator's key selects that operator |
| MutationOperator.CopyChild | Algorithm/MutationOperator.py:31-33 | the zero `int8` buffer plus `child` is a new array equal to `child` (values in the `int8` range) |
| MutationOperator.SingleSwapOp | Algorithm/MutationOperator.py:29-46 | a new array, not the caller's, equal to `child` with positions `i` and `j` exchanged; a permutation of `child` |
| MutationOperator.SwappedAt | Algorithm/MutationOperator.py:41 | after the swap `r[i] == s[j]`, `r[j] == s[i]`, every other position unchanged |
| MutationOperator.SwappedPermutation | Algorithm/MutationOperator.py:41-44 | a swap is a permutation |
| MutationOperator.MultiSwapOp | Algorithm/MutationOperator.py:49-67 | a new array equal to the successive swaps of all draws, each applied to the already-mutated tour; a permutation of `child` |
| MutationOperator.SwapAllNone | Algorithm/MutationOperator.py:54-61 | with `multiSwapAmount == 0` the result equals the input |
| MutationOperator.SwapAllStep | Algorithm/MutationOperator.py:54-61 | one more iteration is one more swap of the current tour |
| MutationOperator.SwapAllPermutation | Algorithm/MutationOperator.py:54-65 | any number of swaps is a permutation |
| MutationOperator.InversionOp | Algorithm/MutationOperator.py:70-97 | a new array equal to `child` with the inclusive slice between the sorted indices reversed; a permutation of `child` |
| MutationOperator.ReverseAt | Algorithm/MutationOperator.py:88 | `Reverse(s)[k] == s[len-1-k]` |
| MutationOperator.ReversePermutation | Algorithm/MutationOperator.py:88 | reversal is a permutation |
| MutationOperator.InvertedAt | Algorithm/MutationOperator.py:84-92 | `r[k] == s[lo+hi-k]` for `lo <= k <= hi`; positions outside `[lo, hi]` unchanged |
| MutationOperator.InvertedPermutation | Algorithm/MutationOperator.py:92-95 | inversion is a permutation |
| MutationOperator.ScrambleOp | Algorithm/MutationOperator.py:100-127 | the indices are drawn from `0..N`; the slice `lo : hi+1` is clipped at `N` and replaced by the drawn rearrangement of itself; a new array that is a permutation of `child` |
| MutationOperator.ScrambledAt | Algorithm/MutationOperator.py:114-122 | positions outside the clipped slice are unchanged; inside it they hold the drawn rearrangement |
| MutationOperator.ScrambledPermutation | Algorithm/MutationOperator.py:118-125 | replacing a slice by a rearrangement of itself is a permutation |
| MutationOperator.InsertOp | Algorithm/MutationOperator.py:130-162 | a new array: the masked copy writes every position except `lo` from every position except `hi`, then `child[hi]` is put at `lo`; a permutation of `child` |
| MutationOperator.InsertedAt | Algorithm/MutationOperator.py:146-155 | `r[lo] == s[hi]`, `r[p] == s[p-1]` for `lo < p <= hi`, all other positions unchanged |
| MutationOperator.InsertedPermutation | Algorithm/MutationOperator.py:152-158 | insertion is a permutation |
| MutationOperator.ProcessMutation | Algorithm/MutationOperator.py:21-26 | an unknown name gives no result (the source raises); a known one returns a new array equal to that operator's result, a permutation of `child` |
| CrossoverOperator.ParseCrossoverType | Algorithm/CrossoverOperator.py:13-19 | only `orderedCrossover` and `cycleCrossover` are accepted |
| CrossoverOperator.ProcessCrossover | Algorithm/CrossoverOperator.py:13-19 | an unknown name gives no result (the source raises); `orderedCrossover` gives `OrderedCrossover` at the drawn cut point; `cycleCrossover` gives the children of the (unique) cycle labelling; both children are permutations of their parents |
| CrossoverOperator.Remainder | Algorithm/CrossoverOperator.py:49-50 | the comprehension keeps exactly the elements of `s` that are not in `t` |
| CrossoverOperator.RemainderCount | Algorithm/CrossoverOperator.py:49-50 | the comprehension removes every occurrence of a value of `t` and keeps the count of every other value |
| CrossoverOperator.OrderedCrossover | Algorithm/CrossoverOperator.py:22-66 | each child ends with the other parent's tail `parent[cut:]`; its cities are exactly those of that tail and of its own parent |
| CrossoverOperator.OrderedChildPermutation | Algorithm/CrossoverOperator.py:49-63 | remainder of a parent, then the other parent's tail, is a permutation of the first parent |
| CrossoverOperator.OrderedCrossoverCorrect | Algorithm/CrossoverOperator.py:33-59 | for `0 <= c < N` both children have length `N` and are permutations of their parents; `child1[c:] == parent2[c:]` and `child2[c:] == parent1[c:]` |
| CrossoverOperator.RemainderOfPermutation | Algorithm/CrossoverOperator.py:49-50 | filtering a parent by a permutation of itself leaves nothing |
| CrossoverOperator.OrderedCrossoverAtZero | Algorithm/CrossoverOperator.py:36-59 | with cut point 0, child1 is parent2 and child2 is parent1 |
| CrossoverOperator.NextPos | Algorithm/CrossoverOperator.py:95 | the cycle step lands on the position of parent1 that holds `parent2[pos]` |
| CrossoverOperator.PrevPos | Algorithm/CrossoverOperator.py:95 | the inverse step lands on the position of parent2 that holds `parent1[pos]` |
| CrossoverOperator.StepInverse | Algorithm/CrossoverOperator.py:95 | the two steps undo each other, so the cycle step is a bijection |
| CrossoverOperator.FollowCycle | Algorithm/CrossoverOperator.py:93-95 | from an unlabelled start the inner loop terminates; it labels only unlabelled positions; every newly labelled position is on the cycle through the start; the labelling stays closed under the step both ways |
| CrossoverOperator.CycleLabels | Algorithm/CrossoverOperator.py:84-97 | the labelling loop yields `IsCycleLabelling`: every label `>= 1`; labels constant along the cycle step; each label class is the cycle of its first position; labels numbered in order of first position |
| CrossoverOperator.SamePartition | Algorithm/CrossoverOperator.py:87-97 | positions sharing a label in one cycle labelling share a label in every other |
| CrossoverOperator.NumberedContiguous | Algorithm/CrossoverOperator.py:86-97 | labels numbered in order of first position use every number from 1 to the largest |
| CrossoverOperator.FreshLabel | Algorithm/CrossoverOperator.py:86-97 | a label not used before position `i` is one more than the largest label before `i` |
| CrossoverOperator.AgreeStep | Algorithm/CrossoverOperator.py:86-97 | two labellings numbered in order that group positions alike and agree before `x` agree at `x` |
| CrossoverOperator.PrefixAgree | Algorithm/CrossoverOperator.py:86-97 | two labellings numbered in order that group positions alike agree on every prefix |
| CrossoverOperator.CycleLabellingUnique | Algorithm/CrossoverOperator.py:84-97 | the parents determine their cycle labelling: any two labellings satisfying `IsCycleLabelling` are equal |
| CrossoverOperator.FirstPositionLabelOne | Algorithm/CrossoverOperator.py:85-97 | position 0 carries label 1 |
| CrossoverOperator.LabelAlongCycle | Algorithm/CrossoverOperator.py:93-95 | any number of cycle steps keeps the label |
| CrossoverOperator.SameLabelIffSameCycle | Algorithm/CrossoverOperator.py:87-97 | two positions have the same label if and only if the second is on the cycle of the first position with that label |
| CrossoverOperator.MixTakesWholeCycles | Algorithm/CrossoverOperator.py:101-102 | whole cycles are copied: every position on the cycle of `k` takes its value from the parent that the parity of `k`'s label selects |
| CrossoverOperator.CycleChildren | Algorithm/CrossoverOperator.py:101-102 | at every `i` the children hold `parent1[i]` and `parent2[i]` in one order or the other |
| CrossoverOperator.MixDistinct | Algorithm/CrossoverOperator.py:101-106 | a child built from whole label classes has no duplicates |
| CrossoverOperator.MixMembers | Algorithm/CrossoverOperator.py:101-106 | a child built from whole label classes contains every city of the parents |
| CrossoverOperator.MixPermutation | Algorithm/CrossoverOperator.py:101-106 | such a child is a permutation of the parents |
| CrossoverOperator.CycleChildrenPermutation | Algorithm/CrossoverOperator.py:105-106 | child1 is a permutation of parent1, child2 of parent2 |
| CrossoverOperator.CycleCrossover | Algorithm/CrossoverOperator.py:69-108 | the children are those of the cycle labelling, which is unique, and are permutations of their parents |
| Populations.Overwrite | Algorithm/Replacement.py:53-54 | member `idx` gets the new fitness and tour; every other member and the size are unchanged |
| Populations.OverwriteKeepsLockstep | Algorithm/Replacement.py:44-54 | overwriting a member with a tour and its cost keeps every fitness equal to its tour's cost |
| Populations.OverwriteWrongFitness | Algorithm/Replacement.py:49-54 | overwriting with any other fitness breaks that invariant |
| ReplacementOperator.NextCursor | Algorithm/Replacement.py:57-60 | the cursor becomes `idx+1`, or 0 after the last member, i.e. `(idx+1) mod size`, and stays in `[0, size)` |
| ReplacementOperator.CursorWithinRound | Algorithm/Replacement.py:57-62 | within one round, `k` calls move the cursor `k` places, wrapping once |
| ReplacementOperator.CursorFullRound | Algorithm/Replacement.py:57-62 | after `size` calls the cursor is back at its start |
| ReplacementOperator.CursorRoundDistinct | Algorithm/Replacement.py:57-62 | within one round the cursor never repeats, so each member is replaced once per round |
| ReplacementOperator.Replacement.constructor | Algorithm/Replacement.py:5-29 | stores the population, matrix, children, strategy name and initial FIFO index (default 0) |
| ReplacementOperator.Replacement.Fifo | Algorithm/Replacement.py:41-62 | the result is a copy of the population with member `fifoIndex` replaced by the chosen child and its cost; the cursor advances by `NextCursor` and is returned; the lockstep invariant is preserved |
| ReplacementOperator.Replacement.Random | Algorithm/Replacement.py:65-67 | the stub returns 0 |
| ReplacementOperator.Replacement.ApplyReplacement | Algorithm/Replacement.py:32-38 | only `Random` and `FIFO` are dispatched, and any other name is rejected; `Random` leaves the cursor alone |
| Algorithm.EA.constructor | Algorithm/__init__.py:10-20 | stores population size, tournament size and operator names, with the defaults `singleSwap` and `crossoverWithFix` |
| Algorithm.EA.PopulationInit | Algorithm/__init__.py:27-40 | two rows of length `populationSize`; row 1 is the drawn tours, each a permutation of `0..len(D)-1`; row 0 holds each tour's cost |
| Algorithm.DefaultCrossoverRejected | Algorithm/__init__.py:10 | the default crossover name `crossoverWithFix` is neither `orderedCrossover` nor `cycleCrossover`, so `processCrossover` rejects it |

## Left out

- Random number generation: `default_rng` seeding and `choice` / `permutation` are not modelled. Their results are parameters, with preconditions: distinct indices in range, a cut point in `[0, N)`, a slice rearrangement that is a permutation of the slice, and tours of `0..len(D)-1`.
- `main.py` (reading the TSPLIB XML file, printing) and `EA.adjacency_matrix` / `Algorithm.adj_mat` are not part of this model; the distance matrix is a parameter.
- `checkPermutation` and `sortAccording` from `Algorithm.helperFunctions` are not part of this model.
  - The permutation checks are replaced by the proved permutation postconditions.
  - `sortAccording` is taken to leave the remainder as it is, since the comprehension already keeps parent order.
- The `int8` buffers of the mutation operators: values outside `[-128, 128)` would wrap; the operators require every city index to be in that range.
- Distances are modelled as integers; floating-point distances and rounding are not modelled.
- The debug `print` calls in `insert` and the exception message texts are not modelled. An unknown operator or strategy name becomes a `None` / `InvalidReplacement` result.
- Python's negative indexing and out-of-range errors are not modelled. The model requires:
  - cost: `num_cities <= len(tour_vec)` and city indices in `[0, len(D))` when the loop runs;
  - `fifo`: `0 <= FIFOindex < populationSize`;
  - the mutation draws: at least two positions, since `RNG.choice(len, 2, replace=False)` raises below that;
  - `populationSize >= 0` (`np.zeros` raises on a negative size).
- The `ValueError` of `list.index` in cycle crossover cannot occur for the parents the model allows: permutations of one duplicate-free tour (`Parents`). Other inputs are not modelled.
- ReplacementOperator.Replacement.Fifo: the deep copy is modelled by value semantics (the population is an immutable value). Aliasing between the copy and the input is therefore not modelled.
- CrossoverOperator.CycleLabels: the `cyclestart` generator is modelled as a loop over positions that skips labelled ones. This is what the lazy generator observes; the generator object itself is not modelled.
- Algorithm.EA.constructor: the model keeps the four stored fields that name the algorithm's parameters: `populationSize`, `tournamentSize`, `mutationType` and `crossoverType`, with their defaults. `TSP` is left out because it only feeds `adjacency_matrix`, which is not part of this model; the matrix is a parameter of `PopulationInit` instead. `RNG_Seed` is left out with the random generator. `replacementType` and `terminationCriterion` are accepted but never stored by the code. No selection, generation loop or other replacement strategy exists in the code, and none is modelled.
- The default `crossoverType='crossoverWithFix'` of `EA.__init__` (Algorithm/__init__.py:10) is not a name `processCrossover` accepts (Algorithm/CrossoverOperator.py:14-19); `Algorithm.DefaultCrossoverRejected` states this. `EA` never calls the crossover dispatcher in the code, so the model does not connect them.
- MutationOperator.ProcessMutation: the default `multiSwapAmount=5` of `MutationOperator.__init__` (Algorithm/MutationOperator.py:6) is not a default of the model's parameter; callers pass it. The defaults `replacement_FIFOindex=0` of `Replacement.__init__` and those of `EA.__init__` are modelled as default parameter values.
- CrossoverOperator.OrderedCrossover: the element type of the children is not modelled. With cut point 0 and parents that are permutations of each other the remainder is the empty Python list, and `np.concatenate` then gives a `float64` array holding the other parent's values; the model's children are integer sequences with those values. Downstream effects of that float dtype (the `int8` copy in the mutation operators, indexing in `cost`) are not modelled.
