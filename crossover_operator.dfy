/** The two crossover operators of `Algorithm/CrossoverOperator.py`.

    Ordered crossover is pure: slices, a filtering comprehension and a
    concatenation (the `sortAccording` call leaves the already parent-ordered
    remainder as it is). Cycle crossover labels the cycles of the two parents in
    a `while` loop over a mutable `cycles` list, then builds the children.
    The random cut point is a parameter. The source's `checkPermutation`
    guard becomes the permutation postconditions proved here, for parents that
    are permutations of one duplicate-free tour. */
module CrossoverOperator {
  import opened Tours

  datatype CrossoverType = Ordered | Cycle

  function Name(t: CrossoverType): string
  {
    match t
    case Ordered => "orderedCrossover"
    case Cycle => "cycleCrossover"
  }

  /** The name test of `processCrossover`: only the two names are accepted. */
  function ParseCrossoverType(name: string): (r: Option<CrossoverType>)
    ensures r.Some? ==> Name(r.value) == name
    ensures r.None? ==> forall t: CrossoverType :: Name(t) != name
  {
    if name == "orderedCrossover" then Some(Ordered)
    else if name == "cycleCrossover" then Some(Cycle)
    else None
  }

  /** Two parents that are permutations of one duplicate-free tour. */
  predicate Parents(p1: seq<int>, p2: seq<int>)
  {
    |p1| == |p2| && Distinct(p1) && IsPermutationOf(p1, p2)
  }

  lemma ParentsFacts(p1: seq<int>, p2: seq<int>)
    requires Parents(p1, p2)
    ensures Distinct(p2) && Parents(p2, p1)
    ensures forall x :: x in p1 <==> x in p2
  {
    PermutationKeepsDistinct(p1, p2);
    forall x
      ensures x in p1 <==> x in p2
    {
      assert x in p1 <==> x in multiset(p1);
      assert x in p2 <==> x in multiset(p2);
    }
  }

  // ---------------------------------------------------------------------
  // Ordered crossover

  /** Python's `s[c:]` for `c >= 0`: empty once `c` passes the end. */
  function Tail(s: seq<int>, c: int): seq<int>
    requires 0 <= c
  {
    if c <= |s| then s[c..] else []
  }

  /** `[x for x in s if not x in t]`: the elements of `s` not in `t`, in the order of `s`. */
  function Remainder(s: seq<int>, t: seq<int>): (r: seq<int>)
    ensures forall x :: x in r <==> x in s && x !in t
  {
    if s == [] then []
    else if s[0] in t then Remainder(s[1..], t)
    else [s[0]] + Remainder(s[1..], t)
  }

  lemma {:induction false} RemainderCount(s: seq<int>, t: seq<int>, x: int)
    ensures multiset(Remainder(s, t))[x] == if x in t then 0 else multiset(s)[x]
  {
    if s != [] {
      RemainderCount(s[1..], t, x);
      assert s == [s[0]] + s[1..];
    }
  }

  /** `orderedCrossover` with the drawn cut point: each child is its own
      parent's remainder followed by the other parent's tail. */
  function OrderedCrossover(parent1: seq<int>, parent2: seq<int>, cut: int): (children: (seq<int>, seq<int>))
    requires 0 <= cut < |parent1|
    ensures var t1, t2 := Tail(parent2, cut), Tail(parent1, cut);
      |children.0| >= |t1| && children.0[|children.0| - |t1|..] == t1 &&
      |children.1| >= |t2| && children.1[|children.1| - |t2|..] == t2
    ensures forall x :: x in children.0 <==> x in Tail(parent2, cut) || x in parent1
    ensures forall x :: x in children.1 <==> x in Tail(parent1, cut) || x in parent2
  {
    var parent1RightSwap := Tail(parent2, cut);
    var parent2RightSwap := Tail(parent1, cut);
    (Remainder(parent1, parent1RightSwap) + parent1RightSwap,
     Remainder(parent2, parent2RightSwap) + parent2RightSwap)
  }

  /** Remainder-then-tail of a duplicate-free tour `a` and a permutation `b`
      of it is again a permutation of `a`. */
  lemma OrderedChildPermutation(a: seq<int>, b: seq<int>, c: int)
    requires Parents(a, b) && 0 <= c <= |b|
    ensures IsPermutationOf(Remainder(a, b[c..]) + b[c..], a)
  {
    var t := b[c..];
    var child := Remainder(a, t) + t;
    assert b == b[..c] + t;
    forall x
      ensures multiset(child)[x] == multiset(a)[x]
    {
      RemainderCount(a, t, x);
      DistinctCount(a, x);
      if x in t {
        assert x in multiset(t);
        assert multiset(t)[x] <= multiset(b)[x];
      } else {
        assert x !in multiset(t);
      }
    }
    assert multiset(child) == multiset(a);
  }

  /** Both children are permutations of their parents, of length N, and each
      child ends with the other parent's tail from the cut point on. */
  lemma OrderedCrossoverCorrect(parent1: seq<int>, parent2: seq<int>, cut: int)
    requires Parents(parent1, parent2) && 0 <= cut < |parent1|
    ensures var (child1, child2) := OrderedCrossover(parent1, parent2, cut);
      IsPermutationOf(child1, parent1) && IsPermutationOf(child2, parent2) &&
      |child1| == |parent1| && |child2| == |parent1| &&
      child1[cut..] == parent2[cut..] && child2[cut..] == parent1[cut..]
  {
    ParentsFacts(parent1, parent2);
    OrderedChildPermutation(parent1, parent2, cut);
    OrderedChildPermutation(parent2, parent1, cut);
    var (child1, child2) := OrderedCrossover(parent1, parent2, cut);
    assert |multiset(child1)| == |multiset(parent1)|;
    assert |multiset(child2)| == |multiset(parent2)|;
  }

  /** Filtering a sequence by a permutation of itself leaves nothing. */
  lemma RemainderOfPermutation(s: seq<int>, t: seq<int>)
    requires IsPermutationOf(s, t)
    ensures Remainder(s, t) == []
  {
    var r := Remainder(s, t);
    forall x
      ensures multiset(r)[x] == 0
    {
      RemainderCount(s, t, x);
      if x !in t {
        assert x !in multiset(t);
      }
    }
    assert multiset(r) == multiset{};
  }

  /** With cut point 0 the parents are simply exchanged. */
  lemma OrderedCrossoverAtZero(parent1: seq<int>, parent2: seq<int>)
    requires Parents(parent1, parent2) && |parent1| > 0
    ensures OrderedCrossover(parent1, parent2, 0) == (parent2, parent1)
  {
    assert Tail(parent2, 0) == parent2 && Tail(parent1, 0) == parent1;
    RemainderOfPermutation(parent1, parent2);
    RemainderOfPermutation(parent2, parent1);
    assert Remainder(parent1, parent2) + parent2 == parent2;
    assert Remainder(parent2, parent1) + parent1 == parent1;
  }

  // ---------------------------------------------------------------------
  // Cycle crossover

  /** `parent1.index(parent2[pos])`: the step from one position of a cycle to the next. */
  function NextPos(p1: seq<int>, p2: seq<int>, pos: int): (r: int)
    requires Parents(p1, p2) && 0 <= pos < |p1|
    ensures 0 <= r < |p1| && p1[r] == p2[pos]
  {
    ParentsFacts(p1, p2);
    IndexOf(p1, p2[pos])
  }

  /** The inverse step, `parent2.index(parent1[pos])`. */
  function PrevPos(p1: seq<int>, p2: seq<int>, pos: int): (r: int)
    requires Parents(p1, p2) && 0 <= pos < |p1|
    ensures 0 <= r < |p1| && p2[r] == p1[pos]
  {
    ParentsFacts(p1, p2);
    IndexOf(p2, p1[pos])
  }

  lemma StepInverse(p1: seq<int>, p2: seq<int>, pos: int)
    requires Parents(p1, p2) && 0 <= pos < |p1|
    ensures NextPos(p1, p2, PrevPos(p1, p2, pos)) == pos
    ensures PrevPos(p1, p2, NextPos(p1, p2, pos)) == pos
  {
    ParentsFacts(p1, p2);
    IndexOfDistinct(p1, pos);
    IndexOfDistinct(p2, pos);
  }

  /** `m` cycle steps from `pos`. */
  function Iter(p1: seq<int>, p2: seq<int>, pos: int, m: nat): (r: int)
    requires Parents(p1, p2) && 0 <= pos < |p1|
    ensures 0 <= r < |p1|
  {
    if m == 0 then pos else NextPos(p1, p2, Iter(p1, p2, pos, m - 1))
  }

  /** Positions `m` cycle steps from `pos` lie on the cycle of `pos`. */
  ghost predicate OnCycle(p1: seq<int>, p2: seq<int>, from: int, k: int)
    requires Parents(p1, p2) && 0 <= from < |p1|
  {
    exists m: nat :: Iter(p1, p2, from, m) == k
  }

  /** The largest label of `s`, 0 for the empty prefix. */
  function MaxLabel(s: seq<int>): int
  {
    if s == [] then 0
    else var m := MaxLabel(s[..|s| - 1]); if s[|s| - 1] > m then s[|s| - 1] else m
  }

  /** Labels appear in order of their first position: each position carries
      a label already used before it or the next fresh one. */
  predicate NumberedInOrder(s: seq<int>)
  {
    forall k :: 0 <= k < |s| ==> s[k] <= 1 + MaxLabel(s[..k])
  }

  lemma NumberedExtend(s: seq<int>, x: int)
    requires NumberedInOrder(s) && x <= 1 + MaxLabel(s)
    ensures NumberedInOrder(s + [x])
    ensures MaxLabel(s + [x]) == if x > MaxLabel(s) then x else MaxLabel(s)
  {
    var t := s + [x];
    assert t[..|s|] == s;
    forall k | 0 <= k < |t|
      ensures t[k] <= 1 + MaxLabel(t[..k])
    {
      if k < |s| {
        assert t[..k] == s[..k];
      }
    }
  }

  /** The first position carrying the label of position `k`. */
  function Leader(s: seq<int>, k: int): (r: int)
    requires 0 <= k < |s|
    ensures 0 <= r <= k && s[r] == s[k]
  {
    IndexOf(s, s[k])
  }

  /** Every labelled position lies on the cycle of the first position that
      carries its label. */
  ghost predicate LabelsAreOrbits(p1: seq<int>, p2: seq<int>, s: seq<int>)
    requires Parents(p1, p2) && |s| == |p1|
  {
    forall k {:trigger Leader(s, k)} :: 0 <= k < |s| && s[k] >= 1 ==> OnCycle(p1, p2, Leader(s, k), k)
  }

  /** What the labelling loop establishes: every position labelled (>= 1),
      labels closed under the cycle step, each label class the cycle of its
      first position, labels numbered in order of their first position. */
  ghost predicate IsCycleLabelling(p1: seq<int>, p2: seq<int>, cycles: seq<int>)
    requires Parents(p1, p2)
  {
    |cycles| == |p1| &&
    (forall k :: 0 <= k < |cycles| ==> cycles[k] >= 1) &&
    (forall k {:trigger NextPos(p1, p2, k)} :: 0 <= k < |cycles| ==> cycles[NextPos(p1, p2, k)] == cycles[k]) &&
    LabelsAreOrbits(p1, p2, cycles) &&
    NumberedInOrder(cycles)
  }

  /** Labels are constant along the cycle step, hence along whole cycles. */
  lemma {:induction false} LabelAlongCycle(p1: seq<int>, p2: seq<int>, cycles: seq<int>, k: int, m: nat)
    requires Parents(p1, p2) && IsCycleLabelling(p1, p2, cycles) && 0 <= k < |p1|
    ensures cycles[Iter(p1, p2, k, m)] == cycles[k]
  {
    if m > 0 {
      LabelAlongCycle(p1, p2, cycles, k, m - 1);
    }
  }

  /** Two positions carry the same label exactly when the second lies on the
      cycle of the first position labelled like the first: the label classes
      are precisely the cycles of the two parents. */
  lemma SameLabelIffSameCycle(p1: seq<int>, p2: seq<int>, cycles: seq<int>, j: int, k: int)
    requires Parents(p1, p2) && IsCycleLabelling(p1, p2, cycles)
    requires 0 <= j < |p1| && 0 <= k < |p1|
    ensures cycles[j] == cycles[k] <==> OnCycle(p1, p2, Leader(cycles, k), j)
  {
    var leader := Leader(cycles, k);
    if cycles[j] == cycles[k] {
      assert OnCycle(p1, p2, Leader(cycles, j), j);
    }
    if OnCycle(p1, p2, leader, j) {
      var m: nat :| Iter(p1, p2, leader, m) == j;
      LabelAlongCycle(p1, p2, cycles, leader, m);
    }
  }

  /** Positions that share a label in one cycle labelling share a label in
      any other: both lie on the cycle of the first of them, along which every
      labelling is constant. */
  lemma SamePartition(p1: seq<int>, p2: seq<int>, a: seq<int>, b: seq<int>, j: int, k: int)
    requires Parents(p1, p2) && IsCycleLabelling(p1, p2, a) && IsCycleLabelling(p1, p2, b)
    requires 0 <= j < |p1| && 0 <= k < |p1| && a[j] == a[k]
    ensures b[j] == b[k]
  {
    var leader := Leader(a, k);
    assert Leader(a, j) == leader;
    var mj: nat :| Iter(p1, p2, leader, mj) == j;
    var mk: nat :| Iter(p1, p2, leader, mk) == k;
    LabelAlongCycle(p1, p2, b, leader, mj);
    LabelAlongCycle(p1, p2, b, leader, mk);
  }

  /** A labelling numbered in order uses every label from 1 up to its largest. */
  lemma {:induction false} NumberedContiguous(s: seq<int>)
    requires NumberedInOrder(s) && forall k :: 0 <= k < |s| ==> s[k] >= 1
    ensures forall v :: 1 <= v <= MaxLabel(s) ==> v in s
  {
    if s != [] {
      var t := s[..|s| - 1];
      forall k | 0 <= k < |t|
        ensures t[k] <= 1 + MaxLabel(t[..k])
      {
        assert t[..k] == s[..k];
      }
      NumberedContiguous(t);
      assert s[|s| - 1] <= 1 + MaxLabel(s[..|s| - 1]);
      forall v | 1 <= v <= MaxLabel(s)
        ensures v in s
      {
        if v <= MaxLabel(t) {
          assert v in t;
          var k :| 0 <= k < |t| && t[k] == v;
          assert s[k] == v;
        }
      }
    }
  }

  /** A label not seen before position `i` is the next fresh one. */
  lemma FreshLabel(s: seq<int>, i: int)
    requires NumberedInOrder(s) && forall k :: 0 <= k < |s| ==> s[k] >= 1
    requires 0 <= i < |s| && forall k :: 0 <= k < i ==> s[k] != s[i]
    ensures s[i] == 1 + MaxLabel(s[..i])
  {
    var t := s[..i];
    assert s[i] !in t;
    forall k | 0 <= k < |t|
      ensures t[k] <= 1 + MaxLabel(t[..k])
    {
      assert t[..k] == s[..k];
    }
    NumberedContiguous(t);
  }

  /** `a` and `b` group the positions into the same classes. */
  predicate SameClasses(a: seq<int>, b: seq<int>)
  {
    |a| == |b| &&
    forall j, k :: 0 <= j < |a| && 0 <= k < |a| ==> (a[j] == a[k] <==> b[j] == b[k])
  }

  /** One step of `PrefixAgree`: agreeing before `x`, they agree at `x`. */
  lemma AgreeStep(a: seq<int>, b: seq<int>, x: int)
    requires SameClasses(a, b) && NumberedInOrder(a) && NumberedInOrder(b)
    requires forall k :: 0 <= k < |a| ==> a[k] >= 1 && b[k] >= 1
    requires 0 <= x < |a| && a[..x] == b[..x]
    ensures a[x] == b[x]
  {
    if exists k :: 0 <= k < x && a[k] == a[x] {
      var k :| 0 <= k < x && a[k] == a[x];
      assert a[..x][k] == b[..x][k];
    } else {
      forall k | 0 <= k < x
        ensures b[k] != b[x]
      {
        assert a[..x][k] == b[..x][k];
      }
      FreshLabel(a, x);
      FreshLabel(b, x);
    }
  }

  /** Two labellings numbered in order that group positions alike agree. */
  lemma {:induction false} PrefixAgree(a: seq<int>, b: seq<int>, i: int)
    requires SameClasses(a, b) && NumberedInOrder(a) && NumberedInOrder(b)
    requires forall k :: 0 <= k < |a| ==> a[k] >= 1 && b[k] >= 1
    requires 0 <= i <= |a|
    ensures a[..i] == b[..i]
  {
    if i > 0 {
      PrefixAgree(a, b, i - 1);
      AgreeStep(a, b, i - 1);
      assert a[..i] == a[..i - 1] + [a[i - 1]];
      assert b[..i] == b[..i - 1] + [b[i - 1]];
    }
  }

  /** The parents determine their cycle labelling: there is exactly one, so
      the cycle crossover children are determined too. */
  lemma CycleLabellingUnique(p1: seq<int>, p2: seq<int>, a: seq<int>, b: seq<int>)
    requires Parents(p1, p2) && IsCycleLabelling(p1, p2, a) && IsCycleLabelling(p1, p2, b)
    ensures a == b
  {
    forall j, k | 0 <= j < |a| && 0 <= k < |a|
      ensures a[j] == a[k] <==> b[j] == b[k]
    {
      if a[j] == a[k] {
        SamePartition(p1, p2, a, b, j, k);
      }
      if b[j] == b[k] {
        SamePartition(p1, p2, b, a, j, k);
      }
    }
    PrefixAgree(a, b, |a|);
    assert a[..|a|] == a && b[..|a|] == b;
  }

  lemma FirstPositionLabelOne(p1: seq<int>, p2: seq<int>, cycles: seq<int>)
    requires Parents(p1, p2) && IsCycleLabelling(p1, p2, cycles) && |p1| > 0
    ensures cycles[0] == 1
  {
    assert cycles[..0] == [];
  }

  /** Number of unlabelled (negative) entries. */
  function Unlabelled(s: seq<int>): nat
  {
    if s == [] then 0 else Unlabelled(s[..|s| - 1]) + (if s[|s| - 1] < 0 then 1 else 0)
  }

  lemma {:induction false} UnlabelledDecreases(s: seq<int>, p: int, v: int)
    requires 0 <= p < |s| && s[p] < 0 && v >= 0
    ensures Unlabelled(s[p := v]) == Unlabelled(s) - 1
  {
    var t := s[p := v];
    if p < |s| - 1 {
      assert t[..|t| - 1] == s[..|s| - 1][p := v];
      UnlabelledDecreases(s[..|s| - 1], p, v);
    } else {
      assert t[..|t| - 1] == s[..|s| - 1];
    }
  }

  /** Every labelled position shares its label with the next and the
      previous position of its cycle. */
  predicate Closed(p1: seq<int>, p2: seq<int>, s: seq<int>)
    requires Parents(p1, p2) && |s| == |p1|
  {
    (forall k {:trigger NextPos(p1, p2, k)} :: 0 <= k < |s| && s[k] >= 1 ==> s[NextPos(p1, p2, k)] == s[k]) &&
    (forall k {:trigger PrevPos(p1, p2, k)} :: 0 <= k < |s| && s[k] >= 1 ==> s[PrevPos(p1, p2, k)] == s[k])
  }

  /** Labels are -1 (not yet labelled) or lie in `[1, bound)`. */
  predicate LabelsBelow(s: seq<int>, bound: int)
  {
    forall k :: 0 <= k < |s| ==> s[k] == -1 || 1 <= s[k] < bound
  }

  /** `s` differs from `before` only where `before` is -1 and `s` is `c`. */
  predicate OnlyNewLabels(before: seq<int>, s: seq<int>, c: int)
  {
    |s| == |before| && forall k :: 0 <= k < |s| ==> s[k] == before[k] || (before[k] == -1 && s[k] == c)
  }

  /** Every position labelled `c` lies on the cycle through `start`. */
  ghost predicate LabelledOnCycle(p1: seq<int>, p2: seq<int>, s: seq<int>, start: int, c: int)
    requires Parents(p1, p2) && |s| == |p1| && 0 <= start < |p1|
  {
    forall k :: 0 <= k < |s| && s[k] == c ==> OnCycle(p1, p2, start, k)
  }

  /** The `c`-labelled positions are closed under the cycle step except
      forwards from `last` and backwards from `first`: a path from `first` to
      `last`. */
  ghost predicate PathClosed(p1: seq<int>, p2: seq<int>, s: seq<int>, first: int, last: int, c: int)
    requires Parents(p1, p2) && |s| == |p1|
  {
    (forall k {:trigger NextPos(p1, p2, k)} :: 0 <= k < |s| && s[k] == c && k != last ==> s[NextPos(p1, p2, k)] == c) &&
    (forall k {:trigger PrevPos(p1, p2, k)} :: 0 <= k < |s| && s[k] == c && k != first ==> s[PrevPos(p1, p2, k)] == c)
  }

  /** The state of the inner loop while it labels the cycle through `start`
      with `c`: `s` differs from `before` only where `before` was -1 and `s` is
      `c`; `prev` is the position labelled last (-1 before the first step) and
      `pos == NextPos(prev)`, `steps` cycle steps from `start`; the
      `c`-labelled positions form a path from `start` to `prev` along the
      cycle step. */
  ghost predicate FollowInv(p1: seq<int>, p2: seq<int>, before: seq<int>, s: seq<int>,
                            start: int, prev: int, pos: int, steps: nat, c: int)
    requires Parents(p1, p2) && |before| == |p1| && |s| == |p1|
  {
    0 <= start < |s| && 0 <= pos < |s| &&
    pos == Iter(p1, p2, start, steps) &&
    LabelledOnCycle(p1, p2, s, start, c) &&
    OnlyNewLabels(before, s, c) &&
    (prev == -1 ==> pos == start && s == before) &&
    (prev != -1 ==> 0 <= prev < |s| && s[prev] == c && NextPos(p1, p2, prev) == pos && s[start] == c) &&
    PathClosed(p1, p2, s, start, prev, c) &&
    (s[pos] == c ==> pos == start)
  }

  /** One iteration of the inner loop (label `pos`, step to `NextPos(pos)`)
      keeps the loop state. */
  lemma FollowStep(p1: seq<int>, p2: seq<int>, before: seq<int>, s: seq<int>,
                   start: int, prev: int, pos: int, steps: nat, c: int)
    requires Parents(p1, p2) && |before| == |p1| && |s| == |p1| && c >= 1
    requires LabelsBelow(before, c)
    requires FollowInv(p1, p2, before, s, start, prev, pos, steps, c) && s[pos] < 0
    ensures FollowInv(p1, p2, before, s[pos := c], start, pos, NextPos(p1, p2, pos), steps + 1, c)
  {
    var t := s[pos := c];
    var next := NextPos(p1, p2, pos);
    StepInverse(p1, p2, pos);
    StepInverse(p1, p2, next);
    if prev != -1 {
      StepInverse(p1, p2, prev);
      assert pos != start && prev != pos;
    }
    forall k | 0 <= k < |t| && t[k] == c
      ensures OnCycle(p1, p2, start, k)
    {
      if k == pos {
        assert Iter(p1, p2, start, steps) == k;
      }
    }
    forall k | 0 <= k < |t| && t[k] == c && k != start
      ensures t[PrevPos(p1, p2, k)] == c
    {
      if k == pos {
        assert PrevPos(p1, p2, pos) == prev;
      }
    }
  }

  /** When the inner loop stops it is back at `start`: the whole cycle through
      `start` carries `c`, every other label is unchanged, and the labelling
      is again closed under the cycle step. */
  lemma FollowExit(p1: seq<int>, p2: seq<int>, before: seq<int>, s: seq<int>,
                   start: int, prev: int, pos: int, steps: nat, c: int)
    requires Parents(p1, p2) && |before| == |p1| && |s| == |p1| && c >= 1
    requires LabelsBelow(before, c) && Closed(p1, p2, before)
    requires FollowInv(p1, p2, before, s, start, prev, pos, steps, c) && before[start] < 0 && s[pos] >= 0
    ensures pos == start && s[start] == c
    ensures LabelsBelow(s, c + 1)
    ensures Closed(p1, p2, s)
    ensures OnlyNewLabels(before, s, c) && LabelledOnCycle(p1, p2, s, start, c)
    ensures (forall k :: 0 <= k < start ==> before[k] >= 1) ==> s[..start] == before[..start]
  {
    assert prev != -1;
    StepInverse(p1, p2, prev);
    assert PrevPos(p1, p2, pos) == prev;
    assert before[prev] == -1;
    assert before[pos] == -1;
    forall k | 0 <= k < |s| && s[k] >= 1
      ensures s[NextPos(p1, p2, k)] == s[k] && s[PrevPos(p1, p2, k)] == s[k]
    {
      if s[k] != c {
        assert s[k] == before[k];
        assert before[NextPos(p1, p2, k)] == before[k];
        assert before[PrevPos(p1, p2, k)] == before[k];
      }
    }
  }

  /** The inner `while` loop of `cycleCrossover`: starting at the unlabelled
      position `start`, label with `cycleNo` and follow the cycle step until a
      labelled position is met. That position is `start` itself, so exactly
      the cycle through `start` gets the new label. */
  method FollowCycle(parent1: seq<int>, parent2: seq<int>, cycles: seq<int>, start: int, cycleNo: int)
    returns (labelled: seq<int>)
    requires Parents(parent1, parent2) && |cycles| == |parent1|
    requires 0 <= start < |cycles| && cycles[start] < 0 && cycleNo >= 1
    requires LabelsBelow(cycles, cycleNo) && Closed(parent1, parent2, cycles)
    ensures OnlyNewLabels(cycles, labelled, cycleNo)
    ensures labelled[start] == cycleNo
    ensures (forall k :: 0 <= k < start ==> cycles[k] >= 1) ==> labelled[..start] == cycles[..start]
    ensures LabelsBelow(labelled, cycleNo + 1) && Closed(parent1, parent2, labelled)
    ensures LabelledOnCycle(parent1, parent2, labelled, start, cycleNo)
  {
    labelled := cycles;
    var pos := start;
    ghost var prev := -1;
    ghost var steps: nat := 0;
    while labelled[pos] < 0
      invariant |labelled| == |cycles|
      invariant FollowInv(parent1, parent2, cycles, labelled, start, prev, pos, steps, cycleNo)
      decreases Unlabelled(labelled)
    {
      UnlabelledDecreases(labelled, pos, cycleNo);
      FollowStep(parent1, parent2, cycles, labelled, start, prev, pos, steps, cycleNo);
      labelled := labelled[pos := cycleNo];
      prev := pos;
      pos := IndexOf(parent1, parent2[pos]);
      steps := steps + 1;
    }
    FollowExit(parent1, parent2, cycles, labelled, start, prev, pos, steps, cycleNo);
  }

  /** The state of the outer loop before position `start`: every earlier
      position is labelled, labels are closed under the cycle step, and the
      labels used so far are `1 .. c-1`, numbered in order of first position. */
  ghost predicate OuterInv(p1: seq<int>, p2: seq<int>, s: seq<int>, start: int, c: int)
    requires Parents(p1, p2)
  {
    |s| == |p1| && 0 <= start <= |s| && c >= 1 &&
    LabelsBelow(s, c) &&
    (forall k :: 0 <= k < start ==> s[k] >= 1) &&
    Closed(p1, p2, s) &&
    LabelsAreOrbits(p1, p2, s) &&
    MaxLabel(s[..start]) == c - 1 &&
    NumberedInOrder(s[..start])
  }

  lemma OuterInit(p1: seq<int>, p2: seq<int>, s: seq<int>)
    requires Parents(p1, p2) && |s| == |p1|
    requires forall k :: 0 <= k < |s| ==> s[k] == -1
    ensures OuterInv(p1, p2, s, 0, 1)
  {
    assert s[..0] == [];
  }

  /** `IndexOf` only depends on where the value occurs. */
  lemma IndexOfSameOccurrences(s: seq<int>, t: seq<int>, x: int)
    requires |s| == |t| && x in s
    requires forall k :: 0 <= k < |s| ==> (s[k] == x <==> t[k] == x)
    ensures x in t && IndexOf(s, x) == IndexOf(t, x)
  {
    var r := IndexOf(s, x);
    assert t[r] == x;
    var r' := IndexOf(t, x);
    assert s[r'] == x;
  }

  /** The new label `c`, first used at `start`, has `start` as its leader. */
  lemma LeaderOfNewLabel(s: seq<int>, t: seq<int>, start: int, c: int, k: int)
    requires |t| == |s| && 0 <= start < |s| && 0 <= k < |t| && c >= 1
    requires LabelsBelow(s, c) && t[..start] == s[..start] && t[start] == c && t[k] == c
    ensures Leader(t, k) == start
  {
    forall j | 0 <= j < start
      ensures t[j] != c
    {
      assert t[j] == s[..start][j];
    }
  }

  /** Labelling a new cycle does not move the leader of an older label. */
  lemma LeaderKept(s: seq<int>, t: seq<int>, c: int, k: int)
    requires |t| == |s| && 0 <= k < |t| && LabelsBelow(s, c)
    requires OnlyNewLabels(s, t, c)
    requires t[k] >= 1 && t[k] != c
    ensures t[k] == s[k] && Leader(t, k) == Leader(s, k)
  {
    IndexOfSameOccurrences(s, t, s[k]);
  }

  /** A position labelled by an earlier cycle is passed over. */
  lemma OuterSkip(p1: seq<int>, p2: seq<int>, s: seq<int>, start: int, c: int)
    requires Parents(p1, p2) && OuterInv(p1, p2, s, start, c) && start < |s| && s[start] >= 0
    ensures OuterInv(p1, p2, s, start + 1, c)
  {
    assert s[..start + 1] == s[..start] + [s[start]];
    NumberedExtend(s[..start], s[start]);
  }

  /** Labelling a new cycle `c` from `start` keeps every label class the
      cycle of its leader. */
  lemma OrbitsAfterLabel(p1: seq<int>, p2: seq<int>, s: seq<int>, t: seq<int>, start: int, c: int)
    requires Parents(p1, p2) && |s| == |p1| && |t| == |s| && 0 <= start < |s| && c >= 1
    requires LabelsBelow(s, c) && LabelsAreOrbits(p1, p2, s)
    requires t[start] == c && t[..start] == s[..start]
    requires OnlyNewLabels(s, t, c) && LabelledOnCycle(p1, p2, t, start, c)
    ensures LabelsAreOrbits(p1, p2, t)
  {
    forall k | 0 <= k < |t| && t[k] >= 1
      ensures OnCycle(p1, p2, Leader(t, k), k)
    {
      if t[k] == c {
        LeaderOfNewLabel(s, t, start, c, k);
      } else {
        LeaderKept(s, t, c, k);
      }
    }
  }

  /** Appending the fresh label `c` to a prefix numbered `1 .. c-1`. */
  lemma NumberingAfterLabel(s: seq<int>, t: seq<int>, start: int, c: int)
    requires |t| == |s| && 0 <= start < |s|
    requires MaxLabel(s[..start]) == c - 1 && NumberedInOrder(s[..start])
    requires t[start] == c && t[..start] == s[..start]
    ensures MaxLabel(t[..start + 1]) == c && NumberedInOrder(t[..start + 1])
  {
    assert t[..start + 1] == s[..start] + [c];
    NumberedExtend(s[..start], c);
  }

  /** An unlabelled position starts cycle `c`; afterwards the next fresh
      label is `c + 1`. */
  lemma OuterLabel(p1: seq<int>, p2: seq<int>, s: seq<int>, t: seq<int>, start: int, c: int)
    requires Parents(p1, p2) && OuterInv(p1, p2, s, start, c) && start < |s| && s[start] < 0
    requires |t| == |s| && t[start] == c && t[..start] == s[..start]
    requires OnlyNewLabels(s, t, c) && LabelledOnCycle(p1, p2, t, start, c)
    requires LabelsBelow(t, c + 1) && Closed(p1, p2, t)
    ensures OuterInv(p1, p2, t, start + 1, c + 1)
  {
    OrbitsAfterLabel(p1, p2, s, t, start, c);
    NumberingAfterLabel(s, t, start, c);
    forall k | 0 <= k < start + 1
      ensures t[k] >= 1
    {
      if k < start {
        assert t[k] == t[..start][k];
      }
    }
  }

  /** The labelling loop of `cycleCrossover`: the generator `cyclestart`
      yields, in increasing order, each position still unlabelled when it is
      reached, and a new cycle is labelled from there with `cycle_no`. */
  method CycleLabels(parent1: seq<int>, parent2: seq<int>) returns (cycles: seq<int>)
    requires Parents(parent1, parent2)
    ensures IsCycleLabelling(parent1, parent2, cycles)
  {
    var n := |parent1|;
    cycles := seq(n, _ => -1);
    OuterInit(parent1, parent2, cycles);
    var cycleNo := 1;
    var start := 0;
    while start < n
      invariant OuterInv(parent1, parent2, cycles, start, cycleNo)
    {
      if cycles[start] < 0 {
        var labelled := FollowCycle(parent1, parent2, cycles, start, cycleNo);
        OuterLabel(parent1, parent2, cycles, labelled, start, cycleNo);
        cycles := labelled;
        cycleNo := cycleNo + 1;
      } else {
        OuterSkip(parent1, parent2, cycles, start, cycleNo);
      }
      start := start + 1;
    }
    assert cycles[..n] == cycles;
  }

  /** The child built by the comprehensions at the end of `cycleCrossover`:
      from `parent1` where the label's parity is `odd`, else from `parent2`. */
  function Mix(parent1: seq<int>, parent2: seq<int>, cycles: seq<int>, odd: bool): (child: seq<int>)
    requires |parent1| == |cycles| && |parent2| == |cycles|
    ensures |child| == |cycles|
  {
    seq(|cycles|, i requires 0 <= i < |cycles| =>
      if (cycles[i] % 2 != 0) == odd then parent1[i] else parent2[i])
  }

  /** Whole cycles are copied: every position on the cycle of `k` takes its
      value from the parent that the label of `k` selects. */
  lemma MixTakesWholeCycles(p1: seq<int>, p2: seq<int>, cycles: seq<int>, odd: bool, k: int, j: int)
    requires Parents(p1, p2) && IsCycleLabelling(p1, p2, cycles)
    requires 0 <= k < |p1| && 0 <= j < |p1| && OnCycle(p1, p2, k, j)
    ensures Mix(p1, p2, cycles, odd)[j] == if (cycles[k] % 2 != 0) == odd then p1[j] else p2[j]
  {
    var m: nat :| Iter(p1, p2, k, m) == j;
    LabelAlongCycle(p1, p2, cycles, k, m);
  }

  /** `child1` takes odd-labelled cycles from parent1 and even ones from parent2;
      `child2` the other way round. */
  function CycleChildren(parent1: seq<int>, parent2: seq<int>, cycles: seq<int>): (children: (seq<int>, seq<int>))
    requires |parent1| == |cycles| && |parent2| == |cycles|
    ensures |children.0| == |cycles| && |children.1| == |cycles|
    ensures forall i :: 0 <= i < |cycles| ==>
      (children.0[i] == parent1[i] && children.1[i] == parent2[i]) ||
      (children.0[i] == parent2[i] && children.1[i] == parent1[i])
  {
    (Mix(parent1, parent2, cycles, true), Mix(parent1, parent2, cycles, false))
  }

  /** A child built from whole label classes has no duplicates: a value
      taken from parent2 at `b` sits in parent1 at `NextPos(b)`, in the same
      class, so the child does not take it from parent1 as well. */
  lemma MixDistinct(p1: seq<int>, p2: seq<int>, cycles: seq<int>, odd: bool)
    requires Parents(p1, p2) && IsCycleLabelling(p1, p2, cycles)
    ensures Distinct(Mix(p1, p2, cycles, odd))
  {
    ParentsFacts(p1, p2);
    var c := Mix(p1, p2, cycles, odd);
    forall a, b | 0 <= a < b < |c|
      ensures c[a] != c[b]
    {
      var fromA := (cycles[a] % 2 != 0) == odd;
      var fromB := (cycles[b] % 2 != 0) == odd;
      if fromA && !fromB {
        var nb := NextPos(p1, p2, b);
        assert p1[nb] == p2[b];
      } else if !fromA && fromB {
        var na := NextPos(p1, p2, a);
        assert p1[na] == p2[a];
      }
    }
  }

  /** Every city of parent1 lands in the child: at its own position, or at
      the position of its cycle where parent2 holds it. */
  lemma MixMembers(p1: seq<int>, p2: seq<int>, cycles: seq<int>, odd: bool)
    requires Parents(p1, p2) && IsCycleLabelling(p1, p2, cycles)
    ensures forall x :: x in Mix(p1, p2, cycles, odd) <==> x in p1
  {
    ParentsFacts(p1, p2);
    var c := Mix(p1, p2, cycles, odd);
    forall x
      ensures x in c <==> x in p1
    {
      if x in p1 {
        var k :| 0 <= k < |p1| && p1[k] == x;
        if (cycles[k] % 2 != 0) != odd {
          var q := PrevPos(p1, p2, k);
          StepInverse(p1, p2, k);
          assert cycles[q] == cycles[k];
          assert c[q] == x;
        } else {
          assert c[k] == x;
        }
      }
    }
  }

  /** Taking whole label classes from one parent and the rest from the other
      gives a permutation of the parents. */
  lemma MixPermutation(p1: seq<int>, p2: seq<int>, cycles: seq<int>, odd: bool)
    requires Parents(p1, p2) && IsCycleLabelling(p1, p2, cycles)
    ensures IsPermutationOf(Mix(p1, p2, cycles, odd), p1)
  {
    MixDistinct(p1, p2, cycles, odd);
    MixMembers(p1, p2, cycles, odd);
    DistinctSameMembers(Mix(p1, p2, cycles, odd), p1);
  }

  lemma CycleChildrenPermutation(parent1: seq<int>, parent2: seq<int>, cycles: seq<int>)
    requires Parents(parent1, parent2) && IsCycleLabelling(parent1, parent2, cycles)
    ensures IsPermutationOf(CycleChildren(parent1, parent2, cycles).0, parent1)
    ensures IsPermutationOf(CycleChildren(parent1, parent2, cycles).1, parent2)
  {
    MixPermutation(parent1, parent2, cycles, true);
    MixPermutation(parent1, parent2, cycles, false);
  }

  /** `cycleCrossover`: label the cycles, then alternate them between the children. */
  method CycleCrossover(parent1: seq<int>, parent2: seq<int>) returns (child1: seq<int>, child2: seq<int>)
    requires Parents(parent1, parent2)
    ensures exists cycles ::
      IsCycleLabelling(parent1, parent2, cycles) && (child1, child2) == CycleChildren(parent1, parent2, cycles)
    ensures forall cycles :: IsCycleLabelling(parent1, parent2, cycles) ==>
      (child1, child2) == CycleChildren(parent1, parent2, cycles)
    ensures IsPermutationOf(child1, parent1) && IsPermutationOf(child2, parent2)
  {
    ParentsFacts(parent1, parent2);
    var cycles := CycleLabels(parent1, parent2);
    child1, child2 := Mix(parent1, parent2, cycles, true), Mix(parent1, parent2, cycles, false);
    CycleChildrenPermutation(parent1, parent2, cycles);
    assert (child1, child2) == CycleChildren(parent1, parent2, cycles);
    forall other | IsCycleLabelling(parent1, parent2, other)
      ensures (child1, child2) == CycleChildren(parent1, parent2, other)
    {
      CycleLabellingUnique(parent1, parent2, cycles, other);
    }
  }

  /** `processCrossover`: an unknown name is rejected (the source raises); the
      two operators return two permutations of their parents. */
  method ProcessCrossover(crossoverType: string, parent1: seq<int>, parent2: seq<int>, cut: int)
    returns (result: Option<(seq<int>, seq<int>)>)
    requires ParseCrossoverType(crossoverType).Some? ==> Parents(parent1, parent2)
    requires crossoverType == "orderedCrossover" ==> 0 <= cut < |parent1|
    ensures result.None? <==> ParseCrossoverType(crossoverType).None?
    ensures result.Some? ==>
      IsPermutationOf(result.value.0, parent1) && IsPermutationOf(result.value.1, parent2)
    ensures crossoverType == "orderedCrossover" ==> result == Some(OrderedCrossover(parent1, parent2, cut))
    ensures crossoverType == "cycleCrossover" ==>
      exists cycles :: IsCycleLabelling(parent1, parent2, cycles) &&
        result == Some(CycleChildren(parent1, parent2, cycles))
    ensures crossoverType == "cycleCrossover" ==>
      forall cycles :: IsCycleLabelling(parent1, parent2, cycles) ==>
        result == Some(CycleChildren(parent1, parent2, cycles))
  {
    if crossoverType == "orderedCrossover" {
      OrderedCrossoverCorrect(parent1, parent2, cut);
      result := Some(OrderedCrossover(parent1, parent2, cut));
    } else if crossoverType == "cycleCrossover" {
      var child1, child2 := CycleCrossover(parent1, parent2);
      result := Some((child1, child2));
    } else {
      result := None;
    }
  }
}
