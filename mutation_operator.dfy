/** The five mutation operators of `Algorithm/MutationOperator.py`.

    Every operator copies the caller's tour into a new buffer (`mutatedChild`)
    and rewrites positions of that buffer in place. The random draws
    (`RNG.choice`, `RNG.permutation`) are parameters. None of the methods has a
    `modifies` clause, so the caller's array is never changed; each returns a
    new array distinct from it. Each operator is specified by a function on
    sequences (`Swapped`, `SwapAll`, `Inverted`, `Scrambled`, `Inserted`),
    about which the position-by-position and permutation lemmas are proved. */
module MutationOperator {
  import opened Tours

  datatype MutationType = SingleSwap | MultiSwap | Inversion | Insert | Scramble

  /** The keys of `mutationTypeDict`. */
  function Name(t: MutationType): string
  {
    match t
    case SingleSwap => "singleSwap"
    case MultiSwap => "multiSwap"
    case Inversion => "inversion"
    case Insert => "insert"
    case Scramble => "scramble"
  }

  /** The dictionary lookup of `processMutation`: exactly the five keys are
      accepted, and each is read back as the operator it names. */
  function ParseMutationType(name: string): (r: Option<MutationType>)
    ensures r.Some? ==> Name(r.value) == name
    ensures r.None? ==> forall t: MutationType :: Name(t) != name
  {
    if name == "singleSwap" then Some(SingleSwap)
    else if name == "multiSwap" then Some(MultiSwap)
    else if name == "inversion" then Some(Inversion)
    else if name == "insert" then Some(Insert)
    else if name == "scramble" then Some(Scramble)
    else None
  }

  lemma ParseName(t: MutationType)
    ensures ParseMutationType(Name(t)) == Some(t)
  {
  }

  /** Two distinct positions below `bound`: what `RNG.choice(bound, 2, replace=False)` returns. */
  predicate DistinctPair(i: int, j: int, bound: int)
  {
    0 <= i < bound && 0 <= j < bound && i != j
  }

  datatype IndexPair = IndexPair(first: int, second: int)

  function Min(a: int, b: int): int { if a <= b then a else b }
  function Max(a: int, b: int): int { if a <= b then b else a }

  // ---------------------------------------------------------------------
  // Specification functions

  /** `s` with the values at `i` and `j` exchanged (`np.put`). */
  function Swapped(s: seq<int>, i: int, j: int): seq<int>
    requires 0 <= i < |s| && 0 <= j < |s|
  {
    s[i := s[j]][j := s[i]]
  }

  /** The successive swaps of `multiSwap`, each applied to the tour the
      previous ones produced. */
  function SwapAll(s: seq<int>, pairs: seq<IndexPair>): (r: seq<int>)
    requires forall k :: 0 <= k < |pairs| ==> DistinctPair(pairs[k].first, pairs[k].second, |s|)
    ensures |r| == |s|
    decreases |pairs|
  {
    if pairs == [] then s
    else
      var last := pairs[|pairs| - 1];
      var before := SwapAll(s, pairs[..|pairs| - 1]);
      assert DistinctPair(last.first, last.second, |s|);
      Swapped(before, last.first, last.second)
  }

  function Reverse(s: seq<int>): (r: seq<int>)
    ensures |r| == |s|
  {
    if s == [] then [] else Reverse(s[1..]) + [s[0]]
  }

  /** `s` with the inclusive slice `[lo, hi]` reversed. */
  function Inverted(s: seq<int>, lo: int, hi: int): seq<int>
    requires 0 <= lo <= hi < |s|
  {
    s[..lo] + Reverse(s[lo..hi + 1]) + s[hi + 1..]
  }

  /** Where the slice `lo : hi+1` of scramble ends once Python clips it. */
  function SliceEnd(n: int, hi: int): int
  {
    Min(hi + 1, n)
  }

  /** `s` with the slice `[lo, stop)` replaced by `scrambled`. */
  function Scrambled(s: seq<int>, lo: int, stop: int, scrambled: seq<int>): seq<int>
    requires 0 <= lo <= stop <= |s|
  {
    s[..lo] + scrambled + s[stop..]
  }

  /** `s` with the value at `hi` moved to `lo` and `s[lo..hi-1]` shifted up by one. */
  function Inserted(s: seq<int>, lo: int, hi: int): seq<int>
    requires 0 <= lo < hi < |s|
  {
    s[..lo] + [s[hi]] + s[lo..hi] + s[hi + 1..]
  }

  // ---------------------------------------------------------------------
  // Properties of the specification functions

  lemma SwappedAt(s: seq<int>, i: int, j: int)
    requires 0 <= i < |s| && 0 <= j < |s| && i != j
    ensures |Swapped(s, i, j)| == |s|
    ensures Swapped(s, i, j)[i] == s[j] && Swapped(s, i, j)[j] == s[i]
    ensures forall k :: 0 <= k < |s| && k != i && k != j ==> Swapped(s, i, j)[k] == s[k]
  {
  }

  /** Overwriting one position trades one occurrence for another. */
  lemma UpdateCount(s: seq<int>, i: int, v: int)
    requires 0 <= i < |s|
    ensures multiset(s[i := v]) == multiset(s) - multiset{s[i]} + multiset{v}
  {
  }

  lemma SwappedPermutation(s: seq<int>, i: int, j: int)
    requires 0 <= i < |s| && 0 <= j < |s|
    ensures IsPermutationOf(Swapped(s, i, j), s)
  {
    if i != j {
      var t := s[i := s[j]];
      UpdateCount(s, i, s[j]);
      UpdateCount(t, j, s[i]);
      assert t[j] == s[j];
    }
  }

  lemma {:induction false} SwapAllPermutation(s: seq<int>, pairs: seq<IndexPair>)
    requires forall k :: 0 <= k < |pairs| ==> DistinctPair(pairs[k].first, pairs[k].second, |s|)
    ensures IsPermutationOf(SwapAll(s, pairs), s)
    decreases |pairs|
  {
    if pairs != [] {
      var last := pairs[|pairs| - 1];
      SwapAllPermutation(s, pairs[..|pairs| - 1]);
      SwappedPermutation(SwapAll(s, pairs[..|pairs| - 1]), last.first, last.second);
    }
  }

  /** `multiSwap` with no draws is the identity. */
  lemma SwapAllNone(s: seq<int>)
    ensures SwapAll(s, []) == s
  {
  }

  /** One more draw is one more swap of the already-mutated tour. */
  lemma SwapAllStep(s: seq<int>, pairs: seq<IndexPair>, p: IndexPair)
    requires forall k :: 0 <= k < |pairs| ==> DistinctPair(pairs[k].first, pairs[k].second, |s|)
    requires DistinctPair(p.first, p.second, |s|)
    ensures SwapAll(s, pairs + [p]) == Swapped(SwapAll(s, pairs), p.first, p.second)
  {
    assert (pairs + [p])[..|pairs|] == pairs;
  }

  lemma {:induction false} ReverseAt(s: seq<int>, k: int)
    requires 0 <= k < |s|
    ensures Reverse(s)[k] == s[|s| - 1 - k]
  {
    if k < |s| - 1 {
      ReverseAt(s[1..], k);
    }
  }

  lemma {:induction false} ReversePermutation(s: seq<int>)
    ensures IsPermutationOf(Reverse(s), s)
  {
    if s != [] {
      ReversePermutation(s[1..]);
      assert s == [s[0]] + s[1..];
    }
  }

  lemma InvertedAt(s: seq<int>, lo: int, hi: int)
    requires 0 <= lo <= hi < |s|
    ensures |Inverted(s, lo, hi)| == |s|
    ensures forall k :: lo <= k <= hi ==> Inverted(s, lo, hi)[k] == s[lo + hi - k]
    ensures forall k :: 0 <= k < |s| && (k < lo || hi < k) ==> Inverted(s, lo, hi)[k] == s[k]
  {
    var r := Inverted(s, lo, hi);
    forall k | lo <= k <= hi
      ensures r[k] == s[lo + hi - k]
    {
      ReverseAt(s[lo..hi + 1], k - lo);
    }
  }

  lemma InvertedPermutation(s: seq<int>, lo: int, hi: int)
    requires 0 <= lo <= hi < |s|
    ensures IsPermutationOf(Inverted(s, lo, hi), s)
  {
    ReversePermutation(s[lo..hi + 1]);
    assert s == s[..lo] + s[lo..hi + 1] + s[hi + 1..];
  }

  lemma ScrambledAt(s: seq<int>, lo: int, stop: int, scrambled: seq<int>)
    requires 0 <= lo <= stop <= |s| && |scrambled| == stop - lo
    ensures |Scrambled(s, lo, stop, scrambled)| == |s|
    ensures forall k :: 0 <= k < |s| && (k < lo || stop <= k) ==> Scrambled(s, lo, stop, scrambled)[k] == s[k]
    ensures forall k :: lo <= k < stop ==> Scrambled(s, lo, stop, scrambled)[k] == scrambled[k - lo]
  {
  }

  lemma ScrambledPermutation(s: seq<int>, lo: int, stop: int, scrambled: seq<int>)
    requires 0 <= lo <= stop <= |s|
    requires IsPermutationOf(scrambled, s[lo..stop])
    ensures IsPermutationOf(Scrambled(s, lo, stop, scrambled), s)
  {
    assert s == s[..lo] + s[lo..stop] + s[stop..];
  }

  lemma InsertedAt(s: seq<int>, lo: int, hi: int)
    requires 0 <= lo < hi < |s|
    ensures |Inserted(s, lo, hi)| == |s|
    ensures Inserted(s, lo, hi)[lo] == s[hi]
    ensures forall p :: lo < p <= hi ==> Inserted(s, lo, hi)[p] == s[p - 1]
    ensures forall p :: 0 <= p < |s| && (p < lo || hi < p) ==> Inserted(s, lo, hi)[p] == s[p]
  {
  }

  lemma InsertedPermutation(s: seq<int>, lo: int, hi: int)
    requires 0 <= lo < hi < |s|
    ensures IsPermutationOf(Inserted(s, lo, hi), s)
  {
    assert s == s[..lo] + s[lo..hi] + [s[hi]] + s[hi + 1..];
  }

  // ---------------------------------------------------------------------
  // The operators

  /** `mutatedChild = np.zeros(len(child), dtype=np.int8); mutatedChild += child`. */
  method CopyChild(child: array<int>) returns (mutated: array<int>)
    requires Int8Range(child[..])
    ensures fresh(mutated) && mutated[..] == child[..]
  {
    mutated := new int[child.Length](_ => 0);
    forall k | 0 <= k < child.Length {
      mutated[k] := mutated[k] + child[k];
    }
  }

  method SingleSwapOp(child: array<int>, i: int, j: int) returns (mutated: array<int>)
    requires Int8Range(child[..])
    requires DistinctPair(i, j, child.Length)
    ensures fresh(mutated) && mutated != child
    ensures mutated[..] == Swapped(child[..], i, j)
    ensures IsPermutationOf(mutated[..], child[..])
  {
    mutated := CopyChild(child);
    mutated[i], mutated[j] := child[j], child[i];
    SwappedPermutation(child[..], i, j);
  }

  method MultiSwapOp(child: array<int>, multiSwapAmount: int, draws: seq<IndexPair>) returns (mutated: array<int>)
    requires Int8Range(child[..])
    requires |draws| == Max(multiSwapAmount, 0)
    requires forall k :: 0 <= k < |draws| ==> DistinctPair(draws[k].first, draws[k].second, child.Length)
    ensures fresh(mutated) && mutated != child
    ensures mutated[..] == SwapAll(child[..], draws)
    ensures IsPermutationOf(mutated[..], child[..])
  {
    mutated := CopyChild(child);
    var i := 0;
    while i < multiSwapAmount
      invariant 0 <= i <= |draws|
      invariant fresh(mutated) && mutated != child && mutated.Length == child.Length
      invariant mutated[..] == SwapAll(child[..], draws[..i])
    {
      var p, q := draws[i].first, draws[i].second;
      ghost var m := mutated[..];
      SwapAllStep(child[..], draws[..i], draws[i]);
      assert draws[..i + 1] == draws[..i] + [draws[i]];
      mutated[p], mutated[q] := mutated[q], mutated[p];
      assert mutated[..] == Swapped(m, p, q);
      i := i + 1;
    }
    assert draws[..i] == draws;
    SwapAllPermutation(child[..], draws);
  }

  method InversionOp(child: array<int>, i: int, j: int) returns (mutated: array<int>)
    requires Int8Range(child[..])
    requires DistinctPair(i, j, child.Length)
    ensures fresh(mutated) && mutated != child
    ensures mutated[..] == Inverted(child[..], Min(i, j), Max(i, j))
    ensures IsPermutationOf(mutated[..], child[..])
  {
    mutated := CopyChild(child);
    var lo, hi := Min(i, j), Max(i, j);
    var subset := mutated[lo..hi + 1];
    assert subset == child[..][lo..hi + 1];
    var subsetReversed := Reverse(subset);
    forall k | lo <= k <= hi {
      mutated[k] := subsetReversed[k - lo];
    }
    InvertedAt(child[..], lo, hi);
    forall k | 0 <= k < mutated.Length
      ensures mutated[k] == Inverted(child[..], lo, hi)[k]
    {
      if lo <= k <= hi {
        ReverseAt(subset, k - lo);
      }
    }
    assert mutated[..] == Inverted(child[..], lo, hi);
    InvertedPermutation(child[..], lo, hi);
  }

  /** The slice `scrambled` must be a rearrangement of `child[lo : hi+1]`
      (what `RNG.permutation` returns). */
  predicate ScrambleFits(child: seq<int>, i: int, j: int, scrambled: seq<int>)
  {
    DistinctPair(i, j, |child| + 1) &&
    IsPermutationOf(scrambled, child[Min(i, j)..SliceEnd(|child|, Max(i, j))])
  }

  method ScrambleOp(child: array<int>, i: int, j: int, scrambled: seq<int>) returns (mutated: array<int>)
    requires Int8Range(child[..])
    requires ScrambleFits(child[..], i, j, scrambled)
    ensures fresh(mutated) && mutated != child
    ensures mutated[..] == Scrambled(child[..], Min(i, j), SliceEnd(child.Length, Max(i, j)), scrambled)
    ensures IsPermutationOf(mutated[..], child[..])
  {
    ghost var original := child[..];
    mutated := CopyChild(child);
    var lo, hi := Min(i, j), Max(i, j);
    var stop := SliceEnd(mutated.Length, hi);
    assert IsPermutationOf(scrambled, original[lo..stop]);
    assert |scrambled| == stop - lo by {
      assert |multiset(scrambled)| == |multiset(original[lo..stop])|;
    }
    forall k | lo <= k < stop {
      mutated[k] := scrambled[k - lo];
    }
    assert mutated[..] == Scrambled(original, lo, stop, scrambled);
    ScrambledPermutation(original, lo, stop, scrambled);
    assert child[..] == original;
  }

  method InsertOp(child: array<int>, i: int, j: int) returns (mutated: array<int>)
    requires Int8Range(child[..])
    requires DistinctPair(i, j, child.Length)
    ensures fresh(mutated) && mutated != child
    ensures mutated[..] == Inserted(child[..], Min(i, j), Max(i, j))
    ensures IsPermutationOf(mutated[..], child[..])
  {
    mutated := CopyChild(child);
    var lo, hi := Min(i, j), Max(i, j);
    var tmp := mutated[hi];
    // the values at every position except hi, in order (the masked read)
    var rest := mutated[..hi] + mutated[hi + 1..];
    // written to every position except lo, in order (the masked write)
    forall p | 0 <= p < mutated.Length && p != lo {
      mutated[p] := rest[if p < lo then p else p - 1];
    }
    mutated[lo] := tmp;
    InsertedAt(child[..], lo, hi);
    assert mutated[..] == Inserted(child[..], lo, hi);
    InsertedPermutation(child[..], lo, hi);
  }

  // ---------------------------------------------------------------------
  // Dispatch

  /** Every random draw an operator may consume. */
  datatype MutationDraws = MutationDraws(
    first: int,               // the two indices of RNG.choice(..., 2, replace=False)
    second: int,
    swaps: seq<IndexPair>,    // multiSwap: one pair per iteration
    scrambled: seq<int>)      // scramble: RNG.permutation of the slice

  /** The draws suit operator `t` on `child`. */
  predicate DrawsFit(t: MutationType, child: seq<int>, multiSwapAmount: int, d: MutationDraws)
  {
    match t
    case MultiSwap =>
      |d.swaps| == Max(multiSwapAmount, 0) &&
      forall k :: 0 <= k < |d.swaps| ==> DistinctPair(d.swaps[k].first, d.swaps[k].second, |child|)
    case Scramble => ScrambleFits(child, d.first, d.second, d.scrambled)
    case _ => DistinctPair(d.first, d.second, |child|)
  }

  /** The tour operator `t` produces. */
  function Mutated(t: MutationType, s: seq<int>, multiSwapAmount: int, d: MutationDraws): seq<int>
    requires DrawsFit(t, s, multiSwapAmount, d)
  {
    var lo, hi := Min(d.first, d.second), Max(d.first, d.second);
    match t
    case SingleSwap => Swapped(s, d.first, d.second)
    case MultiSwap => SwapAll(s, d.swaps)
    case Inversion => Inverted(s, lo, hi)
    case Insert => Inserted(s, lo, hi)
    case Scramble => Scrambled(s, lo, SliceEnd(|s|, hi), d.scrambled)
  }

  /** `processMutation`: an unknown name is rejected (the source raises);
      a known one runs its operator, whose result is a permutation of the input. */
  method ProcessMutation(child: array<int>, mutationType: string, multiSwapAmount: int, draws: MutationDraws)
    returns (result: Option<array<int>>)
    requires ParseMutationType(mutationType).Some? ==>
      Int8Range(child[..]) && DrawsFit(ParseMutationType(mutationType).value, child[..], multiSwapAmount, draws)
    ensures result.None? <==> ParseMutationType(mutationType).None?
    ensures result.Some? ==>
      fresh(result.value) && result.value != child &&
      result.value[..] == Mutated(ParseMutationType(mutationType).value, child[..], multiSwapAmount, draws) &&
      IsPermutationOf(result.value[..], child[..])
  {
    var parsed := ParseMutationType(mutationType);
    if parsed.None? {
      return None;
    }
    var mutated: array<int>;
    match parsed.value {
      case SingleSwap => mutated := SingleSwapOp(child, draws.first, draws.second);
      case MultiSwap => mutated := MultiSwapOp(child, multiSwapAmount, draws.swaps);
      case Inversion => mutated := InversionOp(child, draws.first, draws.second);
      case Insert => mutated := InsertOp(child, draws.first, draws.second);
      case Scramble => mutated := ScrambleOp(child, draws.first, draws.second, draws.scrambled);
    }
    result := Some(mutated);
  }
}
