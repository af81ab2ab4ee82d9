/** Shared vocabulary for tours: duplicate-free sequences of city indices,
    permutations (equal multisets), Python's `list.index`, and the 8-bit
    range of the mutation buffers. */
module Tours {

  datatype Option<T> = None | Some(value: T)

  /** No value occurs twice. */
  predicate Distinct(s: seq<int>)
  {
    forall i, j :: 0 <= i < j < |s| ==> s[i] != s[j]
  }

  /** `t` visits every city 0..n-1 exactly once. */
  predicate IsTour(t: seq<int>, n: int)
  {
    |t| == n && Distinct(t) && forall k :: 0 <= k < |t| ==> 0 <= t[k] < n
  }

  /** `b` holds the same values as `a`, with the same multiplicities
      (hence the same length). */
  predicate IsPermutationOf(a: seq<int>, b: seq<int>)
  {
    multiset(a) == multiset(b)
  }

  /** Every value fits a signed 8-bit integer (numpy `int8`), so copying into
      an `int8` buffer does not wrap around. */
  predicate Int8Range(s: seq<int>)
  {
    forall k :: 0 <= k < |s| ==> -128 <= s[k] < 128
  }

  /** Python's `list.index`: the first position holding `x`. */
  function IndexOf(s: seq<int>, x: int): (r: int)
    requires x in s
    ensures 0 <= r < |s| && s[r] == x
    ensures forall j :: 0 <= j < r ==> s[j] != x
  {
    if s[0] == x then 0 else 1 + IndexOf(s[1..], x)
  }

  /** In a duplicate-free sequence the position of a value is unique. */
  lemma IndexOfDistinct(s: seq<int>, k: int)
    requires Distinct(s) && 0 <= k < |s|
    ensures IndexOf(s, s[k]) == k
  {
  }

  /** Each value of a duplicate-free sequence occurs once. */
  lemma {:induction false} DistinctCount(s: seq<int>, x: int)
    requires Distinct(s)
    ensures multiset(s)[x] == if x in s then 1 else 0
  {
    if s != [] {
      assert s == [s[0]] + s[1..];
      assert Distinct(s[1..]);
      DistinctCount(s[1..], x);
      assert s[0] !in s[1..];
    }
  }

  /** A value seen at two positions is counted at least twice. */
  lemma TwiceCounted(s: seq<int>, i: int, j: int)
    requires 0 <= i < j < |s| && s[i] == s[j]
    ensures multiset(s)[s[i]] >= 2
  {
    assert s == s[..i] + [s[i]] + s[i+1..j] + [s[j]] + s[j+1..];
  }

  /** A permutation of a duplicate-free sequence is duplicate-free. */
  lemma PermutationKeepsDistinct(a: seq<int>, b: seq<int>)
    requires Distinct(a) && IsPermutationOf(a, b)
    ensures Distinct(b)
  {
    forall i, j | 0 <= i < j < |b|
      ensures b[i] != b[j]
    {
      if b[i] == b[j] {
        TwiceCounted(b, i, j);
        DistinctCount(a, b[i]);
        assert false;
      }
    }
  }

  /** Two duplicate-free sequences with the same members are permutations of
      each other. */
  lemma DistinctSameMembers(a: seq<int>, b: seq<int>)
    requires Distinct(a) && Distinct(b)
    requires forall x :: x in a <==> x in b
    ensures IsPermutationOf(a, b)
  {
    forall x
      ensures multiset(a)[x] == multiset(b)[x]
    {
      DistinctCount(a, x);
      DistinctCount(b, x);
    }
  }
}
