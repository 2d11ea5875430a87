/** Shared vocabulary of the coin-selection model: the optional and panicking
    results of the Rust code, the fixed-width integer ranges of `Amount`,
    `SignedAmount` and `Weight`, sums, and permutations (a shuffle is passed in
    as a permutation of pool positions). */
module Common {

  /** Rust's `Option`. */
  datatype Option<+T> = None | Some(value: T)

  /** The result of calling a Rust function: it either returns a value or
      panics (an `unwrap()` of `None`, an out-of-bounds index, or an unchecked
      integer operation that overflows in a build with overflow checks). */
  datatype Outcome<+T> = Return(value: T) | Panic

  /** `u64::MAX`: the largest `Amount` and the largest `Weight`. */
  const U64_MAX: int := 0xFFFF_FFFF_FFFF_FFFF
  const I64_MIN: int := -0x8000_0000_0000_0000
  const I64_MAX: int := 0x7FFF_FFFF_FFFF_FFFF
  /** `Amount::MAX_MONEY` (and `SignedAmount::MAX_MONEY`): 21 million bitcoin in satoshi. */
  const MAX_MONEY: int := 21_000_000 * 100_000_000

  type U64 = x: int | 0 <= x <= U64_MAX
  type I64 = x: int | I64_MIN <= x <= I64_MAX

  predicate InU64(x: int) { 0 <= x <= U64_MAX }
  predicate InI64(x: int) { I64_MIN <= x <= I64_MAX }

  /** Sum of `f` over the elements of `s`. */
  function SumOf<T>(s: seq<T>, f: T -> int): int
  {
    if s == [] then 0 else f(s[0]) + SumOf(s[1..], f)
  }

  lemma {:induction false} SumOfAppend<T>(a: seq<T>, b: seq<T>, f: T -> int)
    ensures SumOf(a + b, f) == SumOf(a, f) + SumOf(b, f)
  {
    if a == [] {
      assert a + b == b;
    } else {
      assert (a + b)[1..] == a[1..] + b;
      SumOfAppend(a[1..], b, f);
    }
  }

  lemma SumOfSnoc<T>(a: seq<T>, x: T, f: T -> int)
    ensures SumOf(a + [x], f) == SumOf(a, f) + f(x)
  {
    SumOfAppend(a, [x], f);
  }

  lemma {:induction false} SumOfNonNegative<T>(s: seq<T>, f: T -> int)
    requires forall i :: 0 <= i < |s| ==> f(s[i]) >= 0
    ensures SumOf(s, f) >= 0
  {
    if s != [] {
      SumOfNonNegative(s[1..], f);
    }
  }

  lemma SliceSumNonNegative<T>(pool: seq<T>, lo: nat, hi: nat, f: T -> int)
    requires lo <= hi <= |pool|
    requires forall i :: 0 <= i < |pool| ==> f(pool[i]) >= 0
    ensures SumOf(pool[lo..hi], f) >= 0
  {
    var s := pool[lo..hi];
    assert forall i :: 0 <= i < |s| ==> s[i] == pool[lo + i];
    SumOfNonNegative(s, f);
  }

  /** A sum does not depend on the order of its terms. */
  lemma {:induction false} SumOfPermutation<T>(a: seq<T>, b: seq<T>, f: T -> int)
    requires multiset(a) == multiset(b)
    ensures SumOf(a, f) == SumOf(b, f)
    decreases |a|
  {
    if a == [] {
      assert |b| == |multiset(b)| == 0;
    } else {
      var x := a[0];
      assert x in multiset(b);
      var k :| 0 <= k < |b| && b[k] == x;
      var rest := b[..k] + b[k + 1..];
      RemoveAt(b, k);
      assert a == [x] + a[1..];
      MultisetCancel(a[1..], rest, x);
      SumOfPermutation(a[1..], rest, f);
      SumOfRemoveAt(b, k, f);
    }
  }

  /** Taking out the element at `k`. */
  lemma RemoveAt<T>(b: seq<T>, k: nat)
    requires k < |b|
    ensures multiset(b) == multiset(b[..k] + b[k + 1..]) + multiset{b[k]}
  {
    assert b == b[..k] + [b[k]] + b[k + 1..];
  }

  /** Equal multisets stay equal once the same element is taken out. */
  lemma MultisetCancel<T>(p: seq<T>, q: seq<T>, x: T)
    requires multiset([x] + p) == multiset(q) + multiset{x}
    ensures multiset(p) == multiset(q)
  {
    assert multiset([x] + p) == multiset{x} + multiset(p);
    forall y
      ensures multiset(p)[y] == multiset(q)[y]
    {
      assert (multiset{x} + multiset(p))[y] == (multiset(q) + multiset{x})[y];
    }
  }

  /** The sum without the term at `k`. */
  lemma SumOfRemoveAt<T>(b: seq<T>, k: nat, f: T -> int)
    requires k < |b|
    ensures SumOf(b, f) == f(b[k]) + SumOf(b[..k] + b[k + 1..], f)
  {
    var before, x, after := b[..k], b[k], b[k + 1..];
    assert b[k..] == [x] + after;
    assert b == before + b[k..];
    SumOfSplit(before, x, after, f);
    SumOfAppend(before, after, f);
  }

  /** No element occurs twice. */
  predicate Distinct<T(==)>(s: seq<T>)
  {
    forall i, j :: 0 <= i < j < |s| ==> s[i] != s[j]
  }

  /** Strictly increasing sequence of positions (an include/exclude search path). */
  predicate StrictlyIncreasing(s: seq<nat>)
  {
    forall i, j :: 0 <= i < j < |s| ==> s[i] < s[j]
  }

  /** Appending a position above all others keeps the order strict. */
  lemma StrictlyIncreasingSnoc(s: seq<nat>, x: nat)
    requires StrictlyIncreasing(s)
    requires forall k :: 0 <= k < |s| ==> s[k] < x
    ensures StrictlyIncreasing(s + [x])
  {
    var t := s + [x];
    forall a, b | 0 <= a < b < |t|
      ensures t[a] < t[b]
    {
      assert t[a] == s[a];
    }
  }

  /** Every element is a position in a collection of length `n`. */
  predicate AllBelow(s: seq<nat>, n: nat)
  {
    forall i :: 0 <= i < |s| ==> s[i] < n
  }

  /** `perm` lists every position of a collection of length `n` exactly once:
      the order in which a shuffle leaves the collection. */
  predicate IsPermutation(perm: seq<nat>, n: nat)
  {
    |perm| == n && AllBelow(perm, n) && Distinct(perm)
  }

  /** `checked_sum` of `f` over `s`, started from `acc`: `None` as soon as a
      partial sum leaves the `u64` range. With non-negative terms that
      happens exactly when the whole sum does. */
  function CheckedSum<T>(s: seq<T>, f: T -> int, acc: U64): (r: Option<U64>)
    requires forall i :: 0 <= i < |s| ==> f(s[i]) >= 0
    ensures r == if acc + SumOf(s, f) > U64_MAX then None else Some(acc + SumOf(s, f))
  {
    if s == [] then Some(acc)
    else
      SumOfNonNegative(s[1..], f);
      if acc + f(s[0]) > U64_MAX then None
      else CheckedSum(s[1..], f, acc + f(s[0]))
  }

  /** The pool positions that the entries of `cs` stand for, in order. */
  function Origins<T>(cs: seq<T>, origin: T -> nat): (r: seq<nat>)
    ensures |r| == |cs|
    ensures forall k :: 0 <= k < |cs| ==> r[k] == origin(cs[k])
  {
    if cs == [] then [] else [origin(cs[0])] + Origins(cs[1..], origin)
  }

  /** The origins of an extended list. */
  lemma OriginsSnoc<T>(front: seq<T>, c: T, origin: T -> nat)
    ensures Origins(front + [c], origin) == Origins(front, origin) + [origin(c)]
  {
    var o := Origins(front + [c], origin);
    assert forall k :: 0 <= k < |front| ==> o[k] == origin((front + [c])[k]) == origin(front[k]);
  }

  /** The elements of `pool` at the positions `idx`, in that order. */
  function Pick<T>(pool: seq<T>, idx: seq<nat>): (r: seq<T>)
    requires AllBelow(idx, |pool|)
    ensures |r| == |idx|
    ensures forall i :: 0 <= i < |idx| ==> r[i] == pool[idx[i]]
  {
    if idx == [] then [] else [pool[idx[0]]] + Pick(pool, idx[1..])
  }

  lemma StrictlyIncreasingIsDistinct(s: seq<nat>)
    requires StrictlyIncreasing(s)
    ensures Distinct(s)
  {
  }

  /** Putting the same element in front of a sub-multiset and of a
      super-multiset keeps the inclusion, whatever comes before. */
  lemma SubMultisetCons<T>(x: T, picked: seq<T>, before: seq<T>, after: seq<T>)
    requires multiset(picked) <= multiset(after)
    ensures multiset([x] + picked) <= multiset(before + ([x] + after))
  {
  }

  /** A suffix split around one of its positions. */
  lemma SplitAt<T>(pool: seq<T>, lo: nat, p: nat)
    requires lo <= p < |pool|
    ensures pool[lo..] == pool[lo..p] + ([pool[p]] + pool[p + 1..])
  {
  }

  /** Positions taken in increasing order pick a sub-multiset of the elements
      at or after the first of them. */
  lemma {:induction false} PickSubMultiset<T>(pool: seq<T>, idx: seq<nat>, lo: nat)
    requires lo <= |pool|
    requires StrictlyIncreasing(idx)
    requires forall k :: 0 <= k < |idx| ==> lo <= idx[k] < |pool|
    ensures multiset(Pick(pool, idx)) <= multiset(pool[lo..])
    decreases |idx|
  {
    if idx != [] {
      var p := idx[0];
      var rest := idx[1..];
      assert forall k :: 0 <= k < |rest| ==> rest[k] == idx[k + 1] && p < rest[k];
      PickSubMultiset(pool, rest, p + 1);
      var picked := Pick(pool, rest);
      assert Pick(pool, idx) == [pool[p]] + picked;
      SplitAt(pool, lo, p);
      SubMultisetCons(pool[p], picked, pool[lo..p], pool[p + 1..]);
    }
  }

  /** Picking at a concatenation of positions concatenates the picks. */
  lemma PickAppend<T>(pool: seq<T>, a: seq<nat>, b: seq<nat>)
    requires AllBelow(a, |pool|) && AllBelow(b, |pool|)
    ensures AllBelow(a + b, |pool|)
    ensures Pick(pool, a + b) == Pick(pool, a) + Pick(pool, b)
  {
    assert forall i :: 0 <= i < |a + b| ==> (a + b)[i] == if i < |a| then a[i] else b[i - |a|];
  }

  /** A sum of non-negative terms over positions taken in increasing order,
      all at or after `lo`, is at most the sum over everything from `lo` on. */
  lemma {:induction false} PickSumBound<T>(pool: seq<T>, idx: seq<nat>, lo: nat, f: T -> int)
    requires lo <= |pool|
    requires StrictlyIncreasing(idx)
    requires forall k :: 0 <= k < |idx| ==> lo <= idx[k] < |pool|
    requires forall i :: 0 <= i < |pool| ==> f(pool[i]) >= 0
    ensures SumOf(Pick(pool, idx), f) <= SumOf(pool[lo..], f)
    decreases |idx|
  {
    if idx == [] {
      SliceSumNonNegative(pool, lo, |pool|, f);
      assert pool[lo..|pool|] == pool[lo..];
    } else {
      var p := idx[0];
      var rest := idx[1..];
      assert forall k :: 0 <= k < |rest| ==> rest[k] == idx[k + 1] && p < rest[k];
      PickSumBound(pool, rest, p + 1, f);
      assert Pick(pool, idx) == [pool[p]] + Pick(pool, rest);
      SplitAt(pool, lo, p);
      SumOfSplit(pool[lo..p], pool[p], pool[p + 1..], f);
      SliceSumNonNegative(pool, lo, p, f);
    }
  }

  /** Positions up to `n`, summed, plus everything after `n` stay within the
      sum of the whole sequence. */
  lemma PickPrefixBound<T>(pool: seq<T>, idx: seq<nat>, n: nat, f: T -> int)
    requires n < |pool| && StrictlyIncreasing(idx) && AllBelow(idx, n + 1)
    requires forall i :: 0 <= i < |pool| ==> f(pool[i]) >= 0
    ensures AllBelow(idx, |pool|)
    ensures SumOf(Pick(pool, idx), f) + SumOf(pool[n + 1..], f) <= SumOf(pool, f)
  {
    var front := pool[..n + 1];
    assert Pick(pool, idx) == Pick(front, idx);
    assert forall i :: 0 <= i < |front| ==> front[i] == pool[i];
    PickSumBound(front, idx, 0, f);
    assert front[0..] == front;
    assert pool == front + pool[n + 1..];
    SumOfAppend(front, pool[n + 1..], f);
  }

  /** The sum around one term. */
  lemma SumOfSplit<T>(before: seq<T>, x: T, after: seq<T>, f: T -> int)
    ensures SumOf(before + ([x] + after), f) == SumOf(before, f) + f(x) + SumOf(after, f)
  {
    SumOfAppend(before, [x] + after, f);
    assert ([x] + after)[1..] == after;
  }


  /** A sum of non-negative terms over a non-empty pick is at least its first term. */
  lemma PickSumAtLeastFirst<T>(pool: seq<T>, idx: seq<nat>, f: T -> int)
    requires AllBelow(idx, |pool|) && idx != []
    requires forall i :: 0 <= i < |pool| ==> f(pool[i]) >= 0
    ensures SumOf(Pick(pool, idx), f) >= f(pool[idx[0]])
  {
    assert Pick(pool, idx) == [pool[idx[0]]] + Pick(pool, idx[1..]);
    SumOfNonNegative(Pick(pool, idx[1..]), f);
  }

  /** In a sequence without repetitions every element occurs once. */
  lemma {:induction false} DistinctCounts<T>(s: seq<T>)
    requires Distinct(s)
    ensures forall x :: multiset(s)[x] <= 1
  {
    if s != [] {
      assert s == [s[0]] + s[1..];
      DistinctCounts(s[1..]);
      assert s[0] !in multiset(s[1..]);
    }
  }

  /** A sequence in which every element occurs at most once has no repetitions. */
  lemma CountsDistinct<T>(s: seq<T>)
    requires forall x :: multiset(s)[x] <= 1
    ensures Distinct(s)
  {
    forall i, j | 0 <= i < j < |s|
      ensures s[i] != s[j]
    {
      assert s == s[..j] + [s[j]] + s[j + 1..];
      assert s[i] in multiset(s[..j]);
      assert multiset(s)[s[j]] >= multiset(s[..j])[s[j]] + 1;
    }
  }

  /** A rearrangement of a sequence without repetitions has none. */
  lemma DistinctPermutation<T>(a: seq<T>, b: seq<T>)
    requires multiset(a) == multiset(b) && Distinct(a)
    ensures Distinct(b)
  {
    DistinctCounts(a);
    CountsDistinct(b);
  }
}
