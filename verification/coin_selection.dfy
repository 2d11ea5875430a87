/** The crate root (src/lib.rs): a greedy single pass called `find_solution`
    behind `select_coins_bnb`, a random fallback `select_coins_random`, and the
    coordinator `select_coins`. UTXOs are only seen through `get_value`. Every
    function that mutates the caller's slice returns its new contents. The
    shuffle of the random fallback is the permutation `perm`. */
module CoinSelection {
  import opened Common
  import opened Sorting

  /** A UTXO of the crate root's `Utxo` trait: only its value is visible. */
  datatype Utxo = Utxo(value: U64)

  function UtxoValue(u: Utxo): int
  {
    u.value
  }

  /** Sum of the values. */
  function Total(s: seq<Utxo>): int
  {
    SumOf(s, UtxoValue)
  }

  lemma TotalAppend(a: seq<Utxo>, b: seq<Utxo>)
    ensures Total(a + b) == Total(a) + Total(b)
  {
    SumOfAppend(a, b, UtxoValue);
  }

  lemma TotalNonNegative(s: seq<Utxo>)
    ensures Total(s) >= 0
  {
    SumOfNonNegative(s, UtxoValue);
  }

  lemma TotalCons(x: Utxo, s: seq<Utxo>)
    ensures Total([x] + s) == x.value + Total(s)
  {
    assert ([x] + s)[1..] == s;
  }

  /** `get_value` in descending order: the key of `sort_by_key(|u| Reverse(u.get_value()))`. */
  function DescendingValue(u: Utxo): int
  {
    -(u.value as int)
  }

  /** How the loop of `find_solution` was left. */
  datatype Exit =
    | Underfunded  // the pool total is below the target: nothing is sorted or selected
    | Matched      // the early return: the selection sums to the target exactly
    | Broke        // the remaining value can no longer reach the target
    | Exhausted    // every UTXO of the pool was visited

  /** What `find_solution` leaves behind: the slice contents (sorted unless
      underfunded), the positions of that slice pushed onto `coin_selection`,
      and how the loop was left. */
  datatype Solution = Solution(pool: seq<Utxo>, picked: seq<nat>, exit: Exit)

  /** The `for` loop of `find_solution` from position `i` of the sorted pool,
      with `remainder` the value not yet visited and `curr` the sum of the
      positions `picked` so far. */
  function Pass(sorted: seq<Utxo>, lower: int, upper: int,
                i: nat, remainder: int, curr: int, picked: seq<nat>): (r: (seq<nat>, Exit))
    requires i <= |sorted|
    ensures r.1 != Underfunded
    ensures |picked| <= |r.0| && r.0[..|picked|] == picked
    ensures AllBelow(picked, |sorted|) ==> AllBelow(r.0, |sorted|)
    decreases |sorted| - i
  {
    if i == |sorted| then (picked, Exhausted)
    else if remainder + curr < lower then (picked, Broke)
    else
      var v := sorted[i].value;
      if curr + v == lower then (picked + [i], Matched)
      else if curr + v > lower && curr + v > upper then
        Pass(sorted, lower, upper, i + 1, remainder - v, curr, picked)
      else
        var r := Pass(sorted, lower, upper, i + 1, remainder - v, curr + v, picked + [i]);
        assert r.0[..|picked|] == r.0[..|picked| + 1][..|picked|];
        r
  }

  /** A pass ends with positions in increasing order, selecting at most
      `upper`: exactly `lower` on the early return, less on `break`. */
  ghost predicate PassSound(sorted: seq<Utxo>, lower: int, upper: int, r: (seq<nat>, Exit))
  {
    match r.1
    case Matched => Selects(sorted, r.0, upper) && Total(Pick(sorted, r.0)) == lower
    case Broke => Selects(sorted, r.0, upper) && Total(Pick(sorted, r.0)) < lower
    case _ => Selects(sorted, r.0, upper)
  }

  /** Positions of `sorted` in increasing order whose values sum to at most `upper`. */
  ghost predicate Selects(sorted: seq<Utxo>, picked: seq<nat>, upper: int)
  {
    && StrictlyIncreasing(picked) && AllBelow(picked, |sorted|)
    && Total(Pick(sorted, picked)) <= upper
  }

  /** At every position the pass visits, the loop's unchecked `u64`
      operations stay within `0 ..= total`: the test `remainder + curr_sum`,
      the addition `curr_sum + utxo_value` and the subtraction
      `remainder - utxo_value`. */
  ghost predicate NoOverflow(sorted: seq<Utxo>, lower: int, upper: int, total: int,
                             i: nat, remainder: int, curr: int)
    requires i <= |sorted|
    decreases |sorted| - i
  {
    i == |sorted| ||
    (&& 0 <= remainder + curr <= total
     && (remainder + curr < lower ||
         var v := sorted[i].value;
         && curr + v <= total && 0 <= remainder - v
         && (curr + v == lower ||
             NoOverflow(sorted, lower, upper, total, i + 1, remainder - v,
                        if curr + v > lower && curr + v > upper then curr else curr + v))))
  }

  /** The loop of `find_solution` keeps `remainder` equal to the value not yet
      visited and `curr_sum` equal to the value selected, which never exceeds
      the pool total (so none of its unchecked `u64` operations overflows) nor
      the upper bound; the selection is a set of positions in visiting order,
      summing to the target on the early return and below it on `break`. */
  lemma {:induction false} PassInvariant(sorted: seq<Utxo>, total: int, lower: int, upper: int,
                                         i: nat, remainder: int, curr: int, picked: seq<nat>)
    requires total <= U64_MAX && lower <= upper
    requires i <= |sorted|
    requires StrictlyIncreasing(picked) && AllBelow(picked, i)
    requires remainder == Total(sorted[i..])
    requires curr == Total(Pick(sorted, picked)) && curr + remainder <= total
    requires curr <= upper
    ensures PassSound(sorted, lower, upper, Pass(sorted, lower, upper, i, remainder, curr, picked))
    ensures NoOverflow(sorted, lower, upper, total, i, remainder, curr)
    decreases |sorted| - i
  {
    TotalNonNegative(Pick(sorted, picked));
    if i < |sorted| {
      VisitNext(sorted, i);
      if remainder + curr >= lower {
        var v := sorted[i].value;
        TakeNext(sorted, picked, i);
        if curr + v == lower {
        } else if curr + v > lower && curr + v > upper {
          PassInvariant(sorted, total, lower, upper, i + 1, remainder - v, curr, picked);
        } else {
          PassInvariant(sorted, total, lower, upper, i + 1, remainder - v, curr + v, picked + [i]);
        }
      }
    }
  }

  /** Visiting position `i` moves its value out of the remainder. */
  lemma VisitNext(sorted: seq<Utxo>, i: nat)
    requires i < |sorted|
    ensures Total(sorted[i..]) == sorted[i].value + Total(sorted[i + 1..])
    ensures Total(sorted[i + 1..]) >= 0
  {
    assert sorted[i..] == [sorted[i]] + sorted[i + 1..];
    TotalAppend([sorted[i]], sorted[i + 1..]);
    TotalNonNegative(sorted[i + 1..]);
  }

  /** Pushing position `i` after positions below it. */
  lemma TakeNext(sorted: seq<Utxo>, picked: seq<nat>, i: nat)
    requires i < |sorted|
    requires StrictlyIncreasing(picked) && AllBelow(picked, i)
    ensures StrictlyIncreasing(picked + [i]) && AllBelow(picked + [i], i + 1)
    ensures Total(Pick(sorted, picked + [i])) == Total(Pick(sorted, picked)) + sorted[i].value
  {
    StrictlyIncreasingSnoc(picked, i);
    assert forall k :: 0 <= k < |picked + [i]| ==> (picked + [i])[k] < i + 1;
    assert Pick(sorted, picked + [i]) == Pick(sorted, picked) + [sorted[i]];
    SumOfSnoc(Pick(sorted, picked), sorted[i], UtxoValue);
  }

  /** `find_solution`: panics when the pool total or `target + cost_of_change`
      overflows a `u64`. */
  function FindSolution(target: U64, costOfChange: U64, pool: seq<Utxo>): (r: Outcome<Solution>)
    ensures r.Panic? <==> Total(pool) > U64_MAX || (target <= Total(pool) && target + costOfChange > U64_MAX)
    ensures r.Return? ==>
              && AllBelow(r.value.picked, |r.value.pool|)
              && StrictlyIncreasing(r.value.picked)
              && Total(Pick(r.value.pool, r.value.picked)) <= target + costOfChange
              && (r.value.exit == Matched ==> Total(Pick(r.value.pool, r.value.picked)) == target)
              && (r.value.exit == Underfunded <==> Total(pool) < target)
              && (r.value.exit == Underfunded ==> r.value.pool == pool && r.value.picked == [])
              && (r.value.exit != Underfunded ==>
                    r.value.pool == SortAsc(pool, DescendingValue))
  {
    var utxoSum := Total(pool);
    if utxoSum > U64_MAX then Panic
    else if utxoSum < target then Return(Solution(pool, [], Underfunded))
    else
      var sorted := SortAsc(pool, DescendingValue);
      if costOfChange + target > U64_MAX then Panic
      else
        var upper := costOfChange + target;
        assert sorted[0..] == sorted;
        assert Total(sorted) == utxoSum by {
          SumOfPermutation(sorted, pool, UtxoValue);
        }
        PassInvariant(sorted, utxoSum, target, upper, 0, utxoSum, 0, []);
        var (picked, exit) := Pass(sorted, target, upper, 0, utxoSum, 0, []);
        Return(Solution(sorted, picked, exit))
  }

  /** Positions taken in increasing order from a sorted slice stay sorted. */
  lemma PickSorted(s: seq<Utxo>, idx: seq<nat>, key: Utxo -> int)
    requires SortedBy(s, key)
    requires StrictlyIncreasing(idx) && AllBelow(idx, |s|)
    ensures SortedBy(Pick(s, idx), key)
  {
    var p := Pick(s, idx);
    forall i, j | 0 <= i < j < |p|
      ensures key(p[i]) <= key(p[j])
    {
      assert idx[i] < idx[j];
    }
  }

  /** What a selection function leaves behind: the new contents of the
      caller's slice and the returned `Option<Vec<T>>`. */
  datatype Selected = Selected(pool: seq<Utxo>, coins: Option<seq<Utxo>>)

  /** `select_coins_bnb` as written: `find_solution`, then `None` exactly when
      nothing was pushed. A selection may fall short of the target (see
      `BnbBelowTarget`). */
  function SelectCoinsBnb(target: U64, costOfChange: U64, pool: seq<Utxo>): (r: Outcome<Selected>)
    ensures r.Panic? <==> Total(pool) > U64_MAX || (target <= Total(pool) && target + costOfChange > U64_MAX)
    ensures r.Return? ==> multiset(r.value.pool) == multiset(pool)
    ensures r.Return? && Total(pool) < target ==> r.value.pool == pool && r.value.coins == None
    ensures r.Return? && r.value.coins.Some? ==>
              && |r.value.coins.value| > 0
              && Total(r.value.coins.value) <= target + costOfChange
              && SortedBy(r.value.coins.value, DescendingValue)
              && multiset(r.value.coins.value) <= multiset(pool)
  {
    match FindSolution(target, costOfChange, pool)
    case Panic => Panic
    case Return(sol) =>
      if sol.picked == [] then Return(Selected(sol.pool, None))
      else
        var coins := Pick(sol.pool, sol.picked);
        assert sol.exit != Underfunded;
        PickSorted(sol.pool, sol.picked, DescendingValue);
        PickSubMultiset(sol.pool, sol.picked, 0);
        assert sol.pool[0..] == sol.pool;
        Return(Selected(sol.pool, Some(coins)))
  }

  /** `select_coins_bnb` as it is evidently meant to behave: a selection that
      does not reach the target is no solution, so `None` is returned for it. */
  function SelectCoinsBnbChecked(target: U64, costOfChange: U64, pool: seq<Utxo>): (r: Outcome<Selected>)
    ensures r.Panic? <==> Total(pool) > U64_MAX || (target <= Total(pool) && target + costOfChange > U64_MAX)
    ensures r.Return? ==> multiset(r.value.pool) == multiset(pool)
    ensures r.Return? && Total(pool) < target ==> r.value.pool == pool && r.value.coins == None
    ensures r.Return? && r.value.coins.Some? ==>
              && |r.value.coins.value| > 0
              && target <= Total(r.value.coins.value) <= target + costOfChange
              && SortedBy(r.value.coins.value, DescendingValue)
              && multiset(r.value.coins.value) <= multiset(pool)
  {
    match SelectCoinsBnb(target, costOfChange, pool)
    case Panic => Panic
    case Return(Selected(p, Some(coins))) =>
      if Total(coins) < target then Return(Selected(p, None)) else Return(Selected(p, Some(coins)))
    case Return(sel) => Return(sel)
  }

  /** The length of the shortest prefix of `s` from position `i` on whose value
      reaches `target`, or `|s|` when none does. */
  function ReachFrom(s: seq<Utxo>, target: int, i: nat): (n: nat)
    requires i <= |s|
    ensures i <= n <= |s|
    ensures n == |s| || Total(s[..n]) >= target
    ensures forall m :: i <= m < n ==> Total(s[..m]) < target
    decreases |s| - i
  {
    if i == |s| || Total(s[..i]) >= target then i else ReachFrom(s, target, i + 1)
  }

  /** The length of the shortest prefix of `s` whose value reaches `target`. */
  function Reach(s: seq<Utxo>, target: int): (n: nat)
    ensures n <= |s|
    ensures n == |s| || Total(s[..n]) >= target
    ensures forall m :: 0 <= m < n ==> Total(s[..m]) < target
  {
    ReachFrom(s, target, 0)
  }

  /** The `take_while` of `select_coins_random` from position `i`, with `sum`
      the value taken so far: returns how many UTXOs were taken and their sum,
      and panics when `sum += x.get_value()` overflows. */
  function TakeWhile(s: seq<Utxo>, target: U64, i: nat, sum: U64): (r: Outcome<(nat, int)>)
    requires i <= |s| && sum == Total(s[..i])
    requires forall m :: 0 <= m < i ==> Total(s[..m]) < target
    ensures r.Panic? <==> Total(s[..ReachFrom(s, target, i)]) > U64_MAX
    ensures r.Return? ==> r.value.0 == ReachFrom(s, target, i) && r.value.1 == Total(s[..r.value.0])
    decreases |s| - i
  {
    if i == |s| || sum >= target then Return((i, sum))
    else
      assert s[..i + 1] == s[..i] + [s[i]];
      SumOfSnoc(s[..i], s[i], UtxoValue);
      if sum + s[i].value > U64_MAX then Panic
      else TakeWhile(s, target, i + 1, sum + s[i].value)
  }

  /** `select_coins_random`: the slice is shuffled into `shuffled` (any
      rearrangement of it), then the shortest prefix reaching the target is
      taken; `None` when even the whole slice falls short. */
  function SelectCoinsRandom(target: U64, pool: seq<Utxo>, shuffled: seq<Utxo>): (r: Outcome<Selected>)
    requires multiset(shuffled) == multiset(pool)
    ensures r.Panic? <==> Total(shuffled[..Reach(shuffled, target)]) > U64_MAX
    ensures Total(pool) <= U64_MAX ==> r.Return?
    ensures r.Return? ==> r.value.pool == shuffled
    ensures r.Return? ==> (r.value.coins.None? <==> Total(pool) < target)
    ensures r.Return? && r.value.coins.Some? ==>
              r.value.coins.value == shuffled[..Reach(shuffled, target)]
              && Total(r.value.coins.value) >= target
              && multiset(r.value.coins.value) <= multiset(pool)
  {
    assert shuffled[..0] == [];
    SumOfPermutation(shuffled, pool, UtxoValue);
    var reach := Reach(shuffled, target);
    assert shuffled == shuffled[..reach] + shuffled[reach..];
    assert multiset(shuffled) == multiset(shuffled[..reach]) + multiset(shuffled[reach..]);
    TotalAppend(shuffled[..reach], shuffled[reach..]);
    TotalNonNegative(shuffled[reach..]);
    match TakeWhile(shuffled, target, 0, 0)
    case Panic => Panic
    case Return((n, sum)) =>
      if sum >= target then Return(Selected(shuffled, Some(shuffled[..n])))
      else
        assert shuffled[..n] == shuffled;
        Return(Selected(shuffled, None))
  }

  /** `select_coins`: the branch-and-bound pass first and, when it finds
      nothing, the random draw over the slice it left behind. A selection of
      the pass is returned as it is, so a result falls short of the target
      exactly when the pass's own selection does (see `BnbFallsShort`). */
  function SelectCoins(target: U64, costOfChange: U64, pool: seq<Utxo>, shuffled: seq<Utxo>): (r: Outcome<Selected>)
    requires multiset(shuffled) == multiset(pool)
    ensures r.Return? ==> multiset(r.value.pool) == multiset(pool)
    ensures r.Return? ==> (r.value.coins.None? <==> Total(pool) < target)
    ensures r.Return? && r.value.coins.Some? ==> multiset(r.value.coins.value) <= multiset(pool)
    ensures r.Return? && r.value.coins.Some? && Total(r.value.coins.value) < target ==>
              && BnbFallsShort(target, costOfChange, pool)
              && r == SelectCoinsBnb(target, costOfChange, pool)
    ensures Total(pool) <= U64_MAX && target + costOfChange <= U64_MAX ==> r.Return?
  {
    match SelectCoinsBnb(target, costOfChange, pool)
    case Panic => Panic
    case Return(Selected(p, Some(coins))) => Return(Selected(p, Some(coins)))
    case Return(Selected(p, None)) =>
      SumOfPermutation(p, pool, UtxoValue);
      SelectCoinsRandom(target, p, shuffled)
  }

  /** `select_coins_bnb` reports a selection that does not reach the target. */
  predicate BnbFallsShort(target: U64, costOfChange: U64, pool: seq<Utxo>)
  {
    var b := SelectCoinsBnb(target, costOfChange, pool);
    b.Return? && b.value.coins.Some? && Total(b.value.coins.value) < target
  }

  /** `select_coins` as it is evidently meant to behave: built on the
      corrected pass, so a result always reaches the target. */
  function SelectCoinsChecked(target: U64, costOfChange: U64, pool: seq<Utxo>, shuffled: seq<Utxo>): (r: Outcome<Selected>)
    requires multiset(shuffled) == multiset(pool)
    ensures r.Return? ==> multiset(r.value.pool) == multiset(pool)
    ensures r.Return? ==> (r.value.coins.None? <==> Total(pool) < target)
    ensures r.Return? && r.value.coins.Some? ==>
              Total(r.value.coins.value) >= target && multiset(r.value.coins.value) <= multiset(pool)
    ensures Total(pool) <= U64_MAX && target + costOfChange <= U64_MAX ==> r.Return?
  {
    match SelectCoinsBnbChecked(target, costOfChange, pool)
    case Panic => Panic
    case Return(Selected(p, Some(coins))) => Return(Selected(p, Some(coins)))
    case Return(Selected(p, None)) =>
      SumOfPermutation(p, pool, UtxoValue);
      SelectCoinsRandom(target, p, shuffled)
  }

  /** The written and the corrected `select_coins` agree exactly where the
      branch-and-bound pass does not fall short of the target. */
  lemma CoordinatorsAgree(target: U64, costOfChange: U64, pool: seq<Utxo>, shuffled: seq<Utxo>)
    requires multiset(shuffled) == multiset(pool)
    ensures SelectCoins(target, costOfChange, pool, shuffled) == SelectCoinsChecked(target, costOfChange, pool, shuffled)
            <==> !BnbFallsShort(target, costOfChange, pool)
  {
    var b := SelectCoinsBnb(target, costOfChange, pool);
    if BnbFallsShort(target, costOfChange, pool) {
      var c := SelectCoinsChecked(target, costOfChange, pool, shuffled);
      assert Total(pool) <= U64_MAX && target + costOfChange <= U64_MAX;
      assert c.Return? && c.value.coins.Some? && Total(c.value.coins.value) >= target;
    }
  }
}
