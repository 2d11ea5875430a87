/** Single Random Draw (src/single_random_draw.rs): walk the pool in a
    shuffled order, adding every UTXO whose effective value is defined and not
    negative, and stop at the first UTXO that brings the total to
    `target + CHANGE_LOWER`. The shuffle is the permutation `perm`: position
    `k` of the walk visits `pool[perm[k]]`. */
module SingleRandomDraw {
  import opened Common

  /** A UTXO as the selector sees it: its value and its satisfaction weight. */
  datatype WeightedUtxo = WeightedUtxo(value: U64, weight: U64)

  /** Effective value of a UTXO at a fee rate, as computed by rust-bitcoin's
      `effective_value`; `None` when that computation fails. No formula is
      assumed. */
  type EffectiveValue = (U64, WeightedUtxo) -> Option<I64>

  /** The budget kept aside for a change output: 50 000 satoshi. */
  const CHANGE_LOWER: int := 50_000

  /** A successful draw: the 1-based walk position of the UTXO that completed
      the selection, and the pool positions selected, in walk order. */
  datatype Draw = Draw(iterations: nat, selected: seq<nat>)

  /** The walk adds `u`: its effective value is defined and converts to an
      unsigned amount, that is, it is not negative. */
  predicate Usable(ev: EffectiveValue, feeRate: U64, u: WeightedUtxo)
  {
    ev(feeRate, u).Some? && ev(feeRate, u).value >= 0
  }

  /** What visiting `u` adds to the running value. */
  function Contribution(ev: EffectiveValue, feeRate: U64, u: WeightedUtxo): int
  {
    if Usable(ev, feeRate, u) then ev(feeRate, u).value else 0
  }

  /** Total contribution of the UTXOs at positions `idx`. */
  function ValueOf(pool: seq<WeightedUtxo>, idx: seq<nat>, ev: EffectiveValue, feeRate: U64): int
    requires AllBelow(idx, |pool|)
  {
    if idx == [] then 0
    else ValueOf(pool, idx[..|idx| - 1], ev, feeRate) + Contribution(ev, feeRate, pool[idx[|idx| - 1]])
  }

  /** The positions of `order` that the walk adds, in walk order. */
  function Added(pool: seq<WeightedUtxo>, order: seq<nat>, ev: EffectiveValue, feeRate: U64): seq<nat>
    requires AllBelow(order, |pool|)
  {
    if order == [] then []
    else
      var last := order[|order| - 1];
      Added(pool, order[..|order| - 1], ev, feeRate)
        + (if Usable(ev, feeRate, pool[last]) then [last] else [])
  }

  /** The outcome of a walk from position `i`: either the whole walk stays
      below `threshold`, or some later position is the first to reach it and
      the selection is what the walk added up to there. */
  ghost predicate Reached(pool: seq<WeightedUtxo>, perm: seq<nat>, ev: EffectiveValue, feeRate: U64,
                          threshold: int, i: nat, r: Option<Draw>)
    requires AllBelow(perm, |pool|)
  {
    match r
    case None => ValueOf(pool, perm, ev, feeRate) < threshold
    case Some(d) =>
      && i < d.iterations <= |perm|
      && d.selected == Added(pool, perm[..d.iterations], ev, feeRate)
      && ValueOf(pool, perm[..d.iterations], ev, feeRate) >= threshold
      && ValueOf(pool, perm[..d.iterations - 1], ev, feeRate) < threshold
  }

  /** The `for` loop over the shuffled pool, from walk position `i` on, with
      running `value` and the positions `result` selected so far. */
  function Walk(pool: seq<WeightedUtxo>, perm: seq<nat>, ev: EffectiveValue, feeRate: U64,
                threshold: int, i: nat, value: int, result: seq<nat>): (r: Option<Draw>)
    requires AllBelow(perm, |pool|)
    requires i <= |perm|
    requires threshold <= MAX_MONEY + CHANGE_LOWER
    requires 0 <= value < threshold
    requires value == ValueOf(pool, perm[..i], ev, feeRate)
    requires result == Added(pool, perm[..i], ev, feeRate)
    ensures Reached(pool, perm, ev, feeRate, threshold, i, r)
    decreases |perm| - i
  {
    if i == |perm| then
      assert perm[..i] == perm;
      None
    else
      var iteration := i + 1;
      var u := pool[perm[i]];
      assert perm[..iteration] == perm[..i] + [perm[i]];
      WalkSnoc(pool, perm[..i], perm[i], ev, feeRate);
      if Usable(ev, feeRate, u) then
        var v := ev(feeRate, u).value;
        // The Amount addition cannot overflow: value < threshold and v fits an i64.
        assert value + v <= U64_MAX;
        var value' := value + v;
        var result' := result + [perm[i]];
        if value' >= threshold then
          Some(Draw(iteration, result'))
        else
          Walk(pool, perm, ev, feeRate, threshold, iteration, value', result')
      else
        Walk(pool, perm, ev, feeRate, threshold, iteration, value, result)
  }

  /** `select_coins_srd`: `None` when the target exceeds the money supply or
      the shuffled pool never reaches `target + CHANGE_LOWER`. */
  function SelectCoinsSrd(target: U64, feeRate: U64, pool: seq<WeightedUtxo>, perm: seq<nat>,
                          ev: EffectiveValue): (r: Option<Draw>)
    requires IsPermutation(perm, |pool|)
    ensures target > MAX_MONEY ==> r.None?
    ensures r.Some? ==>
              && 1 <= r.value.iterations <= |perm|
              && r.value.selected == Added(pool, perm[..r.value.iterations], ev, feeRate)
              && ValueOf(pool, perm[..r.value.iterations], ev, feeRate) >= target + CHANGE_LOWER
              && ValueOf(pool, perm[..r.value.iterations - 1], ev, feeRate) < target + CHANGE_LOWER
    ensures target <= MAX_MONEY && r.None? ==> ValueOf(pool, perm, ev, feeRate) < target + CHANGE_LOWER
  {
    if target > MAX_MONEY then None
    else
      var threshold := target + CHANGE_LOWER;
      assert perm[..0] == [];
      Walk(pool, perm, ev, feeRate, threshold, 0, 0, [])
  }

  /** A position is added by the walk over `order` exactly when it occurs in
      `order` and its UTXO is usable: undefined and negative effective values
      are skipped, and nothing else is. */
  lemma {:induction false} AddedMembership(pool: seq<WeightedUtxo>, order: seq<nat>, ev: EffectiveValue, feeRate: U64)
    requires AllBelow(order, |pool|)
    ensures AllBelow(Added(pool, order, ev, feeRate), |pool|)
    ensures forall x :: x in Added(pool, order, ev, feeRate) <==> x in order && x < |pool| && Usable(ev, feeRate, pool[x])
  {
    if order != [] {
      var front := order[..|order| - 1];
      assert order == front + [order[|order| - 1]];
      AddedMembership(pool, front, ev, feeRate);
    }
  }

  /** Walking a sequence without repetitions adds no position twice. */
  lemma {:induction false} AddedDistinct(pool: seq<WeightedUtxo>, order: seq<nat>, ev: EffectiveValue, feeRate: U64)
    requires AllBelow(order, |pool|)
    requires Distinct(order)
    ensures Distinct(Added(pool, order, ev, feeRate))
  {
    if order != [] {
      var front := order[..|order| - 1];
      var last := order[|order| - 1];
      assert order == front + [last];
      AddedDistinct(pool, front, ev, feeRate);
      AddedMembership(pool, front, ev, feeRate);
      assert last !in front;
    }
  }

  /** Walking one more position extends the selection and the value by that
      position's contribution. */
  lemma WalkSnoc(pool: seq<WeightedUtxo>, order: seq<nat>, x: nat, ev: EffectiveValue, feeRate: U64)
    requires AllBelow(order, |pool|)
    requires x < |pool|
    ensures AllBelow(order + [x], |pool|)
    ensures Added(pool, order + [x], ev, feeRate)
         == Added(pool, order, ev, feeRate) + (if Usable(ev, feeRate, pool[x]) then [x] else [])
    ensures ValueOf(pool, order + [x], ev, feeRate)
         == ValueOf(pool, order, ev, feeRate) + Contribution(ev, feeRate, pool[x])
  {
    assert (order + [x])[..|order|] == order;
  }

  /** The skipped UTXOs contribute nothing: the value of the selection equals
      the value accumulated over the walk. */
  lemma {:induction false} ValueOfAdded(pool: seq<WeightedUtxo>, order: seq<nat>, ev: EffectiveValue, feeRate: U64)
    requires AllBelow(order, |pool|)
    ensures AllBelow(Added(pool, order, ev, feeRate), |pool|)
    ensures ValueOf(pool, Added(pool, order, ev, feeRate), ev, feeRate) == ValueOf(pool, order, ev, feeRate)
  {
    AddedMembership(pool, order, ev, feeRate);
    if order != [] {
      var front := order[..|order| - 1];
      var last := order[|order| - 1];
      assert order == front + [last];
      ValueOfAdded(pool, front, ev, feeRate);
      AddedMembership(pool, front, ev, feeRate);
      WalkSnoc(pool, front, last, ev, feeRate);
      var a := Added(pool, front, ev, feeRate);
      assert ValueOf(pool, order, ev, feeRate) == ValueOf(pool, front, ev, feeRate) + Contribution(ev, feeRate, pool[last]);
      if Usable(ev, feeRate, pool[last]) {
        assert Added(pool, order, ev, feeRate) == a + [last];
        WalkSnoc(pool, a, last, ev, feeRate);
      } else {
        assert Added(pool, order, ev, feeRate) == a;
      }
    }
  }

  /** The running value never decreases along the walk. */
  lemma {:induction false} ValueOfPrefix(pool: seq<WeightedUtxo>, order: seq<nat>, k: nat, ev: EffectiveValue, feeRate: U64)
    requires AllBelow(order, |pool|)
    requires k <= |order|
    ensures ValueOf(pool, order[..k], ev, feeRate) <= ValueOf(pool, order, ev, feeRate)
    decreases |order|
  {
    if k < |order| {
      var front := order[..|order| - 1];
      assert front[..k] == order[..k];
      ValueOfPrefix(pool, front, k, ev, feeRate);
    } else {
      assert order[..k] == order;
    }
  }

  /** `select_coins_srd` fails exactly when the target exceeds the money supply
      or the whole shuffled pool falls short of `target + CHANGE_LOWER`. */
  lemma SrdNoneIff(target: U64, feeRate: U64, pool: seq<WeightedUtxo>, perm: seq<nat>, ev: EffectiveValue)
    requires IsPermutation(perm, |pool|)
    ensures SelectCoinsSrd(target, feeRate, pool, perm, ev).None?
        <==> target > MAX_MONEY || ValueOf(pool, perm, ev, feeRate) < target + CHANGE_LOWER
  {
    var r := SelectCoinsSrd(target, feeRate, pool, perm, ev);
    if r.Some? {
      ValueOfPrefix(pool, perm, r.value.iterations, ev, feeRate);
    }
  }

  /** The running value is never negative: skipped UTXOs add nothing and
      added ones add a non-negative amount. */
  lemma {:induction false} ValueOfNonNegative(pool: seq<WeightedUtxo>, order: seq<nat>, ev: EffectiveValue, feeRate: U64)
    requires AllBelow(order, |pool|)
    ensures ValueOf(pool, order, ev, feeRate) >= 0
    decreases |order|
  {
    if order != [] {
      ValueOfNonNegative(pool, order[..|order| - 1], ev, feeRate);
    }
  }

  /** Every running value the walk computes fits a `u64`: below the
      threshold before the last UTXO walked, and that UTXO adds at most an
      `i64`. So the `Amount` additions never overflow, and summing cannot be
      a reason for `None`. */
  lemma SrdNoOverflow(target: U64, feeRate: U64, pool: seq<WeightedUtxo>, perm: seq<nat>, ev: EffectiveValue, k: nat)
    requires IsPermutation(perm, |pool|)
    requires target <= MAX_MONEY && k <= |perm|
    requires var r := SelectCoinsSrd(target, feeRate, pool, perm, ev);
             r.None? || k <= r.value.iterations
    ensures 0 <= ValueOf(pool, perm[..k], ev, feeRate) <= U64_MAX
  {
    var r := SelectCoinsSrd(target, feeRate, pool, perm, ev);
    ValueOfNonNegative(pool, perm[..k], ev, feeRate);
    if r.None? {
      ValueOfPrefix(pool, perm, k, ev, feeRate);
    } else {
      var it := r.value.iterations;
      ValueOfPrefix(pool, perm[..it], k, ev, feeRate);
      assert perm[..it][..k] == perm[..k];
      assert perm[..it][..it - 1] == perm[..it - 1];
    }
  }

  /** `select_coins_srd` as its documentation describes it: a zero target is
      among the `None` cases. Otherwise it is `select_coins_srd`, so a result
      is a non-empty selection reaching `target + CHANGE_LOWER`. */
  function SelectCoinsSrdNonZero(target: U64, feeRate: U64, pool: seq<WeightedUtxo>, perm: seq<nat>,
                                 ev: EffectiveValue): (r: Option<Draw>)
    requires IsPermutation(perm, |pool|)
    ensures target == 0 ==> r.None?
    ensures r.Some? ==>
              && 0 < target <= MAX_MONEY
              && r.value.selected != []
              && AllBelow(r.value.selected, |pool|)
              && ValueOf(pool, r.value.selected, ev, feeRate) >= target + CHANGE_LOWER
    ensures target > 0 ==> r == SelectCoinsSrd(target, feeRate, pool, perm, ev)
  {
    if target == 0 then None
    else
      var r := SelectCoinsSrd(target, feeRate, pool, perm, ev);
      if r.Some? then
        SrdSelection(target, feeRate, pool, perm, ev);
        r
      else r
  }

  /** A successful draw selects distinct usable UTXOs of the pool in walk
      order; the UTXO at walk position `iterations` is the last one selected,
      the selection reaches `target + CHANGE_LOWER`, and without its last
      element it does not. */
  lemma SrdSelection(target: U64, feeRate: U64, pool: seq<WeightedUtxo>, perm: seq<nat>, ev: EffectiveValue)
    requires IsPermutation(perm, |pool|)
    requires SelectCoinsSrd(target, feeRate, pool, perm, ev).Some?
    ensures var d := SelectCoinsSrd(target, feeRate, pool, perm, ev).value;
            && AllBelow(d.selected, |pool|)
            && Distinct(d.selected)
            && (forall x :: x in d.selected ==> Usable(ev, feeRate, pool[x]))
            && |d.selected| > 0
            && d.selected[|d.selected| - 1] == perm[d.iterations - 1]
            && ValueOf(pool, d.selected, ev, feeRate) >= target + CHANGE_LOWER
            && ValueOf(pool, d.selected[..|d.selected| - 1], ev, feeRate) < target + CHANGE_LOWER
  {
    var d := SelectCoinsSrd(target, feeRate, pool, perm, ev).value;
    var it := d.iterations;
    PrefixDistinct(perm, |pool|, it);
    assert perm[..it][..it - 1] == perm[..it - 1];
    CrossingSelection(pool, perm[..it], ev, feeRate, target + CHANGE_LOWER);
  }

  /** A prefix of a permutation repeats no position. */
  lemma PrefixDistinct(perm: seq<nat>, n: nat, k: nat)
    requires IsPermutation(perm, n) && k <= |perm|
    ensures AllBelow(perm[..k], n) && Distinct(perm[..k])
  {
    var w := perm[..k];
    assert forall i :: 0 <= i < |w| ==> w[i] == perm[i];
  }

  /** A walk without repetitions whose last position takes the value from
      below `threshold` to at least `threshold` selected that position last,
      and the selection reaches the threshold only with it. */
  lemma CrossingSelection(pool: seq<WeightedUtxo>, walked: seq<nat>, ev: EffectiveValue, feeRate: U64, threshold: int)
    requires AllBelow(walked, |pool|) && Distinct(walked) && |walked| > 0
    requires ValueOf(pool, walked, ev, feeRate) >= threshold
    requires ValueOf(pool, walked[..|walked| - 1], ev, feeRate) < threshold
    ensures var sel := Added(pool, walked, ev, feeRate);
            && AllBelow(sel, |pool|)
            && Distinct(sel)
            && (forall x :: x in sel ==> Usable(ev, feeRate, pool[x]))
            && |sel| > 0
            && sel[|sel| - 1] == walked[|walked| - 1]
            && ValueOf(pool, sel, ev, feeRate) >= threshold
            && ValueOf(pool, sel[..|sel| - 1], ev, feeRate) < threshold
  {
    var front := walked[..|walked| - 1];
    var x := walked[|walked| - 1];
    assert walked == front + [x];
    AddedMembership(pool, walked, ev, feeRate);
    AddedDistinct(pool, walked, ev, feeRate);
    ValueOfAdded(pool, walked, ev, feeRate);
    LastAdded(pool, front, x, ev, feeRate);
    var a := Added(pool, front, ev, feeRate);
    ValueOfAdded(pool, front, ev, feeRate);
    assert (a + [x])[..|a|] == a;
  }

  /** A position whose visit raises the value is added last. */
  lemma LastAdded(pool: seq<WeightedUtxo>, front: seq<nat>, x: nat, ev: EffectiveValue, feeRate: U64)
    requires AllBelow(front, |pool|) && x < |pool|
    requires ValueOf(pool, front + [x], ev, feeRate) > ValueOf(pool, front, ev, feeRate)
    ensures Usable(ev, feeRate, pool[x])
    ensures Added(pool, front + [x], ev, feeRate) == Added(pool, front, ev, feeRate) + [x]
  {
    WalkSnoc(pool, front, x, ev, feeRate);
  }

  /** One step of the walk: a usable UTXO that reaches the threshold ends it. */
  lemma WalkFinish(pool: seq<WeightedUtxo>, perm: seq<nat>, ev: EffectiveValue, feeRate: U64,
                   threshold: int, i: nat, value: int, result: seq<nat>)
    requires AllBelow(perm, |pool|)
    requires i < |perm|
    requires threshold <= MAX_MONEY + CHANGE_LOWER
    requires 0 <= value < threshold
    requires value == ValueOf(pool, perm[..i], ev, feeRate)
    requires result == Added(pool, perm[..i], ev, feeRate)
    requires Usable(ev, feeRate, pool[perm[i]])
    requires value + ev(feeRate, pool[perm[i]]).value >= threshold
    ensures Walk(pool, perm, ev, feeRate, threshold, i, value, result) == Some(Draw(i + 1, result + [perm[i]]))
  {
  }

  /** One step of the walk: an unusable UTXO is counted and skipped. */
  lemma WalkSkip(pool: seq<WeightedUtxo>, perm: seq<nat>, ev: EffectiveValue, feeRate: U64,
                 threshold: int, i: nat, value: int, result: seq<nat>)
    requires AllBelow(perm, |pool|)
    requires i < |perm|
    requires threshold <= MAX_MONEY + CHANGE_LOWER
    requires 0 <= value < threshold
    requires value == ValueOf(pool, perm[..i], ev, feeRate)
    requires result == Added(pool, perm[..i], ev, feeRate)
    requires !Usable(ev, feeRate, pool[perm[i]])
    ensures value == ValueOf(pool, perm[..i + 1], ev, feeRate)
    ensures result == Added(pool, perm[..i + 1], ev, feeRate)
    ensures Walk(pool, perm, ev, feeRate, threshold, i, value, result)
         == Walk(pool, perm, ev, feeRate, threshold, i + 1, value, result)
  {
    assert perm[..i + 1] == perm[..i] + [perm[i]];
    WalkSnoc(pool, perm[..i], perm[i], ev, feeRate);
  }

  /** One step of the walk: a usable UTXO below the threshold is added. */
  lemma WalkAdd(pool: seq<WeightedUtxo>, perm: seq<nat>, ev: EffectiveValue, feeRate: U64,
                threshold: int, i: nat, value: int, result: seq<nat>)
    requires AllBelow(perm, |pool|)
    requires i < |perm|
    requires threshold <= MAX_MONEY + CHANGE_LOWER
    requires 0 <= value < threshold
    requires value == ValueOf(pool, perm[..i], ev, feeRate)
    requires result == Added(pool, perm[..i], ev, feeRate)
    requires Usable(ev, feeRate, pool[perm[i]])
    requires value + ev(feeRate, pool[perm[i]]).value < threshold
    ensures value + ev(feeRate, pool[perm[i]]).value == ValueOf(pool, perm[..i + 1], ev, feeRate)
    ensures result + [perm[i]] == Added(pool, perm[..i + 1], ev, feeRate)
    ensures Walk(pool, perm, ev, feeRate, threshold, i, value, result)
         == Walk(pool, perm, ev, feeRate, threshold, i + 1, value + ev(feeRate, pool[perm[i]]).value, result + [perm[i]])
  {
    assert perm[..i + 1] == perm[..i] + [perm[i]];
    WalkSnoc(pool, perm[..i], perm[i], ev, feeRate);
  }

  /** The two-UTXO pool of the unit tests, 1 cBTC and 2 cBTC at 204 weight
      units, shuffled by a constant generator into the order [2 cBTC, 1 cBTC].
      Whatever fee the effective value deducts (below 1 000 satoshi), a 1.5 cBTC
      target is met by the first UTXO walked and a 2.5 cBTC target by both. */
  lemma SrdTwoUtxoExample(ev: EffectiveValue, e0: I64, e1: I64)
    requires ev(10, WeightedUtxo(1_000_000, 204)) == Some(e0)
    requires ev(10, WeightedUtxo(2_000_000, 204)) == Some(e1)
    requires 999_000 <= e0 <= 1_000_000 && 1_999_000 <= e1 <= 2_000_000
    ensures var pool := [WeightedUtxo(1_000_000, 204), WeightedUtxo(2_000_000, 204)];
            && SelectCoinsSrd(1_500_000, 10, pool, [1, 0], ev) == Some(Draw(1, [1]))
            && SelectCoinsSrd(2_500_000, 10, pool, [1, 0], ev) == Some(Draw(2, [1, 0]))
  {
    TwoUtxoDraws(WeightedUtxo(1_000_000, 204), WeightedUtxo(2_000_000, 204), ev, 10, e0, e1, 1_500_000);
    TwoUtxoDraws(WeightedUtxo(1_000_000, 204), WeightedUtxo(2_000_000, 204), ev, 10, e0, e1, 2_500_000);
  }

  /** A two-UTXO pool walked second UTXO first: the draw stops at the first
      walk position when that UTXO alone reaches `target + CHANGE_LOWER`, and
      at the second, selecting both, when only the two together do. */
  lemma TwoUtxoDraws(a: WeightedUtxo, b: WeightedUtxo, ev: EffectiveValue, feeRate: U64,
                     ea: I64, eb: I64, target: U64)
    requires ev(feeRate, a) == Some(ea) && ev(feeRate, b) == Some(eb) && 0 <= ea && 0 <= eb
    requires target <= MAX_MONEY
    ensures eb >= target + CHANGE_LOWER ==>
              SelectCoinsSrd(target, feeRate, [a, b], [1, 0], ev) == Some(Draw(1, [1]))
    ensures eb < target + CHANGE_LOWER <= ea + eb ==>
              SelectCoinsSrd(target, feeRate, [a, b], [1, 0], ev) == Some(Draw(2, [1, 0]))
  {
    var pool := [a, b];
    var perm: seq<nat> := [1, 0];
    var threshold := target + CHANGE_LOWER;
    assert perm[..0] == [];
    assert SelectCoinsSrd(target, feeRate, pool, perm, ev) == Walk(pool, perm, ev, feeRate, threshold, 0, 0, []);
    if eb >= threshold {
      WalkFinish(pool, perm, ev, feeRate, threshold, 0, 0, []);
      assert [] + [perm[0]] == [1];
    } else if threshold <= ea + eb {
      WalkAdd(pool, perm, ev, feeRate, threshold, 0, 0, []);
      WalkFinish(pool, perm, ev, feeRate, threshold, 1, eb, [1]);
      assert [1] + [perm[1]] == [1, 0];
    }
  }

  /** The two-UTXO pool of the unit tests with a zero target: the walk
      reaches `CHANGE_LOWER` with the first UTXO and returns it, although a
      zero target is documented as a `None` case; the corrected function
      returns `None`. */
  lemma SrdZeroTargetExample(ev: EffectiveValue, e0: I64, e1: I64)
    requires ev(10, WeightedUtxo(1_000_000, 204)) == Some(e0)
    requires ev(10, WeightedUtxo(2_000_000, 204)) == Some(e1)
    requires 999_000 <= e0 <= 1_000_000 && 1_999_000 <= e1 <= 2_000_000
    ensures var pool := [WeightedUtxo(1_000_000, 204), WeightedUtxo(2_000_000, 204)];
            && SelectCoinsSrd(0, 10, pool, [1, 0], ev) == Some(Draw(1, [1]))
            && SelectCoinsSrdNonZero(0, 10, pool, [1, 0], ev) == None
  {
    TwoUtxoDraws(WeightedUtxo(1_000_000, 204), WeightedUtxo(2_000_000, 204), ev, 10, e0, e1, 0);
  }

  /** A UTXO with a negative effective value is walked over without being
      selected: with the pool [1 cBTC, 2 cBTC, 1 sat] shuffled to
      [2 cBTC, 1 sat, 1 cBTC] and a 1.95 cBTC target, the draw needs all three
      walk positions and selects [2 cBTC, 1 cBTC]. */
  lemma SrdSkipNegativeExample(ev: EffectiveValue, e0: I64, e1: I64, e2: I64)
    requires ev(10, WeightedUtxo(1_000_000, 204)) == Some(e0)
    requires ev(10, WeightedUtxo(2_000_000, 204)) == Some(e1)
    requires ev(10, WeightedUtxo(1, 204)) == Some(e2)
    requires 999_000 <= e0 <= 1_000_000 && 1_999_000 <= e1 < 2_000_000 && e2 < 0
    ensures var pool := [WeightedUtxo(1_000_000, 204), WeightedUtxo(2_000_000, 204), WeightedUtxo(1, 204)];
            SelectCoinsSrd(1_950_000, 10, pool, [1, 2, 0], ev) == Some(Draw(3, [1, 0]))
  {
    var pool := [WeightedUtxo(1_000_000, 204), WeightedUtxo(2_000_000, 204), WeightedUtxo(1, 204)];
    var perm: seq<nat> := [1, 2, 0];
    assert perm[..0] == [];
    assert SelectCoinsSrd(1_950_000, 10, pool, perm, ev) == Walk(pool, perm, ev, 10, 2_000_000, 0, 0, []);
    WalkAdd(pool, perm, ev, 10, 2_000_000, 0, 0, []);
    assert [] + [perm[0]] == [1];
    WalkSkip(pool, perm, ev, 10, 2_000_000, 1, e1, [1]);
    WalkFinish(pool, perm, ev, 10, 2_000_000, 2, e1, [1]);
    assert [1] + [perm[2]] == [1, 0];
  }
}
