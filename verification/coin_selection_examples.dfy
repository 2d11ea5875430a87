/** The unit tests of the crate root, stated over the model: the four-UTXO
    pool of 1, 2, 3 and 4 bitcoin with a cost of change of half a bitcoin. */
module CoinSelectionExamples {
  import opened Common
  import opened Sorting
  import opened CoinSelection

  const ONE_BTC := 100_000_000
  const COST_OF_CHANGE := 50_000_000
  const UTXO_POOL := [Utxo(ONE_BTC), Utxo(2 * ONE_BTC), Utxo(3 * ONE_BTC), Utxo(4 * ONE_BTC)]
  const SORTED_POOL := [Utxo(4 * ONE_BTC), Utxo(3 * ONE_BTC), Utxo(2 * ONE_BTC), Utxo(ONE_BTC)]

  lemma SortFour(a: Utxo, b: Utxo, c: Utxo, d: Utxo)
    requires a.value < b.value < c.value < d.value
    ensures SortAsc([a, b, c, d], DescendingValue) == [d, c, b, a]
  {
    assert Reverse([a, b, c, d]) == [d, c, b, a] by {
      var r := Reverse([a, b, c, d]);
      assert r[0] == d && r[1] == c && r[2] == b && r[3] == a;
    }
    var p := [a, b, c, d];
    forall i, j | 0 <= i < j < |p|
      ensures DescendingValue(p[i]) > DescendingValue(p[j])
    {
      assert p[i].value < p[j].value;
    }
    SortAscOfDescending(p, DescendingValue);
  }

  lemma TotalFour(a: Utxo, b: Utxo, c: Utxo, d: Utxo)
    ensures Total([a, b, c, d]) == a.value + b.value + c.value + d.value
  {
    TotalCons(d, []);
    TotalCons(c, [d]);
    TotalCons(b, [c, d]);
    TotalCons(a, [b, c, d]);
    assert [a] + [b, c, d] == [a, b, c, d];
    assert [b] + [c, d] == [b, c, d];
    assert [c] + [d] == [c, d];
    assert [d] + [] == [d];
  }

  /** On the test pool, `select_coins_bnb` sorts it and runs the loop over the
      sorted pool from a remainder of 10 bitcoin. */
  lemma BnbOnPool(target: U64, costOfChange: U64)
    requires target <= 10 * ONE_BTC && target + costOfChange <= U64_MAX
    ensures FindSolution(target, costOfChange, UTXO_POOL)
            == Return(Solution(SORTED_POOL, Pass(SORTED_POOL, target, target + costOfChange, 0, 10 * ONE_BTC, 0, []).0,
                                            Pass(SORTED_POOL, target, target + costOfChange, 0, 10 * ONE_BTC, 0, []).1))
  {
    SortFour(UTXO_POOL[0], UTXO_POOL[1], UTXO_POOL[2], UTXO_POOL[3]);
    TotalFour(UTXO_POOL[0], UTXO_POOL[1], UTXO_POOL[2], UTXO_POOL[3]);
  }

  /** `select_coins_bnb` on the test pool returns the UTXOs `coins` at the
      positions the loop picks. */
  lemma BnbSelects(target: U64, costOfChange: U64, picked: seq<nat>, coins: seq<Utxo>)
    requires target <= 10 * ONE_BTC && target + costOfChange <= U64_MAX
    requires Pass(SORTED_POOL, target, target + costOfChange, 0, 10 * ONE_BTC, 0, []).0 == picked
    requires picked != [] && AllBelow(picked, 4) && Pick(SORTED_POOL, picked) == coins
    ensures SelectCoinsBnb(target, costOfChange, UTXO_POOL) == Return(Selected(SORTED_POOL, Some(coins)))
  {
    BnbOnPool(target, costOfChange);
  }

  /** `select_coins_bnb` on the test pool returns `None` when the loop picks nothing. */
  lemma BnbSelectsNothing(target: U64, costOfChange: U64)
    requires target <= 10 * ONE_BTC && target + costOfChange <= U64_MAX
    requires Pass(SORTED_POOL, target, target + costOfChange, 0, 10 * ONE_BTC, 0, []).0 == []
    ensures SelectCoinsBnb(target, costOfChange, UTXO_POOL) == Return(Selected(SORTED_POOL, None))
  {
    BnbOnPool(target, costOfChange);
  }

  lemma OneBtcPass()
    ensures Pass(SORTED_POOL, ONE_BTC, ONE_BTC + COST_OF_CHANGE, 0, 10 * ONE_BTC, 0, []) == ([3], Matched)
  {
    var s, lo, up := SORTED_POOL, ONE_BTC, ONE_BTC + COST_OF_CHANGE;
    var e: seq<nat> := [];
    assert Pass(s, lo, up, 0, 10 * ONE_BTC, 0, []) == Pass(s, lo, up, 1, 6 * ONE_BTC, 0, []);
    assert Pass(s, lo, up, 1, 6 * ONE_BTC, 0, []) == Pass(s, lo, up, 2, 3 * ONE_BTC, 0, []);
    assert Pass(s, lo, up, 2, 3 * ONE_BTC, 0, []) == Pass(s, lo, up, 3, ONE_BTC, 0, []);
    assert e + [3] == [3];
  }

  /** `find_solution_1_btc`. */
  lemma BnbOneBtc()
    ensures SelectCoinsBnb(ONE_BTC, COST_OF_CHANGE, UTXO_POOL) == Return(Selected(SORTED_POOL, Some([Utxo(ONE_BTC)])))
  {
    OneBtcPass();
    assert Pick(SORTED_POOL, [3]) == [SORTED_POOL[3]];
    BnbSelects(ONE_BTC, COST_OF_CHANGE, [3], [Utxo(ONE_BTC)]);
  }

  lemma TwoBtcPass()
    ensures Pass(SORTED_POOL, 2 * ONE_BTC, 2 * ONE_BTC + COST_OF_CHANGE, 0, 10 * ONE_BTC, 0, []) == ([2], Matched)
  {
    var s, lo, up := SORTED_POOL, 2 * ONE_BTC, 2 * ONE_BTC + COST_OF_CHANGE;
    var e: seq<nat> := [];
    assert Pass(s, lo, up, 0, 10 * ONE_BTC, 0, []) == Pass(s, lo, up, 1, 6 * ONE_BTC, 0, []);
    assert Pass(s, lo, up, 1, 6 * ONE_BTC, 0, []) == Pass(s, lo, up, 2, 3 * ONE_BTC, 0, []);
    assert e + [2] == [2];
  }

  /** `find_solution_2_btc`. */
  lemma BnbTwoBtc()
    ensures SelectCoinsBnb(2 * ONE_BTC, COST_OF_CHANGE, UTXO_POOL) == Return(Selected(SORTED_POOL, Some([Utxo(2 * ONE_BTC)])))
  {
    TwoBtcPass();
    assert Pick(SORTED_POOL, [2]) == [SORTED_POOL[2]];
    BnbSelects(2 * ONE_BTC, COST_OF_CHANGE, [2], [Utxo(2 * ONE_BTC)]);
  }

  lemma ThreeBtcPass()
    ensures Pass(SORTED_POOL, 3 * ONE_BTC, 3 * ONE_BTC + COST_OF_CHANGE, 0, 10 * ONE_BTC, 0, []) == ([1], Matched)
  {
    var s, lo, up := SORTED_POOL, 3 * ONE_BTC, 3 * ONE_BTC + COST_OF_CHANGE;
    var e: seq<nat> := [];
    assert Pass(s, lo, up, 0, 10 * ONE_BTC, 0, []) == Pass(s, lo, up, 1, 6 * ONE_BTC, 0, []);
    assert e + [1] == [1];
  }

  /** `find_solution_3_btc`. */
  lemma BnbThreeBtc()
    ensures SelectCoinsBnb(3 * ONE_BTC, COST_OF_CHANGE, UTXO_POOL) == Return(Selected(SORTED_POOL, Some([Utxo(3 * ONE_BTC)])))
  {
    ThreeBtcPass();
    assert Pick(SORTED_POOL, [1]) == [SORTED_POOL[1]];
    BnbSelects(3 * ONE_BTC, COST_OF_CHANGE, [1], [Utxo(3 * ONE_BTC)]);
  }

  lemma FourBtcPass()
    ensures Pass(SORTED_POOL, 4 * ONE_BTC, 4 * ONE_BTC + COST_OF_CHANGE, 0, 10 * ONE_BTC, 0, []) == ([0], Matched)
  {
    var s, lo, up := SORTED_POOL, 4 * ONE_BTC, 4 * ONE_BTC + COST_OF_CHANGE;
    var e: seq<nat> := [];
    assert e + [0] == [0];
  }

  /** `find_solution_4_btc`. */
  lemma BnbFourBtc()
    ensures SelectCoinsBnb(4 * ONE_BTC, COST_OF_CHANGE, UTXO_POOL) == Return(Selected(SORTED_POOL, Some([Utxo(4 * ONE_BTC)])))
  {
    FourBtcPass();
    assert Pick(SORTED_POOL, [0]) == [SORTED_POOL[0]];
    BnbSelects(4 * ONE_BTC, COST_OF_CHANGE, [0], [Utxo(4 * ONE_BTC)]);
  }

  lemma FiveBtcPass()
    ensures Pass(SORTED_POOL, 5 * ONE_BTC, 5 * ONE_BTC + COST_OF_CHANGE, 0, 10 * ONE_BTC, 0, []) == ([0, 3], Matched)
  {
    var s, lo, up := SORTED_POOL, 5 * ONE_BTC, 5 * ONE_BTC + COST_OF_CHANGE;
    var e: seq<nat> := [];
    assert e + [0] == [0];
    assert Pass(s, lo, up, 0, 10 * ONE_BTC, 0, []) == Pass(s, lo, up, 1, 6 * ONE_BTC, 4 * ONE_BTC, [0]);
    assert Pass(s, lo, up, 1, 6 * ONE_BTC, 4 * ONE_BTC, [0]) == Pass(s, lo, up, 2, 3 * ONE_BTC, 4 * ONE_BTC, [0]);
    assert Pass(s, lo, up, 2, 3 * ONE_BTC, 4 * ONE_BTC, [0]) == Pass(s, lo, up, 3, ONE_BTC, 4 * ONE_BTC, [0]);
    assert [0] + [3] == [0, 3];
  }

  /** `find_solution_5_btc`. */
  lemma BnbFiveBtc()
    ensures SelectCoinsBnb(5 * ONE_BTC, COST_OF_CHANGE, UTXO_POOL) == Return(Selected(SORTED_POOL, Some([Utxo(4 * ONE_BTC), Utxo(ONE_BTC)])))
  {
    FiveBtcPass();
    assert Pick(SORTED_POOL, [0, 3]) == [SORTED_POOL[0], SORTED_POOL[3]];
    BnbSelects(5 * ONE_BTC, COST_OF_CHANGE, [0, 3], [Utxo(4 * ONE_BTC), Utxo(ONE_BTC)]);
  }

  lemma SixBtcPass()
    ensures Pass(SORTED_POOL, 6 * ONE_BTC, 6 * ONE_BTC + COST_OF_CHANGE, 0, 10 * ONE_BTC, 0, []) == ([0, 2], Matched)
  {
    var s, lo, up := SORTED_POOL, 6 * ONE_BTC, 6 * ONE_BTC + COST_OF_CHANGE;
    var e: seq<nat> := [];
    assert e + [0] == [0];
    assert Pass(s, lo, up, 0, 10 * ONE_BTC, 0, []) == Pass(s, lo, up, 1, 6 * ONE_BTC, 4 * ONE_BTC, [0]);
    assert Pass(s, lo, up, 1, 6 * ONE_BTC, 4 * ONE_BTC, [0]) == Pass(s, lo, up, 2, 3 * ONE_BTC, 4 * ONE_BTC, [0]);
    assert [0] + [2] == [0, 2];
  }

  /** `find_solution_6_btc`. */
  lemma BnbSixBtc()
    ensures SelectCoinsBnb(6 * ONE_BTC, COST_OF_CHANGE, UTXO_POOL) == Return(Selected(SORTED_POOL, Some([Utxo(4 * ONE_BTC), Utxo(2 * ONE_BTC)])))
  {
    SixBtcPass();
    assert Pick(SORTED_POOL, [0, 2]) == [SORTED_POOL[0], SORTED_POOL[2]];
    BnbSelects(6 * ONE_BTC, COST_OF_CHANGE, [0, 2], [Utxo(4 * ONE_BTC), Utxo(2 * ONE_BTC)]);
  }

  lemma SevenBtcPass()
    ensures Pass(SORTED_POOL, 7 * ONE_BTC, 7 * ONE_BTC + COST_OF_CHANGE, 0, 10 * ONE_BTC, 0, []) == ([0, 1], Matched)
  {
    var s, lo, up := SORTED_POOL, 7 * ONE_BTC, 7 * ONE_BTC + COST_OF_CHANGE;
    var e: seq<nat> := [];
    assert e + [0] == [0];
    assert Pass(s, lo, up, 0, 10 * ONE_BTC, 0, []) == Pass(s, lo, up, 1, 6 * ONE_BTC, 4 * ONE_BTC, [0]);
    assert [0] + [1] == [0, 1];
  }

  /** `find_solution_7_btc`. */
  lemma BnbSevenBtc()
    ensures SelectCoinsBnb(7 * ONE_BTC, COST_OF_CHANGE, UTXO_POOL) == Return(Selected(SORTED_POOL, Some([Utxo(4 * ONE_BTC), Utxo(3 * ONE_BTC)])))
  {
    SevenBtcPass();
    assert Pick(SORTED_POOL, [0, 1]) == [SORTED_POOL[0], SORTED_POOL[1]];
    BnbSelects(7 * ONE_BTC, COST_OF_CHANGE, [0, 1], [Utxo(4 * ONE_BTC), Utxo(3 * ONE_BTC)]);
  }

  lemma EightBtcPass()
    ensures Pass(SORTED_POOL, 8 * ONE_BTC, 8 * ONE_BTC + COST_OF_CHANGE, 0, 10 * ONE_BTC, 0, []) == ([0, 1, 3], Matched)
  {
    var s, lo, up := SORTED_POOL, 8 * ONE_BTC, 8 * ONE_BTC + COST_OF_CHANGE;
    var e: seq<nat> := [];
    assert e + [0] == [0];
    assert Pass(s, lo, up, 0, 10 * ONE_BTC, 0, []) == Pass(s, lo, up, 1, 6 * ONE_BTC, 4 * ONE_BTC, [0]);
    assert [0] + [1] == [0, 1];
    assert Pass(s, lo, up, 1, 6 * ONE_BTC, 4 * ONE_BTC, [0]) == Pass(s, lo, up, 2, 3 * ONE_BTC, 7 * ONE_BTC, [0, 1]);
    assert Pass(s, lo, up, 2, 3 * ONE_BTC, 7 * ONE_BTC, [0, 1]) == Pass(s, lo, up, 3, ONE_BTC, 7 * ONE_BTC, [0, 1]);
    assert [0, 1] + [3] == [0, 1, 3];
  }

  /** `find_solution_8_btc`. */
  lemma BnbEightBtc()
    ensures SelectCoinsBnb(8 * ONE_BTC, COST_OF_CHANGE, UTXO_POOL) == Return(Selected(SORTED_POOL, Some([Utxo(4 * ONE_BTC), Utxo(3 * ONE_BTC), Utxo(ONE_BTC)])))
  {
    EightBtcPass();
    assert Pick(SORTED_POOL, [0, 1, 3]) == [SORTED_POOL[0], SORTED_POOL[1], SORTED_POOL[3]];
    BnbSelects(8 * ONE_BTC, COST_OF_CHANGE, [0, 1, 3], [Utxo(4 * ONE_BTC), Utxo(3 * ONE_BTC), Utxo(ONE_BTC)]);
  }

  lemma NineBtcPass()
    ensures Pass(SORTED_POOL, 9 * ONE_BTC, 9 * ONE_BTC + COST_OF_CHANGE, 0, 10 * ONE_BTC, 0, []) == ([0, 1, 2], Matched)
  {
    var s, lo, up := SORTED_POOL, 9 * ONE_BTC, 9 * ONE_BTC + COST_OF_CHANGE;
    var e: seq<nat> := [];
    assert e + [0] == [0];
    assert Pass(s, lo, up, 0, 10 * ONE_BTC, 0, []) == Pass(s, lo, up, 1, 6 * ONE_BTC, 4 * ONE_BTC, [0]);
    assert [0] + [1] == [0, 1];
    assert Pass(s, lo, up, 1, 6 * ONE_BTC, 4 * ONE_BTC, [0]) == Pass(s, lo, up, 2, 3 * ONE_BTC, 7 * ONE_BTC, [0, 1]);
    assert [0, 1] + [2] == [0, 1, 2];
  }

  /** `find_solution_9_btc`. */
  lemma BnbNineBtc()
    ensures SelectCoinsBnb(9 * ONE_BTC, COST_OF_CHANGE, UTXO_POOL) == Return(Selected(SORTED_POOL, Some([Utxo(4 * ONE_BTC), Utxo(3 * ONE_BTC), Utxo(2 * ONE_BTC)])))
  {
    NineBtcPass();
    assert Pick(SORTED_POOL, [0, 1, 2]) == [SORTED_POOL[0], SORTED_POOL[1], SORTED_POOL[2]];
    BnbSelects(9 * ONE_BTC, COST_OF_CHANGE, [0, 1, 2], [Utxo(4 * ONE_BTC), Utxo(3 * ONE_BTC), Utxo(2 * ONE_BTC)]);
  }

  lemma TenBtcPass()
    ensures Pass(SORTED_POOL, 10 * ONE_BTC, 10 * ONE_BTC + COST_OF_CHANGE, 0, 10 * ONE_BTC, 0, []) == ([0, 1, 2, 3], Matched)
  {
    var s, lo, up := SORTED_POOL, 10 * ONE_BTC, 10 * ONE_BTC + COST_OF_CHANGE;
    var e: seq<nat> := [];
    assert e + [0] == [0];
    assert Pass(s, lo, up, 0, 10 * ONE_BTC, 0, []) == Pass(s, lo, up, 1, 6 * ONE_BTC, 4 * ONE_BTC, [0]);
    assert [0] + [1] == [0, 1];
    assert Pass(s, lo, up, 1, 6 * ONE_BTC, 4 * ONE_BTC, [0]) == Pass(s, lo, up, 2, 3 * ONE_BTC, 7 * ONE_BTC, [0, 1]);
    assert [0, 1] + [2] == [0, 1, 2];
    assert Pass(s, lo, up, 2, 3 * ONE_BTC, 7 * ONE_BTC, [0, 1]) == Pass(s, lo, up, 3, ONE_BTC, 9 * ONE_BTC, [0, 1, 2]);
    assert [0, 1, 2] + [3] == [0, 1, 2, 3];
  }

  /** `find_solution_10_btc`. */
  lemma BnbTenBtc()
    ensures SelectCoinsBnb(10 * ONE_BTC, COST_OF_CHANGE, UTXO_POOL) == Return(Selected(SORTED_POOL, Some([Utxo(4 * ONE_BTC), Utxo(3 * ONE_BTC), Utxo(2 * ONE_BTC), Utxo(ONE_BTC)])))
  {
    TenBtcPass();
    assert Pick(SORTED_POOL, [0, 1, 2, 3]) == [SORTED_POOL[0], SORTED_POOL[1], SORTED_POOL[2], SORTED_POOL[3]];
    BnbSelects(10 * ONE_BTC, COST_OF_CHANGE, [0, 1, 2, 3], [Utxo(4 * ONE_BTC), Utxo(3 * ONE_BTC), Utxo(2 * ONE_BTC), Utxo(ONE_BTC)]);
  }

  lemma LargeCostOfChangePass()
    ensures Pass(SORTED_POOL, ONE_BTC * 9 / 10, ONE_BTC * 9 / 10 + COST_OF_CHANGE, 0, 10 * ONE_BTC, 0, []) == ([3], Exhausted)
  {
    var s, lo, up := SORTED_POOL, ONE_BTC * 9 / 10, ONE_BTC * 9 / 10 + COST_OF_CHANGE;
    var e: seq<nat> := [];
    assert Pass(s, lo, up, 0, 10 * ONE_BTC, 0, []) == Pass(s, lo, up, 1, 6 * ONE_BTC, 0, []);
    assert Pass(s, lo, up, 1, 6 * ONE_BTC, 0, []) == Pass(s, lo, up, 2, 3 * ONE_BTC, 0, []);
    assert Pass(s, lo, up, 2, 3 * ONE_BTC, 0, []) == Pass(s, lo, up, 3, ONE_BTC, 0, []);
    assert e + [3] == [3];
    assert Pass(s, lo, up, 3, ONE_BTC, 0, []) == Pass(s, lo, up, 4, 0, ONE_BTC, [3]);
  }

  /** `find_solution_with_large_cost_of_change`. */
  lemma BnbLargeCostOfChange()
    ensures SelectCoinsBnb(ONE_BTC * 9 / 10, COST_OF_CHANGE, UTXO_POOL) == Return(Selected(SORTED_POOL, Some([Utxo(ONE_BTC)])))
  {
    LargeCostOfChangePass();
    assert Pick(SORTED_POOL, [3]) == [SORTED_POOL[3]];
    BnbSelects(ONE_BTC * 9 / 10, COST_OF_CHANGE, [3], [Utxo(ONE_BTC)]);
  }

  lemma NoCostOfChangeNoMatchPass()
    ensures Pass(SORTED_POOL, ONE_BTC * 9 / 10, ONE_BTC * 9 / 10 + 0, 0, 10 * ONE_BTC, 0, []) == ([], Exhausted)
  {
    var s, lo, up := SORTED_POOL, ONE_BTC * 9 / 10, ONE_BTC * 9 / 10 + 0;
    assert Pass(s, lo, up, 0, 10 * ONE_BTC, 0, []) == Pass(s, lo, up, 1, 6 * ONE_BTC, 0, []);
    assert Pass(s, lo, up, 1, 6 * ONE_BTC, 0, []) == Pass(s, lo, up, 2, 3 * ONE_BTC, 0, []);
    assert Pass(s, lo, up, 2, 3 * ONE_BTC, 0, []) == Pass(s, lo, up, 3, ONE_BTC, 0, []);
    assert Pass(s, lo, up, 3, ONE_BTC, 0, []) == Pass(s, lo, up, 4, 0, 0, []);
  }

  /** `select_coins_no_cost_of_change_and_no_match`. */
  lemma BnbNoCostOfChangeNoMatch()
    ensures SelectCoinsBnb(ONE_BTC * 9 / 10, 0, UTXO_POOL) == Return(Selected(SORTED_POOL, None))
  {
    NoCostOfChangeNoMatchPass();
    BnbSelectsNothing(ONE_BTC * 9 / 10, 0);
  }

  lemma NoMatchTooLargePass()
    ensures Pass(SORTED_POOL, ONE_BTC + 1, ONE_BTC + 1 + COST_OF_CHANGE, 0, 10 * ONE_BTC, 0, []) == ([], Broke)
  {
    var s, lo, up := SORTED_POOL, ONE_BTC + 1, ONE_BTC + 1 + COST_OF_CHANGE;
    assert Pass(s, lo, up, 0, 10 * ONE_BTC, 0, []) == Pass(s, lo, up, 1, 6 * ONE_BTC, 0, []);
    assert Pass(s, lo, up, 1, 6 * ONE_BTC, 0, []) == Pass(s, lo, up, 2, 3 * ONE_BTC, 0, []);
    assert Pass(s, lo, up, 2, 3 * ONE_BTC, 0, []) == Pass(s, lo, up, 3, ONE_BTC, 0, []);
  }

  /** `select_coins_with_no_match_too_large`. */
  lemma BnbNoMatchTooLarge()
    ensures SelectCoinsBnb(ONE_BTC + 1, COST_OF_CHANGE, UTXO_POOL) == Return(Selected(SORTED_POOL, None))
  {
    NoMatchTooLargePass();
    BnbSelectsNothing(ONE_BTC + 1, COST_OF_CHANGE);
  }

  lemma NoMatchTooSmallPass()
    ensures Pass(SORTED_POOL, 1, 1 + COST_OF_CHANGE, 0, 10 * ONE_BTC, 0, []) == ([], Exhausted)
  {
    var s, lo, up := SORTED_POOL, 1, 1 + COST_OF_CHANGE;
    assert Pass(s, lo, up, 0, 10 * ONE_BTC, 0, []) == Pass(s, lo, up, 1, 6 * ONE_BTC, 0, []);
    assert Pass(s, lo, up, 1, 6 * ONE_BTC, 0, []) == Pass(s, lo, up, 2, 3 * ONE_BTC, 0, []);
    assert Pass(s, lo, up, 2, 3 * ONE_BTC, 0, []) == Pass(s, lo, up, 3, ONE_BTC, 0, []);
    assert Pass(s, lo, up, 3, ONE_BTC, 0, []) == Pass(s, lo, up, 4, 0, 0, []);
  }

  /** `select_coins_with_no_match_too_small`. */
  lemma BnbNoMatchTooSmall()
    ensures SelectCoinsBnb(1, COST_OF_CHANGE, UTXO_POOL) == Return(Selected(SORTED_POOL, None))
  {
    NoMatchTooSmallPass();
    BnbSelectsNothing(1, COST_OF_CHANGE);
  }

  /** `find_solution_11_btc_not_possible`: the pool is left unsorted. */
  lemma BnbElevenBtcNotPossible()
    ensures SelectCoinsBnb(11 * ONE_BTC, COST_OF_CHANGE, UTXO_POOL) == Return(Selected(UTXO_POOL, None))
  {
    TotalFour(UTXO_POOL[0], UTXO_POOL[1], UTXO_POOL[2], UTXO_POOL[3]);
  }

  /** `select_coins_random_draw_with_solution`, for every shuffle. */
  lemma RandomDrawWithSolution(shuffled: seq<Utxo>)
    requires multiset(shuffled) == multiset(UTXO_POOL)
    ensures var r := SelectCoinsRandom(ONE_BTC, UTXO_POOL, shuffled);
            r.Return? && r.value.coins.Some?
  {
    TotalFour(UTXO_POOL[0], UTXO_POOL[1], UTXO_POOL[2], UTXO_POOL[3]);
  }

  /** `select_coins_random_draw_no_solution`, for every shuffle. */
  lemma RandomDrawNoSolution(shuffled: seq<Utxo>)
    requires multiset(shuffled) == multiset(UTXO_POOL)
    ensures var r := SelectCoinsRandom(11 * ONE_BTC, UTXO_POOL, shuffled);
            r.Return? && r.value.coins.None?
  {
    TotalFour(UTXO_POOL[0], UTXO_POOL[1], UTXO_POOL[2], UTXO_POOL[3]);
  }

  /** `select_coins_bnb_match_with_random`: the branch-and-bound pass finds
      nothing for a target of one satoshi, so the random draw over the
      sorted slice decides, and it finds a selection. */
  lemma BnbMatchWithRandom(shuffled: seq<Utxo>)
    requires multiset(shuffled) == multiset(UTXO_POOL)
    ensures var r := SelectCoins(1, COST_OF_CHANGE, UTXO_POOL, shuffled);
            r.Return? && r.value.coins.Some? && r == SelectCoinsRandom(1, SORTED_POOL, shuffled)
  {
    TotalFour(UTXO_POOL[0], UTXO_POOL[1], UTXO_POOL[2], UTXO_POOL[3]);
    BnbNoMatchTooSmall();
    FallBackToRandom(1, COST_OF_CHANGE, UTXO_POOL, SORTED_POOL, shuffled);
  }

  /** When the pass selects nothing, `select_coins` is the random draw over
      the slice the pass left behind. */
  lemma FallBackToRandom(target: U64, costOfChange: U64, pool: seq<Utxo>, left: seq<Utxo>, shuffled: seq<Utxo>)
    requires multiset(shuffled) == multiset(pool) == multiset(left)
    requires SelectCoinsBnb(target, costOfChange, pool) == Return(Selected(left, None))
    ensures SelectCoins(target, costOfChange, pool, shuffled) == SelectCoinsRandom(target, left, shuffled)
  {
  }

  /** A one-UTXO pool has one shuffle. */
  lemma ShuffleOfOne(x: Utxo, shuffled: seq<Utxo>)
    requires multiset(shuffled) == multiset([x])
    ensures shuffled == [x]
  {
    assert |shuffled| == |multiset(shuffled)| == 1;
    assert shuffled[0] in multiset(shuffled);
  }

  /** `select_coins_random_test`: a 50-bitcoin UTXO overshoots the upper bound
      of the branch-and-bound pass, and the random draw takes it. */
  lemma SelectCoinsRandomFallback(shuffled: seq<Utxo>)
    requires multiset(shuffled) == multiset([Utxo(5_000_000_000)])
    ensures SelectCoins(100_000_358, 20, [Utxo(5_000_000_000)], shuffled)
            == Return(Selected([Utxo(5_000_000_000)], Some([Utxo(5_000_000_000)])))
  {
    var x := Utxo(5_000_000_000);
    ShuffleOfOne(x, shuffled);
    TotalCons(x, []);
    assert [x] + [] == [x];
    SortAscSorted([x], DescendingValue);
    assert Pass([x], 100_000_358, 100_000_378, 0, 5_000_000_000, 0, []) == ([], Exhausted);
    assert SelectCoinsBnb(100_000_358, 20, [x]) == Return(Selected([x], None));
    assert [x][..1] == [x];
    assert Reach([x], 100_000_358) == 1;
  }

  /** `select_coins_random_fail_test`: the single UTXO cannot reach the target. */
  lemma SelectCoinsRandomFail(shuffled: seq<Utxo>)
    requires multiset(shuffled) == multiset([Utxo(5_000_000_000)])
    ensures var r := SelectCoins(5_000_000_358, 20, [Utxo(5_000_000_000)], shuffled);
            r.Return? && r.value.coins.None?
  {
    TotalCons(Utxo(5_000_000_000), []);
    assert [Utxo(5_000_000_000)] + [] == [Utxo(5_000_000_000)];
  }

  /** The pool of `select_coins_bnb_that_requires_backtrack`, already in
      descending order. */
  const BACKTRACK_POOL := [Utxo(2 * ONE_BTC + 1), Utxo(2 * ONE_BTC), Utxo(2 * ONE_BTC - 1)]

  lemma BacktrackPass()
    ensures Pass(BACKTRACK_POOL, 4 * ONE_BTC - 1, 4 * ONE_BTC - 1, 0, 6 * ONE_BTC, 0, []) == ([0], Exhausted)
  {
    var s, lo := BACKTRACK_POOL, 4 * ONE_BTC - 1;
    var e: seq<nat> := [];
    assert e + [0] == [0];
    assert Pass(s, lo, lo, 0, 6 * ONE_BTC, 0, []) == Pass(s, lo, lo, 1, 4 * ONE_BTC - 1, 2 * ONE_BTC + 1, [0]);
    assert Pass(s, lo, lo, 1, 4 * ONE_BTC - 1, 2 * ONE_BTC + 1, [0]) == Pass(s, lo, lo, 2, 2 * ONE_BTC - 1, 2 * ONE_BTC + 1, [0]);
    assert Pass(s, lo, lo, 2, 2 * ONE_BTC - 1, 2 * ONE_BTC + 1, [0]) == Pass(s, lo, lo, 3, 0, 2 * ONE_BTC + 1, [0]);
  }

  /** On a pool already in descending order, `find_solution` leaves it as it
      is and runs its loop from the pool total. */
  lemma FindSolutionOnSorted(target: U64, costOfChange: U64, pool: seq<Utxo>, total: int,
                             picked: seq<nat>, exit: Exit)
    requires SortedBy(pool, DescendingValue) && Total(pool) == total
    requires target <= total <= U64_MAX && target + costOfChange <= U64_MAX
    requires Pass(pool, target, target + costOfChange, 0, total, 0, []) == (picked, exit)
    ensures FindSolution(target, costOfChange, pool) == Return(Solution(pool, picked, exit))
  {
    SortAscSorted(pool, DescendingValue);
  }

  lemma BacktrackSetup()
    ensures FindSolution(4 * ONE_BTC - 1, 0, BACKTRACK_POOL) == Return(Solution(BACKTRACK_POOL, [0], Exhausted))
  {
    var p := BACKTRACK_POOL;
    BacktrackTotal();
    BacktrackPass();
    FindSolutionOnSorted(4 * ONE_BTC - 1, 0, p, 6 * ONE_BTC, [0], Exhausted);
  }

  /** `select_coins_bnb_that_requires_backtrack` as written: the greedy pass
      keeps the first UTXO, skips the other two (each would overshoot an upper
      bound equal to the target), and returns a one-UTXO selection one bitcoin
      short of the target, which `select_coins_bnb` reports as a solution. */
  lemma BnbBelowTarget()
    ensures SelectCoinsBnb(4 * ONE_BTC - 1, 0, BACKTRACK_POOL)
            == Return(Selected(BACKTRACK_POOL, Some([Utxo(2 * ONE_BTC + 1)])))
    ensures Total([Utxo(2 * ONE_BTC + 1)]) < 4 * ONE_BTC - 1
  {
    BacktrackSetup();
    assert Pick(BACKTRACK_POOL, [0]) == [BACKTRACK_POOL[0]];
    TotalCons(Utxo(2 * ONE_BTC + 1), []);
    assert [Utxo(2 * ONE_BTC + 1)] + [] == [Utxo(2 * ONE_BTC + 1)];
  }

  /** `select_coins` on the same pool, for every shuffle: the pass's
      one-UTXO selection is returned one bitcoin short of the target, while
      the corrected coordinator falls back to the random draw and reaches
      it. */
  lemma SelectCoinsBelowTarget(shuffled: seq<Utxo>)
    requires multiset(shuffled) == multiset(BACKTRACK_POOL)
    ensures SelectCoins(4 * ONE_BTC - 1, 0, BACKTRACK_POOL, shuffled)
            == Return(Selected(BACKTRACK_POOL, Some([Utxo(2 * ONE_BTC + 1)])))
    ensures var r := SelectCoinsChecked(4 * ONE_BTC - 1, 0, BACKTRACK_POOL, shuffled);
            r.Return? && r.value.coins.Some? && Total(r.value.coins.value) >= 4 * ONE_BTC - 1
  {
    BnbBelowTarget();
    BacktrackTotal();
    CoordinatorsAgree(4 * ONE_BTC - 1, 0, BACKTRACK_POOL, shuffled);
  }

  lemma BacktrackTotal()
    ensures Total(BACKTRACK_POOL) == 6 * ONE_BTC
  {
    var p := BACKTRACK_POOL;
    TotalCons(p[2], []);
    TotalCons(p[1], [p[2]]);
    TotalCons(p[0], [p[1], p[2]]);
    assert [p[2]] + [] == [p[2]];
    assert [p[1]] + [p[2]] == [p[1], p[2]];
    assert [p[0]] + [p[1], p[2]] == p;
  }

  /** The same pool with the corrected check: no solution is reported, so
      `select_coins` falls back to the random draw. */
  lemma BnbCheckedBacktrack()
    ensures SelectCoinsBnbChecked(4 * ONE_BTC - 1, 0, BACKTRACK_POOL) == Return(Selected(BACKTRACK_POOL, None))
  {
    BnbBelowTarget();
  }
}
