/** The unit test of src/branch_and_bound.rs and two small pools, stated
    over the model at a zero fee rate, where the effective value of a UTXO
    is its value and its waste is zero. */
module BranchAndBoundExamples {
  import opened Common
  import opened Sorting
  import opened BranchAndBound

  /** One cBTC in satoshi. */
  const ONE_CBTC := 1_000_000

  /** The effective value at a zero fee rate: the value itself. */
  function ValueAsEffective(feeRate: U64, u: WeightedUtxo): Option<I64>
  {
    if u.value <= I64_MAX then Some(u.value) else None
  }

  /** The waste at equal fee rates: none. */
  function NoWaste(feeRate: U64, longTermFeeRate: U64, u: WeightedUtxo): Option<I64>
  {
    Some(0)
  }

  const ZERO_FEE := Fees(ValueAsEffective, NoWaste, 0, 0)

  /** `create_weighted_utxos(Amount::ZERO)`: 1, 2, 3 and 4 cBTC of zero weight. */
  const TEST_POOL := [WeightedUtxo(ONE_CBTC, 0), WeightedUtxo(2 * ONE_CBTC, 0),
                      WeightedUtxo(3 * ONE_CBTC, 0), WeightedUtxo(4 * ONE_CBTC, 0)]

  /** Admitting a vector is admitting all but its last UTXO, then the last
      one if it is admitted. */
  lemma AdmitSnoc(pool: seq<WeightedUtxo>, f: Fees)
    requires |pool| > 0 && Admitted(f, pool[|pool| - 1])
    ensures var i := |pool| - 1;
            Admit(pool, f) == Admit(pool[..i], f)
                                + [Candidate(EffectiveValueOf(f, pool[i]).value, WasteOf(f, pool[i]).value, i)]
  {
  }

  /** The test pool in descending order of effective value. */
  const TEST_CANDIDATES := [Candidate(4 * ONE_CBTC, 0, 3), Candidate(3 * ONE_CBTC, 0, 2),
                            Candidate(2 * ONE_CBTC, 0, 1), Candidate(ONE_CBTC, 0, 0)]

  /** The entry the filters make for an admitted UTXO at position `i`. */
  predicate EntryOf(f: Fees, u: WeightedUtxo, i: nat, c: Candidate)
  {
    Admitted(f, u) && c == Candidate(EffectiveValueOf(f, u).value, WasteOf(f, u).value, i)
  }

  /** Admitting a prefix one UTXO longer appends that UTXO's entry. */
  lemma AdmitGrow(p: seq<WeightedUtxo>, f: Fees, k: nat, a: seq<Candidate>, c: Candidate)
    requires k < |p| && Admit(p[..k], f) == a && EntryOf(f, p[k], k, c)
    ensures Admit(p[..k + 1], f) == a + [c]
  {
    assert p[..k + 1][..k] == p[..k];
    AdmitSnoc(p[..k + 1], f);
  }

  /** The first admitted UTXO alone. */
  lemma AdmitOne(p: seq<WeightedUtxo>, f: Fees, w: Candidate)
    requires |p| >= 1 && EntryOf(f, p[0], 0, w)
    ensures Admit(p[..1], f) == [w]
  {
    assert p[..0] == [];
    AdmitGrow(p, f, 0, [], w);
  }

  /** The first two, both admitted. */
  lemma AdmitTwo(p: seq<WeightedUtxo>, f: Fees, w: Candidate, x: Candidate)
    requires |p| >= 2 && EntryOf(f, p[0], 0, w) && EntryOf(f, p[1], 1, x)
    ensures Admit(p[..2], f) == [w, x]
  {
    AdmitOne(p, f, w);
    AdmitGrow(p, f, 1, [w], x);
  }

  /** The first three, all admitted. */
  lemma AdmitThree(p: seq<WeightedUtxo>, f: Fees, w: Candidate, x: Candidate, y: Candidate)
    requires |p| >= 3 && EntryOf(f, p[0], 0, w) && EntryOf(f, p[1], 1, x) && EntryOf(f, p[2], 2, y)
    ensures Admit(p[..3], f) == [w, x, y]
  {
    AdmitTwo(p, f, w, x);
    AdmitGrow(p, f, 2, [w, x], y);
  }

  /** Four admitted UTXOs are all kept, in order. */
  lemma AdmitFour(p: seq<WeightedUtxo>, f: Fees, w: Candidate, x: Candidate, y: Candidate, z: Candidate)
    requires |p| == 4
    requires EntryOf(f, p[0], 0, w) && EntryOf(f, p[1], 1, x)
    requires EntryOf(f, p[2], 2, y) && EntryOf(f, p[3], 3, z)
    ensures Admit(p, f) == [w, x, y, z]
  {
    AdmitThree(p, f, w, x, y);
    AdmitGrow(p, f, 3, [w, x, y], z);
    assert p[..4] == p;
  }

  /** Reversing four candidates. */
  lemma ReverseFour(w: Candidate, x: Candidate, y: Candidate, z: Candidate)
    ensures Reverse([w, x, y, z]) == [z, y, x, w]
  {
    var r := Reverse([w, x, y, z]);
    assert r[0] == z && r[1] == y && r[2] == x && r[3] == w;
  }

  /** Four candidates in ascending order of value, sorted and reversed. */
  lemma SortReverseFour(w: Candidate, x: Candidate, y: Candidate, z: Candidate)
    requires w.value <= x.value <= y.value <= z.value
    ensures Reverse(SortAsc([w, x, y, z], CandidateValue)) == [z, y, x, w]
  {
    AscendingFour([w, x, y, z]);
    SortedReversed([w, x, y, z]);
    ReverseFour(w, x, y, z);
  }

  lemma AscendingFour(a: seq<Candidate>)
    requires |a| == 4 && a[0].value <= a[1].value <= a[2].value <= a[3].value
    ensures SortedBy(a, CandidateValue)
  {
  }

  lemma SortedReversed(a: seq<Candidate>)
    requires SortedBy(a, CandidateValue)
    ensures Reverse(SortAsc(a, CandidateValue)) == Reverse(a)
  {
    SortAscSorted(a, CandidateValue);
  }


  lemma TestPoolOrdered()
    ensures Ordered(TEST_POOL, ZERO_FEE) == TEST_CANDIDATES
  {
    var w, x, y, z := Candidate(ONE_CBTC, 0, 0), Candidate(2 * ONE_CBTC, 0, 1),
                      Candidate(3 * ONE_CBTC, 0, 2), Candidate(4 * ONE_CBTC, 0, 3);
    AdmitFour(TEST_POOL, ZERO_FEE, w, x, y, z);
    SortReverseFour(w, x, y, z);
  }

  /** A call whose loop, started from all the effective value, ends in `s`. */
  lemma RunDecides(target: U64, costOfChange: U64, f: Fees, pool: seq<WeightedUtxo>, s: Search)
    requires target + costOfChange <= U64_MAX
    requires target <= Amount(Ordered(pool, f)) <= U64_MAX
    requires Run(Setup(target, costOfChange, f, pool), Start(Amount(Ordered(pool, f)))) == Return(Some(s))
    ensures s.best.None? ==> SelectCoinsBnb(target, costOfChange, f, pool) == Panic
    ensures s.best.None? ==> SelectCoinsBnbOrNone(target, costOfChange, f, pool) == Return(None)
    ensures s.best.Some? && AllBelow(s.best.value, |Ordered(pool, f)|) ==>
              SelectCoinsBnb(target, costOfChange, f, pool)
                == Return(Some(Bnb(s.iteration, Origins(Pick(Ordered(pool, f), s.best.value), CandidateOrigin))))
  {
    OrderedFacts(pool, f);
  }

  /** The first four iterations on the test pool: include 4 cBTC, drop it,
      include 3 cBTC, drop it. */
  lemma OneFirstSteps(c: Context)
    requires c == Context(TEST_CANDIDATES, ONE_CBTC, ONE_CBTC, 0, 0)
    ensures Step(c, Start(10 * ONE_CBTC)) == Return(Next(Search(1, 1, 4 * ONE_CBTC, 6 * ONE_CBTC, 0, MAX_MONEY, [0], None)))
    ensures Step(c, Search(1, 1, 4 * ONE_CBTC, 6 * ONE_CBTC, 0, MAX_MONEY, [0], None))
              == Return(Next(Search(2, 1, 0, 6 * ONE_CBTC, 0, MAX_MONEY, [], None)))
    ensures Step(c, Search(2, 1, 0, 6 * ONE_CBTC, 0, MAX_MONEY, [], None))
              == Return(Next(Search(3, 2, 3 * ONE_CBTC, 3 * ONE_CBTC, 0, MAX_MONEY, [1], None)))
    ensures Step(c, Search(3, 2, 3 * ONE_CBTC, 3 * ONE_CBTC, 0, MAX_MONEY, [1], None))
              == Return(Next(Search(4, 2, 0, 3 * ONE_CBTC, 0, MAX_MONEY, [], None)))
  {
    assert [] + [0] == [0] && [] + [1] == [1];
    assert [0][..0] == [] && [1][..0] == [];
  }

  /** The next three: include 2 cBTC, drop it, include 1 cBTC. */
  lemma OneMiddleSteps(c: Context)
    requires c == Context(TEST_CANDIDATES, ONE_CBTC, ONE_CBTC, 0, 0)
    ensures Step(c, Search(4, 2, 0, 3 * ONE_CBTC, 0, MAX_MONEY, [], None))
              == Return(Next(Search(5, 3, 2 * ONE_CBTC, ONE_CBTC, 0, MAX_MONEY, [2], None)))
    ensures Step(c, Search(5, 3, 2 * ONE_CBTC, ONE_CBTC, 0, MAX_MONEY, [2], None))
              == Return(Next(Search(6, 3, 0, ONE_CBTC, 0, MAX_MONEY, [], None)))
    ensures Step(c, Search(6, 3, 0, ONE_CBTC, 0, MAX_MONEY, [], None))
              == Return(Next(Search(7, 4, ONE_CBTC, 0, 0, MAX_MONEY, [3], None)))
  {
    assert [] + [2] == [2] && [] + [3] == [3];
    assert [2][..0] == [];
  }

  /** The last two: record 1 cBTC with no waste and drop it, then return. */
  lemma OneLastSteps(c: Context)
    requires c == Context(TEST_CANDIDATES, ONE_CBTC, ONE_CBTC, 0, 0)
    ensures Step(c, Search(7, 4, ONE_CBTC, 0, 0, MAX_MONEY, [3], None))
              == Return(Next(Search(8, 4, 0, 0, 0, 0, [], Some([3]))))
    ensures Step(c, Search(8, 4, 0, 0, 0, 0, [], Some([3]))) == Return(Stop(Search(8, 4, 0, 0, 0, 0, [], Some([3]))))
  {
    assert [3][..0] == [];
  }

  /** A step that moves on leaves the rest of the loop to the next state. */
  lemma RunNext(c: Context, s: Search, s': Search)
    requires s.iteration < ITERATION_LIMIT && Step(c, s) == Return(Next(s'))
    ensures s'.iteration <= ITERATION_LIMIT && Run(c, s) == Run(c, s')
  {
  }

  /** The loop on the test pool, started from its 10 cBTC, ends after 8
      iterations having recorded the 1 cBTC candidate. */
  lemma OneRun(c: Context)
    requires c == Context(TEST_CANDIDATES, ONE_CBTC, ONE_CBTC, 0, 0)
    ensures Run(c, Start(10 * ONE_CBTC)) == Return(Some(Search(8, 4, 0, 0, 0, 0, [], Some([3]))))
  {
    OneFirstSteps(c);
    OneMiddleSteps(c);
    OneLastSteps(c);
    var M := MAX_MONEY;
    RunNext(c, Start(10 * ONE_CBTC), Search(1, 1, 4 * ONE_CBTC, 6 * ONE_CBTC, 0, M, [0], None));
    RunNext(c, Search(1, 1, 4 * ONE_CBTC, 6 * ONE_CBTC, 0, M, [0], None), Search(2, 1, 0, 6 * ONE_CBTC, 0, M, [], None));
    RunNext(c, Search(2, 1, 0, 6 * ONE_CBTC, 0, M, [], None), Search(3, 2, 3 * ONE_CBTC, 3 * ONE_CBTC, 0, M, [1], None));
    RunNext(c, Search(3, 2, 3 * ONE_CBTC, 3 * ONE_CBTC, 0, M, [1], None), Search(4, 2, 0, 3 * ONE_CBTC, 0, M, [], None));
    RunNext(c, Search(4, 2, 0, 3 * ONE_CBTC, 0, M, [], None), Search(5, 3, 2 * ONE_CBTC, ONE_CBTC, 0, M, [2], None));
    RunNext(c, Search(5, 3, 2 * ONE_CBTC, ONE_CBTC, 0, M, [2], None), Search(6, 3, 0, ONE_CBTC, 0, M, [], None));
    RunNext(c, Search(6, 3, 0, ONE_CBTC, 0, M, [], None), Search(7, 4, ONE_CBTC, 0, 0, M, [3], None));
    RunNext(c, Search(7, 4, ONE_CBTC, 0, 0, M, [3], None), Search(8, 4, 0, 0, 0, 0, [], Some([3])));
  }

  /** The sum of four candidates' values. */
  lemma AmountFour(w: Candidate, x: Candidate, y: Candidate, z: Candidate)
    ensures Amount([w, x, y, z]) == w.value + x.value + y.value + z.value
  {
    var cs := [w, x, y, z];
    assert cs[1..] == [x, y, z] && cs[1..][1..] == [y, z] && cs[1..][1..][1..] == [z];
    assert [z][1..] == [];
    assert SumOf([z], CandidateValue) == z.value;
    assert SumOf([y, z], CandidateValue) == y.value + z.value;
    assert SumOf([x, y, z], CandidateValue) == x.value + y.value + z.value;
  }

  /** The test pool holds 10 cBTC. */
  lemma TestAmount()
    ensures Amount(TEST_CANDIDATES) == 10 * ONE_CBTC
  {
    var cs := TEST_CANDIDATES;
    AmountFour(cs[0], cs[1], cs[2], cs[3]);
    assert cs == [cs[0], cs[1], cs[2], cs[3]];
  }

  /** A pool whose ordered candidates are `cs` and whose loop records `b`
      selects the origins of `b`. */
  lemma DecidedAt(target: U64, costOfChange: U64, f: Fees, pool: seq<WeightedUtxo>,
                  cs: seq<Candidate>, s: Search, b: seq<nat>, sel: seq<nat>)
    requires Ordered(pool, f) == cs && target + costOfChange <= U64_MAX
    requires target <= Amount(cs) <= U64_MAX
    requires Run(Context(cs, target, target + costOfChange, f.feeRate, f.longTermFeeRate), Start(Amount(cs)))
               == Return(Some(s))
    requires s.best == Some(b) && AllBelow(b, |cs|) && Origins(Pick(cs, b), CandidateOrigin) == sel
    ensures SelectCoinsBnb(target, costOfChange, f, pool) == Return(Some(Bnb(s.iteration, sel)))
  {
    RunDecides(target, costOfChange, f, pool, s);
  }

  /** Any pool ordered as the test pool, at equal fee rates, selects its
      1 cBTC UTXO for a 1 cBTC target. */
  lemma OneDecided(pool: seq<WeightedUtxo>, f: Fees)
    requires Ordered(pool, f) == TEST_CANDIDATES && f.feeRate == 0 && f.longTermFeeRate == 0
    ensures SelectCoinsBnb(ONE_CBTC, 0, f, pool) == Return(Some(Bnb(8, [0])))
  {
    var cs := Ordered(pool, f);
    TestAmount();
    OneRun(Setup(ONE_CBTC, 0, f, pool));
    OneOrigin();
    DecidedAt(ONE_CBTC, 0, f, pool, cs, Search(8, 4, 0, 0, 0, 0, [], Some([3])), [3], [0]);
  }

  /** The last candidate of the test pool is its first UTXO. */
  lemma OneOrigin()
    ensures AllBelow([3], |TEST_CANDIDATES|) && Origins(Pick(TEST_CANDIDATES, [3]), CandidateOrigin) == [0]
  {
    var cs := TEST_CANDIDATES;
    assert Pick(cs, [3]) == [cs[3]];
    assert [cs[3]][1..] == [];
  }

  /** `select_coins_bnb_one`: a 1 cBTC target over 1, 2, 3 and 4 cBTC with
      no cost of change writes back exactly one UTXO, the 1 cBTC one, after
      8 iterations. */
  lemma SelectCoinsBnbOne()
    ensures SelectCoinsBnb(ONE_CBTC, 0, ZERO_FEE, TEST_POOL) == Return(Some(Bnb(8, [0])))
    ensures Written(TEST_POOL, Some(Bnb(8, [0]))) == [TEST_POOL[0]]
  {
    TestPoolOrdered();
    OneDecided(TEST_POOL, ZERO_FEE);
  }

  /** The loop over the lone 3 sat candidate for a 2 sat target: including
      it overshoots the upper bound, so it is dropped and the loop stops with
      nothing recorded. */
  lemma LoneSteps(c: Context)
    requires c == Context([Candidate(3, 0, 0)], 2, 2, 0, 0)
    ensures Step(c, Start(3)) == Return(Next(Search(1, 1, 3, 0, 0, MAX_MONEY, [0], None)))
    ensures Step(c, Search(1, 1, 3, 0, 0, MAX_MONEY, [0], None))
              == Return(Next(Search(2, 1, 0, 0, 0, MAX_MONEY, [], None)))
    ensures Step(c, Search(2, 1, 0, 0, 0, MAX_MONEY, [], None))
              == Return(Stop(Search(2, 1, 0, 0, 0, MAX_MONEY, [], None)))
  {
    LoneInclude(c);
    LoneDrop(c);
  }

  lemma LoneInclude(c: Context)
    requires c == Context([Candidate(3, 0, 0)], 2, 2, 0, 0)
    ensures Step(c, Start(3)) == Return(Next(Search(1, 1, 3, 0, 0, MAX_MONEY, [0], None)))
  {
    assert [] + [0] == [0];
  }

  lemma LoneDrop(c: Context)
    requires c == Context([Candidate(3, 0, 0)], 2, 2, 0, 0)
    ensures Step(c, Search(1, 1, 3, 0, 0, MAX_MONEY, [0], None))
              == Return(Next(Search(2, 1, 0, 0, 0, MAX_MONEY, [], None)))
  {
    assert [0][..0] == [];
    assert c.cands[1..1] == [];
  }

  lemma LoneRun(c: Context)
    requires c == Context([Candidate(3, 0, 0)], 2, 2, 0, 0)
    ensures Run(c, Start(3)) == Return(Some(Search(2, 1, 0, 0, 0, MAX_MONEY, [], None)))
  {
    LoneSteps(c);
    RunNext(c, Start(3), Search(1, 1, 3, 0, 0, MAX_MONEY, [0], None));
    RunNext(c, Search(1, 1, 3, 0, 0, MAX_MONEY, [0], None), Search(2, 1, 0, 0, 0, MAX_MONEY, [], None));
  }

  /** The value of a single candidate. */
  lemma AmountOne(w: Candidate)
    ensures Amount([w]) == w.value
  {
    assert [w][1..] == [];
    assert SumOf([w], CandidateValue) == CandidateValue(w) + SumOf([], CandidateValue);
  }

  /** Any pool whose only candidate is worth 3 sat, at equal fee rates,
      makes the function as written panic for a 2 sat target. */
  lemma LoneDecided(pool: seq<WeightedUtxo>, f: Fees)
    requires Ordered(pool, f) == [Candidate(3, 0, 0)] && f.feeRate == 0 && f.longTermFeeRate == 0
    ensures SelectCoinsBnb(2, 0, f, pool) == Panic
    ensures SelectCoinsBnbOrNone(2, 0, f, pool) == Return(None)
  {
    AmountOne(Candidate(3, 0, 0));
    LoneRun(Setup(2, 0, f, pool));
    RunDecides(2, 0, f, pool, Search(2, 1, 0, 0, 0, MAX_MONEY, [], None));
  }

  /** A single UTXO of 3 sat. */
  const LONE_POOL := [WeightedUtxo(3, 0)]

  /** A target of 2 sat with no cost of change over a single 3 sat UTXO:
      the only selection overshoots, nothing is recorded, and
      `best_selection.unwrap()` panics, where the corrected function returns
      `None`. */
  lemma NothingRecordedPanics()
    ensures SelectCoinsBnb(2, 0, ZERO_FEE, LONE_POOL) == Panic
    ensures SelectCoinsBnbOrNone(2, 0, ZERO_FEE, LONE_POOL) == Return(None)
  {
    LoneOrdered(LONE_POOL, ZERO_FEE);
    LoneDecided(LONE_POOL, ZERO_FEE);
  }

  /** A zero target over the same UTXO: the empty selection is recorded in
      the first iteration, so the function returns `Some(0)` and empties the
      vector, where its documentation promises a non-empty vector on a
      match; the corrected function returns `None`. */
  lemma ZeroTargetLone()
    ensures SelectCoinsBnb(0, 0, ZERO_FEE, LONE_POOL) == Return(Some(Bnb(0, [])))
    ensures SelectCoinsBnbOrNone(0, 0, ZERO_FEE, LONE_POOL) == Return(None)
  {
    var p := LONE_POOL;
    var w := Candidate(3, 0, 0);
    AdmitOne(p, ZERO_FEE, w);
    assert p[..1] == p;
    assert [w][1..] == [];
    assert SumOf([w], CandidateValue) == 3;
    ZeroTargetEmptyMatch(0, ZERO_FEE, p);
  }

  /** A single admitted UTXO is the only candidate. */
  lemma LoneOrdered(p: seq<WeightedUtxo>, f: Fees)
    requires |p| == 1 && Admitted(f, p[0])
    ensures Ordered(p, f) == [Candidate(EffectiveValueOf(f, p[0]).value, WasteOf(f, p[0]).value, 0)]
  {
    assert p[..0] == [];
    LoneSorted(Admit(p, f));
  }

  lemma LoneSorted(a: seq<Candidate>)
    requires |a| == 1
    ensures Reverse(SortAsc(a, CandidateValue)) == a
  {
    SortAscSorted(a, CandidateValue);
  }
}
