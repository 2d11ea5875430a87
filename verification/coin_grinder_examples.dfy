/** The unit tests of src/coin_grinder.rs that need no fee arithmetic,
    stated over the model at a zero fee rate, where the effective value of a
    UTXO is its value. */
module CoinGrinderExamples {
  import opened Common
  import opened Sorting
  import opened CoinGrinder

  /** One BTC in satoshi. */
  const ONE_BTC := 100_000_000

  /** The effective value at a zero fee rate: the value itself. */
  function ValueAsEffective(feeRate: U64, u: WeightedUtxo): Option<I64>
  {
    if u.value <= I64_MAX then Some(u.value) else None
  }

  /** `c` is the entry `calc_effective_values` makes for the UTXO `u` at
      position `i`, whose effective value is defined and positive. */
  predicate EntryOf(ev: EffectiveValue, feeRate: U64, u: WeightedUtxo, i: nat, c: Candidate)
  {
    Positive(ev, feeRate, u) && c == Candidate(ev(feeRate, u).value, u.weight, i)
  }

  /** Filtering a prefix one UTXO longer appends that UTXO's entry. */
  lemma EffectiveGrow(p: seq<WeightedUtxo>, ev: EffectiveValue, feeRate: U64, k: nat,
                      a: seq<Candidate>, c: Candidate)
    requires k < |p| && CalcEffectiveValues(p[..k], ev, feeRate) == a && EntryOf(ev, feeRate, p[k], k, c)
    ensures CalcEffectiveValues(p[..k + 1], ev, feeRate) == a + [c]
  {
    assert p[..k + 1][..k] == p[..k];
  }

  /** The first two UTXOs, both kept. */
  lemma EffectiveTwo(p: seq<WeightedUtxo>, ev: EffectiveValue, feeRate: U64, w: Candidate, x: Candidate)
    requires |p| >= 2 && EntryOf(ev, feeRate, p[0], 0, w) && EntryOf(ev, feeRate, p[1], 1, x)
    ensures CalcEffectiveValues(p[..2], ev, feeRate) == [w, x]
  {
    assert p[..0] == [];
    EffectiveGrow(p, ev, feeRate, 0, [], w);
    EffectiveGrow(p, ev, feeRate, 1, [w], x);
  }

  /** The first three UTXOs, all kept. */
  lemma EffectiveThree(p: seq<WeightedUtxo>, ev: EffectiveValue, feeRate: U64,
                       w: Candidate, x: Candidate, y: Candidate)
    requires |p| >= 3 && EntryOf(ev, feeRate, p[0], 0, w) && EntryOf(ev, feeRate, p[1], 1, x)
    requires EntryOf(ev, feeRate, p[2], 2, y)
    ensures CalcEffectiveValues(p[..3], ev, feeRate) == [w, x, y]
  {
    EffectiveTwo(p, ev, feeRate, w, x);
    EffectiveGrow(p, ev, feeRate, 2, [w, x], y);
  }

  /** Four UTXOs, all kept, in slice order. */
  lemma EffectiveFour(p: seq<WeightedUtxo>, ev: EffectiveValue, feeRate: U64,
                      w: Candidate, x: Candidate, y: Candidate, z: Candidate)
    requires |p| == 4 && EntryOf(ev, feeRate, p[0], 0, w) && EntryOf(ev, feeRate, p[1], 1, x)
    requires EntryOf(ev, feeRate, p[2], 2, y) && EntryOf(ev, feeRate, p[3], 3, z)
    ensures CalcEffectiveValues(p, ev, feeRate) == [w, x, y, z]
  {
    EffectiveThree(p, ev, feeRate, w, x, y);
    EffectiveGrow(p, ev, feeRate, 3, [w, x, y], z);
    assert p[..4] == p;
  }

  /** The pool of the `lookahead` and `example_solution` tests. */
  const EXAMPLE_POOL := [WeightedUtxo(10, 8), WeightedUtxo(7, 4), WeightedUtxo(5, 4), WeightedUtxo(4, 8)]

  /** Its entries: every UTXO, already in descending order of value. */
  const EXAMPLE_CANDIDATES := [Candidate(10, 8, 0), Candidate(7, 4, 1), Candidate(5, 4, 2), Candidate(4, 8, 3)]

  lemma ExampleCandidates()
    ensures CalcEffectiveValues(EXAMPLE_POOL, ValueAsEffective, 0) == EXAMPLE_CANDIDATES
  {
    var cs := EXAMPLE_CANDIDATES;
    EffectiveFour(EXAMPLE_POOL, ValueAsEffective, 0, cs[0], cs[1], cs[2], cs[3]);
  }

  /** Candidates worth 10, 7, 5 and 4 sat leave 16, 9, 4 and 0 sat of a
      26 sat total after each of them. */
  lemma LookaheadOfValues(cs: seq<Candidate>)
    requires |cs| == 4 && cs[0].value == 10 && cs[1].value == 7 && cs[2].value == 5 && cs[3].value == 4
    ensures Amount(cs) == 26 && BuildLookahead(cs, 26) == [16, 9, 4, 0]
  {
    var c1 := cs[1..];
    var c2 := c1[1..];
    var c3 := c2[1..];
    assert c3[1..] == [];
    assert SumOf(c3[1..], CandidateValue) == 0;
    assert Amount(c3) == 4;
    assert Amount(c2) == 9;
    assert Amount(c1) == 16;
    assert BuildLookahead(c3, 4) == [0];
    assert BuildLookahead(c2, 9) == [4] + [0];
    assert BuildLookahead(c1, 16) == [9] + [4, 0];
  }

  /** `lookahead`: the table over 10, 7, 5 and 4 sat with 26 sat available. */
  lemma Lookahead()
    ensures var cs := CalcEffectiveValues(EXAMPLE_POOL, ValueAsEffective, 0);
            Amount(cs) == 26 && BuildLookahead(cs, 26) == [16, 9, 4, 0]
  {
    ExampleCandidates();
    LookaheadOfValues(EXAMPLE_CANDIDATES);
  }

  /** Over three candidates whose last two weigh 40 and 44 wu, the contract
      of `build_min_tail_weight` alone fixes the table. */
  lemma MinTailOfThree(cs: seq<Candidate>)
    requires |cs| == 3 && cs[1].weight == 40 && cs[2].weight == 44
    ensures BuildMinTailWeight(cs) == [40, 44, WEIGHT_MAX]
  {
    var r := BuildMinTailWeight(cs);
    assert r[0] <= cs[1].weight && r[0] <= cs[2].weight;
    assert r[1] <= cs[2].weight;
  }

  /** The pool of the `min_tail_weight` test. */
  const TAIL_POOL := [WeightedUtxo(29, 36), WeightedUtxo(19, 40), WeightedUtxo(11, 44)]

  /** `min_tail_weight`: weights 36, 40 and 44 wu give the tail minima 40,
      44 and `Weight::MAX`. */
  lemma MinTailWeight()
    ensures BuildMinTailWeight(CalcEffectiveValues(TAIL_POOL, ValueAsEffective, 0)) == [40, 44, WEIGHT_MAX]
  {
    var p := TAIL_POOL;
    EffectiveThree(p, ValueAsEffective, 0, Candidate(29, 36, 0), Candidate(19, 40, 1), Candidate(11, 44, 2));
    assert p[..3] == p;
    MinTailOfThree(CalcEffectiveValues(p, ValueAsEffective, 0));
  }

  /** Over four candidates weighing 8, 4, 4 and 8 wu, the contract of
      `build_min_tail_weight` alone fixes the table. */
  lemma MinTailOfFour(cs: seq<Candidate>)
    requires |cs| == 4 && cs[1].weight == 4 && cs[2].weight == 4 && cs[3].weight == 8
    ensures BuildMinTailWeight(cs) == [4, 4, 8, WEIGHT_MAX]
  {
    var r := BuildMinTailWeight(cs);
    assert r[0] <= cs[1].weight && r[1] <= cs[2].weight && r[2] <= cs[3].weight;
  }

  /** The tables of `example_solution`: 26 sat available, a total target
      of 11 sat. */
  const EXAMPLE_TABLE := Table(EXAMPLE_CANDIDATES, [16, 9, 4, 0], [4, 4, 8, WEIGHT_MAX], 11)

  lemma ExampleSetup()
    ensures Amount(EXAMPLE_CANDIDATES) == 26 && Setup(EXAMPLE_CANDIDATES, 26, 11) == EXAMPLE_TABLE
  {
    LookaheadOfValues(EXAMPLE_CANDIDATES);
    MinTailOfFour(EXAMPLE_CANDIDATES);
  }

  /** The loop-head states of `example_solution` with a 100 wu maximum
      weight, and the state it returns in. The first best selection is 10
      and 7 sat, then 10 and 5 sat (as heavy, less value), then 7 and 5 sat
      (lighter). */
  const TRACE := [
    Search([], 0, 0, [], U64_MAX, 100, 0, 0),
    Search([0], 10, 8, [], U64_MAX, 100, 1, 1),
    Search([0], 10, 8, [0, 1], 17, 12, 2, 2),
    Search([0], 10, 8, [0, 2], 15, 12, 3, 3),
    Search([], 0, 0, [0, 2], 15, 12, 1, 4),
    Search([1], 7, 4, [0, 2], 15, 12, 2, 5),
    Search([1], 7, 4, [1, 2], 12, 8, 3, 6),
    Search([], 0, 0, [1, 2], 12, 8, 2, 7),
    Search([], 0, 0, [1, 2], 12, 8, 3, 8)
  ]

  /** Include 10 sat: short of the target, carry on. */
  lemma ExampleStep0(t: Table)
    requires t == EXAMPLE_TABLE
    ensures Step(t, TRACE[0]) == Return(Next(TRACE[1]))
  {
    assert [] + [0] == [0];
  }

  /** Include 7 sat: the target is reached, record and shift. */
  lemma ExampleStep1(t: Table)
    requires t == EXAMPLE_TABLE
    ensures Step(t, TRACE[1]) == Return(Next(TRACE[2]))
  {
    var s1 := Include(t, TRACE[1]);
    assert [0] + [1] == [0, 1];
    assert s1 == Search([0, 1], 17, 12, [], U64_MAX, 100, 2, 2);
    assert Assess(t, 1, s1, 100, U64_MAX) == Verdict(false, true, true);
    var s2 := Record(s1, true);
    assert s2 == Search([0, 1], 17, 12, [0, 1], 17, 12, 2, 2);
    assert [0, 1][..1] == [0];
    assert Backtrack(t, s2, false, true) == Next(TRACE[2]);
  }

  /** Include 5 sat instead: as heavy with less value, record and shift. */
  lemma ExampleStep2(t: Table)
    requires t == EXAMPLE_TABLE
    ensures Step(t, TRACE[2]) == Return(Next(TRACE[3]))
  {
    assert [0] + [2] == [0, 2] && [0, 2][..1] == [0];
  }

  /** Include 4 sat: too heavy at a leaf, cut and shift off 10 sat. */
  lemma ExampleStep3(t: Table)
    requires t == EXAMPLE_TABLE
    ensures Step(t, TRACE[3]) == Return(Next(TRACE[4]))
  {
    assert [0] + [3] == [0, 3] && [0, 3][..1] == [0] && [0][..0] == [];
  }

  /** Include 7 sat: short of the target, carry on. */
  lemma ExampleStep4(t: Table)
    requires t == EXAMPLE_TABLE
    ensures Step(t, TRACE[4]) == Return(Next(TRACE[5]))
  {
    assert [] + [1] == [1];
  }

  /** Include 5 sat: lighter, record and shift. */
  lemma ExampleStep5(t: Table)
    requires t == EXAMPLE_TABLE
    ensures Step(t, TRACE[5]) == Return(Next(TRACE[6]))
  {
    assert [1] + [2] == [1, 2] && [1, 2][..1] == [1];
  }

  /** Include 4 sat: too heavy at a leaf, cut and shift off 7 sat. */
  lemma ExampleStep6(t: Table)
    requires t == EXAMPLE_TABLE
    ensures Step(t, TRACE[6]) == Return(Next(TRACE[7]))
  {
    assert [1] + [3] == [1, 3] && [1, 3][..1] == [1] && [1][..0] == [];
  }

  /** Include 5 sat: the lookahead cannot reach the target, cut with
      nothing left to shift, and return. */
  lemma ExampleStep7(t: Table)
    requires t == EXAMPLE_TABLE
    ensures Step(t, TRACE[7]) == Return(Done(TRACE[8]))
  {
    assert [] + [2] == [2] && [2][..0] == [];
  }

  /** A pass that goes round again leaves the rest of the loop to the next
      state. */
  lemma RunNext(t: Table, s: Search, s': Search)
    requires WellFormed(t, s) && Step(t, s) == Return(Next(s'))
    ensures WellFormed(t, s') && Run(t, s) == Run(t, s')
  {
  }

  /** The loop of `example_solution` returns after 8 iterations with 7 and
      5 sat as its best selection. */
  lemma ExampleRun(t: Table)
    requires t == EXAMPLE_TABLE
    ensures Run(t, Start(100)) == Return(TRACE[8])
  {
    ExampleStep0(t);
    ExampleStep1(t);
    ExampleStep2(t);
    ExampleStep3(t);
    ExampleStep4(t);
    ExampleStep5(t);
    ExampleStep6(t);
    ExampleStep7(t);
    RunNext(t, TRACE[0], TRACE[1]);
    RunNext(t, TRACE[1], TRACE[2]);
    RunNext(t, TRACE[2], TRACE[3]);
    RunNext(t, TRACE[3], TRACE[4]);
    RunNext(t, TRACE[4], TRACE[5]);
    RunNext(t, TRACE[5], TRACE[6]);
    RunNext(t, TRACE[6], TRACE[7]);
  }

  /** The example candidates sort to themselves. */
  lemma ExampleSorted()
    ensures SortAsc(EXAMPLE_CANDIDATES, GrinderKey) == EXAMPLE_CANDIDATES
  {
    var cs := EXAMPLE_CANDIDATES;
    assert GrinderKey(cs[0]) <= GrinderKey(cs[1]) <= GrinderKey(cs[2]) <= GrinderKey(cs[3]);
    SortAscSorted(cs, GrinderKey);
  }

  /** The example candidates hold 26 sat: the last lookahead entry is the
      total less everything. */
  lemma ExampleAmount()
    ensures Amount(EXAMPLE_CANDIDATES) == 26
  {
    var cs := EXAMPLE_CANDIDATES;
    LookaheadOfValues(cs);
  }

  /** Positions 1 and 2 of the example candidates are pool positions 1 and 2. */
  lemma ExamplePicked()
    ensures IndexToUtxoList(8, [1, 2], EXAMPLE_CANDIDATES) == Some(Grind(8, [1, 2]))
  {
    var r := IndexToUtxoList(8, [1, 2], EXAMPLE_CANDIDATES);
    assert r.value.selected == [1, 2];
  }

  /** The pool of the `insufficient_funds` test: 1 and 2 BTC of zero weight. */
  const SHORT_POOL := [WeightedUtxo(ONE_BTC, 0), WeightedUtxo(2 * ONE_BTC, 0)]

  /** Two candidates hold the sum of their values. */
  lemma AmountTwo(w: Candidate, x: Candidate)
    ensures Amount([w, x]) == w.value + x.value
  {
    assert [w, x][1..] == [x] && [x][1..] == [];
    assert SumOf([x], CandidateValue) == x.value;
  }

  /** `insufficient_funds`: 3 BTC cannot pay a 49.5 BTC target plus a
      1 000 000 sat change target, so there is no selection. */
  lemma InsufficientFunds()
    ensures SelectCoins(4_950_000_000, 1_000_000, 10_000, 0, SHORT_POOL, ValueAsEffective) == Return(None)
  {
    var p := SHORT_POOL;
    var w, x := Candidate(ONE_BTC, 0, 0), Candidate(2 * ONE_BTC, 0, 1);
    EffectiveTwo(p, ValueAsEffective, 0, w, x);
    assert p[..2] == p;
    AmountTwo(w, x);
  }

  /** A lone UTXO whose value counts as its effective value becomes a lone
      candidate with the same value and weight. */
  lemma LoneCandidate(u: WeightedUtxo)
    requires 0 < u.value <= I64_MAX
    ensures var cs := CalcEffectiveValues([u], ValueAsEffective, 0);
            && cs == [Candidate(u.value, u.weight, 0)]
            && Amount(cs) == u.value && WeightOf(cs) == u.weight
  {
    var p := [u];
    var c := Candidate(u.value, u.weight, 0);
    assert p[..0] == [];
    EffectiveGrow(p, ValueAsEffective, 0, 0, [], c);
    assert p[..1] == p;
    assert [c][1..] == [];
    assert SumOf([c], CandidateValue) == CandidateValue(c) + SumOf([c][1..], CandidateValue);
    assert SumOf([c], CandidateWeight) == CandidateWeight(c) + SumOf([c][1..], CandidateWeight);
  }

  /** A zero target, no change target, one UTXO of 10 sat and 8 wu and a
      100 wu maximum weight: `select_coins` returns a selection, although
      its documentation lists a zero target among the `None` cases; the
      corrected function returns `None`. */
  lemma ZeroTargetExample()
    ensures var r := SelectCoins(0, 0, 100, 0, [WeightedUtxo(10, 8)], ValueAsEffective);
            r.Return? && r.value.Some?
    ensures SelectCoinsNonZero(0, 0, 100, 0, [WeightedUtxo(10, 8)], ValueAsEffective) == Return(None)
  {
    var p := [WeightedUtxo(10, 8)];
    LoneCandidate(p[0]);
    ZeroTargetSelects(100, 0, p, ValueAsEffective);
  }
}
