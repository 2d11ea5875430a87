/** Branch and Bound with waste (src/branch_and_bound.rs): a depth-first
    include/exclude search over the UTXOs with defined effective value and
    waste and positive effective value, sorted by descending effective value,
    for a selection whose effective value lies in
    `[target, target + cost_of_change]`, keeping the last one found with the
    least waste, within an iteration budget. UTXOs are referred to by their
    position in the caller's vector (their origin). */
module BranchAndBound {
  import opened Common
  import opened Sorting

  /** A UTXO as the selector sees it: its value and its satisfaction weight. */
  datatype WeightedUtxo = WeightedUtxo(value: U64, weight: U64)

  /** The fee context of one call: rust-bitcoin's `effective_value(fee_rate)`
      and `waste(fee_rate, long_term_fee_rate)` of a UTXO, each `None` when
      its computation fails (no formula is assumed), and the two fee rates,
      which the search compares. */
  datatype Fees = Fees(
    effectiveValue: (U64, WeightedUtxo) -> Option<I64>,
    waste: (U64, U64, WeightedUtxo) -> Option<I64>,
    feeRate: U64,
    longTermFeeRate: U64)

  /** `ITERATION_LIMIT`. */
  const ITERATION_LIMIT: nat := 100_000

  /** An entry of `w_utxos`: a positive effective value, a waste, and the
      UTXO's position in the caller's vector. */
  datatype Candidate = Candidate(value: U64, waste: I64, origin: nat)

  function CandidateValue(c: Candidate): int { c.value }
  function CandidateWaste(c: Candidate): int { c.waste }
  function CandidateOrigin(c: Candidate): nat { c.origin }

  function EffectiveValueOf(f: Fees, u: WeightedUtxo): Option<I64>
  {
    f.effectiveValue(f.feeRate, u)
  }

  function WasteOf(f: Fees, u: WeightedUtxo): Option<I64>
  {
    f.waste(f.feeRate, f.longTermFeeRate, u)
  }

  /** `u` survives the filters that build `w_utxos`: its effective value and
      its waste are defined and its effective value is strictly positive. */
  predicate Admitted(f: Fees, u: WeightedUtxo)
  {
    EffectiveValueOf(f, u).Some? && WasteOf(f, u).Some? && EffectiveValueOf(f, u).value > 0
  }

  /** `c` is the entry the filters make for the UTXO it points at. */
  predicate Describes(pool: seq<WeightedUtxo>, f: Fees, c: Candidate)
  {
    && c.origin < |pool|
    && Admitted(f, pool[c.origin])
    && c.value == EffectiveValueOf(f, pool[c.origin]).value
    && c.waste == WasteOf(f, pool[c.origin]).value
  }

  /** The map-filter-map-filter-map chain of `select_coins_bnb`: the admitted
      UTXOs, each with its effective value (made unsigned) and its waste, in
      vector order. */
  function Admit(pool: seq<WeightedUtxo>, f: Fees): (r: seq<Candidate>)
    ensures forall k :: 0 <= k < |r| ==> Describes(pool, f, r[k])
    ensures StrictlyIncreasing(Origins(r, CandidateOrigin))
    ensures forall i :: 0 <= i < |pool| && Admitted(f, pool[i]) ==> i in Origins(r, CandidateOrigin)
  {
    if pool == [] then []
    else
      var i := |pool| - 1;
      var front := Admit(pool[..i], f);
      AdmitPrefix(pool, f, front);
      if Admitted(f, pool[i]) then
        var c := Candidate(EffectiveValueOf(f, pool[i]).value, WasteOf(f, pool[i]).value, i);
        AdmitAppend(pool, f, front, c);
        front + [c]
      else
        front
  }

  /** What the filters keep from all but the last UTXO describes UTXOs of
      the whole vector, all before the last one. */
  lemma AdmitPrefix(pool: seq<WeightedUtxo>, f: Fees, front: seq<Candidate>)
    requires |pool| > 0
    requires forall k :: 0 <= k < |front| ==> Describes(pool[..|pool| - 1], f, front[k])
    requires forall i :: 0 <= i < |pool| - 1 && Admitted(f, pool[..|pool| - 1][i]) ==> i in Origins(front, CandidateOrigin)
    ensures forall k :: 0 <= k < |front| ==> Describes(pool, f, front[k]) && front[k].origin < |pool| - 1
    ensures forall i :: 0 <= i < |pool| - 1 && Admitted(f, pool[i]) ==> i in Origins(front, CandidateOrigin)
  {
    var n := |pool| - 1;
    forall k | 0 <= k < |front|
      ensures Describes(pool, f, front[k]) && front[k].origin < n
    {
      assert Describes(pool[..n], f, front[k]);
      assert pool[..n][front[k].origin] == pool[front[k].origin];
    }
    forall i | 0 <= i < n && Admitted(f, pool[i])
      ensures i in Origins(front, CandidateOrigin)
    {
      assert pool[..n][i] == pool[i];
    }
  }

  /** Appending the entry of the last UTXO keeps the entries describing the
      pool, in increasing origin order, and covers the last UTXO. */
  lemma AdmitAppend(pool: seq<WeightedUtxo>, f: Fees, front: seq<Candidate>, c: Candidate)
    requires |pool| > 0 && c.origin == |pool| - 1 && Describes(pool, f, c)
    requires forall k :: 0 <= k < |front| ==> Describes(pool, f, front[k]) && front[k].origin < |pool| - 1
    requires StrictlyIncreasing(Origins(front, CandidateOrigin))
    requires forall i :: 0 <= i < |pool| - 1 && Admitted(f, pool[i]) ==> i in Origins(front, CandidateOrigin)
    ensures forall k :: 0 <= k < |front + [c]| ==> Describes(pool, f, (front + [c])[k])
    ensures StrictlyIncreasing(Origins(front + [c], CandidateOrigin))
    ensures forall j :: 0 <= j < |pool| && Admitted(f, pool[j]) ==> j in Origins(front + [c], CandidateOrigin)
  {
    OriginsSnoc(front, c, CandidateOrigin);
    StrictlyIncreasingSnoc(Origins(front, CandidateOrigin), c.origin);
  }

  /** `w_utxos` after `sort_by_key` on the effective value (stable,
      ascending) and `reverse`. */
  function Ordered(pool: seq<WeightedUtxo>, f: Fees): seq<Candidate>
  {
    Reverse(SortAsc(Admit(pool, f), CandidateValue))
  }

  /** The sum of the effective values of `cs`. */
  function Amount(cs: seq<Candidate>): int
  {
    SumOf(cs, CandidateValue)
  }

  /** The sum of the wastes of `cs`. */
  function WasteSum(cs: seq<Candidate>): int
  {
    SumOf(cs, CandidateWaste)
  }

  /** The ordered candidates are exactly the admitted UTXOs, each once, in
      descending order of effective value. */
  lemma OrderedFacts(pool: seq<WeightedUtxo>, f: Fees)
    ensures var cs := Ordered(pool, f);
            && (forall k :: 0 <= k < |cs| ==> Describes(pool, f, cs[k]) && cs[k].value > 0)
            && Distinct(Origins(cs, CandidateOrigin))
            && (forall i :: 0 <= i < |pool| && Admitted(f, pool[i]) ==> i in Origins(cs, CandidateOrigin))
            && (forall i, j :: 0 <= i < j < |cs| ==> cs[i].value >= cs[j].value)
            && Amount(cs) == Amount(Admit(pool, f))
  {
    var w := Admit(pool, f);
    var cs := Ordered(pool, f);
    ReverseMultiset(SortAsc(w, CandidateValue));
    OrderedDescribes(pool, f, w, cs);
    OrderedComplete(pool, f, w, cs);
    OrderedDescending(SortAsc(w, CandidateValue), cs);
    SumOfPermutation(cs, w, CandidateValue);
  }

  lemma OrderedDescribes(pool: seq<WeightedUtxo>, f: Fees, w: seq<Candidate>, cs: seq<Candidate>)
    requires forall k :: 0 <= k < |w| ==> Describes(pool, f, w[k])
    requires StrictlyIncreasing(Origins(w, CandidateOrigin))
    requires multiset(cs) == multiset(w)
    ensures forall k :: 0 <= k < |cs| ==> Describes(pool, f, cs[k]) && cs[k].value > 0
    ensures Distinct(Origins(cs, CandidateOrigin))
  {
    forall k | 0 <= k < |cs|
      ensures Describes(pool, f, cs[k]) && cs[k].value > 0
    {
      assert cs[k] in multiset(w);
    }
    assert Distinct(w) by {
      forall i, j | 0 <= i < j < |w|
        ensures w[i] != w[j]
      {
        assert Origins(w, CandidateOrigin)[i] < Origins(w, CandidateOrigin)[j];
      }
    }
    DistinctPermutation(w, cs);
    forall i, j | 0 <= i < j < |cs|
      ensures Origins(cs, CandidateOrigin)[i] != Origins(cs, CandidateOrigin)[j]
    {
      assert cs[i] != cs[j];
    }
  }

  lemma OrderedComplete(pool: seq<WeightedUtxo>, f: Fees, w: seq<Candidate>, cs: seq<Candidate>)
    requires forall i :: 0 <= i < |pool| && Admitted(f, pool[i]) ==> i in Origins(w, CandidateOrigin)
    requires multiset(cs) == multiset(w)
    ensures forall i :: 0 <= i < |pool| && Admitted(f, pool[i]) ==> i in Origins(cs, CandidateOrigin)
  {
    forall i | 0 <= i < |pool| && Admitted(f, pool[i])
      ensures i in Origins(cs, CandidateOrigin)
    {
      var k :| 0 <= k < |w| && Origins(w, CandidateOrigin)[k] == i;
      assert w[k] in multiset(cs);
      var m :| 0 <= m < |cs| && cs[m] == w[k];
      assert Origins(cs, CandidateOrigin)[m] == i;
    }
  }

  lemma OrderedDescending(s: seq<Candidate>, cs: seq<Candidate>)
    requires SortedBy(s, CandidateValue)
    requires cs == Reverse(s)
    ensures forall i, j :: 0 <= i < j < |cs| ==> cs[i].value >= cs[j].value
  {
    forall i, j | 0 <= i < j < |cs|
      ensures cs[i].value >= cs[j].value
    {
      assert cs[i] == s[|s| - 1 - i] && cs[j] == s[|s| - 1 - j];
      assert CandidateValue(s[|s| - 1 - j]) <= CandidateValue(s[|s| - 1 - i]);
    }
  }

  /** The loop state of `select_coins_bnb`: the iteration count, the index
      of the next candidate, the running `value`, `available_value`,
      `current_waste` and `best_waste`, `index_selection` (positions in the
      candidate list) and `best_selection`. */
  datatype Search = Search(
    iteration: nat,
    index: nat,
    value: int,
    available: int,
    currentWaste: int,
    bestWaste: int,
    selection: seq<nat>,
    best: Option<seq<nat>>)

  /** What the loop reads but never writes: the ordered candidates, the
      target, `upper_bound` and the two fee rates. */
  datatype Context = Context(cands: seq<Candidate>, target: int, upperBound: int, feeRate: int, longTermFeeRate: int)

  /** The state before the first iteration. */
  function Start(available: int): Search
  {
    Search(0, 0, 0, available, 0, MAX_MONEY, [], None)
  }

  /** One step of the loop: carry on from a state, stop with the state the
      function returns from, or give up with `None` (a `?` on a failed
      conversion or checked operation). */
  datatype Move = Next(state: Search) | Stop(state: Search) | Fail

  /** The inner `loop` of a backtrack: step `index` down to the last
      selected position `last`, adding back the effective value of every
      candidate stepped over. It panics when `index` would go below zero or
      a candidate is read past the end, and when the `+=` overflows. */
  function Rewind(cands: seq<Candidate>, index: nat, last: nat, available: int): (r: Outcome<(nat, int)>)
    ensures r.Return? ==> r.value.0 <= last && r.value.0 < index
    ensures last < index <= |cands| && available + Amount(cands[last + 1..index]) <= U64_MAX ==>
              r == Return((last, available + Amount(cands[last + 1..index])))
    decreases index
  {
    if index == 0 then Panic
    else if index - 1 <= last then Return((index - 1, available))
    else if index - 1 >= |cands| then Panic
    else
      RewindStep(cands, index, last);
      if available + cands[index - 1].value > U64_MAX then Panic
      else Rewind(cands, index - 1, last, available + cands[index - 1].value)
  }

  /** The candidates stepped over from `index`, split at the last of them. */
  lemma RewindStep(cands: seq<Candidate>, index: nat, last: nat)
    requires last + 1 < index <= |cands|
    ensures Amount(cands[last + 1..index]) == Amount(cands[last + 1..index - 1]) + cands[index - 1].value
    ensures Amount(cands[last + 1..index - 1]) >= 0
  {
    assert cands[last + 1..index] == cands[last + 1..index - 1] + [cands[index - 1]];
    SumOfSnoc(cands[last + 1..index - 1], cands[index - 1], CandidateValue);
    SumOfNonNegative(cands[last + 1..index - 1], CandidateValue);
  }

  /** The exclusion step: drop the last selected candidate, after stepping
      back to it, and move past it. With nothing selected the function
      returns. */
  function Retreat(c: Context, s: Search): (r: Outcome<Move>)
    ensures r.Return? && r.value.Next? ==>
              && r.value.state.iteration == s.iteration + 1
              && s.selection != []
              && r.value.state.selection == s.selection[..|s.selection| - 1]
              && r.value.state.index == s.selection[|s.selection| - 1] + 1
              && r.value.state.best == s.best && r.value.state.bestWaste == s.bestWaste
    ensures r.Return? && r.value.Stop? <==> s.selection == []
    ensures r.Return? && r.value.Stop? ==> r.value.state == s
  {
    if s.selection == [] then Return(Stop(s))
    else
      var last := s.selection[|s.selection| - 1];
      match Rewind(c.cands, s.index, last, s.available)
      case Panic => Panic
      case Return(p) =>
        var (index, available) := p;
        if index != last then Panic
        else if index >= |c.cands| then Panic
        else
          var cand := c.cands[index];
          if !InI64(s.currentWaste - cand.waste) then Return(Fail)
          else if s.value - cand.value < 0 then Return(Fail)
          else
            Return(Next(s.(iteration := s.iteration + 1, index := index + 1, available := available,
                           currentWaste := s.currentWaste - cand.waste, value := s.value - cand.value,
                           selection := s.selection[..|s.selection| - 1])))
  }

  /** The inclusion step: add the candidate at `index` to the selection.
      Reading past the end of the candidates panics, and so do the unchecked
      `Amount` addition and subtraction when they leave the `Amount` range. */
  function Include(c: Context, s: Search): (r: Outcome<Move>)
    ensures r.Return? && r.value.Next? ==>
              && s.index < |c.cands|
              && r.value.state == s.(iteration := s.iteration + 1, index := s.index + 1,
                                     currentWaste := s.currentWaste + c.cands[s.index].waste,
                                     value := s.value + c.cands[s.index].value,
                                     available := s.available - c.cands[s.index].value,
                                     selection := s.selection + [s.index])
    ensures r.Return? ==> r.value.Next? || r.value.Fail?
  {
    if s.index >= |c.cands| then Panic
    else
      var cand := c.cands[s.index];
      if !InI64(s.currentWaste + cand.waste) then Return(Fail)
      else if s.value + cand.value > U64_MAX then Panic
      else if s.available - cand.value < 0 then Panic
      else
        Return(Next(s.(iteration := s.iteration + 1, index := s.index + 1,
                       currentWaste := s.currentWaste + cand.waste,
                       value := s.value + cand.value,
                       available := s.available - cand.value,
                       selection := s.selection + [s.index])))
  }

  /** The three backtracking conditions: the selection cannot reach the
      target any more, it overshoots `upper_bound`, or its waste already
      exceeds the best one while spending now costs more than later. */
  predicate Hopeless(c: Context, s: Search)
  {
    || s.available + s.value < c.target
    || s.value > c.upperBound
    || (s.currentWaste > s.bestWaste && c.feeRate > c.longTermFeeRate)
  }

  /** Recording a selection that lies in `[target, upper_bound]`: its waste
      is the running waste plus the excess over the target, and it replaces
      the best one when that waste is not larger than `best_waste`, so a
      later selection with equal waste wins. The conversions to
      `SignedAmount` and the checked operations give up with `None`. */
  function Record(c: Context, s: Search): (r: Option<Search>)
    ensures r.Some? ==> r.value.selection == s.selection && r.value.index == s.index
                        && r.value.iteration == s.iteration && r.value.value == s.value
                        && r.value.available == s.available && r.value.currentWaste == s.currentWaste
    ensures r.Some? ==> r.value.bestWaste <= s.bestWaste
    ensures r.Some? && s.currentWaste + (s.value - c.target) <= s.bestWaste ==>
              && r.value.best == Some(s.selection)
              && r.value.bestWaste == s.currentWaste + (s.value - c.target)
    ensures r.Some? && s.currentWaste + (s.value - c.target) > s.bestWaste ==>
              r.value.best == s.best && r.value.bestWaste == s.bestWaste
  {
    if s.value > I64_MAX || c.target > I64_MAX then None
    else
      var excess := s.value - c.target;
      if !InI64(excess) || !InI64(s.currentWaste + excess) then None
      else
        var waste := s.currentWaste + excess;
        var s1 := if waste <= s.bestWaste then s.(best := Some(s.selection), bestWaste := waste) else s;
        if !InI64(waste - excess) then None
        else Some(s1.(currentWaste := waste - excess))
  }

  /** One iteration of the `while` loop. The unchecked addition in the first
      condition panics when it leaves the `Amount` range. */
  function Step(c: Context, s: Search): (r: Outcome<Move>)
    ensures r.Return? && r.value.Next? ==> r.value.state.iteration == s.iteration + 1
    ensures r.Return? && r.value.Next? ==> r.value.state.bestWaste <= s.bestWaste
    ensures r.Return? && r.value.Next? && r.value.state.best != s.best ==>
              && r.value.state.best == Some(s.selection)
              && c.target <= s.value <= c.upperBound
              && r.value.state.bestWaste == s.currentWaste + (s.value - c.target)
    ensures r.Return? && (r.value.Next? || r.value.Stop?) && !Hopeless(c, s) && s.value >= c.target
            && s.currentWaste + (s.value - c.target) <= s.bestWaste ==>
              && r.value.state.best == Some(s.selection)
              && r.value.state.bestWaste == s.currentWaste + (s.value - c.target)
    ensures r.Return? && (r.value.Next? || r.value.Stop?)
            && s.currentWaste + (s.value - c.target) > s.bestWaste ==>
              r.value.state.best == s.best && r.value.state.bestWaste == s.bestWaste
  {
    if s.available + s.value > U64_MAX then Panic
    else if Hopeless(c, s) then Retreat(c, s)
    else if s.value >= c.target then
      match Record(c, s)
      case None => Return(Fail)
      case Some(s1) => Retreat(c, s1)
    else Include(c, s)
  }

  /** The `while iteration < ITERATION_LIMIT` loop: `None` when a step gives
      up, otherwise the state the loop ends in, either by returning from
      inside or by running out of iterations. */
  function Run(c: Context, s: Search): (r: Outcome<Option<Search>>)
    requires s.iteration <= ITERATION_LIMIT
    ensures r.Return? && r.value.Some? ==>
              && s.iteration <= r.value.value.iteration <= ITERATION_LIMIT
              && (r.value.value.iteration < ITERATION_LIMIT ==> r.value.value.selection == [])
    decreases ITERATION_LIMIT - s.iteration
  {
    if s.iteration >= ITERATION_LIMIT then Return(Some(s))
    else
      match Step(c, s)
      case Panic => Panic
      case Return(Fail) => Return(None)
      case Return(Stop(f)) => StopEmpty(c, s); Return(Some(f))
      case Return(Next(s')) =>
        Run(c, s')
  }

  /** A step stops only from a state with nothing selected. */
  lemma StopEmpty(c: Context, s: Search)
    requires Step(c, s).Return? && Step(c, s).value.Stop?
    ensures Step(c, s).value.state.selection == [] && Step(c, s).value.state.iteration == s.iteration
  {
  }

  /** The effective value of the candidates at the positions `sel`. */
  function SelAmount(c: Context, sel: seq<nat>): int
    requires AllBelow(sel, |c.cands|)
  {
    Amount(Pick(c.cands, sel))
  }

  /** The waste of the candidates at the positions `sel`. */
  function SelWaste(c: Context, sel: seq<nat>): int
    requires AllBelow(sel, |c.cands|)
  {
    WasteSum(Pick(c.cands, sel))
  }

  /** A selection the loop may record: positions in increasing order whose
      effective value lies in `[target, upper_bound]`, and `w` is its waste
      plus its excess over the target. */
  predicate Recorded(c: Context, b: seq<nat>, w: int)
  {
    && StrictlyIncreasing(b) && AllBelow(b, |c.cands|)
    && c.target <= SelAmount(c, b) <= c.upperBound
    && w == SelWaste(c, b) + (SelAmount(c, b) - c.target)
  }

  /** What holds of the candidates throughout the loop. */
  predicate ContextFacts(c: Context)
  {
    && Amount(c.cands) <= U64_MAX
    && (forall k :: 0 <= k < |c.cands| ==> c.cands[k].value > 0)
    && 0 <= c.target <= c.upperBound
  }

  /** The loop-head invariant: `available_value` is the effective value of
      the candidates from `index` on, `value` and `current_waste` are those
      of `index_selection`, which holds positions before `index` in
      increasing order, and `best_selection`, when set, was recorded with
      `best_waste`, which has never risen above `MAX_MONEY`. */
  predicate Inv(c: Context, s: Search)
  {
    && ContextFacts(c)
    && Tracks(c, s.index, s.selection, s.value, s.available, s.currentWaste)
    && BestSoFar(c, s.best, s.bestWaste)
  }

  /** The running part of the invariant. */
  predicate Tracks(c: Context, index: nat, selection: seq<nat>, value: int, available: int, currentWaste: int)
  {
    && index <= |c.cands|
    && StrictlyIncreasing(selection) && AllBelow(selection, index)
    && AllBelow(selection, |c.cands|)
    && value == SelAmount(c, selection)
    && available == Amount(c.cands[index..])
    && currentWaste == SelWaste(c, selection) && InI64(currentWaste)
  }

  /** The recorded part of the invariant. */
  predicate BestSoFar(c: Context, best: Option<seq<nat>>, bestWaste: int)
  {
    && InI64(bestWaste) && bestWaste <= MAX_MONEY
    && (best.None? ==> bestWaste == MAX_MONEY)
    && (best.Some? ==> Recorded(c, best.value, bestWaste))
  }

  /** An iteration that does not panic and, unless it gives up, carries on
      or stops in a state with the invariant. */
  ghost predicate Keeps(c: Context, r: Outcome<Move>)
  {
    match r
    case Panic => false
    case Return(Fail) => true
    case Return(Next(t)) => Inv(c, t)
    case Return(Stop(t)) => Inv(c, t)
  }

  /** The totals of a selection grown by one position. */
  lemma SelSnoc(c: Context, sel: seq<nat>, i: nat)
    requires AllBelow(sel, |c.cands|) && i < |c.cands|
    ensures AllBelow(sel + [i], |c.cands|)
    ensures SelAmount(c, sel + [i]) == SelAmount(c, sel) + c.cands[i].value
    ensures SelWaste(c, sel + [i]) == SelWaste(c, sel) + c.cands[i].waste
  {
    PickAppend(c.cands, sel, [i]);
    assert Pick(c.cands, [i]) == [c.cands[i]];
    SumOfSnoc(Pick(c.cands, sel), c.cands[i], CandidateValue);
    SumOfSnoc(Pick(c.cands, sel), c.cands[i], CandidateWaste);
  }

  /** A selection of positions before `index` and the candidates from
      `index` on together count each candidate at most once. */
  lemma SelBound(c: Context, sel: seq<nat>, index: nat)
    requires ContextFacts(c) && index <= |c.cands|
    requires StrictlyIncreasing(sel) && AllBelow(sel, index)
    ensures AllBelow(sel, |c.cands|)
    ensures 0 <= SelAmount(c, sel) && 0 <= Amount(c.cands[index..])
    ensures SelAmount(c, sel) + Amount(c.cands[index..]) <= Amount(c.cands)
  {
    var cs := c.cands;
    var front := cs[..index];
    assert Pick(front, sel) == Pick(cs, sel);
    PickSumBound(front, sel, 0, CandidateValue);
    assert front[0..] == front;
    SumOfNonNegative(Pick(cs, sel), CandidateValue);
    SumOfNonNegative(cs[index..], CandidateValue);
    assert cs == front + cs[index..];
    SumOfAppend(front, cs[index..], CandidateValue);
  }

  /** The candidates from `i` on are the one at `i` and those after it. */
  lemma AvailableSplit(cs: seq<Candidate>, i: nat)
    requires i < |cs|
    ensures Amount(cs[i..]) == cs[i].value + Amount(cs[i + 1..])
  {
    assert cs[i..][1..] == cs[i + 1..];
  }

  /** The candidates from `last + 1` on: those stepped over and those from
      `index` on. */
  lemma AvailableJoin(cs: seq<Candidate>, last: nat, index: nat)
    requires last < index <= |cs|
    ensures Amount(cs[last + 1..]) == Amount(cs[last + 1..index]) + Amount(cs[index..])
  {
    assert cs[last + 1..] == cs[last + 1..index] + cs[index..];
    SumOfAppend(cs[last + 1..index], cs[index..], CandidateValue);
  }

  /** Nothing is available past the last candidate. */
  lemma EmptyTail(cs: seq<Candidate>, i: nat)
    ensures i == |cs| ==> Amount(cs[i..]) == 0
  {
    if i == |cs| {
      assert cs[i..] == [];
    }
  }

  /** Backtracking from a state with the invariant never panics and keeps
      the invariant. */
  lemma RetreatInv(c: Context, s: Search)
    requires Inv(c, s)
    ensures Keeps(c, Retreat(c, s))
  {
    if s.selection != [] {
      var last := s.selection[|s.selection| - 1];
      var front := s.selection[..|s.selection| - 1];
      PopLast(c, s.selection, s.index);
      assert Rewind(c.cands, s.index, last, s.available) == Return((last, Amount(c.cands[last + 1..])));
      var cand := c.cands[last];
      if InI64(s.currentWaste - cand.waste) && s.value - cand.value >= 0 {
        var t := s.(iteration := s.iteration + 1, index := last + 1, available := Amount(c.cands[last + 1..]),
                    currentWaste := s.currentWaste - cand.waste, value := s.value - cand.value,
                    selection := front);
        assert Retreat(c, s) == Return(Next(t));
        assert Tracks(c, t.index, t.selection, t.value, t.available, t.currentWaste);
      }
    }
  }

  /** Dropping the last of the selected positions below `index`. */
  lemma PopLast(c: Context, sel: seq<nat>, index: nat)
    requires ContextFacts(c) && index <= |c.cands|
    requires sel != [] && StrictlyIncreasing(sel) && AllBelow(sel, index)
    ensures var last, front := sel[|sel| - 1], sel[..|sel| - 1];
            && last < index
            && StrictlyIncreasing(front) && AllBelow(front, last + 1) && AllBelow(front, |c.cands|)
            && SelAmount(c, sel) == SelAmount(c, front) + c.cands[last].value
            && SelWaste(c, sel) == SelWaste(c, front) + c.cands[last].waste
            && Amount(c.cands[last + 1..]) == Amount(c.cands[last + 1..index]) + Amount(c.cands[index..])
            && 0 <= SelAmount(c, front) && 0 <= Amount(c.cands[last + 1..])
            && SelAmount(c, front) + Amount(c.cands[last + 1..]) <= Amount(c.cands)
  {
    var n := |sel| - 1;
    var last := sel[n];
    var front := sel[..n];
    assert sel == front + [last];
    AvailableJoin(c.cands, last, index);
    assert AllBelow(front, last + 1) by {
      forall k | 0 <= k < |front|
        ensures front[k] < last + 1
      {
        assert sel[k] < sel[n];
      }
    }
    SelBound(c, front, last + 1);
    SelSnoc(c, front, last);
  }

  /** Recording keeps the invariant of a state that is not hopeless and
      reaches the target. */
  lemma RecordInv(c: Context, s: Search)
    requires Inv(c, s) && !Hopeless(c, s) && s.value >= c.target
    ensures Record(c, s).Some? ==> Inv(c, Record(c, s).value)
  {
  }

  /** Including the next candidate from a state that is not hopeless and
      misses the target never panics and keeps the invariant. */
  lemma IncludeInv(c: Context, s: Search)
    requires Inv(c, s) && !Hopeless(c, s) && s.value < c.target
    ensures Keeps(c, Include(c, s))
  {
    EmptyTail(c.cands, s.index);
    assert s.index < |c.cands|;
    var cand := c.cands[s.index];
    if InI64(s.currentWaste + cand.waste) {
      PushTracks(c, s.index, s.selection, s.value, s.available, s.currentWaste);
      var t := s.(iteration := s.iteration + 1, index := s.index + 1,
                  currentWaste := s.currentWaste + cand.waste, value := s.value + cand.value,
                  available := s.available - cand.value, selection := s.selection + [s.index]);
      assert Include(c, s) == Return(Next(t));
    }
  }

  /** Selecting the candidate at `index` keeps the running totals, within
      the `Amount` range. */
  lemma PushTracks(c: Context, index: nat, sel: seq<nat>, value: int, available: int, currentWaste: int)
    requires ContextFacts(c) && Tracks(c, index, sel, value, available, currentWaste)
    requires index < |c.cands| && InI64(currentWaste + c.cands[index].waste)
    ensures value + c.cands[index].value <= U64_MAX && available - c.cands[index].value >= 0
    ensures Tracks(c, index + 1, sel + [index], value + c.cands[index].value,
                   available - c.cands[index].value, currentWaste + c.cands[index].waste)
  {
    AvailableSplit(c.cands, index);
    SelSnoc(c, sel, index);
    StrictlyIncreasingSnoc(sel, index);
    assert AllBelow(sel + [index], index + 1) by {
      assert forall k :: 0 <= k < |sel + [index]| ==> (sel + [index])[k] < index + 1;
    }
    SelBound(c, sel + [index], index + 1);
  }


  /** One iteration from a state with the invariant never panics, and the
      state it carries on or stops with has the invariant. */
  lemma StepInv(c: Context, s: Search)
    requires Inv(c, s)
    ensures Keeps(c, Step(c, s))
  {
    SelBound(c, s.selection, s.index);
    if Hopeless(c, s) {
      RetreatInv(c, s);
    } else if s.value >= c.target {
      RecordInv(c, s);
      if Record(c, s).Some? {
        RetreatInv(c, Record(c, s).value);
      }
    } else {
      IncludeInv(c, s);
    }
  }

  /** The loop never panics from a state with the invariant, and the state
      it ends in has the invariant. */
  lemma {:induction false} RunInv(c: Context, s: Search)
    requires Inv(c, s) && s.iteration <= ITERATION_LIMIT
    ensures Run(c, s) != Panic
    ensures Run(c, s).Return? && Run(c, s).value.Some? ==> Inv(c, Run(c, s).value.value)
    decreases ITERATION_LIMIT - s.iteration
  {
    if s.iteration < ITERATION_LIMIT {
      StepInv(c, s);
      match Step(c, s)
      case Return(Next(s')) => RunInv(c, s');
      case _ =>
    }
  }

  /** The loop's fixed inputs for a call. */
  function Setup(target: U64, costOfChange: U64, f: Fees, pool: seq<WeightedUtxo>): Context
  {
    Context(Ordered(pool, f), target, target + costOfChange, f.feeRate, f.longTermFeeRate)
  }

  /** The invariant holds before the first iteration. */
  lemma StartInv(c: Context, available: int)
    requires ContextFacts(c) && available == Amount(c.cands)
    ensures Inv(c, Start(available))
  {
    assert c.cands[0..] == c.cands;
  }

  /** `select_coins_bnb` up to the end of its loop: `None` when
      `target + cost_of_change` overflows, when the effective values of the
      admitted UTXOs overflow when summed, when they sum to less than the
      target, or when a step gives up; otherwise the state the loop ends in.
      It never panics, and the final state has the loop invariant. */
  function Explore(target: U64, costOfChange: U64, f: Fees, pool: seq<WeightedUtxo>): (r: Outcome<Option<Search>>)
    ensures r != Panic
    ensures target + costOfChange > U64_MAX ==> r == Return(None)
    ensures Amount(Admit(pool, f)) > U64_MAX ==> r == Return(None)
    ensures Amount(Admit(pool, f)) < target ==> r == Return(None)
    ensures r.Return? && r.value.Some? ==>
              && target + costOfChange <= U64_MAX
              && Inv(Setup(target, costOfChange, f, pool), r.value.value)
              && r.value.value.iteration <= ITERATION_LIMIT
              && (r.value.value.iteration < ITERATION_LIMIT ==> r.value.value.selection == [])
  {
    if target + costOfChange > U64_MAX then Return(None)
    else
      var c := Setup(target, costOfChange, f, pool);
      OrderedFacts(pool, f);
      match CheckedSum(c.cands, CandidateValue, 0)
      case None => Return(None)
      case Some(available) =>
        if available < target then Return(None)
        else
          StartInv(c, available);
          RunInv(c, Start(available));
          Run(c, Start(available))
  }

  /** What a successful call reports: the iteration count, and the
      positions in the caller's vector of the UTXOs it writes back into it,
      in the order written. */
  datatype Bnb = Bnb(iterations: nat, selected: seq<nat>)

  /** What the vector holds after a call that returns `r`: the selected
      UTXOs on success, and what it held before otherwise. */
  function Written(pool: seq<WeightedUtxo>, r: Option<Bnb>): seq<WeightedUtxo>
    requires r.Some? ==> AllBelow(r.value.selected, |pool|)
  {
    if r.Some? then Pick(pool, r.value.selected) else pool
  }

  /** The effective value of an admitted UTXO (0 for any other). */
  function EffectiveAmount(f: Fees, u: WeightedUtxo): int
  {
    if Admitted(f, u) then EffectiveValueOf(f, u).value else 0
  }

  /** The waste of an admitted UTXO (0 for any other). */
  function WasteAmount(f: Fees, u: WeightedUtxo): int
  {
    if Admitted(f, u) then WasteOf(f, u).value else 0
  }

  /** The effective value of the UTXOs at the given positions of the pool. */
  function OriginsAmount(pool: seq<WeightedUtxo>, f: Fees, sel: seq<nat>): int
    requires AllBelow(sel, |pool|)
  {
    if sel == [] then 0 else EffectiveAmount(f, pool[sel[0]]) + OriginsAmount(pool, f, sel[1..])
  }

  /** The waste of the UTXOs at the given positions of the pool. */
  function OriginsWaste(pool: seq<WeightedUtxo>, f: Fees, sel: seq<nat>): int
    requires AllBelow(sel, |pool|)
  {
    if sel == [] then 0 else WasteAmount(f, pool[sel[0]]) + OriginsWaste(pool, f, sel[1..])
  }

  /** A successful result of `select_coins_bnb`: distinct admitted UTXOs of
      the pool in descending order of effective value, whose effective value
      lies in `[target, target + cost_of_change]` and whose waste plus excess
      is at most `MAX_MONEY`, found within the iteration budget. */
  predicate Selects(pool: seq<WeightedUtxo>, f: Fees, target: int, costOfChange: int, b: Bnb)
  {
    && b.iterations <= ITERATION_LIMIT
    && Distinct(b.selected) && AllBelow(b.selected, |pool|)
    && (forall k :: 0 <= k < |b.selected| ==> Admitted(f, pool[b.selected[k]]))
    && (forall i, j :: 0 <= i < j < |b.selected| ==>
          EffectiveAmount(f, pool[b.selected[i]]) >= EffectiveAmount(f, pool[b.selected[j]]))
    && target <= OriginsAmount(pool, f, b.selected) <= target + costOfChange
    && OriginsWaste(pool, f, b.selected) + (OriginsAmount(pool, f, b.selected) - target) <= MAX_MONEY
  }

  /** A list of candidates points at pool UTXOs with the same totals. */
  lemma {:induction false} OriginsTotals(pool: seq<WeightedUtxo>, f: Fees, cs: seq<Candidate>)
    requires forall k :: 0 <= k < |cs| ==> Describes(pool, f, cs[k])
    ensures AllBelow(Origins(cs, CandidateOrigin), |pool|)
    ensures OriginsAmount(pool, f, Origins(cs, CandidateOrigin)) == Amount(cs)
    ensures OriginsWaste(pool, f, Origins(cs, CandidateOrigin)) == WasteSum(cs)
  {
    if cs != [] {
      OriginsTotals(pool, f, cs[1..]);
      assert Origins(cs, CandidateOrigin)[1..] == Origins(cs[1..], CandidateOrigin);
    }
  }

  /** The best selection of the final state, read back as pool positions. */
  lemma BestOrigins(target: U64, costOfChange: U64, f: Fees, pool: seq<WeightedUtxo>, s: Search)
    requires var c := Setup(target, costOfChange, f, pool); Inv(c, s) && s.best.Some?
    requires s.iteration <= ITERATION_LIMIT
    ensures var cs := Ordered(pool, f);
            && AllBelow(s.best.value, |cs|)
            && Selects(pool, f, target, costOfChange, Bnb(s.iteration, Origins(Pick(cs, s.best.value), CandidateOrigin)))
  {
    var c := Setup(target, costOfChange, f, pool);
    assert BestSoFar(c, s.best, s.bestWaste);
    RecordedOrigins(c, f, pool, s.best.value, s.bestWaste, s.iteration);
    assert c.target == target && c.upperBound - c.target == costOfChange;
  }

  /** A recorded selection of the ordered candidates, read back as pool
      positions. */
  lemma RecordedOrigins(c: Context, f: Fees, pool: seq<WeightedUtxo>, b: seq<nat>, w: int, n: nat)
    requires c.cands == Ordered(pool, f)
    requires Recorded(c, b, w) && w <= MAX_MONEY && n <= ITERATION_LIMIT
    ensures Selects(pool, f, c.target, c.upperBound - c.target, Bnb(n, Origins(Pick(c.cands, b), CandidateOrigin)))
  {
    var cs := c.cands;
    OrderedFacts(pool, f);
    var L := Pick(cs, b);
    OriginsTotals(pool, f, L);
    OriginsOrdered(pool, f, cs, b);
  }

  /** Positions taken in increasing order from the ordered candidates point
      at distinct UTXOs of non-increasing effective value. */
  lemma OriginsOrdered(pool: seq<WeightedUtxo>, f: Fees, cs: seq<Candidate>, b: seq<nat>)
    requires forall k :: 0 <= k < |cs| ==> Describes(pool, f, cs[k])
    requires Distinct(Origins(cs, CandidateOrigin))
    requires forall i, j :: 0 <= i < j < |cs| ==> cs[i].value >= cs[j].value
    requires StrictlyIncreasing(b) && AllBelow(b, |cs|)
    ensures var sel := Origins(Pick(cs, b), CandidateOrigin);
            && Distinct(sel) && AllBelow(sel, |pool|)
            && (forall k :: 0 <= k < |sel| ==> Admitted(f, pool[sel[k]]))
            && (forall i, j :: 0 <= i < j < |sel| ==>
                  EffectiveAmount(f, pool[sel[i]]) >= EffectiveAmount(f, pool[sel[j]]))
  {
    var sel := Origins(Pick(cs, b), CandidateOrigin);
    forall k | 0 <= k < |sel|
      ensures sel[k] < |pool| && Admitted(f, pool[sel[k]])
      ensures EffectiveAmount(f, pool[sel[k]]) == cs[b[k]].value
    {
      assert Describes(pool, f, cs[b[k]]);
    }
    forall i, j | 0 <= i < j < |sel|
      ensures sel[i] != sel[j]
      ensures EffectiveAmount(f, pool[sel[i]]) >= EffectiveAmount(f, pool[sel[j]])
    {
      assert b[i] < b[j];
      assert Origins(cs, CandidateOrigin)[b[i]] != Origins(cs, CandidateOrigin)[b[j]];
      assert cs[b[i]].value >= cs[b[j]].value;
    }
  }

  /** `select_coins_bnb` as written: after the loop, `best_selection` is
      unwrapped, which panics when nothing was recorded. */
  function SelectCoinsBnb(target: U64, costOfChange: U64, f: Fees, pool: seq<WeightedUtxo>): (r: Outcome<Option<Bnb>>)
    ensures target + costOfChange > U64_MAX ==> r == Return(None)
    ensures Amount(Admit(pool, f)) > U64_MAX ==> r == Return(None)
    ensures Amount(Admit(pool, f)) < target ==> r == Return(None)
    ensures r.Return? && r.value.Some? ==> Selects(pool, f, target, costOfChange, r.value.value)
  {
    match Explore(target, costOfChange, f, pool)
    case Panic => Panic
    case Return(None) => Return(None)
    case Return(Some(s)) =>
      match s.best
      case None => Panic
      case Some(b) =>
        BestOrigins(target, costOfChange, f, pool, s);
        Return(Some(Bnb(s.iteration, Origins(Pick(Ordered(pool, f), b), CandidateOrigin))))
  }

  /** `select_coins_bnb` as its documentation describes it: `None` when no
      selection was recorded, so that it never panics, and `None` for an
      empty selection, so that a match is never empty. */
  function SelectCoinsBnbOrNone(target: U64, costOfChange: U64, f: Fees, pool: seq<WeightedUtxo>): (r: Outcome<Option<Bnb>>)
    ensures r != Panic
    ensures target + costOfChange > U64_MAX ==> r == Return(None)
    ensures Amount(Admit(pool, f)) > U64_MAX ==> r == Return(None)
    ensures Amount(Admit(pool, f)) < target ==> r == Return(None)
    ensures r.Return? && r.value.Some? ==>
              Selects(pool, f, target, costOfChange, r.value.value) && r.value.value.selected != []
  {
    match Explore(target, costOfChange, f, pool)
    case Panic => Panic
    case Return(None) => Return(None)
    case Return(Some(s)) =>
      match s.best
      case None => Return(None)
      case Some(b) =>
        if b == [] then Return(None)
        else
          BestOrigins(target, costOfChange, f, pool, s);
          Return(Some(Bnb(s.iteration, Origins(Pick(Ordered(pool, f), b), CandidateOrigin))))
  }

  /** The two agree except in two places. The function as written panics
      exactly when the loop ends with nothing recorded, and it returns an
      empty match when the empty selection was recorded. In both places the
      corrected one returns `None`. */
  lemma UnwrapOnlyDifference(target: U64, costOfChange: U64, f: Fees, pool: seq<WeightedUtxo>)
    ensures var w := SelectCoinsBnb(target, costOfChange, f, pool);
            w != Panic && !(w.value.Some? && w.value.value.selected == []) ==>
              w == SelectCoinsBnbOrNone(target, costOfChange, f, pool)
    ensures SelectCoinsBnb(target, costOfChange, f, pool) == Panic <==>
              (var e := Explore(target, costOfChange, f, pool); e.Return? && e.value.Some? && e.value.value.best.None?)
    ensures var w := SelectCoinsBnb(target, costOfChange, f, pool);
            w == Panic || (w.value.Some? && w.value.value.selected == []) ==>
              SelectCoinsBnbOrNone(target, costOfChange, f, pool) == Return(None)
  {
  }

  /** With a zero target the first iteration records the empty selection
      (its value 0 reaches the target with waste 0), the backtrack finds
      nothing selected, and the function returns `Some(0)` after writing
      back an empty vector, for every pool whose effective values sum
      within `Amount`. */
  lemma ZeroTargetEmptyMatch(costOfChange: U64, f: Fees, pool: seq<WeightedUtxo>)
    requires Amount(Admit(pool, f)) <= U64_MAX
    ensures SelectCoinsBnb(0, costOfChange, f, pool) == Return(Some(Bnb(0, [])))
    ensures Written(pool, Some(Bnb(0, []))) == []
    ensures SelectCoinsBnbOrNone(0, costOfChange, f, pool) == Return(None)
  {
    var s1 := ZeroTargetExplore(costOfChange, f, pool);
    assert Pick(Ordered(pool, f), []) == [];
  }

  /** The loop of a zero target stops in its first iteration, with the
      empty selection recorded. */
  lemma ZeroTargetExplore(costOfChange: U64, f: Fees, pool: seq<WeightedUtxo>) returns (s1: Search)
    requires Amount(Admit(pool, f)) <= U64_MAX
    ensures s1.iteration == 0 && s1.best == Some([])
    ensures Explore(0, costOfChange, f, pool) == Return(Some(s1))
  {
    var c := Setup(0, costOfChange, f, pool);
    OrderedFacts(pool, f);
    var available := Amount(c.cands);
    SumOfNonNegative(c.cands, CandidateValue);
    s1 := ZeroTargetStep(c, available);
    assert Run(c, Start(available)) == Return(Some(s1));
  }

  /** The first iteration against a zero target records the empty
      selection with waste 0 and stops. */
  lemma ZeroTargetStep(c: Context, available: int) returns (s1: Search)
    requires c.target == 0 <= c.upperBound && 0 <= available <= U64_MAX
    ensures s1 == Start(available).(best := Some([]), bestWaste := 0)
    ensures Step(c, Start(available)) == Return(Stop(s1))
  {
    var s0 := Start(available);
    s1 := s0.(best := Some([]), bestWaste := 0);
    assert !Hopeless(c, s0);
    assert Record(c, s0) == Some(s1);
    assert Retreat(c, s1) == Return(Stop(s1));
  }
}
