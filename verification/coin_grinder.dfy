/** Coin Grinder (src/coin_grinder.rs): a depth-first include/exclude search
    over the UTXOs with positive effective value, sorted by descending
    effective value, for the selection of least total weight whose effective
    value reaches `target + change_target`, within `max_selection_weight` and
    an iteration budget. UTXOs are referred to by their position in the
    caller's slice (their origin). */
module CoinGrinder {
  import opened Common
  import opened Sorting

  /** A UTXO as the selector sees it: its value and its satisfaction weight. */
  datatype WeightedUtxo = WeightedUtxo(value: U64, weight: U64)

  /** Effective value of a UTXO at a fee rate, as computed by rust-bitcoin's
      `effective_value`; `None` when that computation fails. No formula is
      assumed. */
  type EffectiveValue = (U64, WeightedUtxo) -> Option<I64>

  /** `ITERATION_LIMIT`. */
  const ITERATION_LIMIT: nat := 100_000

  /** `Weight::MAX`. */
  const WEIGHT_MAX: int := U64_MAX

  /** An entry of `w_utxos`: a positive effective value, the weight of its
      UTXO, and the UTXO's position in the caller's slice. */
  datatype Candidate = Candidate(value: U64, weight: U64, origin: nat)

  function CandidateValue(c: Candidate): int { c.value }
  function CandidateWeight(c: Candidate): int { c.weight }
  function CandidateOrigin(c: Candidate): nat { c.origin }

  /** `u` survives `calc_effective_values`: its effective value is defined
      and strictly positive. */
  predicate Positive(ev: EffectiveValue, feeRate: U64, u: WeightedUtxo)
  {
    ev(feeRate, u).Some? && ev(feeRate, u).value > 0
  }

  /** `c` is the entry `calc_effective_values` makes for the UTXO it points at. */
  predicate Describes(pool: seq<WeightedUtxo>, ev: EffectiveValue, feeRate: U64, c: Candidate)
  {
    && c.origin < |pool|
    && Positive(ev, feeRate, pool[c.origin])
    && c.value == ev(feeRate, pool[c.origin]).value
    && c.weight == pool[c.origin].weight
  }

  /** `calc_effective_values`: the UTXOs whose effective value is defined and
      strictly positive, each paired with that value, in slice order. */
  function CalcEffectiveValues(pool: seq<WeightedUtxo>, ev: EffectiveValue, feeRate: U64): (r: seq<Candidate>)
    ensures forall k :: 0 <= k < |r| ==> Describes(pool, ev, feeRate, r[k])
    ensures StrictlyIncreasing(Origins(r, CandidateOrigin))
    ensures forall i :: 0 <= i < |pool| && Positive(ev, feeRate, pool[i]) ==> i in Origins(r, CandidateOrigin)
  {
    if pool == [] then []
    else
      var i := |pool| - 1;
      var front := CalcEffectiveValues(pool[..i], ev, feeRate);
      CalcEffectiveValuesPrefix(pool, ev, feeRate, front);
      if Positive(ev, feeRate, pool[i]) then
        var c := Candidate(ev(feeRate, pool[i]).value, pool[i].weight, i);
        CalcEffectiveValuesAppend(pool, ev, feeRate, front, c);
        front + [c]
      else
        front
  }

  /** Appending the entry of the last UTXO keeps the entries describing the
      slice, in increasing origin order, and covers the last UTXO. */
  lemma CalcEffectiveValuesAppend(pool: seq<WeightedUtxo>, ev: EffectiveValue, feeRate: U64,
                                  front: seq<Candidate>, c: Candidate)
    requires |pool| > 0 && c.origin == |pool| - 1 && Describes(pool, ev, feeRate, c)
    requires forall k :: 0 <= k < |front| ==> Describes(pool, ev, feeRate, front[k]) && front[k].origin < |pool| - 1
    requires StrictlyIncreasing(Origins(front, CandidateOrigin))
    requires forall i :: 0 <= i < |pool| - 1 && Positive(ev, feeRate, pool[i]) ==> i in Origins(front, CandidateOrigin)
    ensures forall k :: 0 <= k < |front + [c]| ==> Describes(pool, ev, feeRate, (front + [c])[k])
    ensures StrictlyIncreasing(Origins(front + [c], CandidateOrigin))
    ensures forall j :: 0 <= j < |pool| && Positive(ev, feeRate, pool[j]) ==> j in Origins(front + [c], CandidateOrigin)
  {
    OriginsSnoc(front, c, CandidateOrigin);
    StrictlyIncreasingSnoc(Origins(front, CandidateOrigin), c.origin);
  }

  /** What `calc_effective_values` keeps from all but the last UTXO describes
      UTXOs of the whole slice, all before the last one. */
  lemma CalcEffectiveValuesPrefix(pool: seq<WeightedUtxo>, ev: EffectiveValue, feeRate: U64, front: seq<Candidate>)
    requires |pool| > 0
    requires forall k :: 0 <= k < |front| ==> Describes(pool[..|pool| - 1], ev, feeRate, front[k])
    requires forall i :: 0 <= i < |pool| - 1 && Positive(ev, feeRate, pool[..|pool| - 1][i]) ==> i in Origins(front, CandidateOrigin)
    ensures forall k :: 0 <= k < |front| ==> Describes(pool, ev, feeRate, front[k]) && front[k].origin < |pool| - 1
    ensures forall i :: 0 <= i < |pool| - 1 && Positive(ev, feeRate, pool[i]) ==> i in Origins(front, CandidateOrigin)
  {
    var n := |pool| - 1;
    forall k | 0 <= k < |front|
      ensures Describes(pool, ev, feeRate, front[k]) && front[k].origin < n
    {
      assert Describes(pool[..n], ev, feeRate, front[k]);
      assert pool[..n][front[k].origin] == pool[front[k].origin];
    }
    forall i | 0 <= i < n && Positive(ev, feeRate, pool[i])
      ensures i in Origins(front, CandidateOrigin)
    {
      assert pool[..n][i] == pool[i];
    }
  }

  /** The sum of the effective values of `cs`. */
  function Amount(cs: seq<Candidate>): int
  {
    SumOf(cs, CandidateValue)
  }

  /** The sum of the weights of `cs`. */
  function WeightOf(cs: seq<Candidate>): int
  {
    SumOf(cs, CandidateWeight)
  }

  /** The order of `w_utxos.sort_by`: descending effective value, then
      descending weight, packed into one integer key for an ascending stable
      sort. */
  function GrinderKey(c: Candidate): int
  {
    -(c.value * (U64_MAX + 1) + c.weight)
  }

  /** The packed key orders candidates exactly as the comparator of the
      source does. */
  lemma GrinderKeyOrder(a: Candidate, b: Candidate)
    ensures GrinderKey(a) <= GrinderKey(b)
            <==> a.value > b.value || (a.value == b.value && a.weight >= b.weight)
  {
    if a.value > b.value {
      assert a.value * (U64_MAX + 1) >= b.value * (U64_MAX + 1) + (U64_MAX + 1);
    } else if a.value < b.value {
      assert b.value * (U64_MAX + 1) >= a.value * (U64_MAX + 1) + (U64_MAX + 1);
    }
  }

  /** The scan of `build_lookahead`: each entry is the running state after
      subtracting that entry's effective value. The `-=` on `Amount` panics
      below zero, so `available` must cover the values it scans. */
  function BuildLookahead(cs: seq<Candidate>, available: int): (r: seq<int>)
    requires Amount(cs) <= available <= U64_MAX
    ensures |r| == |cs|
    ensures forall i :: 0 <= i < |cs| ==> 0 <= r[i] <= U64_MAX
    ensures forall i :: 0 <= i < |cs| ==> r[i] + Amount(cs[..i + 1]) == available
  {
    if cs == [] then []
    else
      SumOfNonNegative(cs[1..], CandidateValue);
      var rest := BuildLookahead(cs[1..], available - cs[0].value);
      var r := [available - cs[0].value] + rest;
      forall i | 0 <= i < |cs|
        ensures r[i] + Amount(cs[..i + 1]) == available
      {
        assert cs[..i + 1][1..] == cs[1..][..i];
        assert cs[..i + 1][0] == cs[0];
        assert Amount(cs[..i + 1]) == cs[0].value + Amount(cs[1..][..i]);
        if i > 0 {
          assert r[i] == rest[i - 1];
        }
      }
      r
  }

  /** When `available` is the pool total, entry `i` of the lookahead table is
      the effective value strictly after position `i`, and the last entry is
      zero. */
  lemma {:induction false} LookaheadIsSuffixSum(cs: seq<Candidate>)
    requires Amount(cs) <= U64_MAX
    ensures var la := BuildLookahead(cs, Amount(cs));
            && (forall i :: 0 <= i < |cs| ==> la[i] == Amount(cs[i + 1..]))
            && (|cs| > 0 ==> la[|cs| - 1] == 0)
  {
    var la := BuildLookahead(cs, Amount(cs));
    forall i | 0 <= i < |cs|
      ensures la[i] == Amount(cs[i + 1..])
    {
      assert cs == cs[..i + 1] + cs[i + 1..];
      SumOfAppend(cs[..i + 1], cs[i + 1..], CandidateValue);
    }
    if |cs| > 0 {
      assert cs[|cs|..] == [];
    }
  }

  /** The running minimum of `build_min_tail_weight`, over the weights in
      reverse order: each entry is the minimum before it. */
  function MinScan(ws: seq<int>, prev: int): (r: seq<int>)
    ensures |r| == |ws|
    ensures forall k :: 0 <= k < |ws| ==> r[k] <= prev
    ensures forall k, m :: 0 <= m < k < |ws| ==> r[k] <= ws[m]
    ensures forall k :: 0 <= k < |ws| ==> r[k] == prev || exists m :: 0 <= m < k && r[k] == ws[m]
  {
    if ws == [] then []
    else
      var p := if ws[0] < prev then ws[0] else prev;
      var rest := MinScan(ws[1..], p);
      var r := [prev] + rest;
      assert forall k :: 1 <= k < |r| ==> r[k] == rest[k - 1];
      forall k | 1 <= k < |ws|
        ensures r[k] == prev || exists m :: 0 <= m < k && r[k] == ws[m]
      {
        if r[k] != prev {
          if r[k] == p {
            assert r[k] == ws[0];
          } else {
            var m :| 0 <= m < k - 1 && rest[k - 1] == ws[1..][m];
            assert r[k] == ws[m + 1];
          }
        }
      }
      r
  }

  /** The weights of `cs`, in order. */
  function Weights(cs: seq<Candidate>): (r: seq<int>)
    ensures |r| == |cs|
    ensures forall k :: 0 <= k < |cs| ==> r[k] == cs[k].weight
  {
    if cs == [] then [] else [cs[0].weight] + Weights(cs[1..])
  }

  /** `build_min_tail_weight`: entry `i` is the least weight strictly after
      position `i`, or `Weight::MAX` when there is none. */
  function BuildMinTailWeight(cs: seq<Candidate>): (r: seq<int>)
    ensures |r| == |cs|
    ensures forall i, j :: 0 <= i < j < |cs| ==> r[i] <= cs[j].weight
    ensures forall i :: 0 <= i < |cs| ==> r[i] <= WEIGHT_MAX
    ensures forall i :: 0 <= i < |cs| ==>
              r[i] == WEIGHT_MAX || exists j :: i < j < |cs| && r[i] == cs[j].weight
    ensures |cs| > 0 ==> r[|cs| - 1] == WEIGHT_MAX
  {
    var rev := Reverse(Weights(cs));
    var scan := MinScan(rev, WEIGHT_MAX);
    ReversedWeights(cs);
    MinTailBelow(cs, rev, scan);
    MinTailAttained(cs, rev, scan);
    var r := Reverse(scan);
    MinTailReversed(cs, scan, r);
    r
  }

  lemma {:induction false} ReversedWeights(cs: seq<Candidate>)
    ensures var rev := Reverse(Weights(cs));
            forall m :: 0 <= m < |cs| ==> rev[m] == cs[|cs| - 1 - m].weight
  {
    var ws := Weights(cs);
    var rev := Reverse(ws);
    forall m | 0 <= m < |cs|
      ensures rev[m] == cs[|cs| - 1 - m].weight
    {
      assert rev[m] == ws[|cs| - 1 - m];
    }
  }

  /** Entry `a` of the running minimum over the reversed weights bounds
      every weight after position `|cs| - 1 - a`. */
  lemma {:induction false} MinTailBelow(cs: seq<Candidate>, rev: seq<int>, scan: seq<int>)
    requires |rev| == |cs| && forall m :: 0 <= m < |cs| ==> rev[m] == cs[|cs| - 1 - m].weight
    requires scan == MinScan(rev, WEIGHT_MAX)
    ensures forall a, j :: 0 <= a < |cs| && |cs| - 1 - a < j < |cs| ==> scan[a] <= cs[j].weight
  {
    var n := |cs|;
    forall a, j | 0 <= a < n && n - 1 - a < j < n
      ensures scan[a] <= cs[j].weight
    {
      assert rev[n - 1 - j] == cs[j].weight;
    }
  }

  /** Entry `a` of the running minimum is `Weight::MAX` or a weight after
      position `|cs| - 1 - a`. */
  lemma {:induction false} MinTailAttained(cs: seq<Candidate>, rev: seq<int>, scan: seq<int>)
    requires |rev| == |cs| && forall m :: 0 <= m < |cs| ==> rev[m] == cs[|cs| - 1 - m].weight
    requires scan == MinScan(rev, WEIGHT_MAX)
    ensures forall a :: 0 <= a < |cs| ==>
              scan[a] == WEIGHT_MAX || exists j :: |cs| - 1 - a < j < |cs| && scan[a] == cs[j].weight
  {
    var n := |cs|;
    forall a | 0 <= a < n
      ensures scan[a] == WEIGHT_MAX || exists j :: n - 1 - a < j < n && scan[a] == cs[j].weight
    {
      if scan[a] != WEIGHT_MAX {
        var m :| 0 <= m < a && scan[a] == rev[m];
        assert scan[a] == cs[n - 1 - m].weight;
      }
    }
  }

  /** Reading the running minimum backwards gives the tail minima. */
  lemma {:induction false} MinTailReversed(cs: seq<Candidate>, scan: seq<int>, r: seq<int>)
    requires |scan| == |cs| && |r| == |cs|
    requires forall i :: 0 <= i < |cs| ==> r[i] == scan[|cs| - 1 - i]
    requires forall a :: 0 <= a < |cs| ==> scan[a] <= WEIGHT_MAX
    requires |cs| > 0 ==> scan[0] == WEIGHT_MAX
    requires forall a, j :: 0 <= a < |cs| && |cs| - 1 - a < j < |cs| ==> scan[a] <= cs[j].weight
    requires forall a :: 0 <= a < |cs| ==>
               scan[a] == WEIGHT_MAX || exists j :: |cs| - 1 - a < j < |cs| && scan[a] == cs[j].weight
    ensures forall i, j :: 0 <= i < j < |cs| ==> r[i] <= cs[j].weight
    ensures forall i :: 0 <= i < |cs| ==> r[i] <= WEIGHT_MAX
    ensures forall i :: 0 <= i < |cs| ==>
              r[i] == WEIGHT_MAX || exists j :: i < j < |cs| && r[i] == cs[j].weight
    ensures |cs| > 0 ==> r[|cs| - 1] == WEIGHT_MAX
  {
    var n := |cs|;
    forall i | 0 <= i < n
      ensures r[i] == WEIGHT_MAX || exists j :: i < j < n && r[i] == cs[j].weight
    {
      assert r[i] == scan[n - 1 - i];
    }
  }

  /** A successful search: the iteration count and the origins of the
      selected UTXOs, in descending order of effective value. */
  datatype Grind = Grind(iterations: nat, selected: seq<nat>)

  /** `index_to_utxo_list`: the UTXOs at the given positions of `w_utxos`, or
      `None` for an empty list. */
  function IndexToUtxoList(iteration: nat, list: seq<nat>, cs: seq<Candidate>): (r: Option<Grind>)
    requires AllBelow(list, |cs|)
    ensures r.None? <==> list == []
    ensures r.Some? ==> r.value.iterations == iteration && |r.value.selected| == |list|
    ensures r.Some? ==> forall k :: 0 <= k < |list| ==> r.value.selected[k] == cs[list[k]].origin
  {
    if list == [] then None else Some(Grind(iteration, Origins(Pick(cs, list), CandidateOrigin)))
  }

  /** The state at the head of the search loop of `select_coins`: the
      current selection and the best one so far, as positions in the sorted
      candidate list, with their effective-value and weight totals; the next
      position to include; and the iteration count. */
  datatype Search = Search(selection: seq<nat>, amount: int, weight: int,
                           best: seq<nat>, bestAmount: int, bestWeight: int,
                           next: nat, iteration: nat)

  /** What the search loop reads: the sorted candidates, the lookahead and
      minimum-tail-weight tables, and `target + change_target`. */
  datatype Table = Table(cands: seq<Candidate>, lookahead: seq<int>, minTail: seq<int>, totalTarget: int)

  /** The end of one pass of the loop body: go round again, or return. */
  datatype Move = Next(state: Search) | Done(state: Search)

  /** The state before the first pass: nothing selected, the best weight
      set to `max_selection_weight` and the best amount to `Amount::MAX`. */
  function Start(maxWeight: U64): Search
  {
    Search([], 0, 0, [], U64_MAX, maxWeight, 0, 0)
  }

  /** Shape of a loop-head state: every index the loop body uses is in
      bounds, selections list positions in increasing order, and the
      iteration budget is not spent. */
  predicate WellFormed(t: Table, s: Search)
  {
    && |t.lookahead| == |t.cands| && |t.minTail| == |t.cands|
    && s.next < |t.cands|
    && StrictlyIncreasing(s.selection)
    && (forall k :: 0 <= k < |s.selection| ==> s.selection[k] < s.next)
    && StrictlyIncreasing(s.best) && AllBelow(s.best, |t.cands|)
    && s.iteration < ITERATION_LIMIT
  }

  /** Lexicographic improvement: lighter, or as heavy with a smaller amount. */
  predicate Better(w: int, a: int, bestWeight: int, bestAmount: int)
  {
    w < bestWeight || (w == bestWeight && a < bestAmount)
  }

  /** Deselects the last selected position. */
  function Pop(t: Table, s: Search): (r: Search)
    requires s.selection != [] && AllBelow(s.selection, |t.cands|)
    ensures r.selection == s.selection[..|s.selection| - 1]
    ensures r.amount + t.cands[s.selection[|s.selection| - 1]].value == s.amount
    ensures r.weight + t.cands[s.selection[|s.selection| - 1]].weight == s.weight
    ensures r.best == s.best && r.bestAmount == s.bestAmount && r.bestWeight == s.bestWeight
    ensures r.next == s.next && r.iteration == s.iteration
  {
    var last := s.selection[|s.selection| - 1];
    s.(selection := s.selection[..|s.selection| - 1],
       amount := s.amount - t.cands[last].value,
       weight := s.weight - t.cands[last].weight)
  }

  /** The end of a pass of the loop body: after a cut, deselect the
      position just included and shift; on a shift, return when nothing is
      left to deselect, otherwise move on to the omission branch of the last
      selected position. */
  function Backtrack(t: Table, s: Search, cut: bool, shift: bool): (r: Move)
    requires s.selection != [] && StrictlyIncreasing(s.selection)
    requires 0 < s.next <= |t.cands| && s.selection[|s.selection| - 1] == s.next - 1
    requires s.next == |t.cands| ==> cut
    ensures r.state.best == s.best && r.state.bestAmount == s.bestAmount && r.state.bestWeight == s.bestWeight
    ensures r.state.iteration == s.iteration
    ensures r.Next? ==> r.state.next < |t.cands| && StrictlyIncreasing(r.state.selection)
    ensures r.Next? ==> forall k :: 0 <= k < |r.state.selection| ==> r.state.selection[k] < r.state.next
  {
    var s1 := if cut then Pop(t, s) else s;
    if !(cut || shift) then Next(s1)
    else if s1.selection == [] then Done(s1)
    else
      var last := s1.selection[|s1.selection| - 1];
      Next(Pop(t, s1).(next := last + 1))
  }

  /** Includes the next position (`selection.push`), adding its effective
      value and weight, and counts the iteration. */
  function Include(t: Table, s: Search): (r: Search)
    requires s.next < |t.cands|
    ensures r.selection == s.selection + [s.next] && r.next == s.next + 1
    ensures r.amount == s.amount + t.cands[s.next].value && r.weight == s.weight + t.cands[s.next].weight
    ensures r.best == s.best && r.bestAmount == s.bestAmount && r.bestWeight == s.bestWeight
    ensures r.iteration == s.iteration + 1
  {
    var c := t.cands[s.next];
    s.(selection := s.selection + [s.next], amount := s.amount + c.value,
       weight := s.weight + c.weight, next := s.next + 1, iteration := s.iteration + 1)
  }

  /** The decisions of one pass about the selection just extended. */
  datatype Verdict = Verdict(cut: bool, shift: bool, record: bool)

  /** The three-way test of a pass, on the selection `s1` obtained by
      including position `n` into a state whose best totals are `bw` and
      `ba`: cut when the lookahead cannot reach the total target; when the
      selection is heavier than the best, cut if no later candidate is
      lighter than the one just included and shift otherwise; when the
      target is reached, shift, and record an improvement. */
  function Assess(t: Table, n: nat, s1: Search, bw: int, ba: int): (r: Verdict)
    requires n < |t.cands| && |t.lookahead| == |t.cands| && |t.minTail| == |t.cands|
    ensures r.record ==> r.shift && s1.amount >= t.totalTarget && Better(s1.weight, s1.amount, bw, ba)
    ensures !(r.cut || r.shift) ==> s1.amount < t.totalTarget
  {
    if s1.amount + t.lookahead[n] < t.totalTarget then Verdict(true, false, false)
    else if s1.weight > bw then
      if t.cands[n].weight <= t.minTail[n] then Verdict(true, false, false) else Verdict(false, true, false)
    else if s1.amount >= t.totalTarget then Verdict(false, true, Better(s1.weight, s1.amount, bw, ba))
    else Verdict(false, false, false)
  }

  /** Makes the current selection the best one when the verdict says so. */
  function Record(s1: Search, record: bool): (r: Search)
    ensures r.selection == s1.selection && r.amount == s1.amount && r.weight == s1.weight
    ensures r.next == s1.next && r.iteration == s1.iteration
    ensures record ==> r.best == s1.selection && r.bestAmount == s1.amount && r.bestWeight == s1.weight
    ensures !record ==> r == s1
  {
    if record then s1.(best := s1.selection, bestAmount := s1.amount, bestWeight := s1.weight) else s1
  }

  /** A pass that returns counts one iteration, keeps the best selection a
      set of candidate positions, and carries on only from a loop-head state. */
  predicate Advances(t: Table, s: Search, r: Outcome<Move>)
  {
    match r
    case Panic => true
    case Return(m) =>
      && m.state.iteration == s.iteration + 1
      && StrictlyIncreasing(m.state.best) && AllBelow(m.state.best, |t.cands|)
      && (m.Next? ==> WellFormed(t, m.state))
  }

  /** One pass of the loop body of `select_coins`: include the next
      candidate, assess the extended selection, stop at the iteration limit,
      treat the last position as a leaf to cut, then backtrack. Additions
      that leave the `Amount` or `Weight` range panic. */
  function Step(t: Table, s: Search): (r: Outcome<Move>)
    requires WellFormed(t, s)
    ensures Advances(t, s, r)
  {
    var n := s.next;
    if s.amount + t.cands[n].value > U64_MAX || s.weight + t.cands[n].weight > U64_MAX then Panic
    else
      var s1 := Include(t, s);
      if s1.amount + t.lookahead[n] > U64_MAX then Panic
      else
        var v := Assess(t, n, s1, s.bestWeight, s.bestAmount);
        var s2 := Record(s1, v.record);
        if s2.iteration >= ITERATION_LIMIT then Return(Done(s2))
        else Return(Backtrack(t, s2, v.cut || s2.next == |t.cands|, v.shift))
  }

  /** The search loop of `select_coins`, run from a loop-head state until
      it returns; the iteration count bounds the recursion. */
  function Run(t: Table, s: Search): (r: Outcome<Search>)
    requires WellFormed(t, s)
    ensures r.Return? ==> s.iteration < r.value.iteration <= ITERATION_LIMIT
    ensures r.Return? ==> StrictlyIncreasing(r.value.best) && AllBelow(r.value.best, |t.cands|)
    decreases ITERATION_LIMIT - s.iteration
  {
    match Step(t, s)
    case Panic => Panic
    case Return(Done(f)) => Return(f)
    case Return(Next(s')) => Run(t, s')
  }

  /** The candidates in the order the search visits them. */
  function Sorted(pool: seq<WeightedUtxo>, ev: EffectiveValue, feeRate: U64): (cs: seq<Candidate>)
    ensures Amount(cs) == Amount(CalcEffectiveValues(pool, ev, feeRate))
  {
    var w := CalcEffectiveValues(pool, ev, feeRate);
    SumOfPermutation(SortAsc(w, GrinderKey), w, CandidateValue);
    SortAsc(w, GrinderKey)
  }

  // ---------------------------------------------------------------------
  // Loop invariant of the search, and what it gives on return.
  // ---------------------------------------------------------------------

  /** A subset of the candidates, listed by increasing position. */
  predicate Subset(t: Table, T: seq<nat>)
  {
    StrictlyIncreasing(T) && AllBelow(T, |t.cands|)
  }

  /** The effective value of the candidates at positions `T`. */
  function SelAmount(t: Table, T: seq<nat>): int
    requires AllBelow(T, |t.cands|)
  {
    Amount(Pick(t.cands, T))
  }

  /** The weight of the candidates at positions `T`. */
  function SelWeight(t: Table, T: seq<nat>): int
    requires AllBelow(T, |t.cands|)
  {
    WeightOf(Pick(t.cands, T))
  }

  /** `T` cannot displace a best selection of weight `bw` and amount `ba`:
      it misses the total target, or it is not better. */
  predicate NoBetter(t: Table, T: seq<nat>, bw: int, ba: int)
    requires AllBelow(T, |t.cands|)
  {
    SelAmount(t, T) >= t.totalTarget ==> !Better(SelWeight(t, T), SelAmount(t, T), bw, ba)
  }

  /** `T` lies in the part of the include-first search tree already left
      behind at selection `S` with next position `n`: it agrees with `S` on
      its first `k` positions and then takes a position that comes before
      the `k`-th of `S` (or before `n`, when `S` has only `k`). */
  predicate Behind(S: seq<nat>, n: nat, T: seq<nat>, k: nat)
  {
    k <= |S| && k < |T| && T[..k] == S[..k] && T[k] < (if k < |S| then S[k] else n)
  }

  /** No subset left behind is better than the best selection. */
  ghost predicate Covered(t: Table, s: Search)
  {
    forall T: seq<nat>, k: nat :: Subset(t, T) && Behind(s.selection, s.next, T, k) ==>
      NoBetter(t, T, s.bestWeight, s.bestAmount)
  }

  /** No subset that lists `P` first is better. */
  ghost predicate ExtensionsCovered(t: Table, P: seq<nat>, bw: int, ba: int)
  {
    forall T: seq<nat> :: Subset(t, T) && |P| <= |T| && T[..|P|] == P ==> NoBetter(t, T, bw, ba)
  }

  /** No subset that lists `S` first and then only positions after `n` is better. */
  ghost predicate SkipsCovered(t: Table, S: seq<nat>, n: nat, bw: int, ba: int)
  {
    forall T: seq<nat> :: Subset(t, T) && |S| < |T| && T[..|S|] == S && T[|S|] > n ==> NoBetter(t, T, bw, ba)
  }

  /** The tables are the ones `select_coins` builds from its candidates:
      positive effective values with a total in range, suffix sums in the
      lookahead table, lower bounds on later weights in the minimum tail
      weight table. */
  predicate TableFacts(t: Table)
  {
    && |t.lookahead| == |t.cands| && |t.minTail| == |t.cands|
    && (forall i :: 0 <= i < |t.cands| ==> t.cands[i].value > 0)
    && (forall i :: 0 <= i < |t.cands| ==> t.lookahead[i] == Amount(t.cands[i + 1..]))
    && (forall i, j :: 0 <= i < j < |t.cands| ==> t.minTail[i] <= t.cands[j].weight)
    && Amount(t.cands) <= U64_MAX
  }

  /** The best selection so far: none, with the initial bounds, or a
      subset reaching the total target whose totals are the recorded ones;
      the recorded weight never exceeds `max_selection_weight`. */
  predicate BestFacts(t: Table, maxWeight: int, best: seq<nat>, bw: int, ba: int)
  {
    && bw <= maxWeight
    && (best == [] ==> bw == maxWeight && ba == U64_MAX)
    && (best != [] ==> Subset(t, best) && bw == SelWeight(t, best) && ba == SelAmount(t, best)
                       && ba >= t.totalTarget)
  }

  /** The bookkeeping part of the loop invariant: the running totals are
      the current selection's, which misses the total target when
      non-empty, and the best selection is as recorded. */
  predicate Tallied(t: Table, maxWeight: int, s: Search)
  {
    && WellFormed(t, s) && TableFacts(t)
    && AllBelow(s.selection, |t.cands|)
    && s.amount == SelAmount(t, s.selection) && s.weight == SelWeight(t, s.selection)
    && (s.selection != [] ==> s.amount < t.totalTarget)
    && BestFacts(t, maxWeight, s.best, s.bestWeight, s.bestAmount)
  }

  /** The invariant at the head of the search loop. */
  ghost predicate Inv(t: Table, maxWeight: int, s: Search)
  {
    Tallied(t, maxWeight, s) && Covered(t, s)
  }

  /** No non-empty subset of the candidates is better than `(bw, ba)`. */
  ghost predicate Optimal(t: Table, bw: int, ba: int)
  {
    forall T: seq<nat> :: Subset(t, T) && T != [] ==> NoBetter(t, T, bw, ba)
  }

  /** What holds of the state the loop returns from: the best selection is
      as recorded, and it is optimal unless the iteration limit stopped the
      search. */
  ghost predicate Finished(t: Table, maxWeight: int, f: Search)
  {
    && BestFacts(t, maxWeight, f.best, f.bestWeight, f.bestAmount)
    && (f.iteration < ITERATION_LIMIT ==> Optimal(t, f.bestWeight, f.bestAmount))
  }

  /** What a pass leads to: a loop-head state keeping the invariant, or a
      returned state as `Finished` describes. */
  ghost predicate Continues(t: Table, maxWeight: int, m: Move)
  {
    match m
    case Next(s) => Inv(t, maxWeight, s)
    case Done(f) => Finished(t, maxWeight, f)
  }

  /** The totals of a subset, split after its first `m` positions. */
  lemma SplitTotals(t: Table, T: seq<nat>, m: nat)
    requires AllBelow(T, |t.cands|) && m <= |T|
    ensures SelAmount(t, T) == SelAmount(t, T[..m]) + SelAmount(t, T[m..])
    ensures SelWeight(t, T) == SelWeight(t, T[..m]) + SelWeight(t, T[m..])
  {
    assert T == T[..m] + T[m..];
    PickAppend(t.cands, T[..m], T[m..]);
    SumOfAppend(Pick(t.cands, T[..m]), Pick(t.cands, T[m..]), CandidateValue);
    SumOfAppend(Pick(t.cands, T[..m]), Pick(t.cands, T[m..]), CandidateWeight);
  }

  /** The totals after appending one position. */
  lemma SnocTotals(t: Table, S: seq<nat>, n: nat)
    requires AllBelow(S, |t.cands|) && n < |t.cands|
    ensures AllBelow(S + [n], |t.cands|)
    ensures SelAmount(t, S + [n]) == SelAmount(t, S) + t.cands[n].value
    ensures SelWeight(t, S + [n]) == SelWeight(t, S) + t.cands[n].weight
  {
    PickAppend(t.cands, S, [n]);
    assert Pick(t.cands, [n]) == [t.cands[n]];
    SumOfSnoc(Pick(t.cands, S), t.cands[n], CandidateValue);
    SumOfSnoc(Pick(t.cands, S), t.cands[n], CandidateWeight);
  }

  /** The tail of a subset after its first `m` positions lies after the
      `m`-th position. */
  lemma TailAfter(T: seq<nat>, m: nat, lo: nat)
    requires StrictlyIncreasing(T) && 0 < m <= |T| && lo <= T[m - 1] + 1
    ensures StrictlyIncreasing(T[m..])
    ensures forall k :: 0 <= k < |T[m..]| ==> lo <= T[m..][k]
  {
    forall k | 0 <= k < |T[m..]|
      ensures lo <= T[m..][k]
    {
      assert T[m..][k] == T[m + k];
      assert T[m - 1] < T[m + k];
    }
  }

  /** The tail of a subset from its `m`-th position on lies at or after
      that position. */
  lemma TailFrom(T: seq<nat>, m: nat, lo: nat)
    requires StrictlyIncreasing(T) && m < |T| && lo <= T[m]
    ensures StrictlyIncreasing(T[m..])
    ensures forall k :: 0 <= k < |T[m..]| ==> lo <= T[m..][k]
  {
    forall k | 0 <= k < |T[m..]|
      ensures lo <= T[m..][k]
    {
      assert T[m..][k] == T[m + k];
      assert k > 0 ==> T[m] < T[m + k];
    }
  }

  /** Totals are never negative. */
  lemma TotalsNonNegative(t: Table, T: seq<nat>)
    requires AllBelow(T, |t.cands|)
    ensures SelAmount(t, T) >= 0 && SelWeight(t, T) >= 0
  {
    SumOfNonNegative(Pick(t.cands, T), CandidateValue);
    SumOfNonNegative(Pick(t.cands, T), CandidateWeight);
  }

  /** A selection whose totals the lookahead cannot lift to the target has
      no extension that reaches it (the lookahead cut). */
  lemma ExtendUnder(t: Table, P: seq<nat>, bw: int, ba: int)
    requires TableFacts(t) && Subset(t, P) && P != []
    requires SelAmount(t, P) + t.lookahead[P[|P| - 1]] < t.totalTarget
    ensures ExtensionsCovered(t, P, bw, ba)
  {
    forall T: seq<nat> | Subset(t, T) && |P| <= |T| && T[..|P|] == P
      ensures NoBetter(t, T, bw, ba)
    {
      ExtendUnderAt(t, P, T);
    }
  }

  lemma ExtendUnderAt(t: Table, P: seq<nat>, T: seq<nat>)
    requires TableFacts(t) && Subset(t, P) && P != []
    requires SelAmount(t, P) + t.lookahead[P[|P| - 1]] < t.totalTarget
    requires Subset(t, T) && |P| <= |T| && T[..|P|] == P
    ensures SelAmount(t, T) < t.totalTarget
  {
    var n := P[|P| - 1];
    assert T[|P| - 1] == T[..|P|][|P| - 1] == n;
    SplitTotals(t, T, |P|);
    TailAfter(T, |P|, n + 1);
    PickSumBound(t.cands, T[|P|..], n + 1, CandidateValue);
  }


  /** A selection heavier than the best has no better extension. */
  lemma ExtendHeavy(t: Table, P: seq<nat>, bw: int, ba: int)
    requires Subset(t, P) && SelWeight(t, P) > bw
    ensures ExtensionsCovered(t, P, bw, ba)
  {
    forall T: seq<nat> | Subset(t, T) && |P| <= |T| && T[..|P|] == P
      ensures NoBetter(t, T, bw, ba)
    {
      SplitTotals(t, T, |P|);
      TotalsNonNegative(t, T[|P|..]);
    }
  }

  /** A selection that is itself no better than the best has no better
      extension: adding candidates adds weight and amount. */
  lemma ExtendReached(t: Table, P: seq<nat>, bw: int, ba: int)
    requires Subset(t, P) && !Better(SelWeight(t, P), SelAmount(t, P), bw, ba)
    ensures ExtensionsCovered(t, P, bw, ba)
  {
    forall T: seq<nat> | Subset(t, T) && |P| <= |T| && T[..|P|] == P
      ensures NoBetter(t, T, bw, ba)
    {
      SplitTotals(t, T, |P|);
      TotalsNonNegative(t, T[|P|..]);
    }
  }

  /** When `S` plus everything after `n` misses the target, so does every
      extension of `S` by positions after `n` (the omission branch of a
      lookahead cut). */
  lemma SkipUnder(t: Table, S: seq<nat>, n: nat, bw: int, ba: int)
    requires TableFacts(t) && Subset(t, S) && n < |t.cands|
    requires SelAmount(t, S) + Amount(t.cands[n + 1..]) < t.totalTarget
    ensures SkipsCovered(t, S, n, bw, ba)
  {
    forall T: seq<nat> | Subset(t, T) && |S| < |T| && T[..|S|] == S && T[|S|] > n
      ensures NoBetter(t, T, bw, ba)
    {
      SplitTotals(t, T, |S|);
      TailFrom(T, |S|, n + 1);
      PickSumBound(t.cands, T[|S|..], n + 1, CandidateValue);
    }
  }

  /** When `S` plus the lightest weight after `n` is heavier than the best,
      so is every extension of `S` by positions after `n` (the omission
      branch of a minimum-tail-weight cut). */
  lemma SkipHeavy(t: Table, S: seq<nat>, n: nat, bw: int, ba: int)
    requires TableFacts(t) && Subset(t, S) && n < |t.cands|
    requires SelWeight(t, S) + t.minTail[n] > bw
    ensures SkipsCovered(t, S, n, bw, ba)
  {
    forall T: seq<nat> | Subset(t, T) && |S| < |T| && T[..|S|] == S && T[|S|] > n
      ensures NoBetter(t, T, bw, ba)
    {
      SplitTotals(t, T, |S|);
      var U := T[|S|..];
      assert U[0] == T[|S|];
      PickSumAtLeastFirst(t.cands, U, CandidateWeight);
    }
  }

  /** A better-or-equal best keeps every subset that was no better no better. */
  lemma CoveredMono(t: Table, T: seq<nat>, bw: int, ba: int, bw2: int, ba2: int)
    requires AllBelow(T, |t.cands|)
    requires NoBetter(t, T, bw, ba) && !Better(bw, ba, bw2, ba2)
    ensures NoBetter(t, T, bw2, ba2)
  {
  }

  /** A listing that starts with `S` and continues with `x` starts with `S + [x]`. */
  lemma PrefixSnoc(T: seq<nat>, S: seq<nat>, x: nat)
    requires |S| < |T| && T[..|S|] == S && T[|S|] == x
    ensures T[..|S| + 1] == S + [x]
  {
    assert T[..|S| + 1] == T[..|S|] + [T[|S|]];
  }

  /** The position before the one where `T` leaves `S` behind is shared
      with `S`, and is smaller. */
  lemma BehindPrevious(S: seq<nat>, b: nat, T: seq<nat>, k: nat)
    requires StrictlyIncreasing(T) && Behind(S, b, T, k) && k > 0
    ensures T[k - 1] == S[k - 1] && T[k - 1] < T[k]
  {
    assert T[..k][k - 1] == T[k - 1];
  }

  /** Left behind after including `n` means left behind before. */
  lemma BehindContinue(S: seq<nat>, n: nat, T: seq<nat>, k: nat)
    requires StrictlyIncreasing(T) && Behind(S + [n], n + 1, T, k)
    ensures Behind(S, n, T, k)
  {
    if k > 0 {
      BehindPrevious(S + [n], n + 1, T, k);
    }
    assert (S + [n])[..k] == S[..k];
  }

  /** Left behind after shifting past `n`: left behind before, or listing
      `S + [n]` first. */
  lemma BehindShift(S: seq<nat>, n: nat, T: seq<nat>, k: nat)
    requires Behind(S, n + 1, T, k)
    ensures Behind(S, n, T, k) || (|S| < |T| && T[..|S| + 1] == S + [n])
  {
    if k == |S| && T[k] == n {
      PrefixSnoc(T, S, n);
    }
  }

  /** Left behind after cutting below the last selected position `p`:
      left behind before, or listing the whole selection first. */
  lemma BehindCut(S: seq<nat>, n: nat, T: seq<nat>, k: nat)
    requires S != [] && Behind(S[..|S| - 1], S[|S| - 1] + 1, T, k)
    ensures Behind(S, n, T, k) || (|S| <= |T| && T[..|S|] == S)
  {
    var P, p := S[..|S| - 1], S[|S| - 1];
    if k < |P| {
      assert S[..k] == P[..k] && S[k] == P[k];
    } else if T[k] < p {
      assert S[..k] == P;
    } else {
      PrefixSnoc(T, P, p);
      assert P + [p] == S;
    }
  }

  /** A non-empty listing is its front followed by its last position. */
  lemma SnocFront(S: seq<nat>)
    requires S != []
    ensures S[..|S| - 1] + [S[|S| - 1]] == S
  {
  }

  lemma CoveredAt(t: Table, s: Search, T: seq<nat>, k: nat, bw2: int, ba2: int)
    requires Covered(t, s) && Subset(t, T) && Behind(s.selection, s.next, T, k)
    requires !Better(s.bestWeight, s.bestAmount, bw2, ba2)
    ensures NoBetter(t, T, bw2, ba2)
  {
    CoveredMono(t, T, s.bestWeight, s.bestAmount, bw2, ba2);
  }

  lemma ExtensionAt(t: Table, P: seq<nat>, T: seq<nat>, bw: int, ba: int)
    requires ExtensionsCovered(t, P, bw, ba) && Subset(t, T) && |P| <= |T| && T[..|P|] == P
    ensures NoBetter(t, T, bw, ba)
  {
  }

  lemma SkipAt(t: Table, S: seq<nat>, n: nat, T: seq<nat>, bw: int, ba: int)
    requires SkipsCovered(t, S, n, bw, ba) && Subset(t, T) && |S| < |T| && T[..|S|] == S && T[|S|] > n
    ensures NoBetter(t, T, bw, ba)
  {
  }

  /** Going down the inclusion branch leaves nothing new behind. */
  lemma CoveredContinue(t: Table, s: Search, s2: Search)
    requires StrictlyIncreasing(s.selection) && forall k :: 0 <= k < |s.selection| ==> s.selection[k] < s.next
    requires s2.selection == s.selection + [s.next] && s2.next == s.next + 1
    requires s2.bestWeight == s.bestWeight && s2.bestAmount == s.bestAmount
    requires Covered(t, s)
    ensures Covered(t, s2)
  {
    forall T: seq<nat>, k: nat | Subset(t, T) && Behind(s2.selection, s2.next, T, k)
      ensures NoBetter(t, T, s2.bestWeight, s2.bestAmount)
    {
      BehindContinue(s.selection, s.next, T, k);
      CoveredAt(t, s, T, k, s2.bestWeight, s2.bestAmount);
    }
  }


  /** Shifting from the inclusion to the omission branch of `n` leaves the
      extensions of the selection with `n` behind. */
  lemma CoveredShift(t: Table, s: Search, s2: Search)
    requires s2.selection == s.selection && s2.next == s.next + 1
    requires !Better(s.bestWeight, s.bestAmount, s2.bestWeight, s2.bestAmount)
    requires Covered(t, s)
    requires ExtensionsCovered(t, s.selection + [s.next], s2.bestWeight, s2.bestAmount)
    ensures Covered(t, s2)
  {
    var S, n := s.selection, s.next;
    forall T: seq<nat>, k: nat | Subset(t, T) && Behind(s2.selection, s2.next, T, k)
      ensures NoBetter(t, T, s2.bestWeight, s2.bestAmount)
    {
      BehindShift(S, n, T, k);
      if Behind(S, n, T, k) {
        CoveredAt(t, s, T, k, s2.bestWeight, s2.bestAmount);
      } else {
        ExtensionAt(t, S + [n], T, s2.bestWeight, s2.bestAmount);
      }
    }
  }


  /** Cutting below the last selected position `p` and shifting to its
      omission branch leaves behind every subset that lists the selection
      first. */
  lemma CoveredCut(t: Table, s: Search, s2: Search)
    requires s.selection != [] && Subset(t, s.selection)
    requires forall k :: 0 <= k < |s.selection| ==> s.selection[k] < s.next
    requires s2.selection == s.selection[..|s.selection| - 1]
    requires s2.next == s.selection[|s.selection| - 1] + 1
    requires !Better(s.bestWeight, s.bestAmount, s2.bestWeight, s2.bestAmount)
    requires Covered(t, s)
    requires ExtensionsCovered(t, s.selection + [s.next], s2.bestWeight, s2.bestAmount)
    requires SkipsCovered(t, s.selection, s.next, s2.bestWeight, s2.bestAmount)
    requires NoBetter(t, s.selection, s2.bestWeight, s2.bestAmount)
    ensures Covered(t, s2)
  {
    var S, n := s.selection, s.next;
    forall T: seq<nat>, k: nat | Subset(t, T) && Behind(s2.selection, s2.next, T, k)
      ensures NoBetter(t, T, s2.bestWeight, s2.bestAmount)
    {
      BehindCut(S, n, T, k);
      if Behind(S, n, T, k) {
        CoveredAt(t, s, T, k, s2.bestWeight, s2.bestAmount);
      } else {
        CutTail(t, s, s2, T);
      }
    }
  }


  /** The subsets that list the whole selection first, after a cut. */
  lemma CutTail(t: Table, s: Search, s2: Search, T: seq<nat>)
    requires s.selection != [] && Subset(t, s.selection) && Subset(t, T)
    requires forall k :: 0 <= k < |s.selection| ==> s.selection[k] < s.next
    requires !Better(s.bestWeight, s.bestAmount, s2.bestWeight, s2.bestAmount)
    requires Covered(t, s)
    requires ExtensionsCovered(t, s.selection + [s.next], s2.bestWeight, s2.bestAmount)
    requires SkipsCovered(t, s.selection, s.next, s2.bestWeight, s2.bestAmount)
    requires NoBetter(t, s.selection, s2.bestWeight, s2.bestAmount)
    requires |s.selection| <= |T| && T[..|s.selection|] == s.selection
    ensures NoBetter(t, T, s2.bestWeight, s2.bestAmount)
  {
    var S, n := s.selection, s.next;
    var m := |S|;
    if |T| == m {
      assert T == S;
    } else if T[m] < n {
      assert Behind(S, n, T, m);
      CoveredAt(t, s, T, m, s2.bestWeight, s2.bestAmount);
    } else if T[m] == n {
      PrefixSnoc(T, S, n);
      ExtensionAt(t, S + [n], T, s2.bestWeight, s2.bestAmount);
    } else {
      SkipAt(t, S, n, T, s2.bestWeight, s2.bestAmount);
    }
  }

  /** Cutting with nothing left selected ends the search with every
      non-empty subset behind. */
  lemma CoveredFinish(t: Table, s: Search, bw2: int, ba2: int)
    requires s.selection == []
    requires !Better(s.bestWeight, s.bestAmount, bw2, ba2)
    requires Covered(t, s)
    requires ExtensionsCovered(t, [s.next], bw2, ba2)
    requires SkipsCovered(t, [], s.next, bw2, ba2)
    ensures Optimal(t, bw2, ba2)
  {
    var n := s.next;
    forall T: seq<nat> | Subset(t, T) && T != []
      ensures NoBetter(t, T, bw2, ba2)
    {
      if T[0] < n {
        assert Behind([], n, T, 0);
        CoveredMono(t, T, s.bestWeight, s.bestAmount, bw2, ba2);
      } else if T[0] == n {
        assert T[..1] == [n];
      } else {
        assert T[..0] == [];
      }
    }
  }

  /** Including the next position keeps the selection's effective value
      plus the lookahead within the total, and its weight within the total
      weight. */
  lemma PushBound(t: Table, S: seq<nat>, n: nat)
    requires TableFacts(t) && Subset(t, S) && n < |t.cands|
    requires forall k :: 0 <= k < |S| ==> S[k] < n
    ensures Subset(t, S + [n])
    ensures SelAmount(t, S + [n]) + t.lookahead[n] <= Amount(t.cands)
    ensures SelAmount(t, S + [n]) <= Amount(t.cands)
    ensures SelWeight(t, S + [n]) <= WeightOf(t.cands)
  {
    SliceSumNonNegative(t.cands, n + 1, |t.cands|, CandidateValue);
    assert t.cands[n + 1..|t.cands|] == t.cands[n + 1..];
    var S' := S + [n];
    StrictlyIncreasingSnoc(S, n);
    assert AllBelow(S', n + 1) by {
      assert forall k :: 0 <= k < |S'| ==> S'[k] < n + 1;
    }
    PickPrefixBound(t.cands, S', n, CandidateValue);
    PickSumBound(t.cands, S', 0, CandidateWeight);
    assert t.cands[0..] == t.cands;
  }

  /** The state `s2` after including position `s.next` into the loop-head
      state `s` and recording: totals kept, best selection as recorded and
      no worse than before. */
  predicate Pushed(t: Table, maxWeight: int, s: Search, s2: Search)
  {
    && s2.selection == s.selection + [s.next] && s2.next == s.next + 1
    && s2.iteration == s.iteration + 1 && s2.iteration < ITERATION_LIMIT
    && Subset(t, s2.selection)
    && s2.amount == SelAmount(t, s2.selection) && s2.weight == SelWeight(t, s2.selection)
    && BestFacts(t, maxWeight, s2.best, s2.bestWeight, s2.bestAmount)
    && StrictlyIncreasing(s2.best) && AllBelow(s2.best, |t.cands|)
    && !Better(s.bestWeight, s.bestAmount, s2.bestWeight, s2.bestAmount)
  }

  /** What the verdict of a pass justifies: every extension of the new
      selection is no better after a cut or a shift, every extension of
      the old selection by later positions is no better after a cut, and
      at the last position the verdict is never to go on. */
  lemma VerdictCovers(t: Table, maxWeight: int, s: Search, s1: Search, v: Verdict, s2: Search)
    requires Inv(t, maxWeight, s)
    requires s.amount + t.cands[s.next].value <= U64_MAX
    requires s1 == Include(t, s) && v == Assess(t, s.next, s1, s.bestWeight, s.bestAmount)
    requires s2 == Record(s1, v.record)
    ensures v.cut || v.shift ==> ExtensionsCovered(t, s1.selection, s2.bestWeight, s2.bestAmount)
    ensures v.cut ==> SkipsCovered(t, s.selection, s.next, s2.bestWeight, s2.bestAmount)
    ensures s.next + 1 == |t.cands| ==> v.cut || v.shift
  {
    var S, n := s.selection, s.next;
    SnocTotals(t, S, n);
    PushBound(t, S, n);
    var S' := s1.selection;
    if n + 1 == |t.cands| {
      assert t.cands[n + 1..] == [];
    }
    if s1.amount + t.lookahead[n] < t.totalTarget {
      ExtendUnder(t, S', s2.bestWeight, s2.bestAmount);
      SkipUnder(t, S, n, s2.bestWeight, s2.bestAmount);
    } else if s1.weight > s.bestWeight {
      ExtendHeavy(t, S', s2.bestWeight, s2.bestAmount);
      if t.cands[n].weight <= t.minTail[n] {
        SkipHeavy(t, S, n, s2.bestWeight, s2.bestAmount);
      }
    } else if s1.amount >= t.totalTarget {
      ExtendReached(t, S', s2.bestWeight, s2.bestAmount);
    }
  }

  /** Including, assessing and recording gives a `Pushed` state. */
  lemma PushedFacts(t: Table, maxWeight: int, s: Search)
    requires Inv(t, maxWeight, s)
    requires s.iteration + 1 < ITERATION_LIMIT
    ensures var s1 := Include(t, s);
            var v := Assess(t, s.next, s1, s.bestWeight, s.bestAmount);
            Pushed(t, maxWeight, s, Record(s1, v.record))
  {
    SnocTotals(t, s.selection, s.next);
    PushBound(t, s.selection, s.next);
  }

  /** Going on down the inclusion branch keeps the invariant. */
  lemma ContinueInv(t: Table, maxWeight: int, s: Search, s2: Search)
    requires Inv(t, maxWeight, s) && Pushed(t, maxWeight, s, s2)
    requires s2.bestWeight == s.bestWeight && s2.bestAmount == s.bestAmount
    requires s2.amount < t.totalTarget && s2.next < |t.cands|
    ensures Inv(t, maxWeight, s2)
  {
    CoveredContinue(t, s, s2);
  }

  /** Shifting to the omission branch of the position just included keeps
      the invariant. */
  lemma ShiftInv(t: Table, maxWeight: int, s: Search, s2: Search, s4: Search)
    requires Inv(t, maxWeight, s) && Pushed(t, maxWeight, s, s2)
    requires ExtensionsCovered(t, s2.selection, s2.bestWeight, s2.bestAmount)
    requires s2.next < |t.cands|
    requires s4 == Pop(t, s2).(next := s.next + 1)
    ensures Inv(t, maxWeight, s4)
  {
    SnocTotals(t, s.selection, s.next);
    assert s4.selection == s.selection;
    CoveredShift(t, s, s4);
  }

  /** Cutting and shifting to the omission branch of the last selected
      position before it keeps the invariant. */
  lemma CutInv(t: Table, maxWeight: int, s: Search, s2: Search, s4: Search)
    requires Inv(t, maxWeight, s) && Pushed(t, maxWeight, s, s2)
    requires ExtensionsCovered(t, s2.selection, s2.bestWeight, s2.bestAmount)
    requires SkipsCovered(t, s.selection, s.next, s2.bestWeight, s2.bestAmount)
    requires s.selection != []
    requires s4 == Pop(t, Pop(t, s2)).(next := s.selection[|s.selection| - 1] + 1)
    ensures Inv(t, maxWeight, s4)
  {
    CutTallied(t, maxWeight, s, s2, s4);
    CoveredCut(t, s, s4);
  }

  lemma CutTallied(t: Table, maxWeight: int, s: Search, s2: Search, s4: Search)
    requires Tallied(t, maxWeight, s) && Pushed(t, maxWeight, s, s2)
    requires s.selection != []
    requires s4 == Pop(t, Pop(t, s2)).(next := s.selection[|s.selection| - 1] + 1)
    ensures Tallied(t, maxWeight, s4)
    ensures s4.selection == s.selection[..|s.selection| - 1]
  {
    var S := s.selection;
    var P, p := S[..|S| - 1], S[|S| - 1];
    SnocTotals(t, S, s.next);
    assert Pop(t, s2).selection == S;
    SnocFront(S);
    SnocTotals(t, P, p);
  }


  /** Cutting with nothing left selected returns an optimal best selection. */
  lemma CutFinish(t: Table, maxWeight: int, s: Search, s2: Search)
    requires Inv(t, maxWeight, s) && Pushed(t, maxWeight, s, s2)
    requires ExtensionsCovered(t, s2.selection, s2.bestWeight, s2.bestAmount)
    requires SkipsCovered(t, s.selection, s.next, s2.bestWeight, s2.bestAmount)
    requires s.selection == []
    ensures Finished(t, maxWeight, Pop(t, s2))
  {
    assert s2.selection == [s.next];
    CoveredFinish(t, s, s2.bestWeight, s2.bestAmount);
  }

  /** The end of a pass keeps the loop invariant, and a return after
      running out of positions returns an optimal best selection. */
  lemma BacktrackInv(t: Table, maxWeight: int, s: Search, s2: Search, cut: bool, shift: bool)
    requires Inv(t, maxWeight, s) && Pushed(t, maxWeight, s, s2)
    requires s2.next == |t.cands| ==> cut
    requires cut || shift ==> ExtensionsCovered(t, s2.selection, s2.bestWeight, s2.bestAmount)
    requires cut ==> SkipsCovered(t, s.selection, s.next, s2.bestWeight, s2.bestAmount)
    requires !(cut || shift) ==> s2.amount < t.totalTarget
    requires !(cut || shift) ==> s2.bestWeight == s.bestWeight && s2.bestAmount == s.bestAmount
    ensures Continues(t, maxWeight, Backtrack(t, s2, cut, shift))
  {
    var m := Backtrack(t, s2, cut, shift);
    if !(cut || shift) {
      ContinueInv(t, maxWeight, s, s2);
    } else if cut {
      if s.selection == [] {
        CutFinish(t, maxWeight, s, s2);
      } else {
        CutInv(t, maxWeight, s, s2, m.state);
      }
    } else {
      ShiftInv(t, maxWeight, s, s2, m.state);
    }
  }

  /** One pass of the loop body keeps the invariant; it panics only when
      the candidates' total weight leaves the `Weight` range, and a return
      is as `Finished` describes. */
  lemma StepInv(t: Table, maxWeight: int, s: Search)
    requires Inv(t, maxWeight, s)
    ensures Step(t, s).Panic? ==> WeightOf(t.cands) > U64_MAX
    ensures Step(t, s).Return? ==> Continues(t, maxWeight, Step(t, s).value)
  {
    if Step(t, s).Panic? {
      StepPanic(t, maxWeight, s);
    } else {
      StepReturn(t, maxWeight, s);
    }
  }

  /** Under the invariant only the weight addition can overflow. */
  lemma StepPanic(t: Table, maxWeight: int, s: Search)
    requires Inv(t, maxWeight, s) && Step(t, s).Panic?
    ensures WeightOf(t.cands) > U64_MAX
  {
    SnocTotals(t, s.selection, s.next);
    PushBound(t, s.selection, s.next);
  }

  /** A step that returns keeps the invariant or finishes. */
  lemma StepReturn(t: Table, maxWeight: int, s: Search)
    requires Inv(t, maxWeight, s) && Step(t, s).Return?
    ensures Continues(t, maxWeight, Step(t, s).value)
  {
    var n := s.next;
    SnocTotals(t, s.selection, n);
    PushBound(t, s.selection, n);
    var s1 := Include(t, s);
    var v := Assess(t, n, s1, s.bestWeight, s.bestAmount);
    var s2 := Record(s1, v.record);
    if s2.iteration >= ITERATION_LIMIT {
      StepDone(t, maxWeight, s, s2);
    } else {
      StepNext(t, maxWeight, s, s2);
      assert Step(t, s) == Return(Backtrack(t, s2, v.cut || s2.next == |t.cands|, v.shift));
    }
  }

  /** The pass that reaches the iteration limit finishes the search. */
  lemma StepDone(t: Table, maxWeight: int, s: Search, s2: Search)
    requires Inv(t, maxWeight, s) && Step(t, s).Return?
    requires s2 == Record(Include(t, s), Assess(t, s.next, Include(t, s), s.bestWeight, s.bestAmount).record)
    requires s2.iteration >= ITERATION_LIMIT
    ensures Step(t, s) == Return(Done(s2)) && Finished(t, maxWeight, s2)
  {
    SnocTotals(t, s.selection, s.next);
    PushBound(t, s.selection, s.next);
  }

  /** A pass below the iteration limit backtracks into a state that keeps
      the invariant, or finishes. */
  lemma StepNext(t: Table, maxWeight: int, s: Search, s2: Search)
    requires Inv(t, maxWeight, s) && s.amount + t.cands[s.next].value <= U64_MAX
    requires s2 == Record(Include(t, s), Assess(t, s.next, Include(t, s), s.bestWeight, s.bestAmount).record)
    requires s2.iteration < ITERATION_LIMIT
    ensures var v := Assess(t, s.next, Include(t, s), s.bestWeight, s.bestAmount);
            Continues(t, maxWeight, Backtrack(t, s2, v.cut || s2.next == |t.cands|, v.shift))
  {
    var s1 := Include(t, s);
    var v := Assess(t, s.next, s1, s.bestWeight, s.bestAmount);
    VerdictCovers(t, maxWeight, s, s1, v, s2);
    PushedFacts(t, maxWeight, s);
    BacktrackInv(t, maxWeight, s, s2, v.cut || s2.next == |t.cands|, v.shift);
  }

  /** At the last position there is nothing after it to skip to. */
  lemma SkipLeaf(t: Table, S: seq<nat>, n: nat, bw: int, ba: int)
    requires n + 1 == |t.cands|
    ensures SkipsCovered(t, S, n, bw, ba)
  {
  }

  /** The loop invariant holds before the first pass. */
  lemma StartInv(t: Table, maxWeight: U64)
    requires TableFacts(t) && |t.cands| > 0
    ensures Inv(t, maxWeight, Start(maxWeight))
  {
  }

  /** The search loop keeps its invariant to the end: it panics only when
      the candidates' total weight leaves the `Weight` range, and it
      returns a state as `Finished` describes. */
  lemma {:induction false} RunInv(t: Table, maxWeight: int, s: Search)
    requires Inv(t, maxWeight, s)
    ensures Run(t, s).Panic? ==> WeightOf(t.cands) > U64_MAX
    ensures Run(t, s).Return? ==> Finished(t, maxWeight, Run(t, s).value)
    decreases ITERATION_LIMIT - s.iteration
  {
    StepInv(t, maxWeight, s);
    match Step(t, s)
    case Panic =>
    case Return(Done(f)) =>
    case Return(Next(s')) => RunInv(t, maxWeight, s');
  }

  // ---------------------------------------------------------------------
  // select_coins
  // ---------------------------------------------------------------------

  /** The effective value of a UTXO where it is defined, zero elsewhere. */
  function EffectiveAmount(ev: EffectiveValue, feeRate: U64, u: WeightedUtxo): int
  {
    if ev(feeRate, u).Some? then ev(feeRate, u).value else 0
  }

  /** The effective value of the UTXOs at the given positions of the pool. */
  function OriginsAmount(pool: seq<WeightedUtxo>, ev: EffectiveValue, feeRate: U64, sel: seq<nat>): int
    requires AllBelow(sel, |pool|)
  {
    if sel == [] then 0
    else EffectiveAmount(ev, feeRate, pool[sel[0]]) + OriginsAmount(pool, ev, feeRate, sel[1..])
  }

  /** The weight of the UTXOs at the given positions of the pool. */
  function OriginsWeight(pool: seq<WeightedUtxo>, sel: seq<nat>): int
    requires AllBelow(sel, |pool|)
  {
    if sel == [] then 0 else pool[sel[0]].weight + OriginsWeight(pool, sel[1..])
  }

  /** A list of candidates points at pool UTXOs with the same totals. */
  lemma {:induction false} OriginsTotals(pool: seq<WeightedUtxo>, ev: EffectiveValue, feeRate: U64, cs: seq<Candidate>)
    requires forall k :: 0 <= k < |cs| ==> Describes(pool, ev, feeRate, cs[k])
    ensures AllBelow(Origins(cs, CandidateOrigin), |pool|)
    ensures OriginsAmount(pool, ev, feeRate, Origins(cs, CandidateOrigin)) == Amount(cs)
    ensures OriginsWeight(pool, Origins(cs, CandidateOrigin)) == WeightOf(cs)
  {
    if cs != [] {
      OriginsTotals(pool, ev, feeRate, cs[1..]);
      assert Origins(cs, CandidateOrigin)[1..] == Origins(cs[1..], CandidateOrigin);
    }
  }

  /** The sorted candidates describe UTXOs of the pool, once each, all
      with positive effective value, and have the totals of the unsorted
      ones. */
  lemma SortedFacts(pool: seq<WeightedUtxo>, ev: EffectiveValue, feeRate: U64)
    ensures var w := CalcEffectiveValues(pool, ev, feeRate);
            var cs := Sorted(pool, ev, feeRate);
            && (forall k :: 0 <= k < |cs| ==> Describes(pool, ev, feeRate, cs[k]) && cs[k].value > 0)
            && Distinct(Origins(cs, CandidateOrigin))
            && Amount(cs) == Amount(w) && WeightOf(cs) == WeightOf(w)
            && SortedBy(cs, GrinderKey)
  {
    var w := CalcEffectiveValues(pool, ev, feeRate);
    var cs := Sorted(pool, ev, feeRate);
    SortedDescribes(pool, ev, feeRate);
    SortedDistinct(pool, ev, feeRate);
    SumOfPermutation(cs, w, CandidateWeight);
  }

  /** Each sorted candidate describes a pool UTXO with a positive effective
      value. */
  lemma SortedDescribes(pool: seq<WeightedUtxo>, ev: EffectiveValue, feeRate: U64)
    ensures var cs := Sorted(pool, ev, feeRate);
            forall k :: 0 <= k < |cs| ==> Describes(pool, ev, feeRate, cs[k]) && cs[k].value > 0
  {
    var w := CalcEffectiveValues(pool, ev, feeRate);
    var cs := Sorted(pool, ev, feeRate);
    forall k | 0 <= k < |cs|
      ensures Describes(pool, ev, feeRate, cs[k]) && cs[k].value > 0
    {
      assert cs[k] in multiset(w);
    }
  }

  /** Sorting keeps the origins distinct. */
  lemma SortedDistinct(pool: seq<WeightedUtxo>, ev: EffectiveValue, feeRate: U64)
    ensures Distinct(Origins(Sorted(pool, ev, feeRate), CandidateOrigin))
  {
    var w := CalcEffectiveValues(pool, ev, feeRate);
    PermutedOrigins(w, SortAsc(w, GrinderKey));
  }

  /** A permutation of candidates with strictly increasing origins has
      distinct origins. */
  lemma PermutedOrigins(w: seq<Candidate>, cs: seq<Candidate>)
    requires StrictlyIncreasing(Origins(w, CandidateOrigin)) && multiset(w) == multiset(cs)
    ensures Distinct(Origins(cs, CandidateOrigin))
  {
    assert Distinct(w) by {
      forall i, j | 0 <= i < j < |w|
        ensures w[i] != w[j]
      {
        assert Origins(w, CandidateOrigin)[i] < Origins(w, CandidateOrigin)[j];
      }
    }
    DistinctPermutation(w, cs);
    var o := Origins(w, CandidateOrigin);
    forall i, j | 0 <= i < j < |cs|
      ensures Origins(cs, CandidateOrigin)[i] != Origins(cs, CandidateOrigin)[j]
    {
      assert cs[i] in multiset(w) && cs[j] in multiset(w);
      var a :| 0 <= a < |w| && w[a] == cs[i];
      var b :| 0 <= b < |w| && w[b] == cs[j];
      assert a != b;
      assert o[a] != o[b];
    }
  }

  /** The tables `select_coins` builds satisfy `TableFacts`. */
  lemma TablesHold(cs: seq<Candidate>, available: int, totalTarget: int)
    requires forall k :: 0 <= k < |cs| ==> cs[k].value > 0
    requires available == Amount(cs) <= U64_MAX
    ensures TableFacts(Table(cs, BuildLookahead(cs, available), BuildMinTailWeight(cs), totalTarget))
  {
    LookaheadIsSuffixSum(cs);
  }

  /** A successful result of `select_coins`: a non-empty list of distinct
      pool positions of UTXOs with positive effective value, in
      non-increasing order of effective value, whose effective value reaches
      the total target and whose weight is within the maximum, found within
      the iteration budget. */
  predicate Grinds(pool: seq<WeightedUtxo>, ev: EffectiveValue, feeRate: U64, totalTarget: int,
                   maxWeight: int, g: Grind)
  {
    && g.selected != [] && g.iterations <= ITERATION_LIMIT
    && Distinct(g.selected) && AllBelow(g.selected, |pool|)
    && (forall k :: 0 <= k < |g.selected| ==> Positive(ev, feeRate, pool[g.selected[k]]))
    && (forall i, j :: 0 <= i < j < |g.selected| ==>
          EffectiveAmount(ev, feeRate, pool[g.selected[i]]) >= EffectiveAmount(ev, feeRate, pool[g.selected[j]]))
    && OriginsAmount(pool, ev, feeRate, g.selected) >= totalTarget
    && OriginsWeight(pool, g.selected) <= maxWeight
  }

  /** No non-empty subset of the candidates that reaches `totalTarget` is
      lighter than `w`, or as light with an effective value below `a`. */
  ghost predicate NoneBetter(cs: seq<Candidate>, totalTarget: int, w: int, a: int)
  {
    forall T: seq<nat> :: StrictlyIncreasing(T) && AllBelow(T, |cs|) && T != [] && Amount(Pick(cs, T)) >= totalTarget
      ==> !Better(WeightOf(Pick(cs, T)), Amount(Pick(cs, T)), w, a)
  }

  /** The best selection of a finished search, read back as pool positions. */
  lemma GrindFacts(pool: seq<WeightedUtxo>, ev: EffectiveValue, feeRate: U64, maxWeight: int, t: Table, f: Search)
    requires t.cands == Sorted(pool, ev, feeRate)
    requires Finished(t, maxWeight, f) && f.iteration <= ITERATION_LIMIT
    requires AllBelow(f.best, |t.cands|)
    ensures f.best != [] ==> Grinds(pool, ev, feeRate, t.totalTarget, maxWeight, Grind(f.iteration, Origins(Pick(t.cands, f.best), CandidateOrigin)))
    ensures var sel := Origins(Pick(t.cands, f.best), CandidateOrigin);
            f.best != [] ==> OriginsWeight(pool, sel) == f.bestWeight && OriginsAmount(pool, ev, feeRate, sel) == f.bestAmount
    ensures f.iteration < ITERATION_LIMIT ==> NoneBetter(t.cands, t.totalTarget, f.bestWeight, f.bestAmount)
  {
    if f.iteration < ITERATION_LIMIT {
      OptimalNoneBetter(t, f.bestWeight, f.bestAmount);
    }
    if f.best != [] {
      BestOrigins(pool, ev, feeRate, maxWeight, t, f);
    }
  }

  lemma BestOrigins(pool: seq<WeightedUtxo>, ev: EffectiveValue, feeRate: U64, maxWeight: int, t: Table, f: Search)
    requires t.cands == Sorted(pool, ev, feeRate)
    requires BestFacts(t, maxWeight, f.best, f.bestWeight, f.bestAmount) && f.iteration <= ITERATION_LIMIT
    requires f.best != []
    ensures Grinds(pool, ev, feeRate, t.totalTarget, maxWeight, Grind(f.iteration, Origins(Pick(t.cands, f.best), CandidateOrigin)))
    ensures var sel := Origins(Pick(t.cands, f.best), CandidateOrigin);
            OriginsWeight(pool, sel) == f.bestWeight && OriginsAmount(pool, ev, feeRate, sel) == f.bestAmount
  {
    var cs := t.cands;
    SortedFacts(pool, ev, feeRate);
    var L := Pick(cs, f.best);
    OriginsTotals(pool, ev, feeRate, L);
    PickedOrigins(pool, ev, feeRate, cs, f.best);
  }

  /** Positions taken in increasing order from the sorted candidates point
      at distinct pool UTXOs, in non-increasing order of effective value. */
  lemma PickedOrigins(pool: seq<WeightedUtxo>, ev: EffectiveValue, feeRate: U64, cs: seq<Candidate>, b: seq<nat>)
    requires forall k :: 0 <= k < |cs| ==> Describes(pool, ev, feeRate, cs[k])
    requires Distinct(Origins(cs, CandidateOrigin)) && SortedBy(cs, GrinderKey)
    requires StrictlyIncreasing(b) && AllBelow(b, |cs|)
    ensures var sel := Origins(Pick(cs, b), CandidateOrigin);
            && AllBelow(sel, |pool|) && Distinct(sel)
            && forall i, j :: 0 <= i < j < |sel| ==>
                 EffectiveAmount(ev, feeRate, pool[sel[i]]) >= EffectiveAmount(ev, feeRate, pool[sel[j]])
  {
    OriginsTotals(pool, ev, feeRate, Pick(cs, b));
    var sel := Origins(Pick(cs, b), CandidateOrigin);
    forall i, j | 0 <= i < j < |sel|
      ensures sel[i] != sel[j]
      ensures EffectiveAmount(ev, feeRate, pool[sel[i]]) >= EffectiveAmount(ev, feeRate, pool[sel[j]])
    {
      assert b[i] < b[j];
      assert Origins(cs, CandidateOrigin)[b[i]] != Origins(cs, CandidateOrigin)[b[j]];
      GrinderKeyOrder(cs[b[i]], cs[b[j]]);
    }
  }

  /** `Optimal` spelled out over the candidate list. */
  lemma OptimalNoneBetter(t: Table, bw: int, ba: int)
    requires Optimal(t, bw, ba)
    ensures NoneBetter(t.cands, t.totalTarget, bw, ba)
  {
    forall T: seq<nat> | StrictlyIncreasing(T) && AllBelow(T, |t.cands|) && T != [] && Amount(Pick(t.cands, T)) >= t.totalTarget
      ensures !Better(WeightOf(Pick(t.cands, T)), Amount(Pick(t.cands, T)), bw, ba)
    {
      assert Subset(t, T) && NoBetter(t, T, bw, ba);
    }
  }

  /** The tables of a search over `cs` whose values sum to `available`. */
  function Setup(cs: seq<Candidate>, available: int, totalTarget: int): (t: Table)
    requires Amount(cs) <= available <= U64_MAX
    ensures t.cands == cs && t.totalTarget == totalTarget
    ensures |t.lookahead| == |t.minTail| == |cs|
    ensures forall k :: 0 <= k < |cs| ==> t.lookahead[k] + Amount(cs[..k + 1]) == available
  {
    Table(cs, BuildLookahead(cs, available), BuildMinTailWeight(cs), totalTarget)
  }

  /** `select_coins`: sum the positive effective values (`None` on
      overflow), sort them by descending effective value and then descending
      weight, build the lookahead and minimum-tail-weight tables, compute
      `target + change_target` (panicking on overflow), give up when the
      total is short, then search. An empty candidate list with a zero total
      target panics at the first index of the loop. A returned selection
      reaches the total target within the maximum weight, and unless the
      iteration budget ran out no non-empty subset of the candidates that
      reaches the total target is lighter, or as light with a smaller
      effective value. */
  function SelectCoins(target: U64, changeTarget: U64, maxWeight: U64, feeRate: U64,
                       pool: seq<WeightedUtxo>, ev: EffectiveValue): (r: Outcome<Option<Grind>>)
    ensures var w := CalcEffectiveValues(pool, ev, feeRate);
            var tt := target + changeTarget;
            && (Amount(w) > U64_MAX ==> r == Return(None))
            && (Amount(w) <= U64_MAX && tt > U64_MAX ==> r == Panic)
            && (tt <= U64_MAX && Amount(w) < tt ==> r == Return(None))
            && (w == [] && tt == 0 ==> r == Panic)
            && (r == Panic ==> tt > U64_MAX || (w == [] && tt == 0) || WeightOf(w) > U64_MAX)
            && (r.Return? && r.value.Some? ==> Grinds(pool, ev, feeRate, tt, maxWeight, r.value.value))
            && (r.Return? && r.value.Some? && r.value.value.iterations < ITERATION_LIMIT ==>
                  NoneBetter(Sorted(pool, ev, feeRate), tt, OriginsWeight(pool, r.value.value.selected),
                             OriginsAmount(pool, ev, feeRate, r.value.value.selected)))
  {
    var w := CalcEffectiveValues(pool, ev, feeRate);
    match CheckedSum(w, CandidateValue, 0)
    case None => Return(None)
    case Some(available) =>
      var cs := SortAsc(w, GrinderKey);
      SortedFacts(pool, ev, feeRate);
      var t := Setup(cs, available, target + changeTarget);
      if t.totalTarget > U64_MAX then Panic
      else if available < t.totalTarget then Return(None)
      else if cs == [] then Panic
      else
        TablesHold(cs, available, t.totalTarget);
        StartInv(t, maxWeight);
        RunInv(t, maxWeight, Start(maxWeight));
        match Run(t, Start(maxWeight))
        case Panic => Panic
        case Return(f) =>
          GrindFacts(pool, ev, feeRate, maxWeight, t, f);
          Return(IndexToUtxoList(f.iteration, f.best, cs))
  }

  /** When the total target is within reach and `select_coins` still
      returns `None`, either the search used up its iteration budget or no
      non-empty subset of the candidates reaches the total target within the
      maximum weight (a subset of exactly the maximum weight whose value is
      `u64::MAX` is never recorded, since it is not better than the initial
      bound). */
  lemma SelectCoinsNone(target: U64, changeTarget: U64, maxWeight: U64, feeRate: U64,
                        pool: seq<WeightedUtxo>, ev: EffectiveValue)
    requires var w := CalcEffectiveValues(pool, ev, feeRate);
             w != [] && target + changeTarget <= Amount(w) <= U64_MAX
    requires SelectCoins(target, changeTarget, maxWeight, feeRate, pool, ev) == Return(None)
    ensures var w := CalcEffectiveValues(pool, ev, feeRate);
            var t := Setup(Sorted(pool, ev, feeRate), Amount(w), target + changeTarget);
            var o := Run(t, Start(maxWeight));
            || NoneBetter(t.cands, t.totalTarget, maxWeight, U64_MAX)
            || (o.Return? && o.value.iteration == ITERATION_LIMIT)
  {
    var w := CalcEffectiveValues(pool, ev, feeRate);
    var cs := Sorted(pool, ev, feeRate);
    SortedFacts(pool, ev, feeRate);
    var t := Setup(cs, Amount(w), target + changeTarget);
    TablesHold(cs, Amount(w), t.totalTarget);
    StartInv(t, maxWeight);
    RunInv(t, maxWeight, Start(maxWeight));
    var o := Run(t, Start(maxWeight));
    if o.Return? && o.value.iteration < ITERATION_LIMIT {
      OptimalNoneBetter(t, o.value.bestWeight, o.value.bestAmount);
    }
  }

  /** Once a best selection is recorded, the search loop never clears it. */
  lemma {:induction false} RunKeepsBest(t: Table, s: Search)
    requires WellFormed(t, s) && s.best != []
    ensures Run(t, s).Return? ==> Run(t, s).value.best != []
    decreases ITERATION_LIMIT - s.iteration
  {
    match Step(t, s)
    case Panic =>
    case Return(Done(f)) =>
    case Return(Next(s')) => RunKeepsBest(t, s');
  }

  /** Against a total target of zero, the first pass records its one
      included candidate when that is lighter than the maximum weight. */
  lemma FirstPassRecords(t: Table, maxWeight: U64)
    requires WellFormed(t, Start(maxWeight)) && t.totalTarget == 0
    requires t.cands[0].weight < maxWeight && 0 <= t.lookahead[0]
    requires t.cands[0].value + t.lookahead[0] <= U64_MAX
    ensures Step(t, Start(maxWeight)).Return? && Step(t, Start(maxWeight)).value.state.best == [0]
  {
    var s1 := Include(t, Start(maxWeight));
    assert s1.selection == [0];
    assert Assess(t, 0, s1, maxWeight, U64_MAX).record;
  }

  /** The search of a zero total target ends with a best selection. */
  lemma ZeroTargetRun(t: Table, maxWeight: U64)
    requires Inv(t, maxWeight, Start(maxWeight)) && WeightOf(t.cands) <= U64_MAX
    requires WellFormed(t, Start(maxWeight)) && t.totalTarget == 0
    requires t.cands[0].weight < maxWeight && 0 <= t.lookahead[0]
    requires t.cands[0].value + t.lookahead[0] <= U64_MAX
    ensures Run(t, Start(maxWeight)).Return? && Run(t, Start(maxWeight)).value.best != []
  {
    var s0 := Start(maxWeight);
    FirstPassRecords(t, maxWeight);
    StepInv(t, maxWeight, s0);
    match Step(t, s0).value
    case Done(f) =>
    case Next(s') =>
      RunInv(t, maxWeight, s');
      RunKeepsBest(t, s');
  }

  /** Over sorted candidates whose first one is lighter than the maximum
      weight, the search for a total target of zero ends with a best
      selection. */
  lemma ZeroTargetTables(cs: seq<Candidate>, available: int, maxWeight: U64)
    requires cs != [] && (forall k :: 0 <= k < |cs| ==> cs[k].value > 0)
    requires available == Amount(cs) <= U64_MAX && WeightOf(cs) <= U64_MAX
    requires cs[0].weight < maxWeight
    ensures var o := Run(Setup(cs, available, 0), Start(maxWeight));
            o.Return? && o.value.best != []
  {
    var t := Setup(cs, available, 0);
    TablesHold(cs, available, 0);
    assert t.lookahead[0] + cs[0].value == available by {
      assert cs[..1] == [cs[0]];
    }
    StartInv(t, maxWeight);
    ZeroTargetRun(t, maxWeight);
  }

  /** With `target` and `change_target` both zero, `select_coins` returns a
      selection whenever every candidate is lighter than the maximum
      weight: the first pass includes the first candidate, reaches the
      total target of zero and records it. */
  lemma ZeroTargetSelects(maxWeight: U64, feeRate: U64, pool: seq<WeightedUtxo>, ev: EffectiveValue)
    requires var w := CalcEffectiveValues(pool, ev, feeRate);
             && w != [] && Amount(w) <= U64_MAX && WeightOf(w) <= U64_MAX
             && forall k :: 0 <= k < |w| ==> w[k].weight < maxWeight
    ensures var r := SelectCoins(0, 0, maxWeight, feeRate, pool, ev);
            r.Return? && r.value.Some?
  {
    var w := CalcEffectiveValues(pool, ev, feeRate);
    var cs := SortAsc(w, GrinderKey);
    SortedFacts(pool, ev, feeRate);
    assert cs[0] in multiset(w);
    ZeroTargetTables(cs, Amount(w), maxWeight);
  }

  /** `select_coins` as its documentation describes it: a zero `target`
      is among the `None` cases, so a returned selection reaches a positive
      target. */
  function SelectCoinsNonZero(target: U64, changeTarget: U64, maxWeight: U64, feeRate: U64,
                              pool: seq<WeightedUtxo>, ev: EffectiveValue): (r: Outcome<Option<Grind>>)
    ensures target == 0 ==> r == Return(None)
    ensures r.Return? && r.value.Some? ==>
              && target > 0
              && Grinds(pool, ev, feeRate, target + changeTarget, maxWeight, r.value.value)
              && OriginsAmount(pool, ev, feeRate, r.value.value.selected) > 0
    ensures target > 0 ==> r == SelectCoins(target, changeTarget, maxWeight, feeRate, pool, ev)
  {
    if target == 0 then Return(None) else SelectCoins(target, changeTarget, maxWeight, feeRate, pool, ev)
  }
}
