# Coin selection, modelled in Dafny

This project models the core of `rust-bitcoin-coin-selection`, a Rust crate
that picks which unspent outputs (UTXOs) a wallet spends to pay a target
amount. It proves properties of four algorithms:

- **Coin Grinder** (`src/coin_grinder.rs`, module `CoinGrinder`). This is a
  depth-first include/omit search over the UTXOs with positive effective
  value, sorted by descending effective value. It looks for the selection of
  least total weight whose effective value reaches `target + change_target`,
  within `max_selection_weight` and 100 000 iterations. Its helpers are also
  modelled: the effective-value filter, the lookahead (suffix sum) table, the
  minimum tail weight table and `index_to_utxo_list`. Module
  `CoinGrinderExamples` restates the tests `lookahead`, `min_tail_weight`,
  `insufficient_funds` and the search of `example_solution`, and shows the
  zero-target case described under Findings.
- **Branch and bound with waste** (`src/branch_and_bound.rs`, module
  `BranchAndBound`). This is a depth-first search for a selection whose
  effective value lies in `[target, target + cost_of_change]`. It tracks the
  running waste and keeps the selection of least waste, the last one on ties.
  Module `BranchAndBoundExamples` replays the test `select_coins_bnb_one`, and
  the panic and the empty match described under Findings.
- **The crate root** (`src/lib.rs`, module `CoinSelection`). This covers the
  older API over a `Utxo` trait with `u64` values:
  - the greedy `find_solution`;
  - `select_coins_bnb`, which wraps it;
  - `select_coins_random`, which takes the shortest shuffled prefix that
    reaches the target;
  - the coordinator `select_coins`, which returns a selection of
    `select_coins_bnb` unchanged and otherwise falls back to the random draw.

  Module `CoinSelectionExamples` restates the unit tests of `lib.rs` over the
  model.
- **Single Random Draw** (`src/single_random_draw.rs`, module
  `SingleRandomDraw`). This walks a shuffled pool, adding every UTXO whose
  effective value is defined and not negative. It stops at the first that
  brings the total to `target + CHANGE_LOWER`. The model follows the code.
  A zero target therefore gives a selection, although the documentation
  lists it as a `None` case (see Findings). `SelectCoinsSrdNonZero` is the
  documented behaviour.

`Common` holds what the modules share:
- `Option` and `Outcome`, where `Panic` stands for a Rust panic;
- the `u64`/`i64` bounds and `MAX_MONEY`;
- sums, and picking elements by position.

`Sorting` is a stable insertion sort by an integer key. It stands for
`sort_by_key` and `sort_by`, and `Reverse` stands for `slice::reverse`.

The modules come from different versions of the crate, so each has its own
UTXO record. This version of `lib.rs` defines only `Utxo` and `get_value`.
`WeightedUtxo` and `CHANGE_LOWER`, which the other files import, are not part
of this model. `CHANGE_LOWER` is taken as 50 000 satoshi. The test comment at
`src/single_random_draw.rs:180` calls 1.95 cBTC "2 cBTC - CHANGE_LOWER", which
gives that value.

Modelling conventions:
- **Amounts** are unbounded integers constrained to the `u64` range (`U64`).
  Unchecked `+` and `-` that leave it are modelled as `Panic`, the
  debug-build behaviour. `checked_*` operations and `?` give `None`.
- **Effective value and waste** are computed by rust-bitcoin. They are
  function parameters returning `Option<I64>`, with no formula assumed.
- **Shuffles** are parameters: a permutation of positions (`perm`) for Single
  Random Draw, and any rearrangement with the same multiset (`shuffled`) for
  `select_coins_random`.
- **References into the caller's slice** become positions ("origins") in the
  pool. A vector written back becomes the returned positions, read through
  `Pick`.
- **The two searches** are pure state machines. `Step` is one pass of the
  loop body and `Run` repeats it, decreasing the remaining iteration budget.
  Their loop invariants are predicates that `StepInv` and `RunInv` prove are
  preserved.

## Model

| member | source | states |
|---|---|---|
| Sorting.SortAsc | src/lib.rs:93 | The sort's result is in ascending key order and is a permutation (same multiset) of its input. |
| Sorting.SortAscSorted | src/lib.rs:93 | Sorting a sequence that is already in key order leaves it unchanged. |
| Sorting.Reverse | src/branch_and_bound.rs:186 | Element `i` of the result is element `n-1-i` of the input. |
| Sorting.ReverseMultiset | src/branch_and_bound.rs:186 | Reversing keeps every element as often as it occurs. |
| Common.SumOfPermutation | src/lib.rs:93-95 | A sum does not depend on the order of its terms, so the sorted pool still holds `utxo_sum`, the value `remainder` starts from. |
| Common.PickSubMultiset | src/lib.rs:101-110 | Positions taken in increasing order pick a sub-multiset of the pool. |
| Common.PickSumBound | src/coin_grinder.rs:202-203 | Over non-negative terms, a selection taken in increasing order from position `lo` on sums to at most the total from `lo` on. So the running totals of a search never exceed the pool total. |
| CoinGrinder.CalcEffectiveValues | src/coin_grinder.rs:29-47 | Every entry describes a pool UTXO whose effective value is defined and positive, with that value and its weight. Origins are strictly increasing (slice order, no repeats). Every such UTXO is kept. |
| Common.CheckedSum | src/coin_grinder.rs:125 | `checked_sum` gives `None` exactly when the effective-value total exceeds `u64::MAX`, and the total otherwise. |
| CoinGrinder.GrinderKeyOrder | src/coin_grinder.rs:128 | The sort key orders a before b exactly when a has the larger effective value, or an equal one and a weight at least as large. |
| CoinGrinder.SortedFacts | src/coin_grinder.rs:123-128 | The sorted candidates describe pool UTXOs, each once, all with positive effective value. They have the same total value and weight as before sorting, and are in the comparator's order. |
| CoinGrinder.BuildLookahead | src/coin_grinder.rs:14-27 | The starting amount must cover the candidates' values, since `-=` on `Amount` panics below zero. The table has one entry per candidate, each within the `Amount` range, and entry i plus the value of candidates 0..i is the starting amount. |
| CoinGrinder.LookaheadIsSuffixSum | src/coin_grinder.rs:14-27 | Started from the pool total, entry i is the effective value strictly after position i, and the last entry is 0. |
| CoinGrinder.BuildMinTailWeight | src/coin_grinder.rs:49-59 | Entry i is at most every weight after position i and is either `Weight::MAX` or one of those weights, so it is their minimum. The last entry is `Weight::MAX`. |
| CoinGrinder.MinScan | src/coin_grinder.rs:52-57 | Each entry of the running minimum is at most the start value and every earlier weight, and equals one of them. |
| CoinGrinder.MinTailReversed | src/coin_grinder.rs:51-58 | Reading the running minimum over the reversed weights backwards gives the tail minima. |
| CoinGrinder.IndexToUtxoList | src/coin_grinder.rs:61-79 | `None` exactly for an empty index list. Otherwise the iteration count and, position by position, the origin of each listed candidate. |
| CoinGrinder.Include | src/coin_grinder.rs:200-207 | Including pushes the next position, adds its value and weight to the running totals, advances the index and counts the iteration. The best selection is unchanged. |
| CoinGrinder.Assess | src/coin_grinder.rs:209-227 | A record happens only with a shift, when the selection reaches the total target and is lighter than the best, or as light with a smaller amount. Without a cut or shift the selection is below the total target. |
| CoinGrinder.Record | src/coin_grinder.rs:220-226 | Recording makes the current selection and its totals the best. Otherwise the state is unchanged. |
| CoinGrinder.Backtrack | src/coin_grinder.rs:233-259 | Cut and shift leave the best selection and the iteration count alone. A continuing state keeps its positions strictly increasing and below the next index, which stays in range. |
| CoinGrinder.Step | src/coin_grinder.rs:151-260 | One pass counts one iteration. The best selection stays a strictly increasing list of candidate positions, and a continuing state is well formed. |
| CoinGrinder.Run | src/coin_grinder.rs:151-260 | The loop returns after more iterations than it started with and at most `ITERATION_LIMIT`, with a best selection of increasing candidate positions. |
| CoinGrinder.StepInv | src/coin_grinder.rs:151-260 | One pass keeps the loop invariant: totals match the selection, the best selection is as recorded, and every subset already left behind is no better than it. It panics only when the candidates' total weight exceeds `Weight::MAX`, and a return is as `Finished` states. |
| CoinGrinder.RunInv | src/coin_grinder.rs:151-260 | The whole loop panics only on a weight overflow. On return the best selection is as recorded and, unless the iteration limit stopped it, no non-empty subset of the candidates that reaches the target is better. |
| CoinGrinder.VerdictCovers | src/coin_grinder.rs:209-245 | Each pruning decision is sound: a cut (lookahead too small, or too heavy with no lighter candidate later) or a shift only skips subsets that are no better than the best one. |
| CoinGrinder.CoveredFinish | src/coin_grinder.rs:247-249 | When the selection empties on a shift, every non-empty subset has been covered, so the best one is optimal. |
| CoinGrinder.TablesHold | src/coin_grinder.rs:130-131 | The lookahead and minimum-tail tables built from the sorted candidates are suffix sums and lower bounds on later weights. |
| CoinGrinder.GrindFacts | src/coin_grinder.rs:229-231 | A finished search's best selection maps back to pool UTXOs with the recorded weight and amount. Before the limit, none is better. |
| CoinGrinder.PickedOrigins | src/coin_grinder.rs:69-72 | The returned UTXOs are distinct pool positions in non-increasing order of effective value. |
| CoinGrinder.SelectCoins | src/coin_grinder.rs:116-261 | It returns `None` when the effective-value sum overflows or is below `target + change_target`. It panics when `target + change_target` overflows, or when the filtered pool is empty with a zero total target (`w_utxos[0]`), and otherwise only on a weight overflow. A result is non-empty, distinct, in descending effective value, reaches the total target, is within the weight limit, and takes at most 100 000 iterations. Below the limit nothing lighter (or as light and cheaper) reaches the target. |
| CoinGrinder.FirstPassRecords | src/coin_grinder.rs:200-226 | Against a total target of zero, the first pass records the first candidate when it is lighter than the maximum weight. |
| CoinGrinder.RunKeepsBest | src/coin_grinder.rs:220-226 | Once a best selection is recorded, the loop never clears it. |
| CoinGrinder.ZeroTargetRun | src/coin_grinder.rs:151-260 | The search for a total target of zero ends with a non-empty best selection. |
| CoinGrinder.ZeroTargetSelects | src/coin_grinder.rs:116-261 | With `target` and `change_target` zero, `select_coins` returns a selection whenever the filtered pool is non-empty, its totals fit, and every candidate is lighter than the maximum weight. |
| CoinGrinder.SelectCoinsNonZero | src/coin_grinder.rs:104-114 | The corrected function: `None` for a zero target; otherwise it is `select_coins`, so a result reaches a positive target within the weight limit. |
| CoinGrinder.SelectCoinsNone | src/coin_grinder.rs:229-231 | A `None` after a search means no non-empty subset within the weight limit beats the initial bounds, or the iteration limit was hit. |
| BranchAndBound.Admit | src/branch_and_bound.rs:171-183 | The filter chain keeps exactly the UTXOs whose effective value and waste are defined and whose effective value is positive, in vector order, with those values. |
| BranchAndBound.OrderedFacts | src/branch_and_bound.rs:185-186 | After `sort_by_key` and `reverse`, the candidates are all admitted UTXOs, each once, in non-increasing effective value, with the same total. |
| BranchAndBound.Rewind | src/branch_and_bound.rs:251-261 | The inner loop stops at the last selected position, having added back the value of every candidate stepped over. |
| BranchAndBound.Retreat | src/branch_and_bound.rs:244-270 | The loop returns exactly when the selection is empty. Otherwise it drops the last selected candidate and moves past it, keeping the best selection. |
| BranchAndBound.Include | src/branch_and_bound.rs:272-290 | Inclusion pushes `index`, adds its value and waste, takes its value from `available_value` and advances; otherwise `?` gives up. |
| BranchAndBound.Record | src/branch_and_bound.rs:226-242 | When the waste `current_waste + (value - target)` is at most `best_waste`, the current selection becomes the best with that waste, so a later selection of equal waste replaces an earlier one. When it is larger, the best and `best_waste` are unchanged. The running state is otherwise unchanged, including `current_waste` after the excess is subtracted again. |
| BranchAndBound.Step | src/branch_and_bound.rs:195-291 | A step counts one iteration, never raises `best_waste`, and replaces the best only by the current selection, whose value is in `[target, upper_bound]`. A step that reaches the recording branch records the selection exactly when its waste is at most `best_waste`; a larger waste leaves the best unchanged in every branch. |
| BranchAndBound.Run | src/branch_and_bound.rs:195-291 | The loop ends within `ITERATION_LIMIT` iterations, with an empty selection if it ended early. |
| BranchAndBound.StepInv | src/branch_and_bound.rs:195-291 | One iteration keeps the invariant: `available_value` is the value from `index` on, `value` and `current_waste` are the selection's, and the best was recorded in range with `best_waste <= MAX_MONEY`. It never panics. |
| BranchAndBound.RunInv | src/branch_and_bound.rs:195-291 | Under the invariant the loop never panics, and its final state keeps the invariant. |
| BranchAndBound.Explore | src/branch_and_bound.rs:168-192 | It returns `None` when `target + cost_of_change` overflows, or the admitted values overflow or sum below `target`. It never panics, and its final state has the invariant. |
| BranchAndBound.SelectCoinsBnb | src/branch_and_bound.rs:145-296 | As written. `None` cases as above. A result lists distinct admitted UTXOs of the vector, in non-increasing effective value, with value in `[target, target + cost_of_change]`, waste plus excess at most `MAX_MONEY`, and at most 100 000 iterations. |
| BranchAndBound.SelectCoinsBnbOrNone | src/branch_and_bound.rs:25-31 | The corrected function: the same guarantees, it never panics, and a match is never empty. |
| BranchAndBound.UnwrapOnlyDifference | src/branch_and_bound.rs:244-248 | The two agree except in two cases. One is where the written one panics, which is exactly when the loop ends with nothing recorded. The other is where it returns an empty match. In both cases the corrected one returns `None`. |
| BranchAndBound.ZeroTargetEmptyMatch | src/branch_and_bound.rs:226-248 | With a zero target, and admitted values summing within `Amount`, the written function records the empty selection in the first iteration and returns `Some(0)`, writing back an empty vector. The corrected one returns `None`. |
| CoinGrinderExamples.Lookahead | src/coin_grinder.rs:328-343 | Over 10, 7, 5 and 4 sat with 26 sat available the lookahead table is 16, 9, 4 and 0 sat. |
| CoinGrinderExamples.MinTailWeight | src/coin_grinder.rs:315-326 | Over weights 36, 40 and 44 wu the minimum tail weights are 40 wu, 44 wu and `Weight::MAX`. |
| CoinGrinderExamples.MinTailOfThree | src/coin_grinder.rs:49-59 | Three candidates whose last two weigh 40 and 44 wu give the table 40, 44, `Weight::MAX` for any first weight. This follows from the contract of `BuildMinTailWeight` alone. |
| CoinGrinderExamples.ExampleCandidates | src/coin_grinder.rs:345-357 | At a zero fee rate the pool of `example_solution` keeps all four UTXOs, in slice order. |
| CoinGrinderExamples.ExampleSetup | src/coin_grinder.rs:345-357 | With 26 sat available and an 11 sat total target, the tables are lookahead 16, 9, 4, 0 and minimum tail weight 4, 4, 8, `Weight::MAX` wu. |
| CoinGrinderExamples.ExampleRun | src/coin_grinder.rs:345-357 | From the start state with a 100 wu maximum, the loop returns after 8 iterations with best positions 1 and 2 (12 sat, 8 wu). |
| CoinGrinderExamples.ExamplePicked | src/coin_grinder.rs:345-357 | Positions 1 and 2 of the sorted candidates are the 7 sat and 5 sat UTXOs, reported with 8 iterations. |
| CoinGrinderExamples.InsufficientFunds | src/coin_grinder.rs:358-372 | 1 and 2 BTC cannot pay 49.5 BTC plus a 1 000 000 sat change target, so `select_coins` returns `None`. |
| CoinGrinderExamples.ZeroTargetExample | src/coin_grinder.rs:114 | A zero target over one 10 sat, 8 wu UTXO with a 100 wu maximum gives a selection; the corrected function gives `None`. |
| BranchAndBoundExamples.SelectCoinsBnbOne | src/branch_and_bound.rs:337-345 | A 1 cBTC target over 1, 2, 3 and 4 cBTC at zero fee writes back only the 1 cBTC UTXO, after 8 iterations. |
| BranchAndBoundExamples.NothingRecordedPanics | src/branch_and_bound.rs:293-295 | A 2 sat target over one 3 sat UTXO panics at the final unwrap; the corrected function returns `None`. |
| BranchAndBoundExamples.ZeroTargetLone | src/branch_and_bound.rs:30 | A zero target over one 3 sat UTXO returns `Some(0)` with no UTXO selected; the corrected function returns `None`. |
| CoinSelection.Pass | src/lib.rs:101-123 | The loop never takes back what it pushed before the current position. Its result extends the positions picked so far and stays within the pool. |
| CoinSelection.PassInvariant | src/lib.rs:101-123 | The loop picks increasing positions whose sum never exceeds `target + cost_of_change`. The sum equals the target on the early return and is below it on `break`. At every visited position, `remainder + curr_sum`, `curr_sum + utxo_value` and `remainder - utxo_value` stay between 0 and the pool total (`NoOverflow`), so no unchecked `u64` operation overflows. |
| CoinSelection.FindSolution | src/lib.rs:78-124 | It panics exactly when the pool total or `target + cost_of_change` overflows. It leaves the pool unsorted with nothing picked exactly when the total is below the target. Otherwise it sorts the pool descending and picks increasing positions within the upper bound, summing to the target on the early return. |
| CoinSelection.SelectCoinsBnb | src/lib.rs:63-76 | As written. It panics exactly as `find_solution` does and leaves the pool a permutation of itself. A result is non-empty, in descending value, a sub-multiset of the pool and within `target + cost_of_change`. It may fall below the target. |
| CoinSelection.SelectCoinsBnbChecked | src/lib.rs:60-76 | The corrected function: a result also reaches the target. |
| CoinSelection.Reach | src/lib.rs:41-51 | The length of the shortest prefix whose sum reaches the target (or the whole length). |
| CoinSelection.TakeWhile | src/lib.rs:41-51 | `take_while` takes exactly that shortest prefix and panics exactly when that prefix's sum overflows. |
| CoinSelection.SelectCoinsRandom | src/lib.rs:36-58 | It returns the shortest prefix of the shuffled pool reaching the target, and `None` exactly when the pool total is below the target. It leaves the pool shuffled and cannot panic when the total fits in `u64`. |
| CoinSelection.SelectCoins | src/lib.rs:20-29 | As written. `None` exactly when the pool total is below the target. A result is a sub-multiset of the pool, which remains a permutation of itself, and there is no panic without overflow. A result below the target is the unchanged selection of `select_coins_bnb` falling short. |
| CoinSelection.SelectCoinsChecked | src/lib.rs:13-17 | The corrected coordinator, built on the corrected `select_coins_bnb`: the same `None` cases, and a result reaches the target. |
| CoinSelection.CoordinatorsAgree | src/lib.rs:20-29 | The written and the corrected coordinators agree exactly when `select_coins_bnb` does not return a selection short of the target. |
| CoinSelectionExamples.BnbOneBtc | src/lib.rs:155-161 | `find_solution_1_btc`: the 1 BTC UTXO. |
| CoinSelectionExamples.BnbTwoBtc | src/lib.rs:163-169 | `find_solution_2_btc`: the 2 BTC UTXO. |
| CoinSelectionExamples.BnbThreeBtc | src/lib.rs:171-178 | `find_solution_3_btc`: the 3 BTC UTXO. |
| CoinSelectionExamples.BnbFourBtc | src/lib.rs:180-187 | `find_solution_4_btc`: the 4 BTC UTXO. |
| CoinSelectionExamples.BnbFiveBtc | src/lib.rs:189-197 | `find_solution_5_btc`: 4 BTC and 1 BTC. |
| CoinSelectionExamples.BnbSixBtc | src/lib.rs:199-207 | `find_solution_6_btc`: 4 BTC and 2 BTC. |
| CoinSelectionExamples.BnbSevenBtc | src/lib.rs:209-217 | `find_solution_7_btc`: 4 BTC and 3 BTC. |
| CoinSelectionExamples.BnbEightBtc | src/lib.rs:219-229 | `find_solution_8_btc`: 4, 3 and 1 BTC. |
| CoinSelectionExamples.BnbNineBtc | src/lib.rs:231-240 | `find_solution_9_btc`: 4, 3 and 2 BTC. |
| CoinSelectionExamples.BnbTenBtc | src/lib.rs:242-252 | `find_solution_10_btc`: all four, in descending order. |
| CoinSelectionExamples.BnbElevenBtcNotPossible | src/lib.rs:254-258 | `None`, pool left unsorted. |
| CoinSelectionExamples.BnbLargeCostOfChange | src/lib.rs:260-267 | 0.9 BTC with cost of change 0.5 BTC: the 1 BTC UTXO. |
| CoinSelectionExamples.BnbNoCostOfChangeNoMatch | src/lib.rs:269-273 | `None`. |
| CoinSelectionExamples.BnbNoMatchTooLarge | src/lib.rs:275-279 | `None`. |
| CoinSelectionExamples.BnbNoMatchTooSmall | src/lib.rs:281-285 | `None`. |
| CoinSelectionExamples.RandomDrawWithSolution | src/lib.rs:287-291 | For every shuffle, a 1 BTC target is met. |
| CoinSelectionExamples.RandomDrawNoSolution | src/lib.rs:293-297 | For every shuffle, 11 BTC gives `None`. |
| CoinSelectionExamples.BnbMatchWithRandom | src/lib.rs:299-303 | For every shuffle, a 1 sat target falls back to the random draw over the sorted pool, which finds a selection. |
| CoinSelectionExamples.SelectCoinsRandomFallback | src/lib.rs:330-340 | The single 50 BTC UTXO is selected by the fallback. |
| CoinSelectionExamples.SelectCoinsRandomFail | src/lib.rs:342-351 | `None`. |
| CoinSelectionExamples.BnbBelowTarget | src/lib.rs:305-320 | As written, the backtrack test's pool yields the single 2 BTC + 1 sat UTXO, below the 4 BTC - 1 sat target. |
| CoinSelectionExamples.BnbCheckedBacktrack | src/lib.rs:305-320 | The corrected function returns `None` there. |
| CoinSelectionExamples.SelectCoinsBelowTarget | src/lib.rs:20-29 | For every shuffle, `select_coins` on the backtrack test's pool returns the single 2 BTC + 1 sat UTXO, below the target. The corrected coordinator returns a selection that reaches it. |
| SingleRandomDraw.Walk | src/single_random_draw.rs:56-75 | Either the whole walk stays below the threshold (`None`), or it stops at the first walk position that reaches it. The selection is then what the walk added so far, and it was below the threshold one step earlier. |
| SingleRandomDraw.SelectCoinsSrd | src/single_random_draw.rs:36-76 | `None` when `target > MAX_MONEY` or the shuffled pool never reaches `target + CHANGE_LOWER`. A result reaches it. |
| SingleRandomDraw.SrdNoneIff | src/single_random_draw.rs:42-44 | `None` exactly when `target > MAX_MONEY` or the whole pool's usable effective value is below `target + CHANGE_LOWER`. |
| SingleRandomDraw.SrdSelection | src/single_random_draw.rs:56-70 | A result selects distinct usable UTXOs in walk order. The UTXO at walk position `iterations` is the last selected. The selection reaches the threshold, and without its last element it does not. |
| SingleRandomDraw.AddedMembership | src/single_random_draw.rs:60-66 | A position is selected exactly when it is walked and its effective value is defined and not negative. |
| SingleRandomDraw.AddedDistinct | src/single_random_draw.rs:46-48 | Walking a permutation selects no UTXO twice. |
| SingleRandomDraw.ValueOfAdded | src/single_random_draw.rs:62-64 | Skipped UTXOs contribute nothing, so the selection's value is the running value. |
| SingleRandomDraw.ValueOfPrefix | src/single_random_draw.rs:64 | The running value never decreases along the walk. |
| SingleRandomDraw.TwoUtxoDraws | src/single_random_draw.rs:146-152 | With the second UTXO walked first, the draw takes it alone when it reaches the threshold, and both at walk position 2 when only together they do. |
| SingleRandomDraw.SrdTwoUtxoExample | src/single_random_draw.rs:119-152 | The constant generator's order [2 cBTC, 1 cBTC]: 1.5 cBTC gives one iteration and the 2 cBTC UTXO; 2.5 cBTC gives two iterations and both. |
| SingleRandomDraw.SrdSkipNegativeExample | src/single_random_draw.rs:177-185 | A UTXO with negative effective value is counted and skipped: three iterations, selecting 2 cBTC and 1 cBTC. |
| SingleRandomDraw.SrdNoOverflow | src/single_random_draw.rs:56-68 | Every running value the walk computes up to its end (or its last iteration) is between 0 and `u64::MAX`, so the `Amount` additions never overflow. The documented "overflow when summing" `None` case cannot occur. |
| SingleRandomDraw.SelectCoinsSrdNonZero | src/single_random_draw.rs:28-35 | The corrected function: `None` for a zero target. Otherwise it is `select_coins_srd`, so a result is a non-empty selection of pool positions reaching `target + CHANGE_LOWER`. |
| SingleRandomDraw.SrdZeroTargetExample | src/single_random_draw.rs:34 | With the test pool, the order [2 cBTC, 1 cBTC] and a zero target, the written function selects the 2 cBTC UTXO in one iteration; the corrected function gives `None`. |

## Left out

- Randomness: `thread_rng`, `StepRng` and `SliceRandom::shuffle` are not modelled. The shuffled order is a parameter. Only the order the test comment at `src/single_random_draw.rs:119-131` describes is used, as an explicit permutation.
- The fee arithmetic of rust-bitcoin (`effective_value`, `waste`, `FeeRate`, `Weight`) is not modelled. These are parameters with no formula, so tests whose outcome depends on the exact fee (for example the Coin Grinder tests at 5 sat/vB) are not restated. The Single Random Draw examples hold for any fee below 1 000 satoshi.
- Release builds wrap unchecked `u64` arithmetic instead of panicking. The model panics instead, which is the debug-build behaviour.
- BranchAndBound.SelectCoinsBnb: the model does not claim the selection has least waste. Waste is an uninterpreted parameter and the contract states only soundness of the result.
- Sorting.SortAsc: the ensures states order and permutation, not the stability that the examples rely on. Stability is fixed by the definition and used by evaluation.
- CoinGrinder.SelectCoinsNone: it does not exclude a subset of exactly `max_selection_weight` whose amount is `u64::MAX`. Such a subset is never recorded, because the initial best amount is `Amount::MAX`.
- The Coin Grinder unit tests at `src/coin_grinder.rs:374-528` are not restated. They need tens of thousands of iterations or concrete fee arithmetic.
- CoinGrinderExamples.ExampleRun: `example_solution` is stated piece by piece. The pieces are the filtered and sorted candidates, the tables, the 8-iteration loop and `index_to_utxo_list`. There is no single lemma about the `SelectCoins` call, because unfolding it over concrete tables exceeds the solver budget of this project.
- The test `select_coins_from_large_utxo_pool` (`src/lib.rs:322-328`) builds 100 000 UTXOs and is not restated.
- References, lifetimes, `IntoIter`, cloning and trait generics are not modelled. Selections are positions into the caller's slice.
- SingleRandomDraw.SelectCoinsSrd: follows the code, not the documentation at `src/single_random_draw.rs:25-27`, which promises `Some` with an empty vector when nothing matches. The code returns `None` then, as the `None` list at 28-35 also says, so the documentation contradicts itself and the model keeps `None` (`SrdNoneIff`).
- SingleRandomDraw.SelectCoinsSrd: the documented "overflow when summing" `None` case at `src/single_random_draw.rs:32` has no code; `SrdNoOverflow` shows the sum cannot overflow.
- `weighted_utxos.to_vec().clear()` (`src/branch_and_bound.rs:194`) clears a temporary copy and has no effect, so the model omits it.

## Findings

| source | as written | input that shows it | evidently intended | confidence | as-written member | corrected member |
|---|---|---|---|---|---|---|
| src/lib.rs:101-123 | `find_solution` keeps a UTXO unless it overshoots the upper bound and never backtracks, so `select_coins_bnb` reports whatever was kept, even below the target | pool [2 BTC + 1, 2 BTC, 2 BTC - 1], target 4 BTC - 1, cost of change 0: returns [2 BTC + 1], one bitcoin short (the test at 305-320 expects two UTXOs) | a returned selection reaches the target (`None` when the pass finds no solution, as the doc comment at 60-62 says) | not executed | CoinSelectionExamples.BnbBelowTarget | CoinSelection.SelectCoinsBnbChecked |
| src/branch_and_bound.rs:247, 294 | `best_selection.unwrap()` panics when the loop ends without recording a selection | one UTXO of effective value 3 sat, target 2 sat, cost of change 0, zero fees | `None`, as the doc comment at 25-27 promises the function never panics | not executed | BranchAndBoundExamples.NothingRecordedPanics | BranchAndBound.SelectCoinsBnbOrNone |
| src/lib.rs:25-26 | `select_coins` returns any selection of `select_coins_bnb` unchanged, so the shortfall of the first row reaches the caller | the pool and target of the first row, any shuffle: returns [2 BTC + 1] | a result reaches the target: the doc comment at 13-17 gives `None` only for a target the pool cannot reach | not executed | CoinSelectionExamples.SelectCoinsBelowTarget | CoinSelection.SelectCoinsChecked |
| src/branch_and_bound.rs:226-248 | with a zero target the first iteration records the empty selection and the function returns `Some(0)`, emptying the vector | one UTXO of effective value 3 sat, target 0, cost of change 0, zero fees | `None`, as the doc comment at 30 promises a non-empty vector on a match | not executed | BranchAndBoundExamples.ZeroTargetLone | BranchAndBound.SelectCoinsBnbOrNone |
| src/coin_grinder.rs:218-226 | with `target` and `change_target` zero the first candidate within the weight limit reaches the total target and is recorded, so the function returns `Some` | one UTXO of 10 sat and 8 wu, zero fee, both targets 0, maximum weight 100 wu | `None`, as the doc comment at 114 lists a zero target among the `None` cases | not executed | CoinGrinderExamples.ZeroTargetExample | CoinGrinder.SelectCoinsNonZero |
| src/single_random_draw.rs:52-68 | the threshold is `target + CHANGE_LOWER`, so a zero target is met by any walk that reaches 50 000 sat and the function returns `Some` | pool [1 cBTC, 2 cBTC] at 204 wu, order [2 cBTC, 1 cBTC], fee rate 10, target 0: returns the 2 cBTC UTXO after one iteration | `None`, as the doc comment at 34 lists a zero target among the `None` cases | not executed | SingleRandomDraw.SrdZeroTargetExample | SingleRandomDraw.SelectCoinsSrdNonZero |
