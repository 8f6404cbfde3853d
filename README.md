# Backward induction for the sequential Voronoi game

This project models two solvers for the "pick a point on [0, 1]" game.
Players choose positions in turn and see every earlier choice. Each
player's payoff is the length of the part of [0, 1] closer to its position
than to any other player's (a one-dimensional Voronoi cell).

`optiver_q3.py` solves the N-player game by backward induction over a
discretized grid:

- It enumerates every ordering of distinct grid values `x/M` for the first
  N - 1 players (`play_generator`) and filters these seeds on the first
  player's position.
- It extends every seed by all tie-optimal positions of the last player
  (`optimal_path_calculator`). An end gap is worth its full length and an
  interior gap half its length. The new player goes just outside the
  extreme positions (by `e`) or at the gap's midpoint.
- It then repeats, for k = N down to 2 (`recursive_solver`):
  - attach the mean payoff vector to every member of each group of tied
    continuations (`payoff_average_calculator`);
  - pool all members and regroup them by the positions of the first k - 2
    players (`regroup`), with a stable sort and runs of equal keys;
  - in every group, keep the members whose average payoff for player
    k - 2 is within `r` of the group's best (`optimize_groups`).
- The last round's survivors, averaged, are the optimal paths.

`optiver_q2.py` is a two-player variant. It has piecewise formulas for
each player's chance (`P_B_wins`, `P_A_wins`) and a grid search:

- the first maximizing B for every A on the grid (`Tilde_B`);
- the positions A whose chance against that reply is largest (`Tilde_A`).

Players are indices 0 .. N - 1 in move order. A path is a `seq<real>` whose
entry i is player i's position, and a payoff vector is a `seq<real>` of the
same length. Positions and payoffs are exact reals. The tolerances `e` and
`r` are parameters; the source fixes them to positive constants
(optiver_q3.py:221-222), and the model requires `r >= 0`.

Every core function of the source has a specification function (for
example `Voronoi.Payoff`, `Regrouping.Regrouped`, `Solver.Solved`), and
lemmas state what the source promises about it. The source functions that
work by loops or by recursion also have a method that follows their steps
and is proved equal to the specification function:

| source | method | specification |
|---|---|---|
| `payoff_calculator` | `Voronoi.PayoffCalculator` | `Voronoi.Payoff` |
| `play_generator` | `Seeds.PlayGenerator` | `Seeds.Arrangements` |
| `optimal_path_calculator` | `Response.OptimalPathCalculator` | `Response.BestResponses` |
| `regroup` | `Regrouping.Regroup` | `Regrouping.Regrouped` |
| `optimize_groups` | `Solver.OptimizeGroups` | `Solver.Optimized` |
| `recursive_solver` | `Solver.RecursiveSolver` | `Solver.Solved` |
| `backwards_solver` | `Pipeline.BackwardsSolver` | `Pipeline.Backwards` |
| the `Tilde_B` and `Tilde_A` script | `TwoPlayer.BestResponseSearch` | `TwoPlayer.BestBs`, `TwoPlayer.BestAs` |

The source functions written as single expressions are functions only:
- `payoff_average_calculator`, a `reduce` and a comprehension, is `Averaging.WithAverage`;
- `P_B_wins` and `P_A_wins`, if-chains, are `TwoPlayer.PBWins` and `TwoPlayer.PAWins`.

The modules follow the program's structure:

| file | module | what |
|---|---|---|
| common.dfy | Common | sums, maxima, the tolerance test, index filters, concatenation |
| voronoi.dfy | Voronoi | `payoff_calculator` |
| seeds.dfy | Seeds | `play_generator` |
| response.dfy | Response | `optimal_path_calculator` |
| averaging.dfy | Averaging | `payoff_average_calculator` |
| regroup.dfy | Regrouping | `regroup` |
| solver.dfy | Solver | `optimize_groups`, `recursive_solver` |
| pipeline.dfy | Pipeline | `backwards_solver`: seed filter, best responses, solver, report |
| q2.dfy | TwoPlayer | `P_B_wins`, `P_A_wins`, `Tilde_B`, `Tilde_A` |

Where the comment and the code of `play_generator` disagree, the model
follows the code. The comment (optiver_q3.py:33) describes the grid as
`i/(M+1)`, but the code (optiver_q3.py:38) builds `x/M` for x = 0 .. M.

An empty result makes the source fail when it indexes `optimal_paths[0]`
(optiver_q3.py:199-200). The model returns `None` in that case and proves
exactly when it happens (`Pipeline.BackwardsNone`).

`TwoPlayer.PBWins` and `TwoPlayer.PAWins` follow the source's if-chain in
order. Their final `else` is unreachable: Dafny checks that one of the
tests always applies.

## Model

| member | source | states |
|---|---|---|
| Common.Max | optiver_q3.py:162 | the maximum bounds every entry and is one of them |
| Common.Within | optiver_q3.py:163-166 | the indices kept by the tolerance filter ascend, and i is kept exactly when entry i is within tol of m |
| Common.WithinAll | optiver_q3.py:163-166 | when every entry is within tol of m, the filter keeps every index, in order |
| Common.NearMax | optiver_q3.py:82 | filtering within tol >= 0 of the maximum keeps at least one index, exactly those within tol of the maximum, in order |
| Common.Pick | optiver_q3.py:167-169 | definition: the entries at the given indices, in their order. The selections it makes are stated by `Solver.Kept` and `Common.NearMax` |
| Voronoi.InsertKey | optiver_q3.py:15 | a stable insertion adds one key, and the keys afterwards are the old ones plus the new one |
| Voronoi.InsertKeySorted | optiver_q3.py:15 | inserting into keys sorted by position keeps them sorted |
| Voronoi.InsertKeyDistinct | optiver_q3.py:15 | inserting a new key keeps the keys distinct |
| Voronoi.InsertKeyStable | optiver_q3.py:15 | inserting a key above all the others into sorted, stable keys keeps keys of equal position in increasing order |
| Voronoi.SortStep | optiver_q3.py:15 | inserting key i into the sorted keys 0 .. i-1 gives the sorted, distinct, stable keys 0 .. i |
| Voronoi.SortKeys | optiver_q3.py:15 | the keys 0 .. n-1, each exactly once, sorted by non-decreasing position, and keys of equal position in increasing order (stable) |
| Voronoi.SortedKeys | optiver_q3.py:15 | `sorted(path, key=path.get)`: a sorted permutation of all the player indices, players at one position kept in move order as Python's stable sort does |
| Voronoi.SortedValues | optiver_q3.py:15 | the positions in non-decreasing order, entry k being the position of the k-th sorted key |
| Voronoi.LowBound | optiver_q3.py:19-27 | definition of `lowbo`: 0 for the lowest rank, otherwise the midpoint with the rank below. `Voronoi.CellAt` relates it to the path |
| Voronoi.UpBound | optiver_q3.py:19-27 | definition of `upbo`: 1 for the highest rank, otherwise the midpoint with the rank above. `Voronoi.CellAt` relates it to the path |
| Voronoi.Cells | optiver_q3.py:19-27 | definition: `upbo - lowbo` for each rank. `Voronoi.CellsSum` proves the cells sum to 1, and `Voronoi.CellWidth` that the loop body computes them |
| Voronoi.Payoff | optiver_q3.py:14-29 | specification of `payoff_calculator`: one entry per player, cell k going to the k-th sorted key. `Voronoi.PayoffCalculator` proves the loop computes it. `Voronoi.PayoffOfRank`, `Voronoi.PayoffSumsToOne` and `Voronoi.PayoffNonNegative` state its meaning |
| Voronoi.CellWidth | optiver_q3.py:19-27 | the three branches of the loop body give `upbo - lowbo`, which equals the k-th cell length |
| Voronoi.Recorded | optiver_q3.py:16-28 | definition of `output` after k passes of the loop: cell j under the j-th sorted key for j < k, 0 elsewhere |
| Voronoi.RecordedEnds | optiver_q3.py:16-29 | before the loop nothing is recorded, and after all passes the record is the payoff vector `Payoff(p)` |
| Voronoi.RecordCell | optiver_q3.py:28 | one pass of the loop extends the record of k passes to the record of k + 1 passes, putting cell k under `sorted_keys[k]` |
| Voronoi.PayoffCalculator | optiver_q3.py:14-29 | the loop's output is the Voronoi payoff vector `Payoff(p)` |
| Voronoi.CellAt | optiver_q3.py:19-27 | cell k is the upper bound minus the lower bound, with 0 and 1 at the ends and neighbour midpoints elsewhere |
| Voronoi.ScatterAt | optiver_q3.py:28 | with distinct keys, the entry of key `ks[k]` ends up holding cell k |
| Voronoi.ScatterUntouched | optiver_q3.py:16 | an index that is no key keeps its initial value |
| Voronoi.ScatterSum | optiver_q3.py:17-28 | with distinct keys, the output sums to the sum of the cells |
| Voronoi.CellsPrefixSum | optiver_q3.py:19-27 | the first m cells of sorted positions telescope to the midpoint of v[m-1] and v[m] |
| Voronoi.CellsSum | optiver_q3.py:19-27 | the cells of two or more sorted positions sum to 1 |
| Voronoi.PayoffSumsToOne | optiver_q3.py:14-29 | with at least two players the payoffs sum to 1 |
| Voronoi.PayoffOfRank | optiver_q3.py:19-28 | the player of rank k gets its cell's upper bound minus its lower bound |
| Voronoi.RankOf | optiver_q3.py:15 | every player has a rank k in the sorted order, holding its position |
| Voronoi.DistinctIncreasing | optiver_q3.py:15 | distinct positions sort into a strictly increasing sequence |
| Voronoi.PayoffNonNegative | optiver_q3.py:15-28 | with positions in [0, 1] no payoff is negative, and with distinct positions every payoff is positive |
| Voronoi.PayoffLowest | optiver_q3.py:19-21 | the lowest player gets [0, midpoint to its upper neighbour] |
| Voronoi.PayoffHighest | optiver_q3.py:22-24 | the highest player gets [midpoint to its lower neighbour, 1] |
| Voronoi.PayoffInterior | optiver_q3.py:25-27 | an interior player gets the span between its two neighbour midpoints |
| Seeds.Grid | optiver_q3.py:38 | definition: the M + 1 values x/M. `Seeds.GridIncreasing` proves them strictly ascending within [0, 1] |
| Seeds.GridIncreasing | optiver_q3.py:38 | the grid is strictly increasing, hence distinct, and lies in [0, 1] |
| Seeds.RemoveMember | optiver_q3.py:39 | removing entry i of distinct values leaves exactly the other values |
| Seeds.Arrangements | optiver_q3.py:39 | definition of `permutations(vals, m)`: each value in turn followed by the arrangements of the others. `Seeds.ArrangementsExact` characterizes its members and `Seeds.ArrangementsCount` counts them |
| Seeds.ArrangementsSound | optiver_q3.py:39 | every arrangement has length m, distinct entries, all drawn from the values |
| Seeds.ArrangementsComplete | optiver_q3.py:39 | every sequence of m distinct values is an arrangement |
| Seeds.ArrangementsExact | optiver_q3.py:39 | a path is an arrangement exactly when it has length m and distinct entries drawn from the values |
| Seeds.ArrangementsCount | optiver_q3.py:39 | there are n (n-1) ... (n-m+1) arrangements |
| Seeds.FallingFact | optiver_q3.py:39 | the falling factorial times (n - m)! is n! |
| Seeds.FallingTooMany | optiver_q3.py:39 | no arrangements of more values than there are |
| Seeds.GridArrangementsCount | optiver_q3.py:37-39 | the number of arrangements of m grid values times (M + 1 - m)! is (M + 1)!, and there are none when m > M + 1 |
| Seeds.PlayGenerator | optiver_q3.py:37-44 | the loop lists the arrangements of N - 1 grid values: exactly the distinct grid paths of length N - 1, (M+1)!/(M+2-N)! of them |
| Response.GapLow | optiver_q3.py:63-64 | definition of `lobo`: 0 below the lowest position, otherwise the position below gap i |
| Response.GapHigh | optiver_q3.py:66-67 | definition of `upbo`: 1 above the highest position, otherwise the position above gap i |
| Response.GapValue | optiver_q3.py:69-72 | definition of `length`: an end gap's full length, an interior gap's half length. `Response.PlacedPayoff` proves it is what a player placed in the gap earns |
| Response.Gaps | optiver_q3.py:62-80 | definition: the values of the n + 1 gaps, in order. `Response.GapsPositive` proves the best is positive |
| Response.Placement | optiver_q3.py:84-92 | definition: min - e for the lowest gap, max + e for the highest, the midpoint otherwise. `Response.MidpointInside` and `Response.PlacedPayoff` state its meaning |
| Response.Retained | optiver_q3.py:82 | for r >= 0, the kept gaps ascend, and gap i is kept exactly when its value is within r of the best gap's value |
| Response.Extensions | optiver_q3.py:96-99 | each continuation is the input path with one more entry appended: it is one longer, and its first entries are the input path unchanged |
| Response.Positions | optiver_q3.py:84-92 | definition: one `Placement` per kept gap, in the kept order. `Response.PlacedPayoff` and `Response.NewPlayerPayoff` state what each placement earns |
| Response.BestResponses | optiver_q3.py:56-102 | the group holds one continuation and one payoff vector per kept gap |
| Response.GapIntervals | optiver_q3.py:62-80 | the first loop lists the interval of every gap (ends 'zero'/'one', full or half length), and the running `max_len` ends as the largest gap value |
| Response.Placements | optiver_q3.py:84-92 | the second loop puts the new player at min - e, max + e or the midpoint, by the kept interval |
| Response.Extend | optiver_q3.py:94-100 | the third loop builds exactly the extensions and their Voronoi payoffs |
| Response.OptimalPathCalculator | optiver_q3.py:56-102 | the three loops together compute `BestResponses(path, e, r)` |
| Response.GapsPositive | optiver_q3.py:61-80 | the best gap is worth more than 0, so a running maximum that starts at 0 finds it |
| Response.BestResponsesNonEmpty | optiver_q3.py:82 | at least one continuation is produced |
| Response.PlacedPayoff | optiver_q3.py:85-92 | the new player at its placement earns the gap's value, less e/2 in an end gap |
| Response.NewPlayerPayoff | optiver_q3.py:85-100 | the payoff of the new player in continuation j is its kept gap's value, less e/2 at an end |
| Response.NewLowest | optiver_q3.py:86-87 | a new lowest player earns [0, midpoint to the old lowest] |
| Response.NewHighest | optiver_q3.py:89-90 | a new highest player earns [midpoint to the old highest, 1] |
| Response.NewInterior | optiver_q3.py:91-92 | a new player strictly inside a gap earns the span between the two new midpoints |
| Response.MidpointInside | optiver_q3.py:92 | the midpoint of an interior gap between distinct positions lies strictly inside it |
| Averaging.Add | optiver_q3.py:107 | definition: element-wise sum, a missing entry counting as 0. `Averaging.CounterAddOf` proves it equals `Counter` addition on vectors of positive entries |
| Averaging.Total | optiver_q3.py:107 | definition of `reduce(add, ...)` as a left fold of `Add`, as wide as the widest vector. `Averaging.TotalIsColumnSum` proves it holds the column sums |
| Averaging.Mean | optiver_q3.py:107-108 | definition: the fold divided by the group size. `Averaging.MeanAt`, `Averaging.MeanSumsToOne` and `Averaging.MeanOfCopies` state its meaning |
| Averaging.TotalIsColumnSum | optiver_q3.py:107 | the fold of the group's vectors holds, entry by entry, the sum of that column |
| Averaging.MeanAt | optiver_q3.py:108 | each entry of the mean is the column sum divided by the group size |
| Averaging.WidthUniform | optiver_q3.py:107 | vectors of one length n give a mean of length n |
| Averaging.WithAverage | optiver_q3.py:105-110 | paths and payoffs unchanged, and one copy of the group's mean per member |
| Averaging.MeanSumsToOne | optiver_q3.py:107-108 | if every member's payoffs sum to 1 then so does the mean |
| Averaging.MeanOfCopies | optiver_q3.py:107-108 | the mean of a group whose members all have one payoff vector is that vector |
| Averaging.CounterAdd | optiver_q3.py:107 | definition of `Counter` addition: every key of either operand with its summed count, kept only when that sum is positive. `Averaging.CounterAddOf` relates it to `Add` |
| Averaging.CounterTotal | optiver_q3.py:107 | definition of `reduce(add, map(Counter, ...))`. `Averaging.CounterTotalAgrees` proves it equals `Total` for positive payoffs |
| Averaging.CounterAddOf | optiver_q3.py:107 | Counter addition of two vectors with positive entries drops no key and equals their element-wise sum |
| Averaging.CounterTotalAgrees | optiver_q3.py:107 | with positive payoffs the Counter fold equals the element-wise total, which stays positive |
| Regrouping.Zip | optiver_q3.py:119-123 | definition of `zip` over a group's three lists, as many triples as the shortest list. `Regrouping.ZipUnzip` proves it undoes `Unzip` |
| Regrouping.Unzip | optiver_q3.py:143-146 | definition: three lists of one length holding the triples' parts in order. `Regrouping.ZipUnzip` proves `Zip` undoes it |
| Regrouping.Flatten | optiver_q3.py:118-126 | definition of the pool: the triples of every group, group after group. `Regrouping.RegroupedPartition` proves the regrouping keeps every one |
| Regrouping.Key | optiver_q3.py:129-134 | definition of the sort and grouping key: the positions of the first k - 2 players, as a list. `Regrouping.SortSorted` and `Regrouping.RunsConstant` state how it orders and groups the pool |
| Regrouping.ZipUnzip | optiver_q3.py:128 | zipping the three aggregator lists gives back the pooled triples |
| Regrouping.LexIrreflexive | optiver_q3.py:134 | the key comparison (Python list order) is irreflexive |
| Regrouping.LexTransitive | optiver_q3.py:134 | ... transitive |
| Regrouping.LexTotal | optiver_q3.py:134 | ... and total: a strict total order on keys |
| Regrouping.SortByKey | optiver_q3.py:134 | the sort is a permutation of the pool |
| Regrouping.SortSorted | optiver_q3.py:134 | the sorted pool's keys never decrease |
| Regrouping.SortStable | optiver_q3.py:134 | the sort is stable: the triples of any one key keep their pooled order |
| Regrouping.Runs | optiver_q3.py:131-136 | `groupby` yields non-empty runs |
| Regrouping.RunsConcat | optiver_q3.py:131-136 | the runs concatenate back to the sorted pool |
| Regrouping.RunsConstant | optiver_q3.py:133-135 | all members of a run share its first member's key |
| Regrouping.RunsMaximal | optiver_q3.py:133-135 | neighbouring runs have different keys |
| Regrouping.RunsAscending | optiver_q3.py:131-136 | on a sorted pool the runs' keys strictly ascend |
| Regrouping.SelectRuns | optiver_q3.py:131-136 | a run is exactly the triples of the pool with its key |
| Regrouping.RunsOfEqualKeys | optiver_q3.py:129-136 | with the empty prefix (k = 2) there is one run, or none for an empty pool |
| Regrouping.RegroupedGroups | optiver_q3.py:113-151 | each group is exactly the pooled triples sharing its prefix, in pooled order, and the groups' prefixes strictly ascend |
| Regrouping.RegroupedPartition | optiver_q3.py:118-136 | the groups together hold every pooled triple, each as often as the pool does |
| Regrouping.RegroupedSingle | optiver_q3.py:129-136 | with k = 2 a non-empty pool gives exactly one group |
| Regrouping.SelectEmptyKey | optiver_q3.py:129-136 | with the key of no players every triple has the same key, so all are selected |
| Regrouping.FlattenOne | optiver_q3.py:118-126 | the pool of a single group is that group's triples |
| Regrouping.UnzipZip | optiver_q3.py:143-146 | unzipping the triples of a group with equal-length lists gives the group back |
| Regrouping.RegroupSingleGroup | optiver_q3.py:113-151 | regrouping a single group with k = 2 returns that group unchanged |
| Regrouping.Regrouped | optiver_q3.py:113-151 | specification of `regroup`: the pool sorted by key, split into runs of equal keys, each run unzipped. `Regrouping.RegroupedGroups` and `Regrouping.RegroupedPartition` state its meaning, and `Regrouping.Regroup` proves the method computes it |
| Regrouping.Pool | optiver_q3.py:118-126 | the first loop's three aggregator lists are the pooled triples, unzipped |
| Regrouping.Rebuild | optiver_q3.py:138-150 | the second loop turns each run back into one group of three lists |
| Regrouping.Regroup | optiver_q3.py:113-151 | `regroup` computes `Regrouped(space, k)` |
| Solver.Scores | optiver_q3.py:161 | definition: the player's entry of every member's average. `Solver.OptimizeGroupKeeps` states the filter applied to it |
| Solver.Kept | optiver_q3.py:162-166 | members kept: non-empty, ascending, exactly those within r of the group's best average for the player |
| Solver.OptimizeGroup | optiver_q3.py:163-169 | a non-empty, order-preserving selection of the group's paths and payoffs |
| Solver.Optimized | optiver_q3.py:157-170 | definition: `OptimizeGroup` for every group, one output per input group. `Solver.OptimizeGroups` proves the loop computes it |
| Solver.OptimizeGroupKeeps | optiver_q3.py:163-166 | a member survives exactly when it is within r of the best, and a best member always survives |
| Solver.OptimizeUniformGroup | optiver_q3.py:161-169 | a group whose members all carry one average keeps every member, in order |
| Solver.OptimizeOne | optiver_q3.py:160-169 | the loop body computes `OptimizeGroup` |
| Solver.OptimizeGroups | optiver_q3.py:154-170 | the loop computes `Optimized(space, k - 2, r)` |
| Solver.WithAverages | optiver_q3.py:175 | definition: `payoff_average_calculator` applied to every group. `Solver.AveragesDrawn` proves it keeps every member |
| Solver.PoolFrom | optiver_q3.py:118-126 | every pooled triple is a member of the space, with an average of length n |
| Solver.RegroupedFrom | optiver_q3.py:131-150 | every regrouped member is a pooled triple, and every group is non-empty with its lists of one length |
| Solver.RegroupedEmpty | optiver_q3.py:113-151 | regrouping gives some group exactly when there was one |
| Solver.RegroupedFilled | optiver_q3.py:175-177 | after averaging and regrouping, every group can be optimized for player k - 2 and holds only members of the space |
| Solver.Next | optiver_q3.py:175-177 | definition of one round: average, regroup by the first k - 2 players, keep the best for player k - 2. `Solver.Round` states its properties, and `Solver.SolveRound` proves the method's three steps compute it |
| Solver.Round | optiver_q3.py:175-177 | a round keeps the space uniform, draws every member from the space, and leaves a group exactly when there was one |
| Solver.Solved | optiver_q3.py:173-182 | the solver ends with exactly one group when it starts with any, none otherwise; each result block carries its own mean; and all result members come from the starting space |
| Solver.AveragesDrawn | optiver_q3.py:179 | averaging draws every member from the averaged space |
| Solver.SolvedSumsToOne | optiver_q3.py:173-182 | if the starting payoffs sum to 1, every reported average sums to 1 |
| Solver.AverageOfAveraged | optiver_q3.py:105-110 | averaging a group whose members already carry its mean changes nothing |
| Solver.NextAveragedGroup | optiver_q3.py:175-177 | a round at k = 2 on one group whose members carry its mean returns that group |
| Solver.SolvedAveragedGroup | optiver_q3.py:173-182 | the solver at k = 2 on such a group returns it with its mean |
| Solver.SolvedUniform | optiver_q3.py:173-182 | the reported group carries its mean, and its paths and payoffs have length n |
| Solver.SolvedIdempotent | optiver_q3.py:173-182 | run again at k = 2 on its own reported group, the solver reports exactly the same result |
| Solver.SolveRound | optiver_q3.py:175-177 | the round's three steps compute `Next` and keep the space uniform |
| Solver.LastRound | optiver_q3.py:178-179 | at k = 2 the survivors averaged are the solver's result |
| Solver.SolvedStep | optiver_q3.py:180-182 | for k > 2 the result is the solver for k - 1 on the survivors |
| Solver.EarlierRound | optiver_q3.py:180-182 | the recursive call computes the result for k > 2 |
| Solver.RecursiveSolver | optiver_q3.py:173-182 | `recursive_solver` computes `Solved(space, n, k, r)`, recursing only on k - 1 |
| Pipeline.Admissible | optiver_q3.py:191-194 | definition of the filter test: the first position is 0 (first question) or at most 1/2 (otherwise). `Pipeline.SeedFilter` proves the filter keeps exactly the seeds that pass it |
| Pipeline.SeedFilter | optiver_q3.py:191-194 | keeps exactly the seeds whose first position is 0 (first question) or at most 1/2 (otherwise) |
| Pipeline.FilteredSeeds | optiver_q3.py:189-194 | the filtered enumeration holds exactly the admissible distinct grid seeds of length N - 1 |
| Pipeline.Admitted | optiver_q3.py:189-194 | the seeds that pass the filter, each of length N - 1 |
| Pipeline.Starts | optiver_q3.py:196 | definition: the best responses to every seed, one group per seed. `Pipeline.StartsUniform` proves the groups non-empty, of length N, with payoffs summing to 1 |
| Pipeline.StartPayoff | optiver_q3.py:96-100 | continuation j of a seed has one more entry, and its payoffs are that path's Voronoi payoffs, summing to 1 |
| Pipeline.StartsUniform | optiver_q3.py:196 | the starting groups are non-empty, of length N, and have payoffs summing to 1 |
| Pipeline.Space | optiver_q3.py:196 | one uniform starting group per admitted seed |
| Pipeline.Optimal | optiver_q3.py:197 | every block of the solver's result carries its own mean |
| Pipeline.StartGroups | optiver_q3.py:196 | the comprehension computes `Starts(seeds, e, r)` |
| Pipeline.Backwards | optiver_q3.py:186-209 | specification of `backwards_solver`: the first optimal group's paths, its average and the reported choices, or None. `Pipeline.BackwardsNone`, `Pipeline.BackwardsPaths`, `Pipeline.BackwardsAverage` and `Pipeline.BackwardsChoices` state its meaning |
| Pipeline.BackwardsSolver | optiver_q3.py:186-209 | the pipeline computes `Backwards`: paths, average and choices of the first optimal group, or None |
| Pipeline.StaircaseAdmitted | optiver_q3.py:189-194 | when N - 1 <= M + 1 the seed 0, 1/M, ... passes either filter |
| Pipeline.AdmittedEmpty | optiver_q3.py:189-194 | no seed survives exactly when N - 1 > M + 1 |
| Pipeline.OptimalCount | optiver_q3.py:197-199 | the solver reports one group when a seed survives, none otherwise |
| Pipeline.BackwardsNone | optiver_q3.py:199-200 | the report is missing exactly when N - 1 > M + 1 |
| Pipeline.StartMember | optiver_q3.py:196 | every starting member is an admitted seed plus one position, with its own Voronoi payoff |
| Pipeline.OptimalMember | optiver_q3.py:197-199 | every optimal member is an admitted seed plus one position, with its own Voronoi payoff |
| Pipeline.OptimalPayoffs | optiver_q3.py:199 | the payoffs of an optimal group are the Voronoi payoffs of its paths, all of length N |
| Pipeline.OptimalSums | optiver_q3.py:200 | every reported average sums to 1 |
| Pipeline.BackwardsPaths | optiver_q3.py:191-199 | a report has paths, each an admitted seed extended by the last player and passing the filter |
| Pipeline.BackwardsAverage | optiver_q3.py:200 | the reported average has N entries summing to 1 and is the mean of the reported paths' Voronoi payoffs |
| Pipeline.Chooser | optiver_q3.py:202-209 | definition: the reported player, `a` (index 0) for the `question_1=False` runs (questions 2 and 3) and `b` (index 1) for the `question_1=True` run (question 1) |
| Pipeline.Choices | optiver_q3.py:203-209 | definition of `set([x[...] for x in path_group])`. `Pipeline.ChoicesOf` proves it holds exactly the reported player's positions |
| Pipeline.ChoicesOf | optiver_q3.py:202-209 | the reported choices are non-empty and are exactly the reported player's positions |
| Pipeline.BackwardsChoices | optiver_q3.py:202-209 | the reported choices are non-empty and exactly the positions of the reported player (the first player, or the second for question 1). They are at most 1/2 for the `question_1=False` runs (questions 2 and 3), or non-zero grid values when N >= 3 for the `question_1=True` run (question 1) |
| TwoPlayer.Max3 | optiver_q2.py:8 | `max(A, 1-B, (B-A)/2)`: bounds all three and is one of them |
| TwoPlayer.PBWins | optiver_q2.py:3-14 | definition of `P_B_wins`: its six tests, in source order, with a final case that Dafny proves unreachable. `TwoPlayer.DiagonalB`, `TwoPlayer.LowSum` and `TwoPlayer.TiesToEarlierTest` state its meaning |
| TwoPlayer.PAWins | optiver_q2.py:16-27 | definition of `P_A_wins`, with the same tests. `TwoPlayer.DiagonalA` and `TwoPlayer.LowSum` state its meaning |
| TwoPlayer.DiagonalB | optiver_q2.py:3-14 | `P_B_wins(A, A)` is 0 for A <= 1/2 (the last test) and 1 - A otherwise |
| TwoPlayer.DiagonalA | optiver_q2.py:16-27 | `P_A_wins(A, A)` is 0 |
| TwoPlayer.LowSum | optiver_q2.py:4-7 | for B <= 1/2 and A != B the two formulas sum to B |
| TwoPlayer.TiesToEarlierTest | optiver_q2.py:8-13 | ties among the three maxima go to 1 - B first, then A, then (B - A)/2 |
| TwoPlayer.AVals | optiver_q2.py:30 | definition: x/1000 for x = 0 .. 500. `TwoPlayer.AValsAscending` proves it strictly ascending |
| TwoPlayer.BVals | optiver_q2.py:31 | definition: x/1000 for x = 0 .. 1000, the replies searched in `TwoPlayer.BestBIsFirstMaximizer` |
| TwoPlayer.AValsAscending | optiver_q2.py:30 | the A grid strictly ascends |
| TwoPlayer.Row | optiver_q2.py:36 | definition: `P_B_wins(A, B)` for every B of the grid. `TwoPlayer.BestBIsFirstMaximizer` states what its first maximum is |
| TwoPlayer.FirstMax | optiver_q2.py:37-39 | the first index holding the maximum |
| TwoPlayer.BestB | optiver_q2.py:36-39 | definition: the grid B at the first maximum of the row. `TwoPlayer.BestBIsFirstMaximizer` proves it the smallest maximizer of `P_B_wins(A, ·)` |
| TwoPlayer.BestBs | optiver_q2.py:34-39 | definition of `Tilde_B`: `BestB` for every A of the grid. `TwoPlayer.ReplyTable` proves the loop computes it |
| TwoPlayer.BestBIsFirstMaximizer | optiver_q2.py:36-39 | the reply is a grid B that maximizes `P_B_wins(A, ·)` and is smaller than every other maximizer |
| TwoPlayer.BestReply | optiver_q2.py:36-39 | one pass of the loop computes `BestB(A)` |
| TwoPlayer.ReplyTable | optiver_q2.py:34-39 | the loop computes `Tilde_B` = `BestBs()` |
| TwoPlayer.Candidates | optiver_q2.py:41 | definition: one (A, `P_A_wins(A, Tilde_B[A])`) entry per A. `TwoPlayer.FilteredComplete` characterizes which of them survive |
| TwoPlayer.Filtered | optiver_q2.py:42-44 | definition: the candidates whose chance equals the largest. `TwoPlayer.FilteredComplete` and `TwoPlayer.FilteredOrdered` state its meaning |
| TwoPlayer.BestAs | optiver_q2.py:41-44 | definition of the final `Tilde_A`: the filter against `Tilde_B`. `TwoPlayer.BestResponseSearch` proves the script computes it |
| TwoPlayer.BestPositions | optiver_q2.py:41-44 | the comprehension, maximum and filter compute `Filtered(tildeB)` |
| TwoPlayer.BestResponseSearch | optiver_q2.py:34-44 | the script computes `Tilde_B` and `Tilde_A` |
| TwoPlayer.FilteredOrdered | optiver_q2.py:44 | `Tilde_A` is non-empty and strictly ascending in A |
| TwoPlayer.FilteredSound | optiver_q2.py:42-44 | every entry of `Tilde_A` is a candidate reaching the maximum chance |
| TwoPlayer.FilteredMember | optiver_q2.py:44 | a candidate in `Tilde_A` reaches the maximum |
| TwoPlayer.FilteredReaches | optiver_q2.py:44 | a candidate reaching the maximum is in `Tilde_A` |
| TwoPlayer.FilteredComplete | optiver_q2.py:42-44 | a candidate is in `Tilde_A` exactly when it reaches the maximum |

## Left out

- Console output (the `print` calls of both files), the JSON file write (optiver_q3.py:214-216) and the module-level call (optiver_q3.py:226). None of them affects the computed values.
- IEEE-754 rounding. Positions and payoffs are exact reals, so results such as `0.6699999999999999` (optiver_q3.py:231) are not reproduced.
- Common.Close: `math.isclose` also accepts a relative tolerance of 1e-9. Only the absolute tolerance `r` is modelled.
- Response.Retained, Response.BestResponses, Response.OptimalPathCalculator: they require `r >= 0`. For a negative tolerance `math.isclose` raises a `ValueError` (optiver_q3.py:82); that error path is not modelled. The source passes `r = e/10 > 0` (optiver_q3.py:221-222).
- Averaging.WithAverage: the mean is the exact element-wise mean. The source adds `Counter`s, which drop a key whose running sum is not positive. `Averaging.CounterTotal` models that fold, and `Averaging.CounterTotalAgrees` proves that it agrees with the mean's total whenever all payoffs are positive (the case for distinct positions in [0, 1], by `Voronoi.PayoffNonNegative`). The solver does not carry that positivity through its rounds.
- `deepcopy` and the in-place update of `group['payoff_average']` (optiver_q3.py:97, 109, 160) are value semantics: a new block is returned.
- The four-letter `alphabet` (optiver_q3.py:223) is replaced by player indices, so N is not capped at 4.
- The enumeration order of `itertools.permutations`. `Seeds.Arrangements` fixes one order; the seed set is characterized by membership and count, not by order.
- The concrete results in the comments: those of `backwards_solver` for M = 100, 127 and 200 (optiver_q3.py:226-269), and the `Tilde_A` result for a mesh of width 1000 (optiver_q2.py:47). They are not proved. The first need up to 201 · 200 · 199 seeds; the second needs 501 · 1001 evaluations of `P_B_wins`.
- The unused `grid` (optiver_q2.py:32).
- Seeds.Grid, Seeds.PlayGenerator, Pipeline.Backwards, Pipeline.BackwardsSolver: they require M >= 1, and N >= 1 for the seeds or N >= 2 for the pipeline. The source fails outside that range, and those error paths are not modelled:
  - M = 0 raises a `ZeroDivisionError` at `x/(M)` (optiver_q3.py:38);
  - N = 0 raises a `ValueError` from `permutations(discretized, -1)` (optiver_q3.py:39);
  - N = 1 gives the single empty seed, on which the filter's `x['a']` raises a `KeyError` (optiver_q3.py:192, 194).
  The script calls `backwards_solver` only with M >= 100 and N >= 3 (optiver_q3.py:226-265).
- Regrouping.Key: a path shorter than k - 2 uses its whole path as the key, where the source would raise a `KeyError`. Solver paths always have length n >= k, so this never arises there.
- Solver.Solved, Solver.RecursiveSolver: the space must be uniform of some length n >= k, with every group non-empty and every payoff vector of length n. The source misbehaves outside that case, and `backwards_solver` always provides it.
- Solver.OptimizeGroup: it requires every member's average to have an entry for the player, which the source would otherwise fail on with a `KeyError`.
- Pipeline.Backwards: the printed report (optiver_q3.py:202-212) is returned as a value: the first optimal group's paths, its average and the set of the reported player's positions. The order in which `list(set(...))` prints that set is not modelled.
- Voronoi.Payoff, Voronoi.PayoffCalculator: they require a path that does not have exactly one player. `payoff_calculator` raises an `IndexError` on a one-player path, where it reads `sorted_keys[k+1]` (optiver_q3.py:21). No caller passes one: every path it is given has at least two players.
- Response.BestResponses, Response.OptimalPathCalculator: they require a non-empty path. On the empty path `optimal_path_calculator` raises a `ValueError` at `min(vals)` (optiver_q3.py:87). No caller passes one: every seed has N - 1 >= 1 players.
- Positions outside [0, 1]: a placement `min - e` or `max + e` can leave [0, 1]. The model does not prove that it stays inside, and the payoff lemmas that need [0, 1] say so in their preconditions.
