# Gesture matching engine, modelled in Dafny

This project models the matching core of the `gestures` repository, which recognises hand gestures:

- `dp_time_series_distance` is a bounded-erasure alignment distance between two numeric series. It works like a longest-common-subsequence dynamic programme over a three-dimensional table.
- `gesture_series_dist` is the per-channel wrapper around that distance.
- `DummyDPComparator` is a threshold-based comparator over an append-only store of valid exemplar gestures.
- Two row-level NaN utilities: `erase_nan_prefix_suffix` trims NaN rows off both ends, and `nan_percentage` gives the share of NaN rows.
- `PointsToAnglesTransformer` is the registry of angle descriptions over hand key points.

The Dafny code keeps the source's form:

- The table fill is an imperative method over an `array3`, with the three nested loops, the early `break` and the three `min`-relaxations.
- The per-channel aggregator fills an `array`.
- The comparator and the transformer are classes whose methods update `seq` fields.
- The NaN trim is a pair of `while` loops.

Every method is proved against a specification function. Properties of those functions are proved as lemmas:

- The table is specified by `DpSpec.Best`, a recursive minimum over the three moves into a state.
- `Best` is tied to an independent reading, the cheapest explicit sequence of moves (`DpPaths.Walk`). The two are proved equal in both directions.
- Further lemmas prove nonnegativity, symmetry under swapping the arguments, monotonicity in the budget and both worked examples.

Modules, one per file:

| file | module | models |
|---|---|---|
| `basics.dfy` | `Basics` | `Option`, `Result`, error codes, NaN-or-number samples, `min`/`max` helpers |
| `dp_spec.dfy` | `DpSpec` | states, move guards and costs, `Best`, the loop-point `Expected` value |
| `dp_table.dfy` | `DpTable` | the in-place table fill (lines 49-72 of `dp_dist.py`) |
| `dp_reach.dfy` | `DpReach` | which cells leave the sentinel |
| `dp_paths.dfy` | `DpPaths` | move sequences as an independent reference for `Best` |
| `dp_dist.dfy` | `DpDist` | swap, budget checks, terminal scan, the whole distance |
| `dp_props.dfy` | `DpProps` | nonnegativity, symmetry, budget monotonicity, worked examples |
| `gesture_dist.dfy` | `GestureDist` | `gesture_series_dist` |
| `dummy_dp_comp.dfy` | `DummyDpComp` | `DummyDPComparator` |
| `repr_utils.dfy` | `ReprUtils` | `erase_nan_prefix_suffix`, `nan_percentage` |
| `angles_utils.dfy` | `AnglesUtils` | `PointsToAnglesTransformer`, `angle_between`'s NaN guard |

Modelling choices:

- **Costs are exact `real`s.** A cell that still holds the `1e18` sentinel is `None`. Relaxing out of a sentinel cell leaves the target unchanged, because `min` keeps the value already there.
- **Caller-supplied functions are parameters.** `max_erases` is `Budget`: either `Fixed(n)` or `ByLengths(f)`. `pairwise_distance` and `erase_cost` are function parameters, and their defaults are written out in `DpDist.DefaultPairwise` and `DpDist.DefaultErase`.
- **Raised exceptions become `Failure` values.** Python assertions that fail, and the one numpy error the core can raise, are modelled as `Failure` with an error code:
  - `InvalidBudget`: a negative literal budget;
  - `Incomparable`: the length gap is above the budget;
  - `InvalidThreshold`: the comparator is built with a negative threshold;
  - `WrongPointIndex` and `WrongPointCount`: the transformer's index and point-count checks;
  - `EmptyChannels`: `.max()` of a zero-channel vector, which raises numpy's `ValueError` rather than failing an assertion.
- **A gesture representation is `GestureDist.Repr`,** a time × channels table. The NaN utilities work on rows of `Basics.Sample`, which is either `NaN` or a number.
- **Budget precondition.** The terminal scan divides by `len_a - s` for every scanned `s`, so `len_a - s` must be positive. The budget precondition `DpDist.ScanDefined` requires the resolved budget to stay below the longer length. Without it the source divides by zero (for example, length-1 inputs with the default budget of 10). Every member that computes a distance requires it. A zero-channel gesture computes no distance, so the per-channel wrapper and the comparator accept it whatever the lengths and the budget.

## Model

Paths are relative to the repository root.

| member | source | states |
|---|---|---|
| DpDist.DefaultPairwise | distance/per_series_dist/dp_dist.py:8 | The default pairwise cost is nonnegative, 0 exactly for equal elements, and symmetric. |
| DpDist.DefaultErase | distance/per_series_dist/dp_dist.py:9-10 | The default erase cost is nonnegative. It is 0 at the last index and wherever the next element repeats this one. |
| DpSpec.Best | distance/per_series_dist/dp_dist.py:49-72 | The start cell holds 0, and only a processed state can hold a value. |
| DpDist.CheckedBudget | distance/per_series_dist/dp_dist.py:40-47 | A negative literal budget fails with InvalidBudget. A budget function is applied to (shorter length, longer length). A length gap above the resolved budget fails with Incomparable, and a gap equal to it is accepted. An accepted budget is at least the gap. |
| DpDist.ResolveBudget | distance/per_series_dist/dp_dist.py:40-47 | The budget checks as the function runs them give exactly CheckedBudget. |
| DpDist.ScanMin | distance/per_series_dist/dp_dist.py:74-82 | The scanned minimum is at most every terminal value dp[len_a, s, s + d] / (len_a - s) with s <= k. |
| DpDist.Distance | distance/per_series_dist/dp_dist.py:34-82 | The call fails exactly when the budget checks on the swapped lengths fail, and with their error. |
| DpDist.ScanTerminals | distance/per_series_dist/dp_dist.py:74-82 | The arange bounds reduce to s in [0, M - d]. Given a table holding Best, the scan loop returns the minimum of the terminal values over that range. |
| DpDist.DistanceOnResolved | distance/per_series_dist/dp_dist.py:34-82 | Once the budget resolves to m, the scan is defined and the distance is the scan of the swapped problem with budget m. |
| DpDist.Solve | distance/per_series_dist/dp_dist.py:49-82 | Filling the table and scanning it returns the minimum of the terminal values. |
| DpDist.DpTimeSeriesDistance | distance/per_series_dist/dp_dist.py:5-83 | The whole function returns Distance. On the swapped inputs this is the budget failure or the minimum average cost over the terminal cells. |
| DpTable.ExpectedInitial | distance/per_series_dist/dp_dist.py:49-51 | Before the loops only the start cell is 0 and every other cell holds the sentinel. |
| DpTable.ExpectedAtSelf | distance/per_series_dist/dp_dist.py:53-58 | When the loops reach a processed state, every move into it has already been relaxed, so its cell is final. |
| DpTable.ExpectedStep | distance/per_series_dist/dp_dist.py:58-72 | Relaxing out of (i, s, t) changes exactly the three target cells whose guard holds, each by one min with the source's cost plus the move cost. |
| DpTable.ExpectedRowEnd | distance/per_series_dist/dp_dist.py:57-72 | The end of the b_shift loop is the start of the next a_shift row. |
| DpTable.ExpectedLayerEnd | distance/per_series_dist/dp_dist.py:54-56 | Leaving the a_shift loop, by the break when a_id < a_shift or at its end, starts the next a_id layer. |
| DpTable.ExpectedFinal | distance/per_series_dist/dp_dist.py:53-72 | After the last layer every cell holds Best. |
| DpTable.RelaxMatch | distance/per_series_dist/dp_dist.py:59-62 | The match relaxation into (a_id + 1, a_shift, b_shift) updates only that cell, and only when its guard holds. |
| DpTable.RelaxEraseA | distance/per_series_dist/dp_dist.py:64-67 | The erasure from `a` into (a_id + 1, a_shift + 1, b_shift) updates only that cell, and only when its guard holds. |
| DpTable.RelaxEraseB | distance/per_series_dist/dp_dist.py:69-72 | The erasure from `b` into (a_id, a_shift, b_shift + 1) updates only that cell, and only when its guard holds. |
| DpTable.RelaxFrom | distance/per_series_dist/dp_dist.py:58-72 | One iteration of the innermost loop body moves the table invariant to the next program point. |
| DpTable.FillTable | distance/per_series_dist/dp_dist.py:49-72 | The allocated table has shape (len_a+1, M+1, M+1), and after the loops every cell equals Best. |
| DpReach.ReachableIff | distance/per_series_dist/dp_dist.py:53-72 | A cell leaves the sentinel exactly when its state is in the table, has a_shift <= a_id and its derived b_id is at most len_b. The bound on b_id holds for these reachable states only: the loops also visit processed states past the end of `b`, such as (len_a, 0, M) when M > len_b - len_a, whose cells keep the sentinel. |
| DpPaths.BestBelowEveryWalk | distance/per_series_dist/dp_dist.py:18-23 | No allowed sequence of moves reaches a state more cheaply than its cell. |
| DpPaths.StepBound | distance/per_series_dist/dp_dist.py:59-72 | One allowed move out of a reachable state leads to a reachable cell no dearer than the source plus the move cost. |
| DpPaths.BestIsAttained | distance/per_series_dist/dp_dist.py:18-23 | The value of every reachable cell is the total cost of some allowed sequence of moves ending in its state. |
| DpPaths.LastMove | distance/per_series_dist/dp_dist.py:59-72 | A reachable cell's value comes from the start cell or from one allowed move out of an earlier reachable state. |
| DpProps.ScanMinAttained | distance/per_series_dist/dp_dist.py:74-82 | The scanned minimum is one of the scanned values. |
| DpProps.BestNonNegative | distance/per_series_dist/dp_dist.py:53-72 | With nonnegative costs every reachable cell is nonnegative. |
| DpProps.TerminalNonNegative | distance/per_series_dist/dp_dist.py:74-82 | With nonnegative costs every scanned value is nonnegative. |
| DpProps.DistanceNonNegative | distance/per_series_dist/dp_dist.py:53-82 | With nonnegative costs a successful distance is nonnegative. |
| DpProps.MirrorStep | distance/per_series_dist/dp_dist.py:59-72 | Given mirrored predecessors and a symmetric pairwise cost, cell (i, s, t) of (a, b) equals cell (i - s + t, t, s) of (b, a). |
| DpProps.BestMirror | distance/per_series_dist/dp_dist.py:59-72 | For equal lengths and a symmetric pairwise cost, cell (i, s, t) of (a, b) equals cell (i - s + t, t, s) of (b, a). |
| DpProps.MirrorTerminals | distance/per_series_dist/dp_dist.py:74-82 | For equal lengths, every scanned value of the swapped problem is the same. |
| DpProps.DistanceSwapUnequal | distance/per_series_dist/dp_dist.py:36-38 | For unequal lengths, both argument orders give the same result because of the swap. |
| DpProps.DistanceSwapEqual | distance/per_series_dist/dp_dist.py:53-82 | For equal lengths, an accepted budget and a symmetric pairwise cost, both argument orders give the same distance. |
| DpProps.DistanceSymmetric | distance/per_series_dist/dp_dist.py:36-82 | Swapping the arguments gives the same result, error or value. The pairwise cost must be symmetric only for equal lengths. |
| DpProps.ScanMinSame | distance/per_series_dist/dp_dist.py:74-82 | Equal scanned values give equal minima. |
| DpProps.BestBudgetIndependent | distance/per_series_dist/dp_dist.py:49-72 | A cell whose counters fit a budget holds the same value under every larger budget. |
| DpProps.BudgetIndependentStep | distance/per_series_dist/dp_dist.py:59-72 | If the three source cells agree under both budgets, the target cell agrees too. |
| DpProps.ScanMinMonotone | distance/per_series_dist/dp_dist.py:74-82 | A problem that differs only by a larger budget scans a minimum no greater. |
| DpProps.LargerBudgetNoWorse | distance/per_series_dist/dp_dist.py:53-82 | Raising a literal budget that stays below the longer length keeps the call successful and never increases the distance. |
| DpProps.IdenticalSeriesZero | distance/per_series_dist/dp_dist.py:53-82 | A series compared with itself under any literal budget below its length gives 0. This holds given nonnegative costs and a zero pairwise cost for equal elements. |
| DpProps.DiagonalZero | distance/per_series_dist/dp_dist.py:59-62 | Matching a series with itself costs 0 along the diagonal. |
| DpProps.LowLayersStep | distance/per_series_dist/dp_dist.py:59-72 | Only the match move enters cell (i, 0, 0). Cell (i, 0, 1) is entered by a match or by erasing b[i]. |
| DpProps.OutlierCells | distance/per_series_dist/dp_dist.py:53-72 | In the worked example, cell (4, 0, 1) holds 0.1. |
| DpProps.ExampleEraseOutlier | distance/per_series_dist/dp_dist.py:8-82 | [0,1,5,2,3] against [0,1,2,3] with abs difference, erase cost 0.1 and budget 1 gives 0.025. |
| GestureDist.Column | distance/per_series_dist/gesture_dist.py:24 | `g[:, k]` has one entry per frame, each the k-th entry of its row. |
| GestureDist.ChannelDistances | distance/per_series_dist/gesture_dist.py:22-24 | The vector exists exactly when every channel's distance does. It has one entry per channel of the first representation, and entry k is the distance of column k of the first against column k of the second. |
| GestureDist.GestureSeriesDist | distance/per_series_dist/gesture_dist.py:22-25 | The loop that fills `ans` returns ChannelDistances over all channels, forwarding the same parameters to every call. |
| GestureDist.NoChannelsEmptyVector | distance/per_series_dist/gesture_dist.py:22-25 | A zero-channel first input is accepted whatever the lengths and budget, and the vector is empty because the loop runs zero times. |
| GestureDist.ChannelDistancesFailureKept | distance/per_series_dist/gesture_dist.py:23-24 | Once a channel fails, the whole call fails with that error. |
| GestureDist.ChannelDistancesFailure | distance/per_series_dist/gesture_dist.py:23-24 | A failure carries the error of the first failing channel, and every earlier channel succeeded. |
| GestureDist.ChannelsFailTogether | distance/per_series_dist/gesture_dist.py:23-24 | With at least one channel, the budget check on the two lengths alone decides success, and on failure gives the error. |
| GestureDist.ChannelIndependent | distance/per_series_dist/gesture_dist.py:23-24 | Entry k depends only on column k of the two inputs. |
| DummyDpComp.MaxSeq | examples/DP_app/dummy_dp_comp.py:25-28 | `.max()` is at least every entry and equal to one of them. |
| DummyDpComp.Score | examples/DP_app/dummy_dp_comp.py:25-28 | A zero-channel exemplar fails with EmptyChannels. A score is at least every channel distance. |
| DummyDpComp.NoChannelsScore | examples/DP_app/dummy_dp_comp.py:25-28 | A zero-channel exemplar is accepted whatever the lengths and budget, and its score fails with EmptyChannels, where `.max()` of the empty vector raises. |
| DummyDpComp.Accepts | examples/DP_app/dummy_dp_comp.py:23-31 | An empty store gives false. A first score within the threshold gives true, and a failing first score gives its error. |
| DummyDpComp.MinDist | examples/DP_app/dummy_dp_comp.py:34-41 | A failing minimum means some score failed. |
| DummyDpComp.ScoreIsWorstChannel | examples/DP_app/dummy_dp_comp.py:25-28 | The mismatch score, with the exemplar first, exists exactly when there is a channel and every channel distance exists. It is then the largest channel distance and is reached at some channel. |
| DummyDpComp.Scores | examples/DP_app/dummy_dp_comp.py:24-28 | One mismatch score per stored exemplar, in insertion order. |
| DummyDpComp.AcceptsFrom | examples/DP_app/dummy_dp_comp.py:24-31 | With no exemplars left, the answer is false. |
| DummyDpComp.NextMin | examples/DP_app/dummy_dp_comp.py:40-41 | The updated running minimum exists, is at most the new score and the old minimum, and is one of the two. |
| DummyDpComp.MismatchScore | examples/DP_app/dummy_dp_comp.py:25-28 | Computes Score by calling GestureSeriesDist and taking the maximum. |
| DummyDpComp.DummyDPComparator.Init | examples/DP_app/dummy_dp_comp.py:16-18 | Stores the threshold and parameters, and starts with an empty store. |
| DummyDpComp.DummyDPComparator.Create | examples/DP_app/dummy_dp_comp.py:14-18 | Fails with InvalidThreshold exactly when the threshold is negative. Otherwise it returns a fresh comparator with that threshold, those parameters and an empty store. |
| DummyDpComp.DummyDPComparator.AddValidGesture | examples/DP_app/dummy_dp_comp.py:20-21 | Appends exactly one exemplar at the end. Threshold and parameters lie outside the frame. |
| DummyDpComp.DummyDPComparator.IsValid | examples/DP_app/dummy_dp_comp.py:23-31 | Returns Accepts over the scores in insertion order: true at the first score within the threshold, the first failure, or false. It changes nothing. |
| DummyDpComp.DummyDPComparator.ProbaMinDist | examples/DP_app/dummy_dp_comp.py:33-41 | On a nonempty store, returns MinDist of the scores, the running minimum of the loop. It changes nothing. |
| DummyDpComp.AcceptsFromIff | examples/DP_app/dummy_dp_comp.py:24-31 | From position k: the answer is true exactly when some score is within the threshold and all earlier ones exist and are above it. It is false exactly when all exist and are above it. |
| DummyDpComp.AcceptsIff | examples/DP_app/dummy_dp_comp.py:23-31 | `is_valid` is true exactly when some exemplar is within the threshold and all earlier ones exist and are above it. It is false exactly when every score exists and is above it, so an empty store gives false. |
| DummyDpComp.MinFromBelow | examples/DP_app/dummy_dp_comp.py:34-41 | The running minimum exists exactly when all remaining scores do, and it is then at most each of them and at most the minimum so far. |
| DummyDpComp.MinFromAttained | examples/DP_app/dummy_dp_comp.py:34-41 | The running minimum is the minimum so far or one of the remaining scores. |
| DummyDpComp.MinDistIsMinimum | examples/DP_app/dummy_dp_comp.py:34-41 | `min_dist` exists exactly when every score does. It is at most each score and equal to one. |
| DummyDpComp.FirstWithin | examples/DP_app/dummy_dp_comp.py:24-30 | If some score is within the threshold, there is a first such score. |
| DummyDpComp.ValidIffMinWithin | examples/DP_app/dummy_dp_comp.py:23-41 | For a nonempty store whose scores all exist, `is_valid` holds exactly when `min_dist` is within the threshold. |
| ReprUtils.FirstClean | gesture_repr/repr_modify_utils/utils.py:12-13 | The first NaN-free row at or after `from`, with only NaN rows skipped. |
| ReprUtils.LastClean | gesture_repr/repr_modify_utils/utils.py:14-15 | One past the last NaN-free row in [lo, hi), never below lo, with only NaN rows skipped. |
| ReprUtils.EraseNanPrefixSuffix | gesture_repr/repr_modify_utils/utils.py:9-18 | The two loops keep 0 <= left <= right <= n, terminate, and return Trim. |
| ReprUtils.Trim | gesture_repr/repr_modify_utils/utils.py:11-18 | A trimmed result is a nonempty run of at most the input's rows whose first and last rows are NaN-free. |
| ReprUtils.TrimNoneIff | gesture_repr/repr_modify_utils/utils.py:11-17 | The result is None exactly when every row has a NaN, including the zero-row input. |
| ReprUtils.TrimIsCleanSlice | gesture_repr/repr_modify_utils/utils.py:12-18 | Otherwise the result is a slice rows[l..h] that begins and ends with a NaN-free row and drops only NaN rows on either side. |
| ReprUtils.TrimIdempotent | gesture_repr/repr_modify_utils/utils.py:11-18 | Trimming a trimmed result returns it unchanged. |
| ReprUtils.CountNaNRows | gesture_repr/repr_modify_utils/utils.py:23 | At most one counted row per row. |
| ReprUtils.NanPercentage | gesture_repr/repr_modify_utils/utils.py:21-23 | NaN exactly for zero rows, otherwise a share in [0, 1]. |
| ReprUtils.CountZeroIff | gesture_repr/repr_modify_utils/utils.py:23 | The count is 0 exactly when no row has a NaN. |
| ReprUtils.CountFullIff | gesture_repr/repr_modify_utils/utils.py:23 | The count is the row count exactly when every row has a NaN. |
| ReprUtils.NanPercentageExtremes | gesture_repr/repr_modify_utils/utils.py:21-23 | The share is 0 exactly when no row has a NaN and 1 exactly when every row does. |
| AnglesUtils.SubSample | gesture_repr/angles_repr/utils.py:31-32 | A coordinate difference is NaN exactly when one side is. |
| AnglesUtils.Angles | gesture_repr/angles_repr/utils.py:31-33 | One angle per description. |
| AnglesUtils.AnglesAt | gesture_repr/angles_repr/utils.py:31-33 | Entry k is the angle of description k, computed from its four point indices. |
| AnglesUtils.AngleBetween | gesture_repr/angles_repr/utils.py:43-49 | The angle is NaN exactly when a coordinate of either vector is NaN. Otherwise it is the arccos of the clipped dot product of the unit vectors. |
| AnglesUtils.NaNPointGivesNaNAngle | gesture_repr/angles_repr/utils.py:43-48 | A NaN coordinate in any of a description's four points makes its angle NaN. |
| AnglesUtils.AnglesAppend | gesture_repr/angles_repr/utils.py:24-33 | Registering one more description appends exactly its angle to every later transform. |
| AnglesUtils.PointsToAnglesTransformer.Init | gesture_repr/angles_repr/utils.py:16-17 | Stores cnt_points, starts with no descriptions, and establishes the index invariant. |
| AnglesUtils.PointsToAnglesTransformer.Create | gesture_repr/angles_repr/utils.py:14-19 | Fails with WrongPointIndex exactly when some given description has an index outside [0, cnt_points). Otherwise it registers all of them in the given order. |
| AnglesUtils.PointsToAnglesTransformer.AddAngleDescription | gesture_repr/angles_repr/utils.py:21-24 | Accepts exactly when all four indices lie in [0, cnt_points). It then appends exactly one description at the end; otherwise it changes nothing. It keeps the invariant. |
| AnglesUtils.PointsToAnglesTransformer.Length | gesture_repr/angles_repr/utils.py:26-27 | The number of registered descriptions. |
| AnglesUtils.PointsToAnglesTransformer.Transform | gesture_repr/angles_repr/utils.py:29-33 | Fails with WrongPointCount exactly when the frame does not have cnt_points points. Otherwise it returns one angle per registered description, in registration order. |

## Left out

- **Numerics:** The `float32` table type and the `1e18` sentinel (`dp_dist.py` lines 11-12 and 49-50) are not modelled. Costs are exact reals and the sentinel is `None`.
- **Vectorised scan:** The numpy `arange` vectorisation of the terminal scan is modelled as an explicit loop over the same index range.
- DpDist.DpTimeSeriesDistance: requires the resolved budget to stay below the longer length. Otherwise the source's scan divides by zero or by a negative count, and that behaviour is not modelled.
- GestureDist.GestureSeriesDist: takes `time_series_dist` to be the alignment distance, which is the only function the comparator passes in. It requires rectangular inputs and that the second has at least as many channels as the first. The source would raise an IndexError otherwise, and that error is not modelled.
- DummyDpComp.DummyDPComparator.IsValid: requires every stored exemplar to be comparable with the query. The source only evaluates the exemplars up to the first accepting one.
- DummyDpComp.DummyDPComparator.ProbaMinDist: computes `min_dist` only. The float power `0.5 ** (min_dist / threshold)` on line 42 is not modelled. An empty store, where the source fails at that division, is excluded by the precondition.
- ReprUtils.NanPercentage: on zero rows, numpy's 0 / 0 gives NaN, which the model returns. The source has no explicit guard.
- AnglesUtils.AngleBetween: models the NaN guard of `angle_between` (lines 47-48). The arccos of the clipped dot product of the unit vectors is the function parameter `arccosDot`. `unit_vector`'s assertion on a zero norm and the float numerics are not modelled.
- **Aliasing:** The comparator stores the caller's own exemplar object (line 21 of `dummy_dp_comp.py` appends a reference), and `erase_nan_prefix_suffix` returns a numpy view of its input. The model stores and returns values, so later in-place changes through those aliases are not modelled.
- **Class shape:** The comparator's and the transformer's Python constructors are modelled as a static `Create` that returns a `Result`, plus a plain constructor `Init` for the state the constructor sets up.
- **Not part of this model:**
  - `interpolate` (pandas);
  - the Gaussian-process smoothing modules;
  - MediaPipe landmark extraction;
  - the angles representation container;
  - the controller and the application;
  - the abstract interface classes, which have no behaviour.
