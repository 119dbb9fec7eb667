# Scenario-discovery box algebra and experiment utilities, in Dafny

This project models two parts of the EMA workbench.

The first part is the box algebra that PRIM and CART share for scenario
discovery (`ema_workbench/analysis/scenario_discovery_util.py`). A *box*
gives each input column a limit:

- a numeric column gets a closed interval `[lo, hi]`;
- a categorical column gets the set of labels it still allows. The original
  stores this set twice, as the pair `(S, S)`.

The model covers these operations:

- building the reference box that spans the data (`_make_box`);
- finding the columns a box restricts (`_determine_restricted_dims`,
  `_determine_nr_restricted_dims`);
- comparing two boxes dimension by dimension (`_compare`);
- mapping limits onto the unit interval (`_normalize`);
- testing which rows fall in a box (`_in_box`);
- choosing and ordering the dimensions to report (`_get_sorted_box_lims`);
- choosing the analysis mode (`_setup`);
- the counting part of the quasi-p significance (`_calculate_quasip`);
- the labels, indices and geometry of the reports (`boxes_to_dataframe`,
  `stats_to_dataframe`, `display_boxes`, `_plot_unc`).

The second part is two utilities on experiment sets from
`src/expWorkbench/util.py`:

- `experiments_to_cases` deduplicates experiment rows and keeps them in
  order;
- `merge_results` stacks two result sets and can down-sample their columns.

Modules, one file each:

- `Common`: result and option types, plus sequence lookups.
- `Boxes`: tables, limits, the reference box, restriction and comparison.
- `Normalization`: normalized limits.
- `Membership`: the row-in-box test.
- `Significance`: quasi-p counts.
- `DatasetAdapter`: `_setup`.
- `Reporting`: sorting of the dimensions, the two tables, and the display.
- `ExperimentUtil`: the two utilities.

In the model:

- Numbers are mathematical reals.
- A table is a sequence of named columns.
- Python exceptions become `Err` values of a `Result`.

## Model

| member | source | states |
|---|---|---|
| Boxes.ColumnLimit | ema_workbench/analysis/scenario_discovery_util.py:90-96 | the limit of a column is tight: a numeric column gets an interval whose ends are values of the column and that holds every value; a categorical column gets exactly the set of observed labels |
| Boxes.MakeBox | ema_workbench/analysis/scenario_discovery_util.py:75-96 | the reference box has one limit of the right kind per column, under the column's name, and each limit is tight |
| Boxes.MakeBoxAdmitsAll | ema_workbench/analysis/scenario_discovery_util.py:75-96 | every row of the table lies inside the reference box made from it |
| Boxes.Min | ema_workbench/analysis/scenario_discovery_util.py:92 | the minimum is a value of the column and at most every value |
| Boxes.Max | ema_workbench/analysis/scenario_discovery_util.py:92 | the maximum is a value of the column and at least every value |
| Boxes.RestrictedDims | ema_workbench/analysis/scenario_discovery_util.py:142-159 | a dimension is reported exactly when its limit differs from the reference limit; there are no repetitions, and at most as many dimensions as columns |
| Boxes.Restricted | ema_workbench/analysis/scenario_discovery_util.py:155-159 | the same statement over the limit sequences; proved by recursion over the columns |
| Boxes.NrRestrictedDims | ema_workbench/analysis/scenario_discovery_util.py:162-182 | the number of restricted dimensions never exceeds the number of dimensions |
| Boxes.NoRestrictionIffReference | ema_workbench/analysis/scenario_discovery_util.py:155-156 | a box restricts no dimension if and only if it has exactly the reference limits; in particular the reference box restricts nothing |
| Boxes.RestrictedOfReference | ema_workbench/analysis/scenario_discovery_util.py:155-156 | against itself, the restricted list is empty |
| Boxes.Compare | ema_workbench/analysis/scenario_discovery_util.py:185-195 | for every dimension of `a`, true exactly when `b` has the same limit (both ends equal) for the dimension of that name |
| Normalization.NormLimit | ema_workbench/analysis/scenario_discovery_util.py:124-138 | a numeric limit maps to ((lo - lo0)/(hi0 - lo0), (hi - lo0)/(hi0 - lo0)); a categorical one maps to (0, r), where r times the number of reference labels is the number of labels kept |
| Normalization.NormReference | ema_workbench/analysis/scenario_discovery_util.py:132-138 | the reference limit normalizes to exactly (0, 1) |
| Normalization.NormWithin | ema_workbench/analysis/scenario_discovery_util.py:128-138 | a limit inside the reference normalizes into [0, 1] with its ends in order; a categorical one gives a fraction in [0, 1] |
| Normalization.NormMonotone | ema_workbench/analysis/scenario_discovery_util.py:128-138 | widening a limit inside the reference never shrinks its normalized span |
| Normalization.Normalize | ema_workbench/analysis/scenario_discovery_util.py:99-139 | one normalized row per requested dimension, in the order requested, each equal to `NormLimit` of the dimension's limits; all rows lie in the unit interval when the limits lie inside the reference |
| Membership.InBox | ema_workbench/analysis/scenario_discovery_util.py:223-259 | fails exactly when a categorical limit allows a label outside the column's categories while leaving some category out; otherwise row i is marked exactly when every column admits it (inclusive bounds, label in the allowed set) |
| Membership.NarrowByColumn | ema_workbench/analysis/scenario_discovery_util.py:240-258 | one column narrows the running mask by its admission test, or reports the refused category removal |
| Membership.NarrowToInterval | ema_workbench/analysis/scenario_discovery_util.py:242-245 | the mask keeps a row exactly when it was kept and its value lies in [lower, upper] |
| Membership.NarrowToLabels | ema_workbench/analysis/scenario_discovery_util.py:246-258 | the mask keeps a row exactly when it was kept and its label is allowed |
| Membership.ReferenceBoxAdmitsAll | ema_workbench/analysis/scenario_discovery_util.py:223-259 | against the reference box, no removal is refused and every row is in the box |
| Membership.InBoxMonotone | ema_workbench/analysis/scenario_discovery_util.py:240-259 | narrowing a box can only turn rows from in to out |
| Significance.CountTrue | ema_workbench/analysis/scenario_discovery_util.py:310-314 | the count of rows in the box is at most the number of rows, and it is zero exactly when no row is in |
| Significance.SumWhere | ema_workbench/analysis/scenario_discovery_util.py:316-318 | with outcomes in [0, 1], the sum over the rows in the box lies between 0 and their count |
| Significance.Trunc | ema_workbench/analysis/scenario_discovery_util.py:322-323 | `int()` truncates toward zero |
| Significance.SelectColumns | ema_workbench/analysis/scenario_discovery_util.py:308-318 | the selection has the restricted columns, in order, each equal to the table column of that name |
| Significance.SelectLimits | ema_workbench/analysis/scenario_discovery_util.py:308-318 | the selected limits are the box's limits for those names |
| Significance.CalculateQuasiP | ema_workbench/analysis/scenario_discovery_util.py:296-328 | fails when the membership test fails, or when the box holds no row (T_j = 0); otherwise T_j and H_j are the count and outcome sum of the rows in the box over the restricted dimensions, p = H_j / T_j lies in [0, 1] for outcomes in [0, 1], and H_box and T_box are truncated |
| Significance.Ratio | ema_workbench/analysis/scenario_discovery_util.py:320 | p times T_j is H_j, and p lies in [0, 1] when 0 <= H_j <= T_j |
| Significance.RestrictedMaskIsBoxMask | ema_workbench/analysis/scenario_discovery_util.py:308-321 | for a row inside the reference, testing only the restricted dimensions gives the same answer as testing the whole box |
| Significance.QuasiCountIsBoxCount | ema_workbench/analysis/scenario_discovery_util.py:308-321 | against the reference box of the table, the mask over the restricted dimensions equals the mask of the whole box |
| DatasetAdapter.KeepColumns | ema_workbench/analysis/scenario_discovery_util.py:282-285 | the kept table has the same rows; a column survives exactly when it is listed, and keeps its values |
| DatasetAdapter.KeepListed | ema_workbench/analysis/scenario_discovery_util.py:282-285 | each kept name comes with the column it had, without repetitions |
| DatasetAdapter.Setup | ema_workbench/analysis/scenario_discovery_util.py:262-294 | an outcome name gives regression on that outcome, or an error for an unknown name; a rule gives binary mode on the rule's output; anything else is a type error; an empty column list keeps the table as it is, a non-empty one keeps exactly the listed columns of the table, each with the values it had |
| Reporting.SortedBoxLims | ema_workbench/analysis/scenario_discovery_util.py:37-72 | the boxes come back unchanged; the dimensions are the union of the dimensions any box restricts, each once, ordered so that their normalized widths in the first box do not decrease |
| Reporting.CollectRestricted | ema_workbench/analysis/scenario_discovery_util.py:56-59 | the set grown box by box is the union of the restricted dimensions |
| Reporting.SetToSeq | ema_workbench/analysis/scenario_discovery_util.py:60 | the list holds every element of the set exactly once |
| Reporting.OrderByWidth | ema_workbench/analysis/scenario_discovery_util.py:63-69 | the result is a permutation of the dimensions, ordered by normalized width |
| Reporting.ArgSort | ema_workbench/analysis/scenario_discovery_util.py:69 | the indices 0 .. n-1, each exactly once, ordered by key |
| Reporting.InsertIndexSorted | ema_workbench/analysis/scenario_discovery_util.py:69 | inserting into an ordered index list keeps it ordered |
| Reporting.InsertIndexDistinct | ema_workbench/analysis/scenario_discovery_util.py:69 | inserting a new index keeps the indices free of repetitions |
| Reporting.Permuted | ema_workbench/analysis/scenario_discovery_util.py:69 | applying a permutation keeps the same elements, without repetitions |
| Reporting.UnionNormalizable | ema_workbench/analysis/scenario_discovery_util.py:63-65 | every box can be normalized over the union of restricted dimensions |
| Reporting.NatToStringInjective | ema_workbench/analysis/scenario_discovery_util.py:357 | different numbers have different decimal notations |
| Reporting.BoxLabelInjective | ema_workbench/analysis/scenario_discovery_util.py:357 | different boxes get different labels "box k" |
| Reporting.BoxLabels | ema_workbench/analysis/scenario_discovery_util.py:357 | the labels are "box 1" to "box n", without repetitions |
| Reporting.BoxesToTable | ema_workbench/analysis/scenario_discovery_util.py:347-376 | one row per dimension that any box restricts, each once, in order of non-decreasing normalized width in the first box; for each box, a "min" column and then a "max" column, labelled "box i+1"; the table is of object type exactly when the first box has a categorical limit; each cell holds the box's lower or upper bound, or its label set |
| Reporting.LimitsTable | ema_workbench/analysis/scenario_discovery_util.py:352-376 | the same table for a given reference box, rows in the same width order |
| Reporting.ColumnPairs | ema_workbench/analysis/scenario_discovery_util.py:363-364 | the column k is the pair (label k/2, "min" if k is even, else "max") |
| Reporting.TableDtype | ema_workbench/analysis/scenario_discovery_util.py:356-361 | object type exactly when some limit of the first box is categorical |
| Reporting.FillBox | ema_workbench/analysis/scenario_discovery_util.py:371-375 | writes the two cells of box i in every row and leaves every other cell as it was |
| Reporting.FillCells | ema_workbench/analysis/scenario_discovery_util.py:365-375 | every cell of the table holds the lower or upper bound, or the label set, of its box for its dimension: the cells start at zero and every box overwrites its own two columns |
| Reporting.StatsToTable | ema_workbench/analysis/scenario_discovery_util.py:378-385 | one row per box, labelled "box i+1" without repetitions, holding the box's statistics; a column per statistic any box reports |
| Reporting.RankBelow | ema_workbench/analysis/scenario_discovery_util.py:466-470 | the position of a reference label in the sorted labels is below their number |
| Reporting.RankIncreasing | ema_workbench/analysis/scenario_discovery_util.py:466-470 | a label that sorts before another has a smaller position |
| Reporting.DotPositions | ema_workbench/analysis/scenario_discovery_util.py:466-471 | with more than one reference label, every dot lies in [0, 1], in label order, so different labels never share a dot |
| Reporting.PlotUnc | ema_workbench/analysis/scenario_discovery_util.py:442-479 | a dimension can be drawn exactly when it is numeric, or its labels are reference labels and the reference has more than one label whenever any label is allowed; a categorical mark is a set of dots in [0, 1] at the given height |
| Reporting.DisplayBoxes | ema_workbench/analysis/scenario_discovery_util.py:387-439 | the dimensions are those any box restricts, each once, in order of non-decreasing normalized width in the first box; the last box is not drawn; the display fails exactly when some other box has a dimension that cannot be drawn; together: one untitled figure where box j of dimension i sits at height (n-i-1) - 0.1 j; separately: one figure per drawn box, titled "box j" with j counted from 0, where dimension i sits at height n-i-1; the tick at the row of dimension i carries its name |
| Reporting.Display | ema_workbench/analysis/scenario_discovery_util.py:395-439 | the same, for a given reference box |
| Reporting.NormalizeAll | ema_workbench/analysis/scenario_discovery_util.py:402-403 | the normalized limits of every box given, one list per box |
| Reporting.DrawTogether | ema_workbench/analysis/scenario_discovery_util.py:405-421 | the combined figure, or the failure of a dimension that cannot be drawn |
| Reporting.DrawRow | ema_workbench/analysis/scenario_discovery_util.py:413-418 | the marks of one dimension for every drawn box |
| Reporting.DrawSeparately | ema_workbench/analysis/scenario_discovery_util.py:422-439 | one figure per drawn box, or the failure |
| Reporting.DrawFigure | ema_workbench/analysis/scenario_discovery_util.py:428-436 | the figure of one box: its title and the mark of every dimension |
| ExperimentUtil.CaseFields | src/expWorkbench/util.py:183-190 | "policy" is dropped; "model" survives exactly when "policy" is missing; every other field survives |
| ExperimentUtil.RemoveAt | src/expWorkbench/util.py:187-188 | removing one position leaves the other fields |
| ExperimentUtil.CaseOf | src/expWorkbench/util.py:196-201 | a case maps every case field to the row's entry for it |
| ExperimentUtil.CaseOfTuple | src/expWorkbench/util.py:196-204 | two rows give the same case if and only if they give the same tuple |
| ExperimentUtil.FirstIndices | src/expWorkbench/util.py:193-206 | increasing positions, each the first occurrence of its element; never more positions than elements |
| ExperimentUtil.FirstIndicesDistinct | src/expWorkbench/util.py:203-206 | the elements at those positions are pairwise different |
| ExperimentUtil.FirstIndicesCover | src/expWorkbench/util.py:203-206 | every element occurs at one of those positions |
| ExperimentUtil.ExperimentsToCases | src/expWorkbench/util.py:171-208 | one case per distinct tuple, in order of first occurrence, built from the row of that first occurrence; no two cases are equal, and the case of every row is among them |
| ExperimentUtil.CasesOfFirstRows | src/expWorkbench/util.py:193-206 | the cases of the first occurrences are distinct and cover every row |
| ExperimentUtil.RowCase | src/expWorkbench/util.py:196-201 | the case and the tuple built field by field are those of the row |
| ExperimentUtil.WidthIsCeiling | src/expWorkbench/util.py:265-266 | the kept width is ceil(j / d): the least w with w * d >= j |
| ExperimentUtil.Stride | src/expWorkbench/util.py:272-273 | `s[::d]` has ceil(|s| / d) entries, and entry k is s[k * d] |
| ExperimentUtil.Width | src/expWorkbench/util.py:263-266 | without down-sampling the width is the old outcome's width; with it, the ceiling of the division, as `WidthIsCeiling` proves |
| ExperimentUtil.Fit | src/expWorkbench/util.py:272-273 | a row of the target width is kept; a single-column row is broadcast so that every entry is its one value |
| ExperimentUtil.MergeValue | src/expWorkbench/util.py:262-275 | fails exactly when the down-sampled new width is neither the down-sampled old width nor 1; otherwise old.rows + new.rows rows of ceil(j / d) columns: the down-sampled old rows, then the down-sampled new rows, broadcast when they have one column |
| ExperimentUtil.MergeWithoutDownsampling | src/expWorkbench/util.py:262-275 | without down-sampling and at equal widths, the merged rows are the old rows followed by the new rows |
| ExperimentUtil.MergeOutcomes | src/expWorkbench/util.py:255-275 | succeeds exactly when every key names an outcome of both sets that can be merged; then every key is merged as `MergeValue` describes |
| ExperimentUtil.MergeExperiments | src/expWorkbench/util.py:244-246 | the merged experiments have length len(old) + len(new): the old experiments, then the new ones |
| ExperimentUtil.MergeKeysAsWritten | src/expWorkbench/util.py:249-251 | a key is merged exactly when it is an outcome of either set: the union |
| ExperimentUtil.SharedKeys | src/expWorkbench/util.py:248-252 | a key is merged exactly when it is an outcome of both sets: the intersection the comment and log message promise |
| ExperimentUtil.AsWrittenNeedsSameKeys | src/expWorkbench/util.py:249-262 | merging over every key of either set can succeed only when both sets have the same outcome names |
| ExperimentUtil.OneSidedOutcomeFails | src/expWorkbench/util.py:249-262 | an outcome in only one of two sets makes the merge over all keys fail, while the merge over shared keys succeeds |
| ExperimentUtil.MergeResultsAsWritten | src/expWorkbench/util.py:211-278 | merges every key of either set, so it fails whenever the outcome names differ; when it succeeds, the experiments are concatenated and every outcome is stacked and down-sampled as `MergeValue` describes |
| ExperimentUtil.MergeResults | src/expWorkbench/util.py:211-278 | merges the outcomes both sets have: it fails only on a width that does not broadcast; otherwise the experiments are concatenated and each shared outcome is stacked and down-sampled |

## Left out

- `sp.stats.binom_test` in `_calculate_quasip` is foreign floating-point code. The model stops at T_j, H_j, p and the truncated H_box and T_box.
- Drawing is left out: `_setup_figure`, colours and matplotlib calls. A figure is modelled as its title, its tick labels and its marks. The y-axis limits, and so which edge of the figure row 0 ends up on, are not modelled.
- Floating point: values are reals. The heights `xi - j*0.1`, the ceiling of `j/downsample`, and the divisions in normalization are exact in the model.
- NaN is not modelled: the NaN limits of `_make_box` on an empty table, NaN tuples that never match in the case cache, and cells a statistics table lacks, which are simply absent from a row.
- Significance.CalculateQuasiP: returns an `EmptyRelaxedBox` error when T_j = 0. The original divides `Hj/Tj` with NumPy, gets NaN without an exception, and still calls the binomial test.
- Boxes.Compare: requires every dimension of `a` to be a dimension of `b`. The original raises on `b[name]` for a missing name; that error path is not modelled.
- Membership.InBox: requires the box to have a limit, of the column's kind, for every column of the table (`BoxCovers`). The original raises on `boxlim.loc[:, column]` for a missing column; that error path is not modelled.
- Normalization.Normalize: requires every requested dimension to be in both boxes (`Normalizable`). The original raises on `box_lim.loc[:, u]` or `box_init.loc[0, u]` for a missing one; that error path is not modelled.
- Boxes.MakeBox: requires at least one row. On an empty table the original yields NaN limits for numeric columns, and NaN is not modelled; a categorical column would get the empty label set.
- Normalization.Normalize: a zero-width numeric reference or an empty categorical reference is a precondition, not a division by zero.
- Reporting.SortedBoxLims: requires at least one box, because the original reads `boxes[0]`.
- Reporting.SortedBoxLims: requires every restricted dimension to have a usable reference scale, because normalizing the first box divides by it.
- Reporting.SortedBoxLims: promises only an order by width. Python's set order and NumPy's default `argsort` are not stable, so equal widths may come in any order.
- Reporting.BoxesToTable: the pandas frame is modelled as index, column pairs, dtype and a matrix of cells. Cells start at 0, as in the `np.zeros` initial data.
- Reporting.StatsToTable: columns are modelled as a set. The order pandas gives them is not modelled.
- pandas dtype dispatch is replaced by the explicit `Num | Cat` kinds of limits and columns. Columns of a kind that does not match their limit are excluded by preconditions.
- The `Classification` mode exists in the model, but `_setup` never chooses it.
- The whole results tuple of `_setup` is reduced to a table and a map of outcome vectors. An outcome name is modelled as a separate constructor, not dispatched on the Python type `str`.
- `merge_results` requires identical experiment field layouts on both sides. It assigns `new_exp` into an array typed by `old_exp`.
- `merge_results` models outcomes as two-dimensional arrays. A one-dimensional outcome would fail on `shape[1]`.
- `merge_results` models `downsample` as a natural number where 0 stands for `None`, since the original tests it for truth.
- Logging in `merge_results` is left out.
- `load_results`, `save_results` and the optimization-result functions are left out because they are file I/O.
- The error `merge_results` reports depends on which bad key the set iteration reaches first. The model does not pin that order down, so the kind of error is only constrained where it is forced.

## Findings

| source | as written | input that shows it | evidently intended | confidence | as-written member | corrected member |
|---|---|---|---|---|---|---|
| src/expWorkbench/util.py:249-262 | the merged keys are the union of both key sets, then `old_res.get(key).shape` is read | results1 with outcome "a" only, results2 with "a" and "b": `None.shape` fails for "b" | merge only the outcomes present in both, as the comment and the "intersection of keys" log message say | medium, not executed | ExperimentUtil.MergeResultsAsWritten | ExperimentUtil.MergeResults |
