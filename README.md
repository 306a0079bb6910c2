# Diabetes health indicators: evaluation logic

A model of the three pieces of the diabetes notebook (`ml_diabetes.py`) that are
its own logic rather than library calls:

- **Precision and recall** (`calculate_precision`, `calculate_recall`). The truth
  and prediction label arrays are compared element-wise against a positive marker
  (always `1.0` in the notebook). Each boolean mask is summed into a confusion
  count: true positives, false positives, false negatives. The result is
  `tp / (tp + fp)` or `tp / (tp + fn)`. Module `Metrics` (`metrics.dfy`) models the
  counts as `Count` over the aligned pairs of the two arrays. It models the
  division as `Ratio`, an exact rational. numpy's NaN for `0 / 0` becomes
  `Score.Undefined`. Arrays of different lengths make numpy raise, which becomes
  `Err(ShapeMismatch)`.
- **Binary / non-binary column split**. A loop sends every data-frame column's
  name to `binary_variables` or `non_binary_variables`. A column goes to the first
  list when its distinct values number two and include 0 and 1. The notebook then
  asserts that the two lists together have one entry per column. Module `Columns`
  (`columns.dfy`) has the loop as the method `PartitionColumns`, proved against the
  function `NamesWhere`. `Unique` models `Series.unique()`.
- **Depth sweep**. For each maximum depth 2..8 the notebook trains a tree, keeps
  it in `arboles`, predicts the test labels, scores them and appends
  `(depth, accuracy, precision, recall)` to `results`. Module `DepthSweep`
  (`sweep.dfy`) has the loop as the method `Sweep`. Tree training, prediction and
  `accuracy_score` are function parameters (`build`, `predict`, `accuracy`).

Labels and column values are `real`, since the data frame holds float64 values.
The code does not guard the zero denominator: numpy returns NaN for `0 / 0`, and
the model returns `Undefined`, a value, not an error.

## Model

| member | source | states |
|---|---|---|
| `Metrics.InCell` | ml_diabetes.py:138-146 | the mask of one position, as written at lines 138-139 and 145-146: a position in a cell has a positive truth exactly when the cell is a true positive or a false negative, and a positive prediction exactly when it is a true or a false positive |
| `Metrics.Pairs` | ml_diabetes.py:138-139 | the element-wise `&` of the two masks lines the arrays up position by position: pair i holds truth i and prediction i, and there is one pair per position |
| `Metrics.Count` | ml_diabetes.py:138-139 | a confusion count (the sum of one boolean mask) never exceeds the number of positions |
| `Metrics.Ratio` | ml_diabetes.py:141 | the division of a count by a count is undefined exactly when the denominator is 0, which at line 141 only happens as 0 / 0 since tp never exceeds tp + fp; otherwise the value times the denominator is the numerator, and it lies in [0, 1] when the numerator is at most the denominator |
| `Metrics.Precision` | ml_diabetes.py:136-141 | fails exactly when the arrays differ in length; otherwise is the ratio of true positives to the number of predictions equal to the positive marker, so it is undefined exactly when no prediction is positive and otherwise lies in [0, 1] |
| `Metrics.Recall` | ml_diabetes.py:143-148 | fails exactly when the arrays differ in length; otherwise is the ratio of true positives to the number of truth labels equal to the positive marker, so it is undefined exactly when no truth label is positive and otherwise lies in [0, 1] |
| `Metrics.PredictedPositives` | ml_diabetes.py:138-141 | precision's denominator `tp + fp` equals the number of predictions equal to the positive marker |
| `Metrics.ActualPositives` | ml_diabetes.py:145-148 | recall's denominator `tp + fn` equals the number of truth labels equal to the positive marker |
| `Metrics.CellsCoverAll` | ml_diabetes.py:138-146 | the true-positive, false-positive, false-negative and true-negative masks together count every position exactly once |
| `Metrics.CountZero` | ml_diabetes.py:138-146 | a confusion count is zero if and only if no position satisfies its mask |
| `Metrics.CountAppend` | ml_diabetes.py:138-139 | the count of a concatenation is the sum of the counts of its parts |
| `Metrics.CountReordered` | ml_diabetes.py:138-139 | a confusion count depends only on the multiset of aligned (truth, prediction) pairs |
| `Metrics.PermutationInvariant` | ml_diabetes.py:136-148 | reordering both arrays by the same permutation changes neither precision nor recall |
| `Metrics.PerfectPrediction` | ml_diabetes.py:136-148 | when the prediction equals the truth and some label is positive, precision and recall are both 1 |
| `Metrics.NoTruePositives` | ml_diabetes.py:136-148 | with no true positive, precision is 0 when something is predicted positive and recall is 0 when some truth label is positive |
| `Metrics.HalfAndHalf` | ml_diabetes.py:136-148 | truth [1, 1, 0, 0] against prediction [1, 0, 0, 1] gives precision 1/2 and recall 1/2 |
| `Metrics.NothingPredicted` | ml_diabetes.py:136-148 | truth all positive against prediction all negative gives recall 0 and an undefined precision, not a failure |
| `Columns.Unique` | ml_diabetes.py:87 | the distinct values of a column contain no duplicates and hold exactly the values the column holds |
| `Columns.UniqueInOrder` | ml_diabetes.py:87 | the distinct values keep the order of first appearance: an earlier one occurs in the column before any occurrence of a later one |
| `Columns.DistinctWithin` | ml_diabetes.py:87-91 | a duplicate-free list of values drawn from a set is no longer than the set, so a column whose values are all 0 or 1 has at most two distinct values |
| `Columns.BinaryIffZeroOne` | ml_diabetes.py:91 | the notebook's test (two distinct values, 0 among them, 1 among them) holds exactly when the set of the column's values is {0, 1} |
| `Columns.IsBinary` | ml_diabetes.py:91 | the test at line 91; a column that passes holds both 0 and 1 and no other value |
| `Columns.Names` | ml_diabetes.py:86 | `df.columns`, the list the loop walks and the assertion at line 96 counts: one name per column, in column order |
| `Columns.NamesWhere` | ml_diabetes.py:86-94 | neither list can be longer than the list of columns |
| `Columns.PartitionIsPermutation` | ml_diabetes.py:86-94 | the two lists together hold every column name exactly as often as the columns carry it |
| `Columns.PartitionSizes` | ml_diabetes.py:96 | the lengths of the two lists sum to the number of columns, so the assertion always holds |
| `Columns.NamesWhereAppend` | ml_diabetes.py:86-94 | each list keeps the columns' order: splitting a concatenation of columns concatenates the splits |
| `Columns.SingleColumn` | ml_diabetes.py:91-94 | a single column lands in the list its own test selects and not in the other |
| `Columns.NamesWhereSound` | ml_diabetes.py:86-94 | every name in a list belongs to a column whose test gave that list's answer |
| `Columns.NamesWhereComplete` | ml_diabetes.py:86-94 | every column's name is in the list its test selects |
| `Columns.Placement` | ml_diabetes.py:86-94 | with distinct headers, a column's name is in `binary_variables` if and only if the column is binary, and in `non_binary_variables` if and only if it is not |
| `Columns.PartitionColumns` | ml_diabetes.py:83-96 | the loop builds exactly the two lists `NamesWhere` describes, and their lengths sum to the number of columns |
| `DepthSweep.Sweep` | ml_diabetes.py:164-174 | on completion there are 7 records and 7 trees; record k has depth k + 2 and holds the accuracy, precision and recall of the tree built with depth k + 2; when a metric raises, the loop has stopped at the first depth whose prediction differs in length from the test labels, with that depth's tree appended and its record not |

## Left out

- Loading the CSV from a URL (ml_diabetes.py:42): network I/O.
- Every print and plot, including the `print` of each column's unique values inside the partition loop: output only.
- `build_dt` (ml_diabetes.py:130-134), `predict`, `accuracy_score`, `train_test_split`, `cross_val_score`, `df.corr` and the random forest: library code that is not part of this model. In `DepthSweep.Sweep` they are the parameters `build`, `predict` and `accuracy`, so nothing is proved about their values. In particular, accuracy is not shown to lie in [0, 1].
- The percentage summaries (ml_diabetes.py:49-50) and the cross-validation loop with its means and standard deviations (ml_diabetes.py:219-254): floating-point summaries of library results with no stated property.
- The single-model evaluations (ml_diabetes.py:200-204, 281-286) only call `calculate_precision` and `calculate_recall`, which are modelled.
- `Metrics.Precision`: numpy broadcasting is not modelled. A length-1 array combined with a longer one is broadcast by numpy, and the model reports `ShapeMismatch` for it instead. The same holds for `Metrics.Recall`.
- `Metrics.Ratio`: the quotient is an exact rational, whereas numpy rounds it to float64.
- `DepthSweep.Sweep`: `build_dt` creates a decision tree without a fixed random seed (ml_diabetes.py:132), so two calls at the same depth may give different trees. The pure parameter `build` stands for the tree this run built at each depth, and the loop builds each depth once.
- `DepthSweep.Sweep`: an error raised by `accuracy_score` on a length mismatch is not modelled separately. `accuracy_score` is a parameter here, and the same depth fails in `Precision` instead.
