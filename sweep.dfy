/**
 * The "performance metrics vs. depth" loop: one decision tree per maximum depth
 * from 2 to 8, each scored on the held-out labels, one record per depth.
 * Training, prediction and `accuracy_score` are library calls; they are
 * parameters here (`build`, `predict`, `accuracy`).
 */
module DepthSweep {
  import opened Metrics

  /** The smallest and largest depth of `range(2, 9)`. */
  const MinDepth: int := 2
  const MaxDepth: int := 8

  /** One `(i, accuracy, precision, recall)` tuple of `results`. */
  datatype Record = Record(depth: int, accuracy: real, precision: Score, recall: Score)

  /** How the loop ended: after the last depth, or on the error a metric raised. */
  datatype Outcome = Completed | Raised(error: Error)

  /**
   * The sweep. `trees` is `arboles`. A metric called on arrays of different lengths
   * raises, which ends the loop after that depth's tree was appended and before its
   * record was.
   */
  method Sweep<Tree>(yTest: seq<Label>, build: int -> Tree, predict: Tree -> seq<Label>,
                     accuracy: (seq<Label>, seq<Label>) -> real)
    returns (results: seq<Record>, trees: seq<Tree>, outcome: Outcome)
    ensures |results| <= MaxDepth - MinDepth + 1
    ensures forall k :: 0 <= k < |trees| ==> trees[k] == build(MinDepth + k)
    ensures forall k :: 0 <= k < |results| ==> results[k].depth == MinDepth + k
    ensures forall k :: 0 <= k < |results| ==>
      results[k].accuracy == accuracy(yTest, predict(build(MinDepth + k))) &&
      Precision(yTest, predict(build(MinDepth + k)), PositiveLabel) == Ok(results[k].precision) &&
      Recall(yTest, predict(build(MinDepth + k)), PositiveLabel) == Ok(results[k].recall)
    ensures outcome == Completed <==> |results| == MaxDepth - MinDepth + 1
    ensures outcome == Completed ==> |trees| == |results|
    ensures outcome.Raised? ==>
      |trees| == |results| + 1 && outcome.error == ShapeMismatch &&
      |predict(build(MinDepth + |results|))| != |yTest|
  {
    results, trees := [], [];
    for depth := MinDepth to MaxDepth + 1
      invariant |results| == |trees| == depth - MinDepth
      invariant forall k :: 0 <= k < |trees| ==> trees[k] == build(MinDepth + k)
      invariant forall k :: 0 <= k < |results| ==> results[k].depth == MinDepth + k
      invariant forall k :: 0 <= k < |results| ==>
        results[k].accuracy == accuracy(yTest, predict(build(MinDepth + k))) &&
        Precision(yTest, predict(build(MinDepth + k)), PositiveLabel) == Ok(results[k].precision) &&
        Recall(yTest, predict(build(MinDepth + k)), PositiveLabel) == Ok(results[k].recall)
    {
      var tree := build(depth);
      trees := trees + [tree];
      var yPred := predict(tree);
      var acc := accuracy(yTest, yPred);
      var precision := Precision(yTest, yPred, PositiveLabel);
      if precision.Err? {
        outcome := Raised(precision.error);
        return;
      }
      var recall := Recall(yTest, yPred, PositiveLabel);
      results := results + [Record(depth, acc, precision.value, recall.value)];
    }
    outcome := Completed;
  }
}
