/**
 * Precision and recall of a binary classifier, as `calculate_precision` and
 * `calculate_recall` compute them: the truth and prediction arrays are compared
 * element-wise against a positive marker, each boolean mask is summed into a
 * confusion count, and one count is divided by a sum of two.
 */
module Metrics {

  /** A class label as the data frame stores it (a float64 column: 0.0 or 1.0). */
  type Label = real

  /** The positive marker every call in the notebook passes (`pos_label_value=1.0`). */
  const PositiveLabel: Label := 1.0

  /** The four confusion-matrix cells a (truth, prediction) position can fall in. */
  datatype Cell = TruePositive | FalsePositive | FalseNegative | TrueNegative

  /** A metric value. `Undefined` is the NaN that numpy yields for 0 / 0 on integer counts. */
  datatype Score = Defined(value: real) | Undefined

  /** Truth and prediction arrays of different lengths cannot be combined element-wise. */
  datatype Error = ShapeMismatch

  datatype Result<T> = Ok(value: T) | Err(error: Error)

  /**
   * The boolean mask of each cell, written as the notebook writes it for one position.
   * A position in a cell has a positive truth exactly when the cell is a true positive
   * or a false negative, and a positive prediction exactly when it is a true or a
   * false positive.
   */
  predicate InCell(truth: Label, pred: Label, pos: Label, c: Cell)
    ensures InCell(truth, pred, pos, c) ==> (truth == pos <==> c == TruePositive || c == FalseNegative)
    ensures InCell(truth, pred, pos, c) ==> (pred == pos <==> c == TruePositive || c == FalsePositive)
  {
    match c
    case TruePositive => truth == pos && pred == pos
    case FalsePositive => truth != pos && pred == pos
    case FalseNegative => truth == pos && pred != pos
    case TrueNegative => truth != pos && pred != pos
  }

  /** The truth and prediction arrays aligned position by position. */
  function Pairs(yTrue: seq<Label>, yPred: seq<Label>): (z: seq<(Label, Label)>)
    requires |yTrue| == |yPred|
    ensures |z| == |yTrue|
    ensures forall i :: 0 <= i < |z| ==> z[i] == (yTrue[i], yPred[i])
  {
    seq(|yTrue|, i requires 0 <= i < |yTrue| => (yTrue[i], yPred[i]))
  }

  /** The sum of one cell's mask: how many aligned positions fall in cell `c`. */
  function Count(z: seq<(Label, Label)>, pos: Label, c: Cell): (n: nat)
    ensures n <= |z|
  {
    if z == [] then 0
    else (if InCell(z[0].0, z[0].1, pos, c) then 1 else 0) + Count(z[1..], pos, c)
  }

  /**
   * numpy's true division of two integer counts. Both metrics divide a count by a
   * count at least as large, so a zero denominator only arises there as 0 / 0, which
   * is NaN.
   */
  function Ratio(num: nat, den: nat): (s: Score)
    ensures s == Undefined <==> den == 0
    ensures num <= den && s.Defined? ==> 0.0 <= s.value <= 1.0
    ensures s.Defined? ==> s.value * den as real == num as real
  {
    if den == 0 then Undefined else Defined(num as real / den as real)
  }

  /** `calculate_precision`: true positives over true plus false positives. */
  function Precision(yTrue: seq<Label>, yPred: seq<Label>, pos: Label): (r: Result<Score>)
    ensures r.Err? <==> |yTrue| != |yPred|
    ensures r.Ok? ==> (r.value == Undefined <==> pos !in yPred)
    ensures r.Ok? && r.value.Defined? ==> 0.0 <= r.value.value <= 1.0
    ensures r.Ok? ==> r.value == Ratio(Count(Pairs(yTrue, yPred), pos, TruePositive), multiset(yPred)[pos])
  {
    if |yTrue| != |yPred| then Err(ShapeMismatch)
    else
      var aligned := Pairs(yTrue, yPred);
      var tp := Count(aligned, pos, TruePositive);
      var fp := Count(aligned, pos, FalsePositive);
      PredictedPositives(yTrue, yPred, pos);
      Ok(Ratio(tp, tp + fp))
  }

  /** `calculate_recall`: true positives over true positives plus false negatives. */
  function Recall(yTrue: seq<Label>, yPred: seq<Label>, pos: Label): (r: Result<Score>)
    ensures r.Err? <==> |yTrue| != |yPred|
    ensures r.Ok? ==> (r.value == Undefined <==> pos !in yTrue)
    ensures r.Ok? && r.value.Defined? ==> 0.0 <= r.value.value <= 1.0
    ensures r.Ok? ==> r.value == Ratio(Count(Pairs(yTrue, yPred), pos, TruePositive), multiset(yTrue)[pos])
  {
    if |yTrue| != |yPred| then Err(ShapeMismatch)
    else
      var aligned := Pairs(yTrue, yPred);
      var tp := Count(aligned, pos, TruePositive);
      var fn := Count(aligned, pos, FalseNegative);
      ActualPositives(yTrue, yPred, pos);
      Ok(Ratio(tp, tp + fn))
  }

  /** Dropping the first position of both arrays drops the first aligned pair. */
  lemma PairsTail(yTrue: seq<Label>, yPred: seq<Label>)
    requires |yTrue| == |yPred| && yTrue != []
    ensures Pairs(yTrue, yPred) == [(yTrue[0], yPred[0])] + Pairs(yTrue[1..], yPred[1..])
  {
  }

  /** Precision's denominator `tp + fp` is the number of positions predicted positive. */
  lemma {:induction false} PredictedPositives(yTrue: seq<Label>, yPred: seq<Label>, pos: Label)
    requires |yTrue| == |yPred|
    ensures Count(Pairs(yTrue, yPred), pos, TruePositive) + Count(Pairs(yTrue, yPred), pos, FalsePositive)
         == multiset(yPred)[pos]
  {
    if yTrue != [] {
      PairsTail(yTrue, yPred);
      PredictedPositives(yTrue[1..], yPred[1..], pos);
      assert yPred == [yPred[0]] + yPred[1..];
    }
  }

  /** Recall's denominator `tp + fn` is the number of positions whose truth is positive. */
  lemma {:induction false} ActualPositives(yTrue: seq<Label>, yPred: seq<Label>, pos: Label)
    requires |yTrue| == |yPred|
    ensures Count(Pairs(yTrue, yPred), pos, TruePositive) + Count(Pairs(yTrue, yPred), pos, FalseNegative)
         == multiset(yTrue)[pos]
  {
    if yTrue != [] {
      PairsTail(yTrue, yPred);
      ActualPositives(yTrue[1..], yPred[1..], pos);
      assert yTrue == [yTrue[0]] + yTrue[1..];
    }
  }

  /** Every position falls in exactly one of the four cells. */
  lemma {:induction false} CellsCoverAll(z: seq<(Label, Label)>, pos: Label)
    ensures Count(z, pos, TruePositive) + Count(z, pos, FalsePositive)
          + Count(z, pos, FalseNegative) + Count(z, pos, TrueNegative) == |z|
  {
    if z != [] {
      CellsCoverAll(z[1..], pos);
    }
  }

  /** A cell's count is zero exactly when no position falls in that cell. */
  lemma {:induction false} CountZero(z: seq<(Label, Label)>, pos: Label, c: Cell)
    ensures Count(z, pos, c) == 0 <==> forall i :: 0 <= i < |z| ==> !InCell(z[i].0, z[i].1, pos, c)
  {
    if z != [] {
      CountZero(z[1..], pos, c);
      assert forall i :: 1 <= i < |z| ==> z[i] == z[1..][i - 1];
    }
  }

  /** Counting a concatenation counts each part. */
  lemma {:induction false} CountAppend(a: seq<(Label, Label)>, b: seq<(Label, Label)>, pos: Label, c: Cell)
    ensures Count(a + b, pos, c) == Count(a, pos, c) + Count(b, pos, c)
  {
    if a == [] {
      assert a + b == b;
    } else {
      assert (a + b)[0] == a[0];
      assert (a + b)[1..] == a[1..] + b;
      CountAppend(a[1..], b, pos, c);
    }
  }

  /** Removing one position removes exactly its own contribution to a count. */
  lemma CountWithout(z: seq<(Label, Label)>, j: nat, pos: Label, c: Cell)
    requires j < |z|
    ensures Count(z, pos, c) == (if InCell(z[j].0, z[j].1, pos, c) then 1 else 0) + Count(z[..j] + z[j + 1..], pos, c)
  {
    assert z == (z[..j] + [z[j]]) + z[j + 1..];
    CountAppend(z[..j] + [z[j]], z[j + 1..], pos, c);
    CountAppend(z[..j], [z[j]], pos, c);
    CountAppend(z[..j], z[j + 1..], pos, c);
    assert [z[j]][1..] == [];
  }

  /**
   * When two sequences hold the same multiset, dropping the first element of one and
   * an equal element of the other leaves the same multiset.
   */
  lemma MultisetWithout(z1: seq<(Label, Label)>, z2: seq<(Label, Label)>, j: nat)
    requires multiset(z1) == multiset(z2)
    requires z1 != [] && j < |z2| && z2[j] == z1[0]
    ensures multiset(z1[1..]) == multiset(z2[..j] + z2[j + 1..])
  {
    var rest := z2[..j] + z2[j + 1..];
    assert z2 == z2[..j] + [z2[j]] + z2[j + 1..];
    assert multiset(z2) == multiset(z2[..j]) + multiset{z2[j]} + multiset(z2[j + 1..]);
    assert z1 == [z1[0]] + z1[1..];
    assert multiset(z1) == multiset{z1[0]} + multiset(z1[1..]);
    assert multiset(rest) == multiset(z2[..j]) + multiset(z2[j + 1..]);
    forall y
      ensures multiset(z1[1..])[y] == multiset(rest)[y]
    {
      assert multiset(z1)[y] == multiset(z2)[y];
    }
  }

  /** A count depends only on the multiset of aligned pairs, not on their order. */
  lemma {:induction false} CountReordered(z1: seq<(Label, Label)>, z2: seq<(Label, Label)>, pos: Label, c: Cell)
    requires multiset(z1) == multiset(z2)
    ensures Count(z1, pos, c) == Count(z2, pos, c)
    decreases |z1|
  {
    if z1 == [] {
      assert |z2| == |multiset(z2)| == 0;
    } else {
      var x := z1[0];
      assert x in multiset(z2);
      var j :| 0 <= j < |z2| && z2[j] == x;
      var rest := z2[..j] + z2[j + 1..];
      MultisetWithout(z1, z2, j);
      CountReordered(z1[1..], rest, pos, c);
      CountWithout(z2, j, pos, c);
    }
  }

  /**
   * Permuting both arrays by the same index order (so that the aligned pairs are
   * the same multiset) changes neither precision nor recall.
   */
  lemma PermutationInvariant(t1: seq<Label>, p1: seq<Label>, t2: seq<Label>, p2: seq<Label>, pos: Label)
    requires |t1| == |p1| && |t2| == |p2|
    requires multiset(Pairs(t1, p1)) == multiset(Pairs(t2, p2))
    ensures Precision(t1, p1, pos) == Precision(t2, p2, pos)
    ensures Recall(t1, p1, pos) == Recall(t2, p2, pos)
  {
    var z1, z2 := Pairs(t1, p1), Pairs(t2, p2);
    assert |z1| == |multiset(z1)| == |multiset(z2)| == |z2|;
    CountReordered(z1, z2, pos, TruePositive);
    CountReordered(z1, z2, pos, FalsePositive);
    CountReordered(z1, z2, pos, FalseNegative);
  }

  /** A perfect prediction with at least one positive label scores 1 on both metrics. */
  lemma PerfectPrediction(y: seq<Label>, pos: Label)
    requires pos in y
    ensures Precision(y, y, pos) == Ok(Defined(1.0))
    ensures Recall(y, y, pos) == Ok(Defined(1.0))
  {
    SelfComparison(y, pos);
    var n := multiset(y)[pos];
    assert n > 0;
    RatioOfEqual(n);
    assert Precision(y, y, pos) == Ok(Ratio(n, n));
    assert Recall(y, y, pos) == Ok(Ratio(n, n));
  }

  /** A positive count divided by itself is 1. */
  lemma RatioOfEqual(n: nat)
    requires n > 0
    ensures Ratio(n, n) == Defined(1.0)
  {
    assert n as real / n as real == 1.0;
  }

  /** Comparing labels with themselves yields only true positives among the positive labels. */
  lemma SelfComparison(y: seq<Label>, pos: Label)
    ensures Count(Pairs(y, y), pos, TruePositive) == multiset(y)[pos]
    ensures Count(Pairs(y, y), pos, FalsePositive) == 0
    ensures Count(Pairs(y, y), pos, FalseNegative) == 0
  {
    var z := Pairs(y, y);
    assert forall i :: 0 <= i < |z| ==> z[i].0 == z[i].1;
    CountZero(z, pos, FalsePositive);
    CountZero(z, pos, FalseNegative);
    PredictedPositives(y, y, pos);
  }

  /**
   * With no true positive, precision is 0 once something is predicted positive,
   * and recall is 0 once some truth label is positive.
   */
  lemma NoTruePositives(yTrue: seq<Label>, yPred: seq<Label>, pos: Label)
    requires |yTrue| == |yPred|
    requires forall i :: 0 <= i < |yTrue| ==> !(yTrue[i] == pos && yPred[i] == pos)
    ensures pos in yPred ==> Precision(yTrue, yPred, pos) == Ok(Defined(0.0))
    ensures pos in yTrue ==> Recall(yTrue, yPred, pos) == Ok(Defined(0.0))
  {
    CountZero(Pairs(yTrue, yPred), pos, TruePositive);
  }

  /** Truth [1, 1, 0, 0] against prediction [1, 0, 0, 1]: precision and recall are both 1/2. */
  lemma HalfAndHalf()
    ensures Precision([1.0, 1.0, 0.0, 0.0], [1.0, 0.0, 0.0, 1.0], 1.0) == Ok(Defined(0.5))
    ensures Recall([1.0, 1.0, 0.0, 0.0], [1.0, 0.0, 0.0, 1.0], 1.0) == Ok(Defined(0.5))
  {
    var z := Pairs([1.0, 1.0, 0.0, 0.0], [1.0, 0.0, 0.0, 1.0]);
    assert z == [(1.0, 1.0), (1.0, 0.0), (0.0, 0.0), (0.0, 1.0)];
    assert z[1..][1..][1..][1..] == [];
  }

  /** Truth all positive, prediction all negative: recall is 0 and precision is undefined. */
  lemma NothingPredicted()
    ensures Precision([1.0, 1.0, 1.0, 1.0], [0.0, 0.0, 0.0, 0.0], 1.0) == Ok(Undefined)
    ensures Recall([1.0, 1.0, 1.0, 1.0], [0.0, 0.0, 0.0, 0.0], 1.0) == Ok(Defined(0.0))
  {
    NoTruePositives([1.0, 1.0, 1.0, 1.0], [0.0, 0.0, 0.0, 0.0], 1.0);
  }
}
