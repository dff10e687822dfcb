/**
 * The squared hinge loss. Labels are first remapped so that 0 stands for the
 * negative class -1; Forward, read as the element-wise clamp the code
 * evidently intends, is then the mean of squared clipped margins. The code as
 * written squares the column maxima of the unclipped margins instead
 * (ForwardAsWritten).
 * Backward is what the code writes, an indicator times the negated label; it
 * is not the derivative of Forward (no factor 2, no division by the element
 * count, and for a negative label it is active on the wrong side of the
 * margin), and no gradient-consistency property is claimed for it.
 */
module SquaredHinge {
  import opened Matrices

  /** `target - (target == 0)` for one label: 0 becomes -1, anything else stays. */
  function Remap(t: real): (r: real)
    ensures r != 0.0
    ensures t == 0.0 ==> r == -1.0
    ensures t != 0.0 ==> r == t
  {
    t - (if t == 0.0 then 1.0 else 0.0)
  }

  lemma RemapIdempotent(t: real)
    ensures Remap(Remap(t)) == Remap(t)
  {
  }

  /** `max(1 - p * temp, 0)` squared, for prediction `p` and label `t`. */
  function SquaredMargin(p: real, t: real): real {
    var margin := 1.0 - p * Remap(t);
    var clipped := if margin > 0.0 then margin else 0.0;
    Product(clipped, clipped)
  }

  /**
   * `a * b`. The square is written through this function so that the proofs
   * see it as one term: the solver cannot carry an inequality on `x * x` over
   * to an equal value, but it can carry one on `Product(x, x)`.
   */
  function Product(a: real, b: real): real {
    a * b
  }

  /** A product of two positive reals is positive; MarginCleared uses it for a square. */
  lemma ProductPositive(a: real, b: real)
    requires a > 0.0 && b > 0.0
    ensures Product(a, b) > 0.0
  {
  }

  /** The element-wise squared margins. */
  function SquaredMargins(prediction: Matrix, target: Matrix): (m: Matrix)
    requires SameShape(prediction, target)
    ensures SameShape(m, prediction)
    ensures forall i, j :: 0 <= i < |m| && 0 <= j < Cols(m) ==>
      m[i][j] == SquaredMargin(prediction[i][j], target[i][j])
  {
    seq(|prediction|, i requires 0 <= i < |prediction| =>
      seq(Cols(prediction), j requires 0 <= j < Cols(prediction) =>
        SquaredMargin(prediction[i][j], target[i][j])))
  }

  /**
   * The loss with `max(X, 0.)` read as the element-wise clamp the code
   * evidently intends: the mean over the target's elements of the squared
   * clipped margins. There is no 'sum' mode.
   */
  function Forward(prediction: Matrix, target: Matrix): real
    requires SameShape(prediction, target) && NumElems(target) > 0
  {
    Total(SquaredMargins(prediction, target)) / NumElems(target) as real
  }

  /** The unclipped margins `1 - prediction % temp`. */
  function Margins(prediction: Matrix, target: Matrix): (m: Matrix)
    requires SameShape(prediction, target)
    ensures SameShape(m, prediction)
    ensures forall i, j :: 0 <= i < |m| && 0 <= j < Cols(m) ==>
      m[i][j] == 1.0 - prediction[i][j] * Remap(target[i][j])
  {
    seq(|prediction|, i requires 0 <= i < |prediction| =>
      seq(Cols(prediction), j requires 0 <= j < Cols(prediction) =>
        1.0 - prediction[i][j] * Remap(target[i][j])))
  }

  /** The largest entry of column `j`, one entry of Armadillo's `max(m, 0)`. */
  function ColumnMax(m: Matrix, j: nat): (r: real)
    requires IsMatrix(m) && |m| > 0 && j < Cols(m)
    ensures forall i :: 0 <= i < |m| ==> m[i][j] <= r
    ensures exists i :: 0 <= i < |m| && m[i][j] == r
    decreases |m|
  {
    var last := m[|m| - 1][j];
    if |m| == 1 then last
    else
      var rest := ColumnMax(m[..|m| - 1], j);
      if last > rest then last else rest
  }

  /**
   * The loss as the code is written. Armadillo's two-argument `max` with a
   * scalar second argument is `max(X, dim)`, so `max(1 - prediction % temp, 0.)`
   * is the row of column maxima of the unclipped margins, not a clamp. Its
   * squares are summed and divided by the target's element count.
   */
  function ForwardAsWritten(prediction: Matrix, target: Matrix): real
    requires SameShape(prediction, target) && NumElems(target) > 0
  {
    var m := Margins(prediction, target);
    var squares := seq(Cols(m), j requires 0 <= j < Cols(m) => Product(ColumnMax(m, j), ColumnMax(m, j)));
    Sum(squares) / NumElems(target) as real
  }

  /** The loss as written is never negative either: it is a sum of squares over a positive count. */
  lemma ForwardAsWrittenNonnegative(prediction: Matrix, target: Matrix)
    requires SameShape(prediction, target) && NumElems(target) > 0
    ensures ForwardAsWritten(prediction, target) >= 0.0
  {
    var m := Margins(prediction, target);
    var squares := seq(Cols(m), j requires 0 <= j < Cols(m) => Product(ColumnMax(m, j), ColumnMax(m, j)));
    forall j | 0 <= j < |squares|
      ensures squares[j] >= 0.0
    {
      var c := ColumnMax(m, j);
      if c > 0.0 {
        ProductPositive(c, c);
      } else if c < 0.0 {
        ProductPositive(-c, -c);
        assert Product(-c, -c) == Product(c, c);
      }
    }
    SumNonnegative(squares);
  }

  /**
   * A prediction of 2 for label 1 clears the margin, so the intended loss is
   * 0; as written, the column maximum of the margin is -1 and the loss is 1.
   */
  lemma ClearedMarginCharged()
    ensures ForwardAsWritten([[2.0]], [[1.0]]) == 1.0
    ensures Forward([[2.0]], [[1.0]]) == 0.0
  {
    var prediction, target := [[2.0]], [[1.0]];
    var m := Margins(prediction, target);
    assert m[0][0] == -1.0;
    assert ColumnMax(m, 0) == -1.0;
    var squares := seq(Cols(m), j requires 0 <= j < Cols(m) => Product(ColumnMax(m, j), ColumnMax(m, j)));
    assert squares == [1.0];
    assert Sum(squares) == Sum(squares[..0]) + 1.0;
    var clipped := SquaredMargins(prediction, target);
    MarginCleared(2.0, 1.0);
    assert clipped[0] == [0.0];
    assert RowSums(clipped) == [0.0];
    assert Sum(RowSums(clipped)) == Sum(RowSums(clipped)[..0]) + 0.0;
  }

  /** One gradient entry: `(p < 1 / temp) * -temp`. */
  function Slope(p: real, t: real): (r: real)
    ensures r == if p < 1.0 / Remap(t) then -Remap(t) else 0.0
  {
    (if p < 1.0 / Remap(t) then 1.0 else 0.0) * -Remap(t)
  }

  /**
   * What Backward writes: the prediction's shape, each entry -temp where the
   * prediction lies below 1 / temp and 0 elsewhere, with no division by the
   * element count.
   */
  function Backward(prediction: Matrix, target: Matrix): (g: Matrix)
    requires SameShape(prediction, target)
    ensures SameShape(g, prediction)
    ensures forall i, j :: 0 <= i < |g| && 0 <= j < Cols(g) ==>
      var temp := Remap(target[i][j]);
      g[i][j] == if prediction[i][j] < 1.0 / temp then -temp else 0.0
  {
    seq(|prediction|, i requires 0 <= i < |prediction| =>
      seq(Cols(prediction), j requires 0 <= j < Cols(prediction) =>
        Slope(prediction[i][j], target[i][j])))
  }

  lemma ForwardNonnegative(prediction: Matrix, target: Matrix)
    requires SameShape(prediction, target) && NumElems(target) > 0
    ensures Forward(prediction, target) >= 0.0
  {
    TotalNonnegative(SquaredMargins(prediction, target));
  }

  /** The loss vanishes exactly when every element clears the margin: p * temp >= 1. */
  lemma ForwardZeroIff(prediction: Matrix, target: Matrix)
    requires SameShape(prediction, target) && NumElems(target) > 0
    ensures Forward(prediction, target) == 0.0 <==>
      forall i, j :: 0 <= i < |prediction| && 0 <= j < Cols(prediction) ==>
        prediction[i][j] * Remap(target[i][j]) >= 1.0
  {
    var margins := SquaredMargins(prediction, target);
    TotalNonnegative(margins);
    forall i, j | 0 <= i < |prediction| && 0 <= j < Cols(prediction)
      ensures margins[i][j] == 0.0 <==> prediction[i][j] * Remap(target[i][j]) >= 1.0
    {
      MarginCleared(prediction[i][j], target[i][j]);
    }
  }

  lemma MarginCleared(p: real, t: real)
    ensures SquaredMargin(p, t) >= 0.0
    ensures SquaredMargin(p, t) == 0.0 <==> p * Remap(t) >= 1.0
  {
    var product := p * Remap(t);
    var margin := 1.0 - product;
    if margin > 0.0 {
      ProductPositive(margin, margin);
    } else {
      assert SquaredMargin(p, t) == 0.0;
      assert product >= 1.0;
    }
  }

  /**
   * Labels of exactly 1 or -1 with predictions of the same sign and magnitude
   * at least 1 give zero loss.
   */
  lemma ConfidentPredictionsCostNothing(prediction: Matrix, target: Matrix)
    requires SameShape(prediction, target) && NumElems(target) > 0
    requires forall i, j :: 0 <= i < |prediction| && 0 <= j < Cols(prediction) ==>
      (target[i][j] == 1.0 && prediction[i][j] >= 1.0) || (target[i][j] == -1.0 && prediction[i][j] <= -1.0)
    ensures Forward(prediction, target) == 0.0
  {
    ForwardZeroIff(prediction, target);
  }

  /**
   * Where Backward is active. For a positive label it is nonzero exactly where
   * the forward term is; for a negative label the two never overlap.
   */
  lemma SlopeRegions(p: real, t: real)
    ensures Remap(t) > 0.0 ==> (Slope(p, t) != 0.0 <==> SquaredMargin(p, t) > 0.0)
    ensures Remap(t) < 0.0 ==> Slope(p, t) == 0.0 || SquaredMargin(p, t) == 0.0
  {
    var temp := Remap(t);
    MarginCleared(p, t);
    if temp > 0.0 {
      assert p < 1.0 / temp <==> p * temp < 1.0 by {
        InverseBound(p, temp);
      }
    } else {
      assert p < 1.0 / temp <==> p * temp > 1.0 by {
        InverseBound(p, temp);
      }
    }
  }

  /**
   * SlopeRegions lifted to whole matrices: entry by entry, Backward's output is
   * nonzero exactly where the squared margin is for positive labels, and the
   * two never overlap for negative labels.
   */
  lemma BackwardRegions(prediction: Matrix, target: Matrix)
    requires SameShape(prediction, target)
    ensures forall i, j :: 0 <= i < |prediction| && 0 <= j < Cols(prediction) && Remap(target[i][j]) > 0.0 ==>
      (Backward(prediction, target)[i][j] != 0.0 <==> SquaredMargins(prediction, target)[i][j] > 0.0)
    ensures forall i, j :: 0 <= i < |prediction| && 0 <= j < Cols(prediction) && Remap(target[i][j]) < 0.0 ==>
      Backward(prediction, target)[i][j] == 0.0 || SquaredMargins(prediction, target)[i][j] == 0.0
  {
    var g, m := Backward(prediction, target), SquaredMargins(prediction, target);
    forall i, j | 0 <= i < |prediction| && 0 <= j < Cols(prediction)
      ensures Remap(target[i][j]) > 0.0 ==> (g[i][j] != 0.0 <==> m[i][j] > 0.0)
      ensures Remap(target[i][j]) < 0.0 ==> g[i][j] == 0.0 || m[i][j] == 0.0
    {
      SlopeRegions(prediction[i][j], target[i][j]);
    }
  }

  /** `p < 1 / temp` is `p * temp < 1` for a positive label and `p * temp > 1` for a negative one. */
  lemma InverseBound(p: real, temp: real)
    requires temp != 0.0
    ensures temp > 0.0 ==> (p < 1.0 / temp <==> p * temp < 1.0)
    ensures temp < 0.0 ==> (p < 1.0 / temp <==> p * temp > 1.0)
  {
    var inverse := 1.0 / temp;
    Reciprocal(temp);
    ScaleOrder(p, inverse, temp);
    CompareWithOne(p * temp, inverse * temp);
  }

  /** `(1 / x) * x == 1`, stated apart so the solver proves it without the surrounding products. */
  lemma Reciprocal(x: real)
    requires x != 0.0
    ensures (1.0 / x) * x == 1.0
  {
  }

  /** Multiplying by a positive factor keeps an order; a negative one flips it. */
  lemma ScaleOrder(a: real, b: real, c: real)
    requires c != 0.0
    ensures c > 0.0 ==> (a < b <==> a * c < b * c)
    ensures c < 0.0 ==> (a < b <==> a * c > b * c)
  {
    if a < b {
      assert c > 0.0 ==> a * c < b * c;
      assert c < 0.0 ==> a * c > b * c;
    } else if b < a {
      assert c > 0.0 ==> b * c < a * c;
      assert c < 0.0 ==> b * c > a * c;
    }
  }

  /**
   * Comparing with a product that is known to equal 1 is comparing with 1.
   * The product is passed in as `y`, so the solver does this step linearly.
   */
  lemma CompareWithOne(x: real, y: real)
    requires y == 1.0
    ensures x < y <==> x < 1.0
    ensures x > y <==> x > 1.0
  {
  }
}
