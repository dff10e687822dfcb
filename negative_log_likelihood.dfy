/**
 * The negative log likelihood layer. Its input holds one row of
 * log-probabilities per sample; its target holds, per sample, the index of the
 * true class. The indices the code accepts are 0-based: 0 <= t < number of
 * prediction columns.
 */
module NllLoss {
  import opened Matrices

  /** The one failure of both passes: "Target class out of range." */
  datatype LossError = TargetClassOutOfRange

  datatype Result<T> = Ok(value: T) | Err(error: LossError)

  datatype Outcome = Pass | Fail(error: LossError)

  /** A class index the range check lets through. */
  predicate InRange(t: int, cols: nat) {
    0 <= t < cols
  }

  predicate ValidTargets(target: seq<int>, cols: nat) {
    forall i :: 0 <= i < |target| ==> InRange(target[i], cols)
  }

  /** How many samples a pass handles before the range check stops it. */
  function ValidPrefix(target: seq<int>, cols: nat): (k: nat)
    ensures k <= |target|
    ensures ValidTargets(target[..k], cols)
    ensures k < |target| ==> !InRange(target[k], cols)
  {
    if |target| == 0 || !InRange(target[0], cols) then 0
    else
      var k := ValidPrefix(target[1..], cols);
      assert target[..k + 1] == [target[0]] + target[1..][..k];
      k + 1
  }

  /** The per-sample losses Forward stores before summing: -prediction(i, target(i)). */
  function Losses(prediction: Matrix, target: seq<int>): (l: seq<real>)
    requires IsMatrix(prediction) && |target| <= |prediction|
    requires ValidTargets(target, Cols(prediction))
    ensures |l| == |target|
    ensures forall i :: 0 <= i < |target| ==> l[i] == -prediction[i][target[i]]
  {
    seq(|target|, i requires 0 <= i < |target| => -prediction[i][target[i]])
  }

  /** What Forward returns: the reduced sum of the per-sample losses, or the range failure. */
  function Loss(prediction: Matrix, target: seq<int>, reduction: bool): (r: Result<real>)
    requires IsMatrix(prediction) && |target| <= |prediction|
    requires reduction || |target| > 0
    ensures r.Err? <==> !ValidTargets(target, Cols(prediction))
    ensures r.Ok? && reduction ==> r.value == Sum(Losses(prediction, target))
    ensures r.Ok? && !reduction ==> r.value * |target| as real == Sum(Losses(prediction, target))
  {
    if ValidTargets(target, Cols(prediction)) then
      Ok(Reduce(Sum(Losses(prediction, target)), |target|, reduction))
    else
      Err(TargetClassOutOfRange)
  }

  /** A rows x cols matrix holding -1 at (i, target(i)) for each sample i and 0 elsewhere. */
  function OneHot(rows: nat, cols: nat, target: seq<int>): (m: Matrix)
    ensures |m| == rows && IsMatrix(m) && (rows > 0 ==> Cols(m) == cols)
    ensures forall r, c :: 0 <= r < rows && 0 <= c < cols ==>
      m[r][c] == if r < |target| && c == target[r] then -1.0 else 0.0
  {
    seq(rows, r requires 0 <= r < rows =>
      seq(cols, c requires 0 <= c < cols => if r < |target| && c == target[r] then -1.0 else 0.0))
  }

  /** What Backward writes on success: the one-hot pattern, divided by the sample count under 'mean'. */
  function Gradient(rows: nat, cols: nat, target: seq<int>, reduction: bool): (g: Matrix)
    requires reduction || |target| > 0
    ensures |g| == rows && IsMatrix(g) && (rows > 0 ==> Cols(g) == cols)
    ensures forall r, c :: 0 <= r < rows && 0 <= c < cols ==>
      g[r][c] == if r < |target| && c == target[r] then (if reduction then -1.0 else -1.0 / |target| as real) else 0.0
  {
    var hot := OneHot(rows, cols, target);
    if reduction then hot else DivideAll(hot, |target| as real)
  }

  /**
   * 'mean' reduction is the 'sum' loss divided by the number of target
   * elements, and both fail on the same targets.
   */
  lemma MeanIsSumOverCount(prediction: Matrix, target: seq<int>)
    requires IsMatrix(prediction) && |target| <= |prediction| && |target| > 0
    ensures Loss(prediction, target, false).Err? <==> Loss(prediction, target, true).Err?
    ensures Loss(prediction, target, true).Ok? ==>
      Loss(prediction, target, false).value == Loss(prediction, target, true).value / |target| as real
  {
  }

  /**
   * The gradient is consistent with the loss: the loss equals the sum over all
   * entries of prediction times Backward's output, under either reduction.
   */
  lemma GradientConsistent(prediction: Matrix, target: seq<int>, reduction: bool)
    requires IsMatrix(prediction) && |target| <= |prediction|
    requires ValidTargets(target, Cols(prediction))
    requires reduction || |target| > 0
    ensures Loss(prediction, target, reduction)
         == Ok(Total(Hadamard(prediction, Gradient(|prediction|, Cols(prediction), target, reduction))))
  {
    var hot := OneHot(|prediction|, Cols(prediction), target);
    var sum := Sum(Losses(prediction, target));
    var summed := Hadamard(prediction, hot);
    OneHotSelects(prediction, target);
    assert Total(summed) == sum;
    if reduction {
      assert Loss(prediction, target, reduction) == Ok(sum);
      assert Gradient(|prediction|, Cols(prediction), target, reduction) == hot;
    } else {
      var n := |target| as real;
      HadamardDivide(prediction, hot, n);
      assert Loss(prediction, target, reduction) == Ok(sum / n);
      assert Gradient(|prediction|, Cols(prediction), target, reduction) == DivideAll(hot, n);
    }
  }

  /** Multiplying by the one-hot pattern and summing picks out the per-sample losses. */
  lemma OneHotSelects(prediction: Matrix, target: seq<int>)
    requires IsMatrix(prediction) && |target| <= |prediction|
    requires ValidTargets(target, Cols(prediction))
    ensures Total(Hadamard(prediction, OneHot(|prediction|, Cols(prediction), target)))
         == Sum(Losses(prediction, target))
  {
    var product := Hadamard(prediction, OneHot(|prediction|, Cols(prediction), target));
    var losses := Losses(prediction, target);
    var sums := RowSums(product);
    forall r | 0 <= r < |prediction|
      ensures sums[r] == if r < |target| then losses[r] else 0.0
    {
      if r < |target| {
        SumUnit(product[r], target[r] as nat);
      } else {
        SumZero(product[r]);
      }
    }
    SumZeroTail(sums, |target|);
    assert sums[..|target|] == losses;
  }

  /** The layer; its one piece of state is the reduction flag. */
  class NegativeLogLikelihood {
    /** true: 'sum' reduction; false: 'mean' reduction. */
    var reduction: bool

    constructor (reduction: bool := true)
      ensures this.reduction == reduction
    {
      this.reduction := reduction;
    }

    /** The const accessor. */
    function Reduction(): (r: bool)
      reads this
      ensures r == reduction
    {
      reduction
    }

    /** A write through the mutable accessor `bool& Reduction()`. */
    method SetReduction(value: bool)
      modifies this`reduction
      ensures reduction == value
    {
      reduction := value;
    }

    /** Negates the selected log-probability of each sample, then sums or averages. */
    method Forward(prediction: Matrix, target: seq<int>) returns (r: Result<real>)
      requires IsMatrix(prediction) && |target| <= |prediction|
      requires reduction || |target| > 0
      ensures r.Err? <==> !ValidTargets(target, Cols(prediction))
      ensures r == Loss(prediction, target, reduction)
    {
      var loss := new real[|target|](_ => 0.0);
      for i := 0 to |target|
        invariant ValidTargets(target[..i], Cols(prediction))
        invariant forall k :: 0 <= k < i ==> loss[k] == -prediction[k][target[k]]
        invariant forall k :: i <= k < |target| ==> loss[k] == 0.0
      {
        var currentTarget := target[i];
        if !InRange(currentTarget, Cols(prediction)) {
          return Err(TargetClassOutOfRange);
        }
        loss[i] := -prediction[i][currentTarget];
      }
      assert target[..|target|] == target;
      assert loss[..] == Losses(prediction, target);
      var lossSum := Sum(loss[..]);
      if reduction {
        return Ok(lossSum);
      }
      return Ok(lossSum / |target| as real);
    }

    /**
     * Zeroes `loss` to the prediction's shape, writes -1 at (i, target(i))
     * sample by sample, then divides by the sample count under 'mean'. On an
     * out-of-range index it stops there, leaving the samples before it written.
     * Storage that already has the prediction's shape is written in place.
     */
    method Backward(prediction: Matrix, target: seq<int>, loss: Mat) returns (o: Outcome)
      requires IsMatrix(prediction) && |target| <= |prediction|
      requires reduction || |target| > 0
      modifies loss, loss.cells
      ensures loss.cells == old(loss.cells) || fresh(loss.cells)
      ensures old(loss.cells.Length0) == |prediction| && old(loss.cells.Length1) == Cols(prediction) ==>
        loss.cells == old(loss.cells)
      ensures o.Pass? <==> ValidTargets(target, Cols(prediction))
      ensures o.Pass? ==> loss.Holds(Gradient(|prediction|, Cols(prediction), target, reduction))
      ensures o.Fail? ==>
        loss.Holds(OneHot(|prediction|, Cols(prediction), target[..ValidPrefix(target, Cols(prediction))]))
    {
      var rows, cols := |prediction|, Cols(prediction);
      loss.Zeros(rows, cols);
      var buffer := loss.cells;
      assert loss.Holds(OneHot(rows, cols, target[..0]));
      for i := 0 to |target|
        invariant loss.cells == buffer
        invariant ValidTargets(target[..i], cols)
        invariant loss.Holds(OneHot(rows, cols, target[..i]))
      {
        var currentTarget := target[i];
        if !InRange(currentTarget, cols) {
          assert ValidPrefix(target, cols) == i by {
            ValidPrefixStops(target, cols, i);
          }
          return Fail(TargetClassOutOfRange);
        }
        loss.cells[i, currentTarget] := -1.0;
        assert target[..i + 1][..i] == target[..i];
      }
      assert target[..|target|] == target;
      if !reduction {
        loss.DivideInPlace(|target| as real, OneHot(rows, cols, target));
      }
      return Pass;
    }
  }

  /** The range check stops at the first out-of-range index. */
  lemma ValidPrefixStops(target: seq<int>, cols: nat, i: nat)
    requires i < |target| && ValidTargets(target[..i], cols) && !InRange(target[i], cols)
    ensures ValidPrefix(target, cols) == i
  {
  }

  /** `NegativeLogLikelihood()` with no argument selects 'sum' reduction. */
  method DefaultReduction() returns (r: bool)
    ensures r
  {
    var nll := new NegativeLogLikelihood();
    r := nll.Reduction();
  }

  /**
   * A training loop hands Backward the same error matrix on every step. From
   * the second step on the matrix already has the prediction's shape, so the
   * gradient is written into the storage the caller already holds.
   */
  method RepeatedBackward(prediction: Matrix, target: seq<int>) returns (first: Outcome, second: Outcome, reused: bool)
    requires IsMatrix(prediction) && |target| <= |prediction|
    ensures reused
    ensures first == second
    ensures second.Pass? <==> ValidTargets(target, Cols(prediction))
  {
    var nll := new NegativeLogLikelihood();
    var loss := new Mat();
    first := nll.Backward(prediction, target, loss);
    var storage := loss.cells;
    second := nll.Backward(prediction, target, loss);
    reused := loss.cells == storage;
  }
}
