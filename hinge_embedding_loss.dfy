/**
 * The hinge embedding loss. Targets are labels, normally 1 or -1; each
 * element contributes (1 - t) / 2 + x * t, which is x for a positive label and
 * 1 - x for a negative one.
 */
module HingeEmbedding {
  import opened Matrices

  /** The loss of one element with input `x` and label `t`. */
  function Term(x: real, t: real): (r: real)
    ensures t == 1.0 ==> r == x
    ensures t == -1.0 ==> r == 1.0 - x
  {
    (1.0 - t) / 2.0 + x * t
  }

  /** The element-wise losses `(1 - target) / 2 + input % target`. */
  function Terms(input: Matrix, target: Matrix): (m: Matrix)
    requires SameShape(input, target)
    ensures SameShape(m, input)
    ensures forall i, j :: 0 <= i < |m| && 0 <= j < Cols(m) ==> m[i][j] == Term(input[i][j], target[i][j])
  {
    seq(|input|, i requires 0 <= i < |input| =>
      seq(Cols(input), j requires 0 <= j < Cols(input) => Term(input[i][j], target[i][j])))
  }

  /**
   * The loss; `reduction` selects 'sum' (true) or 'mean' (false). The flag is
   * set at construction and never changed by the loss itself.
   */
  datatype HingeEmbeddingLoss = HingeEmbeddingLoss(reduction: bool) {

    /** The summed element losses, divided by the input's element count under 'mean'. */
    function Forward(input: Matrix, target: Matrix): real
      requires SameShape(input, target)
      requires reduction || NumElems(input) > 0
    {
      Reduce(Total(Terms(input, target)), NumElems(input), reduction)
    }

    /** What Backward writes: the target, divided by the input's element count under 'mean'. */
    function Gradient(input: Matrix, target: Matrix): (g: Matrix)
      requires IsMatrix(input) && IsMatrix(target)
      requires reduction || NumElems(input) > 0
      ensures SameShape(g, target)
      ensures forall i, j :: 0 <= i < |g| && 0 <= j < Cols(g) ==>
        g[i][j] == if reduction then target[i][j] else target[i][j] / NumElems(input) as real
    {
      if reduction then target else DivideAll(target, NumElems(input) as real)
    }

    /**
     * Copies the target into `output`, then under 'mean' divides it in place
     * by the input's element count. The input's values are never read.
     */
    method Backward(input: Matrix, target: Matrix, output: Mat)
      requires IsMatrix(input) && IsMatrix(target)
      requires reduction || NumElems(input) > 0
      modifies output, output.cells
      ensures output.cells == old(output.cells) || fresh(output.cells)
      ensures old(output.cells.Length0) == |target| && old(output.cells.Length1) == Cols(target) ==>
        output.cells == old(output.cells)
      ensures output.Holds(Gradient(input, target))
      ensures reduction ==> output.Holds(target)
    {
      output.Assign(target);
      if !reduction {
        output.DivideInPlace(NumElems(input) as real, target);
      }
    }

    /**
     * The loss is affine in the input and Backward's output is its slope:
     * shifting the input by `delta` changes Forward by the sum of `delta`
     * times the gradient, under either reduction.
     */
    lemma ForwardShift(input: Matrix, delta: Matrix, target: Matrix)
      requires SameShape(input, target) && SameShape(delta, target)
      requires reduction || NumElems(input) > 0
      ensures Forward(Plus(input, delta), target)
           == Forward(input, target) + Total(Hadamard(delta, Gradient(input, target)))
    {
      var shifted := Plus(input, delta);
      var base, slope := Total(Terms(input, target)), Total(Hadamard(delta, target));
      TermsShift(input, delta, target);
      assert NumElems(shifted) == NumElems(input);
      if reduction {
        assert Gradient(input, target) == target;
      } else {
        var n := NumElems(input) as real;
        HadamardDivide(delta, target, n);
        assert Gradient(input, target) == DivideAll(target, n);
        assert Forward(shifted, target) == (base + slope) / n;
        assert Forward(input, target) == base / n;
        DivideSum(base, slope, n);
      }
    }
  }

  lemma DivideSum(a: real, b: real, n: real)
    requires n != 0.0
    ensures (a + b) / n == a / n + b / n
  {
  }

  /** Summed element losses shift by the sum of `delta % target`. */
  lemma TermsShift(input: Matrix, delta: Matrix, target: Matrix)
    requires SameShape(input, target) && SameShape(delta, target)
    ensures Total(Terms(Plus(input, delta), target)) == Total(Terms(input, target)) + Total(Hadamard(delta, target))
  {
    var shifted := Plus(input, delta);
    var before, after := Terms(input, target), Terms(shifted, target);
    var slope := Hadamard(delta, target);
    forall i, j | 0 <= i < |after| && 0 <= j < Cols(after)
      ensures after[i][j] == before[i][j] + slope[i][j]
    {
      var x, d, t := input[i][j], delta[i][j], target[i][j];
      assert shifted[i][j] == x + d;
      TermShift(x, d, t);
    }
    TotalAdd(before, slope, after);
  }

  lemma TermShift(x: real, d: real, t: real)
    ensures Term(x + d, t) == Term(x, t) + d * t
  {
  }

  /** 'mean' reduction is the 'sum' loss divided by the input's element count. */
  lemma MeanIsSumOverCount(input: Matrix, target: Matrix)
    requires SameShape(input, target) && NumElems(input) > 0
    ensures HingeEmbeddingLoss(false).Forward(input, target)
         == HingeEmbeddingLoss(true).Forward(input, target) / NumElems(input) as real
  {
  }
}
