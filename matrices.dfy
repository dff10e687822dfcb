/**
 * Dense real matrices as the loss functions see them: the element-wise
 * operators they apply (Armadillo's `%`, `+`, scalar `/`), the whole-matrix
 * sum `accu`, the sum/mean reduction they share, and a caller-owned output
 * buffer that a backward pass resizes and overwrites.
 *
 * Entries are exact reals standing in for IEEE doubles.
 */
module Matrices {

  /** A dense matrix as a sequence of rows. */
  type Matrix = seq<seq<real>>

  /** Number of columns; a matrix with no rows has none. */
  function Cols(m: Matrix): nat {
    if |m| == 0 then 0 else |m[0]|
  }

  /** Every row has the same length. */
  predicate IsMatrix(m: Matrix) {
    forall i :: 0 <= i < |m| ==> |m[i]| == Cols(m)
  }

  predicate SameShape(a: Matrix, b: Matrix) {
    IsMatrix(a) && IsMatrix(b) && |a| == |b| && Cols(a) == Cols(b)
  }

  /** Armadillo's `n_elem`. */
  function NumElems(m: Matrix): nat {
    |m| * Cols(m)
  }

  /** The sum of a vector, accumulated from the front. */
  function Sum(s: seq<real>): real {
    if |s| == 0 then 0.0 else Sum(s[..|s| - 1]) + s[|s| - 1]
  }

  /** The sum of each row. */
  function RowSums(m: Matrix): (r: seq<real>)
    ensures |r| == |m|
    ensures forall i :: 0 <= i < |m| ==> r[i] == Sum(m[i])
  {
    seq(|m|, i requires 0 <= i < |m| => Sum(m[i]))
  }

  /** Armadillo's `accu`: the sum of every entry. */
  function Total(m: Matrix): real {
    Sum(RowSums(m))
  }

  /**
   * The reduction the loss layers apply to a summed loss over `n` elements:
   * with `reduction` the plain sum ('sum' reduction), otherwise the sum
   * divided by `n` ('mean' reduction).
   */
  function Reduce(sum: real, n: nat, reduction: bool): (r: real)
    requires reduction || n > 0
    ensures reduction ==> r == sum
    ensures !reduction ==> r * (n as real) == sum
  {
    if reduction then sum else sum / n as real
  }

  /** Element-wise product, Armadillo's `a % b`. */
  function Hadamard(a: Matrix, b: Matrix): (r: Matrix)
    requires SameShape(a, b)
    ensures SameShape(r, a)
    ensures forall i, j :: 0 <= i < |r| && 0 <= j < Cols(r) ==> r[i][j] == a[i][j] * b[i][j]
  {
    seq(|a|, i requires 0 <= i < |a| =>
      seq(Cols(a), j requires 0 <= j < Cols(a) => a[i][j] * b[i][j]))
  }

  /** Element-wise sum `a + b`. */
  function Plus(a: Matrix, b: Matrix): (r: Matrix)
    requires SameShape(a, b)
    ensures SameShape(r, a)
    ensures forall i, j :: 0 <= i < |r| && 0 <= j < Cols(r) ==> r[i][j] == a[i][j] + b[i][j]
  {
    seq(|a|, i requires 0 <= i < |a| =>
      seq(Cols(a), j requires 0 <= j < Cols(a) => a[i][j] + b[i][j]))
  }

  /** Every entry divided by a scalar, Armadillo's `m / d`. */
  function DivideAll(m: Matrix, d: real): (r: Matrix)
    requires IsMatrix(m) && d != 0.0
    ensures SameShape(r, m)
    ensures forall i, j :: 0 <= i < |r| && 0 <= j < Cols(r) ==> r[i][j] == m[i][j] / d
  {
    seq(|m|, i requires 0 <= i < |m| =>
      seq(Cols(m), j requires 0 <= j < Cols(m) => m[i][j] / d))
  }

  lemma {:induction false} SumAdd(a: seq<real>, b: seq<real>, c: seq<real>)
    requires |a| == |b| == |c|
    requires forall i :: 0 <= i < |c| ==> c[i] == a[i] + b[i]
    ensures Sum(c) == Sum(a) + Sum(b)
  {
    if |c| > 0 {
      var n := |c| - 1;
      SumAdd(a[..n], b[..n], c[..n]);
    }
  }

  lemma {:induction false} SumDivide(a: seq<real>, c: seq<real>, d: real)
    requires d != 0.0 && |a| == |c|
    requires forall i :: 0 <= i < |c| ==> c[i] == a[i] / d
    ensures Sum(c) == Sum(a) / d
  {
    if |c| > 0 {
      var n := |c| - 1;
      SumDivide(a[..n], c[..n], d);
      assert Sum(c) == Sum(a[..n]) / d + a[n] / d;
    }
  }

  lemma {:induction false} SumZero(s: seq<real>)
    requires forall i :: 0 <= i < |s| ==> s[i] == 0.0
    ensures Sum(s) == 0.0
  {
    if |s| > 0 {
      SumZero(s[..|s| - 1]);
    }
  }

  /** A vector that is zero except at `k` sums to its entry at `k`. */
  lemma {:induction false} SumUnit(s: seq<real>, k: nat)
    requires k < |s|
    requires forall i :: 0 <= i < |s| && i != k ==> s[i] == 0.0
    ensures Sum(s) == s[k]
  {
    var n := |s| - 1;
    if k == n {
      SumZero(s[..n]);
    } else {
      SumUnit(s[..n], k);
    }
  }

  /** Trailing zeros do not change a sum. */
  lemma {:induction false} SumZeroTail(s: seq<real>, k: nat)
    requires k <= |s|
    requires forall i :: k <= i < |s| ==> s[i] == 0.0
    ensures Sum(s) == Sum(s[..k])
  {
    if |s| > k {
      var n := |s| - 1;
      SumZeroTail(s[..n], k);
      assert s[..n][..k] == s[..k];
    } else {
      assert s[..k] == s;
    }
  }

  /** A sum of non-negative terms is non-negative, and zero exactly when every term is. */
  lemma {:induction false} SumNonnegative(s: seq<real>)
    requires forall i :: 0 <= i < |s| ==> s[i] >= 0.0
    ensures Sum(s) >= 0.0
    ensures Sum(s) == 0.0 <==> forall i :: 0 <= i < |s| ==> s[i] == 0.0
  {
    if |s| > 0 {
      var n := |s| - 1;
      SumNonnegative(s[..n]);
      if Sum(s) == 0.0 {
        assert Sum(s[..n]) == 0.0 && s[n] == 0.0;
        forall i | 0 <= i < |s| ensures s[i] == 0.0 {
          if i < n {
            assert s[..n][i] == s[i];
          }
        }
      } else if forall i :: 0 <= i < |s| ==> s[i] == 0.0 {
        SumZero(s);
      }
    }
  }

  lemma TotalAdd(a: Matrix, b: Matrix, c: Matrix)
    requires SameShape(a, b) && SameShape(c, a)
    requires forall i, j :: 0 <= i < |c| && 0 <= j < Cols(c) ==> c[i][j] == a[i][j] + b[i][j]
    ensures Total(c) == Total(a) + Total(b)
  {
    forall i | 0 <= i < |c| ensures Sum(c[i]) == Sum(a[i]) + Sum(b[i]) {
      SumAdd(a[i], b[i], c[i]);
    }
    SumAdd(RowSums(a), RowSums(b), RowSums(c));
  }

  lemma TotalDivide(a: Matrix, c: Matrix, d: real)
    requires SameShape(c, a) && d != 0.0
    requires forall i, j :: 0 <= i < |c| && 0 <= j < Cols(c) ==> c[i][j] == a[i][j] / d
    ensures Total(c) == Total(a) / d
  {
    forall i | 0 <= i < |c| ensures Sum(c[i]) == Sum(a[i]) / d {
      SumDivide(a[i], c[i], d);
    }
    SumDivide(RowSums(a), RowSums(c), d);
  }

  /** Dividing one factor of an element-wise product divides its total. */
  lemma HadamardDivide(a: Matrix, b: Matrix, d: real)
    requires SameShape(a, b) && d != 0.0
    ensures Total(Hadamard(a, DivideAll(b, d))) == Total(Hadamard(a, b)) / d
  {
    var product, scaled := Hadamard(a, b), Hadamard(a, DivideAll(b, d));
    forall i, j | 0 <= i < |scaled| && 0 <= j < Cols(scaled)
      ensures scaled[i][j] == product[i][j] / d
    {
      ProductDivide(a[i][j], b[i][j], d);
    }
    TotalDivide(product, scaled, d);
  }

  lemma ProductDivide(x: real, y: real, d: real)
    requires d != 0.0
    ensures x * (y / d) == (x * y) / d
  {
  }

  /** A matrix of non-negative entries has a non-negative total, zero exactly when every entry is. */
  lemma TotalNonnegative(m: Matrix)
    requires IsMatrix(m)
    requires forall i, j :: 0 <= i < |m| && 0 <= j < Cols(m) ==> m[i][j] >= 0.0
    ensures Total(m) >= 0.0
    ensures Total(m) == 0.0 <==> forall i, j :: 0 <= i < |m| && 0 <= j < Cols(m) ==> m[i][j] == 0.0
  {
    forall i | 0 <= i < |m|
      ensures Sum(m[i]) >= 0.0
      ensures Sum(m[i]) == 0.0 <==> forall j :: 0 <= j < Cols(m) ==> m[i][j] == 0.0
    {
      SumNonnegative(m[i]);
    }
    SumNonnegative(RowSums(m));
  }

  /**
   * A caller-owned dense matrix, such as the `loss` or `output` argument of a
   * backward pass: it can be reallocated to a new shape and updated in place.
   */
  class Mat {
    var cells: array2<real>

    constructor ()
      ensures fresh(cells) && Holds([])
    {
      cells := new real[0, 0];
    }

    /** The buffer stores exactly the matrix `m`, shape included. */
    predicate Holds(m: Matrix)
      reads this, cells
    {
      && IsMatrix(m)
      && cells.Length0 == |m|
      && cells.Length1 == Cols(m)
      && forall i, j :: 0 <= i < cells.Length0 && 0 <= j < cells.Length1 ==> cells[i, j] == m[i][j]
    }

    /**
     * Armadillo's `zeros(rows, cols)`: every entry 0 at the given shape. Storage
     * that already has that shape is kept and overwritten; otherwise the
     * matrix may get new storage.
     */
    method Zeros(rows: nat, cols: nat)
      modifies this, cells
      ensures cells == old(cells) || fresh(cells)
      ensures old(cells.Length0) == rows && old(cells.Length1) == cols ==> cells == old(cells)
      ensures cells.Length0 == rows && cells.Length1 == cols
      ensures forall i, j :: 0 <= i < rows && 0 <= j < cols ==> cells[i, j] == 0.0
    {
      if cells.Length0 != rows || cells.Length1 != cols {
        cells := new real[rows, cols]((i, j) => 0.0);
        return;
      }
      var a := cells;
      for i := 0 to rows
        modifies a
        invariant forall r, c :: 0 <= r < i && 0 <= c < cols ==> a[r, c] == 0.0
      {
        for j := 0 to cols
          modifies a
          invariant forall r, c :: 0 <= r < i && 0 <= c < cols ==> a[r, c] == 0.0
          invariant forall c :: 0 <= c < j ==> a[i, c] == 0.0
        {
          a[i, j] := 0.0;
        }
      }
    }

    /**
     * Copy assignment `this = m`. Storage that already has the shape of `m` is
     * kept and overwritten; otherwise the matrix may get new storage.
     */
    method Assign(m: Matrix)
      requires IsMatrix(m)
      modifies this, cells
      ensures cells == old(cells) || fresh(cells)
      ensures old(cells.Length0) == |m| && old(cells.Length1) == Cols(m) ==> cells == old(cells)
      ensures Holds(m)
    {
      if cells.Length0 != |m| || cells.Length1 != Cols(m) {
        cells := new real[|m|, Cols(m)]((i, j) requires 0 <= i < |m| && 0 <= j < Cols(m) => m[i][j]);
        return;
      }
      var a := cells;
      for i := 0 to |m|
        modifies a
        invariant forall r, c :: 0 <= r < i && 0 <= c < Cols(m) ==> a[r, c] == m[r][c]
      {
        for j := 0 to Cols(m)
          modifies a
          invariant forall r, c :: 0 <= r < i && 0 <= c < Cols(m) ==> a[r, c] == m[r][c]
          invariant forall c :: 0 <= c < j ==> a[i, c] == m[i][c]
        {
          a[i, j] := m[i][j];
        }
      }
    }

    /** `this = this / d`, entry by entry. */
    method DivideInPlace(d: real, ghost m: Matrix)
      requires d != 0.0 && Holds(m)
      modifies cells
      ensures Holds(DivideAll(m, d))
    {
      var a := cells;
      var i := 0;
      while i < a.Length0
        invariant 0 <= i <= a.Length0
        invariant forall r, c :: 0 <= r < i && 0 <= c < a.Length1 ==> a[r, c] == m[r][c] / d
        invariant forall r, c :: i <= r < a.Length0 && 0 <= c < a.Length1 ==> a[r, c] == m[r][c]
      {
        var j := 0;
        while j < a.Length1
          invariant 0 <= j <= a.Length1
          invariant forall r, c :: 0 <= r < i && 0 <= c < a.Length1 ==> a[r, c] == m[r][c] / d
          invariant forall c :: 0 <= c < j ==> a[i, c] == m[i][c] / d
          invariant forall c :: j <= c < a.Length1 ==> a[i, c] == m[i][c]
          invariant forall r, c :: i < r < a.Length0 && 0 <= c < a.Length1 ==> a[r, c] == m[r][c]
        {
          a[i, j] := a[i, j] / d;
          j := j + 1;
        }
        i := i + 1;
      }
    }
  }
}
