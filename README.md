# mlpack loss functions: negative log likelihood, hinge embedding, squared hinge

A Dafny model of three loss functions from mlpack's neural-network module
(`src/mlpack/methods/ann/loss_functions/`). Each loss has a forward pass that
returns a scalar loss for a batch of predictions and targets, and a backward
pass that writes a gradient into a matrix the caller supplies.

- `matrices.dfy` (module `Matrices`): dense matrices as `seq<seq<real>>`, the
  Armadillo operations the losses use (`accu` as `Total`, element-wise `%`,
  `+` and scalar `/`), the sum/mean reduction shared by two of the losses,
  and `Mat`, the caller-owned output matrix. `Mat` wraps an `array2<real>`.
  `zeros` and copy assignment overwrite its storage in place when it already
  has the requested shape, and may give it new storage otherwise; division by
  a scalar always updates it in place. A caller that keeps a reference to the
  storage therefore sees the gradient a backward pass writes into it.
- `negative_log_likelihood.dfy` (module `NllLoss`): the class
  `NegativeLogLikelihood`. Its one field is the `reduction` flag: true selects
  'sum' reduction, false selects 'mean'. It defaults to true and can be
  overwritten through the mutable `Reduction()` accessor. Forward fills a
  per-sample loss buffer in a loop, checking each class index against the
  number of prediction columns, then sums it and divides by the sample count
  under 'mean'. Backward zeroes the caller's matrix to the prediction's shape,
  writes -1 at each sample's target column, and under 'mean' divides the
  matrix in place by the sample count.
- `hinge_embedding_loss.dfy` (module `HingeEmbedding`): each element of input
  `x` and label `t` contributes `(1 - t) / 2 + x * t`; the contributions are
  summed or averaged. Backward copies the target into the caller's matrix and
  under 'mean' divides it in place by the input's element count. The loss is
  a datatype holding its `reduction` flag: nothing in the modelled code
  changes the flag after construction, and the datatype constructor stores
  exactly the given value.
- `squared_hinge_loss.dfy` (module `SquaredHinge`): labels are remapped
  (`target - (target == 0)`, so 0 becomes -1). The code computes
  `accu(square(max(1 - prediction % temp, 0.))) / n_elem`; there is no 'sum'
  mode. Backward is `(p < 1 / temp) * -temp` element-wise. Both are
  whole-matrix expressions and are modelled as functions. Armadillo's
  two-argument `max` with a scalar second argument is `max(X, dim)`, so as
  written the forward pass squares the column maxima of the unclipped margins
  (`SquaredHinge.ForwardAsWritten`). The model's `SquaredHinge.Forward` reads
  the call as the element-wise clamp the loss evidently intends, the mean of
  `max(1 - p * temp, 0)^2` over all elements; see "## Findings".

Two points where the documentation and the code differ; the model follows
the code:
- The class-index comment in `negative_log_likelihood.hpp` says indices run
  from 1 to the number of classes. The code accepts `0 <= t < n_cols`, and so
  does the model (`NllLoss.InRange`).
- Squared hinge Backward is not the derivative of its Forward. It has no
  factor 2 and no division by the element count. For a negative label it is
  active where the prediction is below `1 / temp`, which is where the margin is
  already cleared. `SquaredHinge.SlopeRegions` and `SquaredHinge.BackwardRegions`
  state where the two agree and where they do not; no gradient-consistency
  property is claimed.

The failed range check (`Log::Assert`, "Target class out of range.") is
modelled as an error result: `Err(TargetClassOutOfRange)` from Forward and
`Fail(TargetClassOutOfRange)` from Backward. When Backward fails, the caller's
matrix keeps the -1 entries written for the samples before the failing one.

## Model

| member | source | states |
|---|---|---|
| Matrices.Reduce | src/mlpack/methods/ann/loss_functions/negative_log_likelihood_impl.hpp:46-49 | 'sum' reduction returns the summed loss unchanged; 'mean' returns a value that, times the element count, gives back the sum |
| Matrices.Total | src/mlpack/methods/ann/loss_functions/hinge_embedding_loss_impl.hpp:37 | Armadillo's `accu`: the sum of the row sums, i.e. of every entry (its properties are the contracts of TotalAdd, TotalDivide and TotalNonnegative) |
| Matrices.TotalAdd | src/mlpack/methods/ann/loss_functions/hinge_embedding_loss_impl.hpp:37 | `accu` of an entry-wise sum is the sum of the two `accu`s |
| Matrices.TotalDivide | src/mlpack/methods/ann/loss_functions/hinge_embedding_loss_impl.hpp:42 | `accu` of a matrix divided by a scalar is its `accu` divided by that scalar |
| Matrices.TotalNonnegative | src/mlpack/methods/ann/loss_functions/squared_hinge_loss_impl.hpp:36 | `accu` of a matrix with no negative entry is not negative, and is 0 exactly when every entry is 0 |
| Matrices.Hadamard | src/mlpack/methods/ann/loss_functions/hinge_embedding_loss_impl.hpp:36 | Armadillo's `%`: the operands' shape, each entry the product of the two entries |
| Matrices.Plus | src/mlpack/methods/ann/loss_functions/hinge_embedding_loss_impl.hpp:36 | element-wise `+`: the operands' shape, each entry the sum of the two entries |
| Matrices.DivideAll | src/mlpack/methods/ann/loss_functions/hinge_embedding_loss_impl.hpp:55 | scalar `/`: the same shape, each entry divided by the scalar |
| Matrices.Mat.Zeros | src/mlpack/methods/ann/loss_functions/negative_log_likelihood_impl.hpp:59 | the matrix has the requested shape with every entry 0; storage that already had that shape is kept and overwritten, otherwise it is the old storage or new storage |
| Matrices.Mat.Assign | src/mlpack/methods/ann/loss_functions/hinge_embedding_loss_impl.hpp:52 | after the copy assignment the matrix holds exactly the given matrix, shape included; storage that already had that shape is kept and overwritten, otherwise it is the old storage or new storage |
| Matrices.Mat.DivideInPlace | src/mlpack/methods/ann/loss_functions/negative_log_likelihood_impl.hpp:68-69 | dividing in place leaves every entry equal to the old entry divided by the scalar, shape unchanged |
| NllLoss.NegativeLogLikelihood.constructor | src/mlpack/methods/ann/loss_functions/negative_log_likelihood_impl.hpp:21-26 | the new layer stores exactly the flag it is given |
| NllLoss.DefaultReduction | src/mlpack/methods/ann/loss_functions/negative_log_likelihood.hpp:41-47 | a layer constructed with no argument uses 'sum' reduction |
| NllLoss.NegativeLogLikelihood.Reduction | src/mlpack/methods/ann/loss_functions/negative_log_likelihood.hpp:94 | the const accessor returns the stored flag and changes nothing |
| NllLoss.NegativeLogLikelihood.SetReduction | src/mlpack/methods/ann/loss_functions/negative_log_likelihood.hpp:96 | writing through the mutable accessor sets the flag and may change no other state |
| NllLoss.ValidPrefix | src/mlpack/methods/ann/loss_functions/negative_log_likelihood_impl.hpp:60-64 | the number of samples the range check lets through before it stops: every index before it is in range, and the one at it is not |
| NllLoss.ValidPrefixStops | src/mlpack/methods/ann/loss_functions/negative_log_likelihood_impl.hpp:60-64 | the check stops at the first out-of-range index and nowhere else |
| NllLoss.NegativeLogLikelihood.Forward | src/mlpack/methods/ann/loss_functions/negative_log_likelihood_impl.hpp:35-49 | fails exactly when some class index is outside 0 <= t < columns; otherwise returns the sum of -prediction(i, target(i)) over the samples, divided by the sample count under 'mean' |
| NllLoss.Losses | src/mlpack/methods/ann/loss_functions/negative_log_likelihood_impl.hpp:35-43 | the per-sample loss buffer: one entry per sample, entry i equal to -prediction(i, target(i)) |
| NllLoss.Loss | src/mlpack/methods/ann/loss_functions/negative_log_likelihood_impl.hpp:35-49 | an error exactly when some class index is out of range; otherwise the sum of the per-sample losses under 'sum', and a value that times the sample count gives that sum under 'mean' |
| NllLoss.OneHot | src/mlpack/methods/ann/loss_functions/negative_log_likelihood_impl.hpp:59-65 | the zeroed matrix after the write loop: the given shape, -1 at (i, target(i)) for each sample and 0 everywhere else |
| NllLoss.Gradient | src/mlpack/methods/ann/loss_functions/negative_log_likelihood_impl.hpp:59-69 | a matrix of the prediction's shape with -1 (-1/n under 'mean') at (i, target(i)) and 0 everywhere else; it depends on the prediction's shape only, never its values |
| NllLoss.NegativeLogLikelihood.Backward | src/mlpack/methods/ann/loss_functions/negative_log_likelihood_impl.hpp:59-69 | succeeds exactly when every class index is in range and then leaves the caller's matrix holding the gradient; on failure the matrix has the prediction's shape and holds -1 only for the samples before the first bad index; a matrix that already had the prediction's shape keeps its storage, so the writes land in the caller's memory |
| NllLoss.RepeatedBackward | src/mlpack/methods/ann/loss_functions/negative_log_likelihood_impl.hpp:59-69 | calling Backward twice with the same error matrix gives the same outcome, and the second call writes into the storage the first one left |
| NllLoss.OneHotSelects | src/mlpack/methods/ann/loss_functions/negative_log_likelihood_impl.hpp:59-65 | summing the prediction times the one-hot -1 pattern gives the sum of the per-sample losses |
| NllLoss.GradientConsistent | src/mlpack/methods/ann/loss_functions/negative_log_likelihood_impl.hpp:35-69 | under either reduction the loss equals the sum over all entries of prediction times Backward's output |
| NllLoss.MeanIsSumOverCount | src/mlpack/methods/ann/loss_functions/negative_log_likelihood_impl.hpp:46-49 | both reductions fail on the same targets, and 'mean' is the 'sum' loss divided by the number of targets |
| HingeEmbedding.HingeEmbeddingLoss.Forward | src/mlpack/methods/ann/loss_functions/hinge_embedding_loss_impl.hpp:29-43 | the summed element losses, divided by the input's element count under 'mean' (its properties are ForwardShift's and MeanIsSumOverCount's contracts) |
| HingeEmbedding.HingeEmbeddingLoss.Gradient | src/mlpack/methods/ann/loss_functions/hinge_embedding_loss_impl.hpp:52-55 | the target's shape, each entry the target's entry under 'sum' and that entry divided by the input's element count under 'mean' |
| HingeEmbedding.Term | src/mlpack/methods/ann/loss_functions/hinge_embedding_loss_impl.hpp:36 | an element's loss is x for label 1 and 1 - x for label -1 |
| HingeEmbedding.Terms | src/mlpack/methods/ann/loss_functions/hinge_embedding_loss_impl.hpp:36 | the element-wise losses have the input's shape and hold each element's term |
| HingeEmbedding.HingeEmbeddingLoss.Backward | src/mlpack/methods/ann/loss_functions/hinge_embedding_loss_impl.hpp:52-55 | the caller's matrix ends up holding the target under 'sum' and the target divided by the input's element count under 'mean', whatever the input's values; a matrix that already had the target's shape keeps its storage |
| HingeEmbedding.TermsShift | src/mlpack/methods/ann/loss_functions/hinge_embedding_loss_impl.hpp:36-37 | shifting the input by delta shifts the summed element losses by the sum of delta times the target |
| HingeEmbedding.HingeEmbeddingLoss.ForwardShift | src/mlpack/methods/ann/loss_functions/hinge_embedding_loss_impl.hpp:36-55 | Forward is affine in the input and Backward's output is its slope: shifting the input by delta changes the loss by the sum of delta times the gradient, under either reduction |
| HingeEmbedding.MeanIsSumOverCount | src/mlpack/methods/ann/loss_functions/hinge_embedding_loss_impl.hpp:39-42 | 'mean' is the 'sum' loss divided by the input's element count |
| SquaredHinge.SquaredMargin | src/mlpack/methods/ann/loss_functions/squared_hinge_loss_impl.hpp:36 | one element's squared clipped margin, `max(1 - p * temp, 0)^2` (its properties are MarginCleared's contract) |
| SquaredHinge.Forward | src/mlpack/methods/ann/loss_functions/squared_hinge_loss_impl.hpp:28-38 | the forward pass under the clamp reading: the sum of the squared clipped margins divided by the target's element count, with no 'sum' mode (its properties are ForwardNonnegative's and ForwardZeroIff's contracts) |
| SquaredHinge.Margins | src/mlpack/methods/ann/loss_functions/squared_hinge_loss_impl.hpp:36 | the unclipped margins `1 - prediction % temp`, entry by entry, in the prediction's shape |
| SquaredHinge.ColumnMax | src/mlpack/methods/ann/loss_functions/squared_hinge_loss_impl.hpp:36 | one entry of `max(X, 0)`: an entry of column j that no entry of that column exceeds |
| SquaredHinge.ForwardAsWritten | src/mlpack/methods/ann/loss_functions/squared_hinge_loss_impl.hpp:36-37 | the forward pass as written: the squared column maxima of the unclipped margins, summed and divided by the target's element count (its all-inputs property is ForwardAsWrittenNonnegative's contract) |
| SquaredHinge.ForwardAsWrittenNonnegative | src/mlpack/methods/ann/loss_functions/squared_hinge_loss_impl.hpp:36-37 | the loss as written is never negative, since it sums squares and divides by a positive count |
| SquaredHinge.ClearedMarginCharged | src/mlpack/methods/ann/loss_functions/squared_hinge_loss_impl.hpp:36-37 | for prediction [[2]] and label [[1]] the code as written returns 1 while the clamped loss is 0 |
| SquaredHinge.Remap | src/mlpack/methods/ann/loss_functions/squared_hinge_loss_impl.hpp:35 | label 0 becomes -1, every other label is kept, and no remapped label is 0, so `1 / temp` is defined |
| SquaredHinge.RemapIdempotent | src/mlpack/methods/ann/loss_functions/squared_hinge_loss_impl.hpp:47 | remapping twice is the same as remapping once |
| SquaredHinge.SquaredMargins | src/mlpack/methods/ann/loss_functions/squared_hinge_loss_impl.hpp:36 | the element-wise squared clipped margins have the prediction's shape |
| SquaredHinge.MarginCleared | src/mlpack/methods/ann/loss_functions/squared_hinge_loss_impl.hpp:36 | an element's squared margin is never negative and is 0 exactly when p * temp >= 1 |
| SquaredHinge.ForwardNonnegative | src/mlpack/methods/ann/loss_functions/squared_hinge_loss_impl.hpp:36-37 | the loss is never negative |
| SquaredHinge.ForwardZeroIff | src/mlpack/methods/ann/loss_functions/squared_hinge_loss_impl.hpp:35-37 | the loss is 0 exactly when p * temp >= 1 for every element |
| SquaredHinge.ConfidentPredictionsCostNothing | src/mlpack/methods/ann/loss_functions/squared_hinge_loss_impl.hpp:35-37 | labels of 1 and -1 with predictions of the same sign and magnitude at least 1 cost nothing |
| SquaredHinge.Slope | src/mlpack/methods/ann/loss_functions/squared_hinge_loss_impl.hpp:48 | one gradient entry is -temp where p < 1 / temp and 0 elsewhere |
| SquaredHinge.Backward | src/mlpack/methods/ann/loss_functions/squared_hinge_loss_impl.hpp:47-48 | the gradient has the prediction's shape, each entry -temp where p < 1 / temp and 0 elsewhere, with no division by the element count |
| SquaredHinge.InverseBound | src/mlpack/methods/ann/loss_functions/squared_hinge_loss_impl.hpp:48 | Backward's test p < 1 / temp is p * temp < 1 for a positive label and p * temp > 1 for a negative one |
| SquaredHinge.SlopeRegions | src/mlpack/methods/ann/loss_functions/squared_hinge_loss_impl.hpp:36-48 | for a positive label the gradient entry is nonzero exactly where the squared margin is positive; for a negative label they are never both nonzero |
| SquaredHinge.BackwardRegions | src/mlpack/methods/ann/loss_functions/squared_hinge_loss_impl.hpp:36-48 | the same comparison, entry by entry, between Backward's output and the squared margins of whole matrices |

## Left out

- `serialize` (both classes): it calls into the cereal/Boost archive libraries, which are not part of this model.
- `InputParameter`, `OutputParameter` and `Delta`, with their storage: none of the loss logic reads them.
- `squared_hinge_loss.hpp` holds declarations only. The `SquaredHingeLoss` class has no state that the loss reads; its `outputParameter` is left out with the other parameter accessors, and its empty constructor is not modelled, so the loss is modelled as module-level functions.
- `hinge_embedding_loss.hpp` is not part of this model, so any accessor it declares for the flag is not modelled.
- IEEE floating point: entries are exact reals, with no rounding, NaN or infinity. Wherever 'mean' reduction divides by an element count, the model requires that count to be positive.
- Sparse matrices, cubes and Armadillo internals: only dense two-dimensional matrices are modelled.
- Size mismatches that Armadillo would report by throwing (element-wise operands of different shapes, an NLL target longer than the prediction has rows) are preconditions.
- `Log::Assert`'s logging and abort: a failed check is an error result, and the model does not say what happens to the process afterwards.
- NllLoss.NegativeLogLikelihood.Forward: the target is a row vector of integer class indices. Targets with more than one row, and the conversion of a non-integral or negative double to `size_t`, are not modelled; a negative index counts as out of range.
- A prediction with no rows is represented with no columns either, so its column count is 0.
- Matrices.Mat.Zeros: when the requested shape differs from the current one but Armadillo could still reuse the memory (the same element count, or a small matrix's preallocated buffer), the model does not say whether the storage is reused; it promises only the old storage or new storage.
- Matrices.Mat.Assign: the same as for Zeros when the assigned matrix's shape differs from the current one.

## Findings

| source | as written | input that shows it | evidently intended | confidence | as-written member | corrected member |
|---|---|---|---|---|---|---|
| src/mlpack/methods/ann/loss_functions/squared_hinge_loss_impl.hpp:36 | `arma::max(1 - prediction % temp, 0.)` passes a scalar as the second argument, which selects Armadillo's `max(X, dim)`: the column maxima of the unclipped margins, not a clamp at 0 | prediction [[2]], target [[1]]: the margin is -1, its column maximum is -1, so the loss is (-1)^2 / 1 = 1 although the prediction clears the margin | the element-wise clamp `max(1 - p * temp, 0)`, squared and averaged, which is 0 exactly when every p * temp >= 1 | not executed; reading of Armadillo's overloads, whose source is not part of this model | SquaredHinge.ClearedMarginCharged | SquaredHinge.Forward |
