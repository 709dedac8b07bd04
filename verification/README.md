# Shifted Inverse-Gamma mixture fitter: control and bookkeeping

A Dafny model of the fitting core of ToBvalid's `InverseGammaMixture`.
ToBvalid fits a mixture of shifted Inverse-Gamma distributions to the
B-factors of a macromolecular structure. The model covers:

- the argument check (`_check_parameters`);
- the initial estimate (`_init_parameters`);
- one parameter update with its backtracking line search (`_m_step`);
- the structure of the gradient / Hessian / objective evaluation (`CalcFisherMatrix`);
- the layout of the Newton direction (`shiftcalc`);
- the parameter snapshot (`params`).

All quantities are Dafny `real`s. The special functions (digamma, trigamma,
log-gamma, log) are uninterpreted functions carried in a `Special` value.
The damped matrix inverse is an input.

Modules, one per file:

- `Base` (`base.dfy`): constants c = 0.1, al0 = 3.5, sig = 0.1,
  epsilon = 1e-16, the 0.1 floor and the 0.7 shrink factor; the parameter
  triple; the `Problem` inputs owned by the base class; the dot product;
  and the `Result` / `Option` wrappers.
- `Validation` (`validation.dfy`): `_check_parameters`.
- `Initialiser` (`initialiser.dfy`): `_init_parameters`, with each error
  numpy or Python would raise as an `InitError`.
- `Fisher` (`fisher.dfy`): per-mode statistics, the 3 x 3 blocks, the
  gradients, the objective, and the triple loop that assembles the
  3K x 3K matrix.
- `Direction` (`direction.dfy`): interleaving of the gradient, the
  product with the negated inverse, and the reshape back to three rows.
- `LineSearch` (`linesearch.dfy`): the backtracking loop, `_m_step`, and
  `params`.

## Model

| member | source | states |
|---|---|---|
| Validation.CheckParameters | tobevalid/mixture/invgamma_mixture.py:27-29 | fails, with the message "Inverse Gamma Mixture requires 'z'", exactly when the fitter is not yet fitted, no `z` was passed and K > 1; passes in every other case |
| Initialiser.ValidationSuppliesResponsibilities | tobevalid/mixture/invgamma_mixture.py:28-43 | once validation passes (and a resumed fit has kept its matrix), initialisation never fails for want of a responsibility matrix |
| Initialiser.Ones | tobevalid/mixture/invgamma_mixture.py:38-39 | the K = 1 responsibilities are an N x 1 matrix whose every entry is 1 |
| Initialiser.SelectResponsibilities | tobevalid/mixture/invgamma_mixture.py:38-41 | with one mode the matrix is the column of ones; otherwise a supplied `z` wins, and without one the matrix an earlier fit left is kept; none is available exactly when K > 1 and neither exists |
| Initialiser.MinSignificant | tobevalid/mixture/invgamma_mixture.py:45-46 | is None exactly when no responsibility exceeds 0.1; otherwise it is one of the significant observations and at most every one of them |
| Initialiser.Estimate | tobevalid/mixture/invgamma_mixture.py:43-49 | every shape is 3.5; every shift is the least significant observation of its mode; every column sum is positive; and shift + betta / (alpha - 1) equals the mode's weighted mean |
| Initialiser.InitParameters | tobevalid/mixture/invgamma_mixture.py:31-49 | reports a missing matrix exactly when K > 1 with no `z` and no earlier matrix; reports an empty selection exactly when some mode of a well-shaped matrix has no responsibility above 0.1; succeeds exactly when a matrix is available, it is N x K and every mode has a responsibility above 0.1; on success the step is 1, Z is a column of ones for K = 1 (else the chosen matrix), and the parameters are the initial estimate for it |
| Initialiser.NegativeScaleStart | tobevalid/mixture/invgamma_mixture.py:43-49 | for K = 2, data [1, 10] and responsibilities [[0.9, 0.1], [0.1, 0.9]], initialisation succeeds with mode 2's scale negative: its shift is 10 and its weighted mean 9.1 |
| Initialiser.SingleModeScaleNonNegative | tobevalid/mixture/invgamma_mixture.py:38-49 | for K = 1, initialisation succeeds exactly when there is data, and the initial scale is then non-negative because the mean is at least the minimum |
| Initialiser.MeanAtLeast | tobevalid/mixture/invgamma_mixture.py:43-44 | the responsibility-weighted mean of observations that are all at least m is at least m |
| Fisher.ModeStats | tobevalid/mixture/invgamma_mixture.py:104-112 | with non-negative responsibilities, the sums of z / (x - shift) and z / (x - shift)^2 over the observations above the shift are non-negative |
| Fisher.ExcludedObservationIgnored | tobevalid/mixture/invgamma_mixture.py:104-112 | an observation at or below a mode's shift contributes nothing to that mode's three sums, whatever its value below the shift and whatever its responsibility |
| Fisher.EmptySupportStats | tobevalid/mixture/invgamma_mixture.py:104-112 | a mode whose shift is at or above every observation has all-zero sums |
| Fisher.Block | tobevalid/mixture/invgamma_mixture.py:117-122 | each mode's block is 3 x 3 and symmetric, and its alpha-alpha entry is n * trigamma(alpha) plus the prior precision it is given |
| Fisher.BlocksAsWritten | tobevalid/mixture/invgamma_mixture.py:85-122 | one symmetric 3 x 3 block per mode; in every block the alpha-alpha entry exceeds n_i * trigamma(alpha_i) by `w[0]` = 100 |
| Fisher.BlocksCorrected | tobevalid/mixture/invgamma_mixture.py:85-122 | one symmetric 3 x 3 block per mode; in block i the alpha-alpha entry exceeds n_i * trigamma(alpha_i) by the mode's own `w[i]` |
| Fisher.GradAlpha | tobevalid/mixture/invgamma_mixture.py:124-125 | one entry per mode; for a mode whose shift is at or above every observation, the entry is n * psi(alpha) - n * log(betta) plus the prior gradient w_i (alpha - 3.5) |
| Fisher.GradBetta | tobevalid/mixture/invgamma_mixture.py:126 | one entry per mode; for a mode whose shift is at or above every observation, the entry is -n * alpha / betta |
| Fisher.GradShift | tobevalid/mixture/invgamma_mixture.py:127-128 | one entry per mode; for a mode whose shift is at or above every observation, the entry is 0 |
| Fisher.LogLike | tobevalid/mixture/invgamma_mixture.py:130-131 | with one mode, the objective is mix[0] times that mode's term (how modes combine in general is `Fisher.LogLikeSeparates`) |
| Fisher.ModeTermsAt | tobevalid/mixture/invgamma_mixture.py:130-131 | entry i of the vector dotted with the mixing weights is mode i's term |
| Fisher.LogLikeSeparates | tobevalid/mixture/invgamma_mixture.py:130-131 | when only mode i's parameters change, the objective changes by mix[i] times the change of entry i of the term vector, so the modes' terms are independent |
| Fisher.AssembleHessian | tobevalid/mixture/invgamma_mixture.py:133-136 | the triple loop over a zero matrix yields a 3K x 3K matrix that is zero outside the diagonal blocks; block i is mix[i] * d2f[i]; it is symmetric when every block is |
| Fisher.CalcFisherMatrix | tobevalid/mixture/invgamma_mixture.py:84-136 | the stored matrix is block diagonal and symmetric with the blocks as written; the stored gradients and objective are those of the current parameters |
| Fisher.CalcFisherMatrixCorrected | tobevalid/mixture/invgamma_mixture.py:84-136 | the same, with each mode's block built with its own prior precision |
| Fisher.PriorCurvatureAsWritten | tobevalid/mixture/invgamma_mixture.py:117-125 | with two or more modes, the blocks as written give mode 2 a prior curvature of 100; yet mode 2's prior gradient term has slope 0 |
| Fisher.PriorCurvatureCorrected | tobevalid/mixture/invgamma_mixture.py:117-131 | with per-mode precisions, every mode's prior curvature is the exact slope of its prior gradient term and the exact second-order coefficient of its prior objective term |
| Direction.Interleave | tobevalid/mixture/invgamma_mixture.py:142-143 | the flattened gradient has length 3K, with alpha_i, betta_i and shift_i at positions 3i, 3i + 1 and 3i + 2 |
| Direction.ReshapeInterleave | tobevalid/mixture/invgamma_mixture.py:142-145 | reshaping the interleaved vector gives back the three gradient vectors |
| Direction.InterleaveReshape | tobevalid/mixture/invgamma_mixture.py:142-145 | interleaving the three reshaped rows gives back the flat vector, so the two layouts are inverse |
| Direction.ShiftCalc | tobevalid/mixture/invgamma_mixture.py:138-145 | the direction is a 3 x K matrix (what each row holds is the ensures of `Direction.ShiftCalcLayout`) |
| Direction.ShiftCalcFlattens | tobevalid/mixture/invgamma_mixture.py:142-145 | read back in interleaved order, the three rows are exactly `-inv` applied to the interleaved gradient, so the reshape loses and reorders nothing |
| Direction.ShiftCalcLayout | tobevalid/mixture/invgamma_mixture.py:138-145 | component j (alpha, betta, shift) of mode i of the direction is minus row 3i + j of the inverse applied to the interleaved gradient |
| Direction.BlockDiagonalDecouples | tobevalid/mixture/invgamma_mixture.py:138-145 | a fact about the undamped layout: with a block-diagonal inverse, mode i's direction depends only on block i and mode i's own three gradient entries. The random perturbation added at line 141 makes the damped inverse dense, so the hypothesis does not hold for the matrix the source inverts |
| LineSearch.Propose | tobevalid/mixture/invgamma_mixture.py:62-66 | every proposal has shape and scale at least 0.1; each is the unclamped update or the floor, and never below the unclamped update; the shift is the unclamped update |
| LineSearch.ProposalMovesShift | tobevalid/mixture/invgamma_mixture.py:66 | a non-zero step along a non-zero shift component changes that shift |
| LineSearch.ProposalEvaluable | tobevalid/mixture/invgamma_mixture.py:62-68 | every proposal can be passed to `CalcFisherMatrix` again |
| LineSearch.Backtrack | tobevalid/mixture/invgamma_mixture.py:60-81 | the loop terminates; the step equals step0 * 0.7 per rejection; it accepts exactly when it rejected nothing or the shrunk step is still above 1e-16; every rejected proposal had a larger objective than before; an accepted proposal's objective is not larger; after two or more rejections, the step before the last shrink was still above 1e-16 |
| LineSearch.Search | tobevalid/mixture/invgamma_mixture.py:60-81 | the loop together with the evaluation of the proposal tried last, which is the accepted one, or when it gives up, the last rejected one |
| LineSearch.GivesUpAtLimit | tobevalid/mixture/invgamma_mixture.py:70-76 | starting from step 1, a search that gives up does so after exactly 104 rejections |
| LineSearch.AcceptsBeforeLimit | tobevalid/mixture/invgamma_mixture.py:70-76 | starting from step 1, a search that accepts does so after fewer than 104 rejections |
| LineSearch.MStep | tobevalid/mixture/invgamma_mixture.py:51-82 | as written. `self.step` is unchanged. On success the new parameters are the accepted proposal, its objective is at most the old one, and shape and scale are at least 0.1. On giving up, alpha, betta and the objective are restored, the saved shift goes to `shiftv`, and `shift` keeps the last rejected proposal. From step 1 the search gives up after exactly 104 rejections |
| LineSearch.MStepCorrected | tobevalid/mixture/invgamma_mixture.py:51-82 | with the give-up branch restoring `shift`: a search that gives up leaves the parameters and the `params()` snapshot exactly as they were |
| LineSearch.ParamsOf | tobevalid/mixture/invgamma_mixture.py:148-149 | the snapshot carries the mixing weights and exactly the current alpha, betta and shift |
| LineSearch.SnapshotIgnoresShiftv | tobevalid/mixture/invgamma_mixture.py:148-149 | `params()` reports `shift` and is unaffected by `shiftv` |

## Left out

- Special functions: `special.psi`, `special.polygamma(1, ·)`, `special.gammaln` and `np.log` are uninterpreted `real -> real` functions, since their floating-point values are outside the model.
- `np.linalg.inv` and the `np.random.randn` perturbation in `shiftcalc`: the damped inverse is an input of `MStep` and `ShiftCalc`, since they are numerical linear algebra and ambient randomness.
- `_pdf`, `_cdf`, `_ppf`: left out because they only wrap `scipy.stats.invgamma`.
- `report`: left out because it does plotting and report rendering.
- The base class `BaseMixture`: it is not part of this model. The observations, the responsibility matrix, the counts `self.N`, the mixing weights, the `_fit` flag and the outer EM loop are given inputs.
- `self.loglike()` (line 58) is defined in the base class, which is not part of this model. It is taken to return the `_loglike` that the preceding `CalcFisherMatrix` stored.
- `src/parser.py` and `tobvalid/parsers/__init__.py`: left out because they do structure-file I/O and re-exports.
- Floating point: all arithmetic is over the reals, so rounding, overflow to infinity and NaN are not modelled. `CalcFisherMatrix` and everything that evaluates it therefore require every scale to be positive. At a zero scale the source divides by zero and produces infinities. At a negative one, `np.log(betta)` at lines 124 and 130 produces NaN.
- Initialiser.InitParameters: requires responsibilities in [0, 1], the data model's invariant. That is what makes the column sum of a mode with a significant observation positive. With arbitrary reals, numpy would divide by a zero or negative sum.
- LineSearch.MStep: requires every scale to be positive, so it does not model a negative-scale start. For K > 1 the initialiser can produce one (`Initialiser.NegativeScaleStart`). From such a start the source computes a NaN objective and gradient. The direction and every proposal are then NaN, since `np.maximum` passes NaN through. `nan > ifvalue` at line 70 is false, so the first proposal is accepted and `_m_step` returns True with NaN parameters.
- Initialiser.InitParameters: every numpy error caused by a supplied matrix that is not N x K is collapsed into one `ShapeMismatch` case.
- Shift versus observations: each shift equals the least significant observation of its mode (lines 45-47). `CalcFisherMatrix` then leaves that observation out of the mode's sums, because its mask is `data > shift` (line 105). The model keeps both as written: `Initialiser.Estimate` places the shift on an observation, and `Fisher.ExcludedObservationIgnored` shows that such an observation contributes nothing.
- `self.step` is set to 1 at initialisation and never written again, so every `_m_step` starts from step 1. `MStep` takes the step as a field of the state and proves it unchanged; the 104-rejection bound is stated for step 1.
- The Hessian reaches the line search only through the damped inverse, which is an input. `MStep` and `MStepCorrected` therefore read only the gradients and the objective of `CalcFisherMatrix`, and the corrected blocks do not change their contracts.
- The outer EM loop, convergence test and iteration cap belong to the base class and are left out with it.

## Findings

| source | as written | input that shows it | evidently intended | confidence | as-written member | corrected member |
|---|---|---|---|---|---|---|
| tobevalid/mixture/invgamma_mixture.py:76-80 | on giving up, the saved shift is written to `self.shiftv`, so `self.shift` keeps the last rejected proposal while alpha, betta and the objective are restored | a call whose proposals all raise the objective, with shift[i] = 20 and shift component 100 of the direction: after 104 rejections the last proposal is 20 + 0.7^103 * 100, which in double precision differs from 20. For a shift component much smaller than the shift (16, say), the stale shift rounds back to the old value bit for bit; over the reals it differs whenever the component is non-zero | restore `self.shift`, so that a failed update leaves the parameters unchanged | high (not executed) | LineSearch.MStep | LineSearch.MStepCorrected |
| tobevalid/mixture/invgamma_mixture.py:117-125 | the alpha-alpha entry of every mode's block adds `w[0]` (100), while the gradient and objective add the per-mode `w[i]` (0 for i > 0) | K = 2: mode 2's block has prior curvature 100, but its prior gradient term is constant in alpha | add `w[i]` to block i | medium (not executed) | Fisher.PriorCurvatureAsWritten | Fisher.PriorCurvatureCorrected |
