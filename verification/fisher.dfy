/** Gradient, Hessian and objective of the mixture (`CalcFisherMatrix`).
    Each mode's statistics run over the observations strictly above the
    mode's shift; the 3 x 3 Hessian blocks are scaled by the mixing weights
    and laid on the diagonal of a 3K x 3K matrix; the objective is the
    mixing-weighted negative log-likelihood plus the weak prior on the
    first mode's shape. */
module Fisher {
  import opened Base

  /** Weighted sufficient statistics of one mode over its support. */
  datatype Stats = Stats(logDelta: real, inverseDelta: real, inverseSquareDelta: real)

  /** Everything `CalcFisherMatrix` stores: the 3K x 3K matrix `__d2l`, the
      three gradient vectors and `_loglike`. */
  datatype FisherState = FisherState(
    hessian: Matrix,
    gradAlpha: seq<real>,
    gradBetta: seq<real>,
    gradShift: seq<real>,
    loglike: real)

  /** Adds the terms of observation `x` with responsibility `z` when `x`
      lies strictly above the shift; otherwise leaves `s` unchanged. */
  function Include(log: real -> real, s: Stats, x: real, z: real, shift: real): Stats
  {
    if x > shift then
      var d := x - shift;
      // z / d^2 is written (z / d) / d: equal over the reals
      Stats(s.logDelta + z * log(d), s.inverseDelta + z / d, s.inverseSquareDelta + z / d / d)
    else s
  }

  /** `weightedLogDelta`, `weightedInverseDelta` and `inverseSquareDelta` of
      one mode: sums of z * log(x - shift), z / (x - shift) and
      z / (x - shift)^2 over the observations x > shift. */
  function ModeStats(log: real -> real, data: seq<real>, zcol: seq<real>, shift: real): (s: Stats)
    requires |zcol| == |data|
    ensures (forall n :: 0 <= n < |zcol| ==> zcol[n] >= 0.0) ==>
      s.inverseDelta >= 0.0 && s.inverseSquareDelta >= 0.0
  {
    if |data| == 0 then Stats(0.0, 0.0, 0.0)
    else
      var rest := ModeStats(log, data[1..], zcol[1..], shift);
      IncludeNonNegative(log, rest, data[0], zcol[0], shift);
      assert forall n :: 1 <= n < |zcol| ==> zcol[n] == zcol[1..][n - 1];
      Include(log, rest, data[0], zcol[0], shift)
  }

  /** One included observation with a non-negative responsibility adds
      non-negative amounts to the two reciprocal sums. */
  lemma IncludeNonNegative(log: real -> real, s: Stats, x: real, z: real, shift: real)
    ensures z >= 0.0 && s.inverseDelta >= 0.0 && s.inverseSquareDelta >= 0.0 ==>
      var t := Include(log, s, x, z, shift);
      t.inverseDelta >= 0.0 && t.inverseSquareDelta >= 0.0
  {
    if z >= 0.0 && x > shift {
      var d := x - shift;
      QuotientNonNegative(z, d);
      QuotientNonNegative(z / d, d);
    }
  }

  /** An observation at or below the shift contributes nothing to the mode's
      statistics: neither its value (as long as it stays at or below the
      shift) nor its responsibility matter. */
  lemma {:induction false} ExcludedObservationIgnored(
    log: real -> real, data: seq<real>, zcol: seq<real>, shift: real, j: nat, x: real, z: real)
    requires |zcol| == |data| && j < |data|
    requires data[j] <= shift && x <= shift
    ensures ModeStats(log, data[j := x], zcol[j := z], shift) == ModeStats(log, data, zcol, shift)
  {
    var data' := data[j := x];
    var zcol' := zcol[j := z];
    if j > 0 {
      assert data'[0] == data[0] && zcol'[0] == zcol[0];
      assert data'[1..] == data[1..][j - 1 := x];
      assert zcol'[1..] == zcol[1..][j - 1 := z];
      ExcludedObservationIgnored(log, data[1..], zcol[1..], shift, j - 1, x, z);
    } else {
      assert data'[1..] == data[1..];
      assert zcol'[1..] == zcol[1..];
    }
  }

  /** A mode whose shift is at or above every observation has empty support
      and all-zero statistics. */
  lemma {:induction false} EmptySupportStats(log: real -> real, data: seq<real>, zcol: seq<real>, shift: real)
    requires |zcol| == |data|
    requires forall n :: 0 <= n < |data| ==> data[n] <= shift
    ensures ModeStats(log, data, zcol, shift) == Stats(0.0, 0.0, 0.0)
  {
    if |data| > 0 {
      EmptySupportStats(log, data[1..], zcol[1..], shift);
    }
  }

  predicate IsSymmetric(m: Matrix) {
    forall r, c :: 0 <= r < |m| && 0 <= c < |m| && c < |m[r]| && r < |m[c]| ==> m[r][c] == m[c][r]
  }

  /** The 3 x 3 second-derivative block `d2f[i]` of one mode with count `n`;
      `prior` is the precision added to the alpha-alpha entry. */
  function Block(n: real, alpha: real, betta: real, trigamma: real -> real, prior: real): (b: Matrix)
    requires betta != 0.0
    ensures IsMatrix(b, 3, 3)
    ensures IsSymmetric(b)
    ensures b[0][0] - prior == n * trigamma(alpha)
  {
    // x / betta^2 is written (x / betta) / betta: equal over the reals
    [[n * trigamma(alpha) + prior, -n / betta, -n * alpha / betta],
     [-n / betta, n * alpha / betta / betta, n * alpha * (alpha + 1.0) / betta / betta],
     [-n * alpha / betta, n * alpha * (alpha + 1.0) / betta / betta,
      n * alpha * (alpha + 1.0) * (alpha + 3.0) / betta / betta]]
  }

  /** The arguments `CalcFisherMatrix` can be evaluated at: shapes agree and
      every scale is positive, so that `log(betta)` is defined (numpy's
      infinities and NaNs are not modelled). */
  predicate Evaluable(prob: Problem, p: Params) {
    && prob.WellShaped()
    && ParamsShaped(p, prob.Modes())
    && forall i :: 0 <= i < |p.betta| ==> p.betta[i] > 0.0
  }

  function Stat(prob: Problem, p: Params, i: nat): Stats
    requires Evaluable(prob, p) && i < prob.Modes()
  {
    ModeStats(prob.fns.log, prob.data, Column(prob.z, i), p.shift[i])
  }

  /** Blocks as the source builds them: the alpha-alpha entry of EVERY mode
      receives `w[0]`, the first mode's prior precision. */
  function BlocksAsWritten(prob: Problem, p: Params): (d2f: seq<Matrix>)
    requires Evaluable(prob, p)
    ensures |d2f| == prob.Modes() && Blocks3(d2f)
    ensures forall i :: 0 <= i < |d2f| ==> IsSymmetric(d2f[i])
    ensures forall i :: 0 <= i < |d2f| ==>
      IsMatrix(d2f[i], 3, 3) && d2f[i][0][0] - prob.n[i] * prob.fns.trigamma(p.alpha[i]) == PriorWeight(0)
  {
    seq(prob.Modes(), i requires 0 <= i < prob.Modes() =>
      Block(prob.n[i], p.alpha[i], p.betta[i], prob.fns.trigamma, PriorWeight(0)))
  }

  /** Blocks with each mode's own prior precision `w[i]`, matching the prior
      term that the gradient and the objective use. */
  function BlocksCorrected(prob: Problem, p: Params): (d2f: seq<Matrix>)
    requires Evaluable(prob, p)
    ensures |d2f| == prob.Modes() && Blocks3(d2f)
    ensures forall i :: 0 <= i < |d2f| ==> IsSymmetric(d2f[i])
    ensures forall i :: 0 <= i < |d2f| ==>
      IsMatrix(d2f[i], 3, 3) && d2f[i][0][0] - prob.n[i] * prob.fns.trigamma(p.alpha[i]) == PriorWeight(i)
  {
    seq(prob.Modes(), i requires 0 <= i < prob.Modes() =>
      Block(prob.n[i], p.alpha[i], p.betta[i], prob.fns.trigamma, PriorWeight(i)))
  }

  /** Gradient of the prior term w_i (alpha - al0)^2 / 2 in alpha. */
  function PriorGradient(i: nat, alpha: real): real {
    PriorWeight(i) * (alpha - Al0)
  }

  /** The prior term w_i (alpha - al0)^2 / 2 of mode i's objective. */
  function PriorTerm(i: nat, alpha: real): real {
    PriorWeight(i) * (alpha - Al0) * (alpha - Al0) / 2.0
  }

  /** The prior's share of the alpha-alpha entry of block i. */
  function PriorCurvature(prob: Problem, p: Params, d2f: seq<Matrix>, i: nat): real
    requires Evaluable(prob, p) && i < prob.Modes()
    requires |d2f| == prob.Modes() && Blocks3(d2f)
  {
    assert IsMatrix(d2f[i], 3, 3);
    d2f[i][0][0] - prob.n[i] * prob.fns.trigamma(p.alpha[i])
  }

  lemma QuotientNonNegative(a: real, b: real)
    requires a >= 0.0 && b > 0.0
    ensures a / b >= 0.0
  {
    assert a / b * b == a;
  }

  /** Mode `i`'s shift is at or above every observation, so the mask
      `data > shift` selects nothing. */
  predicate EmptySupport(prob: Problem, p: Params, i: nat)
    requires Evaluable(prob, p) && i < prob.Modes()
  {
    forall n :: 0 <= n < |prob.data| ==> prob.data[n] <= p.shift[i]
  }

  /** The statistics of every mode with empty support are zero. */
  lemma EmptySupportStatsAll(prob: Problem, p: Params)
    requires Evaluable(prob, p)
    ensures forall i :: 0 <= i < prob.Modes() && EmptySupport(prob, p, i) ==> Stat(prob, p, i) == Stats(0.0, 0.0, 0.0)
  {
    forall i | 0 <= i < prob.Modes() && EmptySupport(prob, p, i)
      ensures Stat(prob, p, i) == Stats(0.0, 0.0, 0.0)
    {
      EmptySupportStats(prob.fns.log, prob.data, Column(prob.z, i), p.shift[i]);
    }
  }

  /** `__gradAlpha`, `__gradBetta`, `__gradB`. */
  function GradAlpha(prob: Problem, p: Params): (g: seq<real>)
    requires Evaluable(prob, p)
    ensures |g| == prob.Modes()
    ensures forall i :: 0 <= i < |g| && EmptySupport(prob, p, i) ==>
      g[i] == prob.n[i] * prob.fns.psi(p.alpha[i]) - prob.n[i] * prob.fns.log(p.betta[i]) + PriorGradient(i, p.alpha[i])
  {
    EmptySupportStatsAll(prob, p);
    seq(prob.Modes(), i requires 0 <= i < prob.Modes() =>
      prob.n[i] * prob.fns.psi(p.alpha[i]) - prob.n[i] * prob.fns.log(p.betta[i])
      + Stat(prob, p, i).logDelta + PriorGradient(i, p.alpha[i]))
  }

  function GradBetta(prob: Problem, p: Params): (g: seq<real>)
    requires Evaluable(prob, p)
    ensures |g| == prob.Modes()
    ensures forall i :: 0 <= i < |g| && EmptySupport(prob, p, i) ==> g[i] == -prob.n[i] * p.alpha[i] / p.betta[i]
  {
    EmptySupportStatsAll(prob, p);
    seq(prob.Modes(), i requires 0 <= i < prob.Modes() =>
      -prob.n[i] * p.alpha[i] / p.betta[i] + Stat(prob, p, i).inverseDelta)
  }

  function GradShift(prob: Problem, p: Params): (g: seq<real>)
    requires Evaluable(prob, p)
    ensures |g| == prob.Modes()
    ensures forall i :: 0 <= i < |g| && EmptySupport(prob, p, i) ==> g[i] == 0.0
  {
    EmptySupportStatsAll(prob, p);
    seq(prob.Modes(), i requires 0 <= i < prob.Modes() =>
      p.betta[i] * Stat(prob, p, i).inverseSquareDelta - (p.alpha[i] + 1.0) * Stat(prob, p, i).inverseDelta)
  }

  /** The unweighted objective term of mode `i`. */
  function ModeTerm(prob: Problem, p: Params, i: nat): real
    requires Evaluable(prob, p) && i < prob.Modes()
  {
    var n := prob.n[i];
    var a := p.alpha[i];
    var b := p.betta[i];
    var s := Stat(prob, p, i);
    -n * a * prob.fns.log(b) + n * prob.fns.gammaln(a) + b * s.inverseDelta
    + (a + 1.0) * s.logDelta + PriorTerm(i, a)
  }

  /** The unweighted objective terms of modes 0 .. k - 1, in mode order. */
  function ModeTermsUpTo(prob: Problem, p: Params, k: nat): (t: seq<real>)
    requires Evaluable(prob, p) && k <= prob.Modes()
    ensures |t| == k
  {
    if k == 0 then [] else ModeTermsUpTo(prob, p, k - 1) + [ModeTerm(prob, p, k - 1)]
  }

  /** The unweighted objective terms of all modes, in mode order. */
  function ModeTerms(prob: Problem, p: Params): (t: seq<real>)
    requires Evaluable(prob, p)
    ensures |t| == prob.Modes()
  {
    ModeTermsUpTo(prob, p, prob.Modes())
  }

  /** Entry i of the term vector is mode i's term. */
  lemma {:induction false} ModeTermsAt(prob: Problem, p: Params, k: nat, i: nat)
    requires Evaluable(prob, p) && i < k <= prob.Modes()
    ensures ModeTermsUpTo(prob, p, k)[i] == ModeTerm(prob, p, i)
  {
    if i < k - 1 {
      ModeTermsAt(prob, p, k - 1, i);
    }
  }

  /** `_loglike`, the objective the line search minimises: the dot product
      of the mode terms with the mixing weights. */
  function LogLike(prob: Problem, p: Params): (l: real)
    requires Evaluable(prob, p)
    ensures prob.Modes() == 1 ==> l == ModeTerm(prob, p, 0) * prob.mix[0]
  {
    var t := ModeTerms(prob, p);
    assert |t| == 1 ==> t[0] == ModeTerm(prob, p, 0) && Dot(t[1..], prob.mix[1..]) == 0.0;
    Dot(t, prob.mix)
  }

  /** `p` and `q` differ at most in mode `i`. */
  predicate OnlyModeDiffers(p: Params, q: Params, modes: nat, i: nat)
    requires ParamsShaped(p, modes) && ParamsShaped(q, modes)
  {
    forall k :: 0 <= k < modes && k != i ==>
      p.alpha[k] == q.alpha[k] && p.betta[k] == q.betta[k] && p.shift[k] == q.shift[k]
  }

  /** The objective is a mixing-weighted sum of per-mode terms: changing
      only mode i's parameters changes it by mix[i] times the change of
      mode i's term. */
  lemma LogLikeSeparates(prob: Problem, p: Params, q: Params, i: nat)
    requires Evaluable(prob, p) && Evaluable(prob, q) && i < prob.Modes()
    requires OnlyModeDiffers(p, q, prob.Modes(), i)
    ensures LogLike(prob, q) - LogLike(prob, p) == (ModeTerms(prob, q)[i] - ModeTerms(prob, p)[i]) * prob.mix[i]
  {
    ModeTermsAgree(prob, p, q, i);
    DotChangeOne(ModeTerms(prob, p), ModeTerms(prob, q), prob.mix, i);
  }

  /** Outside mode i, the terms of `p` and `q` coincide. */
  lemma ModeTermsAgree(prob: Problem, p: Params, q: Params, i: nat)
    requires Evaluable(prob, p) && Evaluable(prob, q) && i < prob.Modes()
    requires OnlyModeDiffers(p, q, prob.Modes(), i)
    ensures AgreeOutside(ModeTerms(prob, p), ModeTerms(prob, q), i)
  {
    forall k | 0 <= k < prob.Modes() && k != i
      ensures ModeTerms(prob, q)[k] == ModeTerms(prob, p)[k]
    {
      ModeTermsAt(prob, p, prob.Modes(), k);
      ModeTermsAt(prob, q, prob.Modes(), k);
      ModeTermLocal(prob, p, q, k);
    }
  }

  /** A mode's term reads only that mode's parameters. */
  lemma ModeTermLocal(prob: Problem, p: Params, q: Params, k: nat)
    requires Evaluable(prob, p) && Evaluable(prob, q) && k < prob.Modes()
    requires p.alpha[k] == q.alpha[k] && p.betta[k] == q.betta[k] && p.shift[k] == q.shift[k]
    ensures ModeTerm(prob, q, k) == ModeTerm(prob, p, k)
  {
    assert Stat(prob, q, k) == Stat(prob, p, k);
  }

  /** Position of entry (r, c) inside the diagonal blocks filled so far, in
      the order of the source's loops over mode i, row j, column k. */
  ghost predicate Filled(r: int, c: int, i: int, j: int, k: int) {
    && r / 3 == c / 3
    && (r / 3 < i || (r / 3 == i && (r % 3 < j || (r % 3 == j && c % 3 < k))))
  }

  predicate Blocks3(d2f: seq<Matrix>) {
    forall i :: 0 <= i < |d2f| ==> IsMatrix(d2f[i], 3, 3)
  }

  /** Block i of `m`, at rows and columns 3i .. 3i + 2, is `mix[i] * d2f[i]`. */
  predicate BlockLayout(m: Matrix, mix: seq<real>, d2f: seq<Matrix>)
    requires |d2f| == |mix| && Blocks3(d2f) && IsMatrix(m, 3 * |mix|, 3 * |mix|)
  {
    forall i, j, k :: 0 <= i < |mix| && 0 <= j < 3 && 0 <= k < 3 ==>
      IsMatrix(d2f[i], 3, 3) && m[3 * i + j][3 * i + k] == mix[i] * d2f[i][j][k]
  }

  /** The value the source writes at (r, c) when it lies in a diagonal block. */
  ghost function Target(mix: seq<real>, d2f: seq<Matrix>, r: nat, c: nat): real
    requires |d2f| == |mix| && Blocks3(d2f) && r < 3 * |mix|
  {
    var i := r / 3;
    assert IsMatrix(d2f[i], 3, 3);
    mix[i] * d2f[i][r % 3][c % 3]
  }

  lemma DivMod3(i: int, j: int)
    requires 0 <= i && 0 <= j < 3
    ensures (3 * i + j) / 3 == i && (3 * i + j) % 3 == j
  {
  }

  /** Filling column k of block row j adds exactly entry (3i + j, 3i + k). */
  lemma FilledNextColumn(r: nat, c: nat, i: nat, j: nat, k: nat)
    requires j < 3 && k < 3
    ensures Filled(r, c, i, j, k + 1) <==> Filled(r, c, i, j, k) || (r == 3 * i + j && c == 3 * i + k)
  {
    DivMod3(i, j);
    DivMod3(i, k);
  }

  lemma FilledNextRow(r: nat, c: nat, i: nat, j: nat)
    requires j < 3
    ensures Filled(r, c, i, j, 3) <==> Filled(r, c, i, j + 1, 0)
  {
  }

  lemma FilledNextMode(r: nat, c: nat, i: nat)
    ensures Filled(r, c, i, 3, 0) <==> Filled(r, c, i + 1, 0, 0)
  {
  }

  /** The matrix holds the first entries, in loop order, of the blocks and
      zeros elsewhere. */
  ghost predicate FilledUpTo(d2l: Matrix, mix: seq<real>, d2f: seq<Matrix>, i: nat, j: nat, k: nat)
    requires |d2f| == |mix| && Blocks3(d2f)
  {
    && IsMatrix(d2l, 3 * |mix|, 3 * |mix|)
    && forall r, c :: 0 <= r < 3 * |mix| && 0 <= c < 3 * |mix| ==>
         d2l[r][c] == if Filled(r, c, i, j, k) then Target(mix, d2f, r, c) else 0.0
  }

  /** One write of the innermost loop extends the filled region by one entry. */
  lemma WriteEntry(prev: Matrix, mix: seq<real>, d2f: seq<Matrix>, i: nat, j: nat, k: nat)
    requires |d2f| == |mix| && Blocks3(d2f)
    requires i < |mix| && j < 3 && k < 3
    requires FilledUpTo(prev, mix, d2f, i, j, k)
    ensures IsMatrix(d2f[i], 3, 3)
    ensures FilledUpTo(prev[3 * i + j := prev[3 * i + j][3 * i + k := mix[i] * d2f[i][j][k]]], mix, d2f, i, j, k + 1)
  {
    assert IsMatrix(d2f[i], 3, 3);
    var row := 3 * i + j;
    var col := 3 * i + k;
    DivMod3(i, j);
    DivMod3(i, k);
    var next := prev[row := prev[row][col := mix[i] * d2f[i][j][k]]];
    forall r, c | 0 <= r < 3 * |mix| && 0 <= c < 3 * |mix|
      ensures next[r][c] == if Filled(r, c, i, j, k + 1) then Target(mix, d2f, r, c) else 0.0
    {
      FilledNextColumn(r, c, i, j, k);
    }
  }

  lemma RowDone(d2l: Matrix, mix: seq<real>, d2f: seq<Matrix>, i: nat, j: nat)
    requires |d2f| == |mix| && Blocks3(d2f) && j < 3
    requires FilledUpTo(d2l, mix, d2f, i, j, 3)
    ensures FilledUpTo(d2l, mix, d2f, i, j + 1, 0)
  {
    forall r: nat, c: nat {
      FilledNextRow(r, c, i, j);
    }
  }

  lemma ModeDone(d2l: Matrix, mix: seq<real>, d2f: seq<Matrix>, i: nat)
    requires |d2f| == |mix| && Blocks3(d2f)
    requires FilledUpTo(d2l, mix, d2f, i, 3, 0)
    ensures FilledUpTo(d2l, mix, d2f, i + 1, 0, 0)
  {
    forall r: nat, c: nat {
      FilledNextMode(r, c, i);
    }
  }

  /** Once every mode is filled the matrix is zero off the diagonal blocks,
      ... */
  lemma AllFilledDiagonal(d2l: Matrix, mix: seq<real>, d2f: seq<Matrix>)
    requires |d2f| == |mix| && Blocks3(d2f)
    requires FilledUpTo(d2l, mix, d2f, |mix|, 0, 0)
    ensures BlockDiagonal(d2l, |mix|)
  {
  }

  /** ... holds the scaled blocks on its diagonal, ... */
  lemma AllFilledBlocks(d2l: Matrix, mix: seq<real>, d2f: seq<Matrix>)
    requires |d2f| == |mix| && Blocks3(d2f)
    requires FilledUpTo(d2l, mix, d2f, |mix|, 0, 0)
    ensures BlockLayout(d2l, mix, d2f)
  {
    forall i, j, k | 0 <= i < |mix| && 0 <= j < 3 && 0 <= k < 3
      ensures IsMatrix(d2f[i], 3, 3) && d2l[3 * i + j][3 * i + k] == mix[i] * d2f[i][j][k]
    {
      DivMod3(i, j);
      DivMod3(i, k);
      assert Filled(3 * i + j, 3 * i + k, |mix|, 0, 0);
    }
  }

  /** ... and is symmetric when every block is. */
  lemma AllFilledSymmetric(d2l: Matrix, mix: seq<real>, d2f: seq<Matrix>)
    requires |d2f| == |mix| && Blocks3(d2f)
    requires FilledUpTo(d2l, mix, d2f, |mix|, 0, 0)
    requires forall i :: 0 <= i < |d2f| ==> IsSymmetric(d2f[i])
    ensures IsSymmetric(d2l)
  {
    forall r, c | 0 <= r < 3 * |mix| && 0 <= c < 3 * |mix|
      ensures d2l[r][c] == d2l[c][r]
    {
      if r / 3 == c / 3 {
        var i := r / 3;
        assert IsMatrix(d2f[i], 3, 3) && IsSymmetric(d2f[i]);
        assert d2f[i][r % 3][c % 3] == d2f[i][c % 3][r % 3];
        assert Filled(r, c, |mix|, 0, 0) && Filled(c, r, |mix|, 0, 0);
      }
    }
  }

  /** Writes `mix[i] * d2f[i][j][k]` at (3i + j, 3i + k) of a zero 3K x 3K
      matrix, as the source's triple loop does. */
  method AssembleHessian(mix: seq<real>, d2f: seq<Matrix>) returns (d2l: Matrix)
    requires |d2f| == |mix| && Blocks3(d2f)
    ensures IsMatrix(d2l, 3 * |mix|, 3 * |mix|)
    ensures BlockDiagonal(d2l, |mix|)
    ensures BlockLayout(d2l, mix, d2f)
    ensures (forall i :: 0 <= i < |d2f| ==> IsSymmetric(d2f[i])) ==> IsSymmetric(d2l)
  {
    var size := 3 * |mix|;
    d2l := seq(size, r => seq(size, c => 0.0));
    var i := 0;
    while i < |mix|
      invariant 0 <= i <= |mix|
      invariant FilledUpTo(d2l, mix, d2f, i, 0, 0)
    {
      var j := 0;
      while j < 3
        invariant 0 <= j <= 3
        invariant FilledUpTo(d2l, mix, d2f, i, j, 0)
      {
        var k := 0;
        while k < 3
          invariant 0 <= k <= 3
          invariant FilledUpTo(d2l, mix, d2f, i, j, k)
        {
          WriteEntry(d2l, mix, d2f, i, j, k);
          d2l := d2l[3 * i + j := d2l[3 * i + j][3 * i + k := mix[i] * d2f[i][j][k]]];
          k := k + 1;
        }
        RowDone(d2l, mix, d2f, i, j);
        j := j + 1;
      }
      ModeDone(d2l, mix, d2f, i);
      i := i + 1;
    }
    AllFilledDiagonal(d2l, mix, d2f);
    AllFilledBlocks(d2l, mix, d2f);
    if forall i :: 0 <= i < |d2f| ==> IsSymmetric(d2f[i]) {
      AllFilledSymmetric(d2l, mix, d2f);
    }
  }

  /** `CalcFisherMatrix` as written. */
  method CalcFisherMatrix(prob: Problem, p: Params) returns (f: FisherState)
    requires Evaluable(prob, p)
    ensures IsMatrix(f.hessian, 3 * prob.Modes(), 3 * prob.Modes())
    ensures BlockDiagonal(f.hessian, prob.Modes())
    ensures IsSymmetric(f.hessian)
    ensures BlockLayout(f.hessian, prob.mix, BlocksAsWritten(prob, p))
    ensures f.gradAlpha == GradAlpha(prob, p)
    ensures f.gradBetta == GradBetta(prob, p)
    ensures f.gradShift == GradShift(prob, p)
    ensures f.loglike == LogLike(prob, p)
  {
    var d2f := BlocksAsWritten(prob, p);
    var d2l := AssembleHessian(prob.mix, d2f);
    f := FisherState(d2l, GradAlpha(prob, p), GradBetta(prob, p), GradShift(prob, p), LogLike(prob, p));
  }

  /** `CalcFisherMatrix` with each mode's own prior precision in its
      alpha-alpha entry. */
  method CalcFisherMatrixCorrected(prob: Problem, p: Params) returns (f: FisherState)
    requires Evaluable(prob, p)
    ensures IsMatrix(f.hessian, 3 * prob.Modes(), 3 * prob.Modes())
    ensures BlockDiagonal(f.hessian, prob.Modes())
    ensures IsSymmetric(f.hessian)
    ensures BlockLayout(f.hessian, prob.mix, BlocksCorrected(prob, p))
    ensures f.gradAlpha == GradAlpha(prob, p)
    ensures f.gradBetta == GradBetta(prob, p)
    ensures f.gradShift == GradShift(prob, p)
    ensures f.loglike == LogLike(prob, p)
  {
    var d2f := BlocksCorrected(prob, p);
    var d2l := AssembleHessian(prob.mix, d2f);
    f := FisherState(d2l, GradAlpha(prob, p), GradBetta(prob, p), GradShift(prob, p), LogLike(prob, p));
  }

  /** With each mode's own prior precision, the prior's curvature in block i
      is exactly the slope of the prior's gradient and the second-order
      coefficient of the prior term, for every mode. */
  lemma PriorCurvatureCorrected(prob: Problem, p: Params, i: nat, a: real, b: real)
    requires Evaluable(prob, p) && i < prob.Modes()
    ensures var curv := PriorCurvature(prob, p, BlocksCorrected(prob, p), i);
      && PriorGradient(i, a) - PriorGradient(i, b) == curv * (a - b)
      && PriorTerm(i, a) - PriorTerm(i, b) == PriorGradient(i, b) * (a - b) + curv * (a - b) * (a - b) / 2.0
  {
    var curv := PriorCurvature(prob, p, BlocksCorrected(prob, p), i);
    assert curv == PriorWeight(i);
    var w := PriorWeight(i);
    var da := a - Al0;
    var db := b - Al0;
    assert da == db + (a - b);
    assert da * da == db * db + 2.0 * db * (a - b) + (a - b) * (a - b);
  }

  /** As written, a second mode's block carries the first mode's prior
      precision 100 although its gradient has no prior term: the slope of
      that gradient term between alpha = 0 and alpha = 1 is 0, not 100. */
  lemma PriorCurvatureAsWritten(prob: Problem, p: Params)
    requires Evaluable(prob, p) && prob.Modes() >= 2
    ensures PriorCurvature(prob, p, BlocksAsWritten(prob, p), 1) == 100.0
    ensures PriorGradient(1, 1.0) - PriorGradient(1, 0.0) != PriorCurvature(prob, p, BlocksAsWritten(prob, p), 1) * (1.0 - 0.0)
  {
    var d2f := BlocksAsWritten(prob, p);
    assert PriorCurvature(prob, p, d2f, 1) == PriorWeight(0);
  }
}
