/** The initial parameter estimate (`_init_parameters`): the responsibility
    matrix is chosen, each mode's shift is the smallest observation that
    belongs to it with weight above `c`, every shape starts at 3.5, and each
    scale is solved from the Inverse-Gamma mean formula
    mean = shift + betta / (alpha - 1) with the weighted mean of the mode. */
module Initialiser {
  import opened Base
  import Validation

  datatype InitError =
    | MissingResponsibilities  // `self.Z` was never set (an AttributeError)
    | ShapeMismatch            // numpy's matmul / broadcasting ValueError
    | EmptySelection           // `np.min` of an empty selection (ValueError)

  /** The initial state of the fitter: parameters, the responsibility
      matrix it will read from now on, and the starting step size. */
  datatype Initial = Initial(params: Params, z: Matrix, step: real)

  /** Entries of a responsibility matrix are probabilities. */
  predicate Probabilities(m: Matrix) {
    forall r, c :: 0 <= r < |m| && 0 <= c < |m[r]| ==> 0.0 <= m[r][c] <= 1.0
  }

  /** An N x 1 column of ones, the K = 1 responsibilities. */
  function Ones(n: nat): (m: Matrix)
    ensures IsMatrix(m, n, 1)
    ensures forall r :: 0 <= r < n ==> m[r][0] == 1.0
  {
    seq(n, r => [1.0])
  }

  /** The matrix `self.Z` holds after the selection at the start of
      initialisation: ones for one mode, else the supplied `z`, else the
      matrix an earlier fit left (None when there was none). */
  function SelectResponsibilities(nModes: int, nObs: nat, z: Option<Matrix>, previous: Option<Matrix>): (r: Option<Matrix>)
    ensures nModes == 1 ==> r == Some(Ones(nObs))
    ensures nModes != 1 && z.Some? ==> r == z
    ensures nModes != 1 && z.None? ==> r == previous
    ensures r.None? <==> nModes != 1 && z.None? && previous.None?
  {
    if nModes == 1 then Some(Ones(nObs))
    else if z.Some? then z
    else previous
  }

  /** Sum of a column, an entry of `Z.sum(axis=0)`. */
  function ColumnSum(col: seq<real>): real
  {
    if |col| == 0 then 0.0 else col[0] + ColumnSum(col[1..])
  }

  /** Responsibility-weighted sum of the observations, an entry of
      `np.matmul(data, Z)`. */
  function WeightedSum(data: seq<real>, col: seq<real>): real
    requires |col| == |data|
  {
    if |data| == 0 then 0.0 else data[0] * col[0] + WeightedSum(data[1..], col[1..])
  }

  /** `x` is the minimum of the observations whose responsibility exceeds `c`. */
  ghost predicate IsSignificantMin(data: seq<real>, col: seq<real>, x: real)
    requires |col| == |data|
  {
    && (exists n :: 0 <= n < |data| && col[n] > C && data[n] == x)
    && (forall n :: 0 <= n < |data| && col[n] > C ==> x <= data[n])
  }

  /** No responsibility in the column exceeds `c`. */
  ghost predicate NothingSignificant(col: seq<real>) {
    forall n :: 0 <= n < |col| ==> col[n] <= C
  }

  /** `np.min(data[col > c])`, None when the selection is empty. */
  function MinSignificant(data: seq<real>, col: seq<real>): (r: Option<real>)
    requires |col| == |data|
    ensures r.None? <==> forall n :: 0 <= n < |data| ==> col[n] <= C
    ensures r.Some? ==> IsSignificantMin(data, col, r.value)
  {
    if |data| == 0 then None
    else
      var rest := MinSignificant(data[1..], col[1..]);
      assert forall n :: 1 <= n < |data| ==> col[n] == col[1..][n - 1] && data[n] == data[1..][n - 1];
      if col[0] > C && (rest.None? || data[0] <= rest.value) then Some(data[0])
      else rest
  }

  /** With probabilities as entries, a column holding an entry above `c`
      has a positive sum. */
  lemma {:induction false} ColumnSumAtLeastEntry(col: seq<real>, n: nat)
    requires n < |col|
    requires forall m :: 0 <= m < |col| ==> col[m] >= 0.0
    ensures ColumnSum(col) >= col[n]
  {
    ColumnSumNonNegative(col[1..]);
    if n > 0 {
      ColumnSumAtLeastEntry(col[1..], n - 1);
    }
  }

  lemma {:induction false} ColumnSumNonNegative(col: seq<real>)
    requires forall m :: 0 <= m < |col| ==> col[m] >= 0.0
    ensures ColumnSum(col) >= 0.0
  {
    if |col| > 0 {
      ColumnSumNonNegative(col[1..]);
    }
  }

  /** A mode with a significant observation has a positive column sum, so
      its weighted mean is defined. */
  lemma SelectedColumnPositive(data: seq<real>, z: Matrix, k: nat)
    requires |z| == |data| && forall r :: 0 <= r < |z| ==> k < |z[r]|
    requires Probabilities(z)
    requires MinSignificant(data, Column(z, k)).Some?
    ensures ColumnSum(Column(z, k)) > 0.0
  {
    var col := Column(z, k);
    var n :| 0 <= n < |data| && col[n] > C;
    ColumnSumAtLeastEntry(col, n);
  }

  /** Weighted mean of mode `k`, an entry of `mdB`. */
  function WeightedMean(data: seq<real>, col: seq<real>): real
    requires |col| == |data|
    requires ColumnSum(col) != 0.0
  {
    WeightedSum(data, col) / ColumnSum(col)
  }

  /** Every mode has an observation with responsibility above `c`. */
  predicate AllModesSelected(data: seq<real>, z: Matrix, nModes: nat)
    requires IsMatrix(z, |data|, nModes)
  {
    forall k :: 0 <= k < nModes ==> MinSignificant(data, Column(z, k)).Some?
  }

  /** `p` is the initial estimate for responsibilities `z`: every shape is
      3.5, every shift is the smallest significant observation of its mode,
      and every scale makes the Inverse-Gamma mean shift + betta / (alpha - 1)
      equal to the mode's weighted mean. */
  ghost predicate InitialEstimate(data: seq<real>, z: Matrix, nModes: nat, p: Params)
    requires IsMatrix(z, |data|, nModes)
  {
    && ParamsShaped(p, nModes)
    && forall k :: 0 <= k < nModes ==>
         && p.alpha[k] == Al0
         && IsSignificantMin(data, Column(z, k), p.shift[k])
         && ColumnSum(Column(z, k)) > 0.0
         && p.shift[k] + p.betta[k] / (Al0 - 1.0) == WeightedMean(data, Column(z, k))
  }

  /** The estimate for well-shaped responsibilities in which every mode has
      a significant observation. */
  function Estimate(data: seq<real>, z: Matrix, nModes: nat): (p: Params)
    requires IsMatrix(z, |data|, nModes) && Probabilities(z)
    requires AllModesSelected(data, z, nModes)
    ensures InitialEstimate(data, z, nModes, p)
  {
    var shift := seq(nModes, k requires 0 <= k < nModes => MinSignificant(data, Column(z, k)).value);
    var alpha := seq(nModes, k requires 0 <= k < nModes => Al0);
    var mdB := seq(nModes, k requires 0 <= k < nModes =>
                     SelectedColumnPositive(data, z, k);
                     WeightedMean(data, Column(z, k)));
    var p := Params(alpha, seq(nModes, k requires 0 <= k < nModes => (mdB[k] - shift[k]) * (alpha[k] - 1.0)), shift);
    assert forall k :: 0 <= k < nModes ==> ColumnSum(Column(z, k)) > 0.0 by {
      forall k | 0 <= k < nModes {
        SelectedColumnPositive(data, z, k);
      }
    }
    p
  }

  /** `_init_parameters`: `z` is the `"z"` keyword argument, `previous` the
      matrix an earlier fit stored. */
  function InitParameters(data: seq<real>, nModes: nat, z: Option<Matrix>, previous: Option<Matrix>): (r: Result<Initial, InitError>)
    requires nModes >= 1
    requires z.Some? ==> Probabilities(z.value)
    requires previous.Some? ==> Probabilities(previous.value)
    ensures r.Err? && r.error == MissingResponsibilities <==> nModes > 1 && z.None? && previous.None?
    ensures r.Ok? <==>
      var zs := SelectResponsibilities(nModes, |data|, z, previous);
      zs.Some? && IsMatrix(zs.value, |data|, nModes) && AllModesSelected(data, zs.value, nModes)
    ensures r.Ok? ==> r.value.step == 1.0
    ensures r.Ok? ==> r.value.z == SelectResponsibilities(nModes, |data|, z, previous).value
    ensures nModes == 1 && r.Ok? ==> r.value.z == Ones(|data|)
    ensures r.Ok? ==> IsMatrix(r.value.z, |data|, nModes) && InitialEstimate(data, r.value.z, nModes, r.value.params)
    ensures r.Err? && r.error == EmptySelection <==>
      var zs := SelectResponsibilities(nModes, |data|, z, previous);
      && zs.Some? && IsMatrix(zs.value, |data|, nModes)
      && exists k :: 0 <= k < nModes && NothingSignificant(Column(zs.value, k))
  {
    var zs := SelectResponsibilities(nModes, |data|, z, previous);
    if zs.None? then Err(MissingResponsibilities)
    else if !IsMatrix(zs.value, |data|, nModes) then Err(ShapeMismatch)
    else if !AllModesSelected(data, zs.value, nModes) then Err(EmptySelection)
    else Ok(Initial(Estimate(data, zs.value, nModes), zs.value, 1.0))
  }

  /** Passing validation is what lets initialisation find a responsibility
      matrix: before the first fit validation insists on `"z"` for K > 1, and
      a resumed fit (whose base class keeps the previous matrix) falls back
      on that matrix. */
  lemma ValidationSuppliesResponsibilities(
    data: seq<real>, nModes: nat, fitted: bool, z: Option<Matrix>, previous: Option<Matrix>)
    requires nModes >= 1
    requires z.Some? ==> Probabilities(z.value)
    requires previous.Some? ==> Probabilities(previous.value)
    requires Validation.CheckParameters(fitted, z.Some?, nModes).Pass?
    requires fitted ==> previous.Some?
    ensures InitParameters(data, nModes, z, previous) != Err(MissingResponsibilities)
  {
  }

  /** With non-negative responsibilities and every observation at least `m`,
      the weighted sum is at least `m` times the total responsibility. */
  lemma {:induction false} WeightedSumAtLeast(data: seq<real>, col: seq<real>, m: real)
    requires |col| == |data|
    requires forall n :: 0 <= n < |col| ==> col[n] >= 0.0
    requires forall n :: 0 <= n < |data| ==> data[n] >= m
    ensures WeightedSum(data, col) >= m * ColumnSum(col)
  {
    if |data| > 0 {
      WeightedSumAtLeast(data[1..], col[1..], m);
      assert (data[0] - m) * col[0] >= 0.0;
    }
  }

  /** A weighted mean over observations that are all at least `m` is at
      least `m`. */
  lemma MeanAtLeast(data: seq<real>, col: seq<real>, m: real)
    requires |col| == |data|
    requires forall n :: 0 <= n < |col| ==> col[n] >= 0.0
    requires forall n :: 0 <= n < |data| ==> data[n] >= m
    requires ColumnSum(col) > 0.0
    ensures WeightedMean(data, col) >= m
  {
    WeightedSumAtLeast(data, col, m);
    QuotientAtLeast(WeightedSum(data, col), ColumnSum(col), m);
  }

  lemma QuotientAtLeast(w: real, s: real, m: real)
    requires s > 0.0 && w >= m * s
    ensures w / s >= m
  {
    assert w / s - m == (w - m * s) / s;
  }

  /** For a single mode every observation is significant, so the weighted
      mean is the plain mean, never below the minimum: the initial scale
      (mean - min) * 2.5 is non-negative. */
  lemma SingleModeScaleNonNegative(data: seq<real>)
    ensures InitParameters(data, 1, None, None).Ok? <==> |data| > 0
    ensures InitParameters(data, 1, None, None).Ok? ==>
      InitParameters(data, 1, None, None).value.params.betta[0] >= 0.0
  {
    var ones := Column(Ones(|data|), 0);
    if |data| > 0 {
      assert ones[0] > C;
      var r := InitParameters(data, 1, None, None);
      assert r.Ok?;
      var p := r.value.params;
      var col := Column(r.value.z, 0);
      assert col == ones;
      assert IsSignificantMin(data, col, p.shift[0]);
      forall n | 0 <= n < |data|
        ensures data[n] >= p.shift[0] && col[n] >= 0.0
      {
        assert col[n] > C;
      }
      MeanAtLeast(data, col, p.shift[0]);
    } else {
      assert NothingSignificant(ones);
    }
  }

  /** For K > 1 the initial scale can be negative: a mode whose only
      significant observation is its largest one has its shift above its
      weighted mean. Here mode 2's shift is 10 and its weighted mean 9.1,
      so its scale is (9.1 - 10) * 2.5 < 0. */
  lemma NegativeScaleStart()
    ensures var r := InitParameters([1.0, 10.0], 2, Some([[0.9, 0.1], [0.1, 0.9]]), None);
      r.Ok? && r.value.params.betta[1] < 0.0
  {
    var data, z := [1.0, 10.0], [[0.9, 0.1], [0.1, 0.9]];
    ExampleSelected(data, z);
    var p := Estimate(data, z, 2);
    assert InitParameters(data, 2, Some(z), None) == Ok(Initial(p, z, 1.0));
    ExampleSecondMode(data, z, p);
  }

  lemma ExampleSelected(data: seq<real>, z: Matrix)
    requires data == [1.0, 10.0] && z == [[0.9, 0.1], [0.1, 0.9]]
    ensures IsMatrix(z, |data|, 2) && Probabilities(z) && AllModesSelected(data, z, 2)
  {
    assert Column(z, 0) == [0.9, 0.1] && Column(z, 1) == [0.1, 0.9];
    assert MinSignificant(data, Column(z, 0)).Some?;
    assert MinSignificant(data, Column(z, 1)).Some?;
  }

  lemma ExampleSecondMode(data: seq<real>, z: Matrix, p: Params)
    requires data == [1.0, 10.0] && z == [[0.9, 0.1], [0.1, 0.9]]
    requires IsMatrix(z, |data|, 2) && InitialEstimate(data, z, 2, p)
    ensures p.betta[1] < 0.0
  {
    var col := Column(z, 1);
    assert col == [0.1, 0.9];
    assert IsSignificantMin(data, col, p.shift[1]);
    assert p.shift[1] == 10.0;
    assert ColumnSum(col) == 1.0;
    assert data[1..] == [10.0] && col[1..] == [0.9];
    assert WeightedSum([10.0], [0.9]) == 9.0;
    assert WeightedSum(data, col) == 9.1;
    assert p.shift[1] + p.betta[1] / (Al0 - 1.0) == 9.1;
  }
}
