/** Shared vocabulary of the shifted Inverse-Gamma mixture fitter: the
    fixed constants of the algorithm, the per-mode parameter triple, the
    failure-carrying wrappers, and the read-only inputs that the generic
    mixture base class owns (observations, responsibilities, mode counts,
    mixing weights). */
module Base {

  /** Conventional optional value. */
  datatype Option<+T> = None | Some(value: T)

  /** A value or the error the Python code would have raised. */
  datatype Result<+T, +E> = Ok(value: T) | Err(error: E)

  /** Dense matrix, row-major, as numpy's 2-D arrays. */
  type Matrix = seq<seq<real>>

  /** Membership-significance threshold `c`. */
  const C: real := 0.1
  /** Prior target for the shape of mode 0, also the initial shape of every mode. */
  const Al0: real := 3.5
  /** Weak-prior width `sig`; the prior precision is 1/sig^2. */
  const Sig: real := 0.1
  /** Smallest step size the line search still tries. */
  const Epsilon: real := 0.0000000000000001
  /** Floor applied to shape and scale proposals. */
  const Floor: real := 0.1
  /** Factor by which a rejected step is shrunk. */
  const Shrink: real := 0.7

  /** The special functions the fitter calls, left uninterpreted:
      digamma, trigamma (polygamma of order 1), log-gamma and log. */
  datatype Special = Special(
    psi: real -> real,
    trigamma: real -> real,
    gammaln: real -> real,
    log: real -> real)

  /** One (alpha, betta, shift) triple per mode, as three parallel vectors. */
  datatype Params = Params(alpha: seq<real>, betta: seq<real>, shift: seq<real>)

  predicate ParamsShaped(p: Params, k: nat) {
    |p.alpha| == k && |p.betta| == k && |p.shift| == k
  }

  /** An N x K matrix. */
  predicate IsMatrix(m: Matrix, rows: nat, cols: nat) {
    |m| == rows && forall r :: 0 <= r < rows ==> |m[r]| == cols
  }

  /** Entries outside the `modes` diagonal 3 x 3 blocks are zero. */
  predicate BlockDiagonal(m: Matrix, modes: nat)
    requires IsMatrix(m, 3 * modes, 3 * modes)
  {
    forall r, c :: 0 <= r < 3 * modes && 0 <= c < 3 * modes && r / 3 != c / 3 ==> m[r][c] == 0.0
  }

  /** Column `k` of a matrix, numpy's `Z.T[k]` / `Z[:, k]`. */
  function Column(m: Matrix, k: nat): (col: seq<real>)
    requires forall r :: 0 <= r < |m| ==> k < |m[r]|
    ensures |col| == |m|
    ensures forall r :: 0 <= r < |m| ==> col[r] == m[r][k]
  {
    seq(|m|, r requires 0 <= r < |m| => m[r][k])
  }

  /** Everything the fitter reads from the mixture base class: the
      observations `data`, the N x K responsibility matrix `z`, the
      per-mode effective counts `n` (`self.N`), the mixing weights `mix`,
      and the special functions. */
  datatype Problem = Problem(
    data: seq<real>,
    z: Matrix,
    n: seq<real>,
    mix: seq<real>,
    fns: Special)
  {
    /** Number of modes K. */
    function Modes(): nat { |mix| }

    /** Shapes agree: K >= 1 modes, z is N x K, one count per mode. */
    predicate WellShaped() {
      && |mix| >= 1
      && |n| == |mix|
      && IsMatrix(z, |data|, |mix|)
    }
  }

  /** Prior precision of mode `i`: 1/sig^2 for the first mode, 0 otherwise
      (the vector `w`). */
  function PriorWeight(i: nat): (w: real)
    ensures i == 0 ==> w == 100.0
    ensures i > 0 ==> w == 0.0
  {
    if i == 0 then 1.0 / (Sig * Sig) else 0.0
  }

  /** Componentwise `np.maximum(v, floor)`. */
  function ClampBelow(v: seq<real>, floor: real): (r: seq<real>)
    ensures |r| == |v|
    ensures forall i :: 0 <= i < |v| ==> r[i] >= floor && r[i] >= v[i]
    ensures forall i :: 0 <= i < |v| ==> r[i] == v[i] || r[i] == floor
  {
    seq(|v|, i requires 0 <= i < |v| => if v[i] > floor then v[i] else floor)
  }

  /** `a + s * d` on vectors of equal length. */
  function AddScaled(a: seq<real>, s: real, d: seq<real>): (r: seq<real>)
    requires |a| == |d|
    ensures |r| == |a|
    ensures forall i :: 0 <= i < |a| ==> r[i] - a[i] == s * d[i]
  {
    seq(|a|, i requires 0 <= i < |a| => a[i] + s * d[i])
  }

  /** Dot product of two vectors of equal length (`np.dot`). */
  function Dot(a: seq<real>, b: seq<real>): real
    requires |a| == |b|
  {
    if |a| == 0 then 0.0 else a[0] * b[0] + Dot(a[1..], b[1..])
  }

  /** `a` and `a'` have the same length and agree outside entry i. */
  predicate AgreeOutside(a: seq<real>, a': seq<real>, i: nat) {
    |a| == |a'| && forall k :: 0 <= k < |a| && k != i ==> a'[k] == a[k]
  }

  /** Two vectors that agree outside entry i have dot products that differ
      by the change of entry i times b[i]. */
  lemma {:induction false} DotChangeOne(a: seq<real>, a': seq<real>, b: seq<real>, i: nat)
    requires |a| == |b| && i < |a| && AgreeOutside(a, a', i)
    ensures Dot(a', b) - Dot(a, b) == (a'[i] - a[i]) * b[i]
  {
    if i > 0 {
      assert a'[0] == a[0];
      assert AgreeOutside(a[1..], a'[1..], i - 1) by {
        forall k | 0 <= k < |a| - 1 && k != i - 1
          ensures a'[1..][k] == a[1..][k]
        {
          assert a'[k + 1] == a[k + 1];
        }
      }
      DotChangeOne(a[1..], a'[1..], b[1..], i - 1);
    } else {
      assert a'[1..] == a[1..];
    }
  }
}
