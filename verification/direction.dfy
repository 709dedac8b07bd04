/** Layout of the Newton direction (`shiftcalc`): the three gradient vectors
    are interleaved mode by mode into one vector of length 3K ordered
    (alpha_1, betta_1, shift_1, alpha_2, ...), multiplied by the negated
    damped inverse, and the result is reshaped into three rows holding the
    alpha, betta and shift components of every mode. */
module Direction {
  import opened Base

  /** `np.transpose(np.array([ga, gb, gs])).flatten()`. */
  function Interleave(ga: seq<real>, gb: seq<real>, gs: seq<real>): (v: seq<real>)
    requires |ga| == |gb| == |gs|
    ensures |v| == 3 * |ga|
    ensures forall i :: 0 <= i < |ga| ==> v[3 * i] == ga[i] && v[3 * i + 1] == gb[i] && v[3 * i + 2] == gs[i]
  {
    if |ga| == 0 then []
    else
      var rest := Interleave(ga[1..], gb[1..], gs[1..]);
      var v := [ga[0], gb[0], gs[0]] + rest;
      InterleaveStep(ga, gb, gs, rest, v);
      v
  }

  /** Prepending mode 0's triple to the interleaving of the other modes. */
  lemma InterleaveStep(ga: seq<real>, gb: seq<real>, gs: seq<real>, rest: seq<real>, v: seq<real>)
    requires |ga| == |gb| == |gs| >= 1
    requires |rest| == 3 * (|ga| - 1)
    requires forall i :: 0 <= i < |ga| - 1 ==>
      rest[3 * i] == ga[1..][i] && rest[3 * i + 1] == gb[1..][i] && rest[3 * i + 2] == gs[1..][i]
    requires v == [ga[0], gb[0], gs[0]] + rest
    ensures |v| == 3 * |ga|
    ensures forall i :: 0 <= i < |ga| ==> v[3 * i] == ga[i] && v[3 * i + 1] == gb[i] && v[3 * i + 2] == gs[i]
  {
    forall i | 1 <= i < |ga|
      ensures v[3 * i] == ga[i] && v[3 * i + 1] == gb[i] && v[3 * i + 2] == gs[i]
    {
      var k := i - 1;
      assert v[3 * i] == rest[3 * k] && v[3 * i + 1] == rest[3 * k + 1] && v[3 * i + 2] == rest[3 * k + 2];
    }
  }

  /** `shiftc.reshape((K, 3)).T`: row j, column i holds entry 3i + j. */
  function Reshape(d: seq<real>, modes: nat): (rows: seq<seq<real>>)
    requires |d| == 3 * modes
    ensures IsMatrix(rows, 3, modes)
  {
    seq(3, j requires 0 <= j < 3 =>
      seq(modes, i requires 0 <= i < modes => d[3 * i + j]))
  }

  /** Reshaping the interleaved gradient gives back the three vectors. */
  lemma ReshapeInterleave(ga: seq<real>, gb: seq<real>, gs: seq<real>)
    requires |ga| == |gb| == |gs|
    ensures Reshape(Interleave(ga, gb, gs), |ga|) == [ga, gb, gs]
  {
    var d := Interleave(ga, gb, gs);
    var rows := Reshape(d, |ga|);
    forall i | 0 <= i < |ga|
      ensures rows[0][i] == ga[i] && rows[1][i] == gb[i] && rows[2][i] == gs[i]
    {
      ReshapeAt(d, |ga|, i, 0);
      ReshapeAt(d, |ga|, i, 1);
      ReshapeAt(d, |ga|, i, 2);
    }
    assert rows[0] == ga;
    assert rows[1] == gb;
    assert rows[2] == gs;
  }

  /** Interleaving the reshaped rows gives back the flat vector: the two
      layouts are inverse to each other. */
  lemma InterleaveReshape(d: seq<real>, modes: nat)
    requires |d| == 3 * modes
    ensures var rows := Reshape(d, modes);
      Interleave(rows[0], rows[1], rows[2]) == d
  {
    var rows := Reshape(d, modes);
    var v := Interleave(rows[0], rows[1], rows[2]);
    forall m | 0 <= m < |d|
      ensures v[m] == d[m]
    {
      var i := m / 3;
      var j := m % 3;
      assert m == 3 * i + j;
      assert rows[j][i] == d[3 * i + j];
    }
  }

  /** Sum of the entries of a vector. */
  function Sum(v: seq<real>): real
  {
    if |v| == 0 then 0.0 else v[0] + Sum(v[1..])
  }

  /** Componentwise products of two vectors of equal length. */
  function Products(a: seq<real>, b: seq<real>): (p: seq<real>)
    requires |a| == |b|
    ensures |p| == |a|
    ensures forall m :: 0 <= m < |a| ==> p[m] == a[m] * b[m]
  {
    seq(|a|, m requires 0 <= m < |a| => a[m] * b[m])
  }

  /** The dot product is the sum of the componentwise products. */
  lemma {:induction false} DotIsSum(a: seq<real>, b: seq<real>)
    requires |a| == |b|
    ensures Dot(a, b) == Sum(Products(a, b))
  {
    if |a| > 0 {
      DotIsSum(a[1..], b[1..]);
      var p, q := Products(a, b), Products(a[1..], b[1..]);
      assert forall m :: 0 <= m < |q| ==> p[1..][m] == q[m];
      assert p[1..] == q;
    }
  }

  /** `np.matmul(-inv, grad)`. */
  function NegMatVec(m: Matrix, v: seq<real>): (r: seq<real>)
    requires forall i :: 0 <= i < |m| ==> |m[i]| == |v|
    ensures |r| == |m|
  {
    seq(|m|, i requires 0 <= i < |m| => -Dot(m[i], v))
  }

  /** `shiftcalc` given the damped inverse `inv` (the inverse of the Hessian
      plus a random perturbation, computed outside the model). */
  function ShiftCalc(inv: Matrix, ga: seq<real>, gb: seq<real>, gs: seq<real>): (ss: seq<seq<real>>)
    requires |ga| == |gb| == |gs|
    requires IsMatrix(inv, 3 * |ga|, 3 * |ga|)
    ensures IsMatrix(ss, 3, |ga|)
  {
    Reshape(NegMatVec(inv, Interleave(ga, gb, gs)), |ga|)
  }

  /** Read back in the interleaved order, the three rows of the direction
      are exactly `-inv` applied to the interleaved gradient: the reshape
      loses and reorders nothing. */
  lemma ShiftCalcFlattens(inv: Matrix, ga: seq<real>, gb: seq<real>, gs: seq<real>)
    requires |ga| == |gb| == |gs|
    requires IsMatrix(inv, 3 * |ga|, 3 * |ga|)
    ensures var ss := ShiftCalc(inv, ga, gb, gs);
      Interleave(ss[0], ss[1], ss[2]) == NegMatVec(inv, Interleave(ga, gb, gs))
  {
    InterleaveReshape(NegMatVec(inv, Interleave(ga, gb, gs)), |ga|);
  }

  /** Row j, column i of the direction is minus row 3i + j of the inverse
      applied to the interleaved gradient: the (alpha, betta, shift)
      component j of mode i lines up with the Hessian's row for it. */
  lemma ShiftCalcLayout(inv: Matrix, ga: seq<real>, gb: seq<real>, gs: seq<real>, i: nat, j: nat)
    requires |ga| == |gb| == |gs|
    requires IsMatrix(inv, 3 * |ga|, 3 * |ga|)
    requires i < |ga| && j < 3
    ensures ShiftCalc(inv, ga, gb, gs)[j][i] == -Dot(inv[3 * i + j], Interleave(ga, gb, gs))
  {
    var g := Interleave(ga, gb, gs);
    var d := NegMatVec(inv, g);
    assert ShiftCalc(inv, ga, gb, gs) == Reshape(d, |ga|);
    ReshapeAt(d, |ga|, i, j);
  }

  lemma ReshapeAt(d: seq<real>, modes: nat, i: nat, j: nat)
    requires |d| == 3 * modes && i < modes && j < 3
    ensures Reshape(d, modes)[j][i] == d[3 * i + j]
  {
  }

  /** A vector that is zero everywhere sums to zero. */
  lemma {:induction false} SumZero(v: seq<real>)
    requires forall m :: 0 <= m < |v| ==> v[m] == 0.0
    ensures Sum(v) == 0.0
  {
    if |v| > 0 {
      SumZero(v[1..]);
    }
  }

  /** A vector that is zero outside the three entries from `lo` sums to
      those three entries. */
  lemma {:induction false} SumThree(v: seq<real>, lo: nat)
    requires lo + 3 <= |v|
    requires forall m :: 0 <= m < |v| && (m < lo || m >= lo + 3) ==> v[m] == 0.0
    ensures Sum(v) == v[lo] + v[lo + 1] + v[lo + 2]
  {
    if lo > 0 {
      SumThree(v[1..], lo - 1);
    } else {
      assert v[1..][1..] == v[2..] && v[2..][1..] == v[3..];
      SumZero(v[3..]);
      assert Sum(v[2..]) == v[2] + Sum(v[3..]);
      assert Sum(v[1..]) == v[1] + Sum(v[2..]);
    }
  }

  /** A row that is zero outside the three entries from `lo` has the dot
      product of those three entries. */
  lemma DotThree(a: seq<real>, b: seq<real>, lo: nat)
    requires |a| == |b| && lo + 3 <= |a|
    requires forall m :: 0 <= m < |a| && (m < lo || m >= lo + 3) ==> a[m] == 0.0
    ensures Dot(a, b) == a[lo] * b[lo] + a[lo + 1] * b[lo + 1] + a[lo + 2] * b[lo + 2]
  {
    DotIsSum(a, b);
    var p := Products(a, b);
    forall m | 0 <= m < |p| && (m < lo || m >= lo + 3)
      ensures p[m] == 0.0
    {
      assert a[m] == 0.0;
    }
    SumThree(p, lo);
  }

  /** When the inverse is block diagonal the modes decouple: the direction
      of mode i depends only on block i and mode i's own gradient. This is
      a fact about the layout of the undamped inverse: the random
      perturbation `shiftcalc` adds to the whole 3K x 3K matrix before
      inverting makes the damped inverse dense. */
  lemma BlockDiagonalDecouples(inv: Matrix, ga: seq<real>, gb: seq<real>, gs: seq<real>, i: nat, j: nat)
    requires |ga| == |gb| == |gs|
    requires IsMatrix(inv, 3 * |ga|, 3 * |ga|)
    requires BlockDiagonal(inv, |ga|)
    requires i < |ga| && j < 3
    ensures ShiftCalc(inv, ga, gb, gs)[j][i] ==
      -(inv[3 * i + j][3 * i] * ga[i] + inv[3 * i + j][3 * i + 1] * gb[i] + inv[3 * i + j][3 * i + 2] * gs[i])
  {
    assert (3 * i + j) / 3 == i;
    OffBlockZero(inv, |ga|, 3 * i + j);
    ShiftCalcLayout(inv, ga, gb, gs, i, j);
    DotBlock(inv[3 * i + j], Interleave(ga, gb, gs), 3 * i, ga[i], gb[i], gs[i]);
  }

  /** `DotThree` with the three entries of `b` named. */
  lemma DotBlock(a: seq<real>, b: seq<real>, lo: nat, x: real, y: real, z: real)
    requires |a| == |b| && lo + 3 <= |a|
    requires forall m :: 0 <= m < |a| && (m < lo || m >= lo + 3) ==> a[m] == 0.0
    requires b[lo] == x && b[lo + 1] == y && b[lo + 2] == z
    ensures Dot(a, b) == a[lo] * x + a[lo + 1] * y + a[lo + 2] * z
  {
    DotThree(a, b, lo);
  }

  /** Row r of a block-diagonal matrix is zero outside its block. */
  lemma OffBlockZero(m: Matrix, modes: nat, r: nat)
    requires IsMatrix(m, 3 * modes, 3 * modes) && BlockDiagonal(m, modes)
    requires r < 3 * modes
    ensures forall c :: 0 <= c < 3 * modes && (c < 3 * (r / 3) || c >= 3 * (r / 3) + 3) ==> m[r][c] == 0.0
  {
  }
}
