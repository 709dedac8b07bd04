/** One parameter update of the fitter (`_m_step`) and the parameter
    accessor (`params`). The update evaluates the objective, builds the
    Newton direction, and backtracks: it proposes `previous + step *
    direction` with shape and scale clamped at 0.1, accepts the first
    proposal whose objective is not larger than before, and otherwise
    shrinks the step by 0.7 until it falls to 1e-16, when it gives up and
    restores the previous values. */
module LineSearch {
  import opened Base
  import opened Fisher
  import Direction

  /** The fitter's mutable state: the parameters, the `shiftv` attribute the
      give-up branch writes (None until it does), the step size `self.step`,
      and what the last `CalcFisherMatrix` stored. */
  datatype Fitter = Fitter(params: Params, shiftv: Option<seq<real>>, step: real, fisher: FisherState)

  /** The parameter snapshot `params()` returns. */
  datatype Snapshot = Snapshot(mix: seq<real>, alpha: seq<real>, betta: seq<real>, shift: seq<real>)

  /** `params()`: the mixing weights and the parameters. */
  function ParamsOf(mix: seq<real>, st: Fitter): (s: Snapshot)
    ensures s.mix == mix && Params(s.alpha, s.betta, s.shift) == st.params
  {
    Snapshot(mix, st.params.alpha, st.params.betta, st.params.shift)
  }

  /** The snapshot reports `shift` and never `shiftv`. */
  lemma SnapshotIgnoresShiftv(mix: seq<real>, st: Fitter, v: Option<seq<real>>)
    ensures ParamsOf(mix, st.(shiftv := v)) == ParamsOf(mix, st)
    ensures ParamsOf(mix, st).shift == st.params.shift
  {
  }

  /** The number of rejected proposals after which a search that starts
      from step 1 gives up: 0.7^104 <= 1e-16 < 0.7^103. */
  const MaxRejections: nat := 104

  function Pow(x: real, n: nat): real
  {
    if n == 0 then 1.0 else x * Pow(x, n - 1)
  }

  /** Powers of the shrink factor decrease strictly. */
  lemma {:induction false} ShrinkPowDecreasing(m: nat, n: nat)
    requires m < n
    ensures Pow(Shrink, n) < Pow(Shrink, m)
  {
    ShrinkPowPositive(m);
    if n == m + 1 {
      assert Pow(Shrink, n) == Shrink * Pow(Shrink, m);
    } else {
      ShrinkPowDecreasing(m, n - 1);
      ShrinkPowPositive(n - 1);
      assert Pow(Shrink, n) == Shrink * Pow(Shrink, n - 1);
    }
  }

  lemma {:induction false} ShrinkPowPositive(n: nat)
    ensures Pow(Shrink, n) > 0.0
  {
    if n > 0 {
      ShrinkPowPositive(n - 1);
    }
  }

  lemma {:induction false} PowAdd(x: real, a: nat, b: nat)
    ensures Pow(x, a + b) == Pow(x, a) * Pow(x, b)
  {
    if a > 0 {
      PowAdd(x, a - 1, b);
      assert Pow(x, a + b) == x * Pow(x, a - 1 + b);
    }
  }

  /** 0.7^103 > 1e-16 >= 0.7^104, by squaring up from 0.7^8. */
  lemma ShrinkPowThreshold()
    ensures Pow(Shrink, 103) > Epsilon && Pow(Shrink, 104) <= Epsilon
  {
    assert Pow(0.7, 8) == 0.05764801;
    assert Pow(0.7, 7) == 0.0823543;
    PowAdd(0.7, 8, 8);
    PowAdd(0.7, 16, 16);
    PowAdd(0.7, 32, 32);
    PowAdd(0.7, 64, 32);
    PowAdd(0.7, 96, 7);
    PowAdd(0.7, 96, 8);
  }

  /** A search from step 1 gives up exactly when the shrunk step is
      0.7^104: the first power of 0.7 at or below 1e-16. */
  lemma FirstPowBelowEpsilon(r: nat)
    requires Pow(Shrink, r) <= Epsilon
    requires r >= 1 ==> Pow(Shrink, r - 1) > Epsilon
    ensures r == MaxRejections
  {
    ShrinkPowThreshold();
    if r < 104 {
      if r < 103 {
        ShrinkPowDecreasing(r, 103);
      }
    } else if r > 104 {
      ShrinkPowDecreasing(104, r - 1);
    }
  }

  /** The step after `m` rejections of a search starting at `step0`. */
  function StepAfter(step0: real, m: nat): real
  {
    if m == 0 then step0 else StepAfter(step0, m - 1) * Shrink
  }

  /** The step after `m` rejections is `step0 * 0.7^m`. */
  lemma {:induction false} StepAfterPow(step0: real, m: nat)
    ensures StepAfter(step0, m) == step0 * Pow(Shrink, m)
  {
    if m > 0 {
      StepAfterPow(step0, m - 1);
      assert step0 * Pow(Shrink, m) == step0 * Pow(Shrink, m - 1) * Shrink;
    }
  }

  lemma {:induction false} StepAfterPositive(step0: real, m: nat)
    requires step0 > 0.0
    ensures StepAfter(step0, m) > 0.0
  {
    if m > 0 {
      StepAfterPositive(step0, m - 1);
    }
  }

  /** From step 1, a search that gives up does so after exactly 104
      rejections. */
  lemma GivesUpAtLimit(r: nat)
    requires r >= 1 && StepAfter(1.0, r) <= Epsilon
    requires r >= 2 ==> StepAfter(1.0, r - 1) > Epsilon
    ensures r == MaxRejections
  {
    StepAfterPow(1.0, r);
    StepAfterPow(1.0, r - 1);
    FirstPowBelowEpsilon(r);
  }

  /** From step 1, a search that accepts does so after fewer than 104
      rejections: the step after each rejection is still above 1e-16. */
  lemma AcceptsBeforeLimit(r: nat)
    requires r >= 1 ==> StepAfter(1.0, r) > Epsilon
    ensures r < MaxRejections
  {
    if r >= MaxRejections {
      StepAfterPow(1.0, r);
      ShrinkPowThreshold();
      if r > MaxRejections {
        ShrinkPowDecreasing(MaxRejections, r);
      }
    }
  }

  /** A proposal: `previous + step * direction`, shape and scale clamped
      below at 0.1, shift left unclamped. */
  function Propose(p: Params, ss: seq<seq<real>>, step: real): (q: Params)
    requires IsMatrix(ss, 3, |p.alpha|) && ParamsShaped(p, |p.alpha|)
    ensures ParamsShaped(q, |p.alpha|)
    ensures forall i :: 0 <= i < |p.alpha| ==> q.alpha[i] >= Floor && q.betta[i] >= Floor
    ensures forall i :: 0 <= i < |p.alpha| ==>
      && (q.alpha[i] == p.alpha[i] + step * ss[0][i] || q.alpha[i] == Floor)
      && (q.betta[i] == p.betta[i] + step * ss[1][i] || q.betta[i] == Floor)
      && q.alpha[i] >= p.alpha[i] + step * ss[0][i]
      && q.betta[i] >= p.betta[i] + step * ss[1][i]
      && q.shift[i] == p.shift[i] + step * ss[2][i]
  {
    Params(ClampBelow(AddScaled(p.alpha, step, ss[0]), Floor),
           ClampBelow(AddScaled(p.betta, step, ss[1]), Floor),
           AddScaled(p.shift, step, ss[2]))
  }

  /** A non-zero step along a non-zero shift component moves that shift. */
  lemma ProposalMovesShift(p: Params, ss: seq<seq<real>>, step: real, i: nat)
    requires IsMatrix(ss, 3, |p.alpha|) && ParamsShaped(p, |p.alpha|) && i < |p.alpha|
    requires step != 0.0 && ss[2][i] != 0.0
    ensures Propose(p, ss, step).shift[i] != p.shift[i]
  {
    assert Propose(p, ss, step).shift[i] - p.shift[i] == step * ss[2][i];
  }

  /** Every proposal can be evaluated: its scales are at least 0.1. */
  lemma ProposalEvaluable(prob: Problem, p: Params, ss: seq<seq<real>>, step: real)
    requires Evaluable(prob, p) && IsMatrix(ss, 3, prob.Modes())
    ensures Evaluable(prob, Propose(p, ss, step))
  {
  }

  /** The direction `shiftcalc` returns at `p`, given the damped inverse. */
  function SearchDirection(prob: Problem, p: Params, inv: Matrix): (ss: seq<seq<real>>)
    requires Evaluable(prob, p) && IsMatrix(inv, 3 * prob.Modes(), 3 * prob.Modes())
    ensures IsMatrix(ss, 3, prob.Modes())
  {
    Direction.ShiftCalc(inv, GradAlpha(prob, p), GradBetta(prob, p), GradShift(prob, p))
  }

  /** A bound on the shrinks left: each continuing shrink lowers it. */
  function Budget(step: real): nat
  {
    if step > 0.0 then (step / (0.3 * Epsilon)).Floor + 1 else 0
  }

  lemma BudgetShrinks(step: real)
    requires step * Shrink > Epsilon
    ensures Budget(step * Shrink) < Budget(step)
  {
    var x := step / (0.3 * Epsilon);
    var y := step * Shrink / (0.3 * Epsilon);
    assert x - y == step / Epsilon;
    assert step > Epsilon;
    assert x - y > 1.0;
  }

  /** The proposal tried after `m` rejections of a search starting at `step`. */
  function Tried(p: Params, ss: seq<seq<real>>, step: real, m: nat): Params
    requires IsMatrix(ss, 3, |p.alpha|) && ParamsShaped(p, |p.alpha|)
  {
    Propose(p, ss, StepAfter(step, m))
  }

  /** The objective at the proposal tried after `m` rejections. */
  function TriedObjective(prob: Problem, p: Params, ss: seq<seq<real>>, step: real, m: nat): real
    requires Evaluable(prob, p) && IsMatrix(ss, 3, prob.Modes())
  {
    ProposalEvaluable(prob, p, ss, StepAfter(step, m));
    LogLike(prob, Tried(p, ss, step, m))
  }


  /** A search ends by accepting exactly when it rejected nothing or the
      step it shrank to is still above 1e-16. */
  predicate Accepted(rejections: nat, step: real) {
    rejections == 0 || step > Epsilon
  }

  /** The loop of `_m_step`, over the objective `value(m)` of the proposal
      tried after `m` rejections: from step `step0`, accept the first
      proposal whose objective is at most `ifvalue` (conv), or shrink the
      step by 0.7 and give up once it is at most 1e-16. */
  method Backtrack(value: nat -> real, step0: real, ifvalue: real)
    returns (conv: bool, step: real, rejections: nat)
    ensures step == StepAfter(step0, rejections)
    ensures conv <==> Accepted(rejections, step)
    ensures forall m :: 0 <= m < rejections ==> value(m) > ifvalue
    ensures Accepted(rejections, step) ==> value(rejections) <= ifvalue
    ensures rejections >= 2 ==> StepAfter(step0, rejections - 1) > Epsilon
  {
    step := step0;
    rejections := 0;
    ghost var budget: nat := Budget(step);
    while true
      invariant step == StepAfter(step0, rejections)
      invariant forall m :: 0 <= m < rejections ==> value(m) > ifvalue
      invariant rejections >= 1 ==> step > Epsilon
      invariant rejections >= 2 ==> StepAfter(step0, rejections - 1) > Epsilon
      invariant budget >= Budget(step)
      decreases budget
    {
      // the objective at `previous + step * direction`, clamped
      if value(rejections) > ifvalue {
        var next := step * Shrink;
        if next > Epsilon {
          BudgetShrinks(step);
          budget := Budget(next);
        }
        if next <= Epsilon {
          conv, step, rejections := false, next, rejections + 1;
          return;
        }
        step := next;
        rejections := rejections + 1;
      } else {
        conv := true;
        return;
      }
    }
  }

  /** The parts of `CalcFisherMatrix` the line search reads. */
  method Evaluate(prob: Problem, p: Params) returns (f: FisherState)
    requires Evaluable(prob, p)
    ensures f.gradAlpha == GradAlpha(prob, p)
    ensures f.gradBetta == GradBetta(prob, p)
    ensures f.gradShift == GradShift(prob, p)
    ensures f.loglike == LogLike(prob, p)
  {
    f := CalcFisherMatrix(prob, p);
  }

  /** The backtracking loop over the objectives of the proposals along
      `ss` from `p`. */
  method BacktrackObjective(prob: Problem, p: Params, ss: seq<seq<real>>, step0: real, ifvalue: real)
    returns (conv: bool, step: real, rejections: nat)
    requires Evaluable(prob, p) && IsMatrix(ss, 3, prob.Modes())
    ensures step == StepAfter(step0, rejections)
    ensures conv <==> Accepted(rejections, step)
    ensures forall m :: 0 <= m < rejections ==> TriedObjective(prob, p, ss, step0, m) > ifvalue
    ensures Accepted(rejections, step) ==> TriedObjective(prob, p, ss, step0, rejections) <= ifvalue
    ensures rejections >= 2 ==> StepAfter(step0, rejections - 1) > Epsilon
  {
    var value := (m: nat) => TriedObjective(prob, p, ss, step0, m);
    conv, step, rejections := Backtrack(value, step0, ifvalue);
    forall m | 0 <= m < rejections
      ensures TriedObjective(prob, p, ss, step0, m) > ifvalue
    {
      assert value(m) > ifvalue;
    }
    if conv {
      assert value(rejections) <= ifvalue;
    }
  }

  /** The search along `ss` from `p`: backtracks, then evaluates the
      proposal tried last, the accepted one or else the last rejected one. */
  method Search(prob: Problem, p: Params, ss: seq<seq<real>>, step0: real, ifvalue: real)
    returns (conv: bool, step: real, rejections: nat, last: Params, f: FisherState)
    requires Evaluable(prob, p) && IsMatrix(ss, 3, prob.Modes())
    ensures step == StepAfter(step0, rejections)
    ensures conv <==> Accepted(rejections, step)
    ensures forall m :: 0 <= m < rejections ==> TriedObjective(prob, p, ss, step0, m) > ifvalue
    ensures Accepted(rejections, step) ==>
      last == Tried(p, ss, step0, rejections) && TriedObjective(prob, p, ss, step0, rejections) <= ifvalue
    ensures !Accepted(rejections, step) ==> last == Tried(p, ss, step0, rejections - 1)
    ensures rejections >= 2 ==> StepAfter(step0, rejections - 1) > Epsilon
    ensures Evaluable(prob, last) && f.loglike == LogLike(prob, last)
  {
    conv, step, rejections := BacktrackObjective(prob, p, ss, step0, ifvalue);
    last, f := EvaluateTried(prob, p, ss, step0, if conv then rejections else rejections - 1);
  }

  /** `CalcFisherMatrix` at the proposal tried after `m` rejections. */
  method EvaluateTried(prob: Problem, p: Params, ss: seq<seq<real>>, step0: real, m: nat)
    returns (last: Params, f: FisherState)
    requires Evaluable(prob, p) && IsMatrix(ss, 3, prob.Modes())
    ensures last == Tried(p, ss, step0, m)
    ensures Evaluable(prob, last) && f.loglike == LogLike(prob, last)
    ensures f.loglike == TriedObjective(prob, p, ss, step0, m)
  {
    last := Tried(p, ss, step0, m);
    ProposalEvaluable(prob, p, ss, StepAfter(step0, m));
    f := Evaluate(prob, last);
  }

  /** `_m_step` as written. `inv` is the damped inverse `shiftcalc` computes
      from the Hessian and a random perturbation. On giving up it restores
      alpha, betta and the objective but writes the saved shift to `shiftv`,
      so `shift` keeps the last rejected proposal. */
  method MStep(prob: Problem, st: Fitter, inv: Matrix)
    returns (st': Fitter, conv: bool, step: real, rejections: nat)
    requires Evaluable(prob, st.params)
    requires IsMatrix(inv, 3 * prob.Modes(), 3 * prob.Modes())
    ensures st'.step == st.step
    ensures step == StepAfter(st.step, rejections)
    ensures conv <==> Accepted(rejections, step)
    ensures var ss := SearchDirection(prob, st.params, inv);
      var ifvalue := LogLike(prob, st.params);
      && (forall m :: 0 <= m < rejections ==> TriedObjective(prob, st.params, ss, st.step, m) > ifvalue)
      && (Accepted(rejections, step) ==>
            && st'.params == Tried(st.params, ss, st.step, rejections)
            && st'.fisher.loglike == TriedObjective(prob, st.params, ss, st.step, rejections)
            && st'.fisher.loglike <= ifvalue
            && st'.shiftv == st.shiftv)
      && (!Accepted(rejections, step) ==>
            && st'.params.alpha == st.params.alpha
            && st'.params.betta == st.params.betta
            && st'.params.shift == Tried(st.params, ss, st.step, rejections - 1).shift
            && st'.shiftv == Some(st.params.shift)
            && st'.fisher.loglike == ifvalue)
    ensures Accepted(rejections, step) ==>
      forall i :: 0 <= i < prob.Modes() ==> st'.params.alpha[i] >= Floor && st'.params.betta[i] >= Floor
    ensures st.step == 1.0 ==> (Accepted(rejections, step) <==> rejections < MaxRejections)
    ensures st.step == 1.0 && !Accepted(rejections, step) ==> rejections == MaxRejections
    ensures st.step > 0.0 && !Accepted(rejections, step) ==>
      var ss := SearchDirection(prob, st.params, inv);
      forall i :: 0 <= i < prob.Modes() && ss[2][i] != 0.0 ==>
        ParamsOf(prob.mix, st').shift[i] != ParamsOf(prob.mix, st).shift[i]
  {
    var f0 := Evaluate(prob, st.params);
    var ss := Direction.ShiftCalc(inv, f0.gradAlpha, f0.gradBetta, f0.gradShift);
    var ifvalue := f0.loglike;
    var last, f;
    conv, step, rejections, last, f := Search(prob, st.params, ss, st.step, ifvalue);
    if conv {
      st' := Fitter(last, st.shiftv, st.step, f);
    } else {
      st' := Fitter(Params(st.params.alpha, st.params.betta, last.shift), Some(st.params.shift), st.step,
                    f.(loglike := ifvalue));
      if st.step > 0.0 {
        StepAfterPositive(st.step, rejections - 1);
        forall i | 0 <= i < prob.Modes() && ss[2][i] != 0.0
          ensures st'.params.shift[i] != st.params.shift[i]
        {
          ProposalMovesShift(st.params, ss, StepAfter(st.step, rejections - 1), i);
        }
      }
    }
    if st.step == 1.0 {
      if conv {
        AcceptsBeforeLimit(rejections);
      } else {
        GivesUpAtLimit(rejections);
      }
    }
  }

  /** `_m_step` with the give-up branch restoring `shift` itself: a search
      that gives up leaves the parameters exactly as they were. */
  method MStepCorrected(prob: Problem, st: Fitter, inv: Matrix)
    returns (st': Fitter, conv: bool, step: real, rejections: nat)
    requires Evaluable(prob, st.params)
    requires IsMatrix(inv, 3 * prob.Modes(), 3 * prob.Modes())
    ensures st'.step == st.step
    ensures step == StepAfter(st.step, rejections)
    ensures conv <==> Accepted(rejections, step)
    ensures var ss := SearchDirection(prob, st.params, inv);
      var ifvalue := LogLike(prob, st.params);
      && (forall m :: 0 <= m < rejections ==> TriedObjective(prob, st.params, ss, st.step, m) > ifvalue)
      && (Accepted(rejections, step) ==>
            && st'.params == Tried(st.params, ss, st.step, rejections)
            && st'.fisher.loglike == TriedObjective(prob, st.params, ss, st.step, rejections)
            && st'.fisher.loglike <= ifvalue)
      && (!Accepted(rejections, step) ==> st'.fisher.loglike == ifvalue)
    ensures Accepted(rejections, step) ==>
      forall i :: 0 <= i < prob.Modes() ==> st'.params.alpha[i] >= Floor && st'.params.betta[i] >= Floor
    ensures !Accepted(rejections, step) ==> st'.params == st.params && ParamsOf(prob.mix, st') == ParamsOf(prob.mix, st)
    ensures st'.shiftv == st.shiftv
  {
    var f0 := Evaluate(prob, st.params);
    var ss := Direction.ShiftCalc(inv, f0.gradAlpha, f0.gradBetta, f0.gradShift);
    var ifvalue := f0.loglike;
    var last, f;
    conv, step, rejections, last, f := Search(prob, st.params, ss, st.step, ifvalue);
    if conv {
      st' := Fitter(last, st.shiftv, st.step, f);
    } else {
      st' := Fitter(st.params, st.shiftv, st.step, f.(loglike := ifvalue));
    }
  }
}
