/**
 * What the nonlinear program built by `MPC._initDynamics` means for a given
 * decision vector w and parameter vector P: the values of the stage costs and
 * of the objective `mpc_obj`, the values of the equality constraints `nlp_g`,
 * and feasibility (neural_control/baselines/mpc.py:140-239).
 */
module NlpSemantics {
  import opened QuadConfig
  import opened Vectors
  import opened QuadDynamics
  import opened NlpLayout

  /** X[:, k], read out of a stacked decision vector. */
  function StateOf(w: seq<real>, k: nat): (x: seq<real>)
    requires k * B + S <= |w|
    ensures |x| == S && forall i :: 0 <= i < S ==> x[i] == w[Slot(StateVar(k, i))]
  {
    w[k * B .. k * B + S]
  }

  /** U[:, k], read out of a stacked decision vector. */
  function ControlOf(w: seq<real>, k: nat): (u: seq<real>)
    requires (k + 1) * B <= |w|
    ensures |u| == U && forall j :: 0 <= j < U ==> u[j] == w[Slot(ControlVar(k, j))]
  {
    w[k * B + S .. (k + 1) * B]
  }

  /** `f_cost_goal`. */
  function GoalCost(d: seq<real>): real
    requires |d| == S
  {
    QuadForm(QGoal, d)
  }

  /** `f_cost_gap`. */
  function GapCost(d: seq<real>): real
    requires |d| == S
  {
    QuadForm(QPen, d)
  }

  /** `f_cost_u`. */
  function ControlCost(d: seq<real>): real
    requires |d| == U
  {
    QuadForm(QU, d)
  }

  /** All three cost matrices are positive semi-definite. */
  lemma CostsNonneg(d: seq<real>, e: seq<real>)
    requires |d| == S && |e| == U
    ensures GoalCost(d) >= 0.0 && GapCost(d) >= 0.0 && ControlCost(e) >= 0.0
  {
    QuadFormNonneg(QGoal, d);
    QuadFormNonneg(QPen, d);
    QuadFormNonneg(QU, e);
  }

  /** The goal cost ignores the attitude error (components 3..6). */
  lemma GoalCostIgnoresAttitude(d: seq<real>, e: seq<real>)
    requires |d| == S && |e| == S
    requires forall i :: 0 <= i < S && !(3 <= i < 7) ==> d[i] == e[i]
    ensures GoalCost(d) == GoalCost(e)
  {
    QuadFormIgnoresUnweighted(QGoal, d, e);
  }

  /** The gap cost ignores the x error, the attitude error and the vx error (components 0 and 3..7). */
  lemma GapCostIgnoresXAttitudeVx(d: seq<real>, e: seq<real>)
    requires |d| == S && |e| == S
    requires forall i :: 0 <= i < S && (1 <= i < 3 || 8 <= i) ==> d[i] == e[i]
    ensures GapCost(d) == GapCost(e)
  {
    QuadFormIgnoresUnweighted(QPen, d, e);
  }

  /**
   * The goal cost is zero exactly when position and velocity match the goal,
   * whatever the attitude.
   */
  lemma GoalCostZeroIff(d: seq<real>)
    requires |d| == S
    ensures GoalCost(d) == 0.0 <==> d[..3] == [0.0, 0.0, 0.0] && d[7..] == [0.0, 0.0, 0.0]
  {
    QuadFormZeroIff(QGoal, d);
    if d[..3] == [0.0, 0.0, 0.0] && d[7..] == [0.0, 0.0, 0.0] {
      assert forall i :: 0 <= i < 3 ==> d[i] == d[..3][i];
      assert forall i :: 7 <= i < S ==> d[i] == d[7..][i - 7];
    }
  }

  /** The control cost of U_k - [gz, 0, 0, 0] is zero exactly at the hover command. */
  lemma ControlCostZeroIff(u: seq<real>)
    requires |u| == U
    ensures ControlCost(Sub(u, Hover)) == 0.0 <==> u == Hover
  {
    var d := Sub(u, Hover);
    QuadFormZeroIff(QU, d);
    if ControlCost(d) == 0.0 {
      assert forall j :: 0 <= j < U ==> d[j] == 0.0;
      assert forall j :: 0 <= j < U ==> u[j] == Hover[j];
    }
  }

  /** A stage cost reads only slots that exist in w and P. */
  predicate StageFits(c: StageCost, w: seq<real>, p: seq<real>)
  {
    (c.stage + 1) * B + S <= |w| && c.refLo + S == c.refHi <= |p|
  }

  /** The value of one summand of `mpc_obj`. */
  function StageValue(c: StageCost, w: seq<real>, p: seq<real>): real
    requires StageFits(c, w, p)
  {
    var delta := Sub(StateOf(w, c.stage + 1), p[c.refLo .. c.refHi]);
    (match c.tracking
     case GoalTracking => GoalCost(delta)
     case GapTracking => GapCost(delta))
    + ControlCost(Sub(ControlOf(w, c.stage), Hover))
  }

  /** The value of a running sum of summands, added in list order. */
  function ObjectiveOf(terms: seq<StageCost>, w: seq<real>, p: seq<real>): real
    requires forall c :: c in terms ==> StageFits(c, w, p)
  {
    if terms == [] then 0.0
    else ObjectiveOf(terms[..|terms| - 1], w, p) + StageValue(terms[|terms| - 1], w, p)
  }

  /** Every summand of an n-stage objective fits a decision vector and a P of the right lengths. */
  lemma CostTermsFit(n: nat, w: seq<real>, p: seq<real>)
    requires |w| == WLen(n) && |p| == PLen(n)
    ensures forall c :: c in CostTerms(n, n) ==> StageFits(c, w, p)
  {
    CostTermsLength(n, n);
    forall c | c in CostTerms(n, n) ensures StageFits(c, w, p) {
      var j :| 0 <= j < n && CostTerms(n, n)[j] == c;
      CostTermsAt(n, n, j);
    }
  }

  /** The value of `mpc_obj` at (w, P). */
  function Objective(n: nat, w: seq<real>, p: seq<real>): real
    requires |w| == WLen(n) && |p| == PLen(n)
  {
    CostTermsFit(n, w, p);
    ObjectiveOf(CostTerms(n, n), w, p)
  }

  lemma {:induction false} ObjectiveOfNonneg(terms: seq<StageCost>, w: seq<real>, p: seq<real>)
    requires forall c :: c in terms ==> StageFits(c, w, p)
    ensures ObjectiveOf(terms, w, p) >= 0.0
  {
    if terms != [] {
      var c := terms[|terms| - 1];
      assert c in terms;
      ObjectiveOfNonneg(terms[..|terms| - 1], w, p);
      CostsNonneg(Sub(StateOf(w, c.stage + 1), p[c.refLo .. c.refHi]), Sub(ControlOf(w, c.stage), Hover));
    }
  }

  /** The objective is bounded below by zero. */
  lemma ObjectiveNonneg(n: nat, w: seq<real>, p: seq<real>)
    requires |w| == WLen(n) && |p| == PLen(n)
    ensures Objective(n, w, p) >= 0.0
  {
    CostTermsFit(n, w, p);
    ObjectiveOfNonneg(CostTerms(n, n), w, p);
  }

  /** Two parameter vectors on which every summand agrees give the same objective. */
  lemma {:induction false} ObjectiveOfAgrees(terms: seq<StageCost>, w: seq<real>, p: seq<real>, q: seq<real>)
    requires forall c :: c in terms ==> StageFits(c, w, p) && StageFits(c, w, q)
    requires forall c :: c in terms ==> StageValue(c, w, p) == StageValue(c, w, q)
    ensures ObjectiveOf(terms, w, p) == ObjectiveOf(terms, w, q)
  {
    if terms != [] {
      ObjectiveOfAgrees(terms[..|terms| - 1], w, p, q);
    }
  }

  /** A constraint reads only slots that exist in w and P. */
  predicate ConstraintFits(c: Constraint, w: seq<real>, p: seq<real>)
  {
    match c
    case InitialPin(i) => i < S && S <= |w| && S <= |p|
    case Continuity(k, i) => i < S && (k + 1) * B + S <= |w|
  }

  /** `X[i, 0] - P[i]`, or `X_next[i, k] - X[i, k + 1]` with X_next the integrator applied to (X_k, U_k). */
  function ConstraintValue(f: StepMap, c: Constraint, w: seq<real>, p: seq<real>): real
    requires ConstraintFits(c, w, p)
  {
    match c
    case InitialPin(i) => w[i] - p[i]
    case Continuity(k, i) => f(StateOf(w, k), ControlOf(w, k))[i] - w[(k + 1) * B + i]
  }

  /** Every constraint of an n-stage problem fits a decision vector and a P of the right lengths. */
  lemma ConstraintsFit(n: nat, w: seq<real>, p: seq<real>)
    requires |w| == WLen(n) && |p| == PLen(n)
    ensures forall idx :: 0 <= idx < GLen(n) ==> ConstraintFits(ConstraintList(n)[idx], w, p)
  {
    ConstraintLayout(n);
  }

  /** lbg <= g(w, P) <= ubg for the n-stage problem. */
  predicate ConstraintsHold(f: StepMap, n: nat, w: seq<real>, p: seq<real>)
    requires |w| == WLen(n) && |p| == PLen(n)
  {
    ConstraintsFit(n, w, p);
    ZeroBandIsZeros(n);
    forall idx :: 0 <= idx < GLen(n) ==>
      ZeroBand(n)[idx] <= ConstraintValue(f, ConstraintList(n)[idx], w, p) <= ZeroBand(n)[idx]
  }

  /** X_{k+1} is the integrator applied to (X_k, U_k). */
  predicate StageFollows(f: StepMap, w: seq<real>, k: nat)
    requires (k + 1) * B + S <= |w|
  {
    StateOf(w, k + 1) == f(StateOf(w, k), ControlOf(w, k))
  }

  /** X0 is the current state P[0:s] and every stage follows the integrator. */
  predicate Shooting(f: StepMap, n: nat, w: seq<real>, p: seq<real>)
    requires |w| == WLen(n) && |p| == PLen(n)
  {
    StateOf(w, 0) == p[..S] && forall k :: 0 <= k < n ==> StageFollows(f, w, k)
  }

  /**
   * Multiple shooting: the equality constraints hold exactly when X0 equals
   * the current state P[0:s] and every X_{k+1} is the integrator applied to (X_k, U_k).
   */
  lemma ConstraintsHoldIff(f: StepMap, n: nat, w: seq<real>, p: seq<real>)
    requires |w| == WLen(n) && |p| == PLen(n)
    ensures ConstraintsHold(f, n, w, p) <==> Shooting(f, n, w, p)
  {
    if ConstraintsHold(f, n, w, p) {
      ShootingFromConstraints(f, n, w, p);
    }
    if Shooting(f, n, w, p) {
      ConstraintsFromShooting(f, n, w, p);
    }
  }

  lemma ShootingFromConstraints(f: StepMap, n: nat, w: seq<real>, p: seq<real>)
    requires |w| == WLen(n) && |p| == PLen(n)
    requires ConstraintsHold(f, n, w, p)
    ensures Shooting(f, n, w, p)
  {
    ConstraintsFit(n, w, p);
    ZeroBandIsZeros(n);
    forall i | 0 <= i < S ensures StateOf(w, 0)[i] == p[..S][i] {
      ConstraintListComplete(n, InitialPin(i));
      assert ZeroBand(n)[i] == 0.0;
      assert ConstraintValue(f, ConstraintList(n)[i], w, p) == 0.0;
    }
    forall k | 0 <= k < n ensures StageFollows(f, w, k) {
      forall i | 0 <= i < S ensures StateOf(w, k + 1)[i] == f(StateOf(w, k), ControlOf(w, k))[i] {
        var idx := Row(Continuity(k, i));
        ConstraintListComplete(n, Continuity(k, i));
        assert ZeroBand(n)[idx] == 0.0;
        assert ConstraintValue(f, ConstraintList(n)[idx], w, p) == 0.0;
      }
    }
  }

  lemma ConstraintsFromShooting(f: StepMap, n: nat, w: seq<real>, p: seq<real>)
    requires |w| == WLen(n) && |p| == PLen(n)
    requires Shooting(f, n, w, p)
    ensures ConstraintsHold(f, n, w, p)
  {
    ConstraintsFit(n, w, p);
    ConstraintLayout(n);
    ZeroBandIsZeros(n);
    forall idx | 0 <= idx < GLen(n)
      ensures ZeroBand(n)[idx] <= ConstraintValue(f, ConstraintList(n)[idx], w, p) <= ZeroBand(n)[idx]
    {
      assert ZeroBand(n)[idx] == 0.0;
      match ConstraintList(n)[idx]
      case InitialPin(i) =>
        assert StateOf(w, 0)[i] == p[..S][i];
      case Continuity(k, i) =>
        assert StageFollows(f, w, k);
        assert StateOf(w, k + 1)[i] == f(StateOf(w, k), ControlOf(w, k))[i];
    }
  }

  /** The states reached from x0 by applying the controls stored in w, one stage at a time. */
  function Rollout(f: StepMap, x0: seq<real>, w: seq<real>, k: nat): (x: seq<real>)
    requires |x0| == S && k * B <= |w|
    ensures |x| == S
  {
    if k == 0 then x0 else f(Rollout(f, x0, w, k - 1), ControlOf(w, k - 1))
  }

  /** Every X_k of w is the state reached from P[0:s] by the first k controls of w. */
  predicate FollowsRollout(f: StepMap, n: nat, w: seq<real>, p: seq<real>)
    requires |w| == WLen(n) && |p| == PLen(n)
  {
    forall k :: 0 <= k <= n ==> StateOf(w, k) == Rollout(f, p[..S], w, k)
  }

  /**
   * The equality constraints pin the whole state trajectory: they hold exactly
   * when every X_k is the rollout of the controls from the current state P[0:s].
   */
  lemma ConstraintsHoldIffRollout(f: StepMap, n: nat, w: seq<real>, p: seq<real>)
    requires |w| == WLen(n) && |p| == PLen(n)
    ensures ConstraintsHold(f, n, w, p) <==> FollowsRollout(f, n, w, p)
  {
    ConstraintsHoldIff(f, n, w, p);
    if ConstraintsHold(f, n, w, p) {
      forall k | 0 <= k <= n ensures StateOf(w, k) == Rollout(f, p[..S], w, k) {
        RolloutFromShooting(f, n, w, p[..S], k);
      }
    }
    if FollowsRollout(f, n, w, p) {
      ShootingFromRollout(f, n, w, p);
    }
  }

  lemma ShootingFromRollout(f: StepMap, n: nat, w: seq<real>, p: seq<real>)
    requires |w| == WLen(n) && |p| == PLen(n)
    requires FollowsRollout(f, n, w, p)
    ensures Shooting(f, n, w, p)
  {
    assert StateOf(w, 0) == Rollout(f, p[..S], w, 0);
    forall k | 0 <= k < n ensures StageFollows(f, w, k) {
      assert StateOf(w, k + 1) == Rollout(f, p[..S], w, k + 1);
      assert StateOf(w, k) == Rollout(f, p[..S], w, k);
    }
  }

  /** When X0 is x0 and every stage follows the integrator, X_m is the rollout of the first m controls from x0. */
  lemma {:induction false} RolloutFromShooting(f: StepMap, n: nat, w: seq<real>, x0: seq<real>, m: nat)
    requires |w| == WLen(n) && |x0| == S && m <= n
    requires StateOf(w, 0) == x0 && forall k :: 0 <= k < n ==> StageFollows(f, w, k)
    ensures StateOf(w, m) == Rollout(f, x0, w, m)
  {
    if m > 0 {
      RolloutFromShooting(f, n, w, x0, m - 1);
      assert StageFollows(f, w, m - 1);
      RolloutStep(f, x0, w, m);
    }
  }

  /** A stage that follows the integrator extends a rollout by one state. */
  lemma RolloutStep(f: StepMap, x0: seq<real>, w: seq<real>, m: nat)
    requires |x0| == S && m >= 1 && m * B + S <= |w|
    requires StateOf(w, m - 1) == Rollout(f, x0, w, m - 1) && StageFollows(f, w, m - 1)
    ensures StateOf(w, m) == Rollout(f, x0, w, m)
  {
  }

  /** A decision vector is feasible when it lies in the box and satisfies the equality constraints. */
  predicate Feasible(f: StepMap, n: nat, w: seq<real>, p: seq<real>)
    requires |w| == WLen(n) && |p| == PLen(n)
  {
    WithinBox(LowerBounds(n), UpperBounds(n), w) && ConstraintsHold(f, n, w, p)
  }

  /** Every control of w lies between u_min and u_max. */
  predicate ControlsWithinLimits(n: nat, w: seq<real>)
    requires |w| == WLen(n)
  {
    forall k, j :: 0 <= k < n && 0 <= j < U ==> UMin[j] <= ControlOf(w, k)[j] <= UMax[j]
  }

  /** The box leaves the states free and holds every control between u_min and u_max. */
  lemma WithinBoxIff(n: nat, w: seq<real>)
    requires |w| == WLen(n)
    ensures WithinBox(LowerBounds(n), UpperBounds(n), w) <==> ControlsWithinLimits(n, w)
  {
    if WithinBox(LowerBounds(n), UpperBounds(n), w) {
      LimitsFromBox(n, w);
    }
    if ControlsWithinLimits(n, w) {
      BoxFromLimits(n, w);
    }
  }

  lemma LimitsFromBox(n: nat, w: seq<real>)
    requires |w| == WLen(n) && WithinBox(LowerBounds(n), UpperBounds(n), w)
    ensures ControlsWithinLimits(n, w)
  {
    forall k, j | 0 <= k < n && 0 <= j < U ensures UMin[j] <= ControlOf(w, k)[j] <= UMax[j] {
      var idx := Slot(ControlVar(k, j));
      SlotBounds(n, ControlVar(k, j));
      assert LowerOk(LowerBounds(n)[idx], w[idx]) && UpperOk(UpperBounds(n)[idx], w[idx]);
    }
  }

  lemma BoxFromLimits(n: nat, w: seq<real>)
    requires |w| == WLen(n) && ControlsWithinLimits(n, w)
    ensures WithinBox(LowerBounds(n), UpperBounds(n), w)
  {
    DecisionVarsLayout(n);
    StackedLength(XMin(), Finites(UMin), n);
    StackedLength(XMax(), Finites(UMax), n);
    forall idx | 0 <= idx < WLen(n)
      ensures LowerOk(LowerBounds(n)[idx], w[idx]) && UpperOk(UpperBounds(n)[idx], w[idx])
    {
      var v := DecisionVars(n)[idx];
      SlotBounds(n, v);
      if v.ControlVar? {
        assert ControlOf(w, v.stage)[v.comp] == w[idx];
      }
    }
  }

  /**
   * With the current state at the initial guess's state, the initial guess
   * is feasible: the hover point is a fixed point of the integrator.
   */
  lemma InitialGuessFeasible(dt: real, n: nat, p: seq<real>)
    requires |p| == PLen(n) && p[..S] == QuadS0
    ensures |InitialGuess(n)| == WLen(n)
    ensures Feasible(Integrator(dt), n, InitialGuess(n), p)
  {
    var w := InitialGuess(n);
    InitialGuessWithinBounds(n);
    InitialGuessStages(n);
    InitialGuessIsFixedPoint(dt);
    assert Integrator(dt)(QuadS0, QuadU0) == QuadS0;
    ConstraintsHoldIff(Integrator(dt), n, w, p);
  }

  /** Every stage of the initial guess is (`_quad_s0`, `_quad_u0`). */
  lemma InitialGuessStages(n: nat)
    ensures |InitialGuess(n)| == WLen(n)
    ensures forall k :: 0 <= k <= n ==> StateOf(InitialGuess(n), k) == QuadS0
    ensures forall k :: 0 <= k < n ==> ControlOf(InitialGuess(n), k) == QuadU0
  {
    var w := InitialGuess(n);
    StackedLength(QuadS0, QuadU0, n);
    forall k | 0 <= k <= n ensures StateOf(w, k) == QuadS0 {
      forall i | 0 <= i < S ensures StateOf(w, k)[i] == QuadS0[i] {
        StackedAtSlot(QuadS0, QuadU0, n, StateVar(k, i));
      }
    }
    forall k | 0 <= k < n ensures ControlOf(w, k) == QuadU0 {
      forall j | 0 <= j < U ensures ControlOf(w, k)[j] == QuadU0[j] {
        StackedAtSlot(QuadS0, QuadU0, n, ControlVar(k, j));
      }
    }
  }
}
