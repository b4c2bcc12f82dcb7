/**
 * The layout of the nonlinear program that `MPC._initDynamics` assembles
 * (neural_control/baselines/mpc.py:158-239): which symbolic variable sits in
 * each slot of the stacked decision vector, the initial guess and the box
 * bounds per slot, the order of the equality constraints, and the slice of
 * the parameter vector P that each stage cost reads.
 */
module NlpLayout {
  import opened QuadConfig
  import opened Vectors

  /** Length of the decision vector [X0, U0, X1, U1, ..., U_{n-1}, X_n]. */
  function WLen(n: nat): nat { S + n * B }
  /** Number of equality constraints: one block of S per pinned or continued state. */
  function GLen(n: nat): nat { (n + 1) * S }
  /** Length of P: current state, n reference rows of width S + 3, goal state. */
  function PLen(n: nat): nat { S + RowWidth * n + S }

  /** A symbolic decision variable: component `comp` of X[:, stage] or of U[:, stage]. */
  datatype Var = StateVar(stage: nat, comp: nat) | ControlVar(stage: nat, comp: nat)

  /** Whether a variable exists for horizon n (states 0..n, controls 0..n-1). */
  predicate InHorizon(n: nat, v: Var)
  {
    match v
    case StateVar(k, i) => k <= n && i < S
    case ControlVar(k, j) => k < n && j < U
  }

  /** Where a variable sits in the stacked decision vector. */
  function Slot(v: Var): nat
  {
    match v
    case StateVar(k, i) => k * B + i
    case ControlVar(k, j) => k * B + S + j
  }

  function StateVars(k: nat): (vs: seq<Var>)
    ensures |vs| == S && forall i :: 0 <= i < S ==> vs[i] == StateVar(k, i)
  {
    seq(S, i requires 0 <= i < S => StateVar(k, i))
  }

  function ControlVars(k: nat): (vs: seq<Var>)
    ensures |vs| == U && forall j :: 0 <= j < U ==> vs[j] == ControlVar(k, j)
  {
    seq(U, j requires 0 <= j < U => ControlVar(k, j))
  }

  /** `vertcat(*nlp_w)` after the first n stages have been appended. */
  function DecisionVars(n: nat): (vs: seq<Var>)
    ensures |vs| == WLen(n)
  {
    if n == 0 then StateVars(0) else DecisionVars(n - 1) + ControlVars(n - 1) + StateVars(n)
  }

  /**
   * The decision vector lists every variable of the horizon once, each at its
   * slot: slot k*B + i holds X[i, k] and slot k*B + S + j holds U[j, k].
   */
  lemma {:induction false} DecisionVarsLayout(n: nat)
    ensures |DecisionVars(n)| == WLen(n)
    ensures forall idx :: 0 <= idx < WLen(n) ==>
      InHorizon(n, DecisionVars(n)[idx]) && Slot(DecisionVars(n)[idx]) == idx
  {
    if n > 0 {
      DecisionVarsLayout(n - 1);
      var prev := DecisionVars(n - 1);
      assert DecisionVars(n) == prev + ControlVars(n - 1) + StateVars(n);
      forall idx | 0 <= idx < WLen(n)
        ensures InHorizon(n, DecisionVars(n)[idx]) && Slot(DecisionVars(n)[idx]) == idx
      {
        if idx < WLen(n - 1) {
          assert DecisionVars(n)[idx] == prev[idx];
        } else if idx < WLen(n - 1) + U {
          assert DecisionVars(n)[idx] == ControlVar(n - 1, idx - WLen(n - 1));
        } else {
          assert DecisionVars(n)[idx] == StateVar(n, idx - WLen(n - 1) - U);
        }
      }
    }
  }

  /** Conversely, every variable of the horizon is found at its slot. */
  lemma DecisionVarsComplete(n: nat, v: Var)
    requires InHorizon(n, v)
    ensures Slot(v) < WLen(n) && DecisionVars(n)[Slot(v)] == v
  {
    DecisionVarsLayout(n);
    var w := DecisionVars(n)[Slot(v)];
    assert InHorizon(n, w) && Slot(w) == Slot(v);
  }

  /** A box bound; the state bounds are CasADi's infinities. */
  datatype Bound = NegInf | PosInf | Finite(value: real)

  /** b <= x. */
  predicate LowerOk(b: Bound, x: real)
  {
    match b
    case NegInf => true
    case PosInf => false
    case Finite(v) => v <= x
  }

  /** x <= b. */
  predicate UpperOk(b: Bound, x: real)
  {
    match b
    case NegInf => false
    case PosInf => true
    case Finite(v) => x <= v
  }

  function Finites(s: seq<real>): (bs: seq<Bound>)
    ensures |bs| == |s| && forall i :: 0 <= i < |s| ==> bs[i] == Finite(s[i])
  {
    seq(|s|, i requires 0 <= i < |s| => Finite(s[i]))
  }

  /** `x_min`: every state component is unbounded below. */
  function XMin(): (bs: seq<Bound>)
    ensures |bs| == S && forall i :: 0 <= i < S ==> bs[i] == NegInf
  {
    seq(S, _ => NegInf)
  }

  /** `x_max`: every state component is unbounded above. */
  function XMax(): (bs: seq<Bound>)
    ensures |bs| == S && forall i :: 0 <= i < S ==> bs[i] == PosInf
  {
    seq(S, _ => PosInf)
  }

  /**
   * x, then n copies of u ++ x: the shape of every per-slot list that is
   * extended with a state block, then one control block plus one state block per stage.
   */
  function Stacked<T>(x: seq<T>, u: seq<T>, n: nat): seq<T>
  {
    if n == 0 then x else Stacked(x, u, n - 1) + u + x
  }

  /** The entry of a per-slot list that belongs to variable v. */
  function Pick<T>(x: seq<T>, u: seq<T>, v: Var): T
    requires |x| == S && |u| == U && v.comp < (if v.StateVar? then S else U)
  {
    match v
    case StateVar(_, i) => x[i]
    case ControlVar(_, j) => u[j]
  }

  /** A stacked list holds, at the slot of each variable, the entry for that variable's kind. */
  lemma {:induction false} StackedAtSlot<T>(x: seq<T>, u: seq<T>, n: nat, v: Var)
    requires |x| == S && |u| == U && InHorizon(n, v)
    ensures |Stacked(x, u, n)| == WLen(n)
    ensures Stacked(x, u, n)[Slot(v)] == Pick(x, u, v)
  {
    if n > 0 {
      var prev := Stacked(x, u, n - 1);
      StackedLength(x, u, n - 1);
      assert Stacked(x, u, n) == prev + u + x;
      if v.stage < n - 1 || (v.StateVar? && v.stage == n - 1) {
        StackedAtSlot(x, u, n - 1, v);
      }
    } else {
      StackedLength(x, u, n);
    }
  }

  lemma {:induction false} StackedLength<T>(x: seq<T>, u: seq<T>, n: nat)
    requires |x| == S && |u| == U
    ensures |Stacked(x, u, n)| == WLen(n)
  {
    if n > 0 {
      StackedLength(x, u, n - 1);
    }
  }

  /** Initial guess `nlp_w0`: `_quad_s0` for every state, `_quad_u0` for every control. */
  function InitialGuess(n: nat): seq<real> { Stacked(QuadS0, QuadU0, n) }
  /** `lbw`: minus infinity on state slots, `u_min` on control slots. */
  function LowerBounds(n: nat): seq<Bound> { Stacked(XMin(), Finites(UMin), n) }
  /** `ubw`: plus infinity on state slots, `u_max` on control slots. */
  function UpperBounds(n: nat): seq<Bound> { Stacked(XMax(), Finites(UMax), n) }

  /** The bounds of each slot: free states, boxed controls. */
  lemma SlotBounds(n: nat, v: Var)
    requires InHorizon(n, v)
    ensures |LowerBounds(n)| == |UpperBounds(n)| == WLen(n)
    ensures v.StateVar? ==> LowerBounds(n)[Slot(v)] == NegInf && UpperBounds(n)[Slot(v)] == PosInf
    ensures v.ControlVar? ==>
      LowerBounds(n)[Slot(v)] == Finite(UMin[v.comp]) && UpperBounds(n)[Slot(v)] == Finite(UMax[v.comp])
  {
    StackedAtSlot(XMin(), Finites(UMin), n, v);
    StackedAtSlot(XMax(), Finites(UMax), n, v);
  }

  /** lbx <= w <= ubx, slot by slot. */
  predicate WithinBox(lb: seq<Bound>, ub: seq<Bound>, w: seq<real>)
  {
    |lb| == |w| && |ub| == |w| &&
    forall idx :: 0 <= idx < |w| ==> LowerOk(lb[idx], w[idx]) && UpperOk(ub[idx], w[idx])
  }

  /** The initial guess lies inside the box slot by slot, so the first solve starts feasible for the bounds. */
  lemma InitialGuessWithinBounds(n: nat)
    ensures |InitialGuess(n)| == WLen(n)
    ensures WithinBox(LowerBounds(n), UpperBounds(n), InitialGuess(n))
  {
    StackedLength(QuadS0, QuadU0, n);
    StackedLength(XMin(), Finites(UMin), n);
    StackedLength(XMax(), Finites(UMax), n);
    DecisionVarsLayout(n);
    forall idx | 0 <= idx < WLen(n)
      ensures LowerOk(LowerBounds(n)[idx], InitialGuess(n)[idx]) && UpperOk(UpperBounds(n)[idx], InitialGuess(n)[idx])
    {
      var v := DecisionVars(n)[idx];
      SlotBounds(n, v);
      StackedAtSlot(QuadS0, QuadU0, n, v);
    }
  }

  /** An equality constraint: `X[i, 0] - P[i]`, or `X_next[i, k] - X[i, k+1]`. */
  datatype Constraint = InitialPin(comp: nat) | Continuity(stage: nat, comp: nat)

  function PinBlock(): (cs: seq<Constraint>)
    ensures |cs| == S && forall i :: 0 <= i < S ==> cs[i] == InitialPin(i)
  {
    seq(S, i requires 0 <= i < S => InitialPin(i))
  }

  function ContinuityBlock(k: nat): (cs: seq<Constraint>)
    ensures |cs| == S && forall i :: 0 <= i < S ==> cs[i] == Continuity(k, i)
  {
    seq(S, i requires 0 <= i < S => Continuity(k, i))
  }

  /** Whether a constraint exists for horizon n. */
  predicate ConstraintInHorizon(n: nat, c: Constraint)
  {
    match c
    case InitialPin(i) => i < S
    case Continuity(k, i) => k < n && i < S
  }

  /** Where a constraint sits in `vertcat(*nlp_g)`: block 0 pins X0, block k + 1 links stage k to stage k + 1. */
  function Row(c: Constraint): nat
  {
    match c
    case InitialPin(i) => i
    case Continuity(k, i) => (k + 1) * S + i
  }

  /** `vertcat(*nlp_g)` after n stages. */
  function ConstraintList(n: nat): (cs: seq<Constraint>)
    ensures |cs| == GLen(n)
  {
    if n == 0 then PinBlock() else ConstraintList(n - 1) + ContinuityBlock(n - 1)
  }

  /** n + 1 blocks of S, each constraint of the horizon at its row. */
  lemma {:induction false} ConstraintLayout(n: nat)
    ensures forall idx :: 0 <= idx < GLen(n) ==>
      ConstraintInHorizon(n, ConstraintList(n)[idx]) && Row(ConstraintList(n)[idx]) == idx
  {
    if n > 0 {
      ConstraintLayout(n - 1);
      var prev := ConstraintList(n - 1);
      assert ConstraintList(n) == prev + ContinuityBlock(n - 1);
      forall idx | 0 <= idx < GLen(n)
        ensures ConstraintInHorizon(n, ConstraintList(n)[idx]) && Row(ConstraintList(n)[idx]) == idx
      {
        if idx < GLen(n - 1) {
          assert ConstraintList(n)[idx] == prev[idx];
        } else {
          assert ConstraintList(n)[idx] == Continuity(n - 1, idx - GLen(n - 1));
        }
      }
    }
  }

  /** Conversely, every constraint of the horizon is found at its row. */
  lemma ConstraintListComplete(n: nat, c: Constraint)
    requires ConstraintInHorizon(n, c)
    ensures Row(c) < GLen(n) && ConstraintList(n)[Row(c)] == c
  {
    ConstraintLayout(n);
    var d := ConstraintList(n)[Row(c)];
    assert ConstraintInHorizon(n, d) && Row(d) == Row(c);
  }

  /** n copies of a block, one appended per iteration. */
  function Repeat<T>(block: seq<T>, n: nat): seq<T>
  {
    if n == 0 then [] else Repeat(block, n - 1) + block
  }

  /** `lbg` and `ubg`: one block of S zeros for each constraint block. */
  function ZeroBand(n: nat): seq<real> { Repeat(Zeros(S), n + 1) }

  /** The constraint band is all zeros and matches the constraint list in length. */
  lemma {:induction false} ZeroBandIsZeros(n: nat)
    ensures ZeroBand(n) == Zeros(GLen(n))
  {
    RepeatZeros(n + 1);
  }

  lemma {:induction false} RepeatZeros(m: nat)
    ensures Repeat(Zeros(S), m) == Zeros(m * S)
  {
    if m > 0 {
      RepeatZeros(m - 1);
      assert Repeat(Zeros(S), m) == Zeros((m - 1) * S) + Zeros(S);
    }
  }

  /** Which diagonal weight a stage's state-tracking term uses. */
  datatype Tracking = GoalTracking | GapTracking

  /**
   * One summand of `mpc_obj`: the tracking cost of X[:, stage + 1] against
   * P[refLo .. refHi], plus the control cost of U[:, stage].
   */
  datatype StageCost = StageCost(stage: nat, tracking: Tracking, refLo: nat, refHi: nat)

  /** The first index of reference row k in P. */
  function RowStart(k: nat): nat { S + RowWidth * k }

  /** The summand added for stage k of an n-stage horizon. */
  function StageTerm(n: nat, k: nat): (c: StageCost)
    requires k < n
    ensures c.stage == k
    ensures c.tracking == GoalTracking <==> k == n - 1
    ensures c.refHi - c.refLo == S && c.refHi <= PLen(n)
    ensures c.tracking == GapTracking ==> RowStart(k) == c.refLo && c.refHi + 3 == RowStart(k + 1)
    ensures c.tracking == GoalTracking ==> c.refLo == RowStart(n) && c.refHi == PLen(n)
  {
    if k >= n - 1 then StageCost(k, GoalTracking, S + RowWidth * n, PLen(n))
    else StageCost(k, GapTracking, S + RowWidth * k, S + RowWidth * (k + 1) - 3)
  }

  /**
   * The slices read by two different stages do not overlap; a gap slice lies
   * inside the reference window [S, S + (S + 3) n) and the goal slice after it.
   */
  lemma StageSlicesDisjoint(n: nat, k1: nat, k2: nat)
    requires k1 < k2 < n
    ensures StageTerm(n, k1).refHi <= StageTerm(n, k2).refLo
    ensures S <= StageTerm(n, k1).refLo && StageTerm(n, k1).refHi <= RowStart(n)
  {
  }

  /** `mpc_obj` as the list of its summands after the first k stages. */
  function CostTerms(n: nat, k: nat): seq<StageCost>
    requires k <= n
  {
    if k == 0 then [] else CostTerms(n, k - 1) + [StageTerm(n, k - 1)]
  }

  /** The objective has one summand per stage, in stage order. */
  lemma {:induction false} CostTermsAt(n: nat, k: nat, j: nat)
    requires j < k <= n
    ensures |CostTerms(n, k)| == k && CostTerms(n, k)[j] == StageTerm(n, j)
  {
    CostTermsLength(n, k - 1);
    if j < k - 1 {
      CostTermsAt(n, k - 1, j);
    }
  }

  lemma {:induction false} CostTermsLength(n: nat, k: nat)
    requires k <= n
    ensures |CostTerms(n, k)| == k
  {
    if k > 0 {
      CostTermsLength(n, k - 1);
    }
  }
}
