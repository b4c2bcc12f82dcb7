/**
 * The `MPC` object of neural_control/baselines/mpc.py for the `high_mpc`
 * model: the lists that `_initDynamics` fills while it builds the nonlinear
 * program, and `solve`, which calls the solver, stores its answer and
 * overwrites the warm start.
 */
module MpcController {
  import opened QuadConfig
  import opened Vectors
  import opened NlpLayout
  import opened QuadDynamics
  import opened NlpSemantics
  import opened MpcSolve

  datatype Option<T> = None | Some(value: T)

  /** The arguments of one call `self.solver(x0=..., lbx=..., ubx=..., p=..., lbg=..., ubg=...)`. */
  datatype NlpCall = NlpCall(
    x0: seq<real>, lbx: seq<Bound>, ubx: seq<Bound>, p: seq<real>, lbg: seq<real>, ubg: seq<real>)

  class Mpc {
    /** `_N`: the number of shooting stages. */
    const n: nat
    /** `_dt`: the control period the integrator covers. */
    const dt: real

    /** `nlp_w`, the symbolic decision variables in stacking order. */
    var nlpW: seq<Var>
    /** `nlp_w0`, the initial guess handed to the next solve. */
    var nlpW0: seq<real>
    var lbw: seq<Bound>
    var ubw: seq<Bound>
    /** `mpc_obj`, as the list of its summands. */
    var mpcObj: seq<StageCost>
    /** `nlp_g`, the equality constraints in stacking order. */
    var nlpG: seq<Constraint>
    var lbg: seq<real>
    var ubg: seq<real>
    /** `sol`, the solution of the latest solve; absent before the first one. */
    var sol: Option<seq<real>>

    /** The problem lists have the layout `_initDynamics` gives them, and the guess fits the decision vector. */
    ghost predicate Valid()
      reads this
    {
      nlpW == DecisionVars(n) && lbw == LowerBounds(n) && ubw == UpperBounds(n) &&
      mpcObj == CostTerms(n, n) &&
      nlpG == ConstraintList(n) && lbg == ZeroBand(n) && ubg == ZeroBand(n) &&
      |nlpW0| == WLen(n)
    }

    /** `MPC(T, dt)` with `int(T / dt)` already evaluated to n. */
    constructor (dt: real, n: nat)
      ensures this.dt == dt && this.n == n
      ensures Valid() && nlpW0 == InitialGuess(n) && sol == None
    {
      this.dt := dt;
      this.n := n;
      sol := None;
      new;
      InitDynamics();
    }

    /** `_initDynamics`: rebuilds every problem list, one stage per iteration. */
    method InitDynamics()
      modifies this
      ensures Valid() && nlpW0 == InitialGuess(n) && sol == old(sol)
    {
      nlpW := StateVars(0);
      nlpW0 := QuadS0;
      lbw := XMin();
      ubw := XMax();
      mpcObj := [];
      nlpG := PinBlock();
      lbg := Zeros(S);
      ubg := Zeros(S);
      ZeroBandIsZeros(0);
      for k := 0 to n
        invariant nlpW == DecisionVars(k) && nlpW0 == InitialGuess(k)
        invariant lbw == LowerBounds(k) && ubw == UpperBounds(k)
        invariant mpcObj == CostTerms(n, k)
        invariant nlpG == ConstraintList(k) && lbg == ZeroBand(k) && ubg == ZeroBand(k)
        invariant sol == old(sol)
      {
        nlpW := nlpW + ControlVars(k);
        nlpW0 := nlpW0 + QuadU0;
        lbw := lbw + Finites(UMin);
        ubw := ubw + Finites(UMax);
        mpcObj := mpcObj + [StageTerm(n, k)];
        nlpW := nlpW + StateVars(k + 1);
        nlpW0 := nlpW0 + QuadS0;
        lbw := lbw + XMin();
        ubw := ubw + XMax();
        nlpG := nlpG + ContinuityBlock(k);
        lbg := lbg + Zeros(S);
        ubg := ubg + Zeros(S);
      }
      StackedLength(QuadS0, QuadU0, n);
    }

    /**
     * Before the first solve, the stored guess is feasible for the problem the
     * object builds: inside its box and on its band for F = `Integrator(dt)`,
     * whenever the current state handed in P is `_quad_s0`.
     */
    lemma GuessFeasibleBeforeSolve(p: seq<real>)
      requires Valid() && nlpW0 == InitialGuess(n)
      requires |p| == PLen(n) && p[..S] == QuadS0
      ensures |nlpW0| == WLen(n)
      ensures WithinBox(lbw, ubw, nlpW0)
      ensures ConstraintsHold(Integrator(dt), n, nlpW0, p)
    {
      InitialGuessFeasible(dt, n, p);
    }

    /**
     * `solve(ref_states)`: preprocess the reference, call the solver on the
     * stored guess, bounds and band, store the answer, and return the first
     * control and the predicted trajectory. The solver's status is not
     * consulted: the warm start is overwritten whatever the solver returned.
     */
    method Solve(ref: seq<real>, solver: NlpCall -> seq<real>) returns (optU: seq<real>, traj: seq<seq<real>>)
      requires Valid() && n == RefRows && |ref| == RefLen
      requires forall c :: |solver(c)| == WLen(n)
      modifies this
      ensures Valid()
      ensures var x := solver(NlpCall(old(nlpW0), lbw, ubw, ZeroedRef(ref), lbg, ubg));
        sol == Some(x) && optU == FirstControl(x) && traj == Trajectory(n, x) && nlpW0 == WarmStart(x)
      ensures nlpW == old(nlpW) && lbw == old(lbw) && ubw == old(ubw) && mpcObj == old(mpcObj)
      ensures nlpG == old(nlpG) && lbg == old(lbg) && ubg == old(ubg)
    {
      var p := PreprocessRef(ref);
      var x := solver(NlpCall(nlpW0, lbw, ubw, p, lbg, ubg));
      sol := Some(x);
      optU := FirstControl(x);
      nlpW0 := WarmStart(x);
      WarmStartShape(x);
      traj := Trajectory(n, x);
    }
  }
}
