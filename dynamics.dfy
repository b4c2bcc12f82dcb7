/**
 * Continuous quadrotor dynamics of the `high_mpc` model and the fixed-step
 * Runge-Kutta map built from it (neural_control/baselines/mpc.py:308-369).
 * The symbolic CasADi expressions become exact real arithmetic.
 */
module QuadDynamics {
  import opened QuadConfig
  import opened Vectors

  /** Number of RK4 refinement sub-steps per control period. */
  const M: nat := 4

  /**
   * x_dot = f(x, u): position moves with velocity, the quaternion follows
   * q_dot = 0.5 * q (x) [0, w], and thrust acts along the body z axis against gravity.
   */
  function XDot(x: seq<real>, u: seq<real>): (dx: seq<real>)
    requires |x| == S && |u| == U
    ensures |dx| == S
  {
    var qw, qx, qy, qz := x[3], x[4], x[5], x[6];
    var thrust, wx, wy, wz := u[0], u[1], u[2], u[3];
    [ x[7], x[8], x[9],
      0.5 * (-wx * qx - wy * qy - wz * qz),
      0.5 * (wx * qw + wz * qy - wy * qz),
      0.5 * (wy * qw - wz * qx + wx * qz),
      0.5 * (wz * qw + wy * qx - wx * qy),
      2.0 * (qw * qy + qx * qz) * thrust,
      2.0 * (qy * qz - qw * qx) * thrust,
      (qw * qw - qx * qx - qy * qy + qz * qz) * thrust - Gz ]
  }

  /** One classical RK4 step of length h with the control held constant. */
  function Rk4Step(h: real, x: seq<real>, u: seq<real>): (r: seq<real>)
    requires |x| == S && |u| == U
    ensures |r| == S
  {
    var k1 := Scale(h, XDot(x, u));
    var k2 := Scale(h, XDot(Add(x, Scale(0.5, k1)), u));
    var k3 := Scale(h, XDot(Add(x, Scale(0.5, k2)), u));
    var k4 := Scale(h, XDot(Add(x, k3), u));
    seq(S, i requires 0 <= i < S => x[i] + (k1[i] + 2.0 * k2[i] + 2.0 * k3[i] + k4[i]) / 6.0)
  }

  /**
   * One sub-step as a map on vectors; vectors that are not states (which the
   * model never produces) are left alone so that the map is total.
   */
  function SubstepMap(h: real, u: seq<real>): seq<real> -> seq<real>
    requires |u| == U
  {
    y => if |y| == S then Rk4Step(h, y, u) else y
  }

  /** The m-fold application of a map. */
  function Iterate(f: seq<real> -> seq<real>, x: seq<real>, m: nat): seq<real>
  {
    if m == 0 then x else f(Iterate(f, x, m - 1))
  }

  /** The discrete transition F(x, u): M RK4 sub-steps of length dt / M. */
  function Transition(dt: real, x: seq<real>, u: seq<real>): (r: seq<real>)
    requires |x| == S && |u| == U
    ensures |r| == S
  {
    IterateKeepsStates(dt / M as real, x, u, M);
    Iterate(SubstepMap(dt / M as real, u), x, M)
  }

  lemma {:induction false} IterateKeepsStates(h: real, x: seq<real>, u: seq<real>, m: nat)
    requires |x| == S && |u| == U
    ensures |Iterate(SubstepMap(h, u), x, m)| == S
  {
    if m > 0 {
      IterateKeepsStates(h, x, u, m - 1);
      var y := Iterate(SubstepMap(h, u), x, m - 1);
      assert SubstepMap(h, u)(y) == Rk4Step(h, y, u);
    }
  }

  /** A discrete integrator: a map that takes every (state, control) pair to a state. */
  type StepMap = f: (seq<real>, seq<real>) -> seq<real> | forall x, u :: |x| == S && |u| == U ==> |f(x, u)| == S
    witness (x: seq<real>, u: seq<real>) => x

  /** `F = drone_dynamics_high_mpc(dt)` as a map: the transition on every (state, control) pair. */
  function Integrator(dt: real): (f: StepMap)
    ensures forall x, u :: |x| == S && |u| == U ==> f(x, u) == Transition(dt, x, u)
  {
    (x: seq<real>, u: seq<real>) => if |x| == S && |u| == U then Transition(dt, x, u) else x
  }

  /** `drone_dynamics_high_mpc`: the refinement loop, evaluated at one (x, u). */
  method DroneDynamics(dt: real, x0: seq<real>, u: seq<real>) returns (x: seq<real>)
    requires |x0| == S && |u| == U
    ensures |x| == S
    ensures x == Transition(dt, x0, u)
  {
    var h := dt / M as real;
    x := x0;
    for i := 0 to M
      invariant |x| == S
      invariant x == Iterate(SubstepMap(h, u), x0, i)
    {
      x := Rk4Step(h, x, u);
    }
  }

  /** The position derivative is the velocity. */
  lemma PositionFollowsVelocity(x: seq<real>, u: seq<real>)
    requires |x| == S && |u| == U
    ensures XDot(x, u)[..3] == x[7..]
  {
  }

  /** The quaternion derivative is orthogonal to the quaternion, so |q| is conserved by the flow. */
  lemma QuaternionRateOrthogonal(x: seq<real>, u: seq<real>)
    requires |x| == S && |u| == U
    ensures var dx := XDot(x, u);
      x[3] * dx[3] + x[4] * dx[4] + x[5] * dx[5] + x[6] * dx[6] == 0.0
  {
  }

  /** Identity attitude, zero velocity and hover thrust give a zero derivative, wherever the vehicle is. */
  lemma HoverIsEquilibrium(x: seq<real>)
    requires |x| == S
    requires x[3..7] == [1.0, 0.0, 0.0, 0.0] && x[7..] == [0.0, 0.0, 0.0]
    ensures XDot(x, QuadU0) == Zeros(S)
  {
  }

  /**
   * On a unit quaternion the vertical acceleration XDot[9] equals the
   * alternative form (1 - 2 qx^2 - 2 qy^2) * thrust - gz left as a comment beside it.
   */
  lemma VerticalThrustFactorUnitForm(x: seq<real>, u: seq<real>)
    requires |x| == S && |u| == U
    requires x[3] * x[3] + x[4] * x[4] + x[5] * x[5] + x[6] * x[6] == 1.0
    ensures XDot(x, u)[9] == (1.0 - 2.0 * x[4] * x[4] - 2.0 * x[5] * x[5]) * u[0] - Gz
  {
  }

  /** An RK4 step leaves a point where f vanishes unchanged. */
  lemma Rk4StepFixesEquilibrium(h: real, x: seq<real>, u: seq<real>)
    requires |x| == S && |u| == U
    requires XDot(x, u) == Zeros(S)
    ensures Rk4Step(h, x, u) == x
  {
    var k1 := Scale(h, XDot(x, u));
    assert k1 == Zeros(S);
    assert Add(x, Scale(0.5, k1)) == x;
    var k2 := Scale(h, XDot(Add(x, Scale(0.5, k1)), u));
    assert k2 == Zeros(S);
    assert Add(x, Scale(0.5, k2)) == x;
    var k3 := Scale(h, XDot(Add(x, Scale(0.5, k2)), u));
    assert k3 == Zeros(S);
    assert Add(x, k3) == x;
  }

  /** Iterating a map from one of its fixed points stays there. */
  lemma {:induction false} IterateFixedPoint(f: seq<real> -> seq<real>, x: seq<real>, m: nat)
    requires f(x) == x
    ensures Iterate(f, x, m) == x
  {
    if m > 0 {
      IterateFixedPoint(f, x, m - 1);
    }
  }

  /** The discrete transition F returns X unchanged wherever f(X, U) = 0. */
  lemma TransitionFixesEquilibrium(dt: real, x: seq<real>, u: seq<real>)
    requires |x| == S && |u| == U
    requires XDot(x, u) == Zeros(S)
    ensures Transition(dt, x, u) == x
  {
    var h := dt / M as real;
    Rk4StepFixesEquilibrium(h, x, u);
    IterateFixedPoint(SubstepMap(h, u), x, M);
  }

  /** The map F handed to the problem returns X unchanged wherever f(X, U) = 0, for every dt. */
  lemma IntegratorFixesEquilibria(dt: real)
    ensures forall x, u :: |x| == S && |u| == U && XDot(x, u) == Zeros(S) ==> Integrator(dt)(x, u) == x
  {
    forall x, u | |x| == S && |u| == U && XDot(x, u) == Zeros(S)
      ensures Integrator(dt)(x, u) == x
    {
      TransitionFixesEquilibrium(dt, x, u);
    }
  }

  /** The static initial guess (`_quad_s0`, `_quad_u0`) is a fixed point of F for every step size. */
  lemma InitialGuessIsFixedPoint(dt: real)
    ensures Transition(dt, QuadS0, QuadU0) == QuadS0
  {
    HoverIsEquilibrium(QuadS0);
    TransitionFixesEquilibrium(dt, QuadS0, QuadU0);
  }
}
