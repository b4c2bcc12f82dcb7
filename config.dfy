/**
 * Constants of the `high_mpc` quadrotor controller, as fixed by the
 * constructor of `MPC` (neural_control/baselines/mpc.py:51-119).
 *
 * State (S = 10): px, py, pz, qw, qx, qy, qz, vx, vy, vz.
 * Control (U = 4): collective thrust, body rates wx, wy, wz.
 */
module QuadConfig {

  /** State dimension of the quaternion model. */
  const S: nat := 10
  /** Control dimension: thrust plus three body rates. */
  const U: nat := 4
  /** Width of one stage (X_k, U_k) in the stacked decision vector. */
  const B: nat := S + U
  /** Width of one row of the parameter vector's reference window. */
  const RowWidth: nat := S + 3

  /** Gravity along world z. */
  const Gz: real := 9.81

  const WMaxYaw: real := 6.0
  const WMinYaw: real := -6.0
  const WMaxXy: real := 6.0
  const WMinXy: real := -6.0
  const ThrustMin: real := 2.0
  const ThrustMax: real := 20.0

  /** Diagonal of the goal-tracking weight matrix. */
  const QGoal: seq<real> := [100.0, 100.0, 100.0, 0.0, 0.0, 0.0, 0.0, 10.0, 10.0, 10.0]
  /** Diagonal of the weight matrix that tracks the moving gap. */
  const QPen: seq<real> := [0.0, 100.0, 100.0, 0.0, 0.0, 0.0, 0.0, 0.0, 10.0, 10.0]
  /** Diagonal of the control-effort weight matrix. */
  const QU: seq<real> := [0.1, 0.1, 0.1, 0.1]

  /** Static initial guess for every state slot: position (1, 0, 0), identity attitude, at rest. */
  const QuadS0: seq<real> := [1.0, 0.0, 0.0, 1.0, 0.0, 0.0, 0.0, 0.0, 0.0, 0.0]
  /** Static initial guess for every control slot: hover thrust, no rotation. */
  const QuadU0: seq<real> := [9.81, 0.0, 0.0, 0.0]
  /** The control the effort cost is measured from: [gz, 0, 0, 0]. */
  const Hover: seq<real> := [Gz, 0.0, 0.0, 0.0]

  /** Box limits of one control vector. */
  const UMin: seq<real> := [ThrustMin, WMinXy, WMinXy, WMinYaw]
  const UMax: seq<real> := [ThrustMax, WMaxXy, WMaxXy, WMaxYaw]

  /** Number of interior reference rows the `high_mpc` preprocessing reshapes to. */
  const RefRows: nat := 10
  /** The only reference length the `high_mpc` preprocessing accepts. */
  const RefLen: nat := 2 * S + RefRows * RowWidth
}
