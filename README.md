# Quadrotor NMPC bookkeeping and discounted returns

This project models the `high_mpc` nonlinear model-predictive controller of
`neural_control/baselines/mpc.py`. That controller drives a quadrotor with a
10-dimensional state (position, unit quaternion, velocity) and a
4-dimensional control (collective thrust, three body rates). It also models
the discounted-return loop of `APG.update_policy` in
`neural_control/controllers/apg.py`.

The controller turns a finite-horizon tracking problem into one flat
nonlinear program (NLP). It has three parts.

**Building the problem.** `_initDynamics` appends to the problem lists one
stage at a time:
- the decision vector `[X0, U0, X1, U1, ..., U_{N-1}, X_N]`;
- its initial guess and its box bounds;
- the equality constraints (X0 pinned to the current state, then one
  multiple-shooting continuity block per stage) and their zero band;
- the objective, where each stage adds a goal-or-gap tracking term and a
  control term.

Each stage's tracking term reads a fixed slice of the parameter vector P.

**Solving.** `solve` does four things:
- rewrites the reference list by zeroing the quaternion slots;
- calls the solver;
- returns the first control and the predicted trajectory;
- overwrites the warm-start guess.

**Dynamics.** The dynamics are the quaternion rigid-body model, integrated by
four RK4 sub-steps.

Modules:
- `QuadConfig` (config.dfy): the constants the constructor fixes, namely:
  - dimensions;
  - thrust and rate limits;
  - diagonal cost weights;
  - the static initial guess.
- `Vectors` (vectors.dfy): element-wise vector arithmetic and diagonal
  quadratic forms.
- `QuadDynamics` (dynamics.dfy): the time derivative `XDot`, one RK4 step,
  the four-sub-step transition `Transition`, and the loop of
  `drone_dynamics_high_mpc` as a method. `Integrator(dt)` packages
  `Transition` as a map of the type `StepMap`; maps of this type send every
  (state, control) pair to a state.
- `NlpLayout` (layout.dfy): the index layout of the stacked decision
  vector, bounds, constraints, zero band and objective summands, as
  functions of the horizon N.
- `NlpSemantics` (semantics.dfy): what the built problem means, namely:
  - the values of the costs and the constraints at a decision vector w and a
    parameter vector P;
  - the fact that the constraint band holds exactly when w is a
    multiple-shooting trajectory;
  - the fact that the box holds exactly when every control lies within the
    limits.

  The constraint lemmas hold for every integrator map `f`. The problem the
  code builds is the instance `f = Integrator(dt)`; `InitialGuessFeasible`
  uses it.
- `MpcSolve` (solve.dfy): the reference preprocessing (a method that works
  on arrays, as the source does), the extraction of the first control and
  the trajectory, and the warm start.
- `MpcController` (controller.dfy): the `MPC` object as a class whose
  fields are the problem lists: the constructor, `_initDynamics` as a loop,
  and `solve`.
- `Apg` (apg.dfy): the reversed, front-inserting loop of `update_policy`, proved
  equal to the closed form `d[i] = sum_{j >= i} gamma^(j-i) r[j]`.

The solver is a function parameter of `Solve`, `NlpCall -> seq<real>`. The
model assumes only that it returns a vector of the decision vector's
length. Everything it is handed (guess, bounds, preprocessed P, band) is
stated in `Solve`'s contract.

### Behaviour of the code worth knowing

Each point below follows from the code as written, and the model does the same.
- **The warm start is not a shift by one stage.** The code writes
  `sol[s+u : 2(s+u)] ++ sol[s+u :]`. Stage 0 of the new guess repeats stage
  1 of the solution, and every later stage keeps its own value
  (`MpcSolve.WarmStartStages`).
- **The warm start is overwritten after every solve.** The solver's status
  is never read, so this also happens when the solver did not converge.
- **There are no typed configuration or solver errors.** A reference list of
  the wrong length, or a horizon other than 10, makes `reshape` or CasADi
  fail. `MpcController.Mpc.Solve` therefore requires `|ref| == 150` and
  `N == 10`.
- **With N = 1 the warm start is short.** The slice `sol[s+u : 2(s+u)]` runs
  out and the warm start has 20 entries instead of 24
  (`MpcSolve.WarmStartSingleStage`). With `high_mpc` such a horizon fails
  at the reshape or at the solver call, before the warm start is written: a
  150-entry reference passes `reshape((10, 13))`, but P then has only 33
  entries.

The preprocessing slices the caller's list, so the caller's list is never
written. In the model this holds by construction, because `ref` is a
sequence value.

## Model

| member | source | states |
|---|---|---|
| Vectors.QuadForm | neural_control/baselines/mpc.py:145-147 | `Delta.T @ diag(q) @ Delta` as the sum of q[i] * d[i]^2 (no contract of its own; stated by `QuadFormNonneg`, `QuadFormIgnoresUnweighted` and `QuadFormZeroIff`) |
| Vectors.QuadFormNonneg | neural_control/baselines/mpc.py:145-147 | a diagonal quadratic form with non-negative weights is non-negative |
| Vectors.QuadFormIgnoresUnweighted | neural_control/baselines/mpc.py:145-147 | components whose weight is zero do not change a diagonal quadratic form |
| Vectors.QuadFormZeroIff | neural_control/baselines/mpc.py:145-147 | with non-negative weights the form is zero iff every component with non-zero weight is zero |
| QuadDynamics.DroneDynamics | neural_control/baselines/mpc.py:308-328 | the four-iteration RK4 loop with step dt/4 returns a 10-vector equal to the transition map F(x0, u) |
| QuadDynamics.PositionFollowsVelocity | neural_control/baselines/mpc.py:355-356 | the position derivative is the velocity |
| QuadDynamics.QuaternionRateOrthogonal | neural_control/baselines/mpc.py:356-359 | qw*dqw + qx*dqx + qy*dqy + qz*dqz = 0 for every state and control, so the flow keeps the quaternion norm |
| QuadDynamics.HoverIsEquilibrium | neural_control/baselines/mpc.py:355-363 | at identity attitude, zero velocity and thrust 9.81 with zero rates the derivative is zero at every position |
| QuadDynamics.XDot | neural_control/baselines/mpc.py:355-363 | the right-hand side f(x, u) of the `high_mpc` model, component by component as in the source; the result is a 10-vector (its properties are the lemmas below) |
| QuadDynamics.VerticalThrustFactorUnitForm | neural_control/baselines/mpc.py:361-362 | on a unit quaternion the vertical acceleration XDot(x, u)[9] equals the commented-out form (1 - 2qx^2 - 2qy^2) * thrust - gz |
| QuadDynamics.Rk4Step | neural_control/baselines/mpc.py:320-325 | one classical RK4 step of length h with the control held: x + (k1 + 2k2 + 2k3 + k4) / 6; the result is a state |
| QuadDynamics.Transition | neural_control/baselines/mpc.py:312-327 | F(x, u): four RK4 sub-steps of length dt/4 from x; the result is a state |
| QuadDynamics.Rk4StepFixesEquilibrium | neural_control/baselines/mpc.py:320-325 | one RK4 step leaves a point where f(x, u) = 0 unchanged, for every step length |
| QuadDynamics.IterateFixedPoint | neural_control/baselines/mpc.py:318-325 | iterating a map from one of its fixed points stays at that point |
| QuadDynamics.TransitionFixesEquilibrium | neural_control/baselines/mpc.py:312-327 | the four-sub-step map F returns X unchanged wherever f(X, U) = 0 |
| QuadDynamics.Integrator | neural_control/baselines/mpc.py:130 | `F = drone_dynamics_high_mpc(dt)` packaged as a `StepMap`, the transition on every (state, control) pair (a definition; its property is stated by `IntegratorFixesEquilibria`) |
| QuadDynamics.IntegratorFixesEquilibria | neural_control/baselines/mpc.py:130 | the map F = `drone_dynamics_high_mpc(dt)` handed to the problem returns X unchanged at every (X, U) where f(X, U) = 0, for every dt |
| QuadDynamics.InitialGuessIsFixedPoint | neural_control/baselines/mpc.py:118-119 | (`_quad_s0`, `_quad_u0`) is a fixed point of F for every dt |
| NlpLayout.DecisionVars | neural_control/baselines/mpc.py:190-231 | the stacked decision vector has s + N(s+u) entries |
| NlpLayout.DecisionVarsLayout | neural_control/baselines/mpc.py:190-231 | every slot of the stacked vector holds a variable of the horizon whose slot number is that index (X[i,k] at k(s+u)+i, U[j,k] at k(s+u)+s+j) |
| NlpLayout.DecisionVarsComplete | neural_control/baselines/mpc.py:184-231 | every X[:, 0..N] and U[:, 0..N-1] variable appears in the stacked vector, at its slot |
| NlpLayout.StackedAtSlot | neural_control/baselines/mpc.py:190-234 | a list built by the same appends holds, at each variable's slot, the state or control entry for that variable |
| NlpLayout.SlotBounds | neural_control/baselines/mpc.py:168-176 | state slots are bounded by -inf and +inf; control slots by u_min[j] = [2,-6,-6,-6] and u_max[j] = [20,6,6,6] |
| NlpLayout.InitialGuess | neural_control/baselines/mpc.py:190-234 | `nlp_w0`: `_quad_s0`, then `_quad_u0` and `_quad_s0` once per stage (no contract of its own; its shape is stated by `InitialGuessWithinBounds` and `NlpSemantics.InitialGuessStages`) |
| NlpLayout.LowerBounds | neural_control/baselines/mpc.py:190-234 | `lbw`: -inf on every state slot and `u_min` on every control slot, in append order (no contract of its own; stated slot by slot by `SlotBounds`) |
| NlpLayout.UpperBounds | neural_control/baselines/mpc.py:190-234 | `ubw`: +inf on every state slot and `u_max` on every control slot, in append order (no contract of its own; stated slot by slot by `SlotBounds`) |
| NlpLayout.InitialGuessWithinBounds | neural_control/baselines/mpc.py:190-234 | the initial guess has length s + N(s+u) and lies between lbw and ubw slot by slot |
| NlpLayout.ConstraintList | neural_control/baselines/mpc.py:196-237 | the constraint list has (N+1)s entries |
| NlpLayout.ConstraintLayout | neural_control/baselines/mpc.py:196-237 | row i < s pins X[i,0]; row (k+1)s + i is the continuity constraint of component i at stage k; every row holds a constraint of the horizon |
| NlpLayout.ConstraintListComplete | neural_control/baselines/mpc.py:196-237 | every pin and every continuity constraint of the horizon appears in the list at its row |
| NlpLayout.PLen | neural_control/baselines/mpc.py:181-183 | the size of `P`: s for the current state, s+3 per reference row, s for the goal (no contract of its own; used by `NlpSemantics.CostTermsFit` and `ConstraintsFit`) |
| NlpLayout.WithinBox | neural_control/baselines/mpc.py:160-161 | `lbw <= nlp_x <= ubw`, slot by slot, with infinite bounds always met (no contract of its own; characterised by `NlpSemantics.WithinBoxIff`) |
| NlpLayout.ZeroBand | neural_control/baselines/mpc.py:178-239 | `lbg` and `ubg`: s zeros for the pin and s more per stage (no contract of its own; stated by `ZeroBandIsZeros`) |
| NlpLayout.ZeroBandIsZeros | neural_control/baselines/mpc.py:178-239 | lbg = ubg = zeros of length (N+1)s |
| NlpLayout.StageTerm | neural_control/baselines/mpc.py:213-223 | stage k tracks the goal iff k = N-1; a gap stage reads P[s+(s+3)k, s+(s+3)(k+1)-3), the goal stage reads P[s+(s+3)N, end); both slices have length s and lie inside P |
| NlpLayout.StageSlicesDisjoint | neural_control/baselines/mpc.py:181-222 | the P slices of two different stages do not overlap, and every interior slice lies inside [s, s+(s+3)N) |
| NlpLayout.CostTerms | neural_control/baselines/mpc.py:200-228 | `mpc_obj` as its list of summands, one stage term appended per iteration (no contract of its own; stated by `CostTermsAt` and `CostTermsLength`) |
| NlpLayout.CostTermsAt | neural_control/baselines/mpc.py:200-228 | summand j of the objective built after k stages is the term of stage j |
| NlpLayout.CostTermsLength | neural_control/baselines/mpc.py:200-228 | after k stages the objective has k summands |
| NlpSemantics.GoalCost | neural_control/baselines/mpc.py:145-150 | `f_cost_goal`: the quadratic form of `_Q_goal` (no contract of its own; stated by `CostsNonneg`, `GoalCostIgnoresAttitude` and `GoalCostZeroIff`) |
| NlpSemantics.GapCost | neural_control/baselines/mpc.py:146-151 | `f_cost_gap`: the quadratic form of `_Q_pen` (no contract of its own; stated by `CostsNonneg` and `GapCostIgnoresXAttitudeVx`) |
| NlpSemantics.ControlCost | neural_control/baselines/mpc.py:147-152 | `f_cost_u`: the quadratic form of `_Q_u` (no contract of its own; stated by `CostsNonneg` and `ControlCostZeroIff`) |
| NlpSemantics.StageValue | neural_control/baselines/mpc.py:213-228 | the value of one summand: the goal or gap cost of X_{k+1} minus its P slice, plus the control cost of U_k − [gz, 0, 0, 0] (no contract of its own; stated by `CostsNonneg`, `ObjectiveOfNonneg` and `MpcSolve.StageKeepsValue`) |
| NlpSemantics.Objective | neural_control/baselines/mpc.py:213-228 | the value of `mpc_obj` at (w, P): the sum of the stage summands (no contract of its own; stated by `ObjectiveNonneg` and `MpcSolve.PreprocessingKeepsObjective`) |
| NlpSemantics.ConstraintValue | neural_control/baselines/mpc.py:196-237 | the value of one constraint: X[i,0] - P[i] for a pin, F(X_k, U_k)[i] - X[i,k+1] for a continuity row (no contract of its own; stated by `ConstraintsHoldIff`) |
| NlpSemantics.ConstraintsHold | neural_control/baselines/mpc.py:196-239 | lbg <= g(w, P) <= ubg, row by row (no contract of its own; characterised by `ConstraintsHoldIff` and `ConstraintsHoldIffRollout`) |
| NlpSemantics.CostsNonneg | neural_control/baselines/mpc.py:83-115 | goal, gap and control costs are all non-negative |
| NlpSemantics.GoalCostIgnoresAttitude | neural_control/baselines/mpc.py:83-96 | the goal cost does not depend on delta components 3..6 |
| NlpSemantics.GapCostIgnoresXAttitudeVx | neural_control/baselines/mpc.py:99-112 | the gap cost depends only on delta components 1, 2, 8, 9 |
| NlpSemantics.GoalCostZeroIff | neural_control/baselines/mpc.py:83-96 | the goal cost is zero iff the position and velocity errors are zero |
| NlpSemantics.ControlCostZeroIff | neural_control/baselines/mpc.py:225-226 | the control cost of U_k - [9.81,0,0,0] is zero iff U_k = [9.81,0,0,0] |
| NlpSemantics.CostTermsFit | neural_control/baselines/mpc.py:181-183 | with P of length 2s + (s+3)N every summand reads only slots that exist |
| NlpSemantics.ObjectiveOfNonneg | neural_control/baselines/mpc.py:228 | any running sum of summands is non-negative |
| NlpSemantics.ObjectiveNonneg | neural_control/baselines/mpc.py:200-228 | `mpc_obj` is non-negative at every (w, P) |
| NlpSemantics.ObjectiveOfAgrees | neural_control/baselines/mpc.py:228 | two parameter vectors on which every summand agrees give the same running sum |
| NlpSemantics.ConstraintsFit | neural_control/baselines/mpc.py:181-196 | every constraint reads only slots that exist in w and P |
| NlpSemantics.ConstraintsHoldIff | neural_control/baselines/mpc.py:187-239 | lbg <= g(w, P) <= ubg iff X0 = P[0:s] and X_{k+1} = F(X_k, U_k) for every stage |
| NlpSemantics.ShootingFromConstraints | neural_control/baselines/mpc.py:187-239 | the band implies the pin and every continuity equation |
| NlpSemantics.ConstraintsFromShooting | neural_control/baselines/mpc.py:187-239 | the pin and the continuity equations imply the band |
| NlpSemantics.ConstraintsHoldIffRollout | neural_control/baselines/mpc.py:187-239 | the band holds iff every X_k is the state reached from P[0:s] by the first k controls |
| NlpSemantics.ShootingFromRollout | neural_control/baselines/mpc.py:187-239 | states that follow the rollout satisfy the pin and the continuity equations |
| NlpSemantics.RolloutFromShooting | neural_control/baselines/mpc.py:187-239 | when X0 = x0 and every stage follows the integrator, X_m is the state reached from x0 by the first m controls |
| NlpSemantics.RolloutStep | neural_control/baselines/mpc.py:237 | one stage that follows the integrator extends an agreement with the rollout by one state |
| NlpSemantics.WithinBoxIff | neural_control/baselines/mpc.py:168-205 | lbw <= w <= ubw iff every control of w lies between u_min and u_max (states are free) |
| NlpSemantics.LimitsFromBox | neural_control/baselines/mpc.py:168-205 | the box implies the control limits |
| NlpSemantics.BoxFromLimits | neural_control/baselines/mpc.py:168-234 | the control limits imply the box |
| NlpSemantics.InitialGuessFeasible | neural_control/baselines/mpc.py:190-239 | when the current state is `_quad_s0`, the static initial guess is feasible for F = `Integrator(dt)`: inside the box and on the constraint band |
| NlpSemantics.InitialGuessStages | neural_control/baselines/mpc.py:190-232 | every state stage of the initial guess is `_quad_s0` and every control stage is `_quad_u0` |
| MpcSolve.PySlice | neural_control/baselines/mpc.py:288-299 | Python slicing `s[lo:hi]` with both ends clamped to the length; an empty result when lo > hi after clamping |
| MpcSolve.PySliceInRange | neural_control/baselines/mpc.py:288-299 | within range the Python slice is the plain subsequence s[lo..hi] |
| MpcSolve.PySliceConcat | neural_control/baselines/mpc.py:291-293 | adjacent Python slices join: s[a:b] + s[b:c] == s[a:c] for every a <= b <= c, clamped or not |
| MpcSolve.CellCover | neural_control/baselines/mpc.py:273-274 | every flat index of the rows-by-13 reshape is a (row, column) cell |
| MpcSolve.CellInjective | neural_control/baselines/mpc.py:273-274 | distinct cells of the reshape are distinct flat indices |
| MpcSolve.ZeroAttitude | neural_control/baselines/mpc.py:272 | entries 3..6 become 0 and every other entry is kept |
| MpcSolve.ZeroedRowsAt | neural_control/baselines/mpc.py:273-275 | in every 13-wide row columns 3..6 become 0 and the other columns are kept |
| MpcSolve.ZeroedRows | neural_control/baselines/mpc.py:273-275 | `middle_ref_states[:, 3:7] = 0` on the flat buffer, row by row; it keeps the length (its contents are stated by `ZeroedRowsAt`) |
| MpcSolve.ZeroedRef | neural_control/baselines/mpc.py:269-276 | the preprocessed reference: start ++ zeroed middle rows ++ zeroed goal; it has the input's length (its contents are stated by `ZeroedRefAt`) |
| MpcSolve.ZeroedRefAt | neural_control/baselines/mpc.py:269-276 | the output has the input's length; the quaternion slots of every interior row and of the goal block are 0; every other entry is unchanged |
| MpcSolve.ZeroedRefKeepsStart | neural_control/baselines/mpc.py:270 | the first s entries pass through unchanged |
| MpcSolve.ZeroedRefIdempotent | neural_control/baselines/mpc.py:269-276 | preprocessing twice equals preprocessing once |
| MpcSolve.PreprocessRef | neural_control/baselines/mpc.py:269-276 | the in-place zeroing of the copied goal block and reshaped middle, concatenated with the start, yields the preprocessed list |
| MpcSolve.AssemblyIsZeroedRef | neural_control/baselines/mpc.py:276 | start ++ zeroed middle ++ zeroed goal is the preprocessed list |
| MpcSolve.PreprocessingKeepsObjective | neural_control/baselines/mpc.py:269-276 | the objective takes the same value at the preprocessed P as at the raw list |
| MpcSolve.StageKeepsValue | neural_control/baselines/mpc.py:213-228 | every stage summand takes the same value at the preprocessed P as at the raw list |
| MpcSolve.WindowKeepsTracked | neural_control/baselines/mpc.py:269-276 | outside its quaternion slots the P window of stage k is unchanged by preprocessing |
| MpcSolve.PreprocessingKeepsConstraints | neural_control/baselines/mpc.py:269-276 | the constraint band holds at the preprocessed P iff it holds at the raw list |
| MpcSolve.FirstControl | neural_control/baselines/mpc.py:288 | `opt_u` = sol[s : s+u] with Python's clamping (no contract of its own; stated by `FirstControlWithinLimits`) |
| MpcSolve.FirstControlWithinLimits | neural_control/baselines/mpc.py:288 | `opt_u` is U_0 of the solution; a solution inside the box gives an `opt_u` within the thrust and rate limits |
| MpcSolve.Rows | neural_control/baselines/mpc.py:297-299 | reshaping a buffer of rows(s+u) entries yields exactly rows rows |
| MpcSolve.RowsAt | neural_control/baselines/mpc.py:297-299 | row k of the reshape is flat[k(s+u), (k+1)(s+u)) |
| MpcSolve.RowsConcat | neural_control/baselines/mpc.py:297-299 | laying the reshaped rows end to end gives the buffer back |
| MpcSolve.Trajectory | neural_control/baselines/mpc.py:297-299 | `x0_array`: sol without its last s entries, cut into rows of s+u (no contract of its own; stated by `TrajectoryRows` and `TrajectoryRoundTrip`) |
| MpcSolve.TrajectoryRows | neural_control/baselines/mpc.py:297-299 | `x0_array` has exactly N rows and row k is X_k ++ U_k |
| MpcSolve.TrajectoryRoundTrip | neural_control/baselines/mpc.py:297-299 | the trajectory rows followed by X_N reconstruct the solution |
| MpcSolve.WarmStart | neural_control/baselines/mpc.py:291-293 | the new `nlp_w0`: sol[s+u : 2(s+u)] ++ sol[s+u :] (no contract of its own; stated by the four `WarmStart` lemmas) |
| MpcSolve.WarmStartShape | neural_control/baselines/mpc.py:291-293 | with at least two stages the warm start has the solution's length, begins with sol's stage-1 block, and agrees with sol at every index >= s+u |
| MpcSolve.WarmStartStages | neural_control/baselines/mpc.py:291-293 | for N >= 2, stage 0 of the warm start equals stage 1 of sol and every later stage is unchanged: a duplication, not a shift |
| MpcSolve.WarmStartAgrees | neural_control/baselines/mpc.py:291-293 | any window of indices >= s+u is the same in the warm start and in sol |
| MpcSolve.WarmStartSingleStage | neural_control/baselines/mpc.py:291-293 | for N = 1 the warm start has u fewer entries than the decision vector |
| MpcController.Mpc.constructor | neural_control/baselines/mpc.py:38-121 | a new controller holds the problem lists of an N-stage horizon, the static initial guess and no solution |
| MpcController.Mpc.InitDynamics | neural_control/baselines/mpc.py:158-239 | the append loop leaves exactly the stacked variables, guess, bounds, summands, constraints and zero band of the N-stage layout |
| MpcController.Mpc.GuessFeasibleBeforeSolve | neural_control/baselines/mpc.py:118-239 | for a controller holding its static guess, that guess lies in the object's box lbw..ubw and on its band for F = `Integrator(dt)` built from the object's own dt, whenever the current state in P is `_quad_s0` |
| MpcController.Mpc.Solve | neural_control/baselines/mpc.py:264-306 | the solver is called with the stored guess, bounds and band and the preprocessed P; its primal vector is stored; the returned control is its U_0 slice, the trajectory its reshape, and the new guess its warm start; every other list is unchanged |
| Apg.PowSumShift | neural_control/controllers/apg.py:33 | raising every exponent of a discounted sum by one multiplies it by gamma |
| Apg.ReturnRecurrence | neural_control/controllers/apg.py:32-33 | the return of a non-empty reward list is r[0] + gamma times the return of the rest |
| Apg.DiscountedReturns | neural_control/controllers/apg.py:29-34 | the reversed, front-inserting loop returns exactly the closed form d[i] = sum_{j>=i} gamma^(j-i) r[j] |
| Apg.DiscountedRecurrence | neural_control/controllers/apg.py:30-34 | the output has one entry per reward (none for no rewards), ends with the last reward, and d[i] = r[i] + gamma d[i+1] |
| Apg.DiscountedLast | neural_control/controllers/apg.py:31-34 | the last closed-form entry is the last reward |
| Apg.DiscountedStep | neural_control/controllers/apg.py:32-34 | each closed-form entry is its reward plus gamma times the next entry |
| Apg.DiscountedZeroGamma | neural_control/controllers/apg.py:31-34 | gamma = 0 returns the rewards themselves |
| Apg.DiscountedZeroRewards | neural_control/controllers/apg.py:31-34 | all-zero rewards give all-zero returns for every gamma |
| Apg.PowSumZeros | neural_control/controllers/apg.py:31-34 | a discounted sum of zeros is zero |

## Left out

- CasADi symbolic construction, `ca.nlpsol`, the IPOPT options and the
  `F.map(N, "openmp")` parallel map (mpc.py:133, 242-262): these are
  foreign library calls and parallelism. The solver is an uninterpreted
  function parameter of `Solve`, and the objective and constraints are
  modelled by their values.
- MpcController.Mpc.Solve: stores only the primal vector `x` of the
  solver's answer as `sol`; CasADi's result dictionary also carries the
  objective `f`, the constraint values `g` and the multipliers
  (mpc.py:278), which the model does not hold.
- MpcController.Mpc.Solve: the new `nlp_w0` is a flat sequence of reals;
  in the source it is a list of one-element NumPy arrays (mpc.py:291-293).
- MpcController.Mpc.Solve: promises nothing about the optimality or
  convergence of the solver's answer, because the solver is opaque.
- MpcController.Mpc.Solve: does not model the returned values' NumPy shapes,
  i.e. `opt_u` as a 4-by-1 column and `x0_array` as a 2-D array; they are
  sequences.
- The `print(opt_u)` in `solve` (mpc.py:304): output only.
- The `simple_quad` and `fixed_wing` variants (mpc.py:68-80, 371 on).
  `simple_quad` refers to the missing attribute `self.dt` and uses cos/sin.
  `fixed_wing` never sets bounds or a dynamics function.
- The module-level torch setup (mpc.py:12-29): float tensor code that
  `high_mpc` does not use. The module uses `torch` there without importing
  it (mpc.py:1-10), so importing mpc.py as written raises `NameError`; the
  model takes the class on its own.
- The horizon `int(T / dt)` (mpc.py:49): float-to-int truncation. The
  constructor takes N directly.
- Floating point, throughout the model: the dynamics and RK4 steps
  (`QuadDynamics.DroneDynamics`, mpc.py:308-363), the costs and bounds
  (mpc.py:83-176), the stored guesses and the discounted-return loop
  (apg.py:33) are all computed in exact real arithmetic. Rounding is not
  modelled, and no RK4 accuracy (truncation-order) claim is made.
- The rest of `apg.py`: the policy network, the Adam optimiser, `backward`,
  and the mean/std normalisation with its 1e-9 (apg.py:5-17, 35-45). These
  are neural-network, autograd and floating-point code.
- apg.py:18 has a stray leading space before `class APG:`, so that module
  does not import as written. The loop is modelled on its own, with
  `gamma` as a parameter.
- `train_drone.py`, `evaluate_drone.py`, `scripts/model_cart.py` and
  `scripts/test.py`: training and evaluation drivers, file I/O and
  plotting.
