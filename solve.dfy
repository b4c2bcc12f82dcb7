/**
 * The bookkeeping of `MPC.solve` for the `high_mpc` model
 * (neural_control/baselines/mpc.py:264-306): the reference preprocessing,
 * the extraction of the first control and of the predicted trajectory, and
 * the warm start written back for the next call.
 */
module MpcSolve {
  import opened QuadConfig
  import opened Vectors
  import opened QuadDynamics
  import opened NlpLayout
  import opened NlpSemantics

  /** Python slicing `s[lo:hi]` with non-negative bounds: both ends are clamped to the length. */
  function PySlice<T>(s: seq<T>, lo: nat, hi: nat): (r: seq<T>)
    ensures var a, b := Min(lo, |s|), Min(hi, |s|);
      |r| == (if a <= b then b - a else 0) && forall i :: 0 <= i < |r| ==> r[i] == s[a + i]
  {
    var a, b := Min(lo, |s|), Min(hi, |s|);
    if a <= b then s[a..b] else []
  }

  /** Within range, the Python slice is the plain subsequence. */
  lemma PySliceInRange<T>(s: seq<T>, lo: nat, hi: nat)
    requires lo <= hi <= |s|
    ensures PySlice(s, lo, hi) == s[lo..hi]
  {
  }

  /** Adjacent Python slices join into one: s[a:b] + s[b:c] == s[a:c] for a <= b <= c. */
  lemma PySliceConcat<T>(s: seq<T>, a: nat, b: nat, c: nat)
    requires a <= b <= c
    ensures PySlice(s, a, b) + PySlice(s, b, c) == PySlice(s, a, c)
  {
    var l, r := PySlice(s, a, b) + PySlice(s, b, c), PySlice(s, a, c);
    assert |l| == |r|;
    forall i | 0 <= i < |l| ensures l[i] == r[i] {
      if i >= |PySlice(s, a, b)| {
        assert l[i] == PySlice(s, b, c)[i - |PySlice(s, a, b)|];
      }
    }
  }

  function Min(x: nat, y: nat): nat
  {
    if x <= y then x else y
  }

  // ---------------------------------------------------------------------------
  // Reference preprocessing
  // ---------------------------------------------------------------------------

  /** Flat index of column c of row r in a row-major buffer whose rows have width RowWidth. */
  function Cell(r: nat, c: nat): nat
  {
    r * RowWidth + c
  }

  /** Distinct (row, column) pairs of a row-major buffer are distinct flat indices. */
  lemma CellInjective(r1: nat, c1: nat, r2: nat, c2: nat)
    requires c1 < RowWidth && c2 < RowWidth
    requires Cell(r1, c1) == Cell(r2, c2)
    ensures r1 == r2 && c1 == c2
  {
  }

  /** Every flat index of a rows-by-RowWidth buffer is some cell. */
  lemma CellCover(i: nat, rows: nat)
    requires i < rows * RowWidth
    ensures i / RowWidth < rows && i % RowWidth < RowWidth && i == Cell(i / RowWidth, i % RowWidth)
  {
  }

  /** A reference row (or the goal block) with its quaternion columns 3..6 set to zero. */
  function ZeroAttitude(row: seq<real>): (z: seq<real>)
    requires |row| >= 7
    ensures |z| == |row| && forall i :: 0 <= i < |row| ==> z[i] == if 3 <= i < 7 then 0.0 else row[i]
  {
    row[..3] + [0.0, 0.0, 0.0, 0.0] + row[7..]
  }

  /** A rows-by-RowWidth buffer with the quaternion columns of every row zeroed. */
  function ZeroedRows(m: seq<real>, rows: nat): (z: seq<real>)
    requires |m| == rows * RowWidth
    ensures |z| == |m|
  {
    if rows == 0 then [] else ZeroAttitude(m[..RowWidth]) + ZeroedRows(m[RowWidth..], rows - 1)
  }

  /** The `high_mpc` reference list after preprocessing: start, zeroed interior rows, zeroed goal block. */
  function ZeroedRef(ref: seq<real>): (z: seq<real>)
    requires |ref| == RefLen
    ensures |z| == |ref|
  {
    ref[..S] + ZeroedRows(ref[S .. |ref| - S], RefRows) + ZeroAttitude(ref[|ref| - S ..])
  }

  /** Whether slot i of a reference list is a quaternion slot of an interior row or of the goal block. */
  predicate AttitudeSlot(i: int)
  {
    (S <= i < RefLen - S && 3 <= (i - S) % RowWidth < 7) || (RefLen - S + 3 <= i < RefLen - S + 7)
  }

  lemma {:induction false} ZeroedRowsAt(m: seq<real>, rows: nat, r: nat, c: nat)
    requires |m| == rows * RowWidth && r < rows && c < RowWidth
    ensures |ZeroedRows(m, rows)| == |m|
    ensures ZeroedRows(m, rows)[Cell(r, c)] == if 3 <= c < 7 then 0.0 else m[Cell(r, c)]
  {
    var head, tail := m[..RowWidth], m[RowWidth..];
    assert ZeroedRows(m, rows) == ZeroAttitude(head) + ZeroedRows(tail, rows - 1);
    if r > 0 {
      ZeroedRowsAt(tail, rows - 1, r - 1, c);
      var i := Cell(r - 1, c);
      assert Cell(r, c) == RowWidth + i;
      assert m[RowWidth + i] == tail[i];
    } else {
      assert Cell(r, c) == c;
      assert m[c] == head[c];
    }
  }

  /**
   * Preprocessing keeps the length and every entry, except that the
   * quaternion slots 3..6 of every interior row and of the goal block become 0.
   */
  lemma ZeroedRefAt(ref: seq<real>)
    requires |ref| == RefLen
    ensures |ZeroedRef(ref)| == |ref|
    ensures forall i :: 0 <= i < |ref| ==> ZeroedRef(ref)[i] == if AttitudeSlot(i) then 0.0 else ref[i]
  {
    var mid := ref[S .. |ref| - S];
    forall i | 0 <= i < |ref| ensures ZeroedRef(ref)[i] == if AttitudeSlot(i) then 0.0 else ref[i] {
      if S <= i < |ref| - S {
        CellCover(i - S, RefRows);
        var r, c := (i - S) / RowWidth, (i - S) % RowWidth;
        ZeroedRowsAt(mid, RefRows, r, c);
        assert ZeroedRef(ref)[i] == ZeroedRows(mid, RefRows)[i - S];
      }
    }
  }

  /** The current state P[0:s] passes through preprocessing unchanged. */
  lemma ZeroedRefKeepsStart(ref: seq<real>)
    requires |ref| == RefLen
    ensures |ZeroedRef(ref)| == RefLen && ZeroedRef(ref)[..S] == ref[..S]
  {
    ZeroedRefAt(ref);
  }

  /** Preprocessing is idempotent. */
  lemma ZeroedRefIdempotent(ref: seq<real>)
    requires |ref| == RefLen
    ensures |ZeroedRef(ref)| == RefLen && ZeroedRef(ZeroedRef(ref)) == ZeroedRef(ref)
  {
    ZeroedRefAt(ref);
    ZeroedRefAt(ZeroedRef(ref));
  }

  /**
   * The preprocessing step of `solve`: the goal block and the interior rows
   * are copied out of the caller's list, their quaternion columns are zeroed
   * in place, and the pieces are concatenated again.
   */
  method PreprocessRef(ref: seq<real>) returns (p: seq<real>)
    requires |ref| == RefLen
    ensures p == ZeroedRef(ref)
  {
    var start := ref[..S];
    var end := new real[S](i requires 0 <= i < S => ref[|ref| - S + i]);
    for c := 3 to 7
      invariant forall i :: 0 <= i < S ==> end[i] == if 3 <= i < c then 0.0 else ref[|ref| - S + i]
    {
      end[c] := 0.0;
    }
    var goal := end[..];
    var middle := new real[RefRows * RowWidth](i requires 0 <= i < RefRows * RowWidth => ref[S + i]);
    for r := 0 to RefRows
      invariant forall r', c' {:trigger Cell(r', c')} :: 0 <= r' < RefRows && 0 <= c' < RowWidth ==>
        middle[Cell(r', c')] == if r' < r && 3 <= c' < 7 then 0.0 else ref[S + Cell(r', c')]
    {
      for c := 3 to 7
        invariant forall r', c' {:trigger Cell(r', c')} :: 0 <= r' < RefRows && 0 <= c' < RowWidth ==>
          middle[Cell(r', c')] ==
            if (r' < r && 3 <= c' < 7) || (r' == r && 3 <= c' < c) then 0.0 else ref[S + Cell(r', c')]
      {
        middle[Cell(r, c)] := 0.0;
        forall r', c' | 0 <= r' < RefRows && 0 <= c' < RowWidth && Cell(r', c') == Cell(r, c)
          ensures r' == r && c' == c
        {
          CellInjective(r', c', r, c);
        }
      }
    }
    p := start + middle[..] + goal;
    AssemblyIsZeroedRef(ref, middle[..], goal);
  }

  /** The three pieces of `solve`'s reference rewrite, concatenated, are the preprocessed list. */
  lemma AssemblyIsZeroedRef(ref: seq<real>, middle: seq<real>, goal: seq<real>)
    requires |ref| == RefLen && |middle| == RefRows * RowWidth && |goal| == S
    requires forall r, c {:trigger Cell(r, c)} :: 0 <= r < RefRows && 0 <= c < RowWidth ==>
      middle[Cell(r, c)] == if 3 <= c < 7 then 0.0 else ref[S + Cell(r, c)]
    requires forall j :: 0 <= j < S ==> goal[j] == if 3 <= j < 7 then 0.0 else ref[|ref| - S + j]
    ensures ref[..S] + middle + goal == ZeroedRef(ref)
  {
    var p := ref[..S] + middle + goal;
    ZeroedRefAt(ref);
    forall i | 0 <= i < |ref| ensures p[i] == ZeroedRef(ref)[i] {
      if i < S {
        assert p[i] == ref[i];
        assert !AttitudeSlot(i);
      } else if i < |ref| - S {
        CellCover(i - S, RefRows);
        var r, c := (i - S) / RowWidth, (i - S) % RowWidth;
        assert p[i] == middle[Cell(r, c)];
        assert AttitudeSlot(i) <==> 3 <= c < 7;
      } else {
        var j := i - (|ref| - S);
        assert p[i] == goal[j];
        assert AttitudeSlot(i) <==> 3 <= j < 7;
      }
    }
  }

  /** Preprocessing leaves the objective unchanged: the zeroed slots carry zero weight. */
  lemma PreprocessingKeepsObjective(w: seq<real>, ref: seq<real>)
    requires |w| == WLen(RefRows) && |ref| == RefLen
    ensures PLen(RefRows) == RefLen
    ensures Objective(RefRows, w, ZeroedRef(ref)) == Objective(RefRows, w, ref)
  {
    var n, q := RefRows, ZeroedRef(ref);
    CostTermsFit(n, w, ref);
    CostTermsFit(n, w, q);
    CostTermsLength(n, n);
    forall c | c in CostTerms(n, n) ensures StageValue(c, w, q) == StageValue(c, w, ref) {
      var k :| 0 <= k < n && CostTerms(n, n)[k] == c;
      CostTermsAt(n, n, k);
      StageKeepsValue(w, ref, k);
    }
    ObjectiveOfAgrees(CostTerms(n, n), w, q, ref);
  }

  /** The summand of stage k reads the same value from the preprocessed list as from the original. */
  lemma StageKeepsValue(w: seq<real>, ref: seq<real>, k: nat)
    requires |w| == WLen(RefRows) && |ref| == RefLen && k < RefRows
    ensures StageFits(StageTerm(RefRows, k), w, ref) && StageFits(StageTerm(RefRows, k), w, ZeroedRef(ref))
    ensures StageValue(StageTerm(RefRows, k), w, ZeroedRef(ref)) == StageValue(StageTerm(RefRows, k), w, ref)
  {
    var c, q := StageTerm(RefRows, k), ZeroedRef(ref);
    var x := StateOf(w, k + 1);
    WindowKeepsTracked(ref, k);
    var dq := Sub(x, q[c.refLo .. c.refHi]);
    var dr := Sub(x, ref[c.refLo .. c.refHi]);
    forall j | 0 <= j < S && !(3 <= j < 7) ensures dq[j] == dr[j] {
      assert q[c.refLo .. c.refHi][j] == q[c.refLo + j];
      assert ref[c.refLo .. c.refHi][j] == ref[c.refLo + j];
    }
    if c.tracking == GoalTracking {
      GoalCostIgnoresAttitude(dq, dr);
    } else {
      GapCostIgnoresXAttitudeVx(dq, dr);
    }
  }

  /** Outside its quaternion slots, the P window of stage k is untouched by preprocessing. */
  lemma WindowKeepsTracked(ref: seq<real>, k: nat)
    requires |ref| == RefLen && k < RefRows
    ensures |ZeroedRef(ref)| == RefLen
    ensures var lo := StageTerm(RefRows, k).refLo;
      forall i :: lo <= i < lo + S && !(lo + 3 <= i < lo + 7) ==> ZeroedRef(ref)[i] == ref[i]
  {
    var c := StageTerm(RefRows, k);
    ZeroedRefAt(ref);
    forall i | c.refLo <= i < c.refLo + S && !(c.refLo + 3 <= i < c.refLo + 7) ensures !AttitudeSlot(i) {
      if c.tracking == GapTracking {
        var j := i - c.refLo;
        assert i - S == Cell(k, j);
        CellCover(i - S, RefRows);
        CellInjective(k, j, (i - S) / RowWidth, (i - S) % RowWidth);
      }
    }
  }

  /** Preprocessing leaves the feasible set unchanged: the constraints read only P[0:s]. */
  lemma PreprocessingKeepsConstraints(f: StepMap, w: seq<real>, ref: seq<real>)
    requires |w| == WLen(RefRows) && |ref| == RefLen
    ensures PLen(RefRows) == RefLen
    ensures ConstraintsHold(f, RefRows, w, ZeroedRef(ref)) <==> ConstraintsHold(f, RefRows, w, ref)
  {
    ZeroedRefKeepsStart(ref);
    ConstraintsHoldIff(f, RefRows, w, ZeroedRef(ref));
    ConstraintsHoldIff(f, RefRows, w, ref);
  }

  // ---------------------------------------------------------------------------
  // Reading the solution
  // ---------------------------------------------------------------------------

  /** `opt_u = sol_x0[s : s + u]`. */
  function FirstControl(sol: seq<real>): seq<real>
  {
    PySlice(sol, S, B)
  }

  /**
   * The returned action is U_0 of the solution; when the solution respects
   * the box, it respects the thrust and body-rate limits.
   */
  lemma FirstControlWithinLimits(n: nat, sol: seq<real>)
    requires n >= 1 && |sol| == WLen(n)
    ensures FirstControl(sol) == ControlOf(sol, 0)
    ensures WithinBox(LowerBounds(n), UpperBounds(n), sol) ==>
      var u := FirstControl(sol);
      ThrustMin <= u[0] <= ThrustMax && WMinXy <= u[1] <= WMaxXy &&
      WMinXy <= u[2] <= WMaxXy && WMinYaw <= u[3] <= WMaxYaw
  {
    WithinBoxIff(n, sol);
    if WithinBox(LowerBounds(n), UpperBounds(n), sol) {
      var u := ControlOf(sol, 0);
      assert UMin[0] <= u[0] <= UMax[0] && UMin[1] <= u[1] <= UMax[1];
      assert UMin[2] <= u[2] <= UMax[2] && UMin[3] <= u[3] <= UMax[3];
    }
  }

  /** `np.reshape(flat, (-1, s + u))` for a buffer of exactly `rows` rows. */
  function Rows(flat: seq<real>, rows: nat): (rs: seq<seq<real>>)
    requires |flat| == rows * B
    ensures |rs| == rows
  {
    if rows == 0 then [] else [flat[..B]] + Rows(flat[B..], rows - 1)
  }

  /** The rows laid end to end. */
  function Concat(rs: seq<seq<real>>): seq<real>
  {
    if rs == [] then [] else rs[0] + Concat(rs[1..])
  }

  lemma {:induction false} RowsAt(flat: seq<real>, rows: nat, k: nat)
    requires |flat| == rows * B && k < rows
    ensures Rows(flat, rows)[k] == flat[k * B .. (k + 1) * B]
  {
    if k > 0 {
      RowsAt(flat[B..], rows - 1, k - 1);
      assert (k - 1) * B + B == k * B;
      assert flat[B..][(k - 1) * B .. k * B] == flat[k * B .. (k + 1) * B];
    }
  }

  /** Reshaping loses nothing: laying the rows end to end gives the buffer back. */
  lemma {:induction false} RowsConcat(flat: seq<real>, rows: nat)
    requires |flat| == rows * B
    ensures Concat(Rows(flat, rows)) == flat
  {
    if rows > 0 {
      RowsConcat(flat[B..], rows - 1);
      assert flat == flat[..B] + flat[B..];
    }
  }

  /** `x0_array`: the solution without its final state, as one row per stage. */
  function Trajectory(n: nat, sol: seq<real>): seq<seq<real>>
    requires |sol| == WLen(n)
  {
    Rows(PySlice(sol, 0, |sol| - S), n)
  }

  /** Row k of the predicted trajectory is (X_k, U_k), for each of the n stages. */
  lemma TrajectoryRows(n: nat, sol: seq<real>)
    requires |sol| == WLen(n)
    ensures |Trajectory(n, sol)| == n
    ensures forall k :: 0 <= k < n ==> Trajectory(n, sol)[k] == StateOf(sol, k) + ControlOf(sol, k)
  {
    var flat := PySlice(sol, 0, |sol| - S);
    assert flat == sol[..|sol| - S];
    forall k | 0 <= k < n ensures Trajectory(n, sol)[k] == StateOf(sol, k) + ControlOf(sol, k) {
      RowsAt(flat, n, k);
      assert sol[k * B .. (k + 1) * B] == sol[k * B .. k * B + S] + sol[k * B + S .. (k + 1) * B];
    }
  }

  /** The trajectory followed by the final state X_n is the whole solution. */
  lemma TrajectoryRoundTrip(n: nat, sol: seq<real>)
    requires |sol| == WLen(n)
    ensures Concat(Trajectory(n, sol)) + StateOf(sol, n) == sol
  {
    var flat := PySlice(sol, 0, |sol| - S);
    assert flat == sol[..|sol| - S];
    RowsConcat(flat, n);
    assert sol == sol[..|sol| - S] + sol[|sol| - S ..];
  }

  // ---------------------------------------------------------------------------
  // Warm start
  // ---------------------------------------------------------------------------

  /** `sol_x0[s+u : 2(s+u)] ++ sol_x0[s+u :]`. */
  function WarmStart(sol: seq<real>): seq<real>
  {
    PySlice(sol, B, 2 * B) + PySlice(sol, B, |sol|)
  }

  /**
   * Once the solution holds two full stages, the warm start has its length:
   * its first block is a copy of sol's stage-1 block and the rest is sol from
   * stage 1 on.
   */
  lemma WarmStartShape(sol: seq<real>)
    requires |sol| >= 2 * B
    ensures |WarmStart(sol)| == |sol|
    ensures WarmStart(sol)[..B] == sol[B .. 2 * B]
    ensures forall i :: B <= i < |sol| ==> WarmStart(sol)[i] == sol[i]
  {
  }

  /**
   * In stage terms, for a horizon of at least two stages: stage 0 of the warm
   * start repeats stage 1 of the solution and every later stage is kept, so
   * the guess duplicates stage 1 rather than shifting the trajectory.
   */
  lemma WarmStartStages(n: nat, sol: seq<real>)
    requires n >= 2 && |sol| == WLen(n)
    ensures |WarmStart(sol)| == WLen(n)
    ensures StateOf(WarmStart(sol), 0) == StateOf(sol, 1) && ControlOf(WarmStart(sol), 0) == ControlOf(sol, 1)
    ensures forall k :: 1 <= k <= n ==> StateOf(WarmStart(sol), k) == StateOf(sol, k)
    ensures forall k :: 1 <= k < n ==> ControlOf(WarmStart(sol), k) == ControlOf(sol, k)
  {
    var ws := WarmStart(sol);
    WarmStartShape(sol);
    assert ws[..B][..S] == sol[B .. 2 * B][..S];
    assert ws[..B][S..] == sol[B .. 2 * B][S..];
    forall k | 1 <= k <= n ensures StateOf(ws, k) == StateOf(sol, k) {
      WarmStartAgrees(sol, k * B, k * B + S);
    }
    forall k | 1 <= k < n ensures ControlOf(ws, k) == ControlOf(sol, k) {
      WarmStartAgrees(sol, k * B + S, (k + 1) * B);
    }
  }

  lemma WarmStartAgrees(sol: seq<real>, lo: nat, hi: nat)
    requires |sol| >= 2 * B && B <= lo <= hi <= |sol|
    ensures |WarmStart(sol)| == |sol| && WarmStart(sol)[lo..hi] == sol[lo..hi]
  {
    WarmStartShape(sol);
  }

  /** With a single stage the slice sol[s+u : 2(s+u)] runs short and the warm start loses u entries. */
  lemma WarmStartSingleStage(sol: seq<real>)
    requires |sol| == WLen(1)
    ensures |WarmStart(sol)| == WLen(1) - U
  {
  }
}
