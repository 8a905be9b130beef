/**
 * The constant-velocity Kalman filter that tracks one car: state
 * [x, y, z, vx, vy, vz], advanced by `Predict` and corrected by `Update`.
 */
module Kalman {
  import opened Linalg
  import opened Wrappers

  /** The state transition for a time step `dt`: the identity, with `dt` at (0,3), (1,4) and (2,5). */
  function Transition(dt: real): (f: Matrix)
    ensures IsMatrix(f, 6, 6)
  {
    seq(6, i requires 0 <= i < 6 => seq(6, j requires 0 <= j < 6 =>
      if i == j then 1.0 else if j == i + 3 then dt else 0.0))
  }

  /** The observation matrix H: the camera sees the position, not the velocity. */
  function Observation(): (h: Matrix)
    ensures IsMatrix(h, 3, 6)
  {
    seq(3, i requires 0 <= i < 3 => seq(6, j requires 0 <= j < 6 => if i == j then 1.0 else 0.0))
  }

  /** `np.eye(6) * 100`, with the position block then scaled by 0.01. */
  function InitialCovariance(): (p: Matrix)
    ensures IsMatrix(p, 6, 6) && Diagonal(p, 6) && Symmetric(p, 6)
    ensures forall i :: 0 <= i < 3 ==> p[i][i] == 1.0
    ensures forall i :: 3 <= i < 6 ==> p[i][i] == 100.0
  {
    seq(6, i requires 0 <= i < 6 => seq(6, j requires 0 <= j < 6 =>
      if i != j then 0.0 else if i < 3 then 100.0 * 0.01 else 100.0))
  }

  /** The process noise Q: 0.1 on position, 25.0 on velocity. */
  function ProcessNoise(): (q: Matrix)
    ensures IsMatrix(q, 6, 6) && Diagonal(q, 6)
    ensures forall i :: 0 <= i < 3 ==> q[i][i] == 0.1
    ensures forall i :: 3 <= i < 6 ==> q[i][i] == 25.0
  {
    seq(6, i requires 0 <= i < 6 => seq(6, j requires 0 <= j < 6 =>
      if i != j then 0.0 else if i < 3 then 0.1 else 25.0))
  }

  /** The camera error R = 5·I. */
  function MeasurementNoise(): (r: Matrix)
    ensures IsMatrix(r, 3, 3) && Diagonal(r, 3)
    ensures forall i :: 0 <= i < 3 ==> r[i][i] == 5.0
  {
    ScaledIdentity(3, 5.0)
  }

  /** x_pred = F·x. */
  function PredictedState(x: Vector, dt: real): (r: Vector)
    requires |x| == 6
    ensures |r| == 6
  {
    MatVec(Transition(dt), x, 6, 6)
  }

  /** P_pred = F·P·Fᵀ + Q + 0.1·I. */
  function PredictedCovariance(p: Matrix, q: Matrix, dt: real): (r: Matrix)
    requires IsMatrix(p, 6, 6) && IsMatrix(q, 6, 6)
    ensures IsMatrix(r, 6, 6)
  {
    var f := Transition(dt);
    var fpf := MatMul(MatMul(f, p, 6, 6, 6), Transpose(f, 6, 6), 6, 6, 6);
    MatAdd(MatAdd(fpf, q, 6, 6), ScaledIdentity(6, 0.1), 6, 6)
  }

  /**
   * K = P_pred·Hᵀ·S⁻¹ when the inverse of S is available (`inverse` stands for
   * the outcome of `np.linalg.inv`); the zero matrix when it raised.
   */
  function Gain(pPred: Matrix, inverse: Option<Matrix>): (k: Matrix)
    requires IsMatrix(pPred, 6, 6)
    ensures IsMatrix(k, 6, 3)
  {
    match inverse
    case Some(sInv) =>
      if IsMatrix(sInv, 3, 3) then
        MatMul(MatMul(pPred, Transpose(Observation(), 3, 6), 6, 6, 3), sInv, 6, 3, 3)
      else Zero(6, 3)
    case None => Zero(6, 3)
  }

  /** S = H·P_pred·Hᵀ + R, the matrix whose inverse the gain needs. */
  function Innovation(pPred: Matrix): (s: Matrix)
    requires IsMatrix(pPred, 6, 6)
    ensures IsMatrix(s, 3, 3)
  {
    var h := Observation();
    MatAdd(MatMul(MatMul(h, pPred, 3, 6, 6), Transpose(h, 3, 6), 3, 6, 3), MeasurementNoise(), 3, 3)
  }

  /** x = x_pred + K·(z − H·x_pred). */
  function CorrectedState(xPred: Vector, k: Matrix, z: Vector): (r: Vector)
    requires |xPred| == 6 && IsMatrix(k, 6, 3) && |z| == 3
    ensures |r| == 6
  {
    var residual := VecSub(z, MatVec(Observation(), xPred, 3, 6));
    VecAdd(xPred, MatVec(k, residual, 6, 3))
  }

  /** P = (I − K·H)·P_pred. */
  function CorrectedCovariance(pPred: Matrix, k: Matrix): (r: Matrix)
    requires IsMatrix(pPred, 6, 6) && IsMatrix(k, 6, 3)
    ensures IsMatrix(r, 6, 6)
  {
    var kh := MatMul(k, Observation(), 6, 3, 6);
    MatMul(MatSub(ScaledIdentity(6, 1.0), kh, 6, 6), pPred, 6, 6, 6)
  }

  /** The part of a filter that persists between calls: state, covariance and the time of the last update. */
  datatype FilterState = FilterState(x: Vector, P: Matrix, lastTime: real)

  predicate WellFormed(s: FilterState)
  {
    |s.x| == 6 && IsMatrix(s.P, 6, 6)
  }

  /** The effect of `predict(t)` followed by `update(t, z)` on the persistent state. */
  function Correct(s: FilterState, t: real, z: Vector, invert: Matrix -> Option<Matrix>): (r: FilterState)
    requires WellFormed(s) && |z| == 3
    ensures WellFormed(r) && r.lastTime == t
  {
    var dt := t - s.lastTime;
    var xPred := PredictedState(s.x, dt);
    var pPred := PredictedCovariance(s.P, ProcessNoise(), dt);
    var k := Gain(pPred, invert(Innovation(pPred)));
    FilterState(CorrectedState(xPred, k, z), CorrectedCovariance(pPred, k), t)
  }

  /** Correcting is predicting to `t`, then updating that prediction with the gain it yields. */
  lemma CorrectFromPrediction(s: FilterState, t: real, z: Vector, invert: Matrix -> Option<Matrix>, xPred: Vector, pPred: Matrix)
    requires WellFormed(s) && |z| == 3
    requires xPred == PredictedState(s.x, t - s.lastTime)
    requires pPred == PredictedCovariance(s.P, ProcessNoise(), t - s.lastTime)
    ensures var k := Gain(pPred, invert(Innovation(pPred)));
      Correct(s, t, z, invert) == FilterState(CorrectedState(xPred, k, z), CorrectedCovariance(pPred, k), t)
  {
  }

  /**
   * When S cannot be inverted, predicting then updating ignores the
   * measurement: the state and covariance are the prediction's, each position
   * has moved by dt times its velocity, and the time still advances to `t`.
   */
  lemma SingularInnovationKeepsPrediction(s: FilterState, t: real, z: Vector, invert: Matrix -> Option<Matrix>)
    requires WellFormed(s) && |z| == 3
    requires invert(Innovation(PredictedCovariance(s.P, ProcessNoise(), t - s.lastTime))) == None
    ensures Correct(s, t, z, invert).x == PredictedState(s.x, t - s.lastTime)
    ensures Correct(s, t, z, invert).P == PredictedCovariance(s.P, ProcessNoise(), t - s.lastTime)
    ensures Correct(s, t, z, invert).lastTime == t
    ensures forall i :: 0 <= i < 3 ==> Correct(s, t, z, invert).x[i] == s.x[i] + (t - s.lastTime) * s.x[i + 3]
  {
    var dt := t - s.lastTime;
    var xPred, pPred := PredictedState(s.x, dt), PredictedCovariance(s.P, ProcessNoise(), dt);
    CorrectFromPrediction(s, t, z, invert, xPred, pPred);
    ZeroGainKeepsPrediction(xPred, pPred, z);
    assert Correct(s, t, z, invert) == FilterState(xPred, pPred, t);
    PredictionMovesPosition(s.x, dt);
  }

  /** Row `m` of the transition matrix picks component `m` and adds `dt` times component `m + 3` for a position row. */
  lemma TransitionRow(dt: real, m: nat, v: Vector)
    requires m < 6 && |v| == 6
    ensures Dot(Transition(dt)[m], v) == v[m] + (if m < 3 then dt * v[m + 3] else 0.0)
    ensures Dot(v, Transition(dt)[m]) == Dot(Transition(dt)[m], v)
  {
    var row := Transition(dt)[m];
    DotPair(row, v, m, if m < 3 then m + 3 else (m + 1) % 6);
    DotCommutes(v, row);
  }

  /** Prediction moves each position coordinate by `dt` times its velocity and keeps the velocity. */
  lemma {:induction false} PredictionMovesPosition(x: Vector, dt: real)
    requires |x| == 6
    ensures forall i :: 0 <= i < 3 ==> PredictedState(x, dt)[i] == x[i] + dt * x[i + 3]
    ensures forall i :: 3 <= i < 6 ==> PredictedState(x, dt)[i] == x[i]
  {
    var r := PredictedState(x, dt);
    forall m | 0 <= m < 6
      ensures m < 3 ==> r[m] == x[m] + dt * x[m + 3]
      ensures 3 <= m ==> r[m] == x[m]
    {
      assert r[m] == Dot(Transition(dt)[m], x);
      TransitionRow(dt, m, x);
    }
  }

  /** With zero velocity, prediction returns the last position whatever the time step. */
  lemma ZeroVelocityStaysPut(x: Vector, dt: real)
    requires |x| == 6 && x[3] == x[4] == x[5] == 0.0
    ensures PredictedState(x, dt) == x
  {
    PredictionMovesPosition(x, dt);
  }

  /** An entry of F·P·Fᵀ, written out from the sparsity of F. */
  lemma PropagatedEntry(p: Matrix, dt: real, i: nat, j: nat)
    requires IsMatrix(p, 6, 6) && i < 6 && j < 6
    ensures
      var f := Transition(dt);
      var fp := MatMul(f, p, 6, 6, 6);
      MatMul(fp, Transpose(f, 6, 6), 6, 6, 6)[i][j] ==
        p[i][j] + (if i < 3 then dt * p[i + 3][j] else 0.0) + (if j < 3 then dt * p[i][j + 3] else 0.0)
        + (if i < 3 && j < 3 then dt * (dt * p[i + 3][j + 3]) else 0.0)
  {
    var fp := MatMul(Transition(dt), p, 6, 6, 6);
    TransitionRight(fp, dt, i, j);
    TransitionLeft(p, dt, i, j);
    if j < 3 {
      TransitionLeft(p, dt, i, j + 3);
      if i < 3 {
        var x, y := p[i][j + 3], p[i + 3][j + 3];
        assert dt * (x + dt * y) == dt * x + dt * (dt * y);
      }
    }
  }

  /** F·P·Fᵀ is symmetric at (i, j) when P is symmetric. */
  lemma PropagatedSymmetric(p: Matrix, dt: real, i: nat, j: nat)
    requires IsMatrix(p, 6, 6) && Symmetric(p, 6) && i < 6 && j < 6
    ensures
      var f := Transition(dt);
      var fpf := MatMul(MatMul(f, p, 6, 6, 6), Transpose(f, 6, 6), 6, 6, 6);
      fpf[i][j] == fpf[j][i]
  {
    PropagatedEntry(p, dt, i, j);
    PropagatedEntry(p, dt, j, i);
    assert p[i][j] == p[j][i];
    if i < 3 {
      assert p[i + 3][j] == p[j][i + 3];
    }
    if j < 3 {
      assert p[i][j + 3] == p[j + 3][i];
    }
    if i < 3 && j < 3 {
      assert p[i + 3][j + 3] == p[j + 3][i + 3];
    }
  }

  /** An entry of M·Fᵀ: column `j` of M plus `dt` times column `j + 3` for a position column. */
  lemma TransitionRight(m: Matrix, dt: real, i: nat, j: nat)
    requires IsMatrix(m, 6, 6) && i < 6 && j < 6
    ensures MatMul(m, Transpose(Transition(dt), 6, 6), 6, 6, 6)[i][j] == m[i][j] + (if j < 3 then dt * m[i][j + 3] else 0.0)
  {
    var f := Transition(dt);
    assert Column(Transpose(f, 6, 6), 6, 6, j) == f[j];
    TransitionRow(dt, j, m[i]);
  }

  /** An entry of F·P: row `i` of P plus `dt` times row `i + 3` for a position row. */
  lemma TransitionLeft(p: Matrix, dt: real, i: nat, c: nat)
    requires IsMatrix(p, 6, 6) && i < 6 && c < 6
    ensures MatMul(Transition(dt), p, 6, 6, 6)[i][c] == p[i][c] + (if i < 3 then dt * p[i + 3][c] else 0.0)
  {
    TransitionRow(dt, i, Column(p, 6, 6, c));
  }

  /** Prediction keeps the covariance symmetric, because Q and the 0.1·I inflation are diagonal. */
  lemma PredictionKeepsSymmetry(p: Matrix, q: Matrix, dt: real)
    requires IsMatrix(p, 6, 6) && IsMatrix(q, 6, 6)
    requires Symmetric(p, 6) && Diagonal(q, 6)
    ensures Symmetric(PredictedCovariance(p, q, dt), 6)
  {
    var r := PredictedCovariance(p, q, dt);
    forall i, j | 0 <= i < 6 && 0 <= j < 6
      ensures r[i][j] == r[j][i]
    {
      PropagatedSymmetric(p, dt, i, j);
    }
  }

  /** When the inverse is unavailable the gain is zero and the correction keeps the prediction. */
  lemma ZeroGainKeepsPrediction(xPred: Vector, pPred: Matrix, z: Vector)
    requires |xPred| == 6 && IsMatrix(pPred, 6, 6) && |z| == 3
    ensures Gain(pPred, None) == Zero(6, 3)
    ensures CorrectedState(xPred, Gain(pPred, None), z) == xPred
    ensures CorrectedCovariance(pPred, Gain(pPred, None)) == pPred
  {
    var k := Zero(6, 3);
    var residual := VecSub(z, MatVec(Observation(), xPred, 3, 6));
    forall m | 0 <= m < 6
      ensures MatVec(k, residual, 6, 3)[m] == 0.0
    {
      DotZero(k[m], residual);
    }
    var kh := MatMul(k, Observation(), 6, 3, 6);
    forall m, c | 0 <= m < 6 && 0 <= c < 6
      ensures kh[m][c] == 0.0
    {
      DotZero(k[m], Column(Observation(), 3, 6, c));
    }
    var ikh := MatSub(ScaledIdentity(6, 1.0), kh, 6, 6);
    forall m | 0 <= m < 6
      ensures ikh[m] == ScaledIdentity(6, 1.0)[m]
    {
    }
    IdentityMul(pPred, 6, 6);
  }

  class KalmanFilter {
    const id: int
    var lastTime: real
    var x: Vector
    var P: Matrix
    const Q: Matrix := ProcessNoise()
    const R: Matrix := MeasurementNoise()
    const H: Matrix := Observation()
    var xPred: Vector
    var PPred: Matrix
    var F: Matrix

    ghost predicate Valid()
      reads this
    {
      && |x| == 6 && IsMatrix(P, 6, 6)
      && |xPred| == 6 && IsMatrix(PPred, 6, 6) && IsMatrix(F, 6, 6)
    }

    function State(): (s: FilterState)
      reads this`x, this`P, this`lastTime
    {
      FilterState(x, P, lastTime)
    }

    /** A filter at `startPos` with velocity `startVel`, last updated at `startTime`. */
    constructor (carId: int, startPos: Vector, startTime: real, startVel: Vector)
      requires |startPos| == 3 && |startVel| == 3
      ensures Valid()
      ensures id == carId && lastTime == startTime
      ensures x == startPos + startVel && P == InitialCovariance()
      ensures xPred == x && PPred == P
    {
      id := carId;
      lastTime := startTime;
      x := startPos + startVel;
      P := InitialCovariance();
      xPred := startPos + startVel;
      PPred := InitialCovariance();
      F := ScaledIdentity(6, 1.0);
    }

    /**
     * Predicts the state at time `t` into `xPred`/`PPred` and returns the
     * predicted position. The state `x`, `P` and `lastTime` stay as they are.
     */
    method Predict(t: real) returns (pos: Vector)
      requires Valid()
      modifies this`F, this`xPred, this`PPred
      ensures Valid()
      ensures F == Transition(t - lastTime)
      ensures xPred == PredictedState(x, t - lastTime)
      ensures PPred == PredictedCovariance(P, Q, t - lastTime)
      ensures pos == xPred[..3]
      ensures x == old(x) && P == old(P) && lastTime == old(lastTime)
    {
      var dt := t - lastTime;
      var f := Transition(dt);
      var xp := MatVec(f, x, 6, 6);
      var fpf := MatMul(MatMul(f, P, 6, 6, 6), Transpose(f, 6, 6), 6, 6, 6);
      var pp := MatAdd(fpf, Q, 6, 6);
      pp := MatAdd(pp, ScaledIdentity(6, 0.1), 6, 6);
      assert pp == PredictedCovariance(P, Q, dt);
      F, xPred, PPred := f, xp, pp;
      pos := xp[..3];
    }

    /**
     * Corrects the prediction with the measurement `z` taken at time `t`.
     * `invert` stands for `np.linalg.inv`; `None` is the exception it raises.
     */
    method Update(t: real, z: Vector, invert: Matrix -> Option<Matrix>)
      requires Valid() && |z| == 3
      modifies this`x, this`P, this`lastTime
      ensures Valid()
      ensures lastTime == t
      ensures x == CorrectedState(xPred, Gain(PPred, invert(Innovation(PPred))), z)
      ensures P == CorrectedCovariance(PPred, Gain(PPred, invert(Innovation(PPred))))
      ensures xPred == old(xPred) && PPred == old(PPred) && F == old(F)
    {
      var residual := VecSub(z, MatVec(H, xPred, 3, 6));
      var s := MatAdd(MatMul(MatMul(H, PPred, 3, 6, 6), Transpose(H, 3, 6), 3, 6, 3), R, 3, 3);
      var k: Matrix;
      var inv := invert(s);
      if inv.Some? && IsMatrix(inv.value, 3, 3) {
        k := MatMul(MatMul(PPred, Transpose(H, 3, 6), 6, 6, 3), inv.value, 6, 3, 3);
      } else {
        k := Zero(6, 3);
      }
      assert s == Innovation(PPred) && k == Gain(PPred, inv);
      var newX := VecAdd(xPred, MatVec(k, residual, 6, 3));
      var newP := MatMul(MatSub(ScaledIdentity(6, 1.0), MatMul(k, H, 6, 3, 6), 6, 6), PPred, 6, 6, 6);
      x, P, lastTime := newX, newP, t;
    }
  }
}
