/**
 * Orbital kinematics of a binary pulsar: mean, eccentric and true anomaly,
 * line-of-sight velocity and acceleration for eccentric and circular orbits,
 * and the Doppler-shifted spin period.
 *
 * Sine, cosine, square root, two-argument arctangent and the scalar minimiser
 * used to solve Kepler's equation are not modelled: they are the fields of a
 * `Numerics` value that every member takes as a parameter, so nothing is
 * assumed about them.
 */
module OrbitUtils {
  import opened PyFloat

  /** Uninterpreted numerical primitives: numpy's sin, cos, sqrt, arctan2 and
      scipy's `minimize(f, x0)["x"][0]` for a scalar objective. */
  datatype Numerics = Numerics(
    sin: real -> real,
    cos: real -> real,
    sqrt: real -> real,
    atan2: (real, real) -> real,
    minimize: (real -> real, real) -> real)

  const PI: real := 3.141592653589793
  const TWOPI: real := PI * 2.0
  /** Speed of light in metres per second. */
  const C: real := 299792458.0
  const DAY_2_SEC: real := 86400.0

  /** Orbital phase angle since periapsis, reduced into one turn. */
  function MeanAnomaly(pb: real, t: real): (m: real)
    requires pb != 0.0
    ensures 0.0 <= m < TWOPI
  {
    FloorMod(Phase(pb, t), TWOPI)
  }

  /** The unreduced orbital phase angle `2*pi*t/pb`. */
  function Phase(pb: real, t: real): real
    requires pb != 0.0
  {
    TWOPI * t / pb
  }

  /** The mean anomaly is the phase angle less a whole number of turns. */
  lemma MeanAnomalyCongruent(pb: real, t: real)
    requires pb != 0.0
    ensures IsInteger((TWOPI * t / pb - MeanAnomaly(pb, t)) / TWOPI)
  {
    FloorModCongruent(Phase(pb, t), TWOPI);
  }

  lemma PhaseShift(pb: real, t: real, k: int)
    requires pb != 0.0
    ensures Phase(pb, t + (k as real) * pb) == Phase(pb, t) + (k as real) * TWOPI
  {
    var kr := k as real;
    assert TWOPI * (t + kr * pb) == TWOPI * t + (kr * TWOPI) * pb;
    DivDistributes(TWOPI * t, kr * TWOPI, pb);
  }

  /** One full orbit later the mean anomaly is the same. */
  lemma MeanAnomalyPeriodic(pb: real, t: real, k: int)
    requires pb != 0.0
    ensures MeanAnomaly(pb, t + (k as real) * pb) == MeanAnomaly(pb, t)
  {
    PhaseShift(pb, t, k);
    FloorModPeriodic(Phase(pb, t), TWOPI, k);
  }

  lemma DivDistributes(a: real, b: real, d: real)
    requires d != 0.0
    ensures (a + b * d) / d == a / d + b
  {
  }

  /** The objective handed to the minimiser: how far `E` is from solving
      Kepler's equation `M = E - ecc * sin E`. */
  function KeplerObjective(n: Numerics, M: real, ecc: real, E: real): (r: real)
    ensures 0.0 <= r
    ensures r == 0.0 <==> M == E - ecc * n.sin(E)
  {
    Abs(M - (E - ecc * n.sin(E)))
  }

  /** The eccentric anomaly is whatever the minimiser returns for the Kepler
      objective, started from 1.0; no convergence is claimed. */
  function EccentricAnomaly(n: Numerics, M: real, ecc: real): real
  {
    n.minimize((E: real) => KeplerObjective(n, M, ecc, E), 1.0)
  }

  function TrueAnomaly(n: Numerics, E: real, ecc: real): real
  {
    2.0 * n.atan2(n.sqrt(1.0 + ecc) * n.sin(E / 2.0), n.sqrt(1.0 - ecc) * n.cos(E / 2.0))
  }

  function TrueAnomalyFromOrbit(n: Numerics, pb: real, ecc: real, t: real): real
    requires pb != 0.0
  {
    var meanAnom := MeanAnomaly(pb, t);
    var eccAnom := EccentricAnomaly(n, meanAnom, ecc);
    TrueAnomaly(n, eccAnom, ecc)
  }

  /** The true anomaly is the eccentric-anomaly solve of the reduced mean
      anomaly, so it repeats every orbital period. */
  lemma TrueAnomalyPeriodic(n: Numerics, pb: real, ecc: real, t: real, k: int)
    requires pb != 0.0
    ensures TrueAnomalyFromOrbit(n, pb, ecc, t + (k as real) * pb) == TrueAnomalyFromOrbit(n, pb, ecc, t)
  {
    MeanAnomalyPeriodic(pb, t, k);
  }

  /** The eccentric-orbit formulas divide by `pb` and by `sqrt(1 - ecc^2)`. */
  predicate EccentricDefined(n: Numerics, pb: real, ecc: real) {
    pb != 0.0 && n.sqrt(1.0 - ecc * ecc) != 0.0
  }

  function LosVelocity(n: Numerics, pb: real, asini: real, t0: real, ecc: real, om: real, t: real): real
    requires EccentricDefined(n, pb, ecc)
  {
    var tp := t - t0;
    VelocityAtAnomaly(n, pb, asini, ecc, om, TrueAnomalyFromOrbit(n, pb, ecc, tp))
  }

  function VelocityAtAnomaly(n: Numerics, pb: real, asini: real, ecc: real, om: real, trueAnom: real): real
    requires EccentricDefined(n, pb, ecc)
  {
    var angle := n.cos(trueAnom + om) + ecc * n.cos(om);
    -(TWOPI / pb) * asini * angle / n.sqrt(1.0 - ecc * ecc)
  }

  function LosVelocityCirc(n: Numerics, pb: real, asini: real, t0: real, t: real): real
    requires pb != 0.0
  {
    CircularVelocityAtAnomaly(n, pb, asini, MeanAnomaly(pb, t - t0))
  }

  function CircularVelocityAtAnomaly(n: Numerics, pb: real, asini: real, meanAnom: real): real
    requires pb != 0.0
  {
    -(TWOPI / pb) * asini * n.cos(meanAnom)
  }

  function LosAcceleration(n: Numerics, pb: real, asini: real, t0: real, ecc: real, om: real, t: real): real
    requires EccentricDefined(n, pb, ecc)
  {
    var tp := t - t0;
    AccelerationAtAnomaly(n, pb, asini, ecc, om, TrueAnomalyFromOrbit(n, pb, ecc, tp))
  }

  function AccelerationAtAnomaly(n: Numerics, pb: real, asini: real, ecc: real, om: real, trueAnom: real): real
    requires EccentricDefined(n, pb, ecc)
  {
    var w := TWOPI / pb;
    var angle := n.sin(om + trueAnom) * ((1.0 + ecc * n.cos(trueAnom)) * (1.0 + ecc * n.cos(trueAnom)));
    (w * w) * asini * angle / n.sqrt(1.0 - ecc * ecc)
  }

  function LosAccelerationCirc(n: Numerics, pb: real, asini: real, t0: real, t: real): real
    requires pb != 0.0
  {
    CircularAccelerationAtAnomaly(n, pb, asini, MeanAnomaly(pb, t - t0))
  }

  function CircularAccelerationAtAnomaly(n: Numerics, pb: real, asini: real, meanAnom: real): real
    requires pb != 0.0
  {
    var w := TWOPI / pb;
    -(w * w) * asini * n.sin(meanAnom)
  }

  /** The spin-down period `p0 + p1 * (t - pepoch)`, before any Doppler shift. */
  function SpinDown(p0: real, p1: real, pepoch: real, t: real): (p: real)
    ensures t == pepoch ==> p == p0
  {
    p0 + p1 * (t - pepoch)
  }

  /** The apparent period for an eccentric orbit; defined when the velocity
      is not exactly minus the speed of light. */
  function Period(n: Numerics, p0: real, p1: real, pb: real, asini: real, t0: real, ecc: real, om: real, t: real, pepoch: real): (p: real)
    requires EccentricDefined(n, pb, ecc)
    requires C + LosVelocity(n, pb, asini, t0, ecc, om, t) != 0.0
    ensures p * (C + LosVelocity(n, pb, asini, t0, ecc, om, t)) == C * SpinDown(p0, p1, pepoch, t)
    ensures LosVelocity(n, pb, asini, t0, ecc, om, t) == 0.0 ==> p == SpinDown(p0, p1, pepoch, t)
  {
    var pActual := p0 + p1 * (t - pepoch);
    var velocity := LosVelocity(n, pb, asini, t0, ecc, om, t);
    DopplerShift(C, velocity, pActual);
    (C / (C + velocity)) * pActual
  }

  function PeriodCirc(n: Numerics, p0: real, p1: real, pb: real, asini: real, t0: real, t: real, pepoch: real): (p: real)
    requires pb != 0.0
    requires C + LosVelocityCirc(n, pb, asini, t0, t) != 0.0
    ensures p * (C + LosVelocityCirc(n, pb, asini, t0, t)) == C * SpinDown(p0, p1, pepoch, t)
    ensures LosVelocityCirc(n, pb, asini, t0, t) == 0.0 ==> p == SpinDown(p0, p1, pepoch, t)
  {
    var pActual := p0 + p1 * (t - pepoch);
    var velocity := LosVelocityCirc(n, pb, asini, t0, t);
    DopplerShift(C, velocity, pActual);
    (C / (C + velocity)) * pActual
  }

  lemma DopplerShift(c: real, v: real, p: real)
    requires c + v != 0.0
    ensures (c / (c + v)) * p * (c + v) == c * p
    ensures v == 0.0 && c != 0.0 ==> (c / (c + v)) * p == p
  {
    assert (c / (c + v)) * (c + v) == c;
    if v == 0.0 && c != 0.0 {
      assert c / (c + v) == 1.0;
    }
  }

  /** Velocity and acceleration repeat every orbital period, in both the
      eccentric and the circular formulas. */
  lemma OrbitPeriodic(n: Numerics, pb: real, asini: real, t0: real, ecc: real, om: real, t: real, k: int, t': real)
    requires pb != 0.0 && t' == t + (k as real) * pb
    ensures LosVelocityCirc(n, pb, asini, t0, t') == LosVelocityCirc(n, pb, asini, t0, t)
    ensures LosAccelerationCirc(n, pb, asini, t0, t') == LosAccelerationCirc(n, pb, asini, t0, t)
    ensures EccentricDefined(n, pb, ecc) ==>
      LosVelocity(n, pb, asini, t0, ecc, om, t') == LosVelocity(n, pb, asini, t0, ecc, om, t)
    ensures EccentricDefined(n, pb, ecc) ==>
      LosAcceleration(n, pb, asini, t0, ecc, om, t') == LosAcceleration(n, pb, asini, t0, ecc, om, t)
  {
    ShiftedSincePeriapsis(t, t0, (k as real) * pb);
    MeanAnomalyPeriodic(pb, t - t0, k);
    CircularPeriodic(n, pb, asini, t0, t, t');
    if EccentricDefined(n, pb, ecc) {
      TrueAnomalyPeriodic(n, pb, ecc, t - t0, k);
      EccentricPeriodic(n, pb, asini, t0, ecc, om, t, t');
    }
  }

  lemma ShiftedSincePeriapsis(t: real, t0: real, d: real)
    ensures (t + d) - t0 == (t - t0) + d
  {
  }

  lemma CircularPeriodic(n: Numerics, pb: real, asini: real, t0: real, t: real, t': real)
    requires pb != 0.0
    requires MeanAnomaly(pb, t' - t0) == MeanAnomaly(pb, t - t0)
    ensures LosVelocityCirc(n, pb, asini, t0, t') == LosVelocityCirc(n, pb, asini, t0, t)
    ensures LosAccelerationCirc(n, pb, asini, t0, t') == LosAccelerationCirc(n, pb, asini, t0, t)
  {
  }

  lemma EccentricPeriodic(n: Numerics, pb: real, asini: real, t0: real, ecc: real, om: real, t: real, t': real)
    requires EccentricDefined(n, pb, ecc)
    requires TrueAnomalyFromOrbit(n, pb, ecc, t' - t0) == TrueAnomalyFromOrbit(n, pb, ecc, t - t0)
    ensures LosVelocity(n, pb, asini, t0, ecc, om, t') == LosVelocity(n, pb, asini, t0, ecc, om, t)
    ensures LosAcceleration(n, pb, asini, t0, ecc, om, t') == LosAcceleration(n, pb, asini, t0, ecc, om, t)
  {
  }

  /** A pulsar whose orbit has zero projected size moves with no line-of-sight
      velocity, so its apparent period is its spin-down period. */
  lemma ZeroOrbitNoShift(n: Numerics, p0: real, p1: real, pb: real, t0: real, ecc: real, om: real, t: real, pepoch: real)
    requires pb != 0.0
    ensures LosVelocityCirc(n, pb, 0.0, t0, t) == 0.0
    ensures PeriodCirc(n, p0, p1, pb, 0.0, t0, t, pepoch) == SpinDown(p0, p1, pepoch, t)
    ensures EccentricDefined(n, pb, ecc) ==> LosVelocity(n, pb, 0.0, t0, ecc, om, t) == 0.0
    ensures EccentricDefined(n, pb, ecc) ==> Period(n, p0, p1, pb, 0.0, t0, ecc, om, t, pepoch) == SpinDown(p0, p1, pepoch, t)
  {
  }

  /** At zero eccentricity, when the eccentric branch's true anomaly points the
      same way as the circular branch's mean anomaly and `sqrt(1) = 1`, the two
      velocity formulas agree but the two acceleration formulas have opposite
      signs. */
  lemma CircularBranchSigns(n: Numerics, pb: real, asini: real, t0: real, om: real, t: real)
    requires pb != 0.0 && n.sqrt(1.0) == 1.0
    requires n.cos(TrueAnomalyFromOrbit(n, pb, 0.0, t - t0) + om) == n.cos(MeanAnomaly(pb, t - t0))
    requires n.sin(om + TrueAnomalyFromOrbit(n, pb, 0.0, t - t0)) == n.sin(MeanAnomaly(pb, t - t0))
    ensures LosVelocity(n, pb, asini, t0, 0.0, om, t) == LosVelocityCirc(n, pb, asini, t0, t)
    ensures LosAcceleration(n, pb, asini, t0, 0.0, om, t) == -LosAccelerationCirc(n, pb, asini, t0, t)
  {
  }
}
