/**
 * The timing models of the current revision: an isolated pulsar whose period
 * drifts linearly from a reference epoch, and a binary pulsar whose period is
 * in addition Doppler shifted by its line-of-sight orbital velocity.
 *
 * The constructors take epochs and orbital periods in days and the projected
 * semi-major axis in light-seconds, and store them in seconds and metres.
 * Orbits with eccentricity below `CIRCULAR_ECC` use the circular formulas.
 */
module Models {
  import opened PyFloat
  import opened OrbitUtils
  import opened Pulsars

  /** Below this eccentricity an orbit is treated as circular. */
  const CIRCULAR_ECC: real := 0.000001

  /** `IsolatedPulsar(p0, p1, pepoch)` with `pepoch` in days. */
  function NewIsolated(p0: real, p1: real, pepochDays: real): (m: Pulsar)
    ensures m.Isolated? && m.p0 == p0 && m.p1 == p1
    ensures m.pepoch / DAY_2_SEC == pepochDays
  {
    Isolated(p0, p1, pepochDays * DAY_2_SEC)
  }

  /** `BinaryPulsar(...)` with `pepoch`, `pb` and `t0` in days and `asini` in
      light-seconds; eccentricity and longitude of periastron are kept. */
  function NewBinary(p0: real, p1: real, pepochDays: real, pbDays: real, asiniLightSec: real, t0Days: real, ecc: real, om: real): (m: Pulsar)
    ensures m.Binary? && m.p0 == p0 && m.p1 == p1 && m.ecc == ecc && m.om == om
    ensures m.pepoch / DAY_2_SEC == pepochDays
    ensures m.pb / DAY_2_SEC == pbDays && m.t0 / DAY_2_SEC == t0Days
    ensures m.asini / C == asiniLightSec
  {
    Binary(p0, p1, pepochDays * DAY_2_SEC, pbDays * DAY_2_SEC, asiniLightSec * C, t0Days * DAY_2_SEC, ecc, om)
  }

  predicate IsCircular(m: Pulsar)
    requires m.Binary?
  {
    m.ecc < CIRCULAR_ECC
  }

  /** The orbit formulas the model selects can be evaluated: the orbital
      period is not zero and, for an eccentric orbit, neither is
      `sqrt(1 - ecc^2)`. */
  predicate OrbitDefined(n: Numerics, m: Pulsar) {
    m.Binary? ==> m.pb != 0.0 && (IsCircular(m) || EccentricDefined(n, m.pb, m.ecc))
  }

  /** `BinaryPulsar.velocity`: the circular formula exactly when the
      eccentricity is below the threshold, the eccentric one otherwise. */
  function Velocity(n: Numerics, m: Pulsar, t: real): (v: real)
    requires m.Binary? && OrbitDefined(n, m)
    ensures IsCircular(m) ==> v == LosVelocityCirc(n, m.pb, m.asini, m.t0, t)
    ensures !IsCircular(m) ==> v == LosVelocity(n, m.pb, m.asini, m.t0, m.ecc, m.om, t)
  {
    if m.ecc < CIRCULAR_ECC then LosVelocityCirc(n, m.pb, m.asini, m.t0, t)
    else LosVelocity(n, m.pb, m.asini, m.t0, m.ecc, m.om, t)
  }

  /** `BinaryPulsar.acceleration`, dispatched on the same threshold. */
  function Acceleration(n: Numerics, m: Pulsar, t: real): (a: real)
    requires m.Binary? && OrbitDefined(n, m)
    ensures IsCircular(m) ==> a == LosAccelerationCirc(n, m.pb, m.asini, m.t0, t)
    ensures !IsCircular(m) ==> a == LosAcceleration(n, m.pb, m.asini, m.t0, m.ecc, m.om, t)
  {
    if m.ecc < CIRCULAR_ECC then LosAccelerationCirc(n, m.pb, m.asini, m.t0, t)
    else LosAcceleration(n, m.pb, m.asini, m.t0, m.ecc, m.om, t)
  }

  /** `doppler_factor(t)`, the factor `C / (C + v)` at the velocity at `t`. */
  function DopplerFactor(n: Numerics, m: Pulsar, t: real): real
    requires m.Binary? && OrbitDefined(n, m)
    requires C + Velocity(n, m, t) != 0.0
  {
    var v := Velocity(n, m, t);
    C / (C + v)
  }

  /** The Doppler factor is the one factor that turns `C + v` back into `C`,
      and it is 1 exactly when the pulsar is not moving along the line of
      sight. */
  lemma DopplerFactorMeaning(n: Numerics, m: Pulsar, t: real)
    requires m.Binary? && OrbitDefined(n, m)
    requires C + Velocity(n, m, t) != 0.0
    ensures DopplerFactor(n, m, t) * (C + Velocity(n, m, t)) == C
    ensures DopplerFactor(n, m, t) == 1.0 <==> Velocity(n, m, t) == 0.0
  {
    var v := Velocity(n, m, t);
    FactorOfVelocity(v, DopplerFactor(n, m, t));
  }

  lemma FactorOfVelocity(v: real, f: real)
    requires C + v != 0.0 && f == C / (C + v)
    ensures f * (C + v) == C
    ensures f == 1.0 <==> v == 0.0
  {
    assert f * (C + v) == C;
    assert f == 1.0 ==> C + v == C;
  }

  /** The apparent period can be computed at `t`: always for an isolated
      pulsar, and for a binary when the orbit formulas are defined and the
      velocity is not minus the speed of light. */
  predicate PeriodDefined(n: Numerics, m: Pulsar, t: real) {
    m.Isolated? || (OrbitDefined(n, m) && C + Velocity(n, m, t) != 0.0)
  }

  /** `period(t)`: the spin-down period, times the Doppler factor for a binary. */
  function Period(n: Numerics, m: Pulsar, t: real): (p: real)
    requires PeriodDefined(n, m, t)
    ensures m.Isolated? ==> p == SpinDown(m.p0, m.p1, m.pepoch, t)
    ensures m.Binary? ==> p * (C + Velocity(n, m, t)) == C * SpinDown(m.p0, m.p1, m.pepoch, t)
    ensures m.Binary? && Velocity(n, m, t) == 0.0 ==> p == SpinDown(m.p0, m.p1, m.pepoch, t)
  {
    var spin := SpinDown(m.p0, m.p1, m.pepoch, t);
    if m.Isolated? then spin
    else
      DopplerShift(C, Velocity(n, m, t), spin);
      spin * DopplerFactor(n, m, t)
  }

  predicate EvaluateDefined(n: Numerics, m: Pulsar, ts: seq<real>) {
    forall i :: 0 <= i < |ts| ==> PeriodDefined(n, m, ts[i])
  }

  /** `evaluate(epochs)`: one period per epoch, in the order of the epochs. */
  function Evaluate(n: Numerics, m: Pulsar, ts: seq<real>): (ps: seq<real>)
    requires EvaluateDefined(n, m, ts)
    ensures |ps| == |ts|
    ensures forall i :: 0 <= i < |ts| ==> ps[i] == Period(n, m, ts[i])
  {
    if ts == [] then []
    else [Period(n, m, ts[0])] + Evaluate(n, m, ts[1..])
  }

  /** The binary period is the same Doppler-shifted spin-down period that the
      orbit library computes, with the library's circular or eccentric formula
      picked by the eccentricity threshold. */
  lemma PeriodMatchesOrbitLibrary(n: Numerics, m: Pulsar, t: real)
    requires m.Binary? && PeriodDefined(n, m, t)
    ensures IsCircular(m) ==>
      Period(n, m, t) == PeriodCirc(n, m.p0, m.p1, m.pb, m.asini, m.t0, t, m.pepoch)
    ensures !IsCircular(m) ==>
      Period(n, m, t) == OrbitUtils.Period(n, m.p0, m.p1, m.pb, m.asini, m.t0, m.ecc, m.om, t, m.pepoch)
  {
  }

  /** An isolated pulsar built with reference epoch `d` days has period `p0`
      at `d` days expressed in seconds. */
  lemma IsolatedPeriodAtReferenceEpoch(n: Numerics, p0: real, p1: real, d: real)
    ensures Period(n, NewIsolated(p0, p1, d), d * DAY_2_SEC) == p0
  {
  }

  /** A binary whose orbit has zero projected size predicts the same periods
      as the isolated pulsar with its spin parameters. */
  lemma ZeroOrbitIsIsolated(n: Numerics, m: Pulsar, t: real)
    requires m.Binary? && OrbitDefined(n, m) && m.asini == 0.0
    ensures PeriodDefined(n, m, t)
    ensures Period(n, m, t) == Period(n, Isolated(m.p0, m.p1, m.pepoch), t)
  {
    ZeroOrbitNoShift(n, m.p0, m.p1, m.pb, m.t0, m.ecc, m.om, t, m.pepoch);
  }

  /** The Doppler factor repeats every orbital period: at `t'`, a whole
      number `k` of orbits after `t`, it has the same value. */
  lemma DopplerFactorPeriodic(n: Numerics, m: Pulsar, t: real, k: int, t': real)
    requires m.Binary? && OrbitDefined(n, m)
    requires t' == t + (k as real) * m.pb
    requires C + Velocity(n, m, t) != 0.0
    ensures C + Velocity(n, m, t') != 0.0
    ensures DopplerFactor(n, m, t') == DopplerFactor(n, m, t)
  {
    VelocityPeriodic(n, m, t, k, t');
  }

  /** The velocity repeats every orbital period, in either branch. */
  lemma VelocityPeriodic(n: Numerics, m: Pulsar, t: real, k: int, t': real)
    requires m.Binary? && OrbitDefined(n, m)
    requires t' == t + (k as real) * m.pb
    ensures Velocity(n, m, t') == Velocity(n, m, t)
  {
    OrbitPeriodic(n, m.pb, m.asini, m.t0, m.ecc, m.om, t, k, t');
  }

  /** The acceleration repeats every orbital period, in either branch. */
  lemma AccelerationPeriodic(n: Numerics, m: Pulsar, t: real, k: int, t': real)
    requires m.Binary? && OrbitDefined(n, m)
    requires t' == t + (k as real) * m.pb
    ensures Acceleration(n, m, t') == Acceleration(n, m, t)
  {
    OrbitPeriodic(n, m.pb, m.asini, m.t0, m.ecc, m.om, t, k, t');
  }
}
