/**
 * The timing models of the earlier revision. Parameters are stored exactly as
 * given, with no unit conversion; the binary velocity always uses the
 * eccentric formula; and the binary's list-building `evalulate` (so spelled)
 * does not override the inherited `evaluate`, which therefore hands the whole
 * epoch array to the binary's `period`.
 *
 * The records are the same `Pulsar` values as in the current revision: both
 * constructors only store their arguments.
 */
module EvolvedModels {
  import opened Wrappers
  import opened PyFloat
  import opened OrbitUtils
  import opened Pulsars
  import Models

  /** The eccentric formulas can be evaluated for a binary. */
  predicate OrbitDefined(n: Numerics, m: Pulsar) {
    m.Binary? ==> EccentricDefined(n, m.pb, m.ecc)
  }

  /** `BinaryPulsar.velocity`: the eccentric line-of-sight velocity at any
      eccentricity. */
  function Velocity(n: Numerics, m: Pulsar, t: real): (v: real)
    requires m.Binary? && OrbitDefined(n, m)
  {
    LosVelocity(n, m.pb, m.asini, m.t0, m.ecc, m.om, t)
  }

  /** `BinaryPulsar.acceleration`: the eccentric formula at any eccentricity. */
  function Acceleration(n: Numerics, m: Pulsar, t: real): (a: real)
    requires m.Binary? && OrbitDefined(n, m)
  {
    LosAcceleration(n, m.pb, m.asini, m.t0, m.ecc, m.om, t)
  }

  predicate PeriodDefined(n: Numerics, m: Pulsar, t: real) {
    m.Isolated? || (OrbitDefined(n, m) && C + Velocity(n, m, t) != 0.0)
  }

  /** `doppler_factor(epoch)`: `C / (C + v)`. */
  function DopplerFactor(n: Numerics, m: Pulsar, t: real): real
    requires m.Binary? && PeriodDefined(n, m, t)
  {
    C / (C + Velocity(n, m, t))
  }

  /** `period(epoch)`: the spin-down period `p0 + p1 (t - pepoch)`, which a
      binary scales so that the period times `C + v` is `C` times the spin
      period; with no line-of-sight motion that is the spin period itself. */
  function Period(n: Numerics, m: Pulsar, t: real): (p: real)
    requires PeriodDefined(n, m, t)
    ensures m.Isolated? ==> p == m.p0 + m.p1 * (t - m.pepoch)
    ensures m.Binary? ==> p * (C + Velocity(n, m, t)) == C * SpinDown(m.p0, m.p1, m.pepoch, t)
    ensures m.Binary? && Velocity(n, m, t) == 0.0 ==> p == SpinDown(m.p0, m.p1, m.pepoch, t)
  {
    var spin := m.p0 + m.p1 * (t - m.pepoch);
    if m.Isolated? then spin
    else
      var v := Velocity(n, m, t);
      DopplerShift(C, v, spin);
      spin * DopplerFactor(n, m, t)
  }

  predicate EvaluateDefined(n: Numerics, m: Pulsar, ts: seq<real>) {
    forall i :: 0 <= i < |ts| ==> PeriodDefined(n, m, ts[i])
  }

  /** The inherited array method cannot evaluate a binary: the epoch array
      reaches the scalar Kepler minimisation as an array of mean anomalies, so
      the objective handed to the minimiser is not a single number. */
  datatype EvaluateError = NonScalarObjective

  /** `IsolatedPulsar.evaluate(epochs)`, which the binary inherits because its
      own method is spelled `evalulate`: `period` applied once to the whole
      epoch array. Array arithmetic is element-wise, so an isolated pulsar
      gets one period per epoch. A binary passes the array on through
      `doppler_factor` and `los_velocity` to `eccentric_anomaly`, whose
      objective is then an array with one entry per epoch; only a one-epoch
      array leaves the minimiser a scalar to minimise. */
  function Evaluate(n: Numerics, m: Pulsar, ts: seq<real>): (r: Result<seq<real>, EvaluateError>)
    requires EvaluateDefined(n, m, ts)
    ensures m.Isolated? ==> r.Success?
    ensures m.Binary? ==> (r.Success? <==> |ts| == 1)
    ensures r.Success? ==> |r.value| == |ts|
    ensures r.Success? ==> forall i :: 0 <= i < |ts| ==> r.value[i] == Period(n, m, ts[i])
  {
    if m.Binary? && |ts| != 1 then Failure(NonScalarObjective)
    else Success(seq(|ts|, i requires 0 <= i < |ts| => Period(n, m, ts[i])))
  }

  /** `BinaryPulsar.evalulate(epochs)`: the periods collected one epoch at a
      time into a list, so every Kepler solve sees a single mean anomaly. This
      is the method the binary evidently meant to override `evaluate` with. */
  function Evalulate(n: Numerics, m: Pulsar, ts: seq<real>): (ps: seq<real>)
    requires m.Binary? && EvaluateDefined(n, m, ts)
    ensures |ps| == |ts|
    ensures forall i :: 0 <= i < |ts| ==> ps[i] == Period(n, m, ts[i])
  {
    if ts == [] then []
    else [Period(n, m, ts[0])] + Evalulate(n, m, ts[1..])
  }

  /** The misspelling matters: for a binary the inherited array method fails
      at any number of epochs other than one, where the list-building method
      returns one period per epoch; at a single epoch the two agree. */
  lemma MisspelledEvaluate(n: Numerics, m: Pulsar, ts: seq<real>)
    requires m.Binary? && EvaluateDefined(n, m, ts)
    ensures |ts| != 1 ==> Evaluate(n, m, ts) == Failure(NonScalarObjective)
    ensures |ts| != 1 ==> |Evalulate(n, m, ts)| == |ts|
    ensures |ts| == 1 ==> Evaluate(n, m, ts) == Success(Evalulate(n, m, ts))
  {
    if |ts| == 1 {
      assert Evaluate(n, m, ts).value == Evalulate(n, m, ts);
    }
  }

  /** The two epochs `0` and `1`: the inherited method fails, the intended one
      gives two periods. */
  lemma TwoEpochsDiffer(n: Numerics, m: Pulsar)
    requires m.Binary? && PeriodDefined(n, m, 0.0) && PeriodDefined(n, m, 1.0)
    ensures EvaluateDefined(n, m, [0.0, 1.0])
    ensures Evaluate(n, m, [0.0, 1.0]).Failure?
    ensures Evalulate(n, m, [0.0, 1.0]) == [Period(n, m, 0.0), Period(n, m, 1.0)]
  {
    var ts := [0.0, 1.0];
    assert forall i :: 0 <= i < |ts| ==> ts[i] == 0.0 || ts[i] == 1.0;
  }

  /** The binary period is exactly the orbit library's `period` with the
      stored parameters. */
  lemma PeriodIsLibraryPeriod(n: Numerics, m: Pulsar, t: real)
    requires m.Binary? && PeriodDefined(n, m, t)
    ensures Period(n, m, t) == OrbitUtils.Period(n, m.p0, m.p1, m.pb, m.asini, m.t0, m.ecc, m.om, t, m.pepoch)
  {
  }

  /** Across revisions: a binary of the earlier revision given its epochs and
      orbital period in seconds and its projected semi-major axis in metres is
      the binary the current revision builds from days and light-seconds, and
      for an orbit the current revision treats as eccentric both predict the
      same velocity and period. */
  lemma SameBinaryAcrossRevisions(n: Numerics, p0: real, p1: real, pepochDays: real, pbDays: real,
                                  asiniLightSec: real, t0Days: real, ecc: real, om: real, t: real)
    requires pbDays != 0.0 && Models.CIRCULAR_ECC <= ecc
    requires EccentricDefined(n, pbDays * DAY_2_SEC, ecc)
    ensures Binary(p0, p1, pepochDays * DAY_2_SEC, pbDays * DAY_2_SEC, asiniLightSec * C, t0Days * DAY_2_SEC, ecc, om)
         == Models.NewBinary(p0, p1, pepochDays, pbDays, asiniLightSec, t0Days, ecc, om)
    ensures Velocity(n, Models.NewBinary(p0, p1, pepochDays, pbDays, asiniLightSec, t0Days, ecc, om), t)
         == Models.Velocity(n, Models.NewBinary(p0, p1, pepochDays, pbDays, asiniLightSec, t0Days, ecc, om), t)
    ensures PeriodDefined(n, Models.NewBinary(p0, p1, pepochDays, pbDays, asiniLightSec, t0Days, ecc, om), t)
         == Models.PeriodDefined(n, Models.NewBinary(p0, p1, pepochDays, pbDays, asiniLightSec, t0Days, ecc, om), t)
  {
    var m := Models.NewBinary(p0, p1, pepochDays, pbDays, asiniLightSec, t0Days, ecc, om);
    assert m.pb != 0.0;
    assert !Models.IsCircular(m);
  }

  /** Where both revisions can evaluate an eccentric binary, they predict the
      same period. */
  lemma SamePeriodAcrossRevisions(n: Numerics, m: Pulsar, t: real)
    requires m.Binary? && Models.CIRCULAR_ECC <= m.ecc && m.pb != 0.0
    requires PeriodDefined(n, m, t)
    ensures Models.PeriodDefined(n, m, t)
    ensures Models.Period(n, m, t) == Period(n, m, t)
  {
    assert !Models.IsCircular(m);
    Models.PeriodMatchesOrbitLibrary(n, m, t);
  }

  /** The same stored isolated record predicts the same period in both
      revisions; the current revision stores the reference epoch given in days
      as the earlier revision's epoch in seconds. */
  lemma SameIsolatedPeriod(n: Numerics, p0: real, p1: real, pepochDays: real, t: real)
    ensures Models.NewIsolated(p0, p1, pepochDays) == Isolated(p0, p1, pepochDays * DAY_2_SEC)
    ensures Models.Period(n, Models.NewIsolated(p0, p1, pepochDays), t)
         == Period(n, Isolated(p0, p1, pepochDays * DAY_2_SEC), t)
    ensures p1 != 0.0 && pepochDays != 0.0 ==>
      Models.Period(n, Models.NewIsolated(p0, p1, pepochDays), t) != Period(n, Isolated(p0, p1, pepochDays), t)
  {
    if p1 != 0.0 && pepochDays != 0.0 {
      DifferentEpochs(p1, pepochDays, t);
    }
  }

  /** Epochs of `d` seconds and `d` days give different spin-down periods when
      the period changes. */
  lemma DifferentEpochs(p1: real, d: real, t: real)
    requires p1 != 0.0 && d != 0.0
    ensures p1 * (t - d * DAY_2_SEC) != p1 * (t - d)
  {
    assert p1 * (t - d * DAY_2_SEC) - p1 * (t - d) == p1 * d * (1.0 - DAY_2_SEC);
  }
}
