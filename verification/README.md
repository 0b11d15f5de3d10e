# pyorbit timing models, par files, fitter and initial guesses in Dafny

pyorbit fits the apparent spin period of a binary pulsar observed at a series
of epochs. This project models the layer around its numerics over Dafny `real`:

- **Timing models.** An isolated pulsar has spin period `p0 + p1 (t - pepoch)`.
  A binary pulsar multiplies that by the Doppler factor `C / (C + v)`. Here
  `v` is the line-of-sight velocity of a circular orbit when the eccentricity
  is below `1e-6`, and of an eccentric orbit otherwise. The constructors
  convert days to seconds and light-seconds to metres.
- **Orbit library.** This covers:
  - the mean anomaly reduced modulo 2π;
  - the Kepler objective;
  - the composition that gives the true anomaly;
  - the circular and eccentric line-of-sight velocity and acceleration;
  - the apparent period.
- **Par files.** The reader splits lines into whitespace-separated words and
  builds a last-one-wins dictionary. It then applies the precedence rules:
  `P0` before `1/F0`, and `P1` before `-p0² F1`. Missing keys read as zero,
  and the presence of `BINARY` makes the pulsar a binary. The writer divides
  by the same unit constants, so reading a written file gives back the same
  pulsar.
- **The fitter** is a small state machine:
  - a stack of snapshots, pushed by `optimize` and popped by `revert`;
  - a parameter vector read in `params_to_fit` order and written back by `zip`;
  - element-wise residuals and a chi-square fitness.
- **The guesser.**
  - `guess_p0` returns the midpoint of the observed periods.
  - `roughness` and `simple_roughness` fold the epochs by a trial orbital
    period, sort by phase and sum the squared differences.
  - `guess_pb` returns the first trial period of least roughness on a grid
    that is even in frequency.
- **The earlier revision** (`fitorbit_evolved`). Its models store their
  parameters unconverted and always use the eccentric orbit. Its binary
  list-building method is misspelled `evalulate`, so a binary inherits the
  array `evaluate`. Its `SimpleFitter` takes the models as arguments.

Modelling choices:

- The sine, cosine, square root, arctangent and the scalar minimiser of the
  orbit library are the uninterpreted fields of a `Numerics` record. Every
  orbital statement therefore holds whatever those functions return.
- The vector minimiser of the fitter is a parameter of `Fitting.Optimize`.
- Python's float `%` is `PyFloat.FloorMod`, whose remainder takes the sign of
  the divisor.
- Errors the source raises are values: a `ParError` from the reader, a
  `FitError` from the fitter, a `GuessError` from the guesser, and a
  `ShapeError` from the earlier fitter.
- Divisions the source performs without a guard are preconditions
  (`…Defined` predicates). At those points the source would produce IEEE
  infinities or raise.

Modules:

| file | module | covers |
|---|---|---|
| wrappers.dfy | Wrappers | `Option`, `Result` |
| pyfloat.dfy | PyFloat | Python's float `%`, squares, sums |
| orbit_utils.dfy | OrbitUtils | fitorbit_evolved/utils.py |
| timing.dfy | Timing | observation records and the chi-square |
| pulsars.dfy | Pulsars | the pulsar record and attribute access (`getattr`, `setattr`, `__dict__.update`) |
| pyorbit_models.dfy | Models | pyorbit/models.py: the pulsar classes |
| par_file.dfy | ParFile | pyorbit/models.py: `read_par_file`, `write_par_file` |
| pyorbit_fitter.dfy | Fitting | pyorbit/fitter.py |
| guesser.dfy | Guesser | pyorbit/core/guesser.py |
| evolved_models.dfy | EvolvedModels | fitorbit_evolved/models.py |
| evolved_fitter.dfy | EvolvedFitting | fitorbit_evolved/fitter.py |

## Model

| member | source | states |
|---|---|---|
| PyFloat.FloorMod | fitorbit_evolved/utils.py:34 | Python's `%` on floats: for a positive divisor the remainder lies in [0, m); for a negative one it lies in (m, 0] |
| PyFloat.FloorModCongruent | fitorbit_evolved/utils.py:34 | the remainder differs from the dividend by an integer multiple of the divisor |
| PyFloat.FloorModPeriodic | pyorbit/core/guesser.py:19 | adding any integer multiple of the divisor leaves the remainder unchanged |
| PyFloat.SumNonNegative | pyorbit/fitter.py:23 | the sum of non-negative terms is non-negative, and it is zero exactly when every term is zero |
| PyFloat.SquareSign | pyorbit/fitter.py:23 | a square is non-negative and is zero only for zero |
| OrbitUtils.MeanAnomaly | fitorbit_evolved/utils.py:22-34 | the mean anomaly lies in [0, 2π) |
| OrbitUtils.MeanAnomalyCongruent | fitorbit_evolved/utils.py:34 | the reduced anomaly differs from `2π t / pb` by a whole number of turns |
| OrbitUtils.MeanAnomalyPeriodic | fitorbit_evolved/utils.py:34 | shifting `t` by any whole number of orbital periods leaves the mean anomaly unchanged |
| OrbitUtils.PhaseShift | fitorbit_evolved/utils.py:34 | shifting `t` by k periods adds k turns to the unreduced phase |
| OrbitUtils.KeplerObjective | fitorbit_evolved/utils.py:49 | the objective `abs(M - (E - e sin E))` is non-negative, and zero exactly when E solves Kepler's equation |
| OrbitUtils.TrueAnomalyPeriodic | fitorbit_evolved/utils.py:66-83 | the true anomaly, composed from the mean and eccentric anomalies, repeats after any whole number of orbital periods |
| OrbitUtils.SpinDown | fitorbit_evolved/utils.py:178 | the spin-down period at the reference epoch is `p0` |
| OrbitUtils.Period | fitorbit_evolved/utils.py:163-181 | the apparent period times `C + v`, with `v` the eccentric velocity, is `C` times the spin-down period, so it is the Doppler-shifted spin-down period; at `v = 0` it is the spin-down period |
| OrbitUtils.PeriodCirc | fitorbit_evolved/utils.py:183-199 | the apparent period times `C + v`, with `v` the circular velocity, is `C` times the spin-down period; at `v = 0` it is the spin-down period |
| OrbitUtils.DopplerShift | fitorbit_evolved/utils.py:180 | the Doppler-shifted period times `C + v` is `C` times the intrinsic period, and the shift is the identity at `v = 0` |
| OrbitUtils.OrbitPeriodic | fitorbit_evolved/utils.py:86-160 | all four line-of-sight velocity and acceleration formulas repeat after any whole number of orbital periods |
| OrbitUtils.CircularPeriodic | fitorbit_evolved/utils.py:107-121 | the circular velocity and acceleration depend on the epoch only through the mean anomaly since periapsis |
| OrbitUtils.EccentricPeriodic | fitorbit_evolved/utils.py:86-104 | the eccentric velocity and acceleration depend on the epoch only through the true anomaly since periapsis |
| OrbitUtils.ZeroOrbitNoShift | fitorbit_evolved/utils.py:101-121 | with a zero semi-major axis both velocities vanish and both period formulas give the spin-down period |
| OrbitUtils.CircularBranchSigns | fitorbit_evolved/utils.py:125-160 | at zero eccentricity, with the true anomaly equal to the mean anomaly, the two velocity formulas agree but the two acceleration formulas have opposite signs |
| Timing.ChiSquare | pyorbit/fitter.py:21-23 | `Σ (resid/perr)²` is non-negative, and zero exactly when every residual is zero |
| Pulsars.Get | pyorbit/fitter.py:31 | `getattr` succeeds exactly for the numeric attributes this kind of pulsar carries |
| Pulsars.Set | pyorbit/fitter.py:33 | `setattr` keeps the kind, sets the named attribute, and changes no other attribute |
| Pulsars.Extensionality | pyorbit/models.py:5-23 | two pulsars of the same kind that agree on every attribute are equal |
| Pulsars.SetOwnValue | pyorbit/fitter.py:33 | writing an attribute's own value back changes nothing |
| Pulsars.Extract | pyorbit/fitter.py:31 | reading succeeds exactly when every name is an attribute; it returns the values in name order, or fails at the first unknown name |
| Pulsars.Zip | pyorbit/fitter.py:13 | `zip` pairs names with values up to the shorter length |
| Pulsars.ToDict | pyorbit/fitter.py:13 | the keys of `dict(pairs)` are exactly the names that occur in the pairs |
| Pulsars.ToDictDistinct | pyorbit/fitter.py:13 | with distinct names each key maps to its own value |
| Pulsars.ToDictLast | pyorbit/fitter.py:13 | every key maps to the value of the last pair with that name |
| Pulsars.UpdateGet | pyorbit/fitter.py:14 | after `__dict__.update(d)` an attribute holds `d`'s value when `d` has that key, and its old value otherwise |
| Pulsars.SetAfterUpdate | pyorbit/fitter.py:33 | a `setattr` after an update is the update with that key added |
| Pulsars.AssignIsUpdate | pyorbit/fitter.py:33 | writing pairs one `setattr` at a time is the same as updating with `dict(pairs)` |
| Pulsars.AssignZip | pyorbit/fitter.py:33 | write-back over distinct names sets each named attribute to its value and leaves every other attribute unchanged |
| Pulsars.AssignExtract | pyorbit/fitter.py:31-33 | writing back the vector just read leaves the pulsar unchanged |
| Pulsars.ExtractAssign | pyorbit/fitter.py:31-33 | reading back the attributes just written over distinct known names gives the written vector |
| Models.NewIsolated | pyorbit/models.py:5-8 | the reference epoch is stored in seconds and converts back to the days given |
| Models.NewBinary | pyorbit/models.py:17-23 | the orbital period, epochs and semi-major axis are stored in seconds and metres and convert back to the values given; eccentricity and periastron are stored as given |
| Models.Velocity | pyorbit/models.py:25-29 | the circular formula is used exactly when `ecc < 0.000001`, and the eccentric formula otherwise |
| Models.Acceleration | pyorbit/models.py:31-35 | the same eccentricity threshold selects the circular or the eccentric acceleration |
| Models.DopplerFactorMeaning | pyorbit/models.py:43-45 | the Doppler factor times `C + v` is `C`, and the factor is 1 exactly when `v = 0` |
| Models.Period | pyorbit/models.py:10-45 | the isolated period is the spin-down period; the binary period times `C + v` is `C` times the spin-down period (the spin-down period times the Doppler factor), and equals it when `v = 0` |
| Models.PeriodMatchesOrbitLibrary | pyorbit/models.py:37-38 | the binary period is the orbit library's `period_circ` or `period` under the same eccentricity threshold |
| Models.Evaluate | pyorbit/models.py:13-14 | `evaluate` returns one period per epoch, in epoch order |
| Models.IsolatedPeriodAtReferenceEpoch | pyorbit/models.py:8-11 | a pulsar built with reference epoch d days has period `p0` at d·86400 seconds |
| Models.ZeroOrbitIsIsolated | pyorbit/models.py:37-45 | a binary with zero semi-major axis predicts the same period as the isolated pulsar with its spin parameters |
| Models.DopplerFactorPeriodic | pyorbit/models.py:43-45 | the Doppler factor repeats after any whole number of orbital periods |
| Models.VelocityPeriodic | pyorbit/models.py:25-29 | the velocity repeats after any whole number of orbital periods in either branch |
| Models.AccelerationPeriodic | pyorbit/models.py:31-35 | the acceleration repeats after any whole number of orbital periods in either branch |
| ParFile.WordLength | pyorbit/models.py:52 | the first word ends at the first whitespace character or at the end of the line |
| ParFile.Split | pyorbit/models.py:52 | `split()` yields non-empty words without whitespace |
| ParFile.SplitLine | pyorbit/models.py:52-57 | a printed `key value` line splits back into exactly its key and its value |
| ParFile.BuildPar | pyorbit/models.py:50-57 | a key is in the dictionary exactly when some line has at least two words and starts with it |
| ParFile.BuildParLast | pyorbit/models.py:55-57 | a key maps to the second word of the last line that assigns it; lines with fewer than two words and extra words are ignored |
| ParFile.Number | pyorbit/models.py:60 | `float` of a present key succeeds exactly when its text parses, and otherwise fails with a `ValueError` naming the key |
| ParFile.NumberOrZero | pyorbit/models.py:74-81 | a missing key reads as 0.0; a present key is parsed |
| ParFile.SpinPeriod | pyorbit/models.py:59-64 | `P0` is used when present; otherwise a parsable non-zero `F0` succeeds with the period whose product with `F0` is 1, a zero `F0` raises `ZeroDivisionError` and an unparsable one `ValueError`; otherwise the period is 0.0 |
| ParFile.SpinPeriodDerivative | pyorbit/models.py:66-72 | `P1` is used when present; otherwise a parsable `F1` succeeds with `-p0² F1` and an unparsable one raises `ValueError`; otherwise the derivative is 0.0 |
| ParFile.FromPar | pyorbit/models.py:59-84 | reading succeeds exactly when the spin values, `PEPOCH` and, for a binary, every orbital key read; a `P0`/`F0` error, then a `P1`/`F1` error, is the error of the read, an unparsable `PEPOCH` is next, and any later failure is a `ValueError`. The result is a binary exactly when `BINARY` is present; `p0` and `p1` follow the precedence rules; `PEPOCH`, `PB` and `T0` are scaled by the constructors (lines 5-23) from days to seconds, `A1` from light-seconds to metres, and `ECC` and `OM` are kept |
| ParFile.FromParOrbitError | pyorbit/models.py:76-81 | a binary whose spin values and epoch read fails with the `ValueError` of the first orbital key, in the order `PB`, `A1`, `T0`, `OM`, `ECC`, whose value does not parse |
| ParFile.FromParDefaults | pyorbit/models.py:63-81 | every field whose keys are absent reads as 0.0 |
| ParFile.ReadParFile | pyorbit/models.py:48-84 | a file yields a binary exactly when some line assigns `BINARY` |
| ParFile.ReadParFileLastLine | pyorbit/models.py:51-84 | each field read from a file is the parsed second word of the last line assigning its key, converted to the stored units |
| ParFile.WriteParFile | pyorbit/models.py:86-98 | three lines for an isolated pulsar and nine for a binary |
| ParFile.ParOfLines | pyorbit/models.py:51-57 | lines `key value` with distinct keys read back as the dictionary from those keys to those values |
| ParFile.SpinReadBack | pyorbit/models.py:59-74 | the written `P0`, `P1` and `PEPOCH` read back as the pulsar's spin parameters |
| ParFile.ReadWrite | pyorbit/models.py:48-98 | reading a written file gives back the same pulsar, when the number printer and parser are inverse on the written values |
| ParFile.ReadWriteIsolated | pyorbit/models.py:84-90 | the round trip for an isolated pulsar |
| ParFile.ReadWriteBinary | pyorbit/models.py:76-98 | the round trip for a binary pulsar, where the unit divisions on writing undo the multiplications on reading |
| ParFile.FromParIsolated | pyorbit/models.py:59-84 | a dictionary with the printed spin values and no `BINARY` reads as the isolated pulsar |
| ParFile.FromParBinary | pyorbit/models.py:59-82 | a dictionary with all printed binary values reads as the binary pulsar |
| Fitting.Residuals | pyorbit/fitter.py:17-19 | one residual per observation: observed period minus the model's period at that epoch |
| Fitting.Fitness | pyorbit/fitter.py:21-23 | the fitness is non-negative, and zero exactly when the model predicts every observed period |
| Fitting.Trial | pyorbit/fitter.py:12-14 | a trial update keeps the kind of pulsar |
| Fitting.TrialWrites | pyorbit/fitter.py:12-14 | a trial sets the first min(#names, #values) named attributes to their values and leaves every other attribute unchanged |
| Fitting.Func | pyorbit/fitter.py:12-15 | the objective is defined exactly when every error is non-zero and the trial model can be evaluated at every epoch; it is then the fitness of the trial model, so non-negative and zero exactly when the trial model predicts every observed period |
| Fitting.Optimize | pyorbit/fitter.py:28-33 | empty `params_to_fit` fails the assertion with nothing changed. Otherwise exactly one snapshot of the pre-fit model is pushed and the data and names are kept. An unknown name raises at the first such name with the model unchanged. Success means every name was readable, and the committed model is the pre-fit model with the minimiser's vector written back by name |
| Fitting.OptimizeAsWritten | pyorbit/fitter.py:12-33 | as written, `optimize` always raises and never changes the model. With names set it has pushed the snapshot, and when every name is readable the error is the missing `_model` attribute |
| Fitting.OptimizeAsWrittenDiffers | pyorbit/fitter.py:14 | for any readable non-empty names, the code as written raises `AttributeError('_model')` where the intended fit commits the minimiser's vector |
| Fitting.Revert | pyorbit/fitter.py:25-26 | an empty history raises `IndexError` with nothing changed; otherwise the last snapshot becomes the model, it is removed from the history, and the data and names are kept |
| Fitting.OptimizeThenRevert | pyorbit/fitter.py:25-33 | optimizing and then reverting restores the fitter exactly |
| Fitting.OptimizeCommitsSolution | pyorbit/fitter.py:31-33 | over distinct names, the committed model reads back as the minimiser's vector and equals the trial model for that vector |
| Fitting.WriteBackOverridesTrial | pyorbit/fitter.py:13-14 | the write-back gives the same model whether or not earlier trials have already updated it |
| Guesser.MinP0 | pyorbit/core/guesser.py:14 | `p0.min()` is an observed period and no observed period is smaller |
| Guesser.MaxP0 | pyorbit/core/guesser.py:14 | `p0.max()` is an observed period and no observed period is larger |
| Guesser.GuessP0 | pyorbit/core/guesser.py:12-14 | the guess exists exactly for non-empty data (otherwise `ValueError`), lies in [min, max] and is equidistant from both |
| Guesser.Fold | pyorbit/core/guesser.py:18-19 | each epoch is replaced by its remainder modulo `pb`, which differs from it by whole periods and lies in [0, pb) for positive `pb`; the other fields are kept |
| Guesser.Sort | pyorbit/core/guesser.py:20 | the sort yields a phase-ordered permutation of its input |
| Guesser.SortedUnique | pyorbit/core/guesser.py:20 | only one ordering of a collection of records is sorted, so the sort is determined by its input |
| Guesser.PhaseOrder | pyorbit/core/guesser.py:18-20 | fold then sort yields the folded records in phase order |
| Guesser.SimpleRoughness | pyorbit/core/guesser.py:26-30 | the simple roughness is non-negative, and zero exactly when consecutive periods in phase order are equal |
| Guesser.Roughness | pyorbit/core/guesser.py:17-24 | with `s ≠ 0` the roughness is defined, non-negative, and zero exactly when consecutive periods in phase order are equal |
| Guesser.SmoothingSeparates | pyorbit/core/guesser.py:24 | a non-zero smoothing constant keeps every denominator positive |
| Guesser.RoughnessZero | pyorbit/core/guesser.py:17-30 | both measures are zero exactly when every observation has the same period |
| Guesser.RoughnessShift | pyorbit/core/guesser.py:19 | shifting each epoch by its own whole number of trial periods changes neither measure |
| Guesser.RoughnessOrderIndependent | pyorbit/core/guesser.py:18-20 | permuting the observations changes neither measure |
| Guesser.Linspace | pyorbit/core/guesser.py:8 | `num` evenly spaced points from `start` to `stop` inclusive, all between the two ends |
| Guesser.TrialPeriods | pyorbit/core/guesser.py:8 | one trial period per grid frequency, each with `pb · f = 86400` |
| Guesser.TrialPeriodsBounds | pyorbit/core/guesser.py:8 | for `0 < min_pb ≤ max_pb` every trial lies in [86400·min_pb, 86400·max_pb], from 86400·max_pb first to 86400·min_pb last |
| Guesser.Roughnesses | pyorbit/core/guesser.py:9 | one roughness per trial period, with the default smoothing `s = 1`, each non-negative |
| Guesser.FirstMinUnique | pyorbit/core/guesser.py:10 | there is only one first least index |
| Guesser.ArgMin | pyorbit/core/guesser.py:10 | `argmin` returns the first index of least value |
| Guesser.GuessPb | pyorbit/core/guesser.py:7-10 | a zero bound raises `ZeroDivisionError` and a non-positive trial count raises `ValueError`. Otherwise the result is the trial period at the first least roughness |
| EvolvedModels.Period | fitorbit_evolved/models.py:10-11 | the isolated period is `p0 + p1 (t - pepoch)` with `pepoch` as given; the binary period times `C + v` is `C` times the spin-down period, and equals it when `v = 0` |
| EvolvedModels.Evaluate | fitorbit_evolved/models.py:13-14 | the array `evaluate` gives one period per epoch for an isolated pulsar; a binary inherits it and it succeeds exactly at a single epoch, because the epoch array reaches the scalar Kepler minimisation of fitorbit_evolved/utils.py |
| EvolvedModels.Evalulate | fitorbit_evolved/models.py:34-35 | the misspelled list-building method returns one period per epoch, in epoch order |
| EvolvedModels.MisspelledEvaluate | fitorbit_evolved/models.py:13-35 | for a binary, the inherited method fails at any number of epochs but one, where the list-building method returns one period per epoch; at one epoch they agree |
| EvolvedModels.TwoEpochsDiffer | fitorbit_evolved/models.py:13-35 | at epochs 0 and 1 the inherited method fails and the list-building one gives both periods |
| EvolvedModels.PeriodIsLibraryPeriod | fitorbit_evolved/models.py:31-39 | the binary period is the orbit library's eccentric `period` with the stored parameters |
| EvolvedModels.SameBinaryAcrossRevisions | fitorbit_evolved/models.py:17-26 | a binary stored in seconds and metres is the binary the current revision builds from days and light-seconds, and above the threshold it has the same velocity |
| EvolvedModels.SamePeriodAcrossRevisions | fitorbit_evolved/models.py:31-39 | for an eccentric binary both revisions predict the same period |
| EvolvedModels.SameIsolatedPeriod | fitorbit_evolved/models.py:8-11 | the current constructor stores the epoch given in days as the earlier revision's epoch in seconds, and that stored record predicts the same period in both revisions; the same constructor arguments give different periods whenever `p1` and the epoch are non-zero |
| EvolvedFitting.Residuals | fitorbit_evolved/fitter.py:7-9 | residuals exist exactly when the evaluator returns one period per observation, and each residual plus its prediction is the observed period |
| EvolvedFitting.Fitness | fitorbit_evolved/fitter.py:11-13 | the fitness always uses no orbital model; it is non-negative and zero exactly when the orbit-free prediction matches every observation |
| EvolvedFitting.FitnessIgnoresOrbitalModel | fitorbit_evolved/fitter.py:12 | the orbital model passed to `fitness` has no effect on it |
| EvolvedFitting.Minimize | fitorbit_evolved/fitter.py:15-16 | `minimize` leaves the fitter's data as it was |

## Left out

- File I/O, logging (`log_args`), the plotting and selector interface, and the `scipy` minimisers' numerics. The minimisers are parameters (`Numerics.minimize`, `Fitting.Minimizer`), so every statement holds for any minimiser.
- IEEE floating point: rounding, infinities and NaN. Arithmetic is exact over `real`. Divisions the source leaves unguarded are preconditions, except where the source raises (`1/F0` in the reader, `1/max_pb` in `guess_pb`), which are modelled as errors.
- Python 2 integer division in `guess_pb` when both bounds are integers. The bounds are reals here.
- EvolvedModels.Evaluate: what scipy's `minimize` does with an objective that returns an array depends on the scipy version; the model treats every such call as an error, and does not model a version that would instead share one eccentric anomaly across all epochs.
- numpy broadcasting: a length-one prediction array subtracted from a longer data array. `EvolvedFitting.Residuals` treats any length mismatch as a shape error.
- Removal of the assertion in `optimize` under `python -O`.
- pyorbit/utils.py is not part of this model. The current models call it; its functions are taken to be those of fitorbit_evolved/utils.py, which is modelled.
- Numeric formatting and parsing in par files: `str(float)` in Python 2 prints 12 significant digits. `ParFile.ReadWrite` assumes a printer and parser that are inverse on the written values.
- Pulsars.Get: Python's `getattr` also succeeds for methods and class attributes (`period`, `evaluate`, `__class__`, ...); the model has only the numeric attributes, so a method name in `params_to_fit` is the `AttributeError` of `Fitting.Optimize` here, where Python reads the bound method and fails later inside the minimiser.
- `setattr` and `__dict__.update` with a name that is not a modelled attribute: Python adds a new attribute, while the model leaves the pulsar unchanged.
- `np.sort(x, order="t")` breaks ties between equal folded epochs by the remaining fields. The model orders records by epoch, then period, then error, so the record layout is assumed to be `t, p0, perr`.
- `EvolvedFitting.Residuals`: the evaluator is an abstract function of the epochs and the orbital model. In that revision, `spin_model.evaluate` takes only the epochs, so the call as written would raise a `TypeError`. The model states what the fitter does given any evaluator that accepts both.
- EvolvedModels.Velocity: no periodicity lemma is stated for the earlier revision's velocity itself. Its periodicity follows from `OrbitUtils.OrbitPeriodic`, because the velocity is the library formula (`EvolvedModels.PeriodIsLibraryPeriod`).
- EvolvedModels.Acceleration: as for the velocity, it is the library's eccentric formula and is covered by `OrbitUtils.OrbitPeriodic`.
- `Guesser.__init__` and `Fitter.__init__` only store their arguments (`Fitting.NewFitter`). `Fitter.params_to_fit` is set by the caller.
- A second orbit and the sky position are not part of these files.

## Findings

| source | as written | input that shows it | evidently intended | confidence | as-written member | corrected member |
|---|---|---|---|---|---|---|
| pyorbit/fitter.py:14 | `_func` and `residuals` (line 18) read `self._model`, but `__init__` (lines 6-10) sets only `self.model` and nothing assigns `_model`. So the first objective evaluation in `optimize` raises `AttributeError`, after the snapshot is pushed and before any write-back | any fitter whose `params_to_fit` is non-empty and names attributes of the model, e.g. `["p0"]` | the objective evaluates and updates a working copy of `self.model`, and the minimiser's vector is written back to `self.model` | high (not executed) | Fitting.OptimizeAsWritten, with Fitting.OptimizeAsWrittenDiffers | Fitting.Optimize, with Fitting.OptimizeCommitsSolution |
| fitorbit_evolved/models.py:34 | the binary's list-building method is spelled `evalulate`, so it does not override `evaluate`. The inherited `evaluate` (lines 13-14) calls `period` once on the whole epoch array, which reaches `eccentric_anomaly` (fitorbit_evolved/utils.py:49-51) as an array of mean anomalies, so the objective given to the scalar minimiser is not a single number | a binary evaluated at epochs `[0.0, 1.0]` | `evaluate` returns one period per epoch, each computed with its own Kepler solve | medium (not executed) | EvolvedModels.Evaluate, with EvolvedModels.TwoEpochsDiffer | EvolvedModels.Evalulate, with EvolvedModels.MisspelledEvaluate |
