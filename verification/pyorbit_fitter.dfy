/**
 * The fitter of the current revision as a state machine over immutable
 * values: the observations, the model being fitted, the names of the
 * attributes to fit, and a stack of model snapshots taken before each fit.
 *
 * The minimiser is a parameter: given the objective and the starting vector
 * it returns a vector, and nothing is claimed about how good that vector is.
 */
module Fitting {
  import opened Wrappers
  import opened PyFloat
  import opened OrbitUtils
  import opened Timing
  import opened Pulsars
  import opened Models

  datatype Fitter = Fitter(data: seq<Obs>, model: Pulsar, paramsToFit: seq<string>, fits: seq<Pulsar>)

  /** `Fitter(pdata, model)`: nothing selected for fitting and no history. */
  function NewFitter(data: seq<Obs>, model: Pulsar): Fitter {
    Fitter(data, model, [], [])
  }

  /** The model's periods at the observed epochs can be compared with the
      observations: every period is defined and every uncertainty is non-zero. */
  predicate FitDefined(n: Numerics, data: seq<Obs>, model: Pulsar) {
    NonZeroErrors(data) && PredictsAll(n, data, model)
  }

  /** The model's period is defined at every observed epoch. */
  predicate PredictsAll(n: Numerics, data: seq<Obs>, model: Pulsar) {
    forall i :: 0 <= i < |data| ==> PeriodDefined(n, model, data[i].t)
  }

  /** `residuals()`: observed minus predicted period, one per observation. */
  function Residuals(n: Numerics, data: seq<Obs>, model: Pulsar): (r: seq<real>)
    requires PredictsAll(n, data, model)
    ensures |r| == |data|
    ensures forall i :: 0 <= i < |data| ==> r[i] == data[i].p0 - Models.Period(n, model, data[i].t)
  {
    var ts := Epochs(data);
    assert EvaluateDefined(n, model, ts) by {
      forall i | 0 <= i < |ts| ensures PeriodDefined(n, model, ts[i]) {
        assert ts[i] == data[i].t;
      }
    }
    var periods := Evaluate(n, model, ts);
    seq(|data|, i requires 0 <= i < |data| => data[i].p0 - periods[i])
  }

  /** `fitness()`: the chi-square of the residuals. It is never negative, and
      it is zero exactly when the model predicts every observed period. */
  function Fitness(n: Numerics, data: seq<Obs>, model: Pulsar): (r: real)
    requires FitDefined(n, data, model)
    ensures 0.0 <= r
    ensures r == 0.0 <==> forall i :: 0 <= i < |data| ==> Models.Period(n, model, data[i].t) == data[i].p0
  {
    var resid := Residuals(n, data, model);
    assert AllZero(resid) <==> forall i :: 0 <= i < |data| ==> Models.Period(n, model, data[i].t) == data[i].p0 by {
      forall i | 0 <= i < |data| ensures resid[i] == 0.0 <==> Models.Period(n, model, data[i].t) == data[i].p0 {
      }
    }
    ChiSquare(resid, data)
  }

  /** The model `_func(values)` evaluates: the fitted model updated from
      `dict(zip(params_to_fit, values))`. Only the first
      `min(len(params_to_fit), len(values))` names are written. */
  function Trial(s: Fitter, values: seq<real>): (m: Pulsar)
    ensures m.Isolated? == s.model.Isolated?
  {
    Update(s.model, ToDict(Zip(s.paramsToFit, values)))
  }

  /** A trial writes `values[i]` into attribute `paramsToFit[i]` for each
      index both sequences have, and leaves every other attribute alone. */
  lemma TrialWrites(s: Fitter, values: seq<real>)
    requires Distinct(s.paramsToFit)
    ensures forall i :: 0 <= i < |s.paramsToFit| && i < |values| && IsField(s.model, s.paramsToFit[i]) ==>
      Get(Trial(s, values), s.paramsToFit[i]) == Some(values[i])
    ensures forall name :: (forall i :: 0 <= i < |s.paramsToFit| && i < |values| ==> s.paramsToFit[i] != name) ==>
      Get(Trial(s, values), name) == Get(s.model, name)
  {
    var pairs := Zip(s.paramsToFit, values);
    forall i | 0 <= i < |s.paramsToFit| && i < |values| && IsField(s.model, s.paramsToFit[i])
      ensures Get(Trial(s, values), s.paramsToFit[i]) == Some(values[i])
    {
      ToDictDistinct(pairs, i);
      UpdateGet(s.model, ToDict(pairs), s.paramsToFit[i]);
    }
    forall name | forall i :: 0 <= i < |s.paramsToFit| && i < |values| ==> s.paramsToFit[i] != name
      ensures Get(Trial(s, values), name) == Get(s.model, name)
    {
      UpdateGet(s.model, ToDict(pairs), name);
    }
  }

  /** `_func(values)`: the fitness of the trial model, or nothing when that
      fitness is not a number (a period or a weight divides by zero). */
  function Func(n: Numerics, s: Fitter, values: seq<real>): (r: Option<real>)
    ensures r.Some? <==> FitDefined(n, s.data, Trial(s, values))
    ensures r.Some? ==> 0.0 <= r.value
    ensures r.Some? ==> r.value == Fitness(n, s.data, Trial(s, values))
  {
    var m := Trial(s, values);
    if FitDefined(n, s.data, m) then Some(Fitness(n, s.data, m)) else None
  }

  /** The objective handed to the minimiser. */
  function Objective(n: Numerics, s: Fitter): seq<real> -> Option<real> {
    (values: seq<real>) => Func(n, s, values)
  }

  /** A minimiser: from the objective and the starting vector, a vector. */
  type Minimizer = (seq<real> -> Option<real>, seq<real>) -> seq<real>

  datatype FitError =
    | AssertionError          // nothing selected for fitting
    | AttributeError(name: string)  // a selected name the model does not carry
    | IndexError              // revert with no snapshot left

  datatype Outcome = Done(fitter: Fitter) | Raised(error: FitError, fitter: Fitter)

  /** `optimize()`: refuse when nothing is selected; otherwise push a snapshot
      of the model, read the starting vector in `params_to_fit` order, run the
      minimiser and write its vector back by name. */
  function Optimize(n: Numerics, s: Fitter, minimize: Minimizer): (o: Outcome)
    ensures s.paramsToFit == [] <==> o == Raised(AssertionError, s)
    ensures s.paramsToFit != [] ==>
      o.fitter.fits == s.fits + [s.model] && o.fitter.data == s.data && o.fitter.paramsToFit == s.paramsToFit
    ensures s.paramsToFit != [] && o.Raised? ==>
      o.fitter.model == s.model && o.error.AttributeError? && exists i :: FirstUnknown(s.model, s.paramsToFit, i) && s.paramsToFit[i] == o.error.name
    ensures o.Done? ==> Extract(s.model, s.paramsToFit).Success?
    ensures o.Done? ==> o.fitter.model == Assign(s.model, Zip(s.paramsToFit, Solution(n, s, minimize)))
  {
    if s.paramsToFit == [] then Raised(AssertionError, s)
    else
      var pushed := s.(fits := s.fits + [s.model]);
      match Extract(s.model, s.paramsToFit)
      case Failure(name) => Raised(AttributeError(name), pushed)
      case Success(params) =>
        var newParams := minimize(Objective(n, s), params);
        Done(pushed.(model := Assign(s.model, Zip(s.paramsToFit, newParams))))
  }

  /** `optimize()` as the code stands: the objective and `residuals` read
      `self._model`, an attribute no fitter is given, so the minimiser's first
      evaluation of the objective raises once the snapshot is pushed. Such a
      fit never commits anything; `Optimize` is the fit with the objective
      reading the fitted model, which is what the code evidently means. */
  function OptimizeAsWritten(s: Fitter): (o: Outcome)
    ensures o.Raised?
    ensures o.fitter.model == s.model
    ensures s.paramsToFit != [] ==> o.fitter.fits == s.fits + [s.model]
    ensures s.paramsToFit != [] && Extract(s.model, s.paramsToFit).Success? ==> o.error == AttributeError("_model")
  {
    if s.paramsToFit == [] then Raised(AssertionError, s)
    else
      var pushed := s.(fits := s.fits + [s.model]);
      match Extract(s.model, s.paramsToFit)
      case Failure(name) => Raised(AttributeError(name), pushed)
      case Success(_) => Raised(AttributeError("_model"), pushed)
  }

  /** Every fit that gets as far as the minimiser ends differently as written
      and as intended: as written it raises with the model untouched, as
      intended it commits the minimiser's vector. */
  lemma OptimizeAsWrittenDiffers(n: Numerics, s: Fitter, minimize: Minimizer)
    requires s.paramsToFit != [] && Extract(s.model, s.paramsToFit).Success?
    ensures OptimizeAsWritten(s) == Raised(AttributeError("_model"), s.(fits := s.fits + [s.model]))
    ensures Optimize(n, s, minimize).Done?
    ensures Optimize(n, s, minimize).fitter.model == Assign(s.model, Zip(s.paramsToFit, Solution(n, s, minimize)))
  {
  }

  /** The vector the minimiser returns for a fit of `s`. */
  function Solution(n: Numerics, s: Fitter, minimize: Minimizer): seq<real>
    requires Extract(s.model, s.paramsToFit).Success?
  {
    minimize(Objective(n, s), Extract(s.model, s.paramsToFit).value)
  }

  /** `revert()`: pop the last snapshot into the model; an empty history is an
      `IndexError` and changes nothing. */
  function Revert(s: Fitter): (o: Outcome)
    ensures s.fits == [] <==> o == Raised(IndexError, s)
    ensures o.Done? ==> o.fitter.fits + [o.fitter.model] == s.fits
    ensures o.Done? ==> o.fitter.data == s.data && o.fitter.paramsToFit == s.paramsToFit
  {
    if s.fits == [] then Raised(IndexError, s)
    else Done(s.(model := s.fits[|s.fits| - 1], fits := s.fits[..|s.fits| - 1]))
  }

  /** Reverting right after a fit that got as far as taking its snapshot
      restores the fitter exactly as it was. */
  lemma OptimizeThenRevert(n: Numerics, s: Fitter, minimize: Minimizer)
    requires s.paramsToFit != []
    ensures Revert(Optimize(n, s, minimize).fitter) == Done(s)
  {
    var o := Optimize(n, s, minimize).fitter;
    assert o.fits[..|o.fits| - 1] == s.fits;
  }

  /** A fit over distinct names that the minimiser answers with a vector of
      the right length commits exactly that vector, and the committed model is
      the trial model whose fitness the objective reported for it. */
  lemma OptimizeCommitsSolution(n: Numerics, s: Fitter, minimize: Minimizer)
    requires Optimize(n, s, minimize).Done? && Distinct(s.paramsToFit)
    requires |Solution(n, s, minimize)| == |s.paramsToFit|
    ensures Extract(Optimize(n, s, minimize).fitter.model, s.paramsToFit) == Success(Solution(n, s, minimize))
    ensures Optimize(n, s, minimize).fitter.model == Trial(s, Solution(n, s, minimize))
  {
    var x := Solution(n, s, minimize);
    ExtractAssign(s.model, s.paramsToFit, x);
    AssignIsUpdate(s.model, Zip(s.paramsToFit, x));
  }

  /** When the objective mutates the model in place, the write-back still
      determines the result: after any trial, writing back a vector that
      covers every selected name leaves the same model as writing it back to
      the untouched one. */
  lemma WriteBackOverridesTrial(s: Fitter, tried: seq<real>, x: seq<real>)
    requires |x| >= |s.paramsToFit|
    ensures Assign(Trial(s, tried), Zip(s.paramsToFit, x)) == Assign(s.model, Zip(s.paramsToFit, x))
  {
    var trial := Trial(s, tried);
    var d2 := ToDict(Zip(s.paramsToFit, x));
    AssignIsUpdate(trial, Zip(s.paramsToFit, x));
    AssignIsUpdate(s.model, Zip(s.paramsToFit, x));
    forall name ensures Get(Update(trial, d2), name) == Get(Update(s.model, d2), name) {
      WriteBackOverridesName(s, tried, x, name);
    }
    Extensionality(Update(trial, d2), Update(s.model, d2));
  }

  lemma WriteBackOverridesName(s: Fitter, tried: seq<real>, x: seq<real>, name: string)
    requires |x| >= |s.paramsToFit|
    ensures Get(Update(Trial(s, tried), ToDict(Zip(s.paramsToFit, x))), name)
         == Get(Update(s.model, ToDict(Zip(s.paramsToFit, x))), name)
  {
    var d2 := ToDict(Zip(s.paramsToFit, x));
    UpdateGet(Trial(s, tried), d2, name);
    UpdateGet(s.model, d2, name);
    if name !in d2 {
      UntouchedByTrial(s, tried, x, name);
    }
  }

  /** A name the write-back does not cover was not touched by the trial either. */
  lemma UntouchedByTrial(s: Fitter, tried: seq<real>, x: seq<real>, name: string)
    requires |x| >= |s.paramsToFit|
    requires name !in ToDict(Zip(s.paramsToFit, x))
    ensures Get(Trial(s, tried), name) == Get(s.model, name)
  {
    ZipCovers(s.paramsToFit, tried, x, name);
    UpdateGet(s.model, ToDict(Zip(s.paramsToFit, tried)), name);
  }

  /** Zipping the names with a vector at least as long as the names covers
      every name that zipping them with any other vector covers. */
  lemma ZipCovers(names: seq<string>, a: seq<real>, b: seq<real>, name: string)
    requires |b| >= |names|
    ensures name in ToDict(Zip(names, a)) ==> name in ToDict(Zip(names, b))
  {
    if name in ToDict(Zip(names, a)) {
      var i :| 0 <= i < |Zip(names, a)| && Zip(names, a)[i].0 == name;
      assert Zip(names, b)[i].0 == name;
    }
  }
}
