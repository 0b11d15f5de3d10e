/**
 * The fitter of the earlier revision. It keeps only the observations; the
 * spin model is whatever evaluates a period per epoch given the epochs and an
 * optional orbital model, and is passed in at each call.
 */
module EvolvedFitting {
  import opened Wrappers
  import opened PyFloat
  import opened Timing

  datatype SimpleFitter = SimpleFitter(data: seq<Obs>)

  /** `spin_model.evaluate(epochs, orbital_model)`. */
  type Evaluator<!O> = (seq<real>, Option<O>) -> seq<real>

  /** Subtracting arrays of different lengths is refused. */
  datatype ShapeError = ShapeMismatch

  /** The evaluator's periods at the observed epochs. */
  function Predicted<O>(f: SimpleFitter, evaluate: Evaluator<O>, orbital: Option<O>): seq<real> {
    evaluate(Epochs(f.data), orbital)
  }

  /** `residuals(spin_model, orbital_model)`: observed minus predicted, one
      per observation, when the evaluator returns one period per epoch. */
  function Residuals<O>(f: SimpleFitter, evaluate: Evaluator<O>, orbital: Option<O>): (r: Result<seq<real>, ShapeError>)
    ensures r.Success? <==> |Predicted(f, evaluate, orbital)| == |f.data|
    ensures r.Success? ==> |r.value| == |f.data|
    ensures r.Success? ==> forall i :: 0 <= i < |f.data| ==> r.value[i] + Predicted(f, evaluate, orbital)[i] == f.data[i].p0
  {
    var periods := Predicted(f, evaluate, orbital);
    if |periods| != |f.data| then Failure(ShapeMismatch)
    else Success(seq(|f.data|, i requires 0 <= i < |f.data| => f.data[i].p0 - periods[i]))
  }

  /** `fitness(spin_model, orbital_model)`: the chi-square of the residuals,
      which are always computed without an orbital model whatever is passed.
      It is never negative, and zero exactly when the orbit-free prediction
      matches every observed period. */
  function Fitness<O>(f: SimpleFitter, evaluate: Evaluator<O>, orbital: Option<O>): (r: Result<real, ShapeError>)
    requires NonZeroErrors(f.data)
    ensures r.Success? <==> |Predicted(f, evaluate, None)| == |f.data|
    ensures r.Success? ==> 0.0 <= r.value
    ensures r.Success? ==>
      (r.value == 0.0 <==> forall i :: 0 <= i < |f.data| ==> Predicted(f, evaluate, None)[i] == f.data[i].p0)
  {
    var resid :- Residuals(f, evaluate, None);
    var p := Predicted(f, evaluate, None);
    assert AllZero(resid) <==> forall i :: 0 <= i < |f.data| ==> p[i] == f.data[i].p0 by {
      forall i | 0 <= i < |f.data| ensures resid[i] == 0.0 <==> p[i] == f.data[i].p0 {
      }
    }
    Success(ChiSquare(resid, f.data))
  }

  /** The orbital model passed to `fitness` has no effect on it. */
  lemma FitnessIgnoresOrbitalModel<O>(f: SimpleFitter, evaluate: Evaluator<O>, a: Option<O>, b: Option<O>)
    requires NonZeroErrors(f.data)
    ensures Fitness(f, evaluate, a) == Fitness(f, evaluate, b)
    ensures Fitness(f, evaluate, a).Success? ==> Fitness(f, evaluate, a) == Fitness(f, evaluate, None)
  {
  }

  /** `minimize(spin_model, orbital_model)`: does nothing; the fitter it leaves
      is the fitter it was given, whatever models are passed. */
  function Minimize<S, O>(f: SimpleFitter, spin: S, orbital: Option<O>): (r: SimpleFitter)
    ensures r.data == f.data
  {
    f
  }
}
