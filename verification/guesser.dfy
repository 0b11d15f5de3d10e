/**
 * Initial guesses for a fit: the spin period as the midpoint of the observed
 * range, and the orbital period as the trial period under which the observed
 * periods, folded at that period and put in phase order, vary most smoothly.
 *
 * Observations are immutable values, so the roughness measures cannot alter
 * the caller's data.
 */
module Guesser {
  import opened Wrappers
  import opened PyFloat
  import opened OrbitUtils
  import opened Timing

  datatype GuessError = ValueError | ZeroDivisionError

  /* ---------------------------------------------------------------- */
  /* Spin period guess                                                 */
  /* ---------------------------------------------------------------- */

  function MinP0(data: seq<Obs>): (r: real)
    requires |data| > 0
    ensures exists i :: 0 <= i < |data| && data[i].p0 == r
    ensures forall i :: 0 <= i < |data| ==> r <= data[i].p0
  {
    if |data| == 1 then data[0].p0
    else
      var rest := MinP0(data[1..]);
      assert forall i :: 1 <= i < |data| ==> data[1..][i - 1] == data[i];
      if data[0].p0 <= rest then data[0].p0 else rest
  }

  function MaxP0(data: seq<Obs>): (r: real)
    requires |data| > 0
    ensures exists i :: 0 <= i < |data| && data[i].p0 == r
    ensures forall i :: 0 <= i < |data| ==> data[i].p0 <= r
  {
    if |data| == 1 then data[0].p0
    else
      var rest := MaxP0(data[1..]);
      assert forall i :: 1 <= i < |data| ==> data[1..][i - 1] == data[i];
      if rest <= data[0].p0 then data[0].p0 else rest
  }

  /** `guess_p0()`: the midpoint of the observed periods, equally far from
      the smallest and the largest; with no data the reductions fail. */
  function GuessP0(data: seq<Obs>): (r: Result<real, GuessError>)
    ensures r.Success? <==> |data| > 0
    ensures r.Failure? ==> r.error == ValueError
    ensures r.Success? ==> MinP0(data) <= r.value <= MaxP0(data)
    ensures r.Success? ==> r.value - MinP0(data) == MaxP0(data) - r.value
  {
    if |data| == 0 then Failure(ValueError)
    else
      var lo := MinP0(data);
      var hi := MaxP0(data);
      Success(lo + (hi - lo) / 2.0)
  }

  /* ---------------------------------------------------------------- */
  /* Folding and phase order                                           */
  /* ---------------------------------------------------------------- */

  /** `x["t"] %= pb`: every epoch replaced by its remainder modulo `pb`. */
  function Fold(data: seq<Obs>, pb: real): (r: seq<Obs>)
    requires pb != 0.0
    ensures |r| == |data|
    ensures forall i :: 0 <= i < |data| ==> r[i] == data[i].(t := FloorMod(data[i].t, pb))
    ensures forall i :: 0 <= i < |data| ==> IsInteger((data[i].t - r[i].t) / pb)
    ensures pb > 0.0 ==> forall i :: 0 <= i < |data| ==> 0.0 <= r[i].t < pb
  {
    var r := seq(|data|, i requires 0 <= i < |data| => data[i].(t := FloorMod(data[i].t, pb)));
    assert forall i :: 0 <= i < |data| ==> IsInteger((data[i].t - r[i].t) / pb) by {
      forall i | 0 <= i < |data| ensures IsInteger((data[i].t - r[i].t) / pb) {
        FloorModCongruent(data[i].t, pb);
      }
    }
    r
  }

  /** The order `np.sort(..., order="t")` puts records in: by epoch, with
      ties broken by the remaining fields in record order. */
  predicate Before(a: Obs, b: Obs) {
    a.t < b.t || (a.t == b.t && (a.p0 < b.p0 || (a.p0 == b.p0 && a.perr <= b.perr)))
  }

  predicate Sorted(xs: seq<Obs>) {
    forall i, j :: 0 <= i < j < |xs| ==> Before(xs[i], xs[j])
  }

  function Insert(x: Obs, xs: seq<Obs>): (r: seq<Obs>)
    requires Sorted(xs)
    ensures Sorted(r)
    ensures multiset(r) == multiset(xs) + multiset{x}
  {
    if xs == [] then [x]
    else if Before(x, xs[0]) then
      SortedCons(x, xs);
      [x] + xs
    else
      var rest := Insert(x, xs[1..]);
      HeadBeforeInsert(x, xs, rest);
      SortedCons(xs[0], rest);
      assert xs == [xs[0]] + xs[1..];
      [xs[0]] + rest
  }

  /** A record before the head of a sorted sequence is before all of it. */
  lemma SortedCons(y: Obs, xs: seq<Obs>)
    requires Sorted(xs)
    requires xs != [] ==> Before(y, xs[0])
    ensures Sorted([y] + xs)
  {
  }

  /** What is inserted after the head of a sorted sequence stays after it. */
  lemma HeadBeforeInsert(x: Obs, xs: seq<Obs>, rest: seq<Obs>)
    requires Sorted(xs) && xs != [] && !Before(x, xs[0])
    requires multiset(rest) == multiset(xs[1..]) + multiset{x}
    ensures rest != [] ==> Before(xs[0], rest[0])
  {
    if rest != [] {
      assert rest[0] in multiset(rest);
      if rest[0] != x {
        assert rest[0] in multiset(xs[1..]);
        var j :| 0 <= j < |xs[1..]| && xs[1..][j] == rest[0];
        assert xs[j + 1] == rest[0];
      }
    }
  }

  /** The records rearranged into `Before` order. */
  function Sort(xs: seq<Obs>): (r: seq<Obs>)
    ensures Sorted(r)
    ensures multiset(r) == multiset(xs)
  {
    if xs == [] then []
    else
      assert xs == [xs[0]] + xs[1..];
      Insert(xs[0], Sort(xs[1..]))
  }

  /** `Before` order leaves no freedom: two sorted arrangements of the same
      records are the same sequence. */
  lemma {:induction false} SortedUnique(a: seq<Obs>, b: seq<Obs>)
    requires Sorted(a) && Sorted(b) && multiset(a) == multiset(b)
    ensures a == b
  {
    assert |a| == |multiset(a)| == |multiset(b)| == |b|;
    if a != [] {
      assert a[0] in multiset(b);
      assert b[0] in multiset(a);
      var i :| 0 <= i < |b| && b[i] == a[0];
      var j :| 0 <= j < |a| && a[j] == b[0];
      assert Before(b[0], a[0]);
      assert Before(a[0], b[0]);
      assert a[0] == b[0];
      assert a == [a[0]] + a[1..];
      assert b == [b[0]] + b[1..];
      assert multiset(a[1..]) == multiset(b[1..]) by {
        assert multiset(a[1..]) == multiset(a) - multiset{a[0]};
        assert multiset(b[1..]) == multiset(b) - multiset{b[0]};
      }
      SortedUnique(a[1..], b[1..]);
    }
  }

  /** The folded records in phase order, as the roughness measures see them. */
  function PhaseOrder(data: seq<Obs>, pb: real): (x: seq<Obs>)
    requires pb != 0.0
    ensures Sorted(x)
    ensures multiset(x) == multiset(Fold(data, pb))
  {
    Sort(Fold(data, pb))
  }

  /* ---------------------------------------------------------------- */
  /* Roughness                                                         */
  /* ---------------------------------------------------------------- */

  /** Number of consecutive pairs, the length of `np.diff`. */
  function Pairs(x: seq<Obs>): nat {
    if x == [] then 0 else |x| - 1
  }

  /** Consecutive records in `x` have the same period. */
  predicate Steady(x: seq<Obs>) {
    forall i :: 0 <= i < Pairs(x) ==> x[i].p0 == x[i + 1].p0
  }

  /** Every record has the same period. */
  predicate SamePeriods(x: seq<Obs>) {
    forall i, j :: 0 <= i < |x| && 0 <= j < |x| ==> x[i].p0 == x[j].p0
  }

  /** `np.diff(x["p0"])**2`. */
  function SimpleTerms(x: seq<Obs>): seq<real> {
    seq(Pairs(x), i requires 0 <= i < Pairs(x) => Square(x[i + 1].p0 - x[i].p0))
  }

  /** No denominator `s**2 + np.diff(x["t"])**2` is zero. */
  predicate Separated(x: seq<Obs>, s: real) {
    forall i :: 0 <= i < Pairs(x) ==> Square(s) + Square(x[i + 1].t - x[i].t) != 0.0
  }

  /** `a / (s**2 + b)` term by term. */
  function RoughTerms(x: seq<Obs>, s: real): seq<real>
    requires Separated(x, s)
  {
    seq(Pairs(x), i requires 0 <= i < Pairs(x) =>
      Square(x[i + 1].p0 - x[i].p0) / (Square(s) + Square(x[i + 1].t - x[i].t)))
  }

  /** `roughness(x, pb, s)` gives a number: the period is not zero, and with
      no smoothing term no two folded epochs are adjacent and equal. */
  predicate RoughnessDefined(data: seq<Obs>, pb: real, s: real) {
    pb != 0.0 && (s != 0.0 || Separated(PhaseOrder(data, pb), s))
  }

  /** A non-zero smoothing term keeps every denominator positive. */
  lemma SmoothingSeparates(x: seq<Obs>, s: real)
    requires s != 0.0
    ensures Separated(x, s)
    ensures forall i :: 0 <= i < Pairs(x) ==> 0.0 < Square(s) + Square(x[i + 1].t - x[i].t)
  {
    SquareSign(s);
    forall i | 0 <= i < Pairs(x) ensures 0.0 < Square(s) + Square(x[i + 1].t - x[i].t) {
      SquareSign(x[i + 1].t - x[i].t);
    }
  }

  /** `simple_roughness(x, pb)`: never negative, and zero exactly when
      consecutive folded records have equal periods. */
  function SimpleRoughness(data: seq<Obs>, pb: real): (r: real)
    requires pb != 0.0
    ensures 0.0 <= r
    ensures r == 0.0 <==> Steady(PhaseOrder(data, pb))
  {
    var x := PhaseOrder(data, pb);
    var terms := SimpleTerms(x);
    SimpleTermsSigns(x);
    SumNonNegative(terms);
    Sum(terms)
  }

  /** `roughness(x, pb, s)`: never negative, and zero exactly when
      consecutive folded records have equal periods. */
  function Roughness(data: seq<Obs>, pb: real, s: real): (r: real)
    requires RoughnessDefined(data, pb, s)
    ensures 0.0 <= r
    ensures r == 0.0 <==> Steady(PhaseOrder(data, pb))
  {
    var x := PhaseOrder(data, pb);
    assert Separated(x, s) by {
      if s != 0.0 { SmoothingSeparates(x, s); }
    }
    var terms := RoughTerms(x, s);
    RoughTermsSigns(x, s);
    SumNonNegative(terms);
    Sum(terms)
  }

  /** Every squared period step is non-negative, and zero exactly when the
      two records it compares have the same period. */
  lemma SimpleTermsSigns(x: seq<Obs>)
    ensures AllNonNegative(SimpleTerms(x))
    ensures AllZero(SimpleTerms(x)) <==> Steady(x)
  {
    var terms := SimpleTerms(x);
    forall i | 0 <= i < |terms| ensures 0.0 <= terms[i] && (terms[i] == 0.0 <==> x[i].p0 == x[i + 1].p0) {
      SquareSign(x[i + 1].p0 - x[i].p0);
    }
  }

  /** Every roughness term is non-negative, and zero exactly when the two
      records it compares have the same period. */
  lemma RoughTermsSigns(x: seq<Obs>, s: real)
    requires Separated(x, s)
    ensures AllNonNegative(RoughTerms(x, s))
    ensures AllZero(RoughTerms(x, s)) <==> Steady(x)
  {
    var terms := RoughTerms(x, s);
    forall i | 0 <= i < |terms| ensures 0.0 <= terms[i] && (terms[i] == 0.0 <==> x[i].p0 == x[i + 1].p0) {
      var d := x[i + 1].p0 - x[i].p0;
      var e := x[i + 1].t - x[i].t;
      SquareSign(d);
      SquareSign(s);
      SquareSign(e);
      QuotientSign(Square(d), Square(s) + Square(e), terms[i]);
    }
  }

  lemma QuotientSign(a: real, b: real, q: real)
    requires 0.0 <= a && 0.0 < b && q == a / b
    ensures 0.0 <= q
    ensures q == 0.0 <==> a == 0.0
  {
  }

  /** In a steady sequence every record has the first record's period. */
  lemma {:induction false} SteadyFirst(x: seq<Obs>, i: int)
    requires Steady(x) && 0 <= i < |x|
    ensures x[i].p0 == x[0].p0
    decreases i
  {
    if i > 0 {
      SteadyFirst(x, i - 1);
    }
  }

  lemma SteadyIsSame(x: seq<Obs>)
    ensures Steady(x) <==> SamePeriods(x)
  {
    if Steady(x) {
      forall i, j | 0 <= i < |x| && 0 <= j < |x| ensures x[i].p0 == x[j].p0 {
        SteadyFirst(x, i);
        SteadyFirst(x, j);
      }
    }
  }

  lemma SamePeriodsPermutation(a: seq<Obs>, b: seq<Obs>)
    requires multiset(a) == multiset(b)
    ensures SamePeriods(a) ==> SamePeriods(b)
  {
    if SamePeriods(a) {
      forall i, j | 0 <= i < |b| && 0 <= j < |b| ensures b[i].p0 == b[j].p0 {
        assert b[i] in multiset(a);
        assert b[j] in multiset(a);
      }
    }
  }

  /** Folding and reordering keep the periods: the phase-ordered records are
      steady exactly when every observation has the same period. */
  lemma PhaseOrderSteady(data: seq<Obs>, pb: real)
    requires pb != 0.0
    ensures Steady(PhaseOrder(data, pb)) <==> SamePeriods(data)
  {
    var f := Fold(data, pb);
    var x := PhaseOrder(data, pb);
    SteadyIsSame(x);
    SamePeriodsPermutation(x, f);
    SamePeriodsPermutation(f, x);
    assert SamePeriods(f) <==> SamePeriods(data);
  }

  /** Both roughness measures vanish exactly when all observed periods are
      equal, whatever the trial period. */
  lemma RoughnessZero(data: seq<Obs>, pb: real, s: real)
    requires RoughnessDefined(data, pb, s)
    ensures Roughness(data, pb, s) == 0.0 <==> SamePeriods(data)
    ensures SimpleRoughness(data, pb) == 0.0 <==> SamePeriods(data)
  {
    PhaseOrderSteady(data, pb);
  }

  /** Moving each epoch by its own whole number of trial periods changes
      neither measure. */
  lemma RoughnessShift(data: seq<Obs>, shifted: seq<Obs>, ks: seq<int>, pb: real, s: real)
    requires RoughnessDefined(data, pb, s)
    requires |shifted| == |data| == |ks|
    requires forall i :: 0 <= i < |data| ==> shifted[i] == data[i].(t := data[i].t + (ks[i] as real) * pb)
    ensures RoughnessDefined(shifted, pb, s)
    ensures Roughness(shifted, pb, s) == Roughness(data, pb, s)
    ensures SimpleRoughness(shifted, pb) == SimpleRoughness(data, pb)
  {
    var a := Fold(shifted, pb);
    var b := Fold(data, pb);
    forall i | 0 <= i < |data| ensures a[i] == b[i] {
      FoldShifted(data[i], shifted[i], ks[i], pb);
      assert a[i] == shifted[i].(t := FloorMod(shifted[i].t, pb));
    }
    assert a == b;
  }

  lemma FoldShifted(o: Obs, shifted: Obs, k: int, pb: real)
    requires pb != 0.0 && shifted == o.(t := o.t + (k as real) * pb)
    ensures shifted.(t := FloorMod(shifted.t, pb)) == o.(t := FloorMod(o.t, pb))
  {
    FloorModPeriodic(o.t, pb, k);
  }

  /** Folding a rearrangement of the records gives a rearrangement of the
      folded records. */
  lemma {:induction false} FoldPermutation(a: seq<Obs>, b: seq<Obs>, pb: real)
    requires pb != 0.0 && multiset(a) == multiset(b)
    ensures multiset(Fold(a, pb)) == multiset(Fold(b, pb))
    decreases |a|
  {
    assert |a| == |multiset(a)| == |multiset(b)| == |b|;
    if a != [] {
      var x := a[0];
      assert x in multiset(b);
      var j :| 0 <= j < |b| && b[j] == x;
      var rest := RemoveAt(b, j);
      assert multiset(a[1..]) == multiset(rest) by {
        assert a == [x] + a[1..];
        assert multiset(a[1..]) == multiset(a) - multiset{x};
      }
      FoldPermutation(a[1..], rest, pb);
      FoldFirst(a, pb);
      FoldRemoveAt(b, j, pb);
    }
  }

  /** Folding commutes with taking the first record out. */
  lemma FoldFirst(a: seq<Obs>, pb: real)
    requires pb != 0.0 && a != []
    ensures multiset(Fold(a, pb)) == multiset(Fold(a[1..], pb)) + multiset(Fold([a[0]], pb))
  {
    assert a == [a[0]] + a[1..];
    FoldAppend([a[0]], a[1..], pb);
  }

  /** `xs` without its element at `j`. */
  function RemoveAt(xs: seq<Obs>, j: int): (r: seq<Obs>)
    requires 0 <= j < |xs|
    ensures multiset(r) == multiset(xs) - multiset{xs[j]}
  {
    assert xs == xs[..j] + [xs[j]] + xs[j + 1..];
    xs[..j] + xs[j + 1..]
  }

  lemma FoldAppend(u: seq<Obs>, v: seq<Obs>, pb: real)
    requires pb != 0.0
    ensures Fold(u + v, pb) == Fold(u, pb) + Fold(v, pb)
  {
  }

  /** Folding commutes with taking one record out. */
  lemma FoldRemoveAt(xs: seq<Obs>, j: int, pb: real)
    requires pb != 0.0 && 0 <= j < |xs|
    ensures multiset(Fold(xs, pb)) == multiset(Fold(RemoveAt(xs, j), pb)) + multiset(Fold([xs[j]], pb))
  {
    assert xs == xs[..j] + [xs[j]] + xs[j + 1..];
    FoldAppend(xs[..j] + [xs[j]], xs[j + 1..], pb);
    FoldAppend(xs[..j], [xs[j]], pb);
    FoldAppend(xs[..j], xs[j + 1..], pb);
  }

  /** The measures depend on the observations, not on the order they are
      stored in. */
  lemma RoughnessOrderIndependent(a: seq<Obs>, b: seq<Obs>, pb: real, s: real)
    requires RoughnessDefined(a, pb, s) && multiset(a) == multiset(b)
    ensures RoughnessDefined(b, pb, s)
    ensures Roughness(b, pb, s) == Roughness(a, pb, s)
    ensures SimpleRoughness(b, pb) == SimpleRoughness(a, pb)
  {
    FoldPermutation(a, b, pb);
    SortedUnique(PhaseOrder(a, pb), PhaseOrder(b, pb));
  }

  /* ---------------------------------------------------------------- */
  /* Orbital period guess                                              */
  /* ---------------------------------------------------------------- */

  /** The spacing of `np.linspace(start, stop, num)`. */
  function Step(start: real, stop: real, num: nat): real {
    if num > 1 then (stop - start) / ((num - 1) as real) else 0.0
  }

  /** Point `i` of `np.linspace(start, stop, num)`: `start + i * step`, except
      that the last of two or more points is `stop` itself. */
  function Point(start: real, stop: real, num: nat, i: nat): real {
    if num > 1 && i == num - 1 then stop else start + (i as real) * Step(start, stop, num)
  }

  /** `np.linspace(start, stop, num)`: `num` evenly spaced values, the first
      `start` and the last exactly `stop`. */
  function Linspace(start: real, stop: real, num: nat): (r: seq<real>)
    ensures |r| == num
    ensures num > 0 ==> r[0] == start
    ensures num > 1 ==> r[num - 1] == stop
    ensures forall i :: 0 <= i < num - 1 ==> r[i + 1] - r[i] == Step(start, stop, num)
    ensures start <= stop ==> forall i :: 0 <= i < num ==> start <= r[i] <= stop
    ensures stop <= start ==> forall i :: 0 <= i < num ==> stop <= r[i] <= start
  {
    var r := seq(num, i requires 0 <= i < num => Point(start, stop, num, i));
    assert forall i :: 0 <= i < num ==> PointBetween(start, stop, r[i]) by {
      forall i | 0 <= i < num ensures PointBetween(start, stop, r[i]) {
        PointBounds(start, stop, num, i);
      }
    }
    assert forall i :: 0 <= i < num - 1 ==> r[i + 1] - r[i] == Step(start, stop, num) by {
      forall i | 0 <= i < num - 1 ensures r[i + 1] - r[i] == Step(start, stop, num) {
        PointGap(start, stop, num, i);
      }
    }
    r
  }

  predicate PointBetween(start: real, stop: real, x: real) {
    (start <= stop ==> start <= x <= stop) && (stop <= start ==> stop <= x <= start)
  }

  /** The step times the number of gaps covers the whole interval. */
  lemma StepCovers(start: real, stop: real, num: nat)
    requires num > 1
    ensures ((num - 1) as real) * Step(start, stop, num) == stop - start
  {
    var d := (num - 1) as real;
    var step := Step(start, stop, num);
    assert step * d == stop - start;
  }

  lemma PointGap(start: real, stop: real, num: nat, i: nat)
    requires i + 1 < num
    ensures Point(start, stop, num, i + 1) - Point(start, stop, num, i) == Step(start, stop, num)
  {
    var step := Step(start, stop, num);
    if i + 1 == num - 1 {
      StepCovers(start, stop, num);
      assert ((num - 2) as real) * step + step == ((num - 1) as real) * step;
    } else {
      assert ((i + 1) as real) * step == (i as real) * step + step;
    }
  }

  lemma PointBounds(start: real, stop: real, num: nat, i: nat)
    requires i < num
    ensures PointBetween(start, stop, Point(start, stop, num, i))
  {
    if num > 1 && i < num - 1 {
      var step := Step(start, stop, num);
      StepCovers(start, stop, num);
      var d := (num - 1) as real;
      if start <= stop {
        assert 0.0 <= step;
        ScaleBetween(i as real, d, step, (i as real) * step, stop - start);
      } else {
        assert step <= 0.0;
        ScaleBetween(i as real, d, -step, -((i as real) * step), start - stop);
      }
    }
  }

  lemma ScaleBetween(a: real, d: real, c: real, p: real, q: real)
    requires 0.0 <= a <= d && 0.0 <= c && p == a * c && q == d * c
    ensures 0.0 <= p <= q
  {
    assert q - p == (d - a) * c;
    if c > 0.0 && d - a > 0.0 {
      ProductOfPositives(d - a, c, q - p);
    }
    if c > 0.0 && a > 0.0 {
      ProductOfPositives(a, c, p);
    }
  }

  /** The trial frequencies `np.linspace(1/max_pb, 1/min_pb, ntrials)` are
      all non-zero, so every trial period is a number. */
  predicate GridDefined(minPb: real, maxPb: real, ntrials: nat) {
    minPb != 0.0 && maxPb != 0.0 &&
    var f := Linspace(1.0 / maxPb, 1.0 / minPb, ntrials);
    forall i :: 0 <= i < ntrials ==> f[i] != 0.0
  }

  /** `86400.0 / np.linspace(1/max_pb, 1/min_pb, ntrials)`: trial periods in
      seconds whose frequencies are evenly spaced, from `max_pb` days down to
      `min_pb` days. */
  function TrialPeriods(minPb: real, maxPb: real, ntrials: nat): (pbs: seq<real>)
    requires GridDefined(minPb, maxPb, ntrials)
    ensures |pbs| == ntrials
    ensures forall i :: 0 <= i < ntrials ==> pbs[i] != 0.0
    ensures forall i :: 0 <= i < ntrials ==> OneDay(pbs[i], Linspace(1.0 / maxPb, 1.0 / minPb, ntrials)[i])
  {
    var f := Linspace(1.0 / maxPb, 1.0 / minPb, ntrials);
    var pbs := seq(ntrials, i requires 0 <= i < ntrials => DAY_2_SEC / f[i]);
    assert forall i :: 0 <= i < ntrials ==> pbs[i] != 0.0 && OneDay(pbs[i], f[i]) by {
      forall i | 0 <= i < ntrials ensures pbs[i] != 0.0 && OneDay(pbs[i], f[i]) {
        DayOverFrequency(f[i], pbs[i]);
      }
    }
    pbs
  }

  /** A period `pb` seconds at frequency `f` per day: one day of cycles. */
  predicate OneDay(pb: real, f: real) {
    pb * f == DAY_2_SEC
  }

  lemma DayOverFrequency(f: real, pb: real)
    requires f != 0.0 && pb == DAY_2_SEC / f
    ensures pb != 0.0 && OneDay(pb, f)
  {
  }

  /** With `0 < min_pb <= max_pb` days the grid is defined, every trial lies
      between `min_pb` and `max_pb` days, the first trial is `max_pb` days and
      (with two or more trials) the last is `min_pb` days. */
  lemma TrialPeriodsBounds(minPb: real, maxPb: real, ntrials: nat)
    requires 0.0 < minPb <= maxPb
    ensures GridDefined(minPb, maxPb, ntrials)
    ensures forall i :: 0 <= i < ntrials ==>
      DAY_2_SEC * minPb <= TrialPeriods(minPb, maxPb, ntrials)[i] <= DAY_2_SEC * maxPb
    ensures ntrials > 0 ==> TrialPeriods(minPb, maxPb, ntrials)[0] == DAY_2_SEC * maxPb
    ensures ntrials > 1 ==> TrialPeriods(minPb, maxPb, ntrials)[ntrials - 1] == DAY_2_SEC * minPb
  {
    var lo := 1.0 / maxPb;
    var hi := 1.0 / minPb;
    ReciprocalOrder(minPb, maxPb, lo, hi);
    var f := Linspace(lo, hi, ntrials);
    assert GridDefined(minPb, maxPb, ntrials);
    var pbs := TrialPeriods(minPb, maxPb, ntrials);
    forall i | 0 <= i < ntrials ensures DAY_2_SEC * minPb <= pbs[i] <= DAY_2_SEC * maxPb {
      PeriodOfFrequency(minPb, maxPb, f[i], pbs[i]);
    }
    if ntrials > 0 {
      InverseOfReciprocal(maxPb, pbs[0]);
    }
    if ntrials > 1 {
      InverseOfReciprocal(minPb, pbs[ntrials - 1]);
    }
  }

  lemma ReciprocalOrder(minPb: real, maxPb: real, lo: real, hi: real)
    requires 0.0 < minPb <= maxPb && lo == 1.0 / maxPb && hi == 1.0 / minPb
    ensures 0.0 < lo <= hi
  {
  }

  lemma ReciprocalAntitone(x: real, y: real)
    requires 0.0 < x <= y
    ensures 0.0 < 1.0 / y <= 1.0 / x
  {
  }

  lemma DoubleReciprocal(x: real)
    requires x != 0.0
    ensures 1.0 / (1.0 / x) == x
  {
  }

  /** A frequency between the reciprocals of two positive bounds has its
      reciprocal between the bounds. */
  lemma ReciprocalBetween(minPb: real, maxPb: real, f: real)
    requires 0.0 < minPb <= maxPb && 1.0 / maxPb <= f <= 1.0 / minPb
    ensures minPb <= 1.0 / f <= maxPb
  {
    ReciprocalOrder(minPb, maxPb, 1.0 / maxPb, 1.0 / minPb);
    ReciprocalAntitone(1.0 / maxPb, f);
    ReciprocalAntitone(f, 1.0 / minPb);
    DoubleReciprocal(maxPb);
    DoubleReciprocal(minPb);
  }

  lemma PeriodOfFrequency(minPb: real, maxPb: real, f: real, pb: real)
    requires 0.0 < minPb <= maxPb && 1.0 / maxPb <= f <= 1.0 / minPb && OneDay(pb, f)
    ensures DAY_2_SEC * minPb <= pb <= DAY_2_SEC * maxPb
  {
    ReciprocalOrder(minPb, maxPb, 1.0 / maxPb, 1.0 / minPb);
    ReciprocalBetween(minPb, maxPb, f);
    assert pb == DAY_2_SEC * (1.0 / f);
  }

  lemma InverseOfReciprocal(x: real, pb: real)
    requires x != 0.0 && OneDay(pb, 1.0 / x)
    ensures pb == DAY_2_SEC * x
  {
  }

  /** `roughness(pdata, pb)` at every trial period, with the default
      smoothing term 1. */
  function Roughnesses(data: seq<Obs>, pbs: seq<real>): (r: seq<real>)
    requires forall i :: 0 <= i < |pbs| ==> pbs[i] != 0.0
    ensures |r| == |pbs|
    ensures forall i :: 0 <= i < |pbs| ==> r[i] == Roughness(data, pbs[i], 1.0)
    ensures forall i :: 0 <= i < |pbs| ==> 0.0 <= r[i]
  {
    seq(|pbs|, i requires 0 <= i < |pbs| => Roughness(data, pbs[i], 1.0))
  }

  /** `k` is where `argmin` stops: no later value is smaller and every earlier
      value is larger. */
  predicate IsFirstMin(xs: seq<real>, k: int) {
    0 <= k < |xs|
    && (forall j :: 0 <= j < |xs| ==> xs[k] <= xs[j])
    && (forall j :: 0 <= j < k ==> xs[k] < xs[j])
  }

  /** At most one index is the first minimum. */
  lemma FirstMinUnique(xs: seq<real>, a: int, b: int)
    requires IsFirstMin(xs, a) && IsFirstMin(xs, b)
    ensures a == b
  {
    assert xs[a] <= xs[b] && xs[b] <= xs[a];
  }

  /** `np.argmin`: the index of the first smallest value. */
  method ArgMin(xs: seq<real>) returns (k: nat)
    requires |xs| > 0
    ensures IsFirstMin(xs, k)
  {
    k := 0;
    var i := 1;
    while i < |xs|
      invariant 1 <= i <= |xs| && k < i
      invariant forall j :: 0 <= j < i ==> xs[k] <= xs[j]
      invariant forall j :: 0 <= j < k ==> xs[k] < xs[j]
    {
      if xs[i] < xs[k] {
        k := i;
      }
      i := i + 1;
    }
  }

  /** `guess_pb(min_pb, max_pb, ntrials)`: the first trial period of least
      roughness. A zero bound divides by zero; a negative count is refused by
      `np.linspace` and an empty grid by `argmin`. */
  method GuessPb(data: seq<Obs>, minPb: real, maxPb: real, ntrials: int) returns (r: Result<real, GuessError>)
    requires ntrials > 0 && minPb != 0.0 && maxPb != 0.0 ==> GridDefined(minPb, maxPb, ntrials)
    ensures (minPb == 0.0 || maxPb == 0.0) <==> r == Failure(ZeroDivisionError)
    ensures minPb != 0.0 && maxPb != 0.0 && ntrials <= 0 ==> r == Failure(ValueError)
    ensures r.Success? <==> minPb != 0.0 && maxPb != 0.0 && ntrials > 0
    ensures r.Success? ==> exists k ::
      IsFirstMin(Roughnesses(data, TrialPeriods(minPb, maxPb, ntrials)), k)
      && r.value == TrialPeriods(minPb, maxPb, ntrials)[k]
  {
    if minPb == 0.0 || maxPb == 0.0 {
      return Failure(ZeroDivisionError);
    }
    if ntrials <= 0 {
      return Failure(ValueError);
    }
    var pbs := TrialPeriods(minPb, maxPb, ntrials);
    var rough := Roughnesses(data, pbs);
    var k := ArgMin(rough);
    r := Success(pbs[k]);
  }
}
