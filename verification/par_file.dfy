/**
 * Pulsar parameter ("par") files: one `KEY VALUE` pair per line.
 *
 * Reading splits each line into whitespace-separated words, keeps the first
 * two words of every line that has at least two, lets a later line for the
 * same key replace an earlier one, and then builds an isolated or binary
 * pulsar from the keys. Writing prints the model's values back in the par
 * file's units. Decimal text is not modelled: `parse` and `format` stand for
 * Python's `float(text)` and `str(x)`.
 */
module ParFile {
  import opened Wrappers
  import opened OrbitUtils
  import opened Pulsars
  import opened Models

  /** The bytes Python 2's `str.split()` treats as whitespace. */
  predicate IsSpace(c: char) {
    c == ' ' || c == '\t' || c == '\n' || c == '\r' || c as int == 11 || c as int == 12
  }

  /** A word: a non-empty run of non-whitespace characters. */
  predicate IsWord(w: string) {
    |w| > 0 && forall i :: 0 <= i < |w| ==> !IsSpace(w[i])
  }

  /** The length of the longest whitespace-free prefix. */
  function WordLength(s: string): (n: nat)
    ensures n <= |s|
    ensures forall i :: 0 <= i < n ==> !IsSpace(s[i])
    ensures n < |s| ==> IsSpace(s[n])
  {
    if s == [] || IsSpace(s[0]) then 0 else 1 + WordLength(s[1..])
  }

  /** `line.split()`: the maximal runs of non-whitespace, in order. */
  function Split(s: string): (words: seq<string>)
    ensures forall i :: 0 <= i < |words| ==> IsWord(words[i])
    decreases |s|
  {
    if s == [] then []
    else if IsSpace(s[0]) then Split(s[1..])
    else
      var n := WordLength(s);
      [s[..n]] + Split(s[n..])
  }

  /** A word followed by whitespace or by nothing is read whole. */
  lemma {:induction false} WordLengthOfWord(w: string, rest: string)
    requires IsWord(w) && (rest == [] || IsSpace(rest[0]))
    ensures WordLength(w + rest) == |w|
    decreases |w|
  {
    var s := w + rest;
    assert s[0] == w[0];
    if |w| > 1 {
      var w' := w[1..];
      assert IsWord(w') by {
        forall i | 0 <= i < |w'| ensures !IsSpace(w'[i]) {
          assert w'[i] == w[i + 1];
        }
      }
      assert s[1..] == w' + rest;
      WordLengthOfWord(w', rest);
    } else {
      assert s[1..] == rest;
    }
  }

  /** The line `key value` as the writer prints it. */
  function Line(key: string, value: string): string {
    key + " " + value + "\n"
  }

  /** A word followed by whitespace or by nothing is the next word. */
  lemma SplitWord(w: string, rest: string)
    requires IsWord(w) && (rest == [] || IsSpace(rest[0]))
    ensures Split(w + rest) == [w] + Split(rest)
  {
    var s := w + rest;
    WordLengthOfWord(w, rest);
    assert s[0] == w[0];
    assert s[..|w|] == w;
    assert s[|w|..] == rest;
  }

  /** Leading whitespace is skipped. */
  lemma SplitSpace(c: char, rest: string)
    requires IsSpace(c)
    ensures Split([c] + rest) == Split(rest)
  {
    assert ([c] + rest)[1..] == rest;
  }

  /** A printed line splits back into its key and its value. */
  lemma SplitLine(key: string, value: string)
    requires IsWord(key) && IsWord(value)
    ensures Split(Line(key, value)) == [key, value]
  {
    var last := value + "\n";
    var tail := " " + last;
    assert Line(key, value) == key + tail;
    SplitWord(key, tail);
    SplitSpace(' ', last);
    SplitWord(value, "\n");
    SplitSpace('\n', []);
    assert "\n" == ['\n'] + [];
  }

  /** Line `line` assigns `key`: it has at least two words and the first is `key`. */
  predicate Assigns(line: string, key: string) {
    var words := Split(line);
    |words| >= 2 && words[0] == key
  }

  /** The `par` dictionary: for every line with at least two words, the first
      word maps to the second; a later line replaces an earlier one. */
  function BuildPar(lines: seq<string>): (par: map<string, string>)
    ensures forall key :: key in par <==> exists i :: 0 <= i < |lines| && Assigns(lines[i], key)
    decreases |lines|
  {
    if lines == [] then map[]
    else
      var init := lines[..|lines| - 1];
      var words := Split(lines[|lines| - 1]);
      var par := BuildPar(init);
      assert forall i :: 0 <= i < |init| ==> init[i] == lines[i];
      if |words| < 2 then par else par[words[0] := words[1]]
  }

  /** A key maps to the second word of the last line that assigns it. */
  lemma {:induction false} BuildParLast(lines: seq<string>, key: string, i: int)
    requires 0 <= i < |lines| && Assigns(lines[i], key)
    requires forall j :: i < j < |lines| ==> !Assigns(lines[j], key)
    ensures key in BuildPar(lines) && BuildPar(lines)[key] == Split(lines[i])[1]
    decreases |lines|
  {
    if i < |lines| - 1 {
      var init := lines[..|lines| - 1];
      assert init[i] == lines[i];
      forall j | i < j < |init| ensures !Assigns(init[j], key) {
        assert init[j] == lines[j];
      }
      BuildParLast(init, key, i);
      assert !Assigns(lines[|lines| - 1], key);
    }
  }

  datatype ParError =
    | ValueError(key: string)   // `float(text)` rejected the value of `key`
    | ZeroDivisionError         // `F0` was zero

  /** `float(par[key])`: the parsed value or a `ValueError` naming the key. */
  function Number(par: map<string, string>, key: string, parse: string -> Option<real>): (r: Result<real, ParError>)
    requires key in par
    ensures r.Success? <==> parse(par[key]).Some?
    ensures r.Success? ==> parse(par[key]) == Some(r.value)
    ensures r.Failure? ==> r.error == ValueError(key)
  {
    match parse(par[key])
    case None => Failure(ValueError(key))
    case Some(x) => Success(x)
  }

  /** `float(par.get(key, 0.0))`: a missing key reads as zero. */
  function NumberOrZero(par: map<string, string>, key: string, parse: string -> Option<real>): (r: Result<real, ParError>)
    ensures key !in par ==> r == Success(0.0)
    ensures key in par ==> r == Number(par, key, parse)
  {
    if key in par then Number(par, key, parse) else Success(0.0)
  }

  /** The spin period: `P0` when present, else the reciprocal of `F0`, else 0. */
  function SpinPeriod(par: map<string, string>, parse: string -> Option<real>): (r: Result<real, ParError>)
    ensures "P0" in par ==> r == Number(par, "P0", parse)
    ensures "P0" !in par && "F0" in par && r.Success? ==>
      parse(par["F0"]).Some? && r.value * parse(par["F0"]).value == 1.0
    ensures "P0" !in par && "F0" in par && parse(par["F0"]) == Some(0.0) ==> r == Failure(ZeroDivisionError)
    ensures "P0" !in par && "F0" in par && parse(par["F0"]).None? ==> r == Failure(ValueError("F0"))
    ensures "P0" !in par && "F0" in par && parse(par["F0"]).Some? && parse(par["F0"]).value != 0.0 ==> r.Success?
    ensures "P0" !in par && "F0" !in par ==> r == Success(0.0)
  {
    if "P0" in par then Number(par, "P0", parse)
    else if "F0" in par then
      var f0 :- Number(par, "F0", parse);
      if f0 == 0.0 then Failure(ZeroDivisionError) else Success(1.0 / f0)
    else Success(0.0)
  }

  /** The spin-period derivative: `P1` when present, else `-p0^2 * F1`, else 0. */
  function SpinPeriodDerivative(par: map<string, string>, parse: string -> Option<real>, p0: real): (r: Result<real, ParError>)
    ensures "P1" in par ==> r == Number(par, "P1", parse)
    ensures "P1" !in par && "F1" in par && r.Success? ==>
      parse(par["F1"]).Some? && r.value == -(p0 * p0) * parse(par["F1"]).value
    ensures "P1" !in par && "F1" in par && parse(par["F1"]).None? ==> r == Failure(ValueError("F1"))
    ensures "P1" !in par && "F1" in par && parse(par["F1"]).Some? ==> r.Success?
    ensures "P1" !in par && "F1" !in par ==> r == Success(0.0)
  {
    if "P1" in par then Number(par, "P1", parse)
    else if "F1" in par then
      var f1 :- Number(par, "F1", parse);
      Success(-(p0 * p0) * f1)
    else Success(0.0)
  }

  /** `read_par_file`: the pulsar the file describes, or the first error. It
      is a binary exactly when some line assigns `BINARY`. */
  function ReadParFile(lines: seq<string>, parse: string -> Option<real>): (r: Result<Pulsar, ParError>)
    ensures r.Success? ==> (r.value.Binary? <==> exists i :: 0 <= i < |lines| && Assigns(lines[i], "BINARY"))
  {
    FromPar(BuildPar(lines), parse)
  }

  /** The pulsar a `par` dictionary describes, or the first value that does
      not parse, in the order `P0`/`F0`, `P1`/`F1`, `PEPOCH`, then `PB`, `A1`,
      `T0`, `OM`, `ECC` for a binary (the orbital order is in
      `FromParOrbitError`). */
  function FromPar(par: map<string, string>, parse: string -> Option<real>): (r: Result<Pulsar, ParError>)
    ensures r.Success? <==>
      SpinPeriod(par, parse).Success?
      && SpinPeriodDerivative(par, parse, SpinPeriod(par, parse).value).Success?
      && NumberOrZero(par, "PEPOCH", parse).Success?
      && ("BINARY" in par ==> OrbitReadable(par, parse))
    ensures SpinPeriod(par, parse).Failure? ==> r == Failure(SpinPeriod(par, parse).error)
    ensures r.Failure? && SpinPeriod(par, parse).Success? ==> r.error.ValueError?
    ensures SpinPeriod(par, parse).Success? && SpinPeriodDerivative(par, parse, SpinPeriod(par, parse).value).Failure? ==>
      r == Failure(SpinPeriodDerivative(par, parse, SpinPeriod(par, parse).value).error)
    ensures (SpinPeriod(par, parse).Success? && SpinPeriodDerivative(par, parse, SpinPeriod(par, parse).value).Success?
             && NumberOrZero(par, "PEPOCH", parse).Failure?) ==> r == Failure(ValueError("PEPOCH"))
    ensures r.Success? ==> (r.value.Binary? <==> "BINARY" in par)
    ensures r.Success? ==> r.value.p0 == SpinPeriod(par, parse).value
    ensures r.Success? ==> r.value.p1 == SpinPeriodDerivative(par, parse, r.value.p0).value
    ensures r.Success? ==> r.value.pepoch == NumberOrZero(par, "PEPOCH", parse).value * DAY_2_SEC
    ensures r.Success? && r.value.Binary? ==>
      r.value.pb == NumberOrZero(par, "PB", parse).value * DAY_2_SEC
      && r.value.asini == NumberOrZero(par, "A1", parse).value * C
      && r.value.t0 == NumberOrZero(par, "T0", parse).value * DAY_2_SEC
      && r.value.ecc == NumberOrZero(par, "ECC", parse).value
      && r.value.om == NumberOrZero(par, "OM", parse).value
  {
    var p0 :- SpinPeriod(par, parse);
    var p1 :- SpinPeriodDerivative(par, parse, p0);
    var pepoch :- NumberOrZero(par, "PEPOCH", parse);
    if "BINARY" in par then
      var pb :- NumberOrZero(par, "PB", parse);
      var asini :- NumberOrZero(par, "A1", parse);
      var t0 :- NumberOrZero(par, "T0", parse);
      var om :- NumberOrZero(par, "OM", parse);
      var ecc :- NumberOrZero(par, "ECC", parse);
      Success(NewBinary(p0, p1, pepoch, pb, asini, t0, ecc, om))
    else
      Success(NewIsolated(p0, p1, pepoch))
  }

  /** The orbital keys in the order a binary reads them. */
  const ORBIT_KEYS: seq<string> := ["PB", "A1", "T0", "OM", "ECC"]

  /** `ORBIT_KEYS[i]` is the first orbital key whose value does not parse. */
  predicate FirstUnreadable(par: map<string, string>, parse: string -> Option<real>, i: int) {
    0 <= i < |ORBIT_KEYS| && NumberOrZero(par, ORBIT_KEYS[i], parse).Failure?
    && forall j :: 0 <= j < i ==> NumberOrZero(par, ORBIT_KEYS[j], parse).Success?
  }

  /** A binary whose spin values and epoch read fails at the first orbital
      key, in reading order, whose value does not parse. */
  lemma FromParOrbitError(par: map<string, string>, parse: string -> Option<real>)
    requires SpinPeriod(par, parse).Success?
    requires SpinPeriodDerivative(par, parse, SpinPeriod(par, parse).value).Success?
    requires NumberOrZero(par, "PEPOCH", parse).Success?
    requires "BINARY" in par && !OrbitReadable(par, parse)
    ensures exists i :: FirstUnreadable(par, parse, i) && FromPar(par, parse) == Failure(ValueError(ORBIT_KEYS[i]))
  {
    var ok := (k: string) => NumberOrZero(par, k, parse).Success?;
    if !ok("PB") { assert FirstUnreadable(par, parse, 0); }
    else if !ok("A1") { assert FirstUnreadable(par, parse, 1); }
    else if !ok("T0") { assert FirstUnreadable(par, parse, 2); }
    else if !ok("OM") { assert FirstUnreadable(par, parse, 3); }
    else { assert FirstUnreadable(par, parse, 4); }
  }

  /** Every orbital key a binary reads is absent or parses. */
  predicate OrbitReadable(par: map<string, string>, parse: string -> Option<real>) {
    NumberOrZero(par, "PB", parse).Success? && NumberOrZero(par, "A1", parse).Success?
    && NumberOrZero(par, "T0", parse).Success? && NumberOrZero(par, "OM", parse).Success?
    && NumberOrZero(par, "ECC", parse).Success?
  }

  /** A key the dictionary lacks gives the field zero. */
  lemma FromParDefaults(par: map<string, string>, parse: string -> Option<real>)
    requires FromPar(par, parse).Success?
    ensures "P0" !in par && "F0" !in par ==> FromPar(par, parse).value.p0 == 0.0
    ensures "P1" !in par && "F1" !in par ==> FromPar(par, parse).value.p1 == 0.0
    ensures "PEPOCH" !in par ==> FromPar(par, parse).value.pepoch == 0.0
    ensures "BINARY" in par && "PB" !in par ==> FromPar(par, parse).value.pb == 0.0
    ensures "BINARY" in par && "A1" !in par ==> FromPar(par, parse).value.asini == 0.0
    ensures "BINARY" in par && "T0" !in par ==> FromPar(par, parse).value.t0 == 0.0
    ensures "BINARY" in par && "ECC" !in par ==> FromPar(par, parse).value.ecc == 0.0
    ensures "BINARY" in par && "OM" !in par ==> FromPar(par, parse).value.om == 0.0
  {
  }

  /** `lines[i]` is the last line that assigns `key`. */
  predicate LastAssigns(lines: seq<string>, i: int, key: string) {
    0 <= i < |lines| && Assigns(lines[i], key)
    && forall j :: i < j < |lines| ==> !Assigns(lines[j], key)
  }

  /** A value read from a file is the parsed second word of the last line that
      assigns its key, in the file's units. */
  lemma ReadParFileLastLine(lines: seq<string>, parse: string -> Option<real>, i: int, key: string)
    requires LastAssigns(lines, i, key) && ReadParFile(lines, parse).Success?
    ensures key == "P0" ==> parse(Split(lines[i])[1]) == Some(ReadParFile(lines, parse).value.p0)
    ensures key == "P1" ==> parse(Split(lines[i])[1]) == Some(ReadParFile(lines, parse).value.p1)
    ensures key == "PEPOCH" ==> parse(Split(lines[i])[1]) == Some(ReadParFile(lines, parse).value.pepoch / DAY_2_SEC)
    ensures key == "PB" && ReadParFile(lines, parse).value.Binary? ==>
      parse(Split(lines[i])[1]) == Some(ReadParFile(lines, parse).value.pb / DAY_2_SEC)
    ensures key == "A1" && ReadParFile(lines, parse).value.Binary? ==>
      parse(Split(lines[i])[1]) == Some(ReadParFile(lines, parse).value.asini / C)
    ensures key == "T0" && ReadParFile(lines, parse).value.Binary? ==>
      parse(Split(lines[i])[1]) == Some(ReadParFile(lines, parse).value.t0 / DAY_2_SEC)
    ensures key == "ECC" && ReadParFile(lines, parse).value.Binary? ==>
      parse(Split(lines[i])[1]) == Some(ReadParFile(lines, parse).value.ecc)
    ensures key == "OM" && ReadParFile(lines, parse).value.Binary? ==>
      parse(Split(lines[i])[1]) == Some(ReadParFile(lines, parse).value.om)
  {
    BuildParLast(lines, key, i);
    var par := BuildPar(lines);
    assert par[key] == Split(lines[i])[1];
  }

  /** `write_par_file`: the spin lines, then for a binary the `BINARY BT`
      marker and the orbit lines, each value in the file's units. */
  function WriteParFile(m: Pulsar, format: real -> string): (lines: seq<string>)
    ensures |lines| == if m.Isolated? then 3 else 9
  {
    var spin := [
      Line("P0", format(m.p0)),
      Line("P1", format(m.p1)),
      Line("PEPOCH", format(m.pepoch / DAY_2_SEC))];
    if m.Isolated? then spin
    else spin + [
      Line("BINARY", "BT"),
      Line("PB", format(m.pb / DAY_2_SEC)),
      Line("A1", format(m.asini / C)),
      Line("T0", format(m.t0 / DAY_2_SEC)),
      Line("ECC", format(m.ecc)),
      Line("OM", format(m.om))]
  }

  /** `format` prints `x` as one word that `parse` reads back as `x`. */
  predicate RoundTrips(format: real -> string, parse: string -> Option<real>, x: real) {
    IsWord(format(x)) && parse(format(x)) == Some(x)
  }

  /** The values the writer prints for `m`, in the file's units. */
  predicate WrittenValuesRoundTrip(m: Pulsar, format: real -> string, parse: string -> Option<real>) {
    RoundTrips(format, parse, m.p0) && RoundTrips(format, parse, m.p1)
    && RoundTrips(format, parse, m.pepoch / DAY_2_SEC)
    && (m.Binary? ==>
      RoundTrips(format, parse, m.pb / DAY_2_SEC) && RoundTrips(format, parse, m.asini / C)
      && RoundTrips(format, parse, m.t0 / DAY_2_SEC) && RoundTrips(format, parse, m.ecc)
      && RoundTrips(format, parse, m.om))
  }

  /** The dictionary read from lines `keys[i] values[i]` with distinct keys
      maps each key to its value and holds no other key. */
  lemma ParOfLines(lines: seq<string>, keys: seq<string>, values: seq<string>)
    requires |keys| == |values| == |lines|
    requires forall i :: 0 <= i < |lines| ==> lines[i] == Line(keys[i], values[i])
    requires forall i :: 0 <= i < |lines| ==> IsWord(keys[i]) && IsWord(values[i])
    requires forall i, j :: 0 <= i < j < |keys| ==> keys[i] != keys[j]
    ensures forall i :: 0 <= i < |keys| ==> keys[i] in BuildPar(lines) && BuildPar(lines)[keys[i]] == values[i]
    ensures forall key :: key in BuildPar(lines) ==> key in keys
  {
    forall i | 0 <= i < |lines| ensures Split(lines[i]) == [keys[i], values[i]] {
      SplitLine(keys[i], values[i]);
    }
    forall i | 0 <= i < |keys| ensures keys[i] in BuildPar(lines) && BuildPar(lines)[keys[i]] == values[i] {
      BuildParLast(lines, keys[i], i);
    }
  }

  /** The spin values read back from a written file. */
  lemma SpinReadBack(par: map<string, string>, m: Pulsar, format: real -> string, parse: string -> Option<real>)
    requires WrittenValuesRoundTrip(m, format, parse)
    requires "P0" in par && par["P0"] == format(m.p0)
    requires "P1" in par && par["P1"] == format(m.p1)
    requires "PEPOCH" in par && par["PEPOCH"] == format(m.pepoch / DAY_2_SEC)
    ensures SpinPeriod(par, parse) == Success(m.p0)
    ensures SpinPeriodDerivative(par, parse, m.p0) == Success(m.p1)
    ensures NumberOrZero(par, "PEPOCH", parse) == Success(m.pepoch / DAY_2_SEC)
  {
  }

  /** Reading back a written file gives the same pulsar, provided each printed
      number reads back as itself: the unit conversions of the writer undo
      those of the constructors. */
  lemma ReadWrite(m: Pulsar, format: real -> string, parse: string -> Option<real>)
    requires WrittenValuesRoundTrip(m, format, parse)
    ensures ReadParFile(WriteParFile(m, format), parse) == Success(m)
  {
    if m.Isolated? {
      ReadWriteIsolated(m, format, parse);
    } else {
      ReadWriteBinary(m, format, parse);
    }
  }

  lemma KeyWords()
    ensures IsWord("P0") && IsWord("P1") && IsWord("PEPOCH") && IsWord("BINARY") && IsWord("BT")
    ensures IsWord("PB") && IsWord("A1") && IsWord("T0") && IsWord("ECC") && IsWord("OM")
  {
  }

  lemma FromParIsolated(par: map<string, string>, m: Pulsar, format: real -> string, parse: string -> Option<real>)
    requires m.Isolated? && WrittenValuesRoundTrip(m, format, parse)
    requires "P0" in par && par["P0"] == format(m.p0)
    requires "P1" in par && par["P1"] == format(m.p1)
    requires "PEPOCH" in par && par["PEPOCH"] == format(m.pepoch / DAY_2_SEC)
    requires "BINARY" !in par
    ensures FromPar(par, parse) == Success(m)
  {
    SpinReadBack(par, m, format, parse);
  }

  lemma ReadWriteIsolated(m: Pulsar, format: real -> string, parse: string -> Option<real>)
    requires m.Isolated? && WrittenValuesRoundTrip(m, format, parse)
    ensures ReadParFile(WriteParFile(m, format), parse) == Success(m)
  {
    var par := BuildPar(WriteParFile(m, format));
    IsolatedPar(m, format);
    FromParIsolated(par, m, format, parse);
  }

  /** The dictionary read from the file written for an isolated pulsar. */
  lemma IsolatedPar(m: Pulsar, format: real -> string)
    requires m.Isolated?
    requires IsWord(format(m.p0)) && IsWord(format(m.p1)) && IsWord(format(m.pepoch / DAY_2_SEC))
    ensures var par := BuildPar(WriteParFile(m, format));
      && "P0" in par && par["P0"] == format(m.p0)
      && "P1" in par && par["P1"] == format(m.p1)
      && "PEPOCH" in par && par["PEPOCH"] == format(m.pepoch / DAY_2_SEC)
      && "BINARY" !in par
  {
    var lines := WriteParFile(m, format);
    var keys := ["P0", "P1", "PEPOCH"];
    var values := [format(m.p0), format(m.p1), format(m.pepoch / DAY_2_SEC)];
    assert lines == [Line(keys[0], values[0]), Line(keys[1], values[1]), Line(keys[2], values[2])];
    KeyWords();
    DistinctKeys(keys);
    ParOfLines(lines, keys, values);
  }

  lemma DistinctKeys(keys: seq<string>)
    requires keys == ["P0", "P1", "PEPOCH"] || keys == ["P0", "P1", "PEPOCH", "BINARY", "PB", "A1", "T0", "ECC", "OM"]
    ensures forall i, j :: 0 <= i < j < |keys| ==> keys[i] != keys[j]
    ensures "BINARY" in keys <==> |keys| == 9
  {
  }

  lemma FromParBinary(par: map<string, string>, m: Pulsar, format: real -> string, parse: string -> Option<real>)
    requires m.Binary? && WrittenValuesRoundTrip(m, format, parse)
    requires "P0" in par && par["P0"] == format(m.p0)
    requires "P1" in par && par["P1"] == format(m.p1)
    requires "PEPOCH" in par && par["PEPOCH"] == format(m.pepoch / DAY_2_SEC)
    requires "BINARY" in par
    requires "PB" in par && par["PB"] == format(m.pb / DAY_2_SEC)
    requires "A1" in par && par["A1"] == format(m.asini / C)
    requires "T0" in par && par["T0"] == format(m.t0 / DAY_2_SEC)
    requires "ECC" in par && par["ECC"] == format(m.ecc)
    requires "OM" in par && par["OM"] == format(m.om)
    ensures FromPar(par, parse) == Success(m)
  {
    SpinReadBack(par, m, format, parse);
  }

  lemma ReadWriteBinary(m: Pulsar, format: real -> string, parse: string -> Option<real>)
    requires m.Binary? && WrittenValuesRoundTrip(m, format, parse)
    ensures ReadParFile(WriteParFile(m, format), parse) == Success(m)
  {
    var par := BuildPar(WriteParFile(m, format));
    BinaryPar(m, format);
    FromParBinary(par, m, format, parse);
  }

  /** The dictionary read from the file written for a binary pulsar. */
  lemma BinaryPar(m: Pulsar, format: real -> string)
    requires m.Binary?
    requires IsWord(format(m.p0)) && IsWord(format(m.p1)) && IsWord(format(m.pepoch / DAY_2_SEC))
    requires IsWord(format(m.pb / DAY_2_SEC)) && IsWord(format(m.asini / C)) && IsWord(format(m.t0 / DAY_2_SEC))
    requires IsWord(format(m.ecc)) && IsWord(format(m.om))
    ensures var par := BuildPar(WriteParFile(m, format));
      && "P0" in par && par["P0"] == format(m.p0)
      && "P1" in par && par["P1"] == format(m.p1)
      && "PEPOCH" in par && par["PEPOCH"] == format(m.pepoch / DAY_2_SEC)
      && "BINARY" in par
      && "PB" in par && par["PB"] == format(m.pb / DAY_2_SEC)
      && "A1" in par && par["A1"] == format(m.asini / C)
      && "T0" in par && par["T0"] == format(m.t0 / DAY_2_SEC)
      && "ECC" in par && par["ECC"] == format(m.ecc)
      && "OM" in par && par["OM"] == format(m.om)
  {
    var lines := WriteParFile(m, format);
    var keys := ["P0", "P1", "PEPOCH", "BINARY", "PB", "A1", "T0", "ECC", "OM"];
    var values := [format(m.p0), format(m.p1), format(m.pepoch / DAY_2_SEC), "BT",
      format(m.pb / DAY_2_SEC), format(m.asini / C), format(m.t0 / DAY_2_SEC), format(m.ecc), format(m.om)];
    assert lines == [Line(keys[0], values[0]), Line(keys[1], values[1]), Line(keys[2], values[2]),
      Line(keys[3], values[3]), Line(keys[4], values[4]), Line(keys[5], values[5]),
      Line(keys[6], values[6]), Line(keys[7], values[7]), Line(keys[8], values[8])];
    KeyWords();
    DistinctKeys(keys);
    ParOfLines(lines, keys, values);
  }
}
