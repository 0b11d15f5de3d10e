/**
 * The timing-model objects as records of named numeric attributes, and the
 * by-name access the fitter uses on them: reading attributes into a vector in
 * a given name order, writing a vector back by zipping it with the names, and
 * updating the attributes from a name-to-value dictionary.
 *
 * A pulsar is either isolated (spin attributes only) or binary (spin and
 * orbit attributes). Values are stored in the units the constructor chose;
 * this module does not convert anything.
 */
module Pulsars {
  import opened Wrappers

  datatype Pulsar =
    | Isolated(p0: real, p1: real, pepoch: real)
    | Binary(p0: real, p1: real, pepoch: real, pb: real, asini: real, t0: real, ecc: real, om: real)

  const SpinFields: seq<string> := ["p0", "p1", "pepoch"]
  const OrbitFields: seq<string> := ["pb", "asini", "t0", "ecc", "om"]

  /** The attribute names a pulsar of this kind carries. */
  function Fields(m: Pulsar): seq<string> {
    if m.Isolated? then SpinFields else SpinFields + OrbitFields
  }

  predicate IsField(m: Pulsar, name: string) {
    name in Fields(m)
  }

  /** `getattr(m, name)`: the attribute's value, or nothing when the pulsar
      has no numeric attribute of that name. */
  function Get(m: Pulsar, name: string): (r: Option<real>)
    ensures r.Some? <==> IsField(m, name)
  {
    if name == "p0" then Some(m.p0)
    else if name == "p1" then Some(m.p1)
    else if name == "pepoch" then Some(m.pepoch)
    else if m.Isolated? then None
    else if name == "pb" then Some(m.pb)
    else if name == "asini" then Some(m.asini)
    else if name == "t0" then Some(m.t0)
    else if name == "ecc" then Some(m.ecc)
    else if name == "om" then Some(m.om)
    else None
  }

  /** `setattr(m, name, v)` restricted to the modelled attributes: the named
      attribute takes the value, every other attribute keeps its value, and a
      name the pulsar does not carry changes none of them. */
  function Set(m: Pulsar, name: string, v: real): (r: Pulsar)
    ensures r.Isolated? == m.Isolated?
    ensures IsField(m, name) ==> Get(r, name) == Some(v)
    ensures forall other :: other != name ==> Get(r, other) == Get(m, other)
    ensures !IsField(m, name) ==> r == m
  {
    if name == "p0" then m.(p0 := v)
    else if name == "p1" then m.(p1 := v)
    else if name == "pepoch" then m.(pepoch := v)
    else if m.Isolated? then m
    else if name == "pb" then m.(pb := v)
    else if name == "asini" then m.(asini := v)
    else if name == "t0" then m.(t0 := v)
    else if name == "ecc" then m.(ecc := v)
    else if name == "om" then m.(om := v)
    else m
  }

  /** Two pulsars of the same kind that agree on every attribute are equal. */
  lemma Extensionality(a: Pulsar, b: Pulsar)
    requires a.Isolated? == b.Isolated?
    requires forall name :: Get(a, name) == Get(b, name)
    ensures a == b
  {
    assert Get(a, "p0") == Get(b, "p0");
    assert Get(a, "p1") == Get(b, "p1");
    assert Get(a, "pepoch") == Get(b, "pepoch");
    if a.Binary? {
      assert Get(a, "pb") == Get(b, "pb");
      assert Get(a, "asini") == Get(b, "asini");
      assert Get(a, "t0") == Get(b, "t0");
      assert Get(a, "ecc") == Get(b, "ecc");
      assert Get(a, "om") == Get(b, "om");
    }
  }

  /** Writing an attribute's own value back changes nothing. */
  lemma SetOwnValue(m: Pulsar, name: string)
    requires IsField(m, name)
    ensures Set(m, name, Get(m, name).value) == m
  {
    Extensionality(Set(m, name, Get(m, name).value), m);
  }

  /** `[getattr(m, key) for key in names]`: the values in name order, or the
      first name the pulsar does not carry. */
  function Extract(m: Pulsar, names: seq<string>): (r: Result<seq<real>, string>)
    ensures r.Success? <==> forall i :: 0 <= i < |names| ==> IsField(m, names[i])
    ensures r.Success? ==> |r.value| == |names|
    ensures r.Success? ==> forall i :: 0 <= i < |names| ==> Get(m, names[i]) == Some(r.value[i])
    ensures r.Failure? ==> exists i :: FirstUnknown(m, names, i) && names[i] == r.error
  {
    if names == [] then Success([])
    else
      match Get(m, names[0])
      case None => Failure(names[0])
      case Some(v) =>
        match Extract(m, names[1..])
        case Failure(e) => Failure(e)
        case Success(rest) => Success([v] + rest)
  }

  /** `names[i]` is the first name the pulsar does not carry. */
  predicate FirstUnknown(m: Pulsar, names: seq<string>, i: int) {
    0 <= i < |names| && !IsField(m, names[i]) && forall j :: 0 <= j < i ==> IsField(m, names[j])
  }

  /** `zip(names, values)`: pairs up to the length of the shorter sequence. */
  function Zip(names: seq<string>, values: seq<real>): (z: seq<(string, real)>)
    ensures |z| == if |names| <= |values| then |names| else |values|
    ensures forall i :: 0 <= i < |z| ==> z[i] == (names[i], values[i])
  {
    if names == [] || values == [] then []
    else [(names[0], values[0])] + Zip(names[1..], values[1..])
  }

  /** `[setattr(m, key, val) for key, val in pairs]`: the writes in order. */
  function Assign(m: Pulsar, pairs: seq<(string, real)>): (r: Pulsar)
    ensures r.Isolated? == m.Isolated?
    decreases |pairs|
  {
    if pairs == [] then m
    else
      var last := pairs[|pairs| - 1];
      Set(Assign(m, pairs[..|pairs| - 1]), last.0, last.1)
  }

  /** `dict(pairs)`: a later pair for the same key replaces an earlier one. */
  function ToDict(pairs: seq<(string, real)>): (d: map<string, real>)
    ensures forall k :: k in d <==> exists i :: 0 <= i < |pairs| && pairs[i].0 == k
    decreases |pairs|
  {
    if pairs == [] then map[]
    else
      var init := pairs[..|pairs| - 1];
      var last := pairs[|pairs| - 1];
      var d := ToDict(init);
      assert forall i :: 0 <= i < |init| ==> init[i] == pairs[i];
      d[last.0 := last.1]
  }

  /** `m.__dict__.update(d)` restricted to the modelled attributes: each
      attribute named in the dictionary takes the dictionary's value. */
  function Update(m: Pulsar, d: map<string, real>): (r: Pulsar)
    ensures r.Isolated? == m.Isolated?
  {
    var p0 := if "p0" in d then d["p0"] else m.p0;
    var p1 := if "p1" in d then d["p1"] else m.p1;
    var pepoch := if "pepoch" in d then d["pepoch"] else m.pepoch;
    if m.Isolated? then Isolated(p0, p1, pepoch)
    else
      Binary(p0, p1, pepoch,
        if "pb" in d then d["pb"] else m.pb,
        if "asini" in d then d["asini"] else m.asini,
        if "t0" in d then d["t0"] else m.t0,
        if "ecc" in d then d["ecc"] else m.ecc,
        if "om" in d then d["om"] else m.om)
  }

  /** After the update an attribute holds the dictionary's value when the
      dictionary names it, and its old value otherwise. */
  lemma UpdateGet(m: Pulsar, d: map<string, real>, name: string)
    ensures Get(Update(m, d), name) == if IsField(m, name) && name in d then Some(d[name]) else Get(m, name)
  {
    if name == "p0" || name == "p1" || name == "pepoch" {
    } else if m.Binary? && (name == "pb" || name == "asini" || name == "t0" || name == "ecc" || name == "om") {
    } else {
      assert !IsField(m, name);
    }
  }

  /** One more write after a dictionary update is the update with one more key. */
  lemma SetAfterUpdate(m: Pulsar, d: map<string, real>, k: string, v: real)
    ensures Set(Update(m, d), k, v) == Update(m, d[k := v])
  {
    var a := Set(Update(m, d), k, v);
    var b := Update(m, d[k := v]);
    forall name ensures Get(a, name) == Get(b, name) {
      UpdateGet(m, d, name);
      UpdateGet(m, d[k := v], name);
      if name == k {
        UpdateGet(m, d, k);
        assert IsField(Update(m, d), k) == IsField(m, k);
      }
    }
    Extensionality(a, b);
  }

  /** Writing the pairs one at a time, as the committed fit does, and updating
      from `dict(pairs)`, as the objective does, leave the same attributes. */
  lemma {:induction false} AssignIsUpdate(m: Pulsar, pairs: seq<(string, real)>)
    ensures Assign(m, pairs) == Update(m, ToDict(pairs))
    decreases |pairs|
  {
    if pairs == [] {
      forall name ensures Get(Update(m, map[]), name) == Get(m, name) {
        UpdateGet(m, map[], name);
      }
      Extensionality(Update(m, map[]), m);
    } else {
      var init := pairs[..|pairs| - 1];
      var last := pairs[|pairs| - 1];
      AssignIsUpdate(m, init);
      SetAfterUpdate(m, ToDict(init), last.0, last.1);
    }
  }

  /** With distinct keys, `dict(pairs)` maps each key to its own value. */
  lemma {:induction false} ToDictDistinct(pairs: seq<(string, real)>, i: int)
    requires 0 <= i < |pairs|
    requires forall a, b :: 0 <= a < b < |pairs| ==> pairs[a].0 != pairs[b].0
    ensures pairs[i].0 in ToDict(pairs) && ToDict(pairs)[pairs[i].0] == pairs[i].1
    decreases |pairs|
  {
    if i < |pairs| - 1 {
      var init := pairs[..|pairs| - 1];
      assert init[i] == pairs[i];
      ToDictDistinct(init, i);
    }
  }

  predicate Distinct(names: seq<string>) {
    forall a, b :: 0 <= a < b < |names| ==> names[a] != names[b]
  }

  /** Writing back a vector over distinct attribute names sets attribute
      `names[i]` to `values[i]` and leaves every attribute not named as it was. */
  lemma AssignZip(m: Pulsar, names: seq<string>, values: seq<real>)
    requires Distinct(names) && |values| == |names|
    ensures forall i :: 0 <= i < |names| && IsField(m, names[i]) ==>
      Get(Assign(m, Zip(names, values)), names[i]) == Some(values[i])
    ensures forall name :: name !in names ==> Get(Assign(m, Zip(names, values)), name) == Get(m, name)
  {
    var pairs := Zip(names, values);
    AssignIsUpdate(m, pairs);
    forall i | 0 <= i < |names| && IsField(m, names[i])
      ensures Get(Assign(m, pairs), names[i]) == Some(values[i])
    {
      ToDictDistinct(pairs, i);
      UpdateGet(m, ToDict(pairs), names[i]);
    }
    forall name | name !in names
      ensures Get(Assign(m, pairs), name) == Get(m, name)
    {
      UpdateGet(m, ToDict(pairs), name);
    }
  }

  /** Writing back the vector just read leaves the pulsar unchanged. */
  lemma AssignExtract(m: Pulsar, names: seq<string>)
    requires Extract(m, names).Success?
    ensures Assign(m, Zip(names, Extract(m, names).value)) == m
  {
    var values := Extract(m, names).value;
    var pairs := Zip(names, values);
    AssignIsUpdate(m, pairs);
    var u := Update(m, ToDict(pairs));
    forall name ensures Get(u, name) == Get(m, name) {
      UpdateGet(m, ToDict(pairs), name);
      if IsField(m, name) && name in ToDict(pairs) {
        var i :| 0 <= i < |pairs| && pairs[i].0 == name;
        ToDictLast(pairs, name);
        var j :| 0 <= j < |pairs| && pairs[j].0 == name && ToDict(pairs)[name] == pairs[j].1;
        assert Get(m, names[j]) == Some(values[j]);
      }
    }
    Extensionality(u, m);
  }

  /** Every key of `dict(pairs)` maps to the value of the last pair with
      that key. */
  lemma {:induction false} ToDictLast(pairs: seq<(string, real)>, k: string)
    requires k in ToDict(pairs)
    ensures exists j :: LastPair(pairs, j, k) && ToDict(pairs)[k] == pairs[j].1
    decreases |pairs|
  {
    var init := pairs[..|pairs| - 1];
    var last := pairs[|pairs| - 1];
    if last.0 == k {
      assert LastPair(pairs, |pairs| - 1, k);
    } else {
      ToDictLast(init, k);
      var j :| LastPair(init, j, k) && ToDict(init)[k] == init[j].1;
      assert pairs[j] == init[j];
      assert forall l :: j < l < |init| ==> pairs[l] == init[l];
      assert LastPair(pairs, j, k);
    }
  }

  /** `pairs[j]` is the last pair whose name is `k`. */
  predicate LastPair(pairs: seq<(string, real)>, j: int, k: string) {
    0 <= j < |pairs| && pairs[j].0 == k
    && forall l :: j < l < |pairs| ==> pairs[l].0 != k
  }

  /** Reading back the attributes just written over distinct known names
      yields the written vector. */
  lemma ExtractAssign(m: Pulsar, names: seq<string>, values: seq<real>)
    requires Distinct(names) && |values| == |names|
    requires forall i :: 0 <= i < |names| ==> IsField(m, names[i])
    ensures Extract(Assign(m, Zip(names, values)), names) == Success(values)
  {
    var r := Assign(m, Zip(names, values));
    AssignZip(m, names, values);
    assert forall i :: 0 <= i < |names| ==> IsField(r, names[i]) by {
      forall i | 0 <= i < |names| ensures IsField(r, names[i]) {
        assert Get(r, names[i]) == Some(values[i]);
      }
    }
    var e := Extract(r, names);
    assert e.Success?;
    assert e.value == values by {
      forall i | 0 <= i < |names| ensures e.value[i] == values[i] {
        assert Get(r, names[i]) == Some(e.value[i]);
        assert Get(r, names[i]) == Some(values[i]);
      }
    }
  }
}
