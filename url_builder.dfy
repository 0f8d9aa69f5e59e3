/** URL assembly from components (src/data/helperfunctions/url_builder.py): a base, an
    ordered dict of parameters and a list of delimiters, with the two setters that fill in
    parameter values and rename parameter keys. */
module Urls {
  import opened Wrappers
  import opened Hours

  /** The URL components: 'base', 'params' in dict order, and 'delimiters', whose first
      entry is a plain string and whose later entries are (separator, terminator) pairs. */
  datatype Components = Components(
    base: string,
    params: seq<(string, string)>,
    leading: string,
    delimiters: seq<(string, string)>)

  /** str.replace(' ', ''): every space dropped, every other character kept. */
  function RemoveSpaces(s: string): (r: string)
    ensures forall i :: 0 <= i < |r| ==> r[i] != ' '
    ensures forall c :: c != ' ' ==> multiset(r)[c] == multiset(s)[c]
    ensures |r| <= |s|
  {
    if |s| == 0 then ""
    else
      assert s == s[..|s| - 1] + [s[|s| - 1]];
      RemoveSpaces(s[..|s| - 1]) + (if s[|s| - 1] == ' ' then "" else [s[|s| - 1]])
  }

  /** Dropping spaces works piece by piece, so the kept characters stay in order. */
  lemma {:induction false} RemoveSpacesSplit(a: string, b: string)
    ensures RemoveSpaces(a + b) == RemoveSpaces(a) + RemoveSpaces(b)
    decreases |b|
  {
    if |b| == 0 {
      assert a + b == a;
    } else {
      var b' := b[..|b| - 1];
      assert (a + b)[..|a + b| - 1] == a + b';
      assert (a + b)[|a + b| - 1] == b[|b| - 1];
      RemoveSpacesSplit(a, b');
    }
  }

  /** The text one parameter adds: key, separator and value when the separator is
      non-empty, otherwise key and the value without its spaces; then the terminator. */
  function Segment(param: string, value: string, d: (string, string)): string
  {
    (if d.0 != "" then param + d.0 + value else param + RemoveSpaces(value)) + d.1
  }

  /** The parameters that get a delimiter: zip stops at the shorter list. */
  function Zipped(c: Components): nat
  {
    if |c.params| <= |c.delimiters| then |c.params| else |c.delimiters|
  }

  function SegmentsFrom(c: Components, k: nat): string
    requires k <= Zipped(c)
    decreases Zipped(c) - k
  {
    if k == Zipped(c) then ""
    else Segment(c.params[k].0, c.params[k].1, c.delimiters[k]) + SegmentsFrom(c, k + 1)
  }

  /** The URL _build produces; an empty first delimiter raises. */
  function UrlOf(c: Components): (r: Result<string, DataError>)
    ensures r.Ok? <==> |c.leading| > 0
    ensures r.Ok? ==> c.base + [c.leading[0]] <= r.value
  {
    if |c.leading| == 0 then Err(IndexOutOfRange)
    else Ok(c.base + [c.leading[0]] + SegmentsFrom(c, 0))
  }

  /** One pass of the loop of _build: append a parameter and its delimiters. */
  method AppendSegment(url: string, param: string, value: string, delimiter: (string, string))
    returns (u: string)
    ensures u == url + Segment(param, value, delimiter)
  {
    u := url;
    if delimiter.0 != "" {
      u := u + param + delimiter.0 + value;
    } else {
      u := u + param + RemoveSpaces(value);
    }
    if delimiter.1 != "" {
      u := u + delimiter.1;
    }
  }

  method Build(c: Components) returns (r: Result<string, DataError>)
    ensures r == UrlOf(c)
  {
    var url := c.base;
    if |c.leading| == 0 {
      return Err(IndexOutOfRange);
    }
    url := url + [c.leading[0]];
    ghost var head := url;
    var n := if |c.params| <= |c.delimiters| then |c.params| else |c.delimiters|;
    var k := 0;
    while k < n
      invariant k <= n && n == Zipped(c)
      invariant url + SegmentsFrom(c, k) == head + SegmentsFrom(c, 0)
    {
      var (param, value) := c.params[k];
      ghost var before := url;
      url := AppendSegment(url, param, value, c.delimiters[k]);
      assert before + SegmentsFrom(c, k) == url + SegmentsFrom(c, k + 1);
      k := k + 1;
    }
    assert url + SegmentsFrom(c, k) == url;
    r := Ok(url);
  }

  /** Parameters beyond the delimiter entries never reach the URL. */
  lemma ExtraParamsIgnored(c: Components)
    requires |c.params| > |c.delimiters|
    ensures UrlOf(c) == UrlOf(c.(params := c.params[..|c.delimiters|]))
  {
    var c' := c.(params := c.params[..|c.delimiters|]);
    SegmentsAgree(c, c', 0);
  }

  lemma {:induction false} SegmentsAgree(c: Components, c': Components, k: nat)
    requires c'.delimiters == c.delimiters && Zipped(c') == Zipped(c) && k <= Zipped(c)
    requires forall i :: 0 <= i < Zipped(c) ==> c'.params[i] == c.params[i]
    ensures SegmentsFrom(c, k) == SegmentsFrom(c', k)
    decreases Zipped(c) - k
  {
    if k < Zipped(c) {
      SegmentsAgree(c, c', k + 1);
    }
  }

  /** The components of the URL test, three path segments on a base. */
  const ExampleComponents: Components :=
    Components("https://www.dr.dk", [("sporten", ""), ("resultater", ""), ("fodbold", "")],
               "/", [("", "/"), ("", "/"), ("", "")])

  lemma BuildExample()
    ensures UrlOf(ExampleComponents) == Ok("https://www.dr.dk/" + "sporten/" + "resultater/" + "fodbold")
  {
    var c := ExampleComponents;
    assert RemoveSpaces("") == "";
    assert SegmentsFrom(c, 3) == "";
    assert Segment("fodbold", "", ("", "")) == "fodbold";
    assert SegmentsFrom(c, 2) == "fodbold";
    assert Segment("resultater", "", ("", "/")) == "resultater/";
    assert SegmentsFrom(c, 1) == "resultater/" + "fodbold";
    assert Segment("sporten", "", ("", "/")) == "sporten/";
    assert SegmentsFrom(c, 0) == "sporten/" + ("resultater/" + "fodbold");
    assert c.base + [c.leading[0]] == "https://www.dr.dk/";
    var a, b1, b2, b3 := "https://www.dr.dk/", "sporten/", "resultater/", "fodbold";
    assert a + (b1 + (b2 + b3)) == a + b1 + b2 + b3;
  }

  // ---------------------------------------------------------------------------------
  // set_values

  function Prepend(x: (string, string), r: Result<seq<(string, string)>, DataError>): Result<seq<(string, string)>, DataError>
  {
    match r
    case Err(e) => Err(e)
    case Ok(rest) => Ok([x] + rest)
  }

  function Join(p: seq<(string, string)>, r: Result<seq<(string, string)>, DataError>): Result<seq<(string, string)>, DataError>
  {
    match r
    case Err(e) => Err(e)
    case Ok(rest) => Ok(p + rest)
  }

  lemma JoinPrepend(p: seq<(string, string)>, x: (string, string), r: Result<seq<(string, string)>, DataError>)
    ensures Join(p, Prepend(x, r)) == Join(p + [x], r)
    ensures Join([], r) == r
  {
    if r.Ok? {
      assert p + ([x] + r.value) == (p + [x]) + r.value;
      assert [] + r.value == r.value;
    }
  }

  /** The parameters with every empty value replaced, in order, by the next of `values`;
      running out of values raises. */
  function Filled(params: seq<(string, string)>, values: seq<string>): Result<seq<(string, string)>, DataError>
  {
    if |params| == 0 then Ok([])
    else if params[0].1 == "" then
      if |values| == 0 then Err(IndexOutOfRange)
      else Prepend((params[0].0, values[0]), Filled(params[1..], values[1..]))
    else Prepend(params[0], Filled(params[1..], values))
  }

  /** The number of empty values among the first i parameters. */
  function EmptiesBefore(params: seq<(string, string)>, i: nat): nat
    requires i <= |params|
  {
    if i == 0 then 0 else EmptiesBefore(params, i - 1) + (if params[i - 1].1 == "" then 1 else 0)
  }

  lemma EmptiesBeforeTail(params: seq<(string, string)>, i: nat)
    requires 0 < i <= |params|
    ensures EmptiesBefore(params, i) ==
      (if params[0].1 == "" then 1 else 0) + EmptiesBefore(params[1..], i - 1)
  {
    if i > 1 {
      EmptiesBeforeTail(params, i - 1);
    }
  }

  lemma EmptiesBeforeGrows(params: seq<(string, string)>, i: nat, j: nat)
    requires i < j <= |params|
    ensures EmptiesBefore(params, i) + (if params[i].1 == "" then 1 else 0) <= EmptiesBefore(params, j)
    decreases j - i
  {
    if j > i + 1 {
      EmptiesBeforeGrows(params, i, j - 1);
    }
  }

  /** The filled parameters keep every key and every non-empty value, and the j-th empty
      value becomes values[j]; there must be a value for every empty one. */
  lemma {:induction false} FilledMeaning(params: seq<(string, string)>, values: seq<string>)
    ensures Filled(params, values).Ok? <==> EmptiesBefore(params, |params|) <= |values|
    ensures Filled(params, values).Ok? ==> |Filled(params, values).value| == |params|
    ensures Filled(params, values).Ok? ==>
      forall i :: 0 <= i < |params| ==>
        Filled(params, values).value[i].0 == params[i].0 &&
        (params[i].1 != "" ==> Filled(params, values).value[i].1 == params[i].1) &&
        (params[i].1 == "" ==> EmptiesBefore(params, i) < |values| &&
                               Filled(params, values).value[i].1 == values[EmptiesBefore(params, i)])
    decreases |params|
  {
    if |params| > 0 {
      var vs := if params[0].1 == "" && |values| > 0 then values[1..] else values;
      FilledMeaning(params[1..], vs);
      EmptiesBeforeTail(params, |params|);
      if Filled(params, values).Ok? {
        var r := Filled(params, values).value;
        forall i | 0 < i < |params|
          ensures r[i].0 == params[i].0 &&
            (params[i].1 != "" ==> r[i].1 == params[i].1) &&
            (params[i].1 == "" ==> EmptiesBefore(params, i) < |values| && r[i].1 == values[EmptiesBefore(params, i)])
        {
          EmptiesBeforeTail(params, i);
          EmptiesBeforeGrows(params, i, |params|);
          assert params[1..][i - 1] == params[i];
        }
      }
    }
  }

  lemma FilledStep(params: seq<(string, string)>, values: seq<string>, k: nat, index: nat)
    requires k < |params| && index <= |values|
    ensures Filled(params[k..], values[index..]) ==
      if params[k].1 == "" then
        if index == |values| then Err(IndexOutOfRange)
        else Prepend((params[k].0, values[index]), Filled(params[k + 1..], values[index + 1..]))
      else Prepend(params[k], Filled(params[k + 1..], values[index..]))
  {
    assert params[k..][0] == params[k];
    assert params[k..][1..] == params[k + 1..];
    if index < |values| {
      assert values[index..][1..] == values[index + 1..];
    }
  }

  /** set_values: the components with the empty parameter values filled in. */
  method SetValues(c: Components, values: seq<string>) returns (r: Result<Components, DataError>)
    ensures r.Ok? <==> Filled(c.params, values).Ok?
    ensures r.Ok? ==> r.value == c.(params := Filled(c.params, values).value)
  {
    var params := c.params;
    var index := 0;
    var k := 0;
    assert c.params[0..] == c.params && values[0..] == values;
    JoinPrepend([], ("", ""), Filled(c.params, values));
    while k < |params|
      invariant k <= |params| == |c.params|
      invariant index <= |values|
      invariant params[k..] == c.params[k..]
      invariant Filled(c.params, values) == Join(params[..k], Filled(c.params[k..], values[index..]))
    {
      var (param, value) := params[k];
      FilledStep(c.params, values, k, index);
      ghost var x := if value == "" && index < |values| then (param, values[index]) else (param, value);
      JoinPrepend(params[..k], x, Filled(c.params[k + 1..], values[if value == "" && index < |values| then index + 1 else index..]));
      if value == "" {
        if index >= |values| {
          return Err(IndexOutOfRange);
        }
        params := params[k := (param, values[index])];
        index := index + 1;
      } else {
        params := params[k := (param, value)];
      }
      assert params[..k + 1] == params[..k] + [params[k]];
      assert params[k + 1..] == c.params[k + 1..];
      k := k + 1;
    }
    assert c.params[k..] == [];
    assert params[..k] == params;
    assert params + [] == params;
    r := Ok(c.(params := params));
  }

  lemma SetValuesExample()
    ensures Filled([("number", "27"), ("text", ""), ("some", "test"), ("name", "John"), ("empty", "")],
                   ["some text", "not empty"])
         == Ok([("number", "27"), ("text", "some text"), ("some", "test"), ("name", "John"), ("empty", "not empty")])
  {
    var ps := [("number", "27"), ("text", ""), ("some", "test"), ("name", "John"), ("empty", "")];
    var vs := ["some text", "not empty"];
    var last := [("empty", "")];
    assert last[1..] == [] && ["not empty"][1..] == [];
    assert Filled(last, ["not empty"]) == Prepend(("empty", "not empty"), Filled([], []));
    assert ps[4..] == last && vs[1..] == ["not empty"];
    assert ps[3..][1..] == ps[4..] && ps[2..][1..] == ps[3..] && ps[1..][1..] == ps[2..];
    assert Filled(ps[3..], vs[1..]) == Prepend(("name", "John"), Filled(ps[4..], vs[1..]));
    assert Filled(ps[2..], vs[1..]) == Prepend(("some", "test"), Filled(ps[3..], vs[1..]));
    assert Filled(ps[1..], vs) == Prepend(("text", "some text"), Filled(ps[2..], vs[1..]));
    assert Filled(ps, vs) == Prepend(("number", "27"), Filled(ps[1..], vs));
    var t4 := [("empty", "not empty")];
    var t3 := [("name", "John")] + t4;
    var t2 := [("some", "test")] + t3;
    var t1 := [("text", "some text")] + t2;
    var t0 := [("number", "27")] + t1;
    var none: seq<(string, string)> := [];
    assert Filled(ps[4..][1..], vs[1..][1..]) == Ok(none);
    assert [("empty", "not empty")] + none == t4;
    assert Filled(ps[4..], vs[1..]) == Ok(t4);
    assert Prepend(("name", "John"), Ok(t4)) == Ok(t3);
    assert Filled(ps[3..], vs[1..]) == Ok(t3);
    assert Filled(ps[2..], vs[1..]) == Ok(t2);
    assert Filled(ps[1..], vs) == Ok(t1);
    assert Filled(ps, vs) == Ok(t0);
    assert |t0| == 5 && t0[0] == ("number", "27") && t0[1] == ("text", "some text") && t0[2] == ("some", "test");
    assert t0[3] == ("name", "John") && t0[4] == ("empty", "not empty");
    assert t0 == [("number", "27"), ("text", "some text"), ("some", "test"), ("name", "John"), ("empty", "not empty")];
  }

  // ---------------------------------------------------------------------------------
  // set_params

  /** The new name of a key: the new name of the first rename for it, else the key. */
  function Renamed(key: string, renames: seq<(string, string)>): string
  {
    if |renames| == 0 then key
    else if renames[0].0 == key then renames[0].1
    else Renamed(key, renames[1..])
  }

  /** new_params of set_params: each key renamed; with no renames at all, no key is taken. */
  function NewKeys(params: seq<(string, string)>, renames: seq<(string, string)>): (ks: seq<string>)
    ensures |renames| > 0 ==> |ks| == |params| && forall i :: 0 <= i < |params| ==> ks[i] == Renamed(params[i].0, renames)
    ensures |renames| == 0 ==> ks == []
  {
    if |renames| == 0 then [] else seq(|params|, i requires 0 <= i < |params| => Renamed(params[i].0, renames))
  }

  /** zip: pairs up to the shorter list. */
  function Zip(keys: seq<string>, values: seq<string>): (z: seq<(string, string)>)
    ensures |z| == if |keys| <= |values| then |keys| else |values|
    ensures forall i :: 0 <= i < |z| ==> z[i] == (keys[i], values[i])
  {
    if |keys| == 0 || |values| == 0 then [] else [(keys[0], values[0])] + Zip(keys[1..], values[1..])
  }

  function IndexOfKey(d: seq<(string, string)>, key: string): (i: nat)
    ensures i <= |d|
    ensures i < |d| ==> d[i].0 == key
    ensures forall j :: 0 <= j < i ==> d[j].0 != key
  {
    if |d| == 0 then 0
    else if d[0].0 == key then 0
    else 1 + IndexOfKey(d[1..], key)
  }

  /** dict(pairs): a repeated key keeps its first place and takes the later value. */
  function DictOf(pairs: seq<(string, string)>): seq<(string, string)>
  {
    if |pairs| == 0 then []
    else
      var d := DictOf(pairs[..|pairs| - 1]);
      var (k, v) := pairs[|pairs| - 1];
      var i := IndexOfKey(d, k);
      if i < |d| then d[i := (k, v)] else d + [(k, v)]
  }

  predicate DistinctKeys(pairs: seq<(string, string)>)
  {
    forall i, j :: 0 <= i < j < |pairs| ==> pairs[i].0 != pairs[j].0
  }

  /** With distinct keys, dict() keeps every pair in order. */
  lemma {:induction false} DictOfDistinct(pairs: seq<(string, string)>)
    requires DistinctKeys(pairs)
    ensures DictOf(pairs) == pairs
    decreases |pairs|
  {
    if |pairs| > 0 {
      var pre := pairs[..|pairs| - 1];
      DictOfDistinct(pre);
      var i := IndexOfKey(pre, pairs[|pairs| - 1].0);
      assert pairs == pre + [pairs[|pairs| - 1]];
    }
  }

  function Values(params: seq<(string, string)>): (vs: seq<string>)
    ensures |vs| == |params| && forall i :: 0 <= i < |params| ==> vs[i] == params[i].1
  {
    seq(|params|, i requires 0 <= i < |params| => params[i].1)
  }

  /** set_params: the components with their keys renamed, rebuilt as a dict. */
  method SetParams(c: Components, renames: seq<(string, string)>) returns (r: Components)
    ensures r == c.(params := DictOf(Zip(NewKeys(c.params, renames), Values(c.params))))
  {
    var newParams: seq<string> := [];
    var index := 0;
    var k := 0;
    while k < |c.params|
      invariant k <= |c.params|
      invariant |renames| == 0 ==> index == 0 && newParams == []
      invariant |renames| > 0 ==> |newParams| == k
      invariant |renames| > 0 ==> forall i :: 0 <= i < k ==> newParams[i] == Renamed(c.params[i].0, renames)
    {
      var key := c.params[k].0;
      var j := 0;
      var matched := false;
      ghost var index0 := index;
      ghost var before := newParams;
      while j < |renames|
        invariant j <= |renames|
        invariant !matched ==> index == index0 + j && Renamed(key, renames) == Renamed(key, renames[j..])
        invariant matched ==> index == 0 && |renames| > 0
        invariant matched ==> newParams == before + [Renamed(key, renames)]
        invariant !matched ==> newParams == before
      {
        index := index + 1;
        if key == renames[j].0 {
          assert renames[j..][0] == renames[j];
          newParams := newParams + [renames[j].1];
          index := 0;
          matched := true;
          break;
        }
        assert renames[j..][1..] == renames[j + 1..];
        j := j + 1;
      }
      if index > 0 {
        newParams := newParams + [key];
      }
      k := k + 1;
    }
    assert newParams == NewKeys(c.params, renames);
    var values := Values(c.params);
    r := c.(params := DictOf(Zip(newParams, values)));
  }

  /** The renaming test, cut to four parameters: two keys get new names, the empty key and
      another one stay, and every value and the order are kept. */
  lemma SetParamsExample()
    ensures var params := [("LOWER", "0"), ("not change", "[]"), ("", "False"), ("PLEASE", "()")];
      DictOf(Zip(NewKeys(params, [("LOWER", "lower"), ("PLEASE", "please")]), Values(params)))
        == [("lower", "0"), ("not change", "[]"), ("", "False"), ("please", "()")]
  {
    var params := [("LOWER", "0"), ("not change", "[]"), ("", "False"), ("PLEASE", "()")];
    var renames := [("LOWER", "lower"), ("PLEASE", "please")];
    var expected := [("lower", "0"), ("not change", "[]"), ("", "False"), ("please", "()")];
    assert Renamed("LOWER", renames) == "lower";
    assert Renamed("not change", renames) == "not change";
    assert Renamed("", renames) == "";
    assert Renamed("PLEASE", renames) == "please";
    var keys, values := NewKeys(params, renames), Values(params);
    var z := Zip(keys, values);
    assert z[0] == expected[0] && z[1] == expected[1] && z[2] == expected[2] && z[3] == expected[3];
    assert z == expected;
    assert forall i, j :: 0 <= i < j < |expected| ==> |expected[i].0| != |expected[j].0|;
    DictOfDistinct(expected);
  }
}
