/** `parse_message_components`: the filter that keeps the text, image and
    video components of a message and drops every other kind. */
module Listen {

  import opened Text
  import opened Py

  /** The component types that survive the filter, after lower-casing. */
  const KeptTypes: set<string> := {"plain", "text", "image", "video"}

  /** `comp.get("type", "unknown")`, for a component that is a dict. */
  function TypeOf(comp: Json): Json
    requires comp.Obj?
  {
    GetOr(comp.fields, "type", Str("unknown"))
  }

  /** A component the loop body can handle without raising: a dict whose
      type (if any) is a string, so `.lower()` exists, and whose data (if
      any) is a dict, so `data.get("url", "")` exists. */
  predicate Handled(comp: Json) {
    && comp.Obj?
    && TypeOf(comp).Str?
    && GetOr(comp.fields, "data", Obj(map[])).Obj?
  }

  /** A handled component that is kept. */
  predicate Kept(comp: Json)
    requires Handled(comp)
  {
    Lower(TypeOf(comp).sval) in KeptTypes
  }

  /** One turn of the loop: raise, keep, or drop. */
  function Visit(comp: Json): (r: Result<bool>)
    ensures r.Ok? <==> Handled(comp)
    ensures r.Ok? ==> (r.value <==> Kept(comp))
  {
    if !comp.Obj? then Raise("AttributeError: object has no attribute 'get'")
    else
      var kind := TypeOf(comp);
      var data := GetOr(comp.fields, "data", Obj(map[]));
      if !kind.Str? then Raise("AttributeError: object has no attribute 'lower'")
      else if !data.Obj? then Raise("AttributeError: object has no attribute 'get'")
      else Ok(Lower(kind.sval) in KeptTypes)
  }

  /** The loop over the components, appending each kept one unchanged. */
  function Filter(comps: seq<Json>): (r: Result<seq<Json>>)
    ensures r.Ok? <==> forall i :: 0 <= i < |comps| ==> Handled(comps[i])
    ensures r.Ok? ==> |r.value| <= |comps|
    ensures r.Ok? ==> forall i :: 0 <= i < |r.value| ==> r.value[i] in comps && Handled(r.value[i]) && Kept(r.value[i])
    ensures r.Ok? ==> forall c :: c in comps && Kept(c) ==> c in r.value
  {
    if comps == [] then Ok([])
    else
      var keep :- Visit(comps[0]);
      var rest :- Filter(comps[1..]);
      assert forall c :: c in comps[1..] ==> c in comps;
      Ok(if keep then [comps[0]] + rest else rest)
  }

  /** `parse_message_components(components)`: iterating a non-empty string
      or dict calls `.get` on a character or key and raises; an empty one
      yields nothing. */
  function ParseMessageComponents(components: Json): (r: Result<seq<Json>>)
    ensures components.Arr? ==> r == Filter(components.elems)
    ensures !components.Arr? && !Truthy(components) && (components.Str? || components.Obj?) ==> r == Ok([])
  {
    var comps :- Elements(components);
    Filter(comps)
  }

  /** `xs` is `ys` with some elements left out, the rest in their order. */
  predicate Subsequence(xs: seq<Json>, ys: seq<Json>)
    decreases |ys|
  {
    if xs == [] then true
    else if ys == [] then false
    else (xs[0] == ys[0] && Subsequence(xs[1..], ys[1..])) || Subsequence(xs, ys[1..])
  }

  /** The output keeps the input's order: it is a subsequence of it. */
  lemma {:induction false} FilterKeepsOrder(comps: seq<Json>)
    requires Filter(comps).Ok?
    ensures Subsequence(Filter(comps).value, comps)
  {
    if comps != [] {
      FilterKeepsOrder(comps[1..]);
      var rest := Filter(comps[1..]).value;
      if Kept(comps[0]) {
        assert Filter(comps).value == [comps[0]] + rest;
        assert ([comps[0]] + rest)[1..] == rest;
      } else {
        assert Filter(comps).value == rest;
        SubsequenceOfTail(rest, comps);
      }
    }
  }

  /** A subsequence of the tail is one of the whole. */
  lemma SubsequenceOfTail(xs: seq<Json>, ys: seq<Json>)
    requires ys != [] && Subsequence(xs, ys[1..])
    ensures Subsequence(xs, ys)
  {
  }

  /** Filtering the output again changes nothing. */
  lemma {:induction false} FilterIdempotent(comps: seq<Json>)
    requires Filter(comps).Ok?
    ensures Filter(Filter(comps).value) == Filter(comps)
  {
    if comps != [] {
      FilterIdempotent(comps[1..]);
      var rest := Filter(comps[1..]).value;
      if Kept(comps[0]) {
        assert Filter(comps).value == [comps[0]] + rest;
        assert ([comps[0]] + rest)[1..] == rest;
      }
    }
  }

  /** The filter works component by component: on `a + b` it keeps what it
      keeps of `a`, then what it keeps of `b`, each occurrence separately. */
  lemma FilterAppend(a: seq<Json>, b: seq<Json>)
    requires Filter(a).Ok? && Filter(b).Ok?
    ensures Filter(a + b) == Ok(Filter(a).value + Filter(b).value)
  {
    assert forall i :: 0 <= i < |a + b| ==> Handled((a + b)[i]) by {
      forall i | 0 <= i < |a + b| ensures Handled((a + b)[i]) {
        if i >= |a| { assert (a + b)[i] == b[i - |a|]; }
      }
    }
    FilterIsKeptOnly(a);
    FilterIsKeptOnly(b);
    FilterIsKeptOnly(a + b);
    KeptOnlyAppend(a, b);
  }

  /** The kept components of an all-handled list, in order: the filter
      without its error path. */
  function KeptOnly(comps: seq<Json>): seq<Json>
    requires forall i :: 0 <= i < |comps| ==> Handled(comps[i])
  {
    if comps == [] then [] else (if Kept(comps[0]) then [comps[0]] else []) + KeptOnly(comps[1..])
  }

  /** On an all-handled list the filter succeeds with the kept components. */
  lemma {:induction false} FilterIsKeptOnly(comps: seq<Json>)
    requires forall i :: 0 <= i < |comps| ==> Handled(comps[i])
    ensures Filter(comps) == Ok(KeptOnly(comps))
  {
    if comps != [] {
      FilterIsKeptOnly(comps[1..]);
      FilterStep(comps);
    }
  }

  /** `KeptOnly` distributes over concatenation. */
  lemma {:induction false} KeptOnlyAppend(a: seq<Json>, b: seq<Json>)
    requires forall i :: 0 <= i < |a| ==> Handled(a[i])
    requires forall i :: 0 <= i < |b| ==> Handled(b[i])
    ensures KeptOnly(a + b) == KeptOnly(a) + KeptOnly(b)
  {
    if a == [] {
      assert a + b == b;
    } else {
      assert (a + b)[0] == a[0];
      assert (a + b)[1..] == a[1..] + b;
      KeptOnlyAppend(a[1..], b);
      var head := if Kept(a[0]) then [a[0]] else [];
      ConcatAssoc(head, KeptOnly(a[1..]), KeptOnly(b));
    }
  }

  /** The filter on a non-empty list whose head is handled and whose tail
      filters: the head's contribution, then the tail's. */
  lemma FilterStep(comps: seq<Json>)
    requires comps != [] && Handled(comps[0]) && Filter(comps[1..]).Ok?
    ensures Filter(comps) == Ok((if Kept(comps[0]) then [comps[0]] else []) + Filter(comps[1..]).value)
  {
    assert Visit(comps[0]) == Ok(Kept(comps[0]));
    var rest := Filter(comps[1..]).value;
    assert Filter(comps) == Ok(if Kept(comps[0]) then [comps[0]] + rest else rest);
    assert [] + rest == rest;
  }

  /** A single component raises, is kept as it is, or is dropped. */
  lemma FilterOne(c: Json)
    ensures !Handled(c) ==> Filter([c]).Raise?
    ensures Handled(c) ==> Filter([c]) == Ok(if Kept(c) then [c] else [])
  {
    assert [c][1..] == [];
    assert Filter([c][1..]) == Ok([]);
    if Handled(c) {
      FilterStep([c]);
      assert (if Kept(c) then [c] else []) + [] == (if Kept(c) then [c] else []);
    }
  }

  /** A voice message (`record`), a forward, and a component without a type
      (read as "unknown") are all dropped. */
  lemma OtherTypesDropped(data: map<string, Json>)
    ensures var c := Obj(map["type" := Str("record"), "data" := Obj(data)]); Handled(c) && !Kept(c)
    ensures var c := Obj(map["type" := Str("forward"), "data" := Obj(data)]); Handled(c) && !Kept(c)
    ensures var c := Obj(map["data" := Obj(data)]); Handled(c) && !Kept(c)
  {
    assert |Lower("record")| == 6 && |Lower("forward")| == 7 && |Lower("unknown")| == 7;
  }

  /** Upper-case types pass: the comparison is on the lower-cased type. */
  lemma UpperCaseTypesKept(comp: Json)
    requires comp == Obj(map["type" := Str("Image")])
    ensures Filter([comp]) == Ok([comp])
  {
    assert Lower("Image") == "image" by {
      assert Lower("Image")[0] == LowerChar('I') == 'i';
    }
    assert Visit(comp) == Ok(true);
    assert [comp][1..] == [];
    assert Filter([comp]) == Ok([comp] + []);
    assert [comp] + [] == [comp];
  }
}
