/**
 * The request builder of the proxy's `intercept`: it substitutes the
 * path-variable placeholders of the annotated path, counts the parameters
 * bound to the path, and chooses the payload, either a JSON tree merged from
 * the payload-variable parameters or, for POST and PUT, the first argument
 * after an arity check.
 */
module RequestBuilder {
  import opened Types
  import opened UrlForm
  import opened PathTemplate
  import opened JsonTree

  /**
   * What the Java runtime guarantees of a proxied call: one argument per
   * declared parameter, and a String parameter receives a string or null.
   */
  predicate WellTyped(params: seq<Param>, objects: seq<Value>) {
    |params| == |objects|
    && forall i :: 0 <= i < |params| && params[i].isString ==> objects[i].Str? || objects[i].Null?
  }

  // ---------------------------------------------------------------------
  // Path substitution

  /** A String parameter with a non-empty path-variable key; the others are skipped. */
  predicate BindsPath(p: Param) {
    p.isString && p.pathVariable.Some? && p.pathVariable.value != ""
  }

  /** One turn of the substitution loop on (path so far, parameters bound so far). */
  function SubstStep(acc: (string, nat), p: Param, arg: Value): Result<(string, nat)> {
    if !BindsPath(p) then Ok(acc)
    else if arg.Str? then
      Ok((ReplaceAll(acc.0, Placeholder(p.pathVariable.value), FormEncode(arg.s)), acc.1 + 1))
    else Err(NullPointer)  // URLEncoder.encode(null, "UTF-8")
  }

  /** The path and the bound-parameter count after the first n parameters. */
  function Substituted(template: string, params: seq<Param>, objects: seq<Value>, n: nat): Result<(string, nat)>
    requires n <= |params| <= |objects|
  {
    if n == 0 then Ok((template, 0))
    else
      var acc :- Substituted(template, params, objects, n - 1);
      SubstStep(acc, params[n - 1], objects[n - 1])
  }

  /** The number of path-bound parameters among the first n. */
  function BoundCount(params: seq<Param>, n: nat): nat
    requires n <= |params|
  {
    if n == 0 then 0
    else BoundCount(params, n - 1) + (if BindsPath(params[n - 1]) then 1 else 0)
  }

  /** The count is the number of path-bound parameters, whether or not their placeholders occur. */
  lemma {:induction false} SubstitutedCount(template: string, params: seq<Param>, objects: seq<Value>, n: nat)
    requires n <= |params| <= |objects|
    requires Substituted(template, params, objects, n).Ok?
    ensures Substituted(template, params, objects, n).value.1 == BoundCount(params, n)
  {
    if n > 0 {
      SubstitutedCount(template, params, objects, n - 1);
    }
  }

  /** Substitution fails, with a null pointer, exactly when a path-bound parameter received null. */
  lemma {:induction false} SubstitutedFails(template: string, params: seq<Param>, objects: seq<Value>, n: nat)
    requires n <= |params| <= |objects|
    ensures Substituted(template, params, objects, n).Err?
        <==> exists i :: 0 <= i < n && BindsPath(params[i]) && !objects[i].Str?
    ensures Substituted(template, params, objects, n).Err?
        ==> Substituted(template, params, objects, n).error == NullPointer
  {
    if n > 0 {
      SubstitutedFails(template, params, objects, n - 1);
      if Substituted(template, params, objects, n - 1).Ok? {
        assert forall i :: 0 <= i < n - 1 ==> !(BindsPath(params[i]) && !objects[i].Str?);
      } else {
        var i :| 0 <= i < n - 1 && BindsPath(params[i]) && !objects[i].Str?;
        assert 0 <= i < n;
      }
    }
  }

  /** Once a parameter fails, the whole substitution has failed with it. */
  lemma {:induction false} SubstitutedSticky(template: string, params: seq<Param>, objects: seq<Value>, n: nat, m: nat)
    requires n <= m <= |params| <= |objects|
    requires Substituted(template, params, objects, n).Err?
    ensures Substituted(template, params, objects, m) == Substituted(template, params, objects, n)
    decreases m - n
  {
    if m > n {
      SubstitutedSticky(template, params, objects, n, m - 1);
    }
  }

  /** A template without any placeholder is sent as it is. */
  lemma {:induction false} SubstitutedNoPlaceholder(template: string, params: seq<Param>, objects: seq<Value>, n: nat)
    requires n <= |params| <= |objects| && '{' !in template
    requires Substituted(template, params, objects, n).Ok?
    ensures Substituted(template, params, objects, n).value.0 == template
  {
    if n > 0 {
      SubstitutedNoPlaceholder(template, params, objects, n - 1);
      var p := params[n - 1];
      if BindsPath(p) {
        var target := Placeholder(p.pathVariable.value);
        NoBraceNoPlaceholder(template, p.pathVariable.value);
        ReplaceAbsent(template, target, FormEncode(objects[n - 1].s));
      }
    }
  }

  /**
   * A placeholder that no path-bound parameter names stays in the path,
   * when keys are brace-free: the replacement of another key's placeholder
   * does not touch it.
   */
  lemma {:induction false} SubstitutedKeepsUnbound(template: string, params: seq<Param>, objects: seq<Value>, n: nat, key: string)
    requires n <= |params| <= |objects|
    requires Braceless(key) && Occurs(template, Placeholder(key))
    requires forall i :: 0 <= i < n && BindsPath(params[i]) ==>
      params[i].pathVariable.value != key && Braceless(params[i].pathVariable.value)
    requires Substituted(template, params, objects, n).Ok?
    ensures Occurs(Substituted(template, params, objects, n).value.0, Placeholder(key))
  {
    if n > 0 {
      SubstitutedKeepsUnbound(template, params, objects, n - 1, key);
      var p := params[n - 1];
      if BindsPath(p) {
        var acc := Substituted(template, params, objects, n - 1).value;
        ReplaceKeepsOccurrence(acc.0, p.pathVariable.value, key, FormEncode(objects[n - 1].s));
      }
    }
  }

  lemma NoBraceNoPlaceholder(s: string, key: string)
    requires '{' !in s
    ensures !Occurs(s, Placeholder(key))
  {
    forall i | 0 <= i <= |s|
      ensures !StartsWith(s[i..], Placeholder(key))
    {
      if i < |s| {
        assert s[i..][0] == s[i];
      }
    }
  }

  /**
   * The substitution loop of `intercept`: for every String parameter with a
   * non-empty path-variable key, each `{key}` becomes the encoded argument.
   */
  method SubstitutePath(template: string, params: seq<Param>, objects: seq<Value>) returns (r: Result<(string, nat)>)
    requires |params| == |objects|
    ensures r == Substituted(template, params, objects, |params|)
  {
    var annotatedPath := template;
    var paramsForMappingUrl := 0;
    var i := 0;
    while i < |params|
      invariant 0 <= i <= |params|
      invariant Substituted(template, params, objects, i) == Ok((annotatedPath, paramsForMappingUrl))
    {
      var p := params[i];
      if !p.isString || p.pathVariable.None? || p.pathVariable.value == "" {
        i := i + 1;
        continue;
      }
      var paramValue := objects[i];
      if !paramValue.Str? {
        SubstitutedSticky(template, params, objects, i + 1, |params|);
        return Err(NullPointer);
      }
      annotatedPath := ReplaceAll(annotatedPath, Placeholder(p.pathVariable.value), FormEncode(paramValue.s));
      paramsForMappingUrl := paramsForMappingUrl + 1;
      i := i + 1;
    }
    r := Ok((annotatedPath, paramsForMappingUrl));
  }

  // ---------------------------------------------------------------------
  // Merged-tree payload

  /** The JSON name of a payload parameter: its explicit path, or else its own name. */
  function JsonName(p: Param): string
    requires p.payloadVariable.Some?
  {
    if p.payloadVariable.value != "" then p.payloadVariable.value else p.name
  }

  /** The walk of a JSON name: split at the dots when it has one, else the name alone. */
  function Segments(name: string): seq<string> {
    if '.' in name then SplitDots(name) else [name]
  }

  /** Grafts one node for parameter p; a name made only of dots leaves no segment (`split[-1]`). */
  function GraftParam(root: map<string, Json>, p: Param, node: Json): Result<map<string, Json>>
    requires p.payloadVariable.Some?
  {
    var segs := Segments(JsonName(p));
    if |segs| == 0 then Err(IndexOutOfBounds) else Ok(Grafted(root, segs, node))
  }

  /** The number of payload-annotated parameters among the first n. */
  function PayloadCount(params: seq<Param>, n: nat): nat
    requires n <= |params|
  {
    if n == 0 then 0
    else PayloadCount(params, n - 1) + (if params[n - 1].payloadVariable.Some? then 1 else 0)
  }

  /**
   * The merge loop as written, which the request builder runs: the k-th
   * payload parameter grafts the k-th argument (`objects[paramIndex]`),
   * whatever its own position. Also returns paramIndex.
   */
  function MergedAsWritten(params: seq<Param>, objects: seq<Value>, encode: Value -> Json, n: nat): (r: Result<(map<string, Json>, nat)>)
    requires n <= |params| <= |objects|
    ensures r.Ok? ==> r.value.1 == PayloadCount(params, n) <= n
  {
    if n == 0 then Ok((map[], 0))
    else
      var acc :- MergedAsWritten(params, objects, encode, n - 1);
      if params[n - 1].payloadVariable.None? then Ok(acc)
      else
        var root :- GraftParam(acc.0, params[n - 1], encode(objects[acc.1]));
        Ok((root, acc.1 + 1))
  }

  /**
   * The merge loop as evidently intended, a reference the builder does not
   * use: every payload parameter grafts its own argument.
   */
  function Merged(params: seq<Param>, objects: seq<Value>, encode: Value -> Json, n: nat): Result<map<string, Json>>
    requires n <= |params| <= |objects|
  {
    if n == 0 then Ok(map[])
    else
      var root :- Merged(params, objects, encode, n - 1);
      if params[n - 1].payloadVariable.None? then Ok(root)
      else GraftParam(root, params[n - 1], encode(objects[n - 1]))
  }

  /** As written, the node grafted for a payload parameter is that of the argument counted among payload parameters. */
  lemma MergedAsWrittenTakesKth(params: seq<Param>, objects: seq<Value>, encode: Value -> Json, n: nat)
    requires 1 <= n <= |params| <= |objects| && params[n - 1].payloadVariable.Some?
    requires MergedAsWritten(params, objects, encode, n).Ok?
    ensures |Segments(JsonName(params[n - 1]))| >= 1
    ensures Lookup(MergedAsWritten(params, objects, encode, n).value.0, Segments(JsonName(params[n - 1])))
         == Some(encode(objects[PayloadCount(params, n - 1)]))
  {
    var acc := MergedAsWritten(params, objects, encode, n - 1).value;
    GraftedFinds(acc.0, Segments(JsonName(params[n - 1])), encode(objects[acc.1]));
  }

  /** Corrected, the node grafted for a payload parameter is that of its own argument. */
  lemma MergedTakesOwn(params: seq<Param>, objects: seq<Value>, encode: Value -> Json, n: nat)
    requires 1 <= n <= |params| <= |objects| && params[n - 1].payloadVariable.Some?
    requires Merged(params, objects, encode, n).Ok?
    ensures |Segments(JsonName(params[n - 1]))| >= 1
    ensures Lookup(Merged(params, objects, encode, n).value, Segments(JsonName(params[n - 1])))
         == Some(encode(objects[n - 1]))
  {
    var root := Merged(params, objects, encode, n - 1).value;
    GraftedFinds(root, Segments(JsonName(params[n - 1])), encode(objects[n - 1]));
  }

  /**
   * Merge order: the node of payload parameter i survives at its path unless
   * a later payload parameter writes at that path, above it or below it;
   * siblings grafted by other parameters coexist.
   */
  lemma {:induction false} MergedKeeps(params: seq<Param>, objects: seq<Value>, encode: Value -> Json, n: nat, i: nat)
    requires i < n <= |params| <= |objects| && params[i].payloadVariable.Some?
    requires Merged(params, objects, encode, n).Ok?
    requires forall j :: i < j < n && params[j].payloadVariable.Some? ==>
      |Segments(JsonName(params[j]))| >= 1 && |Segments(JsonName(params[i]))| >= 1 &&
      Diverges(Segments(JsonName(params[j])), Segments(JsonName(params[i])))
    ensures |Segments(JsonName(params[i]))| >= 1
    ensures Lookup(Merged(params, objects, encode, n).value, Segments(JsonName(params[i]))) == Some(encode(objects[i]))
  {
    if n == i + 1 {
      MergedTakesOwn(params, objects, encode, n);
    } else {
      MergedKeeps(params, objects, encode, n - 1, i);
      var p := params[n - 1];
      if p.payloadVariable.Some? {
        var root := Merged(params, objects, encode, n - 1).value;
        GraftedKeepsOthers(root, Segments(JsonName(p)), encode(objects[n - 1]), Segments(JsonName(params[i])));
      }
    }
  }

  /**
   * Merge order of the loop as written: the node payload parameter i grafts,
   * that of the argument at its rank among payload parameters, survives at
   * its path unless a later payload parameter writes at, above or below it.
   */
  lemma {:induction false} MergedAsWrittenKeeps(params: seq<Param>, objects: seq<Value>, encode: Value -> Json, n: nat, i: nat)
    requires i < n <= |params| <= |objects| && params[i].payloadVariable.Some?
    requires MergedAsWritten(params, objects, encode, n).Ok?
    requires forall j :: i < j < n && params[j].payloadVariable.Some? ==>
      |Segments(JsonName(params[j]))| >= 1 && |Segments(JsonName(params[i]))| >= 1 &&
      Diverges(Segments(JsonName(params[j])), Segments(JsonName(params[i])))
    ensures PayloadCount(params, i) < |objects|
    ensures |Segments(JsonName(params[i]))| >= 1
    ensures Lookup(MergedAsWritten(params, objects, encode, n).value.0, Segments(JsonName(params[i])))
         == Some(encode(objects[PayloadCount(params, i)]))
  {
    if n == i + 1 {
      MergedAsWrittenTakesKth(params, objects, encode, n);
    } else {
      MergedAsWrittenKeeps(params, objects, encode, n - 1, i);
      var p := params[n - 1];
      if p.payloadVariable.Some? {
        var acc := MergedAsWritten(params, objects, encode, n - 1).value;
        GraftedKeepsOthers(acc.0, Segments(JsonName(p)), encode(objects[acc.1]), Segments(JsonName(params[i])));
      }
    }
  }

  /** Once a graft of the loop as written fails, the whole merge has failed with it. */
  lemma {:induction false} MergedAsWrittenSticky(params: seq<Param>, objects: seq<Value>, encode: Value -> Json, n: nat, m: nat)
    requires n <= m <= |params| <= |objects|
    requires MergedAsWritten(params, objects, encode, n).Err?
    ensures MergedAsWritten(params, objects, encode, m) == MergedAsWritten(params, objects, encode, n)
    decreases m - n
  {
    if m > n {
      MergedAsWrittenSticky(params, objects, encode, n, m - 1);
    }
  }

  /** A payload parameter whose JSON name is made of dots alone: `split` leaves nothing for `split[length - 1]`. */
  predicate DotsOnly(p: Param) {
    p.payloadVariable.Some? && JsonName(p) != "" && AllDots(JsonName(p))
  }

  /** A JSON name has no segment to graft at exactly when it is made of dots alone. */
  lemma SegmentsEmpty(p: Param)
    requires p.payloadVariable.Some?
    ensures |Segments(JsonName(p))| == 0 <==> DotsOnly(p)
  {
    var name := JsonName(p);
    SplitDotsEmpty(name);
    if name != "" && AllDots(name) {
      assert name[0] == '.';
    }
  }

  /** Some payload parameter among the first n has a JSON name of dots alone. */
  predicate AnyDots(params: seq<Param>, n: nat)
    requires n <= |params|
  {
    n > 0 && (AnyDots(params, n - 1) || DotsOnly(params[n - 1]))
  }

  lemma {:induction false} AnyDotsExists(params: seq<Param>, n: nat)
    requires n <= |params|
    ensures AnyDots(params, n) <==> exists j :: 0 <= j < n && DotsOnly(params[j])
  {
    if n > 0 {
      AnyDotsExists(params, n - 1);
      if AnyDots(params, n - 1) {
        var j :| 0 <= j < n - 1 && DotsOnly(params[j]);
        assert 0 <= j < n;
      }
    }
  }

  lemma {:induction false} MergedFailsStep(params: seq<Param>, objects: seq<Value>, encode: Value -> Json, n: nat)
    requires n <= |params| <= |objects|
    ensures Merged(params, objects, encode, n).Err? <==> AnyDots(params, n)
    ensures Merged(params, objects, encode, n).Err? ==> Merged(params, objects, encode, n).error == IndexOutOfBounds
  {
    if n > 0 {
      MergedFailsStep(params, objects, encode, n - 1);
      if params[n - 1].payloadVariable.Some? {
        SegmentsEmpty(params[n - 1]);
      }
    }
  }

  lemma {:induction false} MergedAsWrittenFailsStep(params: seq<Param>, objects: seq<Value>, encode: Value -> Json, n: nat)
    requires n <= |params| <= |objects|
    ensures MergedAsWritten(params, objects, encode, n).Err? <==> AnyDots(params, n)
    ensures MergedAsWritten(params, objects, encode, n).Err? ==> MergedAsWritten(params, objects, encode, n).error == IndexOutOfBounds
  {
    if n > 0 {
      MergedAsWrittenFailsStep(params, objects, encode, n - 1);
      if params[n - 1].payloadVariable.Some? {
        SegmentsEmpty(params[n - 1]);
      }
    }
  }

  /** The corrected merge fails, with an index error, exactly when some payload parameter's JSON name is made of dots alone. */
  lemma MergedFails(params: seq<Param>, objects: seq<Value>, encode: Value -> Json, n: nat)
    requires n <= |params| <= |objects|
    ensures Merged(params, objects, encode, n).Err? <==> exists j :: 0 <= j < n && DotsOnly(params[j])
    ensures Merged(params, objects, encode, n).Err? ==> Merged(params, objects, encode, n).error == IndexOutOfBounds
  {
    MergedFailsStep(params, objects, encode, n);
    AnyDotsExists(params, n);
  }

  /** The merge as written fails in exactly the same cases, with the same error. */
  lemma MergedAsWrittenFails(params: seq<Param>, objects: seq<Value>, encode: Value -> Json, n: nat)
    requires n <= |params| <= |objects|
    ensures MergedAsWritten(params, objects, encode, n).Err? <==> exists j :: 0 <= j < n && DotsOnly(params[j])
    ensures MergedAsWritten(params, objects, encode, n).Err? ==> MergedAsWritten(params, objects, encode, n).error == IndexOutOfBounds
  {
    MergedAsWrittenFailsStep(params, objects, encode, n);
    AnyDotsExists(params, n);
  }

  /** Once a graft fails, the whole merge has failed with it. */
  lemma {:induction false} MergedSticky(params: seq<Param>, objects: seq<Value>, encode: Value -> Json, n: nat, m: nat)
    requires n <= m <= |params| <= |objects|
    requires Merged(params, objects, encode, n).Err?
    ensures Merged(params, objects, encode, m) == Merged(params, objects, encode, n)
    decreases m - n
  {
    if m > n {
      MergedSticky(params, objects, encode, n, m - 1);
    }
  }

  /** Payload parameters that all come first. */
  predicate PayloadFirst(params: seq<Param>) {
    forall i, j :: 0 <= i < j < |params| && params[j].payloadVariable.Some? ==> params[i].payloadVariable.Some?
  }

  lemma {:induction false} PayloadFirstCount(params: seq<Param>, n: nat)
    requires n <= |params| && PayloadFirst(params)
    requires n == |params| || params[n].payloadVariable.Some?
    ensures n < |params| ==> PayloadCount(params, n) == n
  {
    if n > 0 && n < |params| {
      PayloadFirstCount(params, n - 1);
    }
  }

  /** When the payload parameters come first, the loop as written and as intended agree. */
  lemma {:induction false} MergedAgreeWhenPayloadFirst(params: seq<Param>, objects: seq<Value>, encode: Value -> Json, n: nat)
    requires n <= |params| <= |objects| && PayloadFirst(params)
    ensures MergedAsWritten(params, objects, encode, n)
         == (match Merged(params, objects, encode, n)
             case Ok(root) => Ok((root, PayloadCount(params, n)))
             case Err(e) => Err(e))
  {
    if n > 0 {
      MergedAgreeWhenPayloadFirst(params, objects, encode, n - 1);
      if params[n - 1].payloadVariable.Some? {
        PayloadFirstCount(params, n - 1);
      }
    }
  }

  /**
   * One turn of the merge loop as written: a parameter without payload
   * annotation changes nothing, a payload name without segments fails, any
   * other grafts the k-th argument.
   */
  lemma MergedAsWrittenStep(params: seq<Param>, objects: seq<Value>, encode: Value -> Json, i: nat,
                            root: map<string, Json>, k: nat)
    requires i < |params| <= |objects|
    requires MergedAsWritten(params, objects, encode, i) == Ok((root, k))
    ensures params[i].payloadVariable.None? ==> MergedAsWritten(params, objects, encode, i + 1) == Ok((root, k))
    ensures params[i].payloadVariable.Some? ==> k < |objects|
    ensures params[i].payloadVariable.Some? && |Segments(JsonName(params[i]))| == 0 ==>
      MergedAsWritten(params, objects, encode, i + 1).Err?
    ensures params[i].payloadVariable.Some? && |Segments(JsonName(params[i]))| >= 1 ==>
      MergedAsWritten(params, objects, encode, i + 1)
        == Ok((Grafted(root, Segments(JsonName(params[i])), encode(objects[k])), k + 1))
  {
  }

  /** The root object the loop as written leaves, or its failure. */
  function MergedRoot(params: seq<Param>, objects: seq<Value>, encode: Value -> Json): Result<map<string, Json>>
    requires |params| == |objects|
  {
    var acc :- MergedAsWritten(params, objects, encode, |params|);
    Ok(acc.0)
  }

  /**
   * The merge loop of `intercept` for a descriptor whose payload is merged:
   * a shared root object into which each payload parameter, in declaration
   * order, grafts the argument `objects[paramIndex]` at its JSON name.
   */
  method MergePayload(params: seq<Param>, objects: seq<Value>, encode: Value -> Json) returns (r: Result<map<string, Json>>)
    requires |params| == |objects|
    ensures r == MergedRoot(params, objects, encode)
  {
    var rootNode: map<string, Json> := map[];
    var paramIndex := 0;
    var i := 0;
    while i < |params|
      invariant 0 <= i <= |params|
      invariant MergedAsWritten(params, objects, encode, i) == Ok((rootNode, paramIndex))
    {
      var p := params[i];
      MergedAsWrittenStep(params, objects, encode, i, rootNode, paramIndex);
      if p.payloadVariable.None? {
        i := i + 1;
        continue;
      }
      var segs := Segments(JsonName(p));
      if |segs| == 0 {
        MergedAsWrittenSticky(params, objects, encode, i + 1, |params|);
        return Err(IndexOutOfBounds);
      }
      rootNode := Graft(rootNode, segs, encode(objects[paramIndex]));
      paramIndex := paramIndex + 1;
      i := i + 1;
    }
    r := Ok(rootNode);
  }

  // ---------------------------------------------------------------------
  // Payload choice and POST/PUT arity

  /** The built request: the final path, the number of path-bound parameters, the payload (Null for none). */
  datatype Built = Built(path: string, pathBound: nat, payload: Value)

  const OnePayloadRequired := "You must pass EXACTLY ONE payload to POST or PUT method"
  const OnePayloadRequiredHaveZero := "You must pass EXACTLY ONE payload to POST or PUT method, have 0"

  predicate IsWrite(v: Verb) {
    v == POST || v == PUT
  }

  /** The payload before the arity check: the merged root object, or null. */
  function MergedPayload(call: Call, params: seq<Param>, objects: seq<Value>, encode: Value -> Json): Result<Value>
    requires |params| == |objects|
  {
    if call.mergePayloadToObject then
      var root :- MergedRoot(params, objects, encode);
      Ok(Tree(JObject(root)))
    else Ok(Null)
  }

  /** The checks of a write verb without payload: exactly one argument beyond the path-bound ones, taken from objects[0]. */
  function ChoosePayload(call: Call, objects: seq<Value>, path: string, bound: nat, payload: Value): Result<Built> {
    if IsWrite(call.httpMethod) && payload == Null then
      if |objects| >= 1 then
        if bound + 1 != |objects| then Err(InvalidState(OnePayloadRequired))
        else Ok(Built(path, bound, objects[0]))
      else Err(InvalidState(OnePayloadRequiredHaveZero))
    else Ok(Built(path, bound, payload))
  }

  /** The request `intercept` builds from a descriptor and the arguments of a call. */
  function BuildRequest(call: Call, params: seq<Param>, objects: seq<Value>, encode: Value -> Json): Result<Built>
    requires WellTyped(params, objects)
  {
    var sub :- Substituted(call.annotatedPath, params, objects, |params|);
    var payload :- MergedPayload(call, params, objects, encode);
    ChoosePayload(call, objects, sub.0, sub.1, payload)
  }

  /** The path of a built request is the substituted template and its count that of the path-bound parameters. */
  lemma BuildRequestPath(call: Call, params: seq<Param>, objects: seq<Value>, encode: Value -> Json)
    requires WellTyped(params, objects)
    requires BuildRequest(call, params, objects, encode).Ok?
    ensures BuildRequest(call, params, objects, encode).value.path
         == Substituted(call.annotatedPath, params, objects, |params|).value.0
    ensures BuildRequest(call, params, objects, encode).value.pathBound == BoundCount(params, |params|)
  {
    SubstitutedCount(call.annotatedPath, params, objects, |params|);
  }

  /** In merge mode the payload is always the root object the loop as written builds, so the arity check never fires. */
  lemma BuildRequestMerge(call: Call, params: seq<Param>, objects: seq<Value>, encode: Value -> Json)
    requires WellTyped(params, objects) && call.mergePayloadToObject
    ensures var r := BuildRequest(call, params, objects, encode);
      (r.Ok? ==> MergedAsWritten(params, objects, encode, |params|).Ok?
                 && r.value.payload == Tree(JObject(MergedAsWritten(params, objects, encode, |params|).value.0)))
      && (r.Err? ==> r.error == NullPointer || r.error == IndexOutOfBounds)
  {
    SubstitutedFails(call.annotatedPath, params, objects, |params|);
    MergedAsWrittenFails(params, objects, encode, |params|);
  }

  /**
   * Outside merge mode a POST or PUT fails with an invalid state exactly
   * when there is no argument or the arguments are not the path-bound ones
   * plus one; otherwise the request is built and its payload is the first
   * argument.
   */
  lemma BuildRequestWriteArity(call: Call, params: seq<Param>, objects: seq<Value>, encode: Value -> Json)
    requires WellTyped(params, objects) && !call.mergePayloadToObject && IsWrite(call.httpMethod)
    requires Substituted(call.annotatedPath, params, objects, |params|).Ok?
    ensures var r := BuildRequest(call, params, objects, encode);
      (r.Err? && r.error.InvalidState?) <==> (|objects| == 0 || BoundCount(params, |params|) + 1 != |objects|)
    ensures var r := BuildRequest(call, params, objects, encode);
      r.Ok? <==> !(|objects| == 0 || BoundCount(params, |params|) + 1 != |objects|)
    ensures var r := BuildRequest(call, params, objects, encode);
      (|objects| == 0 ==> r == Err(InvalidState(OnePayloadRequiredHaveZero)))
      && (r.Ok? ==> r.value.payload == objects[0])
  {
    SubstitutedCount(call.annotatedPath, params, objects, |params|);
  }

  /** Other verbs, outside merge mode, carry no payload. */
  lemma BuildRequestNoPayload(call: Call, params: seq<Param>, objects: seq<Value>, encode: Value -> Json)
    requires WellTyped(params, objects) && !call.mergePayloadToObject && !IsWrite(call.httpMethod)
    ensures var r := BuildRequest(call, params, objects, encode);
      r.Ok? <==> Substituted(call.annotatedPath, params, objects, |params|).Ok?
    ensures var r := BuildRequest(call, params, objects, encode);
      r.Ok? ==> r.value.payload == Null
  {
  }

  /** The builder of `intercept`: substitution loop, merge loop, then the payload choice. */
  method AssembleRequest(call: Call, params: seq<Param>, objects: seq<Value>, encode: Value -> Json) returns (r: Result<Built>)
    requires WellTyped(params, objects)
    ensures r == BuildRequest(call, params, objects, encode)
  {
    var sub := SubstitutePath(call.annotatedPath, params, objects);
    if sub.Err? {
      return Err(sub.error);
    }
    var payload := Null;
    if call.mergePayloadToObject {
      var merged := MergePayload(params, objects, encode);
      if merged.Err? {
        return Err(merged.error);
      }
      payload := Tree(JObject(merged.value));
    }
    var annotatedPath, paramsForMappingUrl := sub.value.0, sub.value.1;
    if IsWrite(call.httpMethod) && payload == Null {
      if |objects| >= 1 {
        if paramsForMappingUrl + 1 != |objects| {
          return Err(InvalidState(OnePayloadRequired));
        }
      } else {
        return Err(InvalidState(OnePayloadRequiredHaveZero));
      }
      payload := objects[0];
    }
    r := Ok(Built(annotatedPath, paramsForMappingUrl, payload));
  }
}
