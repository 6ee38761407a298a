/**
 * Concrete calls worked through the model: path substitution with
 * encoding, the merged tree of three dotted payload parameters, the
 * POST arity rule, the merge-index discrepancy, and a pass-through
 * ResponseEntity absorbing a 404.
 */
module Scenarios {
  import opened Types
  import opened UrlForm
  import opened PathTemplate
  import opened JsonTree
  import opened RequestBuilder
  import opened HeaderAssembly
  import opened Resolver
  import opened Dispatcher

  /** A stand-in for Jackson's convertValue on the values used here. */
  function ToJson(v: Value): Json {
    match v
    case Str(s) => JString(s)
    case Number(n) => JNumber(n)
    case _ => JNull
  }

  function PathParam(name: string): Param {
    Param(name, true, Some(name), None)
  }

  function PayloadParam(name: string, path: string): Param {
    Param(name, false, None, Some(path))
  }

  /**
   * `/users/{id}/roles` with a non-String `limit` argument and "a b" for
   * `id`: the space is form-encoded, the non-String parameter is skipped
   * although it carries a path-variable key, and one parameter counts as
   * bound.
   */
  lemma SubstitutionExample()
    ensures Substituted("/users/{id}/roles", [Param("limit", false, Some("limit"), None), PathParam("id")],
                        [Number(10), Str("a b")], 2)
         == Ok(("/users/a+b/roles", 1))
  {
    var t := "/users/{id}/roles";
    var params := [Param("limit", false, Some("limit"), None), PathParam("id")];
    var objects := [Number(10), Str("a b")];
    assert Substituted(t, params, objects, 1) == Ok((t, 0));
    assert Placeholder("id") == "{id}";
    EncodeSpace();
    ReplaceExample();
    assert SubstStep((t, 0), params[1], objects[1]) == Ok(("/users/a+b/roles", 1));
  }

  lemma EncodeSpace()
    ensures FormEncode("a b") == "a+b"
  {
    FormEncodeSpaces("a b");
  }

  lemma ReplaceExample()
    ensures ReplaceAll("/users/{id}/roles", "{id}", "a+b") == "/users/a+b/roles"
  {
    CleanWithoutLead("/users/", "{id}");
    CleanWithoutLead("/roles", "{id}");
    ReplaceJoin(["/users/", "/roles"], "{id}", "a+b");
    assert Join(["/users/", "/roles"], "{id}") == "/users/{id}/roles";
    assert Join(["/users/", "/roles"], "a+b") == "/users/a+b/roles";
  }

  /** `String.split("\\.")` of a name with one inner dot. */
  lemma SplitOneDot(a: char, b: char)
    requires a != '.' && b != '.'
    ensures SplitDots([a, '.', b]) == [[a], [b]]
  {
    var empty := Pieces([]);
    assert empty == [""];
    assert [b][1..] == [];
    var pb := Pieces([b]);
    assert pb == [[b] + empty[0]] + empty[1..];
    assert [b] + empty[0] == [b] && empty[1..] == [];
    assert pb == [[b]];
    assert ['.', b][1..] == [b];
    var pdb := Pieces(['.', b]);
    assert pdb == [""] + pb;
    assert pdb == ["", [b]];
    assert [a, '.', b][1..] == ['.', b];
    var p := Pieces([a, '.', b]);
    assert p == [[a] + pdb[0]] + pdb[1..];
    assert [a] + pdb[0] == [a] && pdb[1..] == [[b]];
    assert p == [[a], [b]];
  }

  /**
   * Three payload parameters at `u.n`, `u.a` and `u.n` again: the shared
   * intermediate object is reused, and the later `u.n` overwrites the first.
   */
  lemma MergeExample()
    ensures MergedRoot([PayloadParam("a", "u.n"), PayloadParam("b", "u.a"), PayloadParam("c", "u.n")],
                       [Str("x"), Number(5), Str("y")], ToJson)
         == Ok(map["u" := JObject(map["n" := JString("y"), "a" := JNumber(5)])])
  {
    var params := [PayloadParam("a", "u.n"), PayloadParam("b", "u.a"), PayloadParam("c", "u.n")];
    var objects := [Str("x"), Number(5), Str("y")];
    SplitOneDot('u', 'n');
    SplitOneDot('u', 'a');
    assert Segments("u.n") == ["u", "n"];
    assert Segments("u.a") == ["u", "a"];
    GraftFirst();
    assert MergedAsWritten(params, objects, ToJson, 1) == Ok((map["u" := JObject(map["n" := JString("x")])], 1));
    GraftSecond();
    assert MergedAsWritten(params, objects, ToJson, 2)
        == Ok((map["u" := JObject(map["n" := JString("x"), "a" := JNumber(5)])], 2));
    GraftThird();
    assert MergedAsWritten(params, objects, ToJson, 3)
        == Ok((map["u" := JObject(map["n" := JString("y"), "a" := JNumber(5)])], 3));
  }

  lemma GraftFirst()
    ensures Grafted(map[], ["u", "n"], JString("x")) == map["u" := JObject(map["n" := JString("x")])]
  {
    assert ["u", "n"][1..] == ["n"];
  }

  lemma GraftSecond()
    ensures Grafted(map["u" := JObject(map["n" := JString("x")])], ["u", "a"], JNumber(5))
         == map["u" := JObject(map["n" := JString("x"), "a" := JNumber(5)])]
  {
    assert ["u", "a"][1..] == ["a"];
    assert ChildObject(map["u" := JObject(map["n" := JString("x")])], "u") == map["n" := JString("x")];
  }

  lemma GraftThird()
    ensures Grafted(map["u" := JObject(map["n" := JString("x"), "a" := JNumber(5)])], ["u", "n"], JString("y"))
         == map["u" := JObject(map["n" := JString("y"), "a" := JNumber(5)])]
  {
    var inner := map["n" := JString("x"), "a" := JNumber(5)];
    assert ["u", "n"][1..] == ["n"];
    assert ChildObject(map["u" := JObject(inner)], "u") == inner;
    assert inner["n" := JString("y")] == map["n" := JString("y"), "a" := JNumber(5)];
  }

  /**
   * Path parameter first, payload parameter second: as written the payload
   * parameter grafts the first argument, the path value "42", instead of
   * its own argument "bob".
   */
  lemma MergeIndexCounterexample()
    ensures var params := [PathParam("id"), PayloadParam("name", "")];
      var objects := [Str("42"), Str("bob")];
      && MergedAsWritten(params, objects, ToJson, 2) == Ok((map["name" := JString("42")], 1))
      && Merged(params, objects, ToJson, 2) == Ok(map["name" := JString("bob")])
  {
  }

  /** The request builder in merge mode sends the tree of the loop as written, the path value under "name". */
  lemma MergeIndexSent()
    ensures MergedPayload(Call(Plain("User"), None, POST, "/users/{id}", "users", false, true, false, 0, 0),
                          [PathParam("id"), PayloadParam("name", "")], [Str("42"), Str("bob")], ToJson)
         == Ok(Tree(JObject(map["name" := JString("42")])))
  {
    MergeIndexCounterexample();
  }

  function PostUser(): Call {
    Call(Plain("User"), None, POST, "/users/{id}", "users", false, false, false, 0, 0)
  }

  /** A POST with one path-bound parameter and one other argument sends the first argument. */
  lemma PostArityExample()
    ensures BuildRequest(PostUser(), [Param("user", false, None, None), PathParam("id")], [Object(1), Str("7")], ToJson)
         == Ok(Built("/users/7", 1, Object(1)))
  {
    var params := [Param("user", false, None, None), PathParam("id")];
    var objects := [Object(1), Str("7")];
    PostUserPath();
    assert MergedPayload(PostUser(), params, objects, ToJson) == Ok(Null);
  }

  lemma PostUserPath()
    ensures Substituted("/users/{id}", [Param("user", false, None, None), PathParam("id")], [Object(1), Str("7")], 2)
         == Ok(("/users/7", 1))
  {
    PostUserFirst();
    PostUserStep();
  }

  /** The first parameter is not path-bound and leaves the template as it is. */
  lemma PostUserFirst()
    ensures Substituted("/users/{id}", [Param("user", false, None, None), PathParam("id")], [Object(1), Str("7")], 1)
         == Ok(("/users/{id}", 0))
  {
  }

  lemma PostUserStep()
    ensures SubstStep(("/users/{id}", 0), PathParam("id"), Str("7")) == Ok(("/users/7", 1))
  {
    assert Placeholder("id") == "{id}";
    EncodeSeven();
    ReplaceSeven();
  }

  lemma EncodeSeven()
    ensures FormEncode("7") == "7"
  {
    FormEncodeUnreserved("7");
  }

  lemma ReplaceSeven()
    ensures ReplaceAll("/users/{id}", "{id}", "7") == "/users/7"
  {
    CleanWithoutLead("/users/", "{id}");
    CleanWithoutLead("", "{id}");
    ReplaceJoin(["/users/", ""], "{id}", "7");
    assert Join(["/users/", ""], "{id}") == "/users/{id}";
    assert Join(["/users/", ""], "7") == "/users/7";
  }

  /** A POST without arguments fails with the zero-payload message. */
  lemma PostWithoutArguments()
    ensures BuildRequest(PostUser(), [], [], ToJson) == Err(InvalidState(OnePayloadRequiredHaveZero))
  {
  }

  /** A POST whose only argument is path-bound has no payload argument and fails. */
  lemma PostWithoutPayload()
    ensures BuildRequest(PostUser(), [PathParam("id")], [Str("7")], ToJson) == Err(InvalidState(OnePayloadRequired))
  {
    var sub := Substituted("/users/{id}", [PathParam("id")], [Str("7")], 1);
    SubstitutedCount("/users/{id}", [PathParam("id")], [Str("7")], 1);
  }

  /**
   * A GET declared as `ResponseEntity<User>` to which the service answers
   * 404 with a body: the failure is absorbed into an entity with the status,
   * the headers and the body as text, and no after-request hook is called.
   */
  lemma NotFoundPassThrough(ambient: map<string, string>, order: seq<string>, body: seq<Byte>,
                            decode: (Option<seq<Byte>>, Target) -> Decoding)
    requires Enumerates(ambient, order)
    ensures var call := Call(ResponseEntityCls, Some([Plain("User")]), GET, "/users", "users", false, false, false, 0, 0);
      var failure := Response(404, map["content-type" := ["text/plain"]], Some(body));
      var env := Env(ambient, order, ambient, order, Some([1, 2]), true, (o: Outbound) => Rejected(Some(failure)), decode, ToJson);
      var out := Invoke(env, call, [], []);
      && out.0 == Ok(Entity(404, map["content-type" := ["text/plain"]], Text(body)))
      && (forall k :: 0 <= k < |out.1| ==> !out.1[k].point.AfterRequest?)
      && |out.1| == 4
  {
    var call := Call(ResponseEntityCls, Some([Plain("User")]), GET, "/users", "users", false, false, false, 0, 0);
    var failure := Response(404, map["content-type" := ["text/plain"]], Some(body));
    var env := Env(ambient, order, ambient, order, Some([1, 2]), true, (o: Outbound) => Rejected(Some(failure)), decode, ToJson);
    var b := BuildRequest(call, [], [], ToJson).value;
    DispatchRejected(env, SiteOf(call, b), RetryOf(call), false, b.payload);
    DispatchHookOrder(env, SiteOf(call, b), RetryOf(call), false, b.payload);
  }
}
