/**
 * One proxied call end to end: the request builder, then
 * `makeRequestToMicroservice` with its header assembly, the three
 * interceptor hook points around the exchange, failure absorption and the
 * response resolver. The interceptors are observers whose calls are
 * recorded in a trace; the transport, the decoder and the encoder are
 * parameters of the environment.
 */
module Dispatcher {
  import opened Types
  import opened RequestBuilder
  import opened HeaderAssembly
  import opened Resolver

  /** What every hook is told: service, path to the API resource, verb, declared return type and its type arguments. */
  datatype Site = Site(service: string, path: string, verb: Verb, returnType: Cls, generics: Option<seq<Cls>>)

  /** The entity sent: the payload (Null for an entity without body) and the header set. */
  datatype HttpEntity = HttpEntity(body: Value, headers: Headers)

  /** A hook point with the arguments the interceptor receives there. */
  datatype Point =
    | BeforeCreateHttpEntity(site: Site, headers: Headers)
    | BeforeRequest(site: Site, entity: HttpEntity)
    | AfterRequest(site: Site, entity: HttpEntity, response: Response)

  /** One interceptor called at one hook point. */
  datatype Event = Event(interceptor: nat, point: Point)

  /** The reconnect settings the rest template is configured with. */
  datatype Retry = Retry(enabled: bool, times: int, sleepBetween: int)

  /** What the transport is handed. */
  datatype Outbound = Outbound(service: string, path: string, verb: Verb, retry: Retry, entity: HttpEntity)

  /** What the transport hands back: a response, or an InvalidRequestException with the client response it carries, if any. */
  datatype Exchange = Delivered(response: Response) | Rejected(partial: Option<Response>)

  /**
   * The surroundings of a call: the ambient headers of the calling thread
   * with their iteration order, those of the pool thread a
   * CompletableFuture's request runs on, the registered interceptors (None
   * when the list was never set), the null-on-empty flag, and the foreign
   * parts.
   */
  datatype Env = Env(
    ambient: map<string, string>,
    order: seq<string>,
    workerAmbient: map<string, string>,
    workerOrder: seq<string>,
    interceptors: Option<seq<nat>>,
    returnNullOnEmpty: bool,
    transport: Outbound -> Exchange,
    decode: (Option<seq<Byte>>, Target) -> Decoding,
    encode: Value -> Json)

  predicate ValidEnv(env: Env) {
    Enumerates(env.ambient, env.order) && Enumerates(env.workerAmbient, env.workerOrder)
  }

  /** The surroundings as the pool thread sees them: its own ambient headers, everything else shared. */
  function WorkerEnv(env: Env): (w: Env)
    requires ValidEnv(env)
    ensures ValidEnv(w)
  {
    env.(ambient := env.workerAmbient, order := env.workerOrder)
  }

  function Interceptors(env: Env): seq<nat> {
    if env.interceptors.Some? then env.interceptors.value else []
  }

  /** The calls of one hook point, one per interceptor in list order. */
  function Hooks(ids: seq<nat>, p: Point): (es: seq<Event>)
    ensures |es| == |ids|
    ensures forall k :: 0 <= k < |ids| ==> es[k] == Event(ids[k], p)
  {
    if ids == [] then [] else Hooks(ids[..|ids| - 1], p) + [Event(ids[|ids| - 1], p)]
  }

  /** The position of a hook point in the lifecycle of a call. */
  function Rank(p: Point): nat {
    match p
    case BeforeCreateHttpEntity(_, _) => 0
    case BeforeRequest(_, _) => 1
    case AfterRequest(_, _, _) => 2
  }

  /** What `makeRequestToMicroservice` does and returns for a built payload, and the hooks it calls. */
  function Dispatch(env: Env, site: Site, retry: Retry, convertToMap: bool, payload: Value): (Result<Reply>, seq<Event>)
    requires ValidEnv(env)
  {
    var h := HeaderSet(env.ambient, env.order, payload);
    var entity := HttpEntity(payload, h);
    var ids := Interceptors(env);
    var before := Hooks(ids, BeforeCreateHttpEntity(site, h)) + Hooks(ids, BeforeRequest(site, entity));
    match env.transport(Outbound(site.service, site.path, site.verb, retry, entity))
    case Rejected(partial) => (Absorb(site.returnType, partial), before)
    case Delivered(resp) =>
      (Resolve(site.returnType, site.generics, convertToMap, env.returnNullOnEmpty, resp, env.decode),
       before + Hooks(ids, AfterRequest(site, entity, resp)))
  }

  /** One `forEach` over the interceptors at hook point p. */
  method Notify(ids: seq<nat>, p: Point, trace: seq<Event>) returns (trace': seq<Event>)
    ensures trace' == trace + Hooks(ids, p)
  {
    trace' := trace;
    var i := 0;
    while i < |ids|
      invariant 0 <= i <= |ids|
      invariant trace' == trace + Hooks(ids[..i], p)
    {
      assert ids[..i + 1][..i] == ids[..i];
      trace' := trace' + [Event(ids[i], p)];
      i := i + 1;
    }
    assert ids[..|ids|] == ids;
  }

  /**
   * `makeRequestToMicroservice`: assemble the headers, call the
   * before-create hooks, build the entity, call the before-request hooks,
   * exchange, absorb or rethrow a transport failure, call the after-request
   * hooks and resolve the response.
   */
  method MakeRequest(env: Env, site: Site, retry: Retry, convertToMap: bool, payload: Value)
    returns (r: Result<Reply>, trace: seq<Event>)
    requires ValidEnv(env)
    ensures (r, trace) == Dispatch(env, site, retry, convertToMap, payload)
  {
    var httpHeaders := AssembleHeaders(env.ambient, env.order, payload);
    ghost var ids := Interceptors(env);
    trace := [];
    if env.interceptors.Some? {
      trace := Notify(env.interceptors.value, BeforeCreateHttpEntity(site, httpHeaders), trace);
    }
    var request := HttpEntity(payload, httpHeaders);
    if env.interceptors.Some? {
      trace := Notify(env.interceptors.value, BeforeRequest(site, request), trace);
    }
    assert trace == Hooks(ids, BeforeCreateHttpEntity(site, httpHeaders)) + Hooks(ids, BeforeRequest(site, request));
    var exchange := env.transport(Outbound(site.service, site.path, site.verb, retry, request));
    if exchange.Rejected? {
      r := Absorb(site.returnType, exchange.partial);
      return;
    }
    var responseEntity := exchange.response;
    if env.interceptors.Some? {
      trace := Notify(env.interceptors.value, AfterRequest(site, request, responseEntity), trace);
    }
    r := Resolve(site.returnType, site.generics, convertToMap, env.returnNullOnEmpty, responseEntity, env.decode);
  }

  /**
   * Hook order of one call: every before-create hook, in list order, then
   * every before-request hook, in list order, then, only when the exchange
   * delivered a response, every after-request hook. All of them see the
   * header set sent, the before-request and after-request hooks the entity
   * sent, and the after-request hooks the response received.
   */
  lemma {:induction false} DispatchHookOrder(env: Env, site: Site, retry: Retry, convertToMap: bool, payload: Value)
    requires ValidEnv(env)
    ensures var trace := Dispatch(env, site, retry, convertToMap, payload).1;
      var ids := Interceptors(env);
      var h := HeaderSet(env.ambient, env.order, payload);
      var entity := HttpEntity(payload, h);
      var ex := env.transport(Outbound(site.service, site.path, site.verb, retry, entity));
      && |trace| == (if ex.Delivered? then 3 else 2) * |ids|
      && (forall i, j :: 0 <= i < j < |trace| ==> Rank(trace[i].point) <= Rank(trace[j].point))
      && (forall k :: 0 <= k < |ids| ==>
            trace[k] == Event(ids[k], BeforeCreateHttpEntity(site, h))
            && trace[|ids| + k] == Event(ids[k], BeforeRequest(site, entity)))
      && (forall k :: 2 * |ids| <= k < |trace| ==>
            ex.Delivered? && trace[k] == Event(ids[k - 2 * |ids|], AfterRequest(site, entity, ex.response)))
  {
    var trace := Dispatch(env, site, retry, convertToMap, payload).1;
    var ids := Interceptors(env);
    var h := HeaderSet(env.ambient, env.order, payload);
    var entity := HttpEntity(payload, h);
    var ex := env.transport(Outbound(site.service, site.path, site.verb, retry, entity));
    var a := Hooks(ids, BeforeCreateHttpEntity(site, h));
    var b := Hooks(ids, BeforeRequest(site, entity));
    var c := if ex.Delivered? then Hooks(ids, AfterRequest(site, entity, ex.response)) else [];
    assert trace == a + b + c;
    forall k | 0 <= k < |trace|
      ensures Rank(trace[k].point) == (if k < |ids| then 0 else if k < 2 * |ids| then 1 else 2)
    {
      if k < |ids| {
        assert trace[k] == a[k];
      } else if k < 2 * |ids| {
        assert trace[k] == b[k - |ids|];
      } else {
        assert trace[k] == c[k - 2 * |ids|];
      }
    }
  }

  /** Without registered interceptors no hook is called, whatever the exchange does. */
  lemma DispatchWithoutInterceptors(env: Env, site: Site, retry: Retry, convertToMap: bool, payload: Value)
    requires ValidEnv(env) && env.interceptors.None?
    ensures Dispatch(env, site, retry, convertToMap, payload).1 == []
  {
  }

  /** A rejected exchange calls no after-request hook, and its result is the absorbed or rethrown failure. */
  lemma DispatchRejected(env: Env, site: Site, retry: Retry, convertToMap: bool, payload: Value)
    requires ValidEnv(env)
    requires var h := HeaderSet(env.ambient, env.order, payload);
      env.transport(Outbound(site.service, site.path, site.verb, retry, HttpEntity(payload, h))).Rejected?
    ensures var out := Dispatch(env, site, retry, convertToMap, payload);
      var h := HeaderSet(env.ambient, env.order, payload);
      && (forall k :: 0 <= k < |out.1| ==> !out.1[k].point.AfterRequest?)
      && out.0 == Absorb(site.returnType,
           env.transport(Outbound(site.service, site.path, site.verb, retry, HttpEntity(payload, h))).partial)
  {
    var h := HeaderSet(env.ambient, env.order, payload);
    var entity := HttpEntity(payload, h);
    var ids := Interceptors(env);
    var a := Hooks(ids, BeforeCreateHttpEntity(site, h));
    var b := Hooks(ids, BeforeRequest(site, entity));
    var ab: seq<Event> := a + b;
    forall k | 0 <= k < |ab|
      ensures !ab[k].point.AfterRequest?
    {
      if k < |a| {
        assert ab[k] == a[k];
      } else {
        assert ab[k] == b[k - |a|];
      }
    }
  }

  // ---------------------------------------------------------------------
  // The proxied call

  /** The hook context and reconnect settings of a built request. */
  function SiteOf(call: Call, b: Built): Site {
    Site(call.microserviceName, b.path, call.httpMethod, call.microserviceReturnType, call.returnGenericType)
  }

  function RetryOf(call: Call): Retry {
    Retry(call.tryToReconnect, call.tryToReconnectTimes, call.sleepTimeBetweenTrying)
  }

  /** The surroundings `makeRequestToMicroservice` runs in: the pool thread for a CompletableFuture, else the caller's. */
  function Runner(env: Env, call: Call): Env
    requires ValidEnv(env)
  {
    if call.microserviceReturnType == FutureCls then WorkerEnv(env) else env
  }

  /**
   * `intercept` for a contract method: build the request, then make it. A
   * future-returning method hands the request to a pool thread and returns
   * at once a future that completes with the request's outcome; the trace
   * is that of the pool thread.
   */
  function Invoke(env: Env, call: Call, params: seq<Param>, objects: seq<Value>): (Result<Reply>, seq<Event>)
    requires ValidEnv(env) && WellTyped(params, objects)
  {
    match BuildRequest(call, params, objects, env.encode)
    case Err(e) => (Err(e), [])
    case Ok(b) =>
      var out := Dispatch(Runner(env, call), SiteOf(call, b), RetryOf(call), call.convertResponseToMap, b.payload);
      if call.microserviceReturnType == FutureCls then (Ok(Pending(out.0)), out.1) else out
  }

  /** The body of `intercept` past the descriptor lookup. */
  method Intercept(env: Env, call: Call, params: seq<Param>, objects: seq<Value>)
    returns (r: Result<Reply>, trace: seq<Event>)
    requires ValidEnv(env) && WellTyped(params, objects)
    ensures (r, trace) == Invoke(env, call, params, objects)
  {
    var built := AssembleRequest(call, params, objects, env.encode);
    if built.Err? {
      return Err(built.error), [];
    }
    var site, retry := SiteOf(call, built.value), RetryOf(call);
    if call.microserviceReturnType == FutureCls {
      var outcome;
      outcome, trace := MakeRequest(WorkerEnv(env), site, retry, call.convertResponseToMap, built.value.payload);
      r := Ok(Pending(outcome));
    } else {
      r, trace := MakeRequest(env, site, retry, call.convertResponseToMap, built.value.payload);
    }
  }

  /** A call whose request cannot be built fails before any hook is called or anything is sent, future or not. */
  lemma InvokeBuildFailure(env: Env, call: Call, params: seq<Param>, objects: seq<Value>)
    requires ValidEnv(env) && WellTyped(params, objects)
    requires BuildRequest(call, params, objects, env.encode).Err?
    ensures Invoke(env, call, params, objects) == (Err(BuildRequest(call, params, objects, env.encode).error), [])
  {
  }

  /**
   * The transport is handed the built path, the descriptor's service, verb
   * and reconnect settings, and an entity carrying the payload and the
   * header set built from the ambient headers of the thread that runs the
   * request; the outcome is the absorbed failure or the resolved response,
   * returned directly or as the outcome of the future.
   */
  lemma InvokeSends(env: Env, call: Call, params: seq<Param>, objects: seq<Value>)
    requires ValidEnv(env) && WellTyped(params, objects)
    requires BuildRequest(call, params, objects, env.encode).Ok?
    ensures var b := BuildRequest(call, params, objects, env.encode).value;
      var future := call.microserviceReturnType == FutureCls;
      var ambient := if future then env.workerAmbient else env.ambient;
      var order := if future then env.workerOrder else env.order;
      var out := Outbound(call.microserviceName, b.path, call.httpMethod,
                          Retry(call.tryToReconnect, call.tryToReconnectTimes, call.sleepTimeBetweenTrying),
                          HttpEntity(b.payload, HeaderSet(ambient, order, b.payload)));
      var outcome := match env.transport(out)
            case Rejected(partial) => Absorb(call.microserviceReturnType, partial)
            case Delivered(resp) =>
              Resolve(call.microserviceReturnType, call.returnGenericType, call.convertResponseToMap,
                      env.returnNullOnEmpty, resp, env.decode);
      Invoke(env, call, params, objects).0 == (if future then Ok(Pending(outcome)) else outcome)
  {
  }

  /** A future-returning call whose request was built never throws: every failure of the request completes the future. */
  lemma InvokeFutureNeverThrows(env: Env, call: Call, params: seq<Param>, objects: seq<Value>)
    requires ValidEnv(env) && WellTyped(params, objects)
    requires call.microserviceReturnType == FutureCls && BuildRequest(call, params, objects, env.encode).Ok?
    ensures Invoke(env, call, params, objects).0.Ok? && Invoke(env, call, params, objects).0.value.Pending?
  {
  }
}
