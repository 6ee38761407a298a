/**
 * The response resolver of `makeRequestToMicroservice`: a chain of guarded
 * early returns that turns the raw response (status, headers, optional body
 * bytes) into the value the proxied method returns, chosen by the declared
 * return type and its type arguments, plus the absorption of a transport
 * failure into a pass-through `ResponseEntity`.
 */
module Resolver {
  import opened Types

  /** The message of the fallback InvalidStateException and of the wrapped IOException. */
  const InternalError := "Internal error processing. Retry later"

  /** What Jackson is asked to decode the body as. */
  datatype Target =
    | As(cls: Cls)                               // readValue(body, cls)
    | CollectionOf(container: Cls, element: Cls) // readValue(body, constructCollectionType(container, element))
    | GenericTree                                // readTree(body), then convertValue(.., Map.class)

  /** The outcome of the decoder: a value, or an IOException. */
  datatype Decoding = Parsed(v: Value) | Unreadable

  /** A body of a `ResponseEntity` handed back to the caller. */
  datatype EntityBody =
    | NoBody               // the response had no body
    | Text(raw: seq<Byte>) // the body of a failure response, read as a string (its bytes; empty for an empty stream)
    | Decoded(value: Value) // the body decoded as the declared type argument

  /** The value the proxied method returns. */
  datatype Reply =
    | VoidMarker                // Void.TYPE
    | OptionalEmpty             // Optional.empty()
    | OptionalOf(value: Value)  // Optional.of(value)
    | Returned(value: Value)    // a decoded value, the raw bytes, or null
    | Entity(status: int, headers: Headers, body: EntityBody)
    | Pending(outcome: Result<Reply>)  // a CompletableFuture that completes with the outcome, or exceptionally

  /** `returnGenericType[i]`: a null array or an index past its end throws. */
  function GenericAt(g: Option<seq<Cls>>, i: nat): Result<Cls>
  {
    if g.None? then Err(NullPointer)
    else if i < |g.value| then Ok(g.value[i])
    else Err(IndexOutOfBounds)
  }

  /** The element decoded by an Optional or a CompletableFuture: a collection of g[1] when g[0] is a collection class, else g[0]. */
  function ElementTarget(g: Option<seq<Cls>>): Result<Target> {
    var c0 :- GenericAt(g, 0);
    if c0.Collection? then
      var c1 :- GenericAt(g, 1);
      Ok(CollectionOf(c0, c1))
    else Ok(As(c0))
  }

  /** One decoder call; an IOException becomes the internal-server-error failure. */
  function Read(decode: (Option<seq<Byte>>, Target) -> Decoding, body: Option<seq<Byte>>, t: Target): Result<Value>
  {
    match decode(body, t)
    case Parsed(v) => Ok(v)
    case Unreadable => Err(InternalServerError(InternalError))
  }

  /** `Map<String, Object>` declared with the conversion flag set. */
  predicate ConvertsToMap(t: Cls, g: Option<seq<Cls>>, convertToMap: bool) {
    t == MapCls && g.Some? && |g.value| == 2 && g.value[0] == StringCls && g.value[1] == ObjectCls && convertToMap
  }

  /**
   * The return-shape dispatch, first match wins: void, Optional, empty body
   * under the null-on-empty flag, CompletableFuture, byte[], non-generic,
   * ResponseEntity, converted Map, Collection, and the fallback error.
   */
  function Resolve(t: Cls, g: Option<seq<Cls>>, convertToMap: bool, nullOnEmpty: bool,
                   resp: Response, decode: (Option<seq<Byte>>, Target) -> Decoding): Result<Reply>
  {
    if t == VoidType then Ok(VoidMarker)
    else if t == OptionalCls then
      if resp.body.None? then Ok(OptionalEmpty)
      else
        var target :- ElementTarget(g);
        var v :- Read(decode, resp.body, target);
        if v == Null then Err(NullPointer) else Ok(OptionalOf(v))  // Optional.of(null)
    else if resp.body.None? && nullOnEmpty && t != ResponseEntityCls then Ok(Returned(Null))
    else if t == FutureCls then
      if g.None? then Err(NullPointer)  // returnGenericType.length on null
      else if |g.value| == 0 then Ok(VoidMarker)
      else
        var target :- ElementTarget(g);
        var v :- Read(decode, resp.body, target);
        Ok(Returned(v))
    else if t == ByteArrayCls then
      Ok(Returned(if resp.body.Some? then Bytes(resp.body.value) else Null))
    else if g.None? then
      var v :- Read(decode, resp.body, As(t));
      Ok(Returned(v))
    else if t == ResponseEntityCls then
      if resp.body.None? then Ok(Entity(resp.status, resp.headers, NoBody))
      else
        var c0 :- GenericAt(g, 0);
        var v :- Read(decode, resp.body, As(c0));
        Ok(Entity(resp.status, resp.headers, Decoded(v)))
    else if ConvertsToMap(t, g, convertToMap) then
      var v :- Read(decode, resp.body, GenericTree);
      Ok(Returned(v))
    else if t.Collection? then
      var c0 :- GenericAt(g, 0);
      var v :- Read(decode, resp.body, CollectionOf(t, c0));
      Ok(Returned(v))
    else Err(InvalidState(InternalError))
  }

  /** The handler of InvalidRequestException: a pass-through ResponseEntity absorbs a failure carrying a response with a body stream. */
  function Absorb(t: Cls, failure: Option<Response>): Result<Reply> {
    if t == ResponseEntityCls && failure.Some? && failure.value.body.Some? then
      Ok(Entity(failure.value.status, failure.value.headers, Text(failure.value.body.value)))
    else Err(RequestRejected(failure))
  }

  // ---------------------------------------------------------------------
  // Shapes: the same dispatch, classified from the declaration first

  /** The return shape a declaration selects, independent of any response. */
  datatype Shape =
    | VoidShape
    | OptionalShape(element: Result<Target>)
    | FutureShape(awaited: Result<Option<Target>>)  // Ok(None): no type arguments
    | BytesShape
    | RawShape(cls: Cls)                            // not generic: decoded as itself
    | EntityShape(inner: Result<Cls>)
    | TreeShape
    | CollectionShape(container: Cls, member: Result<Cls>)
    | Unsupported

  function FutureElement(g: Option<seq<Cls>>): Result<Option<Target>> {
    if g.None? then Err(NullPointer)
    else if |g.value| == 0 then Ok(None)
    else
      var target :- ElementTarget(g);
      Ok(Some(target))
  }

  /** Shape classification of a declared return type and its type arguments. */
  function Classify(t: Cls, g: Option<seq<Cls>>, convertToMap: bool): Shape {
    if t == VoidType then VoidShape
    else if t == OptionalCls then OptionalShape(ElementTarget(g))
    else if t == FutureCls then FutureShape(FutureElement(g))
    else if t == ByteArrayCls then BytesShape
    else if g.None? then RawShape(t)
    else if t == ResponseEntityCls then EntityShape(GenericAt(g, 0))
    else if ConvertsToMap(t, g, convertToMap) then TreeShape
    else if t.Collection? then CollectionShape(t, GenericAt(g, 0))
    else Unsupported
  }

  /** Shapes a missing body does not turn into null: those of a declared `ResponseEntity`. */
  predicate KeepsEmpty(s: Shape) {
    s.EntityShape? || s == RawShape(ResponseEntityCls)
  }

  /** The response of a classified shape. */
  function Respond(s: Shape, nullOnEmpty: bool, resp: Response,
                   decode: (Option<seq<Byte>>, Target) -> Decoding): Result<Reply>
  {
    if s.VoidShape? then Ok(VoidMarker)
    else if s.OptionalShape? then
      if resp.body.None? then Ok(OptionalEmpty)
      else
        var target :- s.element;
        var v :- Read(decode, resp.body, target);
        if v == Null then Err(NullPointer) else Ok(OptionalOf(v))
    else if resp.body.None? && nullOnEmpty && !KeepsEmpty(s) then Ok(Returned(Null))
    else match s
      case FutureShape(element) =>
        var target :- element;
        if target.None? then Ok(VoidMarker)
        else
          var v :- Read(decode, resp.body, target.value);
          Ok(Returned(v))
      case BytesShape => Ok(Returned(if resp.body.Some? then Bytes(resp.body.value) else Null))
      case RawShape(cls) =>
        var v :- Read(decode, resp.body, As(cls));
        Ok(Returned(v))
      case EntityShape(inner) =>
        if resp.body.None? then Ok(Entity(resp.status, resp.headers, NoBody))
        else
          var c0 :- inner;
          var v :- Read(decode, resp.body, As(c0));
          Ok(Entity(resp.status, resp.headers, Decoded(v)))
      case TreeShape =>
        var v :- Read(decode, resp.body, GenericTree);
        Ok(Returned(v))
      case CollectionShape(container, element) =>
        var c0 :- element;
        var v :- Read(decode, resp.body, CollectionOf(container, c0));
        Ok(Returned(v))
      case _ => Err(InvalidState(InternalError))  // Unsupported; void and Optional are answered above
  }

  /** Classifying the declaration first and then responding is the dispatch of the resolver. */
  lemma ResolveByShape(t: Cls, g: Option<seq<Cls>>, convertToMap: bool, nullOnEmpty: bool,
                       resp: Response, decode: (Option<seq<Byte>>, Target) -> Decoding)
    ensures Resolve(t, g, convertToMap, nullOnEmpty, resp, decode)
         == Respond(Classify(t, g, convertToMap), nullOnEmpty, resp, decode)
  {
  }

  // ---------------------------------------------------------------------
  // Precedence

  /** A void declaration ignores the response, body or none. */
  lemma ResolveVoid(g: Option<seq<Cls>>, convertToMap: bool, nullOnEmpty: bool,
                    resp: Response, decode: (Option<seq<Byte>>, Target) -> Decoding)
    ensures Resolve(VoidType, g, convertToMap, nullOnEmpty, resp, decode) == Ok(VoidMarker)
  {
  }

  /**
   * An Optional is empty exactly when there is no body, even when its type
   * arguments are missing; otherwise it wraps a decoded value that is never
   * null, a null decoding failing as Optional.of(null) does.
   */
  lemma ResolveOptional(g: Option<seq<Cls>>, convertToMap: bool, nullOnEmpty: bool,
                        resp: Response, decode: (Option<seq<Byte>>, Target) -> Decoding)
    ensures var r := Resolve(OptionalCls, g, convertToMap, nullOnEmpty, resp, decode);
      (r == Ok(OptionalEmpty) <==> resp.body.None?)
      && (r.Ok? && resp.body.Some? ==>
            ElementTarget(g).Ok? && r == Ok(OptionalOf(decode(resp.body, ElementTarget(g).value).v))
            && r.value.value != Null)
      && (r.Err? ==> r.error in {NullPointer, IndexOutOfBounds, InternalServerError(InternalError)})
  {
  }

  /**
   * With the null-on-empty flag, a missing body answers null for every
   * declaration but void, Optional and ResponseEntity, whatever the type
   * arguments.
   */
  lemma ResolveNullOnEmpty(t: Cls, g: Option<seq<Cls>>, convertToMap: bool,
                           resp: Response, decode: (Option<seq<Byte>>, Target) -> Decoding)
    requires resp.body.None? && t !in {VoidType, OptionalCls, ResponseEntityCls}
    ensures Resolve(t, g, convertToMap, true, resp, decode) == Ok(Returned(Null))
  {
  }

  /**
   * Without a body and with the null-on-empty flag, the decoder is never
   * consulted, except for a non-generic ResponseEntity, which is handed to
   * the decoder with the missing body.
   */
  lemma ResolveWithoutBody(t: Cls, g: Option<seq<Cls>>, convertToMap: bool, resp: Response,
                           d1: (Option<seq<Byte>>, Target) -> Decoding, d2: (Option<seq<Byte>>, Target) -> Decoding)
    requires resp.body.None?
    ensures !(t == ResponseEntityCls && g.None?) ==>
      Resolve(t, g, convertToMap, true, resp, d1) == Resolve(t, g, convertToMap, true, resp, d2)
    ensures t == ResponseEntityCls && g.None? ==>
      Resolve(t, g, convertToMap, true, resp, d1)
        == (if d1(None, As(ResponseEntityCls)).Parsed? then Ok(Returned(d1(None, As(ResponseEntityCls)).v))
            else Err(InternalServerError(InternalError)))
  {
  }

  /** A CompletableFuture without type arguments fails on the null array; with none it completes with the void marker. */
  lemma ResolveFuture(convertToMap: bool, nullOnEmpty: bool,
                      resp: Response, decode: (Option<seq<Byte>>, Target) -> Decoding)
    requires resp.body.Some? || !nullOnEmpty
    ensures Resolve(FutureCls, None, convertToMap, nullOnEmpty, resp, decode) == Err(NullPointer)
    ensures Resolve(FutureCls, Some([]), convertToMap, nullOnEmpty, resp, decode) == Ok(VoidMarker)
  {
  }

  /**
   * A CompletableFuture with type arguments decodes the body as its element,
   * a collection when the first argument is a collection class.
   */
  lemma ResolveFutureDecodes(gs: seq<Cls>, convertToMap: bool, nullOnEmpty: bool,
                             resp: Response, decode: (Option<seq<Byte>>, Target) -> Decoding)
    requires |gs| >= 1 && (resp.body.Some? || !nullOnEmpty)
    ensures var r := Resolve(FutureCls, Some(gs), convertToMap, nullOnEmpty, resp, decode);
      && (gs[0].Collection? && |gs| == 1 ==> r == Err(IndexOutOfBounds))
      && (gs[0].Collection? && |gs| >= 2 ==>
            r == (if decode(resp.body, CollectionOf(gs[0], gs[1])).Parsed?
                  then Ok(Returned(decode(resp.body, CollectionOf(gs[0], gs[1])).v))
                  else Err(InternalServerError(InternalError))))
      && (!gs[0].Collection? ==>
            r == (if decode(resp.body, As(gs[0])).Parsed?
                  then Ok(Returned(decode(resp.body, As(gs[0])).v))
                  else Err(InternalServerError(InternalError))))
  {
  }

  /** A declaration without type arguments past the earlier rules is decoded as the return type itself. */
  lemma ResolveRaw(t: Cls, convertToMap: bool, nullOnEmpty: bool,
                   resp: Response, decode: (Option<seq<Byte>>, Target) -> Decoding)
    requires t !in {VoidType, OptionalCls, FutureCls, ByteArrayCls}
    requires resp.body.Some? || !nullOnEmpty || t == ResponseEntityCls
    ensures Resolve(t, None, convertToMap, nullOnEmpty, resp, decode)
         == (if decode(resp.body, As(t)).Parsed? then Ok(Returned(decode(resp.body, As(t)).v))
             else Err(InternalServerError(InternalError)))
  {
  }

  /** A Collection declaration is decoded as a collection of its first type argument. */
  lemma ResolveCollection(name: string, gs: seq<Cls>, convertToMap: bool, nullOnEmpty: bool,
                          resp: Response, decode: (Option<seq<Byte>>, Target) -> Decoding)
    requires resp.body.Some? || !nullOnEmpty
    ensures var r := Resolve(Collection(name), Some(gs), convertToMap, nullOnEmpty, resp, decode);
      && (|gs| == 0 ==> r == Err(IndexOutOfBounds))
      && (|gs| >= 1 ==>
            r == (if decode(resp.body, CollectionOf(Collection(name), gs[0])).Parsed?
                  then Ok(Returned(decode(resp.body, CollectionOf(Collection(name), gs[0])).v))
                  else Err(InternalServerError(InternalError))))
  {
  }

  /** A byte[] declaration returns the body verbatim, never decoded; null when there is none. */
  lemma ResolveBytes(g: Option<seq<Cls>>, convertToMap: bool, nullOnEmpty: bool,
                     resp: Response, decode: (Option<seq<Byte>>, Target) -> Decoding)
    ensures Resolve(ByteArrayCls, g, convertToMap, nullOnEmpty, resp, decode)
         == Ok(Returned(if resp.body.Some? then Bytes(resp.body.value) else Null))
  {
  }

  /**
   * A generic ResponseEntity keeps the status and headers of the response;
   * it has no body exactly when the response had none, and a body decoded
   * as its type argument otherwise.
   */
  lemma ResolveEntity(gs: seq<Cls>, convertToMap: bool, nullOnEmpty: bool,
                      resp: Response, decode: (Option<seq<Byte>>, Target) -> Decoding)
    ensures var r := Resolve(ResponseEntityCls, Some(gs), convertToMap, nullOnEmpty, resp, decode);
      r.Ok? ==>
        (r.value.Entity? && r.value.status == resp.status && r.value.headers == resp.headers
         && (r.value.body == NoBody <==> resp.body.None?)
         && (resp.body.Some? ==> |gs| >= 1 && r.value.body == Decoded(decode(resp.body, As(gs[0])).v)))
    ensures var r := Resolve(ResponseEntityCls, Some(gs), convertToMap, nullOnEmpty, resp, decode);
      r.Err? <==> resp.body.Some? && (|gs| == 0 || decode(resp.body, As(gs[0])).Unreadable?)
  {
  }

  /** Map<String, Object> is read as a tree only with the conversion flag; without it the declaration is unsupported. */
  lemma ResolveMap(nullOnEmpty: bool, resp: Response, decode: (Option<seq<Byte>>, Target) -> Decoding)
    requires resp.body.Some? || !nullOnEmpty
    ensures var g := Some([StringCls, ObjectCls]);
      Resolve(MapCls, g, true, nullOnEmpty, resp, decode)
        == (if decode(resp.body, GenericTree).Parsed? then Ok(Returned(decode(resp.body, GenericTree).v))
            else Err(InternalServerError(InternalError)))
      && Resolve(MapCls, g, false, nullOnEmpty, resp, decode) == Err(InvalidState(InternalError))
  {
  }

  /**
   * The fallback: the resolver fails with the invalid-state error exactly for
   * a generic declaration that is none of the recognised shapes, once the
   * null-on-empty rule has not answered.
   */
  lemma ResolveFallback(t: Cls, g: Option<seq<Cls>>, convertToMap: bool, nullOnEmpty: bool,
                        resp: Response, decode: (Option<seq<Byte>>, Target) -> Decoding)
    ensures var r := Resolve(t, g, convertToMap, nullOnEmpty, resp, decode);
      (r.Err? && r.error.InvalidState?)
        <==> g.Some? && (t.Plain? || t in {MapCls, StringCls, ObjectCls})
             && !ConvertsToMap(t, g, convertToMap) && !(resp.body.None? && nullOnEmpty)
    ensures var r := Resolve(t, g, convertToMap, nullOnEmpty, resp, decode);
      r.Err? ==> r.error in {NullPointer, IndexOutOfBounds, InvalidState(InternalError), InternalServerError(InternalError)}
  {
  }

  /**
   * A transport failure is absorbed exactly for a declared ResponseEntity
   * and a failure carrying a response with a body stream: the result has
   * the raw status, the headers and the body as text. Every other failure
   * is rethrown unchanged.
   */
  lemma AbsorbExactly(t: Cls, failure: Option<Response>)
    ensures Absorb(t, failure).Ok? <==> t == ResponseEntityCls && failure.Some? && failure.value.body.Some?
    ensures Absorb(t, failure).Ok? ==>
      Absorb(t, failure).value == Entity(failure.value.status, failure.value.headers, Text(failure.value.body.value))
    ensures Absorb(t, failure).Err? ==> Absorb(t, failure).error == RequestRejected(failure)
  {
  }
}
