/**
 * Shared vocabulary of the call-translation engine: the values that flow
 * through a proxied call, the routing descriptor of a contract method, the
 * HTTP request and response, and the failures the engine can raise.
 */
module Types {

  /** An octet of an HTTP body or of a UTF-8 encoding. */
  type Byte = b: int | 0 <= b < 256

  datatype Option<+T> = None | Some(value: T)

  /** A JSON tree, as Jackson's JsonNode family represents it (numbers are integral here). */
  datatype Json =
    | JNull
    | JBool(b: bool)
    | JNumber(n: int)
    | JString(s: string)
    | JArray(items: seq<Json>)
    | JObject(fields: map<string, Json>)

  /**
   * A Java object as the engine sees it: an argument of the proxied method,
   * a payload, or a decoded response body. `Null` is Java's null; `Object`
   * stands for an instance of any other class, identified abstractly.
   */
  datatype Value =
    | Null
    | Str(s: string)
    | Number(n: int)
    | Bytes(bytes: seq<Byte>)
    | Tree(json: Json)
    | Object(id: nat)

  /** The Java classes the response resolver compares the declared return type with. */
  datatype Cls =
    | VoidType            // void
    | OptionalCls         // java.util.Optional
    | FutureCls           // java.util.concurrent.CompletableFuture
    | ByteArrayCls        // byte[]
    | ResponseEntityCls   // org.springframework.http.ResponseEntity
    | MapCls              // java.util.Map
    | StringCls           // java.lang.String
    | ObjectCls           // java.lang.Object
    | Collection(name: string)  // any class assignable to java.util.Collection
    | Plain(name: string)       // any other class

  datatype Verb = GET | HEAD | POST | PUT | PATCH | DELETE | OPTIONS | TRACE

  /**
   * The cached, parsed routing metadata of one contract method
   * (`CachedMicroserviceCall`). `returnGenericType` is None when the
   * declared return type is not generic (Java's null array).
   */
  datatype Call = Call(
    microserviceReturnType: Cls,
    returnGenericType: Option<seq<Cls>>,
    httpMethod: Verb,
    annotatedPath: string,
    microserviceName: string,
    convertResponseToMap: bool,
    mergePayloadToObject: bool,
    tryToReconnect: bool,
    tryToReconnectTimes: int,
    sleepTimeBetweenTrying: int)

  /**
   * What reflection reveals about one declared parameter: its name, whether
   * its type is String, and its path-variable and payload-variable
   * annotations (None when the annotation is absent; the key or path may be "").
   */
  datatype Param = Param(
    name: string,
    isString: bool,
    pathVariable: Option<string>,
    payloadVariable: Option<string>)

  /** HTTP header names (already folded, see HeaderAssembly) to their value lists. */
  type Headers = map<string, seq<string>>

  /** A response as the transport hands it back; `body` None is a response without body. */
  datatype Response = Response(status: int, headers: Headers, body: Option<seq<Byte>>)

  /** The failures the engine raises, one per Java exception it can throw. */
  datatype Failure =
    | InvalidState(message: string)          // InvalidStateException
    | InternalServerError(message: string)   // InternalSeverErrorProcessingRequestException
    | RequestRejected(response: Option<Response>)  // InvalidRequestException from the transport, rethrown
    | NullPointer                            // NullPointerException
    | IndexOutOfBounds                       // ArrayIndexOutOfBoundsException

  datatype Result<+T> = Ok(value: T) | Err(error: Failure) {
    predicate IsFailure() { Err? }
    function PropagateFailure<U>(): Result<U> requires Err? { Err(error) }
    function Extract(): T requires Ok? { value }
  }
}
