# Call translation of a declarative microservice client

This project is a model, in Dafny, of the part of the microservice
communicator that turns a call on a proxied contract interface into an HTTP
request, and the HTTP response back into the value the method returns.
The model is written for the factory `MicroserviceInterfaceImpFactory`. It
has four stages, each proved against its own specification:

- **Request builder** (`RequestBuilder`, over `UrlForm`, `PathTemplate` and `JsonTree`).
  - A routing descriptor (`Types.Call`, the `CachedMicroserviceCall` record) and the argument list of a call go in.
  - Every `{key}` placeholder of a String parameter with a non-empty path-variable key is replaced by the argument. The argument is encoded the way `URLEncoder.encode(value, "UTF-8")` does it.
  - The path-bound parameters are counted.
  - The payload is chosen. It is either a JSON object tree grafted together from the payload-variable parameters at their dotted names, or, for POST and PUT, the first argument after the arity check.
- **Header assembly** (`HeaderAssembly`).
  - Every ambient header of the thread that makes the request is added to a fresh header set whose names compare without regard to case. That thread is the caller's own for an ordinary call, and a pool thread, with its own thread-local map, for a call that returns a `CompletableFuture`.
  - The content type is then set to `application/json` unless the payload is a byte array.
- **Interceptor ordering** (`Dispatcher`).
  - Each registered interceptor is called before the entity is created, then before the request, then after the request.
  - The after-request hooks run only when the exchange delivered a response.
  - The hooks are observers: the model records their calls in a trace.
- **Response resolver** (`Resolver`).
  - The raw response (status, headers, optional body bytes) becomes the returned value.
  - This is a first-match-wins case split on the declared return type and its type arguments, ending in an invalid-state failure.
  - When the declared return type is `ResponseEntity`, a transport failure carrying a response with a body is absorbed into a pass-through `ResponseEntity`. Every other transport failure is rethrown.

`Dispatcher.Invoke` and its imperative counterpart `Dispatcher.Intercept` chain the four stages for one call. A call whose declared return type is `CompletableFuture` returns at once a pending future (`Resolver.Reply.Pending`). The request runs on a pool thread, and its result or failure completes that future instead of being returned or thrown.

The stages that mutate state are methods with loops:
- the substitution loop;
- the merge loop, with a cursor walking a JSON tree;
- the header loop;
- the interceptor `forEach` calls.

Each of these methods is proved equal to a specification function, and the properties are proved about those functions as lemmas. The transport, the JSON decoder (`readValue`/`readTree`) and the encoder (`convertValue`) are parameters of the environment (`Dispatcher.Env`). The same goes for the ambient header maps (the caller's and the pool thread's) and the interceptor list.

Four behaviours of the code are worth stating outright, since the model follows them as they are:
- A path value is form-encoded, so a space becomes `+`, not `%20`.
- A transport failure without a response is rethrown unchanged. It is not wrapped as an internal error.
- A declaration of no recognised shape ends in an `InvalidStateException` carrying "Internal error processing. Retry later".
- The merge loop takes its argument by the count of payload parameters seen so far, not by the parameter's own position. The request builder runs that loop as written (`RequestBuilder.MergedAsWritten`, `RequestBuilder.MergePayload`). The evidently intended loop (`RequestBuilder.Merged`) is a separate reference, related to the written one under Findings.

Modules, one per file: `Types` (types.dfy), `UrlForm` (url_form.dfy), `PathTemplate` (path_template.dfy),
`JsonTree` (json_tree.dfy), `RequestBuilder` (request_builder.dfy), `HeaderAssembly` (headers.dfy),
`Resolver` (resolver.dfy), `Dispatcher` (dispatcher.dfy), and `Scenarios` (scenarios.dfy), which works concrete calls through the model.

## Model

| member | source | states |
|---|---|---|
| UrlForm.HexDigit | src/main/java/com/biqasoft/microservice/communicator/interfaceimpl/MicroserviceInterfaceImpFactory.java:305 | the hexadecimal digit URLEncoder writes is a decimal digit or an upper-case letter A-F, and so is left unescaped |
| UrlForm.Utf8 | src/main/java/com/biqasoft/microservice/communicator/interfaceimpl/MicroserviceInterfaceImpFactory.java:305 | a character is encoded with one to four UTF-8 bytes |
| UrlForm.Percent | src/main/java/com/biqasoft/microservice/communicator/interfaceimpl/MicroserviceInterfaceImpFactory.java:305 | each byte becomes one three-character `%XY` escape made of URL-safe characters |
| UrlForm.EncodeChar | src/main/java/com/biqasoft/microservice/communicator/interfaceimpl/MicroserviceInterfaceImpFactory.java:305 | specification function: one character as URLEncoder writes it, itself when unreserved, `+` for a space, else the escapes of its UTF-8 bytes; its properties are the round-trip rows below |
| UrlForm.FormEncode | src/main/java/com/biqasoft/microservice/communicator/interfaceimpl/MicroserviceInterfaceImpFactory.java:305 | an encoded path value consists of letters, digits, `.-*_`, `+` and `%` only |
| UrlForm.DecodeEscape | src/main/java/com/biqasoft/microservice/communicator/interfaceimpl/MicroserviceInterfaceImpFactory.java:305 | a decoded escape sequence consumes at least one `%XY` and no more than the input |
| UrlForm.EscapedByteOfPercent | src/main/java/com/biqasoft/microservice/communicator/interfaceimpl/MicroserviceInterfaceImpFactory.java:305 | the i-th escape of an encoded byte string reads back as the i-th byte, whatever follows |
| UrlForm.DecodeEscapeOfChar | src/main/java/com/biqasoft/microservice/communicator/interfaceimpl/MicroserviceInterfaceImpFactory.java:305 | the escapes of a character's UTF-8 bytes decode to the character and use exactly those escapes |
| UrlForm.DecodeEscapeOfTwo | src/main/java/com/biqasoft/microservice/communicator/interfaceimpl/MicroserviceInterfaceImpFactory.java:305 | a two-byte UTF-8 escape decodes to its character |
| UrlForm.DecodeEscapeOfThree | src/main/java/com/biqasoft/microservice/communicator/interfaceimpl/MicroserviceInterfaceImpFactory.java:305 | a three-byte UTF-8 escape decodes to its character |
| UrlForm.DecodeEscapeOfFour | src/main/java/com/biqasoft/microservice/communicator/interfaceimpl/MicroserviceInterfaceImpFactory.java:305 | a four-byte UTF-8 escape decodes to its character |
| UrlForm.DecodeEncodedChar | src/main/java/com/biqasoft/microservice/communicator/interfaceimpl/MicroserviceInterfaceImpFactory.java:305 | the encoding of one character, followed by anything, decodes to that character in front of the rest |
| UrlForm.FormRoundTrip | src/main/java/com/biqasoft/microservice/communicator/interfaceimpl/MicroserviceInterfaceImpFactory.java:305 | form decoding recovers every path value from its encoding |
| UrlForm.FormEncodeInjective | src/main/java/com/biqasoft/microservice/communicator/interfaceimpl/MicroserviceInterfaceImpFactory.java:305 | distinct path values are sent as distinct encodings |
| UrlForm.FormEncodeUnreserved | src/main/java/com/biqasoft/microservice/communicator/interfaceimpl/MicroserviceInterfaceImpFactory.java:305 | a value of letters, digits and `.-*_` is sent unchanged |
| UrlForm.FormEncodeSpaces | src/main/java/com/biqasoft/microservice/communicator/interfaceimpl/MicroserviceInterfaceImpFactory.java:305 | in a value of unreserved characters and spaces, each space becomes `+` and every other character stays in place |
| PathTemplate.CleanWithoutLead | src/main/java/com/biqasoft/microservice/communicator/interfaceimpl/MicroserviceInterfaceImpFactory.java:307 | a text without `{` holds no start of a placeholder |
| PathTemplate.ReplaceAbsent | src/main/java/com/biqasoft/microservice/communicator/interfaceimpl/MicroserviceInterfaceImpFactory.java:307 | `replace` leaves a path without the placeholder unchanged |
| PathTemplate.ReplaceSkipsCleanChunk | src/main/java/com/biqasoft/microservice/communicator/interfaceimpl/MicroserviceInterfaceImpFactory.java:307 | `replace` copies the text before the next placeholder occurrence as it is |
| PathTemplate.ReplaceJoin | src/main/java/com/biqasoft/microservice/communicator/interfaceimpl/MicroserviceInterfaceImpFactory.java:307 | every occurrence of the placeholder is replaced and everything between occurrences is kept |
| PathTemplate.ReplaceAll | src/main/java/com/biqasoft/microservice/communicator/interfaceimpl/MicroserviceInterfaceImpFactory.java:307 | specification function: `String.replace`, every non-overlapping occurrence from the left replaced, the replacement text not rescanned; properties in the rows around it |
| PathTemplate.ChunksOf | src/main/java/com/biqasoft/microservice/communicator/interfaceimpl/MicroserviceInterfaceImpFactory.java:307 | every path splits into placeholder-free chunks joined by a brace-free placeholder |
| PathTemplate.ReplaceAnyPath | src/main/java/com/biqasoft/microservice/communicator/interfaceimpl/MicroserviceInterfaceImpFactory.java:307 | for every path, `replace` of a brace-free placeholder replaces each occurrence and keeps every chunk between them |
| PathTemplate.ReplaceKeepsOther | src/main/java/com/biqasoft/microservice/communicator/interfaceimpl/MicroserviceInterfaceImpFactory.java:307 | replacing one brace-free placeholder keeps every occurrence of a different brace-free placeholder |
| PathTemplate.ReplaceKeepsOccurrence | src/main/java/com/biqasoft/microservice/communicator/interfaceimpl/MicroserviceInterfaceImpFactory.java:307 | a placeholder that occurs before `replace` of a different one still occurs after it |
| JsonTree.Pieces | src/main/java/com/biqasoft/microservice/communicator/interfaceimpl/MicroserviceInterfaceImpFactory.java:338 | splitting at dots yields at least one piece and no piece holds a dot |
| JsonTree.DropTrailingEmpty | src/main/java/com/biqasoft/microservice/communicator/interfaceimpl/MicroserviceInterfaceImpFactory.java:338 | `split` drops exactly the trailing empty strings: the result is a prefix that does not end in an empty string, and everything after it is empty |
| JsonTree.PiecesRoundTrip | src/main/java/com/biqasoft/microservice/communicator/interfaceimpl/MicroserviceInterfaceImpFactory.java:338 | joining the pieces with dots gives back the name |
| JsonTree.SplitDots | src/main/java/com/biqasoft/microservice/communicator/interfaceimpl/MicroserviceInterfaceImpFactory.java:338 | specification function: `split("\\.")`, the pieces between dots with the trailing empty ones dropped; properties in the rows around it |
| JsonTree.PiecesAllEmpty | src/main/java/com/biqasoft/microservice/communicator/interfaceimpl/MicroserviceInterfaceImpFactory.java:338 | every piece between the dots is empty exactly when the name is made only of dots |
| JsonTree.SplitDotsEmpty | src/main/java/com/biqasoft/microservice/communicator/interfaceimpl/MicroserviceInterfaceImpFactory.java:338 | `split` gives an empty array exactly when the name is made only of dots |
| JsonTree.Grafted | src/main/java/com/biqasoft/microservice/communicator/interfaceimpl/MicroserviceInterfaceImpFactory.java:336-358 | specification function: the tree after planting a value at a dotted path, reusing object children and replacing others with fresh objects; properties in the rows below |
| JsonTree.GraftedFinds | src/main/java/com/biqasoft/microservice/communicator/interfaceimpl/MicroserviceInterfaceImpFactory.java:336-358 | after the graft the value is found at the dotted path |
| JsonTree.GraftedKeepsOthers | src/main/java/com/biqasoft/microservice/communicator/interfaceimpl/MicroserviceInterfaceImpFactory.java:336-358 | every path that parts from the grafted one keeps its value, including siblings under reused intermediate objects |
| JsonTree.GraftedRootKeys | src/main/java/com/biqasoft/microservice/communicator/interfaceimpl/MicroserviceInterfaceImpFactory.java:336-358 | the root gains the first segment and keeps every other key with its value |
| JsonTree.GraftedIntoEmpty | src/main/java/com/biqasoft/microservice/communicator/interfaceimpl/MicroserviceInterfaceImpFactory.java:345-351 | grafting into an empty object builds a chain of fresh intermediate objects |
| JsonTree.GraftedReplacesNonObject | src/main/java/com/biqasoft/microservice/communicator/interfaceimpl/MicroserviceInterfaceImpFactory.java:345-351 | an absent or non-object intermediate is replaced by a fresh object holding only the new path |
| JsonTree.GraftedOverwrites | src/main/java/com/biqasoft/microservice/communicator/interfaceimpl/MicroserviceInterfaceImpFactory.java:358 | a later graft at the same path overwrites the earlier value |
| JsonTree.Graft | src/main/java/com/biqasoft/microservice/communicator/interfaceimpl/MicroserviceInterfaceImpFactory.java:336-358 | the cursor walk reusing object children and planting fresh ones produces the grafted tree, and the value is found at its path |
| RequestBuilder.SubstitutedCount | src/main/java/com/biqasoft/microservice/communicator/interfaceimpl/MicroserviceInterfaceImpFactory.java:285-310 | the bound count is the number of String parameters with a non-empty path-variable key, whether or not their placeholder occurs |
| RequestBuilder.SubstitutedFails | src/main/java/com/biqasoft/microservice/communicator/interfaceimpl/MicroserviceInterfaceImpFactory.java:288-310 | substitution fails, with a null pointer from the encoder, exactly when a path-bound parameter received null |
| RequestBuilder.SubstitutedSticky | src/main/java/com/biqasoft/microservice/communicator/interfaceimpl/MicroserviceInterfaceImpFactory.java:288-310 | once a parameter fails, the whole substitution has failed with that failure |
| RequestBuilder.SubstitutedNoPlaceholder | src/main/java/com/biqasoft/microservice/communicator/interfaceimpl/MicroserviceInterfaceImpFactory.java:288-310 | a template without any placeholder is sent as it is |
| RequestBuilder.Substituted | src/main/java/com/biqasoft/microservice/communicator/interfaceimpl/MicroserviceInterfaceImpFactory.java:288-310 | specification function: the path after the substitution loop, with the bound count, or the encoder's failure; properties in the rows around it |
| RequestBuilder.SubstitutedKeepsUnbound | src/main/java/com/biqasoft/microservice/communicator/interfaceimpl/MicroserviceInterfaceImpFactory.java:288-310 | a placeholder whose key no path-bound parameter has stays in the path, when all keys are brace-free |
| RequestBuilder.SubstitutePath | src/main/java/com/biqasoft/microservice/communicator/interfaceimpl/MicroserviceInterfaceImpFactory.java:284-310 | the substitution loop computes the substituted path and the bound count, or the failure |
| RequestBuilder.MergedAsWritten | src/main/java/com/biqasoft/microservice/communicator/interfaceimpl/MicroserviceInterfaceImpFactory.java:315-359 | as written, the merge index equals the number of payload parameters seen, never more than the parameters seen |
| RequestBuilder.MergedAsWrittenKeeps | src/main/java/com/biqasoft/microservice/communicator/interfaceimpl/MicroserviceInterfaceImpFactory.java:318-360 | as written, a payload parameter's node survives at its path unless a later payload parameter writes at, above or below it, and that node is the argument at the count of earlier payload parameters |
| RequestBuilder.MergedAsWrittenFails | src/main/java/com/biqasoft/microservice/communicator/interfaceimpl/MicroserviceInterfaceImpFactory.java:315-359 | the merge as written fails exactly when some payload parameter has a non-empty JSON name made only of dots, and then with an index error |
| RequestBuilder.MergedAsWrittenSticky | src/main/java/com/biqasoft/microservice/communicator/interfaceimpl/MicroserviceInterfaceImpFactory.java:318-360 | as written, once a graft fails the whole merge has failed with that failure |
| RequestBuilder.MergedAsWrittenStep | src/main/java/com/biqasoft/microservice/communicator/interfaceimpl/MicroserviceInterfaceImpFactory.java:318-360 | one turn of the loop as written: a parameter without payload annotation changes nothing, a name of dots fails, any other grafts the counted argument and advances the counter |
| RequestBuilder.MergedRoot | src/main/java/com/biqasoft/microservice/communicator/interfaceimpl/MicroserviceInterfaceImpFactory.java:312-361 | specification function: the root object the as-written merge of all parameters leaves, or its failure |
| RequestBuilder.MergedAsWrittenTakesKth | src/main/java/com/biqasoft/microservice/communicator/interfaceimpl/MicroserviceInterfaceImpFactory.java:357 | as written, a payload parameter grafts the argument whose position is its rank among payload parameters |
| RequestBuilder.MergedTakesOwn | src/main/java/com/biqasoft/microservice/communicator/interfaceimpl/MicroserviceInterfaceImpFactory.java:318-358 | corrected, a payload parameter grafts its own argument at its JSON name |
| RequestBuilder.Merged | src/main/java/com/biqasoft/microservice/communicator/interfaceimpl/MicroserviceInterfaceImpFactory.java:315-359 | specification function: the merge loop as evidently intended, each payload parameter grafting its own argument; a reference the builder does not use |
| RequestBuilder.MergedKeeps | src/main/java/com/biqasoft/microservice/communicator/interfaceimpl/MicroserviceInterfaceImpFactory.java:318-360 | in the corrected reference, merging runs in declaration order: a parameter's own argument survives at its path unless a later payload parameter writes at, above or below that path |
| RequestBuilder.MergedFails | src/main/java/com/biqasoft/microservice/communicator/interfaceimpl/MicroserviceInterfaceImpFactory.java:337-354 | the corrected merge fails exactly when some payload parameter has a non-empty JSON name made only of dots, and then with an index error |
| RequestBuilder.SegmentsEmpty | src/main/java/com/biqasoft/microservice/communicator/interfaceimpl/MicroserviceInterfaceImpFactory.java:337-354 | a payload parameter's JSON name leaves no segment exactly when it is non-empty and made only of dots |
| RequestBuilder.AnyDotsExists | src/main/java/com/biqasoft/microservice/communicator/interfaceimpl/MicroserviceInterfaceImpFactory.java:337-354 | the recursive test for a name of dots among the first n parameters agrees with the existential statement |
| RequestBuilder.MergedSticky | src/main/java/com/biqasoft/microservice/communicator/interfaceimpl/MicroserviceInterfaceImpFactory.java:318-360 | once a graft fails, the whole merge has failed with that failure |
| RequestBuilder.MergedAgreeWhenPayloadFirst | src/main/java/com/biqasoft/microservice/communicator/interfaceimpl/MicroserviceInterfaceImpFactory.java:315-359 | when the payload parameters come first, the loop as written and as intended produce the same tree |
| RequestBuilder.MergePayload | src/main/java/com/biqasoft/microservice/communicator/interfaceimpl/MicroserviceInterfaceImpFactory.java:312-361 | the merge loop as written, with its `paramIndex` counter, produces the root object of the as-written merge, or its failure |
| RequestBuilder.BuildRequestPath | src/main/java/com/biqasoft/microservice/communicator/interfaceimpl/MicroserviceInterfaceImpFactory.java:274-310 | the built path is the substituted template, and its count is that of the path-bound parameters |
| RequestBuilder.BuildRequest | src/main/java/com/biqasoft/microservice/communicator/interfaceimpl/MicroserviceInterfaceImpFactory.java:274-375 | specification function: the request builder of `intercept`, substitution then the payload choice; properties in the rows around it |
| RequestBuilder.ChoosePayload | src/main/java/com/biqasoft/microservice/communicator/interfaceimpl/MicroserviceInterfaceImpFactory.java:363-375 | specification function: the merged tree in merge mode, else for POST and PUT the first argument after the arity check, else no payload |
| RequestBuilder.BuildRequestMerge | src/main/java/com/biqasoft/microservice/communicator/interfaceimpl/MicroserviceInterfaceImpFactory.java:312-375 | in merge mode a built payload is always the object tree of the as-written merge, so the arity check never fires; the only failures are a null path value or a name of dots |
| RequestBuilder.BuildRequestWriteArity | src/main/java/com/biqasoft/microservice/communicator/interfaceimpl/MicroserviceInterfaceImpFactory.java:363-375 | outside merge mode a POST or PUT is built exactly when there is an argument and the argument count is the bound count plus one, and otherwise fails with an invalid state; the zero case has its own message; a built request carries the first argument as payload |
| RequestBuilder.BuildRequestNoPayload | src/main/java/com/biqasoft/microservice/communicator/interfaceimpl/MicroserviceInterfaceImpFactory.java:363-375 | outside merge mode other verbs carry no payload and fail only where substitution fails |
| RequestBuilder.AssembleRequest | src/main/java/com/biqasoft/microservice/communicator/interfaceimpl/MicroserviceInterfaceImpFactory.java:274-375 | the builder of `intercept`, with the merge loop as written, computes the built request, or the failure |
| HeaderAssembly.FoldIdempotent | src/main/java/com/biqasoft/microservice/communicator/interfaceimpl/MicroserviceInterfaceImpFactory.java:102-105 | a stored header name is its own case-folded key |
| HeaderAssembly.Added | src/main/java/com/biqasoft/microservice/communicator/interfaceimpl/MicroserviceInterfaceImpFactory.java:104-106 | specification function: the header set after the first n ambient names of the loop; properties in the rows below |
| HeaderAssembly.HeaderSet | src/main/java/com/biqasoft/microservice/communicator/interfaceimpl/MicroserviceInterfaceImpFactory.java:102-111 | specification function: all ambient headers added, then the JSON content type unless the payload is bytes; properties in the rows below |
| HeaderAssembly.AddedCollects | src/main/java/com/biqasoft/microservice/communicator/interfaceimpl/MicroserviceInterfaceImpFactory.java:104-106 | a header name is present exactly when some ambient name folds to it, and it holds exactly those values in iteration order |
| HeaderAssembly.ValuesForHas | src/main/java/com/biqasoft/microservice/communicator/interfaceimpl/MicroserviceInterfaceImpFactory.java:104-106 | every ambient value is among the values of its folded name |
| HeaderAssembly.ValuesForFrom | src/main/java/com/biqasoft/microservice/communicator/interfaceimpl/MicroserviceInterfaceImpFactory.java:104-106 | every collected value comes from an ambient entry whose name folds to the header name |
| HeaderAssembly.ValuesForSingle | src/main/java/com/biqasoft/microservice/communicator/interfaceimpl/MicroserviceInterfaceImpFactory.java:104-106 | a name that no other ambient name folds alike with contributes exactly its one value |
| HeaderAssembly.ValuesForNone | src/main/java/com/biqasoft/microservice/communicator/interfaceimpl/MicroserviceInterfaceImpFactory.java:104-106 | a header name that no ambient name folds to collects no value |
| HeaderAssembly.HeadersCarryAmbient | src/main/java/com/biqasoft/microservice/communicator/interfaceimpl/MicroserviceInterfaceImpFactory.java:102-111 | every ambient value is sent under its folded name, unless the JSON content type replaced that name |
| HeaderAssembly.HeadersSingleValue | src/main/java/com/biqasoft/microservice/communicator/interfaceimpl/MicroserviceInterfaceImpFactory.java:102-111 | an ambient name with no case-insensitive twin is sent with exactly its value |
| HeaderAssembly.HeadersProvenance | src/main/java/com/biqasoft/microservice/communicator/interfaceimpl/MicroserviceInterfaceImpFactory.java:108-111 | the content type is JSON whenever the payload is not bytes (null included), and every other value sent comes from an ambient header |
| HeaderAssembly.HeadersNames | src/main/java/com/biqasoft/microservice/communicator/interfaceimpl/MicroserviceInterfaceImpFactory.java:102-111 | the names sent are exactly the folded ambient names, plus the content type unless the payload is bytes |
| HeaderAssembly.AssembleHeaders | src/main/java/com/biqasoft/microservice/communicator/interfaceimpl/MicroserviceInterfaceImpFactory.java:102-111 | the header loop and the content-type step produce the header set |
| Resolver.GenericAt | src/main/java/com/biqasoft/microservice/communicator/interfaceimpl/MicroserviceInterfaceImpFactory.java:178-231 | specification function: `returnGenericType[i]`, a null pointer without type arguments, an index error past their end, else that argument; what reading it means per rule is in the Resolve rows below |
| Resolver.Read | src/main/java/com/biqasoft/microservice/communicator/interfaceimpl/MicroserviceInterfaceImpFactory.java:180-241 | specification function: one `readValue`/`readTree` call, the decoded value, or the internal-server-error failure when the decoder raises an IOException |
| Resolver.Resolve | src/main/java/com/biqasoft/microservice/communicator/interfaceimpl/MicroserviceInterfaceImpFactory.java:166-236 | specification function: the first-match-wins case split of `makeRequestToMicroservice` on the declared type; its precedence is stated rule by rule in the rows below |
| Resolver.ResolveByShape | src/main/java/com/biqasoft/microservice/communicator/interfaceimpl/MicroserviceInterfaceImpFactory.java:166-236 | the dispatch equals classifying the declaration into a shape first and then answering by shape |
| Resolver.ResolveVoid | src/main/java/com/biqasoft/microservice/communicator/interfaceimpl/MicroserviceInterfaceImpFactory.java:166-169 | a void declaration answers the void marker whatever the response |
| Resolver.ResolveOptional | src/main/java/com/biqasoft/microservice/communicator/interfaceimpl/MicroserviceInterfaceImpFactory.java:171-186 | an Optional is empty exactly when there is no body; otherwise it wraps the decoded value, which is never null; the only failures are a missing type argument, a decoder failure or a null decoding |
| Resolver.ResolveNullOnEmpty | src/main/java/com/biqasoft/microservice/communicator/interfaceimpl/MicroserviceInterfaceImpFactory.java:188-190 | with the null-on-empty flag, a missing body answers null for every declaration but void, Optional and ResponseEntity |
| Resolver.ResolveWithoutBody | src/main/java/com/biqasoft/microservice/communicator/interfaceimpl/MicroserviceInterfaceImpFactory.java:188-215 | without a body and with the flag, the decoder is never consulted, except for a non-generic ResponseEntity, which is decoded from the missing body |
| Resolver.ResolveFuture | src/main/java/com/biqasoft/microservice/communicator/interfaceimpl/MicroserviceInterfaceImpFactory.java:192-195 | a CompletableFuture without a type-argument array fails with a null pointer, and with an empty one completes with the void marker |
| Resolver.ResolveFutureDecodes | src/main/java/com/biqasoft/microservice/communicator/interfaceimpl/MicroserviceInterfaceImpFactory.java:196-201 | a CompletableFuture with type arguments decodes as a collection of the second argument when the first is a Collection (an index error when there is no second), else as the first argument |
| Resolver.ResolveBytes | src/main/java/com/biqasoft/microservice/communicator/interfaceimpl/MicroserviceInterfaceImpFactory.java:204-207 | a byte array declaration returns the body verbatim, never decoded |
| Resolver.ResolveRaw | src/main/java/com/biqasoft/microservice/communicator/interfaceimpl/MicroserviceInterfaceImpFactory.java:209-210 | a declaration without type arguments, past the void, Optional, future and byte-array rules, is decoded as the return type itself |
| Resolver.ResolveEntity | src/main/java/com/biqasoft/microservice/communicator/interfaceimpl/MicroserviceInterfaceImpFactory.java:212-219 | a generic ResponseEntity keeps status and headers, has no body exactly when the response had none, and otherwise decodes the body as its type argument; it fails exactly on a missing type argument or a decoder failure |
| Resolver.ResolveMap | src/main/java/com/biqasoft/microservice/communicator/interfaceimpl/MicroserviceInterfaceImpFactory.java:221-227 | Map<String, Object> is read as a tree only with the conversion flag, and is unsupported without it |
| Resolver.ResolveCollection | src/main/java/com/biqasoft/microservice/communicator/interfaceimpl/MicroserviceInterfaceImpFactory.java:229-232 | a generic Collection declaration is decoded as a collection of its first type argument, and fails with an index error without one |
| Resolver.ResolveFallback | src/main/java/com/biqasoft/microservice/communicator/interfaceimpl/MicroserviceInterfaceImpFactory.java:166-236 | the invalid-state fallback fires exactly for a generic declaration of none of the recognised shapes, once the null-on-empty rule has not answered; every failure is one of four kinds |
| Resolver.Absorb | src/main/java/com/biqasoft/microservice/communicator/interfaceimpl/MicroserviceInterfaceImpFactory.java:136-156 | specification function: the catch block, a ResponseEntity with the failure response's status, headers and body text, or the failure rethrown; see the row below |
| Resolver.AbsorbExactly | src/main/java/com/biqasoft/microservice/communicator/interfaceimpl/MicroserviceInterfaceImpFactory.java:136-156 | a transport failure is absorbed exactly for a ResponseEntity declaration and a failure with a body stream, keeping raw status, headers and body text; every other failure is rethrown unchanged |
| Dispatcher.Hooks | src/main/java/com/biqasoft/microservice/communicator/interfaceimpl/MicroserviceInterfaceImpFactory.java:113-117 | one hook point calls every interceptor once, in list order |
| Dispatcher.Notify | src/main/java/com/biqasoft/microservice/communicator/interfaceimpl/MicroserviceInterfaceImpFactory.java:113-130 | a `forEach` over the interceptors appends exactly their calls at that hook point |
| Dispatcher.Dispatch | src/main/java/com/biqasoft/microservice/communicator/interfaceimpl/MicroserviceInterfaceImpFactory.java:99-162 | specification function: `makeRequestToMicroservice` with its hooks, the header set, the exchange and the resolution or absorption; properties in the rows below |
| Dispatcher.MakeRequest | src/main/java/com/biqasoft/microservice/communicator/interfaceimpl/MicroserviceInterfaceImpFactory.java:99-242 | `makeRequestToMicroservice` returns the dispatched result and calls exactly the dispatched hooks |
| Dispatcher.DispatchHookOrder | src/main/java/com/biqasoft/microservice/communicator/interfaceimpl/MicroserviceInterfaceImpFactory.java:113-162 | all before-create hooks, in list order, precede all before-request hooks, which precede the after-request hooks; these run only when a response was delivered; each hook sees the header set, the entity and the response sent and received |
| Dispatcher.DispatchWithoutInterceptors | src/main/java/com/biqasoft/microservice/communicator/interfaceimpl/MicroserviceInterfaceImpFactory.java:113-162 | without an interceptor list no hook is called |
| Dispatcher.DispatchRejected | src/main/java/com/biqasoft/microservice/communicator/interfaceimpl/MicroserviceInterfaceImpFactory.java:132-156 | a rejected exchange calls no after-request hook, and the result is the absorbed or the rethrown failure |
| Dispatcher.SiteOf | src/main/java/com/biqasoft/microservice/communicator/interfaceimpl/MicroserviceInterfaceImpFactory.java:406-418 | specification function: the service, path, verb and declared return type the descriptor record hands the transport and the resolver |
| Dispatcher.RetryOf | src/main/java/com/biqasoft/microservice/communicator/interfaceimpl/MicroserviceInterfaceImpFactory.java:376-377 | specification function: the reconnect settings of the descriptor record passed to the rest template |
| Dispatcher.WorkerEnv | src/main/java/com/biqasoft/microservice/communicator/interfaceimpl/MicroserviceInterfaceImpFactory.java:386-390 | specification function: the surroundings of a pool thread, its own thread-local header map with the transport, codecs and interceptors shared; its contract keeps the environment valid, which every dispatch requires |
| Dispatcher.Runner | src/main/java/com/biqasoft/microservice/communicator/interfaceimpl/MicroserviceInterfaceImpFactory.java:386-392 | specification function: the pool thread's surroundings for a CompletableFuture, the caller's otherwise |
| Dispatcher.Invoke | src/main/java/com/biqasoft/microservice/communicator/interfaceimpl/MicroserviceInterfaceImpFactory.java:274-395 | specification function: `intercept` past the descriptor lookup, building the request, then making it, a future returning at once with the pending outcome; properties in the rows below |
| Dispatcher.Intercept | src/main/java/com/biqasoft/microservice/communicator/interfaceimpl/MicroserviceInterfaceImpFactory.java:274-395 | the proxied call builds the request and makes it on the caller's thread, or, for a CompletableFuture, on a pool thread with that thread's headers, returning the pending future; result and hooks are those of the specification |
| Dispatcher.InvokeBuildFailure | src/main/java/com/biqasoft/microservice/communicator/interfaceimpl/MicroserviceInterfaceImpFactory.java:288-375 | a call whose request cannot be built fails before any hook runs |
| Dispatcher.InvokeSends | src/main/java/com/biqasoft/microservice/communicator/interfaceimpl/MicroserviceInterfaceImpFactory.java:377-392 | the transport is handed the substituted path, the descriptor's service, verb and reconnect settings, and the payload (for merge mode the as-written tree) with the header set of the thread that runs the request; the outcome is the absorbed failure or the resolved response, wrapped in a pending future for a CompletableFuture |
| Dispatcher.InvokeFutureNeverThrows | src/main/java/com/biqasoft/microservice/communicator/interfaceimpl/MicroserviceInterfaceImpFactory.java:386-390 | a CompletableFuture call whose request was built never fails itself: it returns a pending future, whatever the request later does |
| Scenarios.SubstitutionExample | src/main/java/com/biqasoft/microservice/communicator/interfaceimpl/MicroserviceInterfaceImpFactory.java:288-310 | `/users/{id}/roles` with "a b" for id becomes `/users/a+b/roles`, a non-String parameter being skipped |
| Scenarios.MergeExample | src/main/java/com/biqasoft/microservice/communicator/interfaceimpl/MicroserviceInterfaceImpFactory.java:318-360 | the merge as written, for payload names u.n, u.a and u.n again, shares the intermediate object u, and the later u.n overwrites the first |
| Scenarios.MergeIndexCounterexample | src/main/java/com/biqasoft/microservice/communicator/interfaceimpl/MicroserviceInterfaceImpFactory.java:357 | a path parameter before a payload parameter makes the loop as written graft the path value |
| Scenarios.MergeIndexSent | src/main/java/com/biqasoft/microservice/communicator/interfaceimpl/MicroserviceInterfaceImpFactory.java:312-361 | the request builder sends `{"name": "42"}` as the payload for the counterexample call, not the intended `{"name": "bob"}` |
| Scenarios.PostArityExample | src/main/java/com/biqasoft/microservice/communicator/interfaceimpl/MicroserviceInterfaceImpFactory.java:363-375 | a POST with one path-bound and one other argument sends the first argument |
| Scenarios.PostUserPath | src/main/java/com/biqasoft/microservice/communicator/interfaceimpl/MicroserviceInterfaceImpFactory.java:288-310 | `/users/{id}` with "7" for id becomes `/users/7` with one bound parameter |
| Scenarios.PostWithoutArguments | src/main/java/com/biqasoft/microservice/communicator/interfaceimpl/MicroserviceInterfaceImpFactory.java:370-373 | a POST without arguments fails with the zero-payload message |
| Scenarios.PostWithoutPayload | src/main/java/com/biqasoft/microservice/communicator/interfaceimpl/MicroserviceInterfaceImpFactory.java:365-369 | a POST whose only argument is path-bound fails with the one-payload message |
| Scenarios.NotFoundPassThrough | src/main/java/com/biqasoft/microservice/communicator/interfaceimpl/MicroserviceInterfaceImpFactory.java:136-162 | a 404 answer to a ResponseEntity call is returned as an entity with its status, headers and body text, and no after-request hook is called |

## Left out

- The CGLIB proxy, `create` and the `toString`/`hashCode` pass-through (lines 250-270) are runtime bytecode generation. The model starts from an explicit descriptor and argument list.
- Reflection over parameters and annotations (lines 289-298, 319-323) is replaced by one `Param` tag per parameter: its name, whether it is a String, and its path-variable key and payload path. The `index` field read by reflection is the parameter's position in that list.
- The descriptor cache `MicroserviceCachedParsedAnnotationInterface` (line 272) memoises concurrently. Its source is not part of this model, so the descriptor is an input.
- Dispatcher.Invoke: for a CompletableFuture the request is modelled as a pending future holding its outcome. When the pool thread runs, and how it interleaves with the caller, are concurrency and are not modelled.
- The thread-local ambient header store (lines 59-64) is two input maps, the caller's and the pool thread's, each with an explicit iteration order, since the map's own order is unspecified. What a pool thread happens to hold is not known statically, so the model takes it as given.
- Jackson is represented by the environment's `decode` and `encode` functions. The decoder either yields a value or raises an IOException; its other runtime exceptions, and `convertValue` failing, are not modelled.
- The rest template, `HttpClientsHelpers.getRestTemplate`, retry and backoff, and service discovery are represented by the environment's `transport` function. The model records the reconnect settings it is handed but does not model retrying.
- Reading the failure response's body stream and status can raise an IOException. That path, and the Scanner's charset decoding, are not modelled: the absorbed body text is kept as its bytes.
- Logging, `getLastURI`, bean wiring and setters (lines 80-90, 425-450) are plumbing. `RETURN_NULL_ON_EMPTY_RESPONSE_BODY` is the environment's `returnNullOnEmpty` flag.
- Dispatcher.Hooks: interceptors are observers. A hook that mutates the header set or the entity it is handed is not modelled.
- HeaderAssembly.HeaderSet: case-insensitive header names are modelled by ASCII lower-casing. Spring's folding of other letters is not modelled, nor is its keeping of the first-seen spelling of a name.
- Resolver.Resolve: the reflective write of the ResponseEntity body field (lines 69-78, 217) is modelled as building a new entity value. Aliasing with the transport's entity is not captured.
- JsonTree.Grafted: the merge tree is a value, so aliasing is not captured. When an argument already is an `ObjectNode`, `convertValue` can hand back that same instance. A later dotted graft through it (lines 340-357) then changes the caller's object and every other key holding that node. The model grafts into a copy.
- Json: JSON numbers are integers and object key order is not kept. Floating-point numbers and Jackson's insertion order are left out.
- UrlForm.Utf8: Dafny characters are Unicode scalar values. A Java string holding a lone surrogate, which URLEncoder replaces, cannot be expressed.
- The annotation declarations (`MicroMapping`, `MicroHeader`), the exception class, the test class and the demo and discovery configuration are declarations and test wiring without behaviour in this core.

## Findings

| source | as written | input that shows it | evidently intended | confidence | as-written member | corrected member |
|---|---|---|---|---|---|---|
| src/main/java/com/biqasoft/microservice/communicator/interfaceimpl/MicroserviceInterfaceImpFactory.java:315-359 | the merge loop grafts `objects[paramIndex]`, where `paramIndex` counts only payload-annotated parameters, so a payload parameter after any other parameter grafts a different parameter's argument; the field `index` it looks up at line 320 is never used | parameters `[@MicroservicePathVariable(param="id") String id, @MicroservicePayloadVariable String name]` with arguments `["42", "bob"]`: the payload is `{"name": "42"}` | each payload parameter grafts its own argument, giving `{"name": "bob"}` | not executed | RequestBuilder.MergedAsWritten, Scenarios.MergeIndexCounterexample | RequestBuilder.Merged, RequestBuilder.MergedTakesOwn |

The request builder, and so every call the model makes, uses the merge as written (`RequestBuilder.MergedAsWritten`, proved about in `RequestBuilder.MergedAsWrittenKeeps` and `RequestBuilder.MergedAsWrittenFails`). The corrected `RequestBuilder.Merged` states what the loop was meant to compute. `RequestBuilder.MergedAgreeWhenPayloadFirst` shows the two agree when the payload parameters come first.
