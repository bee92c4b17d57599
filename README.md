# Zyborg.AWS.Lambda.Hosting dispatch core, in Dafny

This project models the per-invocation dispatch pipeline of `FunctionApp`, the
hosting core of Zyborg.AWS.Lambda.Hosting, and proves properties of it. The
pipeline covers:

- the ordered list of event matchers and the built-in matchers for S3, SNS,
  CloudWatch Logs and SES;
- first-match-wins shape resolution over a parsed JSON document;
- the handler registry, with one entry per event type and a single default
  slot;
- `RouteEventToHandler`, which runs resolve, execute, encode and finalize in
  that order;
- `HandlerResult.ToHandler` and the `ExecuteResultAsync` of each result kind;
- the response-ownership rules of `FunctionHandlerContext`: `SetResponse`,
  the lazily created `ResponseStream`, and `FinalizeResponseStream`.

Modules, one concern each:

| module | file | models |
|---|---|---|
| `Types` | types.dfy | `Option`, `Result`, `Outcome`, the exceptions the core throws, bytes |
| `Json` | json.dfy | a parsed `JsonDocument`, and `TryGetProperty` (ordinal names, last duplicate wins, throws on a non-object) |
| `Utf8` | utf8.dfy | `Encoding.UTF8.GetBytes`, with a decoder proving it loses nothing |
| `Streams` | streams.dfy | the `MemoryStream` surface the core uses: contents, position, disposed flag |
| `EventMatchers` | event_matchers.dfy | the shape predicates, the predefined list, `DecodeEvent` as the function `FirstMatch`, and the selection rules of `AddBuiltInEventMatchers` |
| `HandlerResults` | handler_results.dfy | the result kinds, `ToHandler`, the implicit conversions, and the old if/else chain |
| `Handlers` | handlers.dfy | the wrappers each `Handle*` overload stores, and what they pass to user code |
| `HandlerContext` | handler_context.dfy | `FunctionHandlerContext`, a class with the source's mutable fields |
| `ResultExecution` | result_execution.dfy | `ExecuteResultAsync` of each result kind, as a method on the context |
| `Dispatch` | dispatch.dfy | the pipeline as values (`Plan`, `Deliver`, `InvocationResult`, `Trace`), against which `RouteEventToHandler` is proved |
| `App` | function_app.dfy | `FunctionApp`, a class with the matcher list and the handler registry, and the pipeline methods |
| `Scenarios` | scenarios.dfy | concrete registrations and documents run through the methods above |

Points where the code behaves in a way a reader may not expect:

- An `EmptyHandlerResult` installs the shared empty stream *not* owned
  (HandlerResult.cs:43). It is not a core-owned zero-length stream.
- A JSON result is written through the context's lazily created
  `ResponseStream` (HandlerResult.cs:79). It does not go into a fresh stream of
  its own. Writing into a stream that a previous `SetResponse` disposed
  therefore throws.
- `AddBuiltInEventMatchers` with an empty `params` array registers nothing.
  Only an explicit `null` (`None` here) takes the "all defaults" branch.
- `HandleDefaultEvent` deserialises the document when the handler is invoked,
  not when it is registered, and with the serializer's default options
  (FunctionApp.Handlers.cs:93). A matched event is deserialised with the
  app's own event-decoding options (FunctionApp.Events.cs:117). The model
  tags each decoded `Event` with the options it was read with.
- `ToHandler`'s case `ValueTuple<Stream, bool>` (HandlerResult.cs:22) matches
  that exact type only, so a `(MemoryStream, bool)` is serialised as JSON.
  The positional pattern `(Stream, bool)` of `EncodeResult_OLD`
  (FunctionApp.cs:155) matches any two-item tuple of a stream and a flag.
  The model has both kinds of tuple (`StreamTuple`, `OtherStreamPair`).
- `JsonHandlerResult` serialises with `hctx.ResultJsonSerializerOptions`,
  which `FunctionHandlerContext.cs` does not define. The model names these
  options `ResultOptions`. It names the serializer's defaults `DefaultOptions`:
  `EncodeResult_OLD` writes plain values with them, and a `HandleDefaultEvent`
  default reads its event with them. The app's `_eventDecodingJsonSerOptions`
  are `EventDecodingOptions`.

Modelling choices:

- Every stage that throws returns `Fail(e)` or `Err(e)`, with the exception as
  an `Error` value.
- The user's handler code is a function parameter
  `(HandlerBody, EventValue) -> HandlerOutcome`.
- The JSON serializer is a function parameter
  `(SerializerOptions, Obj) -> Option<bytes>`.
- `Type.GetType` becomes the set of type names that resolve.
- The dependency-injection scope becomes a ghost trace of `Stage`s, which the
  pipeline methods extend.

`RouteEventToHandler` has no `modifies` clause. That proves it changes no
object that existed before the call. In particular, it never disposes or moves
a stream that a result handed over without ownership.

The sample wiring in the repository's tests registers only the S3 matcher and
then `HandleDefaultEvent<S3Event, …>`. Under the code as written,
`Scenarios.SampleAppMatchedNotification` shows that a notification with a
lower-case `s3` record member is matched as `S3Event`. No typed handler exists
for that type, so the invocation fails and never reaches the default.
`Scenarios.SampleAppUnmatchedNotification` shows that the default is reached
only when the record spells the member `S3`. The outcome therefore depends on
how the test client serialises the event.

## Model

| member | source | states |
|---|---|---|
| Json.LastValue | src/Zyborg.AWS.Lambda.Hosting/FunctionApp.Events.cs:130 | lookup of a member name finds nothing iff no member has that name; otherwise it finds the value of the last member with that name |
| Json.TryGetProperty | src/Zyborg.AWS.Lambda.Hosting/FunctionApp.Events.cs:130 | throws `InvalidOperation` iff the element is not an object; otherwise reports whether some member has the name |
| EventMatchers.MatchCWLogsEvent | src/Zyborg.AWS.Lambda.Hosting/FunctionApp.Events.cs:145-148 | holds iff the root is an object with an `awslogs` member; is false on any other object; throws iff the root is not an object |
| EventMatchers.MatchS3EventShape | src/Zyborg.AWS.Lambda.Hosting/FunctionApp.Events.cs:127-134 | the S3 matcher holds iff the last `Records` member is a non-empty array whose first element has an `s3` member; it throws iff the probe meets a non-object root or first element; otherwise it is false |
| EventMatchers.MatchSNSEventShape | src/Zyborg.AWS.Lambda.Hosting/FunctionApp.Events.cs:136-143 | the same three-way characterisation with the case-sensitive key `Sns` |
| EventMatchers.MatchFirstRecordShape | src/Zyborg.AWS.Lambda.Hosting/FunctionApp.Events.cs:130-133 | the shared `Records[0].<key>` probe holds iff that path exists; it throws iff it meets a non-object, and then always with `InvalidOperation` |
| EventMatchers.LastNamedUnique | src/Zyborg.AWS.Lambda.Hosting/FunctionApp.Events.cs:130 | at most one position holds the last member of a given name |
| EventMatchers.FirstMatch | src/Zyborg.AWS.Lambda.Hosting/FunctionApp.Events.cs:108-125 | nothing is decoded iff every predicate rejects the document; a decoded type belongs to a matcher whose predicate holds after only rejections, and the event is that document read as that type under the app's event-decoding options (FunctionApp.Events.cs:36, :117); a throwing predicate ends the scan with its exception |
| EventMatchers.FirstMatchChoosesFirst | src/Zyborg.AWS.Lambda.Hosting/FunctionApp.Events.cs:112-119 | conversely, the first matcher whose predicate holds is the one chosen, whatever later predicates say |
| EventMatchers.FirstMatchIgnoresLater | src/Zyborg.AWS.Lambda.Hosting/FunctionApp.Events.cs:112-119 | appending matchers never changes a decided outcome |
| EventMatchers.FirstMatchFallsThrough | src/Zyborg.AWS.Lambda.Hosting/FunctionApp.Events.cs:112-124 | when the earlier matchers all reject, the outcome is that of the later ones alone |
| EventMatchers.LookupMatcher | src/Zyborg.AWS.Lambda.Hosting/FunctionApp.Events.cs:29-31 | the by-type lookup fails iff no entry has the name; otherwise it finds the first such entry's predicate |
| EventMatchers.DefaultPredicate | src/Zyborg.AWS.Lambda.Hosting/FunctionApp.Events.cs:12-31 | a predefined predicate exists iff the name is one of the four predefined types, and it is the one listed for that name |
| EventMatchers.SupportedPrefix | src/Zyborg.AWS.Lambda.Hosting/FunctionApp.Events.cs:78-84 | every name before the cut has a predefined matcher, and the name at the cut (if any) has none |
| EventMatchers.SupportedPrefixAt | src/Zyborg.AWS.Lambda.Hosting/FunctionApp.Events.cs:81-84 | the cut is exactly the first unsupported position |
| EventMatchers.SelectedMatchers | src/Zyborg.AWS.Lambda.Hosting/FunctionApp.Events.cs:78-87 | one matcher per selected name, at the same position, carrying that name and taken from the predefined list |
| EventMatchers.SelectedMatchersStep | src/Zyborg.AWS.Lambda.Hosting/FunctionApp.Events.cs:86 | selecting one more supported name appends exactly its predefined matcher |
| EventMatchers.ResolvableMatchers | src/Zyborg.AWS.Lambda.Hosting/FunctionApp.Events.cs:64-75 | a matcher is added iff it is predefined and its type name resolves |
| EventMatchers.ResolvableMatchersKeepOrder | src/Zyborg.AWS.Lambda.Hosting/FunctionApp.Events.cs:67-74 | the added matchers are the resolvable positions of the predefined list, in increasing order |
| EventMatchers.ResolvableMatchersAll | src/Zyborg.AWS.Lambda.Hosting/FunctionApp.Events.cs:64-75 | when every name resolves, the whole predefined list is added in its fixed order |
| App.FunctionApp.constructor | src/Zyborg.AWS.Lambda.Hosting/FunctionApp.Handlers.cs:8-9 | a new app has no matchers, no typed handlers and an empty default slot; the shared empty stream is fresh, empty and unread |
| App.FunctionApp.AddEventMatcher | src/Zyborg.AWS.Lambda.Hosting/FunctionApp.Events.cs:102-106 | appends exactly one entry at the end; existing entries, duplicates included, stay in place |
| App.FunctionApp.AddBuiltInEventMatchers | src/Zyborg.AWS.Lambda.Hosting/FunctionApp.Events.cs:62-89 | a null selection appends the resolvable predefined matchers and succeeds; a selection appends the matchers of its supported prefix in the given order, and throws `NotSupported` naming the first unsupported type if there is one |
| App.FunctionApp.AddResolvableDefaults | src/Zyborg.AWS.Lambda.Hosting/FunctionApp.Events.cs:64-75 | the loop over the predefined list appends exactly the resolvable matchers |
| App.FunctionApp.AddSelectedDefaults | src/Zyborg.AWS.Lambda.Hosting/FunctionApp.Events.cs:78-87 | the loop over the selection appends the supported prefix, then throws at the first unsupported name or succeeds |
| App.FunctionApp.DecodeEvent | src/Zyborg.AWS.Lambda.Hosting/FunctionApp.Events.cs:108-125 | the loop with an early return computes exactly `FirstMatch` over the registered matchers |
| App.FunctionApp.HandleEvent | src/Zyborg.AWS.Lambda.Hosting/FunctionApp.Handlers.cs:11-14 | files a typed handler under its type; a second registration for the type throws `DuplicateKey` and keeps the first; the default slot is outside its frame |
| App.FunctionApp.HandleEventWith | src/Zyborg.AWS.Lambda.Hosting/FunctionApp.Handlers.cs:16-23 | the same rule for a handler class activated per invocation |
| App.FunctionApp.HandleDefault | src/Zyborg.AWS.Lambda.Hosting/FunctionApp.Handlers.cs:47-58 | fills the empty default slot with a document handler; on a filled slot it throws and keeps the current default; the typed registry is outside its frame |
| App.FunctionApp.HandleDefaultWith | src/Zyborg.AWS.Lambda.Hosting/FunctionApp.Handlers.cs:31-39 | the same set-once slot and guard, through the guarded overload |
| App.FunctionApp.HandleDefaultEvent | src/Zyborg.AWS.Lambda.Hosting/FunctionApp.Handlers.cs:83-96 | the same set-once slot and guard, with a handler that decodes when invoked |
| App.FunctionApp.HandleDefaultEventWith | src/Zyborg.AWS.Lambda.Hosting/FunctionApp.Handlers.cs:66-75 | the same slot and guard, through the guarded overload |
| Handlers.Invoke | src/Zyborg.AWS.Lambda.Hosting/FunctionApp.Handlers.cs:13-95 | a value the wrapper's cast accepts reaches the user's code (a decoding default first deserialises the document with the serializer's default options, and null stays null); any other value throws `InvalidCast` |
| Dispatch.ResolveFirstMatch | src/Zyborg.AWS.Lambda.Hosting/FunctionApp.cs:88-99 | a document the first accepting matcher decides selects the handler filed under that type with the event decoded under the app's event-decoding options, or throws `NoHandlerForEvent` when none is filed |
| Dispatch.ResolveUnmatched | src/Zyborg.AWS.Lambda.Hosting/FunctionApp.cs:101-109 | a document every matcher rejects goes to the default handler as the document itself with no event type, or throws `NoDefaultHandler` |
| Dispatch.ResolveFailures | src/Zyborg.AWS.Lambda.Hosting/FunctionApp.cs:93-109 | with non-throwing predicates, `NoHandlerForEvent(t)` arises only for an accepted type without a handler, and `NoDefaultHandler` only when every predicate rejected and there is no default |
| Dispatch.ResolvedHandlerAccepts | src/Zyborg.AWS.Lambda.Hosting/FunctionApp.cs:124-127 | on a registry built by the registration methods, the selected wrapper's cast never fails on the value resolution hands it |
| Dispatch.DefaultEventDecodesOnInvoke | src/Zyborg.AWS.Lambda.Hosting/FunctionApp.Handlers.cs:90-95 | a decoding default receives the document decoded to its type at invocation, under the serializer's default options rather than the app's event-decoding options, and the event type stays unset |
| Dispatch.OutcomeIgnoresLaterMatchers | src/Zyborg.AWS.Lambda.Hosting/FunctionApp.Events.cs:112-119 | matchers registered later never change the whole invocation's outcome for a document an earlier predicate decided |
| HandlerResults.ToHandler | src/Zyborg.AWS.Lambda.Hosting/HandlerResult.cs:15-25 | null gives the empty result, a string gives a string result, a stream or an exact `ValueTuple<Stream, bool>` gives a stream result, and every other value, an `IHandlerResult` and any other stream/flag tuple included, gives JSON; the mapping is total and never custom |
| HandlerResults.ToHandlerKeepsPayload | src/Zyborg.AWS.Lambda.Hosting/HandlerResult.cs:15-32 | the coerced result carries the very value returned; a bare stream becomes that stream owned |
| HandlerResults.ToHandlerInjective | src/Zyborg.AWS.Lambda.Hosting/HandlerResult.cs:15-32 | two values coerce alike iff they are equal or are a stream and that stream paired with `true` |
| HandlerResults.ExecutedResult | src/Zyborg.AWS.Lambda.Hosting/FunctionApp.cs:133-140 | an `IHandlerResult` is executed as it is; every other value, null included, goes through `ToHandler` and is never custom |
| HandlerResults.ExecutedResultIdempotent | src/Zyborg.AWS.Lambda.Hosting/FunctionApp.cs:133-140 | returning the already coerced result executes the same result |
| HandlerResults.LegacyResultAgrees | src/Zyborg.AWS.Lambda.Hosting/FunctionApp.cs:143-172 | the old if/else chain chooses the same result as the current coercion (HandlerResult.cs:17-24) exactly for the values with a non-null stream in any pair (see "## Left out") that are not a stream/flag tuple of another type than `ValueTuple<Stream, bool>`; such a tuple is streamed with its flag by the old chain (FunctionApp.cs:155-158) and serialised as JSON by the coercion (HandlerResult.cs:22-23) |
| HandlerContext.FunctionHandlerContext.constructor | src/Zyborg.AWS.Lambda.Hosting/FunctionHandlerContext.cs:11-14 | a new context has no response, no lazy stream and every field unset |
| HandlerContext.FunctionHandlerContext.SetResponse | src/Zyborg.AWS.Lambda.Hosting/FunctionHandlerContext.cs:50-57 | the response becomes exactly `(stream, flag)`; the previous stream is disposed iff it existed and was owned, and its bytes and position are untouched |
| HandlerContext.FunctionHandlerContext.ResponseStream | src/Zyborg.AWS.Lambda.Hosting/FunctionHandlerContext.cs:32-43 | the first read creates an empty stream and installs it as an owned response; later reads return the same stream and change nothing |
| HandlerContext.FunctionHandlerContext.FinalizeResponseStream | src/Zyborg.AWS.Lambda.Hosting/FunctionHandlerContext.cs:45-48 | rewinds the lazily created stream only, does nothing when there is none, and throws `ObjectDisposed` on a disposed one |
| HandlerContext.ReadThenReplaceFails | src/Zyborg.AWS.Lambda.Hosting/FunctionHandlerContext.cs:32-57 | reading `ResponseStream` and then installing another response disposes the lazy stream, so the final rewind throws |
| HandlerContext.DirectResponseNotRewound | src/Zyborg.AWS.Lambda.Hosting/FunctionHandlerContext.cs:45-57 | a stream installed directly and not owned is neither rewound nor disposed at the end |
| Streams.MemoryStream.Dispose | src/Zyborg.AWS.Lambda.Hosting/FunctionHandlerContext.cs:54 | disposing keeps the contents and the position |
| Streams.MemoryStream.SeekToBegin | src/Zyborg.AWS.Lambda.Hosting/FunctionHandlerContext.cs:47 | rewinds to position 0, or throws `ObjectDisposed` on a disposed stream and changes nothing |
| Streams.MemoryStream.Write | src/Zyborg.AWS.Lambda.Hosting/HandlerResult.cs:79-80 | overwrites from the position and advances it by the bytes written, or throws on a disposed stream and changes nothing |
| Utf8.DecodeEncode | src/Zyborg.AWS.Lambda.Hosting/HandlerResult.cs:54 | the UTF-8 bytes of a string decode back to that string |
| Utf8.EncodeAscii | src/Zyborg.AWS.Lambda.Hosting/HandlerResult.cs:54 | an ASCII string encodes to one byte per character, equal to its code |
| ResultExecution.WriteJson | src/Zyborg.AWS.Lambda.Hosting/HandlerResult.cs:76-81 | the value's bytes go into `ResponseStream`, which is created and installed owned if needed; serializer failure throws; a disposed existing stream throws `ObjectDisposed` |
| ResultExecution.ExecuteResult | src/Zyborg.AWS.Lambda.Hosting/HandlerResult.cs:35-82 | Empty installs the shared stream not owned; String installs a fresh owned stream of its UTF-8 bytes; Stream installs its stream with its flag; Json writes through `ResponseStream`, and a null value throws; on a fresh context it throws iff encoding throws and leaves the state `Deliver` describes |
| Dispatch.DeliverFails | src/Zyborg.AWS.Lambda.Hosting/FunctionApp.cs:74-78 | after a returning handler, the invocation fails iff encoding throws or the final rewind meets a disposed lazy stream |
| Dispatch.GivenStreamKeepsFlag | src/Zyborg.AWS.Lambda.Hosting/FunctionApp.cs:78 | a stream existing before the invocation comes back only as the shared empty stream not owned, or as the stream a result named with exactly its flag |
| Dispatch.DeliverTextRoundTrip | src/Zyborg.AWS.Lambda.Hosting/HandlerResult.cs:52-56 | a string result is delivered as a new owned stream whose bytes decode back to the string |
| Dispatch.NullReturnIsEmptyResponse | src/Zyborg.AWS.Lambda.Hosting/HandlerResult.cs:41-45 | a handler returning null is answered with the shared empty stream, not owned |
| App.FunctionApp.EmptyResponse | src/Zyborg.AWS.Lambda.Hosting/FunctionApp.cs:30 | the shared empty stream, not owned; on a valid app it is zero-length and unread |
| App.FunctionApp.ResolveEventAndHandler | src/Zyborg.AWS.Lambda.Hosting/FunctionApp.cs:84-112 | non-JSON input throws before anything is set; otherwise the input is stored, a matched type and event are recorded before the lookup that may throw, and on success the handler and event value are those `ResolveHandler` gives; the event type stays unset on the default path |
| App.FunctionApp.ExecuteHandler | src/Zyborg.AWS.Lambda.Hosting/FunctionApp.cs:114-129 | the scope is opened and given the request before the handler runs and closed after it, on both paths; without a handler the result is untouched; a throwing handler leaves the result untouched and fails |
| App.FunctionApp.EncodeResult | src/Zyborg.AWS.Lambda.Hosting/FunctionApp.cs:131-141 | executes `ExecutedResult` of the handler's return value, with the effect `ExecuteResult` states |
| App.FunctionApp.EncodeResultOld | src/Zyborg.AWS.Lambda.Hosting/FunctionApp.cs:143-172 | the chain has the effect of executing `LegacyResult`, except that a plain value is serialised with the default options |
| App.FunctionApp.RouteEventToHandler | src/Zyborg.AWS.Lambda.Hosting/FunctionApp.cs:68-79 | the response, or the error of the first throwing stage, is exactly `InvocationResult`; a new stream it returns is fresh; the stages run in the order `Trace` gives; nothing existing before the call is modified |
| App.FunctionApp.Prepare | src/Zyborg.AWS.Lambda.Hosting/FunctionApp.cs:72-73 | resolution then execution end as `Plan` says: the resolution or handler error, or a return value whose executed result is the planned one |
| App.FunctionApp.Complete | src/Zyborg.AWS.Lambda.Hosting/FunctionApp.cs:74-78 | encoding, the final rewind and the `Response ?? EmptyResponse` fallback deliver exactly `Deliver` of the executed result |
| Scenarios.SecondDefaultRejected | src/Zyborg.AWS.Lambda.Hosting/FunctionApp.Handlers.cs:47-58 | a second default registration throws, and the first default is the one invoked afterwards |
| Scenarios.NullReturnGivesEmptyResponse | src/Zyborg.AWS.Lambda.Hosting/FunctionApp.cs:68-79 | `{}` with only a default that returns null yields a zero-length, unread, non-owned response |
| Scenarios.InvalidJsonFailsFirst | src/Zyborg.AWS.Lambda.Hosting/FunctionApp.cs:86 | a payload that is not JSON fails in resolution, and no later stage runs |
| Scenarios.MatchedButUnhandled | src/Zyborg.AWS.Lambda.Hosting/FunctionApp.cs:93-97 | an accepted type without a handler throws even when a default exists |
| Scenarios.CustomMatcherDecodes | src/Zyborg.AWS.Lambda.Hosting/FunctionApp.Events.cs:102-125 | an S3 matcher registered under a chosen type decodes a bucket notification as that type |
| Scenarios.DefaultsDecodeLogs | src/Zyborg.AWS.Lambda.Hosting/FunctionApp.Events.cs:12-28 | over the predefined list, a logs subscription is rejected by S3 and SNS and decoded as CloudWatch Logs |
| Scenarios.BuiltInsDecodeLogs | src/Zyborg.AWS.Lambda.Hosting/FunctionApp.Events.cs:62-125 | with the null selection and every type resolvable, `DecodeEvent` decodes a logs subscription as CloudWatch Logs |
| Scenarios.EmptySelectionAddsNothing | src/Zyborg.AWS.Lambda.Hosting/FunctionApp.Events.cs:62-89 | an empty selection adds no matcher and succeeds |
| Scenarios.UnsupportedNameStopsSelection | src/Zyborg.AWS.Lambda.Hosting/FunctionApp.Events.cs:78-87 | a selection throws at its first unsupported name, and only the names before it are registered |
| Scenarios.AsciiTextLength | src/Zyborg.AWS.Lambda.Hosting/HandlerResult.cs:52-56 | a returned ASCII string yields one output byte per character (10 for `"text/plain"`) |
| Scenarios.SampleAppMatchedNotification | test/Zyborg.AWS.Lambda.Hosting.Testing.Tests/SampleLambdaMain.cs:30-39 | with the sample wiring, a notification with an `s3` record member fails with `NoHandlerForEvent(S3Event)` |
| Scenarios.SampleAppUnmatchedNotification | test/Zyborg.AWS.Lambda.Hosting.Testing.Tests/SampleLambdaMain.cs:30-39 | with the sample wiring, a record spelled `S3` reaches the decoding default with the event decoded under the serializer's defaults, and its null return yields the empty response |
| Scenarios.OtherPairIsSerialised | src/Zyborg.AWS.Lambda.Hosting/HandlerResult.cs:17-24 | a returned `(MemoryStream, bool)` pair is serialised as JSON into a new owned stream, not handed back as a stream; the invocation fails iff the serializer cannot write it |

## Left out

- `RunAsync`, `HandleLambdaBootstrapEvent`, `Dispose` and `DisposeAsync` are out of the model: they are runtime bootstrap and container disposal.
- `FunctionAppBuilder` is out of the model: it is container and configuration setup.
- The dependency-injection scope, `ScopedState` and `ActivatorUtilities` become ghost `Stage` entries in a trace. A handler class is an opaque `Activated(typeName)` body.
- `JsonDocument.Parse` is represented by the request carrying `Option<Json>`, where `None` means "not JSON".
- `JsonSerializer.SerializeAsync` is a function parameter. A JSON round trip of structured values cannot be stated without a model of System.Text.Json, so none is claimed.
- A serializer that fails after writing part of its output is not modelled: a failing serializer writes nothing.
- `Deserialize` of a matched event or a decoding default is taken to succeed and to yield the event of that type built from the document, tagged with the options it was read with. What those options change in the decoded object, and a deserialisation exception, are not modelled.
- JSON numbers are integers, because no predicate inspects them. Floating point is not modelled.
- Strings are sequences of Unicode scalar values. Lone UTF-16 surrogates, which `Encoding.UTF8` replaces, are not modelled.
- `Type.GetType` and `FullName` (reflection) become type-name strings and a set of resolvable names.
- `async`/`await` is modelled as sequential calls. Cancellation is not modelled.
- The static `EmptyStream` is a field of each app, not one shared per process. Only one app is ever involved in an invocation.
- `ResultExecution.ExecuteResult`: a user-written `IHandlerResult` is limited to an optional read of `ResponseStream` followed by an optional `SetResponse` with a fresh stream. Arbitrary user code on the context is not modelled.
- `MemoryStream` capacity, `Length` and growth are not modelled: a stream is its bytes, a position and a disposed flag.
- `HandlerResults.LegacyResultAgrees`: a stream in a pair is never null in the model. So the lemma does not cover a `ValueTuple<Stream, bool>` whose stream is null. `ToHandler` turns that tuple into a `StreamHandlerResult` with a null stream (HandlerResult.cs:22, 29-30), which then installs a null response. `EncodeResult_OLD`'s declaration pattern does not match null, so the old chain serialises that tuple as JSON (FunctionApp.cs:155, 170).
- A `StringHandlerResult` or `StreamHandlerResult` whose payload keeps its `default!` null (HandlerResult.cs:50, 61) is not modelled. For the string, `Encoding.UTF8.GetBytes` throws; for the stream, a null response is installed.
- `App.FunctionApp.EncodeResultOld` does not state the fresh-context delivery that `EncodeResult` states. The old chain is not on the invocation path.
- `App.FunctionApp.Prepare` and `App.FunctionApp.Complete` do not exist in the source. They split `RouteEventToHandler` at the point where the handler has returned.
