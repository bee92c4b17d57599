/** The per-invocation pipeline of FunctionApp.cs as values: which handler
    an input resolves to, what the handler's return value becomes, and what
    response (or failure) one invocation on a fresh context ends with. The
    methods of App.FunctionApp are proved against these functions. */
module Dispatch {
  import opened Types
  import opened Json
  import opened Streams
  import opened EventMatchers
  import opened HandlerResults
  import opened Handlers
  import opened HandlerContext
  import opened ResultExecution
  import Utf8

  /** What a successful ResolveEventAndHandler leaves in the context. */
  datatype Resolution = Resolution(eventType: Option<TypeName>, eventValue: EventValue, handler: Handler)

  /** ResolveEventAndHandler on a parsed document: the first matching type
      selects its registered handler, or fails when none is registered; when
      nothing matches, the default handler gets the document itself, or the
      resolution fails when there is no default. A predicate that throws ends
      the resolution with its exception. */
  function ResolveHandler(ms: seq<Matcher>, handlers: map<TypeName, Handler>, default: Option<Handler>, doc: Json): Result<Resolution> {
    match FirstMatch(ms, doc)
    case ProbeFailed(e) => Err(e)
    case Decoded(t, v) =>
      if t in handlers then Ok(Resolution(Some(t), v, handlers[t])) else Err(NoHandlerForEvent(t))
    case Undecoded =>
      if default.Some? then Ok(Resolution(None, Document(doc), default.value)) else Err(NoDefaultHandler)
  }

  /** The first matcher whose predicate holds, after only rejections,
      selects the handler filed under its type, with the event decoded under
      the app's event-decoding options; later matchers play no part. */
  lemma ResolveFirstMatch(ms: seq<Matcher>, handlers: map<TypeName, Handler>, default: Option<Handler>, doc: Json, i: int)
    requires 0 <= i < |ms| && RejectedBefore(ms, doc, i) && ms[i].matches(doc) == Ok(true)
    ensures var t := ms[i].eventType;
      ResolveHandler(ms, handlers, default, doc) ==
        if t in handlers then Ok(Resolution(Some(t), Event(t, doc, EventDecodingOptions), handlers[t]))
        else Err(NoHandlerForEvent(t))
  {
    FirstMatchChoosesFirst(ms, doc, i);
  }

  /** When every predicate rejects the document, the default handler gets
      the document and the event type stays unset, or the resolution fails
      with the no-default error. */
  lemma ResolveUnmatched(ms: seq<Matcher>, handlers: map<TypeName, Handler>, default: Option<Handler>, doc: Json)
    requires RejectedBefore(ms, doc, |ms|)
    ensures ResolveHandler(ms, handlers, default, doc) ==
      if default.Some? then Ok(Resolution(None, Document(doc), default.value)) else Err(NoDefaultHandler)
  {
  }

  /** The two resolution failures are told apart: the unhandled-type error
      names a type that some predicate accepted and no handler is filed
      under, and the no-default error arises only when every predicate
      rejected the document. */
  lemma ResolveFailures(ms: seq<Matcher>, handlers: map<TypeName, Handler>, default: Option<Handler>, doc: Json)
    requires forall i :: 0 <= i < |ms| ==> ms[i].matches(doc).Ok?
    ensures ResolveHandler(ms, handlers, default, doc).Err? ==>
      match ResolveHandler(ms, handlers, default, doc).error
      case NoHandlerForEvent(t) =>
        t !in handlers &&
        (exists i :: 0 <= i < |ms| && RejectedBefore(ms, doc, i) && ms[i].matches(doc) == Ok(true) && ms[i].eventType == t)
      case NoDefaultHandler => default.None? && RejectedBefore(ms, doc, |ms|)
      case _ => false
  {
  }

  /** On a registry the registration methods built, the selected wrapper's
      cast always accepts the value resolution hands it, so the user's code
      runs with the decoded event or the document. */
  lemma ResolvedHandlerAccepts(ms: seq<Matcher>, handlers: map<TypeName, Handler>, default: Option<Handler>,
                               doc: Json, code: HandlerCode)
    requires WellFormed(handlers, default)
    requires ResolveHandler(ms, handlers, default, doc).Ok?
    ensures var res := ResolveHandler(ms, handlers, default, doc).value;
      Accepts(res.handler, res.eventValue) &&
      Invoke(res.handler, res.eventValue, code) == code(res.handler.body, Argument(res.handler, res.eventValue))
  {
    var d := FirstMatch(ms, doc);
    if d.Decoded? {
      assert handlers[d.eventType].eventType == d.eventType;
    }
  }

  /** A default registered through HandleDefaultEvent decodes the document
      when it is invoked: its code receives the event decoded from the very
      document the invocation carried, under the serializer's default
      options rather than the app's event-decoding options. */
  lemma DefaultEventDecodesOnInvoke(ms: seq<Matcher>, handlers: map<TypeName, Handler>, t: TypeName, body: HandlerBody,
                                    doc: Json, code: HandlerCode)
    requires RejectedBefore(ms, doc, |ms|)
    ensures var res := ResolveHandler(ms, handlers, Some(DecodingHandler(t, body)), doc).value;
      res.eventType == None && Invoke(res.handler, res.eventValue, code) == code(body, Event(t, doc, DefaultOptions))
  {
    ResolveUnmatched(ms, handlers, Some(DecodingHandler(t, body)), doc);
  }

  /** How an invocation's handler stage ends. */
  datatype Invocation =
    | ResolutionFailed(error: Error)       // parsing or resolution threw; no handler ran
    | HandlerThrew(error: Error)            // the handler ran and threw; nothing is encoded
    | HandlerReturned(result: HandlerResult) // the result EncodeResult executes

  /** Parse, resolve and run the handler: a payload that is not JSON fails
      before anything else, and the handler's return value is taken to the
      result EncodeResult executes. */
  function Plan(ms: seq<Matcher>, handlers: map<TypeName, Handler>, default: Option<Handler>,
                input: Option<Json>, code: HandlerCode): Invocation {
    if input.None? then ResolutionFailed(InvalidJson)
    else
      match ResolveHandler(ms, handlers, default, input.value)
      case Err(e) => ResolutionFailed(e)
      case Ok(res) =>
        match Invoke(res.handler, res.eventValue, code)
        case Threw(e) => HandlerThrew(e)
        case Returned(v) => HandlerReturned(ExecutedResult(v))
  }

  /** Delivery fails exactly when encoding or the final rewind throws. */
  lemma DeliverFails(hr: HandlerResult, emptyStream: MemoryStream, serialize: Serializer)
    ensures Deliver(hr, emptyStream, serialize).Err? <==> EncodeThrows(hr, serialize) || FinalizeThrows(hr)
    ensures FinalizeThrows(hr) ==> Deliver(hr, emptyStream, serialize) == Err(ObjectDisposed)
  {
  }

  /** Ownership: a stream that existed before the invocation is handed back
      only as the shared empty stream, never owned, or as the stream a result
      named, with exactly the flag it named. */
  lemma GivenStreamKeepsFlag(hr: HandlerResult, emptyStream: MemoryStream, serialize: Serializer)
    requires Deliver(hr, emptyStream, serialize).Ok? && Deliver(hr, emptyStream, serialize).value.GivenStream?
    ensures var d := Deliver(hr, emptyStream, serialize).value;
      (d.stream == emptyStream && !d.owned) || hr == StreamResult(d.stream, d.owned)
  {
  }

  /** A string result is delivered as a new owned stream whose bytes decode
      back to the string. */
  lemma DeliverTextRoundTrip(text: string, emptyStream: MemoryStream, serialize: Serializer)
    ensures var d := Deliver(StringResult(text), emptyStream, serialize);
      d.Ok? && d.value.NewStream? && d.value.owned && Utf8.Decode(d.value.bytes) == Some(text)
  {
    Utf8.DecodeEncode(text);
  }

  /** A null return is answered with the shared empty stream, not owned. */
  lemma NullReturnIsEmptyResponse(emptyStream: MemoryStream, serialize: Serializer)
    ensures Deliver(ExecutedResult(Null), emptyStream, serialize) == Ok(GivenStream(emptyStream, false))
  {
  }

  /** The stages one invocation goes through: resolution only, when it
      throws; the scope is opened, given the request and closed around a
      handler, also one that throws; encoding runs only when the handler
      returned, and the final rewind only when encoding did not throw. */
  function Trace(request: InvocationRequest, inv: Invocation, serialize: Serializer): seq<Stage> {
    match inv
    case ResolutionFailed(_) => [Resolve]
    case HandlerThrew(_) => HandlerStages(request)
    case HandlerReturned(hr) =>
      HandlerStages(request) + if EncodeThrows(hr, serialize) then [Encode] else [Encode, Finalize]
  }

  /** Resolution, then the scope around the handler. */
  function HandlerStages(request: InvocationRequest): seq<Stage> {
    [Resolve, ScopeOpened, RequestBound(request), HandlerInvoked, ScopeClosed]
  }

  /** `r` is the response `d` describes, its stream read back in the state
      `r` was returned in. */
  predicate Delivered(r: Result<Response>, d: Result<Delivery>)
    reads if r.Ok? then {r.value.outputStream} else {}
  {
    match d
    case Err(e) => r == Err(e)
    case Ok(NewStream(bytes, owned)) =>
      r.Ok? && r.value.disposeOutputStream == owned &&
      r.value.outputStream.data == bytes && r.value.outputStream.position == 0 && !r.value.outputStream.disposed
    case Ok(GivenStream(stream, owned)) => r == Ok(Response(stream, owned))
  }

  /** The whole outcome of one invocation, as a function of the registry,
      the request, the user's code and the serializer. */
  function InvocationResult(ms: seq<Matcher>, handlers: map<TypeName, Handler>, default: Option<Handler>,
                   request: InvocationRequest, code: HandlerCode, emptyStream: MemoryStream,
                   serialize: Serializer): Result<Delivery> {
    match Plan(ms, handlers, default, request.input, code)
    case ResolutionFailed(e) => Err(e)
    case HandlerThrew(e) => Err(e)
    case HandlerReturned(hr) => Deliver(hr, emptyStream, serialize)
  }

  /** The first matcher to accept decides, whatever comes after it:
      registering more matchers later never changes the outcome for a
      document some earlier predicate decided. */
  lemma OutcomeIgnoresLaterMatchers(ms: seq<Matcher>, later: seq<Matcher>, handlers: map<TypeName, Handler>,
                                    default: Option<Handler>, request: InvocationRequest, code: HandlerCode,
                                    emptyStream: MemoryStream, serialize: Serializer)
    requires request.input.Some? && FirstMatch(ms, request.input.value) != Undecoded
    ensures InvocationResult(ms + later, handlers, default, request, code, emptyStream, serialize) ==
            InvocationResult(ms, handlers, default, request, code, emptyStream, serialize)
  {
    FirstMatchIgnoresLater(ms, later, request.input.value);
  }
}
