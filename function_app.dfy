/** FunctionApp (FunctionApp.cs, FunctionApp.Events.cs,
    FunctionApp.Handlers.cs): the matcher list and handler registry filled
    during setup, and the per-invocation pipeline that resolves, executes,
    encodes and finalizes on a fresh context. */
module App {
  import opened Types
  import opened Json
  import opened Streams
  import opened EventMatchers
  import opened HandlerResults
  import opened Handlers
  import opened HandlerContext
  import opened ResultExecution
  import opened Dispatch
  import Utf8

  /** What resolution records about the decoding `d` even when it then
      throws: a matched type and its event are stored before the handler
      lookup; otherwise the event type is left as it was, and so is the
      event value when resolution `failed`. */
  twostate predicate RecordedMatch(hctx: FunctionHandlerContext, d: Decoding, failed: bool)
    reads hctx
  {
    (d.Decoded? ==> hctx.eventType == Some(d.eventType) && hctx.eventValue == d.eventValue) &&
    (!d.Decoded? ==> hctx.eventType == old(hctx.eventType)) &&
    (!d.Decoded? && failed ==> hctx.eventValue == old(hctx.eventValue))
  }

  class FunctionApp {
    /** The shared empty stream behind EmptyResponse and EmptyHandlerResult. */
    const emptyStream: MemoryStream
    var eventMatchers: seq<Matcher>
    var eventHandlers: map<TypeName, Handler>
    var defaultHandler: Option<Handler>

    /** The registry shape registration keeps, and the shared stream empty
        and unread. */
    ghost predicate Valid()
      reads this, emptyStream
    {
      WellFormed(eventHandlers, defaultHandler) &&
      emptyStream.data == [] && emptyStream.position == 0 && !emptyStream.disposed
    }

    constructor ()
      ensures Valid() && fresh(emptyStream)
      ensures eventMatchers == [] && eventHandlers == map[] && defaultHandler == None
    {
      emptyStream := new MemoryStream([]);
      eventMatchers, eventHandlers, defaultHandler := [], map[], None;
    }

    // -------------------------------------------------------------------
    // Event matchers

    /** Appends one matcher; nothing already registered moves or goes. */
    method AddEventMatcher(eventType: TypeName, matches: MatchPredicate)
      modifies this`eventMatchers
      ensures eventMatchers == old(eventMatchers) + [Matcher(eventType, matches)]
    {
      eventMatchers := eventMatchers + [Matcher(eventType, matches)];
    }

    /** With no selection (a null array), the predefined matchers whose type
        resolves, in the predefined order. With a selection, the predefined
        matcher of each selected name in the order given, up to the first
        name that has none, which throws; the ones before it stay added. */
    method AddBuiltInEventMatchers(selectTypes: Option<seq<TypeName>>, resolvable: set<TypeName>) returns (r: Outcome)
      modifies this`eventMatchers
      ensures selectTypes.None? ==>
        r == Pass && eventMatchers == old(eventMatchers) + ResolvableMatchers(DefaultEventMatchers, resolvable)
      ensures selectTypes.Some? ==>
        var names := selectTypes.value;
        var k := SupportedPrefix(names);
        eventMatchers == old(eventMatchers) + SelectedMatchers(names[..k]) &&
        r == if k < |names| then Fail(NotSupported(names[k])) else Pass
    {
      if selectTypes.None? {
        AddResolvableDefaults(resolvable);
        r := Pass;
      } else {
        r := AddSelectedDefaults(selectTypes.value);
      }
    }

    /** The loop over the predefined list. */
    method AddResolvableDefaults(resolvable: set<TypeName>)
      modifies this`eventMatchers
      ensures eventMatchers == old(eventMatchers) + ResolvableMatchers(DefaultEventMatchers, resolvable)
    {
      var i := 0;
      while i < |DefaultEventMatchers|
        invariant 0 <= i <= |DefaultEventMatchers|
        invariant eventMatchers == old(eventMatchers) + ResolvableMatchers(DefaultEventMatchers[..i], resolvable)
      {
        var m := DefaultEventMatchers[i];
        assert DefaultEventMatchers[..i + 1][..i] == DefaultEventMatchers[..i];
        if m.eventType in resolvable {
          AddEventMatcher(m.eventType, m.matches);
        }
        i := i + 1;
      }
      assert DefaultEventMatchers[..i] == DefaultEventMatchers;
    }

    /** The loop over the selected names. */
    method AddSelectedDefaults(names: seq<TypeName>) returns (r: Outcome)
      modifies this`eventMatchers
      ensures var k := SupportedPrefix(names);
        eventMatchers == old(eventMatchers) + SelectedMatchers(names[..k]) &&
        r == if k < |names| then Fail(NotSupported(names[k])) else Pass
    {
      var i := 0;
      while i < |names|
        invariant 0 <= i <= |names|
        invariant forall j :: 0 <= j < i ==> names[j] in DefaultEventTypes
        invariant eventMatchers == old(eventMatchers) + SelectedMatchers(names[..i])
      {
        var p := DefaultPredicate(names[i]);
        if p.None? {
          SupportedPrefixAt(names, i);
          return Fail(NotSupported(names[i]));
        }
        SelectedMatchersStep(names, i);
        AddEventMatcher(names[i], p.value);
        i := i + 1;
      }
      assert names[..i] == names;
      SupportedPrefixAt(names, i);
      r := Pass;
    }

    /** DecodeEvent: tries the matchers in registration order and stops at
        the first predicate that holds (or throws). */
    method DecodeEvent(doc: Json) returns (d: Decoding)
      ensures d == FirstMatch(eventMatchers, doc)
    {
      var i := 0;
      while i < |eventMatchers|
        invariant 0 <= i <= |eventMatchers|
        invariant FirstMatch(eventMatchers, doc) == FirstMatch(eventMatchers[i..], doc)
      {
        assert eventMatchers[i..][0] == eventMatchers[i];
        assert eventMatchers[i..][1..] == eventMatchers[i + 1..];
        var m := eventMatchers[i];
        var verdict := m.matches(doc);
        if verdict.Err? {
          return ProbeFailed(verdict.error);
        }
        if verdict.value {
          return Decoded(m.eventType, Event(m.eventType, doc, EventDecodingOptions));
        }
        i := i + 1;
      }
      return Undecoded;
    }

    // -------------------------------------------------------------------
    // Handler registry

    /** HandleEvent: files a typed handler under its event type; a second
        registration for the same type throws and keeps the first. */
    method HandleEvent(eventType: TypeName, body: HandlerBody) returns (r: Outcome)
      requires Valid()
      modifies this`eventHandlers
      ensures Valid()
      ensures old(eventType in eventHandlers) ==>
        r == Fail(DuplicateKey(eventType)) && eventHandlers == old(eventHandlers)
      ensures old(eventType !in eventHandlers) ==>
        r == Pass && eventHandlers == old(eventHandlers)[eventType := EventHandler(eventType, body)]
    {
      if eventType in eventHandlers {
        return Fail(DuplicateKey(eventType));
      }
      eventHandlers := eventHandlers[eventType := EventHandler(eventType, body)];
      r := Pass;
    }

    /** HandleEvent<TEvent, THandler>: the same registration, with a handler
        class activated per invocation. */
    method HandleEventWith(eventType: TypeName, handlerType: TypeName) returns (r: Outcome)
      requires Valid()
      modifies this`eventHandlers
      ensures Valid()
      ensures old(eventType in eventHandlers) ==>
        r == Fail(DuplicateKey(eventType)) && eventHandlers == old(eventHandlers)
      ensures old(eventType !in eventHandlers) ==>
        r == Pass && eventHandlers == old(eventHandlers)[eventType := EventHandler(eventType, Activated(handlerType))]
    {
      r := HandleEvent(eventType, Activated(handlerType));
    }

    /** HandleDefault: fills the single default slot with a handler taking
        the document; throws and keeps the current default if the slot is
        already taken. */
    method HandleDefault(body: HandlerBody) returns (r: Outcome)
      requires Valid()
      modifies this`defaultHandler
      ensures Valid()
      ensures old(defaultHandler.Some?) ==>
        r == Fail(DefaultAlreadyRegistered) && defaultHandler == old(defaultHandler)
      ensures old(defaultHandler.None?) ==>
        r == Pass && defaultHandler == Some(DocumentHandler(body))
    {
      if defaultHandler.Some? {
        return Fail(DefaultAlreadyRegistered);
      }
      defaultHandler := Some(DocumentHandler(body));
      r := Pass;
    }

    /** HandleDefault<THandler>: goes through the guarded overload. */
    method HandleDefaultWith(handlerType: TypeName) returns (r: Outcome)
      requires Valid()
      modifies this`defaultHandler
      ensures Valid()
      ensures old(defaultHandler.Some?) ==>
        r == Fail(DefaultAlreadyRegistered) && defaultHandler == old(defaultHandler)
      ensures old(defaultHandler.None?) ==>
        r == Pass && defaultHandler == Some(DocumentHandler(Activated(handlerType)))
    {
      r := HandleDefault(Activated(handlerType));
    }

    /** HandleDefaultEvent: the same slot and guard, with a handler that
        deserialises the document to its event type when invoked. */
    method HandleDefaultEvent(eventType: TypeName, body: HandlerBody) returns (r: Outcome)
      requires Valid()
      modifies this`defaultHandler
      ensures Valid()
      ensures old(defaultHandler.Some?) ==>
        r == Fail(DefaultAlreadyRegistered) && defaultHandler == old(defaultHandler)
      ensures old(defaultHandler.None?) ==>
        r == Pass && defaultHandler == Some(DecodingHandler(eventType, body))
    {
      if defaultHandler.Some? {
        return Fail(DefaultAlreadyRegistered);
      }
      defaultHandler := Some(DecodingHandler(eventType, body));
      r := Pass;
    }

    /** HandleDefaultEvent<TEvent, THandler>: goes through the guarded overload. */
    method HandleDefaultEventWith(eventType: TypeName, handlerType: TypeName) returns (r: Outcome)
      requires Valid()
      modifies this`defaultHandler
      ensures Valid()
      ensures old(defaultHandler.Some?) ==>
        r == Fail(DefaultAlreadyRegistered) && defaultHandler == old(defaultHandler)
      ensures old(defaultHandler.None?) ==>
        r == Pass && defaultHandler == Some(DecodingHandler(eventType, Activated(handlerType)))
    {
      r := HandleDefaultEvent(eventType, Activated(handlerType));
    }

    // -------------------------------------------------------------------
    // The pipeline

    /** EmptyResponse: the shared stream, not owned, so that the runtime
        never disposes it; on a valid app it is zero-length and unread. */
    function EmptyResponse(): (r: Response)
      reads this, emptyStream
      ensures r.outputStream == emptyStream && !r.disposeOutputStream
      ensures Valid() ==> r.outputStream.data == [] && r.outputStream.position == 0 && !r.outputStream.disposed
    {
      Response(emptyStream, false)
    }

    /** ResolveEventAndHandler: parses the input, then selects a handler as
        ResolveHandler says. A matched type is recorded in the context before
        the lookup that may throw; on the default path the event type is left
        as it was and the event value is the document. */
    method ResolveEventAndHandler(hctx: FunctionHandlerContext) returns (r: Outcome)
      modifies hctx`inputJson, hctx`eventType, hctx`eventValue, hctx`handler, hctx`stages
      ensures hctx.stages == old(hctx.stages) + [Resolve]
      ensures hctx.request.input.None? ==>
        r == Fail(InvalidJson) && hctx.inputJson == old(hctx.inputJson) && hctx.eventType == old(hctx.eventType) &&
        hctx.eventValue == old(hctx.eventValue) && hctx.handler == old(hctx.handler)
      ensures hctx.request.input.Some? ==>
        var doc := hctx.request.input.value;
        var d := FirstMatch(eventMatchers, doc);
        var res := ResolveHandler(eventMatchers, eventHandlers, defaultHandler, doc);
        hctx.inputJson == Some(doc) &&
        (res.Err? ==> r == Fail(res.error) && hctx.handler == old(hctx.handler)) &&
        (res.Ok? ==> r == Pass && hctx.handler == Some(res.value.handler) && hctx.eventValue == res.value.eventValue) &&
        RecordedMatch(hctx, d, res.Err?)
    {
      hctx.stages := hctx.stages + [Resolve];
      if hctx.request.input.None? {
        return Fail(InvalidJson);
      }
      hctx.inputJson := hctx.request.input;
      var doc := hctx.request.input.value;
      var d := DecodeEvent(doc);
      match d
      case ProbeFailed(e) =>
        r := Fail(e);
      case Decoded(t, v) =>
        hctx.eventType := Some(t);
        hctx.eventValue := v;
        if t !in eventHandlers {
          return Fail(NoHandlerForEvent(t));
        }
        hctx.handler := Some(eventHandlers[t]);
        r := Pass;
      case Undecoded =>
        if defaultHandler.Some? {
          hctx.handler := defaultHandler;
          hctx.eventValue := Document(doc);
          r := Pass;
        } else {
          r := Fail(NoDefaultHandler);
        }
    }

    /** ExecuteHandler: opens a scope, gives it the request, runs the
        selected handler (if any) on the event value, and closes the scope
        whether the handler returned or threw. Without a handler the result
        is left as it was. */
    method ExecuteHandler(hctx: FunctionHandlerContext, code: HandlerCode) returns (r: Outcome)
      modifies hctx`handlerResult, hctx`stages
      ensures hctx.handler.None? ==>
        r == Pass && hctx.handlerResult == old(hctx.handlerResult) &&
        hctx.stages == old(hctx.stages) + [ScopeOpened, RequestBound(hctx.request), ScopeClosed]
      ensures hctx.handler.Some? ==>
        hctx.stages == old(hctx.stages) + [ScopeOpened, RequestBound(hctx.request), HandlerInvoked, ScopeClosed] &&
        match Invoke(hctx.handler.value, hctx.eventValue, code)
        case Returned(v) => r == Pass && hctx.handlerResult == v
        case Threw(e) => r == Fail(e) && hctx.handlerResult == old(hctx.handlerResult)
    {
      hctx.stages := hctx.stages + [ScopeOpened, RequestBound(hctx.request)];
      r := Pass;
      if hctx.handler.Some? {
        hctx.stages := hctx.stages + [HandlerInvoked];
        var outcome := Invoke(hctx.handler.value, hctx.eventValue, code);
        match outcome
        case Returned(v) =>
          hctx.handlerResult := v;
        case Threw(e) =>
          r := Fail(e);
      }
      hctx.stages := hctx.stages + [ScopeClosed];
    }

    /** EncodeResult: executes an IHandlerResult as it is and anything else,
        null included, coerced through ToHandler. */
    method EncodeResult(hctx: FunctionHandlerContext, serialize: Serializer) returns (r: Outcome)
      modifies hctx`response, hctx`lazyStream, hctx`stages, ExecutionFrame(hctx, ExecutedResult(hctx.handlerResult))
      ensures hctx.stages == old(hctx.stages) + [Encode]
      ensures ExecutedAs(hctx, ExecutedResult(hctx.handlerResult), emptyStream, serialize, ResultOptions, r)
      ensures old(hctx.response) == None && old(hctx.lazyStream) == null ==>
        FromFreshContext(hctx, ExecutedResult(hctx.handlerResult), emptyStream, serialize, r)
    {
      hctx.stages := hctx.stages + [Encode];
      var result := hctx.handlerResult;
      var hr := if result.ResultObj? then result.result else ToHandler(result);
      r := ExecuteResult(hr, hctx, emptyStream, serialize);
    }

    /** The options EncodeResult_OLD serialises a value with: an
        IHandlerResult uses its own, a plain value the serializer's defaults. */
    static function LegacyOptions(value: Obj): SerializerOptions {
      if value.ResultObj? then ResultOptions else DefaultOptions
    }

    /** EncodeResult_OLD: the if/else chain, in its own order; it has the
        effect of executing LegacyResult, except that a plain value is
        serialised with default options. */
    method EncodeResultOld(hctx: FunctionHandlerContext, serialize: Serializer) returns (r: Outcome)
      modifies hctx`response, hctx`lazyStream, hctx`stages, ExecutionFrame(hctx, LegacyResult(hctx.handlerResult))
      ensures hctx.stages == old(hctx.stages) + [Encode]
      ensures ExecutedAs(hctx, LegacyResult(hctx.handlerResult), emptyStream, serialize, LegacyOptions(hctx.handlerResult), r)
    {
      hctx.stages := hctx.stages + [Encode];
      var result := hctx.handlerResult;
      if result.Null? {
        hctx.SetResponse(emptyStream, false);
        r := Pass;
      } else if result.ResultObj? {
        r := ExecuteResult(result.result, hctx, emptyStream, serialize);
      } else if result.StreamTuple? || result.OtherStreamPair? {
        hctx.SetResponse(result.stream, result.dispose);
        r := Pass;
      } else if result.StreamObj? {
        hctx.SetResponse(result.stream, true);
        r := Pass;
      } else if result.Str? {
        var s := new MemoryStream(Utf8.Encode(result.s));
        hctx.SetResponse(s, true);
        r := Pass;
      } else {
        r := WriteJson(hctx, result, serialize, DefaultOptions);
      }
    }

    /** RouteEventToHandler: resolve, execute, encode and finalize on a fresh
        context, then hand back its response or EmptyResponse. The first
        stage that throws ends the invocation with its error. Nothing that
        existed before the call is modified: in particular a stream a result
        named but did not own is neither disposed nor moved. */
    method RouteEventToHandler(request: InvocationRequest, code: HandlerCode, serialize: Serializer)
      returns (r: Result<Response>, ghost stages: seq<Stage>)
      ensures Delivered(r, InvocationResult(eventMatchers, eventHandlers, defaultHandler, request, code, emptyStream, serialize))
      ensures r.Ok? && InvocationResult(eventMatchers, eventHandlers, defaultHandler, request, code, emptyStream, serialize).value.NewStream? ==>
        fresh(r.value.outputStream)
      ensures stages == Trace(request, Plan(eventMatchers, eventHandlers, defaultHandler, request.input, code), serialize)
    {
      var hctx := new FunctionHandlerContext(request);
      var o := Prepare(hctx, code);
      if o.Fail? {
        return Err(o.error), hctx.stages;
      }
      ghost var d := Deliver(ExecutedResult(hctx.handlerResult), emptyStream, serialize);
      r := Complete(hctx, serialize, d);
      stages := hctx.stages;
    }

    /** The first two stages of RouteEventToHandler: ResolveEventAndHandler,
        then ExecuteHandler unless resolution threw. */
    method Prepare(hctx: FunctionHandlerContext, code: HandlerCode) returns (o: Outcome)
      modifies hctx`inputJson, hctx`eventType, hctx`eventValue, hctx`handler, hctx`handlerResult, hctx`stages
      ensures var plan := Plan(eventMatchers, eventHandlers, defaultHandler, hctx.request.input, code);
        (!plan.HandlerReturned? ==> o == Fail(plan.error)) &&
        (plan.HandlerReturned? ==> o == Pass && ExecutedResult(hctx.handlerResult) == plan.result) &&
        hctx.stages == old(hctx.stages) + if plan.ResolutionFailed? then [Resolve] else HandlerStages(hctx.request)
    {
      ghost var plan := Plan(eventMatchers, eventHandlers, defaultHandler, hctx.request.input, code);
      o := ResolveEventAndHandler(hctx);
      if o.Fail? {
        assert plan == ResolutionFailed(o.error);
        return;
      }
      ghost var res := ResolveHandler(eventMatchers, eventHandlers, defaultHandler, hctx.request.input.value).value;
      assert hctx.handler == Some(res.handler) && hctx.eventValue == res.eventValue;
      o := ExecuteHandler(hctx, code);
      assert Invoke(res.handler, res.eventValue, code) == Invoke(hctx.handler.value, hctx.eventValue, code);
    }

    /** The last stages of RouteEventToHandler on a context no response was
        installed in yet: EncodeResult, then FinalizeResponseStream unless
        encoding threw, then the context's response or EmptyResponse. */
    method Complete(hctx: FunctionHandlerContext, serialize: Serializer, ghost d: Result<Delivery>) returns (r: Result<Response>)
      requires hctx.response == None && hctx.lazyStream == null
      requires d == Deliver(ExecutedResult(hctx.handlerResult), emptyStream, serialize)
      modifies hctx`response, hctx`lazyStream, hctx`stages
      ensures hctx.stages == old(hctx.stages) + if EncodeThrows(ExecutedResult(hctx.handlerResult), serialize) then [Encode] else [Encode, Finalize]
      ensures Delivered(r, d)
      ensures r.Ok? && d.Ok? && d.value.NewStream? ==> fresh(r.value.outputStream)
    {
      var o := EncodeResult(hctx, serialize);
      if o.Fail? {
        return Err(o.error);
      }
      assert Ready(hctx, emptyStream, d);
      o := hctx.FinalizeResponseStream();
      if o.Fail? {
        return Err(o.error);
      }
      var response := if hctx.response.Some? then hctx.response.value else EmptyResponse();
      r := Ok(response);
    }
  }
}
