/** The per-invocation context (FunctionHandlerContext.cs): the mutable
    record the pipeline threads through its stages, the response it builds
    and the ownership rules for the response stream. */
module HandlerContext {
  import opened Types
  import opened Json
  import opened Streams
  import opened EventMatchers
  import opened HandlerResults
  import opened Handlers

  /** An invocation request: its id and what JsonDocument.Parse makes of its
      input stream (None when the payload is not JSON). */
  datatype InvocationRequest = InvocationRequest(requestId: string, input: Option<Json>)

  /** InvocationResponse: the output stream and whether it is disposed once
      the runtime has read it (the core owns it). */
  datatype Response = Response(outputStream: MemoryStream, disposeOutputStream: bool)

  /** The steps of one invocation, recorded in order as a ghost trace. */
  datatype Stage =
    | Resolve
    | ScopeOpened
    | RequestBound(request: InvocationRequest)  // the scoped state receives the request
    | HandlerInvoked
    | ScopeClosed
    | Encode
    | Finalize

  /** What installing a response does to the one it replaces: an owned stream
      is disposed, a stream the core does not own is left alone, and neither's
      bytes nor position change. */
  twostate predicate Released(previous: Option<Response>)
    reads if previous.Some? then {previous.value.outputStream} else {}
  {
    previous.Some? ==>
      var s := previous.value.outputStream;
      s.data == old(s.data) && s.position == old(s.position) &&
      s.disposed == (old(s.disposed) || previous.value.disposeOutputStream)
  }

  class FunctionHandlerContext {
    const request: InvocationRequest
    var response: Option<Response>
    var inputJson: Option<Json>
    var eventType: Option<TypeName>
    var eventValue: EventValue
    var handler: Option<Handler>
    var handlerResult: Obj
    /** The stream created on the first read of ResponseStream. */
    var lazyStream: MemoryStream?
    ghost var stages: seq<Stage>

    constructor (request: InvocationRequest)
      ensures this.request == request && response == None && inputJson == None
      ensures eventType == None && eventValue == NoEvent && handler == None && handlerResult == Null
      ensures lazyStream == null && stages == []
    {
      this.request := request;
      response, inputJson, eventType, eventValue := None, None, None, NoEvent;
      handler, handlerResult, lazyStream := None, Null, null;
      stages := [];
    }

    /** The stream that replacing the response disposes: the current
        response stream, when the core owns it. */
    function OwnedStream(): set<object>
      reads this
    {
      if response.Some? && response.value.disposeOutputStream then {response.value.outputStream} else {}
    }

    function LazyFrame(): set<object>
      reads this
    {
      if lazyStream == null then {} else {lazyStream}
    }

    /** Installs `(stream, disposeOutputStream)` as the response, disposing
        the previous response stream first if, and only if, it was owned. */
    method SetResponse(stream: MemoryStream, disposeOutputStream: bool := true)
      modifies this`response, OwnedStream()
      ensures response == Some(Response(stream, disposeOutputStream))
      ensures Released(old(response))
    {
      if response.Some? && response.value.disposeOutputStream {
        response.value.outputStream.Dispose();
      }
      response := Some(Response(stream, disposeOutputStream));
    }

    /** The ResponseStream getter: the first read creates an empty stream and
        installs it as an owned response; later reads return that same stream
        and leave the response alone. */
    method ResponseStream() returns (s: MemoryStream)
      modifies this`lazyStream, this`response, OwnedStream()
      ensures lazyStream == s
      ensures old(lazyStream) != null ==>
        s == old(lazyStream) && response == old(response) && unchanged(old(OwnedStream()))
      ensures old(lazyStream) == null ==>
        fresh(s) && s.data == [] && s.position == 0 && !s.disposed &&
        response == Some(Response(s, true)) && Released(old(response))
    {
      if lazyStream == null {
        lazyStream := new MemoryStream([]);
        SetResponse(lazyStream, true);
      }
      s := lazyStream;
    }

    /** Rewinds the lazily created stream, and only that one; a stream
        installed through SetResponse alone is not touched. Rewinding a
        disposed stream throws. */
    method FinalizeResponseStream() returns (r: Outcome)
      modifies LazyFrame(), this`stages
      ensures stages == old(stages) + [Finalize]
      ensures lazyStream == null ==> r == Pass
      ensures lazyStream != null ==>
        r == (if lazyStream.disposed then Fail(ObjectDisposed) else Pass) &&
        lazyStream.position == (if lazyStream.disposed then old(lazyStream.position) else 0) &&
        lazyStream.data == old(lazyStream.data) && lazyStream.disposed == old(lazyStream.disposed)
    {
      stages := stages + [Finalize];
      r := Pass;
      if lazyStream != null {
        r := lazyStream.SeekToBegin();
      }
    }
  }

  /** A result that reads ResponseStream and then installs a response of its
      own disposes the lazily created stream, which the final rewind then
      trips over. */
  method ReadThenReplaceFails(bytes: seq<byte>) returns (r: Outcome)
    ensures r == Fail(ObjectDisposed)
  {
    var hctx := new FunctionHandlerContext(InvocationRequest("", None));
    var lazy := hctx.ResponseStream();
    var replacement := new MemoryStream(bytes);
    hctx.SetResponse(replacement);
    r := hctx.FinalizeResponseStream();
  }

  /** A response installed directly is neither rewound nor disposed at the
      end when it is not owned. */
  method DirectResponseNotRewound(bytes: seq<byte>, at: nat) returns (r: Outcome, position: nat, disposed: bool)
    ensures r == Pass && position == at && !disposed
  {
    var hctx := new FunctionHandlerContext(InvocationRequest("", None));
    var s := new MemoryStream(bytes);
    s.position := at;
    hctx.SetResponse(s, false);
    r := hctx.FinalizeResponseStream();
    position, disposed := s.position, s.disposed;
  }
}
