/** Executing a handler result against a context (the ExecuteResultAsync
    overrides in HandlerResult.cs): each result kind installs its response in
    its own way. */
module ResultExecution {
  import opened Types
  import opened Streams
  import opened HandlerResults
  import opened HandlerContext
  import Utf8

  /** The response is now `(stream, dispose)`, the one it replaced was
      released, and the lazily created stream is as it was. */
  twostate predicate Replaced(hctx: FunctionHandlerContext, stream: MemoryStream, dispose: bool)
    reads *
  {
    hctx.response == Some(Response(stream, dispose)) &&
    hctx.lazyStream == old(hctx.lazyStream) &&
    Released(old(hctx.response))
  }

  /** The response is a stream created during the call, holding `bytes`,
      unread and not disposed. */
  twostate predicate FreshResponse(hctx: FunctionHandlerContext, bytes: seq<byte>, dispose: bool)
    reads *
  {
    hctx.response.Some? && hctx.response.value.disposeOutputStream == dispose &&
    var s := hctx.response.value.outputStream;
    fresh(s) && s.data == bytes && s.position == 0 && !s.disposed
  }

  /** A JSON result: the value's bytes, or None when the serializer rejects
      it, are written to the context's ResponseStream, which is created and
      installed as an owned response if it did not exist yet. */
  twostate predicate WroteJson(hctx: FunctionHandlerContext, new bytes: Option<seq<byte>>, r: Outcome)
    reads *
  {
    var before := old(hctx.lazyStream);
    var s := hctx.lazyStream;
    s != null &&
    (before == null ==>
      fresh(s) && !s.disposed && hctx.response == Some(Response(s, true)) &&
      Released(old(hctx.response)) &&
      (bytes.None? ==> r == Fail(SerializationFailed) && s.data == [] && s.position == 0) &&
      (bytes.Some? ==> r == Pass && s.data == bytes.value && s.position == |bytes.value|)) &&
    (before != null ==>
      s == before && hctx.response == old(hctx.response) && s.disposed == old(s.disposed) &&
      (bytes.None? || s.disposed ==>
        r == (if bytes.None? then Fail(SerializationFailed) else Fail(ObjectDisposed)) &&
        s.data == old(s.data) && s.position == old(s.position)) &&
      (bytes.Some? && !s.disposed ==>
        r == Pass && s.data == Overwrite(old(s.data), old(s.position), bytes.value) &&
        s.position == old(s.position) + |bytes.value|))
  }

  /** A custom result: an optional read of ResponseStream, then an optional
      SetResponse with a fresh stream. */
  twostate predicate RanCustom(hctx: FunctionHandlerContext, readsResponseStream: bool,
                               replacement: Option<Replacement>, r: Outcome)
    reads *
  {
    var created := readsResponseStream && old(hctx.lazyStream) == null;
    r == Pass &&
    (created ==>
      hctx.lazyStream != null && fresh(hctx.lazyStream) &&
      hctx.lazyStream.data == [] && hctx.lazyStream.position == 0) &&
    (!created ==> hctx.lazyStream == old(hctx.lazyStream)) &&
    (created || replacement.Some? ==> Released(old(hctx.response))) &&
    (replacement.None? ==>
      (created ==> hctx.response == Some(Response(hctx.lazyStream, true)) && !hctx.lazyStream.disposed) &&
      (!created ==> hctx.response == old(hctx.response))) &&
    (replacement.Some? ==>
      FreshResponse(hctx, replacement.value.bytes, replacement.value.disposeOutputStream) &&
      hctx.response.value.outputStream != hctx.lazyStream &&
      (created ==> hctx.lazyStream.disposed))
  }

  /** The effect of executing `hr` on `hctx`, JSON being written with `options`:
      - Empty installs the shared empty stream, not owned;
      - String installs a fresh owned stream holding the UTF-8 bytes;
      - Stream installs the result's own stream with its own flag;
      - Json writes through ResponseStream (a null value throws);
      - a custom result does what it was written to do. */
  twostate predicate ExecutedAs(hctx: FunctionHandlerContext, hr: HandlerResult, emptyStream: MemoryStream,
                                serialize: Serializer, options: SerializerOptions, r: Outcome)
    reads *
  {
    match hr
    case EmptyResult =>
      r == Pass && Replaced(hctx, emptyStream, false)
    case StringResult(text) =>
      r == Pass && hctx.lazyStream == old(hctx.lazyStream) &&
      FreshResponse(hctx, Utf8.Encode(text), true) && Released(old(hctx.response))
    case StreamResult(stream, dispose) =>
      r == Pass && Replaced(hctx, stream, dispose)
    case JsonResult(value) =>
      if value.Null? then
        r == Fail(NullReference) && hctx.response == old(hctx.response) && hctx.lazyStream == old(hctx.lazyStream)
      else
        WroteJson(hctx, serialize(options, value), r)
    case CustomResult(readsResponseStream, replacement) =>
      RanCustom(hctx, readsResponseStream, replacement, r)
  }

  /** The response one invocation hands back: a stream created during the
      invocation, holding these bytes and rewound, or a stream that existed
      before it; each with its ownership flag. */
  datatype Delivery = NewStream(bytes: seq<byte>, owned: bool) | GivenStream(stream: MemoryStream, owned: bool)

  /** Executing the result throws: a JSON result of null, or one the
      serializer rejects. */
  predicate EncodeThrows(hr: HandlerResult, serialize: Serializer) {
    hr.JsonResult? && (hr.value.Null? || serialize(ResultOptions, hr.value).None?)
  }

  /** The final rewind throws: the result read ResponseStream, creating the
      owned lazy stream, and then installed a response of its own, which
      disposed that stream. */
  predicate FinalizeThrows(hr: HandlerResult) {
    hr.CustomResult? && hr.readsResponseStream && hr.replacement.Some?
  }

  /** EncodeResult, FinalizeResponseStream and the `Response ?? EmptyResponse`
      fallback on a fresh context. */
  function Deliver(hr: HandlerResult, emptyStream: MemoryStream, serialize: Serializer): Result<Delivery> {
    match hr
    case EmptyResult => Ok(GivenStream(emptyStream, false))
    case StringResult(text) => Ok(NewStream(Utf8.Encode(text), true))
    case StreamResult(stream, dispose) => Ok(GivenStream(stream, dispose))
    case JsonResult(value) =>
      if value.Null? then Err(NullReference)
      else if serialize(ResultOptions, value).None? then Err(SerializationFailed)
      else Ok(NewStream(serialize(ResultOptions, value).value, true))
    case CustomResult(readsResponseStream, replacement) =>
      if readsResponseStream && replacement.Some? then Err(ObjectDisposed)
      else if readsResponseStream then Ok(NewStream([], true))
      else if replacement.Some? then Ok(NewStream(replacement.value.bytes, replacement.value.disposeOutputStream))
      else Ok(GivenStream(emptyStream, false))
  }

  /** The state an execution leaves on a fresh context, seen from the end
      of the invocation: the final rewind throws on a disposed lazy stream,
      and otherwise the rewind and the EmptyResponse fallback turn it into
      the delivery `d`. */
  predicate Ready(hctx: FunctionHandlerContext, emptyStream: MemoryStream, d: Result<Delivery>)
    reads hctx, hctx.LazyFrame(), if hctx.response.Some? then {hctx.response.value.outputStream} else {}
  {
    match d
    case Err(e) => e == ObjectDisposed && hctx.lazyStream != null && hctx.lazyStream.disposed
    case Ok(NewStream(bytes, owned)) =>
      hctx.response.Some? && hctx.response.value.disposeOutputStream == owned &&
      (hctx.lazyStream != null ==> !hctx.lazyStream.disposed) &&
      var s := hctx.response.value.outputStream;
      s.data == bytes && !s.disposed && (s == hctx.lazyStream || s.position == 0)
    case Ok(GivenStream(stream, owned)) =>
      hctx.lazyStream == null &&
      (hctx.response == Some(Response(stream, owned)) || (hctx.response == None && stream == emptyStream && !owned))
  }

  /** Executing a result on a context that has no response and no lazy
      stream yet throws exactly when encoding throws, and otherwise leaves
      the state Deliver describes; every stream it installs is new. */
  twostate predicate FromFreshContext(hctx: FunctionHandlerContext, hr: HandlerResult, emptyStream: MemoryStream,
                                      serialize: Serializer, r: Outcome)
    reads *
  {
    var d := Deliver(hr, emptyStream, serialize);
    (r.Fail? <==> EncodeThrows(hr, serialize)) &&
    (r.Fail? ==> d == Err(r.error)) &&
    (r.Pass? ==> Ready(hctx, emptyStream, d)) &&
    (hctx.lazyStream != null ==> fresh(hctx.lazyStream)) &&
    (r.Pass? && d.Ok? && d.value.NewStream? ==> fresh(hctx.response.value.outputStream))
  }

  /** The frame of executing a result: the response, the lazy stream, the
      owned response stream and, for JSON, the lazy stream's contents. */
  function ExecutionFrame(hctx: FunctionHandlerContext, hr: HandlerResult): set<object>
    reads hctx
  {
    hctx.OwnedStream() + (if hr.JsonResult? then hctx.LazyFrame() else {})
  }

  /** Serialises `value` into the context's ResponseStream. */
  method WriteJson(hctx: FunctionHandlerContext, value: Obj, serialize: Serializer, options: SerializerOptions)
    returns (r: Outcome)
    modifies hctx`response, hctx`lazyStream, hctx.OwnedStream(), hctx.LazyFrame()
    ensures WroteJson(hctx, serialize(options, value), r)
  {
    var s := hctx.ResponseStream();
    var bytes := serialize(options, value);
    if bytes.None? {
      return Fail(SerializationFailed);
    }
    r := s.Write(bytes.value);
  }

  /** ExecuteResultAsync of each result kind. */
  method ExecuteResult(hr: HandlerResult, hctx: FunctionHandlerContext, emptyStream: MemoryStream, serialize: Serializer)
    returns (r: Outcome)
    modifies hctx`response, hctx`lazyStream, ExecutionFrame(hctx, hr)
    ensures ExecutedAs(hctx, hr, emptyStream, serialize, ResultOptions, r)
    ensures old(hctx.response) == None && old(hctx.lazyStream) == null ==>
      FromFreshContext(hctx, hr, emptyStream, serialize, r)
  {
    match hr
    case EmptyResult =>
      hctx.SetResponse(emptyStream, false);
      r := Pass;
    case StringResult(text) =>
      var s := new MemoryStream(Utf8.Encode(text));
      hctx.SetResponse(s, true);
      r := Pass;
    case StreamResult(stream, dispose) =>
      hctx.SetResponse(stream, dispose);
      r := Pass;
    case JsonResult(value) =>
      if value.Null? {
        r := Fail(NullReference);
      } else {
        r := WriteJson(hctx, value, serialize, ResultOptions);
      }
    case CustomResult(readsResponseStream, replacement) =>
      if readsResponseStream {
        var _ := hctx.ResponseStream();
      }
      if replacement.Some? {
        var s := new MemoryStream(replacement.value.bytes);
        hctx.SetResponse(s, replacement.value.disposeOutputStream);
      }
      r := Pass;
  }
}
