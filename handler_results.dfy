/** Handler results (HandlerResult.cs): what a handler may return, the
    closed set of result kinds, and the coercion of a return value into one
    of them. How each kind is executed against a context is in
    ResultExecution. */
module HandlerResults {
  import opened Types
  import opened Json
  import opened Streams

  /** A handler's return value (`object?`), told apart by its runtime type. */
  datatype Obj =
    | Null
    | Str(s: string)
    | StreamObj(stream: MemoryStream)
    | StreamTuple(stream: MemoryStream, dispose: bool)  // a ValueTuple<Stream, bool>
    | OtherStreamPair(stream: MemoryStream, dispose: bool)
      // any other two-item tuple of a Stream and a bool, e.g. a (MemoryStream, bool)
    | ResultObj(result: HandlerResult)                 // an IHandlerResult
    | Plain(shape: Json)                               // any other object, by its JSON shape

  /** A fresh stream holding `bytes`, installed with the given flag. */
  datatype Replacement = Replacement(bytes: seq<byte>, disposeOutputStream: bool)

  /** The result kinds. The first four are the library's own classes;
      CustomResult stands for an IHandlerResult written by a user, which may
      read the context's ResponseStream and then install a response of its own. */
  datatype HandlerResult =
    | EmptyResult                                                   // EmptyHandlerResult.Instance
    | StringResult(text: string)                                    // StringHandlerResult
    | StreamResult(stream: MemoryStream, disposeOutputStream: bool) // StreamHandlerResult
    | JsonResult(value: Obj)                                        // JsonHandlerResult
    | CustomResult(readsResponseStream: bool, replacement: Option<Replacement>)

  /** JsonSerializer: the bytes of a value, or None when it cannot be serialised. */
  type Serializer = (SerializerOptions, Obj) -> Option<seq<byte>>

  /** The implicit conversion from a Stream: the stream is owned. */
  function FromStream(s: MemoryStream): HandlerResult { StreamResult(s, true) }

  /** The implicit conversion from a (Stream, bool) pair: the flag is kept. */
  function FromStreamTuple(s: MemoryStream, dispose: bool): HandlerResult { StreamResult(s, dispose) }

  /** The implicit conversion from a string. */
  function FromString(s: string): HandlerResult { StringResult(s) }

  /** HandlerResult.ToHandler: null, string, Stream and (Stream, bool) each
      have their own kind; every other value, an IHandlerResult included, is
      wrapped for JSON serialisation. The pair case matches the exact type
      ValueTuple<Stream, bool> only, so a pair whose first item is typed as
      a subclass of Stream is wrapped for JSON too. It never produces a
      custom result. */
  function ToHandler(value: Obj): (r: HandlerResult)
    ensures r == EmptyResult <==> value == Null
    ensures r.StringResult? <==> value.Str?
    ensures r.StreamResult? <==> value.StreamObj? || value.StreamTuple?
    ensures r.JsonResult? <==> value.ResultObj? || value.OtherStreamPair? || value.Plain?
    ensures !r.CustomResult?
  {
    match value
    case Null => EmptyResult
    case Str(s) => FromString(s)
    case StreamObj(s) => FromStream(s)
    case StreamTuple(s, d) => FromStreamTuple(s, d)
    case _ => JsonResult(value)
  }

  /** The value a result carries, as a handler could have returned it. */
  function Payload(r: HandlerResult): Obj {
    match r
    case EmptyResult => Null
    case StringResult(s) => Str(s)
    case StreamResult(s, d) => StreamTuple(s, d)
    case JsonResult(v) => v
    case CustomResult(_, _) => ResultObj(r)
  }

  /** ToHandler loses nothing but the difference between a bare stream and
      the same stream paired with `true`. */
  lemma ToHandlerKeepsPayload(value: Obj)
    ensures Payload(ToHandler(value)) ==
      if value.StreamObj? then StreamTuple(value.stream, true) else value
  {
  }

  /** Two return values coerce to the same result exactly when they are
      equal or are a stream and that stream paired with `true`. */
  lemma ToHandlerInjective(a: Obj, b: Obj)
    ensures ToHandler(a) == ToHandler(b) <==>
      a == b ||
      (a.StreamObj? && b == StreamTuple(a.stream, true)) ||
      (b.StreamObj? && a == StreamTuple(b.stream, true))
  {
    ToHandlerKeepsPayload(a);
    ToHandlerKeepsPayload(b);
  }

  /** The result EncodeResult executes: an IHandlerResult as it is, every
      other value (null included) through ToHandler. */
  function ExecutedResult(value: Obj): (r: HandlerResult)
    ensures value.ResultObj? ==> r == value.result
    ensures !value.ResultObj? ==> r == ToHandler(value) && !r.CustomResult?
  {
    if value.ResultObj? then value.result else ToHandler(value)
  }

  /** Returning the coerced result instead of the raw value changes nothing. */
  lemma ExecutedResultIdempotent(value: Obj)
    ensures ExecutedResult(ResultObj(ExecutedResult(value))) == ExecutedResult(value)
  {
  }

  /** The if/else chain of EncodeResult_OLD, as the result it amounts to:
      null, then IHandlerResult, then (Stream, bool), then Stream, then
      string, otherwise JSON. Its positional pattern `(Stream, bool)` tests
      the items of any two-item tuple, so every pair of a stream and a flag
      takes the stream branch. */
  function LegacyResult(value: Obj): HandlerResult {
    if value.Null? then EmptyResult
    else if value.ResultObj? then value.result
    else if value.StreamTuple? || value.OtherStreamPair? then StreamResult(value.stream, value.dispose)
    else if value.StreamObj? then StreamResult(value.stream, true)
    else if value.Str? then StringResult(value.s)
    else JsonResult(value)
  }

  /** Over the values Obj can express (a pair here always holds a stream),
      the old chain and the current coercion pick the same result except for
      a stream pair of another tuple type: the two precedence orders differ
      only between kinds that no value belongs to at once, but the old chain
      streams that pair where the coercion serialises it. */
  lemma LegacyResultAgrees(value: Obj)
    ensures LegacyResult(value) == ExecutedResult(value) <==> !value.OtherStreamPair?
    ensures value.OtherStreamPair? ==>
      LegacyResult(value) == StreamResult(value.stream, value.dispose) && ExecutedResult(value) == JsonResult(value)
  {
  }
}
