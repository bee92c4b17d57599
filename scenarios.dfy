/** Worked invocations of FunctionApp on concrete registrations and
    documents, each proved against the contracts of the pipeline. */
module Scenarios {
  import opened Types
  import opened Json
  import opened Streams
  import opened EventMatchers
  import opened HandlerResults
  import opened Handlers
  import opened HandlerContext
  import opened Dispatch
  import opened App
  import Utf8

  /** `{"Records": [{"s3": {}}]}`: the shape of a bucket notification. */
  const S3Document: Json := JObject([Member("Records", JArray([JObject([Member("s3", JObject([]))])]))])

  /** `{"Records": [{"S3": {}}]}`: the same record with the member name
      capitalised. */
  const PascalS3Document: Json := JObject([Member("Records", JArray([JObject([Member("S3", JObject([]))])]))])

  /** `{"awslogs": {}}`: the shape of a CloudWatch Logs subscription. */
  const LogsDocument: Json := JObject([Member("awslogs", JObject([]))])

  /** A second HandleDefault throws and keeps the first: the invocation
      runs the first default, whose string comes back as a new owned stream
      holding its UTF-8 bytes. */
  method SecondDefaultRejected(serialize: Serializer) returns (first: Outcome, second: Outcome, r: Result<Response>)
    ensures first == Pass && second == Fail(DefaultAlreadyRegistered)
    ensures r.Ok? && r.value.disposeOutputStream
    ensures r.value.outputStream.data == Utf8.Encode("first") && r.value.outputStream.position == 0
  {
    var app := new FunctionApp();
    first := app.HandleDefault(Delegate(1));
    second := app.HandleDefault(Delegate(2));
    var code: HandlerCode := (b, e) => if b == Delegate(1) then Returned(Str("first")) else Returned(Null);
    ghost var stages;
    r, stages := app.RouteEventToHandler(InvocationRequest("1", Some(JObject([]))), code, serialize);
  }

  /** A handler that returns null gets the shared empty stream back, not
      owned, empty and unread. */
  method NullReturnGivesEmptyResponse(serialize: Serializer) returns (r: Result<Response>)
    ensures r.Ok? && !r.value.disposeOutputStream
    ensures r.value.outputStream.data == [] && r.value.outputStream.position == 0 && !r.value.outputStream.disposed
  {
    var app := new FunctionApp();
    var _ := app.HandleDefault(Delegate(0));
    var code: HandlerCode := (b, e) => Returned(Null);
    ghost var stages;
    r, stages := app.RouteEventToHandler(InvocationRequest("1", Some(JObject([]))), code, serialize);
  }

  /** A payload that is not JSON fails in resolution: no handler runs and
      only the resolution stage is recorded. */
  method InvalidJsonFailsFirst(serialize: Serializer) returns (r: Result<Response>, ghost stages: seq<Stage>)
    ensures r == Err(InvalidJson) && stages == [Resolve]
  {
    var app := new FunctionApp();
    var _ := app.HandleDefault(Delegate(0));
    var code: HandlerCode := (b, e) => Returned(Null);
    r, stages := app.RouteEventToHandler(InvocationRequest("1", None), code, serialize);
  }

  /** A document some matcher accepts, with no handler filed under that
      type, fails even though a default exists: the default only takes
      documents no matcher accepted. */
  method MatchedButUnhandled(serialize: Serializer) returns (r: Result<Response>)
    ensures r == Err(NoHandlerForEvent("MyApp.BucketNotification"))
  {
    var app := new FunctionApp();
    app.AddEventMatcher("MyApp.BucketNotification", MatchS3Event);
    var _ := app.HandleDefault(Delegate(0));
    var code: HandlerCode := (b, e) => Returned(Null);
    ghost var stages;
    r, stages := app.RouteEventToHandler(InvocationRequest("1", Some(S3Document)), code, serialize);
  }

  /** A matcher registered under a type of the user's choosing decodes a
      bucket notification as that type. */
  method CustomMatcherDecodes() returns (d: Decoding)
    ensures d == Decoded("MyApp.BucketNotification", Event("MyApp.BucketNotification", S3Document, EventDecodingOptions))
  {
    var app := new FunctionApp();
    app.AddEventMatcher("MyApp.BucketNotification", MatchS3Event);
    d := app.DecodeEvent(S3Document);
  }

  /** With all predefined matchers added, a logs subscription is rejected by
      the S3 and SNS probes and decoded as a CloudWatch Logs event. */
  method BuiltInsDecodeLogs() returns (d: Decoding)
    ensures d == Decoded(CloudWatchLogsEventType, Event(CloudWatchLogsEventType, LogsDocument, EventDecodingOptions))
  {
    var app := new FunctionApp();
    var _ := app.AddBuiltInEventMatchers(None, DefaultEventTypes);
    ResolvableMatchersAll(DefaultEventMatchers, DefaultEventTypes);
    assert app.eventMatchers == DefaultEventMatchers;
    d := app.DecodeEvent(LogsDocument);
    DefaultsDecodeLogs();
  }

  /** The S3 and SNS probes find no `Records` member in a logs document;
      the CloudWatch Logs probe finds `awslogs`. */
  lemma DefaultsDecodeLogs()
    ensures FirstMatch(DefaultEventMatchers, LogsDocument) ==
      Decoded(CloudWatchLogsEventType, Event(CloudWatchLogsEventType, LogsDocument, EventDecodingOptions))
  {
    assert LastValue(LogsDocument.members, "Records") == None;
    assert DefaultEventMatchers[0].matches(LogsDocument) == Ok(false);
    assert DefaultEventMatchers[1].matches(LogsDocument) == Ok(false);
    assert DefaultEventMatchers[2].matches(LogsDocument) == Ok(true);
    FirstMatchChoosesFirst(DefaultEventMatchers, LogsDocument, 2);
  }

  /** An empty selection is not the null selection: it adds nothing. */
  method EmptySelectionAddsNothing() returns (r: Outcome, count: nat)
    ensures r == Pass && count == 0
  {
    var app := new FunctionApp();
    r := app.AddBuiltInEventMatchers(Some([]), DefaultEventTypes);
    count := |app.eventMatchers|;
  }

  /** An unsupported name in a selection throws; the names before it keep
      their matchers and the names after it are not looked at. */
  method UnsupportedNameStopsSelection() returns (r: Outcome, added: seq<TypeName>)
    ensures r == Fail(NotSupported("Custom")) && added == [SnsEventType]
  {
    var app := new FunctionApp();
    r := app.AddBuiltInEventMatchers(Some([SnsEventType, "Custom", S3EventType]), DefaultEventTypes);
    added := seq(|app.eventMatchers|, i requires 0 <= i < |app.eventMatchers| reads app => app.eventMatchers[i].eventType);
  }

  /** A string result of ASCII characters has one byte per character. */
  method AsciiTextLength(text: string, serialize: Serializer) returns (length: nat)
    requires forall i :: 0 <= i < |text| ==> (text[i] as int) < 0x80
    ensures length == |text|
  {
    var app := new FunctionApp();
    var _ := app.HandleDefault(Delegate(0));
    var code: HandlerCode := (b, e) => Returned(Str(text));
    var r;
    ghost var stages;
    r, stages := app.RouteEventToHandler(InvocationRequest("1", Some(JObject([]))), code, serialize);
    Utf8.EncodeAscii(text);
    length := |r.value.outputStream.data|;
  }

  /** The sample wiring: the S3 matcher only, and a default that decodes to
      the S3 event type. A notification whose record has a lower-case `s3`
      member is matched as that type, for which no typed handler exists, so
      the invocation fails instead of reaching the default. */
  method SampleAppMatchedNotification(serialize: Serializer) returns (r: Result<Response>)
    ensures r == Err(NoHandlerForEvent(S3EventType))
  {
    var app := new FunctionApp();
    var _ := app.AddBuiltInEventMatchers(Some([S3EventType]), {});
    var _ := app.HandleDefaultEventWith(S3EventType, "Function");
    var code: HandlerCode := (b, e) => Returned(Null);
    ghost var stages;
    r, stages := app.RouteEventToHandler(InvocationRequest("1", Some(S3Document)), code, serialize);
  }

  /** The same wiring on a record whose member is spelled `S3`: the
      case-sensitive probe rejects it, and the default handler receives the
      document decoded as the S3 event type (its code returns null only on
      that argument), and the null return yields the empty response. */
  method SampleAppUnmatchedNotification(serialize: Serializer) returns (r: Result<Response>)
    ensures r.Ok? && !r.value.disposeOutputStream && r.value.outputStream.data == []
  {
    var app := new FunctionApp();
    var _ := app.AddBuiltInEventMatchers(Some([S3EventType]), {});
    var _ := app.HandleDefaultEventWith(S3EventType, "Function");
    var code: HandlerCode := (b, e) => if e == Event(S3EventType, PascalS3Document, DefaultOptions) then Returned(Null) else Returned(Str("?"));
    ghost var stages;
    r, stages := app.RouteEventToHandler(InvocationRequest("1", Some(PascalS3Document)), code, serialize);
  }

  /** A handler that returns a pair typed `(MemoryStream, bool)` has the
      pair serialised as JSON into a new owned stream: the stream in the
      pair is not handed back, and its flag is ignored. */
  method OtherPairIsSerialised(s: MemoryStream, serialize: Serializer) returns (r: Result<Response>)
    ensures r.Ok? <==> serialize(ResultOptions, OtherStreamPair(s, false)).Some?
    ensures r.Ok? ==> r.value.disposeOutputStream && r.value.outputStream != s
    ensures r.Ok? ==> r.value.outputStream.data == serialize(ResultOptions, OtherStreamPair(s, false)).value
  {
    var app := new FunctionApp();
    var _ := app.HandleDefault(Delegate(0));
    var code: HandlerCode := (b, e) => Returned(OtherStreamPair(s, false));
    ghost var stages;
    r, stages := app.RouteEventToHandler(InvocationRequest("1", Some(JObject([]))), code, serialize);
  }
}
