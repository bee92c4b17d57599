/** Event-shape matching (FunctionApp.Events.cs): the predefined matchers,
    the first-match-wins resolution over a registry of matchers, and the
    selection rules of AddBuiltInEventMatchers. The registry itself and the
    loops that fill and scan it are methods of App.FunctionApp. */
module EventMatchers {
  import opened Types
  import opened Json

  /** What DecodeEvent produces and what a context carries as EventValue. */
  datatype EventValue =
    | NoEvent                                  // null
    | Document(doc: Json)                      // the parsed JsonDocument itself
    | Event(eventType: TypeName, source: Json, options: SerializerOptions)
      // `source` deserialised as `eventType` with `options`

  /** A `Func<JsonDocument, bool>`; it may throw. */
  type MatchPredicate = Json -> Result<bool>

  datatype Matcher = Matcher(eventType: TypeName, matches: MatchPredicate)

  const S3EventType: TypeName := "Amazon.Lambda.S3Events.S3Event"
  const SnsEventType: TypeName := "Amazon.Lambda.SNSEvents.SNSEvent"
  const CloudWatchLogsEventType: TypeName := "Amazon.Lambda.CloudWatchLogsEvents.CloudWatchLogsEvent"
  const SesEventType: TypeName := "SESEvent"

  // ---------------------------------------------------------------------
  // Shape predicates

  /** The probe `Records[0].<key>` shared by the S3 and SNS matchers. */
  function MatchFirstRecord(doc: Json, key: string): Result<bool>
  {
    match TryGetProperty(doc, "Records")
    case Err(e) => Err(e)
    case Ok(None) => Ok(false)
    case Ok(Some(records)) =>
      if records.JArray? && |records.items| > 0 then
        match TryGetProperty(records.items[0], key)
        case Err(e) => Err(e)
        case Ok(p) => Ok(p.Some?)
      else
        Ok(false)
  }

  function MatchS3Event(doc: Json): Result<bool> { MatchFirstRecord(doc, "s3") }

  function MatchSNSEvent(doc: Json): Result<bool> { MatchFirstRecord(doc, "Sns") }

  /** Holds iff the root object has an `awslogs` member; a root that is not
      an object makes the probe throw. */
  function MatchCWLogsEvent(doc: Json): (r: Result<bool>)
    ensures r == Ok(true) <==> HasKey(doc, "awslogs")
    ensures r == Ok(false) <==> doc.JObject? && !HasKey(doc, "awslogs")
    ensures r == Err(InvalidOperation) <==> !doc.JObject?
  {
    match TryGetProperty(doc, "awslogs")
    case Err(e) => Err(e)
    case Ok(p) => Ok(p.Some?)
  }

  /** The SES entry: its shape cannot be told apart, so it never matches. */
  function NeverMatch(doc: Json): Result<bool> { Ok(false) }

  /** The predefined matchers, in their fixed order. */
  const DefaultEventMatchers: seq<Matcher> := [
    Matcher(S3EventType, MatchS3Event),
    Matcher(SnsEventType, MatchSNSEvent),
    Matcher(CloudWatchLogsEventType, MatchCWLogsEvent),
    Matcher(SesEventType, NeverMatch)
  ]

  const DefaultEventTypes: set<TypeName> := {S3EventType, SnsEventType, CloudWatchLogsEventType, SesEventType}

  // ---------------------------------------------------------------------
  // The documented shapes, stated independently of the probes

  ghost predicate HasKey(e: Json, key: string) {
    e.JObject? && exists k :: 0 <= k < |e.members| && e.members[k].name == key
  }

  /** Index `i` holds the member called `name` that lookup finds: the last one. */
  ghost predicate IsLastNamed(members: seq<Member>, i: int, name: string) {
    0 <= i < |members| && members[i].name == name &&
    forall j :: i < j < |members| ==> members[j].name != name
  }

  /** `Records[0].<key>` exists: the root's `Records` member is a non-empty
      array whose first element is an object with a `key` member. */
  ghost predicate FirstRecordHas(doc: Json, key: string) {
    doc.JObject? &&
    exists i :: IsLastNamed(doc.members, i, "Records") &&
      doc.members[i].value.JArray? && |doc.members[i].value.items| > 0 &&
      HasKey(doc.members[i].value.items[0], key)
  }

  /** The probe reaches a value that is not an object: the root, or the first
      element of a non-empty `Records` array. */
  ghost predicate FirstRecordProbeThrows(doc: Json) {
    !doc.JObject? ||
    exists i :: IsLastNamed(doc.members, i, "Records") &&
      doc.members[i].value.JArray? && |doc.members[i].value.items| > 0 &&
      !doc.members[i].value.items[0].JObject?
  }

  lemma LastNamedUnique(members: seq<Member>, i: int, j: int, name: string)
    requires IsLastNamed(members, i, name) && IsLastNamed(members, j, name)
    ensures i == j
  {
  }

  lemma MatchFirstRecordShape(doc: Json, key: string)
    ensures MatchFirstRecord(doc, key) == Ok(true) <==> FirstRecordHas(doc, key)
    ensures MatchFirstRecord(doc, key).Err? <==> FirstRecordProbeThrows(doc)
    ensures MatchFirstRecord(doc, key).Err? ==> MatchFirstRecord(doc, key).error == InvalidOperation
  {
    if doc.JObject? {
      var found := LastValue(doc.members, "Records");
      if found.Some? {
        var i :| 0 <= i < |doc.members| && doc.members[i] == Member("Records", found.value) &&
          forall j :: i < j < |doc.members| ==> doc.members[j].name != "Records";
        assert IsLastNamed(doc.members, i, "Records");
        forall i' | IsLastNamed(doc.members, i', "Records") ensures i' == i {
          LastNamedUnique(doc.members, i, i', "Records");
        }
      } else {
        forall i' ensures !IsLastNamed(doc.members, i', "Records") { }
      }
    }
  }

  /** The S3 matcher holds exactly for documents with a `Records[0].s3`
      member, and throws exactly when the probe meets a non-object. */
  lemma MatchS3EventShape(doc: Json)
    ensures MatchS3Event(doc) == Ok(true) <==> FirstRecordHas(doc, "s3")
    ensures MatchS3Event(doc) == Ok(false) <==> !FirstRecordHas(doc, "s3") && !FirstRecordProbeThrows(doc)
    ensures MatchS3Event(doc) == Err(InvalidOperation) <==> FirstRecordProbeThrows(doc)
  {
    MatchFirstRecordShape(doc, "s3");
  }

  /** The SNS matcher: the same probe with the case-sensitive key `Sns`. */
  lemma MatchSNSEventShape(doc: Json)
    ensures MatchSNSEvent(doc) == Ok(true) <==> FirstRecordHas(doc, "Sns")
    ensures MatchSNSEvent(doc) == Ok(false) <==> !FirstRecordHas(doc, "Sns") && !FirstRecordProbeThrows(doc)
    ensures MatchSNSEvent(doc) == Err(InvalidOperation) <==> FirstRecordProbeThrows(doc)
  {
    MatchFirstRecordShape(doc, "Sns");
  }

  // ---------------------------------------------------------------------
  // First-match-wins resolution (DecodeEvent)

  datatype Decoding =
    | Decoded(eventType: TypeName, eventValue: EventValue)
    | Undecoded
    | ProbeFailed(error: Error)   // a predicate threw; the exception propagates

  /** Every matcher before index `i` rejects the document. */
  ghost predicate RejectedBefore(ms: seq<Matcher>, doc: Json, i: int)
    requires 0 <= i <= |ms|
  {
    forall j :: 0 <= j < i ==> ms[j].matches(doc) == Ok(false)
  }

  /** The result of trying the matchers front to back: the first predicate
      that holds decides the type, and a predicate that throws ends the scan. */
  function FirstMatch(ms: seq<Matcher>, doc: Json): (d: Decoding)
    ensures d == Undecoded <==> RejectedBefore(ms, doc, |ms|)
    ensures d.Decoded? ==>
      exists i :: 0 <= i < |ms| && RejectedBefore(ms, doc, i) &&
        ms[i].matches(doc) == Ok(true) && d == Decoded(ms[i].eventType, Event(ms[i].eventType, doc, EventDecodingOptions))
    ensures d.ProbeFailed? ==>
      exists i :: 0 <= i < |ms| && RejectedBefore(ms, doc, i) && ms[i].matches(doc) == Err(d.error)
  {
    if |ms| == 0 then Undecoded
    else match ms[0].matches(doc)
      case Err(e) => ProbeFailed(e)
      case Ok(true) => Decoded(ms[0].eventType, Event(ms[0].eventType, doc, EventDecodingOptions))
      case Ok(false) =>
        RejectedBeforeTail(ms, doc);
        FirstMatch(ms[1..], doc)
  }

  /** Past a first matcher that rejects, "rejected before i + 1" in the whole
      list is "rejected before i" in its tail. */
  lemma RejectedBeforeTail(ms: seq<Matcher>, doc: Json)
    requires ms != [] && ms[0].matches(doc) == Ok(false)
    ensures forall i :: 0 <= i < |ms| ==> (RejectedBefore(ms, doc, i + 1) <==> RejectedBefore(ms[1..], doc, i))
  {
    assert forall j :: 1 <= j < |ms| ==> ms[j] == ms[1..][j - 1];
  }

  /** A first matcher that rejects is skipped. */
  lemma FirstMatchStep(ms: seq<Matcher>, doc: Json)
    requires ms != [] && ms[0].matches(doc) == Ok(false)
    ensures FirstMatch(ms, doc) == FirstMatch(ms[1..], doc)
  {
  }

  /** The converse: the first matcher whose predicate holds is the one
      chosen, whatever the matchers after it say. */
  lemma {:induction false} FirstMatchChoosesFirst(ms: seq<Matcher>, doc: Json, i: int)
    requires 0 <= i < |ms| && RejectedBefore(ms, doc, i) && ms[i].matches(doc) == Ok(true)
    ensures FirstMatch(ms, doc) == Decoded(ms[i].eventType, Event(ms[i].eventType, doc, EventDecodingOptions))
  {
    if i > 0 {
      assert ms[0].matches(doc) == Ok(false);
      assert ms[1..][i - 1] == ms[i];
      FirstMatchChoosesFirst(ms[1..], doc, i - 1);
    }
  }

  /** Appending keeps the head and appends to the tail. */
  lemma ConcatHeadTail(ms: seq<Matcher>, later: seq<Matcher>)
    requires ms != []
    ensures (ms + later)[0] == ms[0] && (ms + later)[1..] == ms[1..] + later
  {
  }

  /** Registering further matchers never changes a decided outcome: the
      matchers after the deciding one are not consulted. */
  lemma {:induction false} FirstMatchIgnoresLater(ms: seq<Matcher>, later: seq<Matcher>, doc: Json)
    requires FirstMatch(ms, doc) != Undecoded
    ensures FirstMatch(ms + later, doc) == FirstMatch(ms, doc)
  {
    var all := ms + later;
    ConcatHeadTail(ms, later);
    match ms[0].matches(doc)
    case Ok(true) =>
    case Err(_) =>
    case Ok(false) =>
      FirstMatchStep(ms, doc);
      FirstMatchStep(all, doc);
      FirstMatchIgnoresLater(ms[1..], later, doc);
  }

  /** When no earlier matcher decides, the outcome is that of the later ones. */
  lemma {:induction false} FirstMatchFallsThrough(ms: seq<Matcher>, later: seq<Matcher>, doc: Json)
    requires FirstMatch(ms, doc) == Undecoded
    ensures FirstMatch(ms + later, doc) == FirstMatch(later, doc)
  {
    if ms == [] {
      assert ms + later == later;
    } else {
      assert (ms + later)[0] == ms[0];
      assert (ms + later)[1..] == ms[1..] + later;
      FirstMatchFallsThrough(ms[1..], later, doc);
    }
  }

  // ---------------------------------------------------------------------
  // AddBuiltInEventMatchers

  /** The first matcher registered under `name` (the by-type dictionary
      built from the predefined list, whose names are distinct). */
  function LookupMatcher(ms: seq<Matcher>, name: TypeName): (r: Option<MatchPredicate>)
    ensures r.None? <==> forall i :: 0 <= i < |ms| ==> ms[i].eventType != name
    ensures r.Some? ==>
      exists i :: 0 <= i < |ms| && ms[i] == Matcher(name, r.value) &&
        forall j :: 0 <= j < i ==> ms[j].eventType != name
  {
    if ms == [] then None
    else if ms[0].eventType == name then Some(ms[0].matches)
    else
      var r := LookupMatcher(ms[1..], name);
      assert forall j :: 1 <= j < |ms| ==> ms[j] == ms[1..][j - 1];
      r
  }

  function DefaultPredicate(name: TypeName): (r: Option<MatchPredicate>)
    ensures r.Some? <==> name in DefaultEventTypes
    ensures r.Some? ==> Matcher(name, r.value) in DefaultEventMatchers
  {
    assert DefaultEventMatchers[0].eventType == S3EventType;
    assert DefaultEventMatchers[1].eventType == SnsEventType;
    assert DefaultEventMatchers[2].eventType == CloudWatchLogsEventType;
    assert DefaultEventMatchers[3].eventType == SesEventType;
    LookupMatcher(DefaultEventMatchers, name)
  }

  /** The number of leading names that have a predefined matcher: the index
      of the first unsupported name, or the length when all are supported. */
  function SupportedPrefix(names: seq<TypeName>): (k: nat)
    ensures k <= |names|
    ensures forall i :: 0 <= i < k ==> names[i] in DefaultEventTypes
    ensures k < |names| ==> names[k] !in DefaultEventTypes
  {
    if names == [] || names[0] !in DefaultEventTypes then 0
    else 1 + SupportedPrefix(names[1..])
  }

  /** The predefined matchers for the selected names, in the order given. */
  function SelectedMatchers(names: seq<TypeName>): (r: seq<Matcher>)
    requires forall i :: 0 <= i < |names| ==> names[i] in DefaultEventTypes
    ensures |r| == |names|
    ensures forall i :: 0 <= i < |names| ==>
      r[i].eventType == names[i] && r[i] in DefaultEventMatchers
  {
    if names == [] then []
    else
      var last := names[|names| - 1];
      SelectedMatchers(names[..|names| - 1]) + [Matcher(last, DefaultPredicate(last).value)]
  }

  /** Selecting one more supported name appends its predefined matcher. */
  lemma SelectedMatchersStep(names: seq<TypeName>, i: nat)
    requires i < |names| && forall j :: 0 <= j <= i ==> names[j] in DefaultEventTypes
    ensures SelectedMatchers(names[..i + 1]) ==
      SelectedMatchers(names[..i]) + [Matcher(names[i], DefaultPredicate(names[i]).value)]
  {
    assert names[..i + 1][..i] == names[..i];
  }

  /** The supported prefix ends at the first unsupported name. */
  lemma {:induction false} SupportedPrefixAt(names: seq<TypeName>, i: nat)
    requires i <= |names| && forall j :: 0 <= j < i ==> names[j] in DefaultEventTypes
    requires i < |names| ==> names[i] !in DefaultEventTypes
    ensures SupportedPrefix(names) == i
  {
    if i > 0 {
      SupportedPrefixAt(names[1..], i - 1);
    }
  }

  /** The predefined matchers whose type name resolves, in the predefined order. */
  function ResolvableMatchers(ms: seq<Matcher>, resolvable: set<TypeName>): (r: seq<Matcher>)
    ensures |r| <= |ms|
    ensures forall m :: m in r <==> m in ms && m.eventType in resolvable
  {
    if ms == [] then []
    else
      var init := ms[..|ms| - 1];
      var last := ms[|ms| - 1];
      assert ms == init + [last];
      ResolvableMatchers(init, resolvable) + (if last.eventType in resolvable then [last] else [])
  }

  /** When every type name resolves, the null selection adds the whole
      predefined list. */
  lemma {:induction false} ResolvableMatchersAll(ms: seq<Matcher>, resolvable: set<TypeName>)
    requires forall i :: 0 <= i < |ms| ==> ms[i].eventType in resolvable
    ensures ResolvableMatchers(ms, resolvable) == ms
  {
    if ms != [] {
      var n := |ms| - 1;
      var init, last := ms[..n], ms[n];
      assert init + [last] == ms;
      assert last.eventType in resolvable;
      ResolvableMatchersAll(init, resolvable);
    }
  }

  ghost predicate StrictlyIncreasing(idx: seq<nat>) {
    forall a, b :: 0 <= a < b < |idx| ==> idx[a] < idx[b]
  }

  /** The positions of `ms` whose type name resolves, in increasing order. */
  ghost function ResolvablePositions(ms: seq<Matcher>, resolvable: set<TypeName>): (idx: seq<nat>)
    ensures StrictlyIncreasing(idx)
    ensures forall k :: 0 <= k < |idx| ==> idx[k] < |ms| && ms[idx[k]].eventType in resolvable
    ensures forall i :: 0 <= i < |ms| && ms[i].eventType in resolvable ==> i in idx
  {
    if ms == [] then []
    else
      var n := |ms| - 1;
      var init := ResolvablePositions(ms[..n], resolvable);
      assert forall i :: 0 <= i < n ==> ms[..n][i] == ms[i];
      init + (if ms[n].eventType in resolvable then [n] else [])
  }

  /** The resolvable matchers form a subsequence of the list: they are the
      matchers at the resolvable positions, taken in increasing order. */
  lemma {:induction false} ResolvableMatchersKeepOrder(ms: seq<Matcher>, resolvable: set<TypeName>)
    ensures |ResolvableMatchers(ms, resolvable)| == |ResolvablePositions(ms, resolvable)|
    ensures forall k :: 0 <= k < |ResolvablePositions(ms, resolvable)| ==>
      ResolvableMatchers(ms, resolvable)[k] == ms[ResolvablePositions(ms, resolvable)[k]]
  {
    if ms != [] {
      var n := |ms| - 1;
      var init := ms[..n];
      ResolvableMatchersKeepOrder(init, resolvable);
      var r0, idx0 := ResolvableMatchers(init, resolvable), ResolvablePositions(init, resolvable);
      var r, idx := ResolvableMatchers(ms, resolvable), ResolvablePositions(ms, resolvable);
      if ms[n].eventType in resolvable {
        assert r == r0 + [ms[n]] && idx == idx0 + [n];
      } else {
        assert r == r0 && idx == idx0;
      }
      forall k | 0 <= k < |idx| ensures r[k] == ms[idx[k]] {
        if k < |idx0| {
          assert r[k] == r0[k] == init[idx0[k]];
        }
      }
    }
  }
}
