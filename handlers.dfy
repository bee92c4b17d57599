/** Handler registration values (FunctionApp.Handlers.cs): the wrappers each
    HandleEvent and HandleDefault overload stores, and what a stored wrapper
    passes to the user's code when it is invoked. The registry fields and
    the registration methods are members of App.FunctionApp. */
module Handlers {
  import opened Types
  import opened Json
  import opened EventMatchers
  import opened HandlerResults

  /** The user's code behind a handler: a delegate given at registration, or
      an IFunctionHandler class activated from the scope's services. */
  datatype HandlerBody = Delegate(id: nat) | Activated(handlerType: TypeName)

  /** The stored wrapper (`Func<IServiceProvider, object?, Task<object?>>`). */
  datatype Handler =
    | EventHandler(eventType: TypeName, body: HandlerBody)   // HandleEvent: casts to TEvent
    | DocumentHandler(body: HandlerBody)                     // HandleDefault: casts to JsonDocument
    | DecodingHandler(eventType: TypeName, body: HandlerBody) // HandleDefaultEvent: deserialises when invoked

  /** What running user code gives back: a value, or an exception. */
  datatype HandlerOutcome = Returned(value: Obj) | Threw(error: Error)

  /** The behaviour of every piece of user code, supplied from outside. */
  type HandlerCode = (HandlerBody, EventValue) -> HandlerOutcome

  /** The values a wrapper's cast accepts: null, and otherwise the decoded
      event of its own type (typed handlers) or the document (defaults). */
  predicate Accepts(h: Handler, arg: EventValue) {
    match arg
    case NoEvent => true
    case Document(_) => !h.EventHandler?
    case Event(t, _, _) => h.EventHandler? && t == h.eventType
  }

  /** The value a wrapper hands to its code: a decoding wrapper deserialises
      the document to its event type with the serializer's default options
      (not the app's event-decoding options); the others pass the value
      through. */
  function Argument(h: Handler, arg: EventValue): EventValue {
    if h.DecodingHandler? && arg.Document? then Event(h.eventType, arg.doc, DefaultOptions) else arg
  }

  /** Invoking a stored wrapper with the context's EventValue: a value its
      cast accepts reaches the user's code (deserialised first by a decoding
      wrapper, so null stays null); any other value throws InvalidCast. */
  function Invoke(h: Handler, arg: EventValue, code: HandlerCode): (r: HandlerOutcome)
    ensures Accepts(h, arg) ==> r == code(h.body, Argument(h, arg))
    ensures !Accepts(h, arg) ==> r == Threw(InvalidCast)
  {
    match h
    case EventHandler(t, b) =>
      if arg.NoEvent? || (arg.Event? && arg.eventType == t) then code(b, arg) else Threw(InvalidCast)
    case DocumentHandler(b) =>
      if arg.NoEvent? || arg.Document? then code(b, arg) else Threw(InvalidCast)
    case DecodingHandler(t, b) =>
      match arg
      case NoEvent => code(b, NoEvent)
      case Document(d) => code(b, Event(t, d, DefaultOptions))
      case Event(_, _, _) => Threw(InvalidCast)
  }

  /** The registry shape the registration methods keep: a typed handler is
      filed under its own event type, and the default slot only ever holds a
      default wrapper. */
  ghost predicate WellFormed(handlers: map<TypeName, Handler>, default: Option<Handler>) {
    (forall t :: t in handlers ==> handlers[t].EventHandler? && handlers[t].eventType == t) &&
    (default.Some? ==> !default.value.EventHandler?)
  }
}
