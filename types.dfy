/** Vocabulary shared by every part of the hosting core: type names, bytes,
    optional values and the exceptions the core raises, as values. */
module Types {

  /** A .NET type, identified by its full name (`Type.FullName`). */
  type TypeName = string

  newtype byte = x: int | 0 <= x < 256

  datatype Option<T> = None | Some(value: T)

  /** The exceptions the modelled code raises or lets through. */
  datatype Error =
    | InvalidOperation            // JsonElement.TryGetProperty on a value that is not an object
    | InvalidJson                 // JsonDocument.Parse rejects the request payload
    | NotSupported(name: TypeName) // no predefined event matcher for a selected type
    | DuplicateKey(key: TypeName) // Dictionary.Add with a key that is already present
    | DefaultAlreadyRegistered    // a second HandleDefault* registration
    | NoHandlerForEvent(eventType: TypeName) // an event was decoded but nobody handles its type
    | NoDefaultHandler            // nothing matched and there is no default handler
    | InvalidCast                 // a handler wrapper cannot cast the value it is given
    | HandlerFailed(reason: string) // the handler itself threw
    | NullReference               // a JsonHandlerResult whose Value is null
    | SerializationFailed         // JsonSerializer cannot serialise the value
    | ObjectDisposed              // a disposed stream was written to or sought

  /** The `JsonSerializerOptions` the core reads or writes JSON with. */
  datatype SerializerOptions =
    | DefaultOptions       // the serializer's defaults (no options given)
    | EventDecodingOptions // the app's own event-decoding options (DecodeEvent)
    | ResultOptions        // the context's options for JSON results

  /** The value of an operation that may throw. */
  datatype Result<T> = Ok(value: T) | Err(error: Error)

  /** The completion of a void operation that may throw. */
  datatype Outcome = Pass | Fail(error: Error)
}
