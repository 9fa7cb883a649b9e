/** The uniform JSON envelope every endpoint answers with, as a record. */
module JsonEnvelope {
  import opened Wrappers

  /** What sits under the `data` key: a payload on success, a list of messages on error. */
  datatype Data<+T> = Payload(value: T) | Messages(list: seq<string>)

  /** `response()->json([...], code)`: the HTTP code and the keys of the array. */
  datatype Envelope<+T> = Envelope(code: int, status: string, message: string, data: Option<Data<T>>)

  /** An exception the request handler does not catch (the framework answers for it). */
  datatype Exception = ModelNotFound

  /** The outcome of one request: an envelope, or an exception that escaped. */
  datatype Reply<+T> = Sent(envelope: Envelope<T>) | Thrown(exception: Exception)

  /** The error messages an envelope carries: its `data` list, or none when the key is absent. */
  function ErrorList<T>(e: Envelope<T>): seq<string> {
    match e.data
    case Some(Messages(list)) => list
    case _ => []
  }
}
