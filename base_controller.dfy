/**
 * The envelope builders of the API base controller. The controller repeats the
 * Response model's code; it is modelled separately and shown to agree with it.
 */
module BaseController {
  import opened Wrappers
  import opened JsonEnvelope
  import Response

  /** sendResponse: HTTP 200, status "ok", the given data and message. */
  function SendResponse<T>(result: T, message: string): (e: Envelope<T>)
    ensures e.code == 200 && e.status == "ok"
    ensures e.message == message
    ensures e.data == Some(Payload(result))
  {
    Envelope(200, "ok", message, Some(Payload(result)))
  }

  /** sendError: status "error", `data` only for a non-empty list, code 404 unless given. */
  function SendError<T>(error: string, messages: seq<string>, code: Option<int>): (e: Envelope<T>)
    ensures e.status == "error" && e.message == error
    ensures code.None? ==> e.code == 404
    ensures code.Some? ==> e.code == code.value
    ensures e.data.Some? <==> messages != []
    ensures e.data.Some? ==> e.data.value == Messages(messages)
  {
    var response := Envelope(if code.Some? then code.value else 404, "error", error, None);
    if messages == [] then response else response.(data := Some(Messages(messages)))
  }

  /** The controller and the model class build identical envelopes for identical arguments. */
  lemma AgreesWithResponse<T>(result: T, message: string, error: string, messages: seq<string>, code: Option<int>)
    ensures SendResponse(result, message) == Response.SendResponse(result, message)
    ensures SendError<T>(error, messages, code) == Response.SendError<T>(error, messages, code)
  {
  }
}
