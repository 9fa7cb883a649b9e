/** The static envelope builders of the Response model class. */
module Response {
  import opened Wrappers
  import opened JsonEnvelope

  /** sendResponse: HTTP 200, status "ok", the result under `data`. */
  function SendResponse<T>(result: T, message: string): (e: Envelope<T>)
    ensures e.code == 200 && e.status == "ok"
    ensures e.message == message
    ensures e.data == Some(Payload(result))
  {
    Envelope(200, "ok", message, Some(Payload(result)))
  }

  /**
   * sendError: status "error" with the given message; the `data` key is added
   * only for a non-empty message list; the code defaults to 404 when none is given.
   */
  function SendError<T>(error: string, messages: seq<string>, code: Option<int>): (e: Envelope<T>)
    ensures e.status == "error" && e.message == error
    ensures code.None? ==> e.code == 404
    ensures code.Some? ==> e.code == code.value
    ensures e.data.Some? <==> messages != []
    ensures e.data.Some? ==> e.data.value == Messages(messages)
  {
    var base := Envelope(if code.Some? then code.value else 404, "error", error, None);
    if messages != [] then base.(data := Some(Messages(messages))) else base
  }

  /** The message list survives the envelope: absent `data` means exactly an empty list. */
  lemma ErrorListRoundTrip<T>(error: string, messages: seq<string>, code: Option<int>)
    ensures ErrorList(SendError<T>(error, messages, code)) == messages
  {
  }

  /** A success envelope is never mistaken for an error one. */
  lemma SuccessIsNotError<T>(result: T, message: string, error: string, messages: seq<string>, code: Option<int>)
    ensures SendResponse(result, message) != SendError(error, messages, code)
  {
    assert SendResponse(result, message).status[0] == 'o';
    assert SendError<T>(error, messages, code).status[0] == 'e';
  }
}
