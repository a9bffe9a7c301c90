/** What an HTTP GET made with reqwest comes back with, as the clients see it. */
module Http {
  import opened Wrappers

  /**
   * Either the request could not be built or sent, or a status arrived together with the
   * body as decoded by the caller (`resp.json()`, `resp.bytes()`, ...), or the decoding error.
   */
  datatype Reply<T> = SendFailed(message: string) | Received(status: nat, body: Result<T, string>)

  /** `StatusCode::is_success`: a 2xx status. */
  predicate IsSuccess(status: nat) {
    200 <= status <= 299
  }

  /** The decoded body of a successful reply; every other outcome is an error. */
  function Body<T>(reply: Reply<T>): (r: Result<T, string>)
    ensures r.Ok? <==> reply.Received? && IsSuccess(reply.status) && reply.body.Ok?
    ensures r.Ok? ==> r.value == reply.body.value
  {
    match reply
    case SendFailed(e) => Err(e)
    case Received(status, body) =>
      if !IsSuccess(status) then Err("status not success")
      else body
  }
}
