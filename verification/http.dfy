/** What a route handler returns, what the completion service hands back, and
    the record of one request: the prompt sent to the service (if any) and the
    response. */
module Http {
  import opened Options
  import opened Json

  /** A handler's response: status 200 with a JSON body, or an error status
      whose body is `{ "error": message }`. */
  datatype Response = Ok(body: Value) | Err(status: int, message: string) {

    /** The JSON body sent on the wire. */
    function Body(): (b: Value)
      ensures Err? ==> b.JObj? && Get(b, "error") == Some(JStr(message))
    {
      if Ok? then body else JObj(map["error" := JStr(message)])
    }
  }

  /** The outcome of one call to the completion service: the call threw (with
      the thrown error's message, or None when what was thrown is not an
      Error object), or it returned, with the first choice's message content
      when there is one. */
  datatype Completion = CallFailed(error: Option<string>) | Replied(content: Option<string>)

  /** One request as seen from outside: the prompt the handler sent to the
      completion service, None when it made no call, and its response. */
  datatype Exchange = Exchange(sent: Option<string>, response: Response)
}
