/** `handlers/middleware.py`: the gate every message passes before the
    handler its router matched. It sees only the message's content type; it
    holds no state and touches neither the conversation nor the database. */
module Middleware {
  import opened Messages

  /** What the gate does with a message: hand the event and the handler's
      data on unchanged, or answer the sender itself. */
  datatype Gated<E, D> = Handled(event: E, data: D) | Refused(replies: seq<string>)

  /** Text messages and shared users go to the handler; any other content
      type gets exactly one "not text" reply and the handler never runs. */
  function Gate<E, D>(contentType: string, event: E, data: D): (r: Gated<E, D>)
    ensures r.Handled? <==> contentType == "text" || contentType == "users_shared"
    ensures r.Handled? ==> r.event == event && r.data == data
    ensures r.Refused? ==> r.replies == [NotTextText]
  {
    if contentType == "text" || contentType == "users_shared" then Handled(event, data)
    else Refused([NotTextText])
  }
}
