/** The response object the controllers write to, and the two helpers that
    build every error response: `throwError` and `throwNotFound`. */
module HttpErrors {
  import opened Outcomes
  import opened JsValues

  /** What a handler sends: an error body from `throwError`, the body of
      `throwNotFound`, or a handler's own success body of type `P`. */
  datatype Body<P> =
    | ErrorBody(message: string, details: Json)
    | NotFoundBody(message: string)
    | Payload(payload: P)

  datatype Reply<P> = Reply(status: int, body: Body<P>)

  /** The payload type of a handler that only ever sends errors. */
  datatype NoPayload = NoPayload

  /** The message `throwError` falls back to when given an empty one. */
  const DefaultMessage := "Internal Server Error"

  /** A thrown `Error` object as `res.send` serialises it: its `message`
      and `stack` are not enumerable, so it becomes `{}`. */
  const ErrorObject := JObj(map[])

  /** One response, as the express `res` sees `res.status(..).send(..)`
      calls: `sent` is the log of calls in order; the client receives the
      first one. */
  class Response<P> {
    var sent: seq<Reply<P>>

    constructor ()
      ensures sent == []
    {
      sent := [];
    }

    /** `res.status(r.status).send(r.body)` (or `.json(..)`). */
    method Send(r: Reply<P>)
      modifies this
      ensures sent == old(sent) + [r]
    {
      sent := sent + [r];
    }
  }

  /** The reply `throwError` sends. `status` defaults to 500 and `details`
      to `undefined`, as in the source. */
  function ErrorReply<P>(message: string, status: int := 500, details: Option<Json> := None): (r: Reply<P>)
    ensures r.status == status && r.body.ErrorBody?
    ensures r.body.message != ""
    ensures message != "" ==> r.body.message == message
    ensures message == "" ==> r.body.message == DefaultMessage
    ensures r.body.details == JNull <==> !Truthy(details)
    ensures Truthy(details) ==> r.body.details == details.value
  {
    Reply(status, ErrorBody(if message == "" then DefaultMessage else message,
                            if Truthy(details) then details.value else JNull))
  }

  /** The reply `throwNotFound` sends when `check` holds. */
  function NotFoundReply<P>(entity: string): (r: Reply<P>)
    ensures r.status == 404 && r.body.NotFoundBody?
    ensures r.body.message == entity + " Not found"
  {
    Reply(404, NotFoundBody(entity + " Not found"))
  }

  /** `throwError`: exactly one send, with the chosen status. */
  method ThrowError<P>(res: Response<P>, message: string, status: int := 500, details: Option<Json> := None)
    modifies res
    ensures res.sent == old(res.sent) + [ErrorReply(message, status, details)]
  {
    res.Send(ErrorReply(message, status, details));
  }

  /** `throwNotFound`: a 404 when `check` holds (the default), nothing
      otherwise. */
  method ThrowNotFound<P>(res: Response<P>, entity: string, check: bool := true)
    modifies res
    ensures check ==> res.sent == old(res.sent) + [NotFoundReply(entity)]
    ensures !check ==> res.sent == old(res.sent)
  {
    if check {
      res.Send(NotFoundReply(entity));
    }
  }
}
