/** The HTTP handler for `POST /user/:connectedUserId`: it checks the
    caller's id and the path parameter, calls the connection service and
    turns what the service throws into a 400. */
module ConnectionHandler {
  import opened Outcomes
  import opened JsValues
  import opened HttpErrors
  import opened Connections

  /** The 200 body: a message and the entity the service saved. */
  datatype Made = Made(message: string, connection: Entity)

  const SuccessMessage := "Connection made successfully"

  /** A `userId` that is a number with an integral value. */
  predicate IntegralId(userId: Option<Json>)
  {
    userId.Some? && userId.value.JNum? && userId.value.n.Finite? && IsInteger(userId.value.n.value)
  }

  /** The reply for what the service returned or threw: the thrown
      `Error` reaches `throwError` with status 400 and itself as details. */
  function ServiceReply(result: Result<Entity, CreateError>): (r: Reply<Made>)
    ensures result.Ok? ==> r == Reply(200, Payload(Made(SuccessMessage, result.value)))
    ensures result.Err? ==> r.status == 400 && r.body == ErrorBody(Message(result.error), ErrorObject)
  {
    match result
    case Ok(c) => Reply(200, Payload(Made(SuccessMessage, c)))
    case Err(e) => ErrorReply(Message(e), 400, Some(ErrorObject))
  }

  /** The reply and the new table for one request: `userId` is the body's
      field as decoded, `column` the database's conversion of it. */
  function Handle(rows: Table, userId: Option<Json>, connectedUserIdParam: string, now: int, column: Column)
    : (o: (Reply<Made>, Table))
    // the authentication check comes first, before the path parameter
    ensures !Truthy(userId) ==> o == (ErrorReply("User not authenticated", 401), rows)
    ensures Truthy(userId) && ParseInt(connectedUserIdParam).None? ==>
              o == (ErrorReply("Invalid user ID provided", 400), rows)
    // otherwise the service decides, and its errors become 400s
    ensures Truthy(userId) && ParseInt(connectedUserIdParam).Some? ==>
              var out := Create(rows, userId.value, ParseInt(connectedUserIdParam).value, now, column);
              o == (ServiceReply(out.result), out.rows)
    ensures o.0.status in {200, 400, 401}
    ensures o.0.status != 200 ==> o.1 == rows
    ensures Keyed(rows) && OnePerPair(rows) ==> Keyed(o.1) && OnePerPair(o.1)
    // a caller whose id is an integral number never stores a self pair
    ensures TableInvariant(rows) && KeepsIntegers(column) && IntegralId(userId) ==> TableInvariant(o.1)
  {
    var connectedUserId := ParseInt(connectedUserIdParam);
    if !Truthy(userId) then (ErrorReply("User not authenticated", 401), rows)
    else if connectedUserId.None? then (ErrorReply("Invalid user ID provided", 400), rows)
    else
      NumericCallerCaught(userId.value, connectedUserId.value, column);
      var out := Create(rows, userId.value, connectedUserId.value, now, column);
      (ServiceReply(out.result), out.rows)
  }

  /** What `Handle` relies on for a caller whose id is an integral
      number. */
  lemma NumericCallerCaught(userId: Json, connectedUserId: int, column: Column)
    ensures KeepsIntegers(column) && userId.JNum? && userId.n.Finite? && IsInteger(userId.n.value) ==>
              CaughtBySelfCheck(userId, connectedUserId, column)
  {
    if KeepsIntegers(column) && userId.JNum? && userId.n.Finite? && IsInteger(userId.n.value) {
      NumericIdCaught(userId.n.value, connectedUserId, column);
    }
  }

  /** A request whose path parameter names the caller fails with the self
      error, and a request between already linked users with the
      duplicate error; both are 400s and leave the table alone. */
  lemma ServiceRefusals(rows: Table, userId: Json, param: string, now: int, column: Column)
    requires Truthy(Some(userId)) && ParseInt(param).Some?
    ensures userId == IdJson(ParseInt(param).value) ==>
              Handle(rows, Some(userId), param, now, column)
                == (ErrorReply("Cannot connect with yourself", 400, Some(ErrorObject)), rows)
    ensures userId != IdJson(ParseInt(param).value) && Linked(rows, column(userId), ParseInt(param).value) ==>
              Handle(rows, Some(userId), param, now, column)
                == (ErrorReply("Connection already exists", 400, Some(ErrorObject)), rows)
  {
  }

  /** The body `{"userId": "5"}` sent to `/user/5` passes every check and
      stores the self pair (5, 5), when the database reads "5" as 5. */
  lemma StringCallerConnectsToSelf(now: int, column: Column)
    requires column(JStr("5")) == 5
    ensures var o := Handle(map[], Some(JStr("5")), "5", now, column);
            o.0.status == 200 && (5, 5) in o.1 && !NoSelfPair(o.1)
  {
    ParseIntOfIntText(5, "");
    assert IntText(5) + "" == "5";
    StringIdConnectsToSelf(now, column);
  }

  /** The body `{"userId": "5"}` sent to `/user/7` is answered with the
      text "5" as the entity's user id, while the stored row holds the
      number the database reads it as. */
  lemma StringCallerEchoed(now: int, column: Column)
    requires column(JStr("5")) == 5
    ensures var o := Handle(map[], Some(JStr("5")), "7", now, column);
            && o.0 == Reply(200, Payload(Made(SuccessMessage, Entity(JStr("5"), 7, Pending, now))))
            && o.1 == map[(5, 7) := Connection(5, 7, Pending, now)]
  {
    ParseIntOfIntText(7, "");
    assert IntText(7) + "" == "7";
    assert JStr("5") != IdJson(7);
  }

  /** `createConnection(req, res)`. */
  method CreateConnection(store: ConnectionStore, res: Response<Made>, userId: Option<Json>,
                          connectedUserIdParam: string, now: int)
    modifies store, res
    ensures res.sent == old(res.sent) + [Handle(old(store.rows), userId, connectedUserIdParam, now, store.column).0]
    ensures store.rows == Handle(old(store.rows), userId, connectedUserIdParam, now, store.column).1
    ensures old(store.Valid()) ==> store.Valid()
  {
    var connectedUserId := ParseInt(connectedUserIdParam);
    if !Truthy(userId) {
      ThrowError(res, "User not authenticated", 401);
      return;
    }
    if connectedUserId.None? {
      ThrowError(res, "Invalid user ID provided", 400);
      return;
    }
    var result := store.CreateConnection(userId.value, connectedUserId.value, now);
    match result {
      case Ok(c) =>
        res.Send(Reply(200, Payload(Made(SuccessMessage, c))));
      case Err(e) =>
        ThrowError(res, Message(e), 400, Some(ErrorObject));
    }
  }
}
