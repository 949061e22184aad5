/** The `connection` table and the connection service's `createConnection`:
    a request from one user to another is stored as a `pending` record
    keyed by the ordered pair (user_id, connected_user_id). */
module Connections {
  import opened Outcomes
  import opened JsValues

  datatype Status = Pending | Accepted | Rejected

  /** A row of the `connection` table; `createdAt` is the creation time the
      database fills in. */
  datatype Connection = Connection(userId: int, connectedUserId: int, status: Status, createdAt: int)

  type Key = (int, int)

  /** The primary key: the ordered pair of the two user columns, the same
      columns the `user` and `connectedUser` relations join on. */
  function KeyOf(c: Connection): Key
  {
    (c.userId, c.connectedUserId)
  }

  /** A new record; the column default for `status` is `pending`. */
  function NewConnection(userId: int, connectedUserId: int, createdAt: int, status: Status := Pending): (c: Connection)
    ensures KeyOf(c) == (userId, connectedUserId)
    ensures c.status == status && c.createdAt == createdAt
  {
    Connection(userId, connectedUserId, status, createdAt)
  }

  type Table = map<Key, Connection>

  /** Each row is stored under its own primary key. */
  ghost predicate Keyed(rows: Table)
  {
    forall k | k in rows :: KeyOf(rows[k]) == k
  }

  /** No user is connected with themself. */
  ghost predicate NoSelfPair(rows: Table)
  {
    forall k | k in rows :: k.0 != k.1
  }

  /** At most one record per unordered pair of two users: never both
      (a, b) and (b, a). */
  ghost predicate OnePerPair(rows: Table)
  {
    forall k | k in rows && k.0 != k.1 :: (k.1, k.0) !in rows
  }

  ghost predicate TableInvariant(rows: Table)
  {
    Keyed(rows) && NoSelfPair(rows) && OnePerPair(rows)
  }

  /** The lookup `createConnection` makes: a record for the pair in either
      direction, whatever its status. */
  predicate Linked(rows: Table, a: int, b: int)
  {
    (a, b) in rows || (b, a) in rows
  }

  /** The database's conversion of the value a request carries to the
      integer a `bigint` user column stores and compares with: the body's
      `userId` reaches the queries as it was decoded, a number or a
      string or anything else. */
  type Column = Json -> int

  /** The database stores an integral number as that integer. */
  ghost predicate KeepsIntegers(column: Column)
  {
    forall r: real | IsInteger(r) :: column(JNum(Finite(r))) == r.Floor
  }

  /** The JSON value of the number `n`. */
  function IdJson(n: int): Json
  {
    JNum(Finite(n as real))
  }

  /** `userId === connectedUserId` for a number `connectedUserId`: true
      only for that very number. */
  lemma StrictEqualsNumber(userId: Json, n: int)
    ensures StrictEquals(Some(userId), Some(IdJson(n))) <==> userId == IdJson(n)
  {
  }

  /** The self check `===` refuses every request whose stored pair would
      be a self pair: the caller's id is the number `connectedUserId`, or
      the database converts it to some other user. */
  predicate CaughtBySelfCheck(userId: Json, connectedUserId: int, column: Column)
  {
    userId == IdJson(connectedUserId) || column(userId) != connectedUserId
  }

  datatype CreateError = SelfConnection | AlreadyExists

  /** The message of the `Error` the service throws. */
  function Message(e: CreateError): string
  {
    match e
    case SelfConnection => "Cannot connect with yourself"
    case AlreadyExists => "Connection already exists"
  }

  /** The entity `save` resolves to: the object `create` built from the
      arguments, with the creation time filled in. Its `userId` is the
      caller's id as the request carried it, not the stored column. */
  datatype Entity = Entity(userId: Json, connectedUserId: int, status: Status, createdAt: int)

  /** The row the database stores for an entity. */
  function StoredRow(e: Entity, column: Column): (c: Connection)
    ensures KeyOf(c) == (column(e.userId), e.connectedUserId)
    ensures c.status == e.status && c.createdAt == e.createdAt
  {
    NewConnection(column(e.userId), e.connectedUserId, e.createdAt, e.status)
  }

  datatype Outcome = Outcome(result: Result<Entity, CreateError>, rows: Table)

  /** `createConnection(userId, connectedUserId)` against the table `rows`,
      at time `now`: `userId` as the request body carries it,
      `connectedUserId` the number the handler parsed. */
  function Create(rows: Table, userId: Json, connectedUserId: int, now: int, column: Column): (o: Outcome)
    // the self check comes first, whatever the table holds
    ensures userId == IdJson(connectedUserId) ==> o == Outcome(Err(SelfConnection), rows)
    // a record in either direction, of any status, blocks the request
    ensures userId != IdJson(connectedUserId) && Linked(rows, column(userId), connectedUserId) ==>
              o == Outcome(Err(AlreadyExists), rows)
    ensures o.result.Ok? <==> userId != IdJson(connectedUserId) && !Linked(rows, column(userId), connectedUserId)
    // success returns the pending entity with the caller's id as given,
    // and adds exactly its stored row, under a key that was free
    ensures o.result.Ok? ==>
              && o.result.value == Entity(userId, connectedUserId, Pending, now)
              && (column(userId), connectedUserId) !in rows
              && o.rows == rows[(column(userId), connectedUserId) := StoredRow(o.result.value, column)]
              && |o.rows| == |rows| + 1
    ensures o.result.Err? ==> o.rows == rows
    // keys and one record per pair always hold; no self pair only when
    // the self check caught what the database stores
    ensures Keyed(rows) && OnePerPair(rows) ==> Keyed(o.rows) && OnePerPair(o.rows)
    ensures TableInvariant(rows) && CaughtBySelfCheck(userId, connectedUserId, column) ==> TableInvariant(o.rows)
  {
    StrictEqualsNumber(userId, connectedUserId);
    if StrictEquals(Some(userId), Some(IdJson(connectedUserId))) then Outcome(Err(SelfConnection), rows)
    else if Linked(rows, column(userId), connectedUserId) then Outcome(Err(AlreadyExists), rows)
    else
      var e := Entity(userId, connectedUserId, Pending, now);
      Outcome(Ok(e), rows[(column(userId), connectedUserId) := StoredRow(e, column)])
  }

  /** A caller whose id is an integral number never gets a self pair
      stored: either `===` refuses it or the stored id is another one. */
  lemma NumericIdCaught(r: real, connectedUserId: int, column: Column)
    requires KeepsIntegers(column) && IsInteger(r)
    ensures CaughtBySelfCheck(JNum(Finite(r)), connectedUserId, column)
  {
    assert column(JNum(Finite(r))) == r.Floor;
  }

  /** A caller id that is the text of the other user's id passes `===`
      and the database stores the self pair: `{"userId": "5"}` sent to
      user 5. */
  lemma StringIdConnectsToSelf(now: int, column: Column)
    requires column(JStr("5")) == 5
    ensures var o := Create(map[], JStr("5"), 5, now, column);
            o.result == Ok(Entity(JStr("5"), 5, Pending, now)) && (5, 5) in o.rows && !NoSelfPair(o.rows)
  {
    assert JStr("5") != IdJson(5);
  }

  /** `createConnection` as evidently intended: the self check compares the
      ids the database stores. */
  function CreateCorrected(rows: Table, userId: Json, connectedUserId: int, now: int, column: Column): (o: Outcome)
    ensures o.result == Err(SelfConnection) <==> column(userId) == connectedUserId
    ensures o.result.Ok? ==> o.result.value == Entity(userId, connectedUserId, Pending, now)
    ensures TableInvariant(rows) ==> TableInvariant(o.rows)
    ensures CaughtBySelfCheck(userId, connectedUserId, column) && (KeepsIntegers(column) || userId != IdJson(connectedUserId)) ==>
              o == Create(rows, userId, connectedUserId, now, column)
  {
    if column(userId) == connectedUserId then Outcome(Err(SelfConnection), rows)
    else if Linked(rows, column(userId), connectedUserId) then Outcome(Err(AlreadyExists), rows)
    else
      var e := Entity(userId, connectedUserId, Pending, now);
      Outcome(Ok(e), rows[(column(userId), connectedUserId) := StoredRow(e, column)])
  }

  /** The records between `a` and `b`, in either direction. */
  function Between(rows: Table, a: int, b: int): set<Key>
  {
    set k | k in rows && (k == (a, b) || k == (b, a))
  }

  /** A pair of users has at most one record, although (a, b) and (b, a)
      are two keys. */
  lemma AtMostOneBetween(rows: Table, a: int, b: int)
    requires OnePerPair(rows)
    ensures |Between(rows, a, b)| <= 1
  {
    var s := Between(rows, a, b);
    if (a, b) in rows {
      assert s == {(a, b)};
    } else if (b, a) in rows {
      assert s == {(b, a)};
    } else {
      assert s == {};
    }
  }

  /** Once a request between two users succeeds, no later request between
      them succeeds, in either direction. */
  lemma NoSecondRequest(rows: Table, a: Json, b: int, now: int, later: int, column: Column)
    requires Create(rows, a, b, now, column).result.Ok?
    requires column(IdJson(b)) == b
    ensures Create(Create(rows, a, b, now, column).rows, a, b, later, column).result == Err(AlreadyExists)
    ensures column(a) != b ==>
              Create(Create(rows, a, b, now, column).rows, IdJson(b), column(a), later, column).result == Err(AlreadyExists)
    ensures column(a) == b ==>
              Create(Create(rows, a, b, now, column).rows, IdJson(b), column(a), later, column).result == Err(SelfConnection)
  {
  }

  datatype Request = Request(userId: Json, connectedUserId: int, now: int)

  /** The table after a sequence of requests, each applied atomically. */
  function Replay(rows: Table, requests: seq<Request>, column: Column): Table
    decreases |requests|
  {
    if requests == [] then rows
    else
      var r := requests[0];
      Replay(Create(rows, r.userId, r.connectedUserId, r.now, column).rows, requests[1..], column)
  }

  /** Every sequence of requests keeps one record per pair and only adds
      rows; it keeps out self pairs when the self check catches every
      request, as it does for callers whose ids are integral numbers. */
  lemma {:induction false} ReplayKeepsInvariant(rows: Table, requests: seq<Request>, column: Column)
    requires Keyed(rows) && OnePerPair(rows)
    ensures Keyed(Replay(rows, requests, column)) && OnePerPair(Replay(rows, requests, column))
    ensures NoSelfPair(rows) && (forall i | 0 <= i < |requests| ::
              CaughtBySelfCheck(requests[i].userId, requests[i].connectedUserId, column)) ==>
              NoSelfPair(Replay(rows, requests, column))
    ensures rows.Keys <= Replay(rows, requests, column).Keys
    ensures forall k | k in rows :: Replay(rows, requests, column)[k] == rows[k]
    decreases |requests|
  {
    if requests != [] {
      var r := requests[0];
      ReplayKeepsInvariant(Create(rows, r.userId, r.connectedUserId, r.now, column).rows, requests[1..], column);
    }
  }

  /** The `connection` table as the service's repository sees it, with
      the database's conversion of request values. */
  class ConnectionStore {
    var rows: Table
    const column: Column

    ghost predicate Valid()
      reads this
    {
      Keyed(rows) && OnePerPair(rows)
    }

    constructor (column: Column)
      ensures Valid() && TableInvariant(rows) && rows == map[] && this.column == column
    {
      rows := map[];
      this.column := column;
    }

    /** `createConnection`: the self check, then the lookup in both
        directions, then the insert; one atomic call. */
    method CreateConnection(userId: Json, connectedUserId: int, now: int)
      returns (r: Result<Entity, CreateError>)
      modifies this
      ensures Outcome(r, rows) == Create(old(rows), userId, connectedUserId, now, column)
      ensures old(Valid()) ==> Valid()
      ensures old(TableInvariant(rows)) && CaughtBySelfCheck(userId, connectedUserId, column) ==> TableInvariant(rows)
    {
      if StrictEquals(Some(userId), Some(IdJson(connectedUserId))) {
        return Err(SelfConnection);
      }
      var u := column(userId);
      var existing := Linked(rows, u, connectedUserId);
      if existing {
        return Err(AlreadyExists);
      }
      var e := Entity(userId, connectedUserId, Pending, now);
      rows := rows[(u, connectedUserId) := StoredRow(e, column)];
      r := Ok(e);
    }
  }
}
