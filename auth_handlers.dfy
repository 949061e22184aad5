/** The `register` and `login` handlers of the auth controller: a chain of
    early-return checks on the request body, each ending in one
    `throwError`, and, for `register`, the insert of a new user row. */
module AuthHandlers {
  import opened Outcomes
  import opened JsValues
  import opened HttpErrors
  import opened AuthValidation

  /** A row of the `user` table: the fields `register` writes. `password`
      holds the bcrypt hash; `name` and `email` are kept as the request
      gave them. */
  datatype UserRecord = UserRecord(id: nat, name: Json, email: Json, password: string, bio: Option<Json>)

  /** The saved user as the 201 body shows it, without the password. */
  datatype PublicUser = PublicUser(id: nat, name: Json, email: Json, bio: Option<Json>)

  datatype AuthPayload = Registered(user: PublicUser, token: string, message: string)

  const MissingFields := "Missing required fields"
  const BadName := "Name must only contain alphabetic characters"
  const BadEmail := "Invalid email format"
  const UserExists := "User already exists"
  const RegisteredMessage := "User registered successfully"
  const LoginMissing := "Email and password are required"
  const LoginRefused := "Invalid email or password"

  /** `name`, `email`, `password` and `roles` are all truthy. */
  predicate RequiredPresent(body: map<string, Json>)
  {
    Truthy(Prop(body, "name")) && Truthy(Prop(body, "email"))
    && Truthy(Prop(body, "password")) && Truthy(Prop(body, "roles"))
  }

  /** `findOne({ where: [{ email }, { name }] })` finds a row: a user with
      the same email or the same name. `same(column, value)` is the
      database's comparison of a stored value with a query value. */
  predicate Taken(users: seq<UserRecord>, name: Json, email: Json, same: (Json, Json) -> bool)
  {
    exists i | 0 <= i < |users| :: same(users[i].email, email) || same(users[i].name, name)
  }

  /** `findOne({ where: { email } })` finds a row. */
  predicate HasEmail(users: seq<UserRecord>, email: Json, same: (Json, Json) -> bool)
  {
    exists i | 0 <= i < |users| :: same(users[i].email, email)
  }

  /** No two rows share an email or a name, as the table's two unique
      columns require. */
  ghost predicate Unique(users: seq<UserRecord>, same: (Json, Json) -> bool)
  {
    forall i, j | 0 <= i < j < |users| ::
      !same(users[i].email, users[j].email) && !same(users[i].name, users[j].name)
  }

  /** The reply of the first `register` check that fails, or `None` when
      the request gets through to the insert. */
  function RegisterGate(users: seq<UserRecord>, body: map<string, Json>, same: (Json, Json) -> bool)
    : (r: Option<Reply<AuthPayload>>)
    // a missing field is reported before any format check
    ensures !RequiredPresent(body) ==> r == Some(ErrorReply(MissingFields, 400))
    // the name is checked before the email; a test whose `String(value)`
    // throws ends in the `catch`, with 500
    ensures RequiredPresent(body) && ToPrimitiveThrows(body["name"]) ==> r == Some(ErrorReply(NotPrimitive))
    ensures RequiredPresent(body) && !ToPrimitiveThrows(body["name"]) && !NameTest(body["name"]) ==>
              r == Some(ErrorReply(BadName, 400))
    ensures RequiredPresent(body) && NameTest(body["name"]) && ToPrimitiveThrows(body["email"]) ==>
              r == Some(ErrorReply(NotPrimitive))
    ensures RequiredPresent(body) && NameTest(body["name"]) && !ToPrimitiveThrows(body["email"])
            && !EmailTest(body["email"]) ==>
              r == Some(ErrorReply(BadEmail, 400))
    // the duplicate check comes last, after both formats
    ensures RequiredPresent(body) && NameTest(body["name"]) && EmailTest(body["email"])
            && Taken(users, body["name"], body["email"], same) ==>
              r == Some(ErrorReply(UserExists, 409))
    ensures r.None? <==>
              RequiredPresent(body) && NameTest(body["name"]) && EmailTest(body["email"])
              && !Taken(users, body["name"], body["email"], same)
    ensures r.Some? ==> r.value.status in {400, 409, 500} && r.value.body.ErrorBody?
  {
    if !RequiredPresent(body) then Some(ErrorReply(MissingFields, 400))
    else if ToPrimitiveThrows(body["name"]) then Some(ErrorReply(NotPrimitive))
    else if !NameTest(body["name"]) then Some(ErrorReply(BadName, 400))
    else if ToPrimitiveThrows(body["email"]) then Some(ErrorReply(NotPrimitive))
    else if !EmailTest(body["email"]) then Some(ErrorReply(BadEmail, 400))
    else if Taken(users, body["name"], body["email"], same) then Some(ErrorReply(UserExists, 409))
    else None
  }

  /** The row `register` saves under id `id`. */
  function NewUser(id: nat, body: map<string, Json>, hashed: string): UserRecord
    requires "name" in body && "email" in body
  {
    UserRecord(id, body["name"], body["email"], hashed, Prop(body, "bio"))
  }

  function Public(u: UserRecord): PublicUser
  {
    PublicUser(u.id, u.name, u.email, u.bio)
  }

  /** The reply of `login`, if it sends one: a missing field gives 400, an
      unknown email 401, and a known email no reply at all, since the
      handler ends there. */
  function LoginReply(users: seq<UserRecord>, body: map<string, Json>, same: (Json, Json) -> bool)
    : (r: Option<Reply<AuthPayload>>)
    ensures !Truthy(Prop(body, "email")) || !Truthy(Prop(body, "password")) ==>
              r == Some(ErrorReply(LoginMissing, 400))
    ensures Truthy(Prop(body, "email")) && Truthy(Prop(body, "password")) ==>
              (r.None? <==> HasEmail(users, body["email"], same))
    ensures r.Some? && r.value.status == 401 ==> r == Some(ErrorReply(LoginRefused, 401))
  {
    if !Truthy(Prop(body, "email")) || !Truthy(Prop(body, "password")) then Some(ErrorReply(LoginMissing, 400))
    else if !HasEmail(users, body["email"], same) then Some(ErrorReply(LoginRefused, 401))
    else None
  }

  /** A successful registration adds a row no other row clashes with. */
  lemma RegisterKeepsUnique(users: seq<UserRecord>, body: map<string, Json>, same: (Json, Json) -> bool,
                            id: nat, hashed: string)
    requires Unique(users, same)
    requires RegisterGate(users, body, same).None?
    ensures Unique(users + [NewUser(id, body, hashed)], same)
  {
    var u := NewUser(id, body, hashed);
    var after := users + [u];
    forall i, j | 0 <= i < j < |after|
      ensures !same(after[i].email, after[j].email) && !same(after[i].name, after[j].name)
    {
      if j == |users| {
        assert after[i] == users[i];
        assert !(same(users[i].email, body["email"]) || same(users[i].name, body["name"]));
      }
    }
  }

  /** Registering the same body twice: the second attempt is refused with
      409, when the database finds a value equal to itself. */
  lemma RegisterTwiceConflicts(users: seq<UserRecord>, body: map<string, Json>, same: (Json, Json) -> bool,
                               id: nat, hashed: string)
    requires RegisterGate(users, body, same).None?
    requires same(body["email"], body["email"])
    ensures RegisterGate(users + [NewUser(id, body, hashed)], body, same) == Some(ErrorReply(UserExists, 409))
  {
    var after := users + [NewUser(id, body, hashed)];
    assert same(after[|users|].email, body["email"]);
  }

  /** A registered email is known to `login`: no 401 for it. */
  lemma RegisteredUserCanLogIn(users: seq<UserRecord>, body: map<string, Json>, login: map<string, Json>,
                               same: (Json, Json) -> bool, id: nat, hashed: string)
    requires RegisterGate(users, body, same).None?
    requires Truthy(Prop(login, "password")) && "email" in login && login["email"] == body["email"]
    requires same(body["email"], body["email"])
    ensures LoginReply(users + [NewUser(id, body, hashed)], login, same).None?
  {
    var after := users + [NewUser(id, body, hashed)];
    assert same(after[|users|].email, login["email"]);
  }

  // ---------------------------------------------------------------------
  // After the checks: hashing, the insert, role linking and the token.

  const NotMappable := "roles.map is not a function"

  /** `typeof v` for a decoded JSON value. */
  function TypeOf(v: Json): string
  {
    match v
    case JNull => "object"
    case JBool(_) => "boolean"
    case JNum(_) => "number"
    case JStr(_) => "string"
    case JArr(_) => "object"
    case JObj(_) => "object"
  }

  /** The message bcryptjs's `hash(password, salt)` rejects with when the
      password is not a string. */
  function HashRefused(password: Json): string
  {
    "Illegal arguments: " + TypeOf(password) + ", string"
  }

  /** `roles.length > 0` for a truthy `roles`: a string's or an array's
      length; for an object, its own `length` as `>` compares it with 0
      (ToNumber of its text for a string or an array), and `undefined > 0`
      (false) when it has none; a number or a boolean has no `length`. */
  predicate LengthPositive(roles: Json)
  {
    match roles
    case JStr(s) => |s| > 0
    case JArr(items) => |items| > 0
    case JObj(f) => "length" in f && GreaterThanZero(f["length"])
    case _ => false
  }

  /** The first id, in array order, whose role lookup finds nothing.
      `roleFound(id)` is `roleRepository.findOne({ where: { id } })`
      finding a row. */
  function FirstMissing(ids: seq<Json>, roleFound: Json -> bool): (r: Option<nat>)
    ensures r.Some? ==> r.value < |ids| && !roleFound(ids[r.value])
    ensures r.Some? ==> forall j | 0 <= j < r.value :: roleFound(ids[j])
    ensures r.None? <==> forall j | 0 <= j < |ids| :: roleFound(ids[j])
  {
    if ids == [] then None
    else if !roleFound(ids[0]) then Some(0)
    else
      match FirstMissing(ids[1..], roleFound)
      case Some(k) => Some(k + 1)
      case None =>
        assert forall j | 1 <= j < |ids| :: ids[j] == ids[1..][j - 1];
        None
  }

  /** The entity `throwNotFound` names for a missing role: the id as a
      template literal writes it (a number the model does not spell out
      is written as the empty text). */
  function RoleEntity(id: Json): string
  {
    "Role with id " + match ToJsString(id) case Some(t) => t case None => ""
  }

  /** The reply for a role id that names no role: the template literal
      throws for an id ToPrimitiveThrows holds of, which rejects
      `Promise.all` and ends in the `catch` with 500; otherwise the 404 of
      `throwNotFound`. */
  function MissingRoleReply(id: Json): (r: Reply<AuthPayload>)
    ensures r.status == 404 <==> !ToPrimitiveThrows(id)
  {
    if ToPrimitiveThrows(id) then ErrorReply(NotPrimitive) else NotFoundReply(RoleEntity(id))
  }

  /** `roles.length > 0` throws: `roles` is an object whose own `length`
      cannot be converted to a primitive. */
  predicate LengthThrows(roles: Json)
  {
    roles.JObj? && "length" in roles.fields && ToPrimitiveThrows(roles.fields["length"])
  }

  /** Role linking gets through: `roles.length > 0` is false, or `roles`
      is an array whose every id names a role. */
  predicate RolesLinked(roles: Json, roleFound: Json -> bool)
  {
    !LengthThrows(roles) && (!LengthPositive(roles) || (roles.JArr? && FirstMissing(roles.items, roleFound).None?))
  }

  /** The row `register` saves, if it gets that far, and its reply. */
  datatype Registration = Registration(saved: Option<UserRecord>, reply: Reply<AuthPayload>)

  /** What `register` does with a body: `id` is the next auto-increment
      id, `hashed` the bcrypt hash of a string password, `roleFound` the
      role lookup and `signed` the outcome of `jwt.sign` (the token, or
      the message of what it throws). A thrown error reaches the `catch`,
      which sends 500 with its message. */
  function RegisterOutcome(users: seq<UserRecord>, id: nat, body: map<string, Json>, same: (Json, Json) -> bool,
                           hashed: string, roleFound: Json -> bool, signed: Result<string, string>)
    : (o: Registration)
    ensures RegisterGate(users, body, same).Some? ==> o == Registration(None, RegisterGate(users, body, same).value)
    // bcrypt refuses a password that is not a string, before the insert
    ensures RegisterGate(users, body, same).None? && !body["password"].JStr? ==>
              o == Registration(None, ErrorReply(HashRefused(body["password"]), 500))
    ensures o.saved.Some? <==> RegisterGate(users, body, same).None? && body["password"].JStr?
    ensures o.saved.Some? ==> o.saved.value == NewUser(id, body, hashed)
    // `roles.length > 0` throws, or `roles` has a length and is no array:
    // the row stays, the reply is 500
    ensures o.saved.Some? && LengthThrows(body["roles"]) ==> o.reply == ErrorReply(NotPrimitive)
    ensures o.saved.Some? && !LengthThrows(body["roles"]) && LengthPositive(body["roles"]) && !body["roles"].JArr? ==>
              o.reply == ErrorReply(NotMappable, 500)
    // the first id that names no role decides the reply
    ensures o.saved.Some? && body["roles"].JArr? && FirstMissing(body["roles"].items, roleFound).Some? ==>
              o.reply == MissingRoleReply(body["roles"].items[FirstMissing(body["roles"].items, roleFound).value])
    ensures o.reply.status == 404 <==>
              o.saved.Some? && body["roles"].JArr? && FirstMissing(body["roles"].items, roleFound).Some?
              && !ToPrimitiveThrows(body["roles"].items[FirstMissing(body["roles"].items, roleFound).value])
    ensures o.reply.status == 404 ==>
              o.reply == NotFoundReply(RoleEntity(body["roles"].items[FirstMissing(body["roles"].items, roleFound).value]))
    ensures o.saved.Some? && RolesLinked(body["roles"], roleFound) && signed.Err? ==>
              o.reply == ErrorReply(signed.error, 500)
    ensures o.reply.status == 201 <==> o.saved.Some? && RolesLinked(body["roles"], roleFound) && signed.Ok?
    ensures o.reply.status == 201 ==>
              o.reply == Reply(201, Payload(Registered(Public(o.saved.value), signed.value, RegisteredMessage)))
    ensures o.reply.status in {201, 400, 404, 409, 500}
  {
    match RegisterGate(users, body, same)
    case Some(r) => Registration(None, r)
    case None =>
      var password, roles := body["password"], body["roles"];
      if !password.JStr? then Registration(None, ErrorReply(HashRefused(password), 500))
      else
        var u := NewUser(id, body, hashed);
        Registration(Some(u), AfterInsert(u, roles, roleFound, signed))
  }

  /** The reply `register` sends once row `u` is saved: the roles are
      mapped and looked up, then the token is signed. */
  function AfterInsert(u: UserRecord, roles: Json, roleFound: Json -> bool, signed: Result<string, string>)
    : Reply<AuthPayload>
  {
    if LengthThrows(roles) then ErrorReply(NotPrimitive)
    else if LengthPositive(roles) && !roles.JArr? then ErrorReply(NotMappable, 500)
    else if roles.JArr? && FirstMissing(roles.items, roleFound).Some? then
      MissingRoleReply(roles.items[FirstMissing(roles.items, roleFound).value])
    else
      match signed
      case Err(m) => ErrorReply(m, 500)
      case Ok(token) => Reply(201, Payload(Registered(Public(u), token, RegisteredMessage)))
  }

  /** The role lookups of `Promise.all(roles.map(..))`, taken in array
      order: the first id that names no role gets the 404 of
      `throwNotFound`, or the 500 of the `catch` when its text throws. */
  method LinkRoles(res: Response<AuthPayload>, ids: seq<Json>, roleFound: Json -> bool) returns (linked: bool)
    modifies res
    ensures linked <==> FirstMissing(ids, roleFound).None?
    ensures linked ==> res.sent == old(res.sent)
    ensures !linked ==> res.sent == old(res.sent) + [MissingRoleReply(ids[FirstMissing(ids, roleFound).value])]
  {
    var i := 0;
    while i < |ids|
      invariant 0 <= i <= |ids|
      invariant forall j | 0 <= j < i :: roleFound(ids[j])
    {
      if !roleFound(ids[i]) {
        if ToPrimitiveThrows(ids[i]) {
          ThrowError(res, NotPrimitive);
        } else {
          ThrowNotFound(res, RoleEntity(ids[i]));
        }
        return false;
      }
      i := i + 1;
    }
    return true;
  }

  /** The part of `register` after the insert: `roles.length > 0` (which
      throws on an object whose `length` has no primitive value),
      `roles.map` (which throws on a `roles` with a length that is no
      array), the role lookups and the signing of the token. */
  method LinkAndSign(res: Response<AuthPayload>, u: UserRecord, roles: Json, roleFound: Json -> bool,
                     signed: Result<string, string>)
    modifies res
    ensures res.sent == old(res.sent) + [AfterInsert(u, roles, roleFound, signed)]
  {
    if LengthThrows(roles) {
      ThrowError(res, NotPrimitive);
      return;
    }
    if LengthPositive(roles) {
      if !roles.JArr? {
        ThrowError(res, NotMappable, 500);
        return;
      }
      var linked := LinkRoles(res, roles.items, roleFound);
      if !linked {
        return;
      }
    }
    match signed {
      case Err(m) =>
        ThrowError(res, m, 500);
      case Ok(token) =>
        res.Send(Reply(201, Payload(Registered(Public(u), token, RegisteredMessage))));
    }
  }

  /** A register body with a numeric password and otherwise well-formed
      fields. */
  function NumericPasswordBody(): map<string, Json>
  {
    map["name" := JStr("Ann"), "email" := JStr("a@b.co"),
        "password" := JNum(Finite(123456.0)), "roles" := JArr([JNum(Finite(1.0))])]
  }

  lemma NumericPasswordPassesChecks(users: seq<UserRecord>, same: (Json, Json) -> bool)
    requires !Taken(users, JStr("Ann"), JStr("a@b.co"), same)
    ensures RegisterGate(users, NumericPasswordBody(), same).None?
    ensures NumericPasswordBody()["password"] == JNum(Finite(123456.0))
  {
    var body := NumericPasswordBody();
    assert Prop(body, "name") == Some(JStr("Ann")) && Prop(body, "email") == Some(JStr("a@b.co"));
    assert Prop(body, "password") == Some(JNum(Finite(123456.0)));
    assert Prop(body, "roles") == Some(JArr([JNum(Finite(1.0))]));
    assert RequiredPresent(body);
    SampleName();
    SampleEmail();
    assert EmailTest(JStr("a@b.co"));
  }

  /** A numeric password that gets past the controller's checks (as the
      one of NumericPasswordBody does) is refused by the hashing, with 500
      and no row saved. */
  lemma NumericPasswordRefused(users: seq<UserRecord>, body: map<string, Json>, same: (Json, Json) -> bool,
                               id: nat, hashed: string, roleFound: Json -> bool, signed: Result<string, string>)
    requires RegisterGate(users, body, same).None? && body["password"] == JNum(Finite(123456.0))
    ensures RegisterOutcome(users, id, body, same, hashed, roleFound, signed)
              == Registration(None, ErrorReply(HashRefused(body["password"]), 500))
    ensures TypeOf(body["password"]) == "number"
  {
    HashRefusalOutcome(users, id, body, same, hashed, roleFound, signed);
  }

  /** The outcome once the checks pass and the password is no string. */
  lemma HashRefusalOutcome(users: seq<UserRecord>, id: nat, body: map<string, Json>, same: (Json, Json) -> bool,
                           hashed: string, roleFound: Json -> bool, signed: Result<string, string>)
    requires RegisterGate(users, body, same).None? && !body["password"].JStr?
    ensures RegisterOutcome(users, id, body, same, hashed, roleFound, signed)
              == Registration(None, ErrorReply(HashRefused(body["password"]), 500))
  {
  }

  /** The outcome once the checks pass and `roles` has a positive length
      that converts without throwing but is no array. */
  lemma NotMappableOutcome(users: seq<UserRecord>, id: nat, body: map<string, Json>, same: (Json, Json) -> bool,
                           hashed: string, roleFound: Json -> bool, signed: Result<string, string>)
    requires RegisterGate(users, body, same).None? && body["password"].JStr?
    requires !LengthThrows(body["roles"]) && LengthPositive(body["roles"]) && !body["roles"].JArr?
    ensures RegisterOutcome(users, id, body, same, hashed, roleFound, signed)
              == Registration(Some(NewUser(id, body, hashed)), ErrorReply(NotMappable, 500))
  {
  }

  /** A register body with a well-formed name, email and password and
      the given `roles`. */
  function SampleBody(roles: Json): map<string, Json>
  {
    map["name" := JStr("Ann"), "email" := JStr("a@b.co"), "password" := JStr("secret"), "roles" := roles]
  }

  /** Any array or object as `roles` (both are truthy) gets SampleBody
      past every check of the controller. */
  lemma SampleBodyPassesChecks(users: seq<UserRecord>, roles: Json, same: (Json, Json) -> bool)
    requires roles.JArr? || roles.JObj?
    requires !Taken(users, JStr("Ann"), JStr("a@b.co"), same)
    ensures RegisterGate(users, SampleBody(roles), same).None?
    ensures SampleBody(roles)["password"] == JStr("secret") && SampleBody(roles)["roles"] == roles
  {
    var body := SampleBody(roles);
    assert Prop(body, "name") == Some(JStr("Ann")) && Prop(body, "email") == Some(JStr("a@b.co"));
    assert Prop(body, "password") == Some(JStr("secret"));
    assert Prop(body, "roles") == Some(roles);
    assert RequiredPresent(body);
    SampleName();
    SampleEmail();
    assert EmailTest(JStr("a@b.co"));
  }

  /** A `roles` object whose `length` is the text "1", in a body that
      gets past the checks (as SampleBody does): `"1" > 0` holds, so
      `roles.map` is called on the object after the insert and throws; the
      row stays and the reply is 500. */
  lemma LengthObjectNotMappable(users: seq<UserRecord>, body: map<string, Json>, same: (Json, Json) -> bool,
                                id: nat, hashed: string, roleFound: Json -> bool, signed: Result<string, string>)
    requires RegisterGate(users, body, same).None? && body["password"].JStr?
    requires body["roles"] == JObj(map["length" := JStr("1")])
    ensures RegisterOutcome(users, id, body, same, hashed, roleFound, signed)
              == Registration(Some(NewUser(id, body, hashed)), ErrorReply(NotMappable, 500))
  {
    var roles := body["roles"];
    assert LengthPositive(roles) by {
      TextPositiveOfDigit('1');
      assert "length" in roles.fields && roles.fields["length"] == JStr("1");
    }
    assert !LengthThrows(roles);
    NotMappableOutcome(users, id, body, same, hashed, roleFound, signed);
  }

  /** `{"toString": 1}`: an object whose own `toString` is no function. */
  function ToStringOne(): Json
  {
    JObj(map["toString" := JNum(Finite(1.0))])
  }

  /** A name `{"toString": 1}` in a body with every field present: its
      `String(name)` throws before any format check, and the `catch`
      answers 500. */
  lemma ThrowingNameRefused(users: seq<UserRecord>, body: map<string, Json>, same: (Json, Json) -> bool)
    requires RequiredPresent(body) && body["name"] == ToStringOne()
    ensures RegisterGate(users, body, same) == Some(ErrorReply(NotPrimitive))
    ensures RegisterGate(users, body, same).value.status == 500
  {
    assert ToPrimitiveThrows(ToStringOne()) by {
      assert "toString" in ToStringOne().fields;
    }
  }

  /** A `roles` object whose `length` is `{"toString": 1}`, in a body that
      gets past the checks (as SampleBody does): `roles.length > 0` throws
      after the insert, so the row stays and the reply is 500. */
  lemma ThrowingLengthSaved(users: seq<UserRecord>, body: map<string, Json>, same: (Json, Json) -> bool,
                            id: nat, hashed: string, roleFound: Json -> bool, signed: Result<string, string>)
    requires RegisterGate(users, body, same).None? && body["password"].JStr?
    requires body["roles"] == JObj(map["length" := ToStringOne()])
    ensures RegisterOutcome(users, id, body, same, hashed, roleFound, signed)
              == Registration(Some(NewUser(id, body, hashed)), ErrorReply(NotPrimitive))
  {
    var roles := body["roles"];
    assert LengthThrows(roles) by {
      assert "length" in roles.fields && roles.fields["length"] == ToStringOne();
      assert "toString" in ToStringOne().fields;
    }
  }

  /** A `roles` array `[{"toString": 1}]` whose one id names no role, in a
      body that gets past the checks: the text of the 404 throws, so the
      row stays and the reply is 500, not 404. */
  lemma ThrowingRoleIdSaved(users: seq<UserRecord>, body: map<string, Json>, same: (Json, Json) -> bool,
                            id: nat, hashed: string, roleFound: Json -> bool, signed: Result<string, string>)
    requires RegisterGate(users, body, same).None? && body["password"].JStr?
    requires body["roles"] == JArr([ToStringOne()]) && !roleFound(ToStringOne())
    ensures RegisterOutcome(users, id, body, same, hashed, roleFound, signed)
              == Registration(Some(NewUser(id, body, hashed)), ErrorReply(NotPrimitive))
  {
    var ids := body["roles"].items;
    assert ids[0] == ToStringOne();
    assert FirstMissing(ids, roleFound) == Some(0);
    assert ToPrimitiveThrows(ToStringOne()) by {
      assert "toString" in ToStringOne().fields;
    }
  }

  /** A body that passes the checks and names only existing roles is
      answered 201 once the token is signed, and its row is saved. */
  lemma LinkedRolesRegister(users: seq<UserRecord>, body: map<string, Json>, same: (Json, Json) -> bool,
                            id: nat, hashed: string, roleFound: Json -> bool, token: string)
    requires RegisterGate(users, body, same).None? && body["password"].JStr?
    requires body["roles"].JArr? && forall j | 0 <= j < |body["roles"].items| :: roleFound(body["roles"].items[j])
    ensures var o := RegisterOutcome(users, id, body, same, hashed, roleFound, Ok(token));
            o.saved == Some(NewUser(id, body, hashed)) && o.reply.status == 201
  {
  }

  lemma SampleName()
    ensures NameTest(JStr("Ann"))
  {
    assert IsValidName("Ann") by {
      assert forall i | 0 <= i < 3 :: IsAsciiLetter("Ann"[i]);
    }
  }

  lemma SampleEmail()
    ensures IsValidEmail("a@b.co")
  {
    var s := "a@b.co";
    assert s[..1] == "a" && s[2..3] == "b" && s[4..] == "co";
    assert EmailSplit(s, 1, 3);
    PatternIsValidEmail(s, 1, 3);
  }

  /** The `user` table, with its auto-increment counter and the
      database's comparison of values. */
  /** Ids below the next one, increasing in row order, and no clash of
      email or name. */
  ghost predicate TableValid(users: seq<UserRecord>, nextId: nat, same: (Json, Json) -> bool)
  {
    && (forall i | 0 <= i < |users| :: users[i].id < nextId)
    && (forall i, j | 0 <= i < j < |users| :: users[i].id < users[j].id)
    && Unique(users, same)
  }

  lemma RegisterKeepsValid(users: seq<UserRecord>, nextId: nat, body: map<string, Json>,
                           same: (Json, Json) -> bool, hashed: string)
    requires TableValid(users, nextId, same)
    requires RegisterGate(users, body, same).None?
    ensures TableValid(users + [NewUser(nextId, body, hashed)], nextId + 1, same)
  {
    RegisterKeepsUnique(users, body, same, nextId, hashed);
    AppendKeepsIdsIncreasing(users, nextId, NewUser(nextId, body, hashed));
  }

  /** Appending a row whose id is the next one keeps the ids increasing
      and below the new counter. */
  lemma AppendKeepsIdsIncreasing(users: seq<UserRecord>, nextId: nat, u: UserRecord)
    requires forall i | 0 <= i < |users| :: users[i].id < nextId
    requires forall i, j | 0 <= i < j < |users| :: users[i].id < users[j].id
    requires u.id == nextId
    ensures forall i | 0 <= i < |users + [u]| :: (users + [u])[i].id < nextId + 1
    ensures forall i, j | 0 <= i < j < |users + [u]| :: (users + [u])[i].id < (users + [u])[j].id
  {
    var after := users + [u];
    forall i, j | 0 <= i < j < |after|
      ensures after[i].id < after[j].id
    {
      assert after[i] == users[i];
      if j < |users| {
        assert after[j] == users[j];
      }
    }
  }

  class UserTable {
    var users: seq<UserRecord>
    var nextId: nat
    const same: (Json, Json) -> bool

    ghost predicate Valid()
      reads this
    {
      TableValid(users, nextId, same)
    }

    constructor (same: (Json, Json) -> bool)
      ensures Valid() && users == [] && this.same == same
    {
      users := [];
      nextId := 1;
      this.same := same;
    }

    /** The checks `register` makes before hashing, each ending the
        handler with its own `throwError`. */
    method CheckBody(res: Response<AuthPayload>, body: map<string, Json>) returns (passed: bool)
      modifies res
      ensures passed <==> RegisterGate(users, body, same).None?
      ensures passed ==> res.sent == old(res.sent)
      ensures !passed ==> res.sent == old(res.sent) + [RegisterGate(users, body, same).value]
    {
      passed := false;
      if !RequiredPresent(body) {
        ThrowError(res, MissingFields, 400);
        return;
      }
      if ToPrimitiveThrows(body["name"]) {
        ThrowError(res, NotPrimitive);
        return;
      }
      if !NameTest(body["name"]) {
        ThrowError(res, BadName, 400);
        return;
      }
      if ToPrimitiveThrows(body["email"]) {
        ThrowError(res, NotPrimitive);
        return;
      }
      if !EmailTest(body["email"]) {
        ThrowError(res, BadEmail, 400);
        return;
      }
      var existing := Taken(users, body["name"], body["email"], same);
      if existing {
        ThrowError(res, UserExists, 409);
        return;
      }
      passed := true;
    }

    /** `register`, run to its first reply. Later sends in the same call
        (a second missing role, the 201 after a 404) fail because the
        headers are already sent, and reach no one. */
    method Register(res: Response<AuthPayload>, body: map<string, Json>, hashed: string,
                    roleFound: Json -> bool, signed: Result<string, string>)
      modifies this, res
      ensures var o := RegisterOutcome(old(users), old(nextId), body, same, hashed, roleFound, signed);
              && users == old(users) + (if o.saved.Some? then [o.saved.value] else [])
              && nextId == old(nextId) + (if o.saved.Some? then 1 else 0)
              && res.sent == old(res.sent) + [o.reply]
      ensures old(Valid()) ==> Valid()
    {
      var passed := CheckBody(res, body);
      if !passed {
        return;
      }
      var password := body["password"];
      if !password.JStr? {
        ThrowError(res, HashRefused(password), 500);
        return;
      }
      var u := NewUser(nextId, body, hashed);
      assert RegisterOutcome(users, nextId, body, same, hashed, roleFound, signed)
        == Registration(Some(u), AfterInsert(u, body["roles"], roleFound, signed));
      if Valid() {
        RegisterKeepsValid(users, nextId, body, same, hashed);
      }
      users := users + [u];
      nextId := nextId + 1;
      LinkAndSign(res, u, body["roles"], roleFound, signed);
    }

    /** `login`: the two checks it makes; a known email ends the handler
        without a reply. */
    method Login(res: Response<AuthPayload>, body: map<string, Json>)
      modifies res
      ensures LoginReply(users, body, same).Some? ==> res.sent == old(res.sent) + [LoginReply(users, body, same).value]
      ensures LoginReply(users, body, same).None? ==> res.sent == old(res.sent)
    {
      if !Truthy(Prop(body, "email")) || !Truthy(Prop(body, "password")) {
        ThrowError(res, LoginMissing, 400);
        return;
      }
      var user := HasEmail(users, body["email"], same);
      if !user {
        ThrowError(res, LoginRefused, 401);
      }
    }
  }
}
