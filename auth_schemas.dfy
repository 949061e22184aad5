/** The zod schemas of `utils/schemas/authSchema.ts`: the same two format
    rules as the auth controller, stated as schemas, plus password and
    role rules the controller does not make. */
module AuthSchemas {
  import opened Outcomes
  import opened JsValues
  import opened SchemaRules
  import opened AuthValidation
  import HttpErrors
  import AuthHandlers

  /** `nameSchema`: a string the name pattern matches. */
  predicate NameSchema(v: Json)
  {
    v.JStr? && IsValidName(v.s)
  }

  /** `emailSchema`: a string that passes zod's own `.email()` check,
      `zodEmail`, and the email pattern. */
  predicate EmailSchema(v: Json, zodEmail: string -> bool)
  {
    v.JStr? && zodEmail(v.s) && IsValidEmail(v.s)
  }

  /** `registerSchema` */
  predicate RegisterSchema(body: Json, zodEmail: string -> bool)
  {
    body.JObj? &&
    var f := body.fields;
    && Required(Prop(f, "name"), NameSchema)
    && Required(Prop(f, "email"), (v: Json) => EmailSchema(v, zodEmail))
    && Required(Prop(f, "password"), v => StringAtLeast(v, 6))
    && Required(Prop(f, "roles"), (v: Json) => v.JArr? && |v.items| >= 1 && forall i | 0 <= i < |v.items| :: IsNumber(v.items[i]))
  }

  /** `loginSchema`: any string is a password, the empty one included. */
  predicate LoginSchema(body: Json, zodEmail: string -> bool)
  {
    body.JObj? &&
    var f := body.fields;
    && Required(Prop(f, "email"), (v: Json) => EmailSchema(v, zodEmail))
    && Required(Prop(f, "password"), IsString)
  }

  /** `nameSchema` accepts exactly the non-empty strings of ASCII letters
      and whitespace. */
  lemma NameSchemaIff(s: string)
    ensures NameSchema(JStr(s)) <==>
              |s| >= 1 && forall i | 0 <= i < |s| :: ('a' <= s[i] <= 'z' || 'A' <= s[i] <= 'Z' || IsJsWhitespace(s[i]))
  {
  }

  /** `emailSchema` accepts a subset of what the pattern alone accepts,
      whatever zod's own check is, and every string it accepts splits as
      local '@' domain '.' tld. */
  lemma EmailSchemaWithinPattern(s: string, zodEmail: string -> bool)
    requires EmailSchema(JStr(s), zodEmail)
    ensures IsValidEmail(s) && MatchesEmailPattern(s)
  {
    ValidEmailIffPattern(s);
  }

  /** A body the register schema accepts passes the controller's own
      field and format checks; only the duplicate check can still refuse
      it. */
  lemma RegisterSchemaPassesControllerChecks(body: Json, zodEmail: string -> bool,
                                             users: seq<AuthHandlers.UserRecord>, same: (Json, Json) -> bool)
    requires RegisterSchema(body, zodEmail)
    ensures AuthHandlers.RequiredPresent(body.fields)
    ensures var r := AuthHandlers.RegisterGate(users, body.fields, same);
            r.None? || r == Some(HttpErrors.ErrorReply(AuthHandlers.UserExists, 409))
  {
    SchemaFieldsPresent(body, zodEmail);
    SchemaFieldsFormatted(body, zodEmail);
  }

  lemma SchemaFieldsPresent(body: Json, zodEmail: string -> bool)
    requires RegisterSchema(body, zodEmail)
    ensures AuthHandlers.RequiredPresent(body.fields)
  {
    var f := body.fields;
    assert Truthy(Prop(f, "password")) by {
      assert |f["password"].s| >= 6;
    }
  }

  lemma SchemaFieldsFormatted(body: Json, zodEmail: string -> bool)
    requires RegisterSchema(body, zodEmail)
    ensures "name" in body.fields && NameTest(body.fields["name"])
    ensures "email" in body.fields && EmailTest(body.fields["email"])
  {
  }

  /** A register body the controller lets through and the schema refuses. */
  function LooseBody(): map<string, Json>
  {
    map["name" := JBool(true), "email" := JStr("a@b.co"), "password" := JStr("x"), "roles" := JStr("admin")]
  }

  /** The controller's checks let the loose body through. */
  lemma LooseBodyPassesChecks(users: seq<AuthHandlers.UserRecord>, same: (Json, Json) -> bool)
    requires !AuthHandlers.Taken(users, JBool(true), JStr("a@b.co"), same)
    ensures AuthHandlers.RegisterGate(users, LooseBody(), same).None?
    ensures LooseBody()["password"] == JStr("x") && LooseBody()["roles"] == JStr("admin")
  {
    LooseBodyPresent();
    LooseBodyFormats();
  }

  /** Every field the controller asks for is present and truthy. */
  lemma LooseBodyPresent()
    ensures AuthHandlers.RequiredPresent(LooseBody())
    ensures LooseBody()["name"] == JBool(true) && LooseBody()["email"] == JStr("a@b.co")
    ensures LooseBody()["password"] == JStr("x") && LooseBody()["roles"] == JStr("admin")
  {
    var body := LooseBody();
    assert Prop(body, "name") == Some(JBool(true));
    assert Prop(body, "email") == Some(JStr("a@b.co"));
    assert Prop(body, "password") == Some(JStr("x"));
    assert Prop(body, "roles") == Some(JStr("admin"));
  }

  /** The name and the email of the loose body pass the controller's tests. */
  lemma LooseBodyFormats()
    ensures NameTest(LooseBody()["name"]) && EmailTest(LooseBody()["email"])
  {
    LooseBodyPresent();
    NameTestOfLiterals(0.0);
    AuthHandlers.SampleEmail();
  }

  /** The controller is looser than the schema: it takes `true` for a name
      and a one-letter password, and does not look at what `roles` holds.
      The string `roles` then fails at `roles.map` after the insert: the
      row stays and the reply is 500. */
  lemma ControllerLooserThanSchema(zodEmail: string -> bool, users: seq<AuthHandlers.UserRecord>,
                                   same: (Json, Json) -> bool, id: nat, hashed: string,
                                   roleFound: Json -> bool, signed: Result<string, string>)
    requires !AuthHandlers.Taken(users, JBool(true), JStr("a@b.co"), same)
    ensures AuthHandlers.RegisterGate(users, LooseBody(), same).None?
    ensures !RegisterSchema(JObj(LooseBody()), zodEmail)
    ensures AuthHandlers.RegisterOutcome(users, id, LooseBody(), same, hashed, roleFound, signed)
              == AuthHandlers.Registration(Some(AuthHandlers.NewUser(id, LooseBody(), hashed)),
                                           HttpErrors.ErrorReply(AuthHandlers.NotMappable, 500))
  {
    LooseBodyPassesChecks(users, same);
    var body := LooseBody();
    assert AuthHandlers.LengthPositive(body["roles"]) && !AuthHandlers.LengthThrows(body["roles"]);
    AuthHandlers.NotMappableOutcome(users, id, body, same, hashed, roleFound, signed);
    assert !RegisterSchema(JObj(body), zodEmail) by {
      assert Prop(body, "password") == Some(JStr("x"));
    }
  }

  /** The login schema takes an empty password; the controller refuses it
      with 400 before any lookup. */
  lemma EmptyLoginPassword(email: string, zodEmail: string -> bool,
                           users: seq<AuthHandlers.UserRecord>, same: (Json, Json) -> bool)
    requires EmailSchema(JStr(email), zodEmail)
    ensures LoginSchema(JObj(map["email" := JStr(email), "password" := JStr("")]), zodEmail)
    ensures AuthHandlers.LoginReply(users, map["email" := JStr(email), "password" := JStr("")], same)
              == Some(HttpErrors.ErrorReply(AuthHandlers.LoginMissing, 400))
  {
  }
}
