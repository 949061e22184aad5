# athlink-server: a verified model of its request logic

athlink-server is the Express back end of a sports network for athletes,
coaches, clubs and federations. This project models the parts of it that
hold logic of their own:

- **Connection requests.** The connection service inserts a `pending`
  record for a pair of users. It refuses self-connections and pairs that
  already exist in either direction. Its HTTP handler checks the caller
  and the path parameter first, and turns the service's errors into 400
  replies. (`Connections`, `ConnectionHandler`)
- **The real-time relay.** The socket server keeps a presence map from
  socket id to user id. It forwards each `sendMessage` to the first
  socket, in insertion order, that is mapped to the receiver. (`Presence`)
- **Registration and login.** The auth controller has two format checks,
  for a name and an email. `register` and `login` run early-return chains
  of checks, and `register` inserts the user. (`AuthValidation`,
  `AuthHandlers`)
- **Bearer-token middleware.** It splits the header, checks that the
  secret is set, and classifies verification errors. (`JwtAuth`)
- **The athlete profile controller.** Its hand-written checks include the
  weight check that tests the wrong field. (`ProfileHandler`)
- **The zod request schemas.** These are the auth schemas, the two
  general schema files and the athlete schema, written as predicates over
  decoded JSON. (`SchemaRules`, `AuthSchemas`, `GeneralSchemas`,
  `LegacySchemas`, `AthleteSchemas`)
- **The error-reply helpers** that every controller uses. (`HttpErrors`)

The JavaScript semantics that these rules rely on are stated once, in
`JsValues`:

- truthiness;
- `===`;
- `String(x)` as a regular expression's `test` applies it;
- `parseInt`;
- which values cannot be converted to a primitive (an object with its own `toString`).

A response is modelled as the log of the replies a handler sends; the
client receives the first one. State the source changes in place is a
class:

- the connection table: `Connections.ConnectionStore`;
- the user table: `AuthHandlers.UserTable`;
- the relay's presence map and emits: `Presence.Relay`;
- the request the middleware annotates: `JwtAuth.Request`;
- the response: `HttpErrors.Response`.

Each of these classes has methods proved against the pure functions that
specify them.

## Model

| member | source | states |
|---|---|---|
| HttpErrors.ErrorReply | src/utils/error.ts:22-32 | status defaults to 500; an empty message becomes "Internal Server Error" and a non-empty one is kept; falsy details become `null`, truthy details are passed through |
| HttpErrors.ThrowError | src/utils/error.ts:22-32 | each call sends exactly one reply, the ErrorReply, and nothing else |
| HttpErrors.NotFoundReply | src/utils/error.ts:34-44 | status 404 with message "<entity> Not found" |
| HttpErrors.ThrowNotFound | src/utils/error.ts:34-44 | with `check` true (the default) it sends the 404, with `check` false it sends nothing |
| Connections.NewConnection | src/db/entities/Connection.ts:13-25 | a new record's key is the ordered pair (user_id, connected_user_id) and its status defaults to pending |
| Connections.Create | src/modules/User/user.service.ts:6-32 | the `===` self check wins whatever the table holds; a record in either direction between the stored ids, of any status, gives "already exists" with the table unchanged; the call succeeds exactly when neither refusal applies, and then it returns the pending entity built from the arguments, with the caller's id as the request carried it, and adds exactly its stored row under a key that was free, every other record untouched; one record per unordered pair is always preserved, and no self pair is preserved when `===` caught what the database stores |
| Connections.StoredRow | src/db/entities/Connection.ts:13-25 | the row stored for a saved entity is keyed by the database's reading of its user id and the other user's id, with the entity's status and creation time |
| Connections.StrictEqualsNumber | src/modules/User/user.service.ts:10 | `userId === connectedUserId` for a numeric `connectedUserId` holds exactly when `userId` is that very number |
| Connections.NumericIdCaught | src/modules/User/user.service.ts:10 | a caller id that is an integral number is caught by the self check whenever the database would store a self pair |
| Connections.StringIdConnectsToSelf | src/modules/User/user.service.ts:10-31 | the caller id "5" against user 5 passes `===`: the entity with user id "5" is returned and the record (5, 5) is stored |
| Connections.CreateCorrected | src/modules/User/user.service.ts:10-31 | with the self check on the stored ids, the self error comes exactly for a self pair, the full invariant is always preserved, and the outcome is Create's whenever Create's check was sound |
| Connections.AtMostOneBetween | src/db/entities/Connection.ts:14-18 | under the invariant two users share at most one record, although (a,b) and (b,a) are distinct keys |
| Connections.NoSecondRequest | src/modules/User/user.service.ts:14-23 | after a successful request between two users, the same request again fails with "already exists", and the reverse request fails with "already exists" (or with the self error, when the stored ids were equal) |
| Connections.ReplayKeepsInvariant | src/modules/User/user.service.ts:10-31 | any sequence of requests keeps one record per unordered pair and only ever adds records, never changing an existing one; no self pair is kept when the self check catches every request |
| Connections.ConnectionStore.CreateConnection | src/modules/User/user.service.ts:6-32 | the stored table and the returned entity or error are those of Create; one record per pair is kept, and no self pair when the self check catches the request |
| ConnectionHandler.ServiceReply | src/modules/User/user.controller.ts:26-42 | a saved entity gives 200 "Connection made successfully" with that entity; a service error gives 400 with the error's message |
| ConnectionHandler.Handle | src/modules/User/user.controller.ts:5-43 | a falsy userId (0 included) gives 401 before the path is looked at; a path parameter parseInt reads as NaN gives 400; otherwise the service decides on the body's value as decoded; the status is 200, 400 or 401; only a 200 changes the table; one record per pair is preserved, and no self pair for a caller id that is an integral number |
| ConnectionHandler.ServiceRefusals | src/modules/User/user.controller.ts:35-42 | the self and the duplicate errors both become 400 replies carrying the service's message, with the table unchanged |
| ConnectionHandler.StringCallerConnectsToSelf | src/modules/User/user.controller.ts:7-34 | the body `{"userId": "5"}` posted to `/user/5` gets 200 and stores the self pair (5, 5) |
| ConnectionHandler.StringCallerEchoed | src/modules/User/user.controller.ts:7-34 | the body `{"userId": "5"}` posted to `/user/7` gets 200 with the text "5" as the entity's user id, while the stored row (5, 7) holds the number 5 |
| ConnectionHandler.CreateConnection | src/modules/User/user.controller.ts:5-43 | sends exactly the reply of Handle and leaves the store as Handle does |
| JsValues.DigitRun | src/modules/User/user.controller.ts:8 | parseInt reads the longest prefix of digits: all of it digits, and the next character none |
| JsValues.ParseIntOfIntText | src/modules/User/user.controller.ts:8 | parseInt reads back the decimal text of every integer of magnitude at most 2^53 (the model's parseInt is exact beyond that too, where JavaScript rounds) when what follows is not a digit, and, for the text "0", not an 'x' or 'X' (which would make a hex prefix) |
| JsValues.ToPrimitiveThrowsExamples | src/modules/Auth/auth.controller.ts:45 | converting `{"toString": 1}` to a primitive throws, and so does an array holding it; `{"valueOf": 1}` and `[{}]` convert |
| JsValues.GreaterThanZeroExamples | src/modules/Auth/auth.controller.ts:90 | `x > 0` reads a string by ToNumber: "1", " 2 ", "0x1", "1e3", "Infinity" and the array ["3"] are above 0; "", "0", "-1", "0x0", "1,2", "abc", "1e-400" (below the least double) and the array [1, 2] are not |
| Presence.SetEntry | src/config/socket.ts:19-22 | `join` maps the session to the given id; other sessions' entries are unchanged; an existing session keeps its place and a new one goes last; keys stay unique |
| Presence.FirstMatch | src/config/socket.ts:28-30 | the found entry is `===` to the receiver id and no earlier one is; none is found exactly when no entry matches |
| Presence.MessagePayload | src/config/socket.ts:34-37 | every field of the message is kept and overrides; `senderId` is the sender's mapped id, absent when the sender never joined |
| Presence.Delivery | src/config/socket.ts:25-40 | at most one `newMessage` is emitted, to the first matching session, and none when no session matches |
| Presence.JoinedSessionReceives | src/config/socket.ts:19-40 | a session that joined with an id no other session holds receives every message addressed to that id; an id not `===` to itself (NaN, an array, an object) reaches nobody |
| Presence.RunOnlyGrows | src/config/socket.ts:13-41 | over any sequence of events the set of session ids only grows, ids stay unique, and earlier emits remain |
| Presence.Step | src/config/socket.ts:19-40 | `sendMessage` never changes the presence map and `join` never emits |
| Presence.Relay.Join | src/config/socket.ts:19-22 | the new state is Step of the old one, and unique keys are kept |
| Presence.Relay.FindReceiver | src/config/socket.ts:28-30 | the loop over the entries in insertion order finds the session that FirstMatch specifies |
| Presence.Relay.SendMessage | src/config/socket.ts:25-40 | the new state is Step of the old one |
| AuthValidation.ValidEmailIffPattern | src/modules/Auth/auth.controller.ts:21-24 | `isValidEmail` holds if and only if the string splits as local '@' domain '.' tld, with a non-empty local part over `[A-Za-z0-9._%+-]`, a non-empty domain over `[A-Za-z0-9.-]` and a tld of at least two ASCII letters |
| AuthValidation.ValidEmailMatchesPattern | src/modules/Auth/auth.controller.ts:21-24 | every email the check accepts has such a split |
| AuthValidation.PatternIsValidEmail | src/modules/Auth/auth.controller.ts:21-24 | every such split is accepted |
| AuthValidation.EmailParts | src/modules/Auth/auth.controller.ts:22 | an accepted email is local + "@" + domain + "." + tld with each part valid |
| AuthValidation.ValidEmailHasOneAt | src/modules/Auth/auth.controller.ts:22 | every accepted email contains exactly one '@' |
| AuthValidation.NameRejectsDigitOrComma | src/modules/Auth/auth.controller.ts:15-18 | a text holding a digit or a ',' is not a valid name |
| AuthValidation.EmailRejectsComma | src/modules/Auth/auth.controller.ts:21-24 | a text holding a ',' (an array of two or more elements) is not a valid email |
| AuthValidation.EmailRejectsNoAt | src/modules/Auth/auth.controller.ts:21-24 | a text without '@' is not a valid email |
| AuthValidation.NameTestOfLiterals | src/modules/Auth/auth.controller.ts:45 | `true`, `false` and `null` pass the name check through their text, and no number does |
| AuthValidation.EmailTestOfScalars | src/modules/Auth/auth.controller.ts:54 | no null, boolean or number passes the email check |
| AuthHandlers.RegisterGate | src/modules/Auth/auth.controller.ts:31-73 | any falsy name, email, password or roles gives 400 "Missing required fields" before any format check; then the name is checked before the email (both 400), and a name or email that cannot be converted to a primitive (an object with its own `toString`) ends in the `catch` with 500 "Cannot convert object to primitive value"; then an existing user with the same email or name gives 409; the request gets through exactly when all four pass |
| AuthHandlers.RegisterKeepsUnique | src/modules/Auth/auth.controller.ts:63-87 | a registration that gets through adds a user whose email and name clash with no existing row |
| AuthHandlers.RegisterTwiceConflicts | src/modules/Auth/auth.controller.ts:63-73 | registering the same body again is refused with 409 |
| AuthHandlers.RegisteredUserCanLogIn | src/modules/Auth/auth.controller.ts:154-166 | after registering, a login with the same email and any password gets no 401 |
| AuthHandlers.LoginReply | src/modules/Auth/auth.controller.ts:140-166 | a falsy email or password gives 400; otherwise an unknown email gives 401 "Invalid email or password" and a known one no reply |
| AuthHandlers.RegisterOutcome | src/modules/Auth/auth.controller.ts:31-137 | a refused request gets the RegisterGate reply and saves nothing; a password that is not a string is refused by the hashing with 500 before the insert; otherwise the user is saved, and then a `roles` object whose `length` cannot be converted gives 500 "Cannot convert object to primitive value", a `roles` with a length that is not an array gives 500 "roles.map is not a function", the first role id that names no role gives the 404 for that id, or 500 when that id cannot be converted to text (404 exactly then), a failed signing gives 500 with its message, and otherwise 201 with the fields `register` sets on the user (id, name, email, bio) without the password, the token and "User registered successfully" |
| AuthHandlers.MissingRoleReply | src/modules/Auth/auth.controller.ts:97-103 | the reply for a role id that names no role is the 404 exactly when the id converts to text; otherwise the template literal throws and the `catch` answers 500 |
| AuthHandlers.FirstMissing | src/modules/Auth/auth.controller.ts:92-103 | the first role id, in array order, whose lookup finds nothing: every earlier id names a role, and none exists exactly when every id names one |
| AuthHandlers.LinkRoles | src/modules/Auth/auth.controller.ts:90-112 | the loop over the role ids sends MissingRoleReply for the first id FirstMissing finds, and nothing when every id names a role |
| AuthHandlers.LinkAndSign | src/modules/Auth/auth.controller.ts:90-128 | after the insert exactly one reply is sent: the one RegisterOutcome gives |
| AuthHandlers.NumericPasswordPassesChecks | src/modules/Auth/auth.controller.ts:36-73 | a body with well-formed name, email and roles and the number 123456 as password passes every check of the controller |
| AuthHandlers.NumericPasswordRefused | src/modules/Auth/auth.controller.ts:73-77 | a body past the checks with the number 123456 as password gets 500 with the hashing's message for a `number` password ("Illegal arguments: number, string"), and no row is saved |
| AuthHandlers.SampleBodyPassesChecks | src/modules/Auth/auth.controller.ts:36-73 | a body with well-formed name, email and password and any array or object as roles passes every check of the controller |
| AuthHandlers.LengthObjectNotMappable | src/modules/Auth/auth.controller.ts:87-92 | a body past the checks whose `roles` is the object `{"length": "1"}` (so `"1" > 0` holds) has its user saved and gets 500 "roles.map is not a function" |
| AuthHandlers.ThrowingNameRefused | src/modules/Auth/auth.controller.ts:44-51 | with every field present, the name `{"toString": 1}` makes `isValidName` throw, and the reply is 500 "Cannot convert object to primitive value", not 400 |
| AuthHandlers.ThrowingLengthSaved | src/modules/Auth/auth.controller.ts:87-90 | a body past the checks whose `roles` is `{"length": {"toString": 1}}` has its user saved, and `roles.length > 0` throws: the reply is 500 "Cannot convert object to primitive value" |
| AuthHandlers.ThrowingRoleIdSaved | src/modules/Auth/auth.controller.ts:90-103 | a body past the checks whose `roles` is `[{"toString": 1}]`, an id naming no role, has its user saved and gets 500 "Cannot convert object to primitive value", not the 404 |
| AuthHandlers.LinkedRolesRegister | src/modules/Auth/auth.controller.ts:87-128 | a body that passes the checks, with a string password and only existing role ids, is saved and answered 201 once the token is signed |
| AuthHandlers.RegisterKeepsValid | src/modules/Auth/auth.controller.ts:63-87 | a registration that gets through keeps ids increasing and below the counter, and emails and names unique |
| AuthHandlers.UserTable.CheckBody | src/modules/Auth/auth.controller.ts:36-73 | sends exactly the RegisterGate reply when a check fails or throws, and nothing when all pass |
| AuthHandlers.UserTable.Register | src/modules/Auth/auth.controller.ts:31-137 | appends the row RegisterOutcome saves, if any, with the next id, and sends its reply; ids stay increasing and rows unique |
| AuthHandlers.UserTable.Login | src/modules/Auth/auth.controller.ts:140-166 | sends exactly the LoginReply, if there is one |
| AuthSchemas.NameSchemaIff | src/utils/schemas/authSchema.ts:3-5 | nameSchema accepts exactly the non-empty strings of ASCII letters and whitespace |
| AuthSchemas.EmailSchemaWithinPattern | src/utils/schemas/authSchema.ts:7-13 | whatever zod's own email check is, emailSchema accepts only strings the pattern accepts |
| AuthSchemas.RegisterSchemaPassesControllerChecks | src/utils/schemas/authSchema.ts:15-20 | a body registerSchema accepts passes the controller's field and format checks, so only the duplicate check can refuse it |
| AuthSchemas.ControllerLooserThanSchema | src/utils/schemas/authSchema.ts:15-20 | a body with a `true` name, a one-letter password and the string "admin" for roles passes the controller's checks, which the schema refuses; the user is then saved and the reply is 500 "roles.map is not a function" |
| AuthSchemas.EmptyLoginPassword | src/utils/schemas/authSchema.ts:24-27 | loginSchema takes an empty password, which the login handler refuses with 400 |
| JwtAuth.JoinSplit | src/middlewares/jwt.auth.ts:37 | joining the pieces of `split` with the separator gives back the header |
| JwtAuth.SplitJoin | src/middlewares/jwt.auth.ts:37 | splitting a join of separator-free pieces gives back the pieces |
| JwtAuth.BearerTokenIff | src/middlewares/jwt.auth.ts:37-46 | the header is accepted with token t exactly when it is "Bearer " followed by t and t holds no space; t may be empty |
| JwtAuth.MalformedHeaders | src/middlewares/jwt.auth.ts:37-45 | "bearer abc" and "Bearer  abc" are refused and "Bearer " gives the empty token |
| JwtAuth.Authenticate | src/middlewares/jwt.auth.ts:21-91 | no header gives 401 "No token provided" and a malformed one 401 "Token error", whatever the secret; an unset secret gives 500 only after the header passed; the request proceeds exactly when verification returns a payload, with `req.user` set to its id, email and roles; every refusal is a 401 or a 500 |
| JwtAuth.VerificationOutcomes | src/middlewares/jwt.auth.ts:69-90 | an expired token gives 401 "Token expired", another token error 401 "Invalid token", any other failure 500 "Internal server error" with the error as details |
| JwtAuth.EmptyTokenReachesVerify | src/middlewares/jwt.auth.ts:46-56 | "Bearer " is not refused for its format: the empty token goes to verification, whose error decides |
| JwtAuth.AuthenticateJWT | src/middlewares/jwt.auth.ts:21-91 | on success `req.user` is set and `next` is called exactly once with no reply sent; on refusal exactly one reply is sent and the request is left as it was |
| ProfileHandler.HeightCompared | src/modules/Athlete/profile.controller.ts:61-66 | the height the weight check compares is NaN when absent, 0 when `null`, `false` or `""`, and otherwise a number in [0, 300] |
| ProfileHandler.EditProfileGate | src/modules/Athlete/profile.controller.ts:10-73 | the checks run in the order id, position, age, height, weight, each giving 400 with its own message; a falsy field skips its check |
| ProfileHandler.EditProfileReply | src/modules/Athlete/profile.controller.ts:75-86 | a request past the checks gets 404 "Athlete not found" exactly when no athlete has the parsed id, and no reply when one does |
| ProfileHandler.EditProfile | src/modules/Athlete/profile.controller.ts:10-96 | sends exactly the reply of EditProfileReply, or nothing, and updates nothing |
| ProfileHandler.EditBio | src/modules/Athlete/profile.controller.ts:98-109 | sends nothing |
| ProfileHandler.EditTrophies | src/modules/Athlete/profile.controller.ts:111-122 | sends nothing |
| ProfileHandler.EditExperience | src/modules/Athlete/profile.controller.ts:124-135 | sends nothing |
| ProfileHandler.WeightCheckAsWritten | src/modules/Athlete/profile.controller.ts:61-73 | as written, a truthy weight is refused exactly when it is not a number or the height is `null`, `false`, `""` or 0; its own value is never range-checked, and the `> 500` test never fires |
| ProfileHandler.WeightBoundIgnored | src/modules/Athlete/profile.controller.ts:61-73 | a weight of 1000 passes with no height or with a height of 180, and a weight of 50 with a `null` height is refused |
| ProfileHandler.EditProfileGateCorrected | src/modules/Athlete/profile.controller.ts:61-73 | with the weight range checked on the weight, a request gets through exactly when every field passes its own check; other replies are unchanged |
| ProfileHandler.CorrectedWeightCheck | src/modules/Athlete/profile.controller.ts:61-73 | corrected, once position, age and height pass, an edit gets through exactly when the weight is falsy or a number in (0, 500], whatever the height; every edit the athlete schema accepts gets through |
| ProfileHandler.SchemaAcceptsWhatHandlerRefuses | src/schemas/athleteSchema.ts:11-22 | the athlete schema accepts a weight of 50 with a `null` height, which the handler as written refuses |
| SchemaRules.NullishWidensOptional | src/utils/schemas/generalSchema.ts:31-44 | an `.optional()` field refuses `null` unless its rule takes it, while a `.nullable().optional()` field takes it |
| GeneralSchemas.EditProfileBounds | src/utils/schemas/generalSchema.ts:3-45 | age, height and weight are absent, `null` or numbers in [1,120], [1,300] and [1,500]; a numeric federation_id is an integer of at least 1; location, founded_year, country and specialty are never `null` |
| GeneralSchemas.EditProfileExamples | src/utils/schemas/generalSchema.ts:3-45 | a fractional age passes; a fractional federation_id, a `null` location, an age of 0.5 and a non-object body are refused |
| GeneralSchemas.RecordSchemaBounds | src/utils/schemas/generalSchema.ts:58-113 | a trophy's federation_id is at least 1 (so 0.5 is refused) and its category is from the list; an experience date has 1 to 100 characters; a tryout description has at most 1000 and may be empty; the application status is case-sensitive |
| GeneralSchemas.CreatePostMedia | src/utils/schemas/generalSchema.ts:117-133 | a post carries at most five media files, each an image or a video |
| LegacySchemas.NewerProfileImpliesOlder | src/schemas/generalSchema.ts:3-39 | every profile edit the newer schema accepts, the older one accepts |
| LegacySchemas.OlderProfileAdmitsAnyFederationId | src/schemas/generalSchema.ts:3-39 | the older schema has no federation_id rule: it takes -2.5, which the newer one refuses |
| LegacySchemas.SharedRulesAgree | src/schemas/generalSchema.ts:43-80 | the bio, trophy and experience rules of the two files accept the same bodies |
| AthleteSchemas.OlderProfileImpliesAthlete | src/schemas/athleteSchema.ts:3-28 | every profile edit the older general schema accepts, the athlete schema accepts |
| AthleteSchemas.AthleteProfileIgnoresClubFields | src/schemas/athleteSchema.ts:3-28 | the athlete schema ignores the club fields: a `null` location passes there and not in the general schema |
| AthleteSchemas.BioRulesAgree | src/schemas/athleteSchema.ts:30-35 | the athlete bio rule accepts the same bodies as the general one |

## Left out

- Database access and the ORM:
  - the model does not cover a failing `findOne` or `save`, which the handlers' `catch` blocks turn into 500 or 400 replies;
  - creation times and generated ids are parameters;
  - the database's comparison of a stored value with a query value is the parameter `same` of `AuthHandlers.UserTable`.
- ConnectionHandler.Handle: the handler calls `connectionService.createConnectionService` (src/modules/User/user.controller.ts:26), which the service module does not export; the model takes that call to be the service's `createConnection` (src/modules/User/user.service.ts:6). As written, every request past the two gates would get 400 "connectionService.createConnectionService is not a function" from the `catch`.
- The database's conversion of a request value to a bigint user column is the parameter `column` of `Connections.ConnectionStore`, a total function: a value the database cannot convert (and the error it then throws) is not modelled.
- Connections.Create: keys are unbounded integers. The model does not capture that the unsigned bigint columns refuse a negative id such as the one `parseInt("-3")` gives.
- AuthHandlers.PublicUser: the 201 body is the saved entity without its password, which also carries the timestamp columns the database fills in (`created_at` and `updated_at` of src/entities/User.ts); the model keeps only the fields `register` sets.
- AuthHandlers.UserTable.Register:
  - the role lookups of `Promise.all` run concurrently; the model takes them in array order, so the 404 names the first missing id in the array rather than the first lookup to finish;
  - the `user_role` rows saved for found roles are not modelled;
  - the model stops at the first reply; the later sends of the same call (a second 404, the 201 after a 404) fail because the headers are already sent.
- The bcrypt hash of a string password and the outcome of `jwt.sign` are parameters of `Register`.
- AuthHandlers.UserTable.Login: the source stops after finding the user; no password comparison or token exists to model, so a found user gets no reply.
- JwtAuth.AuthenticateJWT:
  - `jwt.verify` is the parameter `verify`, and its error kinds are the datatype `Verification` (a not-yet-valid token counts as an invalid one);
  - an error thrown by `next()` itself, which the `catch` would turn into a 500 after `next` ran, is not modelled.
- zod's own `.email()` and `.url()` checks are the parameters `zodEmail` and `isUrl`.
- String lengths: zod counts UTF-16 code units and the model counts characters, so the two differ for characters outside the Basic Multilingual Plane.
- Numbers: `Num` is NaN or a finite real, and a body's numbers are taken to be the doubles `JSON.parse` decodes. A literal beyond the double range, such as `1e400`, decodes to Infinity, which the model has no value for; bodies carrying one are not modelled.
- AuthValidation.NameTest: the model does not capture that the name `1e400` decodes to Infinity, whose text "Infinity" passes `isValidName`, so such a request gets past the name check where every number in the model is refused.
- JsValues.ParseIntOfIntText: the model's `ParseInt` returns the exact integer, where JavaScript's `parseInt` returns the nearest double, so above 2^53 the two differ (`parseInt("9007199254740993")` is 9007199254740992). The self check `===` of `Connections.Create` compares the exact integers, so for such ids it does not capture the rounding.
- JsValues.ToJsString: non-integral numbers and numbers of magnitude 10^21 or more have no spelled-out text (`None`). For the two controller checks this loses nothing: the text of such a finite number holds a digit and no '@', so both checks refuse it, and the model's tests also answer false.
- AuthHandlers.RegisterOutcome: the 404 for a missing role id that is a non-integral number, or one of magnitude 10^21 or more, is written with the empty text ("Role with id  Not found") where the source writes the number ("Role with id 1.5 Not found"); its status and the rest of the reply are as in the source.
- ProfileHandler.EditProfile:
  - a route id that `parseInt` reads as NaN is taken to match no athlete;
  - the lookup is a set of athlete ids.
- The parsed request body is taken as given. No JSON body parser is registered in `src/index.ts`, and the handlers' behaviour on an undefined body (a thrown destructuring error) is not modelled.
- Presence:
  - socket ids are opaque numbers;
  - a payload that is not a JSON object is not modelled (the `null` payload throws, and a primitive has `receiverId` undefined and spreads into the emit);
  - logging is left out.
- Concurrency: each handler call, and each socket event, runs atomically. The model does not capture the race between the duplicate check and the insert in the connection service or in `register`.

## Findings

| source | as written | input that shows it | evidently intended | confidence | as-written member | corrected member |
|---|---|---|---|---|---|---|
| src/modules/User/user.service.ts:10-31 | the self check compares the body's `userId` with `===` against the parsed number, while the queries and the insert use the value the database converts it to | the body `{"userId": "5"}` posted to `/user/5`: `"5" === 5` is false and the pair (5, 5) is stored | refuse every request whose two stored ids are equal | not executed; medium | Connections.StringIdConnectsToSelf | Connections.CreateCorrected |
| src/modules/Athlete/profile.controller.ts:61-73 | the weight check tests the type of `weight` but compares `height <= 0 \|\| height > 500` | `{weight: 1000}` with no height gets through; `{weight: 50, height: null}` is refused with the weight message | `weight <= 0 \|\| weight > 500`, like the age and height checks | not executed; high | ProfileHandler.WeightBoundIgnored | ProfileHandler.CorrectedWeightCheck |

`Connections.Create` keeps the self check as written, and the handler uses it.
`Connections.CreateCorrected` is the intended check; it always preserves the
full invariant, and it agrees with `Connections.Create` for every caller id
that is an integral number, when the database stores such a number as that
integer.

`ProfileHandler.EditProfile` keeps the check as written, since that is what
the handler does. `ProfileHandler.EditProfileGateCorrected` is the intended
check. It is the one the athlete schema is proved consistent with
(`ProfileHandler.CorrectedWeightCheck`), and `ProfileHandler.SchemaAcceptsWhatHandlerRefuses`
shows that the check as written is not.
