/** The `authenticateJWT` middleware: it reads a bearer token from the
    Authorization header, verifies it with the server's secret and either
    stores the token's user on the request and passes it on, or answers
    with an error. */
module JwtAuth {
  import opened Outcomes
  import opened JsValues
  import opened HttpErrors

  // ---------------------------------------------------------------------
  // String.prototype.split with a one-character separator.

  /** `s.split(sep)`: the pieces between separators, empty pieces
      included. */
  function SplitOn(s: string, sep: char): (parts: seq<string>)
    ensures |parts| >= 1
    ensures forall i | 0 <= i < |parts| :: sep !in parts[i]
    decreases |s|
  {
    if s == [] then [""]
    else
      var rest := SplitOn(s[1..], sep);
      if s[0] == sep then [""] + rest
      else [[s[0]] + rest[0]] + rest[1..]
  }

  /** `parts.join(sep)` */
  function JoinWith(parts: seq<string>, sep: char): string
    requires |parts| >= 1
    decreases |parts|
  {
    if |parts| == 1 then parts[0] else parts[0] + [sep] + JoinWith(parts[1..], sep)
  }

  /** Joining the pieces gives back the string. */
  lemma {:induction false} JoinSplit(s: string, sep: char)
    ensures JoinWith(SplitOn(s, sep), sep) == s
    decreases |s|
  {
    if s != [] {
      JoinSplit(s[1..], sep);
      var rest := SplitOn(s[1..], sep);
      if s[0] != sep {
        var parts := SplitOn(s, sep);
        if |rest| == 1 {
          assert parts == [[s[0]] + rest[0]];
        } else {
          assert parts[1..] == rest[1..];
          assert JoinWith(rest, sep) == rest[0] + [sep] + JoinWith(rest[1..], sep);
        }
      }
    }
  }

  /** A string without the separator is a single piece. */
  lemma {:induction false} SplitWithout(a: string, sep: char)
    requires sep !in a
    ensures SplitOn(a, sep) == [a]
    decreases |a|
  {
    if a != [] {
      SplitWithout(a[1..], sep);
      assert [a[0]] + a[1..] == a;
    }
  }

  /** A separator-free piece, a separator, then the rest. */
  lemma {:induction false} SplitAfterPiece(a: string, b: string, sep: char)
    requires sep !in a
    ensures SplitOn(a + [sep] + b, sep) == [a] + SplitOn(b, sep)
    decreases |a|
  {
    if a == [] {
      assert [sep] + b == a + [sep] + b;
      assert ([sep] + b)[1..] == b;
    } else {
      assert (a + [sep] + b)[1..] == a[1..] + [sep] + b;
      SplitAfterPiece(a[1..], b, sep);
      assert [a[0]] + a[1..] == a;
    }
  }

  /** Splitting a join of separator-free pieces gives back the pieces. */
  lemma {:induction false} SplitJoin(parts: seq<string>, sep: char)
    requires |parts| >= 1
    requires forall i | 0 <= i < |parts| :: sep !in parts[i]
    ensures SplitOn(JoinWith(parts, sep), sep) == parts
    decreases |parts|
  {
    if |parts| == 1 {
      SplitWithout(parts[0], sep);
    } else {
      SplitJoin(parts[1..], sep);
      SplitAfterPiece(parts[0], JoinWith(parts[1..], sep), sep);
      assert [parts[0]] + parts[1..] == parts;
    }
  }

  // ---------------------------------------------------------------------
  // The header.

  /** The token of a well-formed header: split on single spaces it must
      give exactly two pieces, the first exactly "Bearer". */
  function BearerToken(header: string): Option<string>
  {
    var parts := SplitOn(header, ' ');
    if |parts| != 2 || parts[0] != "Bearer" then None else Some(parts[1])
  }

  /** The header is accepted exactly when it is "Bearer", one space, and a
      token without spaces; the token may be empty. */
  lemma BearerTokenIff(header: string, token: string)
    ensures BearerToken(header) == Some(token) <==> header == "Bearer " + token && ' ' !in token
  {
    if BearerToken(header) == Some(token) {
      var parts := SplitOn(header, ' ');
      JoinSplit(header, ' ');
      assert parts == ["Bearer", token];
      assert JoinWith(parts, ' ') == "Bearer" + " " + token;
    }
    if header == "Bearer " + token && ' ' !in token {
      assert JoinWith(["Bearer", token], ' ') == header;
      SplitJoin(["Bearer", token], ' ');
    }
  }

  /** A lower-case scheme and a doubled space are both refused. */
  lemma MalformedHeaders()
    ensures BearerToken("bearer abc") == None
    ensures BearerToken("Bearer  abc") == None
    ensures BearerToken("Bearer ") == Some("")
  {
    BearerTokenIff("Bearer ", "");
    if BearerToken("bearer abc").Some? {
      BearerTokenIff("bearer abc", BearerToken("bearer abc").value);
    }
  }

  // ---------------------------------------------------------------------
  // The middleware.

  /** What `jwt.verify(token, secret)` does: returns the payload, or throws
      a `TokenExpiredError`, another `JsonWebTokenError` (a malformed or
      badly signed token, an empty one, one not yet valid), or some other
      error. */
  datatype Verification = Decoded(payload: Json) | Expired | InvalidToken | OtherFailure

  /** `req.user` as the middleware sets it. */
  datatype AuthUser = AuthUser(id: Option<Json>, email: Option<Json>, roles: Option<Json>)

  datatype Decision = Proceed(user: AuthUser) | Refuse(reply: Reply<NoPayload>)

  const NoToken := "No token provided"
  const TokenFormat := "Token error"
  const NoSecret := "JWT_SECRET is not defined"
  const TokenExpired := "Token expired"
  const TokenInvalid := "Invalid token"
  const InternalError := "Internal server error"

  /** `decoded.key`: a property of an object payload; `undefined` on any
      other payload. */
  function Claim(payload: Json, key: string): Option<Json>
  {
    if payload.JObj? then Prop(payload.fields, key) else None
  }

  /** What `authenticateJWT` decides for an Authorization header (`None`
      when absent) and a `JWT_SECRET` (`None` when unset). */
  function Authenticate(header: Option<string>, secret: Option<string>,
                        verify: (string, string) -> Verification): (d: Decision)
    // no header: 401, whatever the secret
    ensures header.None? || header == Some("") ==> d == Refuse(ErrorReply(NoToken, 401))
    // a malformed header: 401, whatever the secret
    ensures header.Some? && header != Some("") && BearerToken(header.value).None? ==>
              d == Refuse(ErrorReply(TokenFormat, 401))
    // the secret is looked at only once the header is well formed
    ensures header.Some? && BearerToken(header.value).Some? && (secret.None? || secret == Some("")) ==>
              d == Refuse(ErrorReply(NoSecret, 500))
    ensures d.Proceed? <==>
              && header.Some? && BearerToken(header.value).Some?
              && secret.Some? && secret != Some("")
              && verify(BearerToken(header.value).value, secret.value).Decoded?
    ensures d.Proceed? ==>
              var p := verify(BearerToken(header.value).value, secret.value).payload;
              d.user == AuthUser(Claim(p, "id"), Claim(p, "email"), Claim(p, "roles"))
    // expiry is told apart from every other token error
    ensures d.Refuse? ==> d.reply.body.ErrorBody?
    ensures d.Refuse? && d.reply.status == 401 ==>
              d.reply.body.ErrorBody? && d.reply.body.message in {NoToken, TokenFormat, TokenExpired, TokenInvalid}
    ensures d.Refuse? ==> d.reply.status in {401, 500}
  {
    if header.None? || header.value == "" then Refuse(ErrorReply(NoToken, 401))
    else
      match BearerToken(header.value)
      case None => Refuse(ErrorReply(TokenFormat, 401))
      case Some(token) =>
        if secret.None? || secret.value == "" then Refuse(ErrorReply(NoSecret, 500))
        else
          match verify(token, secret.value)
          case Decoded(p) => Proceed(AuthUser(Claim(p, "id"), Claim(p, "email"), Claim(p, "roles")))
          case Expired => Refuse(ErrorReply(TokenExpired, 401))
          case InvalidToken => Refuse(ErrorReply(TokenInvalid, 401))
          case OtherFailure => Refuse(ErrorReply(InternalError, 500, Some(ErrorObject)))
  }

  /** The verification outcomes, one by one, for a well-formed header and
      a set secret. */
  lemma VerificationOutcomes(token: string, secret: string, verify: (string, string) -> Verification)
    requires ' ' !in token && secret != ""
    ensures verify(token, secret) == Expired ==>
              Authenticate(Some("Bearer " + token), Some(secret), verify) == Refuse(ErrorReply(TokenExpired, 401))
    ensures verify(token, secret) == InvalidToken ==>
              Authenticate(Some("Bearer " + token), Some(secret), verify) == Refuse(ErrorReply(TokenInvalid, 401))
    ensures verify(token, secret) == OtherFailure ==>
              Authenticate(Some("Bearer " + token), Some(secret), verify)
                == Refuse(ErrorReply(InternalError, 500, Some(ErrorObject)))
  {
    BearerTokenIff("Bearer " + token, token);
  }

  /** "Bearer " with nothing after it is not refused for its format: the
      empty token goes to `jwt.verify`, whose own error decides. */
  lemma EmptyTokenReachesVerify(secret: string, verify: (string, string) -> Verification)
    requires secret != ""
    ensures Authenticate(Some("Bearer "), Some(secret), verify).Proceed? <==> verify("", secret).Decoded?
    ensures verify("", secret) == InvalidToken ==>
              Authenticate(Some("Bearer "), Some(secret), verify) == Refuse(ErrorReply(TokenInvalid, 401))
  {
    assert "Bearer " == "Bearer " + "";
    BearerTokenIff("Bearer ", "");
    assert BearerToken("Bearer ") == Some("");
  }

  /** The request as the middleware sees it: the `user` it may set and the
      number of times it has called `next()`. */
  class Request {
    var user: Option<AuthUser>
    var nextCalls: nat

    constructor ()
      ensures user.None? && nextCalls == 0
    {
      user := None;
      nextCalls := 0;
    }
  }

  /** `authenticateJWT(req, res, next)`: either sets `req.user` and calls
      `next()` once, or sends one error reply and leaves the request as it
      was. */
  method AuthenticateJWT(req: Request, res: Response<NoPayload>, header: Option<string>, secret: Option<string>,
                         verify: (string, string) -> Verification)
    modifies req, res
    ensures Authenticate(header, secret, verify).Proceed? ==>
              && req.user == Some(Authenticate(header, secret, verify).user)
              && req.nextCalls == old(req.nextCalls) + 1
              && res.sent == old(res.sent)
    ensures Authenticate(header, secret, verify).Refuse? ==>
              && req.user == old(req.user) && req.nextCalls == old(req.nextCalls)
              && res.sent == old(res.sent) + [Authenticate(header, secret, verify).reply]
  {
    if header.None? || header.value == "" {
      ThrowError(res, NoToken, 401);
      return;
    }
    var parts := SplitOn(header.value, ' ');
    if |parts| != 2 || parts[0] != "Bearer" {
      ThrowError(res, TokenFormat, 401);
      return;
    }
    var token := parts[1];
    if secret.None? || secret.value == "" {
      ThrowError(res, NoSecret, 500);
      return;
    }
    var verified := verify(token, secret.value);
    match verified
    case Decoded(p) =>
      req.user := Some(AuthUser(Claim(p, "id"), Claim(p, "email"), Claim(p, "roles")));
      req.nextCalls := req.nextCalls + 1;
    case Expired =>
      ThrowError(res, TokenExpired, 401);
    case InvalidToken =>
      ThrowError(res, TokenInvalid, 401);
    case OtherFailure =>
      ThrowError(res, InternalError, 500, Some(ErrorObject));
  }
}
