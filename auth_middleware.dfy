/**
 * The authentication middleware: `protect` reads a bearer token, verifies
 * it and loads the user it names; `authorize(...roles)` admits only users
 * of the listed roles. Both report their refusals as an ErrorResponse that
 * carries its own status (401 or 403).
 */
module AuthMiddleware {
  import opened Js
  import opened Http
  import opened UserModel
  import opened Store
  import ErrorMiddleware

  /** What `jwt.verify(token, secret)` makes of a token: the payload's `id`
      (None when absent or not a string), or the kind of error it throws. */
  datatype Verified = Decoded(id: Option<string>) | InvalidToken | ExpiredToken | OtherFailure

  /** `req.user`: the key of the authenticated user and its document, read
      without the password. */
  datatype Caller = Caller(id: string, user: User)

  const Scheme := "Bearer"

  predicate IsBlank(c: char)
  {
    c == ' '
  }

  /** The token of `Authorization: Bearer <token>`: the second piece of the
      header split on single spaces; an empty piece is no token. */
  function ExtractToken(authorization: Option<string>): (t: Option<string>)
    ensures t.Some? ==> authorization.Some? && Scheme <= authorization.value
    ensures t.Some? ==> t.value != "" && NoSep(t.value, IsBlank)
  {
    if authorization.Some? && Scheme <= authorization.value then
      var pieces := Split(authorization.value, IsBlank);
      if |pieces| >= 2 && pieces[1] != "" then Some(pieces[1]) else None
    else None
  }

  /** The header a client builds from a token gives that token back. */
  lemma BearerRoundTrip(token: string)
    requires token != "" && NoSep(token, IsBlank)
    ensures ExtractToken(Some(Scheme + " " + token)) == Some(token)
  {
    assert Scheme + " " + token == Scheme + [' '] + token;
    assert NoSep(Scheme, IsBlank);
    SplitAtSep(Scheme, ' ', token, IsBlank);
    SplitNoSep(token, IsBlank);
  }

  /** A header that does not start with the scheme carries no token. */
  lemma OtherSchemesCarryNoToken(authorization: string)
    requires !(Scheme <= authorization)
    ensures ExtractToken(Some(authorization)).None?
  {
  }

  function Unauthorized(reason: string): JsError
  {
    StatusError("Not authorized to access this route (" + reason + ")", 401)
  }

  /** The reason `protect` gives for a failure of `jwt.verify`, or for the
      CastError of `findById` on an id that is not an ObjectId. */
  function FailureReason(v: Verified): (r: string)
    ensures v.InvalidToken? ==> r == "Invalid token"
    ensures v.ExpiredToken? ==> r == "Token expired"
    ensures !v.InvalidToken? && !v.ExpiredToken? ==> r == "Token failed"
  {
    match v
    case InvalidToken => "Invalid token"
    case ExpiredToken => "Token expired"
    case _ => "Token failed"
  }

  /** `req.user` as `protect` sets it: the caller is a stored user, shown
      without its password. */
  predicate Authentic(users: map<string, User>, c: Caller)
  {
    c.id in users && c.user == WithoutPassword(users[c.id])
  }

  /** The user id a verified token names, when it is an ObjectId. */
  predicate NamesUser(v: Verified)
  {
    v.Decoded? && Present(v.id) && IsObjectId(v.id.value)
  }

  function Protect(users: map<string, User>, authorization: Option<string>,
                   verify: string -> Verified): (r: Outcome<Caller>)
    ensures r.Ok? <==> ExtractToken(authorization).Some?
                       && NamesUser(verify(ExtractToken(authorization).value))
                       && Key(verify(ExtractToken(authorization).value).id.value) in users
    ensures r.Ok? ==> r.status == 200 && Authentic(users, r.value)
                      && r.value.id == Key(verify(ExtractToken(authorization).value).id.value)
    ensures r.Fail? ==> r.preset == 200 && r.error.statusCode == Some(401)
    ensures ExtractToken(authorization).None? ==> r == Forward(Unauthorized("No token"))
    ensures ExtractToken(authorization).Some? ==>
              var v := verify(ExtractToken(authorization).value);
              (!v.Decoded? ==> r == Forward(Unauthorized(FailureReason(v))))
              && (v.Decoded? && !Present(v.id) ==> r == Forward(Unauthorized("Invalid token payload")))
              && (v.Decoded? && Present(v.id) && !IsObjectId(v.id.value) ==> r == Forward(Unauthorized("Token failed")))
              && (NamesUser(v) && Key(v.id.value) !in users ==> r == Forward(Unauthorized("User not found")))
  {
    var token := ExtractToken(authorization);
    if token.None? then Forward(Unauthorized("No token"))
    else
      var v := verify(token.value);
      if !v.Decoded? then Forward(Unauthorized(FailureReason(v)))
      else if !Present(v.id) then Forward(Unauthorized("Invalid token payload"))
      else if !IsObjectId(v.id.value) then Forward(Unauthorized(FailureReason(OtherFailure)))
      else if Key(v.id.value) !in users then Forward(Unauthorized("User not found"))
      else Ok(200, Caller(Key(v.id.value), WithoutPassword(users[Key(v.id.value)])))
  }

  /** Without a token the answer depends neither on the users nor on the
      verifier. */
  lemma NoTokenIgnoresState(users: map<string, User>, users': map<string, User>,
                            authorization: Option<string>,
                            verify: string -> Verified, verify': string -> Verified)
    requires ExtractToken(authorization).None?
    ensures Protect(users, authorization, verify) == Protect(users', authorization, verify')
  {
  }

  /** Every refusal of `protect` answers 401 with its own message. */
  lemma ProtectRefusesWith401(users: map<string, User>, authorization: Option<string>,
                              verify: string -> Verified, production: bool)
    requires Protect(users, authorization, verify).Fail?
    ensures ErrorMiddleware.Respond(Protect(users, authorization, verify), production).status == 401
    ensures ErrorMiddleware.Respond(Protect(users, authorization, verify), production).error
            == Protect(users, authorization, verify).error.message
  {
  }

  /** The error of `authorize(...roles)`, or None to go on. */
  function Authorize(user: Option<Caller>, roles: seq<string>): (r: Option<JsError>)
    ensures r.None? <==> user.Some? && RoleName(user.value.user.role) in roles
    ensures user.None? ==> r == Some(StatusError("Authentication required before checking authorization", 401))
    ensures user.Some? && r.Some? ==> r.value.statusCode == Some(403)
  {
    if user.None? then Some(StatusError("Authentication required before checking authorization", 401))
    else if RoleName(user.value.user.role) !in roles then
      Some(StatusError("User role '" + RoleName(user.value.user.role)
                       + "' is not authorized to access this route. Allowed roles: " + Join(roles, ", "), 403))
    else None
  }

  /** `authorize('<role>')`, as every route uses it, admits that role only. */
  lemma AuthorizeOneRole(c: Caller, role: Role)
    ensures Authorize(Some(c), [RoleName(role)]).None? <==> c.user.role == role
  {
  }

  /** `protect` followed by `authorize(...roles)` on one route. */
  function Gate(users: map<string, User>, authorization: Option<string>, verify: string -> Verified,
                roles: seq<string>): (r: Outcome<Caller>)
    ensures r.Ok? ==> Protect(users, authorization, verify) == r
  {
    var p := Protect(users, authorization, verify);
    if p.Fail? then p
    else
      var denied := Authorize(Some(p.value), roles);
      if denied.Some? then Forward(denied.value) else p
  }

  /** The gate admits exactly a token that names a stored user of an
      allowed role, and refuses with 401 or 403. */
  lemma {:induction false} GateAdmitsExactly(users: map<string, User>, authorization: Option<string>,
                                             verify: string -> Verified, roles: seq<string>,
                                             production: bool)
    ensures Gate(users, authorization, verify, roles).Ok? <==>
              ExtractToken(authorization).Some?
              && NamesUser(verify(ExtractToken(authorization).value))
              && Key(verify(ExtractToken(authorization).value).id.value) in users
              && RoleName(users[Key(verify(ExtractToken(authorization).value).id.value)].role) in roles
    ensures Gate(users, authorization, verify, roles).Fail? ==>
              ErrorMiddleware.Respond(Gate(users, authorization, verify, roles), production).status in {401, 403}
  {
    var p := Protect(users, authorization, verify);
    if p.Ok? {
      assert p.value.user.role == users[p.value.id].role;
    }
  }
}
