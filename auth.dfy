/**
  The authentication and authorization middleware of middleware/auth.js.

  authenticateJWT reads the bearer token of the Authorization header, has
  jwt.verify check it and, when it is valid, stores its payload in
  res.locals.user; it always calls next(). The four gates then call next()
  to let the request through or next(err) to reject it.

  Two request-scoped slots hold a user: res.locals.user, which
  authenticateJWT writes and ensureLoggedIn, ensureAdmin and
  ensureAdminOrCorrectUser read, and req.user, which ensureCorrectUser reads
  and nothing in this file writes. Each gate takes the request and the
  content of res.locals.user, so the slot it reads is visible in the model.
*/
module Auth {
  import opened Wrappers
  import opened Js
  import opened ExpressError

  /** The token payload: { username, isAdmin }, either of which may be missing. */
  datatype Claims = Claims(username: JsValue, isAdmin: JsValue)

  /** The parts of an Express request the middleware reads: the header
      object (if any), req.user and the route parameters. */
  datatype Request = Request(headers: Option<map<string, string>>, user: Option<Claims>, params: map<string, string>)

  /** What a middleware does with next: next() or next(err). */
  datatype Outcome = Next | NextWithError(error: ErrorValue)

  /** The literal { status: 401, message: "Unauthorized" } three gates reject with. */
  const Unauthorized401: ErrorValue := StatusObject(401, "Unauthorized")

  /** req.headers && req.headers.authorization. */
  function AuthHeader(req: Request): (h: JsValue)
    ensures h.Undefined? || h.Str?
  {
    if req.headers.Some? && "authorization" in req.headers.value
    then Str(req.headers.value["authorization"])
    else Undefined
  }

  /** req.params.username. */
  function PathUsername(req: Request): JsValue
  {
    if "username" in req.params then Str(req.params["username"]) else Undefined
  }

  // ----- token extraction ---------------------------------------------------

  /** The header starts with the regular expression ^[Bb]earer (one space). */
  predicate HasBearerPrefix(h: string)
  {
    |h| >= 7 && (h[0] == 'B' || h[0] == 'b') && h[1..7] == "earer "
  }

  /** authHeader.replace(/^[Bb]earer /, ""). */
  function StripBearer(h: string): string
  {
    if HasBearerPrefix(h) then h[7..] else h
  }

  /** authHeader.replace(/^[Bb]earer /, "").trim(). */
  function ExtractToken(h: string): (token: string)
    ensures Trimmed(token)
  {
    Trim(StripBearer(h))
  }

  lemma StripBearerRemovesOnePrefix(t: string)
    ensures StripBearer("Bearer " + t) == t
    ensures StripBearer("bearer " + t) == t
  {
    assert ("Bearer " + t)[7..] == t && ("bearer " + t)[7..] == t;
    assert ("Bearer " + t)[1..7] == "earer " && ("bearer " + t)[1..7] == "earer ";
  }

  /** "Bearer " or "bearer " is removed once, from the start only, and the
      rest is trimmed; any other header is only trimmed. */
  lemma ExtractTokenCases(h: string, t: string)
    ensures ExtractToken("Bearer " + t) == Trim(t)
    ensures ExtractToken("bearer " + t) == Trim(t)
    ensures !HasBearerPrefix(h) ==> ExtractToken(h) == Trim(h)
  {
    StripBearerRemovesOnePrefix(t);
  }

  /** The token is the text after "Bearer ", without surrounding whitespace. */
  lemma ExtractTokenOfPaddedToken(pad1: string, token: string, pad2: string)
    requires AllWhitespace(pad1) && AllWhitespace(pad2) && Trimmed(token)
    ensures ExtractToken("Bearer " + pad1 + token + pad2) == token
    ensures ExtractToken("bearer " + pad1 + token + pad2) == token
  {
    var t := pad1 + token + pad2;
    assert "Bearer " + pad1 + token + pad2 == "Bearer " + t;
    assert "bearer " + pad1 + token + pad2 == "bearer " + t;
    ExtractTokenCases("", t);
    TrimExact(pad1, token, pad2);
  }

  /** Other casings are no prefix: "BEARER abc" is only trimmed. */
  lemma ExtractTokenOtherCasing()
    ensures ExtractToken("BEARER abc") == "BEARER abc"
  {
    var h := "BEARER abc";
    assert h[0] == 'B' && h[1] == 'E';
    assert !HasBearerPrefix(h);
    assert h == [] + h + [];
    TrimExact([], h, []);
  }

  /** Only one prefix is removed: "Bearer Bearer abc" gives "Bearer abc". */
  lemma ExtractTokenOnePrefixOnly()
    ensures ExtractToken("Bearer Bearer abc") == "Bearer abc"
  {
    var t := "Bearer abc";
    var h := "Bearer Bearer abc";
    assert h == "Bearer " + t;
    StripBearerRemovesOnePrefix(t);
    assert StripBearer(h) == t;
    assert t == [] + t + [];
    TrimExact([], t, []);
  }

  /** The prefix is matched at the very start only: leading spaces keep it. */
  lemma ExtractTokenPrefixAtStartOnly()
    ensures ExtractToken("  Bearer abc") == "Bearer abc"
  {
    var h := "  Bearer abc";
    assert h[0] == ' ';
    assert !HasBearerPrefix(h);
    assert h == "  " + "Bearer abc" + [];
    TrimExact("  ", "Bearer abc", []);
  }

  // ----- authenticateJWT -----------------------------------------------------

  /** The value res.locals.user has after authenticateJWT, given its value
      before and jwt.verify(token, SECRET_KEY) as verify (None: it threw). */
  function AuthenticatedUser(req: Request, prior: Option<Claims>, verify: string -> Option<Claims>): Option<Claims>
  {
    var h := AuthHeader(req);
    if Truthy(h) && verify(ExtractToken(h.s)).Some? then verify(ExtractToken(h.s)) else prior
  }

  /** res.locals. */
  class ResponseLocals {
    var user: Option<Claims>

    constructor ()
      ensures user == None
    {
      user := None;
    }
  }

  /** authenticateJWT(req, res, next). */
  method AuthenticateJWT(req: Request, locals: ResponseLocals, verify: string -> Option<Claims>) returns (outcome: Outcome)
    modifies locals
    ensures outcome == Next
    ensures locals.user == AuthenticatedUser(req, old(locals.user), verify)
  {
    var authHeader := AuthHeader(req);
    if Truthy(authHeader) {
      var token := ExtractToken(authHeader.s);
      var payload := verify(token);
      if payload.Some? {
        locals.user := payload;
      }
      // otherwise jwt.verify threw before the assignment, and the catch calls next()
    }
    outcome := Next;
  }

  /** Without a non-empty Authorization header the context is left as it was
      and the verifier is not consulted; an invalid token also leaves it;
      a valid token's payload is attached. */
  lemma AuthenticatedUserCases(req: Request, prior: Option<Claims>, verify: string -> Option<Claims>, other: string -> Option<Claims>)
    ensures !Truthy(AuthHeader(req)) ==>
      AuthenticatedUser(req, prior, verify) == prior == AuthenticatedUser(req, prior, other)
    ensures Truthy(AuthHeader(req)) && verify(ExtractToken(AuthHeader(req).s)).None? ==>
      AuthenticatedUser(req, prior, verify) == prior
    ensures Truthy(AuthHeader(req)) && verify(ExtractToken(AuthHeader(req).s)).Some? ==>
      AuthenticatedUser(req, prior, verify) == verify(ExtractToken(AuthHeader(req).s))
  {
  }

  // ----- the gates -------------------------------------------------------------

  /** Reading a property of the user in a slot: a TypeError when it is undefined. */
  function UserIn(slot: Option<Claims>): Completion<Claims>
  {
    match slot
    case Some(u) => Normal(u)
    case None => Thrown(TypeError)
  }

  /** The try/catch of ensureCorrectUser, ensureAdmin and
      ensureAdminOrCorrectUser around their test: next() when it is true, and
      next({ status: 401, message: "Unauthorized" }) when it is false or threw. */
  function Decide(test: Completion<bool>): (o: Outcome)
    ensures o.NextWithError? ==> o.error == Unauthorized401
  {
    match test
    case Normal(pass) => if pass then Next else NextWithError(Unauthorized401)
    case Thrown(_) => NextWithError(Unauthorized401)
  }

  /** ensureLoggedIn: a missing res.locals.user throws UnauthorizedError
      inside the try, and the catch hands it to next. */
  function EnsureLoggedIn(req: Request, localsUser: Option<Claims>): (o: Outcome)
    ensures o == Next <==> localsUser.Some?
    ensures o.NextWithError? ==> o.error == UnauthorizedError
  {
    var thrown: Completion<()> := if localsUser.None? then Thrown(UnauthorizedError) else Normal(());
    match thrown
    case Normal(_) => Next
    case Thrown(err) => NextWithError(err)
  }

  /** ensureCorrectUser: req.user.username === req.params.username. */
  function EnsureCorrectUser(req: Request, localsUser: Option<Claims>): (o: Outcome)
    ensures o == Next <==> req.user.Some? && req.user.value.username == PathUsername(req)
    ensures o.NextWithError? ==> o.error == Unauthorized401
  {
    Decide(match UserIn(req.user)
      case Normal(u) => Normal(u.username == PathUsername(req))
      case Thrown(e) => Thrown(e))
  }

  /** ensureAdmin: res.locals.user.isAdmin === true. */
  function EnsureAdmin(req: Request, localsUser: Option<Claims>): (o: Outcome)
    ensures o == Next <==> localsUser.Some? && localsUser.value.isAdmin == Bool(true)
    ensures o.NextWithError? ==> o.error == Unauthorized401
  {
    Decide(match UserIn(localsUser)
      case Normal(u) => Normal(u.isAdmin == Bool(true))
      case Thrown(e) => Thrown(e))
  }

  /** ensureAdminOrCorrectUser: res.locals.user.isAdmin === true, or
      res.locals.user.username === req.params.username. */
  function EnsureAdminOrCorrectUser(req: Request, localsUser: Option<Claims>): (o: Outcome)
    ensures o == Next <==>
      (localsUser.Some? && (localsUser.value.isAdmin == Bool(true) || localsUser.value.username == PathUsername(req)))
    ensures o.NextWithError? ==> o.error == Unauthorized401
  {
    Decide(match UserIn(localsUser)
      case Normal(u) => Normal(u.isAdmin == Bool(true) || u.username == PathUsername(req))
      case Thrown(e) => Thrown(e))
  }

  /** No gate lets an exception escape: every rejection hands next an error
      whose status is 401. */
  lemma EveryRejectionIs401(req: Request, localsUser: Option<Claims>)
    ensures EnsureLoggedIn(req, localsUser).NextWithError? ==> Status(EnsureLoggedIn(req, localsUser).error) == 401
    ensures EnsureCorrectUser(req, localsUser).NextWithError? ==> Status(EnsureCorrectUser(req, localsUser).error) == 401
    ensures EnsureAdmin(req, localsUser).NextWithError? ==> Status(EnsureAdmin(req, localsUser).error) == 401
    ensures EnsureAdminOrCorrectUser(req, localsUser).NextWithError? ==> Status(EnsureAdminOrCorrectUser(req, localsUser).error) == 401
  {
  }

  /** The gates reading res.locals.user are ordered by strictness:
      ensureAdmin passing implies ensureAdminOrCorrectUser passing, which
      implies ensureLoggedIn passing. */
  lemma GatesNested(req: Request, localsUser: Option<Claims>)
    ensures EnsureAdmin(req, localsUser) == Next ==> EnsureAdminOrCorrectUser(req, localsUser) == Next
    ensures EnsureAdminOrCorrectUser(req, localsUser) == Next ==> EnsureLoggedIn(req, localsUser) == Next
  {
  }

  /** isAdmin must be the boolean true: false, a missing flag, or a truthy
      non-boolean such as "true" or 1 is rejected. */
  lemma AdminFlagIsStrict(req: Request, username: JsValue)
    ensures EnsureAdmin(req, Some(Claims(username, Bool(false)))) == NextWithError(Unauthorized401)
    ensures EnsureAdmin(req, Some(Claims(username, Undefined))) == NextWithError(Unauthorized401)
    ensures EnsureAdmin(req, Some(Claims(username, Str("true")))) == NextWithError(Unauthorized401)
    ensures EnsureAdmin(req, Some(Claims(username, Num(1)))) == NextWithError(Unauthorized401)
    ensures EnsureAdmin(req, None) == NextWithError(Unauthorized401)
  {
  }

  /** ensureAdminOrCorrectUser lets the matching user through when not an
      admin, and an admin through for any username. */
  lemma AdminOrCorrectUserEitherSuffices(req: Request, name: string, flag: JsValue)
    requires "username" in req.params
    ensures EnsureAdminOrCorrectUser(req, Some(Claims(Str(req.params["username"]), flag))) == Next
    ensures EnsureAdminOrCorrectUser(req, Some(Claims(Str(name), Bool(true)))) == Next
    ensures name != req.params["username"] && flag != Bool(true) ==>
      EnsureAdminOrCorrectUser(req, Some(Claims(Str(name), flag))) == NextWithError(Unauthorized401)
  {
  }

  /** A request without an Authorization header that starts with no user in
      res.locals is rejected by every gate after authenticateJWT. */
  lemma AnonymousRequestRejected(req: Request, verify: string -> Option<Claims>)
    requires !Truthy(AuthHeader(req))
    ensures var user := AuthenticatedUser(req, None, verify);
      && EnsureLoggedIn(req, user) == NextWithError(UnauthorizedError)
      && EnsureAdmin(req, user) == NextWithError(Unauthorized401)
      && EnsureAdminOrCorrectUser(req, user) == NextWithError(Unauthorized401)
  {
  }

  /** ensureCorrectUser does not look at what authenticateJWT stored: when
      nothing has set req.user it rejects, whatever the token. */
  lemma CorrectUserIgnoresAuthentication(req: Request, prior: Option<Claims>, verify: string -> Option<Claims>)
    requires req.user.None?
    ensures EnsureCorrectUser(req, AuthenticatedUser(req, prior, verify)) == NextWithError(Unauthorized401)
  {
  }

  /** A token without a username on a route without a username parameter
      passes ensureAdminOrCorrectUser: undefined === undefined. */
  lemma MissingUsernamesMatch(req: Request, flag: JsValue)
    requires "username" !in req.params
    ensures EnsureAdminOrCorrectUser(req, Some(Claims(Undefined, flag))) == Next
  {
  }
}
