/** The `protect` middleware (discord/middleware/authMiddleware.js) and the
    token-source chain it shares with `refreshAccessToken`. `jwt.verify` is a
    parameter: it either throws (an invalid or expired token) or yields the
    token's claims, whose `_id` may be missing. */
module AuthMiddleware {
  import opened Text
  import opened Ids
  import opened UserModel
  import opened ErrorHandler
  import opened AsyncHandler

  /** `a || b || ... || z` over optional strings: the first truthy one, or
      nothing when none is. */
  function FirstTruthy(xs: seq<Option<string>>): (r: Option<string>)
    ensures r.Some? <==> exists i :: 0 <= i < |xs| && Truthy(xs[i])
    ensures r.Some? ==> r.value != ""
    ensures r.Some? ==> exists i :: 0 <= i < |xs| && xs[i] == r && forall j :: 0 <= j < i ==> !Truthy(xs[j])
  {
    if xs == [] then None
    else if Truthy(xs[0]) then xs[0]
    else
      var r := FirstTruthy(xs[1..]);
      FirstOfTail(xs, r);
      r
  }

  /** A first truthy value of the tail, behind a falsy head, is the first of
      the whole sequence. */
  lemma FirstOfTail(xs: seq<Option<string>>, r: Option<string>)
    requires xs != [] && !Truthy(xs[0])
    requires r.Some? ==> exists i :: 0 <= i < |xs[1..]| && xs[1..][i] == r && forall j :: 0 <= j < i ==> !Truthy(xs[1..][j])
    requires r.Some? <==> exists i :: 0 <= i < |xs[1..]| && Truthy(xs[1..][i])
    ensures r.Some? <==> exists i :: 0 <= i < |xs| && Truthy(xs[i])
    ensures r.Some? ==> exists i :: 0 <= i < |xs| && xs[i] == r && forall j :: 0 <= j < i ==> !Truthy(xs[j])
  {
    assert forall i :: 1 <= i < |xs| ==> xs[i] == xs[1..][i - 1];
    if r.Some? {
      var i :| 0 <= i < |xs[1..]| && xs[1..][i] == r && forall j :: 0 <= j < i ==> !Truthy(xs[1..][j]);
      assert xs[i + 1] == r && forall j :: 0 <= j < i + 1 ==> !Truthy(xs[j]);
    }
  }

  /** `req.header('Authorization')?.replace('Bearer ', '')`: the header with
      its first "Bearer " removed, or nothing when the header is absent. */
  function BearerToken(header: Option<string>): (r: Option<string>)
    ensures r.Some? <==> header.Some?
  {
    if header.Some? then Some(ReplaceFirst(header.value, "Bearer ", "")) else None
  }

  /** The parts of a request the middleware reads. */
  datatype Request = Request(cookieToken: Option<string>, authorization: Option<string>, bodyToken: Option<string>)

  /** The token `protect` uses: the `accessToken` cookie, else the
      Authorization header without "Bearer ", else `body.accessToken`. */
  function AccessToken(req: Request): Option<string> {
    FirstTruthy([req.cookieToken, BearerToken(req.authorization), req.bodyToken])
  }

  /** The sources are tried in order, and a non-empty earlier one always wins. */
  lemma AccessTokenPrecedence(req: Request)
    ensures Truthy(req.cookieToken) ==> AccessToken(req) == req.cookieToken
    ensures !Truthy(req.cookieToken) && Truthy(BearerToken(req.authorization))
            ==> AccessToken(req) == BearerToken(req.authorization)
    ensures !Truthy(req.cookieToken) && !Truthy(BearerToken(req.authorization))
            ==> AccessToken(req) == (if Truthy(req.bodyToken) then req.bodyToken else None)
  {
    var xs := [req.cookieToken, BearerToken(req.authorization), req.bodyToken];
    var ys, zs := [BearerToken(req.authorization), req.bodyToken], [req.bodyToken];
    assert xs[1..] == ys && ys[1..] == zs && zs[1..] == [];
    assert FirstTruthy(zs) == (if Truthy(req.bodyToken) then req.bodyToken else None);
    assert !Truthy(ys[0]) ==> FirstTruthy(ys) == FirstTruthy(zs);
  }

  /** The payload `jwt.verify` returns; its `_id` claim may be missing. */
  datatype Claims = Claims(id: Option<UserId>)

  /** How `protect` ends: the request goes on as `user`; or `next` is called
      with an `ApiError`, which Express's own error handler answers (it reads
      `statusCode`, so the client sees 401); or `jwt.verify` throws, which
      the async wrapper answers. */
  datatype Gate = Pass(user: UserId) | Next(error: ApiError) | Threw(thrown: Thrown)

  const NotAuthorized: string := "Not authorized to access this route"

  /** The error `jwt.verify` throws for a bad token: it has no `status`. */
  const InvalidToken: Thrown := Fault(None, "invalid token")

  /** The decision `protect` takes for `req` against the stored users:
      no token, or a verified id with no user, is refused with 401. */
  function Authenticate(req: Request, users: seq<User>, verify: string -> Option<Claims>): (g: Gate)
    ensures !Truthy(AccessToken(req)) ==> g == Next(Raise(401, NotAuthorized))
    ensures g.Pass? ==> Truthy(AccessToken(req)) && verify(AccessToken(req).value) == Some(Claims(Some(g.user)))
                        && g.user < |users|
    ensures forall u: UserId :: Truthy(AccessToken(req)) && verify(AccessToken(req).value) == Some(Claims(Some(u))) && u < |users|
                        ==> g == Pass(u)
    ensures g.Next? ==> g.error.statusCode == 401
    ensures g.Threw? <==> Truthy(AccessToken(req)) && verify(AccessToken(req).value).None?
  {
    var token := AccessToken(req);
    if token.None? then Next(Raise(401, NotAuthorized))
    else
      var claims := verify(token.value);
      if claims.None? then Threw(InvalidToken)
      else if claims.value.id.None? || claims.value.id.value >= |users| then Next(Raise(401, NotAuthorized))
      else Pass(claims.value.id.value)
  }

  /** The request object `protect` annotates. */
  class IncomingRequest {
    const source: Request
    var user: Option<User>

    constructor (source: Request)
      ensures this.source == source && user.None?
    {
      this.source := source;
      user := None;
    }

    /** `protect(req, res, next)`: `req.user` is set to the found user (the
        lookup's result, even when that is nothing) once a token has been
        verified, and the gate says how the request goes on. */
    method Protect(users: seq<User>, verify: string -> Option<Claims>) returns (g: Gate)
      modifies this`user
      ensures g == Authenticate(source, users, verify)
      ensures g.Pass? ==> user == Some(users[g.user])
      ensures g.Next? && Truthy(AccessToken(source)) ==> user.None?
      ensures !g.Pass? && !(g.Next? && Truthy(AccessToken(source))) ==> user == old(user)
    {
      var token := AccessToken(source);
      if token.None? {
        return Next(Raise(401, NotAuthorized));
      }
      var claims := verify(token.value);
      if claims.None? {
        return Threw(InvalidToken);
      }
      var id := claims.value.id;
      user := if id.Some? && id.value < |users| then Some(users[id.value]) else None;
      if user.None? {
        return Next(Raise(401, NotAuthorized));
      }
      g := Pass(id.value);
    }
  }
}
