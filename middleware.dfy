/** The authentication gate (stage2/middleware/authMiddleware.go) and the two
    routes it protects. Instead of a per-request key-value bag, the gate
    returns the authenticated user id, which the protected handler receives. */
module Middleware {
  import opened Wrappers
  import opened Models
  import opened Tokens
  import opened Responses
  import opened Handlers

  /** The gate either answers the request itself or lets the next handler
      run with the user id it stores in the request's locals. */
  datatype Gate = Denied(response: Response) | Granted(userId: string)

  /** UserAuth: the session cookie `user` must be present, must verify, and
      must name a stored user; each failing guard gives the same 401. */
  function UserAuth(s: Store, cookie: string, tokens: TokenService): (g: Gate)
    reads s
    ensures g.Denied? ==> g.response == Unauthorized
    ensures cookie == "" ==> g.Denied?
    ensures cookie != "" && (tokens.verify(cookie).failed || !tokens.verify(cookie).isValid) ==> g.Denied?
    ensures g.Granted? <==>
      && cookie != ""
      && !tokens.verify(cookie).failed && tokens.verify(cookie).isValid
      && tokens.verify(cookie).userIdClaim.Some? && tokens.verify(cookie).userIdClaim.value in s.users
    ensures g.Granted? ==> g.userId == s.users[tokens.verify(cookie).userIdClaim.value].userId
  {
    if cookie == "" then Denied(Unauthorized)
    else
      var v := tokens.verify(cookie);
      if v.failed || !v.isValid then Denied(Unauthorized)
      else if v.userIdClaim.None? || v.userIdClaim.value !in s.users then Denied(Unauthorized)
      else Granted(s.users[v.userIdClaim.value].userId)
  }

  /** On a consistent store the id handed on is the token's subject, and it
      names a stored user. */
  lemma GrantedUserExists(s: Store, cookie: string, tokens: TokenService)
    requires s.Valid()
    requires UserAuth(s, cookie, tokens).Granted?
    ensures UserAuth(s, cookie, tokens).userId in s.users
    ensures Some(UserAuth(s, cookie, tokens).userId) == tokens.verify(cookie).userIdClaim
  {
  }

  /** A token that cannot be parsed is refused. */
  lemma MalformedTokenDenied(s: Store, cookie: string, tokens: TokenService)
    requires Rejects(tokens, cookie)
    ensures UserAuth(s, cookie, tokens) == Denied(Unauthorized)
  {
  }

  /** A token signed for a stored user opens the gate for that user. */
  lemma SignedTokenGranted(s: Store, tokens: TokenService, userId: string)
    requires s.Valid() && userId in s.users
    requires RoundTrips(tokens) && tokens.sign(userId).Some?
    ensures UserAuth(s, tokens.sign(userId).value, tokens) == Granted(userId)
  {
  }

  /** The token a successful login hands out opens the gate for the user who
      logged in. */
  lemma LoginTokenGranted(s: Store, req: Option<LoginBody>, svc: Services)
    requires s.Valid() && RoundTrips(svc.tokens)
    requires s.LoginUser(req, svc).code == 201
    ensures UserAuth(s, s.LoginUser(req, svc).body.accessToken, svc.tokens) ==
            Granted(s.LoginUser(req, svc).body.user.userId)
  {
  }

  /** GET /api/organisations behind UserAuth: the handler runs only when the
      gate grants, with the granted user id. The gate hands on the stored
      key, the text of a `gen_random_uuid()` value, which uuid.Parse accepts;
      so the handler's 400 for an unparsable id cannot follow a grant. */
  method GetUserOrganisationsRoute(s: Store, cookie: string, svc: Services) returns (r: Response)
    requires s.Valid()
    requires forall id | id in s.users :: svc.isUuid(id)
    ensures UserAuth(s, cookie, svc.tokens).Denied? ==> r == Unauthorized
    ensures UserAuth(s, cookie, svc.tokens).Granted? ==>
      && r.code == 200 && r.body.OrgList?
      && s.ListsExactly(r.body.organisations, s.OrgIdsOf(UserAuth(s, cookie, svc.tokens).userId))
      && |r.body.organisations| == |s.OrgIdsOf(UserAuth(s, cookie, svc.tokens).userId)|
  {
    var gate := UserAuth(s, cookie, svc.tokens);
    if gate.Denied? {
      return gate.response;
    }
    GrantedUserExists(s, cookie, svc.tokens);
    r := s.GetUserOrganisations(gate.userId, svc.isUuid);
  }

  /** GET /api/users/:id behind UserAuth: any authenticated user may read any
      user; the granted id is not compared with the requested one. */
  function GetUserRoute(s: Store, cookie: string, userId: string, tokens: TokenService): (r: Response)
    reads s
    requires s.Valid()
    ensures UserAuth(s, cookie, tokens).Denied? ==> r == Unauthorized
    ensures UserAuth(s, cookie, tokens).Granted? ==> r == s.GetUser(userId)
  {
    match UserAuth(s, cookie, tokens)
    case Denied(response) => response
    case Granted(_) => s.GetUser(userId)
  }
}
