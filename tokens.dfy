/** The session-token collaborator of the handlers and the middleware
    (utils.SignJwtToken and utils.VerifyJwtToken). The signing primitive is
    not part of this model: it is a pair of oracles, and the only facts
    assumed about it are the ones its tests assert. */
module Tokens {
  import opened Wrappers

  /** What VerifyJwtToken returns: the `user_id` claim (when the claims could
      be read), the `isValid` flag and whether an error was returned. */
  datatype Verification = Verification(userIdClaim: Option<string>, isValid: bool, failed: bool)

  /** `sign` answers None when signing fails. */
  datatype TokenService = TokenService(sign: string -> Option<string>, verify: string -> Verification)

  /** A signed token is non-empty and verifies, without error, to the user id
      it was signed for. */
  ghost predicate RoundTrips(t: TokenService)
  {
    forall u | t.sign(u).Some? ::
      t.sign(u).value != "" && t.verify(t.sign(u).value) == Verification(Some(u), true, false)
  }

  /** A token that cannot be parsed gives an error, isValid == false and no
      claims. */
  ghost predicate Rejects(t: TokenService, token: string)
  {
    t.verify(token) == Verification(None, false, true)
  }
}
