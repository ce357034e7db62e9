/** The bearer-token gate of `validateJWT` (mock-server/main.go:222-235).
    Checking the token itself (HMAC signature, expiry) is a library call that
    depends on the clock; it is the parameter `tokenValid`. */
module Auth {
  import opened Wrappers
  import opened Text

  const BearerPrefix: string := "Bearer "

  /** The token after the exact, case-sensitive prefix `Bearer `, or None
      when the Authorization header does not start with it. */
  function BearerToken(authorization: string): (token: Option<string>)
    ensures token.Some? <==> HasPrefix(authorization, BearerPrefix)
    ensures token.Some? ==> BearerPrefix + token.value == authorization
  {
    if HasPrefix(authorization, BearerPrefix) then Some(authorization[|BearerPrefix|..]) else None
  }

  /** `validateJWT(r)` for a request whose Authorization header is
      `authorization` (empty when absent). */
  predicate ValidateJwt(authorization: string, tokenValid: string -> bool) {
    match BearerToken(authorization)
    case None => false
    case Some(token) => tokenValid(token)
  }

  /** Prefixing a token and taking it off again gives the token back. */
  lemma BearerRoundTrip(token: string)
    ensures BearerToken(BearerPrefix + token) == Some(token)
  {
    var h := BearerPrefix + token;
    assert h[..|BearerPrefix|] == BearerPrefix;
    assert h[|BearerPrefix|..] == token;
  }

  /** A request is let through exactly when its header is `Bearer ` followed by
      a token the validity check accepts. */
  lemma ValidateJwtMeaning(authorization: string, tokenValid: string -> bool)
    ensures ValidateJwt(authorization, tokenValid) <==>
            exists token :: authorization == BearerPrefix + token && tokenValid(token)
  {
    if ValidateJwt(authorization, tokenValid) {
      var token := BearerToken(authorization).value;
      assert authorization == BearerPrefix + token && tokenValid(token);
    }
    if exists token :: authorization == BearerPrefix + token && tokenValid(token) {
      var token :| authorization == BearerPrefix + token && tokenValid(token);
      BearerRoundTrip(token);
    }
  }
}
