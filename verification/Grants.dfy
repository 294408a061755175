/** Minting and validating an agent grant: the scope travels inside a signed token. */
module Grants {
  import opened Basics
  import opened Permissions

  const TOKEN_TYPE := "grant"

  /** Seconds by which the JWT library's default validation outlives `exp`. */
  const LEEWAY_SECS := 60

  /** A signed token: only the holder of `key` could have produced it. */
  datatype GrantToken = GrantToken(key: string, typ: string, scope: Scope, exp: int)

  function IssueGrant(scope: Scope, ttlSecs: nat, secret: string, nowSecs: nat): (GrantToken, int) {
    var expiresAtSecs := nowSecs + ttlSecs;
    var expiry := match scope.expiresAt
      case Some(existing) => if existing <= expiresAtSecs * 1000 then existing else expiresAtSecs * 1000
      case None => expiresAtSecs * 1000;
    (GrantToken(secret, TOKEN_TYPE, scope.(expiresAt := Some(expiry)), expiresAtSecs), expiry)
  }

  function ValidateGrant(token: GrantToken, secret: string, nowSecs: nat): Result<Scope> {
    if token.key != secret then Raised("InvalidSignature")
    else if token.exp < nowSecs - LEEWAY_SECS then Raised("ExpiredSignature")
    else if token.typ != TOKEN_TYPE then Raised("token is not an agent grant token")
    else Ok(token.scope)
  }

  /** A minted grant permits exactly what the requested scope permits before the token's own
      end: nothing else is lost, and the decoding leeway gives nothing back. */
  lemma MintedGrantPermits(scope: Scope, ttlSecs: nat, secret: string, mint: nat, decodedAt: nat, acl: ObjectAcl,
                           nowMs: int)
    ensures var (token, expiry) := IssueGrant(scope, ttlSecs, secret, mint);
            var decoded := ValidateGrant(token, secret, decodedAt);
            && token.typ == "grant" && token.key == secret
            && (decoded.Ok? <==> decodedAt <= mint + ttlSecs + 60)
            && (decoded.Ok? ==>
                  && decoded.value.expiresAt == Some(expiry)
                  && (Permits(decoded.value, acl, nowMs) <==>
                      Permits(scope, acl, nowMs) && nowMs < (mint + ttlSecs) * 1000)
                  && (nowMs >= expiry ==>
                      Evaluate(decoded.value, acl, nowMs) in {Deny(WrongOwner), Deny(GrantExpired)}))
  {
    var (token, expiry) := IssueGrant(scope, ttlSecs, secret, mint);
    var decoded := ValidateGrant(token, secret, decodedAt);
    if decoded.Ok? {
      assert decoded.value == scope.(expiresAt := Some(expiry));
      assert (forall s | s in acl.sources :: s in decoded.value.sources) <==>
               (forall s | s in acl.sources :: s in scope.sources);
    }
  }
}
