/** What a login comes to, in the values it was begun with. */
module Logins {
  import opened Basics
  import opened PendingAuths
  import opened Text
  import opened UrlEncoding
  import opened OAuthFlow

  // ---- the two providers ----

  /** Their names, where consent is given, and for what. */
  lemma ProvidersAre(name: string)
    ensures ParseProvider(name) == Some(Google) <==> name == "google"
    ensures ParseProvider(name) == Some(GitHub) <==> name == "github"
    ensures ProviderName(Google) == "google" && ProviderName(GitHub) == "github"
    ensures Endpoint(Google) == "https://accounts.google.com/o/oauth2/v2/auth"
    ensures Endpoint(GitHub) == "https://github.com/login/oauth/authorize"
    ensures Scopes(Google) == ["openid", "email", "https://www.googleapis.com/auth/gmail.readonly",
                               "https://www.googleapis.com/auth/calendar.readonly"]
    ensures Scopes(GitHub) == ["read:user", "repo"]
  {
    assert "google"[1] == 'o' && "github"[1] == 'i';
  }

  /** The parameters every consent URL carries, each with its value: the provider's client id and redirect URI, its
      scopes one space apart, the state, and the challenge by its method; and for Google two more. */
  lemma ParametersAre(cfg: Config, p: Provider, token: Token, verifier: string)
    ensures var params := ConsentParams(cfg, p, token, verifier);
            && |params| == (if p == Google then 9 else 7)
            && params[0] == ("client_id", cfg.clientId(p))
            && params[1] == ("redirect_uri", cfg.redirectUri(p))
            && params[2] == ("response_type", "code")
            && params[3].0 == "scope"
            && params[4] == ("state", cfg.tokenText(token))
            && params[5] == ("code_challenge", cfg.challenge(verifier))
            && params[6] == ("code_challenge_method", "S256")
            && (p == Google ==> params[7] == ("access_type", "offline") && params[8] == ("prompt", "consent"))
  {
    hide Scopes;
  }

  lemma ScopeParameterIs(cfg: Config, p: Provider, token: Token, verifier: string)
    ensures var scope := ConsentParams(cfg, p, token, verifier)[3].1;
            && (p == Google ==>
                  scope == "openid" + " " + ("email" + " " + ("https://www.googleapis.com/auth/gmail.readonly" + " "
                           + "https://www.googleapis.com/auth/calendar.readonly")))
            && (p == GitHub ==> scope == "read:user" + " " + "repo")
  {
    var scopes := Scopes(p);
    if p == Google {
      FourJoined(scopes[0], scopes[1], scopes[2], scopes[3], " ");
      assert scopes == [scopes[0], scopes[1], scopes[2], scopes[3]];
    } else {
      TwoJoined(scopes[0], scopes[1], " ");
      assert scopes == [scopes[0], scopes[1]];
    }
    assert ConsentParams(cfg, p, token, verifier)[3].1 == Join(scopes, " ");
  }

  /** They go out in bytes, each key with its value. */
  lemma ParametersInBytes(params: seq<(string, string)>, i: nat)
    requires i < |params|
    ensures |InBytes(params)| == |params|
    ensures InBytes(params)[i].key == Utf8(params[i].0) && InBytes(params)[i].value == Utf8(params[i].1)
  {
    hide Utf8;
  }

  lemma TwoJoined(a: string, b: string, sep: string)
    ensures Join([a, b], sep) == a + sep + b
  {
    assert [a, b][1..] == [b];
  }

  lemma FourJoined(a: string, b: string, c: string, d: string, sep: string)
    ensures Join([a, b, c, d], sep) == a + sep + (b + sep + (c + sep + d))
  {
    TwoJoined(c, d, sep);
    assert [a, b, c, d][1..] == [b, c, d] && [b, c, d][1..] == [c, d];
    assert Join([b, c, d], sep) == b + sep + Join([c, d], sep);
  }

  /** What is answered of it: the consent URL begins at that provider's endpoint. */
  lemma AnswerIs(cfg: Config, p: Provider, token: Token, verifier: string, expiresAt: nat)
    ensures var r := Authorized(cfg, p, token, verifier, expiresAt);
            && r.provider == ProviderName(p) && r.state == token && r.scopes == Scopes(p)
            && r.expiresAtMs == expiresAt * 1000
            && r.authorizeUrl == Endpoint(p) + "?" + UrlEncode(InBytes(ConsentParams(cfg, p, token, verifier)))
  {
    hide Endpoint, Scopes, UrlEncode;
  }

  // ---- the state ----

  /** A state is accepted for exactly the time to live from when it was issued, and tells its flow. */
  lemma StateLasts(cfg: Config, p: Provider, id: string, issuedAt: nat, validatedAt: nat)
    ensures var token := IssueState(cfg, p, id, issuedAt);
            && token.key == cfg.secret && token.typ == "oauth_state"
            && token.claims.stateId == id && token.claims.provider == ProviderName(p)
            && (ValidateState(cfg, token, validatedAt).Ok? <==> validatedAt <= issuedAt + cfg.ttlSecs)
            && (ValidateState(cfg, token, validatedAt).Ok? ==>
                  ValidateState(cfg, token, validatedAt) == Ok(token.claims))
  {
  }

  /** Nothing else is accepted: another key, another type, or past its expiry. */
  lemma OnlyStatesPass(cfg: Config, token: Token, now: nat)
    ensures ValidateState(cfg, token, now).Ok? <==>
              token.key == cfg.secret && token.typ == "oauth_state" && now <= token.claims.exp
  {
  }

  /** What a callback sends on is what was kept of its flow, and it is sent on exactly if something was kept, for the
      provider the state names, and that is one of the two. */
  lemma RedeemsExactly(claims: Claims, taken: Option<PendingAuth>, code: string)
    ensures var r := Redeem(claims, taken, code);
            && (r.Ok? <==> taken.Some? && taken.value.provider == claims.provider
                           && (claims.provider == "google" || claims.provider == "github"))
            && (r.Ok? ==> r.value == Exchange(claims.provider, code, taken.value.redirectUri, taken.value.codeVerifier))
  {
    ProvidersAre(claims.provider);
  }

  // ---- a login ----

  /** What is pending once an authorize is done. */
  function PendingThen(cfg: Config, before: Entries, p: Provider, id: string, verifier: string, stampedAt: nat,
                       insertedAt: nat): Entries {
    Inserted(before, insertedAt, id,
             PendingAuth(ProviderName(p), verifier, cfg.redirectUri(p), stampedAt + cfg.ttlSecs))
  }

  /** Authorize and callback with nothing between them succeed exactly if the callback validates the state within the
      time to live of its issue and takes the entry before the time to live of its stamp is over; then the code is sent
      on with the provider, redirect URI and verifier of that authorize. No clock reading is assumed to be later than
      another. */
  lemma LoginExactly(cfg: Config, before: Entries, p: Provider, id: string, verifier: string, code: string,
                     issuedAt: nat, stampedAt: nat, insertedAt: nat, validatedAt: nat, takenAt: nat)
    ensures var (token, pending) := (IssueState(cfg, p, id, issuedAt),
                                     PendingThen(cfg, before, p, id, verifier, stampedAt, insertedAt));
            var validated := ValidateState(cfg, token, validatedAt);
            && (validated.Ok? <==> validatedAt <= issuedAt + cfg.ttlSecs)
            && (validated.Ok? ==>
                  var r := Redeem(validated.value, Answer(pending, takenAt, validated.value.stateId), code);
                  && (r.Ok? <==> takenAt < stampedAt + cfg.ttlSecs)
                  && (r.Ok? ==> r.value == Exchange(ProviderName(p), code, cfg.redirectUri(p), verifier)))
  {
    StateLasts(cfg, p, id, issuedAt, validatedAt);
    NamesParse(p);
    hide IssueState;
  }

  /** The same of the objects: whoever comes back in time is sent on. */
  method LogIn(gateway: Gateway, provider: string, id: string, verifier: string, code: string, issuedAt: nat,
               stampedAt: nat, insertedAt: nat, validatedAt: nat, takenAt: nat) returns (r: Result<Exchange>)
    modifies gateway.pendingAuth
    ensures var p := ParseProvider(provider);
            if p.None? || gateway.cfg.clientId(p.value) == "" then r.Raised?
            else
              && (r.Ok? <==> validatedAt <= issuedAt + gateway.cfg.ttlSecs && takenAt < stampedAt + gateway.cfg.ttlSecs)
              && (r.Ok? ==> r.value == Exchange(provider, code, gateway.cfg.redirectUri(p.value), verifier))
  {
    hide IssueState, ConsentUrl, Scopes, Inserted, Answer, Redeem, ValidateState;
    ghost var before := gateway.pendingAuth.entries;
    var answer := gateway.Authorize(provider, id, verifier, issuedAt, stampedAt, insertedAt);
    if answer.Raised? {
      return Raised(answer.reason);
    }
    ghost var p := ParseProvider(provider).value;
    LoginExactly(gateway.cfg, before, p, id, verifier, code, issuedAt, stampedAt, insertedAt, validatedAt, takenAt);
    ProvidersAre(provider);
    r := gateway.Callback(answer.value.state, code, validatedAt, takenAt);
  }
}
