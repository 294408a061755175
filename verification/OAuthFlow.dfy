/** The redirect flow: authorize and callback, step by step, in any interleaving. */
module OAuthFlow {
  import opened Basics
  import opened PendingAuths
  import opened Text
  import opened UrlEncoding

  const TOKEN_TYPE := "oauth_state"

  datatype Provider = Google | GitHub

  function ParseProvider(s: string): Option<Provider> {
    if s == "google" then Some(Google) else if s == "github" then Some(GitHub) else None
  }

  function ProviderName(p: Provider): string {
    match p
    case Google => "google"
    case GitHub => "github"
  }

  /** A signed token: only the holder of `key` could have produced it. */
  datatype Token = Token(key: string, typ: string, claims: Claims)

  datatype Claims = Claims(stateId: string, provider: string, exp: nat)

  function Scopes(p: Provider): seq<string> {
    match p
    case Google =>
      ["openid", "email", "https://www.googleapis.com/auth/gmail.readonly",
       "https://www.googleapis.com/auth/calendar.readonly"]
    case GitHub => ["read:user", "repo"]
  }

  function Endpoint(p: Provider): string {
    match p
    case Google => "https://accounts.google.com/o/oauth2/v2/auth"
    case GitHub => "https://github.com/login/oauth/authorize"
  }

  /** Besides what is configured: `tokenText` is how a signed token is written out, `challenge` the S256
      challenge of a verifier. */
  datatype Config = Config(
    secret: string, ttlSecs: nat, clientId: Provider -> string, redirectUri: Provider -> string,
    tokenText: Token -> string, challenge: string -> string)

  datatype AuthorizeResponse = AuthorizeResponse(
    provider: string, authorizeUrl: string, state: Token, scopes: seq<string>, expiresAtMs: nat)

  datatype Exchange = Exchange(provider: string, code: string, redirectUri: string, codeVerifier: string)

  // ---- the pieces ----

  /** `issue_state`, given the random id and verifier it draws. */
  function IssueState(cfg: Config, provider: Provider, id: string, now: nat): Token {
    Token(cfg.secret, TOKEN_TYPE, Claims(id, ProviderName(provider), now + cfg.ttlSecs))
  }

  /** The parameters of the consent URL, in order. */
  function ConsentParams(cfg: Config, p: Provider, token: Token, verifier: string): seq<(string, string)> {
    [("client_id", cfg.clientId(p)), ("redirect_uri", cfg.redirectUri(p)), ("response_type", "code"),
     ("scope", Join(Scopes(p), " ")), ("state", cfg.tokenText(token)),
     ("code_challenge", cfg.challenge(verifier)), ("code_challenge_method", "S256")]
    + if p == Google then [("access_type", "offline"), ("prompt", "consent")] else []
  }

  function InBytes(params: seq<(string, string)>): seq<Param> {
    seq(|params|, i requires 0 <= i < |params| => Param(Utf8(params[i].0), Utf8(params[i].1)))
  }

  function ConsentUrl(cfg: Config, p: Provider, token: Token, verifier: string): string {
    Endpoint(p) + "?" + UrlEncode(InBytes(ConsentParams(cfg, p, token, verifier)))
  }

  lemma EndpointHasNoQuery(p: Provider)
    ensures '?' !in Endpoint(p)
  {
    match p
    case Google => assert '?' !in "https://accounts.google.com/o/oauth2/v2/auth";
    case GitHub => assert '?' !in "https://github.com/login/oauth/authorize";
  }

  /** Cut at its first `?`, the consent URL gives back the provider's endpoint and exactly its parameters. */
  lemma ConsentUrlTells(cfg: Config, p: Provider, token: Token, verifier: string)
    ensures var (base, query) := Cut(ConsentUrl(cfg, p, token, verifier), '?');
            && base == Endpoint(p) && query.Some?
            && ParseQuery(query.value) == Some(InBytes(ConsentParams(cfg, p, token, verifier)))
  {
    EndpointHasNoQuery(p);
    hide Endpoint, Cut, UrlEncode, ParseQuery, Scopes, Utf8;
    var params := InBytes(ConsentParams(cfg, p, token, verifier));
    CutAt(Endpoint(p), '?', UrlEncode(params));
    assert Endpoint(p) + "?" + UrlEncode(params) == Endpoint(p) + ['?'] + UrlEncode(params);
    ParseUndoesUrlEncode(params);
  }

  /** `validate_state`, without leeway. */
  function ValidateState(cfg: Config, token: Token, now: nat): Result<Claims> {
    if token.key != cfg.secret then Raised("invalid oauth state: InvalidSignature")
    else if token.claims.exp < now then Raised("invalid oauth state: ExpiredSignature")
    else if token.typ != TOKEN_TYPE then Raised("token is not an oauth state token")
    else Ok(token.claims)
  }

  /** What a callback does with what `take` gave it: the request it sends the enclave, or its error. */
  function Redeem(claims: Claims, taken: Option<PendingAuth>, code: string): Result<Exchange> {
    match taken
    case None => Raised("oauth state is unknown, expired, or has already been used")
    case Some(pending) =>
      if pending.provider != claims.provider then Raised("oauth state provider mismatch")
      else match ParseProvider(claims.provider)
           case None => Raised("oauth state names no known provider")
           case Some(p) => Ok(Exchange(ProviderName(p), code, pending.redirectUri, pending.codeVerifier))
  }

  /** What `authorize` answers; of the verifier, nothing but its challenge. */
  function Authorized(cfg: Config, p: Provider, token: Token, verifier: string, expiresAt: nat): AuthorizeResponse {
    AuthorizeResponse(ProviderName(p), ConsentUrl(cfg, p, token, verifier), token, Scopes(p), expiresAt * 1000)
  }

  // ---- the handlers, each reading the clock as often as the code does ----

  class Gateway {
    const cfg: Config
    const pendingAuth: PendingAuthStore

    constructor (cfg: Config)
      ensures this.cfg == cfg && fresh(pendingAuth) && pendingAuth.entries == map[]
    {
      this.cfg := cfg;
      pendingAuth := new PendingAuthStore();
    }

    /** `issuedAt`, `stampedAt` and `insertedAt` are its three readings of the clock. */
    method Authorize(provider: string, id: string, verifier: string, issuedAt: nat, stampedAt: nat, insertedAt: nat)
      returns (r: Result<AuthorizeResponse>)
      modifies pendingAuth
      ensures var p := ParseProvider(provider);
              if p.None? || cfg.clientId(p.value) == "" then
                r.Raised? && pendingAuth.entries == old(pendingAuth.entries)
              else
                && r == Ok(Authorized(cfg, p.value, IssueState(cfg, p.value, id, issuedAt), verifier,
                                      stampedAt + cfg.ttlSecs))
                && pendingAuth.entries == Inserted(old(pendingAuth.entries), insertedAt, id,
                     PendingAuth(provider, verifier, cfg.redirectUri(p.value), stampedAt + cfg.ttlSecs))
      ensures r.Ok? ==>
                && r.value.provider == provider && provider in {"google", "github"}
                && r.value.expiresAtMs == (stampedAt + cfg.ttlSecs) * 1000
                && (provider == "google" ==> cfg.clientId(Google) != "")
                && (provider == "github" ==> cfg.clientId(GitHub) != "")
    {
      hide IssueState, Endpoint, UrlEncode, Scopes, InBytes, Join, Inserted;
      var parsed := ParseProvider(provider);
      if parsed.None? {
        return Raised("unknown provider '" + provider + "'; expected google or github");
      }
      var p := parsed.value;
      if cfg.clientId(p) == "" {
        return Raised((if p == Google then "GOOGLE" else "GITHUB") + "_CLIENT_ID is not configured");
      }
      var redirectUri := cfg.redirectUri(p);
      var token := IssueState(cfg, p, id, issuedAt);
      var expiresAt := stampedAt + cfg.ttlSecs;
      pendingAuth.Insert(insertedAt, id, PendingAuth(ProviderName(p), verifier, redirectUri, expiresAt));
      var params :=
        [("client_id", cfg.clientId(p)), ("redirect_uri", redirectUri), ("response_type", "code"),
         ("scope", Join(Scopes(p), " ")), ("state", cfg.tokenText(token)),
         ("code_challenge", cfg.challenge(verifier)), ("code_challenge_method", "S256")];
      if p == Google {
        params := params + [("access_type", "offline"), ("prompt", "consent")];
      }
      assert params == ConsentParams(cfg, p, token, verifier);
      r := Ok(AuthorizeResponse(ProviderName(p), Endpoint(p) + "?" + UrlEncode(InBytes(params)), token, Scopes(p),
                                expiresAt * 1000));
    }

    /** The state is validated, then consumed, and only then is the code sent anywhere. */
    method Callback(token: Token, code: string, validatedAt: nat, takenAt: nat) returns (r: Result<Exchange>)
      modifies pendingAuth
      ensures match ValidateState(cfg, token, validatedAt)
              case Raised(e) => r == Raised(e) && pendingAuth.entries == old(pendingAuth.entries)
              case Ok(claims) =>
                && r == Redeem(claims, Answer(old(pendingAuth.entries), takenAt, claims.stateId), code)
                && pendingAuth.entries == old(pendingAuth.entries) - {claims.stateId}
    {
      var validated := ValidateState(cfg, token, validatedAt);
      if validated.Raised? {
        return Raised(validated.reason);
      }
      var claims := validated.value;
      var pending := pendingAuth.Take(takenAt, claims.stateId);
      if pending.None? {
        return Raised("oauth state is unknown, expired, or has already been used");
      }
      if pending.value.provider != claims.provider {
        return Raised("oauth state provider mismatch");
      }
      var provider := ParseProvider(claims.provider);
      if provider.None? {
        return Raised("oauth state names no known provider");
      }
      r := Ok(Exchange(ProviderName(provider.value), code, pending.value.redirectUri, pending.value.codeVerifier));
    }
  }

  // ---- every interleaving ----

  /** What an authorize drew and read, once it has issued its state. */
  datatype Flow = Flow(provider: Provider, verifier: string, redirectUri: string, token: Token)

  datatype Sent = Sent(id: string, exchange: Exchange, at: nat)

  /** The gateway between two steps. Flows by state id: issued ones, of these the ones whose expiry is
      stamped but which are not inserted yet, and all that ever were stamped; callbacks that have
      validated a state but not consumed it; and what was sent to the enclave. */
  datatype State = State(
    now: nat, flows: map<string, Flow>, unstamped: set<string>, waiting: set<string>, expiry: map<string, nat>,
    pending: Entries, validated: multiset<Claims>, sent: seq<Sent>)

  const START := State(0, map[], {}, {}, map[], map[], multiset{}, [])

  datatype Step =
    | Clock(reading: nat)
    | Issue(id: string, provider: Provider, verifier: string)
    | Stamp(id: string)
    | Insert(id: string)
    | Validate(token: Token)
    | Take(claims: Claims, code: string)

  /** A token that verifies under our secret is one we signed: a state we issued, or another type's. */
  predicate Unforged(cfg: Config, s: State, token: Token) {
    token.key == cfg.secret && token.typ == TOKEN_TYPE ==>
      token.claims.stateId in s.flows && s.flows[token.claims.stateId].token == token
  }

  /** Random ids do not repeat, and nobody forges a signature; the clock may read anything. */
  predicate Enabled(cfg: Config, s: State, step: Step) {
    match step
    case Clock(reading) => true
    case Issue(id, provider, verifier) => id !in s.flows && cfg.clientId(provider) != ""
    case Stamp(id) => id in s.unstamped
    case Insert(id) => id in s.waiting && id in s.flows && id in s.expiry
    case Validate(token) => Unforged(cfg, s, token)
    case Take(claims, code) => claims in s.validated
  }

  function Next(cfg: Config, s: State, step: Step): State
    requires Enabled(cfg, s, step)
  {
    match step
    case Clock(reading) => s.(now := reading)
    case Issue(id, provider, verifier) =>
      var flow := Flow(provider, verifier, cfg.redirectUri(provider), IssueState(cfg, provider, id, s.now));
      s.(flows := s.flows[id := flow],
         unstamped := s.unstamped + {id})
    case Stamp(id) =>
      s.(unstamped := s.unstamped - {id}, waiting := s.waiting + {id}, expiry := s.expiry[id := s.now + cfg.ttlSecs])
    case Insert(id) =>
      var f := s.flows[id];
      s.(waiting := s.waiting - {id},
         pending := Inserted(s.pending, s.now, id,
                             PendingAuth(ProviderName(f.provider), f.verifier, f.redirectUri, s.expiry[id])))
    case Validate(token) =>
      (match ValidateState(cfg, token, s.now)
       case Ok(claims) => s.(validated := s.validated + multiset{claims})
       case Raised(_) => s)
    case Take(claims, code) =>
      var outcome := Redeem(claims, Answer(s.pending, s.now, claims.stateId), code);
      s.(validated := s.validated - multiset{claims}, pending := s.pending - {claims.stateId},
         sent := if outcome.Ok? then s.sent + [Sent(claims.stateId, outcome.value, s.now)] else s.sent)
  }

  ghost predicate Leads(cfg: Config, s: State, steps: seq<Step>, end: State)
    decreases |steps|
  {
    if steps == [] then end == s
    else Enabled(cfg, s, steps[0]) && Leads(cfg, Next(cfg, s, steps[0]), steps[1..], end)
  }

  ghost predicate Reachable(cfg: Config, s: State) {
    exists steps :: Leads(cfg, START, steps, s)
  }

  // ---- what every step keeps ----

  ghost predicate WasSent(s: State, id: string) {
    exists i :: 0 <= i < |s.sent| && s.sent[i].id == id
  }

  /** A pending entry is its own flow's, with the expiry stamped on it. */
  ghost predicate PendingFaithful(s: State) {
    forall id :: id in s.pending ==>
      && id in s.flows && id in s.expiry
      && s.pending[id] == PendingAuth(ProviderName(s.flows[id].provider), s.flows[id].verifier, s.flows[id].redirectUri,
                                      s.expiry[id])
  }

  /** A flow is unstamped, waiting to be inserted, pending, sent, or gone: never two of these. */
  ghost predicate OneStageAtATime(s: State) {
    && (forall id :: id in s.unstamped ==>
        id in s.flows && id !in s.waiting && id !in s.expiry && id !in s.pending && !WasSent(s, id))
    && (forall id :: id in s.waiting ==> id in s.flows && id in s.expiry && id !in s.pending && !WasSent(s, id))
    && (forall id :: id in s.pending ==> !WasSent(s, id))
    && (forall id :: id in s.expiry ==> id in s.flows)
  }

  ghost predicate ValidatedIssued(cfg: Config, s: State) {
    && (forall id :: id in s.flows ==>
          var token := s.flows[id].token;
          token.key == cfg.secret && token.typ == TOKEN_TYPE && token.claims.stateId == id
          && token.claims.provider == ProviderName(s.flows[id].provider))
    && (forall c :: c in s.validated ==> c.stateId in s.flows && s.flows[c.stateId].token.claims == c)
  }

  /** What was sent was its own flow's, before that flow's expiry. */
  ghost predicate IsFaithful(s: State, x: Sent) {
    && x.id in s.flows && x.id in s.expiry && x.at < s.expiry[x.id]
    && x.exchange == Exchange(ProviderName(s.flows[x.id].provider), x.exchange.code, s.flows[x.id].redirectUri,
                              s.flows[x.id].verifier)
  }

  ghost predicate SentFaithful(s: State) {
    forall i :: 0 <= i < |s.sent| ==> IsFaithful(s, s.sent[i])
  }

  ghost predicate SentOnce(s: State) {
    forall i, j :: 0 <= i < j < |s.sent| ==> s.sent[i].id != s.sent[j].id
  }

  ghost predicate Inv(cfg: Config, s: State) {
    PendingFaithful(s) && OneStageAtATime(s) && ValidatedIssued(cfg, s) && SentFaithful(s) && SentOnce(s)
  }

  lemma NamesParse(p: Provider)
    ensures ParseProvider(ProviderName(p)) == Some(p)
  {
  }

  /** Flows and expiries only come in. */
  ghost predicate Grows(s: State, t: State) {
    && (forall id :: id in s.flows ==> id in t.flows && t.flows[id] == s.flows[id])
    && (forall id :: id in s.expiry ==> id in t.expiry && t.expiry[id] == s.expiry[id])
  }

  lemma SendsStay(s: State, t: State)
    requires Grows(s, t) && t.sent == s.sent
    ensures SentFaithful(s) ==> SentFaithful(t)
    ensures SentOnce(s) ==> SentOnce(t)
    ensures forall id :: WasSent(t, id) <==> WasSent(s, id)
  {
    assert forall id :: WasSent(t, id) <==> WasSent(s, id);
  }

  lemma PendingStay(s: State, t: State)
    requires Grows(s, t) && t.pending == s.pending
    ensures PendingFaithful(s) ==> PendingFaithful(t)
  {
  }

  lemma StagesStay(s: State, t: State)
    requires Grows(s, t) && t.sent == s.sent && t.expiry == s.expiry && t.pending == s.pending
    requires t.unstamped == s.unstamped && t.waiting == s.waiting
    ensures OneStageAtATime(s) ==> OneStageAtATime(t)
  {
    SendsStay(s, t);
    hide WasSent;
  }

  lemma ValidatedStay(cfg: Config, s: State, t: State)
    requires t.flows == s.flows && forall c :: c in t.validated ==> c in s.validated
    ensures ValidatedIssued(cfg, s) ==> ValidatedIssued(cfg, t)
  {
  }

  lemma IssueStages(s: State, t: State, id: string)
    requires t == s.(flows := t.flows, unstamped := s.unstamped + {id}) && Grows(s, t) && id in t.flows
             && id !in s.flows
    requires PendingFaithful(s) && SentFaithful(s)
    ensures OneStageAtATime(s) ==> OneStageAtATime(t)
  {
    SendsStay(s, t);
    assert !WasSent(s, id);
    hide WasSent, SentFaithful;
  }

  lemma IssueDoes(cfg: Config, s: State, step: Step)
    requires Enabled(cfg, s, step) && step.Issue?
    ensures var t := Next(cfg, s, step);
            && t == s.(flows := t.flows, unstamped := s.unstamped + {step.id}) && Grows(s, t) && step.id in t.flows
               && step.id !in s.flows
            && (ValidatedIssued(cfg, s) ==> ValidatedIssued(cfg, t))
  {
  }

  lemma IssueKeepsInv(cfg: Config, s: State, step: Step)
    requires Inv(cfg, s) && Enabled(cfg, s, step) && step.Issue?
    ensures Inv(cfg, Next(cfg, s, step))
  {
    hide PendingFaithful, OneStageAtATime, ValidatedIssued, SentFaithful, SentOnce, WasSent, IsFaithful;
    IssueDoes(cfg, s, step);
    hide Next;
    IssueStages(s, Next(cfg, s, step), step.id);
    SendsStay(s, Next(cfg, s, step));
    PendingStay(s, Next(cfg, s, step));
  }

  lemma StampStages(s: State, t: State, id: string)
    requires t == s.(unstamped := s.unstamped - {id}, waiting := s.waiting + {id}, expiry := t.expiry)
    requires id in s.unstamped && Grows(s, t) && t.expiry.Keys == s.expiry.Keys + {id}
    ensures OneStageAtATime(s) ==> OneStageAtATime(t)
  {
    SendsStay(s, t);
    hide WasSent;
  }

  lemma StampDoes(cfg: Config, s: State, id: string)
    requires OneStageAtATime(s) && Enabled(cfg, s, Stamp(id))
    ensures var t := Next(cfg, s, Stamp(id));
            && t == s.(unstamped := s.unstamped - {id}, waiting := s.waiting + {id}, expiry := t.expiry)
            && Grows(s, t) && t.expiry.Keys == s.expiry.Keys + {id}
  {
    hide WasSent;
  }

  lemma StampKeepsInv(cfg: Config, s: State, id: string)
    requires Inv(cfg, s) && Enabled(cfg, s, Stamp(id))
    ensures Inv(cfg, Next(cfg, s, Stamp(id)))
  {
    hide PendingFaithful, OneStageAtATime, ValidatedIssued, SentFaithful, SentOnce, WasSent, IsFaithful;
    StampDoes(cfg, s, id);
    hide Next;
    StampStages(s, Next(cfg, s, Stamp(id)), id);
    SendsStay(s, Next(cfg, s, Stamp(id)));
    PendingStay(s, Next(cfg, s, Stamp(id)));
    ValidatedStay(cfg, s, Next(cfg, s, Stamp(id)));
  }

  lemma InsertStages(s: State, t: State, id: string)
    requires t == s.(waiting := s.waiting - {id}, pending := t.pending) && id in s.waiting
    requires forall x :: x in t.pending && x != id ==> x in s.pending
    ensures OneStageAtATime(s) ==> OneStageAtATime(t)
  {
    SendsStay(s, t);
    hide WasSent;
  }

  lemma InsertDoes(cfg: Config, s: State, id: string)
    requires Enabled(cfg, s, Step.Insert(id))
    ensures var t := Next(cfg, s, Step.Insert(id));
            && t == s.(waiting := s.waiting - {id}, pending := t.pending) && id in s.waiting
            && (forall x :: x in t.pending && x != id ==> x in s.pending)
            && (PendingFaithful(s) ==> PendingFaithful(t))
  {
    var t := Next(cfg, s, Step.Insert(id));
    assert forall x :: x in t.pending && x != id ==> x in s.pending && t.pending[x] == s.pending[x];
  }

  lemma InsertKeepsInv(cfg: Config, s: State, id: string)
    requires Inv(cfg, s) && Enabled(cfg, s, Step.Insert(id))
    ensures Inv(cfg, Next(cfg, s, Step.Insert(id)))
  {
    hide PendingFaithful, OneStageAtATime, ValidatedIssued, SentFaithful, SentOnce, WasSent, IsFaithful;
    InsertDoes(cfg, s, id);
    hide Next;
    InsertStages(s, Next(cfg, s, Step.Insert(id)), id);
    SendsStay(s, Next(cfg, s, Step.Insert(id)));
    ValidatedStay(cfg, s, Next(cfg, s, Step.Insert(id)));
  }

  lemma IssuedAreValidated(cfg: Config, s: State, token: Token)
    requires Inv(cfg, s) && Enabled(cfg, s, Validate(token))
    ensures var t := Next(cfg, s, Validate(token)); t == s.(validated := t.validated) && ValidatedIssued(cfg, t)
  {
  }

  lemma ValidateKeepsInv(cfg: Config, s: State, token: Token)
    requires Inv(cfg, s) && Enabled(cfg, s, Validate(token))
    ensures Inv(cfg, Next(cfg, s, Validate(token)))
  {
    hide PendingFaithful, OneStageAtATime, ValidatedIssued, SentFaithful, SentOnce, WasSent, IsFaithful;
    IssuedAreValidated(cfg, s, token);
    hide Next;
    SendsStay(s, Next(cfg, s, Validate(token)));
    PendingStay(s, Next(cfg, s, Validate(token)));
    StagesStay(s, Next(cfg, s, Validate(token)));
  }

  lemma ClockKeepsInv(cfg: Config, s: State, reading: nat)
    requires Inv(cfg, s)
    ensures Inv(cfg, Next(cfg, s, Clock(reading)))
  {
    hide PendingFaithful, OneStageAtATime, ValidatedIssued, SentFaithful, SentOnce, WasSent, IsFaithful;
    SendsStay(s, Next(cfg, s, Clock(reading)));
    PendingStay(s, Next(cfg, s, Clock(reading)));
    StagesStay(s, Next(cfg, s, Clock(reading)));
    ValidatedStay(cfg, s, Next(cfg, s, Clock(reading)));
  }

  /** Of all the ways a callback can end, only these two are ever taken once its state has validated. */
  lemma TakeOutcome(cfg: Config, s: State, claims: Claims, code: string)
    requires Inv(cfg, s) && claims in s.validated
    ensures var (id, f) := (claims.stateId, s.flows[claims.stateId]);
            Redeem(claims, Answer(s.pending, s.now, id), code)
            == if id in s.pending && s.now < s.expiry[id]
                then Ok(Exchange(ProviderName(f.provider), code, f.redirectUri, f.verifier))
               else Raised("oauth state is unknown, expired, or has already been used")
  {
    NamesParse(s.flows[claims.stateId].provider);
  }

  /** What a take does to the state, outcome by outcome. */
  lemma TakeDoes(cfg: Config, s: State, claims: Claims, code: string)
    requires Inv(cfg, s) && claims in s.validated
    ensures var (t, id) := (Next(cfg, s, Step.Take(claims, code)), claims.stateId);
            && id in s.flows && t == s.(validated := t.validated, pending := s.pending - {id}, sent := t.sent)
            && (forall c :: c in t.validated ==> c in s.validated)
            && (t.sent == s.sent
                || (id in s.pending && id in s.expiry && s.now < s.expiry[id]
                    && t.sent == s.sent + [Sent(id,
                                                Exchange(ProviderName(s.flows[id].provider), code,
                                                         s.flows[id].redirectUri, s.flows[id].verifier), s.now)]))
  {
    TakeOutcome(cfg, s, claims, code);
    hide Redeem, Answer;
  }

  lemma TakenLeaves(s: State, t: State, id: string)
    requires t == s.(validated := t.validated, pending := s.pending - {id}, sent := t.sent)
    requires forall x :: WasSent(t, x) ==> WasSent(s, x) || (x == id && id in s.pending)
    ensures PendingFaithful(s) ==> PendingFaithful(t)
    ensures OneStageAtATime(s) ==> OneStageAtATime(t)
  {
    hide WasSent;
  }

  lemma SendFaithful(s: State, t: State)
    requires t.flows == s.flows && t.expiry == s.expiry && |t.sent| == |s.sent| + 1 && t.sent[..|s.sent|] == s.sent
    requires IsFaithful(s, t.sent[|s.sent|])
    ensures SentFaithful(s) ==> SentFaithful(t)
  {
    assert forall i :: 0 <= i < |s.sent| ==> t.sent[i] == t.sent[..|s.sent|][i] == s.sent[i];
    assert forall x :: IsFaithful(s, x) <==> IsFaithful(t, x);
    hide IsFaithful;
  }

  lemma NotSentWhilePending(s: State, id: string)
    requires OneStageAtATime(s) && id in s.pending
    ensures !WasSent(s, id)
  {
    hide WasSent;
  }

  lemma TakeKeepsInv(cfg: Config, s: State, claims: Claims, code: string)
    requires Inv(cfg, s) && claims in s.validated
    ensures Inv(cfg, Next(cfg, s, Step.Take(claims, code)))
  {
    hide PendingFaithful, OneStageAtATime, ValidatedIssued, SentFaithful, SentOnce, WasSent;
    TakeDoes(cfg, s, claims, code);
    hide Next;
    var (t, id) := (Next(cfg, s, Step.Take(claims, code)), claims.stateId);
    ValidatedStay(cfg, s, t);
    if t.sent == s.sent {
      SendsStay(s, t);
    } else {
      NotSentWhilePending(s, id);
      SentOneMore(s, t, id);
      SendFaithful(s, t);
    }
    TakenLeaves(s, t, id);
  }

  lemma SentOneMore(s: State, t: State, id: string)
    requires |t.sent| == |s.sent| + 1 && t.sent[..|s.sent|] == s.sent && t.sent[|s.sent|].id == id
    ensures forall x :: WasSent(t, x) <==> WasSent(s, x) || x == id
    ensures SentOnce(s) && !WasSent(s, id) ==> SentOnce(t)
  {
    assert forall i :: 0 <= i < |s.sent| ==> t.sent[i] == t.sent[..|s.sent|][i] == s.sent[i];
    forall x ensures WasSent(t, x) <==> WasSent(s, x) || x == id {
      if WasSent(s, x) {
        var i :| 0 <= i < |s.sent| && s.sent[i].id == x;
        assert t.sent[i].id == x;
      }
    }
  }

  lemma StepKeepsInv(cfg: Config, s: State, step: Step)
    requires Inv(cfg, s) && Enabled(cfg, s, step)
    ensures Inv(cfg, Next(cfg, s, step))
  {
    hide Inv, Next;
    match step
    case Clock(reading) => ClockKeepsInv(cfg, s, reading);
    case Issue(id, provider, verifier) => IssueKeepsInv(cfg, s, step);
    case Stamp(id) => StampKeepsInv(cfg, s, id);
    case Insert(id) => InsertKeepsInv(cfg, s, id);
    case Validate(token) => ValidateKeepsInv(cfg, s, token);
    case Take(claims, code) => TakeKeepsInv(cfg, s, claims, code);
  }

  lemma {:induction false} RunKeepsInv(cfg: Config, s: State, steps: seq<Step>, end: State)
    requires Inv(cfg, s) && Leads(cfg, s, steps, end)
    ensures Inv(cfg, end)
    decreases |steps|
  {
    hide Inv, Next;
    if steps != [] {
      StepKeepsInv(cfg, s, steps[0]);
      RunKeepsInv(cfg, Next(cfg, s, steps[0]), steps[1..], end);
    }
  }

  lemma ReachableKeepsInv(cfg: Config, s: State)
    requires Reachable(cfg, s)
    ensures Inv(cfg, s)
  {
    var steps :| Leads(cfg, START, steps, s);
    RunKeepsInv(cfg, START, steps, s);
  }

  /** Over every interleaving, and whatever the clock reads: a state id leads to at most one exchange,
      which uses the provider, redirect URI and verifier of the authorize that minted it, strictly
      before the expiry that authorize stamped. */
  lemma OneExchangePerState(cfg: Config, s: State, i: nat, j: nat)
    requires Reachable(cfg, s) && i < |s.sent| && j < |s.sent|
    ensures s.sent[i].id == s.sent[j].id ==> i == j
    ensures var x := s.sent[i];
            && x.id in s.flows && x.id in s.expiry && x.at < s.expiry[x.id]
            && x.exchange == Exchange(ProviderName(s.flows[x.id].provider), x.exchange.code, s.flows[x.id].redirectUri,
                                      s.flows[x.id].verifier)
  {
    ReachableKeepsInv(cfg, s);
    hide PendingFaithful, OneStageAtATime, ValidatedIssued;
  }

  /** A callback with a validated state is sent on exactly when its flow is pending and not expired; the
      one error it can meet is that of an unknown, expired or used state, never a provider mismatch; and
      after it no callback for the same flow is sent on. */
  lemma TakenOnce(cfg: Config, s: State, claims: Claims, code: string, again: string)
    requires Reachable(cfg, s) && claims in s.validated
    ensures var (id, outcome) := (claims.stateId, Redeem(claims, Answer(s.pending, s.now, claims.stateId), code));
            && (outcome.Ok? <==> id in s.pending && id in s.expiry && s.now < s.expiry[id])
            && (outcome.Raised? ==> outcome.reason == "oauth state is unknown, expired, or has already been used")
            && forall later :: Redeem(claims, Answer(Next(cfg, s, Step.Take(claims, code)).pending, later, id),
                                      again).Raised?
  {
    ReachableKeepsInv(cfg, s);
    TakeOutcome(cfg, s, claims, code);
  }

  /** And the flow is not blocked by its guards: whoever presents the token of a pending flow in time has
      it sent on. */
  lemma PendingFlowIsRedeemed(cfg: Config, s: State, id: string, code: string)
    requires Reachable(cfg, s) && id in s.pending && id in s.flows && id in s.expiry
    requires s.now < s.expiry[id] && s.now <= s.flows[id].token.claims.exp
    ensures var token := s.flows[id].token;
            && Enabled(cfg, s, Validate(token))
               && Enabled(cfg, Next(cfg, s, Validate(token)), Step.Take(token.claims, code))
            && Next(cfg, Next(cfg, s, Validate(token)), Step.Take(token.claims, code)).sent
               == s.sent + [Sent(id,
                                 Exchange(ProviderName(s.flows[id].provider), code, s.flows[id].redirectUri,
                                          s.flows[id].verifier), s.now)]
  {
    ReachableKeepsInv(cfg, s);
    NamesParse(s.flows[id].provider);
    var token := s.flows[id].token;
    assert ValidateState(cfg, token, s.now) == Ok(token.claims);
    hide OneStageAtATime, SentFaithful, SentOnce;
  }

  // ---- the handlers are runs of the steps ----

  /** An `authorize` that nothing interrupts: its three steps, each at its own reading of the clock. */
  lemma AuthorizeIsItsSteps(cfg: Config, s: State, p: Provider, id: string, verifier: string,
                            issuedAt: nat, stampedAt: nat, insertedAt: nat) returns (t: State)
    requires Reachable(cfg, s) && id !in s.flows && cfg.clientId(p) != ""
    ensures Leads(cfg, s, [Clock(issuedAt), Issue(id, p, verifier), Clock(stampedAt), Stamp(id), Clock(insertedAt),
                           Step.Insert(id)], t)
    ensures id in t.flows && id in t.expiry
    ensures t.flows[id].token == IssueState(cfg, p, id, issuedAt) && t.expiry[id] == stampedAt + cfg.ttlSecs
    ensures t.pending == Inserted(s.pending, insertedAt, id,
                                  PendingAuth(ProviderName(p), verifier, cfg.redirectUri(p), stampedAt + cfg.ttlSecs))
    ensures t.sent == s.sent && t.validated == s.validated
  {
    hide Inserted, IssueState, Leads, Reachable;
    FreshIsNowhere(cfg, s, id);
    var steps := [Clock(issuedAt), Issue(id, p, verifier), Clock(stampedAt), Stamp(id), Clock(insertedAt),
                  Step.Insert(id)];
    var a := Next(cfg, s, Clock(issuedAt));
    var b := Next(cfg, a, Issue(id, p, verifier));
    var c := Next(cfg, b, Clock(stampedAt));
    var d := Next(cfg, c, Stamp(id));
    var e := Next(cfg, d, Clock(insertedAt));
    t := Next(cfg, e, Step.Insert(id));
    assert Enabled(cfg, s, steps[0]) && Enabled(cfg, a, steps[1]) && Enabled(cfg, b, steps[2]);
    assert Enabled(cfg, c, steps[3]) && Enabled(cfg, d, steps[4]) && Enabled(cfg, e, steps[5]);
    SixSteps(cfg, [s, a, b, c, d, e, t], steps);
  }

  lemma SixSteps(cfg: Config, states: seq<State>, steps: seq<Step>)
    requires |steps| == 6 && |states| == 7
    requires forall i :: 0 <= i < 6 ==>
               Enabled(cfg, states[i], steps[i]) && states[i + 1] == Next(cfg, states[i], steps[i])
    ensures Leads(cfg, states[0], steps, states[6])
  {
    StepsLead(cfg, states, steps, 0);
    assert steps[0..] == steps;
  }

  lemma {:induction false} StepsLead(cfg: Config, states: seq<State>, steps: seq<Step>, n: nat)
    requires n <= |steps| && |states| == |steps| + 1
    requires forall i :: 0 <= i < |steps| ==>
               Enabled(cfg, states[i], steps[i]) && states[i + 1] == Next(cfg, states[i], steps[i])
    ensures Leads(cfg, states[n], steps[n..], states[|steps|])
    decreases |steps| - n
  {
    hide Next, Enabled;
    if n < |steps| {
      StepsLead(cfg, states, steps, n + 1);
      assert steps[n..][1..] == steps[n + 1..];
    }
  }

  lemma FreshIsNowhere(cfg: Config, s: State, id: string)
    requires Reachable(cfg, s) && id !in s.flows
    ensures id !in s.unstamped && id !in s.waiting
  {
    hide Reachable, PendingFaithful, ValidatedIssued, SentFaithful, SentOnce, WasSent;
    ReachableKeepsInv(cfg, s);
  }

  lemma LeadsNothing(cfg: Config, s: State)
    ensures Leads(cfg, s, [], s)
  {
  }

  lemma LeadsOne(cfg: Config, s: State, step: Step, rest: seq<Step>, end: State)
    requires Enabled(cfg, s, step) && Leads(cfg, Next(cfg, s, step), rest, end)
    ensures Leads(cfg, s, [step] + rest, end)
  {
    hide Next, Enabled;
    assert ([step] + rest)[1..] == rest;
  }

  /** A `callback` that nothing interrupts: it validates, and if that succeeds takes; what it answers and what
      it leaves pending are what these steps send and leave. */
  lemma CallbackIsItsSteps(cfg: Config, s: State, token: Token, code: string, validatedAt: nat, takenAt: nat)
    returns (t: State)
    requires Unforged(cfg, s, token)
    ensures var validated := ValidateState(cfg, token, validatedAt);
            if validated.Raised? then
              Leads(cfg, s, [Clock(validatedAt), Validate(token)], t) && t.pending == s.pending && t.sent == s.sent
            else
              && Leads(cfg, s, [Clock(validatedAt), Validate(token), Clock(takenAt),
                                Step.Take(validated.value, code)], t)
              && t.pending == s.pending - {validated.value.stateId}
              && t.sent == match Redeem(validated.value, Answer(s.pending, takenAt, validated.value.stateId), code)
                           case Ok(x) => s.sent + [Sent(validated.value.stateId, x, takenAt)]
                           case Raised(_) => s.sent
  {
    hide Redeem, Answer, ValidateState;
    var a := Next(cfg, s, Clock(validatedAt));
    var b := Next(cfg, a, Validate(token));
    var validated := ValidateState(cfg, token, validatedAt);
    if validated.Raised? {
      t := b;
      LeadsNothing(cfg, t);
      LeadsOne(cfg, a, Validate(token), [], t);
      LeadsOne(cfg, s, Clock(validatedAt), [Validate(token)], t);
    } else {
      var c := Next(cfg, b, Clock(takenAt));
      t := Next(cfg, c, Step.Take(validated.value, code));
      LeadsNothing(cfg, t);
      LeadsOne(cfg, c, Step.Take(validated.value, code), [], t);
      LeadsOne(cfg, b, Clock(takenAt), [Step.Take(validated.value, code)], t);
      LeadsOne(cfg, a, Validate(token), [Clock(takenAt), Step.Take(validated.value, code)], t);
      LeadsOne(cfg, s, Clock(validatedAt), [Validate(token), Clock(takenAt), Step.Take(validated.value, code)], t);
    }
  }
}
