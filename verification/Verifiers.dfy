/** What a PKCE verifier shows to anyone but the enclave: its challenge, and nothing else. */
module Verifiers {
  import opened PendingAuths
  import opened OAuthFlow

  // ---- the gateway with every verifier masked by its challenge ----

  function MaskFlow(cfg: Config, f: Flow): Flow {
    f.(verifier := cfg.challenge(f.verifier))
  }

  function MaskEntry(cfg: Config, p: PendingAuth): PendingAuth {
    p.(codeVerifier := cfg.challenge(p.codeVerifier))
  }

  function MaskExchange(cfg: Config, x: Exchange): Exchange {
    x.(codeVerifier := cfg.challenge(x.codeVerifier))
  }

  function MaskSent(cfg: Config, x: Sent): Sent {
    x.(exchange := MaskExchange(cfg, x.exchange))
  }

  /** Nothing but the verifiers in flows, pending entries and exchanges is masked. */
  function Masked(cfg: Config, s: State): State {
    s.(flows := map id | id in s.flows :: MaskFlow(cfg, s.flows[id]),
       pending := map id | id in s.pending :: MaskEntry(cfg, s.pending[id]),
       sent := seq(|s.sent|, i requires 0 <= i < |s.sent| => MaskSent(cfg, s.sent[i])))
  }

  /** Of what drives the gateway only the draw of a verifier holds one. */
  function MaskStep(cfg: Config, step: Step): Step {
    match step
    case Issue(id, provider, verifier) => Issue(id, provider, cfg.challenge(verifier))
    case Clock(_) => step
    case Stamp(_) => step
    case Insert(_) => step
    case Validate(_) => step
    case Take(_, _) => step
  }

  ghost predicate Alike(cfg: Config, s: State, t: State) {
    Masked(cfg, s) == Masked(cfg, t)
  }

  /** Alike: the same but for verifiers, and these under the same challenge. */
  lemma AlikeMeans(cfg: Config, s: State, t: State)
    requires Alike(cfg, s, t)
    ensures s.now == t.now && s.unstamped == t.unstamped && s.waiting == t.waiting && s.expiry == t.expiry
    ensures s.validated == t.validated && s.flows.Keys == t.flows.Keys && s.pending.Keys == t.pending.Keys
    ensures forall id :: id in s.flows ==> MaskFlow(cfg, s.flows[id]) == MaskFlow(cfg, t.flows[id])
    ensures forall id :: id in s.pending ==> MaskEntry(cfg, s.pending[id]) == MaskEntry(cfg, t.pending[id])
    ensures |s.sent| == |t.sent| && forall i :: 0 <= i < |s.sent| ==>
              MaskSent(cfg, s.sent[i]) == MaskSent(cfg, t.sent[i])
  {
    var (m, n) := (Masked(cfg, s), Masked(cfg, t));
    assert m.flows.Keys == s.flows.Keys && n.flows.Keys == t.flows.Keys;
    assert m.pending.Keys == s.pending.Keys && n.pending.Keys == t.pending.Keys;
    forall id | id in s.flows ensures MaskFlow(cfg, s.flows[id]) == MaskFlow(cfg, t.flows[id]) {
      assert m.flows[id] == n.flows[id];
    }
    forall id | id in s.pending ensures MaskEntry(cfg, s.pending[id]) == MaskEntry(cfg, t.pending[id]) {
      assert m.pending[id] == n.pending[id];
    }
    forall i | 0 <= i < |s.sent| ensures MaskSent(cfg, s.sent[i]) == MaskSent(cfg, t.sent[i]) {
      assert m.sent[i] == n.sent[i];
    }
  }

  lemma AlikeWhen(cfg: Config, s: State, t: State)
    requires s.now == t.now && s.unstamped == t.unstamped && s.waiting == t.waiting && s.expiry == t.expiry
    requires s.validated == t.validated && s.flows.Keys == t.flows.Keys && s.pending.Keys == t.pending.Keys
    requires forall id :: id in s.flows ==> MaskFlow(cfg, s.flows[id]) == MaskFlow(cfg, t.flows[id])
    requires forall id :: id in s.pending ==> MaskEntry(cfg, s.pending[id]) == MaskEntry(cfg, t.pending[id])
    requires |s.sent| == |t.sent| && forall i :: 0 <= i < |s.sent| ==>
               MaskSent(cfg, s.sent[i]) == MaskSent(cfg, t.sent[i])
    ensures Alike(cfg, s, t)
  {
  }

  /** A callback fares alike: the same error, or the same exchange but for the verifier. */
  lemma RedeemsAlike(cfg: Config, s: State, t: State, claims: Claims, code: string)
    requires Alike(cfg, s, t)
    ensures var (id, r, q) := (claims.stateId, Redeem(claims, Answer(s.pending, s.now, claims.stateId), code),
                               Redeem(claims, Answer(t.pending, t.now, claims.stateId), code));
            if r.Ok? then q.Ok? && MaskExchange(cfg, r.value) == MaskExchange(cfg, q.value) else q == r
  {
    AlikeMeans(cfg, s, t);
    hide Alike;
  }

  lemma EnabledAlike(cfg: Config, s: State, t: State, step: Step, other: Step)
    requires Alike(cfg, s, t) && MaskStep(cfg, step) == MaskStep(cfg, other) && Enabled(cfg, s, step)
    ensures Enabled(cfg, t, other)
  {
    AlikeMeans(cfg, s, t);
    hide Alike;
    if step.Validate? {
      var id := step.token.claims.stateId;
      if id in s.flows {
        assert MaskFlow(cfg, s.flows[id]).token == s.flows[id].token;
        assert MaskFlow(cfg, t.flows[id]).token == t.flows[id].token;
      }
    }
  }

  lemma InsertAlike(cfg: Config, s: State, t: State, id: string)
    requires Alike(cfg, s, t) && Enabled(cfg, s, Step.Insert(id)) && Enabled(cfg, t, Step.Insert(id))
    ensures Alike(cfg, Next(cfg, s, Step.Insert(id)), Next(cfg, t, Step.Insert(id)))
  {
    AlikeMeans(cfg, s, t);
    hide Alike;
    var (a, b) := (Next(cfg, s, Step.Insert(id)), Next(cfg, t, Step.Insert(id)));
    forall x | x in s.pending ensures s.pending[x].expiresAt == t.pending[x].expiresAt {
      assert MaskEntry(cfg, s.pending[x]) == MaskEntry(cfg, t.pending[x]);
    }
    assert MaskFlow(cfg, s.flows[id]) == MaskFlow(cfg, t.flows[id]);
    AlikeWhen(cfg, a, b);
  }

  lemma TakeAlike(cfg: Config, s: State, t: State, claims: Claims, code: string)
    requires Alike(cfg, s, t) && claims in s.validated && claims in t.validated
    ensures Alike(cfg, Next(cfg, s, Step.Take(claims, code)), Next(cfg, t, Step.Take(claims, code)))
  {
    AlikeMeans(cfg, s, t);
    RedeemsAlike(cfg, s, t, claims, code);
    hide Alike, Redeem, Answer;
    AlikeWhen(cfg, Next(cfg, s, Step.Take(claims, code)), Next(cfg, t, Step.Take(claims, code)));
  }

  lemma IssueAlike(cfg: Config, s: State, t: State, id: string, p: Provider, verifier: string, other: string)
    requires Alike(cfg, s, t) && cfg.challenge(verifier) == cfg.challenge(other)
    requires Enabled(cfg, s, Issue(id, p, verifier)) && Enabled(cfg, t, Issue(id, p, other))
    ensures Alike(cfg, Next(cfg, s, Issue(id, p, verifier)), Next(cfg, t, Issue(id, p, other)))
  {
    AlikeMeans(cfg, s, t);
    hide Alike, IssueState;
    AlikeWhen(cfg, Next(cfg, s, Issue(id, p, verifier)), Next(cfg, t, Issue(id, p, other)));
  }

  lemma ValidateAlike(cfg: Config, s: State, t: State, token: Token)
    requires Alike(cfg, s, t) && Enabled(cfg, s, Validate(token)) && Enabled(cfg, t, Validate(token))
    ensures Alike(cfg, Next(cfg, s, Validate(token)), Next(cfg, t, Validate(token)))
  {
    AlikeMeans(cfg, s, t);
    hide Alike, ValidateState, Unforged;
    AlikeWhen(cfg, Next(cfg, s, Validate(token)), Next(cfg, t, Validate(token)));
  }

  lemma QuietStepAlike(cfg: Config, s: State, t: State, step: Step)
    requires Alike(cfg, s, t) && (step.Clock? || step.Stamp?) && Enabled(cfg, s, step) && Enabled(cfg, t, step)
    ensures Alike(cfg, Next(cfg, s, step), Next(cfg, t, step))
  {
    AlikeMeans(cfg, s, t);
    hide Alike, MaskFlow, MaskEntry, MaskSent;
    AlikeWhen(cfg, Next(cfg, s, step), Next(cfg, t, step));
  }

  lemma StepAlike(cfg: Config, s: State, t: State, step: Step, other: Step)
    requires Alike(cfg, s, t) && MaskStep(cfg, step) == MaskStep(cfg, other)
    requires Enabled(cfg, s, step) && Enabled(cfg, t, other)
    ensures Alike(cfg, Next(cfg, s, step), Next(cfg, t, other))
  {
    AlikeMeans(cfg, s, t);
    hide Alike, Next;
    match step
    case Clock(_) => QuietStepAlike(cfg, s, t, step);
    case Issue(id, p, verifier) => IssueAlike(cfg, s, t, id, p, verifier, other.verifier);
    case Stamp(_) => QuietStepAlike(cfg, s, t, step);
    case Insert(id) => InsertAlike(cfg, s, t, id);
    case Validate(token) => ValidateAlike(cfg, s, t, token);
    case Take(claims, code) => TakeAlike(cfg, s, t, claims, code);
  }

  // ---- runs ----

  /** The same steps, but for verifiers of the same challenge. */
  ghost predicate SameSteps(cfg: Config, steps: seq<Step>, others: seq<Step>) {
    |steps| == |others| && forall i :: 0 <= i < |steps| ==> MaskStep(cfg, steps[i]) == MaskStep(cfg, others[i])
  }

  lemma {:induction false} RunsAlike(cfg: Config, s: State, t: State, steps: seq<Step>, others: seq<Step>, end: State)
    returns (end': State)
    requires Alike(cfg, s, t) && SameSteps(cfg, steps, others) && Leads(cfg, s, steps, end)
    ensures Leads(cfg, t, others, end') && Alike(cfg, end, end')
    decreases |steps|
  {
    hide Alike, Enabled, Next, MaskStep;
    if steps == [] {
      end' := t;
    } else {
      EnabledAlike(cfg, s, t, steps[0], others[0]);
      StepAlike(cfg, s, t, steps[0], others[0]);
      end' := RunsAlike(cfg, Next(cfg, s, steps[0]), Next(cfg, t, others[0]), steps[1..], others[1..], end);
    }
  }

  /** What an authorize answered, for a flow that has been stamped. */
  function AnsweredTo(cfg: Config, s: State, id: string): AuthorizeResponse
    requires id in s.flows && id in s.expiry
  {
    var f := s.flows[id];
    Authorized(cfg, f.provider, f.token, f.verifier, s.expiry[id])
  }

  /** Had other verifiers of the same challenges been drawn, every step could have gone the same way: every
      authorize would have answered the same, every callback failed alike or been sent on alike, and of the
      gateway's state and what it sent only the verifiers themselves would differ. */
  lemma VerifiersStayHere(cfg: Config, steps: seq<Step>, others: seq<Step>, s: State) returns (t: State)
    requires Leads(cfg, START, steps, s) && SameSteps(cfg, steps, others)
    ensures Leads(cfg, START, others, t) && Masked(cfg, s) == Masked(cfg, t)
    ensures forall id :: id in s.flows && id in s.expiry ==>
              id in t.flows && id in t.expiry && AnsweredTo(cfg, s, id) == AnsweredTo(cfg, t, id)
  {
    t := RunsAlike(cfg, START, START, steps, others, s);
    AlikeMeans(cfg, s, t);
    hide Leads, Alike;
    forall id | id in s.flows && id in s.expiry ensures AnsweredTo(cfg, s, id) == AnsweredTo(cfg, t, id) {
      assert MaskFlow(cfg, s.flows[id]) == MaskFlow(cfg, t.flows[id]);
      SameAnswer(cfg, s.flows[id], t.flows[id], s.expiry[id]);
    }
  }

  lemma SameAnswer(cfg: Config, f: Flow, g: Flow, expiry: nat)
    requires MaskFlow(cfg, f) == MaskFlow(cfg, g)
    ensures Authorized(cfg, f.provider, f.token, f.verifier, expiry)
            == Authorized(cfg, g.provider, g.token, g.verifier, expiry)
  {
    assert f.provider == g.provider && f.token == g.token && cfg.challenge(f.verifier) == cfg.challenge(g.verifier);
    hide Endpoint, Scopes;
  }
}
