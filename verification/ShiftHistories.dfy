/** The shift read: one decision's supersession history, with what moved it at each step. */
module ShiftHistories {
  import opened Basics
  import opened Permissions
  import opened Schema
  import opened Store
  import opened PermissionPass
  import opened Text

  type Held = map<Id, Claim>
  type Passed = map<Id, Option<DenyReason>>

  /** What the blind walk hands on: claims only, the CONTRADICTS links, and which ids form the chain. */
  datatype ShiftWalk = ShiftWalk(found: seq<Found>, links: seq<Edge>, inChain: set<Id>)

  datatype ClaimView =
    | Withheld(id: Id, reason: DenyReason)
    | Seen(id: Id, statement: string, status: Status, assertedAt: int, sources: seq<string>, isCommitment: bool)

  datatype Step = Step(
    superseding: ClaimView, superseded: ClaimView, elapsed: Option<int>, newCitations: seq<Citation>, withheld: bool)

  datatype Conflict = Conflict(claim: ClaimView, contradicts: ClaimView)

  datatype Target = Held(view: ClaimView) | Named(id: Id)

  datatype Reconciliation = Reconciliation(claim: ClaimView, into: Target)

  datatype ShiftHistory = ShiftHistory(
    claimId: Id, answered: bool, text: seq<Piece>, chain: seq<ClaimView>, steps: seq<Step>,
    conflicts: seq<Conflict>, reconciliations: seq<Reconciliation>, denied: seq<(Id, DenyReason)>, considered: nat)

  function ClaimsIn(found: seq<Found>): Held {
    var nodes := ById(found);
    map id | id in nodes && nodes[id].ClaimNode? :: nodes[id].claim
  }

  function ViewOf(c: Claim, denied: Option<DenyReason>): ClaimView {
    match denied
    case Some(reason) => Withheld(c.id, reason)
    case None => Seen(c.id, c.statement, c.status, c.assertedAt, c.acl.sources, c.commitment.Some?)
  }

  // ---- steps ----

  function Cited(citations: seq<Citation>): set<Id> {
    set c | c in citations :: c.eventId
  }

  /** The citations of an event not already known. */
  function NewOnes(citations: seq<Citation>, known: set<Id>): seq<Citation> {
    if citations == [] then []
    else
      var (before, last) := (NewOnes(citations[..|citations| - 1], known), citations[|citations| - 1]);
      if last.eventId in known then before else before + [last]
  }

  function StepOf(later: Claim, earlier: Claim, verdicts: Passed): Step {
    var (a, b) := (Reason(verdicts, later.id), Reason(verdicts, earlier.id));
    var visible := a.None? && b.None?;
    Step(ViewOf(later, a), ViewOf(earlier, b),
         if visible then Some(later.assertedAt - earlier.assertedAt) else None,
         if visible then NewOnes(later.citations, Cited(earlier.citations)) else [],
         !visible)
  }

  /** ORDER BY asserted_at_ms, id. */
  function AssertedRank(claims: Held): Id -> Rank {
    id => if id in claims then Rank(claims[id].assertedAt, 0) else Rank(0, 1)
  }

  function InOrder(claims: Held): (r: seq<Id>)
    ensures forall i :: 0 <= i < |r| ==> r[i] in claims
  {
    var r := Arrange(AssertedRank(claims), claims.Keys);
    assert forall i :: 0 <= i < |r| ==> r[i] in Elements(r);
    r
  }

  /** The steps of one claim: those of `targets` that were walked. */
  function StepsTo(claims: Held, verdicts: Passed, later: Claim, targets: seq<Id>): seq<Step> {
    if targets == [] then []
    else
      var (before, last) := (StepsTo(claims, verdicts, later, targets[..|targets| - 1]), targets[|targets| - 1]);
      if last in claims then before + [StepOf(later, claims[last], verdicts)] else before
  }

  function StepsOver(claims: Held, verdicts: Passed, order: seq<Id>): seq<Step>
    requires forall i :: 0 <= i < |order| ==> order[i] in claims
  {
    if order == [] then []
    else
      var (init, last) := (order[..|order| - 1], claims[order[|order| - 1]]);
      StepsOver(claims, verdicts, init) + StepsTo(claims, verdicts, last, last.supersedes)
  }

  function StepsOf(claims: Held, verdicts: Passed): seq<Step> {
    StepsOver(claims, verdicts, InOrder(claims))
  }

  lemma StepsToSnoc(claims: Held, verdicts: Passed, later: Claim, targets: seq<Id>, k: nat)
    requires k < |targets|
    ensures StepsTo(claims, verdicts, later, targets[..k + 1])
         == StepsTo(claims, verdicts, later, targets[..k])
            + if targets[k] in claims then [StepOf(later, claims[targets[k]], verdicts)] else []
  {
    hide StepOf;
    assert targets[..k + 1][..k] == targets[..k];
  }

  method AddSteps(claims: Held, verdicts: Passed, claim: Claim, steps: seq<Step>) returns (more: seq<Step>)
    ensures more == steps + StepsTo(claims, verdicts, claim, claim.supersedes)
  {
    hide StepOf;
    more := steps;
    for k := 0 to |claim.supersedes|
      invariant more == steps + StepsTo(claims, verdicts, claim, claim.supersedes[..k])
    {
      StepsToSnoc(claims, verdicts, claim, claim.supersedes, k);
      if claim.supersedes[k] in claims {
        more := more + [StepOf(claim, claims[claim.supersedes[k]], verdicts)];
      }
    }
    assert claim.supersedes[..|claim.supersedes|] == claim.supersedes;
  }

  method BuildSteps(claims: Held, verdicts: Passed) returns (steps: seq<Step>)
    ensures steps == StepsOf(claims, verdicts)
  {
    hide StepOf, StepsTo, InOrder;
    var order := InOrder(claims);
    steps := [];
    for i := 0 to |order|
      invariant steps == StepsOver(claims, verdicts, order[..i])
    {
      steps := AddSteps(claims, verdicts, claims[order[i]], steps);
      assert order[..i + 1][..i] == order[..i];
    }
    assert order[..|order|] == order;
  }

  // ---- chain, conflicts, reconciliations ----

  function ChainOf(claims: Held, verdicts: Passed, order: seq<Id>, inChain: set<Id>): seq<ClaimView>
    requires forall i :: 0 <= i < |order| ==> order[i] in claims
  {
    if order == [] then []
    else
      var (before, last) := (ChainOf(claims, verdicts, order[..|order| - 1], inChain), order[|order| - 1]);
      if last in inChain then before + [ViewOf(claims[last], Reason(verdicts, last))] else before
  }

  function ConflictsOf(claims: Held, verdicts: Passed, links: seq<Edge>): seq<Conflict> {
    if links == [] then []
    else
      var (before, e) := (ConflictsOf(claims, verdicts, links[..|links| - 1]), links[|links| - 1]);
      if e.from in claims && e.to in claims then
        before + [Conflict(ViewOf(claims[e.from], Reason(verdicts, e.from)),
                           ViewOf(claims[e.to], Reason(verdicts, e.to)))]
      else before
  }

  /** An empty id is as good as none. */
  predicate Reconciles(c: Claim) {
    c.reconciledInto.Some? && c.reconciledInto.value != ""
  }

  function TargetOf(claims: Held, verdicts: Passed, id: Id): Target {
    if id in claims then Target.Held(ViewOf(claims[id], Reason(verdicts, id))) else Named(id)
  }

  function ReconciliationsOf(claims: Held, verdicts: Passed, order: seq<Id>, inChain: set<Id>): seq<Reconciliation>
    requires forall i :: 0 <= i < |order| ==> order[i] in claims
  {
    if order == [] then []
    else
      var (before, last) := (ReconciliationsOf(claims, verdicts, order[..|order| - 1], inChain), order[|order| - 1]);
      if last in inChain && Reconciles(claims[last]) then
        before + [Reconciliation(ViewOf(claims[last], Reason(verdicts, last)),
                                 TargetOf(claims, verdicts, claims[last].reconciledInto.value))]
      else before
  }

  // ---- text ----

  function Short(v: ClaimView): string {
    if v.Withheld? then "[withheld " + v.id + "]" else "\"" + v.statement + "\" (" + v.id + ")"
  }

  function EvidenceNames(citations: seq<Citation>): seq<string> {
    seq(|citations|, i requires 0 <= i < |citations| =>
        citations[i].source.connector + "/" + citations[i].source.externalId)
  }

  function StepLine(n: nat, step: Step): seq<Piece> {
    var (before, after) := (Short(step.superseded), Short(step.superseding));
    if step.withheld || step.elapsed.None? then
      [Num(n), Lit(". " + after + " superseded " + before + " -- details withheld (out of scope).")]
    else
      var evidence := Join(EvidenceNames(step.newCitations), ", ");
      [Num(n), Lit(". after "), Days(step.elapsed.value), Lit("d, " + after + " superseded " + before
        + if evidence != "" then " -- new evidence: " + evidence + "." else " -- no new citations.")]
  }

  function ConflictLine(c: Conflict): seq<Piece> {
    [Lit("! " + Short(c.claim) + " still contradicts " + Short(c.contradicts) + ".")]
  }

  function StepLines(steps: seq<Step>): seq<seq<Piece>> {
    seq(|steps|, i requires 0 <= i < |steps| => StepLine(i + 1, steps[i]))
  }

  function ConflictLines(conflicts: seq<Conflict>): seq<seq<Piece>> {
    seq(|conflicts|, i requires 0 <= i < |conflicts| => ConflictLine(conflicts[i]))
  }

  function TextOf(id: Id, steps: seq<Step>, conflicts: seq<Conflict>): seq<Piece> {
    if steps == [] && conflicts == [] then [Lit(id + " has not been superseded or contradicted.")]
    else
      Lined([[Lit(id + ": "), Num(|steps|), Lit(" supersession(s), "), Num(|conflicts|), Lit(" open conflict(s).")]]
            + StepLines(steps) + ConflictLines(conflicts))
  }

  method BuildText(id: Id, steps: seq<Step>, conflicts: seq<Conflict>) returns (text: seq<Piece>)
    ensures text == TextOf(id, steps, conflicts)
  {
    hide StepLine, ConflictLine, Lined;
    if steps == [] && conflicts == [] {
      return [Lit(id + " has not been superseded or contradicted.")];
    }
    var lines := [[Lit(id + ": "), Num(|steps|), Lit(" supersession(s), "), Num(|conflicts|),
                   Lit(" open conflict(s).")]];
    ghost var head := lines;
    for n := 0 to |steps|
      invariant lines == head + StepLines(steps[..n])
    {
      lines := lines + [StepLine(n + 1, steps[n])];
    }
    assert steps[..|steps|] == steps;
    for n := 0 to |conflicts|
      invariant lines == head + StepLines(steps) + ConflictLines(conflicts[..n])
    {
      lines := lines + [ConflictLine(conflicts[n])];
    }
    assert conflicts[..|conflicts|] == conflicts;
    text := Lined(lines);
  }

  // ---- assembly ----

  function Assemble(id: Id, walk: ShiftWalk, verdicts: Passed, denials: seq<(Id, DenyReason)>): ShiftHistory {
    var claims := ClaimsIn(walk.found);
    if claims == map[] then
      ShiftHistory(id, false, [Lit("No claim "), Quoted(id), Lit(" is present in this memory.")], [], [], [], [], [], 0)
    else if forall c | c in claims :: Reason(verdicts, c).Some? then
      ShiftHistory(id, false, Declining(|claims|, " claim(s) make up this decision's history", Reasons(denials)),
                   [], [], [], [], denials, |claims|)
    else
      var (steps, conflicts) := (StepsOf(claims, verdicts), ConflictsOf(claims, verdicts, walk.links));
      ShiftHistory(id, true, TextOf(id, steps, conflicts), ChainOf(claims, verdicts, InOrder(claims), walk.inChain),
                   steps, conflicts, ReconciliationsOf(claims, verdicts, InOrder(claims), walk.inChain), denials,
                       |claims|)
  }

  /** Walk, pass, assembly. */
  function Read(id: Id, walk: ShiftWalk, scope: Scope, now: int): ShiftHistory {
    Assemble(id, walk, Verdicts(scope, walk.found, now), Denials(scope, walk.found, now))
  }

  // ---- noninterference ----

  /** Every claim is held under its own id. */
  ghost predicate Keyed(claims: Held) {
    forall id :: id in claims ==> claims[id].id == id
  }

  /** The same claims in the same order of assertion, superseding and reconciled into the same ones. */
  ghost predicate SameOutline(a: Held, b: Held) {
    && a.Keys == b.Keys
    && (forall id :: id in a ==> a[id].supersedes == b[id].supersedes && a[id].reconciledInto == b[id].reconciledInto)
    && (forall x, y :: x in a && y in a ==> (Before(AssertedRank(a), x, y) <==> Before(AssertedRank(b), x, y)))
  }

  /** Of the claims it is denied, a reader sees the outline only. */
  ghost predicate ShowAlike(a: Held, b: Held, verdicts: Passed) {
    && SameOutline(a, b)
    && (forall id :: id in a && Reason(verdicts, id) == None ==> a[id] == b[id])
  }

  lemma SameView(a: Held, b: Held, verdicts: Passed, id: Id)
    requires ShowAlike(a, b, verdicts) && Keyed(a) && Keyed(b) && id in a
    ensures ViewOf(a[id], Reason(verdicts, id)) == ViewOf(b[id], Reason(verdicts, id))
  {
    hide AssertedRank;
  }

  lemma SameStep(a: Held, b: Held, verdicts: Passed, x: Id, y: Id)
    requires ShowAlike(a, b, verdicts) && Keyed(a) && Keyed(b) && x in a && y in a
    ensures StepOf(a[x], a[y], verdicts) == StepOf(b[x], b[y], verdicts)
  {
    SameView(a, b, verdicts, x);
    SameView(a, b, verdicts, y);
    hide AssertedRank, ViewOf;
  }

  lemma {:induction false} SameStepsTo(a: Held, b: Held, verdicts: Passed, x: Id, targets: seq<Id>)
    requires ShowAlike(a, b, verdicts) && Keyed(a) && Keyed(b) && x in a
    ensures StepsTo(a, verdicts, a[x], targets) == StepsTo(b, verdicts, b[x], targets)
  {
    if targets != [] {
      SameStepsTo(a, b, verdicts, x, targets[..|targets| - 1]);
      var y := targets[|targets| - 1];
      if y in a {
        SameStep(a, b, verdicts, x, y);
      }
      assert y in a <==> y in b;
      hide AssertedRank, StepOf;
    }
  }

  lemma {:induction false} SameStepsOver(a: Held, b: Held, verdicts: Passed, order: seq<Id>)
    requires ShowAlike(a, b, verdicts) && Keyed(a) && Keyed(b)
    requires forall i :: 0 <= i < |order| ==> order[i] in a
    ensures StepsOver(a, verdicts, order) == StepsOver(b, verdicts, order)
  {
    hide AssertedRank, StepsTo;
    if order != [] {
      var x := order[|order| - 1];
      SameStepsOver(a, b, verdicts, order[..|order| - 1]);
      SameStepsTo(a, b, verdicts, x, a[x].supersedes);
    }
  }

  lemma {:induction false} SameChain(a: Held, b: Held, verdicts: Passed, order: seq<Id>, inChain: set<Id>)
    requires ShowAlike(a, b, verdicts) && Keyed(a) && Keyed(b)
    requires forall i :: 0 <= i < |order| ==> order[i] in a
    ensures ChainOf(a, verdicts, order, inChain) == ChainOf(b, verdicts, order, inChain)
    ensures ReconciliationsOf(a, verdicts, order, inChain) == ReconciliationsOf(b, verdicts, order, inChain)
  {
    if order != [] {
      var x := order[|order| - 1];
      SameChain(a, b, verdicts, order[..|order| - 1], inChain);
      SameView(a, b, verdicts, x);
      if Reconciles(a[x]) && a[x].reconciledInto.value in a {
        SameView(a, b, verdicts, a[x].reconciledInto.value);
      }
      hide AssertedRank, ViewOf;
    }
  }

  lemma {:induction false} SameConflicts(a: Held, b: Held, verdicts: Passed, links: seq<Edge>)
    requires ShowAlike(a, b, verdicts) && Keyed(a) && Keyed(b)
    ensures ConflictsOf(a, verdicts, links) == ConflictsOf(b, verdicts, links)
  {
    if links != [] {
      var e := links[|links| - 1];
      SameConflicts(a, b, verdicts, links[..|links| - 1]);
      if e.from in a && e.to in a {
        SameView(a, b, verdicts, e.from);
        SameView(a, b, verdicts, e.to);
      }
      assert (e.from in a <==> e.from in b) && (e.to in a <==> e.to in b);
      hide AssertedRank, ViewOf;
    }
  }

  lemma ClaimsPaired(a: seq<Found>, b: seq<Found>, scope: Scope, now: int)
    requires SamePermitted(a, b, scope, now) && DistinctIds(a)
    requires (forall f :: f in a ==> f.node.ClaimNode? && f.node.claim.id == f.id)
    requires (forall f :: f in b ==> f.node.ClaimNode? && f.node.claim.id == f.id)
    ensures ClaimsIn(a).Keys == ClaimsIn(b).Keys && Keyed(ClaimsIn(a)) && Keyed(ClaimsIn(b))
    ensures forall id :: id in ClaimsIn(a) && Reason(Verdicts(scope, a, now), id) == None ==>
              ClaimsIn(a)[id] == ClaimsIn(b)[id]
  {
    SamePass(a, b, scope, now);
    hide SamePermitted, Reason;
    AllClaims(scope, a, now);
    AllClaims(scope, b, now);
    forall id | id in ClaimsIn(a) && Reason(Verdicts(scope, a, now), id) == None
      ensures ClaimsIn(a)[id] == ClaimsIn(b)[id] {
      SamePayload(a, b, scope, now, id);
    }
  }

  lemma AllClaims(scope: Scope, found: seq<Found>, now: int)
    requires DistinctIds(found) && (forall f :: f in found ==> f.node.ClaimNode? && f.node.claim.id == f.id)
    ensures ClaimsIn(found).Keys == ById(found).Keys && Keyed(ClaimsIn(found))
  {
    forall id | id in ById(found) ensures Found(id, ById(found)[id]) in found {
      PassMeans(scope, found, now, id);
    }
  }

  /** With the verdicts fixed, the shift read shows nothing of a denied claim but its id, the reason, its
      place in the order of assertion, and the ids it supersedes or was reconciled into. */
  lemma Noninterference(id: Id, a: ShiftWalk, b: ShiftWalk, scope: Scope, now: int)
    requires DistinctIds(a.found) && SamePermitted(a.found, b.found, scope, now)
    requires (forall f :: f in a.found ==> f.node.ClaimNode? && f.node.claim.id == f.id)
    requires (forall f :: f in b.found ==> f.node.ClaimNode? && f.node.claim.id == f.id)
    requires a.links == b.links && a.inChain == b.inChain
    requires SameOutline(ClaimsIn(a.found), ClaimsIn(b.found))
    ensures Read(id, a, scope, now) == Read(id, b, scope, now)
  {
    hide ClaimsIn, SamePermitted, DistinctIds, Reason, AssertedRank, Verdicts, Denials;
    var (x, y, verdicts) := (ClaimsIn(a.found), ClaimsIn(b.found), Verdicts(scope, a.found, now));
    ClaimsPaired(a.found, b.found, scope, now);
    SamePass(a.found, b.found, scope, now);
    assert ShowAlike(x, y, verdicts);
    hide ShowAlike, Assemble;
    SameAssembly(id, a, b, verdicts, Denials(scope, a.found, now));
  }

  lemma SameOrder(a: Held, b: Held, verdicts: Passed)
    requires ShowAlike(a, b, verdicts)
    ensures InOrder(a) == InOrder(b)
  {
    ArrangeCongruent(AssertedRank(a), AssertedRank(b), a.Keys);
  }

  lemma SameAssembly(id: Id, a: ShiftWalk, b: ShiftWalk, verdicts: Passed, denials: seq<(Id, DenyReason)>)
    requires var (x, y) := (ClaimsIn(a.found), ClaimsIn(b.found)); ShowAlike(x, y, verdicts) && Keyed(x) && Keyed(y)
    requires a.links == b.links && a.inChain == b.inChain
    ensures Assemble(id, a, verdicts, denials) == Assemble(id, b, verdicts, denials)
  {
    var (x, y) := (ClaimsIn(a.found), ClaimsIn(b.found));
    hide ClaimsIn, AssertedRank, StepsOver, ChainOf, ReconciliationsOf, ConflictsOf, InOrder, Keyed;
    SameOrder(x, y, verdicts);
    SameStepsOver(x, y, verdicts, InOrder(x));
    SameChain(x, y, verdicts, InOrder(x), a.inChain);
    SameConflicts(x, y, verdicts, a.links);
    assert x.Keys == y.Keys;
    hide ShowAlike, StepsOf;
    SameUse(id, a, b, verdicts, denials);
  }

  /** The assembly uses the claims in no other way. */
  lemma SameUse(id: Id, a: ShiftWalk, b: ShiftWalk, verdicts: Passed, denials: seq<(Id, DenyReason)>)
    requires var (x, y) := (ClaimsIn(a.found), ClaimsIn(b.found));
             && x.Keys == y.Keys
             && StepsOver(x, verdicts, InOrder(x)) == StepsOver(y, verdicts, InOrder(y))
             && ConflictsOf(x, verdicts, a.links) == ConflictsOf(y, verdicts, b.links)
             && ChainOf(x, verdicts, InOrder(x), a.inChain) == ChainOf(y, verdicts, InOrder(y), b.inChain)
             && ReconciliationsOf(x, verdicts, InOrder(x), a.inChain)
                == ReconciliationsOf(y, verdicts, InOrder(y), b.inChain)
    ensures Assemble(id, a, verdicts, denials) == Assemble(id, b, verdicts, denials)
  {
    var (x, y) := (ClaimsIn(a.found), ClaimsIn(b.found));
    hide ClaimsIn, InOrder, StepsOver, ChainOf, ReconciliationsOf, ConflictsOf, TextOf, Declining, Reasons, Reason;
    assert |x| == |x.Keys| && |y| == |y.Keys|;
    assert (x == map[] <==> x.Keys == {}) && (y == map[] <==> y.Keys == {});
  }

  /** The chain lists its claims by time of assertion, then id: all of them, and no others. */
  lemma {:induction false} ChainAscends(claims: Held, verdicts: Passed, order: seq<Id>, inChain: set<Id>)
    requires Keyed(claims) && Ascending(AssertedRank(claims), order)
    requires forall i :: 0 <= i < |order| ==> order[i] in claims
    ensures var chain := ChainOf(claims, verdicts, order, inChain);
            && (forall v :: v in chain ==> v.id in order && v.id in inChain)
            && (forall id :: id in order && id in inChain ==> exists i :: 0 <= i < |chain| && chain[i].id == id)
            && (forall i, j :: 0 <= i < j < |chain| ==> Before(AssertedRank(claims), chain[i].id, chain[j].id))
  {
    if order != [] {
      var (init, last) := (order[..|order| - 1], order[|order| - 1]);
      assert order == init + [last];
      ViewKeepsId(claims[last], Reason(verdicts, last));
      hide AssertedRank, Before, ViewOf, Reason;
      ChainAscends(claims, verdicts, init, inChain);
      var (before, chain) := (ChainOf(claims, verdicts, init, inChain), ChainOf(claims, verdicts, order, inChain));
      forall id | id in order && id in inChain ensures exists i :: 0 <= i < |chain| && chain[i].id == id {
        if id == last {
          assert chain[|before|].id == id;
        } else {
          var i :| 0 <= i < |before| && before[i].id == id;
          assert chain[i].id == id;
        }
      }
      forall i, j | 0 <= i < j < |chain| ensures Before(AssertedRank(claims), chain[i].id, chain[j].id) {
        if j == |before| {
          assert before[i] in before;
          var k :| 0 <= k < |init| && init[k] == before[i].id;
          assert Before(AssertedRank(claims), order[k], order[|order| - 1]);
        }
      }
    }
  }

  lemma ViewKeepsId(c: Claim, denied: Option<DenyReason>)
    ensures ViewOf(c, denied).id == c.id
  {
  }

  /** The relative order of two chain members does show, withheld or not: two reads with the same chain
      agree on it, so the order that noninterference keeps fixed could not be left open. */
  lemma ChainOrderShows(a: Held, b: Held, verdicts: Passed, inChain: set<Id>, x: Id, y: Id)
    requires Keyed(a) && Keyed(b) && x in a && y in a && x in b && y in b && x in inChain && y in inChain
    requires ChainOf(a, verdicts, InOrder(a), inChain) == ChainOf(b, verdicts, InOrder(b), inChain)
    ensures Before(AssertedRank(a), x, y) <==> Before(AssertedRank(b), x, y)
  {
    hide InOrder, ChainOf, AssertedRank, Before;
    var chain := ChainOf(a, verdicts, InOrder(a), inChain);
    InOrderMeans(a);
    InOrderMeans(b);
    ChainAscends(a, verdicts, InOrder(a), inChain);
    ChainAscends(b, verdicts, InOrder(b), inChain);
    var i :| 0 <= i < |chain| && chain[i].id == x;
    var j :| 0 <= j < |chain| && chain[j].id == y;
    BeforeTotal(AssertedRank(a), x, y);
    BeforeTotal(AssertedRank(b), x, y);
    NotBeforeItself(AssertedRank(a), x);
    NotBeforeItself(AssertedRank(b), x);
  }

  lemma NotBeforeItself(rank: Id -> Rank, x: Id)
    ensures !Before(rank, x, x)
  {
    StrTotal(x, x);
  }

  lemma InOrderMeans(claims: Held)
    ensures Ascending(AssertedRank(claims), InOrder(claims)) && forall id :: id in InOrder(claims) <==> id in claims
  {
    assert forall id :: id in InOrder(claims) <==> id in Elements(InOrder(claims));
  }

  // ---- what a step is ----

  /** A step is the passage from a walked claim to one it supersedes. */
  ghost predicate IsStep(claims: Held, verdicts: Passed, s: Step) {
    exists x, y :: x in claims && y in claims && y in claims[x].supersedes
        && s == StepOf(claims[x], claims[y], verdicts)
  }

  lemma {:induction false} StepsToMean(claims: Held, verdicts: Passed, later: Claim, targets: seq<Id>)
    ensures forall s :: s in StepsTo(claims, verdicts, later, targets) <==>
              exists y :: y in targets && y in claims && s == StepOf(later, claims[y], verdicts)
  {
    if targets != [] {
      hide StepOf;
      var (init, last) := (targets[..|targets| - 1], targets[|targets| - 1]);
      StepsToMean(claims, verdicts, later, init);
      assert targets == init + [last];
    }
  }

  lemma {:induction false} StepsOverMean(claims: Held, verdicts: Passed, order: seq<Id>)
    requires forall i :: 0 <= i < |order| ==> order[i] in claims
    ensures forall s :: s in StepsOver(claims, verdicts, order) <==>
              exists x, y :: x in order && y in claims && y in claims[x].supersedes
                  && s == StepOf(claims[x], claims[y], verdicts)
  {
    if order != [] {
      hide StepOf, StepsTo;
      var (init, last) := (order[..|order| - 1], order[|order| - 1]);
      StepsOverMean(claims, verdicts, init);
      StepsToMean(claims, verdicts, claims[last], claims[last].supersedes);
      assert order == init + [last];
    }
  }

  /** There is a step for every supersession between walked claims, and no other. */
  lemma StepsMean(claims: Held, verdicts: Passed, s: Step)
    ensures s in StepsOf(claims, verdicts) <==> IsStep(claims, verdicts, s)
  {
    hide StepOf, StepsOver;
    InOrderMeans(claims);
    StepsOverMean(claims, verdicts, InOrder(claims));
  }

  /** A conflict is told for every link between walked claims, and for no other. */
  lemma {:induction false} ConflictsMean(claims: Held, verdicts: Passed, links: seq<Edge>)
    ensures forall c :: c in ConflictsOf(claims, verdicts, links) <==>
              exists e :: e in links && e.from in claims && e.to in claims
                          && c == Conflict(ViewOf(claims[e.from], Reason(verdicts, e.from)),
                                           ViewOf(claims[e.to], Reason(verdicts, e.to)))
  {
    hide ViewOf, Reason;
    if links != [] {
      var (init, last) := (links[..|links| - 1], links[|links| - 1]);
      ConflictsMean(claims, verdicts, init);
      assert links == init + [last];
    }
  }

  /** A reconciliation is told for every claim of the chain that names one, the target by its id alone if
      it was not walked. */
  lemma {:induction false} ReconciliationsMean(claims: Held, verdicts: Passed, order: seq<Id>, inChain: set<Id>)
    requires forall i :: 0 <= i < |order| ==> order[i] in claims
    ensures forall r :: r in ReconciliationsOf(claims, verdicts, order, inChain) <==>
              exists id :: id in order && id in inChain && Reconciles(claims[id])
                           && r == Reconciliation(ViewOf(claims[id], Reason(verdicts, id)),
                                                  TargetOf(claims, verdicts, claims[id].reconciledInto.value))
  {
    hide ViewOf, Reason, TargetOf;
    if order != [] {
      var (init, last) := (order[..|order| - 1], order[|order| - 1]);
      ReconciliationsMean(claims, verdicts, init, inChain);
      assert order == init + [last];
    }
  }

  lemma {:induction false} StepsToFrom(claims: Held, verdicts: Passed, later: Claim, targets: seq<Id>)
    ensures forall i :: 0 <= i < |StepsTo(claims, verdicts, later, targets)| ==>
              StepsTo(claims, verdicts, later, targets)[i].superseding.id == later.id
  {
    if targets != [] {
      StepsToFrom(claims, verdicts, later, targets[..|targets| - 1]);
      ViewKeepsId(later, Reason(verdicts, later.id));
    }
  }

  ghost predicate OldestFirst(claims: Held, steps: seq<Step>) {
    forall i, j :: 0 <= i < j < |steps| ==> NoLater(claims, steps[i], steps[j])
  }

  ghost predicate NoLater(claims: Held, x: Step, y: Step) {
    x.superseding.id == y.superseding.id || Before(AssertedRank(claims), x.superseding.id, y.superseding.id)
  }

  lemma {:induction false} StepsOverOldestFirst(claims: Held, verdicts: Passed, order: seq<Id>)
    requires Keyed(claims) && Ascending(AssertedRank(claims), order)
    requires forall i :: 0 <= i < |order| ==> order[i] in claims
    ensures var steps := StepsOver(claims, verdicts, order);
            && (forall s :: s in steps ==> s.superseding.id in order)
            && OldestFirst(claims, steps)
  {
    if order != [] {
      hide AssertedRank, Before, StepsTo;
      var (init, last) := (order[..|order| - 1], order[|order| - 1]);
      assert order == init + [last];
      StepsOverOldestFirst(claims, verdicts, init);
      StepsToFrom(claims, verdicts, claims[last], claims[last].supersedes);
      var before := StepsOver(claims, verdicts, init);
      var own := StepsTo(claims, verdicts, claims[last], claims[last].supersedes);
      forall id | id in init ensures Before(AssertedRank(claims), id, last) {
        var k :| 0 <= k < |init| && init[k] == id;
        assert Before(AssertedRank(claims), order[k], order[|order| - 1]);
      }
      var steps := before + own;
      assert steps == StepsOver(claims, verdicts, order);
      forall i | 0 <= i < |steps|
        ensures if i < |before| then steps[i].superseding.id in init else steps[i].superseding.id == last
      {
        if i >= |before| {
          assert steps[i] == own[i - |before|];
        } else {
          assert steps[i] == before[i] && before[i] in before;
        }
      }
      hide StepsOver, Keyed;
      forall i, j | 0 <= i < j < |steps| ensures NoLater(claims, steps[i], steps[j]) {
        if j < |before| {
          assert NoLater(claims, before[i], before[j]);
        }
      }
    }
  }

  /** Steps come in the order in which their superseding claims were asserted. */
  lemma StepsOldestFirst(claims: Held, verdicts: Passed)
    requires Keyed(claims)
    ensures OldestFirst(claims, StepsOf(claims, verdicts))
  {
    InOrderMeans(claims);
    StepsOverOldestFirst(claims, verdicts, InOrder(claims));
  }

  lemma {:induction false} NewOnesMean(citations: seq<Citation>, known: set<Id>)
    ensures forall c :: c in NewOnes(citations, known) <==> c in citations && c.eventId !in known
  {
    if citations != [] {
      NewOnesMean(citations[..|citations| - 1], known);
      assert citations == citations[..|citations| - 1] + [citations[|citations| - 1]];
    }
  }

  /** A step tells its interval and its new citations exactly when both its claims are visible; the new
      citations are those of events the earlier claim does not cite. */
  lemma StepTells(later: Claim, earlier: Claim, verdicts: Passed)
    ensures var s := StepOf(later, earlier, verdicts);
            && (s.withheld <==> s.superseding.Withheld? || s.superseded.Withheld?)
            && (s.withheld ==> s.elapsed == None && s.newCitations == [])
            && (!s.withheld ==> s.elapsed == Some(s.superseding.assertedAt - s.superseded.assertedAt))
            && (!s.withheld ==> forall c :: c in s.newCitations <==>
                c in later.citations && forall d :: d in earlier.citations ==> d.eventId != c.eventId)
  {
    NewOnesMean(later.citations, Cited(earlier.citations));
    hide NewOnes;
  }
}
