/** The shift read over stores that histories of runs lead to. */
module ShiftReads {
  import opened Basics
  import opened Permissions
  import opened Schema
  import opened Store
  import opened Ledger
  import opened Runs
  import opened Beliefs
  import opened Walks
  import opened GraphReads
  import opened PermissionPass
  import opened EdgeLists
  import opened Text
  import Shift = ShiftHistories

  // ---- what the walk finds ----

  predicate IsOwnClaim(db: DB, owner: string, id: Id) {
    HasClaim(db, id) && OwnedBy(db, owner, id)
  }

  /** `conflict_links`: the owner's CONTRADICTS edges that touch the chain. */
  ghost predicate IsLink(db: DB, owner: string, chain: set<Id>, e: Edge) {
    && e in db.edges && e.rel == Rel.Contradicts && IsOwnClaim(db, owner, e.from) && IsOwnClaim(db, owner, e.to)
    && (e.from in chain || e.to in chain)
  }

  /** The chain, what its claims were reconciled into, and the ends of the links. */
  ghost predicate IsWalked(db: DB, owner: string, chain: set<Id>, id: Id) {
    && IsOwnClaim(db, owner, id)
    && (|| id in chain
        || (exists c :: c in chain && HasClaim(db, c) && Shift.Reconciles(db.nodes[c].payload.claim)
                        && db.nodes[c].payload.claim.reconciledInto == Some(id))
        || (exists e :: IsLink(db, owner, chain, e) && (e.from == id || e.to == id)))
  }

  ghost predicate IsShiftWalk(db: DB, owner: string, seed: Id, walk: Shift.ShiftWalk) {
    && walk.inChain == ChainIds(db, owner, seed, MAX_HOPS)
    && EdgesOrdered(walk.links)
    && (forall e :: e in walk.links <==> IsLink(db, owner, walk.inChain, e))
    && DistinctIds(walk.found)
    && (forall f :: f in walk.found <==> IsWalked(db, owner, walk.inChain, f.id) && f.node == db.nodes[f.id].payload)
  }

  /** The store can make the walk, from any id. */
  lemma ShiftWalkExists(db: DB, owner: string, seed: Id) returns (walk: Shift.ShiftWalk)
    ensures IsShiftWalk(db, owner, seed, walk)
  {
    var inChain := ChainIds(db, owner, seed, MAX_HOPS);
    var ids := set id | id in db.nodes && IsWalked(db, owner, inChain, id);
    hide ChainIds, IsWalked, IsLink, EdgesOrdered, DistinctIds;
    var found := FoundIn(db, ids);
    var links := SortedEdges(set e | e in db.edges && IsLink(db, owner, inChain, e));
    forall e ensures e in links <==> IsLink(db, owner, inChain, e) {
      assert e in links <==> e in Elements(links);
      LinkIsStored(db, owner, inChain, e);
    }
    forall id ensures IsWalked(db, owner, inChain, id) ==> id in db.nodes {
      WalkedIsStored(db, owner, inChain, id);
    }
    walk := Shift.ShiftWalk(found, links, inChain);
  }

  lemma LinkIsStored(db: DB, owner: string, chain: set<Id>, e: Edge)
    ensures IsLink(db, owner, chain, e) ==> e in db.edges
  {
  }

  lemma WalkedIsStored(db: DB, owner: string, chain: set<Id>, id: Id)
    ensures IsWalked(db, owner, chain, id) ==> id in db.nodes
  {
  }

  lemma WalkedClaims(db: DB, owner: string, seed: Id, walk: Shift.ShiftWalk, scope: Scope, now: int, id: Id)
    requires IsShiftWalk(db, owner, seed, walk)
    ensures var (claims, verdicts) := (Shift.ClaimsIn(walk.found), Verdicts(scope, walk.found, now));
            && (id in claims <==> id in verdicts) && (id in claims <==> IsWalked(db, owner, walk.inChain, id))
            && (id in claims ==>
                && claims[id] == db.nodes[id].payload.claim
                && verdicts[id] == Verdict(scope, db.nodes[id].payload, now))
  {
    hide IsWalked, ChainIds, IsLink, Verdict;
    PassKeys(scope, walk.found, now);
    if id in ById(walk.found) {
      PassMeans(scope, walk.found, now, id);
      WalkedIsClaim(db, owner, walk.inChain, id);
    }
    if IsWalked(db, owner, walk.inChain, id) {
      WalkedIsClaim(db, owner, walk.inChain, id);
      assert Found(id, db.nodes[id].payload) in walk.found;
      var i :| 0 <= i < |walk.found| && walk.found[i] == Found(id, db.nodes[id].payload);
      PassAt(scope, walk.found, now, i);
    }
  }

  lemma WalkedIsClaim(db: DB, owner: string, chain: set<Id>, id: Id)
    requires IsWalked(db, owner, chain, id)
    ensures HasClaim(db, id)
  {
  }

  // ---- the same history from head, tail or middle ----

  lemma SameWalk(db: DB, owner: string, seed: Id, member: Id, a: Shift.ShiftWalk, b: Shift.ShiftWalk, scope: Scope,
                 now: int)
    requires IsShiftWalk(db, owner, seed, a) && IsShiftWalk(db, owner, member, b) && a.inChain == b.inChain
    ensures Shift.ClaimsIn(a.found) == Shift.ClaimsIn(b.found) && a.links == b.links
    ensures Verdicts(scope, a.found, now) == Verdicts(scope, b.found, now)
    ensures Elements(Denials(scope, a.found, now)) == Elements(Denials(scope, b.found, now))
  {
    var (x, y) := (Shift.ClaimsIn(a.found), Shift.ClaimsIn(b.found));
    var (v, w) := (Verdicts(scope, a.found, now), Verdicts(scope, b.found, now));
    forall id ensures (id in x <==> id in y) && (id in v <==> id in w) && (id in x ==> x[id] == y[id])
        && (id in v ==> v[id] == w[id]) {
      WalkedClaims(db, owner, seed, a, scope, now, id);
      WalkedClaims(db, owner, member, b, scope, now, id);
    }
    DenialsMean(scope, a.found, now);
    DenialsMean(scope, b.found, now);
    OrderedUnique(a.links, b.links);
  }

  /** Where two claims have one chain, the shift read gives the same chain, steps, conflicts and
      reconciliations from both, and denies the same claims for the same reasons. */
  lemma SameChainSameShift(db: DB, owner: string, seed: Id, member: Id,
                           a: Shift.ShiftWalk, b: Shift.ShiftWalk, scope: Scope, now: int)
    requires SupersessionChain(db, owner, member) == SupersessionChain(db, owner, seed)
    requires IsShiftWalk(db, owner, seed, a) && IsShiftWalk(db, owner, member, b)
    ensures SameHistory(Shift.Read(seed, a, scope, now), Shift.Read(member, b, scope, now))
  {
    hide IsShiftWalk;
    ChainsAgree(db, owner, seed, member);
    ChainOfWalk(db, owner, seed, a);
    ChainOfWalk(db, owner, member, b);
    SameWalk(db, owner, seed, member, a, b, scope, now);
    SameParts(seed, member, a, b, Verdicts(scope, a.found, now), Denials(scope, a.found, now),
              Denials(scope, b.found, now));
  }

  /** So it does from any member of a component of at most 25 claims. */
  lemma SameShiftFromEveryMember(db: DB, owner: string, seed: Id, member: Id, component: set<Id>,
                                 a: Shift.ShiftWalk, b: Shift.ShiftWalk, scope: Scope, now: int)
    requires Reachable(db) && HasClaim(db, seed) && OwnedBy(db, owner, seed)
    requires seed in component && Closed(SupersedesOf(db, owner), component) && |component| <= 25
    requires member in SupersessionChain(db, owner, seed)
    requires IsShiftWalk(db, owner, seed, a) && IsShiftWalk(db, owner, member, b)
    ensures SameHistory(Shift.Read(seed, a, scope, now), Shift.Read(member, b, scope, now))
  {
    hide IsShiftWalk, Reachable, Closed, SameHistory;
    ChainSameFromEveryMember(db, owner, seed, member, component);
    SameChainSameShift(db, owner, seed, member, a, b, scope, now);
  }

  /** All but the id asked for, with which the text opens, and the order of denials, which the store leaves open. */
  ghost predicate SameHistory(r: Shift.ShiftHistory, s: Shift.ShiftHistory) {
    SameRest(r, s) && SameText(r, s)
  }

  ghost predicate SameRest(r: Shift.ShiftHistory, s: Shift.ShiftHistory) {
    && r.answered == s.answered && r.chain == s.chain && r.steps == s.steps && r.conflicts == s.conflicts
    && r.reconciliations == s.reconciliations && r.considered == s.considered
    && Elements(r.denied) == Elements(s.denied)
  }

  ghost predicate SameText(r: Shift.ShiftHistory, s: Shift.ShiftHistory) {
    if r.answered then exists opening, rest :: SameButOpening(r, s, opening, rest)
    else r.considered > 0 ==> r.text == s.text
  }

  /** Both texts go on alike after the id. */
  ghost predicate SameButOpening(r: Shift.ShiftHistory, s: Shift.ShiftHistory, opening: string, rest: seq<Piece>) {
    r.text == [Lit(r.claimId + opening)] + rest && s.text == [Lit(s.claimId + opening)] + rest
  }

  lemma LinedOpens(first: Piece, line: seq<Piece>, lines: seq<seq<Piece>>)
    ensures Lined([[first] + line] + lines) == [first] + Lined([line] + lines)
  {
    var (a, b) := ([[first] + line] + lines, [line] + lines);
    assert a[1..] == lines && b[1..] == lines;
    assert ([first] + line) + [Lit("\n")] == [first] + (line + [Lit("\n")]);
  }

  /** What follows the id in the text of an answer. */
  function Opening(steps: seq<Shift.Step>, conflicts: seq<Shift.Conflict>): (string, seq<Piece>) {
    if steps == [] && conflicts == [] then (" has not been superseded or contradicted.", [])
    else
      (": ", Lined([[Num(|steps|), Lit(" supersession(s), "), Num(|conflicts|), Lit(" open conflict(s).")]]
                   + (Shift.StepLines(steps) + Shift.ConflictLines(conflicts))))
  }

  /** After the id the text goes on as if none had been asked for. */
  lemma TextOpens(id: Id, steps: seq<Shift.Step>, conflicts: seq<Shift.Conflict>)
    ensures var (opening, rest) := Opening(steps, conflicts);
            Shift.TextOf(id, steps, conflicts) == [Lit(id + opening)] + rest
  {
    hide Lined, Shift.StepLines, Shift.ConflictLines;
    if steps != [] || conflicts != [] {
      var line := [Num(|steps|), Lit(" supersession(s), "), Num(|conflicts|), Lit(" open conflict(s).")];
      var lines := Shift.StepLines(steps) + Shift.ConflictLines(conflicts);
      LinedOpens(Lit(id + ": "), line, lines);
      assert [Lit(id + ": ")] + line
          == [Lit(id + ": "), Num(|steps|), Lit(" supersession(s), "), Num(|conflicts|), Lit(" open conflict(s).")];
      assert [[Lit(id + ": ")] + line] + lines
          == [[Lit(id + ": ")] + line] + Shift.StepLines(steps) + Shift.ConflictLines(conflicts);
    }
  }

  lemma ChainOfWalk(db: DB, owner: string, seed: Id, walk: Shift.ShiftWalk)
    requires IsShiftWalk(db, owner, seed, walk)
    ensures walk.inChain == ChainIds(db, owner, seed, MAX_HOPS)
  {
  }

  lemma SameReasons(denials: seq<(Id, DenyReason)>, others: seq<(Id, DenyReason)>)
    requires Elements(denials) == Elements(others)
    ensures Reasons(denials) == Reasons(others)
  {
    assert Kinds(denials) == Kinds(others) by {
      assert forall d :: d in denials <==> d in Elements(denials);
      assert forall d :: d in others <==> d in Elements(others);
    }
    ReasonsOnly(denials, others);
  }

  /** What the text of a read is, by its kind. */
  lemma TextIs(id: Id, walk: Shift.ShiftWalk, verdicts: map<Id, Option<DenyReason>>, denials: seq<(Id, DenyReason)>)
    ensures var r := Shift.Assemble(id, walk, verdicts, denials);
            && r.claimId == id
            && (r.answered ==> r.text == Shift.TextOf(id, r.steps, r.conflicts))
            && (!r.answered && r.considered > 0 ==>
                r.text == Declining(r.considered, " claim(s) make up this decision's history", Reasons(denials)))
  {
    hide Shift.ClaimsIn, Shift.StepsOf, Shift.ConflictsOf, Shift.ChainOf, Shift.ReconciliationsOf, Shift.InOrder,
        Shift.TextOf, Reason, Declining, Reasons;
  }

  lemma SameRestParts(seed: Id, member: Id, a: Shift.ShiftWalk, b: Shift.ShiftWalk,
                      verdicts: map<Id, Option<DenyReason>>, denials: seq<(Id, DenyReason)>,
                      others: seq<(Id, DenyReason)>)
    requires Shift.ClaimsIn(a.found) == Shift.ClaimsIn(b.found) && a.links == b.links && a.inChain == b.inChain
    requires Elements(denials) == Elements(others)
    ensures SameRest(Shift.Assemble(seed, a, verdicts, denials), Shift.Assemble(member, b, verdicts, others))
  {
    hide Shift.ClaimsIn, Shift.StepsOf, Shift.ConflictsOf, Shift.ChainOf, Shift.ReconciliationsOf, Shift.InOrder,
        Shift.TextOf, Reason, Declining, Reasons;
  }

  lemma SameOpenings(r: Shift.ShiftHistory, s: Shift.ShiftHistory)
    requires r.text == Shift.TextOf(r.claimId, r.steps, r.conflicts)
             && s.text == Shift.TextOf(s.claimId, r.steps, r.conflicts)
    ensures exists opening, rest :: SameButOpening(r, s, opening, rest)
  {
    hide Shift.TextOf, Opening;
    TextOpens(r.claimId, r.steps, r.conflicts);
    TextOpens(s.claimId, r.steps, r.conflicts);
    var (opening, rest) := Opening(r.steps, r.conflicts);
    assert SameButOpening(r, s, opening, rest);
  }

  lemma SameParts(seed: Id, member: Id, a: Shift.ShiftWalk, b: Shift.ShiftWalk, verdicts: map<Id, Option<DenyReason>>,
                  denials: seq<(Id, DenyReason)>, others: seq<(Id, DenyReason)>)
    requires Shift.ClaimsIn(a.found) == Shift.ClaimsIn(b.found) && a.links == b.links && a.inChain == b.inChain
    requires Elements(denials) == Elements(others)
    ensures SameHistory(Shift.Assemble(seed, a, verdicts, denials), Shift.Assemble(member, b, verdicts, others))
  {
    hide Shift.Assemble, Shift.ClaimsIn, Shift.TextOf, SameButOpening, Declining, Reasons;
    var (r, s) := (Shift.Assemble(seed, a, verdicts, denials), Shift.Assemble(member, b, verdicts, others));
    SameRestParts(seed, member, a, b, verdicts, denials, others);
    TextIs(seed, a, verdicts, denials);
    TextIs(member, b, verdicts, others);
    SameReasons(denials, others);
    if r.answered {
      SameOpenings(r, s);
    }
  }

  // ---- steps are supersessions, and go forward in time ----

  /** The steps are exactly the SUPERSEDES edges between walked claims, and a visible one took more than
      no time. */
  lemma StepsAreSupersessions(db: DB, owner: string, seed: Id, walk: Shift.ShiftWalk, scope: Scope, now: int,
                              s: Shift.Step)
    requires Reachable(db) && IsShiftWalk(db, owner, seed, walk) && Shift.Read(seed, walk, scope, now).answered
    ensures var claims := Shift.ClaimsIn(walk.found);
            s in Shift.Read(seed, walk, scope, now).steps <==>
              exists x, y :: x in claims && y in claims && Edge(x, Rel.Supersedes, y) in db.edges
                             && s == Shift.StepOf(claims[x], claims[y], Verdicts(scope, walk.found, now))
    ensures s in Shift.Read(seed, walk, scope, now).steps && !s.withheld ==> s.elapsed.Some? && s.elapsed.value > 0
  {
    var (claims, verdicts) := (Shift.ClaimsIn(walk.found), Verdicts(scope, walk.found, now));
    ReachableKeepsInv(db);
    hide Reachable, IsShiftWalk, Shift.StepOf, Shift.StepsOf, Shift.ClaimsIn, Verdicts, Denials, Outdates;
    AnsweredSteps(seed, walk, verdicts, Denials(scope, walk.found, now));
    hide Shift.Assemble;
    Shift.StepsMean(claims, verdicts, s);
    forall id | id in claims ensures HasClaim(db, id) && claims[id] == ClaimsOf(db)[id] {
      WalkedClaims(db, owner, seed, walk, scope, now, id);
      WalkedIsClaim(db, owner, walk.inChain, id);
    }
    hide Inv;
    forall x, y | x in claims && y in claims ensures y in claims[x].supersedes <==>
        Edge(x, Rel.Supersedes, y) in db.edges {
      StatusesExplained(db, x);
    }
    if s in Shift.StepsOf(claims, verdicts) {
      var x, y :| x in claims && y in claims && y in claims[x].supersedes
          && s == Shift.StepOf(claims[x], claims[y], verdicts);
      SupersedesPointsBack(db, x, y);
      Forward(claims[x], claims[y], verdicts);
    }
  }

  lemma AnsweredSteps(seed: Id, walk: Shift.ShiftWalk, verdicts: map<Id, Option<DenyReason>>,
                      denials: seq<(Id, DenyReason)>)
    requires Shift.Assemble(seed, walk, verdicts, denials).answered
    ensures Shift.Assemble(seed, walk, verdicts, denials).steps == Shift.StepsOf(Shift.ClaimsIn(walk.found), verdicts)
  {
    hide Shift.ClaimsIn, Shift.StepsOf, Shift.ConflictsOf, Shift.ChainOf, Shift.ReconciliationsOf, Shift.InOrder,
        Shift.TextOf, Reason;
  }

  lemma Forward(later: Claim, earlier: Claim, verdicts: map<Id, Option<DenyReason>>)
    requires Outdates(later, earlier)
    ensures var s := Shift.StepOf(later, earlier, verdicts); !s.withheld ==> s.elapsed.Some? && s.elapsed.value > 0
  {
  }
}
