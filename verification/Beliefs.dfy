/** What the record believes after any history: agreement, edges that point back, convergence. */
module Beliefs {
  import opened Basics
  import opened Schema
  import opened Statements
  import opened Store
  import opened Resolver
  import opened Ledger
  import opened Ingestion
  import opened Writing
  import opened Runs
  import opened Histories

  /** One thing that happens to the store: an ingestion run, with the orders in which the store
      answers its reads, or a fulfilment change. */
  datatype Step =
    | Ingest(run: Run, orders: seq<seq<seq<Id>>>)
    | Fulfil(id: Id, state: Fulfillment, settledAt: Option<int>)

  /** Any labelled run, whatever it was given to tell, with reads the store could give. */
  ghost predicate Enabled(db: DB, step: Step) {
    step.Ingest? ==>
      && AllLabelled(step.run)
      && AreBatchReads(db, step.run.owner, ClaimBatch(step.run.candidates), step.orders)
  }

  ghost function After(db: DB, step: Step): DB
    requires Enabled(db, step)
  {
    match step
    case Ingest(run, orders) => AfterRun(db, run, orders)
    case Fulfil(id, state, settledAt) => FulfillmentSet(db, id, state, settledAt)
  }

  /** `steps` lead from one store to another. */
  ghost predicate Leads(db: DB, steps: seq<Step>, end: DB)
    decreases |steps|
  {
    if steps == [] then end == db else Enabled(db, steps[0]) && Leads(After(db, steps[0]), steps[1..], end)
  }

  /** Only good runs: among other things, none of them repeats a claim id. */
  ghost predicate GoodSteps(steps: seq<Step>) {
    forall i :: 0 <= i < |steps| ==> GoodStep(steps[i])
  }

  ghost predicate GoodStep(step: Step) {
    step.Ingest? ==> GoodRun(step.run)
  }

  lemma StepKeepsInv(db: DB, step: Step)
    requires Inv(db) && Enabled(db, step) && GoodStep(step)
    ensures Inv(After(db, step)) && db.nodes.Keys <= After(db, step).nodes.Keys
  {
    hide Inv, GoodRun, AreBatchReads, AfterRun, FulfillmentSet, AllLabelled;
    match step
    case Ingest(run, orders) => RunKeepsInv(db, run, orders);
    case Fulfil(id, state, settledAt) => FulfilKeepsInv(db, id, state, settledAt);
  }

  /** Every store any history of good runs leads to is indexed, tells by its edges what its claims say, and is
      sound; and no node ever goes. */
  lemma {:induction false} HistoryKeepsInv(db: DB, steps: seq<Step>, end: DB)
    requires Inv(db) && Leads(db, steps, end) && GoodSteps(steps)
    ensures Inv(end) && db.nodes.Keys <= end.nodes.Keys
    decreases |steps|
  {
    hide Inv, Enabled, After, GoodStep;
    if steps != [] {
      StepKeepsInv(db, steps[0]);
      HistoryKeepsInv(After(db, steps[0]), steps[1..], end);
    }
  }

  lemma EmptyIsSound()
    ensures Inv(EMPTY)
  {
    assert ClaimsOf(EMPTY) == map[];
  }

  /** A store that some history of good runs leads to. */
  ghost predicate Reachable(db: DB) {
    exists steps :: Leads(EMPTY, steps, db) && GoodSteps(steps)
  }

  lemma ReachableKeepsInv(db: DB)
    requires Reachable(db)
    ensures Inv(db)
  {
    hide Inv;
    EmptyIsSound();
    var steps :| Leads(EMPTY, steps, db) && GoodSteps(steps);
    HistoryKeepsInv(EMPTY, steps, db);
  }

  // ---- agreement ----

  /** Two active claims of one owner that share a subject entity and a topic say the same, although
      a batch compares its claims with stored ones as they stood before it. */
  lemma ActiveClaimsAgree(db: DB, a: Id, b: Id)
    requires Reachable(db) && a in ClaimsOf(db) && b in ClaimsOf(db)
    requires var cs := ClaimsOf(db); Coexist(cs[a], cs[b]) && Topic(cs[a].statement) == Topic(cs[b].statement)
    ensures var cs := ClaimsOf(db);
            Tokens(cs[a].statement) == Tokens(cs[b].statement) && OweAlike(cs[a], cs[b])
  {
    ReachableKeepsInv(db);
    SameContentMeans(ClaimsOf(db)[a], ClaimsOf(db)[b]);
    hide Tokens, Topic, Obligation, ClaimsOf;
  }

  // ---- edges ----

  /** A SUPERSEDES edge joins claims of one topic that differ, points strictly back in time, and its
      target is superseded in payload and column alike. */
  lemma SupersedesPointsBack(db: DB, from: Id, to: Id)
    requires Reachable(db) && Edge(from, Rel.Supersedes, to) in db.edges
    ensures var cs := ClaimsOf(db);
            && from in cs && to in cs && Outdates(cs[from], cs[to])
            && cs[to].status == Superseded && db.nodes[to].cols.claimStatus == Some(Superseded)
            && db.nodes[to].occurredAt < db.nodes[from].occurredAt
  {
    var cs := ClaimsOf(db);
    hide Outdates, ClaimsOf, Indexed, Sound, EdgesTell, Reachable;
    ReachableKeepsInv(db);
    SupersedesNamed(db, cs, from, to);
    SupersededSound(cs, from, to);
    OutdatesIsLater(cs[from], cs[to]);
    RowsTell(db, from);
    RowsTell(db, to);
  }

  lemma SupersedesNamed(db: DB, cs: Claims, from: Id, to: Id)
    requires EdgesTell(db) && cs == ClaimsOf(db) && Edge(from, Rel.Supersedes, to) in db.edges
    ensures from in cs && to in cs[from].supersedes
  {
    hide ClaimsOf;
  }

  lemma SupersededSound(cs: Claims, from: Id, to: Id)
    requires Sound(cs) && from in cs && to in cs[from].supersedes
    ensures to in cs && Outdates(cs[from], cs[to]) && cs[to].status == Superseded
  {
    hide Outdates;
  }

  lemma RowsTell(db: DB, id: Id)
    requires Indexed(db) && id in ClaimsOf(db)
    ensures db.nodes[id].occurredAt == ClaimsOf(db)[id].assertedAt
    ensures db.nodes[id].cols.claimStatus == Some(ClaimsOf(db)[id].status)
  {
  }

  lemma OutdatesIsLater(a: Claim, b: Claim)
    ensures Outdates(a, b) ==> a.assertedAt > b.assertedAt
  {
  }

  /** A CONTRADICTS edge joins claims of one topic that differ and were asserted at one time. */
  lemma ContradictsIsLevel(db: DB, from: Id, to: Id)
    requires Reachable(db) && Edge(from, Rel.Contradicts, to) in db.edges
    ensures var cs := ClaimsOf(db); from in cs && to in cs && Clashes(cs[from], cs[to])
  {
    hide Clashes, ClaimsOf, Indexed, Sound, EdgesTell, Reachable;
    ReachableKeepsInv(db);
    ContradictsNamed(db, ClaimsOf(db), from, to);
    ContradictedSound(ClaimsOf(db), from, to);
  }

  lemma ContradictsNamed(db: DB, cs: Claims, from: Id, to: Id)
    requires EdgesTell(db) && cs == ClaimsOf(db) && Edge(from, Rel.Contradicts, to) in db.edges
    ensures from in cs && to in cs[from].contradicts
  {
    hide ClaimsOf;
  }

  lemma ContradictedSound(cs: Claims, from: Id, to: Id)
    requires Sound(cs) && from in cs && to in cs[from].contradicts
    ensures to in cs && Clashes(cs[from], cs[to])
  {
    hide Clashes;
  }

  /** A path of SUPERSEDES edges: each node supersedes the next. */
  ghost predicate SupersessionPath(db: DB, path: seq<Id>) {
    forall i :: 0 <= i < |path| - 1 ==> Edge(path[i], Rel.Supersedes, path[i + 1]) in db.edges
  }

  lemma {:induction false} PathsDescend(db: DB, path: seq<Id>)
    requires Reachable(db) && SupersessionPath(db, path) && |path| >= 2
    ensures path[0] in db.nodes && path[|path| - 1] in db.nodes
    ensures db.nodes[path[0]].occurredAt > db.nodes[path[|path| - 1]].occurredAt
  {
    SupersedesPointsBack(db, path[0], path[1]);
    if |path| > 2 {
      assert forall i :: 0 <= i < |path| - 1 ==> path[1..][i] == path[i + 1];
      PathsDescend(db, path[1..]);
    }
  }

  /** So SUPERSEDES has no cycle. */
  lemma SupersedesAcyclic(db: DB, path: seq<Id>)
    requires Reachable(db) && SupersessionPath(db, path) && |path| >= 2
    ensures path[0] != path[|path| - 1]
  {
    PathsDescend(db, path);
  }

  // ---- statuses ----

  /** Every stored status is explained by the record: a superseded claim has a strictly later claim
      of its topic that says something else, a contradicted one names, with an edge, a claim of its
      own time, and no claim is ever reconciled. */
  lemma StatusesExplained(db: DB, id: Id)
    requires Reachable(db) && id in ClaimsOf(db)
    ensures var (cs, c) := (ClaimsOf(db), ClaimsOf(db)[id]);
            && (c.status == Superseded ==> exists x :: x in cs && Outdates(cs[x], c))
            && (c.status == Contradicted ==>
                exists x :: x in c.contradicts && x in cs && Clashes(c, cs[x])
                    && Edge(id, Rel.Contradicts, x) in db.edges)
            && c.status != Reconciled
            && (forall x :: x in c.supersedes <==> Edge(id, Rel.Supersedes, x) in db.edges)
  {
    ReachableKeepsInv(db);
    hide Outdates, Clashes;
    var (cs, c) := (ClaimsOf(db), ClaimsOf(db)[id]);
    if c.status == Superseded {
      assert HasSuccessor(cs, c);
    }
    if c.status == Contradicted {
      assert c.contradicts[0] in c.contradicts;
    }
  }

  // ---- convergence ----

  /** The owner's claims on one topic. */
  ghost function Group(cs: Claims, owner: string, topic: set<string>): set<Id> {
    set id | id in cs && cs[id].owner == owner && Topic(cs[id].statement) == topic
  }

  ghost predicate AllAbout(cs: Claims, group: set<Id>, e: Id) {
    forall id :: id in group && id in cs ==> e in cs[id].subjects
  }

  /** All about one entity, and no two of them saying different things at one time. */
  ghost predicate Comparable(cs: Claims, owner: string, topic: set<string>) {
    && (exists e :: AllAbout(cs, Group(cs, owner, topic), e))
    && (forall a, b ::
          a in Group(cs, owner, topic) && b in Group(cs, owner, topic) && cs[a].assertedAt == cs[b].assertedAt ==>
            SameContent(cs[a], cs[b]))
  }

  ghost predicate IsLatest(cs: Claims, owner: string, topic: set<string>, id: Id) {
    id in Group(cs, owner, topic) && forall x :: x in Group(cs, owner, topic) ==> cs[x].assertedAt <= cs[id].assertedAt
  }

  /** Whatever the arrival order and the split into runs, the latest claim ends up active, and every
      active claim of its topic says what it says. */
  lemma LatestIsBelieved(db: DB, owner: string, topic: set<string>, latest: Id)
    requires Reachable(db) && Comparable(ClaimsOf(db), owner, topic) && IsLatest(ClaimsOf(db), owner, topic, latest)
    ensures var cs := ClaimsOf(db);
            && cs[latest].status == Active
            && forall id :: id in Group(cs, owner, topic) && cs[id].status == Active ==> SameContent(cs[id], cs[latest])
  {
    ReachableKeepsInv(db);
    var cs := ClaimsOf(db);
    hide Topic, Tokens, Obligation, ClaimsOf;
    forall x | x in cs ensures !Outdates(cs[x], cs[latest]) && !Clashes(cs[latest], cs[x]) {
    }
    StatusesExplained(db, latest);
    var e :| AllAbout(cs, Group(cs, owner, topic), e);
    forall id | id in Group(cs, owner, topic) && cs[id].status == Active ensures SameContent(cs[id], cs[latest]) {
      assert e in cs[id].subjects && e in cs[latest].subjects;
      assert Coexist(cs[id], cs[latest]);
    }
  }
}
