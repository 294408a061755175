/** Runs that tell one claim each, and small histories of them. */
module Tellings {
  import opened Basics
  import opened Schema
  import opened Statements
  import opened Store
  import opened Resolver
  import opened Ledger
  import opened Ingestion
  import opened Writing
  import opened Runs
  import opened Histories
  import opened Beliefs
  import opened AnyRuns
  import opened Confluence
  import opened Reruns

  // ---- one run, one claim ----

  /** A run over no records that tells one claim, with the entities it is about. */
  function Telling(c: Claim, entities: seq<Entity>): Run {
    Run(c.owner, [], [Candidate(entities, [], [c])], map[])
  }

  /** Claim and entities as an extractor makes them. */
  ghost predicate CanTell(c: Claim, entities: seq<Entity>) {
    && Unresolved(c) && ClaimNode(c).LabelMatchesId()
    && (forall e :: e in entities ==> EntityNode(e).LabelMatchesId())
    && (forall t :: t in c.subjects ==> exists e :: e in entities && e.id == t)
  }

  lemma TellingIsGood(c: Claim, entities: seq<Entity>)
    requires CanTell(c, entities)
    ensures GoodRun(Telling(c, entities)) && AllLabelled(Telling(c, entities)) && c.status == Active
  {
    var run := Telling(c, entities);
    assert ClaimBatch(run.candidates) == [[c]];
  }

  /** The claims the store answers with when the claim of a telling is resolved. */
  ghost function Answered(db: DB, c: Claim, entities: seq<Entity>, orders: seq<seq<seq<Id>>>): seq<Claim>
    requires CanRun(db, Telling(c, entities), orders) && c.id !in db.nodes
  {
    var run := Telling(c, entities);
    assert ClaimBatch(run.candidates)[0] == [c] && AreReads(db, run.owner, [c], orders[0]);
    assert IsRead(db, run.owner, [c][0], orders[0][0]);
    Hydrated(db, orders[0][0])
  }

  lemma AdmitOne(db: DB, owner: string, c: Claim, orders: seq<seq<Id>>)
    requires AreReads(db, owner, [c], orders) && c.id !in db.nodes
    ensures IsRead(db, owner, c, orders[0])
    ensures var after := AdmitAll(db, owner, [c], orders, START);
            && after.pending == [MeetAll(c, Hydrated(db, orders[0]))]
            && after.supersessions == SupersessionsAll([], c, Hydrated(db, orders[0]))
  {
    assert IsRead(db, owner, [c][0], orders[0]);
    assert AdmitAll(db, owner, [c], orders, START) == Admit(db, owner, c, orders[0], START);
    assert Hydrated(db, orders[0]) + [] == Hydrated(db, orders[0]);
    hide MeetAll, SupersessionsAll;
    assert YieldAll(c, []) == [];
  }

  /** Telling a new claim records it as it comes out of the comparison with what the store answers. */
  lemma TellingNew(db: DB, c: Claim, entities: seq<Entity>, orders: seq<seq<seq<Id>>>)
    requires CanRun(db, Telling(c, entities), orders) && c.id !in db.nodes
    ensures var (run, stored) := (Telling(c, entities), Answered(db, c, entities, orders));
            && ClaimsOf(AfterRun(db, run, orders)) == Absorb(ClaimsOf(db), MeetAll(c, stored))
            && Supersessions(db, run, orders, 1) == SupersessionsAll([], c, stored)
            && Pending(db, run, orders) == [MeetAll(c, stored)]
  {
    var run := Telling(c, entities);
    var (batch, stored) := (ClaimBatch(run.candidates), Answered(db, c, entities, orders));
    assert batch == [[c]] && batch[..0] == [] && orders[..0] == [] && |orders| == 1;
    assert AreReads(db, run.owner, batch[0], orders[0]);
    AdmitOne(db, run.owner, c, orders[0]);
    hide Inv, GoodRun, AreReads, AdmitAll, MeetAll, SupersessionsAll, ClaimsOf, AfterRun;
    assert PendingAfter(db, run.owner, [], []) == [];
    assert Reported(db, run.owner, batch, orders, 0) == AdmitAll(db, run.owner, [c], orders[0], START);
    assert PendingAfter(db, run.owner, batch, orders) == [MeetAll(c, stored)];
    assert Supersessions(db, run, orders, 1) == [] + SupersessionsAll([], c, stored);
    RunKeepsInv(db, run, orders);
    assert Recorded(ClaimsOf(db), [MeetAll(c, stored)]) == Absorb(ClaimsOf(db), MeetAll(c, stored)) by {
      assert [MeetAll(c, stored)][..0] == [];
    }
  }

  /** It is compared with the claims of its owner that share a subject, once each. */
  lemma AnsweredMeans(db: DB, c: Claim, entities: seq<Entity>, orders: seq<seq<seq<Id>>>)
    requires CanRun(db, Telling(c, entities), orders) && c.id !in db.nodes
    ensures var stored := Answered(db, c, entities, orders); IsStale(ClaimsOf(db), c, stored) && Distinct(stored)
  {
    var run := Telling(c, entities);
    assert AreReads(db, run.owner, ClaimBatch(run.candidates)[0], orders[0]);
    assert IsRead(db, run.owner, [c][0], orders[0][0]);
    ReadIsStale(db, c, orders[0][0]);
    hide IsStale, ClaimsOf, EdgesTell, Sound, GoodRun, ClaimsAboutIds;
    HydratedDistinct(db, orders[0][0]);
  }

  lemma HydratedDistinct(db: DB, order: seq<Id>)
    requires Indexed(db) && Distinct(order) && forall i :: 0 <= i < |order| ==> HasClaim(db, order[i])
    ensures Distinct(Hydrated(db, order))
  {
    var stored := Hydrated(db, order);
    assert forall i :: 0 <= i < |order| ==> stored[i].id == order[i];
  }

  /** Telling a claim under a stored id changes no claim. */
  lemma TellingKnown(db: DB, c: Claim, entities: seq<Entity>, orders: seq<seq<seq<Id>>>)
    requires CanRun(db, Telling(c, entities), orders) && c.id in db.nodes
    ensures ClaimsOf(AfterRun(db, Telling(c, entities), orders)) == ClaimsOf(db)
  {
    var run := Telling(c, entities);
    assert BatchStored(db, ClaimBatch(run.candidates));
    NothingPends(db, run.owner, ClaimBatch(run.candidates), orders);
    RunKeepsInv(db, run, orders);
  }

  lemma TellingWords(c: Claim, entities: seq<Entity>)
    ensures BatchWords(ClaimBatch(Telling(c, entities).candidates)) == {WordsOf(c)}
  {
    var batch := ClaimBatch(Telling(c, entities).candidates);
    assert batch == [[c]];
    assert c in batch[0];
  }

  // ---- histories ----

  lemma {:induction false} LeadsSnoc(db: DB, steps: seq<Step>, mid: DB, step: Step)
    requires Leads(db, steps, mid) && Enabled(mid, step)
    ensures Leads(db, steps + [step], After(mid, step))
    ensures GoodSteps(steps) && GoodStep(step) ==> GoodSteps(steps + [step])
    decreases |steps|
  {
    hide Enabled, After, GoodStep;
    if steps == [] {
      assert [step][1..] == [];
    } else {
      LeadsSnoc(After(db, steps[0]), steps[1..], mid, step);
      assert (steps + [step])[1..] == steps[1..] + [step];
    }
  }

  /** From any reachable store a claim can be told, and the store it leaves is reachable. */
  lemma TellingIsReachable(db: DB, c: Claim, entities: seq<Entity>) returns (orders: seq<seq<seq<Id>>>)
    requires Reachable(db) && CanTell(c, entities)
    ensures CanRun(db, Telling(c, entities), orders)
    ensures Reachable(AfterRun(db, Telling(c, entities), orders)) && Inv(AfterRun(db, Telling(c, entities), orders))
  {
    TellingIsGood(c, entities);
    hide AfterRun, Inv, GoodRun, AreBatchReads, AllLabelled, CanTell;
    ReachableKeepsInv(db);
    AnyGoodRunCanBeMade(db, Telling(c, entities));
    orders :| CanRun(db, Telling(c, entities), orders);
    RunKeepsInv(db, Telling(c, entities), orders);
    var steps :| Leads(EMPTY, steps, db) && GoodSteps(steps);
    LeadsSnoc(EMPTY, steps, db, Ingest(Telling(c, entities), orders));
  }

  // ---- whoever is told first, stays ----

  lemma NothingMet(c: Claim)
    ensures MeetAll(c, []) == c
  {
  }

  lemma FirstTelling(c: Claim, entities: seq<Entity>, orders: seq<seq<seq<Id>>>)
    requires CanRun(EMPTY, Telling(c, entities), orders)
    ensures ClaimsOf(AfterRun(EMPTY, Telling(c, entities), orders)) == map[c.id := c]
  {
    hide AfterRun, GoodRun, AreBatchReads, Inv, MeetAll, ClaimsOf, SupersessionsAll, Absorb, IsStale;
    TellingNew(EMPTY, c, entities, orders);
    AnsweredMeans(EMPTY, c, entities, orders);
    EmptyLedger(c);
    NoneStored(c, Answered(EMPTY, c, entities, orders));
    NothingMet(c);
  }

  lemma EmptyLedger(c: Claim)
    ensures ClaimsOf(EMPTY) == map[] && Absorb(map[], c) == map[c.id := c]
  {
    assert ClaimsOf(EMPTY) == map[];
  }

  lemma TwoSteps(first: Step, second: Step, db: DB)
    requires Leads(EMPTY, [first, second], db)
    ensures Enabled(EMPTY, first) && Enabled(After(EMPTY, first), second) && db == After(After(EMPTY, first), second)
    ensures GoodSteps([first, second]) ==> GoodStep(first) && GoodStep(second)
  {
    hide Enabled, After, GoodStep;
    var steps := [first, second];
    assert steps[0] == first && steps[1..] == [second] && [second][0] == second && [second][1..] == [];
    assert Enabled(EMPTY, first) && Leads(After(EMPTY, first), [second], db);
    assert Leads(After(After(EMPTY, first), second), [], db);
  }

  /** A claim told to an empty store, then another under the same id: the first stays. */
  lemma FirstTellingStays(a: Claim, b: Claim, es: seq<Entity>, es': seq<Entity>,
                          orders: seq<seq<seq<Id>>>, orders': seq<seq<seq<Id>>>, db: DB)
    requires a.id == b.id && Leads(EMPTY, [Ingest(Telling(a, es), orders), Ingest(Telling(b, es'), orders')], db)
    requires CanTell(a, es) && CanTell(b, es')
    ensures ClaimsOf(db) == map[a.id := a]
  {
    TellingIsGood(a, es);
    TellingIsGood(b, es');
    hide Inv, GoodRun, AreBatchReads, AfterRun, Leads, ClaimsOf, CanTell;
    var first := Ingest(Telling(a, es), orders);
    TwoSteps(first, Ingest(Telling(b, es'), orders'), db);
    EmptyIsSound();
    StepKeepsInv(EMPTY, first);
    FirstTelling(a, es, orders);
    HeldIsStored(After(EMPTY, first), a.id);
    TellingKnown(After(EMPTY, first), b, es', orders');
  }

  lemma NoneStored(c: Claim, stored: seq<Claim>)
    requires IsStale(map[], c, stored)
    ensures stored == []
  {
    assert forall o :: o !in stored;
    NoElements(stored);
  }

  lemma HeldIsStored(db: DB, id: Id)
    requires id in ClaimsOf(db)
    ensures id in db.nodes
  {
  }

  /** Two claims under one id, which the id's digest of owner, event and statement does not rule out, told
      in either order: both histories are told the same, and they believe the same if and only if the claims
      agree in content. */
  lemma TwoVersionsDecide(a: Claim, b: Claim, es: seq<Entity>, es': seq<Entity>,
                          o1: seq<seq<seq<Id>>>, o2: seq<seq<seq<Id>>>, db: DB,
                          o3: seq<seq<seq<Id>>>, o4: seq<seq<seq<Id>>>, db': DB)
    requires a.id == b.id && a.owner == b.owner && Topic(a.statement) == Topic(b.statement)
    requires CanTell(a, es) && CanTell(b, es')
    requires Leads(EMPTY, [Ingest(Telling(a, es), o1), Ingest(Telling(b, es'), o2)], db)
    requires Leads(EMPTY, [Ingest(Telling(b, es'), o3), Ingest(Telling(a, es), o4)], db')
    ensures Told([Ingest(Telling(a, es), o1), Ingest(Telling(b, es'), o2)])
         == Told([Ingest(Telling(b, es'), o3), Ingest(Telling(a, es), o4)])
    ensures Believed(ClaimsOf(db), a.owner, Topic(a.statement)) == Believed(ClaimsOf(db'), a.owner, Topic(a.statement))
       <==> SameContent(a, b)
  {
    hide Told, WordsOf, GoodRun, AllLabelled, Leads, ClaimsOf, Topic, Believed, CanTell, SameContent, Telling;
    ToldTwo(a, b, es, es', o1, o2);
    ToldTwo(b, a, es', es, o3, o4);
    TellingIsGood(a, es);
    TellingIsGood(b, es');
    FirstTellingStays(a, b, es, es', o1, o2, db);
    FirstTellingStays(b, a, es', es, o3, o4, db');
    BelieveAlike(a, b);
  }

  lemma BelieveAlike(a: Claim, b: Claim)
    requires a.owner == b.owner && Topic(a.statement) == Topic(b.statement)
    requires a.status == Active && b.status == Active
    ensures Believed(map[a.id := a], a.owner, Topic(a.statement))
            == Believed(map[b.id := b], a.owner, Topic(a.statement))
       <==> SameContent(a, b)
  {
    hide Topic, Tokens, Obligation, Believed, SameContent;
    BelievedOne(a);
    BelievedOne(b);
    OneContent(a, b);
  }

  lemma OneContent(a: Claim, b: Claim)
    ensures {(Tokens(a.statement), Obligation(a))} == {(Tokens(b.statement), Obligation(b))} <==> SameContent(a, b)
  {
    hide Tokens, Obligation;
    var (x, y) := ((Tokens(a.statement), Obligation(a)), (Tokens(b.statement), Obligation(b)));
    assert {x} == {y} <==> x == y by {
      assert x in {x};
    }
  }

  lemma BelievedOne(c: Claim)
    requires c.status == Active
    ensures Believed(map[c.id := c], c.owner, Topic(c.statement)) == {(Tokens(c.statement), Obligation(c))}
  {
    hide Topic, Tokens, Obligation;
    assert c.id in Group(map[c.id := c], c.owner, Topic(c.statement));
  }

  lemma ToldTwo(a: Claim, b: Claim, es: seq<Entity>, es': seq<Entity>, o1: seq<seq<seq<Id>>>, o2: seq<seq<seq<Id>>>)
    ensures Told([Ingest(Telling(a, es), o1), Ingest(Telling(b, es'), o2)]) == {WordsOf(a), WordsOf(b)}
  {
    var steps := [Ingest(Telling(a, es), o1), Ingest(Telling(b, es'), o2)];
    TellingWords(a, es);
    TellingWords(b, es');
    assert steps[1..] == [steps[1]] && steps[1..][1..] == [];
    hide WordsOf, BatchWords, ClaimBatch;
    assert Told([]) == {};
    assert Told([steps[1]]) == {WordsOf(b)};
  }

  // ---- a late arrival, as a run ----

  /** The newer claim told first, the older one after it: the pair is reported, and no edge is written. */
  lemma LateRun(db: DB, newer: Claim, older: Claim, es: seq<Entity>, orders: seq<seq<seq<Id>>>)
    requires CanRun(db, Telling(older, es), orders) && older.id !in db.nodes && Unresolved(older)
    requires ClaimsOf(db) == map[newer.id := newer] && newer.status == Active && newer.id != older.id
    requires newer.owner == older.owner && ShareSubject(older, newer) && Rivals(newer, older)
    requires older.assertedAt < newer.assertedAt
    ensures var (run, after) := (Telling(older, es), AfterRun(db, Telling(older, es), orders));
            && Supersessions(db, run, orders, 1) == [(newer.id, older.id)]
            && Edge(newer.id, Rel.Supersedes, older.id) !in after.edges
            && ClaimsOf(after) == map[newer.id := newer, older.id := older.(status := Superseded)]
  {
    hide Rivals, AfterRun, GoodRun, AreBatchReads, ClaimsOf, Inv, MeetAll, SupersessionsAll, Absorb, ShareSubject;
    var run := Telling(older, es);
    TellingNew(db, older, es, orders);
    AnsweredMeans(db, older, es, orders);
    OnlyAnswer(newer, older, Answered(db, older, es, orders));
    MeetNewer(newer, older);
    AbsorbLate(newer, older);
    RunKeepsInv(db, run, orders);
    EdgesAreNamed(AfterRun(db, run, orders), newer.id, older.id);
    NothingNamed(db, newer);
  }

  lemma AbsorbLate(newer: Claim, older: Claim)
    requires newer.id != older.id && older.supersedes == []
    ensures Absorb(map[newer.id := newer], older.(status := Superseded))
         == map[newer.id := newer, older.id := older.(status := Superseded)]
  {
  }

  /** Alone in a sound ledger, a claim points at nothing. */
  lemma NothingNamed(db: DB, c: Claim)
    requires Inv(db) && ClaimsOf(db) == map[c.id := c]
    ensures forall s :: s !in c.supersedes
  {
    hide ClaimsOf, Indexed, EdgesTell;
    var cs := map[c.id := c];
    forall s ensures s !in c.supersedes {
      if s in cs[c.id].supersedes {
        SupersededSound(cs, c.id, s);
        OutdatesIsLater(c, c);
        assert false;
      }
    }
  }

  lemma EdgesAreNamed(db: DB, from: Id, to: Id)
    requires Inv(db)
    ensures Edge(from, Rel.Supersedes, to) in db.edges <==> from in ClaimsOf(db) && to in ClaimsOf(db)[from].supersedes
  {
    hide ClaimsOf, Indexed, Sound;
  }

  lemma OnlyAnswer(newer: Claim, older: Claim, stored: seq<Claim>)
    requires IsStale(map[newer.id := newer], older, stored) && Distinct(stored)
    requires newer.owner == older.owner && ShareSubject(older, newer)
    ensures stored == [newer]
  {
    hide ShareSubject;
    var cs := map[newer.id := newer];
    assert newer.id in cs && cs[newer.id] == newer;
    assert newer in stored;
    assert forall i :: 0 <= i < |stored| ==> stored[i] in stored && stored[i] == newer;
    assert Elements(stored) == {newer};
    DistinctSize(stored);
  }

  lemma MeetNewer(newer: Claim, older: Claim)
    requires newer.status == Active && newer.id != older.id && Rivals(newer, older)
             && older.assertedAt < newer.assertedAt
    ensures MeetAll(older, [newer]) == older.(status := Superseded)
    ensures SupersessionsAll([], older, [newer]) == [(newer.id, older.id)]
  {
    hide Rivals;
    assert [newer][..0] == [];
    assert MeetAll(older, []) == older && SupersessionsAll([], older, []) == [];
  }
}
