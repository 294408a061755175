/** Small histories in which what is proved of the record shows its edges. */
module Cases {
  import opened Basics
  import opened Schema
  import opened Statements
  import opened Store
  import opened Resolver
  import opened Ledger
  import opened Ingestion
  import opened Writing
  import opened Runs
  import opened Histories
  import opened Beliefs
  import opened AnyRuns
  import opened Confluence
  import opened Tellings
  import opened Choices
  import opened ChainBounds

  // ---- two versions of one claim ----

  /** One claim, then another, can always be told. */
  lemma TwoTellings(a: Claim, es: seq<Entity>, b: Claim, es': seq<Entity>)
    returns (o: seq<seq<seq<Id>>>, o': seq<seq<seq<Id>>>, db: DB)
    requires CanTell(a, es) && CanTell(b, es')
    ensures var steps := [Ingest(Telling(a, es), o), Ingest(Telling(b, es'), o')];
            Leads(EMPTY, steps, db) && GoodSteps(steps)
  {
    hide CanTell, GoodRun, Inv, AfterRun, AreBatchReads, Leads, Told, WordsOf;
    assert Leads(EMPTY, [], EMPTY) by {
      LeadsNowhere();
    }
    o := TellMore([], EMPTY, a, es);
    var first := Ingest(Telling(a, es), o);
    assert [] + [first] == [first];
    o' := TellMore([first], AfterRun(EMPTY, Telling(a, es), o), b, es');
    assert [first] + [Ingest(Telling(b, es'), o')] == [first, Ingest(Telling(b, es'), o')];
    db := AfterRun(AfterRun(EMPTY, Telling(a, es), o), Telling(b, es'), o');
  }

  lemma LeadsNowhere()
    ensures Leads(EMPTY, [], EMPTY)
  {
  }

  /** The first claim of the line, but due later: another version under the same id. */
  function Postponed(): Claim {
    LineClaim(0).(commitment := Some(Commitment(ABOUT_ID, None, Some(5), Open, None)))
  }

  /** Two histories of good runs, told the same, that believe differently. */
  lemma VersionsDiffer() returns (steps: seq<Step>, db: DB, steps': seq<Step>, db': DB)
    ensures Leads(EMPTY, steps, db) && GoodSteps(steps) && Leads(EMPTY, steps', db') && GoodSteps(steps')
    ensures Told(steps) == Told(steps')
    ensures var topic := Topic(LineClaim(0).statement);
            Believed(ClaimsOf(db), OWNER, topic) != Believed(ClaimsOf(db'), OWNER, topic)
  {
    var (a, b) := (LineClaim(0), Postponed());
    LineCanBeTold(0);
    PostponedCanBeTold();
    hide Leads, GoodSteps, Told, ClaimsOf, Believed, Topic, Tokens, CanTell, LineId;
    var o1, o2;
    o1, o2, db := TwoTellings(a, [SUBJECT], b, [SUBJECT]);
    steps := [Ingest(Telling(a, [SUBJECT]), o1), Ingest(Telling(b, [SUBJECT]), o2)];
    var o3, o4;
    o3, o4, db' := TwoTellings(b, [SUBJECT], a, [SUBJECT]);
    steps' := [Ingest(Telling(b, [SUBJECT]), o3), Ingest(Telling(a, [SUBJECT]), o4)];
    TwoVersionsDecide(a, b, [SUBJECT], [SUBJECT], o1, o2, db, o3, o4, db');
  }

  lemma PostponedCanBeTold()
    ensures CanTell(Postponed(), [SUBJECT])
  {
    assert SUBJECT in [SUBJECT];
  }

  // ---- a late arrival ----

  /** A reachable store that is told the older of two rivals last: the pair is the run's one report, no edge is
      written, and the older claim is superseded all the same. */
  lemma LateHappens() returns (db: DB, orders: seq<seq<seq<Id>>>)
    ensures Reachable(db) && CanRun(db, Telling(LineClaim(0), [SUBJECT]), orders)
    ensures var (run, after) :=
            (Telling(LineClaim(0), [SUBJECT]), AfterRun(db, Telling(LineClaim(0), [SUBJECT]), orders));
            && Reachable(after)
            && Supersessions(db, run, orders, 1) == [(LineId(1), LineId(0))]
            && Edge(LineId(1), Rel.Supersedes, LineId(0)) !in after.edges
            && LineId(0) in ClaimsOf(after) && ClaimsOf(after)[LineId(0)].status == Superseded
  {
    var (newer, older) := (LineClaim(1), LineClaim(0));
    LineCanBeTold(0);
    LineCanBeTold(1);
    LineRivals(1, 0, newer, older);
    LineRivals(0, 1, older, newer);
    LineIdsDiffer();
    NoLine();
    hide Reachable, Inv, GoodRun, AreBatchReads, AfterRun, CanTell, Rivals, ShareSubject, ClaimsOf, LineId;
    var first := TellingIsReachable(EMPTY, newer, [SUBJECT]);
    db := AfterRun(EMPTY, Telling(newer, [SUBJECT]), first);
    FirstTelling(newer, [SUBJECT], first);
    orders := TellingIsReachable(db, older, [SUBJECT]);
    NotHeldNotStored(db, older);
    LateRun(db, newer, older, [SUBJECT], orders);
  }

  lemma LineIdsDiffer()
    ensures LineId(0) != LineId(1)
  {
    assert |LineId(0)| == 4 && |LineId(1)| == 5;
  }

  lemma NotHeldNotStored(db: DB, c: Claim)
    requires Inv(db) && "clm_" <= c.id && c.id !in ClaimsOf(db)
    ensures c.id !in db.nodes
  {
    hide EdgesTell, Sound;
    if c.id in db.nodes {
      StoredIsClaim(db, c.id);
    }
  }

  // ---- a repeated claim ----

  /** Two records, of which the later makes its statement twice, as an extractor may. */
  function Repeating(): Run {
    Run(OWNER, [], [Candidate([SUBJECT], [], [LineClaim(0)]), Candidate([SUBJECT], [], [LineClaim(1), LineClaim(1)])],
        map[])
  }

  lemma RepeatingIsTellable()
    ensures Tellable(Repeating())
  {
    LineUnresolved(0);
    LineUnresolved(1);
    hide Unresolved;
    forall c | c in Repeating().candidates
      ensures Labelled(c) && SubjectsWithin(c) && forall q :: q in c.claims ==> Unresolved(q)
    {
      assert SUBJECT in c.entities;
      assert forall q :: q in c.claims ==> q == LineClaim(0) || q == LineClaim(1);
    }
  }

  /** An empty store answers every read with nothing. */
  function NoAnswers(n: nat): seq<seq<Id>> {
    seq(n, _ => [])
  }

  lemma NothingRead(claims: seq<Claim>)
    ensures AreReads(EMPTY, OWNER, claims, NoAnswers(|claims|))
  {
    forall i | 0 <= i < |claims| ensures IsRead(EMPTY, OWNER, claims[i], NoAnswers(|claims|)[i]) {
      assert ClaimsAboutIds(EMPTY, OWNER, claims[i].subjects) == {};
    }
  }

  /** What is pending once one candidate's claims have been resolved over an empty store. */
  ghost function Admitted(before: seq<Claim>, claims: seq<Claim>): seq<Claim> {
    NothingRead(claims);
    AdmitAll(EMPTY, OWNER, claims, NoAnswers(|claims|), START.(pending := before)).pending
  }

  lemma NothingAdmitted(before: seq<Claim>)
    ensures Admitted(before, []) == before
  {
  }

  /** There, a claim meets the pending ones only. */
  lemma AdmittedNext(before: seq<Claim>, claims: seq<Claim>, c: Claim)
    ensures var pending := Admitted(before, claims);
            Admitted(before, claims + [c]) == YieldAll(c, pending) + [MeetAll(c, pending)]
  {
    var (more, n) := (claims + [c], |claims|);
    NothingRead(more);
    NothingRead(claims);
    hide MeetAll, YieldAll, SupersessionsAll, ContradictionsAll, IsRead;
    assert more[..n] == claims && more[n] == c && NoAnswers(n + 1)[..n] == NoAnswers(n) && NoAnswers(n + 1)[n] == [];
    assert IsRead(EMPTY, OWNER, more[n], NoAnswers(n + 1)[n]);
    assert Hydrated(EMPTY, []) + Admitted(before, claims) == Admitted(before, claims);
  }

  lemma AdmittedOne(a: Claim)
    ensures Admitted([], [a]) == [a]
  {
    hide Admitted;
    NothingAdmitted([]);
    AdmittedNext([], [], a);
    assert [] + [a] == [a];
  }

  /** The first version supersedes the earlier claim. */
  lemma FirstMeets(a: Claim, b: Claim)
    requires a.status == Active && b.supersedes == [] && a.id != b.id && Rivals(a, b) && a.assertedAt < b.assertedAt
    ensures MeetAll(b, [a]) == b.(supersedes := [a.id]) && YieldAll(b, [a]) == [a.(status := Superseded)]
  {
    hide Rivals;
    assert [a][..0] == [];
    assert Engages(b, a);
  }

  lemma AdmittedTwo(a: Claim, b: Claim)
    requires a.status == Active && b.supersedes == [] && a.id != b.id && Rivals(a, b) && a.assertedAt < b.assertedAt
    ensures Admitted([a], [b]) == [a.(status := Superseded), b.(supersedes := [a.id])]
  {
    hide Admitted, Rivals, MeetAll, YieldAll;
    NothingAdmitted([a]);
    AdmittedNext([a], [], b);
    FirstMeets(a, b);
    assert [] + [b] == [b];
  }

  /** The second meets it superseded, and its own first version, and lists nothing. */
  lemma SecondMeets(was: Claim, first: Claim, b: Claim)
    requires was.status == Superseded && first.id == b.id
    ensures MeetAll(b, [was, first]) == b && YieldAll(b, [was, first]) == [was, first]
  {
    assert !Engages(b, was) && !Engages(b, first);
    hide Engages;
    assert [was, first][..1] == [was] && [was][..0] == [];
    assert MeetAll(b, [was]) == Meet(MeetAll(b, []), was) == b;
  }

  lemma RepeatAdmitted(a: Claim, b: Claim)
    requires a.status == Active && b.supersedes == [] && a.id != b.id && Rivals(a, b) && a.assertedAt < b.assertedAt
    ensures Admitted([a], [b, b]) == [a.(status := Superseded), b.(supersedes := [a.id]), b]
  {
    hide Admitted, Rivals, MeetAll, YieldAll;
    var (was, first) := (a.(status := Superseded), b.(supersedes := [a.id]));
    AdmittedTwo(a, b);
    AdmittedNext([a], [b], b);
    SecondMeets(was, first, b);
    assert [b] + [b] == [b, b];
  }

  lemma TwoCandidates(some: seq<Claim>, others: seq<Claim>, orders: seq<seq<seq<Id>>>)
    requires orders == [NoAnswers(|some|), NoAnswers(|others|)]
    ensures AreBatchReads(EMPTY, OWNER, [some, others], orders)
    ensures PendingAfter(EMPTY, OWNER, [some, others], orders) == Admitted(Admitted([], some), others)
  {
    NothingRead(some);
    NothingRead(others);
    hide AdmitAll, AreReads, NoAnswers;
    var batch := [some, others];
    assert batch[..1] == [some] && orders[..1] == [NoAnswers(|some|)];
    assert batch[..1][..0] == [] && orders[..1][..0] == [];
    assert AreBatchReads(EMPTY, OWNER, batch, orders);
    assert PendingAfter(EMPTY, OWNER, batch[..1][..0], orders[..1][..0]) == [];
    assert PendingAfter(EMPTY, OWNER, batch[..1], orders[..1]) == Admitted([], some);
  }

  /** The pending list of the repeating run: the second version lists nothing. */
  function RepeatPending(): seq<Claim> {
    var (a, b) := (LineClaim(0), LineClaim(1));
    [a.(status := Superseded), b.(supersedes := [a.id]), b]
  }

  lemma RepeatingIs()
    ensures Repeating().owner == OWNER
    ensures ClaimBatch(Repeating().candidates) == [[LineClaim(0)], [LineClaim(1), LineClaim(1)]]
  {
    hide LineClaim;
  }

  lemma RepeatingCanBeMade(orders: seq<seq<seq<Id>>>)
    requires orders == [NoAnswers(1), NoAnswers(2)]
    ensures CanWrite(EMPTY, Repeating(), orders)
  {
    RepeatingIsTellable();
    EmptyIsSound();
    assert EndsStored(EMPTY);
    RepeatingIs();
    hide Tellable, Repeating, LineClaim, AreBatchReads, NoAnswers, Indexed;
    TwoCandidates([LineClaim(0)], [LineClaim(1), LineClaim(1)], orders);
  }

  lemma FirstTwoRival()
    ensures var (a, b) := (LineClaim(0), LineClaim(1));
            a.status == Active && b.supersedes == [] && a.id != b.id && Rivals(a, b) && a.assertedAt < b.assertedAt
  {
    LineIdsDiffer();
    LineRivals(0, 1, LineClaim(0), LineClaim(1));
    hide Rivals, LineId;
  }

  lemma RepeatResolved(orders: seq<seq<seq<Id>>>)
    requires orders == [NoAnswers(1), NoAnswers(2)] && CanWrite(EMPTY, Repeating(), orders)
    ensures Resolved(EMPTY, Repeating(), orders) == RepeatPending()
  {
    var (a, b) := (LineClaim(0), LineClaim(1));
    FirstTwoRival();
    RepeatingIs();
    hide Repeating, LineId, Rivals, Tellable, LineClaim, AreBatchReads, PendingAfter, Admitted, NoAnswers, Indexed,
      EndsStored;
    TwoCandidates([a], [b, b], orders);
    AdmittedOne(a);
    RepeatAdmitted(a, b);
  }

  lemma RepeatWritten(after: DB)
    requires Holding(EMPTY, after, RepeatPending(), 3)
    ensures Edge(LineId(1), Rel.Supersedes, LineId(0)) in after.edges
    ensures LineId(1) in ClaimsOf(after) && ClaimsOf(after)[LineId(1)].supersedes == [] && !EdgesTell(after)
  {
    var (e, resolved) := (Edge(LineId(1), Rel.Supersedes, LineId(0)), RepeatPending());
    assert resolved[..3] == resolved;
    hide ClaimsOf, Recorded, Indexed, LineId;
    assert Names(resolved[1], e) && Speaks(e);
    assert NamedBy(resolved, 3, e);
    LastIsRecorded(ClaimsOf(EMPTY), resolved, 2);
  }

  /** Repeating a claim id can undo the record: the SUPERSEDES edge the first version wrote stays, the list that
      said so is overwritten by the second version's empty one. */
  lemma RepeatLosesItsList() returns (orders: seq<seq<seq<Id>>>)
    ensures CanWrite(EMPTY, Repeating(), orders)
    ensures var after := AfterRun(EMPTY, Repeating(), orders);
            && Edge(LineId(1), Rel.Supersedes, LineId(0)) in after.edges
            && LineId(1) in ClaimsOf(after) && ClaimsOf(after)[LineId(1)].supersedes == []
            && !EdgesTell(after)
  {
    orders := [NoAnswers(1), NoAnswers(2)];
    RepeatingCanBeMade(orders);
    RepeatResolved(orders);
    hide CanWrite, Holding, AfterRun, Repeating, NoAnswers, Resolved, ClaimsOf, EdgesTell, LineId;
    RunRecords(EMPTY, Repeating(), orders);
    RepeatWritten(AfterRun(EMPTY, Repeating(), orders));
  }
}
