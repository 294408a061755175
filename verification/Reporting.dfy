/** Reported supersessions and SUPERSEDES edges: the converse of late arrivals. */
module Reporting {
  import opened Schema
  import opened Store
  import opened Resolver
  import opened Ledger
  import opened Ingestion
  import opened Writing
  import opened Runs
  import opened Histories
  import opened LateArrivals
  import opened Contradictions

  /** Whatever a pending claim supersedes is reported. */
  ghost predicate TimelyReported(cs: Claims, batch: seq<Claim>, reports: seq<(Id, Id)>) {
    forall pair :: Timely(cs, batch, pair) ==> pair in reports
  }

  lemma {:induction false} BeatsAreReported(sofar: seq<(Id, Id)>, c: Claim, others: seq<Claim>, pair: (Id, Id))
    requires pair in sofar || (pair.0 == c.id && Beats(c, others, pair.1))
    ensures pair in SupersessionsAll(sofar, c, others)
  {
    hide Engages, Beats;
    if others != [] && pair !in sofar {
      EncountersSplit(c, others, pair.1);
      if Beats(c, others[..|others| - 1], pair.1) {
        BeatsAreReported(sofar, c, others[..|others| - 1], pair);
      }
    } else if others == [] && pair !in sofar {
      NothingBeaten(c, pair.1);
    } else if pair in sofar && others != [] {
      BeatsAreReported(sofar, c, others[..|others| - 1], pair);
    }
  }

  lemma NothingBeaten(c: Claim, s: Id)
    ensures !Beats(c, [], s)
  {
  }

  lemma TimelySnoc(cs: Claims, c: Claim, batch: seq<Claim>, q: Claim, pair: (Id, Id))
    requires Timely(cs, YieldAll(c, batch) + [q], pair)
    ensures Timely(cs, batch, pair) || (q.id == pair.0 && pair.1 in q.supersedes)
  {
    hide Engages;
    var after := YieldAll(c, batch) + [q];
    assert forall i :: 0 <= i < |batch| ==> after[i].id == batch[i].id && after[i].supersedes == batch[i].supersedes;
    var m :| 0 <= m < |after| && after[m].id == pair.0 && pair.1 in after[m].supersedes;
    if m < |batch| {
      assert batch[m].id == pair.0 && pair.1 in batch[m].supersedes;
    }
  }

  lemma ConfrontReports(cs: Claims, batch: seq<Claim>, c: Claim, stored: seq<Claim>, before: seq<(Id, Id)>,
                        reports: seq<(Id, Id)>)
    requires Unresolved(c) && TimelyReported(cs, batch, before + reports)
    ensures TimelyReported(cs, YieldAll(c, batch) + [MeetAll(c, stored + batch)],
                           before + SupersessionsAll(reports, c, stored + batch))
  {
    var (others, q) := (stored + batch, MeetAll(c, stored + batch));
    MeetAllMeans(c, others);
    hide MeetAll, Beats, Timely, Unresolved;
    forall pair | Timely(cs, YieldAll(c, batch) + [q], pair)
      ensures pair in before + SupersessionsAll(reports, c, others)
    {
      TimelySnoc(cs, c, batch, q, pair);
      if pair !in before {
        BeatsAreReported(reports, c, others, pair);
      }
    }
  }

  lemma {:induction false} AdmitAllReports(db: DB, owner: string, claims: seq<Claim>, orders: seq<seq<Id>>,
                                           p: Progress, before: seq<(Id, Id)>)
    requires AreReads(db, owner, claims, orders) && (forall c :: c in claims ==> Unresolved(c))
    requires TimelyReported(ClaimsOf(db), p.pending, before + p.supersessions)
    ensures var after := AdmitAll(db, owner, claims, orders, p);
            TimelyReported(ClaimsOf(db), after.pending, before + after.supersessions)
  {
    hide TimelyReported, IsRead, Unresolved, YieldAll, MeetAll, SupersessionsAll, ClaimsOf;
    if claims != [] {
      var n := |claims| - 1;
      var q := AdmitAll(db, owner, claims[..n], orders[..n], p);
      AdmitAllReports(db, owner, claims[..n], orders[..n], p, before);
      assert claims[n] in claims && IsRead(db, owner, claims[n], orders[n]);
      if claims[n].id !in db.nodes {
        OrderIsClaims(db, owner, claims[n], orders[n]);
        ConfrontReports(ClaimsOf(db), q.pending, claims[n], Hydrated(db, orders[n]), before, q.supersessions);
      }
    }
  }

  lemma NothingTimely(db: DB, run: Run, orders: seq<seq<seq<Id>>>)
    requires CanRun(db, run, orders)
    ensures TimelyReported(ClaimsOf(db), PendingUpTo(db, run, orders, 0), Supersessions(db, run, orders, 0))
  {
    hide Inv, GoodRun, AreReads, AdmitAll, Reported, ClaimsOf;
    assert PendingUpTo(db, run, orders, 0) == [];
  }

  lemma {:induction false} RunReports(db: DB, run: Run, orders: seq<seq<seq<Id>>>, n: nat)
    requires CanRun(db, run, orders) && n <= |run.candidates|
    ensures TimelyReported(ClaimsOf(db), PendingUpTo(db, run, orders, n), Supersessions(db, run, orders, n))
  {
    hide Inv, GoodRun, PendingUpTo, AdmitAll, Reported, TimelyReported, AreReads, IdsIn, Writable, ClaimsOf;
    if n == 0 {
      NothingTimely(db, run, orders);
    } else {
      RunReports(db, run, orders, n - 1);
      TurnComes(db, run, orders, n - 1);
      var (batch, before) := (ClaimBatch(run.candidates), Supersessions(db, run, orders, n - 1));
      ExtractedIsUnresolved(run.owner, batch[n - 1]);
      assert before + [] == before;
      AdmitAllReports(db, run.owner, batch[n - 1], orders[n - 1],
                      START.(pending := PendingUpTo(db, run, orders, n - 1)), before);
    }
  }

  /** A pending claim's edge is there afterwards only if the claim lists the target. */
  lemma EdgeWasListed(cs: Claims, db: DB, owner: string, batch: seq<Claim>, after: DB, pair: (Id, Id))
    requires IsBatch(cs, owner, batch) && EdgesTell(db) && ClaimsOf(db) == cs
    requires EdgesTell(after) && ClaimsOf(after) == Recorded(cs, batch)
    requires Edge(pair.0, Rel.Supersedes, pair.1) in after.edges && Edge(pair.0, Rel.Supersedes, pair.1) !in db.edges
    ensures Timely(cs, batch, pair)
  {
    RecordedLists(cs, owner, batch, pair.0, pair.1);
    SupersedesEdge(after, pair);
    SupersedesEdge(db, pair);
  }

  lemma SupersedesEdge(db: DB, pair: (Id, Id))
    requires EdgesTell(db)
    ensures Edge(pair.0, Rel.Supersedes, pair.1) in db.edges <==>
              pair.0 in ClaimsOf(db) && pair.1 in ClaimsOf(db)[pair.0].supersedes
  {
    hide ClaimsOf;
  }

  /** The SUPERSEDES edges a run adds are exactly the supersessions it reports whose superseded claim was known
      before the superseding one was resolved. */
  lemma ReportedSupersessionsAreEdges(db: DB, run: Run, orders: seq<seq<seq<Id>>>, pair: (Id, Id))
    requires CanRun(db, run, orders)
    ensures var (edge, pending, after) :=
              (Edge(pair.0, Rel.Supersedes, pair.1), Pending(db, run, orders), AfterRun(db, run, orders));
            && (edge in db.edges ==> edge in after.edges)
            && (edge in after.edges && edge !in db.edges <==>
                  pair in Supersessions(db, run, orders, |run.candidates|)
                  && exists m :: 0 <= m < |pending| && pending[m].id == pair.0
                                 && KnownBefore(ClaimsOf(db), pending, m, pair.1))
  {
    var (n, batch) := (|run.candidates|, ClaimBatch(run.candidates));
    var (pending, after) := (Pending(db, run, orders), AfterRun(db, run, orders));
    assert batch[..n] == batch && orders[..n] == orders;
    RunReports(db, run, orders, n);
    RunKeepsInv(db, run, orders);
    PendingIsWritable(db, run.owner, batch, orders);
    assert PendingUpTo(db, run, orders, n) == pending;
    hide PendingAfter, AreBatchReads, GoodRun, AfterRun, Supersessions, EdgesTell, ClaimsOf, Recorded, Timely,
      PendingUpTo, KnownBefore, TargetsPrecede;
    SupersedesEdge(db, pair);
    SupersedesEdge(after, pair);
    RecordedLists(ClaimsOf(db), run.owner, pending, pair.0, pair.1);
    if pair in Supersessions(db, run, orders, n) {
      ReportedPairLinked(db, run, orders, pair);
    }
    if Edge(pair.0, Rel.Supersedes, pair.1) in after.edges && Edge(pair.0, Rel.Supersedes, pair.1) !in db.edges {
      EdgeWasListed(ClaimsOf(db), db, run.owner, pending, after, pair);
    }
  }
}
