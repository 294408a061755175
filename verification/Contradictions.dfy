/** Reported contradictions: unlike late supersessions, each of them becomes an edge. */
module Contradictions {
  import opened Schema
  import opened Store
  import opened Resolver
  import opened Ledger
  import opened Ingestion
  import opened Writing
  import opened Runs
  import opened Histories
  import opened LateArrivals

  /** A pending claim names the conflicting one. */
  ghost predicate Lists(batch: seq<Claim>, pair: (Id, Id)) {
    exists m :: 0 <= m < |batch| && batch[m].id == pair.0 && pair.1 in batch[m].contradicts
  }

  /** The reports are exactly what the pending claims list. */
  ghost predicate ReportsListed(batch: seq<Claim>, reports: seq<(Id, Id)>) {
    forall pair :: pair in reports <==> Lists(batch, pair)
  }

  lemma {:induction false} ReportsTie(sofar: seq<(Id, Id)>, c: Claim, others: seq<Claim>, pair: (Id, Id))
    ensures pair in ContradictionsAll(sofar, c, others) <==>
              pair in sofar || (pair.0 == c.id && Ties(c, others, pair.1))
  {
    hide Engages;
    if others != [] {
      ReportsTie(sofar, c, others[..|others| - 1], pair);
      EncountersSplit(c, others, pair.1);
    }
  }

  lemma ListsSnoc(c: Claim, batch: seq<Claim>, q: Claim, pair: (Id, Id))
    ensures Lists(YieldAll(c, batch) + [q], pair) <==> Lists(batch, pair) || (q.id == pair.0 && pair.1 in q.contradicts)
  {
    hide Engages;
    var after := YieldAll(c, batch) + [q];
    assert forall i :: 0 <= i < |batch| ==> after[i].id == batch[i].id && after[i].contradicts == batch[i].contradicts;
    assert after[|batch|] == q;
    if Lists(batch, pair) {
      var m :| 0 <= m < |batch| && batch[m].id == pair.0 && pair.1 in batch[m].contradicts;
      assert after[m].id == pair.0;
    }
  }

  lemma ConfrontLists(batch: seq<Claim>, c: Claim, stored: seq<Claim>, before: seq<(Id, Id)>, reports: seq<(Id, Id)>)
    requires Unresolved(c) && ReportsListed(batch, before + reports)
    ensures ReportsListed(YieldAll(c, batch) + [MeetAll(c, stored + batch)],
                          before + ContradictionsAll(reports, c, stored + batch))
  {
    var (others, q) := (stored + batch, MeetAll(c, stored + batch));
    MeetAllMeans(c, others);
    hide MeetAll, Ties, Lists, Unresolved;
    forall pair ensures pair in before + ContradictionsAll(reports, c, others) <==>
        Lists(YieldAll(c, batch) + [q], pair) {
      ReportsTie(reports, c, others, pair);
      ListsSnoc(c, batch, q, pair);
      assert pair in before + reports <==> pair in before || pair in reports;
    }
  }

  lemma {:induction false} AdmitAllLists(db: DB, owner: string, claims: seq<Claim>, orders: seq<seq<Id>>, p: Progress,
                                         before: seq<(Id, Id)>)
    requires AreReads(db, owner, claims, orders) && (forall c :: c in claims ==> Unresolved(c))
    requires ReportsListed(p.pending, before + p.contradictions)
    ensures var after := AdmitAll(db, owner, claims, orders, p);
            ReportsListed(after.pending, before + after.contradictions)
  {
    hide ReportsListed, IsRead, Unresolved, YieldAll, MeetAll, ContradictionsAll;
    if claims != [] {
      var n := |claims| - 1;
      var q := AdmitAll(db, owner, claims[..n], orders[..n], p);
      AdmitAllLists(db, owner, claims[..n], orders[..n], p, before);
      assert claims[n] in claims && IsRead(db, owner, claims[n], orders[n]);
      if claims[n].id !in db.nodes {
        OrderIsClaims(db, owner, claims[n], orders[n]);
        ConfrontLists(q.pending, claims[n], Hydrated(db, orders[n]), before, q.contradictions);
      }
    }
  }

  lemma OrderIsClaims(db: DB, owner: string, c: Claim, order: seq<Id>)
    requires IsRead(db, owner, c, order) && c.id !in db.nodes
    ensures forall i :: 0 <= i < |order| ==> HasClaim(db, order[i])
  {
  }

  lemma NothingListed(db: DB, run: Run, orders: seq<seq<seq<Id>>>)
    requires CanRun(db, run, orders)
    ensures PendingUpTo(db, run, orders, 0) == [] && ReportsListed([], Contradictions(db, run, orders, 0))
  {
    hide Inv, GoodRun, AreReads, AdmitAll, Reported;
    assert PendingUpTo(db, run, orders, 0) == [];
  }

  lemma {:induction false} RunLists(db: DB, run: Run, orders: seq<seq<seq<Id>>>, n: nat)
    requires CanRun(db, run, orders) && n <= |run.candidates|
    ensures ReportsListed(PendingUpTo(db, run, orders, n), Contradictions(db, run, orders, n))
  {
    hide Inv, GoodRun, PendingUpTo, AdmitAll, Reported, ReportsListed, AreReads, IdsIn, Writable;
    if n == 0 {
      NothingListed(db, run, orders);
    } else {
      RunLists(db, run, orders, n - 1);
      TurnComes(db, run, orders, n - 1);
      var (batch, before) := (ClaimBatch(run.candidates), Contradictions(db, run, orders, n - 1));
      ExtractedIsUnresolved(run.owner, batch[n - 1]);
      assert before + [] == before;
      AdmitAllLists(db, run.owner, batch[n - 1], orders[n - 1], START.(pending := PendingUpTo(db, run, orders, n - 1)),
                    before);
    }
  }

  lemma ExtractedIsUnresolved(owner: string, claims: seq<Claim>)
    requires Extracted(owner, claims)
    ensures forall c :: c in claims ==> Unresolved(c)
  {
  }

  /** A recorded claim still names what it named. */
  lemma RecordedNames(cs: Claims, owner: string, batch: seq<Claim>, pair: (Id, Id))
    requires IsBatch(cs, owner, batch)
    ensures pair.0 in Recorded(cs, batch) && pair.1 in Recorded(cs, batch)[pair.0].contradicts
       <==> (pair.0 in cs && pair.1 in cs[pair.0].contradicts) || Lists(batch, pair)
    ensures !(pair.0 in cs && Lists(batch, pair))
  {
    RecordedMeans(cs, owner, batch);
    hide Recorded;
    var now := Recorded(cs, batch);
    if pair.0 in now && pair.0 !in cs {
      var m :| 0 <= m < |batch| && batch[m].id == pair.0;
      assert now[pair.0].contradicts == batch[m].contradicts;
    }
  }

  lemma EdgeNames(db: DB, cs: Claims, pair: (Id, Id))
    requires EdgesTell(db) && cs == ClaimsOf(db)
    ensures Edge(pair.0, Rel.Contradicts, pair.1) in db.edges <==> pair.0 in cs && pair.1 in cs[pair.0].contradicts
  {
    hide ClaimsOf;
  }

  /** The CONTRADICTS edges a run adds are exactly the contradictions it reports, in that direction. */
  lemma ReportedContradictionsAreEdges(db: DB, run: Run, orders: seq<seq<seq<Id>>>, pair: (Id, Id))
    requires CanRun(db, run, orders)
    ensures var edge := Edge(pair.0, Rel.Contradicts, pair.1);
            && (edge in db.edges ==> edge in AfterRun(db, run, orders).edges)
            && (pair in Contradictions(db, run, orders, |run.candidates|) <==>
                  edge in AfterRun(db, run, orders).edges && edge !in db.edges)
  {
    var (n, batch) := (|run.candidates|, ClaimBatch(run.candidates));
    assert batch[..n] == batch && orders[..n] == orders;
    RunLists(db, run, orders, n);
    RunKeepsInv(db, run, orders);
    PendingIsWritable(db, run.owner, batch, orders);
    assert PendingUpTo(db, run, orders, n) == Pending(db, run, orders);
    hide PendingAfter, AreBatchReads, GoodRun, AfterRun, Contradictions, EdgesTell, ClaimsOf, Recorded, Lists,
        PendingUpTo;
    RecordedNames(ClaimsOf(db), run.owner, Pending(db, run, orders), pair);
    EdgeNames(db, ClaimsOf(db), pair);
    EdgeNames(AfterRun(db, run, orders), ClaimsOf(AfterRun(db, run, orders)), pair);
  }
}
