/** Ingesting the same records again, and keeping sensitive bodies out. */
module Reruns {
  import opened Basics
  import opened Schema
  import opened Store
  import opened Resolver
  import opened Ledger
  import opened Ingestion
  import opened Writing
  import opened Runs
  import opened Beliefs
  import opened AnyRuns

  // ---- a batch that is already stored ----

  ghost predicate AllStored(db: DB, claims: seq<Claim>) {
    forall c :: c in claims ==> c.id in db.nodes
  }

  /** Stored claims are duplicates: nothing becomes pending, nothing is reported. */
  lemma {:induction false} StoredAreDuplicates(db: DB, owner: string, claims: seq<Claim>, orders: seq<seq<Id>>,
                                               p: Progress)
    requires AreReads(db, owner, claims, orders) && AllStored(db, claims)
    ensures var after := AdmitAll(db, owner, claims, orders, p);
            && after.pending == p.pending && after.supersessions == p.supersessions
               && after.contradictions == p.contradictions
            && after.duplicates == p.duplicates + seq(|claims|, i requires 0 <= i < |claims| => claims[i].id)
  {
    if claims != [] {
      StoredAreDuplicates(db, owner, claims[..|claims| - 1], orders[..|claims| - 1], p);
    }
  }

  ghost predicate BatchStored(db: DB, batch: seq<seq<Claim>>) {
    forall k :: 0 <= k < |batch| ==> AllStored(db, batch[k])
  }

  lemma {:induction false} NothingPends(db: DB, owner: string, batch: seq<seq<Claim>>, orders: seq<seq<seq<Id>>>)
    requires AreBatchReads(db, owner, batch, orders) && BatchStored(db, batch)
    ensures PendingAfter(db, owner, batch, orders) == []
  {
    hide AdmitAll, AreReads;
    if batch != [] {
      var n := |batch| - 1;
      NothingPends(db, owner, batch[..n], orders[..n]);
      StoredAreDuplicates(db, owner, batch[n], orders[n], START);
    }
  }

  lemma {:induction false} NothingReported(db: DB, run: Run, orders: seq<seq<seq<Id>>>, n: nat)
    requires AreBatchReads(db, run.owner, ClaimBatch(run.candidates), orders)
             && BatchStored(db, ClaimBatch(run.candidates))
    requires n <= |run.candidates|
    ensures Supersessions(db, run, orders, n) == [] && Contradictions(db, run, orders, n) == []
  {
    hide AdmitAll, AreReads;
    if n > 0 {
      var batch := ClaimBatch(run.candidates);
      NothingReported(db, run, orders, n - 1);
      StoredAreDuplicates(db, run.owner, batch[n - 1], orders[n - 1],
                          START.(pending := PendingAfter(db, run.owner, batch[..n - 1], orders[..n - 1])));
    }
  }

  // ---- idempotence ----

  /** The same records extracted again: the same ids, whatever the timestamps, and the same seal outcomes. */
  ghost predicate SameCandidate(a: Candidate, b: Candidate) {
    && |a.entities| == |b.entities| && (forall i :: 0 <= i < |a.entities| ==> a.entities[i].id == b.entities[i].id)
    && |a.events| == |b.events|
    && (forall i :: 0 <= i < |a.events| ==>
          a.events[i].id == b.events[i].id && a.events[i].source.externalId == b.events[i].source.externalId)
    && |a.claims| == |b.claims| && (forall i :: 0 <= i < |a.claims| ==> a.claims[i].id == b.claims[i].id)
  }

  ghost predicate SameRun(a: Run, b: Run) {
    && a.records == b.records && a.seals.Keys == b.seals.Keys
    && |a.candidates| == |b.candidates|
    && forall k :: 0 <= k < |a.candidates| ==> SameCandidate(a.candidates[k], b.candidates[k])
  }

  lemma SameCandidateSameIds(a: Candidate, b: Candidate, records: seq<RawRecord>, s: map<string, SealRef>,
                             s': map<string, SealRef>)
    requires SameCandidate(a, b) && s.Keys == s'.Keys
    ensures (set e | e in b.entities :: e.id) <= (set e | e in a.entities :: e.id)
    ensures WrittenEventIds(b.events, records, s') <= WrittenEventIds(a.events, records, s)
  {
    forall e | e in b.entities ensures exists x :: x in a.entities && x.id == e.id {
      var i :| 0 <= i < |b.entities| && b.entities[i] == e;
      assert a.entities[i] in a.entities;
    }
    forall e | e in b.events && !IsSkipped(e, records, s') ensures e.id in WrittenEventIds(a.events, records, s) {
      var i :| 0 <= i < |b.events| && b.events[i] == e;
      assert a.events[i] in a.events && !IsSkipped(a.events[i], records, s);
    }
  }

  lemma {:induction false} SameRunSameIds(a: seq<Candidate>, b: seq<Candidate>, records: seq<RawRecord>,
                                          s: map<string, SealRef>, s': map<string, SealRef>)
    requires |a| == |b| && (forall k :: 0 <= k < |a| ==> SameCandidate(a[k], b[k])) && s.Keys == s'.Keys
    ensures OtherIds(b, records, s') <= OtherIds(a, records, s)
  {
    hide SameCandidate, WrittenEventIds;
    if a != [] {
      var n := |a| - 1;
      SameRunSameIds(a[..n], b[..n], records, s, s');
      SameCandidateSameIds(a[n], b[n], records, s, s');
    }
  }

  lemma {:induction false} NoClaimIds(cs: seq<Candidate>)
    requires forall k :: 0 <= k < |cs| ==> cs[k].claims == []
    ensures ClaimIds(cs) == {}
  {
    if cs != [] {
      NoClaimIds(cs[..|cs| - 1]);
      assert IdsIn([]) == {};
    }
  }

  /** Without claims of its own a candidate leaves the ledger alone. */
  lemma {:induction false} ClaimlessLeaveClaims(db: DB, cs: seq<Candidate>, records: seq<RawRecord>,
                                                sealed: map<string, SealRef>)
    requires Indexed(db) && forall c :: c in cs ==> Labelled(c) && c.claims == []
    ensures ClaimsUntouched(db, CandidatesWritten(db, cs, records, sealed))
  {
    hide Indexed, Labelled, ClaimsUntouched, CandidateWritten;
    if cs != [] {
      var n := |cs| - 1;
      var before := CandidatesWritten(db, cs[..n], records, sealed);
      ClaimlessLeaveClaims(db, cs[..n], records, sealed);
      UntouchedKeeps(db, before);
      ClaimlessLeavesClaims(before, cs[n], records, sealed);
      UntouchedThen(db, before, CandidateWritten(before, cs[n], records, sealed));
    } else {
      UntouchedSelf(db);
    }
  }

  lemma UntouchedKeeps(db: DB, after: DB)
    requires ClaimsUntouched(db, after) && Indexed(db)
    ensures Indexed(after) && ClaimsOf(after) == ClaimsOf(db)
  {
  }

  lemma UntouchedSelf(db: DB)
    ensures ClaimsUntouched(db, db)
  {
  }

  lemma ClaimlessLeavesClaims(db: DB, c: Candidate, records: seq<RawRecord>, sealed: map<string, SealRef>)
    requires Indexed(db) && Labelled(c) && c.claims == []
    ensures ClaimsUntouched(db, CandidateWritten(db, c, records, sealed))
  {
    var named := EntitiesWritten(db, c.entities);
    EntitiesLeaveClaims(db, c.entities);
    UntouchedKeeps(db, named);
    EventsLeaveClaims(named, c.events, records, sealed);
    hide Indexed, ClaimsUntouched, EntitiesWritten, EventsWritten;
    UntouchedThen(db, named, EventsWritten(named, c.events, records, sealed));
  }

  lemma SameClaimsSameRows(db: DB, after: DB)
    requires Indexed(db) && Indexed(after) && ClaimsOf(after) == ClaimsOf(db)
    ensures forall id :: HasClaim(db, id) <==> HasClaim(after, id)
    ensures forall id :: HasClaim(db, id) ==> id in after.nodes && after.nodes[id] == db.nodes[id]
  {
    forall id ensures HasClaim(db, id) <==> HasClaim(after, id) {
      assert HasClaim(db, id) <==> id in ClaimsOf(db);
      assert HasClaim(after, id) <==> id in ClaimsOf(after);
    }
    forall id | HasClaim(db, id) ensures id in after.nodes && after.nodes[id] == db.nodes[id] {
      assert id in ClaimsOf(db) && id in ClaimsOf(after) && ClaimsOf(after)[id] == ClaimsOf(db)[id];
    }
  }

  /** Nothing is resolved, reported or added, and every claim's row is as it was. */
  ghost predicate IsQuiet(db: DB, run: Run, orders: seq<seq<seq<Id>>>)
    requires AreBatchReads(db, run.owner, ClaimBatch(run.candidates), orders)
  {
    var after := AfterRun(db, run, orders);
    && PendingAfter(db, run.owner, ClaimBatch(run.candidates), orders) == []
    && Supersessions(db, run, orders, |run.candidates|) == []
    && Contradictions(db, run, orders, |run.candidates|) == []
    && after.nodes.Keys == db.nodes.Keys
    && (forall id :: HasClaim(db, id) <==> HasClaim(after, id))
    && (forall id :: HasClaim(db, id) ==> id in after.nodes && after.nodes[id] == db.nodes[id])
    && (forall e :: Speaks(e) ==> (e in after.edges <==> e in db.edges))
  }

  lemma NoClaimsResolved(db: DB, run: Run, orders: seq<seq<seq<Id>>>)
    requires AllLabelled(run) && AreBatchReads(db, run.owner, ClaimBatch(run.candidates), orders)
    requires PendingAfter(db, run.owner, ClaimBatch(run.candidates), orders) == []
    ensures ClaimIds(ResolvedCandidates(db, run, orders)) == {}
    ensures forall c :: c in ResolvedCandidates(db, run, orders) ==> Labelled(c) && c.claims == []
  {
    hide PendingAfter, AreReads, Offset, SliceOf, Labelled, SubjectsWithin, SaidAmong;
    var cs := ResolvedCandidates(db, run, orders);
    forall k | 0 <= k < |cs| ensures Labelled(cs[k]) && cs[k].claims == [] {
      assert run.candidates[k] in run.candidates;
      assert cs[k].claims == SliceOf(db, run, orders, k);
      SliceIsStretch(db, run, orders, k);
      ResolvedStaysGood(db, run, orders, k);
    }
    hide ResolvedCandidates, AreBatchReads;
    NoClaimIds(cs);
  }

  lemma KnownLeavesClaims(db: DB, run: Run, orders: seq<seq<seq<Id>>>)
    requires Indexed(db) && AllLabelled(run) && AreBatchReads(db, run.owner, ClaimBatch(run.candidates), orders)
    requires PendingAfter(db, run.owner, ClaimBatch(run.candidates), orders) == []
    ensures ClaimsUntouched(db, AfterRun(db, run, orders))
  {
    NoClaimsResolved(db, run, orders);
    hide Indexed, AreBatchReads, AllLabelled, Labelled, ResolvedCandidates, PendingAfter, ClaimsUntouched;
    ClaimlessLeaveClaims(db, ResolvedCandidates(db, run, orders), run.records, Sealed(run.records, run.seals));
  }

  lemma KnownAddsNoNode(db: DB, run: Run, orders: seq<seq<seq<Id>>>)
    requires AllLabelled(run) && AreBatchReads(db, run.owner, ClaimBatch(run.candidates), orders)
    requires PendingAfter(db, run.owner, ClaimBatch(run.candidates), orders) == []
    requires OtherIds(run.candidates, run.records, Sealed(run.records, run.seals)) <= db.nodes.Keys
    ensures AfterRun(db, run, orders).nodes.Keys == db.nodes.Keys
  {
    NoClaimsResolved(db, run, orders);
    hide AreBatchReads, AllLabelled, ResolvedCandidates, PendingAfter, AfterRun, OtherIds, ClaimIds;
    RunWritesOthers(db, run, orders);
  }

  /** Ingesting again what the store already has, whatever that is: no new claim, nothing reported, no node
      added, and every claim's row and telling edges as they were. */
  lemma KnownRunIsQuiet(db: DB, run: Run, orders: seq<seq<seq<Id>>>)
    requires Indexed(db) && AllLabelled(run) && AreBatchReads(db, run.owner, ClaimBatch(run.candidates), orders)
    requires BatchStored(db, ClaimBatch(run.candidates))
    requires OtherIds(run.candidates, run.records, Sealed(run.records, run.seals)) <= db.nodes.Keys
    ensures IsQuiet(db, run, orders)
  {
    var after := AfterRun(db, run, orders);
    hide Indexed, AllLabelled, AfterRun, AreBatchReads, OtherIds, PendingAfter, Supersessions, Contradictions, ClaimsOf,
      HasClaim, BatchStored;
    NothingPends(db, run.owner, ClaimBatch(run.candidates), orders);
    NothingReported(db, run, orders, |run.candidates|);
    KnownAddsNoNode(db, run, orders);
    KnownLeavesClaims(db, run, orders);
    UntouchedKeeps(db, after);
    SameClaimsSameRows(db, after);
  }

  /** Idempotence: after any run and anything since -- other runs, fulfilment changes -- ingesting
      the same records with the same seal outcomes adds no node, no claim and no report, and leaves
      every claim's payload and columns alone, so what happened in between survives. */
  lemma RerunIsQuiet(db: DB, run: Run, orders: seq<seq<seq<Id>>>, steps: seq<Step>, later: DB, again: Run,
                     orders': seq<seq<seq<Id>>>)
    requires Indexed(db) && AllLabelled(run) && AreBatchReads(db, run.owner, ClaimBatch(run.candidates), orders)
    requires Leads(AfterRun(db, run, orders), steps, later)
    requires SameRun(run, again) && AllLabelled(again)
             && AreBatchReads(later, again.owner, ClaimBatch(again.candidates), orders')
    ensures IsQuiet(later, again, orders')
  {
    var first := AfterRun(db, run, orders);
    AnyRunSaysOnly(db, run, orders);
    LedgerIsTold(first, steps, later);
    RunWritesOthers(db, run, orders);
    var (s, s') := (Sealed(run.records, run.seals), Sealed(again.records, again.seals));
    assert s.Keys == s'.Keys;
    hide AfterRun, Indexed, Leads, OtherIds, ClaimIds, Sealed, AreBatchReads, AllLabelled, IsQuiet;
    SameRunSameIds(run.candidates, again.candidates, run.records, s, s');
    forall k, c | 0 <= k < |again.candidates| && c in again.candidates[k].claims ensures c.id in later.nodes {
      var i :| 0 <= i < |again.candidates[k].claims| && again.candidates[k].claims[i] == c;
      var twin := run.candidates[k].claims[i];
      assert SameCandidate(run.candidates[k], again.candidates[k]);
      EveryClaimIsStored(db, run, orders, k, twin);
      assert c.id in first.nodes.Keys;
    }
    assert BatchStored(later, ClaimBatch(again.candidates));
    KnownRunIsQuiet(later, again, orders');
  }

  // ---- sealing ----

  /** A node under an event's id is never a claim, and writing claims leaves it alone. */
  ghost predicate SameRow(db: DB, after: DB, id: Id) {
    (id in after.nodes <==> id in db.nodes) && (id in db.nodes ==> after.nodes[id] == db.nodes[id])
  }

  lemma {:induction false} SupersedingKeepsRow(db: DB, from: Id, targets: seq<Id>, id: Id)
    requires !HasClaim(db, id)
    ensures SameRow(db, SupersededAll(db, from, targets), id)
  {
    if targets != [] {
      SupersedingKeepsRow(db, from, targets[..|targets| - 1], id);
    }
  }

  lemma {:induction false} ClaimsKeepRow(db: DB, claims: seq<Claim>, id: Id)
    requires !HasClaim(db, id) && forall c :: c in claims ==> c.id != id
    ensures SameRow(db, ClaimsWritten(db, claims), id)
  {
    if claims != [] {
      var n := |claims| - 1;
      ClaimsKeepRow(db, claims[..n], id);
      ClaimKeepsRow(ClaimsWritten(db, claims[..n]), claims[n], id);
    }
  }

  lemma ClaimKeepsRow(db: DB, c: Claim, id: Id)
    requires !HasClaim(db, id) && id != c.id
    ensures SameRow(db, ClaimWritten(db, c), id)
  {
    var stored := Upserted(db, ClaimNode(c));
    LinkedAllMeans(stored, c.id, About, c.subjects);
    var about := LinkedAll(stored, c.id, About, c.subjects);
    PartiesMean(about, c);
    LinkedAllMeans(PartiesLinked(about, c), c.id, Cites, CitedIds(c.citations));
    var cited := LinkedAll(PartiesLinked(about, c), c.id, Cites, CitedIds(c.citations));
    SupersedingKeepsRow(cited, c.id, c.supersedes, id);
    LinkedAllMeans(SupersededAll(cited, c.id, c.supersedes), c.id, Rel.Contradicts, c.contradicts);
  }

  lemma {:induction false} EntitiesKeepRow(db: DB, entities: seq<Entity>, id: Id)
    requires forall e :: e in entities ==> e.id != id
    ensures SameRow(db, EntitiesWritten(db, entities), id)
  {
    if entities != [] {
      EntitiesKeepRow(db, entities[..|entities| - 1], id);
    }
  }

  /** `id` holds what one of `events` was written as. */
  ghost predicate WrittenAs(db: DB, events: seq<Event>, records: seq<RawRecord>, sealed: map<string, SealRef>, id: Id) {
    exists e :: e in events && e.id == id && !IsSkipped(e, records, sealed)
             && id in db.nodes && db.nodes[id].payload == EventNode(AsWritten(e, sealed))
  }

  lemma EventRow(db: DB, e: Event, records: seq<RawRecord>, sealed: map<string, SealRef>, id: Id)
    ensures var after := EventWritten(db, e, records, sealed);
            if e.id == id && !IsSkipped(e, records, sealed)
            then id in after.nodes && after.nodes[id].payload == EventNode(AsWritten(e, sealed))
            else SameRow(db, after, id)
  {
    hide IsSkipped, AsWritten;
    if !IsSkipped(e, records, sealed) {
      AsWrittenKeepsId(e, sealed);
      var stored := Upserted(db, EventNode(AsWritten(e, sealed)));
      LinkedAllMeans(stored, e.id, Mentions, e.entityIds);
      LinkedAllMeans(LinkedAll(stored, e.id, Mentions, e.entityIds), e.id, Cites, Without(CitedIds(e.citations), e.id));
    }
  }

  lemma AsWrittenKeepsId(e: Event, sealed: map<string, SealRef>)
    ensures AsWritten(e, sealed).id == e.id
  {
  }

  /** The ids written hold an event as it was written; every other id is left alone. */
  lemma {:induction false} EventsRow(db: DB, events: seq<Event>, records: seq<RawRecord>, sealed: map<string, SealRef>,
                                     id: Id)
    ensures var after := EventsWritten(db, events, records, sealed);
            if id in WrittenEventIds(events, records, sealed) then WrittenAs(after, events, records, sealed, id)
            else SameRow(db, after, id)
  {
    if events != [] {
      hide EventWritten, AsWritten, IsSkipped;
      var (init, e) := (events[..|events| - 1], events[|events| - 1]);
      var before := EventsWritten(db, init, records, sealed);
      EventsRow(db, init, records, sealed, id);
      EventRow(before, e, records, sealed, id);
      WrittenSnoc(init, e, records, sealed);
      assert events == init + [e];
      if e.id == id && !IsSkipped(e, records, sealed) {
        assert e in events;
      } else if id in WrittenEventIds(init, records, sealed) {
        var x :| x in init && x.id == id && !IsSkipped(x, records, sealed)
              && id in before.nodes && before.nodes[id].payload == EventNode(AsWritten(x, sealed));
        assert x in events;
      }
    }
  }

  /** Some candidate has an event of that id that is not skipped. */
  ghost predicate Writes(cs: seq<Candidate>, records: seq<RawRecord>, sealed: map<string, SealRef>, id: Id) {
    exists c :: c in cs && id in WrittenEventIds(c.events, records, sealed)
  }

  ghost predicate HoldsWritten(db: DB, cs: seq<Candidate>, records: seq<RawRecord>, sealed: map<string, SealRef>,
                               id: Id) {
    exists c :: c in cs && WrittenAs(db, c.events, records, sealed, id)
  }

  lemma WritesSnoc(cs: seq<Candidate>, c: Candidate, records: seq<RawRecord>, sealed: map<string, SealRef>, id: Id,
                   db: DB)
    ensures Writes(cs + [c], records, sealed, id)
       <==> Writes(cs, records, sealed, id) || id in WrittenEventIds(c.events, records, sealed)
    ensures HoldsWritten(db, cs + [c], records, sealed, id)
       <==> HoldsWritten(db, cs, records, sealed, id) || WrittenAs(db, c.events, records, sealed, id)
  {
    hide WrittenEventIds, WrittenAs;
    assert forall x :: x in cs + [c] <==> x in cs || x == c;
  }

  lemma SameRowHolds(db: DB, after: DB, cs: seq<Candidate>, records: seq<RawRecord>, sealed: map<string, SealRef>,
                     id: Id)
    requires SameRow(db, after, id)
    ensures HoldsWritten(db, cs, records, sealed, id) ==> HoldsWritten(after, cs, records, sealed, id)
  {
    if HoldsWritten(db, cs, records, sealed, id) {
      var c :| c in cs && WrittenAs(db, c.events, records, sealed, id);
      assert WrittenAs(after, c.events, records, sealed, id);
    }
  }

  lemma SameRowThen(a: DB, b: DB, c: DB, id: Id)
    requires SameRow(a, b, id) && SameRow(b, c, id)
    ensures SameRow(a, c, id)
  {
  }

  /** No entity and no claim of the candidate goes under this id. */
  predicate EventsOnly(c: Candidate, id: Id) {
    (forall e :: e in c.entities ==> e.id != id) && forall q :: q in c.claims ==> q.id != id
  }

  /** What one candidate leaves under such an id. */
  lemma CandidateRow(db: DB, c: Candidate, records: seq<RawRecord>, sealed: map<string, SealRef>, id: Id)
    requires EventsOnly(c, id) && !HasClaim(db, id)
    ensures var after := CandidateWritten(db, c, records, sealed);
            && !HasClaim(after, id)
            && if id in WrittenEventIds(c.events, records, sealed) then WrittenAs(after, c.events, records, sealed, id)
               else SameRow(db, after, id)
  {
    hide EntitiesWritten, EventsWritten, ClaimsWritten, AsWritten, IsSkipped, WrittenEventIds;
    var named := EntitiesWritten(db, c.entities);
    EntitiesKeepRow(db, c.entities, id);
    var told := EventsWritten(named, c.events, records, sealed);
    EventsRow(named, c.events, records, sealed, id);
    ClaimsKeepRow(told, c.claims, id);
  }

  lemma {:induction false} CandidatesRow(db: DB, cs: seq<Candidate>, records: seq<RawRecord>,
                                         sealed: map<string, SealRef>,
                                         id: Id)
    requires !HasClaim(db, id) && forall c :: c in cs ==> EventsOnly(c, id)
    ensures var after := CandidatesWritten(db, cs, records, sealed);
            && !HasClaim(after, id)
            && if Writes(cs, records, sealed, id) then HoldsWritten(after, cs, records, sealed, id)
               else SameRow(db, after, id)
  {
    if cs != [] {
      hide CandidateWritten, WrittenEventIds, WrittenAs, EventsOnly, Writes, HoldsWritten, HasClaim, SameRow;
      var (init, c) := (cs[..|cs| - 1], cs[|cs| - 1]);
      var before := CandidatesWritten(db, init, records, sealed);
      var after := CandidateWritten(before, c, records, sealed);
      CandidatesRow(db, init, records, sealed, id);
      CandidateRow(before, c, records, sealed, id);
      WritesSnoc(init, c, records, sealed, id, after);
      assert cs == init + [c];
      if id !in WrittenEventIds(c.events, records, sealed) {
        SameRowHolds(before, after, init, records, sealed, id);
        if !Writes(init, records, sealed, id) {
          SameRowThen(db, before, after, id);
        }
      }
    } else {
      assert CandidatesWritten(db, cs, records, sealed) == db && !Writes(cs, records, sealed, id);
    }
  }

  /** Some fetched record of that external id is sensitive. */
  ghost predicate IsSensitive(run: Run, externalId: string) {
    exists r :: r in run.records && r.externalId == externalId && r.sensitive
  }

  /** An event of some candidate that is written: its record is not sensitive, or the seal succeeded. */
  ghost predicate IsWritten(run: Run, e: Event) {
    && (exists c :: c in run.candidates && e in c.events)
    && (IsSensitive(run, e.source.externalId) ==> e.source.externalId in run.seals)
  }

  /** What is stored of it: of a sensitive record's event, with the ref of the seal in place of the body, and of any
      other just what was extracted. */
  ghost predicate IsStoredAs(stored: Event, run: Run, e: Event) {
    var id := e.source.externalId;
    if IsSensitive(run, id) then id in run.seals && stored == e.(body := None, encrypted := Some(run.seals[id]))
    else stored == e
  }

  /** An event of some candidate that the run does not skip. */
  ghost predicate IsWrittenBy(run: Run, id: Id) {
    Writes(run.candidates, run.records, Sealed(run.records, run.seals), id)
  }

  lemma SkippedExactly(run: Run, e: Event)
    ensures IsSkipped(e, run.records, Sealed(run.records, run.seals))
       <==> IsSensitive(run, e.source.externalId) && e.source.externalId !in run.seals
  {
  }

  lemma WrittenByMeans(run: Run, id: Id)
    ensures IsWrittenBy(run, id) <==> exists e: Event :: e.id == id && IsWritten(run, e)
  {
    var sealed := Sealed(run.records, run.seals);
    forall e {
      SkippedExactly(run, e);
    }
    hide IsSkipped, IsSensitive;
    if IsWrittenBy(run, id) {
      var c :| c in run.candidates && id in WrittenEventIds(c.events, run.records, sealed);
      var e :| e in c.events && !IsSkipped(e, run.records, sealed) && e.id == id;
      assert IsWritten(run, e);
    }
    if e: Event :| e.id == id && IsWritten(run, e) {
      var c :| c in run.candidates && e in c.events;
      assert id in WrittenEventIds(c.events, run.records, sealed);
    }
  }

  lemma WrittenIsSealed(after: DB, c: Candidate, run: Run, id: Id) returns (e: Event)
    requires c in run.candidates
             && WrittenAs(after, c.events, run.records, Sealed(run.records, run.seals), id)
    ensures e.id == id && IsWritten(run, e)
    ensures id in after.nodes && after.nodes[id].payload.EventNode?
            && IsStoredAs(after.nodes[id].payload.event, run, e)
  {
    var sealed := Sealed(run.records, run.seals);
    e :| e in c.events && e.id == id && !IsSkipped(e, run.records, sealed)
         && id in after.nodes && after.nodes[id].payload == EventNode(AsWritten(e, sealed));
    SkippedExactly(run, e);
  }

  lemma SameEventsSameWrites(a: seq<Candidate>, b: seq<Candidate>, records: seq<RawRecord>,
                             sealed: map<string, SealRef>, id: Id)
    requires |a| == |b| && forall k :: 0 <= k < |a| ==> a[k].events == b[k].events
    requires Writes(a, records, sealed, id)
    ensures Writes(b, records, sealed, id)
  {
    hide WrittenEventIds;
    var c :| c in a && id in WrittenEventIds(c.events, records, sealed);
    var k :| 0 <= k < |a| && a[k] == c;
    assert b[k] in b;
  }

  lemma EventsStayPut(db: DB, run: Run, orders: seq<seq<seq<Id>>>, id: Id)
    requires AreBatchReads(db, run.owner, ClaimBatch(run.candidates), orders)
    ensures Writes(ResolvedCandidates(db, run, orders), run.records, Sealed(run.records, run.seals), id) <==>
              IsWrittenBy(run, id)
  {
    hide AreReads, PendingAfter, SliceOf, Sealed, Writes;
    var (cs, sealed) := (ResolvedCandidates(db, run, orders), Sealed(run.records, run.seals));
    assert forall k :: 0 <= k < |cs| ==> cs[k].events == run.candidates[k].events;
    hide ResolvedCandidates;
    if Writes(cs, run.records, sealed, id) {
      SameEventsSameWrites(cs, run.candidates, run.records, sealed, id);
    }
    if IsWrittenBy(run, id) {
      SameEventsSameWrites(run.candidates, cs, run.records, sealed, id);
    }
  }

  lemma ResolvedEventsOnly(db: DB, run: Run, orders: seq<seq<seq<Id>>>, id: Id)
    requires AreBatchReads(db, run.owner, ClaimBatch(run.candidates), orders)
    requires forall c :: c in run.candidates ==> EventsOnly(c, id)
    ensures forall c :: c in ResolvedCandidates(db, run, orders) ==> EventsOnly(c, id)
  {
    var cs := ResolvedCandidates(db, run, orders);
    hide AreReads, ResolvedCandidates, Labelled, SubjectsWithin;
    forall c | c in cs ensures EventsOnly(c, id) {
      var k :| 0 <= k < |cs| && cs[k] == c;
      ResolvedStaysGood(db, run, orders, k);
      assert EventsOnly(run.candidates[k], id);
    }
  }

  /** What `id` holds after the run: an event the run writes there as it is to be stored, if there is one, and else
      what it held. */
  ghost predicate HoldsSealed(db: DB, run: Run, after: DB, id: Id) {
    if exists e: Event :: e.id == id && IsWritten(run, e) then
      && id in after.nodes && after.nodes[id].payload.EventNode?
      && exists e: Event :: e.id == id && IsWritten(run, e) && IsStoredAs(after.nodes[id].payload.event, run, e)
    else SameRow(db, after, id)
  }

  /** Whatever was extracted, whatever the store holds and whichever seals failed: under an id that is no claim's
      and no entity's, every event a run writes over a sensitive record has no body and carries the ref of its
      seal, whatever the id held before; and no other such row is touched. */
  lemma SensitiveBodiesStayOut(db: DB, run: Run, orders: seq<seq<seq<Id>>>, id: Id)
    requires AreBatchReads(db, run.owner, ClaimBatch(run.candidates), orders)
    requires !HasClaim(db, id) && forall c :: c in run.candidates ==> EventsOnly(c, id)
    ensures HoldsSealed(db, run, AfterRun(db, run, orders), id)
  {
    var (cs, after) := (ResolvedCandidates(db, run, orders), AfterRun(db, run, orders));
    var sealed := Sealed(run.records, run.seals);
    EventsStayPut(db, run, orders, id);
    ResolvedEventsOnly(db, run, orders, id);
    WrittenByMeans(run, id);
    ResolvedEvents(db, run, orders);
    hide AreBatchReads, ResolvedCandidates, EventsOnly, Writes, HoldsWritten, IsStoredAs, IsWritten, SameRow, HasClaim,
      IsWrittenBy, CandidatesWritten;
    CandidatesRow(db, cs, run.records, sealed, id);
    if IsWrittenBy(run, id) {
      var e := HeldIsSealed(after, cs, run, id);
    }
  }

  lemma ResolvedEvents(db: DB, run: Run, orders: seq<seq<seq<Id>>>)
    requires AreBatchReads(db, run.owner, ClaimBatch(run.candidates), orders)
    ensures var cs := ResolvedCandidates(db, run, orders);
            |cs| == |run.candidates| && forall k :: 0 <= k < |cs| ==> cs[k].events == run.candidates[k].events
  {
    hide AreReads, SliceOf;
  }

  lemma HeldIsSealed(after: DB, cs: seq<Candidate>, run: Run, id: Id) returns (e: Event)
    requires |cs| == |run.candidates| && forall k :: 0 <= k < |cs| ==> cs[k].events == run.candidates[k].events
    requires HoldsWritten(after, cs, run.records, Sealed(run.records, run.seals), id)
    ensures e.id == id && IsWritten(run, e)
    ensures id in after.nodes && after.nodes[id].payload.EventNode?
            && IsStoredAs(after.nodes[id].payload.event, run, e)
  {
    hide WrittenAs, IsWritten, IsStoredAs;
    var c :| c in cs && WrittenAs(after, c.events, run.records, Sealed(run.records, run.seals), id);
    var k :| 0 <= k < |cs| && cs[k] == c;
    assert run.candidates[k] in run.candidates;
    e := WrittenIsSealed(after, run.candidates[k], run, id);
  }

  /** Labels see to that: while ids carry theirs, it holds of every event id. */
  lemma EventIdsHoldSealed(db: DB, run: Run, orders: seq<seq<seq<Id>>>, id: Id)
    requires Indexed(db) && AllLabelled(run) && AreBatchReads(db, run.owner, ClaimBatch(run.candidates), orders)
    requires "evt_" <= id
    ensures HoldsSealed(db, run, AfterRun(db, run, orders), id)
  {
    PrefixesDiffer(id);
    assert !HasClaim(db, id);
    forall c | c in run.candidates ensures EventsOnly(c, id) {
      assert forall e :: e in c.entities ==> EntityNode(e).LabelMatchesId();
      assert forall q :: q in c.claims ==> ClaimNode(q).LabelMatchesId();
    }
    hide Indexed, AreBatchReads, AllLabelled, HoldsSealed, HasClaim;
    SensitiveBodiesStayOut(db, run, orders, id);
  }
}
