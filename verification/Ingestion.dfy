/** One ingestion run after extraction: resolve, seal, write. */
module Ingestion {
  import opened Basics
  import opened Schema
  import opened Store
  import opened Resolver

  /** What a run is given: the fetched records, what was extracted from them, and for each
      external id the reference the enclave answers with, if sealing its body succeeds. */
  datatype Run = Run(owner: string, records: seq<RawRecord>, candidates: seq<Candidate>, seals: map<string, SealRef>)

  // ---- sealing ----

  /** Keys of the dict of sensitive records, in insertion order. */
  function SensitiveIds(records: seq<RawRecord>): seq<string> {
    if records == [] then []
    else
      var (before, r) := (SensitiveIds(records[..|records| - 1]), records[|records| - 1]);
      if r.sensitive && r.externalId !in before then before + [r.externalId] else before
  }

  predicate NeedsSeal(records: seq<RawRecord>, externalId: string) {
    exists r :: r in records && r.externalId == externalId && r.sensitive
  }

  lemma {:induction false} SensitiveIdsMeans(records: seq<RawRecord>)
    ensures Distinct(SensitiveIds(records))
    ensures forall id :: id in SensitiveIds(records) <==> NeedsSeal(records, id)
  {
    if records != [] {
      var (init, r) := (records[..|records| - 1], records[|records| - 1]);
      SensitiveIdsMeans(init);
      assert records == init + [r];
      forall id ensures NeedsSeal(records, id) <==> NeedsSeal(init, id) || (r.sensitive && r.externalId == id) {
      }
    }
  }

  /** The `encrypt` node: one seal call per sensitive id; a failure is recorded, not written in the clear. */
  method Encrypt(records: seq<RawRecord>, seals: map<string, SealRef>)
      returns (sealed: map<string, SealRef>, errors: seq<string>)
    ensures sealed == Sealed(records, seals)
    ensures forall id :: id in sealed <==>
              id in seals && exists r :: r in records && r.externalId == id && r.sensitive
    ensures forall id :: id in sealed ==> sealed[id] == seals[id]
    ensures Distinct(errors)
    ensures forall id :: id in errors <==>
              id !in seals && exists r :: r in records && r.externalId == id && r.sensitive
  {
    var sensitive := SensitiveIds(records);
    SensitiveIdsMeans(records);
    sealed, errors := map[], [];
    var i := 0;
    while i < |sensitive|
      invariant 0 <= i <= |sensitive|
      invariant forall id :: id in sealed <==> id in sensitive[..i] && id in seals
      invariant forall id :: id in sealed ==> sealed[id] == seals[id]
      invariant forall id :: id in errors <==> id in sensitive[..i] && id !in seals
      invariant Distinct(errors)
    {
      var id := sensitive[i];
      assert id !in sensitive[..i];
      assert forall x :: x in sensitive[..i + 1] <==> x in sensitive[..i] || x == id;
      if id in seals {
        sealed := sealed[id := seals[id]];
      } else {
        assert forall j :: 0 <= j < |errors| ==> errors[j] in errors;
        errors := errors + [id];
      }
      i := i + 1;
    }
    assert sensitive[..i] == sensitive;
  }

  /** The refs of the seals that succeeded. */
  function Sealed(records: seq<RawRecord>, seals: map<string, SealRef>): map<string, SealRef> {
    map id | id in seals && NeedsSeal(records, id) :: seals[id]
  }

  // ---- what writing means ----

  function LinkedAll(db: DB, from: Id, rel: Rel, tos: seq<Id>): DB {
    if tos == [] then db else Linked(LinkedAll(db, from, rel, tos[..|tos| - 1]), from, rel, tos[|tos| - 1])
  }

  function SupersededAll(db: DB, from: Id, targets: seq<Id>): DB {
    if targets == [] then db
    else
      var t := targets[|targets| - 1];
      StatusSet(Linked(SupersededAll(db, from, targets[..|targets| - 1]), from, Rel.Supersedes, t), t, Superseded)
  }

  function CitedIds(citations: seq<Citation>): (r: seq<Id>)
    ensures |r| == |citations|
  {
    seq(|citations|, i requires 0 <= i < |citations| => citations[i].eventId)
  }

  function Without(ids: seq<Id>, id: Id): seq<Id> {
    if ids == [] then []
    else
      var (before, last) := (Without(ids[..|ids| - 1], id), ids[|ids| - 1]);
      if last == id then before else before + [last]
  }

  function EntitiesWritten(db: DB, entities: seq<Entity>): DB {
    if entities == [] then db
    else Upserted(EntitiesWritten(db, entities[..|entities| - 1]), EntityNode(entities[|entities| - 1]))
  }

  /** A sealed event carries the ref in place of its body. */
  function AsWritten(event: Event, sealed: map<string, SealRef>): Event {
    var id := event.source.externalId;
    if id in sealed then event.(encrypted := Some(sealed[id]), body := None) else event
  }

  predicate IsSkipped(event: Event, records: seq<RawRecord>, sealed: map<string, SealRef>) {
    event.source.externalId !in sealed && NeedsSeal(records, event.source.externalId)
  }

  function EventWritten(db: DB, event: Event, records: seq<RawRecord>, sealed: map<string, SealRef>): DB {
    if IsSkipped(event, records, sealed) then db
    else
      var stored := Upserted(db, EventNode(AsWritten(event, sealed)));
      var mentioning := LinkedAll(stored, event.id, Mentions, event.entityIds);
      LinkedAll(mentioning, event.id, Cites, Without(CitedIds(event.citations), event.id))
  }

  function EventsWritten(db: DB, events: seq<Event>, records: seq<RawRecord>, sealed: map<string, SealRef>): DB {
    if events == [] then db
    else EventWritten(EventsWritten(db, events[..|events| - 1], records, sealed), events[|events| - 1], records, sealed)
  }

  /** The optional typed edges to the parties of a commitment. */
  function PartiesLinked(db: DB, c: Claim): DB {
    match c.commitment
    case None => db
    case Some(p) =>
      var owing := Linked(db, c.id, Rel.OwedBy, p.owedBy);
      if p.owedTo.Some? && p.owedTo.value != "" then Linked(owing, c.id, Rel.OwedTo, p.owedTo.value) else owing
  }

  function ClaimWritten(db: DB, c: Claim): DB {
    var stored := Upserted(db, ClaimNode(c));
    var about := LinkedAll(stored, c.id, About, c.subjects);
    var cited := LinkedAll(PartiesLinked(about, c), c.id, Cites, CitedIds(c.citations));
    LinkedAll(SupersededAll(cited, c.id, c.supersedes), c.id, Rel.Contradicts, c.contradicts)
  }

  function ClaimsWritten(db: DB, claims: seq<Claim>): DB {
    if claims == [] then db
    else ClaimWritten(ClaimsWritten(db, claims[..|claims| - 1]), claims[|claims| - 1])
  }

  function CandidateWritten(db: DB, c: Candidate, records: seq<RawRecord>, sealed: map<string, SealRef>): DB {
    ClaimsWritten(EventsWritten(EntitiesWritten(db, c.entities), c.events, records, sealed), c.claims)
  }

  function CandidatesWritten(db: DB, cs: seq<Candidate>, records: seq<RawRecord>, sealed: map<string, SealRef>): DB {
    if cs == [] then db
    else CandidateWritten(CandidatesWritten(db, cs[..|cs| - 1], records, sealed), cs[|cs| - 1], records, sealed)
  }

  /** The ids of a candidate's nodes carry their labels. */
  predicate Labelled(c: Candidate) {
    && (forall e :: e in c.entities ==> EntityNode(e).LabelMatchesId())
    && (forall e :: e in c.events ==> EventNode(e).LabelMatchesId())
    && (forall e :: e in c.claims ==> ClaimNode(e).LabelMatchesId())
  }

  // ---- the write node ----

  method LinkMany(store: Neo4jStore, from: Id, rel: Rel, tos: seq<Id>)
    modifies store
    ensures store.State() == LinkedAll(old(store.State()), from, rel, tos)
  {
    var i := 0;
    while i < |tos|
      invariant 0 <= i <= |tos|
      invariant store.State() == LinkedAll(old(store.State()), from, rel, tos[..i])
    {
      assert tos[..i + 1][..i] == tos[..i];
      store.Link(from, rel, tos[i]);
      i := i + 1;
    }
    assert tos[..i] == tos;
  }

  method WriteEntities(store: Neo4jStore, entities: seq<Entity>)
    modifies store
    ensures store.State() == EntitiesWritten(old(store.State()), entities)
  {
    var i := 0;
    while i < |entities|
      invariant 0 <= i <= |entities|
      invariant store.State() == EntitiesWritten(old(store.State()), entities[..i])
    {
      assert entities[..i + 1][..i] == entities[..i];
      store.Upsert(EntityNode(entities[i]));
      i := i + 1;
    }
    assert entities[..i] == entities;
  }

  method WriteEvent(store: Neo4jStore, event: Event, records: seq<RawRecord>, sealed: map<string, SealRef>)
      returns (skipped: bool)
    modifies store
    ensures store.State() == EventWritten(old(store.State()), event, records, sealed)
    ensures skipped == IsSkipped(event, records, sealed)
  {
    if event.source.externalId !in sealed && NeedsSeal(records, event.source.externalId) {
      return true;
    }
    store.Upsert(EventNode(AsWritten(event, sealed)));
    LinkMany(store, event.id, Mentions, event.entityIds);
    ghost var mentioning := store.State();
    var cited := CitedIds(event.citations);
    var i := 0;
    while i < |cited|
      invariant 0 <= i <= |cited|
      invariant store.State() == LinkedAll(mentioning, event.id, Cites, Without(cited[..i], event.id))
    {
      assert cited[..i + 1][..i] == cited[..i];
      if cited[i] != event.id {
        ghost var kept := Without(cited[..i], event.id);
        assert (kept + [cited[i]])[..|kept|] == kept;
        store.Link(event.id, Cites, cited[i]);
      }
      i := i + 1;
    }
    assert cited[..i] == cited;
    return false;
  }

  method WriteEvents(store: Neo4jStore, events: seq<Event>, records: seq<RawRecord>, sealed: map<string, SealRef>)
    returns (written: seq<Id>, errors: seq<Id>)
    modifies store
    ensures store.State() == EventsWritten(old(store.State()), events, records, sealed)
    ensures written == EventIds(events, records, sealed, false) && errors == EventIds(events, records, sealed, true)
  {
    written, errors := [], [];
    var i := 0;
    while i < |events|
      invariant 0 <= i <= |events|
      invariant store.State() == EventsWritten(old(store.State()), events[..i], records, sealed)
      invariant written == EventIds(events[..i], records, sealed, false)
                && errors == EventIds(events[..i], records, sealed, true)
    {
      assert events[..i + 1][..i] == events[..i];
      var skipped := WriteEvent(store, events[i], records, sealed);
      if skipped {
        errors := errors + [events[i].id];
      } else {
        written := written + [events[i].id];
      }
      i := i + 1;
    }
    assert events[..i] == events;
  }

  method SupersedeMany(store: Neo4jStore, from: Id, targets: seq<Id>)
    modifies store
    ensures store.State() == SupersededAll(old(store.State()), from, targets)
  {
    var i := 0;
    while i < |targets|
      invariant 0 <= i <= |targets|
      invariant store.State() == SupersededAll(old(store.State()), from, targets[..i])
    {
      assert targets[..i + 1][..i] == targets[..i];
      store.Link(from, Rel.Supersedes, targets[i]);
      var r := store.SetClaimStatus(targets[i], "superseded");
      i := i + 1;
    }
    assert targets[..i] == targets;
  }

  method WriteClaim(store: Neo4jStore, c: Claim)
    modifies store
    ensures store.State() == ClaimWritten(old(store.State()), c)
  {
    store.Upsert(ClaimNode(c));
    LinkMany(store, c.id, About, c.subjects);
    if c.commitment.Some? {
      store.Link(c.id, Rel.OwedBy, c.commitment.value.owedBy);
      if c.commitment.value.owedTo.Some? && c.commitment.value.owedTo.value != "" {
        store.Link(c.id, Rel.OwedTo, c.commitment.value.owedTo.value);
      }
    }
    LinkMany(store, c.id, Cites, CitedIds(c.citations));
    SupersedeMany(store, c.id, c.supersedes);
    LinkMany(store, c.id, Rel.Contradicts, c.contradicts);
  }

  method WriteClaims(store: Neo4jStore, claims: seq<Claim>)
    modifies store
    ensures store.State() == ClaimsWritten(old(store.State()), claims)
  {
    var i := 0;
    while i < |claims|
      invariant 0 <= i <= |claims|
      invariant store.State() == ClaimsWritten(old(store.State()), claims[..i])
    {
      assert claims[..i + 1][..i] == claims[..i];
      WriteClaim(store, claims[i]);
      i := i + 1;
    }
    assert claims[..i] == claims;
  }

  /** The `write` node; `written` lists the ids written, `errors` the events skipped. */
  method Write(store: Neo4jStore, cs: seq<Candidate>, records: seq<RawRecord>, sealed: map<string, SealRef>)
    returns (written: seq<Id>, errors: seq<Id>)
    modifies store
    ensures store.State() == CandidatesWritten(old(store.State()), cs, records, sealed)
    ensures written == WrittenIds(cs, records, sealed) && errors == SkippedIds(cs, records, sealed)
  {
    hide EventIds, EntityIdList, ClaimIdList;
    written, errors := [], [];
    var i := 0;
    while i < |cs|
      invariant 0 <= i <= |cs|
      invariant store.State() == CandidatesWritten(old(store.State()), cs[..i], records, sealed)
      invariant written == WrittenIds(cs[..i], records, sealed) && errors == SkippedIds(cs[..i], records, sealed)
    {
      assert cs[..i + 1][..i] == cs[..i];
      WriteEntities(store, cs[i].entities);
      var events, skipped := WriteEvents(store, cs[i].events, records, sealed);
      WriteClaims(store, cs[i].claims);
      written := written + (EntityIdList(cs[i].entities) + events + ClaimIdList(cs[i].claims));
      errors := errors + skipped;
      i := i + 1;
    }
    assert cs[..i] == cs;
  }

  // ---- what the write reports ----

  function EntityIdList(entities: seq<Entity>): seq<Id> {
    seq(|entities|, i requires 0 <= i < |entities| => entities[i].id)
  }

  function ClaimIdList(claims: seq<Claim>): seq<Id> {
    seq(|claims|, i requires 0 <= i < |claims| => claims[i].id)
  }

  /** The events skipped, or those not. */
  function EventIds(events: seq<Event>, records: seq<RawRecord>, sealed: map<string, SealRef>, skipped: bool): seq<Id> {
    if events == [] then []
    else
      var (before, e) := (EventIds(events[..|events| - 1], records, sealed, skipped), events[|events| - 1]);
      if IsSkipped(e, records, sealed) == skipped then before + [e.id] else before
  }

  function WrittenIds(cs: seq<Candidate>, records: seq<RawRecord>, sealed: map<string, SealRef>): seq<Id> {
    if cs == [] then []
    else
      var (before, c) := (WrittenIds(cs[..|cs| - 1], records, sealed), cs[|cs| - 1]);
      before + (EntityIdList(c.entities) + EventIds(c.events, records, sealed, false) + ClaimIdList(c.claims))
  }

  function SkippedIds(cs: seq<Candidate>, records: seq<RawRecord>, sealed: map<string, SealRef>): seq<Id> {
    if cs == [] then []
    else SkippedIds(cs[..|cs| - 1], records, sealed) + EventIds(cs[|cs| - 1].events, records, sealed, true)
  }

  lemma {:induction false} EventIdsMean(events: seq<Event>, records: seq<RawRecord>, sealed: map<string, SealRef>,
                                        skipped: bool)
    ensures forall id :: id in EventIds(events, records, sealed, skipped) <==>
              exists e :: e in events && e.id == id && IsSkipped(e, records, sealed) == skipped
  {
    hide IsSkipped;
    if events != [] {
      var (init, e) := (events[..|events| - 1], events[|events| - 1]);
      EventIdsMean(init, records, sealed, skipped);
      assert events == init + [e];
    }
  }

  /** Every event of every candidate is reported, as written or as skipped; and only events that a
      sensitive record kept from being written are reported as skipped. */
  lemma {:induction false} EveryEventIsReported(cs: seq<Candidate>, records: seq<RawRecord>,
                                                sealed: map<string, SealRef>)
    ensures forall c, e :: c in cs && e in c.events ==>
              e.id in (if IsSkipped(e, records, sealed) then SkippedIds(cs, records, sealed)
                       else WrittenIds(cs, records, sealed))
    ensures forall id :: id in SkippedIds(cs, records, sealed) ==>
              exists c, e :: c in cs && e in c.events && e.id == id && IsSkipped(e, records, sealed)
  {
    hide IsSkipped;
    if cs != [] {
      var (init, last) := (cs[..|cs| - 1], cs[|cs| - 1]);
      EveryEventIsReported(init, records, sealed);
      EventIdsMean(last.events, records, sealed, false);
      EventIdsMean(last.events, records, sealed, true);
      hide EventIds;
      assert cs == init + [last];
      forall id | id in SkippedIds(cs, records, sealed)
        ensures exists c, e :: c in cs && e in c.events && e.id == id && IsSkipped(e, records, sealed)
      {
        if id in SkippedIds(init, records, sealed) {
          var c, e :| c in init && e in c.events && e.id == id && IsSkipped(e, records, sealed);
          assert c in cs;
        } else {
          assert last in cs;
        }
      }
    }
  }

  /** What one candidate adds to the report: the ids of its entities, of its events that are not skipped, and of its
      claims, each kind in its own order; and to the errors, the ids of the events skipped. */
  lemma ReportGrows(cs: seq<Candidate>, c: Candidate, records: seq<RawRecord>, sealed: map<string, SealRef>)
    ensures var (was, now) := (WrittenIds(cs, records, sealed), WrittenIds(cs + [c], records, sealed));
            var (n, told) := (|was| + |c.entities|, EventIds(c.events, records, sealed, false));
            && |now| == n + |told| + |c.claims| && now[..|was|] == was
            && (forall i :: 0 <= i < |c.entities| ==> now[|was| + i] == c.entities[i].id)
            && now[n..n + |told|] == told
            && (forall i :: 0 <= i < |c.claims| ==> now[n + |told| + i] == c.claims[i].id)
    ensures SkippedIds(cs + [c], records, sealed)
         == SkippedIds(cs, records, sealed) + EventIds(c.events, records, sealed, true)
  {
    assert (cs + [c])[..|cs|] == cs;
    hide EventIds;
    var (was, now) := (WrittenIds(cs, records, sealed), WrittenIds(cs + [c], records, sealed));
    var (a, b, d) := (EntityIdList(c.entities), EventIds(c.events, records, sealed, false), ClaimIdList(c.claims));
    assert now == was + (a + b + d);
    hide WrittenIds, EntityIdList, ClaimIdList;
    ThreeParts(was, a, b, d);
  }

  lemma ThreeParts(was: seq<Id>, a: seq<Id>, b: seq<Id>, c: seq<Id>)
    ensures var (now, n) := (was + (a + b + c), |was| + |a|);
            && |now| == n + |b| + |c| && now[..|was|] == was && now[n..n + |b|] == b
            && (forall i :: 0 <= i < |a| ==> now[|was| + i] == a[i])
            && (forall i :: 0 <= i < |c| ==> now[n + |b| + i] == c[i])
  {
  }

  /** An event is told among those skipped, or among those not. */
  lemma EventIdsGrow(events: seq<Event>, e: Event, records: seq<RawRecord>, sealed: map<string, SealRef>, skipped: bool)
    ensures EventIds(events + [e], records, sealed, skipped)
         == EventIds(events, records, sealed, skipped)
            + if skipped == (e.source.externalId !in sealed && NeedsSeal(records, e.source.externalId)) then [e.id]
              else []
  {
    assert (events + [e])[..|events|] == events;
  }

  // ---- a whole run ----

  function ClaimBatch(candidates: seq<Candidate>): (r: seq<seq<Claim>>)
    ensures |r| == |candidates|
    ensures forall k :: 0 <= k < |r| ==> r[k] == candidates[k].claims
  {
    seq(|candidates|, k requires 0 <= k < |candidates| => candidates[k].claims)
  }

  /** The candidates with their claims replaced by the resolved new ones. */
  ghost function ResolvedCandidates(db: DB, run: Run, orders: seq<seq<seq<Id>>>): (r: seq<Candidate>)
    requires AreBatchReads(db, run.owner, ClaimBatch(run.candidates), orders)
    ensures |r| == |run.candidates|
  {
    seq(|run.candidates|,
        k requires 0 <= k < |run.candidates| => run.candidates[k].(claims := SliceOf(db, run, orders, k)))
  }

  lemma SliceBounds(db: DB, owner: string, batch: seq<seq<Claim>>, orders: seq<seq<seq<Id>>>, k: nat)
    requires AreBatchReads(db, owner, batch, orders) && k < |batch|
    ensures Offset(db, owner, batch, orders, k) <= Offset(db, owner, batch, orders, k + 1)
            <= |PendingAfter(db, owner, batch, orders)|
  {
    hide PendingAfter, AreReads;
    OffsetsAscend(db, owner, batch, orders, k, k + 1);
    OffsetsAscend(db, owner, batch, orders, k + 1, |batch|);
    assert batch[..|batch|] == batch && orders[..|batch|] == orders;
  }

  ghost function Stretch(db: DB, owner: string, batch: seq<seq<Claim>>, orders: seq<seq<seq<Id>>>, k: nat): seq<Claim>
    requires AreBatchReads(db, owner, batch, orders) && k < |batch|
  {
    hide PendingAfter, Offset, AreReads;
    SliceBounds(db, owner, batch, orders, k);
    var (from, to) := (Offset(db, owner, batch, orders, k), Offset(db, owner, batch, orders, k + 1));
    PendingAfter(db, owner, batch, orders)[from..to]
  }

  /** The k-th candidate's stretch of the final pending list. */
  ghost function SliceOf(db: DB, run: Run, orders: seq<seq<seq<Id>>>, k: nat): seq<Claim>
    requires AreBatchReads(db, run.owner, ClaimBatch(run.candidates), orders) && k < |run.candidates|
  {
    Stretch(db, run.owner, ClaimBatch(run.candidates), orders, k)
  }

  lemma SliceIsStretch(db: DB, run: Run, orders: seq<seq<seq<Id>>>, k: nat)
    requires AreBatchReads(db, run.owner, ClaimBatch(run.candidates), orders) && k < |run.candidates|
    ensures var batch := ClaimBatch(run.candidates);
            var (from, to) := (Offset(db, run.owner, batch, orders, k), Offset(db, run.owner, batch, orders, k + 1));
            && from <= to <= |PendingAfter(db, run.owner, batch, orders)|
            && SliceOf(db, run, orders, k) == PendingAfter(db, run.owner, batch, orders)[from..to]
  {
    hide PendingAfter, Offset, AreReads;
    SliceBounds(db, run.owner, ClaimBatch(run.candidates), orders, k);
  }

  /** The store a run leaves behind, given the orders in which the store answered its reads. */
  ghost function AfterRun(db: DB, run: Run, orders: seq<seq<seq<Id>>>): DB
    requires AreBatchReads(db, run.owner, ClaimBatch(run.candidates), orders)
  {
    CandidatesWritten(db, ResolvedCandidates(db, run, orders), run.records, Sealed(run.records, run.seals))
  }

  /** Every (superseding, superseded) pair the first n candidates reported. */
  ghost function Supersessions(db: DB, run: Run, orders: seq<seq<seq<Id>>>, n: nat): seq<(Id, Id)>
    requires AreBatchReads(db, run.owner, ClaimBatch(run.candidates), orders) && n <= |run.candidates|
  {
    if n == 0 then []
    else
      Supersessions(db, run, orders, n - 1)
      + Reported(db, run.owner, ClaimBatch(run.candidates), orders, n - 1).supersessions
  }

  /** Every (claim, conflicting claim) pair they reported. */
  ghost function Contradictions(db: DB, run: Run, orders: seq<seq<seq<Id>>>, n: nat): seq<(Id, Id)>
    requires AreBatchReads(db, run.owner, ClaimBatch(run.candidates), orders) && n <= |run.candidates|
  {
    if n == 0 then []
    else
      Contradictions(db, run, orders, n - 1)
      + Reported(db, run.owner, ClaimBatch(run.candidates), orders, n - 1).contradictions
  }
}
