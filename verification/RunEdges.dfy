/** Every edge a write adds, of every kind: what each edge says, and which ends must be stored for it. */
module RunEdges {
  import opened Basics
  import opened Schema
  import opened Store
  import opened Resolver
  import opened Ledger
  import opened Ingestion
  import opened Writing
  import opened Runs
  import opened AnyRuns

  // ---- one event, one claim ----

  /** What an event has to say of its edges: whom it mentions, and which other events it cites. */
  ghost predicate EventSays(event: Event, e: Edge) {
    && e.from == event.id
    && match e.rel
       case Mentions => e.to in event.entityIds
       case Cites => e.to != event.id && exists x :: x in event.citations && x.eventId == e.to
       case About => false
       case OwedBy => false
       case OwedTo => false
       case Supersedes => false
       case Contradicts => false
  }

  /** What a claim has to say of its edges: its subjects, who owes, to whom if to anyone, what it cites, and the
      claims it supersedes and contradicts. */
  ghost predicate ClaimSays(c: Claim, e: Edge) {
    && e.from == c.id
    && match e.rel
       case About => e.to in c.subjects
       case OwedBy => c.commitment.Some? && e.to == c.commitment.value.owedBy
       case OwedTo => c.commitment.Some? && c.commitment.value.owedTo == Some(e.to) && e.to != ""
       case Cites => exists x :: x in c.citations && x.eventId == e.to
       case Supersedes => e.to in c.supersedes
       case Contradicts => e.to in c.contradicts
       case Mentions => false
  }

  lemma CitedIdsMean(citations: seq<Citation>, id: Id)
    ensures id in CitedIds(citations) <==> exists x :: x in citations && x.eventId == id
  {
    if x :| x in citations && x.eventId == id {
      var i :| 0 <= i < |citations| && citations[i] == x;
      assert CitedIds(citations)[i] == id;
    }
  }

  lemma {:induction false} WithoutMeans(ids: seq<Id>, id: Id)
    ensures forall x :: x in Without(ids, id) <==> x in ids && x != id
  {
    if ids != [] {
      var (init, last) := (ids[..|ids| - 1], ids[|ids| - 1]);
      WithoutMeans(init, id);
      assert ids == init + [last];
    }
  }

  /** The edges of one kind a loop of links adds. */
  lemma LinksAdd(db: DB, from: Id, rel: Rel, tos: seq<Id>, e: Edge)
    ensures LinkedAll(db, from, rel, tos).nodes == db.nodes
    ensures e in LinkedAll(db, from, rel, tos).edges <==>
              e in db.edges || (e.from == from && e.rel == rel && e.to in tos && from in db.nodes && e.to in db.nodes)
  {
    LinkedAllMeans(db, from, rel, tos);
  }

  lemma {:induction false} SupersededAllAdds(db: DB, from: Id, targets: seq<Id>, e: Edge)
    ensures SupersededAll(db, from, targets).nodes.Keys == db.nodes.Keys
    ensures e in SupersededAll(db, from, targets).edges <==>
              || e in db.edges
              || (e.from == from && e.rel == Rel.Supersedes && e.to in targets && from in db.nodes && e.to in db.nodes)
  {
    if targets != [] {
      var (init, t) := (targets[..|targets| - 1], targets[|targets| - 1]);
      SupersededAllAdds(db, from, init, e);
      assert targets == init + [t];
      var before := SupersededAll(db, from, init);
      StatusSetMeans(Linked(before, from, Rel.Supersedes, t), t);
      hide StatusSet, ClaimsOf, Marking;
    }
  }

  lemma PartiesAdd(db: DB, c: Claim, e: Edge)
    ensures PartiesLinked(db, c).nodes == db.nodes
    ensures e in PartiesLinked(db, c).edges <==>
              || e in db.edges
              || ((e.rel == OwedBy || e.rel == OwedTo) && ClaimSays(c, e) && c.id in db.nodes && e.to in db.nodes)
  {
  }

  /** Exactly the edges an event's write leaves: those that were there, and those the event says whose other end
      is stored, the event itself included. */
  lemma EventWrittenExactly(db: DB, event: Event, records: seq<RawRecord>, sealed: map<string, SealRef>, e: Edge)
    ensures e in EventWritten(db, event, records, sealed).edges <==>
              || e in db.edges
              || (!IsSkipped(event, records, sealed) && EventSays(event, e) && e.to in db.nodes.Keys + {event.id})
  {
    hide IsSkipped;
    if !IsSkipped(event, records, sealed) {
      var stored := Upserted(db, EventNode(AsWritten(event, sealed)));
      assert stored.nodes.Keys == db.nodes.Keys + {event.id} && stored.edges == db.edges;
      hide Upserted, AsWritten;
      LinksAdd(stored, event.id, Mentions, event.entityIds, e);
      var mentioning := LinkedAll(stored, event.id, Mentions, event.entityIds);
      WithoutMeans(CitedIds(event.citations), event.id);
      CitedIdsMean(event.citations, e.to);
      LinksAdd(mentioning, event.id, Cites, Without(CitedIds(event.citations), event.id), e);
    }
  }

  /** Exactly the edges a claim's write leaves. */
  lemma ClaimWrittenExactly(db: DB, c: Claim, e: Edge)
    ensures e in ClaimWritten(db, c).edges <==>
              e in db.edges || (ClaimSays(c, e) && e.to in db.nodes.Keys + {c.id})
  {
    var stored := Upserted(db, ClaimNode(c));
    assert stored.nodes.Keys == db.nodes.Keys + {c.id} && stored.edges == db.edges;
    hide Upserted, LinkedAll, SupersededAll, PartiesLinked;
    var about := LinkedAll(stored, c.id, About, c.subjects);
    LinksAdd(stored, c.id, About, c.subjects, e);
    var parties := PartiesLinked(about, c);
    PartiesAdd(about, c, e);
    var cited := LinkedAll(parties, c.id, Cites, CitedIds(c.citations));
    LinksAdd(parties, c.id, Cites, CitedIds(c.citations), e);
    CitedIdsMean(c.citations, e.to);
    var superseding := SupersededAll(cited, c.id, c.supersedes);
    SupersededAllAdds(cited, c.id, c.supersedes, e);
    LinksAdd(superseding, c.id, Rel.Contradicts, c.contradicts, e);
  }

  // ---- lists of them ----

  /** What a list of events says in turn: the i-th, of what is stored when it is written. */
  ghost predicate EventsSay(stored: set<Id>, events: seq<Event>, records: seq<RawRecord>, sealed: map<string, SealRef>,
                            e: Edge) {
    exists i :: 0 <= i < |events| && EventSaysAt(stored, events, records, sealed, i, e)
  }

  ghost predicate EventSaysAt(stored: set<Id>, events: seq<Event>, records: seq<RawRecord>,
                              sealed: map<string, SealRef>, i: nat, e: Edge)
    requires i < |events|
  {
    && !IsSkipped(events[i], records, sealed) && EventSays(events[i], e)
    && e.to in stored + WrittenEventIds(events[..i + 1], records, sealed)
  }

  lemma EventsSaySnoc(stored: set<Id>, events: seq<Event>, last: Event, records: seq<RawRecord>,
                      sealed: map<string, SealRef>, e: Edge)
    ensures EventsSay(stored, events + [last], records, sealed, e) <==>
              || EventsSay(stored, events, records, sealed, e)
              || (!IsSkipped(last, records, sealed) && EventSays(last, e)
                  && e.to in stored + WrittenEventIds(events + [last], records, sealed))
  {
    hide IsSkipped, EventSays, WrittenEventIds;
    var (more, n) := (events + [last], |events|);
    assert more[..n + 1] == more && more[n] == last;
    forall i | 0 <= i < n
      ensures EventSaysAt(stored, more, records, sealed, i, e) <==> EventSaysAt(stored, events, records, sealed, i, e) {
      assert more[..i + 1] == events[..i + 1];
    }
    if EventsSay(stored, events, records, sealed, e) {
      var i :| 0 <= i < n && EventSaysAt(stored, events, records, sealed, i, e);
      assert EventSaysAt(stored, more, records, sealed, i, e);
    }
    assert EventSaysAt(stored, more, records, sealed, n, e) <==>
             !IsSkipped(last, records, sealed) && EventSays(last, e)
             && e.to in stored + WrittenEventIds(more, records, sealed);
  }

  lemma {:induction false} EventsWrittenExactly(db: DB, events: seq<Event>, records: seq<RawRecord>,
                                                sealed: map<string, SealRef>, e: Edge)
    ensures e in EventsWritten(db, events, records, sealed).edges <==>
              e in db.edges || EventsSay(db.nodes.Keys, events, records, sealed, e)
  {
    if events != [] {
      hide EventWritten, EventSays, IsSkipped, EventsSay;
      var (init, last) := (events[..|events| - 1], events[|events| - 1]);
      var before := EventsWritten(db, init, records, sealed);
      EventsWrittenExactly(db, init, records, sealed, e);
      EventWrittenExactly(before, last, records, sealed, e);
      EventsKeepNodes(db, init, records, sealed);
      WrittenSnoc(init, last, records, sealed);
      hide WrittenEventIds;
      assert events == init + [last];
      EventsSaySnoc(db.nodes.Keys, init, last, records, sealed, e);
    }
  }

  /** What a list of claims says in turn. */
  ghost predicate ClaimsSay(stored: set<Id>, claims: seq<Claim>, e: Edge) {
    exists i :: 0 <= i < |claims| && ClaimSaysAt(stored, claims, i, e)
  }

  ghost predicate ClaimSaysAt(stored: set<Id>, claims: seq<Claim>, i: nat, e: Edge)
    requires i < |claims|
  {
    ClaimSays(claims[i], e) && e.to in stored + IdsIn(claims[..i + 1])
  }

  lemma ClaimsSaySnoc(stored: set<Id>, claims: seq<Claim>, last: Claim, e: Edge)
    ensures ClaimsSay(stored, claims + [last], e) <==>
              ClaimsSay(stored, claims, e) || (ClaimSays(last, e) && e.to in stored + IdsIn(claims + [last]))
  {
    hide ClaimSays, IdsIn;
    var (more, n) := (claims + [last], |claims|);
    assert more[..n + 1] == more && more[n] == last;
    forall i | 0 <= i < n ensures ClaimSaysAt(stored, more, i, e) <==> ClaimSaysAt(stored, claims, i, e) {
      assert more[..i + 1] == claims[..i + 1];
    }
    if ClaimsSay(stored, claims, e) {
      var i :| 0 <= i < n && ClaimSaysAt(stored, claims, i, e);
      assert ClaimSaysAt(stored, more, i, e);
    }
    assert ClaimSaysAt(stored, more, n, e) <==> ClaimSays(last, e) && e.to in stored + IdsIn(more);
  }

  lemma {:induction false} ClaimsWrittenExactly(db: DB, claims: seq<Claim>, e: Edge)
    ensures e in ClaimsWritten(db, claims).edges <==> e in db.edges || ClaimsSay(db.nodes.Keys, claims, e)
  {
    if claims != [] {
      hide ClaimWritten, ClaimSays, ClaimsSay, IdsIn;
      var (init, last) := (claims[..|claims| - 1], claims[|claims| - 1]);
      ClaimsWrittenExactly(db, init, e);
      ClaimWrittenExactly(ClaimsWritten(db, init), last, e);
      ClaimsKeepNodes(db, init);
      IdsInSnoc(claims);
      assert claims == init + [last];
      ClaimsSaySnoc(db.nodes.Keys, init, last, e);
    }
  }

  // ---- candidates, and a whole run ----

  lemma {:induction false} EntitiesAddNoEdge(db: DB, entities: seq<Entity>)
    ensures EntitiesWritten(db, entities).edges == db.edges
  {
    if entities != [] {
      EntitiesAddNoEdge(db, entities[..|entities| - 1]);
    }
  }

  ghost function EntityIds(c: Candidate): set<Id> {
    set x | x in c.entities :: x.id
  }

  /** What a candidate says: first its events, of what was stored and its entities; then its claims, of these and
      its written events. */
  ghost predicate CandidateSays(stored: set<Id>, c: Candidate, records: seq<RawRecord>, sealed: map<string, SealRef>,
                                e: Edge) {
    || EventsSay(stored + EntityIds(c), c.events, records, sealed, e)
    || ClaimsSay(stored + EntityIds(c) + WrittenEventIds(c.events, records, sealed), c.claims, e)
  }

  lemma CandidateWrittenExactly(db: DB, c: Candidate, records: seq<RawRecord>, sealed: map<string, SealRef>, e: Edge)
    ensures e in CandidateWritten(db, c, records, sealed).edges <==>
              e in db.edges || CandidateSays(db.nodes.Keys, c, records, sealed, e)
  {
    hide EntitiesWritten, EventsWritten, ClaimsWritten, EventsSay, ClaimsSay, WrittenEventIds;
    var named := EntitiesWritten(db, c.entities);
    EntitiesAddNoEdge(db, c.entities);
    EntitiesKeepNodes(db, c.entities);
    EventsWrittenExactly(named, c.events, records, sealed, e);
    EventsKeepNodes(named, c.events, records, sealed);
    ClaimsWrittenExactly(EventsWritten(named, c.events, records, sealed), c.claims, e);
  }

  /** What is stored once these candidates have been written over `stored`. */
  ghost function StoredAfter(stored: set<Id>, cs: seq<Candidate>, records: seq<RawRecord>,
                             sealed: map<string, SealRef>): set<Id> {
    stored + OtherIds(cs, records, sealed) + ClaimIds(cs)
  }

  ghost predicate CandidatesSay(stored: set<Id>, cs: seq<Candidate>, records: seq<RawRecord>,
                                sealed: map<string, SealRef>, e: Edge) {
    exists k :: 0 <= k < |cs| && CandidateSaysAt(stored, cs, records, sealed, k, e)
  }

  ghost predicate CandidateSaysAt(stored: set<Id>, cs: seq<Candidate>, records: seq<RawRecord>,
                                  sealed: map<string, SealRef>, k: nat, e: Edge)
    requires k < |cs|
  {
    CandidateSays(StoredAfter(stored, cs[..k], records, sealed), cs[k], records, sealed, e)
  }

  lemma CandidatesSaySnoc(stored: set<Id>, cs: seq<Candidate>, last: Candidate, records: seq<RawRecord>,
                          sealed: map<string, SealRef>, e: Edge)
    ensures CandidatesSay(stored, cs + [last], records, sealed, e) <==>
              || CandidatesSay(stored, cs, records, sealed, e)
              || CandidateSays(StoredAfter(stored, cs, records, sealed), last, records, sealed, e)
  {
    hide CandidateSays, StoredAfter;
    var (more, n) := (cs + [last], |cs|);
    assert more[..n] == cs && more[n] == last;
    forall k | 0 <= k < n
      ensures CandidateSaysAt(stored, more, records, sealed, k, e)
         <==> CandidateSaysAt(stored, cs, records, sealed, k, e) {
      assert more[..k] == cs[..k];
    }
    if CandidatesSay(stored, cs, records, sealed, e) {
      var k :| 0 <= k < n && CandidateSaysAt(stored, cs, records, sealed, k, e);
      assert CandidateSaysAt(stored, more, records, sealed, k, e);
    }
    assert CandidateSaysAt(stored, more, records, sealed, n, e)
      <==> CandidateSays(StoredAfter(stored, cs, records, sealed), last, records, sealed, e);
  }

  lemma {:induction false} CandidatesWrittenExactly(db: DB, cs: seq<Candidate>, records: seq<RawRecord>,
                                                    sealed: map<string, SealRef>, e: Edge)
    ensures e in CandidatesWritten(db, cs, records, sealed).edges <==>
              e in db.edges || CandidatesSay(db.nodes.Keys, cs, records, sealed, e)
  {
    if cs != [] {
      hide CandidateWritten, CandidateSays, CandidatesSay, OtherIds, ClaimIds;
      var (init, last) := (cs[..|cs| - 1], cs[|cs| - 1]);
      CandidatesWrittenExactly(db, init, records, sealed, e);
      CandidatesKeepNodes(db, init, records, sealed);
      CandidateWrittenExactly(CandidatesWritten(db, init, records, sealed), last, records, sealed, e);
      assert cs == init + [last];
      CandidatesSaySnoc(db.nodes.Keys, init, last, records, sealed, e);
    }
  }

  /** Exactly the edges a run leaves, of every kind: those that were there, and what its events and its resolved
      claims say, each of what is stored when its turn comes. */
  lemma RunEdgesExactly(db: DB, run: Run, orders: seq<seq<seq<Id>>>, e: Edge)
    requires AreBatchReads(db, run.owner, ClaimBatch(run.candidates), orders)
    ensures e in AfterRun(db, run, orders).edges <==>
              || e in db.edges
              || CandidatesSay(db.nodes.Keys, ResolvedCandidates(db, run, orders), run.records,
                               Sealed(run.records, run.seals), e)
  {
    hide AreBatchReads, ResolvedCandidates, CandidatesWritten, CandidatesSay;
    CandidatesWrittenExactly(db, ResolvedCandidates(db, run, orders), run.records, Sealed(run.records, run.seals), e);
  }
}
