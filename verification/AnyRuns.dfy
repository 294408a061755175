/** What any run and any history keep, claim ids repeated or not: nodes, rows, and every word told. */
module AnyRuns {
  import opened Basics
  import opened Schema
  import opened Statements
  import opened Store
  import opened Resolver
  import opened Ledger
  import opened Ingestion
  import opened Writing
  import opened Runs
  import opened Histories
  import opened Beliefs

  /** What a claim says, apart from what became of it. */
  datatype Words = Words(
    id: Id, owner: string, statement: string, subjects: seq<Id>,
    obligation: (Option<Id>, Option<Id>, Option<int>), assertedAt: int)

  function WordsOf(c: Claim): Words {
    Words(c.id, c.owner, c.statement, c.subjects, Obligation(c), c.assertedAt)
  }

  ghost function WordsIn(cs: Claims): set<Words> {
    set id | id in cs :: WordsOf(cs[id])
  }

  ghost function BatchWords(batch: seq<seq<Claim>>): set<Words> {
    set k, c | 0 <= k < |batch| && c in batch[k] :: WordsOf(c)
  }

  /** Everything the runs of a history were given to ingest. */
  ghost function Told(steps: seq<Step>): set<Words> {
    if steps == [] then {}
    else (if steps[0].Ingest? then BatchWords(ClaimBatch(steps[0].run.candidates)) else {}) + Told(steps[1..])
  }

  // ---- which nodes a run writes ----

  /** Ids of the entities and of the written events of some candidates. */
  ghost function OtherIds(cs: seq<Candidate>, records: seq<RawRecord>, sealed: map<string, SealRef>): set<Id> {
    if cs == [] then {}
    else
      var c := cs[|cs| - 1];
      OtherIds(cs[..|cs| - 1], records, sealed) + (set e | e in c.entities :: e.id)
          + WrittenEventIds(c.events, records, sealed)
  }

  ghost function ClaimIds(cs: seq<Candidate>): set<Id> {
    if cs == [] then {} else ClaimIds(cs[..|cs| - 1]) + IdsIn(cs[|cs| - 1].claims)
  }

  lemma {:induction false} ClaimsKeepNodes(db: DB, claims: seq<Claim>)
    ensures ClaimsWritten(db, claims).nodes.Keys == db.nodes.Keys + IdsIn(claims)
  {
    if claims != [] {
      var (init, c) := (claims[..|claims| - 1], claims[|claims| - 1]);
      hide ClaimWritten, IdsIn;
      ClaimsKeepNodes(db, init);
      IdsInSnoc(claims);
      ClaimKeepsNodes(ClaimsWritten(db, init), c);
    } else {
      assert IdsIn(claims) == {};
    }
  }

  lemma IdsInSnoc(claims: seq<Claim>)
    requires claims != []
    ensures IdsIn(claims) == IdsIn(claims[..|claims| - 1]) + {claims[|claims| - 1].id}
  {
    var (init, c) := (claims[..|claims| - 1], claims[|claims| - 1]);
    assert claims == init + [c];
  }

  lemma ClaimKeepsNodes(db: DB, c: Claim)
    ensures ClaimWritten(db, c).nodes.Keys == db.nodes.Keys + {c.id}
  {
    var stored := Upserted(db, ClaimNode(c));
    LinkedAllMeans(stored, c.id, About, c.subjects);
    var about := LinkedAll(stored, c.id, About, c.subjects);
    PartiesMean(about, c);
    LinkedAllMeans(PartiesLinked(about, c), c.id, Cites, CitedIds(c.citations));
    var cited := LinkedAll(PartiesLinked(about, c), c.id, Cites, CitedIds(c.citations));
    SupersedingKeepsNodes(cited, c.id, c.supersedes);
    LinkedAllMeans(SupersededAll(cited, c.id, c.supersedes), c.id, Rel.Contradicts, c.contradicts);
  }

  lemma {:induction false} SupersedingKeepsNodes(db: DB, from: Id, targets: seq<Id>)
    ensures SupersededAll(db, from, targets).nodes.Keys == db.nodes.Keys
  {
    if targets != [] {
      SupersedingKeepsNodes(db, from, targets[..|targets| - 1]);
    }
  }

  /** A run adds the nodes of its entities, of its written events and of its claims, and no others. */
  lemma {:induction false} CandidatesKeepNodes(db: DB, cs: seq<Candidate>, records: seq<RawRecord>,
                                               sealed: map<string, SealRef>)
    ensures CandidatesWritten(db, cs, records, sealed).nodes.Keys
            == db.nodes.Keys + OtherIds(cs, records, sealed) + ClaimIds(cs)
  {
    if cs != [] {
      var c := cs[|cs| - 1];
      var before := CandidatesWritten(db, cs[..|cs| - 1], records, sealed);
      CandidatesKeepNodes(db, cs[..|cs| - 1], records, sealed);
      EntitiesKeepNodes(before, c.entities);
      EventsKeepNodes(EntitiesWritten(before, c.entities), c.events, records, sealed);
      ClaimsKeepNodes(EventsWritten(EntitiesWritten(before, c.entities), c.events, records, sealed), c.claims);
      hide CandidatesWritten, EntitiesWritten, EventsWritten, ClaimsWritten;
      assert CandidateWritten(before, c, records, sealed).nodes.Keys
          == before.nodes.Keys + (set e | e in c.entities :: e.id) + WrittenEventIds(c.events, records, sealed)
              + IdsIn(c.claims);
    }
  }

  /** Resolving gives the same nodes but for claims. */
  lemma {:induction false} OtherIdsIgnoreClaims(a: seq<Candidate>, b: seq<Candidate>, records: seq<RawRecord>,
                                                s: map<string, SealRef>)
    requires |a| == |b| && forall k :: 0 <= k < |a| ==> a[k].entities == b[k].entities && a[k].events == b[k].events
    ensures OtherIds(a, records, s) == OtherIds(b, records, s)
  {
    if a != [] {
      OtherIdsIgnoreClaims(a[..|a| - 1], b[..|b| - 1], records, s);
    }
  }

  lemma RunWritesOthers(db: DB, run: Run, orders: seq<seq<seq<Id>>>)
    requires AreBatchReads(db, run.owner, ClaimBatch(run.candidates), orders)
    ensures AfterRun(db, run, orders).nodes.Keys
         == db.nodes.Keys + OtherIds(run.candidates, run.records, Sealed(run.records, run.seals))
             + ClaimIds(ResolvedCandidates(db, run, orders))
  {
    hide AreReads, PendingAfter, OtherIds, ClaimIds, SliceOf;
    var (cs, sealed) := (ResolvedCandidates(db, run, orders), Sealed(run.records, run.seals));
    CandidatesKeepNodes(db, cs, run.records, sealed);
    OtherIdsIgnoreClaims(cs, run.candidates, run.records, sealed);
  }

  // ---- every claim is stored ----

  /** The pending list has a claim of that id, from the given place on. */
  ghost predicate HasFrom(pending: seq<Claim>, from: nat, id: Id) {
    exists i :: from <= i < |pending| && pending[i].id == id
  }

  lemma {:induction false} AdmitAllAdmits(db: DB, owner: string, claims: seq<Claim>, orders: seq<seq<Id>>, p: Progress,
                                          c: Claim)
    requires AreReads(db, owner, claims, orders) && c in claims && c.id !in db.nodes
    ensures HasFrom(AdmitAll(db, owner, claims, orders, p).pending, |p.pending|, c.id)
  {
    hide Admit, IsRead;
    var n := |claims| - 1;
    var q := AdmitAll(db, owner, claims[..n], orders[..n], p);
    AdmitAllSays(db, owner, claims[..n], orders[..n], p);
    AdmitSays(db, owner, claims[n], orders[n], q);
    var after := AdmitAll(db, owner, claims, orders, p).pending;
    if c in claims[..n] {
      AdmitAllAdmits(db, owner, claims[..n], orders[..n], p, c);
      var i :| |p.pending| <= i < |q.pending| && q.pending[i].id == c.id;
      assert after[i].id == c.id;
    } else {
      AdmitGrows(db, owner, c, orders[n], q);
      assert after[|q.pending|].id == c.id;
    }
  }

  lemma AdmitGrows(db: DB, owner: string, c: Claim, order: seq<Id>, p: Progress)
    requires IsRead(db, owner, c, order) && c.id !in db.nodes
    ensures |Admit(db, owner, c, order, p).pending| == |p.pending| + 1
  {
    hide MeetAll, Engages;
  }

  lemma {:induction false} BatchIsAdmitted(db: DB, owner: string, batch: seq<seq<Claim>>, orders: seq<seq<seq<Id>>>,
                                           k: nat, c: Claim) returns (i: nat)
    requires AreBatchReads(db, owner, batch, orders) && k < |batch| && c in batch[k] && c.id !in db.nodes
    ensures Offset(db, owner, batch, orders, k) <= i < Offset(db, owner, batch, orders, k + 1)
    ensures i < |PendingAfter(db, owner, batch, orders)| && PendingAfter(db, owner, batch, orders)[i].id == c.id
  {
    hide AdmitAll, AreReads;
    var n := |batch| - 1;
    var before := PendingAfter(db, owner, batch[..n], orders[..n]);
    AdmitAllSays(db, owner, batch[n], orders[n], START.(pending := before));
    if k < n {
      OffsetInit(db, owner, batch, orders, k);
      OffsetInit(db, owner, batch, orders, k + 1);
      i := BatchIsAdmitted(db, owner, batch[..n], orders[..n], k, c);
    } else {
      AdmitAllAdmits(db, owner, batch[n], orders[n], START.(pending := before), c);
      i :| |before| <= i < |PendingAfter(db, owner, batch, orders)|
          && PendingAfter(db, owner, batch, orders)[i].id == c.id;
      assert batch[..n + 1] == batch && orders[..n + 1] == orders;
    }
  }

  lemma {:induction false} ClaimIdsHas(cs: seq<Candidate>, k: nat, q: Claim)
    requires k < |cs| && q in cs[k].claims
    ensures q.id in ClaimIds(cs)
  {
    var n := |cs| - 1;
    if k < n {
      ClaimIdsHas(cs[..n], k, q);
    }
  }

  /** Every claim a run is given is stored afterwards, under its id. */
  lemma EveryClaimIsStored(db: DB, run: Run, orders: seq<seq<seq<Id>>>, k: nat, c: Claim)
    requires AreBatchReads(db, run.owner, ClaimBatch(run.candidates), orders)
    requires k < |run.candidates| && c in run.candidates[k].claims
    ensures c.id in AfterRun(db, run, orders).nodes
  {
    hide AreReads, PendingAfter, Offset, SliceOf, OtherIds, ClaimIds, AfterRun;
    RunWritesOthers(db, run, orders);
    if c.id !in db.nodes {
      var batch := ClaimBatch(run.candidates);
      var i := BatchIsAdmitted(db, run.owner, batch, orders, k, c);
      SliceIsStretch(db, run, orders, k);
      var slice := SliceOf(db, run, orders, k);
      assert slice[i - Offset(db, run.owner, batch, orders, k)].id == c.id;
      ClaimIdsHas(ResolvedCandidates(db, run, orders), k, slice[i - Offset(db, run.owner, batch, orders, k)]);
    }
  }

  // ---- rows stay in order, and say only what was told ----

  lemma SameClaimSameWords(a: Claim, b: Claim)
    ensures SameClaim(a, b) ==> WordsOf(a) == WordsOf(b)
    ensures SameRecord(a, b) ==> WordsOf(a) == WordsOf(b)
    ensures MaybeSuperseded(a, b) ==> WordsOf(a) == WordsOf(b)
  {
  }

  /** `after` has every claim of `before` and of `told`, and says nothing else. */
  ghost predicate Extends(before: set<Words>, told: set<Words>, after: Claims) {
    && (forall id :: id in after ==> WordsOf(after[id]) in before + told)
    && (forall w :: w in before + told ==> w.id in after)
  }

  lemma BatchWordsMeans(batch: seq<seq<Claim>>, w: Words) returns (k: nat, c: Claim)
    requires w in BatchWords(batch)
    ensures k < |batch| && c in batch[k] && w == WordsOf(c)
  {
    k, c :| 0 <= k < |batch| && c in batch[k] && w == WordsOf(c);
  }

  /** The claims of this store say nothing that is not among `words`. */
  ghost predicate SaysOnly(db: DB, words: set<Words>) {
    forall id :: id in ClaimsOf(db) ==> WordsOf(ClaimsOf(db)[id]) in words
  }

  lemma {:induction false} SupersedingSaysOnly(db: DB, from: Id, targets: seq<Id>, words: set<Words>)
    requires Indexed(db) && SaysOnly(db, words)
    ensures Indexed(SupersededAll(db, from, targets)) && SaysOnly(SupersededAll(db, from, targets), words)
  {
    if targets != [] {
      hide Indexed, SaysOnly, ClaimsOf, StatusSet;
      var (init, t) := (targets[..|targets| - 1], targets[|targets| - 1]);
      SupersedingSaysOnly(db, from, init, words);
      var linked := Linked(SupersededAll(db, from, init), from, Rel.Supersedes, t);
      NodesDecideWords(SupersededAll(db, from, init), linked, words);
      StatusSaysOnly(linked, t, words);
    }
  }

  lemma NodesDecideWords(db: DB, after: DB, words: set<Words>)
    requires after.nodes == db.nodes && Indexed(db) && SaysOnly(db, words)
    ensures Indexed(after) && SaysOnly(after, words)
  {
    NodesDecide(db, after);
    hide ClaimsOf, WordsOf;
  }

  lemma StatusSaysOnly(db: DB, id: Id, words: set<Words>)
    requires Indexed(db) && SaysOnly(db, words)
    ensures Indexed(StatusSet(db, id, Superseded)) && SaysOnly(StatusSet(db, id, Superseded), words)
  {
    StatusSetMeans(db, id);
    hide ClaimsOf, Indexed, HasEntity, StatusSet;
  }

  lemma ClaimSaysOnly(db: DB, c: Claim, words: set<Words>)
    requires Indexed(db) && SaysOnly(db, words) && "clm_" <= c.id && WordsOf(c) in words
    ensures Indexed(ClaimWritten(db, c)) && SaysOnly(ClaimWritten(db, c), words)
  {
    hide SaysOnly, ClaimsOf, Indexed, WordsOf;
    var stored := Upserted(db, ClaimNode(c));
    UpsertSaysOnly(db, c, words);
    ClaimWrittenInSteps(db, c);
    ClaimCitedKeepsNodes(stored, c);
    var cited := ClaimCited(stored, c);
    NodesDecideWords(stored, cited, words);
    SupersedingSaysOnly(cited, c.id, c.supersedes, words);
    var superseding := SupersededAll(cited, c.id, c.supersedes);
    LinkedAllMeans(superseding, c.id, Rel.Contradicts, c.contradicts);
    NodesDecideWords(superseding, LinkedAll(superseding, c.id, Rel.Contradicts, c.contradicts), words);
  }

  lemma UpsertSaysOnly(db: DB, c: Claim, words: set<Words>)
    requires Indexed(db) && SaysOnly(db, words) && "clm_" <= c.id && WordsOf(c) in words
    ensures Indexed(Upserted(db, ClaimNode(c))) && SaysOnly(Upserted(db, ClaimNode(c)), words)
  {
    var after := Upserted(db, ClaimNode(c));
    ClaimUpserted(db, c);
    hide WordsOf, Promoted, Indexed, ClaimsOf;
    assert forall id :: id in ClaimsOf(after) ==> id == c.id || id in ClaimsOf(db);
  }

  lemma ClaimUpserted(db: DB, c: Claim)
    requires Indexed(db) && "clm_" <= c.id
    ensures var after := Upserted(db, ClaimNode(c)); Indexed(after) && ClaimsOf(after) == ClaimsOf(db)[c.id := c]
  {
    hide Promoted;
    assert ClaimsOf(Upserted(db, ClaimNode(c))) == ClaimsOf(db)[c.id := c];
  }

  lemma ClaimCitedKeepsNodes(stored: DB, c: Claim)
    ensures ClaimCited(stored, c).nodes == stored.nodes
  {
    var about := LinkedAll(stored, c.id, About, c.subjects);
    LinkedAllMeans(stored, c.id, About, c.subjects);
    PartiesMean(about, c);
    LinkedAllMeans(PartiesLinked(about, c), c.id, Cites, CitedIds(c.citations));
  }

  lemma {:induction false} ClaimsSayOnly(db: DB, claims: seq<Claim>, words: set<Words>)
    requires Indexed(db) && SaysOnly(db, words)
    requires forall c :: c in claims ==> "clm_" <= c.id && WordsOf(c) in words
    ensures Indexed(ClaimsWritten(db, claims)) && SaysOnly(ClaimsWritten(db, claims), words)
  {
    hide Indexed, SaysOnly, ClaimWritten, WordsOf;
    if claims != [] {
      var n := |claims| - 1;
      ClaimsSayOnly(db, claims[..n], words);
      ClaimSaysOnly(ClaimsWritten(db, claims[..n]), claims[n], words);
    }
  }

  lemma CandidateSaysOnly(db: DB, c: Candidate, records: seq<RawRecord>, sealed: map<string, SealRef>,
                          words: set<Words>)
    requires Indexed(db) && SaysOnly(db, words) && Labelled(c) && forall q :: q in c.claims ==> WordsOf(q) in words
    ensures var after := CandidateWritten(db, c, records, sealed); Indexed(after) && SaysOnly(after, words)
  {
    EntitiesLeaveClaims(db, c.entities);
    var named := EntitiesWritten(db, c.entities);
    EventsLeaveClaims(named, c.events, records, sealed);
    var mid := EventsWritten(named, c.events, records, sealed);
    assert Indexed(mid) && ClaimsOf(mid) == ClaimsOf(db);
    forall q | q in c.claims ensures "clm_" <= q.id {
      assert ClaimNode(q).LabelMatchesId();
    }
    hide Indexed, ClaimsOf, EventsWritten, EntitiesWritten, ClaimsWritten, WordsOf, Labelled;
    ClaimsSayOnly(mid, c.claims, words);
  }

  lemma {:induction false} CandidatesSayOnly(db: DB, cs: seq<Candidate>, records: seq<RawRecord>,
                                             sealed: map<string, SealRef>, words: set<Words>)
    requires Indexed(db) && SaysOnly(db, words)
    requires forall c :: c in cs ==> Labelled(c) && forall q :: q in c.claims ==> WordsOf(q) in words
    ensures var after := CandidatesWritten(db, cs, records, sealed); Indexed(after) && SaysOnly(after, words)
  {
    hide Indexed, SaysOnly, CandidateWritten, WordsOf, Labelled;
    if cs != [] {
      var n := |cs| - 1;
      CandidatesSayOnly(db, cs[..n], records, sealed, words);
      CandidateSaysOnly(CandidatesWritten(db, cs[..n], records, sealed), cs[n], records, sealed, words);
    }
  }

  lemma ResolvedWords(db: DB, run: Run, orders: seq<seq<seq<Id>>>, k: nat, q: Claim)
    requires AreBatchReads(db, run.owner, ClaimBatch(run.candidates), orders) && k < |run.candidates|
    requires q in ResolvedCandidates(db, run, orders)[k].claims
    ensures WordsOf(q) in BatchWords(ClaimBatch(run.candidates))
  {
    var was := run.candidates[k];
    ResolvedStaysGood(db, run, orders, k);
    hide AreReads, ResolvedCandidates, WordsOf, Labelled, SubjectsWithin, SameClaim;
    var c :| c in was.claims && SameClaim(q, c);
    SameClaimSameWords(q, c);
    assert c in ClaimBatch(run.candidates)[k];
  }

  /** A labelled run keeps every row in order, says nothing that was neither stored nor told, and loses no node. */
  lemma AnyRunSaysOnly(db: DB, run: Run, orders: seq<seq<seq<Id>>>)
    requires Indexed(db) && AllLabelled(run) && AreBatchReads(db, run.owner, ClaimBatch(run.candidates), orders)
    ensures var after := AfterRun(db, run, orders);
            && Indexed(after) && db.nodes.Keys <= after.nodes.Keys
            && SaysOnly(after, WordsIn(ClaimsOf(db)) + BatchWords(ClaimBatch(run.candidates)))
  {
    var (cs, words) :=
        (ResolvedCandidates(db, run, orders), WordsIn(ClaimsOf(db)) + BatchWords(ClaimBatch(run.candidates)));
    RunWritesOthers(db, run, orders);
    hide Indexed, AreBatchReads, WordsOf, Labelled, SubjectsWithin, SaidAmong, ClaimsOf, BatchWords, OtherIds, ClaimIds;
    forall c | c in cs ensures Labelled(c) && forall q :: q in c.claims ==> WordsOf(q) in words {
      var k :| 0 <= k < |cs| && cs[k] == c;
      assert run.candidates[k] in run.candidates;
      ResolvedStaysGood(db, run, orders, k);
      forall q | q in c.claims ensures WordsOf(q) in words {
        ResolvedWords(db, run, orders, k, q);
      }
    }
    assert SaysOnly(db, words);
    hide ResolvedCandidates, SaysOnly, WordsIn;
    CandidatesSayOnly(db, cs, run.records, Sealed(run.records, run.seals), words);
  }

  // ---- the ledger holds what was told ----

  lemma ClaimsKeepKeys(db: DB, after: DB, id: Id)
    requires Indexed(db) && Indexed(after) && db.nodes.Keys <= after.nodes.Keys && id in ClaimsOf(db)
    ensures id in ClaimsOf(after)
  {
    assert id in db.nodes.Keys && id in after.nodes.Keys;
    ClaimIdsAreClaims(after, id) by {
      assert db.nodes[id].payload.LabelMatchesId();
    }
    assert after.nodes[id].payload.ClaimNode?;
  }

  lemma IndexedHasIds(db: DB)
    requires Indexed(db)
    ensures forall id :: id in ClaimsOf(db) ==> ClaimsOf(db)[id].id == id
  {
  }

  lemma StoredIsClaim(db: DB, id: Id)
    requires Indexed(db) && "clm_" <= id && id in db.nodes
    ensures id in ClaimsOf(db)
  {
    ClaimIdsAreClaims(db, id);
    assert db.nodes[id].payload.ClaimNode?;
  }

  lemma RunForgetsNothing(db: DB, run: Run, orders: seq<seq<seq<Id>>>, w: Words)
    requires Indexed(db) && AllLabelled(run) && AreBatchReads(db, run.owner, ClaimBatch(run.candidates), orders)
    requires w in WordsIn(ClaimsOf(db)) + BatchWords(ClaimBatch(run.candidates))
    ensures w.id in ClaimsOf(AfterRun(db, run, orders))
  {
    var after := AfterRun(db, run, orders);
    AnyRunSaysOnly(db, run, orders);
    IndexedHasIds(db);
    hide AfterRun, ClaimsOf, Indexed, AreBatchReads, BatchWords, SaysOnly, ClaimBatch;
    if w in WordsIn(ClaimsOf(db)) {
      ClaimsKeepKeys(db, after, w.id);
    } else {
      var k, c := BatchWordsMeans(ClaimBatch(run.candidates), w);
      var was := run.candidates[k];
      assert was in run.candidates && c in was.claims && ClaimNode(c).LabelMatchesId();
      EveryClaimIsStored(db, run, orders, k, c);
      StoredIsClaim(after, c.id);
    }
  }

  lemma RunTells(db: DB, run: Run, orders: seq<seq<seq<Id>>>)
    requires Indexed(db) && AllLabelled(run) && AreBatchReads(db, run.owner, ClaimBatch(run.candidates), orders)
    ensures Extends(WordsIn(ClaimsOf(db)), BatchWords(ClaimBatch(run.candidates)), ClaimsOf(AfterRun(db, run, orders)))
  {
    AnyRunSaysOnly(db, run, orders);
    hide AfterRun, ClaimsOf, Indexed, AllLabelled, AreBatchReads, BatchWords, WordsIn, WordsOf;
    forall w | w in WordsIn(ClaimsOf(db)) + BatchWords(ClaimBatch(run.candidates))
      ensures w.id in ClaimsOf(AfterRun(db, run, orders))
    {
      RunForgetsNothing(db, run, orders, w);
    }
  }

  lemma SameRecordsSameWords(cs: Claims, after: Claims)
    requires SameRecords(cs, after) && forall id :: id in cs ==> cs[id].id == id
    ensures Extends(WordsIn(cs), {}, after)
  {
    forall x | x in cs ensures WordsOf(after[x]) == WordsOf(cs[x]) {
      SameClaimSameWords(after[x], cs[x]);
    }
    forall id | id in after ensures WordsOf(after[id]) in WordsIn(cs) {
      assert id in cs;
    }
  }

  lemma StepTells(db: DB, step: Step)
    requires Indexed(db) && Enabled(db, step)
    ensures Indexed(After(db, step)) && db.nodes.Keys <= After(db, step).nodes.Keys
    ensures Extends(WordsIn(ClaimsOf(db)), Told([step]), ClaimsOf(After(db, step)))
  {
    assert Told([step]) == if step.Ingest? then BatchWords(ClaimBatch(step.run.candidates)) else {} by {
      assert [step][1..] == [];
    }
    match step
    case Ingest(run, orders) =>
      hide Indexed, AfterRun, ClaimsOf, Extends;
      RunTells(db, run, orders);
      AnyRunSaysOnly(db, run, orders);
    case Fulfil(id, state, settledAt) =>
      FulfilRecords(db, id, state, settledAt);
      IndexedHasIds(db);
      hide FulfillmentSet, Indexed, ClaimsOf;
      SameRecordsSameWords(ClaimsOf(db), ClaimsOf(FulfillmentSet(db, id, state, settledAt)));
  }

  lemma ExtendsThen(before: set<Words>, told: set<Words>, mid: Claims, more: set<Words>, after: Claims)
    requires Extends(before, told, mid) && Extends(WordsIn(mid), more, after)
    requires forall id :: id in mid ==> mid[id].id == id
    ensures Extends(before, told + more, after)
  {
    SaidBefore(before + told, mid);
    hide WordsOf, WordsIn;
    forall w | w in before + (told + more) ensures w.id in after {
      if w in before + told {
        WordsAreIn(mid, w.id);
        assert WordsOf(mid[w.id]) in WordsIn(mid) + more;
      } else {
        assert w in WordsIn(mid) + more;
      }
    }
  }

  lemma SaidBefore(words: set<Words>, cs: Claims)
    requires forall id :: id in cs ==> WordsOf(cs[id]) in words
    ensures WordsIn(cs) <= words
  {
    hide WordsOf;
  }

  lemma WordsAreIn(cs: Claims, id: Id)
    requires id in cs && cs[id].id == id
    ensures WordsOf(cs[id]) in WordsIn(cs) && WordsOf(cs[id]).id == id
  {
  }

  /** Whatever the history, claim ids repeated or not, the ledger holds a claim for everything told, and nothing
      untold; rows stay in order, and no node goes. */
  lemma {:induction false} LedgerIsTold(db: DB, steps: seq<Step>, end: DB)
    requires Indexed(db) && Leads(db, steps, end)
    ensures Indexed(end) && db.nodes.Keys <= end.nodes.Keys
    ensures Extends(WordsIn(ClaimsOf(db)), Told(steps), ClaimsOf(end))
    decreases |steps|
  {
    if steps == [] {
      IndexedHasIds(db);
    } else {
      hide Indexed, ClaimsOf, After, Enabled, Extends, WordsIn;
      var mid := After(db, steps[0]);
      StepTells(db, steps[0]);
      IndexedHasIds(mid);
      ToldSplit(steps);
      hide Told;
      LedgerIsTold(mid, steps[1..], end);
      ExtendsThen(WordsIn(ClaimsOf(db)), Told([steps[0]]), ClaimsOf(mid), Told(steps[1..]), ClaimsOf(end));
    }
  }

  lemma ToldSplit(steps: seq<Step>)
    requires steps != []
    ensures Told([steps[0]]) + Told(steps[1..]) == Told(steps)
  {
    hide ClaimBatch, BatchWords;
    assert [steps[0]][1..] == [] && Told([]) == {};
  }
}
