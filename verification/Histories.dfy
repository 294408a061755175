/** Every store that any sequence of runs and fulfilment changes can lead to. */
module Histories {
  import opened Basics
  import opened Schema
  import opened Statements
  import opened Store
  import opened Resolver
  import opened Ledger
  import opened Ingestion
  import opened Writing
  import opened Runs

  // ---- one run ----

  /** A run the extractors could have produced, over a sound store, with reads the store could give. */
  ghost predicate CanRun(db: DB, run: Run, orders: seq<seq<seq<Id>>>) {
    Inv(db) && GoodRun(run) && AreBatchReads(db, run.owner, ClaimBatch(run.candidates), orders)
  }

  /** One order among those the store may answer in. */
  ghost function SomeReads(db: DB, owner: string, claims: seq<Claim>): (r: seq<seq<Id>>)
    ensures AreReads(db, owner, claims, r)
  {
    var r := seq(|claims|,
                 i requires 0 <= i < |claims| =>
                     Arrange(_ => Rank(0, 0), ClaimsAboutIds(db, owner, claims[i].subjects)));
    assert forall i :: 0 <= i < |claims| ==> IsRead(db, owner, claims[i], r[i]) by {
      forall i | 0 <= i < |claims| ensures IsRead(db, owner, claims[i], r[i]) {
        assert forall j :: 0 <= j < |r[i]| ==> r[i][j] in Elements(r[i]);
      }
    }
    r
  }

  /** Any good run can be made over any sound store: the store has an answer to each of its reads. */
  lemma AnyGoodRunCanBeMade(db: DB, run: Run)
    requires Inv(db) && GoodRun(run)
    ensures exists orders :: CanRun(db, run, orders)
  {
    var batch := ClaimBatch(run.candidates);
    var orders := seq(|batch|, k requires 0 <= k < |batch| => SomeReads(db, run.owner, batch[k]));
    hide Inv, GoodRun, AreReads, SomeReads;
    assert CanRun(db, run, orders);
  }

  // ---- what a run leaves behind, claim ids repeated or not ----

  /** A run that tells of its own entities, over a store whose rows and edges are in order, with reads the store
      could give. */
  ghost predicate CanWrite(db: DB, run: Run, orders: seq<seq<seq<Id>>>) {
    && Indexed(db) && EndsStored(db) && Tellable(run)
    && AreBatchReads(db, run.owner, ClaimBatch(run.candidates), orders)
  }

  /** What becomes pending in such a run. */
  ghost function Resolved(db: DB, run: Run, orders: seq<seq<seq<Id>>>): seq<Claim>
    requires CanWrite(db, run, orders)
  {
    PendingAfter(db, run.owner, ClaimBatch(run.candidates), orders)
  }

  /** Where the k-th candidate's claims begin among them. */
  ghost function Start(db: DB, run: Run, orders: seq<seq<seq<Id>>>, k: nat): nat
    requires CanWrite(db, run, orders) && k <= |run.candidates|
  {
    Offset(db, run.owner, ClaimBatch(run.candidates), orders, k)
  }

  lemma ResolvedClaims(db: DB, run: Run, orders: seq<seq<seq<Id>>>, k: nat)
    requires CanWrite(db, run, orders) && k < |run.candidates|
    ensures var (from, to) := (Start(db, run, orders, k), Start(db, run, orders, k + 1));
            && from <= to <= |Resolved(db, run, orders)|
            && ResolvedCandidates(db, run, orders)[k].claims == Resolved(db, run, orders)[from..to]
  {
    assert ResolvedCandidates(db, run, orders)[k].claims == SliceOf(db, run, orders, k);
    hide PendingAfter, Offset, AreReads, Indexed, EndsStored, Tellable, ResolvedCandidates, SliceOf;
    SliceIsStretch(db, run, orders, k);
  }

  lemma ResolvedPoints(db: DB, run: Run, orders: seq<seq<seq<Id>>>)
    requires CanWrite(db, run, orders)
    ensures Pointing(db, Resolved(db, run, orders))
  {
    hide PendingAfter, AreReads, Indexed, EndsStored, Pointing, Labelled, SubjectsWithin, Unresolved;
    var batch := ClaimBatch(run.candidates);
    assert forall k :: 0 <= k < |batch| ==> run.candidates[k] in run.candidates;
    PendingPoints(db, run.owner, batch, orders);
  }

  /** The store once the first k candidates are written. */
  ghost predicate WrittenUpTo(db: DB, run: Run, orders: seq<seq<seq<Id>>>, k: nat, after: DB)
    requires CanWrite(db, run, orders) && k <= |run.candidates|
  {
    && Start(db, run, orders, k) <= |Resolved(db, run, orders)|
    && Holding(db, after, Resolved(db, run, orders), Start(db, run, orders, k))
  }

  lemma CandidateRecorded(db: DB, run: Run, orders: seq<seq<seq<Id>>>, k: nat, before: DB)
    requires CanWrite(db, run, orders) && k < |run.candidates| && WrittenUpTo(db, run, orders, k, before)
    ensures WrittenUpTo(db, run, orders, k + 1,
                        CandidateWritten(before, ResolvedCandidates(db, run, orders)[k], run.records,
                                         Sealed(run.records, run.seals)))
  {
    ResolvedPoints(db, run, orders);
    ResolvedClaims(db, run, orders, k);
    ResolvedStaysGood(db, run, orders, k);
    var (c, resolved) := (ResolvedCandidates(db, run, orders)[k], Resolved(db, run, orders));
    var (from, to) := (Start(db, run, orders, k), Start(db, run, orders, k + 1));
    assert Labelled(c) && SubjectsWithin(c) by {
      assert run.candidates[k] in run.candidates;
    }
    hide Start, Resolved, CanWrite, ResolvedCandidates, Holding, HasEntity, TargetsPrecede, AreBatchReads, SaidAmong;
    OthersWritten(db, before, c, run.records, Sealed(run.records, run.seals), resolved, from);
    var mid := EventsWritten(EntitiesWritten(before, c.entities), c.events, run.records,
                             Sealed(run.records, run.seals));
    forall q | q in resolved[from..to] ensures "clm_" <= q.id && forall t :: t in q.subjects ==> HasEntity(mid, t) {
      assert ClaimNode(q).LabelMatchesId();
      forall t | t in q.subjects ensures HasEntity(mid, t) {
        var e :| e in c.entities && e.id == t;
      }
    }
    StretchRecorded(db, mid, resolved, from, to);
  }

  /** The store once the first k candidates have been written, as the write goes. */
  ghost function WrittenFirst(db: DB, run: Run, orders: seq<seq<seq<Id>>>, k: nat): DB
    requires CanWrite(db, run, orders) && k <= |run.candidates|
  {
    CandidatesWritten(db, ResolvedCandidates(db, run, orders)[..k], run.records, Sealed(run.records, run.seals))
  }

  lemma NothingRecorded(db: DB, run: Run, orders: seq<seq<seq<Id>>>)
    requires CanWrite(db, run, orders)
    ensures WrittenUpTo(db, run, orders, 0, WrittenFirst(db, run, orders, 0))
  {
    hide Indexed, EndsStored, AreReads, Tellable;
    assert Resolved(db, run, orders)[..0] == [];
  }

  lemma WrittenNext(db: DB, run: Run, orders: seq<seq<seq<Id>>>, k: nat)
    requires CanWrite(db, run, orders) && k < |run.candidates|
    ensures WrittenFirst(db, run, orders, k + 1)
         == CandidateWritten(WrittenFirst(db, run, orders, k), ResolvedCandidates(db, run, orders)[k],
                             run.records, Sealed(run.records, run.seals))
  {
    hide Indexed, EndsStored, Tellable, AreReads, CandidateWritten, CandidatesWritten, ResolvedCandidates;
    CandidatesNext(db, ResolvedCandidates(db, run, orders), k, run.records, Sealed(run.records, run.seals));
  }

  lemma CandidatesNext(db: DB, cs: seq<Candidate>, k: nat, records: seq<RawRecord>, sealed: map<string, SealRef>)
    requires k < |cs|
    ensures CandidatesWritten(db, cs[..k + 1], records, sealed)
         == CandidateWritten(CandidatesWritten(db, cs[..k], records, sealed), cs[k], records, sealed)
  {
    hide CandidateWritten;
    assert cs[..k + 1][..k] == cs[..k] && cs[..k + 1][k] == cs[k];
  }

  lemma {:induction false} CandidatesRecorded(db: DB, run: Run, orders: seq<seq<seq<Id>>>, k: nat)
    requires CanWrite(db, run, orders) && k <= |run.candidates|
    ensures WrittenUpTo(db, run, orders, k, WrittenFirst(db, run, orders, k))
  {
    hide WrittenUpTo, WrittenFirst, ResolvedCandidates, CandidateWritten, CanWrite, AreBatchReads;
    if k == 0 {
      NothingRecorded(db, run, orders);
    } else {
      CandidatesRecorded(db, run, orders, k - 1);
      WrittenNext(db, run, orders, k - 1);
      CandidateRecorded(db, run, orders, k - 1, WrittenFirst(db, run, orders, k - 1));
    }
  }

  /** Whether or not claim ids repeat, a run leaves the ledger with the resolved batch recorded in order, and
      adds exactly the telling edges that some resolved claim names. */
  lemma RunRecords(db: DB, run: Run, orders: seq<seq<seq<Id>>>)
    requires CanWrite(db, run, orders)
    ensures var resolved := Resolved(db, run, orders);
            Holding(db, AfterRun(db, run, orders), resolved, |resolved|)
  {
    var (n, batch, cs) := (|run.candidates|, ClaimBatch(run.candidates), ResolvedCandidates(db, run, orders));
    assert batch[..n] == batch && orders[..n] == orders && cs[..n] == cs;
    assert Start(db, run, orders, n) == |Resolved(db, run, orders)|;
    CandidatesRecorded(db, run, orders, n);
    hide Holding, CanWrite, AreBatchReads, Resolved, ResolvedCandidates;
  }

  // ---- when edges go on telling what claims say ----

  /** The version of a repeated id that is written last says all that earlier ones said. */
  ghost predicate LastSaysAll(batch: seq<Claim>) {
    forall i, j :: 0 <= i < j < |batch| && batch[i].id == batch[j].id && IsLast(batch, j) ==>
        SaysAll(batch[j], batch[i])
  }

  ghost predicate IsLast(batch: seq<Claim>, j: nat)
    requires j < |batch|
  {
    forall k :: j < k < |batch| ==> batch[k].id != batch[j].id
  }

  ghost predicate SaysAll(c: Claim, was: Claim) {
    && (forall t :: t in was.subjects ==> t in c.subjects)
    && (forall t :: t in was.supersedes ==> t in c.supersedes)
    && (forall t :: t in was.contradicts ==> t in c.contradicts)
  }

  /** Two claims that name the same. */
  ghost predicate SameNames(a: Claim, b: Claim) {
    a.id == b.id && a.subjects == b.subjects && a.supersedes == b.supersedes && a.contradicts == b.contradicts
  }

  lemma {:induction false} LastIsRecorded(cs: Claims, batch: seq<Claim>, j: nat)
    requires j < |batch| && IsLast(batch, j)
    ensures batch[j].id in Recorded(cs, batch) && SameNames(Recorded(cs, batch)[batch[j].id], batch[j])
  {
    var n := |batch| - 1;
    if j < n {
      assert forall k :: j < k < n ==> batch[..n][k] == batch[k];
      LastIsRecorded(cs, batch[..n], j);
    }
  }

  lemma {:induction false} OldIsRecorded(cs: Claims, batch: seq<Claim>, id: Id)
    requires id in cs && id !in IdsIn(batch) && cs[id].id == id
    ensures id in Recorded(cs, batch) && SameNames(Recorded(cs, batch)[id], cs[id])
  {
    if batch != [] {
      var n := |batch| - 1;
      assert batch[n] in batch && forall q :: q in batch[..n] ==> q in batch;
      OldIsRecorded(cs, batch[..n], id);
    }
  }

  lemma {:induction false} SomeLast(batch: seq<Claim>, i: nat) returns (j: nat)
    requires i < |batch|
    ensures i <= j < |batch| && batch[j].id == batch[i].id && IsLast(batch, j)
    decreases |batch| - i
  {
    j := i;
    if k :| i < k < |batch| && batch[k].id == batch[i].id {
      j := SomeLast(batch, k);
    }
  }

  /** What a claim and an edge kind point at, together: the ends of the edges it names. */
  lemma NamesSame(a: Claim, b: Claim)
    ensures SameNames(a, b) ==> forall e :: Names(a, e) <==> Names(b, e)
    ensures a.id == b.id && SaysAll(a, b) ==> forall e :: Names(b, e) ==> Names(a, e)
    ensures forall e :: Names(a, e) ==> Speaks(e) && e.from == a.id
  {
  }

  /** A recorded claim names what the last version of it names, or what it named before the run. */
  lemma RecordedNamed(db: DB, batch: seq<Claim>, id: Id) returns (c: Claim)
    requires Indexed(db) && Pointing(db, batch) && id in Recorded(ClaimsOf(db), batch)
    ensures SameNames(Recorded(ClaimsOf(db), batch)[id], c) && c.id == id
    ensures (id in ClaimsOf(db) && c == ClaimsOf(db)[id] && forall i :: 0 <= i < |batch| ==> batch[i].id != id)
         || exists j :: 0 <= j < |batch| && c == batch[j] && IsLast(batch, j)
  {
    RecordedHas(ClaimsOf(db), batch);
    hide Recorded;
    if i :| 0 <= i < |batch| && batch[i].id == id {
      var j := SomeLast(batch, i);
      LastIsRecorded(ClaimsOf(db), batch, j);
      c := batch[j];
    } else {
      OldIsRecorded(ClaimsOf(db), batch, id);
      c := ClaimsOf(db)[id];
    }
  }

  /** In terms of single edges: edges tell exactly what claims name, and join what is stored. */
  ghost predicate EdgesAreNames(db: DB, cs: Claims) {
    && EndsStored(db)
    && (forall e :: Speaks(e) && e in db.edges ==> e.from in cs && Names(cs[e.from], e))
    && (forall id, e :: id in cs && Names(cs[id], e) ==> e in db.edges)
    && (forall id, t :: id in cs && t in cs[id].subjects ==> HasEntity(db, t))
  }

  lemma TellsByNames(db: DB, cs: Claims)
    requires EdgesAreNames(db, cs) && forall id :: id in cs ==> cs[id].id == id
    ensures EdgesTrue(db, cs) && EdgesComplete(db, cs)
  {
    hide HasEntity;
    forall id, t | id in cs
      ensures t in cs[id].subjects ==> Edge(id, About, t) in db.edges
      ensures t in cs[id].supersedes ==> Edge(id, Rel.Supersedes, t) in db.edges
      ensures t in cs[id].contradicts ==> Edge(id, Rel.Contradicts, t) in db.edges
    {
      NamesEach(cs[id]);
    }
    assert EdgesTrue(db, cs);
  }

  /** The edges a claim names, one by one. */
  lemma NamesEach(c: Claim)
    ensures forall t :: Names(c, Edge(c.id, About, t)) <==> t in c.subjects
    ensures forall t :: Names(c, Edge(c.id, Rel.Supersedes, t)) <==> t in c.supersedes
    ensures forall t :: Names(c, Edge(c.id, Rel.Contradicts, t)) <==> t in c.contradicts
  {
  }

  lemma NamesByTelling(db: DB, cs: Claims)
    requires EdgesTrue(db, cs) && EdgesComplete(db, cs) && forall id :: id in cs ==> cs[id].id == id
    ensures EdgesAreNames(db, cs)
  {
    hide HasEntity;
    forall id, e | id in cs && Names(cs[id], e) ensures e in db.edges {
      assert e == Edge(id, e.rel, e.to);
    }
  }

  lemma EdgesTellMeans(db: DB)
    requires Indexed(db)
    ensures EdgesTell(db) <==> EdgesAreNames(db, ClaimsOf(db))
  {
    var cs := ClaimsOf(db);
    assert forall id :: id in cs ==> cs[id].id == id;
    hide ClaimsOf, Indexed, EdgesTrue, EdgesComplete, EdgesAreNames;
    if EdgesTell(db) {
      NamesByTelling(db, cs);
    } else if EdgesAreNames(db, cs) {
      TellsByNames(db, cs);
    }
  }

  lemma EntitiesStay(db: DB, after: DB, t: Id)
    requires Indexed(db) && Indexed(after) && db.nodes.Keys <= after.nodes.Keys && HasEntity(db, t)
    ensures HasEntity(after, t)
  {
    assert t in db.nodes.Keys && t in after.nodes.Keys;
    assert db.nodes[t].payload.LabelMatchesId() && after.nodes[t].payload.LabelMatchesId();
    PrefixesDiffer(t);
  }

  /** What is always so: whatever a claim names has its edge. */
  lemma NamedHasEdge(db: DB, after: DB, batch: seq<Claim>, id: Id)
    requires Indexed(db) && EdgesTell(db) && Pointing(db, batch) && Holding(db, after, batch, |batch|)
    requires id in ClaimsOf(after)
    ensures forall e :: Names(ClaimsOf(after)[id], e) ==> e in after.edges
    ensures forall t :: t in ClaimsOf(after)[id].subjects ==> HasEntity(after, t)
  {
    assert batch[..|batch|] == batch;
    EdgesTellMeans(db);
    hide Recorded, ClaimsOf, EdgesTell, Indexed, EndsStored, Pointing, HasEntity, Names, IsLast;
    var c := RecordedNamed(db, batch, id);
    NamesSame(ClaimsOf(after)[id], c);
    NamesSame(c, c);
    forall e | Names(c, e) ensures e in after.edges {
      if j :| 0 <= j < |batch| && c == batch[j] {
        assert NamedBy(batch, |batch|, e);
      }
    }
    forall t | t in c.subjects ensures HasEntity(after, t) {
      if id in ClaimsOf(db) && c == ClaimsOf(db)[id] {
        EntitiesStay(db, after, t);
      }
    }
  }

  lemma NamedByMeans(batch: seq<Claim>, e: Edge) returns (i: nat)
    requires NamedBy(batch, |batch|, e)
    ensures i < |batch| && Names(batch[i], e)
  {
    i :| 0 <= i < |batch| && Names(batch[i], e);
  }

  /** Where the last versions say all, every telling edge is named. */
  lemma EdgeIsNamed(db: DB, after: DB, batch: seq<Claim>, e: Edge)
    requires Indexed(db) && EdgesTell(db) && Pointing(db, batch) && Holding(db, after, batch, |batch|)
    requires LastSaysAll(batch) && Speaks(e) && e in after.edges
    ensures e.from in ClaimsOf(after) && Names(ClaimsOf(after)[e.from], e)
  {
    assert batch[..|batch|] == batch;
    EdgesTellMeans(db);
    RecordedHas(ClaimsOf(db), batch);
    var final := ClaimsOf(after);
    hide Recorded, EdgesTell, Indexed, EndsStored, HasEntity, Names, NamedBy, Speaks;
    if e in db.edges {
      assert forall q :: q in batch ==> q.id !in db.nodes;
      assert e.from in db.nodes;
      OldIsRecorded(ClaimsOf(db), batch, e.from) by {
        assert e.from !in IdsIn(batch);
      }
      NamesSame(ClaimsOf(db)[e.from], final[e.from]);
    } else {
      var i := NamedByMeans(batch, e);
      var j := SomeLast(batch, i);
      LastIsRecorded(ClaimsOf(db), batch, j);
      NamesSame(batch[j], batch[i]);
      NamesSame(batch[i], batch[j]);
      NamesSame(final[batch[j].id], batch[j]);
    }
  }

  lemma SaysAllByNames(c: Claim, was: Claim)
    requires c.id == was.id && forall e :: Names(was, e) ==> Names(c, e)
    ensures SaysAll(c, was)
  {
    NamesEach(c);
    NamesEach(was);
    hide Names;
  }

  /** Where every telling edge is named, the last versions say all. */
  lemma NamedSaysAll(db: DB, after: DB, batch: seq<Claim>, i: nat, j: nat)
    requires Indexed(db) && Holding(db, after, batch, |batch|) && EdgesTell(after)
    requires i < j < |batch| && batch[i].id == batch[j].id && IsLast(batch, j)
    ensures SaysAll(batch[j], batch[i])
  {
    assert batch[..|batch|] == batch;
    EdgesTellMeans(after);
    LastIsRecorded(ClaimsOf(db), batch, j);
    var (id, final) := (batch[j].id, ClaimsOf(after));
    hide Recorded, EdgesTell, Indexed, EndsStored, HasEntity, ClaimsOf, IsLast, Names, NamedBy, Speaks;
    NamesSame(batch[i], batch[i]);
    NamesSame(final[id], batch[j]);
    forall e | Names(batch[i], e) ensures Names(batch[j], e) {
      NamedWitness(batch, i, e);
    }
    SaysAllByNames(batch[j], batch[i]);
  }

  lemma NamedWitness(batch: seq<Claim>, i: nat, e: Edge)
    requires i < |batch| && Names(batch[i], e)
    ensures NamedBy(batch, |batch|, e)
  {
    hide Names;
  }

  lemma TellsWhenLastSayAll(db: DB, after: DB, batch: seq<Claim>)
    requires Indexed(db) && EdgesTell(db) && Pointing(db, batch) && Holding(db, after, batch, |batch|)
    requires LastSaysAll(batch)
    ensures EdgesTell(after)
  {
    assert Indexed(after) && EndsStored(after);
    hide Indexed, EndsStored, Pointing, Holding, LastSaysAll, ClaimsOf, EdgesTell, Names, Speaks, HasEntity;
    var cs := ClaimsOf(after);
    forall e | Speaks(e) && e in after.edges ensures e.from in cs && Names(cs[e.from], e) {
      EdgeIsNamed(db, after, batch, e);
    }
    forall id | id in cs
      ensures forall e :: Names(cs[id], e) ==> e in after.edges
      ensures forall t :: t in cs[id].subjects ==> HasEntity(after, t)
    {
      NamedHasEdge(db, after, batch, id);
    }
    EdgesTellMeans(after);
  }

  lemma LastSayAllWhenTells(db: DB, after: DB, batch: seq<Claim>)
    requires Indexed(db) && Holding(db, after, batch, |batch|) && EdgesTell(after)
    ensures LastSaysAll(batch)
  {
    hide Indexed, Holding, EdgesTell, IsLast, SaysAll;
    forall i, j | 0 <= i < j < |batch| && batch[i].id == batch[j].id && IsLast(batch, j)
      ensures SaysAll(batch[j], batch[i])
    {
      NamedSaysAll(db, after, batch, i, j);
    }
  }

  /** Exactly when a run keeps edges telling what claims say, claim ids repeated or not: if and only if, of each
      repeated id, the version written last names every subject and target that earlier ones named. */
  lemma EdgesTellExactly(db: DB, run: Run, orders: seq<seq<seq<Id>>>)
    requires CanWrite(db, run, orders) && EdgesTell(db)
    ensures EdgesTell(AfterRun(db, run, orders)) <==> LastSaysAll(Resolved(db, run, orders))
  {
    var (after, batch) := (AfterRun(db, run, orders), Resolved(db, run, orders));
    RunRecords(db, run, orders);
    ResolvedPoints(db, run, orders);
    hide AfterRun, Resolved, Indexed, EndsStored, Pointing, Holding, LastSaysAll, EdgesTell, Tellable, AreBatchReads;
    if LastSaysAll(batch) {
      TellsWhenLastSayAll(db, after, batch);
    } else if EdgesTell(after) {
      LastSayAllWhenTells(db, after, batch);
    }
  }

  // ---- good runs ----

  ghost function Pending(db: DB, run: Run, orders: seq<seq<seq<Id>>>): seq<Claim>
    requires CanRun(db, run, orders)
  {
    PendingAfter(db, run.owner, ClaimBatch(run.candidates), orders)
  }

  lemma CanRunCanWrite(db: DB, run: Run, orders: seq<seq<seq<Id>>>)
    requires CanRun(db, run, orders)
    ensures CanWrite(db, run, orders)
  {
    GoodIsTellable(run);
    hide Tellable, GoodRun, AreBatchReads, Sound;
    EdgesTellMeans(db);
  }

  /** A run that repeats no claim id keeps the store's invariant; what it adds to the ledger is the resolved
      batch. */
  lemma RunKeepsInv(db: DB, run: Run, orders: seq<seq<seq<Id>>>)
    requires CanRun(db, run, orders)
    ensures var after := AfterRun(db, run, orders);
            && Inv(after)
            && ClaimsOf(after) == Recorded(ClaimsOf(db), Pending(db, run, orders))
            && db.nodes.Keys <= after.nodes.Keys
  {
    CanRunCanWrite(db, run, orders);
    RunRecords(db, run, orders);
    EdgesTellExactly(db, run, orders);
    PendingIsWritable(db, run.owner, ClaimBatch(run.candidates), orders);
    var pending := Pending(db, run, orders);
    assert pending[..|pending|] == pending;
    hide AfterRun, CanWrite, GoodRun, Tellable, AreBatchReads, EdgesTell, EndsStored, TargetsPrecede, PendingAfter,
        Sound;
    assert LastSaysAll(pending);
  }

  // ---- fulfilment changes ----

  /** Everything the ledger's facts speak of is the same; only a commitment's lifecycle may differ. */
  predicate SameRecord(a: Claim, b: Claim) {
    && a.id == b.id && a.owner == b.owner && a.statement == b.statement && a.subjects == b.subjects
    && a.status == b.status && a.supersedes == b.supersedes && a.contradicts == b.contradicts
    && a.assertedAt == b.assertedAt && Obligation(a) == Obligation(b)
  }

  lemma SameRecordCompares(a: Claim, a': Claim, b: Claim, b': Claim)
    requires SameRecord(a', a) && SameRecord(b', b)
    ensures Outdates(a, b) == Outdates(a', b') && Clashes(a, b) == Clashes(a', b') && Rivals(a, b) == Rivals(a', b')
  {
    hide Topic, Tokens, Obligation;
  }

  /** The same claims, each the same record. */
  ghost predicate SameRecords(cs: Claims, cs': Claims) {
    cs'.Keys == cs.Keys && forall id :: id in cs ==> SameRecord(cs'[id], cs[id])
  }

  lemma SameRecordsEdges(cs: Claims, cs': Claims)
    requires SameRecords(cs, cs') && SupersedesEarlier(cs) && ContradictsEqual(cs)
    ensures SupersedesEarlier(cs') && ContradictsEqual(cs')
  {
    hide Outdates, Clashes, Rivals, Obligation;
    forall id, s | id in cs' && s in cs'[id].supersedes
      ensures s in cs' && Outdates(cs'[id], cs'[s]) && cs'[s].status == Superseded
    {
      SameRecordCompares(cs[id], cs'[id], cs[s], cs'[s]);
    }
    forall id, s | id in cs' && s in cs'[id].contradicts ensures s in cs' && Clashes(cs'[id], cs'[s]) {
      SameRecordCompares(cs[id], cs'[id], cs[s], cs'[s]);
    }
  }

  lemma SameRecordsReasons(cs: Claims, cs': Claims)
    requires SameRecords(cs, cs') && StatusExplained(cs)
    ensures StatusExplained(cs')
  {
    hide Outdates, Obligation;
    forall id | id in cs' && cs'[id].status == Superseded ensures HasSuccessor(cs', cs'[id]) {
      var x :| x in cs && Outdates(cs[x], cs[id]);
      SameRecordCompares(cs[x], cs'[x], cs[id], cs'[id]);
      assert Outdates(cs'[x], cs'[id]);
    }
  }

  lemma SameRecordsAgree(cs: Claims, cs': Claims)
    requires SameRecords(cs, cs') && ActiveAgree(cs)
    ensures ActiveAgree(cs')
  {
    hide Rivals, Obligation;
    forall a, b | a in cs' && b in cs' && Coexist(cs'[a], cs'[b]) ensures !Rivals(cs'[a], cs'[b]) {
      assert Coexist(cs[a], cs[b]);
      SameRecordCompares(cs[a], cs'[a], cs[b], cs'[b]);
    }
  }

  lemma SameRecordsTell(db: DB, after: DB)
    requires EdgesTell(db) && after.edges == db.edges && after.nodes.Keys == db.nodes.Keys
    requires SameRecords(ClaimsOf(db), ClaimsOf(after)) && forall id :: HasEntity(db, id) ==> HasEntity(after, id)
    ensures EdgesTell(after)
  {
    hide HasEntity, ClaimsOf, Obligation;
    assert EdgesTrue(after, ClaimsOf(after));
    assert EdgesComplete(after, ClaimsOf(after)) by {
      hide EdgesTrue;
    }
  }

  lemma FulfilRecords(db: DB, id: Id, state: Fulfillment, settledAt: Option<int>)
    requires Indexed(db)
    ensures var after := FulfillmentSet(db, id, state, settledAt);
            && Indexed(after)
            && after.nodes.Keys == db.nodes.Keys && after.edges == db.edges
            && (forall x :: HasEntity(db, x) ==> HasEntity(after, x))
            && SameRecords(ClaimsOf(db), ClaimsOf(after))
  {
    if HasClaim(db, id) && db.nodes[id].payload.claim.commitment.Some? {
      var c := db.nodes[id].payload.claim;
      var c' := c.(commitment := Some(Settled(c.commitment.value, state, settledAt)));
      assert ClaimsOf(db)[id] == c && c.id == id;
      RewrittenMeans(db, id, c');
      assert SameRecord(c', c);
      hide ClaimsOf, Indexed, HasEntity, Obligation, Rewritten, Settled, Promoted;
      RecordUpdated(ClaimsOf(db), id, c');
    } else {
      SameRecordAsIs(ClaimsOf(db));
    }
  }

  lemma SameRecordAsIs(cs: Claims)
    ensures SameRecords(cs, cs)
  {
  }

  lemma RecordUpdated(cs: Claims, id: Id, c: Claim)
    requires id in cs && SameRecord(c, cs[id])
    ensures SameRecords(cs, cs[id := c])
  {
  }

  lemma RewrittenMeans(db: DB, id: Id, c: Claim)
    requires Indexed(db) && HasClaim(db, id)
    requires c.id == id && c.owner == db.nodes[id].payload.claim.owner
             && c.assertedAt == db.nodes[id].payload.claim.assertedAt
    ensures var after := Rewritten(db, id, c);
            && Indexed(after)
            && after.nodes.Keys == db.nodes.Keys && after.edges == db.edges
            && (forall x :: HasEntity(db, x) ==> HasEntity(after, x))
            && ClaimsOf(after) == ClaimsOf(db)[id := c]
  {
    hide Promoted;
    assert ClaimsOf(Rewritten(db, id, c)) == ClaimsOf(db)[id := c];
  }

  lemma FulfilKeepsInv(db: DB, id: Id, state: Fulfillment, settledAt: Option<int>)
    requires Inv(db)
    ensures var after := FulfillmentSet(db, id, state, settledAt);
            && Inv(after)
            && after.nodes.Keys == db.nodes.Keys
            && SameRecords(ClaimsOf(db), ClaimsOf(after))
  {
    var (cs, after) := (ClaimsOf(db), FulfillmentSet(db, id, state, settledAt));
    var cs' := ClaimsOf(after);
    FulfilRecords(db, id, state, settledAt);
    assert forall x :: x in cs' ==> cs'[x].id == x;
    hide HasEntity, HasClaim, ClaimsOf, FulfillmentSet, SameRecord, Indexed, EdgesTell;
    SameRecordsEdges(cs, cs');
    SameRecordsReasons(cs, cs');
    SameRecordsAgree(cs, cs');
    SameRecordsTell(db, after);
  }
}
