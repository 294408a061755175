/** Whole runs over a whole store: what every run keeps, and what every history of runs ends with. */
module Runs {
  import opened Basics
  import opened Schema
  import opened Statements
  import opened Store
  import opened Resolver
  import opened Ledger
  import opened Ingestion
  import opened Writing

  // ---- what every run keeps ----

  ghost predicate Inv(db: DB) {
    Indexed(db) && EdgesTell(db) && Sound(ClaimsOf(db))
  }

  // ---- resolving a batch ----

  lemma ReadIsStale(db: DB, c: Claim, order: seq<Id>)
    requires Indexed(db) && EdgesTell(db) && c.id !in db.nodes && IsRead(db, c.owner, c, order)
    ensures IsStale(ClaimsOf(db), c, Hydrated(db, order))
  {
    var (cs, stored) := (ClaimsOf(db), Hydrated(db, order));
    forall o | o in stored ensures o.id in cs && cs[o.id] == o && o.owner == c.owner {
      var i :| 0 <= i < |stored| && stored[i] == o;
      assert order[i] in Elements(order);
    }
    forall x | x in cs && cs[x].owner == c.owner && ShareSubject(c, cs[x]) ensures cs[x] in stored {
      var e :| e in c.subjects && e in cs[x].subjects;
      assert x in ClaimsAboutIds(db, c.owner, c.subjects);
      assert x in Elements(order);
      var i :| 0 <= i < |order| && order[i] == x;
      assert stored[i] == cs[x];
    }
  }

  /** While edges tell what claims say, `claims_about` finds exactly the owner's claims that share a subject. */
  lemma ReadFindsSharers(db: DB, owner: string, subjects: seq<Id>, id: Id)
    requires Indexed(db) && EdgesTell(db)
    ensures id in ClaimsAboutIds(db, owner, subjects) <==>
              && id in ClaimsOf(db) && ClaimsOf(db)[id].owner == owner
              && exists e :: e in subjects && e in ClaimsOf(db)[id].subjects
  {
    var cs := ClaimsOf(db);
    assert id in cs <==> HasClaim(db, id);
    if id in cs {
      assert db.nodes[id].owner == cs[id].owner;
      forall e | e in cs[id].subjects ensures HasEntity(db, e) && Edge(id, About, e) in db.edges {
      }
      forall e | Edge(id, About, e) in db.edges ensures e in cs[id].subjects {
      }
    }
  }

  /** `t` was stored, or became pending before the i-th claim. */
  ghost predicate Precedes(cs: Claims, batch: seq<Claim>, i: nat, t: Id)
    requires i <= |batch|
  {
    t in cs || exists j :: 0 <= j < i && batch[j].id == t
  }

  /** What a pending claim points at precedes it, and is never the claim itself. */
  ghost predicate TargetsPrecede(cs: Claims, batch: seq<Claim>) {
    forall i, t :: 0 <= i < |batch| && (t in batch[i].supersedes || t in batch[i].contradicts) ==>
      t != batch[i].id && Precedes(cs, batch, i, t)
  }

  ghost function IdsIn(batch: seq<Claim>): set<Id> {
    set c | c in batch :: c.id
  }

  /** A pending list that can be written. */
  ghost predicate Writable(cs: Claims, owner: string, batch: seq<Claim>) {
    IsBatch(cs, owner, batch) && TargetsPrecede(cs, batch) && Sound(Recorded(cs, batch))
  }

  /** A claim only comes to point at claims it met. */
  lemma MetTargets(cs: Claims, batch: seq<Claim>, c: Claim, stored: seq<Claim>, t: Id)
    requires Unresolved(c) && forall o :: o in stored ==> o.id in cs
    requires var q := MeetAll(c, stored + batch); t in q.supersedes || t in q.contradicts
    ensures t != c.id && (t in cs || exists j :: 0 <= j < |batch| && batch[j].id == t)
  {
    var others := stored + batch;
    MeetAllMeans(c, others);
    hide MeetAll, Rivals;
    assert Beats(c, others, t) || Ties(c, others, t);
    var k :| 0 <= k < |others| && others[k].id == t && Engages(c, others[k]);
    if k < |stored| {
      assert others[k] == stored[k];
    } else {
      assert others[k] == batch[k - |stored|];
    }
  }

  lemma TargetsSnoc(cs: Claims, batch: seq<Claim>, yielded: seq<Claim>, q: Claim)
    requires TargetsPrecede(cs, batch) && |yielded| == |batch|
    requires forall i :: 0 <= i < |batch| ==>
               yielded[i].id == batch[i].id && yielded[i].supersedes == batch[i].supersedes
                   && yielded[i].contradicts == batch[i].contradicts
    requires forall t :: t in q.supersedes || t in q.contradicts ==>
               t != q.id && (t in cs || exists j :: 0 <= j < |batch| && batch[j].id == t)
    ensures TargetsPrecede(cs, yielded + [q])
  {
    var resolved := yielded + [q];
    forall i, t | 0 <= i < |resolved| && (t in resolved[i].supersedes || t in resolved[i].contradicts)
      ensures t != resolved[i].id && Precedes(cs, resolved, i, t)
    {
      if i < |batch| {
        assert t in batch[i].supersedes || t in batch[i].contradicts;
        assert Precedes(cs, batch, i, t);
      }
      if t !in cs {
        var j :| 0 <= j < i && batch[j].id == t;
        assert resolved[j].id == t;
      }
    }
  }

  lemma AdmissionTargets(cs: Claims, batch: seq<Claim>, c: Claim, stored: seq<Claim>)
    requires Unresolved(c) && (forall o :: o in stored ==> o.id in cs) && TargetsPrecede(cs, batch)
    ensures TargetsPrecede(cs, YieldAll(c, batch) + [MeetAll(c, stored + batch)])
  {
    MeetAllKeepsSaid(c, stored + batch);
    hide Engages, MeetAll, Unresolved;
    var q := MeetAll(c, stored + batch);
    forall t | t in q.supersedes || t in q.contradicts
      ensures t != q.id && (t in cs || exists j :: 0 <= j < |batch| && batch[j].id == t)
    {
      MetTargets(cs, batch, c, stored, t);
    }
    TargetsSnoc(cs, batch, YieldAll(c, batch), q);
  }

  lemma HydratedAreClaims(db: DB, order: seq<Id>)
    requires Indexed(db) && forall i :: 0 <= i < |order| ==> HasClaim(db, order[i])
    ensures forall o :: o in Hydrated(db, order) ==> o.id in ClaimsOf(db)
  {
  }

  /** What the pending list holds whatever was extracted: claims that are not stored, pointing at earlier ones. */
  ghost predicate Pointing(db: DB, batch: seq<Claim>) {
    TargetsPrecede(ClaimsOf(db), batch) && forall q :: q in batch ==> q.id !in db.nodes
  }

  lemma AdmitPoints(db: DB, owner: string, c: Claim, order: seq<Id>, p: Progress)
    requires Indexed(db) && IsRead(db, owner, c, order) && Unresolved(c) && Pointing(db, p.pending)
    ensures Pointing(db, Admit(db, owner, c, order, p).pending)
  {
    if c.id !in db.nodes {
      var stored := Hydrated(db, order);
      HydratedAreClaims(db, order);
      AdmissionTargets(ClaimsOf(db), p.pending, c, stored);
      MeetAllKeepsSaid(c, stored + p.pending);
      hide Indexed, ClaimsOf, TargetsPrecede, MeetAll, Engages, Unresolved;
      forall q | q in Admit(db, owner, c, order, p).pending ensures q.id !in db.nodes {
        if q in YieldAll(c, p.pending) {
          var i :| 0 <= i < |p.pending| && q == Yield(c, p.pending[i]);
          assert p.pending[i] in p.pending;
        }
      }
    }
  }

  lemma {:induction false} AdmitAllPoints(db: DB, owner: string, claims: seq<Claim>, orders: seq<seq<Id>>, p: Progress)
    requires Indexed(db) && AreReads(db, owner, claims, orders) && Pointing(db, p.pending)
    requires forall c :: c in claims ==> Unresolved(c)
    ensures Pointing(db, AdmitAll(db, owner, claims, orders, p).pending)
  {
    hide Indexed, Admit, IsRead, Unresolved, Pointing;
    if claims != [] {
      var n := |claims| - 1;
      AdmitAllPoints(db, owner, claims[..n], orders[..n], p);
      AdmitPoints(db, owner, claims[n], orders[n], AdmitAll(db, owner, claims[..n], orders[..n], p));
    }
  }

  /** Whatever the batch, claim ids repeated or not, a pending claim is new to the store and points only at
      other claims, stored or pending before it. */
  lemma {:induction false} PendingPoints(db: DB, owner: string, batch: seq<seq<Claim>>, orders: seq<seq<seq<Id>>>)
    requires Indexed(db) && AreBatchReads(db, owner, batch, orders)
    requires forall k, c :: 0 <= k < |batch| && c in batch[k] ==> Unresolved(c)
    ensures Pointing(db, PendingAfter(db, owner, batch, orders))
  {
    if batch != [] {
      hide Indexed, AdmitAll, AreReads, Unresolved, Pointing;
      var n := |batch| - 1;
      PendingPoints(db, owner, batch[..n], orders[..n]);
      AdmitAllPoints(db, owner, batch[n], orders[n],
                     START.(pending := PendingAfter(db, owner, batch[..n], orders[..n])));
    }
  }

  lemma AdmitIsReady(db: DB, owner: string, c: Claim, order: seq<Id>, batch: seq<Claim>)
    requires Inv(db) && c.id !in db.nodes && IsRead(db, owner, c, order)
    requires c.owner == owner && Unresolved(c) && c.id !in IdsIn(batch) && IsBatch(ClaimsOf(db), owner, batch)
    ensures Ready(ClaimsOf(db), owner, batch, c, Hydrated(db, order))
  {
    ReadIsStale(db, c, order);
    assert IsBatch(ClaimsOf(db), owner, batch + [c]) by {
      assert forall i :: 0 <= i < |batch| ==> batch[i].id in IdsIn(batch);
    }
  }

  lemma AdmitKeepsWritable(db: DB, owner: string, c: Claim, order: seq<Id>, p: Progress)
    requires Inv(db) && IsRead(db, owner, c, order) && c.owner == owner && Unresolved(c) && c.id !in IdsIn(p.pending)
    requires Writable(ClaimsOf(db), owner, p.pending)
    ensures var after := Admit(db, owner, c, order, p).pending;
            && Writable(ClaimsOf(db), owner, after)
            && IdsIn(after) == IdsIn(p.pending) + if c.id in db.nodes then {} else {c.id}
  {
    var (cs, batch) := (ClaimsOf(db), p.pending);
    if c.id !in db.nodes {
      var stored := Hydrated(db, order);
      AdmitIsReady(db, owner, c, order, batch);
      AdmissionKeepsSound(cs, owner, batch, c, stored);
      HydratedAreClaims(db, order);
      AdmissionTargets(cs, batch, c, stored);
      AdmissionIds(batch, c, MeetAll(c, stored + batch)) by {
        MeetAllMeans(c, stored + batch);
      }
    }
  }

  lemma AdmissionIds(batch: seq<Claim>, c: Claim, q: Claim)
    requires q.id == c.id
    ensures IdsIn(YieldAll(c, batch) + [q]) == IdsIn(batch) + {c.id}
  {
    hide Engages;
    var after := YieldAll(c, batch) + [q];
    assert forall i :: 0 <= i < |batch| ==> after[i].id == batch[i].id;
    assert after[|batch|] == q;
    forall id | id in IdsIn(batch) + {c.id} ensures id in IdsIn(after) {
      if id != c.id {
        var i :| 0 <= i < |batch| && batch[i].id == id;
        assert after[i] in after;
      }
    }
  }

  /** Claims as an extractor makes them for one owner. */
  ghost predicate Extracted(owner: string, claims: seq<Claim>) {
    && (forall i :: 0 <= i < |claims| ==> claims[i].owner == owner && Unresolved(claims[i]))
    && (forall i, j :: 0 <= i < j < |claims| ==> claims[i].id != claims[j].id)
  }

  ghost function NewIds(db: DB, claims: seq<Claim>): set<Id> {
    set c | c in claims && c.id !in db.nodes :: c.id
  }

  lemma ExtractedSplit(db: DB, owner: string, claims: seq<Claim>)
    requires Extracted(owner, claims) && claims != []
    ensures var (init, c) := (claims[..|claims| - 1], claims[|claims| - 1]);
            && Extracted(owner, init) && c.owner == owner && Unresolved(c) && c.id !in IdsIn(init)
            && IdsIn(claims) == IdsIn(init) + {c.id}
            && NewIds(db, claims) == NewIds(db, init) + (if c.id in db.nodes then {} else {c.id})
            && NewIds(db, init) <= IdsIn(init)
  {
    var (init, c) := (claims[..|claims| - 1], claims[|claims| - 1]);
    assert claims == init + [c];
  }

  lemma {:induction false} AdmitAllKeepsWritable(db: DB, owner: string, claims: seq<Claim>, orders: seq<seq<Id>>,
                                                 p: Progress)
    requires Inv(db) && AreReads(db, owner, claims, orders) && Extracted(owner, claims)
             && IdsIn(claims) !! IdsIn(p.pending)
    requires Writable(ClaimsOf(db), owner, p.pending)
    ensures var after := AdmitAll(db, owner, claims, orders, p).pending;
            Writable(ClaimsOf(db), owner, after) && IdsIn(after) == IdsIn(p.pending) + NewIds(db, claims)
  {
    hide Writable, Inv, Admit, IsRead, Extracted, IdsIn, Unresolved;
    if claims != [] {
      var n := |claims| - 1;
      ExtractedSplit(db, owner, claims);
      AdmitAllKeepsWritable(db, owner, claims[..n], orders[..n], p);
      AdmitKeepsWritable(db, owner, claims[n], orders[n], AdmitAll(db, owner, claims[..n], orders[..n], p));
    } else {
      assert NewIds(db, claims) == {};
    }
  }

  /** The extracted claims of a whole batch, no id twice. */
  ghost predicate ExtractedBatch(owner: string, batch: seq<seq<Claim>>) {
    && (forall k :: 0 <= k < |batch| ==> Extracted(owner, batch[k]))
    && (forall j, k :: 0 <= j < k < |batch| ==> IdsIn(batch[j]) !! IdsIn(batch[k]))
  }

  ghost function AllNewIds(db: DB, batch: seq<seq<Claim>>): set<Id> {
    if batch == [] then {} else AllNewIds(db, batch[..|batch| - 1]) + NewIds(db, batch[|batch| - 1])
  }

  lemma {:induction false} AllNewIdsMeans(db: DB, batch: seq<seq<Claim>>)
    ensures forall id :: id in AllNewIds(db, batch) <==> exists k :: 0 <= k < |batch| && id in NewIds(db, batch[k])
  {
    if batch != [] {
      var n := |batch| - 1;
      AllNewIdsMeans(db, batch[..n]);
      assert forall k :: 0 <= k < n ==> batch[..n][k] == batch[k];
    }
  }

  lemma ExtractedBatchSplit(db: DB, owner: string, batch: seq<seq<Claim>>)
    requires ExtractedBatch(owner, batch) && batch != []
    ensures var n := |batch| - 1;
            ExtractedBatch(owner, batch[..n]) && Extracted(owner, batch[n])
                && IdsIn(batch[n]) !! AllNewIds(db, batch[..n])
  {
    hide Extracted;
    var n := |batch| - 1;
    assert forall k :: 0 <= k < n ==> batch[..n][k] == batch[k];
    AllNewIdsMeans(db, batch[..n]);
    forall id | id in AllNewIds(db, batch[..n]) ensures id !in IdsIn(batch[n]) {
      var k :| 0 <= k < n && id in NewIds(db, batch[..n][k]);
      assert id in IdsIn(batch[k]);
    }
  }

  /** Resolving a whole batch, whatever order the store answers in, ends with a pending list that
      can be written, and that holds exactly the claims that were not stored. */
  lemma {:induction false} PendingIsWritable(db: DB, owner: string, batch: seq<seq<Claim>>, orders: seq<seq<seq<Id>>>)
    requires Inv(db) && AreBatchReads(db, owner, batch, orders) && ExtractedBatch(owner, batch)
    ensures var after := PendingAfter(db, owner, batch, orders);
            Writable(ClaimsOf(db), owner, after) && IdsIn(after) == AllNewIds(db, batch)
  {
    if batch == [] {
      assert Recorded(ClaimsOf(db), []) == ClaimsOf(db);
    } else {
      hide Writable, Inv, AdmitAll, Extracted, ExtractedBatch, AreReads, IdsIn, NewIds;
      var n := |batch| - 1;
      ExtractedBatchSplit(db, owner, batch);
      PendingIsWritable(db, owner, batch[..n], orders[..n]);
      var p := START.(pending := PendingAfter(db, owner, batch[..n], orders[..n]));
      AdmitAllKeepsWritable(db, owner, batch[n], orders[n], p);
    }
  }

  // ---- resolving changes no words ----

  /** One of `claims`, as resolving has left it. */
  ghost predicate SaidAmong(q: Claim, claims: seq<Claim>) {
    exists c :: c in claims && SameClaim(q, c)
  }

  lemma {:induction false} AdmitAllSays(db: DB, owner: string, claims: seq<Claim>, orders: seq<seq<Id>>, p: Progress)
    requires AreReads(db, owner, claims, orders)
    ensures var after := AdmitAll(db, owner, claims, orders, p).pending;
            && |after| >= |p.pending|
            && (forall i :: 0 <= i < |p.pending| ==> SameClaim(after[i], p.pending[i]))
            && (forall i :: |p.pending| <= i < |after| ==> SaidAmong(after[i], claims))
  {
    hide Admit, IsRead;
    if claims != [] {
      var n := |claims| - 1;
      var before := AdmitAll(db, owner, claims[..n], orders[..n], p).pending;
      AdmitAllSays(db, owner, claims[..n], orders[..n], p);
      AdmitSays(db, owner, claims[n], orders[n], AdmitAll(db, owner, claims[..n], orders[..n], p));
      var after := AdmitAll(db, owner, claims, orders, p).pending;
      forall i | |p.pending| <= i < |after| ensures SaidAmong(after[i], claims) {
        if i < |before| {
          assert SaidAmong(before[i], claims[..n]);
          var c :| c in claims[..n] && SameClaim(before[i], c);
          assert SameClaim(after[i], c);
        } else {
          assert SameClaim(after[i], claims[n]);
        }
      }
    }
  }

  lemma AdmitSays(db: DB, owner: string, claim: Claim, order: seq<Id>, p: Progress)
    requires IsRead(db, owner, claim, order)
    ensures var after := Admit(db, owner, claim, order, p).pending;
            && |p.pending| <= |after| <= |p.pending| + 1
            && (forall i :: 0 <= i < |p.pending| ==> SameClaim(after[i], p.pending[i]))
            && (|after| > |p.pending| ==> SameClaim(after[|p.pending|], claim))
  {
    if claim.id !in db.nodes {
      MeetAllKeepsSaid(claim, Hydrated(db, order) + p.pending);
    }
    hide Engages, MeetAll;
  }

  /** Every claim in a candidate's stretch of the final pending list is one of that candidate's. */
  lemma {:induction false} SliceSays(db: DB, owner: string, batch: seq<seq<Claim>>, orders: seq<seq<seq<Id>>>, k: nat,
                                     i: nat)
    requires k < |batch| && AreBatchReads(db, owner, batch, orders)
    requires Offset(db, owner, batch, orders, k) <= i < Offset(db, owner, batch, orders, k + 1)
    ensures i < |PendingAfter(db, owner, batch, orders)|
    ensures SaidAmong(PendingAfter(db, owner, batch, orders)[i], batch[k])
  {
    hide AdmitAll, AreReads;
    var n := |batch| - 1;
    var before := PendingAfter(db, owner, batch[..n], orders[..n]);
    AdmitAllSays(db, owner, batch[n], orders[n], START.(pending := before));
    hide SaidAmong;
    if k < n {
      OffsetInit(db, owner, batch, orders, k);
      OffsetInit(db, owner, batch, orders, k + 1);
      SliceSays(db, owner, batch[..n], orders[..n], k, i);
      SaidAmongStill(PendingAfter(db, owner, batch, orders)[i], before[i], batch[k]);
    } else {
      assert batch[..n + 1] == batch && orders[..n + 1] == orders;
    }
  }

  lemma SaidAmongStill(q: Claim, was: Claim, claims: seq<Claim>)
    requires SaidAmong(was, claims) && SameClaim(q, was)
    ensures SaidAmong(q, claims)
  {
    var c :| c in claims && SameClaim(was, c);
    assert SameClaim(q, c);
  }

  lemma OffsetInit(db: DB, owner: string, batch: seq<seq<Claim>>, orders: seq<seq<seq<Id>>>, k: nat)
    requires k < |batch| && AreBatchReads(db, owner, batch, orders)
    ensures var n := |batch| - 1;
            && AreBatchReads(db, owner, batch[..n], orders[..n])
            && Offset(db, owner, batch, orders, k) == Offset(db, owner, batch[..n], orders[..n], k)
  {
    hide AdmitAll, AreReads;
    var n := |batch| - 1;
    assert batch[..n][..k] == batch[..k] && orders[..n][..k] == orders[..k];
  }

  // ---- a whole run ----

  /** Every id of the run carries its label. */
  ghost predicate AllLabelled(run: Run) {
    forall c :: c in run.candidates ==> Labelled(c)
  }

  /** What the program makes sure of in an extracted run: labelled ids, claims that are active and point at
      nothing, about entities of their own candidate. */
  ghost predicate Tellable(run: Run) {
    forall c :: c in run.candidates ==>
      Labelled(c) && SubjectsWithin(c) && forall q :: q in c.claims ==> Unresolved(q)
  }

  /** Besides, claims of the run's owner and, an assumption, no claim id twice: an id digests owner, event and
      statement, and nothing keeps an extractor from making the same statement of an event again. */
  ghost predicate GoodRun(run: Run) {
    && (forall c :: c in run.candidates ==> Labelled(c) && SubjectsWithin(c))
    && ExtractedBatch(run.owner, ClaimBatch(run.candidates))
  }

  lemma GoodIsTellable(run: Run)
    requires GoodRun(run)
    ensures Tellable(run)
  {
    var batch := ClaimBatch(run.candidates);
    forall c, q | c in run.candidates && q in c.claims ensures Unresolved(q) {
      var k :| 0 <= k < |run.candidates| && run.candidates[k] == c;
      assert Extracted(run.owner, batch[k]);
    }
  }

  ghost predicate SubjectsWithin(c: Candidate) {
    forall claim, t :: claim in c.claims && t in claim.subjects ==> exists e :: e in c.entities && e.id == t
  }

  lemma StretchSaid(db: DB, owner: string, batch: seq<seq<Claim>>, orders: seq<seq<seq<Id>>>, k: nat, q: Claim)
    requires k < |batch| && AreBatchReads(db, owner, batch, orders)
    requires q in Stretch(db, owner, batch, orders, k)
    ensures SaidAmong(q, batch[k])
  {
    hide PendingAfter, Offset, AreReads, SaidAmong;
    var i :| 0 <= i < |Stretch(db, owner, batch, orders, k)| && Stretch(db, owner, batch, orders, k)[i] == q;
    SliceBounds(db, owner, batch, orders, k);
    SliceSays(db, owner, batch, orders, k, Offset(db, owner, batch, orders, k) + i);
  }

  /** Every claim a candidate comes back with is one of its own, as resolving has left it. */
  lemma SliceSaid(db: DB, run: Run, orders: seq<seq<seq<Id>>>, k: nat, q: Claim)
    requires AreBatchReads(db, run.owner, ClaimBatch(run.candidates), orders) && k < |run.candidates|
    requires q in SliceOf(db, run, orders, k)
    ensures SaidAmong(q, run.candidates[k].claims)
  {
    hide Stretch, AreBatchReads, SaidAmong;
    StretchSaid(db, run.owner, ClaimBatch(run.candidates), orders, k, q);
  }

  lemma GoodWhenSaidAmong(was: Candidate, claims: seq<Claim>)
    requires forall q :: q in claims ==> SaidAmong(q, was.claims)
    ensures Labelled(was) ==> Labelled(was.(claims := claims))
    ensures SubjectsWithin(was) ==> SubjectsWithin(was.(claims := claims))
  {
    forall q | q in claims
      ensures Labelled(was) ==> ClaimNode(q).LabelMatchesId()
      ensures SubjectsWithin(was) ==> forall t :: t in q.subjects ==> exists e :: e in was.entities && e.id == t
    {
      var c :| c in was.claims && SameClaim(q, c);
      assert Labelled(was) ==> ClaimNode(c).LabelMatchesId();
    }
  }

  /** Resolving keeps a candidate labelled, and its claims about its own entities. */
  lemma ResolvedStaysGood(db: DB, run: Run, orders: seq<seq<seq<Id>>>, k: nat)
    requires AreBatchReads(db, run.owner, ClaimBatch(run.candidates), orders) && k < |run.candidates|
    ensures var (was, now) := (run.candidates[k], ResolvedCandidates(db, run, orders)[k]);
            && now == was.(claims := now.claims)
            && (forall q :: q in now.claims ==> SaidAmong(q, was.claims))
            && (Labelled(was) ==> Labelled(now)) && (SubjectsWithin(was) ==> SubjectsWithin(now))
  {
    var (was, now) := (run.candidates[k], ResolvedCandidates(db, run, orders)[k]);
    assert now == was.(claims := SliceOf(db, run, orders, k));
    hide AreReads, ResolvedCandidates, SliceOf, SaidAmong, Labelled, SubjectsWithin;
    forall q | q in now.claims ensures SaidAmong(q, was.claims) {
      SliceSaid(db, run, orders, k, q);
    }
    GoodWhenSaidAmong(was, now.claims);
  }

  datatype RunResult = RunResult(
    supersessions: seq<(Id, Id)>, contradictions: seq<(Id, Id)>, written: seq<Id>, sealFailures: seq<string>,
        skipped: seq<Id>)

  method ReadValues(live: seq<LiveClaim>) returns (r: seq<Claim>)
    ensures r == Values(live)
  {
    r := [];
    var i := 0;
    while i < |live|
      invariant 0 <= i == |r| <= |live|
      invariant forall j :: 0 <= j < i ==> r[j] == live[j].Value()
    {
      r := r + [live[i].Value()];
      i := i + 1;
    }
  }

  lemma SliceIsRead(db: DB, run: Run, orders: seq<seq<seq<Id>>>, items: seq<LiveClaim>, resolutions: seq<Resolution>,
                    k: nat)
    requires AreBatchReads(db, run.owner, ClaimBatch(run.candidates), orders) && k < |run.candidates|
    requires AreSlices(db, run.owner, ClaimBatch(run.candidates), orders, items, resolutions)
    requires Values(items) == PendingAfter(db, run.owner, ClaimBatch(run.candidates), orders)
    ensures Values(resolutions[k].newClaims) == SliceOf(db, run, orders, k)
    ensures var reported := Reported(db, run.owner, ClaimBatch(run.candidates), orders, k);
            resolutions[k].supersessions == reported.supersessions
                && resolutions[k].contradictions == reported.contradictions
  {
    hide PendingAfter, Offset, AreReads, Reported, SliceOf;
    SliceIsStretch(db, run, orders, k);
    assert IsSlice(db, run.owner, ClaimBatch(run.candidates), orders, items, k, resolutions[k]);
  }

  /** The `resolve` node: the candidates come back with their claims replaced by the new ones. */
  method ResolveNode(store: Neo4jStore, run: Run)
    returns (merged: seq<Candidate>, supersessions: seq<(Id, Id)>, contradictions: seq<(Id, Id)>,
             ghost orders: seq<seq<seq<Id>>>)
    ensures AreBatchReads(store.State(), run.owner, ClaimBatch(run.candidates), orders)
    ensures merged == ResolvedCandidates(store.State(), run, orders)
    ensures supersessions == Supersessions(store.State(), run, orders, |run.candidates|)
    ensures contradictions == Contradictions(store.State(), run, orders, |run.candidates|)
  {
    hide AdmitAll, AreReads, PendingAfter, SliceOf, AreSlices, Reported;
    ghost var db := store.State();
    var resolver := new ClaimResolver(store);
    var batch := ClaimBatch(run.candidates);
    ghost var pending;
    var resolutions;
    resolutions, pending, orders := resolver.ResolveBatch(run.owner, batch);
    merged, supersessions, contradictions := [], [], [];
    var k := 0;
    while k < |run.candidates|
      invariant 0 <= k == |merged| <= |run.candidates|
      invariant |resolutions| == |batch| && AreSlices(db, run.owner, batch, orders, pending.items, resolutions)
      invariant Values(pending.items) == PendingAfter(db, run.owner, batch, orders)
      invariant forall j :: 0 <= j < k ==> merged[j] == run.candidates[j].(claims := SliceOf(db, run, orders, j))
      invariant supersessions == Supersessions(db, run, orders, k)
                && contradictions == Contradictions(db, run, orders, k)
    {
      SliceIsRead(db, run, orders, pending.items, resolutions, k);
      var claims := ReadValues(resolutions[k].newClaims);
      merged := merged + [run.candidates[k].(claims := claims)];
      supersessions := supersessions + resolutions[k].supersessions;
      contradictions := contradictions + resolutions[k].contradictions;
      k := k + 1;
    }
  }

  method RunIngestion(store: Neo4jStore, run: Run) returns (result: RunResult, ghost orders: seq<seq<seq<Id>>>)
    modifies store
    ensures AreBatchReads(old(store.State()), run.owner, ClaimBatch(run.candidates), orders)
    ensures store.State() == AfterRun(old(store.State()), run, orders)
    ensures result.supersessions == Supersessions(old(store.State()), run, orders, |run.candidates|)
    ensures result.contradictions == Contradictions(old(store.State()), run, orders, |run.candidates|)
    ensures var (merged, sealed) :=
            (ResolvedCandidates(old(store.State()), run, orders), Sealed(run.records, run.seals));
            result.written == WrittenIds(merged, run.records, sealed)
                && result.skipped == SkippedIds(merged, run.records, sealed)
    ensures Distinct(result.sealFailures) && forall id :: id in result.sealFailures <==>
              NeedsSeal(run.records, id) && id !in run.seals
  {
    hide PendingAfter, AreReads;
    ghost var db := store.State();
    var merged, supersessions, contradictions;
    merged, supersessions, contradictions, orders := ResolveNode(store, run);
    var sealed, failures := Encrypt(run.records, run.seals);
    assert sealed == Sealed(run.records, run.seals);
    var written, skipped := Write(store, merged, run.records, sealed);
    result := RunResult(supersessions, contradictions, written, failures, skipped);
  }

  // ---- writing a run ----

  ghost predicate NamedBy(batch: seq<Claim>, n: nat, e: Edge)
    requires n <= |batch|
  {
    exists i :: 0 <= i < n && Names(batch[i], e)
  }

  /** The store once the first n pending claims have been written over `base`: it holds the ledger with these
      recorded, and of the edges that tell of claims the ones `base` had and the ones these name. */
  ghost predicate Holding(base: DB, db: DB, batch: seq<Claim>, n: nat)
    requires n <= |batch|
  {
    && Indexed(db) && EndsStored(db) && base.nodes.Keys <= db.nodes.Keys
    && ClaimsOf(db) == Recorded(ClaimsOf(base), batch[..n])
    && (forall e :: Speaks(e) ==> (e in db.edges <==> e in base.edges || NamedBy(batch, n, e)))
    && (forall i, t :: 0 <= i < n && t in batch[i].subjects ==> HasEntity(db, t))
  }

  lemma ClaimIdsAreClaims(db: DB, id: Id)
    requires Indexed(db) && "clm_" <= id && id in db.nodes
    ensures HasClaim(db, id)
  {
    PrefixesDiffer(id);
    assert db.nodes[id].payload.LabelMatchesId();
  }

  /** Recording loses no claim and adds every one, repeated or not. */
  lemma {:induction false} RecordedHas(cs: Claims, batch: seq<Claim>)
    ensures Recorded(cs, batch).Keys == cs.Keys + IdsIn(batch)
  {
    if batch != [] {
      var n := |batch| - 1;
      RecordedHas(cs, batch[..n]);
      hide Recorded;
      assert batch == batch[..n] + [batch[n]];
      assert IdsIn(batch) == IdsIn(batch[..n]) + {batch[n].id};
      assert Recorded(cs, batch) == Absorb(Recorded(cs, batch[..n]), batch[n]) by {
        RecordedSnoc(cs, batch[..n], batch[n]);
      }
    } else {
      assert IdsIn(batch) == {};
    }
  }

  /** When its turn comes, what the next pending claim names is in the store. */
  lemma NextIsPlaceable(base: DB, db: DB, batch: seq<Claim>, n: nat)
    requires n < |batch| && Holding(base, db, batch, n) && TargetsPrecede(ClaimsOf(base), batch)
    requires "clm_" <= batch[n].id && forall t :: t in batch[n].subjects ==> HasEntity(db, t)
    ensures Placeable(db, batch[n])
  {
    var (c, cs, init) := (batch[n], ClaimsOf(base), batch[..n]);
    RecordedHas(cs, init);
    hide Recorded, Indexed, EndsStored, NamedBy;
    forall t | t in c.supersedes || t in c.contradicts ensures t in db.nodes && t != c.id {
      if t !in cs {
        var j :| 0 <= j < n && batch[j].id == t;
        assert init[j] in init;
      }
      assert t in ClaimsOf(db);
    }
  }

  lemma NamedBySnoc(batch: seq<Claim>, n: nat, e: Edge)
    requires n < |batch|
    ensures NamedBy(batch, n + 1, e) <==> NamedBy(batch, n, e) || Names(batch[n], e)
  {
    hide Names;
  }

  lemma ClaimRecorded(base: DB, db: DB, batch: seq<Claim>, n: nat)
    requires n < |batch| && Holding(base, db, batch, n) && TargetsPrecede(ClaimsOf(base), batch)
    requires "clm_" <= batch[n].id && forall t :: t in batch[n].subjects ==> HasEntity(db, t)
    ensures var after := ClaimWritten(db, batch[n]);
            && Holding(base, after, batch, n + 1)
            && forall id :: HasEntity(db, id) ==> HasEntity(after, id)
  {
    hide Recorded, Absorb, ClaimWritten, ClaimsOf, Indexed, Placeable, TargetsPrecede, HasEntity, EndsStored, NamedBy,
      Names, Speaks;
    NextIsPlaceable(base, db, batch, n);
    ClaimWrittenNodes(db, batch[n]);
    ClaimWrittenEdges(db, batch[n]);
    EndsStillStored(db, batch[n]);
    RecordedSnoc(ClaimsOf(base), batch[..n], batch[n]);
    assert batch[..n + 1] == batch[..n] + [batch[n]];
    forall e {
      NamedBySnoc(batch, n, e);
    }
  }

  lemma {:induction false} StretchRecorded(base: DB, db: DB, batch: seq<Claim>, from: nat, to: nat)
    requires from <= to <= |batch| && Holding(base, db, batch, from) && TargetsPrecede(ClaimsOf(base), batch)
    requires forall q :: q in batch[from..to] ==> "clm_" <= q.id && forall t :: t in q.subjects ==> HasEntity(db, t)
    ensures var after := ClaimsWritten(db, batch[from..to]);
            && Holding(base, after, batch, to)
            && forall id :: HasEntity(db, id) ==> HasEntity(after, id)
  {
    hide Holding, TargetsPrecede, HasEntity, ClaimWritten;
    if from < to {
      assert batch[from..to] == batch[from..to - 1] + [batch[to - 1]];
      StretchRecorded(base, db, batch, from, to - 1);
      assert batch[from..to][..to - 1 - from] == batch[from..to - 1];
      ClaimRecorded(base, ClaimsWritten(db, batch[from..to - 1]), batch, to - 1);
    } else {
      assert batch[from..to] == [];
    }
  }

  lemma OthersWritten(base: DB, db: DB, c: Candidate, records: seq<RawRecord>, sealed: map<string, SealRef>,
                      batch: seq<Claim>, n: nat)
    requires n <= |batch| && Holding(base, db, batch, n) && Labelled(c)
    ensures var after := EventsWritten(EntitiesWritten(db, c.entities), c.events, records, sealed);
            && Holding(base, after, batch, n)
            && forall e :: e in c.entities ==> HasEntity(after, e.id)
  {
    var between := EntitiesWritten(db, c.entities);
    hide EntitiesWritten, EventsWritten, Indexed, HasEntity, ClaimsOf, EndsStored, Recorded, NamedBy, Speaks;
    EntitiesLeaveClaims(db, c.entities);
    EntitiesKeepNodes(db, c.entities);
    HoldingKept(base, db, between, batch, n);
    EventsLeaveClaims(between, c.events, records, sealed);
    EventsKeepNodes(between, c.events, records, sealed);
    HoldingKept(base, between, EventsWritten(between, c.events, records, sealed), batch, n);
  }

  lemma HoldingKept(base: DB, db: DB, after: DB, batch: seq<Claim>, n: nat)
    requires n <= |batch| && Holding(base, db, batch, n)
    requires ClaimsUntouched(db, after) && db.nodes.Keys <= after.nodes.Keys
    ensures Holding(base, after, batch, n)
  {
    hide ClaimsOf, Indexed, EndsStored, HasEntity, Recorded, NamedBy, Speaks;
  }

  lemma {:induction false} EntitiesKeepNodes(db: DB, entities: seq<Entity>)
    ensures EntitiesWritten(db, entities).nodes.Keys == db.nodes.Keys + set e | e in entities :: e.id
  {
    if entities != [] {
      EntitiesKeepNodes(db, entities[..|entities| - 1]);
      assert entities == entities[..|entities| - 1] + [entities[|entities| - 1]];
    }
  }

  /** The ids of the events a run writes. */
  ghost function WrittenEventIds(events: seq<Event>, records: seq<RawRecord>, sealed: map<string, SealRef>): set<Id> {
    set e | e in events && !IsSkipped(e, records, sealed) :: e.id
  }

  lemma EventKeepsNodes(db: DB, e: Event, records: seq<RawRecord>, sealed: map<string, SealRef>)
    ensures EventWritten(db, e, records, sealed).nodes.Keys == db.nodes.Keys + if IsSkipped(e, records, sealed) then {}
            else {e.id}
  {
    hide IsSkipped;
    if !IsSkipped(e, records, sealed) {
      var stored := Upserted(db, EventNode(AsWritten(e, sealed)));
      assert stored.nodes.Keys == db.nodes.Keys + {e.id};
      hide Upserted;
      LinkedAllMeans(stored, e.id, Mentions, e.entityIds);
      LinkedAllMeans(LinkedAll(stored, e.id, Mentions, e.entityIds), e.id, Cites, Without(CitedIds(e.citations), e.id));
    }
  }

  lemma {:induction false} EventsKeepNodes(db: DB, events: seq<Event>, records: seq<RawRecord>,
                                           sealed: map<string, SealRef>)
    ensures EventsWritten(db, events, records, sealed).nodes.Keys
            == db.nodes.Keys + WrittenEventIds(events, records, sealed)
  {
    if events != [] {
      hide EventWritten, IsSkipped;
      var (init, e) := (events[..|events| - 1], events[|events| - 1]);
      EventsKeepNodes(db, init, records, sealed);
      EventKeepsNodes(EventsWritten(db, init, records, sealed), e, records, sealed);
      WrittenSnoc(init, e, records, sealed);
      hide WrittenEventIds;
      assert events == init + [e];
    } else {
      assert WrittenEventIds(events, records, sealed) == {};
    }
  }

  lemma WrittenSnoc(init: seq<Event>, e: Event, records: seq<RawRecord>, sealed: map<string, SealRef>)
    ensures WrittenEventIds(init + [e], records, sealed)
         == WrittenEventIds(init, records, sealed) + if IsSkipped(e, records, sealed) then {} else {e.id}
  {
    hide IsSkipped;
    assert forall x :: x in init + [e] <==> x in init || x == e;
  }
}
