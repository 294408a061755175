/** Reported supersessions: which of them become SUPERSEDES edges. */
module LateArrivals {
  import opened Basics
  import opened Schema
  import opened Statements
  import opened Text
  import opened Store
  import opened Resolver
  import opened Ledger
  import opened Ingestion
  import opened Writing
  import opened Runs
  import opened Histories

  /** `a` was known before the n-th claim of the batch was resolved. */
  ghost predicate KnownBefore(cs: Claims, batch: seq<Claim>, n: nat, a: Id) {
    a in cs || exists i :: 0 <= i < n && i < |batch| && batch[i].id == a
  }

  /** A reported (superseding, superseded) pair is one of two kinds: the newer claim was resolved
      against the older one, and lists it; or the older one arrived late, and nothing lists it. */
  ghost predicate Timely(cs: Claims, batch: seq<Claim>, pair: (Id, Id)) {
    exists m :: 0 <= m < |batch| && batch[m].id == pair.0 && pair.1 in batch[m].supersedes
  }

  ghost predicate Late(cs: Claims, batch: seq<Claim>, pair: (Id, Id)) {
    exists m :: 0 <= m < |batch| && batch[m].id == pair.1 && KnownBefore(cs, batch, m, pair.0)
  }

  lemma {:induction false} ReportsMean(sofar: seq<(Id, Id)>, c: Claim, others: seq<Claim>, pair: (Id, Id))
    requires pair in SupersessionsAll(sofar, c, others)
    ensures pair in sofar || (pair.0 == c.id && Beats(c, others, pair.1))
            || (pair.1 == c.id && BeatenBy(c, others, pair.0))
  {
    hide Engages;
    if others != [] && pair !in sofar {
      var (init, o) := (others[..|others| - 1], others[|others| - 1]);
      if pair in SupersessionsAll(sofar, c, init) {
        ReportsMean(sofar, c, init, pair);
        EncountersSplit(c, others, pair.1);
        EncountersSplit(c, others, pair.0);
      }
    }
  }

  ghost predicate AllPlaced(cs: Claims, batch: seq<Claim>, reports: seq<(Id, Id)>) {
    forall pair :: pair in reports ==> Timely(cs, batch, pair) || Late(cs, batch, pair)
  }

  /** The batch may grow, and its statuses move, without unplacing a pair. */
  lemma PlacedStays(cs: Claims, batch: seq<Claim>, after: seq<Claim>, pair: (Id, Id))
    requires Timely(cs, batch, pair) || Late(cs, batch, pair)
    requires |batch| <= |after| && forall i :: 0 <= i < |batch| ==>
               after[i].id == batch[i].id && after[i].supersedes == batch[i].supersedes
    ensures Timely(cs, after, pair) || Late(cs, after, pair)
  {
    if Timely(cs, batch, pair) {
      var m :| 0 <= m < |batch| && batch[m].id == pair.0 && pair.1 in batch[m].supersedes;
      assert after[m].id == pair.0;
    } else {
      var m :| 0 <= m < |batch| && batch[m].id == pair.1 && KnownBefore(cs, batch, m, pair.0);
      assert after[m].id == pair.1 && KnownBefore(cs, after, m, pair.0) by {
        if pair.0 !in cs {
          var i :| 0 <= i < m && i < |batch| && batch[i].id == pair.0;
          assert after[i].id == pair.0;
        }
      }
    }
  }

  lemma NewPairPlaced(cs: Claims, owner: string, batch: seq<Claim>, c: Claim, stored: seq<Claim>, pair: (Id, Id))
    requires Ready(cs, owner, batch, c, stored)
    requires (pair.0 == c.id && Beats(c, stored + batch, pair.1))
             || (pair.1 == c.id && BeatenBy(c, stored + batch, pair.0))
    ensures var after := YieldAll(c, batch) + [MeetAll(c, stored + batch)];
            Timely(cs, after, pair) || Late(cs, after, pair)
  {
    var (others, n) := (stored + batch, |batch|);
    var after := YieldAll(c, batch) + [MeetAll(c, others)];
    MeetAllMeans(c, others);
    assert after[n].id == c.id;
    if pair.0 == c.id && Beats(c, others, pair.1) {
      assert pair.1 in after[n].supersedes;
    } else {
      var k :| 0 <= k < |others| && others[k].id == pair.0 && Engages(c, others[k]);
      hide Engages, MeetAll;
      if k < |stored| {
        assert others[k] == stored[k];
      } else {
        assert after[k - |stored|].id == pair.0;
      }
      assert KnownBefore(cs, after, n, pair.0);
    }
  }

  lemma ConfrontPlaces(cs: Claims, owner: string, batch: seq<Claim>, c: Claim, stored: seq<Claim>,
                       reports: seq<(Id, Id)>)
    requires Ready(cs, owner, batch, c, stored) && AllPlaced(cs, batch, reports)
    ensures AllPlaced(cs, YieldAll(c, batch) + [MeetAll(c, stored + batch)],
                      SupersessionsAll(reports, c, stored + batch))
  {
    var after := YieldAll(c, batch) + [MeetAll(c, stored + batch)];
    forall i | 0 <= i < |batch| ensures after[i].id == batch[i].id && after[i].supersedes == batch[i].supersedes {
    }
    hide Ready, MeetAll, YieldAll, Timely, Late, Beats, BeatenBy, SupersessionsAll;
    forall pair | pair in SupersessionsAll(reports, c, stored + batch)
      ensures Timely(cs, after, pair) || Late(cs, after, pair) {
      ReportsMean(reports, c, stored + batch, pair);
      if pair in reports {
        PlacedStays(cs, batch, after, pair);
      } else {
        NewPairPlaced(cs, owner, batch, c, stored, pair);
      }
    }
  }

  lemma AdmitPlaces(db: DB, owner: string, c: Claim, order: seq<Id>, p: Progress)
    requires Inv(db) && IsRead(db, owner, c, order) && c.owner == owner && Unresolved(c) && c.id !in IdsIn(p.pending)
    requires IsBatch(ClaimsOf(db), owner, p.pending) && AllPlaced(ClaimsOf(db), p.pending, p.supersessions)
    ensures var after := Admit(db, owner, c, order, p); AllPlaced(ClaimsOf(db), after.pending, after.supersessions)
  {
    if c.id !in db.nodes {
      AdmitIsReady(db, owner, c, order, p.pending);
      hide Ready, MeetAll, YieldAll, AllPlaced, Inv, IsRead, IsBatch, ClaimsOf;
      ConfrontPlaces(ClaimsOf(db), owner, p.pending, c, Hydrated(db, order), p.supersessions);
    }
  }

  lemma {:induction false} AdmitAllPlaces(db: DB, owner: string, claims: seq<Claim>, orders: seq<seq<Id>>, p: Progress)
    requires Inv(db) && AreReads(db, owner, claims, orders) && Extracted(owner, claims)
             && IdsIn(claims) !! IdsIn(p.pending)
    requires Writable(ClaimsOf(db), owner, p.pending) && AllPlaced(ClaimsOf(db), p.pending, p.supersessions)
    ensures var after := AdmitAll(db, owner, claims, orders, p);
            AllPlaced(ClaimsOf(db), after.pending, after.supersessions)
  {
    hide Inv, Admit, IsRead, Extracted, IdsIn, Unresolved, AllPlaced;
    if claims != [] {
      var n := |claims| - 1;
      ExtractedSplit(db, owner, claims);
      AdmitAllKeepsWritable(db, owner, claims[..n], orders[..n], p);
      AdmitAllPlaces(db, owner, claims[..n], orders[..n], p);
      AdmitPlaces(db, owner, claims[n], orders[n], AdmitAll(db, owner, claims[..n], orders[..n], p));
    }
  }

  lemma NothingPlaced(cs: Claims, batch: seq<Claim>)
    ensures AllPlaced(cs, batch, [])
  {
  }

  /** The pending list when the first n candidates have been resolved. */
  ghost function PendingUpTo(db: DB, run: Run, orders: seq<seq<seq<Id>>>, n: nat): seq<Claim>
    requires CanRun(db, run, orders) && n <= |run.candidates|
  {
    PendingAfter(db, run.owner, ClaimBatch(run.candidates)[..n], orders[..n])
  }

  /** What holds when the n-th candidate's turn comes. */
  lemma TurnComes(db: DB, run: Run, orders: seq<seq<seq<Id>>>, n: nat)
    requires CanRun(db, run, orders) && n < |run.candidates|
    ensures var (batch, before) := (ClaimBatch(run.candidates), PendingUpTo(db, run, orders, n));
            && Reported(db, run.owner, batch, orders, n)
               == AdmitAll(db, run.owner, batch[n], orders[n], START.(pending := before))
            && PendingUpTo(db, run, orders, n + 1) == Reported(db, run.owner, batch, orders, n).pending
            && Extracted(run.owner, batch[n]) && IdsIn(batch[n]) !! IdsIn(before)
            && Writable(ClaimsOf(db), run.owner, before)
  {
    var batch := ClaimBatch(run.candidates);
    assert batch[..n + 1][..n] == batch[..n] && orders[..n + 1][..n] == orders[..n];
    hide Writable, Inv, AdmitAll, Extracted, AreReads;
    PrefixExtracted(run.owner, batch, n + 1);
    PendingIsWritable(db, run.owner, batch[..n], orders[..n]);
    ExtractedBatchSplit(db, run.owner, batch[..n + 1]);
  }

  lemma NextReportsPlaced(db: DB, run: Run, orders: seq<seq<seq<Id>>>, n: nat)
    requires CanRun(db, run, orders) && n < |run.candidates|
    requires AllPlaced(ClaimsOf(db), PendingUpTo(db, run, orders, n), Supersessions(db, run, orders, n))
    ensures AllPlaced(ClaimsOf(db), PendingUpTo(db, run, orders, n + 1), Supersessions(db, run, orders, n + 1))
  {
    hide Inv, GoodRun, ClaimsOf, PendingUpTo, Reported, AdmitAll, Extracted, IdsIn, AllPlaced, Writable, AreReads;
    var (batch, before) := (ClaimBatch(run.candidates), PendingUpTo(db, run, orders, n));
    TurnComes(db, run, orders, n);
    NothingPlaced(ClaimsOf(db), before);
    AdmitAllPlaces(db, run.owner, batch[n], orders[n], START.(pending := before));
    AdmitAllKeepsWords(db, run.owner, batch[n], orders[n], START.(pending := before));
    AllPlacedThen(ClaimsOf(db), before, PendingUpTo(db, run, orders, n + 1), Supersessions(db, run, orders, n),
                  Reported(db, run.owner, batch, orders, n).supersessions);
  }

  /** Every pair a batch reports is placed in the pending list as the batch leaves it. */
  lemma {:induction false} ReportsPlaced(db: DB, run: Run, orders: seq<seq<seq<Id>>>, n: nat)
    requires CanRun(db, run, orders) && n <= |run.candidates|
    ensures AllPlaced(ClaimsOf(db), PendingUpTo(db, run, orders, n), Supersessions(db, run, orders, n))
  {
    hide Inv, GoodRun, ClaimsOf, AllPlaced, PendingUpTo, AreReads, Reported;
    if n == 0 {
      NothingPlaced(ClaimsOf(db), PendingUpTo(db, run, orders, n));
    } else {
      ReportsPlaced(db, run, orders, n - 1);
      NextReportsPlaced(db, run, orders, n - 1);
    }
  }

  lemma AllPlacedThen(cs: Claims, batch: seq<Claim>, after: seq<Claim>, reports: seq<(Id, Id)>, more: seq<(Id, Id)>)
    requires AllPlaced(cs, batch, reports) && AllPlaced(cs, after, more)
    requires |batch| <= |after| && forall i :: 0 <= i < |batch| ==>
               after[i].id == batch[i].id && after[i].supersedes == batch[i].supersedes
    ensures AllPlaced(cs, after, reports + more)
  {
    hide Timely, Late;
    forall pair | pair in reports ensures Timely(cs, after, pair) || Late(cs, after, pair) {
      PlacedStays(cs, batch, after, pair);
    }
  }

  lemma PrefixExtracted(owner: string, batch: seq<seq<Claim>>, n: nat)
    requires ExtractedBatch(owner, batch) && 0 < n <= |batch|
    ensures ExtractedBatch(owner, batch[..n]) && ExtractedBatch(owner, batch[..n - 1])
  {
    hide Extracted;
  }

  /** Ids and superseded lists of pending claims never change once they are pending. */
  lemma {:induction false} AdmitAllKeepsWords(db: DB, owner: string, claims: seq<Claim>, orders: seq<seq<Id>>,
                                              p: Progress)
    requires AreReads(db, owner, claims, orders)
    ensures var after := AdmitAll(db, owner, claims, orders, p).pending;
            && |p.pending| <= |after|
            && forall i :: 0 <= i < |p.pending| ==>
                 after[i].id == p.pending[i].id && after[i].supersedes == p.pending[i].supersedes
  {
    if claims != [] {
      var n := |claims| - 1;
      AdmitAllKeepsWords(db, owner, claims[..n], orders[..n], p);
      AdmitKeepsWords(db, owner, claims[n], orders[n], AdmitAll(db, owner, claims[..n], orders[..n], p));
      hide Admit;
    }
  }

  lemma AdmitKeepsWords(db: DB, owner: string, c: Claim, order: seq<Id>, p: Progress)
    requires IsRead(db, owner, c, order)
    ensures var after := Admit(db, owner, c, order, p).pending;
            && |p.pending| <= |after|
            && forall i :: 0 <= i < |p.pending| ==>
                 after[i].id == p.pending[i].id && after[i].supersedes == p.pending[i].supersedes
  {
    hide Engages, MeetAll;
  }

  /** A reported pair becomes a SUPERSEDES edge exactly when its superseded claim was known before
      its superseding claim was resolved; a late arrival is reported but not linked. */
  lemma ReportedPairLinked(db: DB, run: Run, orders: seq<seq<seq<Id>>>, pair: (Id, Id))
    requires CanRun(db, run, orders) && pair in Supersessions(db, run, orders, |run.candidates|)
    ensures var (cs, pending, after) := (ClaimsOf(db), Pending(db, run, orders), AfterRun(db, run, orders));
            && pair.0 in ClaimsOf(after) && pair.1 in ClaimsOf(after)
            && (Edge(pair.0, Rel.Supersedes, pair.1) in after.edges <==>
                  exists m :: 0 <= m < |pending| && pending[m].id == pair.0 && KnownBefore(cs, pending, m, pair.1))
  {
    var (n, batch) := (|run.candidates|, ClaimBatch(run.candidates));
    assert batch[..n] == batch && orders[..n] == orders;
    ReportsPlaced(db, run, orders, n);
    RunKeepsInv(db, run, orders);
    PendingIsWritable(db, run.owner, batch, orders);
    var after := AfterRun(db, run, orders);
    assert PendingUpTo(db, run, orders, n) == Pending(db, run, orders);
    hide PendingAfter, AreBatchReads, GoodRun, AfterRun, Supersessions;
    PairLinked(ClaimsOf(db), run.owner, Pending(db, run, orders), after, pair);
  }

  /** A pending claim was known before the n-th exactly when it comes before it. */
  lemma KnownBeforeIndex(cs: Claims, owner: string, batch: seq<Claim>, m: nat, n: nat)
    requires IsBatch(cs, owner, batch) && m < |batch|
    ensures KnownBefore(cs, batch, n, batch[m].id) <==> m < n
  {
  }

  lemma KnownIsRecorded(cs: Claims, owner: string, batch: seq<Claim>, n: nat, a: Id)
    requires IsBatch(cs, owner, batch) && KnownBefore(cs, batch, n, a)
    ensures a in Recorded(cs, batch)
  {
    RecordedMeans(cs, owner, batch);
  }

  /** A recorded claim still lists what it listed. */
  lemma RecordedLists(cs: Claims, owner: string, batch: seq<Claim>, a: Id, t: Id)
    requires IsBatch(cs, owner, batch)
    ensures a in Recorded(cs, batch) && t in Recorded(cs, batch)[a].supersedes <==>
              || (a in cs && t in cs[a].supersedes)
              || exists m :: 0 <= m < |batch| && batch[m].id == a && t in batch[m].supersedes
  {
    RecordedMeans(cs, owner, batch);
    hide Recorded;
    var now := Recorded(cs, batch);
    if a in now && a !in cs {
      var m :| 0 <= m < |batch| && batch[m].id == a;
      assert now[a].supersedes == batch[m].supersedes;
    }
  }

  /** A timely pair's superseded claim was known; a late pair's was not. */
  lemma TimelyOrLate(cs: Claims, owner: string, batch: seq<Claim>, pair: (Id, Id))
    requires IsBatch(cs, owner, batch) && TargetsPrecede(cs, batch)
             && (Timely(cs, batch, pair) || Late(cs, batch, pair))
    ensures Timely(cs, batch, pair) <==>
              exists m :: 0 <= m < |batch| && batch[m].id == pair.0 && KnownBefore(cs, batch, m, pair.1)
  {
    if Timely(cs, batch, pair) {
      var m :| 0 <= m < |batch| && batch[m].id == pair.0 && pair.1 in batch[m].supersedes;
      assert KnownBefore(cs, batch, m, pair.1);
    } else {
      var j :| 0 <= j < |batch| && batch[j].id == pair.1 && KnownBefore(cs, batch, j, pair.0);
      forall m | 0 <= m < |batch| && batch[m].id == pair.0 ensures !KnownBefore(cs, batch, m, pair.1) {
        KnownBeforeIndex(cs, owner, batch, m, j);
        KnownBeforeIndex(cs, owner, batch, j, m);
      }
    }
  }

  lemma PairLinked(cs: Claims, owner: string, batch: seq<Claim>, after: DB, pair: (Id, Id))
    requires IsBatch(cs, owner, batch) && TargetsPrecede(cs, batch)
             && (Timely(cs, batch, pair) || Late(cs, batch, pair))
    requires EdgesTell(after) && ClaimsOf(after) == Recorded(cs, batch) && SupersedesEarlier(cs)
    ensures pair.0 in ClaimsOf(after) && pair.1 in ClaimsOf(after)
    ensures Edge(pair.0, Rel.Supersedes, pair.1) in after.edges <==>
              exists m :: 0 <= m < |batch| && batch[m].id == pair.0 && KnownBefore(cs, batch, m, pair.1)
  {
    hide ClaimsOf, Recorded, EdgesTell, Outdates;
    var now := Recorded(cs, batch);
    if Timely(cs, batch, pair) {
      var m :| 0 <= m < |batch| && batch[m].id == pair.0 && pair.1 in batch[m].supersedes;
      KnownBeforeIndex(cs, owner, batch, m, |batch|);
      assert KnownBefore(cs, batch, m, pair.1);
      KnownIsRecorded(cs, owner, batch, |batch|, pair.0);
      KnownIsRecorded(cs, owner, batch, m, pair.1);
    } else {
      var m :| 0 <= m < |batch| && batch[m].id == pair.1 && KnownBefore(cs, batch, m, pair.0);
      KnownBeforeIndex(cs, owner, batch, m, |batch|);
      KnownIsRecorded(cs, owner, batch, |batch|, pair.1);
      KnownIsRecorded(cs, owner, batch, m, pair.0);
    }
    TimelyOrLate(cs, owner, batch, pair);
    RecordedLists(cs, owner, batch, pair.0, pair.1);
    assert !(pair.0 in cs && pair.1 in cs[pair.0].supersedes) by {
      hide Outdates, TargetsPrecede;
    }
    EdgeTells(after, now, pair.0, pair.1);
  }

  lemma EdgeTells(db: DB, cs: Claims, from: Id, to: Id)
    requires EdgesTell(db) && cs == ClaimsOf(db) && from in cs
    ensures Edge(from, Rel.Supersedes, to) in db.edges <==> to in cs[from].supersedes
  {
    hide ClaimsOf;
  }

  lemma ReadsLetters(c: char)
    requires c == 'p' || c == 'q'
    ensures TokenSeq("x y z " + [c]) == ["x", "y", "z", [c]]
  {
    var ws := ["x", "y", "z", [c]];
    assert Join(ws, " ") == "x y z " + [c] by {
      assert ws[1..] == ["y", "z", [c]] && ws[1..][1..] == ["z", [c]] && ws[1..][1..][1..] == [[c]];
      assert Join(ws[1..][1..], " ") == "z" + " " + [c];
      assert Join(ws[1..], " ") == "y" + " " + ("z" + " " + [c]);
      assert Join(ws, " ") == "x" + " " + ("y" + " " + ("z" + " " + [c]));
    }
    WordsOfJoin(ws);
    PlainIsLowered("x y z " + [c]);
    hide Words, Lowered;
    LettersKept(ws);
  }

  /** The only stop word of one letter is "a". */
  lemma {:induction false} LettersKept(words: seq<string>)
    requires forall i :: 0 <= i < |words| ==> |words[i]| == 1 && words[i][0] != 'a'
    ensures Meaningful(words) == words
  {
    if words != [] {
      assert words[0] !in STOPWORDS;
      LettersKept(words[1..]);
    }
  }

  /** A concrete late arrival: the pair is reported, yet neither claim lists the other. */
  lemma LateArrivalExample(newer: Claim, older: Claim)
    requires newer.id != older.id && newer.statement == "x y z p" && older.statement == "x y z q"
    requires newer.status == Active && Unresolved(older) && older.assertedAt < newer.assertedAt
    ensures SupersessionsAll([], older, [newer]) == [(newer.id, older.id)]
    ensures MeetAll(older, [newer]) == older.(status := Superseded) && YieldAll(older, [newer]) == [newer]
  {
    var (p, q) := (["x", "y", "z", "p"], ["x", "y", "z", "q"]);
    assert "x y z p" == "x y z " + ['p'] && "x y z q" == "x y z " + ['q'];
    ReadsLetters('p');
    ReadsLetters('q');
    assert TokenSeq(newer.statement) == p && TokenSeq(older.statement) == q;
    hide TokenSeq;
    assert p[..3] == q[..3];
    assert "p" in Elements(p) && "p" !in Elements(q);
    assert Topic(newer.statement) == Topic(older.statement) && Tokens(newer.statement) != Tokens(older.statement);
    hide Topic, Tokens;
    assert Engages(older, newer);
    assert [newer][..0] == [];
  }
}
