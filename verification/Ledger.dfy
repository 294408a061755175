/** The stored claims as one map, the facts every run keeps about them, and why resolving keeps them. */
module Ledger {
  import opened Schema
  import opened Statements
  import opened Store
  import opened Resolver

  type Claims = map<Id, Claim>

  ghost function ClaimsOf(db: DB): Claims {
    map id | id in db.nodes && HasClaim(db, id) :: db.nodes[id].payload.claim
  }

  ghost predicate ShareSubject(a: Claim, b: Claim) {
    exists e :: e in a.subjects && e in b.subjects
  }

  /** Of one owner, about the same thing, saying something else, and asserted strictly later. */
  predicate Outdates(a: Claim, b: Claim) {
    a.owner == b.owner && Rivals(a, b) && a.assertedAt > b.assertedAt
  }

  /** Likewise, but asserted at the same time. */
  predicate Clashes(a: Claim, b: Claim) {
    a.owner == b.owner && Rivals(a, b) && a.assertedAt == b.assertedAt
  }

  // ---- what every run keeps ----

  ghost predicate SupersedesEarlier(cs: Claims) {
    forall id, s :: id in cs && s in cs[id].supersedes ==>
        s in cs && Outdates(cs[id], cs[s]) && cs[s].status == Superseded
  }

  ghost predicate ContradictsEqual(cs: Claims) {
    forall id, s :: id in cs && s in cs[id].contradicts ==> s in cs && Clashes(cs[id], cs[s])
  }

  ghost predicate HasSuccessor(cs: Claims, c: Claim) {
    exists x :: x in cs && Outdates(cs[x], c)
  }

  ghost predicate StatusExplained(cs: Claims) {
    forall id :: id in cs ==>
      && cs[id].status != Reconciled
      && (cs[id].status == Superseded ==> HasSuccessor(cs, cs[id]))
      && (cs[id].status == Contradicted ==> cs[id].contradicts != [])
  }

  /** Both believed, by one owner, about one entity. */
  ghost predicate Coexist(a: Claim, b: Claim) {
    a.status == Active && b.status == Active && a.owner == b.owner && ShareSubject(a, b)
  }

  ghost predicate ActiveAgree(cs: Claims) {
    forall a, b :: a in cs && b in cs && Coexist(cs[a], cs[b]) ==> !Rivals(cs[a], cs[b])
  }

  ghost predicate Sound(cs: Claims) {
    && (forall id :: id in cs ==> cs[id].id == id)
    && SupersedesEarlier(cs) && ContradictsEqual(cs) && StatusExplained(cs) && ActiveAgree(cs)
  }

  // ---- one claim against a list ----

  /** A claim as an extractor makes it: active, and pointing at nothing. */
  predicate Unresolved(c: Claim) {
    c.status == Active && c.supersedes == [] && c.contradicts == []
  }

  /** The same claim, wherever resolving has brought its status and lists. */
  predicate SameClaim(a: Claim, b: Claim) {
    a == b.(status := a.status, supersedes := a.supersedes, contradicts := a.contradicts)
  }

  /** `c` finds the claim `s` active among `others`, and earlier. */
  ghost predicate Beats(c: Claim, others: seq<Claim>, s: Id) {
    exists i :: 0 <= i < |others| && others[i].id == s && Engages(c, others[i]) && c.assertedAt > others[i].assertedAt
  }

  /** ... or equally old. */
  ghost predicate Ties(c: Claim, others: seq<Claim>, s: Id) {
    exists i :: 0 <= i < |others| && others[i].id == s && Engages(c, others[i]) && c.assertedAt == others[i].assertedAt
  }

  /** ... or later. */
  ghost predicate BeatenBy(c: Claim, others: seq<Claim>, s: Id) {
    exists i :: 0 <= i < |others| && others[i].id == s && Engages(c, others[i]) && c.assertedAt < others[i].assertedAt
  }

  lemma EncountersSplit(c: Claim, others: seq<Claim>, s: Id)
    requires others != []
    ensures var (n, o) := (|others| - 1, others[|others| - 1]);
            && (Beats(c, others, s) <==>
                Beats(c, others[..n], s) || (o.id == s && Engages(c, o) && c.assertedAt > o.assertedAt))
            && (Ties(c, others, s) <==>
                Ties(c, others[..n], s) || (o.id == s && Engages(c, o) && c.assertedAt == o.assertedAt))
            && (BeatenBy(c, others, s) <==>
                BeatenBy(c, others[..n], s) || (o.id == s && Engages(c, o) && c.assertedAt < o.assertedAt))
  {
    hide Engages;
    var n := |others| - 1;
    assert forall i :: 0 <= i < n ==> others[..n][i] == others[i];
  }

  /** What a claim looks like once it has met every one of `others`. */
  lemma {:induction false} MeetAllMeans(c: Claim, others: seq<Claim>)
    requires Unresolved(c)
    ensures var r := MeetAll(c, others);
            && SameClaim(r, c)
            && (forall s :: s in r.supersedes <==> Beats(c, others, s))
            && (forall s :: s in r.contradicts <==> Ties(c, others, s))
            && (r.status == Active ==> forall s :: !Ties(c, others, s) && !BeatenBy(c, others, s))
            && (r.status == Superseded ==> exists s :: BeatenBy(c, others, s))
            && (r.status == Contradicted ==> r.contradicts != [])
            && r.status != Reconciled
  {
    if others != [] {
      var (n, o) := (|others| - 1, others[|others| - 1]);
      MeetAllMeans(c, others[..n]);
      hide Rivals, Beats, Ties, BeatenBy;
      forall s {
        EncountersSplit(c, others, s);
      }
      var before := MeetAll(c, others[..n]);
      assert Engages(before, o) <==> Engages(c, o) by {
        MeetAllKeepsSaid(c, others[..n]);
        RivalsSame(o, before, c);
      }
      if Engages(c, o) && c.assertedAt < o.assertedAt {
        assert BeatenBy(c, others, o.id);
      }
      if before.status == Superseded {
        var s :| BeatenBy(c, others[..n], s);
        assert BeatenBy(c, others, s);
      }
    }
  }

  /** Being rivals is a matter of what is said only, and goes both ways. */
  lemma RivalsSame(a: Claim, b: Claim, b': Claim)
    requires SameClaim(b', b)
    ensures Rivals(a, b) == Rivals(a, b') == Rivals(b, a) == Rivals(b', a)
  {
    hide Topic, Tokens;
  }

  // ---- adding a resolved claim to the ledger ----

  /** `q` is recorded, and every claim it supersedes is marked so. */
  ghost function Absorb(cs: Claims, q: Claim): Claims {
    (map id | id in cs :: if id in q.supersedes then cs[id].(status := Superseded) else cs[id])[q.id := q]
  }

  /** The resolved claims of a batch, recorded one after the other. */
  ghost function Recorded(cs: Claims, batch: seq<Claim>): Claims {
    if batch == [] then cs else Absorb(Recorded(cs, batch[..|batch| - 1]), batch[|batch| - 1])
  }

  /** What a resolved claim may say about the ledger it is added to. */
  ghost predicate Fits(cs: Claims, q: Claim) {
    && q.id !in cs
    && (forall s :: s in q.supersedes ==> s in cs && Outdates(q, cs[s]))
    && (forall s :: s in q.contradicts ==> s in cs && Clashes(q, cs[s]))
    && q.status != Reconciled
    && (q.status == Superseded ==> HasSuccessor(cs, q))
    && (q.status == Contradicted ==> q.contradicts != [])
    && (forall x :: x in cs && Coexist(q, cs[x]) && Rivals(q, cs[x]) ==> x in q.supersedes)
  }

  /** Comparisons see only what is said, so they survive any change of status. */
  lemma SaidOnly(a: Claim, a': Claim, b: Claim, b': Claim)
    requires SameClaim(a', a) && SameClaim(b', b)
    ensures Outdates(a, b) == Outdates(a', b')
    ensures Clashes(a, b) == Clashes(a', b')
    ensures Rivals(a, b) == Rivals(b, a) == Rivals(a', b')
  {
    RivalsSame(a, b, b');
    RivalsSame(b', a, a');
  }

  lemma AbsorbSaysSame(cs: Claims, q: Claim)
    requires q.id !in cs
    ensures var after := Absorb(cs, q);
            forall id :: id in cs ==>
              && id in after
              && SameClaim(after[id], cs[id])
              && after[id].supersedes == cs[id].supersedes
              && after[id].contradicts == cs[id].contradicts
              && after[id].status == (if id in q.supersedes then Superseded else cs[id].status)
  {
  }

  lemma AbsorbKeepsEdges(cs: Claims, q: Claim)
    requires SupersedesEarlier(cs) && ContradictsEqual(cs) && Fits(cs, q)
    ensures SupersedesEarlier(Absorb(cs, q)) && ContradictsEqual(Absorb(cs, q))
  {
    hide Rivals, Outdates, Clashes, HasSuccessor;
    var after := Absorb(cs, q);
    AbsorbSaysSame(cs, q);
    forall id, s | id in after && s in after[id].supersedes
      ensures s in after && Outdates(after[id], after[s]) && after[s].status == Superseded
    {
      SaidOnly(if id == q.id then q else cs[id], after[id], cs[s], after[s]);
    }
    forall id, s | id in after && s in after[id].contradicts ensures s in after && Clashes(after[id], after[s]) {
      SaidOnly(if id == q.id then q else cs[id], after[id], cs[s], after[s]);
    }
  }

  lemma AbsorbKeepsReasons(cs: Claims, q: Claim)
    requires StatusExplained(cs) && Fits(cs, q)
    ensures StatusExplained(Absorb(cs, q))
  {
    hide Rivals, Outdates, Clashes;
    var after := Absorb(cs, q);
    AbsorbSaysSame(cs, q);
    forall id | id in after && after[id].status == Superseded ensures HasSuccessor(after, after[id]) {
      if id in q.supersedes {
        SaidOnly(q, q, cs[id], after[id]);
        assert Outdates(after[q.id], after[id]);
      } else {
        var was := if id == q.id then q else cs[id];
        var x :| x in cs && Outdates(cs[x], was);
        SaidOnly(cs[x], after[x], was, after[id]);
        assert Outdates(after[x], after[id]);
      }
    }
  }

  lemma AbsorbKeepsAgreement(cs: Claims, q: Claim)
    requires ActiveAgree(cs) && Fits(cs, q)
    ensures ActiveAgree(Absorb(cs, q))
  {
    hide Rivals, Outdates, Clashes, HasSuccessor;
    var after := Absorb(cs, q);
    AbsorbSaysSame(cs, q);
    forall a, b | a in after && b in after && Coexist(after[a], after[b]) ensures !Rivals(after[a], after[b]) {
      SaidOnly(after[a], after[a], after[b], after[b]);
      if a != q.id && b != q.id {
        assert Coexist(cs[a], cs[b]);
        SaidOnly(cs[a], after[a], cs[b], after[b]);
      } else if a != b {
        var other := if a == q.id then b else a;
        assert Coexist(q, cs[other]) by {
          var e :| e in after[a].subjects && e in after[b].subjects;
        }
        SaidOnly(q, q, cs[other], after[other]);
      } else {
        NotItsOwnRival(q);
      }
    }
  }

  lemma NotItsOwnRival(c: Claim)
    ensures !Rivals(c, c)
  {
  }

  lemma AbsorbKeepsSound(cs: Claims, q: Claim)
    requires Sound(cs) && Fits(cs, q)
    ensures Sound(Absorb(cs, q))
  {
    AbsorbKeepsEdges(cs, q);
    AbsorbKeepsReasons(cs, q);
    AbsorbKeepsAgreement(cs, q);
  }

  // ---- resolving one claim of a batch ----

  /** Claims of one owner, under ids that are neither stored nor repeated. */
  ghost predicate IsBatch(cs: Claims, owner: string, batch: seq<Claim>) {
    && (forall i :: 0 <= i < |batch| ==> batch[i].owner == owner && batch[i].id !in cs)
    && (forall i, j :: 0 <= i < j < |batch| ==> batch[i].id != batch[j].id)
  }

  /** `now` is `was`, unless it has been superseded since. */
  predicate MaybeSuperseded(now: Claim, was: Claim) {
    now == was || now == was.(status := Superseded)
  }

  lemma AbsorbKeeps(cs: Claims, q: Claim, id: Id, was: Claim)
    requires id in cs && id != q.id && MaybeSuperseded(cs[id], was)
    ensures id in Absorb(cs, q) && MaybeSuperseded(Absorb(cs, q)[id], was)
  {
  }

  lemma {:induction false} RecordedStored(cs: Claims, owner: string, batch: seq<Claim>, id: Id)
    requires IsBatch(cs, owner, batch) && id in cs
    ensures id in Recorded(cs, batch) && MaybeSuperseded(Recorded(cs, batch)[id], cs[id])
  {
    if batch != [] {
      hide Absorb, MaybeSuperseded;
      var n := |batch| - 1;
      RecordedStored(cs, owner, batch[..n], id);
      AbsorbKeeps(Recorded(cs, batch[..n]), batch[n], id, cs[id]);
    } else {
      NotSuperseded(cs[id]);
    }
  }

  lemma {:induction false} RecordedPending(cs: Claims, owner: string, batch: seq<Claim>, i: nat)
    requires IsBatch(cs, owner, batch) && i < |batch|
    ensures batch[i].id in Recorded(cs, batch) && MaybeSuperseded(Recorded(cs, batch)[batch[i].id], batch[i])
  {
    var n := |batch| - 1;
    if i < n {
      hide Absorb, MaybeSuperseded;
      assert batch[..n][i] == batch[i];
      RecordedPending(cs, owner, batch[..n], i);
      AbsorbKeeps(Recorded(cs, batch[..n]), batch[n], batch[i].id, batch[i]);
    } else {
      NotSuperseded(batch[i]);
    }
  }

  lemma {:induction false} RecordedKeys(cs: Claims, batch: seq<Claim>, id: Id)
    requires id in Recorded(cs, batch)
    ensures id in cs || exists i :: 0 <= i < |batch| && batch[i].id == id
  {
    if batch != [] && id != batch[|batch| - 1].id {
      RecordedKeys(cs, batch[..|batch| - 1], id);
      if id !in cs {
        var i :| 0 <= i < |batch| - 1 && batch[..|batch| - 1][i].id == id;
        assert batch[i].id == id;
      }
    }
  }

  /** What the ledger holds once a batch has been recorded. */
  lemma RecordedMeans(cs: Claims, owner: string, batch: seq<Claim>)
    requires IsBatch(cs, owner, batch)
    ensures var after := Recorded(cs, batch);
            && (forall id :: id in after ==> id in cs || exists i :: 0 <= i < |batch| && batch[i].id == id)
            && (forall id :: id in cs ==> id in after && MaybeSuperseded(after[id], cs[id]))
            && (forall i :: 0 <= i < |batch| ==> batch[i].id in after && MaybeSuperseded(after[batch[i].id], batch[i]))
  {
    hide Recorded, MaybeSuperseded, IsBatch;
    var after := Recorded(cs, batch);
    forall id | id in after ensures id in cs || exists i :: 0 <= i < |batch| && batch[i].id == id {
      RecordedKeys(cs, batch, id);
    }
    forall id | id in cs ensures id in after && MaybeSuperseded(after[id], cs[id]) {
      RecordedStored(cs, owner, batch, id);
    }
    forall i | 0 <= i < |batch| ensures batch[i].id in after && MaybeSuperseded(after[batch[i].id], batch[i]) {
      RecordedPending(cs, owner, batch, i);
    }
  }

  lemma NotSuperseded(c: Claim)
    ensures MaybeSuperseded(c, c)
  {
  }

  /** Equal ledgers, but for the statuses of the claims in `s`. */
  ghost predicate EqualUpTo(a: Claims, b: Claims, s: seq<Id>) {
    && a.Keys == b.Keys
    && forall id :: id in a ==>
         a[id] == b[id] || (id in s && a[id].(status := Superseded) == b[id].(status := Superseded))
  }

  lemma AbsorbEqualUpTo(a: Claims, b: Claims, s: seq<Id>, p: Claim, q: Claim)
    requires EqualUpTo(a, b, s)
    requires p == q || (q.id in s && p == q.(status := Superseded))
    ensures EqualUpTo(Absorb(a, p), Absorb(b, q), s)
  {
  }

  /** Marking pending claims early, as the resolver does, records the same ledger. */
  lemma {:induction false} YieldingEarly(cs: Claims, batch: seq<Claim>, c: Claim, s: seq<Id>)
    requires forall i :: 0 <= i < |batch| && Yield(c, batch[i]) != batch[i] ==> batch[i].id in s
    ensures EqualUpTo(Recorded(cs, YieldAll(c, batch)), Recorded(cs, batch), s)
  {
    if batch != [] {
      var n := |batch| - 1;
      var (yielded, p) := (YieldAll(c, batch), Yield(c, batch[n]));
      assert p == batch[n] || p == batch[n].(status := Superseded);
      hide Absorb, Yield, EqualUpTo;
      assert yielded[..n] == YieldAll(c, batch[..n]);
      YieldingEarly(cs, batch[..n], c, s);
      AbsorbEqualUpTo(Recorded(cs, yielded[..n]), Recorded(cs, batch[..n]), s, p, batch[n]);
    }
  }

  /** What the store returned when asked about `c`'s subjects: its claims as they stood when the
      batch began, whatever the batch has done to them since. */
  ghost predicate IsStale(cs: Claims, c: Claim, stored: seq<Claim>) {
    && (forall o :: o in stored ==> o.id in cs && cs[o.id] == o && o.owner == c.owner)
    && (forall x :: x in cs && cs[x].owner == c.owner && ShareSubject(c, cs[x]) ==> cs[x] in stored)
  }

  /** The ledger's entry for a claim met while resolving. */
  lemma MetIsRecorded(cs: Claims, owner: string, batch: seq<Claim>, c: Claim, stored: seq<Claim>, o: Claim)
    requires IsBatch(cs, owner, batch) && c.owner == owner && IsStale(cs, c, stored)
    requires o in stored + batch
    ensures var now := Recorded(cs, batch);
            o.id in now && MaybeSuperseded(now[o.id], o) && o.owner == owner
  {
    RecordedMeans(cs, owner, batch);
  }

  /** Any recorded claim that a new claim could coexist with has been met, and was active then. */
  lemma CoexistingIsMet(cs: Claims, owner: string, batch: seq<Claim>, c: Claim, stored: seq<Claim>, x: Id)
    requires IsBatch(cs, owner, batch) && c.owner == owner && IsStale(cs, c, stored)
    requires forall id :: id in cs ==> cs[id].id == id
    requires var now := Recorded(cs, batch);
             x in now && now[x].status == Active && now[x].owner == owner && ShareSubject(c, now[x])
    ensures var now := Recorded(cs, batch); now[x] in stored + batch && now[x].id == x
  {
    RecordedMeans(cs, owner, batch);
    var now := Recorded(cs, batch);
    if x in cs {
      assert now[x] == cs[x];
    } else {
      var i :| 0 <= i < |batch| && batch[i].id == x;
      assert now[x] == batch[i];
    }
  }

  /** A batch under way, and a new claim about to be compared. */
  ghost predicate Ready(cs: Claims, owner: string, batch: seq<Claim>, c: Claim, stored: seq<Claim>) {
    && (forall id :: id in cs ==> cs[id].id == id)
    && IsBatch(cs, owner, batch) && IsBatch(cs, owner, batch + [c])
    && Unresolved(c) && c.owner == owner && IsStale(cs, c, stored)
  }

  lemma EngagedCompare(c: Claim, q: Claim, o: Claim, now: Claim)
    requires SameClaim(q, c) && SameClaim(now, o) && c.owner == o.owner && Engages(c, o)
    ensures c.assertedAt > o.assertedAt ==> Outdates(q, now)
    ensures c.assertedAt == o.assertedAt ==> Clashes(q, now)
    ensures c.assertedAt < o.assertedAt ==> Outdates(now, q)
  {
    SaidOnly(c, q, o, now);
    SaidOnly(o, now, c, q);
  }

  lemma OldStillPresent(cs: Claims, owner: string, batch: seq<Claim>, c: Claim, stored: seq<Claim>, s: Id)
    requires Ready(cs, owner, batch, c, stored)
    ensures var (now, others) := (Recorded(cs, batch), stored + batch);
            var q := MeetAll(c, others);
            && (Beats(c, others, s) ==> s in now && Outdates(q, now[s]))
            && (Ties(c, others, s) ==> s in now && Clashes(q, now[s]))
            && (BeatenBy(c, others, s) ==> s in now && Outdates(now[s], q))
  {
    var (now, others) := (Recorded(cs, batch), stored + batch);
    var q := MeetAll(c, others);
    assert SameClaim(q, c) by { MeetAllMeans(c, others); }
    hide MeetAll, Recorded, Rivals, Outdates, Clashes;
    forall i | 0 <= i < |others| && others[i].id == s && Engages(c, others[i])
      ensures s in now && (c.assertedAt > others[i].assertedAt ==> Outdates(q, now[s]))
      ensures c.assertedAt == others[i].assertedAt ==> Clashes(q, now[s])
      ensures c.assertedAt < others[i].assertedAt ==> Outdates(now[s], q)
    {
      MetIsRecorded(cs, owner, batch, c, stored, others[i]);
      EngagedCompare(c, q, others[i], now[s]);
    }
  }

  lemma CoexistingIsBeaten(cs: Claims, owner: string, batch: seq<Claim>, c: Claim, stored: seq<Claim>, x: Id)
    requires Ready(cs, owner, batch, c, stored)
    requires var (now, q) := (Recorded(cs, batch), MeetAll(c, stored + batch));
             x in now && Coexist(q, now[x]) && Rivals(q, now[x])
    ensures x in MeetAll(c, stored + batch).supersedes
  {
    var (now, others) := (Recorded(cs, batch), stored + batch);
    var q := MeetAll(c, others);
    MeetAllMeans(c, others);
    hide MeetAll, Recorded, Rivals;
    CoexistingIsMet(cs, owner, batch, c, stored, x);
    SaidOnly(q, c, now[x], now[x]);
    var i :| 0 <= i < |others| && others[i] == now[x];
    assert others[i].id != c.id by {
      assert (batch + [c])[|batch|] == c;
      if i >= |stored| {
        assert (batch + [c])[i - |stored|] == others[i];
      } else {
        assert others[i] == stored[i];
      }
    }
    assert Engages(c, others[i]);
    assert !Ties(c, others, x) && !BeatenBy(c, others, x);
  }

  lemma ResolvedIsNew(cs: Claims, owner: string, batch: seq<Claim>, c: Claim, stored: seq<Claim>)
    requires Ready(cs, owner, batch, c, stored)
    ensures c.id !in Recorded(cs, batch) && Unresolved(c)
  {
    hide Recorded, IsStale;
    RecordedMeans(cs, owner, batch);
    assert (batch + [c])[|batch|] == c;
    assert forall i :: 0 <= i < |batch| ==> (batch + [c])[i] == batch[i];
  }

  lemma ResolvedTargets(cs: Claims, owner: string, batch: seq<Claim>, c: Claim, stored: seq<Claim>)
    requires Ready(cs, owner, batch, c, stored) && Unresolved(c)
    ensures var (now, q) := (Recorded(cs, batch), MeetAll(c, stored + batch));
            && (forall s :: s in q.supersedes ==> s in now && Outdates(q, now[s]))
            && (forall s :: s in q.contradicts ==> s in now && Clashes(q, now[s]))
            && (q.status == Superseded ==> HasSuccessor(now, q))
  {
    hide MeetAll, Recorded, Outdates, Clashes, Beats, Ties, BeatenBy, Ready, Unresolved;
    var (now, others) := (Recorded(cs, batch), stored + batch);
    var q := MeetAll(c, others);
    MeetAllMeans(c, others);
    forall s ensures (Beats(c, others, s) ==> s in now && Outdates(q, now[s]))
        && (Ties(c, others, s) ==> s in now && Clashes(q, now[s])) {
      OldStillPresent(cs, owner, batch, c, stored, s);
    }
    if q.status == Superseded {
      var s :| BeatenBy(c, others, s);
      OldStillPresent(cs, owner, batch, c, stored, s);
    }
  }

  /** A newly resolved claim says only true things about the ledger as the batch has left it,
      although the stored half of what it was compared with may be out of date. */
  lemma MeetAllFits(cs: Claims, owner: string, batch: seq<Claim>, c: Claim, stored: seq<Claim>)
    requires Ready(cs, owner, batch, c, stored)
    ensures Fits(Recorded(cs, batch), MeetAll(c, stored + batch))
  {
    ResolvedIsNew(cs, owner, batch, c, stored);
    hide MeetAll, Recorded, Rivals, Outdates, Clashes, Beats, Ties, BeatenBy, Coexist, Ready, Unresolved, HasSuccessor;
    var (now, q) := (Recorded(cs, batch), MeetAll(c, stored + batch));
    MeetAllMeans(c, stored + batch);
    ResolvedTargets(cs, owner, batch, c, stored);
    forall x | x in now && Coexist(q, now[x]) && Rivals(q, now[x]) ensures x in q.supersedes {
      CoexistingIsBeaten(cs, owner, batch, c, stored, x);
    }
  }

  lemma AdmissionIsBatch(cs: Claims, owner: string, batch: seq<Claim>, c: Claim, q: Claim)
    requires IsBatch(cs, owner, batch + [c]) && SameClaim(q, c)
    ensures IsBatch(cs, owner, YieldAll(c, batch) + [q])
  {
    hide Engages;
    forall i | 0 <= i <= |batch|
      ensures var (a, b) := ((YieldAll(c, batch) + [q])[i], (batch + [c])[i]); a.id == b.id && a.owner == b.owner
    {
    }
  }

  lemma AdmissionRecorded(cs: Claims, owner: string, batch: seq<Claim>, c: Claim, stored: seq<Claim>)
    requires Ready(cs, owner, batch, c, stored)
    ensures var q := MeetAll(c, stored + batch);
            Recorded(cs, YieldAll(c, batch) + [q]) == Absorb(Recorded(cs, batch), q)
  {
    var (others, q) := (stored + batch, MeetAll(c, stored + batch));
    var yielded := YieldAll(c, batch);
    MeetAllMeans(c, others);
    forall i | 0 <= i < |batch| && Yield(c, batch[i]) != batch[i] ensures batch[i].id in q.supersedes {
      assert others[|stored| + i] == batch[i];
      assert Beats(c, others, batch[i].id);
    }
    YieldingEarly(cs, batch, c, q.supersedes);
    hide MeetAll, Recorded, YieldAll, Ready, Yield;
    EqualUpToAbsorbed(Recorded(cs, yielded), Recorded(cs, batch), q);
    RecordedSnoc(cs, yielded, q);
  }

  lemma EqualUpToAbsorbed(a: Claims, b: Claims, q: Claim)
    requires EqualUpTo(a, b, q.supersedes)
    ensures Absorb(a, q) == Absorb(b, q)
  {
  }

  lemma RecordedSnoc(cs: Claims, batch: seq<Claim>, q: Claim)
    ensures Recorded(cs, batch + [q]) == Absorb(Recorded(cs, batch), q)
  {
    assert (batch + [q])[..|batch|] == batch;
  }

  /** Resolving one more claim: the batch, recorded as it now stands, leaves a sound ledger. */
  lemma AdmissionKeepsSound(cs: Claims, owner: string, batch: seq<Claim>, c: Claim, stored: seq<Claim>)
    requires Ready(cs, owner, batch, c, stored) && Sound(Recorded(cs, batch))
    ensures var resolved := YieldAll(c, batch) + [MeetAll(c, stored + batch)];
            IsBatch(cs, owner, resolved) && Sound(Recorded(cs, resolved))
  {
    var q := MeetAll(c, stored + batch);
    MeetAllMeans(c, stored + batch);
    AdmissionIsBatch(cs, owner, batch, c, q);
    hide MeetAll, Recorded, Fits, Sound, Absorb;
    AdmissionRecorded(cs, owner, batch, c, stored);
    MeetAllFits(cs, owner, batch, c, stored);
    AbsorbKeepsSound(Recorded(cs, batch), q);
  }
}
