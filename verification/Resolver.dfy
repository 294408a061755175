/** The resolver: each new claim is compared with stored claims and with the batch so far. */
module Resolver {
  import opened Basics
  import opened Schema
  import opened Statements
  import opened Store

  // ---- one comparison, on values ----

  /** Whether `claim` meeting `other` changes anything. */
  predicate Engages(claim: Claim, other: Claim) {
    other.id != claim.id && Rivals(other, claim) && other.status == Active
  }

  /** What the comparison does to the incoming claim. */
  function Meet(claim: Claim, other: Claim): Claim {
    if !Engages(claim, other) then claim
    else if claim.assertedAt > other.assertedAt then claim.(supersedes := claim.supersedes + [other.id])
    else if claim.assertedAt == other.assertedAt then
      claim.(contradicts := claim.contradicts + [other.id], status := Contradicted)
    else claim.(status := Superseded)
  }

  /** What it does to the claim it is compared with. */
  function Yield(claim: Claim, other: Claim): Claim {
    if Engages(claim, other) && claim.assertedAt > other.assertedAt then other.(status := Superseded) else other
  }

  /** The (superseding, superseded) pair it reports. */
  function Supersession(claim: Claim, other: Claim): seq<(Id, Id)> {
    if !Engages(claim, other) || claim.assertedAt == other.assertedAt then []
    else if claim.assertedAt > other.assertedAt then [(claim.id, other.id)]
    else [(other.id, claim.id)]
  }

  function Contradiction(claim: Claim, other: Claim): seq<(Id, Id)> {
    if Engages(claim, other) && claim.assertedAt == other.assertedAt then [(claim.id, other.id)] else []
  }

  /** One comparison, case by case. It counts only with another claim that is active, of the same topic, and with
      other tokens or other obligations; then the later of the two supersedes, and of two equally old ones the one
      that came in names the other. */
  lemma OneComparison(c: Claim, o: Claim)
    ensures var (met, left) := (Meet(c, o), Yield(c, o));
            if o.id == c.id || o.status != Active || Topic(o.statement) != Topic(c.statement)
               || (Tokens(o.statement) == Tokens(c.statement) && OweAlike(o, c)) then
              met == c && left == o && Supersession(c, o) == [] && Contradiction(c, o) == []
            else if o.assertedAt < c.assertedAt then
              && met == c.(supersedes := c.supersedes + [o.id]) && left == o.(status := Superseded)
              && Supersession(c, o) == [(c.id, o.id)] && Contradiction(c, o) == []
            else if o.assertedAt > c.assertedAt then
              && met == c.(status := Superseded) && left == o
              && Supersession(c, o) == [(o.id, c.id)] && Contradiction(c, o) == []
            else
              && met == c.(status := Contradicted, contradicts := c.contradicts + [o.id]) && left == o
              && Supersession(c, o) == [] && Contradiction(c, o) == [(c.id, o.id)]
  {
    RivalsMean(o, c);
    hide Rivals, Topic, Tokens;
  }

  // ---- one claim against a list, in order ----

  function MeetAll(claim: Claim, others: seq<Claim>): Claim {
    if others == [] then claim else Meet(MeetAll(claim, others[..|others| - 1]), others[|others| - 1])
  }

  function YieldAll(claim: Claim, others: seq<Claim>): (r: seq<Claim>)
    ensures |r| == |others|
    ensures forall i :: 0 <= i < |r| ==> r[i] == Yield(claim, others[i])
  {
    seq(|others|, i requires 0 <= i < |others| => Yield(claim, others[i]))
  }

  /** The pairs reported so far, then those of `claim` against each of `others`. */
  function SupersessionsAll(sofar: seq<(Id, Id)>, claim: Claim, others: seq<Claim>): seq<(Id, Id)> {
    if others == [] then sofar
    else SupersessionsAll(sofar, claim, others[..|others| - 1]) + Supersession(claim, others[|others| - 1])
  }

  function ContradictionsAll(sofar: seq<(Id, Id)>, claim: Claim, others: seq<Claim>): seq<(Id, Id)> {
    if others == [] then sofar
    else ContradictionsAll(sofar, claim, others[..|others| - 1]) + Contradiction(claim, others[|others| - 1])
  }

  // ---- a candidate, then a batch: what the lists hold afterwards ----

  /** The state a batch threads through: the claims admitted so far and the reports. */
  datatype Progress = Progress(
    pending: seq<Claim>, supersessions: seq<(Id, Id)>, contradictions: seq<(Id, Id)>, duplicates: seq<Id>)

  const START := Progress([], [], [], [])

  /** `order` is the order in which the store returned the claims about `claim`'s subjects;
      for a claim that is stored already nothing is read. */
  ghost predicate IsRead(db: DB, owner: string, claim: Claim, order: seq<Id>) {
    claim.id !in db.nodes ==>
    && Enumerates(order, ClaimsAboutIds(db, owner, claim.subjects))
    && forall i :: 0 <= i < |order| ==> HasClaim(db, order[i])
  }

  ghost function Admit(db: DB, owner: string, claim: Claim, order: seq<Id>, p: Progress): Progress
    requires IsRead(db, owner, claim, order)
  {
    if claim.id in db.nodes then p.(duplicates := p.duplicates + [claim.id])
    else
      var existing := Hydrated(db, order) + p.pending;
      Progress(YieldAll(claim, p.pending) + [MeetAll(claim, existing)],
               SupersessionsAll(p.supersessions, claim, existing),
               ContradictionsAll(p.contradictions, claim, existing),
               p.duplicates)
  }

  ghost predicate AreReads(db: DB, owner: string, claims: seq<Claim>, orders: seq<seq<Id>>) {
    |orders| == |claims| && forall i :: 0 <= i < |claims| ==> IsRead(db, owner, claims[i], orders[i])
  }

  ghost function AdmitAll(db: DB, owner: string, claims: seq<Claim>, orders: seq<seq<Id>>, p: Progress): Progress
    requires AreReads(db, owner, claims, orders)
  {
    if claims == [] then p
    else
      var n := |claims| - 1;
      Admit(db, owner, claims[n], orders[n], AdmitAll(db, owner, claims[..n], orders[..n], p))
  }

  /** Every candidate's reads, in the order the resolver performs them. */
  ghost predicate AreBatchReads(db: DB, owner: string, batch: seq<seq<Claim>>, orders: seq<seq<seq<Id>>>) {
    |orders| == |batch| && forall k :: 0 <= k < |batch| ==> AreReads(db, owner, batch[k], orders[k])
  }

  /** The pending list once a whole batch has been resolved. */
  ghost function PendingAfter(db: DB, owner: string, batch: seq<seq<Claim>>, orders: seq<seq<seq<Id>>>): seq<Claim>
    requires AreBatchReads(db, owner, batch, orders)
  {
    if batch == [] then []
    else
      var n := |batch| - 1;
      AdmitAll(db, owner, batch[n], orders[n],
               START.(pending := PendingAfter(db, owner, batch[..n], orders[..n]))).pending
  }

  /** What resolving the k-th candidate reported; its claims may still change as later ones are resolved. */
  ghost function Reported(db: DB, owner: string, batch: seq<seq<Claim>>, orders: seq<seq<seq<Id>>>, k: nat): Progress
    requires k < |batch| && AreBatchReads(db, owner, batch, orders)
  {
    AdmitAll(db, owner, batch[k], orders[k], START.(pending := PendingAfter(db, owner, batch[..k], orders[..k])))
  }

  /** Where the k-th candidate's claims begin in the pending list. */
  ghost function Offset(db: DB, owner: string, batch: seq<seq<Claim>>, orders: seq<seq<seq<Id>>>, k: nat): nat
    requires k <= |batch| && AreBatchReads(db, owner, batch, orders)
  {
    |PendingAfter(db, owner, batch[..k], orders[..k])|
  }

  lemma {:induction false} AdmitAllGrows(db: DB, owner: string, claims: seq<Claim>, orders: seq<seq<Id>>, p: Progress)
    requires AreReads(db, owner, claims, orders)
    ensures |AdmitAll(db, owner, claims, orders, p).pending| >= |p.pending|
  {
    if claims != [] {
      AdmitAllGrows(db, owner, claims[..|claims| - 1], orders[..|claims| - 1], p);
    }
  }

  lemma {:induction false} OffsetsAscend(db: DB, owner: string, batch: seq<seq<Claim>>, orders: seq<seq<seq<Id>>>,
                                         j: nat, k: nat)
    requires j <= k <= |batch| && AreBatchReads(db, owner, batch, orders)
    ensures Offset(db, owner, batch, orders, j) <= Offset(db, owner, batch, orders, k)
  {
    if j < k {
      assert batch[..k][..k - 1] == batch[..k - 1] && orders[..k][..k - 1] == orders[..k - 1];
      AdmitAllGrows(db, owner, batch[k - 1], orders[k - 1],
                    START.(pending := PendingAfter(db, owner, batch[..k - 1], orders[..k - 1])));
      OffsetsAscend(db, owner, batch, orders, j, k - 1);
    }
  }

  // ---- the resolver's own form: claims are objects, and the pending list aliases them ----

  class LiveClaim {
    const said: Claim
    var status: Status
    var supersedes: seq<Id>
    var contradicts: seq<Id>

    function Value(): Claim
      reads this
    {
      said.(status := status, supersedes := supersedes, contradicts := contradicts)
    }

    constructor (c: Claim)
      ensures Value() == c
    {
      said, status, supersedes, contradicts := c, c.status, c.supersedes, c.contradicts;
    }
  }

  ghost function Values(live: seq<LiveClaim>): (r: seq<Claim>)
    reads live
    ensures |r| == |live|
    ensures forall i :: 0 <= i < |r| ==> r[i] == live[i].Value()
  {
    seq(|live|, i requires 0 <= i < |live| reads live => live[i].Value())
  }

  class Resolution {
    var newClaims: seq<LiveClaim>
    var supersessions: seq<(Id, Id)>
    var contradictions: seq<(Id, Id)>
    var duplicates: seq<Id>

    constructor ()
      ensures newClaims == [] && supersessions == [] && contradictions == [] && duplicates == []
    {
      newClaims, supersessions, contradictions, duplicates := [], [], [], [];
    }
  }

  /** The list of claims already admitted, shared by the whole batch. */
  class PendingList {
    var items: seq<LiveClaim>

    constructor ()
      ensures items == []
    {
      items := [];
    }
  }

  /** One turn of the inner loop. */
  method Compare(claim: LiveClaim, other: LiveClaim, resolution: Resolution)
    requires claim != other
    modifies claim`status, claim`supersedes, claim`contradicts, other`status
    modifies resolution`supersessions, resolution`contradictions
    ensures claim.Value() == Meet(old(claim.Value()), old(other.Value()))
    ensures other.Value() == Yield(old(claim.Value()), old(other.Value()))
    ensures resolution.supersessions
            == old(resolution.supersessions) + Supersession(old(claim.Value()), old(other.Value()))
    ensures resolution.contradictions
            == old(resolution.contradictions) + Contradiction(old(claim.Value()), old(other.Value()))
  {
    if other.said.id == claim.said.id {
      return;
    }
    if Topic(other.said.statement) != Topic(claim.said.statement) {
      return;
    }
    if Tokens(other.said.statement) == Tokens(claim.said.statement)
        && Obligation(other.said) == Obligation(claim.said) {
      return;
    }
    if other.status != Active {
      return;
    }
    if claim.said.assertedAt > other.said.assertedAt {
      claim.supersedes := claim.supersedes + [other.said.id];
      other.status := Superseded;
      resolution.supersessions := resolution.supersessions + [(claim.said.id, other.said.id)];
    } else if claim.said.assertedAt == other.said.assertedAt {
      claim.contradicts := claim.contradicts + [other.said.id];
      claim.status := Contradicted;
      resolution.contradictions := resolution.contradictions + [(claim.said.id, other.said.id)];
    } else {
      claim.status := Superseded;
      resolution.supersessions := resolution.supersessions + [(other.said.id, claim.said.id)];
    }
  }

  /** The inner loop: `claim` meets every existing claim; both sides change in place. */
  method Confront(claim: LiveClaim, existing: seq<LiveClaim>, resolution: Resolution)
    requires Distinct(existing) && claim !in existing
    modifies claim`status, claim`supersedes, claim`contradicts
    modifies existing
    modifies resolution`supersessions, resolution`contradictions
    ensures claim.Value() == MeetAll(old(claim.Value()), old(Values(existing)))
    ensures Values(existing) == YieldAll(old(claim.Value()), old(Values(existing)))
    ensures resolution.supersessions
            == SupersessionsAll(old(resolution.supersessions), old(claim.Value()), old(Values(existing)))
    ensures resolution.contradictions
            == ContradictionsAll(old(resolution.contradictions), old(claim.Value()), old(Values(existing)))
  {
    hide Engages, Meet, Yield, Supersession, Contradiction, YieldAll;
    ghost var c0 := claim.Value();
    ghost var vals := Values(existing);
    var i := 0;
    while i < |existing|
      invariant 0 <= i <= |existing|
      invariant claim.Value() == MeetAll(c0, vals[..i])
      invariant forall j :: 0 <= j < i ==> existing[j].Value() == Yield(c0, vals[j])
      invariant forall j :: i <= j < |existing| ==> existing[j].Value() == vals[j]
      invariant resolution.supersessions == SupersessionsAll(old(resolution.supersessions), c0, vals[..i])
      invariant resolution.contradictions == ContradictionsAll(old(resolution.contradictions), c0, vals[..i])
    {
      MeetNext(c0, vals, i, old(resolution.supersessions), old(resolution.contradictions));
      Compare(claim, existing[i], resolution);
      i := i + 1;
    }
    assert vals[..i] == vals;
  }

  lemma MeetNext(claim: Claim, others: seq<Claim>, i: nat, ss: seq<(Id, Id)>, cs: seq<(Id, Id)>)
    requires i < |others|
    ensures var sofar := MeetAll(claim, others[..i]);
            && MeetAll(claim, others[..i + 1]) == Meet(sofar, others[i])
            && Yield(sofar, others[i]) == Yield(claim, others[i])
            && SupersessionsAll(ss, claim, others[..i + 1])
               == SupersessionsAll(ss, claim, others[..i]) + Supersession(sofar, others[i])
            && ContradictionsAll(cs, claim, others[..i + 1])
               == ContradictionsAll(cs, claim, others[..i]) + Contradiction(sofar, others[i])
  {
    assert others[..i + 1][..i] == others[..i];
    MeetAllKeepsSaid(claim, others[..i]);
  }

  /** What was said never changes: only status and the two lists do. */
  lemma {:induction false} MeetAllKeepsSaid(claim: Claim, others: seq<Claim>)
    ensures var r := MeetAll(claim, others);
            r == claim.(status := r.status, supersedes := r.supersedes, contradicts := r.contradicts)
  {
    if others != [] {
      MeetAllKeepsSaid(claim, others[..|others| - 1]);
    }
  }

  /** Stored claims are hydrated afresh for every lookup. */
  method Hydrate(claims: seq<Claim>) returns (live: seq<LiveClaim>)
    ensures fresh(live) && Distinct(live)
    ensures Values(live) == claims
  {
    live := [];
    var i := 0;
    while i < |claims|
      invariant 0 <= i == |live| <= |claims|
      invariant fresh(live) && Distinct(live)
      invariant forall j :: 0 <= j < i ==> live[j].Value() == claims[j]
    {
      var c := new LiveClaim(claims[i]);
      live := live + [c];
      i := i + 1;
    }
  }

  ghost predicate Disjoint<T>(a: seq<T>, b: seq<T>) {
    forall i, j :: 0 <= i < |a| && 0 <= j < |b| ==> a[i] != b[j]
  }

  ghost function ProgressOf(pending: PendingList, resolution: Resolution): Progress
    reads pending, pending.items, resolution
  {
    Progress(Values(pending.items), resolution.supersessions, resolution.contradictions, resolution.duplicates)
  }

  class ClaimResolver {
    const store: Neo4jStore

    constructor (store: Neo4jStore)
      ensures this.store == store
    {
      this.store := store;
    }

    /** One turn of the outer loop. */
    method ResolveOne(owner: string, claim: LiveClaim, prior: PendingList, resolution: Resolution)
        returns (ghost order: seq<Id>)
      requires Distinct(prior.items) && claim !in prior.items
      modifies prior, prior.items, claim, resolution
      ensures IsRead(store.State(), owner, old(claim.Value()), order)
      ensures ProgressOf(prior, resolution)
              == Admit(store.State(), owner, old(claim.Value()), order, old(ProgressOf(prior, resolution)))
      ensures var added := if claim.said.id in store.nodes then [] else [claim];
              prior.items == old(prior.items) + added && resolution.newClaims == old(resolution.newClaims) + added
    {
      order := [];
      var known := store.Get(claim.said.id);
      if known.Some? {
        resolution.duplicates := resolution.duplicates + [claim.said.id];
        return;
      }
      var stored;
      stored, order := store.ClaimsAbout(owner, claim.said.subjects);
      Enlist(claim, stored, prior, resolution);
    }

    /** Resolves one candidate's claims, in order, against the store and the batch so far. */
    method Resolve(owner: string, claims: seq<LiveClaim>, prior: PendingList)
      returns (resolution: Resolution, ghost orders: seq<seq<Id>>)
      requires Distinct(claims) && Distinct(prior.items) && Disjoint(claims, prior.items)
      modifies prior, prior.items, claims
      ensures fresh(resolution)
      ensures AreReads(store.State(), owner, old(Values(claims)), orders)
      ensures ProgressOf(prior, resolution)
           == AdmitAll(store.State(), owner, old(Values(claims)), orders, START.(pending := old(Values(prior.items))))
      ensures prior.items == old(prior.items) + resolution.newClaims
      ensures forall c :: c in resolution.newClaims ==> c in claims
      ensures Distinct(prior.items)
    {
      hide Admit, AdmitAll, IsRead, AreReads, MeetAll, SupersessionsAll, ContradictionsAll;
      resolution := new Resolution();
      orders := [];
      ghost var vals := Values(claims);
      ghost var p0 := ProgressOf(prior, resolution);
      AdmitNone(store.State(), owner, p0);
      var k := 0;
      while k < |claims|
        invariant 0 <= k == |orders| <= |claims|
        invariant fresh(resolution)
        invariant Distinct(prior.items)
        invariant prior.items == old(prior.items) + resolution.newClaims
        invariant forall c :: c in resolution.newClaims ==> c in claims
        invariant forall i :: 0 <= i < |prior.items| ==> prior.items[i] in old(prior.items) || prior.items[i] in claims
        invariant forall j :: k <= j < |claims| ==> claims[j].Value() == vals[j] && claims[j] !in prior.items
        invariant AreReads(store.State(), owner, vals[..k], orders)
        invariant ProgressOf(prior, resolution) == AdmitAll(store.State(), owner, vals[..k], orders, p0)
      {
        assert fresh(resolution) && claims[k] in claims;
        var order := ResolveOne(owner, claims[k], prior, resolution);
        AdmitNext(store.State(), owner, vals, orders, order, k, p0);
        orders := orders + [order];
        k := k + 1;
      }
      assert vals[..k] == vals;
    }

    /** A candidate's claims become objects, which the pending list goes on holding. */
    method ResolveValues(owner: string, claims: seq<Claim>, prior: PendingList)
      returns (resolution: Resolution, ghost read: seq<seq<Id>>)
      requires Distinct(prior.items)
      modifies prior, prior.items
      ensures fresh(resolution)
      ensures AreReads(store.State(), owner, claims, read)
      ensures ProgressOf(prior, resolution)
              == AdmitAll(store.State(), owner, claims, read, START.(pending := old(Values(prior.items))))
      ensures prior.items == old(prior.items) + resolution.newClaims && fresh(resolution.newClaims)
      ensures Distinct(prior.items)
    {
      hide AdmitAll, IsRead, AreReads;
      var live := Hydrate(claims);
      resolution, read := Resolve(owner, live, prior);
      forall i | 0 <= i < |resolution.newClaims| ensures fresh(resolution.newClaims[i]) {
        assert resolution.newClaims[i] in live;
      }
    }

    /** Resolves a whole batch over one pending list. Every claim of the batch becomes one object,
        which the pending list and its candidate's resolution share. */
    method ResolveBatch(owner: string, batch: seq<seq<Claim>>)
      returns (resolutions: seq<Resolution>, ghost pending: PendingList, ghost orders: seq<seq<seq<Id>>>)
      ensures AreBatchReads(store.State(), owner, batch, orders)
      ensures Values(pending.items) == PendingAfter(store.State(), owner, batch, orders)
      ensures |resolutions| == |batch| && AreSlices(store.State(), owner, batch, orders, pending.items, resolutions)
    {
      hide AdmitAll, IsRead;
      var list := new PendingList();
      pending := list;
      resolutions, orders := [], [];
      ghost var db := store.State();
      assert PendingAfter(db, owner, batch[..0], orders) == [];
      assert AreBatchReads(db, owner, batch[..0], orders);
      assert AreSlices(db, owner, batch[..0], orders, list.items, resolutions);
      hide PendingAfter, AreSlices, AreBatchReads, AreReads;
      var k := 0;
      while k < |batch|
        invariant 0 <= k == |orders| == |resolutions| <= |batch|
        invariant fresh(list) && Distinct(list.items)
        invariant forall i :: 0 <= i < |list.items| ==> fresh(list.items[i])
        invariant AreBatchReads(db, owner, batch[..k], orders)
        invariant Values(list.items) == PendingAfter(db, owner, batch[..k], orders)
        invariant AreSlices(db, owner, batch[..k], orders, list.items, resolutions)
      {
        ghost var was := list.items;
        var resolution, read := ResolveValues(owner, batch[k], list);
        SlicesFollow(db, owner, batch, orders, read, k, was, resolutions, resolution);
        resolutions, orders := resolutions + [resolution], orders + [read];
        k := k + 1;
      }
      assert batch[..k] == batch;
    }
  }

  lemma AdmitNone(db: DB, owner: string, p: Progress)
    ensures AreReads(db, owner, [], []) && AdmitAll(db, owner, [], [], p) == p
  {
  }

  lemma AdmitNext(db: DB, owner: string, claims: seq<Claim>, orders: seq<seq<Id>>, order: seq<Id>, k: nat, p: Progress)
    requires k == |orders| < |claims|
    requires AreReads(db, owner, claims[..k], orders) && IsRead(db, owner, claims[k], order)
    ensures AreReads(db, owner, claims[..k + 1], orders + [order])
    ensures AdmitAll(db, owner, claims[..k + 1], orders + [order], p)
         == Admit(db, owner, claims[k], order, AdmitAll(db, owner, claims[..k], orders, p))
  {
    assert claims[..k + 1][..k] == claims[..k];
    assert (orders + [order])[..k] == orders;
  }

  /** The k-th resolution lists its reports, and as new claims its stretch of the pending list. */
  ghost predicate IsSlice(db: DB, owner: string, batch: seq<seq<Claim>>, orders: seq<seq<seq<Id>>>,
                          items: seq<LiveClaim>, k: nat, resolution: Resolution)
    requires k < |batch| && AreBatchReads(db, owner, batch, orders)
    reads resolution
  {
    var (from, to) := (Offset(db, owner, batch, orders, k), Offset(db, owner, batch, orders, k + 1));
    var reported := Reported(db, owner, batch, orders, k);
    && from <= to <= |items|
    && resolution.newClaims == items[from..to]
    && resolution.supersessions == reported.supersessions
    && resolution.contradictions == reported.contradictions
    && resolution.duplicates == reported.duplicates
  }

  ghost predicate AreSlices(db: DB, owner: string, batch: seq<seq<Claim>>, orders: seq<seq<seq<Id>>>,
                            items: seq<LiveClaim>, resolutions: seq<Resolution>)
    requires AreBatchReads(db, owner, batch, orders)
    reads resolutions
  {
    |resolutions| == |batch| && forall k :: 0 <= k < |batch| ==>
        IsSlice(db, owner, batch, orders, items, k, resolutions[k])
  }

  /** Resolving one more candidate moves no earlier slice. */
  lemma SlicesStable(db: DB, owner: string, batch: seq<seq<Claim>>, orders: seq<seq<seq<Id>>>, read: seq<seq<Id>>,
                     k: nat)
    requires k == |orders| < |batch|
    requires AreBatchReads(db, owner, batch[..k], orders) && AreReads(db, owner, batch[k], read)
    ensures AreBatchReads(db, owner, batch[..k + 1], orders + [read])
    ensures PendingAfter(db, owner, batch[..k + 1], orders + [read])
         == AdmitAll(db, owner, batch[k], read, START.(pending := PendingAfter(db, owner, batch[..k], orders))).pending
    ensures Reported(db, owner, batch[..k + 1], orders + [read], k)
         == AdmitAll(db, owner, batch[k], read, START.(pending := PendingAfter(db, owner, batch[..k], orders)))
    ensures Offset(db, owner, batch[..k + 1], orders + [read], k) == |PendingAfter(db, owner, batch[..k], orders)|
    ensures Offset(db, owner, batch[..k + 1], orders + [read], k + 1)
            == |PendingAfter(db, owner, batch[..k + 1], orders + [read])|
    ensures forall j :: 0 <= j <= k ==>
              Offset(db, owner, batch[..k + 1], orders + [read], j) == Offset(db, owner, batch[..k], orders, j)
    ensures forall j :: 0 <= j < k ==>
              Reported(db, owner, batch[..k + 1], orders + [read], j) == Reported(db, owner, batch[..k], orders, j)
  {
    var (b, o) := (batch[..k + 1], orders + [read]);
    assert b[..k] == batch[..k] && o[..k] == orders && b[..k + 1] == b && o[..k + 1] == o;
    forall j | 0 <= j <= k ensures b[..j] == batch[..k][..j] && o[..j] == orders[..j] {
    }
  }

  lemma SliceAdded(db: DB, owner: string, batch: seq<seq<Claim>>, orders: seq<seq<seq<Id>>>, read: seq<seq<Id>>, k: nat,
                   items: seq<LiveClaim>, resolution: Resolution)
    requires k == |orders| < |batch|
    requires AreBatchReads(db, owner, batch[..k], orders) && AreReads(db, owner, batch[k], read)
    requires |items| == |PendingAfter(db, owner, batch[..k], orders)|
    requires Progress(Values(items + resolution.newClaims), resolution.supersessions, resolution.contradictions,
                      resolution.duplicates)
          == AdmitAll(db, owner, batch[k], read, START.(pending := PendingAfter(db, owner, batch[..k], orders)))
    ensures AreBatchReads(db, owner, batch[..k + 1], orders + [read])
    ensures IsSlice(db, owner, batch[..k + 1], orders + [read], items + resolution.newClaims, k, resolution)
  {
    hide AdmitAll;
    SlicesStable(db, owner, batch, orders, read, k);
  }

  lemma SliceExtends(db: DB, owner: string, batch: seq<seq<Claim>>, orders: seq<seq<seq<Id>>>, read: seq<seq<Id>>,
                     k: nat,
                     items: seq<LiveClaim>, more: seq<LiveClaim>, j: nat, resolution: Resolution)
    requires j < k == |orders| < |batch|
    requires AreBatchReads(db, owner, batch[..k], orders) && AreReads(db, owner, batch[k], read)
    requires IsSlice(db, owner, batch[..k], orders, items, j, resolution)
    ensures AreBatchReads(db, owner, batch[..k + 1], orders + [read])
    ensures IsSlice(db, owner, batch[..k + 1], orders + [read], items + more, j, resolution)
  {
    hide PendingAfter, AdmitAll, AreReads, Offset, Reported;
    SlicesStable(db, owner, batch, orders, read, k);
    var (from, to) := (Offset(db, owner, batch[..k], orders, j), Offset(db, owner, batch[..k], orders, j + 1));
    assert (items + more)[from..to] == items[from..to];
  }

  /** One more resolution: the slices before it stand, and it adds its own. */
  lemma SlicesFollow(db: DB, owner: string, batch: seq<seq<Claim>>, orders: seq<seq<seq<Id>>>, read: seq<seq<Id>>,
                     k: nat,
                     items: seq<LiveClaim>, resolutions: seq<Resolution>, resolution: Resolution)
    requires k == |orders| < |batch|
    requires AreBatchReads(db, owner, batch[..k], orders) && AreReads(db, owner, batch[k], read)
    requires |items| == |PendingAfter(db, owner, batch[..k], orders)|
    requires AreSlices(db, owner, batch[..k], orders, items, resolutions)
    requires Progress(Values(items + resolution.newClaims), resolution.supersessions, resolution.contradictions,
                      resolution.duplicates)
          == AdmitAll(db, owner, batch[k], read, START.(pending := PendingAfter(db, owner, batch[..k], orders)))
    ensures AreBatchReads(db, owner, batch[..k + 1], orders + [read])
    ensures Values(items + resolution.newClaims) == PendingAfter(db, owner, batch[..k + 1], orders + [read])
    ensures AreSlices(db, owner, batch[..k + 1], orders + [read], items + resolution.newClaims,
                      resolutions + [resolution])
  {
    hide IsSlice, Values, PendingAfter, AdmitAll;
    SlicesStable(db, owner, batch, orders, read, k);
    SliceAdded(db, owner, batch, orders, read, k, items, resolution);
    forall j | 0 <= j < k
      ensures IsSlice(db, owner, batch[..k + 1], orders + [read], items + resolution.newClaims, j, resolutions[j])
    {
      SliceExtends(db, owner, batch, orders, read, k, items, resolution.newClaims, j, resolutions[j]);
    }
  }

  /** Confronts a new claim with what is stored and pending, and makes it pending. */
  method Enlist(claim: LiveClaim, stored: seq<Claim>, prior: PendingList, resolution: Resolution)
    requires Distinct(prior.items) && claim !in prior.items
    modifies prior, prior.items, claim, resolution
    ensures var (c, was) := (old(claim.Value()), old(Values(prior.items)));
            && Values(prior.items) == YieldAll(c, was) + [MeetAll(c, stored + was)]
            && resolution.supersessions == SupersessionsAll(old(resolution.supersessions), c, stored + was)
            && resolution.contradictions == ContradictionsAll(old(resolution.contradictions), c, stored + was)
    ensures resolution.duplicates == old(resolution.duplicates)
    ensures prior.items == old(prior.items) + [claim]
    ensures resolution.newClaims == old(resolution.newClaims) + [claim]
  {
    hide Engages, Meet, Yield, Supersession, Contradiction, MeetAll, SupersessionsAll, ContradictionsAll;
    ghost var c := claim.Value();
    ghost var was := Values(prior.items);
    var live := Hydrate(stored);
    var existing := live + prior.items;
    assert Values(existing) == stored + was;
    Confront(claim, existing, resolution);
    forall i | 0 <= i < |prior.items| ensures prior.items[i].Value() == Yield(c, was[i]) {
      assert existing[|live| + i] == prior.items[i];
      assert Values(existing)[|live| + i] == Yield(c, (stored + was)[|live| + i]);
    }
    prior.items := prior.items + [claim];
    resolution.newClaims := resolution.newClaims + [claim];
    assert Values(prior.items) == YieldAll(c, was) + [MeetAll(c, stored + was)];
  }
}
