/** No chain leaves its owner: what other owners store cannot change it. */
module OwnerWalks {
  import opened Basics
  import opened Schema
  import opened Store
  import opened Walks
  import opened GraphReads
  import opened PermissionPass
  import opened EdgeLists
  import Context = ContextChains
  import Shift = ShiftHistories
  import ShiftReads

  /** Two stores with the same rows of `owner`, and the same edges among these. */
  ghost predicate SamePart(db: DB, other: DB, owner: string) {
    && (forall id :: id in db.nodes && db.nodes[id].owner == owner ==>
                       id in other.nodes && other.nodes[id] == db.nodes[id])
    && (forall id :: id in other.nodes && other.nodes[id].owner == owner ==>
                       id in db.nodes && db.nodes[id] == other.nodes[id])
    && (forall e: Edge ::
          && e.from in db.nodes && db.nodes[e.from].owner == owner
          && e.to in db.nodes && db.nodes[e.to].owner == owner ==>
            (e in db.edges <==> e in other.edges))
  }

  ghost predicate SameRow(db: DB, other: DB, id: Id) {
    id in db.nodes && id in other.nodes && db.nodes[id] == other.nodes[id]
  }

  lemma SameOwned(db: DB, other: DB, owner: string)
    requires SamePart(db, other, owner)
    ensures forall id :: OwnedBy(db, owner, id) <==> OwnedBy(other, owner, id)
    ensures forall id :: OwnedBy(db, owner, id) ==> SameRow(db, other, id)
    ensures SupersedesOf(db, owner) == SupersedesOf(other, owner)
    ensures Context.CitesOf(db, owner) == Context.CitesOf(other, owner)
  {
  }

  /** A walk of at least one relationship ends at the end of one. */
  lemma TrailEnds(g: set<Edge>, seeds: set<Id>, n: nat, t: Id) returns (e: Edge)
    requires n > 0 && Trails(g, seeds, n, t)
    ensures e in g && (e.from == t || e.to == t)
  {
    var nodes, es :| IsTrail(g, nodes, es) && |es| == n && nodes[0] in seeds && nodes[n] == t;
    e := es[n - 1];
    assert Joins(es[n - 1], nodes[n - 1], nodes[n]);
  }

  /** Every claim of a chain is the owner's. */
  lemma ChainStaysHome(db: DB, owner: string, seed: Id, maxHops: nat, t: Id)
    requires t in ChainIds(db, owner, seed, maxHops)
    ensures t in db.nodes && db.nodes[t].owner == owner && HasClaim(db, t)
  {
    if t != seed {
      var n :| 1 <= n <= maxHops && Trails(SupersedesOf(db, owner), {seed}, n, t);
      var e := TrailEnds(SupersedesOf(db, owner), {seed}, n, t);
    }
  }

  lemma ChainIdsIgnoreOthers(db: DB, other: DB, owner: string, seed: Id, maxHops: nat)
    requires SamePart(db, other, owner)
    ensures ChainIds(db, owner, seed, maxHops) == ChainIds(other, owner, seed, maxHops)
  {
    SameOwned(db, other, owner);
    SomeIdsIgnoreOthers(db, other, owner, seed, maxHops);
    SomeIdsIgnoreOthers(other, db, owner, seed, maxHops);
  }

  lemma SomeIdsIgnoreOthers(db: DB, other: DB, owner: string, seed: Id, maxHops: nat)
    requires forall id :: OwnedBy(db, owner, id) <==> OwnedBy(other, owner, id)
    requires forall id :: OwnedBy(db, owner, id) ==> SameRow(db, other, id)
    requires SupersedesOf(db, owner) == SupersedesOf(other, owner)
    ensures ChainIds(db, owner, seed, maxHops) <= ChainIds(other, owner, seed, maxHops)
  {
    hide SupersedesOf, Trails;
    forall t | t in ChainIds(db, owner, seed, maxHops) ensures t in ChainIds(other, owner, seed, maxHops) {
      ChainStaysHome(db, owner, seed, maxHops, t);
      assert SameRow(db, other, t);
    }
  }

  /** What other owners store, and any edge to or from it, leaves the supersession chain as it is. */
  lemma ChainIgnoresOthers(db: DB, other: DB, owner: string, seed: Id)
    requires SamePart(db, other, owner)
    ensures SupersessionChain(db, owner, seed) == SupersessionChain(other, owner, seed)
  {
    ChainIdsIgnoreOthers(db, other, owner, seed, MAX_HOPS);
    var ids := ChainIds(db, owner, seed, MAX_HOPS);
    forall t | t in ids ensures TimeRank(db.nodes)(t) == TimeRank(other.nodes)(t) {
      ChainStaysHome(db, owner, seed, MAX_HOPS, t);
    }
    hide ChainIds;
    ArrangeCongruent(TimeRank(db.nodes), TimeRank(other.nodes), ids);
  }

  /** Nor does it change what a walk over citations may hand on. */
  lemma CitesIgnoreOthers(db: DB, other: DB, owner: string, seed: Id, hops: nat, walk: Context.CitesWalk)
    requires SamePart(db, other, owner)
    ensures Context.IsCitesWalk(db, owner, seed, hops, walk) <==> Context.IsCitesWalk(other, owner, seed, hops, walk)
  {
    SameOwned(db, other, owner);
    hide Context.CitesOf, SupersedesOf, Trails, ShortestTrail, EdgesOrdered, Context.OnTrail, DistinctIds;
  }

  lemma LinksIgnoreOthers(db: DB, other: DB, owner: string, chain: set<Id>)
    requires SamePart(db, other, owner)
    ensures forall e :: ShiftReads.IsLink(db, owner, chain, e) <==> ShiftReads.IsLink(other, owner, chain, e)
  {
  }

  lemma WalkedIgnoresOthers(db: DB, other: DB, owner: string, chain: set<Id>, id: Id)
    requires SamePart(db, other, owner) && forall c :: c in chain ==> OwnedBy(db, owner, c)
    ensures ShiftReads.IsWalked(db, owner, chain, id) <==> ShiftReads.IsWalked(other, owner, chain, id)
  {
    SameOwned(db, other, owner);
    LinksIgnoreOthers(db, other, owner, chain);
    hide ShiftReads.IsLink, Shift.Reconciles, SamePart, SupersedesOf, Context.CitesOf;
  }

  /** Nor what the walk of a decision's history hands on. */
  lemma ShiftIgnoresOthers(db: DB, other: DB, owner: string, seed: Id, walk: Shift.ShiftWalk)
    requires SamePart(db, other, owner)
    ensures ShiftReads.IsShiftWalk(db, owner, seed, walk) <==> ShiftReads.IsShiftWalk(other, owner, seed, walk)
  {
    SameOwned(db, other, owner);
    ChainIdsIgnoreOthers(db, other, owner, seed, MAX_HOPS);
    var chain := ChainIds(db, owner, seed, MAX_HOPS);
    forall t | t in chain ensures OwnedBy(db, owner, t) {
      ChainStaysHome(db, owner, seed, MAX_HOPS, t);
    }
    LinksIgnoreOthers(db, other, owner, chain);
    forall id ensures ShiftReads.IsWalked(db, owner, chain, id) <==> ShiftReads.IsWalked(other, owner, chain, id) {
      WalkedIgnoresOthers(db, other, owner, chain, id);
    }
    forall id ensures ShiftReads.IsWalked(db, owner, chain, id) ==> OwnedBy(db, owner, id) {
    }
    hide ShiftReads.IsWalked, ShiftReads.IsLink, ChainIds, EdgesOrdered, DistinctIds, SamePart, SupersedesOf,
      Context.CitesOf;
  }

  // ---- neighbourhood hops, whose inner nodes are anyone's ----

  /** No edge joins the owner's rows to anything else. */
  ghost predicate Apart(db: DB, owner: string) {
    forall e :: e in db.edges ==> (OwnedBy(db, owner, e.from) <==> OwnedBy(db, owner, e.to))
  }

  lemma {:induction false} BallStaysHome(db: DB, other: DB, owner: string, s: set<Id>, k: nat)
    requires SamePart(db, other, owner) && Apart(db, owner)
    requires forall t :: t in s ==> OwnedBy(db, owner, t)
    ensures forall t :: t in Ball(db.edges, s, k) ==> OwnedBy(db, owner, t)
    ensures Ball(db.edges, s, k) <= Ball(other.edges, s, k)
  {
    if k > 0 {
      BallStaysHome(db, other, owner, s, k - 1);
      var ball := Ball(db.edges, s, k - 1);
      forall t | t in Neighbours(db.edges, ball)
        ensures OwnedBy(db, owner, t) && t in Neighbours(other.edges, Ball(other.edges, s, k - 1))
      {
        var e :| e in db.edges && ((e.from in ball && e.to == t) || (e.to in ball && e.from == t));
        assert OwnedBy(db, owner, e.from) && OwnedBy(db, owner, e.to) && e in other.edges;
      }
    }
  }

  lemma SameBalls(db: DB, other: DB, owner: string, s: set<Id>, k: nat)
    requires SamePart(db, other, owner) && Apart(db, owner) && Apart(other, owner)
    requires forall t :: t in s ==> OwnedBy(db, owner, t)
    ensures Ball(db.edges, s, k) == Ball(other.edges, s, k)
  {
    BallStaysHome(db, other, owner, s, k);
    BallStaysHome(other, db, owner, s, k);
  }

  /** Where no edge joins an owner's rows to another's, hops are the owner's own. */
  lemma HopsIgnoreOthers(db: DB, other: DB, owner: string, seeds: set<Id>, hops: nat, hop: map<Id, nat>,
                         hop': map<Id, nat>)
    requires SamePart(db, other, owner) && Apart(db, owner) && Apart(other, owner)
    requires IsHopMap(db, owner, seeds, hops, hop) && IsHopMap(other, owner, seeds, hops, hop')
    ensures hop == hop'
  {
    hide IsHopMap, Ball, At, SamePart, Apart;
    SameOwned(db, other, owner);
    HopsAreExact(db, owner, seeds, hops, hop);
    HopsAreExact(other, owner, seeds, hops, hop');
    var s := Present(db, owner, seeds);
    assert s == Present(other, owner, seeds);
    SameBalls(db, other, owner, s, hops);
    forall t | t in hop ensures hop[t] == hop'[t] {
      SameDistance(db, other, owner, s, hop[t], t);
      DistanceUnique(other.edges, s, hop[t], hop'[t], t);
    }
  }

  lemma SameDistance(db: DB, other: DB, owner: string, s: set<Id>, k: nat, t: Id)
    requires SamePart(db, other, owner) && Apart(db, owner) && Apart(other, owner)
    requires (forall u :: u in s ==> OwnedBy(db, owner, u)) && At(db.edges, s, k, t)
    ensures At(other.edges, s, k, t)
  {
    hide Ball, SamePart, Apart;
    SameBalls(db, other, owner, s, k);
    if k > 0 {
      SameBalls(db, other, owner, s, k - 1);
    }
  }

  lemma TwoAway(g: set<Edge>, a: Id, x: Id, b: Id)
    requires g == {Edge(a, Rel.Cites, x), Edge(x, Rel.Cites, b)} && a != x && a != b && x != b
    ensures At(g, {a}, 2, b) && b in Ball(g, {a}, 2)
  {
    assert Edge(a, Rel.Cites, x) in g && Edge(x, Rel.Cites, b) in g;
    assert Ball(g, {a}, 0) == {a};
    assert Ball(g, {a}, 1) <= {a, x};
    assert x in Ball(g, {a}, 1) && b in Ball(g, {a}, 2);
  }

  /** Where one does, they need not be: another's row `x` between two of the owner's that nothing else joins
      brings one within two hops of the other, and without it neither finds the other at any depth. */
  lemma HopsCrossOthers(db: DB, owner: string, a: Id, x: Id, b: Id, hops: nat, hop: map<Id, nat>, hop': map<Id, nat>)
    requires OwnedBy(db, owner, a) && OwnedBy(db, owner, b) && !OwnedBy(db, owner, x) && a != b && hops >= 2
    requires db.edges == {Edge(a, Rel.Cites, x), Edge(x, Rel.Cites, b)}
    requires IsHopMap(db, owner, {a}, hops, hop) && IsHopMap(DB(db.nodes - {x}, {}), owner, {a}, hops, hop')
    ensures SamePart(db, DB(db.nodes - {x}, {}), owner)
    ensures b in hop && hop[b] == 2 && b !in hop'
  {
    WithoutRow(db, owner, x, a);
    hide SamePart, OwnedBy;
    TwoHops(db, owner, a, x, b, hops, hop);
    NoHops(DB(db.nodes - {x}, {}), owner, a, b, hops, hop');
  }

  lemma WithoutRow(db: DB, owner: string, x: Id, a: Id)
    requires !OwnedBy(db, owner, x) && OwnedBy(db, owner, a)
    requires forall e :: e in db.edges ==> e.from == x || e.to == x
    ensures SamePart(db, DB(db.nodes - {x}, {}), owner) && OwnedBy(DB(db.nodes - {x}, {}), owner, a)
  {
  }

  lemma TwoHops(db: DB, owner: string, a: Id, x: Id, b: Id, hops: nat, hop: map<Id, nat>)
    requires OwnedBy(db, owner, a) && OwnedBy(db, owner, b) && a != x && a != b && x != b && hops >= 2
    requires db.edges == {Edge(a, Rel.Cites, x), Edge(x, Rel.Cites, b)} && IsHopMap(db, owner, {a}, hops, hop)
    ensures b in hop && hop[b] == 2
  {
    hide IsHopMap, At, Ball;
    assert Present(db, owner, {a}) == {a};
    HopsAreExact(db, owner, {a}, hops, hop);
    TwoAway(db.edges, a, x, b);
    BallGrows(db.edges, {a}, 2, hops);
    DistanceUnique(db.edges, {a}, 2, hop[b], b);
  }

  lemma NoHops(db: DB, owner: string, a: Id, b: Id, hops: nat, hop: map<Id, nat>)
    requires OwnedBy(db, owner, a) && a != b && db.edges == {} && IsHopMap(db, owner, {a}, hops, hop)
    ensures b !in hop
  {
    hide IsHopMap, At, Ball;
    assert Present(db, owner, {a}) == {a};
    HopsAreExact(db, owner, {a}, hops, hop);
    BallInClosed(db.edges, {a}, {a}, hops);
  }
}
