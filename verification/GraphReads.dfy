/** The store's bounded walks: supersession chains, neighbourhood hops, citation chains. */
module GraphReads {
  import opened Basics
  import opened Schema
  import opened Store
  import opened Ledger
  import opened Runs
  import opened Beliefs
  import opened Walks

  // ---- supersession chains ----

  predicate OwnedBy(db: DB, owner: string, id: Id) {
    id in db.nodes && db.nodes[id].owner == owner
  }

  /** SUPERSEDES edges among one owner's nodes: every node of a path is owner-constrained. */
  ghost function SupersedesOf(db: DB, owner: string): set<Edge> {
    set e | e in db.edges && e.rel == Rel.Supersedes && OwnedBy(db, owner, e.from) && OwnedBy(db, owner, e.to)
  }

  /** The seed, and every claim some trail of 1 to `maxHops` SUPERSEDES edges leads to. */
  ghost function ChainIds(db: DB, owner: string, seed: Id, maxHops: nat): set<Id> {
    if !HasClaim(db, seed) || !OwnedBy(db, owner, seed) then {}
    else
      {seed} + set t | t in db.nodes && HasClaim(db, t)
                       && exists n :: 1 <= n <= maxHops && Trails(SupersedesOf(db, owner), {seed}, n, t)
  }

  /** ORDER BY occurred_at_ms, id. */
  function TimeRank(nodes: map<Id, Row>): Id -> Rank {
    id => if id in nodes then Rank(0, nodes[id].occurredAt) else Rank(1, 0)
  }

  const MAX_HOPS := 24

  ghost function SupersessionChain(db: DB, owner: string, seed: Id): seq<Id> {
    Arrange(TimeRank(db.nodes), ChainIds(db, owner, seed, MAX_HOPS))
  }

  lemma ChainIsBall(db: DB, owner: string, seed: Id, k: nat)
    requires Inv(db) && HasClaim(db, seed) && OwnedBy(db, owner, seed)
    ensures ChainIds(db, owner, seed, k) == Ball(SupersedesOf(db, owner), {seed}, k)
  {
    var g := SupersedesOf(db, owner);
    var (chain, ball) := (ChainIds(db, owner, seed, k), Ball(g, {seed}, k));
    forall t | t in chain ensures t in ball {
      if t == seed {
        InOwnBall(g, seed, k);
      } else {
        var n :| 1 <= n <= k && Trails(g, {seed}, n, t);
        TrailsAreDistances(g, {seed}, n, t);
        BallGrows(g, {seed}, n, k);
      }
    }
    forall t | t in ball ensures t in chain {
      var d := HasDistance(g, {seed}, k, t);
      TrailsAreDistances(g, {seed}, d, t);
      if d > 0 {
        BallOfClaims(db, owner, seed, k, t);
      }
    }
  }

  lemma BallOfClaims(db: DB, owner: string, seed: Id, k: nat, t: Id)
    requires Inv(db) && HasClaim(db, seed) && OwnedBy(db, owner, seed)
    requires t in Ball(SupersedesOf(db, owner), {seed}, k)
    ensures HasClaim(db, t) && OwnedBy(db, owner, t)
  {
    var claims := set id | id in db.nodes && HasClaim(db, id) && OwnedBy(db, owner, id);
    forall e | e in SupersedesOf(db, owner) ensures e.from in claims && e.to in claims {
      SupersedesNamed(db, ClaimsOf(db), e.from, e.to);
      SupersededSound(ClaimsOf(db), e.from, e.to);
    }
    BallInClosed(SupersedesOf(db, owner), {seed}, claims, k);
  }

  /** Chains are equal when the ids they sort are. */
  lemma ChainsAgree(db: DB, owner: string, a: Id, b: Id)
    ensures SupersessionChain(db, owner, a) == SupersessionChain(db, owner, b)
       <==> ChainIds(db, owner, a, MAX_HOPS) == ChainIds(db, owner, b, MAX_HOPS)
  {
    hide ChainIds, Arrange;
    assert Elements(SupersessionChain(db, owner, a)) == ChainIds(db, owner, a, MAX_HOPS);
    assert Elements(SupersessionChain(db, owner, b)) == ChainIds(db, owner, b, MAX_HOPS);
  }

  ghost predicate AllNear(g: set<Edge>, component: set<Id>, k: nat) {
    forall a, b :: a in component && b in component ==> b in Ball(g, {a}, k)
  }

  ghost predicate OneChain(db: DB, owner: string, component: set<Id>) {
    forall a, b :: a in component && b in component ==>
        SupersessionChain(db, owner, a) == SupersessionChain(db, owner, b)
  }

  /** The walk capped at 24 hops answers alike from every member of a closed set of claims if and only if no
      two of them are further apart than that. */
  lemma ChainsAgreeExactly(db: DB, owner: string, component: set<Id>)
    requires Reachable(db) && Closed(SupersedesOf(db, owner), component)
    requires forall id :: id in component ==> HasClaim(db, id) && OwnedBy(db, owner, id)
    ensures OneChain(db, owner, component) <==> AllNear(SupersedesOf(db, owner), component, 24)
  {
    ReachableKeepsInv(db);
    hide Inv, Reachable, SupersedesOf, Ball, ChainIds, SupersessionChain, HasClaim, OwnedBy;
    var g := SupersedesOf(db, owner);
    forall a | a in component ensures ChainIds(db, owner, a, MAX_HOPS) == Ball(g, {a}, MAX_HOPS) {
      ChainIsBall(db, owner, a, MAX_HOPS);
    }
    forall a, b | a in component && b in component
      ensures SupersessionChain(db, owner, a) == SupersessionChain(db, owner, b)
         <==> Ball(g, {a}, MAX_HOPS) == Ball(g, {b}, MAX_HOPS)
    {
      ChainsAgree(db, owner, a, b);
    }
    BallsAgreeExactly(g, component, MAX_HOPS);
  }

  lemma BallsAgreeExactly(g: set<Edge>, component: set<Id>, k: nat)
    requires Closed(g, component)
    ensures (forall a, b :: a in component && b in component ==> Ball(g, {a}, k) == Ball(g, {b}, k)) <==>
              AllNear(g, component, k)
  {
    hide Ball, Closed;
    forall a | a in component ensures Ball(g, {a}, k) <= component && a in Ball(g, {a}, k) {
      BallInClosed(g, {a}, component, k);
      InOwnBall(g, a, k);
    }
    if AllNear(g, component, k) {
      forall a | a in component ensures Ball(g, {a}, k) == component {
      }
    }
  }

  /** In a closed set of at most 25 claims no two that any trail joins are further apart. */
  lemma SmallIsNear(g: set<Edge>, seed: Id, component: set<Id>, k: nat)
    requires Closed(g, component) && seed in component && |component| <= k + 1
    ensures Closed(g, Ball(g, {seed}, k)) && AllNear(g, Ball(g, {seed}, k), k)
  {
    hide Ball, Closed;
    BallIsComponent(g, seed, component, k);
    forall a, b | a in Ball(g, {seed}, k) && b in Ball(g, {seed}, k) ensures b in Ball(g, {a}, k) {
      MembersSeeTheSame(g, seed, a, component, k);
    }
  }

  /** From any member of a supersession component of at most 25 claims, the undirected walk capped
      at 24 hops returns the same claims in the same order. */
  lemma ChainSameFromEveryMember(db: DB, owner: string, seed: Id, member: Id, component: set<Id>)
    requires Reachable(db) && HasClaim(db, seed) && OwnedBy(db, owner, seed)
    requires seed in component && Closed(SupersedesOf(db, owner), component) && |component| <= 25
    requires member in SupersessionChain(db, owner, seed)
    ensures SupersessionChain(db, owner, member) == SupersessionChain(db, owner, seed)
  {
    ReachableKeepsInv(db);
    hide Inv, Arrange, Reachable, ChainIds, Closed, Ball, HasClaim, OwnedBy, SupersedesOf;
    var g := SupersedesOf(db, owner);
    ChainIsBall(db, owner, seed, MAX_HOPS);
    assert member in Elements(SupersessionChain(db, owner, seed));
    SmallIsNear(g, seed, component, MAX_HOPS);
    InOwnBall(g, seed, MAX_HOPS);
    forall id | id in Ball(g, {seed}, MAX_HOPS) ensures HasClaim(db, id) && OwnedBy(db, owner, id) {
      BallOfClaims(db, owner, seed, MAX_HOPS, id);
    }
    hide SupersessionChain;
    ChainsAgreeExactly(db, owner, Ball(g, {seed}, MAX_HOPS));
  }

  /** Along a chain no claim supersedes a later one: the order is a topological order. */
  lemma ChainIsTopological(db: DB, owner: string, seed: Id, i: nat, j: nat)
    requires Reachable(db) && i < |SupersessionChain(db, owner, seed)| && j < |SupersessionChain(db, owner, seed)|
    requires Edge(SupersessionChain(db, owner, seed)[i], Rel.Supersedes, SupersessionChain(db, owner, seed)[j])
             in db.edges
    ensures j < i
  {
    var chain := SupersessionChain(db, owner, seed);
    SupersedesPointsBack(db, chain[i], chain[j]);
    hide Reachable, Outdates;
    assert Ascending(TimeRank(db.nodes), chain) && !Before(TimeRank(db.nodes), chain[i], chain[j]) && i != j;
  }

  // ---- neighbourhood hops ----

  /** `neighbour_ids`: both ends of the walk are owner-constrained, the nodes between are not. */
  ghost predicate Neighbouring(db: DB, owner: string, seeds: set<Id>, hops: nat, t: Id) {
    OwnedBy(db, owner, t) && exists n :: 1 <= n <= hops && Trails(db.edges, seeds, n, t)
  }

  /** min(length(path)) over the matching paths. */
  ghost predicate ShortestTrail(g: set<Edge>, seeds: set<Id>, t: Id, n: nat) {
    1 <= n && Trails(g, seeds, n, t) && forall m :: 1 <= m < n ==> !Trails(g, seeds, m, t)
  }

  /** The dict `hop_of` of the neighbourhood read: 0 for stored seeds, else the shortest trail. */
  ghost predicate IsHopMap(db: DB, owner: string, seeds: set<Id>, hops: nat, hop: map<Id, nat>) {
    && (forall t :: t in hop <==>
        (t in seeds && OwnedBy(db, owner, t)) || Neighbouring(db, owner, Present(db, owner, seeds), hops, t))
    && (forall t :: t in hop ==>
          if t in seeds then hop[t] == 0 else ShortestTrail(db.edges, Present(db, owner, seeds), t, hop[t]))
  }

  /** The answer of `neighbour_ids`; a seed is in it if another seed, or a cycle, leads to it. */
  ghost predicate IsReached(db: DB, owner: string, seeds: set<Id>, hops: nat, reached: map<Id, nat>) {
    && (forall t :: t in reached <==> Neighbouring(db, owner, seeds, hops, t))
    && (forall t :: t in reached ==> ShortestTrail(db.edges, seeds, t, reached[t]))
  }

  /** The walk's dict: stored seeds first, at 0, then whatever else was reached. */
  method MergeHops(seeds: seq<Id>, present: set<Id>, reached: map<Id, nat>) returns (hopOf: map<Id, nat>)
    ensures forall t :: t in hopOf <==> (t in seeds && t in present) || t in reached
    ensures forall t :: t in hopOf ==> hopOf[t] == if t in seeds && t in present then 0 else reached[t]
  {
    hopOf := map[];
    for i := 0 to |seeds|
      invariant forall t :: t in hopOf <==> t in seeds[..i] && t in present
      invariant forall t :: t in hopOf ==> hopOf[t] == 0
    {
      if seeds[i] in present {
        hopOf := hopOf[seeds[i] := 0];
      }
    }
    hopOf := hopOf + map t | t in reached && t !in hopOf :: reached[t];
  }

  /** That dict is the hop map. */
  lemma MergedIsHopMap(db: DB, owner: string, seeds: seq<Id>, hops: nat, reached: map<Id, nat>, hopOf: map<Id, nat>)
    requires IsReached(db, owner, Present(db, owner, Elements(seeds)), hops, reached)
    requires var present := Present(db, owner, Elements(seeds));
             && (forall t :: t in hopOf <==> (t in seeds && t in present) || t in reached)
             && (forall t :: t in hopOf ==> hopOf[t] == if t in seeds && t in present then 0 else reached[t])
    ensures IsHopMap(db, owner, Elements(seeds), hops, hopOf)
  {
    hide ShortestTrail, OwnedBy;
    forall t ensures Neighbouring(db, owner, Present(db, owner, Elements(seeds)), hops, t) ==> OwnedBy(db, owner, t) {
      NeighboursAreOwned(db, owner, Present(db, owner, Elements(seeds)), hops, t);
    }
  }

  ghost function Present(db: DB, owner: string, seeds: set<Id>): set<Id> {
    set s | s in seeds && OwnedBy(db, owner, s)
  }

  ghost function Distance(g: set<Edge>, s: set<Id>, k: nat, t: Id): (d: nat)
    requires t in Ball(g, s, k)
    ensures d <= k && At(g, s, d, t)
  {
    if k == 0 || t !in Ball(g, s, k - 1) then k else Distance(g, s, k - 1, t)
  }

  ghost function HopOf(db: DB, owner: string, seeds: set<Id>, hops: nat): map<Id, nat> {
    var (g, s) := (db.edges, Present(db, owner, seeds));
    map t | t in db.nodes && OwnedBy(db, owner, t) && t in Ball(g, s, hops) :: Distance(g, s, hops, t)
  }

  lemma WithinBall(db: DB, owner: string, s: set<Id>, hops: nat, t: Id)
    requires OwnedBy(db, owner, t)
    ensures t in Ball(db.edges, s, hops) <==> t in s || Neighbouring(db, owner, s, hops, t)
  {
    BallGrows(db.edges, s, 0, hops);
    if Neighbouring(db, owner, s, hops, t) {
      var n :| 1 <= n <= hops && Trails(db.edges, s, n, t);
      TrailsAreDistances(db.edges, s, n, t);
      BallGrows(db.edges, s, n, hops);
    }
    if t in Ball(db.edges, s, hops) {
      TrailsAreDistances(db.edges, s, Distance(db.edges, s, hops, t), t);
    }
  }

  lemma DistanceIsShortest(g: set<Edge>, s: set<Id>, t: Id, d: nat)
    requires At(g, s, d, t)
    ensures if t in s then d == 0 else ShortestTrail(g, s, t, d)
  {
    hide Trails;
    TrailsAreDistances(g, s, d, t);
    forall m | 1 <= m < d ensures !Trails(g, s, m, t) {
      TrailsAreDistances(g, s, m, t);
      BallGrows(g, s, m, d - 1);
    }
    if t in s {
      DistanceUnique(g, s, 0, d, t);
    }
  }

  /** The dict the walk builds. */
  lemma HopOfIsHopMap(db: DB, owner: string, seeds: set<Id>, hops: nat)
    ensures IsHopMap(db, owner, seeds, hops, HopOf(db, owner, seeds, hops))
  {
    var (s, hop) := (Present(db, owner, seeds), HopOf(db, owner, seeds, hops));
    hide Ball, Neighbouring, ShortestTrail, At;
    forall t ensures t in hop <==> (t in seeds && OwnedBy(db, owner, t)) || Neighbouring(db, owner, s, hops, t) {
      if OwnedBy(db, owner, t) {
        WithinBall(db, owner, s, hops, t);
      } else {
        NeighboursAreOwned(db, owner, s, hops, t);
      }
    }
    forall t | t in hop ensures if t in seeds then hop[t] == 0 else ShortestTrail(db.edges, s, t, hop[t]) {
      DistanceIsShortest(db.edges, s, t, hop[t]);
    }
  }

  lemma NeighboursAreOwned(db: DB, owner: string, s: set<Id>, hops: nat, t: Id)
    ensures Neighbouring(db, owner, s, hops, t) ==> OwnedBy(db, owner, t)
  {
  }

  lemma ShortestIsDistance(g: set<Edge>, s: set<Id>, t: Id, n: nat)
    requires t !in s && ShortestTrail(g, s, t, n)
    ensures At(g, s, n, t)
  {
    TrailsAreDistances(g, s, n, t);
    var d := HasDistance(g, s, n, t);
    TrailsAreDistances(g, s, d, t);
  }

  /** Hops are exact: the walked nodes are the owner's nodes within the cap, each at its distance
      from the nearest stored seed. */
  lemma HopsAreExact(db: DB, owner: string, seeds: set<Id>, hops: nat, hop: map<Id, nat>)
    requires IsHopMap(db, owner, seeds, hops, hop)
    ensures var s := Present(db, owner, seeds);
            && (forall t :: t in hop <==> OwnedBy(db, owner, t) && t in Ball(db.edges, s, hops))
            && (forall t :: t in hop ==> At(db.edges, s, hop[t], t))
  {
    var (g, s) := (db.edges, Present(db, owner, seeds));
    forall t ensures t in hop <==> OwnedBy(db, owner, t) && t in Ball(g, s, hops) {
      if t in hop && t !in s {
        var n :| 1 <= n <= hops && Trails(g, s, n, t);
        TrailsAreDistances(g, s, n, t);
        BallGrows(g, s, n, hops);
      }
      if OwnedBy(db, owner, t) && t in Ball(g, s, hops) {
        var d := HasDistance(g, s, hops, t);
        TrailsAreDistances(g, s, d, t);
      }
      BallGrows(g, s, 0, hops);
    }
    forall t | t in hop ensures At(g, s, hop[t], t) {
      if t !in s {
        ShortestIsDistance(db.edges, s, t, hop[t]);
      }
    }
  }

  lemma AcrossAnEdge(g: set<Edge>, s: set<Id>, e: Edge, a: Id, b: Id, j: nat, k: nat)
    requires e in g && Joins(e, a, b) && At(g, s, j, a) && At(g, s, k, b)
    ensures k <= j + 1
  {
    hide Ball, Joins;
    BallStep(g, s, j, e, a, b);
    if k > j + 1 {
      BallGrows(g, s, j + 1, k - 1);
    }
  }

  /** Every walked edge joins nodes whose hops differ by at most one. */
  lemma HopsDifferByOne(db: DB, owner: string, seeds: set<Id>, hops: nat, hop: map<Id, nat>, e: Edge)
    requires IsHopMap(db, owner, seeds, hops, hop) && e in db.edges && e.from in hop && e.to in hop
    ensures hop[e.from] <= hop[e.to] + 1 && hop[e.to] <= hop[e.from] + 1
  {
    HopsAreExact(db, owner, seeds, hops, hop);
    var s := Present(db, owner, seeds);
    AcrossAnEdge(db.edges, s, e, e.from, e.to, hop[e.from], hop[e.to]);
    AcrossAnEdge(db.edges, s, e, e.to, e.from, hop[e.to], hop[e.from]);
  }

  /** Raising the cap keeps every node and its hops. */
  lemma RaisingTheCapKeepsHops(db: DB, owner: string, seeds: set<Id>, less: nat, more: nat, hop: map<Id, nat>,
                               wider: map<Id, nat>)
    requires less <= more && IsHopMap(db, owner, seeds, less, hop) && IsHopMap(db, owner, seeds, more, wider)
    ensures forall t :: t in hop ==> t in wider && wider[t] == hop[t]
  {
    HopsAreExact(db, owner, seeds, less, hop);
    HopsAreExact(db, owner, seeds, more, wider);
    var (g, s) := (db.edges, Present(db, owner, seeds));
    BallGrows(g, s, less, more);
    forall t | t in hop ensures t in wider && wider[t] == hop[t] {
      DistanceUnique(g, s, hop[t], wider[t], t);
    }
  }

  // ---- hops as the reads use them ----

  /** An object the walk knows no hops of counts as a seed. */
  function HopsOf(hopOf: map<Id, nat>, id: Id): nat {
    if id in hopOf then hopOf[id] else 0
  }

  /** Nearest first, then by id. */
  function HopRank(hopOf: map<Id, nat>): Id -> Rank {
    id => Rank(HopsOf(hopOf, id), 0)
  }
}
