/** The context chain: everything an object rests on and everything that rests on it. */
module ContextChains {
  import opened Basics
  import opened Permissions
  import opened Schema
  import opened Store
  import opened Walks
  import opened GraphReads
  import opened PermissionPass
  import opened Text
  import opened EdgeLists

  /** What the blind walk over CITES hands on. */
  datatype CitesWalk = CitesWalk(found: seq<Found>, edges: seq<Edge>, hopOf: map<Id, nat>)

  /** A denied object keeps its place, under its id and the reason. */
  datatype View =
    | Withheld(id: Id, hops: nat, reason: DenyReason)
    | EventSeen(id: Id, hops: nat, sources: seq<string>, summary: string, source: SourceRef)
    | ClaimSeen(id: Id, hops: nat, sources: seq<string>, statement: string, status: Status)
    | EntitySeen(id: Id, hops: nat, sources: seq<string>, name: string)

  datatype ContextChain = ContextChain(
    objectId: Id, answered: bool, text: seq<Piece>, hops: nat, nodes: seq<View>, edges: seq<Edge>,
    sources: seq<string>, denied: seq<(Id, DenyReason)>, considered: nat)

  function ViewOf(id: Id, node: Node, hops: nat, denied: Option<DenyReason>): View {
    match denied
    case Some(reason) => Withheld(id, hops, reason)
    case None =>
      match node
      case EventNode(e) => EventSeen(id, hops, e.acl.sources, e.summary, e.source)
      case ClaimNode(c) => ClaimSeen(id, hops, c.acl.sources, c.statement, c.status)
      case EntityNode(e) => EntitySeen(id, hops, e.acl.sources, e.name)
  }

  function Views(nodes: map<Id, Node>, hopOf: map<Id, nat>, verdicts: map<Id, Option<DenyReason>>): seq<View> {
    var ordered := Arrange(HopRank(hopOf), nodes.Keys);
    assert forall i :: 0 <= i < |ordered| ==> ordered[i] in Elements(ordered);
    seq(|ordered|, i requires 0 <= i < |ordered| && ordered[i] in nodes =>
      ViewOf(ordered[i], nodes[ordered[i]], HopsOf(hopOf, ordered[i]), Reason(verdicts, ordered[i])))
  }

  /** `v.get("sources", [])` */
  function SourcesOf(v: View): seq<string> {
    if v.Withheld? then [] else v.sources
  }

  function AllSources(views: seq<View>): seq<string> {
    SortedStrings(SourceSet(views))
  }

  function SourceSet(views: seq<View>): set<string> {
    set v, s | v in views && s in SourcesOf(v) :: s
  }

  // ---- text ----

  function Label(v: View): string
    requires !v.Withheld?
  {
    match v
    case EventSeen(_, _, _, summary, _) => summary
    case ClaimSeen(_, _, _, statement, _) => statement
    case EntitySeen(_, _, _, name) => name
  }

  /** The event's own connector, else the connectors of the object. */
  function Origin(v: View): string
    requires !v.Withheld?
  {
    if v.EventSeen? && v.source.connector != "" then v.source.connector else Join(v.sources, ",")
  }

  function Line(v: View): seq<Piece> {
    if v.Withheld? then
      [Lit("- ["), Num(v.hops), Lit(" hop] withheld (" + ReasonName(v.reason) + ") " + v.id)]
    else
      [Lit("- ["), Num(v.hops), Lit(" hop] " + Origin(v) + ": " + Label(v) + " (" + v.id + ")")]
  }

  function Reach(views: seq<View>): nat {
    if views == [] then 0 else Reach(views[..|views| - 1]) + if views[|views| - 1].hops > 0 then 1 else 0
  }

  function Head(seed: Id, reach: nat, sources: seq<string>): seq<Piece> {
    [Lit(seed + ": "), Num(reach), Lit(" object(s) in the citation chain across "), Num(|sources|),
     Lit(" source(s) (" + (if sources == [] then "none visible" else Join(sources, ", ")) + ").")]
  }

  function TextOf(seed: Id, views: seq<View>, sources: seq<string>): seq<Piece> {
    if Reach(views) == 0 then [Lit(seed + " cites nothing and nothing cites it.")]
    else Lined([Head(seed, Reach(views), sources)] + seq(|views|, i requires 0 <= i < |views| => Line(views[i])))
  }

  method CountReach(views: seq<View>) returns (reach: nat)
    ensures reach == Reach(views)
  {
    reach := 0;
    for i := 0 to |views|
      invariant reach == Reach(views[..i])
    {
      assert views[..i + 1][..i] == views[..i];
      reach := reach + if views[i].hops > 0 then 1 else 0;
    }
    assert views[..|views|] == views;
  }

  method BuildText(seed: Id, views: seq<View>, sources: seq<string>) returns (text: seq<Piece>)
    ensures text == TextOf(seed, views, sources)
  {
    hide Head, Line, Lined, Reach;
    var reach := CountReach(views);
    if reach == 0 {
      return [Lit(seed + " cites nothing and nothing cites it.")];
    }
    var lines := [Head(seed, reach, sources)];
    for i := 0 to |views|
      invariant lines == [Head(seed, reach, sources)] + seq(i, j requires 0 <= j < i => Line(views[j]))
    {
      lines := lines + [Line(views[i])];
    }
    text := Lined(lines);
  }

  // ---- assembly ----

  function Assemble(seed: Id, hops: nat, walk: CitesWalk, verdicts: map<Id, Option<DenyReason>>,
                    denials: seq<(Id, DenyReason)>): ContextChain {
    var nodes := ById(walk.found);
    if nodes == map[] then
      ContextChain(seed, false, [Lit("No object "), Quoted(seed), Lit(" is present in this memory.")], hops, [], [], [],
                   [], 0)
    else if forall id | id in nodes :: Reason(verdicts, id).Some? then
      ContextChain(seed, false, Declining(|nodes|, " object(s) form this context chain", Reasons(denials)),
                   hops, [], [], [], denials, |nodes|)
    else
      var views := Views(nodes, walk.hopOf, verdicts);
      var sources := AllSources(views);
      ContextChain(seed, true, TextOf(seed, views, sources), hops, views, walk.edges, sources, denials, |nodes|)
  }

  /** Walk, pass, assembly. */
  function Read(seed: Id, hops: nat, walk: CitesWalk, scope: Scope, now: int): ContextChain {
    Assemble(seed, hops, walk, Verdicts(scope, walk.found, now), Denials(scope, walk.found, now))
  }

  // ---- withheld, not dropped ----

  lemma ViewAt(nodes: map<Id, Node>, hopOf: map<Id, nat>, verdicts: map<Id, Option<DenyReason>>, i: nat)
    requires i < |Views(nodes, hopOf, verdicts)|
    ensures var ordered := Arrange(HopRank(hopOf), nodes.Keys);
            |Views(nodes, hopOf, verdicts)| == |ordered| && ordered[i] in nodes
            && Views(nodes, hopOf, verdicts)[i]
               == ViewOf(ordered[i], nodes[ordered[i]], HopsOf(hopOf, ordered[i]), Reason(verdicts, ordered[i]))
  {
    hide ViewOf, HopsOf, Reason;
    var ordered := Arrange(HopRank(hopOf), nodes.Keys);
    assert ordered[i] in Elements(ordered);
  }

  function DeniedOf(v: View): Option<DenyReason> {
    if v.Withheld? then Some(v.reason) else None
  }

  lemma ViewOfKeeps(id: Id, node: Node, hops: nat, denied: Option<DenyReason>)
    ensures var v := ViewOf(id, node, hops, denied); v.id == id && v.hops == hops && DeniedOf(v) == denied
  {
  }

  /** In order of hops, ids breaking ties. */
  ghost predicate NearestFirst(views: seq<View>) {
    forall i, j :: 0 <= i < j < |views| ==>
      views[i].hops < views[j].hops || (views[i].hops == views[j].hops && StrLess(views[i].id, views[j].id))
  }

  lemma ViewsNearestFirst(nodes: map<Id, Node>, hopOf: map<Id, nat>, verdicts: map<Id, Option<DenyReason>>)
    ensures NearestFirst(Views(nodes, hopOf, verdicts))
  {
    ViewsLength(nodes, hopOf, verdicts);
    hide ViewOf, HopsOf, Views, Reason, Arrange;
    var (views, ordered) := (Views(nodes, hopOf, verdicts), Arrange(HopRank(hopOf), nodes.Keys));
    forall i, j | 0 <= i < j < |views|
      ensures views[i].hops < views[j].hops || (views[i].hops == views[j].hops && StrLess(views[i].id, views[j].id))
    {
      ViewAt(nodes, hopOf, verdicts, i);
      ViewAt(nodes, hopOf, verdicts, j);
      ViewOfKeeps(ordered[i], nodes[ordered[i]], HopsOf(hopOf, ordered[i]), Reason(verdicts, ordered[i]));
      ViewOfKeeps(ordered[j], nodes[ordered[j]], HopsOf(hopOf, ordered[j]), Reason(verdicts, ordered[j]));
      assert Before(HopRank(hopOf), ordered[i], ordered[j]);
    }
  }

  lemma ViewsMean(nodes: map<Id, Node>, hopOf: map<Id, nat>, verdicts: map<Id, Option<DenyReason>>)
    ensures var views := Views(nodes, hopOf, verdicts);
            && |views| == |nodes|
            && (forall id :: id in nodes ==> exists v :: v in views && v.id == id)
            && (forall v :: v in views ==>
                v.id in nodes && v.hops == HopsOf(hopOf, v.id) && DeniedOf(v) == Reason(verdicts, v.id))
  {
    hide ViewOf, HopsOf, Views, Reason, DeniedOf, Arrange, Ascending;
    var (views, ordered) := (Views(nodes, hopOf, verdicts), Arrange(HopRank(hopOf), nodes.Keys));
    DistinctSize(ordered);
    ViewsLength(nodes, hopOf, verdicts);
    assert |nodes| == |nodes.Keys|;
    forall v | v in views
      ensures v.id in nodes && v.hops == HopsOf(hopOf, v.id) && DeniedOf(v) == Reason(verdicts, v.id) {
      var i :| 0 <= i < |views| && views[i] == v;
      ViewAt(nodes, hopOf, verdicts, i);
      ViewOfKeeps(ordered[i], nodes[ordered[i]], HopsOf(hopOf, ordered[i]), Reason(verdicts, ordered[i]));
    }
    forall id | id in nodes ensures exists v :: v in views && v.id == id {
      assert id in Elements(ordered);
      var i :| 0 <= i < |ordered| && ordered[i] == id;
      ViewAt(nodes, hopOf, verdicts, i);
      ViewOfKeeps(ordered[i], nodes[ordered[i]], HopsOf(hopOf, ordered[i]), Reason(verdicts, ordered[i]));
      assert views[i] in views;
    }
  }

  lemma Answered(seed: Id, hops: nat, walk: CitesWalk, verdicts: map<Id, Option<DenyReason>>,
                 denials: seq<(Id, DenyReason)>)
    requires Assemble(seed, hops, walk, verdicts, denials).answered
    ensures var (r, nodes) := (Assemble(seed, hops, walk, verdicts, denials), ById(walk.found));
            r.nodes == Views(nodes, walk.hopOf, verdicts) && r.considered == |nodes| && r.denied == denials
                && r.edges == walk.edges
  {
    hide Views, AllSources, TextOf, Reasons, Declining, ById, Reason;
  }

  /** An answered chain has one view for every walked object, nearest first; it is a withheld one
      exactly for the denied objects, each with its own reason; and the walked edges all stay. */
  lemma NothingIsDropped(seed: Id, hops: nat, walk: CitesWalk, scope: Scope, now: int)
    requires DistinctIds(walk.found) && Read(seed, hops, walk, scope, now).answered
    ensures var r := Read(seed, hops, walk, scope, now);
            && |r.nodes| == r.considered == |walk.found| && NearestFirst(r.nodes) && r.edges == walk.edges
            && (forall f :: f in walk.found ==> exists v :: v in r.nodes && v.id == f.id)
            && (forall v :: v in r.nodes ==> v.id in ById(walk.found) && v.hops == HopsOf(walk.hopOf, v.id)
                                             && DeniedOf(v) == Verdict(scope, ById(walk.found)[v.id], now))
            && (forall v :: v in r.nodes ==> forall reason :: DeniedOf(v) == Some(reason) <==>
                (v.id, reason) in r.denied)
  {
    hide Verdict, HopsOf, Views, Assemble, DeniedOf, NearestFirst, ById, Verdicts, Denials;
    var (nodes, verdicts, denials) :=
        (ById(walk.found), Verdicts(scope, walk.found, now), Denials(scope, walk.found, now));
    Answered(seed, hops, walk, verdicts, denials);
    ViewsMean(nodes, walk.hopOf, verdicts);
    ViewsNearestFirst(nodes, walk.hopOf, verdicts);
    VisiblePlusDenied(scope, walk.found, now);
    PassKeys(scope, walk.found, now);
    DenialsMean(scope, walk.found, now);
    forall id | id in nodes ensures verdicts[id] == Verdict(scope, nodes[id], now) {
      PassMeans(scope, walk.found, now, id);
    }
    forall f | f in walk.found ensures f.id in nodes {
      var i :| 0 <= i < |walk.found| && walk.found[i] == f;
      PassAt(scope, walk.found, now, i);
    }
  }

  /** The sources named are those of the objects seen, each once and in order. */
  lemma SourcesSeen(views: seq<View>)
    ensures Sorted(AllSources(views)) && forall s :: s in AllSources(views) <==>
              exists v :: v in views && s in SourcesOf(v)
  {
    hide SourcesOf, SortedStrings, Sorted;
    SortedStringsMean(SourceSet(views));
  }

  lemma ViewsLength(nodes: map<Id, Node>, hopOf: map<Id, nat>, verdicts: map<Id, Option<DenyReason>>)
    ensures |Views(nodes, hopOf, verdicts)| == |Arrange(HopRank(hopOf), nodes.Keys)|
  {
  }

  // ---- noninterference ----

  lemma SameViews(a: map<Id, Node>, b: map<Id, Node>, hopOf: map<Id, nat>, verdicts: map<Id, Option<DenyReason>>)
    requires a.Keys == b.Keys && forall id :: id in a && Reason(verdicts, id) == None ==> a[id] == b[id]
    ensures Views(a, hopOf, verdicts) == Views(b, hopOf, verdicts)
  {
    ViewsLength(a, hopOf, verdicts);
    ViewsLength(b, hopOf, verdicts);
    hide Views, ViewOf, HopsOf, Reason;
    var (x, y) := (Views(a, hopOf, verdicts), Views(b, hopOf, verdicts));
    forall i | 0 <= i < |x| ensures x[i] == y[i] {
      ViewAt(a, hopOf, verdicts, i);
      ViewAt(b, hopOf, verdicts, i);
      var id := Arrange(HopRank(hopOf), a.Keys)[i];
      DeniedPayloadIsUnseen(id, a[id], b[id], HopsOf(hopOf, id), Reason(verdicts, id));
    }
  }

  lemma DeniedPayloadIsUnseen(id: Id, a: Node, b: Node, hops: nat, denied: Option<DenyReason>)
    requires denied.Some? || a == b
    ensures ViewOf(id, a, hops, denied) == ViewOf(id, b, hops, denied)
  {
  }

  /** With the verdicts fixed, the payloads of denied objects never show in a context chain. */
  lemma Noninterference(seed: Id, hops: nat, a: CitesWalk, b: CitesWalk, scope: Scope, now: int)
    requires DistinctIds(a.found) && SamePermitted(a.found, b.found, scope, now)
    requires a.edges == b.edges && a.hopOf == b.hopOf
    ensures Read(seed, hops, a, scope, now) == Read(seed, hops, b, scope, now)
  {
    var (x, y, verdicts) := (ById(a.found), ById(b.found), Verdicts(scope, a.found, now));
    SamePass(a.found, b.found, scope, now);
    forall id | id in x && Reason(verdicts, id) == None ensures x[id] == y[id] {
      SamePayload(a.found, b.found, scope, now, id);
    }
    hide Views, AllSources, TextOf, Reasons, Declining, ById, Verdicts, Denials, Reason, SamePermitted, DistinctIds;
    SameViews(x, y, a.hopOf, verdicts);
    assert |x| == |x.Keys| && |y| == |y.Keys|;
  }

  // ---- what the walk over CITES finds ----

  /** CITES edges among one owner's nodes: every node of a path is owner-constrained. */
  ghost function CitesOf(db: DB, owner: string): set<Edge> {
    set e | e in db.edges && e.rel == Cites && OwnedBy(db, owner, e.from) && OwnedBy(db, owner, e.to)
  }

  /** `UNWIND relationships(path)` over the paths of 1 to `hops` relationships from the seed. */
  ghost predicate OnTrail(g: set<Edge>, seed: Id, hops: nat, e: Edge) {
    exists nodes, es :: IsTrail(g, nodes, es) && 1 <= |es| <= hops && nodes[0] == seed && e in es
  }

  ghost predicate IsCitesWalk(db: DB, owner: string, seed: Id, hops: nat, walk: CitesWalk) {
    var g := CitesOf(db, owner);
    && (forall t :: t in walk.hopOf <==> t == seed || exists n :: 1 <= n <= hops && Trails(g, {seed}, n, t))
    && (forall t :: t in walk.hopOf ==>
        if t == seed then walk.hopOf[t] == 0 else ShortestTrail(g, {seed}, t, walk.hopOf[t]))
    && DistinctIds(walk.found)
    && (forall f :: f in walk.found <==>
        f.id in walk.hopOf && OwnedBy(db, owner, f.id) && f.node == db.nodes[f.id].payload)
    && EdgesOrdered(walk.edges)
    && (forall e :: e in walk.edges <==> OnTrail(g, seed, hops, e))
  }

  /** The store can make the walk, from any id to any depth. */
  lemma CitesWalkExists(db: DB, owner: string, seed: Id, hops: nat) returns (walk: CitesWalk)
    ensures IsCitesWalk(db, owner, seed, hops, walk)
  {
    var g := CitesOf(db, owner);
    var hopOf := map t | t in Ball(g, {seed}, hops) :: Distance(g, {seed}, hops, t);
    forall t ensures t in hopOf <==> t == seed || exists n :: 1 <= n <= hops && Trails(g, {seed}, n, t) {
      WithinHops(g, seed, hops, t);
    }
    forall t | t in hopOf ensures if t == seed then hopOf[t] == 0 else ShortestTrail(g, {seed}, t, hopOf[t]) {
      DistanceIsShortest(g, {seed}, t, hopOf[t]);
    }
    hide CitesOf, OnTrail, Ball, Trails, ShortestTrail, DistinctIds, EdgesOrdered;
    var found := FoundIn(db, set id | id in db.nodes && id in hopOf && OwnedBy(db, owner, id));
    var edges := SortedEdges(set e | e in g && OnTrail(g, seed, hops, e));
    forall e ensures e in edges <==> OnTrail(g, seed, hops, e) {
      assert e in edges <==> e in Elements(edges);
      OnTrailIsIn(g, seed, hops, e);
    }
    walk := CitesWalk(found, edges, hopOf);
  }

  lemma OnTrailIsIn(g: set<Edge>, seed: Id, hops: nat, e: Edge)
    ensures OnTrail(g, seed, hops, e) ==> e in g
  {
    hide Joins;
    if OnTrail(g, seed, hops, e) {
      var nodes, es :| IsTrail(g, nodes, es) && 1 <= |es| <= hops && nodes[0] == seed && e in es;
      var i :| 0 <= i < |es| && es[i] == e;
    }
  }

  /** A trail to the nearer end of an edge does not use the edge itself. */
  lemma ReachedByTrail(g: set<Edge>, seed: Id, e: Edge, near: Id, far: Id, d: nat)
    requires e in g && Joins(e, near, far) && At(g, {seed}, d, near)
    requires d > 0 ==> far !in Ball(g, {seed}, d - 1)
    ensures OnTrail(g, seed, d + 1, e)
  {
    hide Ball;
    var nodes, es := TrailTo(g, {seed}, d, near);
    forall i | 0 <= i < |es| ensures es[i] != e {
      assert Joins(es[i], nodes[i], nodes[i + 1]) && At(g, {seed}, i, nodes[i]);
      if near == nodes[i] {
        DistanceUnique(g, {seed}, i, d, near);
      }
      BallGrows(g, {seed}, i, d - 1);
    }
    TrailSnoc(g, nodes, es, far, e);
    assert e in es + [e] && (nodes + [far])[0] == seed;
  }

  lemma TrailEdgeIsNear(g: set<Edge>, seed: Id, hops: nat, e: Edge)
    requires OnTrail(g, seed, hops, e)
    ensures hops > 0 && e in g && (e.from in Ball(g, {seed}, hops - 1) || e.to in Ball(g, {seed}, hops - 1))
  {
    hide Ball;
    var nodes, es :| IsTrail(g, nodes, es) && 1 <= |es| <= hops && nodes[0] == seed && e in es;
    var i :| 0 <= i < |es| && es[i] == e;
    assert Joins(es[i], nodes[i], nodes[i + 1]);
    TrailInBall(g, {seed}, nodes, es, i);
    BallGrows(g, {seed}, i, hops - 1);
  }

  /** The walked edges are exactly the owner's CITES edges with an end within one hop less than the
      cap, so both ends of each are among the walked ids. */
  lemma CitesEdgesExact(g: set<Edge>, seed: Id, hops: nat, e: Edge)
    ensures OnTrail(g, seed, hops, e)
       <==> hops > 0 && e in g && (e.from in Ball(g, {seed}, hops - 1) || e.to in Ball(g, {seed}, hops - 1))
    ensures OnTrail(g, seed, hops, e) ==> e.from in Ball(g, {seed}, hops) && e.to in Ball(g, {seed}, hops)
  {
    hide OnTrail, Ball, At;
    if OnTrail(g, seed, hops, e) {
      TrailEdgeIsNear(g, seed, hops, e);
    }
    if hops > 0 && e in g && (e.from in Ball(g, {seed}, hops - 1) || e.to in Ball(g, {seed}, hops - 1)) {
      var near, far, d := NearerEnd(g, seed, hops - 1, e);
      ReachedByTrail(g, seed, e, near, far, d);
      LongerCap(g, seed, d + 1, hops, e);
      BallGrows(g, {seed}, hops - 1, hops);
      BallStep(g, {seed}, hops - 1, e, if e.from in Ball(g, {seed}, hops - 1) then e.from else e.to,
               if e.from in Ball(g, {seed}, hops - 1) then e.to else e.from);
    }
  }

  lemma LongerCap(g: set<Edge>, seed: Id, less: nat, more: nat, e: Edge)
    requires OnTrail(g, seed, less, e) && less <= more
    ensures OnTrail(g, seed, more, e)
  {
  }

  lemma NearerEnd(g: set<Edge>, seed: Id, k: nat, e: Edge) returns (near: Id, far: Id, d: nat)
    requires e.from in Ball(g, {seed}, k) || e.to in Ball(g, {seed}, k)
    ensures Joins(e, near, far) && d <= k && At(g, {seed}, d, near)
    ensures d > 0 ==> far !in Ball(g, {seed}, d - 1)
  {
    hide Ball;
    near := if e.from in Ball(g, {seed}, k) then e.from else e.to;
    far := if e.from in Ball(g, {seed}, k) then e.to else e.from;
    d := HasDistance(g, {seed}, k, near);
    if d > 0 && far in Ball(g, {seed}, d - 1) {
      near, far := far, near;
      var was := d;
      d := HasDistance(g, {seed}, was - 1, near);
      if d > 0 {
        BallGrows(g, {seed}, d - 1, was - 1);
      }
    }
  }

  /** The hops of a chain are its exact distances over the owner's CITES edges, both ends of every walked
      edge are walked, and they are at most one hop apart. */
  lemma CitesHopsExact(db: DB, owner: string, seed: Id, hops: nat, walk: CitesWalk)
    requires IsCitesWalk(db, owner, seed, hops, walk)
    ensures var g := CitesOf(db, owner);
            && (forall t :: t in walk.hopOf <==> t in Ball(g, {seed}, hops))
            && (forall t :: t in walk.hopOf ==> At(g, {seed}, walk.hopOf[t], t))
            && (forall e :: e in walk.edges ==>
                  && e.from in walk.hopOf && e.to in walk.hopOf
                  && walk.hopOf[e.from] <= walk.hopOf[e.to] + 1 && walk.hopOf[e.to] <= walk.hopOf[e.from] + 1)
  {
    var g := CitesOf(db, owner);
    hide CitesOf, OnTrail, DistinctIds, EdgesOrdered, Ball, At, ShortestTrail, OwnedBy;
    forall t ensures t in walk.hopOf <==> t in Ball(g, {seed}, hops) {
      WithinHops(g, seed, hops, t);
    }
    forall t | t in walk.hopOf ensures At(g, {seed}, walk.hopOf[t], t) {
      if t == seed {
        AtSelf(g, seed);
      } else {
        ShortestIsDistance(g, {seed}, t, walk.hopOf[t]);
      }
    }
    forall e | e in walk.edges
      ensures e.from in walk.hopOf && e.to in walk.hopOf
      ensures walk.hopOf[e.from] <= walk.hopOf[e.to] + 1 && walk.hopOf[e.to] <= walk.hopOf[e.from] + 1
    {
      CitesEdgesExact(g, seed, hops, e);
      AcrossAnEdge(g, {seed}, e, e.from, e.to, walk.hopOf[e.from], walk.hopOf[e.to]);
      AcrossAnEdge(g, {seed}, e, e.to, e.from, walk.hopOf[e.to], walk.hopOf[e.from]);
    }
  }

  lemma AtSelf(g: set<Edge>, seed: Id)
    ensures At(g, {seed}, 0, seed)
  {
  }

  lemma WithinHops(g: set<Edge>, seed: Id, hops: nat, t: Id)
    ensures t in Ball(g, {seed}, hops) <==> t == seed || exists n :: 1 <= n <= hops && Trails(g, {seed}, n, t)
  {
    hide Ball, Trails;
    InOwnBall(g, seed, hops);
    if n :| 1 <= n <= hops && Trails(g, {seed}, n, t) {
      TrailsAreDistances(g, {seed}, n, t);
      BallGrows(g, {seed}, n, hops);
    }
    if t in Ball(g, {seed}, hops) && t != seed {
      var d := HasDistance(g, {seed}, hops, t);
      TrailsAreDistances(g, {seed}, d, t);
      OnlySelfAtZero(g, seed, d, t);
    }
  }

  lemma OnlySelfAtZero(g: set<Edge>, seed: Id, d: nat, t: Id)
    requires At(g, {seed}, d, t) && t != seed
    ensures d > 0
  {
  }
}
