/** The neighbourhood read: denied objects are dropped, and only counted. */
module Neighbourhood {
  import opened Basics
  import opened Permissions
  import opened Schema
  import opened Store
  import opened Walks
  import opened GraphReads
  import opened EdgeLists
  import opened PermissionPass
  import opened Text

  /** What the blind walk hands on: the objects, the edges among them in store order, and their hops. */
  datatype Walk = Walk(found: seq<Found>, edges: seq<Edge>, hopOf: map<Id, nat>)

  datatype NodeView = NodeView(
    id: Id, labelName: string, hops: nat, sources: seq<string>, occurredAt: int,
    status: Option<Status>, isCommitment: bool, text: string, url: Option<Option<string>>)

  datatype Answer = Answer(
    seeds: seq<Id>, answered: bool, text: seq<Piece>, hops: nat, nodes: seq<NodeView>, edges: seq<Edge>,
    sources: seq<string>, withheld: nat, withheldReasons: seq<string>, withheldEdges: int, considered: nat)

  function ViewOf(node: Node, hops: nat): NodeView {
    var acl := node.Acl();
    match node
    case EventNode(e) => NodeView(e.id, "Event", hops, acl.sources, acl.occurredAt, None, false, e.summary,
                                  Some(e.source.url))
    case ClaimNode(c) => NodeView(c.id, "Claim", hops, acl.sources, acl.occurredAt, Some(c.status), c.commitment.Some?,
                                  c.statement, None)
    case EntityNode(e) =>
        NodeView(e.id, "Entity", hops, acl.sources, acl.occurredAt, None, false, KindName(e.kind) + ": " + e.name, None)
  }

  /** The views in order of hops, then id. */
  function Views(visible: map<Id, Node>, hopOf: map<Id, nat>): seq<NodeView> {
    var ordered := Arrange(HopRank(hopOf), visible.Keys);
    assert forall i :: 0 <= i < |ordered| ==> ordered[i] in Elements(ordered);
    seq(|ordered|, i requires 0 <= i < |ordered| && ordered[i] in visible =>
        ViewOf(visible[ordered[i]], HopsOf(hopOf, ordered[i])))
  }

  /** The edges with both ends visible, in order. */
  function Shown(edges: seq<Edge>, visible: set<Id>): seq<Edge> {
    if edges == [] then []
    else
      var (before, e) := (Shown(edges[..|edges| - 1], visible), edges[|edges| - 1]);
      if e.from in visible && e.to in visible then before + [e] else before
  }

  function AnswerText(seeds: seq<Id>, nodes: nat, edges: nat, withheld: nat, sources: seq<string>): seq<Piece> {
    [Num(nodes), Lit(" node(s) and "), Num(edges), Lit(" edge(s) around " + Join(seeds, ", ") + " across "),
     Num(|sources|),
     Lit(" source(s) (" + (if sources == [] then "none visible" else Join(sources, ", ")) + ").")]
    + if withheld == 0 then []
      else [Lit(" "), Num(withheld),
            Lit(" further object(s) in this neighbourhood are outside the grant and are not shown -- "
                + "neither they nor their edges are counted above, so this picture is partial.")]
  }

  function SourcesOf(nodes: seq<NodeView>): set<string> {
    set v, s | v in nodes && s in v.sources :: s
  }

  function NothingPresent(seeds: seq<Id>): seq<Piece> {
    [Lit("No object among "), Quoted(Join(seeds, ", ")), Lit(" is present in this memory.")]
  }

  /** The assembled answer; `seeds` is already free of repeats. */
  function Assemble(seeds: seq<Id>, hops: nat, walk: Walk, verdicts: map<Id, Option<DenyReason>>,
                    denials: seq<(Id, DenyReason)>): Answer {
    var walked := ById(walk.found);
    var reasons := Reasons(denials);
    if walked == map[] then
      Answer(seeds, false, NothingPresent(seeds), hops, [], [], [], 0, [], 0, 0)
    else
      var visible := Visible(walked, verdicts);
      var edges := Shown(walk.edges, visible.Keys);
      var withheldEdges := |walk.edges| - |edges|;
      if visible == map[] then
        Answer(seeds, false,
               Declining(|walked|, " object(s) are in this neighbourhood", reasons),
               hops, [], [], [], |walked|, reasons, withheldEdges, |walked|)
      else
        var nodes := Views(visible, walk.hopOf);
        var sources := SortedStrings(SourcesOf(nodes));
        Answer(seeds, true, AnswerText(seeds, |nodes|, |edges|, |denials|, sources),
               hops, nodes, edges, sources, |denials|, reasons, withheldEdges, |walked|)
  }

  /** Walk, pass, assembly. */
  function Read(seeds: seq<Id>, hops: nat, walk: Walk, scope: Scope, now: int): Answer {
    Assemble(seeds, hops, walk, Verdicts(scope, walk.found, now), Denials(scope, walk.found, now))
  }

  function Permitted(walk: Walk, scope: Scope, now: int): map<Id, Node> {
    Visible(ById(walk.found), Verdicts(scope, walk.found, now))
  }

  // ---- the edges shown ----

  lemma {:induction false} ShownMeans(edges: seq<Edge>, visible: set<Id>)
    ensures forall e :: e in Shown(edges, visible) <==> e in edges && e.from in visible && e.to in visible
    ensures |Shown(edges, visible)| <= |edges|
  {
    if edges != [] {
      var (init, e) := (edges[..|edges| - 1], edges[|edges| - 1]);
      ShownMeans(init, visible);
      assert edges == init + [e];
    }
  }

  lemma {:induction false} ShownOrdered(edges: seq<Edge>, visible: set<Id>)
    requires EdgesOrdered(edges)
    ensures EdgesOrdered(Shown(edges, visible))
  {
    if edges != [] {
      hide EdgeBefore;
      var (init, e) := (edges[..|edges| - 1], edges[|edges| - 1]);
      ShownOrdered(init, visible);
      ShownMeans(init, visible);
      var before := Shown(init, visible);
      forall i | 0 <= i < |before| ensures EdgeBefore(before[i], e) {
        assert before[i] in before;
        LastIsLast(edges, before[i]);
      }
      OrderedSnoc(before, e);
    }
  }

  // ---- what the walk hands on ----

  /** What the blind walk finds in a store: the owner's nodes within the cap, with their hops, and
      every edge among them. */
  ghost predicate IsWalk(db: DB, owner: string, seeds: seq<Id>, hops: nat, walk: Walk) {
    && IsHopMap(db, owner, Elements(seeds), hops, walk.hopOf)
    && DistinctIds(walk.found)
    && (forall f :: f in walk.found <==> f.id in walk.hopOf && f.id in db.nodes && f.node == db.nodes[f.id].payload)
    && EdgesOrdered(walk.edges)
    && (forall e :: e in walk.edges <==> e in db.edges && e.from in walk.hopOf && e.to in walk.hopOf)
  }

  /** Edges with a denied end. */
  ghost function Cut(edges: seq<Edge>, visible: set<Id>): set<Edge> {
    set e | e in edges && !(e.from in visible && e.to in visible)
  }

  lemma {:induction false} ShownPlusCut(edges: seq<Edge>, visible: set<Id>)
    requires EdgesOrdered(edges)
    ensures |Shown(edges, visible)| + |Cut(edges, visible)| == |edges|
  {
    if edges != [] {
      var (init, e) := (edges[..|edges| - 1], edges[|edges| - 1]);
      assert edges == init + [e];
      assert e !in init by {
        forall i | 0 <= i < |init| ensures init[i] != e {
          EdgeAsymmetric(edges[i], edges[|edges| - 1]);
        }
      }
      hide EdgeBefore;
      ShownPlusCut(init, visible);
      if e.from in visible && e.to in visible {
        assert Cut(edges, visible) == Cut(init, visible);
      } else {
        assert Cut(edges, visible) == Cut(init, visible) + {e};
      }
    }
  }

  /** In order of hops, ids breaking ties. */
  ghost predicate NearestFirst(views: seq<NodeView>) {
    forall i, j :: 0 <= i < j < |views| ==>
      views[i].hops < views[j].hops || (views[i].hops == views[j].hops && StrLess(views[i].id, views[j].id))
  }

  lemma ViewAt(visible: map<Id, Node>, hopOf: map<Id, nat>, i: nat)
    requires i < |Views(visible, hopOf)|
    ensures var ordered := Arrange(HopRank(hopOf), visible.Keys);
            |Views(visible, hopOf)| == |ordered| && ordered[i] in visible
            && Views(visible, hopOf)[i] == ViewOf(visible[ordered[i]], HopsOf(hopOf, ordered[i]))
  {
    hide ViewOf, HopsOf;
    var ordered := Arrange(HopRank(hopOf), visible.Keys);
    assert ordered[i] in Elements(ordered);
  }

  lemma ViewOfKeeps(node: Node, hops: nat)
    ensures ViewOf(node, hops).id == node.Id() && ViewOf(node, hops).hops == hops
  {
  }

  /** A view shows a stored object field by field: an event by its summary and link, a claim by its statement, its
      status and whether it is a commitment, an entity by kind and name, and each under its label with the sources
      and the time of its access list. */
  predicate Shows(v: NodeView, node: Node, hops: nat) {
    && v.hops == hops
    && match node
       case EventNode(e) =>
         && v.id == e.id && v.labelName == "Event" && v.sources == e.acl.sources && v.occurredAt == e.acl.occurredAt
         && v.text == e.summary && v.url == Some(e.source.url) && v.status == None && !v.isCommitment
       case ClaimNode(c) =>
         && v.id == c.id && v.labelName == "Claim" && v.sources == c.acl.sources && v.occurredAt == c.acl.occurredAt
         && v.text == c.statement && v.status == Some(c.status) && (v.isCommitment <==> c.commitment.Some?)
         && v.url == None
       case EntityNode(e) =>
         && v.id == e.id && v.labelName == "Entity" && v.sources == e.acl.sources && v.occurredAt == e.acl.occurredAt
         && v.status == None && !v.isCommitment && v.url == None
         && (e.kind == Person ==> v.text == "person: " + e.name)
         && (e.kind == Project ==> v.text == "project: " + e.name)
         && (e.kind == Artifact ==> v.text == "artifact: " + e.name)
         && (e.kind == Organization ==> v.text == "organization: " + e.name)
         && (e.kind == Topic ==> v.text == "topic: " + e.name)
  }

  lemma ViewOfShows(v: NodeView, node: Node, hops: nat)
    ensures v == ViewOf(node, hops) <==> Shows(v, node, hops)
  {
    match node
    case EntityNode(e) =>
      assert "person" + ": " == "person: " && "project" + ": " == "project: " && "artifact" + ": " == "artifact: ";
      assert "organization" + ": " == "organization: " && "topic" + ": " == "topic: ";
    case EventNode(_) =>
    case ClaimNode(_) =>
  }

  lemma ViewsMean(visible: map<Id, Node>, hopOf: map<Id, nat>)
    requires forall id :: id in visible ==> visible[id].Id() == id
    ensures var views := Views(visible, hopOf);
            && |views| == |visible|
            && (forall v :: v in views <==> v.id in visible && v == ViewOf(visible[v.id], HopsOf(hopOf, v.id)))
            && NearestFirst(views)
  {
    var (views, ordered) := (Views(visible, hopOf), Arrange(HopRank(hopOf), visible.Keys));
    DistinctSize(ordered);
    assert |visible| == |visible.Keys|;
    assert |views| == |ordered|;
    hide Views, ViewOf, HopsOf;
    forall i | 0 <= i < |views|
      ensures ordered[i] in visible && views[i].id == ordered[i] && views[i].hops == HopsOf(hopOf, ordered[i])
      ensures views[i] == ViewOf(visible[ordered[i]], HopsOf(hopOf, ordered[i]))
    {
      ViewAt(visible, hopOf, i);
      ViewOfKeeps(visible[ordered[i]], HopsOf(hopOf, ordered[i]));
    }
    ViewsHold(visible, hopOf, views, ordered);
    ViewsInOrder(hopOf, views, ordered);
  }

  lemma ViewsHold(visible: map<Id, Node>, hopOf: map<Id, nat>, views: seq<NodeView>, ordered: seq<Id>)
    requires |views| == |ordered| && Elements(ordered) == visible.Keys
    requires forall i :: 0 <= i < |views| ==>
               && ordered[i] in visible && views[i].id == ordered[i]
               && views[i] == ViewOf(visible[ordered[i]], HopsOf(hopOf, ordered[i]))
    ensures forall v :: v in views <==> v.id in visible && v == ViewOf(visible[v.id], HopsOf(hopOf, v.id))
  {
    hide ViewOf, HopsOf;
    forall v: NodeView | v.id in visible && v == ViewOf(visible[v.id], HopsOf(hopOf, v.id)) ensures v in views {
      assert v.id in Elements(ordered);
      var i :| 0 <= i < |ordered| && ordered[i] == v.id;
      assert views[i] == v;
    }
  }

  lemma ViewsInOrder(hopOf: map<Id, nat>, views: seq<NodeView>, ordered: seq<Id>)
    requires |views| == |ordered| && Ascending(HopRank(hopOf), ordered)
    requires forall i :: 0 <= i < |views| ==> views[i].id == ordered[i] && views[i].hops == HopsOf(hopOf, ordered[i])
    ensures NearestFirst(views)
  {
    hide HopsOf;
    forall i, j | 0 <= i < j < |views|
      ensures views[i].hops < views[j].hops || (views[i].hops == views[j].hops && StrLess(views[i].id, views[j].id))
    {
      assert Before(HopRank(hopOf), ordered[i], ordered[j]);
    }
  }

  /** The store can make the walk: there is one from any seeds, to any depth. */
  lemma WalkExists(db: DB, owner: string, seeds: seq<Id>, hops: nat) returns (walk: Walk)
    ensures IsWalk(db, owner, seeds, hops, walk)
  {
    var hopOf := HopOf(db, owner, Elements(seeds), hops);
    HopOfIsHopMap(db, owner, Elements(seeds), hops);
    assert hopOf.Keys <= db.nodes.Keys;
    hide IsHopMap, HopOf, EdgesOrdered, DistinctIds;
    var found := FoundIn(db, hopOf.Keys);
    var edges := SortedEdges(set e | e in db.edges && e.from in hopOf && e.to in hopOf);
    assert forall e :: e in edges <==> e in Elements(edges);
    walk := Walk(found, edges, hopOf);
  }

  // ---- the answer adds up ----

  lemma PermittedMeans(db: DB, owner: string, seeds: seq<Id>, hops: nat, walk: Walk, scope: Scope, now: int)
    requires Indexed(db) && IsWalk(db, owner, seeds, hops, walk)
    ensures var visible := Permitted(walk, scope, now);
            && (forall id :: id in visible <==>
                id in walk.hopOf && id in db.nodes && Permits(scope, db.nodes[id].payload.Acl(), now))
            && (forall id :: id in visible ==> visible[id] == db.nodes[id].payload && visible[id].Id() == id)
  {
    hide IsHopMap, EdgesOrdered, Evaluate;
    var walked := ById(walk.found);
    PassKeys(scope, walk.found, now);
    forall id | id in walked ensures id in walk.hopOf && id in db.nodes && walked[id] == db.nodes[id].payload
                                  && Verdicts(scope, walk.found, now)[id] == Verdict(scope, walked[id], now) {
      PassMeans(scope, walk.found, now, id);
    }
    forall id | id in walk.hopOf && id in db.nodes ensures id in walked {
      assert Found(id, db.nodes[id].payload) in walk.found;
    }
  }

  /** What an answer reports, whichever of its three forms it takes. */
  lemma AssembleReports(seeds: seq<Id>, hops: nat, walk: Walk, verdicts: map<Id, Option<DenyReason>>,
                        denials: seq<(Id, DenyReason)>)
    requires var visible := Visible(ById(walk.found), verdicts);
             |visible| + |denials| == |walk.found| == |ById(walk.found)|
    requires walk.found == [] ==> walk.edges == []
    ensures var (r, visible) := (Assemble(seeds, hops, walk, verdicts, denials), Visible(ById(walk.found), verdicts));
            && r.nodes == Views(visible, walk.hopOf) && r.edges == Shown(walk.edges, visible.Keys)
            && r.considered == |walk.found| && r.withheld == |denials|
            && r.withheldEdges == |walk.edges| - |r.edges|
            && (r.answered <==> visible != map[])
  {
    var (walked, visible) := (ById(walk.found), Visible(ById(walk.found), verdicts));
    NothingShown(walk.edges, walk.hopOf);
    assert visible == map[] <==> |visible| == 0;
    assert walked == map[] <==> |walked| == 0;
    hide Views, Shown, ById, Visible, Reasons, AnswerText, Declining, NothingPresent;
    if visible == map[] {
      assert visible.Keys == {};
    }
  }

  lemma NothingShown(edges: seq<Edge>, hopOf: map<Id, nat>)
    ensures Shown(edges, {}) == [] && Views(map[], hopOf) == []
  {
    ShownMeans(edges, {});
    assert forall e :: e !in Shown(edges, {});
    NoElements(Shown(edges, {}));
    NoElements(Arrange(HopRank(hopOf), {}));
  }

  /** The shown nodes are exactly the walked ones the scope permits (see PermittedMeans), each as it is stored and
      at its exact hops, nearest first; the shown edges exactly the store's edges between them; and what is
      shown and what is withheld add up to what was walked, for nodes and for edges. */
  lemma AnswerAddsUp(db: DB, owner: string, seeds: seq<Id>, hops: nat, walk: Walk, scope: Scope, now: int)
    requires Indexed(db) && IsWalk(db, owner, seeds, hops, walk)
    ensures var (r, visible) := (Read(seeds, hops, walk, scope, now), Permitted(walk, scope, now));
            && (forall v :: v in r.nodes <==>
                  v.id in visible && v.id in walk.hopOf && v.id in db.nodes
                  && Shows(v, db.nodes[v.id].payload, walk.hopOf[v.id]))
            && NearestFirst(r.nodes)
            && (forall e :: e in r.edges <==> e in db.edges && e.from in visible && e.to in visible)
            && r.considered == |walk.found| == |r.nodes| + r.withheld
            && |walk.edges| == |r.edges| + r.withheldEdges
            && r.withheldEdges == |Cut(walk.edges, visible.Keys)|
            && (r.answered <==> visible != map[])
  {
    hide IsHopMap, EdgesOrdered, DistinctIds, Views, Shown, ViewOf, Assemble, Verdicts, Denials, ById, Visible, Cut,
        Indexed, Permits, NearestFirst, Shows;
    var visible := Permitted(walk, scope, now);
    PermittedMeans(db, owner, seeds, hops, walk, scope, now);
    EmptyWalk(db, owner, seeds, hops, walk);
    VisiblePlusDenied(scope, walk.found, now);
    AssembleReports(seeds, hops, walk, Verdicts(scope, walk.found, now), Denials(scope, walk.found, now));
    ShownMeans(walk.edges, visible.Keys);
    ShownPlusCut(walk.edges, visible.Keys);
    ViewsMean(visible, walk.hopOf);
    forall v: NodeView | v.id in visible
      ensures v == ViewOf(visible[v.id], HopsOf(walk.hopOf, v.id))
         <==> Shows(v, db.nodes[v.id].payload, walk.hopOf[v.id])
    {
      ViewOfShows(v, visible[v.id], walk.hopOf[v.id]);
    }
  }

  lemma AnsweredText(seeds: seq<Id>, hops: nat, walk: Walk, scope: Scope, now: int)
    requires Read(seeds, hops, walk, scope, now).answered
    ensures var r := Read(seeds, hops, walk, scope, now);
            && r.seeds == seeds && r.hops == hops
            && r.text == AnswerText(seeds, |r.nodes|, |r.edges|, r.withheld, r.sources)
  {
    hide Views, Shown, ById, Visible, Reasons, SortedStrings, Pretty, Verdicts, Denials, AnswerText, Declining,
      NothingPresent;
  }

  /** What an answer says, in its own numbers: how many nodes and edges are shown around which seeds, across which
      sources, and how many objects are withheld, if any are. */
  ghost predicate Says(text: seq<Piece>, seeds: seq<Id>, nodes: nat, edges: nat, withheld: nat, sources: seq<string>) {
    && |text| == (if withheld == 0 then 6 else 9)
    && SaysShown(text[..6], seeds, nodes, edges, sources)
    && (withheld > 0 ==> SaysWithheld(text[6..], withheld))
  }

  ghost predicate SaysShown(text: seq<Piece>, seeds: seq<Id>, nodes: nat, edges: nat, sources: seq<string>) {
    && |text| == 6
    && text[0] == Num(nodes) && text[1] == Lit(" node(s) and ") && text[2] == Num(edges)
    && text[3] == Lit(" edge(s) around " + Join(seeds, ", ") + " across ") && text[4] == Num(|sources|)
    && (|sources| == 0 ==> text[5] == Lit(" source(s) (" + "none visible" + ")."))
    && (|sources| > 0 ==> text[5] == Lit(" source(s) (" + Join(sources, ", ") + ")."))
  }

  ghost predicate SaysWithheld(text: seq<Piece>, withheld: nat) {
    && |text| == 3 && text[0] == Lit(" ") && text[1] == Num(withheld)
    && text[2] == Lit(" further object(s) in this neighbourhood are outside the grant and are not shown -- "
                      + "neither they nor their edges are counted above, so this picture is partial.")
  }

  lemma TextSays(seeds: seq<Id>, nodes: nat, edges: nat, withheld: nat, sources: seq<string>)
    ensures Says(AnswerText(seeds, nodes, edges, withheld, sources), seeds, nodes, edges, withheld, sources)
  {
    hide Join;
    var text := AnswerText(seeds, nodes, edges, withheld, sources);
    assert |text| == if withheld == 0 then 6 else 9;
    assert SaysShown(text[..6], seeds, nodes, edges, sources);
    hide SaysShown;
    assert withheld > 0 ==> SaysWithheld(text[6..], withheld);
  }

  lemma AnswerSays(seeds: seq<Id>, hops: nat, walk: Walk, scope: Scope, now: int)
    requires Read(seeds, hops, walk, scope, now).answered
    ensures var r := Read(seeds, hops, walk, scope, now);
            && r.seeds == seeds && r.hops == hops
            && Says(r.text, seeds, |r.nodes|, |r.edges|, r.withheld, r.sources)
  {
    hide AnswerText, Says, Read;
    AnsweredText(seeds, hops, walk, scope, now);
    var r := Read(seeds, hops, walk, scope, now);
    TextSays(seeds, |r.nodes|, |r.edges|, r.withheld, r.sources);
  }

  /** What it says when nothing may be shown: how many objects there are, and the reasons. */
  lemma RefusalSays(seeds: seq<Id>, hops: nat, walk: Walk, scope: Scope, now: int)
    requires !Read(seeds, hops, walk, scope, now).answered && Read(seeds, hops, walk, scope, now).considered > 0
    ensures var r := Read(seeds, hops, walk, scope, now);
            && r.seeds == seeds && r.hops == hops && r.withheld == r.considered && r.nodes == [] && r.sources == []
            && r.text == [Lit("Declining to answer: "), Num(r.considered),
                          Lit(" object(s) are in this neighbourhood"
                              + ", but none are within the requesting agent's scope ("
                              + Pretty(r.withheldReasons) + ").")]
  {
    hide Views, Shown, ById, Visible, Reasons, SortedStrings, Pretty, Verdicts, Denials, Join, AnswerText,
      NothingPresent;
  }

  /** And when nothing was found. */
  lemma AbsenceSays(seeds: seq<Id>, hops: nat, walk: Walk, scope: Scope, now: int)
    requires Read(seeds, hops, walk, scope, now).considered == 0
    ensures var r := Read(seeds, hops, walk, scope, now);
            && r.seeds == seeds && r.hops == hops && !r.answered && r.withheld == 0
            && r.text == [Lit("No object among "), Quoted(Join(seeds, ", ")), Lit(" is present in this memory.")]
  {
    hide Views, Shown, Visible, Reasons, SortedStrings, Pretty, Verdicts, Denials, Join, AnswerText, Declining, ById;
    assert ById(walk.found) == map[] <==> |ById(walk.found)| == 0;
  }

  /** The sources named are those of the shown nodes, the reasons those of the denials, each once and in order. */
  lemma SourcesAndReasons(seeds: seq<Id>, hops: nat, walk: Walk, scope: Scope, now: int)
    requires Read(seeds, hops, walk, scope, now).answered
    ensures var r := Read(seeds, hops, walk, scope, now);
            && Sorted(r.sources) && (forall s :: s in r.sources <==> exists v :: v in r.nodes && s in v.sources)
            && Sorted(r.withheldReasons)
            && (forall x :: x in r.withheldReasons <==>
                exists d :: d in Denials(scope, walk.found, now) && x == ReasonName(d.1))
  {
    hide Views, Shown, ById, Visible, AnswerText, Declining, NothingPresent, Reasons, SortedStrings, Sorted, Denials,
        Verdicts;
    ReasonsMean(Denials(scope, walk.found, now));
    var nodes := Views(Permitted(walk, scope, now), walk.hopOf);
    SortedStringsMean(SourcesOf(nodes));
    hide ReasonName;
  }

  lemma EmptyWalk(db: DB, owner: string, seeds: seq<Id>, hops: nat, walk: Walk)
    requires IsWalk(db, owner, seeds, hops, walk)
    ensures walk.found == [] ==> walk.edges == []
  {
    HopsAreExact(db, owner, Elements(seeds), hops, walk.hopOf);
    hide IsHopMap, Ball, At, EdgesOrdered, DistinctIds;
    if walk.edges != [] {
      var e := walk.edges[0];
      assert e in walk.edges;
      assert Found(e.from, db.nodes[e.from].payload) in walk.found;
    }
  }

  // ---- noninterference ----

  /** All of a walk that a reader may learn: the permitted nodes, their hops, the edges among them, how
      many nodes were denied, for which set of reasons, and how many other edges there were. */
  ghost predicate LooksAlike(a: Walk, b: Walk, scope: Scope, now: int) {
    var visible := Permitted(a, scope, now);
    && Permitted(b, scope, now) == visible
    && (forall id :: id in visible ==> HopsOf(a.hopOf, id) == HopsOf(b.hopOf, id))
    && (forall e: Edge :: e.from in visible && e.to in visible ==> (e in a.edges <==> e in b.edges))
    && |Denials(scope, a.found, now)| == |Denials(scope, b.found, now)|
    && Kinds(Denials(scope, a.found, now)) == Kinds(Denials(scope, b.found, now))
    && |Cut(a.edges, visible.Keys)| == |Cut(b.edges, visible.Keys)|
  }

  lemma SameViews(visible: map<Id, Node>, a: map<Id, nat>, b: map<Id, nat>)
    requires forall id :: id in visible ==> HopsOf(a, id) == HopsOf(b, id)
    ensures Views(visible, a) == Views(visible, b)
  {
    hide HopsOf, ViewOf;
    ArrangeCongruent(HopRank(a), HopRank(b), visible.Keys);
    var ordered := Arrange(HopRank(a), visible.Keys);
    assert forall i :: 0 <= i < |ordered| ==> ordered[i] in Elements(ordered);
  }

  lemma SameShown(a: seq<Edge>, b: seq<Edge>, visible: set<Id>)
    requires EdgesOrdered(a) && EdgesOrdered(b)
    requires forall e: Edge :: e.from in visible && e.to in visible ==> (e in a <==> e in b)
    ensures Shown(a, visible) == Shown(b, visible)
  {
    ShownMeans(a, visible);
    ShownMeans(b, visible);
    ShownOrdered(a, visible);
    ShownOrdered(b, visible);
    hide EdgeBefore, Shown;
    OrderedUnique(Shown(a, visible), Shown(b, visible));
  }

  /** Two walks that look alike to a scope give it identical answers: nothing else about the denied
      objects, neither their ids, payloads and hops nor where they hang, can show. */
  lemma Noninterference(seeds: seq<Id>, hops: nat, a: Walk, b: Walk, scope: Scope, now: int)
    requires DistinctIds(a.found) && DistinctIds(b.found) && EdgesOrdered(a.edges) && EdgesOrdered(b.edges)
    requires LooksAlike(a, b, scope, now)
    ensures Read(seeds, hops, a, scope, now) == Read(seeds, hops, b, scope, now)
  {
    var visible := Permitted(a, scope, now);
    VisiblePlusDenied(scope, a.found, now);
    VisiblePlusDenied(scope, b.found, now);
    ShownPlusCut(a.edges, visible.Keys);
    ShownPlusCut(b.edges, visible.Keys);
    SameShown(a.edges, b.edges, visible.Keys);
    SameViews(visible, a.hopOf, b.hopOf);
    ReasonsOnly(Denials(scope, a.found, now), Denials(scope, b.found, now));
    SameAssembly(seeds, hops, a, b, Verdicts(scope, a.found, now), Verdicts(scope, b.found, now),
                 Denials(scope, a.found, now), Denials(scope, b.found, now));
  }

  /** The assembly uses its inputs in no other way. */
  lemma SameAssembly(seeds: seq<Id>, hops: nat, a: Walk, b: Walk,
                     va: map<Id, Option<DenyReason>>, vb: map<Id, Option<DenyReason>>,
                     da: seq<(Id, DenyReason)>, db: seq<(Id, DenyReason)>)
    requires |ById(a.found)| == |ById(b.found)| && |da| == |db| && |a.edges| == |b.edges|
    requires Visible(ById(a.found), va) == Visible(ById(b.found), vb) && Reasons(da) == Reasons(db)
    requires var visible := Visible(ById(a.found), va);
             Shown(a.edges, visible.Keys) == Shown(b.edges, visible.Keys)
                 && Views(visible, a.hopOf) == Views(visible, b.hopOf)
    ensures Assemble(seeds, hops, a, va, da) == Assemble(seeds, hops, b, vb, db)
  {
    hide Views, Shown, ById, Visible, Reasons, AnswerText, Declining, NothingPresent;
    assert ById(a.found) == map[] <==> |ById(a.found)| == 0;
  }
}
