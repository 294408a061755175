/** What the write node leaves in the store: the ledger of claims, and edges that tell what they say. */
module Writing {
  import opened Schema
  import opened Store
  import opened Ledger
  import opened Ingestion

  /** Every edge joins stored nodes, and an edge of these three kinds says what its claim says. */
  ghost predicate EdgesTrue(db: DB, cs: Claims) {
    forall e :: e in db.edges ==>
      && e.from in db.nodes && e.to in db.nodes
      && (e.rel == About ==> e.from in cs && e.to in cs[e.from].subjects)
      && (e.rel == Rel.Supersedes ==> e.from in cs && e.to in cs[e.from].supersedes)
      && (e.rel == Rel.Contradicts ==> e.from in cs && e.to in cs[e.from].contradicts)
  }

  /** Every subject and target a claim names has its edge. */
  ghost predicate EdgesComplete(db: DB, cs: Claims) {
    && (forall id, t :: id in cs && t in cs[id].subjects ==> HasEntity(db, t) && Edge(id, About, t) in db.edges)
    && (forall id, t :: id in cs && t in cs[id].supersedes ==> Edge(id, Rel.Supersedes, t) in db.edges)
    && (forall id, t :: id in cs && t in cs[id].contradicts ==> Edge(id, Rel.Contradicts, t) in db.edges)
  }

  ghost predicate EdgesTell(db: DB) {
    EdgesTrue(db, ClaimsOf(db)) && EdgesComplete(db, ClaimsOf(db))
  }

  /** The edges of the three kinds that tell what a claim says. */
  predicate Speaks(e: Edge) {
    e.rel == About || e.rel == Rel.Supersedes || e.rel == Rel.Contradicts
  }

  /** `c` says what `e` tells. */
  ghost predicate Names(c: Claim, e: Edge) {
    && e.from == c.id
    && ((e.rel == About && e.to in c.subjects)
        || (e.rel == Rel.Supersedes && e.to in c.supersedes)
        || (e.rel == Rel.Contradicts && e.to in c.contradicts))
  }

  ghost predicate EndsStored(db: DB) {
    forall e :: e in db.edges ==> e.from in db.nodes && e.to in db.nodes
  }

  // ---- links ----

  lemma {:induction false} LinkedAllMeans(db: DB, from: Id, rel: Rel, tos: seq<Id>)
    ensures var after := LinkedAll(db, from, rel, tos);
            && after.nodes == db.nodes
            && (forall e :: e in after.edges <==>
                  e in db.edges || (e.from == from && e.rel == rel && e.to in tos && from in db.nodes
                                    && e.to in db.nodes))
  {
    if tos != [] {
      LinkedAllMeans(db, from, rel, tos[..|tos| - 1]);
    }
  }

  // ---- entities and events ----

  /** Nothing about claims has changed, no edge that tells of them has come or gone, and no entity has gone. */
  ghost predicate ClaimsUntouched(db: DB, after: DB) {
    && ClaimsOf(after) == ClaimsOf(db)
    && (forall id :: HasEntity(db, id) ==> HasEntity(after, id))
    && (forall e :: Speaks(e) ==> (e in after.edges <==> e in db.edges))
    && (Indexed(db) ==> Indexed(after))
    && (EndsStored(db) ==> EndsStored(after))
  }

  lemma UntouchedThen(db: DB, mid: DB, after: DB)
    requires ClaimsUntouched(db, mid) && ClaimsUntouched(mid, after)
    ensures ClaimsUntouched(db, after)
  {
    hide ClaimsOf, HasEntity, Indexed, EndsStored, Speaks;
  }

  lemma UpsertOther(db: DB, node: Node)
    requires Indexed(db) && !node.ClaimNode? && node.LabelMatchesId()
    ensures ClaimsUntouched(db, Upserted(db, node))
    ensures node.EntityNode? ==> HasEntity(Upserted(db, node), node.Id())
  {
    var after := Upserted(db, node);
    UpsertKinds(db, node);
    assert ClaimsOf(after) == ClaimsOf(db);
    assert db.nodes.Keys <= after.nodes.Keys && after.edges == db.edges;
    hide ClaimsOf, HasEntity, Indexed;
  }

  lemma UpsertKinds(db: DB, node: Node)
    requires Indexed(db) && !node.ClaimNode? && node.LabelMatchesId()
    ensures var after := Upserted(db, node);
            && Indexed(after)
            && (node.EntityNode? ==> HasEntity(after, node.Id()))
            && (forall id :: HasClaim(after, id) <==> HasClaim(db, id))
            && (forall id :: HasEntity(db, id) ==> HasEntity(after, id))
            && (forall id :: HasClaim(db, id) ==> after.nodes[id] == db.nodes[id])
  {
    var id := node.Id();
    if id in db.nodes {
      assert db.nodes[id].payload.LabelMatchesId() && db.nodes[id].payload.Id() == id;
      PrefixesDiffer(id);
    }
  }

  lemma PrefixesDiffer(id: Id)
    ensures "ent_" <= id ==> !("evt_" <= id) && !("clm_" <= id)
    ensures "evt_" <= id ==> !("clm_" <= id)
  {
    if |id| >= 4 {
      assert "ent_"[0] == 'e' && "evt_"[0] == 'e' && "clm_"[0] == 'c' && "ent_"[1] == 'n' && "evt_"[1] == 'v';
    }
  }

  lemma {:induction false} EntitiesLeaveClaims(db: DB, entities: seq<Entity>)
    requires Indexed(db) && forall e :: e in entities ==> EntityNode(e).LabelMatchesId()
    ensures var after := EntitiesWritten(db, entities);
            ClaimsUntouched(db, after) && forall e :: e in entities ==> HasEntity(after, e.id)
  {
    if entities != [] {
      var n := |entities| - 1;
      EntitiesLeaveClaims(db, entities[..n]);
      UpsertOther(EntitiesWritten(db, entities[..n]), EntityNode(entities[n]));
      assert forall e :: e in entities ==> e in entities[..n] || e == entities[n];
    }
  }

  lemma EventLeavesClaims(db: DB, event: Event, records: seq<RawRecord>, sealed: map<string, SealRef>)
    requires Indexed(db) && EventNode(event).LabelMatchesId()
    ensures ClaimsUntouched(db, EventWritten(db, event, records, sealed))
  {
    if !IsSkipped(event, records, sealed) {
      var stored := Upserted(db, EventNode(AsWritten(event, sealed)));
      UpsertOther(db, EventNode(AsWritten(event, sealed)));
      LinksLeaveClaims(stored, event.id, Mentions, event.entityIds);
      LinksLeaveClaims(LinkedAll(stored, event.id, Mentions, event.entityIds), event.id, Cites,
                       Without(CitedIds(event.citations), event.id));
    }
  }

  lemma LinksLeaveClaims(db: DB, from: Id, rel: Rel, tos: seq<Id>)
    requires rel !in {About, Rel.Supersedes, Rel.Contradicts}
    ensures ClaimsUntouched(db, LinkedAll(db, from, rel, tos))
  {
    LinkedAllMeans(db, from, rel, tos);
    assert ClaimsOf(LinkedAll(db, from, rel, tos)) == ClaimsOf(db);
  }

  lemma {:induction false} EventsLeaveClaims(db: DB, events: seq<Event>, records: seq<RawRecord>,
                                             sealed: map<string, SealRef>)
    requires Indexed(db) && forall e :: e in events ==> EventNode(e).LabelMatchesId()
    ensures ClaimsUntouched(db, EventsWritten(db, events, records, sealed))
  {
    if events != [] {
      var n := |events| - 1;
      EventsLeaveClaims(db, events[..n], records, sealed);
      EventLeavesClaims(EventsWritten(db, events[..n], records, sealed), events[n], records, sealed);
    }
  }

  // ---- one claim ----

  /** The claims named in `marks` become superseded. */
  ghost function Marking(cs: Claims, marks: seq<Id>): Claims {
    map id | id in cs :: if id in marks then cs[id].(status := Superseded) else cs[id]
  }

  /** Rows other than claims, and every row's presence, are as they were. */
  ghost predicate OthersSame(db: DB, after: DB) {
    && after.nodes.Keys == db.nodes.Keys
    && (forall id :: HasEntity(db, id) <==> HasEntity(after, id))
    && (Indexed(db) ==> Indexed(after))
  }

  lemma StatusSetMeans(db: DB, id: Id)
    ensures var after := StatusSet(db, id, Superseded);
            OthersSame(db, after) && after.edges == db.edges && ClaimsOf(after) == Marking(ClaimsOf(db), [id])
  {
    StatusSetClaims(db, id);
    if HasClaim(db, id) {
      hide ClaimsOf, Marking;
      assert OthersSame(db, StatusSet(db, id, Superseded));
    }
  }

  lemma StatusSetClaims(db: DB, id: Id)
    ensures ClaimsOf(StatusSet(db, id, Superseded)) == Marking(ClaimsOf(db), [id])
  {
    hide Promoted;
    var (after, marked) := (ClaimsOf(StatusSet(db, id, Superseded)), Marking(ClaimsOf(db), [id]));
    assert after.Keys == marked.Keys;
  }

  lemma MarkingSnoc(cs: Claims, marks: seq<Id>, id: Id)
    ensures Marking(Marking(cs, marks), [id]) == Marking(cs, marks + [id])
  {
  }

  lemma OthersSameThen(db: DB, mid: DB, after: DB)
    requires OthersSame(db, mid) && OthersSame(mid, after)
    ensures OthersSame(db, after)
  {
  }

  lemma NodesDecide(db: DB, after: DB)
    requires after.nodes == db.nodes
    ensures ClaimsOf(after) == ClaimsOf(db) && OthersSame(db, after)
  {
  }

  lemma OthersSameKeep(db: DB, after: DB)
    requires OthersSame(db, after)
    ensures after.nodes.Keys == db.nodes.Keys && (Indexed(db) ==> Indexed(after)) && forall id :: HasEntity(db, id) ==>
              HasEntity(after, id)
  {
  }

  lemma SupersededOneMore(db: DB, before: DB, from: Id, t: Id)
    requires from in before.nodes && t in before.nodes
    ensures var after := StatusSet(Linked(before, from, Rel.Supersedes, t), t, Superseded);
            && (OthersSame(db, before) ==> OthersSame(db, after))
            && ClaimsOf(after) == Marking(ClaimsOf(before), [t])
            && after.edges == before.edges + {Edge(from, Rel.Supersedes, t)}
  {
    var linked := Linked(before, from, Rel.Supersedes, t);
    assert linked == before.(edges := before.edges + {Edge(from, Rel.Supersedes, t)});
    hide ClaimsOf, Marking, OthersSame, StatusSet, Linked, HasEntity;
    NodesDecide(before, linked);
    StatusSetMeans(linked, t);
    if OthersSame(db, before) {
      OthersSameThen(db, before, linked);
      OthersSameThen(db, linked, StatusSet(linked, t, Superseded));
    }
  }

  lemma {:induction false} SupersededAllMeans(db: DB, from: Id, targets: seq<Id>)
    requires from in db.nodes && forall t :: t in targets ==> t in db.nodes
    ensures var after := SupersededAll(db, from, targets);
            && OthersSame(db, after)
            && ClaimsOf(after) == Marking(ClaimsOf(db), targets)
            && (forall e :: e in after.edges <==>
                e in db.edges || (e.from == from && e.rel == Rel.Supersedes && e.to in targets))
  {
    if targets == [] {
      assert Marking(ClaimsOf(db), targets) == ClaimsOf(db);
    } else {
      hide ClaimsOf, Marking, StatusSet, Linked, HasEntity, Indexed, OthersSame;
      var (init, t) := (targets[..|targets| - 1], targets[|targets| - 1]);
      SupersededAllMeans(db, from, init);
      OthersSameKeep(db, SupersededAll(db, from, init));
      SupersededOneMore(db, SupersededAll(db, from, init), from, t);
      MarkingSnoc(ClaimsOf(db), init, t);
      assert targets == init + [t];
    }
  }

  /** What a claim needs to find in the store for every one of its edges to be written. */
  ghost predicate Placeable(db: DB, c: Claim) {
    && "clm_" <= c.id
    && (forall t :: t in c.subjects ==> HasEntity(db, t))
    && (forall t :: t in c.supersedes || t in c.contradicts ==> t in db.nodes && t != c.id)
  }

  lemma UpsertClaim(db: DB, c: Claim)
    requires Indexed(db) && Placeable(db, c)
    ensures var after := Upserted(db, ClaimNode(c));
            && Indexed(after)
            && after.nodes.Keys == db.nodes.Keys + {c.id}
            && ClaimsOf(after) == ClaimsOf(db)[c.id := c]
            && (forall id :: HasEntity(db, id) ==> HasEntity(after, id))
  {
    PrefixesDiffer(c.id);
    hide Promoted;
    assert ClaimsOf(Upserted(db, ClaimNode(c))) == ClaimsOf(db)[c.id := c];
  }

  /** The edges a claim's write adds, and no others: all of them leave the claim. */
  lemma PartiesMean(db: DB, c: Claim)
    ensures var after := PartiesLinked(db, c);
            && after.nodes == db.nodes
            && (forall e :: e in db.edges ==> e in after.edges)
            && (forall e :: e in after.edges && e !in db.edges ==>
                  e.from in db.nodes && e.to in db.nodes && e.from == c.id && e.rel in {Rel.OwedBy, Rel.OwedTo})
  {
  }

  lemma ClaimWrittenNodes(db: DB, c: Claim)
    requires Indexed(db) && Placeable(db, c)
    ensures var after := ClaimWritten(db, c);
            && Indexed(after)
            && ClaimsOf(after) == Absorb(ClaimsOf(db), c)
            && after.nodes.Keys == db.nodes.Keys + {c.id}
            && (forall id :: HasEntity(db, id) ==> HasEntity(after, id))
  {
    hide ClaimsOf, ClaimWritten, Upserted, Marking, Absorb, Indexed, HasEntity, OthersSame, Placeable;
    var stored := Upserted(db, ClaimNode(c));
    UpsertClaim(db, c);
    PlaceableInto(db, c);
    MarkingAbsorbs(ClaimsOf(db), c);
    ClaimWrittenInSteps(db, c);
    ClaimLinked(stored, c);
    OthersSameKeep(stored, ClaimWritten(db, c));
  }

  lemma PlaceableInto(db: DB, c: Claim)
    requires Placeable(db, c)
    ensures forall t :: t in c.subjects || t in c.supersedes || t in c.contradicts ==> t in db.nodes
    ensures c.id !in c.supersedes
  {
  }

  lemma MarkingAbsorbs(cs: Claims, c: Claim)
    requires c.id !in c.supersedes
    ensures Marking(cs[c.id := c], c.supersedes) == Absorb(cs, c)
  {
  }

  lemma ClaimWrittenInSteps(db: DB, c: Claim)
    ensures ClaimWritten(db, c)
         == LinkedAll(SupersededAll(ClaimCited(Upserted(db, ClaimNode(c)), c), c.id, c.supersedes), c.id,
                      Rel.Contradicts, c.contradicts)
  {
    hide LinkedAll, SupersededAll, PartiesLinked, Upserted;
  }

  lemma ClaimLinked(stored: DB, c: Claim)
    requires c.id in stored.nodes && forall t :: t in c.subjects || t in c.supersedes || t in c.contradicts ==>
               t in stored.nodes
    ensures var after := LinkedAll(SupersededAll(ClaimCited(stored, c), c.id, c.supersedes), c.id, Rel.Contradicts,
                                   c.contradicts);
            OthersSame(stored, after) && ClaimsOf(after) == Marking(ClaimsOf(stored), c.supersedes)
  {
    var cited := ClaimCited(stored, c);
    ClaimCitedMeans(stored, c);
    hide ClaimsOf, Marking, Indexed, HasEntity, OthersSame, ClaimCited;
    NodesDecide(stored, cited);
    SupersededAllMeans(cited, c.id, c.supersedes);
    var superseding := SupersededAll(cited, c.id, c.supersedes);
    LinkedAllMeans(superseding, c.id, Rel.Contradicts, c.contradicts);
    var after := LinkedAll(superseding, c.id, Rel.Contradicts, c.contradicts);
    NodesDecide(superseding, after);
    OthersSameThen(stored, cited, superseding);
    OthersSameThen(stored, superseding, after);
  }

  /** The store once a claim's subjects, parties and citations are linked. */
  function ClaimCited(stored: DB, c: Claim): DB {
    LinkedAll(PartiesLinked(LinkedAll(stored, c.id, About, c.subjects), c), c.id, Cites, CitedIds(c.citations))
  }

  lemma ClaimCitedMeans(stored: DB, c: Claim)
    requires c.id in stored.nodes && forall t :: t in c.subjects ==> t in stored.nodes
    ensures var cited := ClaimCited(stored, c);
            && cited.nodes == stored.nodes
            && (forall e :: e in stored.edges ==> e in cited.edges)
            && (forall t :: t in c.subjects ==> Edge(c.id, About, t) in cited.edges)
            && (forall e :: e in cited.edges && e !in stored.edges ==>
                  && e.from == c.id && e.to in stored.nodes
                  && e.rel !in {Rel.Supersedes, Rel.Contradicts} && (e.rel == About ==> e.to in c.subjects))
  {
    var about := LinkedAll(stored, c.id, About, c.subjects);
    LinkedAllMeans(stored, c.id, About, c.subjects);
    PartiesMean(about, c);
    LinkedAllMeans(PartiesLinked(about, c), c.id, Cites, CitedIds(c.citations));
  }

  /** Writing a claim adds only edges that leave it; those of the three telling kinds are exactly
      the ones its subjects and lists name. */
  lemma ClaimWrittenEdges(db: DB, c: Claim)
    requires Indexed(db) && Placeable(db, c)
    ensures var after := ClaimWritten(db, c);
            && (forall e :: Speaks(e) ==> (e in after.edges <==> e in db.edges || Names(c, e)))
            && (forall e :: e in db.edges ==> e in after.edges)
            && (forall e :: e in after.edges && e !in db.edges ==> e.from == c.id && e.to in after.nodes)
  {
    hide ClaimsOf, Marking, Indexed;
    var stored := Upserted(db, ClaimNode(c));
    var cited := ClaimCited(stored, c);
    assert forall t :: t in c.subjects ==> t in stored.nodes;
    ClaimCitedMeans(stored, c);
    SupersededAllMeans(cited, c.id, c.supersedes);
    LinkedAllMeans(SupersededAll(cited, c.id, c.supersedes), c.id, Rel.Contradicts, c.contradicts);
    var after := ClaimWritten(db, c);
    forall e | Speaks(e) ensures e in after.edges <==> e in db.edges || Names(c, e) {
      assert e == Edge(e.from, e.rel, e.to);
    }
  }

  lemma EndsStillStored(db: DB, c: Claim)
    requires Indexed(db) && Placeable(db, c) && EndsStored(db)
    ensures EndsStored(ClaimWritten(db, c))
  {
    hide Indexed, Placeable, ClaimWritten, ClaimsOf, Absorb, HasEntity, Names, Speaks;
    ClaimWrittenNodes(db, c);
    ClaimWrittenEdges(db, c);
  }
}
