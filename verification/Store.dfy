/** The graph store by its meaning: rows under ids, and a set of typed edges. */
module Store {
  import opened Basics
  import opened Schema

  datatype Rel = About | OwedBy | OwedTo | Mentions | Cites | Supersedes | Contradicts

  datatype Edge = Edge(from: Id, rel: Rel, to: Id)

  /** Claim fields lifted out of the payload into indexed columns. */
  datatype Columns = Columns(
    claimStatus: Option<Status>, fulfillment: Option<Fulfillment>,
    dueAt: Option<int>, owedBy: Option<Id>, owedTo: Option<Id>)

  datatype Row = Row(kind: Label, payload: Node, owner: string, occurredAt: int, cols: Columns)

  datatype DB = DB(nodes: map<Id, Row>, edges: set<Edge>)

  const EMPTY := DB(map[], {})

  function Promoted(node: Node): Columns {
    match node
    case ClaimNode(c) =>
      (match c.commitment
       case None => Columns(Some(c.status), None, None, None, None)
       case Some(p) => Columns(Some(c.status), Some(p.fulfillment), p.dueAt, Some(p.owedBy), p.owedTo))
    case _ => Columns(None, None, None, None, None)
  }

  /** A row that MATCH (:Claim) finds, and whose payload reads back as a claim. */
  predicate IsClaimRow(row: Row) {
    row.kind == ClaimLabel && row.payload.ClaimNode?
  }

  predicate HasClaim(db: DB, id: Id) {
    id in db.nodes && IsClaimRow(db.nodes[id])
  }

  predicate HasEntity(db: DB, id: Id) {
    id in db.nodes && db.nodes[id].kind == EntityLabel
  }

  /** A row labelled a claim whose payload is none: every read of it raises. */
  predicate IsUnreadable(db: DB, id: Id) {
    id in db.nodes && db.nodes[id].kind == ClaimLabel && !db.nodes[id].payload.ClaimNode?
  }

  /** Every row sits under its own id, and its five columns are those promoted from its payload. */
  ghost predicate ColumnsPromoted(db: DB) {
    forall id :: id in db.nodes ==>
        db.nodes[id].payload.Id() == id && db.nodes[id].cols == Promoted(db.nodes[id].payload)
  }

  /** Besides, label and owner are the payload's. */
  ghost predicate ColumnsAgree(db: DB) {
    && ColumnsPromoted(db)
    && forall id :: id in db.nodes ==>
         db.nodes[id].kind == db.nodes[id].payload.Label() && db.nodes[id].owner == db.nodes[id].payload.Owner()
  }

  /** Besides, every row carries its id's label, and the time its payload carries. */
  ghost predicate Indexed(db: DB) {
    && ColumnsAgree(db)
    && forall id :: id in db.nodes ==>
         db.nodes[id].payload.LabelMatchesId() && db.nodes[id].occurredAt == db.nodes[id].payload.OccurredAt()
  }

  // ---- what each write means ----

  function Upserted(db: DB, node: Node): DB {
    db.(nodes := db.nodes[node.Id() := Row(node.Label(), node, node.Owner(), node.OccurredAt(), Promoted(node))])
  }

  /** MERGE of an edge; silently nothing when an end is missing. */
  function Linked(db: DB, from: Id, rel: Rel, to: Id): DB {
    if from in db.nodes && to in db.nodes then db.(edges := db.edges + {Edge(from, rel, to)}) else db
  }

  /** `_mutate_claim` writing back `claim` over the stored claim of that id. */
  function Rewritten(db: DB, id: Id, claim: Claim): DB
    requires HasClaim(db, id)
  {
    db.(nodes := db.nodes[id := db.nodes[id].(payload := ClaimNode(claim), cols := Promoted(ClaimNode(claim)))])
  }

  function StatusSet(db: DB, id: Id, status: Status): DB {
    if HasClaim(db, id) then Rewritten(db, id, db.nodes[id].payload.claim.(status := status)) else db
  }

  function Settled(p: Commitment, state: Fulfillment, settledAt: Option<int>): Commitment {
    p.(fulfillment := state, settledAt := if state == Open then None else settledAt)
  }

  /** The claim as it was, but that its commitment stands as the call asked: settled at the given time, or, when
      reopened, at none. */
  predicate IsSettled(now: Claim, was: Claim, fulfillment: string, settledAt: Option<int>) {
    && was.commitment.Some? && now.commitment.Some? && now == was.(commitment := now.commitment)
    && var (p, q) := (was.commitment.value, now.commitment.value);
       && q.owedBy == p.owedBy && q.owedTo == p.owedTo && q.dueAt == p.dueAt
       && (fulfillment == "open" ==> q.fulfillment == Open && q.settledAt == None)
       && (fulfillment == "fulfilled" ==> q.fulfillment == Fulfilled && q.settledAt == settledAt)
       && (fulfillment == "dropped" ==> q.fulfillment == Dropped && q.settledAt == settledAt)
       && fulfillment in {"open", "fulfilled", "dropped"}
  }

  lemma SettledByName(was: Claim, fulfillment: string, settledAt: Option<int>)
    requires was.commitment.Some? && ParseFulfillment(fulfillment).Some?
    ensures var q := Settled(was.commitment.value, ParseFulfillment(fulfillment).value, settledAt);
            IsSettled(was.(commitment := Some(q)), was, fulfillment, settledAt)
  {
  }

  function FulfillmentSet(db: DB, id: Id, state: Fulfillment, settledAt: Option<int>): DB {
    if HasClaim(db, id) && db.nodes[id].payload.claim.commitment.Some? then
      var c := db.nodes[id].payload.claim;
      Rewritten(db, id, c.(commitment := Some(Settled(c.commitment.value, state, settledAt))))
    else db
  }

  /** Replaces the payload and the promoted columns, and no other column. */
  function Replaced(db: DB, node: Node): DB {
    var id := node.Id();
    if id in db.nodes then db.(nodes := db.nodes[id := db.nodes[id].(payload := node, cols := Promoted(node))]) else db
  }

  function ParseStatus(s: string): Option<Status> {
    if s == "active" then Some(Active) else if s == "superseded" then Some(Superseded)
    else if s == "contradicted" then Some(Contradicted) else if s == "reconciled" then Some(Reconciled)
    else None
  }

  function ParseFulfillment(s: string): Option<Fulfillment> {
    if s == "open" then Some(Open) else if s == "fulfilled" then Some(Fulfilled)
    else if s == "dropped" then Some(Dropped) else None
  }

  /** The name of each status in the store. */
  lemma StatusNames(name: string, s: Status)
    ensures ParseStatus(name) == Some(s) <==>
              match s
              case Active => name == "active"
              case Superseded => name == "superseded"
              case Contradicted => name == "contradicted"
              case Reconciled => name == "reconciled"
  {
  }

  /** A row of a node, column by column: an entity's time is that of its last mention, an event's that of its
      source, a claim's that of its assertion; only a claim fills the five columns. */
  predicate IsRowOf(row: Row, node: Node) {
    match node
    case EntityNode(e) => row == Row(EntityLabel, node, e.owner, e.lastSeen, Columns(None, None, None, None, None))
    case EventNode(e) =>
      row == Row(EventLabel, node, e.owner, e.source.occurredAt, Columns(None, None, None, None, None))
    case ClaimNode(c) =>
      && row == Row(ClaimLabel, node, c.owner, c.assertedAt, row.cols) && row.cols.claimStatus == Some(c.status)
      && match c.commitment
         case None => row.cols == Columns(Some(c.status), None, None, None, None)
         case Some(p) =>
           && row.cols.fulfillment == Some(p.fulfillment) && row.cols.dueAt == p.dueAt
           && row.cols.owedBy == Some(p.owedBy) && row.cols.owedTo == p.owedTo
  }

  /** An upsert leaves the node's row under its id, and every other row alone. */
  lemma RowHolds(db: DB, node: Node)
    ensures var after := Upserted(db, node);
            && after.edges == db.edges && after.nodes.Keys == db.nodes.Keys + {node.Id()}
            && (forall id :: id in db.nodes && id != node.Id() ==> after.nodes[id] == db.nodes[id])
            && IsRowOf(after.nodes[node.Id()], node)
    ensures node.Id() == match node case EntityNode(e) => e.id case EventNode(e) => e.id case ClaimNode(c) => c.id
  {
  }

  /** Ids are told apart by their prefixes. */
  lemma LabelsByPrefix(node: Node)
    ensures node.LabelMatchesId() <==>
              || (node.EntityNode? && "ent_" <= node.entity.id)
              || (node.EventNode? && "evt_" <= node.event.id)
              || (node.ClaimNode? && "clm_" <= node.claim.id)
  {
  }

  // ---- what the claim queries mean ----

  /** Claims of `owner` with an ABOUT edge to an entity among `subjects`. */
  ghost function ClaimsAboutIds(db: DB, owner: string, subjects: seq<Id>): set<Id> {
    set id | id in db.nodes && HasClaim(db, id) && db.nodes[id].owner == owner
             && exists e :: e in subjects && HasEntity(db, e) && Edge(id, About, e) in db.edges
  }

  /** The claims stored under `ids`, in that order. */
  ghost function Hydrated(db: DB, ids: seq<Id>): seq<Claim>
    requires forall i :: 0 <= i < |ids| ==> HasClaim(db, ids[i])
  {
    seq(|ids|, i requires 0 <= i < |ids| && HasClaim(db, ids[i]) => db.nodes[ids[i]].payload.claim)
  }

  datatype OpenQuery = OpenQuery(
    owner: string, dueBefore: Option<int>, owedBy: Option<Id>, includeSuperseded: bool)

  /** The Cypher filter, over the columns only. A missing deadline fails any deadline bound. */
  predicate ColumnsMatch(row: Row, q: OpenQuery) {
    && IsClaimRow(row)
    && row.owner == q.owner
    && row.cols.fulfillment == Some(Open)
    && (q.includeSuperseded || row.cols.claimStatus == Some(Active))
    && (q.dueBefore.None? || (row.cols.dueAt.Some? && row.cols.dueAt.value < q.dueBefore.value))
    && (q.owedBy.None? || row.cols.owedBy == q.owedBy)
  }

  /** The same question asked of the claim itself. */
  predicate IsOutstanding(c: Claim, q: OpenQuery) {
    && c.owner == q.owner
    && c.commitment.Some?
    && c.commitment.value.fulfillment == Open
    && (q.includeSuperseded || c.status == Active)
    && (q.dueBefore.Some? ==> c.commitment.value.dueAt.Some? && c.commitment.value.dueAt.value < q.dueBefore.value)
    && (q.owedBy.Some? ==> c.commitment.value.owedBy == q.owedBy.value)
  }

  /** ORDER BY the deadline column, then id; Cypher sorts a missing value last. */
  function DeadlineRank(nodes: map<Id, Row>): Id -> Rank {
    id => if id in nodes && nodes[id].cols.dueAt.Some? then Rank(0, nodes[id].cols.dueAt.value) else Rank(1, 0)
  }

  /** `a` is due no later than `b`, a missing deadline being the latest. */
  predicate DueNoLater(a: Claim, b: Claim)
    requires a.commitment.Some? && b.commitment.Some?
  {
    var (x, y) := (a.commitment.value.dueAt, b.commitment.value.dueAt);
    y.None? || (x.Some? && x.value <= y.value)
  }

  class Neo4jStore {
    var nodes: map<Id, Row>
    var edges: set<Edge>

    ghost function State(): DB
      reads this
    {
      DB(nodes, edges)
    }

    constructor ()
      ensures State() == EMPTY
    {
      nodes, edges := map[], {};
    }

    method Upsert(node: Node)
      modifies this
      ensures State() == Upserted(old(State()), node)
      ensures old(Indexed(State())) && node.LabelMatchesId() ==> Indexed(State())
    {
      nodes := nodes[node.Id() := Row(node.Label(), node, node.Owner(), node.OccurredAt(), Promoted(node))];
    }

    method Link(from: Id, rel: Rel, to: Id)
      modifies this`edges
      ensures State() == Linked(old(State()), from, rel, to)
    {
      if from in nodes && to in nodes {
        edges := edges + {Edge(from, rel, to)};
      }
    }

    /** Raises for an unknown status, but only once a claim has been found to change; and for a row labelled
        a claim that does not read back as one. */
    method SetClaimStatus(id: Id, status: string) returns (r: Result<()>)
      modifies this`nodes
      ensures var s := ParseStatus(status);
              && (r.Raised? <==> (s.None? && HasClaim(old(State()), id)) || IsUnreadable(old(State()), id))
              && State() == (if s.Some? then StatusSet(old(State()), id, s.value) else old(State()))
      ensures old(Indexed(State())) ==> Indexed(State())
    {
      if id !in nodes || nodes[id].kind != ClaimLabel {
        return Ok(());
      }
      if !nodes[id].payload.ClaimNode? {
        return Raised("the payload is not a claim");
      }
      var s := ParseStatus(status);
      if s.None? {
        return Raised("not a valid ClaimStatus");
      }
      var claim := ClaimNode(nodes[id].payload.claim.(status := s.value));
      nodes := nodes[id := nodes[id].(payload := claim, cols := Promoted(claim))];
      return Ok(());
    }

    /** Raises for an unknown state, and for a claim that promised nothing; then nothing changes. */
    method SetFulfillment(id: Id, fulfillment: string, settledAt: Option<int>) returns (r: Result<Option<Claim>>)
      modifies this`nodes
      ensures var s := ParseFulfillment(fulfillment);
              && (r.Raised? <==> || s.None? || IsUnreadable(old(State()), id)
                                 || (HasClaim(old(State()), id) && old(nodes[id].payload.claim.commitment.None?)))
              && State() == (if s.Some? then FulfillmentSet(old(State()), id, s.value, settledAt) else old(State()))
              && (r.Ok? ==> r.value == if HasClaim(State(), id) then Some(nodes[id].payload.claim) else None)
      ensures r == Ok(None) || r.Raised? ==> State() == old(State())
      ensures r.Ok? && r.value.Some? ==>
                && old(HasClaim(State(), id)) && old(nodes[id].payload.claim.commitment.Some?)
                && IsSettled(r.value.value, old(nodes[id].payload.claim), fulfillment, settledAt)
      ensures old(Indexed(State())) ==> Indexed(State())
    {
      hide ParseFulfillment, Settled, IsSettled, Promoted;
      var s := ParseFulfillment(fulfillment);
      if s.None? {
        return Raised("not a valid FulfillmentStatus");
      }
      if id !in nodes || nodes[id].kind != ClaimLabel {
        return Ok(None);
      }
      if !nodes[id].payload.ClaimNode? {
        return Raised("the payload is not a claim");
      }
      var claim := nodes[id].payload.claim;
      if claim.commitment.None? {
        return Raised("claim has no commitment facet");
      }
      SettledByName(claim, fulfillment, settledAt);
      claim := claim.(commitment := Some(Settled(claim.commitment.value, s.value, settledAt)));
      nodes := nodes[id := nodes[id].(payload := ClaimNode(claim), cols := Promoted(ClaimNode(claim)))];
      return Ok(Some(claim));
    }

    method ReplacePayload(node: Node)
      modifies this`nodes
      ensures State() == Replaced(old(State()), node)
    {
      var id := node.Id();
      if id in nodes {
        nodes := nodes[id := nodes[id].(payload := node, cols := Promoted(node))];
      }
    }

    method Get(id: Id) returns (r: Option<Node>)
      ensures r == if id in nodes then Some(nodes[id].payload) else None
    {
      return if id in nodes then Some(nodes[id].payload) else None;
    }

    /** The rows in whatever order the database returns them: `order` is that order. */
    method ClaimsAbout(owner: string, subjects: seq<Id>) returns (r: seq<Claim>, ghost order: seq<Id>)
      ensures Enumerates(order, ClaimsAboutIds(State(), owner, subjects))
      ensures forall i :: 0 <= i < |order| ==> HasClaim(State(), order[i])
      ensures r == Hydrated(State(), order)
    {
      var todo := set id | id in nodes && IsClaimRow(nodes[id]) && nodes[id].owner == owner
                           && exists e :: e in subjects && e in nodes && nodes[e].kind == EntityLabel
                                          && Edge(id, About, e) in edges;
      assert todo == ClaimsAboutIds(State(), owner, subjects);
      r, order := [], [];
      while todo != {}
        invariant todo !! Elements(order) && todo + Elements(order) == ClaimsAboutIds(State(), owner, subjects)
        invariant Distinct(order)
        invariant forall i :: 0 <= i < |order| ==> HasClaim(State(), order[i])
        invariant r == Hydrated(State(), order)
        decreases todo
      {
        var id :| id in todo;
        ghost var was := order;
        r, order := r + [nodes[id].payload.claim], order + [id];
        assert Elements(order) == Elements(was) + {id};
        assert forall i :: 0 <= i < |was| ==> was[i] in Elements(was);
        todo := todo - {id};
      }
    }

    method OpenCommitments(q: OpenQuery) returns (r: seq<Claim>)
      ensures r == OpenClaims(State(), q)
    {
      var rows := nodes;
      var hits := set id | id in rows && ColumnsMatch(rows[id], q);
      assert hits == OpenIds(State(), q);
      var ordered := Arrange(DeadlineRank(rows), hits);
      assert ordered == OpenOrder(State(), q);
      r := seq(|ordered|, i requires 0 <= i < |ordered| && HasClaim(DB(rows, {}), ordered[i]) =>
               rows[ordered[i]].payload.claim);
    }
  }

  // ---- the open-commitments read answers from columns what it means of payloads ----

  ghost function OpenIds(db: DB, q: OpenQuery): set<Id> {
    set id | id in db.nodes && ColumnsMatch(db.nodes[id], q)
  }

  ghost function OpenOrder(db: DB, q: OpenQuery): (r: seq<Id>)
    ensures forall i :: 0 <= i < |r| ==> r[i] in OpenIds(db, q) && HasClaim(db, r[i])
    ensures forall id :: id in OpenIds(db, q) ==> id in r
    ensures Ascending(DeadlineRank(db.nodes), r)
  {
    var r := Arrange(DeadlineRank(db.nodes), OpenIds(db, q));
    assert forall i :: 0 <= i < |r| ==> r[i] in Elements(r);
    assert forall id :: id in OpenIds(db, q) ==> id in Elements(r);
    r
  }

  ghost function OpenClaims(db: DB, q: OpenQuery): seq<Claim> {
    Hydrated(db, OpenOrder(db, q))
  }

  lemma ColumnsMatchMeans(db: DB, q: OpenQuery, id: Id)
    requires ColumnsAgree(db) && HasClaim(db, id)
    ensures ColumnsMatch(db.nodes[id], q) <==> IsOutstanding(db.nodes[id].payload.claim, q)
  {
  }

  /** The column filter returns exactly the claims that are outstanding by their payload. */
  lemma OpenCommitmentsExact(db: DB, q: OpenQuery, c: Claim)
    requires ColumnsAgree(db)
    ensures c in OpenClaims(db, q) <==> HasClaim(db, c.id) && db.nodes[c.id].payload.claim == c && IsOutstanding(c, q)
  {
    var ids := OpenOrder(db, q);
    if c in OpenClaims(db, q) {
      var i :| 0 <= i < |ids| && OpenClaims(db, q)[i] == c;
      assert ids[i] == c.id;
      ColumnsMatchMeans(db, q, c.id);
    }
    if HasClaim(db, c.id) && db.nodes[c.id].payload.claim == c && IsOutstanding(c, q) {
      ColumnsMatchMeans(db, q, c.id);
      assert c.id in Elements(ids);
      var i :| 0 <= i < |ids| && ids[i] == c.id;
      assert OpenClaims(db, q)[i] == c;
    }
  }

  /** They come earliest deadline first, no deadline last, ids breaking ties, none twice. */
  lemma OpenCommitmentsOrdered(db: DB, q: OpenQuery, i: nat, j: nat)
    requires ColumnsAgree(db) && i < j < |OpenClaims(db, q)|
    ensures var (a, b) := (OpenClaims(db, q)[i], OpenClaims(db, q)[j]);
            && a.commitment.Some? && b.commitment.Some?
            && DueNoLater(a, b)
            && (a.commitment.value.dueAt == b.commitment.value.dueAt ==> StrLess(a.id, b.id))
  {
    var rank := DeadlineRank(db.nodes);
    var ids := OpenOrder(db, q);
    ColumnsMatchMeans(db, q, ids[i]);
    ColumnsMatchMeans(db, q, ids[j]);
    assert Before(rank, ids[i], ids[j]);
  }

  // ---- the columns agree after any sequence of writes ----

  datatype StoreWrite =
    | Upserting(node: Node)
    | Linking(from: Id, rel: Rel, to: Id)
    | SettingStatus(id: Id, status: string)
    | SettingFulfillment(id: Id, fulfillment: string, settledAt: Option<int>)
    | Replacing(node: Node)

  /** A write as the store performs it; one that raises changes nothing. */
  function Apply(db: DB, w: StoreWrite): DB {
    match w
    case Upserting(node) => Upserted(db, node)
    case Linking(from, rel, to) => Linked(db, from, rel, to)
    case SettingStatus(id, s) =>
      if ParseStatus(s).Some? then StatusSet(db, id, ParseStatus(s).value) else db
    case SettingFulfillment(id, f, at) =>
      if ParseFulfillment(f).Some? then FulfillmentSet(db, id, ParseFulfillment(f).value, at) else db
    case Replacing(node) => Replaced(db, node)
  }

  function ApplyAll(db: DB, ws: seq<StoreWrite>): DB
    decreases |ws|
  {
    if ws == [] then db else ApplyAll(Apply(db, ws[0]), ws[1..])
  }

  /** Whatever is written, the five promoted columns of every row are those of its payload. */
  lemma {:induction false} ColumnsAlwaysPromoted(db: DB, ws: seq<StoreWrite>)
    requires ColumnsPromoted(db)
    ensures ColumnsPromoted(ApplyAll(db, ws))
    decreases |ws|
  {
    if ws != [] {
      ColumnsAlwaysPromoted(Apply(db, ws[0]), ws[1..]);
    }
  }

  /** `replace_payload` leaves the label and the owner column, so a replacement must keep both. */
  predicate KeepsPlace(db: DB, w: StoreWrite) {
    w.Replacing? && w.node.Id() in db.nodes ==>
      && w.node.Owner() == db.nodes[w.node.Id()].owner
      && w.node.Label() == db.nodes[w.node.Id()].kind
  }

  ghost predicate AllKeepPlace(db: DB, ws: seq<StoreWrite>)
    decreases |ws|
  {
    ws != [] ==> KeepsPlace(db, ws[0]) && AllKeepPlace(Apply(db, ws[0]), ws[1..])
  }

  lemma {:induction false} ColumnsAlwaysAgree(db: DB, ws: seq<StoreWrite>)
    requires ColumnsAgree(db) && AllKeepPlace(db, ws)
    ensures ColumnsAgree(ApplyAll(db, ws))
    decreases |ws|
  {
    if ws != [] {
      WriteKeepsAgreement(db, ws[0]);
      ColumnsAlwaysAgree(Apply(db, ws[0]), ws[1..]);
    }
  }

  lemma WriteKeepsAgreement(db: DB, w: StoreWrite)
    requires ColumnsAgree(db) && KeepsPlace(db, w)
    ensures ColumnsAgree(Apply(db, w))
  {
  }

  /** A replacement leaves a row that agrees with its payload exactly when it keeps owner and label. */
  lemma ReplacementKeepsColumns(db: DB, node: Node)
    requires ColumnsAgree(db) && node.Id() in db.nodes
    ensures ColumnsAgree(Replaced(db, node))
       <==> node.Owner() == db.nodes[node.Id()].owner && node.Label() == db.nodes[node.Id()].kind
  {
    var row := Replaced(db, node).nodes[node.Id()];
    assert row.payload == node && row.owner == db.nodes[node.Id()].owner && row.kind == db.nodes[node.Id()].kind;
  }
}
