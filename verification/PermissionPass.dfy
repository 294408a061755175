/** The separate pass between a blind walk and the assembly of its answer. */
module PermissionPass {
  import opened Basics
  import opened Permissions
  import opened Schema

  /** A walked object under its stored id. */
  datatype Found = Found(id: Id, node: Node)

  /** The scope's answer for one object: None when it may be shown. */
  function Verdict(scope: Scope, node: Node, now: int): Option<DenyReason> {
    match Evaluate(scope, node.Acl(), now)
    case Allow => None
    case Deny(reason) => Some(reason)
  }

  function Verdicts(scope: Scope, found: seq<Found>, now: int): map<Id, Option<DenyReason>> {
    if found == [] then map[]
    else
      var last := found[|found| - 1];
      Verdicts(scope, found[..|found| - 1], now)[last.id := Verdict(scope, last.node, now)]
  }

  function Denials(scope: Scope, found: seq<Found>, now: int): seq<(Id, DenyReason)> {
    if found == [] then []
    else
      var (before, last) := (Denials(scope, found[..|found| - 1], now), found[|found| - 1]);
      match Verdict(scope, last.node, now)
      case None => before
      case Some(reason) => before + [(last.id, reason)]
  }

  /** The pass over the walk; assembling begins only afterwards. */
  method CheckPermissions(scope: Scope, found: seq<Found>, now: int)
    returns (verdicts: map<Id, Option<DenyReason>>, denials: seq<(Id, DenyReason)>)
    ensures verdicts == Verdicts(scope, found, now) && denials == Denials(scope, found, now)
  {
    verdicts, denials := map[], [];
    var i := 0;
    while i < |found|
      invariant 0 <= i <= |found|
      invariant verdicts == Verdicts(scope, found[..i], now) && denials == Denials(scope, found[..i], now)
    {
      assert found[..i + 1][..i] == found[..i];
      var decision := Evaluate(scope, found[i].node.Acl(), now);
      verdicts := verdicts[found[i].id := if decision.Allow? then None else Some(decision.reason)];
      if !decision.Allow? {
        denials := denials + [(found[i].id, decision.reason)];
      }
      i := i + 1;
    }
    assert found[..i] == found;
  }

  // ---- what the pass leaves ----

  /** The dict of walked objects by id. */
  function ById(found: seq<Found>): map<Id, Node> {
    if found == [] then map[] else ById(found[..|found| - 1])[found[|found| - 1].id := found[|found| - 1].node]
  }

  ghost predicate DistinctIds(found: seq<Found>) {
    forall i, j :: 0 <= i < j < |found| ==> found[i].id != found[j].id
  }

  lemma {:induction false} PassKeys(scope: Scope, found: seq<Found>, now: int)
    ensures Verdicts(scope, found, now).Keys == ById(found).Keys == set f | f in found :: f.id
  {
    if found != [] {
      var (init, last) := (found[..|found| - 1], found[|found| - 1]);
      PassKeys(scope, init, now);
      assert found == init + [last];
    }
  }

  lemma {:induction false} PassAt(scope: Scope, found: seq<Found>, now: int, i: nat)
    requires DistinctIds(found) && i < |found|
    ensures var id := found[i].id;
            && id in ById(found) && ById(found)[id] == found[i].node
            && id in Verdicts(scope, found, now)
               && Verdicts(scope, found, now)[id] == Verdict(scope, found[i].node, now)
  {
    hide Verdict;
    var n := |found| - 1;
    if i < n {
      assert found[..n][i] == found[i];
      PassAt(scope, found[..n], now, i);
    }
  }

  /** What the dicts hold: every walked object under its id, with its own verdict. */
  lemma PassMeans(scope: Scope, found: seq<Found>, now: int, id: Id)
    requires DistinctIds(found) && id in ById(found)
    ensures id in Verdicts(scope, found, now) && Verdicts(scope, found, now)[id] == Verdict(scope, ById(found)[id], now)
    ensures Found(id, ById(found)[id]) in found
  {
    hide Verdict;
    PassKeys(scope, found, now);
    var f :| f in found && f.id == id;
    var i :| 0 <= i < |found| && found[i] == f;
    PassAt(scope, found, now, i);
  }

  /** The permitted part of a walk. */
  function Visible(nodes: map<Id, Node>, verdicts: map<Id, Option<DenyReason>>): map<Id, Node> {
    map id | id in nodes && (id !in verdicts || verdicts[id] == None) :: nodes[id]
  }

  lemma VisibleSnoc(nodes: map<Id, Node>, verdicts: map<Id, Option<DenyReason>>, id: Id, node: Node,
                    v: Option<DenyReason>)
    requires nodes.Keys == verdicts.Keys && id !in nodes
    ensures Visible(nodes[id := node], verdicts[id := v])
         == if v == None then Visible(nodes, verdicts)[id := node] else Visible(nodes, verdicts)
    ensures id !in Visible(nodes, verdicts)
  {
  }

  /** Permitted and denied objects add up to the walked ones. */
  lemma {:induction false} VisiblePlusDenied(scope: Scope, found: seq<Found>, now: int)
    requires DistinctIds(found)
    ensures |Visible(ById(found), Verdicts(scope, found, now))| + |Denials(scope, found, now)| == |found|
            == |ById(found)|
  {
    hide Verdict;
    if found != [] {
      var (init, last) := (found[..|found| - 1], found[|found| - 1]);
      VisiblePlusDenied(scope, init, now);
      PassKeys(scope, init, now);
      assert forall i :: 0 <= i < |init| ==> init[i].id != last.id;
      VisibleSnoc(ById(init), Verdicts(scope, init, now), last.id, last.node, Verdict(scope, last.node, now));
      hide Visible, DistinctIds;
      MapSnoc(Visible(ById(init), Verdicts(scope, init, now)), last.id, last.node);
      MapSnoc(ById(init), last.id, last.node);
    }
  }

  lemma MapSnoc(m: map<Id, Node>, id: Id, node: Node)
    requires id !in m
    ensures |m[id := node]| == |m| + 1
  {
    assert m[id := node].Keys == m.Keys + {id};
    assert |m[id := node]| == |m[id := node].Keys| && |m| == |m.Keys|;
  }

  // ---- walks that differ only in what is denied ----

  function Reason(verdicts: map<Id, Option<DenyReason>>, id: Id): Option<DenyReason> {
    if id in verdicts then verdicts[id] else None
  }

  /** The same ids with the same verdicts; only the payloads of denied objects may differ. */
  ghost predicate SamePermitted(a: seq<Found>, b: seq<Found>, scope: Scope, now: int) {
    && |a| == |b|
    && forall i :: 0 <= i < |a| ==>
         && a[i].id == b[i].id
         && Verdict(scope, a[i].node, now) == Verdict(scope, b[i].node, now)
         && (Verdict(scope, a[i].node, now) == None ==> a[i].node == b[i].node)
  }

  lemma {:induction false} SamePass(a: seq<Found>, b: seq<Found>, scope: Scope, now: int)
    requires SamePermitted(a, b, scope, now)
    ensures Verdicts(scope, a, now) == Verdicts(scope, b, now) && Denials(scope, a, now) == Denials(scope, b, now)
    ensures ById(a).Keys == ById(b).Keys
    ensures DistinctIds(a) ==> DistinctIds(b)
  {
    hide Verdict;
    if a != [] {
      SamePass(a[..|a| - 1], b[..|b| - 1], scope, now);
    }
  }

  lemma SamePayload(a: seq<Found>, b: seq<Found>, scope: Scope, now: int, id: Id)
    requires SamePermitted(a, b, scope, now) && DistinctIds(a) && id in ById(a)
    ensures id in ById(b)
    ensures Reason(Verdicts(scope, a, now), id) == None ==> ById(a)[id] == ById(b)[id]
  {
    hide Verdict;
    SamePass(a, b, scope, now);
    PassKeys(scope, a, now);
    var f :| f in a && f.id == id;
    var i :| 0 <= i < |a| && a[i] == f;
    PassAt(scope, a, now, i);
    PassAt(scope, b, now, i);
  }

  /** Every walked object denied, and nothing else, is on the list of denials. */
  lemma {:induction false} DenialsMean(scope: Scope, found: seq<Found>, now: int)
    requires DistinctIds(found)
    ensures forall d :: d in Denials(scope, found, now) <==>
              d.0 in Verdicts(scope, found, now) && Verdicts(scope, found, now)[d.0] == Some(d.1)
  {
    hide Verdict;
    if found != [] {
      var (init, last) := (found[..|found| - 1], found[|found| - 1]);
      DenialsMean(scope, init, now);
      PassKeys(scope, init, now);
      assert forall i :: 0 <= i < |init| ==> init[i].id != last.id;
      assert last.id !in Verdicts(scope, init, now);
    }
  }
}
