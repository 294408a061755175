/** Bounded undirected walks: what a variable-length Cypher pattern reaches, and how far away it is. */
module Walks {
  import opened Basics
  import opened Schema
  import opened Store

  // ---- the pattern's own meaning: trails, which use no relationship twice ----

  predicate Joins(e: Edge, a: Id, b: Id) {
    (e.from == a && e.to == b) || (e.from == b && e.to == a)
  }

  ghost predicate IsTrail(g: set<Edge>, nodes: seq<Id>, es: seq<Edge>) {
    && |nodes| == |es| + 1
    && (forall i :: 0 <= i < |es| ==> es[i] in g && Joins(es[i], nodes[i], nodes[i + 1]))
    && Distinct(es)
  }

  /** `(seed)-[*n]-(t)` has a match for some seed. */
  ghost predicate Trails(g: set<Edge>, seeds: set<Id>, n: nat, t: Id) {
    exists nodes, es :: IsTrail(g, nodes, es) && |es| == n && nodes[0] in seeds && nodes[n] == t
  }

  // ---- the same by layers ----

  ghost function Neighbours(g: set<Edge>, s: set<Id>): set<Id> {
    (set e | e in g && e.from in s :: e.to) + (set e | e in g && e.to in s :: e.from)
  }

  ghost function Ball(g: set<Edge>, s: set<Id>, k: nat): set<Id> {
    if k == 0 then s else Ball(g, s, k - 1) + Neighbours(g, Ball(g, s, k - 1))
  }

  /** The distance of `t` from the seeds is exactly k. */
  ghost predicate At(g: set<Edge>, s: set<Id>, k: nat, t: Id) {
    t in Ball(g, s, k) && (k > 0 ==> t !in Ball(g, s, k - 1))
  }

  lemma {:induction false} BallGrows(g: set<Edge>, s: set<Id>, j: nat, k: nat)
    requires j <= k
    ensures Ball(g, s, j) <= Ball(g, s, k)
  {
    if j < k {
      BallGrows(g, s, j, k - 1);
    }
  }

  lemma BallStep(g: set<Edge>, s: set<Id>, k: nat, e: Edge, a: Id, b: Id)
    requires e in g && Joins(e, a, b) && a in Ball(g, s, k)
    ensures b in Ball(g, s, k + 1)
  {
  }

  lemma {:induction false} HasDistance(g: set<Edge>, s: set<Id>, k: nat, t: Id) returns (d: nat)
    requires t in Ball(g, s, k)
    ensures d <= k && At(g, s, d, t)
  {
    if k == 0 || t !in Ball(g, s, k - 1) {
      d := k;
    } else {
      d := HasDistance(g, s, k - 1, t);
    }
  }

  lemma DistanceUnique(g: set<Edge>, s: set<Id>, j: nat, k: nat, t: Id)
    requires At(g, s, j, t) && At(g, s, k, t)
    ensures j == k
  {
    if j < k {
      BallGrows(g, s, j, k - 1);
    } else if k < j {
      BallGrows(g, s, k, j - 1);
    }
  }

  /** A trail stays within the layers. */
  lemma {:induction false} TrailInBall(g: set<Edge>, s: set<Id>, nodes: seq<Id>, es: seq<Edge>, i: nat)
    requires IsTrail(g, nodes, es) && i <= |es| && nodes[0] in s
    ensures nodes[i] in Ball(g, s, i)
  {
    if i > 0 {
      TrailInBall(g, s, nodes, es, i - 1);
      assert es[i - 1] in g && Joins(es[i - 1], nodes[i - 1], nodes[i]);
    }
  }

  lemma StepBack(g: set<Edge>, s: set<Id>, k: nat, t: Id) returns (u: Id, e: Edge)
    requires k > 0 && At(g, s, k, t)
    ensures At(g, s, k - 1, u) && e in g && Joins(e, u, t)
  {
    e :| e in g && ((e.from in Ball(g, s, k - 1) && e.to == t) || (e.to in Ball(g, s, k - 1) && e.from == t));
    u := if e.to == t && e.from in Ball(g, s, k - 1) then e.from else e.to;
    if k > 1 {
      var inner := Ball(g, s, k - 2);
      assert u in inner ==> t in Neighbours(g, inner);
    }
  }

  /** An edge between nearer nodes is not one that touches a node at distance k. */
  lemma NearerEdgeDiffers(g: set<Edge>, s: set<Id>, k: nat, t: Id, u: Id, e: Edge, a: Id, b: Id, near: Edge)
    requires k > 0 && t !in Ball(g, s, k - 1) && a in Ball(g, s, k - 1) && b in Ball(g, s, k - 1)
    requires Joins(e, u, t) && Joins(near, a, b)
    ensures near != e
  {
  }

  /** Every node at distance k ends a trail of length k, node i of which is at distance i;
      such a trail repeats no relationship, because each joins two successive layers. */
  lemma {:induction false} TrailTo(g: set<Edge>, s: set<Id>, k: nat, t: Id) returns (nodes: seq<Id>, es: seq<Edge>)
    requires At(g, s, k, t)
    ensures IsTrail(g, nodes, es) && |es| == k && nodes[0] in s && nodes[k] == t
    ensures forall i :: 0 <= i <= k ==> At(g, s, i, nodes[i])
  {
    if k == 0 {
      nodes, es := [t], [];
    } else {
      hide Ball, Neighbours, At, IsTrail, Joins;
      var u, e := StepBack(g, s, k, t);
      var before, used := TrailTo(g, s, k - 1, u);
      forall i | 0 <= i < k - 1 ensures used[i] != e {
        EdgeIsNew(g, s, k, t, u, e, before, used, i);
      }
      assert |before| == k by {
        TrailLength(g, before, used);
      }
      TrailSnoc(g, before, used, t, e);
      nodes, es := before + [t], used + [e];
    }
  }

  lemma TrailLength(g: set<Edge>, nodes: seq<Id>, es: seq<Edge>)
    requires IsTrail(g, nodes, es)
    ensures |nodes| == |es| + 1
  {
  }

  /** The last edge joins the outermost layer, which the trail up to it has not reached. */
  lemma EdgeIsNew(g: set<Edge>, s: set<Id>, k: nat, t: Id, u: Id, e: Edge, before: seq<Id>, used: seq<Edge>, i: nat)
    requires k > 0 && At(g, s, k, t) && Joins(e, u, t) && i < k - 1 == |used|
    requires IsTrail(g, before, used) && forall j :: 0 <= j <= k - 1 ==> At(g, s, j, before[j])
    ensures used[i] != e
  {
    hide Ball, Neighbours;
    assert At(g, s, i, before[i]) && At(g, s, i + 1, before[i + 1]);
    BallGrows(g, s, i, k - 1);
    BallGrows(g, s, i + 1, k - 1);
    NearerEdgeDiffers(g, s, k, t, u, e, before[i], before[i + 1], used[i]);
  }

  lemma TrailSnoc(g: set<Edge>, nodes: seq<Id>, es: seq<Edge>, t: Id, e: Edge)
    requires IsTrail(g, nodes, es) && e in g && Joins(e, nodes[|es|], t) && forall i :: 0 <= i < |es| ==> es[i] != e
    ensures IsTrail(g, nodes + [t], es + [e])
  {
    var (ns, all) := (nodes + [t], es + [e]);
    forall i | 0 <= i < |all| ensures all[i] in g && Joins(all[i], ns[i], ns[i + 1]) {
    }
  }

  /** The shortest trail is as long as the distance, and no node is trailed to from further off. */
  lemma TrailsAreDistances(g: set<Edge>, s: set<Id>, n: nat, t: Id)
    ensures Trails(g, s, n, t) ==> t in Ball(g, s, n)
    ensures At(g, s, n, t) ==> Trails(g, s, n, t)
  {
    if Trails(g, s, n, t) {
      var nodes, es :| IsTrail(g, nodes, es) && |es| == n && nodes[0] in s && nodes[n] == t;
      TrailInBall(g, s, nodes, es, n);
    }
    if At(g, s, n, t) {
      var nodes, es := TrailTo(g, s, n, t);
    }
  }

  // ---- closed sets ----

  /** No edge leaves or enters the set. */
  ghost predicate Closed(g: set<Edge>, c: set<Id>) {
    forall e :: e in g ==> (e.from in c <==> e.to in c)
  }

  lemma {:induction false} BallInClosed(g: set<Edge>, s: set<Id>, c: set<Id>, k: nat)
    requires Closed(g, c) && s <= c
    ensures Ball(g, s, k) <= c
  {
    if k > 0 {
      BallInClosed(g, s, c, k - 1);
    }
  }

  lemma {:induction false} BallAvoidsClosed(g: set<Edge>, s: set<Id>, c: set<Id>, k: nat)
    requires Closed(g, c) && s !! c
    ensures Ball(g, s, k) !! c
  {
    if k > 0 {
      BallAvoidsClosed(g, s, c, k - 1);
    }
  }

  lemma ClosedHasNeighbours(g: set<Edge>, c: set<Id>)
    ensures Closed(g, c) <==> Neighbours(g, c) <= c
  {
    if Neighbours(g, c) <= c {
      forall e | e in g ensures e.from in c <==> e.to in c {
        if e.from in c {
          assert e.to in Neighbours(g, c);
        }
        if e.to in c {
          assert e.from in Neighbours(g, c);
        }
      }
    }
  }

  lemma NextLayer(g: set<Edge>, s: set<Id>, k: nat)
    requires k > 0
    ensures Ball(g, s, k) == Ball(g, s, k - 1) + Neighbours(g, Ball(g, s, k - 1))
  {
  }

  /** A layer that adds nothing is the last; until then each adds at least one node. */
  lemma {:induction false} BallFillsUp(g: set<Edge>, s: set<Id>, k: nat)
    requires s != {}
    ensures |Ball(g, s, k)| >= k + 1 || Closed(g, Ball(g, s, k))
  {
    hide Closed, Neighbours;
    if k == 0 {
      var x :| x in s;
      Larger({}, s, x);
    } else {
      hide Ball;
      NextLayer(g, s, k);
      BallFillsUp(g, s, k - 1);
      var (before, after) := (Ball(g, s, k - 1), Ball(g, s, k));
      ClosedHasNeighbours(g, before);
      if after <= before {
        assert after == before;
      } else {
        var x :| x in after && x !in before;
        Larger(before, after, x);
      }
    }
  }

  lemma Larger<T>(a: set<T>, b: set<T>, x: T)
    requires a <= b && x in b && x !in a
    ensures |b| >= |a| + 1
  {
    assert |b - a| >= 1 by {
      assert x in b - a;
    }
    assert |b| == |a| + |b - a| by {
      assert a + (b - a) == b;
    }
  }

  lemma SubsetFills<T>(a: set<T>, b: set<T>)
    requires a <= b && |a| >= |b|
    ensures a == b
  {
    if x :| x in b && x !in a {
      Larger(a, b, x);
    }
  }

  /** In a closed set of at most k + 1 nodes, k hops are enough to reach everything reachable. */
  lemma BallIsComponent(g: set<Edge>, x: Id, c: set<Id>, k: nat)
    requires Closed(g, c) && x in c && |c| <= k + 1
    ensures Closed(g, Ball(g, {x}, k))
  {
    BallFillsUp(g, {x}, k);
    BallInClosed(g, {x}, c, k);
    if |Ball(g, {x}, k)| >= k + 1 {
      SubsetFills(Ball(g, {x}, k), c);
    }
  }

  lemma InOwnBall(g: set<Edge>, x: Id, k: nat)
    ensures x in Ball(g, {x}, k)
  {
    BallGrows(g, {x}, 0, k);
  }

  /** So every member of a component of at most k + 1 nodes sees the same k-hop ball. */
  lemma MembersSeeTheSame(g: set<Edge>, x: Id, y: Id, c: set<Id>, k: nat)
    requires Closed(g, c) && x in c && |c| <= k + 1 && y in Ball(g, {x}, k)
    ensures Ball(g, {y}, k) == Ball(g, {x}, k)
  {
    var (fromX, fromY) := (Ball(g, {x}, k), Ball(g, {y}, k));
    BallInClosed(g, {x}, c, k);
    BallIsComponent(g, x, c, k);
    BallIsComponent(g, y, c, k);
    BallInClosed(g, {y}, fromX, k);
    InOwnBall(g, y, k);
    if x !in fromY {
      BallAvoidsClosed(g, {x}, fromY, k);
      assert false;
    }
    BallInClosed(g, {x}, fromY, k);
  }
}
