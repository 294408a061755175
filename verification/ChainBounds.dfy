/** How long a supersession chain may grow before its ends stop seeing each other. */
module ChainBounds {
  import opened Basics
  import Permissions
  import opened Schema
  import opened Statements
  import opened Store
  import opened Resolver
  import opened Ledger
  import opened Ingestion
  import opened Writing
  import opened Runs
  import opened Histories
  import opened Beliefs
  import opened Walks
  import opened GraphReads
  import opened Tellings

  // ---- a deadline that keeps moving ----

  const OWNER := "o"
  const ABOUT_ID := "ent_x"
  const ACL := Permissions.ObjectAcl(OWNER, ["s"], Permissions.Personal, [Permissions.Project], 0, [])
  const SUBJECT := Entity(ABOUT_ID, OWNER, Permissions.Project, "x", [], 0, 0, [], ACL)

  function LineId(i: nat): (id: Id)
    ensures |id| == i + 4 && "clm_" <= id
  {
    "clm_" + seq(i, _ => 'a')
  }

  /** The i-th word on one commitment: due at i, said at i. */
  function LineClaim(i: nat): Claim {
    Claim(LineId(i), OWNER, "report due", [ABOUT_ID], Active, [], [], None,
          Some(Commitment(ABOUT_ID, None, Some(i), Open, None)), i, [], ACL)
  }

  lemma LineCanBeTold(i: nat)
    ensures CanTell(LineClaim(i), [SUBJECT])
  {
    assert SUBJECT in [SUBJECT];
  }

  lemma LineRivals(i: nat, j: nat, a: Claim, b: Claim)
    requires SameClaim(a, LineClaim(i)) && SameClaim(b, LineClaim(j))
    ensures Rivals(a, b) <==> i != j
    ensures ShareSubject(a, b)
  {
    hide Topic, Tokens;
    assert ABOUT_ID in a.subjects && ABOUT_ID in b.subjects;
  }

  /** The i-th claim once n have been told: only the last is believed, each supersedes the one before it. */
  ghost predicate IsLineClaim(c: Claim, i: nat, n: nat) {
    && SameClaim(c, LineClaim(i))
    && c.status == (if i + 1 == n then Active else Superseded)
    && (forall s :: s in c.supersedes <==> i > 0 && s == LineId(i - 1))
  }

  ghost predicate IsLine(cs: Claims, n: nat) {
    && (forall id :: id in cs <==> exists i: nat :: i < n && id == LineId(i))
    && (forall i: nat :: i < n ==> LineId(i) in cs && IsLineClaim(cs[LineId(i)], i, n))
  }

  lemma NewIsMissing(cs: Claims, n: nat)
    requires IsLine(cs, n)
    ensures LineId(n) !in cs
  {
    hide IsLineClaim;
    assert forall i: nat :: i < n ==> |LineId(i)| == i + 4;
  }

  /** The newest claim meets the whole line, and supersedes its active end. */
  lemma NewestBeats(cs: Claims, n: nat, stored: seq<Claim>)
    requires IsLine(cs, n) && IsStale(cs, LineClaim(n), stored)
    ensures var q := MeetAll(LineClaim(n), stored); IsLineClaim(q, n, n + 1)
  {
    LineUnresolved(n);
    hide MeetAll, IsLine, IsStale, Beats, Ties, BeatenBy, LineClaim, LineId, Unresolved;
    var (c, q) := (LineClaim(n), MeetAll(LineClaim(n), stored));
    MeetAllMeans(c, stored);
    forall s ensures !Ties(c, stored, s) && !BeatenBy(c, stored, s) {
      NoneLater(cs, n, stored, s);
    }
    assert forall s :: s !in q.contradicts;
    NoElements(q.contradicts);
    forall s ensures s in q.supersedes <==> n > 0 && s == LineId(n - 1) {
      if Beats(c, stored, s) {
        OnlyLastIsMet(cs, n, stored, s);
      }
      if n > 0 {
        LastIsMet(cs, n, stored);
      }
    }
  }

  lemma LineUnresolved(n: nat)
    ensures Unresolved(LineClaim(n))
  {
  }

  lemma MetInLine(cs: Claims, n: nat, stored: seq<Claim>, k: nat) returns (i: nat)
    requires IsLine(cs, n) && IsStale(cs, LineClaim(n), stored) && k < |stored|
    ensures i < n && stored[k].id == LineId(i) && IsLineClaim(stored[k], i, n)
  {
    hide IsLineClaim, IsLine;
    assert stored[k] in stored;
    InLine(cs, n, stored[k].id);
    i :| i < n && stored[k].id == LineId(i) && IsLineClaim(stored[k], i, n);
  }

  lemma NoneLater(cs: Claims, n: nat, stored: seq<Claim>, s: Id)
    requires IsLine(cs, n) && IsStale(cs, LineClaim(n), stored)
    ensures !Ties(LineClaim(n), stored, s) && !BeatenBy(LineClaim(n), stored, s)
  {
    hide IsLine, IsStale, Engages;
    forall k | 0 <= k < |stored| ensures stored[k].assertedAt < n {
      var i := MetInLine(cs, n, stored, k);
    }
  }

  lemma OnlyLastIsMet(cs: Claims, n: nat, stored: seq<Claim>, s: Id)
    requires IsLine(cs, n) && IsStale(cs, LineClaim(n), stored) && Beats(LineClaim(n), stored, s)
    ensures n > 0 && s == LineId(n - 1)
  {
    hide IsLine, IsStale, Rivals;
    var k :| 0 <= k < |stored| && stored[k].id == s && Engages(LineClaim(n), stored[k]);
    var i := MetInLine(cs, n, stored, k);
    assert i + 1 == n;
  }

  lemma InLine(cs: Claims, n: nat, id: Id)
    requires IsLine(cs, n) && id in cs
    ensures exists i: nat :: i < n && id == LineId(i) && IsLineClaim(cs[id], i, n)
  {
    hide IsLineClaim;
    var i: nat :| i < n && id == LineId(i);
  }

  lemma LastIsMet(cs: Claims, n: nat, stored: seq<Claim>)
    requires n > 0 && IsLine(cs, n) && IsStale(cs, LineClaim(n), stored)
    ensures Beats(LineClaim(n), stored, LineId(n - 1))
  {
    hide Rivals, ShareSubject;
    var last := cs[LineId(n - 1)];
    assert IsLineClaim(last, n - 1, n);
    LineRivals(n, n - 1, LineClaim(n), last);
    LineRivals(n - 1, n, last, LineClaim(n));
    assert last in stored;
    var k :| 0 <= k < |stored| && stored[k] == last;
    assert LineId(n) != LineId(n - 1) by {
      assert |LineId(n)| != |LineId(n - 1)|;
    }
    assert stored[k].id == LineId(n - 1) && Engages(LineClaim(n), stored[k]);
  }

  lemma LineGrows(cs: Claims, n: nat, q: Claim)
    requires IsLine(cs, n) && IsLineClaim(q, n, n + 1)
    ensures IsLine(Absorb(cs, q), n + 1)
  {
    NewIsMissing(cs, n);
    IdOfLine(q, n, n + 1);
    hide IsLineClaim, LineId;
    var after := Absorb(cs, q);
    forall i: nat | i < n + 1 ensures LineId(i) in after && IsLineClaim(after[LineId(i)], i, n + 1) {
      if i < n {
        LineMarked(cs, n, q, i);
      }
    }
    forall id ensures id in after <==> exists i: nat :: i < n + 1 && id == LineId(i) {
      if id in cs {
        var i: nat :| i < n && id == LineId(i);
      }
    }
  }

  lemma IdOfLine(c: Claim, i: nat, n: nat)
    requires IsLineClaim(c, i, n)
    ensures c.id == LineId(i)
  {
  }

  /** The superseded end of the line is marked, and no other claim of it. */
  lemma LineMarked(cs: Claims, n: nat, q: Claim, i: nat)
    requires IsLine(cs, n) && IsLineClaim(q, n, n + 1) && i < n
    ensures var after := Absorb(cs, q); LineId(i) in after && IsLineClaim(after[LineId(i)], i, n + 1)
  {
    LineAt(cs, n, i);
    hide IsLine, LineClaim;
    assert |LineId(i)| != |LineId(n)|;
    assert i < n - 1 ==> |LineId(i)| != |LineId(n - 1)|;
    hide LineId;
  }

  /** Some reachable store holds a line of n claims. */
  lemma {:induction false} LineIsReachable(n: nat) returns (db: DB)
    ensures Reachable(db) && Inv(db) && IsLine(ClaimsOf(db), n)
  {
    hide Inv, Reachable, IsLine, CanTell, AfterRun, GoodRun, AreBatchReads, IsLineClaim;
    if n == 0 {
      db := EMPTY;
      NoLine();
    } else {
      var before := LineIsReachable(n - 1);
      var c := LineClaim(n - 1);
      LineCanBeTold(n - 1);
      var orders := TellingIsReachable(before, c, [SUBJECT]);
      LineIsNew(before, n - 1);
      db := AfterRun(before, Telling(c, [SUBJECT]), orders);
      LineTold(before, n - 1, orders);
    }
  }

  lemma NoLine()
    ensures Reachable(EMPTY) && Inv(EMPTY) && IsLine(ClaimsOf(EMPTY), 0)
  {
    EmptyIsSound();
    assert ClaimsOf(EMPTY) == map[];
    assert Leads(EMPTY, [], EMPTY);
  }

  lemma LineIsNew(db: DB, n: nat)
    requires Inv(db) && IsLine(ClaimsOf(db), n)
    ensures LineId(n) !in db.nodes
  {
    NewIsMissing(ClaimsOf(db), n);
    hide IsLine, EdgesTell, Sound;
    if LineId(n) in db.nodes {
      ClaimIdsAreClaims(db, LineId(n));
      assert false;
    }
  }

  lemma LineTold(db: DB, n: nat, orders: seq<seq<seq<Id>>>)
    requires CanRun(db, Telling(LineClaim(n), [SUBJECT]), orders) && IsLine(ClaimsOf(db), n) && LineId(n) !in db.nodes
    ensures IsLine(ClaimsOf(AfterRun(db, Telling(LineClaim(n), [SUBJECT]), orders)), n + 1)
  {
    hide CanRun, AfterRun, IsLine, ClaimsOf, Absorb, MeetAll, SupersessionsAll, IsLineClaim, IsStale;
    TellingNew(db, LineClaim(n), [SUBJECT], orders);
    AnsweredMeans(db, LineClaim(n), [SUBJECT], orders);
    var stored := Answered(db, LineClaim(n), [SUBJECT], orders);
    NewestBeats(ClaimsOf(db), n, stored);
    LineGrows(ClaimsOf(db), n, MeetAll(LineClaim(n), stored));
  }

  // ---- its graph ----

  function LineEdge(i: nat): Edge {
    Edge(LineId(i + 1), Rel.Supersedes, LineId(i))
  }

  lemma LineOwned(db: DB, n: nat, i: nat)
    requires Inv(db) && IsLine(ClaimsOf(db), n) && i < n
    ensures HasClaim(db, LineId(i)) && OwnedBy(db, OWNER, LineId(i))
  {
    hide EdgesTell, Sound;
    var id := LineId(i);
    assert id in ClaimsOf(db) && IsLineClaim(ClaimsOf(db)[id], i, n);
    assert db.nodes[id].payload.claim == ClaimsOf(db)[id];
  }

  /** The SUPERSEDES edges of the owner are those from each claim to the one before it. */
  lemma LineGraph(db: DB, n: nat, e: Edge)
    requires Inv(db) && IsLine(ClaimsOf(db), n)
    ensures e in SupersedesOf(db, OWNER) <==> exists i: nat :: i + 1 < n && e == LineEdge(i)
  {
    var cs := ClaimsOf(db);
    hide Inv, ClaimsOf, IsLine, HasClaim, OwnedBy;
    if e in SupersedesOf(db, OWNER) {
      EdgesAreNamed(db, e.from, e.to);
      assert e == Edge(e.from, Rel.Supersedes, e.to);
      InLine(cs, n, e.from);
      var i: nat :| i < n && e.from == LineId(i) && IsLineClaim(cs[e.from], i, n);
      assert e.to in cs[e.from].supersedes;
      assert e == LineEdge(i - 1);
    }
    if i: nat :| i + 1 < n && e == LineEdge(i) {
      LineOwned(db, n, i);
      LineOwned(db, n, i + 1);
      LineAt(cs, n, i + 1);
      EdgesAreNamed(db, LineId(i + 1), LineId(i));
    }
  }

  lemma LineAt(cs: Claims, n: nat, i: nat)
    requires IsLine(cs, n) && i < n
    ensures LineId(i) in cs && IsLineClaim(cs[LineId(i)], i, n)
  {
    hide IsLineClaim;
  }

  lemma {:induction false} LineNear(g: set<Edge>, k: nat, t: Id)
    requires forall e :: e in g ==> |e.from| == |e.to| + 1
    requires t in Ball(g, {LineId(0)}, k)
    ensures |t| <= k + 4
  {
    if k > 0 {
      var inner := Ball(g, {LineId(0)}, k - 1);
      if t in inner {
        LineNear(g, k - 1, t);
      } else {
        var e :| e in g && ((e.from in inner && e.to == t) || (e.to in inner && e.from == t));
        LineNear(g, k - 1, if e.from in inner && e.to == t then e.from else e.to);
      }
    }
  }

  lemma {:induction false} LineFar(g: set<Edge>, from: nat, k: nat)
    requires forall i: nat :: from <= i < from + k ==> LineEdge(i) in g
    ensures LineId(from + k) in Ball(g, {LineId(from)}, k)
  {
    hide LineId, Ball;
    if k > 0 {
      LineFar(g, from, k - 1);
      BallStep(g, {LineId(from)}, k - 1, LineEdge(from + k - 1), LineId(from + k - 1), LineId(from + k));
    } else {
      InOwnBall(g, LineId(from), 0);
    }
  }

  /** The line's ends are one hop too far apart, though neither is from the claim next to the first. */
  lemma LineEnds(db: DB, n: nat)
    requires Inv(db) && IsLine(ClaimsOf(db), n + 2) && n > 0
    ensures var g := SupersedesOf(db, OWNER);
            && LineId(1) in Ball(g, {LineId(0)}, n)
            && LineId(n + 1) !in Ball(g, {LineId(0)}, n) && LineId(n + 1) in Ball(g, {LineId(1)}, n)
  {
    var g := SupersedesOf(db, OWNER);
    forall e ensures e in g ==> |e.from| == |e.to| + 1 {
      LineGraph(db, n + 2, e);
    }
    forall i: nat | i < n + 1 ensures LineEdge(i) in g {
      LineGraph(db, n + 2, LineEdge(i));
    }
    hide Inv, IsLine, SupersedesOf;
    EndsOfLine(g, n);
  }

  lemma EndsOfLine(g: set<Edge>, n: nat)
    requires n > 0 && (forall e :: e in g ==> |e.from| == |e.to| + 1) && forall i: nat :: i < n + 1 ==> LineEdge(i) in g
    ensures LineId(1) in Ball(g, {LineId(0)}, n)
    ensures LineId(n + 1) !in Ball(g, {LineId(0)}, n) && LineId(n + 1) in Ball(g, {LineId(1)}, n)
  {
    hide Ball, LineEdge, LineId;
    LineFar(g, 0, 1);
    BallGrows(g, {LineId(0)}, 1, n);
    LineFar(g, 1, n);
    if LineId(n + 1) in Ball(g, {LineId(0)}, n) {
      LineNear(g, n, LineId(n + 1));
      assert false;
    }
  }

  /** 25 claims are the most that the cap can promise anything of: in some reachable store 26 claims, told one
      after the other, form one chain of supersessions whose first two members, each in the other's chain, get
      different answers, because only the second sees the last. */
  lemma TwentySixAreTooMany() returns (db: DB, first: Id, second: Id, last: Id)
    ensures Reachable(db) && |ClaimsOf(db)| == 26
    ensures forall id :: id in ClaimsOf(db) ==> OwnedBy(db, OWNER, id)
    ensures second in SupersessionChain(db, OWNER, first) && first in SupersessionChain(db, OWNER, second)
    ensures last !in SupersessionChain(db, OWNER, first) && last in SupersessionChain(db, OWNER, second)
  {
    var n := MAX_HOPS;
    db := LineIsReachable(n + 2);
    first, second, last := LineId(0), LineId(1), LineId(n + 1);
    LineEnds(db, n);
    LineOwned(db, n + 2, 0);
    LineOwned(db, n + 2, 1);
    LineSize(ClaimsOf(db), n + 2);
    forall id | id in ClaimsOf(db) ensures OwnedBy(db, OWNER, id) {
      InLine(ClaimsOf(db), n + 2, id);
      var i: nat :| i < n + 2 && id == LineId(i);
      LineOwned(db, n + 2, i);
    }
    hide Reachable, Inv, IsLine, ClaimsOf, Ball, SupersedesOf, HasClaim, OwnedBy, LineId;
    ChainIsBall(db, OWNER, first, n);
    ChainIsBall(db, OWNER, second, n);
    NearBothWays(SupersedesOf(db, OWNER), first, second, n);
    InChain(db, first, second);
    InChain(db, second, first);
    InChain(db, first, last);
    InChain(db, second, last);
  }

  lemma InChain(db: DB, seed: Id, t: Id)
    ensures t in SupersessionChain(db, OWNER, seed) <==> t in ChainIds(db, OWNER, seed, MAX_HOPS)
  {
    hide ChainIds, Arrange;
    assert t in SupersessionChain(db, OWNER, seed) <==> t in Elements(SupersessionChain(db, OWNER, seed));
  }

  lemma {:induction false} NearBothWays(g: set<Edge>, a: Id, b: Id, k: nat)
    requires b in Ball(g, {a}, k)
    ensures a in Ball(g, {b}, k)
  {
    hide Ball, IsTrail;
    var d := HasDistance(g, {a}, k, b);
    var nodes, es := TrailTo(g, {a}, d, b);
    Backwards(g, nodes, es, d);
    BallGrows(g, {b}, d, k);
  }

  /** A trail read from its end. */
  lemma {:induction false} Backwards(g: set<Edge>, nodes: seq<Id>, es: seq<Edge>, i: nat)
    requires IsTrail(g, nodes, es) && i <= |es|
    ensures nodes[|es| - i] in Ball(g, {nodes[|es|]}, i)
  {
    hide Ball;
    if i == 0 {
      InOwnBall(g, nodes[|es|], 0);
    } else {
      Backwards(g, nodes, es, i - 1);
      var k := |es| - i;
      assert es[k] in g && Joins(es[k], nodes[k], nodes[k + 1]);
      BallStep(g, {nodes[|es|]}, i - 1, es[k], nodes[k + 1], nodes[k]);
    }
  }

  lemma {:induction false} LineSize(cs: Claims, n: nat)
    requires IsLine(cs, n)
    ensures |cs| == n
  {
    hide IsLineClaim;
    var ids := seq(n, i requires 0 <= i < n => LineId(i));
    forall i, j | 0 <= i < j < n ensures ids[i] != ids[j] {
      assert |ids[i]| == i + 4 && |ids[j]| == j + 4;
    }
    DistinctSize(ids);
    forall id ensures id in Elements(ids) <==> id in cs.Keys {
      if id in cs {
        var i: nat :| i < n && id == LineId(i);
        assert ids[i] == id;
      }
      if id in ids {
        var i :| 0 <= i < |ids| && ids[i] == id;
        assert id == LineId(i);
      }
    }
    assert Elements(ids) == cs.Keys;
  }
}
