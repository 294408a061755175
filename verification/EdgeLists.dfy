/** What `get_many` and the edge queries return: rows under their ids, and edges in order. */
module EdgeLists {
  import opened Basics
  import opened Schema
  import opened Store
  import opened PermissionPass

  // ---- order of edges ----

  function RelName(r: Rel): string {
    match r
    case About => "ABOUT"
    case OwedBy => "OWED_BY"
    case OwedTo => "OWED_TO"
    case Mentions => "MENTIONS"
    case Cites => "CITES"
    case Supersedes => "SUPERSEDES"
    case Contradicts => "CONTRADICTS"
  }

  /** The kinds of edges by name, in the order of their names. */
  lemma RelNamesAre()
    ensures RelName(About) == "ABOUT" && RelName(Cites) == "CITES" && RelName(Rel.Contradicts) == "CONTRADICTS"
    ensures RelName(Mentions) == "MENTIONS" && RelName(OwedBy) == "OWED_BY" && RelName(OwedTo) == "OWED_TO"
    ensures RelName(Rel.Supersedes) == "SUPERSEDES"
  {
  }

  /** ORDER BY from_id, rel, to_id. */
  predicate EdgeBefore(a: Edge, b: Edge) {
    || StrLess(a.from, b.from)
    || (a.from == b.from && StrLess(RelName(a.rel), RelName(b.rel)))
    || (a.from == b.from && a.rel == b.rel && StrLess(a.to, b.to))
  }

  /** As the store returns them: in order, none twice. */
  ghost predicate EdgesOrdered(edges: seq<Edge>) {
    forall i, j :: 0 <= i < j < |edges| ==> EdgeBefore(edges[i], edges[j])
  }

  lemma EdgeAsymmetric(a: Edge, b: Edge)
    requires EdgeBefore(a, b)
    ensures !EdgeBefore(b, a)
  {
    StrTotal(a.from, b.from);
    StrTotal(RelName(a.rel), RelName(b.rel));
    StrTotal(a.to, b.to);
  }

  /** An ordered list is determined by its members. */
  lemma {:induction false} OrderedUnique(a: seq<Edge>, b: seq<Edge>)
    requires EdgesOrdered(a) && EdgesOrdered(b) && Elements(a) == Elements(b)
    ensures a == b
  {
    if a == [] {
      NoElements(b);
    } else {
      assert a[0] in Elements(b);
      var j :| 0 <= j < |b| && b[j] == a[0];
      assert b[0] in Elements(a);
      var i :| 0 <= i < |a| && a[i] == b[0];
      if i > 0 && j > 0 {
        EdgeAsymmetric(a[0], a[i]);
      }
      assert a[0] == b[0];
      TailMembers(a);
      TailMembers(b);
      OrderedUnique(a[1..], b[1..]);
    }
  }

  lemma TailMembers(a: seq<Edge>)
    requires EdgesOrdered(a) && a != []
    ensures Elements(a[1..]) == Elements(a) - {a[0]}
  {
    forall k | 1 <= k < |a| ensures a[k] != a[0] {
      EdgeAsymmetric(a[0], a[k]);
    }
    assert a == [a[0]] + a[1..];
  }

  lemma OrderedSnoc(edges: seq<Edge>, e: Edge)
    requires EdgesOrdered(edges) && forall i :: 0 <= i < |edges| ==> EdgeBefore(edges[i], e)
    ensures EdgesOrdered(edges + [e])
  {
    hide EdgeBefore;
  }

  lemma LastIsLast(edges: seq<Edge>, e: Edge)
    requires EdgesOrdered(edges) && edges != [] && e in edges[..|edges| - 1]
    ensures EdgeBefore(e, edges[|edges| - 1])
  {
    hide EdgeBefore;
    var k :| 0 <= k < |edges| - 1 && edges[..|edges| - 1][k] == e;
    assert edges[k] == e;
  }

  // ---- every set of edges has its ordered list ----

  lemma RelNamesDiffer(r: Rel, s: Rel)
    requires r != s
    ensures RelName(r) != RelName(s)
  {
    var (a, b) := (RelName(r), RelName(s));
    assert |a| != |b| || a[0] != b[0] || a[|a| - 1] != b[|b| - 1];
  }

  lemma EdgeTotal(a: Edge, b: Edge)
    ensures a == b || EdgeBefore(a, b) || EdgeBefore(b, a)
  {
    hide StrLess, RelName;
    StrTotal(a.from, b.from);
    StrTotal(RelName(a.rel), RelName(b.rel));
    StrTotal(a.to, b.to);
    if a.rel != b.rel {
      RelNamesDiffer(a.rel, b.rel);
    }
  }

  lemma EdgeTransitive(a: Edge, b: Edge, c: Edge)
    requires EdgeBefore(a, b) && EdgeBefore(b, c)
    ensures EdgeBefore(a, c)
  {
    hide StrLess, RelName;
    if StrLess(a.from, b.from) && StrLess(b.from, c.from) {
      StrTransitive(a.from, b.from, c.from);
    }
    if StrLess(RelName(a.rel), RelName(b.rel)) && StrLess(RelName(b.rel), RelName(c.rel)) {
      StrTransitive(RelName(a.rel), RelName(b.rel), RelName(c.rel));
    }
    if StrLess(a.to, b.to) && StrLess(b.to, c.to) {
      StrTransitive(a.to, b.to, c.to);
    }
  }

  ghost predicate IsLast(s: set<Edge>, x: Edge) {
    x in s && forall y :: y in s && y != x ==> EdgeBefore(y, x)
  }

  lemma {:induction false} LastExists(s: set<Edge>) returns (x: Edge)
    requires s != {}
    ensures IsLast(s, x)
    decreases |s|
  {
    hide EdgeBefore;
    var y :| y in s;
    if s == {y} {
      x := y;
    } else {
      var rest := s - {y};
      assert rest != {};
      var z := LastExists(rest);
      EdgeTotal(y, z);
      if EdgeBefore(z, y) {
        forall w | w in rest && w != z ensures EdgeBefore(w, y) {
          EdgeTransitive(w, z, y);
        }
        x := y;
      } else {
        x := z;
      }
    }
  }

  lemma {:induction false} SortedEdges(s: set<Edge>) returns (r: seq<Edge>)
    ensures EdgesOrdered(r) && Elements(r) == s
    decreases |s|
  {
    if s == {} {
      r := [];
    } else {
      hide EdgeBefore;
      var x := LastExists(s);
      var before := SortedEdges(s - {x});
      forall i | 0 <= i < |before| ensures EdgeBefore(before[i], x) {
        assert before[i] in Elements(before);
      }
      OrderedSnoc(before, x);
      r := before + [x];
      assert Elements(r) == Elements(before) + {x};
    }
  }

  // ---- the rows under a set of ids ----

  lemma {:induction false} FoundIn(db: DB, ids: set<Id>) returns (found: seq<Found>)
    requires ids <= db.nodes.Keys
    ensures DistinctIds(found)
    ensures forall f :: f in found <==> f.id in ids && f.id in db.nodes && f.node == db.nodes[f.id].payload
    decreases |ids|
  {
    if ids == {} {
      found := [];
    } else {
      var id :| id in ids;
      var rest := FoundIn(db, ids - {id});
      forall i | 0 <= i < |rest| ensures rest[i].id != id {
        assert rest[i] in rest;
      }
      found := rest + [Found(id, db.nodes[id].payload)];
    }
  }
}
