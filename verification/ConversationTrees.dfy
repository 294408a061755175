/** The surviving branch of an exported conversation tree. */
module ConversationTrees {
  import opened Basics

  type Id = string

  /** One node; a child entry that is not a string is already left out. */
  datatype Entry = Entry(message: Option<string>, parent: Option<Id>, children: seq<Id>)

  /** The export's mapping, in its own order; a value that is not an object is None. */
  datatype Mapping = Mapping(order: seq<Id>, entries: map<Id, Option<Entry>>) {
    /** The order lists the entries, each one once. */
    ghost predicate Valid() {
      Elements(order) == entries.Keys && Distinct(order)
    }

    /** `mapping.get(id)`, when that is an object. */
    function At(id: Id): Option<Entry> {
      if id in entries then entries[id] else None
    }

    predicate IsRoot(id: Id) {
      At(id).Some? && (At(id).value.parent.None? || At(id).value.parent.value !in entries)
    }

    function Roots(ids: seq<Id>): seq<Id> {
      if ids == [] then []
      else
        var (before, last) := (Roots(ids[..|ids| - 1]), ids[|ids| - 1]);
        if IsRoot(last) then before + [last] else before
    }

    /** Where the walk starts: the first root, or the first node if every one has its parent here. */
    function Start(): Option<Id> {
      var roots := if Roots(order) == [] then order else Roots(order);
      if roots == [] then None else Some(roots[0])
    }

    /** The last child: the latest regeneration. */
    function Next(id: Id): Option<Id> {
      match At(id)
      case Some(e) => if e.children == [] then None else Some(e.children[|e.children| - 1])
      case None => None
    }

    function Messages(path: seq<Id>): seq<string> {
      if path == [] then []
      else
        var (before, last) := (Messages(path[..|path| - 1]), path[|path| - 1]);
        match At(last)
        case Some(e) => (match e.message case Some(m) => before + [m] case None => before)
        case None => before
    }
  }

  /** A node that is an object, and whose parent is none or is not in the mapping. */
  ghost predicate IsParentless(m: Mapping, id: Id) {
    && id in m.entries && m.entries[id].Some?
    && (m.entries[id].value.parent == None || m.entries[id].value.parent.value !in m.entries)
  }

  /** The i-th of these ids is the first root among them. */
  ghost predicate FirstRoot(m: Mapping, ids: seq<Id>, i: nat) {
    i < |ids| && IsParentless(m, ids[i]) && forall k :: 0 <= k < i ==> !IsParentless(m, ids[k])
  }

  lemma RootsAreParentless(m: Mapping)
    ensures forall id :: m.IsRoot(id) <==> IsParentless(m, id)
  {
  }

  lemma {:induction false} RootsBegin(m: Mapping, ids: seq<Id>)
    ensures m.Roots(ids) == [] <==> forall k :: 0 <= k < |ids| ==> !IsParentless(m, ids[k])
    ensures forall i: nat :: FirstRoot(m, ids, i) ==> m.Roots(ids) != [] && m.Roots(ids)[0] == ids[i]
  {
    RootsAreParentless(m);
    hide IsParentless;
    if ids != [] {
      var n := |ids| - 1;
      RootsBegin(m, ids[..n]);
      assert forall k :: 0 <= k < n ==> ids[..n][k] == ids[k];
      assert forall i: nat :: i < n ==> (FirstRoot(m, ids, i) <==> FirstRoot(m, ids[..n], i));
      hide FirstRoot;
      if FirstRoot(m, ids, n) {
        assert m.Roots(ids[..n]) == [] by {
          FirstIsAlone(m, ids, n);
        }
      }
    }
  }

  lemma FirstIsAlone(m: Mapping, ids: seq<Id>, i: nat)
    requires FirstRoot(m, ids, i)
    ensures forall k :: 0 <= k < i ==> !IsParentless(m, ids[..i][k])
  {
  }

  /** Where a walk begins: at the first root in the mapping's own order, or at its first node if none is a root. */
  ghost predicate BeginsAt(m: Mapping, id: Id) {
    || (exists i: nat :: FirstRoot(m, m.order, i) && id == m.order[i])
    || (m.order != [] && id == m.order[0] && forall k :: 0 <= k < |m.order| ==> !IsParentless(m, m.order[k]))
  }

  lemma {:induction false} SomeFirstRoot(m: Mapping, ids: seq<Id>, k: nat) returns (i: nat)
    requires k < |ids| && IsParentless(m, ids[k])
    ensures FirstRoot(m, ids, i)
  {
    hide IsParentless;
    i := k;
    if j :| 0 <= j < k && IsParentless(m, ids[j]) {
      i := SomeFirstRoot(m, ids, j);
    }
  }

  /** The walk begins exactly there, and does not begin only if there are no nodes. */
  lemma StartMeans(m: Mapping)
    ensures m.Start() == None <==> m.order == []
    ensures m.Valid() ==> (m.order == [] <==> m.entries == map[])
    ensures forall id :: m.Start() == Some(id) <==> BeginsAt(m, id)
  {
    RootsBegin(m, m.order);
    hide IsParentless;
    if k :| 0 <= k < |m.order| && IsParentless(m, m.order[k]) {
      var i := SomeFirstRoot(m, m.order, k);
      assert m.Start() == Some(m.order[i]) && BeginsAt(m, m.order[i]);
    }
    assert m.Valid() ==> (m.order == [] <==> m.entries == map[]) by {
      if m.Valid() && m.order != [] {
        assert m.order[0] in Elements(m.order);
      } else if m.Valid() {
        assert m.entries.Keys == {};
      }
    }
  }

  /** Last child by last child from the start, no node twice. */
  ghost predicate IsBranch(m: Mapping, path: seq<Id>) {
    && path != [] && m.Start() == Some(path[0]) && Distinct(path)
    && forall i :: 0 <= i < |path| - 1 ==> m.Next(path[i]) == Some(path[i + 1])
  }

  /** It stops only at a leaf, or where it would come back on itself. */
  ghost predicate IsWhole(m: Mapping, path: seq<Id>) {
    path != [] && (m.Next(path[|path| - 1]).None? || m.Next(path[|path| - 1]).value in path)
  }

  // ---- what the branch is, by its entries ----

  /** `child` is the last of the children of the entry under `id`. */
  ghost predicate IsLastChild(m: Mapping, id: Id, child: Id) {
    && id in m.entries && m.entries[id].Some?
    && var children := m.entries[id].value.children; children != [] && child == children[|children| - 1]
  }

  /** From where the walk begins, last child by last child, no node twice, as far as that goes: to where there is no
      entry, no child, or a last child that is in the path already. */
  ghost predicate IsLastBranch(m: Mapping, path: seq<Id>) {
    && path != [] && BeginsAt(m, path[0]) && Distinct(path)
    && (forall i :: 0 <= i < |path| - 1 ==> IsLastChild(m, path[i], path[i + 1]))
    && (forall child :: IsLastChild(m, path[|path| - 1], child) ==> child in path)
  }

  lemma BranchIsLast(m: Mapping, path: seq<Id>)
    requires IsBranch(m, path) && IsWhole(m, path)
    ensures IsLastBranch(m, path)
  {
    StartMeans(m);
    hide BeginsAt, Distinct;
    forall i | 0 <= i < |path| - 1 ensures IsLastChild(m, path[i], path[i + 1]) {
      assert m.Next(path[i]) == Some(path[i + 1]);
    }
  }

  ghost predicate HasMessage(m: Mapping, id: Id, x: string) {
    id in m.entries && m.entries[id].Some? && m.entries[id].value.message == Some(x)
  }

  /** The messages of the entries along a path, in order: each is of the entry at its place, places ascend, and no
      entry with a message is passed over. */
  ghost predicate AreMessages(m: Mapping, path: seq<Id>, messages: seq<string>, places: seq<nat>) {
    && |places| == |messages|
    && (forall i, j :: 0 <= i < j < |places| ==> places[i] < places[j])
    && (forall i :: 0 <= i < |places| ==> places[i] < |path| && HasMessage(m, path[places[i]], messages[i]))
    && (forall k: nat, x :: k < |path| && HasMessage(m, path[k], x) ==> k in places)
  }

  lemma {:induction false} MessagesAre(m: Mapping, path: seq<Id>) returns (places: seq<nat>)
    ensures AreMessages(m, path, m.Messages(path), places)
  {
    places := [];
    if path != [] {
      var n := |path| - 1;
      var before := MessagesAre(m, path[..n]);
      assert path == path[..n] + [path[n]];
      MessagesSnoc(m, path[..n], path[n]);
      var said := m.Messages(path[..n]);
      if m.At(path[n]).Some? && m.At(path[n]).value.message.Some? {
        places := before + [n];
        assert HasMessage(m, path[n], m.At(path[n]).value.message.value);
      } else {
        places := before;
        assert said + [] == said;
      }
      hide HasMessage;
      assert forall k: nat :: k < n ==> path[..n][k] == path[k];
    }
  }

  lemma MessagesSnoc(m: Mapping, path: seq<Id>, id: Id)
    ensures m.Messages(path + [id])
         == m.Messages(path)
            + if m.At(id).Some? && m.At(id).value.message.Some? then [m.At(id).value.message.value] else []
  {
    assert (path + [id])[..|path|] == path;
  }

  lemma BranchSnoc(m: Mapping, path: seq<Id>, id: Id)
    requires (path == [] && m.Start() == Some(id))
             || (IsBranch(m, path) && m.Next(path[|path| - 1]) == Some(id) && id !in path)
    ensures IsBranch(m, path + [id])
  {
    var longer := path + [id];
    forall i | 0 <= i < |longer| - 1 ensures m.Next(longer[i]) == Some(longer[i + 1]) {
      if i < |path| - 1 {
        assert longer[i] == path[i] && longer[i + 1] == path[i + 1];
      }
    }
  }

  lemma PathIsBounded(m: Mapping, path: seq<Id>)
    requires Distinct(path) && forall i :: 0 <= i < |path| - 1 ==> path[i] in m.entries
    ensures |path| <= |m.entries.Keys| + 1
  {
    if path != [] {
      var init := path[..|path| - 1];
      DistinctSize(init);
      forall id | id in Elements(init) ensures id in m.entries.Keys {
        var i :| 0 <= i < |init| && init[i] == id;
        assert path[i] == id;
      }
      SubsetSize(Elements(init), m.entries.Keys);
    }
  }

  lemma SubsetSize<T>(a: set<T>, b: set<T>)
    requires a <= b
    ensures |a| <= |b|
  {
    assert b == a + (b - a);
  }

  /** Where the walk stands: past `path`, about to look at `at`. */
  ghost predicate Stands(m: Mapping, path: seq<Id>, at: Option<Id>) {
    if path == [] then at == m.Start() else IsBranch(m, path) && at == m.Next(path[|path| - 1])
  }

  lemma StepsOn(m: Mapping, path: seq<Id>, id: Id)
    requires Stands(m, path, Some(id)) && id !in path
    ensures Stands(m, path + [id], m.Next(id)) && IsBranch(m, path + [id])
    ensures |path| + 1 <= |m.entries.Keys| + 1
    ensures Elements(path + [id]) == Elements(path) + {id}
  {
    BranchSnoc(m, path, id);
    BranchIsBounded(m, path + [id]);
  }

  lemma StopsHere(m: Mapping, path: seq<Id>, at: Option<Id>)
    requires Stands(m, path, at) && (at.None? || at.value in path)
    ensures if m.Start() == None then path == [] else IsBranch(m, path) && IsWhole(m, path)
  {
  }

  /** Ends for every mapping, cyclic or not, on the messages of its one branch of last children. */
  method WalkLinear(m: Mapping) returns (messages: seq<string>)
    ensures if m.order == [] then messages == []
            else exists path, places :: IsLastBranch(m, path) && AreMessages(m, path, messages, places)
    ensures m.order != [] ==> exists path :: IsBranch(m, path) && IsWhole(m, path) && messages == m.Messages(path)
  {
    hide Stands, IsBranch, IsWhole, Distinct, IsLastBranch, AreMessages, BeginsAt;
    messages := [];
    ghost var path: seq<Id> := [];
    var seen: set<Id> := {};
    var at := m.Start();
    StartsOut(m);
    while at.Some? && at.value !in seen
      invariant seen == Elements(path) && messages == m.Messages(path)
      invariant Stands(m, path, at)
      decreases |m.entries.Keys| + 1 - |path|
    {
      var id := at.value;
      StepsOn(m, path, id);
      MessagesSnoc(m, path, id);
      path := path + [id];
      seen := seen + {id};
      if m.At(id).None? {
        at := None;
        break;
      }
      var entry := m.At(id).value;
      if entry.message.Some? {
        messages := messages + [entry.message.value];
      }
      at := if entry.children == [] then None else Some(entry.children[|entry.children| - 1]);
    }
    StopsHere(m, path, at);
    StartMeans(m);
    if m.order != [] {
      BranchIsLast(m, path);
      ghost var places := MessagesAre(m, path);
    }
  }

  lemma StartsOut(m: Mapping)
    ensures Stands(m, [], m.Start())
  {
  }

  lemma BranchIsBounded(m: Mapping, path: seq<Id>)
    requires IsBranch(m, path)
    ensures |path| <= |m.entries.Keys| + 1
  {
    forall i | 0 <= i < |path| - 1 ensures path[i] in m.entries {
      assert m.Next(path[i]) == Some(path[i + 1]);
    }
    PathIsBounded(m, path);
  }

  /** There is one whole branch only. */
  lemma OneBranch(m: Mapping, p: seq<Id>, q: seq<Id>)
    requires IsBranch(m, p) && IsWhole(m, p) && IsBranch(m, q) && IsWhole(m, q)
    ensures p == q
  {
    var n := if |p| <= |q| then |p| else |q|;
    SamePrefix(m, p, q, n - 1);
    assert p[n - 1] == q[n - 1];
    if |p| < |q| {
      NotWhole(m, p, q);
    } else if |q| < |p| {
      NotWhole(m, q, p);
    }
  }

  lemma {:induction false} SamePrefix(m: Mapping, p: seq<Id>, q: seq<Id>, k: nat)
    requires IsBranch(m, p) && IsBranch(m, q) && k < |p| && k < |q|
    ensures forall i :: 0 <= i <= k ==> p[i] == q[i]
  {
    if k > 0 {
      SamePrefix(m, p, q, k - 1);
      assert m.Next(p[k - 1]) == Some(p[k]) && m.Next(q[k - 1]) == Some(q[k]);
    }
  }

  lemma NotWhole(m: Mapping, p: seq<Id>, q: seq<Id>)
    requires IsBranch(m, p) && IsBranch(m, q) && |p| < |q| && forall i :: 0 <= i < |p| ==> p[i] == q[i]
    ensures !IsWhole(m, p)
  {
    var k := |p| - 1;
    assert m.Next(q[k]) == Some(q[k + 1]);
    forall i | 0 <= i < |p| ensures p[i] != q[k + 1] {
      assert q[i] != q[k + 1];
    }
  }

  /** In a tree, where every child is deeper than its parent, the branch ends at a leaf. */
  lemma TreeBranchEndsAtLeaf(m: Mapping, path: seq<Id>, depth: Id -> nat)
    requires IsBranch(m, path) && IsWhole(m, path)
    requires forall id: Id :: m.Next(id).Some? ==> depth(m.Next(id).value) > depth(id)
    ensures m.Next(path[|path| - 1]) == None
  {
    var last := |path| - 1;
    if m.Next(path[last]).Some? {
      var i :| 0 <= i < |path| && path[i] == m.Next(path[last]).value;
      Descends(m, path, depth, i, last);
      assert false;
    }
  }

  lemma {:induction false} Descends(m: Mapping, path: seq<Id>, depth: Id -> nat, i: nat, j: nat)
    requires IsBranch(m, path) && i <= j < |path|
    requires forall id: Id :: m.Next(id).Some? ==> depth(m.Next(id).value) > depth(id)
    ensures depth(path[i]) <= depth(path[j])
  {
    if i < j {
      Descends(m, path, depth, i, j - 1);
      assert m.Next(path[j - 1]) == Some(path[j]);
    }
  }
}
