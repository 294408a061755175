/** Small value types and the one ordering every sorted read of the program uses. */
module Basics {
  datatype Option<+T> = None | Some(value: T)

  /** A call that returns a value or raises. */
  datatype Result<+T> = Ok(value: T) | Raised(reason: string)

  ghost predicate Distinct<T>(s: seq<T>) {
    forall i, j :: 0 <= i < j < |s| ==> s[i] != s[j]
  }

  function Elements<T>(s: seq<T>): set<T> {
    set x | x in s
  }

  lemma NoElements<T>(s: seq<T>)
    ensures Elements(s) == {} <==> s == []
  {
    if s != [] {
      assert s[0] in Elements(s);
    }
  }

  /** `order` lists every member of `s` once, in some order. */
  ghost predicate Enumerates<T>(order: seq<T>, s: set<T>) {
    Distinct(order) && Elements(order) == s
  }

  lemma {:induction false} DistinctSize<T>(s: seq<T>)
    requires Distinct(s)
    ensures |Elements(s)| == |s|
  {
    if s != [] {
      var (init, last) := (s[..|s| - 1], s[|s| - 1]);
      DistinctSize(init);
      assert s == init + [last];
      assert Elements(s) == Elements(init) + {last};
    }
  }

  // ---- lexicographic order on strings ----

  predicate StrLess(a: string, b: string) {
    b != [] && (a == [] || a[0] < b[0] || (a[0] == b[0] && StrLess(a[1..], b[1..])))
  }

  lemma {:induction false} StrTotal(a: string, b: string)
    ensures a == b || StrLess(a, b) || StrLess(b, a)
    ensures !(StrLess(a, b) && StrLess(b, a))
    ensures a == b ==> !StrLess(a, b)
  {
    if a != [] && b != [] && a[0] == b[0] {
      StrTotal(a[1..], b[1..]);
      assert a == [a[0]] + a[1..] && b == [b[0]] + b[1..];
    }
  }

  lemma {:induction false} StrTransitive(a: string, b: string, c: string)
    requires StrLess(a, b) && StrLess(b, c)
    ensures StrLess(a, c)
  {
    if a != [] && a[0] == b[0] == c[0] {
      StrTransitive(a[1..], b[1..], c[1..]);
    }
  }

  lemma HeadsDiffer(a: string, b: string)
    requires a == [] || b == [] || a[0] != b[0]
    ensures forall k: nat :: 0 < k <= |a| && k <= |b| ==> a[..k] != b[..k]
  {
    forall k: nat | 0 < k <= |a| && k <= |b| ensures a[..k] != b[..k] {
      assert a[..k][0] == a[0] && b[..k][0] == b[0];
    }
  }

  /** `a` comes before `b`: it is a proper prefix of it, or has the smaller character where they first differ. */
  lemma {:induction false} StrLessMeans(a: string, b: string)
    ensures StrLess(a, b) <==>
              exists k: nat :: k <= |a| && k < |b| && a[..k] == b[..k] && (k == |a| || a[k] < b[k])
  {
    if a == [] || b == [] || a[0] != b[0] {
      HeadsDiffer(a, b);
      assert a[..0] == b[..0];
    } else {
      StrLessMeans(a[1..], b[1..]);
      if StrLess(a, b) {
        var k: nat :| k <= |a[1..]| && k < |b[1..]| && a[1..][..k] == b[1..][..k]
                      && (k == |a[1..]| || a[1..][k] < b[1..][k]);
        assert a[..k + 1] == [a[0]] + a[1..][..k] && b[..k + 1] == [b[0]] + b[1..][..k];
      }
      if k: nat :| k <= |a| && k < |b| && a[..k] == b[..k] && (k == |a| || a[k] < b[k]) {
        assert k > 0;
        assert a[1..][..k - 1] == a[..k][1..] && b[1..][..k - 1] == b[..k][1..];
      }
    }
  }

  // ---- sorting a set of ids by (rank, id) ----

  /** A two-level numeric sort key; ids break the remaining ties. */
  datatype Rank = Rank(major: int, minor: int)

  predicate Before(rank: string -> Rank, a: string, b: string) {
    || rank(a).major < rank(b).major
    || (rank(a).major == rank(b).major && rank(a).minor < rank(b).minor)
    || (rank(a) == rank(b) && StrLess(a, b))
  }

  lemma BeforeTotal(rank: string -> Rank, a: string, b: string)
    ensures a == b || Before(rank, a, b) || Before(rank, b, a)
    ensures !(Before(rank, a, b) && Before(rank, b, a))
  {
    StrTotal(a, b);
  }

  lemma BeforeTransitive(rank: string -> Rank, a: string, b: string, c: string)
    requires Before(rank, a, b) && Before(rank, b, c)
    ensures Before(rank, a, c)
  {
    if StrLess(a, b) && StrLess(b, c) {
      StrTransitive(a, b, c);
    }
  }

  predicate IsFirst(rank: string -> Rank, s: set<string>, x: string) {
    x in s && forall y :: y in s && y != x ==> Before(rank, x, y)
  }

  lemma {:induction false} FirstExists(rank: string -> Rank, s: set<string>) returns (x: string)
    requires s != {}
    ensures IsFirst(rank, s, x)
    decreases |s|
  {
    var y :| y in s;
    if s == {y} {
      x := y;
    } else {
      var rest := s - {y};
      assert rest != {};
      var z := FirstExists(rank, rest);
      BeforeTotal(rank, y, z);
      if Before(rank, y, z) {
        forall w | w in rest && w != z ensures Before(rank, y, w) {
          BeforeTransitive(rank, y, z, w);
        }
        x := y;
      } else {
        x := z;
      }
    }
  }

  lemma FirstUnique(rank: string -> Rank, s: set<string>, x: string, y: string)
    requires IsFirst(rank, s, x) && IsFirst(rank, s, y)
    ensures x == y
  {
    BeforeTotal(rank, x, y);
  }

  function First(rank: string -> Rank, s: set<string>): (x: string)
    requires s != {}
    ensures IsFirst(rank, s, x)
  {
    assert exists x :: IsFirst(rank, s, x) by {
      var x := FirstExists(rank, s);
    }
    assert forall x, y :: IsFirst(rank, s, x) && IsFirst(rank, s, y) ==> x == y by {
      forall x, y | IsFirst(rank, s, x) && IsFirst(rank, s, y) ensures x == y {
        FirstUnique(rank, s, x, y);
      }
    }
    var x :| IsFirst(rank, s, x);
    x
  }

  ghost predicate Ascending(rank: string -> Rank, r: seq<string>) {
    forall i, j :: 0 <= i < j < |r| ==> Before(rank, r[i], r[j])
  }

  lemma EnumeratesCons<T>(x: T, rest: seq<T>, s: set<T>)
    requires x in s && Enumerates(rest, s - {x})
    ensures Enumerates([x] + rest, s)
  {
    assert x !in Elements(rest);
    forall i, j | 0 <= i < j < |[x] + rest| ensures ([x] + rest)[i] != ([x] + rest)[j] {
      if i == 0 {
        assert ([x] + rest)[j] == rest[j - 1];
      }
    }
    assert Elements([x] + rest) == {x} + Elements(rest);
  }

  lemma AscendingCons(rank: string -> Rank, x: string, rest: seq<string>, s: set<string>)
    requires IsFirst(rank, s, x) && Elements(rest) == s - {x} && Ascending(rank, rest)
    ensures Ascending(rank, [x] + rest)
  {
    forall j | 0 <= j < |rest| ensures Before(rank, x, rest[j]) {
      assert rest[j] in Elements(rest);
    }
  }

  /** `sorted(s, key=lambda x: (rank(x), x))` over distinct ids. */
  function Arrange(rank: string -> Rank, s: set<string>): (r: seq<string>)
    ensures Enumerates(r, s)
    ensures Ascending(rank, r)
    decreases |s|
  {
    if s == {} then []
    else
      var x := First(rank, s);
      var rest := Arrange(rank, s - {x});
      EnumeratesCons(x, rest, s);
      AscendingCons(rank, x, rest, s);
      [x] + rest
  }

  /** Only the relative order of the members matters to a sort. */
  lemma {:induction false} ArrangeCongruent(r1: string -> Rank, r2: string -> Rank, s: set<string>)
    requires forall x, y :: x in s && y in s ==> (Before(r1, x, y) <==> Before(r2, x, y))
    ensures Arrange(r1, s) == Arrange(r2, s)
    decreases |s|
  {
    if s != {} {
      var x := First(r1, s);
      FirstUnique(r2, s, x, First(r2, s));
      ArrangeCongruent(r1, r2, s - {x});
    }
  }
}
