/** Answer texts, as the pieces they are formatted from. */
module Text {
  import opened Basics
  import opened Permissions

  /** Literal text, `str` of an integer, `repr` of a string, or a span of milliseconds as days to one decimal. */
  datatype Piece = Lit(s: string) | Num(n: int) | Quoted(s: string) | Days(ms: int)

  function Join(parts: seq<string>, sep: string): string {
    if parts == [] then ""
    else if |parts| == 1 then parts[0]
    else parts[0] + sep + Join(parts[1..], sep)
  }

  lemma {:induction false} JoinSnoc(parts: seq<string>, last: string, sep: string)
    ensures Join(parts + [last], sep) == if parts == [] then last else Join(parts, sep) + sep + last
  {
    if |parts| == 1 {
      assert (parts + [last])[1..] == [last];
    } else if parts != [] {
      JoinSnoc(parts[1..], last, sep);
      assert (parts + [last])[1..] == parts[1..] + [last];
    }
  }

  lemma {:induction false} JoinConcat(a: seq<string>, b: seq<string>, sep: string)
    requires a != [] && b != []
    ensures Join(a + b, sep) == Join(a, sep) + sep + Join(b, sep)
  {
    if |a| == 1 {
      assert (a + b)[1..] == b;
    } else {
      JoinConcat(a[1..], b, sep);
      assert (a + b)[1..] == a[1..] + b;
      Regroup(a[0], sep, Join(a[1..], sep), sep, Join(b, sep));
    }
  }

  lemma Regroup(a: string, b: string, c: string, d: string, e: string)
    ensures a + b + (c + d + e) == a + b + c + d + e
  {
  }

  /** `sorted` of a set of strings. */
  function SortedStrings(s: set<string>): seq<string> {
    Arrange(_ => Rank(0, 0), s)
  }

  /** In strictly ascending order, so none twice. */
  ghost predicate Sorted(strings: seq<string>) {
    forall i, j :: 0 <= i < j < |strings| ==> StrLess(strings[i], strings[j])
  }

  lemma SortedStringsMean(s: set<string>)
    ensures Sorted(SortedStrings(s)) && forall x :: x in SortedStrings(s) <==> x in s
  {
    var rank: string -> Rank := _ => Rank(0, 0);
    var r := Arrange(rank, s);
    assert forall x :: x in r <==> x in Elements(r);
    forall i, j | 0 <= i < j < |r| ensures StrLess(r[i], r[j]) {
      assert Before(rank, r[i], r[j]);
    }
    SortedCongruent(rank, s);
  }

  lemma SortedCongruent(rank: string -> Rank, s: set<string>)
    requires forall x :: rank(x) == Rank(0, 0)
    ensures SortedStrings(s) == Arrange(rank, s)
  {
    ArrangeCongruent(_ => Rank(0, 0), rank, s);
  }

  function ReasonName(r: DenyReason): string {
    match r
    case WrongOwner => "wrong_owner"
    case GrantExpired => "grant_expired"
    case AgentRevoked => "agent_revoked"
    case SourceNotInScope => "source_not_in_scope"
    case EntityKindNotInScope => "entity_kind_not_in_scope"
    case OutsideTimeWindow => "outside_time_window"
    case TooSensitive => "too_sensitive"
  }

  /** `sorted({d["reason"] for d in denials})`. */
  function Reasons(denials: seq<(string, DenyReason)>): seq<string> {
    SortedStrings(ReasonNames(denials))
  }

  function ReasonNames(denials: seq<(string, DenyReason)>): set<string> {
    set d | d in denials :: ReasonName(d.1)
  }

  /** It names every reason, once, in order. */
  lemma ReasonsMean(denials: seq<(string, DenyReason)>)
    ensures Sorted(Reasons(denials)) && forall x :: x in Reasons(denials) <==>
              exists d :: d in denials && x == ReasonName(d.1)
  {
    hide ReasonName, SortedStrings, Sorted;
    SortedStringsMean(ReasonNames(denials));
  }

  /** The reasons by name: each is told exactly when some object was denied for it. */
  lemma ReasonsByName(denials: seq<(string, DenyReason)>)
    ensures "wrong_owner" in Reasons(denials) <==> exists d :: d in denials && d.1 == WrongOwner
    ensures "grant_expired" in Reasons(denials) <==> exists d :: d in denials && d.1 == GrantExpired
    ensures "agent_revoked" in Reasons(denials) <==> exists d :: d in denials && d.1 == AgentRevoked
    ensures "source_not_in_scope" in Reasons(denials) <==> exists d :: d in denials && d.1 == SourceNotInScope
    ensures "entity_kind_not_in_scope" in Reasons(denials) <==> exists d :: d in denials && d.1 == EntityKindNotInScope
    ensures "outside_time_window" in Reasons(denials) <==> exists d :: d in denials && d.1 == OutsideTimeWindow
    ensures "too_sensitive" in Reasons(denials) <==> exists d :: d in denials && d.1 == TooSensitive
  {
    hide Reasons;
    ReasonNamed(denials, WrongOwner, "wrong_owner");
    ReasonNamed(denials, GrantExpired, "grant_expired");
    ReasonNamed(denials, AgentRevoked, "agent_revoked");
    ReasonNamed(denials, SourceNotInScope, "source_not_in_scope");
    ReasonNamed(denials, EntityKindNotInScope, "entity_kind_not_in_scope");
    ReasonNamed(denials, OutsideTimeWindow, "outside_time_window");
    ReasonNamed(denials, TooSensitive, "too_sensitive");
  }

  lemma ReasonNamed(denials: seq<(string, DenyReason)>, r: DenyReason, name: string)
    requires ReasonName(r) == name
    ensures name in Reasons(denials) <==> exists d :: d in denials && d.1 == r
  {
    ReasonsMean(denials);
    hide Reasons;
    forall q | ReasonName(q) == name ensures q == r {
      NamesDiffer(q, r);
    }
  }

  /** No two reasons share a name: they differ in length, or in their first letter. */
  lemma NamesDiffer(q: DenyReason, r: DenyReason)
    ensures ReasonName(q) == ReasonName(r) ==> q == r
  {
    assert |ReasonName(q)| == match q
      case WrongOwner => 11 case GrantExpired => 13 case AgentRevoked => 13 case SourceNotInScope => 19
      case EntityKindNotInScope => 24 case OutsideTimeWindow => 19 case TooSensitive => 13;
    assert ReasonName(q)[0] == match q
      case WrongOwner => 'w' case GrantExpired => 'g' case AgentRevoked => 'a' case SourceNotInScope => 's'
      case EntityKindNotInScope => 'e' case OutsideTimeWindow => 'o' case TooSensitive => 't';
    assert ReasonName(r)[0] == match r
      case WrongOwner => 'w' case GrantExpired => 'g' case AgentRevoked => 'a' case SourceNotInScope => 's'
      case EntityKindNotInScope => 'e' case OutsideTimeWindow => 'o' case TooSensitive => 't';
  }

  function Kinds(denials: seq<(string, DenyReason)>): set<DenyReason> {
    set d | d in denials :: d.1
  }

  /** Only the set of reasons shows in it. */
  lemma ReasonsOnly(a: seq<(string, DenyReason)>, b: seq<(string, DenyReason)>)
    requires Kinds(a) == Kinds(b)
    ensures Reasons(a) == Reasons(b)
  {
    NamesOnly(a, b);
    NamesOnly(b, a);
    assert ReasonNames(a) == ReasonNames(b);
  }

  lemma NamesOnly(a: seq<(string, DenyReason)>, b: seq<(string, DenyReason)>)
    requires Kinds(a) == Kinds(b)
    ensures ReasonNames(a) <= ReasonNames(b)
  {
    forall x | x in ReasonNames(a) ensures x in ReasonNames(b) {
      var d :| d in a && ReasonName(d.1) == x;
      assert d.1 in Kinds(b);
    }
  }

  function Spaced(s: string): string {
    seq(|s|, i requires 0 <= i < |s| => if s[i] == '_' then ' ' else s[i])
  }

  /** The reasons as prose. */
  function Pretty(reasons: seq<string>): string {
    Join(seq(|reasons|, i requires 0 <= i < |reasons| => Spaced(reasons[i])), ", ")
  }

  /** A name is read with spaces for its underscores. */
  lemma SpacedMeans(name: string, k: nat)
    requires k < |name|
    ensures |Spaced(name)| == |name| && Spaced(name)[k] == if name[k] == '_' then ' ' else name[k]
  {
  }

  /** Reasons are read out in turn, with commas between. */
  lemma PrettyMeans(reasons: seq<string>, last: string)
    ensures Pretty([]) == ""
    ensures Pretty(reasons + [last]) == if reasons == [] then Spaced(last) else Pretty(reasons) + ", " + Spaced(last)
  {
    hide Spaced;
    var prose := seq(|reasons|, j requires 0 <= j < |reasons| => Spaced(reasons[j]));
    var more := reasons + [last];
    assert seq(|more|, j requires 0 <= j < |more| => Spaced(more[j])) == prose + [Spaced(last)];
    JoinSnoc(prose, Spaced(last), ", ");
  }

  /** `"\n".join(lines)`. */
  function Lined(lines: seq<seq<Piece>>): seq<Piece> {
    if lines == [] then []
    else if |lines| == 1 then lines[0]
    else lines[0] + [Lit("\n")] + Lined(lines[1..])
  }

  /** The refusal every read gives when nothing it walked may be shown. */
  function Declining(objects: nat, what: string, reasons: seq<string>): seq<Piece> {
    [Lit("Declining to answer: "), Num(objects),
     Lit(what + ", but none are within the requesting agent's scope (" + Pretty(reasons) + ").")]
  }

  function KindName(k: EntityKind): string {
    match k
    case Person => "person"
    case Project => "project"
    case Artifact => "artifact"
    case Organization => "organization"
    case Topic => "topic"
  }
}
