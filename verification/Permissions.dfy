/** The query-time permission check; the Python and the Rust copy take the same branches. */
module Permissions {
  import opened Basics

  datatype EntityKind = Person | Project | Artifact | Organization | Topic

  datatype Sensitivity = Public | Personal | Confidential | Restricted {
    function Rank(): nat {
      match this
      case Public => 0
      case Personal => 1
      case Confidential => 2
      case Restricted => 3
    }
  }

  datatype ObjectAcl = ObjectAcl(
    owner: string, sources: seq<string>, sensitivity: Sensitivity,
    entityKinds: seq<EntityKind>, occurredAt: int, deniedAgents: seq<string>)

  datatype Scope = Scope(
    agent: string, owner: string, sources: seq<string>, entityKinds: seq<EntityKind>,
    notBefore: Option<int>, notAfter: Option<int>,
    maxSensitivity: Sensitivity, expiresAt: Option<int>)

  datatype DenyReason =
    | WrongOwner | GrantExpired | AgentRevoked | SourceNotInScope
    | EntityKindNotInScope | OutsideTimeWindow | TooSensitive

  datatype Decision = Allow | Deny(reason: DenyReason)

  function Evaluate(scope: Scope, acl: ObjectAcl, now: int): Decision {
    if scope.owner != acl.owner then
      Deny(WrongOwner)
    else if scope.expiresAt.Some? && now >= scope.expiresAt.value then
      Deny(GrantExpired)
    else if scope.agent in acl.deniedAgents then
      Deny(AgentRevoked)
    else if acl.sources == [] || !(forall s | s in acl.sources :: s in scope.sources) then
      Deny(SourceNotInScope)
    else if acl.entityKinds == [] || !(forall k | k in acl.entityKinds :: k in scope.entityKinds) then
      Deny(EntityKindNotInScope)
    else if scope.notBefore.Some? && acl.occurredAt < scope.notBefore.value then
      Deny(OutsideTimeWindow)
    else if scope.notAfter.Some? && acl.occurredAt > scope.notAfter.value then
      Deny(OutsideTimeWindow)
    else if acl.sensitivity.Rank() > scope.maxSensitivity.Rank() then
      Deny(TooSensitive)
    else
      Allow
  }

  predicate Permits(scope: Scope, acl: ObjectAcl, now: int) {
    Evaluate(scope, acl, now).Allow?
  }

  // ---- what a decision means ----

  /** The one thing each reason for denial speaks of, on its own. */
  predicate Fails(scope: Scope, acl: ObjectAcl, now: int, r: DenyReason) {
    match r
    case WrongOwner => acl.owner != scope.owner
    case GrantExpired => scope.expiresAt.Some? && scope.expiresAt.value <= now
    case AgentRevoked => scope.agent in acl.deniedAgents
    case SourceNotInScope => acl.sources == [] || exists s :: s in acl.sources && s !in scope.sources
    case EntityKindNotInScope => acl.entityKinds == [] || exists k :: k in acl.entityKinds && k !in scope.entityKinds
    case OutsideTimeWindow =>
        !(LowerOrEqual(scope.notBefore, Some(acl.occurredAt)) && HigherOrEqual(scope.notAfter, Some(acl.occurredAt)))
    case TooSensitive =>
        match scope.maxSensitivity
        case Public => acl.sensitivity in {Personal, Confidential, Restricted}
        case Personal => acl.sensitivity in {Confidential, Restricted}
        case Confidential => acl.sensitivity == Restricted
        case Restricted => false
  }

  function Precedence(r: DenyReason): nat {
    match r
    case WrongOwner => 0
    case GrantExpired => 1
    case AgentRevoked => 2
    case SourceNotInScope => 3
    case EntityKindNotInScope => 4
    case OutsideTimeWindow => 5
    case TooSensitive => 6
  }

  /** An object is permitted when nothing fails, and else denied for what fails first. */
  lemma DenialNamesFirstFailure(scope: Scope, acl: ObjectAcl, now: int, r: DenyReason)
    ensures Permits(scope, acl, now) <==> forall q :: !Fails(scope, acl, now, q)
    ensures Evaluate(scope, acl, now) == Deny(r) <==>
              Fails(scope, acl, now, r) && forall q :: Precedence(q) < Precedence(r) ==> !Fails(scope, acl, now, q)
  {
    assert (forall s | s in acl.sources :: s in scope.sources) <==>
             !exists s :: s in acl.sources && s !in scope.sources;
    assert (forall k | k in acl.entityKinds :: k in scope.entityKinds) <==>
             !exists k :: k in acl.entityKinds && k !in scope.entityKinds;
    if Evaluate(scope, acl, now).Deny? {
      assert Fails(scope, acl, now, Evaluate(scope, acl, now).reason);
    }
  }

  // ---- what one scope may see that another may not ----

  /** An absent lower bound is below every bound; an absent upper bound is above every bound. */
  predicate LowerOrEqual(a: Option<int>, b: Option<int>) {
    a.None? || (b.Some? && a.value <= b.value)
  }

  predicate HigherOrEqual(a: Option<int>, b: Option<int>) {
    a.None? || (b.Some? && a.value >= b.value)
  }

  /** `wide` restricts nothing that `narrow` does not restrict at least as much. */
  predicate Widens(wide: Scope, narrow: Scope) {
    && wide.owner == narrow.owner
    && wide.agent == narrow.agent
    && Elements(narrow.sources) <= Elements(wide.sources)
    && Elements(narrow.entityKinds) <= Elements(wide.entityKinds)
    && LowerOrEqual(wide.notBefore, narrow.notBefore)
    && HigherOrEqual(wide.notAfter, narrow.notAfter)
    && wide.maxSensitivity.Rank() >= narrow.maxSensitivity.Rank()
    && HigherOrEqual(wide.expiresAt, narrow.expiresAt)
  }

  /** Widening a scope, or asking earlier, never turns an allow into a deny. */
  lemma PermitsMonotone(wide: Scope, narrow: Scope, acl: ObjectAcl, early: int, late: int)
    requires Widens(wide, narrow) && early <= late
    requires Permits(narrow, acl, late)
    ensures Permits(wide, acl, early)
  {
    forall s | s in acl.sources ensures s in wide.sources {
      assert s in Elements(narrow.sources);
    }
    forall k | k in acl.entityKinds ensures k in wide.entityKinds {
      assert k in Elements(narrow.entityKinds);
    }
  }

  /** The object a scope sees whenever it sees anything: its own grant, at its own limit. */
  function Boundary(scope: Scope, at: int): ObjectAcl {
    ObjectAcl(scope.owner, scope.sources, scope.maxSensitivity, scope.entityKinds, at, [])
  }

  ghost predicate InWindow(scope: Scope, at: int) {
    LowerOrEqual(scope.notBefore, Some(at)) && HigherOrEqual(scope.notAfter, Some(at))
  }

  /** For scopes that can see something, `Widens` is not only enough but necessary:
      a scope that sees all that another sees, for as long, is wider in every component. */
  lemma WidensExactly(wide: Scope, narrow: Scope)
    requires wide.agent == narrow.agent
    requires narrow.sources != [] && narrow.entityKinds != []
    requires narrow.notBefore.Some? && narrow.notAfter.Some? ==> narrow.notBefore.value <= narrow.notAfter.value
    ensures (forall acl, early, late :: early <= late && Permits(narrow, acl, late) ==> Permits(wide, acl, early))
        <==> Widens(wide, narrow)
  {
    if Widens(wide, narrow) {
      forall acl, early, late | early <= late && Permits(narrow, acl, late)
        ensures Permits(wide, acl, early)
      {
        PermitsMonotone(wide, narrow, acl, early, late);
      }
    }
    if forall acl, early, late :: early <= late && Permits(narrow, acl, late) ==> Permits(wide, acl, early) {
      // An instant in the narrow window, as close to the wide scope's limits as the window allows.
      var lo := LowProbe(narrow, wide);
      var hi := HighProbe(narrow, wide);
      var now := TimeProbe(narrow, wide);
      forall at | InWindow(narrow, at) ensures Permits(wide, Boundary(narrow, at), now) {
        assert Permits(narrow, Boundary(narrow, at), now);
      }
      assert Permits(wide, Boundary(narrow, lo), now);
      assert Permits(wide, Boundary(narrow, hi), now);
    }
  }

  /** An instant inside `narrow`'s window and, if any is, before `wide`'s. */
  ghost function LowProbe(narrow: Scope, wide: Scope): (at: int)
    requires narrow.notBefore.Some? && narrow.notAfter.Some? ==> narrow.notBefore.value <= narrow.notAfter.value
    ensures InWindow(narrow, at)
    ensures InWindow(wide, at) ==> LowerOrEqual(wide.notBefore, narrow.notBefore)
  {
    if narrow.notBefore.Some? then narrow.notBefore.value
    else
      var cap := if narrow.notAfter.Some? then narrow.notAfter.value else 0;
      if wide.notBefore.Some? && wide.notBefore.value <= cap then wide.notBefore.value - 1 else cap
  }

  /** An instant inside `narrow`'s window and, if any is, after `wide`'s. */
  ghost function HighProbe(narrow: Scope, wide: Scope): (at: int)
    requires narrow.notBefore.Some? && narrow.notAfter.Some? ==> narrow.notBefore.value <= narrow.notAfter.value
    ensures InWindow(narrow, at)
    ensures InWindow(wide, at) ==> HigherOrEqual(wide.notAfter, narrow.notAfter)
  {
    if narrow.notAfter.Some? then narrow.notAfter.value
    else
      var floor := if narrow.notBefore.Some? then narrow.notBefore.value else 0;
      if wide.notAfter.Some? && wide.notAfter.value >= floor then wide.notAfter.value + 1 else floor
  }

  /** A moment `narrow` is unexpired at and, if any is, `wide` is expired at. */
  ghost function TimeProbe(narrow: Scope, wide: Scope): (now: int)
    ensures narrow.expiresAt.Some? ==> now < narrow.expiresAt.value
    ensures (wide.expiresAt.Some? ==> now < wide.expiresAt.value) ==> HigherOrEqual(wide.expiresAt, narrow.expiresAt)
  {
    if narrow.expiresAt.Some? then narrow.expiresAt.value - 1
    else if wide.expiresAt.Some? then wide.expiresAt.value else 0
  }
}
