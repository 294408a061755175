/** What the two histories show of an object, field by field, and what their lines say of it. */
module ReadTexts {
  import opened Basics
  import opened Permissions
  import opened Schema
  import opened PermissionPass
  import opened Text
  import Shift = ShiftHistories
  import Context = ContextChains

  lemma LinedMeans(lines: seq<seq<Piece>>, last: seq<Piece>)
    ensures Lined([]) == []
    ensures Lined(lines + [last]) == if lines == [] then last else Lined(lines) + [Lit("\n")] + last
  {
    LinedSnoc(lines, last);
  }

  lemma {:induction false} LinedSnoc(lines: seq<seq<Piece>>, last: seq<Piece>)
    ensures Lined(lines + [last]) == if lines == [] then last else Lined(lines) + [Lit("\n")] + last
  {
    if |lines| == 1 {
      assert (lines + [last])[1..] == [last];
    } else if lines != [] {
      LinedSnoc(lines[1..], last);
      assert (lines + [last])[1..] == lines[1..] + [last];
      var (a, b, c) := (lines[0] + [Lit("\n")], Lined(lines[1..]), [Lit("\n")] + last);
      assert Lined(lines + [last]) == a + (b + [Lit("\n")] + last);
      assert a + (b + [Lit("\n")] + last) == a + b + [Lit("\n")] + last;
    }
  }

  // ---- the shift read ----

  /** A visible claim by its statement, status, time, sources and whether it is a commitment; a denied one by its
      id and the reason alone. */
  lemma ClaimShows(c: Claim, denied: Option<DenyReason>)
    ensures var v := Shift.ViewOf(c, denied);
            match denied
            case Some(reason) => v.Withheld? && v.id == c.id && v.reason == reason
            case None =>
              && v.Seen? && v.id == c.id && v.statement == c.statement && v.status == c.status
              && v.assertedAt == c.assertedAt && v.sources == c.acl.sources
              && (v.isCommitment <==> c.commitment.Some?)
  {
  }

  /** A claim as a line names it. */
  function Named(c: Claim, denied: Option<DenyReason>): string {
    match denied
    case None => "\"" + c.statement + "\" (" + c.id + ")"
    case Some(_) => "[withheld " + c.id + "]"
  }

  lemma ShortNames(c: Claim, denied: Option<DenyReason>)
    ensures Shift.Short(Shift.ViewOf(c, denied)) == Named(c, denied)
  {
  }

  /** Connector and external id of each new citation, in the later claim's own order. */
  lemma EvidenceIs(citations: seq<Citation>)
    ensures var names := Shift.EvidenceNames(citations);
            && |names| == |citations|
            && forall i :: 0 <= i < |names| ==>
                 names[i] == citations[i].source.connector + "/" + citations[i].source.externalId
  {
  }

  /** The line of a step both of whose claims are visible: the later superseded the earlier, after the time between
      them, on the new evidence. */
  lemma StepLineSays(n: nat, later: Claim, earlier: Claim, verdicts: Shift.Passed)
    requires Reason(verdicts, later.id) == None && Reason(verdicts, earlier.id) == None
    ensures var step := Shift.StepOf(later, earlier, verdicts);
            var evidence := Join(Shift.EvidenceNames(step.newCitations), ", ");
            Shift.StepLine(n, step)
            == [Num(n), Lit(". after "), Days(later.assertedAt - earlier.assertedAt),
                Lit("d, " + Named(later, None) + " superseded " + Named(earlier, None)
                    + if evidence == "" then " -- no new citations." else " -- new evidence: " + evidence + ".")]
  {
    ShortNames(later, None);
    ShortNames(earlier, None);
    hide Shift.NewOnes, Shift.Cited, Shift.EvidenceNames, Join, Shift.ViewOf, Shift.Short, Reason, Named;
  }

  /** The line of any other step: which claim superseded which, and nothing more. */
  lemma WithheldLineSays(n: nat, later: Claim, earlier: Claim, verdicts: Shift.Passed)
    requires Reason(verdicts, later.id).Some? || Reason(verdicts, earlier.id).Some?
    ensures Shift.StepLine(n, Shift.StepOf(later, earlier, verdicts))
         == [Num(n), Lit(". " + Named(later, Reason(verdicts, later.id)) + " superseded "
                         + Named(earlier, Reason(verdicts, earlier.id)) + " -- details withheld (out of scope).")]
  {
    ShortNames(later, Reason(verdicts, later.id));
    ShortNames(earlier, Reason(verdicts, earlier.id));
    hide Shift.NewOnes, Shift.Cited, Shift.EvidenceNames, Join, Shift.ViewOf, Shift.Short, Reason, Named;
  }

  lemma ConflictLineSays(a: Claim, x: Option<DenyReason>, b: Claim, y: Option<DenyReason>)
    ensures Shift.ConflictLine(Shift.Conflict(Shift.ViewOf(a, x), Shift.ViewOf(b, y)))
         == [Lit("! " + Named(a, x) + " still contradicts " + Named(b, y) + ".")]
  {
    ShortNames(a, x);
    ShortNames(b, y);
    hide Shift.ViewOf, Shift.Short, Named;
  }

  /** Claims come by time of assertion, then id. */
  lemma AssertedOrder(claims: Shift.Held, x: Id, y: Id)
    requires x in claims && y in claims
    ensures Before(Shift.AssertedRank(claims), x, y) <==>
              || claims[x].assertedAt < claims[y].assertedAt
              || (claims[x].assertedAt == claims[y].assertedAt && StrLess(x, y))
  {
  }

  /** A claim tells what it was reconciled into if it names an id, and an empty one is none; the target is shown if
      it was walked, and else named. */
  lemma TargetShows(claims: Shift.Held, verdicts: Shift.Passed, c: Claim)
    ensures Shift.Reconciles(c) <==> exists id :: c.reconciledInto == Some(id) && id != ""
    ensures Shift.Reconciles(c) ==>
              var (id, target) := (c.reconciledInto.value, Shift.TargetOf(claims, verdicts, c.reconciledInto.value));
              if id in claims then target == Shift.Target.Held(Shift.ViewOf(claims[id], Reason(verdicts, id)))
              else target == Shift.Named(id)
  {
    hide Shift.ViewOf;
  }

  /** The lines of the text: the head with the numbers of steps and conflicts, then each step under its number, then
      each conflict. */
  lemma ShiftTextIs(id: Id, steps: seq<Shift.Step>, conflicts: seq<Shift.Conflict>, lines: seq<seq<Piece>>)
    requires |lines| == 1 + |steps| + |conflicts| && |lines| > 1
    requires lines[0] == [Lit(id + ": "), Num(|steps|), Lit(" supersession(s), "), Num(|conflicts|),
                          Lit(" open conflict(s).")]
    requires forall i :: 0 <= i < |steps| ==> lines[1 + i] == Shift.StepLine(1 + i, steps[i])
    requires forall i :: 0 <= i < |conflicts| ==> lines[1 + |steps| + i] == Shift.ConflictLine(conflicts[i])
    ensures Shift.TextOf(id, steps, conflicts) == Lined(lines)
  {
    hide Shift.StepLine, Shift.ConflictLine, Lined;
    LinesInParts(lines, Shift.StepLines(steps), Shift.ConflictLines(conflicts));
  }

  lemma LinesInParts(lines: seq<seq<Piece>>, some: seq<seq<Piece>>, others: seq<seq<Piece>>)
    requires |lines| == 1 + |some| + |others|
    requires forall i :: 0 <= i < |some| ==> lines[1 + i] == some[i]
    requires forall i :: 0 <= i < |others| ==> lines[1 + |some| + i] == others[i]
    ensures lines == [lines[0]] + some + others
  {
    var parts := [lines[0]] + some + others;
    forall i | 0 <= i < |lines| ensures lines[i] == parts[i] {
      if 0 < i <= |some| {
        assert lines[1 + (i - 1)] == some[i - 1];
      } else if i > |some| {
        assert lines[1 + |some| + (i - 1 - |some|)] == others[i - 1 - |some|];
      }
    }
  }

  lemma QuietTextIs(id: Id)
    ensures Shift.TextOf(id, [], []) == [Lit(id + " has not been superseded or contradicted.")]
  {
  }

  /** The read is answered exactly when some walked claim is visible; denied claims are counted and named all the
      same. */
  lemma ShiftAnswers(id: Id, walk: Shift.ShiftWalk, scope: Scope, now: int)
    ensures var (r, claims) := (Shift.Read(id, walk, scope, now), Shift.ClaimsIn(walk.found));
            && r.claimId == id && r.considered == |claims|
            && (r.answered <==> exists c :: c in claims && Reason(Verdicts(scope, walk.found, now), c) == None)
            && (claims != map[] ==> r.denied == Denials(scope, walk.found, now))
            && (claims == map[] ==>
                  r.text == [Lit("No claim "), Quoted(id), Lit(" is present in this memory.")])
            && (claims != map[] && !r.answered ==>
                  && r.steps == [] && r.chain == []
                  && r.text == [Lit("Declining to answer: "), Num(|claims|),
                                Lit(" claim(s) make up this decision's history"
                                    + ", but none are within the requesting agent's scope ("
                                    + Pretty(Reasons(Denials(scope, walk.found, now))) + ").")])
  {
    hide Shift.ClaimsIn, Shift.StepsOf, Shift.ConflictsOf, Shift.ChainOf, Shift.ReconciliationsOf, Shift.InOrder,
        Shift.TextOf, Reason, Pretty, Reasons, Verdicts, Denials;
    var claims := Shift.ClaimsIn(walk.found);
    assert claims == map[] <==> claims.Keys == {};
  }

  // ---- the context read ----

  /** A visible object by its label's fields, a denied one by its id, hops and the reason alone. */
  lemma ObjectShows(id: Id, node: Node, hops: nat, denied: Option<DenyReason>)
    ensures var v := Context.ViewOf(id, node, hops, denied);
            && v.id == id && v.hops == hops
            && match denied
               case Some(reason) => v.Withheld? && v.reason == reason
               case None =>
                 match node
                 case EventNode(e) =>
                   v.EventSeen? && v.sources == e.acl.sources && v.summary == e.summary && v.source == e.source
                 case ClaimNode(c) =>
                   v.ClaimSeen? && v.sources == c.acl.sources && v.statement == c.statement && v.status == c.status
                 case EntityNode(e) => v.EntitySeen? && v.sources == e.acl.sources && v.name == e.name
  {
  }

  /** The line of a visible object: an event under the connector it came by, any other, or an event without one,
      under its sources. */
  lemma ObjectLineSays(id: Id, node: Node, hops: nat)
    ensures var line := Context.Line(Context.ViewOf(id, node, hops, None));
            && |line| == 3 && line[0] == Lit("- [") && line[1] == Num(hops)
            && match node
               case EventNode(e) =>
                 line[2] == Lit(" hop] " + (if e.source.connector != "" then e.source.connector
                                            else Join(e.acl.sources, ",")) + ": " + e.summary + " (" + id + ")")
               case ClaimNode(c) =>
                 line[2] == Lit(" hop] " + Join(c.acl.sources, ",") + ": " + c.statement + " (" + id + ")")
               case EntityNode(e) =>
                 line[2] == Lit(" hop] " + Join(e.acl.sources, ",") + ": " + e.name + " (" + id + ")")
  {
    hide Join;
  }

  lemma WithheldObjectSays(id: Id, node: Node, hops: nat, reason: DenyReason)
    ensures Context.Line(Context.ViewOf(id, node, hops, Some(reason)))
         == [Lit("- ["), Num(hops), Lit(" hop] withheld (" + ReasonName(reason) + ") " + id)]
  {
    hide ReasonName;
  }

  /** The sources named are those of visible objects. */
  lemma SourcesAreSeen(views: seq<Context.View>, s: string)
    ensures s in Context.AllSources(views) <==>
              exists v :: v in views && (v.EventSeen? || v.ClaimSeen? || v.EntitySeen?) && s in v.sources
  {
    Context.SourcesSeen(views);
    hide Context.AllSources;
    if v :| v in views && !v.Withheld? && s in v.sources {
      assert s in Context.SourcesOf(v);
    }
  }

  /** The objects counted are those other than at no hops. */
  lemma {:induction false} ReachMeans(views: seq<Context.View>)
    ensures Context.Reach(views) == |set i | 0 <= i < |views| && views[i].hops > 0|
  {
    var n := |views| - 1;
    var far := set i | 0 <= i < |views| && views[i].hops > 0;
    if views == [] {
      assert far == {};
    } else {
      ReachMeans(views[..n]);
      var before := set i | 0 <= i < n && views[..n][i].hops > 0;
      if views[n].hops > 0 {
        assert far == before + {n};
      } else {
        assert far == before;
      }
    }
  }

  /** The lines of the text: the head, with how many objects are reached and from which sources, then a line for
      every object. */
  lemma ContextTextIs(seed: Id, views: seq<Context.View>, sources: seq<string>, lines: seq<seq<Piece>>)
    requires Context.Reach(views) > 0 && |lines| == 1 + |views|
    requires lines[0] == [Lit(seed + ": "), Num(Context.Reach(views)),
                          Lit(" object(s) in the citation chain across "), Num(|sources|),
                          Lit(" source(s) (" + (if |sources| == 0 then "none visible" else Join(sources, ", ")) + ").")]
    requires forall i :: 0 <= i < |views| ==> lines[1 + i] == Context.Line(views[i])
    ensures Context.TextOf(seed, views, sources) == Lined(lines)
  {
    hide Context.Line, Lined, Context.Reach, Join;
    var own := seq(|views|, i requires 0 <= i < |views| => Context.Line(views[i]));
    LinesInParts(lines, own, []);
    assert [lines[0]] + own + [] == [lines[0]] + own;
    assert lines[0] == Context.Head(seed, Context.Reach(views), sources);
    hide Context.Head;
  }

  lemma AloneTextIs(seed: Id, views: seq<Context.View>, sources: seq<string>)
    requires Context.Reach(views) == 0
    ensures Context.TextOf(seed, views, sources) == [Lit(seed + " cites nothing and nothing cites it.")]
  {
  }

  /** The read is answered exactly when some walked object is visible. */
  lemma ContextAnswers(seed: Id, hops: nat, walk: Context.CitesWalk, scope: Scope, now: int)
    ensures var (r, nodes) := (Context.Read(seed, hops, walk, scope, now), ById(walk.found));
            && r.objectId == seed && r.hops == hops && r.considered == |nodes|
            && (r.answered <==> exists id :: id in nodes && Reason(Verdicts(scope, walk.found, now), id) == None)
            && (nodes != map[] ==> r.denied == Denials(scope, walk.found, now))
            && (r.answered ==>
                  r.sources == Context.AllSources(r.nodes) && r.text == Context.TextOf(seed, r.nodes, r.sources))
            && (nodes == map[] ==>
                  r.text == [Lit("No object "), Quoted(seed), Lit(" is present in this memory.")])
            && (nodes != map[] && !r.answered ==>
                  && r.nodes == [] && r.edges == []
                  && r.text == [Lit("Declining to answer: "), Num(|nodes|),
                                Lit(" object(s) form this context chain"
                                    + ", but none are within the requesting agent's scope ("
                                    + Pretty(Reasons(Denials(scope, walk.found, now))) + ").")])
  {
    hide ById, Context.Views, Context.AllSources, Context.TextOf, Reason, Pretty, Reasons, Verdicts, Denials;
    var nodes := ById(walk.found);
    assert nodes == map[] <==> nodes.Keys == {};
  }
}
