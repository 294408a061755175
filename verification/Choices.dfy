/** Exactly when arrival order matters: every choice of one version per id is what some history holds. */
module Choices {
  import opened Schema
  import opened Store
  import opened Resolver
  import opened Ledger
  import opened Ingestion
  import opened Runs
  import opened Histories
  import opened Beliefs
  import opened AnyRuns
  import opened Confluence
  import opened Tellings

  // ---- whatever good runs told can be told again, claim by claim ----

  /** A claim of a good run could have been told alone. */
  lemma CanTellAgain(run: Run, k: nat, c: Claim)
    requires GoodRun(run) && k < |run.candidates| && c in run.candidates[k].claims
    ensures CanTell(c, run.candidates[k].entities)
  {
    var was := run.candidates[k];
    assert was in run.candidates;
    assert Extracted(run.owner, ClaimBatch(run.candidates)[k]);
    assert ClaimNode(c).LabelMatchesId();
  }

  lemma {:induction false} WordsCanBeTold(steps: seq<Step>, w: Words) returns (c: Claim, es: seq<Entity>)
    requires GoodSteps(steps) && w in Told(steps)
    ensures CanTell(c, es) && WordsOf(c) == w
  {
    hide GoodRun, CanTell, WordsOf, ClaimBatch, BatchWords;
    var step := steps[0];
    if step.Ingest? && w in BatchWords(ClaimBatch(step.run.candidates)) {
      var k;
      k, c := BatchWordsMeans(ClaimBatch(step.run.candidates), w);
      es := step.run.candidates[k].entities;
      assert GoodStep(step);
      CanTellAgain(step.run, k, c);
    } else {
      assert forall i :: 0 <= i < |steps| - 1 ==> steps[1..][i] == steps[i + 1];
      c, es := WordsCanBeTold(steps[1..], w);
    }
  }

  // ---- one more telling ----

  lemma {:induction false} ToldSnoc(steps: seq<Step>, step: Step)
    ensures Told(steps + [step]) == Told(steps) + Told([step])
  {
    if steps == [] {
      assert [] + [step] == [step];
    } else {
      ToldSnoc(steps[1..], step);
      assert (steps + [step])[1..] == steps[1..] + [step];
    }
  }

  lemma ToldOne(c: Claim, es: seq<Entity>, orders: seq<seq<seq<Id>>>)
    ensures Told([Ingest(Telling(c, es), orders)]) == {WordsOf(c)}
  {
    var steps := [Ingest(Telling(c, es), orders)];
    assert steps[1..] == [];
    TellingWords(c, es);
    hide BatchWords, ClaimBatch, WordsOf;
    assert Told(steps[1..]) == {};
  }

  /** A history with one claim more. */
  lemma TellMore(steps: seq<Step>, db: DB, c: Claim, es: seq<Entity>) returns (orders: seq<seq<seq<Id>>>)
    requires Leads(EMPTY, steps, db) && GoodSteps(steps) && CanTell(c, es)
    ensures CanRun(db, Telling(c, es), orders)
    ensures var more := steps + [Ingest(Telling(c, es), orders)];
            && Leads(EMPTY, more, AfterRun(db, Telling(c, es), orders)) && GoodSteps(more)
            && Told(more) == Told(steps) + {WordsOf(c)}
  {
    TellingIsGood(c, es);
    assert Reachable(db);
    hide Reachable, Leads, GoodSteps, AfterRun, CanTell, GoodRun, AllLabelled, Told, WordsOf, Inv;
    orders := TellingIsReachable(db, c, es);
    hide AreBatchReads;
    var step := Ingest(Telling(c, es), orders);
    LeadsSnoc(EMPTY, steps, db, step);
    ToldSnoc(steps, step);
    ToldOne(c, es, orders);
  }

  lemma AbsorbWords(cs: Claims, q: Claim)
    requires q.id !in cs
    ensures WordsIn(Absorb(cs, q)) == WordsIn(cs) + {WordsOf(q)}
  {
    var after := Absorb(cs, q);
    AbsorbSaysSame(cs, q);
    forall id | id in cs ensures WordsOf(after[id]) == WordsOf(cs[id]) {
      SameClaimSameWords(after[id], cs[id]);
    }
    hide WordsOf, Absorb;
    assert after.Keys == cs.Keys + {q.id} && after[q.id] == q by {
      AbsorbKeys(cs, q);
    }
    forall w | w in WordsIn(cs) ensures w in WordsIn(after) {
      var id :| id in cs && w == WordsOf(cs[id]);
      assert id in after;
    }
    assert WordsOf(after[q.id]) in WordsIn(after);
  }

  lemma AbsorbKeys(cs: Claims, q: Claim)
    ensures Absorb(cs, q).Keys == cs.Keys + {q.id} && Absorb(cs, q)[q.id] == q
  {
  }

  /** Telling a claim under a new id adds its words. */
  lemma TellingAdds(db: DB, c: Claim, es: seq<Entity>, orders: seq<seq<seq<Id>>>)
    requires CanRun(db, Telling(c, es), orders) && c.id !in db.nodes
    ensures WordsIn(ClaimsOf(AfterRun(db, Telling(c, es), orders))) == WordsIn(ClaimsOf(db)) + {WordsOf(c)}
  {
    hide GoodRun, AreBatchReads, AfterRun, Inv, MeetAll, SupersessionsAll, Absorb, WordsIn, WordsOf;
    TellingNew(db, c, es, orders);
    var q := MeetAll(c, Answered(db, c, es, orders));
    MeetAllKeepsSaid(c, Answered(db, c, es, orders));
    SameClaimSameWords(q, c);
    NotStoredNotHeld(db, c.id);
    hide ClaimsOf;
    AbsorbWords(ClaimsOf(db), q);
  }

  lemma NotStoredNotHeld(db: DB, id: Id)
    requires id !in db.nodes
    ensures id !in ClaimsOf(db)
  {
  }

  lemma NewVersionIsNew(db: DB, held: set<Words>, w: Words)
    requires Indexed(db) && WordsIn(ClaimsOf(db)) == held && w !in held && OnePerId(held + {w}) && "clm_" <= w.id
    ensures w.id !in db.nodes
  {
    IndexedHasIds(db);
    hide Indexed, ClaimsOf;
    if w.id in db.nodes {
      StoredIsClaim(db, w.id);
      WordsAreIn(ClaimsOf(db), w.id);
      assert false;
    }
  }

  // ---- a history for every choice ----

  /** A history that is told just these words, one version an id, holds them. */
  lemma {:induction false} ChoiceIsHeld(told: seq<Step>, chosen: set<Words>) returns (steps: seq<Step>, db: DB)
    requires GoodSteps(told) && chosen <= Told(told) && OnePerId(chosen)
    ensures Leads(EMPTY, steps, db) && GoodSteps(steps) && Told(steps) == chosen && WordsIn(ClaimsOf(db)) == chosen
    decreases |chosen|
  {
    if chosen == {} {
      steps, db := [], EMPTY;
      assert ClaimsOf(EMPTY) == map[];
    } else {
      hide GoodSteps, Told, WordsIn, ClaimsOf, AfterRun, CanRun, Leads, Indexed;
      var w :| w in chosen;
      var rest := chosen - {w};
      assert rest + {w} == chosen;
      var before, mid := ChoiceIsHeld(told, rest);
      var c, es := WordsCanBeTold(told, w);
      LedgerWords(before, mid);
      ToldId(c, es);
      NewVersionIsNew(mid, rest, w);
      var orders := TellMore(before, mid, c, es);
      steps, db := before + [Ingest(Telling(c, es), orders)], AfterRun(mid, Telling(c, es), orders);
      TellingAdds(mid, c, es, orders);
    }
  }

  lemma ToldId(c: Claim, es: seq<Entity>)
    requires CanTell(c, es)
    ensures "clm_" <= c.id && WordsOf(c).id == c.id
  {
    assert ClaimNode(c).LabelMatchesId();
  }

  lemma TellLate(before: seq<Step>, mid: DB, c: Claim, es: seq<Entity>) returns (steps: seq<Step>, db: DB)
    requires Leads(EMPTY, before, mid) && GoodSteps(before) && CanTell(c, es) && c.id in mid.nodes
    ensures Leads(EMPTY, steps, db) && GoodSteps(steps) && Told(steps) == Told(before) + {WordsOf(c)}
    ensures ClaimsOf(db) == ClaimsOf(mid)
  {
    hide GoodSteps, Told, AfterRun, CanTell, GoodRun, Inv, Leads, ClaimsOf, WordsOf;
    var orders := TellMore(before, mid, c, es);
    steps, db := before + [Ingest(Telling(c, es), orders)], AfterRun(mid, Telling(c, es), orders);
    TellingKnown(mid, c, es, orders);
  }

  lemma CoversLess(held: set<Words>, others: set<Words>, rest: set<Words>)
    requires Covers(held, others) && rest <= others
    ensures Covers(held, rest)
  {
  }

  /** Being told other versions of ids it holds changes nothing it holds. */
  lemma {:induction false} OthersComeLate(told: seq<Step>, before: seq<Step>, mid: DB, others: set<Words>)
    returns (steps: seq<Step>, db: DB)
    requires GoodSteps(told) && others <= Told(told) && Leads(EMPTY, before, mid) && GoodSteps(before)
    requires Covers(WordsIn(ClaimsOf(mid)), others)
    ensures Leads(EMPTY, steps, db) && GoodSteps(steps) && Told(steps) == Told(before) + others
    ensures ClaimsOf(db) == ClaimsOf(mid)
    decreases |others|
  {
    hide GoodSteps, Told, Leads, Covers, ClaimsOf, CanTell, WordsOf, WordsIn;
    if others == {} {
      steps, db := before, mid;
    } else {
      var w :| w in others;
      var rest := others - {w};
      assert rest + {w} == others;
      CoversLess(WordsIn(ClaimsOf(mid)), others, rest);
      var was, late := OthersComeLate(told, before, mid, rest);
      var c, es := WordsCanBeTold(told, w);
      var x := VersionHeld(WordsIn(ClaimsOf(mid)), others, w);
      ToldId(c, es);
      HeldUnder(was, late, x);
      steps, db := TellLate(was, late, c, es);
    }
  }

  lemma HeldUnder(steps: seq<Step>, db: DB, x: Words)
    requires Leads(EMPTY, steps, db) && x in WordsIn(ClaimsOf(db))
    ensures x.id in db.nodes
  {
    LedgerWords(steps, db);
    IndexedHasIds(db);
    hide Leads, Indexed;
  }

  /** Of what was told, any choice of one version an id is what some history, told the same, holds. */
  lemma AnyChoiceIsHeld(told: seq<Step>, chosen: set<Words>) returns (steps: seq<Step>, db: DB)
    requires GoodSteps(told) && IsChoice(chosen, Told(told))
    ensures Leads(EMPTY, steps, db) && GoodSteps(steps) && Told(steps) == Told(told) && WordsIn(ClaimsOf(db)) == chosen
  {
    hide GoodSteps, Told, WordsIn, ClaimsOf, Leads, OnePerId, Covers;
    var before, mid := ChoiceIsHeld(told, chosen);
    steps, db := OthersComeLate(told, before, mid, Told(told));
  }

  // ---- when order matters ----

  /** A history of good runs that is told what `told` is told. */
  ghost predicate TellsTheSame(told: seq<Step>, steps: seq<Step>, db: DB) {
    Leads(EMPTY, steps, db) && GoodSteps(steps) && Told(steps) == Told(told)
  }

  /** All histories that are told the same believe the same. */
  ghost predicate OrderIsFree(told: seq<Step>, owner: string, topic: set<string>) {
    forall s, db, s', db' :: TellsTheSame(told, s, db) && TellsTheSame(told, s', db') ==>
      Believed(ClaimsOf(db), owner, topic) == Believed(ClaimsOf(db'), owner, topic)
  }

  /** On a topic whose claims share an entity and clash at no instant, order and batching do not matter if and
      only if every choice of one version per id leaves the same to say to the latest. */
  lemma OrderMattersExactly(told: seq<Step>, owner: string, topic: set<string>)
    requires GoodSteps(told) && ComparableWords(Told(told), owner, topic)
    ensures OrderIsFree(told, owner, topic) <==> OneOutcome(Told(told), owner, topic)
  {
    hide GoodSteps, Told, WordsIn, ClaimsOf, Leads, IsChoice, LatestSaid, Believed, ComparableWords;
    if OneOutcome(Told(told), owner, topic) {
      hide OneOutcome;
      forall s, db, s', db' | TellsTheSame(told, s, db) && TellsTheSame(told, s', db')
        ensures Believed(ClaimsOf(db), owner, topic) == Believed(ClaimsOf(db'), owner, topic)
      {
        OrderDoesNotMatter(s, db, s', db', owner, topic);
      }
    }
    if OrderIsFree(told, owner, topic) {
      forall f, g | IsChoice(f, Told(told)) && IsChoice(g, Told(told))
        ensures LatestSaid(f, owner, topic) == LatestSaid(g, owner, topic)
      {
        var s, db := AnyChoiceIsHeld(told, f);
        var s', db' := AnyChoiceIsHeld(told, g);
        assert TellsTheSame(told, s, db) && TellsTheSame(told, s', db');
        hide OrderIsFree;
        BelievesItsChoice(s, db, owner, topic);
        BelievesItsChoice(s', db', owner, topic);
      }
    }
  }
}
