/** Arrival order and batching do not matter: what is believed depends only on what was told. */
module Confluence {
  import opened Basics
  import opened Schema
  import opened Statements
  import opened Store
  import opened Ledger
  import opened Runs
  import opened Beliefs
  import opened AnyRuns

  /** The ledger holds a version of every id told, and only versions that were told. */
  lemma LedgerWords(steps: seq<Step>, db: DB)
    requires Leads(EMPTY, steps, db)
    ensures Indexed(db) && WordsIn(ClaimsOf(db)) <= Told(steps)
    ensures forall w :: w in Told(steps) ==> w.id in ClaimsOf(db)
  {
    EmptyIsSound();
    LedgerIsTold(EMPTY, steps, db);
    assert WordsIn(ClaimsOf(EMPTY)) == {} by {
      assert ClaimsOf(EMPTY) == map[];
    }
    hide ClaimsOf, Inv, Leads, Indexed;
  }

  /** What is believed about a topic: the contents of its active claims. */
  ghost function Believed(cs: Claims, owner: string,
                          topic: set<string>): set<(set<string>, (Option<Id>, Option<Id>, Option<int>))> {
    set id | id in Group(cs, owner, topic) && cs[id].status == Active :: (Tokens(cs[id].statement), Obligation(cs[id]))
  }

  /** The same condition as `Comparable`, on what was told: versions of one id never meet, so they may clash. */
  ghost predicate ComparableWords(told: set<Words>, owner: string, topic: set<string>) {
    && (exists e :: AllToldAbout(told, owner, topic, e))
    && (forall a, b ::
          && a in told && b in told && a.id != b.id && OnTopic(a, owner, topic) && OnTopic(b, owner, topic)
          && a.assertedAt == b.assertedAt ==>
            Tokens(a.statement) == Tokens(b.statement) && a.obligation == b.obligation)
  }

  ghost predicate OnTopic(w: Words, owner: string, topic: set<string>) {
    w.owner == owner && Topic(w.statement) == topic
  }

  ghost predicate AllToldAbout(told: set<Words>, owner: string, topic: set<string>, e: Id) {
    forall w :: w in told && OnTopic(w, owner, topic) ==> e in w.subjects
  }

  /** An assumption on what is told of a topic: an id told of it is always told with the same content and
      time. An id digests owner, event and statement only, so nothing in the program ensures it. */
  ghost predicate OneVersion(told: set<Words>, owner: string, topic: set<string>) {
    forall a, b :: a in told && b in told && a.id == b.id && OnTopic(a, owner, topic) ==>
      && OnTopic(b, owner, topic) && Tokens(a.statement) == Tokens(b.statement)
      && a.obligation == b.obligation && a.assertedAt == b.assertedAt
  }

  lemma ComparableSubset(some: set<Words>, told: set<Words>, owner: string, topic: set<string>)
    requires some <= told && ComparableWords(told, owner, topic)
    ensures ComparableWords(some, owner, topic)
  {
    hide OnTopic, Tokens;
    var e :| AllToldAbout(told, owner, topic, e);
    assert AllToldAbout(some, owner, topic, e);
  }

  lemma ComparableWhenTold(cs: Claims, owner: string, topic: set<string>)
    requires ComparableWords(WordsIn(cs), owner, topic) && forall id :: id in cs ==> cs[id].id == id
    ensures Comparable(cs, owner, topic)
  {
    hide Topic, Tokens, Obligation;
    forall id | id in Group(cs, owner, topic)
      ensures WordsOf(cs[id]) in WordsIn(cs) && OnTopic(WordsOf(cs[id]), owner, topic) {
    }
    var e :| AllToldAbout(WordsIn(cs), owner, topic, e);
    assert AllAbout(cs, Group(cs, owner, topic), e);
  }

  lemma {:induction false} LatestExists(cs: Claims, group: set<Id>) returns (latest: Id)
    requires group != {} && group <= cs.Keys
    ensures latest in group && forall x :: x in group ==> cs[x].assertedAt <= cs[latest].assertedAt
    decreases |group|
  {
    latest :| latest in group;
    var rest := group - {latest};
    if rest != {} {
      var other := LatestExists(cs, rest);
      if cs[other].assertedAt > cs[latest].assertedAt {
        latest := other;
      }
    }
  }

  /** Believed: exactly the content of the latest claim told. */
  lemma BelievedIsLatest(db: DB, owner: string, topic: set<string>, latest: Id)
    requires Reachable(db) && Comparable(ClaimsOf(db), owner, topic) && IsLatest(ClaimsOf(db), owner, topic, latest)
    ensures var c := ClaimsOf(db)[latest];
            Believed(ClaimsOf(db), owner, topic) == {(Tokens(c.statement), Obligation(c))}
  {
    LatestIsBelieved(db, owner, topic, latest);
    hide Topic, Tokens, Obligation, ClaimsOf, Comparable;
  }

  // ---- whatever was told, the ledger holds one version of each id ----

  ghost predicate IsChoice(chosen: set<Words>, told: set<Words>) {
    chosen <= told && Covers(chosen, told) && OnePerId(chosen)
  }

  /** Of every id told some version is held. */
  ghost predicate Covers(chosen: set<Words>, told: set<Words>) {
    forall w :: w in told ==> exists x :: x in chosen && x.id == w.id
  }

  ghost predicate OnePerId(chosen: set<Words>) {
    forall x, y :: x in chosen && y in chosen && x.id == y.id ==> x == y
  }

  ghost predicate IsLatestWords(words: set<Words>, owner: string, topic: set<string>, w: Words) {
    w in words && OnTopic(w, owner, topic)
    && forall x :: x in words && OnTopic(x, owner, topic) ==> x.assertedAt <= w.assertedAt
  }

  /** What the latest of these words on a topic say. */
  ghost function LatestSaid(words: set<Words>, owner: string,
                            topic: set<string>): set<(set<string>, (Option<Id>, Option<Id>, Option<int>))> {
    set w | w in words && IsLatestWords(words, owner, topic, w) :: (Tokens(w.statement), w.obligation)
  }

  lemma LedgerIsChoice(steps: seq<Step>, db: DB)
    requires Leads(EMPTY, steps, db)
    ensures IsChoice(WordsIn(ClaimsOf(db)), Told(steps))
    ensures forall id :: id in ClaimsOf(db) ==> ClaimsOf(db)[id].id == id
  {
    LedgerWords(steps, db);
    IndexedHasIds(db);
    var cs := ClaimsOf(db);
    hide Leads, Told, ClaimsOf, Indexed;
    forall w | w in Told(steps) ensures exists x :: x in WordsIn(cs) && x.id == w.id {
      assert WordsOf(cs[w.id]) in WordsIn(cs);
    }
  }

  lemma LatestIsLatest(cs: Claims, owner: string, topic: set<string>, id: Id)
    requires IsLatest(cs, owner, topic, id)
    ensures IsLatestWords(WordsIn(cs), owner, topic, WordsOf(cs[id]))
  {
    hide Topic, Tokens, Obligation;
  }

  /** What is believed is what the latest words in the ledger say. */
  lemma BelievedIsLatestSaid(db: DB, owner: string, topic: set<string>)
    requires Reachable(db) && ComparableWords(WordsIn(ClaimsOf(db)), owner, topic)
    requires forall id :: id in ClaimsOf(db) ==> ClaimsOf(db)[id].id == id
    ensures Believed(ClaimsOf(db), owner, topic) == LatestSaid(WordsIn(ClaimsOf(db)), owner, topic)
  {
    var cs := ClaimsOf(db);
    ComparableWhenTold(cs, owner, topic);
    hide ClaimsOf, Reachable;
    if Group(cs, owner, topic) == {} {
      NothingSaid(cs, owner, topic);
    } else {
      var last := LatestExists(cs, Group(cs, owner, topic));
      hide Believed, LatestSaid, Comparable, ComparableWords;
      BelievedIsLatest(db, owner, topic, last);
      LatestIsLatest(cs, owner, topic, last);
      OneLatest(WordsIn(cs), owner, topic, WordsOf(cs[last]));
    }
  }

  lemma NothingSaid(cs: Claims, owner: string, topic: set<string>)
    requires Group(cs, owner, topic) == {}
    ensures Believed(cs, owner, topic) == {} == LatestSaid(WordsIn(cs), owner, topic)
  {
    hide Topic, Tokens, Obligation;
    forall w | w in WordsIn(cs) ensures !OnTopic(w, owner, topic) {
      var id :| id in cs && WordsOf(cs[id]) == w;
      assert id !in Group(cs, owner, topic);
    }
  }

  /** Comparable words of latest time all say the same. */
  lemma OneLatest(words: set<Words>, owner: string, topic: set<string>, w: Words)
    requires ComparableWords(words, owner, topic) && OnePerId(words) && IsLatestWords(words, owner, topic, w)
    ensures LatestSaid(words, owner, topic) == {(Tokens(w.statement), w.obligation)}
  {
    hide Tokens, OnTopic, AllToldAbout;
    forall x | x in words && IsLatestWords(words, owner, topic, x)
      ensures Tokens(x.statement) == Tokens(w.statement) && x.obligation == w.obligation
    {
      assert x.assertedAt == w.assertedAt;
    }
  }

  // ---- confluence ----

  /** Whichever version of each id is held, the latest words on the topic say the same. */
  ghost predicate OneOutcome(told: set<Words>, owner: string, topic: set<string>) {
    forall f, g :: IsChoice(f, told) && IsChoice(g, told) ==>
      LatestSaid(f, owner, topic) == LatestSaid(g, owner, topic)
  }

  lemma BelievesItsChoice(steps: seq<Step>, db: DB, owner: string, topic: set<string>)
    requires Leads(EMPTY, steps, db) && GoodSteps(steps) && ComparableWords(Told(steps), owner, topic)
    ensures IsChoice(WordsIn(ClaimsOf(db)), Told(steps))
    ensures Believed(ClaimsOf(db), owner, topic) == LatestSaid(WordsIn(ClaimsOf(db)), owner, topic)
  {
    assert Reachable(db);
    LedgerIsChoice(steps, db);
    hide Leads, GoodSteps, Told, Reachable, ClaimsOf, WordsIn, ComparableWords, Believed, LatestSaid;
    ComparableSubset(WordsIn(ClaimsOf(db)), Told(steps), owner, topic);
    BelievedIsLatestSaid(db, owner, topic);
  }

  /** Two histories told the same claims, in whatever order and split into whatever runs, believe
      the same about every topic whose claims share an entity, clash at no instant, and whose outcome does not
      hang on which version of an id came first. */
  lemma OrderDoesNotMatter(steps: seq<Step>, db: DB, steps': seq<Step>, db': DB, owner: string, topic: set<string>)
    requires Leads(EMPTY, steps, db) && Leads(EMPTY, steps', db') && GoodSteps(steps) && GoodSteps(steps')
    requires Told(steps) == Told(steps')
    requires OneOutcome(Told(steps), owner, topic) && ComparableWords(Told(steps), owner, topic)
    ensures Believed(ClaimsOf(db), owner, topic) == Believed(ClaimsOf(db'), owner, topic)
  {
    hide Leads, GoodSteps, Told, ClaimsOf, WordsIn, ComparableWords, Believed, LatestSaid, IsChoice;
    BelievesItsChoice(steps, db, owner, topic);
    BelievesItsChoice(steps', db', owner, topic);
  }

  /** So it is where every id is told in one version. */
  lemma OneVersionOneOutcome(told: set<Words>, owner: string, topic: set<string>)
    requires OneVersion(told, owner, topic)
    ensures OneOutcome(told, owner, topic)
  {
    hide Tokens, OnTopic, OneVersion;
    forall f, g | IsChoice(f, told) && IsChoice(g, told)
      ensures LatestSaid(f, owner, topic) <= LatestSaid(g, owner, topic) {
      forall w | w in f && IsLatestWords(f, owner, topic, w)
        ensures (Tokens(w.statement), w.obligation) in LatestSaid(g, owner, topic)
      {
        var x := TwinIsLatest(told, f, g, owner, topic, w);
      }
    }
  }

  lemma VersionHeld(chosen: set<Words>, told: set<Words>, w: Words) returns (x: Words)
    requires Covers(chosen, told) && w in told
    ensures x in chosen && x.id == w.id
  {
    x :| x in chosen && x.id == w.id;
  }

  lemma VersionsAgree(told: set<Words>, owner: string, topic: set<string>, w: Words, x: Words)
    requires OneVersion(told, owner, topic) && w in told && x in told && w.id == x.id && OnTopic(w, owner, topic)
    ensures OnTopic(x, owner, topic) && Tokens(x.statement) == Tokens(w.statement)
    ensures x.obligation == w.obligation && x.assertedAt == w.assertedAt
  {
    hide Tokens, OnTopic;
  }

  lemma Twin(told: set<Words>, g: set<Words>, owner: string, topic: set<string>, w: Words) returns (x: Words)
    requires OneVersion(told, owner, topic) && IsChoice(g, told) && w in told && OnTopic(w, owner, topic)
    ensures x in g && OnTopic(x, owner, topic) && Tokens(x.statement) == Tokens(w.statement)
    ensures x.obligation == w.obligation && x.assertedAt == w.assertedAt
  {
    hide Tokens, OnTopic, OneVersion, Covers, OnePerId;
    x := VersionHeld(g, told, w);
    VersionsAgree(told, owner, topic, w, x);
  }

  lemma TwinIsLatest(told: set<Words>, f: set<Words>, g: set<Words>, owner: string, topic: set<string>, w: Words)
    returns (x: Words)
    requires OneVersion(told, owner, topic) && IsChoice(f, told) && IsChoice(g, told)
    requires IsLatestWords(f, owner, topic, w)
    ensures x in g && IsLatestWords(g, owner, topic, x)
    ensures Tokens(x.statement) == Tokens(w.statement) && x.obligation == w.obligation
  {
    hide Tokens, OnTopic, OneVersion, Covers, OnePerId;
    x := Twin(told, g, owner, topic, w);
    forall y | y in g && OnTopic(y, owner, topic) ensures y.assertedAt <= x.assertedAt {
      var z := Twin(told, f, owner, topic, y);
    }
  }
}
