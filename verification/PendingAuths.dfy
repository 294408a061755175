/** Pending authorizations: swept on insert, removed on first use. */
module PendingAuths {
  import opened Basics

  /** What the gateway keeps of an authorization while the browser is away. */
  datatype PendingAuth = PendingAuth(provider: string, codeVerifier: string, redirectUri: string, expiresAt: nat)

  type Entries = map<string, PendingAuth>

  function Swept(entries: Entries, now: nat): Entries {
    map id | id in entries && entries[id].expiresAt > now :: entries[id]
  }

  function Inserted(entries: Entries, now: nat, id: string, pending: PendingAuth): Entries {
    Swept(entries, now)[id := pending]
  }

  /** What `take` answers: nothing for an unknown or an expired entry. */
  function Answer(entries: Entries, now: nat, id: string): Option<PendingAuth> {
    if id !in entries || entries[id].expiresAt <= now then None else Some(entries[id])
  }

  class PendingAuthStore {
    var entries: Entries

    constructor ()
      ensures entries == map[]
    {
      entries := map[];
    }

    method Insert(now: nat, id: string, pending: PendingAuth)
      modifies this
      ensures entries == Inserted(old(entries), now, id, pending)
    {
      entries := map k | k in entries && entries[k].expiresAt > now :: entries[k];
      entries := entries[id := pending];
    }

    /** The entry is gone whatever the answer. */
    method Take(now: nat, id: string) returns (r: Option<PendingAuth>)
      modifies this
      ensures r == Answer(old(entries), now, id) && entries == old(entries) - {id}
    {
      if id !in entries {
        return None;
      }
      var pending := entries[id];
      entries := entries - {id};
      if pending.expiresAt <= now {
        return None;
      }
      r := Some(pending);
    }
  }

  // ---- the sweep does not show ----

  /** A call on the store, at the time its clock reads. */
  datatype Call = Insert(now: nat, id: string, pending: PendingAuth) | Take(now: nat, id: string)

  function After(entries: Entries, call: Call): Entries {
    match call
    case Insert(now, id, pending) => Inserted(entries, now, id, pending)
    case Take(now, id) => entries - {id}
  }

  /** The same store without the sweep. */
  function PlainAfter(entries: Entries, call: Call): Entries {
    match call
    case Insert(now, id, pending) => entries[id := pending]
    case Take(now, id) => entries - {id}
  }

  /** What the store holds after these calls. */
  function Held(calls: seq<Call>): Entries {
    if calls == [] then map[] else After(Held(calls[..|calls| - 1]), calls[|calls| - 1])
  }

  function PlainHeld(calls: seq<Call>): Entries {
    if calls == [] then map[] else PlainAfter(PlainHeld(calls[..|calls| - 1]), calls[|calls| - 1])
  }

  /** The answers of the successive takes. */
  function Answers(calls: seq<Call>): seq<Option<PendingAuth>> {
    if calls == [] then []
    else
      var (before, call) := (calls[..|calls| - 1], calls[|calls| - 1]);
      Answers(before) + if call.Take? then [Answer(Held(before), call.now, call.id)] else []
  }

  function PlainAnswers(calls: seq<Call>): seq<Option<PendingAuth>> {
    if calls == [] then []
    else
      var (before, call) := (calls[..|calls| - 1], calls[|calls| - 1]);
      PlainAnswers(before) + if call.Take? then [Answer(PlainHeld(before), call.now, call.id)] else []
  }

  /** Of the first n calls, the i-th is the last one on its id, and an insert. */
  ghost predicate LastInsert(calls: seq<Call>, n: nat, i: nat) {
    i < n <= |calls| && calls[i].Insert? && forall m :: i < m < n ==> calls[m].id != calls[i].id
  }

  /** The j-th call drops what the i-th inserted. */
  ghost predicate Sweeps(calls: seq<Call>, i: nat, j: nat) {
    i < j < |calls| && calls[i].Insert? && calls[j].Insert? && calls[i].pending.expiresAt <= calls[j].now
  }

  lemma LastInsertSplit(calls: seq<Call>, i: nat)
    requires calls != []
    ensures var (n, before) := (|calls| - 1, calls[..|calls| - 1]);
            && (i < n ==> (LastInsert(calls, n + 1, i) <==> LastInsert(before, n, i) && calls[i].id != calls[n].id))
            && (LastInsert(calls, n + 1, n) <==> calls[n].Insert?)
  {
    var (n, before) := (|calls| - 1, calls[..|calls| - 1]);
    assert forall m :: 0 <= m < n ==> before[m] == calls[m];
  }

  /** A map that never sweeps holds every last insert. */
  lemma {:induction false} LastInsertsAreHeld(calls: seq<Call>, i: nat)
    requires LastInsert(calls, |calls|, i)
    ensures calls[i].id in PlainHeld(calls) && PlainHeld(calls)[calls[i].id] == calls[i].pending
  {
    if i < |calls| - 1 {
      LastInsertSplit(calls, i);
      LastInsertsAreHeld(calls[..|calls| - 1], i);
    }
  }

  /** And nothing else. */
  lemma {:induction false} HeldWasInserted(calls: seq<Call>, id: string) returns (i: nat)
    requires id in PlainHeld(calls)
    ensures LastInsert(calls, |calls|, i) && calls[i].id == id
  {
    var n := |calls| - 1;
    if calls[n].id == id {
      i := n;
    } else {
      i := HeldWasInserted(calls[..n], id);
      LastInsertSplit(calls, i);
    }
  }

  /** The store holds the last inserts that no later insert swept. */
  lemma {:induction false} HeldMeans(calls: seq<Call>, i: nat)
    requires LastInsert(calls, |calls|, i)
    ensures calls[i].id in Held(calls) <==> forall j :: i < j < |calls| ==> !Sweeps(calls, i, j)
    ensures calls[i].id in Held(calls) ==> Held(calls)[calls[i].id] == calls[i].pending
  {
    var (n, before) := (|calls| - 1, calls[..|calls| - 1]);
    if i < n {
      LastInsertSplit(calls, i);
      HeldMeans(before, i);
      hide LastInsert;
      assert forall j :: i < j < n ==> (Sweeps(calls, i, j) <==> Sweeps(before, i, j));
      assert calls[i].id in Held(calls) <==> calls[i].id in Held(before) && !Sweeps(calls, i, n);
    }
  }

  lemma {:induction false} HeldIsPlain(calls: seq<Call>)
    ensures forall id :: id in Held(calls) ==> id in PlainHeld(calls) && PlainHeld(calls)[id] == Held(calls)[id]
  {
    if calls != [] {
      HeldIsPlain(calls[..|calls| - 1]);
    }
  }

  /** The k-th call takes, before it expires, an entry inserted by the i-th and swept by the j-th. */
  ghost predicate TakesSwept(calls: seq<Call>, i: nat, j: nat, k: nat) {
    && LastInsert(calls, k, i) && Sweeps(calls, i, j) && j < k < |calls|
    && calls[k].Take? && calls[k].id == calls[i].id && calls[k].now < calls[i].pending.expiresAt
  }

  /** The k-th call is answered as by a map that never sweeps. */
  ghost predicate SameAnswer(calls: seq<Call>, k: nat)
    requires k < |calls|
  {
    Answer(Held(calls[..k]), calls[k].now, calls[k].id) == Answer(PlainHeld(calls[..k]), calls[k].now, calls[k].id)
  }

  lemma PrefixAgrees(calls: seq<Call>, k: nat, i: nat)
    requires k <= |calls|
    ensures LastInsert(calls, k, i) <==> LastInsert(calls[..k], k, i)
    ensures forall j: nat :: j < k ==> (Sweeps(calls, i, j) <==> Sweeps(calls[..k], i, j))
  {
  }

  lemma SweptIsMissed(calls: seq<Call>, i: nat, j: nat, k: nat)
    requires TakesSwept(calls, i, j, k)
    ensures !SameAnswer(calls, k)
  {
    PrefixAgrees(calls, k, i);
    HeldMeans(calls[..k], i);
    LastInsertsAreHeld(calls[..k], i);
    hide Held, PlainHeld, LastInsert;
  }

  lemma MissedWasSwept(calls: seq<Call>, k: nat) returns (i: nat, j: nat)
    requires k < |calls| && calls[k].Take? && !SameAnswer(calls, k)
    ensures TakesSwept(calls, i, j, k)
  {
    HeldIsPlain(calls[..k]);
    i := HeldWasInserted(calls[..k], calls[k].id);
    LastInsertsAreHeld(calls[..k], i);
    HeldMeans(calls[..k], i);
    PrefixAgrees(calls, k, i);
    hide Held, PlainHeld, LastInsert;
    j :| i < j < k && Sweeps(calls[..k], i, j);
  }

  lemma AnswersSplit<T>(a: seq<T>, b: seq<T>, x: seq<T>, y: seq<T>)
    requires |a| == |b|
    ensures a + x == b + y <==> a == b && x == y
  {
    if a + x == b + y {
      assert a == (a + x)[..|a|] == (b + y)[..|b|] == b;
      assert x == (a + x)[|a|..] == (b + y)[|b|..] == y;
    }
  }

  lemma {:induction false} AnswersTell(calls: seq<Call>)
    ensures |Answers(calls)| == |PlainAnswers(calls)|
    ensures Answers(calls) == PlainAnswers(calls) <==>
              forall k :: 0 <= k < |calls| && calls[k].Take? ==> SameAnswer(calls, k)
  {
    hide Held, PlainHeld, Answer;
    if calls != [] {
      var (n, before) := (|calls| - 1, calls[..|calls| - 1]);
      AnswersTell(before);
      assert forall k :: 0 <= k < n ==> before[..k] == calls[..k];
      assert forall k :: 0 <= k < n ==> (SameAnswer(before, k) <==> SameAnswer(calls, k));
      hide SameAnswer;
      LastAnswer(calls);
    }
  }

  lemma LastAnswer(calls: seq<Call>)
    requires calls != []
    ensures var (n, before) := (|calls| - 1, calls[..|calls| - 1]);
            |Answers(before)| == |PlainAnswers(before)| ==>
              && |Answers(calls)| == |PlainAnswers(calls)|
              && (Answers(calls) == PlainAnswers(calls) <==>
                  Answers(before) == PlainAnswers(before) && (calls[n].Take? ==> SameAnswer(calls, n)))
  {
    var (n, before) := (|calls| - 1, calls[..|calls| - 1]);
    var (mine, plain) := ([Answer(Held(before), calls[n].now, calls[n].id)],
                          [Answer(PlainHeld(before), calls[n].now, calls[n].id)]);
    assert Answers(calls) == Answers(before) + if calls[n].Take? then mine else [];
    assert PlainAnswers(calls) == PlainAnswers(before) + if calls[n].Take? then plain else [];
    if |Answers(before)| == |PlainAnswers(before)| {
      AnswersSplit(Answers(before), PlainAnswers(before), mine, plain);
      assert mine == plain <==> SameAnswer(calls, n) by {
        assert mine[0] == Answer(Held(before), calls[n].now, calls[n].id);
        assert plain[0] == Answer(PlainHeld(before), calls[n].now, calls[n].id);
      }
    }
  }

  /** Exactly when the sweep shows: over every sequence of calls, whatever the clock reads, the store answers
      as a map that never sweeps if and only if no take reads a time before the expiry of the entry it asks
      for when an insert since has read that expiry as passed. */
  lemma SweepShowsExactly(calls: seq<Call>)
    ensures Answers(calls) == PlainAnswers(calls) <==> forall i, j, k :: !TakesSwept(calls, i, j, k)
  {
    AnswersTell(calls);
    hide Answers, PlainAnswers, SameAnswer;
    if i, j, k :| TakesSwept(calls, i, j, k) {
      SweptIsMissed(calls, i, j, k);
    } else if k :| 0 <= k < |calls| && calls[k].Take? && !SameAnswer(calls, k) {
      var i, j := MissedWasSwept(calls, k);
    }
  }

  /** While the clock does not go back the sweep cannot be observed. */
  lemma SweepIsUnobservable(calls: seq<Call>)
    requires forall j, k :: 0 <= j < k < |calls| ==> calls[j].now <= calls[k].now
    ensures Answers(calls) == PlainAnswers(calls)
  {
    hide Answers, PlainAnswers;
    SweepShowsExactly(calls);
  }

  /** It takes no more than one step back of the clock to observe it. */
  lemma SweepShowsWhenTheClockGoesBack(p: PendingAuth, q: PendingAuth, a: string, b: string, later: nat, earlier: nat)
    requires a != b && earlier < p.expiresAt <= later
    ensures var calls := [Insert(0, a, p), Insert(later, b, q), Take(earlier, a)];
            Answers(calls) == [None] && PlainAnswers(calls) == [Some(p)]
  {
    var calls := [Insert(0, a, p), Insert(later, b, q), Take(earlier, a)];
    var (one, two) := ([calls[0]], [calls[0], calls[1]]);
    assert calls[..2] == two && two[..1] == one && one[..0] == [];
    assert Held(two) == After(Held(one), calls[1]) && PlainHeld(two) == PlainAfter(PlainHeld(one), calls[1]);
    assert PlainHeld(one)[a] == p;
    assert Answers(one) == [] == PlainAnswers(one);
    assert Answers(two) == Answers(one) + [] && PlainAnswers(two) == PlainAnswers(one) + [];
  }
}
