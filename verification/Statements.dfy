/** What a claim is about and what it says, as the resolver compares them. */
module Statements {
  import opened Basics
  import opened Schema
  import opened Text

  const STOPWORDS: set<string> := {
    "a", "after", "all", "an", "and", "at", "be", "for", "from", "in", "of",
    "on", "pending", "primary", "review", "the", "that", "to", "will", "with"
  }

  /** Lower-casing, as far as it can make a word character: of the characters beyond ASCII only the
      Kelvin sign lowers to one, and the dotted capital I to one and a combining dot. */
  function Lower(c: char): string {
    if 'A' <= c <= 'Z' then [c - 'A' + 'a']
    else if c == '\U{212A}' then "k"
    else if c == '\U{130}' then "i\U{307}"
    else [c]
  }

  function Lowered(text: string): string {
    if text == "" then "" else Lower(text[0]) + Lowered(text[1..])
  }

  predicate IsWordChar(c: char) {
    'a' <= c <= 'z' || '0' <= c <= '9'
  }

  /** Maximal runs of word characters; `run` is the one being read. */
  function Words(text: string, run: string): seq<string> {
    var flush := if run == [] then [] else [run];
    if text == [] then flush
    else if IsWordChar(text[0]) then Words(text[1..], run + [text[0]])
    else flush + Words(text[1..], [])
  }

  function Meaningful(words: seq<string>): seq<string> {
    if words == [] then []
    else (if words[0] in STOPWORDS then [] else [words[0]]) + Meaningful(words[1..])
  }

  /** The statement's tokens, in order. */
  function TokenSeq(statement: string): seq<string> {
    Meaningful(Words(Lowered(statement), []))
  }

  function Tokens(statement: string): set<string> {
    Elements(TokenSeq(statement))
  }

  function Topic(statement: string): set<string> {
    var tokens := TokenSeq(statement);
    Elements(if |tokens| <= 3 then tokens else tokens[..3])
  }

  /** Who owes it to whom, by when: what a commitment's text need not say. */
  function Obligation(c: Claim): (Option<Id>, Option<Id>, Option<int>) {
    match c.commitment
    case None => (None, None, None)
    case Some(p) => (Some(p.owedBy), p.owedTo, p.dueAt)
  }

  predicate SameContent(a: Claim, b: Claim) {
    Tokens(a.statement) == Tokens(b.statement) && Obligation(a) == Obligation(b)
  }

  /** About the same thing, but not saying the same. */
  predicate Rivals(a: Claim, b: Claim) {
    Topic(a.statement) == Topic(b.statement) && !SameContent(a, b)
  }

  // ---- what tokenizing sees ----

  /** A run is a word exactly when nothing breaks it: text that is all word characters is one word. */
  lemma {:induction false} OneWord(w: string, run: string)
    requires forall i :: 0 <= i < |w| ==> 'a' <= w[i] <= 'z' || '0' <= w[i] <= '9'
    ensures Words(w, run) == if run + w == "" then [] else [run + w]
  {
    if w != "" {
      OneWord(w[1..], run + [w[0]]);
      assert run + [w[0]] + w[1..] == run + w;
    } else {
      assert run + w == run;
    }
  }

  /** Any other character ends the word before it, and is in none. */
  lemma {:induction false} WordsSplit(a: string, c: char, b: string, run: string)
    requires !('a' <= c <= 'z' || '0' <= c <= '9')
    ensures Words(a + [c] + b, run) == Words(a, run) + Words(b, "")
  {
    var s := a + [c] + b;
    if a == "" {
      assert s[1..] == b;
    } else {
      assert s[1..] == a[1..] + [c] + b;
      if IsWordChar(a[0]) {
        WordsSplit(a[1..], c, b, run + [a[0]]);
      } else {
        WordsSplit(a[1..], c, b, "");
      }
    }
  }

  predicate IsWord(w: string) {
    w != "" && forall c | c in w :: IsWordChar(c)
  }

  lemma {:induction false} WordsAreWords(text: string, run: string)
    requires run == "" || IsWord(run)
    ensures forall w :: w in Words(text, run) ==> IsWord(w)
  {
    if text != "" {
      if IsWordChar(text[0]) {
        WordsAreWords(text[1..], run + [text[0]]);
      } else {
        WordsAreWords(text[1..], "");
      }
    }
  }

  lemma {:induction false} WordsOfJoin(words: seq<string>)
    requires forall w :: w in words ==> IsWord(w)
    ensures Words(Join(words, " "), "") == words
  {
    if words != [] {
      var (w, rest) := (words[0], Join(words[1..], " "));
      assert IsWord(w) && "" + w == w;
      assert forall i :: 0 <= i < |w| ==> w[i] in w;
      OneWord(w, "");
      if |words| > 1 {
        WordsOfJoin(words[1..]);
        WordsSplit(w, ' ', rest, "");
        hide Words, IsWord;
        assert Join(words, " ") == w + [' '] + rest;
        assert words == [w] + words[1..];
      }
    }
  }

  predicate IsPlain(c: char) {
    IsWordChar(c) || c == ' '
  }

  lemma {:induction false} PlainIsLowered(s: string)
    requires forall i :: 0 <= i < |s| ==> IsPlain(s[i])
    ensures Lowered(s) == s
  {
    if s != "" {
      PlainIsLowered(s[1..]);
      assert s == [s[0]] + s[1..];
    }
  }

  lemma {:induction false} JoinIsPlain(words: seq<string>)
    requires forall w :: w in words ==> IsWord(w)
    ensures forall c :: c in Join(words, " ") ==> IsPlain(c)
  {
    if words != [] {
      assert IsWord(words[0]);
      hide IsWordChar;
      if |words| > 1 {
        JoinIsPlain(words[1..]);
      }
    }
  }

  /** A statement's words, one space apart. */
  function Plain(statement: string): string {
    Join(Words(Lowered(statement), ""), " ")
  }

  /** Only its lower-cased words show of a statement: however they are spelled, spaced and punctuated,
      topic, tokens and their order are those of the plain words. */
  lemma OnlyWordsCount(statement: string)
    ensures TokenSeq(Plain(statement)) == TokenSeq(statement)
    ensures Tokens(Plain(statement)) == Tokens(statement) && Topic(Plain(statement)) == Topic(statement)
  {
    WordsAreWords(Lowered(statement), "");
    WordsOfJoin(Words(Lowered(statement), ""));
    JoinIsPlain(Words(Lowered(statement), ""));
    PlainIsLowered(Plain(statement));
    hide Words, Lowered, Meaningful;
  }

  /** The same text but for the case of ASCII letters. */
  predicate SameButCase(a: string, b: string) {
    |a| == |b| && forall i :: 0 <= i < |a| ==>
      || a[i] == b[i]
      || ('a' <= a[i] <= 'z' && b[i] as int == a[i] as int - 32)
      || ('a' <= b[i] <= 'z' && a[i] as int == b[i] as int - 32)
  }

  /** Case does not count. */
  lemma {:induction false} CaseDoesNotCount(a: string, b: string)
    requires SameButCase(a, b)
    ensures Lowered(a) == Lowered(b) && TokenSeq(a) == TokenSeq(b)
  {
    if a != "" {
      CaseDoesNotCount(a[1..], b[1..]);
      SameLower(a[0], b[0]);
      hide Lower, Words, Meaningful;
    }
  }

  lemma SameLower(x: char, y: char)
    requires SameButCase([x], [y])
    ensures Lower(x) == Lower(y)
  {
    assert [x][0] == x && [y][0] == y;
  }

  // ---- what a topic is ----

  /** The places of the words that are no stop words, in order. */
  ghost predicate ArePlaces(places: seq<nat>, words: seq<string>) {
    && (forall i :: 0 <= i < |places| ==> places[i] < |words|)
    && (forall i, j :: 0 <= i < j < |places| ==> places[i] < places[j])
    && (forall k: nat :: k < |words| ==> (k in places <==> words[k] !in STOPWORDS))
  }

  lemma PlacesSnoc(places: seq<nat>, words: seq<string>, last: string)
    requires ArePlaces(places, words)
    ensures ArePlaces(if last in STOPWORDS then places else places + [|words|], words + [last])
  {
    hide STOPWORDS;
    var (more, after) := (words + [last], if last in STOPWORDS then places else places + [|words|]);
    forall k: nat | k < |more| ensures k in after <==> more[k] !in STOPWORDS {
      if k < |words| {
        assert more[k] == words[k] && (k in after <==> k in places);
      } else {
        assert more[k] == last;
        assert |words| !in places by {
          if i :| 0 <= i < |places| && places[i] == |words| {
            assert false;
          }
        }
      }
    }
  }

  /** The words at these places, in order. */
  ghost predicate Picks(picked: seq<string>, words: seq<string>, places: seq<nat>) {
    |picked| == |places| && forall i :: 0 <= i < |places| ==> places[i] < |words| && picked[i] == words[places[i]]
  }

  lemma PicksSnoc(picked: seq<string>, words: seq<string>, places: seq<nat>, last: string)
    requires Picks(picked, words, places)
    ensures Picks(picked, words + [last], places) && Picks(picked + [last], words + [last], places + [|words|])
  {
  }

  lemma NothingPicked()
    ensures ArePlaces([], []) && Picks(Meaningful([]), [], [])
  {
  }

  lemma {:induction false} MeaningfulMeans(words: seq<string>) returns (places: seq<nat>)
    ensures ArePlaces(places, words) && Picks(Meaningful(words), words, places)
  {
    hide Meaningful, STOPWORDS, ArePlaces, Picks;
    if words == [] {
      places := [];
      NothingPicked();
    } else {
      var (init, last) := (words[..|words| - 1], words[|words| - 1]);
      var before := MeaningfulMeans(init);
      MeaningfulSnoc(init, last);
      PlacesSnoc(before, init, last);
      PicksSnoc(Meaningful(init), init, before, last);
      assert words == init + [last];
      assert last in STOPWORDS ==> Meaningful(init) + [] == Meaningful(init);
      places := if last in STOPWORDS then before else before + [|init|];
    }
  }

  lemma {:induction false} MeaningfulSnoc(words: seq<string>, last: string)
    ensures Meaningful(words + [last]) == Meaningful(words) + if last in STOPWORDS then [] else [last]
  {
    hide STOPWORDS;
    if words == [] {
      assert [] + [last] == [last] && [last][1..] == [];
      var own := if last in STOPWORDS then [] else [last];
      assert Meaningful([last]) == own + Meaningful([]);
      assert own + [] == own == [] + own;
    } else {
      MeaningfulSnoc(words[1..], last);
      assert (words + [last])[1..] == words[1..] + [last] && (words + [last])[0] == words[0];
      var (own, rest) := (if words[0] in STOPWORDS then [] else [words[0]], Meaningful(words[1..]));
      var more := if last in STOPWORDS then [] else [last];
      assert Meaningful(words + [last]) == own + (rest + more);
      assert own + (rest + more) == (own + rest) + more;
    }
  }

  /** The tokens of a statement are its words that are no stop words, `picked` in order; its topic is the first
      three of them. */
  lemma TopicIsFirstThree(statement: string) returns (places: seq<nat>, picked: seq<string>)
    ensures ArePlaces(places, Words(Lowered(statement), "")) && Picks(picked, Words(Lowered(statement), ""), places)
    ensures forall t :: t in Tokens(statement) <==> exists i :: 0 <= i < |picked| && picked[i] == t
    ensures forall t :: t in Topic(statement) <==> exists i :: 0 <= i < |picked| && i < 3 && picked[i] == t
  {
    places := MeaningfulMeans(Words(Lowered(statement), ""));
    picked := TokenSeq(statement);
    assert picked == Meaningful(Words(Lowered(statement), ""));
    hide Words, Lowered, Meaningful, STOPWORDS, TokenSeq, ArePlaces, Picks;
    var kept := if |picked| <= 3 then picked else picked[..3];
    FoundAt(picked, Tokens(statement));
    FoundAt(kept, Topic(statement));
    assert forall i :: 0 <= i < |kept| ==> kept[i] == picked[i];
  }

  lemma FoundAt(list: seq<string>, members: set<string>)
    requires members == Elements(list)
    ensures forall t :: t in members <==> exists i :: 0 <= i < |list| && list[i] == t
  {
  }

  // ---- what rivals are ----

  /** Two claims that owe the same: neither owes anything, or both the same debtor, creditor and deadline. */
  predicate OweAlike(a: Claim, b: Claim) {
    if a.commitment.Some? && b.commitment.Some? then
      && a.commitment.value.owedBy == b.commitment.value.owedBy
      && a.commitment.value.owedTo == b.commitment.value.owedTo
      && a.commitment.value.dueAt == b.commitment.value.dueAt
    else a.commitment.None? && b.commitment.None?
  }

  /** Two claims rival if and only if they are on one topic and differ in their tokens, in owing anything, in
      who owes, to whom, or by when: a reassignment in the same words is one. */
  lemma RivalsMean(a: Claim, b: Claim)
    ensures Rivals(a, b) <==>
              && Topic(a.statement) == Topic(b.statement)
              && (Tokens(a.statement) != Tokens(b.statement) || !OweAlike(a, b))
  {
    hide Topic, Tokens;
  }

  lemma SameContentMeans(a: Claim, b: Claim)
    ensures SameContent(a, b) <==> Tokens(a.statement) == Tokens(b.statement) && OweAlike(a, b)
  {
    hide Tokens;
  }
}
