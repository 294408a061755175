/** Chat transcripts: rendering, splitting back into turns, and chunking at turns. */
module Transcripts {
  import opened Basics
  import opened Text
  import opened Packing

  datatype Role = User | Assistant

  datatype Turn = Turn(role: Role, text: string)

  function RoleName(r: Role): string {
    match r
    case User => "user"
    case Assistant => "assistant"
  }

  function Rendered(t: Turn): string {
    RoleName(t.role) + ": " + t.text
  }

  /** Each turn opens with its speaker. */
  lemma SpeakersAre(t: Turn)
    ensures t.role == User ==> Rendered(t) == "user: " + t.text
    ensures t.role == Assistant ==> Rendered(t) == "assistant: " + t.text
  {
    assert "user" + ": " == "user: " && "assistant" + ": " == "assistant: ";
  }

  function RenderedAll(turns: seq<Turn>): seq<string> {
    seq(|turns|, i requires 0 <= i < |turns| => Rendered(turns[i]))
  }

  function RenderTranscript(turns: seq<Turn>): string {
    Join(RenderedAll(turns), BLANK)
  }

  // ---- splitting before role prefixes ----

  predicate StartsTurn(s: string) {
    "user: " <= s || "assistant: " <= s
  }

  /** The expression matches here: a blank line, and after it, not consumed, a role prefix. */
  predicate MarkerAt(s: string) {
    BLANK <= s && StartsTurn(s[2..])
  }

  predicate HasMarker(s: string) {
    exists p :: 0 <= p <= |s| && MarkerAt(s[p..])
  }

  /** `_ROLE_PREFIX.split(s)` */
  function SplitTurns(s: string): (pieces: seq<string>)
    ensures pieces != []
  {
    if s == "" then [""]
    else if MarkerAt(s) then [""] + SplitTurns(s[2..])
    else Grown(s[0], SplitTurns(s[1..]))
  }

  /** For every text, joining the pieces with blank lines gives the text back. */
  lemma {:induction false} SplitJoins(s: string)
    ensures Join(SplitTurns(s), BLANK) == s
  {
    if s == "" {
    } else if MarkerAt(s) {
      SplitJoins(s[2..]);
      JoinEmptyFirst(SplitTurns(s[2..]), BLANK);
      assert s == BLANK + s[2..];
    } else {
      SplitJoins(s[1..]);
      JoinGrown(s[0], SplitTurns(s[1..]), BLANK);
    }
  }

  lemma {:induction false} FirstTurn(s: string)
    ensures SplitTurns(s)[0] <= s
  {
    if s != "" && !MarkerAt(s) {
      FirstTurn(s[1..]);
    }
  }

  lemma MarkerStays(a: string, s: string)
    requires a <= s && MarkerAt(a)
    ensures MarkerAt(s)
  {
    assert a[2..] <= s[2..];
  }

  /** No piece has a marker left in it. */
  lemma {:induction false} PiecesHaveNoMarker(s: string)
    ensures forall u :: u in SplitTurns(s) ==> !HasMarker(u)
  {
    if s == "" {
    } else if MarkerAt(s) {
      PiecesHaveNoMarker(s[2..]);
    } else {
      var rest := SplitTurns(s[1..]);
      PiecesHaveNoMarker(s[1..]);
      FirstTurn(s);
      hide MarkerAt;
      var first := [s[0]] + rest[0];
      assert SplitTurns(s) == [first] + rest[1..];
      forall p | 0 <= p <= |first| ensures !MarkerAt(first[p..]) {
        if p > 0 {
          assert rest[0] in rest && first[p..] == rest[0][p - 1..];
        } else {
          assert first[0..] == first;
          if MarkerAt(first) {
            MarkerStays(first, s);
          }
        }
      }
    }
  }

  // ---- splitting undoes rendering ----

  /** A marker is two newlines and then none for the rest of its length. */
  lemma MarkerChars(s: string) returns (n: nat)
    requires MarkerAt(s)
    ensures 2 < n <= |s| && MarkerAt(s[..n]) && s[0] == s[1] == '\n' && forall k :: 2 <= k < n ==> s[k] != '\n'
  {
    var prefix := if "user: " <= s[2..] then "user: " else "assistant: ";
    n := 2 + |prefix|;
    assert s[..n][2..] == prefix && BLANK <= s[..n];
    forall k | 2 <= k < n ensures s[k] != '\n' {
      assert s[k] == s[2..][k - 2] == prefix[k - 2];
    }
  }

  /** A marker that begins inside `a` does not need what comes after `a` and a blank line. */
  lemma MarkerIsInside(a: string, b: string)
    requires a != "" && MarkerAt(a + BLANK + b)
    ensures MarkerAt(a)
  {
    hide MarkerAt;
    var s := a + BLANK + b;
    var n := MarkerChars(s);
    assert s[|a|] == s[|a| + 1] == '\n';
    assert n <= |a|;
    assert s[..n] == a[..n];
    MarkerStays(a[..n], a);
  }

  lemma NoMarkerInTail(a: string)
    requires a != "" && !HasMarker(a)
    ensures !MarkerAt(a) && !HasMarker(a[1..])
  {
    assert a[0..] == a;
    forall p | 0 <= p <= |a[1..]| ensures !MarkerAt(a[1..][p..]) {
      assert a[1..][p..] == a[p + 1..];
    }
  }

  lemma {:induction false} SplitAtMarker(a: string, b: string)
    requires !HasMarker(a) && StartsTurn(b)
    ensures SplitTurns(a + BLANK + b) == [a] + SplitTurns(b)
  {
    var s := a + BLANK + b;
    if a == "" {
      assert s[2..] == b && s == BLANK + b;
    } else {
      NoMarkerInTail(a);
      if MarkerAt(s) {
        MarkerIsInside(a, b);
      }
      assert s[1..] == a[1..] + BLANK + b;
      SplitAtMarker(a[1..], b);
      assert SplitTurns(s) == Grown(s[0], SplitTurns(s[1..]));
      hide SplitTurns, MarkerAt, HasMarker;
      assert a == [a[0]] + a[1..];
    }
  }

  lemma {:induction false} OnePiece(a: string)
    requires !HasMarker(a)
    ensures SplitTurns(a) == [a]
  {
    if a != "" {
      NoMarkerInTail(a);
      OnePiece(a[1..]);
      assert a == [a[0]] + a[1..];
    }
  }

  lemma {:induction false} SplitOfJoin(pieces: seq<string>)
    requires pieces != []
    requires forall p :: p in pieces ==> StartsTurn(p) && !HasMarker(p)
    ensures SplitTurns(Join(pieces, BLANK)) == pieces
  {
    hide SplitTurns, HasMarker, StartsTurn;
    if |pieces| == 1 {
      OnePiece(pieces[0]);
    } else {
      JoinStarts(pieces[1..]);
      SplitAtMarker(pieces[0], Join(pieces[1..], BLANK));
      SplitOfJoin(pieces[1..]);
    }
  }

  lemma JoinStarts(pieces: seq<string>)
    requires pieces != [] && StartsTurn(pieces[0])
    ensures StartsTurn(Join(pieces, BLANK))
  {
    assert pieces[0] <= Join(pieces, BLANK);
  }

  /** A marker starts at a newline, so it is not in a head without one. */
  lemma MarkerIsAfter(head: string, s: string)
    requires forall i :: 0 <= i < |head| ==> head[i] != '\n'
    ensures HasMarker(head + s) <==> HasMarker(s)
  {
    hide MarkerAt;
    var whole := head + s;
    if HasMarker(whole) {
      var p :| 0 <= p <= |whole| && MarkerAt(whole[p..]);
      var n := MarkerChars(whole[p..]);
      assert whole[p] == '\n' && p >= |head|;
      assert whole[p..] == s[p - |head|..];
    }
    if HasMarker(s) {
      var p :| 0 <= p <= |s| && MarkerAt(s[p..]);
      assert whole[|head| + p..] == s[p..];
    }
  }

  /** Only the text of a turn can bring in a marker. */
  lemma MarkerIsInText(t: Turn)
    ensures HasMarker(Rendered(t)) <==> HasMarker(t.text)
  {
    hide HasMarker;
    MarkerIsAfter(RoleName(t.role) + ": ", t.text);
  }

  lemma RenderedStarts(t: Turn)
    ensures StartsTurn(Rendered(t))
  {
    assert RoleName(t.role) + ": " <= Rendered(t);
  }

  /** Splitting undoes rendering exactly when no turn's text has a blank line followed by a role prefix. */
  lemma SplitUndoesRender(turns: seq<Turn>)
    requires turns != []
    ensures SplitTurns(RenderTranscript(turns)) == RenderedAll(turns) <==> forall t :: t in turns ==> !HasMarker(t.text)
  {
    hide SplitTurns, HasMarker, StartsTurn, Rendered;
    var pieces := RenderedAll(turns);
    forall t ensures HasMarker(Rendered(t)) <==> HasMarker(t.text) {
      MarkerIsInText(t);
    }
    forall t ensures StartsTurn(Rendered(t)) {
      RenderedStarts(t);
    }
    if forall t :: t in turns ==> !HasMarker(t.text) {
      SplitOfJoin(pieces);
    }
    if SplitTurns(RenderTranscript(turns)) == pieces {
      PiecesHaveNoMarker(RenderTranscript(turns));
      forall t | t in turns ensures !HasMarker(t.text) {
        var i :| 0 <= i < |turns| && turns[i] == t;
        assert pieces[i] in pieces;
      }
    }
  }

  // ---- chunking at turns ----

  const FALLBACK_BUDGET := 1200

  /** `[t for t in pieces if t.strip()]` */
  function Kept(pieces: seq<string>): seq<string> {
    if pieces == [] then []
    else
      var (before, t) := (Kept(pieces[..|pieces| - 1]), pieces[|pieces| - 1]);
      if Strip(t) != "" then before + [t] else before
  }

  /** Turns packed together are one chunk; a turn over the budget is cut at its paragraphs. */
  function Expanded(blocks: seq<seq<string>>, max: int): seq<string> {
    if blocks == [] then []
    else
      var (before, last) := (Expanded(blocks[..|blocks| - 1], max), blocks[|blocks| - 1]);
      before + if Size(last) > max then PackParagraphs(Join(last, BLANK), max) else [Join(last, BLANK)]
  }

  function ChunkTranscript(text: string, max: int): seq<string> {
    var turns := Kept(SplitTurns(text));
    if turns == [] then PackParagraphs(text, FALLBACK_BUDGET) else Expanded(Greedy(turns, max), max)
  }

  /** What the loop holds: with nothing open, the last block went out in paragraphs. */
  ghost predicate Carries(chunks: seq<string>, current: string, blocks: seq<seq<string>>, max: int) {
    if blocks == [] then chunks == [] && current == ""
    else
      var n := |blocks| - 1;
      if current == "" then chunks == Expanded(blocks, max) && Size(blocks[n]) > max
      else
        && chunks == Expanded(blocks[..n], max) && current == Join(blocks[n], BLANK)
        && |current| <= max && blocks[n] != []
  }

  lemma ExpandedSnoc(blocks: seq<seq<string>>, block: seq<string>, max: int)
    ensures Expanded(blocks + [block], max)
         == Expanded(blocks, max) + if Size(block) > max then PackParagraphs(Join(block, BLANK), max)
             else [Join(block, BLANK)]
  {
    hide PackParagraphs;
    assert (blocks + [block])[..|blocks|] == blocks;
  }

  lemma Closed(chunks: seq<string>, current: string, blocks: seq<seq<string>>, max: int)
    requires Carries(chunks, current, blocks, max)
    ensures Expanded(blocks, max) == if current == "" then chunks else chunks + [current]
  {
    hide PackParagraphs;
  }

  lemma CarriesOversized(chunks: seq<string>, current: string, blocks: seq<seq<string>>, t: string, max: int)
    requires Carries(chunks, current, blocks, max) && |t| > max
    ensures Carries((if current == "" then chunks else chunks + [current]) + PackParagraphs(t, max), "",
                    Added(blocks, t, max), max)
  {
    Closed(chunks, current, blocks, max);
    ExpandedSnoc(blocks, [t], max);
    assert Added(blocks, t, max) == blocks + [[t]];
    hide PackParagraphs, Expanded;
  }

  lemma CarriesNew(chunks: seq<string>, current: string, blocks: seq<seq<string>>, t: string, max: int)
    requires Carries(chunks, current, blocks, max) && 0 < |t| <= max
    requires current == "" || |current| + |t| + 2 > max
    ensures Carries(if current == "" then chunks else chunks + [current], t, Added(blocks, t, max), max)
  {
    Closed(chunks, current, blocks, max);
    assert Added(blocks, t, max) == blocks + [[t]];
    assert (blocks + [[t]])[..|blocks|] == blocks;
    hide PackParagraphs, Expanded;
  }

  lemma CarriesMore(chunks: seq<string>, current: string, blocks: seq<seq<string>>, t: string, max: int)
    requires Carries(chunks, current, blocks, max) && current != "" && |current| + |t| + 2 <= max
    ensures Carries(chunks, current + "\n\n" + t, Added(blocks, t, max), max)
  {
    hide PackParagraphs, Expanded;
    var (done, last) := (blocks[..|blocks| - 1], blocks[|blocks| - 1]);
    JoinSnoc(last, t, BLANK);
    assert Added(blocks, t, max) == done + [last + [t]];
    assert (done + [last + [t]])[..|done|] == done;
  }

  method ChunkTurns(turns: seq<string>, max: int) returns (chunks: seq<string>)
    requires forall t :: t in turns ==> t != ""
    ensures chunks == Expanded(Greedy(turns, max), max)
  {
    hide Expanded, Carries, Added, PackParagraphs, Join;
    chunks := [];
    var current := "";
    NothingCarried(max);
    for i := 0 to |turns|
      invariant Carries(chunks, current, Greedy(turns[..i], max), max)
    {
      var turn := turns[i];
      ghost var blocks := Greedy(turns[..i], max);
      assert turn in turns && turns[..i + 1][..i] == turns[..i];
      if |turn| > max {
        CarriesOversized(chunks, current, blocks, turn, max);
        if current != "" {
          chunks := chunks + [current];
          current := "";
        }
        var pieces := Chunk(turn, max);
        chunks := chunks + pieces;
        continue;
      }
      if current != "" && |current| + |turn| + 2 > max {
        CarriesNew(chunks, current, blocks, turn, max);
        chunks := chunks + [current];
        current := turn;
      } else {
        if current == "" {
          CarriesNew(chunks, current, blocks, turn, max);
        } else {
          CarriesMore(chunks, current, blocks, turn, max);
        }
        current := if current != "" then current + "\n\n" + turn else turn;
      }
    }
    assert turns[..|turns|] == turns;
    Closed(chunks, current, Greedy(turns, max), max);
    if current != "" {
      chunks := chunks + [current];
    }
  }

  lemma NothingCarried(max: int)
    ensures Carries([], "", [], max)
  {
  }

  method ChunkText(text: string, max: int) returns (chunks: seq<string>)
    ensures chunks == ChunkTranscript(text, max)
  {
    var turns := Kept(SplitTurns(text));
    KeptMeans(SplitTurns(text));
    if turns == [] {
      chunks := Chunk(text, FALLBACK_BUDGET);
    } else {
      chunks := ChunkTurns(turns, max);
    }
  }

  lemma {:induction false} KeptMeans(pieces: seq<string>)
    ensures forall t :: t in Kept(pieces) <==> t in pieces && !Blank(t)
    ensures (forall t :: t in pieces ==> !Blank(t)) ==> Kept(pieces) == pieces
    ensures "" !in Kept(pieces)
  {
    if pieces != [] {
      var (init, last) := (pieces[..|pieces| - 1], pieces[|pieces| - 1]);
      KeptMeans(init);
      StripMeans(last);
      assert pieces == init + [last];
      hide Strip, IsSpace;
    }
  }

  /** Turns are kept in turn, but for those of whitespace. */
  lemma KeptSnoc(pieces: seq<string>, p: string)
    ensures Kept(pieces + [p]) == Kept(pieces) + if Blank(p) then [] else [p]
  {
    assert (pieces + [p])[..|pieces|] == pieces;
    StripMeans(p);
    hide Strip, Blank;
  }

  // ---- what chunking promises ----

  lemma NoTurnsIsBlank(text: string)
    requires Kept(SplitTurns(text)) == []
    ensures Blank(text)
  {
    KeptMeans(SplitTurns(text));
    forall p | p in SplitTurns(text) ensures Blank(p) {
      assert p !in Kept(SplitTurns(text));
    }
    BlankJoin(SplitTurns(text));
    SplitJoins(text);
  }

  /** The fallback has nothing to do: a text without turns is whitespace, and makes no chunk. */
  lemma NoTurnsNoChunks(text: string, max: int)
    ensures Kept(SplitTurns(text)) == [] <==> Blank(text)
    ensures Blank(text) ==> ChunkTranscript(text, max) == []
  {
    if Kept(SplitTurns(text)) == [] {
      NoTurnsIsBlank(text);
    }
    if Blank(text) {
      PiecesOfBlank(text);
      KeptMeans(SplitTurns(text));
      assert forall t :: t !in Kept(SplitTurns(text));
      NoElements(Kept(SplitTurns(text)));
      BlankTextHasNoUnits(text);
    }
  }

  lemma {:induction false} PiecesOfBlank(text: string)
    requires Blank(text)
    ensures forall p :: p in SplitTurns(text) ==> Blank(p)
  {
    if text != "" {
      assert forall c :: c in text[1..] ==> c in text;
      assert |text| >= 2 ==> forall c :: c in text[2..] ==> c in text;
      hide IsSpace, MarkerAt;
      if MarkerAt(text) {
        assert |text| >= 2 by { MarkerLength(text); }
        PiecesOfBlank(text[2..]);
      } else {
        PiecesOfBlank(text[1..]);
        var rest := SplitTurns(text[1..]);
        assert SplitTurns(text) == [[text[0]] + rest[0]] + rest[1..];
        assert rest[0] in rest;
      }
    }
  }

  lemma MarkerLength(s: string)
    ensures MarkerAt(s) ==> |s| >= 2
  {
  }

  /** Turns packed together, within the budget. */
  ghost predicate IsWholeTurns(turns: seq<string>, max: int, c: string) {
    |c| <= max && exists block :: block in Greedy(turns, max) && c == Join(block, BLANK)
  }

  /** From one turn that alone is over the budget: over it too only as a single paragraph. */
  ghost predicate IsPartOfTurn(turns: seq<string>, max: int, c: string) {
    exists t :: t in turns && |t| > max && c in PackParagraphs(t, max) && (|c| <= max || c in Units(t))
  }

  lemma {:induction false} WhichBlock(blocks: seq<seq<string>>, max: int, c: string) returns (i: nat)
    requires c in Expanded(blocks, max)
    ensures i < |blocks|
    ensures if Size(blocks[i]) > max then c in PackParagraphs(Join(blocks[i], BLANK), max)
            else c == Join(blocks[i], BLANK)
  {
    hide PackParagraphs;
    var init := blocks[..|blocks| - 1];
    if c in Expanded(init, max) {
      i := WhichBlock(init, max, c);
      assert init[i] == blocks[i];
    } else {
      i := |blocks| - 1;
    }
  }

  lemma OversizedIsOneTurn(turns: seq<string>, max: int, i: nat) returns (t: string)
    requires i < |Greedy(turns, max)| && Size(Greedy(turns, max)[i]) > max
    ensures t in turns && |t| > max && Join(Greedy(turns, max)[i], BLANK) == t
  {
    var blocks := Greedy(turns, max);
    GreedyPartitions(turns, max);
    FlatHas(blocks, i);
    t := blocks[i][0];
    assert t in blocks[i];
    JoinSnoc([], t, BLANK);
    assert blocks[i] == [] + [t];
  }

  /** A chunk is turns packed within the budget, or comes from one turn that alone is over it; and it is
      itself over the budget only as one paragraph of such a turn. */
  lemma ChunkBudget(text: string, max: int, c: string)
    requires c in ChunkTranscript(text, max)
    ensures IsWholeTurns(Kept(SplitTurns(text)), max, c) || IsPartOfTurn(Kept(SplitTurns(text)), max, c)
  {
    NoTurnsNoChunks(text, max);
    var turns := Kept(SplitTurns(text));
    hide Kept, SplitTurns, Expanded, PackParagraphs, Units, Join;
    var i := WhichBlock(Greedy(turns, max), max, c);
    if Size(Greedy(turns, max)[i]) > max {
      var t := OversizedIsOneTurn(turns, max, i);
      PackingKeeps(t, max);
      assert IsPartOfTurn(turns, max, c);
    } else {
      assert Greedy(turns, max)[i] in Greedy(turns, max);
      assert IsWholeTurns(turns, max, c);
    }
  }

  /** The turns, with each one over the budget replaced by its paragraphs. */
  function Paragraphed(turns: seq<string>, max: int): seq<string> {
    if turns == [] then []
    else
      var (before, t) := (Paragraphed(turns[..|turns| - 1], max), turns[|turns| - 1]);
      before + if |t| > max then Units(t) else [t]
  }

  lemma {:induction false} ParagraphedConcat(a: seq<string>, b: seq<string>, max: int)
    ensures Paragraphed(a + b, max) == Paragraphed(a, max) + Paragraphed(b, max)
  {
    hide Units;
    if b == [] {
      assert a + b == a;
    } else {
      var init := b[..|b| - 1];
      ParagraphedConcat(a, init, max);
      assert (a + b)[..|a + b| - 1] == a + init;
    }
  }

  lemma {:induction false} ParagraphedSmall(turns: seq<string>, max: int)
    requires forall t :: t in turns ==> |t| <= max
    ensures Paragraphed(turns, max) == turns
  {
    hide Units;
    if turns != [] {
      ParagraphedSmall(turns[..|turns| - 1], max);
    }
  }

  /** A block of several turns is within the budget, and so is each turn in it. */
  lemma {:induction false} PartIsSmaller(block: seq<string>, t: string)
    requires t in block
    ensures |t| <= Size(block)
  {
    hide Size;
    var (init, last) := (block[..|block| - 1], block[|block| - 1]);
    SizeSnoc(init, last);
    assert block == init + [last];
    if t in init {
      PartIsSmaller(init, t);
    }
  }

  lemma BlockExpands(block: seq<string>, max: int)
    requires block != [] && Fits(block, max) && forall t :: t in block ==> !Blank(t)
    ensures Paragraphed(block, max) != []
    ensures var out := if Size(block) > max then PackParagraphs(Join(block, BLANK), max) else [Join(block, BLANK)];
            out != [] && Join(out, BLANK) == Join(Paragraphed(block, max), BLANK)
  {
    if Size(block) > max {
      var t := block[0];
      SizeSnoc([], t);
      assert block == [] + [t] && block[..0] == [] && Join(block, BLANK) == t;
      assert Paragraphed(block, max) == Units(t);
      PackingKeeps(t, max);
      PackedNonempty(t, max);
    } else {
      forall t | t in block ensures |t| <= max {
        PartIsSmaller(block, t);
      }
      ParagraphedSmall(block, max);
    }
  }

  lemma PackedNonempty(t: string, max: int)
    requires !Blank(t)
    ensures PackParagraphs(t, max) != [] && Units(t) != []
  {
    hide Stripped, SplitBlank, Joined;
    BlankTextHasNoUnits(t);
    StrippedMeans(SplitBlank(t));
    assert "" !in Units(t) && "" in [""];
    JoinedNonempty(Greedy(Units(t), max));
  }

  lemma JoinedNonempty(blocks: seq<seq<string>>)
    ensures |Joined(blocks)| == |blocks|
  {
  }

  lemma {:induction false} ExpandedKeeps(blocks: seq<seq<string>>, max: int)
    requires AllFit(blocks, max) && forall i :: 0 <= i < |blocks| ==> blocks[i] != []
    requires forall t :: t in Flat(blocks) ==> !Blank(t)
    ensures Join(Expanded(blocks, max), BLANK) == Join(Paragraphed(Flat(blocks), max), BLANK)
    ensures blocks != [] ==> Expanded(blocks, max) != [] && Paragraphed(Flat(blocks), max) != []
  {
    if blocks != [] {
      var (init, last) := (blocks[..|blocks| - 1], blocks[|blocks| - 1]);
      hide Blank, Fits, PackParagraphs, Units;
      ExpandedKeeps(init, max);
      FlatHas(blocks, |init|);
      BlockExpands(last, max);
      ParagraphedConcat(Flat(init), last, max);
      var out := if Size(last) > max then PackParagraphs(Join(last, BLANK), max) else [Join(last, BLANK)];
      assert Expanded(blocks, max) == Expanded(init, max) + out;
      if init == [] {
        assert Expanded(blocks, max) == out && Flat(blocks) == last;
      } else {
        JoinConcat(Expanded(init, max), out, BLANK);
        JoinConcat(Paragraphed(Flat(init), max), Paragraphed(last, max), BLANK);
      }
    }
  }

  /** Nothing is lost, added or moved: joined, the chunks are the joined turns, where a turn over the
      budget is its paragraphs. */
  lemma ChunkingKeeps(text: string, max: int)
    requires !Blank(text)
    ensures Join(ChunkTranscript(text, max), BLANK) == Join(Paragraphed(Kept(SplitTurns(text)), max), BLANK)
  {
    NoTurnsNoChunks(text, max);
    var turns := Kept(SplitTurns(text));
    KeptMeans(SplitTurns(text));
    GreedyPartitions(turns, max);
    hide Greedy, Expanded, Paragraphed, Blank, Join;
    ExpandedKeeps(Greedy(turns, max), max);
  }

  /** A rendered transcript of turns that fit comes back whole, cut only between turns, in as few chunks
      as any cut within the budget makes. */
  lemma TranscriptChunks(turns: seq<Turn>, max: int, blocks: seq<seq<string>>)
    requires turns != [] && forall t :: t in turns ==> !HasMarker(t.text) && |Rendered(t)| <= max
    requires Partitions(blocks, RenderedAll(turns)) && AllFit(blocks, max)
    ensures var chunks := ChunkTranscript(RenderTranscript(turns), max);
            && Join(chunks, BLANK) == RenderTranscript(turns)
            && (forall c :: c in chunks ==> |c| <= max)
            && |chunks| <= |blocks|
  {
    hide Rendered, HasMarker, SplitTurns, Blank, Greedy, Join, Expanded, Joined, Partitions, AllFit, Size;
    var (text, pieces) := (RenderTranscript(turns), RenderedAll(turns));
    SplitUndoesRender(turns);
    forall t ensures !Blank(Rendered(t)) {
      RenderedIsSeen(t);
    }
    forall p | p in pieces ensures !Blank(p) && |p| <= max {
      var i :| 0 <= i < |pieces| && pieces[i] == p;
      assert turns[i] in turns;
    }
    KeptMeans(pieces);
    ExpandedSmall(pieces, max);
    assert ChunkTranscript(text, max) == Joined(Greedy(pieces, max));
    SmallChunks(pieces, max, blocks);
  }

  lemma SmallChunks(turns: seq<string>, max: int, blocks: seq<seq<string>>)
    requires forall t :: t in turns ==> |t| <= max
    requires Partitions(blocks, turns) && AllFit(blocks, max)
    ensures var chunks := Joined(Greedy(turns, max));
            && Join(chunks, BLANK) == Join(turns, BLANK) && |chunks| <= |blocks| && forall c :: c in chunks ==>
                 |c| <= max
  {
    hide Greedy, Join, Size, AllFit;
    GreedyPartitions(turns, max);
    JoinedKeeps(Greedy(turns, max));
    hide Partitions;
    GreedyAhead(turns, max, blocks);
    SmallBlocks(turns, max);
    JoinedFit(Greedy(turns, max), max);
  }

  lemma JoinedFit(blocks: seq<seq<string>>, max: int)
    requires forall i :: 0 <= i < |blocks| ==> Size(blocks[i]) <= max
    ensures |Joined(blocks)| == |blocks| && forall c :: c in Joined(blocks) ==> |c| <= max
  {
    hide Join;
  }

  lemma RenderedIsSeen(t: Turn)
    ensures !Blank(Rendered(t))
  {
    assert Rendered(t)[0] in Rendered(t);
  }

  lemma SmallBlocks(turns: seq<string>, max: int)
    requires forall t :: t in turns ==> |t| <= max
    ensures forall i :: 0 <= i < |Greedy(turns, max)| ==> Size(Greedy(turns, max)[i]) <= max
  {
    var blocks := Greedy(turns, max);
    GreedyPartitions(turns, max);
    forall i | 0 <= i < |blocks| ensures Size(blocks[i]) <= max {
      if |blocks[i]| == 1 {
        FlatHas(blocks, i);
        assert blocks[i][0] in turns;
        SizeSnoc([], blocks[i][0]);
        assert blocks[i] == [] + [blocks[i][0]];
      }
    }
  }

  lemma ExpandedSmall(turns: seq<string>, max: int)
    requires forall t :: t in turns ==> |t| <= max
    ensures Expanded(Greedy(turns, max), max) == Joined(Greedy(turns, max))
  {
    SmallBlocks(turns, max);
    ExpandedIsJoined(Greedy(turns, max), max);
  }

  lemma {:induction false} ExpandedIsJoined(blocks: seq<seq<string>>, max: int)
    requires forall i :: 0 <= i < |blocks| ==> Size(blocks[i]) <= max
    ensures Expanded(blocks, max) == Joined(blocks)
  {
    if blocks != [] {
      ExpandedIsJoined(blocks[..|blocks| - 1], max);
    }
  }
}
