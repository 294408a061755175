/** The default chunker: split on blank lines, then pack greedily to a character budget. */
module Packing {
  import opened Basics
  import opened Text

  const BLANK := "\n\n"

  // ---- whitespace ----

  /** The characters `str.strip` removes. */
  predicate IsSpace(c: char) {
    || '\U{9}' <= c <= '\U{D}' || '\U{1C}' <= c <= ' ' || c == '\U{85}' || c == '\U{A0}' || c == '\U{1680}'
    || '\U{2000}' <= c <= '\U{200A}' || c == '\U{2028}' || c == '\U{2029}' || c == '\U{202F}' || c == '\U{205F}'
       || c == '\U{3000}'
  }

  /** They are 29, by code point. */
  lemma SpacesAre(c: char)
    ensures IsSpace(c) <==>
              c as int in {9, 10, 11, 12, 13, 28, 29, 30, 31, 32, 133, 160, 5760, 8192, 8193, 8194, 8195, 8196, 8197,
                           8198, 8199, 8200, 8201, 8202, 8232, 8233, 8239, 8287, 12288}
  {
  }

  function StripLeft(s: string): string {
    if s != "" && IsSpace(s[0]) then StripLeft(s[1..]) else s
  }

  function StripRight(s: string): string {
    if s != "" && IsSpace(s[|s| - 1]) then StripRight(s[..|s| - 1]) else s
  }

  function Strip(s: string): string {
    StripRight(StripLeft(s))
  }

  predicate Blank(s: string) {
    forall c | c in s :: IsSpace(c)
  }

  lemma {:induction false} StripLeftMeans(s: string)
    ensures exists a :: s == a + StripLeft(s) && Blank(a)
    ensures StripLeft(s) == "" || !IsSpace(StripLeft(s)[0])
  {
    if s != "" && IsSpace(s[0]) {
      StripLeftMeans(s[1..]);
      var a :| s[1..] == a + StripLeft(s[1..]) && Blank(a);
      assert s == ([s[0]] + a) + StripLeft(s) && Blank([s[0]] + a);
    } else {
      assert s == "" + StripLeft(s);
    }
  }

  lemma {:induction false} StripRightMeans(s: string)
    ensures exists b :: s == StripRight(s) + b && Blank(b)
    ensures StripRight(s) == "" || !IsSpace(StripRight(s)[|StripRight(s)| - 1])
    ensures StripRight(s) != "" ==> StripRight(s)[0] == s[0]
  {
    if s != "" && IsSpace(s[|s| - 1]) {
      var init := s[..|s| - 1];
      StripRightMeans(init);
      var b :| init == StripRight(init) + b && Blank(b);
      assert s == StripRight(s) + (b + [s[|s| - 1]]) && Blank(b + [s[|s| - 1]]);
    } else {
      assert s == StripRight(s) + "";
    }
  }

  /** Stripping takes whitespace off both ends, and all of it. */
  lemma StripMeans(s: string)
    ensures exists a, b :: s == a + Strip(s) + b && Blank(a) && Blank(b)
    ensures Strip(s) != "" ==> !IsSpace(Strip(s)[0]) && !IsSpace(Strip(s)[|Strip(s)| - 1])
    ensures Strip(s) == "" <==> Blank(s)
  {
    var left := StripLeft(s);
    StripLeftMeans(s);
    StripRightMeans(left);
    var a :| s == a + left && Blank(a);
    var b :| left == StripRight(left) + b && Blank(b);
    assert s == a + Strip(s) + b;
    if Strip(s) != "" {
      assert s[|a|] == Strip(s)[0] && s[|a|] in s;
      assert !Blank(s);
    }
    assert Strip(s) == "" ==> s == a + b;
  }

  // ---- splitting on blank lines ----

  function Grown(c: char, pieces: seq<string>): seq<string> {
    if pieces == [] then [[c]] else [[c] + pieces[0]] + pieces[1..]
  }

  /** `s.split("\n\n")`: at the leftmost blank lines, none overlapping. */
  function SplitBlank(s: string): (pieces: seq<string>)
    ensures pieces != []
  {
    if s == "" then [""]
    else if BLANK <= s then [""] + SplitBlank(s[2..])
    else Grown(s[0], SplitBlank(s[1..]))
  }

  lemma JoinGrown(c: char, pieces: seq<string>, sep: string)
    requires pieces != []
    ensures Join(Grown(c, pieces), sep) == [c] + Join(pieces, sep)
  {
    if |pieces| > 1 {
      assert Grown(c, pieces)[1..] == pieces[1..];
    }
  }

  lemma JoinEmptyFirst(pieces: seq<string>, sep: string)
    requires pieces != []
    ensures Join([""] + pieces, sep) == sep + Join(pieces, sep)
  {
    assert ([""] + pieces)[1..] == pieces;
  }

  /** Joining the pieces with blank lines gives the text back. */
  lemma {:induction false} SplitBlankJoins(s: string)
    ensures Join(SplitBlank(s), BLANK) == s
  {
    if s == "" {
    } else if BLANK <= s {
      SplitBlankJoins(s[2..]);
      JoinEmptyFirst(SplitBlank(s[2..]), BLANK);
      assert s == BLANK + s[2..];
    } else {
      SplitBlankJoins(s[1..]);
      JoinGrown(s[0], SplitBlank(s[1..]), BLANK);
    }
  }

  predicate HasBlankLine(s: string) {
    exists p :: 0 <= p <= |s| && BLANK <= s[p..]
  }

  /** The first piece is a prefix of the text. */
  lemma {:induction false} FirstPiece(s: string)
    ensures SplitBlank(s)[0] <= s
  {
    if s != "" && !(BLANK <= s) {
      FirstPiece(s[1..]);
    }
  }

  lemma {:induction false} PiecesHaveNoBlankLine(s: string)
    ensures forall u :: u in SplitBlank(s) ==> !HasBlankLine(u)
  {
    if s == "" {
    } else if BLANK <= s {
      PiecesHaveNoBlankLine(s[2..]);
    } else {
      var rest := SplitBlank(s[1..]);
      PiecesHaveNoBlankLine(s[1..]);
      FirstPiece(s);
      var first := [s[0]] + rest[0];
      assert SplitBlank(s) == [first] + rest[1..];
      forall p | 0 <= p <= |first| ensures !(BLANK <= first[p..]) {
        if p > 0 {
          assert rest[0] in rest && first[p..] == rest[0][p - 1..];
        } else {
          assert first[0..] == first && (BLANK <= first ==> BLANK <= s);
        }
      }
    }
  }

  // ---- units ----

  function Stripped(pieces: seq<string>): seq<string> {
    if pieces == [] then []
    else
      var (before, u) := (Stripped(pieces[..|pieces| - 1]), Strip(pieces[|pieces| - 1]));
      if u != "" then before + [u] else before
  }

  function Units(text: string): seq<string> {
    var units := Stripped(SplitBlank(text));
    if units == [] then [Strip(text)] else units
  }

  lemma {:induction false} StrippedMeans(pieces: seq<string>)
    ensures forall u :: u in Stripped(pieces) <==> u != "" && exists p :: p in pieces && u == Strip(p)
  {
    if pieces != [] {
      hide Strip;
      StrippedMeans(pieces[..|pieces| - 1]);
      assert pieces == pieces[..|pieces| - 1] + [pieces[|pieces| - 1]];
    }
  }

  /** Pieces are stripped in turn, and those of whitespace dropped. */
  lemma StrippedSnoc(pieces: seq<string>, p: string)
    ensures Stripped(pieces + [p]) == Stripped(pieces) + if Blank(p) then [] else [Strip(p)]
  {
    assert (pieces + [p])[..|pieces|] == pieces;
    StripMeans(p);
    hide Strip, Blank;
  }

  lemma {:induction false} BlankJoin(pieces: seq<string>)
    requires forall p :: p in pieces ==> Blank(p)
    ensures Blank(Join(pieces, BLANK))
  {
    if |pieces| > 1 {
      BlankJoin(pieces[1..]);
      assert Blank(pieces[0]) && IsSpace(BLANK[0]) && IsSpace(BLANK[1]);
    }
  }

  /** Only a text of whitespace has no unit to it; its one unit is empty. */
  lemma BlankTextHasNoUnits(text: string)
    ensures Stripped(SplitBlank(text)) == [] ==> Blank(text) && Units(text) == [""]
    ensures Blank(text) ==> Units(text) == [""]
  {
    var pieces := SplitBlank(text);
    StrippedMeans(pieces);
    SplitBlankJoins(text);
    StripMeans(text);
    if Stripped(pieces) == [] {
      forall p | p in pieces ensures Blank(p) {
        StripMeans(p);
        assert Strip(p) !in Stripped(pieces);
      }
      BlankJoin(pieces);
    }
    if Blank(text) {
      forall p | p in pieces ensures Strip(p) == "" {
        PieceIsBlank(text, p);
        StripMeans(p);
      }
      assert forall u :: u !in Stripped(pieces);
      NoElements(Stripped(pieces));
    }
  }

  lemma {:induction false} PieceIsBlank(text: string, p: string)
    requires Blank(text) && p in SplitBlank(text)
    ensures Blank(p)
  {
    if text == "" {
    } else if BLANK <= text {
      assert forall c :: c in text[2..] ==> c in text;
      if p in SplitBlank(text[2..]) {
        PieceIsBlank(text[2..], p);
      }
    } else {
      var rest := SplitBlank(text[1..]);
      assert forall c :: c in text[1..] ==> c in text;
      if p in rest[1..] {
        PieceIsBlank(text[1..], p);
      } else {
        PieceIsBlank(text[1..], rest[0]);
        assert p == [text[0]] + rest[0];
      }
    }
  }

  // ---- greedy packing ----

  /** The length of a chunk made of these units. */
  function Size(block: seq<string>): nat {
    |Join(block, BLANK)|
  }

  /** A unit goes with those before it if they stay within the budget, else it starts a chunk. */
  function Added(blocks: seq<seq<string>>, u: string, max: int): (after: seq<seq<string>>)
    ensures after != []
  {
    if blocks == [] then [[u]]
    else
      var (done, last) := (blocks[..|blocks| - 1], blocks[|blocks| - 1]);
      if Size(last) + |u| + 2 > max then blocks + [[u]] else done + [last + [u]]
  }

  /** The units of each chunk. */
  function Greedy(units: seq<string>, max: int): seq<seq<string>> {
    if units == [] then [] else Added(Greedy(units[..|units| - 1], max), units[|units| - 1], max)
  }

  function Joined(blocks: seq<seq<string>>): seq<string> {
    seq(|blocks|, i requires 0 <= i < |blocks| => Join(blocks[i], BLANK))
  }

  /** What the loop holds: the closed chunks, and the open one. */
  ghost predicate Holds(chunks: seq<string>, current: string, blocks: seq<seq<string>>) {
    if blocks == [] then chunks == [] && current == ""
    else
      var n := |blocks| - 1;
      chunks == Joined(blocks[..n]) && current == Join(blocks[n], BLANK) && current != "" && blocks[n] != []
  }

  lemma NothingYet()
    ensures Holds([], "", [])
  {
  }

  lemma Opens(chunks: seq<string>, current: string, blocks: seq<seq<string>>, u: string)
    requires Holds(chunks, current, blocks) && u != ""
    ensures Holds(if blocks == [] then [] else chunks + [current], u, blocks + [[u]])
  {
    assert (blocks + [[u]])[..|blocks|] == blocks;
    if blocks != [] {
      assert Joined(blocks) == Joined(blocks[..|blocks| - 1]) + [current];
    }
  }

  lemma Extends(chunks: seq<string>, current: string, blocks: seq<seq<string>>, u: string)
    requires Holds(chunks, current, blocks) && blocks != []
    ensures Holds(chunks, current + "\n\n" + u, blocks[..|blocks| - 1] + [blocks[|blocks| - 1] + [u]])
  {
    var (done, last) := (blocks[..|blocks| - 1], blocks[|blocks| - 1]);
    JoinSnoc(last, u, BLANK);
    assert (done + [last + [u]])[..|done|] == done;
    hide Joined, Join;
  }

  lemma Closes(chunks: seq<string>, current: string, blocks: seq<seq<string>>)
    requires Holds(chunks, current, blocks)
    ensures Joined(blocks) == if current == "" then chunks else chunks + [current]
  {
  }

  lemma HoldsOn(chunks: seq<string>, current: string, blocks: seq<seq<string>>, u: string, max: int)
    requires Holds(chunks, current, blocks) && u != ""
    ensures if current != "" && |current| + |u| + 2 > max then Holds(chunks + [current], u, Added(blocks, u, max))
            else Holds(chunks, if current != "" then current + "\n\n" + u else u, Added(blocks, u, max))
  {
    Opens(chunks, current, blocks, u);
    if blocks != [] {
      Extends(chunks, current, blocks, u);
    } else {
      assert [[u]] == blocks + [[u]];
    }
    hide Joined, Join;
  }

  /** What packing comes to; the one empty unit of a blank text makes no chunk. */
  function Packed(units: seq<string>, max: int): seq<string> {
    if units == [""] then [] else Joined(Greedy(units, max))
  }

  /** The packing loop: `chunks` are closed, `current` is open. */
  method Pack(units: seq<string>, max: int) returns (chunks: seq<string>)
    requires units == [""] || forall u :: u in units ==> u != ""
    ensures chunks == Packed(units, max)
  {
    hide Joined, Join, Holds, Added;
    chunks := [];
    var current := "";
    NothingYet();
    for i := 0 to |units|
      invariant if units == [""] then chunks == [] && current == "" else Holds(chunks, current, Greedy(units[..i], max))
    {
      assert units[i] in units && units[..i + 1][..i] == units[..i];
      if units != [""] {
        HoldsOn(chunks, current, Greedy(units[..i], max), units[i], max);
      }
      if current != "" && |current| + |units[i]| + 2 > max {
        chunks := chunks + [current];
        current := units[i];
      } else {
        current := if current != "" then current + "\n\n" + units[i] else units[i];
      }
    }
    assert units[..|units|] == units;
    if units != [""] {
      Closes(chunks, current, Greedy(units, max));
    }
    if current != "" {
      chunks := chunks + [current];
    }
  }

  /** `pack_paragraphs(max)(text)` */
  function PackParagraphs(text: string, max: int): seq<string> {
    Packed(Units(text), max)
  }

  method Chunk(text: string, max: int) returns (chunks: seq<string>)
    ensures chunks == PackParagraphs(text, max)
  {
    UnitsAreNonempty(text);
    chunks := Pack(Units(text), max);
  }

  // ---- what packing promises ----

  function Flat(blocks: seq<seq<string>>): seq<string> {
    if blocks == [] then [] else Flat(blocks[..|blocks| - 1]) + blocks[|blocks| - 1]
  }

  /** Consecutive stretches of the units, none empty. */
  ghost predicate Partitions(blocks: seq<seq<string>>, units: seq<string>) {
    Flat(blocks) == units && forall i :: 0 <= i < |blocks| ==> blocks[i] != []
  }

  /** Within the budget, or a unit that alone is not. */
  predicate Fits(block: seq<string>, max: int) {
    Size(block) <= max || |block| == 1
  }

  ghost predicate AllFit(blocks: seq<seq<string>>, max: int) {
    forall i :: 0 <= i < |blocks| ==> Fits(blocks[i], max)
  }

  lemma {:induction false} GreedyPartitions(units: seq<string>, max: int)
    ensures Partitions(Greedy(units, max), units) && AllFit(Greedy(units, max), max)
  {
    if units != [] {
      var (init, u) := (units[..|units| - 1], units[|units| - 1]);
      GreedyPartitions(init, max);
      var (before, blocks) := (Greedy(init, max), Greedy(units, max));
      assert units == init + [u];
      assert blocks[..|blocks| - 1] == if |blocks| > |before| then before else before[..|before| - 1];
      if before != [] {
        JoinSnoc(before[|before| - 1], u, BLANK);
      }
    }
  }

  /** Joining the chunks gives back the joined units. */
  lemma {:induction false} JoinedKeeps(blocks: seq<seq<string>>)
    requires forall i :: 0 <= i < |blocks| ==> blocks[i] != []
    ensures Join(Joined(blocks), BLANK) == Join(Flat(blocks), BLANK)
    ensures blocks != [] ==> Flat(blocks) != []
  {
    if blocks != [] {
      var (init, last) := (blocks[..|blocks| - 1], blocks[|blocks| - 1]);
      JoinedKeeps(init);
      assert Joined(blocks) == Joined(init) + [Join(last, BLANK)];
      JoinSnoc(Joined(init), Join(last, BLANK), BLANK);
      if init == [] {
        assert Flat(blocks) == last;
      } else {
        JoinConcat(Flat(init), last, BLANK);
        assert Joined(init) != [];
        hide Joined, Join;
      }
    }
  }

  // ---- no packing does better ----

  lemma FlatSnoc(blocks: seq<seq<string>>, block: seq<string>)
    ensures Flat(blocks + [block]) == Flat(blocks) + block
  {
    assert (blocks + [block])[..|blocks|] == blocks;
  }

  /** A packing of units and one more, without that one. */
  ghost function Shortened(blocks: seq<seq<string>>): seq<seq<string>>
    requires blocks != [] && blocks[|blocks| - 1] != []
  {
    var (init, last) := (blocks[..|blocks| - 1], blocks[|blocks| - 1]);
    if |last| == 1 then init else init + [last[..|last| - 1]]
  }

  lemma ShortenedPartitions(blocks: seq<seq<string>>, units: seq<string>, max: int)
    requires units != [] && Partitions(blocks, units) && AllFit(blocks, max)
    ensures blocks != [] && blocks[|blocks| - 1] != []
    ensures var (last, n) := (blocks[|blocks| - 1], |units| - 1);
            && last[|last| - 1] == units[n]
            && Partitions(Shortened(blocks), units[..n]) && AllFit(Shortened(blocks), max)
  {
    var (init, last) := (blocks[..|blocks| - 1], blocks[|blocks| - 1]);
    var (short, u) := (last[..|last| - 1], last[|last| - 1]);
    assert last == short + [u];
    assert units == (Flat(init) + short) + [u];
    if short == [] {
      assert Flat(init) == units[..|units| - 1];
    } else {
      FlatSnoc(init, short);
      JoinSnoc(short, u, BLANK);
    }
  }

  /** Greedy is at least as good as any packing, and where it is only as good its last chunk is no longer. */
  lemma {:induction false} GreedyAhead(units: seq<string>, max: int, blocks: seq<seq<string>>)
    requires Partitions(blocks, units) && AllFit(blocks, max)
    ensures var greedy := Greedy(units, max);
            && |greedy| <= |blocks|
            && (units != [] && |greedy| == |blocks| ==>
                blocks != [] && Size(greedy[|greedy| - 1]) <= Size(blocks[|blocks| - 1]))
  {
    if units != [] {
      var (init, u) := (units[..|units| - 1], units[|units| - 1]);
      ShortenedPartitions(blocks, units, max);
      var last := blocks[|blocks| - 1];
      assert |last| > 1 ==> Size(last) <= max;
      NoneLeft(Shortened(blocks), init);
      hide Partitions, AllFit, Size, Shortened;
      GreedyAhead(init, max, Shortened(blocks));
      assert last == last[..|last| - 1] + [u];
      SizeSnoc(last[..|last| - 1], u);
      GreedyLast(init, max);
      AddedEnds(Greedy(init, max), u, max);
      ShortenedShape(blocks);
      hide Greedy, Added;
    }
  }

  lemma ShortenedShape(blocks: seq<seq<string>>)
    requires blocks != [] && blocks[|blocks| - 1] != []
    ensures var (last, short) := (blocks[|blocks| - 1], Shortened(blocks));
            if |last| == 1 then |short| == |blocks| - 1
            else |short| == |blocks| && short[|short| - 1] == last[..|last| - 1]
  {
  }

  lemma GreedyLast(units: seq<string>, max: int)
    ensures var blocks := Greedy(units, max); blocks != [] ==> blocks[|blocks| - 1] != []
  {
    GreedyPartitions(units, max);
  }

  lemma AddedEnds(blocks: seq<seq<string>>, u: string, max: int)
    requires blocks != [] ==> blocks[|blocks| - 1] != []
    ensures var after := Added(blocks, u, max);
            if blocks == [] || Size(blocks[|blocks| - 1]) + 2 + |u| > max
                then |after| == |blocks| + 1 && Size(after[|after| - 1]) == |u|
            else |after| == |blocks| && Size(after[|after| - 1]) == Size(blocks[|blocks| - 1]) + 2 + |u|
  {
    SizeSnoc([], u);
    if blocks != [] {
      SizeSnoc(blocks[|blocks| - 1], u);
    }
    hide Size;
  }

  lemma SizeSnoc(block: seq<string>, u: string)
    ensures Size(block + [u]) == if block == [] then |u| else Size(block) + 2 + |u|
  {
    JoinSnoc(block, u, BLANK);
  }

  lemma NoneLeft(blocks: seq<seq<string>>, units: seq<string>)
    requires Partitions(blocks, units)
    ensures blocks == [] <==> units == []
  {
    if blocks != [] {
      assert blocks[|blocks| - 1] != [];
    }
  }

  /** No way of cutting the units into consecutive chunks, each within the budget or a single unit,
      makes fewer chunks. */
  lemma GreedyIsOptimal(text: string, max: int, blocks: seq<seq<string>>)
    requires Partitions(blocks, Units(text)) && AllFit(blocks, max)
    ensures |PackParagraphs(text, max)| <= |blocks|
  {
    GreedyAhead(Units(text), max, blocks);
  }

  /** The chunks of a text: nothing of its units is lost, added or moved, and a chunk over the budget is
      a single unit. */
  lemma PackingKeeps(text: string, max: int)
    ensures Join(PackParagraphs(text, max), BLANK) == Join(Units(text), BLANK)
    ensures forall c :: c in PackParagraphs(text, max) ==> c != "" && (|c| <= max || c in Units(text))
  {
    var units := Units(text);
    if units != [""] {
      UnitsAreNonempty(text);
      hide Units;
      var blocks := Greedy(units, max);
      GreedyPartitions(units, max);
      hide Greedy;
      JoinedKeeps(blocks);
      forall c | c in Joined(blocks) ensures c != "" && (|c| <= max || c in units) {
        var i :| 0 <= i < |blocks| && c == Join(blocks[i], BLANK);
        BlockKeeps(units, max, blocks, i);
      }
    }
  }

  lemma UnitsAreNonempty(text: string)
    ensures Units(text) != [""] ==> forall u :: u in Units(text) ==> u != ""
  {
    hide SplitBlank, Stripped, Strip;
    StrippedMeans(SplitBlank(text));
    BlankTextHasNoUnits(text);
  }

  lemma BlockKeeps(units: seq<string>, max: int, blocks: seq<seq<string>>, i: nat)
    requires Partitions(blocks, units) && AllFit(blocks, max) && i < |blocks| && forall u :: u in units ==> u != ""
    ensures var c := Join(blocks[i], BLANK); c != "" && (|c| <= max || c in units)
  {
    FlatHas(blocks, i);
    assert blocks[i][0] in units;
    JoinNonempty(blocks[i], BLANK);
  }

  lemma {:induction false} FlatHas(blocks: seq<seq<string>>, i: nat)
    requires i < |blocks|
    ensures forall u :: u in blocks[i] ==> u in Flat(blocks)
  {
    if i < |blocks| - 1 {
      FlatHas(blocks[..|blocks| - 1], i);
    }
  }

  lemma JoinNonempty(parts: seq<string>, sep: string)
    requires parts != [] && parts[0] != ""
    ensures Join(parts, sep) != ""
  {
  }

  /** A unit is a stretch of the text between whitespace, with no blank line in it. */
  lemma UnitsMean(text: string, u: string)
    requires u in Units(text) && !Blank(text)
    ensures u != "" && !IsSpace(u[0]) && !IsSpace(u[|u| - 1]) && !HasBlankLine(u)
    ensures exists p :: p in SplitBlank(text) && u == Strip(p)
  {
    BlankTextHasNoUnits(text);
    assert u in Stripped(SplitBlank(text));
    hide SplitBlank, Strip, Stripped, IsSpace, HasBlankLine, Units, Blank;
    StrippedMeans(SplitBlank(text));
    PiecesHaveNoBlankLine(text);
    var p :| p in SplitBlank(text) && u == Strip(p);
    StripIsClean(p);
  }

  lemma StripIsClean(p: string)
    requires Strip(p) != "" && !HasBlankLine(p)
    ensures var u := Strip(p); !IsSpace(u[0]) && !IsSpace(u[|u| - 1]) && !HasBlankLine(u)
  {
    hide Strip, IsSpace, HasBlankLine, Blank;
    StripMeans(p);
    var a, b :| p == a + Strip(p) + b;
    NoBlankLineWithin(a, Strip(p), b);
  }

  lemma NoBlankLineWithin(a: string, u: string, b: string)
    requires !HasBlankLine(a + u + b)
    ensures !HasBlankLine(u)
  {
    var p := a + u + b;
    forall k | 0 <= k <= |u| ensures !(BLANK <= u[k..]) {
      assert p[|a| + k..] == u[k..] + b;
    }
  }
}
