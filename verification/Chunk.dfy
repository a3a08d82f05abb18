/**
 Greedy chunking of a document: consecutive blocks are packed into one chunk
 while its words stay within the bound.
 */
module Chunk {

  datatype Block = Block(heading: string, text: string)

  function Searchable(b: Block): string {
    if b.heading != "" then b.heading + ": " + b.text else b.text
  }

  // ---- text ----

  /** The characters str.split and str.strip take for white space. */
  predicate IsSpace(c: char) {
    var n := c as int;
    9 <= n <= 13 || 28 <= n <= 32 || n == 0x85 || n == 0xA0 || n == 0x1680 || 0x2000 <= n <= 0x200A
    || n == 0x2028 || n == 0x2029 || n == 0x202F || n == 0x205F || n == 0x3000
  }

  function LStrip(s: string): string {
    if s != "" && IsSpace(s[0]) then LStrip(s[1..]) else s
  }

  function RStrip(s: string): string {
    if s != "" && IsSpace(s[|s| - 1]) then RStrip(s[..|s| - 1]) else s
  }

  function Strip(s: string): string {
    RStrip(LStrip(s))
  }

  /** len(s.split()): a word starts at each non-space that follows a space or nothing. */
  function WordCount(s: string): nat {
    if s == "" then 0
    else
      var n := |s| - 1;
      WordCount(s[..n]) + if !IsSpace(s[n]) && (n == 0 || IsSpace(s[n - 1])) then 1 else 0
  }

  const NEWLINE := "\n"

  /** "\n".join(lines) */
  function Join(lines: seq<string>): string {
    if lines == [] then ""
    else if |lines| == 1 then lines[0]
    else Join(lines[..|lines| - 1]) + NEWLINE + lines[|lines| - 1]
  }

  /** The non-blank block texts, in order. */
  function Texts(blocks: seq<Block>): seq<string> {
    if blocks == [] then []
    else
      var text := Strip(Searchable(blocks[0]));
      (if text == "" then [] else [text]) + Texts(blocks[1..])
  }

  // ---- partitions ----

  function Words(texts: seq<string>): nat {
    if texts == [] then 0 else Words(texts[..|texts| - 1]) + WordCount(texts[|texts| - 1])
  }

  function Flatten(groups: seq<seq<string>>): seq<string> {
    if groups == [] then [] else groups[0] + Flatten(groups[1..])
  }

  /** What a chunk may be: within the bound, or one block on its own. */
  predicate Fits(group: seq<string>, maxWords: int) {
    group != [] && (Words(group) <= maxWords || |group| == 1)
  }

  /** A division of the texts into consecutive groups that all fit. */
  predicate Partition(groups: seq<seq<string>>, texts: seq<string>, maxWords: int) {
    Flatten(groups) == texts && forall g | g in groups :: Fits(g, maxWords)
  }

  /** The groups the loop closes from here on, `current` being the open one. */
  function Packed(current: seq<string>, texts: seq<string>, maxWords: int): seq<seq<string>>
    decreases |texts|
  {
    if texts == [] then
      if current == [] then [] else [current]
    else if current != [] && Words(current) + WordCount(texts[0]) > maxWords then
      [current] + Packed([texts[0]], texts[1..], maxWords)
    else Packed(current + [texts[0]], texts[1..], maxWords)
  }

  function Joined(groups: seq<seq<string>>): seq<string> {
    seq(|groups|, i requires 0 <= i < |groups| => Join(groups[i]))
  }

  /** The chunks of a document; `whole` is its normalised text, used when the bound is not positive. */
  function Chunks(blocks: seq<Block>, maxWords: int, whole: string): seq<string> {
    if maxWords <= 0 then [whole]
    else if Texts(blocks) == [] then [""]
    else Joined(Packed([], Texts(blocks), maxWords))
  }

  method ChunkDocument(blocks: seq<Block>, maxWords: int, whole: string) returns (chunks: seq<string>)
    ensures chunks == Chunks(blocks, maxWords, whole)
  {
    if maxWords <= 0 {
      return [whole];
    }
    hide Words, WordCount, Joined, Join, Strip, Searchable, Progress;
    chunks := [];
    var current: seq<string> := [];
    var currentWords := 0;
    ghost var groups := [];
    StartPacking(blocks, maxWords);
    for i := 0 to |blocks|
      invariant currentWords == Words(current)
      invariant chunks == Joined(groups)
      invariant Progress(groups, current, blocks, i, maxWords)
    {
      var text := Strip(Searchable(blocks[i]));
      PackOne(groups, current, blocks, i, maxWords);
      if text != "" {
        var words := WordCount(text);
        if current != [] && currentWords + words > maxWords {
          JoinedAppend(groups, current);
          chunks := chunks + [Join(current)];
          groups := groups + [current];
          current, currentWords := [], 0;
        }
        WordsOfOneMore(current, text);
        current := current + [text];
        currentWords := currentWords + words;
      }
    }
    AllPacked(groups, current, blocks, maxWords);
    if current != [] {
      JoinedAppend(groups, current);
      chunks := chunks + [Join(current)];
      groups := groups + [current];
    }
    JoinedLength(groups);
    if chunks == [] {
      chunks := chunks + [""];
    }
  }

  /** Where the loop stands: what is closed, and what packing on from the open group will close. */
  predicate Progress(groups: seq<seq<string>>, current: seq<string>, blocks: seq<Block>, i: nat, maxWords: int) {
    i <= |blocks| && Packed([], Texts(blocks), maxWords) == groups + Packed(current, Texts(blocks[i..]), maxWords)
  }

  lemma StartPacking(blocks: seq<Block>, maxWords: int)
    ensures Progress([], [], blocks, 0, maxWords) && Joined([]) == [] && Words([]) == 0
  {
    assert blocks[0..] == blocks;
    var none: seq<seq<string>> := [];
    assert none + Packed([], Texts(blocks), maxWords) == Packed([], Texts(blocks), maxWords);
  }

  lemma PackOne(groups: seq<seq<string>>, current: seq<string>, blocks: seq<Block>, i: nat, maxWords: int)
    requires i < |blocks| && Progress(groups, current, blocks, i, maxWords)
    ensures var text := Strip(Searchable(blocks[i]));
            if text == "" then Progress(groups, current, blocks, i + 1, maxWords)
            else if current != [] && Words(current) + WordCount(text) > maxWords
            then Progress(groups + [current], [] + [text], blocks, i + 1, maxWords)
            else Progress(groups, current + [text], blocks, i + 1, maxWords)
  {
    hide Words, WordCount, Strip, Searchable;
    var text, rest := Strip(Searchable(blocks[i])), Texts(blocks[i + 1..]);
    assert blocks[i..][1..] == blocks[i + 1..];
    if text == "" {
      assert Texts(blocks[i..]) == rest;
    } else {
      assert Texts(blocks[i..]) == [text] + rest;
      assert Texts(blocks[i..])[1..] == rest;
      assert [] + [text] == [text];
      if current != [] && Words(current) + WordCount(text) > maxWords {
        assert groups + ([current] + Packed([text], rest, maxWords))
            == groups + [current] + Packed([text], rest, maxWords);
      }
    }
  }

  lemma WordsOfOneMore(current: seq<string>, text: string)
    ensures Words(current + [text]) == Words(current) + WordCount(text)
    ensures current == [] ==> Words(current) == 0
  {
    assert (current + [text])[..|current|] == current;
  }

  lemma AllPacked(groups: seq<seq<string>>, current: seq<string>, blocks: seq<Block>, maxWords: int)
    requires Progress(groups, current, blocks, |blocks|, maxWords)
    ensures Packed([], Texts(blocks), maxWords) == if current == [] then groups else groups + [current]
    ensures Texts(blocks) == [] <==> Packed([], Texts(blocks), maxWords) == []
  {
    PackedPartition([], Texts(blocks), maxWords);
    assert [] + Texts(blocks) == Texts(blocks);
  }

  lemma JoinedLength(groups: seq<seq<string>>)
    ensures |Joined(groups)| == |groups|
  {}

  lemma JoinedAppend(groups: seq<seq<string>>, g: seq<string>)
    ensures Joined(groups + [g]) == Joined(groups) + [Join(g)]
  {}

  // ---- lossless and within the bound ----

  lemma {:induction false} PackedPartition(current: seq<string>, texts: seq<string>, maxWords: int)
    requires current == [] || Fits(current, maxWords)
    ensures Partition(Packed(current, texts, maxWords), current + texts, maxWords)
    decreases |texts|
  {
    if texts == [] {
      assert current + texts == current;
      if current != [] {
        assert Flatten([current]) == current + Flatten([][..]);
      }
    } else {
      var t := texts[0];
      assert Words([t]) == WordCount(t) by {
        assert [t][..0] == [];
      }
      if current != [] && Words(current) + WordCount(t) > maxWords {
        PackedPartition([t], texts[1..], maxWords);
        assert [t] + texts[1..] == texts;
        var rest := Packed([t], texts[1..], maxWords);
        assert ([current] + rest)[1..] == rest;
      } else {
        assert (current + [t])[..|current|] == current;
        PackedPartition(current + [t], texts[1..], maxWords);
        assert current + [t] + texts[1..] == current + texts;
      }
    }
  }

  // ---- optimality ----

  predicate Suffix(a: seq<string>, b: seq<string>) {
    |a| <= |b| && b[|b| - |a|..] == a
  }

  lemma {:induction false} WordsConcat(a: seq<string>, b: seq<string>)
    ensures Words(a + b) == Words(a) + Words(b)
  {
    if b == [] {
      assert a + b == a;
    } else {
      WordsConcat(a, b[..|b| - 1]);
      assert (a + b)[..|a + b| - 1] == a + b[..|b| - 1];
    }
  }

  /**
   Greedy stays ahead. The greedy open group and the open group of any other
   packing are compared after the same texts: when the greedy one is a suffix of
   the other, greedy needs no more groups for the rest; otherwise one more at most.
   */
  lemma {:induction false} StaysAhead(current: seq<string>, other: seq<string>, groups: seq<seq<string>>,
                                      texts: seq<string>, maxWords: int)
    requires current != [] && other != []
    requires groups != [] && Partition(groups, other + texts, maxWords) && other <= groups[0]
    ensures Suffix(current, other) ==> |Packed(current, texts, maxWords)| <= |groups|
    ensures |Packed(current, texts, maxWords)| <= |groups| + 1
    decreases |texts|
  {
    if texts != [] {
      var t, rest := texts[0], texts[1..];
      assert other + texts == other + [t] + rest;
      NextText(other, groups, texts, maxWords);
      if groups[0] == other {
        var later := groups[1..];
        assert Words([t]) == WordCount(t) by {
          assert [t][..0] == [];
        }
        StaysAhead([t], [t], later, rest, maxWords);
        StaysAhead(current + [t], [t], later, rest, maxWords);
      } else {
        OverflowTogether(current, other, groups[0], t, maxWords);
        StaysAhead([t], other + [t], groups, rest, maxWords);
        StaysAhead(current + [t], other + [t], groups, rest, maxWords);
      }
    }
  }

  /** The next text either extends the other packing's open group or opens its next one. */
  lemma NextText(other: seq<string>, groups: seq<seq<string>>, texts: seq<string>, maxWords: int)
    requires texts != [] && groups != [] && Partition(groups, other + texts, maxWords) && other <= groups[0]
    ensures groups[0] != other ==> other + [texts[0]] <= groups[0]
    ensures groups[0] == other ==>
              groups[1..] != [] && Partition(groups[1..], [texts[0]] + texts[1..], maxWords) && [texts[0]] <= groups[1]
  {
    var all := other + texts;
    assert all == groups[0] + Flatten(groups[1..]);
    assert all[|other|] == texts[0];
    if groups[0] == other {
      assert Flatten(groups[1..]) == all[|other|..] == texts == [texts[0]] + texts[1..];
      assert groups[1] in groups;
      assert groups[1][0] == texts[0];
    } else {
      assert groups[0][|other|] == texts[0];
    }
  }

  lemma SuffixWords(current: seq<string>, other: seq<string>)
    requires Suffix(current, other)
    ensures Words(current) <= Words(other)
  {
    var front := other[..|other| - |current|];
    assert other == front + current;
    WordsConcat(front, current);
  }

  lemma SuffixAppend(current: seq<string>, other: seq<string>, t: string)
    ensures Suffix(current, other) ==> Suffix(current + [t], other + [t])
    ensures Suffix([t], other + [t])
  {}

  lemma WordsInGroup(other: seq<string>, t: string, group: seq<string>)
    requires other + [t] <= group
    ensures Words(other) + WordCount(t) <= Words(group)
  {
    var tail := group[|other| + 1..];
    assert group == other + [t] + tail;
    WordsOfOneMore(other, t);
    hide Words, WordCount;
    WordsConcat(other + [t], tail);
  }

  /** If the other packing can still take the text, so can any suffix of its open group. */
  lemma OverflowTogether(current: seq<string>, other: seq<string>, group: seq<string>, t: string, maxWords: int)
    requires other != [] && other + [t] <= group && Fits(group, maxWords)
    ensures Suffix(current, other) ==> Words(current) + WordCount(t) <= maxWords
    ensures Suffix(current, other) ==> Suffix(current + [t], other + [t])
    ensures Suffix([t], other + [t])
  {
    assert |group| >= |other| + 1 >= 2 && Words(group) <= maxWords;
    hide *;
    SuffixAppend(current, other, t);
    WordsInGroup(other, t, group);
    if Suffix(current, other) {
      SuffixWords(current, other);
    }
  }

  /** No division into fitting groups has fewer of them. */
  lemma GreedyIsOptimal(texts: seq<string>, groups: seq<seq<string>>, maxWords: int)
    requires Partition(groups, texts, maxWords)
    ensures |Packed([], texts, maxWords)| <= |groups|
  {
    if texts != [] {
      assert groups != [];
      assert groups[0] in groups && texts == groups[0] + Flatten(groups[1..]);
      var t := texts[0];
      assert [t] + texts[1..] == texts;
      assert [t] <= groups[0];
      assert [] + [t] == [t];
      StaysAhead([t], [t], groups, texts[1..], maxWords);
    }
  }

  // ---- the chunks as text ----

  lemma {:induction false} JoinConcat(a: seq<string>, b: seq<string>)
    requires a != [] && b != []
    ensures Join(a + b) == Join(a) + NEWLINE + Join(b)
  {
    assert (a + b)[..|a + b| - 1] == a + b[..|b| - 1];
    if |b| > 1 {
      JoinConcat(a, b[..|b| - 1]);
    } else {
      assert a + b[..0] == a;
    }
  }

  lemma {:induction false} JoinedGroups(groups: seq<seq<string>>)
    requires forall g | g in groups :: g != []
    ensures Join(Joined(groups)) == Join(Flatten(groups))
  {
    if |groups| == 1 {
      assert groups[1..] == [];
      assert Flatten(groups) == groups[0];
    } else if groups != [] {
      assert groups[0] in groups && groups[1] in groups;
      assert forall g | g in groups[1..] :: g in groups;
      JoinedGroups(groups[1..]);
      assert Joined(groups) == [Join(groups[0])] + Joined(groups[1..]);
      assert Flatten(groups[1..]) != [];
      JoinConcat([Join(groups[0])], Joined(groups[1..]));
      JoinConcat(groups[0], Flatten(groups[1..]));
    }
  }

  /** A newline keeps the words on its two sides apart. */
  lemma {:induction false} WordsAcrossNewline(a: string, b: string)
    ensures WordCount(a + NEWLINE + b) == WordCount(a) + WordCount(b)
  {
    var s := a + NEWLINE + b;
    if b == "" {
      assert s[..|a|] == a;
    } else {
      assert s[..|s| - 1] == a + NEWLINE + b[..|b| - 1];
      WordsAcrossNewline(a, b[..|b| - 1]);
      assert |b| == 1 ==> s[|s| - 2] == '\n';
      assert |b| > 1 ==> s[|s| - 2] == b[|b| - 2];
    }
  }

  lemma {:induction false} JoinWords(texts: seq<string>)
    ensures WordCount(Join(texts)) == Words(texts)
  {
    if texts != [] {
      JoinWords(texts[..|texts| - 1]);
      if |texts| > 1 {
        WordsAcrossNewline(Join(texts[..|texts| - 1]), texts[|texts| - 1]);
      } else {
        assert texts[..0] == [];
      }
    }
  }

  /**
   For a positive bound: the chunks joined again are the non-blank texts joined,
   every chunk is within the bound or is a single block, and no division of the
   texts into such chunks is shorter. Without any text there is one empty chunk.
   */
  lemma ChunksLosslessAndFewest(blocks: seq<Block>, maxWords: int, whole: string)
    requires maxWords > 0
    ensures Join(Chunks(blocks, maxWords, whole)) == Join(Texts(blocks))
    ensures forall c | c in Chunks(blocks, maxWords, whole) ::
              WordCount(c) <= maxWords || c in Texts(blocks)
    ensures Texts(blocks) != [] ==>
              forall groups | Partition(groups, Texts(blocks), maxWords) ::
                |Chunks(blocks, maxWords, whole)| <= |groups|
    ensures Texts(blocks) == [] ==> Chunks(blocks, maxWords, whole) == [""]
  {
    var texts := Texts(blocks);
    if texts != [] {
      var groups := Packed([], texts, maxWords);
      PackedPartition([], texts, maxWords);
      assert [] + texts == texts;
      JoinedGroups(groups);
      ChunksFit(groups, texts, maxWords);
      hide Texts, Packed, Join, WordCount, Words, Partition, Flatten;
      forall other | Partition(other, texts, maxWords)
        ensures |groups| <= |other|
      {
        GreedyIsOptimal(texts, other, maxWords);
      }
    }
  }

  lemma ChunksFit(groups: seq<seq<string>>, texts: seq<string>, maxWords: int)
    requires Partition(groups, texts, maxWords)
    ensures forall c | c in Joined(groups) :: WordCount(c) <= maxWords || c in texts
  {
    forall c | c in Joined(groups)
      ensures WordCount(c) <= maxWords || c in texts
    {
      var i :| 0 <= i < |groups| && c == Join(groups[i]);
      assert groups[i] in groups;
      JoinWords(groups[i]);
      if |groups[i]| == 1 {
        GroupMember(groups, i, groups[i][0]);
      }
    }
  }

  lemma {:induction false} GroupMember(groups: seq<seq<string>>, i: nat, t: string)
    requires i < |groups| && t in groups[i]
    ensures t in Flatten(groups)
  {
    if i > 0 {
      assert groups[1..][i - 1] == groups[i];
      GroupMember(groups[1..], i - 1, t);
    }
  }

  // ---- what words, lines and stripped texts are ----

  predicate Blank(s: string) {
    forall c | c in s :: IsSpace(c)
  }

  predicate Word(s: string) {
    s != "" && forall c | c in s :: !IsSpace(c)
  }

  /** Words with white space around them; only before the first and after the last may there be none. */
  predicate Gaps(gaps: seq<string>, words: seq<string>) {
    && |gaps| == |words| + 1 && (forall g | g in gaps :: Blank(g))
    && forall i | 0 < i < |words| :: gaps[i] != ""
  }

  function Spaced(gaps: seq<string>, words: seq<string>): string
    requires |gaps| == |words| + 1
  {
    if words == [] then gaps[0]
    else var n := |words| - 1; Spaced(gaps[..n + 1], words[..n]) + words[n] + gaps[n + 1]
  }

  predicate EndsOpen(s: string) {
    s == "" || IsSpace(s[|s| - 1])
  }

  lemma {:induction false} BlankAddsNone(s: string, g: string)
    requires Blank(g)
    ensures WordCount(s + g) == WordCount(s)
    ensures EndsOpen(s) || g != "" ==> EndsOpen(s + g)
  {
    if g == "" {
      assert s + g == s;
    } else {
      var n := |g| - 1;
      assert g[n] in g && forall c | c in g[..n] :: c in g;
      BlankAddsNone(s, g[..n]);
      assert (s + g)[..|s| + n] == s + g[..n];
    }
  }

  lemma {:induction false} WordAddsOne(s: string, w: string)
    requires Word(w) && EndsOpen(s)
    ensures WordCount(s + w) == WordCount(s) + 1
  {
    var n := |w| - 1;
    assert w[n] in w && forall c | c in w[..n] :: c in w;
    assert (s + w)[..|s| + n] == s + w[..n];
    if n == 0 {
      assert s + w[..n] == s;
    } else {
      WordAddsOne(s, w[..n]);
      assert w[n - 1] in w;
    }
  }

  /** Text made of n words with white space between them has n words. */
  lemma {:induction false} WordCountCountsWords(gaps: seq<string>, words: seq<string>)
    requires Gaps(gaps, words) && forall w | w in words :: Word(w)
    ensures WordCount(Spaced(gaps, words)) == |words|
    ensures |words| == 0 || gaps[|words|] != "" ==> EndsOpen(Spaced(gaps, words))
  {
    assert gaps[|words|] in gaps;
    if words == [] {
      BlankAddsNone("", gaps[0]);
      assert "" + gaps[0] == gaps[0];
    } else {
      var n := |words| - 1;
      assert words[n] in words;
      WordCountCountsWords(gaps[..n + 1], words[..n]);
      var before := Spaced(gaps[..n + 1], words[..n]);
      WordAddsOne(before, words[n]);
      BlankAddsNone(before + words[n], gaps[n + 1]);
    }
  }

  lemma {:induction false} LStripIs(s: string)
    ensures exists a :: s == a + LStrip(s) && Blank(a)
    ensures LStrip(s) == "" || !IsSpace(LStrip(s)[0])
  {
    if s != "" && IsSpace(s[0]) {
      LStripIs(s[1..]);
      var a :| s[1..] == a + LStrip(s[1..]) && Blank(a);
      assert s == [s[0]] + a + LStrip(s);
    } else {
      assert s == "" + LStrip(s);
    }
  }

  lemma {:induction false} RStripIs(s: string)
    ensures exists b :: s == RStrip(s) + b && Blank(b)
    ensures RStrip(s) == "" || !IsSpace(RStrip(s)[|RStrip(s)| - 1])
    ensures RStrip(s) <= s
  {
    if s != "" && IsSpace(s[|s| - 1]) {
      var n := |s| - 1;
      RStripIs(s[..n]);
      var b :| s[..n] == RStrip(s[..n]) + b && Blank(b);
      assert s == RStrip(s) + (b + [s[n]]);
    } else {
      assert s == RStrip(s) + "";
    }
  }

  /** Stripping takes white space off both ends and leaves none there. */
  lemma StripIs(s: string)
    ensures exists a, b :: s == a + Strip(s) + b && Blank(a) && Blank(b)
    ensures Strip(s) == "" || (!IsSpace(Strip(s)[0]) && !IsSpace(Strip(s)[|Strip(s)| - 1]))
  {
    LStripIs(s);
    RStripIs(LStrip(s));
    var a :| s == a + LStrip(s) && Blank(a);
    var b :| LStrip(s) == Strip(s) + b && Blank(b);
    assert s == a + Strip(s) + b;
  }

  function SplitLines(s: string): (r: seq<string>)
    ensures |r| > 0
  {
    if s == "" then [""]
    else
      var n := |s| - 1;
      var r := SplitLines(s[..n]);
      if s[n] == '\n' then r + [""] else r[|r| - 1 := r[|r| - 1] + [s[n]]]
  }

  lemma {:induction false} SplitAppend(s: string, line: string)
    requires '\n' !in line
    ensures var r := SplitLines(s); SplitLines(s + line) == r[|r| - 1 := r[|r| - 1] + line]
  {
    var r := SplitLines(s);
    if line == "" {
      assert s + line == s && r[|r| - 1] + line == r[|r| - 1];
    } else {
      var n := |line| - 1;
      assert line[n] in line && '\n' !in line[..n];
      SplitAppend(s, line[..n]);
      assert (s + line)[..|s| + n] == s + line[..n];
      assert r[|r| - 1] + line[..n] + [line[n]] == r[|r| - 1] + line;
    }
  }

  /** Joined lines split at the line breaks are the lines again. */
  lemma {:induction false} JoinedLinesSplit(lines: seq<string>)
    requires lines != [] && forall l | l in lines :: '\n' !in l
    ensures SplitLines(Join(lines)) == lines
  {
    var n := |lines| - 1;
    assert lines[n] in lines;
    if n == 0 {
      SplitAppend("", lines[0]);
      assert "" + lines[0] == lines[0];
    } else {
      var first := Join(lines[..n]);
      JoinedLinesSplit(lines[..n]);
      var s := first + NEWLINE;
      assert s[..|s| - 1] == first && s[|s| - 1] == '\n';
      SplitAppend(s, lines[n]);
      assert "" + lines[n] == lines[n];
    }
  }

  // ---- headings stay with their text ----

  ghost predicate Within(part: string, whole: string) {
    exists a, b :: whole == a + part + b
  }

  lemma StripNone(s: string)
    requires s != "" && !IsSpace(s[0]) && !IsSpace(s[|s| - 1])
    ensures Strip(s) == s
  {}

  lemma {:induction false} TextKept(blocks: seq<Block>, i: nat)
    requires i < |blocks| && Strip(Searchable(blocks[i])) != ""
    ensures Strip(Searchable(blocks[i])) in Texts(blocks)
  {
    hide Strip, Searchable;
    if i > 0 {
      assert blocks[1..][i - 1] == blocks[i];
      TextKept(blocks[1..], i - 1);
    }
  }

  lemma {:induction false} FlattenMember(groups: seq<seq<string>>, t: string) returns (i: nat)
    requires t in Flatten(groups)
    ensures i < |groups| && t in groups[i]
  {
    if t in groups[0] {
      i := 0;
    } else {
      i := FlattenMember(groups[1..], t);
      i := i + 1;
    }
  }

  lemma {:induction false} JoinHolds(lines: seq<string>, t: string)
    requires t in lines
    ensures Within(t, Join(lines))
  {
    var n := |lines| - 1;
    if n == 0 {
      assert Join(lines) == "" + t + "";
    } else if t == lines[n] {
      assert Join(lines) == (Join(lines[..n]) + NEWLINE) + t + "";
    } else {
      assert t in lines[..n];
      JoinHolds(lines[..n], t);
      var a, b :| Join(lines[..n]) == a + t + b;
      assert Join(lines) == a + t + (b + NEWLINE + lines[n]);
    }
  }

  lemma ChunkHolds(blocks: seq<Block>, maxWords: int, whole: string, t: string)
    requires maxWords > 0 && t in Texts(blocks)
    ensures exists c | c in Chunks(blocks, maxWords, whole) :: Within(t, c)
  {
    hide Strip, Searchable, Join, Texts, Words, WordCount, Packed, Within, Flatten;
    var texts := Texts(blocks);
    var groups := Packed([], texts, maxWords);
    PackedPartition([], texts, maxWords);
    assert [] + texts == texts;
    var g := FlattenMember(groups, t);
    JoinHolds(groups[g], t);
    var chunks := Chunks(blocks, maxWords, whole);
    assert chunks == Joined(groups) && chunks[g] == Join(groups[g]);
    assert chunks[g] in chunks;
  }

  /** A block that is not blank at either end is in some chunk as a whole, its heading in front of its text. */
  lemma HeadingsStay(blocks: seq<Block>, maxWords: int, whole: string, i: nat)
    requires maxWords > 0 && i < |blocks| && blocks[i].text != ""
    requires var b := blocks[i];
             !IsSpace(b.text[|b.text| - 1]) && !IsSpace((b.heading + b.text)[0])
    ensures var b := blocks[i];
            exists c | c in Chunks(blocks, maxWords, whole) ::
              Within(if b.heading == "" then b.text else b.heading + ": " + b.text, c)
  {
    var b := blocks[i];
    var t := if b.heading == "" then b.text else b.heading + ": " + b.text;
    assert Searchable(b) == t && t[|t| - 1] == b.text[|b.text| - 1];
    assert t[0] == (b.heading + b.text)[0];
    StripNone(t);
    TextKept(blocks, i);
    hide *;
    ChunkHolds(blocks, maxWords, whole, t);
  }
}
