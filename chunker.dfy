/**
 * `split_to_chunks`: raw document text to an ordered list of chunk texts.
 *
 * The loop of the source keeps three variables: the finished chunks, the
 * text buffer of the chunk being built and a running word counter. The
 * specification below folds the same step over the lines, but records the
 * cleaned LINES each buffer held (a "group") instead of the buffer text;
 * the buffer text is `Render(group)` and the chunk text is its strip.
 */
module Chunker {
  import opened PyStr

  const DefaultMaxWords := 400
  const DefaultMinLetters := 5

  /** The character class `[0-9a-zA-Z.&!,()+']` that cleaning keeps. */
  predicate IsKept(c: char) {
    ('0' <= c <= '9') || ('a' <= c <= 'z') || ('A' <= c <= 'Z') || c in ".&!,()+'"
  }

  /** Text made only of kept characters and plain spaces. */
  predicate IsCleanText(s: string) {
    forall c :: c in s ==> IsKept(c) || c == ' '
  }

  /** The regex substitution: every character outside the class becomes one space. */
  function MaskSymbols(t: string): (r: string)
    ensures |r| == |t| && IsCleanText(r)
    ensures forall k :: 0 <= k < |t| ==> r[k] == t[k] || (!IsKept(t[k]) && r[k] == ' ')
  {
    seq(|t|, k requires 0 <= k < |t| => if IsKept(t[k]) then t[k] else ' ')
  }

  /** A line after cleaning: symbols masked, then `"..."` and `" . . "` deleted. */
  function Clean(t: string): (r: string)
    ensures IsCleanText(r) && |r| <= |t|
  {
    DeleteAll(DeleteAll(MaskSymbols(t), "..."), " . . ")
  }

  /** `len(t.split(" "))`: runs of spaces are not collapsed. */
  function WordCount(t: string): (n: nat)
    ensures n == Occurrences(t, ' ') + 1
  {
    |Split(t, ' ')|
  }

  /** Total word count of a run of cleaned lines. */
  function WordSum(lines: seq<string>): nat
    decreases |lines|
  {
    if lines == [] then 0 else WordSum(lines[..|lines| - 1]) + WordCount(lines[|lines| - 1])
  }

  /**
   * The state of the loop in terms of lines: `closed` are the groups
   * already flushed, `open` the lines in the buffer, `count` the counter.
   */
  datatype Grouping = Grouping(closed: seq<seq<string>>, open: seq<string>, count: int)

  /** One iteration of the loop body for one raw line. */
  function Step(g: Grouping, line: string, maxWords: int, minLetters: int): Grouping {
    if |line| > minLetters then
      var c := Clean(line);
      var n := g.count + WordCount(c);
      if n <= maxWords then Grouping(g.closed, g.open + [c], n)
      else Grouping(g.closed + [g.open], [c], 0)
    else g
  }

  /** The loop run over `lines` from the initial state. */
  function Group(lines: seq<string>, maxWords: int, minLetters: int): Grouping
    decreases |lines|
  {
    if lines == [] then Grouping([], [], 0)
    else Step(Group(lines[..|lines| - 1], maxWords, minLetters), lines[|lines| - 1], maxWords, minLetters)
  }

  /** The buffer text of a group: each line followed by one space. */
  function Render(group: seq<string>): string
    decreases |group|
  {
    if group == [] then "" else Render(group[..|group| - 1]) + group[|group| - 1] + " "
  }

  /** The chunk a group becomes when it is flushed. */
  function ChunkText(group: seq<string>): string {
    Strip(Render(group))
  }

  function ChunkTexts(groups: seq<seq<string>>): seq<string>
    decreases |groups|
  {
    if groups == [] then [] else ChunkTexts(groups[..|groups| - 1]) + [ChunkText(groups[|groups| - 1])]
  }

  /** `text_list` after the loop and the final flush of a buffer longer than one character. */
  function Flushed(text: string, maxWords: int, minLetters: int): seq<string> {
    var g := Group(Split(text, '\n'), maxWords, minLetters);
    ChunkTexts(g.closed) + (if |Render(g.open)| > 1 then [ChunkText(g.open)] else [])
  }

  /** The list comprehension that drops empty strings, keeping order. */
  function KeepNonEmpty(ts: seq<string>): (r: seq<string>)
    ensures |r| <= |ts|
    ensures forall t :: t in r <==> t in ts && t != []
    decreases |ts|
  {
    if ts == [] then []
    else
      var rest := KeepNonEmpty(ts[..|ts| - 1]);
      assert ts == ts[..|ts| - 1] + [ts[|ts| - 1]];
      if ts[|ts| - 1] == [] then rest else rest + [ts[|ts| - 1]]
  }

  /** What `split_to_chunks(text, maxWords, minLetters)` returns. */
  function Chunks(text: string, maxWords: int, minLetters: int): seq<string> {
    KeepNonEmpty(Flushed(text, maxWords, minLetters))
  }

  lemma GroupNext(lines: seq<string>, i: nat, maxWords: int, minLetters: int)
    requires i < |lines|
    ensures Group(lines[..i + 1], maxWords, minLetters)
         == Step(Group(lines[..i], maxWords, minLetters), lines[i], maxWords, minLetters)
  {
    assert lines[..i + 1][..i] == lines[..i];
  }

  lemma ChunkTextsSnoc(groups: seq<seq<string>>, group: seq<string>)
    ensures ChunkTexts(groups + [group]) == ChunkTexts(groups) + [ChunkText(group)]
  {
    var gs := groups + [group];
    assert gs[..|gs| - 1] == groups;
    assert gs[|gs| - 1] == group;
  }

  lemma RenderSnoc(group: seq<string>, line: string)
    ensures Render(group + [line]) == Render(group) + line + " "
  {
    var g := group + [line];
    assert g[..|g| - 1] == group;
    assert g[|g| - 1] == line;
  }

  lemma RenderSingle(line: string)
    ensures Render([line]) == line + " "
  {
    assert [line][..0] == [];
  }

  /** The source's loop, statement for statement. */
  method SplitToChunks(text: string, maxWords: int, minLetters: int) returns (chunks: seq<string>)
    ensures chunks == Chunks(text, maxWords, minLetters)
  {
    var lines := Split(text, '\n');
    var textList: seq<string> := [];
    var thisText := "";
    var thisTextLength := 0;
    ghost var g := Grouping([], [], 0);
    for i := 0 to |lines|
      invariant g == Group(lines[..i], maxWords, minLetters)
      invariant textList == ChunkTexts(g.closed)
      invariant thisText == Render(g.open)
      invariant thisTextLength == g.count
      invariant thisTextLength == 0 || 0 < thisTextLength <= maxWords
    {
      GroupNext(lines, i, maxWords, minLetters);
      var t := lines[i];
      if |t| > minLetters {
        var tClean := MaskSymbols(t);
        tClean := DeleteAll(DeleteAll(tClean, "..."), " . . ");
        assert tClean == Clean(t);
        assert |Split(tClean, ' ')| == WordCount(tClean);
        thisTextLength := thisTextLength + |Split(tClean, ' ')|;
        if thisTextLength <= maxWords {
          RenderSnoc(g.open, tClean);
          thisText := thisText + tClean + " ";
        } else {
          ChunkTextsSnoc(g.closed, g.open);
          RenderSingle(tClean);
          textList := textList + [Strip(thisText)];
          thisText := tClean + " ";
          thisTextLength := 0;
        }
      }
      g := Step(g, t, maxWords, minLetters);
    }
    assert lines[..|lines|] == lines;
    if |thisText| > 1 {
      textList := textList + [Strip(thisText)];
    }
    assert textList == Flushed(text, maxWords, minLetters);
    chunks := KeepNonEmpty(textList);
  }

  // ---------------------------------------------------------------------
  // Properties of the grouping

  /** The cleaned text of every line longer than `minLetters`, in order. */
  function RetainedClean(lines: seq<string>, minLetters: int): seq<string>
    decreases |lines|
  {
    if lines == [] then []
    else
      var prefix := RetainedClean(lines[..|lines| - 1], minLetters);
      var last := lines[|lines| - 1];
      if |last| > minLetters then prefix + [Clean(last)] else prefix
  }

  function Flatten(groups: seq<seq<string>>): seq<string>
    decreases |groups|
  {
    if groups == [] then [] else Flatten(groups[..|groups| - 1]) + groups[|groups| - 1]
  }

  lemma FlattenSnoc(groups: seq<seq<string>>, group: seq<string>)
    ensures Flatten(groups + [group]) == Flatten(groups) + group
  {
    var gs := groups + [group];
    assert gs[..|gs| - 1] == groups;
    assert gs[|gs| - 1] == group;
  }

  /**
   * Every retained line lands in exactly one group, in order: the groups
   * followed by the buffer are a partition of the retained cleaned lines
   * into consecutive runs. No text of a line of length at most
   * `minLetters` is in any group.
   */
  lemma {:induction false} GroupPartition(lines: seq<string>, maxWords: int, minLetters: int)
    ensures var g := Group(lines, maxWords, minLetters);
      Flatten(g.closed) + g.open == RetainedClean(lines, minLetters)
    decreases |lines|
  {
    if lines != [] {
      var prefix := lines[..|lines| - 1];
      var line := lines[|lines| - 1];
      GroupPartition(prefix, maxWords, minLetters);
      var g := Group(prefix, maxWords, minLetters);
      if |line| > minLetters && g.count + WordCount(Clean(line)) > maxWords {
        FlattenSnoc(g.closed, g.open);
      }
    }
  }

  /**
   * The words the counter accounts for in a group: all of them in the first
   * group, all but the opening line's in a group opened by an overflow
   * (the counter restarts at 0, not at that line's count).
   */
  function Counted(group: seq<string>, first: bool): nat {
    if first || group == [] then WordSum(group) else WordSum(group[1..])
  }

  /** The group that follows closed group `k`. */
  function After(g: Grouping, k: nat): seq<string>
    requires k < |g.closed|
  {
    if k + 1 < |g.closed| then g.closed[k + 1] else g.open
  }

  /**
   * The invariant of the chunking loop: the counter is what the open
   * group accounts for and lies in `[0, maxWords]` (or is 0); every closed
   * group stayed within `maxWords` and was closed because the first line
   * of the next group would have overflowed it.
   */
  ghost predicate WellGrouped(g: Grouping, maxWords: int) {
    (g.closed != [] ==> g.open != []) &&
    g.count == Counted(g.open, g.closed == []) &&
    (g.count == 0 || 0 < g.count <= maxWords) &&
    (forall k :: 0 <= k < |g.closed| ==>
       Counted(g.closed[k], k == 0) == 0 || Counted(g.closed[k], k == 0) <= maxWords) &&
    (forall k :: 0 <= k < |g.closed| ==>
       After(g, k) != [] && Counted(g.closed[k], k == 0) + WordCount(After(g, k)[0]) > maxWords)
  }

  lemma WordSumSnoc(lines: seq<string>, line: string)
    ensures WordSum(lines + [line]) == WordSum(lines) + WordCount(line)
  {
    var ls := lines + [line];
    assert ls[..|ls| - 1] == lines;
    assert ls[|ls| - 1] == line;
  }

  lemma CountedSnoc(group: seq<string>, first: bool, line: string)
    requires first || group != []
    ensures Counted(group + [line], first) == Counted(group, first) + WordCount(line)
  {
    WordSumSnoc(group, line);
    if !first {
      assert (group + [line])[1..] == group[1..] + [line];
      WordSumSnoc(group[1..], line);
    }
  }

  /** Appending a line that fits keeps the invariant. */
  lemma AppendKeepsWellGrouped(g: Grouping, c: string, maxWords: int)
    requires WellGrouped(g, maxWords) && g.count + WordCount(c) <= maxWords
    ensures WellGrouped(Grouping(g.closed, g.open + [c], g.count + WordCount(c)), maxWords)
  {
    var g' := Grouping(g.closed, g.open + [c], g.count + WordCount(c));
    CountedSnoc(g.open, g.closed == [], c);
    forall k | 0 <= k < |g'.closed|
      ensures After(g', k) != [] && After(g', k)[0] == After(g, k)[0]
    {
      if k + 1 == |g.closed| {
        assert After(g', k) == g.open + [c];
      }
    }
  }

  /** Flushing the buffer before a line that overflows it keeps the invariant. */
  lemma FlushKeepsWellGrouped(g: Grouping, c: string, maxWords: int)
    requires WellGrouped(g, maxWords) && g.count + WordCount(c) > maxWords
    ensures WellGrouped(Grouping(g.closed + [g.open], [c], 0), maxWords)
  {
    var g' := Grouping(g.closed + [g.open], [c], 0);
    assert Counted([c], false) == 0 by {
      assert [c][1..] == [];
    }
    forall k | 0 <= k < |g'.closed|
      ensures Counted(g'.closed[k], k == 0) == 0 || Counted(g'.closed[k], k == 0) <= maxWords
      ensures After(g', k) != [] && Counted(g'.closed[k], k == 0) + WordCount(After(g', k)[0]) > maxWords
    {
      if k < |g.closed| {
        assert g'.closed[k] == g.closed[k];
        assert After(g', k) == After(g, k);
      } else {
        assert g'.closed[k] == g.open && After(g', k) == [c];
      }
    }
  }

  /** One loop iteration keeps the invariant. */
  lemma StepKeepsWellGrouped(g: Grouping, line: string, maxWords: int, minLetters: int)
    requires WellGrouped(g, maxWords)
    ensures WellGrouped(Step(g, line, maxWords, minLetters), maxWords)
  {
    if |line| > minLetters {
      var c := Clean(line);
      if g.count + WordCount(c) <= maxWords {
        AppendKeepsWellGrouped(g, c, maxWords);
      } else {
        FlushKeepsWellGrouped(g, c, maxWords);
      }
    }
  }

  /** The invariant holds after every prefix of the lines. */
  lemma {:induction false} GroupWellGrouped(lines: seq<string>, maxWords: int, minLetters: int)
    ensures WellGrouped(Group(lines, maxWords, minLetters), maxWords)
    decreases |lines|
  {
    if lines == [] {
      assert Counted([], true) == 0;
    } else {
      GroupWellGrouped(lines[..|lines| - 1], maxWords, minLetters);
      StepKeepsWellGrouped(Group(lines[..|lines| - 1], maxWords, minLetters), lines[|lines| - 1], maxWords, minLetters);
    }
  }

  // ---------------------------------------------------------------------
  // Properties of the chunks

  /** A chunk: non-empty, no leading or trailing whitespace, only kept characters and spaces. */
  predicate IsChunk(c: string) {
    c != [] && !IsWhitespace(c[0]) && !IsWhitespace(c[|c| - 1]) && IsCleanText(c)
  }

  predicate AllClean(lines: seq<string>) {
    forall k :: 0 <= k < |lines| ==> IsCleanText(lines[k])
  }

  lemma {:induction false} RenderClean(group: seq<string>)
    requires AllClean(group)
    ensures IsCleanText(Render(group))
    decreases |group|
  {
    if group != [] {
      RenderClean(group[..|group| - 1]);
    }
  }

  lemma {:induction false} RetainedCleanIsClean(lines: seq<string>, minLetters: int)
    ensures AllClean(RetainedClean(lines, minLetters))
    decreases |lines|
  {
    if lines != [] {
      RetainedCleanIsClean(lines[..|lines| - 1], minLetters);
    }
  }

  /** Both halves of a clean concatenation are clean. */
  lemma AllCleanConcat(a: seq<string>, b: seq<string>)
    requires AllClean(a + b)
    ensures AllClean(a) && AllClean(b)
  {
    forall k | 0 <= k < |a| ensures IsCleanText(a[k]) {
      assert a[k] == (a + b)[k];
    }
    forall k | 0 <= k < |b| ensures IsCleanText(b[k]) {
      assert b[k] == (a + b)[|a| + k];
    }
  }

  /** Every group of a clean flattening is clean. */
  lemma {:induction false} FlattenClean(groups: seq<seq<string>>)
    requires AllClean(Flatten(groups))
    ensures forall k :: 0 <= k < |groups| ==> AllClean(groups[k])
    decreases |groups|
  {
    if groups != [] {
      var init := groups[..|groups| - 1];
      AllCleanConcat(Flatten(init), groups[|groups| - 1]);
      FlattenClean(init);
      assert forall k :: 0 <= k < |init| ==> groups[k] == init[k];
    }
  }

  /** Every line held by a group is cleaned text. */
  lemma GroupLinesClean(lines: seq<string>, maxWords: int, minLetters: int)
    ensures var g := Group(lines, maxWords, minLetters);
      AllClean(g.open) && forall k :: 0 <= k < |g.closed| ==> AllClean(g.closed[k])
  {
    var g := Group(lines, maxWords, minLetters);
    GroupPartition(lines, maxWords, minLetters);
    RetainedCleanIsClean(lines, minLetters);
    AllCleanConcat(Flatten(g.closed), g.open);
    FlattenClean(g.closed);
  }

  lemma {:induction false} ChunkTextsClean(groups: seq<seq<string>>)
    requires forall k :: 0 <= k < |groups| ==> AllClean(groups[k])
    ensures forall c :: c in ChunkTexts(groups) ==> c == [] || IsChunk(c)
    decreases |groups|
  {
    if groups != [] {
      var init := groups[..|groups| - 1];
      ChunkTextsClean(init);
      ChunkTextClean(groups[|groups| - 1]);
      assert ChunkTexts(groups) == ChunkTexts(init) + [ChunkText(groups[|groups| - 1])];
    }
  }

  /** A flushed group of cleaned lines is either empty or a well-formed chunk. */
  lemma ChunkTextClean(group: seq<string>)
    requires AllClean(group)
    ensures ChunkText(group) == [] || IsChunk(ChunkText(group))
  {
    RenderClean(group);
    var r := Render(group);
    var t := Strip(r);
    forall c | c in t ensures IsKept(c) || c == ' ' {
      assert c in r;
    }
  }

  /**
   * Every chunk is non-empty, has no leading or trailing whitespace and
   * holds only characters of `[0-9a-zA-Z.&!,()+']` and spaces.
   */
  lemma ChunksWellFormed(text: string, maxWords: int, minLetters: int)
    ensures forall c :: c in Chunks(text, maxWords, minLetters) ==> IsChunk(c)
  {
    var g := Group(Split(text, '\n'), maxWords, minLetters);
    GroupLinesClean(Split(text, '\n'), maxWords, minLetters);
    ChunkTextsClean(g.closed);
    ChunkTextsClean([g.open]);
    assert ChunkTexts([g.open]) == [ChunkText(g.open)] by {
      assert [g.open][..0] == [];
    }
  }

  /** With no line longer than `minLetters` the loop never leaves its initial state. */
  lemma {:induction false} GroupOfShortLines(lines: seq<string>, maxWords: int, minLetters: int)
    requires forall k :: 0 <= k < |lines| ==> |lines[k]| <= minLetters
    ensures Group(lines, maxWords, minLetters) == Grouping([], [], 0)
    decreases |lines|
  {
    if lines != [] {
      GroupOfShortLines(lines[..|lines| - 1], maxWords, minLetters);
    }
  }

  /** Text made only of lines of length at most `minLetters` yields no chunk. */
  lemma ShortLinesYieldNoChunks(text: string, maxWords: int, minLetters: int)
    requires forall k :: 0 <= k < |Split(text, '\n')| ==> |Split(text, '\n')[k]| <= minLetters
    ensures Chunks(text, maxWords, minLetters) == []
  {
    GroupOfShortLines(Split(text, '\n'), maxWords, minLetters);
  }

  /** In particular a text no longer than `minLetters`, such as "a\nb\nc" with the defaults. */
  lemma ShortTextYieldsNoChunks(text: string, maxWords: int, minLetters: int)
    requires |text| <= minLetters
    ensures Chunks(text, maxWords, minLetters) == []
  {
    ShortLinesYieldNoChunks(text, maxWords, minLetters);
  }

  lemma KeepNonEmptyDropsBlank(ts: seq<string>)
    ensures KeepNonEmpty(ts + [""]) == KeepNonEmpty(ts)
  {
    var xs := ts + [""];
    assert xs[..|xs| - 1] == ts;
  }

  /** The filter keeps or drops one text on its own. */
  lemma KeepNonEmptySingle(t: string)
    ensures KeepNonEmpty([t]) == if t == [] then [] else [t]
  {
    assert [t][..0] == [];
  }

  /**
   * The filter works text by text: filtering a concatenation is filtering
   * each part, so the kept texts stay in their order and keep their
   * repetitions.
   */
  lemma {:induction false} KeepNonEmptyAppend(a: seq<string>, b: seq<string>)
    ensures KeepNonEmpty(a + b) == KeepNonEmpty(a) + KeepNonEmpty(b)
    decreases |b|
  {
    if b == [] {
      assert a + b == a;
    } else {
      var init := b[..|b| - 1];
      var t := b[|b| - 1];
      KeepNonEmptyAppend(a, init);
      assert (a + b)[..|a + b| - 1] == a + init;
      assert KeepNonEmpty(a + b) == KeepNonEmpty(a + init) + (if t == [] then [] else [t]);
    }
  }

  /** Texts that are all non-empty pass the filter unchanged. */
  lemma {:induction false} KeepNonEmptyKeepsAll(ts: seq<string>)
    requires forall k :: 0 <= k < |ts| ==> ts[k] != []
    ensures KeepNonEmpty(ts) == ts
    decreases |ts|
  {
    if ts != [] {
      KeepNonEmptyKeepsAll(ts[..|ts| - 1]);
    }
  }

  /** A buffer of at most one character is empty or a single space. */
  lemma ShortRenderIsBlank(group: seq<string>)
    requires |Render(group)| <= 1
    ensures ChunkText(group) == []
  {
    var r := Render(group);
    if group != [] {
      var init := group[..|group| - 1];
      var last := group[|group| - 1];
      assert r == Render(init) + last + " ";
      assert r[|r| - 1] == ' ';
      assert forall k :: 0 <= k < |r| ==> IsWhitespace(r[k]);
    }
  }

  /**
   * The test `len(this_text) > 1` before the last flush only skips a buffer
   * that would strip to nothing: the chunks are exactly the non-blank
   * stripped texts of all groups, the open one included.
   */
  lemma ChunksOfAllGroups(text: string, maxWords: int, minLetters: int)
    ensures var g := Group(Split(text, '\n'), maxWords, minLetters);
      Chunks(text, maxWords, minLetters) == KeepNonEmpty(ChunkTexts(g.closed + [g.open]))
  {
    var g := Group(Split(text, '\n'), maxWords, minLetters);
    var all := ChunkTexts(g.closed + [g.open]);
    ChunkTextsSnoc(g.closed, g.open);
    assert Flushed(text, maxWords, minLetters)
        == ChunkTexts(g.closed) + (if |Render(g.open)| > 1 then [ChunkText(g.open)] else []);
    if |Render(g.open)| <= 1 {
      ShortRenderIsBlank(g.open);
      assert all == ChunkTexts(g.closed) + [""];
      KeepNonEmptyDropsBlank(ChunkTexts(g.closed));
      assert Flushed(text, maxWords, minLetters) == ChunkTexts(g.closed);
    } else {
      assert Flushed(text, maxWords, minLetters) == all;
    }
  }

  /**
   * The chunks come out in the order of the groups: those of the flushed
   * groups first, in order, then the last buffer's if it is not blank.
   */
  lemma ChunksFollowGroups(text: string, maxWords: int, minLetters: int)
    ensures var g := Group(Split(text, '\n'), maxWords, minLetters);
      var last := ChunkText(g.open);
      Chunks(text, maxWords, minLetters)
        == KeepNonEmpty(ChunkTexts(g.closed)) + (if last == [] then [] else [last])
  {
    var g := Group(Split(text, '\n'), maxWords, minLetters);
    ChunksOfAllGroups(text, maxWords, minLetters);
    ChunkTextsSnoc(g.closed, g.open);
    KeepNonEmptyAppend(ChunkTexts(g.closed), [ChunkText(g.open)]);
    KeepNonEmptySingle(ChunkText(g.open));
  }

  /**
   * The bound of `ChunkWordBound` holds for the first group, not for the
   * first chunk: a first line that alone overflows the limit flushes the
   * still empty buffer, which the final filter drops (its text is empty),
   * and opens a group of its own. With a limit of 0 words, a two-letter
   * line such as "ab" is grouped after one empty group, and its group has
   * 1 word.
   */
  lemma FirstLineCanOverflow(t: string)
    requires |t| == 2 && 'a' <= t[0] <= 'z' && 'a' <= t[1] <= 'z'
    ensures var g := Group([t], 0, 0);
      g.closed == [[]] && g.open == [t] && WordSum(g.open) == 1 > 0
    ensures ChunkTexts([[]]) == [""]
  {
    PlainLine(t);
    assert [t][..0] == [];
    assert Group([], 0, 0) == Grouping([], [], 0);
    EmptyGroupText();
  }

  /** An empty buffer is flushed as the empty text. */
  lemma EmptyGroupText()
    ensures ChunkTexts([[]]) == [""]
  {
    var blank: seq<seq<string>> := [[]];
    assert blank[..0] == [];
    assert Render([]) == "";
    StripFacts("");
  }

  /** A two-letter line is its own cleaned text and one word. */
  lemma PlainLine(t: string)
    requires |t| == 2 && 'a' <= t[0] <= 'z' && 'a' <= t[1] <= 'z'
    ensures Clean(t) == t && WordCount(t) == 1
  {
    assert MaskSymbols(t) == t;
    assert Occurrences(t[1..], ' ') == Occurrences(t[2..], ' ');
  }

  /**
   * The counter restarts at 0, not at the word count of the line that
   * opens the new chunk, so a chunk can hold more than `maxWords` words:
   * with a limit of one word, the lines "ab", "cd", "ef" are grouped as
   * ["ab"] and ["cd", "ef"], and the second chunk has two words.
   */
  lemma CounterResetLetsChunkOverflow()
    ensures var g := Group(["ab", "cd", "ef"], 1, 0);
      g.closed == [["ab"]] && g.open == ["cd", "ef"] && WordSum(g.open) == 2 > 1
  {
    var lines := ["ab", "cd", "ef"];
    PlainLine("ab");
    PlainLine("cd");
    PlainLine("ef");
    assert lines[..1] == ["ab"] && lines[..2] == ["ab", "cd"];
    assert [lines[0]][..0] == [];
    assert Group(["ab"], 1, 0) == Grouping([], ["ab"], 1);
    assert Group(["ab", "cd"], 1, 0) == Grouping([["ab"]], ["cd"], 0);
    assert Group(lines, 1, 0) == Grouping([["ab"]], ["cd", "ef"], 1);
    assert ["cd", "ef"][..1] == ["cd"];
  }

  lemma {:induction false} WordSumFirst(group: seq<string>)
    requires group != []
    ensures WordSum(group) == WordCount(group[0]) + WordSum(group[1..])
    decreases |group|
  {
    if |group| == 1 {
      assert group[1..] == [] && group[..0] == [];
    } else {
      var init := group[..|group| - 1];
      WordSumFirst(init);
      var rest := group[1..];
      assert rest[..|rest| - 1] == init[1..];
      assert rest[|rest| - 1] == group[|group| - 1];
    }
  }

  /**
   * The word bound the loop keeps: a chunk exceeds `maxWords` words by at
   * most the words of its first line, and the first chunk not at all.
   */
  lemma ChunkWordBound(lines: seq<string>, maxWords: int, minLetters: int)
    requires maxWords >= 0
    ensures var g := Group(lines, maxWords, minLetters);
      (forall k :: 0 <= k < |g.closed| && g.closed[k] != [] ==>
        WordSum(g.closed[k]) <= maxWords + (if k == 0 then 0 else WordCount(g.closed[k][0]))) &&
      (g.open != [] ==> WordSum(g.open) <= maxWords + (if g.closed == [] then 0 else WordCount(g.open[0])))
  {
    var g := Group(lines, maxWords, minLetters);
    GroupWellGrouped(lines, maxWords, minLetters);
    forall k | 0 <= k < |g.closed| && g.closed[k] != []
      ensures WordSum(g.closed[k]) <= maxWords + (if k == 0 then 0 else WordCount(g.closed[k][0]))
    {
      WordSumFirst(g.closed[k]);
    }
    if g.open != [] {
      WordSumFirst(g.open);
    }
  }
}
