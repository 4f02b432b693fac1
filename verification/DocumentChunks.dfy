/**
 Packing a document into chunks that end at headings, or at blank lines once they are long enough, but never
 inside a fenced code block (section 4.5 of CommonMark 0.31.2).
 */
module DocumentChunking {
  import opened Options
  import opened Masking
  import opened Chunking

  // ----- fences -----

  datatype Fence = Closed | Opened(mark: char, length: nat)

  /** A run of at least three backticks or tildes, indented by at most three characters. */
  datatype Mark = Mark(mark: char, length: nat, end: nat)

  const MAX_INDENT := 3
  const MIN_MARK := 3

  function RunLength(line: Text, i: nat, c: char): (n: nat)
    requires i <= |line|
    ensures i + n <= |line|
    decreases |line| - i
  {
    if i == |line| || line[i] != c then 0 else 1 + RunLength(line, i + 1, c)
  }

  function MarkOf(line: Text): (mark: Option<Mark>)
    ensures mark.Some? ==> mark.value.end <= |line|
  {
    var indent := SpaceCount(line, 0);
    if indent > MAX_INDENT || indent == |line| || line[indent] !in {'`', '~'} then None
    else
      var n := RunLength(line, indent, line[indent]);
      if n >= MIN_MARK then Some(Mark(line[indent], n, indent + n)) else None
  }

  /** A fence is closed by a mark of its own kind, at least as long, with nothing after it. */
  function FenceAfter(fence: Fence, line: Text): Fence {
    match MarkOf(line)
    case None => fence
    case Some(m) =>
      if fence.Closed? then Opened(m.mark, m.length)
      else if m.mark == fence.mark && m.length >= fence.length && Strips(line[m.end..]) then Closed
      else fence
  }

  /** In characters: at most three blanks, then at least three backticks or tildes, and no more of them after `n`. */
  predicate FenceShape(line: Text, indent: nat, c: char, n: nat) {
    && indent <= 3 && 3 <= n && indent + n <= |line| && (c == '`' || c == '~')
    && (forall k :: 0 <= k < indent ==> line[k] in {' ', '\t', '\n', '\r'})
    && (forall k :: indent <= k < indent + n ==> line[k] == c)
    && (indent + n < |line| ==> line[indent + n] != c)
  }

  lemma {:induction false} RunsAreCounted(line: Text, i: nat, c: char, n: nat)
    requires i + n <= |line| && (i + n < |line| ==> line[i + n] != c)
    requires forall k :: i <= k < i + n ==> line[k] == c
    ensures RunLength(line, i, c) == n
    decreases n
  {
    if n > 0 {
      RunsAreCounted(line, i + 1, c, n - 1);
    }
  }

  lemma {:induction false} CountedAreRuns(line: Text, i: nat, c: char)
    requires i <= |line|
    ensures var n := RunLength(line, i, c);
            && (forall k :: i <= k < i + n ==> line[k] == c) && (i + n < |line| ==> line[i + n] != c)
    decreases |line| - i
  {
    if i < |line| && line[i] == c {
      CountedAreRuns(line, i + 1, c);
    }
  }

  lemma MarksExactly(line: Text, indent: nat, c: char, n: nat)
    ensures FenceShape(line, indent, c, n) ==> MarkOf(line) == Some(Mark(c, n, indent + n))
    ensures MarkOf(line).Some? ==>
              var m := MarkOf(line).value;
              m.length <= m.end && FenceShape(line, m.end - m.length, m.mark, m.length)
  {
    if FenceShape(line, indent, c, n) {
      SpacesAreCounted(line, 0, indent);
      RunsAreCounted(line, indent, c, n);
    }
    CountedAreSpaces(line, 0);
    if SpaceCount(line, 0) < |line| {
      CountedAreRuns(line, SpaceCount(line, 0), line[SpaceCount(line, 0)]);
    }
    hide SpaceCount, RunLength;
  }

  /** Outside a fence, exactly such a line opens one, of its own kind and length. */
  lemma OpensExactly(line: Text, c: char, n: nat)
    ensures FenceAfter(Closed, line) == Opened(c, n) <==> exists indent: nat :: FenceShape(line, indent, c, n)
    ensures FenceAfter(Closed, line) == Closed <==> forall i: nat, d: char, k: nat :: !FenceShape(line, i, d, k)
  {
    forall indent: nat, d: char, k: nat
      ensures FenceShape(line, indent, d, k) ==> MarkOf(line) == Some(Mark(d, k, indent + k))
    {
      MarksExactly(line, indent, d, k);
    }
    MarksExactly(line, 0, c, n);
    hide MarkOf, FenceShape;
  }

  /** Such a line, with a mark of the kind of the open fence and at least as long, and nothing but blanks after it. */
  predicate ClosingShape(line: Text, indent: nat, c: char, length: nat, n: nat) {
    && FenceShape(line, indent, c, n) && n >= length
    && forall k :: indent + n <= k < |line| ==> line[k] in {' ', '\t', '\n', '\r'}
  }

  /** Inside a fence, exactly such a line closes it, and every other leaves it as it is. */
  lemma ClosesExactly(line: Text, c: char, length: nat)
    ensures FenceAfter(Opened(c, length), line) ==
            if exists indent: nat, n: nat :: ClosingShape(line, indent, c, length, n) then Closed
            else Opened(c, length)
  {
    forall indent: nat, n: nat
      ensures FenceShape(line, indent, c, n) ==> MarkOf(line) == Some(Mark(c, n, indent + n))
    {
      MarksExactly(line, indent, c, n);
    }
    MarksExactly(line, 0, c, 0);
    hide MarkOf, FenceShape;
    if MarkOf(line).Some? {
      var m := MarkOf(line).value;
      assert forall k :: 0 <= k < |line[m.end..]| ==> line[m.end..][k] == line[m.end + k];
      if FenceAfter(Opened(c, length), line) == Closed {
        assert forall k :: m.end <= k < |line| ==> line[k] == line[m.end..][k - m.end];
        assert ClosingShape(line, m.end - m.length, c, length, m.length);
      }
    }
  }

  /** The state of the fence before line `i`. */
  function FenceBefore(lines: seq<Text>, i: nat): Fence
    requires i <= |lines|
  {
    if i == 0 then Closed else FenceAfter(FenceBefore(lines, i - 1), lines[i - 1])
  }

  const MAX_HEADING := 6

  predicate IsHeading(line: Text) {
    var n := HashCount(line, 0);
    1 <= n <= MAX_HEADING && n < |line| && IsSpace(line[n])
  }

  /** One to six hashes and a blank. */
  predicate HeadingShape(line: Text, n: nat) {
    && 1 <= n <= 6 && n < |line| && (forall k :: 0 <= k < n ==> line[k] == '#')
    && line[n] in {' ', '\t', '\n', '\r'}
  }

  lemma HeadingsExactly(line: Text)
    ensures IsHeading(line) <==> exists n: nat :: HeadingShape(line, n)
  {
    var m := HashCount(line, 0);
    hide HashCount;
    assert IsHeading(line) <==> HeadingShape(line, m);
    forall n: nat | HeadingShape(line, n)
      ensures n == m
    {
    }
  }

  /** The size of a block is the length of its text. */
  lemma {:induction false} SizeIsLength(lines: seq<Text>, a: nat, b: nat)
    requires a <= b <= |lines|
    ensures Size(lines, a, b) == |Join(lines[a..b])|
  {
    if a == b {
      NothingToJoin();
    } else {
      SizeIsLength(lines, a, b - 1);
      JoinSplits(lines[a..b - 1], [lines[b - 1]]);
      assert lines[a..b - 1] + [lines[b - 1]] == lines[a..b];
      JoinStep(lines[b - 1], []);
      NothingToJoin();
    }
  }

  function Size(lines: seq<Text>, a: nat, b: nat): nat
    requires a <= b <= |lines|
  {
    if a == b then 0 else Size(lines, a, b - 1) + |lines[b - 1]|
  }

  // ----- where blocks begin -----

  /** A block that began at `start` ends before line `i`. */
  predicate CutsAt(lines: seq<Text>, targetChars: int, start: nat, i: nat)
    requires i < |lines|
  {
    && start < i
    && FenceBefore(lines, i) == Closed
    && (IsHeading(lines[i]) || (Size(lines, start, i) >= targetChars && Strips(lines[i])))
  }

  /** Each block goes on until the first line that cuts it off. */
  ghost predicate DocumentStarts(lines: seq<Text>, targetChars: int, starts: seq<nat>) {
    && Tiling(starts, |lines|)
    && (forall k :: 0 < k < |starts| ==> CutsAt(lines, targetChars, starts[k - 1], starts[k]))
    && (forall k, i :: 0 <= k < |starts| && starts[k] < i < EndOf(starts, k, |lines|) ==>
          !CutsAt(lines, targetChars, starts[k], i))
  }

  lemma {:induction false} BlocksPrefix(lines: seq<Text>, starts: seq<nat>, more: seq<nat>, k: nat)
    requires Tiling(starts, |lines|) && Tiling(starts + more, |lines|) && k < |starts|
    ensures Blocks(lines, starts + more, k) == Blocks(lines, starts, k)
  {
    hide Tiling;
    if k > 0 {
      BlocksPrefix(lines, starts, more, k - 1);
      EndsAreInside(starts, k - 1, |lines|);
    }
  }

  /** The cuts made so far are right, as far as line `i`. */
  ghost predicate CutSoFar(lines: seq<Text>, targetChars: int, starts: seq<nat>, i: nat)
    requires i <= |lines|
  {
    && Tiling(starts, |lines|)
    && starts[|starts| - 1] <= i && (i > 0 ==> starts[|starts| - 1] < i)
    && (forall k :: 0 < k < |starts| ==> CutsAt(lines, targetChars, starts[k - 1], starts[k]))
    && (forall k, j :: 0 <= k < |starts| && starts[k] < j < EndOf(starts, k, i) ==>
          !CutsAt(lines, targetChars, starts[k], j))
  }

  lemma CutSoFarGoesOn(lines: seq<Text>, targetChars: int, starts: seq<nat>, i: nat)
    requires i < |lines| && CutSoFar(lines, targetChars, starts, i)
    requires !CutsAt(lines, targetChars, starts[|starts| - 1], i)
    ensures CutSoFar(lines, targetChars, starts, i + 1)
  {
    hide CutsAt;
  }

  lemma CutSoFarCuts(lines: seq<Text>, targetChars: int, starts: seq<nat>, i: nat)
    requires i < |lines| && CutSoFar(lines, targetChars, starts, i)
    requires CutsAt(lines, targetChars, starts[|starts| - 1], i)
    ensures CutSoFar(lines, targetChars, starts + [i], i + 1)
  {
    assert starts[|starts| - 1] < i;
    hide CutsAt;
    var cut := starts + [i];
    forall k | 0 < k < |cut|
      ensures CutsAt(lines, targetChars, cut[k - 1], cut[k])
    {
    }
  }

  lemma CutAll(lines: seq<Text>, targetChars: int, starts: seq<nat>)
    requires CutSoFar(lines, targetChars, starts, |lines|)
    ensures DocumentStarts(lines, targetChars, starts)
  {
    hide CutsAt;
  }

  lemma BlocksGrow(lines: seq<Text>, starts: seq<nat>, i: nat)
    requires Tiling(starts, |lines|) && starts[|starts| - 1] <= i <= |lines| && Tiling(starts + [i], |lines|)
    ensures Blocks(lines, starts + [i], |starts|) ==
            Blocks(lines, starts, |starts| - 1) + [Block(lines, starts[|starts| - 1], i)]
  {
    var n := |starts|;
    assert n > 0;
    hide Tiling, Join, Blocks;
    var cut := starts + [i];
    assert cut[n - 1] == starts[n - 1] && EndOf(cut, n - 1, |lines|) == i;
    BlocksStep(lines, cut, n);
    BlocksPrefix(lines, starts, [i], n - 1);
  }

  lemma BlocksStep(lines: seq<Text>, starts: seq<nat>, k: nat)
    requires Tiling(starts, |lines|) && 0 < k <= |starts|
    ensures starts[k - 1] <= EndOf(starts, k - 1, |lines|) <= |lines|
    ensures Blocks(lines, starts, k) ==
            Blocks(lines, starts, k - 1) + [Block(lines, starts[k - 1], EndOf(starts, k - 1, |lines|))]
  {
    EndsAreInside(starts, k - 1, |lines|);
  }

  const TARGET_CHARS := 1800

  /** The chunks are those of the blocks so cut that are not blank. */
  ghost predicate ChunksDocument(text: Text, targetChars: int, chunks: seq<Chunk>) {
    exists starts :: DocumentStarts(Lines(text), targetChars, starts)
                     && chunks == Kept(Blocks(Lines(text), starts, |starts|))
  }

  /** Scans the lines once, keeping the current block's start and size and the open fence. */
  method DocumentChunks(text: Text, targetChars: int := TARGET_CHARS) returns (chunks: seq<Chunk>)
    ensures ChunksDocument(text, targetChars, chunks)
  {
    hide Lines, Kept, Join, Strips, IsHeading, FenceAfter, DocumentStarts, Blocks;
    var lines := Lines(text);
    chunks := [];
    ghost var starts: seq<nat> := [0];
    NothingKept(0);
    NoBlocksYet(lines);
    var start, size, fence := 0, 0, Closed;
    for i := 0 to |lines|
      invariant CutSoFar(lines, targetChars, starts, i)
      invariant start == starts[|starts| - 1] <= i
      invariant size == Size(lines, start, i) && fence == FenceBefore(lines, i)
      invariant chunks == Kept(Blocks(lines, starts, |starts| - 1))
    {
      hide CutSoFar, Tiling;
      CutSoFarTiles(lines, targetChars, starts, i);
      var line := lines[i];
      if i > start && fence == Closed && (IsHeading(line) || (size >= targetChars && Strips(line))) {
        var block := Block(lines, start, i);
        CutSoFarCuts(lines, targetChars, starts, i);
        CutSoFarTiles(lines, targetChars, starts + [i], i + 1);
        BlocksGrow(lines, starts, i);
        KeptAppend(Blocks(lines, starts, |starts| - 1), block);
        if !Strips(block.text) {
          chunks := chunks + [block];
        }
        starts := starts + [i];
        start, size := i, 0;
      } else {
        CutSoFarGoesOn(lines, targetChars, starts, i);
      }
      fence := FenceAfter(fence, line);
      size := size + |line|;
    }
    CutAll(lines, targetChars, starts);
    CutSoFarTiles(lines, targetChars, starts, |lines|);
    BlocksStep(lines, starts, |starts|);
    var block := Block(lines, start, |lines|);
    KeptAppend(Blocks(lines, starts, |starts| - 1), block);
    if !Strips(block.text) {
      chunks := chunks + [block];
    }
  }

  lemma NoBlocksYet(lines: seq<Text>)
    ensures Tiling([0], |lines|) && Blocks(lines, [0], 0) == []
  {
  }

  lemma CutSoFarTiles(lines: seq<Text>, targetChars: int, starts: seq<nat>, i: nat)
    requires i <= |lines| && CutSoFar(lines, targetChars, starts, i)
    ensures Tiling(starts, |lines|) && |starts| > 0
  {
  }

  // ----- fences stay whole -----

  /** No block begins inside an open fence. */
  lemma BlocksBeginOutsideFences(lines: seq<Text>, targetChars: int, starts: seq<nat>, k: nat)
    requires DocumentStarts(lines, targetChars, starts) && k < |starts|
    ensures FenceBefore(lines, starts[k]) == Closed
  {
    if k > 0 {
      assert CutsAt(lines, targetChars, starts[k - 1], starts[k]);
    }
  }

  /** A scan that starts afresh outside any fence sees what the whole scan sees. */
  lemma {:induction false} FencesRestart(lines: seq<Text>, a: nat, j: nat)
    requires a <= j <= |lines| && FenceBefore(lines, a) == Closed
    ensures FenceBefore(lines[a..], j - a) == FenceBefore(lines, j)
  {
    hide FenceAfter;
    if a < j {
      FencesRestart(lines, a, j - 1);
      assert lines[a..][j - 1 - a] == lines[j - 1];
    }
  }

  lemma {:induction false} FencesPrefix(lines: seq<Text>, n: nat, i: nat)
    requires i <= n <= |lines|
    ensures FenceBefore(lines[..n], i) == FenceBefore(lines, i)
  {
    hide FenceAfter;
    if i > 0 {
      FencesPrefix(lines, n, i - 1);
    }
  }

  /**
   Read on its own, each block has exactly the fences it has within the document, and none still open before its
   end.
   */
  lemma BlocksKeepTheirFences(lines: seq<Text>, targetChars: int, starts: seq<nat>, k: nat, j: nat)
    requires DocumentStarts(lines, targetChars, starts) && k < |starts|
    requires starts[k] <= j <= EndOf(starts, k, |lines|)
    ensures FenceBefore(lines[starts[k]..EndOf(starts, k, |lines|)], j - starts[k]) == FenceBefore(lines, j)
    ensures k + 1 < |starts| ==>
              FenceBefore(lines[starts[k]..EndOf(starts, k, |lines|)], EndOf(starts, k, |lines|) - starts[k]) == Closed
  {
    hide FenceAfter;
    var a, b := starts[k], EndOf(starts, k, |lines|);
    BlocksBeginOutsideFences(lines, targetChars, starts, k);
    FencesRestart(lines, a, j);
    FencesRestart(lines, a, b);
    assert lines[a..b] == lines[a..][..b - a];
    FencesPrefix(lines[a..], b - a, j - a);
    FencesPrefix(lines[a..], b - a, b - a);
    if k + 1 < |starts| {
      BlocksBeginOutsideFences(lines, targetChars, starts, k + 1);
    }
  }

  // ----- sections and sizes -----

  lemma {:induction false} BlockOf(starts: seq<nat>, n: nat, i: nat, k: nat) returns (at: nat)
    requires Tiling(starts, n) && i < n && k < |starts| && i < EndOf(starts, k, n)
    ensures at < |starts| && starts[at] <= i < EndOf(starts, at, n)
  {
    if starts[k] <= i {
      at := k;
    } else {
      at := BlockOf(starts, n, i, k - 1);
    }
  }

  /**
   Every heading outside a fence begins a block, and blocks begin nowhere but at headings and blank lines outside
   fences.
   */
  lemma HeadingsBeginBlocks(lines: seq<Text>, targetChars: int, starts: seq<nat>, i: nat)
    requires DocumentStarts(lines, targetChars, starts) && 0 < i < |lines|
    ensures FenceBefore(lines, i) == Closed && IsHeading(lines[i]) ==> i in starts
    ensures i in starts ==> FenceBefore(lines, i) == Closed && (IsHeading(lines[i]) || Strips(lines[i]))
  {
    hide IsHeading, Strips, FenceBefore;
    var k := BlockOf(starts, |lines|, i, |starts| - 1);
    if starts[k] < i {
      assert !CutsAt(lines, targetChars, starts[k], i);
    }
    if i in starts {
      var j :| 0 <= j < |starts| && starts[j] == i;
      assert CutsAt(lines, targetChars, starts[j - 1], starts[j]);
    }
  }

  /** Two ways of cutting that follow the rule are the same. */
  lemma {:induction false} StartsAreDetermined(lines: seq<Text>, targetChars: int, s: seq<nat>, t: seq<nat>, k: nat)
    requires DocumentStarts(lines, targetChars, s) && DocumentStarts(lines, targetChars, t)
    requires k < |s|
    ensures k < |t| && s[k] == t[k]
  {
    hide CutsAt;
    if k > 0 {
      StartsAreDetermined(lines, targetChars, s, t, k - 1);
      assert CutsAt(lines, targetChars, s[k - 1], s[k]);
      if k < |t| {
        assert CutsAt(lines, targetChars, t[k - 1], t[k]);
      }
    }
  }

  /** Chunks are in order and apart, hold every line that is not blank, and lose nothing but whitespace. */
  lemma DocumentChunksCoverLines(text: Text, targetChars: int, chunks: seq<Chunk>)
    requires ChunksDocument(text, targetChars, chunks)
    ensures InOrder(chunks, |Lines(text)|)
    ensures forall c :: c in chunks ==> Quotes(c, Lines(text)) && SaysSomething(c.text)
    ensures forall d :: 0 <= d < |Lines(text)| && !Strips(Lines(text)[d]) ==> InExactlyOne(chunks, d)
    ensures exists blocks :: chunks == Kept(blocks) && Texts(blocks) == text
  {
    var starts :| DocumentStarts(Lines(text), targetChars, starts)
                  && chunks == Kept(Blocks(Lines(text), starts, |starts|));
    ChunksQuote(Lines(text), starts);
    hide Lines, Kept, Blocks, Strips, InExactlyOne, InOrder, Texts, CutsAt, Quotes, SaysSomething;
    forall d | 0 <= d < |Lines(text)| && !Strips(Lines(text)[d])
      ensures InExactlyOne(chunks, d)
    {
      LinesLieInExactlyOne(Lines(text), starts, d);
    }
    KeptInOrder(Lines(text), starts, |starts|);
    ChunksConcatenate(text, starts);
  }

}
