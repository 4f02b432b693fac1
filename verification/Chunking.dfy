/** Cutting source files and documents into chunks of whole lines. Newline is the only line separator. */
module Chunking {
  import opened Options
  import opened Masking

  // ----- lines -----

  /** The lines of a text, each with its newline; the last may lack one. */
  function Lines(text: Text): (lines: seq<Text>)
    ensures text != [] ==> lines != []
  {
    if text == [] then []
    else
      var end := LineEnd(text, 0);
      if end == |text| then [text] else [text[..end + 1]] + Lines(text[end + 1..])
  }

  function Join(lines: seq<Text>): Text {
    if |lines| == 0 then [] else lines[0] + Join(lines[1..])
  }

  lemma {:induction false} JoiningRestores(text: Text)
    ensures Join(Lines(text)) == text
  {
    if text != [] {
      var end := LineEnd(text, 0);
      if end == |text| {
        assert Join([text][1..]) == [];
      } else {
        JoiningRestores(text[end + 1..]);
        assert text[..end + 1] + text[end + 1..] == text;
      }
    }
  }

  lemma JoinStep(line: Text, rest: seq<Text>)
    ensures Join([line] + rest) == line + Join(rest)
  {
    assert ([line] + rest)[1..] == rest;
  }

  lemma Regrouped<T>(a: seq<T>, b: seq<T>, c: seq<T>)
    ensures a + (b + c) == (a + b) + c
  {
  }

  lemma {:induction false} JoinSplits(a: seq<Text>, b: seq<Text>)
    ensures Join(a + b) == Join(a) + Join(b)
  {
    if |a| == 0 {
      assert a + b == b;
    } else {
      var line, rest := a[0], a[1..];
      assert a == [line] + rest;
      Regrouped([line], rest, b);
      JoinStep(line, rest);
      JoinStep(line, rest + b);
      JoinSplits(rest, b);
      Regrouped(line, Join(rest), Join(b));
    }
  }

  predicate IsSpace(c: char) {
    c in {' ', '\t', '\n', '\r'}
  }

  predicate Strips(text: Text) {
    forall k :: 0 <= k < |text| ==> IsSpace(text[k])
  }

  lemma {:induction false} JoinContains(lines: seq<Text>, i: nat)
    requires i < |lines| && !Strips(lines[i])
    ensures !Strips(Join(lines))
  {
    var rest := Join(lines[1..]);
    var joined := Join(lines);
    assert joined == lines[0] + rest;
    if i == 0 {
      var k :| 0 <= k < |lines[0]| && !IsSpace(lines[0][k]);
      assert joined[k] == lines[0][k];
    } else {
      JoinContains(lines[1..], i - 1);
      var k :| 0 <= k < |rest| && !IsSpace(rest[k]);
      assert joined[|lines[0]| + k] == rest[k];
    }
  }

  // ----- blocks of lines -----

  /** Lines `lineStart` to `lineEnd`, counted from one. */
  datatype Chunk = Chunk(lineStart: nat, lineEnd: nat, text: Text)

  function Block(lines: seq<Text>, a: nat, b: nat): Chunk
    requires a <= b <= |lines|
  {
    Chunk(a + 1, b, Join(lines[a..b]))
  }

  /** `starts` cuts `n` lines into blocks, none of them empty unless there is nothing to cut. */
  predicate Tiling(starts: seq<nat>, n: nat) {
    && |starts| > 0 && starts[0] == 0
    && (forall i, j :: 0 <= i < j < |starts| ==> starts[i] < starts[j])
    && (forall i :: 0 <= i < |starts| ==> starts[i] <= n && (i > 0 ==> starts[i] < n))
  }

  function EndOf(starts: seq<nat>, k: nat, n: nat): nat
    requires k < |starts|
  {
    if k + 1 < |starts| then starts[k + 1] else n
  }

  function Blocks(lines: seq<Text>, starts: seq<nat>, k: nat): seq<Chunk>
    requires Tiling(starts, |lines|) && k <= |starts|
  {
    if k == 0 then [] else Blocks(lines, starts, k - 1) + [Block(lines, starts[k - 1], EndOf(starts, k - 1, |lines|))]
  }

  function Texts(chunks: seq<Chunk>): Text {
    if |chunks| == 0 then [] else Texts(chunks[..|chunks| - 1]) + chunks[|chunks| - 1].text
  }

  /** Blocks of nothing but whitespace are dropped. */
  function Kept(blocks: seq<Chunk>): seq<Chunk> {
    if |blocks| == 0 then []
    else Kept(blocks[..|blocks| - 1]) + if Strips(blocks[|blocks| - 1].text) then [] else [blocks[|blocks| - 1]]
  }

  lemma TextsAppend(chunks: seq<Chunk>, c: Chunk)
    ensures Texts(chunks + [c]) == Texts(chunks) + c.text
  {
    assert (chunks + [c])[..|chunks|] == chunks;
  }

  lemma KeptAppend(chunks: seq<Chunk>, c: Chunk)
    ensures Kept(chunks + [c]) == Kept(chunks) + if Strips(c.text) then [] else [c]
  {
    assert (chunks + [c])[..|chunks|] == chunks;
  }

  /** Kept and dropped blocks together are the whole text, in order. */
  lemma {:induction false} BlocksConcatenate(lines: seq<Text>, starts: seq<nat>, k: nat)
    requires Tiling(starts, |lines|) && 0 < k <= |starts|
    ensures Texts(Blocks(lines, starts, k)) == Join(lines[..EndOf(starts, k - 1, |lines|)])
  {
    hide Join, Texts;
    var a, b := starts[k - 1], EndOf(starts, k - 1, |lines|);
    TextsAppend(Blocks(lines, starts, k - 1), Block(lines, a, b));
    JoinSplits(lines[..a], lines[a..b]);
    assert lines[..a] + lines[a..b] == lines[..b];
    if k == 1 {
      assert lines[..a] == [];
      NothingToJoin();
    } else {
      BlocksConcatenate(lines, starts, k - 1);
    }
  }

  lemma NothingToJoin()
    ensures Join([]) == [] && Texts([]) == []
  {
  }

  lemma ChunksConcatenate(text: Text, starts: seq<nat>)
    requires Tiling(starts, |Lines(text)|)
    ensures Texts(Blocks(Lines(text), starts, |starts|)) == text
  {
    hide Join, Texts, Lines, Blocks;
    var lines := Lines(text);
    BlocksConcatenate(lines, starts, |starts|);
    assert lines[..|lines|] == lines;
    JoiningRestores(text);
  }

  /** Chunks lie in order and apart, within the first `end` lines. */
  predicate InOrder(chunks: seq<Chunk>, end: nat) {
    && (forall i :: 0 <= i < |chunks| ==> chunks[i].lineStart <= chunks[i].lineEnd <= end)
    && (forall i, j :: 0 <= i < j < |chunks| ==> chunks[i].lineEnd < chunks[j].lineStart)
  }

  lemma InOrderAppend(chunks: seq<Chunk>, c: Chunk)
    requires 0 < c.lineStart <= c.lineEnd && InOrder(chunks, c.lineStart - 1)
    ensures InOrder(chunks + [c], c.lineEnd)
  {
  }

  lemma InOrderFurther(chunks: seq<Chunk>, end: nat, end': nat)
    requires InOrder(chunks, end) && end <= end'
    ensures InOrder(chunks, end')
  {
  }

  /** What is kept among the first blocks lies in order and apart. */
  lemma {:induction false} KeptInOrder(lines: seq<Text>, starts: seq<nat>, k: nat)
    requires Tiling(starts, |lines|) && 0 < k <= |starts|
    ensures InOrder(Kept(Blocks(lines, starts, k)), EndOf(starts, k - 1, |lines|))
  {
    hide Kept, InOrder, Join;
    var a, b := starts[k - 1], EndOf(starts, k - 1, |lines|);
    var before := Kept(Blocks(lines, starts, k - 1));
    KeptAppend(Blocks(lines, starts, k - 1), Block(lines, a, b));
    if k == 1 {
      NothingKept(a);
    } else {
      KeptInOrder(lines, starts, k - 1);
    }
    if Strips(Block(lines, a, b).text) {
      InOrderFurther(before, a, b);
      assert before + [] == before;
    } else {
      assert a < b by { if a == b { assert lines[a..b] == []; NothingToJoin(); } }
      InOrderAppend(before, Block(lines, a, b));
    }
  }

  lemma NothingKept(end: nat)
    ensures Kept([]) == [] && InOrder([], end)
  {
  }

  /** A line that is not all whitespace lies in a kept block. */
  lemma {:induction false} LineIsKept(lines: seq<Text>, starts: seq<nat>, k: nat, d: nat) returns (i: nat)
    requires Tiling(starts, |lines|) && 0 < k <= |starts|
    requires d < EndOf(starts, k - 1, |lines|) && !Strips(lines[d])
    ensures var kept := Kept(Blocks(lines, starts, k)); i < |kept| && Contains(kept[i], d)
  {
    hide Kept, Join, Strips;
    var a, b := starts[k - 1], EndOf(starts, k - 1, |lines|);
    KeptAppend(Blocks(lines, starts, k - 1), Block(lines, a, b));
    if d < a {
      i := LineIsKept(lines, starts, k - 1, d);
    } else {
      assert lines[a..b][d - a] == lines[d];
      JoinContains(lines[a..b], d - a);
      i := |Kept(Blocks(lines, starts, k - 1))|;
    }
  }

  predicate Contains(c: Chunk, d: nat) {
    c.lineStart <= d + 1 <= c.lineEnd
  }

  ghost predicate OnlyAt(chunks: seq<Chunk>, d: nat, i: int) {
    && 0 <= i < |chunks| && Contains(chunks[i], d)
    && forall j :: 0 <= j < |chunks| && Contains(chunks[j], d) ==> j == i
  }

  /** Line `d`, counted from zero, is in exactly one of these chunks. */
  ghost predicate InExactlyOne(chunks: seq<Chunk>, d: nat) {
    exists i :: OnlyAt(chunks, d, i)
  }

  lemma LinesLieInExactlyOne(lines: seq<Text>, starts: seq<nat>, d: nat)
    requires Tiling(starts, |lines|) && d < |lines| && !Strips(lines[d])
    ensures InExactlyOne(Kept(Blocks(lines, starts, |starts|)), d)
  {
    hide Kept, Blocks, Strips;
    KeptInOrder(lines, starts, |starts|);
    var i := LineIsKept(lines, starts, |starts|, d);
    OnlyOneContains(Kept(Blocks(lines, starts, |starts|)), |lines|, i, d);
  }

  lemma OnlyOneContains(chunks: seq<Chunk>, end: nat, i: nat, d: nat)
    requires InOrder(chunks, end) && i < |chunks| && Contains(chunks[i], d)
    ensures InExactlyOne(chunks, d)
  {
    forall j | 0 <= j < |chunks| && Contains(chunks[j], d)
      ensures j == i
    {
    }
    assert OnlyAt(chunks, d, i);
  }

  // ----- what is kept, in characters -----

  /** The text has a character other than blank, tab, newline and carriage return. */
  predicate SaysSomething(text: Text) {
    exists k :: 0 <= k < |text| && text[k] != ' ' && text[k] != '\t' && text[k] != '\n' && text[k] != '\r'
  }

  lemma StripsExactly(text: Text)
    ensures Strips(text) <==> !SaysSomething(text)
  {
  }

  /** A block is kept exactly if it says something. */
  lemma {:induction false} KeptExactly(blocks: seq<Chunk>, c: Chunk)
    ensures c in Kept(blocks) <==> c in blocks && SaysSomething(c.text)
  {
    if |blocks| > 0 {
      var n := |blocks| - 1;
      KeptExactly(blocks[..n], c);
      StripsExactly(blocks[n].text);
      assert blocks == blocks[..n] + [blocks[n]];
      hide SaysSomething, Strips;
    }
  }

  /** The chunk's text is that of its lines. */
  predicate Quotes(c: Chunk, lines: seq<Text>) {
    0 < c.lineStart <= c.lineEnd + 1 && c.lineEnd <= |lines| && c.text == Join(lines[c.lineStart - 1..c.lineEnd])
  }

  lemma {:induction false} BlocksQuote(lines: seq<Text>, starts: seq<nat>, k: nat)
    requires Tiling(starts, |lines|) && k <= |starts|
    ensures forall c :: c in Blocks(lines, starts, k) ==> Quotes(c, lines)
  {
    hide Join;
    if k > 0 {
      BlocksQuote(lines, starts, k - 1);
    }
  }

  /** Kept chunks quote their lines and say something. */
  lemma ChunksQuote(lines: seq<Text>, starts: seq<nat>)
    requires Tiling(starts, |lines|)
    ensures forall c :: c in Kept(Blocks(lines, starts, |starts|)) ==> Quotes(c, lines) && SaysSomething(c.text)
  {
    BlocksQuote(lines, starts, |starts|);
    hide Kept, Blocks, Quotes, SaysSomething, Tiling;
    forall c | c in Kept(Blocks(lines, starts, |starts|))
      ensures Quotes(c, lines) && SaysSomething(c.text)
    {
      KeptExactly(Blocks(lines, starts, |starts|), c);
    }
  }

  /** A line ends with its only newline, or is the last and has none. */
  predicate IsLine(line: Text, last: bool) {
    && line != []
    && (forall k :: 0 <= k < |line| - 1 ==> line[k] != '\n')
    && (line[|line| - 1] == '\n' || last)
  }

  lemma {:induction false} LinesAreLines(text: Text, i: nat)
    requires i < |Lines(text)|
    ensures IsLine(Lines(text)[i], i == |Lines(text)| - 1)
  {
    LinesCut(text);
    var end := LineEnd(text, 0);
    hide Lines, LineEnd;
    if end < |text| {
      var rest := Lines(text[end + 1..]);
      assert Lines(text) == [text[..end + 1]] + rest;
      if i > 0 {
        LinesAreLines(text[end + 1..], i - 1);
        assert Lines(text)[i] == rest[i - 1];
      }
    }
  }

  // ----- function declarations -----

  predicate IsWord(c: char) {
    'a' <= c <= 'z' || 'A' <= c <= 'Z' || '0' <= c <= '9' || c == '_'
  }

  function SpaceCount(line: Text, i: nat): (n: nat)
    requires i <= |line|
    ensures i + n <= |line|
    decreases |line| - i
  {
    if i == |line| || !IsSpace(line[i]) then 0 else 1 + SpaceCount(line, i + 1)
  }

  /** The word `fn`, whitespace, and the beginning of a name. */
  predicate FnAt(line: Text, j: nat) {
    && StartsWith(line, "fn", j)
    && (j > 0 ==> !IsWord(line[j - 1]))
    && var n := SpaceCount(line, j + 2);
       n > 0 && j + 2 + n < |line| && IsWord(line[j + 2 + n]) && !('0' <= line[j + 2 + n] <= '9')
  }

  predicate DeclaresFn(line: Text) {
    exists j :: 0 <= j < |line| && FnAt(line, j)
  }

  /** The lines from `i` on that declare a function. */
  function DeclLines(masked: seq<Text>, i: nat): (decls: seq<nat>)
    requires i <= |masked|
    ensures forall k :: 0 <= k < |decls| ==> i <= decls[k] < |masked| && DeclaresFn(masked[decls[k]])
    ensures forall j, k :: 0 <= j < k < |decls| ==> decls[j] < decls[k]
    ensures forall d :: i <= d < |masked| && DeclaresFn(masked[d]) ==> d in decls
    decreases |masked| - i
  {
    if i == |masked| then []
    else (if DeclaresFn(masked[i]) then [i] else []) + DeclLines(masked, i + 1)
  }

  predicate ValidDecls(lines: seq<Text>, decls: seq<nat>) {
    && (forall k :: 0 <= k < |decls| ==> decls[k] < |lines|)
    && (forall j, k :: 0 <= j < k < |decls| ==> decls[j] < decls[k])
  }

  function Decls(text: Text): seq<nat> {
    DeclLines(Lines(Mask(text)), 0)
  }

  /** `m` is `text` but for some blanks. */
  predicate BlankedOut(m: Text, text: Text) {
    && |m| == |text|
    && (forall k :: 0 <= k < |text| ==> (text[k] == '\n' <==> m[k] == '\n'))
    && (forall k :: 0 <= k < |text| ==> m[k] == text[k] || m[k] == ' ')
  }

  predicate LinesBlankedOut(ms: seq<Text>, lines: seq<Text>) {
    && |ms| == |lines|
    && forall i :: 0 <= i < |lines| ==> BlankedOut(ms[i], lines[i])
  }

  lemma PartsBlankedOut(m: Text, text: Text, end: nat)
    requires BlankedOut(m, text) && end <= |text|
    ensures BlankedOut(m[..end], text[..end]) && BlankedOut(m[end..], text[end..])
  {
  }

  lemma MoreLinesBlankedOut(m: Text, line: Text, ms: seq<Text>, lines: seq<Text>)
    requires BlankedOut(m, line) && LinesBlankedOut(ms, lines)
    ensures LinesBlankedOut([m] + ms, [line] + lines)
  {
    hide BlankedOut;
  }

  lemma LinesCut(text: Text)
    requires text != []
    ensures var end := LineEnd(text, 0);
            Lines(text) == if end == |text| then [text] else [text[..end + 1]] + Lines(text[end + 1..])
  {
    hide LineEnd;
    var end := LineEnd(text, 0);
    if end == |text| {
      assert Lines(text) == [text];
    } else {
      var rest := text[end + 1..];
      assert Lines(text) == [text[..end + 1]] + Lines(rest);
    }
  }

  /** Masking changes no newline, so it changes no line but inside. */
  lemma {:induction false} MaskedLines(m: Text, text: Text)
    requires BlankedOut(m, text)
    ensures LinesBlankedOut(Lines(m), Lines(text))
  {
    if text == [] {
      NoLines();
    } else {
      SameLineEnd(m, text, 0);
      SameLength(m, text);
      LinesCut(m);
      LinesCut(text);
      hide LineEnd, BlankedOut, LinesBlankedOut, Lines;
      var end := LineEnd(text, 0);
      if end < |text| {
        PartsBlankedOut(m, text, end + 1);
        MaskedLines(m[end + 1..], text[end + 1..]);
        MoreLinesBlankedOut(m[..end + 1], text[..end + 1], Lines(m[end + 1..]), Lines(text[end + 1..]));
      } else {
        NoLines();
        MoreLinesBlankedOut(m, text, [], []);
        assert [m] + [] == [m] && [text] + [] == [text];
      }
    }
  }

  lemma SameLength(m: Text, text: Text)
    requires BlankedOut(m, text)
    ensures |m| == |text|
  {
  }

  lemma NoLines()
    ensures LinesBlankedOut([], [])
  {
  }

  lemma {:induction false} SameLineEnd(m: Text, text: Text, i: nat)
    requires |m| == |text| && i <= |text|
    requires forall k :: 0 <= k < |text| ==> (text[k] == '\n' <==> m[k] == '\n')
    ensures LineEnd(m, i) == LineEnd(text, i)
    decreases |text| - i
  {
    if i < |text| {
      SameLineEnd(m, text, i + 1);
    }
  }

  lemma FnIsVisible(m: Text, line: Text)
    requires BlankedOut(m, line) && DeclaresFn(m)
    ensures !Strips(line)
  {
    hide SpaceCount;
    var j :| 0 <= j < |m| && FnAt(m, j);
    assert m[j] == m[j..j + 2][0] == 'f';
    assert line[j] == 'f';
  }

  lemma DeclLinesAreLines(text: Text)
    ensures |Lines(Mask(text))| == |Lines(text)|
    ensures ValidDecls(Lines(text), Decls(text))
    ensures forall k :: 0 <= k < |Decls(text)| ==> !Strips(Lines(text)[Decls(text)[k]])
  {
    var m := Mask(text);
    MaskingKeepsOffsets(text);
    MaskedLines(m, text);
    hide Lines, Mask;
    forall k | 0 <= k < |Decls(text)|
      ensures !Strips(Lines(text)[Decls(text)[k]])
    {
      var d := Decls(text)[k];
      assert BlankedOut(Lines(m)[d], Lines(text)[d]);
      FnIsVisible(Lines(m)[d], Lines(text)[d]);
    }
  }

  /** `fn`, not within a word, then `n` blanks and the first character of a name. */
  predicate FnShape(line: Text, j: nat, n: nat) {
    && 0 < n && j + 2 + n < |line| && line[j] == 'f' && line[j + 1] == 'n'
    && (j == 0 || !('a' <= line[j - 1] <= 'z' || 'A' <= line[j - 1] <= 'Z' || '0' <= line[j - 1] <= '9'
                    || line[j - 1] == '_'))
    && (forall k :: j + 2 <= k < j + 2 + n ==> line[k] in {' ', '\t', '\n', '\r'})
    && var c := line[j + 2 + n]; 'a' <= c <= 'z' || 'A' <= c <= 'Z' || c == '_'
  }

  lemma {:induction false} SpacesAreCounted(line: Text, i: nat, n: nat)
    requires i + n < |line| && line[i + n] !in {' ', '\t', '\n', '\r'}
    requires forall k :: i <= k < i + n ==> line[k] in {' ', '\t', '\n', '\r'}
    ensures SpaceCount(line, i) == n
    decreases n
  {
    if n > 0 {
      SpacesAreCounted(line, i + 1, n - 1);
    }
  }

  lemma {:induction false} CountedAreSpaces(line: Text, i: nat)
    requires i <= |line|
    ensures var n := SpaceCount(line, i);
            && (forall k :: i <= k < i + n ==> line[k] in {' ', '\t', '\n', '\r'})
            && (i + n < |line| ==> line[i + n] !in {' ', '\t', '\n', '\r'})
    decreases |line| - i
  {
    if i < |line| && IsSpace(line[i]) {
      CountedAreSpaces(line, i + 1);
    }
  }

  /** A line declares a function exactly if it has the word `fn` somewhere, blanks, and the beginning of a name. */
  lemma DeclaresFnExactly(line: Text)
    ensures DeclaresFn(line) <==> exists j: nat, n: nat :: FnShape(line, j, n)
  {
    if DeclaresFn(line) {
      var j: nat :| j < |line| && FnAt(line, j);
      CountedAreSpaces(line, j + 2);
      assert line[j] == line[j..j + 2][0] && line[j + 1] == line[j..j + 2][1];
      hide SpaceCount;
      assert FnShape(line, j, SpaceCount(line, j + 2));
    }
    if exists j: nat, n: nat :: FnShape(line, j, n) {
      var j: nat, n: nat :| FnShape(line, j, n);
      SpacesAreCounted(line, j + 2, n);
      assert line[j..j + 2] == "fn";
      hide SpaceCount;
      assert FnAt(line, j);
    }
  }

  // ----- regions of code -----

  function LStrip(line: Text): Text {
    line[SpaceCount(line, 0)..]
  }

  /** A doc comment or an attribute. */
  predicate IsMarker(line: Text) {
    StartsWith(LStrip(line), "///", 0) || StartsWith(LStrip(line), "//!", 0) || StartsWith(LStrip(line), "#[", 0)
  }

  /** After `n` blanks, three slashes, two and an exclamation mark, or a hash and a bracket. */
  predicate MarkerShape(line: Text, n: nat) {
    && (forall k :: 0 <= k < n && k < |line| ==> line[k] in {' ', '\t', '\n', '\r'})
    && (|| (n + 2 < |line| && line[n] == '/' && line[n + 1] == '/' && (line[n + 2] == '/' || line[n + 2] == '!'))
        || (n + 1 < |line| && line[n] == '#' && line[n + 1] == '['))
  }

  /** A line is a marker exactly if it begins like a doc comment or an attribute, however far indented. */
  lemma MarkersExactly(line: Text)
    ensures IsMarker(line) <==> exists n: nat :: MarkerShape(line, n)
  {
    var m := SpaceCount(line, 0);
    CountedAreSpaces(line, 0);
    var s := LStrip(line);
    assert forall k :: 0 <= k < |s| ==> s[k] == line[m + k];
    assert |s| >= 3 ==> s[0..3] == [s[0], s[1], s[2]];
    assert |s| >= 2 ==> s[0..2] == [s[0], s[1]];
    hide SpaceCount;
    assert IsMarker(line) <==> MarkerShape(line, m);
    forall n: nat | MarkerShape(line, n)
      ensures n == m
    {
      SpacesAreCounted(line, 0, n);
    }
  }

  /** Moves `start` back over adjacent markers, not below `lower`. */
  function PullBack(lines: seq<Text>, lower: nat, start: nat): (pulled: nat)
    requires lower <= start <= |lines|
    ensures lower <= pulled <= start
    ensures forall j :: pulled <= j < start ==> IsMarker(lines[j])
    ensures pulled > lower ==> !IsMarker(lines[pulled - 1])
  {
    if start > lower && IsMarker(lines[start - 1]) then PullBack(lines, lower, start - 1) else start
  }

  /** Where the region of declaration `k` starts: pulled back, but not past the start of the region before. */
  function RegionStart(lines: seq<Text>, decls: seq<nat>, k: nat): (start: nat)
    requires ValidDecls(lines, decls) && k < |decls|
    ensures start <= decls[k]
  {
    PullBack(lines, if k == 0 then 0 else RegionStart(lines, decls, k - 1) + 1, decls[k])
  }

  lemma {:induction false} RegionsAdvance(lines: seq<Text>, decls: seq<nat>, j: nat, k: nat)
    requires ValidDecls(lines, decls) && j < k < |decls|
    ensures RegionStart(lines, decls, j) < RegionStart(lines, decls, k)
  {
    hide IsMarker;
    if j < k - 1 {
      RegionsAdvance(lines, decls, j, k - 1);
    }
  }

  /** Is there a marker just before declaration `k` that the declarations before it leave to it? */
  predicate PulledBack(lines: seq<Text>, decls: seq<nat>, k: nat)
    requires ValidDecls(lines, decls) && k < |decls|
  {
    && decls[k] > 0 && IsMarker(lines[decls[k] - 1])
    && (k == 0 || decls[k - 1] < decls[k] - 1 || PulledBack(lines, decls, k - 1))
  }

  lemma {:induction false} PulledBackExactly(lines: seq<Text>, decls: seq<nat>, k: nat)
    requires ValidDecls(lines, decls) && k < |decls|
    ensures RegionStart(lines, decls, k) < decls[k] <==> PulledBack(lines, decls, k)
  {
    hide IsMarker;
    if k > 0 {
      PulledBackExactly(lines, decls, k - 1);
    }
  }

  /**
   A declaration lies in its own region, rather than in that of the next one, exactly if there was nothing to
   pull back for it or some line from it up to the next declaration is no marker. So a declaration whose own line
   begins like an attribute can end up in the next region.
   */
  lemma OwnRegionExactly(lines: seq<Text>, decls: seq<nat>, k: nat)
    requires ValidDecls(lines, decls) && k + 1 < |decls|
    ensures decls[k] < RegionStart(lines, decls, k + 1) <==>
            || !PulledBack(lines, decls, k)
            || exists j :: decls[k] <= j < decls[k + 1] && !IsMarker(lines[j])
  {
    PulledBackExactly(lines, decls, k);
    hide IsMarker, PulledBack;
    var p, q := RegionStart(lines, decls, k), RegionStart(lines, decls, k + 1);
    assert q == PullBack(lines, p + 1, decls[k + 1]);
    if decls[k] < q && p < decls[k] {
      assert !IsMarker(lines[q - 1]);
    }
  }

  /** A text in which no comment, string or character literal can start. */
  predicate Plain(text: Text) {
    forall k :: 0 <= k < |text| ==> text[k] !in {'/', '"', '\''}
  }

  lemma StartsWithItsFirst(text: Text, pattern: Text, i: nat)
    requires pattern != [] && i < |text|
    ensures StartsWith(text, pattern, i) ==> text[i] == pattern[0]
  {
    if StartsWith(text, pattern, i) {
      assert pattern[0] == text[i..i + |pattern|][0];
    }
  }

  lemma PlainTextHasNoToken(text: Text, i: nat)
    requires Plain(text) && i < |text|
    ensures TokenEnd(text, i) == None
  {
    StartsWithItsFirst(text, "//", i);
    StartsWithItsFirst(text, "/*", i);
    StartsWithItsFirst(text, "'\\", i);
    StartsWithItsFirst(text, "'\\x", i);
    StartsWithItsFirst(text, "'\\u{", i);
  }

  lemma {:induction false} PlainTextIsUnmasked(text: Text, i: nat)
    requires Plain(text) && i <= |text|
    ensures MaskFrom(text, i) == text
    decreases |text| - i
  {
    if i < |text| {
      PlainTextHasNoToken(text, i);
      PlainTextIsUnmasked(text, i + 1);
    }
  }

  lemma {:induction false} LineEndsAt(text: Text, i: nat, end: nat)
    requires i <= end <= |text| && (end < |text| ==> text[end] == '\n')
    requires forall k :: i <= k < end ==> text[k] != '\n'
    ensures LineEnd(text, i) == end
    decreases end - i
  {
    if i < end {
      LineEndsAt(text, i + 1, end);
    }
  }

  lemma FirstLine(line: Text, rest: Text)
    requires '\n' !in line
    ensures Lines(line + "\n" + rest) == [line + "\n"] + Lines(rest)
    ensures line != [] ==> Lines(line) == [line]
  {
    var text := line + "\n" + rest;
    LineEndsAt(text, 0, |line|);
    LineEndsAt(line, 0, |line|);
    assert text[..|line| + 1] == line + "\n" && text[|line| + 1..] == rest;
  }

  /** A text: an attribute, a declaration on one line with its own attribute, and another declaration. */
  const ATTRIBUTE: Text := "#[a]"
  const FIRST_FN: Text := "#[b]fn f"
  const SECOND_FN: Text := "fn g"
  const ATTRIBUTES := ATTRIBUTE + "\n" + (FIRST_FN + "\n" + SECOND_FN)

  lemma LinesOfThree(a: Text, b: Text, c: Text)
    requires '\n' !in a && '\n' !in b && '\n' !in c && c != []
    ensures Lines(a + "\n" + (b + "\n" + c)) == [a + "\n", b + "\n", c]
  {
    FirstLine(a, b + "\n" + c);
    FirstLine(b, c);
    FirstLine(c, []);
  }

  lemma DeclsOfThree(lines: seq<Text>)
    requires |lines| == 3 && !DeclaresFn(lines[0]) && DeclaresFn(lines[1]) && DeclaresFn(lines[2])
    ensures DeclLines(lines, 0) == [1, 2]
  {
    hide DeclaresFn;
    assert DeclLines(lines, 3) == [];
    assert DeclLines(lines, 2) == [2];
    assert DeclLines(lines, 1) == [1, 2];
  }

  lemma AttributesAreThreeLines()
    ensures Lines(ATTRIBUTES) == [ATTRIBUTE + "\n", FIRST_FN + "\n", SECOND_FN]
    ensures Mask(ATTRIBUTES) == ATTRIBUTES
  {
    LinesOfThree(ATTRIBUTE, FIRST_FN, SECOND_FN);
    PlainTextIsUnmasked(ATTRIBUTES, 0);
  }

  lemma AttributesDeclareTwo()
    ensures DeclLines([ATTRIBUTE + "\n", FIRST_FN + "\n", SECOND_FN], 0) == [1, 2]
    ensures IsMarker(ATTRIBUTE + "\n") && IsMarker(FIRST_FN + "\n")
  {
    NoFn(ATTRIBUTE + "\n");
    FnByLooks(FIRST_FN + "\n", 4);
    FnByLooks(SECOND_FN, 0);
    DeclsOfThree([ATTRIBUTE + "\n", FIRST_FN + "\n", SECOND_FN]);
    MarkerByPrefix(ATTRIBUTE + "\n");
    MarkerByPrefix(FIRST_FN + "\n");
  }

  lemma PulledPastADeclaration(lines: seq<Text>, decls: seq<nat>)
    requires |lines| == 3 && decls == [1, 2] && IsMarker(lines[0]) && IsMarker(lines[1])
    ensures ValidDecls(lines, decls) && RegionStart(lines, decls, 1) <= decls[0]
  {
    hide IsMarker;
    assert PulledBack(lines, decls, 0);
    OwnRegionExactly(lines, decls, 0);
  }

  /** Its first declaration has no region of its own, but lies in that of the second. */
  lemma SomeDeclarationLosesItsRegion()
    ensures Decls(ATTRIBUTES) == [1, 2] && ValidDecls(Lines(ATTRIBUTES), Decls(ATTRIBUTES))
    ensures RegionStart(Lines(ATTRIBUTES), Decls(ATTRIBUTES), 1) <= Decls(ATTRIBUTES)[0]
  {
    AttributesAreThreeLines();
    AttributesDeclareTwo();
    hide IsMarker, Lines, Mask, DeclLines, ATTRIBUTES;
    PulledPastADeclaration(Lines(ATTRIBUTES), Decls(ATTRIBUTES));
  }

  lemma NoFn(line: Text)
    requires 'f' !in line
    ensures !DeclaresFn(line)
  {
    forall j | 0 <= j < |line|
      ensures !FnAt(line, j)
    {
      StartsWithItsFirst(line, "fn", j);
      assert line[j] in line;
    }
  }

  lemma FnByLooks(line: Text, j: nat)
    requires j + 3 < |line| && line[j] == 'f' && line[j + 1] == 'n' && line[j + 2] == ' ' && 'a' <= line[j + 3] <= 'z'
    requires j > 0 ==> !IsWord(line[j - 1])
    ensures DeclaresFn(line)
  {
    assert SpaceCount(line, j + 3) == 0 && SpaceCount(line, j + 2) == 1;
    assert FnAt(line, j);
  }

  lemma MarkerByPrefix(line: Text)
    requires |line| >= 2 && line[0] == '#' && line[1] == '['
    ensures IsMarker(line)
  {
    assert SpaceCount(line, 0) == 0 && LStrip(line) == line;
  }

  // ----- code chunks -----

  const FALLBACK_LINES := 160

  method SortedSet(s: set<nat>) returns (sorted: seq<nat>)
    ensures forall i, j :: 0 <= i < j < |sorted| ==> sorted[i] < sorted[j]
    ensures forall x :: x in sorted <==> x in s
  {
    sorted := [];
    var rest := s;
    while rest != {}
      invariant forall i, j :: 0 <= i < j < |sorted| ==> sorted[i] < sorted[j]
      invariant forall i, x :: 0 <= i < |sorted| && x in rest ==> sorted[i] < x
      invariant forall x :: x in s <==> x in sorted || x in rest
      decreases rest
    {
      var least :| least in rest;
      var others := rest - {least};
      while others != {}
        invariant others <= rest && least in rest
        invariant forall x :: x in rest && x !in others ==> least <= x
        decreases others
      {
        var x :| x in others;
        if x < least {
          least := x;
        }
        others := others - {x};
      }
      sorted, rest := sorted + [least], rest - {least};
    }
  }

  /** The kept ones among the blocks that begin at `starts`. */
  method KeepBlocks(lines: seq<Text>, starts: seq<nat>) returns (chunks: seq<Chunk>)
    requires Tiling(starts, |lines|)
    ensures chunks == Kept(Blocks(lines, starts, |starts|))
  {
    hide Kept, Join, Strips, Tiling;
    chunks := [];
    NothingKept(0);
    for k := 0 to |starts|
      invariant chunks == Kept(Blocks(lines, starts, k))
    {
      ghost var before := Blocks(lines, starts, k);
      assert starts[k] <= EndOf(starts, k, |lines|) <= |lines| by { EndsAreInside(starts, k, |lines|); }
      var block := Block(lines, starts[k], EndOf(starts, k, |lines|));
      assert Blocks(lines, starts, k + 1) == before + [block];
      KeptAppend(before, block);
      if !Strips(block.text) {
        chunks := chunks + [block];
      }
    }
  }

  lemma EndsAreInside(starts: seq<nat>, k: nat, n: nat)
    requires Tiling(starts, n) && k < |starts|
    ensures starts[k] <= EndOf(starts, k, n) <= n
  {
  }

  /** Where the blocks of a source file begin: at every declaration's region, or else at regular intervals. */
  ghost predicate CodeStarts(lines: seq<Text>, decls: seq<nat>, starts: seq<nat>, fallbackLines: int)
    requires ValidDecls(lines, decls)
  {
    if decls == [] then
      && (forall k :: 0 <= k < |starts| ==> starts[k] == k * fallbackLines)
      && |lines| <= |starts| * fallbackLines
    else
      && (forall x :: x in starts ==> x == 0 || exists k :: 0 <= k < |decls| && x == RegionStart(lines, decls, k))
      && 0 in starts
      && (forall k :: 0 <= k < |decls| ==> RegionStart(lines, decls, k) in starts)
  }

  method FallbackStarts(n: nat, fallbackLines: nat) returns (starts: seq<nat>)
    requires fallbackLines > 0
    ensures Tiling(starts, n) && n <= |starts| * fallbackLines
    ensures forall k :: 0 <= k < |starts| ==> starts[k] == k * fallbackLines
  {
    starts := [0];
    var i := fallbackLines;
    while i < n
      invariant i == |starts| * fallbackLines
      invariant Tiling(starts, n)
      invariant forall k :: 0 <= k < |starts| ==> starts[k] == k * fallbackLines && starts[k] < i
      decreases n - i
    {
      starts, i := starts + [i], i + fallbackLines;
    }
  }

  lemma PullBackStep(lines: seq<Text>, lower: nat, start: nat)
    requires lower <= start <= |lines|
    ensures PullBack(lines, lower, start) ==
            if start > lower && IsMarker(lines[start - 1]) then PullBack(lines, lower, start - 1) else start
  {
  }

  lemma RegionBounds(lines: seq<Text>, decls: seq<nat>, k: nat)
    requires ValidDecls(lines, decls) && k < |decls|
    ensures var lower := if k == 0 then 0 else RegionStart(lines, decls, k - 1) + 1;
            lower <= decls[k] < |lines| && RegionStart(lines, decls, k) == PullBack(lines, lower, decls[k])
  {
  }

  /** Moves each start back over its doc comments and attributes, in place and in order. */
  method PullStarts(lines: seq<Text>, decls: seq<nat>) returns (starts: seq<nat>)
    requires ValidDecls(lines, decls)
    ensures |starts| == |decls| && forall k :: 0 <= k < |starts| ==> starts[k] == RegionStart(lines, decls, k)
  {
    hide IsMarker, PullBack, RegionStart, ValidDecls;
    starts := decls;
    var n := 0;
    while n < |starts|
      invariant n <= |starts| == |decls|
      invariant forall k :: 0 <= k < n ==> starts[k] == RegionStart(lines, decls, k)
      invariant forall k :: n <= k < |starts| ==> starts[k] == decls[k]
    {
      RegionBounds(lines, decls, n);
      var lower := if n > 0 then starts[n - 1] + 1 else 0;
      var start := starts[n];
      PullBackStep(lines, lower, start);
      while start > lower && IsMarker(lines[start - 1])
        invariant lower <= start <= decls[n]
        invariant PullBack(lines, lower, start) == PullBack(lines, lower, decls[n])
        invariant PullBack(lines, lower, start) ==
                  if start > lower && IsMarker(lines[start - 1]) then PullBack(lines, lower, start - 1) else start
      {
        start := start - 1;
        PullBackStep(lines, lower, start);
      }
      starts := starts[n := start];
      n := n + 1;
    }
  }

  /** Blocks that begin at `starts` tile the file, and each declaration's region begins one. */
  ghost predicate CutsCode(text: Text, fallbackLines: int, starts: seq<nat>) {
    && ValidDecls(Lines(text), Decls(text))
    && CodeStarts(Lines(text), Decls(text), starts, fallbackLines)
    && Tiling(starts, |Lines(text)|)
  }

  /** The chunks are those of the tiling blocks that are not blank. */
  ghost predicate ChunksCode(text: Text, fallbackLines: int, chunks: seq<Chunk>) {
    exists starts :: CutsCode(text, fallbackLines, starts) && chunks == Kept(Blocks(Lines(text), starts, |starts|))
  }

  /** Without declarations, an interval of zero is an error, and one below zero yields no chunks whatever the text. */
  method CodeChunks(text: Text, fallbackLines: int := FALLBACK_LINES) returns (chunks: Option<seq<Chunk>>)
    ensures chunks.None? <==> Decls(text) == [] && fallbackLines == 0
    ensures Decls(text) == [] && fallbackLines < 0 ==> chunks == Some([])
    ensures Decls(text) != [] || fallbackLines > 0 ==> ChunksCode(text, fallbackLines, chunks.value)
  {
    hide Mask, Lines, DeclLines, RegionStart, Kept, Blocks, ValidDecls;
    var lines := Lines(text);
    var masked := MaskNonCode(text);
    var decls := DeclLines(Lines(masked), 0);
    DeclLinesAreLines(text);
    var bounds: seq<nat>;
    if decls == [] {
      if fallbackLines <= 0 {
        return if fallbackLines == 0 then None else Some([]);
      }
      bounds := FallbackStarts(|lines|, fallbackLines);
    } else {
      var pulled := PullStarts(lines, decls);
      bounds := SortedSet({0} + set x | x in pulled);
      SortedStartsTile(lines, decls, pulled, bounds);
    }
    var kept := KeepBlocks(lines, bounds);
    assert CutsCode(text, fallbackLines, bounds);
    chunks := Some(kept);
  }

  lemma SortedStartsTile(lines: seq<Text>, decls: seq<nat>, pulled: seq<nat>, bounds: seq<nat>)
    requires ValidDecls(lines, decls) && decls != [] && |pulled| == |decls|
    requires forall k :: 0 <= k < |pulled| ==> pulled[k] == RegionStart(lines, decls, k)
    requires forall i, j :: 0 <= i < j < |bounds| ==> bounds[i] < bounds[j]
    requires forall x :: x in bounds <==> x == 0 || x in pulled
    ensures Tiling(bounds, |lines|)
    ensures CodeStarts(lines, decls, bounds, 0)
  {
    hide RegionStart;
    assert 0 in bounds;
    forall x | x in bounds
      ensures x < |lines|
      ensures x == 0 || exists k :: 0 <= k < |decls| && x == RegionStart(lines, decls, k)
    {
      assert decls[0] < |lines|;
      if x in pulled {
        var k :| 0 <= k < |pulled| && pulled[k] == x;
        RegionStartsBefore(lines, decls, k);
      }
    }
    forall k | 0 <= k < |decls|
      ensures RegionStart(lines, decls, k) in bounds
    {
      assert pulled[k] in pulled;
    }
    forall i | 0 <= i < |bounds|
      ensures bounds[i] < |lines|
    {
      assert bounds[i] in bounds;
    }
    assert bounds[0] == 0;
  }

  lemma RegionStartsBefore(lines: seq<Text>, decls: seq<nat>, k: nat)
    requires ValidDecls(lines, decls) && k < |decls|
    ensures RegionStart(lines, decls, k) <= decls[k]
  {
  }

  /**
   Chunks are in order and apart, every declaration of a function lies in exactly one of them, and what
   separates them from the whole text is blocks of whitespace.
   */
  lemma CodeChunksCoverDeclarations(text: Text, fallbackLines: int, chunks: seq<Chunk>)
    requires ChunksCode(text, fallbackLines, chunks)
    ensures InOrder(chunks, |Lines(text)|)
    ensures forall c :: c in chunks ==> Quotes(c, Lines(text)) && SaysSomething(c.text)
    ensures forall k :: 0 <= k < |Decls(text)| ==> InExactlyOne(chunks, Decls(text)[k])
    ensures exists blocks :: chunks == Kept(blocks) && Texts(blocks) == text
  {
    var starts :| CutsCode(text, fallbackLines, starts) && chunks == Kept(Blocks(Lines(text), starts, |starts|));
    ChunksQuote(Lines(text), starts);
    hide Lines, DeclLines, Kept, Blocks, Strips, InExactlyOne, InOrder, Texts, RegionStart, Quotes, SaysSomething;
    DeclLinesAreLines(text);
    forall k | 0 <= k < |Decls(text)|
      ensures InExactlyOne(chunks, Decls(text)[k])
    {
      LinesLieInExactlyOne(Lines(text), starts, Decls(text)[k]);
    }
    KeptInOrder(Lines(text), starts, |starts|);
    ChunksConcatenate(text, starts);
  }

}
