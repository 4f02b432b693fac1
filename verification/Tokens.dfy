/**
 Rust's comments, strings and character literals, said of the characters of a text alone; and what masking does to
 each. `Masking` finds them by a scan, which is proved to find these and no others.
 */
module Tokens {
  import opened Options
  import opened Masking

  // ----- the kinds of tokens -----

  /** The characters `a` and `b` stand at `i`. */
  predicate Two(text: Text, i: nat, a: char, b: char) {
    i + 1 < |text| && text[i] == a && text[i + 1] == b
  }

  /** From two slashes to the next newline, or to the end of the text. */
  predicate LineComment(text: Text, i: nat, end: nat) {
    && Two(text, i, '/', '/')
    && i + 2 <= end <= |text|
    && (forall k :: i + 2 <= k < end ==> text[k] != '\n')
    && (end < |text| ==> text[end] == '\n')
  }

  /** Openings less closings that begin at `i` or later and before `j`, read from the left in whole marks. */
  function Depth(text: Text, i: nat, j: nat): int
    requires i <= |text|
    decreases |text| - i
  {
    if i >= j || i == |text| then 0
    else if Two(text, i, '/', '*') then Depth(text, i + 2, j) + 1
    else if Two(text, i, '*', '/') then Depth(text, i + 2, j) - 1
    else Depth(text, i + 1, j)
  }

  /** `end` is where a comment that is `depth` deep at `i` first closes, or the end of the text if it does not. */
  predicate Closes(text: Text, i: nat, depth: nat, end: nat)
    requires i <= |text| && depth > 0
  {
    && i <= end <= |text|
    && (forall j :: i <= j < end - 1 ==> depth + Depth(text, i, j) > 0)
    && (|| (i + 2 <= end && Two(text, end - 2, '*', '/') && depth + Depth(text, i, end) == 0)
        || (end == |text| && depth + Depth(text, i, end) > 0))
  }

  /** From slash and star to the closing mark that balances it, or to the end of the text. */
  predicate BlockComment(text: Text, i: nat, end: nat) {
    Two(text, i, '/', '*') && Closes(text, i + 2, 1, end)
  }

  /** The hashes of a raw string begin at `p`, after `r` or `br`. */
  predicate RawMark(text: Text, i: nat, p: nat) {
    || (i < |text| && text[i] == 'r' && p == i + 1)
    || (Two(text, i, 'b', 'r') && p == i + 2)
  }

  predicate Hashes(text: Text, p: nat, n: nat) {
    p + n <= |text| && forall k :: p <= k < p + n ==> text[k] == '#'
  }

  /** `r` or `br`, `n` hashes and a quote. */
  predicate RawHead(text: Text, i: nat, p: nat, n: nat) {
    RawMark(text, i, p) && n <= 255 && Hashes(text, p, n) && p + n < |text| && text[p + n] == '"'
  }

  predicate RawTail(text: Text, q: nat, n: nat) {
    q < |text| && text[q] == '"' && Hashes(text, q + 1, n)
  }

  /** The first quote from `body` on with `n` hashes after it ends there, or else the text does. */
  predicate RawBody(text: Text, body: nat, n: nat, end: nat) {
    && body <= end <= |text|
    && (|| (&& body <= end - 1 - n && RawTail(text, end - 1 - n, n)
            && forall q :: body <= q < end - 1 - n ==> !RawTail(text, q, n))
        || (end == |text| && forall q :: body <= q < |text| ==> !RawTail(text, q, n)))
  }

  predicate RawString(text: Text, i: nat, p: nat, n: nat, end: nat) {
    RawHead(text, i, p, n) && RawBody(text, p + n + 1, n, end)
  }

  /** From a quote to the next one that no backslash takes, or to the end of the text. */
  predicate StringLiteral(text: Text, i: nat, end: nat) {
    && i < |text| && text[i] == '"' && i + 1 <= end <= |text|
    && (|| (i + 1 < end && text[end - 1] == '"' && !Escaped(text, i + 1, end - 1)
            && forall q :: i + 1 <= q < end - 1 && text[q] == '"' ==> Escaped(text, i + 1, q))
        || (end == |text| && forall q :: i + 1 <= q < |text| && text[q] == '"' ==> Escaped(text, i + 1, q)))
  }

  /** A quoted character: escaped by its code point, by two hex digits, or by a backslash alone, or plain. */
  predicate CharLiteral(text: Text, i: nat, end: nat) {
    && i + 3 <= end <= |text| && text[i] == '\'' && text[end - 1] == '\''
    && (|| (&& i + 7 <= end && Two(text, i + 1, '\\', 'u') && text[i + 3] == '{' && text[end - 2] == '}'
            && forall k :: i + 4 <= k < end - 2 ==> IsHex(text[k]))
        || (end == i + 6 && Two(text, i + 1, '\\', 'x') && IsHex(text[i + 3]) && IsHex(text[i + 4]))
        || (end == i + 4 && text[i + 1] == '\\' && text[i + 2] != '\n')
        || (end == i + 3 && text[i + 1] != '\'' && text[i + 1] != '\\' && text[i + 1] != '\n'))
  }

  /** A token starts at `i` and goes up to `end`. */
  ghost predicate TokenAt(text: Text, i: nat, end: nat) {
    || LineComment(text, i, end)
    || BlockComment(text, i, end)
    || (exists p: nat, n: nat :: RawString(text, i, p, n, end))
    || StringLiteral(text, i, end)
    || CharLiteral(text, i, end)
  }

  // ----- the scan finds them -----

  lemma TwoStart(text: Text, i: nat, pattern: Text)
    requires |pattern| == 2
    ensures StartsWith(text, pattern, i) <==> Two(text, i, pattern[0], pattern[1])
  {
    if i + 2 <= |text| {
      assert text[i..i + 2] == [text[i], text[i + 1]];
      assert pattern == [pattern[0], pattern[1]];
    }
  }

  lemma {:induction false} FirstNewline(text: Text, i: nat, end: nat)
    requires i <= end <= |text|
    requires (forall k :: i <= k < end ==> text[k] != '\n') && (end < |text| ==> text[end] == '\n')
    ensures LineEnd(text, i) == end
    decreases end - i
  {
    if i < end {
      FirstNewline(text, i + 1, end);
    }
  }

  lemma LineCommentsAreFound(text: Text, i: nat, end: nat)
    requires i < |text|
    ensures LineComment(text, i, end) <==> StartsWith(text, "//", i) && LineEnd(text, i + 2) == end
  {
    TwoStart(text, i, "//");
    if LineComment(text, i, end) {
      FirstNewline(text, i + 2, end);
    }
  }

  /** How far one mark, or one other character, goes, and by how much it changes the depth. */
  function MarkAt(text: Text, i: nat): (step: (nat, int))
    requires i < |text|
    ensures i < step.0 <= |text|
  {
    if Two(text, i, '/', '*') then (i + 2, 1) else if Two(text, i, '*', '/') then (i + 2, -1) else (i + 1, 0)
  }

  lemma DepthStep(text: Text, i: nat, j: nat)
    requires i < j <= |text|
    ensures Depth(text, i, j) == Depth(text, MarkAt(text, i).0, j) + MarkAt(text, i).1
  {
  }

  lemma DepthHere(text: Text, i: nat, j: nat)
    requires j <= i <= |text|
    ensures Depth(text, i, j) == 0
  {
  }

  lemma ClosesBefore(text: Text, i: nat, depth: nat, end: nat)
    requires i < |text| && depth > 0 && depth + MarkAt(text, i).1 > 0
    requires Closes(text, MarkAt(text, i).0, depth + MarkAt(text, i).1, end)
    ensures Closes(text, i, depth, end)
  {
    var (next, change) := MarkAt(text, i);
    forall j | i <= j < end - 1
      ensures depth + Depth(text, i, j) > 0
    {
      if j > i {
        DepthStep(text, i, j);
        if j < next { DepthHere(text, next, j); }
      } else {
        DepthHere(text, i, i);
      }
    }
    DepthStep(text, i, end);
    hide Depth;
  }

  lemma ClosesHere(text: Text, i: nat)
    requires Two(text, i, '*', '/')
    ensures Closes(text, i, 1, i + 2)
  {
    DepthStep(text, i, i + 2);
    DepthHere(text, i + 2, i + 2);
    DepthHere(text, i, i);
    hide Depth;
  }

  lemma BlockStep(text: Text, i: nat, depth: nat)
    requires i < |text| && depth > 0
    ensures BlockEnd(text, i, depth) == BlockEnd(text, MarkAt(text, i).0, depth + MarkAt(text, i).1)
  {
    TwoStart(text, i, "/*");
    TwoStart(text, i, "*/");
  }

  lemma {:induction false} BlocksClose(text: Text, i: nat, depth: nat)
    requires i <= |text| && depth > 0
    ensures Closes(text, i, depth, BlockEnd(text, i, depth))
    decreases |text| - i
  {
    if i == |text| {
      DepthHere(text, i, i);
    } else {
      var (next, change) := MarkAt(text, i);
      BlockStep(text, i, depth);
      if depth + change > 0 {
        BlocksClose(text, next, depth + change);
        hide Closes;
        ClosesBefore(text, i, depth, BlockEnd(text, i, depth));
      } else {
        hide Closes;
        ClosesHere(text, i);
      }
    }
  }

  /** No mark begins at the last character. */
  lemma {:induction false} LastIsNoMark(text: Text, i: nat)
    requires i < |text|
    ensures Depth(text, i, |text|) == Depth(text, i, |text| - 1)
    decreases |text| - i
  {
    if i + 1 < |text| {
      var next := if Two(text, i, '/', '*') || Two(text, i, '*', '/') then i + 2 else i + 1;
      if next < |text| {
        LastIsNoMark(text, next);
      }
    }
  }

  /** There is only one such end. */
  lemma OneEnd(text: Text, i: nat, depth: nat, end: nat, other: nat)
    requires i <= |text| && depth > 0
    requires Closes(text, i, depth, end) && Closes(text, i, depth, other)
    ensures end == other
  {
    if i < |text| {
      LastIsNoMark(text, i);
    }
  }

  lemma BlockCommentsAreFound(text: Text, i: nat, end: nat)
    requires i < |text|
    ensures BlockComment(text, i, end) <==> StartsWith(text, "/*", i) && BlockEnd(text, i + 2, 1) == end
  {
    TwoStart(text, i, "/*");
    if Two(text, i, '/', '*') {
      BlocksClose(text, i + 2, 1);
      if BlockComment(text, i, end) {
        OneEnd(text, i + 2, 1, end, BlockEnd(text, i + 2, 1));
      }
    }
  }

  lemma RawMarksAreFound(text: Text, i: nat, p: nat)
    requires i < |text|
    ensures RawMark(text, i, p) <==> RawPrefix(text, i) == Some(p)
  {
    TwoStart(text, i, "br");
    assert StartsWith(text, "r", i) <==> text[i] == 'r' by { assert text[i..i + 1] == [text[i]]; }
  }

  lemma {:induction false} HashesAreCounted(text: Text, p: nat, n: nat)
    requires Hashes(text, p, n) && (p + n < |text| ==> text[p + n] != '#')
    ensures HashCount(text, p) == n
    decreases n
  {
    if n > 0 {
      HashesAreCounted(text, p + 1, n - 1);
    }
  }

  lemma RawHeadsAreFound(text: Text, i: nat, p: nat, n: nat)
    requires i < |text|
    ensures RawHead(text, i, p, n) <==>
            RawOpen(text, i) == Some(p + n + 1) && RawPrefix(text, i) == Some(p) && RawHashes(text, i) == n
  {
    RawMarksAreFound(text, i, p);
    if RawHead(text, i, p, n) {
      HashesAreCounted(text, p, n);
    }
  }

  lemma RawTailsAreFound(text: Text, q: nat, n: nat)
    ensures TerminatorAt(text, q, n) <==> RawTail(text, q, n)
  {
  }

  lemma RawBodiesAreFound(text: Text, body: nat, n: nat, end: nat)
    requires body <= |text|
    ensures RawBody(text, body, n, end) <==> RawEnd(text, body, n) == end
  {
    var found := RawEnd(text, body, n);
    forall q: nat
      ensures TerminatorAt(text, q, n) <==> RawTail(text, q, n)
    {
      RawTailsAreFound(text, q, n);
    }
    hide TerminatorAt, RawTail, RawEnd;
    assert RawBody(text, body, n, found);
  }

  lemma StringLiteralsAreFound(text: Text, i: nat, end: nat)
    requires i < |text|
    ensures StringLiteral(text, i, end) <==>
            text[i] == '"' && end == if StringEnd(text, i + 1) <= |text| then StringEnd(text, i + 1) else |text|
  {
    StringsEndAtFreeQuotes(text, i + 1, i + 1);
  }

  lemma {:induction false} HexDigitsAreCounted(text: Text, p: nat, n: nat)
    requires p + n < |text| && (forall k :: p <= k < p + n ==> IsHex(text[k])) && !IsHex(text[p + n])
    ensures HexCount(text, p) == n
    decreases n
  {
    if n > 0 {
      HexDigitsAreCounted(text, p + 1, n - 1);
    }
  }

  predicate ByCodePoint(text: Text, i: nat, end: nat) {
    && i + 7 <= end <= |text| && text[i] == '\'' && text[end - 1] == '\''
    && Two(text, i + 1, '\\', 'u') && text[i + 3] == '{' && text[end - 2] == '}'
    && forall k :: i + 4 <= k < end - 2 ==> IsHex(text[k])
  }

  lemma CodePointsAreFound(text: Text, i: nat, end: nat)
    requires i < |text|
    ensures ByCodePoint(text, i, end) <==> UnicodeEnd(text, i) == Some(end)
  {
    if i + 4 <= |text| {
      assert text[i..i + 4] == [text[i], text[i + 1], text[i + 2], text[i + 3]];
    }
    if ByCodePoint(text, i, end) {
      HexDigitsAreCounted(text, i + 4, end - 2 - (i + 4));
    }
  }

  lemma EscapesStart(text: Text, i: nat)
    requires i < |text|
    ensures StartsWith(text, "'\\", i) <==> Two(text, i, '\'', '\\')
    ensures StartsWith(text, "'\\x", i) <==> i + 2 < |text| && Two(text, i, '\'', '\\') && text[i + 2] == 'x'
  {
    TwoStart(text, i, "'\\");
    if i + 3 <= |text| {
      assert text[i..i + 3] == [text[i], text[i + 1], text[i + 2]];
    }
  }

  lemma CharLiteralsAreFound(text: Text, i: nat, end: nat)
    requires i < |text|
    ensures CharLiteral(text, i, end) <==> CharEnd(text, i) == Some(end)
  {
    CodePointsAreFound(text, i, end);
    EscapesStart(text, i);
    if UnicodeEnd(text, i).Some? {
      CodePointsAreFound(text, i, UnicodeEnd(text, i).value);
    }
    hide UnicodeEnd, StartsWith;
  }

  /** The scan finds a token exactly where there is one, and its end. */
  lemma TokensAreFound(text: Text, i: nat, end: nat)
    requires i < |text|
    ensures TokenAt(text, i, end) <==> TokenEnd(text, i).Some? && NextPosition(text, i) == end
  {
    LineCommentsAreFound(text, i, end);
    BlockCommentsAreFound(text, i, end);
    StringLiteralsAreFound(text, i, end);
    CharLiteralsAreFound(text, i, end);
    RawStringsAreFound(text, i, end);
    KindsAreApart(text, i, end);
    hide LineComment, BlockComment, RawString, StringLiteral, CharLiteral, LineEnd, BlockEnd, RawEnd, StringEnd,
         CharEnd, RawOpen, RawHashes, StartsWith;
  }

  lemma RawHeadIsInside(text: Text, i: nat, p: nat, n: nat)
    requires RawHead(text, i, p, n)
    ensures p + n + 1 <= |text|
  {
  }

  /** The scan's idea of a raw string from its head on. */
  predicate RawFound(text: Text, i: nat, end: nat) {
    RawOpen(text, i).Some? && RawEnd(text, RawOpen(text, i).value, RawHashes(text, i)) == end
  }

  lemma RawStringIsFound(text: Text, i: nat, p: nat, n: nat, end: nat)
    requires i < |text| && RawString(text, i, p, n, end)
    ensures RawFound(text, i, end)
  {
    hide RawHead, RawBody, RawEnd, RawOpen, RawPrefix, RawHashes;
    RawHeadsAreFound(text, i, p, n);
    RawHeadIsInside(text, i, p, n);
    RawBodiesAreFound(text, p + n + 1, n, end);
  }

  lemma RawOpensHave(text: Text, i: nat)
    requires RawOpen(text, i).Some?
    ensures RawPrefix(text, i).Some? && RawOpen(text, i).value == RawPrefix(text, i).value + RawHashes(text, i) + 1
  {
  }

  lemma FoundIsRawString(text: Text, i: nat, end: nat)
    requires i < |text| && RawFound(text, i, end)
    ensures RawString(text, i, RawPrefix(text, i).value, RawHashes(text, i), end)
  {
    RawOpensHave(text, i);
    hide RawHead, RawBody, RawEnd, RawOpen, RawPrefix, RawHashes;
    var p, n := RawPrefix(text, i).value, RawHashes(text, i);
    RawHeadsAreFound(text, i, p, n);
    RawBodiesAreFound(text, p + n + 1, n, end);
  }

  lemma RawStringsAreFound(text: Text, i: nat, end: nat)
    requires i < |text|
    ensures (exists p: nat, n: nat :: RawString(text, i, p, n, end)) <==> RawFound(text, i, end)
  {
    hide RawString, RawFound, RawPrefix, RawHashes;
    if exists p: nat, n: nat :: RawString(text, i, p, n, end) {
      var p: nat, n: nat :| RawString(text, i, p, n, end);
      RawStringIsFound(text, i, p, n, end);
    }
    if RawFound(text, i, end) {
      RawOpensIfFound(text, i, end);
      FoundIsRawString(text, i, end);
    }
  }

  lemma RawOpensIfFound(text: Text, i: nat, end: nat)
    requires RawFound(text, i, end)
    ensures RawOpen(text, i).Some? && RawPrefix(text, i).Some?
  {
  }

  /** The first characters tell the kinds apart. */
  lemma KindsAreApart(text: Text, i: nat, end: nat)
    requires i < |text|
    ensures StartsWith(text, "//", i) ==> text[i] == '/' && !StartsWith(text, "/*", i)
    ensures StartsWith(text, "/*", i) ==> text[i] == '/'
    ensures RawOpen(text, i).Some? ==> text[i] == 'r' || text[i] == 'b'
    ensures CharEnd(text, i) == Some(end) ==> text[i] == '\''
  {
    TwoStart(text, i, "//");
    TwoStart(text, i, "/*");
    CharLiteralsAreFound(text, i, end);
    if RawOpen(text, i).Some? {
      RawMarksAreFound(text, i, RawPrefix(text, i).value);
    }
    hide CharEnd, RawOpen, StartsWith;
  }

  // ----- what masking does to them -----

  /**
   From the beginning to the end of the text, in steps of whole tokens where there is one and of one character
   else.
   */
  ghost predicate Reading(text: Text, ps: seq<nat>) {
    && |ps| > 0 && ps[0] == 0 && ps[|ps| - 1] == |text|
    && forall a :: 0 <= a < |ps| - 1 ==> ReadingStep(text, ps[a], ps[a + 1])
  }

  ghost predicate ReadingStep(text: Text, i: nat, next: nat) {
    && i < next <= |text|
    && if exists end :: TokenAt(text, i, end) then TokenAt(text, i, next) else next == i + 1
  }

  lemma StepsAreTheScans(text: Text, i: nat, next: nat)
    requires i < |text|
    ensures ReadingStep(text, i, next) <==> next == NextPosition(text, i)
    ensures TokenEnd(text, i).Some? <==> exists end :: TokenAt(text, i, end)
  {
    forall end: nat
      ensures TokenAt(text, i, end) <==> TokenEnd(text, i).Some? && NextPosition(text, i) == end
    {
      TokensAreFound(text, i, end);
    }
    hide TokenAt, TokenEnd;
    if TokenEnd(text, i).Some? {
      assert TokenAt(text, i, NextPosition(text, i));
    }
  }

  /** Every text can be read in this way. */
  lemma {:induction false} SomeReading(text: Text, i: nat) returns (ps: seq<nat>)
    requires i <= |text|
    ensures |ps| > 0 && ps[0] == i && ps[|ps| - 1] == |text|
    ensures forall a :: 0 <= a < |ps| - 1 ==> ReadingStep(text, ps[a], ps[a + 1])
    decreases |text| - i
  {
    hide ReadingStep, TokenEnd;
    if i == |text| {
      ps := [i];
    } else {
      var next := NextPosition(text, i);
      StepsAreTheScans(text, i, next);
      ps := SomeReading(text, next);
      ps := [i] + ps;
    }
  }

  /** What is masked from where the reading stands is what is masked in the end. */
  lemma {:induction false} MaskedSoFar(text: Text, ps: seq<nat>, a: nat, k: nat)
    requires Reading(text, ps) && a < |ps| && k < |text| && ps[a] <= k
    ensures MaskFrom(text, ps[a])[k] == Mask(text)[k]
  {
    hide ReadingStep, MaskFrom, TokenEnd;
    if a > 0 {
      assert ReadingStep(text, ps[a - 1], ps[a]);
      StepGoesOn(text, ps[a - 1], ps[a]);
      StepsAreTheScans(text, ps[a - 1], ps[a]);
      MaskFromAt(text, ps[a - 1], k);
      MaskedSoFar(text, ps, a - 1, k);
    }
  }

  lemma StepGoesOn(text: Text, i: nat, next: nat)
    requires ReadingStep(text, i, next)
    ensures i < next <= |text|
  {
  }

  /** Masking blanks every token that a reading comes upon, up to its end but for newlines, and keeps all else. */
  lemma MaskingBlanksTokens(text: Text, ps: seq<nat>, a: nat, k: nat)
    requires Reading(text, ps) && a < |ps| - 1 && ps[a] <= k < ps[a + 1]
    ensures k < |Mask(text)| == |text|
    ensures Mask(text)[k] ==
            if (exists end :: TokenAt(text, ps[a], end)) && text[k] != '\n' then ' ' else text[k]
  {
    hide MaskFrom, TokenEnd, TokenAt;
    assert ReadingStep(text, ps[a], ps[a + 1]);
    StepsAreTheScans(text, ps[a], ps[a + 1]);
    MaskFromAt(text, ps[a], k);
    MaskedSoFar(text, ps, a, k);
  }

}
