/** Blanking out Rust comments, strings and character literals while keeping every offset and newline. */
module Masking {
  import opened Options

  type Text = seq<char>

  predicate StartsWith(text: Text, pattern: Text, i: nat) {
    i + |pattern| <= |text| && text[i..i + |pattern|] == pattern
  }

  // ----- where a token ends -----

  /** The first newline from `i` on, or the end of the text. */
  function LineEnd(text: Text, i: nat): (end: nat)
    requires i <= |text|
    ensures i <= end <= |text|
    ensures forall k :: i <= k < end ==> text[k] != '\n'
    ensures end < |text| ==> text[end] == '\n'
    decreases |text| - i
  {
    if i == |text| || text[i] == '\n' then i else LineEnd(text, i + 1)
  }

  /** Block comments nest. */
  function BlockEnd(text: Text, i: nat, depth: nat): (end: nat)
    requires i <= |text|
    ensures i <= end <= |text|
    decreases |text| - i
  {
    if i == |text| || depth == 0 then i
    else if StartsWith(text, "/*", i) then BlockEnd(text, i + 2, depth + 1)
    else if StartsWith(text, "*/", i) then BlockEnd(text, i + 2, depth - 1)
    else BlockEnd(text, i + 1, depth)
  }

  /** A backslash takes the next character with it, even past the end. */
  function StringEnd(text: Text, i: nat): (end: nat)
    requires i <= |text| + 1
    ensures i <= end <= |text| + 1
    ensures end < |text| ==> i < end && text[end - 1] == '"'
    decreases |text| + 1 - i
  {
    if i >= |text| then i
    else if text[i] == '\\' then StringEnd(text, i + 2)
    else if text[i] == '"' then i + 1
    else StringEnd(text, i + 1)
  }

  function HashCount(text: Text, i: nat): (n: nat)
    requires i <= |text|
    ensures i + n <= |text|
    ensures forall k :: i <= k < i + n ==> text[k] == '#'
    ensures i + n < |text| ==> text[i + n] != '#'
    decreases |text| - i
  {
    if i == |text| || text[i] != '#' then 0 else 1 + HashCount(text, i + 1)
  }

  const MAX_HASHES := 255

  /** Where the hashes of a raw string opening at `i` begin, if it starts with `r` or `br`. */
  function RawPrefix(text: Text, i: nat): (hashes: Option<nat>)
    ensures hashes.Some? ==> i < hashes.value <= |text|
  {
    if StartsWith(text, "br", i) then Some(i + 2)
    else if StartsWith(text, "r", i) then Some(i + 1)
    else None
  }

  /** The position after the opening quote of a raw string, if one opens at `i`. */
  function RawOpen(text: Text, i: nat): (body: Option<nat>)
    ensures body.Some? ==> i < body.value <= |text|
  {
    match RawPrefix(text, i)
    case None => None
    case Some(j) =>
      var n := HashCount(text, j);
      if n <= MAX_HASHES && j + n < |text| && text[j + n] == '"' then Some(j + n + 1) else None
  }

  function RawHashes(text: Text, i: nat): nat
    requires RawOpen(text, i).Some?
  {
    HashCount(text, RawPrefix(text, i).value)
  }

  predicate TerminatorAt(text: Text, i: nat, hashes: nat) {
    && i + 1 + hashes <= |text|
    && text[i] == '"'
    && forall k :: i < k <= i + hashes ==> text[k] == '#'
  }

  /** Just after the first quote followed by `hashes` hashes, or the end of the text. */
  function RawEnd(text: Text, i: nat, hashes: nat): (end: nat)
    requires i <= |text|
    ensures i <= end <= |text|
    ensures || (end == |text| && forall k :: i <= k < |text| ==> !TerminatorAt(text, k, hashes))
            || (&& i <= end - 1 - hashes && TerminatorAt(text, end - 1 - hashes, hashes)
                && forall k :: i <= k < end - 1 - hashes ==> !TerminatorAt(text, k, hashes))
    decreases |text| - i
  {
    if i == |text| then i
    else if TerminatorAt(text, i, hashes) then i + 1 + hashes
    else RawEnd(text, i + 1, hashes)
  }

  predicate IsHex(c: char) {
    '0' <= c <= '9' || 'a' <= c <= 'f' || 'A' <= c <= 'F'
  }

  function HexCount(text: Text, i: nat): (n: nat)
    requires i <= |text|
    ensures i + n <= |text|
    ensures forall k :: i <= k < i + n ==> IsHex(text[k])
    ensures i + n < |text| ==> !IsHex(text[i + n])
    decreases |text| - i
  {
    if i == |text| || !IsHex(text[i]) then 0 else 1 + HexCount(text, i + 1)
  }

  predicate At(text: Text, i: nat, c: char) {
    i < |text| && text[i] == c
  }

  /** `\u{...}` with at least one hex digit, then the closing quote. */
  function UnicodeEnd(text: Text, i: nat): (end: Option<nat>)
    ensures end.Some? ==> i < end.value <= |text|
  {
    if StartsWith(text, "'\\u{", i) then
      var n := HexCount(text, i + 4);
      if n > 0 && At(text, i + 4 + n, '}') && At(text, i + 5 + n, '\'') then Some(i + 6 + n) else None
    else None
  }

  function HexEscapeEnd(text: Text, i: nat): (end: Option<nat>)
    ensures end.Some? ==> i < end.value <= |text|
  {
    if StartsWith(text, "'\\x", i) && i + 6 <= |text| && IsHex(text[i + 3]) && IsHex(text[i + 4]) && text[i + 5] == '\''
    then Some(i + 6) else None
  }

  function EscapeEnd(text: Text, i: nat): (end: Option<nat>)
    ensures end.Some? ==> i < end.value <= |text|
  {
    if StartsWith(text, "'\\", i) && i + 4 <= |text| && text[i + 2] != '\n' && text[i + 3] == '\''
    then Some(i + 4) else None
  }

  function PlainEnd(text: Text, i: nat): (end: Option<nat>)
    ensures end.Some? ==> i < end.value <= |text|
  {
    if At(text, i, '\'') && i + 3 <= |text| && text[i + 1] !in {'\'', '\\', '\n'} && text[i + 2] == '\''
    then Some(i + 3) else None
  }

  /** The end of a character literal at `i`; a lone quote, as in a lifetime, is none. */
  function CharEnd(text: Text, i: nat): (end: Option<nat>)
    ensures end.Some? ==> i < end.value <= |text|
  {
    if UnicodeEnd(text, i).Some? then UnicodeEnd(text, i)
    else if HexEscapeEnd(text, i).Some? then HexEscapeEnd(text, i)
    else if EscapeEnd(text, i).Some? then EscapeEnd(text, i)
    else PlainEnd(text, i)
  }

  /** Where the comment, string or character literal starting at `i` ends; None if none starts there. */
  function TokenEnd(text: Text, i: nat): (end: Option<nat>)
    requires i < |text|
    ensures end.Some? ==> i < end.value <= |text| + 1
  {
    if StartsWith(text, "//", i) then Some(LineEnd(text, i + 2))
    else if StartsWith(text, "/*", i) then Some(BlockEnd(text, i + 2, 1))
    else if RawOpen(text, i).Some? then Some(RawEnd(text, RawOpen(text, i).value, RawHashes(text, i)))
    else if text[i] == '"' then Some(StringEnd(text, i + 1))
    else CharEnd(text, i)
  }

  /** Is the character at `k` taken by a backslash before it, in a string whose body begins at `i`? */
  predicate Escaped(text: Text, i: nat, k: nat)
    requires i <= k <= |text|
    decreases k
  {
    i < k && text[k - 1] == '\\' && !Escaped(text, i, k - 1)
  }

  /** A string ends just after its first quote that no backslash takes; without one it runs to the end of the text. */
  lemma {:induction false} StringsEndAtFreeQuotes(text: Text, i: nat, j: nat)
    requires i <= j <= |text| && !Escaped(text, i, j)
    ensures var end := StringEnd(text, j);
            && (forall k :: j <= k < end - 1 && k < |text| && text[k] == '"' ==> Escaped(text, i, k))
            && (end < |text| ==> text[end - 1] == '"' && !Escaped(text, i, end - 1))
    decreases |text| - j
  {
    if j < |text| {
      if text[j] == '\\' {
        assert Escaped(text, i, j + 1);
        if j + 2 <= |text| {
          assert !Escaped(text, i, j + 2);
          StringsEndAtFreeQuotes(text, i, j + 2);
        }
      } else if text[j] != '"' {
        assert !Escaped(text, i, j + 1);
        StringsEndAtFreeQuotes(text, i, j + 1);
      }
    }
  }

  /** Openings less closings of block comments between `i` and `j`, read from the left in steps of whole marks. */
  function Nesting(text: Text, i: nat, j: nat): int
    requires i <= |text|
    decreases |text| - i
  {
    if i >= j || i == |text| then 0
    else if StartsWith(text, "/*", i) then 1 + Nesting(text, i + 2, j)
    else if StartsWith(text, "*/", i) then Nesting(text, i + 2, j) - 1
    else Nesting(text, i + 1, j)
  }

  /** A block comment ends where its openings and closings first balance, or is still open at the end of the text. */
  lemma {:induction false} BlocksEndBalanced(text: Text, i: nat, depth: nat)
    requires i <= |text|
    ensures var end := BlockEnd(text, i, depth);
            && (end < |text| ==> depth + Nesting(text, i, end) == 0)
            && depth + Nesting(text, i, end) >= 0
            && (forall j :: i <= j < end - 1 ==> depth + Nesting(text, i, j) > 0)
    decreases |text| - i
  {
    if i < |text| && depth > 0 {
      if StartsWith(text, "/*", i) {
        BlocksEndBalanced(text, i + 2, depth + 1);
      } else if StartsWith(text, "*/", i) {
        BlocksEndBalanced(text, i + 2, depth - 1);
      } else {
        BlocksEndBalanced(text, i + 1, depth);
      }
    }
  }

  // ----- masking -----

  function Blank(s: Text): (b: Text)
    ensures |b| == |s|
    ensures forall k :: 0 <= k < |s| ==> b[k] == if s[k] == '\n' then '\n' else ' '
  {
    seq(|s|, k requires 0 <= k < |s| => if s[k] == '\n' then '\n' else ' ')
  }

  /** The next position the scan looks at after `i`. */
  function NextPosition(text: Text, i: nat): (next: nat)
    requires i < |text|
    ensures i < next <= |text|
  {
    match TokenEnd(text, i)
    case None => i + 1
    case Some(end) => if end <= |text| then end else |text|
  }

  /** The text with everything before `i` left alone and the rest masked by a scan that starts at `i`. */
  function MaskFrom(text: Text, i: nat): (masked: Text)
    requires i <= |text|
    ensures |masked| == |text|
    decreases |text| - i
  {
    if i == |text| then text
    else
      var next := NextPosition(text, i);
      var rest := MaskFrom(text, next);
      if TokenEnd(text, i).None? then rest else rest[..i] + Blank(text[i..next]) + rest[next..]
  }

  function Mask(text: Text): Text {
    MaskFrom(text, 0)
  }

  predicate IsBlank(c: char) {
    c == ' ' || c == '\n'
  }

  /** What one step of the scan does to each position. */
  lemma {:induction false} MaskFromAt(text: Text, i: nat, k: nat)
    requires i <= |text| && k < |text|
    ensures k < i ==> MaskFrom(text, i)[k] == text[k]
    ensures i <= k < |text| ==>
              var next := NextPosition(text, i);
              MaskFrom(text, i)[k] == if k >= next then MaskFrom(text, next)[k]
                                      else if TokenEnd(text, i).None? then text[k]
                                      else if text[k] == '\n' then '\n' else ' '
    decreases |text| - i
  {
    hide TokenEnd;
    if i < |text| {
      var next := NextPosition(text, i);
      MaskFromAt(text, next, k);
      if k < next && TokenEnd(text, i).Some? {
        var rest := MaskFrom(text, next);
        assert |rest[..i]| == i && |Blank(text[i..next])| == next - i;
        if k >= i { assert text[i..next][k - i] == text[k]; }
      }
    }
  }

  // ----- the scan as the code runs it -----

  method SkipLine(text: Text, from: nat) returns (i: nat)
    requires from <= |text|
    ensures i == LineEnd(text, from)
  {
    i := from;
    while i < |text| && text[i] != '\n'
      invariant from <= i <= |text| && LineEnd(text, i) == LineEnd(text, from)
    {
      i := i + 1;
    }
  }

  method SkipBlock(text: Text, from: nat) returns (i: nat)
    requires from <= |text|
    ensures i == BlockEnd(text, from, 1)
  {
    i := from;
    var depth := 1;
    while i < |text| && depth > 0
      invariant from <= i <= |text| && BlockEnd(text, i, depth) == BlockEnd(text, from, 1)
      decreases |text| - i
    {
      if StartsWith(text, "/*", i) {
        depth, i := depth + 1, i + 2;
      } else if StartsWith(text, "*/", i) {
        depth, i := depth - 1, i + 2;
      } else {
        i := i + 1;
      }
    }
  }

  method SkipRaw(text: Text, from: nat, hashes: nat) returns (i: nat)
    requires from <= |text|
    ensures i == RawEnd(text, from, hashes)
  {
    i := from;
    while i < |text| && !TerminatorAt(text, i, hashes)
      invariant from <= i <= |text| && RawEnd(text, i, hashes) == RawEnd(text, from, hashes)
    {
      i := i + 1;
    }
    if i < |text| {
      i := i + 1 + hashes;
    }
  }

  method SkipString(text: Text, from: nat) returns (i: nat)
    requires from <= |text|
    ensures i == StringEnd(text, from)
  {
    i := from;
    while i < |text|
      invariant from <= i <= |text| + 1 && StringEnd(text, i) == StringEnd(text, from)
      decreases |text| + 1 - i
    {
      if text[i] == '\\' {
        i := i + 2;
      } else if text[i] == '"' {
        return i + 1;
      } else {
        i := i + 1;
      }
    }
  }

  /** Finds the token that starts at `i`, trying the kinds in the order of the code. */
  method ScanToken(text: Text, i: nat) returns (end: Option<nat>)
    requires i < |text|
    ensures end == TokenEnd(text, i)
  {
    var e: nat;
    if StartsWith(text, "//", i) {
      e := SkipLine(text, i + 2);
    } else if StartsWith(text, "/*", i) {
      e := SkipBlock(text, i + 2);
    } else if RawOpen(text, i).Some? {
      e := SkipRaw(text, RawOpen(text, i).value, RawHashes(text, i));
    } else if text[i] == '"' {
      e := SkipString(text, i + 1);
    } else {
      return CharEnd(text, i);
    }
    return Some(e);
  }

  /** Overwrites a copy of the text in place, token by token. */
  method MaskNonCode(text: Text) returns (masked: Text)
    ensures masked == Mask(text)
  {
    hide TokenEnd, MaskFrom;
    var chars := new char[|text|](k requires 0 <= k < |text| => text[k]);
    var i := 0;
    while i < |text|
      invariant i <= |text|
      invariant forall k :: 0 <= k < i ==> chars[k] == Mask(text)[k]
      invariant forall k :: i <= k < |text| ==> chars[k] == text[k] && MaskFrom(text, i)[k] == Mask(text)[k]
    {
      var end := ScanToken(text, i);
      var next := NextPosition(text, i);
      forall k | 0 <= k < |text|
        ensures i <= k < |text| ==>
                  MaskFrom(text, i)[k] == if k >= next then MaskFrom(text, next)[k]
                                          else if TokenEnd(text, i).None? then text[k]
                                          else if text[k] == '\n' then '\n' else ' '
      {
        MaskFromAt(text, i, k);
      }
      if end.Some? {
        var j := i;
        while j < next
          invariant i <= j <= next
          invariant forall k :: 0 <= k < i ==> chars[k] == Mask(text)[k]
          invariant forall k :: i <= k < j ==> chars[k] == if text[k] == '\n' then '\n' else ' '
          invariant forall k :: j <= k < |text| ==> chars[k] == text[k]
        {
          if chars[j] != '\n' {
            chars[j] := ' ';
          }
          j := j + 1;
        }
      }
      i := next;
    }
    masked := chars[..];
  }

  // ----- what masking keeps -----

  /** Length, newlines and unmasked characters stay; everything else becomes a blank. */
  lemma MaskingKeepsOffsets(text: Text)
    ensures |Mask(text)| == |text|
    ensures forall k :: 0 <= k < |text| ==>
              && (text[k] == '\n' ==> Mask(text)[k] == '\n')
              && (Mask(text)[k] == text[k] || (Mask(text)[k] == ' ' && text[k] != '\n'))
  {
    hide TokenEnd, MaskFrom;
    forall k | 0 <= k < |text|
      ensures Mask(text)[k] == text[k] || (Mask(text)[k] == ' ' && text[k] != '\n')
    {
      MaskedCharacter(text, 0, k);
    }
  }

  lemma {:induction false} MaskedCharacter(text: Text, i: nat, k: nat)
    requires i <= |text| && k < |text|
    ensures MaskFrom(text, i)[k] == text[k] || (MaskFrom(text, i)[k] == ' ' && text[k] != '\n')
    decreases |text| - i
  {
    hide TokenEnd, MaskFrom;
    MaskFromAt(text, i, k);
    if i < |text| {
      MaskedCharacter(text, NextPosition(text, i), k);
    }
  }

  /** The scan that is at `i` comes to look at `p`. */
  predicate Visits(text: Text, i: nat, p: nat)
    requires i <= |text|
    decreases |text| - i
  {
    i == p || (i < p && i < |text| && Visits(text, NextPosition(text, i), p))
  }

  /** What is neither blank nor a newline was looked at and starts no token. */
  lemma {:induction false} KeptIsOrdinary(text: Text, i: nat, p: nat)
    requires i <= p < |text| && !IsBlank(MaskFrom(text, i)[p])
    ensures Visits(text, i, p) && TokenEnd(text, p).None? && MaskFrom(text, i)[p] == text[p]
    decreases |text| - i
  {
    hide TokenEnd, MaskFrom;
    MaskFromAt(text, i, p);
    if NextPosition(text, i) <= p {
      KeptIsOrdinary(text, NextPosition(text, i), p);
    }
  }

  lemma {:induction false} ScanGoesOn(text: Text, i: nat, p: nat)
    requires i <= p < |text| && Visits(text, i, p) && TokenEnd(text, p).None?
    ensures Visits(text, i, p + 1)
    decreases |text| - i
  {
    hide TokenEnd;
    if i < p {
      ScanGoesOn(text, NextPosition(text, i), p);
    } else {
      assert NextPosition(text, i) == p + 1;
      assert p + 1 < |text| || p + 1 == |text|;
    }
  }

  /** A visited position keeps its character, or starts a token that is blanked to its end. */
  lemma {:induction false} VisitedIsKeptOrBlanked(text: Text, i: nat, p: nat, k: nat)
    requires i <= p <= k < |text| && Visits(text, i, p) && k < NextPosition(text, p)
    ensures if TokenEnd(text, p).None? then MaskFrom(text, i)[k] == text[k] else IsBlank(MaskFrom(text, i)[k])
    decreases |text| - i
  {
    hide TokenEnd, MaskFrom;
    MaskFromAt(text, i, k);
    if i < p {
      VisitedIsKeptOrBlanked(text, NextPosition(text, i), p, k);
    }
  }

  lemma TokensAreLong(text: Text, p: nat)
    requires p + 1 < |text| && TokenEnd(text, p).Some?
    ensures NextPosition(text, p) >= p + 2
  {
  }

  // ----- masking leaves no token behind -----

  /** `m` keeps what it does not blank, and blanks no single character between two kept ones. */
  ghost predicate Agrees(m: Text, text: Text) {
    && |m| == |text|
    && (forall p :: 0 <= p < |m| && !IsBlank(m[p]) ==> m[p] == text[p])
    && (forall p {:trigger m[p + 1]} :: 0 <= p < |m| - 2 && !IsBlank(m[p]) && !IsBlank(m[p + 2]) ==>
        m[p + 1] == text[p + 1])
  }

  lemma MaskAgrees(text: Text)
    ensures Agrees(Mask(text), text)
  {
    hide TokenEnd, MaskFrom, Visits;
    var m := Mask(text);
    forall p | 0 <= p < |m| && !IsBlank(m[p])
      ensures m[p] == text[p]
    {
      KeptIsOrdinary(text, 0, p);
    }
    forall p {:trigger m[p + 1]} | 0 <= p < |m| - 2 && !IsBlank(m[p]) && !IsBlank(m[p + 2])
      ensures m[p + 1] == text[p + 1]
    {
      KeptIsOrdinary(text, 0, p);
      ScanGoesOn(text, 0, p);
      VisitedIsKeptOrBlanked(text, 0, p + 1, p + 1);
      if TokenEnd(text, p + 1).Some? {
        TokensAreLong(text, p + 1);
        VisitedIsKeptOrBlanked(text, 0, p + 1, p + 2);
      }
    }
  }

  lemma KeptPrefix(m: Text, text: Text, pattern: Text, p: nat)
    requires Agrees(m, text) && StartsWith(m, pattern, p)
    requires forall c :: c in pattern ==> !IsBlank(c)
    ensures StartsWith(text, pattern, p)
  {
    forall k | 0 <= k < |pattern|
      ensures text[p..p + |pattern|][k] == pattern[k]
    {
      assert m[p + k] == m[p..p + |pattern|][k] == pattern[k];
      assert pattern[k] in pattern;
    }
  }

  lemma KeptRawPrefix(m: Text, text: Text, p: nat)
    requires Agrees(m, text) && RawPrefix(m, p).Some?
    ensures RawPrefix(text, p) == RawPrefix(m, p)
  {
    hide Agrees;
    if StartsWith(m, "br", p) {
      KeptPrefix(m, text, "br", p);
    } else {
      KeptPrefix(m, text, "r", p);
      assert text[p..p + 1][0] == 'r';
      assert p + 2 <= |text| ==> text[p..p + 2][0] == 'r';
    }
  }

  lemma KeptRawOpen(m: Text, text: Text, p: nat)
    requires Agrees(m, text) && RawOpen(m, p).Some?
    ensures RawOpen(text, p).Some?
  {
    hide RawPrefix, HashCount;
    KeptRawPrefix(m, text, p);
    KeptHashes(m, text, RawPrefix(m, p).value);
  }

  lemma KeptHashes(m: Text, text: Text, j: nat)
    requires Agrees(m, text) && j <= |m|
    requires j + HashCount(m, j) < |m| && m[j + HashCount(m, j)] == '"'
    ensures HashCount(text, j) == HashCount(m, j) && text[j + HashCount(m, j)] == '"'
  {
    var n, n' := HashCount(m, j), HashCount(text, j);
    assert forall k :: j <= k < j + n ==> m[k] == '#' && text[k] == '#';
    assert text[j + n] == '"';
  }

  lemma KeptUnicode(m: Text, text: Text, p: nat)
    requires Agrees(m, text) && UnicodeEnd(m, p).Some?
    ensures UnicodeEnd(text, p).Some?
  {
    KeptPrefix(m, text, "'\\u{", p);
    var n, n' := HexCount(m, p + 4), HexCount(text, p + 4);
    assert forall k :: p + 4 <= k < p + 4 + n ==> IsHex(m[k]) && !IsBlank(m[k]) && IsHex(text[k]);
    assert text[p + 4 + n] == '}' && text[p + 5 + n] == '\'';
  }

  lemma KeptCharEnd(m: Text, text: Text, p: nat)
    requires Agrees(m, text) && CharEnd(m, p).Some?
    ensures CharEnd(text, p).Some?
  {
    if UnicodeEnd(m, p).Some? {
      hide StartsWith;
      KeptUnicode(m, text, p);
    } else if HexEscapeEnd(m, p).Some? {
      hide UnicodeEnd;
      KeptPrefix(m, text, "'\\x", p);
    } else if EscapeEnd(m, p).Some? {
      hide UnicodeEnd, HexEscapeEnd;
      KeptPrefix(m, text, "'\\", p);
      assert m[p + 1] == m[p..p + 2][1] == '\\';
      var q := p + 1;
      assert !IsBlank(m[q]) && !IsBlank(m[q + 2]) && m[q + 1] == text[q + 1];
    } else {
      hide UnicodeEnd, HexEscapeEnd, EscapeEnd;
      assert m[p] == text[p] && m[p + 2] == text[p + 2] && m[p + 1] == text[p + 1];
    }
  }

  lemma TokensStartVisibly(text: Text, p: nat)
    requires p < |text| && TokenEnd(text, p).Some?
    ensures !IsBlank(text[p])
  {
    hide LineEnd, BlockEnd, RawEnd, StringEnd, HashCount, HexCount;
    if StartsWith(text, "//", p) { assert text[p..p + 2][0] == '/'; }
    else if StartsWith(text, "/*", p) { assert text[p..p + 2][0] == '/'; }
    else if StartsWith(text, "br", p) { assert text[p..p + 2][0] == 'b'; }
    else if StartsWith(text, "r", p) { assert text[p..p + 1][0] == 'r'; }
    else if UnicodeEnd(text, p).Some? { assert text[p..p + 4][0] == '\''; }
    else if HexEscapeEnd(text, p).Some? { assert text[p..p + 3][0] == '\''; }
    else if EscapeEnd(text, p).Some? { assert text[p..p + 2][0] == '\''; }
  }

  /** A token in the masked text starts where one starts in the text itself. */
  lemma TokensAreOld(m: Text, text: Text, p: nat)
    requires Agrees(m, text) && p < |m| && TokenEnd(m, p).Some?
    ensures TokenEnd(text, p).Some?
  {
    hide LineEnd, BlockEnd, RawEnd, StringEnd, HashCount, HexCount, CharEnd, RawOpen, Agrees;
    if StartsWith(m, "//", p) {
      KeptPrefix(m, text, "//", p);
    } else if StartsWith(m, "/*", p) {
      KeptPrefix(m, text, "/*", p);
    } else if RawOpen(m, p).Some? {
      KeptRawOpen(m, text, p);
    } else if m[p] == '"' {
      KeptCharacter(m, text, p);
    } else {
      KeptCharEnd(m, text, p);
    }
  }

  lemma KeptCharacter(m: Text, text: Text, p: nat)
    requires Agrees(m, text) && p < |m| && !IsBlank(m[p])
    ensures p < |text| && m[p] == text[p]
  {
  }

  /** After masking, no comment, string or character literal starts anywhere. */
  lemma MaskingLeavesNoToken(text: Text, p: nat)
    requires p < |Mask(text)|
    ensures TokenEnd(Mask(text), p).None?
  {
    hide TokenEnd, MaskFrom, Agrees, Visits;
    MaskAgrees(text);
    if TokenEnd(Mask(text), p).Some? {
      TokensStartVisibly(Mask(text), p);
      TokensAreOld(Mask(text), text, p);
      KeptIsOrdinary(text, 0, p);
    }
  }

  lemma {:induction false} NothingToMask(text: Text, i: nat)
    requires i <= |text| && forall p :: i <= p < |text| ==> TokenEnd(text, p).None?
    ensures MaskFrom(text, i) == text
    decreases |text| - i
  {
    hide TokenEnd;
    if i < |text| {
      NothingToMask(text, i + 1);
    }
  }

  /** Masking twice is masking once. */
  lemma MaskingIsIdempotent(text: Text)
    ensures Mask(Mask(text)) == Mask(text)
  {
    hide TokenEnd, MaskFrom;
    forall p | 0 <= p < |Mask(text)|
      ensures TokenEnd(Mask(text), p).None?
    {
      MaskingLeavesNoToken(text, p);
    }
    NothingToMask(Mask(text), 0);
  }

}
