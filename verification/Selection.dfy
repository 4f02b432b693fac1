/** Picking a diverse selection from ranked search results: no near duplicates, few from each repository. */
module Selection {
  import opened Options

  datatype Item = Item(
    id: string,
    path: string,
    parts: seq<string>, // the components of `path`
    page: int,
    lineStart: int,
    lineEnd: int,
    sourceGroup: string,
    words: set<string>) // of the text, in lower case

  // ----- repositories -----

  /** The component after the first `projects` or `tutorial` that is not the last. */
  function AfterRoot(parts: seq<string>): Option<string> {
    if |parts| < 2 then None
    else if parts[0] in {"projects", "tutorial"} then Some(parts[1])
    else AfterRoot(parts[1..])
  }

  function RepoName(item: Item): string {
    match AfterRoot(item.parts)
    case Some(name) => name
    case None => if |item.parts| > 0 then item.parts[0] else "unknown"
  }

  /** The repository is named just after the first `projects` or `tutorial` that anything follows. */
  predicate NamedAt(parts: seq<string>, i: nat) {
    && i + 1 < |parts| && (parts[i] == "projects" || parts[i] == "tutorial")
    && forall j :: 0 <= j < i ==> parts[j] != "projects" && parts[j] != "tutorial"
  }

  lemma {:induction false} RootsAreFound(parts: seq<string>, i: nat)
    ensures NamedAt(parts, i) ==> AfterRoot(parts) == Some(parts[i + 1])
    ensures AfterRoot(parts).None? ==> !NamedAt(parts, i)
  {
    if i > 0 && |parts| >= 2 {
      RootsAreFound(parts[1..], i - 1);
    }
  }

  lemma {:induction false} SomeRoot(parts: seq<string>) returns (i: nat)
    requires AfterRoot(parts).Some?
    ensures NamedAt(parts, i)
  {
    if parts[0] == "projects" || parts[0] == "tutorial" {
      i := 0;
    } else {
      i := SomeRoot(parts[1..]);
      i := i + 1;
    }
  }

  lemma RepoNameExactly(item: Item)
    ensures forall i :: NamedAt(item.parts, i) ==> RepoName(item) == item.parts[i + 1]
    ensures (forall i :: !NamedAt(item.parts, i)) ==>
              RepoName(item) == if item.parts == [] then "unknown" else item.parts[0]
  {
    forall i: nat
      ensures NamedAt(item.parts, i) ==> RepoName(item) == item.parts[i + 1]
    {
      RootsAreFound(item.parts, i);
    }
    if AfterRoot(item.parts).Some? {
      var i := SomeRoot(item.parts);
    }
  }

  // ----- near duplicates -----

  function Min(a: int, b: int): int {
    if a <= b then a else b
  }

  function Max(a: int, b: int): int {
    if a <= b then b else a
  }

  /** More than four fifths of the shorter range lies in the other. */
  predicate RangesOverlap(a: Item, b: Item) {
    var overlap := Max(0, Min(a.lineEnd, b.lineEnd) - Max(a.lineStart, b.lineStart) + 1);
    var shorter := Min(a.lineEnd - a.lineStart + 1, b.lineEnd - b.lineStart + 1);
    5 * overlap > 4 * Max(1, shorter)
  }

  /** The words in common are more than 95 hundredths of all words. */
  predicate WordsAgree(a: Item, b: Item) {
    a.words != {} && b.words != {} && 100 * |a.words * b.words| > 95 * |a.words + b.words|
  }

  predicate NearDup(existing: Item, candidate: Item) {
    || existing.id == candidate.id
    || (existing.path == candidate.path && existing.page == candidate.page && RangesOverlap(existing, candidate))
    || WordsAgree(candidate, existing)
  }

  lemma NearDupIsSymmetric(a: Item, b: Item)
    ensures NearDup(a, b) <==> NearDup(b, a)
  {
    assert a.words * b.words == b.words * a.words && a.words + b.words == b.words + a.words;
  }

  function Interval(from: int, to: int): (s: set<int>)
    ensures forall i :: i in s <==> from <= i <= to
    ensures |s| == Max(0, to - from + 1)
    decreases Max(0, to - from + 1)
  {
    if from > to then {} else Interval(from, to - 1) + {to}
  }

  /** The lines of an item, one by one. */
  function LinesOf(a: Item): set<int> {
    Interval(a.lineStart, a.lineEnd)
  }

  lemma CommonLinesAreCounted(a: Item, b: Item)
    ensures |LinesOf(a) * LinesOf(b)| == Max(0, Min(a.lineEnd, b.lineEnd) - Max(a.lineStart, b.lineStart) + 1)
  {
    assert LinesOf(a) * LinesOf(b) == Interval(Max(a.lineStart, b.lineStart), Min(a.lineEnd, b.lineEnd));
  }

  /** `part` is more than `share` of `whole`, in real numbers. */
  predicate Exceeds(part: int, whole: int, share: real) {
    whole > 0 && part as real / whole as real > share
  }

  lemma QuotientsCompare(part: int, whole: int, share: real)
    requires whole > 0
    ensures Exceeds(part, whole, share) <==> part as real > share * whole as real
  {
    var p, w := part as real, whole as real;
    assert p / w * w == p;
    if p / w > share {
      assert p / w * w > share * w;
    } else {
      assert p / w * w <= share * w;
    }
  }

  lemma LinesAreCounted(a: Item)
    ensures |LinesOf(a)| == Max(0, a.lineEnd - a.lineStart + 1)
  {
  }

  lemma FourFifths(common: int, length: int)
    requires 0 <= common <= Max(0, length)
    ensures 5 * common > 4 * Max(1, length) <==> Exceeds(common, Max(0, length), 0.8)
  {
    if length > 0 {
      QuotientsCompare(common, length, 0.8);
    }
    hide Exceeds;
  }

  lemma RangesOverlapExactly(a: Item, b: Item)
    ensures RangesOverlap(a, b) <==> Exceeds(|LinesOf(a) * LinesOf(b)|, Min(|LinesOf(a)|, |LinesOf(b)|), 0.8)
  {
    CommonLinesAreCounted(a, b);
    LinesAreCounted(a);
    LinesAreCounted(b);
    hide LinesOf, Interval, Exceeds;
    var length := Min(a.lineEnd - a.lineStart + 1, b.lineEnd - b.lineStart + 1);
    FourFifths(|LinesOf(a) * LinesOf(b)|, length);
    assert Max(0, length) == Min(|LinesOf(a)|, |LinesOf(b)|);
  }

  lemma WordsAgreeExactly(a: Item, b: Item)
    ensures WordsAgree(b, a) <==>
            a.words != {} && b.words != {} && Exceeds(|a.words * b.words|, |a.words + b.words|, 0.95)
  {
    assert a.words * b.words == b.words * a.words && a.words + b.words == b.words + a.words;
    if a.words != {} {
      var w :| w in a.words;
      assert w in a.words + b.words;
      QuotientsCompare(|a.words * b.words|, |a.words + b.words|, 0.95);
    }
    hide Exceeds;
  }

  /**
   Two items are near duplicates exactly if they are one by id, or parts of one page that share more than 0.8 of the
   lines of the shorter part, or share more than 0.95 of all their words.
   */
  lemma NearDupExactly(a: Item, b: Item)
    ensures NearDup(a, b) <==>
            || a.id == b.id
            || (a.path == b.path && a.page == b.page
                && Exceeds(|LinesOf(a) * LinesOf(b)|, Min(|LinesOf(a)|, |LinesOf(b)|), 0.8))
            || (a.words != {} && b.words != {} && Exceeds(|a.words * b.words|, |a.words + b.words|, 0.95))
  {
    RangesOverlapExactly(a, b);
    WordsAgreeExactly(a, b);
    hide Exceeds, LinesOf, RangesOverlap, WordsAgree, Min;
  }

  method IsNearDup(selected: seq<Item>, candidate: Item) returns (ret: bool)
    ensures ret <==> exists i :: 0 <= i < |selected| && NearDup(selected[i], candidate)
  {
    for i := 0 to |selected|
      invariant forall j :: 0 <= j < i ==> !NearDup(selected[j], candidate)
    {
      if NearDup(selected[i], candidate) {
        return true;
      }
    }
    return false;
  }

  // ----- what may be added -----

  const PROJECT := "project"

  function RepoCount(selected: seq<Item>, repo: string): nat {
    if |selected| == 0 then 0
    else
      var last := selected[|selected| - 1];
      RepoCount(selected[..|selected| - 1], repo)
      + if last.sourceGroup == PROJECT && RepoName(last) == repo then 1 else 0
  }

  function GroupCount(selected: seq<Item>, group: string): nat {
    if |selected| == 0 then 0
    else
      GroupCount(selected[..|selected| - 1], group) + if selected[|selected| - 1].sourceGroup == group then 1 else 0
  }

  /** Nothing selected is a near duplicate, and a project item's repository has room. */
  predicate CanAdd(selected: seq<Item>, candidate: Item, maxPerRepo: int) {
    && (forall i :: 0 <= i < |selected| ==> !NearDup(selected[i], candidate))
    && (candidate.sourceGroup == PROJECT ==> RepoCount(selected, RepoName(candidate)) < maxPerRepo)
  }

  // ----- the greedy selection -----

  datatype Need = Need(group: string, least: int)

  /** From here on, take whatever fits until the selection is full. */
  function Fill(selected: seq<Item>, candidates: seq<Item>, topK: int, maxPerRepo: int): seq<Item>
    decreases |candidates|
  {
    if |candidates| == 0 || |selected| >= topK then selected
    else if CanAdd(selected, candidates[0], maxPerRepo) then
      Fill(selected + [candidates[0]], candidates[1..], topK, maxPerRepo)
    else Fill(selected, candidates[1..], topK, maxPerRepo)
  }

  /** The same, from one group and until its need is met. */
  function FillGroup(selected: seq<Item>, candidates: seq<Item>, topK: int, need: Need, maxPerRepo: int): seq<Item>
    decreases |candidates|
  {
    if |candidates| == 0 || |selected| >= topK then selected
    else if !CanAdd(selected, candidates[0], maxPerRepo) then
      FillGroup(selected, candidates[1..], topK, need, maxPerRepo)
    else
      var more := selected + [candidates[0]];
      if GroupCount(more, need.group) >= need.least then more
      else FillGroup(more, candidates[1..], topK, need, maxPerRepo)
  }

  function OfGroup(ranked: seq<Item>, group: string): seq<Item> {
    if |ranked| == 0 then []
    else OfGroup(ranked[..|ranked| - 1], group)
         + if ranked[|ranked| - 1].sourceGroup == group then [ranked[|ranked| - 1]] else []
  }

  function FillNeeds(ranked: seq<Item>, topK: int, needs: seq<Need>, maxPerRepo: int): seq<Item> {
    if |needs| == 0 then []
    else
      var before := FillNeeds(ranked, topK, needs[..|needs| - 1], maxPerRepo);
      var need := needs[|needs| - 1];
      if need.least <= 0 then before else FillGroup(before, OfGroup(ranked, need.group), topK, need, maxPerRepo)
  }

  function Picked(ranked: seq<Item>, topK: int, needs: seq<Need>, maxPerRepo: int): seq<Item> {
    Fill(FillNeeds(ranked, topK, needs, maxPerRepo), ranked, topK, maxPerRepo)
  }

  // ----- the code -----

  function CountOf(counts: map<string, nat>, key: string): nat {
    if key in counts then counts[key] else 0
  }

  /** The counters agree with what they count. */
  ghost predicate Counted(selected: seq<Item>, grouped: map<string, nat>, repos: map<string, nat>) {
    && (forall g :: CountOf(grouped, g) == GroupCount(selected, g))
    && (forall r :: CountOf(repos, r) == RepoCount(selected, r))
  }

  const MAX_PER_REPO := 2

  class Picker {
    var selected: seq<Item>
    var groupedSelected: map<string, nat>
    var repoSelected: map<string, nat>
    const maxPerRepo: int

    ghost predicate Valid()
      reads this
    {
      Counted(selected, groupedSelected, repoSelected)
    }

    constructor (maxPerRepo: int)
      ensures Valid() && selected == [] && this.maxPerRepo == maxPerRepo
    {
      selected, groupedSelected, repoSelected := [], map[], map[];
      this.maxPerRepo := maxPerRepo;
    }

    method CanAddImpl(cand: Item) returns (ret: bool)
      requires Valid()
      ensures ret == CanAdd(selected, cand, maxPerRepo)
    {
      var dup := IsNearDup(selected, cand);
      if dup {
        return false;
      }
      if cand.sourceGroup == PROJECT && CountOf(repoSelected, RepoName(cand)) >= maxPerRepo {
        return false;
      }
      return true;
    }

    method Record(cand: Item)
      requires Valid()
      modifies this
      ensures Valid() && selected == old(selected) + [cand]
    {
      RecordingCounts(selected, groupedSelected, repoSelected, cand);
      selected := selected + [cand];
      groupedSelected := groupedSelected[cand.sourceGroup := CountOf(groupedSelected, cand.sourceGroup) + 1];
      if cand.sourceGroup == PROJECT {
        var repo := RepoName(cand);
        repoSelected := repoSelected[repo := CountOf(repoSelected, repo) + 1];
      }
    }

    method PickForGroup(candidates: seq<Item>, topK: int, need: Need)
      requires Valid()
      modifies this
      ensures Valid() && selected == FillGroup(old(selected), candidates, topK, need, maxPerRepo)
    {
      for i := 0 to |candidates|
        invariant Valid()
        invariant FillGroup(selected, candidates[i..], topK, need, maxPerRepo)
               == FillGroup(old(selected), candidates, topK, need, maxPerRepo)
      {
        if |selected| >= topK {
          return;
        }
        assert candidates[i..][1..] == candidates[i + 1..];
        var fits := CanAddImpl(candidates[i]);
        if fits {
          Record(candidates[i]);
          if CountOf(groupedSelected, need.group) >= need.least {
            return;
          }
        }
      }
    }

    method PickAny(ranked: seq<Item>, topK: int)
      requires Valid()
      modifies this
      ensures Valid() && selected == Fill(old(selected), ranked, topK, maxPerRepo)
    {
      for i := 0 to |ranked|
        invariant Valid()
        invariant Fill(selected, ranked[i..], topK, maxPerRepo) == Fill(old(selected), ranked, topK, maxPerRepo)
      {
        if |selected| >= topK {
          return;
        }
        assert ranked[i..][1..] == ranked[i + 1..];
        var fits := CanAddImpl(ranked[i]);
        if fits {
          Record(ranked[i]);
        }
      }
    }
  }

  lemma CountsAppend(selected: seq<Item>, c: Item, name: string)
    ensures GroupCount(selected + [c], name) == GroupCount(selected, name) + if c.sourceGroup == name then 1 else 0
    ensures RepoCount(selected + [c], name)
         == RepoCount(selected, name) + if c.sourceGroup == PROJECT && RepoName(c) == name then 1 else 0
  {
    assert (selected + [c])[..|selected + [c]| - 1] == selected;
  }

  lemma RecordingCounts(selected: seq<Item>, grouped: map<string, nat>, repos: map<string, nat>, cand: Item)
    requires Counted(selected, grouped, repos)
    ensures Counted(selected + [cand],
                    grouped[cand.sourceGroup := CountOf(grouped, cand.sourceGroup) + 1],
                    if cand.sourceGroup == PROJECT
                    then repos[RepoName(cand) := CountOf(repos, RepoName(cand)) + 1] else repos)
  {
    hide RepoName, GroupCount, RepoCount;
    forall name
      ensures GroupCount(selected + [cand], name)
           == GroupCount(selected, name) + if cand.sourceGroup == name then 1 else 0
      ensures RepoCount(selected + [cand], name)
           == RepoCount(selected, name) + if cand.sourceGroup == PROJECT && RepoName(cand) == name then 1 else 0
    {
      CountsAppend(selected, cand, name);
    }
  }

  method GroupCandidates(ranked: seq<Item>) returns (grouped: map<string, seq<Item>>)
    ensures forall g :: OfGroup(ranked, g) == if g in grouped then grouped[g] else []
  {
    grouped := map[];
    for i := 0 to |ranked|
      invariant forall g :: OfGroup(ranked[..i], g) == if g in grouped then grouped[g] else []
    {
      var g := ranked[i].sourceGroup;
      assert ranked[..i + 1][..i] == ranked[..i];
      grouped := grouped[g := (if g in grouped then grouped[g] else []) + [ranked[i]]];
    }
    assert ranked[..|ranked|] == ranked;
  }

  /** First the needs of each group in turn, then the best of what is left. */
  method PickDiversified(ranked: seq<Item>, topK: int, needs: seq<Need>, maxPerRepo: int := MAX_PER_REPO)
    returns (selected: seq<Item>)
    ensures selected == Picked(ranked, topK, needs, maxPerRepo)
  {
    var picker := new Picker(maxPerRepo);
    var grouped := GroupCandidates(ranked);
    for i := 0 to |needs|
      invariant fresh(picker) && picker.Valid()
      invariant picker.selected == FillNeeds(ranked, topK, needs[..i], maxPerRepo)
    {
      assert needs[..i + 1][..i] == needs[..i];
      var need := needs[i];
      if need.least > 0 {
        picker.PickForGroup(if need.group in grouped then grouped[need.group] else [], topK, need);
      }
    }
    assert needs[..|needs|] == needs;
    picker.PickAny(ranked, topK);
    return picker.selected;
  }

  // ----- what is promised of the selection -----

  /** No more than asked for, no near duplicates among them, no repository over its share, all of them candidates. */
  ghost predicate Diverse(selected: seq<Item>, topK: int, maxPerRepo: int, ranked: seq<Item>) {
    && |selected| <= Max(0, topK)
    && (forall i, j :: 0 <= i < j < |selected| ==> !NearDup(selected[i], selected[j]))
    && (forall repo :: RepoCount(selected, repo) <= Max(0, maxPerRepo))
    && (forall i :: 0 <= i < |selected| ==> selected[i] in ranked)
  }

  lemma AddingStaysDiverse(selected: seq<Item>, c: Item, topK: int, maxPerRepo: int, ranked: seq<Item>)
    requires Diverse(selected, topK, maxPerRepo, ranked)
    requires |selected| < topK && CanAdd(selected, c, maxPerRepo) && c in ranked
    ensures Diverse(selected + [c], topK, maxPerRepo, ranked)
  {
    hide NearDup, RepoName, RepoCount;
    forall repo
      ensures RepoCount(selected + [c], repo) <= Max(0, maxPerRepo)
    {
      CountsAppend(selected, c, repo);
    }
  }

  lemma {:induction false} FillStaysDiverse(selected: seq<Item>, candidates: seq<Item>, topK: int, maxPerRepo: int,
                                            ranked: seq<Item>)
    requires Diverse(selected, topK, maxPerRepo, ranked)
    requires forall c :: c in candidates ==> c in ranked
    ensures Diverse(Fill(selected, candidates, topK, maxPerRepo), topK, maxPerRepo, ranked)
    decreases |candidates|
  {
    hide Diverse, CanAdd;
    if |candidates| > 0 && |selected| < topK {
      if CanAdd(selected, candidates[0], maxPerRepo) {
        AddingStaysDiverse(selected, candidates[0], topK, maxPerRepo, ranked);
        FillStaysDiverse(selected + [candidates[0]], candidates[1..], topK, maxPerRepo, ranked);
      } else {
        FillStaysDiverse(selected, candidates[1..], topK, maxPerRepo, ranked);
      }
    }
  }

  lemma {:induction false} FillGroupStaysDiverse(selected: seq<Item>, candidates: seq<Item>, topK: int, need: Need,
                                                 maxPerRepo: int, ranked: seq<Item>)
    requires Diverse(selected, topK, maxPerRepo, ranked)
    requires forall c :: c in candidates ==> c in ranked
    ensures Diverse(FillGroup(selected, candidates, topK, need, maxPerRepo), topK, maxPerRepo, ranked)
    decreases |candidates|
  {
    hide Diverse, CanAdd, GroupCount;
    if |candidates| > 0 && |selected| < topK {
      if CanAdd(selected, candidates[0], maxPerRepo) {
        AddingStaysDiverse(selected, candidates[0], topK, maxPerRepo, ranked);
        FillGroupStaysDiverse(selected + [candidates[0]], candidates[1..], topK, need, maxPerRepo, ranked);
      } else {
        FillGroupStaysDiverse(selected, candidates[1..], topK, need, maxPerRepo, ranked);
      }
    }
  }

  lemma {:induction false} GroupMembers(ranked: seq<Item>, group: string)
    ensures forall c :: c in OfGroup(ranked, group) <==> c in ranked && c.sourceGroup == group
  {
    if |ranked| > 0 {
      GroupMembers(ranked[..|ranked| - 1], group);
      assert ranked == ranked[..|ranked| - 1] + [ranked[|ranked| - 1]];
    }
  }

  lemma {:induction false} NeedsStayDiverse(ranked: seq<Item>, topK: int, needs: seq<Need>, maxPerRepo: int)
    ensures Diverse(FillNeeds(ranked, topK, needs, maxPerRepo), topK, maxPerRepo, ranked)
  {
    if |needs| > 0 {
      hide Diverse, CanAdd, GroupCount;
      var need := needs[|needs| - 1];
      NeedsStayDiverse(ranked, topK, needs[..|needs| - 1], maxPerRepo);
      GroupMembers(ranked, need.group);
      FillGroupStaysDiverse(FillNeeds(ranked, topK, needs[..|needs| - 1], maxPerRepo), OfGroup(ranked, need.group),
                            topK, need, maxPerRepo, ranked);
    }
  }

  lemma PickedIsDiverse(ranked: seq<Item>, topK: int, needs: seq<Need>, maxPerRepo: int)
    ensures Diverse(Picked(ranked, topK, needs, maxPerRepo), topK, maxPerRepo, ranked)
  {
    hide Diverse;
    NeedsStayDiverse(ranked, topK, needs, maxPerRepo);
    FillStaysDiverse(FillNeeds(ranked, topK, needs, maxPerRepo), ranked, topK, maxPerRepo, ranked);
  }

  // ----- maximality -----

  lemma {:induction false} RepoCountGrows(a: seq<Item>, b: seq<Item>, repo: string)
    ensures RepoCount(a, repo) <= RepoCount(a + b, repo)
  {
    if |b| == 0 {
      assert a + b == a;
    } else {
      RepoCountGrows(a, b[..|b| - 1], repo);
      assert (a + b)[..|a + b| - 1] == a + b[..|b| - 1];
    }
  }

  lemma {:induction false} GroupCountGrows(a: seq<Item>, b: seq<Item>, group: string)
    ensures GroupCount(a, group) <= GroupCount(a + b, group)
  {
    if |b| == 0 {
      assert a + b == a;
    } else {
      GroupCountGrows(a, b[..|b| - 1], group);
      assert (a + b)[..|a + b| - 1] == a + b[..|b| - 1];
    }
  }

  /** What is blocked stays blocked. */
  lemma BlockedForGood(a: seq<Item>, b: seq<Item>, c: Item, maxPerRepo: int)
    requires !CanAdd(a, c, maxPerRepo) && a <= b
    ensures !CanAdd(b, c, maxPerRepo)
  {
    hide NearDup, RepoName, RepoCount;
    RepoCountGrows(a, b[|a|..], RepoName(c));
    assert a + b[|a|..] == b;
    assert forall i :: 0 <= i < |a| ==> b[i] == a[i];
  }

  lemma SelectedIsBlocked(a: seq<Item>, c: Item, maxPerRepo: int)
    requires c in a
    ensures !CanAdd(a, c, maxPerRepo)
  {
    var i :| 0 <= i < |a| && a[i] == c;
    assert NearDup(a[i], c);
  }

  lemma {:induction false} FillExtends(selected: seq<Item>, candidates: seq<Item>, topK: int, maxPerRepo: int)
    ensures selected <= Fill(selected, candidates, topK, maxPerRepo)
    decreases |candidates|
  {
    hide CanAdd;
    if |candidates| > 0 && |selected| < topK {
      FillExtends(selected + [candidates[0]], candidates[1..], topK, maxPerRepo);
      FillExtends(selected, candidates[1..], topK, maxPerRepo);
    }
  }

  lemma {:induction false} FillGroupExtends(selected: seq<Item>, candidates: seq<Item>, topK: int, need: Need,
                                            maxPerRepo: int)
    ensures selected <= FillGroup(selected, candidates, topK, need, maxPerRepo)
    decreases |candidates|
  {
    hide CanAdd, GroupCount;
    if |candidates| > 0 && |selected| < topK {
      FillGroupExtends(selected + [candidates[0]], candidates[1..], topK, need, maxPerRepo);
      FillGroupExtends(selected, candidates[1..], topK, need, maxPerRepo);
    }
  }

  /** The selection is full, or blocks every candidate it was offered. */
  lemma {:induction false} FillIsMaximal(selected: seq<Item>, candidates: seq<Item>, topK: int, maxPerRepo: int)
    ensures var r := Fill(selected, candidates, topK, maxPerRepo);
            |r| >= topK || forall c :: c in candidates ==> !CanAdd(r, c, maxPerRepo)
    decreases |candidates|
  {
    hide CanAdd;
    if |candidates| > 0 && |selected| < topK {
      var c := candidates[0];
      var next := if CanAdd(selected, c, maxPerRepo) then selected + [c] else selected;
      FillIsMaximal(next, candidates[1..], topK, maxPerRepo);
      FillExtends(next, candidates[1..], topK, maxPerRepo);
      var r := Fill(next, candidates[1..], topK, maxPerRepo);
      if CanAdd(selected, c, maxPerRepo) {
        assert c == next[|selected|];
        SelectedIsBlocked(next, c, maxPerRepo);
      }
      BlockedForGood(next, r, c, maxPerRepo);
      assert candidates == [c] + candidates[1..];
    }
  }

  lemma {:induction false} FillGroupMeetsNeed(selected: seq<Item>, candidates: seq<Item>, topK: int, need: Need,
                                              maxPerRepo: int)
    ensures var r := FillGroup(selected, candidates, topK, need, maxPerRepo);
            || |r| >= topK
            || GroupCount(r, need.group) >= need.least
            || forall c :: c in candidates ==> !CanAdd(r, c, maxPerRepo)
    decreases |candidates|
  {
    hide CanAdd, GroupCount;
    if |candidates| > 0 && |selected| < topK {
      var c := candidates[0];
      var next := if CanAdd(selected, c, maxPerRepo) then selected + [c] else selected;
      if next == selected || GroupCount(next, need.group) < need.least {
        FillGroupMeetsNeed(next, candidates[1..], topK, need, maxPerRepo);
        FillGroupExtends(next, candidates[1..], topK, need, maxPerRepo);
        if CanAdd(selected, c, maxPerRepo) {
          assert c == next[|selected|];
          SelectedIsBlocked(next, c, maxPerRepo);
        }
        BlockedForGood(next, FillGroup(next, candidates[1..], topK, need, maxPerRepo), c, maxPerRepo);
        assert candidates == [c] + candidates[1..];
      }
    }
  }

  /** A group's need is met, or the selection is full, or it leaves no room for any other candidate of the group. */
  ghost predicate Served(selected: seq<Item>, ranked: seq<Item>, topK: int, need: Need, maxPerRepo: int) {
    || |selected| >= topK
    || GroupCount(selected, need.group) >= need.least
    || forall c :: c in ranked && c.sourceGroup == need.group ==> !CanAdd(selected, c, maxPerRepo)
  }

  lemma ServedForGood(a: seq<Item>, b: seq<Item>, ranked: seq<Item>, topK: int, need: Need, maxPerRepo: int)
    requires Served(a, ranked, topK, need, maxPerRepo) && a <= b
    ensures Served(b, ranked, topK, need, maxPerRepo)
  {
    hide CanAdd;
    GroupCountGrows(a, b[|a|..], need.group);
    assert a + b[|a|..] == b;
    forall c | c in ranked && c.sourceGroup == need.group && !CanAdd(a, c, maxPerRepo)
      ensures !CanAdd(b, c, maxPerRepo)
    {
      BlockedForGood(a, b, c, maxPerRepo);
    }
  }

  lemma {:induction false} NeedsAreServed(ranked: seq<Item>, topK: int, needs: seq<Need>, maxPerRepo: int, i: nat)
    requires i < |needs|
    ensures Served(FillNeeds(ranked, topK, needs, maxPerRepo), ranked, topK, needs[i], maxPerRepo)
    decreases |needs|
  {
    hide CanAdd, FillGroup;
    var n := |needs| - 1;
    var before, need := FillNeeds(ranked, topK, needs[..n], maxPerRepo), needs[n];
    var candidates := OfGroup(ranked, need.group);
    var after := FillNeeds(ranked, topK, needs, maxPerRepo);
    if i == n {
      hide OfGroup;
      GroupMembers(ranked, need.group);
      FillGroupMeetsNeed(before, candidates, topK, need, maxPerRepo);
      assert GroupCount(after, need.group) >= 0;
    } else {
      NeedsAreServed(ranked, topK, needs[..n], maxPerRepo, i);
      FillGroupExtends(before, candidates, topK, need, maxPerRepo);
      ServedForGood(before, after, ranked, topK, needs[i], maxPerRepo);
    }
  }

  /** If the selection falls short, every candidate left out is blocked by it; and every group is served. */
  lemma PickedIsMaximal(ranked: seq<Item>, topK: int, needs: seq<Need>, maxPerRepo: int)
    ensures var r := Picked(ranked, topK, needs, maxPerRepo);
            && (|r| < topK ==> forall c :: c in ranked ==> !CanAdd(r, c, maxPerRepo))
            && (forall i :: 0 <= i < |needs| ==> Served(r, ranked, topK, needs[i], maxPerRepo))
  {
    hide CanAdd, Fill, FillNeeds;
    var before := FillNeeds(ranked, topK, needs, maxPerRepo);
    FillIsMaximal(before, ranked, topK, maxPerRepo);
    FillExtends(before, ranked, topK, maxPerRepo);
    forall i | 0 <= i < |needs|
      ensures Served(Picked(ranked, topK, needs, maxPerRepo), ranked, topK, needs[i], maxPerRepo)
    {
      NeedsAreServed(ranked, topK, needs, maxPerRepo, i);
      ServedForGood(before, Picked(ranked, topK, needs, maxPerRepo), ranked, topK, needs[i], maxPerRepo);
    }
  }

  // ----- in the order of the ranking -----

  predicate InRepo(item: Item, repo: string) {
    item.sourceGroup == "project" && RepoName(item) == repo
  }

  /** Where in the selection the project items of one repository are. */
  function OfRepo(selected: seq<Item>, repo: string): set<int> {
    set i | 0 <= i < |selected| && InRepo(selected[i], repo)
  }

  /** There is room, no near duplicate before it, and its repository has not had its share. */
  ghost predicate Fits(selected: seq<Item>, c: Item, topK: int, maxPerRepo: int) {
    && |selected| < topK
    && (forall i :: 0 <= i < |selected| ==> !NearDup(selected[i], c))
    && (c.sourceGroup == "project" ==> |OfRepo(selected, RepoName(c))| < maxPerRepo)
  }

  /** Where in the selection the items of one group are. */
  function OfSourceGroup(selected: seq<Item>, group: string): set<int> {
    set i | 0 <= i < |selected| && selected[i].sourceGroup == group
  }

  /** As soon as something was taken for a group, its need may be met. */
  ghost predicate Enough(base: seq<Item>, selected: seq<Item>, need: Option<Need>) {
    need.Some? && |selected| > |base| && |OfSourceGroup(selected, need.value.group)| >= need.value.least
  }

  /** What is selected once the first `n` of the ranking had their turn, all of them or those of the group in need. */
  ghost function InTurn(base: seq<Item>, ranked: seq<Item>, topK: int, maxPerRepo: int, need: Option<Need>, n: nat)
    : seq<Item>
    requires n <= |ranked|
  {
    if n == 0 then base
    else
      var before, c := InTurn(base, ranked, topK, maxPerRepo, need, n - 1), ranked[n - 1];
      if && Fits(before, c, topK, maxPerRepo)
         && (need.Some? ==> c.sourceGroup == need.value.group)
         && !Enough(base, before, need)
      then before + [c] else before
  }

  /** Each group in need has its turn, one after another. */
  ghost function GroupsInTurn(ranked: seq<Item>, topK: int, maxPerRepo: int, needs: seq<Need>, n: nat): seq<Item>
    requires n <= |needs|
  {
    if n == 0 then []
    else
      var before := GroupsInTurn(ranked, topK, maxPerRepo, needs, n - 1);
      if needs[n - 1].least <= 0 then before
      else InTurn(before, ranked, topK, maxPerRepo, Some(needs[n - 1]), |ranked|)
  }

  lemma OneMoreOfRepo(before: seq<Item>, last: Item, repo: string)
    ensures OfRepo(before + [last], repo) == OfRepo(before, repo) + if InRepo(last, repo) then {|before|} else {}
  {
    hide InRepo;
    var all := before + [last];
    forall i
      ensures i in OfRepo(all, repo) <==>
              i in OfRepo(before, repo) || (i == |before| && InRepo(last, repo))
    {
      if 0 <= i < |before| { assert all[i] == before[i]; }
    }
  }

  lemma {:induction false} RepoCountIsANumber(selected: seq<Item>, repo: string)
    ensures RepoCount(selected, repo) == |OfRepo(selected, repo)|
  {
    if |selected| == 0 {
      assert OfRepo(selected, repo) == {};
    } else {
      var n := |selected| - 1;
      RepoCountIsANumber(selected[..n], repo);
      OneMoreOfRepo(selected[..n], selected[n], repo);
      assert selected[..n] + [selected[n]] == selected;
      assert n !in OfRepo(selected[..n], repo);
      hide RepoName;
    }
  }

  lemma OneMoreOfGroup(before: seq<Item>, last: Item, group: string)
    ensures OfSourceGroup(before + [last], group)
         == OfSourceGroup(before, group) + if last.sourceGroup == group then {|before|} else {}
  {
    var all := before + [last];
    forall i
      ensures i in OfSourceGroup(all, group) <==>
              i in OfSourceGroup(before, group) || (i == |before| && last.sourceGroup == group)
    {
      if 0 <= i < |before| { assert all[i] == before[i]; }
    }
  }

  lemma {:induction false} GroupCountIsANumber(selected: seq<Item>, group: string)
    ensures GroupCount(selected, group) == |OfSourceGroup(selected, group)|
  {
    if |selected| == 0 {
      assert OfSourceGroup(selected, group) == {};
    } else {
      var n := |selected| - 1;
      GroupCountIsANumber(selected[..n], group);
      OneMoreOfGroup(selected[..n], selected[n], group);
      assert selected[..n] + [selected[n]] == selected;
      assert n !in OfSourceGroup(selected[..n], group);
    }
  }

  lemma FitsIfAddable(selected: seq<Item>, c: Item, topK: int, maxPerRepo: int)
    ensures Fits(selected, c, topK, maxPerRepo) <==> |selected| < topK && CanAdd(selected, c, maxPerRepo)
  {
    RepoCountIsANumber(selected, RepoName(c));
    hide NearDup, RepoName, RepoCount, OfRepo;
  }

  /** The last candidate is taken exactly if it can be added to what the others came to. */
  lemma {:induction false} FillAppend(base: seq<Item>, cs: seq<Item>, c: Item, topK: int, maxPerRepo: int)
    ensures var r := Fill(base, cs, topK, maxPerRepo);
            Fill(base, cs + [c], topK, maxPerRepo)
            == if |r| < topK && CanAdd(r, c, maxPerRepo) then r + [c] else r
    decreases |cs|
  {
    hide CanAdd;
    if |cs| == 0 {
      assert cs + [c] == [c] && [c][1..] == [];
    } else {
      assert (cs + [c])[0] == cs[0] && (cs + [c])[1..] == cs[1..] + [c];
      FillAppend(base + [cs[0]], cs[1..], c, topK, maxPerRepo);
      FillAppend(base, cs[1..], c, topK, maxPerRepo);
    }
  }

  predicate Met(base: seq<Item>, r: seq<Item>, need: Need) {
    |r| > |base| && GroupCount(r, need.group) >= need.least
  }

  /** The same for one group, as long as it has not enough. */
  lemma {:induction false} FillGroupAppend(base: seq<Item>, cs: seq<Item>, c: Item, topK: int, need: Need,
                                           maxPerRepo: int)
    ensures var r := FillGroup(base, cs, topK, need, maxPerRepo);
            FillGroup(base, cs + [c], topK, need, maxPerRepo)
            == if |r| < topK && CanAdd(r, c, maxPerRepo) && !Met(base, r, need) then r + [c] else r
    decreases |cs|
  {
    hide CanAdd, GroupCount;
    if |cs| == 0 {
      assert cs + [c] == [c] && [c][1..] == [];
    } else {
      assert (cs + [c])[0] == cs[0] && (cs + [c])[1..] == cs[1..] + [c];
      var more := base + [cs[0]];
      FillGroupAppend(more, cs[1..], c, topK, need, maxPerRepo);
      FillGroupExtends(more, cs[1..], topK, need, maxPerRepo);
      FillGroupAppend(base, cs[1..], c, topK, need, maxPerRepo);
      var r := FillGroup(more, cs[1..], topK, need, maxPerRepo);
      if |r| == |more| {
        assert r == more;
      }
    }
  }

  lemma {:induction false} FillFollowsRank(base: seq<Item>, ranked: seq<Item>, topK: int, maxPerRepo: int, n: nat)
    requires n <= |ranked|
    ensures Fill(base, ranked[..n], topK, maxPerRepo) == InTurn(base, ranked, topK, maxPerRepo, None, n)
  {
    if n > 0 {
      FillFollowsRank(base, ranked, topK, maxPerRepo, n - 1);
      hide CanAdd, Fits, Fill;
      FillAppend(base, ranked[..n - 1], ranked[n - 1], topK, maxPerRepo);
      assert ranked[..n] == ranked[..n - 1] + [ranked[n - 1]];
      FitsIfAddable(Fill(base, ranked[..n - 1], topK, maxPerRepo), ranked[n - 1], topK, maxPerRepo);
    }
  }

  lemma MetIsEnough(base: seq<Item>, r: seq<Item>, need: Need)
    ensures Met(base, r, need) <==> Enough(base, r, Some(need))
  {
    GroupCountIsANumber(r, need.group);
    hide GroupCount, OfSourceGroup;
  }

  lemma OfGroupStep(ranked: seq<Item>, group: string, n: nat)
    requires 0 < n <= |ranked|
    ensures OfGroup(ranked[..n], group)
         == OfGroup(ranked[..n - 1], group) + if ranked[n - 1].sourceGroup == group then [ranked[n - 1]] else []
  {
    assert ranked[..n][..n - 1] == ranked[..n - 1];
  }

  lemma {:induction false} FillGroupFollowsRank(base: seq<Item>, ranked: seq<Item>, topK: int, need: Need,
                                                maxPerRepo: int, n: nat)
    requires n <= |ranked|
    ensures FillGroup(base, OfGroup(ranked[..n], need.group), topK, need, maxPerRepo)
         == InTurn(base, ranked, topK, maxPerRepo, Some(need), n)
  {
    if n > 0 {
      FillGroupFollowsRank(base, ranked, topK, need, maxPerRepo, n - 1);
      OfGroupStep(ranked, need.group, n);
      hide CanAdd, Fits, FillGroup, OfGroup, Enough, Met;
      var before := OfGroup(ranked[..n - 1], need.group);
      var r := FillGroup(base, before, topK, need, maxPerRepo);
      FillGroupAppend(base, before, ranked[n - 1], topK, need, maxPerRepo);
      assert before + [] == before;
      FitsIfAddable(r, ranked[n - 1], topK, maxPerRepo);
      MetIsEnough(base, r, need);
    }
  }

  lemma {:induction false} NeedsFollowRank(ranked: seq<Item>, topK: int, needs: seq<Need>, maxPerRepo: int, n: nat)
    requires n <= |needs|
    ensures FillNeeds(ranked, topK, needs[..n], maxPerRepo) == GroupsInTurn(ranked, topK, maxPerRepo, needs, n)
  {
    if n > 0 {
      NeedsFollowRank(ranked, topK, needs, maxPerRepo, n - 1);
      hide FillGroup, InTurn, OfGroup;
      assert needs[..n][..n - 1] == needs[..n - 1];
      FillGroupFollowsRank(FillNeeds(ranked, topK, needs[..n - 1], maxPerRepo), ranked, topK, needs[n - 1], maxPerRepo,
                           |ranked|);
      assert ranked[..|ranked|] == ranked;
    }
  }

  /**
   The selection goes through the ranking in order, once for each group in need and then once for all: an item is
   taken exactly if there is room, nothing selected is a near duplicate of it, its repository has not had its share,
   and, while it is a group's turn, it is of that group and the group has not enough.
   */
  lemma PickedFollowsRank(ranked: seq<Item>, topK: int, needs: seq<Need>, maxPerRepo: int)
    ensures var first := GroupsInTurn(ranked, topK, maxPerRepo, needs, |needs|);
            Picked(ranked, topK, needs, maxPerRepo) == InTurn(first, ranked, topK, maxPerRepo, None, |ranked|)
  {
    hide Fill, FillNeeds, InTurn, GroupsInTurn;
    NeedsFollowRank(ranked, topK, needs, maxPerRepo, |needs|);
    assert needs[..|needs|] == needs;
    FillFollowsRank(FillNeeds(ranked, topK, needs, maxPerRepo), ranked, topK, maxPerRepo, |ranked|);
    assert ranked[..|ranked|] == ranked;
  }

  // ----- asking for more -----

  lemma {:induction false} FillIsMonotone(selected: seq<Item>, candidates: seq<Item>, topK: int, more: int,
                                          maxPerRepo: int)
    requires topK <= more
    ensures Fill(selected, candidates, topK, maxPerRepo) <= Fill(selected, candidates, more, maxPerRepo)
    decreases |candidates|
  {
    hide CanAdd;
    if |candidates| > 0 {
      if |selected| >= topK {
        FillExtends(selected, candidates, more, maxPerRepo);
      } else if CanAdd(selected, candidates[0], maxPerRepo) {
        FillIsMonotone(selected + [candidates[0]], candidates[1..], topK, more, maxPerRepo);
      } else {
        FillIsMonotone(selected, candidates[1..], topK, more, maxPerRepo);
      }
    }
  }

  lemma {:induction false} NoNeedsNothingPicked(ranked: seq<Item>, topK: int, needs: seq<Need>, maxPerRepo: int)
    requires forall i :: 0 <= i < |needs| ==> needs[i].least <= 0
    ensures FillNeeds(ranked, topK, needs, maxPerRepo) == []
  {
    if |needs| > 0 {
      NoNeedsNothingPicked(ranked, topK, needs[..|needs| - 1], maxPerRepo);
    }
  }

  /** Without minimums, asking for more only appends. */
  lemma PickedIsMonotone(ranked: seq<Item>, topK: int, more: int, needs: seq<Need>, maxPerRepo: int)
    requires topK <= more && forall i :: 0 <= i < |needs| ==> needs[i].least <= 0
    ensures Picked(ranked, topK, needs, maxPerRepo) <= Picked(ranked, more, needs, maxPerRepo)
  {
    NoNeedsNothingPicked(ranked, topK, needs, maxPerRepo);
    NoNeedsNothingPicked(ranked, more, needs, maxPerRepo);
    FillIsMonotone([], ranked, topK, more, maxPerRepo);
  }

}
