/** Merging of book sections by heading level and by size (src/book.rs:63-288). */
module Book {
  import opened Text

  // ----- position tags -----

  predicate IsDigit(c: char) { '0' <= c <= '9' }

  function DigitRun(s: string): (n: nat)
    ensures n <= |s|
  {
    if s != "" && IsDigit(s[0]) then 1 + DigitRun(s[1..]) else 0
  }

  /** The length up to and including the first "##" on the line, or 0. */
  function ToTagEnd(s: string): (n: nat)
    ensures n <= |s|
  {
    if |s| < 2 || s[0] == '\n' then 0
    else if s[0] == '#' && s[1] == '#' then 2
    else
      var n := ToTagEnd(s[1..]);
      if n == 0 then 0 else n + 1
  }

  /** The length of a position tag `@@digits...##` at the start of the text, or 0. */
  function TagLength(s: string): (n: nat)
    ensures n <= |s|
  {
    if !("@@" <= s) then 0
    else
      var d := DigitRun(s[2..]);
      if d == 0 then 0
      else
        var n := ToTagEnd(s[2 + d..]);
        if n == 0 then 0 else 2 + d + n
  }

  /** `remove_tag`. */
  function RemoveTag(s: string): (r: string)
    ensures |r| <= |s|
    decreases |s|
  {
    if s == "" then ""
    else if TagLength(s) > 0 then RemoveTag(s[TagLength(s)..])
    else [s[0]] + RemoveTag(s[1..])
  }

  // ----- classification -----

  datatype Section = Section(text: string, layout: string)

  function BeforeAt(s: string): string {
    if s == "" || s[0] == '@' then "" else [s[0]] + BeforeAt(s[1..])
  }

  predicate Contains(s: string, part: string) {
    part <= s || (s != "" && Contains(s[1..], part))
  }

  /** Sections with a one-character or all-digit heading are dropped. */
  predicate Kept(s: Section) {
    var head := Trim(BeforeAt(s.text));
    |head| > 1 && exists c :: c in head && !IsDigit(c)
  }

  function Filtered(sections: seq<Section>): seq<Section> {
    if sections == [] then []
    else
      var n := |sections| - 1;
      Filtered(sections[..n]) + if Kept(sections[n]) then [sections[n]] else []
  }

  /** The heading patterns of a bullet family and the title test, as the regular expressions decide them. */
  datatype Patterns = Patterns(bullets: seq<string -> bool>, notTitle: string -> bool)

  /** The first pattern from `j` on that the text matches. */
  function FirstMatch(bullets: seq<string -> bool>, text: string, j: nat): (r: Option<nat>)
    requires j <= |bullets|
    ensures r.Some? ==> j <= r.value < |bullets|
    decreases |bullets| - j
  {
    if j == |bullets| then None
    else if bullets[j](text) then Some(j)
    else FirstMatch(bullets, text, j + 1)
  }

  /** The level of a section: a bullet, else a title, else body text. */
  function LevelOf(p: Patterns, s: Section): (l: nat)
    ensures l < |p.bullets| + 2
  {
    match FirstMatch(p.bullets, Trim(s.text), 0)
    case Some(j) => j
    case None =>
      if (Contains(s.layout, "title") || Contains(s.layout, "head")) && !p.notTitle(BeforeAt(s.text))
      then |p.bullets| else |p.bullets| + 1
  }

  function LevelList(p: Patterns, sections: seq<Section>): (ls: seq<nat>)
    ensures |ls| == |sections| && forall i :: 0 <= i < |ls| ==> ls[i] == LevelOf(p, sections[i])
  {
    seq(|sections|, i requires 0 <= i < |sections| => LevelOf(p, sections[i]))
  }

  /** The indices of level `l` among the first `n` sections. */
  function LevelIndices(ls: seq<nat>, l: nat, n: nat): seq<nat>
    requires n <= |ls|
  {
    if n == 0 then []
    else LevelIndices(ls, l, n - 1) + if ls[n - 1] == l then [n - 1] else []
  }

  ghost predicate LevelsOf(levels: seq<seq<nat>>, ls: seq<nat>, n: nat)
    requires n <= |ls|
  {
    forall l :: 0 <= l < |levels| ==> levels[l] == LevelIndices(ls, l, n)
  }

  method ChooseLevel(p: Patterns, s: Section) returns (level: nat)
    ensures level == LevelOf(p, s)
  {
    var j := 0;
    while j < |p.bullets|
      invariant j <= |p.bullets|
      invariant FirstMatch(p.bullets, Trim(s.text), 0) == FirstMatch(p.bullets, Trim(s.text), j)
    {
      if p.bullets[j](Trim(s.text)) {
        return j;
      }
      j := j + 1;
    }
    if (Contains(s.layout, "title") || Contains(s.layout, "head")) && !p.notTitle(BeforeAt(s.text)) {
      return |p.bullets|;
    }
    return |p.bullets| + 1;
  }

  /** The classification loop of `hierarchical_merge`, before the levels are reversed. */
  method Classify(p: Patterns, sections: seq<Section>) returns (levels: seq<seq<nat>>)
    ensures |levels| == |p.bullets| + 2
    ensures LevelsOf(levels, LevelList(p, sections), |sections|)
  {
    levels := seq(|p.bullets| + 2, _ => []);
    ghost var ls := LevelList(p, sections);
    for i := 0 to |sections|
      invariant |levels| == |p.bullets| + 2
      invariant LevelsOf(levels, ls, i)
    {
      var level := ChooseLevel(p, sections[i]);
      levels := levels[level := levels[level] + [i]];
    }
  }

  ghost predicate Ascending(arr: seq<nat>) {
    forall i, j :: 0 <= i < j < |arr| ==> arr[i] < arr[j]
  }

  lemma {:induction false} LevelIndicesCorrect(ls: seq<nat>, l: nat, n: nat)
    requires n <= |ls|
    ensures var arr := LevelIndices(ls, l, n);
            && Ascending(arr)
            && forall i :: i in arr <==> 0 <= i < n && ls[i] == l
  {
    if n > 0 {
      LevelIndicesCorrect(ls, l, n - 1);
      var before := LevelIndices(ls, l, n - 1);
      forall i | 0 <= i < |before| ensures before[i] < n - 1 { assert before[i] in before; }
    }
  }

  /** The levels partition the sections: each section is in the level of its class and in no other. */
  lemma LevelsPartition(levels: seq<seq<nat>>, p: Patterns, sections: seq<Section>, i: nat)
    requires |levels| == |p.bullets| + 2 && LevelsOf(levels, LevelList(p, sections), |sections|) && i < |sections|
    ensures forall l :: 0 <= l < |levels| ==> (i in levels[l] <==> l == LevelOf(p, sections[i]))
  {
    forall l: nat | l < |levels| ensures i in levels[l] <==> l == LevelOf(p, sections[i]) {
      LevelIndicesCorrect(LevelList(p, sections), l, |sections|);
    }
  }

  // ----- the search -----

  /** `binary_search`: the position of the greatest member below the target, or -1. The target is never a
      member, which the program asserts. */
  method BinarySearch(arr: seq<nat>, target: nat) returns (r: int)
    requires Ascending(arr) && target !in arr
    ensures -1 <= r < |arr|
    ensures forall i :: 0 <= i <= r ==> arr[i] < target
    ensures forall i :: r < i < |arr| ==> arr[i] > target
  {
    if |arr| == 0 {
      return -1;
    }
    if target > arr[|arr| - 1] {
      return |arr| - 1;
    }
    if target < arr[0] {
      return -1;
    }
    var s, e := 0, |arr|;
    assert arr[0] in arr && arr[|arr| - 1] in arr;
    while e - s > 1
      invariant 0 <= s < e <= |arr|
      invariant arr[s] < target
      invariant e < |arr| ==> target < arr[e]
    {
      var i := (e + s) / 2;
      assert arr[i] in arr;
      if target > arr[i] {
        s := i;
      } else {
        e := i;
      }
    }
    return s;
  }

  // ----- chunks of headings -----

  /** The greatest member of `arr` below `j`. */
  function Nearest(arr: seq<nat>, j: nat): (r: Option<nat>)
    ensures r.Some? ==> r.value in arr && r.value < j
  {
    if arr == [] then None
    else
      var n := |arr| - 1;
      if arr[n] < j then Some(arr[n]) else Nearest(arr[..n], j)
  }

  lemma {:induction false} NearestIsFound(arr: seq<nat>, j: nat, r: int)
    requires -1 <= r < |arr|
    requires forall i :: 0 <= i <= r ==> arr[i] < j
    requires forall i :: r < i < |arr| ==> arr[i] > j
    ensures Nearest(arr, j) == if r < 0 then None else Some(arr[r])
  {
    if arr != [] && r < |arr| - 1 {
      NearestIsFound(arr[..|arr| - 1], j, r);
    }
  }

  /** A found heading replaces the last one if it stands after it. */
  function Extend(ck: seq<nat>, idx: nat): (r: seq<nat>)
    requires ck != []
    ensures r != []
  {
    (if idx > ck[|ck| - 1] then ck[..|ck| - 1] else ck) + [idx]
  }

  /** The chunk of section `j` extended by the nearest section of each level from `ii` on. */
  function Chain(levels: seq<seq<nat>>, ii: nat, j: nat, ck: seq<nat>): (r: seq<nat>)
    requires ii <= |levels| && ck != []
    ensures r != []
    decreases |levels| - ii
  {
    if ii == |levels| then ck
    else
      match Nearest(levels[ii], j)
      case None => Chain(levels, ii + 1, j, ck)
      case Some(idx) => Chain(levels, ii + 1, j, Extend(ck, idx))
  }

  function Chunk(levels: seq<seq<nat>>, i: nat, j: nat): (r: seq<nat>)
    requires i < |levels|
    ensures r != []
  {
    if i + 1 == |levels| - 1 then [j] else Chain(levels, i + 1, j, [j])
  }

  datatype Walk = Walk(cks: seq<seq<nat>>, readed: set<nat>)

  function Elements(ck: seq<nat>): set<nat> {
    set i | i in ck
  }

  function Visit(levels: seq<seq<nat>>, i: nat, j: nat, w: Walk): Walk
    requires i < |levels|
  {
    if j in w.readed then w
    else
      var ck := Chunk(levels, i, j);
      Walk(w.cks + [ck], w.readed + {j} + Elements(ck))
  }

  /** The walk after the first `i` levels and `p` sections of the next one. */
  function WalkTo(levels: seq<seq<nat>>, i: nat, p: nat): Walk
    requires i <= |levels| && (if i == |levels| then p == 0 else p <= |levels[i]|)
    decreases i, p
  {
    if p > 0 then Visit(levels, i, levels[i][p - 1], WalkTo(levels, i, p - 1))
    else if i > 0 then WalkTo(levels, i - 1, |levels[i - 1]|)
    else Walk([], {})
  }

  /** The sections of different levels are different. */
  ghost predicate Disjoint(levels: seq<seq<nat>>) {
    forall l, m :: 0 <= l < m < |levels| ==> forall j :: j in levels[l] ==> j !in levels[m]
  }

  method BuildChain(levels: seq<seq<nat>>, i: nat, j: nat) returns (ck: seq<nat>)
    requires i < |levels| && j in levels[i] && Disjoint(levels)
    requires forall l :: 0 <= l < |levels| ==> Ascending(levels[l])
    ensures ck == Chain(levels, i + 1, j, [j])
  {
    ck := [j];
    for ii := i + 1 to |levels|
      invariant ck != [] && Chain(levels, i + 1, j, [j]) == Chain(levels, ii, j, ck)
    {
      var jj := BinarySearch(levels[ii], j);
      NearestIsFound(levels[ii], j, jj);
      if jj >= 0 {
        var idx := levels[ii][jj];
        if idx > ck[|ck| - 1] {
          ck := ck[..|ck| - 1];
        }
        ck := ck + [idx];
      }
    }
  }

  /** The chunk loop of `hierarchical_merge` over the reversed levels. */
  method BuildChunks(levels: seq<seq<nat>>, depth: nat) returns (cks: seq<seq<nat>>)
    requires Disjoint(levels) && forall l :: 0 <= l < |levels| ==> Ascending(levels[l])
    ensures cks == WalkTo(levels, if depth < |levels| then depth else |levels|, 0).cks
  {
    cks := [];
    var readed: set<nat> := {};
    var top := if depth < |levels| then depth else |levels|;
    for i := 0 to top
      invariant Walk(cks, readed) == WalkTo(levels, i, 0)
    {
      for p := 0 to |levels[i]|
        invariant Walk(cks, readed) == WalkTo(levels, i, p)
      {
        var j := levels[i][p];
        if j !in readed {
          readed := readed + {j};
          if i + 1 == |levels| - 1 {
            assert Elements([j]) == {j};
            cks := cks + [[j]];
          } else {
            var ck := BuildChain(levels, i, j);
            readed := readed + Elements(ck);
            cks := cks + [ck];
          }
        }
      }
    }
  }

  /** Some level from `ii` on holds the section. */
  ghost predicate InLaterLevel(levels: seq<seq<nat>>, ii: nat, x: nat) {
    exists l :: ii <= l < |levels| && x in levels[l]
  }

  lemma {:induction false} ChainShape(levels: seq<seq<nat>>, ii: nat, j: nat, ck: seq<nat>)
    requires ii <= |levels| && ck != [] && ck[0] == j
    requires forall i :: 1 <= i < |ck| ==> ck[i] < j
    ensures var r := Chain(levels, ii, j, ck);
            && r[0] == j
            && (forall i :: 1 <= i < |r| ==> r[i] < j)
            && (forall x :: x in r ==> x in ck || InLaterLevel(levels, ii, x))
    decreases |levels| - ii
  {
    if ii < |levels| {
      match Nearest(levels[ii], j)
      case None => ChainShape(levels, ii + 1, j, ck);
      case Some(idx) =>
        assert InLaterLevel(levels, ii, idx);
        ChainShape(levels, ii + 1, j, Extend(ck, idx));
    }
  }

  /** A chunk starts with its own section; the rest are earlier sections of deeper reversed levels. */
  lemma ChunkShape(levels: seq<seq<nat>>, i: nat, j: nat)
    requires i < |levels| && j in levels[i]
    ensures var ck := Chunk(levels, i, j);
            && ck[0] == j
            && (forall k :: 1 <= k < |ck| ==> ck[k] < j)
            && (forall x :: x in ck ==> InLaterLevel(levels, i, x))
  {
    ChainShape(levels, i + 1, j, [j]);
    assert InLaterLevel(levels, i, j);
  }

  /** The marked sections are those of the chunks. */
  ghost predicate MarksAreChunks(w: Walk) {
    forall x :: x in w.readed <==> exists c :: 0 <= c < |w.cks| && x in w.cks[c]
  }

  lemma VisitMarks(levels: seq<seq<nat>>, i: nat, j: nat, w: Walk)
    requires i < |levels| && j in levels[i] && MarksAreChunks(w)
    ensures var v := Visit(levels, i, j, w);
            MarksAreChunks(v) && j in v.readed && w.readed <= v.readed
  {
    if j !in w.readed {
      ChunkShape(levels, i, j);
      var ck, v := Chunk(levels, i, j), Visit(levels, i, j, w);
      assert j in ck;
      forall x ensures x in v.readed <==> exists c :: 0 <= c < |v.cks| && x in v.cks[c] {
        if c :| 0 <= c < |w.cks| && x in w.cks[c] { assert v.cks[c] == w.cks[c]; }
        if x in ck { assert v.cks[|w.cks|] == ck; }
      }
    }
  }

  ghost predicate Visited(levels: seq<seq<nat>>, i: nat, p: nat, readed: set<nat>)
    requires i <= |levels|
  {
    && (forall l, q :: 0 <= l < i && 0 <= q < |levels[l]| ==> levels[l][q] in readed)
    && (i < |levels| ==> forall q :: 0 <= q < p && q < |levels[i]| ==> levels[i][q] in readed)
  }

  lemma {:induction false} WalkVisits(levels: seq<seq<nat>>, i: nat, p: nat)
    requires i <= |levels| && (if i == |levels| then p == 0 else p <= |levels[i]|)
    ensures MarksAreChunks(WalkTo(levels, i, p))
    ensures Visited(levels, i, p, WalkTo(levels, i, p).readed)
    decreases i, p
  {
    if p > 0 {
      WalkVisits(levels, i, p - 1);
      VisitMarks(levels, i, levels[i][p - 1], WalkTo(levels, i, p - 1));
    } else if i > 0 {
      WalkVisits(levels, i - 1, |levels[i - 1]|);
    }
  }

  /** Every section of the first `depth` reversed levels occurs in some chunk. */
  lemma EverySectionCovered(levels: seq<seq<nat>>, depth: nat, l: nat, j: nat)
    requires l < |levels| && l < depth && j in levels[l]
    ensures var cks := WalkTo(levels, if depth < |levels| then depth else |levels|, 0).cks;
            exists c :: 0 <= c < |cks| && j in cks[c]
  {
    var top := if depth < |levels| then depth else |levels|;
    WalkVisits(levels, top, 0);
    var q :| 0 <= q < |levels[l]| && levels[l][q] == j;
    assert levels[l][q] in WalkTo(levels, top, 0).readed;
  }

  // ----- grouping -----

  predicate Bounded(ck: seq<nat>, n: nat) {
    forall i :: 0 <= i < |ck| ==> ck[i] < n
  }

  /** The texts of a chunk, in reversed order. */
  function Resolve(sections: seq<Section>, ck: seq<nat>): (r: seq<string>)
    requires Bounded(ck, |sections|)
    ensures |r| == |ck|
    ensures forall i :: 0 <= i < |r| ==> r[i] == sections[ck[|ck| - 1 - i]].text
  {
    seq(|ck|, i requires 0 <= i < |ck| => sections[ck[|ck| - 1 - i]].text)
  }

  const GROUP_LIMIT: nat := 218

  /** The groups so far, and the size of each: the characters of coalesced sections, or the limit for a
      chunk of several sections. */
  datatype Grouping = Grouping(res: seq<seq<string>>, num: seq<nat>)

  predicate WellFormed(g: Grouping) { |g.res| == |g.num| > 0 }

  function AddChunk(g: Grouping, ck: seq<string>): (r: Grouping)
    requires WellFormed(g)
    ensures WellFormed(r)
  {
    var last := |g.res| - 1;
    if |ck| == 1 then
      var n := |RemoveTag(ck[0])|;
      if n + g.num[last] < GROUP_LIMIT
      then Grouping(g.res[last := g.res[last] + [ck[0]]], g.num[last := g.num[last] + n])
      else Grouping(g.res + [ck], g.num + [n])
    else Grouping(g.res + [ck], g.num + [GROUP_LIMIT])
  }

  function Grouped(cks: seq<seq<string>>): (g: Grouping)
    ensures WellFormed(g)
  {
    if cks == [] then Grouping([[]], [0])
    else
      var n := |cks| - 1;
      AddChunk(Grouped(cks[..n]), cks[n])
  }

  method GroupChunks(cks: seq<seq<string>>) returns (res: seq<seq<string>>)
    ensures res == Grouped(cks).res
  {
    res := [[]];
    var num: seq<nat> := [0];
    for i := 0 to |cks|
      invariant Grouping(res, num) == Grouped(cks[..i])
    {
      var ck := cks[i];
      assert cks[..i + 1][..i] == cks[..i];
      if |ck| == 1 {
        var n := |RemoveTag(ck[0])|;
        var last := |res| - 1;
        if n + num[last] < GROUP_LIMIT {
          res := res[last := res[last] + [ck[0]]];
          num := num[last := num[last] + n];
        } else {
          res := res + [ck];
          num := num + [n];
        }
      } else {
        res := res + [ck];
        num := num + [GROUP_LIMIT];
      }
    }
    assert cks[..|cks|] == cks;
  }

  function Flatten(groups: seq<seq<string>>): seq<string> {
    if groups == [] then [] else Flatten(groups[..|groups| - 1]) + groups[|groups| - 1]
  }

  lemma FlattenSnoc(groups: seq<seq<string>>, last: seq<string>)
    ensures Flatten(groups + [last]) == Flatten(groups) + last
  {
    assert (groups + [last])[..|groups|] == groups;
  }

  /** Grouping keeps every text, in order. */
  lemma {:induction false} GroupingKeepsSequence(cks: seq<seq<string>>)
    ensures Flatten(Grouped(cks).res) == Flatten(cks)
  {
    if cks == [] {
      var none: seq<string> := [];
      assert [none][..0] == [] && Flatten([none]) == none;
    } else {
      var n := |cks| - 1;
      var g, ck := Grouped(cks[..n]), cks[n];
      GroupingKeepsSequence(cks[..n]);
      var front, last := g.res[..|g.res| - 1], g.res[|g.res| - 1];
      var r := Grouped(cks).res;
      if |r| == |g.res| {
        assert ck == [ck[0]];
        assert r == front + [last + ck];
        FlattenSnoc(front, last + ck);
        Associate(Flatten(front), last, ck);
      } else {
        FlattenSnoc(g.res, ck);
      }
    }
  }

  function Sizes(texts: seq<string>): nat {
    if texts == [] then 0 else Sizes(texts[..|texts| - 1]) + |RemoveTag(texts[|texts| - 1])|
  }

  /** One group: coalesced single sections below the limit, or one chunk by itself. */
  ghost predicate GroupOk(group: seq<string>, num: nat, cks: seq<seq<string>>) {
    || (num == Sizes(group) && (Sizes(group) < GROUP_LIMIT || |group| == 1) && forall t :: t in group ==> [t] in cks)
    || (num == GROUP_LIMIT && |group| != 1 && group in cks)
  }

  lemma SizesSnoc(texts: seq<string>, t: string)
    ensures Sizes(texts + [t]) == Sizes(texts) + |RemoveTag(t)|
  {
    assert (texts + [t])[..|texts|] == texts;
  }

  ghost predicate GroupsOk(g: Grouping, cks: seq<seq<string>>)
    requires WellFormed(g)
  {
    forall i :: 0 <= i < |g.res| ==> GroupOk(g.res[i], g.num[i], cks)
  }

  lemma GroupOkGrows(group: seq<string>, num: nat, cks: seq<seq<string>>, ck: seq<string>)
    requires GroupOk(group, num, cks)
    ensures GroupOk(group, num, cks + [ck])
  {
  }

  lemma JoinedOk(group: seq<string>, num: nat, cks: seq<seq<string>>, t: string)
    requires GroupOk(group, num, cks) && |RemoveTag(t)| + num < GROUP_LIMIT
    ensures GroupOk(group + [t], num + |RemoveTag(t)|, cks + [[t]])
  {
    SizesSnoc(group, t);
  }

  lemma NewGroupOk(cks: seq<seq<string>>, ck: seq<string>)
    ensures GroupOk(ck, if |ck| == 1 then |RemoveTag(ck[0])| else GROUP_LIMIT, cks + [ck])
  {
    if |ck| == 1 {
      assert ck == [] + [ck[0]];
      SizesSnoc([], ck[0]);
    }
  }

  lemma AddKeepsGroups(g: Grouping, cks: seq<seq<string>>, ck: seq<string>)
    requires WellFormed(g) && GroupsOk(g, cks)
    ensures GroupsOk(AddChunk(g, ck), cks + [ck])
  {
    var r, last := AddChunk(g, ck), |g.res| - 1;
    forall i | 0 <= i < |r.res| ensures GroupOk(r.res[i], r.num[i], cks + [ck]) {
      if i == |g.res| {
        NewGroupOk(cks, ck);
      } else if i == last && |r.res| == |g.res| {
        assert ck == [ck[0]];
        JoinedOk(g.res[last], g.num[last], cks, ck[0]);
      } else {
        GroupOkGrows(g.res[i], g.num[i], cks, ck);
      }
    }
  }

  /** Groups coalesced from single-section chunks stay below 218 characters without their tags; a longer
      section and every chunk of several sections is a group of its own. */
  lemma {:induction false} GroupsStaySmall(cks: seq<seq<string>>)
    ensures GroupsOk(Grouped(cks), cks)
  {
    if cks != [] {
      var n := |cks| - 1;
      GroupsStaySmall(cks[..n]);
      AddKeepsGroups(Grouped(cks[..n]), cks[..n], cks[n]);
      assert cks == cks[..n] + [cks[n]];
    }
  }

  /** The result starts with an empty group exactly when the first chunk does not fit it: it has several
      sections or 218 characters and more. */
  lemma {:induction false} FirstGroupEmpty(cks: seq<seq<string>>)
    requires forall c :: c in cks ==> c != []
    ensures Grouped(cks).res[0] == [] <==> cks == [] || |cks[0]| != 1 || |RemoveTag(cks[0][0])| >= GROUP_LIMIT
    ensures Grouped(cks).res[0] == [] && cks != [] ==> |Grouped(cks).res| > 1
  {
    if cks != [] {
      var n := |cks| - 1;
      forall c | c in cks[..n] ensures c != [] { assert c in cks; }
      FirstGroupEmpty(cks[..n]);
      assert cks[n] in cks;
      if n == 0 { assert cks[..n] == []; }
    }
  }

  // ----- the whole merge -----

  function Reversed(levels: seq<seq<nat>>): (r: seq<seq<nat>>)
    ensures |r| == |levels| && forall i :: 0 <= i < |r| ==> r[i] == levels[|levels| - 1 - i]
  {
    seq(|levels|, i requires 0 <= i < |levels| => levels[|levels| - 1 - i])
  }

  predicate InRange(cks: seq<seq<nat>>, n: nat) {
    forall c :: 0 <= c < |cks| ==> Bounded(cks[c], n)
  }

  lemma {:induction false} WalkInRange(levels: seq<seq<nat>>, i: nat, p: nat, n: nat)
    requires i <= |levels| && (if i == |levels| then p == 0 else p <= |levels[i]|)
    requires forall l :: 0 <= l < |levels| ==> forall x :: x in levels[l] ==> x < n
    ensures InRange(WalkTo(levels, i, p).cks, n)
    decreases i, p
  {
    if p > 0 {
      WalkInRange(levels, i, p - 1, n);
      ChunkShape(levels, i, levels[i][p - 1]);
      var ck := Chunk(levels, i, levels[i][p - 1]);
      forall k | 0 <= k < |ck| ensures ck[k] < n { assert ck[k] in ck; }
    } else if i > 0 {
      WalkInRange(levels, i - 1, |levels[i - 1]|, n);
    }
  }

  function ResolveAll(sections: seq<Section>, cks: seq<seq<nat>>): (r: seq<seq<string>>)
    requires InRange(cks, |sections|)
    ensures |r| == |cks| && forall c :: 0 <= c < |cks| ==> r[c] == Resolve(sections, cks[c])
  {
    seq(|cks|, c requires 0 <= c < |cks| => Resolve(sections, cks[c]))
  }

  /** The reversed levels of the kept sections. */
  ghost predicate LevelsFor(levels: seq<seq<nat>>, p: Patterns, kept: seq<Section>) {
    |levels| == |p.bullets| + 2 && LevelsOf(Reversed(levels), LevelList(p, kept), |kept|)
  }

  lemma LevelsUsable(levels: seq<seq<nat>>, p: Patterns, kept: seq<Section>)
    requires LevelsOf(levels, LevelList(p, kept), |kept|)
    ensures var r := Reversed(levels);
            && Disjoint(r)
            && (forall l :: 0 <= l < |r| ==> Ascending(r[l]))
            && (forall l :: 0 <= l < |r| ==> forall x :: x in r[l] ==> x < |kept|)
  {
    var ls := LevelList(p, kept);
    forall l: nat | l < |levels|
      ensures Ascending(levels[l]) && forall i :: i in levels[l] <==> 0 <= i < |kept| && ls[i] == l
    {
      LevelIndicesCorrect(ls, l, |kept|);
    }
  }

  /** `hierarchical_merge` for a chosen bullet family; without one there is no result. */
  method HierarchicalMerge(family: Option<Patterns>, sections: seq<Section>, depth: nat)
    returns (res: seq<seq<string>>, ghost levels: seq<seq<nat>>)
    ensures sections == [] || family.None? ==> res == []
    ensures sections != [] && family.Some? ==>
              var kept := Filtered(sections);
              var cks := WalkTo(levels, if depth < |levels| then depth else |levels|, 0).cks;
              && LevelsFor(levels, family.value, kept)
              && InRange(cks, |kept|)
              && res == if cks == [] then [] else Grouped(ResolveAll(kept, cks)).res
  {
    levels := [];
    if sections == [] || family.None? {
      return [], [];
    }
    var kept := FilterSections(sections);
    var forward := Classify(family.value, kept);
    LevelsUsable(forward, family.value, kept);
    var reversed := Reversed(forward);
    assert Reversed(reversed) == forward;
    levels := reversed;
    var cks := BuildChunks(reversed, depth);
    WalkInRange(reversed, if depth < |reversed| then depth else |reversed|, 0, |kept|);
    if cks == [] {
      return [], reversed;
    }
    res := GroupChunks(ResolveAll(kept, cks));
  }

  lemma {:induction false} FlattenMember(groups: seq<seq<string>>, c: nat, t: string)
    requires c < |groups| && t in groups[c]
    ensures t in Flatten(groups)
  {
    if c < |groups| - 1 { FlattenMember(groups[..|groups| - 1], c, t); }
  }

  /** Every kept section of the first `depth` reversed levels occurs in some group of the result. */
  lemma EverySectionInResult(levels: seq<seq<nat>>, kept: seq<Section>, depth: nat, l: nat, j: nat)
    requires l < |levels| && l < depth && j in levels[l] && j < |kept|
    requires InRange(WalkTo(levels, if depth < |levels| then depth else |levels|, 0).cks, |kept|)
    ensures var cks := WalkTo(levels, if depth < |levels| then depth else |levels|, 0).cks;
            kept[j].text in Flatten(Grouped(ResolveAll(kept, cks)).res)
  {
    var cks := WalkTo(levels, if depth < |levels| then depth else |levels|, 0).cks;
    EverySectionCovered(levels, depth, l, j);
    var c: nat :| c < |cks| && j in cks[c];
    var i :| 0 <= i < |cks[c]| && cks[c][i] == j;
    var texts := ResolveAll(kept, cks);
    assert texts[c][|cks[c]| - 1 - i] == kept[j].text;
    FlattenMember(texts, c, kept[j].text);
    GroupingKeepsSequence(texts);
  }

  method FilterSections(sections: seq<Section>) returns (kept: seq<Section>)
    ensures kept == Filtered(sections)
  {
    kept := [];
    for i := 0 to |sections|
      invariant kept == Filtered(sections[..i])
    {
      if Kept(sections[i]) {
        kept := kept + [sections[i]];
      }
      assert sections[..i + 1][..i] == sections[..i];
    }
    assert sections[..|sections|] == sections;
  }

  // ----- merging by size -----

  datatype Tagged = Tagged(text: string, pos: string)

  /** The chunks of `naive_merge` so far and their sizes. */
  datatype Naive = Naive(cks: seq<string>, sizes: seq<nat>)

  predicate NaiveOk(s: Naive) { |s.cks| == |s.sizes| > 0 }

  /** That many percent of `n`, rounded down. */
  function Percent(n: nat, percent: nat): (r: nat)
    requires percent <= 100
    ensures r <= n
    ensures percent == 100 ==> r == n
  {
    assert n * percent <= n * 100;
    n * percent / 100
  }

  /** What follows the first `100 - overlap` percent of the text without its tags. */
  function Tail(text: string, overlap: nat): string
    requires overlap <= 100
  {
    var plain := RemoveTag(text);
    plain[Percent(|plain|, 100 - overlap)..]
  }

  function NaiveStep(s: Naive, sec: Tagged, target: nat, overlap: nat): (r: Naive)
    requires NaiveOk(s) && overlap <= 100
    ensures NaiveOk(r)
  {
    var t := "\n" + sec.text;
    var size := |t|;
    var pos := if size < 8 then "" else sec.pos;
    var n := |s.cks| - 1;
    if s.cks[n] == "" || s.sizes[n] > Percent(target, 100 - overlap) then
      var u := Tail(s.cks[n], overlap) + t;
      Naive(s.cks + [if pos == "" || !Contains(u, pos) then u + pos else u], s.sizes + [size])
    else
      var u := if pos != "" && !Contains(s.cks[n], pos) then t + pos else t;
      Naive(s.cks[n := s.cks[n] + u], s.sizes[n := s.sizes[n] + size])
  }

  function NaiveMerged(sections: seq<Tagged>, target: nat, overlap: nat): (r: Naive)
    requires overlap <= 100
    ensures NaiveOk(r)
  {
    if sections == [] then Naive([""], [0])
    else
      var n := |sections| - 1;
      NaiveStep(NaiveMerged(sections[..n], target, overlap), sections[n], target, overlap)
  }

  /** `naive_merge` without custom delimiters. */
  method NaiveMerge(sections: seq<Tagged>, target: nat, overlap: nat) returns (cks: seq<string>)
    requires overlap <= 100
    ensures cks == if sections == [] then [] else NaiveMerged(sections, target, overlap).cks
  {
    if sections == [] {
      return [];
    }
    cks := [""];
    var sizes: seq<nat> := [0];
    for i := 0 to |sections|
      invariant Naive(cks, sizes) == NaiveMerged(sections[..i], target, overlap)
    {
      assert sections[..i + 1][..i] == sections[..i];
      cks, sizes := AddSection(cks, sizes, sections[i], target, overlap);
    }
    assert sections[..|sections|] == sections;
  }

  /** The loop body of `naive_merge`. */
  method AddSection(cks: seq<string>, sizes: seq<nat>, sec: Tagged, target: nat, overlap: nat)
    returns (cks': seq<string>, sizes': seq<nat>)
    requires NaiveOk(Naive(cks, sizes)) && overlap <= 100
    ensures Naive(cks', sizes') == NaiveStep(Naive(cks, sizes), sec, target, overlap)
  {
    cks', sizes' := cks, sizes;
    var t := "\n" + sec.text;
    var size := |t|;
    var pos := sec.pos;
    if size < 8 {
      pos := "";
    }
    var last := |cks| - 1;
    if cks[last] == "" || sizes[last] > Percent(target, 100 - overlap) {
      t := Tail(cks[last], overlap) + t;
      if pos == "" || !Contains(t, pos) {
        t := t + pos;
      }
      cks' := cks + [t];
      sizes' := sizes + [size];
    } else {
      if pos != "" && !Contains(cks[last], pos) {
        t := t + pos;
      }
      cks' := cks[last := cks[last] + t];
      sizes' := sizes[last := sizes[last] + size];
    }
  }

  function Prefixed(sections: seq<Tagged>): string {
    if sections == [] then ""
    else
      var n := |sections| - 1;
      Prefixed(sections[..n]) + ("\n" + sections[n].text)
  }

  lemma StepKeepsText(s: Naive, sec: Tagged, target: nat)
    requires NaiveOk(s) && sec.pos == ""
    ensures var r := NaiveStep(s, sec, target, 0);
            && Concat(r.cks) == Concat(s.cks) + ("\n" + sec.text)
            && (s.cks[0] == "" ==> r.cks[0] == "" && |r.cks| > 1)
  {
    var t := "\n" + sec.text;
    var front, last := s.cks[..|s.cks| - 1], s.cks[|s.cks| - 1];
    var r := NaiveStep(s, sec, target, 0).cks;
    if |r| > |s.cks| {
      WholeTail(last);
      assert "" + t + "" == t;
      assert r == s.cks + [t];
      ConcatSnoc(s.cks, t);
    } else {
      assert s.cks == front + [last] && r == front + [last + t];
      ConcatSnoc(front, last);
      ConcatSnoc(front, last + t);
      Associate(Concat(front), last, t);
    }
  }

  /** Without overlap and position tags the chunks hold the sections, each after a newline, and nothing
      else; the first chunk is empty. */
  lemma {:induction false} NaiveKeepsText(sections: seq<Tagged>, target: nat)
    requires forall i :: 0 <= i < |sections| ==> sections[i].pos == ""
    ensures var r := NaiveMerged(sections, target, 0);
            Concat(r.cks) == Prefixed(sections) && r.cks[0] == "" && (sections != [] ==> |r.cks| > 1)
  {
    if sections != [] {
      var n := |sections| - 1;
      NaiveKeepsText(sections[..n], target);
      StepKeepsText(NaiveMerged(sections[..n], target, 0), sections[n], target);
    }
  }

  lemma WholeTail(text: string)
    ensures Tail(text, 0) == ""
  {
  }

  /** Every chunk but the first and the last exceeds the threshold, and none but the first is empty. */
  ghost predicate Closed(s: Naive, threshold: nat) {
    && NaiveOk(s)
    && (forall c :: 0 < c < |s.sizes| - 1 ==> s.sizes[c] > threshold)
    && (forall c :: 0 < c < |s.cks| ==> s.cks[c] != "")
  }

  lemma StepClosed(s: Naive, sec: Tagged, target: nat, overlap: nat)
    requires overlap <= 100 && Closed(s, Percent(target, 100 - overlap))
    ensures Closed(NaiveStep(s, sec, target, overlap), Percent(target, 100 - overlap))
  {
    var r := NaiveStep(s, sec, target, overlap);
    var n := |s.cks| - 1;
    assert r.cks[|r.cks| - 1] != "";
    forall c | 0 < c < |r.sizes| - 1 ensures r.sizes[c] > Percent(target, 100 - overlap) {
      assert c <= n && r.sizes[c] == s.sizes[c];
    }
  }

  /** A chunk is closed only once it exceeds the target, and never grows after that. */
  lemma {:induction false} NaiveGreedy(sections: seq<Tagged>, target: nat, overlap: nat)
    requires overlap <= 100
    ensures Closed(NaiveMerged(sections, target, overlap), Percent(target, 100 - overlap))
  {
    if sections != [] {
      var n := |sections| - 1;
      NaiveGreedy(sections[..n], target, overlap);
      StepClosed(NaiveMerged(sections[..n], target, overlap), sections[n], target, overlap);
    }
  }

  /** One section becomes one chunk after the empty one. */
  lemma NaiveSingle(text: string, target: nat)
    ensures NaiveMerged([Tagged(text, "")], target, 0).cks == ["", "\n" + text]
  {
    assert [Tagged(text, "")][..0] == [];
    assert NaiveMerged([], target, 0) == Naive([""], [0]);
    WholeTail("");
    assert "" + ("\n" + text) + "" == "\n" + text;
  }
}
