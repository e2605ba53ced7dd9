/** Splitting text at paragraph and sentence boundaries (src/compiler.rs:394-431, 594-641 and
    src/chunk/tokenizer.rs:9-38). */
module Slumber {
  import opened Text
  import opened Book

  // ----- tokens -----

  predicate IsCjk(c: char) {
    || '\U{4E00}' <= c <= '\U{9FFF}'
    || '\U{3400}' <= c <= '\U{4DBF}'
    || '\U{20000}' <= c <= '\U{2A6DF}'
    || '\U{3040}' <= c <= '\U{309F}'
    || '\U{30A0}' <= c <= '\U{30FF}'
    || '\U{AC00}' <= c <= '\U{D7AF}'
  }

  predicate IsAsciiPunctuation(c: char) {
    '!' <= c <= '/' || ':' <= c <= '@' || '[' <= c <= '`' || '{' <= c <= '~'
  }

  predicate IsLatin(c: char) {
    !IsCjk(c) && !IsWhitespace(c) && !IsAsciiPunctuation(c)
  }

  function Count(s: string, p: char -> bool): (n: nat) {
    if s == "" then 0 else (if p(s[0]) then 1 else 0) + Count(s[1..], p)
  }

  lemma {:induction false} CountConcat(s: string, t: string, p: char -> bool)
    ensures Count(s + t, p) == Count(s, p) + Count(t, p)
  {
    if s == "" {
      assert s + t == t;
    } else {
      CountConcat(s[1..], t, p);
      assert (s + t)[1..] == s[1..] + t;
    }
  }

  /** `token_count`: two tokens for three CJK characters, one for four others, rounded up. */
  function TokenCount(text: string): (n: nat) {
    var n := (2 * Count(text, IsCjk) + 2) / 3 + (Count(text, IsLatin) + 3) / 4;
    if n == 0 && !Blank(text) then 1 else n
  }

  /** A longer text never counts fewer tokens. */
  lemma TokenCountMonotone(s: string, t: string)
    ensures TokenCount(s) <= TokenCount(s + t)
  {
    CountConcat(s, t, IsCjk);
    CountConcat(s, t, IsLatin);
    BlankConcat(s, t);
  }

  ghost function Positions(s: string, p: char -> bool): set<nat> {
    set i: nat | i < |s| && p(s[i])
  }

  lemma {:induction false} CountPositions(s: string, p: char -> bool)
    ensures Count(s, p) == |Positions(s, p)|
  {
    if s == "" {
      assert Positions(s, p) == {};
    } else {
      CountPositions(s[1..], p);
      var later := set i: nat | 0 < i < |s| && p(s[i]);
      assert Positions(s, p) == if p(s[0]) then {0} + later else later;
      ShiftedSize(Positions(s[1..], p), later);
    }
  }

  lemma {:induction false} ShiftedSize(a: set<nat>, b: set<nat>)
    requires forall i: nat :: i in a <==> i + 1 in b
    requires 0 !in b
    ensures |a| == |b|
  {
    if b == {} {
      assert forall i: nat :: i in a ==> i + 1 in b;
    } else {
      var x :| x in b;
      ShiftedSize(a - {x - 1}, b - {x});
      assert x - 1 in a;
    }
  }

  /** A text counts two tokens for every three ideographs, kana or syllables and one for every four other characters,
      both rounded up, and at least one if it is not blank; white space and ASCII punctuation count nothing. */
  lemma TokensOfText(text: string, wide: nat, narrow: nat)
    requires wide == |Positions(text, IsCjk)| && narrow == |Positions(text, IsLatin)|
    ensures exists a: nat, b: nat ::
              && 3 * a >= 2 * wide && 3 * a < 2 * wide + 3 && 4 * b >= narrow && 4 * b < narrow + 4
              && TokenCount(text) == if a + b == 0 && !Blank(text) then 1 else a + b
  {
    CountPositions(text, IsCjk);
    CountPositions(text, IsLatin);
    var a, b := (2 * wide + 2) / 3, (narrow + 3) / 4;
    assert 3 * a >= 2 * wide && 3 * a < 2 * wide + 3 && 4 * b >= narrow && 4 * b < narrow + 4;
  }

  // ----- one level of boundaries -----

  const MIN_SPLIT: nat := 24

  /** The length of the longest delimiter the text starts with, or 0. */
  function DelimiterAt(rest: string, delimiters: seq<string>): (n: nat)
    ensures n <= |rest|
    ensures n > 0 ==> rest[..n] in delimiters
    ensures forall d :: d in delimiters && d <= rest ==> |d| <= n
  {
    if delimiters == [] then 0
    else
      var n := DelimiterAt(rest, delimiters[1..]);
      var d := delimiters[0];
      assert d <= rest ==> rest[..|d|] == d;
      if d <= rest && |d| > n then |d| else n
  }

  /** A part is closed at the first boundary where it has `MIN_SPLIT` characters. */
  function Parts(pending: string, rest: string, delimiters: seq<string>): seq<string>
    decreases |rest|
  {
    if rest == "" then (if pending == "" then [] else [pending])
    else
      var n := DelimiterAt(rest, delimiters);
      if n == 0 then Parts(pending + rest[..1], rest[1..], delimiters)
      else if |pending + rest[..n]| >= MIN_SPLIT then [pending + rest[..n]] + Parts("", rest[n..], delimiters)
      else Parts(pending + rest[..n], rest[n..], delimiters)
  }

  function TrimmedSize(): string -> nat { s => |Trim(s)| }

  /** Parts with little text are appended to the part before them. */
  function MergeShort(parts: seq<string>, size: string -> nat): (r: seq<string>) {
    if parts == [] then []
    else
      var m, last := MergeShort(parts[..|parts| - 1], size), parts[|parts| - 1];
      if m != [] && size(last) < MIN_SPLIT then m[..|m| - 1] + [m[|m| - 1] + last] else m + [last]
  }

  function Filter(parts: seq<string>, keep: string -> bool): (r: seq<string>) {
    if parts == [] then []
    else
      var last := parts[|parts| - 1];
      Filter(parts[..|parts| - 1], keep) + if keep(last) then [last] else []
  }

  function NotBlank(): string -> bool { s => !Blank(s) }

  function DropBlank(parts: seq<string>): seq<string> {
    Filter(parts, NotBlank())
  }

  function NonEmptyOf(delimiters: seq<string>): seq<string> {
    if delimiters == [] then []
    else (if delimiters[0] == "" then [] else [delimiters[0]]) + NonEmptyOf(delimiters[1..])
  }

  function SplitLevel(text: string, delimiters: seq<string>): seq<string> {
    var usable := NonEmptyOf(delimiters);
    if text == "" then []
    else if usable == [] then [text]
    else DropBlank(MergeShort(Parts("", text, usable), TrimmedSize()))
  }

  /** The boundary loop of `split_slumber_level`. */
  method CloseParts(text: string, delimiters: seq<string>) returns (parts: seq<string>)
    ensures parts == Parts("", text, delimiters)
  {
    parts := [];
    var pending, rest := "", text;
    while rest != ""
      invariant parts + Parts(pending, rest, delimiters) == Parts("", text, delimiters)
      decreases |rest|
    {
      var n := DelimiterAt(rest, delimiters);
      if n == 0 {
        pending, rest := pending + rest[..1], rest[1..];
      } else {
        pending, rest := pending + rest[..n], rest[n..];
        if |pending| >= MIN_SPLIT {
          Associate(parts, [pending], Parts("", rest, delimiters));
          parts, pending := parts + [pending], "";
        }
      }
    }
    if pending != "" {
      parts := parts + [pending];
    }
  }

  /** The merge loop of `split_slumber_level`. */
  method JoinShort(parts: seq<string>) returns (merged: seq<string>)
    ensures merged == MergeShort(parts, TrimmedSize())
  {
    merged := [];
    for i := 0 to |parts|
      invariant merged == MergeShort(parts[..i], TrimmedSize())
    {
      assert parts[..i + 1][..i] == parts[..i];
      if merged != [] && |Trim(parts[i])| < MIN_SPLIT {
        var last := |merged| - 1;
        merged := merged[..last] + [merged[last] + parts[i]];
      } else {
        merged := merged + [parts[i]];
      }
    }
    assert parts[..|parts|] == parts;
  }

  /** `split_slumber_level`. */
  method SplitSlumberLevel(text: string, delimiters: seq<string>) returns (merged: seq<string>)
    ensures merged == SplitLevel(text, delimiters)
  {
    if text == "" {
      return [];
    }
    var usable := NonEmptyOf(delimiters);
    if usable == [] {
      return [text];
    }
    var parts := CloseParts(text, usable);
    merged := JoinShort(parts);
    merged := DropBlank(merged);
  }

  lemma {:induction false} PartsConcat(pending: string, rest: string, delimiters: seq<string>)
    ensures Concat(Parts(pending, rest, delimiters)) == pending + rest
    decreases |rest|
  {
    if rest == "" {
      assert Concat([pending]) == pending && pending + rest == pending;
    } else {
      var n := DelimiterAt(rest, delimiters);
      var k := if n == 0 then 1 else n;
      assert rest == rest[..k] + rest[k..];
      Associate(pending, rest[..k], rest[k..]);
      if n > 0 && |pending + rest[..n]| >= MIN_SPLIT {
        PartsConcat("", rest[n..], delimiters);
        assert "" + rest[n..] == rest[n..];
        ConcatAppend([pending + rest[..n]], Parts("", rest[n..], delimiters));
        assert Concat([pending + rest[..n]]) == pending + rest[..n];
      } else {
        PartsConcat(pending + rest[..k], rest[k..], delimiters);
      }
    }
  }

  lemma {:induction false} MergeShortConcat(parts: seq<string>, size: string -> nat)
    ensures Concat(MergeShort(parts, size)) == Concat(parts)
  {
    if parts != [] {
      var front, last := parts[..|parts| - 1], parts[|parts| - 1];
      MergeShortConcat(front, size);
      assert parts == front + [last];
      ConcatSnoc(front, last);
      var m := MergeShort(front, size);
      if m != [] && size(last) < MIN_SPLIT {
        var before, tail := m[..|m| - 1], m[|m| - 1];
        assert m == before + [tail];
        ConcatSnoc(before, tail);
        ConcatSnoc(before, tail + last);
        Associate(Concat(before), tail, last);
      } else {
        ConcatSnoc(m, last);
      }
    }
  }

  lemma FilterSnoc(front: seq<string>, last: string, keep: string -> bool)
    ensures Filter(front + [last], keep) == if keep(last) then Filter(front, keep) + [last] else Filter(front, keep)
  {
    assert (front + [last])[..|front|] == front;
  }

  lemma {:induction false} DropBlankDense(parts: seq<string>)
    ensures Dense(Concat(DropBlank(parts))) == Dense(Concat(parts))
    ensures forall p :: p in DropBlank(parts) ==> !Blank(p)
  {
    if parts != [] {
      var front, last := parts[..|parts| - 1], parts[|parts| - 1];
      DropBlankDense(front);
      assert parts == front + [last];
      FilterSnoc(front, last, NotBlank());
      ConcatSnoc(front, last);
      DenseConcat(Concat(front), last);
      if Blank(last) {
        DenseBlank(last);
      } else {
        ConcatSnoc(DropBlank(front), last);
        DenseConcat(Concat(DropBlank(front)), last);
      }
    }
  }

  /** Splitting loses nothing but white space, and returns no blank part. */
  lemma SplitLevelDense(text: string, delimiters: seq<string>)
    requires !Blank(text)
    ensures Dense(Concat(SplitLevel(text, delimiters))) == Dense(text)
    ensures forall p :: p in SplitLevel(text, delimiters) ==> !Blank(p)
  {
    var usable := NonEmptyOf(delimiters);
    if usable == [] {
      assert Concat([text]) == text;
    } else {
      var parts := Parts("", text, usable);
      PartsConcat("", text, usable);
      assert "" + text == text;
      MergeShortConcat(parts, TrimmedSize());
      DropBlankDense(MergeShort(parts, TrimmedSize()));
    }
  }

  // ----- sizes and boundaries -----

  lemma {:induction false} TrimStartConcat(a: string, b: string)
    requires !Blank(a)
    ensures TrimStart(a + b) == TrimStart(a) + b
  {
    if IsWhitespace(a[0]) {
      assert a == [a[0]] + a[1..];
      TrimStartConcat(a[1..], b);
      assert (a + b)[1..] == a[1..] + b;
    }
  }

  lemma {:induction false} TrimEndConcat(a: string, b: string)
    ensures |TrimEnd(a + b)| >= |TrimEnd(a)|
    decreases |b|
  {
    if b == "" {
      assert a + b == a;
    } else {
      var n := |b| - 1;
      assert (a + b)[..|a + b| - 1] == a + b[..n];
      if IsWhitespace(b[n]) { TrimEndConcat(a, b[..n]); }
    }
  }

  /** Appending never shortens the trimmed text. */
  lemma TrimConcat(a: string, b: string)
    ensures |Trim(a + b)| >= |Trim(a)|
  {
    TrimEmptyIsBlank(a);
    if !Blank(a) {
      TrimStartConcat(a, b);
      TrimEndConcat(TrimStart(a), b);
    }
  }

  /** All parts but the first have `MIN_SPLIT` characters. */
  ghost predicate LongTail(parts: seq<string>, size: string -> nat) {
    forall i :: 0 < i < |parts| ==> size(parts[i]) >= MIN_SPLIT
  }

  ghost predicate Grows(size: string -> nat) {
    forall a, b :: size(a + b) >= size(a)
  }

  lemma {:induction false} MergeShortLong(parts: seq<string>, size: string -> nat)
    requires Grows(size)
    ensures LongTail(MergeShort(parts, size), size)
  {
    if parts != [] {
      MergeShortLong(parts[..|parts| - 1], size);
      var m, last := MergeShort(parts[..|parts| - 1], size), parts[|parts| - 1];
      if m != [] { assert size(m[|m| - 1] + last) >= size(m[|m| - 1]); }
    }
  }

  lemma TrimmedSizeGrows()
    ensures Grows(TrimmedSize())
  {
    forall a, b ensures TrimmedSize()(a + b) >= TrimmedSize()(a) { TrimConcat(a, b); }
  }

  lemma {:induction false} FilterRest(first: string, rest: seq<string>, keep: string -> bool)
    requires forall i :: 0 <= i < |rest| ==> keep(rest[i])
    ensures Filter([first] + rest, keep) == (if keep(first) then [first] else []) + rest
  {
    if rest == [] {
      FilterSnoc([], first, keep);
      assert [first] + rest == [] + [first];
    } else {
      var front, last := rest[..|rest| - 1], rest[|rest| - 1];
      FilterRest(first, front, keep);
      assert [first] + rest == ([first] + front) + [last];
      FilterSnoc([first] + front, last, keep);
      assert rest == front + [last];
    }
  }

  /** Only the first part can be blank, so dropping blank parts drops at most it. */
  lemma DropBlankFirst(parts: seq<string>)
    requires LongTail(parts, TrimmedSize()) && parts != []
    ensures DropBlank(parts) == (if NotBlank()(parts[0]) then [parts[0]] else []) + parts[1..]
  {
    var rest, keep := parts[1..], NotBlank();
    forall i | 0 <= i < |rest| ensures keep(rest[i]) {
      assert TrimmedSize()(parts[i + 1]) >= MIN_SPLIT;
      TrimEmptyIsBlank(rest[i]);
    }
    FilterRest(parts[0], rest, keep);
    assert parts == [parts[0]] + rest;
  }

  lemma MergedLong(parts: seq<string>)
    ensures LongTail(MergeShort(parts, TrimmedSize()), TrimmedSize())
  {
    TrimmedSizeGrows();
    MergeShortLong(parts, TrimmedSize());
  }

  /** No returned part but possibly the first has less than `MIN_SPLIT` trimmed characters. */
  lemma SplitPartsLong(text: string, delimiters: seq<string>)
    ensures LongTail(SplitLevel(text, delimiters), TrimmedSize())
  {
    var usable := NonEmptyOf(delimiters);
    if text != "" && usable != [] {
      var merged := MergeShort(Parts("", text, usable), TrimmedSize());
      MergedLong(Parts("", text, usable));
      if merged != [] { DropBlankFirst(merged); }
    }
  }

  predicate EndsAtBoundary(part: string, delimiters: seq<string>) {
    exists d :: d in delimiters && d != "" && |d| <= |part| && part[|part| - |d|..] == d
  }

  function Ending(delimiters: seq<string>): string -> bool {
    part => EndsAtBoundary(part, delimiters)
  }

  ghost predicate CutBy(parts: seq<string>, ends: string -> bool) {
    forall i :: 0 <= i < |parts| - 1 ==> ends(parts[i])
  }

  lemma ClosedPartEnds(pending: string, d: string, delimiters: seq<string>)
    requires d in delimiters && d != ""
    ensures Ending(delimiters)(pending + d)
  {
    var part := pending + d;
    assert part[|part| - |d|..] == d;
  }

  lemma CutCons(part: string, rest: seq<string>, ends: string -> bool)
    requires ends(part) && CutBy(rest, ends)
    ensures CutBy([part] + rest, ends)
  {
    var all := [part] + rest;
    forall i | 0 <= i < |all| - 1 ensures ends(all[i]) {
      if i > 0 { assert all[i] == rest[i - 1]; }
    }
  }

  lemma {:induction false} PartsCut(pending: string, rest: string, delimiters: seq<string>)
    ensures CutBy(Parts(pending, rest, delimiters), Ending(delimiters))
    decreases |rest|
  {
    if rest != "" {
      var n := DelimiterAt(rest, delimiters);
      if n == 0 {
        PartsCut(pending + rest[..1], rest[1..], delimiters);
      } else if |pending + rest[..n]| >= MIN_SPLIT {
        PartsCut("", rest[n..], delimiters);
        ClosedPartEnds(pending, rest[..n], delimiters);
        CutCons(pending + rest[..n], Parts("", rest[n..], delimiters), Ending(delimiters));
      } else {
        PartsCut(pending + rest[..n], rest[n..], delimiters);
      }
    }
  }

  ghost predicate SuffixClosed(ends: string -> bool) {
    forall a, b :: ends(b) ==> ends(a + b)
  }

  lemma EndingSuffixClosed(delimiters: seq<string>)
    ensures SuffixClosed(Ending(delimiters))
  {
    forall a, b | Ending(delimiters)(b) ensures Ending(delimiters)(a + b) {
      var d :| d in delimiters && d != "" && |d| <= |b| && b[|b| - |d|..] == d;
      assert (a + b)[|a + b| - |d|..] == d;
    }
  }

  /** Every merged part but the last, and the last too if the last part did, ends at a boundary. */
  lemma {:induction false} MergeShortCut(parts: seq<string>, size: string -> nat, ends: string -> bool)
    requires CutBy(parts, ends) && SuffixClosed(ends)
    ensures var m := MergeShort(parts, size);
            && (parts != [] ==> m != [])
            && CutBy(m, ends)
            && (parts != [] && ends(parts[|parts| - 1]) ==> ends(m[|m| - 1]))
  {
    if parts != [] {
      var front, last := parts[..|parts| - 1], parts[|parts| - 1];
      MergeShortCut(front, size, ends);
      if front != [] { assert ends(parts[|parts| - 2]); }
    }
  }

  /** Text is cut only right after delimiters. */
  lemma SplitCutsAtBoundaries(text: string, delimiters: seq<string>)
    ensures CutBy(SplitLevel(text, delimiters), Ending(NonEmptyOf(delimiters)))
  {
    var usable := NonEmptyOf(delimiters);
    if text != "" && usable != [] {
      var parts := Parts("", text, usable);
      PartsCut("", text, usable);
      EndingSuffixClosed(usable);
      MergeShortCut(parts, TrimmedSize(), Ending(usable));
      MergedLong(parts);
      var merged := MergeShort(parts, TrimmedSize());
      if merged != [] {
        DropBlankFirst(merged);
        DropFirstCut(merged, Ending(usable), NotBlank()(merged[0]));
      }
    }
  }

  lemma DropFirstCut(parts: seq<string>, ends: string -> bool, kept: bool)
    requires parts != [] && CutBy(parts, ends)
    ensures CutBy((if kept then [parts[0]] else []) + parts[1..], ends)
  {
    assert [parts[0]] + parts[1..] == parts && [] + parts[1..] == parts[1..];
  }

  // ----- candidates -----

  const TEXT_CHUNK_TOKENS: nat := 1024

  function TargetOf(size: Option<nat>): (target: nat)
    ensures target > 0
  {
    if size.Some? && size.value > 0 then size.value else TEXT_CHUNK_TOKENS
  }

  /** Paragraph and line ends first, then sentence ends. */
  const LEVELS: seq<seq<string>> := [
    ["\n\n", "\r\n", "\n", "\r"],
    [". ", "! ", "? ", "\U{3002}", "\U{FF01}", "\U{FF1F}", "\U{FF1B}", ";"]]

  function Candidates(levels: seq<seq<string>>, text: string, level: nat, target: nat): seq<string>
    decreases if level < |levels| then |levels| - level else 0, 0, 1
  {
    if Blank(text) then []
    else if level >= |levels| then DropBlank(NaiveMerged([Tagged(text, "")], target, 0).cks)
    else
      var splits := SplitLevel(text, levels[level]);
      if |splits| <= 1 && level + 1 < |levels| then Candidates(levels, text, level + 1, target)
      else AllCandidates(levels, splits, level, target)
  }

  /** Oversized parts are split at the next level. */
  function AllCandidates(levels: seq<seq<string>>, splits: seq<string>, level: nat, target: nat): seq<string>
    requires level < |levels|
    decreases |levels| - level, 0, 0, |splits|
  {
    if splits == [] then []
    else
      var n := |splits| - 1;
      AllCandidates(levels, splits[..n], level, target)
      + if TokenCount(splits[n]) > target then Candidates(levels, splits[n], level + 1, target) else [splits[n]]
  }

  /** `slumber_candidates`: an absent or zero target means the default. */
  method SlumberCandidates(text: string, level: nat, size: Option<nat>) returns (candidates: seq<string>)
    ensures candidates == Candidates(LEVELS, text, level, TargetOf(size))
  {
    candidates := SplitText(LEVELS, text, level, TargetOf(size));
  }

  /** The body of `slumber_candidates` for a usable target. */
  method SplitText(levels: seq<seq<string>>, text: string, level: nat, target: nat) returns (candidates: seq<string>)
    requires target > 0
    ensures candidates == Candidates(levels, text, level, target)
    decreases if level < |levels| then |levels| - level else 0, 1
  {
    if Blank(text) {
      return [];
    }
    if level >= |levels| {
      var cks := NaiveMerge([Tagged(text, "")], target, 0);
      return DropBlank(cks);
    }
    var splits := SplitSlumberLevel(text, levels[level]);
    if |splits| <= 1 && level + 1 < |levels| {
      candidates := SplitText(levels, text, level + 1, target);
    } else {
      candidates := SplitOversized(levels, splits, level, target);
    }
  }

  /** The part loop of `slumber_candidates`. */
  method SplitOversized(levels: seq<seq<string>>, splits: seq<string>, level: nat, target: nat)
    returns (candidates: seq<string>)
    requires level < |levels| && target > 0
    ensures candidates == AllCandidates(levels, splits, level, target)
    decreases |levels| - level, 0
  {
    candidates := [];
    for i := 0 to |splits|
      invariant candidates == AllCandidates(levels, splits[..i], level, target)
    {
      assert splits[..i + 1][..i] == splits[..i];
      if TokenCount(splits[i]) > target {
        var more := SplitText(levels, splits[i], level + 1, target);
        candidates := candidates + more;
      } else {
        candidates := candidates + [splits[i]];
      }
    }
    assert splits[..|splits|] == splits;
  }

  lemma FallbackText(text: string, target: nat)
    requires !Blank(text)
    ensures DropBlank(NaiveMerged([Tagged(text, "")], target, 0).cks) == ["\n" + text]
  {
    NaiveSingle(text, target);
    BlankConcat("\n", text);
    FilterSnoc([""], "\n" + text, NotBlank());
    FilterSnoc([], "", NotBlank());
    assert [""] + ["\n" + text] == ["", "\n" + text] && [] + [""] == [""];
  }

  /** Recursive splitting, with its fallback, loses and invents nothing but white space. */
  lemma {:induction false} CandidatesDense(levels: seq<seq<string>>, text: string, level: nat, target: nat)
    ensures Dense(Concat(Candidates(levels, text, level, target))) == Dense(text)
    ensures forall c :: c in Candidates(levels, text, level, target) ==> !Blank(c)
    decreases if level < |levels| then |levels| - level else 0, 0, 1
  {
    if Blank(text) {
      DenseBlank(text);
    } else if level >= |levels| {
      FallbackText(text, target);
      assert Concat(["\n" + text]) == "\n" + text;
      DenseConcat("\n", text);
      DenseBlank("\n");
      BlankConcat("\n", text);
    } else {
      var splits := SplitLevel(text, levels[level]);
      SplitLevelDense(text, levels[level]);
      if |splits| <= 1 && level + 1 < |levels| {
        CandidatesDense(levels, text, level + 1, target);
      } else {
        AllCandidatesDense(levels, splits, level, target);
      }
    }
  }

  lemma {:induction false} AllCandidatesDense(levels: seq<seq<string>>, splits: seq<string>, level: nat, target: nat)
    requires level < |levels| && forall p :: p in splits ==> !Blank(p)
    ensures Dense(Concat(AllCandidates(levels, splits, level, target))) == Dense(Concat(splits))
    ensures forall c :: c in AllCandidates(levels, splits, level, target) ==> !Blank(c)
    decreases |levels| - level, 0, 0, |splits|
  {
    if splits != [] {
      var front, last := splits[..|splits| - 1], splits[|splits| - 1];
      assert splits == front + [last];
      AllCandidatesDense(levels, front, level, target);
      var more := if TokenCount(last) > target then Candidates(levels, last, level + 1, target) else [last];
      if TokenCount(last) > target {
        CandidatesDense(levels, last, level + 1, target);
      } else {
        assert Concat([last]) == last;
      }
      ConcatAppend(AllCandidates(levels, front, level, target), more);
      DenseConcat(Concat(AllCandidates(levels, front, level, target)), Concat(more));
      ConcatSnoc(front, last);
      DenseConcat(Concat(front), last);
    }
  }

  /** Within the target, or a piece no level could split, behind a newline. */
  ghost predicate SizeOk(c: string, target: nat) {
    TokenCount(c) <= target || exists p :: c == "\n" + p && TokenCount(p) > target
  }

  ghost function Sized(target: nat): string -> bool {
    c => SizeOk(c, target)
  }

  /** A property of the pieces within the target and of oversized pieces behind a newline. */
  ghost predicate Covers(ok: string -> bool, target: nat) {
    && (forall c :: TokenCount(c) <= target ==> ok(c))
    && (forall p :: TokenCount(p) > target ==> ok("\n" + p))
  }

  lemma {:induction false} CandidatesCovered(levels: seq<seq<string>>, text: string, level: nat, target: nat,
                                             ok: string -> bool)
    requires Covers(ok, target)
    requires level < |levels| || TokenCount(text) > target
    ensures forall c :: c in Candidates(levels, text, level, target) ==> ok(c)
    decreases if level < |levels| then |levels| - level else 0, 0, 1
  {
    if Blank(text) {
    } else if level >= |levels| {
      FallbackText(text, target);
    } else {
      var splits := SplitLevel(text, levels[level]);
      if |splits| <= 1 && level + 1 < |levels| {
        CandidatesCovered(levels, text, level + 1, target, ok);
      } else {
        AllCovered(levels, splits, level, target, ok);
      }
    }
  }

  lemma {:induction false} AllCovered(levels: seq<seq<string>>, splits: seq<string>, level: nat, target: nat,
                                      ok: string -> bool)
    requires level < |levels| && Covers(ok, target)
    ensures forall c :: c in AllCandidates(levels, splits, level, target) ==> ok(c)
    decreases |levels| - level, 0, 0, |splits|
  {
    if splits != [] {
      var front, last := splits[..|splits| - 1], splits[|splits| - 1];
      AllCovered(levels, front, level, target, ok);
      if TokenCount(last) > target { CandidatesCovered(levels, last, level + 1, target, ok); }
    }
  }

  /** Only the fallback returns oversized candidates. */
  lemma OversizedOnlyByFallback(text: string, level: nat, target: nat)
    requires level < |LEVELS|
    ensures forall c :: c in Candidates(LEVELS, text, level, target) ==> Sized(target)(c)
  {
    CandidatesCovered(LEVELS, text, level, target, Sized(target));
  }
}
