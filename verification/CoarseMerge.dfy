/** Compiler records: which are atomic, and how ordinary neighbours are merged
    (src/compiler.rs:119-130, 229-270, 346-392). */
module CoarseMerge {
  import opened Json
  import opened Markdown
  import opened Slumber
  import opened Text

  const MIN_COARSE_TOKENS: nat := 256

  function Get(record: Value, name: string): Option<Value> {
    if record.Object? && name in record.fields then Some(record.fields[name]) else None
  }

  function GetStr(record: Value, name: string): Option<string> {
    match Get(record, name)
    case Some(String(text)) => Some(text)
    case _ => None
  }

  /** `json_truthy`. */
  predicate Truthy(v: Value) {
    match v
    case Null => false
    case Bool(b) => b
    case Number(n) => n != 0.0
    case String(s) => s != ""
    case Array(items) => items != []
    case Object(fields) => |fields| > 0
  }

  predicate Flag(record: Value, name: string) {
    var v := Get(record, name);
    v.Some? && Truthy(v.value)
  }

  function LowerField(record: Value, name: string): string {
    var v := GetStr(record, name);
    if v.Some? then Lower(Trim(v.value)) else ""
  }

  /** The line without its line end: a newline and a carriage return before it. */
  function WithoutEnd(line: string): (body: string)
    ensures body <= line
  {
    if line != "" && line[|line| - 1] == '\n' then
      var n := |line| - 1;
      if n > 0 && line[n - 1] == '\r' then line[..n - 1] else line[..n]
    else line
  }

  /** `str::lines`. */
  function BareLines(text: string): (r: seq<string>)
    ensures |r| == |Lines(text)| && forall i :: 0 <= i < |r| ==> r[i] == WithoutEnd(Lines(text)[i])
  {
    var lines := Lines(text);
    seq(|lines|, i requires 0 <= i < |lines| => WithoutEnd(lines[i]))
  }

  /** A match of `<table(?:\s|>)` in any case. */
  predicate HasHtmlTable(text: string) {
    || (|text| >= 7 && Lower(text[..6]) == "<table" && (IsWhitespace(text[6]) || text[6] == '>'))
    || (text != "" && HasHtmlTable(text[1..]))
  }

  /** A text with a Markdown table, an HTML table or a fence. */
  predicate AtomicText(text: string) {
    var lines := BareLines(text);
    || (exists i :: 0 <= i < |lines| && TableStart(lines, i))
    || HasHtmlTable(text)
    || (exists l :: l in lines && FenceOpen(l).Some?)
  }

  /** `is_atomic_json_record`. */
  predicate IsAtomic(record: Value) {
    var source := if Get(record, "text").Some? then "text" else "content_with_weight";
    var found := GetStr(record, source);
    || LowerField(record, "doc_type_kwd") == "table"
    || LowerField(record, "doc_type_kwd") == "image"
    || Flag(record, "img_id")
    || Flag(record, "image")
    || LowerField(record, "layout_type") == "figure"
    || LowerField(record, "layout_type") == "table"
    || Flag(record, "bbox")
    || AtomicText(if found.Some? then found.value else "")
  }

  function TextOf(record: Value): string {
    var t := GetStr(record, "text");
    if t.Some? then t.value else ""
  }

  /** A record that takes part in merging. */
  predicate Mergeable(record: Value) {
    GetStr(record, "text").Some? && !Blank(TextOf(record)) && !IsAtomic(record)
  }

  function WithText(record: Value, text: string): Value {
    if record.Object? then Object(record.fields["text" := String(text)]) else record
  }

  /** What decides a merge: which records take part, and when a text may follow another. */
  datatype Policy = Policy(mergeable: Value -> bool, text: Value -> string, allowed: (string, string) -> bool)

  function CompilerPolicy(target: nat): Policy {
    Policy(Mergeable, TextOf,
           (previous: string, text: string) =>
             TokenCount(previous) < MIN_COARSE_TOKENS && TokenCount(previous + "\n\n" + text) <= target)
  }

  // ----- groups -----

  /** Neighbouring records that end up in one record, in order. */
  type Group = seq<Value>

  /** The open group, if any, and the finished ones. */
  datatype Merging = Merging(done: seq<Group>, open: Group)

  function JoinedText(p: Policy, group: Group): string {
    if group == [] then ""
    else if |group| == 1 then p.text(group[0])
    else JoinedText(p, group[..|group| - 1]) + "\n\n" + p.text(group[|group| - 1])
  }

  function Close(m: Merging): seq<Group> {
    m.done + if m.open == [] then [] else [m.open]
  }

  function MergeStep(p: Policy, m: Merging, record: Value): Merging {
    if !p.mergeable(record) then Merging(Close(m) + [[record]], [])
    else if m.open != [] && p.allowed(JoinedText(p, m.open), p.text(record)) then Merging(m.done, m.open + [record])
    else Merging(Close(m), [record])
  }

  function MergeAll(p: Policy, records: seq<Value>): Merging {
    if records == [] then Merging([], [])
    else MergeStep(p, MergeAll(p, records[..|records| - 1]), records[|records| - 1])
  }

  function Groups(p: Policy, records: seq<Value>): seq<Group> {
    Close(MergeAll(p, records))
  }

  ghost predicate NonEmptyGroups(groups: seq<Group>) {
    forall i :: 0 <= i < |groups| ==> groups[i] != []
  }

  /** What holds of the groups while records are merged. */
  ghost predicate MergingOk(p: Policy, m: Merging) {
    && NonEmptyGroups(m.done)
    && (forall r :: r in m.open ==> p.mergeable(r))
    && (m.open == [] && m.done != [] ==> !p.mergeable(m.done[|m.done| - 1][0]))
  }

  lemma StepOk(p: Policy, m: Merging, record: Value)
    requires MergingOk(p, m)
    ensures MergingOk(p, MergeStep(p, m, record))
    ensures NonEmptyGroups(Close(m))
  {
  }

  lemma {:induction false} MergeAllOk(p: Policy, records: seq<Value>)
    ensures MergingOk(p, MergeAll(p, records))
  {
    if records != [] {
      MergeAllOk(p, records[..|records| - 1]);
      StepOk(p, MergeAll(p, records[..|records| - 1]), records[|records| - 1]);
    }
  }

  // ----- what grouping keeps -----

  function Records(groups: seq<Group>): seq<Value> {
    if groups == [] then [] else Records(groups[..|groups| - 1]) + groups[|groups| - 1]
  }

  lemma RecordsSnoc(groups: seq<Group>, group: Group)
    ensures Records(groups + [group]) == Records(groups) + group
  {
    assert (groups + [group])[..|groups|] == groups;
  }

  lemma CloseRecords(m: Merging)
    ensures Records(Close(m)) == Records(m.done) + m.open
  {
    if m.open == [] { assert Close(m) == m.done; } else { RecordsSnoc(m.done, m.open); }
  }

  lemma StepRecords(p: Policy, m: Merging, record: Value)
    ensures Records(Close(MergeStep(p, m, record))) == Records(Close(m)) + [record]
  {
    var n := MergeStep(p, m, record);
    CloseRecords(m);
    CloseRecords(n);
    if !p.mergeable(record) {
      RecordsSnoc(Close(m), [record]);
    } else if m.open != [] && p.allowed(JoinedText(p, m.open), p.text(record)) {
      Associate(Records(m.done), m.open, [record]);
    }
  }

  /** The groups divide the records into consecutive runs: nothing is lost, added or moved. */
  lemma {:induction false} GroupsPartition(p: Policy, records: seq<Value>)
    ensures Records(Groups(p, records)) == records
  {
    if records != [] {
      var n := |records| - 1;
      GroupsPartition(p, records[..n]);
      StepRecords(p, MergeAll(p, records[..n]), records[n]);
      assert records == records[..n] + [records[n]];
    }
  }

  /** A group of several records holds ordinary records only, the last of which was allowed to join. */
  ghost predicate GroupFits(p: Policy, g: Group) {
    && g != []
    && (|g| > 1 ==>
          && (forall r :: r in g ==> p.mergeable(r))
          && p.allowed(JoinedText(p, g[..|g| - 1]), p.text(g[|g| - 1])))
  }

  /** Of two neighbouring groups of ordinary records the second could not have joined the first. */
  ghost predicate Apart(p: Policy, g: Group, h: Group) {
    g != [] && h != [] && p.mergeable(g[0]) && p.mergeable(h[0]) ==> !p.allowed(JoinedText(p, g), p.text(h[0]))
  }

  ghost predicate Greedy(p: Policy, groups: seq<Group>) {
    && (forall i :: 0 <= i < |groups| ==> GroupFits(p, groups[i]))
    && (forall i :: 0 <= i < |groups| - 1 ==> Apart(p, groups[i], groups[i + 1]))
  }

  lemma GreedySnoc(p: Policy, groups: seq<Group>, g: Group)
    requires Greedy(p, groups) && GroupFits(p, g)
    requires groups != [] ==> Apart(p, groups[|groups| - 1], g)
    ensures Greedy(p, groups + [g])
  {
    var all := groups + [g];
    forall i | 0 <= i < |all| ensures GroupFits(p, all[i]) { }
    forall i | 0 <= i < |all| - 1 ensures Apart(p, all[i], all[i + 1]) { }
  }

  lemma GreedyFront(p: Policy, done: seq<Group>, open: Group)
    requires Greedy(p, done + [open])
    ensures Greedy(p, done)
    ensures done != [] ==> Apart(p, done[|done| - 1], open)
  {
    var all := done + [open];
    forall i | 0 <= i < |done| ensures GroupFits(p, done[i]) { assert all[i] == done[i]; }
    forall i | 0 <= i < |done| - 1 ensures Apart(p, done[i], done[i + 1]) {
      assert all[i] == done[i] && all[i + 1] == done[i + 1];
    }
    if done != [] {
      assert all[|done| - 1] == done[|done| - 1] && all[|done|] == open;
      assert Apart(p, all[|done| - 1], all[|done|]);
    }
  }

  lemma JoinFits(p: Policy, open: Group, record: Value)
    requires open != [] && p.mergeable(record) && forall r :: r in open ==> p.mergeable(r)
    requires p.allowed(JoinedText(p, open), p.text(record))
    ensures GroupFits(p, open + [record])
  {
    var g := open + [record];
    assert g[..|g| - 1] == open;
  }

  lemma StepGreedy(p: Policy, m: Merging, record: Value)
    requires MergingOk(p, m) && Greedy(p, Close(m))
    ensures Greedy(p, Close(MergeStep(p, m, record)))
  {
    if !p.mergeable(record) {
      GreedySnoc(p, Close(m), [record]);
    } else if m.open != [] && p.allowed(JoinedText(p, m.open), p.text(record)) {
      GreedyFront(p, m.done, m.open);
      JoinFits(p, m.open, record);
      GreedySnoc(p, m.done, m.open + [record]);
    } else {
      GreedySnoc(p, Close(m), [record]);
    }
  }

  /** Groups are as large as allowed: no group could have taken the first record of the next. */
  lemma {:induction false} GroupsGreedy(p: Policy, records: seq<Value>)
    ensures Greedy(p, Groups(p, records))
  {
    if records != [] {
      var n := |records| - 1;
      GroupsGreedy(p, records[..n]);
      MergeAllOk(p, records[..n]);
      StepGreedy(p, MergeAll(p, records[..n]), records[n]);
    }
  }

  /** A record that takes no part in merging divides the work: what stands before and after it is merged
      separately. */
  lemma GroupsDivide(p: Policy, before: seq<Value>, record: Value, after: seq<Value>)
    requires !p.mergeable(record)
    ensures Groups(p, before + [record] + after) == Groups(p, before) + [[record]] + Groups(p, after)
  {
    DivideStep(p, before, record, after);
    CloseBehind(Groups(p, before) + [[record]], MergeAll(p, after));
  }

  function Behind(head: seq<Group>, m: Merging): Merging {
    Merging(head + m.done, m.open)
  }

  lemma CloseBehind(head: seq<Group>, m: Merging)
    ensures Close(Behind(head, m)) == head + Close(m)
  {
  }

  lemma StepBehind(p: Policy, head: seq<Group>, m: Merging, record: Value)
    ensures MergeStep(p, Behind(head, m), record) == Behind(head, MergeStep(p, m, record))
  {
    CloseBehind(head, m);
    Associate(head, Close(m), [[record]]);
  }

  lemma {:induction false} DivideStep(p: Policy, before: seq<Value>, record: Value, after: seq<Value>)
    requires !p.mergeable(record)
    ensures MergeAll(p, before + [record] + after) == Behind(Groups(p, before) + [[record]], MergeAll(p, after))
  {
    var all, head := before + [record] + after, Groups(p, before) + [[record]];
    if after == [] {
      assert all[..|all| - 1] == before;
      assert head + [] == head;
    } else {
      var k := |after| - 1;
      DivideStep(p, before, record, after[..k]);
      assert all[..|all| - 1] == before + [record] + after[..k];
      StepBehind(p, head, MergeAll(p, after[..k]), after[k]);
    }
  }

  // ----- the merged records -----

  /** A single record as it is; several as the first one with the joined text. */
  function Combined(p: Policy, group: Group): Value
    requires group != []
  {
    if |group| == 1 then group[0] else WithText(group[0], JoinedText(p, group))
  }

  function CombineAll(p: Policy, groups: seq<Group>): (r: seq<Value>)
    requires forall i :: 0 <= i < |groups| ==> groups[i] != []
    ensures |r| == |groups| && forall i :: 0 <= i < |r| ==> r[i] == Combined(p, groups[i])
  {
    seq(|groups|, i requires 0 <= i < |groups| => Combined(p, groups[i]))
  }

  lemma MergedNonEmpty(p: Policy, records: seq<Value>)
    ensures NonEmptyGroups(Groups(p, records))
  {
    GroupsGreedy(p, records);
  }

  /** `merge_small_text_chunks` as a function of the records; below the coarse floor nothing changes. */
  function Merged(records: seq<Value>, target: nat): seq<Value> {
    if target < MIN_COARSE_TOKENS then records
    else
      MergedNonEmpty(CompilerPolicy(target), records);
      CombineAll(CompilerPolicy(target), Groups(CompilerPolicy(target), records))
  }

  lemma CombineConcat(p: Policy, gs: seq<Group>, hs: seq<Group>)
    requires NonEmptyGroups(gs) && NonEmptyGroups(hs)
    ensures NonEmptyGroups(gs + hs) && CombineAll(p, gs + hs) == CombineAll(p, gs) + CombineAll(p, hs)
  {
  }

  /** The same for the merged records: a record that takes no part comes out as it is, in its place. */
  lemma MergedDivide(before: seq<Value>, record: Value, after: seq<Value>, target: nat)
    requires !Mergeable(record)
    ensures Merged(before + [record] + after, target) == Merged(before, target) + [record] + Merged(after, target)
  {
    if target >= MIN_COARSE_TOKENS {
      var p := CompilerPolicy(target);
      GroupsDivide(p, before, record, after);
      MergedNonEmpty(p, before);
      MergedNonEmpty(p, after);
      CombineConcat(p, Groups(p, before), [[record]]);
      CombineConcat(p, Groups(p, before) + [[record]], Groups(p, after));
      assert CombineAll(p, [[record]]) == [record];
    }
  }

  lemma {:induction false} JoinedExtends(p: Policy, g: Group)
    requires g != []
    ensures p.text(g[0]) <= JoinedText(p, g)
  {
    if |g| > 1 {
      JoinedExtends(p, g[..|g| - 1]);
    }
  }

  lemma CombinedText(target: nat, group: Group)
    requires group != [] && Mergeable(group[0])
    ensures TextOf(Combined(CompilerPolicy(target), group)) == JoinedText(CompilerPolicy(target), group)
  {
  }

  /** Of two such groups the joined texts could not be merged either: a longer text never counts fewer tokens. */
  lemma StillApart(g: Group, h: Group, target: nat)
    requires var p := CompilerPolicy(target);
             g != [] && h != [] && Apart(p, g, h) && p.mergeable(g[0]) && p.mergeable(h[0])
    ensures var p := CompilerPolicy(target);
            !p.allowed(JoinedText(p, g), JoinedText(p, h))
  {
    var p := CompilerPolicy(target);
    var first, whole := p.text(h[0]), JoinedText(p, h);
    JoinedExtends(p, h);
    var rest := whole[|first|..];
    assert whole == first + rest;
    var before := JoinedText(p, g) + "\n\n";
    Associate(before, first, rest);
    TokenCountMonotone(before + first, rest);
  }

  /** A result is made from the group of its place: its only record, or ordinary records under the joined text. */
  lemma ResultOfGroup(records: seq<Value>, target: nat, i: nat)
    requires target >= MIN_COARSE_TOKENS && i < |Merged(records, target)|
    ensures var p := CompilerPolicy(target);
            var gs, out := Groups(p, records), Merged(records, target);
            && |gs| == |out| && GroupFits(p, gs[i])
            && (|gs[i]| == 1 ==> out[i] == gs[i][0])
            && (|gs[i]| > 1 ==> Mergeable(gs[i][0]))
            && (Mergeable(gs[i][0]) ==> TextOf(out[i]) == JoinedText(p, gs[i]))
  {
    var p := CompilerPolicy(target);
    GroupsGreedy(p, records);
    MergedNonEmpty(p, records);
    var g := Groups(p, records)[i];
    assert g[0] in g;
    if Mergeable(g[0]) { CombinedText(target, g); }
  }

  /** Every result is one of the records, unchanged, or counts at most the target's tokens. */
  lemma MergedWithinTarget(records: seq<Value>, target: nat, i: nat)
    requires target >= MIN_COARSE_TOKENS && i < |Merged(records, target)|
    ensures var gs, out := Groups(CompilerPolicy(target), records), Merged(records, target);
            && |gs| == |out|
            && (|gs[i]| == 1 ==> out[i] == gs[i][0])
            && (|gs[i]| > 1 ==> TokenCount(TextOf(out[i])) <= target)
  {
    ResultOfGroup(records, target, i);
    var p := CompilerPolicy(target);
    var g := Groups(p, records)[i];
    if |g| > 1 { JoinedSnoc(p, g[..|g| - 1], g[|g| - 1]); }
  }

  /** No two neighbouring ordinary results could still be merged. */
  lemma NoFurtherMerge(records: seq<Value>, target: nat, i: nat)
    requires target >= MIN_COARSE_TOKENS && i + 1 < |Merged(records, target)|
    ensures var p, out := CompilerPolicy(target), Merged(records, target);
            Mergeable(out[i]) && Mergeable(out[i + 1]) ==> !p.allowed(TextOf(out[i]), TextOf(out[i + 1]))
  {
    var p, out := CompilerPolicy(target), Merged(records, target);
    var gs := Groups(p, records);
    ResultOfGroup(records, target, i);
    ResultOfGroup(records, target, i + 1);
    if Mergeable(out[i]) && Mergeable(out[i + 1]) {
      GroupsGreedy(p, records);
      assert Apart(p, gs[i], gs[i + 1]);
      StillApart(gs[i], gs[i + 1], target);
    }
  }

  /** Neighbours that may not be merged. */
  ghost predicate Settled(p: Policy, records: seq<Value>) {
    forall i :: 0 <= i < |records| - 1 && p.mergeable(records[i]) && p.mergeable(records[i + 1]) ==>
      !p.allowed(p.text(records[i]), p.text(records[i + 1]))
  }

  function Singles(records: seq<Value>): (r: seq<Group>)
    ensures |r| == |records| && forall i :: 0 <= i < |r| ==> r[i] == [records[i]]
  {
    seq(|records|, i requires 0 <= i < |records| => [records[i]])
  }

  lemma {:induction false} SettledGroups(p: Policy, records: seq<Value>)
    requires Settled(p, records)
    ensures Groups(p, records) == Singles(records)
    ensures records != [] && p.mergeable(records[|records| - 1]) ==>
              MergeAll(p, records).open == [records[|records| - 1]]
    ensures records != [] && !p.mergeable(records[|records| - 1]) ==> MergeAll(p, records).open == []
  {
    if records != [] {
      var front, last := records[..|records| - 1], records[|records| - 1];
      SettledGroups(p, front);
      if front != [] { assert front[|front| - 1] == records[|records| - 2]; }
      assert Singles(records) == Singles(front) + [[last]];
    }
  }

  /** Merging merged records again changes nothing. */
  lemma MergedIdempotent(records: seq<Value>, target: nat)
    ensures Merged(Merged(records, target), target) == Merged(records, target)
  {
    if target >= MIN_COARSE_TOKENS {
      var p, out := CompilerPolicy(target), Merged(records, target);
      forall i | 0 <= i < |out| - 1 && p.mergeable(out[i]) && p.mergeable(out[i + 1])
        ensures !p.allowed(p.text(out[i]), p.text(out[i + 1]))
      {
        NoFurtherMerge(records, target, i);
      }
      SettledGroups(p, out);
    }
  }

  // ----- the loop -----

  lemma JoinedSnoc(p: Policy, group: Group, record: Value)
    requires group != []
    ensures JoinedText(p, group + [record]) == JoinedText(p, group) + "\n\n" + p.text(record)
  {
    var longer := group + [record];
    assert longer[..|longer| - 1] == group;
  }

  lemma CombinedSnoc(p: Policy, group: Group, record: Value)
    requires group != []
    ensures Combined(p, group + [record])
         == WithText(Combined(p, group), JoinedText(p, group) + "\n\n" + p.text(record))
  {
    JoinedSnoc(p, group, record);
    assert (group + [record])[0] == group[0];
    if group[0].Object? && |group| > 1 {
      var text := JoinedText(p, group + [record]);
      assert group[0].fields["text" := String(JoinedText(p, group))]["text" := String(text)]
          == group[0].fields["text" := String(text)];
    }
  }

  function PendingOf(p: Policy, open: Group): Option<Value> {
    if open == [] then None else Some(Combined(p, open))
  }

  lemma CombineSnoc(p: Policy, groups: seq<Group>, group: Group)
    requires NonEmptyGroups(groups) && group != []
    ensures CombineAll(p, groups + [group]) == CombineAll(p, groups) + [Combined(p, group)]
  {
  }

  ghost predicate LoopState(p: Policy, m: Merging, merged: seq<Value>, pending: Option<Value>) {
    MergingOk(p, m) && merged == CombineAll(p, m.done) && pending == PendingOf(p, m.open)
  }

  /** Flushing the pending record. */
  method Flushed(merged: seq<Value>, pending: Option<Value>, ghost p: Policy, ghost m: Merging)
    returns (merged': seq<Value>)
    requires LoopState(p, m, merged, pending)
    ensures NonEmptyGroups(Close(m)) && merged' == CombineAll(p, Close(m))
  {
    merged' := merged;
    if pending.Some? {
      CombineSnoc(p, m.done, m.open);
      merged' := merged' + [pending.value];
    }
  }

  /** The loop body of `merge_small_text_chunks`. */
  method MergeOne(merged: seq<Value>, pending: Option<Value>, chunk: Value, target: nat, ghost m: Merging)
    returns (merged': seq<Value>, pending': Option<Value>)
    requires LoopState(CompilerPolicy(target), m, merged, pending)
    ensures LoopState(CompilerPolicy(target), MergeStep(CompilerPolicy(target), m, chunk), merged', pending')
  {
    var p := CompilerPolicy(target);
    StepOk(p, m, chunk);
    if !p.mergeable(chunk) {
      merged' := Flushed(merged, pending, p, m);
      CombineSnoc(p, Close(m), [chunk]);
      merged', pending' := merged' + [chunk], None;
    } else if pending.None? {
      merged', pending' := merged, Some(chunk);
    } else {
      var previousText, text := p.text(pending.value), p.text(chunk);
      assert m.open[0] in m.open;
      CombinedText(target, m.open);
      if p.allowed(previousText, text) {
        CombinedSnoc(p, m.open, chunk);
        merged', pending' := merged, Some(WithText(pending.value, previousText + "\n\n" + text));
      } else {
        merged' := Flushed(merged, pending, p, m);
        pending' := Some(chunk);
      }
    }
  }

  /** `merge_small_text_chunks`. */
  method MergeSmallTextChunks(chunks: seq<Value>, target: nat) returns (merged: seq<Value>)
    ensures merged == Merged(chunks, target)
  {
    if target < MIN_COARSE_TOKENS {
      return chunks;
    }
    ghost var p := CompilerPolicy(target);
    merged := [];
    var pending: Option<Value> := None;
    for i := 0 to |chunks|
      invariant LoopState(p, MergeAll(p, chunks[..i]), merged, pending)
    {
      assert chunks[..i + 1][..i] == chunks[..i];
      merged, pending := MergeOne(merged, pending, chunks[i], target, MergeAll(p, chunks[..i]));
    }
    assert chunks[..|chunks|] == chunks;
    merged := Flushed(merged, pending, p, MergeAll(p, chunks));
  }

  // ----- atomic records -----

  /** The member is text that says one of these, trimmed and in lower case. */
  ghost predicate Kinds(fields: map<string, Value>, name: string, kinds: set<string>) {
    name in fields && fields[name].String? && Lower(Trim(fields[name].s)) in kinds
  }

  /** The member is there and not null, false, zero or empty. */
  ghost predicate Present(fields: map<string, Value>, name: string) {
    name in fields && fields[name] !in {Null, Bool(false), Number(0.0), String(""), Array([]), Object(map[])}
  }

  /** An opening table tag in any case. */
  ghost predicate HtmlTableAt(text: string, i: nat) {
    i + 7 <= |text| && Lower(text[i..i + 6]) == "<table" && (IsWhitespace(text[i + 6]) || text[i + 6] == '>')
  }

  lemma {:induction false} HtmlTableMeaning(text: string)
    ensures HasHtmlTable(text) <==> exists i :: HtmlTableAt(text, i)
  {
    assert HtmlTableAt(text, 0) ==> text[0..0 + 6] == text[..6];
    if text != "" && !HtmlTableAt(text, 0) {
      HtmlTableMeaning(text[1..]);
      if i: nat :| HtmlTableAt(text[1..], i) {
        assert text[1..][i..i + 6] == text[i + 1..i + 1 + 6];
        assert HtmlTableAt(text, i + 1);
      }
      if i: nat :| HtmlTableAt(text, i) {
        assert text[1..][i - 1..i - 1 + 6] == text[i..i + 6];
        assert HtmlTableAt(text[1..], i - 1);
      }
    }
  }

  ghost predicate TableIn(lines: seq<string>) {
    exists i :: 0 <= i < |lines| && TableStart(lines, i)
  }

  ghost predicate FenceIn(lines: seq<string>) {
    exists l :: l in lines && FenceOpen(l).Some?
  }

  lemma AtomicTextMeaning(text: string)
    ensures AtomicText(text)
       <==> TableIn(BareLines(text)) || FenceIn(BareLines(text)) || exists i :: HtmlTableAt(text, i)
  {
    HtmlTableMeaning(text);
  }

  /** The text a record is judged by. */
  ghost predicate Judged(fields: map<string, Value>, text: string) {
    var source := if "text" in fields then "text" else "content_with_weight";
    if source in fields && fields[source].String? then fields[source] == String(text) else text == ""
  }

  /** A record is atomic when it is marked as a table or figure, shows a picture or a place on a page, or its text has
      a table in Markdown or HTML or a fence. */
  lemma AtomicMeaning(fields: map<string, Value>, text: string)
    requires Judged(fields, text)
    ensures IsAtomic(Object(fields))
       <==> || Kinds(fields, "doc_type_kwd", {"table", "image"}) || Kinds(fields, "layout_type", {"figure", "table"})
            || Present(fields, "img_id") || Present(fields, "image") || Present(fields, "bbox")
            || TableIn(BareLines(text)) || FenceIn(BareLines(text)) || exists i :: HtmlTableAt(text, i)
  {
    AtomicTextMeaning(text);
    AtomicParts(fields, text);
    KindMeaning(fields, "doc_type_kwd", "table", "image");
    KindMeaning(fields, "layout_type", "figure", "table");
    FlagMeaning(fields, "img_id");
    FlagMeaning(fields, "image");
    FlagMeaning(fields, "bbox");
  }

  lemma KindMeaning(fields: map<string, Value>, name: string, a: string, b: string)
    requires a != "" && b != ""
    ensures LowerField(Object(fields), name) in {a, b} <==> Kinds(fields, name, {a, b})
  {
  }

  lemma AtomicParts(fields: map<string, Value>, text: string)
    requires Judged(fields, text)
    ensures IsAtomic(Object(fields))
       <==> || LowerField(Object(fields), "doc_type_kwd") in {"table", "image"}
            || LowerField(Object(fields), "layout_type") in {"figure", "table"}
            || Flag(Object(fields), "img_id") || Flag(Object(fields), "image") || Flag(Object(fields), "bbox")
            || AtomicText(text)
  {
    JudgedText(fields, text);
  }

  lemma JudgedText(fields: map<string, Value>, text: string)
    requires Judged(fields, text)
    ensures var source := if Get(Object(fields), "text").Some? then "text" else "content_with_weight";
            var found := GetStr(Object(fields), source);
            text == if found.Some? then found.value else ""
  {
  }

  lemma FlagMeaning(fields: map<string, Value>, name: string)
    ensures Flag(Object(fields), name) <==> Present(fields, name)
  {
    if name in fields && fields[name].Object? && |fields[name].fields| == 0 { assert fields[name].fields == map[]; }
  }
}
