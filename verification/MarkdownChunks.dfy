/** Markdown text to compiler chunks (src/compiler.rs:540-585). */
module MarkdownChunks {
  import opened CoarseMerge
  import opened Json
  import opened Markdown
  import opened Slumber
  import opened Text

  function TextRecord(text: string): Value {
    Object(map["text" := String(text)])
  }

  function TableRecord(text: string): Value {
    Object(map["text" := String(text), "doc_type_kwd" := String("table")])
  }

  function TextRecords(parts: seq<string>): (r: seq<Value>)
    ensures |r| == |parts|
  {
    seq(|parts|, i requires 0 <= i < |parts| => TextRecord(parts[i]))
  }

  /** The records of a block: one for a table or a fence, the candidates of ordinary text. */
  function BlockRecords(target: nat): Block -> seq<Value> {
    (block: Block) =>
      match block.kind
      case Table => [TableRecord(block.text)]
      case Fenced => [TextRecord(block.text)]
      case Ordinary => TextRecords(DropBlank(Candidates(LEVELS, block.text, 0, target)))
  }

  /** The same, with the records of ordinary text merged among themselves. */
  function BlockChunks(target: nat): Block -> seq<Value> {
    (block: Block) =>
      if block.kind == Ordinary then Merged(BlockRecords(target)(block), target) else BlockRecords(target)(block)
  }

  function Joined(blocks: seq<Block>, f: Block -> seq<Value>): seq<Value> {
    if blocks == [] then [] else Joined(blocks[..|blocks| - 1], f) + f(blocks[|blocks| - 1])
  }

  function Blocks(text: string): seq<Block> {
    BlocksFrom(Lines(text), 0, "")
  }

  /** The markdown branch of `normalize_upstream_chunks`. */
  function Chunks(text: string, split: bool, size: Option<nat>): seq<Value> {
    if Blank(text) then []
    else if !split then [TextRecord(text)]
    else Merged(Joined(Blocks(text), BlockRecords(TargetOf(size))), TargetOf(size))
  }

  method BlockToRecords(block: Block, target: nat) returns (records: seq<Value>)
    requires target > 0
    ensures records == BlockRecords(target)(block)
  {
    match block.kind
    case Table => return [TableRecord(block.text)];
    case Fenced => return [TextRecord(block.text)];
    case Ordinary =>
      var parts := SlumberCandidates(block.text, 0, Some(target));
      return TextRecords(DropBlank(parts));
  }

  method NormalizeMarkdown(text: string, split: bool, size: Option<nat>) returns (chunks: seq<Value>)
    ensures chunks == Chunks(text, split, size)
  {
    if Blank(text) {
      return [];
    }
    if !split {
      return [TextRecord(text)];
    }
    var target := TargetOf(size);
    var blocks := SplitMarkdownBlocks(text);
    var records: seq<Value> := [];
    for i := 0 to |blocks|
      invariant records == Joined(blocks[..i], BlockRecords(target))
    {
      assert blocks[..i + 1][..i] == blocks[..i];
      var more := BlockToRecords(blocks[i], target);
      records := records + more;
    }
    assert blocks[..|blocks|] == blocks;
    chunks := MergeSmallTextChunks(records, target);
  }

  lemma {:induction false} JoinedConcat(a: seq<Block>, b: seq<Block>, f: Block -> seq<Value>)
    ensures Joined(a + b, f) == Joined(a, f) + Joined(b, f)
  {
    if b == [] {
      assert a + b == a;
    } else {
      var front, last := b[..|b| - 1], b[|b| - 1];
      JoinedConcat(a, front, f);
      assert (a + b)[..|a + b| - 1] == a + front;
      Associate(Joined(a, f), Joined(front, f), f(last));
    }
  }

  lemma JoinedOne(block: Block, f: Block -> seq<Value>)
    ensures Joined([block], f) == f(block)
  {
    assert [block][..0] == [];
  }

  // ----- tables and fences are atomic -----

  lemma LowerTable(record: Value, name: string)
    requires GetStr(record, name) == Some("table")
    ensures LowerField(record, name) == "table"
  {
    TrimTrimmed("table");
    assert Lower("table") == "table";
  }

  lemma TableIsAtomic(text: string)
    ensures !Mergeable(TableRecord(text))
  {
    LowerTable(TableRecord(text), "doc_type_kwd");
  }

  /** A line of a text: a newline only at its end, and there unless nothing follows. */
  ghost predicate IsLine(l: string, rest: string) {
    && l != ""
    && (forall k :: 0 <= k < |l| - 1 ==> l[k] != '\n')
    && (l[|l| - 1] == '\n' || rest == "")
  }

  lemma {:induction false} LineIsFirst(l: string, rest: string)
    requires IsLine(l, rest)
    ensures FirstLine(l + rest) == |l|
  {
    if |l| > 1 {
      assert (l + rest)[1..] == l[1..] + rest;
      LineIsFirst(l[1..], rest);
    } else if rest == "" {
      assert l + rest == l;
    }
  }

  lemma {:induction false} FirstLineIsLine(text: string)
    requires text != ""
    ensures IsLine(text[..FirstLine(text)], text[FirstLine(text)..])
  {
    if text[0] != '\n' && |text| > 1 {
      var n := FirstLine(text[1..]);
      FirstLineIsLine(text[1..]);
      var l := text[..n + 1];
      assert l[1..] == text[1..][..n] && text[n + 1..] == text[1..][n..];
      forall k | 0 <= k < |l| - 1 ensures l[k] != '\n' {
        if k > 0 { assert l[k] == text[1..][..n][k - 1]; }
      }
    }
  }

  /** Any run of lines of a text starts with its own first line. */
  lemma {:induction false} LinesAreLines(text: string, i: nat, e: nat)
    requires i < e <= |Lines(text)|
    ensures IsLine(Lines(text)[i], Concat(Lines(text)[i + 1..e]))
    decreases |text|
  {
    var n, lines := FirstLine(text), Lines(text);
    LinesConcat(text[n..]);
    if i == 0 {
      FirstLineIsLine(text);
      if text[n..] == "" { assert lines[1..e] == []; }
    } else {
      LinesAreLines(text[n..], i - 1, e - 1);
      assert lines[i + 1..e] == Lines(text[n..])[i..e - 1];
    }
  }

  lemma FirstOfRun(text: string, i: nat, e: nat)
    requires i < e <= |Lines(text)|
    ensures var run := Concat(Lines(text)[i..e]); Lines(run) != [] && Lines(run)[0] == Lines(text)[i]
  {
    var l, rest := Lines(text)[i], Concat(Lines(text)[i + 1..e]);
    LinesAreLines(text, i, e);
    LineIsFirst(l, rest);
    assert Lines(text)[i..e][1..] == Lines(text)[i + 1..e];
    assert Concat(Lines(text)[i..e]) == l + rest;
    assert (l + rest)[..|l|] == l;
  }

  lemma {:induction false} RunLengthPrefix(s: string, t: string, c: char)
    requires t <= s && |t| >= RunLength(s, c)
    ensures RunLength(t, c) == RunLength(s, c)
  {
    if s != "" && s[0] == c {
      RunLengthPrefix(s[1..], t[1..], c);
    }
  }

  /** The test for a fence does not depend on the line end. */
  lemma {:induction false} FenceWithoutEnd(line: string, body: string)
    requires FenceOpen(line).Some? && body <= line && forall k :: |body| <= k < |line| ==> IsWhitespace(line[k])
    ensures FenceOpen(body) == FenceOpen(line)
    decreases |line|
  {
    assert body != "" || Blank(line) by { if body == "" { forall c | c in line ensures IsWhitespace(c) { } } }
    TrimStartBlank(line);
    if IsWhitespace(line[0]) {
      assert body[1..] <= line[1..];
      FenceWithoutEnd(line[1..], body[1..]);
    } else {
      var n := RunLength(line, line[0]);
      assert n == 0 || !IsWhitespace(line[n - 1]);
      RunLengthPrefix(line, body, line[0]);
    }
  }

  lemma EndIsBlank(line: string)
    ensures forall k :: |WithoutEnd(line)| <= k < |line| ==> IsWhitespace(line[k])
  {
  }

  lemma FenceIsAtomic(text: string)
    requires Lines(text) != [] && FenceOpen(Lines(text)[0]).Some?
    ensures !Mergeable(TextRecord(text))
  {
    var line := Lines(text)[0];
    EndIsBlank(line);
    FenceWithoutEnd(line, WithoutEnd(line));
    assert BareLines(text)[0] == WithoutEnd(line);
    assert BareLines(text)[0] in BareLines(text);
  }

  // ----- blocks and chunks -----

  ghost predicate BlockAtomic(target: nat, block: Block) {
    block.kind != Ordinary ==>
      && |BlockRecords(target)(block)| == 1
      && !Mergeable(BlockRecords(target)(block)[0])
      && TextOf(BlockRecords(target)(block)[0]) == block.text
  }

  ghost predicate Separated(blocks: seq<Block>) {
    forall i :: 0 <= i < |blocks| - 1 ==> blocks[i].kind == Ordinary ==> blocks[i + 1].kind != Ordinary
  }

  lemma CutsSeparate(lines: seq<string>, blocks: seq<Block>, cuts: seq<nat>)
    requires Cuts(lines, 0, blocks, cuts)
    ensures Separated(blocks)
  {
    forall i | 0 <= i < |blocks| - 1 && blocks[i].kind == Ordinary ensures blocks[i + 1].kind != Ordinary {
      assert IsBlock(lines, cuts[i], cuts[i + 1], blocks[i].kind);
      assert IsBlock(lines, cuts[i + 1], cuts[i + 2], blocks[i + 1].kind);
      BlockKind(lines, cuts[i + 1], cuts[i + 2], blocks[i + 1].kind);
    }
  }

  lemma CutAtomic(text: string, blocks: seq<Block>, cuts: seq<nat>, b: nat, target: nat)
    requires Cuts(Lines(text), 0, blocks, cuts) && b < |blocks|
    ensures BlockAtomic(target, blocks[b])
  {
    var block := blocks[b];
    assert IsBlock(Lines(text), cuts[b], cuts[b + 1], block.kind);
    if block.kind == Table {
      TableIsAtomic(block.text);
    } else if block.kind == Fenced {
      FirstOfRun(text, cuts[b], cuts[b + 1]);
      FenceIsAtomic(block.text);
    }
  }

  lemma BlocksOfText(text: string, target: nat)
    ensures Separated(Blocks(text))
    ensures AllAtomic(target, Blocks(text))
  {
    var lines := Lines(text);
    LinesConcat(text);
    assert lines[0..0] == [];
    var cuts := BlocksFollowGrammar(lines, 0, 0);
    CutsSeparate(lines, Blocks(text), cuts);
    forall b: nat | b < |Blocks(text)| ensures BlockAtomic(target, Blocks(text)[b]) {
      CutAtomic(text, Blocks(text), cuts, b, target);
    }
  }

  lemma NothingMerged(target: nat)
    ensures Merged([], target) == []
  {
  }

  lemma JoinedCons(block: Block, rest: seq<Block>, f: Block -> seq<Value>)
    ensures Joined([block] + rest, f) == f(block) + Joined(rest, f)
  {
    JoinedConcat([block], rest, f);
    JoinedOne(block, f);
  }

  ghost predicate AllAtomic(target: nat, blocks: seq<Block>) {
    forall b :: 0 <= b < |blocks| ==> BlockAtomic(target, blocks[b])
  }

  lemma AtomicFirst(block: Block, rest: seq<Block>, before: seq<Value>, target: nat)
    requires block.kind != Ordinary && BlockAtomic(target, block)
    requires Merged(Joined(rest, BlockRecords(target)), target) == Joined(rest, BlockChunks(target))
    ensures Merged(before + Joined([block] + rest, BlockRecords(target)), target)
         == Merged(before, target) + Joined([block] + rest, BlockChunks(target))
  {
    var records, chunks := BlockRecords(target), BlockChunks(target);
    var x := records(block)[0];
    assert records(block) == [x] && chunks(block) == [x];
    JoinedCons(block, rest, records);
    JoinedCons(block, rest, chunks);
    MergedDivide(before, x, Joined(rest, records), target);
    Associate(before, [x], Joined(rest, records));
    Associate(Merged(before, target), [x], Joined(rest, chunks));
  }

  lemma OrdinaryFirst(first: Block, second: Block, rest: seq<Block>, target: nat)
    requires first.kind == Ordinary && second.kind != Ordinary && BlockAtomic(target, second)
    requires Merged(Joined(rest, BlockRecords(target)), target) == Joined(rest, BlockChunks(target))
    ensures var blocks := [first] + ([second] + rest);
            Merged(Joined(blocks, BlockRecords(target)), target) == Joined(blocks, BlockChunks(target))
  {
    AtomicFirst(second, rest, BlockRecords(target)(first), target);
    JoinedCons(first, [second] + rest, BlockRecords(target));
    JoinedCons(first, [second] + rest, BlockChunks(target));
  }

  lemma TailOk(blocks: seq<Block>, k: nat, target: nat)
    requires k <= |blocks| && Separated(blocks) && AllAtomic(target, blocks)
    ensures Separated(blocks[k..]) && AllAtomic(target, blocks[k..])
  {
  }

  /** Merging works block by block: tables and fences keep their records apart. */
  lemma {:induction false} MergedByBlock(blocks: seq<Block>, target: nat)
    requires Separated(blocks) && AllAtomic(target, blocks)
    ensures Merged(Joined(blocks, BlockRecords(target)), target) == Joined(blocks, BlockChunks(target))
    decreases |blocks|
  {
    NothingMerged(target);
    if blocks != [] && blocks[0].kind != Ordinary {
      TailOk(blocks, 1, target);
      MergedByBlock(blocks[1..], target);
      assert blocks == [blocks[0]] + blocks[1..];
      AtomicFirst(blocks[0], blocks[1..], [], target);
      assert [] + Joined(blocks, BlockRecords(target)) == Joined(blocks, BlockRecords(target));
    } else if |blocks| == 1 {
      JoinedOne(blocks[0], BlockRecords(target));
      JoinedOne(blocks[0], BlockChunks(target));
      assert blocks == [blocks[0]];
    } else if |blocks| > 1 {
      TailOk(blocks, 2, target);
      MergedByBlock(blocks[2..], target);
      OrdinaryFirst(blocks[0], blocks[1], blocks[2..], target);
      assert blocks == [blocks[0]] + ([blocks[1]] + blocks[2..]);
    }
  }

  /** The chunks of a markdown text, block by block and in order: each table and each fence is exactly one
      chunk with the block's own text, each ordinary block is split and merged by itself. */
  lemma ChunksByBlock(text: string, size: Option<nat>)
    requires !Blank(text)
    ensures Chunks(text, true, size) == Joined(Blocks(text), BlockChunks(TargetOf(size)))
    ensures AllAtomic(TargetOf(size), Blocks(text))
  {
    BlocksOfText(text, TargetOf(size));
    MergedByBlock(Blocks(text), TargetOf(size));
  }

  /** One chunk stands for the block: what comes before and after it are the chunks of the other blocks. */
  ghost predicate IsChunkOf(chunks: seq<Value>, blocks: seq<Block>, b: nat, f: Block -> seq<Value>, place: nat)
    requires b < |blocks|
  {
    && place < |chunks|
    && TextOf(chunks[place]) == blocks[b].text
    && chunks[..place] == Joined(blocks[..b], f)
    && chunks[place + 1..] == Joined(blocks[b + 1..], f)
  }

  lemma PlaceOf(blocks: seq<Block>, b: nat, f: Block -> seq<Value>, x: Value)
    requires b < |blocks| && f(blocks[b]) == [x] && TextOf(x) == blocks[b].text
    ensures IsChunkOf(Joined(blocks, f), blocks, b, f, |Joined(blocks[..b], f)|)
  {
    var all, before, after := Joined(blocks, f), Joined(blocks[..b], f), Joined(blocks[b + 1..], f);
    assert blocks == blocks[..b] + ([blocks[b]] + blocks[b + 1..]);
    JoinedConcat(blocks[..b], [blocks[b]] + blocks[b + 1..], f);
    JoinedCons(blocks[b], blocks[b + 1..], f);
    assert all == before + ([x] + after);
  }

  lemma AtomicChunks(block: Block, target: nat)
    requires block.kind != Ordinary && BlockAtomic(target, block)
    ensures exists x :: BlockChunks(target)(block) == [x] && TextOf(x) == block.text
  {
    assert BlockChunks(target)(block) == [BlockRecords(target)(block)[0]];
  }

  /** In particular every table and every fence is the text of exactly one chunk, at its place. */
  lemma AtomicBlockVerbatim(text: string, size: Option<nat>, b: nat)
    requires !Blank(text) && b < |Blocks(text)| && Blocks(text)[b].kind != Ordinary
    ensures exists place ::
              IsChunkOf(Chunks(text, true, size), Blocks(text), b, BlockChunks(TargetOf(size)), place)
  {
    ChunksByBlock(text, size);
    AtomicChunks(Blocks(text)[b], TargetOf(size));
    var x :| BlockChunks(TargetOf(size))(Blocks(text)[b]) == [x] && TextOf(x) == Blocks(text)[b].text;
    PlaceOf(Blocks(text), b, BlockChunks(TargetOf(size)), x);
  }

  // ----- no content is lost or invented -----

  function AllText(records: seq<Value>): string {
    if records == [] then "" else AllText(records[..|records| - 1]) + TextOf(records[|records| - 1])
  }

  lemma {:induction false} AllTextConcat(a: seq<Value>, b: seq<Value>)
    ensures AllText(a + b) == AllText(a) + AllText(b)
  {
    if b == [] {
      assert a + b == a;
    } else {
      var front, last := b[..|b| - 1], b[|b| - 1];
      AllTextConcat(a, front);
      assert (a + b)[..|a + b| - 1] == a + front;
      Associate(AllText(a), AllText(front), TextOf(last));
    }
  }

  function AllTextBy(records: seq<Value>, text: Value -> string): string {
    if records == [] then "" else AllTextBy(records[..|records| - 1], text) + text(records[|records| - 1])
  }

  lemma {:induction false} AllTextByTextOf(records: seq<Value>)
    ensures AllTextBy(records, TextOf) == AllText(records)
  {
    if records != [] { AllTextByTextOf(records[..|records| - 1]); }
  }

  lemma {:induction false} JoinedDense(p: Policy, g: Group)
    ensures Dense(JoinedText(p, g)) == Dense(AllTextBy(g, p.text))
  {
    if |g| == 1 {
      assert g[..0] == [] && AllTextBy([], p.text) == "";
      assert "" + p.text(g[0]) == p.text(g[0]);
    } else if |g| > 1 {
      var front, last := g[..|g| - 1], g[|g| - 1];
      JoinedDense(p, front);
      DenseConcat(JoinedText(p, front), "\n\n");
      DenseBlank("\n\n");
      DenseConcat(JoinedText(p, front) + "\n\n", p.text(last));
      DenseConcat(AllTextBy(front, p.text), p.text(last));
    }
  }

  lemma CombinedDense(target: nat, g: Group)
    requires GroupFits(CompilerPolicy(target), g)
    ensures Dense(TextOf(Combined(CompilerPolicy(target), g))) == Dense(AllText(g))
  {
    JoinedDense(CompilerPolicy(target), g);
    AllTextByTextOf(g);
    if |g| > 1 {
      assert g[0] in g;
      CombinedText(target, g);
    }
  }

  lemma DenseBoth(a: string, b: string, x: string, y: string)
    requires Dense(a) == Dense(x) && Dense(b) == Dense(y)
    ensures Dense(a + b) == Dense(x + y)
  {
    DenseConcat(a, b);
    DenseConcat(x, y);
  }

  lemma {:induction false} AllTextByConcat(a: seq<Value>, b: seq<Value>, text: Value -> string)
    ensures AllTextBy(a + b, text) == AllTextBy(a, text) + AllTextBy(b, text)
  {
    if b == [] {
      assert a + b == a;
    } else {
      var front, last := b[..|b| - 1], b[|b| - 1];
      AllTextByConcat(a, front, text);
      assert (a + b)[..|a + b| - 1] == a + front;
      Associate(AllTextBy(a, text), AllTextBy(front, text), text(last));
    }
  }

  lemma {:induction false} GroupwiseDense(out: seq<Value>, groups: seq<Group>, text: Value -> string)
    requires |out| == |groups|
    requires forall i :: 0 <= i < |out| ==> Dense(text(out[i])) == Dense(AllTextBy(groups[i], text))
    ensures Dense(AllTextBy(out, text)) == Dense(AllTextBy(Records(groups), text))
  {
    if out != [] {
      var front, last := groups[..|groups| - 1], groups[|groups| - 1];
      var before, record := out[..|out| - 1], out[|out| - 1];
      GroupwiseDense(before, front, text);
      AllTextByConcat(Records(front), last, text);
      DenseBoth(AllTextBy(before, text), text(record), AllTextBy(Records(front), text), AllTextBy(last, text));
    }
  }

  /** Coarse merging adds only white space between the texts it joins. */
  lemma MergedDense(records: seq<Value>, target: nat)
    ensures Dense(AllText(Merged(records, target))) == Dense(AllText(records))
  {
    if target >= MIN_COARSE_TOKENS {
      var p := CompilerPolicy(target);
      GroupsPartition(p, records);
      GroupsGreedy(p, records);
      var out, groups := Merged(records, target), Groups(p, records);
      forall i | 0 <= i < |out| ensures Dense(TextOf(out[i])) == Dense(AllTextBy(groups[i], TextOf)) {
        CombinedDense(target, groups[i]);
        AllTextByTextOf(groups[i]);
      }
      GroupwiseDense(out, groups, TextOf);
      AllTextByTextOf(out);
      AllTextByTextOf(records);
    }
  }

  lemma {:induction false} TextRecordsText(parts: seq<string>)
    ensures AllText(TextRecords(parts)) == Concat(parts)
  {
    if parts != [] {
      var front, last := parts[..|parts| - 1], parts[|parts| - 1];
      TextRecordsText(front);
      assert TextRecords(parts)[..|parts| - 1] == TextRecords(front);
      assert parts == front + [last];
      ConcatSnoc(front, last);
    }
  }

  lemma BlockDense(block: Block, target: nat)
    ensures Dense(AllText(BlockRecords(target)(block))) == Dense(block.text)
  {
    match block.kind
    case Table => OneRecord(TableRecord(block.text));
    case Fenced => OneRecord(TextRecord(block.text));
    case Ordinary =>
      var candidates := Candidates(LEVELS, block.text, 0, target);
      CandidatesDense(LEVELS, block.text, 0, target);
      DropBlankDense(candidates);
      TextRecordsText(DropBlank(candidates));
  }

  lemma OneRecord(record: Value)
    ensures AllText([record]) == TextOf(record)
  {
    assert [record][..0] == [];
  }

  lemma {:induction false} BlockwiseDense(blocks: seq<Block>, records: Block -> seq<Value>)
    requires forall block :: block in blocks ==> Dense(AllText(records(block))) == Dense(block.text)
    ensures Dense(AllText(Joined(blocks, records))) == Dense(Concat(Texts(blocks)))
  {
    if blocks != [] {
      var front, last := blocks[..|blocks| - 1], blocks[|blocks| - 1];
      BlockwiseDense(front, records);
      AllTextConcat(Joined(front, records), records(last));
      DenseBoth(AllText(Joined(front, records)), AllText(records(last)), Concat(Texts(front)), last.text);
      assert Texts(blocks) == Texts(front) + [last.text];
      ConcatSnoc(Texts(front), last.text);
    }
  }

  lemma JoinedBlocksDense(blocks: seq<Block>, target: nat)
    ensures Dense(AllText(Joined(blocks, BlockRecords(target)))) == Dense(Concat(Texts(blocks)))
  {
    forall block | block in blocks ensures Dense(AllText(BlockRecords(target)(block))) == Dense(block.text) {
      BlockDense(block, target);
    }
    BlockwiseDense(blocks, BlockRecords(target));
  }

  /** Splitting markdown into chunks loses and invents no content: with white space removed, the chunk
      texts put together are the source text. */
  lemma ChunksKeepContent(text: string, split: bool, size: Option<nat>)
    ensures Dense(AllText(Chunks(text, split, size))) == Dense(text)
  {
    if Blank(text) {
      DenseBlank(text);
    } else if !split {
      OneRecord(TextRecord(text));
    } else {
      var target := TargetOf(size);
      var records := Joined(Blocks(text), BlockRecords(target));
      MergedDense(records, target);
      JoinedBlocksDense(Blocks(text), target);
      BlocksConcat(text);
    }
  }
}
