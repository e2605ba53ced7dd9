/** Markdown lines and blocks (src/compiler.rs:146-225). */
module Markdown {
  import opened Text

  // ----- lines -----

  /** The length of the first line with its line end. */
  function FirstLine(text: string): (n: nat)
    requires text != ""
    ensures 0 < n <= |text|
  {
    if text[0] == '\n' || |text| == 1 then 1 else 1 + FirstLine(text[1..])
  }

  /** `split_inclusive('\n')`. */
  function Lines(text: string): (lines: seq<string>)
    decreases |text|
  {
    if text == "" then []
    else
      var n := FirstLine(text);
      [text[..n]] + Lines(text[n..])
  }

  lemma {:induction false} LinesConcat(text: string)
    ensures Concat(Lines(text)) == text
    ensures forall l :: l in Lines(text) ==> l != ""
    decreases |text|
  {
    if text != "" {
      var n := FirstLine(text);
      LinesConcat(text[n..]);
      assert text == text[..n] + text[n..];
      assert Lines(text)[1..] == Lines(text[n..]);
    }
  }

  // ----- tables and fences -----

  predicate StartsWithPipe(line: string) {
    var t := TrimStart(line);
    t != "" && t[0] == '|'
  }

  function TrimPipes(s: string): string {
    if s != "" && s[0] == '|' then TrimPipes(s[1..])
    else if s != "" && s[|s| - 1] == '|' then TrimPipes(s[..|s| - 1])
    else s
  }

  function SplitPipe(s: string): (cells: seq<string>)
    ensures |cells| > 0
  {
    if s == "" then [""]
    else
      var rest := SplitPipe(s[1..]);
      if s[0] == '|' then [""] + rest else [[s[0]] + rest[0]] + rest[1..]
  }

  /** A cell of three or more dashes, with an optional colon on either side. */
  predicate SeparatorCell(cell: string) {
    var t := Trim(cell);
    var u := if t != "" && t[0] == ':' then t[1..] else t;
    var body := if u != "" && u[|u| - 1] == ':' then u[..|u| - 1] else u;
    |body| >= 3 && forall c :: c in body ==> c == '-'
  }

  /** `is_markdown_table_separator`. */
  predicate IsTableSeparator(line: string) {
    forall cell :: cell in SplitPipe(TrimPipes(Trim(line))) ==> SeparatorCell(cell)
  }

  function RunLength(s: string, c: char): (n: nat)
    ensures n <= |s|
    ensures forall i :: 0 <= i < n ==> s[i] == c
    ensures n < |s| ==> s[n] != c
  {
    if s != "" && s[0] == c then 1 + RunLength(s[1..], c) else 0
  }

  datatype Fence = Fence(mark: char, length: nat)

  /** `fence_open`. */
  function FenceOpen(line: string): Option<Fence> {
    var t := TrimStart(line);
    if t == "" || (t[0] != '`' && t[0] != '~') then None
    else
      var n := RunLength(t, t[0]);
      if n >= 3 then Some(Fence(t[0], n)) else None
  }

  function TrimLineEnd(s: string): string {
    if s != "" && (s[|s| - 1] == '\n' || s[|s| - 1] == '\r') then TrimLineEnd(s[..|s| - 1]) else s
  }

  /** `fence_closes`. */
  predicate FenceCloses(line: string, fence: Fence) {
    var t := TrimStart(TrimLineEnd(line));
    var run := RunLength(t, fence.mark);
    run >= fence.length && Blank(t[run..])
  }

  // ----- blocks -----

  datatype Kind = Ordinary | Fenced | Table
  datatype Block = Block(text: string, kind: Kind)

  predicate TableStart(lines: seq<string>, i: nat) {
    i + 1 < |lines| && StartsWithPipe(lines[i]) && IsTableSeparator(lines[i + 1])
  }

  /** A line that begins a fenced block or a table. */
  predicate Special(lines: seq<string>, i: nat)
    requires i < |lines|
  {
    FenceOpen(lines[i]).Some? || TableStart(lines, i)
  }

  /** The end of a fenced block: after the first closing line from `j` on, or at the end of the text. */
  function FenceEnd(lines: seq<string>, j: nat, fence: Fence): (e: nat)
    requires j <= |lines|
    ensures j <= e <= |lines|
    decreases |lines| - j
  {
    if j == |lines| then j
    else if FenceCloses(lines[j], fence) then j + 1
    else FenceEnd(lines, j + 1, fence)
  }

  /** The end of a table: the first line from `j` on without a leading pipe. */
  function TableEnd(lines: seq<string>, j: nat): (e: nat)
    requires j <= |lines|
    ensures j <= e <= |lines|
    decreases |lines| - j
  {
    if j < |lines| && StartsWithPipe(lines[j]) then TableEnd(lines, j + 1) else j
  }

  function Flush(ordinary: string): seq<Block> {
    if ordinary == "" then [] else [Block(ordinary, Ordinary)]
  }

  /** The blocks of the lines from `i` on, with ordinary text still open. */
  function BlocksFrom(lines: seq<string>, i: nat, ordinary: string): seq<Block>
    requires i <= |lines|
    decreases |lines| - i
  {
    if i == |lines| then Flush(ordinary)
    else
      var fence := FenceOpen(lines[i]);
      if fence.Some? then
        var e := FenceEnd(lines, i + 1, fence.value);
        Flush(ordinary) + [Block(Concat(lines[i..e]), Fenced)] + BlocksFrom(lines, e, "")
      else if TableStart(lines, i) then
        var e := TableEnd(lines, i + 2);
        Flush(ordinary) + [Block(Concat(lines[i..e]), Table)] + BlocksFrom(lines, e, "")
      else BlocksFrom(lines, i + 1, ordinary + lines[i])
  }

  lemma ConcatSlice(lines: seq<string>, i: nat, e: nat)
    requires i <= e < |lines|
    ensures Concat(lines[i..e + 1]) == Concat(lines[i..e]) + lines[e]
  {
    ConcatSnoc(lines[i..e], lines[e]);
    assert lines[i..e + 1] == lines[i..e] + [lines[e]];
  }

  method TakeFence(lines: seq<string>, i: nat, fence: Fence) returns (code: string, e: nat)
    requires i < |lines|
    ensures e == FenceEnd(lines, i + 1, fence) && code == Concat(lines[i..e])
  {
    code, e := lines[i], i + 1;
    assert lines[i..e] == [lines[i]];
    while e < |lines|
      invariant i < e <= |lines|
      invariant code == Concat(lines[i..e])
      invariant FenceEnd(lines, e, fence) == FenceEnd(lines, i + 1, fence)
    {
      ConcatSlice(lines, i, e);
      code := code + lines[e];
      var closing := FenceCloses(lines[e], fence);
      e := e + 1;
      if closing {
        return;
      }
    }
  }

  method TakeTable(lines: seq<string>, i: nat) returns (table: string, e: nat)
    requires TableStart(lines, i)
    ensures e == TableEnd(lines, i + 2) && table == Concat(lines[i..e])
  {
    table, e := lines[i] + lines[i + 1], i + 2;
    assert lines[i..i + 1] == [lines[i]];
    ConcatSlice(lines, i, i + 1);
    while e < |lines| && StartsWithPipe(lines[e])
      invariant i < e <= |lines|
      invariant table == Concat(lines[i..e])
      invariant TableEnd(lines, e) == TableEnd(lines, i + 2)
    {
      ConcatSlice(lines, i, e);
      table := table + lines[e];
      e := e + 1;
    }
  }

  /** `split_markdown_blocks`. */
  method SplitMarkdownBlocks(text: string) returns (blocks: seq<Block>)
    ensures blocks == BlocksFrom(Lines(text), 0, "")
  {
    var lines := Lines(text);
    ghost var whole := BlocksFrom(lines, 0, "");
    blocks := [];
    var ordinary := "";
    var i: nat := 0;
    while i < |lines|
      invariant i <= |lines|
      invariant whole == blocks + BlocksFrom(lines, i, ordinary)
    {
      var fence := FenceOpen(lines[i]);
      if fence.Some? {
        var code, e := TakeFence(lines, i, fence.value);
        Associate(blocks, Flush(ordinary) + [Block(code, Fenced)], BlocksFrom(lines, e, ""));
        blocks := blocks + (Flush(ordinary) + [Block(code, Fenced)]);
        ordinary, i := "", e;
      } else if TableStart(lines, i) {
        var table, e := TakeTable(lines, i);
        Associate(blocks, Flush(ordinary) + [Block(table, Table)], BlocksFrom(lines, e, ""));
        blocks := blocks + (Flush(ordinary) + [Block(table, Table)]);
        ordinary, i := "", e;
      } else {
        ordinary := ordinary + lines[i];
        i := i + 1;
      }
    }
    blocks := blocks + Flush(ordinary);
  }

  // ----- the grammar of blocks -----

  /** The lines from `i` to `e` form one block of this kind. */
  ghost predicate IsBlock(lines: seq<string>, i: nat, e: nat, kind: Kind) {
    && i < e <= |lines|
    && match kind
       case Fenced =>
         && FenceOpen(lines[i]).Some?
         && (forall k :: i < k < e - 1 ==> !FenceCloses(lines[k], FenceOpen(lines[i]).value))
         && (e == |lines| || (e - 1 > i && FenceCloses(lines[e - 1], FenceOpen(lines[i]).value)))
       case Table =>
         && FenceOpen(lines[i]).None?
         && TableStart(lines, i)
         && i + 2 <= e
         && (forall k :: i + 2 <= k < e ==> StartsWithPipe(lines[k]))
         && (e < |lines| ==> !StartsWithPipe(lines[e]))
       case Ordinary =>
         && (forall k :: i <= k < e ==> !Special(lines, k))
         && (e < |lines| ==> Special(lines, e))
  }

  lemma {:induction false} FenceEndIsFirst(lines: seq<string>, j: nat, fence: Fence)
    requires j <= |lines|
    ensures var e := FenceEnd(lines, j, fence);
            && (forall k :: j <= k < e - 1 ==> !FenceCloses(lines[k], fence))
            && (e == |lines| || (e > j && FenceCloses(lines[e - 1], fence)))
    decreases |lines| - j
  {
    if j < |lines| && !FenceCloses(lines[j], fence) { FenceEndIsFirst(lines, j + 1, fence); }
  }

  lemma {:induction false} TableEndIsFirst(lines: seq<string>, j: nat)
    requires j <= |lines|
    ensures var e := TableEnd(lines, j);
            && (forall k :: j <= k < e ==> StartsWithPipe(lines[k]))
            && (e < |lines| ==> !StartsWithPipe(lines[e]))
    decreases |lines| - j
  {
    if j < |lines| && StartsWithPipe(lines[j]) { TableEndIsFirst(lines, j + 1); }
  }

  /** Cut points that divide the lines from `start` on into the given blocks. */
  ghost predicate Cuts(lines: seq<string>, start: nat, blocks: seq<Block>, cuts: seq<nat>) {
    && |cuts| == |blocks| + 1
    && cuts[0] == start && cuts[|blocks|] == |lines|
    && forall b :: 0 <= b < |blocks| ==>
         IsBlock(lines, cuts[b], cuts[b + 1], blocks[b].kind) && blocks[b].text == Concat(lines[cuts[b]..cuts[b + 1]])
  }

  lemma CutsCons(lines: seq<string>, start: nat, e: nat, block: Block, rest: seq<Block>, cuts: seq<nat>)
    requires Cuts(lines, e, rest, cuts)
    requires IsBlock(lines, start, e, block.kind) && block.text == Concat(lines[start..e])
    ensures Cuts(lines, start, [block] + rest, [start] + cuts)
  {
  }

  lemma FlushCuts(lines: seq<string>, start: nat, i: nat, rest: seq<Block>, cuts: seq<nat>)
    returns (all: seq<nat>)
    requires start <= i <= |lines| && Cuts(lines, i, rest, cuts)
    requires forall k :: start <= k < i ==> !Special(lines, k)
    requires i < |lines| ==> Special(lines, i)
    requires forall l :: l in lines ==> l != ""
    ensures Cuts(lines, start, Flush(Concat(lines[start..i])) + rest, all)
  {
    if start == i {
      assert lines[start..i] == [];
      assert Flush("") + rest == rest;
      all := cuts;
    } else {
      assert lines[start] in lines && lines[start..i][0] == lines[start];
      CutsCons(lines, start, i, Block(Concat(lines[start..i]), Ordinary), rest, cuts);
      all := [start] + cuts;
    }
  }

  lemma SpecialBlock(lines: seq<string>, i: nat, ordinary: string) returns (e: nat, kind: Kind)
    requires i < |lines| && Special(lines, i)
    ensures IsBlock(lines, i, e, kind)
    ensures BlocksFrom(lines, i, ordinary)
         == Flush(ordinary) + [Block(Concat(lines[i..e]), kind)] + BlocksFrom(lines, e, "")
  {
    var fence := FenceOpen(lines[i]);
    if fence.Some? {
      e, kind := FenceEnd(lines, i + 1, fence.value), Fenced;
      FenceEndIsFirst(lines, i + 1, fence.value);
    } else {
      e, kind := TableEnd(lines, i + 2), Table;
      TableEndIsFirst(lines, i + 2);
    }
  }

  /** The blocks divide the text: each is a maximal ordinary run, a fence up to its first closing line, or
      a table up to its last row. */
  lemma {:induction false} BlocksFollowGrammar(lines: seq<string>, start: nat, i: nat)
    returns (cuts: seq<nat>)
    requires start <= i <= |lines|
    requires forall k :: start <= k < i ==> !Special(lines, k)
    requires forall l :: l in lines ==> l != ""
    ensures Cuts(lines, start, BlocksFrom(lines, i, Concat(lines[start..i])), cuts)
    decreases |lines| - i
  {
    var ordinary := Concat(lines[start..i]);
    if i == |lines| {
      cuts := FlushCuts(lines, start, i, [], [|lines|]);
      assert Flush(ordinary) + [] == Flush(ordinary);
    } else if Special(lines, i) {
      var e, kind := SpecialBlock(lines, i, ordinary);
      assert lines[e..e] == [];
      var rest := BlocksFollowGrammar(lines, e, e);
      var block := Block(Concat(lines[i..e]), kind);
      CutsCons(lines, i, e, block, BlocksFrom(lines, e, ""), rest);
      cuts := FlushCuts(lines, start, i, [block] + BlocksFrom(lines, e, ""), [i] + rest);
      Associate(Flush(ordinary), [block], BlocksFrom(lines, e, ""));
    } else {
      ConcatSlice(lines, start, i);
      cuts := BlocksFollowGrammar(lines, start, i + 1);
    }
  }

  /** The grammar is deterministic: where a block starts decides its kind and its end. */
  lemma BlockUnique(lines: seq<string>, i: nat, e: nat, kind: Kind, e': nat, kind': Kind)
    requires IsBlock(lines, i, e, kind) && IsBlock(lines, i, e', kind')
    ensures e == e' && kind == kind'
  {
    BlockKind(lines, i, e, kind);
    BlockKind(lines, i, e', kind');
    NoShorterBlock(lines, i, e, e', kind);
    NoShorterBlock(lines, i, e', e, kind);
  }

  lemma BlockKind(lines: seq<string>, i: nat, e: nat, kind: Kind)
    requires IsBlock(lines, i, e, kind)
    ensures kind == if FenceOpen(lines[i]).Some? then Fenced else if TableStart(lines, i) then Table else Ordinary
  {
    if kind == Ordinary { assert !Special(lines, i); }
  }

  /** What ends a block before the end of the text. */
  predicate EndsHere(lines: seq<string>, i: nat, e: nat, kind: Kind)
    requires i < e < |lines|
  {
    match kind
    case Fenced => FenceOpen(lines[i]).Some? && e - 1 > i && FenceCloses(lines[e - 1], FenceOpen(lines[i]).value)
    case Table => i + 2 <= e && !StartsWithPipe(lines[e])
    case Ordinary => Special(lines, e)
  }

  lemma BlockEnds(lines: seq<string>, i: nat, e: nat, kind: Kind)
    requires IsBlock(lines, i, e, kind) && e < |lines|
    ensures EndsHere(lines, i, e, kind)
  {
  }

  lemma BlockGoesOn(lines: seq<string>, i: nat, e: nat, e': nat, kind: Kind)
    requires IsBlock(lines, i, e', kind) && i < e < e'
    ensures !EndsHere(lines, i, e, kind)
  {
  }

  lemma NoShorterBlock(lines: seq<string>, i: nat, e: nat, e': nat, kind: Kind)
    requires IsBlock(lines, i, e, kind) && IsBlock(lines, i, e', kind)
    ensures e >= e'
  {
    if e < e' {
      BlockEnds(lines, i, e, kind);
      BlockGoesOn(lines, i, e, e', kind);
    }
  }

  /** So there is only one way to divide a text into blocks. */
  lemma {:induction false} BlocksUnique(lines: seq<string>, start: nat, blocks: seq<Block>, cuts: seq<nat>,
                                        blocks': seq<Block>, cuts': seq<nat>)
    requires Cuts(lines, start, blocks, cuts) && Cuts(lines, start, blocks', cuts')
    ensures blocks == blocks'
    decreases |blocks|
  {
    assert blocks != [] ==> IsBlock(lines, start, cuts[1], blocks[0].kind);
    assert blocks' != [] ==> IsBlock(lines, start, cuts'[1], blocks'[0].kind);
    if blocks != [] && blocks' != [] {
      BlockUnique(lines, start, cuts[1], blocks[0].kind, cuts'[1], blocks'[0].kind);
      BlocksUnique(lines, cuts[1], blocks[1..], cuts[1..], blocks'[1..], cuts'[1..]);
      assert blocks == [blocks[0]] + blocks[1..] && blocks' == [blocks'[0]] + blocks'[1..];
    }
  }

  function Texts(blocks: seq<Block>): (r: seq<string>)
    ensures |r| == |blocks| && forall i :: 0 <= i < |r| ==> r[i] == blocks[i].text
  {
    seq(|blocks|, i requires 0 <= i < |blocks| => blocks[i].text)
  }

  lemma {:induction false} CutsConcat(lines: seq<string>, start: nat, blocks: seq<Block>, cuts: seq<nat>)
    requires Cuts(lines, start, blocks, cuts) && start <= |lines|
    ensures Concat(Texts(blocks)) == Concat(lines[start..])
    decreases |blocks|
  {
    if blocks == [] {
      assert lines[start..] == [];
    } else {
      var e := cuts[1];
      CutsConcat(lines, e, blocks[1..], cuts[1..]);
      assert Texts(blocks)[1..] == Texts(blocks[1..]);
      assert lines[start..] == lines[start..e] + lines[e..];
      ConcatAppend(lines[start..e], lines[e..]);
    }
  }

  /** Put together the blocks are the text. */
  lemma BlocksConcat(text: string)
    ensures Concat(Texts(BlocksFrom(Lines(text), 0, ""))) == text
  {
    var lines := Lines(text);
    LinesConcat(text);
    assert lines[0..0] == [] && lines[0..] == lines;
    var cuts := BlocksFollowGrammar(lines, 0, 0);
    CutsConcat(lines, 0, BlocksFrom(lines, 0, ""), cuts);
  }
}
