/** What fence lines and table lines look like, character by character (src/compiler.rs:146-179). */
module MarkdownLines {
  import opened Markdown
  import opened Text

  ghost predicate Only(c: char, s: string) {
    forall i :: 0 <= i < |s| ==> s[i] == c
  }

  // ----- trimming -----

  lemma {:induction false} TrimStartParts(s: string) returns (before: string)
    ensures s == before + TrimStart(s) && Blank(before)
  {
    if s != "" && IsWhitespace(s[0]) {
      before := TrimStartParts(s[1..]);
      before := [s[0]] + before;
    } else {
      before := "";
    }
  }

  lemma {:induction false} TrimEndParts(s: string) returns (after: string)
    ensures s == TrimEnd(s) + after && Blank(after)
  {
    if s != "" && IsWhitespace(s[|s| - 1]) {
      after := TrimEndParts(s[..|s| - 1]);
      after := after + [s[|s| - 1]];
    } else {
      after := "";
    }
  }

  /** Trimming takes white space off both ends. */
  lemma TrimParts(s: string) returns (before: string, after: string)
    ensures s == before + Trim(s) + after && Blank(before) && Blank(after)
  {
    before := TrimStartParts(s);
    after := TrimEndParts(TrimStart(s));
    Associate(before, Trim(s), after);
  }

  lemma {:induction false} TrimStartOf(before: string, s: string)
    requires Blank(before) && (s == "" || !IsWhitespace(s[0]))
    ensures TrimStart(before + s) == s
  {
    if before == "" {
      assert before + s == s;
    } else {
      assert before[0] in before;
      assert (before + s)[1..] == before[1..] + s;
      TrimStartOf(before[1..], s);
    }
  }

  lemma {:induction false} TrimEndOf(s: string, after: string)
    requires Blank(after) && s != "" && !IsWhitespace(s[|s| - 1])
    ensures TrimEnd(s + after) == s
  {
    if after == "" {
      assert s + after == s;
    } else {
      var n := |after| - 1;
      assert after[n] in after;
      assert (s + after)[..|s| + n] == s + after[..n];
      TrimEndOf(s, after[..n]);
    }
  }

  lemma TrimOf(before: string, s: string, after: string)
    requires Blank(before) && Blank(after)
    requires s != "" && !IsWhitespace(s[0]) && !IsWhitespace(s[|s| - 1])
    ensures Trim(before + s + after) == s
  {
    Associate(before, s, after);
    TrimStartOf(before, s + after);
    TrimEndOf(s, after);
  }

  // ----- pipes -----

  /** A line begins a table row when its first character that is not white space is a pipe. */
  lemma PipeLine(line: string)
    ensures StartsWithPipe(line) <==> exists p :: 0 <= p < |line| && line[p] == '|' && Blank(line[..p])
  {
    var before := TrimStartParts(line);
    if StartsWithPipe(line) {
      assert line[|before|] == '|' && line[..|before|] == before;
    }
    if p :| 0 <= p < |line| && line[p] == '|' && Blank(line[..p]) {
      assert line == line[..p] + line[p..];
      TrimStartOf(line[..p], line[p..]);
    }
  }

  lemma {:induction false} TrimPipesParts(s: string) returns (lead: string, trail: string)
    ensures s == lead + TrimPipes(s) + trail && Only('|', lead) && Only('|', trail)
    ensures var t := TrimPipes(s); t == "" || (t[0] != '|' && t[|t| - 1] != '|')
    decreases |s|
  {
    if s != "" && s[0] == '|' {
      lead, trail := TrimPipesParts(s[1..]);
      lead := ['|'] + lead;
    } else if s != "" && s[|s| - 1] == '|' {
      lead, trail := TrimPipesParts(s[..|s| - 1]);
      trail := trail + ['|'];
    } else {
      lead, trail := "", "";
    }
  }

  lemma {:induction false} TrimPipesOf(lead: string, s: string, trail: string)
    requires Only('|', lead) && Only('|', trail) && s != "" && s[0] != '|' && s[|s| - 1] != '|'
    ensures TrimPipes(lead + s + trail) == s
    decreases |lead| + |trail|
  {
    var all := lead + s + trail;
    if lead != "" {
      assert all[1..] == lead[1..] + s + trail;
      TrimPipesOf(lead[1..], s, trail);
    } else if trail != "" {
      var n := |trail| - 1;
      assert all[0] == s[0];
      assert all[..|all| - 1] == lead + s + trail[..n];
      TrimPipesOf(lead, s, trail[..n]);
    } else {
      assert all == s;
    }
  }

  function JoinPipe(cells: seq<string>): string
    requires cells != []
  {
    if |cells| == 1 then cells[0] else cells[0] + "|" + JoinPipe(cells[1..])
  }

  ghost predicate PipeFree(cells: seq<string>) {
    forall cell :: cell in cells ==> '|' !in cell
  }

  lemma {:induction false} JoinSplit(s: string)
    ensures JoinPipe(SplitPipe(s)) == s && PipeFree(SplitPipe(s))
  {
    if s != "" {
      var rest := SplitPipe(s[1..]);
      JoinSplit(s[1..]);
      assert s == [s[0]] + s[1..];
      if s[0] == '|' {
        assert SplitPipe(s)[1..] == rest;
        assert "" + "|" + JoinPipe(rest) == s;
      } else {
        JoinFirst(s[0], rest);
      }
    }
  }

  lemma JoinFirst(c: char, rest: seq<string>)
    requires rest != []
    ensures JoinPipe([[c] + rest[0]] + rest[1..]) == [c] + JoinPipe(rest)
  {
    var cells := [[c] + rest[0]] + rest[1..];
    if |rest| > 1 {
      assert cells[1..] == rest[1..];
      assert [c] + rest[0] + "|" + JoinPipe(rest[1..]) == [c] + (rest[0] + "|" + JoinPipe(rest[1..]));
    }
  }

  lemma {:induction false} SplitFree(cell: string, rest: string)
    requires '|' !in cell
    ensures SplitPipe(cell) == [cell]
    ensures SplitPipe(cell + "|" + rest) == [cell] + SplitPipe(rest)
  {
    if cell == "" {
      assert (cell + "|" + rest)[1..] == rest;
    } else {
      var all := cell + "|" + rest;
      assert cell[0] in cell;
      forall c | c in cell[1..] ensures c in cell { }
      SplitFree(cell[1..], rest);
      assert all[1..] == cell[1..] + "|" + rest;
      assert [cell[0]] + cell[1..] == cell;
    }
  }

  lemma {:induction false} SplitJoin(cells: seq<string>)
    requires cells != [] && PipeFree(cells)
    ensures SplitPipe(JoinPipe(cells)) == cells
  {
    assert cells[0] in cells;
    if |cells| == 1 {
      SplitFree(cells[0], "");
    } else {
      SplitFree(cells[0], JoinPipe(cells[1..]));
      SplitJoin(cells[1..]);
    }
  }

  // ----- separator lines -----

  /** Dashes, at least three, with an optional colon on either side and white space around. */
  ghost predicate CellParts(cell: string, before: string, left: string, dashes: string, right: string, after: string) {
    && cell == before + (left + dashes + right) + after && Blank(before) && Blank(after)
    && (left == "" || left == ":") && (right == "" || right == ":") && |dashes| >= 3 && Only('-', dashes)
  }

  ghost predicate CellShape(cell: string) {
    exists before, left, dashes, right, after :: CellParts(cell, before, left, dashes, right, after)
  }

  /** Exactly such cells are separator cells. */
  lemma SeparatorCellShape(cell: string)
    ensures SeparatorCell(cell) <==> CellShape(cell)
  {
    if SeparatorCell(cell) { SeparatorCellParts(cell); }
    if CellShape(cell) {
      var before, left, dashes, right, after :| CellParts(cell, before, left, dashes, right, after);
      CellPartsSeparate(cell, before, left, dashes, right, after);
    }
  }

  lemma SeparatorCellParts(cell: string)
    requires SeparatorCell(cell)
    ensures CellShape(cell)
  {
    var before, after := TrimParts(cell);
    var t := Trim(cell);
    var u := if t != "" && t[0] == ':' then t[1..] else t;
    var dashes := if u != "" && u[|u| - 1] == ':' then u[..|u| - 1] else u;
    var left, right := if u == t then "" else ":", if dashes == u then "" else ":";
    assert t == left + dashes + right;
    assert CellParts(cell, before, left, dashes, right, after);
  }

  lemma CellPartsSeparate(cell: string, before: string, left: string, dashes: string, right: string, after: string)
    requires CellParts(cell, before, left, dashes, right, after)
    ensures SeparatorCell(cell)
  {
    var t := left + dashes + right;
    assert t[0] == (if left == "" then '-' else ':') && t[|t| - 1] == (if right == "" then '-' else ':');
    TrimOf(before, t, after);
    var u := if t[0] == ':' then t[1..] else t;
    assert u == dashes + right;
    assert (if u[|u| - 1] == ':' then u[..|u| - 1] else u) == dashes;
  }

  ghost predicate AllShaped(cells: seq<string>) {
    forall cell :: cell in cells ==> CellShape(cell)
  }

  /** White space, pipes, cells with one pipe between any two, pipes, white space. White space at an end without
      pipes is counted outside. */
  ghost predicate SeparatorParts(line: string, before: string, lead: string, cells: seq<string>, trail: string,
                                 after: string)
  {
    && cells != [] && AllShaped(cells) && PipeFree(cells)
    && line == before + (lead + JoinPipe(cells) + trail) + after
    && Blank(before) && Blank(after) && Only('|', lead) && Only('|', trail)
    && var core := lead + JoinPipe(cells) + trail;
       core != "" && !IsWhitespace(core[0]) && !IsWhitespace(core[|core| - 1])
  }

  /** A separator line has this shape ... */
  lemma SeparatorHasShape(line: string)
    returns (before: string, lead: string, cells: seq<string>, trail: string, after: string)
    requires IsTableSeparator(line)
    ensures SeparatorParts(line, before, lead, cells, trail, after)
  {
    before, after := TrimParts(line);
    lead, trail := TrimPipesParts(Trim(line));
    cells := SplitPipe(TrimPipes(Trim(line)));
    JoinSplit(TrimPipes(Trim(line)));
    forall cell | cell in cells ensures CellShape(cell) { SeparatorCellShape(cell); }
    SeparatorNotBlank(line);
  }

  lemma SeparatorNotBlank(line: string)
    requires IsTableSeparator(line)
    ensures Trim(line) != ""
  {
    assert !SeparatorCell("");
    assert "" in SplitPipe("");
  }

  lemma ShapedCellEnds(cells: seq<string>)
    requires cells != [] && AllShaped(cells) && PipeFree(cells)
    ensures var s := JoinPipe(cells); s != "" && s[0] != '|' && s[|s| - 1] != '|'
  {
    assert cells[0] in cells;
    ShapedNotEmpty(cells[0]);
    assert cells[0][0] in cells[0];
    if |cells| > 1 {
      forall cell | cell in cells[1..] ensures cell in cells { }
      ShapedCellEnds(cells[1..]);
    } else {
      assert cells[0][|cells[0]| - 1] in cells[0];
    }
  }

  lemma ShapedNotEmpty(cell: string)
    requires CellShape(cell)
    ensures cell != ""
  {
    var before, left, dashes, right, after :| CellParts(cell, before, left, dashes, right, after);
    assert |cell| >= |dashes|;
  }

  /** ... and every line of this shape is a separator line. */
  lemma ShapeSeparates(line: string, before: string, lead: string, cells: seq<string>, trail: string, after: string)
    requires SeparatorParts(line, before, lead, cells, trail, after)
    ensures IsTableSeparator(line)
  {
    TrimOf(before, lead + JoinPipe(cells) + trail, after);
    ShapedCellEnds(cells);
    TrimPipesOf(lead, JoinPipe(cells), trail);
    SplitJoin(cells);
    forall cell | cell in cells ensures SeparatorCell(cell) { SeparatorCellShape(cell); }
  }

  // ----- fences -----

  /** White space, then exactly `fence.length` marks, backticks or tildes, three at least. */
  ghost predicate OpensWith(line: string, fence: Fence, before: string, run: string, rest: string) {
    && line == before + (run + rest) && Blank(before) && (rest == "" || rest[0] != fence.mark)
    && Only(fence.mark, run) && |run| == fence.length && fence.length >= 3 && (fence.mark == '`' || fence.mark == '~')
  }

  lemma {:induction false} RunOf(run: string, c: char, rest: string)
    requires Only(c, run) && (rest == "" || rest[0] != c)
    ensures RunLength(run + rest, c) == |run|
  {
    if run == "" {
      assert run + rest == rest;
    } else {
      assert (run + rest)[1..] == run[1..] + rest;
      RunOf(run[1..], c, rest);
    }
  }

  lemma RunParts(s: string, c: char) returns (run: string, rest: string)
    ensures s == run + rest && Only(c, run) && |run| == RunLength(s, c) && (rest == "" || rest[0] != c)
  {
    var n := RunLength(s, c);
    run, rest := s[..n], s[n..];
  }

  /** A line opens a fence exactly when it has this shape, and the fence has its mark and length. */
  lemma FenceShape(line: string, fence: Fence)
    ensures FenceOpen(line) == Some(fence) <==> exists before, run, rest :: OpensWith(line, fence, before, run, rest)
  {
    if FenceOpen(line) == Some(fence) {
      var before := TrimStartParts(line);
      var run, rest := RunParts(TrimStart(line), fence.mark);
      assert OpensWith(line, fence, before, run, rest);
    }
    if before, run, rest :| OpensWith(line, fence, before, run, rest) {
      TrimStartOf(before, run + rest);
      RunOf(run, fence.mark, rest);
    }
  }

  lemma {:induction false} TrimLineEndParts(s: string) returns (after: string)
    ensures s == TrimLineEnd(s) + after && Blank(after)
  {
    if s != "" && (s[|s| - 1] == '\n' || s[|s| - 1] == '\r') {
      after := TrimLineEndParts(s[..|s| - 1]);
      after := after + [s[|s| - 1]];
    } else {
      after := "";
    }
  }

  /** White space, at least as many marks as the fence has, white space. */
  ghost predicate ClosesWith(line: string, fence: Fence, before: string, run: string, after: string) {
    && line == before + (run + after) && Blank(before) && Blank(after)
    && Only(fence.mark, run) && |run| >= fence.length
  }

  /** A line closes a fence exactly when it has this shape. */
  lemma FenceClosing(line: string, fence: Fence)
    requires (fence.mark == '`' || fence.mark == '~') && fence.length >= 3
    ensures FenceCloses(line, fence) <==> exists before, run, after :: ClosesWith(line, fence, before, run, after)
  {
    if FenceCloses(line, fence) {
      var before, run, after := ClosingParts(line, fence);
    }
    if before, run, after :| ClosesWith(line, fence, before, run, after) {
      ClosingCloses(line, fence, before, run, after);
    }
  }

  lemma ClosingParts(line: string, fence: Fence) returns (before: string, run: string, after: string)
    requires FenceCloses(line, fence)
    ensures ClosesWith(line, fence, before, run, after)
  {
    var ending := TrimLineEndParts(line);
    before := TrimStartParts(TrimLineEnd(line));
    run, after := RunParts(TrimStart(TrimLineEnd(line)), fence.mark);
    BlankConcat(after, ending);
    assert line == before + (run + (after + ending));
    after := after + ending;
  }

  lemma ClosingCloses(line: string, fence: Fence, before: string, run: string, after: string)
    requires (fence.mark == '`' || fence.mark == '~') && fence.length >= 3
    requires ClosesWith(line, fence, before, run, after)
    ensures FenceCloses(line, fence)
  {
    var s := TrimLineEnd(line);
    LineEndAfter(before + run, after);
    assert line == before + run + after;
    var after' :| s == before + run + after' && Blank(after');
    assert s == before + (run + after');
    TrimStartOf(before, run + after');
    assert after' != "" ==> after'[0] in after';
    RunOf(run, fence.mark, after');
    assert (run + after')[|run|..] == after';
  }

  lemma {:induction false} LineEndAfter(s: string, after: string)
    requires Blank(after) && s != "" && !IsWhitespace(s[|s| - 1])
    ensures exists after' :: TrimLineEnd(s + after) == s + after' && Blank(after')
  {
    var all := s + after;
    if after == "" {
      assert all == s;
      assert TrimLineEnd(all) == s + "" && Blank("");
    } else {
      var n := |after| - 1;
      assert after[n] in after;
      BlankConcat(after[..n], [after[n]]);
      assert after == after[..n] + [after[n]];
      if after[n] == '\n' || after[n] == '\r' {
        assert all[..|all| - 1] == s + after[..n];
        LineEndAfter(s, after[..n]);
      } else {
        assert TrimLineEnd(all) == s + after;
      }
    }
  }
}
