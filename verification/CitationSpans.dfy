/** Repair touches citations only: the answer and its repair are two readings of one
    sequence of segments (src/dialog.rs:60-88). */
module CitationSpans {
  import opened Text
  import opened Dialog
  import opened CitationRepair

  /** A character kept as it is, or a citation and the digits it became a marker of. */
  datatype Segment = Kept(c: char) | Cited(citation: string, digits: string)

  function SourceOf(seg: Segment): string {
    match seg case Kept(c) => [c] case Cited(citation, _) => citation
  }

  function ViewOf(seg: Segment): string {
    match seg case Kept(c) => [c] case Cited(_, digits) => Canon(digits)
  }

  /** The text before repair. */
  function Source(segs: seq<Segment>): string {
    if segs == [] then ""
    else SourceOf(segs[0]) + Source(segs[1..])
  }

  /** The text after repair. */
  function View(segs: seq<Segment>): string {
    if segs == [] then ""
    else ViewOf(segs[0]) + View(segs[1..])
  }

  /** A whole citation in one of the four forms, with an index in range. */
  ghost predicate IsCitation(ctx: Ctx, limit: nat, citation: string, digits: string) {
    InRange(limit, digits) && exists p :: MatchAt(ctx, p, citation) == Some(Match(|citation|, digits))
  }

  ghost predicate CitationsOnly(ctx: Ctx, limit: nat, segs: seq<Segment>) {
    forall i :: 0 <= i < |segs| && segs[i].Cited? ==>
      segs[i].digits != "" && IsCitation(ctx, limit, segs[i].citation, segs[i].digits)
  }

  function AllKept(s: string): (segs: seq<Segment>)
    ensures |segs| == |s| && forall i :: 0 <= i < |s| ==> segs[i] == Kept(s[i])
  {
    seq(|s|, i requires 0 <= i < |s| => Kept(s[i]))
  }

  lemma {:induction false} AllKeptReads(s: string)
    ensures Source(AllKept(s)) == s && View(AllKept(s)) == s
  {
    if s != "" {
      AllKeptReads(s[1..]);
      assert AllKept(s)[1..] == AllKept(s[1..]);
    }
  }

  lemma SourceCons(first: Segment, rest: seq<Segment>)
    ensures Source([first] + rest) == SourceOf(first) + Source(rest)
  {
    assert ([first] + rest)[1..] == rest;
  }

  lemma {:induction false} SourceConcat(a: seq<Segment>, b: seq<Segment>)
    ensures Source(a + b) == Source(a) + Source(b)
  {
    if a == [] {
      assert a + b == b;
    } else {
      SourceConcat(a[1..], b);
      assert a + b == [a[0]] + (a[1..] + b);
      SourceCons(a[0], a[1..] + b);
      Associate(SourceOf(a[0]), Source(a[1..]), Source(b));
    }
  }

  lemma ViewCons(first: Segment, rest: seq<Segment>)
    ensures View([first] + rest) == ViewOf(first) + View(rest)
  {
    assert ([first] + rest)[1..] == rest;
  }

  lemma {:induction false} ViewConcat(a: seq<Segment>, b: seq<Segment>)
    ensures View(a + b) == View(a) + View(b)
  {
    if a == [] {
      assert a + b == b;
    } else {
      ViewConcat(a[1..], b);
      assert a + b == [a[0]] + (a[1..] + b);
      ViewCons(a[0], a[1..] + b);
      Associate(ViewOf(a[0]), View(a[1..]), View(b));
    }
  }

  /** The first `n` characters of the view are the first `n` segments, all kept. */
  ghost predicate KeptUpTo(segs: seq<Segment>, n: nat) {
    && n <= |segs| && n <= |View(segs)|
    && segs[..n] == AllKept(View(segs)[..n])
    && View(segs[n..]) == View(segs)[n..]
  }

  lemma KeptUpToCons(segs: seq<Segment>, n: nat)
    requires segs != [] && segs[0].Kept? && KeptUpTo(segs[1..], n)
    ensures KeptUpTo(segs, n + 1)
  {
    var c, rest := segs[0].c, View(segs[1..]);
    assert segs == [segs[0]] + segs[1..];
    SlicesCons(segs[0], segs[1..], n);
    SlicesCons(c, rest, n);
    AllKeptCons(c, rest[..n]);
  }

  lemma SlicesCons<T>(first: T, rest: seq<T>, n: nat)
    requires n <= |rest|
    ensures ([first] + rest)[..n + 1] == [first] + rest[..n]
    ensures ([first] + rest)[n + 1..] == rest[n..]
  {
  }

  lemma AllKeptCons(c: char, s: string)
    ensures AllKept([c] + s) == [Kept(c)] + AllKept(s)
  {
  }

  /** A stretch of the view without a `[` consists of kept characters. */
  lemma {:induction false} KeptStretch(segs: seq<Segment>, n: nat)
    requires n <= |View(segs)|
    ensures '[' in View(segs)[..n] || KeptUpTo(segs, n)
  {
    if n == 0 {
      assert segs[0..] == segs;
    } else if segs[0].Kept? {
      var rest := View(segs[1..]);
      assert View(segs) == [segs[0].c] + rest;
      assert View(segs)[..n] == [segs[0].c] + rest[..n - 1];
      KeptStretch(segs[1..], n - 1);
      if KeptUpTo(segs[1..], n - 1) { KeptUpToCons(segs, n - 1); }
    } else {
      assert View(segs)[..n][0] == '[';
    }
  }

  /** The text of a match that starts with a kept character consists of kept characters. */
  lemma MatchedStretch(f: Matcher, segs: seq<Segment>)
    requires Plain(f) && segs != [] && segs[0].Kept? && f(View(segs)).Some?
    ensures KeptUpTo(segs, f(View(segs)).value.len)
  {
    var n := f(View(segs)).value.len;
    ViewTail(segs, n);
    KeptStretch(segs[1..], n - 1);
    KeptUpToCons(segs, n - 1);
  }

  lemma ViewTail(segs: seq<Segment>, n: nat)
    requires segs != [] && segs[0].Kept? && 1 <= n <= |View(segs)|
    ensures n - 1 <= |View(segs[1..])| && View(segs[1..])[..n - 1] == View(segs)[1..n]
  {
    TailSlice(segs[0].c, View(segs[1..]), n);
  }

  lemma TailSlice(c: char, rest: string, n: nat)
    requires 1 <= n <= |rest| + 1
    ensures rest[..n - 1] == ([c] + rest)[1..n]
  {
  }

  /** A pass leaves canonical markers alone. */
  ghost predicate KeepsCanon(f: Matcher, limit: nat) {
    forall digits, rest :: digits != "" && InRange(limit, digits) ==>
      Rewrite(f, limit, Canon(digits) + rest) == Canon(digits) + Rewrite(f, limit, rest)
  }

  /** What `f` matches is a citation, also on its own. */
  ghost predicate MatchesCitations(ctx: Ctx, limit: nat, f: Matcher) {
    forall s :: f(s).Some? && InRange(limit, f(s).value.digits) ==>
      IsCitation(ctx, limit, s[..f(s).value.len], f(s).value.digits)
  }

  lemma {:induction false} SegmentPass(ctx: Ctx, f: Matcher, limit: nat, segs: seq<Segment>) returns (r: seq<Segment>)
    requires Plain(f) && KeepsCanon(f, limit) && MatchesCitations(ctx, limit, f)
    requires CitationsOnly(ctx, limit, segs)
    ensures CitationsOnly(ctx, limit, r)
    ensures Source(r) == Source(segs) && View(r) == Rewrite(f, limit, View(segs))
    decreases |segs|
  {
    if segs == [] {
      r := [];
    } else if segs[0].Cited? || f(View(segs)) == None {
      var tail := SegmentPass(ctx, f, limit, segs[1..]);
      r := [segs[0]] + tail;
      assert r[1..] == tail;
      KeptHead(f, limit, segs);
    } else {
      var n := f(View(segs)).value.len;
      MatchedStretch(f, segs);
      var tail := SegmentPass(ctx, f, limit, segs[n..]);
      r := MatchedHead(ctx, f, limit, segs, tail);
    }
  }

  /** The segments of a match become one citation, or stay when the index is out of range. */
  lemma MatchedHead(ctx: Ctx, f: Matcher, limit: nat, segs: seq<Segment>, tail: seq<Segment>) returns (r: seq<Segment>)
    requires segs != [] && f(View(segs)).Some? && KeptUpTo(segs, f(View(segs)).value.len)
    requires MatchesCitations(ctx, limit, f) && CitationsOnly(ctx, limit, segs) && CitationsOnly(ctx, limit, tail)
    requires var rest := segs[f(View(segs)).value.len..];
             Source(tail) == Source(rest) && View(tail) == Rewrite(f, limit, View(rest))
    ensures CitationsOnly(ctx, limit, r)
    ensures Source(r) == Source(segs) && View(r) == Rewrite(f, limit, View(segs))
  {
    var v := View(segs);
    var m := f(v).value;
    var head := if InRange(limit, m.digits) then [Cited(v[..m.len], m.digits)] else segs[..m.len];
    r := head + tail;
    SourceConcat(head, tail);
    ViewConcat(head, tail);
    HeadReads(f, limit, segs, head);
    HeadCites(ctx, f, limit, segs, head);
    CitationsConcat(ctx, limit, head, tail);
    RewriteStep(f, limit, v);
  }

  lemma CitationsConcat(ctx: Ctx, limit: nat, a: seq<Segment>, b: seq<Segment>)
    requires CitationsOnly(ctx, limit, a) && CitationsOnly(ctx, limit, b)
    ensures CitationsOnly(ctx, limit, a + b)
  {
  }

  lemma HeadCites(ctx: Ctx, f: Matcher, limit: nat, segs: seq<Segment>, head: seq<Segment>)
    requires f(View(segs)).Some? && f(View(segs)).value.len <= |segs| && MatchesCitations(ctx, limit, f)
    requires CitationsOnly(ctx, limit, segs)
    requires var m := f(View(segs)).value;
             head == if InRange(limit, m.digits) then [Cited(View(segs)[..m.len], m.digits)] else segs[..m.len]
    ensures CitationsOnly(ctx, limit, head)
  {
    var m := f(View(segs)).value;
    if InRange(limit, m.digits) {
      SingleCites(ctx, limit, View(segs)[..m.len], m.digits);
    } else {
      SliceCites(ctx, limit, segs, m.len);
    }
  }

  lemma SingleCites(ctx: Ctx, limit: nat, citation: string, digits: string)
    requires digits != "" && IsCitation(ctx, limit, citation, digits)
    ensures CitationsOnly(ctx, limit, [Cited(citation, digits)])
  {
  }

  lemma SliceCites(ctx: Ctx, limit: nat, segs: seq<Segment>, n: nat)
    requires CitationsOnly(ctx, limit, segs) && n <= |segs|
    ensures CitationsOnly(ctx, limit, segs[..n])
  {
  }

  lemma HeadReads(f: Matcher, limit: nat, segs: seq<Segment>, head: seq<Segment>)
    requires segs != [] && f(View(segs)).Some? && KeptUpTo(segs, f(View(segs)).value.len)
    requires var m := f(View(segs)).value;
             head == if InRange(limit, m.digits) then [Cited(View(segs)[..m.len], m.digits)] else segs[..m.len]
    ensures View(head) == StepText(f, limit, View(segs))
    ensures Source(segs) == Source(head) + Source(segs[f(View(segs)).value.len..])
  {
    var m := f(View(segs)).value;
    AllKeptReads(View(segs)[..m.len]);
    SingleReads(View(segs)[..m.len], m.digits);
    SourceSplit(segs, m.len);
  }

  lemma SourceSplit(segs: seq<Segment>, n: nat)
    requires n <= |segs|
    ensures Source(segs) == Source(segs[..n]) + Source(segs[n..])
  {
    var a, b := segs[..n], segs[n..];
    SplitsAt(segs, n);
    SourceConcat(a, b);
  }

  lemma SplitsAt<T>(s: seq<T>, n: nat)
    requires n <= |s|
    ensures s[..n] + s[n..] == s
  {
  }

  lemma SingleReads(citation: string, digits: string)
    ensures Source([Cited(citation, digits)]) == citation && View([Cited(citation, digits)]) == Canon(digits)
  {
    assert [Cited(citation, digits)][1..] == [];
  }

  lemma KeptHead(f: Matcher, limit: nat, segs: seq<Segment>)
    requires segs != [] && KeepsCanon(f, limit)
    requires segs[0].Cited? ==> segs[0].digits != "" && InRange(limit, segs[0].digits)
    requires segs[0].Cited? || f(View(segs)) == None
    ensures Rewrite(f, limit, View(segs)) == ViewOf(segs[0]) + Rewrite(f, limit, View(segs[1..]))
  {
    if segs[0].Kept? {
      NoMatchStep(f, limit, View(segs));
      assert View(segs)[1..] == View(segs[1..]);
    }
  }
}
