/** Why one rewriting pass is stable (src/dialog.rs:60-77): it leaves nothing for itself
    to rewrite, later passes keep it that way, and no pass loses a marker. Stated for
    any matchers with the locality the four patterns have. */
module CitationRepair {
  import opened Text
  import opened Dialog

  // ----- what is asked of a matcher -----

  /** Nothing of `f` is left to rewrite at the start of `s`. */
  ghost predicate FixedAt(f: Matcher, limit: nat, s: string) {
    var m := f(s);
    m.Some? && InRange(limit, m.value.digits) ==> s[..m.value.len] == Canon(m.value.digits)
  }

  ghost predicate Fixed(f: Matcher, limit: nat, s: string) {
    forall i :: 0 <= i < |s| ==> FixedAt(f, limit, s[i..])
  }

  /** A match has no `[` after its first character. */
  ghost predicate Plain(f: Matcher) {
    forall s :: f(s).Some? ==> '[' !in s[1..f(s).value.len]
  }

  /** A match depends on the matched text only. */
  ghost predicate Local(f: Matcher) {
    forall s, t :: f(s).Some? && f(s).value.len <= |t| && s[..f(s).value.len] == t[..f(s).value.len] ==> f(t) == f(s)
  }

  /** Canonical markers hold nothing to rewrite. */
  ghost predicate CanonSafe(f: Matcher, limit: nat) {
    forall digits, rest, i :: digits != "" && InRange(limit, digits) && 0 <= i < |digits| + 5 ==>
      FixedAt(f, limit, (Canon(digits) + rest)[i..])
  }

  /** No match of `f` starts inside the text of a match of `g`, at offset `from` or later. */
  ghost predicate Apart(f: Matcher, g: Matcher, from: nat) {
    forall s, rest, i :: g(s).Some? && from <= i < g(s).value.len ==> f((s[..g(s).value.len] + rest)[i..]) == None
  }

  // ----- one step of a pass -----

  function StepLength(f: Matcher, s: string): (n: nat)
    requires s != ""
    ensures 0 < n <= |s|
  {
    if f(s).Some? then f(s).value.len else 1
  }

  function StepText(f: Matcher, limit: nat, s: string): string
    requires s != ""
  {
    if f(s).Some? && InRange(limit, f(s).value.digits) then Canon(f(s).value.digits) else s[..StepLength(f, s)]
  }

  function StepHits(f: Matcher, limit: nat, s: string): set<nat> {
    if f(s).Some? && InRange(limit, f(s).value.digits) then {ValueOf(f(s).value.digits)} else {}
  }

  lemma RewriteStep(f: Matcher, limit: nat, s: string)
    requires s != ""
    ensures Rewrite(f, limit, s) == StepText(f, limit, s) + Rewrite(f, limit, s[StepLength(f, s)..])
    ensures Hits(f, limit, s) == StepHits(f, limit, s) + Hits(f, limit, s[StepLength(f, s)..])
  {
  }

  lemma FixedTail(f: Matcher, limit: nat, s: string, n: nat)
    requires Fixed(f, limit, s) && n <= |s|
    ensures Fixed(f, limit, s[n..])
  {
    forall i | 0 <= i < |s[n..]| ensures FixedAt(f, limit, s[n..][i..]) {
      assert s[n..][i..] == s[n + i..];
    }
  }

  lemma FixedConcat(f: Matcher, limit: nat, w: string, rest: string)
    requires Fixed(f, limit, rest)
    requires forall i :: 0 <= i < |w| ==> FixedAt(f, limit, (w + rest)[i..])
    ensures Fixed(f, limit, w + rest)
  {
    forall i | 0 <= i < |w + rest| ensures FixedAt(f, limit, (w + rest)[i..]) {
      if i >= |w| { assert (w + rest)[i..] == rest[i - |w|..]; }
    }
  }

  lemma FixedHead(f: Matcher, limit: nat, s: string)
    requires s != "" && Fixed(f, limit, s)
    ensures FixedAt(f, limit, s) && StepText(f, limit, s) == s[..StepLength(f, s)]
  {
    assert s[0..] == s;
  }

  /** A fixed text passes through unchanged. */
  lemma {:induction false} RewriteFixed(f: Matcher, limit: nat, s: string)
    requires Fixed(f, limit, s)
    ensures Rewrite(f, limit, s) == s
    decreases |s|
  {
    if s != "" {
      var n := StepLength(f, s);
      FixedHead(f, limit, s);
      FixedTail(f, limit, s, n);
      RewriteFixed(f, limit, s[n..]);
      RewriteStep(f, limit, s);
      assert s == s[..n] + s[n..];
    }
  }

  lemma PrefixOfConcat(u: string, k: nat, rest: string, n: nat)
    requires k < n <= k + |rest| && k <= |u|
    ensures '[' in rest[..n - k] ==> '[' in (u[..k] + rest)[..n]
    ensures n <= |u| && u[k..][..n - k] == rest[..n - k] ==> u[..n] == (u[..k] + rest)[..n]
  {
    var out := u[..k] + rest;
    assert out[..n] == u[..k] + rest[..n - k];
    if n <= |u| { assert u[..n] == u[..k] + u[k..][..n - k]; }
  }

  /** Rewriting inserts only text that starts with `[`: any other prefix was copied. */
  lemma {:induction false} CopyPrefix(f: Matcher, limit: nat, u: string, n: nat)
    requires n <= |Rewrite(f, limit, u)|
    ensures '[' in Rewrite(f, limit, u)[..n] || (n <= |u| && u[..n] == Rewrite(f, limit, u)[..n])
    decreases |u|
  {
    if n > 0 {
      RewriteStep(f, limit, u);
      var k := StepLength(f, u);
      if StepText(f, limit, u) == u[..k] {
        if n > k {
          PrefixOfConcat(u, k, Rewrite(f, limit, u[k..]), n);
          CopyPrefix(f, limit, u[k..], n - k);
        }
      } else {
        assert Rewrite(f, limit, u)[..n][0] == '[';
      }
    }
  }

  /** The result starts like its source or with an inserted `[`. */
  lemma RewriteHead(f: Matcher, limit: nat, u: string)
    ensures Rewrite(f, limit, u) == "" <==> u == ""
    ensures u != "" ==> Rewrite(f, limit, u)[0] == u[0] || Rewrite(f, limit, u)[0] == '['
  {
    if u != "" { RewriteStep(f, limit, u); }
  }

  lemma PrefixCons(c: char, a: string, b: string, n: nat)
    requires 1 <= n && n - 1 <= |a| && n - 1 <= |b| && a[..n - 1] == b[..n - 1]
    ensures ([c] + a)[..n] == ([c] + b)[..n]
  {
    assert ([c] + a)[..n] == [c] + a[..n - 1];
    assert ([c] + b)[..n] == [c] + b[..n - 1];
  }

  /** A match at the head of a result that copied its first character was copied whole. */
  lemma CopiedText(f: Matcher, g: Matcher, limit: nat, s: string)
    requires s != "" && g(s) == None && Plain(f)
    requires f(Rewrite(g, limit, s)).Some?
    ensures var n := f(Rewrite(g, limit, s)).value.len; n <= |s| && s[..n] == Rewrite(g, limit, s)[..n]
  {
    RewriteStep(g, limit, s);
    var rest := Rewrite(g, limit, s[1..]);
    var out := [s[0]] + rest;
    assert Rewrite(g, limit, s) == out;
    var n := f(out).value.len;
    assert rest[..n - 1] == out[1..n];
    CopyPrefix(g, limit, s[1..], n - 1);
    PrefixCons(s[0], s[1..], rest, n);
    assert s == [s[0]] + s[1..];
  }

  // ----- later passes keep earlier ones done -----

  lemma CopiedHeadFixed(f: Matcher, g: Matcher, limit: nat, s: string)
    requires s != "" && g(s) == None && Plain(f) && Local(f) && FixedAt(f, limit, s)
    ensures FixedAt(f, limit, Rewrite(g, limit, s))
  {
    if f(Rewrite(g, limit, s)).Some? {
      CopiedText(f, g, limit, s);
      assert f(s) == f(Rewrite(g, limit, s));
    }
  }

  lemma PreservesAt(f: Matcher, g: Matcher, limit: nat, s: string, i: nat)
    requires s != "" && Plain(f) && Local(f) && CanonSafe(f, limit) && Apart(f, g, 0)
    requires FixedAt(f, limit, s) && i < |StepText(g, limit, s)|
    ensures FixedAt(f, limit, (StepText(g, limit, s) + Rewrite(g, limit, s[StepLength(g, s)..]))[i..])
  {
    RewriteStep(g, limit, s);
    var out := Rewrite(g, limit, s);
    if g(s) == None {
      assert out[0..] == out;
      CopiedHeadFixed(f, g, limit, s);
    }
  }

  /** A pass of `g` keeps `f` fixed. */
  lemma {:induction false} RewritePreserves(f: Matcher, g: Matcher, limit: nat, s: string)
    requires Plain(f) && Local(f) && CanonSafe(f, limit) && Apart(f, g, 0) && Fixed(f, limit, s)
    ensures Fixed(f, limit, Rewrite(g, limit, s))
    decreases |s|
  {
    if s != "" {
      var n := StepLength(g, s);
      RewriteStep(g, limit, s);
      FixedHead(f, limit, s);
      FixedTail(f, limit, s, n);
      RewritePreserves(f, g, limit, s[n..]);
      forall i | 0 <= i < |StepText(g, limit, s)|
        ensures FixedAt(f, limit, (StepText(g, limit, s) + Rewrite(g, limit, s[n..]))[i..])
      {
        PreservesAt(f, g, limit, s, i);
      }
      FixedConcat(f, limit, StepText(g, limit, s), Rewrite(g, limit, s[n..]));
    }
  }

  // ----- a pass leaves nothing for itself -----

  /** A match that is kept, or no match, is still so in the result. */
  ghost predicate Settled(f: Matcher, limit: nat) {
    forall s :: s != "" && !(f(s).Some? && InRange(limit, f(s).value.digits)) ==>
      FixedAt(f, limit, Rewrite(f, limit, s))
  }

  lemma LocalSettles(f: Matcher, limit: nat)
    requires Plain(f) && Local(f)
    ensures Settled(f, limit)
  {
    forall s | s != "" && !(f(s).Some? && InRange(limit, f(s).value.digits))
      ensures FixedAt(f, limit, Rewrite(f, limit, s)) {
      if f(s) == None {
        CopiedHeadFixed(f, f, limit, s);
      } else {
        RewriteStep(f, limit, s);
        var n := f(s).value.len;
        assert Rewrite(f, limit, s)[..n] == s[..n];
        assert f(Rewrite(f, limit, s)) == f(s);
      }
    }
  }

  lemma OwnAt(f: Matcher, limit: nat, s: string, i: nat)
    requires s != "" && Settled(f, limit) && CanonSafe(f, limit) && Apart(f, f, 1)
    requires i < |StepText(f, limit, s)|
    ensures FixedAt(f, limit, (StepText(f, limit, s) + Rewrite(f, limit, s[StepLength(f, s)..]))[i..])
  {
    RewriteStep(f, limit, s);
    var out := Rewrite(f, limit, s);
    if i == 0 && !(f(s).Some? && InRange(limit, f(s).value.digits)) {
      assert out[0..] == out;
    }
  }

  lemma {:induction false} RewriteFixes(f: Matcher, limit: nat, s: string)
    requires Settled(f, limit) && CanonSafe(f, limit) && Apart(f, f, 1)
    ensures Fixed(f, limit, Rewrite(f, limit, s))
    decreases |s|
  {
    if s != "" {
      var n := StepLength(f, s);
      RewriteStep(f, limit, s);
      RewriteFixes(f, limit, s[n..]);
      forall i | 0 <= i < |StepText(f, limit, s)|
        ensures FixedAt(f, limit, (StepText(f, limit, s) + Rewrite(f, limit, s[n..]))[i..])
      {
        OwnAt(f, limit, s, i);
      }
      FixedConcat(f, limit, StepText(f, limit, s), Rewrite(f, limit, s[n..]));
    }
  }

  // ----- which markers a text holds -----

  /** A canonical marker is a match of `f`, wherever it stands. */
  ghost predicate SeesCanon(f: Matcher) {
    forall digits, rest :: digits != "" && AllAscii(digits) ==>
      f(Canon(digits) + rest) == Some(Match(|digits| + 5, digits))
  }

  lemma NoMatchStep(f: Matcher, limit: nat, s: string)
    requires s != "" && f(s) == None
    ensures Rewrite(f, limit, s) == [s[0]] + Rewrite(f, limit, s[1..])
    ensures Hits(f, limit, s) == Hits(f, limit, s[1..])
  {
  }

  lemma ConsAppend(w: string, r: string)
    requires w != ""
    ensures w + r == [w[0]] + (w[1..] + r)
  {
  }

  lemma {:induction false} HitsSkip(f: Matcher, limit: nat, w: string, rest: string)
    requires forall i :: 0 <= i < |w| ==> f((w + rest)[i..]) == None
    ensures Hits(f, limit, w + rest) == Hits(f, limit, rest)
    ensures Rewrite(f, limit, w + rest) == w + Rewrite(f, limit, rest)
    decreases |w|
  {
    if w == "" {
      assert w + rest == rest;
    } else {
      assert (w + rest)[0..] == w + rest;
      NoMatchStep(f, limit, w + rest);
      assert (w + rest)[1..] == w[1..] + rest;
      forall i | 0 <= i < |w[1..]| ensures f((w[1..] + rest)[i..]) == None {
        assert (w[1..] + rest)[i..] == (w + rest)[i + 1..];
      }
      HitsSkip(f, limit, w[1..], rest);
      ConsAppend(w, Rewrite(f, limit, rest));
    }
  }

  lemma HitsOfStep(f: Matcher, limit: nat, s: string, m: Match, rest: string)
    requires f(s) == Some(m) && rest == s[m.len..]
    ensures Hits(f, limit, s) == (if InRange(limit, m.digits) then {ValueOf(m.digits)} else {}) + Hits(f, limit, rest)
  {
  }

  /** Marker hits after a pass of `g`: a marker match of the source is copied whole. */
  lemma MarkerCopied(f: Matcher, g: Matcher, limit: nat, s: string)
    requires s != "" && f(s).Some? && Local(f) && Apart(g, f, 0)
    ensures var n := f(s).value.len;
            && Rewrite(g, limit, s) == s[..n] + Rewrite(g, limit, s[n..])
            && Hits(g, limit, s) == Hits(g, limit, s[n..])
            && f(Rewrite(g, limit, s)) == f(s)
            && Hits(f, limit, Rewrite(g, limit, s)) == StepHits(f, limit, s) + Hits(f, limit, Rewrite(g, limit, s[n..]))
  {
    var n := f(s).value.len;
    assert s == s[..n] + s[n..];
    HitsSkip(g, limit, s[..n], s[n..]);
    var out := s[..n] + Rewrite(g, limit, s[n..]);
    assert out[..n] == s[..n] && out[n..] == Rewrite(g, limit, s[n..]);
    HitsOfStep(f, limit, out, f(s).value, Rewrite(g, limit, s[n..]));
  }

  lemma MarkerInserted(f: Matcher, g: Matcher, limit: nat, s: string)
    requires s != "" && g(s).Some? && SeesCanon(f) && Apart(f, g, 0)
    ensures var n := g(s).value.len;
            && Hits(f, limit, s) == Hits(f, limit, s[n..])
            && Hits(f, limit, Rewrite(g, limit, s)) == StepHits(g, limit, s) + Hits(f, limit, Rewrite(g, limit, s[n..]))
  {
    var m := g(s).value;
    var rest := Rewrite(g, limit, s[m.len..]);
    assert s == s[..m.len] + s[m.len..];
    HitsSkip(f, limit, s[..m.len], s[m.len..]);
    RewriteStep(g, limit, s);
    if InRange(limit, m.digits) {
      var out := Canon(m.digits) + rest;
      assert out[|m.digits| + 5..] == rest;
      HitsOfStep(f, limit, out, Match(|m.digits| + 5, m.digits), rest);
    } else {
      HitsSkip(f, limit, s[..m.len], rest);
    }
  }

  lemma MarkerUnseen(f: Matcher, g: Matcher, limit: nat, s: string)
    requires s != "" && f(s) == None && g(s) == None && Plain(f) && Local(f)
    ensures Hits(f, limit, s) == Hits(f, limit, s[1..]) && Hits(g, limit, s) == Hits(g, limit, s[1..])
    ensures Hits(f, limit, Rewrite(g, limit, s)) == Hits(f, limit, Rewrite(g, limit, s[1..]))
  {
    NoMatchStep(f, limit, s);
    NoMatchStep(g, limit, s);
    var out := Rewrite(g, limit, s);
    if f(out).Some? {
      CopiedText(f, g, limit, s);
    }
    NoMatchStep(f, limit, out);
    assert out[1..] == Rewrite(g, limit, s[1..]);
  }

  /** A pass of another pattern adds exactly its own hits to the markers of the text. */
  lemma {:induction false} HitsAfterPass(f: Matcher, g: Matcher, limit: nat, s: string)
    requires Plain(f) && Local(f) && SeesCanon(f) && Apart(f, g, 0) && Apart(g, f, 0)
    ensures Hits(f, limit, Rewrite(g, limit, s)) == Hits(f, limit, s) + Hits(g, limit, s)
    decreases |s|
  {
    if s != "" {
      if f(s).Some? {
        MarkerCopied(f, g, limit, s);
        HitsOfStep(f, limit, s, f(s).value, s[f(s).value.len..]);
        HitsAfterPass(f, g, limit, s[f(s).value.len..]);
      } else if g(s).Some? {
        MarkerInserted(f, g, limit, s);
        HitsOfStep(g, limit, s, g(s).value, s[g(s).value.len..]);
        HitsAfterPass(f, g, limit, s[g(s).value.len..]);
      } else {
        MarkerUnseen(f, g, limit, s);
        HitsAfterPass(f, g, limit, s[1..]);
      }
    }
  }

  /** The marker pass itself keeps its markers. */
  lemma {:induction false} HitsAfterOwnPass(f: Matcher, limit: nat, s: string)
    requires Plain(f) && Local(f) && SeesCanon(f)
    ensures Hits(f, limit, Rewrite(f, limit, s)) == Hits(f, limit, s)
    decreases |s|
  {
    if s != "" {
      var n := StepLength(f, s);
      var rest := Rewrite(f, limit, s[n..]);
      RewriteStep(f, limit, s);
      HitsAfterOwnPass(f, limit, s[n..]);
      if f(s) == None {
        MarkerUnseen(f, f, limit, s);
      } else {
        var m := f(s).value;
        var out := StepText(f, limit, s) + rest;
        if InRange(limit, m.digits) {
          assert out[|m.digits| + 5..] == rest;
          HitsOfStep(f, limit, out, Match(|m.digits| + 5, m.digits), rest);
        } else {
          assert out[..n] == s[..n] && out[n..] == rest;
          HitsOfStep(f, limit, out, m, rest);
        }
      }
    }
  }
}
