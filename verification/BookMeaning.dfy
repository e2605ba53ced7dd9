/** Position tags, headings and overlaps, said of the texts themselves (src/book.rs:55-130, 197-300). */
module BookMeaning {
  import opened Book
  import opened Text

  // ----- position tags -----

  /** Two at signs, a digit, anything but a line break, two hashes. */
  ghost predicate IsTag(t: string) {
    && |t| >= 5 && t[0] == '@' && t[1] == '@' && '0' <= t[2] <= '9' && '\n' !in t
    && t[|t| - 2] == '#' && t[|t| - 1] == '#'
  }

  lemma {:induction false} DigitRunDigits(s: string)
    ensures forall i :: 0 <= i < DigitRun(s) ==> IsDigit(s[i])
    ensures DigitRun(s) < |s| ==> !IsDigit(s[DigitRun(s)])
  {
    if s != "" && IsDigit(s[0]) { DigitRunDigits(s[1..]); }
  }

  /** Two hashes end at `n`, and no line break stands before. */
  ghost predicate EndsAt(s: string, n: nat) {
    2 <= n <= |s| && s[n - 2] == '#' && s[n - 1] == '#' && '\n' !in s[..n]
  }

  lemma {:induction false} ToTagEndFirst(s: string)
    ensures ToTagEnd(s) > 0 ==> EndsAt(s, ToTagEnd(s))
    ensures forall n :: EndsAt(s, n) ==> 0 < ToTagEnd(s) <= n
  {
    if |s| < 2 || s[0] == '\n' {
      forall n: nat | 2 <= n <= |s| ensures !EndsAt(s, n) { assert s[0] in s[..n]; }
    } else if !(s[0] == '#' && s[1] == '#') {
      var n := ToTagEnd(s[1..]);
      ToTagEndFirst(s[1..]);
      if n > 0 { assert s[..n + 1] == [s[0]] + s[1..][..n]; }
      forall m: nat | EndsAt(s, m) ensures EndsAt(s[1..], m - 1) {
        assert s[1..][..m - 1] == s[..m][1..];
      }
    }
  }

  lemma DigitIsNoHash(s: string, d: nat, n: nat)
    requires EndsAt(s, n) && d <= |s| && forall i :: 0 <= i < d ==> IsDigit(s[i])
    ensures d + 2 <= n && EndsAt(s[d..], n - d)
  {
    assert s[d..][..n - d] == s[..n][d..];
  }

  /** What is removed at the start of a text is the shortest tag there. */
  lemma TagIsShortest(s: string)
    ensures TagLength(s) > 0 ==> IsTag(s[..TagLength(s)])
    ensures forall n: nat :: n <= |s| && IsTag(s[..n]) ==> 0 < TagLength(s) <= n
  {
    forall n: nat | n <= |s| && IsTag(s[..n]) ensures 0 < TagLength(s) <= n { TagFound(s, n); }
    if TagLength(s) > 0 {
      var d := DigitRun(s[2..]);
      DigitRunDigits(s[2..]);
      ToTagEndFirst(s[2 + d..]);
      var n := ToTagEnd(s[2 + d..]);
      assert s[..2 + d + n] == "@@" + s[2..][..d] + s[2 + d..][..n];
    }
  }

  lemma TagFound(s: string, n: nat)
    requires n <= |s| && IsTag(s[..n])
    ensures 0 < TagLength(s) <= n
  {
    var rest, d := s[2..], DigitRun(s[2..]);
    DigitRunDigits(rest);
    assert s[..n][2] == rest[0] && s[..n][n - 2] == rest[n - 4] && s[..n][n - 1] == rest[n - 3];
    forall c | c in rest[..n - 2] ensures c in s[..n] { assert rest[..n - 2] == s[..n][2..]; }
    assert EndsAt(rest, n - 2);
    DigitIsNoHash(rest, d, n - 2);
    ToTagEndFirst(rest[d..]);
    assert rest[d..] == s[2 + d..];
  }

  // ----- headings -----

  /** The text before the first at sign. */
  lemma {:induction false} BeforeAtMeaning(s: string)
    ensures var head := BeforeAt(s); head <= s && '@' !in head && (|head| < |s| ==> s[|head|] == '@')
  {
    if s != "" && s[0] != '@' { BeforeAtMeaning(s[1..]); }
  }

  ghost predicate HoldsAt(s: string, part: string, i: nat) {
    i + |part| <= |s| && s[i..i + |part|] == part
  }

  ghost predicate Holds(s: string, part: string) {
    exists i :: HoldsAt(s, part, i)
  }

  lemma NotAtStart(s: string, part: string, i: nat)
    requires HoldsAt(s, part, i) && !(part <= s)
    ensures i > 0
  {
  }

  lemma HoldsLater(s: string, part: string, i: nat)
    requires s != ""
    ensures HoldsAt(s[1..], part, i) <==> HoldsAt(s, part, i + 1)
  {
    if i + 1 + |part| <= |s| { assert s[1..][i..i + |part|] == s[i + 1..i + 1 + |part|]; }
  }

  lemma {:induction false} ContainsMeaning(s: string, part: string)
    ensures Contains(s, part) <==> Holds(s, part)
  {
    if part <= s {
      assert HoldsAt(s, part, 0);
    } else if s != "" {
      ContainsMeaning(s[1..], part);
      if Holds(s[1..], part) {
        var i: nat :| HoldsAt(s[1..], part, i);
        HoldsLater(s, part, i);
      }
      if Holds(s, part) {
        var i: nat :| HoldsAt(s, part, i);
        NotAtStart(s, part, i);
        HoldsLater(s, part, i - 1);
      }
    }
  }

  lemma {:induction false} FirstMatchMeaning(bullets: seq<string -> bool>, text: string, j: nat)
    requires j <= |bullets|
    ensures var r := FirstMatch(bullets, text, j);
            && (r.None? ==> forall i :: j <= i < |bullets| ==> !bullets[i](text))
            && (r.Some? ==> bullets[r.value](text) && forall i :: j <= i < r.value ==> !bullets[i](text))
    decreases |bullets| - j
  {
    if j < |bullets| && !bullets[j](text) { FirstMatchMeaning(bullets, text, j + 1); }
  }

  /** The level of a section is its first matching bullet pattern; without one it is a title if its layout says title
      or head and the title test does not object to its text before the first at sign, and body text otherwise. */
  lemma LevelMeaning(p: Patterns, s: Section)
    ensures var l, n := LevelOf(p, s), |p.bullets|;
            && (l < n ==> p.bullets[l](Trim(s.text)))
            && (forall i :: 0 <= i < n && i < l ==> !p.bullets[i](Trim(s.text)))
            && (l >= n ==> (l == n <==> (Holds(s.layout, "title") || Holds(s.layout, "head"))
                                        && !p.notTitle(BeforeAt(s.text))))
  {
    FirstMatchMeaning(p.bullets, Trim(s.text), 0);
    ContainsMeaning(s.layout, "title");
    ContainsMeaning(s.layout, "head");
  }

  // ----- overlaps -----

  /** The tail of a text is the wanted share of what is left of it without tags, rounded up. */
  lemma TailShare(text: string, overlap: nat)
    requires overlap <= 100
    ensures var plain, tail := RemoveTag(text), Tail(text, overlap);
            && |tail| <= |plain| && plain[|plain| - |tail|..] == tail
            && 100 * |tail| >= overlap * |plain| && 100 * |tail| < overlap * |plain| + 100
  {
    var n, keep := |RemoveTag(text)|, 100 - overlap;
    PercentShare(n, keep);
    assert n * keep == 100 * n - overlap * n;
  }

  lemma PercentShare(n: nat, percent: nat)
    requires percent <= 100
    ensures 100 * Percent(n, percent) <= n * percent < 100 * Percent(n, percent) + 100
  {
    assert n * percent <= n * 100;
  }

  /** Every chunk but the first begins with the tail of the one before it. */
  ghost predicate Carries(cks: seq<string>, overlap: nat)
    requires overlap <= 100
  {
    forall c :: 0 < c < |cks| ==> Tail(cks[c - 1], overlap) <= cks[c]
  }

  lemma StepCarries(s: Naive, sec: Tagged, target: nat, overlap: nat)
    requires NaiveOk(s) && overlap <= 100 && Carries(s.cks, overlap)
    ensures Carries(NaiveStep(s, sec, target, overlap).cks, overlap)
  {
    var r, n := NaiveStep(s, sec, target, overlap).cks, |s.cks| - 1;
    forall c | 0 < c < |r| ensures Tail(r[c - 1], overlap) <= r[c] {
      if c <= n {
        assert r[c - 1] == s.cks[c - 1] && s.cks[c] <= r[c];
      } else {
        assert r[n] == s.cks[n];
      }
    }
  }

  lemma {:induction false} OverlapCarries(sections: seq<Tagged>, target: nat, overlap: nat)
    requires overlap <= 100
    ensures Carries(NaiveMerged(sections, target, overlap).cks, overlap)
  {
    if sections != [] {
      var n := |sections| - 1;
      OverlapCarries(sections[..n], target, overlap);
      StepCarries(NaiveMerged(sections[..n], target, overlap), sections[n], target, overlap);
    }
  }
}
