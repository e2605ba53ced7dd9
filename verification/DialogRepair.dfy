/** `repair_bad_citation_formats` and its guarantees (src/dialog.rs:31-102). */
module DialogRepair {
  import opened Text
  import opened Dialog
  import opened CitationPatterns
  import opened CitationRepair
  import opened CitationSpans

  // ----- the four patterns have the required locality -----

  lemma ScannerPlain(ctx: Ctx, p: Pattern)
    ensures Plain(Scanner(ctx, p))
  {
    var f := Scanner(ctx, p);
    forall s | f(s).Some? ensures '[' !in s[1..f(s).value.len] {
      forall k | 0 <= k < f(s).value.len - 1 ensures s[1..f(s).value.len][k] != '[' {
        MatchInterior(ctx, p, s, k + 1);
      }
    }
  }

  lemma ScannerLocal(ctx: Ctx, p: Pattern)
    requires p != Ref
    ensures Local(Scanner(ctx, p))
  {
    var f := Scanner(ctx, p);
    forall s, t | f(s).Some? && f(s).value.len <= |t| && s[..f(s).value.len] == t[..f(s).value.len]
      ensures f(t) == f(s) {
      MatchLocal(ctx, p, s, t);
    }
  }

  lemma ScannerSeesCanon(ctx: Ctx)
    ensures SeesCanon(Scanner(ctx, Bracket))
  {
    forall digits, rest | digits != "" && AllAscii(digits)
      ensures Scanner(ctx, Bracket)(Canon(digits) + rest) == Some(Match(|digits| + 5, digits))
    {
      CanonMatches(ctx, digits, rest);
    }
  }

  lemma ScannerCanonSafe(ctx: Ctx, p: Pattern, limit: nat)
    ensures CanonSafe(Scanner(ctx, p), limit)
  {
    forall digits, rest, i | digits != "" && InRange(limit, digits) && 0 <= i < |digits| + 5
      ensures FixedAt(Scanner(ctx, p), limit, (Canon(digits) + rest)[i..])
    {
      CanonFixed(ctx, p, limit, digits, rest, i);
    }
  }

  lemma CanonCharacter(digits: string, rest: string, i: nat)
    requires AllAscii(digits) && i < |digits| + 5
    ensures (Canon(digits) + rest)[i] == '[' <==> i == 0
    ensures forall p :: Starts(p, (Canon(digits) + rest)[i]) ==> i == 0 && p == Bracket
  {
    var t := Canon(digits) + rest;
    assert t[i] == Canon(digits)[i];
    if 4 <= i < |digits| + 4 { assert t[i] == digits[i - 4] && digits[i - 4] in digits; }
  }

  lemma CanonFixed(ctx: Ctx, p: Pattern, limit: nat, digits: string, rest: string, i: nat)
    requires digits != "" && InRange(limit, digits) && i < |digits| + 5
    ensures FixedAt(Scanner(ctx, p), limit, (Canon(digits) + rest)[i..])
  {
    var t := (Canon(digits) + rest)[i..];
    CanonCharacter(digits, rest, i);
    if MatchAt(ctx, p, t).Some? {
      assert i == 0 && p == Bracket;
      assert t == Canon(digits) + rest;
      CanonMatches(ctx, digits, rest);
    }
  }

  lemma NoStartInside(ctx: Ctx, p: Pattern, q: Pattern, s: string, rest: string, i: nat)
    requires MatchAt(ctx, q, s).Some? && i < MatchAt(ctx, q, s).value.len && (i > 0 || p != q)
    ensures MatchAt(ctx, p, (s[..MatchAt(ctx, q, s).value.len] + rest)[i..]) == None
  {
    var t := s[..MatchAt(ctx, q, s).value.len] + rest;
    assert t[i..][0] == t[i] == s[i];
    if i > 0 { MatchInterior(ctx, q, s, i); }
    assert !Starts(p, s[i]);
  }

  lemma ScannersApart(ctx: Ctx, p: Pattern, q: Pattern, from: nat)
    requires from > 0 || p != q
    ensures Apart(Scanner(ctx, p), Scanner(ctx, q), from)
  {
    var f, g := Scanner(ctx, p), Scanner(ctx, q);
    forall s, rest, i | g(s).Some? && from <= i < g(s).value.len ensures f((s[..g(s).value.len] + rest)[i..]) == None {
      NoStartInside(ctx, p, q, s, rest, i);
    }
  }

  lemma RefSettles(ctx: Ctx, limit: nat)
    ensures Settled(Scanner(ctx, Ref), limit)
  {
    var f := Scanner(ctx, Ref);
    ScannerPlain(ctx, Ref);
    forall s | s != "" && !(f(s).Some? && InRange(limit, f(s).value.digits))
      ensures FixedAt(f, limit, Rewrite(f, limit, s)) {
      var out := Rewrite(f, limit, s);
      RewriteStep(f, limit, s);
      if f(s) == None {
        if f(out).Some? {
          CopiedText(f, f, limit, s);
          RefLocal(ctx, out, s);
        }
      } else {
        var n := f(s).value.len;
        RewriteHead(f, limit, s[n..]);
        RefEnds(ctx, s);
        assert out[..n] == s[..n] && out[n..] == Rewrite(f, limit, s[n..]);
        assert n < |out| ==> out[n] == out[n..][0];
        RefLocal(ctx, s, out);
      }
    }
  }

  lemma RefEnds(ctx: Ctx, s: string)
    requires MatchAt(ctx, Ref, s).Some?
    ensures var n := MatchAt(ctx, Ref, s).value.len; n == |s| || !IsDigit(ctx, s[n])
    ensures !IsDigit(ctx, '[')
  {
  }

  lemma ScannerSettles(ctx: Ctx, p: Pattern, limit: nat)
    ensures Settled(Scanner(ctx, p), limit)
  {
    if p == Ref {
      RefSettles(ctx, limit);
    } else {
      ScannerPlain(ctx, p);
      ScannerLocal(ctx, p);
      LocalSettles(Scanner(ctx, p), limit);
    }
  }

  lemma ScannerKeepsCanon(ctx: Ctx, p: Pattern, limit: nat)
    ensures KeepsCanon(Scanner(ctx, p), limit)
  {
    var f := Scanner(ctx, p);
    forall digits, rest | digits != "" && InRange(limit, digits)
      ensures Rewrite(f, limit, Canon(digits) + rest) == Canon(digits) + Rewrite(f, limit, rest)
    {
      var s := Canon(digits) + rest;
      if p == Bracket {
        CanonMatches(ctx, digits, rest);
        RewriteStep(f, limit, s);
        assert s[|digits| + 5..] == rest;
      } else {
        forall i | 0 <= i < |Canon(digits)| ensures f(s[i..]) == None {
          CanonCharacter(digits, rest, i);
          assert s[i..][0] == s[i];
        }
        HitsSkip(f, limit, Canon(digits), rest);
      }
    }
  }

  lemma ScannerCites(ctx: Ctx, p: Pattern, limit: nat)
    ensures MatchesCitations(ctx, limit, Scanner(ctx, p))
  {
    var f := Scanner(ctx, p);
    forall s | f(s).Some? && InRange(limit, f(s).value.digits)
      ensures IsCitation(ctx, limit, s[..f(s).value.len], f(s).value.digits)
    {
      var t := s[..f(s).value.len];
      assert t[..|t|] == t;
      if p == Ref { RefLocal(ctx, s, t); } else { MatchLocal(ctx, p, s, t); }
      assert MatchAt(ctx, p, t) == Some(Match(|t|, f(s).value.digits));
    }
  }

  // ----- Arabic digits -----

  predicate ArabicDigit(c: char) {
    '\U{0660}' <= c <= '\U{0669}' || '\U{06F0}' <= c <= '\U{06F9}'
  }

  function NormalizeDigit(c: char): (d: char)
    ensures !ArabicDigit(d)
    ensures !ArabicDigit(c) ==> d == c
  {
    if '\U{0660}' <= c <= '\U{0669}' then (c - '\U{0660}') + '0'
    else if '\U{06F0}' <= c <= '\U{06F9}' then (c - '\U{06F0}') + '0'
    else c
  }

  /** The digit `k` of either Arabic block becomes the ASCII digit `k`. */
  lemma ArabicBlocks(k: nat)
    requires k < 10
    ensures NormalizeDigit((0x0660 + k) as char) == DigitChar(k)
    ensures NormalizeDigit((0x06F0 + k) as char) == DigitChar(k)
    ensures ArabicDigit((0x0660 + k) as char) && ArabicDigit((0x06F0 + k) as char)
  {
  }

  /** `normalize_arabic_digits`. */
  function NormalizeArabicDigits(s: string): (t: string)
    ensures |t| == |s| && forall i :: 0 <= i < |s| ==> t[i] == NormalizeDigit(s[i])
  {
    seq(|s|, i requires 0 <= i < |s| => NormalizeDigit(s[i]))
  }

  ghost predicate NoArabic(s: string) { forall i :: 0 <= i < |s| ==> !ArabicDigit(s[i]) }

  lemma {:induction false} RewriteNoArabic(f: Matcher, limit: nat, s: string)
    requires NoArabic(s)
    ensures NoArabic(Rewrite(f, limit, s))
    decreases |s|
  {
    if s != "" {
      var n := StepLength(f, s);
      RewriteStep(f, limit, s);
      RewriteNoArabic(f, limit, s[n..]);
      var w := StepText(f, limit, s);
      forall i | 0 <= i < |w| ensures !ArabicDigit(w[i]) {
        if f(s).Some? && InRange(limit, f(s).value.digits) {
          var digits := f(s).value.digits;
          if 4 <= i < |digits| + 4 { assert w[i] == digits[i - 4] && digits[i - 4] in digits; }
        }
      }
    }
  }

  // ----- the repair -----

  function Pass1(ctx: Ctx, limit: nat, answer: string): string {
    Rewrite(Scanner(ctx, Paren), limit, NormalizeArabicDigits(answer))
  }

  function Pass2(ctx: Ctx, limit: nat, answer: string): string {
    Rewrite(Scanner(ctx, Bracket), limit, Pass1(ctx, limit, answer))
  }

  function Pass3(ctx: Ctx, limit: nat, answer: string): string {
    Rewrite(Scanner(ctx, Cjk), limit, Pass2(ctx, limit, answer))
  }

  function Repaired(ctx: Ctx, limit: nat, answer: string): string {
    Rewrite(Scanner(ctx, Ref), limit, Pass3(ctx, limit, answer))
  }

  function Valid(ctx: Ctx, limit: nat, answer: string): set<nat> {
    Hits(Scanner(ctx, Paren), limit, NormalizeArabicDigits(answer))
    + Hits(Scanner(ctx, Bracket), limit, Pass1(ctx, limit, answer))
    + Hits(Scanner(ctx, Cjk), limit, Pass2(ctx, limit, answer))
    + Hits(Scanner(ctx, Ref), limit, Pass3(ctx, limit, answer))
  }

  /** The leftmost match, or the end of the text. */
  method FindNext(f: Matcher, s: string) returns (start: nat)
    ensures start <= |s| && NoneBefore(f, s, start)
    ensures start < |s| ==> f(s[start..]).Some?
  {
    start := 0;
    while start < |s| && f(s[start..]) == None
      invariant start <= |s| && NoneBefore(f, s, start)
    {
      start := start + 1;
    }
  }

  ghost predicate NoneBefore(f: Matcher, s: string, n: nat) {
    n <= |s| && forall i :: 0 <= i < n ==> f(s[i..]) == None
  }

  lemma SkipTo(f: Matcher, limit: nat, s: string, n: nat)
    requires NoneBefore(f, s, n)
    ensures Rewrite(f, limit, s) == s[..n] + Rewrite(f, limit, s[n..])
    ensures Hits(f, limit, s) == Hits(f, limit, s[n..])
  {
    var w, rest := s[..n], s[n..];
    assert s == w + rest;
    HitsSkip(f, limit, w, rest);
  }

  lemma CaptureStep(f: Matcher, limit: nat, s: string, start: nat)
    requires start < |s| && NoneBefore(f, s, start) && f(s[start..]).Some?
    ensures var t := s[start..];
            && Rewrite(f, limit, s) == (s[..start] + StepText(f, limit, t)) + Rewrite(f, limit, t[f(t).value.len..])
            && Hits(f, limit, s) == StepHits(f, limit, t) + Hits(f, limit, t[f(t).value.len..])
  {
    SkipTo(f, limit, s, start);
    RewriteStep(f, limit, s[start..]);
    Associate(s[..start], StepText(f, limit, s[start..]), Rewrite(f, limit, s[start..][f(s[start..]).value.len..]));
  }

  /** The `rewrite` closure: captures from left to right; `rest` is the input after the last one. */
  method RewritePass(f: Matcher, limit: nat, input: string, valid: set<nat>) returns (out: string, valid': set<nat>)
    ensures out == Rewrite(f, limit, input)
    ensures valid' == valid + Hits(f, limit, input)
  {
    out, valid' := "", valid;
    var rest := input;
    while rest != ""
      invariant Rewrite(f, limit, input) == out + Rewrite(f, limit, rest)
      invariant valid + Hits(f, limit, input) == valid' + Hits(f, limit, rest)
      decreases |rest|
    {
      var start := FindNext(f, rest);
      ghost var before, whole := out, rest;
      out := out + rest[..start];
      if start == |rest| {
        SkipTo(f, limit, rest, start);
        rest := "";
      } else {
        CaptureStep(f, limit, rest, start);
        var found := rest[start..];
        var m := f(found).value;
        Associate(before, whole[..start], StepText(f, limit, found));
        Associate(before, whole[..start] + StepText(f, limit, found), Rewrite(f, limit, found[m.len..]));
        if InRange(limit, m.digits) {
          valid' := valid' + {ValueOf(m.digits)};
          out := out + Canon(m.digits);
        } else {
          out := out + found[..m.len];
        }
        rest := found[m.len..];
      }
    }
  }

  /** `repair_bad_citation_formats`. */
  method RepairBadCitationFormats(ctx: Ctx, answer: string, maxIndex: nat) returns (out: string, valid: set<nat>)
    ensures out == Repaired(ctx, maxIndex, answer)
    ensures valid == Valid(ctx, maxIndex, answer)
    ensures forall n :: n in valid ==> n < maxIndex
  {
    var text := NormalizeArabicDigits(answer);
    text, valid := RewritePass(Scanner(ctx, Paren), maxIndex, text, {});
    text, valid := RewritePass(Scanner(ctx, Bracket), maxIndex, text, valid);
    text, valid := RewritePass(Scanner(ctx, Cjk), maxIndex, text, valid);
    out, valid := RewritePass(Scanner(ctx, Ref), maxIndex, text, valid);
    ValidAreBracketHits(ctx, maxIndex, answer);
  }

  // ----- what the repair guarantees -----

  lemma PassKeeps(ctx: Ctx, p: Pattern, q: Pattern, limit: nat, s: string)
    requires p != Ref && p != q && Fixed(Scanner(ctx, p), limit, s)
    ensures Fixed(Scanner(ctx, p), limit, Rewrite(Scanner(ctx, q), limit, s))
  {
    ScannerPlain(ctx, p);
    ScannerLocal(ctx, p);
    ScannerCanonSafe(ctx, p, limit);
    ScannersApart(ctx, p, q, 0);
    RewritePreserves(Scanner(ctx, p), Scanner(ctx, q), limit, s);
  }

  lemma PassFixes(ctx: Ctx, p: Pattern, limit: nat, s: string)
    ensures Fixed(Scanner(ctx, p), limit, Rewrite(Scanner(ctx, p), limit, s))
  {
    ScannerSettles(ctx, p, limit);
    ScannerCanonSafe(ctx, p, limit);
    ScannersApart(ctx, p, p, 1);
    RewriteFixes(Scanner(ctx, p), limit, s);
  }

  /** Nothing is left to rewrite for any of the four patterns. */
  lemma RepairedIsFixed(ctx: Ctx, limit: nat, answer: string, p: Pattern)
    ensures Fixed(Scanner(ctx, p), limit, Repaired(ctx, limit, answer))
  {
    var s0, s1, s2, s3 := NormalizeArabicDigits(answer), Pass1(ctx, limit, answer),
                          Pass2(ctx, limit, answer), Pass3(ctx, limit, answer);
    match p {
      case Paren =>
        PassFixes(ctx, p, limit, s0);
        PassKeeps(ctx, p, Bracket, limit, s1);
        PassKeeps(ctx, p, Cjk, limit, s2);
        PassKeeps(ctx, p, Ref, limit, s3);
      case Bracket =>
        PassFixes(ctx, p, limit, s1);
        PassKeeps(ctx, p, Cjk, limit, s2);
        PassKeeps(ctx, p, Ref, limit, s3);
      case Cjk =>
        PassFixes(ctx, p, limit, s2);
        PassKeeps(ctx, p, Ref, limit, s3);
      case Ref =>
        PassFixes(ctx, p, limit, s3);
    }
  }

  lemma RepairedNoArabic(ctx: Ctx, limit: nat, answer: string)
    ensures NoArabic(Repaired(ctx, limit, answer))
  {
    RewriteNoArabic(Scanner(ctx, Paren), limit, NormalizeArabicDigits(answer));
    RewriteNoArabic(Scanner(ctx, Bracket), limit, Pass1(ctx, limit, answer));
    RewriteNoArabic(Scanner(ctx, Cjk), limit, Pass2(ctx, limit, answer));
    RewriteNoArabic(Scanner(ctx, Ref), limit, Pass3(ctx, limit, answer));
  }

  lemma RepairFixpoint(ctx: Ctx, limit: nat, t: string)
    requires NoArabic(t) && forall p :: Fixed(Scanner(ctx, p), limit, t)
    ensures Pass1(ctx, limit, t) == t && Pass2(ctx, limit, t) == t && Pass3(ctx, limit, t) == t
             && Repaired(ctx, limit, t) == t
  {
    assert NormalizeArabicDigits(t) == t;
    RewriteFixed(Scanner(ctx, Paren), limit, t);
    RewriteFixed(Scanner(ctx, Bracket), limit, t);
    RewriteFixed(Scanner(ctx, Cjk), limit, t);
    RewriteFixed(Scanner(ctx, Ref), limit, t);
  }

  lemma PassHits(ctx: Ctx, q: Pattern, limit: nat, s: string)
    requires q != Bracket
    ensures Hits(Scanner(ctx, Bracket), limit, Rewrite(Scanner(ctx, q), limit, s)) ==
            Hits(Scanner(ctx, Bracket), limit, s) + Hits(Scanner(ctx, q), limit, s)
  {
    ScannerPlain(ctx, Bracket);
    ScannerLocal(ctx, Bracket);
    ScannerSeesCanon(ctx);
    ScannersApart(ctx, Bracket, q, 0);
    ScannersApart(ctx, q, Bracket, 0);
    HitsAfterPass(Scanner(ctx, Bracket), Scanner(ctx, q), limit, s);
  }

  /** The returned set is exactly the in-range bracket citations of the result. */
  lemma ValidAreBracketHits(ctx: Ctx, limit: nat, answer: string)
    ensures Valid(ctx, limit, answer) == Hits(Scanner(ctx, Bracket), limit, Repaired(ctx, limit, answer))
  {
    PassHits(ctx, Paren, limit, NormalizeArabicDigits(answer));
    ScannerPlain(ctx, Bracket);
    ScannerLocal(ctx, Bracket);
    ScannerSeesCanon(ctx);
    HitsAfterOwnPass(Scanner(ctx, Bracket), limit, Pass1(ctx, limit, answer));
    PassHits(ctx, Cjk, limit, Pass2(ctx, limit, answer));
    PassHits(ctx, Ref, limit, Pass3(ctx, limit, answer));
  }

  /** The marker `[ID:digits]` stands in `t` with an index below the limit. */
  ghost predicate MarkerIn(limit: nat, t: string, n: nat) {
    exists i, digits :: 0 <= i <= |t| && digits != "" && InRange(limit, digits) && ValueOf(digits) == n
      && Canon(digits) <= t[i..]
  }

  lemma MarkerAt(limit: nat, t: string, i: nat, digits: string)
    requires i <= |t| && digits != "" && InRange(limit, digits) && Canon(digits) <= t[i..]
    ensures MarkerIn(limit, t, ValueOf(digits))
  {
  }

  /** Where nothing is left to rewrite, the bracket hits are the canonical markers. */
  lemma {:induction false} HitIsMarker(f: Matcher, limit: nat, t: string, n: nat)
    requires Fixed(f, limit, t) && n in Hits(f, limit, t)
    ensures MarkerIn(limit, t, n)
    decreases |t|
  {
    var k := StepLength(f, t);
    RewriteStep(f, limit, t);
    FixedHead(f, limit, t);
    FixedTail(f, limit, t, k);
    if n in Hits(f, limit, t[k..]) {
      HitIsMarker(f, limit, t[k..], n);
      var i, digits :| 0 <= i <= |t[k..]| && digits != "" && InRange(limit, digits) && ValueOf(digits) == n
        && Canon(digits) <= t[k..][i..];
      assert t[k..][i..] == t[k + i..];
      MarkerAt(limit, t, k + i, digits);
    } else {
      assert t[0..] == t;
      MarkerAt(limit, t, 0, f(t).value.digits);
    }
  }

  lemma {:induction false} MarkerIsHit(f: Matcher, limit: nat, t: string, i: nat, digits: string)
    requires SeesCanon(f) && Plain(f)
    requires i <= |t| && digits != "" && InRange(limit, digits) && Canon(digits) <= t[i..]
    ensures ValueOf(digits) in Hits(f, limit, t)
    decreases |t|
  {
    var k := StepLength(f, t);
    RewriteStep(f, limit, t);
    if i == 0 {
      assert t == t[i..] == Canon(digits) + t[|digits| + 5..];
    } else {
      assert t[i] == t[i..][0] == '[';
      PlainBefore(f, t, i);
      assert t[k..][i - k..] == t[i..];
      MarkerIsHit(f, limit, t[k..], i - k, digits);
    }
  }

  /** A step never jumps over a later `[`. */
  lemma PlainBefore(f: Matcher, t: string, i: nat)
    requires Plain(f) && 0 < i < |t| && t[i] == '['
    ensures StepLength(f, t) <= i
  {
    var k := StepLength(f, t);
    if f(t).Some? {
      assert forall j :: 0 <= j < k - 1 ==> t[1..k][j] == t[j + 1];
    }
  }

  /** The numeral of `n`, with or without leading zeros, stands in `t` as `[ID:n]`. */
  ghost predicate Numbered(t: string, n: nat) {
    exists i, z :: 0 <= i <= |t| && "[ID:" + (ZeroDigits(z) + Decimal(n)) + "]" <= t[i..]
  }

  lemma MarkerIsNumbered(limit: nat, t: string, n: nat)
    ensures MarkerIn(limit, t, n) <==> n < limit && Numbered(t, n)
  {
    if MarkerIn(limit, t, n) {
      var i, digits :|
        0 <= i <= |t| && digits != "" && InRange(limit, digits) && ValueOf(digits) == n && Canon(digits) <= t[i..];
      var z := NumeralOf(digits);
      assert "[ID:" + (ZeroDigits(z) + Decimal(n)) + "]" <= t[i..];
    }
    if n < limit && Numbered(t, n) {
      var i, z :| 0 <= i <= |t| && "[ID:" + (ZeroDigits(z) + Decimal(n)) + "]" <= t[i..];
      ValueZeros(z, Decimal(n));
      DecimalValue(n);
      MarkerAt(limit, t, i, ZeroDigits(z) + Decimal(n));
    }
  }

  /** The returned set is exactly the numbers below the limit whose numerals stand in the repaired answer as
      `[ID:n]`. */
  lemma ValidAreMarkers(ctx: Ctx, limit: nat, answer: string, n: nat)
    ensures n in Valid(ctx, limit, answer) <==> n < limit && Numbered(Repaired(ctx, limit, answer), n)
  {
    ValidAreDigitMarkers(ctx, limit, answer, n);
    MarkerIsNumbered(limit, Repaired(ctx, limit, answer), n);
  }

  lemma ValidAreDigitMarkers(ctx: Ctx, limit: nat, answer: string, n: nat)
    ensures n in Valid(ctx, limit, answer) <==> MarkerIn(limit, Repaired(ctx, limit, answer), n)
  {
    var f, out := Scanner(ctx, Bracket), Repaired(ctx, limit, answer);
    ValidAreBracketHits(ctx, limit, answer);
    RepairedIsFixed(ctx, limit, answer, Bracket);
    if n in Valid(ctx, limit, answer) {
      HitIsMarker(f, limit, out, n);
    }
    if MarkerIn(limit, out, n) {
      var i, digits :|
        0 <= i <= |out| && digits != "" && InRange(limit, digits) && ValueOf(digits) == n && Canon(digits) <= out[i..];
      ScannerSeesCanon(ctx);
      ScannerPlain(ctx, Bracket);
      MarkerIsHit(f, limit, out, i, digits);
    }
  }

  /** Repairing a repaired answer changes nothing and reports the same indexes. */
  lemma RepairIdempotent(ctx: Ctx, limit: nat, answer: string)
    ensures var out := Repaired(ctx, limit, answer);
            Repaired(ctx, limit, out) == out && Valid(ctx, limit, out) == Valid(ctx, limit, answer)
  {
    var out := Repaired(ctx, limit, answer);
    forall p ensures Fixed(Scanner(ctx, p), limit, out) { RepairedIsFixed(ctx, limit, answer, p); }
    RepairedNoArabic(ctx, limit, answer);
    RepairFixpoint(ctx, limit, out);
    ValidAreBracketHits(ctx, limit, answer);
    ValidAreBracketHits(ctx, limit, out);
  }

  lemma CitationPass(ctx: Ctx, p: Pattern, limit: nat, segs: seq<Segment>) returns (r: seq<Segment>)
    requires CitationsOnly(ctx, limit, segs)
    ensures CitationsOnly(ctx, limit, r)
    ensures Source(r) == Source(segs) && View(r) == Rewrite(Scanner(ctx, p), limit, View(segs))
  {
    ScannerPlain(ctx, p);
    ScannerKeepsCanon(ctx, p, limit);
    ScannerCites(ctx, p, limit);
    r := SegmentPass(ctx, Scanner(ctx, p), limit, segs);
  }

  /** Apart from digit normalisation the answer changes only where an in-range citation
      became its marker. */
  lemma RepairTouchesOnlyCitations(ctx: Ctx, limit: nat, answer: string) returns (segs: seq<Segment>)
    ensures CitationsOnly(ctx, limit, segs)
    ensures Source(segs) == NormalizeArabicDigits(answer)
    ensures View(segs) == Repaired(ctx, limit, answer)
  {
    segs := AllKept(NormalizeArabicDigits(answer));
    AllKeptReads(NormalizeArabicDigits(answer));
    segs := CitationPass(ctx, Paren, limit, segs);
    segs := CitationPass(ctx, Bracket, limit, segs);
    segs := CitationPass(ctx, Cjk, limit, segs);
    segs := CitationPass(ctx, Ref, limit, segs);
  }

  // ----- extraction -----

  const USIZE_COUNT: nat := 0x1_0000_0000_0000_0000

  function SkipAscii(s: string, i: nat): (r: nat)
    requires i <= |s|
    ensures i <= r <= |s|
    ensures forall k :: i <= k < r ==> AsciiDigit(s[k])
    ensures r < |s| ==> !AsciiDigit(s[r])
    decreases |s| - i
  {
    if i < |s| && AsciiDigit(s[i]) then SkipAscii(s, i + 1) else i
  }

  /** `\[(?:ID:)?([0-9]+)\]` on a text without Arabic digits. */
  function MarkerMatch(s: string): (r: Option<Match>)
    ensures r.Some? ==> 0 < r.value.len <= |s| && r.value.digits != ""
  {
    if s == "" || s[0] != '[' then None
    else
      var i := if |s| >= 4 && s[1] == 'I' && s[2] == 'D' && s[3] == ':' then 4 else 1;
      var d := SkipAscii(s, i);
      if d > i && d < |s| && s[d] == ']' then Some(Match(d + 1, s[i..d])) else None
  }

  function Extractor(): Matcher { (s: string) => MarkerMatch(s) }

  /** `extract_cited_indexes`; digits that overflow an index are dropped. */
  function ExtractCitedIndexes(answer: string): set<nat> {
    Hits(Extractor(), USIZE_COUNT, NormalizeArabicDigits(answer))
  }

  lemma ExtractorSeesCanon(digits: string, rest: string)
    requires digits != "" && AllAscii(digits)
    ensures MarkerMatch(Canon(digits) + rest) == Some(Match(|digits| + 5, digits))
  {
    var s := Canon(digits) + rest;
    var n := |digits|;
    assert s[0] == '[' && s[1] == 'I' && s[2] == 'D' && s[3] == ':' && s[n + 4] == ']';
    assert forall k :: 4 <= k < n + 4 ==> s[k] == digits[k - 4] && digits[k - 4] in digits;
    assert SkipAscii(s, 4) == n + 4;
    assert s[4..n + 4] == digits;
  }

  lemma ExtractorPlain()
    ensures Plain(Extractor()) && SeesCanon(Extractor())
  {
    var f := Extractor();
    forall s | f(s).Some? ensures '[' !in s[1..f(s).value.len] {
      var i := if |s| >= 4 && s[1] == 'I' && s[2] == 'D' && s[3] == ':' then 4 else 1;
      var d := SkipAscii(s, i);
      assert forall k :: 1 <= k <= d ==> s[k] != '[';
      var tail := s[1..d + 1];
      assert forall k :: 0 <= k < |tail| ==> tail[k] == s[k + 1];
    }
    forall digits, rest | digits != "" && AllAscii(digits)
      ensures f(Canon(digits) + rest) == Some(Match(|digits| + 5, digits))
    {
      ExtractorSeesCanon(digits, rest);
    }
  }

  /** A marker with or without `ID:`. */
  ghost predicate Marks(text: string, digits: string) {
    digits != "" && AllAscii(digits) && ("[ID:" + digits + "]" <= text || "[" + digits + "]" <= text)
  }

  lemma RunOfAscii(s: string, i: nat, d: nat)
    requires i < d <= |s|
    ensures AllAscii(s[i..d]) <==> forall k :: i <= k < d ==> AsciiDigit(s[k])
  {
    forall k | i <= k < d ensures s[k] == s[i..d][k - i] && s[k] in s[i..d] { }
  }

  lemma ShortMarker(s: string, digits: string)
    requires digits != "" && AllAscii(digits) && "[" + digits + "]" <= s
    ensures MarkerMatch(s) == Some(Match(|digits| + 2, digits))
  {
    var n := |digits|;
    assert s[0] == '[' && s[1..n + 1] == digits && s[n + 1] == ']';
    RunOfAscii(s, 1, n + 1);
    assert SkipAscii(s, 1) == n + 1;
  }

  /** The extraction pattern matches exactly the markers, with their digits. */
  lemma MarkerMeaning(s: string, digits: string)
    ensures MarkerMatch(s).Some? && MarkerMatch(s).value.digits == digits <==> Marks(s, digits)
  {
    if MarkerMatch(s).Some? && MarkerMatch(s).value.digits == digits {
      var i := if |s| >= 4 && s[1] == 'I' && s[2] == 'D' && s[3] == ':' then 4 else 1;
      var d := SkipAscii(s, i);
      RunOfAscii(s, i, d);
      assert s[..d + 1] == s[..i] + s[i..d] + "]";
      assert if i == 4 then s[..i] == "[ID:" else s[..i] == "[";
    }
    if Marks(s, digits) {
      if "[ID:" + digits + "]" <= s {
        assert s == Canon(digits) + s[|digits| + 5..];
        ExtractorSeesCanon(digits, s[|digits| + 5..]);
      } else {
        ShortMarker(s, digits);
      }
    }
  }

  ghost predicate MarkedIn(t: string, n: nat) {
    exists i, digits :: 0 <= i <= |t| && Marks(t[i..], digits) && ValueOf(digits) == n
  }

  lemma {:induction false} ExtractedIsMarked(t: string, n: nat)
    requires n in Hits(Extractor(), USIZE_COUNT, t)
    ensures MarkedIn(t, n)
    decreases |t|
  {
    var f := Extractor();
    var k := StepLength(f, t);
    RewriteStep(f, USIZE_COUNT, t);
    if n in Hits(f, USIZE_COUNT, t[k..]) {
      ExtractedIsMarked(t[k..], n);
      var i, digits :| 0 <= i <= |t[k..]| && Marks(t[k..][i..], digits) && ValueOf(digits) == n;
      assert t[k..][i..] == t[k + i..];
    } else {
      MarkerMeaning(t, f(t).value.digits);
      assert t[0..] == t;
    }
  }

  lemma {:induction false} MarkedIsExtracted(t: string, i: nat, digits: string)
    requires i <= |t| && Marks(t[i..], digits) && ValueOf(digits) < USIZE_COUNT
    ensures ValueOf(digits) in Hits(Extractor(), USIZE_COUNT, t)
    decreases |t|
  {
    var f := Extractor();
    assert t[i..][0] == '[';
    var k := StepLength(f, t);
    RewriteStep(f, USIZE_COUNT, t);
    if i == 0 {
      assert t[0..] == t;
      MarkerMeaning(t, digits);
    } else {
      ExtractorPlain();
      PlainBefore(f, t, i);
      assert t[k..][i - k..] == t[i..];
      MarkedIsExtracted(t[k..], i - k, digits);
    }
  }

  /** Extraction returns exactly the numbers marked in the answer, Arabic digits read as ASCII ones, that an index
      can hold. */
  lemma ExtractionIsMarked(answer: string, n: nat)
    ensures n in ExtractCitedIndexes(answer) <==> n < USIZE_COUNT && MarkedIn(NormalizeArabicDigits(answer), n)
  {
    var t := NormalizeArabicDigits(answer);
    if n in ExtractCitedIndexes(answer) { ExtractedIsMarked(t, n); }
    if n < USIZE_COUNT && MarkedIn(t, n) {
      var i, digits :| 0 <= i <= |t| && Marks(t[i..], digits) && ValueOf(digits) == n;
      MarkedIsExtracted(t, i, digits);
    }
  }

  /** Extraction from the repaired answer finds every index the repair reported. */
  lemma ExtractionFindsValid(ctx: Ctx, limit: nat, answer: string, n: nat)
    requires limit <= USIZE_COUNT && n in Valid(ctx, limit, answer)
    ensures n in ExtractCitedIndexes(Repaired(ctx, limit, answer))
  {
    var out := Repaired(ctx, limit, answer);
    ValidAreDigitMarkers(ctx, limit, answer, n);
    var i, digits :|
      0 <= i <= |out| && digits != "" && InRange(limit, digits) && ValueOf(digits) == n && Canon(digits) <= out[i..];
    RepairedNoArabic(ctx, limit, answer);
    assert NormalizeArabicDigits(out) == out;
    ExtractorPlain();
    MarkerIsHit(Extractor(), USIZE_COUNT, out, i, digits);
  }
}
