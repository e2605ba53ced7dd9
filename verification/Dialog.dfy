/** Citation repair of dialogue answers (src/dialog.rs:15-102). The four regular
    expressions are written as scanners that match at the start of a string. */
module Dialog {
  import opened Text

  /** Decimal digits outside ASCII, as `\d` also matches them. */
  ghost predicate IsDigitClass(f: char -> bool) {
    forall c :: f(c) ==> c > '\U{7F}' && !IsWhitespace(c) && c != '\U{3010}' && c != '\U{3011}'
  }

  type DigitClass = f: char -> bool | IsDigitClass(f) witness (c: char) => false

  datatype Ctx = Ctx(nd: DigitClass)

  datatype Pattern = Paren | Bracket | Cjk | Ref

  /** A match: its length and the digits it captured. */
  datatype Match = Match(len: nat, digits: string)

  predicate AsciiDigit(c: char) { '0' <= c <= '9' }

  predicate IsDigit(ctx: Ctx, c: char) { AsciiDigit(c) || ctx.nd(c) }

  function SkipSpace(s: string, i: nat): (r: nat)
    requires i <= |s|
    ensures i <= r <= |s|
    ensures forall k :: i <= k < r ==> IsWhitespace(s[k])
    ensures r < |s| ==> !IsWhitespace(s[r])
    decreases |s| - i
  {
    if i < |s| && IsWhitespace(s[i]) then SkipSpace(s, i + 1) else i
  }

  function SkipDigits(ctx: Ctx, s: string, i: nat): (r: nat)
    requires i <= |s|
    ensures i <= r <= |s|
    ensures forall k :: i <= k < r ==> IsDigit(ctx, s[k])
    ensures r < |s| ==> !IsDigit(ctx, s[r])
    decreases |s| - i
  {
    if i < |s| && IsDigit(ctx, s[i]) then SkipDigits(ctx, s, i + 1) else i
  }

  /** `\s*[: ]\s*` from `i`: where it ends, or `None`. */
  function SkipSeparator(s: string, i: nat): (r: Option<nat>)
    requires i <= |s|
    ensures r.Some? ==> i < r.value <= |s|
  {
    var k := SkipSpace(s, i);
    if k < |s| && s[k] == ':' then Some(SkipSpace(s, k + 1))
    else if ' ' in s[i..k] then Some(k)
    else None
  }

  function Opener(p: Pattern): char {
    match p case Paren => '(' case Bracket => '[' case Cjk => '\U{3010}' case Ref => 'r'
  }

  function Closer(p: Pattern): char {
    match p case Paren => ')' case Bracket => ']' case Cjk => '\U{3011}' case Ref => 'f'
  }

  /** Can a match of `p` start with `c`? */
  predicate Starts(p: Pattern, c: char) {
    if p == Ref then c == 'r' || c == 'R' else c == Opener(p)
  }

  /** `(\d+)\s*` and the closing bracket, from `j`. */
  function MatchDigits(ctx: Ctx, p: Pattern, s: string, j: nat): (r: Option<Match>)
    requires 0 < j <= |s|
    ensures r.Some? ==> 0 < r.value.len <= |s| && r.value.digits != ""
  {
    var d := SkipDigits(ctx, s, j);
    var e := SkipSpace(s, d);
    if d > j && e < |s| && s[e] == Closer(p) then Some(Match(e + 1, s[j..d])) else None
  }

  /** `\(\s*ID\s*[: ]\s*(\d+)\s*\)` and its two bracket variants. */
  function MatchClosed(ctx: Ctx, p: Pattern, s: string): (r: Option<Match>)
    requires p != Ref
    ensures r.Some? ==> 0 < r.value.len <= |s| && r.value.digits != ""
  {
    if s == "" || s[0] != Opener(p) then None
    else
      var i := SkipSpace(s, 1);
      if !(i + 2 <= |s| && s[i] == 'I' && s[i + 1] == 'D') then None
      else
        var sep := SkipSeparator(s, i + 2);
        if sep == None then None else MatchDigits(ctx, p, s, sep.value)
  }

  /** `(?i)ref\s*(\d+)`. */
  function MatchRef(ctx: Ctx, s: string): (r: Option<Match>)
    ensures r.Some? ==> 0 < r.value.len <= |s|
  {
    if |s| >= 3 && (s[0] == 'r' || s[0] == 'R') && (s[1] == 'e' || s[1] == 'E') && (s[2] == 'f' || s[2] == 'F') then
      var i := SkipSpace(s, 3);
      var d := SkipDigits(ctx, s, i);
      if d > i then Some(Match(d, s[i..d])) else None
    else None
  }

  function MatchAt(ctx: Ctx, p: Pattern, s: string): (r: Option<Match>)
    ensures r.Some? ==> 0 < r.value.len <= |s| && r.value.digits != ""
    ensures r.Some? ==> Starts(p, s[0])
  {
    if p == Ref then MatchRef(ctx, s) else MatchClosed(ctx, p, s)
  }

  predicate AllAscii(digits: string) { forall c :: c in digits ==> AsciiDigit(c) }

  function DigitValue(c: char): nat
    requires AsciiDigit(c)
  {
    (c - '0') as nat
  }

  function ValueOf(digits: string): nat
    requires AllAscii(digits)
  {
    if digits == "" then 0
    else 10 * ValueOf(digits[..|digits| - 1]) + DigitValue(digits[|digits| - 1])
  }

  /** The captured digits parse to an index below the limit. */
  predicate InRange(limit: nat, digits: string) {
    AllAscii(digits) && ValueOf(digits) < limit
  }

  function Canon(digits: string): (s: string)
    ensures |s| == |digits| + 5
  {
    "[ID:" + digits + "]"
  }

  // ----- one rewriting pass -----

  ghost predicate IsMatcher(f: string -> Option<Match>) {
    forall s :: f(s).Some? ==> 0 < f(s).value.len <= |s| && f(s).value.digits != ""
  }

  /** A compiled pattern: what it matches at the start of a string. */
  type Matcher = f: string -> Option<Match> | IsMatcher(f) witness (s: string) => None

  function Scanner(ctx: Ctx, p: Pattern): Matcher {
    (s: string) => MatchAt(ctx, p, s)
  }

  function Rewrite(f: Matcher, limit: nat, s: string): string
    decreases |s|
  {
    if s == "" then ""
    else
      match f(s)
      case None => [s[0]] + Rewrite(f, limit, s[1..])
      case Some(m) => (if InRange(limit, m.digits) then Canon(m.digits) else s[..m.len]) + Rewrite(f, limit, s[m.len..])
  }

  /** The in-range indexes a pass collects. */
  function Hits(f: Matcher, limit: nat, s: string): (r: set<nat>)
    ensures forall n :: n in r ==> n < limit
    decreases |s|
  {
    if s == "" then {}
    else
      match f(s)
      case None => Hits(f, limit, s[1..])
      case Some(m) => (if InRange(limit, m.digits) then {ValueOf(m.digits)} else {}) + Hits(f, limit, s[m.len..])
  }

  // ----- where matches lie -----

  predicate IsOpener(c: char) { c == '(' || c == '[' || c == '\U{3010}' }

  predicate Letter(c: char) { c == 'r' || c == 'R' }

  ghost predicate SpaceRun(s: string, i: nat, j: nat) {
    i <= j <= |s| && forall k :: i <= k < j ==> IsWhitespace(s[k])
  }

  ghost predicate DigitRun(ctx: Ctx, s: string, i: nat, j: nat) {
    i < j <= |s| && forall k :: i <= k < j ==> IsDigit(ctx, s[k])
  }

  /** Where the parts of a bracketed match end: the opening space, the space after
      `ID`, the separator, the digits and the closing space. */
  datatype Spans = Spans(id: nat, gap: nat, sep: nat, digits: nat, close: nat)

  /** The shape the regular expression describes, in terms of the matched text alone. */
  ghost predicate Shaped(ctx: Ctx, p: Pattern, s: string, x: Spans) {
    && x.close < |s| && s[0] == Opener(p) && s[x.close] == Closer(p)
    && 1 <= x.id && SpaceRun(s, 1, x.id)
    && x.id + 2 <= |s| && s[x.id] == 'I' && s[x.id + 1] == 'D'
    && SpaceRun(s, x.id + 2, x.gap)
    && x.gap <= x.sep <= |s|
    && (if x.sep > x.gap then s[x.gap] == ':' && SpaceRun(s, x.gap + 1, x.sep) else ' ' in s[x.id + 2..x.gap])
    && DigitRun(ctx, s, x.sep, x.digits)
    && SpaceRun(s, x.digits, x.close)
  }

  lemma SpaceEnd(s: string, i: nat, j: nat)
    requires SpaceRun(s, i, j) && j < |s| && !IsWhitespace(s[j])
    ensures SkipSpace(s, i) == j
  {
  }

  lemma DigitEnd(ctx: Ctx, s: string, i: nat, j: nat)
    requires DigitRun(ctx, s, i, j) && (j == |s| || !IsDigit(ctx, s[j]))
    ensures SkipDigits(ctx, s, i) == j
  {
  }

  lemma DigitsAreInk(ctx: Ctx, c: char)
    requires IsDigit(ctx, c)
    ensures !IsWhitespace(c) && c != ':' && !IsOpener(c) && !Letter(c) && c != ')' && c != ']' && c != '\U{3011}'
  {
  }

  lemma ShapeOf(ctx: Ctx, p: Pattern, s: string) returns (x: Spans)
    requires p != Ref && MatchAt(ctx, p, s).Some?
    ensures Shaped(ctx, p, s, x) && MatchAt(ctx, p, s) == Some(Match(x.close + 1, s[x.sep..x.digits]))
  {
    var id := SkipSpace(s, 1);
    var gap := SkipSpace(s, id + 2);
    var sep := SkipSeparator(s, id + 2).value;
    var digits := SkipDigits(ctx, s, sep);
    x := Spans(id, gap, sep, digits, SkipSpace(s, digits));
    if gap < |s| && s[gap] == ':' {
      assert sep == SkipSpace(s, gap + 1);
    }
  }

  lemma ShapeMatches(ctx: Ctx, p: Pattern, s: string, x: Spans)
    requires p != Ref && Shaped(ctx, p, s, x)
    ensures MatchAt(ctx, p, s) == Some(Match(x.close + 1, s[x.sep..x.digits]))
  {
    SpaceEnd(s, 1, x.id);
    SeparatorIs(ctx, p, s, x);
    DigitsMatch(ctx, p, s, x);
  }

  lemma DigitsMatch(ctx: Ctx, p: Pattern, s: string, x: Spans)
    requires p != Ref && Shaped(ctx, p, s, x)
    ensures MatchDigits(ctx, p, s, x.sep) == Some(Match(x.close + 1, s[x.sep..x.digits]))
  {
    DigitsEnd(ctx, p, s, x);
    SpaceEnd(s, x.digits, x.close);
  }

  lemma DigitsEnd(ctx: Ctx, p: Pattern, s: string, x: Spans)
    requires p != Ref && Shaped(ctx, p, s, x)
    ensures SkipDigits(ctx, s, x.sep) == x.digits
  {
    DigitsStop(ctx, p, s, x);
    DigitEnd(ctx, s, x.sep, x.digits);
  }

  lemma SeparatorIs(ctx: Ctx, p: Pattern, s: string, x: Spans)
    requires p != Ref && Shaped(ctx, p, s, x)
    ensures SkipSeparator(s, x.id + 2) == Some(x.sep)
  {
    DigitsAreInk(ctx, s[x.sep]);
    SpaceEnd(s, x.id + 2, x.gap);
    if x.sep > x.gap { SpaceEnd(s, x.gap + 1, x.sep); }
  }

  lemma DigitsStop(ctx: Ctx, p: Pattern, s: string, x: Spans)
    requires p != Ref && Shaped(ctx, p, s, x)
    ensures !IsDigit(ctx, s[x.digits])
  {
    if IsDigit(ctx, s[x.digits]) {
      DigitsAreInk(ctx, s[x.digits]);
    }
  }

  lemma RefInterior(ctx: Ctx, s: string, k: nat)
    requires MatchRef(ctx, s).Some? && 0 < k < MatchRef(ctx, s).value.len
    ensures !IsOpener(s[k]) && !Letter(s[k])
  {
    var i := SkipSpace(s, 3);
    if k >= i { DigitsAreInk(ctx, s[k]); }
  }

  lemma ShapeInterior(ctx: Ctx, p: Pattern, s: string, x: Spans, k: nat)
    requires p != Ref && Shaped(ctx, p, s, x) && 0 < k <= x.close
    ensures !IsOpener(s[k]) && !Letter(s[k])
  {
    if x.sep <= k < x.digits { DigitsAreInk(ctx, s[k]); }
  }

  /** Inside a match nothing opens a bracket or starts a `ref`. */
  lemma MatchInterior(ctx: Ctx, p: Pattern, s: string, k: nat)
    requires MatchAt(ctx, p, s).Some? && 0 < k < MatchAt(ctx, p, s).value.len
    ensures !IsOpener(s[k]) && !Letter(s[k])
  {
    if p == Ref {
      RefInterior(ctx, s, k);
    } else {
      var x := ShapeOf(ctx, p, s);
      ShapeInterior(ctx, p, s, x, k);
    }
  }

  lemma ShapeLocal(ctx: Ctx, p: Pattern, s: string, t: string, x: Spans)
    requires p != Ref && Shaped(ctx, p, s, x)
    requires x.close < |t| && forall k :: 0 <= k <= x.close ==> s[k] == t[k]
    ensures Shaped(ctx, p, t, x) && s[x.sep..x.digits] == t[x.sep..x.digits]
  {
    assert s[x.id + 2..x.gap] == t[x.id + 2..x.gap];
  }

  /** A bracketed match depends on the matched text only. */
  lemma MatchLocal(ctx: Ctx, p: Pattern, s: string, t: string)
    requires p != Ref && MatchAt(ctx, p, s).Some?
    requires var n := MatchAt(ctx, p, s).value.len; n <= |t| && s[..n] == t[..n]
    ensures MatchAt(ctx, p, t) == MatchAt(ctx, p, s)
  {
    var x := ShapeOf(ctx, p, s);
    var n := x.close + 1;
    assert forall k :: 0 <= k < n ==> s[k] == s[..n][k] && t[k] == t[..n][k];
    ShapeLocal(ctx, p, s, t, x);
    ShapeMatches(ctx, p, t, x);
  }

  /** A text that agrees with a `ref` match up to its end has a `ref` match too, the
      same one if no digit follows. */
  lemma RefLocal(ctx: Ctx, s: string, t: string)
    requires MatchAt(ctx, Ref, s).Some?
    requires var n := MatchAt(ctx, Ref, s).value.len; n <= |t| && s[..n] == t[..n]
    ensures MatchAt(ctx, Ref, t).Some?
    ensures var n := MatchAt(ctx, Ref, s).value.len;
            (n == |t| || !IsDigit(ctx, t[n])) ==> MatchAt(ctx, Ref, t) == MatchAt(ctx, Ref, s)
  {
    var n := MatchAt(ctx, Ref, s).value.len;
    var i := SkipSpace(s, 3);
    assert forall k :: 0 <= k < n ==> s[k] == s[..n][k] && t[k] == t[..n][k];
    DigitsAreInk(ctx, t[i]);
    SpaceEnd(t, 3, i);
    assert s[i..n] == t[i..n];
    assert DigitRun(ctx, t, i, n);
    if n == |t| || !IsDigit(ctx, t[n]) { DigitEnd(ctx, t, i, n); }
  }

  /** A canonical marker is a bracket match wherever it stands. */
  lemma CanonMatches(ctx: Ctx, digits: string, rest: string)
    requires digits != "" && AllAscii(digits)
    ensures MatchAt(ctx, Bracket, Canon(digits) + rest) == Some(Match(|digits| + 5, digits))
  {
    var s := Canon(digits) + rest;
    var n := |digits|;
    assert s[0] == '[' && s[1] == 'I' && s[2] == 'D' && s[3] == ':' && s[n + 4] == ']';
    assert forall k :: 4 <= k < n + 4 ==> s[k] == digits[k - 4] && digits[k - 4] in digits;
    ShapeMatches(ctx, Bracket, s, Spans(1, 3, 4, n + 4, n + 4));
    assert s[4..n + 4] == digits;
  }
}
