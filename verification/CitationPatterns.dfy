/** What the citation patterns match, said of the matched text alone, and what its digits are worth
    (src/dialog.rs:15-29, 66-71). */
module CitationPatterns {
  import opened Dialog
  import opened Text

  // ----- the value of digits -----

  function ZeroDigits(k: nat): (s: string)
    ensures |s| == k && forall i :: 0 <= i < k ==> s[i] == '0'
  {
    seq(k, _ => '0')
  }

  lemma ValueSnoc(digits: string, c: char)
    requires AllAscii(digits) && AsciiDigit(c)
    ensures AllAscii(digits + [c]) && ValueOf(digits + [c]) == 10 * ValueOf(digits) + (c as int - '0' as int)
  {
    assert (digits + [c])[..|digits|] == digits;
  }

  lemma {:induction false} DecimalValue(n: nat)
    ensures ValueOf(Decimal(n)) == n
  {
    if n < 10 {
      ValueSnoc("", DigitChar(n));
      assert "" + [DigitChar(n)] == Decimal(n);
    } else {
      DecimalValue(n / 10);
      ValueSnoc(Decimal(n / 10), DigitChar(n % 10));
    }
  }

  lemma {:induction false} ValueZeros(k: nat, digits: string)
    requires AllAscii(digits)
    ensures AllAscii(ZeroDigits(k) + digits) && ValueOf(ZeroDigits(k) + digits) == ValueOf(digits)
    decreases k + |digits|
  {
    var all := ZeroDigits(k) + digits;
    if digits != "" {
      var front, c := digits[..|digits| - 1], digits[|digits| - 1];
      ValueZeros(k, front);
      ValueSnoc(front, c);
      ValueSnoc(ZeroDigits(k) + front, c);
      assert front + [c] == digits && (ZeroDigits(k) + front) + [c] == all;
    } else if k > 0 {
      ValueZeros(k - 1, "");
      ValueSnoc(ZeroDigits(k - 1), '0');
      assert ZeroDigits(k - 1) + "" == ZeroDigits(k - 1) && ZeroDigits(k - 1) + ['0'] == all;
    } else {
      assert all == digits;
    }
  }

  lemma NumeralStep(k: nat, v: nat, c: char)
    requires AsciiDigit(c)
    ensures var n := 10 * v + (c as int - '0' as int);
            ZeroDigits(k) + Decimal(v) + [c]
            == if v == 0 then ZeroDigits(k + 1) + Decimal(n) else ZeroDigits(k) + Decimal(n)
  {
    var n := 10 * v + (c as int - '0' as int);
    if v == 0 {
      assert Decimal(0) == ['0'] && Decimal(n) == [c];
      assert ZeroDigits(k) + ['0'] == ZeroDigits(k + 1);
    } else {
      assert Decimal(n) == Decimal(v) + [c];
    }
  }

  /** Digits are the numeral of their value behind some zeros. */
  lemma {:induction false} NumeralOf(digits: string) returns (k: nat)
    requires digits != "" && AllAscii(digits)
    ensures digits == ZeroDigits(k) + Decimal(ValueOf(digits))
  {
    if |digits| == 1 {
      k := OneDigit(digits[0]);
      assert digits == [digits[0]];
    } else {
      var front, c := digits[..|digits| - 1], digits[|digits| - 1];
      assert front + [c] == digits && c in digits;
      var z := NumeralOf(front);
      NumeralStep(z, ValueOf(front), c);
      ValueSnoc(front, c);
      k := if ValueOf(front) == 0 then z + 1 else z;
    }
  }

  lemma OneDigit(c: char) returns (k: nat)
    requires AsciiDigit(c)
    ensures AllAscii([c]) && [c] == ZeroDigits(k) + Decimal(ValueOf([c]))
  {
    k := 0;
    ValueSnoc("", c);
    assert "" + [c] == [c];
    assert Decimal(c as int - '0' as int) == [c];
  }

  /** The value of digits is the number they are the numeral of, with or without leading zeros. */
  lemma ValueIsNumber(digits: string, n: nat)
    requires digits != "" && AllAscii(digits)
    ensures ValueOf(digits) == n <==> exists k :: digits == ZeroDigits(k) + Decimal(n)
  {
    var z := NumeralOf(digits);
    if k :| digits == ZeroDigits(k) + Decimal(n) {
      ValueZeros(k, Decimal(n));
      DecimalValue(n);
    }
  }

  // ----- the bracketed patterns -----

  /** The parts of a bracketed citation: the blanks around `ID`, the separator, and what it cites. */
  datatype Parts = Parts(w1: string, w2: string, sep: char, w3: string, digits: string, w4: string)

  ghost predicate AllDigits(ctx: Ctx, digits: string) {
    digits != "" && forall c :: c in digits ==> IsDigit(ctx, c)
  }

  ghost predicate PartsOk(ctx: Ctx, x: Parts) {
    && Blank(x.w1) && Blank(x.w2) && Blank(x.w3) && Blank(x.w4)
    && (x.sep == ':' || x.sep == ' ')
    && AllDigits(ctx, x.digits)
  }

  function Written(open: char, x: Parts, close: char): string {
    [open] + x.w1 + "ID" + x.w2 + [x.sep] + x.w3 + x.digits + x.w4 + [close]
  }

  /** `text` is a citation in brackets of this pattern that cites `digits`. */
  ghost predicate ClosedCitation(ctx: Ctx, p: Pattern, text: string, digits: string)
    requires p != Ref
  {
    exists x :: PartsOk(ctx, x) && x.digits == digits && text == (
      match p
      case Paren => Written('(', x, ')')
      case Bracket => Written('[', x, ']')
      case Cjk => Written('\U{3010}', x, '\U{3011}'))
  }

  function PartsFrom(s: string, x: Spans, gap: nat): Parts
    requires 1 <= x.id && x.id + 2 <= gap < x.sep <= x.digits <= x.close <= |s|
  {
    Parts(s[1..x.id], s[x.id + 2..gap], s[gap], s[gap + 1..x.sep], s[x.sep..x.digits], s[x.digits..x.close])
  }

  lemma PartsCover(s: string, x: Spans, gap: nat)
    requires 1 <= x.id && x.id + 2 <= gap < x.sep <= x.digits <= x.close < |s|
    requires s[x.id] == 'I' && s[x.id + 1] == 'D'
    ensures s[..x.close + 1] == Written(s[0], PartsFrom(s, x, gap), s[x.close])
  {
    assert s[x.id..x.id + 2] == "ID";
    assert s[..x.close + 1] == [s[0]] + s[1..x.id] + s[x.id..x.id + 2] + s[x.id + 2..gap] + [s[gap]] + s[gap + 1..x.sep]
                               + s[x.sep..x.digits] + s[x.digits..x.close] + [s[x.close]];
  }

  lemma RunIsBlank(s: string, i: nat, j: nat)
    requires i <= j <= |s|
    ensures SpaceRun(s, i, j) <==> Blank(s[i..j])
  {
    forall k | i <= k < j ensures s[k] == s[i..j][k - i] && s[k] in s[i..j] { }
  }

  lemma RunIsDigits(ctx: Ctx, s: string, i: nat, j: nat)
    requires i < j <= |s|
    ensures DigitRun(ctx, s, i, j) <==> AllDigits(ctx, s[i..j])
  {
    forall k | i <= k < j ensures s[k] == s[i..j][k - i] && s[k] in s[i..j] { }
  }

  /** A shape has parts. */
  lemma ShapeHasParts(ctx: Ctx, p: Pattern, s: string, x: Spans) returns (parts: Parts)
    requires p != Ref && Shaped(ctx, p, s, x)
    ensures PartsOk(ctx, parts) && parts.digits == s[x.sep..x.digits]
    ensures s[..x.close + 1] == Written(s[0], parts, s[x.close])
  {
    var gap := x.gap;
    if x.sep == x.gap {
      var window := s[x.id + 2..x.gap];
      var k :| 0 <= k < |window| && window[k] == ' ';
      gap := x.id + 2 + k;
    }
    parts := PartsFrom(s, x, gap);
    PartsCover(s, x, gap);
    RunIsBlank(s, 1, x.id);
    RunIsBlank(s, x.id + 2, gap);
    RunIsBlank(s, gap + 1, x.sep);
    RunIsBlank(s, x.digits, x.close);
    RunIsDigits(ctx, s, x.sep, x.digits);
  }

  /** Where the parts of a written citation end. */
  function SpansOf(x: Parts): Spans {
    var id := 1 + |x.w1|;
    var first := id + 2 + |x.w2|;
    var sep := first + 1 + |x.w3|;
    Spans(id, if x.sep == ':' then first else sep, sep, sep + |x.digits|, sep + |x.digits| + |x.w4|)
  }

  /** The string starts with these parts, each at its place. */
  ghost predicate Placed(open: char, x: Parts, close: char, s: string) {
    var y := SpansOf(x);
    var first := y.id + 2 + |x.w2|;
    && y.close < |s| && s[0] == open && s[1..y.id] == x.w1 && s[y.id] == 'I' && s[y.id + 1] == 'D'
    && s[y.id + 2..first] == x.w2 && s[first] == x.sep && s[first + 1..y.sep] == x.w3
    && s[y.sep..y.digits] == x.digits && s[y.digits..y.close] == x.w4 && s[y.close] == close
  }

  lemma WrittenIsPlaced(open: char, x: Parts, close: char, rest: string)
    ensures Placed(open, x, close, Written(open, x, close) + rest)
    ensures |Written(open, x, close)| == SpansOf(x).close + 1
  {
  }

  lemma SpaceBetween(s: string, x: Parts, first: nat, sep: nat)
    requires first + 1 <= sep <= |s| && first >= |x.w2| && s[first] == ' '
    requires s[first - |x.w2|..first] == x.w2 && s[first + 1..sep] == x.w3 && Blank(x.w2) && Blank(x.w3)
    ensures SpaceRun(s, first - |x.w2|, sep) && ' ' in s[first - |x.w2|..sep]
  {
    RunIsBlank(s, first - |x.w2|, first);
    RunIsBlank(s, first + 1, sep);
    assert s[first - |x.w2|..sep][|x.w2|] == ' ';
  }

  /** Parts at their places have the shape. */
  lemma PlacedHasShape(ctx: Ctx, p: Pattern, x: Parts, s: string)
    requires p != Ref && PartsOk(ctx, x) && Placed(Opener(p), x, Closer(p), s)
    ensures Shaped(ctx, p, s, SpansOf(x))
  {
    var y := SpansOf(x);
    var first := y.id + 2 + |x.w2|;
    RunIsBlank(s, 1, y.id);
    RunIsBlank(s, y.digits, y.close);
    RunIsDigits(ctx, s, y.sep, y.digits);
    if x.sep == ':' {
      RunIsBlank(s, y.id + 2, first);
      RunIsBlank(s, first + 1, y.sep);
    } else {
      SpaceBetween(s, x, first, y.sep);
    }
  }

  lemma PlacedMatches(ctx: Ctx, p: Pattern, x: Parts, s: string)
    requires p != Ref && PartsOk(ctx, x) && Placed(Opener(p), x, Closer(p), s)
    ensures MatchAt(ctx, p, s) == Some(Match(SpansOf(x).close + 1, x.digits))
  {
    PlacedHasShape(ctx, p, x, s);
    ShapeMatches(ctx, p, s, SpansOf(x));
  }

  lemma ClosedIs(ctx: Ctx, p: Pattern, text: string, digits: string)
    requires p != Ref
    ensures ClosedCitation(ctx, p, text, digits)
       <==> exists x :: PartsOk(ctx, x) && x.digits == digits && text == Written(Opener(p), x, Closer(p))
  {
  }

  lemma MatchIsWritten(ctx: Ctx, p: Pattern, s: string) returns (parts: Parts)
    requires p != Ref && MatchAt(ctx, p, s).Some?
    ensures var m := MatchAt(ctx, p, s).value;
            PartsOk(ctx, parts) && parts.digits == m.digits && s[..m.len] == Written(Opener(p), parts, Closer(p))
  {
    var x := ShapeOf(ctx, p, s);
    parts := ShapeHasParts(ctx, p, s, x);
  }

  lemma WrittenMatches(ctx: Ctx, p: Pattern, s: string, n: nat, x: Parts)
    requires p != Ref && n <= |s| && PartsOk(ctx, x) && s[..n] == Written(Opener(p), x, Closer(p))
    ensures MatchAt(ctx, p, s) == Some(Match(n, x.digits))
  {
    WrittenIsPlaced(Opener(p), x, Closer(p), s[n..]);
    assert s == s[..n] + s[n..];
    PlacedMatches(ctx, p, x, s);
  }

  /** A bracketed pattern matches at the start of a string exactly the citations in its brackets. */
  lemma ClosedMeaning(ctx: Ctx, p: Pattern, s: string, n: nat, digits: string)
    requires p != Ref
    ensures MatchAt(ctx, p, s) == Some(Match(n, digits)) <==> n <= |s| && ClosedCitation(ctx, p, s[..n], digits)
  {
    if MatchAt(ctx, p, s) == Some(Match(n, digits)) { ClosedFound(ctx, p, s, n, digits); }
    if n <= |s| && ClosedCitation(ctx, p, s[..n], digits) { ClosedMatches(ctx, p, s, n, digits); }
  }

  lemma ClosedFound(ctx: Ctx, p: Pattern, s: string, n: nat, digits: string)
    requires p != Ref && MatchAt(ctx, p, s) == Some(Match(n, digits))
    ensures n <= |s| && ClosedCitation(ctx, p, s[..n], digits)
  {
    var x := MatchIsWritten(ctx, p, s);
    ClosedIs(ctx, p, s[..n], digits);
  }

  lemma ClosedMatches(ctx: Ctx, p: Pattern, s: string, n: nat, digits: string)
    requires p != Ref && n <= |s| && ClosedCitation(ctx, p, s[..n], digits)
    ensures MatchAt(ctx, p, s) == Some(Match(n, digits))
  {
    ClosedIs(ctx, p, s[..n], digits);
    var x :| PartsOk(ctx, x) && x.digits == digits && s[..n] == Written(Opener(p), x, Closer(p));
    WrittenMatches(ctx, p, s, n, x);
  }

  // ----- the `ref` pattern -----

  /** `text` is `ref` in any letter case, blanks, and digits. */
  ghost predicate RefCitation(ctx: Ctx, text: string, digits: string) {
    exists w :: Blank(w) && AllDigits(ctx, digits) && |text| == 3 + |w| + |digits| && text[3..] == w + digits
      && (text[0] == 'r' || text[0] == 'R') && (text[1] == 'e' || text[1] == 'E') && (text[2] == 'f' || text[2] == 'F')
  }

  lemma RefIsWritten(ctx: Ctx, s: string)
    requires MatchRef(ctx, s).Some?
    ensures var m := MatchRef(ctx, s).value;
            RefCitation(ctx, s[..m.len], m.digits) && (m.len == |s| || !IsDigit(ctx, s[m.len]))
  {
    var n, i := MatchRef(ctx, s).value.len, SkipSpace(s, 3);
    RunIsBlank(s, 3, i);
    RunIsDigits(ctx, s, i, n);
    assert s[..n][3..] == s[3..i] + s[i..n];
  }

  lemma RefMatches(ctx: Ctx, s: string, n: nat, w: string, digits: string)
    requires Blank(w) && AllDigits(ctx, digits) && n == 3 + |w| + |digits| <= |s| && s[3..n] == w + digits
    requires (s[0] == 'r' || s[0] == 'R') && (s[1] == 'e' || s[1] == 'E') && (s[2] == 'f' || s[2] == 'F')
    requires n == |s| || !IsDigit(ctx, s[n])
    ensures MatchRef(ctx, s) == Some(Match(n, digits))
  {
    var i, tail := 3 + |w|, s[3..n];
    assert s[3..i] == tail[..|w|] == w && s[i..n] == tail[|w|..] == digits;
    RunIsBlank(s, 3, i);
    RunIsDigits(ctx, s, i, n);
    DigitsAreInk(ctx, s[i]);
    SpaceEnd(s, 3, i);
    DigitEnd(ctx, s, i, n);
  }

  /** It matches such a text with all the digits that follow. */
  lemma RefMeaning(ctx: Ctx, s: string, n: nat, digits: string)
    ensures MatchAt(ctx, Ref, s) == Some(Match(n, digits))
       <==> n <= |s| && RefCitation(ctx, s[..n], digits) && (n == |s| || !IsDigit(ctx, s[n]))
  {
    if MatchRef(ctx, s) == Some(Match(n, digits)) { RefIsWritten(ctx, s); }
    if n <= |s| && RefCitation(ctx, s[..n], digits) && (n == |s| || !IsDigit(ctx, s[n])) {
      var w :| Blank(w) && AllDigits(ctx, digits) && |s[..n]| == 3 + |w| + |digits| && s[..n][3..] == w + digits;
      assert s[..n][3..] == s[3..n];
      assert s[0] == s[..n][0] && s[1] == s[..n][1] && s[2] == s[..n][2];
      RefMatches(ctx, s, n, w, digits);
    }
  }
}
