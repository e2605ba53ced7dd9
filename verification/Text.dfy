/** Strings as the repository reads them: Rust's `char::is_whitespace`, `trim`
    and ASCII lower-casing. */
module Text {

  datatype Option<+T> = None | Some(value: T)

  /** The code points with the Unicode property White_Space. */
  predicate IsWhitespace(c: char) {
    || '\t' <= c <= '\r'
    || c == ' '
    || c == '\U{85}' || c == '\U{A0}' || c == '\U{1680}'
    || '\U{2000}' <= c <= '\U{200A}'
    || c == '\U{2028}' || c == '\U{2029}' || c == '\U{202F}' || c == '\U{205F}' || c == '\U{3000}'
  }

  /** `s.trim().is_empty()`. */
  predicate Blank(s: string) {
    forall c :: c in s ==> IsWhitespace(c)
  }

  function TrimStart(s: string): (t: string)
    ensures |t| <= |s|
    ensures t == "" || !IsWhitespace(t[0])
  {
    if s != "" && IsWhitespace(s[0]) then TrimStart(s[1..]) else s
  }

  function TrimEnd(s: string): (t: string)
    ensures |t| <= |s|
    ensures t == "" || (!IsWhitespace(t[|t| - 1]) && t[0] == s[0])
  {
    if s != "" && IsWhitespace(s[|s| - 1]) then TrimEnd(s[..|s| - 1]) else s
  }

  function Trim(s: string): (t: string)
    ensures |t| <= |s|
    ensures t == "" || (!IsWhitespace(t[0]) && !IsWhitespace(t[|t| - 1]))
  {
    TrimEnd(TrimStart(s))
  }

  lemma TrimTrimmed(s: string)
    requires s == "" || (!IsWhitespace(s[0]) && !IsWhitespace(s[|s| - 1]))
    ensures Trim(s) == s
  {
  }

  lemma TrimIdempotent(s: string)
    ensures Trim(Trim(s)) == Trim(s)
  {
    TrimTrimmed(Trim(s));
  }

  lemma BlankConcat(s: string, t: string)
    ensures Blank(s + t) <==> Blank(s) && Blank(t)
  {
    if Blank(s + t) {
      forall c | c in s ensures IsWhitespace(c) { assert c in s + t; }
      forall c | c in t ensures IsWhitespace(c) { assert c in s + t; }
    }
  }

  lemma {:induction false} TrimStartBlank(s: string)
    ensures TrimStart(s) == "" <==> Blank(s)
  {
    if s != "" {
      assert s == [s[0]] + s[1..];
      TrimStartBlank(s[1..]);
    }
  }

  lemma {:induction false} TrimEndBlank(s: string)
    ensures TrimEnd(s) == "" <==> Blank(s)
  {
    if s != "" {
      assert s == s[..|s| - 1] + [s[|s| - 1]];
      TrimEndBlank(s[..|s| - 1]);
    }
  }

  lemma TrimEmptyIsBlank(s: string)
    ensures Trim(s) == "" <==> Blank(s)
  {
    TrimStartBlank(s);
    var t := TrimStart(s);
    TrimEndBlank(t);
    assert t != "" ==> t[0] in t;
  }

  function LowerChar(c: char): char {
    if 'A' <= c <= 'Z' then c - 'A' + 'a' else c
  }

  function Lower(s: string): (t: string)
    ensures |t| == |s| && forall i :: 0 <= i < |s| ==> t[i] == LowerChar(s[i])
  {
    seq(|s|, i requires 0 <= i < |s| => LowerChar(s[i]))
  }

  /** The text with all white space removed. */
  function Dense(s: string): (t: string)
    ensures |t| <= |s|
  {
    if s == "" then "" else (if IsWhitespace(s[0]) then "" else [s[0]]) + Dense(s[1..])
  }

  lemma {:induction false} DenseConcat(s: string, t: string)
    ensures Dense(s + t) == Dense(s) + Dense(t)
  {
    if s == "" {
      assert s + t == t;
    } else {
      DenseConcat(s[1..], t);
      assert (s + t)[1..] == s[1..] + t;
      var head := if IsWhitespace(s[0]) then "" else [s[0]];
      assert Dense(s + t) == head + Dense(s[1..] + t);
      assert head + (Dense(s[1..]) + Dense(t)) == (head + Dense(s[1..])) + Dense(t);
    }
  }

  lemma {:induction false} DenseBlank(s: string)
    ensures Blank(s) <==> Dense(s) == ""
  {
    if s != "" {
      DenseBlank(s[1..]);
      assert s == [s[0]] + s[1..];
    }
  }

  function Concat(parts: seq<string>): string {
    if parts == [] then "" else parts[0] + Concat(parts[1..])
  }

  lemma {:induction false} ConcatAppend(s: seq<string>, t: seq<string>)
    ensures Concat(s + t) == Concat(s) + Concat(t)
  {
    if s == [] {
      assert s + t == t;
    } else {
      ConcatAppend(s[1..], t);
      assert (s + t)[1..] == s[1..] + t;
      Associate(s[0], Concat(s[1..]), Concat(t));
    }
  }

  lemma Associate<T>(a: seq<T>, b: seq<T>, c: seq<T>)
    ensures a + (b + c) == (a + b) + c
  {
  }

  lemma ConcatSnoc(s: seq<string>, x: string)
    ensures Concat(s + [x]) == Concat(s) + x
  {
    ConcatAppend(s, [x]);
    assert Concat([x]) == x;
  }

  function DigitChar(k: nat): char
    requires k < 10
  {
    ('0' as int + k) as char
  }

  /** The decimal numeral of `n`. */
  function Decimal(n: nat): (s: string)
    ensures s != "" && forall c :: c in s ==> '0' <= c <= '9'
  {
    if n < 10 then [DigitChar(n)] else Decimal(n / 10) + [DigitChar(n % 10)]
  }

  predicate EndsWith(s: string, c: char) { s != "" && s[|s| - 1] == c }
}
