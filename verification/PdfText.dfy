/** The text coding of the PDF writer: glyph codes, encoded strings and the printed character map
    (src/document_writer.rs:368-389, 560-593). */
module PdfText {
  import opened Distinctness
  import opened Text

  type Byte = b: nat | b < 256

  /** The largest number of distinct characters: codes run from 1 to 65534. */
  const CODE_LIMIT: nat := 65534

  // ----- the code map -----

  /** A sorted set of characters with one more. */
  function Add(chars: seq<char>, c: char): (r: seq<char>) {
    if chars == [] || c < chars[0] then [c] + chars
    else if c == chars[0] then chars
    else [chars[0]] + Add(chars[1..], c)
  }

  /** The distinct characters of a text in ascending order; the code of each is its position plus one. */
  function Characters(text: string): (r: seq<char>) {
    if text == "" then [] else Add(Characters(text[..|text| - 1]), text[|text| - 1])
  }

  ghost predicate Ascending(chars: seq<char>) {
    forall i, j :: 0 <= i < j < |chars| ==> chars[i] < chars[j]
  }

  lemma {:induction false} AddCorrect(chars: seq<char>, c: char)
    requires Ascending(chars)
    ensures Ascending(Add(chars, c))
    ensures forall x :: x in Add(chars, c) <==> x == c || x in chars
  {
    if chars != [] && c > chars[0] {
      AddCorrect(chars[1..], c);
      assert chars == [chars[0]] + chars[1..];
      var rest := Add(chars[1..], c);
      forall i | 0 <= i < |rest| ensures chars[0] < rest[i] { assert rest[i] in rest; }
    }
  }

  lemma {:induction false} CharactersCorrect(text: string)
    ensures Ascending(Characters(text))
    ensures forall x :: x in Characters(text) <==> x in text
  {
    if text != "" {
      var front, last := text[..|text| - 1], text[|text| - 1];
      CharactersCorrect(front);
      AddCorrect(Characters(front), last);
      assert text == front + [last];
    }
  }

  function CodeFrom(chars: seq<char>, c: char, i: nat): (code: Option<nat>)
    requires i <= |chars|
    ensures code.Some? ==> i < code.value <= |chars| && chars[code.value - 1] == c
    ensures code.None? ==> forall j :: i <= j < |chars| ==> chars[j] != c
    decreases |chars| - i
  {
    if i == |chars| then None
    else if chars[i] == c then Some(i + 1)
    else CodeFrom(chars, c, i + 1)
  }

  /** The code of a character, from 1 on. */
  function CodeOf(chars: seq<char>, c: char): Option<nat> {
    CodeFrom(chars, c, 0)
  }

  // ----- encoding -----

  function FromBytes(high: Byte, low: Byte): nat {
    var h: nat, l: nat := high, low;
    h * 256 + l
  }

  function BigEndian(code: nat): (r: seq<Byte>)
    requires code <= 0xFFFF
    ensures |r| == 2 && FromBytes(r[0], r[1]) == code
  {
    [code / 256, code % 256]
  }

  /** `encode_pdf_text`: two bytes a character; nothing if a character has no code. */
  function Encode(text: string, chars: seq<char>): (r: Option<seq<Byte>>)
    requires |chars| <= CODE_LIMIT
  {
    if text == "" then Some([])
    else
      var n := |text| - 1;
      var front, code := Encode(text[..n], chars), CodeOf(chars, text[n]);
      if front.None? || code.None? then None else Some(front.value + BigEndian(code.value))
  }

  method EncodePdfText(text: string, chars: seq<char>) returns (r: Option<seq<Byte>>)
    requires |chars| <= CODE_LIMIT
    ensures r == Encode(text, chars)
  {
    var encoded: seq<Byte> := [];
    for i := 0 to |text|
      invariant Encode(text[..i], chars) == Some(encoded)
    {
      assert text[..i + 1][..i] == text[..i];
      var code := CodeOf(chars, text[i]);
      if code.None? {
        EncodeFails(text, chars, i + 1);
        return None;
      }
      encoded := encoded + BigEndian(code.value);
    }
    assert text[..|text|] == text;
    return Some(encoded);
  }

  lemma {:induction false} EncodeFails(text: string, chars: seq<char>, i: nat)
    requires |chars| <= CODE_LIMIT && i <= |text| && Encode(text[..i], chars).None?
    ensures Encode(text, chars).None?
    decreases |text| - i
  {
    if i == |text| {
      assert text[..i] == text;
    } else {
      assert text[..i + 1][..i] == text[..i];
      EncodeFails(text, chars, i + 1);
    }
  }

  lemma CodeIffMember(chars: seq<char>, c: char)
    ensures CodeOf(chars, c).Some? <==> c in chars
  {
  }

  /** Encoding fails exactly when a character has no code. */
  lemma {:induction false} EncodeIffCovered(text: string, chars: seq<char>)
    requires |chars| <= CODE_LIMIT
    ensures Encode(text, chars).Some? <==> forall c :: c in text ==> c in chars
  {
    if text != "" {
      var front, last := text[..|text| - 1], text[|text| - 1];
      EncodeIffCovered(front, chars);
      assert text == front + [last];
      CodeIffMember(chars, last);
    }
  }

  // ----- decoding -----

  /** What a code stands for. */
  type Table = map<nat, string>

  function Decode(bytes: seq<Byte>, table: Table): (r: Option<string>) {
    if bytes == [] then Some("")
    else if |bytes| == 1 then None
    else
      var n := |bytes| - 2;
      var front, code: nat := Decode(bytes[..n], table), FromBytes(bytes[n], bytes[n + 1]);
      if front.None? || code !in table then None else Some(front.value + table[code])
  }

  /** The table of the code map: each code stands for its character. */
  ghost predicate Matches(table: Table, chars: seq<char>) {
    forall code: nat :: 1 <= code <= |chars| ==> code in table && table[code] == [chars[code - 1]]
  }

  lemma {:induction false} DecodeEncoded(text: string, chars: seq<char>, table: Table)
    requires |chars| <= CODE_LIMIT && Matches(table, chars) && Encode(text, chars).Some?
    ensures Decode(Encode(text, chars).value, table) == Some(text)
  {
    if text != "" {
      var front, last := text[..|text| - 1], text[|text| - 1];
      DecodeEncoded(front, chars, table);
      var before, code := Encode(front, chars).value, CodeOf(chars, last).value;
      var bytes := Encode(text, chars).value;
      assert bytes == before + BigEndian(code);
      assert bytes[..|bytes| - 2] == before;
      assert text == front + [last];
    }
  }
}
