/** Pages of the PDF writer: lines, positions and the texts drawn (src/document_writer.rs:348-481, 513-558). */
module PdfPages {
  import opened Distinctness
  import opened PdfCmap
  import opened PdfText
  import opened Text

  datatype Options = Options(header: string, footer: string, watermark: string, generatedAt: string,
                             addTimestamp: bool, addPageNumbers: bool, fontSize: nat)

  /** A text drawn at a position; `bytes` are its glyph codes. */
  datatype Drawn = Drawn(bytes: seq<Byte>, x: int, y: int, size: nat, grey: bool, rotated: bool)

  datatype Pdf = Pdf(cmap: string, pages: seq<seq<Drawn>>) | TooManyCharacters | MissingCharacter

  const TOP: int := 770
  const BOTTOM: int := 70

  /** The fixed decorations every page may use. */
  const DECORATIONS: string := "Generated: |" + "Page " + "0123456789"

  // ----- lines and pages -----

  function FontSize(o: Options): (size: nat)
    ensures size > 0
  {
    if o.fontSize == 0 then 12 else o.fontSize
  }

  function Max(a: int, b: nat): nat {
    if a < b then b else a
  }

  function LineHeight(o: Options): (h: nat)
    ensures h > 0
  {
    Max(FontSize(o) * 3 / 2, 1)
  }

  /** Lines on a page. */
  function MaxLines(o: Options): (n: nat)
    ensures n > 0
  {
    Max((TOP - BOTTOM) / LineHeight(o), 1)
  }

  function TrimReturns(s: string): (t: string)
    ensures t <= s
  {
    if s != "" && s[|s| - 1] == '\r' then TrimReturns(s[..|s| - 1]) else s
  }

  /** `split('\n')`. */
  function SplitBreaks(s: string): (lines: seq<string>)
    ensures lines != []
    ensures forall i, k :: 0 <= i < |lines| && 0 <= k < |lines[i]| ==> lines[i][k] in s
  {
    if s == "" then [""]
    else
      var rest := SplitBreaks(s[1..]);
      if s[0] == '\n' then [""] + rest else [[s[0]] + rest[0]] + rest[1..]
  }

  function ContentLines(content: string): (lines: seq<string>)
    ensures lines != []
    ensures forall i, k :: 0 <= i < |lines| && 0 <= k < |lines[i]| ==> lines[i][k] in content
  {
    var raw := SplitBreaks(content);
    seq(|raw|, i requires 0 <= i < |raw| => TrimReturns(raw[i]))
  }

  /** `chunks(size)`. */
  function PagesOf(lines: seq<string>, size: nat): (pages: seq<seq<string>>)
    requires size > 0
    decreases |lines|
  {
    if lines == [] then []
    else if |lines| <= size then [lines]
    else [lines[..size]] + PagesOf(lines[size..], size)
  }

  function Join(pages: seq<seq<string>>): seq<string> {
    if pages == [] then [] else pages[0] + Join(pages[1..])
  }

  /** The pages hold the lines, each once and in order, and none is overfull or empty. */
  lemma {:induction false} PagesPartition(lines: seq<string>, size: nat)
    requires size > 0
    ensures var pages := PagesOf(lines, size);
            && Join(pages) == lines
            && (forall p :: 0 <= p < |pages| ==> 0 < |pages[p]| <= size)
            && (forall p :: 0 <= p < |pages| - 1 ==> |pages[p]| == size)
    decreases |lines|
  {
    if |lines| > size {
      PagesPartition(lines[size..], size);
      assert lines == lines[..size] + lines[size..];
      assert PagesOf(lines, size)[1..] == PagesOf(lines[size..], size);
    } else if lines != [] {
      assert Join([lines][1..]) == [];
    }
  }

  /** The height of line `k` of a page. */
  function LineY(o: Options, k: nat): int {
    TOP - k * LineHeight(o)
  }

  lemma LinesFit(k: nat, n: nat, h: nat)
    requires h > 0 && k < n && n * h <= 700
    ensures k * h <= 700 - h
  {
    assert (k + 1) * h <= n * h;
  }

  /** For every font size each line of a page stands above the bottom margin and at most at the top. */
  lemma LinesAboveMargin(o: Options, k: nat)
    requires k < MaxLines(o)
    ensures BOTTOM < LineY(o, k) <= TOP
  {
    var h := LineHeight(o);
    if k > 0 {
      assert MaxLines(o) == 700 / h;
      assert 700 / h * h <= 700;
      LinesFit(k, 700 / h, h);
    }
  }

  // ----- the characters -----

  function AllText(content: string, o: Options): string {
    content + o.header + o.footer + o.watermark + o.generatedAt + DECORATIONS
  }

  function Glyphs(content: string, o: Options): seq<char> {
    Characters(AllText(content, o))
  }

  ghost predicate Covered(text: string, chars: seq<char>) {
    forall c :: c in text ==> c in chars
  }

  lemma GlyphsCover(content: string, o: Options)
    ensures var g := Glyphs(content, o);
            && Covered(content, g) && Covered(o.header, g) && Covered(o.footer, g) && Covered(o.watermark, g)
            && Covered(o.generatedAt, g) && Covered(DECORATIONS, g)
  {
    CharactersCorrect(AllText(content, o));
  }

  // ----- drawing -----

  datatype Part = Part(text: string, x: int, y: int, size: nat, grey: bool, rotated: bool)

  function SmallSize(o: Options): nat {
    Max(FontSize(o) - 2, 8)
  }

  function PageLabel(index: nat): string {
    "Page " + Decimal(index + 1)
  }

  function FooterParts(o: Options, index: nat): seq<string> {
    (if o.footer == "" then [] else [o.footer])
    + (if o.addTimestamp then [o.generatedAt] else [])
    + (if o.addPageNumbers then [PageLabel(index)] else [])
  }

  function JoinBars(parts: seq<string>): string {
    if parts == [] then ""
    else if |parts| == 1 then parts[0]
    else JoinBars(parts[..|parts| - 1]) + " | " + parts[|parts| - 1]
  }

  /** The lines of the body, with their heights; empty lines are not drawn. */
  function Body(o: Options, lines: seq<string>): seq<Part> {
    if lines == [] then []
    else
      var n := |lines| - 1;
      Body(o, lines[..n])
      + if lines[n] == "" then [] else [Part(lines[n], 36, LineY(o, n), FontSize(o), false, false)]
  }

  predicate Draws(d: Drawn, p: Part, chars: seq<char>)
    requires |chars| <= CODE_LIMIT
  {
    Encode(p.text, chars) == Some(d.bytes) && d == Drawn(d.bytes, p.x, p.y, p.size, p.grey, p.rotated)
  }

  ghost predicate DrawsAll(ds: seq<Drawn>, ps: seq<Part>, chars: seq<char>)
    requires |chars| <= CODE_LIMIT
  {
    |ds| == |ps| && forall i :: 0 <= i < |ds| ==> Draws(ds[i], ps[i], chars)
  }

  /** `push_pdf_text`: nothing is drawn if a character has no code. */
  method PushText(ops: seq<Drawn>, ghost done: seq<Part>, p: Part, chars: seq<char>)
    returns (ok: bool, ops': seq<Drawn>)
    requires |chars| <= CODE_LIMIT && DrawsAll(ops, done, chars)
    ensures ok <==> Encode(p.text, chars).Some?
    ensures ok ==> DrawsAll(ops', done + [p], chars)
    ensures !ok ==> ops' == ops
  {
    var bytes := EncodePdfText(p.text, chars);
    if bytes.None? {
      return false, ops;
    }
    return true, ops + [Drawn(bytes.value, p.x, p.y, p.size, p.grey, p.rotated)];
  }

  /** The line loop of a page. */
  method DrawBody(ops: seq<Drawn>, ghost done: seq<Part>, o: Options, lines: seq<string>, chars: seq<char>)
    returns (ok: bool, ops': seq<Drawn>)
    requires |chars| <= CODE_LIMIT && DrawsAll(ops, done, chars)
    ensures ok ==> DrawsAll(ops', done + Body(o, lines), chars)
    ensures (forall i :: 0 <= i < |lines| ==> Covered(lines[i], chars)) ==> ok
  {
    ops' := ops;
    var y := TOP;
    assert done + [] == done;
    for i := 0 to |lines|
      invariant y == LineY(o, i)
      invariant DrawsAll(ops', done + Body(o, lines[..i]), chars)
    {
      assert lines[..i + 1][..i] == lines[..i];
      if lines[i] != "" {
        EncodeIffCovered(lines[i], chars);
        var p := Part(lines[i], 36, y, FontSize(o), false, false);
        Associate(done, Body(o, lines[..i]), [p]);
        ok, ops' := PushText(ops', done + Body(o, lines[..i]), p, chars);
        if !ok {
          return false, ops';
        }
      }
      y := y - LineHeight(o);
    }
    assert lines[..|lines|] == lines;
    ok := true;
  }

  lemma {:induction false} JoinBarsCovered(parts: seq<string>, chars: seq<char>)
    requires Covered(" | ", chars) && forall p :: p in parts ==> Covered(p, chars)
    ensures Covered(JoinBars(parts), chars)
  {
    if |parts| > 1 {
      var front, last := parts[..|parts| - 1], parts[|parts| - 1];
      JoinBarsCovered(front, chars);
      assert last in parts;
      forall c | c in JoinBars(parts) ensures c in chars {
        assert c in JoinBars(front) || c in " | " || c in last;
      }
    }
  }

  lemma CoveredIn(part: string, before: string, after: string)
    ensures Covered(part, before + part + after)
  {
  }

  lemma DigitsCovered()
    ensures forall c: char :: '0' <= c <= '9' ==> c in "0123456789"
  {
    forall c: char | '0' <= c <= '9' ensures c in "0123456789" {
      assert "0123456789"[c as int - '0' as int] == c;
    }
  }

  lemma DecorationCharacters()
    ensures Covered(" | ", DECORATIONS) && Covered("Page ", DECORATIONS)
    ensures forall c: char :: '0' <= c <= '9' ==> c in DECORATIONS
  {
    CoveredIn("Page ", "Generated: |", "0123456789");
    DigitsCovered();
    CoveredIn("0123456789", "Generated: |" + "Page ", "");
    assert DECORATIONS == "Generated: |" + "Page " + "0123456789" + "";
    CoveredIn("Generated: |", "", "Page " + "0123456789");
    assert DECORATIONS == "" + "Generated: |" + ("Page " + "0123456789");
    assert ' ' in "Generated: |" && '|' in "Generated: |";
  }

  /** Whatever a page draws has codes for all its characters. */
  lemma FooterCovered(content: string, o: Options, index: nat)
    ensures Covered(JoinBars(FooterParts(o, index)), Glyphs(content, o))
  {
    var g := Glyphs(content, o);
    GlyphsCover(content, o);
    DecorationCharacters();
    forall c | c in PageLabel(index) ensures c in g {
      assert c in "Page " || c in Decimal(index + 1);
      assert c in DECORATIONS;
    }
    JoinBarsCovered(FooterParts(o, index), g);
  }

  function HeadParts(o: Options): seq<Part> {
    (if o.watermark == "" then [] else [Part(o.watermark, 120, 410, 42, true, true)])
    + (if o.header == "" then [] else [Part(o.header, 36, 810, SmallSize(o), false, false)])
  }

  function FootParts(o: Options, index: nat): seq<Part> {
    if FooterParts(o, index) == [] then []
    else [Part(JoinBars(FooterParts(o, index)), 36, 25, SmallSize(o), false, false)]
  }

  /** Everything drawn on a page, in order. */
  function PageParts(o: Options, index: nat, lines: seq<string>): seq<Part> {
    HeadParts(o) + Body(o, lines) + FootParts(o, index)
  }

  /** Watermark and header. */
  method DrawHead(o: Options, chars: seq<char>) returns (ok: bool, ops: seq<Drawn>)
    requires |chars| <= CODE_LIMIT && Covered(o.watermark, chars) && Covered(o.header, chars)
    ensures ok && DrawsAll(ops, HeadParts(o), chars)
  {
    ok, ops := true, [];
    ghost var done: seq<Part> := [];
    if o.watermark != "" {
      EncodeIffCovered(o.watermark, chars);
      var p := Part(o.watermark, 120, 410, 42, true, true);
      ok, ops := PushText(ops, done, p, chars);
      done := done + [p];
    }
    if o.header != "" {
      EncodeIffCovered(o.header, chars);
      var p := Part(o.header, 36, 810, SmallSize(o), false, false);
      ok, ops := PushText(ops, done, p, chars);
      done := done + [p];
    }
    assert done == HeadParts(o);
  }

  /** Everything on one page: watermark, header, body, footer. */
  method DrawPage(content: string, o: Options, index: nat, lines: seq<string>, chars: seq<char>)
    returns (ok: bool, ops: seq<Drawn>)
    requires chars == Glyphs(content, o) && |chars| <= CODE_LIMIT
    requires forall i :: 0 <= i < |lines| ==> Covered(lines[i], chars)
    ensures ok && DrawsAll(ops, PageParts(o, index, lines), chars)
  {
    GlyphsCover(content, o);
    ok, ops := DrawHead(o, chars);
    ok, ops := DrawBody(ops, HeadParts(o), o, lines, chars);
    var parts := FooterParts(o, index);
    if parts != [] {
      FooterCovered(content, o, index);
      EncodeIffCovered(JoinBars(parts), chars);
      var p := Part(JoinBars(parts), 36, 25, SmallSize(o), false, false);
      ok, ops := PushText(ops, HeadParts(o) + Body(o, lines), p, chars);
    } else {
      assert HeadParts(o) + Body(o, lines) + [] == HeadParts(o) + Body(o, lines);
    }
  }

  lemma {:induction false} PageLinesCovered(lines: seq<string>, size: nat, p: nat, k: nat)
    requires size > 0 && p < |PagesOf(lines, size)| && k < |PagesOf(lines, size)[p]|
    ensures PagesOf(lines, size)[p][k] in lines
    decreases |lines|
  {
    if |lines| > size && p > 0 {
      PageLinesCovered(lines[size..], size, p - 1, k);
    }
  }

  ghost predicate DrawnPages(pages: seq<seq<Drawn>>, o: Options, texts: seq<seq<string>>, chars: seq<char>)
    requires |chars| <= CODE_LIMIT
  {
    |pages| <= |texts| && forall p :: 0 <= p < |pages| ==> DrawsAll(pages[p], PageParts(o, p, texts[p]), chars)
  }

  /** `write_pdf`, up to the PDF container: it fails exactly when there are too many distinct characters,
      and never for want of a code. */
  method WritePdf(content: string, o: Options) returns (pdf: Pdf)
    ensures var glyphs, texts := Glyphs(content, o), PagesOf(ContentLines(content), MaxLines(o));
            if |glyphs| > CODE_LIMIT then pdf == TooManyCharacters
            else pdf.Pdf? && pdf.cmap == Printed(CmapLines(glyphs))
                 && |pdf.pages| == |texts| && DrawnPages(pdf.pages, o, texts, glyphs)
  {
    var lines := ContentLines(content);
    var texts := PagesOf(lines, MaxLines(o));
    var chars := Characters(AllText(content, o));
    if |chars| > CODE_LIMIT {
      return TooManyCharacters;
    }
    var cmap := UnicodeCmap(chars);
    GlyphsCover(content, o);
    var pages: seq<seq<Drawn>> := [];
    for p := 0 to |texts|
      invariant |pages| == p && DrawnPages(pages, o, texts, chars)
    {
      forall k | 0 <= k < |texts[p]| ensures Covered(texts[p][k], chars) {
        PageLinesCovered(lines, MaxLines(o), p, k);
        LineCovered(content, texts[p][k], chars);
      }
      var ok, ops := DrawPage(content, o, p, texts[p], chars);
      if !ok {
        return MissingCharacter;
      }
      pages := pages + [ops];
    }
    return Pdf(cmap, pages);
  }

  lemma LineCovered(content: string, line: string, chars: seq<char>)
    requires line in ContentLines(content) && Covered(content, chars)
    ensures Covered(line, chars)
  {
    var lines := ContentLines(content);
    var i :| 0 <= i < |lines| && lines[i] == line;
    forall c | c in line ensures c in chars {
      var k :| 0 <= k < |lines[i]| && lines[i][k] == c;
    }
  }

  // ----- what a reader finds -----

  /** Every text drawn reads back through the printed character map. */
  lemma DrawnTextReadable(d: Drawn, p: Part, chars: seq<char>)
    requires |chars| <= CODE_LIMIT && Draws(d, p, chars)
    ensures Decode(d.bytes, ReadCmap(Printed(CmapLines(chars)))) == Some(p.text)
  {
    CmapRoundTrip(chars);
    DecodeEncoded(p.text, chars, ReadCmap(Printed(CmapLines(chars))));
  }

  /** The page of a line and its place there. */
  function PlaceOf(i: nat, size: nat): (r: (nat, nat))
    requires size > 0
    ensures r.1 < size
  {
    if i < size then (0, i)
    else
      var r := PlaceOf(i - size, size);
      (r.0 + 1, r.1)
  }

  lemma {:induction false} LineOnItsPage(lines: seq<string>, size: nat, i: nat)
    requires size > 0 && i < |lines|
    ensures var pages, (p, k) := PagesOf(lines, size), PlaceOf(i, size);
            p < |pages| && k < |pages[p]| && pages[p][k] == lines[i]
    decreases |lines|
  {
    if i >= size {
      LineOnItsPage(lines[size..], size, i - size);
    }
  }

  lemma {:induction false} BodyMember(o: Options, lines: seq<string>, k: nat)
    requires k < |lines| && lines[k] != ""
    ensures Part(lines[k], 36, LineY(o, k), FontSize(o), false, false) in Body(o, lines)
  {
    var n := |lines| - 1;
    if k < n { BodyMember(o, lines[..n], k); }
  }

  /** Every non-empty content line is drawn on its page, above the margin, and reads back as itself. */
  lemma EveryLineDrawn(content: string, o: Options, pdf: Pdf, i: nat)
    requires var glyphs, texts := Glyphs(content, o), PagesOf(ContentLines(content), MaxLines(o));
             |glyphs| <= CODE_LIMIT && pdf.Pdf? && pdf.cmap == Printed(CmapLines(glyphs))
             && |pdf.pages| == |texts| && DrawnPages(pdf.pages, o, texts, glyphs)
    requires i < |ContentLines(content)| && ContentLines(content)[i] != ""
    ensures var (p, k) := PlaceOf(i, MaxLines(o));
            && p < |pdf.pages|
            && exists d :: d in pdf.pages[p] && d.y == LineY(o, k) && BOTTOM < d.y <= TOP
                           && Decode(d.bytes, ReadCmap(pdf.cmap)) == Some(ContentLines(content)[i])
  {
    var lines, chars := ContentLines(content), Glyphs(content, o);
    var texts := PagesOf(lines, MaxLines(o));
    var (p, k) := PlaceOf(i, MaxLines(o));
    LineOnItsPage(lines, MaxLines(o), i);
    var part := Part(lines[i], 36, LineY(o, k), FontSize(o), false, false);
    BodyMember(o, texts[p], k);
    assert part in PageParts(o, p, texts[p]);
    var j :| 0 <= j < |PageParts(o, p, texts[p])| && PageParts(o, p, texts[p])[j] == part;
    var d := pdf.pages[p][j];
    DrawnTextReadable(d, part, chars);
    LinesAboveMargin(o, k);
    assert d in pdf.pages[p];
  }

  /** The first line stands at the top, and each line at least its font size below the one before it. */
  lemma LinesApart(o: Options, j: nat, k: nat)
    requires j < k
    ensures LineY(o, 0) == 770 && LineY(o, j) - LineY(o, k) >= FontSize(o) && LineY(o, j + 1) - LineY(o, k + 1)
         == LineY(o, j) - LineY(o, k)
  {
    var h := LineHeight(o);
    assert k * h >= (j + 1) * h;
  }

  /** The text at the bottom of a page: the footer, the time and the page number, as far as wanted. */
  ghost function FooterText(o: Options, index: nat): string {
    var number := "Page " + Decimal(index + 1);
    var rest := if o.addTimestamp && o.addPageNumbers then o.generatedAt + " | " + number
                else if o.addTimestamp then o.generatedAt
                else if o.addPageNumbers then number
                else "";
    if o.footer == "" then rest
    else o.footer + if o.addTimestamp || o.addPageNumbers then " | " + rest else ""
  }

  lemma JoinTwo(a: string, b: string)
    ensures JoinBars([a]) == a && JoinBars([a, b]) == a + " | " + b
  {
    assert [a, b][..1] == [a];
  }

  lemma JoinThree(a: string, b: string, c: string)
    ensures JoinBars([a, b, c]) == a + " | " + b + " | " + c
  {
    JoinTwo(a, b);
    assert [a, b, c][..2] == [a, b];
  }

  lemma FooterBars(footer: string, time: string, number: string, rest: seq<string>)
    requires rest in {[time, number], [time], [number], []}
    ensures JoinBars([footer] + rest)
         == footer + if rest == [] then "" else " | " + JoinBars(rest)
    ensures JoinBars([time, number]) == time + " | " + number && JoinBars([time]) == time
    ensures JoinBars([number]) == number && JoinBars([]) == ""
  {
    JoinTwo(time, number);
    JoinTwo(number, "");
    if rest == [time, number] {
      JoinThree(footer, time, number);
      assert [footer] + rest == [footer, time, number];
    } else if rest == [] {
      JoinTwo(footer, "");
      assert [footer] + rest == [footer];
    } else {
      JoinTwo(footer, rest[0]);
      assert rest == [rest[0]] && [footer] + rest == [footer, rest[0]];
    }
  }

  lemma FooterList(o: Options, index: nat)
    ensures var number := "Page " + Decimal(index + 1);
            var rest := if o.addTimestamp && o.addPageNumbers then [o.generatedAt, number]
                        else if o.addTimestamp then [o.generatedAt]
                        else if o.addPageNumbers then [number]
                        else [];
            FooterParts(o, index) == if o.footer == "" then rest else [o.footer] + rest
  {
  }

  lemma FooterIsText(o: Options, index: nat)
    ensures JoinBars(FooterParts(o, index)) == FooterText(o, index)
    ensures FooterParts(o, index) == [] <==> o.footer == "" && !o.addTimestamp && !o.addPageNumbers
  {
    var number := "Page " + Decimal(index + 1);
    FooterList(o, index);
    FooterBars(o.footer, o.generatedAt, number,
               if o.addTimestamp && o.addPageNumbers then [o.generatedAt, number]
               else if o.addTimestamp then [o.generatedAt]
               else if o.addPageNumbers then [number]
               else []);
  }

  /** Something on the page at this place reads as the text. */
  ghost predicate ReadsAt(pdf: Pdf, p: nat, text: string, x: int, y: int) {
    && pdf.Pdf? && p < |pdf.pages|
    && exists d :: d in pdf.pages[p] && d.x == x && d.y == y && Decode(d.bytes, ReadCmap(pdf.cmap)) == Some(text)
  }

  lemma PartReads(pdf: Pdf, p: nat, parts: seq<Part>, part: Part, chars: seq<char>)
    requires |chars| <= CODE_LIMIT && pdf.Pdf? && pdf.cmap == Printed(CmapLines(chars)) && p < |pdf.pages|
    requires DrawsAll(pdf.pages[p], parts, chars) && part in parts
    ensures ReadsAt(pdf, p, part.text, part.x, part.y)
  {
    var j :| 0 <= j < |parts| && parts[j] == part;
    var d := pdf.pages[p][j];
    DrawnTextReadable(d, part, chars);
    assert d in pdf.pages[p];
  }

  /** Every page carries the watermark and the header that are given and, if anything is wanted there, the text at
      the bottom with its own page number; header and bottom text stand outside the lines. */
  lemma PageFurniture(content: string, o: Options, pdf: Pdf, p: nat)
    requires var glyphs, texts := Glyphs(content, o), PagesOf(ContentLines(content), MaxLines(o));
             |glyphs| <= CODE_LIMIT && pdf.Pdf? && pdf.cmap == Printed(CmapLines(glyphs))
             && |pdf.pages| == |texts| && DrawnPages(pdf.pages, o, texts, glyphs)
    requires p < |pdf.pages|
    ensures o.watermark != "" ==> ReadsAt(pdf, p, o.watermark, 120, 410)
    ensures o.header != "" ==> ReadsAt(pdf, p, o.header, 36, 810)
    ensures o.footer != "" || o.addTimestamp || o.addPageNumbers ==> ReadsAt(pdf, p, FooterText(o, p), 36, 25)
    ensures forall k: nat :: k < MaxLines(o) ==> 25 < LineY(o, k) < 810
  {
    var chars := Glyphs(content, o);
    var lines := PagesOf(ContentLines(content), MaxLines(o))[p];
    var parts := PageParts(o, p, lines);
    FooterIsText(o, p);
    if o.watermark != "" { PartReads(pdf, p, parts, HeadParts(o)[0], chars); }
    if o.header != "" { PartReads(pdf, p, parts, HeadParts(o)[|HeadParts(o)| - 1], chars); }
    if FooterParts(o, p) != [] { PartReads(pdf, p, parts, FootParts(o, p)[0], chars); }
    forall k: nat | k < MaxLines(o) ensures 25 < LineY(o, k) < 810 { LinesAboveMargin(o, k); }
  }
}
