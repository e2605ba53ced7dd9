/** The printed character map of the PDF writer and its reading (src/document_writer.rs:571-593). */
module PdfCmap {
  import opened PdfText
  import opened Text

  // ----- numbers -----

  function HexDigit(d: nat): (c: char)
    requires d < 16
    ensures c != '\n'
  {
    if d < 10 then '0' + d as char else 'A' + (d - 10) as char
  }

  function HexValue(c: char): (v: Option<nat>)
    ensures v.Some? ==> v.value < 16
  {
    if '0' <= c <= '9' then Some(c as nat - '0' as nat)
    else if 'A' <= c <= 'F' then Some(c as nat - 'A' as nat + 10)
    else None
  }

  lemma HexValueOf(d: nat)
    requires d < 16
    ensures HexValue(HexDigit(d)) == Some(d)
  {
  }

  /** The last `digits` hexadecimal digits, upper case. */
  function Hex(n: nat, digits: nat): (s: string)
    ensures |s| == digits && '\n' !in s
  {
    if digits == 0 then "" else Hex(n / 16, digits - 1) + [HexDigit(n % 16)]
  }

  function ParseHex(s: string): (v: Option<nat>) {
    if s == "" then Some(0)
    else
      var n := |s| - 1;
      var front, last := ParseHex(s[..n]), HexValue(s[n]);
      if front.None? || last.None? then None else Some(16 * front.value + last.value)
  }

  function Pow16(digits: nat): nat {
    if digits == 0 then 1 else 16 * Pow16(digits - 1)
  }

  lemma {:induction false} HexRoundTrip(n: nat, digits: nat)
    requires n < Pow16(digits)
    ensures ParseHex(Hex(n, digits)) == Some(n)
  {
    if digits > 0 {
      var s := Hex(n, digits);
      assert s[..digits - 1] == Hex(n / 16, digits - 1);
      HexRoundTrip(n / 16, digits - 1);
      HexValueOf(n % 16);
    }
  }

  /** `{:04X}`. */
  lemma Hex4RoundTrip(n: nat)
    requires n <= 0xFFFF
    ensures ParseHex(Hex(n, 4)) == Some(n)
  {
    assert Pow16(2) == 256 && Pow16(4) == 65536;
    HexRoundTrip(n, 4);
  }

  // ----- UTF-16 -----

  function Units(c: char): (u: seq<nat>)
    ensures |u| == 1 || |u| == 2
    ensures forall i :: 0 <= i < |u| ==> u[i] <= 0xFFFF
  {
    var n := c as nat;
    if n < 0x10000 then [n]
    else [0xD800 + (n - 0x10000) / 0x400, 0xDC00 + (n - 0x10000) % 0x400]
  }

  /** The character that code units stand for. */
  function FromUnits(u: seq<nat>): Option<char> {
    if |u| == 1 && (u[0] < 0xD800 || 0xE000 <= u[0] < 0x10000) then Some(u[0] as char)
    else if |u| == 2 && 0xD800 <= u[0] < 0xDC00 && 0xDC00 <= u[1] < 0xE000 then
      Some((0x10000 + (u[0] - 0xD800) * 0x400 + (u[1] - 0xDC00)) as char)
    else None
  }

  lemma UnitsRoundTrip(c: char)
    ensures FromUnits(Units(c)) == Some(c)
  {
    var n := c as nat;
    if n >= 0x10000 {
      assert n == 0x10000 + (n - 0x10000) / 0x400 * 0x400 + (n - 0x10000) % 0x400;
    }
  }

  function HexUnits(u: seq<nat>): (s: string)
    ensures |s| == 4 * |u| && '\n' !in s
  {
    if u == [] then "" else HexUnits(u[..|u| - 1]) + Hex(u[|u| - 1], 4)
  }

  function ParseUnits(s: string): Option<seq<nat>> {
    if s == "" then Some([])
    else if |s| < 4 then None
    else
      var n := |s| - 4;
      var front, last := ParseUnits(s[..n]), ParseHex(s[n..]);
      if front.None? || last.None? then None else Some(front.value + [last.value])
  }

  lemma ParseUnitsSnoc(s: string, t: string, front: seq<nat>, last: nat)
    requires |t| == 4 && ParseUnits(s) == Some(front) && ParseHex(t) == Some(last)
    ensures ParseUnits(s + t) == Some(front + [last])
  {
    assert (s + t)[..|s + t| - 4] == s && (s + t)[|s + t| - 4..] == t;
  }

  lemma {:induction false} UnitsText(u: seq<nat>)
    requires forall i :: 0 <= i < |u| ==> u[i] <= 0xFFFF
    ensures ParseUnits(HexUnits(u)) == Some(u)
  {
    if u != [] {
      var front, last := u[..|u| - 1], u[|u| - 1];
      UnitsText(front);
      Hex4RoundTrip(last);
      ParseUnitsSnoc(HexUnits(front), Hex(last, 4), front, last);
      assert u == front + [last];
    }
  }

  // ----- lines of the map -----

  const INTRO: seq<string> := ["/CIDInit /ProcSet findresource begin", "12 dict begin", "begincmap"]

  const SYSTEM_INFO: string := "/CIDSystemInfo << /Registry (Adobe)" + " /Ordering (UCS) /Supplement 0 >> def"

  const NAMES: seq<string> := ["/CMapName /RayRAG-Identity-UCS def", "/CMapType 2 def"]

  const RANGES: seq<string> := ["1 begincodespacerange", "<0000> <FFFF>", "endcodespacerange"]

  const HEADER: seq<string> := INTRO + [SYSTEM_INFO] + NAMES + RANGES

  const RESOURCE: string := "CMapName currentdict" + " /CMap defineresource pop"

  const TRAILER: seq<string> := ["endcmap"] + [RESOURCE] + ["end", "end"]

  const OPENING: string := " beginbfchar"
  const CLOSING: string := "endbfchar"

  function EntryLine(code: nat, c: char): string {
    "<" + Hex(code, 4) + "> <" + HexUnits(Units(c)) + ">"
  }

  type Printer = (nat, char) -> string

  function Printing(): Printer {
    (code: nat, c: char) => EntryLine(code, c)
  }

  function Entries(entry: Printer, chars: seq<char>, start: nat, end: nat): (lines: seq<string>)
    requires start <= end <= |chars|
  {
    if start == end then [] else Entries(entry, chars, start, end - 1) + [entry(end, chars[end - 1])]
  }

  const SECTION: nat := 100

  function SectionEnd(chars: seq<char>, start: nat): (end: nat)
    requires start <= |chars|
    ensures start <= end <= |chars|
    ensures start < |chars| ==> start < end
  {
    if |chars| - start < SECTION then |chars| else start + SECTION
  }

  function Section(entry: Printer, chars: seq<char>, start: nat, end: nat): seq<string>
    requires start <= end <= |chars|
  {
    [Decimal(end - start) + OPENING] + Entries(entry, chars, start, end) + [CLOSING]
  }

  /** Sections of at most 100 entries. */
  function Sections(entry: Printer, chars: seq<char>, start: nat): seq<string>
    requires start <= |chars|
    decreases |chars| - start
  {
    if start == |chars| then []
    else
      var end := SectionEnd(chars, start);
      Section(entry, chars, start, end) + Sections(entry, chars, end)
  }

  function CmapLines(chars: seq<char>): seq<string>
    requires |chars| <= CODE_LIMIT
  {
    HEADER + Sections(Printing(), chars, 0) + TRAILER
  }

  /** Lines as text, each with its line end. */
  function Printed(lines: seq<string>): string {
    if lines == [] then "" else lines[0] + "\n" + Printed(lines[1..])
  }

  lemma {:induction false} PrintedConcat(a: seq<string>, b: seq<string>)
    ensures Printed(a + b) == Printed(a) + Printed(b)
  {
    if a == [] {
      assert a + b == b;
    } else {
      PrintedConcat(a[1..], b);
      assert (a + b)[1..] == a[1..] + b;
      Associate(a[0] + "\n", Printed(a[1..]), Printed(b));
    }
  }

  lemma PrintedOne(line: string)
    ensures Printed([line]) == line + "\n"
  {
    assert Printed([line][1..]) == "";
  }

  /** `unicode_cmap`. */
  method UnicodeCmap(chars: seq<char>) returns (cmap: string)
    requires |chars| <= CODE_LIMIT
    ensures cmap == Printed(CmapLines(chars))
  {
    var sections := PrintSections(chars);
    cmap := Printed(HEADER) + sections + Printed(TRAILER);
    PrintedParts(HEADER, Sections(Printing(), chars, 0), TRAILER);
  }

  lemma PrintedParts(a: seq<string>, b: seq<string>, c: seq<string>)
    ensures Printed(a + b + c) == Printed(a) + Printed(b) + Printed(c)
  {
    PrintedConcat(a, b);
    PrintedConcat(a + b, c);
  }

  /** The chunk loop of `unicode_cmap`. */
  method PrintSections(chars: seq<char>) returns (text: string)
    requires |chars| <= CODE_LIMIT
    ensures text == Printed(Sections(Printing(), chars, 0))
  {
    text := "";
    var start: nat := 0;
    while start < |chars|
      invariant start <= |chars|
      invariant text + Printed(Sections(Printing(), chars, start)) == Printed(Sections(Printing(), chars, 0))
    {
      var end := SectionEnd(chars, start);
      var more := PrintSection(chars, start, end);
      PrintedConcat(Section(Printing(), chars, start, end), Sections(Printing(), chars, end));
      Associate(text, more, Printed(Sections(Printing(), chars, end)));
      text := text + more;
      start := end;
    }
  }

  method PrintSection(chars: seq<char>, start: nat, end: nat) returns (text: string)
    requires start <= end <= |chars| <= CODE_LIMIT
    ensures text == Printed(Section(Printing(), chars, start, end))
  {
    ghost var lines := [Decimal(end - start) + OPENING];
    PrintedOne(Decimal(end - start) + OPENING);
    text := Decimal(end - start) + OPENING + "\n";
    assert lines + [] == lines;
    for i := start to end
      invariant text == Printed(lines + Entries(Printing(), chars, start, i))
    {
      var line := EntryLine(i + 1, chars[i]);
      PrintedOne(line);
      PrintedConcat(lines + Entries(Printing(), chars, start, i), [line]);
      Associate(lines, Entries(Printing(), chars, start, i), [line]);
      text := text + (line + "\n");
    }
    PrintedOne(CLOSING);
    PrintedConcat(lines + Entries(Printing(), chars, start, end), [CLOSING]);
    text := text + (CLOSING + "\n");
  }

  // ----- reading the map -----

  /** The lines of a text in which every line has its line end. */
  function SplitLines(text: string): seq<string> {
    if text == "" then []
    else if text[0] == '\n' then [""] + SplitLines(text[1..])
    else
      var rest := SplitLines(text[1..]);
      if rest == [] then [[text[0]]] else [[text[0]] + rest[0]] + rest[1..]
  }

  ghost predicate NoBreaks(lines: seq<string>) {
    forall l :: l in lines ==> '\n' !in l
  }

  lemma {:induction false} SplitPrintedLine(line: string, rest: string)
    requires '\n' !in line
    ensures SplitLines(line + "\n" + rest) == [line] + SplitLines(rest)
  {
    var text := line + "\n" + rest;
    if line == "" {
      assert text[1..] == rest;
    } else {
      assert text[1..] == line[1..] + "\n" + rest;
      SplitPrintedLine(line[1..], rest);
      assert line == [line[0]] + line[1..];
    }
  }

  lemma {:induction false} SplitPrinted(lines: seq<string>)
    requires NoBreaks(lines)
    ensures SplitLines(Printed(lines)) == lines
  {
    if lines != [] {
      assert lines[0] in lines;
      SplitPrinted(lines[1..]);
      SplitPrintedLine(lines[0], Printed(lines[1..]));
      Associate(lines[0], "\n", Printed(lines[1..]));
    }
  }

  datatype Reader = Reader(inside: bool, table: Table)

  datatype CmapEntry = CmapEntry(code: nat, text: string)

  /** `<code> <units>`. */
  function ParseEntry(line: string): Option<CmapEntry> {
    if |line| < 13 || line[0] != '<' || line[5..8] != "> <" || line[|line| - 1] != '>' then None
    else
      var code, units := ParseHex(line[1..5]), ParseUnits(line[8..|line| - 1]);
      if code.None? || units.None? then None
      else
        var c := FromUnits(units.value);
        if c.None? then None else Some(CmapEntry(code.value, [c.value]))
  }

  predicate Opens(line: string) {
    |line| >= |OPENING| && line[|line| - |OPENING|..] == OPENING
  }

  function ReadLine(r: Reader, line: string): Reader {
    if !r.inside then Reader(Opens(line), r.table)
    else if line == CLOSING then Reader(false, r.table)
    else
      var e := ParseEntry(line);
      if e.None? then r else Reader(true, r.table[e.value.code := e.value.text])
  }

  type LineReader = (Reader, string) -> Reader

  function Reading(): LineReader {
    (r: Reader, line: string) => ReadLine(r, line)
  }

  function ReadLines(read: LineReader, r: Reader, lines: seq<string>): Reader {
    if lines == [] then r else read(ReadLines(read, r, lines[..|lines| - 1]), lines[|lines| - 1])
  }

  /** The codes of a printed map: the entries between opening and closing lines. */
  function ReadCmap(text: string): Table {
    ReadLines(Reading(), Reader(false, map[]), SplitLines(text)).table
  }

  lemma {:induction false} ReadConcat(read: LineReader, r: Reader, a: seq<string>, b: seq<string>)
    ensures ReadLines(read, r, a + b) == ReadLines(read, ReadLines(read, r, a), b)
  {
    if b == [] {
      assert a + b == a;
    } else {
      var n := |b| - 1;
      ReadConcat(read, r, a, b[..n]);
      assert (a + b)[..|a + b| - 1] == a + b[..n];
    }
  }

  lemma ReadSnoc(read: LineReader, r: Reader, lines: seq<string>, line: string)
    ensures ReadLines(read, r, lines + [line]) == read(ReadLines(read, r, lines), line)
  {
    assert (lines + [line])[..|lines|] == lines;
  }

  lemma ReadOne(read: LineReader, r: Reader, line: string)
    ensures ReadLines(read, r, [line]) == read(r, line)
  {
    assert [line][..0] == [];
  }

  lemma EntryParts(code: nat, c: char)
    requires code <= 0xFFFF
    ensures var line := EntryLine(code, c);
            && |line| >= 13 && line[0] == '<' && line[|line| - 1] == '>'
            && line[1..5] == Hex(code, 4) && line[5..8] == "> <" && line[8..|line| - 1] == HexUnits(Units(c))
  {
  }

  lemma EntryRoundTrip(code: nat, c: char)
    requires code <= 0xFFFF
    ensures ParseEntry(EntryLine(code, c)) == Some(CmapEntry(code, [c]))
    ensures EntryLine(code, c) != CLOSING
  {
    EntryParts(code, c);
    Hex4RoundTrip(code);
    UnitsText(Units(c));
    UnitsRoundTrip(c);
  }

  /** The codes up to `n`. */
  ghost predicate UpTo(table: Table, chars: seq<char>, n: nat)
    requires n <= |chars|
  {
    forall code: nat :: 1 <= code <= n ==> code in table && table[code] == [chars[code - 1]]
  }

  lemma UpToNext(table: Table, chars: seq<char>, n: nat)
    requires n < |chars| && UpTo(table, chars, n)
    ensures UpTo(table[n + 1 := [chars[n]]], chars, n + 1)
  {
  }

  /** A reader that knows the codes up to `n`. */
  ghost predicate Knows(r: Reader, inside: bool, chars: seq<char>, n: nat)
    requires n <= |chars|
  {
    r.inside == inside && UpTo(r.table, chars, n)
  }

  /** Inside a section the printed entries are read as entries. */
  ghost predicate Readable(read: LineReader, entry: Printer) {
    forall r: Reader, code: nat, c: char {:trigger read(r, entry(code, c))} :: r.inside && code <= 0xFFFF ==>
      read(r, entry(code, c)) == Reader(true, r.table[code := [c]])
  }

  lemma NextEntry(read: LineReader, entry: Printer, r: Reader, chars: seq<char>, n: nat)
    requires Readable(read, entry) && n < |chars| <= CODE_LIMIT && Knows(r, true, chars, n)
    ensures Knows(read(r, entry(n + 1, chars[n])), true, chars, n + 1)
  {
    UpToNext(r.table, chars, n);
  }

  lemma {:induction false} ReadEntries(read: LineReader, entry: Printer, r: Reader, chars: seq<char>,
                                       start: nat, end: nat)
    requires Readable(read, entry) && start <= end <= |chars| <= CODE_LIMIT && Knows(r, true, chars, start)
    ensures Knows(ReadLines(read, r, Entries(entry, chars, start, end)), true, chars, end)
  {
    if start < end {
      var before, line := Entries(entry, chars, start, end - 1), entry(end, chars[end - 1]);
      ReadEntries(read, entry, r, chars, start, end - 1);
      ReadSnoc(read, r, before, line);
      NextEntry(read, entry, ReadLines(read, r, before), chars, end - 1);
    }
  }

  /** Reading enters a section at its opening line and leaves it at its closing line. */
  ghost predicate ReadsSections(read: LineReader) {
    && (forall r: Reader, n: nat {:trigger read(r, Decimal(n) + OPENING)} ::
          !r.inside ==> read(r, Decimal(n) + OPENING) == Reader(true, r.table))
    && (forall r: Reader {:trigger read(r, CLOSING)} :: r.inside ==> read(r, CLOSING) == Reader(false, r.table))
  }

  lemma ReadSection(read: LineReader, entry: Printer, r: Reader, chars: seq<char>, start: nat, end: nat)
    requires Readable(read, entry) && ReadsSections(read)
    requires start <= end <= |chars| <= CODE_LIMIT && Knows(r, false, chars, start)
    ensures Knows(ReadLines(read, r, Section(entry, chars, start, end)), false, chars, end)
  {
    var opening, entries := Decimal(end - start) + OPENING, Entries(entry, chars, start, end);
    ReadOne(read, r, opening);
    var inside := ReadLines(read, r, [opening]);
    ReadEntries(read, entry, inside, chars, start, end);
    ReadConcat(read, r, [opening], entries);
    ReadOne(read, ReadLines(read, inside, entries), CLOSING);
    ReadConcat(read, r, [opening] + entries, [CLOSING]);
  }

  lemma {:induction false} ReadSections(read: LineReader, entry: Printer, r: Reader, chars: seq<char>, start: nat)
    requires Readable(read, entry) && ReadsSections(read)
    requires start <= |chars| <= CODE_LIMIT && Knows(r, false, chars, start)
    ensures Knows(ReadLines(read, r, Sections(entry, chars, start)), false, chars, |chars|)
    decreases |chars| - start
  {
    if start < |chars| {
      var end := SectionEnd(chars, start);
      var section := Section(entry, chars, start, end);
      ReadSection(read, entry, r, chars, start, end);
      ReadSections(read, entry, ReadLines(read, r, section), chars, end);
      ReadConcat(read, r, section, Sections(entry, chars, end));
    }
  }

  lemma PrintingReadable()
    ensures Readable(Reading(), Printing())
  {
    forall r: Reader, code: nat, c: char | r.inside && code <= 0xFFFF
      ensures Reading()(r, Printing()(code, c)) == Reader(true, r.table[code := [c]])
    {
      EntryRoundTrip(code, c);
    }
  }

  lemma OpeningOpens(n: nat)
    ensures Opens(Decimal(n) + OPENING)
  {
  }

  lemma ReadingReadsSections()
    ensures ReadsSections(Reading())
  {
    forall r: Reader, n: nat | !r.inside ensures Reading()(r, Decimal(n) + OPENING) == Reader(true, r.table) {
      OpeningOpens(n);
    }
  }

  /** Outside sections only opening lines have an effect. */
  lemma {:induction false} ReadOutside(r: Reader, lines: seq<string>)
    requires !r.inside && forall i :: 0 <= i < |lines| ==> !Opens(lines[i])
    ensures ReadLines(Reading(), r, lines) == r
  {
    if lines != [] { ReadOutside(r, lines[..|lines| - 1]); }
  }

  lemma OpensEnding(line: string)
    requires Opens(line)
    ensures line[|line| - 1] == 'r'
  {
    assert line[|line| - |OPENING|..][|OPENING| - 1] == 'r';
  }

  lemma HeaderOutside()
    ensures forall i :: 0 <= i < |HEADER| ==> !Opens(HEADER[i])
  {
    forall i | 0 <= i < |HEADER| ensures !Opens(HEADER[i]) {
      if Opens(HEADER[i]) { OpensEnding(HEADER[i]); }
    }
  }

  lemma TrailerOutside()
    ensures forall i :: 0 <= i < |TRAILER| ==> !Opens(TRAILER[i])
  {
    forall i | 0 <= i < |TRAILER| ensures !Opens(TRAILER[i]) {
      if Opens(TRAILER[i]) { OpensEnding(TRAILER[i]); }
    }
  }

  // ----- no line breaks -----

  lemma NoBreaksConcat(a: seq<string>, b: seq<string>)
    requires NoBreaks(a) && NoBreaks(b)
    ensures NoBreaks(a + b)
  {
  }

  lemma EntryNoBreak(code: nat, c: char)
    requires code <= 0xFFFF
    ensures '\n' !in EntryLine(code, c)
  {
  }

  lemma {:induction false} EntriesNoBreaks(chars: seq<char>, start: nat, end: nat)
    requires start <= end <= |chars| <= CODE_LIMIT
    ensures NoBreaks(Entries(Printing(), chars, start, end))
  {
    if start < end {
      EntriesNoBreaks(chars, start, end - 1);
      EntryNoBreak(end, chars[end - 1]);
    }
  }

  lemma {:induction false} SectionsNoBreaks(chars: seq<char>, start: nat)
    requires start <= |chars| <= CODE_LIMIT
    ensures NoBreaks(Sections(Printing(), chars, start))
    decreases |chars| - start
  {
    if start < |chars| {
      var end := SectionEnd(chars, start);
      var opening := Decimal(end - start) + OPENING;
      assert '\n' !in opening;
      EntriesNoBreaks(chars, start, end);
      SectionsNoBreaks(chars, end);
      assert NoBreaks([opening]) && NoBreaks([CLOSING]);
      NoBreaksConcat([opening], Entries(Printing(), chars, start, end));
      NoBreaksConcat([opening] + Entries(Printing(), chars, start, end), [CLOSING]);
      NoBreaksConcat([opening] + Entries(Printing(), chars, start, end) + [CLOSING], Sections(Printing(), chars, end));
    }
  }

  lemma IntroNoBreaks()
    ensures NoBreaks(INTRO)
  {
  }

  lemma SystemInfoNoBreak()
    ensures NoBreaks([SYSTEM_INFO])
  {
    assert '\n' !in "/CIDSystemInfo << /Registry (Adobe)" && '\n' !in " /Ordering (UCS) /Supplement 0 >> def";
  }

  lemma NamesNoBreaks()
    ensures NoBreaks(NAMES)
  {
  }

  lemma RangesNoBreaks()
    ensures NoBreaks(RANGES)
  {
  }

  lemma HeaderNoBreaks()
    ensures NoBreaks(HEADER)
  {
    IntroNoBreaks();
    SystemInfoNoBreak();
    NamesNoBreaks();
    RangesNoBreaks();
    NoBreaksConcat(INTRO, [SYSTEM_INFO]);
    NoBreaksConcat(INTRO + [SYSTEM_INFO], NAMES);
    NoBreaksConcat(INTRO + [SYSTEM_INFO] + NAMES, RANGES);
  }

  lemma ResourceNoBreak()
    ensures NoBreaks([RESOURCE])
  {
    assert '\n' !in "CMapName currentdict" && '\n' !in " /CMap defineresource pop";
  }

  lemma TrailerNoBreaks()
    ensures NoBreaks(TRAILER)
  {
    ResourceNoBreak();
    assert NoBreaks(["endcmap"]) && NoBreaks(["end", "end"]);
    NoBreaksConcat(["endcmap"], [RESOURCE]);
    NoBreaksConcat(["endcmap"] + [RESOURCE], ["end", "end"]);
  }

  lemma CmapNoBreaks(chars: seq<char>)
    requires |chars| <= CODE_LIMIT
    ensures NoBreaks(CmapLines(chars))
  {
    SectionsNoBreaks(chars, 0);
    HeaderNoBreaks();
    TrailerNoBreaks();
    NoBreaksConcat(HEADER, Sections(Printing(), chars, 0));
    NoBreaksConcat(HEADER + Sections(Printing(), chars, 0), TRAILER);
  }

  /** Reading the printed map gives every code its character back. */
  lemma CmapRoundTrip(chars: seq<char>)
    requires |chars| <= CODE_LIMIT
    ensures Matches(ReadCmap(Printed(CmapLines(chars))), chars)
  {
    CmapNoBreaks(chars);
    SplitPrinted(CmapLines(chars));
    HeaderOutside();
    TrailerOutside();
    PrintingReadable();
    ReadingReadsSections();
    ReadWhole(Reading(), HEADER, Sections(Printing(), chars, 0), TRAILER, chars);
  }

  lemma ReadWhole(read: LineReader, header: seq<string>, sections: seq<string>, trailer: seq<string>, chars: seq<char>)
    requires |chars| <= CODE_LIMIT && read == Reading() && sections == Sections(Printing(), chars, 0)
    requires Readable(read, Printing()) && ReadsSections(read)
    requires forall i :: 0 <= i < |header| ==> !Opens(header[i])
    requires forall i :: 0 <= i < |trailer| ==> !Opens(trailer[i])
    ensures Matches(ReadLines(read, Reader(false, map[]), header + sections + trailer).table, chars)
  {
    var start := Reader(false, map[]);
    ReadOutside(start, header);
    ReadSections(read, Printing(), start, chars, 0);
    ReadConcat(read, start, header, sections);
    var known := ReadLines(read, start, sections);
    ReadOutside(known, trailer);
    ReadConcat(read, start, header + sections, trailer);
  }

  /** Decoding any encoded text through the printed map gives the text back. */
  lemma TextRoundTrip(text: string, chars: seq<char>)
    requires |chars| <= CODE_LIMIT && forall c :: c in text ==> c in chars
    ensures Encode(text, chars).Some?
    ensures Decode(Encode(text, chars).value, ReadCmap(Printed(CmapLines(chars)))) == Some(text)
  {
    EncodeIffCovered(text, chars);
    CmapRoundTrip(chars);
    DecodeEncoded(text, chars, ReadCmap(Printed(CmapLines(chars))));
  }

  // ----- section sizes -----

  lemma {:induction false} EntriesLength(entry: Printer, chars: seq<char>, start: nat, end: nat)
    requires start <= end <= |chars|
    ensures |Entries(entry, chars, start, end)| == end - start
  {
    if start < end { EntriesLength(entry, chars, start, end - 1); }
  }

  /** A section announces exactly the entries it has, at most 100 of them. */
  lemma SectionAnnounces(entry: Printer, chars: seq<char>, start: nat)
    requires start < |chars|
    ensures var end := SectionEnd(chars, start);
            var lines := Section(entry, chars, start, end);
            && 3 <= |lines| <= 102 && (end < |chars| ==> |lines| == 102)
            && lines[0] == Decimal(|lines| - 2) + " beginbfchar" && lines[|lines| - 1] == "endbfchar"
  {
    EntriesLength(entry, chars, start, SectionEnd(chars, start));
  }
}
