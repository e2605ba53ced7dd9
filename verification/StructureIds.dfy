/** Row identifiers: the hash of texts joined by colons (src/dataset_structure_merger.rs:54-104,
    src/structure_compile.rs:765-768). */
module StructureIds {
  import opened StructureBuild
  import opened StructureMerge
  import opened StructureRows
  import opened Text

  /** `join(":")`. */
  function Joined(parts: seq<string>): string {
    if parts == [] then ""
    else if |parts| == 1 then parts[0]
    else Joined(parts[..|parts| - 1]) + ":" + parts[|parts| - 1]
  }

  /** Identifiers are trimmed, and only texts that join to the same key share one. */
  ghost predicate SoundIds(lib: Library) {
    && (forall p, q :: lib.stableId(p) == lib.stableId(q) ==> Joined(p) == Joined(q))
    && (forall p :: Trim(lib.stableId(p)) == lib.stableId(p))
  }

  predicate ColonFree(s: string) { ':' !in s }

  function TemplateText(g: Graph): string {
    if g.template.Some? then g.template.value else ""
  }

  /** A graph whose dataset, keyword and template have no colon in them. */
  predicate PlainGraph(g: Graph) {
    ColonFree(g.kbId) && ColonFree(g.compileKwd) && ColonFree(TemplateText(g))
  }

  /** Build-time rows and merged rows of such graphs never share an identifier, and identifiers are trimmed. */
  ghost predicate IdsApart(lib: Library) {
    && (forall parts :: Trim(lib.stableId(parts)) == lib.stableId(parts))
    && (forall g: Graph, h: Graph, name: string ::
          PlainGraph(g) && PlainGraph(h) ==> MetaId(lib, g) != DatasetRowId(lib, h, name))
  }

  // ----- joined texts -----

  /** What follows the last colon is determined by the whole text. */
  lemma LastColon(a: string, x: string, b: string, y: string)
    requires ColonFree(x) && ColonFree(y) && a + ":" + x == b + ":" + y
    ensures a == b && x == y
  {
    var s := a + ":" + x;
    assert s == b + ":" + y;
    assert s[|a|] == ':' && s[|b|] == ':';
    assert forall i :: |a| < i < |s| ==> s[i] == x[i - |a| - 1];
    assert forall i :: |b| < i < |s| ==> s[i] == y[i - |b| - 1];
    assert a == s[..|a|] && b == s[..|b|];
    assert x == s[|a| + 1..] && y == s[|b| + 1..];
  }

  lemma JoinedSnoc(front: seq<string>, last: string)
    requires front != []
    ensures Joined(front + [last]) == Joined(front) + ":" + last
  {
    assert (front + [last])[..|front|] == front;
  }

  /** The text behind the identifier of a build-time row or a merged row. */
  function GraphText(first: string, g: Graph): string {
    first + ":" + g.kbId + ":" + g.compileKwd + ":" + TemplateText(g)
  }

  lemma MetaJoined(g: Graph)
    ensures Joined(["kg_build_meta", g.kbId, g.compileKwd, UnwrapOr(g.template, "")]) == GraphText("kg_build_meta", g)
  {
    FourJoined("kg_build_meta", g);
  }

  lemma FourJoined(first: string, g: Graph)
    ensures Joined([first, g.kbId, g.compileKwd, UnwrapOr(g.template, "")]) == GraphText(first, g)
  {
    var t := UnwrapOr(g.template, "");
    JoinedSnoc([first], g.kbId);
    JoinedSnoc([first, g.kbId], g.compileKwd);
    JoinedSnoc([first, g.kbId, g.compileKwd], t);
    assert [first] + [g.kbId] == [first, g.kbId];
    assert [first, g.kbId] + [g.compileKwd] == [first, g.kbId, g.compileKwd];
    assert [first, g.kbId, g.compileKwd] + [t] == [first, g.kbId, g.compileKwd, t];
  }

  lemma DatasetJoined(g: Graph, name: string)
    ensures Joined([name, g.kbId, g.compileKwd, UnwrapOr(g.template, ""), "dataset"])
         == GraphText(name, g) + ":" + "dataset"
  {
    var front := [name, g.kbId, g.compileKwd, UnwrapOr(g.template, "")];
    FourJoined(name, g);
    JoinedSnoc(front, "dataset");
    assert front + ["dataset"] == [name, g.kbId, g.compileKwd, UnwrapOr(g.template, ""), "dataset"];
  }

  // ----- which identifiers coincide -----

  /** Within one graph merged rows of different names have different identifiers, and none has that of the build
      time. */
  lemma NamesApart(lib: Library, g: Graph, name: string, name': string)
    requires SoundIds(lib)
    ensures DatasetRowId(lib, g, name) != MetaId(lib, g)
    ensures DatasetRowId(lib, g, name) == DatasetRowId(lib, g, name') ==> name == name'
  {
    MetaJoined(g);
    DatasetJoined(g, name);
    DatasetJoined(g, name');
    GraphTextSplits("kg_build_meta", g);
    GraphTextSplits(name, g);
    GraphTextSplits(name', g);
    var rest := ":" + g.kbId + ":" + g.compileKwd + ":" + TemplateText(g);
    SameEnd(name, name', rest + ":" + "dataset");
    MetaIsNoName(name, rest);
  }

  lemma GraphTextSplits(first: string, g: Graph)
    ensures var rest := ":" + g.kbId + ":" + g.compileKwd + ":" + TemplateText(g);
            && GraphText(first, g) == first + rest
            && GraphText(first, g) + ":" + "dataset" == first + (rest + ":" + "dataset")
  {
  }

  lemma SameEnd(a: string, b: string, rest: string)
    ensures a + rest == b + rest ==> a == b
  {
    if a + rest == b + rest { assert a == (a + rest)[..|a|] && b == (b + rest)[..|b|]; }
  }

  lemma MetaIsNoName(name: string, rest: string)
    requires rest != "" && rest[0] == ':'
    ensures "kg_build_meta" + rest != name + (rest + ":" + "dataset")
  {
    var meta, merged := "kg_build_meta" + rest, name + (rest + ":" + "dataset");
    assert |meta| == |merged| ==> |name| == 5;
    assert meta[5] == 'i' && merged[|name|] == ':';
  }

  lemma GraphTextInjective(first: string, g: Graph, first': string, h: Graph)
    requires PlainGraph(g) && PlainGraph(h) && GraphText(first, g) == GraphText(first', h)
    ensures first == first' && g.kbId == h.kbId && g.compileKwd == h.compileKwd && TemplateText(g) == TemplateText(h)
  {
    LastColon(first + ":" + g.kbId + ":" + g.compileKwd, TemplateText(g),
              first' + ":" + h.kbId + ":" + h.compileKwd, TemplateText(h));
    LastColon(first + ":" + g.kbId, g.compileKwd, first' + ":" + h.kbId, h.compileKwd);
    LastColon(first, g.kbId, first', h.kbId);
  }

  /** Rows of different graphs never share an identifier; a missing template counts as an empty one. */
  lemma GraphsApart(lib: Library, g: Graph, h: Graph, name: string, name': string)
    requires SoundIds(lib) && PlainGraph(g) && PlainGraph(h)
    ensures var same := g.kbId == h.kbId && g.compileKwd == h.compileKwd && TemplateText(g) == TemplateText(h);
            && (MetaId(lib, g) == MetaId(lib, h) <==> same)
            && (DatasetRowId(lib, g, name) == DatasetRowId(lib, h, name') <==> same && name == name')
  {
    MetaJoined(g);
    MetaJoined(h);
    DatasetJoined(g, name);
    DatasetJoined(h, name');
    if MetaId(lib, g) == MetaId(lib, h) { GraphTextInjective("kg_build_meta", g, "kg_build_meta", h); }
    if DatasetRowId(lib, g, name) == DatasetRowId(lib, h, name') {
      LastColon(GraphText(name, g), "dataset", GraphText(name', h), "dataset");
      GraphTextInjective(name, g, name', h);
    }
  }

  lemma NoColon(s: string, a: string, b: string)
    requires ColonFree(s)
    ensures s != a + ":" + b
  {
    assert (a + ":" + b)[|a|] == ':';
  }

  lemma MetaIsNoMerged(g: Graph, h: Graph, name: string)
    requires PlainGraph(g) && PlainGraph(h)
    ensures GraphText("kg_build_meta", g) != GraphText(name, h) + ":" + "dataset"
  {
    NoColon("kg_build_meta", name, h.kbId);
    if GraphText("kg_build_meta", g) == GraphText(name, h) + ":" + "dataset" {
      LastColon("kg_build_meta" + ":" + g.kbId + ":" + g.compileKwd, TemplateText(g), GraphText(name, h), "dataset");
      LastColon("kg_build_meta" + ":" + g.kbId, g.compileKwd,
                name + ":" + h.kbId + ":" + h.compileKwd, TemplateText(h));
      LastColon("kg_build_meta", g.kbId, name + ":" + h.kbId, h.compileKwd);
    }
  }

  lemma HashApart(lib: Library, g: Graph, h: Graph, name: string)
    requires SoundIds(lib) && PlainGraph(g) && PlainGraph(h)
    ensures MetaId(lib, g) != DatasetRowId(lib, h, name)
  {
    MetaJoined(g);
    DatasetJoined(h, name);
    MetaIsNoMerged(g, h, name);
  }

  /** A hash without collisions keeps build-time rows and merged rows apart. */
  lemma HashKeepsApart(lib: Library)
    requires SoundIds(lib)
    ensures IdsApart(lib)
  {
    forall g: Graph, h: Graph, name: string | PlainGraph(g) && PlainGraph(h)
      ensures MetaId(lib, g) != DatasetRowId(lib, h, name)
    {
      HashApart(lib, g, h, name);
    }
  }
}
