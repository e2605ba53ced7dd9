/** What the search conditions of the structure merge ask of a row, field by field
    (src/dataset_structure_merger.rs:755-900, 985-1033; src/doc_store.rs value_matches). */
module StructureConditions {
  import opened DocStore
  import opened Json
  import opened StructureBuild
  import opened StructureCleanup
  import opened StructureMerge
  import opened StructureRows
  import opened Text

  /** The field is this text, or a list with it. */
  ghost predicate Has(row: Row, name: string, text: string) {
    name in row && (row[name] == String(text) || (row[name].Array? && String(text) in row[name].items))
  }

  ghost predicate HasTemplate(row: Row, g: Graph) {
    g.template.Some? ==> Has(row, "compilation_template_ids", g.template.value)
  }

  lemma OneOfMeaning(row: Row, name: string, text: string)
    ensures ValueMatches(Field(row, name), OneOf(text)) <==> Has(row, name, text)
  {
    assert forall v :: v in [String(text)] <==> v == String(text);
  }

  lemma AnyOfMeaning(row: Row, name: string, texts: seq<string>)
    ensures ValueMatches(Field(row, name), AnyOf(texts)) <==> exists text :: text in texts && Has(row, name, text)
  {
    var want := Strings(texts);
    if text :| text in texts && Has(row, name, text) {
      var i :| 0 <= i < |texts| && texts[i] == text;
      assert want[i] == String(text);
    }
    if ValueMatches(Field(row, name), AnyOf(texts)) {
      var v :| v in want && (row[name] == v || (row[name].Array? && v in row[name].items));
      var i :| 0 <= i < |want| && want[i] == v;
      assert texts[i] in texts && Has(row, name, texts[i]);
    }
  }

  /** The rows of a graph: those of the dataset scope, its keyword, its dataset and, if it has one, its template. */
  lemma GraphMeaning(s: StoredRow, site: Site, g: Graph)
    ensures InGraph(s, site, g)
       <==> && s.key.indexName == site.indexName && s.key.datasetId == site.kbId
            && Has(s.row, "scope_kwd", "dataset") && Has(s.row, "compile_kwd", g.compileKwd)
            && Has(s.row, "kb_id", site.kbId) && HasTemplate(s.row, g)
  {
    var condition := GraphCondition(site, g);
    assert "scope_kwd" in condition && "compile_kwd" in condition && "kb_id" in condition;
    assert g.template.Some? ==> "compilation_template_ids" in condition;
    OneOfMeaning(s.row, "scope_kwd", "dataset");
    OneOfMeaning(s.row, "compile_kwd", g.compileKwd);
    OneOfMeaning(s.row, "kb_id", site.kbId);
    if g.template.Some? { OneOfMeaning(s.row, "compilation_template_ids", g.template.value); }
  }

  /** The rows a build reads: entities and relations of documents. */
  ghost predicate DocumentRow(row: Row, g: Graph) {
    && Has(row, "scope_kwd", "doc") && Has(row, "compile_kwd", g.compileKwd) && HasTemplate(row, g)
    && (Has(row, "knowledge_graph_kwd", "entity") || Has(row, "knowledge_graph_kwd", "relation"))
  }

  lemma DocumentMeaning(row: Row, g: Graph)
    ensures ConditionMatches(row, BaseCondition(g)) <==> DocumentRow(row, g)
  {
    var condition := BaseCondition(g);
    assert "scope_kwd" in condition && "compile_kwd" in condition && "knowledge_graph_kwd" in condition;
    assert g.template.Some? ==> "compilation_template_ids" in condition;
    OneOfMeaning(row, "scope_kwd", "doc");
    OneOfMeaning(row, "compile_kwd", g.compileKwd);
    AnyOfMeaning(row, "knowledge_graph_kwd", ["entity", "relation"]);
    assert forall text :: text in ["entity", "relation"] <==> text == "entity" || text == "relation";
    if g.template.Some? { OneOfMeaning(row, "compilation_template_ids", g.template.value); }
  }

  lemma MarkerMeaning(s: StoredRow, site: Site)
    ensures IsMarker(s, site)
       <==> && s.key.indexName == site.indexName && s.key.datasetId == site.kbId
            && Has(s.row, "kb_id", site.kbId) && Has(s.row, "knowledge_graph_kwd", "doc_deleted")
  {
    var condition := MarkerCondition(site);
    assert "kb_id" in condition && "knowledge_graph_kwd" in condition;
    OneOfMeaning(s.row, "kb_id", site.kbId);
    OneOfMeaning(s.row, "knowledge_graph_kwd", "doc_deleted");
  }

  /** A row is affected by deletions when a deleted document is, or is among, its documents. */
  lemma ListsMeaning(row: Row, deleted: seq<string>)
    ensures Lists(row, deleted) <==> exists d :: d in deleted && Has(row, "doc_ids_kwd", d)
  {
    AnyOfMeaning(row, "doc_ids_kwd", deleted);
  }

  /** `kept[i]` is `docs[at[i]]`, and the others are deleted ones. */
  ghost predicate KeptAt(docs: seq<string>, deleted: seq<string>, kept: seq<string>, at: seq<nat>) {
    && |at| == |kept|
    && (forall i :: 0 <= i < |at| ==> at[i] < |docs| && docs[at[i]] == kept[i] && kept[i] !in deleted)
    && (forall i, j :: 0 <= i < j < |at| ==> at[i] < at[j])
    && (forall p: nat :: p < |docs| && docs[p] !in deleted ==> p in at)
  }

  /** The surviving documents are exactly those not deleted, in their order. */
  lemma {:induction false} SurvivingKept(docs: seq<string>, deleted: seq<string>) returns (at: seq<nat>)
    ensures KeptAt(docs, deleted, Surviving(docs, deleted), at)
  {
    at := [];
    if docs != [] {
      var n := |docs| - 1;
      var front := docs[..n];
      at := SurvivingKept(front, deleted);
      var before := at;
      if docs[n] !in deleted { at := at + [n]; }
      forall p: nat | p < |docs| && docs[p] !in deleted ensures p in at {
        if p < n { assert front[p] == docs[p] && p in before; }
      }
      forall i | 0 <= i < |before| ensures docs[before[i]] == front[before[i]] { }
    }
  }
}
