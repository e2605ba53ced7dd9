/** A run that consumes a deletion marker it never read
    (src/dataset_structure_merger.rs:742-900, 1329-1367). */
module StructureLostMarker {
  import opened DocStore
  import opened Grouping
  import opened Json
  import opened StructureBuckets
  import opened StructureBuild
  import opened StructureCleanup
  import opened StructureGhosts
  import opened StructureIds
  import opened StructureMerge
  import opened StructureRows
  import opened StructureRun
  import opened StructureSteps
  import opened Text

  /** One graph is built, nobody cancels, and of all page reads only the first one for markers fails. */
  function FailingPlan(site: Site, g: Graph, hash: string -> nat): Plan {
    Plan(site, [g], hash, {}, World(_ => false, _ => 2.0, _ => Faults((p: nat) => p == 0, _ => false)))
  }

  /** The identifiers of markers are their own. */
  ghost predicate MarkerIdPlain(lib: Library, site: Site, d: string) {
    var id := "doc_deleted:" + site.kbId + ":" + d;
    Trim(id) == id && forall parts :: lib.stableId(parts) != id
  }

  /** A row without a scope that does not name `d`. */
  ghost predicate Unscoped(lib: Library, site: Site, d: string, s: StoredRow) {
    RowOk(lib, site, d, s) && !Names(s.row, d) && "scope_kwd" !in s.row
  }

  /** The build time of an earlier build of `g`. */
  lemma EarlierBuild(lib: Library, site: Site, g: Graph, d: string) returns (s: StoredRow)
    requires IdsApart(lib) && PlainGraph(g)
    ensures s.key == Key(site.indexName, site.kbId, MetaId(lib, g)) && Unscoped(lib, site, d, s)
    ensures Field(s.row, "build_timestamp_flt") == Some(Number(1.0))
  {
    s := Entry(MetaRow(lib, g, 1.0), "", site.indexName, site.kbId);
    MetaRowHarmless(lib, site, d, g, 1.0, s);
  }

  /** The marker that `record_doc_deletion` writes for `d`. */
  lemma Marker(lib: Library, site: Site, d: string, g: Graph) returns (s: StoredRow)
    requires MarkerIdPlain(lib, site, d)
    ensures s.key.id != MetaId(lib, g) && s.key.id != DatasetRowId(lib, g, "stale")
    ensures Unscoped(lib, site, d, s) && IsMarker(s, site) && Field(s.row, "deleted_doc_id") == Some(String(d))
  {
    s := Entry(MarkerRow(site, d, 1.0), "", site.indexName, site.kbId);
    assert IsMarker(s, site);
    assert !IsSource(s);
  }

  lemma DatasetEntry(lib: Library, site: Site, g: Graph, d: string) returns (s: StoredRow)
    ensures s.key == Key(site.indexName, site.kbId, DatasetRowId(lib, g, "stale"))
    ensures Field(s.row, "id") == Some(String(s.key.id)) && Field(s.row, "kb_id") == Some(String(g.kbId))
    ensures Field(s.row, "knowledge_graph_kwd") == Some(String("entity"))
    ensures Field(s.row, "scope_kwd") == Some(String("dataset"))
    ensures Field(s.row, "compile_kwd") == Some(String(g.compileKwd))
    ensures Field(s.row, "doc_ids_kwd") == Some(AnyOf([d]))
    ensures g.template.Some? ==> Field(s.row, "compilation_template_ids") == Some(OneOf(g.template.value))
  {
    s := Entry(DatasetFields(g, DatasetRowId(lib, g, "stale"), "entity", [], [d]), "", site.indexName, site.kbId);
  }

  /** A merged row of `g` sourced by `d` alone. */
  lemma Stale(lib: Library, site: Site, g: Graph, d: string) returns (s: StoredRow)
    requires IdsApart(lib) && PlainGraph(g) && g.kbId == site.kbId
    ensures s.key == Key(site.indexName, site.kbId, DatasetRowId(lib, g, "stale"))
    ensures RowOk(lib, site, d, s) && Field(s.row, "scope_kwd") == Some(String("dataset"))
    ensures InGraph(s, site, g) && Names(s.row, d)
  {
    s := DatasetEntry(lib, site, g, d);
    AnyOfMember([d], d);
    DatasetRowOk(lib, site, g, d, s);
    DatasetRowIn(site, g, s);
  }

  lemma DatasetRowIn(site: Site, g: Graph, s: StoredRow)
    requires At(s, site) && g.kbId == site.kbId && Field(s.row, "kb_id") == Some(String(g.kbId))
    requires Field(s.row, "scope_kwd") == Some(String("dataset"))
    requires Field(s.row, "compile_kwd") == Some(String(g.compileKwd))
    requires g.template.Some? ==> Field(s.row, "compilation_template_ids") == Some(OneOf(g.template.value))
    ensures InGraph(s, site, g)
  {
    OneOfMatches("dataset");
    OneOfMatches(g.compileKwd);
    OneOfMatches(site.kbId);
    if g.template.Some? { OneOfMatches(g.template.value); }
  }

  lemma OneOfMatches(text: string)
    ensures ValueMatches(Some(String(text)), OneOf(text)) && ValueMatches(Some(OneOf(text)), OneOf(text))
  {
    assert OneOf(text).items[0] == String(text);
  }

  lemma DatasetRowOk(lib: Library, site: Site, g: Graph, d: string, s: StoredRow)
    requires IdsApart(lib) && PlainGraph(g) && s.key.id == DatasetRowId(lib, g, "stale")
    requires Field(s.row, "id") == Some(String(s.key.id))
    requires Field(s.row, "knowledge_graph_kwd") == Some(String("entity"))
    requires Field(s.row, "scope_kwd") == Some(String("dataset"))
    ensures RowOk(lib, site, d, s)
  {
    assert MarkerCondition(site)["knowledge_graph_kwd"] == OneOf("doc_deleted");
    assert !IsMarker(s, site);
    assert !MetaKey(lib, s);
    assert !IsSource(s);
  }

  lemma ThreeSound(lib: Library, site: Site, d: string, a: StoredRow, b: StoredRow, c: StoredRow)
    requires RowOk(lib, site, d, a) && RowOk(lib, site, d, b) && RowOk(lib, site, d, c)
    requires a.key != b.key && b.key != c.key && a.key != c.key
    ensures Sound(lib, site, d, [a, b, c])
  {
    forall s | s in [a, b, c] ensures RowOk(lib, site, d, s) {
      assert s == a || s == b || s == c;
    }
  }

  /** Nothing of the document level is left to merge. */
  lemma NothingMerged(lib: Library, site: Site, g: Graph, opts: Setting, rows: seq<StoredRow>)
    requires AllMatches(Prepared(lib, site, g, opts, true, rows).0, site, BaseCondition(g)) == []
    ensures NewDocs(lib, site, g, opts, rows) == []
  {
    var floor := Floor(lib, site, g, opts, true, rows);
    NoEntities(lib, g, opts, floor);
    NoRelations(lib, g, opts, floor);
  }

  lemma NoEntities(lib: Library, g: Graph, opts: Setting, floor: Option<real>)
    ensures EntityDocs(lib, g, opts, floor, []) == []
  {
    BucketedNone(KeyOfEntity(lib), MergeEntity(lib, g), BucketOfEntity(lib, opts.hash), BUCKET_COUNT);
  }

  lemma NoRelations(lib: Library, g: Graph, opts: Setting, floor: Option<real>)
    ensures RelationDocs(lib, g, opts, floor, []) == []
  {
    BucketedNone(KeyOfRelation(lib), MergeRelation(lib, g), BucketOfRelation(lib, opts.hash), BUCKET_COUNT);
  }

  /** No row of the document level is stored. */
  lemma NothingScanned(site: Site, g: Graph, rows: seq<StoredRow>)
    requires UniqueKeys(rows)
    requires forall s :: s in rows ==> Field(s.row, "scope_kwd") in [None, Some(String("dataset"))]
    ensures AllMatches(rows, site, BaseCondition(g)) == []
  {
    assert BaseCondition(g)["scope_kwd"] == OneOf("doc");
    forall row ensures row !in AllMatches(rows, site, BaseCondition(g)) {
      MatchMember(rows, site, BaseCondition(g), row);
    }
    HasElement(AllMatches(rows, site, BaseCondition(g)));
  }

  lemma BuiltBefore(lib: Library, site: Site, g: Graph, opts: Setting, rows: seq<StoredRow>, meta: StoredRow)
    requires UniqueKeys(rows) && meta in rows && opts.incremental
    requires meta.key == Key(site.indexName, site.kbId, MetaId(lib, g))
    requires Field(meta.row, "build_timestamp_flt") == Some(Number(1.0))
    ensures Floor(lib, site, g, opts, true, rows).Some?
  {
    LookupFinds(rows, meta.key);
  }

  /** An incremental build that can read no marker and has nothing to merge leaves a row that names `d`. */
  lemma NotHonoured(lib: Library, site: Site, d: string, g: Graph, opts: Setting, rows: seq<StoredRow>, s: StoredRow)
    requires UniqueKeys(rows) && Floor(lib, site, g, opts, true, rows).Some? && opts.faults.pass1(0)
    requires forall t :: t in rows ==> Field(t.row, "scope_kwd") in [None, Some(String("dataset"))]
    requires s in rows && InGraph(s, site, g) && Names(s.row, d)
    ensures !Honours(lib, site, d, g, opts, rows)
  {
    ReadsNothing(lib, site, opts.faults, rows);
    NothingScanned(site, g, rows);
    NothingMerged(lib, site, g, opts, rows);
    ListsNone(s, site, g);
  }

  lemma ReadsNothing(lib: Library, site: Site, faults: Faults, rows: seq<StoredRow>)
    requires faults.pass1(0)
    ensures Read(lib, site, faults, rows) == []
    ensures forall g :: Cleanup(lib, site, g, true, faults, rows).0 == rows
  {
  }

  lemma ListsNone(s: StoredRow, site: Site, g: Graph)
    ensures !Ghost(s, site, g, [])
  {
    ListsMeaning(s.row, []);
  }

  lemma StaleGraph(lib: Library, plan: Plan, g: Graph, d: string, meta: StoredRow, marker: StoredRow, stale: StoredRow)
    requires plan.graphs == [g] && Unscoped(lib, plan.site, d, meta) && Unscoped(lib, plan.site, d, marker)
    requires InGraph(stale, plan.site, g)
    ensures IdsByGraph(lib, plan, d, [meta, marker, stale]) && OneGraph(plan, d, [meta, marker, stale])
  {
    forall s | s in [meta, marker, stale] && Names(s.row, d) ensures s == stale { }
  }

  lemma DatasetScopes(lib: Library, site: Site, d: string, meta: StoredRow, marker: StoredRow, stale: StoredRow)
    requires Unscoped(lib, site, d, meta) && Unscoped(lib, site, d, marker)
    requires Field(stale.row, "scope_kwd") == Some(String("dataset"))
    ensures forall t :: t in [meta, marker, stale] ==> Field(t.row, "scope_kwd") in [None, Some(String("dataset"))]
  {
    forall t | t in [meta, marker, stale] ensures t == meta || t == marker || t == stale { }
  }

  /** With one graph, a build that does not honour the marker leaves the document named for good. */
  lemma OneBuildLeaves(lib: Library, plan: Plan, d: string, build: Builder, rids: Ridding, rows: seq<StoredRow>)
    requires CleanExactly(lib, plan, d, build, rids, rows) && |plan.graphs| == 1
    requires Run(lib, plan, build, true, rows).consumed && !rids(0, rows)
    ensures !NoGhosts(plan.site, d, plan.graphs[0], Run(lib, plan, build, true, rows).rows)
  {
    assert Before(build, rows, 0) == rows;
    assert !rids(0, Before(build, rows, 0));
    var after := Run(lib, plan, build, true, rows).rows;
    assert !Clean(plan, d, after);
    var j :| 0 <= j < |plan.graphs| && !NoGhosts(plan.site, d, plan.graphs[j], after);
    assert j == 0;
  }

  lemma AccountedConsumed(lib: Library, plan: Plan, d: string, build: Builder, rids: Ridding, rows: seq<StoredRow>)
    requires Accounted(lib, plan, d, build, rids, rows) && Run(lib, plan, build, true, rows).consumed
    ensures !Deleted(lib, plan.site, d, Run(lib, plan, build, true, rows).rows)
  {
  }

  /** For every document there is a store from which the run consumes its marker while the graph still names
      it: no later run will know of the deletion. */
  lemma LostMarker(lib: Library, site: Site, g: Graph, d: string, hash: string -> nat) returns (rows: seq<StoredRow>)
    requires IdsApart(lib) && PlainGraph(g) && MarkerIdPlain(lib, site, d) && g.kbId == site.kbId
    requires d != "" && Trim(d) == d
    ensures Sound(lib, site, d, rows) && Deleted(lib, site, d, rows)
    ensures var plan := FailingPlan(site, g, hash);
            var run := Run(lib, plan, Builds(lib, plan, true), true, rows);
            && run.finished && run.consumed
            && !Deleted(lib, site, d, run.rows)
            && !NoGhosts(site, d, g, run.rows)
  {
    rows := StaleRows(lib, FailingPlan(site, g, hash), g, d);
    LostRun(lib, FailingPlan(site, g, hash), g, d, rows);
  }

  lemma OnePlain(plan: Plan, g: Graph)
    requires PlainGraph(g) && plan.graphs == [g]
    ensures PlainGraphs(plan)
  {
  }

  lemma LostRun(lib: Library, plan: Plan, g: Graph, d: string, rows: seq<StoredRow>)
    requires IdsApart(lib) && PlainGraph(g) && plan.graphs == [g] && !plan.world.cancelled(0)
    requires forall j, p :: !plan.world.faults(j).pass2(p)
    requires Sound(lib, plan.site, d, rows) && Deleted(lib, plan.site, d, rows)
    requires IdsByGraph(lib, plan, d, rows) && OneGraph(plan, d, rows)
    requires !Honours(lib, plan.site, d, g, SettingOf(plan, 0), rows)
    ensures var run := Run(lib, plan, Builds(lib, plan, true), true, rows);
            && run.finished && run.consumed
            && !Deleted(lib, plan.site, d, run.rows)
            && !NoGhosts(plan.site, d, g, run.rows)
  {
    OnePlain(plan, g);
    UndisturbedRunConsumes(lib, plan, d, rows);
    ConsumedRunIsDirty(lib, plan, g, d, rows);
  }

  lemma ConsumedRunIsDirty(lib: Library, plan: Plan, g: Graph, d: string, rows: seq<StoredRow>)
    requires IdsApart(lib) && PlainGraphs(plan) && plan.graphs == [g]
    requires Sound(lib, plan.site, d, rows) && Deleted(lib, plan.site, d, rows)
    requires IdsByGraph(lib, plan, d, rows) && OneGraph(plan, d, rows)
    requires !Honours(lib, plan.site, d, g, SettingOf(plan, 0), rows)
    requires Run(lib, plan, Builds(lib, plan, true), true, rows).consumed
    ensures var run := Run(lib, plan, Builds(lib, plan, true), true, rows);
            !Deleted(lib, plan.site, d, run.rows) && !NoGhosts(plan.site, d, g, run.rows)
  {
    var build, rids := Builds(lib, plan, true), Honouring(lib, plan, d);
    MarkersConsumedOnlyAfterCleanup(lib, plan, d, rows);
    AccountedConsumed(lib, plan, d, build, rids, rows);
    ConsumingRunExactly(lib, plan, d, rows);
    OneBuildLeaves(lib, plan, d, build, rids, rows);
  }

  /** A graph built once, whose only row comes from `d`, after `d` was deleted. */
  lemma StaleRows(lib: Library, plan: Plan, g: Graph, d: string) returns (rows: seq<StoredRow>)
    requires IdsApart(lib) && PlainGraph(g) && MarkerIdPlain(lib, plan.site, d) && g.kbId == plan.site.kbId
    requires d != "" && Trim(d) == d
    requires plan.graphs == [g] && plan.disabled == {} && plan.world.faults(0).pass1(0)
    ensures Sound(lib, plan.site, d, rows) && Deleted(lib, plan.site, d, rows)
    ensures IdsByGraph(lib, plan, d, rows) && OneGraph(plan, d, rows)
    ensures !Honours(lib, plan.site, d, g, SettingOf(plan, 0), rows)
  {
    var meta := EarlierBuild(lib, plan.site, g, d);
    var marker := Marker(lib, plan.site, d, g);
    var stale := Stale(lib, plan.site, g, d);
    assert meta.key.id != stale.key.id;
    rows := [meta, marker, stale];
    StaleStore(lib, plan, d, meta, marker, stale);
    StaleGraph(lib, plan, g, d, meta, marker, stale);
    StaleNotHonoured(lib, plan.site, d, g, SettingOf(plan, 0), meta, marker, stale);
  }

  lemma StaleStore(lib: Library, plan: Plan, d: string, a: StoredRow, b: StoredRow, c: StoredRow)
    requires RowOk(lib, plan.site, d, a) && RowOk(lib, plan.site, d, b) && RowOk(lib, plan.site, d, c)
    requires a.key != b.key && b.key != c.key && a.key != c.key
    requires IsMarker(b, plan.site) && Field(b.row, "deleted_doc_id") == Some(String(d)) && d != "" && Trim(d) == d
    ensures Sound(lib, plan.site, d, [a, b, c]) && Deleted(lib, plan.site, d, [a, b, c])
  {
    ThreeSound(lib, plan.site, d, a, b, c);
    assert b in [a, b, c];
  }

  lemma StaleNotHonoured(lib: Library, site: Site, d: string, g: Graph, opts: Setting,
                         meta: StoredRow, marker: StoredRow, stale: StoredRow)
    requires UniqueKeys([meta, marker, stale]) && opts.incremental && opts.faults.pass1(0)
    requires Unscoped(lib, site, d, meta) && Unscoped(lib, site, d, marker)
    requires meta.key == Key(site.indexName, site.kbId, MetaId(lib, g))
    requires Field(meta.row, "build_timestamp_flt") == Some(Number(1.0))
    requires Field(stale.row, "scope_kwd") == Some(String("dataset")) && InGraph(stale, site, g) && Names(stale.row, d)
    ensures !Honours(lib, site, d, g, opts, [meta, marker, stale])
  {
    DatasetScopes(lib, site, d, meta, marker, stale);
    BuiltBefore(lib, site, g, opts, [meta, marker, stale], meta);
    NotHonoured(lib, site, d, g, opts, [meta, marker, stale], stale);
  }
}
