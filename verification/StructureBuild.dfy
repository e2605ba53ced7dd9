/** Building the dataset graphs of a dataset (src/dataset_structure_merger.rs:396-456, 550-590, 905-1170, 1329-1367). */
module StructureBuild {
  import opened Distinctness
  import opened DocStore
  import opened Grouping
  import opened Json
  import opened StructureBuckets
  import opened StructureCleanup
  import opened StructureMerge
  import opened StructureRows
  import opened Text

  const FLUSH_THRESHOLD: nat := 500

  // ----- stored rows of a build -----

  function DatasetFields(g: Graph, id: string, kind: string, chunks: seq<string>, docs: seq<string>): Row {
    var base: Row := map["id" := String(id), "compile_kwd" := String(g.compileKwd),
                         "knowledge_graph_kwd" := String(kind),
                         "scope_kwd" := String("dataset"), "doc_id" := String(g.kbId), "kb_id" := String(g.kbId),
                         "source_chunk_ids" := AnyOf(chunks), "doc_ids_kwd" := AnyOf(docs),
                         "available_int" := Number(1.0)];
    if g.template.Some? then base["compilation_template_ids" := OneOf(g.template.value)] else base
  }

  function EntityDoc(lib: Library, g: Graph, e: EntityRow): Row {
    var payload := Object(map["name" := String(e.name), "type" := String(e.entityType),
                              "description" := String(e.description),
                              "mention_count" := Number(e.mentionCount as real)]);
    DatasetFields(g, e.id, "entity", e.chunks, e.docs)
      ["content_with_weight" := String(lib.show(payload))]["name_kwd" := String(e.nameKwd)]
      ["mention_count_int" := Number(e.mentionCount as real)]
  }

  function RelationDoc(lib: Library, g: Graph, r: RelationRow): Row {
    var payload := Object(map["from" := String(r.key.0), "to" := String(r.key.2), "type" := String(r.key.1)]);
    DatasetFields(g, r.id, "relation", r.chunks, r.docs)
      ["content_with_weight" := String(lib.show(payload))]["from_entity_kwd" := String(r.key.0)]
      ["to_entity_kwd" := String(r.key.2)]
  }

  function DocOfEntity(lib: Library, g: Graph): EntityRow -> Row { e => EntityDoc(lib, g, e) }
  function DocOfRelation(lib: Library, g: Graph): RelationRow -> Row { r => RelationDoc(lib, g, r) }

  /** Every row a build inserts carries its identifier, so the store generates none. */
  function Blanks(n: nat): (r: seq<string>)
    ensures |r| == n
  {
    seq(n, _ => "")
  }

  function InsertAll(rows: seq<StoredRow>, docs: seq<Row>, site: Site): seq<StoredRow> {
    Inserted(rows, docs, Blanks(|docs|), site.indexName, site.kbId)
  }

  lemma {:induction false} InsertAllConcat(rows: seq<StoredRow>, a: seq<Row>, b: seq<Row>, site: Site)
    ensures InsertAll(rows, a + b, site) == InsertAll(InsertAll(rows, a, site), b, site)
  {
    if b == [] {
      assert a + b == a;
    } else {
      var n := |b| - 1;
      InsertAllConcat(rows, a, b[..n], site);
      InsertAllSnoc(rows, a + b[..n], b[n], site);
      InsertAllSnoc(InsertAll(rows, a, site), b[..n], b[n], site);
      assert a + b == (a + b[..n]) + [b[n]];
      assert b == b[..n] + [b[n]];
    }
  }

  lemma InsertAllSnoc(rows: seq<StoredRow>, docs: seq<Row>, doc: Row, site: Site)
    ensures InsertAll(rows, docs + [doc], site)
         == Push(InsertAll(rows, docs, site), Entry(doc, "", site.indexName, site.kbId))
  {
    assert (docs + [doc])[..|docs|] == docs;
    assert Blanks(|docs| + 1)[..|docs|] == Blanks(|docs|);
  }

  /** Rows are written in batches of `FLUSH_THRESHOLD`. */
  method InsertBatched(store: MemoryDocStore, site: Site, docs: seq<Row>)
    modifies store`rows
    ensures store.rows == InsertAll(old(store.rows), docs, site)
  {
    var i := 0;
    while i < |docs|
      invariant 0 <= i <= |docs|
      invariant store.rows == InsertAll(old(store.rows), docs[..i], site)
    {
      var end := if |docs| - i < FLUSH_THRESHOLD then |docs| else i + FLUSH_THRESHOLD;
      var batch := docs[i..end];
      InsertAllConcat(old(store.rows), docs[..i], batch, site);
      assert docs[..i] + batch == docs[..end];
      var ids := store.Insert(batch, Blanks(|batch|), site.indexName, site.kbId);
      i := end;
    }
    assert docs[..|docs|] == docs;
  }

  // ----- the build time -----

  /** `meta_row_id`. */
  function MetaId(lib: Library, g: Graph): string {
    lib.stableId(["kg_build_meta", g.kbId, g.compileKwd, UnwrapOr(g.template, "")])
  }

  function Lookup(rows: seq<StoredRow>, key: Key): Option<Row> {
    if rows == [] then None
    else
      var last := rows[|rows| - 1];
      if last.key == key then Some(last.row) else Lookup(rows[..|rows| - 1], key)
  }

  lemma {:induction false} LookupFinds(rows: seq<StoredRow>, key: Key)
    ensures Lookup(rows, key).Some? ==> StoredRow(key, Lookup(rows, key).value) in rows
    ensures Lookup(rows, key).None? ==> forall s :: s in rows ==> s.key != key
  {
    if rows != [] {
      LookupFinds(rows[..|rows| - 1], key);
      assert rows == rows[..|rows| - 1] + [rows[|rows| - 1]];
    }
  }

  method GetRow(store: MemoryDocStore, site: Site, id: string) returns (row: Option<Row>)
    requires UniqueKeys(store.rows)
    ensures row == Lookup(store.rows, Key(site.indexName, site.kbId, id))
  {
    row := store.Get(id, site.indexName, [site.kbId]);
    GetRefines(store.rows, id, site.indexName, site.kbId, row);
    LookupFinds(store.rows, Key(site.indexName, site.kbId, id));
  }

  /** `load_last_build_time`. */
  function LastBuildTime(lib: Library, site: Site, g: Graph, indexed: bool, rows: seq<StoredRow>): Option<real> {
    if !indexed then None
    else
      match Lookup(rows, Key(site.indexName, site.kbId, MetaId(lib, g)))
      case None => None
      case Some(row) =>
        var t := AsReal(lib, Field(row, "build_timestamp_flt"));
        if t.Some? && t.value > 0.0 then t else None
  }

  function MetaRow(lib: Library, g: Graph, now: real): Row {
    map["id" := String(MetaId(lib, g)), "kb_id" := String(g.kbId), "doc_id" := String(g.kbId),
        "compile_kwd" := String(g.compileKwd), "knowledge_graph_kwd" := String("kg_build_meta"),
        "build_timestamp_flt" := Number(now)]
  }

  /** `save_build_time`. */
  function TimeSaved(lib: Library, site: Site, g: Graph, now: real, rows: seq<StoredRow>): seq<StoredRow> {
    var id := MetaId(lib, g);
    if Lookup(rows, Key(site.indexName, site.kbId, id)).Some?
    then Updated(rows, Hitting(site.indexName, site.kbId, IdCondition([id])), MetaRow(lib, g, now))
    else InsertAll(rows, [MetaRow(lib, g, now)], site)
  }

  lemma TimeSavedUnique(lib: Library, site: Site, g: Graph, now: real, rows: seq<StoredRow>)
    requires UniqueKeys(rows)
    ensures UniqueKeys(TimeSaved(lib, site, g, now, rows))
  {
    UpdateRefines(rows, Hitting(site.indexName, site.kbId, IdCondition([MetaId(lib, g)])), MetaRow(lib, g, now));
    InsertAllUnique(rows, [MetaRow(lib, g, now)], site);
  }

  method SaveBuildTime(lib: Library, store: MemoryDocStore, site: Site, g: Graph, now: real)
    requires UniqueKeys(store.rows)
    modifies store`rows
    ensures UniqueKeys(store.rows)
    ensures store.rows == TimeSaved(lib, site, g, now, old(store.rows))
  {
    TimeSavedUnique(lib, site, g, now, store.rows);
    var existing := GetRow(store, site, MetaId(lib, g));
    if existing.Some? {
      var changed := store.Update(IdCondition([MetaId(lib, g)]), MetaRow(lib, g, now), site.indexName, site.kbId);
    } else {
      var ids := store.Insert([MetaRow(lib, g, now)], Blanks(1), site.indexName, site.kbId);
    }
  }

  // ----- one build -----

  /** The document-level rows of a graph. */
  function BaseCondition(g: Graph): Condition {
    var base := map["compile_kwd" := OneOf(g.compileKwd),
                    "knowledge_graph_kwd" := AnyOf(["entity", "relation"]),
                    "scope_kwd" := OneOf("doc")];
    if g.template.Some? then base["compilation_template_ids" := OneOf(g.template.value)] else base
  }

  function DropGraph(lib: Library, site: Site, g: Graph, rows: seq<StoredRow>): seq<StoredRow> {
    Select(Select(rows, Missing(site.indexName, site.kbId, GraphCondition(site, g))),
           Missing(site.indexName, site.kbId, IdCondition([MetaId(lib, g)])))
  }

  /** The choices of one build that do not come from the store. */
  datatype Setting = Setting(hash: string -> nat, incremental: bool, disabled: set<string>, now: real, faults: Faults)

  function Floor(lib: Library, site: Site, g: Graph, opts: Setting, indexed: bool, rows: seq<StoredRow>): Option<real> {
    if opts.incremental then LastBuildTime(lib, site, g, indexed, rows) else None
  }

  /** A full rebuild drops the old dataset rows, an incremental build cleans them. */
  function Prepared(lib: Library, site: Site, g: Graph, opts: Setting, indexed: bool, rows: seq<StoredRow>)
    : (seq<StoredRow>, bool)
  {
    if Floor(lib, site, g, opts, indexed, rows).None? then (DropGraph(lib, site, g, rows), true)
    else Cleanup(lib, site, g, indexed, opts.faults, rows)
  }

  function EntityDocs(lib: Library, g: Graph, opts: Setting, floor: Option<real>, scanned: seq<Row>): seq<Row> {
    Map(DocOfEntity(lib, g), MergedEntities(lib, g, opts.hash, Where(scanned, EntityInput(lib, opts.disabled, floor))))
  }

  function RelationDocs(lib: Library, g: Graph, opts: Setting, floor: Option<real>, scanned: seq<Row>): seq<Row> {
    Map(DocOfRelation(lib, g),
        MergedRelations(lib, g, opts.hash, Where(scanned, RelationInput(lib, opts.disabled, floor))))
  }

  function Merged(lib: Library, site: Site, g: Graph, opts: Setting, floor: Option<real>, rows: seq<StoredRow>)
    : seq<StoredRow>
  {
    var scanned := AllMatches(rows, site, BaseCondition(g));
    InsertAll(InsertAll(rows, EntityDocs(lib, g, opts, floor, scanned), site),
              RelationDocs(lib, g, opts, floor, scanned), site)
  }

  /** `do_build`: the new rows and whether the deletion markers were honoured. */
  function Built(lib: Library, site: Site, g: Graph, opts: Setting, indexed: bool, rows: seq<StoredRow>)
    : (seq<StoredRow>, bool)
  {
    var floor := Floor(lib, site, g, opts, indexed, rows);
    var prepared := Prepared(lib, site, g, opts, indexed, rows);
    (TimeSaved(lib, site, g, opts.now, Merged(lib, site, g, opts, floor, prepared.0)), prepared.1)
  }

  lemma InsertAllUnique(rows: seq<StoredRow>, docs: seq<Row>, site: Site)
    requires UniqueKeys(rows)
    ensures UniqueKeys(InsertAll(rows, docs, site))
  {
    InsertRefines(rows, docs, Blanks(|docs|), site.indexName, site.kbId);
  }

  lemma CleanUnique(rows: seq<StoredRow>, site: Site, g: Graph, deleted: seq<string>)
    requires UniqueKeys(rows)
    ensures UniqueKeys(CleanRows(rows, site, g, deleted))
  {
    var kept := Select(rows, NotGhost(site, g, deleted));
    SelectUnique(rows, NotGhost(site, g, deleted));
    forall i | 0 <= i < |kept| ensures CleanRows(rows, site, g, deleted)[i].key == kept[i].key { }
  }

  lemma {:induction false} ResizedUnique(rows: seq<StoredRow>, site: Site, shrinks: seq<Shrink>)
    requires UniqueKeys(rows)
    ensures UniqueKeys(Resized(rows, site, shrinks))
  {
    if shrinks != [] {
      var n := |shrinks| - 1;
      ResizedUnique(rows, site, shrinks[..n]);
      UpdateRefines(Resized(rows, site, shrinks[..n]), Hitting(site.indexName, site.kbId, IdCondition([shrinks[n].id])),
                    map["doc_ids_kwd" := AnyOf(shrinks[n].remaining)]);
    }
  }

  lemma RewrittenUnique(lib: Library, rows: seq<StoredRow>, site: Site, deleted: seq<string>, found: seq<Row>)
    requires UniqueKeys(rows)
    ensures UniqueKeys(Rewritten(lib, rows, site, deleted, found))
  {
    var ids := Doomed(lib, found, deleted);
    SelectUnique(rows, Missing(site.indexName, site.kbId, IdCondition(ids)));
    ResizedUnique(Purged(rows, site, ids), site, Diminished(lib, found, deleted));
  }

  lemma PreparedUnique(lib: Library, site: Site, g: Graph, opts: Setting, indexed: bool, rows: seq<StoredRow>)
    requires UniqueKeys(rows)
    ensures UniqueKeys(Prepared(lib, site, g, opts, indexed, rows).0)
  {
    if Floor(lib, site, g, opts, indexed, rows).None? {
      SelectUnique(rows, Missing(site.indexName, site.kbId, GraphCondition(site, g)));
      SelectUnique(Select(rows, Missing(site.indexName, site.kbId, GraphCondition(site, g))),
                   Missing(site.indexName, site.kbId, IdCondition([MetaId(lib, g)])));
    } else {
      var deleted := Read(lib, site, opts.faults, rows);
      RewrittenUnique(lib, rows, site, deleted, AllMatches(rows, site, AffectedCondition(site, g, deleted)));
    }
  }

  method LoadLastBuildTime(lib: Library, store: MemoryDocStore, site: Site, g: Graph) returns (time: Option<real>)
    requires UniqueKeys(store.rows)
    ensures time == LastBuildTime(lib, site, g, (site.indexName, site.kbId) in store.indexes, store.rows)
  {
    if (site.indexName, site.kbId) !in store.indexes {
      return None;
    }
    var row := GetRow(store, site, MetaId(lib, g));
    if row.None? {
      return None;
    }
    var t := AsReal(lib, Field(row.value, "build_timestamp_flt"));
    if t.Some? && t.value > 0.0 {
      return t;
    }
    return None;
  }

  method Scan(store: MemoryDocStore, site: Site, condition: Condition) returns (found: seq<Row>)
    ensures found == AllMatches(store.rows, site, condition)
  {
    var complete: bool;
    found, complete := ScanPages(store, site, condition, PAGE_SIZE, _ => false);
    PagesComplete(AllMatches(store.rows, site, condition), PAGE_SIZE, _ => false, 0);
  }

  /** The scan, merge and insert steps of `do_build`. */
  method MergeScanned(lib: Library, store: MemoryDocStore, site: Site, g: Graph, opts: Setting, floor: Option<real>)
    requires UniqueKeys(store.rows)
    modifies store`rows
    ensures UniqueKeys(store.rows)
    ensures store.rows == Merged(lib, site, g, opts, floor, old(store.rows))
  {
    MergedUnique(lib, site, g, opts, floor, store.rows);
    var scanned := Scan(store, site, BaseCondition(g));
    var buckets, relBuckets := Distribute(lib, opts.hash, opts.disabled, floor, scanned);
    var entities := MergeBuckets(lib, g, buckets, Where(scanned, EntityInput(lib, opts.disabled, floor)),
                                 BucketOfEntity(lib, opts.hash));
    var relations := MergeRelationBuckets(lib, g, relBuckets, Where(scanned, RelationInput(lib, opts.disabled, floor)),
                                          BucketOfRelation(lib, opts.hash));
    InsertBatched(store, site, Map(DocOfEntity(lib, g), entities));
    InsertBatched(store, site, Map(DocOfRelation(lib, g), relations));
  }

  /** The first steps of `do_build`: the time window, and either dropping the old graph or cleaning it. */
  method Prepare(lib: Library, store: MemoryDocStore, site: Site, g: Graph, opts: Setting)
    returns (floor: Option<real>, ok: bool)
    requires UniqueKeys(store.rows)
    modifies store`rows
    ensures UniqueKeys(store.rows)
    ensures var indexed := (site.indexName, site.kbId) in store.indexes;
            && floor == Floor(lib, site, g, opts, indexed, old(store.rows))
            && (store.rows, ok) == Prepared(lib, site, g, opts, indexed, old(store.rows))
  {
    PreparedUnique(lib, site, g, opts, (site.indexName, site.kbId) in store.indexes, store.rows);
    ok := true;
    floor := None;
    if opts.incremental {
      floor := LoadLastBuildTime(lib, store, site, g);
    }
    if floor.None? {
      var count := store.Delete(GraphCondition(site, g), site.indexName, site.kbId);
      count := store.Delete(IdCondition([MetaId(lib, g)]), site.indexName, site.kbId);
    } else {
      ok := CleanupDeletedDocs(lib, store, site, g, opts.faults);
    }
  }

  /** `do_build`. */
  method DoBuild(lib: Library, store: MemoryDocStore, site: Site, g: Graph, opts: Setting) returns (ok: bool)
    requires UniqueKeys(store.rows)
    modifies store`rows
    ensures UniqueKeys(store.rows)
    ensures (store.rows, ok) == Built(lib, site, g, opts, (site.indexName, site.kbId) in store.indexes, old(store.rows))
  {
    var floor: Option<real>;
    floor, ok := Prepare(lib, store, site, g, opts);
    MergeScanned(lib, store, site, g, opts, floor);
    SaveBuildTime(lib, store, site, g, opts.now);
  }

  lemma MergedUnique(lib: Library, site: Site, g: Graph, opts: Setting, floor: Option<real>, rows: seq<StoredRow>)
    requires UniqueKeys(rows)
    ensures UniqueKeys(Merged(lib, site, g, opts, floor, rows))
  {
    var scanned := AllMatches(rows, site, BaseCondition(g));
    var entities := EntityDocs(lib, g, opts, floor, scanned);
    InsertAllUnique(rows, entities, site);
    InsertAllUnique(InsertAll(rows, entities, site), RelationDocs(lib, g, opts, floor, scanned), site);
  }

  // ----- markers -----

  function MarkerRow(site: Site, doc: string, now: real): Row {
    map["id" := String("doc_deleted:" + site.kbId + ":" + doc), "kb_id" := String(site.kbId),
        "deleted_doc_id" := String(doc), "knowledge_graph_kwd" := String("doc_deleted"),
        "compile_kwd" := String("*"), "create_timestamp_flt" := Number(now)]
  }

  /** `record_doc_deletion`: nothing is recorded when the index does not exist. */
  method RecordDocDeletion(store: MemoryDocStore, site: Site, doc: string, now: real)
    modifies store`rows
    ensures store.rows == if (site.indexName, site.kbId) in store.indexes
                          then InsertAll(old(store.rows), [MarkerRow(site, doc, now)], site)
                          else old(store.rows)
  {
    if (site.indexName, site.kbId) !in store.indexes {
      return;
    }
    var ids := store.Insert([MarkerRow(site, doc, now)], Blanks(1), site.indexName, site.kbId);
  }

  function MarkerIds(lib: Library, markers: seq<Row>): seq<string> {
    if markers == [] then []
    else
      var n := |markers| - 1;
      MarkerIds(lib, markers[..n]) + NonEmpty(IdOf(lib, markers[n]))
  }

  function Consumed(lib: Library, site: Site, indexed: bool, rows: seq<StoredRow>): seq<StoredRow> {
    if !indexed then rows
    else
      var ids := MarkerIds(lib, AllMatches(rows, site, MarkerCondition(site)));
      if ids == [] then rows
      else Select(rows, Missing(site.indexName, site.kbId, IdCondition(ids)))
  }

  /** `consume_deletion_markers`. */
  method ConsumeDeletionMarkers(lib: Library, store: MemoryDocStore, site: Site)
    modifies store`rows
    ensures store.rows == Consumed(lib, site, (site.indexName, site.kbId) in store.indexes, old(store.rows))
  {
    if (site.indexName, site.kbId) !in store.indexes {
      return;
    }
    var markers := Scan(store, site, MarkerCondition(site));
    var ids: seq<string> := [];
    for i := 0 to |markers|
      invariant ids == MarkerIds(lib, markers[..i])
    {
      var id := IdOf(lib, markers[i]);
      if id != "" {
        ids := ids + [id];
      }
      assert markers[..i + 1][..i] == markers[..i];
    }
    assert markers[..|markers|] == markers;
    if ids != [] {
      var count := store.Delete(IdCondition(ids), site.indexName, site.kbId);
    }
  }
}
