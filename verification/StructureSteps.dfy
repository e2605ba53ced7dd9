/** What each step of a merge run keeps of the store, and what a build leaves of a deleted document
    (src/dataset_structure_merger.rs:742-1170). */
module StructureSteps {
  import opened Distinctness
  import opened DocStore
  import opened Grouping
  import opened Json
  import opened StructureBuckets
  import opened StructureBuild
  import opened StructureCleanup
  import opened StructureGhosts
  import opened StructureIds
  import opened StructureMerge
  import opened StructureRows
  import opened Text

  // ----- what a sound store is -----

  /** Markers have an identifier of their own, never a generated one, and no scope. */
  ghost predicate PlainMarker(lib: Library, s: StoredRow) {
    s.key.id != "" && "scope_kwd" !in s.row && forall parts :: s.key.id != lib.stableId(parts)
  }

  predicate IsSource(s: StoredRow) {
    ValueMatches(Field(s.row, "scope_kwd"), OneOf("doc"))
  }

  ghost predicate MetaKey(lib: Library, s: StoredRow) {
    exists g :: PlainGraph(g) && s.key.id == MetaId(lib, g)
  }

  /** What a run needs of a stored row: it carries its identifier, marker and build-time rows have the
      shape the program gives them, and no source row of the deleted document `d` is left. */
  ghost predicate RowOk(lib: Library, site: Site, d: string, s: StoredRow) {
    At(s, site) ==>
      && OwnId(s)
      && (IsMarker(s, site) ==> PlainMarker(lib, s))
      && (MetaKey(lib, s) ==> "doc_ids_kwd" !in s.row && "scope_kwd" !in s.row)
      && (IsSource(s) ==> StrOf(lib, Field(s.row, "doc_id")) != d)
  }

  ghost predicate Sound(lib: Library, site: Site, d: string, rows: seq<StoredRow>) {
    UniqueKeys(rows) && forall s :: s in rows ==> RowOk(lib, site, d, s)
  }

  /** `t` is `s` but for its document list. */
  ghost predicate SameElse(s: StoredRow, t: StoredRow) {
    s.key == t.key && forall name :: name != "doc_ids_kwd" ==> Field(s.row, name) == Field(t.row, name)
  }

  /** The row is, but for its document list, one of these that names `d`. */
  ghost predicate StemsFrom(d: string, rows: seq<StoredRow>, t: StoredRow) {
    exists s :: s in rows && SameElse(s, t) && Names(s.row, d)
  }

  /** Every row of the dataset that names `d` afterwards stems from one that named it before. */
  ghost predicate NamesFrom(site: Site, d: string, rows: seq<StoredRow>, rows': seq<StoredRow>) {
    forall t {:trigger StemsFrom(d, rows, t)} ::
      t in rows' && At(t, site) && Names(t.row, d) ==> StemsFrom(d, rows, t)
  }

  /** A step that keeps the store sound and the markers as they are, and makes no row name `d` anew. */
  ghost predicate Keeps(lib: Library, site: Site, d: string, rows: seq<StoredRow>, rows': seq<StoredRow>) {
    && Sound(lib, site, d, rows')
    && (forall s :: IsMarker(s, site) ==> (s in rows <==> s in rows'))
    && NamesFrom(site, d, rows, rows')
  }

  lemma NoneAnew(site: Site, d: string, g: Graph, rows: seq<StoredRow>, rows': seq<StoredRow>)
    requires NamesFrom(site, d, rows, rows') && NoGhosts(site, d, g, rows)
    ensures NoGhosts(site, d, g, rows')
  {
    forall t | t in rows' && InGraph(t, site, g) ensures !Names(t.row, d) {
      if Names(t.row, d) {
        assert StemsFrom(d, rows, t);
        var s :| s in rows && SameElse(s, t) && Names(s.row, d);
        GraphIgnoresDocs(s, t, site, g);
      }
    }
  }

  // ----- each step keeps the store -----

  lemma SelectStep(lib: Library, site: Site, d: string, rows: seq<StoredRow>, keep: StoredRow -> bool)
    requires Sound(lib, site, d, rows)
    requires forall s :: s in rows && IsMarker(s, site) ==> keep(s)
    ensures Keeps(lib, site, d, rows, Select(rows, keep))
  {
    SelectUnique(rows, keep);
    forall s ensures (s in Select(rows, keep) <==> s in rows && keep(s)) && SameElse(s, s) {
      SelectMember(rows, keep, s);
    }
  }

  /** A row a build may insert. */
  ghost predicate Harmless(lib: Library, site: Site, d: string, e: StoredRow) {
    && RowOk(lib, site, d, e)
    && !IsMarker(e, site)
    && !Names(e.row, d)
    && exists parts :: e.key.id == lib.stableId(parts)
  }

  lemma PushStep(lib: Library, site: Site, d: string, rows: seq<StoredRow>, e: StoredRow)
    requires Sound(lib, site, d, rows) && Harmless(lib, site, d, e)
    ensures Keeps(lib, site, d, rows, Push(rows, e))
  {
    PushUnique(rows, e);
    forall s ensures (s in Push(rows, e) <==> s == e || (s in rows && s.key != e.key)) && SameElse(s, s) {
      SelectMember(rows, OtherThan(e.key), s);
    }
    forall s | s in rows && IsMarker(s, site) ensures s.key != e.key {
      assert PlainMarker(lib, s);
    }
  }

  lemma KeepsTransitive(lib: Library, site: Site, d: string, a: seq<StoredRow>, b: seq<StoredRow>, c: seq<StoredRow>)
    requires Keeps(lib, site, d, a, b) && Keeps(lib, site, d, b, c)
    ensures Keeps(lib, site, d, a, c)
  {
    forall t | t in c && At(t, site) && Names(t.row, d) ensures StemsFrom(d, a, t) {
      assert StemsFrom(d, b, t);
      var m :| m in b && SameElse(m, t) && Names(m.row, d);
      assert StemsFrom(d, a, m);
      var s :| s in a && SameElse(s, m) && Names(s.row, d);
      assert SameElse(s, t);
    }
  }

  lemma KeepsItself(lib: Library, site: Site, d: string, rows: seq<StoredRow>)
    requires Sound(lib, site, d, rows)
    ensures Keeps(lib, site, d, rows, rows)
  {
    forall t | t in rows ensures SameElse(t, t) { }
  }

  lemma {:induction false} InsertStep(lib: Library, site: Site, d: string, rows: seq<StoredRow>, docs: seq<Row>)
    requires Sound(lib, site, d, rows)
    requires forall doc :: doc in docs ==> Harmless(lib, site, d, Entry(doc, "", site.indexName, site.kbId))
    ensures Keeps(lib, site, d, rows, InsertAll(rows, docs, site))
  {
    if docs == [] {
      KeepsItself(lib, site, d, rows);
    } else {
      var front, last := docs[..|docs| - 1], docs[|docs| - 1];
      InsertStep(lib, site, d, rows, front);
      assert docs == front + [last];
      InsertAllSnoc(rows, front, last, site);
      var before, e := InsertAll(rows, front, site), Entry(last, "", site.indexName, site.kbId);
      assert last in docs;
      PushStep(lib, site, d, before, e);
      KeepsTransitive(lib, site, d, rows, before, Push(before, e));
    }
  }

  lemma MarkerOutsideGraph(lib: Library, site: Site, d: string, g: Graph, s: StoredRow)
    requires RowOk(lib, site, d, s) && IsMarker(s, site)
    ensures !InGraph(s, site, g)
  {
    assert "scope_kwd" in GraphCondition(site, g);
  }

  lemma ShrunkRowOk(lib: Library, site: Site, d: string, g: Graph, deleted: seq<string>, s: StoredRow)
    requires RowOk(lib, site, d, s)
    ensures var t := Shrunk(s, site, g, deleted);
            && RowOk(lib, site, d, t)
            && (IsMarker(s, site) || IsMarker(t, site) ==> s == t)
  {
    var t := Shrunk(s, site, g, deleted);
    ShrunkFields(s, site, g, deleted);
    var condition := MarkerCondition(site);
    forall name | name in condition ensures Field(s.row, name) == Field(t.row, name) { assert name != "doc_ids_kwd"; }
    if IsMarker(s, site) { MarkerOutsideGraph(lib, site, d, g, s); }
    if Shrinks(s, site, g, deleted) {
      assert Field(s.row, "doc_ids_kwd").Some?;
      assert Field(s.row, "id") == Field(t.row, "id");
      assert Field(s.row, "scope_kwd") == Field(t.row, "scope_kwd");
      assert Field(s.row, "doc_id") == Field(t.row, "doc_id");
    }
  }

  lemma CleanStep(lib: Library, site: Site, d: string, g: Graph, deleted: seq<string>, rows: seq<StoredRow>)
    requires Sound(lib, site, d, rows)
    ensures Keeps(lib, site, d, rows, CleanRows(rows, site, g, deleted))
  {
    var clean := CleanRows(rows, site, g, deleted);
    CleanUnique(rows, site, g, deleted);
    forall t | t in clean ensures RowOk(lib, site, d, t) && (IsMarker(t, site) ==> t in rows) {
      var s := CleanOrigin(rows, site, g, deleted, t);
      ShrunkRowOk(lib, site, d, g, deleted, s);
    }
    forall s | s in rows && IsMarker(s, site) ensures s in clean {
      MarkerOutsideGraph(lib, site, d, g, s);
      CleanImage(rows, site, g, deleted, s);
      ShrunkRowOk(lib, site, d, g, deleted, s);
    }
    forall t | t in clean && At(t, site) && Names(t.row, d) ensures StemsFrom(d, rows, t) {
      var s := CleanOrigin(rows, site, g, deleted, t);
      ShrunkFields(s, site, g, deleted);
      if Shrinks(s, site, g, deleted) { ShrunkNames(s, site, g, deleted, d); }
      assert SameElse(s, t);
    }
  }

  lemma DropMember(lib: Library, site: Site, g: Graph, rows: seq<StoredRow>, s: StoredRow)
    requires At(s, site) ==> OwnId(s)
    ensures s in DropGraph(lib, site, g, rows)
       <==> s in rows && !InGraph(s, site, g) && !(At(s, site) && s.key.id == MetaId(lib, g))
  {
    var outside := Missing(site.indexName, site.kbId, GraphCondition(site, g));
    var others := Missing(site.indexName, site.kbId, IdCondition([MetaId(lib, g)]));
    SelectMember(rows, outside, s);
    SelectMember(Select(rows, outside), others, s);
    if At(s, site) { ByIds(s, site, [MetaId(lib, g)]); }
  }

  lemma DropStep(lib: Library, site: Site, d: string, g: Graph, rows: seq<StoredRow>)
    requires Sound(lib, site, d, rows)
    ensures Keeps(lib, site, d, rows, DropGraph(lib, site, g, rows))
  {
    var outside := Missing(site.indexName, site.kbId, GraphCondition(site, g));
    var others := Missing(site.indexName, site.kbId, IdCondition([MetaId(lib, g)]));
    var left := Select(rows, outside);
    forall s | s in rows && IsMarker(s, site) ensures outside(s) { MarkerOutsideGraph(lib, site, d, g, s); }
    SelectStep(lib, site, d, rows, outside);
    forall s | s in left && IsMarker(s, site) ensures others(s) { MarkerIdApart(lib, site, d, g, s); }
    SelectStep(lib, site, d, left, others);
    KeepsTransitive(lib, site, d, rows, left, Select(left, others));
  }

  lemma DropCleans(lib: Library, site: Site, d: string, g: Graph, rows: seq<StoredRow>)
    ensures NoGhosts(site, d, g, DropGraph(lib, site, g, rows))
  {
    var outside := Missing(site.indexName, site.kbId, GraphCondition(site, g));
    var others := Missing(site.indexName, site.kbId, IdCondition([MetaId(lib, g)]));
    forall s | s in DropGraph(lib, site, g, rows) ensures !InGraph(s, site, g) {
      SelectMember(rows, outside, s);
      SelectMember(Select(rows, outside), others, s);
    }
  }

  lemma MarkerIdApart(lib: Library, site: Site, d: string, g: Graph, s: StoredRow)
    requires RowOk(lib, site, d, s) && IsMarker(s, site)
    ensures !Hit(s, site.indexName, site.kbId, IdCondition([MetaId(lib, g)]))
  {
    ByIds(s, site, [MetaId(lib, g)]);
    assert s.key.id != MetaId(lib, g);
  }

  // ----- merged rows -----

  lemma SourceRow(lib: Library, site: Site, d: string, g: Graph, rows: seq<StoredRow>, row: Row)
    requires Sound(lib, site, d, rows) && row in AllMatches(rows, site, BaseCondition(g))
    ensures StrOf(lib, Field(row, "doc_id")) != d
  {
    var q := PageQuery(site, BaseCondition(g), 0, 1);
    MatchesAreComplete(rows, q, NoScore(), site.indexName, site.kbId);
    var stored := Matches(rows, q, NoScore());
    var i :| 0 <= i < |stored| && Rows(stored)[i] == row;
    assert stored[i] in stored;
    assert BaseCondition(g)["scope_kwd"] == OneOf("doc");
  }

  lemma DatasetRowHarmless(lib: Library, site: Site, d: string, g: Graph, name: string, kind: string,
                           docs: seq<string>, doc: Row)
    requires IdsApart(lib) && PlainGraph(g) && d !in docs && kind != "doc_deleted"
    requires Field(doc, "id") == Some(String(DatasetRowId(lib, g, name)))
    requires Field(doc, "knowledge_graph_kwd") == Some(String(kind))
    requires Field(doc, "scope_kwd") == Some(String("dataset"))
    requires Field(doc, "doc_ids_kwd") == Some(AnyOf(docs))
    ensures Harmless(lib, site, d, Entry(doc, "", site.indexName, site.kbId))
    ensures Entry(doc, "", site.indexName, site.kbId).key.id == DatasetRowId(lib, g, name)
  {
    var e := Entry(doc, "", site.indexName, site.kbId);
    assert e.key.id == DatasetRowId(lib, g, name);
    assert !IsMarker(e, site) by { assert MarkerCondition(site)["knowledge_graph_kwd"] == OneOf("doc_deleted"); }
    AnyOfMember(docs, d);
    assert !MetaKey(lib, e);
    assert !IsSource(e);
  }

  lemma EntityDocFields(lib: Library, g: Graph, e: EntityRow)
    ensures var doc := EntityDoc(lib, g, e);
            && Field(doc, "id") == Some(String(e.id))
            && Field(doc, "knowledge_graph_kwd") == Some(String("entity"))
            && Field(doc, "scope_kwd") == Some(String("dataset"))
            && Field(doc, "doc_ids_kwd") == Some(AnyOf(e.docs))
  {
  }

  lemma RelationDocFields(lib: Library, g: Graph, r: RelationRow)
    ensures var doc := RelationDoc(lib, g, r);
            && Field(doc, "id") == Some(String(r.id))
            && Field(doc, "knowledge_graph_kwd") == Some(String("relation"))
            && Field(doc, "scope_kwd") == Some(String("dataset"))
            && Field(doc, "doc_ids_kwd") == Some(AnyOf(r.docs))
  {
  }

  lemma EntityHarmless(lib: Library, site: Site, d: string, g: Graph, opts: Setting, floor: Option<real>,
                       scanned: seq<Row>, doc: Row)
    requires IdsApart(lib) && PlainGraph(g) && doc in EntityDocs(lib, g, opts, floor, scanned)
    requires forall row :: row in scanned ==> StrOf(lib, Field(row, "doc_id")) != d
    ensures Harmless(lib, site, d, Entry(doc, "", site.indexName, site.kbId))
    ensures exists name :: Entry(doc, "", site.indexName, site.kbId).key.id == DatasetRowId(lib, g, name)
  {
    var input := EntityInput(lib, opts.disabled, floor);
    var merged := MergedEntities(lib, g, opts.hash, Where(scanned, input));
    var i :| 0 <= i < |merged| && Map(DocOfEntity(lib, g), merged)[i] == doc;
    var e := merged[i];
    assert e in merged;
    var k, group := BucketedOrigin(Where(scanned, input), KeyOfEntity(lib), MergeEntity(lib, g),
                                   BucketOfEntity(lib, opts.hash), BUCKET_COUNT, e);
    forall row | row in group ensures row in scanned { MembersMember(scanned, input, true, row); }
    DocsAreUnion(lib, group, d);
    EntityDocFields(lib, g, e);
    DatasetRowHarmless(lib, site, d, g, k.0, "entity", e.docs, doc);
  }

  lemma RelationHarmless(lib: Library, site: Site, d: string, g: Graph, opts: Setting, floor: Option<real>,
                         scanned: seq<Row>, doc: Row)
    requires IdsApart(lib) && PlainGraph(g) && doc in RelationDocs(lib, g, opts, floor, scanned)
    requires forall row :: row in scanned ==> StrOf(lib, Field(row, "doc_id")) != d
    ensures Harmless(lib, site, d, Entry(doc, "", site.indexName, site.kbId))
    ensures exists name :: Entry(doc, "", site.indexName, site.kbId).key.id == DatasetRowId(lib, g, name)
  {
    var input := RelationInput(lib, opts.disabled, floor);
    var merged := MergedRelations(lib, g, opts.hash, Where(scanned, input));
    var i :| 0 <= i < |merged| && Map(DocOfRelation(lib, g), merged)[i] == doc;
    var r := merged[i];
    assert r in merged;
    var k, group := BucketedOrigin(Where(scanned, input), KeyOfRelation(lib), MergeRelation(lib, g),
                                   BucketOfRelation(lib, opts.hash), BUCKET_COUNT, r);
    forall row | row in group ensures row in scanned { MembersMember(scanned, input, true, row); }
    DocsAreUnion(lib, group, d);
    RelationDocFields(lib, g, r);
    DatasetRowHarmless(lib, site, d, g, RelationIdText(lib, k), "relation", r.docs, doc);
  }

  /** Merging brings no deleted document back. */
  lemma MergedStep(lib: Library, site: Site, d: string, g: Graph, opts: Setting, floor: Option<real>,
                   rows: seq<StoredRow>)
    requires IdsApart(lib) && PlainGraph(g) && Sound(lib, site, d, rows)
    ensures Keeps(lib, site, d, rows, Merged(lib, site, g, opts, floor, rows))
  {
    var scanned := AllMatches(rows, site, BaseCondition(g));
    forall row | row in scanned ensures StrOf(lib, Field(row, "doc_id")) != d { SourceRow(lib, site, d, g, rows, row); }
    var entities := EntityDocs(lib, g, opts, floor, scanned);
    var relations := RelationDocs(lib, g, opts, floor, scanned);
    forall doc | doc in entities ensures Harmless(lib, site, d, Entry(doc, "", site.indexName, site.kbId)) {
      EntityHarmless(lib, site, d, g, opts, floor, scanned, doc);
    }
    forall doc | doc in relations ensures Harmless(lib, site, d, Entry(doc, "", site.indexName, site.kbId)) {
      RelationHarmless(lib, site, d, g, opts, floor, scanned, doc);
    }
    var between := InsertAll(rows, entities, site);
    InsertStep(lib, site, d, rows, entities);
    InsertStep(lib, site, d, between, relations);
    KeepsTransitive(lib, site, d, rows, between, InsertAll(between, relations, site));
  }

  // ----- the build time -----

  lemma MetaRowHarmless(lib: Library, site: Site, d: string, g: Graph, now: real, s: StoredRow)
    requires IdsApart(lib) && PlainGraph(g)
    requires s.key == Key(site.indexName, site.kbId, MetaId(lib, g))
    requires forall name :: name in MetaRow(lib, g, now) ==> Field(s.row, name) == Some(MetaRow(lib, g, now)[name])
    requires "doc_ids_kwd" !in s.row && "scope_kwd" !in s.row
    ensures Harmless(lib, site, d, s)
  {
    var meta := MetaRow(lib, g, now);
    assert "id" in meta && "knowledge_graph_kwd" in meta;
    assert !IsMarker(s, site) by { assert MarkerCondition(site)["knowledge_graph_kwd"] == OneOf("doc_deleted"); }
  }

  lemma MetaHit(lib: Library, site: Site, d: string, g: Graph, s: StoredRow)
    requires IdsApart(lib) && PlainGraph(g) && RowOk(lib, site, d, s)
    requires Hit(s, site.indexName, site.kbId, IdCondition([MetaId(lib, g)]))
    ensures s.key == Key(site.indexName, site.kbId, MetaId(lib, g)) && !IsMarker(s, site)
    ensures "doc_ids_kwd" !in s.row && "scope_kwd" !in s.row
  {
    ByIds(s, site, [MetaId(lib, g)]);
    assert MetaKey(lib, s);
    if IsMarker(s, site) { MarkerIdApart(lib, site, d, g, s); }
  }

  lemma PatchedMeta(lib: Library, site: Site, d: string, g: Graph, now: real, s: StoredRow)
    requires IdsApart(lib) && PlainGraph(g) && RowOk(lib, site, d, s)
    ensures var t := Patched(s, Hitting(site.indexName, site.kbId, IdCondition([MetaId(lib, g)])),
                             MetaRow(lib, g, now));
            t == s || (Harmless(lib, site, d, t) && !IsMarker(s, site))
  {
    var hit := Hitting(site.indexName, site.kbId, IdCondition([MetaId(lib, g)]));
    if hit(s) {
      MetaHit(lib, site, d, g, s);
      MetaRowHarmless(lib, site, d, g, now, Patched(s, hit, MetaRow(lib, g, now)));
    }
  }

  lemma TimeStep(lib: Library, site: Site, d: string, g: Graph, now: real, rows: seq<StoredRow>)
    requires IdsApart(lib) && PlainGraph(g) && Sound(lib, site, d, rows)
    ensures Keeps(lib, site, d, rows, TimeSaved(lib, site, g, now, rows))
  {
    var id, meta := MetaId(lib, g), MetaRow(lib, g, now);
    if Lookup(rows, Key(site.indexName, site.kbId, id)).None? {
      MetaRowHarmless(lib, site, d, g, now, Entry(meta, "", site.indexName, site.kbId));
      InsertStep(lib, site, d, rows, [meta]);
    } else {
      var hit := Hitting(site.indexName, site.kbId, IdCondition([id]));
      var r := Updated(rows, hit, meta);
      UpdateRefines(rows, hit, meta);
      forall t | t in r
        ensures RowOk(lib, site, d, t) && SameElse(t, t) && (t in rows || (!IsMarker(t, site) && !Names(t.row, d)))
      {
        var i :| 0 <= i < |r| && r[i] == t;
        assert rows[i] in rows;
        PatchedMeta(lib, site, d, g, now, rows[i]);
      }
      forall s | s in rows && IsMarker(s, site) ensures s in r {
        var i :| 0 <= i < |rows| && rows[i] == s;
        PatchedMeta(lib, site, d, g, now, s);
        assert r[i] == s;
      }
    }
  }

  // ----- one build -----

  lemma SoundOwnIds(lib: Library, site: Site, d: string, rows: seq<StoredRow>)
    requires Sound(lib, site, d, rows)
    ensures UniqueKeys(rows) && OwnIds(rows, site)
  {
  }

  lemma CleanupStep(lib: Library, site: Site, d: string, g: Graph, faults: Faults, rows: seq<StoredRow>)
    requires Sound(lib, site, d, rows)
    ensures Keeps(lib, site, d, rows, Cleanup(lib, site, g, true, faults, rows).0)
  {
    SoundOwnIds(lib, site, d, rows);
    CleanupIsClean(lib, site, g, faults, rows);
    CleanStep(lib, site, d, g, Read(lib, site, faults, rows), rows);
    KeepsItself(lib, site, d, rows);
  }

  lemma PreparedStep(lib: Library, site: Site, d: string, g: Graph, opts: Setting, rows: seq<StoredRow>)
    requires Sound(lib, site, d, rows)
    ensures Keeps(lib, site, d, rows, Prepared(lib, site, g, opts, true, rows).0)
  {
    if Floor(lib, site, g, opts, true, rows).None? {
      DropStep(lib, site, d, g, rows);
    } else {
      CleanupStep(lib, site, d, g, opts.faults, rows);
    }
  }

  /** A build keeps the markers, and no row names `d` that did not name it before. */
  lemma BuiltStep(lib: Library, site: Site, d: string, g: Graph, opts: Setting, rows: seq<StoredRow>)
    requires IdsApart(lib) && PlainGraph(g) && Sound(lib, site, d, rows)
    ensures Keeps(lib, site, d, rows, Built(lib, site, g, opts, true, rows).0)
    ensures (forall p :: !opts.faults.pass2(p)) ==> Built(lib, site, g, opts, true, rows).1
  {
    var floor := Floor(lib, site, g, opts, true, rows);
    var prepared := Prepared(lib, site, g, opts, true, rows);
    PreparedStep(lib, site, d, g, opts, rows);
    var merged := Merged(lib, site, g, opts, floor, prepared.0);
    MergedStep(lib, site, d, g, opts, floor, prepared.0);
    TimeStep(lib, site, d, g, opts.now, merged);
    var after := TimeSaved(lib, site, g, opts.now, merged);
    KeepsTransitive(lib, site, d, rows, prepared.0, merged);
    KeepsTransitive(lib, site, d, rows, merged, after);
    if forall p :: !opts.faults.pass2(p) { ReadableSucceeds(lib, site, g, opts.faults, rows); }
  }

  // ----- what a build leaves of a deleted document -----

  /** Inserting these rows replaces the row with this key. */
  ghost predicate Overwrites(site: Site, docs: seq<Row>, key: Key) {
    exists doc :: doc in docs && Entry(doc, "", site.indexName, site.kbId).key == key
  }

  lemma {:induction false} InsertAllMember(rows: seq<StoredRow>, docs: seq<Row>, site: Site, t: StoredRow)
    ensures t in rows && !Overwrites(site, docs, t.key) ==> t in InsertAll(rows, docs, site)
    ensures t in InsertAll(rows, docs, site) ==>
              || (t in rows && !Overwrites(site, docs, t.key))
              || exists doc :: doc in docs && t == Entry(doc, "", site.indexName, site.kbId)
  {
    if docs != [] {
      var front, last := docs[..|docs| - 1], docs[|docs| - 1];
      assert docs == front + [last];
      InsertAllMember(rows, front, site, t);
      InsertAllSnoc(rows, front, last, site);
      var before, e := InsertAll(rows, front, site), Entry(last, "", site.indexName, site.kbId);
      SelectMember(before, OtherThan(e.key), t);
      assert last in docs;
    }
  }

  /** The rows a build inserts after it has prepared the store. */
  function NewDocs(lib: Library, site: Site, g: Graph, opts: Setting, rows: seq<StoredRow>): seq<Row> {
    var floor := Floor(lib, site, g, opts, true, rows);
    var scanned := AllMatches(Prepared(lib, site, g, opts, true, rows).0, site, BaseCondition(g));
    EntityDocs(lib, g, opts, floor, scanned) + RelationDocs(lib, g, opts, floor, scanned)
  }

  lemma SurvivesInsert(rows: seq<StoredRow>, docs: seq<Row>, site: Site, d: string, t: StoredRow)
    requires Names(t.row, d) && forall doc :: doc in docs ==> !Names(doc, d)
    ensures t in InsertAll(rows, docs, site) <==> t in rows && !Overwrites(site, docs, t.key)
  {
    InsertAllMember(rows, docs, site, t);
  }

  /** A prepared row that names `d` survives the rest of the build exactly when no inserted row replaces it. */
  lemma SurvivesMerge(lib: Library, site: Site, d: string, g: Graph, opts: Setting, rows: seq<StoredRow>, t: StoredRow)
    requires IdsApart(lib) && PlainGraph(g) && Sound(lib, site, d, rows)
    requires At(t, site) && Names(t.row, d)
    ensures t in Built(lib, site, g, opts, true, rows).0
       <==> t in Prepared(lib, site, g, opts, true, rows).0
            && !Overwrites(site, NewDocs(lib, site, g, opts, rows), t.key)
  {
    var floor := Floor(lib, site, g, opts, true, rows);
    var prepared := Prepared(lib, site, g, opts, true, rows).0;
    PreparedStep(lib, site, d, g, opts, rows);
    MergedStep(lib, site, d, g, opts, floor, prepared);
    SurvivesTime(lib, site, d, g, opts.now, Merged(lib, site, g, opts, floor, prepared), t);
    NewDocsHarmless(lib, site, d, g, opts, rows);
    MergedIsInsert(lib, site, g, opts, rows);
    var docs := NewDocs(lib, site, g, opts, rows);
    forall doc | doc in docs ensures !Names(doc, d) {
      assert Harmless(lib, site, d, Entry(doc, "", site.indexName, site.kbId));
    }
    SurvivesInsert(prepared, docs, site, d, t);
  }

  lemma MergedIsInsert(lib: Library, site: Site, g: Graph, opts: Setting, rows: seq<StoredRow>)
    ensures var prepared := Prepared(lib, site, g, opts, true, rows).0;
            Merged(lib, site, g, opts, Floor(lib, site, g, opts, true, rows), prepared)
            == InsertAll(prepared, NewDocs(lib, site, g, opts, rows), site)
  {
    var floor := Floor(lib, site, g, opts, true, rows);
    var prepared := Prepared(lib, site, g, opts, true, rows).0;
    var scanned := AllMatches(prepared, site, BaseCondition(g));
    InsertAllConcat(prepared, EntityDocs(lib, g, opts, floor, scanned),
                    RelationDocs(lib, g, opts, floor, scanned), site);
  }

  lemma NewDocsHarmless(lib: Library, site: Site, d: string, g: Graph, opts: Setting, rows: seq<StoredRow>)
    requires IdsApart(lib) && PlainGraph(g) && Sound(lib, site, d, Prepared(lib, site, g, opts, true, rows).0)
    ensures forall doc :: doc in NewDocs(lib, site, g, opts, rows) ==>
              && Harmless(lib, site, d, Entry(doc, "", site.indexName, site.kbId))
              && exists name :: Entry(doc, "", site.indexName, site.kbId).key.id == DatasetRowId(lib, g, name)
  {
    var floor := Floor(lib, site, g, opts, true, rows);
    var prepared := Prepared(lib, site, g, opts, true, rows).0;
    var scanned := AllMatches(prepared, site, BaseCondition(g));
    forall row | row in scanned ensures StrOf(lib, Field(row, "doc_id")) != d {
      SourceRow(lib, site, d, g, prepared, row);
    }
    forall doc | doc in NewDocs(lib, site, g, opts, rows)
      ensures Harmless(lib, site, d, Entry(doc, "", site.indexName, site.kbId))
      ensures exists name :: Entry(doc, "", site.indexName, site.kbId).key.id == DatasetRowId(lib, g, name)
    {
      if doc in EntityDocs(lib, g, opts, floor, scanned) {
        EntityHarmless(lib, site, d, g, opts, floor, scanned, doc);
      } else {
        RelationHarmless(lib, site, d, g, opts, floor, scanned, doc);
      }
    }
  }

  lemma NoMetaKey(lib: Library, site: Site, d: string, g: Graph, t: StoredRow)
    requires PlainGraph(g) && RowOk(lib, site, d, t) && At(t, site) && Names(t.row, d)
    ensures t.key.id != MetaId(lib, g)
  {
    assert "doc_ids_kwd" in t.row;
    assert t.key.id == MetaId(lib, g) ==> MetaKey(lib, t);
  }

  /** Saving the build time touches only the build-time row. */
  lemma TimeKeeps(lib: Library, site: Site, g: Graph, now: real, rows: seq<StoredRow>, t: StoredRow)
    requires OwnId(t) && t.key.id != MetaId(lib, g)
    ensures t in TimeSaved(lib, site, g, now, rows) <==> t in rows
  {
    var id, meta := MetaId(lib, g), MetaRow(lib, g, now);
    if Lookup(rows, Key(site.indexName, site.kbId, id)).None? {
      InsertAllMember(rows, [meta], site, t);
      assert forall doc :: doc in [meta] ==> doc == meta;
      assert RowId(meta, "") == id;
    } else {
      var hit := Hitting(site.indexName, site.kbId, IdCondition([id]));
      var r := Updated(rows, hit, meta);
      ByIds(t, site, [id]);
      if t in r {
        var i :| 0 <= i < |r| && r[i] == t;
        assert rows[i] in rows;
      }
      if t in rows {
        var i :| 0 <= i < |rows| && rows[i] == t;
        assert r[i] == t;
      }
    }
  }

  lemma SurvivesTime(lib: Library, site: Site, d: string, g: Graph, now: real, rows: seq<StoredRow>, t: StoredRow)
    requires IdsApart(lib) && PlainGraph(g) && Sound(lib, site, d, rows)
    requires At(t, site) && Names(t.row, d)
    ensures t in TimeSaved(lib, site, g, now, rows) <==> t in rows
  {
    TimeStep(lib, site, d, g, now, rows);
    if t in rows || t in TimeSaved(lib, site, g, now, rows) {
      NoMetaKey(lib, site, d, g, t);
      TimeKeeps(lib, site, g, now, rows, t);
    }
  }

  /** What a build must do to be rid of `d` in its graph: start anew, read a marker of `d`, or have nothing of
      `d` but rows that go with the documents it did read or are replaced by freshly merged ones. */
  ghost predicate Honours(lib: Library, site: Site, d: string, g: Graph, opts: Setting, rows: seq<StoredRow>) {
    var read := Read(lib, site, opts.faults, rows);
    || Floor(lib, site, g, opts, true, rows).None?
    || d in read
    || forall s :: s in rows && InGraph(s, site, g) && Names(s.row, d) ==>
         Ghost(s, site, g, read) || Overwrites(site, NewDocs(lib, site, g, opts, rows), s.key)
  }

  /** A build that reports success leaves its graph without `d` exactly when it does that, whatever reads failed. */
  lemma BuiltExactly(lib: Library, site: Site, d: string, g: Graph, opts: Setting, rows: seq<StoredRow>)
    requires IdsApart(lib) && PlainGraph(g) && Sound(lib, site, d, rows) && Built(lib, site, g, opts, true, rows).1
    ensures NoGhosts(site, d, g, Built(lib, site, g, opts, true, rows).0) <==> Honours(lib, site, d, g, opts, rows)
  {
    var prepared, built := Prepared(lib, site, g, opts, true, rows).0, Built(lib, site, g, opts, true, rows).0;
    var docs := NewDocs(lib, site, g, opts, rows);
    forall t | At(t, site) && Names(t.row, d) ensures t in built <==> t in prepared && !Overwrites(site, docs, t.key) {
      SurvivesMerge(lib, site, d, g, opts, rows, t);
    }
    if Floor(lib, site, g, opts, true, rows).None? {
      DropCleans(lib, site, d, g, rows);
    } else {
      SoundOwnIds(lib, site, d, rows);
      CleanupIsClean(lib, site, g, opts.faults, rows);
      CleanedUnless(rows, site, d, g, Read(lib, site, opts.faults, rows), docs);
    }
  }

  lemma CleanedUnless(rows: seq<StoredRow>, site: Site, d: string, g: Graph, deleted: seq<string>, docs: seq<Row>)
    ensures (forall t :: t in CleanRows(rows, site, g, deleted) && InGraph(t, site, g) && Names(t.row, d) ==>
               Overwrites(site, docs, t.key))
       <==> d in deleted || forall s :: s in rows && InGraph(s, site, g) && Names(s.row, d) ==>
                              Ghost(s, site, g, deleted) || Overwrites(site, docs, s.key)
  {
    var clean := CleanRows(rows, site, g, deleted);
    CleanedExactly(rows, site, d, g, deleted);
    if d !in deleted {
      forall s | s in rows && !Ghost(s, site, g, deleted)
        ensures var t := Shrunk(s, site, g, deleted);
                && t in clean && t.key == s.key
                && (InGraph(s, site, g) <==> InGraph(t, site, g)) && (Names(s.row, d) <==> Names(t.row, d))
      {
        CleanImage(rows, site, g, deleted, s);
        SameButDocs(s, site, g, deleted, d);
      }
      forall t | t in clean
        ensures exists s :: s in rows && !Ghost(s, site, g, deleted) && t == Shrunk(s, site, g, deleted)
      {
        var s := CleanOrigin(rows, site, g, deleted, t);
      }
    }
  }

  /** A row that names `d` outside the graph and under no identifier of the graph. */
  ghost predicate Outside(lib: Library, site: Site, d: string, g: Graph, t: StoredRow) {
    At(t, site) && Names(t.row, d) && !InGraph(t, site, g) && forall name :: t.key.id != DatasetRowId(lib, g, name)
  }

  /** Such a row stays. */
  lemma OutsideStays(lib: Library, site: Site, d: string, g: Graph, opts: Setting, rows: seq<StoredRow>, t: StoredRow)
    requires IdsApart(lib) && PlainGraph(g) && Sound(lib, site, d, rows)
    requires t in rows && Outside(lib, site, d, g, t)
    ensures t in Built(lib, site, g, opts, true, rows).0
  {
    StaysPrepared(lib, site, d, g, opts, rows, t);
    PreparedStep(lib, site, d, g, opts, rows);
    NewDocsHarmless(lib, site, d, g, opts, rows);
    SurvivesMerge(lib, site, d, g, opts, rows, t);
  }

  lemma StaysPrepared(lib: Library, site: Site, d: string, g: Graph, opts: Setting, rows: seq<StoredRow>, t: StoredRow)
    requires PlainGraph(g) && Sound(lib, site, d, rows)
    requires t in rows && At(t, site) && Names(t.row, d) && !InGraph(t, site, g)
    ensures t in Prepared(lib, site, g, opts, true, rows).0
  {
    if Floor(lib, site, g, opts, true, rows).None? {
      NoMetaKey(lib, site, d, g, t);
      DropMember(lib, site, g, rows, t);
    } else {
      SoundOwnIds(lib, site, d, rows);
      CleanupIsClean(lib, site, g, opts.faults, rows);
      OthersUntouched(rows, site, g, Read(lib, site, opts.faults, rows), t);
    }
  }

  // ----- consuming the markers -----

  lemma {:induction false} MarkerIdsMember(lib: Library, markers: seq<Row>, id: string)
    ensures id in MarkerIds(lib, markers) <==> id != "" && exists row :: row in markers && IdOf(lib, row) == id
  {
    if markers != [] {
      var n := |markers| - 1;
      MarkerIdsMember(lib, markers[..n], id);
      assert markers == markers[..n] + [markers[n]];
      if IdOf(lib, markers[n]) == id { assert markers[n] in markers; }
    }
  }

  lemma OwnIdRead(lib: Library, s: StoredRow)
    requires OwnId(s)
    ensures IdOf(lib, s.row) == s.key.id
  {
  }

  lemma MarkerIdMeaning(lib: Library, site: Site, rows: seq<StoredRow>, s: StoredRow)
    requires UniqueKeys(rows) && OwnIds(rows, site) && s in rows && At(s, site) && s.key.id != ""
    ensures s.key.id in MarkerIds(lib, AllMatches(rows, site, MarkerCondition(site))) <==> IsMarker(s, site)
  {
    var all, id := AllMatches(rows, site, MarkerCondition(site)), s.key.id;
    MarkerIdsMember(lib, all, id);
    OwnIdRead(lib, s);
    MatchMember(rows, site, MarkerCondition(site), s.row);
    if id in MarkerIds(lib, all) {
      var row :| row in all && IdOf(lib, row) == id;
      var t := StoredMarker(lib, site, rows, row);
      SameKey(rows, s, t);
    }
  }

  lemma StoredMarker(lib: Library, site: Site, rows: seq<StoredRow>, row: Row) returns (t: StoredRow)
    requires UniqueKeys(rows) && OwnIds(rows, site) && row in AllMatches(rows, site, MarkerCondition(site))
    ensures t in rows && IsMarker(t, site) && t.row == row && t.key.id == IdOf(lib, row)
  {
    MatchMember(rows, site, MarkerCondition(site), row);
    t :| t in rows && Hit(t, site.indexName, site.kbId, MarkerCondition(site)) && t.row == row;
    OwnIdRead(lib, t);
  }

  /** Consuming removes the markers and nothing else. */
  lemma ConsumedExactly(lib: Library, site: Site, d: string, rows: seq<StoredRow>, s: StoredRow)
    requires Sound(lib, site, d, rows)
    ensures s in Consumed(lib, site, true, rows) <==> s in rows && !IsMarker(s, site)
  {
    var ids := MarkerIds(lib, AllMatches(rows, site, MarkerCondition(site)));
    SelectMember(rows, Missing(site.indexName, site.kbId, IdCondition(ids)), s);
    if s in rows && At(s, site) {
      SoundOwnIds(lib, site, d, rows);
      MarkerIdsMember(lib, AllMatches(rows, site, MarkerCondition(site)), s.key.id);
      if s.key.id != "" { MarkerIdMeaning(lib, site, rows, s); }
      ByIds(s, site, ids);
    }
  }
}
