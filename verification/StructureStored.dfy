/** What a build stores: the rows it writes, which of them last, and how they read back
    (src/dataset_structure_merger.rs:457-732, 985-1170). */
module StructureStored {
  import opened DocStore
  import opened Grouping
  import opened Json
  import opened StructureBuckets
  import opened StructureBuild
  import opened StructureCleanup
  import opened StructureConditions
  import opened StructureGhosts
  import opened StructureIds
  import opened StructureKeys
  import opened StructureMerge
  import opened StructureRows
  import opened StructureSteps
  import opened Text

  /** Nothing else is inserted under the identifier of `doc`. */
  ghost predicate Alone(docs: seq<Row>, doc: Row) {
    forall other :: other in docs && RowId(other, "") == RowId(doc, "") ==> other == doc
  }

  ghost predicate IdsTellApart(docs: seq<Row>) {
    forall doc :: doc in docs ==> Alone(docs, doc)
  }

  // ----- rows merged by key and bucket, and written under the name of their key -----

  datatype Family<!K(==), !U> = Family(rows: seq<Row>, key: Row -> K, merge: (K, seq<Row>) -> U, bucket: Row -> int,
                                       doc: U -> Row, name: K -> string)

  function WritesOf<K(==), U>(f: Family<K, U>): seq<Row> {
    Map(f.doc, Bucketed(f.rows, f.key, f.merge, f.bucket, BUCKET_COUNT))
  }

  function WriteOf<K(==), U>(f: Family<K, U>, k: K, rows: seq<Row>): Row {
    f.doc(f.merge(k, rows))
  }

  /** A written row has the identifier of its key's name. */
  ghost predicate Named<K(!new), U>(f: Family<K, U>, id: string -> string) {
    forall k: K, rows: seq<Row> :: Field(WriteOf(f, k, rows), "id") == Some(String(id(f.name(k))))
  }

  ghost predicate Injective(id: string -> string) {
    forall a, b :: id(a) == id(b) ==> a == b
  }

  lemma WriteOfKey<K(!new), U>(f: Family<K, U>, doc: Row) returns (k: K, part: int)
    requires doc in WritesOf(f)
    ensures var group := Members(Members(f.rows, f.bucket, part), f.key, k);
            group != [] && doc == WriteOf(f, k, group)
  {
    var merged := Bucketed(f.rows, f.key, f.merge, f.bucket, BUCKET_COUNT);
    var i :| 0 <= i < |merged| && Map(f.doc, merged)[i] == doc;
    k, part := BucketedPart(f.rows, f.key, f.merge, f.bucket, BUCKET_COUNT, merged[i]);
  }

  /** Every written row stems from a source row and has the identifier of its name. */
  lemma WriteSource<K(!new), U>(f: Family<K, U>, id: string -> string, doc: Row) returns (row: Row, part: int)
    requires Named(f, id) && doc in WritesOf(f)
    ensures row in f.rows && f.bucket(row) == part && Field(doc, "id") == Some(String(id(f.name(f.key(row)))))
    ensures doc == WriteOf(f, f.key(row), Members(Members(f.rows, f.bucket, part), f.key, f.key(row)))
  {
    var k: K;
    k, part := WriteOfKey(f, doc);
    row := SourceOf(f.rows, f.key, f.bucket, part, k);
  }

  lemma SourceOf<T, K>(rows: seq<T>, key: T -> K, bucket: T -> int, part: int, k: K) returns (row: T)
    requires Members(Members(rows, bucket, part), key, k) != []
    ensures row in rows && key(row) == k && bucket(row) == part
  {
    row := Members(Members(rows, bucket, part), key, k)[0];
    MembersMember(Members(rows, bucket, part), key, k, row);
    MembersMember(rows, bucket, part, row);
  }

  /** The source rows with the name of `r` have its key and its bucket. */
  ghost predicate Unshared<K, U>(f: Family<K, U>, r: Row) {
    forall row :: row in f.rows && f.name(f.key(row)) == f.name(f.key(r)) ==>
      f.key(row) == f.key(r) && f.bucket(row) == f.bucket(r)
  }

  /** Then its merged row is made from all rows of its key, and nothing else is written under its name. */
  lemma UnsharedWrite<K(!new), U>(f: Family<K, U>, id: string -> string, r: Row)
    requires Named(f, id) && Injective(id) && r in f.rows && Unshared(f, r) && 0 <= f.bucket(r) < BUCKET_COUNT
    ensures var doc := WriteOf(f, f.key(r), Members(f.rows, f.key, f.key(r)));
            doc in WritesOf(f) && Alone(WritesOf(f), doc)
  {
    var k, part := f.key(r), f.bucket(r);
    var doc := WriteOf(f, k, Members(f.rows, f.key, k));
    UnsharedIsWritten(f, r);
    forall other | other in WritesOf(f) && RowId(other, "") == RowId(doc, "") ensures other == doc {
      var row, part' := WriteSource(f, id, other);
      GroupComplete(f.rows, f.key, f.bucket, part, k);
    }
  }

  lemma UnsharedIsWritten<K, U>(f: Family<K, U>, r: Row)
    requires r in f.rows && Unshared(f, r) && 0 <= f.bucket(r) < BUCKET_COUNT
    ensures WriteOf(f, f.key(r), Members(f.rows, f.key, f.key(r))) in WritesOf(f)
  {
    PartMerged(f.rows, f.key, f.merge, f.bucket, BUCKET_COUNT, r);
    GroupComplete(f.rows, f.key, f.bucket, f.bucket(r), f.key(r));
    var merged := Bucketed(f.rows, f.key, f.merge, f.bucket, BUCKET_COUNT);
    var i :| 0 <= i < |merged| && merged[i] == f.merge(f.key(r), Members(f.rows, f.key, f.key(r)));
    assert Map(f.doc, merged)[i] in Map(f.doc, merged);
  }

  lemma NothingUnder<K(!new), U>(f: Family<K, U>, id: string -> string, name: string)
    requires Named(f, id) && Injective(id) && forall row :: row in f.rows ==> f.name(f.key(row)) != name
    ensures forall other :: other in WritesOf(f) ==> RowId(other, "") != id(name)
  {
    forall other | other in WritesOf(f) ensures RowId(other, "") != id(name) {
      var row, part := WriteSource(f, id, other);
    }
  }

  /** Two families are written one after the other. */
  lemma AloneInBoth<K(!new), U, L(!new), V>(f: Family<K, U>, h: Family<L, V>, id: string -> string, r: Row)
    requires Named(f, id) && Named(h, id) && Injective(id)
    requires r in f.rows && Unshared(f, r) && 0 <= f.bucket(r) < BUCKET_COUNT
    requires forall row :: row in h.rows ==> h.name(h.key(row)) != f.name(f.key(r))
    ensures var doc := WriteOf(f, f.key(r), Members(f.rows, f.key, f.key(r)));
            doc in WritesOf(f) && Alone(WritesOf(f) + WritesOf(h), doc) && Alone(WritesOf(h) + WritesOf(f), doc)
  {
    UnsharedWrite(f, id, r);
    NothingUnder(h, id, f.name(f.key(r)));
    var doc := WriteOf(f, f.key(r), Members(f.rows, f.key, f.key(r)));
    assert Field(doc, "id") == Some(String(id(f.name(f.key(r)))));
    JoinAlone(WritesOf(f), WritesOf(h), doc);
  }

  lemma JoinAlone(a: seq<Row>, c: seq<Row>, doc: Row)
    requires Alone(a, doc) && forall other :: other in c ==> RowId(other, "") != RowId(doc, "")
    ensures Alone(a + c, doc) && Alone(c + a, doc)
  {
  }

  lemma WriteIds<K(!new), U>(f: Family<K, U>, id: string -> string, doc: Row) returns (name: string)
    requires Named(f, id) && doc in WritesOf(f)
    ensures Field(doc, "id") == Some(String(id(name)))
  {
    var row, part := WriteSource(f, id, doc);
    name := f.name(f.key(row));
  }

  // ----- one build -----

  /** What one build is given. */
  datatype Build = Build(lib: Library, site: Site, g: Graph, opts: Setting, indexed: bool, rows: seq<StoredRow>)

  function Since(b: Build): Option<real> {
    Floor(b.lib, b.site, b.g, b.opts, b.indexed, b.rows)
  }

  function Ready(b: Build): seq<StoredRow> {
    Prepared(b.lib, b.site, b.g, b.opts, b.indexed, b.rows).0
  }

  function Scanned(b: Build): seq<Row> {
    AllMatches(Ready(b), b.site, BaseCondition(b.g))
  }

  /** The scanned rows that are merged. */
  function EntitySources(b: Build): seq<Row> {
    Where(Scanned(b), EntityInput(b.lib, b.opts.disabled, Since(b)))
  }

  function RelationSources(b: Build): seq<Row> {
    Where(Scanned(b), RelationInput(b.lib, b.opts.disabled, Since(b)))
  }

  function EntityName(): EntityKey -> string { (k: EntityKey) => k.0 }

  function RelationName(lib: Library): RelationKey -> string { k => RelationIdText(lib, k) }

  function Entities(b: Build): Family<EntityKey, EntityRow> {
    Family(EntitySources(b), KeyOfEntity(b.lib), MergeEntity(b.lib, b.g), BucketOfEntity(b.lib, b.opts.hash),
           DocOfEntity(b.lib, b.g), EntityName())
  }

  function Relations(b: Build): Family<RelationKey, RelationRow> {
    Family(RelationSources(b), KeyOfRelation(b.lib), MergeRelation(b.lib, b.g), BucketOfRelation(b.lib, b.opts.hash),
           DocOfRelation(b.lib, b.g), RelationName(b.lib))
  }

  /** The rows a build writes, in order. */
  function Writes(b: Build): seq<Row> {
    WritesOf(Entities(b)) + WritesOf(Relations(b))
  }

  function DatasetId(lib: Library, g: Graph): string -> string { name => DatasetRowId(lib, g, name) }

  function Result(b: Build): seq<StoredRow> {
    Built(b.lib, b.site, b.g, b.opts, b.indexed, b.rows).0
  }

  // ----- which rows are merged -----

  /** A build reads the document rows of its graph that are in the prepared store. */
  lemma ScannedMeaning(b: Build, row: Row)
    requires UniqueKeys(b.rows)
    ensures row in Scanned(b) <==> DocumentRow(row, b.g) && exists s :: s in Ready(b) && At(s, b.site) && s.row == row
  {
    PreparedUnique(b.lib, b.site, b.g, b.opts, b.indexed, b.rows);
    MatchMember(Ready(b), b.site, BaseCondition(b.g), row);
    DocumentMeaning(row, b.g);
  }

  /** Preparing the store leaves a document row as it is. */
  lemma DocumentSurvives(b: Build, s: StoredRow)
    requires UniqueKeys(b.rows) && OwnIds(b.rows, b.site) && s in b.rows && At(s, b.site)
    requires "scope_kwd" in s.row && s.row["scope_kwd"] == String("doc") && s.key.id != MetaId(b.lib, b.g)
    ensures s in Ready(b)
  {
    GraphMeaning(s, b.site, b.g);
    if Since(b).None? {
      DropMember(b.lib, b.site, b.g, b.rows, s);
    } else {
      CleanupIsClean(b.lib, b.site, b.g, b.opts.faults, b.rows);
      OthersUntouched(b.rows, b.site, b.g, Read(b.lib, b.site, b.opts.faults, b.rows), s);
    }
  }

  /** The row belongs to no disabled document and is not older than the last build. */
  ghost predicate Current(b: Build, doc: string, time: real) {
    Trim(doc) !in b.opts.disabled && (Since(b).Some? ==> time >= Since(b).value)
  }

  /** What the row says of its document, its time and its name; a missing field says nothing. */
  ghost predicate Dated(row: Row, doc: string, time: real, name: string) {
    && (if "doc_id" in row then row["doc_id"] == String(doc) else doc == "")
    && (if "create_timestamp_flt" in row then row["create_timestamp_flt"] == Number(time) else time == 0.0)
    && (if "name_kwd" in row then row["name_kwd"] == String(name) else name == "")
  }

  ghost predicate SaysItRelates(row: Row) {
    ("knowledge_graph_kwd" in row && row["knowledge_graph_kwd"] == String("relation")) || "from_entity_kwd" in row
  }

  lemma InputMeaning(lib: Library, disabled: set<string>, floor: Option<real>, row: Row, doc: string, time: real,
                     name: string)
    requires Dated(row, doc, time, name)
    ensures Accepted(lib, disabled, floor, row) <==> Trim(doc) !in disabled && (floor.Some? ==> time >= floor.value)
    ensures IsRelation(row) <==> SaysItRelates(row)
    ensures NameKwd(lib, row) != "" <==> !Blank(name)
  {
    TrimTrimmed("");
    TrimEmptyIsBlank(name);
  }

  /** The rows merged as relations are the current ones that say so or have a source keyword; of the others those
      with a name are merged as entities. */
  lemma SourceMeaning(b: Build, row: Row, doc: string, time: real, name: string)
    requires Dated(row, doc, time, name)
    ensures row in RelationSources(b) <==> row in Scanned(b) && Current(b, doc, time) && SaysItRelates(row)
    ensures row in EntitySources(b)
       <==> row in Scanned(b) && Current(b, doc, time) && !SaysItRelates(row) && !Blank(name)
  {
    var relation := RelationInput(b.lib, b.opts.disabled, Since(b));
    var entity := EntityInput(b.lib, b.opts.disabled, Since(b));
    InputMeaning(b.lib, b.opts.disabled, Since(b), row, doc, time, name);
    MembersMember(Scanned(b), relation, true, row);
    MembersMember(Scanned(b), entity, true, row);
  }

  // ----- which inserted rows last -----

  ghost predicate Holds(rows: seq<StoredRow>, site: Site, doc: Row) {
    StoredRow(Key(site.indexName, site.kbId, RowId(doc, "")), doc) in rows
  }

  /** The last row under an identifier. */
  function LastUnder(docs: seq<Row>, id: string): Option<Row> {
    if docs == [] then None
    else
      var last := docs[|docs| - 1];
      if RowId(last, "") == id then Some(last) else LastUnder(docs[..|docs| - 1], id)
  }

  /** Of the rows inserted under one identifier the last one stays; without any the old one does. */
  lemma {:induction false} InsertedLast(rows: seq<StoredRow>, docs: seq<Row>, site: Site, doc: Row)
    ensures var last := LastUnder(docs, RowId(doc, ""));
            Holds(InsertAll(rows, docs, site), site, doc)
            <==> if last.Some? then last.value == doc else Holds(rows, site, doc)
  {
    if docs != [] {
      var front, last := docs[..|docs| - 1], docs[|docs| - 1];
      assert docs == front + [last];
      InsertedLast(rows, front, site, doc);
      InsertAllSnoc(rows, front, last, site);
      SelectMember(InsertAll(rows, front, site), OtherThan(Entry(last, "", site.indexName, site.kbId).key),
                   Entry(doc, "", site.indexName, site.kbId));
    }
  }

  lemma {:induction false} LastUnderMember(docs: seq<Row>, doc: Row)
    requires doc in docs
    ensures var last := LastUnder(docs, RowId(doc, ""));
            last.Some? && last.value in docs && RowId(last.value, "") == RowId(doc, "")
  {
    var front, last := docs[..|docs| - 1], docs[|docs| - 1];
    assert docs == front + [last];
    if RowId(last, "") != RowId(doc, "") { LastUnderMember(front, doc); }
  }

  ghost predicate IsLast(docs: seq<Row>, doc: Row) {
    LastUnder(docs, RowId(doc, "")) == Some(doc)
  }

  lemma LastTellsApart(docs: seq<Row>)
    ensures (forall doc :: doc in docs ==> IsLast(docs, doc)) <==> IdsTellApart(docs)
  {
    forall doc | doc in docs ensures Alone(docs, doc) ==> IsLast(docs, doc) { LastUnderMember(docs, doc); }
    if forall doc :: doc in docs ==> IsLast(docs, doc) {
      forall doc, other | doc in docs && other in docs && RowId(other, "") == RowId(doc, "") ensures other == doc {
        assert IsLast(docs, doc) && IsLast(docs, other);
      }
    }
  }

  lemma ResultIsWritten(b: Build)
    ensures Result(b) == TimeSaved(b.lib, b.site, b.g, b.opts.now, InsertAll(Ready(b), Writes(b), b.site))
  {
    InsertAllConcat(Ready(b), WritesOf(Entities(b)), WritesOf(Relations(b)), b.site);
  }

  // ----- the rows a build writes -----

  /** The list field holds these texts. */
  ghost predicate Listing(row: Row, name: string, texts: seq<string>) {
    && name in row && row[name].Array? && |row[name].items| == |texts|
    && forall i :: 0 <= i < |texts| ==> row[name].items[i] == String(texts[i])
  }

  ghost predicate HasValue(row: Row, name: string, v: Value) {
    name in row && row[name] == v
  }

  /** A dataset-level row of the graph. */
  ghost predicate DatasetRow(row: Row, g: Graph, id: string, kind: string, chunks: seq<string>, docs: seq<string>) {
    && HasValue(row, "id", String(id)) && HasValue(row, "knowledge_graph_kwd", String(kind))
    && HasValue(row, "scope_kwd", String("dataset")) && HasValue(row, "compile_kwd", String(g.compileKwd))
    && HasValue(row, "doc_id", String(g.kbId)) && HasValue(row, "kb_id", String(g.kbId))
    && HasValue(row, "available_int", Number(1.0))
    && Listing(row, "source_chunk_ids", chunks) && Listing(row, "doc_ids_kwd", docs)
    && (if g.template.Some? then Listing(row, "compilation_template_ids", [g.template.value])
        else "compilation_template_ids" !in row)
  }

  /** The dataset row of a merged entity. */
  ghost predicate StoresEntity(lib: Library, g: Graph, row: Row, e: EntityRow) {
    && DatasetRow(row, g, e.id, "entity", e.chunks, e.docs)
    && HasValue(row, "name_kwd", String(e.nameKwd))
    && HasValue(row, "mention_count_int", Number(e.mentionCount as real))
    && HasValue(row, "content_with_weight", String(lib.show(Object(
         map["name" := String(e.name), "type" := String(e.entityType), "description" := String(e.description),
             "mention_count" := Number(e.mentionCount as real)]))))
  }

  /** The dataset row of a merged relation. */
  ghost predicate StoresRelation(lib: Library, g: Graph, row: Row, e: RelationRow) {
    var (source, kind, target) := e.key;
    && DatasetRow(row, g, e.id, "relation", e.chunks, e.docs)
    && HasValue(row, "from_entity_kwd", String(source)) && HasValue(row, "to_entity_kwd", String(target))
    && HasValue(row, "content_with_weight", String(lib.show(Object(
         map["from" := String(source), "to" := String(target), "type" := String(kind)]))))
  }

  lemma FieldsHold(g: Graph, id: string, kind: string, chunks: seq<string>, docs: seq<string>)
    ensures DatasetRow(DatasetFields(g, id, kind, chunks, docs), g, id, kind, chunks, docs)
  {
  }

  lemma EntityDocStores(lib: Library, g: Graph, e: EntityRow)
    ensures StoresEntity(lib, g, EntityDoc(lib, g, e), e)
  {
    FieldsHold(g, e.id, "entity", e.chunks, e.docs);
  }

  lemma RelationDocStores(lib: Library, g: Graph, e: RelationRow)
    ensures StoresRelation(lib, g, RelationDoc(lib, g, e), e)
  {
    FieldsHold(g, e.id, "relation", e.chunks, e.docs);
  }

  // ----- every merged row is stored -----

  lemma FamiliesNamed(b: Build)
    ensures Named(Entities(b), DatasetId(b.lib, b.g)) && Named(Relations(b), DatasetId(b.lib, b.g))
  {
    EntitiesNamed(b);
    RelationsNamed(b);
  }

  lemma EntitiesNamed(b: Build)
    ensures Named(Entities(b), DatasetId(b.lib, b.g))
  {
    forall k: EntityKey, rows: seq<Row>
      ensures Field(WriteOf(Entities(b), k, rows), "id") == Some(String(DatasetId(b.lib, b.g)(k.0)))
    {
      EntityDocFields(b.lib, b.g, MergeEntity(b.lib, b.g)(k, rows));
    }
  }

  lemma RelationsNamed(b: Build)
    ensures Named(Relations(b), DatasetId(b.lib, b.g))
  {
    forall k: RelationKey, rows: seq<Row>
      ensures Field(WriteOf(Relations(b), k, rows), "id")
           == Some(String(DatasetId(b.lib, b.g)(RelationName(b.lib)(k))))
    {
      RelationDocFields(b.lib, b.g, MergeRelation(b.lib, b.g)(k, rows));
    }
  }

  lemma DatasetIdInjective(lib: Library, g: Graph)
    requires SoundIds(lib)
    ensures Injective(DatasetId(lib, g))
  {
    forall a, b | DatasetId(lib, g)(a) == DatasetId(lib, g)(b) ensures a == b { NamesApart(lib, g, a, b); }
  }

  lemma WriteNamed(b: Build, doc: Row) returns (name: string)
    requires doc in Writes(b)
    ensures Field(doc, "id") == Some(String(DatasetId(b.lib, b.g)(name)))
  {
    FamiliesNamed(b);
    if doc in WritesOf(Entities(b)) {
      name := WriteIds(Entities(b), DatasetId(b.lib, b.g), doc);
    } else {
      name := WriteIds(Relations(b), DatasetId(b.lib, b.g), doc);
    }
  }

  lemma WriteOwnsId(b: Build, doc: Row)
    requires SoundIds(b.lib) && doc in Writes(b)
    ensures OwnId(Entry(doc, "", b.site.indexName, b.site.kbId)) && RowId(doc, "") != MetaId(b.lib, b.g)
  {
    var name := WriteNamed(b, doc);
    DatasetIdOwned(b.lib, b.g, b.site, name, doc);
  }

  lemma DatasetIdOwned(lib: Library, g: Graph, site: Site, name: string, doc: Row)
    requires SoundIds(lib) && Field(doc, "id") == Some(String(DatasetRowId(lib, g, name)))
    ensures OwnId(Entry(doc, "", site.indexName, site.kbId)) && RowId(doc, "") != MetaId(lib, g)
  {
    NamesApart(lib, g, name, name);
  }

  /** Of the rows a build writes under one identifier exactly the last one is in the store afterwards. */
  lemma WriteStored(b: Build, doc: Row)
    requires SoundIds(b.lib) && doc in Writes(b)
    ensures Holds(Result(b), b.site, doc) <==> LastUnder(Writes(b), RowId(doc, "")) == Some(doc)
  {
    InsertedLast(Ready(b), Writes(b), b.site, doc);
    LastUnderMember(Writes(b), doc);
    ResultHolds(b, doc);
  }

  lemma ResultHolds(b: Build, doc: Row)
    requires SoundIds(b.lib) && doc in Writes(b)
    ensures Holds(Result(b), b.site, doc) <==> Holds(InsertAll(Ready(b), Writes(b), b.site), b.site, doc)
  {
    WriteOwnsId(b, doc);
    TimeKeeps(b.lib, b.site, b.g, b.opts.now, InsertAll(Ready(b), Writes(b), b.site),
              Entry(doc, "", b.site.indexName, b.site.kbId));
    ResultIsWritten(b);
  }

  lemma AloneStored(b: Build, doc: Row)
    requires SoundIds(b.lib) && doc in Writes(b) && Alone(Writes(b), doc)
    ensures Holds(Result(b), b.site, doc)
  {
    LastUnderMember(Writes(b), doc);
    WriteStored(b, doc);
  }

  /** All the rows a build writes are in the store afterwards exactly when no two different ones share an identifier. */
  lemma EveryWriteStored(b: Build)
    requires SoundIds(b.lib)
    ensures (forall doc :: doc in Writes(b) ==> Holds(Result(b), b.site, doc)) <==> IdsTellApart(Writes(b))
  {
    var docs := Writes(b);
    LastTellsApart(docs);
    forall doc | doc in docs ensures Holds(Result(b), b.site, doc) <==> IsLast(docs, doc) { WriteStored(b, doc); }
  }

  // ----- relations -----

  /** No other entity or relation among the sources has the identifier of this relation. */
  ghost predicate OwnRelationId(b: Build, k: RelationKey) {
    && (forall row :: row in RelationSources(b)
          && RelationIdText(b.lib, KeyOfRelation(b.lib)(row)) == RelationIdText(b.lib, k)
          ==> KeyOfRelation(b.lib)(row) == k)
    && (forall row :: row in EntitySources(b) ==> KeyOfEntity(b.lib)(row).0 != RelationIdText(b.lib, k))
  }

  lemma RelationUnshared(b: Build, r: Row)
    requires OwnRelationId(b, KeyOfRelation(b.lib)(r))
    ensures Unshared(Relations(b), r) && 0 <= Relations(b).bucket(r) < BUCKET_COUNT
    ensures forall row :: row in Entities(b).rows ==>
              Entities(b).name(Entities(b).key(row)) != Relations(b).name(Relations(b).key(r))
  {
    BucketRange(b.lib, b.opts.hash, r);
  }

  lemma RelationAlone(b: Build, r: Row, e: RelationRow)
    requires SoundIds(b.lib) && r in RelationSources(b) && OwnRelationId(b, KeyOfRelation(b.lib)(r))
    requires e == MergeRelation(b.lib, b.g)(KeyOfRelation(b.lib)(r),
                                          Members(RelationSources(b), KeyOfRelation(b.lib), KeyOfRelation(b.lib)(r)))
    ensures RelationDoc(b.lib, b.g, e) in Writes(b) && Alone(Writes(b), RelationDoc(b.lib, b.g, e))
  {
    FamiliesNamed(b);
    DatasetIdInjective(b.lib, b.g);
    RelationUnshared(b, r);
    AloneInBoth(Relations(b), Entities(b), DatasetId(b.lib, b.g), r);
  }

  /** Every relation among the sources is stored: the build leaves a row with its own source, type and target, each
      trimmed and lower-cased, made from all the source rows about it. */
  lemma RelationStored(b: Build, r: Row, source: string, kind: string, target: string, same: Row -> bool)
    returns (s: StoredRow, e: RelationRow)
    requires SoundIds(b.lib) && r in RelationSources(b) && SaysRelation(b.lib, r, source, kind, target)
    requires var k := (b.lib.lower(Trim(source)), b.lib.lower(Trim(kind)), b.lib.lower(Trim(target)));
             && OwnRelationId(b, k)
             && forall row :: row in RelationSources(b) ==> (same(row) <==> AboutRelation(b.lib, row, k))
    ensures e.key == (b.lib.lower(Trim(source)), b.lib.lower(Trim(kind)), b.lib.lower(Trim(target)))
    ensures MergesRelations(b.lib, b.g, e, Where(RelationSources(b), same))
    ensures s in Result(b) && s.key == Key(b.site.indexName, b.site.kbId, e.id) && StoresRelation(b.lib, b.g, s.row, e)
  {
    RelationKeyMeaning(b.lib, r, source, kind, target);
    e := RelationOfGroup(b.lib, b.g, RelationSources(b), r, same);
    RelationAlone(b, r, e);
    AloneStored(b, RelationDoc(b.lib, b.g, e));
    s := RelationHeld(b.lib, b.site, b.g, Result(b), e);
  }

  lemma RelationHeld(lib: Library, site: Site, g: Graph, rows: seq<StoredRow>, e: RelationRow) returns (s: StoredRow)
    requires Holds(rows, site, RelationDoc(lib, g, e))
    ensures s in rows && s.key == Key(site.indexName, site.kbId, e.id) && StoresRelation(lib, g, s.row, e)
  {
    RelationDocStores(lib, g, e);
    s := StoredRow(Key(site.indexName, site.kbId, e.id), RelationDoc(lib, g, e));
  }

  lemma RelationOfGroup(lib: Library, g: Graph, rows: seq<Row>, r: Row, same: Row -> bool) returns (e: RelationRow)
    requires r in rows
    requires forall row :: row in rows ==> (same(row) <==> AboutRelation(lib, row, KeyOfRelation(lib)(r)))
    ensures e == MergeRelation(lib, g)(KeyOfRelation(lib)(r), Members(rows, KeyOfRelation(lib), KeyOfRelation(lib)(r)))
    ensures e.key == KeyOfRelation(lib)(r) && MergesRelations(lib, g, e, Where(rows, same))
  {
    var k := KeyOfRelation(lib)(r);
    var group := Members(rows, KeyOfRelation(lib), k);
    MembersMember(rows, KeyOfRelation(lib), k, r);
    MergeRelationMeaning(lib, g, k, group);
    e := MergeRelation(lib, g)(k, group);
    forall row | row in rows ensures same(row) <==> KeyOfRelation(lib)(row) == k { AboutByRelationKey(lib, row, k); }
    MembersAs(rows, KeyOfRelation(lib), k, same);
  }

  // ----- entities -----

  /** All sources with this name are of this type and in one bucket, and no relation has the identifier. */
  ghost predicate OwnEntityId(b: Build, k: EntityKey, bucket: int) {
    && (forall row :: row in EntitySources(b) && KeyOfEntity(b.lib)(row).0 == k.0
          ==> KeyOfEntity(b.lib)(row) == k && BucketOfEntity(b.lib, b.opts.hash)(row) == bucket)
    && (forall row :: row in RelationSources(b) ==> RelationIdText(b.lib, KeyOfRelation(b.lib)(row)) != k.0)
  }

  lemma EntityUnshared(b: Build, r: Row)
    requires OwnEntityId(b, KeyOfEntity(b.lib)(r), BucketOfEntity(b.lib, b.opts.hash)(r))
    ensures Unshared(Entities(b), r) && 0 <= Entities(b).bucket(r) < BUCKET_COUNT
    ensures forall row :: row in Relations(b).rows ==>
              Relations(b).name(Relations(b).key(row)) != Entities(b).name(Entities(b).key(r))
  {
    BucketRange(b.lib, b.opts.hash, r);
  }

  lemma EntityAlone(b: Build, r: Row, e: EntityRow)
    requires SoundIds(b.lib) && r in EntitySources(b)
    requires OwnEntityId(b, KeyOfEntity(b.lib)(r), BucketOfEntity(b.lib, b.opts.hash)(r))
    requires e == MergeEntity(b.lib, b.g)(KeyOfEntity(b.lib)(r),
                                          Members(EntitySources(b), KeyOfEntity(b.lib), KeyOfEntity(b.lib)(r)))
    ensures EntityDoc(b.lib, b.g, e) in Writes(b) && Alone(Writes(b), EntityDoc(b.lib, b.g, e))
  {
    FamiliesNamed(b);
    DatasetIdInjective(b.lib, b.g);
    EntityUnshared(b, r);
    AloneInBoth(Entities(b), Relations(b), DatasetId(b.lib, b.g), r);
  }

  /** Every entity among the sources whose name stands for one type and lies in one bucket is stored: the build
      leaves a row with its lower-cased name and its type, made from all the source rows about it. */
  lemma EntityStored(b: Build, r: Row, name: string, kind: string, same: Row -> bool)
    returns (s: StoredRow, e: EntityRow)
    requires SoundIds(b.lib) && r in EntitySources(b) && SaysEntity(b.lib, r, name, kind)
    requires OwnEntityId(b, (b.lib.lower(Trim(name)), Trim(kind)), BucketOfEntity(b.lib, b.opts.hash)(r))
    requires forall row :: row in EntitySources(b) ==>
               (same(row) <==> AboutEntity(b.lib, row, b.lib.lower(Trim(name)), Trim(kind)))
    ensures e.nameKwd == b.lib.lower(Trim(name)) && e.entityType == Trim(kind)
    ensures MergesEntities(b.lib, b.g, e, Where(EntitySources(b), same))
    ensures s in Result(b) && s.key == Key(b.site.indexName, b.site.kbId, e.id) && StoresEntity(b.lib, b.g, s.row, e)
  {
    EntityKeyMeaning(b.lib, r, name, kind);
    e := EntityOfGroup(b.lib, b.g, EntitySources(b), r, same);
    EntityAlone(b, r, e);
    AloneStored(b, EntityDoc(b.lib, b.g, e));
    s := EntityHeld(b.lib, b.site, b.g, Result(b), e);
  }

  lemma EntityHeld(lib: Library, site: Site, g: Graph, rows: seq<StoredRow>, e: EntityRow) returns (s: StoredRow)
    requires Holds(rows, site, EntityDoc(lib, g, e))
    ensures s in rows && s.key == Key(site.indexName, site.kbId, e.id) && StoresEntity(lib, g, s.row, e)
  {
    EntityDocStores(lib, g, e);
    s := StoredRow(Key(site.indexName, site.kbId, e.id), EntityDoc(lib, g, e));
  }

  lemma EntityOfGroup(lib: Library, g: Graph, rows: seq<Row>, r: Row, same: Row -> bool) returns (e: EntityRow)
    requires r in rows
    requires var k := KeyOfEntity(lib)(r);
             forall row :: row in rows ==> (same(row) <==> AboutEntity(lib, row, k.0, k.1))
    ensures e == MergeEntity(lib, g)(KeyOfEntity(lib)(r), Members(rows, KeyOfEntity(lib), KeyOfEntity(lib)(r)))
    ensures (e.nameKwd, e.entityType) == KeyOfEntity(lib)(r) && MergesEntities(lib, g, e, Where(rows, same))
  {
    var k := KeyOfEntity(lib)(r);
    var group := Members(rows, KeyOfEntity(lib), k);
    MembersMember(rows, KeyOfEntity(lib), k, r);
    MergeEntityMeaning(lib, g, k, group);
    e := MergeEntity(lib, g)(k, group);
    forall row | row in rows ensures same(row) <==> KeyOfEntity(lib)(row) == k { AboutByKey(lib, row, k); }
    MembersAs(rows, KeyOfEntity(lib), k, same);
  }

  // ----- two types of one name -----

  /** JSON text reads back as the value it shows. */
  ghost predicate ReadsBack(lib: Library) {
    forall v :: lib.parse(lib.show(v)) == Some(v)
  }

  lemma TypesDiffer(lib: Library, g: Graph, e: EntityRow, e': EntityRow)
    requires ReadsBack(lib) && e.entityType != e'.entityType
    ensures EntityDoc(lib, g, e) != EntityDoc(lib, g, e')
  {
    EntityDocStores(lib, g, e);
    EntityDocStores(lib, g, e');
    ShownApart(lib, EntityPayload(e), EntityPayload(e'));
  }

  ghost function EntityPayload(e: EntityRow): map<string, Value> {
    map["name" := String(e.name), "type" := String(e.entityType), "description" := String(e.description),
        "mention_count" := Number(e.mentionCount as real)]
  }

  lemma ShownApart(lib: Library, m: map<string, Value>, m': map<string, Value>)
    requires ReadsBack(lib) && "type" in m && "type" in m' && m["type"] != m'["type"]
    ensures lib.show(Object(m)) != lib.show(Object(m'))
  {
    assert lib.parse(lib.show(Object(m))) == Some(Object(m));
    assert lib.parse(lib.show(Object(m'))) == Some(Object(m'));
  }

  lemma EntityWritten(b: Build, r: Row) returns (e: EntityRow)
    requires r in EntitySources(b)
    ensures e.nameKwd == KeyOfEntity(b.lib)(r).0 && e.entityType == KeyOfEntity(b.lib)(r).1
    ensures EntityDoc(b.lib, b.g, e) in Writes(b) && e.id == DatasetRowId(b.lib, b.g, e.nameKwd)
  {
    var f := Entities(b);
    BucketRange(b.lib, b.opts.hash, r);
    PartMerged(f.rows, f.key, f.merge, f.bucket, BUCKET_COUNT, r);
    e := f.merge(f.key(r), Members(Members(f.rows, f.bucket, f.bucket(r)), f.key, f.key(r)));
    var merged := Bucketed(f.rows, f.key, f.merge, f.bucket, BUCKET_COUNT);
    var i :| 0 <= i < |merged| && merged[i] == e;
    assert Map(f.doc, merged)[i] in Map(f.doc, merged);
  }

  /** The identifier of an entity's row leaves out its type: of two sources that agree in name and differ in type,
      not both are left in the store. */
  lemma TypeLost(b: Build, r: Row, s: Row, name: string, kind: string, name': string, kind': string)
    returns (e: EntityRow, e': EntityRow)
    requires SoundIds(b.lib) && ReadsBack(b.lib)
    requires r in EntitySources(b) && SaysEntity(b.lib, r, name, kind)
    requires s in EntitySources(b) && SaysEntity(b.lib, s, name', kind')
    requires b.lib.lower(Trim(name)) == b.lib.lower(Trim(name')) && Trim(kind) != Trim(kind')
    ensures e.nameKwd == e'.nameKwd == b.lib.lower(Trim(name))
    ensures e.entityType == Trim(kind) && e'.entityType == Trim(kind')
    ensures EntityDoc(b.lib, b.g, e) in Writes(b) && EntityDoc(b.lib, b.g, e') in Writes(b)
    ensures !(Holds(Result(b), b.site, EntityDoc(b.lib, b.g, e)) && Holds(Result(b), b.site, EntityDoc(b.lib, b.g, e')))
  {
    EntityKeyMeaning(b.lib, r, name, kind);
    EntityKeyMeaning(b.lib, s, name', kind');
    e := EntityWritten(b, r);
    e' := EntityWritten(b, s);
    TypesNotBoth(b, e, e');
  }

  lemma TypesNotBoth(b: Build, e: EntityRow, e': EntityRow)
    requires SoundIds(b.lib) && ReadsBack(b.lib) && e.id == e'.id && e.entityType != e'.entityType
    requires EntityDoc(b.lib, b.g, e) in Writes(b) && EntityDoc(b.lib, b.g, e') in Writes(b)
    ensures !(Holds(Result(b), b.site, EntityDoc(b.lib, b.g, e)) && Holds(Result(b), b.site, EntityDoc(b.lib, b.g, e')))
  {
    TypesDiffer(b.lib, b.g, e, e');
    SameRowId(b.lib, b.g, e, e');
    NotBothStored(b, EntityDoc(b.lib, b.g, e), EntityDoc(b.lib, b.g, e'));
  }

  lemma SameRowId(lib: Library, g: Graph, e: EntityRow, e': EntityRow)
    requires e.id == e'.id
    ensures RowId(EntityDoc(lib, g, e), "") == RowId(EntityDoc(lib, g, e'), "")
  {
    EntityDocFields(lib, g, e);
    EntityDocFields(lib, g, e');
  }

  lemma NotBothStored(b: Build, doc: Row, doc': Row)
    requires SoundIds(b.lib) && doc in Writes(b) && doc' in Writes(b)
    requires doc != doc' && RowId(doc, "") == RowId(doc', "")
    ensures !(Holds(Result(b), b.site, doc) && Holds(Result(b), b.site, doc'))
  {
    WriteStored(b, doc);
    WriteStored(b, doc');
  }

  // ----- reading stored rows back -----

  /** A stored relation row speaks of its own relation. */
  lemma RelationReadsBack(lib: Library, g: Graph, row: Row, e: RelationRow)
    requires ReadsBack(lib) && StoresRelation(lib, g, row, e)
    ensures SaysRelation(lib, row, e.key.0, e.key.1, e.key.2)
  {
    var payload := map["from" := String(e.key.0), "to" := String(e.key.2), "type" := String(e.key.1)];
    assert row["content_with_weight"] == String(lib.show(Object(payload)));
    assert lib.parse(lib.show(Object(payload))) == Some(Object(payload));
    assert Content(lib, row) == payload;
  }

  /** Trimming and lower-casing leave the text as it is. */
  predicate Settled(lib: Library, text: string) {
    lib.lower(Trim(text)) == text
  }

  /** It is filed under the key of its group again exactly when lower-casing and trimming leave that key as it is. */
  lemma RelationKeyBack(lib: Library, g: Graph, row: Row, e: RelationRow)
    requires ReadsBack(lib) && StoresRelation(lib, g, row, e)
    ensures KeyOfRelation(lib)(row) == e.key
       <==> Settled(lib, e.key.0) && Settled(lib, e.key.1) && Settled(lib, e.key.2)
    ensures ChunksOf(lib)(row) == e.chunks
  {
    RelationReadsBack(lib, g, row, e);
    RelationKeyMeaning(lib, row, e.key.0, e.key.1, e.key.2);
    ListingRead(lib, row, e.chunks);
  }

  lemma ListingRead(lib: Library, row: Row, texts: seq<string>)
    requires Listing(row, "source_chunk_ids", texts)
    ensures ChunksOf(lib)(row) == texts
  {
    var listed := ChunksOf(lib)(row);
    assert |listed| == |texts|;
    forall i | 0 <= i < |texts| ensures listed[i] == texts[i] { }
  }

  /** A stored entity row speaks of its own entity. */
  lemma EntityReadsBack(lib: Library, g: Graph, row: Row, e: EntityRow)
    requires ReadsBack(lib) && StoresEntity(lib, g, row, e)
    ensures SaysEntity(lib, row, e.name, e.entityType) && Content(lib, row) == EntityPayload(e)
  {
    var payload := EntityPayload(e);
    assert row["content_with_weight"] == String(lib.show(Object(payload)));
    assert lib.parse(lib.show(Object(payload))) == Some(Object(payload));
  }

  /** It is filed under the key of its group again, with the mentions and chunks of the group. */
  lemma EntityKeyBack(lib: Library, g: Graph, row: Row, e: EntityRow, group: seq<Row>)
    requires ReadsBack(lib) && lib.lower("") == "" && StoresEntity(lib, g, row, e) && MergesEntities(lib, g, e, group)
    requires forall r :: r in group ==> AboutEntity(lib, r, e.nameKwd, e.entityType)
    ensures KeyOfEntity(lib)(row) == (e.nameKwd, e.entityType)
    ensures MentionsOf(lib)(row) == e.mentionCount && ChunksOf(lib)(row) == e.chunks
  {
    EntityReadsBack(lib, g, row, e);
    EntityKeyMeaning(lib, row, e.name, e.entityType);
    ChosenName(lib, g, e, group);
    ListingRead(lib, row, e.chunks);
    MentionsMeaning(lib, row, Some(e.mentionCount), Some(e.mentionCount));
  }

  /** The chosen text comes from one of the rows, or is the fallback if they have none. */
  lemma ChosenFrom(rows: seq<Row>, listed: Row -> seq<string>, fallback: string, best: string) returns (r: Row)
    requires rows != [] && Chosen(FirstSeen(All(rows, listed)), fallback, best)
    ensures r in rows && (best in listed(r) || (listed(r) == [] && best == fallback))
  {
    var texts := FirstSeen(All(rows, listed));
    r := rows[0];
    if texts != [] {
      FirstSeenMember(All(rows, listed), best);
      AllMember(rows, listed, best);
      r :| r in rows && best in listed(r);
    } else if listed(r) != [] {
      AllMember(rows, listed, listed(r)[0]);
      FirstSeenMember(All(rows, listed), listed(r)[0]);
    }
  }

  lemma ChosenName(lib: Library, g: Graph, e: EntityRow, group: seq<Row>)
    requires lib.lower("") == "" && MergesEntities(lib, g, e, group)
    requires forall r :: r in group ==> AboutEntity(lib, r, e.nameKwd, e.entityType)
    ensures lib.lower(Trim(e.name)) == e.nameKwd && Trim(e.entityType) == e.entityType
  {
    var r := ChosenFrom(group, NamesOf(lib), e.nameKwd, e.name);
    NameOfMember(lib, r, e);
  }

  lemma NameOfMember(lib: Library, r: Row, e: EntityRow)
    requires lib.lower("") == "" && AboutEntity(lib, r, e.nameKwd, e.entityType)
    requires e.name in NamesOf(lib)(r) || (NamesOf(lib)(r) == [] && e.name == e.nameKwd)
    ensures lib.lower(Trim(e.name)) == e.nameKwd && Trim(e.entityType) == e.entityType
  {
    var name, kind :| SaysEntity(lib, r, name, kind)
                   && e.nameKwd == lib.lower(Trim(name)) && e.entityType == Trim(kind);
    NameMeaning(lib, r, name, kind);
    TrimIdempotent(name);
    TrimIdempotent(kind);
    TrimEmptyIsBlank(name);
    TrimTrimmed("");
  }

  /** The next incremental build takes up where this one left off: the saved build time is the one loaded. */
  lemma TimeReadsBack(lib: Library, site: Site, g: Graph, now: real, rows: seq<StoredRow>)
    requires UniqueKeys(rows) && OwnIds(rows, site)
    ensures LastBuildTime(lib, site, g, true, TimeSaved(lib, site, g, now, rows))
         == if now > 0.0 then Some(now) else None
  {
    var key := Key(site.indexName, site.kbId, MetaId(lib, g));
    var meta, after := MetaRow(lib, g, now), TimeSaved(lib, site, g, now, rows);
    var s := SavedTime(lib, site, g, now, rows);
    TimeSavedUnique(lib, site, g, now, rows);
    LookupFinds(after, key);
    if Lookup(after, key).Some? { SameKey(after, s, StoredRow(key, Lookup(after, key).value)); }
    assert Field(s.row, "build_timestamp_flt") == Some(Number(now));
  }

  lemma SavedTime(lib: Library, site: Site, g: Graph, now: real, rows: seq<StoredRow>) returns (s: StoredRow)
    requires UniqueKeys(rows) && OwnIds(rows, site)
    ensures s in TimeSaved(lib, site, g, now, rows) && s.key == Key(site.indexName, site.kbId, MetaId(lib, g))
    ensures "build_timestamp_flt" in s.row && s.row["build_timestamp_flt"] == Number(now)
  {
    var key, meta := Key(site.indexName, site.kbId, MetaId(lib, g)), MetaRow(lib, g, now);
    LookupFinds(rows, key);
    if Lookup(rows, key).None? {
      InsertAllSnoc(rows, [], meta, site);
      assert [] + [meta] == [meta];
      s := Entry(meta, "", site.indexName, site.kbId);
    } else {
      var i :| 0 <= i < |rows| && rows[i] == StoredRow(key, Lookup(rows, key).value);
      ByIds(rows[i], site, [MetaId(lib, g)]);
      s := TimeSaved(lib, site, g, now, rows)[i];
    }
  }
}
