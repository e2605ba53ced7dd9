/** Deletion markers and the cleanup they drive (src/dataset_structure_merger.rs:230-251, 360-389, 742-953). */
module StructureCleanup {
  import opened Distinctness
  import opened DocStore
  import opened Grouping
  import opened Json
  import opened StructureMerge
  import opened StructureRows
  import opened Text

  const PAGE_SIZE: nat := 1000

  /** The index and the dataset a build works on. */
  datatype Site = Site(indexName: string, kbId: string)

  // ----- paging -----

  function NoScore(): Score { _ => 0.0 }

  /** The query of `search_checked`. */
  function PageQuery(site: Site, condition: Condition, offset: nat, limit: nat): Query {
    Query(condition, [site.kbId], [site.indexName], false, offset, if limit == 0 then 1 else limit)
  }

  /** Every matching row, in the order of the store's results. */
  function AllMatches(rows: seq<StoredRow>, site: Site, condition: Condition): seq<Row> {
    Rows(Matches(rows, PageQuery(site, condition, 0, 1), NoScore()))
  }

  /** What a scan by pages of `all` returns when reading page `p` fails as `fails(p)` says:
      the pages up to the first failure, and whether there was none. */
  function Pages<T>(all: seq<T>, size: nat, fails: nat -> bool, page: nat): (r: (seq<T>, bool))
    requires size > 0
    decreases |all|
  {
    if fails(page) then ([], false)
    else if |all| < size then (all, true)
    else
      var rest := Pages(all[size..], size, fails, page + 1);
      (all[..size] + rest.0, rest.1)
  }

  /** A scan that reports success has read every match, once and in order; without failures it succeeds. */
  lemma {:induction false} PagesComplete<T>(all: seq<T>, size: nat, fails: nat -> bool, page: nat)
    requires size > 0
    ensures var r := Pages(all, size, fails, page);
            && r.0 <= all
            && (r.1 ==> r.0 == all)
            && ((forall p :: !fails(p)) ==> r.1)
    decreases |all|
  {
    if !fails(page) && |all| >= size {
      PagesComplete(all[size..], size, fails, page + 1);
      assert all == all[..size] + all[size..];
    }
  }

  function FirstPage<T>(rest: seq<T>, size: nat): seq<T> {
    if |rest| < size then rest else rest[..size]
  }

  lemma PageOfMatches(rows: seq<StoredRow>, site: Site, condition: Condition, offset: nat, size: nat)
    requires size > 0 && offset <= |AllMatches(rows, site, condition)|
    ensures var all := AllMatches(rows, site, condition);
            Found(rows, PageQuery(site, condition, offset, size), NoScore())
            == FirstPage(all[offset..], size)
  {
    var q, p := PageQuery(site, condition, 0, 1), PageQuery(site, condition, offset, size);
    SameAdmission(rows, p, q);
    var stored := Matches(rows, q, NoScore());
    var all := Rows(stored);
    var window := Window(stored, offset, size);
    assert Rows(window) == FirstPage(all[offset..], size);
  }

  lemma SameAdmission(rows: seq<StoredRow>, p: Query, q: Query)
    requires p.condition == q.condition && p.datasetIds == q.datasetIds && p.indexNames == q.indexNames
    requires p.hasMatch == q.hasMatch
    ensures Matches(rows, p, NoScore()) == Matches(rows, q, NoScore())
  {
    SelectCongruence(rows, Admitting(p, NoScore()), Admitting(q, NoScore()));
  }

  lemma {:induction false} SelectCongruence(rows: seq<StoredRow>, p: StoredRow -> bool, q: StoredRow -> bool)
    requires forall s :: s in rows ==> p(s) == q(s)
    ensures Select(rows, p) == Select(rows, q)
  {
    if rows != [] {
      assert rows[|rows| - 1] in rows;
      SelectCongruence(rows[..|rows| - 1], p, q);
    }
  }

  /** `search_checked`: one page of the matching rows. */
  method SearchChecked(store: MemoryDocStore, site: Site, condition: Condition, limit: nat, offset: nat)
    returns (docs: seq<Row>)
    requires limit > 0 && offset <= |AllMatches(store.rows, site, condition)|
    ensures var all := AllMatches(store.rows, site, condition);
            docs == FirstPage(all[offset..], limit)
  {
    PageOfMatches(store.rows, site, condition, offset, limit);
    var total, found := store.Search(PageQuery(site, condition, offset, limit), NoScore());
    docs := found;
  }

  /** The paging loop shared by the scans: read pages until one is short, empty or fails. */
  method ScanPages(store: MemoryDocStore, site: Site, condition: Condition, size: nat, fails: nat -> bool)
    returns (found: seq<Row>, ok: bool)
    requires size > 0
    ensures (found, ok) == Pages(AllMatches(store.rows, site, condition), size, fails, 0)
  {
    ghost var all := AllMatches(store.rows, site, condition);
    ghost var rest := all;
    ghost var whole := Pages(all, size, fails, 0);
    var offset: nat, page: nat := 0, 0;
    found := [];
    while true
      invariant offset <= |all| && rest == all[offset..]
      invariant whole.0 == found + Pages(rest, size, fails, page).0
      invariant whole.1 == Pages(rest, size, fails, page).1
      decreases |rest|
    {
      if fails(page) {
        NothingMore(found);
        return found, false;
      }
      var docs := SearchChecked(store, site, condition, size, offset);
      OnePage(found, rest, size, fails, page, whole);
      NothingMore(found);
      if docs == [] {
        return found, true;
      }
      found := found + docs;
      if |docs| < size {
        return found, true;
      }
      rest := rest[size..];
      offset, page := offset + size, page + 1;
    }
  }

  lemma OnePage<T>(found: seq<T>, rest: seq<T>, size: nat, fails: nat -> bool, page: nat, whole: (seq<T>, bool))
    requires size > 0 && !fails(page)
    requires whole.0 == found + Pages(rest, size, fails, page).0 && whole.1 == Pages(rest, size, fails, page).1
    ensures |rest| < size ==> whole == (found + FirstPage(rest, size), true)
    ensures |rest| >= size ==>
              && whole.0 == (found + FirstPage(rest, size)) + Pages(rest[size..], size, fails, page + 1).0
              && whole.1 == Pages(rest[size..], size, fails, page + 1).1
  {
  }

  lemma NothingMore<T>(s: seq<T>)
    ensures s + [] == s
  {
  }

  // ----- conditions -----

  function OneOf(text: string): Value { Array([String(text)]) }

  function Strings(texts: seq<string>): (r: seq<Value>)
    ensures |r| == |texts|
    ensures forall i :: 0 <= i < |r| ==> r[i] == String(texts[i])
  {
    seq(|texts|, i requires 0 <= i < |texts| => String(texts[i]))
  }

  function AnyOf(texts: seq<string>): Value { Array(Strings(texts)) }

  function MarkerCondition(site: Site): Condition {
    map["kb_id" := OneOf(site.kbId), "knowledge_graph_kwd" := OneOf("doc_deleted")]
  }

  /** The dataset-level rows of a graph. */
  function GraphCondition(site: Site, g: Graph): Condition {
    var base := map["scope_kwd" := OneOf("dataset"), "compile_kwd" := OneOf(g.compileKwd), "kb_id" := OneOf(site.kbId)];
    if g.template.Some? then base["compilation_template_ids" := OneOf(g.template.value)] else base
  }

  function AffectedCondition(site: Site, g: Graph, deleted: seq<string>): Condition {
    GraphCondition(site, g)["doc_ids_kwd" := AnyOf(deleted)]
  }

  function IdCondition(ids: seq<string>): Condition {
    map["id" := AnyOf(ids)]
  }

  predicate At(s: StoredRow, site: Site) {
    s.key.indexName == site.indexName && s.key.datasetId == site.kbId
  }

  predicate InGraph(s: StoredRow, site: Site, g: Graph) {
    At(s, site) && ConditionMatches(s.row, GraphCondition(site, g))
  }

  predicate IsMarker(s: StoredRow, site: Site) {
    Hit(s, site.indexName, site.kbId, MarkerCondition(site))
  }

  /** Some document of the list is among the row's documents. */
  predicate Lists(row: Row, deleted: seq<string>) {
    ValueMatches(Field(row, "doc_ids_kwd"), AnyOf(deleted))
  }

  lemma AffectedSplits(s: StoredRow, site: Site, g: Graph, deleted: seq<string>)
    ensures Hit(s, site.indexName, site.kbId, AffectedCondition(site, g, deleted))
       <==> InGraph(s, site, g) && Lists(s.row, deleted)
  {
    var base, all := GraphCondition(site, g), AffectedCondition(site, g, deleted);
    assert "doc_ids_kwd" !in base;
    assert forall name :: name in all <==> name in base || name == "doc_ids_kwd";
    assert all["doc_ids_kwd"] == AnyOf(deleted);
    if ConditionMatches(s.row, all) {
      forall name | name in base ensures ValueMatches(Field(s.row, name), base[name]) {
        assert name in all && all[name] == base[name];
      }
    }
  }

  lemma ByIds(s: StoredRow, site: Site, ids: seq<string>)
    requires OwnId(s)
    ensures Hit(s, site.indexName, site.kbId, IdCondition(ids)) <==> At(s, site) && s.key.id in ids
  {
    var condition := IdCondition(ids);
    assert forall name :: name in condition <==> name == "id";
    assert Field(s.row, "id") == Some(String(s.key.id));
    if s.key.id in ids {
      var i :| 0 <= i < |ids| && ids[i] == s.key.id;
      assert Strings(ids)[i] == String(s.key.id);
    }
  }

  /** The row carries its own identifier, without surrounding white space. */
  predicate OwnId(s: StoredRow) {
    Field(s.row, "id") == Some(String(s.key.id)) && Trim(s.key.id) == s.key.id
  }

  ghost predicate OwnIds(rows: seq<StoredRow>, site: Site) {
    forall s :: s in rows && At(s, site) ==> OwnId(s)
  }

  // ----- cleanup as a function -----

  /** The documents named by marker rows. */
  function DeletedIn(lib: Library, markers: seq<Row>): seq<string> {
    if markers == [] then []
    else
      var n := |markers| - 1;
      DeletedIn(lib, markers[..n]) + NonEmpty(StrOf(lib, Field(markers[n], "deleted_doc_id")))
  }

  function StringsOf(values: seq<Value>): seq<string> {
    if values == [] then []
    else
      var n := |values| - 1;
      StringsOf(values[..n]) + if values[n].String? then [values[n].s] else []
  }

  /** The strings of the row's document list. */
  function CurrentDocs(row: Row): seq<string> {
    match Field(row, "doc_ids_kwd")
    case Some(Array(items)) => StringsOf(items)
    case _ => []
  }

  function Surviving(docs: seq<string>, deleted: seq<string>): (r: seq<string>)
    ensures |r| <= |docs|
  {
    if docs == [] then []
    else
      var n := |docs| - 1;
      Surviving(docs[..n], deleted) + if docs[n] in deleted then [] else [docs[n]]
  }

  function Remaining(row: Row, deleted: seq<string>): seq<string> {
    Surviving(CurrentDocs(row), deleted)
  }

  predicate Affected(s: StoredRow, site: Site, g: Graph, deleted: seq<string>) {
    InGraph(s, site, g) && Lists(s.row, deleted)
  }

  /** A row sourced only by deleted documents. */
  predicate Ghost(s: StoredRow, site: Site, g: Graph, deleted: seq<string>) {
    Affected(s, site, g, deleted) && Remaining(s.row, deleted) == []
  }

  function NotGhost(site: Site, g: Graph, deleted: seq<string>): StoredRow -> bool {
    s => !Ghost(s, site, g, deleted)
  }

  predicate Shrinks(s: StoredRow, site: Site, g: Graph, deleted: seq<string>) {
    && Affected(s, site, g, deleted)
    && 0 < |Remaining(s.row, deleted)| < |CurrentDocs(s.row)|
  }

  function Shrunk(s: StoredRow, site: Site, g: Graph, deleted: seq<string>): StoredRow {
    if Shrinks(s, site, g, deleted)
    then s.(row := s.row["doc_ids_kwd" := AnyOf(Remaining(s.row, deleted))])
    else s
  }

  function ShrunkRows(rows: seq<StoredRow>, site: Site, g: Graph, deleted: seq<string>): (r: seq<StoredRow>)
    ensures |r| == |rows|
    ensures forall i :: 0 <= i < |r| ==> r[i] == Shrunk(rows[i], site, g, deleted)
  {
    seq(|rows|, i requires 0 <= i < |rows| => Shrunk(rows[i], site, g, deleted))
  }

  /** The rows after the documents were cleaned out of a graph. */
  function CleanRows(rows: seq<StoredRow>, site: Site, g: Graph, deleted: seq<string>): seq<StoredRow> {
    ShrunkRows(Select(rows, NotGhost(site, g, deleted)), site, g, deleted)
  }

  /** Which page reads of the two passes fail. */
  datatype Faults = Faults(pass1: nat -> bool, pass2: nat -> bool)

  function IdOf(lib: Library, row: Row): string {
    StrOf(lib, Field(row, "id"))
  }

  datatype Shrink = Shrink(id: string, remaining: seq<string>)

  predicate RowShrinks(row: Row, deleted: seq<string>) {
    0 < |Remaining(row, deleted)| < |CurrentDocs(row)|
  }

  /** The identifiers the second pass collects for deletion. */
  function Doomed(lib: Library, found: seq<Row>, deleted: seq<string>): seq<string> {
    if found == [] then []
    else
      var n := |found| - 1;
      Doomed(lib, found[..n], deleted) + if Remaining(found[n], deleted) == [] then [IdOf(lib, found[n])] else []
  }

  /** The updates it collects. */
  function Diminished(lib: Library, found: seq<Row>, deleted: seq<string>): seq<Shrink> {
    if found == [] then []
    else
      var n := |found| - 1;
      Diminished(lib, found[..n], deleted)
      + if RowShrinks(found[n], deleted) then [Shrink(IdOf(lib, found[n]), Remaining(found[n], deleted))] else []
  }

  function Purged(rows: seq<StoredRow>, site: Site, ids: seq<string>): seq<StoredRow> {
    if ids == [] then rows else Select(rows, Missing(site.indexName, site.kbId, IdCondition(ids)))
  }

  function Resized(rows: seq<StoredRow>, site: Site, shrinks: seq<Shrink>): seq<StoredRow> {
    if shrinks == [] then rows
    else
      var n := |shrinks| - 1;
      Updated(Resized(rows, site, shrinks[..n]), Hitting(site.indexName, site.kbId, IdCondition([shrinks[n].id])),
              map["doc_ids_kwd" := AnyOf(shrinks[n].remaining)])
  }

  /** The writes of the second pass: by the identifiers the found rows carry. */
  function Rewritten(lib: Library, rows: seq<StoredRow>, site: Site, deleted: seq<string>, found: seq<Row>)
    : seq<StoredRow>
  {
    Resized(Purged(rows, site, Doomed(lib, found, deleted)), site, Diminished(lib, found, deleted))
  }

  /** The documents of the marker pages read before the first failing one. */
  function Read(lib: Library, site: Site, faults: Faults, rows: seq<StoredRow>): seq<string> {
    DeletedIn(lib, Pages(AllMatches(rows, site, MarkerCondition(site)), PAGE_SIZE, faults.pass1, 0).0)
  }

  /** `cleanup_deleted_docs`: the new rows and the reported success. A failure of the first pass only
      shortens the list of markers. */
  function Cleanup(lib: Library, site: Site, g: Graph, indexed: bool, faults: Faults, rows: seq<StoredRow>)
    : (r: (seq<StoredRow>, bool))
  {
    if !indexed then (rows, false)
    else
      var deleted := Read(lib, site, faults, rows);
      if deleted == [] then (rows, true)
      else
        var found := AllMatches(rows, site, AffectedCondition(site, g, deleted));
        if !Pages(found, PAGE_SIZE, faults.pass2, 0).1 then (rows, false)
        else (Rewritten(lib, rows, site, deleted, found), true)
  }

  // ----- the passes -----

  method CollectDeleted(lib: Library, markers: seq<Row>) returns (deleted: seq<string>)
    ensures deleted == DeletedIn(lib, markers)
  {
    deleted := [];
    for i := 0 to |markers|
      invariant deleted == DeletedIn(lib, markers[..i])
    {
      var doc := StrOf(lib, Field(markers[i], "deleted_doc_id"));
      if doc != "" {
        deleted := deleted + [doc];
      }
      assert markers[..i + 1][..i] == markers[..i];
    }
    assert markers[..|markers|] == markers;
  }

  method KeepSurviving(docs: seq<string>, deleted: seq<string>) returns (remaining: seq<string>)
    ensures remaining == Surviving(docs, deleted)
  {
    remaining := [];
    for i := 0 to |docs|
      invariant remaining == Surviving(docs[..i], deleted)
    {
      if docs[i] !in deleted {
        remaining := remaining + [docs[i]];
      }
      assert docs[..i + 1][..i] == docs[..i];
    }
    assert docs[..|docs|] == docs;
  }

  ghost predicate DeletesOf(lib: Library, found: seq<Row>, deleted: seq<string>, ids: seq<string>) {
    forall x :: x in ids <==> exists row :: row in found && IdOf(lib, row) == x && Remaining(row, deleted) == []
  }

  ghost predicate ShrinksOf(lib: Library, found: seq<Row>, deleted: seq<string>, shrinks: seq<Shrink>) {
    forall u :: u in shrinks <==>
      exists row :: row in found && RowShrinks(row, deleted) && u == Shrink(IdOf(lib, row), Remaining(row, deleted))
  }

  lemma {:induction false} DoomedMeaning(lib: Library, found: seq<Row>, deleted: seq<string>)
    ensures DeletesOf(lib, found, deleted, Doomed(lib, found, deleted))
  {
    if found != [] {
      DoomedMeaning(lib, found[..|found| - 1], deleted);
      assert found == found[..|found| - 1] + [found[|found| - 1]];
    }
  }

  lemma {:induction false} DiminishedMeaning(lib: Library, found: seq<Row>, deleted: seq<string>)
    ensures ShrinksOf(lib, found, deleted, Diminished(lib, found, deleted))
  {
    if found != [] {
      DiminishedMeaning(lib, found[..|found| - 1], deleted);
      assert found == found[..|found| - 1] + [found[|found| - 1]];
    }
  }

  /** The row loop of the second pass. */
  method Classify(lib: Library, found: seq<Row>, deleted: seq<string>)
    returns (toDelete: seq<string>, toUpdate: seq<Shrink>)
    ensures toDelete == Doomed(lib, found, deleted) && DeletesOf(lib, found, deleted, toDelete)
    ensures toUpdate == Diminished(lib, found, deleted) && ShrinksOf(lib, found, deleted, toUpdate)
  {
    toDelete, toUpdate := [], [];
    for i := 0 to |found|
      invariant toDelete == Doomed(lib, found[..i], deleted)
      invariant toUpdate == Diminished(lib, found[..i], deleted)
    {
      var row := found[i];
      var current := CurrentDocs(row);
      var remaining := KeepSurviving(current, deleted);
      var id := IdOf(lib, row);
      if remaining == [] {
        toDelete := toDelete + [id];
      } else if |remaining| < |current| {
        toUpdate := toUpdate + [Shrink(id, remaining)];
      }
      assert found[..i + 1][..i] == found[..i];
    }
    assert found[..|found|] == found;
    DoomedMeaning(lib, found, deleted);
    DiminishedMeaning(lib, found, deleted);
  }

  /** Rows found by the second pass stand for the affected stored rows. */
  lemma FoundAffected(lib: Library, rows: seq<StoredRow>, site: Site, g: Graph, deleted: seq<string>, row: Row)
    returns (s: StoredRow)
    requires UniqueKeys(rows) && OwnIds(rows, site)
    requires row in AllMatches(rows, site, AffectedCondition(site, g, deleted))
    ensures s in rows && Affected(s, site, g, deleted) && s.row == row && IdOf(lib, row) == s.key.id
  {
    var q := PageQuery(site, AffectedCondition(site, g, deleted), 0, 1);
    MatchesAreComplete(rows, q, NoScore(), site.indexName, site.kbId);
    var stored := Matches(rows, q, NoScore());
    var i :| 0 <= i < |stored| && Rows(stored)[i] == row;
    s := stored[i];
    assert s in stored;
    AffectedSplits(s, site, g, deleted);
  }

  lemma AffectedFound(lib: Library, rows: seq<StoredRow>, site: Site, g: Graph, deleted: seq<string>, s: StoredRow)
    requires UniqueKeys(rows) && OwnIds(rows, site)
    requires s in rows && Affected(s, site, g, deleted)
    ensures s.row in AllMatches(rows, site, AffectedCondition(site, g, deleted)) && IdOf(lib, s.row) == s.key.id
  {
    var q := PageQuery(site, AffectedCondition(site, g, deleted), 0, 1);
    MatchesAreComplete(rows, q, NoScore(), site.indexName, site.kbId);
    AffectedSplits(s, site, g, deleted);
    var stored := Matches(rows, q, NoScore());
    var i :| 0 <= i < |stored| && stored[i] == s;
    assert Rows(stored)[i] == s.row;
  }

  /** Deleting by the collected identifiers deletes exactly the ghosts. */
  lemma DeletesGhosts(lib: Library, rows: seq<StoredRow>, site: Site, g: Graph, deleted: seq<string>, ids: seq<string>)
    requires UniqueKeys(rows) && OwnIds(rows, site)
    requires DeletesOf(lib, AllMatches(rows, site, AffectedCondition(site, g, deleted)), deleted, ids)
    ensures Select(rows, Missing(site.indexName, site.kbId, IdCondition(ids)))
         == Select(rows, NotGhost(site, g, deleted))
  {
    forall s | s in rows
      ensures Hit(s, site.indexName, site.kbId, IdCondition(ids)) == Ghost(s, site, g, deleted)
    {
      if At(s, site) {
        ByIds(s, site, ids);
        IdIffGhost(lib, rows, site, g, deleted, ids, s);
      }
    }
    SelectCongruence(rows, Missing(site.indexName, site.kbId, IdCondition(ids)), NotGhost(site, g, deleted));
  }

  lemma IdIffGhost(lib: Library, rows: seq<StoredRow>, site: Site, g: Graph, deleted: seq<string>, ids: seq<string>,
                   s: StoredRow)
    requires UniqueKeys(rows) && OwnIds(rows, site) && s in rows && At(s, site)
    requires DeletesOf(lib, AllMatches(rows, site, AffectedCondition(site, g, deleted)), deleted, ids)
    ensures s.key.id in ids <==> Ghost(s, site, g, deleted)
  {
    var found := AllMatches(rows, site, AffectedCondition(site, g, deleted));
    if s.key.id in ids {
      var row :| row in found && IdOf(lib, row) == s.key.id && Remaining(row, deleted) == [];
      var t := FoundAffected(lib, rows, site, g, deleted, row);
      SameKey(rows, s, t);
    }
    if Ghost(s, site, g, deleted) {
      AffectedFound(lib, rows, site, g, deleted, s);
    }
  }

  // ----- shrinking one row after another -----

  function Ids(shrinks: seq<Shrink>): (r: seq<string>)
    ensures |r| == |shrinks| && forall i :: 0 <= i < |r| ==> r[i] == shrinks[i].id
  {
    seq(|shrinks|, i requires 0 <= i < |shrinks| => shrinks[i].id)
  }

  function PatchedOnce(s: StoredRow, deleted: seq<string>): StoredRow {
    s.(row := s.row["doc_ids_kwd" := AnyOf(Remaining(s.row, deleted))])
  }

  /** The stored row `s` once the shrinks with these identifiers were applied. */
  function AfterShrinks(s: StoredRow, site: Site, deleted: seq<string>, ids: seq<string>): StoredRow {
    if At(s, site) && s.key.id in ids then PatchedOnce(s, deleted) else s
  }

  ghost predicate PartlyShrunk(rows: seq<StoredRow>, before: seq<StoredRow>, site: Site,
                               deleted: seq<string>, ids: seq<string>)
  {
    |rows| == |before| && forall i :: 0 <= i < |rows| ==> rows[i] == AfterShrinks(before[i], site, deleted, ids)
  }

  /** One update extends the identifiers already shrunk by one. */
  lemma ShrinkStep(rows: seq<StoredRow>, before: seq<StoredRow>, site: Site, deleted: seq<string>,
                   ids: seq<string>, u: Shrink)
    requires OwnIds(before, site) && PartlyShrunk(rows, before, site, deleted, ids)
    requires forall s :: s in before && At(s, site) && s.key.id == u.id ==> u.remaining == Remaining(s.row, deleted)
    ensures PartlyShrunk(Updated(rows, Hitting(site.indexName, site.kbId, IdCondition([u.id])),
                                 map["doc_ids_kwd" := AnyOf(u.remaining)]),
                         before, site, deleted, ids + [u.id])
  {
    var hit, patch := Hitting(site.indexName, site.kbId, IdCondition([u.id])), map["doc_ids_kwd" := AnyOf(u.remaining)];
    forall i | 0 <= i < |rows|
      ensures Patched(rows[i], hit, patch) == AfterShrinks(before[i], site, deleted, ids + [u.id])
    {
      assert before[i] in before;
      ShrinkOne(rows[i], before[i], site, deleted, ids, u);
    }
  }

  lemma ShrinkOne(now: StoredRow, s: StoredRow, site: Site, deleted: seq<string>, ids: seq<string>, u: Shrink)
    requires At(s, site) ==> OwnId(s)
    requires now == AfterShrinks(s, site, deleted, ids)
    requires At(s, site) && s.key.id == u.id ==> u.remaining == Remaining(s.row, deleted)
    ensures Patched(now, Hitting(site.indexName, site.kbId, IdCondition([u.id])),
                    map["doc_ids_kwd" := AnyOf(u.remaining)])
         == AfterShrinks(s, site, deleted, ids + [u.id])
  {
    var docs := AnyOf(u.remaining);
    if At(s, site) {
      ByIds(now, site, [u.id]);
      if s.key.id == u.id {
        assert now.row + map["doc_ids_kwd" := docs] == s.row["doc_ids_kwd" := docs];
      }
    }
  }

  /** The collected shrinks are those of the rows that shrink. */
  lemma ShrinkFacts(lib: Library, rows: seq<StoredRow>, site: Site, g: Graph, deleted: seq<string>,
                    shrinks: seq<Shrink>,
                    s: StoredRow)
    requires UniqueKeys(rows) && OwnIds(rows, site) && s in rows && At(s, site)
    requires ShrinksOf(lib, AllMatches(rows, site, AffectedCondition(site, g, deleted)), deleted, shrinks)
    ensures s.key.id in Ids(shrinks) <==> Shrinks(s, site, g, deleted)
    ensures forall u :: u in shrinks && u.id == s.key.id ==> u.remaining == Remaining(s.row, deleted)
  {
    var found := AllMatches(rows, site, AffectedCondition(site, g, deleted));
    forall u | u in shrinks && u.id == s.key.id
      ensures u.remaining == Remaining(s.row, deleted) && Shrinks(s, site, g, deleted)
    {
      var row :| row in found && RowShrinks(row, deleted) && u == Shrink(IdOf(lib, row), Remaining(row, deleted));
      var t := FoundAffected(lib, rows, site, g, deleted, row);
      SameKey(rows, s, t);
    }
    if s.key.id in Ids(shrinks) {
      var i :| 0 <= i < |shrinks| && Ids(shrinks)[i] == s.key.id;
      assert shrinks[i] in shrinks;
    }
    if Shrinks(s, site, g, deleted) {
      AffectedFound(lib, rows, site, g, deleted, s);
      var u := Shrink(s.key.id, Remaining(s.row, deleted));
      assert u in shrinks;
      var i :| 0 <= i < |shrinks| && shrinks[i] == u;
      assert Ids(shrinks)[i] == s.key.id;
    }
  }

  lemma SelectKeeps(rows: seq<StoredRow>, keep: StoredRow -> bool, site: Site)
    requires UniqueKeys(rows) && OwnIds(rows, site)
    ensures UniqueKeys(Select(rows, keep)) && OwnIds(Select(rows, keep), site)
    ensures forall s :: s in Select(rows, keep) ==> s in rows
  {
    SelectUnique(rows, keep);
    forall s | s in Select(rows, keep) ensures s in rows { SelectMember(rows, keep, s); }
  }

  lemma {:induction false} ResizedPartly(kept: seq<StoredRow>, site: Site, deleted: seq<string>, shrinks: seq<Shrink>)
    requires OwnIds(kept, site)
    requires forall s, u :: s in kept && At(s, site) && u in shrinks && u.id == s.key.id
                            ==> u.remaining == Remaining(s.row, deleted)
    ensures PartlyShrunk(Resized(kept, site, shrinks), kept, site, deleted, Ids(shrinks))
  {
    if shrinks != [] {
      var front, u := shrinks[..|shrinks| - 1], shrinks[|shrinks| - 1];
      assert u in shrinks;
      ResizedPartly(kept, site, deleted, front);
      ShrinkStep(Resized(kept, site, front), kept, site, deleted, Ids(front), u);
      assert Ids(shrinks) == Ids(front) + [u.id];
    }
  }

  /** Where the rows of the dataset carry their identifiers, writing by identifier deletes exactly the
      ghosts and shrinks exactly the other affected rows. */
  lemma RewrittenIsClean(lib: Library, rows: seq<StoredRow>, site: Site, g: Graph, deleted: seq<string>)
    requires UniqueKeys(rows) && OwnIds(rows, site)
    ensures Rewritten(lib, rows, site, deleted, AllMatches(rows, site, AffectedCondition(site, g, deleted)))
         == CleanRows(rows, site, g, deleted)
  {
    var found := AllMatches(rows, site, AffectedCondition(site, g, deleted));
    var ids, shrinks := Doomed(lib, found, deleted), Diminished(lib, found, deleted);
    DoomedMeaning(lib, found, deleted);
    DiminishedMeaning(lib, found, deleted);
    DeletesGhosts(lib, rows, site, g, deleted, ids);
    SelectKeeps(rows, NotGhost(site, g, deleted), site);
    if ids == [] { NothingDeleted(rows, site); }
    var kept := Purged(rows, site, ids);
    forall s | s in kept && At(s, site)
      ensures forall u :: u in shrinks && u.id == s.key.id ==> u.remaining == Remaining(s.row, deleted)
      ensures s.key.id in Ids(shrinks) <==> Shrinks(s, site, g, deleted)
    {
      ShrinkFacts(lib, rows, site, g, deleted, shrinks, s);
    }
    ResizedPartly(kept, site, deleted, shrinks);
    ShrunkAll(kept, Resized(kept, site, shrinks), site, g, deleted, Ids(shrinks));
  }

  /** The update loop of the second pass. */
  method ApplyShrinks(store: MemoryDocStore, site: Site, shrinks: seq<Shrink>)
    modifies store`rows
    ensures store.rows == Resized(old(store.rows), site, shrinks)
  {
    for i := 0 to |shrinks|
      invariant store.rows == Resized(old(store.rows), site, shrinks[..i])
    {
      var u := shrinks[i];
      var changed := store.Update(IdCondition([u.id]), map["doc_ids_kwd" := AnyOf(u.remaining)],
                                  site.indexName, site.kbId);
      assert shrinks[..i + 1][..i] == shrinks[..i];
    }
    assert shrinks[..|shrinks|] == shrinks;
  }

  /** The writes of the second pass: ghosts are deleted, other affected rows are shrunk. */
  method RemoveAndShrink(lib: Library, store: MemoryDocStore, site: Site, deleted: seq<string>, found: seq<Row>)
    modifies store`rows
    ensures store.rows == Rewritten(lib, old(store.rows), site, deleted, found)
  {
    var toDelete, toUpdate := Classify(lib, found, deleted);
    if toDelete != [] {
      var count := store.Delete(IdCondition(toDelete), site.indexName, site.kbId);
    }
    ApplyShrinks(store, site, toUpdate);
  }

  /** `cleanup_deleted_docs`. */
  method CleanupDeletedDocs(lib: Library, store: MemoryDocStore, site: Site, g: Graph, faults: Faults)
    returns (ok: bool)
    modifies store`rows
    ensures (store.rows, ok)
         == Cleanup(lib, site, g, (site.indexName, site.kbId) in store.indexes, faults, old(store.rows))
  {
    if (site.indexName, site.kbId) !in store.indexes {
      return false;
    }
    var markers, complete := ScanPages(store, site, MarkerCondition(site), PAGE_SIZE, faults.pass1);
    var deleted := CollectDeleted(lib, markers);
    if deleted == [] {
      return true;
    }
    var found, pass2Ok := ScanPages(store, site, AffectedCondition(site, g, deleted), PAGE_SIZE, faults.pass2);
    PagesComplete(AllMatches(store.rows, site, AffectedCondition(site, g, deleted)), PAGE_SIZE, faults.pass2, 0);
    if !pass2Ok {
      return false;
    }
    RemoveAndShrink(lib, store, site, deleted, found);
    return true;
  }

  lemma NothingDeleted(rows: seq<StoredRow>, site: Site)
    requires OwnIds(rows, site)
    ensures Select(rows, Missing(site.indexName, site.kbId, IdCondition([]))) == rows
  {
    forall s | s in rows ensures !Hit(s, site.indexName, site.kbId, IdCondition([])) {
      if At(s, site) { ByIds(s, site, []); }
    }
    SelectAll(rows, Missing(site.indexName, site.kbId, IdCondition([])));
  }

  lemma {:induction false} SelectAll(rows: seq<StoredRow>, keep: StoredRow -> bool)
    requires forall s :: s in rows ==> keep(s)
    ensures Select(rows, keep) == rows
  {
    if rows != [] {
      assert rows[|rows| - 1] in rows;
      SelectAll(rows[..|rows| - 1], keep);
    }
  }

  lemma ShrunkAll(kept: seq<StoredRow>, rows: seq<StoredRow>, site: Site, g: Graph, deleted: seq<string>,
                  ids: seq<string>)
    requires PartlyShrunk(rows, kept, site, deleted, ids)
    requires forall s :: s in kept && At(s, site) ==> (s.key.id in ids <==> Shrinks(s, site, g, deleted))
    ensures rows == ShrunkRows(kept, site, g, deleted)
  {
    forall i | 0 <= i < |rows| ensures rows[i] == Shrunk(kept[i], site, g, deleted) {
      assert kept[i] in kept;
    }
  }
}
