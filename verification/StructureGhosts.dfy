/** What a cleanup guarantees about deleted documents
    (src/dataset_structure_merger.rs:742-953). */
module StructureGhosts {
  import opened Distinctness
  import opened DocStore
  import opened Grouping
  import opened Json
  import opened StructureBuckets
  import opened StructureBuild
  import opened StructureCleanup
  import opened StructureMerge
  import opened StructureRows
  import opened Text

  // ----- one cleanup -----

  lemma {:induction false} SurvivingMember(docs: seq<string>, deleted: seq<string>, d: string)
    ensures d in Surviving(docs, deleted) <==> d in docs && d !in deleted
  {
    if docs != [] {
      SurvivingMember(docs[..|docs| - 1], deleted, d);
      assert docs == docs[..|docs| - 1] + [docs[|docs| - 1]];
    }
  }

  lemma {:induction false} SurvivingShorter(docs: seq<string>, deleted: seq<string>, d: string)
    requires d in docs && d in deleted
    ensures |Surviving(docs, deleted)| < |docs|
  {
    var n := |docs| - 1;
    assert docs == docs[..n] + [docs[n]];
    if docs[n] != d { SurvivingShorter(docs[..n], deleted, d); }
  }

  lemma {:induction false} StringsMember(values: seq<Value>, d: string)
    ensures d in StringsOf(values) <==> String(d) in values
  {
    if values != [] {
      StringsMember(values[..|values| - 1], d);
      assert values == values[..|values| - 1] + [values[|values| - 1]];
    }
  }

  lemma AnyOfMember(texts: seq<string>, d: string)
    ensures String(d) in Strings(texts) <==> d in texts
  {
    if d in texts {
      var i :| 0 <= i < |texts| && texts[i] == d;
      assert Strings(texts)[i] == String(d);
    }
  }

  /** The row names `d`: in its list, or as its only document. */
  predicate Names(row: Row, d: string) {
    match Field(row, "doc_ids_kwd")
    case Some(Array(items)) => String(d) in items
    case Some(other) => other == String(d)
    case None => false
  }

  lemma ListsMeaning(row: Row, deleted: seq<string>)
    ensures Lists(row, deleted) <==> exists d :: d in deleted && Names(row, d)
  {
    var wanted := Strings(deleted);
    if Lists(row, deleted) {
      if v, items :| Field(row, "doc_ids_kwd") == Some(Array(items)) && v in items && v in wanted {
        var i :| 0 <= i < |wanted| && wanted[i] == v;
        assert deleted[i] in deleted && Names(row, deleted[i]);
      } else {
        var i :| 0 <= i < |wanted| && Field(row, "doc_ids_kwd") == Some(wanted[i]);
        assert deleted[i] in deleted && Names(row, deleted[i]);
      }
    }
    if d :| d in deleted && Names(row, d) {
      AnyOfMember(deleted, d);
    }
  }

  /** A row that is no ghost but lists a deleted document keeps a shorter, non-empty list. */
  lemma AffectedShrinks(s: StoredRow, site: Site, g: Graph, deleted: seq<string>)
    requires Affected(s, site, g, deleted)
    ensures Ghost(s, site, g, deleted) <==> forall d :: d in CurrentDocs(s.row) ==> d in deleted
    ensures !Ghost(s, site, g, deleted) ==> Shrinks(s, site, g, deleted)
  {
    var docs := CurrentDocs(s.row);
    forall d ensures d in Surviving(docs, deleted) <==> d in docs && d !in deleted {
      SurvivingMember(docs, deleted, d); }
    if Remaining(s.row, deleted) != [] {
      assert Surviving(docs, deleted)[0] in Surviving(docs, deleted);
      ListsMeaning(s.row, deleted);
      var d :| d in deleted && Names(s.row, d);
      var items := Field(s.row, "doc_ids_kwd").value.items;
      StringsMember(items, d);
      SurvivingShorter(docs, deleted, d);
    }
  }

  lemma GraphIgnoresDocs(s: StoredRow, t: StoredRow, site: Site, g: Graph)
    requires s.key == t.key
    requires forall name :: name != "doc_ids_kwd" ==> Field(s.row, name) == Field(t.row, name)
    ensures InGraph(s, site, g) <==> InGraph(t, site, g)
  {
    var condition := GraphCondition(site, g);
    forall name | name in condition ensures Field(s.row, name) == Field(t.row, name) {
      assert name != "doc_ids_kwd";
    }
  }

  lemma ShrunkFields(s: StoredRow, site: Site, g: Graph, deleted: seq<string>)
    ensures var t := Shrunk(s, site, g, deleted);
            && t.key == s.key
            && forall name :: name != "doc_ids_kwd" ==> Field(s.row, name) == Field(t.row, name)
  {
  }

  /** A shrunk row names exactly the documents it named before that were not deleted. */
  lemma ShrunkNames(s: StoredRow, site: Site, g: Graph, deleted: seq<string>, d: string)
    requires Shrinks(s, site, g, deleted)
    ensures Names(Shrunk(s, site, g, deleted).row, d) <==> Names(s.row, d) && d !in deleted
  {
    var remaining := Remaining(s.row, deleted);
    AnyOfMember(remaining, d);
    SurvivingMember(CurrentDocs(s.row), deleted, d);
    StringsMember(Field(s.row, "doc_ids_kwd").value.items, d);
  }

  lemma CleanOrigin(rows: seq<StoredRow>, site: Site, g: Graph, deleted: seq<string>, t: StoredRow)
    returns (s: StoredRow)
    requires t in CleanRows(rows, site, g, deleted)
    ensures s in rows && !Ghost(s, site, g, deleted) && t == Shrunk(s, site, g, deleted)
  {
    var kept := Select(rows, NotGhost(site, g, deleted));
    var i :| 0 <= i < |kept| && CleanRows(rows, site, g, deleted)[i] == t;
    s := kept[i];
    assert s in kept;
    SelectMember(rows, NotGhost(site, g, deleted), s);
  }

  lemma CleanImage(rows: seq<StoredRow>, site: Site, g: Graph, deleted: seq<string>, s: StoredRow)
    requires s in rows && !Ghost(s, site, g, deleted)
    ensures Shrunk(s, site, g, deleted) in CleanRows(rows, site, g, deleted)
  {
    var kept := Select(rows, NotGhost(site, g, deleted));
    SelectMember(rows, NotGhost(site, g, deleted), s);
    var i :| 0 <= i < |kept| && kept[i] == s;
    assert CleanRows(rows, site, g, deleted)[i] == Shrunk(s, site, g, deleted);
  }

  /** Cleaned rows of the graph list no deleted document. */
  lemma NothingListed(rows: seq<StoredRow>, site: Site, g: Graph, deleted: seq<string>, t: StoredRow)
    requires t in CleanRows(rows, site, g, deleted)
    ensures !Affected(t, site, g, deleted)
  {
    var s := CleanOrigin(rows, site, g, deleted, t);
    ShrunkFields(s, site, g, deleted);
    GraphIgnoresDocs(s, t, site, g);
    if Affected(s, site, g, deleted) {
      AffectedShrinks(s, site, g, deleted);
      ListsMeaning(t.row, deleted);
      forall d | d in deleted ensures !Names(t.row, d) { ShrunkNames(s, site, g, deleted, d); }
    }
  }

  /** A row disappears exactly when it belongs to the graph, lists a deleted document and no other. */
  lemma RemovedExactly(rows: seq<StoredRow>, site: Site, g: Graph, deleted: seq<string>, s: StoredRow)
    requires UniqueKeys(rows) && s in rows
    ensures (forall t :: t in CleanRows(rows, site, g, deleted) ==> t.key != s.key)
       <==> Affected(s, site, g, deleted) && forall d :: d in CurrentDocs(s.row) ==> d in deleted
  {
    var clean := CleanRows(rows, site, g, deleted);
    if Affected(s, site, g, deleted) { AffectedShrinks(s, site, g, deleted); }
    if Ghost(s, site, g, deleted) {
      forall t | t in clean ensures t.key != s.key {
        var o := CleanOrigin(rows, site, g, deleted, t);
        if o.key == s.key { SameKey(rows, o, s); }
      }
    } else {
      CleanImage(rows, site, g, deleted, s);
      ShrunkFields(s, site, g, deleted);
    }
  }

  /** Every row that stays is untouched, or is in the graph and keeps its surviving documents in order. */
  lemma OthersUntouched(rows: seq<StoredRow>, site: Site, g: Graph, deleted: seq<string>, s: StoredRow)
    requires s in rows
    ensures !Affected(s, site, g, deleted) ==> s in CleanRows(rows, site, g, deleted)
    ensures Affected(s, site, g, deleted) && (exists d :: d in CurrentDocs(s.row) && d !in deleted) ==>
              s.(row := s.row["doc_ids_kwd" := AnyOf(Surviving(CurrentDocs(s.row), deleted))])
              in CleanRows(rows, site, g, deleted)
  {
    if Affected(s, site, g, deleted) { AffectedShrinks(s, site, g, deleted); }
    if !Ghost(s, site, g, deleted) { CleanImage(rows, site, g, deleted, s); }
  }

  lemma NothingToClean(rows: seq<StoredRow>, site: Site, g: Graph, deleted: seq<string>)
    requires forall s :: s in rows ==> !Affected(s, site, g, deleted)
    ensures CleanRows(rows, site, g, deleted) == rows
  {
    SelectAll(rows, NotGhost(site, g, deleted));
    forall i | 0 <= i < |rows| ensures Shrunk(rows[i], site, g, deleted) == rows[i] { assert rows[i] in rows; }
  }

  // ----- one call of the cleanup -----

  ghost predicate NoGhosts(site: Site, d: string, g: Graph, rows: seq<StoredRow>) {
    forall s :: s in rows && InGraph(s, site, g) ==> !Names(s.row, d)
  }

  /** A marker row names the document. */
  ghost predicate Deleted(lib: Library, site: Site, d: string, rows: seq<StoredRow>) {
    d != "" && exists s :: s in rows && IsMarker(s, site) && StrOf(lib, Field(s.row, "deleted_doc_id")) == d
  }

  ghost predicate AllReadable(faults: Faults) {
    forall p :: !faults.pass1(p) && !faults.pass2(p)
  }

  /** Every row of the graph that names `d` is sourced by nothing but these documents. */
  ghost predicate OnlyGhosts(site: Site, d: string, g: Graph, read: seq<string>, rows: seq<StoredRow>) {
    forall s :: s in rows && InGraph(s, site, g) && Names(s.row, d) ==> Ghost(s, site, g, read)
  }

  lemma CleanedExactly(rows: seq<StoredRow>, site: Site, d: string, g: Graph, deleted: seq<string>)
    ensures NoGhosts(site, d, g, CleanRows(rows, site, g, deleted))
       <==> d in deleted || OnlyGhosts(site, d, g, deleted, rows)
  {
    var clean := CleanRows(rows, site, g, deleted);
    if d in deleted {
      forall t | t in clean && InGraph(t, site, g) ensures !Names(t.row, d) {
        NothingListed(rows, site, g, deleted, t);
        ListsMeaning(t.row, deleted);
      }
    } else {
      forall s | s in rows && InGraph(s, site, g) && Names(s.row, d) && !Ghost(s, site, g, deleted)
        ensures Shrunk(s, site, g, deleted) in clean && InGraph(Shrunk(s, site, g, deleted), site, g)
        ensures Names(Shrunk(s, site, g, deleted).row, d)
      {
        CleanImage(rows, site, g, deleted, s);
        SameButDocs(s, site, g, deleted, d);
      }
      forall t | t in clean && InGraph(t, site, g) && Names(t.row, d) ensures !OnlyGhosts(site, d, g, deleted, rows) {
        var s := CleanOrigin(rows, site, g, deleted, t);
        SameButDocs(s, site, g, deleted, d);
      }
    }
  }

  lemma SameButDocs(s: StoredRow, site: Site, g: Graph, deleted: seq<string>, d: string)
    requires d !in deleted
    ensures var t := Shrunk(s, site, g, deleted);
            (InGraph(s, site, g) <==> InGraph(t, site, g)) && (Names(s.row, d) <==> Names(t.row, d))
  {
    ShrunkFields(s, site, g, deleted);
    GraphIgnoresDocs(s, Shrunk(s, site, g, deleted), site, g);
    if Shrinks(s, site, g, deleted) { ShrunkNames(s, site, g, deleted, d); }
  }

  /** A successful cleanup removes what the marker pages it could read name, and nothing else. */
  lemma CleanupIsClean(lib: Library, site: Site, g: Graph, faults: Faults, rows: seq<StoredRow>)
    requires UniqueKeys(rows) && OwnIds(rows, site)
    ensures var r := Cleanup(lib, site, g, true, faults, rows);
            r.0 == if r.1 then CleanRows(rows, site, g, Read(lib, site, faults, rows)) else rows
  {
    var read := Read(lib, site, faults, rows);
    if read == [] {
      NothingToClean(rows, site, g, read);
    } else {
      RewrittenIsClean(lib, rows, site, g, read);
    }
  }

  /** What success means, whatever page reads fail: the graph names `d` no more exactly when `d` stood on
      a marker page read before the first failing one, or had no row with another source to stay in. */
  lemma SuccessExactly(lib: Library, site: Site, d: string, g: Graph, faults: Faults, rows: seq<StoredRow>)
    requires UniqueKeys(rows) && OwnIds(rows, site)
    ensures var r := Cleanup(lib, site, g, true, faults, rows);
            var read := Read(lib, site, faults, rows);
            r.1 ==> (NoGhosts(site, d, g, r.0) <==> d in read || OnlyGhosts(site, d, g, read, rows))
  {
    CleanupIsClean(lib, site, g, faults, rows);
    CleanedExactly(rows, site, d, g, Read(lib, site, faults, rows));
  }

  lemma {:induction false} DeletedInMember(lib: Library, markers: seq<Row>, d: string)
    ensures d in DeletedIn(lib, markers)
       <==> d != "" && exists row :: row in markers && StrOf(lib, Field(row, "deleted_doc_id")) == d
  {
    if markers != [] {
      var n := |markers| - 1;
      DeletedInMember(lib, markers[..n], d);
      assert markers == markers[..n] + [markers[n]];
      if StrOf(lib, Field(markers[n], "deleted_doc_id")) == d { assert markers[n] in markers; }
    }
  }

  lemma MatchMember(rows: seq<StoredRow>, site: Site, condition: Condition, row: Row)
    requires UniqueKeys(rows)
    ensures row in AllMatches(rows, site, condition)
       <==> exists s :: s in rows && Hit(s, site.indexName, site.kbId, condition) && s.row == row
  {
    var q := PageQuery(site, condition, 0, 1);
    MatchesAreComplete(rows, q, NoScore(), site.indexName, site.kbId);
    var stored := Matches(rows, q, NoScore());
    if row in AllMatches(rows, site, condition) {
      var i :| 0 <= i < |stored| && Rows(stored)[i] == row;
      assert stored[i] in stored;
    }
    if s :| s in rows && Hit(s, site.indexName, site.kbId, condition) && s.row == row {
      var i :| 0 <= i < |stored| && stored[i] == s;
      assert Rows(stored)[i] == row;
    }
  }

  /** A complete scan of the markers yields exactly the documents they name; any scan yields some of them. */
  lemma ReadMeaning(lib: Library, site: Site, d: string, faults: Faults, rows: seq<StoredRow>)
    requires UniqueKeys(rows)
    ensures d in Read(lib, site, faults, rows) ==> Deleted(lib, site, d, rows)
    ensures (forall p :: !faults.pass1(p)) && Deleted(lib, site, d, rows) ==> d in Read(lib, site, faults, rows)
  {
    var all := AllMatches(rows, site, MarkerCondition(site));
    var pages := Pages(all, PAGE_SIZE, faults.pass1, 0).0;
    PagesComplete(all, PAGE_SIZE, faults.pass1, 0);
    DeletedInMember(lib, pages, d);
    if d in DeletedIn(lib, pages) {
      var row :| row in pages && StrOf(lib, Field(row, "deleted_doc_id")) == d;
      assert row in all;
      MatchMember(rows, site, MarkerCondition(site), row);
    }
    if Deleted(lib, site, d, rows) {
      var s :| s in rows && IsMarker(s, site) && StrOf(lib, Field(s.row, "deleted_doc_id")) == d;
      MatchMember(rows, site, MarkerCondition(site), s.row);
    }
  }

  lemma ReadableSucceeds(lib: Library, site: Site, g: Graph, faults: Faults, rows: seq<StoredRow>)
    requires forall p :: !faults.pass2(p)
    ensures Cleanup(lib, site, g, true, faults, rows).1
  {
    var read := Read(lib, site, faults, rows);
    PagesComplete(AllMatches(rows, site, AffectedCondition(site, g, read)), PAGE_SIZE, faults.pass2, 0);
  }

  /** Without read failures the cleanup succeeds and no row of the graph names a document of a marker. */
  lemma NoGhostsLeft(lib: Library, site: Site, d: string, g: Graph, faults: Faults, rows: seq<StoredRow>)
    requires UniqueKeys(rows) && OwnIds(rows, site) && AllReadable(faults)
    requires Deleted(lib, site, d, rows)
    ensures var r := Cleanup(lib, site, g, true, faults, rows);
            r.1 && NoGhosts(site, d, g, r.0)
  {
    ReadableSucceeds(lib, site, g, faults, rows);
    ReadMeaning(lib, site, d, faults, rows);
    SuccessExactly(lib, site, d, g, faults, rows);
  }

  lemma MarkerIgnoresDocs(s: StoredRow, t: StoredRow, site: Site)
    requires s.key == t.key
    requires forall name :: name != "doc_ids_kwd" ==> Field(s.row, name) == Field(t.row, name)
    ensures IsMarker(s, site) <==> IsMarker(t, site)
  {
    var condition := MarkerCondition(site);
    forall name | name in condition ensures Field(s.row, name) == Field(t.row, name) {
      assert name != "doc_ids_kwd";
    }
  }

  /** Cleaning makes no marker, and keeps every row in the shape the program gives it. */
  lemma CleanKeepsShape(lib: Library, rows: seq<StoredRow>, site: Site, d: string, g: Graph, deleted: seq<string>)
    requires UniqueKeys(rows) && OwnIds(rows, site)
    ensures var clean := CleanRows(rows, site, g, deleted);
            && UniqueKeys(clean) && OwnIds(clean, site)
            && (Deleted(lib, site, d, clean) ==> Deleted(lib, site, d, rows))
  {
    var clean := CleanRows(rows, site, g, deleted);
    CleanUnique(rows, site, g, deleted);
    forall t | t in clean
      ensures At(t, site) ==> OwnId(t)
      ensures IsMarker(t, site) ==>
                exists s :: s in rows && IsMarker(s, site)
                            && Field(s.row, "deleted_doc_id") == Field(t.row, "deleted_doc_id")
    {
      var s := CleanOrigin(rows, site, g, deleted, t);
      ShrunkFields(s, site, g, deleted);
      MarkerIgnoresDocs(s, t, site);
      assert Field(s.row, "id") == Field(t.row, "id");
      assert Field(s.row, "deleted_doc_id") == Field(t.row, "deleted_doc_id");
    }
  }

  /** A second cleanup, which scans the markers anew, finds nothing left to do. */
  lemma CleanupIdempotent(lib: Library, site: Site, g: Graph, faults: Faults, rows: seq<StoredRow>)
    requires UniqueKeys(rows) && OwnIds(rows, site) && AllReadable(faults)
    ensures var once := Cleanup(lib, site, g, true, faults, rows).0;
            Cleanup(lib, site, g, true, faults, once) == (once, true)
  {
    var once := Cleanup(lib, site, g, true, faults, rows).0;
    var read, again := Read(lib, site, faults, rows), Read(lib, site, faults, once);
    ReadableSucceeds(lib, site, g, faults, rows);
    ReadableSucceeds(lib, site, g, faults, once);
    CleanupIsClean(lib, site, g, faults, rows);
    CleanKeepsShape(lib, rows, site, "", g, read);
    CleanupIsClean(lib, site, g, faults, once);
    forall t | t in once ensures !Affected(t, site, g, again) {
      NothingListed(rows, site, g, read, t);
      ListsMeaning(t.row, read);
      ListsMeaning(t.row, again);
      forall d | d in again ensures d in read {
        ReadMeaning(lib, site, d, faults, once);
        CleanKeepsShape(lib, rows, site, d, g, read);
        ReadMeaning(lib, site, d, faults, rows);
      }
    }
    NothingToClean(once, site, g, again);
  }

  // ----- rows without an identifier to write by -----

  /** The row's `id` is no trimmed string, nor a list that could hold one: no write by identifier reaches it. */
  predicate Unaddressable(s: StoredRow) {
    match Field(s.row, "id")
    case None => true
    case Some(String(id)) => Trim(id) != id
    case Some(Array(_)) => false
    case _ => true
  }

  ghost predicate AllTrimmed(ids: seq<string>) {
    forall id :: id in ids ==> Trim(id) == id
  }

  lemma NotReached(s: StoredRow, site: Site, ids: seq<string>)
    requires Unaddressable(s) && AllTrimmed(ids)
    ensures !Hit(s, site.indexName, site.kbId, IdCondition(ids))
  {
    assert "id" in IdCondition(ids) && IdCondition(ids)["id"] == AnyOf(ids);
    forall i | 0 <= i < |Strings(ids)| ensures Strings(ids)[i] == String(ids[i]) && ids[i] in ids { }
  }

  lemma IdTrimmed(lib: Library, row: Row)
    ensures Trim(IdOf(lib, row)) == IdOf(lib, row)
  {
    TrimTrimmed(IdOf(lib, row));
  }

  lemma {:induction false} DoomedTrimmed(lib: Library, found: seq<Row>, deleted: seq<string>)
    ensures AllTrimmed(Doomed(lib, found, deleted))
  {
    if found != [] {
      DoomedTrimmed(lib, found[..|found| - 1], deleted);
      IdTrimmed(lib, found[|found| - 1]);
    }
  }

  lemma {:induction false} ResizedStays(lib: Library, rows: seq<StoredRow>, site: Site, found: seq<Row>,
                                        deleted: seq<string>, s: StoredRow)
    requires s in rows && Unaddressable(s)
    ensures s in Resized(rows, site, Diminished(lib, found, deleted))
  {
    if found != [] {
      var front, last := found[..|found| - 1], found[|found| - 1];
      ResizedStays(lib, rows, site, front, deleted, s);
      if RowShrinks(last, deleted) {
        var before, u := Resized(rows, site, Diminished(lib, front, deleted)),
                         Shrink(IdOf(lib, last), Remaining(last, deleted));
        assert Diminished(lib, found, deleted) == Diminished(lib, front, deleted) + [u];
        IdTrimmed(lib, last);
        NotReached(s, site, [u.id]);
        var i :| 0 <= i < |before| && before[i] == s;
        assert Resized(rows, site, Diminished(lib, found, deleted))[i] == s;
      } else {
        assert Diminished(lib, found, deleted) == Diminished(lib, front, deleted);
      }
    }
  }

  /** Such a row stays as it is, whatever the markers name and whatever the cleanup reports: the identifiers the
      second pass writes by are trimmed. */
  lemma UnaddressableStays(lib: Library, site: Site, g: Graph, faults: Faults, rows: seq<StoredRow>, s: StoredRow)
    requires s in rows && Unaddressable(s)
    ensures s in Cleanup(lib, site, g, true, faults, rows).0
  {
    var read := Read(lib, site, faults, rows);
    var found := AllMatches(rows, site, AffectedCondition(site, g, read));
    var ids := Doomed(lib, found, read);
    DoomedTrimmed(lib, found, read);
    NotReached(s, site, ids);
    SelectMember(rows, Missing(site.indexName, site.kbId, IdCondition(ids)), s);
    ResizedStays(lib, Purged(rows, site, ids), site, found, read, s);
  }
}
