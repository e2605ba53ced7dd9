/** The in-memory document store (src/doc_store.rs): rows kept in a vector, replaced by
    identity, filtered by conjunctive conditions, and read back in sorted pages. */
module DocStore {
  import opened Distinctness
  import opened Json
  import opened Text

  type Row = map<string, Value>
  type Condition = map<string, Value>

  datatype Key = Key(indexName: string, datasetId: string, id: string)
  datatype StoredRow = StoredRow(key: Key, row: Row)

  // ----- conditions -----

  function Field(row: Row, name: string): Option<Value> {
    if name in row then Some(row[name]) else None
  }

  /** `value_matches`: a wanted array asks for membership, anything else for equality. */
  predicate ValueMatches(field: Option<Value>, wanted: Value) {
    match wanted
    case Array(want) => (
      match field
      case None => false
      case Some(Array(have)) => exists v :: v in have && v in want
      case Some(have) => have in want)
    case _ => field == Some(wanted)
  }

  predicate ConditionMatches(row: Row, condition: Condition) {
    forall name :: name in condition ==> ValueMatches(Field(row, name), condition[name])
  }

  predicate Hit(stored: StoredRow, indexName: string, datasetId: string, condition: Condition) {
    && stored.key.indexName == indexName
    && stored.key.datasetId == datasetId
    && ConditionMatches(stored.row, condition)
  }

  function Hitting(indexName: string, datasetId: string, condition: Condition): StoredRow -> bool {
    s => Hit(s, indexName, datasetId, condition)
  }

  function Missing(indexName: string, datasetId: string, condition: Condition): StoredRow -> bool {
    s => !Hit(s, indexName, datasetId, condition)
  }

  function OtherThan(key: Key): StoredRow -> bool {
    (s: StoredRow) => s.key != key
  }

  // ----- the row vector -----

  /** `retain` and `filter`. */
  function Select(rows: seq<StoredRow>, keep: StoredRow -> bool): (r: seq<StoredRow>) {
    if rows == [] then []
    else
      var last := rows[|rows| - 1];
      Select(rows[..|rows| - 1], keep) + if keep(last) then [last] else []
  }

  /** One inserted row takes the place of the row with its key. */
  function Push(rows: seq<StoredRow>, stored: StoredRow): seq<StoredRow> {
    Select(rows, OtherThan(stored.key)) + [stored]
  }

  /** `row_id`, with the random identifier for a row without one as an input. */
  function RowId(row: Row, generated: string): string {
    match Field(row, "id")
    case Some(String(id)) => id
    case _ => generated
  }

  function Entry(row: Row, generated: string, indexName: string, datasetId: string): StoredRow {
    StoredRow(Key(indexName, datasetId, RowId(row, generated)), row)
  }

  function Inserted(rows: seq<StoredRow>, batch: seq<Row>, generated: seq<string>,
                    indexName: string, datasetId: string): seq<StoredRow>
    requires |generated| == |batch|
  {
    if batch == [] then rows
    else
      var n := |batch| - 1;
      Push(Inserted(rows, batch[..n], generated[..n], indexName, datasetId),
           Entry(batch[n], generated[n], indexName, datasetId))
  }

  function Patched(stored: StoredRow, hit: StoredRow -> bool, patch: Row): StoredRow {
    if hit(stored) then stored.(row := stored.row + patch) else stored
  }

  function Patching(hit: StoredRow -> bool, patch: Row): StoredRow -> StoredRow {
    s => Patched(s, hit, patch)
  }

  function Updated(rows: seq<StoredRow>, hit: StoredRow -> bool, patch: Row): (r: seq<StoredRow>)
    ensures |r| == |rows|
  {
    seq(|rows|, i requires 0 <= i < |rows| => Patched(rows[i], hit, patch))
  }

  /** The row `get` finds; an empty list of datasets means all of them. */
  predicate Wanted(stored: StoredRow, id: string, indexName: string, datasetIds: seq<string>) {
    && stored.key.id == id
    && stored.key.indexName == indexName
    && (datasetIds == [] || stored.key.datasetId in datasetIds)
  }

  // ----- search -----

  datatype Query = Query(condition: Condition, datasetIds: seq<string>, indexNames: seq<string>,
                         hasMatch: bool, offset: nat, limit: nat)

  /** The scoring of a row against the match expressions and rank features of a query. */
  type Score = StoredRow -> real

  predicate Admits(q: Query, score: Score, stored: StoredRow) {
    && (q.datasetIds == [] || stored.key.datasetId in q.datasetIds)
    && (q.indexNames == [] || stored.key.indexName in q.indexNames)
    && ConditionMatches(stored.row, q.condition)
    && (q.hasMatch ==> score(stored) > 0.0)
  }

  function Admitting(q: Query, score: Score): StoredRow -> bool {
    s => Admits(q, score, s)
  }

  /** The order of Rust strings: lexicographic by code point. */
  predicate Below(a: string, b: string) {
    b != [] && (a == [] || a[0] < b[0] || (a[0] == b[0] && Below(a[1..], b[1..])))
  }

  /** The order of `finalize_search`: score descending, then identifier. */
  predicate Precedes(score: Score, x: StoredRow, y: StoredRow) {
    score(x) > score(y) || (score(x) == score(y) && !Below(y.key.id, x.key.id))
  }

  function Place(score: Score, x: StoredRow, sorted: seq<StoredRow>): (r: seq<StoredRow>) {
    if sorted == [] || Precedes(score, x, sorted[0]) then [x] + sorted
    else [sorted[0]] + Place(score, x, sorted[1..])
  }

  /** The stable sort of `finalize_search`. */
  function Sorted(score: Score, rows: seq<StoredRow>): (r: seq<StoredRow>) {
    if rows == [] then [] else Place(score, rows[0], Sorted(score, rows[1..]))
  }

  function Matches(rows: seq<StoredRow>, q: Query, score: Score): seq<StoredRow> {
    Sorted(score, Select(rows, Admitting(q, score)))
  }

  /** `skip(offset).take(limit)`. */
  function Window<T>(all: seq<T>, offset: nat, limit: nat): seq<T> {
    if offset >= |all| then []
    else if limit >= |all| - offset then all[offset..]
    else all[offset..offset + limit]
  }

  function Rows(stored: seq<StoredRow>): (r: seq<Row>)
    ensures |r| == |stored|
    ensures forall i :: 0 <= i < |r| ==> r[i] == stored[i].row
  {
    seq(|stored|, i requires 0 <= i < |stored| => stored[i].row)
  }

  function Found(rows: seq<StoredRow>, q: Query, score: Score): seq<Row> {
    var all := Matches(rows, q, score);
    Rows(Window(all, q.offset, if q.limit == 0 then |all| else q.limit))
  }

  // ----- the store -----

  class MemoryDocStore {
    var rows: seq<StoredRow>
    var indexes: set<(string, string)>

    constructor ()
      ensures rows == [] && indexes == {}
    {
      rows := [];
      indexes := {};
    }

    method CreateIdx(indexName: string, datasetId: string)
      modifies this`indexes
      ensures indexes == old(indexes) + {(indexName, datasetId)}
    {
      indexes := indexes + {(indexName, datasetId)};
    }

    method DeleteIdx(indexName: string, datasetId: string)
      modifies this`indexes
      ensures indexes == old(indexes) - {(indexName, datasetId)}
    {
      indexes := indexes - {(indexName, datasetId)};
    }

    method Insert(batch: seq<Row>, generated: seq<string>, indexName: string, datasetId: string)
      returns (ids: seq<string>)
      requires |generated| == |batch|
      modifies this`rows
      ensures rows == Inserted(old(rows), batch, generated, indexName, datasetId)
      ensures |ids| == |batch| && forall i :: 0 <= i < |ids| ==> ids[i] == RowId(batch[i], generated[i])
    {
      ids := [];
      for i := 0 to |batch|
        invariant rows == Inserted(old(rows), batch[..i], generated[..i], indexName, datasetId)
        invariant |ids| == i && forall j :: 0 <= j < i ==> ids[j] == RowId(batch[j], generated[j])
      {
        var id := RowId(batch[i], generated[i]);
        var key := Key(indexName, datasetId, id);
        rows := Select(rows, OtherThan(key));
        rows := rows + [StoredRow(key, batch[i])];
        ids := ids + [id];
        assert batch[..i + 1][..i] == batch[..i] && generated[..i + 1][..i] == generated[..i];
      }
      assert batch[..|batch|] == batch && generated[..|batch|] == generated;
    }

    method Get(id: string, indexName: string, datasetIds: seq<string>) returns (row: Option<Row>)
      ensures row.None? ==> forall s :: s in rows ==> !Wanted(s, id, indexName, datasetIds)
      ensures row.Some? ==> exists s :: s in rows && Wanted(s, id, indexName, datasetIds) && s.row == row.value
    {
      for i := 0 to |rows|
        invariant forall j :: 0 <= j < i ==> !Wanted(rows[j], id, indexName, datasetIds)
      {
        if Wanted(rows[i], id, indexName, datasetIds) {
          return Some(rows[i].row);
        }
      }
      return None;
    }

    method Update(condition: Condition, patch: Row, indexName: string, datasetId: string) returns (changed: bool)
      modifies this`rows
      ensures rows == Updated(old(rows), Hitting(indexName, datasetId, condition), patch)
      ensures changed <==> exists s :: s in old(rows) && Hit(s, indexName, datasetId, condition)
    {
      changed := false;
      ghost var hit := Hitting(indexName, datasetId, condition);
      for i := 0 to |rows|
        invariant |rows| == |old(rows)|
        invariant forall j :: 0 <= j < i ==> rows[j] == Patched(old(rows)[j], hit, patch)
        invariant forall j :: i <= j < |rows| ==> rows[j] == old(rows)[j]
        invariant changed <==> exists j :: 0 <= j < i && Hit(old(rows)[j], indexName, datasetId, condition)
      {
        if Hit(rows[i], indexName, datasetId, condition) {
          rows := rows[i := rows[i].(row := rows[i].row + patch)];
          changed := true;
        }
      }
    }

    method Delete(condition: Condition, indexName: string, datasetId: string) returns (count: int)
      modifies this`rows
      ensures rows == Select(old(rows), Missing(indexName, datasetId, condition))
      ensures count == |old(rows)| - |rows|
    {
      var before := |rows|;
      rows := Select(rows, Missing(indexName, datasetId, condition));
      count := before - |rows|;
    }

    method Search(q: Query, score: Score) returns (total: nat, docs: seq<Row>)
      ensures total == |Matches(rows, q, score)|
      ensures docs == Found(rows, q, score)
    {
      var scored := Matches(rows, q, score);
      total := |scored|;
      docs := Rows(Window(scored, q.offset, if q.limit == 0 then |scored| else q.limit));
    }
  }

  // ----- the store is a map -----

  ghost predicate UniqueKeys(rows: seq<StoredRow>) {
    forall i, j :: 0 <= i < j < |rows| ==> rows[i].key != rows[j].key
  }

  /** The map the row vector stands for. */
  ghost function View(rows: seq<StoredRow>): map<Key, Row>
    requires UniqueKeys(rows)
  {
    map s | s in rows :: s.key := s.row
  }

  lemma {:induction false} SelectMember(rows: seq<StoredRow>, keep: StoredRow -> bool, s: StoredRow)
    ensures s in Select(rows, keep) <==> s in rows && keep(s)
  {
    if rows != [] {
      SelectMember(rows[..|rows| - 1], keep, s);
      assert rows == rows[..|rows| - 1] + [rows[|rows| - 1]];
    }
  }

  lemma {:induction false} SelectUnique(rows: seq<StoredRow>, keep: StoredRow -> bool)
    requires UniqueKeys(rows)
    ensures UniqueKeys(Select(rows, keep))
  {
    if rows != [] {
      var front, last := rows[..|rows| - 1], rows[|rows| - 1];
      SelectUnique(front, keep);
      forall s | s in Select(front, keep) ensures s.key != last.key { SelectMember(front, keep, s); }
    }
  }

  lemma PushUnique(rows: seq<StoredRow>, stored: StoredRow)
    requires UniqueKeys(rows)
    ensures UniqueKeys(Push(rows, stored))
  {
    var others := Select(rows, OtherThan(stored.key));
    SelectUnique(rows, OtherThan(stored.key));
    forall s | s in others ensures s.key != stored.key { SelectMember(rows, OtherThan(stored.key), s); }
  }

  /** Inserting is map update; no other key changes. */
  lemma PushIsMapUpdate(rows: seq<StoredRow>, stored: StoredRow)
    requires UniqueKeys(rows)
    ensures UniqueKeys(Push(rows, stored))
    ensures View(Push(rows, stored)) == View(rows)[stored.key := stored.row]
  {
    PushUnique(rows, stored);
    forall s ensures s in Push(rows, stored) <==> s == stored || (s in rows && s.key != stored.key) {
      SelectMember(rows, OtherThan(stored.key), s);
    }
  }

  ghost function MapInserted(m: map<Key, Row>, batch: seq<Row>, generated: seq<string>,
                             indexName: string, datasetId: string): map<Key, Row>
    requires |generated| == |batch|
  {
    if batch == [] then m
    else
      var n := |batch| - 1;
      var e := Entry(batch[n], generated[n], indexName, datasetId);
      MapInserted(m, batch[..n], generated[..n], indexName, datasetId)[e.key := e.row]
  }

  /** A batch is inserted row by row, the later of two rows with one identifier winning. */
  lemma {:induction false} InsertRefines(rows: seq<StoredRow>, batch: seq<Row>, generated: seq<string>,
                                         indexName: string, datasetId: string)
    requires |generated| == |batch| && UniqueKeys(rows)
    ensures var r := Inserted(rows, batch, generated, indexName, datasetId);
            UniqueKeys(r) && View(r) == MapInserted(View(rows), batch, generated, indexName, datasetId)
  {
    if batch != [] {
      var n := |batch| - 1;
      InsertRefines(rows, batch[..n], generated[..n], indexName, datasetId);
      PushIsMapUpdate(Inserted(rows, batch[..n], generated[..n], indexName, datasetId),
                      Entry(batch[n], generated[n], indexName, datasetId));
    }
  }

  /** Deleting keeps exactly the entries that do not match. */
  lemma DeleteRefines(rows: seq<StoredRow>, keep: StoredRow -> bool)
    requires UniqueKeys(rows)
    ensures UniqueKeys(Select(rows, keep))
    ensures View(Select(rows, keep))
         == map k | k in View(rows) && keep(StoredRow(k, View(rows)[k])) :: View(rows)[k]
  {
    SelectUnique(rows, keep);
    forall s ensures s in Select(rows, keep) <==> s in rows && keep(s) { SelectMember(rows, keep, s); }
    forall s | s in rows ensures s == StoredRow(s.key, View(rows)[s.key]) { }
  }

  ghost predicate KeepsKeys(f: StoredRow -> StoredRow) {
    forall s :: f(s).key == s.key
  }

  ghost predicate Image(rows: seq<StoredRow>, f: StoredRow -> StoredRow, r: seq<StoredRow>) {
    |r| == |rows| && forall i :: 0 <= i < |r| ==> r[i] == f(rows[i])
  }

  lemma ImageUnique(rows: seq<StoredRow>, f: StoredRow -> StoredRow, r: seq<StoredRow>)
    requires UniqueKeys(rows) && KeepsKeys(f) && Image(rows, f, r)
    ensures UniqueKeys(r)
  {
    forall i | 0 <= i < |r| ensures r[i].key == rows[i].key { }
  }

  lemma ImageView(rows: seq<StoredRow>, f: StoredRow -> StoredRow, r: seq<StoredRow>)
    requires UniqueKeys(rows) && UniqueKeys(r) && KeepsKeys(f) && Image(rows, f, r)
    ensures View(r) == map k | k in View(rows) :: f(StoredRow(k, View(rows)[k])).row
  {
    var m, after := View(rows), View(r);
    forall k | k in m ensures k in after && after[k] == f(StoredRow(k, m[k])).row {
      var i :| 0 <= i < |rows| && rows[i] == StoredRow(k, m[k]);
      assert r[i] in r && r[i].key == k;
    }
    forall k | k in after ensures k in m {
      var i :| 0 <= i < |r| && r[i] == StoredRow(k, after[k]);
      assert rows[i] in rows && rows[i].key == k;
    }
  }

  /** Updating merges the new fields into exactly the matching entries and keeps every key. */
  lemma UpdateRefines(rows: seq<StoredRow>, hit: StoredRow -> bool, patch: Row)
    requires UniqueKeys(rows)
    ensures UniqueKeys(Updated(rows, hit, patch))
    ensures View(Updated(rows, hit, patch))
         == map k | k in View(rows) :: Patching(hit, patch)(StoredRow(k, View(rows)[k])).row
  {
    ImageUnique(rows, Patching(hit, patch), Updated(rows, hit, patch));
    ImageView(rows, Patching(hit, patch), Updated(rows, hit, patch));
  }

  /** Reading one key of one dataset is map lookup. */
  lemma GetRefines(rows: seq<StoredRow>, id: string, indexName: string, datasetId: string, row: Option<Row>)
    requires UniqueKeys(rows)
    requires row.None? ==> forall s :: s in rows ==> !Wanted(s, id, indexName, [datasetId])
    requires row.Some? ==> exists s :: s in rows && Wanted(s, id, indexName, [datasetId]) && s.row == row.value
    ensures var key := Key(indexName, datasetId, id);
            row == if key in View(rows) then Some(View(rows)[key]) else None
  {
    var key := Key(indexName, datasetId, id);
    forall s | s in rows ensures Wanted(s, id, indexName, [datasetId]) <==> s.key == key { }
  }

  // ----- the order of results -----

  lemma {:induction false} BelowTotal(a: string, b: string)
    ensures a == b || Below(a, b) || Below(b, a)
  {
    if a != [] && b != [] && a[0] == b[0] {
      BelowTotal(a[1..], b[1..]);
      assert a == [a[0]] + a[1..] && b == [b[0]] + b[1..];
    }
  }

  lemma {:induction false} BelowTransitive(a: string, b: string, c: string)
    requires Below(a, b) && Below(b, c)
    ensures Below(a, c)
  {
    if a != [] && a[0] == b[0] && b[0] == c[0] {
      BelowTransitive(a[1..], b[1..], c[1..]);
    }
  }

  lemma {:induction false} BelowAsymmetric(a: string, b: string)
    requires Below(a, b)
    ensures !Below(b, a)
  {
    if a != [] && a[0] == b[0] {
      BelowAsymmetric(a[1..], b[1..]);
    }
  }

  lemma PrecedesTransitive(score: Score, x: StoredRow, y: StoredRow, z: StoredRow)
    requires Precedes(score, x, y) && Precedes(score, y, z)
    ensures Precedes(score, x, z)
  {
    if score(x) == score(z) && Below(z.key.id, x.key.id) {
      BelowTotal(x.key.id, y.key.id);
      if Below(x.key.id, y.key.id) { BelowTransitive(z.key.id, x.key.id, y.key.id); }
    }
  }

  ghost predicate InOrder(score: Score, rows: seq<StoredRow>) {
    forall i, j :: 0 <= i < j < |rows| ==> Precedes(score, rows[i], rows[j])
  }

  lemma {:induction false} PlaceMember(score: Score, x: StoredRow, sorted: seq<StoredRow>)
    ensures multiset(Place(score, x, sorted)) == multiset(sorted) + multiset{x}
  {
    if sorted != [] && !Precedes(score, x, sorted[0]) {
      PlaceMember(score, x, sorted[1..]);
      assert sorted == [sorted[0]] + sorted[1..];
    }
  }

  lemma {:induction false} PlaceInOrder(score: Score, x: StoredRow, sorted: seq<StoredRow>)
    requires InOrder(score, sorted)
    ensures InOrder(score, Place(score, x, sorted))
  {
    if sorted == [] {
    } else if Precedes(score, x, sorted[0]) {
      forall i | 1 <= i < |sorted| ensures Precedes(score, x, sorted[i]) {
        PrecedesTransitive(score, x, sorted[0], sorted[i]);
      }
    } else {
      BelowTotal(x.key.id, sorted[0].key.id);
      NotBothPrecede(score, x, sorted[0]);
      var rest := Place(score, x, sorted[1..]);
      PlaceInOrder(score, x, sorted[1..]);
      PlaceMember(score, x, sorted[1..]);
      forall s | s in rest ensures Precedes(score, sorted[0], s) {
        assert s in multiset(rest);
        assert s == x || s in sorted[1..];
      }
    }
  }

  lemma NotBothPrecede(score: Score, x: StoredRow, y: StoredRow)
    requires !Precedes(score, x, y)
    ensures Precedes(score, y, x)
  {
    if Below(y.key.id, x.key.id) { BelowAsymmetric(y.key.id, x.key.id); }
  }

  /** Sorting rearranges the rows and puts them in order. */
  lemma {:induction false} SortedCorrect(score: Score, rows: seq<StoredRow>)
    ensures multiset(Sorted(score, rows)) == multiset(rows)
    ensures InOrder(score, Sorted(score, rows))
  {
    if rows != [] {
      SortedCorrect(score, rows[1..]);
      PlaceMember(score, rows[0], Sorted(score, rows[1..]));
      PlaceInOrder(score, rows[0], Sorted(score, rows[1..]));
      assert rows == [rows[0]] + rows[1..];
    }
  }

  ghost predicate Ascending(rows: seq<StoredRow>) {
    forall i, j :: 0 <= i < j < |rows| ==> Below(rows[i].key.id, rows[j].key.id)
  }

  /** In one dataset of one index an unscored search lists exactly the matching rows, each once,
      by strictly increasing identifier: the order does not depend on the row vector. */
  lemma MatchesAreComplete(rows: seq<StoredRow>, q: Query, score: Score, indexName: string, datasetId: string)
    requires UniqueKeys(rows)
    requires q.indexNames == [indexName] && q.datasetIds == [datasetId] && !q.hasMatch
    requires forall s :: score(s) == 0.0
    ensures Ascending(Matches(rows, q, score))
    ensures forall s :: s in Matches(rows, q, score) <==> s in rows && Hit(s, indexName, datasetId, q.condition)
  {
    var hits := Select(rows, Admitting(q, score));
    var all := Matches(rows, q, score);
    SelectUnique(rows, Admitting(q, score));
    SortedCorrect(score, hits);
    forall s ensures s in all <==> s in rows && Hit(s, indexName, datasetId, q.condition) {
      SelectMember(rows, Admitting(q, score), s);
      assert s in all <==> s in multiset(all);
      assert s in hits <==> s in multiset(hits);
    }
    UniqueDistinct(hits);
    SameMultisetDistinct(hits, all);
    forall i, j | 0 <= i < j < |all| ensures Below(all[i].key.id, all[j].key.id) {
      assert all[i] in all && all[j] in all;
      if all[i].key.id == all[j].key.id { SameKey(rows, all[i], all[j]); }
      assert Precedes(score, all[i], all[j]);
      BelowTotal(all[i].key.id, all[j].key.id);
    }
  }

  /** Higher scores come first, and of equal scores the lower identifier. */
  ghost predicate Ranked(score: Score, all: seq<StoredRow>) {
    forall i, j :: 0 <= i < j < |all| ==>
      && score(all[i]) >= score(all[j])
      && (score(all[i]) == score(all[j]) ==> all[i].key.id == all[j].key.id || Earlier(all[i].key.id, all[j].key.id))
  }

  /** Whether a search for documents of these indexes and datasets may return the row. */
  ghost predicate Answers(q: Query, score: Score, s: StoredRow) {
    && (q.indexNames != [] ==> s.key.indexName in q.indexNames)
    && (q.datasetIds != [] ==> s.key.datasetId in q.datasetIds)
    && (forall name :: name in q.condition ==> ValueMatches(Field(s.row, name), q.condition[name]))
    && (q.hasMatch ==> score(s) > 0.0)
  }

  /** Any search ranks exactly the rows that answer it, by falling scores; with match expressions only rows
      of positive score appear. */
  lemma MatchesAreRanked(rows: seq<StoredRow>, q: Query, score: Score)
    ensures Ranked(score, Matches(rows, q, score))
    ensures forall s :: s in Matches(rows, q, score) <==> s in rows && Answers(q, score, s)
  {
    var hits, all := Select(rows, Admitting(q, score)), Matches(rows, q, score);
    SortedCorrect(score, hits);
    forall s ensures s in all <==> s in rows && Answers(q, score, s) {
      SelectMember(rows, Admitting(q, score), s);
      assert s in all <==> s in multiset(all);
      assert s in hits <==> s in multiset(hits);
    }
    forall i, j | 0 <= i < j < |all|
      ensures score(all[i]) >= score(all[j])
      ensures score(all[i]) == score(all[j]) ==> all[i].key.id == all[j].key.id || Earlier(all[i].key.id, all[j].key.id)
    {
      assert Precedes(score, all[i], all[j]);
      BelowTotal(all[i].key.id, all[j].key.id);
      if Below(all[i].key.id, all[j].key.id) { var p := BelowMeaning(all[i].key.id, all[j].key.id); }
    }
  }

  /** The texts agree up to some place, where the first one ends or has the smaller character. */
  ghost predicate Earlier(a: string, b: string) {
    exists p :: DiffersAt(a, b, p)
  }

  ghost predicate DiffersAt(a: string, b: string, p: nat) {
    p <= |a| && p < |b| && a[..p] == b[..p] && (p == |a| || a[p] < b[p])
  }

  lemma {:induction false} BelowMeaning(a: string, b: string) returns (p: nat)
    requires Below(a, b)
    ensures DiffersAt(a, b, p)
  {
    if a != [] && a[0] == b[0] {
      p := BelowMeaning(a[1..], b[1..]);
      p := p + 1;
      assert a[..p] == [a[0]] + a[1..][..p - 1] && b[..p] == [b[0]] + b[1..][..p - 1];
    } else {
      p := 0;
    }
  }

  /** A page holds the results from its offset on, up to its limit; limit 0 means no limit. */
  lemma PageOfMatches(rows: seq<StoredRow>, q: Query, score: Score)
    ensures var all, page := Matches(rows, q, score), Found(rows, q, score);
            var rest := if q.offset <= |all| then |all| - q.offset else 0;
            && |page| == (if q.limit == 0 || rest < q.limit then rest else q.limit)
            && forall i :: 0 <= i < |page| ==> page[i] == all[q.offset + i].row
  {
  }

  /** A row meets a wanted list when its field, or an element of its list, is in it, and any other wanted value when
      its field is that value. */
  lemma WantedValue(field: Option<Value>, wanted: Value)
    ensures !wanted.Array? ==> (ValueMatches(field, wanted) <==> field == Some(wanted))
    ensures wanted.Array? ==> (ValueMatches(field, wanted) <==>
              exists v :: v in wanted.items && field.Some?
                       && if field.value.Array? then v in field.value.items else v == field.value)
  {
  }

  lemma SameKey(rows: seq<StoredRow>, s: StoredRow, t: StoredRow)
    requires UniqueKeys(rows) && s in rows && t in rows && s.key == t.key
    ensures s == t
  {
  }

  lemma UniqueDistinct(rows: seq<StoredRow>)
    requires UniqueKeys(rows)
    ensures Distinct(rows)
  {
  }
}
