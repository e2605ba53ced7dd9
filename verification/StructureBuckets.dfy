/** Distributing scanned rows over hash buckets and merging bucket by bucket
    (src/dataset_structure_merger.rs:1033-1157). */
module StructureBuckets {
  import opened Distinctness
  import opened DocStore
  import opened Grouping
  import opened Json
  import opened StructureMerge
  import opened StructureRows
  import opened Text

  /** Rows of disabled documents and rows older than the floor of an incremental build are passed over. */
  predicate Accepted(lib: Library, disabled: set<string>, floor: Option<real>, row: Row) {
    && StrOf(lib, Field(row, "doc_id")) !in disabled
    && (floor.Some? ==> UnwrapOr(AsReal(lib, Field(row, "create_timestamp_flt")), 0.0) >= floor.value)
  }

  predicate IsRelation(row: Row) {
    StrField(row, "knowledge_graph_kwd") == Some("relation") || "from_entity_kwd" in row
  }

  function RelationInput(lib: Library, disabled: set<string>, floor: Option<real>): Row -> bool {
    row => Accepted(lib, disabled, floor, row) && IsRelation(row)
  }

  function EntityInput(lib: Library, disabled: set<string>, floor: Option<real>): Row -> bool {
    row => Accepted(lib, disabled, floor, row) && !IsRelation(row) && NameKwd(lib, row) != ""
  }

  /** The scanned rows with a property, in order. */
  function Where(rows: seq<Row>, property: Row -> bool): seq<Row> {
    Members(rows, property, true)
  }

  lemma WhereSnoc(rows: seq<Row>, i: nat, property: Row -> bool)
    requires i < |rows|
    ensures Where(rows[..i + 1], property)
         == if property(rows[i]) then Where(rows[..i], property) + [rows[i]] else Where(rows[..i], property)
  {
    assert rows[..i + 1] == rows[..i] + [rows[i]];
    MembersSnoc(rows[..i], rows[i], property, true);
  }

  ghost predicate Distributed(buckets: seq<seq<Row>>, rows: seq<Row>, bucket: Row -> int) {
    |buckets| == BUCKET_COUNT && forall b :: 0 <= b < BUCKET_COUNT ==> buckets[b] == Members(rows, bucket, b)
  }

  /** One row pushed onto its bucket. */
  method PushRow(buckets: seq<seq<Row>>, ghost before: seq<Row>, row: Row, bucket: Row -> int)
    returns (buckets': seq<seq<Row>>)
    requires Distributed(buckets, before, bucket) && 0 <= bucket(row) < BUCKET_COUNT
    ensures Distributed(buckets', before + [row], bucket)
  {
    var i := bucket(row);
    buckets' := buckets[i := buckets[i] + [row]];
    forall b | 0 <= b < BUCKET_COUNT ensures buckets'[b] == Members(before + [row], bucket, b) {
      MembersSnoc(before, row, bucket, b);
    }
  }

  lemma BucketRange(lib: Library, hash: string -> nat, row: Row)
    ensures 0 <= BucketOfEntity(lib, hash)(row) < BUCKET_COUNT
    ensures 0 <= BucketOfRelation(lib, hash)(row) < BUCKET_COUNT
  {
  }

  ghost predicate DistributedIf(buckets: seq<seq<Row>>, rows: seq<Row>, more: bool, row: Row, bucket: Row -> int) {
    Distributed(buckets, if more then rows + [row] else rows, bucket)
  }

  /** The body of the scan loop: a row goes to one bucket of its kind or is passed over. */
  method RouteRow(lib: Library, hash: string -> nat, disabled: set<string>, floor: Option<real>, row: Row,
                  buckets: seq<seq<Row>>, relBuckets: seq<seq<Row>>, ghost es: seq<Row>, ghost rs: seq<Row>)
    returns (buckets': seq<seq<Row>>, relBuckets': seq<seq<Row>>)
    requires Distributed(buckets, es, BucketOfEntity(lib, hash))
    requires Distributed(relBuckets, rs, BucketOfRelation(lib, hash))
    ensures DistributedIf(buckets', es, EntityInput(lib, disabled, floor)(row), row, BucketOfEntity(lib, hash))
    ensures DistributedIf(relBuckets', rs, RelationInput(lib, disabled, floor)(row), row, BucketOfRelation(lib, hash))
  {
    buckets', relBuckets' := buckets, relBuckets;
    BucketRange(lib, hash, row);
    if Accepted(lib, disabled, floor, row) {
      if IsRelation(row) {
        relBuckets' := PushRow(relBuckets, rs, row, BucketOfRelation(lib, hash));
      } else if NameKwd(lib, row) != "" {
        buckets' := PushRow(buckets, es, row, BucketOfEntity(lib, hash));
      }
    }
  }

  /** The scan loop of `do_build`. */
  method Distribute(lib: Library, hash: string -> nat, disabled: set<string>, floor: Option<real>, rows: seq<Row>)
    returns (buckets: seq<seq<Row>>, relBuckets: seq<seq<Row>>)
    ensures Distributed(buckets, Where(rows, EntityInput(lib, disabled, floor)), BucketOfEntity(lib, hash))
    ensures Distributed(relBuckets, Where(rows, RelationInput(lib, disabled, floor)), BucketOfRelation(lib, hash))
  {
    buckets, relBuckets := seq(BUCKET_COUNT, _ => []), seq(BUCKET_COUNT, _ => []);
    ghost var entity, relation := EntityInput(lib, disabled, floor), RelationInput(lib, disabled, floor);
    for i := 0 to |rows|
      invariant Distributed(buckets, Where(rows[..i], entity), BucketOfEntity(lib, hash))
      invariant Distributed(relBuckets, Where(rows[..i], relation), BucketOfRelation(lib, hash))
    {
      WhereSnoc(rows, i, entity);
      WhereSnoc(rows, i, relation);
      buckets, relBuckets := RouteRow(lib, hash, disabled, floor, rows[i], buckets, relBuckets,
                                      Where(rows[..i], entity), Where(rows[..i], relation));
    }
    assert rows[..|rows|] == rows;
  }

  /** The merge loops of `do_build`: the rows to insert. Empty buckets are skipped. */
  method MergeBuckets(lib: Library, g: Graph, buckets: seq<seq<Row>>, ghost rows: seq<Row>, ghost bucket: Row -> int)
    returns (out: seq<EntityRow>)
    requires Distributed(buckets, rows, bucket)
    ensures out == Bucketed(rows, KeyOfEntity(lib), MergeEntity(lib, g), bucket, BUCKET_COUNT)
  {
    out := [];
    for i := 0 to |buckets|
      invariant out == Bucketed(rows, KeyOfEntity(lib), MergeEntity(lib, g), bucket, i)
    {
      if buckets[i] != [] {
        var merged := MergeBucket(lib, g, buckets[i]);
        out := out + merged;
      } else {
        assert Direct([], KeyOfEntity(lib), MergeEntity(lib, g)) == [];
      }
    }
  }

  method MergeRelationBuckets(lib: Library, g: Graph, buckets: seq<seq<Row>>, ghost rows: seq<Row>,
                              ghost bucket: Row -> int)
    returns (out: seq<RelationRow>)
    requires Distributed(buckets, rows, bucket)
    ensures out == Bucketed(rows, KeyOfRelation(lib), MergeRelation(lib, g), bucket, BUCKET_COUNT)
  {
    out := [];
    for i := 0 to |buckets|
      invariant out == Bucketed(rows, KeyOfRelation(lib), MergeRelation(lib, g), bucket, i)
    {
      if buckets[i] != [] {
        var merged := MergeRelations(lib, g, buckets[i]);
        out := out + merged;
      } else {
        assert Direct([], KeyOfRelation(lib), MergeRelation(lib, g)) == [];
      }
    }
  }

  // ----- bucketed equals direct -----

  function MergedEntities(lib: Library, g: Graph, hash: string -> nat, rows: seq<Row>): seq<EntityRow> {
    Bucketed(rows, KeyOfEntity(lib), MergeEntity(lib, g), BucketOfEntity(lib, hash), BUCKET_COUNT)
  }

  function MergedRelations(lib: Library, g: Graph, hash: string -> nat, rows: seq<Row>): seq<RelationRow> {
    Bucketed(rows, KeyOfRelation(lib), MergeRelation(lib, g), BucketOfRelation(lib, hash), BUCKET_COUNT)
  }

  /** For relations the bucketed merge is the direct group-by, up to row order, under every hash function:
      the bucket is computed from the group key alone. */
  lemma RelationBucketsAgree(lib: Library, g: Graph, hash: string -> nat, rows: seq<Row>)
    ensures multiset(MergedRelations(lib, g, hash, rows))
         == multiset(Direct(rows, KeyOfRelation(lib), MergeRelation(lib, g)))
  {
    BucketedIsDirect(rows, KeyOfRelation(lib), MergeRelation(lib, g), BucketOfRelation(lib, hash), BUCKET_COUNT);
  }

  /** For entities it is so exactly when the hash puts no two rows of one group into different buckets. */
  lemma EntityBucketsAgree(lib: Library, g: Graph, hash: string -> nat, rows: seq<Row>)
    ensures multiset(MergedEntities(lib, g, hash, rows))
         == multiset(Direct(rows, KeyOfEntity(lib), MergeEntity(lib, g)))
       <==> NoSplit(rows, KeyOfEntity(lib), BucketOfEntity(lib, hash))
  {
    BucketedIsDirect(rows, KeyOfEntity(lib), MergeEntity(lib, g), BucketOfEntity(lib, hash), BUCKET_COUNT);
  }

  /** Rows of one group carry one `name_kwd`. */
  ghost predicate NamesFollowKeys(lib: Library, rows: seq<Row>) {
    forall r, s :: r in rows && s in rows && KeyOfEntity(lib)(r) == KeyOfEntity(lib)(s)
      ==> NameKwd(lib, r) == NameKwd(lib, s)
  }

  /** Under every hash function at once: exactly when `name_kwd` is a function of the group key. */
  lemma EveryHashAgrees(lib: Library, g: Graph, rows: seq<Row>)
    ensures (forall hash: string -> nat :: multiset(MergedEntities(lib, g, hash, rows))
                                        == multiset(Direct(rows, KeyOfEntity(lib), MergeEntity(lib, g))))
       <==> NamesFollowKeys(lib, rows)
  {
    if NamesFollowKeys(lib, rows) {
      forall hash: string -> nat
        ensures multiset(MergedEntities(lib, g, hash, rows))
             == multiset(Direct(rows, KeyOfEntity(lib), MergeEntity(lib, g)))
      {
        OneNameOneBucket(lib, rows, hash);
        EntityBucketsAgree(lib, g, hash, rows);
      }
    } else {
      var hash := SplittingHash(lib, rows);
      EntityBucketsAgree(lib, g, hash, rows);
    }
  }

  lemma OneNameOneBucket(lib: Library, rows: seq<Row>, hash: string -> nat)
    requires NamesFollowKeys(lib, rows)
    ensures NoSplit(rows, KeyOfEntity(lib), BucketOfEntity(lib, hash))
  {
  }

  lemma SeparatedNames(a: string, b: string)
    requires a != b
    ensures BucketId(Separating(a), a) != BucketId(Separating(a), b)
  {
  }

  lemma NamedBucket(lib: Library, hash: string -> nat, row: Row)
    ensures BucketOfEntity(lib, hash)(row) == BucketId(hash, NameKwd(lib, row))
  {
  }

  lemma SplittingHash(lib: Library, rows: seq<Row>) returns (hash: string -> nat)
    requires !NamesFollowKeys(lib, rows)
    ensures !NoSplit(rows, KeyOfEntity(lib), BucketOfEntity(lib, hash))
  {
    var r, s :| r in rows && s in rows
                && KeyOfEntity(lib)(r) == KeyOfEntity(lib)(s)
                && NameKwd(lib, r) != NameKwd(lib, s);
    hash := Separating(NameKwd(lib, r));
    SeparatedNames(NameKwd(lib, r), NameKwd(lib, s));
    NamedBucket(lib, hash, r);
    NamedBucket(lib, hash, s);
  }

  function Separating(name: string): string -> nat {
    s => if s == name then 0 else 1
  }

  /** An entity row with this payload, filed under this name. */
  function Filed(payload: string, name: string): Row {
    map["content_with_weight" := String(payload), "name_kwd" := String(name)]
  }

  lemma FiledRow(lib: Library, payload: string, name: string)
    requires Trim(name) == name
    ensures NameKwd(lib, Filed(payload, name)) == name
    ensures Field(Filed(payload, name), "content_with_weight") == Some(String(payload))
  {
  }

  lemma SamePayloadSameKey(lib: Library, r: Row, s: Row)
    requires Field(r, "content_with_weight") == Field(s, "content_with_weight")
    ensures KeyOfEntity(lib)(r) == KeyOfEntity(lib)(s)
  {
  }

  /** Two rows of one payload filed under "a" and "b" are one entity, whatever the payload; a hash that keeps the
      names apart makes the build write it twice. */
  lemma SplitEntity(lib: Library, g: Graph, payload: string)
    ensures var rows := [Filed(payload, "a"), Filed(payload, "b")];
            var merged := MergedEntities(lib, g, Separating("a"), rows);
            var direct := Direct(rows, KeyOfEntity(lib), MergeEntity(lib, g));
            |merged| > |direct| && multiset(merged) != multiset(direct)
  {
    var r, s := Filed(payload, "a"), Filed(payload, "b");
    TrimTrimmed("a");
    TrimTrimmed("b");
    FiledRow(lib, payload, "a");
    FiledRow(lib, payload, "b");
    SamePayloadSameKey(lib, r, s);
    TwoBuckets(lib, g, Separating("a"), r, s);
  }

  lemma TwoBuckets(lib: Library, g: Graph, hash: string -> nat, r: Row, s: Row)
    requires KeyOfEntity(lib)(r) == KeyOfEntity(lib)(s)
    requires BucketId(hash, NameKwd(lib, r)) != BucketId(hash, NameKwd(lib, s))
    ensures var merged := MergedEntities(lib, g, hash, [r, s]);
            var direct := Direct([r, s], KeyOfEntity(lib), MergeEntity(lib, g));
            |merged| > |direct| && multiset(merged) != multiset(direct)
  {
    NamedBucket(lib, hash, r);
    NamedBucket(lib, hash, s);
    assert r in [r, s] && s in [r, s];
    EntityBucketsAgree(lib, g, hash, [r, s]);
    BucketedIsDirect([r, s], KeyOfEntity(lib), MergeEntity(lib, g), BucketOfEntity(lib, hash), BUCKET_COUNT);
  }

  /** In particular when `name_kwd` is the lower-cased payload name. */
  lemma NamedEntitiesAgree(lib: Library, g: Graph, hash: string -> nat, rows: seq<Row>)
    requires forall r :: r in rows ==> NameKwd(lib, r) == KeyOfEntity(lib)(r).0
    ensures multiset(MergedEntities(lib, g, hash, rows))
         == multiset(Direct(rows, KeyOfEntity(lib), MergeEntity(lib, g)))
  {
    assert NamesFollowKeys(lib, rows);
    EveryHashAgrees(lib, g, rows);
  }

  // ----- what a merged row holds -----

  function MentionCount(): EntityRow -> int { (row: EntityRow) => row.mentionCount }

  /** Mentions are conserved, split groups or not. */
  lemma MentionsConserved(lib: Library, g: Graph, hash: string -> nat, rows: seq<Row>)
    ensures Total(MergedEntities(lib, g, hash, rows), MentionCount()) == Total(rows, MentionsOf(lib))
  {
    BucketedTotal(rows, KeyOfEntity(lib), MergeEntity(lib, g), MentionsOf(lib), MentionCount(),
                  BucketOfEntity(lib, hash), BUCKET_COUNT);
  }

  lemma {:induction false} AllMember(rows: seq<Row>, listed: Row -> seq<string>, t: string)
    ensures t in All(rows, listed) <==> exists r :: r in rows && t in listed(r)
  {
    if rows != [] {
      var front, last := rows[..|rows| - 1], rows[|rows| - 1];
      AllMember(front, listed, t);
      assert rows == front + [last];
      if t in listed(last) { assert last in rows; }
    }
  }

  lemma FirstSeenMember(s: seq<string>, t: string)
    ensures t in FirstSeen(s) <==> t in s
  {
    KeysMember(s, Itself(), t);
    if t in s { assert HasKey(s, Itself(), t); }
  }

  /** `at[i]` is where the `i`-th text was first seen. */
  ghost predicate FirstPositions(s: seq<string>, r: seq<string>, at: seq<nat>) {
    && |at| == |r|
    && (forall i :: 0 <= i < |at| ==> at[i] < |s| && s[at[i]] == r[i] && r[i] !in s[..at[i]])
    && (forall i, j :: 0 <= i < j < |at| ==> at[i] < at[j])
  }

  /** The collected list keeps the order of first occurrences. */
  lemma {:induction false} FirstSeenOrder(s: seq<string>) returns (at: seq<nat>)
    ensures FirstPositions(s, FirstSeen(s), at)
  {
    at := [];
    if s != [] {
      var n := |s| - 1;
      var front := s[..n];
      at := FirstSeenOrder(front);
      forall i | 0 <= i < |at| ensures s[at[i]] == front[at[i]] && s[..at[i]] == front[..at[i]] { }
      if s[n] !in FirstSeen(front) {
        FirstSeenMember(front, s[n]);
        at := at + [n];
      }
    }
  }

  lemma DocListed(lib: Library, r: Row, doc: string)
    ensures doc in DocsOf(lib)(r) <==> doc != "" && StrOf(lib, Field(r, "doc_id")) == doc
  {
  }

  /** The documents of a merged row are those of its group, each once. */
  lemma DocsAreUnion(lib: Library, rows: seq<Row>, doc: string)
    ensures var docs := FirstSeen(All(rows, DocsOf(lib)));
            && Distinct(docs)
            && (doc in docs <==> doc != "" && exists r :: r in rows && StrOf(lib, Field(r, "doc_id")) == doc)
  {
    var listed := DocsOf(lib);
    KeysDistinct(All(rows, listed), Itself());
    FirstSeenMember(All(rows, listed), doc);
    AllMember(rows, listed, doc);
    forall r | r in rows ensures doc in listed(r) <==> doc != "" && StrOf(lib, Field(r, "doc_id")) == doc {
      DocListed(lib, r, doc);
    }
  }

  /** Every merged row has the duplicate-free first-seen lists of exactly the rows of its key. */
  lemma MergedRowOfGroup(lib: Library, g: Graph, rows: seq<Row>, i: nat)
    requires i < |Direct(rows, KeyOfEntity(lib), MergeEntity(lib, g))|
    ensures var merged := Direct(rows, KeyOfEntity(lib), MergeEntity(lib, g))[i];
            var group := Members(rows, KeyOfEntity(lib), (merged.nameKwd, merged.entityType));
            && group != []
            && merged.mentionCount == Total(group, MentionsOf(lib))
            && merged.chunks == FirstSeen(All(group, ChunksOf(lib))) && Distinct(merged.chunks)
            && merged.docs == FirstSeen(All(group, DocsOf(lib))) && Distinct(merged.docs)
  {
    var k := Keys(rows, KeyOfEntity(lib))[i];
    var group := Members(rows, KeyOfEntity(lib), k);
    KeysMember(rows, KeyOfEntity(lib), k);
    var r :| r in rows && KeyOfEntity(lib)(r) == k;
    MembersMember(rows, KeyOfEntity(lib), k, r);
    KeysDistinct(All(group, ChunksOf(lib)), Itself());
    KeysDistinct(All(group, DocsOf(lib)), Itself());
  }
}
