/** Merging document-level rows into dataset-level rows
    (src/dataset_structure_merger.rs:460-732, 1033-1157). */
module StructureMerge {
  import opened Distinctness
  import opened DocStore
  import opened Grouping
  import opened Json
  import opened StructureRows
  import opened Text

  /** Which dataset graph is built. */
  datatype Graph = Graph(kbId: string, compileKwd: string, template: Option<string>)

  datatype EntityRow = EntityRow(id: string, nameKwd: string, name: string, entityType: string, description: string,
                                 mentionCount: int, chunks: seq<string>, docs: seq<string>)

  datatype RelationRow = RelationRow(id: string, key: RelationKey, description: string,
                                     chunks: seq<string>, docs: seq<string>)

  /** `dataset_entity_row_id` and `dataset_relation_row_id`. */
  function DatasetRowId(lib: Library, g: Graph, name: string): string {
    lib.stableId([name, g.kbId, g.compileKwd, UnwrapOr(g.template, ""), "dataset"])
  }

  function MergeEntity(lib: Library, g: Graph): (EntityKey, seq<Row>) -> EntityRow {
    (k: EntityKey, rows: seq<Row>) =>
      EntityRow(DatasetRowId(lib, g, k.0),
                k.0,
                UnwrapOr(Longest(FirstSeen(All(rows, NamesOf(lib)))), k.0),
                k.1,
                UnwrapOr(Longest(FirstSeen(All(rows, DescriptionsOf(lib)))), k.0),
                Total(rows, MentionsOf(lib)),
                FirstSeen(All(rows, ChunksOf(lib))),
                FirstSeen(All(rows, DocsOf(lib))))
  }

  function RelationIdText(lib: Library, k: RelationKey): string {
    lib.lower(k.0) + " -> " + lib.lower(k.1) + " -> " + lib.lower(k.2)
  }

  function MergeRelation(lib: Library, g: Graph): (RelationKey, seq<Row>) -> RelationRow {
    (k: RelationKey, rows: seq<Row>) =>
      RelationRow(DatasetRowId(lib, g, RelationIdText(lib, k)),
                  k,
                  UnwrapOr(Longest(FirstSeen(All(rows, RelationDescriptionsOf(lib, k)))), RelationText(k, " ")),
                  FirstSeen(All(rows, ChunksOf(lib))),
                  FirstSeen(All(rows, DocsOf(lib))))
  }

  // ----- the loops -----

  ghost predicate Tracks(seen: set<string>, all: seq<string>) {
    forall t :: t in seen <==> t in all
  }

  /** `all` is the first-seen list of what the rows list, and `seen` is its set of elements. */
  ghost predicate Collected(rows: seq<Row>, listed: Row -> seq<string>, seen: set<string>, all: seq<string>) {
    all == FirstSeen(All(rows, listed)) && Tracks(seen, all)
  }

  lemma FirstSeenSnoc(so: seq<string>, t: string)
    ensures FirstSeen(so + [t]) == if t in FirstSeen(so) then FirstSeen(so) else FirstSeen(so) + [t]
  {
    KeysSnoc(so, t, Itself());
  }

  lemma NextText(so: seq<string>, texts: seq<string>, i: nat)
    requires i < |texts|
    ensures so + texts[..i + 1] == (so + texts[..i]) + [texts[i]]
  {
  }

  /** Texts not seen before are appended and noted as seen. */
  method Remember(texts: seq<string>, seen: set<string>, all: seq<string>, ghost so: seq<string>)
    returns (seen': set<string>, all': seq<string>)
    requires all == FirstSeen(so) && Tracks(seen, all)
    ensures all' == FirstSeen(so + texts) && Tracks(seen', all')
  {
    seen', all' := seen, all;
    assert so + texts[..0] == so;
    for i := 0 to |texts|
      invariant all' == FirstSeen(so + texts[..i])
      invariant Tracks(seen', all')
    {
      NextText(so, texts, i);
      FirstSeenSnoc(so + texts[..i], texts[i]);
      if texts[i] !in seen' {
        seen' := seen' + {texts[i]};
        all' := all' + [texts[i]];
      }
    }
    assert texts[..|texts|] == texts;
  }

  method Collect(rows: seq<Row>, i: nat, listed: Row -> seq<string>, seen: set<string>, all: seq<string>)
    returns (seen': set<string>, all': seq<string>)
    requires i < |rows| && Collected(rows[..i], listed, seen, all)
    ensures Collected(rows[..i + 1], listed, seen', all')
  {
    seen', all' := Remember(listed(rows[i]), seen, all, All(rows[..i], listed));
    assert rows[..i + 1][..i] == rows[..i];
  }

  /** The body of the group loop of `merge_bucket`. */
  method MergeEntityGroup(lib: Library, g: Graph, key: EntityKey, rows: seq<Row>) returns (out: EntityRow)
    ensures out == MergeEntity(lib, g)(key, rows)
  {
    var chunks, docs, descriptions, names := ChunksOf(lib), DocsOf(lib), DescriptionsOf(lib), NamesOf(lib);
    var weight := MentionsOf(lib);
    var allChunks: seq<string>, allDocs: seq<string> := [], [];
    var allDescriptions: seq<string>, allNames: seq<string> := [], [];
    var seenChunks: set<string>, seenDocs: set<string> := {}, {};
    var seenDescriptions: set<string>, seenNames: set<string> := {}, {};
    var mentions := 0;
    for i := 0 to |rows|
      invariant Collected(rows[..i], chunks, seenChunks, allChunks)
      invariant Collected(rows[..i], docs, seenDocs, allDocs)
      invariant Collected(rows[..i], descriptions, seenDescriptions, allDescriptions)
      invariant Collected(rows[..i], names, seenNames, allNames)
      invariant mentions == Total(rows[..i], weight)
    {
      seenChunks, allChunks := Collect(rows, i, chunks, seenChunks, allChunks);
      seenDocs, allDocs := Collect(rows, i, docs, seenDocs, allDocs);
      mentions := mentions + weight(rows[i]);
      assert rows[..i + 1][..i] == rows[..i];
      seenDescriptions, allDescriptions := Collect(rows, i, descriptions, seenDescriptions, allDescriptions);
      seenNames, allNames := Collect(rows, i, names, seenNames, allNames);
    }
    assert rows[..|rows|] == rows;
    var description := LongestFirst(allDescriptions);
    var name := LongestFirst(allNames);
    out := EntityRow(DatasetRowId(lib, g, key.0), key.0, UnwrapOr(name, key.0), key.1, UnwrapOr(description, key.0),
                     mentions, allChunks, allDocs);
  }

  /** The body of the group loop of `merge_relations`. */
  method MergeRelationGroup(lib: Library, g: Graph, key: RelationKey, rows: seq<Row>) returns (out: RelationRow)
    ensures out == MergeRelation(lib, g)(key, rows)
  {
    var chunks, docs, descriptions := ChunksOf(lib), DocsOf(lib), RelationDescriptionsOf(lib, key);
    var allChunks: seq<string>, allDocs: seq<string>, allDescriptions: seq<string> := [], [], [];
    var seenChunks: set<string>, seenDocs: set<string>, seenDescriptions: set<string> := {}, {}, {};
    for i := 0 to |rows|
      invariant Collected(rows[..i], chunks, seenChunks, allChunks)
      invariant Collected(rows[..i], docs, seenDocs, allDocs)
      invariant Collected(rows[..i], descriptions, seenDescriptions, allDescriptions)
    {
      seenChunks, allChunks := Collect(rows, i, chunks, seenChunks, allChunks);
      seenDocs, allDocs := Collect(rows, i, docs, seenDocs, allDocs);
      seenDescriptions, allDescriptions := Collect(rows, i, descriptions, seenDescriptions, allDescriptions);
    }
    assert rows[..|rows|] == rows;
    var description := LongestFirst(allDescriptions);
    out := RelationRow(DatasetRowId(lib, g, RelationIdText(lib, key)), key,
                       UnwrapOr(description, RelationText(key, " ")), allChunks, allDocs);
  }

  /** Rows by key, with the keys in first-seen order. */
  method GroupRows<K(==)>(rows: seq<Row>, key: Row -> K) returns (order: seq<K>, groups: map<K, seq<Row>>)
    ensures order == Keys(rows, key)
    ensures forall k :: k in order <==> k in groups
    ensures forall k :: k in groups ==> groups[k] == Members(rows, key, k)
  {
    order, groups := [], map[];
    for i := 0 to |rows|
      invariant order == Keys(rows[..i], key)
      invariant forall k :: k in order <==> k in groups
      invariant forall k :: k in groups ==> groups[k] == Members(rows[..i], key, k)
    {
      var k := key(rows[i]);
      if k !in groups {
        NoMembers(rows[..i], key, k);
        order := order + [k];
        groups := groups[k := []];
      }
      groups := groups[k := groups[k] + [rows[i]]];
      assert rows[..i + 1] == rows[..i] + [rows[i]];
      KeysSnoc(rows[..i], rows[i], key);
      forall l | l in groups ensures groups[l] == Members(rows[..i + 1], key, l) {
        MembersSnoc(rows[..i], rows[i], key, l);
      }
    }
    assert rows[..|rows|] == rows;
  }

  lemma NoMembers<K>(rows: seq<Row>, key: Row -> K, k: K)
    requires k !in Keys(rows, key)
    ensures Members(rows, key, k) == []
  {
    if Members(rows, key, k) != [] {
      var r := Members(rows, key, k)[0];
      MembersMember(rows, key, k, r);
      KeysMember(rows, key, k);
    }
  }

  /** `merge_bucket`. */
  method MergeBucket(lib: Library, g: Graph, rows: seq<Row>) returns (out: seq<EntityRow>)
    ensures out == Direct(rows, KeyOfEntity(lib), MergeEntity(lib, g))
  {
    var order, groups := GroupRows(rows, KeyOfEntity(lib));
    ghost var f := Merger(rows, KeyOfEntity(lib), MergeEntity(lib, g));
    out := [];
    for i := 0 to |order|
      invariant out == Map(f, order[..i])
    {
      var merged := MergeEntityGroup(lib, g, order[i], groups[order[i]]);
      out := out + [merged];
      MapSnoc(f, order, i);
    }
    assert order[..|order|] == order;
  }

  /** `merge_relations`. */
  method MergeRelations(lib: Library, g: Graph, rows: seq<Row>) returns (out: seq<RelationRow>)
    ensures out == Direct(rows, KeyOfRelation(lib), MergeRelation(lib, g))
  {
    var order, groups := GroupRows(rows, KeyOfRelation(lib));
    ghost var f := Merger(rows, KeyOfRelation(lib), MergeRelation(lib, g));
    out := [];
    for i := 0 to |order|
      invariant out == Map(f, order[..i])
    {
      var merged := MergeRelationGroup(lib, g, order[i], groups[order[i]]);
      out := out + [merged];
      MapSnoc(f, order, i);
    }
    assert order[..|order|] == order;
  }
}
