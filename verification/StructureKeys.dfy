/** What a row says about its entity or relation, read from its content, and which rows therefore share a merged row
    (src/dataset_structure_merger.rs:115-204, 469-485, 604-640). */
module StructureKeys {
  import opened Distinctness
  import opened DocStore
  import opened Grouping
  import opened Json
  import opened StructureBuckets
  import opened StructureMerge
  import opened StructureRows
  import opened Text

  /** The members of the JSON object in a row's content; without an object there are none. */
  ghost function Content(lib: Library, row: Row): map<string, Value> {
    var named := "content_with_weight" in row && row["content_with_weight"].String?;
    var parsed := lib.parse(if named then row["content_with_weight"].s else "");
    if parsed.Some? && parsed.value.Object? then parsed.value.fields else map[]
  }

  ghost predicate Given(fields: map<string, Value>, name: string) {
    name in fields && fields[name] != Null
  }

  /** `text` is what the member says: a string says itself, anything else its JSON text. */
  ghost predicate Says(lib: Library, v: Value, text: string) {
    if v.String? then v == String(text) else text == lib.show(v)
  }

  /** Without a name of its own a payload may name the entity in a nested content. */
  ghost predicate NestedName(lib: Library, fields: map<string, Value>, name: string) {
    var nested := "content_with_weight" in fields && fields["content_with_weight"].String?;
    var parsed := if nested then lib.parse(fields["content_with_weight"].s) else None;
    if parsed.Some? && parsed.value.Object? && Given(parsed.value.fields, "name")
    then Says(lib, parsed.value.fields["name"], name)
    else name == ""
  }

  // ----- entities -----

  /** The row is about the entity called `name` of type `kind`. */
  ghost predicate SaysEntity(lib: Library, row: Row, name: string, kind: string) {
    var fields := Content(lib, row);
    && (if Given(fields, "name") then Says(lib, fields["name"], name) else NestedName(lib, fields, name))
    && (if Given(fields, "type") then Says(lib, fields["type"], kind) else kind == "other")
  }

  /** Every row is about exactly one entity. */
  lemma EntityOfRow(lib: Library, row: Row) returns (name: string, kind: string)
    ensures SaysEntity(lib, row, name, kind)
    ensures forall n, k :: SaysEntity(lib, row, n, k) ==> n == name && k == kind
  {
    var fields := Content(lib, row);
    name := NameOfRow(lib, fields);
    kind := if Given(fields, "type") then AsText(lib, fields["type"]) else "other";
  }

  lemma NameOfRow(lib: Library, fields: map<string, Value>) returns (name: string)
    ensures if Given(fields, "name") then Says(lib, fields["name"], name) else NestedName(lib, fields, name)
  {
    var nested := "content_with_weight" in fields && fields["content_with_weight"].String?;
    var parsed := if nested then lib.parse(fields["content_with_weight"].s) else None;
    name := if Given(fields, "name") then AsText(lib, fields["name"])
            else if parsed.Some? && parsed.value.Object? && Given(parsed.value.fields, "name")
            then AsText(lib, parsed.value.fields["name"])
            else "";
  }

  lemma ContentMember(lib: Library, row: Row, name: string)
    ensures Member(Payload(lib, row), name)
         == if name in Content(lib, row) then Some(Content(lib, row)[name]) else None
  {
  }

  /** An entity row is filed under its lower-cased trimmed name and its trimmed type. */
  lemma EntityKeyMeaning(lib: Library, row: Row, name: string, kind: string)
    requires SaysEntity(lib, row, name, kind)
    ensures KeyOfEntity(lib)(row) == (lib.lower(Trim(name)), Trim(kind))
  {
    ContentMember(lib, row, "name");
    ContentMember(lib, row, "type");
    ContentMember(lib, row, "content_with_weight");
    TrimTrimmed("other");
  }

  /** In particular for a content with a name and a type: the type counts as "other" if it is missing or null. */
  lemma PlainEntity(lib: Library, row: Row, text: string, fields: map<string, Value>, name: string)
    requires "content_with_weight" in row && row["content_with_weight"] == String(text)
    requires lib.parse(text) == Some(Object(fields)) && "name" in fields && fields["name"] == String(name)
    ensures forall kind :: "type" in fields && fields["type"] == String(kind) ==> SaysEntity(lib, row, name, kind)
    ensures "type" !in fields || fields["type"] == Null ==> SaysEntity(lib, row, name, "other")
  {
  }

  /** The row is about the entity of this lower-cased name and this type. */
  ghost predicate AboutEntity(lib: Library, row: Row, name: string, kind: string) {
    exists n, k :: SaysEntity(lib, row, n, k) && name == lib.lower(Trim(n)) && kind == Trim(k)
  }

  lemma AboutByKey(lib: Library, row: Row, k: EntityKey)
    ensures AboutEntity(lib, row, k.0, k.1) <==> KeyOfEntity(lib)(row) == k
  {
    var name, kind := EntityOfRow(lib, row);
    EntityKeyMeaning(lib, row, name, kind);
  }

  /** Some merged row is about what both rows are about. */
  ghost predicate ShareEntity(lib: Library, out: seq<EntityRow>, r: Row, s: Row) {
    exists e :: e in out && AboutEntity(lib, r, e.nameKwd, e.entityType) && AboutEntity(lib, s, e.nameKwd, e.entityType)
  }

  /** Two rows share a merged row exactly when their names agree up to case and outer white space and their types
      up to outer white space. */
  lemma EntitiesShare(lib: Library, g: Graph, rows: seq<Row>, r: Row, s: Row,
                      name: string, kind: string, name': string, kind': string)
    requires r in rows && SaysEntity(lib, r, name, kind) && SaysEntity(lib, s, name', kind')
    ensures ShareEntity(lib, Direct(rows, KeyOfEntity(lib), MergeEntity(lib, g)), r, s)
       <==> lib.lower(Trim(name)) == lib.lower(Trim(name')) && Trim(kind) == Trim(kind')
  {
    var out := Direct(rows, KeyOfEntity(lib), MergeEntity(lib, g));
    EntityKeyMeaning(lib, r, name, kind);
    EntityKeyMeaning(lib, s, name', kind');
    var i := EntityMerged(lib, g, rows, r);
    AboutByKey(lib, r, (out[i].nameKwd, out[i].entityType));
    AboutByKey(lib, s, (out[i].nameKwd, out[i].entityType));
    if e :| e in out && AboutEntity(lib, r, e.nameKwd, e.entityType) && AboutEntity(lib, s, e.nameKwd, e.entityType) {
      AboutByKey(lib, r, (e.nameKwd, e.entityType));
      AboutByKey(lib, s, (e.nameKwd, e.entityType));
    }
  }

  lemma KeyIndex<T, K>(rows: seq<T>, key: T -> K, r: T) returns (i: nat)
    requires r in rows
    ensures i < |Keys(rows, key)| && Keys(rows, key)[i] == key(r)
    ensures forall j :: 0 <= j < |Keys(rows, key)| && j != i ==> Keys(rows, key)[j] != key(r)
  {
    KeysMember(rows, key, key(r));
    KeysDistinct(rows, key);
    i :| 0 <= i < |Keys(rows, key)| && Keys(rows, key)[i] == key(r);
  }

  /** Every row goes into exactly one merged row. */
  lemma EntityMerged(lib: Library, g: Graph, rows: seq<Row>, r: Row) returns (i: nat)
    requires r in rows
    ensures var out := Direct(rows, KeyOfEntity(lib), MergeEntity(lib, g));
            && i < |out| && AboutEntity(lib, r, out[i].nameKwd, out[i].entityType)
            && forall j :: 0 <= j < |out| && j != i ==> !AboutEntity(lib, r, out[j].nameKwd, out[j].entityType)
  {
    var out := Direct(rows, KeyOfEntity(lib), MergeEntity(lib, g));
    i := KeyIndex(rows, KeyOfEntity(lib), r);
    forall j | 0 <= j < |out|
      ensures AboutEntity(lib, r, out[j].nameKwd, out[j].entityType)
         <==> Keys(rows, KeyOfEntity(lib))[j] == KeyOfEntity(lib)(r)
    {
      AboutByKey(lib, r, (out[j].nameKwd, out[j].entityType));
    }
  }

  /** The first of the longest items, or the fallback if there are none. */
  ghost predicate Chosen(items: seq<string>, fallback: string, best: string) {
    if items == [] then best == fallback
    else exists i :: 0 <= i < |items| && items[i] == best
           && (forall j :: 0 <= j < i ==> |items[j]| < |best|)
           && (forall j :: i <= j < |items| ==> |items[j]| <= |best|)
  }

  lemma LongestChosen(items: seq<string>, fallback: string)
    ensures Chosen(items, fallback, UnwrapOr(Longest(items), fallback))
  {
    if items != [] { var i := LongestIsFirst(items); }
  }

  lemma {:induction false} MembersAs<T, K>(rows: seq<T>, key: T -> K, k: K, about: T -> bool)
    requires forall r :: r in rows ==> (about(r) <==> key(r) == k)
    ensures Members(rows, key, k) == Members(rows, about, true)
  {
    if rows != [] {
      assert rows[|rows| - 1] in rows;
      forall r | r in rows[..|rows| - 1] ensures r in rows { }
      MembersAs(rows[..|rows| - 1], key, k, about);
    }
  }

  /** A merged entity row made from these rows. */
  ghost predicate MergesEntities(lib: Library, g: Graph, e: EntityRow, group: seq<Row>) {
    && group != []
    && e.id == lib.stableId([e.nameKwd, g.kbId, g.compileKwd,
                             if g.template.Some? then g.template.value else "", "dataset"])
    && e.mentionCount == Total(group, MentionsOf(lib))
    && e.chunks == FirstSeen(All(group, ChunksOf(lib)))
    && e.docs == FirstSeen(All(group, DocsOf(lib)))
    && Chosen(FirstSeen(All(group, NamesOf(lib))), e.nameKwd, e.name)
    && Chosen(FirstSeen(All(group, DescriptionsOf(lib))), e.nameKwd, e.description)
  }

  lemma MergeEntityMeaning(lib: Library, g: Graph, k: EntityKey, group: seq<Row>)
    requires group != []
    ensures MergesEntities(lib, g, MergeEntity(lib, g)(k, group), group)
    ensures MergeEntity(lib, g)(k, group).nameKwd == k.0 && MergeEntity(lib, g)(k, group).entityType == k.1
  {
    LongestChosen(FirstSeen(All(group, NamesOf(lib))), k.0);
    LongestChosen(FirstSeen(All(group, DescriptionsOf(lib))), k.0);
  }

  /** A merged entity row is made from exactly the rows it takes in, in their order. */
  lemma EntityGroup(lib: Library, g: Graph, rows: seq<Row>, i: nat, taken: Row -> bool)
    requires i < |Direct(rows, KeyOfEntity(lib), MergeEntity(lib, g))|
    requires forall r :: r in rows ==>
      var e := Direct(rows, KeyOfEntity(lib), MergeEntity(lib, g))[i];
      taken(r) <==> AboutEntity(lib, r, e.nameKwd, e.entityType)
    ensures MergesEntities(lib, g, Direct(rows, KeyOfEntity(lib), MergeEntity(lib, g))[i], Where(rows, taken))
  {
    var key := KeyOfEntity(lib);
    var k := Keys(rows, key)[i];
    var group := Members(rows, key, k);
    GroupOfKey(rows, key, k);
    MergeEntityMeaning(lib, g, k, group);
    var e := Direct(rows, key, MergeEntity(lib, g))[i];
    forall r | r in rows ensures taken(r) <==> key(r) == k { AboutByKey(lib, r, (e.nameKwd, e.entityType)); }
    MembersAs(rows, key, k, taken);
  }

  // ----- relations -----

  /** The text of the content's member if that is a string, else of the row's keyword if that is one, else "". */
  ghost predicate SaysEnd(fields: map<string, Value>, name: string, row: Row, keyword: string, text: string) {
    if name in fields && fields[name].String? then fields[name] == String(text)
    else if keyword in row && row[keyword].String? then row[keyword] == String(text)
    else text == ""
  }

  /** The row is about the relation of type `kind` from `source` to `target`. */
  ghost predicate SaysRelation(lib: Library, row: Row, source: string, kind: string, target: string) {
    var fields := Content(lib, row);
    && SaysEnd(fields, "from", row, "from_entity_kwd", source)
    && SaysEnd(fields, "to", row, "to_entity_kwd", target)
    && (if "type" in fields && fields["type"].String? then fields["type"] == String(kind) else kind == "related")
  }

  lemma EndOfRow(fields: map<string, Value>, name: string, row: Row, keyword: string) returns (text: string)
    ensures SaysEnd(fields, name, row, keyword, text)
    ensures forall t :: SaysEnd(fields, name, row, keyword, t) ==> t == text
  {
    text := if name in fields && fields[name].String? then fields[name].s
            else if keyword in row && row[keyword].String? then row[keyword].s
            else "";
  }

  /** Every row is about exactly one relation. */
  lemma RelationOfRow(lib: Library, row: Row) returns (source: string, kind: string, target: string)
    ensures SaysRelation(lib, row, source, kind, target)
    ensures forall s, k, t :: SaysRelation(lib, row, s, k, t) ==> s == source && k == kind && t == target
  {
    var fields := Content(lib, row);
    source := EndOfRow(fields, "from", row, "from_entity_kwd");
    target := EndOfRow(fields, "to", row, "to_entity_kwd");
    kind := if "type" in fields && fields["type"].String? then fields["type"].s else "related";
  }

  lemma EndMeaning(lib: Library, row: Row, name: string, keyword: string, text: string)
    requires SaysEnd(Content(lib, row), name, row, keyword, text)
    ensures Endpoint(lib, row, Payload(lib, row), name, keyword) == lib.lower(Trim(text))
  {
    ContentMember(lib, row, name);
  }

  /** A relation row is filed under its source, type and target, each trimmed and lower-cased. */
  lemma RelationKeyMeaning(lib: Library, row: Row, source: string, kind: string, target: string)
    requires SaysRelation(lib, row, source, kind, target)
    ensures KeyOfRelation(lib)(row) == (lib.lower(Trim(source)), lib.lower(Trim(kind)), lib.lower(Trim(target)))
  {
    EndMeaning(lib, row, "from", "from_entity_kwd", source);
    EndMeaning(lib, row, "to", "to_entity_kwd", target);
    ContentMember(lib, row, "type");
  }

  /** The row is about the relation of this lower-cased source, type and target. */
  ghost predicate AboutRelation(lib: Library, row: Row, k: RelationKey) {
    exists source, kind, target :: SaysRelation(lib, row, source, kind, target)
                                && k == (lib.lower(Trim(source)), lib.lower(Trim(kind)), lib.lower(Trim(target)))
  }

  lemma AboutByRelationKey(lib: Library, row: Row, k: RelationKey)
    ensures AboutRelation(lib, row, k) <==> KeyOfRelation(lib)(row) == k
  {
    var source, kind, target := RelationOfRow(lib, row);
    RelationKeyMeaning(lib, row, source, kind, target);
  }

  ghost predicate ShareRelation(lib: Library, out: seq<RelationRow>, r: Row, s: Row) {
    exists e :: e in out && AboutRelation(lib, r, e.key) && AboutRelation(lib, s, e.key)
  }

  /** Two relation rows share a merged row exactly when source, type and target agree up to case and outer white
      space. */
  lemma RelationsShare(lib: Library, g: Graph, rows: seq<Row>, r: Row, s: Row, source: string, kind: string,
                       target: string, source': string, kind': string, target': string)
    requires r in rows && SaysRelation(lib, r, source, kind, target) && SaysRelation(lib, s, source', kind', target')
    ensures ShareRelation(lib, Direct(rows, KeyOfRelation(lib), MergeRelation(lib, g)), r, s)
       <==> && lib.lower(Trim(source)) == lib.lower(Trim(source'))
            && lib.lower(Trim(kind)) == lib.lower(Trim(kind'))
            && lib.lower(Trim(target)) == lib.lower(Trim(target'))
  {
    var out := Direct(rows, KeyOfRelation(lib), MergeRelation(lib, g));
    RelationKeyMeaning(lib, r, source, kind, target);
    RelationKeyMeaning(lib, s, source', kind', target');
    var i := RelationMerged(lib, g, rows, r);
    AboutByRelationKey(lib, r, out[i].key);
    AboutByRelationKey(lib, s, out[i].key);
    if e :| e in out && AboutRelation(lib, r, e.key) && AboutRelation(lib, s, e.key) {
      AboutByRelationKey(lib, r, e.key);
      AboutByRelationKey(lib, s, e.key);
    }
  }

  /** Every row goes into exactly one merged row. */
  lemma RelationMerged(lib: Library, g: Graph, rows: seq<Row>, r: Row) returns (i: nat)
    requires r in rows
    ensures var out := Direct(rows, KeyOfRelation(lib), MergeRelation(lib, g));
            && i < |out| && AboutRelation(lib, r, out[i].key)
            && forall j :: 0 <= j < |out| && j != i ==> !AboutRelation(lib, r, out[j].key)
  {
    var out := Direct(rows, KeyOfRelation(lib), MergeRelation(lib, g));
    i := KeyIndex(rows, KeyOfRelation(lib), r);
    forall j | 0 <= j < |out|
      ensures AboutRelation(lib, r, out[j].key) <==> Keys(rows, KeyOfRelation(lib))[j] == KeyOfRelation(lib)(r)
    {
      AboutByRelationKey(lib, r, out[j].key);
    }
  }

  /** A merged relation row made from these rows. */
  ghost predicate MergesRelations(lib: Library, g: Graph, e: RelationRow, group: seq<Row>) {
    && group != []
    && e.id == lib.stableId([lib.lower(e.key.0) + " -> " + lib.lower(e.key.1) + " -> " + lib.lower(e.key.2), g.kbId,
                             g.compileKwd, if g.template.Some? then g.template.value else "", "dataset"])
    && e.chunks == FirstSeen(All(group, ChunksOf(lib)))
    && e.docs == FirstSeen(All(group, DocsOf(lib)))
    && Chosen(FirstSeen(All(group, RelationDescriptionsOf(lib, e.key))), e.key.0 + " " + e.key.1 + " " + e.key.2,
              e.description)
  }

  lemma MergeRelationMeaning(lib: Library, g: Graph, k: RelationKey, group: seq<Row>)
    requires group != []
    ensures MergesRelations(lib, g, MergeRelation(lib, g)(k, group), group) && MergeRelation(lib, g)(k, group).key == k
  {
    LongestChosen(FirstSeen(All(group, RelationDescriptionsOf(lib, k))), RelationText(k, " "));
  }

  /** A merged relation row is made from exactly the rows it takes in, in their order. */
  lemma RelationGroup(lib: Library, g: Graph, rows: seq<Row>, i: nat, taken: Row -> bool)
    requires i < |Direct(rows, KeyOfRelation(lib), MergeRelation(lib, g))|
    requires forall r :: r in rows ==>
      (taken(r) <==> AboutRelation(lib, r, Direct(rows, KeyOfRelation(lib), MergeRelation(lib, g))[i].key))
    ensures MergesRelations(lib, g, Direct(rows, KeyOfRelation(lib), MergeRelation(lib, g))[i], Where(rows, taken))
  {
    var key := KeyOfRelation(lib);
    var k := Keys(rows, key)[i];
    var group := Members(rows, key, k);
    GroupOfKey(rows, key, k);
    MergeRelationMeaning(lib, g, k, group);
    var e := Direct(rows, key, MergeRelation(lib, g))[i];
    forall r | r in rows ensures taken(r) <==> key(r) == k { AboutByRelationKey(lib, r, e.key); }
    MembersAs(rows, key, k, taken);
  }

  // ----- what a row contributes -----

  /** `n` is `x` without its fraction. */
  ghost predicate WholePart(x: real, n: int) {
    if x >= 0.0 then n >= 0 && n as real <= x < n as real + 1.0 else n <= 0 && n as real - 1.0 < x <= n as real
  }

  /** What a count field says, if anything: the whole part of a number, or a string that reads as a number. */
  ghost predicate SaysCount(lib: Library, fields: map<string, Value>, name: string, count: Option<int>) {
    if name in fields && fields[name].Number? then count.Some? && WholePart(fields[name].n, count.value)
    else if name in fields && fields[name].String? then count == lib.parseInt(Trim(fields[name].s))
    else count == None
  }

  /** A row counts its own mentions unless it has none to tell, then those of its content, then one. */
  lemma MentionsMeaning(lib: Library, row: Row, own: Option<int>, inner: Option<int>)
    requires SaysCount(lib, row, "mention_count_int", own)
    requires SaysCount(lib, Content(lib, row), "mention_count", inner)
    ensures MentionsOf(lib)(row)
         == if own.Some? && own.value != 0 then own.value else if inner.Some? then inner.value else 1
  {
    ContentMember(lib, row, "mention_count");
  }

  /** A row lists the chunks of its array, those that are strings as they are. */
  lemma ChunksMeaning(lib: Library, row: Row)
    ensures var listed := ChunksOf(lib)(row);
            if "source_chunk_ids" in row && row["source_chunk_ids"].Array?
            then var items := row["source_chunk_ids"].items;
                 |listed| == |items| && forall i :: 0 <= i < |items| ==> Says(lib, items[i], listed[i])
            else listed == []
  {
  }

  /** A row has at most one document: its trimmed identifier. */
  lemma DocMeaning(lib: Library, row: Row, doc: string)
    requires "doc_id" in row && row["doc_id"] == String(doc)
    ensures DocsOf(lib)(row) == if Blank(doc) then [] else [Trim(doc)]
  {
    TrimEmptyIsBlank(doc);
  }

  /** A row contributes the trimmed name it speaks of, in its own letter case. */
  lemma NameMeaning(lib: Library, row: Row, name: string, kind: string)
    requires SaysEntity(lib, row, name, kind)
    ensures NamesOf(lib)(row) == if Blank(name) then [] else [Trim(name)]
  {
    ContentMember(lib, row, "name");
    ContentMember(lib, row, "content_with_weight");
    TrimEmptyIsBlank(name);
  }

  /** An entity row contributes its description, if it is not empty. */
  lemma DescriptionMeaning(lib: Library, row: Row, text: string)
    requires "description" in Content(lib, row) && Says(lib, Content(lib, row)["description"], text)
    ensures DescriptionsOf(lib)(row) == if text == "" then [] else [text]
  {
    ContentMember(lib, row, "description");
  }

  /** A relation row contributes its description, or else its source, type and target. */
  lemma RelationDescriptionMeaning(lib: Library, row: Row, k: RelationKey)
    ensures var fields := Content(lib, row);
            RelationDescriptionsOf(lib, k)(row)
            == if "description" in fields && fields["description"].String? && fields["description"].s != ""
               then [fields["description"].s] else [k.0 + " " + k.1 + " " + k.2]
  {
    ContentMember(lib, row, "description");
  }
}
