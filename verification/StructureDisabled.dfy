/** Disabled documents leave the graphs with the next run
    (src/dataset_structure_merger.rs:985-1010, 1052-1057, 1329-1367). */
module StructureDisabled {
  import opened DocStore
  import opened Grouping
  import opened StructureBuckets
  import opened StructureBuild
  import opened StructureCleanup
  import opened StructureGhosts
  import opened StructureIds
  import opened StructureMerge
  import opened StructureRows
  import opened StructureRun
  import opened StructureSteps
  import opened StructureStored
  import opened Text

  /** No source row of `f` belongs to `d`. */
  ghost predicate Without<K, U>(lib: Library, f: Family<K, U>, d: string) {
    forall row :: row in f.rows ==> StrOf(lib, Field(row, "doc_id")) != d
  }

  /** The rows of a family list the documents of the rows they are made from. */
  ghost predicate ListsSources<K(!new), U>(lib: Library, f: Family<K, U>) {
    forall k: K, rows: seq<Row> ::
      Field(WriteOf(f, k, rows), "doc_ids_kwd") == Some(AnyOf(FirstSeen(All(rows, DocsOf(lib)))))
  }

  lemma EntitiesList(b: Build)
    ensures ListsSources(b.lib, Entities(b))
  {
    forall k: EntityKey, rows: seq<Row>
      ensures Field(WriteOf(Entities(b), k, rows), "doc_ids_kwd")
           == Some(AnyOf(FirstSeen(All(rows, DocsOf(b.lib)))))
    {
      EntityDocFields(b.lib, b.g, MergeEntity(b.lib, b.g)(k, rows));
    }
  }

  lemma RelationsList(b: Build)
    ensures ListsSources(b.lib, Relations(b))
  {
    forall k: RelationKey, rows: seq<Row>
      ensures Field(WriteOf(Relations(b), k, rows), "doc_ids_kwd")
           == Some(AnyOf(FirstSeen(All(rows, DocsOf(b.lib)))))
    {
      RelationDocFields(b.lib, b.g, MergeRelation(b.lib, b.g)(k, rows));
    }
  }

  lemma FamilyNamesNot<K(!new), U>(lib: Library, f: Family<K, U>, d: string, doc: Row)
    requires ListsSources(lib, f) && Without(lib, f, d) && doc in WritesOf(f)
    ensures !Names(doc, d)
  {
    var k: K, part: int;
    k, part := WriteOfKey(f, doc);
    var group := Members(Members(f.rows, f.bucket, part), f.key, k);
    forall row | row in group ensures StrOf(lib, Field(row, "doc_id")) != d {
      MembersMember(Members(f.rows, f.bucket, part), f.key, k, row);
      MembersMember(f.rows, f.bucket, part, row);
    }
    DocsAreUnion(lib, group, d);
    AnyOfMember(FirstSeen(All(group, DocsOf(lib))), d);
  }

  lemma SourcesWithout(b: Build, d: string)
    requires d in b.opts.disabled
    ensures Without(b.lib, Entities(b), d) && Without(b.lib, Relations(b), d)
  {
    var entity := EntityInput(b.lib, b.opts.disabled, Since(b));
    var relation := RelationInput(b.lib, b.opts.disabled, Since(b));
    forall row | row in EntitySources(b) ensures StrOf(b.lib, Field(row, "doc_id")) != d {
      MembersMember(Scanned(b), entity, true, row);
    }
    forall row | row in RelationSources(b) ensures StrOf(b.lib, Field(row, "doc_id")) != d {
      MembersMember(Scanned(b), relation, true, row);
    }
  }

  lemma WritesNameNot(b: Build, d: string, doc: Row)
    requires d in b.opts.disabled && doc in Writes(b)
    ensures !Names(doc, d)
  {
    SourcesWithout(b, d);
    EntitiesList(b);
    RelationsList(b);
    if doc in WritesOf(Entities(b)) {
      FamilyNamesNot(b.lib, Entities(b), d, doc);
    } else {
      FamilyNamesNot(b.lib, Relations(b), d, doc);
    }
  }

  /** After dropping and merging nothing stands where the build time goes. */
  lemma NoBuildTime(b: Build)
    requires SoundIds(b.lib) && OwnIds(b.rows, b.site) && Since(b).None?
    ensures Lookup(InsertAll(Ready(b), Writes(b), b.site), Key(b.site.indexName, b.site.kbId, MetaId(b.lib, b.g))).None?
  {
    var key := Key(b.site.indexName, b.site.kbId, MetaId(b.lib, b.g));
    var merged := InsertAll(Ready(b), Writes(b), b.site);
    LookupFinds(merged, key);
    forall s | s in merged ensures s.key != key {
      InsertAllMember(Ready(b), Writes(b), b.site, s);
      if s.key == key && s in Ready(b) {
        DropOnly(b, s);
        DropMember(b.lib, b.site, b.g, b.rows, s);
      }
      forall doc | doc in Writes(b) ensures Entry(doc, "", b.site.indexName, b.site.kbId).key != key {
        WriteOwnsId(b, doc);
      }
    }
  }

  lemma DropOnly(b: Build, s: StoredRow)
    requires Since(b).None? && s in Ready(b)
    ensures s in b.rows
  {
    var outside := Missing(b.site.indexName, b.site.kbId, GraphCondition(b.site, b.g));
    SelectMember(b.rows, outside, s);
    SelectMember(Select(b.rows, outside), Missing(b.site.indexName, b.site.kbId, IdCondition([MetaId(b.lib, b.g)])), s);
  }

  /** A build that starts anew leaves no row of its graph naming a disabled document. */
  lemma DisabledGone(b: Build, d: string)
    requires SoundIds(b.lib) && OwnIds(b.rows, b.site) && Since(b).None? && d in b.opts.disabled
    ensures NoGhosts(b.site, d, b.g, Result(b))
  {
    NoBuildTime(b);
    ResultIsWritten(b);
    var merged := InsertAll(Ready(b), Writes(b), b.site);
    forall t | t in Result(b) && InGraph(t, b.site, b.g) ensures !Names(t.row, d) {
      TimeOutsideGraph(b.lib, b.site, b.g, b.opts.now, merged, t);
      MergedNamesNot(b, d, t);
    }
  }

  lemma TimeOutsideGraph(lib: Library, site: Site, g: Graph, now: real, rows: seq<StoredRow>, t: StoredRow)
    requires Lookup(rows, Key(site.indexName, site.kbId, MetaId(lib, g))).None?
    requires t in TimeSaved(lib, site, g, now, rows) && InGraph(t, site, g)
    ensures t in rows
  {
    var meta := MetaRow(lib, g, now);
    InsertAllMember(rows, [meta], site, t);
    assert forall doc :: doc in [meta] ==> doc == meta;
    assert "scope_kwd" in GraphCondition(site, g) && "scope_kwd" !in meta;
  }

  lemma MergedNamesNot(b: Build, d: string, t: StoredRow)
    requires Since(b).None? && d in b.opts.disabled && OwnIds(b.rows, b.site)
    requires t in InsertAll(Ready(b), Writes(b), b.site) && InGraph(t, b.site, b.g)
    ensures !Names(t.row, d)
  {
    InsertAllMember(Ready(b), Writes(b), b.site, t);
    if t in Ready(b) {
      DropOnly(b, t);
      DropMember(b.lib, b.site, b.g, b.rows, t);
    }
    forall doc | doc in Writes(b) ensures !Names(doc, d) { WritesNameNot(b, d, doc); }
  }

  /** A run with disabled documents builds every graph anew, so that none names such a document after its build. */
  lemma RunDropsDisabled(lib: Library, plan: Plan, i: nat, indexed: bool, rows: seq<StoredRow>, d: string)
    requires SoundIds(lib) && OwnIds(rows, plan.site) && i < |plan.graphs| && d in plan.disabled
    ensures NoGhosts(plan.site, d, plan.graphs[i], Builds(lib, plan, indexed)(i, rows).0)
  {
    DisabledGone(Build(lib, plan.site, plan.graphs[i], SettingOf(plan, i), indexed, rows), d);
  }
}
