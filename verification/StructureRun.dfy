/** Whole merge runs: when deletion markers are consumed, and which graphs then still name the document
    (src/dataset_structure_merger.rs:1329-1367). */
module StructureRun {
  import opened Distinctness
  import opened DocStore
  import opened Grouping
  import opened Json
  import opened StructureBuckets
  import opened StructureBuild
  import opened StructureCleanup
  import opened StructureGhosts
  import opened StructureIds
  import opened StructureMerge
  import opened StructureRows
  import opened StructureSteps
  import opened Text

  // ----- the run -----

  /** The world around a run: cancellation, and the clock and read faults of each build. */
  datatype World = World(cancelled: nat -> bool, clock: nat -> real, faults: nat -> Faults)

  /** What a run is asked to do. */
  datatype Plan = Plan(site: Site, graphs: seq<Graph>, hash: string -> nat, disabled: set<string>, world: World)

  ghost predicate PlainGraphs(plan: Plan) {
    forall i :: 0 <= i < |plan.graphs| ==> PlainGraph(plan.graphs[i])
  }

  datatype Outcome = Outcome(rows: seq<StoredRow>, finished: bool, consumed: bool)

  function SettingOf(plan: Plan, i: nat): Setting {
    Setting(plan.hash, plan.disabled == {}, plan.disabled, plan.world.clock(i), plan.world.faults(i))
  }

  /** One build of a run: what it leaves and whether it reports that the markers were honoured. */
  type Builder = (nat, seq<StoredRow>) -> (seq<StoredRow>, bool)

  function Builds(lib: Library, plan: Plan, indexed: bool): Builder {
    (i: nat, rows: seq<StoredRow>) =>
      if i < |plan.graphs| then Built(lib, plan.site, plan.graphs[i], SettingOf(plan, i), indexed, rows)
      else (rows, true)
  }

  /** The builds from number `i` up to `n`, with the conjunction of the successes so far. */
  function RunFrom(lib: Library, site: Site, n: nat, build: Builder, cancelled: nat -> bool, indexed: bool,
                   i: nat, rows: seq<StoredRow>, allOk: bool): Outcome
    requires i <= n
    decreases n - i
  {
    if i == n then Outcome(if allOk then Consumed(lib, site, indexed, rows) else rows, true, allOk)
    else if cancelled(i) then Outcome(rows, false, false)
    else
      var built := build(i, rows);
      RunFrom(lib, site, n, build, cancelled, indexed, i + 1, built.0, allOk && built.1)
  }

  /** `run_structure_merge`, from the list of eligible graphs on. */
  function Run(lib: Library, plan: Plan, build: Builder, indexed: bool, rows: seq<StoredRow>): Outcome {
    RunFrom(lib, plan.site, |plan.graphs|, build, plan.world.cancelled, indexed, 0, rows, true)
  }

  /** The rows before build number `j` of a run that gets that far. */
  function Before(build: Builder, rows: seq<StoredRow>, j: nat): seq<StoredRow> {
    if j == 0 then rows else build(j - 1, Before(build, rows, j - 1)).0
  }

  lemma {:induction false} RunEndsFrom(lib: Library, site: Site, n: nat, build: Builder, cancelled: nat -> bool,
                                       start: seq<StoredRow>, i: nat, allOk: bool)
    returns (j: nat)
    requires i <= n
    ensures i <= j <= n
    ensures var run := RunFrom(lib, site, n, build, cancelled, true, i, Before(build, start, i), allOk);
            && (run.consumed ==>
                  run.finished && allOk && run.rows == Consumed(lib, site, true, Before(build, start, n)))
            && (run.consumed ==> forall k :: i <= k < n ==> build(k, Before(build, start, k)).1)
            && (!run.consumed ==> run.rows == Before(build, start, j))
            && (run.finished && !run.consumed ==>
                 !allOk || exists k :: i <= k < n && !build(k, Before(build, start, k)).1)
    decreases n - i
  {
    j := i;
    if i < n && !cancelled(i) {
      var ok := build(i, Before(build, start, i)).1;
      j := RunEndsFrom(lib, site, n, build, cancelled, start, i + 1, allOk && ok);
    }
  }

  lemma {:induction false} UncancelledFinishes(lib: Library, site: Site, n: nat, build: Builder, cancelled: nat -> bool,
                                               rows: seq<StoredRow>, i: nat, allOk: bool)
    requires i <= n && forall k :: i <= k < n ==> !cancelled(k)
    ensures RunFrom(lib, site, n, build, cancelled, true, i, rows, allOk).finished
    decreases n - i
  {
    if i < n {
      UncancelledFinishes(lib, site, n, build, cancelled, build(i, rows).0, i + 1, allOk && build(i, rows).1);
    }
  }

  /** A run consumes the markers exactly when it gets to the end and every build reported success. */
  lemma RunEnds(lib: Library, plan: Plan, build: Builder, rows: seq<StoredRow>) returns (j: nat)
    ensures var run, n := Run(lib, plan, build, true, rows), |plan.graphs|;
            && j <= n
            && (run.consumed <==> run.finished && forall k :: 0 <= k < n ==> build(k, Before(build, rows, k)).1)
            && ((forall k :: 0 <= k < n ==> !plan.world.cancelled(k)) ==> run.finished)
            && run.rows == if run.consumed then Consumed(lib, plan.site, true, Before(build, rows, n))
                           else Before(build, rows, j)
  {
    j := RunEndsFrom(lib, plan.site, |plan.graphs|, build, plan.world.cancelled, rows, 0, true);
    if forall k :: 0 <= k < |plan.graphs| ==> !plan.world.cancelled(k) {
      UncancelledFinishes(lib, plan.site, |plan.graphs|, build, plan.world.cancelled, rows, 0, true);
    }
  }

  // ----- runs of builds that keep the store -----

  /** Of build number `i` on some rows: it rids its graph of the document. */
  type Ridding = (nat, seq<StoredRow>) -> bool

  ghost predicate Keeping(lib: Library, plan: Plan, d: string, build: Builder, i: nat, rows: seq<StoredRow>) {
    i < |plan.graphs| && Sound(lib, plan.site, d, rows) ==> Keeps(lib, plan.site, d, rows, build(i, rows).0)
  }

  ghost predicate AllKeep(lib: Library, plan: Plan, d: string, build: Builder) {
    forall i: nat, rows {:trigger Keeping(lib, plan, d, build, i, rows)} :: Keeping(lib, plan, d, build, i, rows)
  }

  ghost predicate Exact(lib: Library, plan: Plan, d: string, build: Builder, rids: Ridding,
                        i: nat, rows: seq<StoredRow>)
  {
    i < |plan.graphs| && Sound(lib, plan.site, d, rows) && build(i, rows).1 ==>
      (NoGhosts(plan.site, d, plan.graphs[i], build(i, rows).0) <==> rids(i, rows))
  }

  ghost predicate AllExact(lib: Library, plan: Plan, d: string, build: Builder, rids: Ridding) {
    forall i: nat, rows {:trigger Exact(lib, plan, d, build, rids, i, rows)} ::
      Exact(lib, plan, d, build, rids, i, rows)
  }

  ghost predicate Sparing(lib: Library, plan: Plan, d: string, build: Builder,
                          i: nat, rows: seq<StoredRow>, t: StoredRow)
  {
    i < |plan.graphs| && Sound(lib, plan.site, d, rows) && t in rows && Outside(lib, plan.site, d, plan.graphs[i], t)
    ==> t in build(i, rows).0
  }

  ghost predicate AllSpare(lib: Library, plan: Plan, d: string, build: Builder) {
    forall i: nat, rows, t {:trigger Sparing(lib, plan, d, build, i, rows, t)} ::
      Sparing(lib, plan, d, build, i, rows, t)
  }

  lemma {:induction false} BeforeKeeps(lib: Library, plan: Plan, d: string, build: Builder, rows: seq<StoredRow>,
                                       i: nat, j: nat)
    requires AllKeep(lib, plan, d, build) && i <= j <= |plan.graphs|
    requires Sound(lib, plan.site, d, Before(build, rows, i))
    ensures Keeps(lib, plan.site, d, Before(build, rows, i), Before(build, rows, j))
    decreases j
  {
    if i == j {
      KeepsItself(lib, plan.site, d, Before(build, rows, i));
    } else {
      BeforeKeeps(lib, plan, d, build, rows, i, j - 1);
      var now := Before(build, rows, j - 1);
      assert Keeping(lib, plan, d, build, j - 1, now);
      KeepsTransitive(lib, plan.site, d, Before(build, rows, i), now, build(j - 1, now).0);
    }
  }

  lemma BeforeSound(lib: Library, plan: Plan, d: string, build: Builder, rows: seq<StoredRow>, j: nat)
    requires AllKeep(lib, plan, d, build) && Sound(lib, plan.site, d, rows) && j <= |plan.graphs|
    ensures Sound(lib, plan.site, d, Before(build, rows, j))
  {
    BeforeKeeps(lib, plan, d, build, rows, 0, j);
  }

  lemma MarkerStays(lib: Library, plan: Plan, d: string, build: Builder, rows: seq<StoredRow>, j: nat)
    requires AllKeep(lib, plan, d, build) && Sound(lib, plan.site, d, rows) && j <= |plan.graphs|
    requires Deleted(lib, plan.site, d, rows)
    ensures Deleted(lib, plan.site, d, Before(build, rows, j))
  {
    BeforeKeeps(lib, plan, d, build, rows, 0, j);
    var s :| s in rows && IsMarker(s, plan.site) && StrOf(lib, Field(s.row, "deleted_doc_id")) == d;
    assert s in Before(build, rows, j);
  }

  /** A consuming run leaves what stood before its end, less the markers. */
  lemma RunLeaves(lib: Library, plan: Plan, d: string, build: Builder, rows: seq<StoredRow>, s: StoredRow)
    requires AllKeep(lib, plan, d, build) && Sound(lib, plan.site, d, rows)
    requires Run(lib, plan, build, true, rows).consumed
    ensures s in Run(lib, plan, build, true, rows).rows
       <==> s in Before(build, rows, |plan.graphs|) && !IsMarker(s, plan.site)
  {
    var j := RunEnds(lib, plan, build, rows);
    BeforeSound(lib, plan, d, build, rows, |plan.graphs|);
    ConsumedExactly(lib, plan.site, d, Before(build, rows, |plan.graphs|), s);
  }

  /** A graph clean before some build is clean where a consuming run ends. */
  lemma EndsClean(lib: Library, plan: Plan, d: string, build: Builder, rows: seq<StoredRow>, k: nat, g: Graph)
    requires AllKeep(lib, plan, d, build) && Sound(lib, plan.site, d, rows) && k <= |plan.graphs|
    requires Run(lib, plan, build, true, rows).consumed && NoGhosts(plan.site, d, g, Before(build, rows, k))
    ensures NoGhosts(plan.site, d, g, Run(lib, plan, build, true, rows).rows)
  {
    BeforeSound(lib, plan, d, build, rows, k);
    BeforeKeeps(lib, plan, d, build, rows, k, |plan.graphs|);
    NoneAnew(plan.site, d, g, Before(build, rows, k), Before(build, rows, |plan.graphs|));
    forall s | s in Run(lib, plan, build, true, rows).rows ensures s in Before(build, rows, |plan.graphs|) {
      RunLeaves(lib, plan, d, build, rows, s);
    }
  }

  /** What a run owes a deleted document. Not consuming, it keeps the marker; consuming, it leaves no marker, was
      not cut short, and its build number `j` has cleaned graph `j` exactly when it rids it of the document, in
      which case the graph is clean at the end. */
  ghost predicate Accounted(lib: Library, plan: Plan, d: string, build: Builder, rids: Ridding, rows: seq<StoredRow>) {
    var run := Run(lib, plan, build, true, rows);
    && (!run.consumed ==> Deleted(lib, plan.site, d, run.rows))
    && (run.consumed ==> run.finished && forall s :: s in run.rows ==> !IsMarker(s, plan.site))
    && (run.consumed ==> forall j: nat {:trigger rids(j, Before(build, rows, j))} :: j < |plan.graphs| ==>
          && (NoGhosts(plan.site, d, plan.graphs[j], Before(build, rows, j + 1)) <==> rids(j, Before(build, rows, j)))
          && (rids(j, Before(build, rows, j)) ==> NoGhosts(plan.site, d, plan.graphs[j], run.rows)))
  }

  lemma GraphAccounted(lib: Library, plan: Plan, d: string, build: Builder, rids: Ridding, rows: seq<StoredRow>, j: nat)
    requires AllKeep(lib, plan, d, build) && AllExact(lib, plan, d, build, rids)
    requires Sound(lib, plan.site, d, rows) && j < |plan.graphs| && Run(lib, plan, build, true, rows).consumed
    ensures NoGhosts(plan.site, d, plan.graphs[j], Before(build, rows, j + 1)) <==> rids(j, Before(build, rows, j))
    ensures rids(j, Before(build, rows, j))
            ==> NoGhosts(plan.site, d, plan.graphs[j], Run(lib, plan, build, true, rows).rows)
  {
    var end := RunEnds(lib, plan, build, rows);
    BeforeSound(lib, plan, d, build, rows, j);
    assert build(j, Before(build, rows, j)).1 && Exact(lib, plan, d, build, rids, j, Before(build, rows, j));
    if rids(j, Before(build, rows, j)) { EndsClean(lib, plan, d, build, rows, j + 1, plan.graphs[j]); }
  }

  lemma KeptOrGone(lib: Library, plan: Plan, d: string, build: Builder, rows: seq<StoredRow>)
    requires AllKeep(lib, plan, d, build)
    requires Sound(lib, plan.site, d, rows) && Deleted(lib, plan.site, d, rows)
    ensures var run := Run(lib, plan, build, true, rows);
            && (!run.consumed ==> Deleted(lib, plan.site, d, run.rows))
            && (run.consumed ==> run.finished && forall s :: s in run.rows ==> !IsMarker(s, plan.site))
  {
    var run := Run(lib, plan, build, true, rows);
    var end := RunEnds(lib, plan, build, rows);
    if run.consumed {
      forall s | s in run.rows ensures !IsMarker(s, plan.site) { RunLeaves(lib, plan, d, build, rows, s); }
    } else {
      MarkerStays(lib, plan, d, build, rows, end);
    }
  }

  lemma RunAccounts(lib: Library, plan: Plan, d: string, build: Builder, rids: Ridding, rows: seq<StoredRow>)
    requires AllKeep(lib, plan, d, build) && AllExact(lib, plan, d, build, rids)
    requires Sound(lib, plan.site, d, rows) && Deleted(lib, plan.site, d, rows)
    ensures Accounted(lib, plan, d, build, rids, rows)
  {
    var run := Run(lib, plan, build, true, rows);
    KeptOrGone(lib, plan, d, build, rows);
    forall j: nat {:trigger rids(j, Before(build, rows, j))} | run.consumed && j < |plan.graphs|
      ensures NoGhosts(plan.site, d, plan.graphs[j], Before(build, rows, j + 1)) <==> rids(j, Before(build, rows, j))
      ensures rids(j, Before(build, rows, j)) ==> NoGhosts(plan.site, d, plan.graphs[j], run.rows)
    {
      GraphAccounted(lib, plan, d, build, rids, rows, j);
    }
  }

  // ----- which graphs still name the document -----

  /** A row that names `d` and is not in an eligible graph has none of that graph's identifiers. */
  ghost predicate IdsByGraph(lib: Library, plan: Plan, d: string, rows: seq<StoredRow>) {
    forall s, j: nat {:trigger Outside(lib, plan.site, d, plan.graphs[j], s)} ::
      s in rows && At(s, plan.site) && Names(s.row, d) && j < |plan.graphs| && !InGraph(s, plan.site, plan.graphs[j])
      ==> Outside(lib, plan.site, d, plan.graphs[j], s)
  }

  /** No row that names `d` is in two eligible graphs. */
  ghost predicate OneGraph(plan: Plan, d: string, rows: seq<StoredRow>) {
    forall s, i: nat, j: nat {:trigger InGraph(s, plan.site, plan.graphs[i]), InGraph(s, plan.site, plan.graphs[j])} ::
      s in rows && Names(s.row, d) && i < j < |plan.graphs| ==>
        !InGraph(s, plan.site, plan.graphs[i]) || !InGraph(s, plan.site, plan.graphs[j])
  }

  ghost predicate Clean(plan: Plan, d: string, rows: seq<StoredRow>) {
    forall j :: 0 <= j < |plan.graphs| ==> NoGhosts(plan.site, d, plan.graphs[j], rows)
  }

  lemma Spared(lib: Library, plan: Plan, d: string, build: Builder, rows: seq<StoredRow>, i: nat, t: StoredRow)
    requires AllSpare(lib, plan, d, build) && Sound(lib, plan.site, d, rows) && i < |plan.graphs|
    requires t in rows && Outside(lib, plan.site, d, plan.graphs[i], t)
    ensures t in build(i, rows).0
  {
    assert Sparing(lib, plan, d, build, i, rows, t);
  }

  lemma OutsideNext(lib: Library, plan: Plan, d: string, build: Builder, rows: seq<StoredRow>, k: nat, t: StoredRow)
    requires AllKeep(lib, plan, d, build) && AllSpare(lib, plan, d, build) && Sound(lib, plan.site, d, rows)
    requires k < |plan.graphs| && t in Before(build, rows, k) && Outside(lib, plan.site, d, plan.graphs[k], t)
    ensures t in Before(build, rows, k + 1)
  {
    BeforeSound(lib, plan, d, build, rows, k);
    Spared(lib, plan, d, build, Before(build, rows, k), k, t);
  }

  lemma {:induction false} StaysThrough(build: Builder, rows: seq<StoredRow>, i: nat, j: nat, t: StoredRow)
    requires i <= j && t in Before(build, rows, i)
    requires forall k :: i <= k < j && t in Before(build, rows, k) ==> t in Before(build, rows, k + 1)
    ensures t in Before(build, rows, j)
    decreases j
  {
    if i < j { StaysThrough(build, rows, i, j - 1, t); }
  }

  ghost predicate OutsideFrom(lib: Library, plan: Plan, d: string, i: nat, t: StoredRow) {
    forall k: nat {:trigger Outside(lib, plan.site, d, plan.graphs[k], t)} ::
      i <= k < |plan.graphs| ==> Outside(lib, plan.site, d, plan.graphs[k], t)
  }

  /** A row of a graph that names `d` outside the graphs from number `i` on is there when a consuming run ends. */
  lemma OutsideStaysOn(lib: Library, plan: Plan, d: string, build: Builder, rows: seq<StoredRow>,
                       i: nat, g: Graph, t: StoredRow)
    requires AllKeep(lib, plan, d, build) && AllSpare(lib, plan, d, build) && Sound(lib, plan.site, d, rows)
    requires i <= |plan.graphs| && t in Before(build, rows, i) && InGraph(t, plan.site, g)
    requires OutsideFrom(lib, plan, d, i, t)
    requires Run(lib, plan, build, true, rows).consumed
    ensures t in Run(lib, plan, build, true, rows).rows
  {
    forall k: nat | i <= k < |plan.graphs| && t in Before(build, rows, k) ensures t in Before(build, rows, k + 1) {
      OutsideNext(lib, plan, d, build, rows, k, t);
    }
    StaysThrough(build, rows, i, |plan.graphs|, t);
    StaysUnmarked(lib, plan, d, build, rows, g, t);
  }

  lemma StaysUnmarked(lib: Library, plan: Plan, d: string, build: Builder, rows: seq<StoredRow>, g: Graph, t: StoredRow)
    requires AllKeep(lib, plan, d, build) && Sound(lib, plan.site, d, rows)
    requires t in Before(build, rows, |plan.graphs|) && InGraph(t, plan.site, g)
    requires Run(lib, plan, build, true, rows).consumed
    ensures t in Run(lib, plan, build, true, rows).rows
  {
    BeforeSound(lib, plan, d, build, rows, |plan.graphs|);
    if IsMarker(t, plan.site) { MarkerOutsideGraph(lib, plan.site, d, g, t); }
    RunLeaves(lib, plan, d, build, rows, t);
  }

  /** A row naming `d` stands, but for its document list, among the rows the run started from. */
  lemma StartOf(lib: Library, plan: Plan, d: string, build: Builder, rows: seq<StoredRow>, j: nat, t: StoredRow)
    returns (s: StoredRow)
    requires AllKeep(lib, plan, d, build) && Sound(lib, plan.site, d, rows) && j <= |plan.graphs|
    requires t in Before(build, rows, j) && At(t, plan.site) && Names(t.row, d)
    ensures s in rows && Names(s.row, d) && At(s, plan.site) && s.key == t.key
    ensures forall g :: InGraph(s, plan.site, g) <==> InGraph(t, plan.site, g)
  {
    BeforeKeeps(lib, plan, d, build, rows, 0, j);
    assert StemsFrom(d, rows, t);
    s :| s in rows && SameElse(s, t) && Names(s.row, d);
    forall g ensures InGraph(s, plan.site, g) <==> InGraph(t, plan.site, g) { GraphIgnoresDocs(s, t, plan.site, g); }
  }

  lemma OutsideLater(lib: Library, plan: Plan, d: string, build: Builder, rows: seq<StoredRow>, j: nat, t: StoredRow)
    requires AllKeep(lib, plan, d, build) && Sound(lib, plan.site, d, rows)
    requires IdsByGraph(lib, plan, d, rows) && OneGraph(plan, d, rows) && j < |plan.graphs|
    requires t in Before(build, rows, j + 1) && InGraph(t, plan.site, plan.graphs[j]) && Names(t.row, d)
    ensures OutsideFrom(lib, plan, d, j + 1, t)
  {
    var s := StartOf(lib, plan, d, build, rows, j + 1, t);
    forall k: nat | j + 1 <= k < |plan.graphs| ensures Outside(lib, plan.site, d, plan.graphs[k], t) {
      assert s in rows && !InGraph(s, plan.site, plan.graphs[k]);
      assert Outside(lib, plan.site, d, plan.graphs[k], s);
    }
  }

  lemma LeftBehind(lib: Library, plan: Plan, d: string, build: Builder, rows: seq<StoredRow>, j: nat)
    returns (t: StoredRow)
    requires AllKeep(lib, plan, d, build) && Sound(lib, plan.site, d, rows)
    requires IdsByGraph(lib, plan, d, rows) && OneGraph(plan, d, rows) && j < |plan.graphs|
    requires !NoGhosts(plan.site, d, plan.graphs[j], Before(build, rows, j + 1))
    ensures t in Before(build, rows, j + 1) && InGraph(t, plan.site, plan.graphs[j]) && Names(t.row, d)
    ensures OutsideFrom(lib, plan, d, j + 1, t)
  {
    t :| t in Before(build, rows, j + 1) && InGraph(t, plan.site, plan.graphs[j]) && Names(t.row, d);
    OutsideLater(lib, plan, d, build, rows, j, t);
  }

  lemma NeverCleaned(lib: Library, plan: Plan, d: string, build: Builder, rows: seq<StoredRow>, j: nat)
    requires AllKeep(lib, plan, d, build) && AllSpare(lib, plan, d, build) && Sound(lib, plan.site, d, rows)
    requires IdsByGraph(lib, plan, d, rows) && OneGraph(plan, d, rows) && j < |plan.graphs|
    requires Run(lib, plan, build, true, rows).consumed
    requires !NoGhosts(plan.site, d, plan.graphs[j], Before(build, rows, j + 1))
    ensures !NoGhosts(plan.site, d, plan.graphs[j], Run(lib, plan, build, true, rows).rows)
  {
    var t := LeftBehind(lib, plan, d, build, rows, j);
    OutsideStaysOn(lib, plan, d, build, rows, j + 1, plan.graphs[j], t);
  }

  /** Consuming, the run leaves all its graphs clean exactly when every build rids its graph of the document. */
  ghost predicate CleanExactly(lib: Library, plan: Plan, d: string, build: Builder, rids: Ridding,
                               rows: seq<StoredRow>)
  {
    var run := Run(lib, plan, build, true, rows);
    run.consumed ==>
      (Clean(plan, d, run.rows)
       <==> forall j: nat {:trigger rids(j, Before(build, rows, j))} ::
              j < |plan.graphs| ==> rids(j, Before(build, rows, j)))
  }

  lemma RidsExactly(lib: Library, plan: Plan, d: string, build: Builder, rids: Ridding, rows: seq<StoredRow>, j: nat)
    requires AllKeep(lib, plan, d, build) && AllSpare(lib, plan, d, build) && Sound(lib, plan.site, d, rows)
    requires IdsByGraph(lib, plan, d, rows) && OneGraph(plan, d, rows) && j < |plan.graphs|
    requires Accounted(lib, plan, d, build, rids, rows) && Run(lib, plan, build, true, rows).consumed
    ensures rids(j, Before(build, rows, j))
       <==> NoGhosts(plan.site, d, plan.graphs[j], Run(lib, plan, build, true, rows).rows)
  {
    if !rids(j, Before(build, rows, j)) { NeverCleaned(lib, plan, d, build, rows, j); }
  }

  lemma CleanIff(lib: Library, plan: Plan, d: string, build: Builder, rids: Ridding, rows: seq<StoredRow>)
    requires var run := Run(lib, plan, build, true, rows);
             forall j: nat {:trigger rids(j, Before(build, rows, j))} :: j < |plan.graphs| ==>
               (rids(j, Before(build, rows, j)) <==> NoGhosts(plan.site, d, plan.graphs[j], run.rows))
    ensures CleanExactly(lib, plan, d, build, rids, rows)
  {
    var run := Run(lib, plan, build, true, rows);
    forall j: nat | j < |plan.graphs|
      ensures rids(j, Before(build, rows, j)) <==> NoGhosts(plan.site, d, plan.graphs[j], run.rows) { }
  }

  lemma RunCleansExactly(lib: Library, plan: Plan, d: string, build: Builder, rids: Ridding, rows: seq<StoredRow>)
    requires AllKeep(lib, plan, d, build) && AllExact(lib, plan, d, build, rids) && AllSpare(lib, plan, d, build)
    requires Sound(lib, plan.site, d, rows) && Deleted(lib, plan.site, d, rows)
    requires IdsByGraph(lib, plan, d, rows) && OneGraph(plan, d, rows)
    ensures CleanExactly(lib, plan, d, build, rids, rows)
  {
    RunAccounts(lib, plan, d, build, rids, rows);
    var run := Run(lib, plan, build, true, rows);
    if run.consumed {
      forall j: nat {:trigger rids(j, Before(build, rows, j))} | j < |plan.graphs|
        ensures rids(j, Before(build, rows, j)) <==> NoGhosts(plan.site, d, plan.graphs[j], run.rows)
      {
        RidsExactly(lib, plan, d, build, rids, rows, j);
      }
      CleanIff(lib, plan, d, build, rids, rows);
    }
  }

  ghost predicate Eligible(plan: Plan, s: StoredRow) {
    exists j :: 0 <= j < |plan.graphs| && InGraph(s, plan.site, plan.graphs[j])
  }

  /** After a consuming run that left its graphs clean, any graph, eligible or not, names `d` no more exactly when
      all its rows that named `d` were in some eligible graph. */
  lemma NamedElsewhere(lib: Library, plan: Plan, d: string, build: Builder, rows: seq<StoredRow>, h: Graph)
    requires AllKeep(lib, plan, d, build) && AllSpare(lib, plan, d, build)
    requires Sound(lib, plan.site, d, rows) && IdsByGraph(lib, plan, d, rows)
    requires Run(lib, plan, build, true, rows).consumed && Clean(plan, d, Run(lib, plan, build, true, rows).rows)
    ensures NoGhosts(plan.site, d, h, Run(lib, plan, build, true, rows).rows)
       <==> forall s :: s in rows && InGraph(s, plan.site, h) && Names(s.row, d) ==> Eligible(plan, s)
  {
    var run := Run(lib, plan, build, true, rows);
    forall t | t in run.rows && InGraph(t, plan.site, h) && Names(t.row, d)
      ensures exists s :: s in rows && InGraph(s, plan.site, h) && Names(s.row, d) && !Eligible(plan, s)
    {
      RunLeaves(lib, plan, d, build, rows, t);
      var s := StartOf(lib, plan, d, build, rows, |plan.graphs|, t);
      assert InGraph(s, plan.site, h) && !Eligible(plan, s);
    }
    forall s | s in rows && InGraph(s, plan.site, h) && Names(s.row, d) && !Eligible(plan, s) ensures s in run.rows {
      assert OutsideFrom(lib, plan, d, 0, s);
      OutsideStaysOn(lib, plan, d, build, rows, 0, h, s);
    }
  }

  // ----- the builds of the program -----

  /** Build number `i` honours the marker of `d`. */
  ghost function Honouring(lib: Library, plan: Plan, d: string): Ridding {
    (i: nat, rows: seq<StoredRow>) =>
      i < |plan.graphs| && Honours(lib, plan.site, d, plan.graphs[i], SettingOf(plan, i), rows)
  }

  lemma BuildsKeep(lib: Library, plan: Plan, d: string)
    requires IdsApart(lib) && PlainGraphs(plan)
    ensures AllKeep(lib, plan, d, Builds(lib, plan, true))
  {
    var build := Builds(lib, plan, true);
    forall i: nat, rows | i < |plan.graphs| && Sound(lib, plan.site, d, rows)
      ensures Keeps(lib, plan.site, d, rows, build(i, rows).0)
    {
      BuiltStep(lib, plan.site, d, plan.graphs[i], SettingOf(plan, i), rows);
    }
  }

  lemma BuildsAreExact(lib: Library, plan: Plan, d: string)
    requires IdsApart(lib) && PlainGraphs(plan)
    ensures AllExact(lib, plan, d, Builds(lib, plan, true), Honouring(lib, plan, d))
  {
    var build, rids := Builds(lib, plan, true), Honouring(lib, plan, d);
    forall i: nat, rows | i < |plan.graphs| && Sound(lib, plan.site, d, rows) && build(i, rows).1
      ensures NoGhosts(plan.site, d, plan.graphs[i], build(i, rows).0) <==> rids(i, rows)
    {
      BuiltExactly(lib, plan.site, d, plan.graphs[i], SettingOf(plan, i), rows);
    }
  }

  lemma BuildsSpare(lib: Library, plan: Plan, d: string)
    requires IdsApart(lib) && PlainGraphs(plan)
    ensures AllSpare(lib, plan, d, Builds(lib, plan, true))
  {
    var build := Builds(lib, plan, true);
    forall i: nat, rows, t | i < |plan.graphs| && Sound(lib, plan.site, d, rows) && t in rows
                             && Outside(lib, plan.site, d, plan.graphs[i], t)
      ensures t in build(i, rows).0
    {
      OutsideStays(lib, plan.site, d, plan.graphs[i], SettingOf(plan, i), rows, t);
    }
  }

  /** Whatever page reads fail, a run keeps the marker or accounts for every graph it built: a graph is clean
      exactly when its build started anew, read the marker, or had no row left to keep the document in. */
  lemma MarkersConsumedOnlyAfterCleanup(lib: Library, plan: Plan, d: string, rows: seq<StoredRow>)
    requires IdsApart(lib) && PlainGraphs(plan) && Sound(lib, plan.site, d, rows) && Deleted(lib, plan.site, d, rows)
    ensures Accounted(lib, plan, d, Builds(lib, plan, true), Honouring(lib, plan, d), rows)
  {
    BuildsKeep(lib, plan, d);
    BuildsAreExact(lib, plan, d);
    RunAccounts(lib, plan, d, Builds(lib, plan, true), Honouring(lib, plan, d), rows);
  }

  /** Where each graph has rows and identifiers of its own, a consuming run leaves its graphs clean exactly when
      every build honoured the marker. */
  lemma ConsumingRunExactly(lib: Library, plan: Plan, d: string, rows: seq<StoredRow>)
    requires IdsApart(lib) && PlainGraphs(plan) && Sound(lib, plan.site, d, rows) && Deleted(lib, plan.site, d, rows)
    requires IdsByGraph(lib, plan, d, rows) && OneGraph(plan, d, rows)
    ensures CleanExactly(lib, plan, d, Builds(lib, plan, true), Honouring(lib, plan, d), rows)
  {
    BuildsKeep(lib, plan, d);
    BuildsAreExact(lib, plan, d);
    BuildsSpare(lib, plan, d);
    RunCleansExactly(lib, plan, d, Builds(lib, plan, true), Honouring(lib, plan, d), rows);
  }

  lemma ReadableHonours(lib: Library, plan: Plan, d: string, i: nat, rows: seq<StoredRow>)
    requires UniqueKeys(rows) && Deleted(lib, plan.site, d, rows) && i < |plan.graphs|
    requires forall p :: !plan.world.faults(i).pass1(p)
    ensures Honouring(lib, plan, d)(i, rows)
  {
    ReadMeaning(lib, plan.site, d, plan.world.faults(i), rows);
  }

  lemma MarkedSound(lib: Library, plan: Plan, d: string, build: Builder, rows: seq<StoredRow>, j: nat)
    requires AllKeep(lib, plan, d, build) && Sound(lib, plan.site, d, rows) && j <= |plan.graphs|
    requires Deleted(lib, plan.site, d, rows)
    ensures UniqueKeys(Before(build, rows, j)) && Deleted(lib, plan.site, d, Before(build, rows, j))
  {
    BeforeSound(lib, plan, d, build, rows, j);
    MarkerStays(lib, plan, d, build, rows, j);
  }

  lemma EveryBuildRids(lib: Library, plan: Plan, d: string, build: Builder, rids: Ridding, rows: seq<StoredRow>)
    requires AllKeep(lib, plan, d, build)
    requires Sound(lib, plan.site, d, rows) && Deleted(lib, plan.site, d, rows)
    requires forall i: nat, before {:trigger rids(i, before)} ::
               i < |plan.graphs| && UniqueKeys(before) && Deleted(lib, plan.site, d, before) ==> rids(i, before)
    ensures forall j: nat {:trigger rids(j, Before(build, rows, j))} ::
              j < |plan.graphs| ==> rids(j, Before(build, rows, j))
  {
    forall j: nat | j < |plan.graphs| ensures rids(j, Before(build, rows, j)) {
      MarkedSound(lib, plan, d, build, rows, j);
    }
  }

  lemma RunIsClean(lib: Library, plan: Plan, d: string, build: Builder, rids: Ridding, rows: seq<StoredRow>)
    requires Accounted(lib, plan, d, build, rids, rows)
    requires forall j: nat {:trigger rids(j, Before(build, rows, j))} ::
               j < |plan.graphs| ==> rids(j, Before(build, rows, j))
    ensures var run := Run(lib, plan, build, true, rows);
            run.consumed ==> Clean(plan, d, run.rows)
  {
    var run := Run(lib, plan, build, true, rows);
    forall j | 0 <= j < |plan.graphs| && run.consumed ensures NoGhosts(plan.site, d, plan.graphs[j], run.rows) {
      assert rids(j, Before(build, rows, j));
    }
  }

  /** When the markers can always be read, a run that consumes them leaves none of its graphs naming `d`. */
  lemma ReadableRunIsClean(lib: Library, plan: Plan, d: string, rows: seq<StoredRow>)
    requires IdsApart(lib) && PlainGraphs(plan) && Sound(lib, plan.site, d, rows) && Deleted(lib, plan.site, d, rows)
    requires forall j, p :: !plan.world.faults(j).pass1(p)
    ensures var run := Run(lib, plan, Builds(lib, plan, true), true, rows);
            run.consumed ==> Clean(plan, d, run.rows)
  {
    BuildsKeep(lib, plan, d);
    BuildsAreExact(lib, plan, d);
    forall i: nat, before | i < |plan.graphs| && UniqueKeys(before) && Deleted(lib, plan.site, d, before)
      ensures Honouring(lib, plan, d)(i, before)
    {
      ReadableHonours(lib, plan, d, i, before);
    }
    EveryBuildRids(lib, plan, d, Builds(lib, plan, true), Honouring(lib, plan, d), rows);
    RunAccounts(lib, plan, d, Builds(lib, plan, true), Honouring(lib, plan, d), rows);
    RunIsClean(lib, plan, d, Builds(lib, plan, true), Honouring(lib, plan, d), rows);
  }

  /** After a consuming run with clean graphs, any graph names `d` no more exactly when all its rows that named
      `d` were in some eligible graph; the others keep naming it, with no marker left. */
  lemma NamedNowhere(lib: Library, plan: Plan, d: string, rows: seq<StoredRow>, h: Graph)
    requires IdsApart(lib) && PlainGraphs(plan) && Sound(lib, plan.site, d, rows) && IdsByGraph(lib, plan, d, rows)
    ensures var run := Run(lib, plan, Builds(lib, plan, true), true, rows);
            run.consumed && Clean(plan, d, run.rows) ==>
              (NoGhosts(plan.site, d, h, run.rows)
               <==> forall s :: s in rows && InGraph(s, plan.site, h) && Names(s.row, d) ==> Eligible(plan, s))
  {
    BuildsKeep(lib, plan, d);
    BuildsSpare(lib, plan, d);
    var run := Run(lib, plan, Builds(lib, plan, true), true, rows);
    if run.consumed && Clean(plan, d, run.rows) { NamedElsewhere(lib, plan, d, Builds(lib, plan, true), rows, h); }
  }

  lemma SuccessfulRun(lib: Library, plan: Plan, d: string, build: Builder, rows: seq<StoredRow>)
    requires AllKeep(lib, plan, d, build) && Sound(lib, plan.site, d, rows)
    requires forall i: nat, before {:trigger build(i, before)} ::
               i < |plan.graphs| && Sound(lib, plan.site, d, before) ==> build(i, before).1
    ensures var run := Run(lib, plan, build, true, rows);
            (run.finished ==> run.consumed)
            && ((forall k :: 0 <= k < |plan.graphs| ==> !plan.world.cancelled(k)) ==> run.finished)
  {
    var end := RunEnds(lib, plan, build, rows);
    forall k | 0 <= k < |plan.graphs| ensures build(k, Before(build, rows, k)).1 {
      BeforeSound(lib, plan, d, build, rows, k);
    }
  }

  /** Without read failures in the second pass every run that is not cancelled consumes the markers. */
  lemma UndisturbedRunConsumes(lib: Library, plan: Plan, d: string, rows: seq<StoredRow>)
    requires IdsApart(lib) && PlainGraphs(plan) && Sound(lib, plan.site, d, rows)
    requires forall j, p :: !plan.world.faults(j).pass2(p)
    ensures var run := Run(lib, plan, Builds(lib, plan, true), true, rows);
            (run.finished ==> run.consumed)
            && ((forall k :: 0 <= k < |plan.graphs| ==> !plan.world.cancelled(k)) ==> run.finished)
  {
    var build := Builds(lib, plan, true);
    BuildsKeep(lib, plan, d);
    forall i: nat, before | i < |plan.graphs| && Sound(lib, plan.site, d, before) ensures build(i, before).1 {
      BuiltStep(lib, plan.site, d, plan.graphs[i], SettingOf(plan, i), before);
    }
    SuccessfulRun(lib, plan, d, build, rows);
  }

  // ----- the program -----

  ghost predicate SameBuild(lib: Library, plan: Plan, indexed: bool, build: Builder, i: nat, rows: seq<StoredRow>) {
    build(i, rows) == Builds(lib, plan, indexed)(i, rows)
  }

  /** The builder is the one of the plan, build by build. */
  ghost predicate BuilderOf(lib: Library, plan: Plan, indexed: bool, build: Builder) {
    forall i: nat, rows {:trigger SameBuild(lib, plan, indexed, build, i, rows)} ::
      SameBuild(lib, plan, indexed, build, i, rows)
  }

  predicate Indexed(store: MemoryDocStore, plan: Plan)
    reads store`indexes
  {
    (plan.site.indexName, plan.site.kbId) in store.indexes
  }

  method RunBuild(lib: Library, store: MemoryDocStore, plan: Plan, ghost build: Builder, i: nat) returns (ok: bool)
    requires i < |plan.graphs| && UniqueKeys(store.rows)
    requires BuilderOf(lib, plan, Indexed(store, plan), build)
    modifies store`rows
    ensures UniqueKeys(store.rows)
    ensures (store.rows, ok) == build(i, old(store.rows))
  {
    assert SameBuild(lib, plan, Indexed(store, plan), build, i, store.rows);
    ok := DoBuild(lib, store, plan.site, plan.graphs[i], SettingOf(plan, i));
  }

  /** The build loop. */
  method RunBuilds(lib: Library, store: MemoryDocStore, plan: Plan, ghost build: Builder)
    returns (finished: bool, allOk: bool)
    requires UniqueKeys(store.rows) && BuilderOf(lib, plan, Indexed(store, plan), build)
    modifies store`rows
    ensures UniqueKeys(store.rows)
    ensures Run(lib, plan, build, Indexed(store, plan), old(store.rows))
         == if !finished then Outcome(store.rows, false, false)
            else Outcome(if allOk then Consumed(lib, plan.site, Indexed(store, plan), store.rows) else store.rows,
                         true, allOk)
  {
    ghost var n, indexed, cancelled := |plan.graphs|, Indexed(store, plan), plan.world.cancelled;
    ghost var run := Run(lib, plan, build, indexed, store.rows);
    allOk := true;
    for i := 0 to |plan.graphs|
      invariant UniqueKeys(store.rows)
      invariant run == RunFrom(lib, plan.site, n, build, cancelled, indexed, i, store.rows, allOk)
    {
      if plan.world.cancelled(i) {
        return false, false;
      }
      RunNext(lib, plan.site, n, build, cancelled, indexed, i, store.rows, allOk);
      var cleanupOk := RunBuild(lib, store, plan, build, i);
      if !cleanupOk {
        allOk := false;
      }
    }
    return true, allOk;
  }

  lemma RunNext(lib: Library, site: Site, n: nat, build: Builder, cancelled: nat -> bool, indexed: bool,
                i: nat, rows: seq<StoredRow>, allOk: bool)
    requires i < n && !cancelled(i)
    ensures var built := build(i, rows);
            RunFrom(lib, site, n, build, cancelled, indexed, i, rows, allOk)
            == RunFrom(lib, site, n, build, cancelled, indexed, i + 1, built.0, allOk && built.1)
  {
  }

  /** `run_structure_merge`, from the list of eligible graphs on. */
  method RunStructureMerge(lib: Library, store: MemoryDocStore, plan: Plan) returns (finished: bool)
    requires UniqueKeys(store.rows)
    modifies store`rows
    ensures UniqueKeys(store.rows)
    ensures var indexed := Indexed(store, plan);
            var run := Run(lib, plan, Builds(lib, plan, indexed), indexed, old(store.rows));
            store.rows == run.rows && finished == run.finished
  {
    var allOk: bool;
    OwnBuilder(lib, plan, Indexed(store, plan));
    finished, allOk := RunBuilds(lib, store, plan, Builds(lib, plan, Indexed(store, plan)));
    if finished && allOk {
      ConsumedUnique(lib, plan.site, Indexed(store, plan), store.rows);
      ConsumeDeletionMarkers(lib, store, plan.site);
    }
  }

  lemma OwnBuilder(lib: Library, plan: Plan, indexed: bool)
    ensures BuilderOf(lib, plan, indexed, Builds(lib, plan, indexed))
  {
  }

  lemma ConsumedUnique(lib: Library, site: Site, indexed: bool, rows: seq<StoredRow>)
    requires UniqueKeys(rows)
    ensures UniqueKeys(Consumed(lib, site, indexed, rows))
  {
    var ids := MarkerIds(lib, AllMatches(rows, site, MarkerCondition(site)));
    SelectUnique(rows, Missing(site.indexName, site.kbId, IdCondition(ids)));
  }

  /** A recorded deletion is a marker that names its document, in the shape a run relies on, provided the
      generated identifiers never look like a marker's. */
  lemma RecordedDeletion(lib: Library, site: Site, doc: string, now: real, rows: seq<StoredRow>)
    requires UniqueKeys(rows) && Trim(doc) == doc && doc != ""
    requires forall parts :: lib.stableId(parts) != "doc_deleted:" + site.kbId + ":" + doc
    ensures Deleted(lib, site, doc, InsertAll(rows, [MarkerRow(site, doc, now)], site))
    ensures PlainMarker(lib, Entry(MarkerRow(site, doc, now), "", site.indexName, site.kbId))
  {
    var e := Entry(MarkerRow(site, doc, now), "", site.indexName, site.kbId);
    InsertAllSnoc(rows, [], MarkerRow(site, doc, now), site);
    assert [] + [MarkerRow(site, doc, now)] == [MarkerRow(site, doc, now)];
    assert e in Push(rows, e);
    assert IsMarker(e, site);
  }
}
