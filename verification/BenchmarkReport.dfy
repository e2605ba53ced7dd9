/** Average precision, reciprocal rank and the benchmark report (src/benchmark.rs:215-373). */
module BenchmarkReport {
  import opened Benchmark

  /** A floating-point quotient; `NaN` is 0/0. */
  datatype Metric = Value(v: real) | NaN

  // ----- average precision -----

  function CountPositive(s: seq<real>): (n: nat)
    ensures n <= |s|
  {
    if s == [] then 0
    else CountPositive(s[..|s| - 1]) + (if 0.0 < s[|s| - 1] then 1 else 0)
  }

  /** The sum of precisions at the relevant ranks of `rel`. */
  function PrecisionSum(rel: seq<real>): real {
    if rel == [] then 0.0
    else
      var rest := PrecisionSum(rel[..|rel| - 1]);
      if 0.0 < rel[|rel| - 1] then rest + CountPositive(rel) as real / |rel| as real else rest
  }

  function Min(a: nat, b: nat): nat { if a < b then a else b }

  function AveragePrecision(qrels: ScorePairs, run: ScorePairs, k: nat): Metric {
    var relevant := CountPositive(Scores(qrels));
    if relevant == 0 then Value(0.0)
    else if k == 0 then NaN
    else Value(PrecisionSum(RunRelevance(qrels, Take(run, k))) / Min(relevant, k) as real)
  }

  /** `average_precision_at_k`. */
  method AveragePrecisionAtK(qrels: ScorePairs, run: ScorePairs, k: nat) returns (m: Metric)
    ensures m == AveragePrecision(qrels, run, k)
  {
    var relevantTotal := CountPositive(Scores(qrels));
    if relevantTotal == 0 {
      return Value(0.0);
    }
    ghost var rel := RunRelevance(qrels, Take(run, k));
    var hits, sum, rank := 0, 0.0, 0;
    while rank < |Take(run, k)|
      invariant rank <= |rel|
      invariant hits == CountPositive(rel[..rank]) && sum == PrecisionSum(rel[..rank])
    {
      assert rel[..rank + 1][..rank] == rel[..rank];
      if 0.0 < QrelOf(qrels, Take(run, k)[rank].doc) {
        hits := hits + 1;
        sum := sum + hits as real / (rank as real + 1.0);
      }
      rank := rank + 1;
    }
    assert rel[..rank] == rel;
    return if k == 0 then NaN else Value(sum / Min(relevantTotal, k) as real);
  }

  lemma {:induction false} CountPositiveConcat(s: seq<real>, t: seq<real>)
    ensures CountPositive(s + t) == CountPositive(s) + CountPositive(t)
    decreases |t|
  {
    if t == [] {
      assert s + t == s;
    } else {
      CountPositiveConcat(s, t[..|t| - 1]);
      assert (s + t)[..|s + t| - 1] == s + t[..|t| - 1];
    }
  }

  /** As many relevant ranks as relevant judgements at most. */
  lemma {:induction false} CountDrawnFrom(r: seq<real>, s: seq<real>)
    requires DrawnFrom(r, s)
    ensures CountPositive(r) <= CountPositive(s)
    decreases |r|
  {
    if r != [] {
      var last := r[|r| - 1];
      assert r == r[..|r| - 1] + [last];
      if 0.0 < last {
        assert last in multiset(r);
        assert multiset(s)[last] > 0;
        var p :| 0 <= p < |s| && s[p] == last;
        CountWithout(s, p);
        WithoutMultiset(s, p);
        forall v | 0.0 < v ensures multiset(r[..|r| - 1])[v] <= multiset(Without(s, p))[v] {
          assert multiset(r)[v] <= multiset(s)[v];
        }
        CountDrawnFrom(r[..|r| - 1], Without(s, p));
      } else {
        forall v | 0.0 < v ensures multiset(r[..|r| - 1])[v] <= multiset(s)[v] {
          assert multiset(r)[v] <= multiset(s)[v];
        }
        CountDrawnFrom(r[..|r| - 1], s);
      }
    }
  }

  lemma CountWithout(s: seq<real>, p: nat)
    requires p < |s|
    ensures CountPositive(s) == CountPositive(Without(s, p)) + (if 0.0 < s[p] then 1 else 0)
  {
    assert s == (s[..p] + [s[p]]) + s[p + 1..];
    CountMiddle(s[..p], s[p], s[p + 1..]);
  }

  lemma CountMiddle(pre: seq<real>, x: real, post: seq<real>)
    ensures CountPositive((pre + [x]) + post) == CountPositive(pre + post) + (if 0.0 < x then 1 else 0)
  {
    CountPositiveConcat(pre + [x], post);
    CountPositiveConcat(pre, post);
    var one := pre + [x];
    assert one[..|one| - 1] == pre && one[|one| - 1] == x;
  }

  lemma RatioAtMostOne(a: nat, n: nat)
    requires a <= n && 0 < n
    ensures 0.0 <= a as real / n as real <= 1.0
    ensures a as real / n as real == 1.0 <==> a == n
  {
    DivisionInUnit(a as real, n as real);
  }

  /** The precisions add up to at most one each, and to exactly one each only when
      the relevant ranks come first. */
  lemma {:induction false} PrecisionSumBound(rel: seq<real>)
    ensures 0.0 <= PrecisionSum(rel) <= CountPositive(rel) as real
    ensures PrecisionSum(rel) == CountPositive(rel) as real <==>
            forall i :: 0 <= i < CountPositive(rel) ==> 0.0 < rel[i]
  {
    if rel != [] {
      var init := rel[..|rel| - 1];
      PrecisionSumBound(init);
      RatioAtMostOne(CountPositive(rel), |rel|);
      assert rel == init + [rel[|rel| - 1]];
      if 0.0 < rel[|rel| - 1] && (forall i :: 0 <= i < CountPositive(rel) ==> 0.0 < rel[i]) {
        AllPositiveCount(rel, CountPositive(rel));
      }
    }
  }

  /** If the first `n` ranks are relevant, and `n` is the number of relevant ranks, no later rank is. */
  lemma AllPositiveCount(rel: seq<real>, n: nat)
    requires n == CountPositive(rel) && forall i :: 0 <= i < n ==> 0.0 < rel[i]
    requires rel != [] && 0.0 < rel[|rel| - 1]
    ensures n == |rel|
  {
    var init := rel[..|rel| - 1];
    CountAll(rel[..n]);
    if n <= |init| {
      assert init == rel[..n] + init[n..];
      CountPositiveConcat(rel[..n], init[n..]);
    }
  }

  lemma {:induction false} CountAll(s: seq<real>)
    requires forall i :: 0 <= i < |s| ==> 0.0 < s[i]
    ensures CountPositive(s) == |s|
  {
    if s != [] {
      CountAll(s[..|s| - 1]);
    }
  }

  ghost predicate TopRanksRelevant(qrels: ScorePairs, run: ScorePairs, n: nat) {
    n <= |run| && forall i :: 0 <= i < n ==> 0.0 < QrelOf(qrels, run[i].doc)
  }

  /** No more relevant ranks than min(relevant, k). */
  lemma HitsBound(qrels: ScorePairs, run: ScorePairs, k: nat)
    requires DistinctDocs(Take(run, k))
    ensures CountPositive(RunRelevance(qrels, Take(run, k))) <= Min(CountPositive(Scores(qrels)), k)
  {
    RunDrawnFromQrels(qrels, Take(run, k));
    CountDrawnFrom(RunRelevance(qrels, Take(run, k)), Scores(qrels));
  }

  lemma FullPrecision(rel: seq<real>, m: nat)
    requires CountPositive(rel) <= m
    ensures 0.0 <= PrecisionSum(rel) <= m as real
    ensures PrecisionSum(rel) == m as real <==> AllRelevant(rel, m)
  {
    PrecisionSumBound(rel);
    if AllRelevant(rel, m) {
      LeadingCount(rel, m);
    }
  }

  ghost predicate AllRelevant(rel: seq<real>, m: nat) {
    m <= |rel| && forall i :: 0 <= i < m ==> 0.0 < rel[i]
  }

  lemma LeadingCount(rel: seq<real>, m: nat)
    requires AllRelevant(rel, m)
    ensures m <= CountPositive(rel)
  {
    CountAll(rel[..m]);
    assert rel == rel[..m] + rel[m..];
    CountPositiveConcat(rel[..m], rel[m..]);
  }

  /** AP@k lies in [0, 1] for k > 0 and distinct documents in the first k, and is 1 exactly when
      something is relevant and the first min(relevant, k) ranks all are. */
  lemma AveragePrecisionInUnit(qrels: ScorePairs, run: ScorePairs, k: nat)
    requires DistinctDocs(Take(run, k)) && 0 < k
    ensures var relevant := CountPositive(Scores(qrels));
            var m := AveragePrecision(qrels, run, k);
            && m.Value? && 0.0 <= m.v <= 1.0
            && (m.v == 1.0 <==> 0 < relevant && TopRanksRelevant(qrels, run, Min(relevant, k)))
  {
    var relevant := CountPositive(Scores(qrels));
    if 0 < relevant {
      var rel := RunRelevance(qrels, Take(run, k));
      HitsBound(qrels, run, k);
      FullPrecision(rel, Min(relevant, k));
      DivisionInUnit(PrecisionSum(rel), Min(relevant, k) as real);
      TopRanksOfRun(qrels, run, k, Min(relevant, k));
    }
  }

  lemma TopRanksOfRun(qrels: ScorePairs, run: ScorePairs, k: nat, m: nat)
    requires m <= k
    ensures var rel := RunRelevance(qrels, Take(run, k));
            TopRanksRelevant(qrels, run, m) <==> AllRelevant(rel, m)
  {
    var rel := RunRelevance(qrels, Take(run, k));
    assert forall i :: 0 <= i < m <= |rel| ==> rel[i] == QrelOf(qrels, run[i].doc);
    if AllRelevant(rel, m) {
      assert forall i :: 0 <= i < m ==> 0.0 < rel[i] == QrelOf(qrels, run[i].doc);
    }
  }

  // ----- reciprocal rank -----

  ghost predicate FirstRelevantAt(qrels: ScorePairs, run: ScorePairs, p: nat) {
    && p < |run| && 0.0 < QrelOf(qrels, run[p].doc)
    && forall i :: 0 <= i < p ==> QrelOf(qrels, run[i].doc) <= 0.0
  }

  function ReciprocalRank(qrels: ScorePairs, run: ScorePairs, rank: nat): real {
    if run == [] then 0.0
    else if 0.0 < QrelOf(qrels, run[0].doc) then 1.0 / (rank as real + 1.0)
    else ReciprocalRank(qrels, run[1..], rank + 1)
  }

  /** `reciprocal_rank_at_k`. */
  method ReciprocalRankAtK(qrels: ScorePairs, run: ScorePairs, k: nat) returns (r: real)
    ensures r == ReciprocalRank(qrels, Take(run, k), 0)
  {
    var top := Take(run, k);
    var rank := 0;
    while rank < |top|
      invariant rank <= |top|
      invariant ReciprocalRank(qrels, top, 0) == ReciprocalRank(qrels, top[rank..], rank)
    {
      if 0.0 < QrelOf(qrels, top[rank].doc) {
        return 1.0 / (rank as real + 1.0);
      }
      assert top[rank..][1..] == top[rank + 1..];
      rank := rank + 1;
    }
    return 0.0;
  }

  /** The reciprocal rank is 1/(p+1) for the first relevant rank p ... */
  lemma {:induction false} ReciprocalRankOfFirst(qrels: ScorePairs, run: ScorePairs, rank: nat, p: nat)
    requires FirstRelevantAt(qrels, run, p)
    ensures ReciprocalRank(qrels, run, rank) == 1.0 / ((rank + p) as real + 1.0)
  {
    if p > 0 {
      assert run[1..][p - 1] == run[p];
      assert forall i :: 0 <= i < p - 1 ==> run[1..][i] == run[i + 1];
      ReciprocalRankOfFirst(qrels, run[1..], rank + 1, p - 1);
    }
  }

  /** ... and 0 exactly when no rank is relevant. */
  lemma {:induction false} ReciprocalRankZero(qrels: ScorePairs, run: ScorePairs, rank: nat)
    ensures ReciprocalRank(qrels, run, rank) == 0.0 <==> forall i :: 0 <= i < |run| ==> QrelOf(qrels, run[i].doc) <= 0.0
    ensures 0.0 <= ReciprocalRank(qrels, run, rank) <= 1.0
  {
    if run != [] {
      if 0.0 < QrelOf(qrels, run[0].doc) {
        RatioAtMostOne(1, rank + 1);
      } else {
        ReciprocalRankZero(qrels, run[1..], rank + 1);
        assert forall i :: 0 < i < |run| ==> run[i] == run[1..][i - 1];
      }
    }
  }

  // ----- averages over all queries -----

  datatype Entry = Entry(query: string, pairs: ScorePairs)
  /** The entries of a `BTreeMap` in key order; keys are distinct. */
  type ScoreTable = seq<Entry>

  datatype Metrics = Metrics(ndcg10: real, map5: real, mrr10: real, queries: nat)

  ghost predicate DistinctQueries(qrels: ScoreTable) {
    forall i, j :: 0 <= i < j < |qrels| ==> qrels[i].query != qrels[j].query
  }

  type Score = (ScorePairs, ScorePairs) -> real

  function Scored(qrels: ScoreTable, run: map<string, ScorePairs>): ScoreTable {
    if qrels == [] then []
    else
      var last := qrels[|qrels| - 1];
      Scored(qrels[..|qrels| - 1], run) + if last.query in run then [last] else []
  }

  function Total(score: Score, qrels: ScoreTable, run: map<string, ScorePairs>): real {
    if qrels == [] then 0.0
    else
      var last := qrels[|qrels| - 1];
      Total(score, qrels[..|qrels| - 1], run)
      + if last.query in run then score(last.pairs, run[last.query]) else 0.0
  }

  function Mean(score: Score, qrels: ScoreTable, run: map<string, ScorePairs>): real {
    var n := |Scored(qrels, run)|;
    if n == 0 then 0.0 else Total(score, qrels, run) / n as real
  }

  function Ndcg10(log: Log2Table): Score {
    (q: ScorePairs, r: ScorePairs) => NdcgAtK(log, q, r, 10)
  }

  function Map5(): Score {
    (q: ScorePairs, r: ScorePairs) =>
      match AveragePrecision(q, r, 5) case Value(v) => v case NaN => 0.0
  }

  function Mrr10(): Score {
    (q: ScorePairs, r: ScorePairs) => ReciprocalRank(q, Take(r, 10), 0)
  }

  /** `BenchmarkMetrics::evaluate`. */
  method Evaluate(log: Log2Table, qrels: ScoreTable, run: map<string, ScorePairs>) returns (m: Metrics)
    ensures m.queries == |Scored(qrels, run)|
    ensures m.ndcg10 == Mean(Ndcg10(log), qrels, run)
    ensures m.map5 == Mean(Map5(), qrels, run)
    ensures m.mrr10 == Mean(Mrr10(), qrels, run)
  {
    m := Metrics(0.0, 0.0, 0.0, 0);
    for i := 0 to |qrels|
      invariant m.queries == |Scored(qrels[..i], run)|
      invariant m.queries == 0 ==> m == Metrics(0.0, 0.0, 0.0, 0)
      invariant m.ndcg10 == Total(Ndcg10(log), qrels[..i], run)
      invariant m.map5 == Total(Map5(), qrels[..i], run)
      invariant m.mrr10 == Total(Mrr10(), qrels[..i], run)
    {
      assert qrels[..i + 1][..i] == qrels[..i];
      var query := qrels[i].query;
      if query in run {
        var ap := AveragePrecisionAtK(qrels[i].pairs, run[query], 5);
        var rr := ReciprocalRankAtK(qrels[i].pairs, run[query], 10);
        m := Metrics(m.ndcg10 + NdcgAtK(log, qrels[i].pairs, run[query], 10),
                     m.map5 + ap.v, m.mrr10 + rr, m.queries + 1);
      }
    }
    assert qrels[..|qrels|] == qrels;
    if m.queries > 0 {
      var n := m.queries as real;
      m := m.(ndcg10 := m.ndcg10 / n, map5 := m.map5 / n, mrr10 := m.mrr10 / n);
    }
  }

  ghost predicate UnitScored(score: Score, qrels: ScoreTable, run: map<string, ScorePairs>) {
    forall i :: 0 <= i < |qrels| && qrels[i].query in run ==>
      0.0 <= score(qrels[i].pairs, run[qrels[i].query]) <= 1.0
  }

  lemma {:induction false} TotalInRange(score: Score, qrels: ScoreTable, run: map<string, ScorePairs>)
    requires UnitScored(score, qrels, run)
    ensures 0.0 <= Total(score, qrels, run) <= |Scored(qrels, run)| as real
  {
    if qrels != [] {
      TotalInRange(score, qrels[..|qrels| - 1], run);
    }
  }

  ghost predicate GoodQrels(qrels: ScoreTable) {
    forall i :: 0 <= i < |qrels| ==> NonNegative(Scores(qrels[i].pairs))
  }

  /** No metric looks beyond the tenth rank. */
  ghost predicate GoodRun(run: map<string, ScorePairs>) {
    forall query :: query in run ==> DistinctDocs(Take(run[query], 10))
  }

  lemma FewerDistinct(run: ScorePairs, j: nat, k: nat)
    requires j <= k && DistinctDocs(Take(run, k))
    ensures DistinctDocs(Take(run, j))
  {
    assert forall i :: 0 <= i < |Take(run, j)| ==> Take(run, j)[i] == Take(run, k)[i];
  }

  /** Every averaged metric stays in [0, 1]. */
  lemma MeansInUnit(log: Log2Table, qrels: ScoreTable, run: map<string, ScorePairs>)
    requires GoodQrels(qrels) && GoodRun(run)
    ensures 0.0 <= Mean(Ndcg10(log), qrels, run) <= 1.0
    ensures 0.0 <= Mean(Map5(), qrels, run) <= 1.0
    ensures 0.0 <= Mean(Mrr10(), qrels, run) <= 1.0
  {
    forall i | 0 <= i < |qrels| && qrels[i].query in run
      ensures 0.0 <= Ndcg10(log)(qrels[i].pairs, run[qrels[i].query]) <= 1.0
      ensures 0.0 <= Map5()(qrels[i].pairs, run[qrels[i].query]) <= 1.0
      ensures 0.0 <= Mrr10()(qrels[i].pairs, run[qrels[i].query]) <= 1.0
    {
      NdcgInUnit(log, qrels[i].pairs, run[qrels[i].query], 10);
      FewerDistinct(run[qrels[i].query], 5, 10);
      AveragePrecisionInUnit(qrels[i].pairs, run[qrels[i].query], 5);
      ReciprocalRankZero(qrels[i].pairs, Take(run[qrels[i].query], 10), 0);
    }
    MeanInUnit(Ndcg10(log), qrels, run);
    MeanInUnit(Map5(), qrels, run);
    MeanInUnit(Mrr10(), qrels, run);
  }

  lemma MeanInUnit(score: Score, qrels: ScoreTable, run: map<string, ScorePairs>)
    requires UnitScored(score, qrels, run)
    ensures 0.0 <= Mean(score, qrels, run) <= 1.0
  {
    TotalInRange(score, qrels, run);
    if |Scored(qrels, run)| != 0 {
      DivisionInUnit(Total(score, qrels, run), |Scored(qrels, run)| as real);
    }
  }

  // ----- the benchmark driver -----

  datatype RankedChunk = RankedChunk(chunkId: string, similarity: real)
  datatype QueryRow = QueryRow(query: string, ndcg10: real, topPassages: seq<Pair>)
  datatype Report = Report(metrics: Metrics, queriesDeleted: nat, rows: seq<QueryRow>)
  /** The retrieval backend: ranked chunks for a query and a depth. */
  type Runner = (string, nat) -> seq<RankedChunk>

  function RankedPairs(chunks: seq<RankedChunk>): (r: ScorePairs)
    ensures |r| == |chunks|
    ensures forall i :: 0 <= i < |r| ==> r[i].doc == chunks[i].chunkId && r[i].score == chunks[i].similarity
  {
    seq(|chunks|, i requires 0 <= i < |chunks| => Pair(chunks[i].chunkId, chunks[i].similarity))
  }

  function Passages(texts: map<string, string>, qrels: ScorePairs, run: ScorePairs): seq<Pair> {
    seq(|run|, i requires 0 <= i < |run| =>
      Pair(if run[i].doc in texts then texts[run[i].doc] else "", QrelOf(qrels, run[i].doc)))
  }

  /** The queries whose retrieval came back empty. */
  function Empty(runner: Runner, qrels: ScoreTable, topK: nat): nat {
    if qrels == [] then 0
    else Empty(runner, qrels[..|qrels| - 1], topK) + if runner(qrels[|qrels| - 1].query, topK) == [] then 1 else 0
  }

  /** The queries whose retrieval found something. */
  function Answered(runner: Runner, qrels: ScoreTable, topK: nat): set<string> {
    if qrels == [] then {}
    else
      var query := qrels[|qrels| - 1].query;
      Answered(runner, qrels[..|qrels| - 1], topK) + if runner(query, topK) != [] then {query} else {}
  }

  lemma {:induction false} AnsweredMeaning(runner: Runner, qrels: ScoreTable, topK: nat, i: nat)
    requires i < |qrels|
    ensures qrels[i].query in Answered(runner, qrels, topK) <==> runner(qrels[i].query, topK) != []
  {
    if qrels[i].query in Answered(runner, qrels, topK) {
      AnsweredOnly(runner, qrels, topK, qrels[i].query);
    }
    if i < |qrels| - 1 {
      AnsweredMeaning(runner, qrels[..|qrels| - 1], topK, i);
    }
  }

  lemma {:induction false} AnsweredOnly(runner: Runner, qrels: ScoreTable, topK: nat, query: string)
    requires query in Answered(runner, qrels, topK)
    ensures runner(query, topK) != []
  {
    if query in Answered(runner, qrels[..|qrels| - 1], topK) {
      AnsweredOnly(runner, qrels[..|qrels| - 1], topK, query);
    }
  }

  function RowTotal(rows: seq<QueryRow>): real {
    if rows == [] then 0.0 else RowTotal(rows[..|rows| - 1]) + rows[|rows| - 1].ndcg10
  }

  /** One printed row per scored query, in order. */
  ghost predicate RowsMatch(log: Log2Table, texts: map<string, string>, rows: seq<QueryRow>,
                            scored: ScoreTable, run: map<string, ScorePairs>) {
    && |rows| == |scored|
    && forall i :: 0 <= i < |scored| ==> scored[i].query in run && rows[i] == RowOf(log, texts, scored[i], run)
  }

  function RowOf(log: Log2Table, texts: map<string, string>, entry: Entry, run: map<string, ScorePairs>): QueryRow
    requires entry.query in run
  {
    QueryRow(entry.query, NdcgAtK(log, entry.pairs, run[entry.query], 10),
             Passages(texts, entry.pairs, Take(run[entry.query], 10)))
  }

  /** The retrieval loop: answers kept by query, empty ones dropped and counted. */
  method CollectRun(runner: Runner, qrels: ScoreTable, topK: nat)
    returns (run: map<string, ScorePairs>, deleted: nat)
    requires DistinctQueries(qrels)
    ensures run.Keys == Answered(runner, qrels, topK)
    ensures forall query :: query in run ==> run[query] == RankedPairs(runner(query, topK))
    ensures deleted == Empty(runner, qrels, topK)
  {
    run := map[];
    deleted := 0;
    for i := 0 to |qrels|
      invariant run.Keys == Answered(runner, qrels[..i], topK)
      invariant forall query :: query in run ==> run[query] == RankedPairs(runner(query, topK))
      invariant deleted == Empty(runner, qrels[..i], topK)
    {
      assert qrels[..i + 1] == qrels[..i] + [qrels[i]];
      assert qrels[..i + 1][..i] == qrels[..i];
      var ranked := runner(qrels[i].query, topK);
      if ranked == [] {
        deleted := deleted + 1;
      } else {
        run := run[qrels[i].query := RankedPairs(ranked)];
      }
    }
    assert qrels[..|qrels|] == qrels;
  }

  /** The printed rows: the scored queries in order with their nDCG@10. */
  function BuildRows(log: Log2Table, texts: map<string, string>, qrels: ScoreTable, run: map<string, ScorePairs>)
    : seq<QueryRow>
  {
    if qrels == [] then []
    else
      var last := qrels[|qrels| - 1];
      BuildRows(log, texts, qrels[..|qrels| - 1], run)
      + if last.query in run then [RowOf(log, texts, last, run)] else []
  }

  lemma {:induction false} RowsAreScored(log: Log2Table, texts: map<string, string>, qrels: ScoreTable,
                                         run: map<string, ScorePairs>)
    ensures RowsMatch(log, texts, BuildRows(log, texts, qrels, run), Scored(qrels, run), run)
    ensures RowTotal(BuildRows(log, texts, qrels, run)) == Total(Ndcg10(log), qrels, run)
  {
    if qrels != [] {
      var init, last := qrels[..|qrels| - 1], qrels[|qrels| - 1];
      RowsAreScored(log, texts, init, run);
      if last.query in run {
        var rows := BuildRows(log, texts, init, run);
        assert BuildRows(log, texts, qrels, run)[..|rows|] == rows;
      } else {
        assert BuildRows(log, texts, qrels, run) == BuildRows(log, texts, init, run);
      }
    }
  }

  /** `run_retrieval_benchmark`, without the latency samples. */
  method RunRetrievalBenchmark(log: Log2Table, runner: Runner, qrels: ScoreTable,
                               texts: map<string, string>, topK: nat)
    returns (report: Report, run: map<string, ScorePairs>)
    requires DistinctQueries(qrels)
    ensures run.Keys == Answered(runner, qrels, topK)
    ensures forall query :: query in run ==> run[query] == RankedPairs(runner(query, topK))
    ensures report.queriesDeleted == Empty(runner, qrels, topK)
    ensures report.queriesDeleted + report.metrics.queries == |qrels|
    ensures report.metrics.queries == |report.rows|
    ensures report.metrics.map5 == Mean(Map5(), qrels, run) && report.metrics.mrr10 == Mean(Mrr10(), qrels, run)
    // the printed rows are the scored queries in order, and the nDCG reported is their mean
    ensures RowsMatch(log, texts, report.rows, Scored(qrels, run), run)
    ensures report.rows != [] ==> report.metrics.ndcg10 == RowTotal(report.rows) / |report.rows| as real
    ensures GoodQrels(qrels) && GoodRun(run) ==>
              && 0.0 <= report.metrics.ndcg10 <= 1.0
              && 0.0 <= report.metrics.map5 <= 1.0
              && 0.0 <= report.metrics.mrr10 <= 1.0
  {
    var deleted;
    run, deleted := CollectRun(runner, qrels, topK);
    forall i | 0 <= i < |qrels| ensures qrels[i].query in run <==> runner(qrels[i].query, topK) != [] {
      AnsweredMeaning(runner, qrels, topK, i);
    }
    ScoredOrEmpty(runner, qrels, topK, run);
    var metrics := Evaluate(log, qrels, run);
    var rows := BuildRows(log, texts, qrels, run);
    RowsAreScored(log, texts, qrels, run);
    if GoodQrels(qrels) && GoodRun(run) {
      MeansInUnit(log, qrels, run);
    }
    report := Report(metrics, deleted, rows);
  }

  lemma {:induction false} ScoredOrEmpty(runner: Runner, qrels: ScoreTable, topK: nat, run: map<string, ScorePairs>)
    requires forall i :: 0 <= i < |qrels| ==> (qrels[i].query in run <==> runner(qrels[i].query, topK) != [])
    ensures |Scored(qrels, run)| + Empty(runner, qrels, topK) == |qrels|
  {
    if qrels != [] {
      ScoredOrEmpty(runner, qrels[..|qrels| - 1], topK, run);
    }
  }
}
