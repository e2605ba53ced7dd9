/** The benchmark metrics as sums over the ranks they may read (src/benchmark.rs:178-290). */
module BenchmarkRanks {
  import opened Benchmark
  import opened BenchmarkReport

  function SumTo(f: nat -> real, n: nat): real {
    if n == 0 then 0.0 else SumTo(f, n - 1) + f(n - 1)
  }

  /** A document is worth its first judgement, and nothing without one. */
  lemma {:induction false} FirstJudgement(qrels: ScorePairs, doc: string)
    ensures (forall i :: 0 <= i < |qrels| ==> qrels[i].doc != doc) ==> QrelOf(qrels, doc) == 0.0
    ensures forall i :: 0 <= i < |qrels| && qrels[i].doc == doc && (forall j :: 0 <= j < i ==> qrels[j].doc != doc) ==>
              QrelOf(qrels, doc) == qrels[i].score
  {
    if qrels != [] && qrels[0].doc != doc {
      FirstJudgement(qrels[1..], doc);
      assert forall i :: 0 < i < |qrels| ==> qrels[i] == qrels[1..][i - 1];
    }
  }

  /** What the run gains at a rank: the judgement of its document. */
  function Relevance(qrels: ScorePairs, run: ScorePairs): nat -> real {
    (i: nat) => if i < |run| then QrelOf(qrels, run[i].doc) else 0.0
  }

  function Discounted(log: Log2Table, gains: nat -> real): nat -> real {
    (i: nat) => gains(i) / log(i)
  }

  function Listed(s: seq<real>): nat -> real {
    (i: nat) => if i < |s| then s[i] else 0.0
  }

  lemma {:induction false} GainFromSnoc(log: Log2Table, s: seq<real>, first: nat)
    requires s != []
    ensures GainFrom(log, s, first)
         == GainFrom(log, s[..|s| - 1], first) + s[|s| - 1] / log(first + |s| - 1)
  {
    if |s| == 1 {
      assert s[1..] == [] && s[..0] == [];
    } else {
      GainFromSnoc(log, s[1..], first + 1);
      assert s[1..][..|s| - 2] == s[..|s| - 1][1..];
    }
  }

  /** Discounted gain is the sum of the gains of the first `k` ranks, each divided by the logarithm of its rank. */
  lemma {:induction false} DcgIsSum(log: Log2Table, s: seq<real>, k: nat)
    ensures DcgAtK(log, s, k) == SumTo(Discounted(log, Listed(s)), k)
  {
    if k > 0 {
      DcgIsSum(log, s, k - 1);
      if k <= |s| {
        GainFromSnoc(log, Take(s, k), 0);
        assert Take(s, k)[..k - 1] == Take(s, k - 1);
      } else {
        assert Take(s, k) == Take(s, k - 1);
      }
    }
  }

  lemma {:induction false} SumSame(f: nat -> real, g: nat -> real, n: nat)
    requires forall i: nat :: i < n ==> f(i) == g(i)
    ensures SumTo(f, n) == SumTo(g, n)
  {
    if n > 0 { SumSame(f, g, n - 1); }
  }

  /** nDCG@10 is the discounted gain of the first ten ranks over that of the ten best judgements, 0 if those
      gain nothing. */
  lemma Ndcg10Ranks(log: Log2Table, qrels: ScorePairs, run: ScorePairs) returns (best: seq<real>)
    ensures multiset(best) == multiset(Scores(qrels)) && Descending(best)
    ensures var ideal := SumTo(Discounted(log, Listed(best)), 10);
            Ndcg10(log)(qrels, run)
            == if ideal <= 0.0 then 0.0 else SumTo(Discounted(log, Relevance(qrels, run)), 10) / ideal
  {
    best := SortDesc(Scores(qrels));
    SortDescSorted(Scores(qrels));
    DcgIsSum(log, best, 10);
    var rel := RunRelevance(qrels, Take(run, 10));
    DcgIsSum(log, rel, 10);
    SumSame(Discounted(log, Listed(rel)), Discounted(log, Relevance(qrels, run)), 10);
  }

  /** How many of the first `n` ranks are relevant. */
  ghost function Hits(gains: nat -> real, n: nat): nat {
    |set i: nat | i < n && 0.0 < gains(i)|
  }

  lemma HitsSnoc(gains: nat -> real, n: nat)
    ensures Hits(gains, n + 1) == Hits(gains, n) + if 0.0 < gains(n) then 1 else 0
  {
    var before, after := set i: nat | i < n && 0.0 < gains(i), set i: nat | i < n + 1 && 0.0 < gains(i);
    assert after == if 0.0 < gains(n) then before + {n} else before;
  }

  lemma {:induction false} CountIsHits(s: seq<real>)
    ensures CountPositive(s) == Hits(Listed(s), |s|)
  {
    if s == [] {
      assert (set i: nat | i < 0 && 0.0 < Listed(s)(i)) == {};
    } else {
      var n := |s| - 1;
      CountIsHits(s[..n]);
      HitsSame(Listed(s[..n]), Listed(s), n);
      HitsSnoc(Listed(s), n);
    }
  }

  lemma HitsSame(f: nat -> real, g: nat -> real, n: nat)
    requires forall i: nat :: i < n ==> f(i) == g(i)
    ensures Hits(f, n) == Hits(g, n)
  {
    assert (set i: nat | i < n && 0.0 < f(i)) == (set i: nat | i < n && 0.0 < g(i));
  }

  /** The precision at a relevant rank, 0 at the others. */
  ghost function Precision(gains: nat -> real): nat -> real {
    (i: nat) => if 0.0 < gains(i) then Hits(gains, i + 1) as real / (i + 1) as real else 0.0
  }

  lemma {:induction false} PrecisionIsSum(rel: seq<real>)
    ensures PrecisionSum(rel) == SumTo(Precision(Listed(rel)), |rel|)
  {
    if rel != [] {
      var n := |rel| - 1;
      PrecisionIsSum(rel[..n]);
      forall i: nat | i < n ensures Precision(Listed(rel[..n]))(i) == Precision(Listed(rel))(i) {
        HitsSame(Listed(rel[..n]), Listed(rel), i + 1);
      }
      SumSame(Precision(Listed(rel[..n])), Precision(Listed(rel)), n);
      CountIsHits(rel);
    }
  }

  lemma {:induction false} SumPadded(f: nat -> real, n: nat, m: nat)
    requires n <= m && forall i: nat :: n <= i < m ==> f(i) == 0.0
    ensures SumTo(f, m) == SumTo(f, n)
  {
    if n < m { SumPadded(f, n, m - 1); }
  }

  lemma PrecisionOfRanks(rel: seq<real>, gains: nat -> real, k: nat)
    requires |rel| <= k && forall i: nat :: i < k ==> gains(i) == Listed(rel)(i)
    ensures PrecisionSum(rel) == SumTo(Precision(gains), k)
  {
    PrecisionIsSum(rel);
    var f, g := Precision(Listed(rel)), Precision(gains);
    forall i: nat | i < k ensures f(i) == g(i) { HitsSame(Listed(rel), gains, i + 1); }
    SumSame(f, g, |rel|);
    SumPadded(g, |rel|, k);
  }

  /** MAP@5 of one query adds up the precisions at the relevant ones of the first five ranks and divides by the number
      of relevant judgements, five at most. */
  lemma Map5Ranks(qrels: ScorePairs, run: ScorePairs)
    ensures var relevant := Hits(Listed(Scores(qrels)), |qrels|);
            Map5()(qrels, run)
            == if relevant == 0 then 0.0
               else SumTo(Precision(Relevance(qrels, run)), 5) / (if relevant < 5 then relevant else 5) as real
  {
    CountIsHits(Scores(qrels));
    PrecisionOfRanks(RunRelevance(qrels, Take(run, 5)), Relevance(qrels, run), 5);
  }

  ghost predicate FirstGainAt(gains: nat -> real, p: nat) {
    0.0 < gains(p) && forall i: nat :: i < p ==> gains(i) <= 0.0
  }

  /** MRR@10 of one query is 1/(p+1) for the first relevant rank p below ten, and 0 if there is none. */
  lemma Mrr10Ranks(qrels: ScorePairs, run: ScorePairs)
    ensures (forall p: nat :: p < 10 ==> Relevance(qrels, run)(p) <= 0.0) ==> Mrr10()(qrels, run) == 0.0
    ensures forall p: nat :: p < 10 && FirstGainAt(Relevance(qrels, run), p) ==>
              Mrr10()(qrels, run) == 1.0 / (p + 1) as real
  {
    var top, gain := Take(run, 10), Relevance(qrels, run);
    if forall p: nat :: p < 10 ==> gain(p) <= 0.0 {
      forall i | 0 <= i < |top| ensures QrelOf(qrels, top[i].doc) <= 0.0 { assert gain(i) <= 0.0; }
      ReciprocalRankZero(qrels, top, 0);
    }
    forall p: nat | p < 10 && FirstGainAt(gain, p) ensures Mrr10()(qrels, run) == 1.0 / (p + 1) as real {
      forall i | 0 <= i < p ensures QrelOf(qrels, top[i].doc) <= 0.0 { assert gain(i) <= 0.0; }
      ReciprocalRankOfFirst(qrels, top, 0, p);
    }
  }

  /** The scores of the queries with an answer, 0 for the others. */
  function ScoreOf(score: Score, qrels: ScoreTable, run: map<string, ScorePairs>): nat -> real {
    (i: nat) => if i < |qrels| && qrels[i].query in run then score(qrels[i].pairs, run[qrels[i].query]) else 0.0
  }

  ghost function AnsweredCount(qrels: ScoreTable, run: map<string, ScorePairs>): nat {
    |set i: nat | i < |qrels| && qrels[i].query in run|
  }

  /** A reported mean is the sum of the scores of the answered queries over their number. */
  lemma MeanOfAnswered(score: Score, qrels: ScoreTable, run: map<string, ScorePairs>)
    ensures var n := AnsweredCount(qrels, run);
            Mean(score, qrels, run) == if n == 0 then 0.0 else SumTo(ScoreOf(score, qrels, run), |qrels|) / n as real
  {
    TotalIsSum(score, qrels, run);
    ScoredCount(qrels, run);
  }

  lemma {:induction false} TotalIsSum(score: Score, qrels: ScoreTable, run: map<string, ScorePairs>)
    ensures Total(score, qrels, run) == SumTo(ScoreOf(score, qrels, run), |qrels|)
  {
    if qrels != [] {
      var n := |qrels| - 1;
      TotalIsSum(score, qrels[..n], run);
      SumSame(ScoreOf(score, qrels[..n], run), ScoreOf(score, qrels, run), n);
    }
  }

  lemma AnsweredSnoc(init: ScoreTable, last: Entry, run: map<string, ScorePairs>)
    ensures AnsweredCount(init + [last], run) == AnsweredCount(init, run) + if last.query in run then 1 else 0
  {
    var all := init + [last];
    var before := set i: nat | i < |init| && init[i].query in run;
    var after := set i: nat | i < |all| && all[i].query in run;
    forall i: nat | i < |init| ensures all[i] == init[i] { }
    if last.query in run {
      assert after == before + {|init|};
    } else {
      assert after == before;
    }
  }

  lemma {:induction false} ScoredCount(qrels: ScoreTable, run: map<string, ScorePairs>)
    ensures |Scored(qrels, run)| == AnsweredCount(qrels, run)
  {
    var all := set i: nat | i < |qrels| && qrels[i].query in run;
    if qrels == [] {
      assert all == {};
    } else {
      var init, last := qrels[..|qrels| - 1], qrels[|qrels| - 1];
      ScoredCount(init, run);
      assert qrels == init + [last];
      AnsweredSnoc(init, last, run);
    }
  }
}
