/** Retrieval metrics (src/benchmark.rs): DCG, nDCG, average precision and
    reciprocal rank of one ranked run, and their averages over a benchmark.

    Scores are real numbers; `log2(i + 2)` is a table of positive, strictly
    increasing values starting at 1, of which nothing else is used. */
module Benchmark {

  datatype Pair = Pair(doc: string, score: real)
  type ScorePairs = seq<Pair>

  /** What the proofs use of the map from a rank `i` to `log2(i + 2)`. */
  ghost predicate IsLog2Table(f: nat -> real) {
    && f(0) == 1.0
    && (forall i :: 0.0 < f(i))
    && (forall i, j :: i < j ==> f(i) < f(j))
  }

  type Log2Table = f: nat -> real | IsLog2Table(f) witness (i: nat) => i as real + 1.0

  // ----- relevance of ranked documents -----

  function QrelOf(qrels: ScorePairs, doc: string): real {
    if qrels == [] then 0.0
    else if qrels[0].doc == doc then qrels[0].score
    else QrelOf(qrels[1..], doc)
  }

  function Scores(qrels: ScorePairs): (s: seq<real>)
    ensures |s| == |qrels|
    ensures forall i :: 0 <= i < |s| ==> s[i] == qrels[i].score
  {
    seq(|qrels|, i requires 0 <= i < |qrels| => qrels[i].score)
  }

  function RunRelevance(qrels: ScorePairs, run: ScorePairs): (s: seq<real>)
    ensures |s| == |run|
    ensures forall i :: 0 <= i < |s| ==> s[i] == QrelOf(qrels, run[i].doc)
  {
    seq(|run|, i requires 0 <= i < |run| => QrelOf(qrels, run[i].doc))
  }

  function Take<T>(s: seq<T>, k: nat): (t: seq<T>)
    ensures |t| == (if k < |s| then k else |s|)
  {
    if k < |s| then s[..k] else s
  }

  ghost predicate DistinctDocs(run: ScorePairs) {
    forall i, j :: 0 <= i < j < |run| ==> run[i].doc != run[j].doc
  }

  ghost predicate NonNegative(s: seq<real>) {
    forall i :: 0 <= i < |s| ==> 0.0 <= s[i]
  }

  ghost predicate Descending(s: seq<real>) {
    forall i, j :: 0 <= i < j < |s| ==> s[j] <= s[i]
  }

  // ----- DCG and nDCG -----

  function Gain(log: Log2Table, relevance: real, rank: nat): real {
    relevance / log(rank)
  }

  /** Discounted gain of `ranked` when its first element stands at rank `first`. */
  function GainFrom(log: Log2Table, ranked: seq<real>, first: nat): real {
    if ranked == [] then 0.0 else Gain(log, ranked[0], first) + GainFrom(log, ranked[1..], first + 1)
  }

  function DcgAtK(log: Log2Table, ranked: seq<real>, k: nat): real {
    GainFrom(log, Take(ranked, k), 0)
  }

  function InsertDesc(x: real, s: seq<real>): seq<real> {
    if s == [] || s[0] < x then [x] + s else [s[0]] + InsertDesc(x, s[1..])
  }

  /** The source sorts with a stable comparison sort; on reals any sort agrees with this one. */
  function SortDesc(s: seq<real>): seq<real> {
    if s == [] then [] else InsertDesc(s[0], SortDesc(s[1..]))
  }

  function NdcgAtK(log: Log2Table, qrels: ScorePairs, run: ScorePairs, k: nat): real {
    var idcg := DcgAtK(log, SortDesc(Scores(qrels)), k);
    if idcg <= 0.0 then 0.0
    else DcgAtK(log, RunRelevance(qrels, Take(run, k)), k) / idcg
  }

  // ----- sorting -----

  lemma {:induction false} InsertDescElements(x: real, s: seq<real>)
    ensures multiset(InsertDesc(x, s)) == multiset{x} + multiset(s)
  {
    if s == [] || s[0] < x {
    } else {
      InsertDescElements(x, s[1..]);
      assert s == [s[0]] + s[1..];
    }
  }

  lemma {:induction false} InsertDescSorted(x: real, s: seq<real>)
    requires Descending(s)
    ensures Descending(InsertDesc(x, s))
  {
    if s == [] || s[0] < x {
    } else {
      InsertDescSorted(x, s[1..]);
      var t := InsertDesc(x, s[1..]);
      InsertDescElements(x, s[1..]);
      forall i | 0 <= i < |t| ensures t[i] <= s[0] {
        assert t[i] in multiset(t);
        assert t[i] == x || t[i] in s[1..];
      }
    }
  }

  lemma {:induction false} SortDescSorted(s: seq<real>)
    ensures Descending(SortDesc(s))
    ensures multiset(SortDesc(s)) == multiset(s)
  {
    if s == [] {
    } else {
      SortDescSorted(s[1..]);
      InsertDescSorted(s[0], SortDesc(s[1..]));
      InsertDescElements(s[0], SortDesc(s[1..]));
      assert s == [s[0]] + s[1..];
    }
  }

  lemma SortDescKeepsSign(s: seq<real>)
    requires NonNegative(s)
    ensures NonNegative(SortDesc(s))
  {
    SortDescSorted(s);
    forall i | 0 <= i < |SortDesc(s)| ensures 0.0 <= SortDesc(s)[i] {
      assert SortDesc(s)[i] in multiset(SortDesc(s));
      assert SortDesc(s)[i] in s;
    }
  }

  // ----- the rearrangement inequality -----

  lemma GainMonotone(log: Log2Table, a: real, b: real, rank: nat)
    requires a <= b
    ensures Gain(log, a, rank) <= Gain(log, b, rank)
    ensures a < b ==> Gain(log, a, rank) < Gain(log, b, rank)
  {
    var l := log(rank);
    assert a / l * l == a && b / l * l == b;
  }

  lemma ExchangeGain(log: Log2Table, a: real, b: real, i: nat, j: nat)
    requires a <= b && i < j
    ensures Gain(log, a, i) + Gain(log, b, j) <= Gain(log, b, i) + Gain(log, a, j)
    ensures a < b ==> Gain(log, a, i) + Gain(log, b, j) < Gain(log, b, i) + Gain(log, a, j)
  {
    var x, y := 1.0 / log(i), 1.0 / log(j);
    var l, m := log(i), log(j);
    assert x * l == 1.0 && y * m == 1.0;
    assert (x - y) * (l * m) == m - l;
    assert y < x;
    assert a / l == a * x && b / l == b * x && a / m == a * y && b / m == b * y by {
      DivIsTimes(a, l, x); DivIsTimes(b, l, x); DivIsTimes(a, m, y); DivIsTimes(b, m, y);
    }
    assert (b - a) * (x - y) >= 0.0;
    assert a < b ==> (b - a) * (x - y) > 0.0;
    assert (b - a) * (x - y) == b * x + a * y - a * x - b * y;
  }

  lemma DivIsTimes(a: real, l: real, x: real)
    requires l > 0.0 && x * l == 1.0
    ensures a / l == a * x
  {
    assert (a * x) * l == a * (x * l) == a;
  }

  lemma {:induction false} GainFromConcat(log: Log2Table, s: seq<real>, t: seq<real>, first: nat)
    ensures GainFrom(log, s + t, first) == GainFrom(log, s, first) + GainFrom(log, t, first + |s|)
  {
    if s == [] {
      assert s + t == t;
    } else {
      GainFromConcat(log, s[1..], t, first + 1);
      assert (s + t)[1..] == s[1..] + t;
    }
  }

  /** Swapping two adjacent ranks so that the more relevant document comes first
      never lowers the gain, and raises it when the relevances differ. */
  lemma AdjacentSwap(log: Log2Table, s: seq<real>, p: nat, first: nat)
    requires p + 1 < |s| && s[p] <= s[p + 1]
    ensures GainFrom(log, s, first) <= GainFrom(log, s[p := s[p + 1]][p + 1 := s[p]], first)
    ensures s[p] < s[p + 1] ==>
              GainFrom(log, s, first) < GainFrom(log, s[p := s[p + 1]][p + 1 := s[p]], first)
  {
    var pre, post := s[..p], s[p + 2..];
    var mid, dim := [s[p], s[p + 1]], [s[p + 1], s[p]];
    assert s == pre + (mid + post);
    assert s[p := s[p + 1]][p + 1 := s[p]] == pre + (dim + post);
    GainFromConcat(log, pre, mid + post, first);
    GainFromConcat(log, pre, dim + post, first);
    GainFromConcat(log, mid, post, first + p);
    GainFromConcat(log, dim, post, first + p);
    PairGain(log, s[p], s[p + 1], first + p);
    PairGain(log, s[p + 1], s[p], first + p);
    ExchangeGain(log, s[p], s[p + 1], first + p, first + p + 1);
  }

  lemma PairGain(log: Log2Table, a: real, b: real, first: nat)
    ensures GainFrom(log, [a, b], first) == Gain(log, a, first) + Gain(log, b, first + 1)
  {
    assert [a, b][1..] == [b];
    assert GainFrom(log, [b], first + 1) == Gain(log, b, first + 1);
  }

  function Without<T>(s: seq<T>, p: nat): (t: seq<T>)
    requires p < |s|
    ensures |t| == |s| - 1
  {
    s[..p] + s[p + 1..]
  }

  lemma WithoutMultiset<T>(s: seq<T>, p: nat)
    requires p < |s|
    ensures multiset(s) == multiset(Without(s, p)) + multiset{s[p]}
  {
    assert s == s[..p] + ([s[p]] + s[p + 1..]);
  }

  /** Moving a greatest element to the front never lowers the gain; it keeps the
      gain only if the front already held an equal value. */
  lemma {:induction false} MoveMaxToFront(log: Log2Table, s: seq<real>, p: nat, first: nat)
    requires p < |s| && forall i :: 0 <= i < |s| ==> s[i] <= s[p]
    ensures GainFrom(log, s, first) <= GainFrom(log, [s[p]] + Without(s, p), first)
    ensures s[0] < s[p] ==> GainFrom(log, s, first) < GainFrom(log, [s[p]] + Without(s, p), first)
    decreases p
  {
    if p == 0 {
      assert [s[0]] + Without(s, 0) == s;
    } else {
      var t := s[p - 1 := s[p]][p := s[p - 1]];
      AdjacentSwap(log, s, p - 1, first);
      MoveMaxToFront(log, t, p - 1, first);
      assert Without(t, p - 1) == Without(s, p);
    }
  }

  function ArgMax(s: seq<real>): (p: nat)
    requires s != []
    ensures p < |s| && forall i :: 0 <= i < |s| ==> s[i] <= s[p]
    ensures forall i :: 0 <= i < p ==> s[i] < s[p]
  {
    if |s| == 1 then 0
    else
      var q := ArgMax(s[1..]) + 1;
      assert forall i :: 0 <= i < |s| - 1 ==> s[1..][i] == s[i + 1];
      if s[q] <= s[0] then 0 else q
  }

  /** Every positive value occurs in `r` at most as often as in `ideal`. */
  ghost predicate DrawnFrom(r: seq<real>, ideal: seq<real>) {
    forall v :: 0.0 < v ==> multiset(r)[v] <= multiset(ideal)[v]
  }

  function At(s: seq<real>, i: nat): real {
    if i < |s| then s[i] else 0.0
  }

  lemma {:induction false} GainFromNonNegative(log: Log2Table, s: seq<real>, first: nat)
    requires NonNegative(s)
    ensures 0.0 <= GainFrom(log, s, first)
    ensures GainFrom(log, s, first) == 0.0 <==> forall i :: 0 <= i < |s| ==> s[i] == 0.0
  {
    if s != [] {
      GainFromNonNegative(log, s[1..], first + 1);
      GainMonotone(log, 0.0, s[0], first);
      assert forall i :: 0 < i < |s| ==> s[i] == s[1..][i - 1];
    }
  }

  lemma DrawnFromTail(r: seq<real>, ideal: seq<real>, p: nat)
    requires NonNegative(r) && Descending(ideal) && DrawnFrom(r, ideal)
    requires p < |r| && forall i :: 0 <= i < |r| ==> r[i] <= r[p]
    requires 0.0 < r[p]
    ensures ideal != [] && r[p] <= ideal[0]
    ensures DrawnFrom(Without(r, p), ideal[1..])
  {
    var x := r[p];
    WithoutMultiset(r, p);
    assert x in multiset(r);
    assert multiset(ideal)[x] > 0;
    assert x in ideal;
    assert ideal == [ideal[0]] + ideal[1..];
    forall v | 0.0 < v ensures multiset(Without(r, p))[v] <= multiset(ideal[1..])[v] {
      assert multiset(r)[v] <= multiset(ideal)[v];
      if v == ideal[0] && v != x {
        assert v !in r;
      }
    }
  }

  /** Rearrangement: no sequence of at most `k` values drawn from `ideal` gains more
      than the first `k` values of `ideal` in descending order, and only the same
      values rank by rank gain as much. */
  lemma {:induction false} Rearrangement(log: Log2Table, r: seq<real>, ideal: seq<real>, k: nat, first: nat)
    requires |r| <= k && NonNegative(r) && NonNegative(ideal)
    requires Descending(ideal) && DrawnFrom(r, ideal)
    ensures GainFrom(log, r, first) <= GainFrom(log, Take(ideal, k), first)
    ensures GainFrom(log, r, first) == GainFrom(log, Take(ideal, k), first)
            ==> forall i :: At(r, i) == At(Take(ideal, k), i)
    decreases |r|
  {
    var top := Take(ideal, k);
    GainFromNonNegative(log, top, first);
    GainFromNonNegative(log, r, first);
    if r != [] {
      var p := ArgMax(r);
      if r[p] == 0.0 {
        assert forall i :: 0 <= i < |r| ==> r[i] == 0.0;
      } else {
        DrawnFromTail(r, ideal, p);
        var rest := Without(r, p);
        MoveMaxToFront(log, r, p, first);
        Rearrangement(log, rest, ideal[1..], k - 1, first + 1);
        GainMonotone(log, r[p], ideal[0], first);
        assert top[1..] == Take(ideal[1..], k - 1);
        assert ([r[p]] + rest)[1..] == rest;
        if GainFrom(log, r, first) == GainFrom(log, top, first) {
          AllEqualGains(log, r, rest, ideal, top, p, first);
        }
      }
    }
  }

  lemma AllEqualGains(log: Log2Table, r: seq<real>, rest: seq<real>, ideal: seq<real>, top: seq<real>,
                      p: nat, first: nat)
    requires p < |r| && rest == Without(r, p) && forall i :: 0 <= i < |r| ==> r[i] <= r[p]
    requires forall i :: 0 <= i < p ==> r[i] < r[p]
    requires ideal != [] && top != [] && top[0] == ideal[0] && r[p] <= ideal[0]
    requires GainFrom(log, r, first) == GainFrom(log, top, first)
    requires GainFrom(log, rest, first + 1) <= GainFrom(log, top[1..], first + 1)
    requires GainFrom(log, rest, first + 1) == GainFrom(log, top[1..], first + 1)
             ==> forall i :: At(rest, i) == At(top[1..], i)
    ensures forall i :: At(r, i) == At(top, i)
  {
    MoveMaxToFront(log, r, p, first);
    GainMonotone(log, r[p], ideal[0], first);
    assert ([r[p]] + rest)[1..] == rest;
    assert r[0] == r[p] == ideal[0];
    assert p == 0 && rest == r[1..];
    forall i: nat ensures At(r, i) == At(top, i) {
      if i > 0 {
        assert At(r, i) == At(r[1..], i - 1);
        assert At(top, i) == At(top[1..], i - 1);
      }
    }
  }

  // ----- nDCG lies in [0, 1] -----

  lemma {:induction false} QrelOfFirst(qrels: ScorePairs, doc: string) returns (p: nat)
    requires QrelOf(qrels, doc) != 0.0
    ensures p < |qrels| && qrels[p].doc == doc && qrels[p].score == QrelOf(qrels, doc)
    ensures forall other :: other != doc ==> QrelOf(Without(qrels, p), other) == QrelOf(qrels, other)
  {
    if qrels[0].doc == doc {
      p := 0;
      assert Without(qrels, 0) == qrels[1..];
    } else {
      var q := QrelOfFirst(qrels[1..], doc);
      p := q + 1;
      assert Without(qrels, p)[1..] == Without(qrels[1..], q);
    }
  }

  /** Distinct documents read distinct judgements, so a run's positive relevances
      are drawn from the judgements. Repeated judgements of one document and
      negative ones do no harm. */
  lemma {:induction false} RunDrawnFromQrels(qrels: ScorePairs, run: ScorePairs)
    requires DistinctDocs(run)
    ensures DrawnFrom(RunRelevance(qrels, run), Scores(qrels))
    decreases |run|
  {
    if run != [] {
      var r := RunRelevance(qrels, run);
      if r[0] == 0.0 {
        RunDrawnFromQrels(qrels, run[1..]);
        RunTailIgnores(qrels, qrels, run);
        DrawnFromZeroHead(r, Scores(qrels));
      } else {
        var p := QrelOfFirst(qrels, run[0].doc);
        var fewer := Without(qrels, p);
        RunDrawnFromQrels(fewer, run[1..]);
        RunTailIgnores(qrels, fewer, run);
        ScoresWithout(qrels, p);
        DrawnFromHead(r, Scores(qrels), Scores(fewer));
      }
    }
  }

  lemma ScoresWithout(qrels: ScorePairs, p: nat)
    requires p < |qrels|
    ensures multiset(Scores(qrels)) == multiset(Scores(Without(qrels, p))) + multiset{qrels[p].score}
  {
    WithoutMultiset(Scores(qrels), p);
    assert Without(Scores(qrels), p) == Scores(Without(qrels, p));
  }

  lemma DrawnFromZeroHead(r: seq<real>, s: seq<real>)
    requires r != [] && r[0] == 0.0 && DrawnFrom(r[1..], s)
    ensures DrawnFrom(r, s)
  {
    assert r == [r[0]] + r[1..];
  }

  lemma RunTailIgnores(qrels: ScorePairs, fewer: ScorePairs, run: ScorePairs)
    requires run != [] && DistinctDocs(run)
    requires forall other :: other != run[0].doc ==> QrelOf(fewer, other) == QrelOf(qrels, other)
    ensures RunRelevance(fewer, run[1..]) == RunRelevance(qrels, run)[1..]
  {
  }

  lemma DrawnFromHead(r: seq<real>, s: seq<real>, fewer: seq<real>)
    requires r != [] && DrawnFrom(r[1..], fewer)
    requires multiset(s) == multiset(fewer) + multiset{r[0]}
    ensures DrawnFrom(r, s)
  {
    assert r == [r[0]] + r[1..];
  }

  lemma DrawnFromSorted(r: seq<real>, s: seq<real>)
    requires DrawnFrom(r, s)
    ensures DrawnFrom(r, SortDesc(s))
  {
    SortDescSorted(s);
  }

  lemma {:induction false} QrelOfNonNegative(qrels: ScorePairs, doc: string)
    requires NonNegative(Scores(qrels))
    ensures 0.0 <= QrelOf(qrels, doc)
  {
    if qrels != [] && qrels[0].doc != doc {
      assert Scores(qrels[1..]) == Scores(qrels)[1..];
      QrelOfNonNegative(qrels[1..], doc);
    } else if qrels != [] {
      assert Scores(qrels)[0] == qrels[0].score;
    }
  }

  lemma RunVersusIdeal(log: Log2Table, qrels: ScorePairs, run: ScorePairs, k: nat)
    requires DistinctDocs(Take(run, k)) && NonNegative(Scores(qrels))
    ensures var rel := RunRelevance(qrels, Take(run, k));
            var ideal := SortDesc(Scores(qrels));
            && 0.0 <= DcgAtK(log, rel, k) <= DcgAtK(log, ideal, k)
            && (DcgAtK(log, rel, k) == DcgAtK(log, ideal, k) ==>
                  forall i :: At(rel, i) == At(Take(ideal, k), i))
  {
    var top := Take(run, k);
    var rel := RunRelevance(qrels, top);
    forall i | 0 <= i < |rel| ensures 0.0 <= rel[i] { QrelOfNonNegative(qrels, top[i].doc); }
    RunDrawnFromQrels(qrels, top);
    DrawnFromSorted(rel, Scores(qrels));
    SortDescSorted(Scores(qrels));
    SortDescKeepsSign(Scores(qrels));
    assert Take(rel, k) == rel;
    Rearrangement(log, rel, SortDesc(Scores(qrels)), k, 0);
    GainFromNonNegative(log, rel, 0);
  }

  lemma DivisionInUnit(a: real, b: real)
    requires 0.0 <= a <= b && 0.0 < b
    ensures 0.0 <= a / b <= 1.0
    ensures a / b == 1.0 <==> a == b
  {
    assert a / b * b == a;
  }

  lemma DivisionMonotone(a: real, b: real, c: real)
    requires a <= b && 0.0 < c
    ensures a / c <= b / c
    ensures a < b ==> a / c < b / c
  {
    assert a / c * c == a && b / c * c == b;
  }

  /** nDCG@k of a run without repeated documents in its first `k` lies in [0, 1] whenever no judgement is negative. */
  lemma NdcgInUnit(log: Log2Table, qrels: ScorePairs, run: ScorePairs, k: nat)
    requires DistinctDocs(Take(run, k)) && NonNegative(Scores(qrels))
    ensures 0.0 <= NdcgAtK(log, qrels, run, k) <= 1.0
  {
    RunVersusIdeal(log, qrels, run, k);
    var idcg := DcgAtK(log, SortDesc(Scores(qrels)), k);
    if 0.0 < idcg {
      DivisionInUnit(DcgAtK(log, RunRelevance(qrels, Take(run, k)), k), idcg);
    }
  }

  lemma {:induction false} SameGains(log: Log2Table, r: seq<real>, s: seq<real>, first: nat)
    requires forall i :: At(r, i) == At(s, i)
    ensures GainFrom(log, r, first) == GainFrom(log, s, first)
    decreases |r| + |s|
  {
    if r == [] && s == [] {
    } else {
      var r', s' := if r == [] then [] else r[1..], if s == [] then [] else s[1..];
      forall i: nat ensures At(r', i) == At(s', i) {
        assert At(r', i) == At(r, i + 1) && At(s', i) == At(s, i + 1);
      }
      SameGains(log, r', s', first + 1);
      assert At(r, 0) == At(s, 0);
    }
  }

  /** A run scores 1 exactly when something relevant exists within reach of `k` and
      its first `k` ranks carry, rank by rank, the best judgements in descending order. */
  lemma NdcgIsOne(log: Log2Table, qrels: ScorePairs, run: ScorePairs, k: nat)
    requires DistinctDocs(Take(run, k)) && NonNegative(Scores(qrels))
    ensures NdcgAtK(log, qrels, run, k) == 1.0 <==>
            && 0 < k && (exists i :: 0 <= i < |qrels| && 0.0 < qrels[i].score)
            && forall i :: At(RunRelevance(qrels, Take(run, k)), i) == At(Take(SortDesc(Scores(qrels)), k), i)
  {
    var ideal := SortDesc(Scores(qrels));
    var rel := RunRelevance(qrels, Take(run, k));
    RunVersusIdeal(log, qrels, run, k);
    IdealGainPositive(log, qrels, k);
    assert Take(rel, k) == rel;
    var idcg := DcgAtK(log, ideal, k);
    if 0.0 < idcg {
      DivisionInUnit(DcgAtK(log, rel, k), idcg);
      if forall i :: At(rel, i) == At(Take(ideal, k), i) {
        SameGains(log, rel, Take(ideal, k), 0);
      }
    }
  }

  lemma IdealGainPositive(log: Log2Table, qrels: ScorePairs, k: nat)
    requires NonNegative(Scores(qrels))
    ensures 0.0 < DcgAtK(log, SortDesc(Scores(qrels)), k)
            <==> 0 < k && exists i :: 0 <= i < |qrels| && 0.0 < qrels[i].score
  {
    var s := Scores(qrels);
    var ideal := SortDesc(s);
    SortDescSorted(s);
    SortDescKeepsSign(s);
    var top := Take(ideal, k);
    GainFromNonNegative(log, top, 0);
    if 0 < k && exists i :: 0 <= i < |qrels| && 0.0 < qrels[i].score {
      var i :| 0 <= i < |qrels| && 0.0 < qrels[i].score;
      assert s[i] in multiset(s);
      assert s[i] in ideal;
      assert top[0] == ideal[0];
    } else if 0 < k {
      forall j | 0 <= j < |top| ensures top[j] == 0.0 {
        assert ideal[j] in multiset(ideal);
        assert ideal[j] in s;
      }
    }
  }

  /** Swapping two adjacent documents of the run so that the more relevant one comes first never lowers nDCG@k,
      whatever the judgements, and raises it where the first of the two ranks counts and the relevances differ. */
  lemma NdcgAdjacentSwap(log: Log2Table, qrels: ScorePairs, run: ScorePairs, k: nat, p: nat)
    requires p + 1 < |run|
    requires QrelOf(qrels, run[p].doc) <= QrelOf(qrels, run[p + 1].doc)
    ensures var swapped := run[p := run[p + 1]][p + 1 := run[p]];
            && NdcgAtK(log, qrels, run, k) <= NdcgAtK(log, qrels, swapped, k)
            && (p < k && 0.0 < DcgAtK(log, SortDesc(Scores(qrels)), k)
                && QrelOf(qrels, run[p].doc) < QrelOf(qrels, run[p + 1].doc)
                ==> NdcgAtK(log, qrels, run, k) < NdcgAtK(log, qrels, swapped, k))
  {
    var swapped := run[p := run[p + 1]][p + 1 := run[p]];
    var rel, rel' := RunRelevance(qrels, Take(run, k)), RunRelevance(qrels, Take(swapped, k));
    assert Take(rel, k) == rel && Take(rel', k) == rel';
    if p + 1 < k {
      assert rel' == rel[p := rel[p + 1]][p + 1 := rel[p]];
      AdjacentSwap(log, rel, p, 0);
    } else if p + 1 == k {
      // only the first of the two ranks is within reach of k
      assert rel == rel[..p] + [rel[p]] && rel' == rel[..p] + [rel'[p]];
      GainFromConcat(log, rel[..p], [rel[p]], 0);
      GainFromConcat(log, rel[..p], [rel'[p]], 0);
      GainMonotone(log, rel[p], rel'[p], p);
    } else {
      assert rel == rel';
    }
    var idcg := DcgAtK(log, SortDesc(Scores(qrels)), k);
    if 0.0 < idcg {
      DivisionMonotone(DcgAtK(log, rel, k), DcgAtK(log, rel', k), idcg);
    }
  }

  // ----- exactly when the bound holds -----

  function Ones(n: nat): (s: seq<real>)
    ensures |s| == n && forall i :: 0 <= i < n ==> s[i] == 1.0
  {
    seq(n, _ => 1.0)
  }

  /** These documents, each judged relevant. */
  function Judged(ranked: ScorePairs): (qrels: ScorePairs)
    ensures |qrels| == |ranked|
    ensures forall i :: 0 <= i < |ranked| ==> qrels[i] == Pair(ranked[i].doc, 1.0)
  {
    seq(|ranked|, i requires 0 <= i < |ranked| => Pair(ranked[i].doc, 1.0))
  }

  lemma {:induction false} QrelOfJudged(ranked: ScorePairs, doc: string)
    ensures QrelOf(Judged(ranked), doc) == if exists i :: 0 <= i < |ranked| && ranked[i].doc == doc then 1.0 else 0.0
  {
    if ranked != [] {
      QrelOfJudged(ranked[1..], doc);
      assert Judged(ranked)[1..] == Judged(ranked[1..]);
      assert forall i :: 0 < i < |ranked| ==> ranked[i] == ranked[1..][i - 1];
    }
  }

  lemma SortedOnes(s: seq<real>)
    requires forall i :: 0 <= i < |s| ==> s[i] == 1.0
    ensures SortDesc(s) == Ones(|s|)
  {
    var t := SortDesc(s);
    SortDescSorted(s);
    assert |multiset(t)| == |t| && |multiset(s)| == |s|;
    forall i | 0 <= i < |t| ensures t[i] == 1.0 {
      assert t[i] in multiset(t);
      assert t[i] in s;
    }
  }

  lemma OneMore(log: Log2Table, n: nat)
    ensures GainFrom(log, Ones(n), 0) < GainFrom(log, Ones(n + 1), 0)
    ensures 0.0 <= GainFrom(log, Ones(n), 0) && (n > 0 ==> 0.0 < GainFrom(log, Ones(n), 0))
  {
    GainFromNonNegative(log, Ones(n), 0);
    if n > 0 { assert Ones(n)[0] == 1.0; }
    assert Ones(n + 1) == Ones(n) + [1.0];
    GainFromConcat(log, Ones(n), [1.0], 0);
    GainMonotone(log, 0.0, 1.0, n);
  }

  lemma JudgedRelevance(top: ScorePairs, i: nat, j: nat)
    requires i < j < |top| && top[i].doc == top[j].doc
    ensures var rel := RunRelevance(Judged(top[..j]), top);
            forall r :: 0 <= r < |top| ==> 0.0 <= rel[r] && (r <= j ==> rel[r] == 1.0)
  {
    forall r | 0 <= r < |top|
      ensures 0.0 <= QrelOf(Judged(top[..j]), top[r].doc)
      ensures r <= j ==> QrelOf(Judged(top[..j]), top[r].doc) == 1.0
    {
      QrelOfJudged(top[..j], top[r].doc);
      if r < j { assert top[..j][r].doc == top[r].doc; }
      assert top[..j][i].doc == top[j].doc;
    }
  }

  lemma OnesGain(log: Log2Table, rel: seq<real>, n: nat)
    requires n <= |rel| && NonNegative(rel) && forall r :: 0 <= r < n ==> rel[r] == 1.0
    ensures GainFrom(log, Ones(n), 0) <= GainFrom(log, rel, 0)
  {
    assert rel == Ones(n) + rel[n..];
    GainFromConcat(log, Ones(n), rel[n..], 0);
    GainFromNonNegative(log, rel[n..], n);
  }

  /** Where rank `j` repeats an earlier document, judging the documents before it relevant scores above 1. */
  lemma RepeatScoresHigh(log: Log2Table, run: ScorePairs, k: nat, i: nat, j: nat)
    requires i < j < |Take(run, k)| && Take(run, k)[i].doc == Take(run, k)[j].doc
    ensures NonNegative(Scores(Judged(Take(run, k)[..j])))
    ensures NdcgAtK(log, Judged(Take(run, k)[..j]), run, k) > 1.0
  {
    var top := Take(run, k);
    var qrels := Judged(top[..j]);
    var rel := RunRelevance(qrels, top);
    JudgedRelevance(top, i, j);
    SortedOnes(Scores(qrels));
    assert Take(Ones(j), k) == Ones(j) && Take(rel, k) == rel;
    OnesGain(log, rel, j + 1);
    OneMore(log, j);
    DivisionAboveOne(GainFrom(log, rel, 0), GainFrom(log, Ones(j), 0));
  }

  lemma DivisionAboveOne(a: real, b: real)
    requires 0.0 < b < a
    ensures a / b > 1.0
  {
    assert a / b * b == a;
  }

  ghost predicate InUnit(x: real) { 0.0 <= x <= 1.0 }

  /** nDCG@k of a run lies in [0, 1] under every list of judgements without negative ones exactly when no document
      repeats within the first `k` ranks. */
  lemma NdcgNeedsDistinctDocs(log: Log2Table, run: ScorePairs, k: nat)
    ensures (forall qrels :: NonNegative(Scores(qrels)) ==> InUnit(NdcgAtK(log, qrels, run, k)))
       <==> DistinctDocs(Take(run, k))
  {
    var top := Take(run, k);
    if DistinctDocs(top) {
      forall qrels | NonNegative(Scores(qrels)) ensures InUnit(NdcgAtK(log, qrels, run, k)) {
        NdcgInUnit(log, qrels, run, k);
      }
    } else {
      var i, j :| 0 <= i < j < |top| && top[i].doc == top[j].doc;
      RepeatScoresHigh(log, run, k, i, j);
      assert !InUnit(NdcgAtK(log, Judged(top[..j]), run, k));
    }
  }

  lemma {:induction false} QrelOfItem(qrels: ScorePairs, p: nat)
    requires DistinctDocs(qrels) && p < |qrels|
    ensures QrelOf(qrels, qrels[p].doc) == qrels[p].score
  {
    if p > 0 {
      assert qrels[0].doc != qrels[p].doc;
      QrelOfItem(qrels[1..], p - 1);
    }
  }

  /** A run of one document scores as the sign of its judgement. */
  lemma SingleScoresLow(log: Log2Table, qrels: ScorePairs, doc: string, k: nat)
    requires QrelOf(qrels, doc) < 0.0 && 0.0 < DcgAtK(log, SortDesc(Scores(qrels)), k)
    ensures NdcgAtK(log, qrels, [Pair(doc, 0.0)], k) < 0.0
  {
    var run, idcg := [Pair(doc, 0.0)], DcgAtK(log, SortDesc(Scores(qrels)), k);
    assert k > 0 && Take(run, k) == run;
    var rel := RunRelevance(qrels, run);
    assert rel == [QrelOf(qrels, doc)] && Take(rel, k) == rel;
    assert GainFrom(log, rel, 0) == Gain(log, rel[0], 0);
    GainMonotone(log, rel[0], 0.0, 0);
    DivisionMonotone(Gain(log, rel[0], 0), 0.0, idcg);
  }

  /** Judgements of distinct documents keep every run without repetitions in [0, 1] exactly when none of them is
      negative, or nothing in reach of `k` has a positive ideal gain, so that every run scores 0. */
  lemma NdcgNeedsNonNegativeQrels(log: Log2Table, qrels: ScorePairs, k: nat)
    requires DistinctDocs(qrels)
    ensures (forall run :: DistinctDocs(Take(run, k)) ==> InUnit(NdcgAtK(log, qrels, run, k)))
       <==> DcgAtK(log, SortDesc(Scores(qrels)), k) <= 0.0 || NonNegative(Scores(qrels))
  {
    var idcg := DcgAtK(log, SortDesc(Scores(qrels)), k);
    if NonNegative(Scores(qrels)) {
      forall run | DistinctDocs(Take(run, k)) ensures InUnit(NdcgAtK(log, qrels, run, k)) {
        NdcgInUnit(log, qrels, run, k);
      }
    } else if 0.0 < idcg {
      var p :| 0 <= p < |qrels| && Scores(qrels)[p] < 0.0;
      QrelOfItem(qrels, p);
      var run := [Pair(qrels[p].doc, 0.0)];
      SingleScoresLow(log, qrels, qrels[p].doc, k);
      assert DistinctDocs(Take(run, k)) && !InUnit(NdcgAtK(log, qrels, run, k));
    }
  }
}
