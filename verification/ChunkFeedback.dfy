/** The split of a feedback budget over the cited chunks (src/chunk_feedback.rs:322-382).

    Signals are reals; a missing or non-finite signal is `None`. */
module ChunkFeedback {
  import opened Distinctness
  import opened Text

  datatype FeedbackWeighting = Relevance | Uniform

  datatype Chunk = Chunk(id: string, kbId: string,
                         similarity: Option<real>, vectorSimilarity: Option<real>, termSimilarity: Option<real>)
  {
    function Key(): (string, string) { (id, kbId) }

    function RetrievalSignal(): (s: real)
      ensures 0.0 <= s
    {
      MaxSignal(similarity, MaxSignal(vectorSimilarity, MaxSignal(termSimilarity, 0.0)))
    }

    function Magnitude(): (m: real)
      ensures 0.0 < m
    {
      if RetrievalSignal() > 0.0 then RetrievalSignal() else 1.0
    }
  }

  function MaxSignal(score: Option<real>, best: real): (m: real)
    ensures best <= m
  {
    if score.Some? && score.value > best then score.value else best
  }

  // ----- deduplication -----

  /** The first chunk of each (id, dataset) pair, blank ids dropped. */
  function Deduplicate(chunks: seq<Chunk>): (r: seq<Chunk>)
    ensures forall c :: c in r ==> c in chunks
  {
    if chunks == [] then []
    else
      var init, last := chunks[..|chunks| - 1], chunks[|chunks| - 1];
      var kept := Deduplicate(init);
      if Blank(last.id) || Blank(last.kbId) || (exists c :: c in kept && c.Key() == last.Key()) then kept
      else kept + [last]
  }

  ghost predicate DistinctKeys(chunks: seq<Chunk>) {
    forall i, j :: 0 <= i < j < |chunks| ==> chunks[i].Key() != chunks[j].Key()
  }

  /** The kept references have distinct keys, and none has a blank identifier. */
  lemma {:induction false} DeduplicateDistinct(chunks: seq<Chunk>)
    ensures DistinctKeys(Deduplicate(chunks))
    ensures forall c :: c in Deduplicate(chunks) ==> !Blank(c.id) && !Blank(c.kbId)
  {
    if chunks != [] {
      DeduplicateDistinct(chunks[..|chunks| - 1]);
    }
  }

  /** Every usable chunk is represented. */
  lemma {:induction false} DeduplicateCovers(chunks: seq<Chunk>, c: Chunk)
    requires c in chunks && !Blank(c.id) && !Blank(c.kbId)
    ensures exists d :: d in Deduplicate(chunks) && d.Key() == c.Key()
  {
    var init, last := chunks[..|chunks| - 1], chunks[|chunks| - 1];
    assert chunks == init + [last];
    if c in init {
      DeduplicateCovers(init, c);
      var d :| d in Deduplicate(init) && d.Key() == c.Key();
      assert d in Deduplicate(chunks);
    } else if !exists d :: d in Deduplicate(init) && d.Key() == last.Key() {
      assert last in Deduplicate(chunks);
    }
  }

  /** Where the first of the usable references with this key stands. */
  ghost predicate FirstOfKey(chunks: seq<Chunk>, i: nat) {
    && i < |chunks| && !Blank(chunks[i].id) && !Blank(chunks[i].kbId)
    && forall j :: 0 <= j < i ==> chunks[j].Key() != chunks[i].Key()
  }

  /** `at[p]` is where the `p`-th kept reference stood. */
  ghost predicate KeptAt(chunks: seq<Chunk>, kept: seq<Chunk>, at: seq<nat>) {
    && |at| == |kept|
    && (forall p :: 0 <= p < |at| ==> FirstOfKey(chunks, at[p]) && kept[p] == chunks[at[p]])
    && (forall p, q :: 0 <= p < q < |at| ==> at[p] < at[q])
    && (forall i :: FirstOfKey(chunks, i) ==> i in at)
  }

  lemma FirstOfKeyFront(front: seq<Chunk>, last: Chunk, i: nat)
    ensures i < |front| ==> (FirstOfKey(front + [last], i) <==> FirstOfKey(front, i))
  {
    var all := front + [last];
    if i < |front| {
      assert all[i] == front[i];
      forall j | 0 <= j < i ensures all[j] == front[j] { }
    }
  }

  lemma KeptSnoc(front: seq<Chunk>, last: Chunk, kept: seq<Chunk>, at: seq<nat>)
    requires KeptAt(front, kept, at)
    ensures var all := front + [last];
            if FirstOfKey(all, |front|) then KeptAt(all, kept + [last], at + [|front|]) else KeptAt(all, kept, at)
  {
    forall i: nat ensures i < |front| ==> (FirstOfKey(front + [last], i) <==> FirstOfKey(front, i)) {
      FirstOfKeyFront(front, last, i);
    }
    forall i: nat | i in at ensures i < |front| && (front + [last])[i] == front[i] { }
  }

  /** Kept are exactly the first references of their keys, with their own scores and in their order. */
  lemma {:induction false} DeduplicateKeepsFirst(chunks: seq<Chunk>) returns (at: seq<nat>)
    ensures KeptAt(chunks, Deduplicate(chunks), at)
  {
    at := [];
    if chunks != [] {
      var front, last := chunks[..|chunks| - 1], chunks[|chunks| - 1];
      var before := DeduplicateKeepsFirst(front);
      assert chunks == front + [last];
      LastIsFirst(front, last);
      KeptSnoc(front, last, Deduplicate(front), before);
      at := if FirstOfKey(front + [last], |front|) then before + [|front|] else before;
    }
  }

  lemma LastIsFirst(front: seq<Chunk>, last: Chunk)
    ensures FirstOfKey(front + [last], |front|)
       <==> !Blank(last.id) && !Blank(last.kbId) && forall c :: c in Deduplicate(front) ==> c.Key() != last.Key()
  {
    var all := front + [last];
    if !Blank(last.id) && !Blank(last.kbId) {
      if j :| 0 <= j < |front| && front[j].Key() == last.Key() {
        assert all[j] == front[j];
        DeduplicateCovers(front, front[j]);
      }
      forall c | c in Deduplicate(front) && c.Key() == last.Key() ensures !FirstOfKey(all, |front|) {
        var j :| 0 <= j < |front| && front[j] == c;
        assert all[j] == c;
      }
    }
  }

  // ----- sums -----

  function Sum(s: seq<real>): real {
    if s == [] then 0.0 else Sum(s[..|s| - 1]) + s[|s| - 1]
  }

  function SumInt(s: seq<int>): int {
    if s == [] then 0 else SumInt(s[..|s| - 1]) + s[|s| - 1]
  }

  ghost predicate AllPositive(s: seq<real>) {
    forall i :: 0 <= i < |s| ==> 0.0 < s[i]
  }

  lemma {:induction false} SumPositive(s: seq<real>)
    requires AllPositive(s)
    ensures 0.0 <= Sum(s) && (s != [] ==> 0.0 < Sum(s))
    ensures forall i :: 0 <= i < |s| ==> s[i] <= Sum(s)
    ensures |s| > 1 ==> forall i :: 0 <= i < |s| ==> s[i] < Sum(s)
  {
    if s != [] {
      var init := s[..|s| - 1];
      SumPositive(init);
      forall i | 0 <= i < |s| ensures s[i] <= Sum(s) && (|s| > 1 ==> s[i] < Sum(s)) {
        if i < |init| { assert s[i] == init[i]; }
      }
    }
  }

  // ----- the quota of each chunk -----

  function Quota(magnitudes: seq<real>, budget: nat, i: nat): real
    requires AllPositive(magnitudes) && i < |magnitudes|
  {
    SumPositive(magnitudes);
    budget as real * magnitudes[i] / Sum(magnitudes)
  }

  function Quotas(magnitudes: seq<real>, budget: nat): (raw: seq<real>)
    requires AllPositive(magnitudes)
    ensures |raw| == |magnitudes|
    ensures forall i :: 0 <= i < |raw| ==> raw[i] == Quota(magnitudes, budget, i)
  {
    seq(|magnitudes|, i requires 0 <= i < |magnitudes| => Quota(magnitudes, budget, i))
  }

  function Floors(raw: seq<real>): (parts: seq<int>)
    ensures |parts| == |raw|
    ensures forall i :: 0 <= i < |raw| ==> parts[i] == raw[i].Floor
  {
    seq(|raw|, i requires 0 <= i < |raw| => raw[i].Floor)
  }

  function Remainders(raw: seq<real>): (rem: seq<real>)
    ensures |rem| == |raw|
    ensures forall i :: 0 <= i < |raw| ==> rem[i] == raw[i] - raw[i].Floor as real && 0.0 <= rem[i] < 1.0
  {
    seq(|raw|, i requires 0 <= i < |raw| => raw[i] - raw[i].Floor as real)
  }

  /** The sort order of the source: larger remainder first, then lower index. */
  predicate Before(rem: seq<real>, i: nat, j: nat)
    requires i < |rem| && j < |rem|
  {
    rem[i] > rem[j] || (rem[i] == rem[j] && i < j)
  }

  ghost predicate Indices(rem: seq<real>, order: seq<nat>) {
    forall p :: 0 <= p < |order| ==> order[p] < |rem|
  }

  function Insert(rem: seq<real>, i: nat, order: seq<nat>): (r: seq<nat>)
    requires i < |rem| && Indices(rem, order)
    ensures Indices(rem, r)
  {
    if order == [] || Before(rem, i, order[0]) then [i] + order
    else [order[0]] + Insert(rem, i, order[1..])
  }

  /** The indices below `n` sorted by `Before`. */
  function Order(rem: seq<real>, n: nat): (r: seq<nat>)
    requires n <= |rem|
    ensures Indices(rem, r)
  {
    if n == 0 then [] else Insert(rem, n - 1, Order(rem, n - 1))
  }

  function Bump(parts: seq<int>, order: seq<nat>): (r: seq<int>)
    requires forall p :: 0 <= p < |order| ==> order[p] < |parts|
    ensures |r| == |parts|
  {
    if order == [] then parts
    else
      var init, last := order[..|order| - 1], order[|order| - 1];
      var r := Bump(parts, init);
      r[last := r[last] + 1]
  }

  function Abs(b: int): nat { if b < 0 then -b else b }
  function Sign(b: int): int { if b < 0 then -1 else if b == 0 then 0 else 1 }

  function Scale(parts: seq<int>, sign: int): (r: seq<int>)
    ensures |r| == |parts|
    ensures forall i :: 0 <= i < |r| ==> r[i] == parts[i] * sign
  {
    seq(|parts|, i requires 0 <= i < |parts| => parts[i] * sign)
  }

  function Zeros(n: nat): (r: seq<int>)
    ensures |r| == n && forall i :: 0 <= i < n ==> r[i] == 0
  {
    seq(n, i => 0)
  }

  function Leftover(raw: seq<real>, budget: nat): nat {
    var spent := SumInt(Floors(raw));
    if spent < budget then budget - spent else 0
  }

  /** The indices that receive an extra unit. */
  function Taken(raw: seq<real>, budget: nat): (r: seq<nat>)
    ensures forall p :: 0 <= p < |r| ==> r[p] < |raw|
  {
    var order := Order(Remainders(raw), |raw|);
    var extra := Leftover(raw, budget);
    if extra < |order| then order[..extra] else order
  }

  /** Largest-remainder split of an unsigned budget. */
  function Parts(magnitudes: seq<real>, budget: nat): (parts: seq<int>)
    requires AllPositive(magnitudes)
    ensures |parts| == |magnitudes|
  {
    var raw := Quotas(magnitudes, budget);
    Bump(Floors(raw), Taken(raw, budget))
  }

  function Split(magnitudes: seq<real>, signedBudget: int): (parts: seq<int>)
    requires AllPositive(magnitudes)
    ensures |parts| == |magnitudes|
  {
    if magnitudes == [] || signedBudget == 0 then Zeros(|magnitudes|)
    else Scale(Parts(magnitudes, Abs(signedBudget)), Sign(signedBudget))
  }

  /** `split_integer_budget`. */
  method SplitIntegerBudget(magnitudes: seq<real>, signedBudget: int) returns (parts: seq<int>)
    requires AllPositive(magnitudes)
    ensures parts == Split(magnitudes, signedBudget)
  {
    var budget := Abs(signedBudget);
    if magnitudes == [] || budget == 0 {
      return Zeros(|magnitudes|);
    }
    var raw := Quotas(magnitudes, budget);
    parts := Floors(raw);
    var taken := Taken(raw, budget);
    for p := 0 to |taken|
      invariant |parts| == |raw|
      invariant parts == Bump(Floors(raw), taken[..p])
    {
      assert taken[..p + 1][..p] == taken[..p];
      parts := parts[taken[p] := parts[taken[p]] + 1];
    }
    assert taken[..|taken|] == taken;
    parts := ApplySign(parts, Sign(signedBudget));
  }

  method ApplySign(unsigned: seq<int>, sign: int) returns (parts: seq<int>)
    ensures parts == Scale(unsigned, sign)
  {
    parts := unsigned;
    for i := 0 to |parts|
      invariant |parts| == |unsigned|
      invariant forall j :: 0 <= j < i ==> parts[j] == unsigned[j] * sign
      invariant forall j :: i <= j < |parts| ==> parts[j] == unsigned[j]
    {
      parts := parts[i := parts[i] * sign];
    }
  }

  function Magnitudes(chunks: seq<Chunk>): (m: seq<real>)
    ensures |m| == |chunks| && AllPositive(m)
    ensures forall i :: 0 <= i < |m| ==> m[i] == chunks[i].Magnitude()
  {
    seq(|chunks|, i requires 0 <= i < |chunks| => chunks[i].Magnitude())
  }

  /** `allocate_deltas`. */
  function AllocateDeltas(chunks: seq<Chunk>, signedBudget: int, mode: FeedbackWeighting): (deltas: seq<int>)
    ensures |deltas| == |chunks|
  {
    if chunks == [] || signedBudget == 0 then Zeros(|chunks|)
    else if mode == Uniform then seq(|chunks|, i => Sign(signedBudget))
    else Split(Magnitudes(chunks), signedBudget)
  }

  // ----- the order is a sorted permutation -----

  ghost predicate SortedBy(rem: seq<real>, order: seq<nat>)
    requires Indices(rem, order)
  {
    forall p, q :: 0 <= p < q < |order| ==> Before(rem, order[p], order[q])
  }

  lemma {:induction false} InsertElements(rem: seq<real>, i: nat, order: seq<nat>)
    requires i < |rem| && Indices(rem, order)
    ensures |Insert(rem, i, order)| == |order| + 1
    ensures forall x :: x in Insert(rem, i, order) <==> x == i || x in order
  {
    if order == [] || Before(rem, i, order[0]) {
    } else {
      InsertElements(rem, i, order[1..]);
      assert order == [order[0]] + order[1..];
    }
  }

  lemma {:induction false} InsertSorted(rem: seq<real>, i: nat, order: seq<nat>)
    requires i < |rem| && Indices(rem, order) && SortedBy(rem, order) && i !in order
    ensures SortedBy(rem, Insert(rem, i, order))
  {
    if order == [] || Before(rem, i, order[0]) {
    } else {
      InsertSorted(rem, i, order[1..]);
      InsertElements(rem, i, order[1..]);
      var t := Insert(rem, i, order[1..]);
      forall q | 0 <= q < |t| ensures Before(rem, order[0], t[q]) {
        assert t[q] == i || t[q] in order[1..];
      }
    }
  }

  lemma {:induction false} OrderElements(rem: seq<real>, n: nat)
    requires n <= |rem|
    ensures |Order(rem, n)| == n
    ensures forall i: nat :: i in Order(rem, n) <==> i < n
  {
    if n > 0 {
      var order := Order(rem, n - 1);
      OrderElements(rem, n - 1);
      InsertElements(rem, n - 1, order);
    }
  }

  lemma {:induction false} OrderSorted(rem: seq<real>, n: nat)
    requires n <= |rem|
    ensures |Order(rem, n)| == n
    ensures forall i: nat :: i in Order(rem, n) <==> i < n
    ensures SortedBy(rem, Order(rem, n))
  {
    OrderElements(rem, n);
    if n > 0 {
      OrderSorted(rem, n - 1);
      InsertSorted(rem, n - 1, Order(rem, n - 1));
    }
  }

  lemma SortedDistinct(rem: seq<real>, order: seq<nat>)
    requires Indices(rem, order) && SortedBy(rem, order)
    ensures Distinct(order)
  {
    forall p, q | 0 <= p < q < |order| ensures order[p] != order[q] {
      assert Before(rem, order[p], order[q]);
    }
  }

  function SumAt(rem: seq<real>, order: seq<nat>): real
    requires Indices(rem, order)
  {
    if order == [] then 0.0 else rem[order[0]] + SumAt(rem, order[1..])
  }

  lemma {:induction false} SumAtInsert(rem: seq<real>, i: nat, order: seq<nat>)
    requires i < |rem| && Indices(rem, order)
    ensures SumAt(rem, Insert(rem, i, order)) == SumAt(rem, order) + rem[i]
  {
    if order == [] || Before(rem, i, order[0]) {
      assert ([i] + order)[1..] == order;
    } else {
      SumAtInsert(rem, i, order[1..]);
      var t := Insert(rem, i, order[1..]);
      assert ([order[0]] + t)[1..] == t;
    }
  }

  lemma {:induction false} SumAtOrder(rem: seq<real>, n: nat)
    requires n <= |rem|
    ensures SumAt(rem, Order(rem, n)) == Sum(rem[..n])
  {
    if n > 0 {
      SumAtOrder(rem, n - 1);
      SumAtInsert(rem, n - 1, Order(rem, n - 1));
      assert rem[..n][..n - 1] == rem[..n - 1];
    }
  }

  // ----- what the quotas add up to -----

  lemma {:induction false} QuotaSum(magnitudes: seq<real>, budget: nat, raw: seq<real>, t: real, n: nat)
    requires |raw| == |magnitudes| && n <= |raw|
    requires forall i :: 0 <= i < |raw| ==> raw[i] * t == budget as real * magnitudes[i]
    ensures Sum(raw[..n]) * t == budget as real * Sum(magnitudes[..n])
  {
    if n > 0 {
      QuotaSum(magnitudes, budget, raw, t, n - 1);
      SumSnoc(raw, n);
      SumSnoc(magnitudes, n);
      Distribute(Sum(raw[..n - 1]), raw[n - 1], t, budget as real, Sum(magnitudes[..n - 1]), magnitudes[n - 1]);
    }
  }

  lemma Distribute(x: real, q: real, t: real, b: real, y: real, m: real)
    requires x * t == b * y && q * t == b * m
    ensures (x + q) * t == b * (y + m)
  {
  }

  lemma SumSnoc(s: seq<real>, n: nat)
    requires 0 < n <= |s|
    ensures Sum(s[..n]) == Sum(s[..n - 1]) + s[n - 1]
  {
    assert s[..n][..n - 1] == s[..n - 1];
  }

  lemma QuotasTotal(magnitudes: seq<real>, budget: nat)
    requires AllPositive(magnitudes) && magnitudes != []
    ensures Sum(Quotas(magnitudes, budget)) == budget as real
  {
    SumPositive(magnitudes);
    var raw, t := Quotas(magnitudes, budget), Sum(magnitudes);
    forall i | 0 <= i < |raw| ensures raw[i] * t == budget as real * magnitudes[i] {
      QuotientTimes(budget as real, magnitudes[i], t);
    }
    QuotaSum(magnitudes, budget, raw, t, |raw|);
    assert raw[..|raw|] == raw && magnitudes[..|raw|] == magnitudes;
    CancelFactor(Sum(raw), budget as real, t);
  }

  lemma QuotientTimes(b: real, m: real, t: real)
    requires t > 0.0
    ensures (b * m / t) * t == b * m
  {
  }

  lemma CancelFactor(x: real, b: real, t: real)
    requires t > 0.0 && x * t == b * t
    ensures x == b
  {
  }

  lemma {:induction false} RemainderTotal(raw: seq<real>)
    ensures Sum(Remainders(raw)) == Sum(raw) - SumInt(Floors(raw)) as real
    ensures 0.0 <= Sum(Remainders(raw)) <= |raw| as real
  {
    if raw != [] {
      var init := raw[..|raw| - 1];
      RemainderTotal(init);
      assert Remainders(raw)[..|raw| - 1] == Remainders(init);
      assert Floors(raw)[..|raw| - 1] == Floors(init);
    }
  }

  /** The floors leave exactly as many units over as the remainders add up to. */
  lemma LeftoverIsRemainderTotal(magnitudes: seq<real>, budget: nat)
    requires AllPositive(magnitudes) && magnitudes != []
    ensures var raw := Quotas(magnitudes, budget);
            && Leftover(raw, budget) == budget - SumInt(Floors(raw))
            && Leftover(raw, budget) as real == Sum(Remainders(raw))
            && Leftover(raw, budget) <= |raw|
  {
    var raw := Quotas(magnitudes, budget);
    QuotasTotal(magnitudes, budget);
    RemainderTotal(raw);
  }

  // ----- what bumping does -----

  lemma {:induction false} BumpAt(parts: seq<int>, order: seq<nat>, i: nat)
    requires forall p :: 0 <= p < |order| ==> order[p] < |parts|
    requires Distinct(order) && i < |parts|
    ensures Bump(parts, order)[i] == parts[i] + (if i in order then 1 else 0)
  {
    if order != [] {
      var init := order[..|order| - 1];
      BumpAt(parts, init, i);
      assert order == init + [order[|order| - 1]];
    }
  }

  lemma {:induction false} SumIntUpdate(s: seq<int>, i: nat, x: int)
    requires i < |s|
    ensures SumInt(s[i := x]) == SumInt(s) - s[i] + x
  {
    var init := s[..|s| - 1];
    if i == |s| - 1 {
      assert s[i := x][..|s| - 1] == init;
    } else {
      SumIntUpdate(init, i, x);
      assert s[i := x][..|s| - 1] == init[i := x];
    }
  }

  lemma {:induction false} BumpSum(parts: seq<int>, order: seq<nat>)
    requires forall p :: 0 <= p < |order| ==> order[p] < |parts|
    ensures SumInt(Bump(parts, order)) == SumInt(parts) + |order|
  {
    if order != [] {
      var init, last := order[..|order| - 1], order[|order| - 1];
      BumpSum(parts, init);
      SumIntUpdate(Bump(parts, init), last, Bump(parts, init)[last] + 1);
    }
  }

  /** Past a zero remainder everything is zero, so the first `q` remainders make up the whole sum. */
  lemma {:induction false} SumAtZeros(rem: seq<real>, order: seq<nat>)
    requires Indices(rem, order)
    requires forall p :: 0 <= p < |order| ==> rem[order[p]] == 0.0
    ensures SumAt(rem, order) == 0.0
  {
    if order != [] { SumAtZeros(rem, order[1..]); }
  }

  lemma {:induction false} SumAtBelow(rem: seq<real>, order: seq<nat>, q: nat)
    requires Indices(rem, order) && q <= |order|
    requires forall i :: 0 <= i < |rem| ==> rem[i] < 1.0
    requires forall p :: q <= p < |order| ==> rem[order[p]] == 0.0
    ensures SumAt(rem, order) <= q as real && (q > 0 ==> SumAt(rem, order) < q as real)
  {
    if q == 0 {
      SumAtZeros(rem, order);
    } else {
      SumAtBelow(rem, order[1..], q - 1);
    }
  }

  /** Only chunks with a positive remainder receive an extra unit. */
  lemma BumpedHavePositiveRemainder(magnitudes: seq<real>, budget: nat, p: nat)
    requires AllPositive(magnitudes) && magnitudes != []
    requires p < Leftover(Quotas(magnitudes, budget), budget)
    ensures var rem := Remainders(Quotas(magnitudes, budget));
            p < |Order(rem, |rem|)| && rem[Order(rem, |rem|)[p]] > 0.0
  {
    var raw := Quotas(magnitudes, budget);
    var rem := Remainders(raw);
    var order := Order(rem, |rem|);
    LeftoverIsRemainderTotal(magnitudes, budget);
    OrderSorted(rem, |rem|);
    SumAtOrder(rem, |rem|);
    assert rem[..|rem|] == rem;
    if rem[order[p]] <= 0.0 {
      forall q | p <= q < |order| ensures rem[order[q]] == 0.0 {
        if p < q { assert Before(rem, order[p], order[q]); }
      }
      SumAtBelow(rem, order, p);
      assert false;
    }
  }

  lemma TakenDistinct(magnitudes: seq<real>, budget: nat)
    requires AllPositive(magnitudes) && magnitudes != []
    ensures var raw := Quotas(magnitudes, budget);
            && Leftover(raw, budget) <= |Order(Remainders(raw), |raw|)|
            && Taken(raw, budget) == Order(Remainders(raw), |raw|)[..Leftover(raw, budget)]
            && Distinct(Taken(raw, budget))
  {
    var raw := Quotas(magnitudes, budget);
    LeftoverIsRemainderTotal(magnitudes, budget);
    OrderSorted(Remainders(raw), |raw|);
    SortedDistinct(Remainders(raw), Order(Remainders(raw), |raw|));
  }

  /** The shape of a part: its floor, plus one for the taken indices. */
  lemma PartsAt(magnitudes: seq<real>, budget: nat, i: nat)
    requires AllPositive(magnitudes) && i < |magnitudes|
    ensures var raw := Quotas(magnitudes, budget);
            Parts(magnitudes, budget)[i] == raw[i].Floor + (if i in Taken(raw, budget) then 1 else 0)
  {
    TakenDistinct(magnitudes, budget);
    BumpAt(Floors(Quotas(magnitudes, budget)), Taken(Quotas(magnitudes, budget), budget), i);
  }

  lemma PartsSum(magnitudes: seq<real>, budget: nat)
    requires AllPositive(magnitudes) && magnitudes != []
    ensures SumInt(Parts(magnitudes, budget)) == budget
  {
    var raw := Quotas(magnitudes, budget);
    TakenDistinct(magnitudes, budget);
    LeftoverIsRemainderTotal(magnitudes, budget);
    BumpSum(Floors(raw), Taken(raw, budget));
  }

  // ----- the properties of the split -----

  /** The parts add up exactly to the signed budget. */
  lemma SplitSum(magnitudes: seq<real>, signedBudget: int)
    requires AllPositive(magnitudes) && magnitudes != []
    ensures SumInt(Split(magnitudes, signedBudget)) == signedBudget
  {
    if signedBudget == 0 {
      ScaleSum(Zeros(|magnitudes|), 0);
      assert Scale(Zeros(|magnitudes|), 0) == Zeros(|magnitudes|);
    } else {
      PartsSum(magnitudes, Abs(signedBudget));
      ScaleSum(Parts(magnitudes, Abs(signedBudget)), Sign(signedBudget));
    }
  }

  lemma {:induction false} ScaleSum(parts: seq<int>, sign: int)
    ensures SumInt(Scale(parts, sign)) == SumInt(parts) * sign
  {
    if parts != [] {
      ScaleSum(parts[..|parts| - 1], sign);
      assert Scale(parts, sign)[..|parts| - 1] == Scale(parts[..|parts| - 1], sign);
    }
  }

  /** Every part is its proportional share rounded down or up; a whole share is met exactly. */
  lemma SplitQuota(magnitudes: seq<real>, signedBudget: int, i: nat)
    requires AllPositive(magnitudes) && i < |magnitudes|
    ensures var share := Quota(magnitudes, Abs(signedBudget), i);
            var part := Split(magnitudes, signedBudget)[i] * Sign(signedBudget);
            && (part == share.Floor || part == share.Floor + 1)
            && (share == share.Floor as real ==> part == share.Floor)
  {
    var budget := Abs(signedBudget);
    var raw := Quotas(magnitudes, budget);
    SumPositive(magnitudes);
    if signedBudget != 0 {
      PartsAt(magnitudes, budget, i);
      TakenDistinct(magnitudes, budget);
      if i in Taken(raw, budget) {
        var p :| 0 <= p < |Taken(raw, budget)| && Taken(raw, budget)[p] == i;
        BumpedHavePositiveRemainder(magnitudes, budget, p);
      }
    } else {
      assert budget as real * magnitudes[i] / Sum(magnitudes) == 0.0;
    }
  }

  lemma QuotaMonotone(magnitudes: seq<real>, budget: nat, i: nat, j: nat)
    requires AllPositive(magnitudes) && i < |magnitudes| && j < |magnitudes|
    requires magnitudes[j] < magnitudes[i]
    ensures Quota(magnitudes, budget, j) <= Quota(magnitudes, budget, i)
    ensures budget > 0 ==> Quota(magnitudes, budget, j) < Quota(magnitudes, budget, i)
  {
    SumPositive(magnitudes);
    var t, b := Sum(magnitudes), budget as real;
    var x, y := b * magnitudes[j], b * magnitudes[i];
    assert y - x == b * (magnitudes[i] - magnitudes[j]);
    assert x / t * t == x && y / t * t == y;
  }

  /** A weaker signal never receives more than a stronger one. */
  lemma SplitMonotone(magnitudes: seq<real>, signedBudget: int, i: nat, j: nat)
    requires AllPositive(magnitudes) && i < |magnitudes| && j < |magnitudes|
    requires magnitudes[j] < magnitudes[i]
    ensures Split(magnitudes, signedBudget)[j] * Sign(signedBudget)
         <= Split(magnitudes, signedBudget)[i] * Sign(signedBudget)
  {
    if signedBudget != 0 {
      var budget := Abs(signedBudget);
      var raw := Quotas(magnitudes, budget);
      QuotaMonotone(magnitudes, budget, i, j);
      PartsAt(magnitudes, budget, i);
      PartsAt(magnitudes, budget, j);
      assert raw[j] < raw[i];
      if raw[i].Floor == raw[j].Floor && j in Taken(raw, budget) {
        EarlierIsTaken(magnitudes, budget, i, j);
      }
    }
  }

  lemma EarlierIsTaken(magnitudes: seq<real>, budget: nat, i: nat, j: nat)
    requires AllPositive(magnitudes) && i < |magnitudes| && j in Taken(Quotas(magnitudes, budget), budget)
    requires Before(Remainders(Quotas(magnitudes, budget)), i, j)
    ensures i in Taken(Quotas(magnitudes, budget), budget)
  {
    var raw := Quotas(magnitudes, budget);
    var rem := Remainders(raw);
    var order := Order(rem, |raw|);
    OrderSorted(rem, |raw|);
    TakenDistinct(magnitudes, budget);
    assert i in order;
    var p :| 0 <= p < |order| && order[p] == i;
    var q :| 0 <= q < |Taken(raw, budget)| && Taken(raw, budget)[q] == j;
    assert order[q] == j && !Before(rem, j, i);
    assert p <= q;
    assert Taken(raw, budget)[p] == i;
  }

  /** The split is odd in the budget: undoing a vote allocates exactly the opposite. */
  lemma AllocationIsOdd(chunks: seq<Chunk>, signedBudget: int, mode: FeedbackWeighting, i: nat)
    requires i < |chunks|
    ensures AllocateDeltas(chunks, -signedBudget, mode)[i] == -AllocateDeltas(chunks, signedBudget, mode)[i]
  {
    assert Abs(-signedBudget) == Abs(signedBudget) && Sign(-signedBudget) == -Sign(signedBudget);
  }

  ghost predicate FirstStrongest(magnitudes: seq<real>, i: nat) {
    && i < |magnitudes|
    && (forall j :: 0 <= j < |magnitudes| ==> magnitudes[j] <= magnitudes[i])
    && (forall j :: 0 <= j < i ==> magnitudes[j] < magnitudes[i])
  }

  /** A single vote goes whole to the strongest reference, the first one on ties. */
  lemma UnitVoteGoesToStrongest(magnitudes: seq<real>, up: bool, i: nat)
    requires AllPositive(magnitudes) && i < |magnitudes|
    ensures var vote := if up then 1 else -1;
            Split(magnitudes, vote)[i] == if FirstStrongest(magnitudes, i) then vote else 0
  {
    if |magnitudes| == 1 { OnlyChunk(magnitudes); } else { StrongestOfMany(magnitudes, i); }
  }

  lemma OnlyChunk(magnitudes: seq<real>)
    requires AllPositive(magnitudes) && |magnitudes| == 1
    ensures Parts(magnitudes, 1)[0] == 1
  {
    PartsSum(magnitudes, 1);
    assert SumInt(Parts(magnitudes, 1)[..0]) == 0;
  }

  lemma ProperShare(m: real, t: real)
    requires 0.0 < m < t
    ensures 0.0 < m / t < 1.0
  {
    assert m / t * t == m;
    PositiveFactor(m / t, t);
    PositiveFactor(1.0 - m / t, t);
  }

  lemma PositiveFactor(x: real, t: real)
    requires 0.0 < t && 0.0 < x * t
    ensures 0.0 < x
  {
  }

  lemma SharesAreProper(magnitudes: seq<real>)
    requires AllPositive(magnitudes) && |magnitudes| > 1
    ensures forall j :: 0 <= j < |magnitudes| ==> 0.0 < Quotas(magnitudes, 1)[j] < 1.0
  {
    SumPositive(magnitudes);
    forall j | 0 <= j < |magnitudes| ensures 0.0 < Quotas(magnitudes, 1)[j] < 1.0 {
      ProperShare(magnitudes[j], Sum(magnitudes));
    }
  }

  lemma StrongestOfMany(magnitudes: seq<real>, i: nat)
    requires AllPositive(magnitudes) && |magnitudes| > 1 && i < |magnitudes|
    ensures Parts(magnitudes, 1)[i] == if FirstStrongest(magnitudes, i) then 1 else 0
  {
    var raw := Quotas(magnitudes, 1);
    SumPositive(magnitudes);
    SharesAreProper(magnitudes);
    FloorsVanish(raw);
    TakenDistinct(magnitudes, 1);
    PartsAt(magnitudes, 1, i);
    OrderSorted(Remainders(raw), |raw|);
    FirstOfOrder(magnitudes, Remainders(raw), Order(Remainders(raw), |raw|), i);
    assert Taken(raw, 1) == [Order(Remainders(raw), |raw|)[0]];
  }

  lemma {:induction false} FloorsVanish(raw: seq<real>)
    requires forall i :: 0 <= i < |raw| ==> 0.0 <= raw[i] < 1.0
    ensures SumInt(Floors(raw)) == 0
  {
    if raw != [] {
      FloorsVanish(raw[..|raw| - 1]);
      assert Floors(raw)[..|raw| - 1] == Floors(raw[..|raw| - 1]);
    }
  }

  lemma FirstOfOrder(magnitudes: seq<real>, rem: seq<real>, order: seq<nat>, i: nat)
    requires AllPositive(magnitudes) && |rem| == |magnitudes| == |order| && i < |magnitudes|
    requires forall j :: 0 <= j < |rem| ==> rem[j] == Quota(magnitudes, 1, j)
    requires Indices(rem, order) && SortedBy(rem, order) && forall j: nat :: j in order <==> j < |rem|
    ensures order[0] == i <==> FirstStrongest(magnitudes, i)
  {
    var first := order[0];
    forall j | 0 <= j < |magnitudes|
      ensures magnitudes[j] <= magnitudes[first] && (j < first ==> magnitudes[j] < magnitudes[first])
    {
      assert j in order;
      var p :| 0 <= p < |order| && order[p] == j;
      if p > 0 { assert Before(rem, first, j); }
      if magnitudes[first] < magnitudes[j] { QuotaMonotone(magnitudes, 1, j, first); }
    }
    assert FirstStrongest(magnitudes, first);
  }

  // ----- who receives a vote -----

  /** The scores a reference carries. */
  function Scores(chunk: Chunk): set<Option<real>> {
    {chunk.similarity, chunk.vectorSimilarity, chunk.termSimilarity}
  }

  /** The greatest positive one of the three scores, or 1 if there is none. */
  ghost predicate IsSignal(chunk: Chunk, x: real) {
    if exists s :: s > 0.0 && Some(s) in Scores(chunk)
    then x > 0.0 && Some(x) in Scores(chunk) && forall s :: Some(s) in Scores(chunk) ==> s <= x
    else x == 1.0
  }

  lemma MagnitudeIsSignal(chunk: Chunk, x: real)
    ensures IsSignal(chunk, x) <==> x == chunk.Magnitude()
  {
    var m := chunk.RetrievalSignal();
    assert m > 0.0 ==> Some(m) in Scores(chunk);
    forall s | Some(s) in Scores(chunk) ensures s <= m { }
  }

  /** No reference has a greater signal, and no earlier one as great a signal. */
  ghost predicate StrongestReference(chunks: seq<Chunk>, i: nat) {
    && i < |chunks|
    && exists x :: (
         && IsSignal(chunks[i], x)
         && forall j, y :: 0 <= j < |chunks| && IsSignal(chunks[j], y) ==> y <= x && (j < i ==> y < x))
  }

  lemma StrongestIsFirst(chunks: seq<Chunk>, i: nat)
    requires i < |chunks|
    ensures StrongestReference(chunks, i) <==> FirstStrongest(Magnitudes(chunks), i)
  {
    var m := Magnitudes(chunks);
    forall j, y | 0 <= j < |chunks| ensures IsSignal(chunks[j], y) <==> y == m[j] { MagnitudeIsSignal(chunks[j], y); }
    assert IsSignal(chunks[i], m[i]);
    if StrongestReference(chunks, i) {
      forall j | 0 <= j < |chunks| ensures m[j] <= m[i] && (j < i ==> m[j] < m[i]) { assert IsSignal(chunks[j], m[j]); }
    }
  }

  /** One vote: the uniform mode gives it to every reference, the relevance mode to the first one with the greatest
      signal and to no other. */
  lemma VoteByMode(chunks: seq<Chunk>, up: bool, mode: FeedbackWeighting, i: nat)
    requires i < |chunks|
    ensures var vote := if up then 1 else -1;
            AllocateDeltas(chunks, vote, mode)[i]
            == if mode == Uniform || StrongestReference(chunks, i) then vote else 0
  {
    StrongestIsFirst(chunks, i);
    UnitVoteGoesToStrongest(Magnitudes(chunks), up, i);
  }
}
