/** Grouping rows by a key in first-seen order, directly or bucket by bucket
    (the shared shape of src/dataset_structure_merger.rs:469-485, 604-640 and 1130-1157). */
module Grouping {
  import opened Distinctness

  /** The rows whose key is `k`, in order. */
  function Members<T, K(==)>(rows: seq<T>, key: T -> K, k: K): (r: seq<T>) {
    if rows == [] then []
    else
      var last := rows[|rows| - 1];
      Members(rows[..|rows| - 1], key, k) + if key(last) == k then [last] else []
  }

  /** The keys in first-seen order. */
  function Keys<T, K(==)>(rows: seq<T>, key: T -> K): (ks: seq<K>) {
    if rows == [] then []
    else
      var ks, k := Keys(rows[..|rows| - 1], key), key(rows[|rows| - 1]);
      if k in ks then ks else ks + [k]
  }

  function Map<K, U>(f: K -> U, ks: seq<K>): (r: seq<U>)
    ensures |r| == |ks|
  {
    seq(|ks|, i requires 0 <= i < |ks| => f(ks[i]))
  }

  function Joined<U>(part: int -> seq<U>, n: nat): seq<U> {
    if n == 0 then [] else Joined(part, n - 1) + part(n - 1)
  }

  /** The merged row of a key, made from all rows of that key. */
  function Merger<T, K(==), U>(rows: seq<T>, key: T -> K, merge: (K, seq<T>) -> U): K -> U {
    k => merge(k, Members(rows, key, k))
  }

  /** One merged row per key. */
  function Direct<T, K(==), U>(rows: seq<T>, key: T -> K, merge: (K, seq<T>) -> U): seq<U> {
    Map(Merger(rows, key, merge), Keys(rows, key))
  }

  function OneBucket<T, K(==), U>(rows: seq<T>, key: T -> K, merge: (K, seq<T>) -> U, bucket: T -> int): int -> seq<U> {
    b => Direct(Members(rows, bucket, b), key, merge)
  }

  /** The first `n` buckets merged one by one. */
  function Bucketed<T, K(==), U>(rows: seq<T>, key: T -> K, merge: (K, seq<T>) -> U,
                                 bucket: T -> int, n: nat): seq<U>
  {
    Joined(OneBucket(rows, key, merge, bucket), n)
  }

  /** No two rows of one group lie in different buckets. */
  ghost predicate NoSplit<T, K>(rows: seq<T>, key: T -> K, bucket: T -> int) {
    forall r, s :: r in rows && s in rows && key(r) == key(s) ==> bucket(r) == bucket(s)
  }

  // ----- elements -----

  lemma {:induction false} MembersMember<T, K>(rows: seq<T>, key: T -> K, k: K, r: T)
    ensures r in Members(rows, key, k) <==> r in rows && key(r) == k
  {
    if rows != [] {
      MembersMember(rows[..|rows| - 1], key, k, r);
      assert rows == rows[..|rows| - 1] + [rows[|rows| - 1]];
    }
  }

  lemma MembersSnoc<T, K>(front: seq<T>, last: T, key: T -> K, k: K)
    ensures Members(front + [last], key, k) == Members(front, key, k) + if key(last) == k then [last] else []
  {
    assert (front + [last])[..|front|] == front;
  }

  lemma KeysSnoc<T, K>(front: seq<T>, last: T, key: T -> K)
    ensures Keys(front + [last], key)
         == if key(last) in Keys(front, key) then Keys(front, key) else Keys(front, key) + [key(last)]
  {
    assert (front + [last])[..|front|] == front;
  }

  lemma {:induction false} KeysDistinct<T, K>(rows: seq<T>, key: T -> K)
    ensures Distinct(Keys(rows, key))
  {
    if rows != [] {
      KeysDistinct(rows[..|rows| - 1], key);
    }
  }

  ghost predicate HasKey<T, K>(rows: seq<T>, key: T -> K, k: K) {
    exists r :: r in rows && key(r) == k
  }

  lemma {:induction false} KeysMember<T, K>(rows: seq<T>, key: T -> K, k: K)
    ensures k in Keys(rows, key) <==> HasKey(rows, key, k)
  {
    if rows != [] {
      var front, last := rows[..|rows| - 1], rows[|rows| - 1];
      KeysMember(front, key, k);
      assert rows == front + [last];
      KeysSnoc(front, last, key);
      if HasKey(front, key, k) {
        var r :| r in front && key(r) == k;
        assert r in rows;
      }
      if key(last) == k { assert last in rows; }
    }
  }

  // ----- joined lists -----

  lemma {:induction false} JoinedMember<U>(part: int -> seq<U>, n: nat, k: U)
    ensures k in Joined(part, n) <==> exists b :: 0 <= b < n && k in part(b)
  {
    if n > 0 { JoinedMember(part, n - 1, k); }
  }

  /** No element lies in two of the first `n` parts. */
  ghost predicate Apart<U>(part: int -> seq<U>, n: nat) {
    forall b, c :: 0 <= b < c < n ==> forall k :: k in part(b) ==> k !in part(c)
  }

  lemma DistinctConcat<K>(s: seq<K>, t: seq<K>)
    ensures Distinct(s + t) <==> Distinct(s) && Distinct(t) && forall k :: k in s ==> k !in t
  {
    DistinctMultiset(s);
    DistinctMultiset(t);
    DistinctMultiset(s + t);
    assert multiset(s + t) == multiset(s) + multiset(t);
    forall k ensures (k in s <==> multiset(s)[k] > 0) && (k in t <==> multiset(t)[k] > 0) { }
    if Distinct(s + t) {
      forall k ensures multiset(s)[k] <= 1 && multiset(t)[k] <= 1 && !(k in s && k in t) {
        assert multiset(s + t)[k] <= 1;
      }
    }
  }

  lemma {:induction false} JoinedDistinct<U>(part: int -> seq<U>, n: nat)
    requires forall b :: 0 <= b < n ==> Distinct(part(b))
    ensures Distinct(Joined(part, n)) <==> Apart(part, n)
  {
    if n > 0 {
      var front := Joined(part, n - 1);
      JoinedDistinct(part, n - 1);
      DistinctConcat(front, part(n - 1));
      if Distinct(Joined(part, n)) {
        forall b, c | 0 <= b < c < n ensures forall k :: k in part(b) ==> k !in part(c) {
          if c == n - 1 {
            forall k | k in part(b) ensures k !in part(c) { JoinedMember(part, n - 1, k); }
          }
        }
      } else if Apart(part, n) {
        forall k | k in front ensures k !in part(n - 1) {
          JoinedMember(part, n - 1, k);
          var b :| 0 <= b < n - 1 && k in part(b);
        }
      }
    }
  }

  lemma {:induction false} JoinedMap<K, U>(ks: int -> seq<K>, rs: int -> seq<U>, f: K -> U, n: nat)
    requires forall b :: 0 <= b < n ==> rs(b) == Map(f, ks(b))
    ensures Joined(rs, n) == Map(f, Joined(ks, n))
  {
    if n > 0 {
      JoinedMap(ks, rs, f, n - 1);
      MapConcat(f, Joined(ks, n - 1), ks(n - 1));
    }
  }

  lemma MapConcat<K, U>(f: K -> U, s: seq<K>, t: seq<K>)
    ensures Map(f, s + t) == Map(f, s) + Map(f, t)
  {
  }

  lemma MapSnoc<K, U>(f: K -> U, ks: seq<K>, i: nat)
    requires i < |ks|
    ensures Map(f, ks[..i + 1]) == Map(f, ks[..i]) + [f(ks[i])]
  {
  }

  lemma {:induction false} JoinedLength<K, U>(ks: int -> seq<K>, rs: int -> seq<U>, n: nat)
    requires forall b :: 0 <= b < n ==> |rs(b)| == |ks(b)|
    ensures |Joined(rs, n)| == |Joined(ks, n)|
  {
    if n > 0 { JoinedLength(ks, rs, n - 1); }
  }

  lemma RemoveAt<T>(s: seq<T>, j: nat)
    requires j < |s|
    ensures multiset(s) == multiset(s[..j] + s[j + 1..]) + multiset{s[j]}
  {
    assert s == s[..j] + ([s[j]] + s[j + 1..]);
  }

  lemma MapRemove<K, U>(f: K -> U, ks: seq<K>, j: nat)
    requires j < |ks|
    ensures multiset(Map(f, ks)) == multiset(Map(f, ks[..j] + ks[j + 1..])) + multiset{f(ks[j])}
  {
    var m := Map(f, ks);
    RemoveAt(m, j);
    assert m[..j] + m[j + 1..] == Map(f, ks[..j] + ks[j + 1..]);
  }

  lemma SameFirst<K>(ks: seq<K>, ls: seq<K>) returns (j: nat)
    requires multiset(ks) == multiset(ls) && ks != []
    ensures j < |ls| && ls[j] == ks[0]
    ensures multiset(ks[..0] + ks[1..]) == multiset(ls[..j] + ls[j + 1..])
  {
    assert ks[0] in multiset(ls);
    j :| 0 <= j < |ls| && ls[j] == ks[0];
    RemoveAt(ks, 0);
    RemoveAt(ls, j);
    assert multiset(ks[..0] + ks[1..]) == multiset(ks) - multiset{ks[0]};
  }

  lemma {:induction false} MapMultiset<K, U>(f: K -> U, ks: seq<K>, ls: seq<K>)
    requires multiset(ks) == multiset(ls)
    ensures multiset(Map(f, ks)) == multiset(Map(f, ls))
    decreases |ks|
  {
    assert |multiset(ks)| == |ks| && |multiset(ls)| == |ls|;
    if ks != [] {
      var j := SameFirst(ks, ls);
      MapMultiset(f, ks[..0] + ks[1..], ls[..j] + ls[j + 1..]);
      MapRemove(f, ks, 0);
      MapRemove(f, ls, j);
    }
  }

  // ----- buckets -----

  /** The keys found in one bucket. */
  ghost function KeysIn<T, K>(rows: seq<T>, key: T -> K, bucket: T -> int): int -> seq<K> {
    b => Keys(Members(rows, bucket, b), key)
  }

  lemma KeyInBucket<T, K>(rows: seq<T>, key: T -> K, bucket: T -> int, b: int, k: K)
    ensures k in KeysIn(rows, key, bucket)(b) <==> exists r :: r in rows && bucket(r) == b && key(r) == k
  {
    var inside := Members(rows, bucket, b);
    KeysMember(inside, key, k);
    if HasKey(inside, key, k) {
      var r :| r in inside && key(r) == k;
      MembersMember(rows, bucket, b, r);
    }
    if r :| r in rows && bucket(r) == b && key(r) == k {
      MembersMember(rows, bucket, b, r);
    }
  }

  lemma NoSplitApart<T, K>(rows: seq<T>, key: T -> K, bucket: T -> int, n: nat)
    requires forall r :: r in rows ==> 0 <= bucket(r) < n
    ensures NoSplit(rows, key, bucket) <==> Apart(KeysIn(rows, key, bucket), n)
  {
    var part := KeysIn(rows, key, bucket);
    if Apart(part, n) {
      forall r, s | r in rows && s in rows && key(r) == key(s) ensures bucket(r) == bucket(s) {
        KeyInBucket(rows, key, bucket, bucket(r), key(r));
        KeyInBucket(rows, key, bucket, bucket(s), key(r));
        assert key(r) in part(bucket(r)) && key(r) in part(bucket(s));
      }
    }
    if NoSplit(rows, key, bucket) {
      forall b, c | 0 <= b < c < n ensures forall k :: k in part(b) ==> k !in part(c) {
        forall k | k in part(b) ensures k !in part(c) {
          KeyInBucket(rows, key, bucket, b, k);
          KeyInBucket(rows, key, bucket, c, k);
        }
      }
    }
  }

  /** The buckets together have the keys of all rows. */
  lemma BucketsCover<T, K>(rows: seq<T>, key: T -> K, bucket: T -> int, n: nat, k: K)
    requires forall r :: r in rows ==> 0 <= bucket(r) < n
    ensures k in Joined(KeysIn(rows, key, bucket), n) <==> k in Keys(rows, key)
  {
    var part := KeysIn(rows, key, bucket);
    JoinedMember(part, n, k);
    KeysMember(rows, key, k);
    if HasKey(rows, key, k) {
      var r :| r in rows && key(r) == k;
      KeyInBucket(rows, key, bucket, bucket(r), k);
      assert k in part(bucket(r));
    }
    if b :| 0 <= b < n && k in part(b) {
      KeyInBucket(rows, key, bucket, b, k);
    }
  }

  /** Inside its one bucket a group is complete. */
  lemma {:induction false} GroupComplete<T, K>(rows: seq<T>, key: T -> K, bucket: T -> int, b: int, k: K)
    requires forall r :: r in rows && key(r) == k ==> bucket(r) == b
    ensures Members(Members(rows, bucket, b), key, k) == Members(rows, key, k)
  {
    if rows != [] {
      var front, last := rows[..|rows| - 1], rows[|rows| - 1];
      assert rows == front + [last];
      GroupComplete(front, key, bucket, b, k);
      MembersSnoc(front, last, bucket, b);
      MembersSnoc(front, last, key, k);
      if bucket(last) == b {
        MembersSnoc(Members(front, bucket, b), last, key, k);
      } else {
        assert Members(rows, bucket, b) == Members(front, bucket, b);
      }
    }
  }

  lemma BucketMerges<T, K, U>(rows: seq<T>, key: T -> K, merge: (K, seq<T>) -> U, bucket: T -> int, b: int)
    requires NoSplit(rows, key, bucket)
    ensures OneBucket(rows, key, merge, bucket)(b)
         == Map(Merger(rows, key, merge), KeysIn(rows, key, bucket)(b))
  {
    var inside, ks := Members(rows, bucket, b), KeysIn(rows, key, bucket)(b);
    forall i | 0 <= i < |ks| ensures Members(inside, key, ks[i]) == Members(rows, key, ks[i]) {
      assert ks[i] in ks;
      KeyInBucket(rows, key, bucket, b, ks[i]);
      GroupComplete(rows, key, bucket, b, ks[i]);
    }
  }

  lemma BucketSize<T, K, U>(rows: seq<T>, key: T -> K, merge: (K, seq<T>) -> U, bucket: T -> int, n: nat)
    ensures |Bucketed(rows, key, merge, bucket, n)| == |Joined(KeysIn(rows, key, bucket), n)|
  {
    JoinedLength(KeysIn(rows, key, bucket), OneBucket(rows, key, merge, bucket), n);
  }

  lemma WholeGroups<T, K, U>(rows: seq<T>, key: T -> K, merge: (K, seq<T>) -> U, bucket: T -> int, n: nat)
    requires NoSplit(rows, key, bucket)
    requires multiset(Joined(KeysIn(rows, key, bucket), n)) == multiset(Keys(rows, key))
    ensures multiset(Bucketed(rows, key, merge, bucket, n)) == multiset(Direct(rows, key, merge))
  {
    var part, f := KeysIn(rows, key, bucket), Merger(rows, key, merge);
    forall b | 0 <= b < n ensures OneBucket(rows, key, merge, bucket)(b) == Map(f, part(b)) {
      BucketMerges(rows, key, merge, bucket, b);
    }
    JoinedMap(part, OneBucket(rows, key, merge, bucket), f, n);
    MapMultiset(f, Joined(part, n), Keys(rows, key));
  }

  /** A key is listed twice exactly when two buckets hold rows of its group; all keys are listed. */
  lemma BucketKeys<T, K>(rows: seq<T>, key: T -> K, bucket: T -> int, n: nat)
    requires forall r :: r in rows ==> 0 <= bucket(r) < n
    ensures var bs := Joined(KeysIn(rows, key, bucket), n);
            && (NoSplit(rows, key, bucket) ==> multiset(bs) == multiset(Keys(rows, key)))
            && (!NoSplit(rows, key, bucket) ==> |bs| > |Keys(rows, key)|)
  {
    var part, ks := KeysIn(rows, key, bucket), Keys(rows, key);
    var bs := Joined(part, n);
    forall b | 0 <= b < n ensures Distinct(part(b)) { KeysDistinct(Members(rows, bucket, b), key); }
    JoinedDistinct(part, n);
    NoSplitApart(rows, key, bucket, n);
    KeysDistinct(rows, key);
    forall k ensures k in bs <==> k in ks { BucketsCover(rows, key, bucket, n, k); }
    CompareKeys(bs, ks);
  }

  lemma CompareKeys<K>(bs: seq<K>, ks: seq<K>)
    requires Distinct(ks) && forall k :: k in bs <==> k in ks
    ensures Distinct(bs) ==> multiset(bs) == multiset(ks)
    ensures !Distinct(bs) ==> |bs| > |ks|
  {
    CountElements(bs);
    CountElements(ks);
    assert (set k | k in bs) == (set k | k in ks);
    if Distinct(bs) { SameElementsMultiset(bs, ks); }
  }

  /** Merging bucket by bucket gives the rows of one direct grouping, up to order, exactly when no
      group is split over two buckets; otherwise it gives more rows. */
  lemma BucketedIsDirect<T, K, U>(rows: seq<T>, key: T -> K, merge: (K, seq<T>) -> U, bucket: T -> int, n: nat)
    requires forall r :: r in rows ==> 0 <= bucket(r) < n
    ensures var bucketed, direct := Bucketed(rows, key, merge, bucket, n), Direct(rows, key, merge);
            && (multiset(bucketed) == multiset(direct) <==> NoSplit(rows, key, bucket))
            && (|bucketed| > |direct| <==> !NoSplit(rows, key, bucket))
  {
    var bucketed, direct := Bucketed(rows, key, merge, bucket, n), Direct(rows, key, merge);
    BucketKeys(rows, key, bucket, n);
    BucketSize(rows, key, merge, bucket, n);
    if NoSplit(rows, key, bucket) { WholeGroups(rows, key, merge, bucket, n); }
    assert |multiset(bucketed)| == |bucketed| && |multiset(direct)| == |direct|;
  }

  /** Every merged row is made from rows of the input. */
  lemma BucketedOrigin<T, K, U>(rows: seq<T>, key: T -> K, merge: (K, seq<T>) -> U, bucket: T -> int, n: nat, u: U)
    returns (k: K, group: seq<T>)
    requires u in Bucketed(rows, key, merge, bucket, n)
    ensures u == merge(k, group) && group != [] && forall r :: r in group ==> r in rows
  {
    JoinedMember(OneBucket(rows, key, merge, bucket), n, u);
    var b :| 0 <= b < n && u in OneBucket(rows, key, merge, bucket)(b);
    var inside := Members(rows, bucket, b);
    var ks := Keys(inside, key);
    var i :| 0 <= i < |ks| && Map(Merger(inside, key, merge), ks)[i] == u;
    k, group := ks[i], Members(inside, key, ks[i]);
    KeysMember(inside, key, k);
    var first :| first in inside && key(first) == k;
    MembersMember(inside, key, k, first);
    forall r | r in group ensures r in rows {
      MembersMember(inside, key, k, r);
      MembersMember(rows, bucket, b, r);
    }
  }

  /** Every merged row is made from the rows of one key in one bucket. */
  lemma BucketedPart<T, K, U>(rows: seq<T>, key: T -> K, merge: (K, seq<T>) -> U, bucket: T -> int, n: nat, u: U)
    returns (k: K, b: int)
    requires u in Bucketed(rows, key, merge, bucket, n)
    ensures 0 <= b < n && Members(Members(rows, bucket, b), key, k) != []
    ensures u == merge(k, Members(Members(rows, bucket, b), key, k))
  {
    JoinedMember(OneBucket(rows, key, merge, bucket), n, u);
    b :| 0 <= b < n && u in OneBucket(rows, key, merge, bucket)(b);
    var inside := Members(rows, bucket, b);
    var ks := Keys(inside, key);
    var i :| 0 <= i < |ks| && Map(Merger(inside, key, merge), ks)[i] == u;
    k := ks[i];
    GroupOfKey(inside, key, k);
  }

  lemma GroupOfKey<T, K>(rows: seq<T>, key: T -> K, k: K)
    requires k in Keys(rows, key)
    ensures Members(rows, key, k) != []
  {
    KeysMember(rows, key, k);
    var r :| r in rows && key(r) == k;
    MembersMember(rows, key, k, r);
  }

  /** A key whose rows share a bucket has all of them in that bucket. */
  lemma PartIsGroup<T, K>(rows: seq<T>, key: T -> K, bucket: T -> int, b: int, k: K)
    requires Members(Members(rows, bucket, b), key, k) != []
    requires forall r, s :: r in rows && s in rows && key(r) == k && key(s) == k ==> bucket(r) == bucket(s)
    ensures Members(Members(rows, bucket, b), key, k) == Members(rows, key, k)
  {
    var r := Members(Members(rows, bucket, b), key, k)[0];
    MembersMember(Members(rows, bucket, b), key, k, r);
    MembersMember(rows, bucket, b, r);
    GroupComplete(rows, key, bucket, b, k);
  }

  /** Every row goes into the merged row of its key in its bucket. */
  lemma PartMerged<T, K, U>(rows: seq<T>, key: T -> K, merge: (K, seq<T>) -> U, bucket: T -> int, n: nat, r: T)
    requires r in rows && 0 <= bucket(r) < n
    ensures merge(key(r), Members(Members(rows, bucket, bucket(r)), key, key(r)))
         in Bucketed(rows, key, merge, bucket, n)
  {
    var b := bucket(r);
    var inside := Members(rows, bucket, b);
    MembersMember(rows, bucket, b, r);
    KeysMember(inside, key, key(r));
    assert HasKey(inside, key, key(r));
    var i :| 0 <= i < |Keys(inside, key)| && Keys(inside, key)[i] == key(r);
    var u := merge(key(r), Members(inside, key, key(r)));
    assert OneBucket(rows, key, merge, bucket)(b)[i] == u;
    JoinedMember(OneBucket(rows, key, merge, bucket), n, u);
  }

  lemma HasElement<T>(s: seq<T>)
    ensures s != [] ==> exists x :: x in s
  {
    if s != [] { assert s[0] in s; }
  }

  lemma BucketedNone<T, K, U>(key: T -> K, merge: (K, seq<T>) -> U, bucket: T -> int, n: nat)
    ensures Bucketed([], key, merge, bucket, n) == []
  {
    var all := Bucketed([], key, merge, bucket, n);
    if all != [] {
      var k, group := BucketedOrigin([], key, merge, bucket, n, all[0]);
      HasElement(group);
    }
  }

  // ----- conservation -----

  function Total<T>(rows: seq<T>, weight: T -> int): int {
    if rows == [] then 0 else Total(rows[..|rows| - 1], weight) + weight(rows[|rows| - 1])
  }

  lemma TotalSnoc<T>(front: seq<T>, last: T, weight: T -> int)
    ensures Total(front + [last], weight) == Total(front, weight) + weight(last)
  {
    assert (front + [last])[..|front|] == front;
  }

  lemma {:induction false} TotalConcat<T>(s: seq<T>, t: seq<T>, weight: T -> int)
    ensures Total(s + t, weight) == Total(s, weight) + Total(t, weight)
  {
    if t == [] {
      assert s + t == s;
    } else {
      var t', x := t[..|t| - 1], t[|t| - 1];
      TotalConcat(s, t', weight);
      assert s + t == s + t' + [x];
      TotalSnoc(s + t', x, weight);
    }
  }

  ghost function TotalOver<T, K>(ks: seq<K>, rows: seq<T>, key: T -> K, weight: T -> int): int {
    if ks == [] then 0
    else
      var n := |ks| - 1;
      TotalOver(ks[..n], rows, key, weight) + Total(Members(rows, key, ks[n]), weight)
  }

  lemma TotalOverSnoc<T, K>(ks: seq<K>, k: K, rows: seq<T>, key: T -> K, weight: T -> int)
    ensures TotalOver(ks + [k], rows, key, weight)
         == TotalOver(ks, rows, key, weight) + Total(Members(rows, key, k), weight)
  {
    assert (ks + [k])[..|ks|] == ks;
  }

  lemma MembersTotal<T, K>(front: seq<T>, last: T, key: T -> K, k: K, weight: T -> int)
    ensures Total(Members(front + [last], key, k), weight)
         == Total(Members(front, key, k), weight) + if key(last) == k then weight(last) else 0
  {
    MembersSnoc(front, last, key, k);
    if key(last) == k {
      TotalSnoc(Members(front, key, k), last, weight);
    } else {
      assert Members(front, key, k) + [] == Members(front, key, k);
    }
  }

  lemma {:induction false} TotalOverLast<T, K>(ks: seq<K>, front: seq<T>, last: T, key: T -> K, weight: T -> int)
    requires Distinct(ks)
    ensures TotalOver(ks, front + [last], key, weight)
         == TotalOver(ks, front, key, weight) + if key(last) in ks then weight(last) else 0
  {
    if ks != [] {
      var ks', k := ks[..|ks| - 1], ks[|ks| - 1];
      assert ks == ks' + [k];
      TotalOverLast(ks', front, last, key, weight);
      TotalOverSnoc(ks', k, front, key, weight);
      TotalOverSnoc(ks', k, front + [last], key, weight);
      MembersTotal(front, last, key, k, weight);
      assert k !in ks';
    }
  }

  /** A partition of the rows preserves their total weight. */
  lemma {:induction false} TotalPartition<T, K>(ks: seq<K>, rows: seq<T>, key: T -> K, weight: T -> int)
    requires Distinct(ks) && forall r :: r in rows ==> key(r) in ks
    ensures TotalOver(ks, rows, key, weight) == Total(rows, weight)
  {
    if rows == [] {
      TotalOverNothing(ks, key, weight);
    } else {
      var front, last := rows[..|rows| - 1], rows[|rows| - 1];
      assert rows == front + [last];
      TotalOverLast(ks, front, last, key, weight);
      TotalPartition(ks, front, key, weight);
      assert last in rows;
    }
  }

  lemma {:induction false} TotalOverNothing<T, K>(ks: seq<K>, key: T -> K, weight: T -> int)
    ensures TotalOver(ks, [], key, weight) == 0
  {
    if ks != [] { TotalOverNothing(ks[..|ks| - 1], key, weight); }
  }

  /** The merged row of a group weighs what its members weigh together. */
  ghost predicate Conserves<T(!new), K(!new), U>(merge: (K, seq<T>) -> U, weight: T -> int, merged: U -> int) {
    forall k: K, rows: seq<T> :: merged(merge(k, rows)) == Total(rows, weight)
  }

  lemma {:induction false} MapTotal<T(!new), K(!new), U>(ks: seq<K>, rows: seq<T>, key: T -> K, merge: (K, seq<T>) -> U,
                                                         weight: T -> int, merged: U -> int)
    requires Conserves(merge, weight, merged)
    ensures Total(Map(Merger(rows, key, merge), ks), merged) == TotalOver(ks, rows, key, weight)
  {
    if ks != [] {
      var n := |ks| - 1;
      var f := Merger(rows, key, merge);
      MapTotal(ks[..n], rows, key, merge, weight, merged);
      assert Map(f, ks) == Map(f, ks[..n]) + [f(ks[n])];
      TotalSnoc(Map(f, ks[..n]), f(ks[n]), merged);
      assert merged(merge(ks[n], Members(rows, key, ks[n]))) == Total(Members(rows, key, ks[n]), weight);
    }
  }

  lemma DirectTotal<T(!new), K(!new), U>(rows: seq<T>, key: T -> K, merge: (K, seq<T>) -> U,
                                         weight: T -> int, merged: U -> int)
    requires Conserves(merge, weight, merged)
    ensures Total(Direct(rows, key, merge), merged) == Total(rows, weight)
  {
    var ks := Keys(rows, key);
    MapTotal(ks, rows, key, merge, weight, merged);
    KeysDistinct(rows, key);
    forall r | r in rows ensures key(r) in ks { KeysMember(rows, key, key(r)); }
    TotalPartition(ks, rows, key, weight);
  }

  function UpTo(n: nat): (r: seq<int>)
    ensures |r| == n && forall i :: 0 <= i < n ==> r[i] == i
  {
    seq(n, i => i)
  }

  lemma UpToSnoc(n: nat)
    requires n > 0
    ensures UpTo(n) == UpTo(n - 1) + [n - 1]
  {
  }

  lemma {:induction false} JoinedTotal<T, U>(part: int -> seq<U>, merged: U -> int, rows: seq<T>,
                                             bucket: T -> int, weight: T -> int, n: nat)
    requires forall b :: 0 <= b < n ==> Total(part(b), merged) == Total(Members(rows, bucket, b), weight)
    ensures Total(Joined(part, n), merged) == TotalOver(UpTo(n), rows, bucket, weight)
  {
    if n > 0 {
      JoinedTotal(part, merged, rows, bucket, weight, n - 1);
      TotalConcat(Joined(part, n - 1), part(n - 1), merged);
      UpToSnoc(n);
      TotalOverSnoc(UpTo(n - 1), n - 1, rows, bucket, weight);
    }
  }

  /** The total weight survives the bucketed merge whether or not groups are split. */
  lemma BucketedTotal<T(!new), K(!new), U>(rows: seq<T>, key: T -> K, merge: (K, seq<T>) -> U,
                                           weight: T -> int, merged: U -> int, bucket: T -> int, n: nat)
    requires Conserves(merge, weight, merged)
    requires forall r :: r in rows ==> 0 <= bucket(r) < n
    ensures Total(Bucketed(rows, key, merge, bucket, n), merged) == Total(rows, weight)
  {
    var part := OneBucket(rows, key, merge, bucket);
    forall b | 0 <= b < n ensures Total(part(b), merged) == Total(Members(rows, bucket, b), weight) {
      DirectTotal(Members(rows, bucket, b), key, merge, weight, merged);
    }
    JoinedTotal(part, merged, rows, bucket, weight, n);
    forall r | r in rows ensures bucket(r) in UpTo(n) { assert UpTo(n)[bucket(r)] == bucket(r); }
    TotalPartition(UpTo(n), rows, bucket, weight);
  }
}
