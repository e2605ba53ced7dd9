/** Sequences without repetition. */
module Distinctness {

  ghost predicate Distinct<T>(s: seq<T>) {
    forall i, j :: 0 <= i < j < |s| ==> s[i] != s[j]
  }

  lemma {:induction false} DistinctMultiset<T>(s: seq<T>)
    ensures Distinct(s) <==> forall x :: multiset(s)[x] <= 1
  {
    if s != [] {
      var n := |s| - 1;
      DistinctMultiset(s[..n]);
      assert s == s[..n] + [s[n]];
      assert multiset(s) == multiset(s[..n]) + multiset{s[n]};
      assert s[n] in s[..n] <==> multiset(s[..n])[s[n]] > 0;
      if Distinct(s) {
        assert Distinct(s[..n]) && s[n] !in s[..n];
      }
      if forall x :: multiset(s)[x] <= 1 {
        assert multiset(s)[s[n]] <= 1;
        assert s[n] !in s[..n];
        forall x ensures multiset(s[..n])[x] <= 1 { assert multiset(s)[x] <= 1; }
      }
    }
  }

  lemma SameMultisetDistinct<T>(s: seq<T>, t: seq<T>)
    requires Distinct(s) && multiset(s) == multiset(t)
    ensures Distinct(t)
  {
    DistinctMultiset(s);
    DistinctMultiset(t);
  }

  /** Two lists without repetition and with the same elements are rearrangements of each other. */
  lemma SameElementsMultiset<T>(s: seq<T>, t: seq<T>)
    requires Distinct(s) && Distinct(t)
    requires forall x :: x in s <==> x in t
    ensures multiset(s) == multiset(t)
  {
    DistinctMultiset(s);
    DistinctMultiset(t);
    forall x ensures multiset(s)[x] == multiset(t)[x] {
      assert x in s <==> multiset(s)[x] > 0;
      assert x in t <==> multiset(t)[x] > 0;
    }
  }

  /** A list is as long as its set of elements exactly when nothing repeats. */
  lemma {:induction false} CountElements<T>(s: seq<T>)
    ensures |(set x | x in s)| <= |s|
    ensures |(set x | x in s)| == |s| <==> Distinct(s)
  {
    if s != [] {
      var n := |s| - 1;
      CountElements(s[..n]);
      var front, all := (set x | x in s[..n]), (set x | x in s);
      assert s == s[..n] + [s[n]];
      assert all == front + {s[n]};
      if Distinct(s) {
        assert s[n] !in s[..n];
      } else {
        assert s[n] in s[..n] || !Distinct(s[..n]);
      }
    }
  }
}
