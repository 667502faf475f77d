/** `Array.prototype.sort` with the comparator `(a, b) => rank(b) - rank(a)`,
 *  as the history code uses it: a sort into descending rank. It is written
 *  here as an insertion sort; what the program relies on is its contract
 *  (descending, a permutation), which is proved. */
module Sorting {

  ghost predicate SortedDescBy<T>(s: seq<T>, rank: T -> int) {
    forall i, j :: 0 <= i < j < |s| ==> rank(s[i]) >= rank(s[j])
  }

  /** Puts `x` in front of the first element that does not outrank it. */
  function InsertBy<T>(x: T, s: seq<T>, rank: T -> int): (r: seq<T>)
    ensures multiset(r) == multiset(s) + multiset{x}
  {
    if s == [] || rank(x) >= rank(s[0]) then [x] + s
    else
      assert s == [s[0]] + s[1..];
      [s[0]] + InsertBy(x, s[1..], rank)
  }

  lemma {:induction false} InsertSorted<T>(x: T, s: seq<T>, rank: T -> int)
    requires SortedDescBy(s, rank)
    ensures SortedDescBy(InsertBy(x, s, rank), rank)
  {
    if s != [] && rank(x) < rank(s[0]) {
      var tail := InsertBy(x, s[1..], rank);
      InsertSorted(x, s[1..], rank);
      forall j | 0 <= j < |tail|
        ensures rank(tail[j]) <= rank(s[0])
      {
        assert tail[j] in multiset(tail);
        if tail[j] != x {
          assert tail[j] in multiset(s[1..]);
          var m :| 0 <= m < |s[1..]| && s[1..][m] == tail[j];
          assert s[m + 1] == tail[j];
        }
      }
      var r := [s[0]] + tail;
      forall i, j | 0 <= i < j < |r|
        ensures rank(r[i]) >= rank(r[j])
      {
        if i > 0 {
          assert r[i] == tail[i - 1] && r[j] == tail[j - 1];
        } else {
          assert r[j] == tail[j - 1];
        }
      }
    }
  }

  /** The sorted copy: ranks descend, and no element is gained or lost. */
  function SortDescBy<T>(s: seq<T>, rank: T -> int): (r: seq<T>)
    ensures SortedDescBy(r, rank)
    ensures multiset(r) == multiset(s)
  {
    if s == [] then []
    else
      assert s == [s[0]] + s[1..];
      var sortedTail := SortDescBy(s[1..], rank);
      InsertSorted(s[0], sortedTail, rank);
      InsertBy(s[0], sortedTail, rank)
  }

  /** A permutation keeps every element: what is in the sorted copy was in the
      input and the other way round. */
  lemma SortKeepsElements<T>(s: seq<T>, rank: T -> int)
    ensures |SortDescBy(s, rank)| == |s|
    ensures forall e :: e in SortDescBy(s, rank) <==> e in s
  {
    var r := SortDescBy(s, rank);
    assert |r| == |multiset(r)| == |multiset(s)| == |s|;
    forall e
      ensures e in r <==> e in s
    {
      assert e in r <==> e in multiset(r);
      assert e in s <==> e in multiset(s);
    }
  }

  ghost predicate DistinctBy<T, K>(s: seq<T>, proj: T -> K) {
    forall i, j :: 0 <= i < j < |s| ==> proj(s[i]) != proj(s[j])
  }

  lemma {:induction false} InsertKeepsDistinct<T, K>(x: T, s: seq<T>, rank: T -> int, proj: T -> K)
    requires DistinctBy(s, proj)
    requires forall e :: e in s ==> proj(e) != proj(x)
    ensures DistinctBy(InsertBy(x, s, rank), proj)
  {
    var r := InsertBy(x, s, rank);
    if s == [] || rank(x) >= rank(s[0]) {
      forall i, j | 0 <= i < j < |r|
        ensures proj(r[i]) != proj(r[j])
      {
        assert r[j] == s[j - 1];
        if i > 0 {
          assert r[i] == s[i - 1];
        }
      }
    } else {
      var tail := InsertBy(x, s[1..], rank);
      InsertKeepsDistinct(x, s[1..], rank, proj);
      forall e | e in tail
        ensures proj(e) != proj(s[0])
      {
        assert e in multiset(tail);
        if e != x {
          assert e in multiset(s[1..]);
          var m :| 0 <= m < |s[1..]| && s[1..][m] == e;
          assert s[m + 1] == e;
        }
      }
      forall i, j | 0 <= i < j < |r|
        ensures proj(r[i]) != proj(r[j])
      {
        assert r[j] == tail[j - 1] && r[j] in tail;
        if i > 0 {
          assert r[i] == tail[i - 1];
        }
      }
    }
  }

  /** Sorting keeps a projection that was distinct distinct. */
  lemma {:induction false} SortKeepsDistinct<T, K>(s: seq<T>, rank: T -> int, proj: T -> K)
    requires DistinctBy(s, proj)
    ensures DistinctBy(SortDescBy(s, rank), proj)
  {
    if s != [] {
      var sortedTail := SortDescBy(s[1..], rank);
      SortKeepsDistinct(s[1..], rank, proj);
      forall e | e in sortedTail
        ensures proj(e) != proj(s[0])
      {
        assert e in multiset(sortedTail);
        assert e in multiset(s[1..]);
        var m :| 0 <= m < |s[1..]| && s[1..][m] == e;
        assert s[m + 1] == e;
      }
      InsertKeepsDistinct(s[0], sortedTail, rank, proj);
    }
  }
}
