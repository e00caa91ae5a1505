/** Array.prototype.sort with a descending comparator `(a, b) => rank(b) - rank(a)`.
    Section 22.1.3.27 of ECMA-262 (2019 edition) requires the sort to be stable, so its result
    is the unique permutation that is non-increasing by rank and keeps the input order among
    equal ranks. SortDesc is a stable insertion sort; the lemmas below prove it has exactly
    these properties, so it stands for any conforming engine's sort. */
module StableSort {

  /** Inserts x in front of the first element whose rank does not exceed x's. */
  function Insert<T>(x: T, s: seq<T>, rank: T -> int): (r: seq<T>)
    ensures |r| == |s| + 1
  {
    if s == [] || rank(x) >= rank(s[0]) then [x] + s else [s[0]] + Insert(x, s[1..], rank)
  }

  function SortDesc<T>(s: seq<T>, rank: T -> int): (r: seq<T>)
    ensures |r| == |s|
  {
    if s == [] then [] else Insert(s[0], SortDesc(s[1..], rank), rank)
  }

  ghost predicate NonIncreasing<T>(s: seq<T>, rank: T -> int)
  {
    forall i, j :: 0 <= i < j < |s| ==> rank(s[i]) >= rank(s[j])
  }

  /** The elements of rank v, in order. */
  function WithRank<T>(s: seq<T>, rank: T -> int, v: int): seq<T>
  {
    if s == [] then []
    else (if rank(s[0]) == v then [s[0]] else []) + WithRank(s[1..], rank, v)
  }

  /** No two elements share a key. */
  ghost predicate DistinctBy<T, K>(s: seq<T>, key: T -> K)
  {
    forall i, j :: 0 <= i < j < |s| ==> key(s[i]) != key(s[j])
  }

  /** The index of the first element of maximal rank. */
  function FirstMax<T>(s: seq<T>, rank: T -> int): (k: nat)
    requires |s| > 0
    ensures k < |s|
    ensures forall j :: 0 <= j < |s| ==> rank(s[j]) <= rank(s[k])
    ensures forall j :: 0 <= j < k ==> rank(s[j]) < rank(s[k])
  {
    if |s| == 1 then 0
    else
      var j := FirstMax(s[1..], rank) + 1;
      if rank(s[0]) >= rank(s[j]) then 0 else j
  }

  lemma {:induction false} InsertPerm<T>(x: T, s: seq<T>, rank: T -> int)
    ensures multiset(Insert(x, s, rank)) == multiset([x] + s)
  {
    if s != [] && rank(x) < rank(s[0]) {
      InsertPerm(x, s[1..], rank);
      assert s == [s[0]] + s[1..];
    }
  }

  lemma {:induction false} SortPerm<T>(s: seq<T>, rank: T -> int)
    ensures multiset(SortDesc(s, rank)) == multiset(s)
  {
    if s != [] {
      SortPerm(s[1..], rank);
      InsertPerm(s[0], SortDesc(s[1..], rank), rank);
      assert s == [s[0]] + s[1..];
    }
  }

  /** Sorting keeps exactly the elements of the input. */
  lemma SortMembers<T>(s: seq<T>, rank: T -> int)
    ensures forall x :: x in SortDesc(s, rank) <==> x in s
  {
    SortPerm(s, rank);
    forall x ensures x in SortDesc(s, rank) <==> x in s {
      assert x in SortDesc(s, rank) <==> x in multiset(SortDesc(s, rank));
      assert x in s <==> x in multiset(s);
    }
  }

  /** Inserting under a common upper bound keeps every rank under it. */
  lemma {:induction false} InsertBounded<T>(x: T, s: seq<T>, rank: T -> int, b: int)
    requires rank(x) <= b
    requires forall j :: 0 <= j < |s| ==> rank(s[j]) <= b
    ensures forall j :: 0 <= j < |s| + 1 ==> rank(Insert(x, s, rank)[j]) <= b
  {
    if s != [] && rank(x) < rank(s[0]) {
      InsertBounded(x, s[1..], rank, b);
    }
  }

  lemma {:induction false} InsertSorted<T>(x: T, s: seq<T>, rank: T -> int)
    requires NonIncreasing(s, rank)
    ensures NonIncreasing(Insert(x, s, rank), rank)
    ensures Insert(x, s, rank)[0] == if s == [] || rank(x) >= rank(s[0]) then x else s[0]
  {
    if s != [] && rank(x) < rank(s[0]) {
      var tail := s[1..];
      assert NonIncreasing(tail, rank);
      InsertSorted(x, tail, rank);
      var t := Insert(x, tail, rank);
      InsertBounded(x, tail, rank, rank(s[0]));
      var r := Insert(x, s, rank);
      assert r == [s[0]] + t;
      forall i, j | 0 <= i < j < |r| ensures rank(r[i]) >= rank(r[j]) {
        assert r[j] == t[j - 1];
        if i > 0 {
          assert r[i] == t[i - 1];
        }
      }
    }
  }

  lemma {:induction false} SortSorted<T>(s: seq<T>, rank: T -> int)
    ensures NonIncreasing(SortDesc(s, rank), rank)
  {
    if s != [] {
      SortSorted(s[1..], rank);
      InsertSorted(s[0], SortDesc(s[1..], rank), rank);
    }
  }

  lemma {:induction false} InsertWithRank<T>(x: T, s: seq<T>, rank: T -> int, v: int)
    ensures WithRank(Insert(x, s, rank), rank, v) == WithRank([x] + s, rank, v)
  {
    if s != [] && rank(x) < rank(s[0]) {
      InsertWithRank(x, s[1..], rank, v);
      assert ([s[0]] + Insert(x, s[1..], rank))[1..] == Insert(x, s[1..], rank);
      assert ([x] + s)[1..] == s;
      assert ([x] + s[1..])[1..] == s[1..];
    } else {
      assert ([x] + s)[1..] == s;
    }
  }

  /** Stability: among elements of equal rank the input order is kept. */
  lemma {:induction false} SortStable<T>(s: seq<T>, rank: T -> int, v: int)
    ensures WithRank(SortDesc(s, rank), rank, v) == WithRank(s, rank, v)
  {
    if s != [] {
      SortStable(s[1..], rank, v);
      InsertWithRank(s[0], SortDesc(s[1..], rank), rank, v);
      assert ([s[0]] + SortDesc(s[1..], rank))[1..] == SortDesc(s[1..], rank);
    }
  }

  /** The head of the sorted sequence is the first element of maximal rank. */
  lemma {:induction false} SortHead<T>(s: seq<T>, rank: T -> int)
    requires |s| > 0
    ensures SortDesc(s, rank)[0] == s[FirstMax(s, rank)]
  {
    var t := SortDesc(s[1..], rank);
    SortSorted(s[1..], rank);
    InsertSorted(s[0], t, rank);
    if |s| > 1 {
      SortHead(s[1..], rank);
    }
  }

  lemma {:induction false} InsertDistinct<T, K>(x: T, s: seq<T>, rank: T -> int, key: T -> K)
    requires DistinctBy(s, key)
    requires forall y :: y in s ==> key(y) != key(x)
    ensures DistinctBy(Insert(x, s, rank), key)
  {
    if s != [] && rank(x) < rank(s[0]) {
      InsertDistinct(x, s[1..], rank, key);
      var t := Insert(x, s[1..], rank);
      InsertPerm(x, s[1..], rank);
      forall j | 0 <= j < |t| ensures key(s[0]) != key(t[j]) {
        assert t[j] in multiset(t);
        assert t[j] == x || t[j] in s[1..];
      }
    }
  }

  /** Sorting keeps a sequence free of duplicate keys. */
  lemma {:induction false} SortDistinct<T, K>(s: seq<T>, rank: T -> int, key: T -> K)
    requires DistinctBy(s, key)
    ensures DistinctBy(SortDesc(s, rank), key)
  {
    if s != [] {
      SortDistinct(s[1..], rank, key);
      SortPerm(s[1..], rank);
      forall y | y in SortDesc(s[1..], rank) ensures key(y) != key(s[0]) {
        assert y in multiset(SortDesc(s[1..], rank));
        assert y in s[1..];
        var i :| 0 <= i < |s[1..]| && s[1..][i] == y;
        assert s[i + 1] == y;
      }
      InsertDistinct(s[0], SortDesc(s[1..], rank), rank, key);
    }
  }

  /** A sequence that is already non-increasing is left as it is. */
  lemma {:induction false} SortSortedIsIdentity<T>(s: seq<T>, rank: T -> int)
    requires NonIncreasing(s, rank)
    ensures SortDesc(s, rank) == s
  {
    if s != [] {
      SortSortedIsIdentity(s[1..], rank);
      assert SortDesc(s[1..], rank) == s[1..];
      assert s == [s[0]] + s[1..];
    }
  }
}
