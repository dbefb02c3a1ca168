/** The two orderings the analytics use: Python's stable
    `sorted(items, key=count, reverse=True)` over (key, count) pairs, and
    `sorted(set(xs))` over strings. */
module Sorting {
  import opened Text

  /** Places `x` in front of the first entry whose count is not larger than its own,
      so among equal counts `x` stays ahead of entries that came after it. */
  function InsertByCount<K(==)>(x: (K, nat), s: seq<(K, nat)>): (r: seq<(K, nat)>)
    ensures multiset(r) == multiset(s) + multiset{x}
  {
    if s == [] || s[0].1 <= x.1 then [x] + s
    else
      assert s == [s[0]] + s[1..];
      [s[0]] + InsertByCount(x, s[1..])
  }

  predicate CountDescending<K>(s: seq<(K, nat)>)
  {
    forall i, j :: 0 <= i < j < |s| ==> s[i].1 >= s[j].1
  }

  /** Python's `sorted(items, key=lambda x: x[1], reverse=True)`: a stable sort
      by count, largest first. */
  function SortByCountDesc<K(==)>(s: seq<(K, nat)>): (r: seq<(K, nat)>)
    ensures multiset(r) == multiset(s)
  {
    if s == [] then []
    else
      assert s == [s[0]] + s[1..];
      InsertByCount(s[0], SortByCountDesc(s[1..]))
  }

  lemma {:induction false} InsertByCountDescending<K>(x: (K, nat), s: seq<(K, nat)>)
    requires CountDescending(s)
    ensures CountDescending(InsertByCount(x, s))
  {
    if s != [] && s[0].1 > x.1 {
      InsertByCountDescending(x, s[1..]);
      var r := InsertByCount(x, s[1..]);
      forall e | e in r ensures e.1 <= s[0].1 {
        assert e in multiset(r);
        if e != x {
          assert e in multiset(s[1..]);
          var j :| 0 <= j < |s[1..]| && s[1..][j] == e;
          assert s[j + 1] == e;
        }
      }
    }
  }

  /** The result of the sort is ordered by count, largest first. */
  lemma {:induction false} SortedByCount<K>(s: seq<(K, nat)>)
    ensures CountDescending(SortByCountDesc(s))
  {
    if s != [] {
      SortedByCount(s[1..]);
      InsertByCountDescending(s[0], SortByCountDesc(s[1..]));
    }
  }

  /** The sort keeps exactly the entries it was given. */
  lemma SortKeepsEntries<K>(s: seq<(K, nat)>)
    ensures forall e :: e in SortByCountDesc(s) <==> e in s
  {
    var r := SortByCountDesc(s);
    forall e ensures e in r <==> e in s {
      assert e in r <==> e in multiset(r);
      assert e in s <==> e in multiset(s);
    }
  }

  /** Ordered by count, largest first, and among equal counts by `before`. */
  predicate OrderedWithTies<K>(s: seq<(K, nat)>, before: (K, K) -> bool)
  {
    forall i, j :: 0 <= i < j < |s| ==>
      s[i].1 > s[j].1 || (s[i].1 == s[j].1 && before(s[i].0, s[j].0))
  }

  lemma {:induction false} InsertByCountKeepsTies<K>(x: (K, nat), s: seq<(K, nat)>, before: (K, K) -> bool)
    requires OrderedWithTies(s, before)
    requires forall e <- s :: before(x.0, e.0)
    ensures OrderedWithTies(InsertByCount(x, s), before)
  {
    if s != [] && s[0].1 > x.1 {
      OrderedTail(s, before);
      assert forall e <- s[1..] :: e in s;
      InsertByCountKeepsTies(x, s[1..], before);
      HeadBeforeInserted(x, s, before);
      OrderedCons(s[0], InsertByCount(x, s[1..]), before);
    } else {
      assert forall e <- s :: e.1 <= x.1 by {
        forall e | e in s ensures e.1 <= x.1 {
          var j :| 0 <= j < |s| && s[j] == e;
          assert j == 0 || s[0].1 >= s[j].1;
        }
      }
      OrderedCons(x, s, before);
    }
  }

  lemma HeadBeforeInserted<K>(x: (K, nat), s: seq<(K, nat)>, before: (K, K) -> bool)
    requires s != [] && s[0].1 > x.1 && OrderedWithTies(s, before)
    ensures forall e <- InsertByCount(x, s[1..]) :: s[0].1 > e.1 || (s[0].1 == e.1 && before(s[0].0, e.0))
  {
    var r := InsertByCount(x, s[1..]);
    forall e | e in r ensures s[0].1 > e.1 || (s[0].1 == e.1 && before(s[0].0, e.0)) {
      assert e in multiset(r);
      if e != x {
        assert e in multiset(s[1..]);
        var j :| 0 <= j < |s[1..]| && s[1..][j] == e;
        assert s[j + 1] == e;
      }
    }
  }

  /** Stability: when the input is already in `before` order, entries with equal
      counts keep that order in the result. */
  lemma {:induction false} SortIsStable<K>(s: seq<(K, nat)>, before: (K, K) -> bool)
    requires forall i, j :: 0 <= i < j < |s| ==> before(s[i].0, s[j].0)
    ensures OrderedWithTies(SortByCountDesc(s), before)
  {
    if s != [] {
      SortIsStable(s[1..], before);
      var t := SortByCountDesc(s[1..]);
      forall e | e in t ensures before(s[0].0, e.0) {
        assert e in multiset(t);
        assert e in multiset(s[1..]);
        var j :| 0 <= j < |s[1..]| && s[1..][j] == e;
        assert s[j + 1] == e;
      }
      InsertByCountKeepsTies(s[0], t, before);
    }
  }

  /** The entries with a positive count, in their order. */
  function DropZeros<K(==)>(s: seq<(K, nat)>): (r: seq<(K, nat)>)
    ensures |r| <= |s|
    ensures forall e <- r :: e in s && e.1 > 0
    ensures forall e <- s :: e.1 > 0 ==> e in r
  {
    if s == [] then []
    else
      assert s == [s[0]] + s[1..];
      (if s[0].1 > 0 then [s[0]] else []) + DropZeros(s[1..])
  }

  lemma {:induction false} DropZerosNone<K>(s: seq<(K, nat)>)
    requires forall e <- s :: e.1 == 0
    ensures DropZeros(s) == []
  {
    if s != [] {
      assert s[0] in s;
      DropZerosNone(s[1..]);
    }
  }

  lemma {:induction false} DropZerosAll<K>(s: seq<(K, nat)>)
    requires forall e <- s :: e.1 > 0
    ensures DropZeros(s) == s
  {
    if s != [] {
      assert s[0] in s;
      DropZerosAll(s[1..]);
      assert s == [s[0]] + s[1..];
    }
  }

  /** Dropping entries keeps the order of the rest. */
  lemma {:induction false} DropZerosOrdered<K>(s: seq<(K, nat)>, before: (K, K) -> bool)
    requires OrderedWithTies(s, before)
    ensures OrderedWithTies(DropZeros(s), before)
  {
    if s != [] {
      OrderedTail(s, before);
      DropZerosOrdered(s[1..], before);
      if s[0].1 > 0 {
        HeadBeforeKept(s, before);
        OrderedCons(s[0], DropZeros(s[1..]), before);
      }
    }
  }

  lemma OrderedTail<K>(s: seq<(K, nat)>, before: (K, K) -> bool)
    requires s != [] && OrderedWithTies(s, before)
    ensures OrderedWithTies(s[1..], before)
  {
    var t := s[1..];
    forall i, j | 0 <= i < j < |t| ensures t[i].1 > t[j].1 || (t[i].1 == t[j].1 && before(t[i].0, t[j].0)) {
      assert t[i] == s[i + 1] && t[j] == s[j + 1];
    }
  }

  lemma HeadBeforeKept<K>(s: seq<(K, nat)>, before: (K, K) -> bool)
    requires s != [] && OrderedWithTies(s, before)
    ensures forall e <- DropZeros(s[1..]) :: s[0].1 > e.1 || (s[0].1 == e.1 && before(s[0].0, e.0))
  {
    var t := s[1..];
    forall e | e in DropZeros(t) ensures s[0].1 > e.1 || (s[0].1 == e.1 && before(s[0].0, e.0)) {
      var j :| 0 <= j < |t| && t[j] == e;
      assert s[j + 1] == e;
    }
  }

  /** An entry that goes before everything in an ordered list can lead it. */
  lemma OrderedCons<K>(x: (K, nat), r: seq<(K, nat)>, before: (K, K) -> bool)
    requires OrderedWithTies(r, before)
    requires forall e <- r :: x.1 > e.1 || (x.1 == e.1 && before(x.0, e.0))
    ensures OrderedWithTies([x] + r, before)
  {
    var s := [x] + r;
    forall i, j | 0 <= i < j < |s| ensures s[i].1 > s[j].1 || (s[i].1 == s[j].1 && before(s[i].0, s[j].0)) {
      assert s[j] == r[j - 1];
      if i > 0 {
        assert s[i] == r[i - 1];
      } else {
        assert r[j - 1] in r;
      }
    }
  }

  /** Dropping zero counts leaves the total as it was. */
  lemma {:induction false} DropZerosSum<K>(s: seq<(K, nat)>)
    ensures SumCounts(DropZeros(s)) == SumCounts(s)
  {
    if s != [] {
      DropZerosSum(s[1..]);
      var rest := DropZeros(s[1..]);
      if s[0].1 > 0 {
        assert DropZeros(s) == [s[0]] + rest;
        assert ([s[0]] + rest)[1..] == rest;
      } else {
        assert DropZeros(s) == rest;
      }
    }
  }

  function SumCounts<K>(s: seq<(K, nat)>): nat
  {
    if s == [] then 0 else s[0].1 + SumCounts(s[1..])
  }

  lemma {:induction false} SumCountsInsert<K>(x: (K, nat), s: seq<(K, nat)>)
    ensures SumCounts(InsertByCount(x, s)) == x.1 + SumCounts(s)
  {
    if s != [] && s[0].1 > x.1 {
      SumCountsInsert(x, s[1..]);
    }
  }

  /** Sorting neither adds nor loses any count. */
  lemma {:induction false} SumCountsSorted<K>(s: seq<(K, nat)>)
    ensures SumCounts(SortByCountDesc(s)) == SumCounts(s)
  {
    if s != [] {
      SumCountsSorted(s[1..]);
      SumCountsInsert(s[0], SortByCountDesc(s[1..]));
    }
  }

  /** No value is listed twice. */
  predicate Distinct<T(==)>(s: seq<T>)
  {
    forall i, j :: 0 <= i < j < |s| ==> s[i] != s[j]
  }

  // ----- sorted distinct strings -----

  predicate StrictlySorted(s: seq<string>)
  {
    forall i, j :: 0 <= i < j < |s| ==> Less(s[i], s[j])
  }

  /** Adds `x` to a strictly sorted list unless it is already there. */
  function InsertDistinct(x: string, s: seq<string>): (r: seq<string>)
    requires StrictlySorted(s)
    ensures StrictlySorted(r)
    ensures forall y :: y in r <==> y == x || y in s
  {
    if s == [] then [x]
    else if x == s[0] then s
    else if Less(x, s[0]) then
      assert forall j :: 0 <= j < |s| ==> Less(x, s[j]) by {
        forall j | 0 < j < |s| ensures Less(x, s[j]) { LessTransitive(x, s[0], s[j]); }
      }
      [x] + s
    else
      LessTotal(x, s[0]);
      var r := InsertDistinct(x, s[1..]);
      assert forall y <- r :: Less(s[0], y);
      [s[0]] + r
  }

  /** Python's `sorted(set(xs))`: every value of `xs` once, in ascending order. */
  function SortedDistinct(xs: seq<string>): (r: seq<string>)
    ensures StrictlySorted(r)
    ensures forall y :: y in r <==> y in xs
  {
    if xs == [] then [] else InsertDistinct(xs[0], SortedDistinct(xs[1..]))
  }

  /** The distinct values of a list. */
  function Elements(xs: seq<string>): set<string>
  {
    set y | y in xs
  }

  /** A strictly sorted list holds no value twice, so it is as long as its set. */
  lemma {:induction false} StrictlySortedCard(s: seq<string>)
    requires StrictlySorted(s)
    ensures |Elements(s)| == |s|
  {
    if s != [] {
      StrictlySortedCard(s[1..]);
      assert Elements(s) == Elements(s[1..]) + {s[0]};
      LessIrreflexive(s[0]);
      assert s[0] !in s[1..];
    }
  }

  /** A list never has more distinct values than entries. */
  lemma {:induction false} DistinctAtMostLength(xs: seq<string>)
    ensures |Elements(xs)| <= |xs|
  {
    if xs != [] {
      DistinctAtMostLength(xs[1..]);
      assert Elements(xs) == Elements(xs[1..]) + {xs[0]};
    }
  }
}
