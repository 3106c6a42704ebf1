// Latency statistics of internal/metrics/tracker.go on values: sorting, the percentile
// rank and the average, with Go's integer division.

module Percentiles {
  ghost predicate Sorted(s: seq<int>) {
    forall i, j :: 0 <= i < j < |s| ==> s[i] <= s[j]
  }

  function Insert(x: int, s: seq<int>): seq<int> {
    if s == [] || x <= s[0] then [x] + s else [s[0]] + Insert(x, s[1..])
  }

  /** The sorted copy that `slices.Sort` leaves behind. */
  function Sort(s: seq<int>): seq<int> {
    if s == [] then [] else Insert(s[0], Sort(s[1..]))
  }

  ghost predicate AtLeast(lo: int, s: seq<int>) {
    forall i :: 0 <= i < |s| ==> lo <= s[i]
  }

  lemma {:induction false} InsertKeepsBound(x: int, s: seq<int>, lo: int)
    requires AtLeast(lo, s) && lo <= x
    ensures AtLeast(lo, Insert(x, s))
  {
    if s == [] || x <= s[0] {
    } else {
      InsertKeepsBound(x, s[1..], lo);
    }
  }

  lemma {:induction false} InsertSorted(x: int, s: seq<int>)
    requires Sorted(s)
    ensures Sorted(Insert(x, s))
  {
    if s == [] || x <= s[0] {
    } else {
      InsertSorted(x, s[1..]);
      InsertKeepsBound(x, s[1..], s[0]);
    }
  }

  lemma {:induction false} InsertAdds(x: int, s: seq<int>)
    ensures multiset(Insert(x, s)) == multiset(s) + multiset{x}
    ensures |Insert(x, s)| == |s| + 1
  {
    if s == [] || x <= s[0] {
    } else {
      InsertAdds(x, s[1..]);
      assert s == [s[0]] + s[1..];
    }
  }

  lemma {:induction false} SortSorts(s: seq<int>)
    ensures Sorted(Sort(s)) && multiset(Sort(s)) == multiset(s) && |Sort(s)| == |s|
  {
    if s == [] {
    } else {
      SortSorts(s[1..]);
      InsertSorted(s[0], Sort(s[1..]));
      InsertAdds(s[0], Sort(s[1..]));
      assert s == [s[0]] + s[1..];
    }
  }

  /** Go's integer division by a positive number: towards zero. */
  function Quotient(a: int, b: int): int
    requires b > 0
  {
    if a >= 0 then a / b else -((-a) / b)
  }

  /** The quotient is the whole number next to the exact one, on the side of zero. */
  lemma QuotientMeaning(a: int, b: int)
    requires b > 0
    ensures a >= 0 ==> b * Quotient(a, b) <= a < b * Quotient(a, b) + b
    ensures a <= 0 ==> b * Quotient(a, b) - b < a <= b * Quotient(a, b)
  {
    var q := (if a >= 0 then a else -a) / b;
    assert (if a >= 0 then a else -a) == b * q + (if a >= 0 then a else -a) % b;
    assert b * -q == -(b * q);
  }

  function Rank(n: int, p: int): int
    requires n > 0 && 0 <= p <= 100
  {
    (n - 1) * p / 100
  }

  lemma RankInRange(n: int, p: int)
    requires n > 0 && 0 <= p <= 100
    ensures 0 <= Rank(n, p) < n
  {
    assert 0 <= (n - 1) * p <= (n - 1) * 100;
  }

  lemma LessFactor(d: int, x: int, z: int)
    requires d > 0 && d * x < d * z
    ensures x < z
  {
    assert d * (z - x) > 0;
  }

  lemma DivMonotone(a: int, b: int, d: int)
    requires 0 <= a <= b && d > 0
    ensures 0 <= a / d <= b / d
  {
    var x, y := a / d, b / d;
    assert a == d * x + a % d && b == d * y + b % d;
    assert d * (y + 1) == d * y + d;
    LessFactor(d, x, y + 1);
    LessFactor(d, -1, x);
  }

  lemma RankMonotone(n: int, p: int, q: int)
    requires n > 0 && 0 <= p <= q <= 100
    ensures Rank(n, p) <= Rank(n, q)
  {
    assert 0 <= (n - 1) * p <= (n - 1) * q;
    DivMonotone((n - 1) * p, (n - 1) * q, 100);
  }

  function Percentile(s: seq<int>, p: int): int
    requires 0 <= p <= 100
  {
    if s == [] then 0
    else
      SortSorts(s);
      RankInRange(|s|, p);
      Sort(s)[Rank(|s|, p)]
  }

  // ---- Rank ----

  function CountAtMost(s: seq<int>, v: int): nat {
    if s == [] then 0 else (if s[0] <= v then 1 else 0) + CountAtMost(s[1..], v)
  }

  function CountAtLeast(s: seq<int>, v: int): nat {
    if s == [] then 0 else (if s[0] >= v then 1 else 0) + CountAtLeast(s[1..], v)
  }

  lemma {:induction false} InsertCounts(x: int, s: seq<int>, v: int)
    ensures CountAtMost(Insert(x, s), v) == CountAtMost(s, v) + (if x <= v then 1 else 0)
    ensures CountAtLeast(Insert(x, s), v) == CountAtLeast(s, v) + (if x >= v then 1 else 0)
  {
    if s == [] || x <= s[0] {
    } else {
      InsertCounts(x, s[1..], v);
    }
  }

  /** Sorting changes no count. */
  lemma {:induction false} SortCounts(s: seq<int>, v: int)
    ensures CountAtMost(Sort(s), v) == CountAtMost(s, v)
    ensures CountAtLeast(Sort(s), v) == CountAtLeast(s, v)
  {
    if s == [] {
    } else {
      SortCounts(s[1..], v);
      InsertCounts(s[0], Sort(s[1..]), v);
    }
  }

  lemma {:induction false} CountPrefix(s: seq<int>, n: nat, v: int)
    requires n <= |s| && forall i :: 0 <= i < n ==> s[i] <= v
    ensures CountAtMost(s, v) >= n
  {
    if n == 0 {
    } else {
      CountPrefix(s[1..], n - 1, v);
    }
  }

  lemma {:induction false} CountSuffix(s: seq<int>, k: nat, v: int)
    requires k <= |s| && forall i :: k <= i < |s| ==> s[i] >= v
    ensures CountAtLeast(s, v) >= |s| - k
  {
    if s == [] {
    } else {
      CountSuffix(s[1..], if k == 0 then 0 else k - 1, v);
    }
  }

  /** In a sorted sequence at least k + 1 elements are at most the k-th, and the rest at least it. */
  lemma SortedRank(t: seq<int>, k: nat)
    requires Sorted(t) && k < |t|
    ensures CountAtMost(t, t[k]) >= k + 1
    ensures CountAtLeast(t, t[k]) >= |t| - k
  {
    CountPrefix(t, k + 1, t[k]);
    CountSuffix(t, k, t[k]);
  }

  /** At least rank + 1 samples are at most the percentile, and at least n - rank are at least it. */
  lemma PercentileRank(s: seq<int>, p: int)
    requires s != [] && 0 <= p <= 100
    ensures Percentile(s, p) in s
    ensures CountAtMost(s, Percentile(s, p)) >= (|s| - 1) * p / 100 + 1
    ensures CountAtLeast(s, Percentile(s, p)) >= |s| - (|s| - 1) * p / 100
  {
    hide CountAtMost, CountAtLeast, Sort;
    var k := Rank(|s|, p);
    RankInRange(|s|, p);
    SortSorts(s);
    SortedRank(Sort(s), k);
    SortCounts(s, Sort(s)[k]);
    assert Sort(s)[k] in multiset(s);
  }

  lemma SameHead(a: seq<int>, b: seq<int>)
    requires Sorted(a) && Sorted(b) && multiset(a) == multiset(b) && a != [] && b != []
    ensures a[0] == b[0]
  {
    assert a[0] in multiset(b) && b[0] in multiset(a);
    var i :| 0 <= i < |b| && b[i] == a[0];
    var j :| 0 <= j < |a| && a[j] == b[0];
  }

  lemma {:induction false} SortedUnique(a: seq<int>, b: seq<int>)
    requires Sorted(a) && Sorted(b) && multiset(a) == multiset(b)
    ensures a == b
    decreases |a|
  {
    assert |multiset(a)| == |multiset(b)|;
    if a == [] {
    } else {
      SameHead(a, b);
      assert a == [a[0]] + a[1..] && b == [b[0]] + b[1..];
      assert multiset(a[1..]) == multiset(a) - multiset{a[0]};
      assert multiset(b[1..]) == multiset(b) - multiset{b[0]};
      SortedUnique(a[1..], b[1..]);
    }
  }

  /** The percentile does not depend on the order in which samples were recorded. */
  lemma PercentileOfMultiset(s: seq<int>, t: seq<int>, p: int)
    requires multiset(s) == multiset(t) && 0 <= p <= 100
    ensures Percentile(s, p) == Percentile(t, p)
  {
    SortSorts(s);
    SortSorts(t);
    SortedUnique(Sort(s), Sort(t));
    assert |multiset(s)| == |multiset(t)|;
  }

  lemma QuotientMonotone(a: int, b: int, d: int)
    requires a <= b && d > 0
    ensures Quotient(a, d) <= Quotient(b, d)
  {
    if 0 <= a {
      DivMonotone(a, b, d);
    } else if b < 0 {
      DivMonotone(-b, -a, d);
    } else {
      DivMonotone(0, -a, d);
      DivMonotone(0, b, d);
    }
  }

  /** Higher percentiles are not smaller, also after the truncation to milliseconds. */
  lemma PercentilesOrdered(s: seq<int>, p: int, q: int)
    requires 0 <= p <= q <= 100
    ensures Percentile(s, p) <= Percentile(s, q)
    ensures Quotient(Percentile(s, p), 1_000_000) <= Quotient(Percentile(s, q), 1_000_000)
  {
    if s != [] {
      SortSorts(s);
      RankInRange(|s|, p);
      RankInRange(|s|, q);
      RankMonotone(|s|, p, q);
    }
    QuotientMonotone(Percentile(s, p), Percentile(s, q), 1_000_000);
  }

  // ---- Average ----

  function Sum(s: seq<int>): int {
    if s == [] then 0 else Sum(s[..|s| - 1]) + s[|s| - 1]
  }

  function Average(s: seq<int>): int {
    if s == [] then 0 else Quotient(Sum(s), |s|)
  }

  /** The sum takes every sample in exactly once. */
  lemma {:induction false} SumMeaning(a: seq<int>, b: seq<int>, x: int)
    ensures Sum([]) == 0 && Sum([x]) == x && Sum(a + b) == Sum(a) + Sum(b)
    decreases |b|
  {
    assert [x][..0] == [];
    if b == [] {
      assert a + b == a;
    } else {
      var n := |b| - 1;
      SumMeaning(a, b[..n], x);
      assert (a + b)[..|a| + n] == a + b[..n];
    }
  }

  /** The average times the number of samples is their sum, but for less than one unit a sample towards zero. */
  lemma AverageMeaning(s: seq<int>)
    ensures Average([]) == 0
    ensures s != [] && Sum(s) >= 0 ==> |s| * Average(s) <= Sum(s) < |s| * Average(s) + |s|
    ensures s != [] && Sum(s) <= 0 ==> |s| * Average(s) - |s| < Sum(s) <= |s| * Average(s)
  {
    if s != [] {
      QuotientMeaning(Sum(s), |s|);
    }
  }

  lemma {:induction false} SumBounds(s: seq<int>, lo: int, hi: int)
    requires forall i :: 0 <= i < |s| ==> lo <= s[i] <= hi
    ensures lo * |s| <= Sum(s) <= hi * |s|
  {
    if s == [] {
    } else {
      SumBounds(s[..|s| - 1], lo, hi);
    }
  }

  lemma DivExact(a: int, d: int)
    requires a >= 0 && d > 0
    ensures a * d / d == a
  {
    var x, r := a * d / d, a * d % d;
    assert a * d == d * x + r;
    assert d * (a - x) == r && d * 1 == d && d * -1 == -d;
    LessFactor(d, a - x, 1);
    LessFactor(d, -1, a - x);
  }

  lemma QuotientExact(a: int, d: int)
    requires d > 0
    ensures Quotient(a * d, d) == a
  {
    if a >= 0 {
      DivExact(a, d);
      assert a * d >= 0;
    } else {
      DivExact(-a, d);
      assert -(a * d) == (-a) * d > 0;
    }
  }

  /** The truncated average lies between the smallest and the largest sample. */
  lemma AverageBounds(s: seq<int>, lo: int, hi: int)
    requires s != [] && forall i :: 0 <= i < |s| ==> lo <= s[i] <= hi
    ensures lo <= Average(s) <= hi
  {
    SumBounds(s, lo, hi);
    QuotientMonotone(lo * |s|, Sum(s), |s|);
    QuotientMonotone(Sum(s), hi * |s|, |s|);
    QuotientExact(lo, |s|);
    QuotientExact(hi, |s|);
  }
}
