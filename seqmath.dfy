/** Integer sequences: sums, occurrence counts, extremes, and the two
    orderings the log aggregation relies on — the ascending list of distinct
    group keys (what a group-by iterates over) and the sorted order
    statistics a percentile is read from. */
module SeqMath {

  function Sum(xs: seq<int>): int
  {
    if xs == [] then 0 else xs[0] + Sum(xs[1..])
  }

  /** Element-wise `column == v`: a boolean mask. */
  function Matches<T(==)>(column: seq<T>, v: T): (mask: seq<bool>)
  {
    seq(|column|, i requires 0 <= i < |column| => column[i] == v)
  }

  /** Element-wise `column != v`: a boolean mask. */
  function Differs<T(==)>(column: seq<T>, v: T): (mask: seq<bool>)
  {
    seq(|column|, i requires 0 <= i < |column| => column[i] != v)
  }

  /** Sum of a boolean mask, counting true as 1 and false as 0. */
  function Trues(mask: seq<bool>): (n: nat)
    ensures n <= |mask|
    ensures n > 0 <==> true in mask
  {
    if mask == [] then 0
    else
      assert mask == [mask[0]] + mask[1..];
      (if mask[0] then 1 else 0) + Trues(mask[1..])
  }

  lemma TruesStep(mask: seq<bool>)
    requires mask != []
    ensures Trues(mask) == (if mask[0] then 1 else 0) + Trues(mask[1..])
  {
  }

  /** Two masks that disagree everywhere count every position exactly once. */
  lemma {:induction false} ComplementaryMasks(a: seq<bool>, b: seq<bool>)
    requires |a| == |b|
    requires forall i :: 0 <= i < |a| ==> a[i] != b[i]
    ensures Trues(a) + Trues(b) == |a|
  {
    if a != [] {
      ComplementaryMasks(a[1..], b[1..]);
    }
  }

  /** Number of occurrences of `k` in `xs`. */
  function Count(xs: seq<int>, k: int): (n: nat)
    ensures n <= |xs|
    ensures n > 0 <==> k in xs
  {
    var mask := Matches(xs, k);
    assert true in mask <==> k in xs by {
      if k in xs {
        var i :| 0 <= i < |xs| && xs[i] == k;
        assert mask[i];
      }
    }
    Trues(mask)
  }

  lemma CountCons(a: int, t: seq<int>, k: int)
    ensures Count([a] + t, k) == (if a == k then 1 else 0) + Count(t, k)
  {
    assert Matches([a] + t, k)[1..] == Matches(t, k);
  }

  function Min(xs: seq<int>): (m: int)
    requires xs != []
    ensures m in xs
    ensures forall x :: x in xs ==> m <= x
  {
    if |xs| == 1 then xs[0]
    else
      assert xs == [xs[0]] + xs[1..];
      var rest := Min(xs[1..]);
      if xs[0] <= rest then xs[0] else rest
  }

  function Max(xs: seq<int>): (m: int)
    requires xs != []
    ensures m in xs
    ensures forall x :: x in xs ==> x <= m
  {
    if |xs| == 1 then xs[0]
    else
      assert xs == [xs[0]] + xs[1..];
      var rest := Max(xs[1..]);
      if rest <= xs[0] then xs[0] else rest
  }

  lemma {:induction false} SumAtLeast(xs: seq<int>, lo: int)
    requires forall x :: x in xs ==> lo <= x
    ensures |xs| * lo <= Sum(xs)
  {
    if xs != [] {
      assert xs[0] in xs;
      assert forall x :: x in xs[1..] ==> x in xs;
      SumAtLeast(xs[1..], lo);
    }
  }

  lemma {:induction false} SumAtMost(xs: seq<int>, hi: int)
    requires forall x :: x in xs ==> x <= hi
    ensures Sum(xs) <= |xs| * hi
  {
    if xs != [] {
      assert xs[0] in xs;
      assert forall x :: x in xs[1..] ==> x in xs;
      SumAtMost(xs[1..], hi);
    }
  }

  /** Arithmetic mean, as `Series.mean()` computes it, in exact reals. */
  function Mean(xs: seq<int>): (m: real)
    requires xs != []
    ensures Min(xs) as real <= m <= Max(xs) as real
  {
    SumAtLeast(xs, Min(xs));
    SumAtMost(xs, Max(xs));
    DivideBounds(Sum(xs), |xs|, Min(xs), Max(xs));
    Sum(xs) as real / |xs| as real
  }

  lemma DivideBounds(s: int, n: int, lo: int, hi: int)
    requires 0 < n && n * lo <= s <= n * hi
    ensures lo as real <= s as real / n as real <= hi as real
  {
    var q := s as real / n as real;
    assert q * n as real == s as real;
    assert (n * lo) as real == n as real * lo as real;
    assert (n * hi) as real == n as real * hi as real;
  }

  /** Strictly increasing: sorted and without repetitions. */
  predicate Increasing(s: seq<int>)
  {
    forall i, j :: 0 <= i < j < |s| ==> s[i] < s[j]
  }

  /** In a strictly increasing sequence the order of two values is the order of their positions. */
  lemma IncreasingPositions(s: seq<int>, i: int, j: int)
    requires Increasing(s) && 0 <= i < |s| && 0 <= j < |s|
    ensures s[i] == s[j] ==> i == j
    ensures s[i] < s[j] ==> i < j
  {
  }

  /** Adds `x` to a strictly increasing sequence, keeping it so. */
  function Insert(x: int, s: seq<int>): (r: seq<int>)
    requires Increasing(s)
    ensures Increasing(r)
    ensures forall k :: k in r <==> k == x || k in s
  {
    if s == [] then [x]
    else if x < s[0] then [x] + s
    else if x == s[0] then s
    else
      var t := Insert(x, s[1..]);
      assert forall k :: k in s[1..] ==> s[0] < k;
      assert forall k :: k in s <==> k == s[0] || k in s[1..] by {
        assert s == [s[0]] + s[1..];
      }
      assert forall i :: 0 <= i < |t| ==> s[0] < t[i] by {
        forall i | 0 <= i < |t| ensures s[0] < t[i] { assert t[i] in t; }
      }
      [s[0]] + t
  }

  /** The distinct values of `xs` in ascending order: the keys a group-by
      with the default `sort=True` produces. */
  function Distinct(xs: seq<int>): (r: seq<int>)
    ensures Increasing(r)
    ensures forall k :: k in r <==> k in xs
  {
    if xs == [] then []
    else
      assert xs == [xs[0]] + xs[1..];
      Insert(xs[0], Distinct(xs[1..]))
  }

  /** A sequence repeating one value has that value as its only key. */
  lemma {:induction false} DistinctConstant(xs: seq<int>, d: int)
    requires xs != []
    requires forall i :: 0 <= i < |xs| ==> xs[i] == d
    ensures Distinct(xs) == [d]
  {
    if |xs| > 1 {
      DistinctConstant(xs[1..], d);
    }
  }

  /** Total of the occurrence counts of every key in `ks`. */
  function CountAll(xs: seq<int>, ks: seq<int>): nat
  {
    if ks == [] then 0 else Count(xs, ks[0]) + CountAll(xs, ks[1..])
  }

  lemma {:induction false} CountAllEmpty(ks: seq<int>)
    ensures CountAll([], ks) == 0
  {
    if ks != [] { CountAllEmpty(ks[1..]); }
  }

  lemma {:induction false} CountAllCons(a: int, t: seq<int>, ks: seq<int>)
    ensures CountAll([a] + t, ks) == Count(ks, a) + CountAll(t, ks)
  {
    if ks != [] {
      CountCons(a, t, ks[0]);
      assert ks == [ks[0]] + ks[1..];
      CountCons(ks[0], ks[1..], a);
      CountAllCons(a, t, ks[1..]);
    }
  }

  lemma {:induction false} CountInIncreasing(ks: seq<int>, a: int)
    requires Increasing(ks) && a in ks
    ensures Count(ks, a) == 1
  {
    assert ks == [ks[0]] + ks[1..];
    CountCons(ks[0], ks[1..], a);
    if ks[0] == a {
      assert a !in ks[1..] by {
        forall i | 0 < i < |ks| ensures ks[i] != a { }
      }
    } else {
      CountInIncreasing(ks[1..], a);
    }
  }

  /** Counting every value of `xs` once per distinct key accounts for each
      element exactly once: the group sizes add up to the whole. */
  lemma {:induction false} CountAllCovers(xs: seq<int>, ks: seq<int>)
    requires Increasing(ks)
    requires forall x :: x in xs ==> x in ks
    ensures CountAll(xs, ks) == |xs|
  {
    if xs == [] {
      CountAllEmpty(ks);
    } else {
      assert xs == [xs[0]] + xs[1..];
      CountAllCons(xs[0], xs[1..], ks);
      CountInIncreasing(ks, xs[0]);
      CountAllCovers(xs[1..], ks);
    }
  }

  /** Non-decreasing. */
  predicate Sorted(s: seq<int>)
  {
    forall i, j :: 0 <= i <= j < |s| ==> s[i] <= s[j]
  }

  function InsertSorted(x: int, s: seq<int>): (r: seq<int>)
    requires Sorted(s)
    ensures Sorted(r)
    ensures multiset(r) == multiset(s) + multiset{x}
  {
    if s == [] then [x]
    else if x <= s[0] then [x] + s
    else
      var t := InsertSorted(x, s[1..]);
      assert s == [s[0]] + s[1..];
      HeadBelow(s, x, t);
      ConsSorted(s[0], t);
      [s[0]] + t
  }

  lemma HeadBelow(s: seq<int>, x: int, t: seq<int>)
    requires Sorted(s) && s != [] && s[0] < x
    requires multiset(t) == multiset(s[1..]) + multiset{x}
    ensures forall i :: 0 <= i < |t| ==> s[0] <= t[i]
  {
    forall i | 0 <= i < |t| ensures s[0] <= t[i] {
      assert t[i] in multiset(t);
      if t[i] != x {
        assert t[i] in s[1..];
      }
    }
  }

  lemma ConsSorted(a: int, t: seq<int>)
    requires Sorted(t)
    requires forall i :: 0 <= i < |t| ==> a <= t[i]
    ensures Sorted([a] + t)
  {
  }

  /** The values of `xs` in ascending order (the order statistics). */
  function Sort(xs: seq<int>): (r: seq<int>)
    ensures Sorted(r)
    ensures multiset(r) == multiset(xs)
  {
    if xs == [] then []
    else
      assert xs == [xs[0]] + xs[1..];
      InsertSorted(xs[0], Sort(xs[1..]))
  }

  /** A multiset has exactly one ascending arrangement. */
  lemma {:induction false} SortedUnique(a: seq<int>, b: seq<int>)
    requires Sorted(a) && Sorted(b)
    requires multiset(a) == multiset(b)
    ensures a == b
  {
    assert |a| == |multiset(a)| == |b|;
    if a != [] {
      SortedSameHead(a, b);
      SortedUnique(a[1..], b[1..]);
      assert a == [a[0]] + a[1..];
      assert b == [b[0]] + b[1..];
    }
  }

  /** Two sorted arrangements of one non-empty multiset start with the same
      value, and what follows is again two sorted arrangements of one multiset. */
  lemma SortedSameHead(a: seq<int>, b: seq<int>)
    requires Sorted(a) && Sorted(b) && a != []
    requires multiset(a) == multiset(b)
    ensures b != [] && a[0] == b[0]
    ensures Sorted(a[1..]) && Sorted(b[1..])
    ensures multiset(a[1..]) == multiset(b[1..])
  {
    SortedHeadBelow(b, a[0]);
    SortedHeadBelow(a, b[0]);
    MultisetTail(a);
    MultisetTail(b);
    SortedTail(a);
    SortedTail(b);
  }

  lemma SortedHeadBelow(s: seq<int>, x: int)
    requires Sorted(s) && x in multiset(s)
    ensures s != [] && s[0] <= x
  {
    assert x in s;
  }

  lemma SortedTail(s: seq<int>)
    requires Sorted(s) && s != []
    ensures Sorted(s[1..])
  {
    forall i, j | 0 <= i <= j < |s| - 1 ensures s[1..][i] <= s[1..][j] {
      assert s[1..][i] == s[i + 1] && s[1..][j] == s[j + 1];
    }
  }

  lemma MultisetTail(s: seq<int>)
    requires s != []
    ensures multiset(s[1..]) == multiset(s) - multiset{s[0]}
  {
    assert s == [s[0]] + s[1..];
  }
}
