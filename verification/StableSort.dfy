/** The stable ascending sort behind `sort`, `sort_by` and `sort_by_key`. */
module StableSort {
  import opened Prelude

  predicate Ascending<T>(s: seq<T>, key: T -> int) {
    forall i, j :: 0 <= i < j < |s| ==> key(s[i]) <= key(s[j])
  }

  /** The elements of `s` with key `k`, in order: what a stable sort must not rearrange. */
  function WithKey<T>(s: seq<T>, key: T -> int, k: int): seq<T> {
    if s == [] then [] else (if key(s[0]) == k then [s[0]] else []) + WithKey(s[1..], key, k)
  }

  function Insert<T>(x: T, s: seq<T>, key: T -> int): seq<T> {
    if s == [] || key(x) <= key(s[0]) then [x] + s else [s[0]] + Insert(x, s[1..], key)
  }

  function SortBy<T>(s: seq<T>, key: T -> int): seq<T> {
    if s == [] then [] else Insert(s[0], SortBy(s[1..], key), key)
  }

  lemma {:induction false} InsertAdds<T>(x: T, s: seq<T>, key: T -> int)
    ensures multiset(Insert(x, s, key)) == multiset(s) + multiset{x}
  {
    if s == [] || key(x) <= key(s[0]) {
    } else {
      assert s == [s[0]] + s[1..];
      InsertAdds(x, s[1..], key);
    }
  }

  lemma {:induction false} InsertKeepsOrder<T>(x: T, s: seq<T>, key: T -> int)
    requires Ascending(s, key)
    ensures Ascending(Insert(x, s, key), key)
  {
    if s == [] || key(x) <= key(s[0]) {
    } else {
      InsertKeepsOrder(x, s[1..], key);
      var t := Insert(x, s[1..], key);
      InsertAdds(x, s[1..], key);
      forall i | 0 <= i < |t| ensures key(s[0]) <= key(t[i]) {
        assert t[i] in multiset(t);
        assert t[i] == x || t[i] in s[1..];
      }
    }
  }

  lemma WithKeyCons<T>(x: T, s: seq<T>, key: T -> int, k: int)
    ensures WithKey([x] + s, key, k) == (if key(x) == k then [x] else []) + WithKey(s, key, k)
  {
    assert ([x] + s)[1..] == s;
  }

  lemma {:induction false} InsertIsStable<T>(x: T, s: seq<T>, key: T -> int, k: int)
    ensures WithKey(Insert(x, s, key), key, k) == (if key(x) == k then [x] else []) + WithKey(s, key, k)
  {
    hide WithKey;
    WithKeyCons(x, s, key, k);
    if s != [] && key(x) > key(s[0]) {
      InsertIsStable(x, s[1..], key, k);
      WithKeyCons(s[0], Insert(x, s[1..], key), key, k);
      WithKeyCons(s[0], s[1..], key, k);
      assert s == [s[0]] + s[1..];
    }
  }

  /** The sort is a permutation in ascending key order that keeps equal keys in their order. */
  lemma {:induction false} SortedPermutation<T>(s: seq<T>, key: T -> int)
    ensures Ascending(SortBy(s, key), key)
    ensures multiset(SortBy(s, key)) == multiset(s)
    ensures |SortBy(s, key)| == |s|
    ensures forall k :: WithKey(SortBy(s, key), key, k) == WithKey(s, key, k)
  {
    hide WithKey, Insert;
    if s != [] {
      var rest := SortBy(s[1..], key);
      SortedPermutation(s[1..], key);
      InsertKeepsOrder(s[0], rest, key);
      InsertAdds(s[0], rest, key);
      assert s == [s[0]] + s[1..];
      forall k ensures WithKey(SortBy(s, key), key, k) == WithKey(s, key, k) {
        InsertIsStable(s[0], rest, key, k);
        WithKeyCons(s[0], s[1..], key, k);
      }
    }
    SameLength(SortBy(s, key), s);
  }

  lemma SameLength<T>(s: seq<T>, t: seq<T>)
    requires multiset(s) == multiset(t)
    ensures |s| == |t|
  {
    assert |multiset(s)| == |s| && |multiset(t)| == |t|;
  }

  /** How many elements of `s` lie between `lo` and `hi`. */
  function CountIn(s: seq<int>, lo: int, hi: int): (n: nat)
    ensures n <= |s|
  {
    if s == [] then 0 else (if lo <= s[0] <= hi then 1 else 0) + CountIn(s[1..], lo, hi)
  }

  lemma {:induction false} InsertCount(x: int, s: seq<int>, lo: int, hi: int)
    ensures CountIn(Insert(x, s, y => y), lo, hi) == (if lo <= x <= hi then 1 else 0) + CountIn(s, lo, hi)
  {
    if s == [] || x <= s[0] {
      assert ([x] + s)[1..] == s;
    } else {
      InsertCount(x, s[1..], lo, hi);
      assert Insert(x, s, y => y)[1..] == Insert(x, s[1..], y => y);
    }
  }

  lemma {:induction false} SortCount(s: seq<int>, lo: int, hi: int)
    ensures CountIn(SortBy(s, y => y), lo, hi) == CountIn(s, lo, hi)
  {
    if s != [] {
      SortCount(s[1..], lo, hi);
      InsertCount(s[0], SortBy(s[1..], y => y), lo, hi);
    }
  }

  lemma {:induction false} CountSplit(s: seq<int>, m: nat, lo: int, hi: int)
    requires m <= |s|
    ensures CountIn(s, lo, hi) == CountIn(s[..m], lo, hi) + CountIn(s[m..], lo, hi)
  {
    if m == 0 {
      assert s[0..] == s;
    } else {
      CountSplit(s[1..], m - 1, lo, hi);
      assert s[..m][1..] == s[1..][..m - 1] && s[m..] == s[1..][m - 1..];
    }
  }

  lemma {:induction false} CountNone(s: seq<int>, lo: int, hi: int)
    requires forall i :: 0 <= i < |s| ==> s[i] < lo || hi < s[i]
    ensures CountIn(s, lo, hi) == 0
  {
    if s != [] {
      CountNone(s[1..], lo, hi);
    }
  }

  /** The median, as the element at index n/2 of the sorted values. */
  function Median(s: seq<int>): int
    requires s != []
  {
    SortedPermutation(s, x => x);
    SortBy(s, x => x)[|s| / 2]
  }

  /** When a strict majority lies in an interval, so does the median, wherever the rest lies. */
  lemma MajorityBoundsMedian(s: seq<int>, lo: int, hi: int)
    requires 2 * CountIn(s, lo, hi) > |s|
    ensures lo <= Median(s) <= hi
  {
    hide SortBy, CountIn;
    SortedPermutation(s, x => x);
    SortCount(s, lo, hi);
    var t, m := SortBy(s, x => x), |s| / 2;
    if t[m] > hi {
      CountSplit(t, m, lo, hi);
      CountNone(t[m..], lo, hi);
    } else if t[m] < lo {
      CountSplit(t, m + 1, lo, hi);
      CountNone(t[..m + 1], lo, hi);
    }
  }

  lemma MedianIsElement(s: seq<int>)
    requires s != []
    ensures Median(s) in s
  {
    SortedPermutation(s, x => x);
    assert Median(s) in multiset(SortBy(s, x => x));
  }

  /** At most half of the values are below the median, and more than half are not above it. */
  lemma MedianSplits(s: seq<int>, lo: int, hi: int)
    requires s != [] && forall x :: x in s ==> lo <= x <= hi
    ensures 2 * CountIn(s, lo, Median(s) - 1) <= |s| < 2 * CountIn(s, lo, Median(s))
  {
    hide SortBy, CountIn;
    SortedPermutation(s, x => x);
    var t, m := SortBy(s, x => x), |s| / 2;
    forall i | 0 <= i < |t| ensures lo <= t[i] <= hi {
      assert t[i] in multiset(t) && t[i] in multiset(s) && t[i] in s;
    }
    SortCount(s, lo, Median(s) - 1);
    SortCount(s, lo, Median(s));
    CountSplit(t, m, lo, Median(s) - 1);
    CountNone(t[m..], lo, Median(s) - 1);
    CountSplit(t, m + 1, lo, Median(s));
    CountAll(t[..m + 1], lo, Median(s));
  }

  lemma {:induction false} CountAll(s: seq<int>, lo: int, hi: int)
    requires forall i :: 0 <= i < |s| ==> lo <= s[i] <= hi
    ensures CountIn(s, lo, hi) == |s|
  {
    if s != [] {
      CountAll(s[1..], lo, hi);
    }
  }

  lemma MedianOfTwo(a: int, b: int)
    ensures Median([a, b]) == Max(a, b)
  {
    assert [a, b][1..] == [b] && [b][1..] == [];
    assert SortBy([b], x => x) == [b] by { assert SortBy<int>([], x => x) == []; }
    assert SortBy([a, b], x => x) == Insert(a, [b], x => x);
    assert Insert(a, [], x => x) == [a];
    assert Insert(a, [b], x => x) == if a <= b then [a, b] else [b, a];
  }
}
