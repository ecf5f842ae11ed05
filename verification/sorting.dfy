/** Stable sorting by an integer key, the behaviour `Array.prototype.sort`
    has (stable since ECMAScript 2019) with the comparator `(a, b) => key(a) - key(b)`.
    The timeline sorts its events this way and the calendar sorts upcoming events
    the same way. */
module Sorting {
  import opened Common

  ghost predicate SortedBy<T>(xs: seq<T>, key: T -> int) {
    forall i, j :: 0 <= i < j < |xs| ==> key(xs[i]) <= key(xs[j])
  }

  /** The first position whose key exceeds `k`, or `|ys|`. */
  function InsertionPoint<T>(ys: seq<T>, key: T -> int, k: int): (i: nat)
    ensures i <= |ys|
    ensures forall j :: 0 <= j < i ==> key(ys[j]) <= k
    ensures i < |ys| ==> key(ys[i]) > k
  {
    if |ys| == 0 || key(ys[0]) > k then 0 else 1 + InsertionPoint(ys[1..], key, k)
  }

  /** Inserts `x` after every element whose key is at most `key(x)`. */
  function Place<T>(ys: seq<T>, x: T, key: T -> int): seq<T> {
    var i := InsertionPoint(ys, key, key(x));
    ys[..i] + [x] + ys[i..]
  }

  /** Insertion into a sorted list keeps it sorted, adds exactly `x`, and puts
      `x` after every element with the same key. */
  lemma PlaceKeeps<T>(ys: seq<T>, x: T, key: T -> int)
    requires SortedBy(ys, key)
    ensures SortedBy(Place(ys, x, key), key)
    ensures multiset(Place(ys, x, key)) == multiset(ys) + multiset{x}
    ensures forall k :: WithKey(Place(ys, x, key), key, k) == WithKey(ys, key, k) + (if key(x) == k then [x] else [])
  {
    InsertKeeps(ys, x, key, InsertionPoint(ys, key, key(x)));
  }

  lemma InsertKeeps<T>(ys: seq<T>, x: T, key: T -> int, i: nat)
    requires SortedBy(ys, key)
    requires i == InsertionPoint(ys, key, key(x))
    ensures SortedBy(ys[..i] + [x] + ys[i..], key)
    ensures multiset(ys[..i] + [x] + ys[i..]) == multiset(ys) + multiset{x}
    ensures forall k :: WithKey(ys[..i] + [x] + ys[i..], key, k) == WithKey(ys, key, k) + (if key(x) == k then [x] else [])
  {
    assert ys == ys[..i] + ys[i..];
    InsertionPointSplits(ys, key, key(x), i);
    InsertSorted(ys, x, key, i);
    forall k ensures WithKey(ys[..i] + [x] + ys[i..], key, k) == WithKey(ys, key, k) + (if key(x) == k then [x] else []) {
      InsertWithKey(ys, x, key, i, k);
    }
  }

  lemma InsertionPointSplits<T>(ys: seq<T>, key: T -> int, k: int, i: nat)
    requires SortedBy(ys, key)
    requires i == InsertionPoint(ys, key, k)
    ensures forall j :: i <= j < |ys| ==> key(ys[j]) > k
  {
    forall j | i <= j < |ys| ensures key(ys[j]) > k {
      assert key(ys[i]) <= key(ys[j]);
    }
  }

  lemma InsertSorted<T>(ys: seq<T>, x: T, key: T -> int, i: nat)
    requires SortedBy(ys, key)
    requires i <= |ys|
    requires forall j :: 0 <= j < i ==> key(ys[j]) <= key(x)
    requires forall j :: i <= j < |ys| ==> key(ys[j]) > key(x)
    ensures SortedBy(ys[..i] + [x] + ys[i..], key)
  {
    var r := ys[..i] + [x] + ys[i..];
    forall a, b | 0 <= a < b < |r| ensures key(r[a]) <= key(r[b]) {
      if b < i {
        assert r[a] == ys[a] && r[b] == ys[b];
      } else if b == i {
        assert r[a] == ys[a];
      } else if a == i {
        assert r[b] == ys[b - 1];
      } else if a < i {
        assert r[a] == ys[a] && r[b] == ys[b - 1];
      } else {
        assert r[a] == ys[a - 1] && r[b] == ys[b - 1];
      }
    }
  }

  lemma InsertWithKey<T>(ys: seq<T>, x: T, key: T -> int, i: nat, k: int)
    requires i <= |ys|
    requires forall j :: i <= j < |ys| ==> key(ys[j]) > key(x)
    ensures WithKey(ys[..i] + [x] + ys[i..], key, k) == WithKey(ys, key, k) + (if key(x) == k then [x] else [])
  {
    var a, b := ys[..i], ys[i..];
    assert ys == a + b;
    WithKeyAppend(a + [x], b, key, k);
    WithKeyAppend(a, [x], key, k);
    WithKeyAppend(a, b, key, k);
    var wx := WithKey([x], key, k);
    assert [x][..0] == [];
    assert wx == WithKey([], key, k) + (if key(x) == k then [x] else []);
    if key(x) == k {
      WithKeyAbsent(b, key, k);
    }
  }

  /** Insertion sort, taking the elements from the front and inserting each
      after the equal keys already placed. */
  function InsertionSort<T>(xs: seq<T>, key: T -> int): seq<T>
    decreases |xs|
  {
    if |xs| == 0 then [] else Place(InsertionSort(xs[..|xs| - 1], key), xs[|xs| - 1], key)
  }

  lemma {:induction false} InsertionSortCorrect<T>(xs: seq<T>, key: T -> int)
    ensures SortedBy(InsertionSort(xs, key), key)
    ensures multiset(InsertionSort(xs, key)) == multiset(xs)
    ensures forall k :: WithKey(InsertionSort(xs, key), key, k) == WithKey(xs, key, k)
    decreases |xs|
  {
    if |xs| > 0 {
      var init, last := xs[..|xs| - 1], xs[|xs| - 1];
      assert xs == init + [last];
      InsertionSortCorrect(init, key);
      PlaceKeeps(InsertionSort(init, key), last, key);
      forall k ensures WithKey(InsertionSort(xs, key), key, k) == WithKey(xs, key, k) {
        WithKeyAppend(init, [last], key, k);
        assert [last][..0] == [];
      }
    }
  }

  /** A stable sort of `xs` by `key`: sorted, a permutation of `xs`, and the
      elements sharing a key keep their relative order. */
  function SortBy<T>(xs: seq<T>, key: T -> int): (r: seq<T>)
    ensures SortedBy(r, key)
    ensures multiset(r) == multiset(xs)
    ensures |r| == |xs|
    ensures forall k :: WithKey(r, key, k) == WithKey(xs, key, k)
  {
    InsertionSortCorrect(xs, key);
    var r := InsertionSort(xs, key);
    assert |r| == |multiset(r)| == |multiset(xs)| == |xs|;
    r
  }

  /** Sorting an already sorted list leaves it as it is. */
  lemma SortSortedIsIdentity<T>(xs: seq<T>, key: T -> int)
    requires SortedBy(xs, key)
    ensures SortBy(xs, key) == xs
  {
    InsertionSortOfSorted(xs, key);
  }

  lemma {:induction false} InsertionSortOfSorted<T>(xs: seq<T>, key: T -> int)
    requires SortedBy(xs, key)
    ensures InsertionSort(xs, key) == xs
    decreases |xs|
  {
    if |xs| > 0 {
      var init, last := xs[..|xs| - 1], xs[|xs| - 1];
      assert xs == init + [last];
      SortedFront(init, last, key);
      InsertionSortOfSorted(init, key);
      PlaceAtEnd(init, last, key);
    }
  }

  /** The front of a sorted list is sorted and no later than its last element. */
  lemma SortedFront<T>(init: seq<T>, last: T, key: T -> int)
    requires SortedBy(init + [last], key)
    ensures SortedBy(init, key)
    ensures forall j :: 0 <= j < |init| ==> key(init[j]) <= key(last)
  {
    assert forall j :: 0 <= j < |init| ==> (init + [last])[j] == init[j];
    assert (init + [last])[|init|] == last;
  }

  /** Inserting an element whose key is at least every key appends it. */
  lemma PlaceAtEnd<T>(ys: seq<T>, x: T, key: T -> int)
    requires forall j :: 0 <= j < |ys| ==> key(ys[j]) <= key(x)
    ensures Place(ys, x, key) == ys + [x]
  {
    InsertionPointPastAll(ys, key, key(x));
    assert ys[..|ys|] == ys && ys[|ys|..] == [];
  }

  /** An element whose key is at least every key goes at the end. */
  lemma {:induction false} InsertionPointPastAll<T>(ys: seq<T>, key: T -> int, k: int)
    requires forall j :: 0 <= j < |ys| ==> key(ys[j]) <= k
    ensures InsertionPoint(ys, key, k) == |ys|
    decreases |ys|
  {
    if |ys| > 0 {
      assert forall j :: 0 <= j < |ys[1..]| ==> ys[1..][j] == ys[j + 1];
      InsertionPointPastAll(ys[1..], key, k);
    }
  }

  /** An in-order subsequence of a sorted list is sorted. */
  lemma SubsequenceOfSorted<T>(r: seq<T>, xs: seq<T>, key: T -> int)
    requires SortedBy(xs, key) && IsSubsequence(r, xs)
    ensures SortedBy(r, key)
  {
    var idx :| Embeds(r, xs, idx);
    forall i, j | 0 <= i < j < |r| ensures key(r[i]) <= key(r[j]) {
      assert xs[idx[i]] == r[i] && xs[idx[j]] == r[j];
    }
  }
}
