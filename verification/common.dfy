/** Small collection utilities shared by every component model: an Option type,
    the order-preserving filter that `Array.prototype.filter` performs, the
    `slice(0, n)` prefix, and integer column sums. */
module Common {

  /** A value that may be missing (`undefined` / `null` in the source). */
  datatype Option<T> = None | Some(value: T) {
    function GetOr(default: T): T {
      if Some? then value else default
    }
  }

  /** A JavaScript truthy string: present and not empty. */
  predicate Truthy(o: Option<string>) {
    o.Some? && o.value != ""
  }

  /** The colour family a Tailwind class string (or a chart's hex colour)
      names; the exact shades and class strings are presentation. */
  datatype Tone = Red | Orange | Yellow | Green | Blue | Purple | Gray

  /** `idx` lists, in strictly increasing order, positions of `xs` that spell out `r`. */
  ghost predicate Embeds<T>(r: seq<T>, xs: seq<T>, idx: seq<int>) {
    && |idx| == |r|
    && (forall i :: 0 <= i < |idx| ==> 0 <= idx[i] < |xs| && xs[idx[i]] == r[i])
    && (forall i, j :: 0 <= i < j < |idx| ==> idx[i] < idx[j])
  }

  /** `r` is an in-order subsequence of `xs`. */
  ghost predicate IsSubsequence<T>(r: seq<T>, xs: seq<T>) {
    exists idx :: Embeds(r, xs, idx)
  }

  lemma SubsequenceExtend<T>(r: seq<T>, xs: seq<T>, x: T, keep: bool)
    requires IsSubsequence(r, xs)
    ensures IsSubsequence(if keep then r + [x] else r, xs + [x])
  {
    var idx :| Embeds(r, xs, idx);
    if keep {
      var idx' := idx + [|xs|];
      assert Embeds(r + [x], xs + [x], idx');
    } else {
      assert Embeds(r, xs + [x], idx);
    }
  }

  /** The elements of `xs` that satisfy `p`, in their original order, built
      from the back as `Array.prototype.filter` builds it from the front. */
  function Keep<T>(xs: seq<T>, p: T -> bool): seq<T>
    decreases |xs|
  {
    if |xs| == 0 then []
    else
      var init := Keep(xs[..|xs| - 1], p);
      if p(xs[|xs| - 1]) then init + [xs[|xs| - 1]] else init
  }

  lemma {:induction false} KeepSelects<T>(xs: seq<T>, p: T -> bool)
    ensures |Keep(xs, p)| <= |xs|
    ensures forall x :: multiset(Keep(xs, p))[x] == if p(x) then multiset(xs)[x] else 0
    ensures IsSubsequence(Keep(xs, p), xs)
    decreases |xs|
  {
    if |xs| == 0 {
      assert Embeds([], xs, []);
    } else {
      var init, last := xs[..|xs| - 1], xs[|xs| - 1];
      assert xs == init + [last];
      KeepSelects(init, p);
      SubsequenceExtend(Keep(init, p), init, last, p(last));
    }
  }

  /** The elements of `xs` that satisfy `p`, in their original order. */
  function Filter<T(!new)>(xs: seq<T>, p: T -> bool): (r: seq<T>)
    ensures |r| <= |xs|
    ensures forall x :: x in r ==> x in xs && p(x)
    ensures forall x :: x in xs && p(x) ==> x in r
    ensures forall x :: multiset(r)[x] == if p(x) then multiset(xs)[x] else 0
    ensures IsSubsequence(r, xs)
  {
    KeepSelects(xs, p);
    var r := Keep(xs, p);
    assert forall x :: x in r <==> x in multiset(r);
    assert forall x :: x in xs <==> x in multiset(xs);
    r
  }

  lemma {:induction false} KeepAppend<T>(a: seq<T>, b: seq<T>, p: T -> bool)
    ensures Keep(a + b, p) == Keep(a, p) + Keep(b, p)
    decreases |b|
  {
    if |b| == 0 {
      assert a + b == a;
    } else {
      assert (a + b)[..|a + b| - 1] == a + b[..|b| - 1];
      KeepAppend(a, b[..|b| - 1], p);
    }
  }

  lemma FilterAppend<T(!new)>(a: seq<T>, b: seq<T>, p: T -> bool)
    ensures Filter(a + b, p) == Filter(a, p) + Filter(b, p)
  {
    KeepAppend(a, b, p);
  }

  /** Filtering with a predicate every element meets returns the list itself. */
  lemma {:induction false} FilterAll<T(!new)>(xs: seq<T>, p: T -> bool)
    requires forall x :: x in xs ==> p(x)
    ensures Filter(xs, p) == xs
  {
    if |xs| > 0 {
      assert xs == xs[..|xs| - 1] + [xs[|xs| - 1]];
      FilterAll(xs[..|xs| - 1], p);
    }
  }

  /** Filtering with a predicate no element meets returns the empty list. */
  lemma {:induction false} FilterNone<T(!new)>(xs: seq<T>, p: T -> bool)
    requires forall x :: x in xs ==> !p(x)
    ensures Filter(xs, p) == []
  {
    if |xs| > 0 {
      FilterNone(xs[..|xs| - 1], p);
    }
  }

  /** The elements of `xs` whose key is `k`, in their original order: one group
      of a grouping, or one run of equal keys in a sort. */
  function WithKey<T, K(==)>(xs: seq<T>, key: T -> K, k: K): (r: seq<T>)
    ensures |r| <= |xs|
  {
    if |xs| == 0 then []
    else
      var last := xs[|xs| - 1];
      assert xs == xs[..|xs| - 1] + [last];
      WithKey(xs[..|xs| - 1], key, k) + (if key(last) == k then [last] else [])
  }

  /** `WithKey` keeps exactly the elements carrying key `k`. */
  lemma {:induction false} WithKeyMembers<T, K>(xs: seq<T>, key: T -> K, k: K)
    ensures forall x :: x in WithKey(xs, key, k) <==> x in xs && key(x) == k
    decreases |xs|
  {
    if |xs| > 0 {
      var last := xs[|xs| - 1];
      assert xs == xs[..|xs| - 1] + [last];
      WithKeyMembers(xs[..|xs| - 1], key, k);
    }
  }

  lemma WithKeyAppend<T, K>(a: seq<T>, b: seq<T>, key: T -> K, k: K)
    ensures WithKey(a + b, key, k) == WithKey(a, key, k) + WithKey(b, key, k)
    decreases |b|
  {
    if |b| == 0 {
      assert a + b == a;
    } else {
      assert (a + b)[..|a + b| - 1] == a + b[..|b| - 1];
      WithKeyAppend(a, b[..|b| - 1], key, k);
    }
  }

  lemma WithKeyAbsent<T, K>(xs: seq<T>, key: T -> K, k: K)
    requires forall i :: 0 <= i < |xs| ==> key(xs[i]) != k
    ensures WithKey(xs, key, k) == []
  {
    if |xs| > 0 {
      WithKeyAbsent(xs[..|xs| - 1], key, k);
    }
  }

  /** `WithKey` keeps its elements in their original order. */
  lemma {:induction false} WithKeyIsSubsequence<T, K>(xs: seq<T>, key: T -> K, k: K)
    ensures IsSubsequence(WithKey(xs, key, k), xs)
    decreases |xs|
  {
    if |xs| == 0 {
      assert Embeds([], xs, []);
    } else {
      var init, last := xs[..|xs| - 1], xs[|xs| - 1];
      WithKeyIsSubsequence(init, key, k);
      assert init + [last] == xs;
      var r0 := WithKey(init, key, k);
      SubsequenceExtend(r0, init, last, key(last) == k);
      if key(last) == k {
        assert WithKey(xs, key, k) == r0 + [last];
      } else {
        assert WithKey(xs, key, k) == r0;
      }
    }
  }

  /** `xs.slice(0, n)`: the first `n` elements, or all of them when there are fewer. */
  function Take<T>(xs: seq<T>, n: nat): (r: seq<T>)
    ensures |r| == if |xs| < n then |xs| else n
    ensures forall i :: 0 <= i < |r| ==> r[i] == xs[i]
  {
    if |xs| <= n then xs else xs[..n]
  }

  /** `xs.reduce((sum, item) => sum + f(item), 0)`. */
  function Sum<T>(xs: seq<T>, f: T -> int): int
  {
    if |xs| == 0 then 0 else Sum(xs[..|xs| - 1], f) + f(xs[|xs| - 1])
  }

  /** A sum over a concatenation is the sum of the two sums. */
  lemma {:induction false} SumAppend<T>(a: seq<T>, b: seq<T>, f: T -> int)
    ensures Sum(a + b, f) == Sum(a, f) + Sum(b, f)
    decreases |b|
  {
    if |b| == 0 {
      assert a + b == a;
    } else {
      assert (a + b)[..|a + b| - 1] == a + b[..|b| - 1];
      SumAppend(a, b[..|b| - 1], f);
    }
  }

  /** A column of non-negative counts sums to at least each of its entries. */
  lemma {:induction false} SumBoundsEntries<T>(xs: seq<T>, f: T -> int, i: int)
    requires forall x :: x in xs ==> f(x) >= 0
    requires 0 <= i < |xs|
    ensures 0 <= f(xs[i]) <= Sum(xs, f)
    decreases |xs|
  {
    var init := xs[..|xs| - 1];
    SumNonNegative(init, f);
    if i < |xs| - 1 {
      assert xs[i] == init[i];
      SumBoundsEntries(init, f, i);
    }
  }

  lemma {:induction false} SumNonNegative<T>(xs: seq<T>, f: T -> int)
    requires forall x :: x in xs ==> f(x) >= 0
    ensures Sum(xs, f) >= 0
    decreases |xs|
  {
    if |xs| > 0 {
      SumNonNegative(xs[..|xs| - 1], f);
    }
  }

  /** A sum of entries between `lo` and `hi` lies between `n * lo` and `n * hi`. */
  lemma {:induction false} SumWithin<T>(xs: seq<T>, f: T -> int, lo: int, hi: int)
    requires forall x :: x in xs ==> lo <= f(x) <= hi
    ensures |xs| * lo <= Sum(xs, f) <= |xs| * hi
    decreases |xs|
  {
    if |xs| > 0 {
      var init, last := xs[..|xs| - 1], xs[|xs| - 1];
      assert forall x :: x in init ==> x in xs;
      SumWithin(init, f, lo, hi);
      assert last in xs;
      assert Sum(xs, f) == Sum(init, f) + f(last);
      assert |xs| * lo == |init| * lo + lo && |xs| * hi == |init| * hi + hi;
    }
  }
}
