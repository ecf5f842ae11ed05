/** Grouping a list into a record keyed by a derived string, the
    `list.reduce((groups, x) => { (groups[k] ||= []).push(x); return groups }, {})`
    idiom the timeline and the alert list use, read back with `Object.entries`.
    Object.entries lists non-numeric string keys in insertion order, so the
    groups come out in order of the first appearance of their key. */
module Grouping {
  import opened Common

  datatype Group<K, T> = Group(key: K, items: seq<T>)

  function Keys<K, T>(gs: seq<Group<K, T>>): (ks: seq<K>)
    ensures |ks| == |gs|
    ensures forall i :: 0 <= i < |gs| ==> ks[i] == gs[i].key
  {
    seq(|gs|, i requires 0 <= i < |gs| => gs[i].key)
  }

  function MapKey<T, K>(xs: seq<T>, key: T -> K): (ks: seq<K>)
    ensures |ks| == |xs|
    ensures forall i :: 0 <= i < |xs| ==> ks[i] == key(xs[i])
  {
    seq(|xs|, i requires 0 <= i < |xs| => key(xs[i]))
  }

  ghost predicate Distinct<K>(ks: seq<K>) {
    forall i, j :: 0 <= i < j < |ks| ==> ks[i] != ks[j]
  }

  /** The distinct values of `ks`, each at the place it first occurs. */
  function FirstOccurrences<K(==)>(ks: seq<K>): (r: seq<K>)
    ensures Distinct(r)
    ensures forall i :: 0 <= i < |r| ==> r[i] in ks
    ensures forall i :: 0 <= i < |ks| ==> ks[i] in r
  {
    if |ks| == 0 then []
    else
      var init := FirstOccurrences(ks[..|ks| - 1]);
      var last := ks[|ks| - 1];
      assert ks == ks[..|ks| - 1] + [last];
      if last in init then init else init + [last]
  }

  /** Position of the group with key `k`, or `|gs|` when there is none. */
  function IndexOfKey<K(==), T>(gs: seq<Group<K, T>>, k: K): (i: nat)
    ensures i <= |gs|
    ensures i < |gs| ==> gs[i].key == k
    ensures forall j :: 0 <= j < i ==> gs[j].key != k
  {
    if |gs| == 0 || gs[0].key == k then 0 else 1 + IndexOfKey(gs[1..], k)
  }

  /** One reduce step: push `x` onto its key's group, creating the group if needed. */
  function AddTo<K(==), T>(gs: seq<Group<K, T>>, x: T, key: T -> K): seq<Group<K, T>>
  {
    var i := IndexOfKey(gs, key(x));
    if i < |gs| then gs[i := Group(gs[i].key, gs[i].items + [x])]
    else gs + [Group(key(x), [x])]
  }

  /** The groups of `xs` by `key`: one group per distinct key, keys in order of
      first appearance, each group holding exactly the elements with its key in
      their original order. */
  function GroupBy<T, K(==)>(xs: seq<T>, key: T -> K): (gs: seq<Group<K, T>>)
    ensures Keys(gs) == FirstOccurrences(MapKey(xs, key))
    ensures forall i :: 0 <= i < |gs| ==> gs[i].items == WithKey(xs, key, gs[i].key)
  {
    if |xs| == 0 then []
    else
      var init := xs[..|xs| - 1];
      var x := xs[|xs| - 1];
      var gs0 := GroupBy(init, key);
      GroupByStep(init, x, key, gs0);
      assert init + [x] == xs;
      AddTo(gs0, x, key)
  }

  lemma GroupByStep<T, K>(init: seq<T>, x: T, key: T -> K, gs0: seq<Group<K, T>>)
    requires Keys(gs0) == FirstOccurrences(MapKey(init, key))
    requires forall i :: 0 <= i < |gs0| ==> gs0[i].items == WithKey(init, key, gs0[i].key)
    ensures Keys(AddTo(gs0, x, key)) == FirstOccurrences(MapKey(init + [x], key))
    ensures forall i :: 0 <= i < |AddTo(gs0, x, key)| ==>
              AddTo(gs0, x, key)[i].items == WithKey(init + [x], key, AddTo(gs0, x, key)[i].key)
  {
    StepKeys(init, x, key, gs0);
    StepItems(init, x, key, gs0);
  }

  /** A reduce step adds a key exactly when it is new. */
  lemma StepKeys<T, K>(init: seq<T>, x: T, key: T -> K, gs0: seq<Group<K, T>>)
    requires Keys(gs0) == FirstOccurrences(MapKey(init, key))
    ensures Keys(AddTo(gs0, x, key)) == FirstOccurrences(MapKey(init + [x], key))
  {
    var xs := init + [x];
    assert MapKey(xs, key)[..|xs| - 1] == MapKey(init, key);
    assert MapKey(xs, key)[|xs| - 1] == key(x);
    var i := IndexOfKey(gs0, key(x));
    if i < |gs0| {
      assert Keys(gs0)[i] == key(x);
    } else {
      assert key(x) !in Keys(gs0);
    }
  }

  /** Appending to a list appends to the run of the new element's key. */
  lemma WithKeyStep<T, K>(init: seq<T>, x: T, key: T -> K, k: K)
    ensures WithKey(init + [x], key, k) == WithKey(init, key, k) + (if key(x) == k then [x] else [])
  {
    assert (init + [x])[..|init|] == init;
  }

  /** A reduce step pushes the new element onto its key's group and nowhere else. */
  lemma StepItems<T, K>(init: seq<T>, x: T, key: T -> K, gs0: seq<Group<K, T>>)
    requires Keys(gs0) == FirstOccurrences(MapKey(init, key))
    requires forall i :: 0 <= i < |gs0| ==> gs0[i].items == WithKey(init, key, gs0[i].key)
    ensures forall i :: 0 <= i < |AddTo(gs0, x, key)| ==>
              AddTo(gs0, x, key)[i].items == WithKey(init + [x], key, AddTo(gs0, x, key)[i].key)
  {
    var gs := AddTo(gs0, x, key);
    var i := IndexOfKey(gs0, key(x));
    assert Distinct(Keys(gs0));
    forall j | 0 <= j < |gs|
      ensures gs[j].items == WithKey(init + [x], key, gs[j].key)
    {
      WithKeyStep(init, x, key, gs[j].key);
      if j < |gs0| && j != i {
        assert Keys(gs0)[j] == gs0[j].key;
        assert gs[j] == gs0[j];
      } else if i == |gs0| {
        assert key(x) !in Keys(gs0);
        forall m | 0 <= m < |init| ensures key(init[m]) != key(x) {
          assert key(init[m]) == MapKey(init, key)[m];
        }
        WithKeyAbsent(init, key, key(x));
      }
    }
  }

  /** Grouping partitions the list: every element sits in the group of its own
      key, every group is non-empty, and a group holds only elements of its key. */
  lemma GroupByPartitions<T, K>(xs: seq<T>, key: T -> K)
    ensures var gs := GroupBy(xs, key);
      && (forall x :: x in xs ==> IndexOfKey(gs, key(x)) < |gs| && x in gs[IndexOfKey(gs, key(x))].items)
      && (forall i :: 0 <= i < |gs| ==> |gs[i].items| > 0)
      && (forall i, x :: 0 <= i < |gs| && x in gs[i].items ==> x in xs && key(x) == gs[i].key)
  {
    var gs := GroupBy(xs, key);
    forall i | 0 <= i < |gs|
      ensures |gs[i].items| > 0
      ensures forall x :: x in gs[i].items ==> x in xs && key(x) == gs[i].key
    {
      GroupNonEmpty(xs, key, gs, i);
    }
    forall x | x in xs
      ensures IndexOfKey(gs, key(x)) < |gs| && x in gs[IndexOfKey(gs, key(x))].items
    {
      ElementInOwnGroup(xs, key, gs, x);
    }
  }

  lemma GroupNonEmpty<T, K>(xs: seq<T>, key: T -> K, gs: seq<Group<K, T>>, i: int)
    requires Keys(gs) == FirstOccurrences(MapKey(xs, key))
    requires forall i :: 0 <= i < |gs| ==> gs[i].items == WithKey(xs, key, gs[i].key)
    requires 0 <= i < |gs|
    ensures |gs[i].items| > 0
    ensures forall x :: x in gs[i].items ==> x in xs && key(x) == gs[i].key
  {
    var k := gs[i].key;
    WithKeyMembers(xs, key, k);
    assert Keys(gs)[i] == k;
    var ks := MapKey(xs, key);
    assert k in ks;
    var j :| 0 <= j < |xs| && ks[j] == k;
    assert xs[j] in gs[i].items;
  }

  lemma ElementInOwnGroup<T, K>(xs: seq<T>, key: T -> K, gs: seq<Group<K, T>>, x: T)
    requires Keys(gs) == FirstOccurrences(MapKey(xs, key))
    requires forall i :: 0 <= i < |gs| ==> gs[i].items == WithKey(xs, key, gs[i].key)
    requires x in xs
    ensures IndexOfKey(gs, key(x)) < |gs| && x in gs[IndexOfKey(gs, key(x))].items
  {
    var ks := MapKey(xs, key);
    var j :| 0 <= j < |xs| && xs[j] == x;
    assert ks[j] == key(x);
    assert key(x) in Keys(gs);
    var i := IndexOfKey(gs, key(x));
    WithKeyMembers(xs, key, key(x));
  }

  /** Every element sits in exactly one group, the one at its key's position,
      and keeps its relative order there. */
  lemma ExactlyOneGroup<T, K>(xs: seq<T>, key: T -> K, x: T, i: int)
    requires x in xs && 0 <= i < |GroupBy(xs, key)|
    ensures x in GroupBy(xs, key)[i].items <==> i == IndexOfKey(GroupBy(xs, key), key(x))
    ensures IsSubsequence(GroupBy(xs, key)[i].items, xs)
  {
    var gs := GroupBy(xs, key);
    GroupByPartitions(xs, key);
    WithKeyIsSubsequence(xs, key, gs[i].key);
    var j := IndexOfKey(gs, key(x));
    if x in gs[i].items {
      assert Keys(gs)[i] == key(x) == Keys(gs)[j];
    }
  }

  /** There are no groups exactly when there is nothing to group. */
  lemma GroupByEmpty<T, K>(xs: seq<T>, key: T -> K)
    ensures |GroupBy(xs, key)| == 0 <==> |xs| == 0
  {
    if |xs| > 0 {
      assert MapKey(xs, key)[0] in Keys(GroupBy(xs, key));
    }
  }
}
