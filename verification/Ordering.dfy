/** ORDER BY: the multi-key comparator and stable sorting. */
module Ordering {
  import opened Values

  type Keys = seq<Value>

  /** Compares key by key; a descending key flips the sign. */
  function CompareKeys(a: Keys, b: Keys, desc: seq<bool>): int
    requires |a| == |b| == |desc|
    decreases |a|
  {
    if a == [] then 0
    else
      var c := Compare(a[0], b[0]);
      if c != 0 then (if desc[0] then -c else c) else CompareKeys(a[1..], b[1..], desc[1..])
  }

  /** The `less` function handed to the sort. */
  predicate Less(a: Keys, b: Keys, desc: seq<bool>)
    requires |a| == |b| == |desc|
  {
    CompareKeys(a, b, desc) < 0
  }

  predicate NaNFree(a: Keys) { forall i :: 0 <= i < |a| ==> !IsNaN(a[i]) }

  lemma {:induction false} CompareKeysAntisymmetric(a: Keys, b: Keys, desc: seq<bool>)
    requires |a| == |b| == |desc|
    ensures CompareKeys(a, b, desc) == -CompareKeys(b, a, desc)
    decreases |a|
  {
    if a != [] {
      CompareAntisymmetric(a[0], b[0]);
      CompareKeysAntisymmetric(a[1..], b[1..], desc[1..]);
    }
  }

  lemma {:induction false} CompareKeysTransitive(a: Keys, b: Keys, c: Keys, desc: seq<bool>)
    requires |a| == |b| == |c| == |desc| && NaNFree(a) && NaNFree(b) && NaNFree(c)
    ensures CompareKeys(a, b, desc) <= 0 && CompareKeys(b, c, desc) <= 0 ==> CompareKeys(a, c, desc) <= 0
    ensures CompareKeys(a, b, desc) == 0 && CompareKeys(b, c, desc) == 0 ==> CompareKeys(a, c, desc) == 0
    ensures CompareKeys(a, b, desc) < 0 && CompareKeys(b, c, desc) <= 0 ==> CompareKeys(a, c, desc) < 0
    ensures CompareKeys(a, b, desc) <= 0 && CompareKeys(b, c, desc) < 0 ==> CompareKeys(a, c, desc) < 0
    decreases |a|
  {
    if a != [] {
      HeadTransitive(a[0], b[0], c[0]);
      CompareKeysTransitive(a[1..], b[1..], c[1..], desc[1..]);
    }
  }

  /** The sign of Compare composes along three NaN-free values. */
  lemma HeadTransitive(a: Value, b: Value, c: Value)
    requires !IsNaN(a) && !IsNaN(b) && !IsNaN(c)
    ensures Compare(a, b) <= 0 && Compare(b, c) <= 0 ==> Compare(a, c) <= 0
    ensures Compare(a, b) >= 0 && Compare(b, c) >= 0 ==> Compare(a, c) >= 0
    ensures Compare(a, b) < 0 && Compare(b, c) <= 0 ==> Compare(a, c) < 0
    ensures Compare(a, b) <= 0 && Compare(b, c) < 0 ==> Compare(a, c) < 0
    ensures Compare(a, b) > 0 && Compare(b, c) >= 0 ==> Compare(a, c) > 0
    ensures Compare(a, b) >= 0 && Compare(b, c) > 0 ==> Compare(a, c) > 0
  {
    CompareAntisymmetric(a, b);
    CompareAntisymmetric(b, c);
    CompareAntisymmetric(a, c);
    CompareTransitive(a, b, c);
    CompareTransitive(c, b, a);
    CompareTransitive(b, c, a);
    CompareTransitive(c, a, b);
    CompareTransitive(a, c, b);
    CompareTransitive(b, a, c);
  }

  // --- stable sorting ------------------------------------------------------------------------------

  /** Item i comes before item j: smaller key, or equal keys and earlier in the input. */
  predicate Before(keys: seq<Keys>, desc: seq<bool>, i: nat, j: nat)
    requires i < |keys| && j < |keys| && Uniform(keys, desc)
  {
    var c := CompareKeys(keys[i], keys[j], desc);
    c < 0 || (c == 0 && i < j)
  }

  /** Every item has one value per sort key. */
  predicate SameLength(keys: seq<Keys>, desc: seq<bool>) {
    forall i :: 0 <= i < |keys| ==> |keys[i]| == |desc|
  }

  /** ... and none of them is NaN. */
  predicate Uniform(keys: seq<Keys>, desc: seq<bool>) {
    SameLength(keys, desc) && forall i :: 0 <= i < |keys| ==> NaNFree(keys[i])
  }

  lemma BeforeIsStrictOrder(keys: seq<Keys>, desc: seq<bool>, i: nat, j: nat, k: nat)
    requires Uniform(keys, desc) && i < |keys| && j < |keys| && k < |keys|
    ensures !Before(keys, desc, i, i)
    ensures i != j ==> (Before(keys, desc, i, j) <==> !Before(keys, desc, j, i))
    ensures Before(keys, desc, i, j) && Before(keys, desc, j, k) ==> Before(keys, desc, i, k)
  {
    CompareKeysAntisymmetric(keys[i], keys[i], desc);
    CompareKeysAntisymmetric(keys[i], keys[j], desc);
    CompareKeysTransitive(keys[i], keys[j], keys[k], desc);
  }

  /** An ordering of the first n items as a stable sort must deliver it. */
  predicate StablySorted(keys: seq<Keys>, desc: seq<bool>, n: nat, order: seq<nat>)
    requires Uniform(keys, desc) && n <= |keys|
  {
    && (forall k :: 0 <= k < |order| ==> order[k] < n)
    && (forall i: nat :: i < n ==> i in order)
    && (forall a, b :: 0 <= a < b < |order| ==> Before(keys, desc, order[a], order[b]))
  }

  predicate Below(order: seq<nat>, n: nat) { forall k :: 0 <= k < |order| ==> order[k] < n }

  function InsertIndex(keys: seq<Keys>, desc: seq<bool>, order: seq<nat>, x: nat): seq<nat>
    requires SameLength(keys, desc) && x < |keys| && Below(order, |keys|)
  {
    if order == [] then [x]
    else
      var last := order[|order| - 1];
      if Less(keys[x], keys[last], desc)
      then InsertIndex(keys, desc, order[..|order| - 1], x) + [last]
      else order + [x]
  }

  predicate Ascending(keys: seq<Keys>, desc: seq<bool>, order: seq<nat>)
    requires Uniform(keys, desc) && Below(order, |keys|)
  {
    forall a, b :: 0 <= a < b < |order| ==> Before(keys, desc, order[a], order[b])
  }

  lemma {:induction false} InsertMembers(keys: seq<Keys>, desc: seq<bool>, order: seq<nat>, x: nat)
    requires SameLength(keys, desc) && x < |keys| && Below(order, x)
    ensures forall i :: i in InsertIndex(keys, desc, order, x) <==> i in order || i == x
    ensures Below(InsertIndex(keys, desc, order, x), x + 1)
    decreases |order|
  {
    if order != [] {
      var init, last := order[..|order| - 1], order[|order| - 1];
      assert order == init + [last];
      InsertMembers(keys, desc, init, x);
    }
  }

  lemma AppendAscending(keys: seq<Keys>, desc: seq<bool>, order: seq<nat>, x: nat)
    requires Uniform(keys, desc) && Below(order, |keys|) && x < |keys| && Ascending(keys, desc, order)
    requires forall k :: 0 <= k < |order| ==> Before(keys, desc, order[k], x)
    ensures Ascending(keys, desc, order + [x])
  {
  }

  lemma {:induction false} InsertAscending(keys: seq<Keys>, desc: seq<bool>, order: seq<nat>, x: nat)
    requires Uniform(keys, desc) && x < |keys| && Below(order, x) && Ascending(keys, desc, order)
    ensures Below(InsertIndex(keys, desc, order, x), |keys|)
    ensures Ascending(keys, desc, InsertIndex(keys, desc, order, x))
    decreases |order|
  {
    InsertMembers(keys, desc, order, x);
    if order != [] {
      var n := |order| - 1;
      var init, last := order[..n], order[n];
      CompareKeysAntisymmetric(keys[x], keys[last], desc);
      if Less(keys[x], keys[last], desc) {
        InsertAscending(keys, desc, init, x);
        InsertMembers(keys, desc, init, x);
        var r := InsertIndex(keys, desc, init, x);
        forall k | 0 <= k < |r| ensures Before(keys, desc, r[k], last) {
          assert r[k] in r;
          if r[k] != x {
            var i :| 0 <= i < n && order[i] == r[k];
          }
        }
        AppendAscending(keys, desc, r, last);
      } else {
        forall k | 0 <= k < |order| ensures Before(keys, desc, order[k], x) {
          BeforeIsStrictOrder(keys, desc, order[k], last, x);
        }
        AppendAscending(keys, desc, order, x);
      }
    }
  }

  /** The order a stable sort gives: items are inserted one by one behind their equals. */
  function StableOrder(keys: seq<Keys>, desc: seq<bool>, n: nat): (order: seq<nat>)
    requires SameLength(keys, desc) && n <= |keys|
    ensures Below(order, n)
    ensures forall i: nat :: i < n ==> i in order
  {
    if n == 0 then []
    else
      var before := StableOrder(keys, desc, n - 1);
      InsertMembers(keys, desc, before, n - 1);
      InsertIndex(keys, desc, before, n - 1)
  }

  lemma {:induction false} StableOrderIsSorted(keys: seq<Keys>, desc: seq<bool>, n: nat)
    requires Uniform(keys, desc) && n <= |keys|
    ensures StablySorted(keys, desc, n, StableOrder(keys, desc, n))
    decreases n
  {
    if n > 0 {
      StableOrderIsSorted(keys, desc, n - 1);
      InsertAscending(keys, desc, StableOrder(keys, desc, n - 1), n - 1);
    }
  }

  /** There is only one stable order, so any correct stable sort computes this one. */
  lemma {:induction false} StableOrderIsUnique(keys: seq<Keys>, desc: seq<bool>, a: seq<nat>, b: seq<nat>)
    requires Uniform(keys, desc)
    requires forall k :: 0 <= k < |a| ==> a[k] < |keys|
    requires forall k :: 0 <= k < |b| ==> b[k] < |keys|
    requires forall i, j :: 0 <= i < j < |a| ==> Before(keys, desc, a[i], a[j])
    requires forall i, j :: 0 <= i < j < |b| ==> Before(keys, desc, b[i], b[j])
    requires forall i :: i in a <==> i in b
    ensures a == b
    decreases |a|
  {
    if a == [] {
      assert forall k :: 0 <= k < |b| ==> b[k] in a;
    } else {
      assert a[0] in a && a[0] in b;
      assert b[0] in b && b[0] in a;
      var i :| 0 <= i < |b| && b[i] == a[0];
      var j :| 0 <= j < |a| && a[j] == b[0];
      BeforeIsStrictOrder(keys, desc, a[0], b[0], a[0]);
      assert a[0] == b[0];
      TailMembers(keys, desc, a);
      TailMembers(keys, desc, b);
      StableOrderIsUnique(keys, desc, a[1..], b[1..]);
      assert a == [a[0]] + a[1..] && b == [b[0]] + b[1..];
    }
  }

  lemma TailMembers(keys: seq<Keys>, desc: seq<bool>, a: seq<nat>)
    requires Uniform(keys, desc) && a != []
    requires forall k :: 0 <= k < |a| ==> a[k] < |keys|
    requires forall i, j :: 0 <= i < j < |a| ==> Before(keys, desc, a[i], a[j])
    ensures forall i :: i in a[1..] <==> i in a && i != a[0]
  {
    assert a == [a[0]] + a[1..];
    BeforeIsStrictOrder(keys, desc, a[0], a[0], a[0]);
    forall k | 0 <= k < |a[1..]| ensures a[1..][k] != a[0] { assert Before(keys, desc, a[0], a[k + 1]); }
  }

  // --- the order in terms of Compare alone ---------------------------------------------------------

  /** The first key at which the two items do not compare equal. */
  predicate FirstDifference(a: Keys, b: Keys, k: nat) {
    && k < |a| && k < |b| && Compare(a[k], b[k]) != 0
    && forall i :: 0 <= i < k ==> Compare(a[i], b[i]) == 0
  }

  /** An ascending key puts the smaller value first, a descending one the larger; items that agree in
      every key keep their places. */
  ghost predicate RanksBefore(keys: seq<Keys>, desc: seq<bool>, i: nat, j: nat)
    requires i < |keys| && j < |keys| && SameLength(keys, desc)
  {
    && (forall k: nat :: FirstDifference(keys[i], keys[j], k) ==>
          if desc[k] then Compare(keys[i][k], keys[j][k]) > 0 else Compare(keys[i][k], keys[j][k]) < 0)
    && ((forall k: nat :: !FirstDifference(keys[i], keys[j], k)) ==> i < j)
  }

  lemma {:induction false} DecidingKey(a: Keys, b: Keys, desc: seq<bool>, k: nat)
    requires |a| == |b| == |desc| && FirstDifference(a, b, k)
    ensures CompareKeys(a, b, desc) == if desc[k] then -Compare(a[k], b[k]) else Compare(a[k], b[k])
    decreases k
  {
    if k > 0 {
      assert Compare(a[0], b[0]) == 0;
      DecidingKey(a[1..], b[1..], desc[1..], k - 1);
    }
  }

  lemma {:induction false} SomeKeyDecides(a: Keys, b: Keys, desc: seq<bool>)
    requires |a| == |b| == |desc|
    ensures CompareKeys(a, b, desc) != 0 ==> exists k: nat :: FirstDifference(a, b, k)
    decreases |a|
  {
    if a != [] {
      if Compare(a[0], b[0]) != 0 {
        assert FirstDifference(a, b, 0);
      } else if CompareKeys(a, b, desc) != 0 {
        SomeKeyDecides(a[1..], b[1..], desc[1..]);
        var k: nat :| FirstDifference(a[1..], b[1..], k);
        assert forall i :: 0 < i < k + 1 ==> a[i] == a[1..][i - 1] && b[i] == b[1..][i - 1];
        assert FirstDifference(a, b, k + 1);
      }
    }
  }

  /** Before is exactly that order, so the sort delivers it. */
  lemma BeforeIsRank(keys: seq<Keys>, desc: seq<bool>, i: nat, j: nat)
    requires i < |keys| && j < |keys| && Uniform(keys, desc)
    ensures Before(keys, desc, i, j) <==> RanksBefore(keys, desc, i, j)
  {
    SomeKeyDecides(keys[i], keys[j], desc);
    if k: nat :| FirstDifference(keys[i], keys[j], k) {
      DecidingKey(keys[i], keys[j], desc, k);
      forall k': nat | FirstDifference(keys[i], keys[j], k') ensures k' == k { }
    }
  }

  /** A permutation of the items that ranks them. NaN has no place in the order: with one among the keys
      only the permutation is promised. */
  ghost predicate RankedBy(order: seq<nat>, keys: seq<Keys>, desc: seq<bool>)
    requires SameLength(keys, desc)
  {
    && |order| == |keys| && Below(order, |keys|) && (forall i: nat :: i < |keys| ==> i in order)
    && (Uniform(keys, desc) ==> forall x, y :: 0 <= x < y < |order| ==> RanksBefore(keys, desc, order[x], order[y]))
  }

  lemma StableOrderRanks(keys: seq<Keys>, desc: seq<bool>)
    requires SameLength(keys, desc)
    ensures RankedBy(StableOrder(keys, desc, |keys|), keys, desc)
  {
    var order := StableOrder(keys, desc, |keys|);
    StableOrderLength(keys, desc, |keys|);
    if Uniform(keys, desc) {
      StableOrderIsSorted(keys, desc, |keys|);
      forall x, y | 0 <= x < y < |order| ensures RanksBefore(keys, desc, order[x], order[y]) {
        BeforeIsRank(keys, desc, order[x], order[y]);
      }
    }
  }

  /** LIMIT keeps a prefix. */
  function Limited<T>(xs: seq<T>, limit: Option<nat>): seq<T> {
    if limit.Some? && limit.value < |xs| then xs[..limit.value] else xs
  }

  /** ORDER BY ... LIMIT: the items in stable order, cut to a prefix. */
  function Sorted<T>(xs: seq<T>, keys: seq<Keys>, desc: seq<bool>): (r: seq<T>)
    requires |xs| == |keys| && SameLength(keys, desc)
  {
    var order := StableOrder(keys, desc, |keys|);
    seq(|order|, i requires 0 <= i < |order| => xs[order[i]])
  }

  lemma {:induction false} StableOrderLength(keys: seq<Keys>, desc: seq<bool>, n: nat)
    requires SameLength(keys, desc) && n <= |keys|
    ensures |StableOrder(keys, desc, n)| == n
    decreases n
  {
    if n > 0 {
      StableOrderLength(keys, desc, n - 1);
      InsertLength(keys, desc, StableOrder(keys, desc, n - 1), n - 1);
    }
  }

  lemma {:induction false} InsertLength(keys: seq<Keys>, desc: seq<bool>, order: seq<nat>, x: nat)
    requires SameLength(keys, desc) && x < |keys| && Below(order, |keys|)
    ensures |InsertIndex(keys, desc, order, x)| == |order| + 1
    decreases |order|
  {
    if order != [] { InsertLength(keys, desc, order[..|order| - 1], x); }
  }

  /** Whatever stable sort is used, ORDER BY with LIMIT returns this prefix of this permutation: item
      k of the result is the input item of stable rank k. */
  lemma OrderByLimit<T>(xs: seq<T>, keys: seq<Keys>, desc: seq<bool>, limit: Option<nat>, order: seq<nat>)
    requires |xs| == |keys| && Uniform(keys, desc) && RankedBy(order, keys, desc)
    ensures
      var r := Limited(Sorted(xs, keys, desc), limit);
      && |order| == |xs|
      && |r| == (if limit.Some? && limit.value < |xs| then limit.value else |xs|)
      && forall k :: 0 <= k < |r| ==> order[k] < |xs| && r[k] == xs[order[k]]
  {
    var mine := StableOrder(keys, desc, |keys|);
    StableOrderIsSorted(keys, desc, |keys|);
    StableOrderLength(keys, desc, |keys|);
    forall x, y | 0 <= x < y < |order| ensures Before(keys, desc, order[x], order[y]) {
      BeforeIsRank(keys, desc, order[x], order[y]);
    }
    assert forall k :: 0 <= k < |mine| ==> mine[k] in mine && mine[k] in order;
    assert forall k :: 0 <= k < |order| ==> order[k] in order && order[k] in mine;
    StableOrderIsUnique(keys, desc, mine, order);
  }
}
