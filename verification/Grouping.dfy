/** Insertion-ordered dictionaries of lists, as filled by the grouping loops. */
module Grouping {
  import opened Common

  /** The distinct keys, in the order in which they first occur. */
  function FirstSeen<T, K(==)>(items: seq<T>, key: T -> K): seq<K> {
    if items == [] then []
    else
      var before := FirstSeen(items[..|items| - 1], key);
      var k := key(items[|items| - 1]);
      if k in before then before else before + [k]
  }

  /** The items filed under k, in order. */
  function Bucket<T, K(==)>(items: seq<T>, key: T -> K, k: K): seq<T> {
    if items == [] then []
    else
      var last := items[|items| - 1];
      Bucket(items[..|items| - 1], key, k) + (if key(last) == k then [last] else [])
  }

  lemma {:induction false} FirstSeenFacts<T, K>(items: seq<T>, key: T -> K)
    ensures Distinct(FirstSeen(items, key))
    ensures forall x :: x in items ==> key(x) in FirstSeen(items, key)
    ensures forall k :: k in FirstSeen(items, key) ==> exists x :: x in items && key(x) == k
  {
    if items != [] {
      var init, last := items[..|items| - 1], items[|items| - 1];
      FirstSeenFacts(init, key);
      assert items == init + [last];
      forall k | k in FirstSeen(items, key) ensures exists x :: x in items && key(x) == k {
        if k in FirstSeen(init, key) {
          var x :| x in init && key(x) == k;
          assert x in items;
        } else {
          assert last in items;
        }
      }
    }
  }

  lemma {:induction false} BucketFacts<T, K>(items: seq<T>, key: T -> K, k: K)
    ensures forall x :: x in Bucket(items, key, k) <==> x in items && key(x) == k
    ensures Distinct(items) ==> Distinct(Bucket(items, key, k))
  {
    if items != [] {
      var init, last := items[..|items| - 1], items[|items| - 1];
      BucketFacts(init, key, k);
      assert items == init + [last];
      if Distinct(items) {
        assert last !in init;
      }
    }
  }

  /** Earlier keys are met earlier: one item has the first key before any has the second. */
  lemma {:induction false} FirstSeenInOrder<T, K>(items: seq<T>, key: T -> K, i: nat, j: nat) returns (at: nat)
    requires i < j < |FirstSeen(items, key)|
    ensures at < |items| && key(items[at]) == FirstSeen(items, key)[i]
    ensures forall p :: 0 <= p <= at ==> key(items[p]) != FirstSeen(items, key)[j]
  {
    var init, last := items[..|items| - 1], items[|items| - 1];
    FirstSeenFacts(init, key);
    var before := FirstSeen(init, key);
    if j < |before| {
      at := FirstSeenInOrder(init, key, i, j);
    } else {
      assert before[i] in before;
      var x :| x in init && key(x) == before[i];
      at :| 0 <= at < |init| && init[at] == x;
      forall p | 0 <= p <= at ensures key(items[p]) != key(last) {
        assert items[p] == init[p] && init[p] in init;
      }
    }
  }

  /** An item files in front of what follows it. */
  lemma {:induction false} BucketTakesInOrder<T, K>(x: T, items: seq<T>, key: T -> K, k: K)
    ensures Bucket([x] + items, key, k) == (if key(x) == k then [x] else []) + Bucket(items, key, k)
  {
    if items == [] {
      assert [x] + items == [x] && [x][..0] == [];
    } else {
      var init, last := items[..|items| - 1], items[|items| - 1];
      assert ([x] + items)[..|items|] == [x] + init;
      BucketTakesInOrder(x, init, key, k);
    }
  }

  lemma BucketStep<T, K>(items: seq<T>, i: nat, key: T -> K, k: K)
    requires i < |items|
    ensures Bucket(items[..i + 1], key, k)
      == if key(items[i]) == k then Bucket(items[..i], key, k) + [items[i]] else Bucket(items[..i], key, k)
  {
    assert items[..i + 1][..i] == items[..i];
  }

  /** The dictionary-of-lists loop. */
  method GroupBy<T, K(==)>(items: seq<T>, key: T -> K) returns (order: seq<K>, groups: map<K, seq<T>>)
    ensures order == FirstSeen(items, key)
    ensures forall k :: k in groups <==> k in order
    ensures forall k :: k in groups ==> groups[k] == Bucket(items, key, k)
  {
    order, groups := [], map[];
    for i := 0 to |items|
      invariant order == FirstSeen(items[..i], key)
      invariant forall k :: k in groups <==> k in order
      invariant forall k :: k in groups ==> groups[k] == Bucket(items[..i], key, k)
      invariant forall k :: k !in groups ==> Bucket(items[..i], key, k) == []
    {
      var item := items[i];
      var k := key(item);
      assert items[..i + 1][..i] == items[..i];
      forall k' { BucketStep(items, i, key, k'); }
      if k !in groups {
        groups := groups[k := []];
        order := order + [k];
      }
      groups := groups[k := groups[k] + [item]];
      assert groups[k] == Bucket(items[..i + 1], key, k);
    }
    assert items[..|items|] == items;
  }
}
