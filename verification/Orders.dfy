/** Total orders, stable sorting and the uniqueness of sorted arrangements. */
module Orders {
  import opened Common

  ghost predicate Preorder<T(!new)>(le: (T, T) -> bool) {
    && (forall x, y :: le(x, y) || le(y, x))
    && (forall x, y, z :: le(x, y) && le(y, z) ==> le(x, z))
  }

  ghost predicate TotalOrder<T(!new)>(le: (T, T) -> bool) {
    && Preorder(le)
    && (forall x, y :: le(x, y) && le(y, x) ==> x == y)
  }

  /** No two different members of s are ranked equal. */
  ghost predicate Separates<T>(le: (T, T) -> bool, s: seq<T>) {
    forall x, y :: x in s && y in s && le(x, y) && le(y, x) ==> x == y
  }

  ghost predicate Sorted<T>(s: seq<T>, le: (T, T) -> bool) {
    forall i, j :: 0 <= i < j < |s| ==> le(s[i], s[j])
  }

  function Insert<T>(x: T, s: seq<T>, le: (T, T) -> bool): seq<T> {
    if s == [] then [x]
    else if le(x, s[0]) then [x] + s
    else [s[0]] + Insert(x, s[1..], le)
  }

  /** A stable sort: equal-ranked elements keep their order. */
  function Sort<T>(s: seq<T>, le: (T, T) -> bool): seq<T> {
    if s == [] then [] else Insert(s[0], Sort(s[1..], le), le)
  }

  lemma {:induction false} InsertIsPermutation<T>(x: T, s: seq<T>, le: (T, T) -> bool)
    ensures multiset(Insert(x, s, le)) == multiset{x} + multiset(s)
  {
    if s != [] && !le(x, s[0]) {
      InsertIsPermutation(x, s[1..], le);
      assert s == [s[0]] + s[1..];
    }
  }

  lemma {:induction false} SortIsPermutation<T>(s: seq<T>, le: (T, T) -> bool)
    ensures multiset(Sort(s, le)) == multiset(s)
    ensures |Sort(s, le)| == |s|
    ensures forall x :: x in Sort(s, le) <==> x in s
  {
    if s != [] {
      SortIsPermutation(s[1..], le);
      InsertIsPermutation(s[0], Sort(s[1..], le), le);
      assert s == [s[0]] + s[1..];
    }
    assert |multiset(Sort(s, le))| == |multiset(s)|;
    forall x ensures x in Sort(s, le) <==> x in s {
      assert x in Sort(s, le) <==> x in multiset(Sort(s, le));
      assert x in s <==> x in multiset(s);
    }
  }

  lemma {:induction false} InsertIsSorted<T(!new)>(x: T, s: seq<T>, le: (T, T) -> bool)
    requires Preorder(le) && Sorted(s, le)
    ensures Sorted(Insert(x, s, le), le)
  {
    if s != [] && !le(x, s[0]) {
      var rest := Insert(x, s[1..], le);
      InsertIsSorted(x, s[1..], le);
      InsertIsPermutation(x, s[1..], le);
      forall y | y in rest ensures le(s[0], y) {
        assert y in multiset(rest);
      }
    }
  }

  lemma {:induction false} SortIsSorted<T(!new)>(s: seq<T>, le: (T, T) -> bool)
    requires Preorder(le)
    ensures Sorted(Sort(s, le), le)
  {
    if s != [] {
      SortIsSorted(s[1..], le);
      InsertIsSorted(s[0], Sort(s[1..], le), le);
    }
  }

  lemma SameSmallest<T>(a: seq<T>, b: seq<T>, le: (T, T) -> bool)
    requires Sorted(a, le) && Sorted(b, le) && Separates(le, a)
    requires a != [] && multiset(a) == multiset(b)
    ensures b != [] && a[0] == b[0]
  {
    assert a[0] in multiset(b);
    var i :| 0 <= i < |b| && b[i] == a[0];
    assert b[0] in multiset(a);
    var j :| 0 <= j < |a| && a[j] == b[0];
    if i != 0 && j != 0 {
      assert le(b[0], b[i]) && le(a[0], a[j]);
    }
  }

  /** A collection has only one sorted arrangement. */
  lemma {:induction false} SortedIsUnique<T>(a: seq<T>, b: seq<T>, le: (T, T) -> bool)
    requires Sorted(a, le) && Sorted(b, le) && Separates(le, a)
    requires multiset(a) == multiset(b)
    ensures a == b
  {
    if a == [] {
      assert |multiset(b)| == 0;
    } else {
      SameSmallest(a, b, le);
      TailFacts(a, le);
      TailFacts(b, le);
      assert Separates(le, a[1..]) by {
        assert forall y :: y in a[1..] ==> y in a;
      }
      SortedIsUnique(a[1..], b[1..], le);
      assert a == [a[0]] + a[1..] && b == [b[0]] + b[1..];
    }
  }

  lemma TailFacts<T>(s: seq<T>, le: (T, T) -> bool)
    requires s != [] && Sorted(s, le)
    ensures Sorted(s[1..], le)
    ensures multiset(s[1..]) == multiset(s) - multiset{s[0]}
  {
    assert s == [s[0]] + s[1..];
  }

  /** Sorting forgets the order of its input. */
  lemma SortForgetsOrder<T(!new)>(a: seq<T>, b: seq<T>, le: (T, T) -> bool)
    requires Preorder(le) && Separates(le, a)
    requires multiset(a) == multiset(b)
    ensures Sort(a, le) == Sort(b, le)
  {
    SortIsPermutation(a, le);
    SortIsPermutation(b, le);
    SortIsSorted(a, le);
    SortIsSorted(b, le);
    SortedIsUnique(Sort(a, le), Sort(b, le), le);
  }

  lemma {:induction false} SortedStays<T>(s: seq<T>, le: (T, T) -> bool)
    requires Sorted(s, le)
    requires Separates(le, s) || forall x, y :: x in s && y in s ==> le(x, y) || le(y, x)
    requires forall x :: x in s ==> le(x, x)
    ensures Sort(s, le) == s
  {
    if s != [] {
      forall x | x in s[1..] ensures x in s {}
      SortedStays(s[1..], le);
      assert s == [s[0]] + s[1..];
    }
  }

  /** Same distinct members, same multiset. */
  lemma {:induction false} DistinctSameElems<T>(a: seq<T>, b: seq<T>)
    requires Distinct(a) && Distinct(b)
    requires forall x :: x in a <==> x in b
    ensures multiset(a) == multiset(b)
  {
    DistinctCounts(a);
    DistinctCounts(b);
    forall x ensures multiset(a)[x] == multiset(b)[x] {}
  }

  lemma {:induction false} DistinctCounts<T>(s: seq<T>)
    requires Distinct(s)
    ensures forall x :: multiset(s)[x] == if x in s then 1 else 0
  {
    if s != [] {
      DistinctCounts(s[1..]);
      assert s == [s[0]] + s[1..];
      assert s[0] !in s[1..];
    }
  }

  lemma {:induction false} CountsDistinct<T>(s: seq<T>)
    requires forall x :: x in multiset(s) ==> multiset(s)[x] == 1
    ensures Distinct(s)
  {
    if s != [] {
      assert s == [s[0]] + s[1..];
      forall x | x in multiset(s[1..]) ensures multiset(s[1..])[x] == 1 {
        assert x in multiset(s);
      }
      CountsDistinct(s[1..]);
      assert s[0] in multiset(s);
      assert s[0] !in multiset(s[1..]);
      assert s[0] !in s[1..];
    }
  }

  lemma PermutationKeepsDistinct<T>(a: seq<T>, b: seq<T>)
    requires Distinct(a) && multiset(a) == multiset(b)
    ensures Distinct(b)
  {
    DistinctCounts(a);
    forall x | x in multiset(b) ensures multiset(b)[x] == 1 {
      assert x in multiset(a);
    }
    CountsDistinct(b);
  }

  lemma SortKeepsDistinct<T>(s: seq<T>, le: (T, T) -> bool)
    requires Distinct(s)
    ensures Distinct(Sort(s, le))
  {
    SortIsPermutation(s, le);
    PermutationKeepsDistinct(s, Sort(s, le));
  }

  /** A duplicate-free sequence has as many entries as its set has members. */
  lemma {:induction false} DistinctLength<T>(s: seq<T>)
    requires Distinct(s)
    ensures |Elems(s)| == |s|
  {
    if s != [] {
      DistinctLength(s[1..]);
      assert s[0] !in s[1..];
      assert Elems(s) == {s[0]} + Elems(s[1..]);
    }
  }

  lemma {:induction false} ElemsAtMost<T>(s: seq<T>)
    ensures |Elems(s)| <= |s|
  {
    if s != [] {
      ElemsAtMost(s[1..]);
      assert Elems(s) == {s[0]} + Elems(s[1..]);
    }
  }

  /** Counting the set tells whether a sequence repeats itself. */
  lemma DistinctIffCounted<T>(s: seq<T>)
    ensures |Elems(s)| == |s| <==> Distinct(s)
  {
    if Distinct(s) {
      DistinctLength(s);
    } else {
      var i, j :| 0 <= i < j < |s| && s[i] == s[j];
      assert Elems(s) == Elems(s[..j] + s[j + 1..]);
      ElemsAtMost(s[..j] + s[j + 1..]);
    }
  }

  // ----- listing a set

  ghost function Arrange<T(!new)>(s: set<T>): (r: seq<T>)
    ensures Distinct(r) && |r| == |s|
    ensures forall x :: x in r <==> x in s
  {
    if s == {} then []
    else
      var x :| x in s;
      [x] + Arrange(s - {x})
  }

  /** The members of a set in order. */
  ghost function Listing<T(!new)>(s: set<T>, le: (T, T) -> bool): seq<T> {
    Sort(Arrange(s), le)
  }

  lemma ListingFacts<T(!new)>(s: set<T>, le: (T, T) -> bool)
    requires Preorder(le)
    ensures Distinct(Listing(s, le)) && Sorted(Listing(s, le), le)
    ensures |Listing(s, le)| == |s|
    ensures forall x :: x in Listing(s, le) <==> x in s
  {
    SortIsPermutation(Arrange(s), le);
    SortIsSorted(Arrange(s), le);
    SortKeepsDistinct(Arrange(s), le);
  }

  /** Sorting any duplicate-free enumeration of a set gives its listing. */
  lemma SortIsListing<T(!new)>(a: seq<T>, s: set<T>, le: (T, T) -> bool)
    requires Preorder(le) && Separates(le, a)
    requires Distinct(a) && forall x :: x in a <==> x in s
    ensures Sort(a, le) == Listing(s, le)
  {
    DistinctSameElems(a, Arrange(s));
    SortForgetsOrder(a, Arrange(s), le);
  }

  // ----- lexicographic orders

  predicate LexLe<T(==)>(a: seq<T>, b: seq<T>, le: (T, T) -> bool) {
    a == [] || (b != [] && (if a[0] == b[0] then LexLe(a[1..], b[1..], le) else le(a[0], b[0])))
  }

  lemma {:induction false} LexTotal<T(!new)>(a: seq<T>, b: seq<T>, le: (T, T) -> bool)
    requires TotalOrder(le)
    ensures LexLe(a, b, le) || LexLe(b, a, le)
    ensures LexLe(a, b, le) && LexLe(b, a, le) ==> a == b
  {
    if a != [] && b != [] && a[0] == b[0] {
      LexTotal(a[1..], b[1..], le);
      assert a == [a[0]] + a[1..] && b == [b[0]] + b[1..];
    }
  }

  lemma {:induction false} LexTransitive<T(!new)>(a: seq<T>, b: seq<T>, c: seq<T>, le: (T, T) -> bool)
    requires TotalOrder(le)
    requires LexLe(a, b, le) && LexLe(b, c, le)
    ensures LexLe(a, c, le)
  {
    if a != [] {
      assert le(a[0], b[0]) && le(b[0], c[0]) && le(a[0], c[0]);
      if a[0] == c[0] {
        LexTransitive(a[1..], b[1..], c[1..], le);
      }
    }
  }

  predicate CharLe(a: char, b: char) { a <= b }

  /** Text order: by code point, shorter prefix first. */
  predicate StrLe(a: string, b: string) { LexLe(a, b, CharLe) }

  /** Order of text tuples, first difference decides. */
  predicate KeyLe(a: seq<string>, b: seq<string>) { LexLe(a, b, StrLe) }

  /** Text order: a prefix comes first, else the first differing character decides. */
  lemma {:induction false} StrLeMeans(a: string, b: string)
    ensures StrLe(a, b) <==>
      a <= b || exists k :: 0 <= k < |a| && k < |b| && a[..k] == b[..k] && a[k] < b[k]
  {
    if a != [] && b != [] {
      if a[0] == b[0] {
        StrLeMeans(a[1..], b[1..]);
        assert a == [a[0]] + a[1..] && b == [b[0]] + b[1..];
        if k :| 0 <= k < |a[1..]| && k < |b[1..]| && a[1..][..k] == b[1..][..k] && a[1..][k] < b[1..][k] {
          assert a[..k + 1] == [a[0]] + a[1..][..k] && b[..k + 1] == [b[0]] + b[1..][..k];
        }
        if k :| 0 <= k < |a| && k < |b| && a[..k] == b[..k] && a[k] < b[k] {
          assert k > 0;
          assert a[1..][..k - 1] == a[..k][1..] && b[1..][..k - 1] == b[..k][1..];
          assert a[1..][k - 1] < b[1..][k - 1];
        }
        assert a <= b <==> a[1..] <= b[1..];
      } else {
        if a[0] < b[0] { assert a[..0] == b[..0] && a[0] < b[0]; }
        forall k | 0 < k < |a| && k < |b| ensures a[..k] != b[..k] {
          assert a[..k][0] == a[0] && b[..k][0] == b[0];
        }
      }
    }
  }

  lemma StrLeIsTotal()
    ensures TotalOrder(StrLe)
  {
    assert TotalOrder(CharLe);
    forall a: string, b: string ensures StrLe(a, b) || StrLe(b, a) { LexTotal(a, b, CharLe); }
    forall a: string, b: string | StrLe(a, b) && StrLe(b, a) ensures a == b { LexTotal(a, b, CharLe); }
    forall a: string, b: string, c: string | StrLe(a, b) && StrLe(b, c) ensures StrLe(a, c) {
      LexTransitive(a, b, c, CharLe);
    }
  }

  lemma KeyLeIsTotal()
    ensures TotalOrder(KeyLe)
  {
    StrLeIsTotal();
    forall a: seq<string>, b: seq<string> ensures KeyLe(a, b) || KeyLe(b, a) { LexTotal(a, b, StrLe); }
    forall a: seq<string>, b: seq<string> | KeyLe(a, b) && KeyLe(b, a) ensures a == b { LexTotal(a, b, StrLe); }
    forall a: seq<string>, b: seq<string>, c: seq<string> | KeyLe(a, b) && KeyLe(b, c) ensures KeyLe(a, c) {
      LexTransitive(a, b, c, StrLe);
    }
  }

  /** Sorting the members of a set of texts, in whatever order they are enumerated. */
  method SortedListing(ids: set<string>) returns (order: seq<string>)
    ensures order == Listing(ids, StrLe) && |order| == |ids|
    ensures Distinct(order) && forall id :: id in order <==> id in ids
  {
    var left, listed: seq<string> := ids, [];
    while left != {}
      invariant Distinct(listed) && Elems(listed) + left == ids && Elems(listed) !! left
      decreases |left|
    {
      var id :| id in left;
      left, listed := left - {id}, listed + [id];
    }
    order := Sort(listed, StrLe);
    StrLeIsTotal();
    SortIsListing(listed, ids, StrLe);
    ListingFacts(ids, StrLe);
  }
}
