/** Datatypes and small collection facts shared by every module. */
module Common {

  datatype Option<+T> = None | Some(value: T)

  datatype Result<+T, +E> = Ok(value: T) | Err(error: E)

  ghost predicate Distinct<T>(s: seq<T>) {
    forall i, j :: 0 <= i < j < |s| ==> s[i] != s[j]
  }

  ghost function Elems<T>(s: seq<T>): set<T> {
    set x | x in s
  }

  function Min(a: int, b: int): int {
    if a <= b then a else b
  }

  /** The total of a charge over a sequence. */
  function SumBy<T>(s: seq<T>, charge: T -> nat): nat {
    if s == [] then 0 else charge(s[0]) + SumBy(s[1..], charge)
  }

  lemma {:induction false} SumByConcat<T>(a: seq<T>, b: seq<T>, charge: T -> nat)
    ensures SumBy(a + b, charge) == SumBy(a, charge) + SumBy(b, charge)
  {
    if a == [] {
      assert a + b == b;
    } else {
      assert (a + b)[1..] == a[1..] + b;
      SumByConcat(a[1..], b, charge);
    }
  }

  function Without<T>(s: seq<T>, i: nat): seq<T>
    requires i < |s|
  {
    s[..i] + s[i + 1..]
  }

  lemma WithoutIsDifference<T>(s: seq<T>, i: nat)
    requires i < |s|
    ensures multiset(Without(s, i)) == multiset(s) - multiset{s[i]}
  {
    assert s == s[..i] + ([s[i]] + s[i + 1..]);
  }

  lemma WithoutSum<T>(s: seq<T>, i: nat, charge: T -> nat)
    requires i < |s|
    ensures SumBy(s, charge) == charge(s[i]) + SumBy(Without(s, i), charge)
  {
    var tail := s[i..];
    assert tail[0] == s[i] && tail[1..] == s[i + 1..];
    assert s == s[..i] + tail;
    SumByConcat(s[..i], tail, charge);
    SumByConcat(s[..i], tail[1..], charge);
  }

  /** Totals do not depend on the order of the sequence. */
  lemma {:induction false} SumByPermutation<T>(a: seq<T>, b: seq<T>, charge: T -> nat)
    requires multiset(a) == multiset(b)
    ensures SumBy(a, charge) == SumBy(b, charge)
  {
    if a == [] {
      assert |multiset(b)| == 0;
    } else {
      assert a[0] in multiset(b);
      var i :| 0 <= i < |b| && b[i] == a[0];
      WithoutIsDifference(a, 0);
      WithoutIsDifference(b, i);
      WithoutSum(b, i, charge);
      assert Without(a, 0) == a[1..];
      SumByPermutation(a[1..], Without(b, i), charge);
    }
  }

  /** The total of a table of charges, independent of any enumeration order. */
  ghost function SumMap<K>(m: map<K, nat>): nat
    decreases |m|
  {
    if m == map[] then 0
    else
      var k :| k in m;
      RemoveShrinks(m, k);
      m[k] + SumMap(m - {k})
  }

  lemma RemoveShrinks<K, V>(m: map<K, V>, k: K)
    requires k in m
    ensures |m - {k}| == |m| - 1
  {
    assert (m - {k}).Keys == m.Keys - {k};
    assert |(m - {k}).Keys| == |m - {k}|;
    assert |m.Keys| == |m|;
  }

  /** Any entry may be taken out first. */
  lemma {:induction false} SumMapPick<K>(m: map<K, nat>, k: K)
    requires k in m
    ensures SumMap(m) == m[k] + SumMap(m - {k})
    decreases |m|
  {
    var c :| c in m && SumMap(m) == m[c] + SumMap(m - {c});
    if c != k {
      RemoveShrinks(m, c);
      RemoveShrinks(m, k);
      SumMapPick(m - {c}, k);
      SumMapPick(m - {k}, c);
      assert m - {c} - {k} == m - {k} - {c};
    }
  }

  /** More entries and larger entries never lower the total. */
  lemma {:induction false} SumMapMonotone<K>(m: map<K, nat>, m': map<K, nat>)
    requires m.Keys <= m'.Keys
    requires forall k :: k in m ==> m[k] <= m'[k]
    ensures SumMap(m) <= SumMap(m')
    decreases |m|
  {
    if m != map[] {
      var k :| k in m;
      RemoveShrinks(m, k);
      SumMapPick(m, k);
      SumMapPick(m', k);
      SumMapMonotone(m - {k}, m' - {k});
    }
  }

  /** Renaming the keys of a table, one to one, keeps its total. */
  lemma {:induction false} SumMapRenamed<K(!new), L>(m: map<K, nat>, n: map<L, nat>, name: K -> L)
    requires forall k :: k in m ==> name(k) in n && n[name(k)] == m[k]
    requires forall k, k' :: k in m && k' in m && name(k) == name(k') ==> k == k'
    requires forall l :: l in n ==> exists k :: k in m && name(k) == l
    ensures SumMap(m) == SumMap(n)
    decreases |m|
  {
    if m == map[] {
      assert n == map[];
    } else {
      var k :| k in m;
      RemoveShrinks(m, k);
      SumMapPick(m, k);
      SumMapPick(n, name(k));
      SumMapRenamed(m - {k}, n - {name(k)}, name);
    }
  }

  /** Two entries of a table bound its total from below. */
  lemma TwoEntries<K>(m: map<K, nat>, a: K, b: K)
    requires a in m && b in m && a != b
    ensures SumMap(m) >= m[a] + m[b]
  {
    SumMapPick(m, a);
    SumMapPick(m - {a}, b);
  }

  lemma {:induction false} PositiveEntry<K>(m: map<K, nat>) returns (k: K)
    requires SumMap(m) > 0
    ensures k in m && m[k] > 0
    decreases |m|
  {
    k :| k in m;
    if m[k] == 0 {
      RemoveShrinks(m, k);
      SumMapPick(m, k);
      k := PositiveEntry(m - {k});
    }
  }

  lemma SubsetCardinality<T>(a: set<T>, b: set<T>)
    requires a <= b
    ensures |a| <= |b|
  {
    assert b == a + (b - a);
  }

  /** A set and its image under a one-to-one renaming have the same size. */
  lemma {:induction false} RenamedSize<T(!new), U>(s: set<T>, image: set<U>, name: T -> U)
    requires forall x :: x in s ==> name(x) in image
    requires forall u :: u in image ==> exists x :: x in s && name(x) == u
    requires forall x, y :: x in s && y in s && name(x) == name(y) ==> x == y
    ensures |s| == |image|
    decreases |s|
  {
    if s == {} {
      assert image == {};
    } else {
      var x :| x in s;
      RenamedSize(s - {x}, image - {name(x)}, name);
    }
  }

  lemma NonEmptyHasMember<T>(s: seq<T>)
    ensures s != [] ==> exists e :: e in s
  {
    if s != [] { assert s[0] in s; }
  }
}
