/** Orders and sorting: Python compares `str` values code point by code point, and its sort is stable. */
module Ordering {

  ghost predicate StrictTotalOrder<K(!new)>(less: (K, K) -> bool) {
    && (forall a :: !less(a, a))
    && (forall a, b :: a != b ==> less(a, b) || less(b, a))
    && (forall a, b, c :: less(a, b) && less(b, c) ==> less(a, c))
  }

  // ---------------------------------------------------------------- strings

  predicate Less(a: string, b: string) {
    if b == [] then false
    else if a == [] then true
    else if a[0] != b[0] then a[0] < b[0]
    else Less(a[1..], b[1..])
  }

  lemma {:induction false} LessTotal(a: string, b: string)
    ensures Less(a, b) || Less(b, a) || a == b
  {
    if a != [] && b != [] && a[0] == b[0] {
      LessTotal(a[1..], b[1..]);
      assert a == [a[0]] + a[1..] && b == [b[0]] + b[1..];
    }
  }

  lemma {:induction false} LessIrreflexive(a: string)
    ensures !Less(a, a)
  {
    if a != [] {
      LessIrreflexive(a[1..]);
    }
  }

  lemma {:induction false} LessTransitive(a: string, b: string, c: string)
    requires Less(a, b) && Less(b, c)
    ensures Less(a, c)
  {
    if a != [] && b != [] && c != [] && a[0] == b[0] == c[0] {
      LessTransitive(a[1..], b[1..], c[1..]);
    }
  }

  /** At `i` the strings part: `a` ends there, or has the smaller character. */
  predicate PartsAt(a: string, b: string, i: nat) {
    i <= |a| && i < |b| && a[..i] == b[..i] && (i == |a| || a[i] < b[i])
  }

  /** One string comes before another when it is a proper prefix of it, or has the smaller character where they first
      differ. */
  lemma {:induction false} LessIffParts(a: string, b: string)
    ensures Less(a, b) <==> exists i :: 0 <= i < |b| && PartsAt(a, b, i)
    decreases |a|
  {
    if b != [] {
      if a == [] {
        assert PartsAt(a, b, 0);
      } else if a[0] != b[0] {
        assert a[0] < b[0] ==> PartsAt(a, b, 0);
        forall i | 0 <= i < |b| && PartsAt(a, b, i) ensures a[0] < b[0] {
          if i > 0 { assert a[..i][0] == b[..i][0]; }
        }
      } else {
        LessIffParts(a[1..], b[1..]);
        forall i | 0 <= i < |b| - 1 ensures PartsAt(a[1..], b[1..], i) <==> PartsAt(a, b, i + 1) {
          PartsLater(a, b, i);
        }
        if i :| 0 <= i < |b| && PartsAt(a, b, i) {
          assert i > 0;
          assert PartsAt(a[1..], b[1..], i - 1) <==> PartsAt(a, b, i - 1 + 1);
        }
      }
    }
  }

  lemma PartsLater(a: string, b: string, i: nat)
    requires a != [] && b != [] && a[0] == b[0]
    ensures PartsAt(a[1..], b[1..], i) <==> PartsAt(a, b, i + 1)
  {
    if i + 1 <= |a| && i + 1 < |b| {
      assert a[..i + 1] == [a[0]] + a[1..][..i] && b[..i + 1] == [b[0]] + b[1..][..i];
      assert a[1..][..i] == a[..i + 1][1..] && b[1..][..i] == b[..i + 1][1..];
    }
  }

  lemma LessIsStrictTotalOrder()
    ensures StrictTotalOrder(Less)
  {
    forall a: string { LessIrreflexive(a); }
    forall a: string, b: string | a != b ensures Less(a, b) || Less(b, a) { LessTotal(a, b); }
    forall a: string, b: string, c: string | Less(a, b) && Less(b, c) ensures Less(a, c) { LessTransitive(a, b, c); }
  }

  /** The order of Python tuples `(x, y)` of strings. */
  predicate PairLess(a: (string, string), b: (string, string)) {
    Less(a.0, b.0) || (a.0 == b.0 && Less(a.1, b.1))
  }

  lemma PairLessIsStrictTotalOrder()
    ensures StrictTotalOrder(PairLess)
  {
    LessIsStrictTotalOrder();
    forall a: (string, string), b: (string, string) | a != b ensures PairLess(a, b) || PairLess(b, a) {
      LessTotal(a.0, b.0);
      LessTotal(a.1, b.1);
    }
  }

  // ---------------------------------------------------------------- stable sort

  ghost predicate SortedBy<T, K>(key: T -> K, less: (K, K) -> bool, s: seq<T>) {
    forall i, j :: 0 <= i < j < |s| ==> !less(key(s[j]), key(s[i]))
  }

  function Insert<T, K>(key: T -> K, less: (K, K) -> bool, x: T, s: seq<T>): seq<T> {
    if s == [] || !less(key(s[0]), key(x)) then [x] + s
    else [s[0]] + Insert(key, less, x, s[1..])
  }

  /** Python's `sorted(s, key=key)`. */
  function Sort<T, K>(key: T -> K, less: (K, K) -> bool, s: seq<T>): seq<T> {
    if s == [] then [] else Insert(key, less, s[0], Sort(key, less, s[1..]))
  }

  /** The elements of `s` that have key `k`, in their order in `s`. */
  function WithKey<T(!new), K(==)>(key: T -> K, k: K, s: seq<T>): (r: seq<T>)
    ensures forall x :: x in r <==> x in s && key(x) == k
  {
    if s == [] then []
    else if key(s[0]) == k then [s[0]] + WithKey(key, k, s[1..])
    else WithKey(key, k, s[1..])
  }

  lemma {:induction false} InsertPermutes<T, K>(key: T -> K, less: (K, K) -> bool, x: T, s: seq<T>)
    ensures multiset(Insert(key, less, x, s)) == multiset{x} + multiset(s)
  {
    if s == [] || !less(key(s[0]), key(x)) {
    } else {
      InsertPermutes(key, less, x, s[1..]);
      assert s == [s[0]] + s[1..];
    }
  }

  lemma SameMultiset<T>(s: seq<T>, t: seq<T>)
    requires multiset(s) == multiset(t)
    ensures |s| == |t| && forall x :: x in s <==> x in t
  {
    assert |multiset(s)| == |s| && |multiset(t)| == |t|;
    forall x ensures x in s <==> x in t {
      assert x in multiset(s) <==> x in multiset(t);
    }
  }

  lemma {:induction false} SortKeepsMultiset<T, K>(key: T -> K, less: (K, K) -> bool, s: seq<T>)
    ensures multiset(Sort(key, less, s)) == multiset(s)
  {
    if s != [] {
      SortKeepsMultiset(key, less, s[1..]);
      InsertPermutes(key, less, s[0], Sort(key, less, s[1..]));
      assert s == [s[0]] + s[1..];
    }
  }

  lemma SortPermutes<T, K>(key: T -> K, less: (K, K) -> bool, s: seq<T>)
    ensures multiset(Sort(key, less, s)) == multiset(s)
    ensures |Sort(key, less, s)| == |s|
    ensures forall x :: x in Sort(key, less, s) <==> x in s
  {
    SortKeepsMultiset(key, less, s);
    SameMultiset(Sort(key, less, s), s);
  }

  lemma {:induction false} InsertSorts<T, K(!new)>(key: T -> K, less: (K, K) -> bool, x: T, s: seq<T>)
    requires StrictTotalOrder(less) && SortedBy(key, less, s)
    ensures SortedBy(key, less, Insert(key, less, x, s))
  {
    if s == [] || !less(key(s[0]), key(x)) {
      forall j | 0 < j < |s| ensures !less(key(s[j]), key(x)) {
        assert !less(key(s[j]), key(s[0]));
      }
    } else {
      InsertSorts(key, less, x, s[1..]);
      InsertPermutes(key, less, x, s[1..]);
      var r := Insert(key, less, x, s[1..]);
      forall j | 0 <= j < |r| ensures !less(key(r[j]), key(s[0])) {
        assert r[j] in multiset(r);
      }
    }
  }

  lemma {:induction false} SortSorts<T, K(!new)>(key: T -> K, less: (K, K) -> bool, s: seq<T>)
    requires StrictTotalOrder(less)
    ensures SortedBy(key, less, Sort(key, less, s))
  {
    if s != [] {
      SortSorts(key, less, s[1..]);
      InsertSorts(key, less, s[0], Sort(key, less, s[1..]));
    }
  }

  lemma {:induction false} InsertIsStable<T(!new), K(!new)>(key: T -> K, less: (K, K) -> bool, x: T, s: seq<T>, k: K)
    requires StrictTotalOrder(less)
    ensures WithKey(key, k, Insert(key, less, x, s)) == WithKey(key, k, [x] + s)
  {
    if s == [] || !less(key(s[0]), key(x)) {
    } else {
      InsertIsStable(key, less, x, s[1..], k);
      var r := Insert(key, less, x, s[1..]);
      assert ([s[0]] + r)[1..] == r && ([x] + s)[1..] == s && ([x] + s[1..])[1..] == s[1..];
    }
  }

  lemma {:induction false} SortIsStable<T(!new), K(!new)>(key: T -> K, less: (K, K) -> bool, s: seq<T>, k: K)
    requires StrictTotalOrder(less)
    ensures WithKey(key, k, Sort(key, less, s)) == WithKey(key, k, s)
  {
    if s != [] {
      SortIsStable(key, less, s[1..], k);
      var r := Sort(key, less, s[1..]);
      InsertIsStable(key, less, s[0], r, k);
      assert ([s[0]] + r)[1..] == r;
    }
  }

  /** A sorted list is determined by what it holds under each key, in order. */
  lemma {:induction false} SortedIsDetermined<T(!new), K(!new)>(key: T -> K, less: (K, K) -> bool, s: seq<T>, t: seq<T>)
    requires StrictTotalOrder(less) && SortedBy(key, less, s) && SortedBy(key, less, t)
    requires SameByKey(key, s, t)
    ensures s == t
  {
    assert t != [] ==> t[0] in WithKey(key, key(t[0]), t);
    if s != [] {
      assert s[0] in WithKey(key, key(s[0]), s);
      assert t[0] in WithKey(key, key(t[0]), t);
      assert !less(key(s[0]), key(t[0])) && !less(key(t[0]), key(s[0]));
      assert WithKey(key, key(s[0]), s)[0] == s[0] && WithKey(key, key(s[0]), t)[0] == t[0];
      forall k ensures WithKey(key, k, s[1..]) == WithKey(key, k, t[1..]) {
        assert WithKey(key, k, s) == WithKey(key, k, t);
        if key(s[0]) == k {
          assert WithKey(key, k, s[1..]) == WithKey(key, k, s)[1..];
          assert WithKey(key, k, t[1..]) == WithKey(key, k, t)[1..];
        }
      }
      SortedIsDetermined(key, less, s[1..], t[1..]);
    }
  }

  ghost predicate SameByKey<T(!new), K(!new)>(key: T -> K, s: seq<T>, t: seq<T>) {
    forall k :: WithKey(key, k, s) == WithKey(key, k, t)
  }

  lemma SortKeepsKeys<T(!new), K(!new)>(key: T -> K, less: (K, K) -> bool, s: seq<T>)
    requires StrictTotalOrder(less)
    ensures SameByKey(key, Sort(key, less, s), s)
  {
    forall k { SortIsStable(key, less, s, k); }
  }

  /** Two lists sort to the same list exactly when they agree key by key, order within a key included. */
  lemma SortAgreesIff<T(!new), K(!new)>(key: T -> K, less: (K, K) -> bool, s: seq<T>, t: seq<T>)
    requires StrictTotalOrder(less)
    ensures Sort(key, less, s) == Sort(key, less, t) <==> SameByKey(key, s, t)
  {
    SortKeepsKeys(key, less, s);
    SortKeepsKeys(key, less, t);
    if SameByKey(key, s, t) {
      SortSorts(key, less, s);
      SortSorts(key, less, t);
      SortedIsDetermined(key, less, Sort(key, less, s), Sort(key, less, t));
    }
  }

  lemma {:induction false} WithKeyCounts<T(!new), K>(key: T -> K, k: K, s: seq<T>, x: T)
    ensures multiset(WithKey(key, k, s))[x] == if key(x) == k then multiset(s)[x] else 0
  {
    if s != [] {
      WithKeyCounts(key, k, s[1..], x);
      assert s == [s[0]] + s[1..];
    }
  }

  /** When no two elements share a key, sorting forgets the order of its input altogether. */
  lemma SortForgetsOrder<T(!new), K(!new)>(key: T -> K, less: (K, K) -> bool, s: seq<T>, t: seq<T>)
    requires StrictTotalOrder(less)
    requires multiset(s) == multiset(t)
    requires DistinctKeys(key, s)
    ensures Sort(key, less, s) == Sort(key, less, t)
  {
    forall k { OneOfEachKey(key, k, s, t); }
    SortAgreesIff(key, less, s, t);
  }

  lemma OneOfEachKey<T(!new), K(!new)>(key: T -> K, k: K, s: seq<T>, t: seq<T>)
    requires multiset(s) == multiset(t) && DistinctKeys(key, s)
    ensures WithKey(key, k, s) == WithKey(key, k, t)
  {
    var a, b := WithKey(key, k, s), WithKey(key, k, t);
    forall x ensures multiset(a)[x] == multiset(b)[x] {
      WithKeyCounts(key, k, s, x);
      WithKeyCounts(key, k, t, x);
    }
    assert multiset(a) == multiset(b);
    AtMostOneWithKey(key, k, s);
    assert |a| == |multiset(a)| == |multiset(b)| == |b|;
    if |a| == 1 { assert a[0] in multiset(b); }
  }

  ghost predicate DistinctKeys<T, K>(key: T -> K, s: seq<T>) {
    forall i, j :: 0 <= i < j < |s| ==> key(s[i]) != key(s[j])
  }

  lemma {:induction false} AtMostOneWithKey<T(!new), K>(key: T -> K, k: K, s: seq<T>)
    requires DistinctKeys(key, s)
    ensures |WithKey(key, k, s)| <= 1
  {
    if s != [] {
      AtMostOneWithKey(key, k, s[1..]);
      var rest := WithKey(key, k, s[1..]);
      assert forall x :: x in s[1..] ==> key(x) != key(s[0]);
      assert rest != [] ==> rest[0] in rest;
    }
  }

  // ---------------------------------------------------------------- sequences without repeats

  ghost predicate NoDuplicates<T>(s: seq<T>) {
    forall i, j :: 0 <= i < j < |s| ==> s[i] != s[j]
  }

  function Elements<T>(s: seq<T>): set<T> {
    set x | x in s
  }

  lemma ElementsSnoc<T>(s: seq<T>, x: T)
    ensures Elements(s + [x]) == Elements(s) + {x}
  {
  }

  lemma ElementsOfPrefix<T>(s: seq<T>, i: nat)
    requires i < |s|
    ensures Elements(s[..i + 1]) == Elements(s[..i]) + {s[i]}
    ensures NoDuplicates(s) ==> s[i] !in Elements(s[..i])
  {
    assert s[..i + 1] == s[..i] + [s[i]];
  }

  /** A list without repeats is as long as its set of elements is large. */
  lemma {:induction false} NoDuplicatesSize<T>(s: seq<T>)
    requires NoDuplicates(s)
    ensures |Elements(s)| == |s|
  {
    if s != [] {
      NoDuplicatesSize(s[1..]);
      assert s == [s[0]] + s[1..];
      assert Elements(s) == {s[0]} + Elements(s[1..]);
    }
  }

  /** Pigeonhole: more entries than possible values, so some value comes twice. */
  lemma Pigeonhole<T>(s: seq<T>, values: set<T>)
    requires Elements(s) <= values && |s| > |values|
    ensures exists i, j :: 0 <= i < j < |s| && s[i] == s[j]
  {
    if NoDuplicates(s) {
      NoDuplicatesSize(s);
      SubsetSize(Elements(s), values);
    }
  }

  lemma {:induction false} SubsetSize<T>(a: set<T>, b: set<T>)
    requires a <= b
    ensures |a| <= |b|
  {
    assert b == a + (b - a);
  }
}
