/**
 * Python's stable `sorted(xs, key=..., reverse=...)`, as an insertion sort that places each
 * element before the first later-sorted element it does not follow, and Python's `<` on `str`.
 */
module Sorting {

  /** Python's `<` on `str`: code-point lexicographic order, a proper prefix first */
  predicate Less(a: string, b: string)
    decreases |a|
  {
    b != [] && (a == [] || (if a[0] == b[0] then Less(a[1..], b[1..]) else a[0] < b[0]))
  }

  /** `a > b` on integers: the order of `reverse=True` on a numeric key */
  predicate Greater(a: int, b: int) { a > b }

  /** `lt` is a strict weak order: what a sort key comparison must be for sorting to be defined */
  ghost predicate StrictWeakOrder<K(!new)>(lt: (K, K) -> bool) {
    && (forall a :: !lt(a, a))
    && (forall a, b, c :: lt(a, b) && lt(b, c) ==> lt(a, c))
    && (forall a, b, c :: lt(a, c) ==> lt(a, b) || lt(b, c))
  }

  /** Sorted by `key` under `lt`: no element is strictly before an earlier one */
  ghost predicate SortedBy<T, K>(s: seq<T>, key: T -> K, lt: (K, K) -> bool) {
    forall i, j :: 0 <= i < j < |s| ==> !lt(key(s[j]), key(s[i]))
  }

  /** `x` placed after the leading elements strictly before it and before all others */
  function Insert<T, K>(x: T, s: seq<T>, key: T -> K, lt: (K, K) -> bool): seq<T> {
    if s == [] then [x]
    else if lt(key(s[0]), key(x)) then [s[0]] + Insert(x, s[1..], key, lt)
    else [x] + s
  }

  /** The stable sort: an element never moves after a later element with an equal key */
  function SortBy<T, K>(s: seq<T>, key: T -> K, lt: (K, K) -> bool): seq<T> {
    if s == [] then [] else Insert(s[0], SortBy(s[1..], key, lt), key, lt)
  }

  lemma {:induction false} InsertPermutes<T, K>(x: T, s: seq<T>, key: T -> K, lt: (K, K) -> bool)
    ensures multiset(Insert(x, s, key, lt)) == multiset(s) + multiset{x}
    decreases |s|
  {
    if s != [] && lt(key(s[0]), key(x)) {
      InsertPermutes(x, s[1..], key, lt);
      assert s == [s[0]] + s[1..];
    }
  }

  lemma Asymmetric<K(!new)>(lt: (K, K) -> bool, a: K, b: K)
    requires StrictWeakOrder(lt)
    ensures lt(a, b) ==> !lt(b, a)
  {
    assert lt(a, b) && lt(b, a) ==> lt(a, a);
  }

  lemma Between<K(!new)>(lt: (K, K) -> bool, a: K, b: K, c: K)
    requires StrictWeakOrder(lt)
    ensures lt(a, c) ==> lt(a, b) || lt(b, c)
  {
  }

  lemma {:induction false} InsertSorted<T, K(!new)>(x: T, s: seq<T>, key: T -> K, lt: (K, K) -> bool)
    requires StrictWeakOrder(lt) && SortedBy(s, key, lt)
    ensures SortedBy(Insert(x, s, key, lt), key, lt)
    decreases |s|
  {
    if s != [] {
      if lt(key(s[0]), key(x)) {
        var rest := Insert(x, s[1..], key, lt);
        InsertSorted(x, s[1..], key, lt);
        InsertPermutes(x, s[1..], key, lt);
        forall j | 0 <= j < |rest| ensures !lt(key(rest[j]), key(s[0])) {
          assert rest[j] in multiset(rest);
          if rest[j] == x {
            Asymmetric(lt, key(s[0]), key(x));
          } else {
            assert rest[j] in multiset(s[1..]);
            var k :| 0 <= k < |s[1..]| && s[1..][k] == rest[j];
            assert s[k + 1] == rest[j];
          }
        }
        SortedCons(s[0], rest, key, lt);
      } else {
        forall j | 0 <= j < |s| ensures !lt(key(s[j]), key(x)) {
          Between(lt, key(s[j]), key(s[0]), key(x));
        }
        SortedCons(x, s, key, lt);
      }
    }
  }

  lemma SortedCons<T, K>(y: T, s: seq<T>, key: T -> K, lt: (K, K) -> bool)
    requires SortedBy(s, key, lt)
    requires forall j :: 0 <= j < |s| ==> !lt(key(s[j]), key(y))
    ensures SortedBy([y] + s, key, lt)
  {
    var r := [y] + s;
    forall i, j | 0 <= i < j < |r| ensures !lt(key(r[j]), key(r[i])) {
      assert r[j] == s[j - 1];
      if i > 0 {
        assert r[i] == s[i - 1];
      }
    }
  }

  /** Sorting yields an ordered permutation of its input */
  lemma {:induction false} SortBySorted<T, K(!new)>(s: seq<T>, key: T -> K, lt: (K, K) -> bool)
    requires StrictWeakOrder(lt)
    ensures SortedBy(SortBy(s, key, lt), key, lt)
    ensures multiset(SortBy(s, key, lt)) == multiset(s)
    decreases |s|
  {
    if s != [] {
      SortBySorted(s[1..], key, lt);
      InsertSorted(s[0], SortBy(s[1..], key, lt), key, lt);
      InsertPermutes(s[0], SortBy(s[1..], key, lt), key, lt);
      assert s == [s[0]] + s[1..];
    }
  }

  lemma {:induction false} LessIrreflexive(a: string)
    ensures !Less(a, a)
    decreases |a|
  {
    if a != [] {
      LessIrreflexive(a[1..]);
    }
  }

  lemma {:induction false} LessTransitive(a: string, b: string, c: string)
    requires Less(a, b) && Less(b, c)
    ensures Less(a, c)
    decreases |a|
  {
    if a != [] && a[0] == b[0] && b[0] == c[0] {
      LessTransitive(a[1..], b[1..], c[1..]);
    }
  }

  lemma {:induction false} LessTotal(a: string, b: string)
    ensures a == b || Less(a, b) || Less(b, a)
    decreases |a|
  {
    if a != [] && b != [] && a[0] == b[0] {
      LessTotal(a[1..], b[1..]);
      if a[1..] == b[1..] {
        assert a == [a[0]] + a[1..] && b == [b[0]] + b[1..];
      }
    }
  }

  /** Python's string order is a strict total order, so sorting by a string key is well defined */
  lemma LessOrder()
    ensures StrictWeakOrder(Less)
  {
    forall a: string ensures !Less(a, a) {
      LessIrreflexive(a);
    }
    forall a: string, b: string, c: string | Less(a, b) && Less(b, c) ensures Less(a, c) {
      LessTransitive(a, b, c);
    }
    forall a: string, b: string, c: string | Less(a, c) ensures Less(a, b) || Less(b, c) {
      LessTotal(a, b);
      LessTotal(b, c);
      if Less(b, a) && Less(c, b) {
        LessTransitive(c, b, a);
        LessTransitive(a, c, a);
        LessIrreflexive(a);
      }
    }
  }

  lemma GreaterOrder()
    ensures StrictWeakOrder(Greater)
  {
  }
}
