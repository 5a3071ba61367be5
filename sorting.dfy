/**
  Go's sort.Slice and sort.Strings: an in-place sort of a slice under a
  "less" function. Go's sort is not stable, so all that is promised is that
  the result is ordered and a permutation of the input; both hold of the
  insertion sort below for every strict weak order.
*/
module Sorting {

  /** Irreflexive, transitive, and "not less" is transitive too (ties are an equivalence). */
  ghost predicate StrictWeakOrder<T(!new)>(lt: (T, T) -> bool) {
    && (forall x :: !lt(x, x))
    && (forall x, y, z :: lt(x, y) && lt(y, z) ==> lt(x, z))
    && (forall x, y, z :: !lt(x, y) && !lt(y, z) ==> !lt(x, z))
  }

  /** Irreflexive, transitive and total on distinct values. */
  ghost predicate StrictTotalOrder<T(!new)>(lt: (T, T) -> bool) {
    && (forall x :: !lt(x, x))
    && (forall x, y, z :: lt(x, y) && lt(y, z) ==> lt(x, z))
    && (forall x, y :: x != y ==> lt(x, y) || lt(y, x))
  }

  /** No element is less than one before it. */
  ghost predicate SortedBy<T>(s: seq<T>, lt: (T, T) -> bool) {
    forall i, j :: 0 <= i < j < |s| ==> !lt(s[j], s[i])
  }

  /** Comparing by a key under a strict total order gives a strict weak order. */
  lemma KeyedWeakOrder<T(!new), K(!new)>(lt: (T, T) -> bool, key: T -> K, klt: (K, K) -> bool)
    requires forall x, y :: lt(x, y) == klt(key(x), key(y))
    requires StrictTotalOrder(klt)
    ensures StrictWeakOrder(lt)
  {
    forall x, y, z | !lt(x, y) && !lt(y, z)
      ensures !lt(x, z)
    {
      assert key(y) == key(x) || klt(key(y), key(x));
      assert key(z) == key(y) || klt(key(z), key(y));
      if key(y) == key(x) && key(z) == key(y) {
      } else {
        assert key(z) == key(x) || klt(key(z), key(x));
      }
    }
  }

  /** Sorts `a` in place by repeated adjacent exchanges (insertion sort). */
  method SortInPlace<T(!new)>(a: array<T>, lt: (T, T) -> bool)
    requires StrictWeakOrder(lt)
    modifies a
    ensures SortedBy(a[..], lt)
    ensures multiset(a[..]) == old(multiset(a[..]))
  {
    if a.Length <= 1 {
      return;
    }
    var i := 1;
    while i < a.Length
      invariant 1 <= i <= a.Length
      invariant forall p, q :: 0 <= p < q < i ==> !lt(a[q], a[p])
      invariant multiset(a[..]) == old(multiset(a[..]))
    {
      InsertLast(a, i, lt);
      i := i + 1;
    }
    assert a[..] == a[..a.Length];
  }

  /** Moves `a[i]` down into the ordered prefix `a[..i]`, so that `a[..i + 1]` is ordered. */
  method InsertLast<T(!new)>(a: array<T>, i: nat, lt: (T, T) -> bool)
    requires StrictWeakOrder(lt)
    requires 1 <= i < a.Length
    requires forall p, q :: 0 <= p < q < i ==> !lt(a[q], a[p])
    modifies a
    ensures forall p, q :: 0 <= p < q <= i ==> !lt(a[q], a[p])
    ensures multiset(a[..]) == old(multiset(a[..]))
  {
    var j := i;
    while j > 0 && lt(a[j], a[j - 1])
      invariant 0 <= j <= i
      invariant forall p, q :: 0 <= p < q <= i && p != j && q != j ==> !lt(a[q], a[p])
      invariant forall q :: j < q <= i ==> lt(a[j], a[q])
      invariant multiset(a[..]) == old(multiset(a[..]))
    {
      Swap(a, j);
      j := j - 1;
    }
  }

  /** Exchanges `a[j - 1]` and `a[j]`. */
  method Swap<T>(a: array<T>, j: nat)
    requires 0 < j < a.Length
    modifies a
    ensures a[..] == old(a[..])[j - 1 := old(a[j])][j := old(a[j - 1])]
    ensures multiset(a[..]) == old(multiset(a[..]))
  {
    a[j - 1], a[j] := a[j], a[j - 1];
  }

  /** Returns `s` sorted, by sorting a fresh array copy of it in place. */
  method SortedCopy<T(!new)>(s: seq<T>, lt: (T, T) -> bool) returns (r: seq<T>)
    requires StrictWeakOrder(lt)
    ensures SortedBy(r, lt)
    ensures multiset(r) == multiset(s)
  {
    var a := new T[|s|](i requires 0 <= i < |s| => s[i]);
    assert a[..] == s;
    SortInPlace(a, lt);
    r := a[..];
  }
}
