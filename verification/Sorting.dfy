/** `list.sort` by a key, and the order of strings. */
module Sorting {
  /** A stable sort: `x` goes before its equals. */
  function Insert<T>(x: T, s: seq<T>, less: (T, T) -> bool): seq<T> {
    if s == [] || !less(s[0], x) then [x] + s else [s[0]] + Insert(x, s[1..], less)
  }

  function Sorted<T>(s: seq<T>, less: (T, T) -> bool): seq<T> {
    if s == [] then [] else Insert(s[0], Sorted(s[1..], less), less)
  }

  ghost predicate IsOrder<T(!new)>(less: (T, T) -> bool) {
    && (forall x, y :: less(x, y) ==> !less(y, x))
    && (forall x, y, z :: !less(y, x) && !less(z, y) ==> !less(z, x))
  }

  predicate InOrder<T>(s: seq<T>, less: (T, T) -> bool) {
    forall i, j | 0 <= i < j < |s| :: !less(s[j], s[i])
  }

  lemma {:induction false} InsertInOrder<T(!new)>(x: T, s: seq<T>, less: (T, T) -> bool)
    requires IsOrder(less) && InOrder(s, less)
    ensures InOrder(Insert(x, s, less), less)
    ensures forall y | y in Insert(x, s, less) :: y == x || y in s
  {
    if s != [] && less(s[0], x) {
      InsertInOrder(x, s[1..], less);
      var tail := Insert(x, s[1..], less);
      forall j | 0 <= j < |tail| ensures !less(tail[j], s[0]) {
        assert tail[j] in tail;
      }
    }
  }

  lemma {:induction false} SortedInOrder<T(!new)>(s: seq<T>, less: (T, T) -> bool)
    requires IsOrder(less)
    ensures InOrder(Sorted(s, less), less)
  {
    if s != [] {
      SortedInOrder(s[1..], less);
      InsertInOrder(s[0], Sorted(s[1..], less), less);
    }
  }

  lemma {:induction false} InsertIsPermutation<T>(x: T, s: seq<T>, less: (T, T) -> bool)
    ensures multiset(Insert(x, s, less)) == multiset{x} + multiset(s) && |Insert(x, s, less)| == |s| + 1
  {
    if s != [] && less(s[0], x) {
      InsertIsPermutation(x, s[1..], less);
      assert s == [s[0]] + s[1..];
    }
  }

  lemma {:induction false} SortedIsPermutation<T>(s: seq<T>, less: (T, T) -> bool)
    ensures multiset(Sorted(s, less)) == multiset(s) && |Sorted(s, less)| == |s|
  {
    if s != [] {
      SortedIsPermutation(s[1..], less);
      InsertIsPermutation(s[0], Sorted(s[1..], less), less);
      assert s == [s[0]] + s[1..];
    }
  }

  lemma SortedElements<T>(s: seq<T>, less: (T, T) -> bool)
    ensures forall x :: x in Sorted(s, less) <==> x in s
  {
    SortedIsPermutation(s, less);
    forall x ensures x in Sorted(s, less) <==> x in s {
      assert x in multiset(Sorted(s, less)) <==> x in multiset(s);
    }
  }

  predicate TextBefore(a: string, b: string) {
    if b == "" then false
    else if a == "" then true
    else a[0] < b[0] || (a[0] == b[0] && TextBefore(a[1..], b[1..]))
  }

  lemma {:induction false} TextOrder(a: string, b: string, c: string)
    ensures TextBefore(a, b) ==> !TextBefore(b, a)
    ensures !TextBefore(b, a) && !TextBefore(c, b) ==> !TextBefore(c, a)
  {
    if a != "" && b != "" {
      TextOrder(a[1..], b[1..], if c == "" then "" else c[1..]);
    }
  }

  /** The elements that tie with `x`, in order. */
  function Ties<T>(s: seq<T>, x: T, less: (T, T) -> bool): seq<T> {
    if s == [] then []
    else (if !less(s[0], x) && !less(x, s[0]) then [s[0]] else []) + Ties(s[1..], x, less)
  }

  lemma {:induction false} InsertKeepsTies<T(!new)>(x: T, s: seq<T>, less: (T, T) -> bool, y: T)
    requires IsOrder(less)
    ensures Ties(Insert(x, s, less), y, less) == Ties([x] + s, y, less)
  {
    if s != [] && less(s[0], x) {
      InsertKeepsTies(x, s[1..], less, y);
      assert ([x] + s)[1..] == s && ([x] + s[1..])[1..] == s[1..];
      assert Insert(x, s, less)[1..] == Insert(x, s[1..], less);
    }
  }

  /** Sorting is stable: elements that tie keep their order. */
  lemma {:induction false} SortedIsStable<T(!new)>(s: seq<T>, less: (T, T) -> bool, x: T)
    requires IsOrder(less)
    ensures Ties(Sorted(s, less), x, less) == Ties(s, x, less)
  {
    if s != [] {
      SortedIsStable(s[1..], less, x);
      var rest := Sorted(s[1..], less);
      InsertKeepsTies(s[0], rest, less, x);
      assert ([s[0]] + rest)[1..] == rest;
    }
  }

  /** One string is before another if it is a proper prefix of it, or smaller where they first differ. */
  lemma {:induction false} TextBeforeIs(a: string, b: string)
    ensures TextBefore(a, b)
            <==> exists k :: 0 <= k <= |a| && k < |b| && a[..k] == b[..k] && (k == |a| || a[k] < b[k])
  {
    if a != "" && b != "" && a[0] == b[0] {
      TextBeforeIs(a[1..], b[1..]);
      var x, y := a[1..], b[1..];
      if k :| 0 <= k <= |x| && k < |y| && x[..k] == y[..k] && (k == |x| || x[k] < y[k]) {
        assert a[..k + 1] == [a[0]] + a[1..][..k] && b[..k + 1] == [b[0]] + b[1..][..k];
      }
      if k :| 0 <= k <= |a| && k < |b| && a[..k] == b[..k] && (k == |a| || a[k] < b[k]) {
        assert k > 0;
        assert a[1..][..k - 1] == a[..k][1..] && b[1..][..k - 1] == b[..k][1..];
      }
    } else if b != "" {
      assert a[..0] == b[..0];
      forall k | 0 < k <= |a| && k < |b| ensures a[..k] == b[..k] ==> a[0] == b[0] {
        assert a[..k][0] == a[0] && b[..k][0] == b[0];
      }
    }
  }
}
