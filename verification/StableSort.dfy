/** Python's `sorted(rows, key=...)`: ordered by key, ties left in their first order. */
module StableSort {
  import opened Common

  // The pairwise facts are named so that the solver only looks at the pairs a proof mentions.

  ghost predicate InOrder<T>(s: seq<T>, key: T -> int, i: int, j: int) {
    0 <= i < j < |s| ==> key(s[i]) <= key(s[j])
  }

  ghost predicate Differ<T>(s: seq<T>, key: T -> int, i: int, j: int) {
    0 <= i < j < |s| ==> key(s[i]) != key(s[j])
  }

  ghost predicate Ordered<T>(s: seq<T>, key: T -> int) {
    forall i, j :: InOrder(s, key, i, j)
  }

  ghost predicate DistinctKeys<T>(s: seq<T>, key: T -> int) {
    forall i, j :: Differ(s, key, i, j)
  }

  lemma {:induction false} UseOrdered<T>(s: seq<T>, key: T -> int)
    requires Ordered(s, key)
    ensures forall i, j :: 0 <= i < j < |s| ==> key(s[i]) <= key(s[j])
  {
    forall i, j | 0 <= i < j < |s| ensures key(s[i]) <= key(s[j]) {
      assert InOrder(s, key, i, j);
    }
  }

  lemma {:induction false} UseDistinct<T>(s: seq<T>, key: T -> int)
    requires DistinctKeys(s, key)
    ensures forall i, j :: 0 <= i < j < |s| ==> key(s[i]) != key(s[j])
  {
    forall i, j | 0 <= i < j < |s| ensures key(s[i]) != key(s[j]) {
      assert Differ(s, key, i, j);
    }
  }

  /** `x` takes its place behind every element whose key does not exceed its own. */
  function Insert<T>(s: seq<T>, key: T -> int, x: T): (r: seq<T>)
    ensures |r| == |s| + 1
  {
    if s == [] then [x]
    else if key(s[0]) <= key(x) then [s[0]] + Insert(s[1..], key, x)
    else [x] + s
  }

  function SortPrefix<T>(s: seq<T>, key: T -> int, n: nat): (r: seq<T>)
    requires n <= |s|
    ensures |r| == n
  {
    if n == 0 then [] else Insert(SortPrefix(s, key, n - 1), key, s[n - 1])
  }

  function SortBy<T>(s: seq<T>, key: T -> int): (r: seq<T>)
    ensures |r| == |s|
  {
    SortPrefix(s, key, |s|)
  }

  lemma {:induction false} InsertElements<T>(s: seq<T>, key: T -> int, x: T)
    ensures multiset(Insert(s, key, x)) == multiset(s) + multiset{x}
  {
    if s != [] && key(s[0]) <= key(x) {
      InsertElements(s[1..], key, x);
      assert s == [s[0]] + s[1..];
    }
  }

  lemma {:induction false} OneMore<T>(s: seq<T>, n: nat)
    requires 0 < n <= |s|
    ensures multiset(s[..n]) == multiset(s[..n - 1]) + multiset{s[n - 1]}
  {
    assert s[..n] == s[..n - 1] + [s[n - 1]];
  }

  /** Sorting keeps every element, as often as it occurs. */
  lemma {:induction false} SortElements<T>(s: seq<T>, key: T -> int, n: nat)
    requires n <= |s|
    ensures multiset(SortPrefix(s, key, n)) == multiset(s[..n])
  {
    if n > 0 {
      SortElements(s, key, n - 1);
      InsertElements(SortPrefix(s, key, n - 1), key, s[n - 1]);
      OneMore(s, n);
    }
  }

  lemma {:induction false} SortKeepsElements<T>(s: seq<T>, key: T -> int)
    ensures multiset(SortBy(s, key)) == multiset(s)
  {
    SortElements(s, key, |s|);
    assert s[..|s|] == s;
  }

  lemma {:induction false} InsertOrdered<T>(s: seq<T>, key: T -> int, x: T)
    requires Ordered(s, key)
    ensures Ordered(Insert(s, key, x), key)
  {
    UseOrdered(s, key);
    if s != [] && key(s[0]) <= key(x) {
      InsertOrdered(s[1..], key, x);
      InsertElements(s[1..], key, x);
      UseOrdered(Insert(s[1..], key, x), key);
      var rest := Insert(s[1..], key, x);
      forall y | y in rest ensures key(s[0]) <= key(y) {
        assert y in multiset(rest);
        assert y in s[1..] || y == x;
      }
    }
  }

  lemma {:induction false} SortOrdered<T>(s: seq<T>, key: T -> int, n: nat)
    requires n <= |s|
    ensures Ordered(SortPrefix(s, key, n), key)
  {
    if n > 0 {
      SortOrdered(s, key, n - 1);
      InsertOrdered(SortPrefix(s, key, n - 1), key, s[n - 1]);
    }
  }

  lemma {:induction false} MultisetMembers<T>(a: seq<T>, b: seq<T>)
    requires multiset(a) == multiset(b)
    ensures forall x :: x in a <==> x in b
  {
    forall x ensures x in a <==> x in b {
      assert x in multiset(a) <==> x in multiset(b);
    }
  }

  /** With distinct keys there is only one way to put the same elements in order. */
  lemma {:induction false} OrderUnique<T>(a: seq<T>, b: seq<T>, key: T -> int)
    requires Ordered(a, key) && DistinctKeys(a, key) && Ordered(b, key) && DistinctKeys(b, key)
    requires forall x :: x in a <==> x in b
    ensures a == b
  {
    UseOrdered(a, key);
    UseOrdered(b, key);
    UseDistinct(a, key);
    UseDistinct(b, key);
    assert a != [] ==> a[0] in b;
    assert b != [] ==> b[0] in a;
    if a != [] {
      assert a[0] == b[0];
      forall x ensures x in a[1..] <==> x in b[1..] {
        assert x in a[1..] <==> x in a && x != a[0];
        assert x in b[1..] <==> x in b && x != b[0];
      }
      OrderUnique(a[1..], b[1..], key);
      assert a == [a[0]] + a[1..] && b == [b[0]] + b[1..];
    }
  }

  lemma {:induction false} DistinctKeysPermute<T>(a: seq<T>, b: seq<T>, key: T -> int)
    requires multiset(a) == multiset(b) && DistinctKeys(a, key)
    ensures DistinctKeys(b, key)
  {
    MultisetMembers(a, b);
    UseDistinct(a, key);
    forall i, j | 0 <= i < j < |b| ensures key(b[i]) != key(b[j]) {
      assert b[i] in b && b[j] in b;
      var p :| 0 <= p < |a| && a[p] == b[i];
      var q :| 0 <= q < |a| && a[q] == b[j];
      if p == q {
        Twice(b, i, j);
        Once(a, key, p);
      }
    }
  }

  lemma {:induction false} Twice<T>(s: seq<T>, i: nat, j: nat)
    requires i < j < |s| && s[i] == s[j]
    ensures multiset(s)[s[i]] >= 2
  {
    assert s == s[..j] + [s[j]] + s[j + 1..];
    assert s[i] in s[..j];
  }

  lemma {:induction false} Once<T>(s: seq<T>, key: T -> int, p: nat)
    requires p < |s| && DistinctKeys(s, key)
    ensures multiset(s)[s[p]] == 1
  {
    UseDistinct(s, key);
    assert s == s[..p] + [s[p]] + s[p + 1..];
    assert s[p] !in s[..p];
    assert s[p] !in s[p + 1..];
  }

  // ----- Sorting and keeping only small keys -----

  /** The elements whose key is at most `bound`, in their order. */
  function KeepUpTo<T>(s: seq<T>, key: T -> int, bound: int): seq<T> {
    if s == [] then []
    else if key(s[0]) <= bound then [s[0]] + KeepUpTo(s[1..], key, bound)
    else KeepUpTo(s[1..], key, bound)
  }

  lemma {:induction false} KeepSnoc<T>(s: seq<T>, key: T -> int, bound: int, x: T)
    ensures KeepUpTo(s + [x], key, bound) ==
            if key(x) <= bound then KeepUpTo(s, key, bound) + [x] else KeepUpTo(s, key, bound)
  {
    if s == [] {
      assert s + [x] == [x];
    } else {
      KeepSnoc(s[1..], key, bound, x);
      assert (s + [x])[1..] == s[1..] + [x];
      if key(s[0]) <= bound && key(x) <= bound {
        Regroup([s[0]], KeepUpTo(s[1..], key, bound), [x]);
      }
    }
  }

  lemma {:induction false} KeepMembers<T>(s: seq<T>, key: T -> int, bound: int)
    ensures forall y :: y in KeepUpTo(s, key, bound) ==> y in s
  {
    if s != [] {
      KeepMembers(s[1..], key, bound);
    }
  }

  /** In an ordered list the kept elements come first. */
  lemma {:induction false} KeepIsPrefix<T>(s: seq<T>, key: T -> int, bound: int)
    requires Ordered(s, key)
    ensures KeepUpTo(s, key, bound) <= s
  {
    if s != [] {
      UseOrdered(s, key);
      KeepIsPrefix(s[1..], key, bound);
      if key(s[0]) > bound {
        KeepMembers(s[1..], key, bound);
        NoneKept(s[1..], key, bound);
      }
    }
  }

  lemma {:induction false} NoneKept<T>(s: seq<T>, key: T -> int, bound: int)
    requires forall y :: y in s ==> key(y) > bound
    ensures KeepUpTo(s, key, bound) == []
  {
    if s != [] {
      NoneKept(s[1..], key, bound);
    }
  }

  lemma {:induction false} KeepInsert<T>(s: seq<T>, key: T -> int, bound: int, x: T)
    requires Ordered(s, key)
    ensures KeepUpTo(Insert(s, key, x), key, bound) ==
            if key(x) <= bound then Insert(KeepUpTo(s, key, bound), key, x) else KeepUpTo(s, key, bound)
  {
    if s == [] {
      assert [x][1..] == [];
    } else if key(s[0]) <= key(x) {
      UseOrdered(s, key);
      KeepInsert(s[1..], key, bound, x);
    } else {
      UseOrdered(s, key);
      KeepMembers(s, key, bound);
      var kept := KeepUpTo(s, key, bound);
      assert kept != [] ==> kept[0] in s;
      assert kept == [] ==> [x] + kept == [x];
    }
  }

  lemma {:induction false} SortLocal<T>(a: seq<T>, b: seq<T>, key: T -> int, n: nat)
    requires n <= |a| && n <= |b| && (forall i :: 0 <= i < n ==> a[i] == b[i])
    ensures SortPrefix(a, key, n) == SortPrefix(b, key, n)
  {
    if n > 0 {
      SortLocal(a, b, key, n - 1);
    }
  }

  /** Dropping the large keys before or after sorting makes no difference. */
  lemma {:induction false} KeepSort<T>(s: seq<T>, key: T -> int, bound: int, n: nat)
    requires n <= |s|
    ensures KeepUpTo(SortPrefix(s, key, n), key, bound) == SortBy(KeepUpTo(s[..n], key, bound), key)
  {
    if n > 0 {
      var x := s[n - 1];
      var kept := KeepUpTo(s[..n - 1], key, bound);
      assert s[..n] == s[..n - 1] + [x];
      KeepSort(s, key, bound, n - 1);
      SortOrdered(s, key, n - 1);
      KeepInsert(SortPrefix(s, key, n - 1), key, bound, x);
      KeepSnoc(s[..n - 1], key, bound, x);
      SortLocal(kept + [x], kept, key, |kept|);
    }
  }

  /** So the kept elements, sorted, are how the whole sorted list begins. */
  lemma {:induction false} KeptSortedFirst<T>(s: seq<T>, key: T -> int, bound: int)
    ensures SortBy(KeepUpTo(s, key, bound), key) <= SortBy(s, key)
  {
    assert s[..|s|] == s;
    KeepSort(s, key, bound, |s|);
    SortOrdered(s, key, |s|);
    KeepIsPrefix(SortPrefix(s, key, |s|), key, bound);
  }
}
