/** Small vocabulary shared by every model in this project. */
module Common {
  datatype Option<+T> = None | Some(value: T)

  ghost predicate DifferAt<T>(s: seq<T>, i: int, j: int) {
    0 <= i < j < |s| ==> s[i] != s[j]
  }

  /** No value occurs twice. The pairwise fact has a name so that the solver only looks at
      the pairs a proof mentions. */
  ghost predicate Distinct<T>(s: seq<T>) {
    forall i, j :: DifferAt(s, i, j)
  }

  lemma {:induction false} DistinctAt<T>(s: seq<T>, k: nat)
    requires Distinct(s) && k < |s|
    ensures s[k] !in s[..k] && Distinct(s[..k])
  {
    forall i | 0 <= i < k ensures s[i] != s[k] {
      assert DifferAt(s, i, k);
    }
    forall i, j | 0 <= i < j < k ensures s[..k][i] != s[..k][j] {
      assert DifferAt(s, i, j);
    }
  }

  lemma {:induction false} DistinctSnoc<T>(s: seq<T>, x: T)
    requires Distinct(s) && x !in s
    ensures Distinct(s + [x])
  {
    var t := s + [x];
    forall i, j | 0 <= i < j < |t| ensures t[i] != t[j] {
      assert DifferAt(s, i, j);
    }
  }

  /** A non-decreasing list of clock readings. */
  ghost predicate Sorted(s: seq<real>) {
    forall i, j :: 0 <= i < j < |s| ==> s[i] <= s[j]
  }

  /** Concatenation that leaves an empty side out. It equals `a + b`; written this way the
      solver never has to look through an empty operand. */
  function Cat<T>(a: seq<T>, b: seq<T>): seq<T> {
    if a == [] then b else if b == [] then a else a + b
  }

  lemma {:induction false} CatIsAppend<T>(a: seq<T>, b: seq<T>)
    ensures Cat(a, b) == a + b
  {
  }

  lemma {:induction false} Regroup<T>(a: seq<T>, b: seq<T>, c: seq<T>)
    ensures (a + b) + c == a + (b + c)
  {
  }

  lemma {:induction false} InitLast<T>(s: seq<T>)
    requires s != []
    ensures s == s[..|s| - 1] + [s[|s| - 1]]
  {
  }

  /** Where the two parts of a known beginning stand. */
  lemma {:induction false} CatPrefix<T>(a: seq<T>, b: seq<T>, whole: seq<T>)
    requires Cat(a, b) <= whole
    ensures |a| + |b| <= |whole|
    ensures whole[..|a|] == a && whole[|a|..|a| + |b|] == b
  {
    CatIsAppend(a, b);
    assert whole[..|a + b|] == a + b;
  }

  lemma {:induction false} SubsetSize<T>(a: set<T>, b: set<T>)
    requires a <= b
    ensures |a| <= |b|
  {
    assert b == a + (b - a);
  }

  function Max(a: int, b: int): int {
    if a < b then b else a
  }

  function Min(a: int, b: int): int {
    if a < b then a else b
  }

  /** A supply of different ids. */
  function Letters(n: nat): (s: string)
    ensures |s| == n
  {
    seq(n, _ => 'm')
  }
}
