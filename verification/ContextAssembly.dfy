/** Packing context fragments into a token budget, highest priority first. */
module ContextAssembly {
  import opened Common
  import opened PyText
  import opened StableSort
  import opened Truncation

  /** A fragment with what it collected; sources are kept by their ids. */
  datatype Fragment = Fragment(priority: int, maxTokens: int, content: string, sources: seq<string>)

  datatype Assembly = Assembly(prompt: string, sources: seq<string>)

  const SEPARATOR := "\n\n---\n"

  // ----- Packing -----

  /** The text a fragment would contribute; empty when it has none. */
  function Prepared(f: Fragment, count: Counter): string {
    var content := Strip(f.content);
    if content != [] && f.maxTokens > 0 && count(content) > f.maxTokens
    then Truncate(content, f.maxTokens, count)
    else content
  }

  /** What packing looks at: the text, its price in tokens and the sources behind it. */
  datatype Piece = Piece(text: string, tokens: nat, sources: seq<string>)

  function Ready(f: Fragment, count: Counter): Piece {
    Piece(Prepared(f, count), count(Prepared(f, count)), f.sources)
  }

  function PiecesUpTo(fs: seq<Fragment>, n: nat, count: Counter): (r: seq<Piece>)
    requires n <= |fs|
    ensures |r| == n
  {
    if n == 0 then [] else PiecesUpTo(fs, n - 1, count) + [Ready(fs[n - 1], count)]
  }

  function Pieces(fs: seq<Fragment>, count: Counter): (r: seq<Piece>)
    ensures |r| == |fs|
  {
    PiecesUpTo(fs, |fs|, count)
  }

  lemma {:induction false} PieceAt(fs: seq<Fragment>, n: nat, i: nat, count: Counter)
    requires i < n <= |fs|
    ensures PiecesUpTo(fs, n, count)[i] == Ready(fs[i], count)
  {
    var before := PiecesUpTo(fs, n - 1, count);
    if i < n - 1 {
      PieceAt(fs, n - 1, i, count);
      assert (before + [Ready(fs[n - 1], count)])[i] == before[i];
    }
  }

  /** Whether a piece is taken when `used` tokens are spent already. */
  predicate Fits(p: Piece, used: nat, budget: int) {
    p.text != [] && used + p.tokens <= budget
  }

  /** Tokens spent on the first `n` pieces. */
  function Used(ps: seq<Piece>, n: nat, budget: int): nat
    requires n <= |ps|
  {
    if n == 0 then 0
    else
      var used := Used(ps, n - 1, budget);
      if Fits(ps[n - 1], used, budget) then used + ps[n - 1].tokens else used
  }

  predicate Taken(ps: seq<Piece>, i: nat, budget: int)
    requires i < |ps|
  {
    Fits(ps[i], Used(ps, i, budget), budget)
  }

  function Parts(ps: seq<Piece>, n: nat, budget: int): seq<string>
    requires n <= |ps|
  {
    if n == 0 then []
    else if Taken(ps, n - 1, budget) then Parts(ps, n - 1, budget) + [ps[n - 1].text]
    else Parts(ps, n - 1, budget)
  }

  function Sources(ps: seq<Piece>, n: nat, budget: int): seq<string>
    requires n <= |ps|
  {
    if n == 0 then []
    else if Taken(ps, n - 1, budget) then Cat(Sources(ps, n - 1, budget), ps[n - 1].sources)
    else Sources(ps, n - 1, budget)
  }

  function Join(parts: seq<string>): string {
    if parts == [] then [] else if |parts| == 1 then parts[0]
    else Join(parts[..|parts| - 1]) + SEPARATOR + parts[|parts| - 1]
  }

  function Rank(f: Fragment): int {
    -f.priority
  }

  /** Fragments whose collection failed are left out before anything else. */
  function Collected(results: seq<Option<Fragment>>): seq<Fragment> {
    if results == [] then []
    else if results[|results| - 1].Some? then Collected(results[..|results| - 1]) + [results[|results| - 1].value]
    else Collected(results[..|results| - 1])
  }

  method DropFailed(collected: seq<Option<Fragment>>) returns (results: seq<Fragment>)
    ensures results == Collected(collected)
  {
    results := [];
    for i := 0 to |collected|
      invariant results == Collected(collected[..i])
    {
      assert collected[..i + 1][..i] == collected[..i];
      if collected[i].Some? {
        results := results + [collected[i].value];
      }
    }
    assert collected[..|collected|] == collected;
  }

  /** The content one fragment brings, or nothing. */
  method Prepare(frag: Fragment, count: Counter) returns (content: string)
    ensures content == Prepared(frag, count)
    ensures var text := Strip(frag.content);
            content == if text != "" && frag.maxTokens > 0 && count(text) > frag.maxTokens
                       then Truncate(text, frag.maxTokens, count) else text
  {
    content := Strip(frag.content);
    if content == [] {
      return;
    }
    if frag.maxTokens > 0 && count(content) > frag.maxTokens {
      content := TruncateToTokenBudget(content, frag.maxTokens, count);
    }
  }

  method Pack(results: seq<Fragment>, budget: int, count: Counter)
    returns (parts: seq<string>, allSources: seq<string>, used: nat)
    ensures var ps := Pieces(results, count);
            && parts == Parts(ps, |ps|, budget)
            && allSources == Sources(ps, |ps|, budget)
            && used == Used(ps, |ps|, budget)
  {
    parts, allSources, used := [], [], 0;
    ghost var ps := Pieces(results, count);
    for i := 0 to |results|
      invariant parts == Parts(ps, i, budget)
      invariant allSources == Sources(ps, i, budget)
      invariant used == Used(ps, i, budget)
    {
      var content := Prepare(results[i], count);
      var tokenCount := count(content);
      PieceAt(results, |results|, i, count);
      if content == [] || used + tokenCount > budget {
        continue;
      }
      parts := parts + [content];
      used := used + tokenCount;
      allSources := Cat(allSources, results[i].sources);
    }
  }

  method AssembleWithSources(collected: seq<Option<Fragment>>, budget: int, count: Counter) returns (r: Assembly)
    ensures var ps := Pieces(SortBy(Collected(collected), Rank), count);
            r == Assembly(Join(Parts(ps, |ps|, budget)), Sources(ps, |ps|, budget))
  {
    var results := DropFailed(collected);
    results := SortBy(results, Rank);
    var parts, allSources, used := Pack(results, budget, count);
    r := Assembly(Join(parts), allSources);
  }

  // ----- What the packing guarantees -----

  lemma {:induction false} UsedGrows(ps: seq<Piece>, i: nat, n: nat, budget: int)
    requires i <= n <= |ps|
    ensures Used(ps, i, budget) <= Used(ps, n, budget)
  {
    if i < n {
      UsedGrows(ps, i, n - 1, budget);
    }
  }

  /** The parts never cost more than the budget, and a fragment with something to say that
      was passed over would still not fit at the end. */
  lemma {:induction false} BudgetKeptAndFilled(ps: seq<Piece>, n: nat, budget: int)
    requires n <= |ps|
    ensures Used(ps, n, budget) <= Max(budget, 0)
    ensures forall i :: 0 <= i < n && ps[i].text != [] && !Taken(ps, i, budget) ==>
              Used(ps, n, budget) + ps[i].tokens > budget
  {
    if n > 0 {
      BudgetKeptAndFilled(ps, n - 1, budget);
      UsedGrows(ps, n - 1, n, budget);
    }
  }

  /** What the parts cost together. */
  function Price(parts: seq<string>, count: Counter): nat {
    if parts == [] then 0 else Price(parts[..|parts| - 1], count) + count(parts[|parts| - 1])
  }

  /** The running total is the price of the parts that were kept. */
  lemma {:induction false} UsedIsPrice(fs: seq<Fragment>, n: nat, budget: int, count: Counter)
    requires n <= |fs|
    ensures Used(Pieces(fs, count), n, budget) == Price(Parts(Pieces(fs, count), n, budget), count)
  {
    if n > 0 {
      UsedIsPrice(fs, n - 1, budget, count);
      PieceAt(fs, |fs|, n - 1, count);
      var ps := Pieces(fs, count);
      var before := Parts(ps, n - 1, budget);
      assert (before + [ps[n - 1].text])[..|before|] == before;
    }
  }

  /** A fragment is taken exactly when it has something to say and what it costs fits beside
      the parts taken before it. */
  lemma {:induction false} TakenIff(fs: seq<Fragment>, i: nat, budget: int, count: Counter)
    requires i < |fs|
    ensures var ps := Pieces(fs, count);
            var text := Prepared(fs[i], count);
            && (Taken(ps, i, budget) <==> text != "" && Price(Parts(ps, i, budget), count) + count(text) <= budget)
            && Parts(ps, i + 1, budget) == Parts(ps, i, budget) + (if Taken(ps, i, budget) then [text] else [])
            && Sources(ps, i + 1, budget) ==
               Sources(ps, i, budget) + (if Taken(ps, i, budget) then fs[i].sources else [])
  {
    UsedIsPrice(fs, i, budget, count);
    PieceAt(fs, |fs|, i, count);
    CatIsAppend(Sources(Pieces(fs, count), i, budget), fs[i].sources);
  }

  /** The prompt is made of all the parts, in order, with one separator between any two. */
  lemma {:induction false} JoinSplits(a: seq<string>, b: seq<string>)
    requires a != [] && b != []
    ensures Join(a + b) == Join(a) + "\n\n---\n" + Join(b)
    ensures |b| == 1 ==> Join(b) == b[0]
  {
    var init, last := b[..|b| - 1], b[|b| - 1];
    assert (a + b)[..|a + b| - 1] == a + init && (a + b)[|a + b| - 1] == last;
    if |b| == 1 {
      assert a + init == a;
    } else {
      JoinSplits(a, init);
      Regroup(Join(a) + SEPARATOR, Join(init), SEPARATOR);
      Regroup(Join(a) + SEPARATOR, Join(init) + SEPARATOR, last);
    }
  }

  /** Every collected fragment is kept, in order, and no failed one. */
  lemma {:induction false} CollectedAt(results: seq<Option<Fragment>>, i: nat)
    requires i < |results|
    ensures Collected(results) ==
            Collected(results[..i]) + (if results[i].Some? then [results[i].value] else [])
            + Collected(results[i + 1..])
    ensures Collected([]) == []
    decreases |results|
  {
    var init := results[..|results| - 1];
    if i < |results| - 1 {
      CollectedAt(init, i);
      assert init[..i] == results[..i];
      assert results[i + 1..][..|results| - i - 2] == init[i + 1..];
    }
  }

  /** Sources come from taken fragments and from nowhere else. */
  lemma {:induction false} SourcesOfTaken(ps: seq<Piece>, n: nat, budget: int)
    requires n <= |ps|
    ensures forall s :: s in Sources(ps, n, budget) <==>
              exists i :: 0 <= i < n && Taken(ps, i, budget) && s in ps[i].sources
  {
    if n > 0 {
      SourcesOfTaken(ps, n - 1, budget);
      CatIsAppend(Sources(ps, n - 1, budget), ps[n - 1].sources);
    }
  }

  // ----- Lower priorities do not matter -----

  /** The decision on a fragment, and everything put together so far, depend only on the
      fragments before it. */
  lemma {:induction false} PackingLocal(a: seq<Piece>, b: seq<Piece>, n: nat, budget: int)
    requires n <= |a| && n <= |b| && (forall i :: 0 <= i < n ==> a[i] == b[i])
    ensures Used(a, n, budget) == Used(b, n, budget)
    ensures Parts(a, n, budget) == Parts(b, n, budget)
  {
    if n > 0 {
      PackingLocal(a, b, n - 1, budget);
    }
  }

  lemma {:induction false} PartsGrow(ps: seq<Piece>, i: nat, n: nat, budget: int)
    requires i <= n <= |ps|
    ensures Parts(ps, i, budget) <= Parts(ps, n, budget)
  {
    if i < n {
      PartsGrow(ps, i, n - 1, budget);
    }
  }

  /** What is collected, sorted and made ready. */
  function Offered(fs: seq<Fragment>, count: Counter): seq<Piece> {
    Pieces(SortBy(fs, Rank), count)
  }

  /** Two assemblies that agree on the fragments of priority `p` and higher, and differ below
      in any way, start with the same fragments, decide alike on each of them, and so begin
      with the same parts. */
  lemma {:induction false} PriorityStable(a: seq<Fragment>, b: seq<Fragment>, p: int, budget: int, count: Counter)
    requires KeepUpTo(a, Rank, -p) == KeepUpTo(b, Rank, -p)
    ensures var pa, pb, high := Offered(a, count), Offered(b, count), Offered(KeepUpTo(a, Rank, -p), count);
            && high <= pa && high <= pb
            && (forall i :: 0 <= i < |high| ==> (Taken(pa, i, budget) <==> Taken(pb, i, budget)))
            && Parts(high, |high|, budget) <= Parts(pa, |pa|, budget)
            && Parts(high, |high|, budget) <= Parts(pb, |pb|, budget)
  {
    var pa, pb, high := Offered(a, count), Offered(b, count), Offered(KeepUpTo(a, Rank, -p), count);
    HighFirst(a, p, count);
    HighFirst(b, p, count);
    PrefixPacked(high, pa, budget);
    PrefixPacked(high, pb, budget);
    forall i | 0 <= i < |high| ensures Taken(pa, i, budget) <==> Taken(pb, i, budget) {
      PackingLocal(pa, high, i, budget);
      PackingLocal(pb, high, i, budget);
    }
  }

  lemma {:induction false} HighFirst(a: seq<Fragment>, p: int, count: Counter)
    ensures Offered(KeepUpTo(a, Rank, -p), count) <= Offered(a, count)
  {
    KeptSortedFirst(a, Rank, -p);
    PiecesPrefix(SortBy(KeepUpTo(a, Rank, -p), Rank), SortBy(a, Rank), count);
  }

  lemma {:induction false} PiecesPrefix(a: seq<Fragment>, b: seq<Fragment>, count: Counter)
    requires a <= b
    ensures Pieces(a, count) <= Pieces(b, count)
  {
    forall i | 0 <= i < |a| ensures Pieces(a, count)[i] == Pieces(b, count)[i] {
      PieceAt(a, |a|, i, count);
      PieceAt(b, |b|, i, count);
    }
  }

  lemma {:induction false} PrefixPacked(high: seq<Piece>, ps: seq<Piece>, budget: int)
    requires high <= ps
    ensures Parts(high, |high|, budget) <= Parts(ps, |ps|, budget)
  {
    PackingLocal(high, ps, |high|, budget);
    PartsGrow(ps, |high|, |ps|, budget);
  }
}
