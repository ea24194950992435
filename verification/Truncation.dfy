/** Cutting a text down to a token cap. */
module Truncation {
  import opened Common
  import opened PyText

  /** The token counter; any function will do. */
  type Counter = string -> nat

  const ELLIPSIS := '\U{2026}'

  /** The binary search for a prefix that fits. */
  function Search(text: string, lo: int, hi: int, best: string, cap: int, count: Counter): string
    requires 0 <= lo && hi <= |text|
    decreases hi - lo + 1
  {
    if lo > hi then best
    else
      var mid := (lo + hi) / 2;
      var candidate := StripEnd(text[..mid]);
      if candidate == [] then Search(text, mid + 1, hi, best, cap, count)
      else if count(candidate) <= cap then Search(text, mid + 1, hi, candidate, cap, count)
      else Search(text, lo, mid - 1, best, cap, count)
  }

  function Truncate(text: string, cap: int, count: Counter): string {
    if text == [] || cap <= 0 then []
    else if count(text) <= cap then text
    else
      var best := Search(text, 0, |text|, [], cap, count);
      if best != [] && best[|best| - 1] != ELLIPSIS then StripEnd(best) + [ELLIPSIS] else best
  }

  /** Truncation as the program runs it: the search as a loop. */
  method TruncateToTokenBudget(text: string, cap: int, count: Counter) returns (best: string)
    ensures best == Truncate(text, cap, count)
  {
    if text == [] || cap <= 0 {
      return [];
    }
    if count(text) <= cap {
      return text;
    }
    var lo, hi := 0, |text|;
    best := [];
    while lo <= hi
      invariant 0 <= lo && hi <= |text|
      invariant Search(text, lo, hi, best, cap, count) == Search(text, 0, |text|, [], cap, count)
      decreases hi - lo + 1
    {
      var mid := (lo + hi) / 2;
      var candidate := StripEnd(text[..mid]);
      if candidate == [] {
        lo := mid + 1;
      } else if count(candidate) <= cap {
        best, lo := candidate, mid + 1;
      } else {
        hi := mid - 1;
      }
    }
    if best != [] && best[|best| - 1] != ELLIPSIS {
      best := StripEnd(best) + [ELLIPSIS];
    }
  }

  /** A prefix of the text within the cap. */
  ghost predicate Fitting(s: string, text: string, cap: int, count: Counter) {
    s <= text && (s == [] || count(s) <= cap)
  }

  lemma {:induction false} CandidateFits(text: string, n: nat, cap: int, count: Counter)
    requires n <= |text|
    ensures count(StripEnd(text[..n])) <= cap ==> Fitting(StripEnd(text[..n]), text, cap, count)
  {
    StripEndIsPrefix(text[..n]);
  }

  lemma {:induction false} SearchFits(text: string, lo: int, hi: int, best: string, cap: int, count: Counter)
    requires 0 <= lo && hi <= |text| && Fitting(best, text, cap, count)
    ensures Fitting(Search(text, lo, hi, best, cap, count), text, cap, count)
    decreases hi - lo + 1
  {
    if lo <= hi {
      var mid := (lo + hi) / 2;
      var candidate := StripEnd(text[..mid]);
      CandidateFits(text, mid, cap, count);
      if candidate == [] {
        SearchFits(text, mid + 1, hi, best, cap, count);
      } else if count(candidate) <= cap {
        SearchFits(text, mid + 1, hi, candidate, cap, count);
      } else {
        SearchFits(text, lo, mid - 1, best, cap, count);
      }
    }
  }

  // ----- What the search is for -----

  /** What each cut leaves, after no character, one, and so on. */
  function Cuts(text: string): (cs: seq<string>)
    ensures |cs| == |text| + 1
  {
    seq(|text| + 1, n requires 0 <= n <= |text| => StripEnd(text[..n]))
  }

  predicate FitsAt(cs: seq<string>, n: nat, cap: int, count: Counter)
    requires n < |cs|
  {
    cs[n] == [] || count(cs[n]) <= cap
  }

  /** The longest candidate within the cap among the first `n` and the one behind them, tried
      one by one from the longest down. */
  function LongestFit(cs: seq<string>, n: nat, cap: int, count: Counter): string
    requires n < |cs|
  {
    if n == 0 then [] else if FitsAt(cs, n, cap, count) then cs[n] else LongestFit(cs, n - 1, cap, count)
  }

  /** The binary search over candidates made beforehand. */
  function SearchIn(cs: seq<string>, lo: int, hi: int, best: string, cap: int, count: Counter): string
    requires 0 <= lo && hi < |cs|
    decreases hi - lo + 1
  {
    if lo > hi then best
    else
      var mid := (lo + hi) / 2;
      if FitsAt(cs, mid, cap, count) then SearchIn(cs, mid + 1, hi, if cs[mid] == [] then best else cs[mid], cap, count)
      else SearchIn(cs, lo, mid - 1, best, cap, count)
  }

  lemma {:induction false} SearchOverCuts(text: string, lo: int, hi: int, best: string, cap: int, count: Counter)
    requires 0 <= lo && hi <= |text|
    ensures Search(text, lo, hi, best, cap, count) == SearchIn(Cuts(text), lo, hi, best, cap, count)
    decreases hi - lo + 1
  {
    if lo <= hi {
      var mid := (lo + hi) / 2;
      var cut := StripEnd(text[..mid]);
      assert Cuts(text)[mid] == cut;
      if FitsAt(Cuts(text), mid, cap, count) {
        SearchOverCuts(text, mid + 1, hi, if cut == [] then best else cut, cap, count);
      } else {
        SearchOverCuts(text, lo, mid - 1, best, cap, count);
      }
    }
  }

  ghost predicate FallsAt(cs: seq<string>, m: int, n: int, cap: int, count: Counter) {
    0 <= m <= n < |cs| ==> (FitsAt(cs, n, cap, count) ==> FitsAt(cs, m, cap, count)) && (cs[n] == [] ==> cs[m] == [])
  }

  /** Whatever is cut shorter than a fitting candidate fits too. */
  ghost predicate Falls(cs: seq<string>, cap: int, count: Counter) {
    cs != [] && cs[0] == [] && forall m, n :: FallsAt(cs, m, n, cap, count)
  }

  /** All candidates behind `n` are too long. */
  lemma {:induction false} LongestFitSkips(cs: seq<string>, n: nat, m: nat, cap: int, count: Counter)
    requires n <= m < |cs| && Falls(cs, cap, count) && (n < m ==> !FitsAt(cs, n + 1, cap, count))
    ensures LongestFit(cs, m, cap, count) == LongestFit(cs, n, cap, count)
  {
    if n < m {
      assert FallsAt(cs, n + 1, m, cap, count);
      LongestFitSkips(cs, n, m - 1, cap, count);
    }
  }

  /** `best` is what trying the candidates below `lo` leaves, and they all fit. */
  ghost predicate BestBelow(cs: seq<string>, lo: int, best: string, cap: int, count: Counter) {
    if lo == 0 then best == [] else 0 < lo <= |cs| && FitsAt(cs, lo - 1, cap, count) && best == cs[lo - 1]
  }

  lemma {:induction false} SearchInIsLongest(cs: seq<string>, lo: int, hi: int, best: string, cap: int, count: Counter)
    requires 0 <= lo <= hi + 1 && 0 <= hi < |cs| && Falls(cs, cap, count) && BestBelow(cs, lo, best, cap, count)
    requires hi + 1 < |cs| ==> !FitsAt(cs, hi + 1, cap, count)
    ensures SearchIn(cs, lo, hi, best, cap, count) == LongestFit(cs, |cs| - 1, cap, count)
    decreases hi - lo + 1
  {
    if lo > hi {
      LongestFitSkips(cs, hi, |cs| - 1, cap, count);
    } else {
      var mid := (lo + hi) / 2;
      if FitsAt(cs, mid, cap, count) {
        assert FallsAt(cs, Max(lo - 1, 0), mid, cap, count);
        SearchInIsLongest(cs, mid + 1, hi, if cs[mid] == [] then best else cs[mid], cap, count);
      } else {
        SearchInIsLongest(cs, lo, mid - 1, best, cap, count);
      }
    }
  }

  /** A longer text never counts less. */
  ghost predicate Monotone(count: Counter) {
    forall s, t :: s <= t ==> count(s) <= count(t)
  }

  lemma {:induction false} StripEndGrows(s: string, t: string)
    requires s <= t
    ensures StripEnd(s) <= StripEnd(t)
    decreases |t|
  {
    StripEndIsPrefix(s);
    if |s| < |t| && IsBlank(t[|t| - 1]) {
      StripEndGrows(s, t[..|t| - 1]);
    } else if s == t {
    } else {
      assert StripEnd(t) == t;
    }
  }

  lemma {:induction false} MonotoneFalls(text: string, cap: int, count: Counter)
    requires Monotone(count)
    ensures Falls(Cuts(text), cap, count)
  {
    forall m, n | 0 <= m <= n <= |text| ensures FallsAt(Cuts(text), m, n, cap, count) {
      assert text[..m] <= text[..n];
      StripEndGrows(text[..m], text[..n]);
    }
  }

  /** The binary search finds what trying every cut from the longest down would find. */
  lemma {:induction false} SearchIsLongest(text: string, cap: int, count: Counter)
    requires Monotone(count)
    ensures Search(text, 0, |text|, [], cap, count) == LongestFit(Cuts(text), |text|, cap, count)
  {
    MonotoneFalls(text, cap, count);
    SearchOverCuts(text, 0, |text|, [], cap, count);
    SearchInIsLongest(Cuts(text), 0, |text|, [], cap, count);
  }

  /** So a text over its cap is cut to the longest fitting candidate, and marked. */
  lemma {:induction false} TruncateIsLongest(text: string, cap: int, count: Counter)
    requires Monotone(count) && cap > 0 && count(text) > cap
    ensures var best := LongestFit(Cuts(text), |text|, cap, count);
            Truncate(text, cap, count) == if best == [] || best[|best| - 1] == ELLIPSIS then best
            else StripEnd(best) + [ELLIPSIS]
  {
    SearchIsLongest(text, cap, count);
    assert text == [] ==> LongestFit(Cuts(text), |text|, cap, count) == [];
  }

  // ----- The fallback estimate -----

  /** The estimate the program falls back on when no tokenizer is available. */
  function CharEstimate(text: string): nat {
    |text| / 4
  }

  lemma {:induction false} CutStep(text: string, n: nat)
    requires 0 < n <= |text|
    ensures Cuts(text)[n] == if IsBlank(text[n - 1]) then Cuts(text)[n - 1] else text[..n]
  {
    assert text[..n][..n - 1] == text[..n - 1];
  }

  /** With the estimate the search cuts behind character `4 * cap + 2`, or wherever the blanks
      before that begin. */
  lemma {:induction false} EstimateFits(text: string, n: nat, cap: nat)
    requires 4 * cap + 3 <= n <= |text|
    requires FitsAt(Cuts(text), n, cap, CharEstimate) || n == 4 * cap + 3
    ensures Cuts(text)[n] == Cuts(text)[4 * cap + 3]
    decreases n
  {
    if n > 4 * cap + 3 {
      CutStep(text, n);
      EstimateFits(text, n - 1, cap);
    }
  }

  lemma {:induction false} EstimateLongest(text: string, n: nat, cap: nat)
    requires 4 * cap + 3 <= n <= |text|
    ensures LongestFit(Cuts(text), n, cap, CharEstimate) == Cuts(text)[4 * cap + 3]
  {
    StripEndIsPrefix(text[..4 * cap + 3]);
    if FitsAt(Cuts(text), n, cap, CharEstimate) {
      EstimateFits(text, n, cap);
    } else {
      EstimateLongest(text, n - 1, cap);
    }
  }

  /** With the fallback estimate a text over its cap stays over it, in spite of being cut,
      exactly when the last character that still fits is neither blank nor the mark itself. */
  lemma {:induction false} TruncateExceedsIff(text: string, cap: int)
    requires cap > 0 && CharEstimate(text) > cap
    ensures CharEstimate(Truncate(text, cap, CharEstimate)) > cap <==>
              !IsBlank(text[4 * cap + 2]) && text[4 * cap + 2] != ELLIPSIS
  {
    EstimateCut(text, cap);
    CutStep(text, 4 * cap + 3);
    StripEndIsPrefix(text[..4 * cap + 2]);
  }

  lemma {:induction false} EstimateCut(text: string, cap: int)
    requires cap > 0 && CharEstimate(text) > cap
    ensures var best := Cuts(text)[4 * cap + 3];
            |Truncate(text, cap, CharEstimate)| ==
            if best == [] || best[|best| - 1] == ELLIPSIS then |best| else |best| + 1
  {
    TruncateIsLongest(text, cap, CharEstimate);
    EstimateLongest(text, |text|, cap);
    StripEndStable(text[..4 * cap + 3]);
  }

  lemma {:induction false} StripEndStable(s: string)
    ensures StripEnd(StripEnd(s)) == StripEnd(s)
  {
    if s != [] && IsBlank(s[|s| - 1]) {
      StripEndStable(s[..|s| - 1]);
    }
  }

  /** Eight letters cut to one token count as two. */
  lemma {:induction false} TruncateExceeds()
    ensures CharEstimate(Truncate("aaaaaaaa", 1, CharEstimate)) == 2
  {
    TruncateExceedsIff("aaaaaaaa", 1);
    SearchFits("aaaaaaaa", 0, 8, [], 1, CharEstimate);
    var best := Search("aaaaaaaa", 0, 8, [], 1, CharEstimate);
    StripEndIsPrefix(best);
  }
}
