/** A sliding window over admission times, as the HTTP rate limiter and the WebSocket burst
    limiter both use it. */
module SlidingWindow {
  import opened Common

  /** Drop expired times from the front. */
  function Prune(bucket: seq<real>, cutoff: real): (r: seq<real>)
    ensures |r| <= |bucket|
  {
    if bucket != [] && bucket[0] < cutoff then Prune(bucket[1..], cutoff) else bucket
  }

  /** The same, done in place. */
  method PruneLoop(bucket: seq<real>, cutoff: real) returns (r: seq<real>)
    ensures r == Prune(bucket, cutoff)
  {
    r := bucket;
    while r != [] && r[0] < cutoff
      invariant Prune(r, cutoff) == Prune(bucket, cutoff)
      decreases |r|
    {
      r := r[1..];
    }
  }

  lemma {:induction false} PruneIsSuffix(h: seq<real>, cutoff: real)
    ensures Prune(h, cutoff) == h[|h| - |Prune(h, cutoff)|..]
  {
    if h != [] && h[0] < cutoff {
      PruneIsSuffix(h[1..], cutoff);
    }
  }

  /** What pruning has removed from a sorted list is exactly what lay before the cutoff. */
  lemma {:induction false} PruneSplits(h: seq<real>, cutoff: real)
    requires Sorted(h)
    ensures forall i :: 0 <= i < |h| ==> (h[i] < cutoff <==> i < |h| - |Prune(h, cutoff)|)
  {
    if h != [] && h[0] < cutoff {
      PruneSplits(h[1..], cutoff);
      forall i | 0 <= i < |h| ensures h[i] < cutoff <==> i < |h| - |Prune(h, cutoff)| {
        assert i > 0 ==> h[i] == h[1..][i - 1];
      }
    }
  }

  /** `bucket` is what is left of `history`, and all that is missing lay before `floor`. */
  ghost predicate Remains(bucket: seq<real>, history: seq<real>, floor: real) {
    && |bucket| <= |history| && bucket == history[|history| - |bucket|..]
    && forall i :: 0 <= i < |history| - |bucket| ==> history[i] < floor
  }

  /** Forgetting what has expired is invisible to any later cutoff. */
  lemma {:induction false} PruneForgets(bucket: seq<real>, history: seq<real>, floor: real, cutoff: real)
    requires Remains(bucket, history, floor) && floor <= cutoff
    ensures Prune(bucket, cutoff) == Prune(history, cutoff)
  {
    if |bucket| < |history| {
      assert bucket == history[1..][|history[1..]| - |bucket|..];
      PruneForgets(bucket, history[1..], floor, cutoff);
    }
  }

  lemma {:induction false} PruneRemains(history: seq<real>, cutoff: real)
    requires Sorted(history)
    ensures Remains(Prune(history, cutoff), history, cutoff)
  {
    PruneIsSuffix(history, cutoff);
    PruneSplits(history, cutoff);
  }

  ghost predicate GapAt(h: seq<real>, n: nat, window: real, i: int) {
    0 <= i && i + n < |h| ==> h[i + n] - h[i] > window
  }

  /** No `n + 1` consecutive times lie within `window` of each other. */
  ghost predicate Spaced(h: seq<real>, n: nat, window: real) {
    forall i :: GapAt(h, n, window, i)
  }

  /** Admitting while fewer than `n` live times remain keeps the history spaced. */
  lemma {:induction false} AdmitSpaced(h: seq<real>, n: nat, window: real, cutoff: real, now: real)
    requires Sorted(h) && Spaced(h, n, window) && (h != [] ==> h[|h| - 1] <= now)
    requires cutoff <= now - window && |Prune(h, cutoff)| < n
    ensures Sorted(h + [now]) && Spaced(h + [now], n, window)
  {
    if n <= |h| {
      PruneSplits(h, cutoff);
      assert h[|h| - n] < cutoff;
    }
    forall i ensures GapAt(h + [now], n, window, i) {
      assert GapAt(h, n, window, i);
    }
  }

  /** How many times lie in the closed interval [lo, hi]. */
  function CountIn(h: seq<real>, lo: real, hi: real): nat {
    if h == [] then 0
    else (if lo <= h[|h| - 1] <= hi then 1 else 0) + CountIn(h[..|h| - 1], lo, hi)
  }

  lemma {:induction false} CountInAtMost(h: seq<real>, lo: real, hi: real, from: nat)
    requires from <= |h| && forall i :: 0 <= i < from ==> h[i] < lo
    ensures CountIn(h, lo, hi) <= |h| - from
  {
    if h != [] {
      if from == |h| {
        CountInAtMost(h[..|h| - 1], lo, hi, from - 1);
      } else {
        CountInAtMost(h[..|h| - 1], lo, hi, from);
      }
    }
  }

  /** A spaced history has at most `n` times in any closed interval as long as the window. */
  lemma {:induction false} WindowBound(h: seq<real>, n: nat, window: real, lo: real, hi: real)
    requires Sorted(h) && Spaced(h, n, window) && hi - lo <= window
    ensures CountIn(h, lo, hi) <= n
  {
    if h != [] {
      var last := |h| - 1;
      if h[last] > hi {
        forall i ensures GapAt(h[..last], n, window, i) {
          assert GapAt(h, n, window, i);
        }
        WindowBound(h[..last], n, window, lo, hi);
      } else if |h| > n {
        assert GapAt(h, n, window, last - n);
        CountInAtMost(h, lo, hi, |h| - n);
      } else {
        CountInAtMost(h, lo, hi, 0);
      }
    }
  }

  lemma {:induction false} CountInAll(h: seq<real>, lo: real, hi: real)
    requires forall i :: 0 <= i < |h| ==> lo <= h[i] <= hi
    ensures CountIn(h, lo, hi) == |h|
  {
    if h != [] {
      CountInAll(h[..|h| - 1], lo, hi);
    }
  }

  lemma {:induction false} CountInSuffix(h: seq<real>, k: nat, lo: real, hi: real)
    requires k <= |h|
    ensures CountIn(h[k..], lo, hi) <= CountIn(h, lo, hi)
  {
    if k < |h| {
      CountInSuffix(h[..|h| - 1], k, lo, hi);
      assert h[k..][..|h[k..]| - 1] == h[..|h| - 1][k..];
    }
  }

  /** So a spaced history never has more than `n` live times. */
  lemma {:induction false} LiveBound(h: seq<real>, n: nat, window: real, now: real)
    requires Sorted(h) && Spaced(h, n, window) && (h != [] ==> h[|h| - 1] <= now)
    ensures |Prune(h, now - window)| <= n
  {
    forall i | 0 <= i < |h| ensures h[i] <= now {
      assert h[i] <= h[|h| - 1];
    }
    PruneSplits(h, now - window);
    WindowBound(h, n, window, now - window, now);
    SuffixCount(h, |h| - |Prune(h, now - window)|, now - window, now);
  }

  lemma {:induction false} SuffixCount(h: seq<real>, k: nat, lo: real, hi: real)
    requires k <= |h| && forall i :: k <= i < |h| ==> lo <= h[i] <= hi
    ensures |h| - k <= CountIn(h, lo, hi)
  {
    CountInSuffix(h, k, lo, hi);
    CountInAll(h[k..], lo, hi);
  }
}
