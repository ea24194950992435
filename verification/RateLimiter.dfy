/** Retry-After, the mutable limiter with its bounded map, and the table it is run with. */
module RateLimiter {
  import opened Common
  import opened SlidingWindow
  import opened RateLimit

  // ----- Retry-After -----

  lemma {:induction false} CeilBounds(x: real)
    ensures x <= Ceil(x) as real < x + 1.0
  {
  }

  /** The announced delay lies between one second and the window; a check of the unchanged
      bucket strictly after it is let through; and a delay above one second is not too
      long by a whole second. */
  lemma {:induction false} RetryAfterHistory(rule: Rule, h: seq<real>, t1: real, t2: real, again: real)
    requires Sorted(h) && (h != [] ==> h[|h| - 1] <= t1) && t1 <= t2 && t1 <= again
    requires Spaced(h, rule.maxRequests, rule.window) && rule.maxRequests >= 1 && rule.window > 0.0
    requires |Prune(h, t1 - rule.window)| >= rule.maxRequests
    ensures var r := RetryAfter(Prune(h, t1 - rule.window), rule.window, t2);
            && 1 <= r <= Ceil(rule.window)
            && (again > t2 + r as real ==> |Prune(h, again - rule.window)| < rule.maxRequests)
            && (r > 1 && again <= t2 + (r - 1) as real ==> |Prune(h, again - rule.window)| >= rule.maxRequests)
  {
    var live := Prune(h, t1 - rule.window);
    var k := |h| - |live|;
    PruneSplits(h, t1 - rule.window);
    PruneSplits(h, again - rule.window);
    PruneIsSuffix(h, t1 - rule.window);
    LiveBound(h, rule.maxRequests, rule.window, t1);
    assert live[0] == h[k] && h[k] <= h[|h| - 1];
    var remaining := rule.window - (t2 - live[0]);
    CeilBounds(remaining);
    CeilBounds(rule.window);
  }

  /** On any reachable limiter: a caller that waits as told and whose bucket admits nobody
      else meanwhile is let through. */
  lemma {:induction false} RetryAfterHonest(rules: seq<Rule>, b: Buckets, h: Buckets, clock: real, req: Request,
                                            mid: seq<Request>, again: Request)
    requires SoundRules(rules) && Inv(rules, b, h, clock) && Ticks(clock, req)
    requires RuleFor(rules, req).Some? && RuleFor(rules, again).Some?
    requires KeyFor(RuleFor(rules, again).value, again) == KeyFor(RuleFor(rules, req).value, req)
    requires Step(rules, b, req, true).1.Denied?
    requires ClockOk(req.t2, mid + [again])
    requires var (b2, ds) := Run(rules, Step(rules, b, req, true).0, mid, true);
             Admissions(rules, mid, ds, KeyFor(RuleFor(rules, req).value, req)) == []
    ensures var r := Step(rules, b, req, true).1.retryAfter;
            var b2 := Run(rules, Step(rules, b, req, true).0, mid, true).0;
            && 1 <= r <= Ceil(RuleFor(rules, req).value.window)
            && (again.t1 > req.t2 + r as real ==> Step(rules, b2, again, true).1 == Allowed)
            && (r > 1 && again.t1 <= req.t2 + (r - 1) as real ==> Step(rules, b2, again, true).1.Denied?)
  {
    var rule, key := RuleFor(rules, req).value, KeyFor(RuleFor(rules, req).value, req);
    var b1, h1 := Step(rules, b, req, true).0, RefStep(rules, h, req).0;
    StepRefines(rules, b, h, clock, req, true);
    ClockSplit(req.t2, mid, again);
    var end := RunRefines(rules, b1, h1, req.t2, mid, true);
    HistoryIsAdmissions(rules, h1, mid, key);
    var b2, h2 := Run(rules, b1, mid, true).0, RefRun(rules, h1, mid).0;
    var last := if mid == [] then req.t2 else mid[|mid| - 1].t2;
    RunEnd(rules, b1, h1, req.t2, mid);
    StepRefines(rules, b2, h2, last, again, true);
    assert Get(h2, key) == Get(h, key);
    assert InvAt(rules, b, h, clock, rule, key);
    assert SameQuota(RuleFor(rules, again).value, rule);
    var hist := Get(h, key);
    assert hist != [] ==> hist[|hist| - 1] <= clock;
    RetryAfterHistory(rule, hist, req.t1, req.t2, again.t1);
  }

  lemma {:induction false} ClockSplit(clock: real, mid: seq<Request>, again: Request)
    requires ClockOk(clock, mid + [again])
    ensures ClockOk(clock, mid) && Ticks(if mid == [] then clock else mid[|mid| - 1].t2, again)
    ensures clock <= again.t1
    decreases |mid|
  {
    if mid != [] {
      assert (mid + [again])[1..] == mid[1..] + [again];
      ClockSplit(mid[0].t2, mid[1..], again);
    }
  }

  lemma {:induction false} RunEnd(rules: seq<Rule>, b: Buckets, h: Buckets, clock: real, reqs: seq<Request>)
    requires SoundRules(rules) && Inv(rules, b, h, clock) && ClockOk(clock, reqs)
    ensures Inv(rules, Run(rules, b, reqs, true).0, RefRun(rules, h, reqs).0,
                if reqs == [] then clock else reqs[|reqs| - 1].t2)
    decreases |reqs|
  {
    if reqs != [] {
      StepRefines(rules, b, h, clock, reqs[0], true);
      RunEnd(rules, Step(rules, b, reqs[0], true).0, RefStep(rules, h, reqs[0]).0, reqs[0].t2, reqs[1..]);
    }
  }

  // ----- The mutable limiter -----

  function LastSeen(bucket: seq<real>): real {
    if bucket == [] then 0.0 else bucket[|bucket| - 1]
  }

  /** The second eviction pass: a quarter of the buckets goes, none of them seen later than
      one that stays, and what stays is untouched. */
  ghost predicate Survivors(b: Buckets, kept: Buckets) {
    && kept.Keys <= b.Keys && (forall k :: k in kept ==> kept[k] == b[k])
    && |kept| == |b| - Max(1, |b| / 4)
    && forall v, k :: v in b && v !in kept && k in kept ==> LastSeen(b[v]) <= LastSeen(b[k])
  }

  ghost predicate AfterEviction(b: Buckets, t0: real, kept: Buckets) {
    var first := EvictStale(b, t0);
    if |first| <= MAX_BUCKETS then kept == first else Survivors(first, kept)
  }

  lemma {:induction false} OldestExists(b: Buckets, keys: set<Key>)
    requires keys != {} && keys <= b.Keys
    ensures exists k :: k in keys && forall j :: j in keys ==> LastSeen(b[k]) <= LastSeen(b[j])
    decreases |keys|
  {
    var k :| k in keys;
    if keys == {k} {
      assert forall j :: j in keys ==> LastSeen(b[k]) <= LastSeen(b[j]);
    } else {
      OldestExists(b, keys - {k});
      var m :| m in keys - {k} && forall j :: j in keys - {k} ==> LastSeen(b[m]) <= LastSeen(b[j]);
      var best := if LastSeen(b[k]) <= LastSeen(b[m]) then k else m;
      assert best in keys && forall j :: j in keys ==> LastSeen(b[best]) <= LastSeen(b[j]);
    }
  }

  class Limiter {
    const rules: seq<Rule>
    var buckets: Buckets

    constructor (rules: seq<Rule>)
      ensures this.rules == rules && buckets == map[] && Bounded()
    {
      this.rules := rules;
      buckets := map[];
    }

    ghost predicate Bounded()
      reads this
    {
      |buckets| <= MAX_BUCKETS + 1
    }

    /** Drop idle buckets, and if that is not enough the quarter seen longest ago. */
    method EvictStaleBuckets(t0: real)
      modifies this`buckets
      ensures AfterEviction(old(buckets), t0, buckets)
      ensures old(Bounded()) ==> |buckets| <= MAX_BUCKETS
    {
      if |buckets| <= MAX_BUCKETS {
        return;
      }
      var cutoff := t0 - STALE_EVICT_SECONDS;
      var staleKeys := set k | k in buckets && Stale(buckets[k], cutoff);
      buckets := buckets - staleKeys;
      assert buckets == DropStale(old(buckets), cutoff);
      SubsetSize(buckets.Keys, old(buckets).Keys);
      if |buckets| > MAX_BUCKETS {
        EvictOldest(Max(1, |buckets| / 4));
      }
    }

    method EvictOldest(n: nat)
      requires n == Max(1, |buckets| / 4) <= |buckets|
      modifies this`buckets
      ensures Survivors(old(buckets), buckets)
    {
      ghost var b := buckets;
      for i := 0 to n
        invariant buckets.Keys <= b.Keys && forall k :: k in buckets ==> buckets[k] == b[k]
        invariant |buckets| == |b| - i
        invariant forall v, k :: v in b && v !in buckets && k in buckets ==> LastSeen(b[v]) <= LastSeen(b[k])
      {
        OldestExists(buckets, buckets.Keys);
        var victim :| victim in buckets && forall j :: j in buckets ==>
          LastSeen(buckets[victim]) <= LastSeen(buckets[j]);
        ghost var before := buckets;
        buckets := buckets - {victim};
        assert buckets.Keys == before.Keys - {victim};
        assert |buckets.Keys| == |buckets| && |before.Keys| == |before|;
      }
    }

    /** The first matching rule decides; the rest of the table is not looked at. */
    method CheckRateLimit(req: Request) returns (d: Decision, ghost evicted: Buckets)
      requires Bounded()
      modifies this`buckets
      ensures Bounded()
      ensures if RuleFor(rules, req).Some? then AfterEviction(old(buckets), req.t0, evicted)
              else evicted == old(buckets)
      ensures (buckets, d) == Step(rules, evicted, req, false)
    {
      for i := 0 to |rules|
        invariant FindRule(rules, i, req.path) == RuleFor(rules, req)
        invariant buckets == old(buckets)
      {
        var rule := rules[i];
        if !Matches(req.path, rule.pattern, rule.exact) {
          continue;
        }
        d, evicted := CheckRule(rule, req);
        return d, evicted;
      }
      return Allowed, buckets;
    }

    method CheckRule(rule: Rule, req: Request) returns (d: Decision, ghost evicted: Buckets)
      requires Bounded() && RuleFor(rules, req) == Some(rule)
      modifies this`buckets
      ensures Bounded() && AfterEviction(old(buckets), req.t0, evicted)
      ensures (buckets, d) == Step(rules, evicted, req, false)
    {
      EvictStaleBuckets(req.t0);
      evicted := buckets;
      var key := Key(BucketOf(rule), req.caller);
      var bucket := if key in buckets then buckets[key] else [];
      bucket := PruneLoop(bucket, req.t1 - rule.window);
      if |bucket| >= rule.maxRequests {
        buckets := buckets[key := bucket];
        return Denied(RetryAfter(bucket, rule.window, req.t2)), evicted;
      }
      buckets := buckets[key := bucket + [req.t2]];
      return Allowed, evicted;
    }
  }
}
