/** The in-memory rate limiter as functions of its bucket map, and the limiter that keeps
    every admission for ever which it must agree with. */
module RateLimit {
  import opened Common
  import opened SlidingWindow

  datatype Rule = Rule(pattern: string, maxRequests: nat, window: real, exact: bool, bucketId: Option<string>)

  datatype Key = Key(bucket: string, caller: string)

  datatype Decision = Allowed | Denied(retryAfter: int)

  type Buckets = map<Key, seq<real>>

  /** A check, with the three clock readings it may take, in order: before eviction, before
      expiry, and for the admission itself. */
  datatype Request = Request(path: string, caller: string, t0: real, t1: real, t2: real)

  const MAX_BUCKETS: nat := 10_000
  const STALE_EVICT_SECONDS: real := 300.0

  predicate Matches(path: string, pattern: string, exact: bool) {
    path == pattern || (!exact && pattern + "/" <= path)
  }

  function BucketOf(rule: Rule): string {
    if rule.bucketId.Some? && rule.bucketId.value != "" then rule.bucketId.value else rule.pattern
  }

  /** The first rule from position `i` on that matches. */
  function FindRule(rules: seq<Rule>, i: nat, path: string): (r: Option<Rule>)
    requires i <= |rules|
    ensures r.Some? ==> r.value in rules && Matches(path, r.value.pattern, r.value.exact)
    decreases |rules| - i
  {
    if i == |rules| then None
    else if Matches(path, rules[i].pattern, rules[i].exact) then Some(rules[i])
    else FindRule(rules, i + 1, path)
  }

  /** The rule found is the first that matches; none is found exactly when none does. */
  lemma {:induction false} FindRuleFirst(rules: seq<Rule>, i: nat, path: string)
    requires i <= |rules|
    ensures FindRule(rules, i, path) == None <==>
              forall j :: i <= j < |rules| ==> !Matches(path, rules[j].pattern, rules[j].exact)
    ensures forall k :: i <= k < |rules| && Matches(path, rules[k].pattern, rules[k].exact)
                        && (forall j :: i <= j < k ==> !Matches(path, rules[j].pattern, rules[j].exact)) ==>
              FindRule(rules, i, path) == Some(rules[k])
    decreases |rules| - i
  {
    if i < |rules| {
      FindRuleFirst(rules, i + 1, path);
    }
  }

  /** A pattern that is not exact matches whole path segments only. */
  lemma {:induction false} MatchesSegments(path: string, pattern: string)
    ensures Matches(path, pattern, false) <==> pattern + "/" <= path + "/"
    ensures Matches(path, pattern, true) <==> path == pattern
  {
    if pattern + "/" <= path + "/" {
      if |pattern| == |path| {
        assert (pattern + "/")[..|pattern|] == (path + "/")[..|pattern|];
      } else {
        assert (path + "/")[..|pattern| + 1] == path[..|pattern| + 1];
      }
    }
    if pattern + "/" <= path {
      assert (path + "/")[..|pattern| + 1] == path[..|pattern| + 1];
    }
  }

  function RuleFor(rules: seq<Rule>, req: Request): Option<Rule> {
    FindRule(rules, 0, req.path)
  }

  function KeyFor(rule: Rule, req: Request): Key {
    Key(BucketOf(rule), req.caller)
  }

  ghost predicate SameQuota(r: Rule, q: Rule) {
    BucketOf(r) == BucketOf(q) ==> r.maxRequests == q.maxRequests && r.window == q.window
  }

  /** Rules that share a bucket share its quota, and no window outlasts the stale cutoff. */
  ghost predicate SoundRules(rules: seq<Rule>) {
    && (forall r :: r in rules ==> r.maxRequests >= 1 && 0.0 < r.window <= STALE_EVICT_SECONDS)
    && (forall r, q {:trigger SameQuota(r, q)} :: r in rules && q in rules ==> SameQuota(r, q))
  }

  function Get(m: Buckets, key: Key): seq<real> {
    if key in m then m[key] else []
  }

  function Ceil(x: real): int {
    -((-x).Floor)
  }

  function RetryAfter(bucket: seq<real>, window: real, now: real): int {
    if bucket == [] then 1 else Max(1, Ceil(window - (now - bucket[0])))
  }

  predicate Stale(bucket: seq<real>, cutoff: real) {
    bucket == [] || bucket[|bucket| - 1] < cutoff
  }

  function DropStale(b: Buckets, cutoff: real): Buckets {
    map k | k in b && !Stale(b[k], cutoff) :: b[k]
  }

  /** First eviction pass: over the cap, forget everything idle for 300 seconds. */
  function EvictStale(b: Buckets, t0: real): Buckets {
    if |b| <= MAX_BUCKETS then b else DropStale(b, t0 - STALE_EVICT_SECONDS)
  }

  /** One check of a limiter that does (`evicting`) or does not run the first pass. */
  function Step(rules: seq<Rule>, b: Buckets, req: Request, evicting: bool): (Buckets, Decision) {
    match RuleFor(rules, req)
    case None => (b, Allowed)
    case Some(rule) =>
      var b1 := if evicting then EvictStale(b, req.t0) else b;
      var key := KeyFor(rule, req);
      var live := Prune(Get(b1, key), req.t1 - rule.window);
      if |live| >= rule.maxRequests then (b1[key := live], Denied(RetryAfter(live, rule.window, req.t2)))
      else (b1[key := live + [req.t2]], Allowed)
  }

  /** One check of the limiter that never forgets an admission. */
  function RefStep(rules: seq<Rule>, h: Buckets, req: Request): (Buckets, Decision) {
    match RuleFor(rules, req)
    case None => (h, Allowed)
    case Some(rule) =>
      var key := KeyFor(rule, req);
      var live := Prune(Get(h, key), req.t1 - rule.window);
      if |live| >= rule.maxRequests then (h, Denied(RetryAfter(live, rule.window, req.t2)))
      else (h[key := Get(h, key) + [req.t2]], Allowed)
  }

  /** The clock is monotone within a check and from one check to the next. */
  ghost predicate Ticks(clock: real, req: Request) {
    clock <= req.t0 <= req.t1 <= req.t2
  }

  ghost predicate ClockOk(clock: real, reqs: seq<Request>)
    decreases |reqs|
  {
    reqs != [] ==> Ticks(clock, reqs[0]) && ClockOk(reqs[0].t2, reqs[1..])
  }

  function Run(rules: seq<Rule>, b: Buckets, reqs: seq<Request>, evicting: bool): (r: (Buckets, seq<Decision>))
    ensures |r.1| == |reqs|
    decreases |reqs|
  {
    if reqs == [] then (b, [])
    else
      var (b1, d) := Step(rules, b, reqs[0], evicting);
      var (b2, ds) := Run(rules, b1, reqs[1..], evicting);
      (b2, [d] + ds)
  }

  function RefRun(rules: seq<Rule>, h: Buckets, reqs: seq<Request>): (r: (Buckets, seq<Decision>))
    ensures |r.1| == |reqs|
    decreases |reqs|
  {
    if reqs == [] then (h, [])
    else
      var (h1, d) := RefStep(rules, h, reqs[0]);
      var (h2, ds) := RefRun(rules, h1, reqs[1..]);
      (h2, [d] + ds)
  }

  /** What holds of one bucket and of all admissions ever made to it. */
  ghost predicate KeyInv(rule: Rule, bucket: seq<real>, history: seq<real>, clock: real) {
    && Sorted(history) && (history != [] ==> history[|history| - 1] <= clock)
    && Spaced(history, rule.maxRequests, rule.window)
    && Remains(bucket, history, clock - rule.window)
  }

  ghost predicate InvAt(rules: seq<Rule>, b: Buckets, h: Buckets, clock: real, rule: Rule, key: Key) {
    rule in rules && BucketOf(rule) == key.bucket ==> KeyInv(rule, Get(b, key), Get(h, key), clock)
  }

  /** Every bucket is what pruning has left of its history. */
  ghost predicate Inv(rules: seq<Rule>, b: Buckets, h: Buckets, clock: real) {
    forall rule, key :: InvAt(rules, b, h, clock, rule, key)
  }

  lemma {:induction false} KeyInvLater(rule: Rule, bucket: seq<real>, history: seq<real>, clock: real, later: real)
    requires KeyInv(rule, bucket, history, clock) && clock <= later
    ensures KeyInv(rule, bucket, history, later)
  {
  }

  /** A bucket idle for 300 seconds may go: all it holds has expired for every rule. */
  lemma {:induction false} KeyInvForgets(rule: Rule, bucket: seq<real>, history: seq<real>, clock: real, t0: real)
    requires KeyInv(rule, bucket, history, clock) && clock <= t0 && rule.window <= STALE_EVICT_SECONDS
    requires Stale(bucket, t0 - STALE_EVICT_SECONDS)
    ensures KeyInv(rule, [], history, t0)
  {
    forall i | 0 <= i < |history| ensures history[i] < t0 - rule.window {
      if i >= |history| - |bucket| {
        assert history[|history| - 1] == bucket[|bucket| - 1];
        assert i < |history| - 1 ==> history[i] <= history[|history| - 1];
      }
    }
  }

  lemma {:induction false} EvictKeepsInv(rules: seq<Rule>, b: Buckets, h: Buckets, clock: real, t0: real)
    requires SoundRules(rules) && Inv(rules, b, h, clock) && clock <= t0
    ensures Inv(rules, EvictStale(b, t0), h, t0)
  {
    var b1 := EvictStale(b, t0);
    forall rule, key ensures InvAt(rules, b1, h, t0, rule, key) {
      assert InvAt(rules, b, h, clock, rule, key);
      if rule in rules && BucketOf(rule) == key.bucket {
        if Get(b1, key) == Get(b, key) {
          KeyInvLater(rule, Get(b, key), Get(h, key), clock, t0);
        } else {
          KeyInvForgets(rule, Get(b, key), Get(h, key), clock, t0);
        }
      }
    }
  }

  /** The check of one bucket: the same decision from the bucket and from its history. */
  lemma {:induction false} KeyStep(rule: Rule, bucket: seq<real>, history: seq<real>, clock: real, t1: real, t2: real)
    requires KeyInv(rule, bucket, history, clock) && clock <= t1 <= t2
    ensures Prune(bucket, t1 - rule.window) == Prune(history, t1 - rule.window)
    ensures KeyInv(rule, Prune(bucket, t1 - rule.window), history, t2)
    ensures |Prune(history, t1 - rule.window)| < rule.maxRequests ==>
              KeyInv(rule, Prune(bucket, t1 - rule.window) + [t2], history + [t2], t2)
  {
    var cutoff := t1 - rule.window;
    var live := Prune(history, cutoff);
    PruneForgets(bucket, history, clock - rule.window, cutoff);
    PruneRemains(history, cutoff);
    if |live| < rule.maxRequests {
      AdmitSpaced(history, rule.maxRequests, rule.window, cutoff, t2);
    }
  }

  lemma {:induction false} InvLater(rules: seq<Rule>, b: Buckets, h: Buckets, clock: real, later: real)
    requires Inv(rules, b, h, clock) && clock <= later
    ensures Inv(rules, b, h, later)
  {
    forall rule, key ensures InvAt(rules, b, h, later, rule, key) {
      assert InvAt(rules, b, h, clock, rule, key);
      if rule in rules && BucketOf(rule) == key.bucket {
        KeyInvLater(rule, Get(b, key), Get(h, key), clock, later);
      }
    }
  }

  /** Changing one bucket and its history together. */
  lemma {:induction false} InvUpdate(rules: seq<Rule>, b: Buckets, h: Buckets, clock: real, rule: Rule, key: Key,
                                     bucket: seq<real>, history: seq<real>, now: real)
    requires SoundRules(rules) && Inv(rules, b, h, clock) && clock <= now
    requires rule in rules && BucketOf(rule) == key.bucket && KeyInv(rule, bucket, history, now)
    ensures Inv(rules, b[key := bucket], h[key := history], now)
  {
    var b2, h2 := b[key := bucket], h[key := history];
    forall r, k ensures InvAt(rules, b2, h2, now, r, k) {
      if r in rules && BucketOf(r) == k.bucket {
        if k == key {
          assert SameQuota(r, rule);
        } else {
          assert InvAt(rules, b, h, clock, r, k);
          OtherKey(r, b, h, clock, key, k, bucket, history, now);
        }
      }
    }
  }

  lemma {:induction false} OtherKey(rule: Rule, b: Buckets, h: Buckets, clock: real, key: Key, k: Key,
                                    bucket: seq<real>, history: seq<real>, now: real)
    requires k != key && KeyInv(rule, Get(b, k), Get(h, k), clock) && clock <= now
    ensures KeyInv(rule, Get(b[key := bucket], k), Get(h[key := history], k), now)
  {
    KeyInvLater(rule, Get(b, k), Get(h, k), clock, now);
  }

  /** One check by a known rule, eviction done. */
  lemma {:induction false} RuleRefines(rules: seq<Rule>, b: Buckets, h: Buckets, clock: real, rule: Rule, key: Key,
                                       t1: real, t2: real)
    requires SoundRules(rules) && Inv(rules, b, h, clock) && clock <= t1 <= t2
    requires rule in rules && BucketOf(rule) == key.bucket
    ensures var live := Prune(Get(b, key), t1 - rule.window);
            && live == Prune(Get(h, key), t1 - rule.window)
            && Inv(rules, b[key := live], h, t2)
            && (|live| < rule.maxRequests ==> Inv(rules, b[key := live + [t2]], h[key := Get(h, key) + [t2]], t2))
  {
    assert InvAt(rules, b, h, clock, rule, key);
    KeyStep(rule, Get(b, key), Get(h, key), clock, t1, t2);
    var live := Prune(Get(b, key), t1 - rule.window);
    InvUpdate(rules, b, h, clock, rule, key, live, Get(h, key), t2);
    SameHistory(rules, b[key := live], h, key, t2);
    if |live| < rule.maxRequests {
      InvUpdate(rules, b, h, clock, rule, key, live + [t2], Get(h, key) + [t2], t2);
    }
  }

  lemma {:induction false} SameHistory(rules: seq<Rule>, b: Buckets, h: Buckets, key: Key, now: real)
    requires Inv(rules, b, h[key := Get(h, key)], now)
    ensures Inv(rules, b, h, now)
  {
    forall r, k ensures InvAt(rules, b, h, now, r, k) {
      assert InvAt(rules, b, h[key := Get(h, key)], now, r, k);
    }
  }

  /** One check: the same decision, and the invariant again. */
  lemma {:induction false} StepRefines(rules: seq<Rule>, b: Buckets, h: Buckets, clock: real, req: Request,
                                       evicting: bool)
    requires SoundRules(rules) && Inv(rules, b, h, clock) && Ticks(clock, req)
    ensures Step(rules, b, req, evicting).1 == RefStep(rules, h, req).1
    ensures Inv(rules, Step(rules, b, req, evicting).0, RefStep(rules, h, req).0, req.t2)
  {
    match RuleFor(rules, req)
    case None =>
      InvLater(rules, b, h, clock, req.t2);
    case Some(rule) =>
      if evicting {
        EvictKeepsInv(rules, b, h, clock, req.t0);
      } else {
        InvLater(rules, b, h, clock, req.t0);
      }
      var b1 := if evicting then EvictStale(b, req.t0) else b;
      RuleRefines(rules, b1, h, req.t0, rule, KeyFor(rule, req), req.t1, req.t2);
  }

  lemma {:induction false} RunRefines(rules: seq<Rule>, b: Buckets, h: Buckets, clock: real, reqs: seq<Request>,
                                      evicting: bool) returns (end: real)
    requires SoundRules(rules) && Inv(rules, b, h, clock) && ClockOk(clock, reqs)
    ensures Run(rules, b, reqs, evicting).1 == RefRun(rules, h, reqs).1
    ensures clock <= end && Inv(rules, Run(rules, b, reqs, evicting).0, RefRun(rules, h, reqs).0, end)
    decreases |reqs|
  {
    if reqs == [] {
      end := clock;
    } else {
      StepRefines(rules, b, h, clock, reqs[0], evicting);
      end := RunRefines(rules, Step(rules, b, reqs[0], evicting).0, RefStep(rules, h, reqs[0]).0,
                        reqs[0].t2, reqs[1..], evicting);
    }
  }

  lemma {:induction false} EmptyInv(rules: seq<Rule>, clock: real)
    ensures Inv(rules, map[], map[], clock)
  {
    forall rule, key ensures InvAt(rules, map[], map[], clock, rule, key) {
    }
  }

  /** Forgetting stale buckets is never visible in an answer: from an empty map, every run
      gets the answers of the limiter that never evicts, and both those of the limiter that
      remembers every admission. */
  lemma {:induction false} EvictionUnobservable(rules: seq<Rule>, clock: real, reqs: seq<Request>)
    requires SoundRules(rules) && ClockOk(clock, reqs)
    ensures Run(rules, map[], reqs, true).1 == Run(rules, map[], reqs, false).1 == RefRun(rules, map[], reqs).1
  {
    EmptyInv(rules, clock);
    var _ := RunRefines(rules, map[], map[], clock, reqs, true);
    var _ := RunRefines(rules, map[], map[], clock, reqs, false);
  }

  // ----- The window guarantee -----

  /** When a run admitted requests to one bucket, read off its answers. */
  function Admissions(rules: seq<Rule>, reqs: seq<Request>, ds: seq<Decision>, key: Key): seq<real>
    requires |ds| == |reqs|
    decreases |reqs|
  {
    if reqs == [] then []
    else
      var rule := RuleFor(rules, reqs[0]);
      var rest := Admissions(rules, reqs[1..], ds[1..], key);
      if rule.Some? && KeyFor(rule.value, reqs[0]) == key && ds[0].Allowed? then [reqs[0].t2] + rest else rest
  }

  lemma {:induction false} HistoryIsAdmissions(rules: seq<Rule>, h: Buckets, reqs: seq<Request>, key: Key)
    ensures var (h2, ds) := RefRun(rules, h, reqs);
            Get(h2, key) == Get(h, key) + Admissions(rules, reqs, ds, key)
    decreases |reqs|
  {
    if reqs != [] {
      var (h1, d) := RefStep(rules, h, reqs[0]);
      HistoryIsAdmissions(rules, h1, reqs[1..], key);
      assert ([d] + RefRun(rules, h1, reqs[1..]).1)[1..] == RefRun(rules, h1, reqs[1..]).1;
    }
  }

  /** In every run, any closed interval of a bucket's window holds at most its quota of
      admissions, over all the paths that share the bucket. */
  lemma {:induction false} WindowSafety(rules: seq<Rule>, clock: real, reqs: seq<Request>, rule: Rule, key: Key,
                                        x: real)
    requires SoundRules(rules) && ClockOk(clock, reqs) && rule in rules && BucketOf(rule) == key.bucket
    ensures var admitted := Admissions(rules, reqs, Run(rules, map[], reqs, true).1, key);
            CountIn(admitted, x, x + rule.window) <= rule.maxRequests
  {
    EmptyInv(rules, clock);
    var end := RunRefines(rules, map[], map[], clock, reqs, true);
    HistoryIsAdmissions(rules, map[], reqs, key);
    var h := RefRun(rules, map[], reqs).0;
    assert InvAt(rules, Run(rules, map[], reqs, true).0, h, end, rule, key);
    assert Get(h, key) == Admissions(rules, reqs, RefRun(rules, map[], reqs).1, key);
    WindowBound(Get(h, key), rule.maxRequests, rule.window, x, x + rule.window);
  }
}
