/** The mutable limiter over whole runs in which its second eviction pass finds nothing to do. */
module RateLimitRuns {
  import opened Common
  import opened SlidingWindow
  import opened RateLimit
  import opened RateLimiter

  /** One call of the limiter: the request, the buckets once eviction was done and at the end,
      and the answer. */
  datatype Check = Check(req: Request, evicted: Buckets, after: Buckets, answer: Decision)

  /** What the contract of `CheckRateLimit` says of a call made on the buckets `b`. */
  ghost predicate CheckOk(rules: seq<Rule>, b: Buckets, c: Check) {
    && (if RuleFor(rules, c.req).Some? then AfterEviction(b, c.req.t0, c.evicted) else c.evicted == b)
    && (c.after, c.answer) == Step(rules, c.evicted, c.req, false)
  }

  /** The first pass leaves no more than the map may hold. */
  ghost predicate Calm(rules: seq<Rule>, b: Buckets, c: Check) {
    RuleFor(rules, c.req).Some? ==> |EvictStale(b, c.req.t0)| <= MAX_BUCKETS
  }

  /** A run of calm calls, each on what the one before left. */
  ghost predicate CalmCalls(rules: seq<Rule>, b: Buckets, cs: seq<Check>)
    decreases |cs|
  {
    cs != [] ==> CheckOk(rules, b, cs[0]) && Calm(rules, b, cs[0]) && CalmCalls(rules, cs[0].after, cs[1..])
  }

  function Requests(cs: seq<Check>): (r: seq<Request>)
    ensures |r| == |cs|
  {
    if cs == [] then [] else [cs[0].req] + Requests(cs[1..])
  }

  function Answers(cs: seq<Check>): (r: seq<Decision>)
    ensures |r| == |cs|
  {
    if cs == [] then [] else [cs[0].answer] + Answers(cs[1..])
  }

  /** The mutable limiter answers such a run as the function does that the guarantees are
      about. */
  lemma {:induction false} CalmRun(rules: seq<Rule>, b: Buckets, cs: seq<Check>)
    requires CalmCalls(rules, b, cs)
    ensures Run(rules, b, Requests(cs), true).1 == Answers(cs)
    decreases |cs|
  {
    if cs != [] {
      CalmRun(rules, cs[0].after, cs[1..]);
      assert Requests(cs)[1..] == Requests(cs[1..]);
    }
  }

  /** So its answers are those of the limiter that remembers every admission. */
  lemma {:induction false} LimiterForgetsNothing(rules: seq<Rule>, clock: real, cs: seq<Check>)
    requires SoundRules(rules) && CalmCalls(rules, map[], cs) && ClockOk(clock, Requests(cs))
    ensures Answers(cs) == RefRun(rules, map[], Requests(cs)).1
  {
    CalmRun(rules, map[], cs);
    EvictionUnobservable(rules, clock, Requests(cs));
  }

  /** And it never admits more than a bucket's quota within the bucket's window. */
  lemma {:induction false} LimiterWindowSafety(rules: seq<Rule>, clock: real, cs: seq<Check>, rule: Rule, key: Key,
                                               x: real)
    requires SoundRules(rules) && CalmCalls(rules, map[], cs) && ClockOk(clock, Requests(cs))
    requires rule in rules && BucketOf(rule) == key.bucket
    ensures CountIn(Admissions(rules, Requests(cs), Answers(cs), key), x, x + rule.window) <= rule.maxRequests
  {
    CalmRun(rules, map[], cs);
    WindowSafety(rules, clock, Requests(cs), rule, key, x);
  }
}
