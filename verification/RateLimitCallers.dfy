/** What the limiter answers, said of the requests and the earlier answers alone, and that
    callers do not touch each other's quota. */
module RateLimitCallers {
  import opened Common
  import opened SlidingWindow
  import opened RateLimit
  import opened RateLimiter
  import opened RateLimitRuns

  /** Two rules count together: they name the same bucket, by bucket id where one is given. */
  ghost predicate CountTogether(r: Rule, q: Rule) {
    (match r.bucketId case Some(id) => (if id == "" then r.pattern else id) case None => r.pattern) ==
    (match q.bucketId case Some(id) => (if id == "" then q.pattern else id) case None => q.pattern)
  }

  /** The first rule that matches the path, said of the table. */
  ghost predicate Applies(rules: seq<Rule>, rule: Rule, path: string) {
    exists i :: 0 <= i < |rules| && rules[i] == rule && FirstMatch(rules, i, path)
  }

  ghost predicate Covers(rule: Rule, path: string) {
    path == rule.pattern || (!rule.exact && |path| > |rule.pattern| && path[..|rule.pattern|] == rule.pattern
                             && path[|rule.pattern|] == '/')
  }

  ghost predicate FirstMatch(rules: seq<Rule>, i: int, path: string) {
    0 <= i < |rules| && Covers(rules[i], path) && forall j :: 0 <= j < i ==> !Covers(rules[j], path)
  }

  lemma {:induction false} CoversIs(rule: Rule, path: string)
    ensures Matches(path, rule.pattern, rule.exact) <==> Covers(rule, path)
  {
    var n := |rule.pattern|;
    if |path| > n && path[..n] == rule.pattern && path[n] == '/' {
      assert path[..n + 1] == path[..n] + "/";
    }
    if rule.pattern + "/" <= path {
      assert path[..n + 1] == rule.pattern + "/";
      assert path[..n] == path[..n + 1][..n];
    }
  }

  lemma {:induction false} RuleForIs(rules: seq<Rule>, req: Request, rule: Rule)
    ensures RuleFor(rules, req) == Some(rule) <==> Applies(rules, rule, req.path)
    ensures RuleFor(rules, req) == None <==> forall r :: r in rules ==> !Covers(r, req.path)
  {
    FindRuleFirst(rules, 0, req.path);
    forall i | 0 <= i < |rules|
      ensures Matches(req.path, rules[i].pattern, rules[i].exact) <==> Covers(rules[i], req.path)
    {
      CoversIs(rules[i], req.path);
    }
    if r :| r in rules && Covers(r, req.path) {
      var i :| 0 <= i < |rules| && rules[i] == r;
      FirstExists(rules, i, req.path);
    }
  }

  lemma {:induction false} FirstExists(rules: seq<Rule>, i: nat, path: string)
    requires i < |rules| && Covers(rules[i], path)
    ensures exists k :: 0 <= k <= i && FirstMatch(rules, k, path)
  {
    if j :| 0 <= j < i && Covers(rules[j], path) {
      FirstExists(rules, j, path);
    } else {
      assert FirstMatch(rules, i, path);
    }
  }

  /** How many of the requests so far were admitted to the caller, by a rule counted together
      with this one, no earlier than `since`. */
  ghost function Counted(rules: seq<Rule>, reqs: seq<Request>, ds: seq<Decision>, rule: Rule, caller: string,
                         since: real): nat
    requires |ds| == |reqs|
    decreases |reqs|
  {
    if reqs == [] then 0
    else
      (if CountsFor(rules, reqs[0], ds[0], rule, caller) && reqs[0].t2 >= since then 1 else 0)
      + Counted(rules, reqs[1..], ds[1..], rule, caller, since)
  }

  ghost predicate CountsFor(rules: seq<Rule>, req: Request, d: Decision, rule: Rule, caller: string) {
    d == Allowed && req.caller == caller
    && exists q :: q in rules && Applies(rules, q, req.path) && CountTogether(q, rule)
  }

  function CountFrom(h: seq<real>, since: real): nat {
    if h == [] then 0 else (if h[0] >= since then 1 else 0) + CountFrom(h[1..], since)
  }

  /** In a sorted bucket pruning leaves exactly the times from the cutoff on. */
  lemma {:induction false} PruneCounts(h: seq<real>, cutoff: real)
    requires Sorted(h)
    ensures |Prune(h, cutoff)| == CountFrom(h, cutoff)
  {
    if h != [] {
      PruneCounts(h[1..], cutoff);
      if h[0] >= cutoff && |h| > 1 {
        assert h[1] >= h[0];
        assert Prune(h[1..], cutoff) == h[1..];
      }
    }
  }

  lemma {:induction false} CountsForIs(rules: seq<Rule>, req: Request, d: Decision, rule: Rule, caller: string)
    ensures CountsFor(rules, req, d, rule, caller) <==>
            var q := RuleFor(rules, req);
            q.Some? && KeyFor(q.value, req) == Key(BucketOf(rule), caller) && d.Allowed?
  {
    var q := RuleFor(rules, req);
    if q.Some? {
      RuleForIs(rules, req, q.value);
    }
    if q' :| q' in rules && Applies(rules, q', req.path) && CountTogether(q', rule) {
      RuleForIs(rules, req, q');
    }
  }

  lemma {:induction false} CountedIs(rules: seq<Rule>, reqs: seq<Request>, ds: seq<Decision>, rule: Rule,
                                     caller: string, since: real)
    requires |ds| == |reqs|
    ensures Counted(rules, reqs, ds, rule, caller, since) ==
            CountFrom(Admissions(rules, reqs, ds, Key(BucketOf(rule), caller)), since)
    decreases |reqs|
  {
    if reqs != [] {
      CountsForIs(rules, reqs[0], ds[0], rule, caller);
      CountedIs(rules, reqs[1..], ds[1..], rule, caller, since);
      var rest := Admissions(rules, reqs[1..], ds[1..], Key(BucketOf(rule), caller));
      assert ([reqs[0].t2] + rest)[1..] == rest;
    }
  }

  lemma {:induction false} ClockPrefix(clock: real, reqs: seq<Request>, n: nat)
    requires ClockOk(clock, reqs) && n <= |reqs|
    ensures ClockOk(clock, reqs[..n])
    decreases n
  {
    if n > 0 {
      ClockPrefix(reqs[0].t2, reqs[1..], n - 1);
      assert reqs[..n][1..] == reqs[1..][..n - 1];
    }
  }

  /** An answer depends on what came before alone. */
  lemma {:induction false} RefRunAt(rules: seq<Rule>, h: Buckets, reqs: seq<Request>, n: nat)
    requires n < |reqs|
    ensures var before := RefRun(rules, h, reqs[..n]);
            && before.1 == RefRun(rules, h, reqs).1[..n]
            && RefRun(rules, h, reqs).1[n] == RefStep(rules, before.0, reqs[n]).1
    decreases n
  {
    if n > 0 {
      var h1 := RefStep(rules, h, reqs[0]).0;
      RefRunAt(rules, h1, reqs[1..], n - 1);
      assert reqs[..n][1..] == reqs[1..][..n - 1];
    }
  }

  lemma {:induction false} HistorySorted(rules: seq<Rule>, clock: real, reqs: seq<Request>, rule: Rule, key: Key)
    requires SoundRules(rules) && ClockOk(clock, reqs) && rule in rules && BucketOf(rule) == key.bucket
    ensures Sorted(Get(RefRun(rules, map[], reqs).0, key))
  {
    EmptyInv(rules, clock);
    var end := RunRefines(rules, map[], map[], clock, reqs, true);
    assert InvAt(rules, Run(rules, map[], reqs, true).0, RefRun(rules, map[], reqs).0, end, rule, key);
  }

  lemma {:induction false} RefAnswerIs(rules: seq<Rule>, clock: real, reqs: seq<Request>, n: nat, rule: Rule)
    requires SoundRules(rules) && ClockOk(clock, reqs) && n < |reqs| && Applies(rules, rule, reqs[n].path)
    ensures var ds := RefRun(rules, map[], reqs).1;
            ds[n] == Allowed <==> Counted(rules, reqs[..n], ds[..n], rule, reqs[n].caller, reqs[n].t1 - rule.window)
                                  < rule.maxRequests
  {
    var before, req, since := reqs[..n], reqs[n], reqs[n].t1 - rule.window;
    var key := Key(BucketOf(rule), req.caller);
    RuleForIs(rules, req, rule);
    RefRunAt(rules, map[], reqs, n);
    ClockPrefix(clock, reqs, n);
    HistorySorted(rules, clock, before, rule, key);
    HistoryIsAdmissions(rules, map[], before, key);
    var h := RefRun(rules, map[], before).0;
    assert Get(h, key) == Admissions(rules, before, RefRun(rules, map[], before).1, key);
    PruneCounts(Get(h, key), since);
    CountedIs(rules, before, RefRun(rules, map[], before).1, rule, req.caller, since);
  }

  /** In every run a request is let through exactly when no rule covers its path, or fewer of
      the caller's own requests than the rule allows were admitted within the window, over the
      rules counted together. */
  lemma {:induction false} AnswerIs(rules: seq<Rule>, clock: real, reqs: seq<Request>, evicting: bool, n: nat)
    requires SoundRules(rules) && ClockOk(clock, reqs) && n < |reqs|
    ensures var ds, req := Run(rules, map[], reqs, evicting).1, reqs[n];
            ds[n] == Allowed <==>
            forall rule :: Applies(rules, rule, req.path) ==>
              Counted(rules, reqs[..n], ds[..n], rule, req.caller, req.t1 - rule.window) < rule.maxRequests
  {
    EvictionUnobservable(rules, clock, reqs);
    match RuleFor(rules, reqs[n]) {
      case Some(rule) =>
        RuleForIs(rules, reqs[n], rule);
        RefAnswerIs(rules, clock, reqs, n, rule);
        forall q | Applies(rules, q, reqs[n].path) ensures q == rule {
          RuleForIs(rules, reqs[n], q);
        }
      case None =>
        RefRunAt(rules, map[], reqs, n);
        forall q ensures !Applies(rules, q, reqs[n].path) {
          RuleForIs(rules, reqs[n], q);
        }
    }
  }

  // ----- One caller and the others -----

  function OfCaller(reqs: seq<Request>, caller: string): seq<Request> {
    if reqs == [] then [] else Cat(if reqs[0].caller == caller then [reqs[0]] else [], OfCaller(reqs[1..], caller))
  }

  /** The answers given to the caller, in order. */
  function AnswersTo(reqs: seq<Request>, ds: seq<Decision>, caller: string): seq<Decision>
    requires |ds| == |reqs|
    decreases |reqs|
  {
    if reqs == [] then []
    else Cat(if reqs[0].caller == caller then [ds[0]] else [], AnswersTo(reqs[1..], ds[1..], caller))
  }

  ghost predicate SameAt(h: Buckets, g: Buckets, key: Key) {
    Get(h, key) == Get(g, key)
  }

  ghost predicate SameFor(h: Buckets, g: Buckets, caller: string) {
    forall key: Key :: key.caller == caller ==> SameAt(h, g, key)
  }

  /** A check looks at, and changes, the caller's own buckets only. */
  lemma {:induction false} RefStepApart(rules: seq<Rule>, h: Buckets, g: Buckets, req: Request, caller: string)
    requires SameFor(h, g, caller)
    ensures req.caller != caller ==> SameFor(RefStep(rules, h, req).0, g, caller)
    ensures req.caller == caller ==> SameFor(RefStep(rules, h, req).0, RefStep(rules, g, req).0, caller)
                                     && RefStep(rules, h, req).1 == RefStep(rules, g, req).1
  {
    var h1, g1 := RefStep(rules, h, req).0, RefStep(rules, g, req).0;
    var rule := RuleFor(rules, req);
    assert rule.Some? && req.caller == caller ==> SameAt(h, g, KeyFor(rule.value, req));
    forall key: Key | key.caller == caller
      ensures if req.caller == caller then SameAt(h1, g1, key) else SameAt(h1, g, key)
    {
      assert SameAt(h, g, key);
    }
  }

  lemma {:induction false} RefRunApart(rules: seq<Rule>, h: Buckets, g: Buckets, reqs: seq<Request>, caller: string)
    requires SameFor(h, g, caller)
    ensures AnswersTo(reqs, RefRun(rules, h, reqs).1, caller) == RefRun(rules, g, OfCaller(reqs, caller)).1
    decreases |reqs|
  {
    if reqs != [] {
      var h1 := RefStep(rules, h, reqs[0]).0;
      RefStepApart(rules, h, g, reqs[0], caller);
      assert RefRun(rules, h, reqs).1[1..] == RefRun(rules, h1, reqs[1..]).1;
      if reqs[0].caller == caller {
        var own := OfCaller(reqs, caller);
        assert own[0] == reqs[0] && own[1..] == OfCaller(reqs[1..], caller);
        RefRunApart(rules, h1, RefStep(rules, g, reqs[0]).0, reqs[1..], caller);
      } else {
        RefRunApart(rules, h1, g, reqs[1..], caller);
      }
    }
  }

  lemma {:induction false} ClockOfCaller(clock: real, reqs: seq<Request>, caller: string)
    requires ClockOk(clock, reqs)
    ensures ClockOk(clock, OfCaller(reqs, caller))
    decreases |reqs|
  {
    if reqs != [] {
      ClockOfCaller(reqs[0].t2, reqs[1..], caller);
      var own := OfCaller(reqs, caller);
      if reqs[0].caller == caller {
        assert own[1..] == OfCaller(reqs[1..], caller);
      }
    }
  }

  /** What one caller is answered in a run is what it would be answered had no other caller
      made a request. */
  lemma {:induction false} CallersApart(rules: seq<Rule>, clock: real, reqs: seq<Request>, caller: string,
                                        evicting: bool)
    requires SoundRules(rules) && ClockOk(clock, reqs)
    ensures AnswersTo(reqs, Run(rules, map[], reqs, evicting).1, caller) ==
            Run(rules, map[], OfCaller(reqs, caller), evicting).1
  {
    EvictionUnobservable(rules, clock, reqs);
    ClockOfCaller(clock, reqs, caller);
    EvictionUnobservable(rules, clock, OfCaller(reqs, caller));
    assert SameFor(map[], map[], caller);
    RefRunApart(rules, map[], map[], reqs, caller);
  }

  /** The same of the mutable limiter, as long as its second eviction pass stays idle. */
  lemma {:induction false} LimiterCallersApart(rules: seq<Rule>, clock: real, cs: seq<Check>, caller: string)
    requires SoundRules(rules) && CalmCalls(rules, map[], cs) && ClockOk(clock, Requests(cs))
    ensures AnswersTo(Requests(cs), Answers(cs), caller) ==
            Run(rules, map[], OfCaller(Requests(cs), caller), true).1
  {
    CalmRun(rules, map[], cs);
    CallersApart(rules, clock, Requests(cs), caller, true);
  }

  lemma {:induction false} LimiterAnswerIs(rules: seq<Rule>, clock: real, cs: seq<Check>, n: nat)
    requires SoundRules(rules) && CalmCalls(rules, map[], cs) && ClockOk(clock, Requests(cs)) && n < |cs|
    ensures var reqs, ds := Requests(cs), Answers(cs);
            ds[n] == Allowed <==>
            forall rule :: Applies(rules, rule, reqs[n].path) ==>
              Counted(rules, reqs[..n], ds[..n], rule, reqs[n].caller, reqs[n].t1 - rule.window) < rule.maxRequests
  {
    CalmRun(rules, map[], cs);
    AnswerIs(rules, clock, Requests(cs), true, n);
  }

  // ----- Eviction -----

  /** The buckets with an admission in the last 300 seconds. */
  ghost function Recent(b: Buckets, t0: real): set<Key> {
    set k | k in b && |b[k]| > 0 && b[k][|b[k]| - 1] >= t0 - 300.0
  }

  /** Nothing goes while there are at most 10000 buckets. Of more, exactly the recent ones
      stay if they are at most 10000; else a quarter of those goes too, none of them used
      later than one that stays. */
  lemma {:induction false} EvictionIs(b: Buckets, t0: real, kept: Buckets)
    requires AfterEviction(b, t0, kept)
    ensures forall k :: k in kept ==> k in b && kept[k] == b[k]
    ensures var recent := Recent(b, t0);
            if |b| <= 10_000 then kept == b
            else if |recent| <= 10_000 then kept.Keys == recent
            else
              && kept.Keys <= recent && |kept| == |recent| - |recent| / 4
              && forall v, k :: v in recent && v !in kept && k in kept ==> b[v][|b[v]| - 1] <= b[k][|b[k]| - 1]
  {
    var first := EvictStale(b, t0);
    if |b| > 10_000 {
      assert first.Keys == Recent(b, t0);
      assert |first| == |first.Keys|;
      assert forall k :: k in first ==> LastSeen(first[k]) == b[k][|b[k]| - 1];
    }
  }
}
