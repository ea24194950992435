/** The rule table the limiter is shipped with. */
module RateLimitTable {
  import opened Common
  import opened RateLimit

  const RULES: seq<Rule> := [
    Rule("/api/chat", 30, 60.0, false, None),
    Rule("/api/settings/llm/test", 5, 60.0, true, None),
    Rule("/api/settings/email/test", 5, 60.0, true, None),
    Rule("/api/inbox/poll", 10, 60.0, true, None),
    Rule("/api/system/export", 3, 60.0, true, Some("system-export")),
    Rule("/api/system/export/encrypted", 3, 60.0, true, Some("system-export")),
    Rule("/api/system/import", 1, 300.0, true, Some("system-restore")),
    Rule("/api/system/import/encrypted", 1, 300.0, true, Some("system-restore")),
    Rule("/api/system/data", 1, 300.0, true, None),
    Rule("/api/approvals", 20, 60.0, false, None),
    Rule("/api/connectors/install", 5, 60.0, true, Some("connector-mutate")),
    Rule("/api/connectors/uninstall", 5, 60.0, true, Some("connector-mutate")),
    Rule("/api/connectors", 15, 60.0, false, None)
  ]

  /** Quota by length and, where lengths meet, by one telling character of the bucket name. */
  function Quota(bucket: string): (nat, real) {
    if |bucket| == 9 then (30, 60.0)
    else if |bucket| == 13 then (3, 60.0)
    else if |bucket| == 14 then (if bucket[0] == 's' then (1, 300.0) else (20, 60.0))
    else if |bucket| == 15 then (if bucket[5] == 'i' then (10, 60.0) else (15, 60.0))
    else if |bucket| == 16 then (if bucket[0] == '/' then (1, 300.0) else (5, 60.0))
    else (5, 60.0)
  }

  /** The shipped table is one the guarantees apply to: paths that share a bucket share its
      quota, and 300 seconds of idleness outlast every window. */
  lemma {:induction false} TableIsSound()
    ensures SoundRules(RULES)
  {
    forall i | 0 <= i < |RULES| ensures GoodRule(RULES[i]) {
    }
  }

  ghost predicate GoodRule(r: Rule) {
    && Quota(BucketOf(r)) == (r.maxRequests, r.window)
    && r.maxRequests >= 1 && 0.0 < r.window <= STALE_EVICT_SECONDS
  }

}
