/** A list of monitors a user can make in which one is never looked at. */
module UrlMonitorQueue {
  import opened Common
  import opened UrlMonitors
  import opened UrlMonitorRuns
  import opened UrlMonitorTurns

  /** `n` monitors created one after another, with different ids and the shortest interval. */
  function CreateAll(n: nat, name: string, url: string): (cs: seq<Command>)
    ensures |cs| == n
  {
    seq(n, i requires 0 <= i < n => Creation(i, name, url))
  }

  lemma {:induction false} CountAtMost(ms: seq<Monitor>, n: nat)
    requires n <= |ms|
    ensures CountEnabled(ms, n) <= n
  {
    if n > 0 {
      CountAtMost(ms, n - 1);
    }
  }

  /** The first `k` rows as they are right after creation. */
  ghost predicate Rows(ms: seq<Monitor>, k: nat, name: string, url: string) {
    |ms| == k && forall i :: 0 <= i < k ==> ms[i] == NewRow(Letters(i + 1), name, url, true, Some(MIN_INTERVAL))
  }

  function Creation(i: nat, name: string, url: string): Command {
    Create(Letters(i + 1), name, url, true, Some(MIN_INTERVAL))
  }

  lemma {:induction false} OneMoreCreated(s: State, k: nat, name: string, url: string, isWeb: Web)
    requires k < MAX_ENABLED && Rows(s.monitors, k, name, url) && ValidFields(name, url, isWeb)
    ensures Rows(Step(s, Creation(k, name, url), isWeb).monitors, k + 1, name, url)
    ensures NotInUse(s.monitors, Letters(k + 1))
  {
    CountAtMost(s.monitors, k);
    assert forall i :: 0 <= i < k ==> |s.monitors[i].id| == i + 1;
  }

  lemma {:induction false} AllCreated(n: nat, k: nat, name: string, url: string, isWeb: Web)
    requires k <= n <= MAX_ENABLED && ValidFields(name, url, isWeb)
    ensures var cs := CreateAll(n, name, url);
            FreshIds(cs, k, isWeb) && Rows(Run(cs, k, isWeb).monitors, k, name, url)
  {
    if k > 0 {
      AllCreated(n, k - 1, name, url, isWeb);
      var cs := CreateAll(n, name, url);
      OneMoreCreated(Run(cs, k - 1, isWeb), k - 1, name, url, isWeb);
      assert cs[k - 1] == Creation(k - 1, name, url);
    }
  }

  lemma {:induction false} AllUsable(ms: seq<Monitor>, n: nat)
    requires n <= |ms| && forall i :: 0 <= i < n ==> Usable(ms[i])
    ensures Rank(ms, n) == n
  {
    if n > 0 {
      AllUsable(ms, n - 1);
    }
  }

  /** Seven monitors created in a row: over any number of ticks the seventh is due at every
      one of them and is never looked at. */
  lemma {:induction false} SeventhNeverServed(n: nat, name: string, url: string, isWeb: Web)
    returns (cs: seq<Command>, rs: seq<Round>)
    requires ValidFields(name, url, isWeb)
    ensures |cs| == 7 && FreshIds(cs, 7, isWeb) && |rs| == n
    ensures var ms := Run(cs, 7, isWeb).monitors;
            && |ms| == 7 && AllTicks(rs, n, ms) && !ServedBy(ms, rs, n, 6)
            && forall k :: 0 <= k < n ==> Eligible(Ticked(ms, rs, k)[6], rs[k])
  {
    cs := CreateAll(7, name, url);
    AllCreated(7, 7, name, url, isWeb);
    var ms := Run(cs, 7, isWeb).monitors;
    rs := TimerRounds(ms, n);
    AllUsable(ms, 6);
    StarvedFromStart(ms, n, 6);
    assert ResetAll(ms) == ms;
  }

  /** Four are enough when each tick comes half an hour after the last visits. */
  lemma {:induction false} FourthNeverServed(n: nat, name: string, url: string, isWeb: Web) returns (cs: seq<Command>)
    requires ValidFields(name, url, isWeb)
    ensures |cs| == 4 && FreshIds(cs, 4, isWeb)
    ensures var ms, rs := Run(cs, 4, isWeb).monitors, LateRounds(n);
            && |ms| == 4 && PlainTicks(rs, n) && !ServedBy(ms, rs, n, 3)
            && forall k :: 0 <= k < n ==> Eligible(Ticked(ms, rs, k)[3], rs[k])
  {
    cs := CreateAll(4, name, url);
    AllCreated(4, 4, name, url, isWeb);
    var ms := Run(cs, 4, isWeb).monitors;
    AllUsable(ms, 3);
    LateTicks(n, n);
    forall k | 0 <= k <= n
      ensures !ServedBy(ms, LateRounds(n), k, 3)
      ensures k < n ==> Eligible(Ticked(ms, LateRounds(n), k)[3], LateRounds(n)[k])
    {
      LateStarved(ms, n, k, 3);
    }
  }
}
