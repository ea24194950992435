/** Which monitors the half-hourly timer ever gets round to. */
module UrlMonitorTurns {
  import opened Common
  import opened UrlMonitors

  const HALF_HOUR := 1800

  /** A row the timer would look at whenever it is due. */
  predicate Usable(m: Monitor) {
    m.enabled && m.id != "" && m.url != ""
  }

  /** How many usable rows stand in front of position `n`. */
  function Rank(ms: seq<Monitor>, n: nat): nat
    requires n <= |ms|
  {
    if n == 0 then 0 else Rank(ms, n - 1) + if Usable(ms[n - 1]) then 1 else 0
  }

  // ----- The timer -----

  /** Whatever tick `k` looks at is written down less than half an hour before the next tick
      and at least half an hour before the one after that. */
  ghost predicate Timely(rs: seq<Round>, k: nat, id: string)
    requires k < |rs|
  {
    var at := Look(rs[k], id).at;
    && (k + 1 < |rs| ==> rs[k + 1].now < at + HALF_HOUR)
    && (k + 2 < |rs| ==> at + HALF_HOUR <= rs[k + 2].now)
  }

  /** A timer tick: nothing forced, the usual cap, a clock that does not go back. */
  ghost predicate TickAt(rs: seq<Round>, k: nat, ms: seq<Monitor>)
    requires k < |rs|
  {
    && !rs[k].force && rs[k].maxChecks == None
    && (k + 1 < |rs| ==> rs[k].now <= rs[k + 1].now)
    && forall i :: 0 <= i < |ms| ==> Timely(rs, k, ms[i].id)
  }

  ghost predicate AllTicks(rs: seq<Round>, n: nat, ms: seq<Monitor>)
    requires n <= |rs|
  {
    n > 0 ==> AllTicks(rs, n - 1, ms) && TickAt(rs, n - 1, ms)
  }

  /** The list after the first `n` ticks. */
  function Ticked(ms: seq<Monitor>, rs: seq<Round>, n: nat): (r: seq<Monitor>)
    requires n <= |rs|
    ensures |r| == |ms|
  {
    if n == 0 then ms else var before := Ticked(ms, rs, n - 1); RowsAfter(before, |ms|, rs[n - 1])
  }

  /** Whether one of the first `n` ticks looks at row `i`. */
  ghost predicate ServedBy(ms: seq<Monitor>, rs: seq<Round>, n: nat, i: nat)
    requires n <= |rs| && i < |ms|
  {
    n > 0 && (ServedBy(ms, rs, n - 1, i) || Visited(Ticked(ms, rs, n - 1), i, rs[n - 1]))
  }

  lemma {:induction false} StillServed(ms: seq<Monitor>, rs: seq<Round>, m: nat, n: nat, i: nat)
    requires m <= n <= |rs| && i < |ms| && ServedBy(ms, rs, m, i)
    ensures ServedBy(ms, rs, n, i)
  {
    if m < n {
      StillServed(ms, rs, m, n - 1, i);
    }
  }

  ghost predicate SameShape(a: seq<Monitor>, b: seq<Monitor>) {
    |a| == |b| && forall i :: 0 <= i < |a| ==> b[i].id == a[i].id && (Usable(b[i]) <==> Usable(a[i]))
  }

  lemma {:induction false} SameRank(a: seq<Monitor>, b: seq<Monitor>, n: nat)
    requires SameShape(a, b) && n <= |a|
    ensures Rank(a, n) == Rank(b, n)
  {
    if n > 0 {
      SameRank(a, b, n - 1);
    }
  }

  // ----- Whenever the ticks come: three in front are enough to wait for ever -----

  /** Ticks of the timer on a clock that does not go back. */
  ghost predicate PlainTicks(rs: seq<Round>, n: nat)
    requires n <= |rs|
  {
    n > 0 ==>
      PlainTicks(rs, n - 1) && !rs[n - 1].force && rs[n - 1].maxChecks == None
      && (n > 1 ==> rs[n - 2].now <= rs[n - 1].now)
  }

  lemma {:induction false} PlainBefore(rs: seq<Round>, m: nat, n: nat)
    requires m <= n <= |rs| && PlainTicks(rs, n)
    ensures PlainTicks(rs, m)
  {
    if m < n {
      PlainBefore(rs, m, n - 1);
    }
  }

  lemma {:induction false} CountBelowRank(ms: seq<Monitor>, n: nat, r: Round)
    requires n <= |ms|
    ensures EligibleCount(ms, n, r) <= Rank(ms, n)
    ensures (forall i :: 0 <= i < |ms| && Usable(ms[i]) ==> Eligible(ms[i], r)) ==>
              EligibleCount(ms, n, r) == Rank(ms, n)
  {
    if n > 0 {
      CountBelowRank(ms, n - 1, r);
    }
  }

  /** The timer after a sleep, again and again: each tick comes half an hour after the last
      visits, which found nothing. */
  function LateRounds(n: nat): (rs: seq<Round>)
    ensures |rs| == n
  {
    seq(n, k requires 0 <= k < n => Round(false, None, HALF_HOUR * k, map[]))
  }

  lemma {:induction false} LateTicks(n: nat, k: nat)
    requires k <= n
    ensures PlainTicks(LateRounds(n), k)
  {
    if k > 0 {
      LateTicks(n, k - 1);
    }
  }

  /** Every row is at the shortest interval and due at tick `k`. */
  ghost predicate AllDue(ms: seq<Monitor>, k: nat) {
    forall i :: 0 <= i < |ms| ==>
      && ms[i].interval == Some(MIN_INTERVAL)
      && (ms[i].checkedAt.Some? ==> ms[i].checkedAt.value + HALF_HOUR <= HALF_HOUR * k)
  }

  lemma {:induction false} LateTick(ms: seq<Monitor>, k: nat, r: Round)
    requires AllDue(ms, k) && r == Round(false, None, HALF_HOUR * k, map[])
    ensures AllDue(RowsAfter(ms, |ms|, r), k + 1) && SameShape(ms, RowsAfter(ms, |ms|, r))
    ensures forall i :: 0 <= i < |ms| ==>
              && (Usable(ms[i]) ==> Eligible(ms[i], r))
              && (Visited(ms, i, r) <==> Usable(ms[i]) && Rank(ms, i) < 3)
  {
    forall i | 0 <= i < |ms|
      ensures RowsAfter(ms, |ms|, r)[i] == RowAfter(ms, i, r) && EligibleCount(ms, i, r) == Rank(ms, i)
    {
      RowsAfterAt(ms, |ms|, i, r);
      CountBelowRank(ms, i, r);
    }
  }

  lemma {:induction false} LateStarved(ms: seq<Monitor>, n: nat, k: nat, i: nat)
    requires AllDue(ms, 0) && k <= n && i < |ms| && Usable(ms[i]) && Rank(ms, i) >= 3
    ensures var now := Ticked(ms, LateRounds(n), k);
            && AllDue(now, k) && SameShape(ms, now) && !ServedBy(ms, LateRounds(n), k, i)
            && (k < n ==> Eligible(now[i], LateRounds(n)[k]))
  {
    var rs := LateRounds(n);
    if k > 0 {
      LateStarved(ms, n, k - 1, i);
      var before := Ticked(ms, rs, k - 1);
      SameRank(ms, before, i);
      LateTick(before, k - 1, rs[k - 1]);
    }
    var now := Ticked(ms, rs, k);
    if k < n {
      LateTick(now, k, rs[k]);
    }
  }

  /** Over every interval, every last look and every spacing of the ticks: a usable row that is
      due is sure to be looked at within any number of ticks exactly when fewer than three
      usable rows stand in front of it, and then at the first. */
  lemma {:induction false} SureIff(ms: seq<Monitor>, i: nat, n: nat)
    requires i < |ms| && Usable(ms[i]) && n >= 1
    ensures (forall now, rs ::
               SameShape(ms, now) && |rs| == n && PlainTicks(rs, n) && Eligible(now[i], rs[0]) ==>
                 ServedBy(now, rs, n, i))
            <==> Rank(ms, i) < 3
  {
    if Rank(ms, i) < 3 {
      forall now, rs | SameShape(ms, now) && |rs| == n && PlainTicks(rs, n) && Eligible(now[i], rs[0])
        ensures ServedBy(now, rs, n, i)
      {
        SameRank(ms, now, i);
        CountBelowRank(now, i, rs[0]);
        PlainBefore(rs, 1, n);
        assert Ticked(now, rs, 0) == now && Visited(now, i, rs[0]);
        assert ServedBy(now, rs, 1, i);
        StillServed(now, rs, 1, n, i);
      }
    } else {
      var now, rs := ResetAll(ms), LateRounds(n);
      SameRank(ms, now, i);
      LateTicks(n, n);
      LateStarved(now, n, 0, i);
      LateStarved(now, n, n, i);
      assert Ticked(now, rs, 0) == now;
      assert SameShape(ms, now) && PlainTicks(rs, n) && Eligible(now[i], rs[0]) && !ServedBy(now, rs, n, i);
    }
  }

  // ----- Prompt ticks, up to five usable rows in front: served at once or at the next -----

  /** What the first tick looked at is out of the way of the second. */
  lemma {:induction false} CountLeft(ms: seq<Monitor>, after: seq<Monitor>, n: nat, r0: Round, r1: Round)
    requires n <= |ms| == |after| && Limit(r0) == Some(3) && !r1.force
    requires forall i :: 0 <= i < |ms| ==> after[i] == RowAfter(ms, i, r0) && r1.now < Look(r0, ms[i].id).at + HALF_HOUR
    ensures EligibleCount(after, n, r1) + Min(EligibleCount(ms, n, r0), 3) <= Rank(ms, n)
  {
    if n > 0 {
      CountLeft(ms, after, n - 1, r0, r1);
    }
  }

  lemma {:induction false} ServedWithinTwo(ms: seq<Monitor>, i: nat, rs: seq<Round>)
    requires i < |ms| && Rank(ms, i) <= 5 && |rs| >= 2 && AllTicks(rs, 2, ms) && Eligible(ms[i], rs[0])
    ensures ServedBy(ms, rs, 2, i)
  {
    var after := RowsAfter(ms, |ms|, rs[0]);
    assert Ticked(ms, rs, 0) == ms && Ticked(ms, rs, 1) == after;
    assert ServedBy(ms, rs, 1, i) <==> Visited(ms, i, rs[0]);
    assert AllTicks(rs, 1, ms) && TickAt(rs, 0, ms) && TickAt(rs, 1, ms);
    forall j | 0 <= j < |ms|
      ensures after[j] == RowAfter(ms, j, rs[0]) && rs[1].now < Look(rs[0], ms[j].id).at + HALF_HOUR
    {
      RowsAfterAt(ms, |ms|, j, rs[0]);
      assert Timely(rs, 0, ms[j].id);
    }
    CountLeft(ms, after, i, rs[0], rs[1]);
  }

  // ----- Six in front: perhaps never -----

  /** A usable row at the shortest interval. */
  predicate Eager(m: Monitor) {
    Usable(m) && ClampInterval(m.interval) == MIN_INTERVAL
  }

  /** Before tick `k`: due by then. */
  ghost predicate Rested(m: Monitor, k: nat, rs: seq<Round>) {
    Eager(m) && (m.checkedAt.None? || (k < |rs| ==> m.checkedAt.value + HALF_HOUR <= rs[k].now))
  }

  /** Before tick `k`: not due then, but at the tick after. */
  ghost predicate Fresh(m: Monitor, k: nat, rs: seq<Round>) {
    && Eager(m) && m.checkedAt.Some?
    && (k < |rs| ==> rs[k].now < m.checkedAt.value + HALF_HOUR)
    && (k + 1 < |rs| ==> m.checkedAt.value + HALF_HOUR <= rs[k + 1].now)
  }

  /** The first usable row of the group of three that tick `k` is for. */
  function Turn(k: nat): nat {
    if k % 2 == 0 then 0 else 3
  }

  /** Before tick `k`, the row with `rank` usable rows in front of it: the group whose turn
      it is has rested, the other was looked at by the last tick, or has never had a turn. */
  ghost predicate InTurn(m: Monitor, rank: nat, k: nat, rs: seq<Round>) {
    if Turn(k) <= rank < Turn(k) + 3 || k == 0 then Rested(m, k, rs) else Fresh(m, k, rs)
  }

  /** The first six usable rows take turns. */
  ghost predicate TakingTurns(ms: seq<Monitor>, k: nat, rs: seq<Round>) {
    forall i :: 0 <= i < |ms| && Usable(ms[i]) && Rank(ms, i) < 6 ==> InTurn(ms[i], Rank(ms, i), k, rs)
  }

  /** Up to position `n` the eligible rows are those of the group, and perhaps some behind. */
  lemma {:induction false} GroupCount(ms: seq<Monitor>, n: nat, k: nat, rs: seq<Round>)
    requires n <= |ms| && TakingTurns(ms, k, rs) && k < |rs| && !rs[k].force
    ensures Min(Max(Rank(ms, n) - Turn(k), 0), 3) <= EligibleCount(ms, n, rs[k]) <= Max(Rank(ms, n) - Turn(k), 0)
  {
    if n > 0 {
      GroupCount(ms, n - 1, k, rs);
    }
  }

  /** A tick looks at the group whose turn it is and at nothing else. */
  lemma {:induction false} TickVisits(ms: seq<Monitor>, i: nat, k: nat, rs: seq<Round>)
    requires i < |ms| && TakingTurns(ms, k, rs) && k < |rs| && !rs[k].force && rs[k].maxChecks == None
    ensures Visited(ms, i, rs[k]) <==> Usable(ms[i]) && Turn(k) <= Rank(ms, i) < Turn(k) + 3
  {
    GroupCount(ms, i, k, rs);
  }

  lemma {:induction false} TickedShape(ms: seq<Monitor>, rs: seq<Round>, n: nat)
    requires n <= |rs|
    ensures SameShape(ms, Ticked(ms, rs, n))
  {
    if n > 0 {
      TickedShape(ms, rs, n - 1);
      RoundShape(Ticked(ms, rs, n - 1), rs[n - 1]);
    }
  }

  lemma {:induction false} RoundShape(ms: seq<Monitor>, r: Round)
    ensures SameShape(ms, RowsAfter(ms, |ms|, r))
    ensures forall i :: 0 <= i < |ms| ==> RowsAfter(ms, |ms|, r)[i] == RowAfter(ms, i, r)
  {
    forall i | 0 <= i < |ms| ensures RowsAfter(ms, |ms|, r)[i] == RowAfter(ms, i, r) {
      RowsAfterAt(ms, |ms|, i, r);
    }
  }

  lemma {:induction false} TickKeepsTurns(ms: seq<Monitor>, k: nat, rs: seq<Round>)
    requires TakingTurns(ms, k, rs) && k < |rs| && TickAt(rs, k, ms)
    ensures TakingTurns(RowsAfter(ms, |ms|, rs[k]), k + 1, rs)
  {
    var after := RowsAfter(ms, |ms|, rs[k]);
    RoundShape(ms, rs[k]);
    forall i | 0 <= i < |ms| && Usable(after[i]) && Rank(after, i) < 6
      ensures InTurn(after[i], Rank(after, i), k + 1, rs)
    {
      SameRank(ms, after, i);
      TickVisits(ms, i, k, rs);
      assert Timely(rs, k, ms[i].id);
    }
  }

  lemma {:induction false} TurnsGoOn(ms: seq<Monitor>, rs: seq<Round>, n: nat)
    requires TakingTurns(ms, 0, rs) && n <= |rs| && AllTicks(rs, n, ms)
    ensures TakingTurns(Ticked(ms, rs, n), n, rs)
  {
    if n > 0 {
      TurnsGoOn(ms, rs, n - 1);
      TickedShape(ms, rs, n - 1);
      TickKeepsTurns(Ticked(ms, rs, n - 1), n - 1, rs);
    }
  }

  /** Six usable rows at the shortest interval, all due at the first tick, share all ticks
      among themselves: a row behind them is never looked at. */
  lemma {:induction false} Starved(ms: seq<Monitor>, rs: seq<Round>, n: nat, i: nat)
    requires TakingTurns(ms, 0, rs) && n <= |rs| && AllTicks(rs, n, ms) && i < |ms| && Rank(ms, i) >= 6
    ensures !ServedBy(ms, rs, n, i) && Ticked(ms, rs, n)[i] == ms[i]
  {
    if n > 0 {
      Starved(ms, rs, n - 1, i);
      var now := Ticked(ms, rs, n - 1);
      TurnsGoOn(ms, rs, n - 1);
      TickedShape(ms, rs, n - 1);
      SameRank(ms, now, i);
      TickVisits(now, i, n - 1, rs);
      RowsAfterAt(now, |ms|, i, rs[n - 1]);
    }
  }

  // ----- Exactly when a row is sure to be served -----

  lemma {:induction false} TicksBefore(ms: seq<Monitor>, rs: seq<Round>, m: nat, n: nat)
    requires m <= n <= |rs| && AllTicks(rs, n, ms)
    ensures AllTicks(rs, m, ms)
  {
    if m < n {
      TicksBefore(ms, rs, m, n - 1);
    }
  }

  /** The same list with every row at the shortest interval and never looked at. */
  function ResetAll(ms: seq<Monitor>): (r: seq<Monitor>)
    ensures |r| == |ms|
  {
    seq(|ms|, i requires 0 <= i < |ms| => ms[i].(interval := Some(MIN_INTERVAL), checkedAt := None))
  }

  /** `n` ticks half an hour apart, each visit taking a second and finding nothing. */
  function TimerRounds(ms: seq<Monitor>, n: nat): (rs: seq<Round>)
    ensures |rs| == n
  {
    seq(n, k requires 0 <= k < n => TimerRound(ms, k))
  }

  function TimerRound(ms: seq<Monitor>, k: nat): Round {
    Round(false, None, HALF_HOUR * k, map id | id in IdSet(ms) :: Failed(HALF_HOUR * k + 1, ""))
  }

  function IdSet(ms: seq<Monitor>): set<string> {
    set m | m in ms :: m.id
  }

  lemma {:induction false} TimerTicks(ms: seq<Monitor>, now: seq<Monitor>, n: nat, k: nat)
    requires k <= n && SameShape(ms, now)
    ensures AllTicks(TimerRounds(ms, n), k, now)
  {
    if k > 0 {
      TimerTicks(ms, now, n, k - 1);
      forall i | 0 <= i < |now| ensures Timely(TimerRounds(ms, n), k - 1, now[i].id) {
        assert ms[i] in ms && ms[i].id in IdSet(ms);
      }
    }
  }

  /** A list of new rows, all due: six usable ones in front leave no tick to the others. */
  lemma {:induction false} StarvedFromStart(ms: seq<Monitor>, n: nat, i: nat)
    requires i < |ms| && Usable(ms[i]) && Rank(ms, i) >= 6
    ensures var now, rs := ResetAll(ms), TimerRounds(ms, n);
            && SameShape(ms, now) && AllTicks(rs, n, now) && !ServedBy(now, rs, n, i)
            && forall k :: 0 <= k < n ==> Eligible(Ticked(now, rs, k)[i], rs[k])
  {
    var now, rs := ResetAll(ms), TimerRounds(ms, n);
    assert SameShape(ms, now);
    SameRank(ms, now, i);
    TimerTicks(ms, now, n, n);
    Starved(now, rs, n, i);
    forall k | 0 <= k < n ensures Eligible(Ticked(now, rs, k)[i], rs[k]) {
      TimerTicks(ms, now, n, k);
      Starved(now, rs, k, i);
    }
  }

  /** When ticks are prompt, over every interval and every last look: a usable row that is due
      is sure to be looked at within any number of ticks from two on exactly when
      fewer than six usable rows stand in front of it. */
  lemma {:induction false} ServedIff(ms: seq<Monitor>, i: nat, n: nat)
    requires i < |ms| && Usable(ms[i]) && n >= 2
    ensures (forall now, rs ::
               SameShape(ms, now) && |rs| == n && AllTicks(rs, n, now) && Eligible(now[i], rs[0]) ==>
                 ServedBy(now, rs, n, i))
            <==> Rank(ms, i) < 6
  {
    if Rank(ms, i) < 6 {
      forall now, rs | SameShape(ms, now) && |rs| == n && AllTicks(rs, n, now) && Eligible(now[i], rs[0])
        ensures ServedBy(now, rs, n, i)
      {
        SameRank(ms, now, i);
        TicksBefore(now, rs, 2, n);
        ServedWithinTwo(now, i, rs);
        StillServed(now, rs, 2, n, i);
      }
    } else {
      var now, rs := ResetAll(ms), TimerRounds(ms, n);
      StarvedFromStart(ms, n, i);
      assert Ticked(now, rs, 0) == now;
    }
  }
}
