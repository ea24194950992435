/** Inputs at which the inbox goes past its query limits. */
module InboxLimits {
  import opened Common
  import opened InboxSync
  import opened Inbox
  import opened InboxRuns

  function Names(n: nat): set<string> {
    if n == 0 then {} else Names(n - 1) + {Letters(n)}
  }

  lemma {:induction false} NamesMembers(n: nat)
    ensures forall id :: id in Names(n) <==> 1 <= |id| <= n && id == Letters(|id|)
  {
    if n > 0 {
      NamesMembers(n - 1);
    }
  }

  lemma {:induction false} NamesAre(n: nat)
    ensures |Names(n)| == n
    ensures forall id :: id in Names(n) <==> 1 <= |id| <= n && id == Letters(|id|)
  {
    NamesMembers(n);
    if n > 0 {
      NamesAre(n - 1);
    }
  }

  /** A table of these mails: all but the oldest are newer than the oldest. */
  ghost predicate OneEach(t: Table, n: nat) {
    t.Keys == Names(n) && forall id :: id in t ==> t[id].received == |id|
  }

  lemma {:induction false} OldestIsLast(t: Table, n: nat, among: set<string>)
    requires n >= 1 && OneEach(t, n) && among <= t.Keys && among >= Names(n) - {Letters(1)}
    ensures DistinctDates(t) && Letters(1) in t && |Newer(t, among, Letters(1))| == n - 1
  {
    NamesAre(n);
    forall a, b ensures DatesDiffer(t, a, b) {
    }
    assert Newer(t, among, Letters(1)) == Names(n) - {Letters(1)};
  }

  /** An unread index of `n` ids without dates, stored with the time of the poll. */
  function Undated(n: nat, now: int): (ms: seq<Mail>)
    ensures |ms| == n
  {
    if n == 0 then [] else Undated(n - 1, now) + [Mail(Letters(n), now)]
  }

  lemma {:induction false} UndatedIds(n: nat, now: int)
    ensures IdsOf(Undated(n, now)) == Names(n)
  {
    if n > 0 {
      UndatedIds(n - 1, now);
      assert Undated(n, now) == Undated(n - 1, now) + [Mail(Letters(n), now)];
    }
  }

  /** A poll that fetches no mail itself and lists `n` ids as unread. */
  function Index(n: nat, now: int): Payload {
    Payload([], Some(Undated(n, now)))
  }

  lemma {:induction false} IndexIds(n: nat, now: int)
    ensures FetchedIds(Index(n, now)) == Names(n)
  {
    UndatedIds(n, now);
  }

  /** The same unread index of more than 5000 ids, polled twice: whatever the queries return,
      some mail is recorded twice. */
  lemma {:induction false} RecordedTwice(n: nat, t1: int, t2: int, ls: seq<Ledger>, steps: seq<Step>)
    requires n > KNOWN_LIMIT && PlanRun(ls, steps, [Some(Index(n, t1)), Some(Index(n, t2))], 2)
    ensures |ls[1].recorded| == n && Distinct(ls[1].recorded) && !Distinct(ls[2].recorded)
  {
    var plan := [Some(Index(n, t1)), Some(Index(n, t2))];
    assert RunOk(ls, steps, 1) && RunOk(ls, steps, 0);
    assert Follows(steps, plan, 1) && Follows(steps, plan, 0);
    FirstIndex(n, t1, steps[0], ls[1]);
    IndexAgain(n, t2, ls[1], steps[1], ls[2]);
  }

  lemma {:induction false} FirstIndex(n: nat, now: int, step: Step, after: Ledger)
    requires step.Poll? && step.payload == Index(n, now) && Allowed(Ledger(map[], []), step, after)
    ensures after.table.Keys == Names(n) && Together(after) && Distinct(after.recorded) && |after.recorded| == n
  {
    IndexIds(n, now);
    NamesAre(n);
    StepTogether(Ledger(map[], []), step, after);
    SyncChanges(map[], step.pending, step.read, UnreadIds(step.payload));
    assert FetchedIds(step.payload) - Members(step.window) == Names(n);
    OneEventEach(after);
    assert |after.table.Keys| == |after.table|;
  }

  lemma {:induction false} IndexAgain(n: nat, now: int, before: Ledger, step: Step, after: Ledger)
    requires n > KNOWN_LIMIT && before.table.Keys == Names(n) && Together(before)
    requires step.Poll? && step.payload == Index(n, now) && Allowed(before, step, after)
    ensures !Distinct(after.recorded)
  {
    IndexIds(n, now);
    NamesAre(n);
    SyncChanges(before.table, step.pending, step.read, UnreadIds(step.payload));
    SetOfDistinct(step.window);
    assert Members(step.window) == set id | id in step.window;
    if Names(n) <= Members(step.window) {
      SubsetSize(Names(n), Members(step.window));
    }
    var id :| id in Names(n) && id !in Members(step.window);
    assert id in FetchedIds(step.payload) * (before.table.Keys - Members(step.window));
    StepTogether(before, step, after);
  }

  /** And there is such a run. */
  lemma {:induction false} TwicePolled(n: nat, t1: int, t2: int) returns (ls: seq<Ledger>, steps: seq<Step>)
    ensures PlanRun(ls, steps, [Some(Index(n, t1)), Some(Index(n, t2))], 2)
  {
    var plan := [Some(Index(n, t1)), Some(Index(n, t2))];
    ls, steps := [Ledger(map[], [])], [];
    var step1, after1 := StepExists(ls[0], plan[0]);
    AddStep(ls, steps, plan, 0, step1, after1);
    ls, steps := ls + [after1], steps + [step1];
    var step2, after2 := StepExists(ls[1], plan[1]);
    AddStep(ls, steps, plan, 1, step2, after2);
    ls, steps := ls + [after2], steps + [step2];
  }

  /** One mail wrongly read, and `n - 1` newer ones pending that are no longer unread. */
  function OneWrong(n: nat): Table {
    map id | id in Names(n) :: Row(if |id| == 1 then Read else Pending, |id|)
  }

  /** With 500 newer ones the sync, which marks them read first, does not get to the wrong
      one, whatever its queries return. */
  lemma {:induction false} WrongStaysRead(n: nat, pending: seq<string>, read: seq<string>)
    requires n > READ_LIMIT && SyncWindows(OneWrong(n), pending, read, {Letters(1)})
    ensures |OneWrong(n)| == n && !InStep(Synced(OneWrong(n), pending, read, {Letters(1)}), {Letters(1)})
  {
    var t, unread := OneWrong(n), {Letters(1)};
    NamesAre(n);
    assert |t.Keys| == |t|;
    OldestIsLast(t, n, ReadBySync(t, unread));
    SyncConvergesDistinct(t, pending, read, unread);
    assert t[Letters(1)].status == Read;
  }
}
