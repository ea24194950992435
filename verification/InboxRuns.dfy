/** The inbox over whole runs of polls, with other status changes in between. */
module InboxRuns {
  import opened Common
  import opened InboxSync
  import opened Inbox

  /** A poll with what its queries returned, or any change that neither records nor removes
      mail, such as handling one. */
  datatype Step = Poll(payload: Payload, pending: seq<string>, read: seq<string>, window: seq<string>) | Touch

  ghost predicate Allowed(before: Ledger, step: Step, after: Ledger) {
    match step
    case Poll(p, pending, read, window) => PollStep(before, after, p, pending, read, window)
    case Touch => after.recorded == before.recorded && after.table.Keys == before.table.Keys
  }

  /** The first `n` steps, from an empty inbox. */
  ghost predicate RunOk(ls: seq<Ledger>, steps: seq<Step>, n: nat)
    requires n <= |steps| < |ls|
  {
    if n == 0 then ls[0] == Ledger(map[], []) else RunOk(ls, steps, n - 1) && Allowed(ls[n - 1], steps[n - 1], ls[n])
  }

  /** Whether a poll brings mail that is stored outside the rows it looked at. */
  ghost predicate Overlooks(before: Ledger, step: Step) {
    step.Poll? && FetchedIds(step.payload) * (before.table.Keys - Members(step.window)) != {}
  }

  ghost predicate NeverOverlooks(ls: seq<Ledger>, steps: seq<Step>, n: nat)
    requires n <= |steps| < |ls|
  {
    n > 0 ==> NeverOverlooks(ls, steps, n - 1) && !Overlooks(ls[n - 1], steps[n - 1])
  }

  /** What is stored is what was recorded. */
  ghost predicate Together(l: Ledger) {
    forall id :: id in l.table <==> id in l.recorded
  }

  lemma {:induction false} StepTogether(before: Ledger, step: Step, after: Ledger)
    requires Together(before) && Allowed(before, step, after)
    ensures Together(after)
    ensures Distinct(after.recorded) <==> Distinct(before.recorded) && !Overlooks(before, step)
  {
    if step.Poll? {
      var p := step.payload;
      var newIds := FetchedIds(p) - Members(step.window);
      SyncChanges(before.table, step.pending, step.read, UnreadIds(p));
      Grown(before.recorded, after.recorded, newIds);
      if Distinct(before.recorded) {
        AtMostOnceIff(before.table.Keys, before.recorded, after.recorded, FetchedIds(p), Members(step.window));
      } else {
        StillTwice(before.recorded, after.recorded);
      }
    }
  }

  lemma {:induction false} Grown(before: seq<string>, after: seq<string>, newIds: set<string>)
    requires RecordedOnce(before, after, newIds)
    ensures forall id :: id in after <==> id in before || id in newIds
  {
    assert after == before + after[|before|..];
  }

  lemma {:induction false} StillTwice(before: seq<string>, after: seq<string>)
    requires !Distinct(before) && |before| <= |after| && after[..|before|] == before
    ensures !Distinct(after)
  {
    var i, j :| !DifferAt(before, i, j);
    assert after[i] == before[i] && after[j] == before[j];
    assert !DifferAt(after, i, j);
  }

  /** Over every run: what is stored is what was recorded, and no mail was recorded twice
      exactly when no poll overlooked mail it brought. */
  lemma {:induction false} RecordedOnceIff(ls: seq<Ledger>, steps: seq<Step>, n: nat)
    requires n <= |steps| < |ls| && RunOk(ls, steps, n)
    ensures Together(ls[n])
    ensures Distinct(ls[n].recorded) <==> NeverOverlooks(ls, steps, n)
  {
    if n == 0 {
      assert ls[0].recorded == [] && ls[0].table == map[];
    } else {
      RecordedOnceIff(ls, steps, n - 1);
      LastStep(ls, steps, n);
    }
  }

  lemma {:induction false} LastStep(ls: seq<Ledger>, steps: seq<Step>, n: nat)
    requires 0 < n <= |steps| < |ls| && RunOk(ls, steps, n) && Together(ls[n - 1])
    ensures RunOk(ls, steps, n - 1) && Together(ls[n])
    ensures Distinct(ls[n].recorded) <==> Distinct(ls[n - 1].recorded) && !Overlooks(ls[n - 1], steps[n - 1])
  {
    StepTogether(ls[n - 1], steps[n - 1], ls[n]);
  }

  /** A poll that finds at most 5000 rows overlooks nothing. */
  lemma {:induction false} SmallOverlooksNothing(before: Ledger, step: Step, after: Ledger)
    requires Allowed(before, step, after) && |before.table| <= KNOWN_LIMIT
    ensures !Overlooks(before, step)
  {
    if step.Poll? {
      var synced := Synced(before.table, step.pending, step.read, UnreadIds(step.payload));
      SyncChanges(before.table, step.pending, step.read, UnreadIds(step.payload));
      assert |synced.Keys| == |before.table.Keys| == |before.table|;
      WindowCovers(synced, synced.Keys, KNOWN_LIMIT, step.window);
    }
  }

  ghost predicate Small(ls: seq<Ledger>, n: nat)
    requires n <= |ls|
  {
    n > 0 ==> Small(ls, n - 1) && |ls[n - 1].table| <= KNOWN_LIMIT
  }

  /** So up to 5000 stored mails every mail has exactly one recording event. */
  lemma {:induction false} SmallInboxRecordsOnce(ls: seq<Ledger>, steps: seq<Step>, n: nat)
    requires n <= |steps| < |ls| && RunOk(ls, steps, n) && Small(ls, n)
    ensures NeverOverlooks(ls, steps, n)
    ensures Distinct(ls[n].recorded) && |ls[n].recorded| == |ls[n].table|
  {
    RecordedOnceIff(ls, steps, n);
    if n > 0 {
      SmallInboxRecordsOnce(ls, steps, n - 1);
      SmallOverlooksNothing(ls[n - 1], steps[n - 1], ls[n]);
    }
    OneEventEach(ls[n]);
  }

  lemma {:induction false} OneEventEach(l: Ledger)
    requires Together(l)
    ensures Distinct(l.recorded) ==> |l.recorded| == |l.table|
  {
    if Distinct(l.recorded) {
      SetOfDistinct(l.recorded);
      assert Members(l.recorded) == l.table.Keys;
    }
  }

  /** A poll within the query limits leaves every mail that is not handled pending exactly
      when it is unread, old and new alike. */
  lemma {:induction false} PollConverges(before: Ledger, step: Step, after: Ledger)
    requires Allowed(before, step, after) && step.Poll?
    requires |WithStatus(before.table, Pending)| <= PENDING_LIMIT
    requires |WithStatus(before.table, Read)| + |WithStatus(before.table, Pending) - UnreadIds(step.payload)|
             <= READ_LIMIT
    ensures InStep(after.table, UnreadIds(step.payload))
  {
    var p := step.payload;
    SyncConverges(before.table, step.pending, step.read, UnreadIds(p));
    PollInStep(Synced(before.table, step.pending, step.read, UnreadIds(p)), after.table, p,
               FetchedIds(p) - Members(step.window));
  }

  // ----- Overlooking, read off a table with distinct dates -----

  /** Mail the poll brings is stored, and 5000 stored rows are newer. */
  ghost predicate Buries(before: Ledger, step: Step) {
    step.Poll? && exists id ::
      id in FetchedIds(step.payload) && id in before.table
      && |Newer(before.table, before.table.Keys, id)| >= KNOWN_LIMIT
  }

  lemma {:induction false} LookedAtIff(before: Ledger, step: Step, after: Ledger, id: string)
    requires Allowed(before, step, after) && step.Poll? && DistinctDates(before.table) && id in before.table
    ensures id in step.window <==> |Newer(before.table, before.table.Keys, id)| < KNOWN_LIMIT
  {
    var t, unread := before.table, UnreadIds(step.payload);
    var synced := Synced(t, step.pending, step.read, unread);
    SyncChanges(t, step.pending, step.read, unread);
    forall a, b ensures DatesDiffer(synced, a, b) {
      assert DatesDiffer(t, a, b);
    }
    assert Newer(synced, synced.Keys, id) == Newer(t, t.Keys, id);
    WindowIs(synced, synced.Keys, KNOWN_LIMIT, step.window, id);
  }

  lemma {:induction false} OverlooksIff(before: Ledger, step: Step, after: Ledger)
    requires Allowed(before, step, after) && DistinctDates(before.table)
    ensures Overlooks(before, step) <==> Buries(before, step)
  {
    if step.Poll? {
      var missed := before.table.Keys - Members(step.window);
      forall id | id in before.table
        ensures id in missed <==> |Newer(before.table, before.table.Keys, id)| >= KNOWN_LIMIT
      {
        LookedAtIff(before, step, after, id);
      }
      if Overlooks(before, step) {
        var id :| id in FetchedIds(step.payload) * missed;
        assert id in before.table;
      }
      if Buries(before, step) {
        var id :| id in FetchedIds(step.payload) && id in before.table
                  && |Newer(before.table, before.table.Keys, id)| >= KNOWN_LIMIT;
        assert id in FetchedIds(step.payload) * missed;
      }
    }
  }

  ghost predicate NeverBuries(ls: seq<Ledger>, steps: seq<Step>, n: nat)
    requires n <= |steps| < |ls|
  {
    n > 0 ==> NeverBuries(ls, steps, n - 1) && !Buries(ls[n - 1], steps[n - 1])
  }

  ghost predicate DatesApart(ls: seq<Ledger>, n: nat)
    requires n <= |ls|
  {
    n > 0 ==> DatesApart(ls, n - 1) && DistinctDates(ls[n - 1].table)
  }

  lemma {:induction false} OverlooksIsBuries(ls: seq<Ledger>, steps: seq<Step>, n: nat)
    requires n <= |steps| < |ls| && RunOk(ls, steps, n) && DatesApart(ls, n)
    ensures NeverOverlooks(ls, steps, n) <==> NeverBuries(ls, steps, n)
  {
    if n > 0 {
      OverlooksIsBuries(ls, steps, n - 1);
      OverlooksIff(ls[n - 1], steps[n - 1], ls[n]);
    }
  }

  /** Over every run in which stored mail has distinct dates, no mail was recorded twice exactly
      when no poll brought stored mail behind 5000 newer rows. */
  lemma {:induction false} RecordedTwiceDistinct(ls: seq<Ledger>, steps: seq<Step>, n: nat)
    requires n <= |steps| < |ls| && RunOk(ls, steps, n) && DatesApart(ls, n)
    ensures Distinct(ls[n].recorded) <==> NeverBuries(ls, steps, n)
  {
    RecordedOnceIff(ls, steps, n);
    OverlooksIsBuries(ls, steps, n);
  }

  // ----- Every poll can be taken -----

  lemma {:induction false} SetAsSeq(ids: set<string>) returns (s: seq<string>)
    ensures Distinct(s) && forall id :: id in s <==> id in ids
  {
    s := [];
    if ids != {} {
      var id :| id in ids;
      s := SetAsSeq(ids - {id});
      DistinctSnoc(s, id);
      s := s + [id];
    }
  }

  lemma {:induction false} FetchedMail(p: Payload, id: string)
    requires id in FetchedIds(p)
    ensures MailFor(p, id).Some?
  {
    assert p.emails[..|p.emails|] == p.emails && Unread(p)[..|Unread(p)|] == Unread(p);
    MailFound(p.emails, |p.emails|, id);
    MailFound(Unread(p), |Unread(p)|, id);
  }

  lemma {:induction false} RecordingExists(synced: Table, recorded: seq<string>, p: Payload, newIds: set<string>)
    returns (after: Ledger)
    requires newIds <= FetchedIds(p)
    ensures RecordedInto(synced, after.table, p, newIds) && RecordedOnce(recorded, after.recorded, newIds)
  {
    var more := SetAsSeq(newIds);
    forall id | id in newIds ensures MailFor(p, id).Some? {
      FetchedMail(p, id);
    }
    var table := map id | id in synced.Keys + newIds ::
      if id in newIds then Row(if id in UnreadIds(p) then Pending else Read, MailFor(p, id).value.received)
      else synced[id];
    after := Ledger(table, recorded + more);
    assert after.recorded[|recorded|..] == more;
  }

  lemma {:induction false} PollExists(before: Ledger, p: Payload) returns (step: Step, after: Ledger)
    ensures step.Poll? && step.payload == p && Allowed(before, step, after)
  {
    var pending, read := SyncExists(before.table, UnreadIds(p));
    var synced := Synced(before.table, pending, read, UnreadIds(p));
    var window := WindowExists(synced, synced.Keys, KNOWN_LIMIT);
    step := Poll(p, pending, read, window);
    after := RecordingExists(synced, before.recorded, p, FetchedIds(p) - Members(window));
  }

  // ----- Overlooking, for any dates -----

  /** Mail that is fetched and stored already, with 5000 other rows at least as new. */
  ghost predicate Exposed(before: Ledger, p: Payload, id: string) {
    && id in FetchedIds(p) && id in before.table
    && |AtLeast(before.table, before.table.Keys, id)| >= KNOWN_LIMIT
  }

  ghost predicate Exposes(before: Ledger, p: Payload) {
    exists id :: Exposed(before, p, id)
  }

  lemma {:induction false} SyncedDates(t: Table, pending: seq<string>, read: seq<string>, unread: set<string>,
                                       id: string)
    requires SyncWindows(t, pending, read, unread)
    ensures var synced := Synced(t, pending, read, unread);
            synced.Keys == t.Keys && AtLeast(synced, synced.Keys, id) == AtLeast(t, t.Keys, id)
  {
    SyncChanges(t, pending, read, unread);
  }

  lemma {:induction false} SureStep(before: Ledger, step: Step, after: Ledger)
    requires Allowed(before, step, after) && step.Poll? && !Exposes(before, step.payload)
    ensures !Overlooks(before, step)
  {
    var t, p := before.table, step.payload;
    var synced := Synced(t, step.pending, step.read, UnreadIds(p));
    forall id | id in FetchedIds(p) && id in t ensures id in step.window {
      assert !Exposed(before, p, id);
      SyncedDates(t, step.pending, step.read, UnreadIds(p), id);
      SureRow(synced, synced.Keys, KNOWN_LIMIT, step.window, id);
    }
  }

  lemma {:induction false} UnsureStep(before: Ledger, p: Payload) returns (step: Step, after: Ledger)
    requires Exposes(before, p)
    ensures step.Poll? && step.payload == p && Allowed(before, step, after) && Overlooks(before, step)
  {
    var id :| Exposed(before, p, id);
    var pending, read := SyncExists(before.table, UnreadIds(p));
    SyncedDates(before.table, pending, read, UnreadIds(p), id);
    var synced := Synced(before.table, pending, read, UnreadIds(p));
    var window := WindowWithout(synced, synced.Keys, KNOWN_LIMIT, id);
    step := Poll(p, pending, read, window);
    after := RecordingExists(synced, before.recorded, p, FetchedIds(p) - Members(window));
    assert id in FetchedIds(p) * (before.table.Keys - Members(window));
  }

  /** For any dates: a poll is sure to overlook nothing exactly when every mail it brings that
      is stored has fewer than 5000 others at least as new. */
  lemma {:induction false} NeverOverlooksIff(before: Ledger, p: Payload)
    ensures (forall step, after ::
               Allowed(before, step, after) && step.Poll? && step.payload == p ==> !Overlooks(before, step))
            <==> !Exposes(before, p)
  {
    if Exposes(before, p) {
      var step, after := UnsureStep(before, p);
      assert Allowed(before, step, after);
    } else {
      forall step, after | Allowed(before, step, after) && step.Poll? && step.payload == p
        ensures !Overlooks(before, step)
      {
        SureStep(before, step, after);
      }
    }
  }

  // ----- All runs over the same payloads -----

  /** What is planned at one place: a poll of this payload, or some other status change. */
  ghost predicate Fits(step: Step, plan: Option<Payload>) {
    if plan.Some? then step.Poll? && step.payload == plan.value else step.Touch?
  }

  ghost predicate Follows(steps: seq<Step>, plan: seq<Option<Payload>>, n: nat)
    requires n <= |steps| && n <= |plan|
  {
    n > 0 ==> Follows(steps, plan, n - 1) && Fits(steps[n - 1], plan[n - 1])
  }

  /** A run of `n` steps as planned. */
  ghost predicate PlanRun(ls: seq<Ledger>, steps: seq<Step>, plan: seq<Option<Payload>>, n: nat) {
    |steps| == n <= |plan| && |ls| == n + 1 && RunOk(ls, steps, n) && Follows(steps, plan, n)
  }

  ghost predicate NeverExposes(ls: seq<Ledger>, steps: seq<Step>, n: nat)
    requires n <= |steps| < |ls|
  {
    n > 0 ==>
      NeverExposes(ls, steps, n - 1) && (steps[n - 1].Poll? ==> !Exposes(ls[n - 1], steps[n - 1].payload))
  }

  lemma {:induction false} Local(ls: seq<Ledger>, steps: seq<Step>, ls': seq<Ledger>, steps': seq<Step>,
                                 plan: seq<Option<Payload>>, n: nat)
    requires n <= |steps| < |ls| && n <= |steps'| < |ls'| && n <= |plan|
    requires (forall i :: 0 <= i <= n ==> ls'[i] == ls[i]) && (forall i :: 0 <= i < n ==> steps'[i] == steps[i])
    ensures RunOk(ls', steps', n) <==> RunOk(ls, steps, n)
    ensures Follows(steps', plan, n) <==> Follows(steps, plan, n)
    ensures NeverOverlooks(ls', steps', n) <==> NeverOverlooks(ls, steps, n)
  {
    if n > 0 {
      Local(ls, steps, ls', steps', plan, n - 1);
    }
  }

  /** One more step at the end of a run. */
  lemma {:induction false} AddStep(ls: seq<Ledger>, steps: seq<Step>, plan: seq<Option<Payload>>, n: nat, step: Step,
                                   after: Ledger)
    requires PlanRun(ls, steps, plan, n) && n < |plan| && Allowed(ls[n], step, after) && Fits(step, plan[n])
    ensures PlanRun(ls + [after], steps + [step], plan, n + 1)
    ensures NeverOverlooks(ls + [after], steps + [step], n + 1) <==>
              NeverOverlooks(ls, steps, n) && !Overlooks(ls[n], step)
  {
    Local(ls, steps, ls + [after], steps + [step], plan, n);
  }

  lemma {:induction false} StepExists(before: Ledger, plan: Option<Payload>) returns (step: Step, after: Ledger)
    ensures Allowed(before, step, after) && Fits(step, plan)
  {
    if plan.Some? {
      step, after := PollExists(before, plan.value);
    } else {
      step, after := Touch, before;
    }
  }

  /** If some run as planned gets to a poll that may overlook mail, some run overlooks mail. */
  lemma {:induction false} BadRun(ls: seq<Ledger>, steps: seq<Step>, plan: seq<Option<Payload>>, n: nat)
    returns (ls': seq<Ledger>, steps': seq<Step>)
    requires PlanRun(ls, steps, plan, n) && !NeverExposes(ls, steps, n)
    ensures PlanRun(ls', steps', plan, n) && !NeverOverlooks(ls', steps', n)
  {
    var init, before := steps[..n - 1], ls[..n];
    Local(ls, steps, before, init, plan, n - 1);
    SameExposure(ls, steps, before, init, n - 1);
    var step: Step, after: Ledger;
    if NeverExposes(ls, steps, n - 1) {
      ls', steps' := before, init;
      step, after := UnsureStep(ls[n - 1], steps[n - 1].payload);
    } else {
      ls', steps' := BadRun(before, init, plan, n - 1);
      step, after := StepExists(ls'[n - 1], plan[n - 1]);
    }
    AddStep(ls', steps', plan, n - 1, step, after);
    ls', steps' := ls' + [after], steps' + [step];
  }

  lemma {:induction false} SameExposure(ls: seq<Ledger>, steps: seq<Step>, ls': seq<Ledger>, steps': seq<Step>, n: nat)
    requires n <= |steps| < |ls| && n <= |steps'| < |ls'|
    requires (forall i :: 0 <= i <= n ==> ls'[i] == ls[i]) && (forall i :: 0 <= i < n ==> steps'[i] == steps[i])
    ensures NeverExposes(ls', steps', n) <==> NeverExposes(ls, steps, n)
  {
    if n > 0 {
      SameExposure(ls, steps, ls', steps', n - 1);
    }
  }

  lemma {:induction false} UnexposedRun(ls: seq<Ledger>, steps: seq<Step>, n: nat)
    requires n <= |steps| < |ls| && RunOk(ls, steps, n) && NeverExposes(ls, steps, n)
    ensures NeverOverlooks(ls, steps, n)
  {
    if n > 0 {
      UnexposedRun(ls, steps, n - 1);
      if steps[n - 1].Poll? {
        SureStep(ls[n - 1], steps[n - 1], ls[n]);
      }
    }
  }

  /** For any dates and any plan of polls and other changes: every run records each mail once
      exactly when no run gets to a poll that brings stored mail with 5000 others at least as
      new. */
  lemma {:induction false} RecordedTwiceIff(plan: seq<Option<Payload>>)
    ensures (forall ls: seq<Ledger>, steps: seq<Step> ::
               PlanRun(ls, steps, plan, |plan|) ==> Distinct(ls[|plan|].recorded))
            <==> (forall ls: seq<Ledger>, steps: seq<Step> ::
                    PlanRun(ls, steps, plan, |plan|) ==> NeverExposes(ls, steps, |plan|))
  {
    var n := |plan|;
    if ls: seq<Ledger>, steps: seq<Step> :| PlanRun(ls, steps, plan, n) && !NeverExposes(ls, steps, n) {
      var ls', steps' := BadRun(ls, steps, plan, n);
      RecordedOnceIff(ls', steps', n);
      assert PlanRun(ls', steps', plan, n) && !Distinct(ls'[n].recorded);
    } else {
      forall ls: seq<Ledger>, steps: seq<Step> | PlanRun(ls, steps, plan, n) ensures Distinct(ls[n].recorded) {
        UnexposedRun(ls, steps, n);
        RecordedOnceIff(ls, steps, n);
      }
    }
  }
}
