/** Whole histories of the monitor list: edits and rounds of checks in any order. */
module UrlMonitorRuns {
  import opened Common
  import opened UrlMonitors

  datatype State = State(monitors: seq<Monitor>, alerts: seq<Alert>)

  datatype Command =
    | Create(id: string, name: string, url: string, enabled: bool, interval: Option<int>)
    | Update(id: string, change: Change)
    | Delete(id: string)
    | Evaluate(round: Round)

  /** What counts as a web address; any predicate will do. */
  type Web = string -> bool

  function Step(s: State, c: Command, isWeb: Web): State {
    match c
    case Create(id, name, url, enabled, interval) =>
      if ValidFields(name, url, isWeb)
      then s.(monitors := Created(s.monitors, NewRow(id, name, url, enabled, interval)).1) else s
    case Update(id, change) => s.(monitors := Updated(s.monitors, id, change, isWeb).1)
    case Delete(id) => s.(monitors := Deleted(s.monitors, id).1)
    case Evaluate(r) =>
      State(RowsAfter(s.monitors, |s.monitors|, r), AlertsAfter(s.monitors, |s.monitors|, s.alerts, r))
  }

  function Run(cs: seq<Command>, n: nat, isWeb: Web): State
    requires n <= |cs|
  {
    if n == 0 then State([], []) else Step(Run(cs, n - 1, isWeb), cs[n - 1], isWeb)
  }

  /** Ids are drawn at random when a monitor is created; none is drawn that is in use. */
  ghost predicate FreshIds(cs: seq<Command>, n: nat, isWeb: Web)
    requires n <= |cs|
  {
    n > 0 ==>
      FreshIds(cs, n - 1, isWeb) && (cs[n - 1].Create? ==> NotInUse(Run(cs, n - 1, isWeb).monitors, cs[n - 1].id))
  }

  ghost predicate NotInUse(ms: seq<Monitor>, id: string) {
    FirstWith(ms, id, 0) == |ms|
  }

  // ----- What one monitor saw -----

  /** A digest that was fetched, or a moment after which nothing seen before matters. */
  datatype Mark = Reset | Saw(digest: string)

  /** The mark a command leaves for one monitor, if any. */
  function MarkOf(s: State, c: Command, id: string, isWeb: Web): Option<Mark> {
    var k := FirstWith(s.monitors, id, 0);
    match c
    case Create(id', _, _, _, _) =>
      if id' == id && Step(s, c, isWeb) != s then Some(Reset) else None
    case Update(id', change) =>
      var after := Step(s, c, isWeb).monitors;
      if id' == id && k < |s.monitors| && k < |after| && after[k].url != s.monitors[k].url then Some(Reset) else None
    case Delete(_) => None
    case Evaluate(r) =>
      if k < |s.monitors| && Visited(s.monitors, k, r) && Look(r, id).Page? then Some(Saw(Look(r, id).digest)) else None
  }

  function Marks(cs: seq<Command>, n: nat, id: string, isWeb: Web): seq<Mark>
    requires n <= |cs|
  {
    if n == 0 then []
    else
      var before := Marks(cs, n - 1, id, isWeb);
      var m := MarkOf(Run(cs, n - 1, isWeb), cs[n - 1], id, isWeb);
      if m.Some? then before + [m.value] else before
  }

  /** Whether mark `i` is a digest that differs from the digest seen just before it. */
  predicate Changed(marks: seq<Mark>, i: int) {
    1 <= i < |marks| && marks[i].Saw? && marks[i - 1].Saw? && marks[i].digest != marks[i - 1].digest
  }

  /** The history a user should see: every change, at its first occurrence only. */
  function Announced(marks: seq<Mark>, n: nat): seq<string>
    requires n <= |marks|
  {
    if n == 0 then []
    else
      var before := Announced(marks, n - 1);
      if Changed(marks, n - 1) && marks[n - 1].digest !in before then before + [marks[n - 1].digest] else before
  }

  /** A digest is in the history exactly when some change led to it, and only once. */
  lemma {:induction false} AnnouncedOnce(marks: seq<Mark>, n: nat)
    requires n <= |marks|
    ensures Distinct(Announced(marks, n))
    ensures forall d :: d in Announced(marks, n) <==>
              exists i :: 0 <= i < n && Changed(marks, i) && marks[i].digest == d
  {
    if n > 0 {
      AnnouncedOnce(marks, n - 1);
      var before := Announced(marks, n - 1);
      if Changed(marks, n - 1) && marks[n - 1].digest !in before {
        DistinctSnoc(before, marks[n - 1].digest);
      }
    }
  }

  lemma {:induction false} AnnouncedLocal(a: seq<Mark>, b: seq<Mark>, n: nat)
    requires n <= |a| <= |b| && a == b[..|a|]
    ensures Announced(a, n) == Announced(b, n)
  {
    if n > 0 {
      AnnouncedLocal(a, b, n - 1);
    }
  }

  /** Alerts that were sent for one monitor, in order. */
  function Sent(alerts: seq<Alert>, id: string): seq<string> {
    if alerts == [] then []
    else
      var last := alerts[|alerts| - 1];
      if last.monitor == id then Sent(alerts[..|alerts| - 1], id) + [last.digest] else Sent(alerts[..|alerts| - 1], id)
  }

  lemma {:induction false} SentMembers(alerts: seq<Alert>, id: string)
    ensures forall d :: d in Sent(alerts, id) <==> Alert(id, d) in alerts
  {
    if alerts != [] {
      SentMembers(alerts[..|alerts| - 1], id);
      InitLast(alerts);
    }
  }

  // ----- One round, seen from one monitor -----

  /** A round sends at most one alert for a monitor, and none for a row it does not visit. */
  lemma {:induction false} SentByRound(ms: seq<Monitor>, n: nat, alerts: seq<Alert>, r: Round, id: string)
    requires DistinctIds(ms) && n <= |ms|
    ensures var k := FirstWith(ms, id, 0);
            Sent(AlertsAfter(ms, n, alerts, r), id) ==
            if k < n && Visited(ms, k, r) && Raises(ms[k], Look(r, id), alerts)
            then Sent(alerts, id) + [Look(r, id).digest] else Sent(alerts, id)
  {
    if n > 0 {
      SentByRound(ms, n - 1, alerts, r, id);
      var before, m := AlertsAfter(ms, n - 1, alerts, r), ms[n - 1];
      var k := FirstWith(ms, id, 0);
      SentMembers(before, id);
      SentMembers(alerts, id);
      if m.id == id {
        FoundAt(ms, n - 1);
      }
    }
  }

  // ----- Every history -----

  function LastSeen(marks: seq<Mark>): Option<string> {
    if marks != [] && marks[|marks| - 1].Saw? then Some(marks[|marks| - 1].digest) else None
  }

  /** How one monitor's row and alerts stand in relation to its marks. */
  ghost predicate Agrees(s: State, marks: seq<Mark>, id: string) {
    var k := FirstWith(s.monitors, id, 0);
    && (k < |s.monitors| ==> s.monitors[k].lastHash == LastSeen(marks))
    && Sent(s.alerts, id) == Announced(marks, |marks|)
  }

  /** The alerts sent for a monitor are its announced changes, whatever edits, deletions and
      rounds, forced or not, capped or not, with or without failing fetches, went before. */
  lemma {:induction false} AlertsAreChanges(cs: seq<Command>, n: nat, id: string, isWeb: Web)
    requires n <= |cs| && FreshIds(cs, n, isWeb)
    ensures DistinctIds(Run(cs, n, isWeb).monitors)
    ensures Agrees(Run(cs, n, isWeb), Marks(cs, n, id, isWeb), id)
  {
    if n > 0 {
      AlertsAreChanges(cs, n - 1, id, isWeb);
      var s, c := Run(cs, n - 1, isWeb), cs[n - 1];
      StepAgrees(s, c, Marks(cs, n - 1, id, isWeb), id, isWeb);
    }
  }

  function After(marks: seq<Mark>, m: Option<Mark>): seq<Mark> {
    if m.Some? then marks + [m.value] else marks
  }

  lemma {:induction false} StepAgrees(s: State, c: Command, marks: seq<Mark>, id: string, isWeb: Web)
    requires DistinctIds(s.monitors) && Agrees(s, marks, id)
    requires c.Create? ==> NotInUse(s.monitors, c.id)
    ensures DistinctIds(Step(s, c, isWeb).monitors)
    ensures Agrees(Step(s, c, isWeb), After(marks, MarkOf(s, c, id, isWeb)), id)
  {
    match c {
      case Create(_, _, _, _, _) => {
        CreateAgrees(s, c, id, isWeb);
        ResetIsQuiet(marks);
      }
      case Update(_, _) => {
        UpdateAgrees(s, c, id, isWeb);
        ResetIsQuiet(marks);
      }
      case Delete(id') => {
        DeleteAgrees(s.monitors, |s.monitors|, id', id);
      }
      case Evaluate(r) => {
        RoundAgrees(s, r, marks, id, isWeb);
      }
    }
  }

  lemma {:induction false} RoundAgrees(s: State, r: Round, marks: seq<Mark>, id: string, isWeb: Web)
    requires DistinctIds(s.monitors) && Agrees(s, marks, id)
    ensures DistinctIds(Step(s, Evaluate(r), isWeb).monitors)
    ensures Agrees(Step(s, Evaluate(r), isWeb), After(marks, MarkOf(s, Evaluate(r), id, isWeb)), id)
  {
    EvaluateAgrees(s, marks, r, id);
    MarkAnnounced(marks, Look(r, id));
  }

  lemma {:induction false} ResetIsQuiet(marks: seq<Mark>)
    ensures Announced(marks + [Reset], |marks| + 1) == Announced(marks, |marks|)
    ensures LastSeen(marks + [Reset]) == None
  {
    AnnouncedLocal(marks, marks + [Reset], |marks|);
  }

  lemma {:induction false} MarkAnnounced(marks: seq<Mark>, v: Visit)
    ensures v.Page? ==>
              var more, old' := marks + [Saw(v.digest)], Announced(marks, |marks|);
              && LastSeen(more) == Some(v.digest)
              && Announced(more, |more|) ==
                 if LastSeen(marks).Some? && LastSeen(marks).value != v.digest && v.digest !in old'
                 then old' + [v.digest] else old'
  {
    if v.Page? {
      AnnouncedLocal(marks, marks + [Saw(v.digest)], |marks|);
    }
  }

  lemma {:induction false} FoundOnly(ms: seq<Monitor>, id: string, k: nat)
    requires DistinctIds(ms) && k < |ms| && ms[k].id == id
    ensures FirstWith(ms, id, 0) == k
  {
    FoundAt(ms, k);
  }

  lemma {:induction false} CreateAgrees(s: State, c: Command, id: string, isWeb: Web)
    requires c.Create? && DistinctIds(s.monitors) && NotInUse(s.monitors, c.id)
    ensures var after, k := Step(s, c, isWeb).monitors, FirstWith(s.monitors, id, 0);
            && DistinctIds(after)
            && (after == s.monitors ||
                var k' := FirstWith(after, id, 0);
                if c.id == id then k' < |after| && after[k'].lastHash == None
                else k' < |after| ==> k < |s.monitors| && after[k'] == s.monitors[k])
  {
    var ms, after, k := s.monitors, Step(s, c, isWeb).monitors, FirstWith(s.monitors, id, 0);
    if after != ms {
      forall i, j | 0 <= i < j < |after| ensures after[i].id != after[j].id {
        assert IdsDiffer(ms, i, j);
      }
      if c.id == id {
        FoundOnly(after, id, |ms|);
      } else if k < |ms| {
        FoundOnly(after, id, k);
      } else {
        assert forall j :: 0 <= j < |after| ==> after[j].id != id;
      }
    }
  }

  lemma {:induction false} UpdateAgrees(s: State, c: Command, id: string, isWeb: Web)
    requires c.Update? && DistinctIds(s.monitors)
    ensures var ms, after, k := s.monitors, Step(s, c, isWeb).monitors, FirstWith(s.monitors, id, 0);
            && DistinctIds(after) && |after| == |ms| && FirstWith(after, id, 0) == k
            && (k < |ms| ==>
                  after[k].lastHash == if MarkOf(s, c, id, isWeb) == Some(Reset) then None else ms[k].lastHash)
  {
    var ms, after, k := s.monitors, Step(s, c, isWeb).monitors, FirstWith(s.monitors, id, 0);
    DistinctIdsFrom(ms, after);
    if k < |ms| {
      FoundOnly(after, id, k);
    } else {
      assert forall j :: 0 <= j < |after| ==> after[j].id != id;
    }
  }

  lemma {:induction false} DeleteAgrees(ms: seq<Monitor>, n: nat, gone: string, id: string)
    requires DistinctIds(ms) && n <= |ms|
    ensures var rest := Without(ms, n, gone);
            && DistinctIds(rest)
            && (forall m :: m in rest ==> m in ms[..n])
            && (FirstWith(rest, id, 0) < |rest| ==>
                  FirstWith(ms, id, 0) < |ms| && rest[FirstWith(rest, id, 0)] == ms[FirstWith(ms, id, 0)])
  {
    if n > 0 {
      DeleteAgrees(ms, n - 1, gone, id);
      var before, rest := Without(ms, n - 1, gone), Without(ms, n, gone);
      assert forall m :: m in ms[..n - 1] ==> m in ms[..n];
      if ms[n - 1].id != gone {
        forall i, j | 0 <= i < j < |rest| ensures rest[i].id != rest[j].id {
          assert IdsDiffer(before, i, j);
          if j == |before| {
            assert rest[i] in before;
            var q :| 0 <= q < n - 1 && ms[q] == rest[i];
            assert IdsDiffer(ms, q, n - 1);
          }
        }
        var k := FirstWith(rest, id, 0);
        if k < |rest| {
          assert rest[k] in rest;
          var q :| 0 <= q < n && ms[q] == rest[k];
          FoundOnly(ms, id, q);
        }
      }
    }
  }

  lemma {:induction false} EvaluateAgrees(s: State, marks: seq<Mark>, r: Round, id: string)
    requires DistinctIds(s.monitors) && Agrees(s, marks, id)
    ensures var after := State(RowsAfter(s.monitors, |s.monitors|, r),
                               AlertsAfter(s.monitors, |s.monitors|, s.alerts, r));
            var k := FirstWith(s.monitors, id, 0);
            && DistinctIds(after.monitors)
            && FirstWith(after.monitors, id, 0) == k
            && (k < |s.monitors| ==> after.monitors[k] == RowAfter(s.monitors, k, r))
            && Sent(after.alerts, id) ==
               if k < |s.monitors| && Visited(s.monitors, k, r) && Look(r, id).Page? && LastSeen(marks).Some?
                  && LastSeen(marks).value != Look(r, id).digest && Look(r, id).digest !in Announced(marks, |marks|)
               then Announced(marks, |marks|) + [Look(r, id).digest] else Announced(marks, |marks|)
  {
    var ms := s.monitors;
    var after := RowsAfter(ms, |ms|, r);
    forall i | 0 <= i < |ms| ensures after[i] == RowAfter(ms, i, r) && after[i].id == ms[i].id {
      RowsAfterAt(ms, |ms|, i, r);
    }
    DistinctIdsFrom(ms, after);
    var k := FirstWith(ms, id, 0);
    if k < |ms| {
      FoundOnly(after, id, k);
    } else {
      assert forall j :: 0 <= j < |after| ==> after[j].id != id;
    }
    SentByRound(ms, |ms|, s.alerts, r, id);
    SentMembers(s.alerts, id);
  }

  // ----- The cap on enabled monitors -----

  lemma {:induction false} CountSnoc(a: seq<Monitor>, b: seq<Monitor>, n: nat)
    requires n <= |a| && n <= |b| && (forall i :: 0 <= i < n ==> a[i].enabled == b[i].enabled)
    ensures CountEnabled(a, n) == CountEnabled(b, n)
  {
    if n > 0 {
      CountSnoc(a, b, n - 1);
    }
  }

  /** Leaving out one row, wherever it stands, takes away what it counted. */
  lemma {:induction false} CountWithout(ms: seq<Monitor>, n: nat, id: string)
    requires DistinctIds(ms) && n <= |ms|
    ensures var rest, k := Without(ms, n, id), FirstWith(ms, id, 0);
            CountEnabled(rest, |rest|) + (if k < n && ms[k].enabled then 1 else 0) == CountEnabled(ms, n)
  {
    if n > 0 {
      CountWithout(ms, n - 1, id);
      var before, rest := Without(ms, n - 1, id), Without(ms, n, id);
      if ms[n - 1].id == id {
        FoundOnly(ms, id, n - 1);
      } else {
        CountSnoc(before, rest, |before|);
      }
    }
  }

  /** Replacing one row changes the count by that row only. */
  lemma {:induction false} CountReplaced(ms: seq<Monitor>, n: nat, k: nat, m: Monitor)
    requires k < |ms| && n <= |ms|
    ensures CountEnabled(ms[k := m], n) + (if k < n && ms[k].enabled then 1 else 0)
            == CountEnabled(ms, n) + (if k < n && m.enabled then 1 else 0)
  {
    if n > 0 {
      CountReplaced(ms, n - 1, k, m);
    }
  }

  /** At no point of any history are more than ten monitors enabled. */
  lemma {:induction false} CapKept(cs: seq<Command>, n: nat, isWeb: Web)
    requires n <= |cs| && FreshIds(cs, n, isWeb)
    ensures var ms := Run(cs, n, isWeb).monitors; CountEnabled(ms, |ms|) <= MAX_ENABLED
  {
    if n > 0 {
      CapKept(cs, n - 1, isWeb);
      AlertsAreChanges(cs, n - 1, "", isWeb);
      StepKeepsCap(Run(cs, n - 1, isWeb), cs[n - 1], isWeb);
    }
  }

  lemma {:induction false} StepKeepsCap(s: State, c: Command, isWeb: Web)
    requires DistinctIds(s.monitors) && CountEnabled(s.monitors, |s.monitors|) <= MAX_ENABLED
    ensures var ms := Step(s, c, isWeb).monitors; CountEnabled(ms, |ms|) <= MAX_ENABLED
  {
    var ms, after := s.monitors, Step(s, c, isWeb).monitors;
    match c {
      case Create(_, _, _, _, _) => {
        CountSnoc(ms, after, |ms|);
      }
      case Update(id, change) => {
        var k := FirstWith(ms, id, 0);
        if after != ms {
          CountWithout(ms, |ms|, id);
          CountReplaced(ms, |ms|, k, Edited(ms[k], change));
        }
      }
      case Delete(id) => {
        CountWithout(ms, |ms|, id);
      }
      case Evaluate(r) => {
        forall i | 0 <= i < |ms| ensures after[i].enabled == ms[i].enabled {
          RowsAfterAt(ms, |ms|, i, r);
        }
        CountSnoc(ms, after, |ms|);
      }
    }
  }
}
