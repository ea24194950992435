/** The stored list of page monitors, and one round of checks over it. */
module UrlMonitors {
  import opened Common
  import opened PyText

  const MAX_ENABLED := 10
  const MIN_INTERVAL := 30
  const MAX_INTERVAL := 1440
  const DEFAULT_INTERVAL := 60
  const MAX_CHECKS_PER_CRON := 3
  const SECONDS := 60

  /** Times are in seconds, intervals in minutes. */
  datatype Monitor = Monitor(
    id: string, enabled: bool, name: string, url: string, interval: Option<int>,
    lastHash: Option<string>, lastTitle: Option<string>, checkedAt: Option<int>, lastError: Option<string>)

  /** A change notification; monitor and digest are its key. */
  datatype Alert = Alert(monitor: string, digest: string)

  /** What looking at a page came to, and when that was written down. */
  datatype Visit = Failed(at: int, error: string) | Page(at: int, digest: string, title: string)

  /** One round: forced or not, the caller's cap if any, the clock, and what fetching each
      monitor's page would give. */
  datatype Round = Round(force: bool, maxChecks: Option<int>, now: int, pages: map<string, Visit>)

  datatype Change = Change(name: Option<string>, url: Option<string>, enabled: Option<bool>,
                           interval: Option<Option<int>>)

  datatype Outcome = Done | NotValid | TooMany | NotFound

  // ----- One row -----

  function ClampInterval(raw: Option<int>): int {
    Max(MIN_INTERVAL, Min(MAX_INTERVAL, if raw.Some? then raw.value else DEFAULT_INTERVAL))
  }

  predicate DueForCheck(m: Monitor, now: int) {
    m.enabled && (m.checkedAt.None? || now >= m.checkedAt.value + SECONDS * ClampInterval(m.interval))
  }

  /** Rows a round would look at if nothing capped it. */
  predicate Eligible(m: Monitor, r: Round) {
    m.enabled && m.id != "" && m.url != "" && (r.force || DueForCheck(m, r.now))
  }

  function Limit(r: Round): Option<nat> {
    if r.maxChecks.Some? then Some(if r.maxChecks.value < 0 then 0 else r.maxChecks.value)
    else if r.force then None
    else Some(MAX_CHECKS_PER_CRON)
  }

  /** A page that is not listed could not be fetched. */
  function Look(r: Round, id: string): Visit {
    if id in r.pages then r.pages[id] else Failed(r.now, "")
  }

  function Patched(m: Monitor, v: Visit): Monitor {
    match v
    case Failed(at, error) => m.(checkedAt := Some(at), lastError := Some(error))
    case Page(at, digest, title) =>
      m.(checkedAt := Some(at), lastHash := Some(digest), lastTitle := if title != "" then Some(title) else m.lastTitle,
      lastError := None)
  }

  /** The first sight of a page, an unchanged page and a digest announced before raise nothing. */
  predicate Raises(m: Monitor, v: Visit, alerts: seq<Alert>) {
    v.Page? && m.lastHash.Some? && m.lastHash.value != v.digest && Alert(m.id, v.digest) !in alerts
  }

  // ----- A whole round -----

  function EligibleCount(ms: seq<Monitor>, n: nat, r: Round): nat
    requires n <= |ms|
  {
    if n == 0 then 0 else EligibleCount(ms, n - 1, r) + if Eligible(ms[n - 1], r) then 1 else 0
  }

  /** A row is visited when it is eligible and the cap is not used up by rows before it. */
  predicate Visited(ms: seq<Monitor>, i: nat, r: Round)
    requires i < |ms|
  {
    Eligible(ms[i], r) && (Limit(r).Some? ==> EligibleCount(ms, i, r) < Limit(r).value)
  }

  function RowAfter(ms: seq<Monitor>, i: nat, r: Round): Monitor
    requires i < |ms|
  {
    if Visited(ms, i, r) then Patched(ms[i], Look(r, ms[i].id)) else ms[i]
  }

  function RowsAfter(ms: seq<Monitor>, n: nat, r: Round): (rows: seq<Monitor>)
    requires n <= |ms|
    ensures |rows| == n
  {
    if n == 0 then [] else RowsAfter(ms, n - 1, r) + [RowAfter(ms, n - 1, r)]
  }

  function AlertsAfter(ms: seq<Monitor>, n: nat, alerts: seq<Alert>, r: Round): seq<Alert>
    requires n <= |ms|
  {
    if n == 0 then alerts
    else
      var before := AlertsAfter(ms, n - 1, alerts, r);
      if Visited(ms, n - 1, r) && Raises(ms[n - 1], Look(r, ms[n - 1].id), before)
      then before + [Alert(ms[n - 1].id, Look(r, ms[n - 1].id).digest)]
      else before
  }

  lemma {:induction false} RowsAfterAt(ms: seq<Monitor>, n: nat, i: nat, r: Round)
    requires i < n <= |ms|
    ensures RowsAfter(ms, n, r)[i] == RowAfter(ms, i, r)
  {
    var before := RowsAfter(ms, n - 1, r);
    if i < n - 1 {
      RowsAfterAt(ms, n - 1, i, r);
      assert (before + [RowAfter(ms, n - 1, r)])[i] == before[i];
    }
  }

  // ----- Ids -----

  ghost predicate IdsDiffer(ms: seq<Monitor>, i: int, j: int) {
    0 <= i < j < |ms| ==> ms[i].id != ms[j].id
  }

  ghost predicate DistinctIds(ms: seq<Monitor>) {
    forall i, j :: IdsDiffer(ms, i, j)
  }

  /** The first row with this id from `i` on, or the end of the list. */
  function FirstWith(ms: seq<Monitor>, id: string, i: nat): (k: nat)
    requires i <= |ms|
    ensures i <= k <= |ms|
    ensures k < |ms| ==> ms[k].id == id
    ensures forall j :: i <= j < k ==> ms[j].id != id
    decreases |ms| - i
  {
    if i == |ms| || ms[i].id == id then i else FirstWith(ms, id, i + 1)
  }

  lemma {:induction false} FoundAt(ms: seq<Monitor>, i: nat)
    requires DistinctIds(ms) && i < |ms|
    ensures FirstWith(ms, ms[i].id, 0) == i
  {
    var k := FirstWith(ms, ms[i].id, 0);
    assert IdsDiffer(ms, k, i);
  }

  lemma {:induction false} DistinctIdsFrom(a: seq<Monitor>, b: seq<Monitor>)
    requires DistinctIds(a) && |b| == |a| && (forall i :: 0 <= i < |a| ==> b[i].id == a[i].id)
    ensures DistinctIds(b)
  {
    forall i, j | 0 <= i < j < |b| ensures b[i].id != b[j].id {
      assert IdsDiffer(a, i, j);
    }
  }

  // ----- Editing -----

  function CountEnabled(ms: seq<Monitor>, n: nat): nat
    requires n <= |ms|
  {
    if n == 0 then 0 else CountEnabled(ms, n - 1) + if ms[n - 1].enabled then 1 else 0
  }

  function Without(ms: seq<Monitor>, n: nat, id: string): seq<Monitor>
    requires n <= |ms|
  {
    if n == 0 then []
    else if ms[n - 1].id != id then Without(ms, n - 1, id) + [ms[n - 1]]
    else Without(ms, n - 1, id)
  }

  function Or(a: Option<string>, b: string): string {
    if a.Some? then a.value else b
  }

  /** A name that is not blank and a web address; what counts as one is `isWeb`. */
  predicate ValidFields(name: string, url: string, isWeb: string -> bool) {
    Strip(name) != "" && Strip(url) != "" && isWeb(Strip(url))
  }

  /** The row a valid change produces; another address forgets what was seen at the old one. */
  function Edited(m: Monitor, c: Change): Monitor {
    var url := Strip(Or(c.url, m.url));
    var m' := if url != m.url then m.(lastHash := None, lastTitle := None, lastError := None) else m;
    m'.(name := Strip(Or(c.name, m.name)), url := url,
    enabled := if c.enabled.Some? then c.enabled.value else m.enabled,
    interval := Some(ClampInterval(if c.interval.Some? then c.interval.value else m.interval)))
  }

  function NewRow(id: string, name: string, url: string, enabled: bool, interval: Option<int>): Monitor {
    Monitor(id, enabled, Strip(name), Strip(url), Some(ClampInterval(interval)), None, None, None, None)
  }

  function Created(ms: seq<Monitor>, m: Monitor): (Outcome, seq<Monitor>) {
    if m.enabled && CountEnabled(ms, |ms|) >= MAX_ENABLED then (TooMany, ms) else (Done, ms + [m])
  }

  function Updated(ms: seq<Monitor>, id: string, c: Change, isWeb: string -> bool): (Outcome, seq<Monitor>) {
    var k := FirstWith(ms, id, 0);
    if k == |ms| then (NotFound, ms)
    else if !ValidFields(Or(c.name, ms[k].name), Or(c.url, ms[k].url), isWeb) then (NotValid, ms)
    else
      var m := Edited(ms[k], c);
      var others := Without(ms, |ms|, id);
      if m.enabled && !ms[k].enabled && CountEnabled(others, |others|) >= MAX_ENABLED then (TooMany, ms)
      else (Done, ms[k := m])
  }

  function Deleted(ms: seq<Monitor>, id: string): (Outcome, seq<Monitor>) {
    var rest := Without(ms, |ms|, id);
    if |rest| == |ms| then (NotFound, ms) else (Done, rest)
  }

  // ----- The stored configuration -----

  class Config {
    var filters: seq<string>
    var monitors: seq<Monitor>
    var alerts: seq<Alert>

    method CountMonitors(rows: seq<Monitor>) returns (count: nat)
      ensures count == CountEnabled(rows, |rows|)
    {
      count := 0;
      for i := 0 to |rows|
        invariant count == CountEnabled(rows, i)
      {
        if rows[i].enabled {
          count := count + 1;
        }
      }
    }

    method FindRow(id: string) returns (k: nat)
      ensures k == FirstWith(monitors, id, 0)
    {
      k := 0;
      while k < |monitors| && monitors[k].id != id
        invariant k <= |monitors| && FirstWith(monitors, id, k) == FirstWith(monitors, id, 0)
      {
        k := k + 1;
      }
    }

    method Others(id: string) returns (rows: seq<Monitor>)
      ensures rows == Without(monitors, |monitors|, id)
    {
      rows := [];
      for i := 0 to |monitors|
        invariant rows == Without(monitors, i, id)
      {
        if monitors[i].id != id {
          rows := rows + [monitors[i]];
        }
      }
    }

    method CreateUrlMonitor(id: string, name: string, url: string, enabled: bool, interval: Option<int>,
                            isWeb: string -> bool)
      returns (r: Outcome)
      modifies this
      ensures filters == old(filters) && alerts == old(alerts)
      ensures (r, monitors) ==
              if ValidFields(name, url, isWeb) then Created(old(monitors), NewRow(id, name, url, enabled, interval))
              else (NotValid, old(monitors))
    {
      if !ValidFields(name, url, isWeb) {
        return NotValid;
      }
      if enabled {
        var count := CountMonitors(monitors);
        if count >= MAX_ENABLED {
          return TooMany;
        }
      }
      monitors := monitors + [NewRow(id, name, url, enabled, interval)];
      r := Done;
    }

    method UpdateUrlMonitor(id: string, c: Change, isWeb: string -> bool) returns (r: Outcome)
      modifies this
      ensures filters == old(filters) && alerts == old(alerts)
      ensures (r, monitors) == Updated(old(monitors), id, c, isWeb)
    {
      var k := FindRow(id);
      if k == |monitors| {
        return NotFound;
      }
      var current := monitors[k];
      if !ValidFields(Or(c.name, current.name), Or(c.url, current.url), isWeb) {
        return NotValid;
      }
      var m := Edited(current, c);
      if m.enabled && !current.enabled {
        var others := Others(id);
        var count := CountMonitors(others);
        if count >= MAX_ENABLED {
          return TooMany;
        }
      }
      monitors := monitors[k := m];
      r := Done;
    }

    method DeleteUrlMonitor(id: string) returns (r: Outcome)
      modifies this
      ensures filters == old(filters) && alerts == old(alerts)
      ensures (r, monitors) == Deleted(old(monitors), id)
    {
      var rest := Others(id);
      if |rest| == |monitors| {
        return NotFound;
      }
      monitors := rest;
      r := Done;
    }

    /** Writes back what a visit changes; a row that is gone stays gone. */
    method PersistMonitorRow(id: string, seen: Monitor, v: Visit)
      modifies this`monitors
      ensures var ms := old(monitors); var k := FirstWith(ms, id, 0);
              monitors == if k == |ms| then ms
                          else
                            var title := if v.Page? then seen.lastTitle else ms[k].lastTitle;
                            ms[k := Patched(ms[k].(lastTitle := title), v)]
    {
      var k := FindRow(id);
      if k < |monitors| {
        var m := monitors[k];
        if v.Page? {
          m := m.(lastTitle := seen.lastTitle);
        }
        monitors := monitors[k := Patched(m, v)];
      }
    }

    method EvaluateUrlMonitors(r: Round) returns (notified: nat)
      requires DistinctIds(monitors)
      modifies this
      ensures filters == old(filters)
      ensures monitors == RowsAfter(old(monitors), |old(monitors)|, r)
      ensures alerts == AlertsAfter(old(monitors), |old(monitors)|, old(alerts), r)
      ensures |alerts| == |old(alerts)| + notified
    {
      notified := 0;
      var rows, i, checked := monitors, 0, 0;
      while i < |rows|
        invariant i <= |rows| && filters == old(filters)
        invariant monitors == Cat(RowsAfter(rows, i, r), rows[i..])
        invariant alerts == AlertsAfter(rows, i, old(alerts), r)
        invariant checked == EligibleCount(rows, i, r) && |alerts| == |old(alerts)| + notified
      {
        var mon := rows[i];
        Ahead(rows, i, r);
        if Eligible(mon, r) {
          if Limit(r).Some? && checked >= Limit(r).value {
            CapReached(rows, i, |rows|, old(alerts), r);
            return;
          }
          checked := checked + 1;
          var v := Look(r, mon.id);
          if Raises(mon, v, alerts) {
            alerts := alerts + [Alert(mon.id, v.digest)];
            notified := notified + 1;
          }
          PersistMonitorRow(mon.id, mon, v);
        }
        i := i + 1;
      }
    }
  }

  /** A round partway through: row `i` is untouched and is the first with its id, and
      writing it back completes one more row. */
  lemma {:induction false} Ahead(rows: seq<Monitor>, i: nat, r: Round)
    requires DistinctIds(rows) && i < |rows|
    ensures var ms := Cat(RowsAfter(rows, i, r), rows[i..]);
            && |ms| == |rows| && ms[i] == rows[i] && FirstWith(ms, rows[i].id, 0) == i
            && ms[i := RowAfter(rows, i, r)] == Cat(RowsAfter(rows, i + 1, r), rows[i + 1..])
  {
    var done := RowsAfter(rows, i, r);
    var ms := Cat(done, rows[i..]);
    CatIsAppend(done, rows[i..]);
    CatIsAppend(RowsAfter(rows, i + 1, r), rows[i + 1..]);
    forall j | 0 <= j < |rows| ensures ms[j].id == rows[j].id {
      if j < i {
        RowsAfterAt(rows, i, j, r);
      }
    }
    DistinctIdsFrom(rows, ms);
    FoundAt(ms, i);
    WrittenBack(done, rows, i, RowAfter(rows, i, r));
  }

  lemma {:induction false} WrittenBack(done: seq<Monitor>, rows: seq<Monitor>, i: nat, m: Monitor)
    requires |done| == i < |rows|
    ensures (done + rows[i..])[i := m] == (done + [m]) + rows[i + 1..]
  {
    var a, b := (done + rows[i..])[i := m], (done + [m]) + rows[i + 1..];
    assert |a| == |b|;
    forall j | 0 <= j < |a| ensures a[j] == b[j] {
    }
  }

  /** Once the cap is used up nothing further happens. */
  lemma {:induction false} CapReached(rows: seq<Monitor>, i: nat, n: nat, alerts: seq<Alert>, r: Round)
    requires i <= n <= |rows| && Limit(r).Some? && EligibleCount(rows, i, r) >= Limit(r).value
    ensures EligibleCount(rows, n, r) >= Limit(r).value
    ensures RowsAfter(rows, n, r) == Cat(RowsAfter(rows, i, r), rows[i..n])
    ensures AlertsAfter(rows, n, alerts, r) == AlertsAfter(rows, i, alerts, r)
  {
    CatIsAppend(RowsAfter(rows, i, r), rows[i..n]);
    if i < n {
      CapReached(rows, i, n - 1, alerts, r);
      CatIsAppend(RowsAfter(rows, i, r), rows[i..n - 1]);
      assert rows[i..n] == rows[i..n - 1] + [rows[n - 1]];
    }
  }
}
