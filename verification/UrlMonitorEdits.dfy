/** What creating, changing, deleting and visiting page monitors does, said of the rows. */
module UrlMonitorEdits {
  import opened Common
  import opened PyText
  import opened UrlMonitors

  /** The stored interval: an hour where none is given, brought into 30 minutes to a day. */
  ghost predicate IntervalIs(interval: Option<int>, raw: Option<int>) {
    var minutes := match raw case Some(n) => n case None => 60;
    interval == Some(if minutes < 30 then 30 else if minutes > 1440 then 1440 else minutes)
  }

  /** A name that is not blank, and a web address. */
  ghost predicate FieldsOk(name: string, url: string, isWeb: string -> bool) {
    Strip(name) != "" && Strip(url) != "" && isWeb(Strip(url))
  }

  /** Which enabled rows have another id. */
  ghost function EnabledBut(ms: seq<Monitor>, n: nat, id: string): set<int>
    requires n <= |ms|
  {
    set i | 0 <= i < n && ms[i].enabled && ms[i].id != id
  }

  ghost function EnabledRows(ms: seq<Monitor>, n: nat): set<int>
    requires n <= |ms|
  {
    set i | 0 <= i < n && ms[i].enabled
  }

  lemma {:induction false} CountIs(ms: seq<Monitor>, n: nat)
    requires n <= |ms|
    ensures CountEnabled(ms, n) == |EnabledRows(ms, n)|
  {
    if n > 0 {
      CountIs(ms, n - 1);
      if ms[n - 1].enabled {
        assert EnabledRows(ms, n) == EnabledRows(ms, n - 1) + {n - 1};
      } else {
        assert EnabledRows(ms, n) == EnabledRows(ms, n - 1);
      }
    }
  }

  lemma {:induction false} OthersCount(ms: seq<Monitor>, n: nat, id: string)
    requires n <= |ms|
    ensures CountEnabled(Without(ms, n, id), |Without(ms, n, id)|) == |EnabledBut(ms, n, id)|
  {
    if n > 0 {
      OthersCount(ms, n - 1, id);
      var before := Without(ms, n - 1, id);
      if ms[n - 1].id != id {
        CountPrefix(before, [ms[n - 1]], |before|);
      }
      if ms[n - 1].enabled && ms[n - 1].id != id {
        assert EnabledBut(ms, n, id) == EnabledBut(ms, n - 1, id) + {n - 1};
      } else {
        assert EnabledBut(ms, n, id) == EnabledBut(ms, n - 1, id);
      }
    }
  }

  lemma {:induction false} CountPrefix(a: seq<Monitor>, b: seq<Monitor>, n: nat)
    requires n <= |a|
    ensures CountEnabled(a + b, n) == CountEnabled(a, n)
  {
    if n > 0 {
      CountPrefix(a, b, n - 1);
    }
  }

  /** Creating: refused for bad fields, or for an enabled row when ten are enabled; else one row
      is appended, with the fields asked for and nothing seen yet. */
  lemma {:induction false} CreateIs(ms: seq<Monitor>, id: string, name: string, url: string, enabled: bool,
                                    interval: Option<int>, isWeb: string -> bool)
    ensures ValidFields(name, url, isWeb) == FieldsOk(name, url, isWeb)
    ensures var (r, rows) := Created(ms, NewRow(id, name, url, enabled, interval));
            if enabled && |EnabledRows(ms, |ms|)| >= 10 then r == TooMany && rows == ms
            else
              && r == Done && |rows| == |ms| + 1 && rows[..|ms|] == ms
              && var m := rows[|ms|];
              && m.id == id && m.name == Strip(name) && m.url == Strip(url) && m.enabled == enabled
              && IntervalIs(m.interval, interval)
              && m.lastHash == m.lastTitle == m.lastError == None && m.checkedAt == None
  {
    CountIs(ms, |ms|);
  }

  /** A row after a change: every field named has its new value and every other its old one;
      what was seen is forgotten exactly when the address is another one. */
  ghost predicate ChangedTo(m: Monitor, m': Monitor, c: Change) {
    && m'.id == m.id && m'.checkedAt == m.checkedAt
    && m'.name == Strip(if c.name.Some? then c.name.value else m.name)
    && m'.url == Strip(if c.url.Some? then c.url.value else m.url)
    && m'.enabled == (if c.enabled.Some? then c.enabled.value else m.enabled)
    && IntervalIs(m'.interval, if c.interval.Some? then c.interval.value else m.interval)
    && (if m'.url == m.url then m'.lastHash == m.lastHash && m'.lastTitle == m.lastTitle && m'.lastError == m.lastError
                           else m'.lastHash == m'.lastTitle == m'.lastError == None)
  }

  /** Changing: only the first row with the id can change, and the outcome says why it did not. */
  lemma {:induction false} UpdateIs(ms: seq<Monitor>, id: string, c: Change, isWeb: string -> bool, k: nat)
    requires k < |ms| && ms[k].id == id && forall j :: 0 <= j < k ==> ms[j].id != id
    ensures var (r, rows) := Updated(ms, id, c, isWeb);
            var ok := FieldsOk(if c.name.Some? then c.name.value else ms[k].name,
                               if c.url.Some? then c.url.value else ms[k].url, isWeb);
            var over := c.enabled == Some(true) && !ms[k].enabled && |EnabledBut(ms, |ms|, id)| >= 10;
            if ok && !over then
              r == Done && |rows| == |ms| && ChangedTo(ms[k], rows[k], c) && rows == ms[k := rows[k]]
            else r == (if !ok then NotValid else TooMany) && rows == ms
  {
    assert FirstWith(ms, id, 0) == k;
    OthersCount(ms, |ms|, id);
  }

  lemma {:induction false} UpdateUnknown(ms: seq<Monitor>, id: string, c: Change, isWeb: string -> bool)
    ensures Updated(ms, id, c, isWeb).0 == NotFound <==> forall m :: m in ms ==> m.id != id
    ensures Updated(ms, id, c, isWeb).0 == NotFound ==> Updated(ms, id, c, isWeb).1 == ms
  {
    var k := FirstWith(ms, id, 0);
    assert k < |ms| ==> ms[k] in ms;
  }

  lemma {:induction false} WithoutAppend(a: seq<Monitor>, b: seq<Monitor>, n: nat, id: string)
    requires n <= |b|
    ensures Without(a + b, |a| + n, id) == Without(a, |a|, id) + Without(b, n, id)
  {
    if n > 0 {
      WithoutAppend(a, b, n - 1, id);
    } else {
      WithoutPrefix(a, b, |a|, id);
    }
  }

  lemma {:induction false} WithoutPrefix(a: seq<Monitor>, b: seq<Monitor>, n: nat, id: string)
    requires n <= |a|
    ensures Without(a + b, n, id) == Without(a, n, id)
  {
    if n > 0 {
      WithoutPrefix(a, b, n - 1, id);
    }
  }

  lemma {:induction false} WithoutSize(ms: seq<Monitor>, n: nat, id: string)
    requires n <= |ms|
    ensures |Without(ms, n, id)| <= n
    ensures |Without(ms, n, id)| == n <==> forall i :: 0 <= i < n ==> ms[i].id != id
  {
    if n > 0 {
      WithoutSize(ms, n - 1, id);
    }
  }

  lemma {:induction false} WithoutSplits(ms: seq<Monitor>, id: string, i: nat)
    requires i < |ms|
    ensures var kept := if ms[i].id != id then [ms[i]] else [];
            Without(ms, |ms|, id) == Without(ms[..i], i, id) + kept + Without(ms[i + 1..], |ms| - i - 1, id)
  {
    var head := ms[..i + 1];
    assert ms == head + ms[i + 1..];
    WithoutAppend(head, ms[i + 1..], |ms| - i - 1, id);
    WithoutPrefix(ms[..i], [ms[i]], i, id);
    assert head == ms[..i] + [ms[i]];
  }

  lemma {:induction false} KeptRows(ms: seq<Monitor>, id: string)
    ensures Deleted(ms, id).1 == Without(ms, |ms|, id)
  {
    WithoutSize(ms, |ms|, id);
    if |Without(ms, |ms|, id)| == |ms| {
      WithoutNone(ms, |ms|, id);
    }
  }

  lemma {:induction false} WithoutNone(ms: seq<Monitor>, n: nat, id: string)
    requires n <= |ms| && forall i :: 0 <= i < n ==> ms[i].id != id
    ensures Without(ms, n, id) == ms[..n]
  {
    if n > 0 {
      WithoutNone(ms, n - 1, id);
    }
  }

  /** Deleting: not found exactly when no row has the id; else exactly the rows with it go, and
      the others keep their order. */
  lemma {:induction false} DeleteIs(ms: seq<Monitor>, id: string, i: nat)
    requires i < |ms|
    ensures Deleted(ms, id).0 == if forall k :: 0 <= k < |ms| ==> ms[k].id != id then NotFound else Done
    ensures var kept := if ms[i].id != id then [ms[i]] else [];
            Deleted(ms, id).1 == Deleted(ms[..i], id).1 + kept + Deleted(ms[i + 1..], id).1
  {
    WithoutSize(ms, |ms|, id);
    KeptRows(ms, id);
    KeptRows(ms[..i], id);
    KeptRows(ms[i + 1..], id);
    WithoutSplits(ms, id, i);
  }

  // ----- A round -----

  /** A round wants to look at this row. */
  ghost predicate Wanted(m: Monitor, r: Round) {
    && m.enabled && m.id != "" && m.url != ""
    && (r.force || m.checkedAt.None?
        || exists minutes :: IntervalIs(Some(minutes), m.interval) && r.now - m.checkedAt.value >= 60 * minutes)
  }

  ghost function WantedBefore(ms: seq<Monitor>, n: nat, r: Round): set<int>
    requires n <= |ms|
  {
    set i | 0 <= i < n && Wanted(ms[i], r)
  }

  lemma {:induction false} WantedIs(m: Monitor, r: Round)
    ensures Eligible(m, r) <==> Wanted(m, r)
  {
    assert IntervalIs(Some(ClampInterval(m.interval)), m.interval);
  }

  lemma {:induction false} WantedCount(ms: seq<Monitor>, n: nat, r: Round)
    requires n <= |ms|
    ensures EligibleCount(ms, n, r) == |WantedBefore(ms, n, r)|
  {
    if n > 0 {
      WantedCount(ms, n - 1, r);
      WantedIs(ms[n - 1], r);
      if Wanted(ms[n - 1], r) {
        assert WantedBefore(ms, n, r) == WantedBefore(ms, n - 1, r) + {n - 1};
      } else {
        assert WantedBefore(ms, n, r) == WantedBefore(ms, n - 1, r);
      }
    }
  }

  /** What a visit writes down. */
  ghost predicate VisitedTo(m: Monitor, m': Monitor, v: Visit) {
    && m'.id == m.id && m'.enabled == m.enabled && m'.name == m.name && m'.url == m.url && m'.interval == m.interval
    && m'.checkedAt == Some(v.at)
    && match v
       case Failed(_, error) => m'.lastError == Some(error) && m'.lastHash == m.lastHash && m'.lastTitle == m.lastTitle
       case Page(_, digest, title) =>
         && m'.lastError == None && m'.lastHash == Some(digest)
         && m'.lastTitle == if title == "" then m.lastTitle else Some(title)
  }

  /** A round writes to the rows it wants to look at, as many as its cap allows, three if it has
      none and is not forced; every other row stays as it was. */
  lemma {:induction false} RoundIs(ms: seq<Monitor>, i: nat, r: Round)
    requires i < |ms|
    ensures var before, row := |WantedBefore(ms, i, r)|, RowsAfter(ms, |ms|, r)[i];
            var room := match r.maxChecks case Some(n) => before < n case None => r.force || before < 3;
            if Wanted(ms[i], r) && room
            then VisitedTo(ms[i], row, if ms[i].id in r.pages then r.pages[ms[i].id] else Failed(r.now, ""))
            else row == ms[i]
  {
    RowsAfterAt(ms, |ms|, i, r);
    WantedIs(ms[i], r);
    WantedCount(ms, i, r);
  }
}
