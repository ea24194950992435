/** The inbox table against the mail server's unread set: the two-phase sync, and recording
    what a poll brings. */
module InboxSync {
  import opened Common

  datatype Status = Pending | Read | Handled

  datatype Row = Row(status: Status, received: int)

  type Table = map<string, Row>

  const PENDING_LIMIT: nat := 5000
  const READ_LIMIT: nat := 500
  const KNOWN_LIMIT: nat := 5000

  function WithStatus(t: Table, status: Status): set<string> {
    set id | id in t && t[id].status == status
  }

  ghost predicate NewerOrEqual(t: Table, inside: string, outside: string) {
    inside in t && outside in t ==> t[outside].received <= t[inside].received
  }

  ghost predicate OlderOutside(t: Table, all: set<string>, ids: seq<string>, a: string, b: string) {
    a in ids && b in all && b !in ids ==> NewerOrEqual(t, a, b)
  }

  /** A query with `ORDER BY received DESC LIMIT limit` over the rows in `all`: ties may fall
      either way. */
  ghost predicate IsWindow(t: Table, all: set<string>, limit: nat, ids: seq<string>) {
    && Distinct(ids) && |ids| == Min(limit, |all|)
    && (forall id :: id in ids ==> id in all)
    && forall a, b :: OlderOutside(t, all, ids, a, b)
  }

  /** First phase: pending mail in the window that is no longer unread becomes read. */
  function MarkRead(t: Table, window: seq<string>, unread: set<string>): Table {
    map id | id in t :: if id in window && id !in unread then t[id].(status := Read) else t[id]
  }

  /** Second phase: read mail in the window that is unread after all becomes pending. */
  function MarkPending(t: Table, window: seq<string>, unread: set<string>): Table {
    map id | id in t :: if id in window && id in unread then t[id].(status := Pending) else t[id]
  }

  /** The table after one sync, given what its two queries returned. */
  function Synced(t: Table, pending: seq<string>, read: seq<string>, unread: set<string>): Table {
    MarkPending(MarkRead(t, pending, unread), read, unread)
  }

  /** What the two queries of a sync may return; the second sees the effect of the first. */
  ghost predicate SyncWindows(t: Table, pending: seq<string>, read: seq<string>, unread: set<string>) {
    && IsWindow(t, WithStatus(t, Pending), PENDING_LIMIT, pending)
    && var t1 := MarkRead(t, pending, unread); IsWindow(t1, WithStatus(t1, Read), READ_LIMIT, read)
  }

  function Changed(t: Table, u: Table): set<string> {
    set id | id in t && id in u && t[id] != u[id]
  }

  /** The sync's aim: whatever is not handled is pending exactly when unread. */
  ghost predicate InStep(t: Table, unread: set<string>) {
    forall id :: id in t && t[id].status != Handled ==> (t[id].status == Pending <==> id in unread)
  }

  lemma {:induction false} SetOfDistinct(ids: seq<string>)
    requires Distinct(ids)
    ensures |set id | id in ids| == |ids|
  {
    if ids != [] {
      DistinctAt(ids, |ids| - 1);
      InitLast(ids);
      var init, last := ids[..|ids| - 1], ids[|ids| - 1];
      SetOfDistinct(init);
      assert (set id | id in ids) == (set id | id in init) + {last};
    }
  }

  /** A query whose limit is not reached returns every row it is about. */
  lemma {:induction false} WindowCovers(t: Table, all: set<string>, limit: nat, ids: seq<string>)
    requires IsWindow(t, all, limit, ids) && |all| <= limit
    ensures forall id :: id in all <==> id in ids
  {
    SetOfDistinct(ids);
    SubsetSameSize((set id | id in ids), all);
  }

  lemma {:induction false} SubsetSameSize(a: set<string>, b: set<string>)
    requires a <= b && |a| == |b|
    ensures a == b
  {
    assert b == a + (b - a);
  }

  /** Handled rows and dates are left alone, each row changes at most once and only towards
      the unread set. */
  lemma {:induction false} SyncChanges(t: Table, pending: seq<string>, read: seq<string>, unread: set<string>)
    requires SyncWindows(t, pending, read, unread)
    ensures var u := Synced(t, pending, read, unread);
            && u.Keys == t.Keys
            && (forall id :: id in t ==> u[id].received == t[id].received)
            && (forall id :: id in t && u[id] != t[id] ==>
                  || (t[id].status == Pending && u[id].status == Read && id !in unread)
                  || (t[id].status == Read && u[id].status == Pending && id in unread))
            && Changed(t, u) == (set id | id in pending && id !in unread) + (set id | id in read && id in unread)
  {
    var t1 := MarkRead(t, pending, unread);
    assert forall id :: id in pending ==> id in WithStatus(t, Pending);
    assert forall id :: id in read ==> id in WithStatus(t1, Read);
  }

  /** A sync reaches its aim exactly when its queries saw every row that had to move. */
  lemma {:induction false} SyncSawAll(t: Table, pending: seq<string>, read: seq<string>, unread: set<string>)
    requires SyncWindows(t, pending, read, unread)
    ensures InStep(Synced(t, pending, read, unread), unread) <==>
              && (forall id :: id in t && t[id].status == Pending && id !in unread ==> id in pending)
              && (forall id :: id in t && t[id].status == Read && id in unread ==> id in read)
  {
    SyncChanges(t, pending, read, unread);
    var t1, u := MarkRead(t, pending, unread), Synced(t, pending, read, unread);
    assert forall id :: id in pending ==> id in WithStatus(t, Pending);
    assert forall id :: id in read ==> id in WithStatus(t1, Read);
    forall id | id in t ensures u[id].status == Handled <==> t[id].status == Handled {
    }
    if InStep(u, unread) {
      forall id | id in t && t[id].status == Pending && id !in unread ensures id in pending {
        assert id in u && u[id].status != Handled;
      }
      forall id | id in t && t[id].status == Read && id in unread ensures id in read {
        assert id in u && u[id].status != Handled;
      }
    }
  }

  // ----- The same, read off the table before the sync -----

  ghost predicate DatesDiffer(t: Table, a: string, b: string) {
    a in t && b in t && a != b ==> t[a].received != t[b].received
  }

  ghost predicate DistinctDates(t: Table) {
    forall a, b :: DatesDiffer(t, a, b)
  }

  /** The rows of `among` that are newer than `id`. */
  function Newer(t: Table, among: set<string>, id: string): set<string> {
    set n | n in among && n in t && id in t && t[n].received > t[id].received
  }

  /** With distinct dates a query returns a row exactly when fewer than `limit` of the rows it
      is about are newer. */
  lemma {:induction false} WindowIs(t: Table, all: set<string>, limit: nat, ids: seq<string>, id: string)
    requires IsWindow(t, all, limit, ids) && all <= t.Keys && id in all && DistinctDates(t)
    ensures id in ids <==> |Newer(t, all, id)| < limit
  {
    SetOfDistinct(ids);
    var newer := Newer(t, all, id);
    var found := set i | i in ids;
    if id in ids {
      forall n | n in newer ensures n in ids {
        assert OlderOutside(t, all, ids, id, n);
      }
      SubsetSize(newer + {id}, found);
    } else {
      forall n | n in ids ensures n in newer {
        assert OlderOutside(t, all, ids, n, id) && DatesDiffer(t, n, id);
      }
      SubsetSize(found + {id}, all);
      SubsetSize(found, newer);
    }
  }

  /** What the second query is about once the first phase is complete. */
  function ReadBySync(t: Table, unread: set<string>): set<string> {
    WithStatus(t, Read) + (WithStatus(t, Pending) - unread)
  }

  lemma {:induction false} SecondWindow(t: Table, pending: seq<string>, read: seq<string>, unread: set<string>,
                                        id: string)
    requires SyncWindows(t, pending, read, unread) && DistinctDates(t)
    requires forall i :: i in t && t[i].status == Pending && i !in unread ==> i in pending
    requires id in t && t[id].status == Read
    ensures id in read <==> |Newer(t, ReadBySync(t, unread), id)| < READ_LIMIT
  {
    var t1 := MarkRead(t, pending, unread);
    assert forall i :: i in pending ==> i in WithStatus(t, Pending);
    assert WithStatus(t1, Read) == ReadBySync(t, unread);
    forall a, b ensures DatesDiffer(t1, a, b) {
      assert DatesDiffer(t, a, b);
    }
    assert Newer(t1, WithStatus(t1, Read), id) == Newer(t, ReadBySync(t, unread), id);
    WindowIs(t1, WithStatus(t1, Read), READ_LIMIT, read, id);
  }

  /** Of the pending mail that is no longer unread none has 5000 newer pending rows. */
  ghost predicate PendingInReach(t: Table, unread: set<string>) {
    forall id :: id in t && t[id].status == Pending && id !in unread ==>
      |Newer(t, WithStatus(t, Pending), id)| < PENDING_LIMIT
  }

  /** Of the read mail that is unread after all none has 500 newer rows that are read or about
      to be. */
  ghost predicate ReadInReach(t: Table, unread: set<string>) {
    forall id :: id in t && t[id].status == Read && id in unread ==>
      |Newer(t, ReadBySync(t, unread), id)| < READ_LIMIT
  }

  /** With distinct dates there is one answer to each query, and a sync reaches its aim exactly
      when nothing that has to move lies too deep. */
  lemma {:induction false} SyncConvergesDistinct(t: Table, pending: seq<string>, read: seq<string>, unread: set<string>)
    requires SyncWindows(t, pending, read, unread) && DistinctDates(t)
    ensures InStep(Synced(t, pending, read, unread), unread) <==> PendingInReach(t, unread) && ReadInReach(t, unread)
  {
    SyncSawAll(t, pending, read, unread);
    forall id | id in t && t[id].status == Pending
      ensures id in pending <==> |Newer(t, WithStatus(t, Pending), id)| < PENDING_LIMIT
    {
      WindowIs(t, WithStatus(t, Pending), PENDING_LIMIT, pending, id);
    }
    if PendingInReach(t, unread) {
      forall id | id in t && t[id].status == Read
        ensures id in read <==> |Newer(t, ReadBySync(t, unread), id)| < READ_LIMIT
      {
        SecondWindow(t, pending, read, unread, id);
      }
    }
  }

  // ----- Every query has an answer -----

  lemma {:induction false} NewestExists(t: Table, among: set<string>) returns (id: string)
    requires among != {} && among <= t.Keys
    ensures id in among && forall b :: b in among ==> NewerOrEqual(t, id, b)
  {
    var some :| some in among;
    id := some;
    var rest := among - {some};
    assert among == rest + {some};
    if rest != {} {
      var other := NewestExists(t, rest);
      if t[other].received > t[some].received {
        id := other;
      }
    }
  }

  lemma {:induction false} WindowExists(t: Table, all: set<string>, limit: nat) returns (ids: seq<string>)
    requires all <= t.Keys
    ensures IsWindow(t, all, limit, ids)
  {
    ids := [];
    if limit > 0 {
      ids := WindowExists(t, all, limit - 1);
      var rest := set id | id in all && id !in ids;
      SetOfDistinct(ids);
      if rest != {} {
        assert all == (set id | id in ids) + rest;
        var id := NewestExists(t, rest);
        DistinctSnoc(ids, id);
        var more := ids + [id];
        forall a, b | a in more && b in all && b !in more ensures NewerOrEqual(t, a, b) {
          assert OlderOutside(t, all, ids, a, b);
        }
        ids := more;
      } else {
        forall id | id in all ensures id in ids {
          assert id !in ids ==> id in rest;
        }
        assert all == set id | id in ids;
      }
    }
  }

  lemma {:induction false} SyncExists(t: Table, unread: set<string>) returns (pending: seq<string>, read: seq<string>)
    ensures SyncWindows(t, pending, read, unread)
  {
    pending := WindowExists(t, WithStatus(t, Pending), PENDING_LIMIT);
    var t1 := MarkRead(t, pending, unread);
    read := WindowExists(t1, WithStatus(t1, Read), READ_LIMIT);
  }

  // ----- For any dates -----

  /** The other rows of `among` that are at least as new as `id`. */
  function AtLeast(t: Table, among: set<string>, id: string): set<string> {
    set n | n in among && n in t && id in t && n != id && t[n].received >= t[id].received
  }

  lemma {:induction false} SureRow(t: Table, all: set<string>, limit: nat, ids: seq<string>, id: string)
    requires IsWindow(t, all, limit, ids) && all <= t.Keys && id in all && |AtLeast(t, all, id)| < limit
    ensures id in ids
  {
    if id !in ids {
      SetOfDistinct(ids);
      var found := set i | i in ids;
      forall n | n in found ensures n in AtLeast(t, all, id) {
        assert OlderOutside(t, all, ids, n, id);
      }
      SubsetSize(found, AtLeast(t, all, id));
      SubsetSize(found + {id}, all);
    }
  }

  /** When `limit` others are at least as new, the query may leave a row out. */
  lemma {:induction false} WindowWithout(t: Table, all: set<string>, limit: nat, id: string) returns (ids: seq<string>)
    requires all <= t.Keys && id in all && |AtLeast(t, all, id)| >= limit
    ensures IsWindow(t, all, limit, ids) && id !in ids
  {
    var rest := all - {id};
    ids := WindowExists(t, rest, limit);
    SetOfDistinct(ids);
    var found := set i | i in ids;
    SubsetSize(AtLeast(t, all, id), rest);
    assert |ids| == limit && |all| == |rest| + 1;
    forall a, b | a in ids && b in all && b !in ids ensures NewerOrEqual(t, a, b) {
      if b != id {
        assert OlderOutside(t, rest, ids, a, b);
      } else if t[a].received < t[id].received {
        assert a !in AtLeast(t, all, id);
        forall n | n in AtLeast(t, all, id) ensures n in found {
          assert OlderOutside(t, rest, ids, a, n);
        }
        SubsetSize(AtLeast(t, all, id) + {a}, found);
      }
    }
  }

  /** A query is sure to return a row exactly when fewer than `limit` of the others it is about
      are at least as new. */
  lemma {:induction false} WindowSureIff(t: Table, all: set<string>, limit: nat, id: string)
    requires all <= t.Keys && id in all
    ensures (forall ids :: IsWindow(t, all, limit, ids) ==> id in ids) <==> |AtLeast(t, all, id)| < limit
  {
    if |AtLeast(t, all, id)| < limit {
      forall ids | IsWindow(t, all, limit, ids) ensures id in ids {
        SureRow(t, all, limit, ids, id);
      }
    } else {
      var ids := WindowWithout(t, all, limit, id);
      assert IsWindow(t, all, limit, ids) && id !in ids;
    }
  }

  /** Of the pending mail that is no longer unread none has 5000 other pending rows at least as
      new. */
  ghost predicate PendingSure(t: Table, unread: set<string>) {
    forall id :: id in t && t[id].status == Pending && id !in unread ==>
      |AtLeast(t, WithStatus(t, Pending), id)| < PENDING_LIMIT
  }

  /** Of the read mail that is unread after all none has 500 other rows at least as new that
      are read or about to be. */
  ghost predicate ReadSure(t: Table, unread: set<string>) {
    forall id :: id in t && t[id].status == Read && id in unread ==>
      |AtLeast(t, ReadBySync(t, unread), id)| < READ_LIMIT
  }

  /** After a complete first phase the second query is about these rows, dates unchanged. */
  lemma {:induction false} SecondQuery(t: Table, pending: seq<string>, unread: set<string>, id: string)
    requires IsWindow(t, WithStatus(t, Pending), PENDING_LIMIT, pending)
    requires forall i :: i in t && t[i].status == Pending && i !in unread ==> i in pending
    ensures var t1 := MarkRead(t, pending, unread);
            && WithStatus(t1, Read) == ReadBySync(t, unread)
            && AtLeast(t1, WithStatus(t1, Read), id) == AtLeast(t, ReadBySync(t, unread), id)
  {
    assert forall i :: i in pending ==> i in WithStatus(t, Pending);
    assert WithStatus(MarkRead(t, pending, unread), Read) == ReadBySync(t, unread);
  }

  lemma {:induction false} SureSync(t: Table, pending: seq<string>, read: seq<string>, unread: set<string>)
    requires SyncWindows(t, pending, read, unread) && PendingSure(t, unread) && ReadSure(t, unread)
    ensures InStep(Synced(t, pending, read, unread), unread)
  {
    var t1 := MarkRead(t, pending, unread);
    forall id | id in t && t[id].status == Pending && id !in unread ensures id in pending {
      SureRow(t, WithStatus(t, Pending), PENDING_LIMIT, pending, id);
    }
    forall id | id in t && t[id].status == Read && id in unread ensures id in read {
      SecondQuery(t, pending, unread, id);
      SureRow(t1, WithStatus(t1, Read), READ_LIMIT, read, id);
    }
    SyncSawAll(t, pending, read, unread);
  }

  lemma {:induction false} UnsureSync(t: Table, unread: set<string>) returns (pending: seq<string>, read: seq<string>)
    requires !PendingSure(t, unread) || !ReadSure(t, unread)
    ensures SyncWindows(t, pending, read, unread) && !InStep(Synced(t, pending, read, unread), unread)
  {
    if !PendingSure(t, unread) {
      var id :| id in t && t[id].status == Pending && id !in unread
                && |AtLeast(t, WithStatus(t, Pending), id)| >= PENDING_LIMIT;
      pending := WindowWithout(t, WithStatus(t, Pending), PENDING_LIMIT, id);
      var t1 := MarkRead(t, pending, unread);
      read := WindowExists(t1, WithStatus(t1, Read), READ_LIMIT);
    } else {
      var id :| id in t && t[id].status == Read && id in unread
                && |AtLeast(t, ReadBySync(t, unread), id)| >= READ_LIMIT;
      pending := WindowExists(t, WithStatus(t, Pending), PENDING_LIMIT);
      forall i | i in t && t[i].status == Pending && i !in unread ensures i in pending {
        SureRow(t, WithStatus(t, Pending), PENDING_LIMIT, pending, i);
      }
      var t1 := MarkRead(t, pending, unread);
      SecondQuery(t, pending, unread, id);
      read := WindowWithout(t1, WithStatus(t1, Read), READ_LIMIT, id);
    }
    SyncSawAll(t, pending, read, unread);
  }

  /** For any dates: a sync is sure to reach its aim, whatever its queries return, exactly when
      nothing that has to move has too many others at least as new. */
  lemma {:induction false} SyncConvergesIff(t: Table, unread: set<string>)
    ensures (forall pending, read ::
               SyncWindows(t, pending, read, unread) ==> InStep(Synced(t, pending, read, unread), unread))
            <==> PendingSure(t, unread) && ReadSure(t, unread)
  {
    if PendingSure(t, unread) && ReadSure(t, unread) {
      forall pending, read | SyncWindows(t, pending, read, unread)
        ensures InStep(Synced(t, pending, read, unread), unread)
      {
        SureSync(t, pending, read, unread);
      }
    } else {
      var pending, read := UnsureSync(t, unread);
      assert SyncWindows(t, pending, read, unread) && !InStep(Synced(t, pending, read, unread), unread);
    }
  }

  /** A sync reaches its aim when both queries stay under their limits, whatever the
      dates; rows the first phase has just marked read count against the second. */
  lemma {:induction false} SyncConverges(t: Table, pending: seq<string>, read: seq<string>, unread: set<string>)
    requires SyncWindows(t, pending, read, unread)
    requires |WithStatus(t, Pending)| <= PENDING_LIMIT
    requires |WithStatus(t, Read)| + |WithStatus(t, Pending) - unread| <= READ_LIMIT
    ensures InStep(Synced(t, pending, read, unread), unread)
  {
    var t1 := MarkRead(t, pending, unread);
    WindowCovers(t, WithStatus(t, Pending), PENDING_LIMIT, pending);
    assert WithStatus(t1, Read) == WithStatus(t, Read) + (WithStatus(t, Pending) - unread);
    WindowCovers(t1, WithStatus(t1, Read), READ_LIMIT, read);
    SyncSawAll(t, pending, read, unread);
  }

  /** A table already in step stays as it is, and the sync reports nothing. */
  lemma {:induction false} SecondSyncIdle(t: Table, pending: seq<string>, read: seq<string>, unread: set<string>)
    requires SyncWindows(t, pending, read, unread) && InStep(t, unread)
    ensures Synced(t, pending, read, unread) == t && Changed(t, Synced(t, pending, read, unread)) == {}
  {
    SyncChanges(t, pending, read, unread);
    var u := Synced(t, pending, read, unread);
    forall id | id in t ensures u[id] == t[id] {
      assert t[id].status != Handled ==> (t[id].status == Pending <==> id in unread);
    }
  }

  /** Mail marked read by mistake is not found again while 500 newer rows are read, however
      they came to be. */
  lemma {:induction false} CrowdedOut(t: Table, pending: seq<string>, read: seq<string>, unread: set<string>,
                                      id: string, newer: set<string>)
    requires SyncWindows(t, pending, read, unread)
    requires id in t && t[id].status == Read && id in unread
    requires |newer| >= READ_LIMIT && forall n :: n in newer ==> n in t && t[n].received > t[id].received
    requires newer <= WithStatus(MarkRead(t, pending, unread), Read)
    ensures Synced(t, pending, read, unread)[id].status == Read && !InStep(Synced(t, pending, read, unread), unread)
  {
    var t1 := MarkRead(t, pending, unread);
    assert forall i :: i in pending ==> i in WithStatus(t, Pending);
    if id in read {
      forall n | n in newer ensures n in read {
        assert OlderOutside(t1, WithStatus(t1, Read), read, id, n);
      }
      SetOfDistinct(read);
      assert newer + {id} <= (set i | i in read);
      SubsetSize(newer + {id}, (set i | i in read));
    }
    SyncSawAll(t, pending, read, unread);
  }
}
