/** The inbox as the poll updates it. */
module Inbox {
  import opened Common
  import opened InboxSync

  /** One mail of a poll payload; an empty id stands for a missing one. */
  datatype Mail = Mail(id: string, received: int)

  /** A poll payload; `allUnread` may be absent. */
  datatype Payload = Payload(emails: seq<Mail>, allUnread: Option<seq<Mail>>)

  function IdsOf(mails: seq<Mail>): set<string> {
    set m | m in mails && m.id != "" :: m.id
  }

  /** The unread set: the explicit list if there is one, even empty, else the fetched mail. */
  function UnreadIds(p: Payload): set<string> {
    if p.allUnread.Some? then IdsOf(p.allUnread.value) else IdsOf(p.emails)
  }

  function FetchedIds(p: Payload): set<string> {
    IdsOf(p.emails) + if p.allUnread.Some? then IdsOf(p.allUnread.value) else {}
  }

  /** The last of the first `n` mails with this id. */
  function LastMail(mails: seq<Mail>, n: nat, id: string): Option<Mail>
    requires n <= |mails|
  {
    if n == 0 then None else if mails[n - 1].id == id then Some(mails[n - 1]) else LastMail(mails, n - 1, id)
  }

  /** The first of the first `n` mails with this id. */
  function FirstMail(mails: seq<Mail>, n: nat, id: string): Option<Mail>
    requires n <= |mails|
  {
    if n == 0 then None
    else if FirstMail(mails, n - 1, id).Some? then FirstMail(mails, n - 1, id)
    else if mails[n - 1].id == id then Some(mails[n - 1]) else None
  }

  function Unread(p: Payload): seq<Mail> {
    if p.allUnread.Some? then p.allUnread.value else []
  }

  /** Of several mails with one id the last fetched one counts, else the first unread one. */
  function MailFor(p: Payload, id: string): Option<Mail> {
    Chosen(p, |Unread(p)|, id)
  }

  lemma {:induction false} MailFound(mails: seq<Mail>, n: nat, id: string)
    requires n <= |mails| && id != ""
    ensures LastMail(mails, n, id).Some? <==> id in IdsOf(mails[..n])
    ensures FirstMail(mails, n, id).Some? <==> id in IdsOf(mails[..n])
  {
    if n > 0 {
      MailFound(mails, n - 1, id);
      assert mails[..n] == mails[..n - 1] + [mails[n - 1]];
    }
  }

  /** The table after recording: every id in `newIds` gets a row with its mail's date, pending
      exactly when unread. */
  ghost predicate RecordedInto(before: Table, after: Table, p: Payload, newIds: set<string>) {
    && after.Keys == before.Keys + newIds
    && (forall id :: id in before && id !in newIds ==> after[id] == before[id])
    && forall id :: id in newIds ==>
         && MailFor(p, id).Some?
         && after[id] == Row(if id in UnreadIds(p) then Pending else Read, MailFor(p, id).value.received)
  }

  /** The log has grown by exactly one event for each of `newIds`. */
  ghost predicate RecordedOnce(before: seq<string>, after: seq<string>, newIds: set<string>) {
    && |before| <= |after| && after[..|before|] == before
    && Distinct(after[|before|..]) && forall id :: id in after[|before|..] <==> id in newIds
  }

  /** The table and the InboxEmailRecorded events, in log order. */
  datatype Ledger = Ledger(table: Table, recorded: seq<string>)

  /** What a poll does to a ledger, given what its three queries returned. */
  ghost predicate PollStep(before: Ledger, after: Ledger, p: Payload, pending: seq<string>, read: seq<string>,
                           window: seq<string>) {
    var synced := Synced(before.table, pending, read, UnreadIds(p));
    var newIds := FetchedIds(p) - Members(window);
    && SyncWindows(before.table, pending, read, UnreadIds(p))
    && IsWindow(synced, synced.Keys, KNOWN_LIMIT, window)
    && RecordedInto(synced, after.table, p, newIds)
    && RecordedOnce(before.recorded, after.recorded, newIds)
  }

  function Members(ids: seq<string>): set<string> {
    set id | id in ids
  }

  class Store {
    var table: Table
    var recorded: seq<string>      // the InboxEmailRecorded events, in log order

    constructor ()
      ensures table == map[] && recorded == [] && Valid()
    {
      table, recorded := map[], [];
    }

    /** Rows and recording events belong together. */
    ghost predicate Valid()
      reads this
    {
      forall id :: id in table <==> id in recorded
    }

    method Newest(among: set<string>) returns (id: string)
      requires among != {} && among <= table.Keys
      ensures id in among && forall b :: b in among ==> NewerOrEqual(table, id, b)
    {
      id :| id in among;
      var rest := among - {id};
      while rest != {}
        invariant id in among && rest <= among
        invariant forall b :: b in among && b !in rest ==> NewerOrEqual(table, id, b)
        decreases |rest|
      {
        var b :| b in rest;
        if table[b].received > table[id].received {
          id := b;
        }
        rest := rest - {b};
      }
    }

    /** `ORDER BY received DESC LIMIT limit`. */
    method Query(all: set<string>, limit: nat) returns (ids: seq<string>)
      requires all <= table.Keys
      ensures IsWindow(table, all, limit, ids)
    {
      ids := [];
      var rest := all;
      while |ids| < limit && rest != {}
        invariant Distinct(ids) && |ids| + |rest| == |all| && |ids| <= limit && rest <= all
        invariant forall id :: id in all <==> id in ids || id in rest
        invariant forall id :: id in ids ==> id !in rest
        invariant forall a, b :: a in ids && b in rest ==> NewerOrEqual(table, a, b)
        decreases |rest|
      {
        var id := Newest(rest);
        DistinctSnoc(ids, id);
        ids := ids + [id];
        rest := rest - {id};
      }
    }

    method SetStatus(id: string, status: Status)
      requires id in table
      modifies this`table
      ensures table == old(table)[id := old(table)[id].(status := status)]
    {
      table := table[id := table[id].(status := status)];
    }

    /** First loop of the sync: one event per listed row that is no longer unread. */
    method MarkReadRows(rows: seq<string>, unread: set<string>) returns (updated: nat)
      requires Distinct(rows) && forall id :: id in rows ==> id in table
      modifies this`table
      ensures table == MarkRead(old(table), rows, unread)
      ensures updated == |set id | id in rows && id !in unread|
    {
      ghost var t := table;
      updated := 0;
      for i := 0 to |rows|
        invariant table == MarkRead(t, rows[..i], unread)
        invariant updated == |set id | id in rows[..i] && id !in unread|
      {
        RowStep(t, rows, i, unread);
        CountStep(rows, i, unread);
        if rows[i] !in unread {
          SetStatus(rows[i], Read);
          updated := updated + 1;
        }
      }
      assert rows[..|rows|] == rows;
    }

    /** Second loop: one event per listed row that is unread after all. */
    method MarkPendingRows(rows: seq<string>, unread: set<string>) returns (updated: nat)
      requires Distinct(rows) && forall id :: id in rows ==> id in table
      modifies this`table
      ensures table == MarkPending(old(table), rows, unread)
      ensures updated == |set id | id in rows && id in unread|
    {
      ghost var t := table;
      updated := 0;
      for i := 0 to |rows|
        invariant table == MarkPending(t, rows[..i], unread)
        invariant updated == |set id | id in rows[..i] && id in unread|
      {
        RowStep(t, rows, i, unread);
        CountStep(rows, i, unread);
        if rows[i] in unread {
          SetStatus(rows[i], Pending);
          updated := updated + 1;
        }
      }
      assert rows[..|rows|] == rows;
    }

    /** Bring local status in step with the server's unread set; returns how many rows moved. */
    method SyncUnreadStatus(unread: set<string>)
      returns (updated: nat, ghost pending: seq<string>, ghost read: seq<string>)
      modifies this`table
      ensures SyncWindows(old(table), pending, read, unread)
      ensures table == Synced(old(table), pending, read, unread)
      ensures updated == |Changed(old(table), table)|
    {
      ghost var t := table;
      var rows := Query(WithStatus(table, Pending), PENDING_LIMIT);
      pending := rows;
      updated := MarkReadRows(rows, unread);
      var readRows := Query(WithStatus(table, Read), READ_LIMIT);
      read := readRows;
      var back := MarkPendingRows(readRows, unread);
      updated := updated + back;
      SyncChanges(t, pending, read, unread);
    }

    /** One new mail: recorded, which makes it pending, and then read if it is not unread. */
    method Record(m: Mail, unread: set<string>)
      modifies this
      ensures recorded == old(recorded) + [m.id]
      ensures table == old(table)[m.id := Row(if m.id in unread then Pending else Read, m.received)]
    {
      recorded := recorded + [m.id];
      table := table[m.id := Row(Pending, m.received)];
      if m.id !in unread {
        SetStatus(m.id, Read);
      }
    }

    /** A successful poll: sync, find what is not known, record it. */
    method ApplyPoll(p: Payload)
      returns (newCount: nat, duplicateCount: nat, syncedRead: nat,
               ghost pending: seq<string>, ghost read: seq<string>, ghost window: seq<string>)
      requires Valid()
      modifies this
      ensures Valid()
      ensures PollStep(Ledger(old(table), old(recorded)), Ledger(table, recorded), p, pending, read, window)
      ensures syncedRead == |Changed(old(table), Synced(old(table), pending, read, UnreadIds(p)))|
      ensures newCount + duplicateCount == |FetchedIds(p)| && newCount == |FetchedIds(p) - Members(window)|
      ensures |recorded| == |old(recorded)| + newCount
    {
      var unread := UnreadIds(p);
      ghost var t := table;
      syncedRead, pending, read := SyncUnreadStatus(unread);
      SyncChanges(t, pending, read, unread);
      var known := KnownIds();
      window :| IsWindow(table, table.Keys, KNOWN_LIMIT, window) && known == Members(window);
      duplicateCount := |FetchedIds(p) * known|;
      var order, toRecord := CollectNew(p, known);
      NewPlusKnown(order, FetchedIds(p), known);
      newCount := |order|;
      RecordAll(order, toRecord, p, unread);
    }

    method KnownIds() returns (known: set<string>)
      ensures exists window :: IsWindow(table, table.Keys, KNOWN_LIMIT, window) && known == Members(window)
    {
      var window := Query(table.Keys, KNOWN_LIMIT);
      known := set id | id in window;
      assert known == Members(window);
    }

    method RecordAll(order: seq<string>, toRecord: map<string, Mail>, ghost p: Payload, unread: set<string>)
      requires Valid() && Distinct(order) && unread == UnreadIds(p)
      requires forall id :: id in order ==>
                 id in toRecord && toRecord[id].id == id && MailFor(p, id) == Some(toRecord[id])
      modifies this
      ensures Valid() && recorded == old(recorded) + order
      ensures RecordedOnce(old(recorded), recorded, Members(order))
      ensures RecordedInto(old(table), table, p, Members(order))
    {
      ghost var t, r := table, recorded;
      ghost var done: set<string> := {};
      for i := 0 to |order|
        invariant recorded == r + order[..i]
        invariant forall id :: id in done <==> id in order[..i]
        invariant RecordedInto(t, table, p, done) && Valid()
      {
        assert order[..i + 1] == order[..i] + [order[i]];
        Record(toRecord[order[i]], unread);
        done := done + {order[i]};
      }
      assert order[..|order|] == order;
      assert done == Members(order);
      assert recorded[|r|..] == order;
    }
  }

  /** One more row of a loop over a query's result. */
  lemma {:induction false} RowStep(t: Table, rows: seq<string>, i: nat, unread: set<string>)
    requires Distinct(rows) && i < |rows| && forall id :: id in rows ==> id in t
    ensures MarkRead(t, rows[..i], unread)[rows[i]] == t[rows[i]] == MarkPending(t, rows[..i], unread)[rows[i]]
    ensures MarkRead(t, rows[..i + 1], unread) ==
            if rows[i] in unread then MarkRead(t, rows[..i], unread)
            else MarkRead(t, rows[..i], unread)[rows[i] := t[rows[i]].(status := Read)]
    ensures MarkPending(t, rows[..i + 1], unread) ==
            if rows[i] in unread then MarkPending(t, rows[..i], unread)[rows[i] := t[rows[i]].(status := Pending)]
            else MarkPending(t, rows[..i], unread)
  {
    DistinctAt(rows, i);
    assert rows[..i + 1] == rows[..i] + [rows[i]];
  }

  lemma {:induction false} CountStep(rows: seq<string>, i: nat, unread: set<string>)
    requires Distinct(rows) && i < |rows|
    ensures |set id | id in rows[..i + 1] && id !in unread|
            == |set id | id in rows[..i] && id !in unread| + if rows[i] in unread then 0 else 1
    ensures |set id | id in rows[..i + 1] && id in unread|
            == |set id | id in rows[..i] && id in unread| + if rows[i] in unread then 1 else 0
  {
    DistinctAt(rows, i);
    var before, row := rows[..i], rows[i];
    assert rows[..i + 1] == before + [row];
    var out0, in0 := set id | id in before && id !in unread, set id | id in before && id in unread;
    var out1, in1 := set id | id in rows[..i + 1] && id !in unread, set id | id in rows[..i + 1] && id in unread;
    if row in unread {
      assert out1 == out0 && in1 == in0 + {row};
    } else {
      assert out1 == out0 + {row} && in1 == in0;
    }
  }

  /** No mail is ever recorded twice as long as no poll brings mail that is stored but lies
      outside the 5000 rows a poll looks at; when one does, it is. */
  lemma {:induction false} AtMostOnceIff(stored: set<string>, before: seq<string>, after: seq<string>,
                                         fetched: set<string>, known: set<string>)
    requires Distinct(before) && (forall id :: id in stored <==> id in before)
    requires known <= stored && RecordedOnce(before, after, fetched - known)
    ensures Distinct(after) <==> fetched * (stored - known) == {}
  {
    var more := after[|before|..];
    assert after == before + more;
    if fetched * (stored - known) == {} {
      forall i, j | 0 <= i < j < |after| ensures after[i] != after[j] {
        if j < |before| {
          assert DifferAt(before, i, j);
        } else if i >= |before| {
          assert DifferAt(more, i - |before|, j - |before|);
        } else {
          assert after[i] == before[i] && before[i] in before && after[j] == more[j - |before|] && after[j] in more;
          assert after[j] !in fetched * (stored - known);
        }
      }
    } else {
      var id :| id in fetched * (stored - known);
      assert id in before && id in more;
      var i :| 0 <= i < |before| && before[i] == id;
      var j :| 0 <= j < |more| && more[j] == id;
      assert !DifferAt(after, i, |before| + j);
    }
  }

  /** A poll whose sync reached its aim leaves the whole table in step, new mail included. */
  lemma {:induction false} PollInStep(synced: Table, after: Table, p: Payload, newIds: set<string>)
    requires InStep(synced, UnreadIds(p)) && RecordedInto(synced, after, p, newIds)
    ensures InStep(after, UnreadIds(p))
  {
    forall id | id in after && after[id].status != Handled ensures after[id].status == Pending <==> id in UnreadIds(p) {
      if id !in newIds {
        assert id in synced && after[id] == synced[id];
      }
    }
  }

  lemma {:induction false} NewPlusKnown(order: seq<string>, fetched: set<string>, known: set<string>)
    requires Distinct(order) && forall id :: id in order <==> id in fetched - known
    ensures |order| == |fetched - known| && |order| + |fetched * known| == |fetched|
    ensures Members(order) == fetched - known
  {
    SetOfDistinct(order);
    assert Members(order) == fetched - known;
    assert fetched == (fetched - known) + (fetched * known);
  }

  /** The dictionary of mail to record: first the fetched mail, then unread mail not seen
      yet; a repeated fetched id keeps its place and takes the later mail. */
  method CollectNew(p: Payload, known: set<string>) returns (order: seq<string>, toRecord: map<string, Mail>)
    ensures Distinct(order) && Members(order) == FetchedIds(p) - known
    ensures forall id :: id in order ==> id in toRecord && toRecord[id].id == id && MailFor(p, id) == Some(toRecord[id])
  {
    order, toRecord := CollectFetched(p.emails, known);
    order, toRecord := CollectUnread(p, known, order, toRecord);
  }

  method CollectFetched(emails: seq<Mail>, known: set<string>) returns (order: seq<string>, toRecord: map<string, Mail>)
    ensures Distinct(order) && forall id :: id in order <==> id in toRecord
    ensures forall id :: id in order <==> id in IdsOf(emails) - known
    ensures forall id :: id in toRecord ==>
              toRecord[id].id == id && LastMail(emails, |emails|, id) == Some(toRecord[id])
  {
    order, toRecord := [], map[];
    for i := 0 to |emails|
      invariant Distinct(order) && forall id :: id in order <==> id in toRecord
      invariant forall id :: id in order <==> id in IdsOf(emails[..i]) - known
      invariant forall id :: id in toRecord ==> toRecord[id].id == id && LastMail(emails, i, id) == Some(toRecord[id])
    {
      var m := emails[i];
      if m.id != "" && m.id !in known {
        if m.id !in toRecord {
          DistinctSnoc(order, m.id);
          order := order + [m.id];
        }
        toRecord := toRecord[m.id := m];
      }
    }
    assert emails[..|emails|] == emails;
  }

  /** Then the unread mail that is not there yet. */
  method CollectUnread(p: Payload, known: set<string>, order0: seq<string>, toRecord0: map<string, Mail>)
    returns (order: seq<string>, toRecord: map<string, Mail>)
    requires Distinct(order0) && forall id :: id in order0 <==> id in toRecord0
    requires forall id :: id in order0 <==> id in IdsOf(p.emails) - known
    requires forall id :: id in toRecord0 ==>
               toRecord0[id].id == id && LastMail(p.emails, |p.emails|, id) == Some(toRecord0[id])
    ensures Distinct(order) && Members(order) == FetchedIds(p) - known
    ensures forall id :: id in order ==> id in toRecord && toRecord[id].id == id && MailFor(p, id) == Some(toRecord[id])
  {
    order, toRecord := order0, toRecord0;
    var more := Unread(p);
    for i := 0 to |more|
      invariant Distinct(order) && forall id :: id in order <==> id in toRecord
      invariant forall id :: id in order <==> id in (IdsOf(p.emails) + IdsOf(more[..i])) - known
      invariant forall id :: id in toRecord ==> toRecord[id].id == id && Chosen(p, i, id) == Some(toRecord[id])
    {
      var m := more[i];
      if m.id != "" && m.id !in known && m.id !in toRecord {
        assert p.emails[..|p.emails|] == p.emails;
        MailFound(p.emails, |p.emails|, m.id);
        MailFound(more, i, m.id);
        DistinctSnoc(order, m.id);
        order := order + [m.id];
        toRecord := toRecord[m.id := m];
      }
    }
    assert more[..|more|] == more;
  }

  /** The mail chosen for an id once `i` unread ones have been gone through. */
  function Chosen(p: Payload, i: nat, id: string): Option<Mail>
    requires i <= |Unread(p)|
  {
    if LastMail(p.emails, |p.emails|, id).Some? then LastMail(p.emails, |p.emails|, id) else FirstMail(Unread(p), i, id)
  }
}
