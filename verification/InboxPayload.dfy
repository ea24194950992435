/** What a poll does to the inbox, said of its payload. */
module InboxPayload {
  import opened Common
  import opened InboxSync
  import opened Inbox

  ghost predicate Lists(mails: seq<Mail>, id: string) {
    id != "" && exists m :: m in mails && m.id == id
  }

  /** The mail counts as unread: it is on the list of unread mail, or, when the payload has no
      such list, was fetched. */
  ghost predicate SaidUnread(p: Payload, id: string) {
    match p.allUnread case Some(list) => Lists(list, id) case None => Lists(p.emails, id)
  }

  ghost predicate Brought(p: Payload, id: string) {
    Lists(p.emails, id) || (p.allUnread.Some? && Lists(p.allUnread.value, id))
  }

  /** `m` is the last fetched mail with its id, or, if none was fetched, the first unread one. */
  ghost predicate SaidOf(p: Payload, m: Mail) {
    if Lists(p.emails, m.id) then
      exists k :: 0 <= k < |p.emails| && p.emails[k] == m && forall j :: k < j < |p.emails| ==> p.emails[j].id != m.id
    else
      && p.allUnread.Some?
      && exists k :: 0 <= k < |p.allUnread.value| && p.allUnread.value[k] == m
                     && forall j :: 0 <= j < k ==> p.allUnread.value[j].id != m.id
  }

  lemma {:induction false} LastMailIs(mails: seq<Mail>, n: nat, id: string)
    requires n <= |mails|
    ensures match LastMail(mails, n, id)
            case None => forall j :: 0 <= j < n ==> mails[j].id != id
            case Some(m) => m.id == id && exists k :: 0 <= k < n && mails[k] == m
                                                      && forall j :: k < j < n ==> mails[j].id != id
  {
    if n > 0 {
      LastMailIs(mails, n - 1, id);
    }
  }

  lemma {:induction false} FirstMailIs(mails: seq<Mail>, n: nat, id: string)
    requires n <= |mails|
    ensures match FirstMail(mails, n, id)
            case None => forall j :: 0 <= j < n ==> mails[j].id != id
            case Some(m) => m.id == id && exists k :: 0 <= k < n && mails[k] == m
                                                      && forall j :: 0 <= j < k ==> mails[j].id != id
  {
    if n > 0 {
      FirstMailIs(mails, n - 1, id);
    }
  }

  lemma {:induction false} MailForIs(p: Payload, id: string)
    requires Brought(p, id)
    ensures MailFor(p, id).Some? && MailFor(p, id).value.id == id && SaidOf(p, MailFor(p, id).value)
  {
    LastMailIs(p.emails, |p.emails|, id);
    FirstMailIs(Unread(p), |Unread(p)|, id);
  }

  lemma {:induction false} IdsAre(p: Payload)
    ensures forall id :: id in FetchedIds(p) <==> Brought(p, id)
    ensures forall id :: id in UnreadIds(p) <==> SaidUnread(p, id)
  {
  }

  /** The row is what the payload says of the mail. */
  ghost predicate RowSays(p: Payload, id: string, row: Row) {
    && row.status == (if SaidUnread(p, id) then Pending else Read)
    && exists m: Mail :: m.id == id && SaidOf(p, m) && row.received == m.received
  }

  /** A poll, said of the payload: every mail it brought that is not among the rows looked at
      has one new recording event and a row with the date the payload gives it, pending exactly
      when it is unread; and nothing else is recorded. */
  lemma {:induction false} PollRecords(before: Ledger, after: Ledger, p: Payload, pending: seq<string>,
                                       read: seq<string>, window: seq<string>)
    requires PollStep(before, after, p, pending, read, window)
    ensures |before.recorded| <= |after.recorded| && after.recorded[..|before.recorded|] == before.recorded
    ensures var more := after.recorded[|before.recorded|..];
            Distinct(more) && forall id :: id in more <==> Brought(p, id) && id !in window
    ensures forall id :: Brought(p, id) && id !in window ==> id in after.table && RowSays(p, id, after.table[id])
  {
    IdsAre(p);
    forall id | Brought(p, id) && id !in window ensures id in after.table && RowSays(p, id, after.table[id]) {
      assert id in FetchedIds(p) - Members(window);
      MailForIs(p, id);
    }
  }

  /** And what it does to the rows there were: only those its three queries returned can move,
      pending to read or back, each exactly when the payload says otherwise. */
  lemma {:induction false} PollMoves(before: Ledger, after: Ledger, p: Payload, pending: seq<string>,
                                     read: seq<string>, window: seq<string>, id: string)
    requires PollStep(before, after, p, pending, read, window)
    requires id in before.table && (id in window || !Brought(p, id))
    ensures id in after.table && after.table[id].received == before.table[id].received
    ensures after.table[id].status ==
            match before.table[id].status
            case Pending => if id in pending && !SaidUnread(p, id) then Read else Pending
            case Read => if id in read && SaidUnread(p, id) then Pending else Read
            case Handled => Handled
  {
    IdsAre(p);
    assert id !in FetchedIds(p) - Members(window);
    var unread := UnreadIds(p);
    SyncChanges(before.table, pending, read, unread);
    MovesTo(before.table, pending, read, unread, id);
  }

  lemma {:induction false} MovesTo(t: Table, pending: seq<string>, read: seq<string>, unread: set<string>, id: string)
    requires SyncWindows(t, pending, read, unread) && id in t
    ensures Synced(t, pending, read, unread)[id].status ==
            match t[id].status
            case Pending => if id in pending && id !in unread then Read else Pending
            case Read => if id in read && id in unread then Pending else Read
            case Handled => Handled
  {
    var t1 := MarkRead(t, pending, unread);
    assert id in pending ==> id in WithStatus(t, Pending);
    assert id in read ==> id in WithStatus(t1, Read);
  }
}
