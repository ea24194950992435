/** One poll of the Telegram gateway: the stored settings row, the walk over fetched
    updates, and what is saved. */
module TelegramGateway {
  import opened Common
  import opened PyText

  /** An update as Telegram numbers it; 0 stands for a missing id. */
  datatype Update = Update(id: nat, chat: string, text: string)

  /** A ChatRequested event; `update` is the Telegram update it came from, if any. */
  datatype Chat = Chat(conversation: string, update: Option<nat>, message: string)

  /** The settings row, times in seconds. */
  datatype Config = Config(enabled: bool, lastUpdateId: int, conversation: string, failures: nat,
                           nextPollAt: Option<int>)

  /** The fields a save names; the others keep their stored value. */
  datatype Changes = Changes(enabled: Option<bool>, lastUpdateId: Option<int>, conversation: Option<string>,
                             failures: Option<nat>, nextPollAt: Option<Option<int>>)

  /** What the fetch capability answers. */
  datatype Fetched = FetchError | Garbled | Fetched(updates: seq<Update>, nextOffset: Option<int>)

  function Or<T>(change: Option<T>, stored: T): T {
    if change.Some? then change.value else stored
  }

  /** An update the gateway must turn into a chat: numbered, allowlisted, not blank. */
  predicate Eligible(u: Update, chat: string) {
    u.id != 0 && u.chat == chat && Strip(u.text) != []
  }

  /** The Telegram update ids in the event log, in log order. */
  function Ids(log: seq<Chat>): seq<nat> {
    if log == [] then []
    else if log[|log| - 1].update.Some? then Ids(log[..|log| - 1]) + [log[|log| - 1].update.value]
    else Ids(log[..|log| - 1])
  }

  /** Saving merges into the stored row and never moves the offset back. */
  function Save(stored: Config, c: Changes): Config {
    Config(Or(c.enabled, stored.enabled),
           Max(Max(stored.lastUpdateId, Or(c.lastUpdateId, stored.lastUpdateId)), 0),
           Or(c.conversation, stored.conversation),
           Or(c.failures, stored.failures),
           Or(c.nextPollAt, stored.nextPollAt))
  }

  /** Every field named has the new value, every other its old one, and the offset is the highest
      of what was stored, what was named and 0. */
  ghost predicate Merged(stored: Config, c: Changes, saved: Config) {
    && saved.enabled == (if c.enabled.Some? then c.enabled.value else stored.enabled)
    && saved.conversation == (if c.conversation.Some? then c.conversation.value else stored.conversation)
    && saved.failures == (if c.failures.Some? then c.failures.value else stored.failures)
    && saved.nextPollAt == (if c.nextPollAt.Some? then c.nextPollAt.value else stored.nextPollAt)
    && saved.lastUpdateId >= stored.lastUpdateId && saved.lastUpdateId >= 0
    && (c.lastUpdateId.Some? ==> saved.lastUpdateId >= c.lastUpdateId.value)
    && (saved.lastUpdateId == stored.lastUpdateId || saved.lastUpdateId == 0
        || c.lastUpdateId == Some(saved.lastUpdateId))
  }

  /** Whether a poll may start now. */
  predicate MayPoll(c: Config, now: int) {
    c.enabled && !(c.nextPollAt.Some? && c.nextPollAt.value > now)
  }

  function Pow2(n: nat): nat {
    if n == 0 then 1 else 2 * Pow2(n - 1)
  }

  /** Seconds to wait after the `failures`-th failure in a row. */
  function Backoff(failures: nat): int
    requires failures >= 1
  {
    Min(60 * Pow2(failures - 1), 900)
  }

  /** The outcome of the walk: the highest id passed, the update emitted, and whether the
      walk stopped early. */
  datatype Walked = Walked(last: int, emitted: Option<Update>, stalled: bool)

  /** Pass everything already requested, stop at the first eligible update that is not, and
      emit it unless the conversation is busy. */
  function Walk(updates: seq<Update>, chat: string, known: seq<nat>, busy: bool, last: int): Walked {
    if updates == [] then Walked(last, None, false)
    else if !Eligible(updates[0], chat) then Walk(updates[1..], chat, known, busy, last)
    else if updates[0].id in known then Walk(updates[1..], chat, known, busy, Max(last, updates[0].id))
    else if busy then Walked(last, None, true)
    else Walked(Max(last, updates[0].id), Some(updates[0]), true)
  }

  /** The offset a finished walk saves. */
  function Reached(w: Walked, nextOffset: Option<int>): int {
    if !w.stalled && nextOffset.Some? then Max(w.last, nextOffset.value - 1) else w.last
  }

  function Updates(f: Fetched): seq<Update> {
    if f.Fetched? then f.updates else []
  }

  function NextOffset(f: Fetched): Option<int> {
    if f.Fetched? then f.nextOffset else None
  }

  function ConversationOf(seen: Config, newId: string): string {
    if seen.conversation != "" then seen.conversation else newId
  }

  function WalkOf(log: seq<Chat>, seen: Config, f: Fetched, chat: string, busy: bool): Walked {
    Walk(Updates(f), chat, Ids(log), busy, seen.lastUpdateId)
  }

  function EmitOne(log: seq<Chat>, w: Walked, conversation: string): seq<Chat> {
    match w.emitted
    case None => log
    case Some(u) => log + [Chat(conversation, Some(u.id), Strip(u.text))]
  }

  /** The log after a poll that read `seen` at its start has worked through `f`. */
  function LogAfter(log: seq<Chat>, seen: Config, f: Fetched, chat: string, busy: bool, newId: string): seq<Chat> {
    if f.FetchError? then log
    else EmitOne(log, WalkOf(log, seen, f, chat, busy), ConversationOf(seen, newId))
  }

  /** What the same poll saves. */
  function ChangesAfter(log: seq<Chat>, seen: Config, f: Fetched, chat: string, busy: bool, newId: string,
                        now: int): Changes {
    if f.FetchError? then
      Changes(None, None, None, Some(seen.failures + 1), Some(Some(now + Backoff(seen.failures + 1))))
    else
      Changes(None, Some(Reached(WalkOf(log, seen, f, chat, busy), NextOffset(f))), Some(ConversationOf(seen, newId)),
              Some(0), Some(None))
  }

  // ----- What a poll is for, said of the updates and the log alone -----

  /** Numbered, from the configured chat, not blank, and not yet requested. */
  ghost predicate IsNew(u: Update, chat: string, log: seq<Chat>) {
    u.id != 0 && u.chat == chat && Strip(u.text) != "" && forall c :: c in log ==> c.update != Some(u.id)
  }

  /** Where the first new update stands, or the end of the list. */
  ghost function FirstNew(us: seq<Update>, chat: string, log: seq<Chat>): (t: nat)
    ensures t <= |us| && (t < |us| ==> IsNew(us[t], chat, log)) && forall k :: 0 <= k < t ==> !IsNew(us[k], chat, log)
  {
    if us == [] || IsNew(us[0], chat, log) then 0 else 1 + FirstNew(us[1..], chat, log)
  }

  /** The poll gets past these: updates for the gateway, requested already, in front of the
      first new one. */
  ghost predicate Passed(us: seq<Update>, k: int, chat: string, log: seq<Chat>) {
    0 <= k < FirstNew(us, chat, log) && us[k].id != 0 && us[k].chat == chat && Strip(us[k].text) != ""
  }

  lemma {:induction false} IdsMembers(log: seq<Chat>, id: nat)
    ensures id in Ids(log) <==> exists c :: c in log && c.update == Some(id)
  {
    if log != [] {
      IdsMembers(log[..|log| - 1], id);
      InitLast(log);
    }
  }

  /** The walk stops at the first new update and emits it, unless the conversation is busy. */
  lemma {:induction false} WalkEmits(us: seq<Update>, chat: string, log: seq<Chat>, busy: bool, last: int)
    ensures var w, t := Walk(us, chat, Ids(log), busy, last), FirstNew(us, chat, log);
            && w.stalled == (t < |us|)
            && w.emitted == (if t < |us| && !busy then Some(us[t]) else None)
  {
    if us != [] {
      IdsMembers(log, us[0].id);
      if !IsNew(us[0], chat, log) {
        WalkEmits(us[1..], chat, log, busy, if Eligible(us[0], chat) then Max(last, us[0].id) else last);
      }
    }
  }

  /** It ends with the highest id among where it began, what it passed and what it emitted. */
  lemma {:induction false} WalkReaches(us: seq<Update>, chat: string, log: seq<Chat>, busy: bool, last: int)
    ensures var w := Walk(us, chat, Ids(log), busy, last);
            && w.last >= last && (w.emitted.Some? ==> w.last >= w.emitted.value.id)
            && (forall k :: Passed(us, k, chat, log) ==> w.last >= us[k].id)
  {
    if us != [] {
      IdsMembers(log, us[0].id);
      if !IsNew(us[0], chat, log) {
        WalkReaches(us[1..], chat, log, busy, if Eligible(us[0], chat) then Max(last, us[0].id) else last);
        forall k | Passed(us, k, chat, log) && k > 0
          ensures Passed(us[1..], k - 1, chat, log) && us[1..][k - 1] == us[k]
        {
        }
      }
    }
  }

  lemma {:induction false} WalkReachesNoMore(us: seq<Update>, chat: string, log: seq<Chat>, busy: bool, last: int)
    ensures var w := Walk(us, chat, Ids(log), busy, last);
            || w.last == last || (w.emitted.Some? && w.last == w.emitted.value.id)
            || exists k :: Passed(us, k, chat, log) && w.last == us[k].id
  {
    if us != [] {
      IdsMembers(log, us[0].id);
      if !IsNew(us[0], chat, log) {
        var next := if Eligible(us[0], chat) then Max(last, us[0].id) else last;
        WalkReachesNoMore(us[1..], chat, log, busy, next);
        var w := Walk(us[1..], chat, Ids(log), busy, next);
        if k :| Passed(us[1..], k, chat, log) && w.last == us[1..][k].id {
          assert Passed(us, k + 1, chat, log) && us[k + 1] == us[1..][k];
        }
        assert Eligible(us[0], chat) ==> Passed(us, 0, chat, log);
      }
    }
  }

  /** What a poll that read `seen` and got the answer `f` does to log and settings. */
  ghost predicate PollDone(before: Config, after: Config, log: seq<Chat>, log': seq<Chat>, seen: Config, f: Fetched,
                           chat: string, busy: bool, newId: string, now: int) {
    if f.FetchError? then
      && log' == log && after.enabled == before.enabled && after.conversation == before.conversation
      && after.lastUpdateId == Max(before.lastUpdateId, 0)
      && after.failures == seen.failures + 1 && after.nextPollAt == Some(now + Backoff(seen.failures + 1))
    else
      var us := if f.Fetched? then f.updates else [];
      var t := FirstNew(us, chat, log);
      var conversation := if seen.conversation != "" then seen.conversation else newId;
      && log' == (if t < |us| && !busy then log + [Chat(conversation, Some(us[t].id), Strip(us[t].text))] else log)
      && after.enabled == before.enabled && after.conversation == conversation
      && after.failures == 0 && after.nextPollAt == None
      && OffsetSaved(before, after, log, seen, f, us, chat, busy)
  }

  /** The offset saved: at least the stored one, the one the poll began with, every update passed
      and the one emitted, and, if nothing new was there, what Telegram named; and one of these. */
  ghost predicate OffsetSaved(before: Config, after: Config, log: seq<Chat>, seen: Config, f: Fetched, us: seq<Update>,
                              chat: string, busy: bool) {
    var t, v := FirstNew(us, chat, log), after.lastUpdateId;
    var named := t == |us| && f.Fetched? && f.nextOffset.Some?;
    && v >= before.lastUpdateId && v >= seen.lastUpdateId && v >= 0
    && (forall k :: Passed(us, k, chat, log) ==> v >= us[k].id)
    && (t < |us| && !busy ==> v >= us[t].id) && (named ==> v >= f.nextOffset.value - 1)
    && (v == before.lastUpdateId || v == seen.lastUpdateId || v == 0 || (t < |us| && !busy && v == us[t].id)
        || (named && v == f.nextOffset.value - 1) || exists k :: Passed(us, k, chat, log) && v == us[k].id)
  }

  lemma {:induction false} PollMeans(before: Config, log: seq<Chat>, seen: Config, f: Fetched, chat: string, busy: bool,
                                     newId: string, now: int)
    ensures PollDone(before, Save(before, ChangesAfter(log, seen, f, chat, busy, newId, now)), log,
                     LogAfter(log, seen, f, chat, busy, newId), seen, f, chat, busy, newId, now)
  {
    WalkEmits(Updates(f), chat, log, busy, seen.lastUpdateId);
    WalkReaches(Updates(f), chat, log, busy, seen.lastUpdateId);
    WalkReachesNoMore(Updates(f), chat, log, busy, seen.lastUpdateId);
  }

  class Gateway {
    const chat: string
    var config: Config
    var log: seq<Chat>

    constructor (chat: string)
      ensures this.chat == chat && config == Config(false, 0, "", 0, None) && log == []
    {
      this.chat := chat;
      config := Config(false, 0, "", 0, None);
      log := [];
    }

    method SaveConfig(c: Changes)
      modifies this`config
      ensures config == Save(old(config), c)
      ensures Merged(old(config), c, config)
    {
      var persistedOffset := config.lastUpdateId;
      if c.enabled.Some? {
        config := config.(enabled := c.enabled.value);
      }
      if c.lastUpdateId.Some? {
        config := config.(lastUpdateId := c.lastUpdateId.value);
      }
      if c.conversation.Some? {
        config := config.(conversation := c.conversation.value);
      }
      if c.failures.Some? {
        config := config.(failures := c.failures.value);
      }
      if c.nextPollAt.Some? {
        config := config.(nextPollAt := c.nextPollAt.value);
      }
      config := config.(lastUpdateId := Max(Max(persistedOffset, config.lastUpdateId), 0));
    }

    /** The part of a poll behind its only suspension point: walk, emit at most one chat,
        save. `busy` answers whether a conversation has a chat in flight. */
    method FinishPoll(seen: Config, f: Fetched, busy: string -> bool, newId: string, now: int) returns (processed: nat)
      modifies this`config, this`log
      ensures log == LogAfter(old(log), seen, f, chat, busy(ConversationOf(seen, newId)), newId)
      ensures config == Save(old(config),
              ChangesAfter(old(log), seen, f, chat, busy(ConversationOf(seen, newId)), newId, now))
      ensures processed == |log| - |old(log)|
      ensures PollDone(old(config), config, old(log), log, seen, f, chat,
                       busy(if seen.conversation != "" then seen.conversation else newId), newId, now)
    {
      if f.FetchError? {
        var failures := seen.failures + 1;
        SaveConfig(Changes(None, None, None, Some(failures), Some(Some(now + Backoff(failures)))));
        PollMeans(old(config), old(log), seen, f, chat, busy(ConversationOf(seen, newId)), newId, now);
        return 0;
      }
      processed := 0;
      var stalled := false;
      var lastUpdateId := seen.lastUpdateId;
      var conversation := if seen.conversation != "" then seen.conversation else newId;
      var updates := if f.Fetched? then f.updates else [];
      ghost var goal := WalkOf(log, seen, f, chat, busy(conversation));
      for i := 0 to |updates|
        invariant log == old(log) && config == old(config) && processed == 0 && !stalled
        invariant Walk(updates[i..], chat, Ids(log), busy(conversation), lastUpdateId) == goal
      {
        var u := updates[i];
        assert updates[i..][1..] == updates[i + 1..];
        if u.id == 0 || u.chat != chat || Strip(u.text) == [] {
          continue;
        }
        if u.id in Ids(log) {
          lastUpdateId := Max(lastUpdateId, u.id);
          continue;
        }
        if busy(conversation) {
          stalled := true;
          break;
        }
        log := log + [Chat(conversation, Some(u.id), Strip(u.text))];
        lastUpdateId := Max(lastUpdateId, u.id);
        processed := 1;
        stalled := true;
        break;
      }
      if !stalled {
        assert updates[|updates|..] == [];
      }
      var nextOffset := if f.Fetched? then f.nextOffset else None;
      if !stalled && nextOffset.Some? {
        lastUpdateId := Max(lastUpdateId, nextOffset.value - 1);
      }
      SaveConfig(Changes(None, Some(lastUpdateId), Some(conversation), Some(0), Some(None)));
      PollMeans(old(config), old(log), seen, f, chat, busy(conversation), newId, now);
    }
  }

  /** The wait is one, two, four, eight and then fifteen minutes. */
  lemma {:induction false} BackoffBounded(failures: nat)
    requires failures >= 1
    ensures 60 <= Backoff(failures) <= 900 && Backoff(failures) <= Backoff(failures + 1)
    ensures Backoff(failures) == 900 <==> failures >= 5
    ensures failures <= 4 ==> Backoff(failures) == if failures == 1 then 60 else if failures == 2 then 120
                                                   else if failures == 3 then 240 else 480
  {
    if failures > 5 {
      BackoffBounded(failures - 1);
    } else {
      assert Pow2(0) == 1 && Pow2(1) == 2 && Pow2(2) == 4 && Pow2(3) == 8 && Pow2(4) == 16;
    }
  }
}
