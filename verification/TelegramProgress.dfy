/** Polls make headway: a poll that receives a missing update delivers the first missing one
    unless its conversation is busy, and every reachable state can still catch up. */
module TelegramProgress {
  import opened Common
  import opened PyText
  import opened TelegramGateway
  import opened TelegramProtocol

  /** The chat for the update at `t`. */
  function ChatFor(s: State, t: nat, conversation: string): Chat
    requires t < |s.remote|
  {
    Chat(conversation, Some(s.remote[t].id), Strip(s.remote[t].text))
  }

  /** The conversation a poll works in: the one it read, else a new one. */
  function InConversation(seen: Config, newId: string): string {
    if seen.conversation == "" then newId else seen.conversation
  }

  lemma {:induction false} NewIs(u: Update, chat: string, log: seq<Chat>)
    ensures IsNew(u, chat, log) <==> Eligible(u, chat) && u.id !in Ids(log)
  {
    IdsMembers(log, u.id);
  }

  /** In a stretch of the queue with nothing missing before it the first missing update is the
      first missing one of the whole queue. */
  lemma {:induction false} FirstNewWithin(s: State, chat: string, i: nat, j: nat)
    requires Inv(s, chat) && i <= j <= |s.remote|
    requires forall k :: 0 <= k < i ==> s.remote[k].id <= s.config.lastUpdateId
    ensures var t := FirstNew(s.remote, chat, s.log);
            && (t < |s.remote| ==> i <= t)
            && FirstNew(s.remote[i..j], chat, s.log) == if t < j then t - i else j - i
  {
    var t := FirstNew(s.remote, chat, s.log);
    if t < |s.remote| {
      NewIs(s.remote[t], chat, s.log);
    }
    FirstNewIs(s.remote[i..j], chat, s.log, if t < j then t - i else j - i);
  }

  lemma {:induction false} FirstNewIs(us: seq<Update>, chat: string, log: seq<Chat>, t: nat)
    requires t <= |us| && (t < |us| ==> IsNew(us[t], chat, log)) && forall k :: 0 <= k < t ==> !IsNew(us[k], chat, log)
    ensures FirstNew(us, chat, log) == t
  {
  }

  /** The walk over the positions `i` to `j` of the queue, foreign chats dropped. */
  lemma {:induction false} StretchWalked(s: State, busy: bool, last: int, chat: string, i: nat, j: nat)
    requires Inv(s, chat) && i <= j <= |s.remote|
    requires forall k :: 0 <= k < i ==> s.remote[k].id <= s.config.lastUpdateId
    ensures var t := FirstNew(s.remote, chat, s.log);
            var w := Walk(Allowlisted(s.remote[i..j], chat), chat, Ids(s.log), busy, last);
            w.stalled == (t < j) && w.emitted == if t < j && !busy then Some(s.remote[t]) else None
  {
    WalkAllowlisted(s.remote[i..j], chat, Ids(s.log), busy, last);
    WalkEmits(s.remote[i..j], chat, s.log, busy, last);
    FirstNewWithin(s, chat, i, j);
  }

  /** What a poll that received the positions `i` to `j` does to the log. */
  lemma {:induction false} StretchDelivers(s: State, seen: Config, f: Fetched, newId: string, chat: string, i: nat,
                                           j: nat)
    requires Inv(s, chat) && AnswerIs(s.remote, seen, f, chat, s.config.lastUpdateId, i, j)
    ensures var conversation, t := InConversation(seen, newId), FirstNew(s.remote, chat, s.log);
            var busy := InFlight(s.log, s.active, conversation);
            LogAfter(s.log, seen, f, chat, busy, newId) ==
            if t < j && !busy then s.log + [ChatFor(s, t, conversation)] else s.log
  {
    StretchWalked(s, InFlight(s.log, s.active, InConversation(seen, newId)), seen.lastUpdateId, chat, i, j);
  }

  /** In every reachable state, whatever other polls are doing: a poll whose answer holds a
      missing update adds the chat of the first missing update of the whole queue, and nothing
      else; and it adds nothing while the conversation is in flight, or if nothing is missing. */
  lemma {:induction false} FinishDelivers(steps: seq<Step>, p: nat, newId: string, now: int, chat: string)
    requires PollOf(RunSteps(INIT, steps, chat), p).Answered?
    requires PollOf(RunSteps(INIT, steps, chat), p).fetched.Fetched?
    ensures var s := RunSteps(INIT, steps, chat);
            var us, conversation := PollOf(s, p).fetched.updates, InConversation(PollOf(s, p).seen, newId);
            var t := FirstNew(s.remote, chat, s.log);
            var delivers := (exists u :: u in us && IsNew(u, chat, s.log)) && !InFlight(s.log, s.active, conversation);
            && (delivers ==> t < |s.remote|)
            && Apply(s, Finish(p, newId, now), chat).log ==
               if delivers then s.log + [ChatFor(s, t, conversation)] else s.log
  {
    RunKeeps(steps, chat);
    var s := RunSteps(INIT, steps, chat);
    assert GoodPoll(s, chat, p);
    var seen, f := PollOf(s, p).seen, PollOf(s, p).fetched;
    var i: nat, j: nat :| AnswerIs(s.remote, seen, f, chat, s.config.lastUpdateId, i, j);
    StretchDelivers(s, seen, f, newId, chat, i, j);
    FirstNewWithin(s, chat, i, j);
    NewIsReceived(s.remote[i..j], chat, s.log);
  }

  lemma {:induction false} NewIsReceived(raw: seq<Update>, chat: string, log: seq<Chat>)
    ensures FirstNew(raw, chat, log) < |raw| <==> exists u :: u in Allowlisted(raw, chat) && IsNew(u, chat, log)
  {
    if raw != [] {
      NewIsReceived(raw[1..], chat, log);
      assert raw[0] in raw;
      if IsNew(raw[0], chat, log) {
        assert raw[0] in Allowlisted(raw, chat);
      }
      forall u | u in Allowlisted(raw[1..], chat) ensures u in Allowlisted(raw, chat) {
      }
    }
  }

  lemma {:induction false} RunAppend(s: State, a: seq<Step>, b: seq<Step>, chat: string)
    ensures RunSteps(s, a + b, chat) == RunSteps(RunSteps(s, a, chat), b, chat)
  {
    if b == [] {
      assert a + b == a;
    } else {
      var init := b[..|b| - 1];
      assert (a + b)[..|a + b| - 1] == a + init && (a + b)[|a + b| - 1] == b[|b| - 1];
      RunAppend(s, a, init, chat);
    }
  }

  /** A whole poll: it starts, receives the queue behind its offset up to `upTo`, and ends. */
  function PollSteps(s: State, p: nat, upTo: nat, newId: string, now: int): seq<Step> {
    [Begin(p, now), Answer(p, From(s.remote, s.config.lastUpdateId + 1), upTo), Finish(p, newId, now)]
  }

  lemma {:induction false} ThreeSteps(s: State, a: Step, b: Step, c: Step, chat: string)
    ensures RunSteps(s, [a, b, c], chat) == Apply(Apply(Apply(s, a, chat), b, chat), c, chat)
  {
    assert [a, b, c][..2] == [a, b] && [a, b][..1] == [a] && [a][..0] == [];
    assert RunSteps(s, [], chat) == s && RunSteps(s, [a], chat) == Apply(s, a, chat);
    assert RunSteps(s, [a, b], chat) == Apply(Apply(s, a, chat), b, chat);
  }

  /** A poll that may start, from a state that keeps the invariant. */
  lemma {:induction false} PollRuns(s: State, p: nat, upTo: nat, newId: string, now: int, chat: string)
    requires Inv(s, chat) && PollOf(s, p).Idle? && From(s.remote, s.config.lastUpdateId + 1) <= upTo <= |s.remote|
    requires MayPoll(s.config, now)
    ensures var conversation := InConversation(s.config, newId);
            var e := RunSteps(s, PollSteps(s, p, upTo, newId, now), chat);
            var f := ToolAnswer(s.remote[From(s.remote, s.config.lastUpdateId + 1)..upTo], s.config.lastUpdateId + 1,
                                chat);
            var busy := InFlight(s.log, s.active, conversation);
            && e.log == LogAfter(s.log, s.config, f, chat, busy, newId)
            && e.config == Save(s.config, ChangesAfter(s.log, s.config, f, chat, busy, newId, now))
            && e.remote == s.remote && e.active == s.active && PollOf(e, p).Idle?
  {
    var from := From(s.remote, s.config.lastUpdateId + 1);
    ThreeSteps(s, Begin(p, now), Answer(p, from, upTo), Finish(p, newId, now), chat);
    PollReceives(s, p, upTo, now, chat);
    var s2 := Apply(Apply(s, Begin(p, now), chat), Answer(p, from, upTo), chat);
    FinishDoes(s2, p, newId, now, chat);
  }

  lemma {:induction false} FinishDoes(s: State, p: nat, newId: string, now: int, chat: string)
    requires PollOf(s, p).Answered?
    ensures var e, poll := Apply(s, Finish(p, newId, now), chat), PollOf(s, p);
            var busy := InFlight(s.log, s.active, InConversation(poll.seen, newId));
            && e.log == LogAfter(s.log, poll.seen, poll.fetched, chat, busy, newId)
            && e.config == Save(s.config, ChangesAfter(s.log, poll.seen, poll.fetched, chat, busy, newId, now))
            && e.remote == s.remote && e.active == s.active && PollOf(e, p).Idle?
  {
    assert InConversation(PollOf(s, p).seen, newId) == ConversationOf(PollOf(s, p).seen, newId);
  }

  lemma {:induction false} PollReceives(s: State, p: nat, upTo: nat, now: int, chat: string)
    requires Inv(s, chat) && PollOf(s, p).Idle? && From(s.remote, s.config.lastUpdateId + 1) <= upTo <= |s.remote|
    requires MayPoll(s.config, now)
    ensures var from := From(s.remote, s.config.lastUpdateId + 1);
            var f := ToolAnswer(s.remote[from..upTo], s.config.lastUpdateId + 1, chat);
            var e := Apply(Apply(s, Begin(p, now), chat), Answer(p, from, upTo), chat);
            PollOf(e, p) == Answered(s.config, f) && e == s.(polls := e.polls)
  {
    var s1 := Apply(s, Begin(p, now), chat);
    assert PollOf(s1, p) == Waiting(s.config);
  }

  lemma {:induction false} PollIdles(s: State, p: nat, upTo: nat, newId: string, now: int, chat: string)
    requires PollOf(s, p).Idle? && !MayPoll(s.config, now)
    ensures RunSteps(s, PollSteps(s, p, upTo, newId, now), chat) == s
  {
    var from := From(s.remote, s.config.lastUpdateId + 1);
    ThreeSteps(s, Begin(p, now), Answer(p, from, upTo), Finish(p, newId, now), chat);
    assert Apply(s, Begin(p, now), chat) == s;
  }

  /** The gateway is on, no wait is running, the answer reaches as far as the first missing
      update, and the conversation is not in flight. */
  ghost predicate Delivers(s: State, upTo: nat, newId: string, now: int, chat: string) {
    && s.config.enabled && (s.config.nextPollAt.None? || s.config.nextPollAt.value <= now)
    && FirstNew(s.remote, chat, s.log) < upTo && !InFlight(s.log, s.active, InConversation(s.config, newId))
  }

  /** What the answer up to `upTo` does to the log. */
  lemma {:induction false} AnswerDelivers(s: State, upTo: nat, newId: string, now: int, chat: string)
    requires Inv(s, chat) && From(s.remote, s.config.lastUpdateId + 1) <= upTo <= |s.remote| && MayPoll(s.config, now)
    ensures var offset, conversation := s.config.lastUpdateId + 1, InConversation(s.config, newId);
            var f := ToolAnswer(s.remote[From(s.remote, offset)..upTo], offset, chat);
            LogAfter(s.log, s.config, f, chat, InFlight(s.log, s.active, conversation), newId) ==
            if Delivers(s, upTo, newId, now, chat)
            then s.log + [ChatFor(s, FirstNew(s.remote, chat, s.log), conversation)] else s.log
  {
    var from := From(s.remote, s.config.lastUpdateId + 1);
    FromIs(s.remote, s.config.lastUpdateId + 1);
    var f := ToolAnswer(s.remote[from..upTo], s.config.lastUpdateId + 1, chat);
    assert AnswerIs(s.remote, s.config, f, chat, s.config.lastUpdateId, from, upTo);
    StretchDelivers(s, s.config, f, newId, chat, from, upTo);
  }

  /** One poll from a state that keeps the invariant. */
  lemma {:induction false} PollFrom(s: State, p: nat, upTo: nat, newId: string, now: int, chat: string)
    requires Inv(s, chat) && PollOf(s, p).Idle? && From(s.remote, s.config.lastUpdateId + 1) <= upTo <= |s.remote|
    ensures var e := RunSteps(s, PollSteps(s, p, upTo, newId, now), chat);
            var t, conversation := FirstNew(s.remote, chat, s.log), InConversation(s.config, newId);
            && e.log == (if Delivers(s, upTo, newId, now, chat) then s.log + [ChatFor(s, t, conversation)] else s.log)
            && e.remote == s.remote && e.active == s.active && PollOf(e, p).Idle?
            && e.config.enabled == s.config.enabled
  {
    if MayPoll(s.config, now) {
      PollRuns(s, p, upTo, newId, now, chat);
      AnswerDelivers(s, upTo, newId, now, chat);
    } else {
      PollIdles(s, p, upTo, newId, now, chat);
    }
  }

  /** From every reachable state: a whole poll delivers the first missing update exactly when
      the gateway is on, no wait is running, the answer reaches that far and the conversation
      is not in flight; the requested ids then reach one eligible update further. */
  lemma {:induction false} PollDelivers(steps: seq<Step>, p: nat, upTo: nat, newId: string, now: int, chat: string)
    requires PollOf(RunSteps(INIT, steps, chat), p).Idle?
    requires var s := RunSteps(INIT, steps, chat); From(s.remote, s.config.lastUpdateId + 1) <= upTo <= |s.remote|
    ensures var s := RunSteps(INIT, steps, chat);
            var e := RunSteps(INIT, steps + PollSteps(s, p, upTo, newId, now), chat);
            var t := FirstNew(s.remote, chat, s.log);
            if Delivers(s, upTo, newId, now, chat)
            then e.log == s.log + [ChatFor(s, t, InConversation(s.config, newId))]
                 && Ids(s.log) == EligibleIds(s.remote, t, chat) && Ids(e.log) == EligibleIds(s.remote, t + 1, chat)
            else e.log == s.log
  {
    RunKeeps(steps, chat);
    var s := RunSteps(INIT, steps, chat);
    RunAppend(INIT, steps, PollSteps(s, p, upTo, newId, now), chat);
    PollFrom(s, p, upTo, newId, now, chat);
    if Delivers(s, upTo, newId, now, chat) {
      KnownUpTo(s, FirstNew(s.remote, chat, s.log), InConversation(s.config, newId), chat);
    }
  }

  lemma {:induction false} KnownUpTo(s: State, t: nat, conversation: string, chat: string)
    requires Inv(s, chat) && t == FirstNew(s.remote, chat, s.log) < |s.remote|
    ensures Ids(s.log) == EligibleIds(s.remote, t, chat)
    ensures Ids(s.log + [ChatFor(s, t, conversation)]) == EligibleIds(s.remote, t + 1, chat)
  {
    NewIs(s.remote[t], chat, s.log);
    forall k | 0 <= k < t && Eligible(s.remote[k], chat) ensures s.remote[k].id in Ids(s.log) {
      NewIs(s.remote[k], chat, s.log);
    }
    KnownBelow(s.remote, Ids(s.log), t, chat);
    assert (s.log + [ChatFor(s, t, conversation)])[..|s.log|] == s.log;
  }

  // ----- Catching up -----

  /** The gateway is on, poll 0 is not running, and no request is either. */
  ghost predicate Ready(s: State) {
    s.config.enabled && PollOf(s, 0).Idle? && s.active == {}
  }

  lemma {:induction false} OneStep(s: State, step: Step, chat: string)
    ensures RunSteps(s, [step], chat) == Apply(s, step, chat)
  {
    assert [step][..0] == [];
  }

  lemma {:induction false} RequestsEnd(s: State, chat: string) returns (steps: seq<Step>)
    ensures RunSteps(s, steps, chat) == s.(active := {})
    ensures forall i :: 0 <= i < |steps| ==> steps[i].Completed?
    decreases |s.active|
  {
    steps := [];
    if s.active != {} {
      var i :| i in s.active;
      var without := s.(active := s.active - {i});
      OneStep(s, Completed(i), chat);
      var rest := RequestsEnd(without, chat);
      RunAppend(s, [Completed(i)], rest, chat);
      steps := [Completed(i)] + rest;
    }
  }

  /** When nothing is missing every eligible update has its chat. */
  lemma {:induction false} NothingMissing(s: State, chat: string)
    requires Inv(s, chat) && FirstNew(s.remote, chat, s.log) == |s.remote|
    ensures Ids(s.log) == EligibleIds(s.remote, |s.remote|, chat)
  {
    var n: nat :| n <= |s.remote| && Ids(s.log) == EligibleIds(s.remote, n, chat);
    EligibleIdsAre(s.remote, n, chat);
    forall k | n <= k < |s.remote| ensures !Eligible(s.remote[k], chat) {
      NewIs(s.remote[k], chat, s.log);
    }
    NoneBetween(s.remote, n, |s.remote|, chat);
  }

  lemma {:induction false} FirstNewLater(us: seq<Update>, chat: string, log: seq<Chat>, c: Chat)
    requires FirstNew(us, chat, log) < |us| && c.update == Some(us[FirstNew(us, chat, log)].id)
    ensures FirstNew(us, chat, log) < FirstNew(us, chat, log + [c])
  {
    assert c in log + [c];
  }

  lemma {:induction false} FromAt(remote: seq<Update>, offset: int)
    ensures From(remote, offset) < |remote| ==> remote[From(remote, offset)].id >= offset
  {
    if remote != [] && remote[|remote| - 1].id >= offset {
      FromAt(remote[..|remote| - 1], offset);
    }
  }

  lemma {:induction false} FromBehind(remote: seq<Update>, offset: int, k: nat)
    requires Ascending(remote) && k < |remote| && remote[k].id < offset
    ensures From(remote, offset) > k
  {
    FromAt(remote, offset);
    assert IdsRise(remote, From(remote, offset), k);
  }

  /** A stretch of the queue with nothing missing is passed to its end. */
  lemma {:induction false} StretchPassed(s: State, seen: Config, f: Fetched, busy: bool, chat: string, i: nat, j: nat)
    requires Inv(s, chat) && AnswerIs(s.remote, seen, f, chat, s.config.lastUpdateId, i, j)
    requires i < j <= FirstNew(s.remote, chat, s.log)
    ensures Reached(WalkOf(s.log, seen, f, chat, busy), NextOffset(f)) >= s.remote[j - 1].id
  {
    StretchWalked(s, busy, seen.lastUpdateId, chat, i, j);
    MaxIdLast(s.remote, i, j);
  }

  /** A poll that received nothing missing moves the offset behind what it received, so that
      the next one asks further on. */
  lemma {:induction false} PollAdvances(s: State, p: nat, upTo: nat, newId: string, now: int, chat: string)
    requires Inv(s, chat) && PollOf(s, p).Idle? && MayPoll(s.config, now)
    requires From(s.remote, s.config.lastUpdateId + 1) < upTo <= FirstNew(s.remote, chat, s.log)
    ensures var e := RunSteps(s, PollSteps(s, p, upTo, newId, now), chat);
            e.config.lastUpdateId >= s.remote[upTo - 1].id
  {
    var from := From(s.remote, s.config.lastUpdateId + 1);
    var f := ToolAnswer(s.remote[from..upTo], s.config.lastUpdateId + 1, chat);
    PollRuns(s, p, upTo, newId, now, chat);
    FromIs(s.remote, s.config.lastUpdateId + 1);
    assert AnswerIs(s.remote, s.config, f, chat, s.config.lastUpdateId, from, upTo);
    StretchPassed(s, s.config, f, InFlight(s.log, s.active, InConversation(s.config, newId)), chat, from, upTo);
  }

  /** The first missing update is not below the offset. */
  lemma {:induction false} MissingAhead(s: State, chat: string)
    requires Inv(s, chat) && FirstNew(s.remote, chat, s.log) < |s.remote|
    ensures From(s.remote, s.config.lastUpdateId + 1) <= FirstNew(s.remote, chat, s.log)
  {
    FromIs(s.remote, s.config.lastUpdateId + 1);
    NewIs(s.remote[FirstNew(s.remote, chat, s.log)], chat, s.log);
  }

  /** No answer among the steps holds more than `limit` updates. */
  ghost predicate Limited(steps: seq<Step>, limit: nat) {
    forall i :: 0 <= i < |steps| && steps[i].Answer? ==> steps[i].upTo <= steps[i].from + limit
  }

  lemma {:induction false} LimitedCat(a: seq<Step>, b: seq<Step>, limit: nat)
    requires Limited(a, limit) && Limited(b, limit)
    ensures Limited(a + b, limit)
  {
  }

  /** Updates from the first missing one on, and updates the next poll can ask for. */
  ghost function Missing(s: State, chat: string): nat {
    |s.remote| - FirstNew(s.remote, chat, s.log)
  }

  ghost function Unasked(s: State): nat {
    |s.remote| - From(s.remote, s.config.lastUpdateId + 1)
  }

  /** The same queue, and closer to having asked for and delivered all of it. */
  ghost predicate Further(s: State, e: State, chat: string) {
    && e.remote == s.remote && Ready(e)
    && (Missing(e, chat) < Missing(s, chat) || (Missing(e, chat) == Missing(s, chat) && Unasked(e) < Unasked(s)))
  }

  /** A poll that reaches the first missing update. */
  lemma {:induction false} PollFurther(s: State, upTo: nat, now: int, chat: string)
    requires Inv(s, chat) && Ready(s) && MayPoll(s.config, now)
    requires From(s.remote, s.config.lastUpdateId + 1) <= FirstNew(s.remote, chat, s.log) < upTo <= |s.remote|
    ensures Further(s, RunSteps(s, PollSteps(s, 0, upTo, "", now), chat), chat)
  {
    PollFrom(s, 0, upTo, "", now, chat);
    var t := FirstNew(s.remote, chat, s.log);
    FirstNewLater(s.remote, chat, s.log, ChatFor(s, t, InConversation(s.config, "")));
  }

  /** A poll that does not. */
  lemma {:induction false} PollOn(s: State, upTo: nat, now: int, chat: string)
    requires Inv(s, chat) && Ready(s) && MayPoll(s.config, now)
    requires From(s.remote, s.config.lastUpdateId + 1) < upTo <= FirstNew(s.remote, chat, s.log)
    ensures Further(s, RunSteps(s, PollSteps(s, 0, upTo, "", now), chat), chat)
  {
    var e := RunSteps(s, PollSteps(s, 0, upTo, "", now), chat);
    PollFrom(s, 0, upTo, "", now, chat);
    PollAdvances(s, 0, upTo, "", now, chat);
    OffsetFurther(s, e, upTo, chat);
  }

  lemma {:induction false} OffsetFurther(s: State, e: State, upTo: nat, chat: string)
    requires Inv(s, chat) && From(s.remote, s.config.lastUpdateId + 1) < upTo <= |s.remote|
    requires e.remote == s.remote && e.log == s.log && Ready(e)
    requires e.config.lastUpdateId >= s.remote[upTo - 1].id
    ensures Further(s, e, chat)
  {
    FromBehind(s.remote, e.config.lastUpdateId + 1, upTo - 1);
  }

  lemma {:induction false} PollLimited(s: State, p: nat, upTo: nat, newId: string, now: int, limit: nat)
    requires upTo <= From(s.remote, s.config.lastUpdateId + 1) + limit
    ensures Limited(PollSteps(s, p, upTo, newId, now), limit)
  {
  }

  /** The next poll of a catching-up gateway delivers, or asks further on next time. */
  lemma {:induction false} NextPoll(s: State, limit: nat, chat: string) returns (poll: seq<Step>)
    requires Inv(s, chat) && Ready(s) && limit >= 1 && Missing(s, chat) > 0
    ensures Limited(poll, limit) && Further(s, RunSteps(s, poll, chat), chat)
  {
    var from := From(s.remote, s.config.lastUpdateId + 1);
    var now := if s.config.nextPollAt.Some? then s.config.nextPollAt.value else 0;
    MissingAhead(s, chat);
    var upTo := Min(from + limit, |s.remote|);
    poll := PollSteps(s, 0, upTo, "", now);
    PollLimited(s, 0, upTo, "", now, limit);
    if FirstNew(s.remote, chat, s.log) < upTo {
      PollFurther(s, upTo, now, chat);
    } else {
      PollOn(s, upTo, now, chat);
    }
  }

  lemma {:induction false} CatchUpFrom(s: State, limit: nat, chat: string) returns (more: seq<Step>)
    requires Inv(s, chat) && Ready(s) && limit >= 1
    ensures RunSteps(s, more, chat).remote == s.remote
    ensures Ids(RunSteps(s, more, chat).log) == EligibleIds(s.remote, |s.remote|, chat)
    ensures Limited(more, limit)
    decreases Missing(s, chat), Unasked(s)
  {
    more := [];
    if Missing(s, chat) == 0 {
      NothingMissing(s, chat);
    } else {
      var poll := NextPoll(s, limit, chat);
      var e := RunSteps(s, poll, chat);
      RunKeepsFrom(s, poll, chat);
      var rest := CatchUpFrom(e, limit, chat);
      RunAppend(s, poll, rest, chat);
      LimitedCat(poll, rest, limit);
      more := poll + rest;
    }
  }

  lemma {:induction false} RunKeepsFrom(s: State, steps: seq<Step>, chat: string)
    requires Inv(s, chat)
    ensures Inv(RunSteps(s, steps, chat), chat)
  {
    if steps != [] {
      RunKeepsFrom(s, steps[..|steps| - 1], chat);
      StepKeeps(RunSteps(s, steps[..|steps| - 1], chat), steps[|steps| - 1], chat);
    }
  }

  /** Whatever has happened, a gateway can be made ready without a new update or chat. */
  lemma {:induction false} MakeReady(s: State, limit: nat, chat: string) returns (steps: seq<Step>)
    ensures Limited(steps, limit) && Ready(RunSteps(s, steps, chat))
    ensures RunSteps(s, steps, chat).remote == s.remote
  {
    var on := [Crash, Settings(true)];
    var s1 := RunSteps(s, on, chat);
    assert on[..1] == [Crash] && on[..1][..0] == [];
    assert RunSteps(s, on[..1], chat) == Apply(s, Crash, chat);
    var ends := RequestsEnd(s1, chat);
    RunAppend(s, on, ends, chat);
    LimitedCat(on, ends, limit);
    steps := on + ends;
  }

  /** No run leads into a dead end: whatever has failed so far, and however few updates an
      answer may hold, some continuation leaves every eligible update with its chat. */
  lemma {:induction false} CanCatchUp(steps: seq<Step>, limit: nat, chat: string) returns (more: seq<Step>)
    requires limit >= 1
    ensures var s, e := RunSteps(INIT, steps, chat), RunSteps(INIT, steps + more, chat);
            e.remote == s.remote && Ids(e.log) == EligibleIds(s.remote, |s.remote|, chat)
    ensures Limited(more, limit)
  {
    RunKeeps(steps, chat);
    var s := RunSteps(INIT, steps, chat);
    var first := MakeReady(s, limit, chat);
    RunKeepsFrom(s, first, chat);
    var rest := CatchUpFrom(RunSteps(s, first, chat), limit, chat);
    RunAppend(s, first, rest, chat);
    LimitedCat(first, rest, limit);
    more := first + rest;
    RunAppend(INIT, steps, more, chat);
  }
}
