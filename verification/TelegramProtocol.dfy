/** Interleaved polls, crashes and a growing remote queue: every eligible update becomes a
    chat exactly once, in order. */
module TelegramProtocol {
  import opened Common
  import opened TelegramGateway

  /** Where a poll stands: not running, waiting for Telegram, or holding its answer. */
  datatype Poll = Idle | Waiting(seen: Config) | Answered(seen: Config, fetched: Fetched)

  /** `remote` is every update Telegram has ever queued for the bot. A request stands in the
      log at once; it is `waiting` until the dispatch task gives it an execution row, and
      `active` from then until that execution is over. */
  datatype State = State(remote: seq<Update>, config: Config, log: seq<Chat>, waiting: set<nat>, active: set<nat>,
                         polls: map<nat, Poll>)

  datatype Step =
    | Arrive(u: Update)                            // a user writes to the bot
    | Begin(p: nat, now: int)                      // a poll starts and reads the settings
    | Answer(p: nat, from: nat, upTo: nat)         // Telegram answers with the updates at `from` to `upTo`
    | AnswerBadly(p: nat, error: bool)             // the fetch fails, or answers something unreadable
    | Finish(p: nat, newId: string, now: int)      // walk, emit, save
    | SaveFails(p: nat, newId: string)             // walk and emit, but the save raises
    | PollDies(p: nat)                             // one poll is cancelled
    | CrashInFinish(p: nat, newId: string)         // walk and emit, then the process dies before the save
    | Crash
    | Settings(enabled: bool)                      // the user switches the gateway on or off
    | OtherChat(conversation: string, text: string)  // the web client writes to a conversation
    | Dispatched(i: nat)                           // the dispatch task queues an execution
    | Rejected(i: nat)                             // the scheduler is full, or the task never ran
    | Completed(i: nat)                            // the execution is over

  function PollOf(s: State, p: nat): Poll {
    if p in s.polls then s.polls[p] else Idle
  }

  /** The first position whose id is at least `offset`. */
  function From(remote: seq<Update>, offset: int): (i: nat)
    ensures i <= |remote|
  {
    if remote == [] || remote[|remote| - 1].id < offset then |remote| else From(remote[..|remote| - 1], offset)
  }

  function MaxId(raw: seq<Update>): int {
    if raw == [] then 0 else Max(MaxId(raw[..|raw| - 1]), raw[|raw| - 1].id)
  }

  function Allowlisted(raw: seq<Update>, chat: string): seq<Update> {
    if raw == [] then []
    else if raw[0].chat == chat then [raw[0]] + Allowlisted(raw[1..], chat)
    else Allowlisted(raw[1..], chat)
  }

  /** What the fetch tool makes of Telegram's answer: foreign chats dropped, the next offset
      behind everything received. */
  function ToolAnswer(raw: seq<Update>, offset: int, chat: string): Fetched {
    Fetched(Allowlisted(raw, chat), Some(if raw != [] then MaxId(raw) + 1 else offset))
  }

  /** Position of request `i` among the requests of its conversation. */
  function Rank(log: seq<Chat>, i: nat): nat
    requires i < |log|
  {
    RankIn(log, i, log[i].conversation)
  }

  function RankIn(log: seq<Chat>, n: nat, conversation: string): nat
    requires n <= |log|
  {
    if n == 0 then 0 else RankIn(log, n - 1, conversation) + if log[n - 1].conversation == conversation then 1 else 0
  }

  const LOOKUP_LIMIT: nat := 10

  /** The in-flight test: whether one of the conversation's first ten requests has an
      execution that is not over. */
  predicate InFlight(log: seq<Chat>, active: set<nat>, conversation: string) {
    exists i: nat :: i < |log| && log[i].conversation == conversation && i in active && Rank(log, i) < LOOKUP_LIMIT
  }

  /** One step; a step whose guard fails leaves the state alone. */
  function Apply(s: State, step: Step, chat: string): State {
    match step
    case Arrive(u) =>
      if u.id > 0 && (s.remote == [] || s.remote[|s.remote| - 1].id < u.id) then s.(remote := s.remote + [u]) else s
    case Begin(p, now) =>
      if PollOf(s, p).Idle? && MayPoll(s.config, now) then s.(polls := s.polls[p := Waiting(s.config)]) else s
    case Answer(p, from, upTo) =>
      if PollOf(s, p).Waiting? then
        var seen := PollOf(s, p).seen;
        if MayStartAt(s, seen, from) && from <= upTo <= |s.remote| then
          s.(polls := s.polls[p := Answered(seen, ToolAnswer(s.remote[from..upTo], seen.lastUpdateId + 1, chat))])
        else s
      else s
    case AnswerBadly(p, error) =>
      if PollOf(s, p).Waiting?
      then s.(polls := s.polls[p := Answered(PollOf(s, p).seen, if error then FetchError else Garbled)])
      else s
    case Finish(p, newId, now) =>
      if PollOf(s, p).Answered? then
        var e := Emitted(s, p, newId, chat);
        var poll := PollOf(s, p);
        var busy := InFlight(s.log, s.active, ConversationOf(poll.seen, newId));
        e.(config := Save(s.config, ChangesAfter(s.log, poll.seen, poll.fetched, chat, busy, newId, now)),
           polls := s.polls[p := Idle])
      else s
    case SaveFails(p, newId) =>
      if PollOf(s, p).Answered? then Emitted(s, p, newId, chat).(polls := s.polls[p := Idle]) else s
    case PollDies(p) => s.(polls := s.polls[p := Idle])
    case CrashInFinish(p, newId) =>
      if PollOf(s, p).Answered? then Emitted(s, p, newId, chat).(polls := map[]) else s
    case Crash => s.(polls := map[])
    case Settings(enabled) => s.(config := Save(s.config, Changes(Some(enabled), None, None, None, None)))
    case OtherChat(conversation, text) =>
      if InFlight(s.log, s.active, conversation) then s
      else s.(log := s.log + [Chat(conversation, None, text)], waiting := s.waiting + {|s.log|})
    case Dispatched(i) => if i in s.waiting then s.(waiting := s.waiting - {i}, active := s.active + {i}) else s
    case Rejected(i) => s.(waiting := s.waiting - {i})
    case Completed(i) => s.(active := s.active - {i})
  }

  /** Telegram answers from the offset asked for, except that it has forgotten what a later
      request confirmed: updates at or below an offset saved meanwhile may be missing. */
  predicate MayStartAt(s: State, seen: Config, from: nat) {
    && From(s.remote, seen.lastUpdateId + 1) <= from <= |s.remote|
    && forall k :: From(s.remote, seen.lastUpdateId + 1) <= k < from ==> s.remote[k].id <= s.config.lastUpdateId
  }

  /** The log and the waiting requests once a poll has done its walk. */
  function Emitted(s: State, p: nat, newId: string, chat: string): State
    requires PollOf(s, p).Answered?
  {
    var poll := PollOf(s, p);
    var busy := InFlight(s.log, s.active, ConversationOf(poll.seen, newId));
    var log := LogAfter(s.log, poll.seen, poll.fetched, chat, busy, newId);
    s.(log := log, waiting := if |log| > |s.log| then s.waiting + {|s.log|} else s.waiting)
  }

  function RunSteps(s: State, steps: seq<Step>, chat: string): State {
    if steps == [] then s else Apply(RunSteps(s, steps[..|steps| - 1], chat), steps[|steps| - 1], chat)
  }

  const INIT := State([], Config(false, 0, "", 0, None), [], {}, {}, map[])

  // ----- The invariant -----

  ghost predicate IdsRise(remote: seq<Update>, i: int, j: int) {
    0 <= i < j < |remote| ==> remote[i].id < remote[j].id
  }

  ghost predicate Ascending(remote: seq<Update>) {
    (forall i :: 0 <= i < |remote| ==> remote[i].id > 0) && forall i, j :: IdsRise(remote, i, j)
  }

  /** The highest id queued so far. */
  function TopId(remote: seq<Update>): int {
    if remote == [] then 0 else remote[|remote| - 1].id
  }

  lemma {:induction false} BelowTop(remote: seq<Update>, k: nat)
    requires Ascending(remote) && k < |remote|
    ensures remote[k].id <= TopId(remote)
  {
    assert IdsRise(remote, k, |remote| - 1);
  }

  /** The ids of the eligible updates among the first `n`. */
  function EligibleIds(remote: seq<Update>, n: nat, chat: string): seq<nat>
    requires n <= |remote|
  {
    if n == 0 then []
    else if Eligible(remote[n - 1], chat) then EligibleIds(remote, n - 1, chat) + [remote[n - 1].id]
    else EligibleIds(remote, n - 1, chat)
  }

  /** Everything eligible at or below `last` has its chat. */
  ghost predicate CoveredTo(remote: seq<Update>, known: seq<nat>, chat: string, last: int) {
    forall i :: 0 <= i < |remote| && Eligible(remote[i], chat) && remote[i].id <= last ==> remote[i].id in known
  }

  /** The chats made so far are those of a prefix of the remote queue. */
  ghost predicate Prefix(remote: seq<Update>, known: seq<nat>, chat: string) {
    exists n: nat :: n <= |remote| && known == EligibleIds(remote, n, chat)
  }

  /** A stored answer is a stretch of the queue with nothing before it that is not yet saved. */
  ghost predicate GoodAnswer(remote: seq<Update>, seen: Config, f: Fetched, chat: string, saved: int) {
    f.Fetched? ==> exists i: nat, j: nat :: AnswerIs(remote, seen, f, chat, saved, i, j)
  }

  ghost predicate AnswerIs(remote: seq<Update>, seen: Config, f: Fetched, chat: string, saved: int, i: nat, j: nat) {
    && i <= j <= |remote|
    && (forall k :: 0 <= k < i ==> remote[k].id <= saved)
    && f == ToolAnswer(remote[i..j], seen.lastUpdateId + 1, chat)
  }

  ghost predicate GoodPoll(s: State, chat: string, p: nat) {
    match PollOf(s, p)
    case Idle => true
    case Waiting(seen) => 0 <= seen.lastUpdateId <= s.config.lastUpdateId
    case Answered(seen, f) =>
      0 <= seen.lastUpdateId <= s.config.lastUpdateId && GoodAnswer(s.remote, seen, f, chat, s.config.lastUpdateId)
  }

  ghost predicate Inv(s: State, chat: string) {
    && Ascending(s.remote)
    && 0 <= s.config.lastUpdateId <= TopId(s.remote)
    && Prefix(s.remote, Ids(s.log), chat)
    && CoveredTo(s.remote, Ids(s.log), chat, s.config.lastUpdateId)
    && forall p :: GoodPoll(s, chat, p)
  }

  // ----- Facts about the queue -----

  lemma {:induction false} EligibleIdsAre(remote: seq<Update>, n: nat, chat: string)
    requires n <= |remote| && Ascending(remote)
    ensures forall i :: 0 <= i < |remote| && Eligible(remote[i], chat) ==>
              (remote[i].id in EligibleIds(remote, n, chat) <==> i < n)
    ensures forall x :: x in EligibleIds(remote, n, chat) ==> exists i :: 0 <= i < n && remote[i].id == x
    ensures Distinct(EligibleIds(remote, n, chat))
  {
    if n > 0 {
      EligibleIdsAre(remote, n - 1, chat);
      forall i | 0 <= i < |remote| && i != n - 1 ensures remote[i].id != remote[n - 1].id {
        assert IdsRise(remote, i, n - 1) && IdsRise(remote, n - 1, i);
      }
      if Eligible(remote[n - 1], chat) {
        DistinctSnoc(EligibleIds(remote, n - 1, chat), remote[n - 1].id);
      }
    }
  }

  lemma {:induction false} EligibleIdsGrow(remote: seq<Update>, more: seq<Update>, n: nat, chat: string)
    requires n <= |remote|
    ensures EligibleIds(remote + more, n, chat) == EligibleIds(remote, n, chat)
  {
    if n > 0 {
      EligibleIdsGrow(remote, more, n - 1, chat);
    }
  }

  lemma {:induction false} NoneBetween(remote: seq<Update>, m: nat, t: nat, chat: string)
    requires m <= t <= |remote| && forall i :: m <= i < t ==> !Eligible(remote[i], chat)
    ensures EligibleIds(remote, t, chat) == EligibleIds(remote, m, chat)
  {
    if m < t {
      NoneBetween(remote, m, t - 1, chat);
    }
  }

  /** If all eligible updates below position `t` are known and the one at `t` is not, the
      known ones are exactly those below `t`. */
  lemma {:induction false} KnownBelow(remote: seq<Update>, known: seq<nat>, t: nat, chat: string)
    requires Ascending(remote) && Prefix(remote, known, chat) && t < |remote|
    requires forall i :: 0 <= i < t && Eligible(remote[i], chat) ==> remote[i].id in known
    requires Eligible(remote[t], chat) && remote[t].id !in known
    ensures known == EligibleIds(remote, t, chat)
  {
    var n: nat :| n <= |remote| && known == EligibleIds(remote, n, chat);
    EligibleIdsAre(remote, n, chat);
    assert n <= t;
    NoneBetween(remote, n, t, chat);
  }

  lemma {:induction false} MaxIdLast(remote: seq<Update>, i: nat, j: nat)
    requires i < j <= |remote| && Ascending(remote)
    ensures MaxId(remote[i..j]) == remote[j - 1].id
  {
    var raw := remote[i..j];
    assert raw[..|raw| - 1] == remote[i..j - 1];
    if i + 1 < j {
      MaxIdLast(remote, i, j - 1);
      assert IdsRise(remote, j - 2, j - 1);
    }
  }

  lemma {:induction false} FromIs(remote: seq<Update>, offset: int)
    requires Ascending(remote)
    ensures forall k :: 0 <= k < From(remote, offset) ==> remote[k].id < offset
  {
    if remote != [] {
      var last := |remote| - 1;
      if remote[last].id < offset {
        forall k | 0 <= k < last ensures remote[k].id < offset {
          assert IdsRise(remote, k, last);
        }
      } else {
        forall i, j ensures IdsRise(remote[..last], i, j) {
          assert IdsRise(remote, i, j);
        }
        FromIs(remote[..last], offset);
      }
    }
  }

  // ----- One walk -----

  lemma {:induction false} WalkAllowlisted(raw: seq<Update>, chat: string, known: seq<nat>, busy: bool, last: int)
    ensures Walk(Allowlisted(raw, chat), chat, known, busy, last) == Walk(raw, chat, known, busy, last)
  {
    if raw != [] {
      var rest := Allowlisted(raw[1..], chat);
      assert ([raw[0]] + rest)[1..] == rest;
      WalkAllowlisted(raw[1..], chat, known, busy, last);
      WalkAllowlisted(raw[1..], chat, known, busy, Max(last, raw[0].id));
    }
  }

  /** What the walk over positions `k` to `j` of the queue finds: `t` is where it emits. */
  lemma {:induction false} WalkOverQueue(remote: seq<Update>, known: seq<nat>, chat: string, busy: bool, last: int,
                                         k: nat, j: nat) returns (t: nat)
    requires Ascending(remote) && k <= j <= |remote|
    requires forall i :: 0 <= i < k && Eligible(remote[i], chat) ==> remote[i].id in known
    requires CoveredTo(remote, known, chat, last)
    ensures var w := Walk(remote[k..j], chat, known, busy, last);
            && (w.emitted.None? ==> CoveredTo(remote, known, chat, w.last))
            && (!w.stalled ==> w.emitted.None? && forall i :: 0 <= i < j && Eligible(remote[i], chat) ==>
                  remote[i].id in known)
            && (w.emitted.Some? ==>
                  && !busy && t < j && remote[t] == w.emitted.value && Eligible(remote[t], chat)
                  && remote[t].id !in known
                  && (forall i :: 0 <= i < t && Eligible(remote[i], chat) ==> remote[i].id in known)
                  && CoveredTo(remote, known + [remote[t].id], chat, w.last))
            && w.last <= Max(last, TopId(remote))
    decreases j - k
  {
    t := k;
    if k < j {
      BelowTop(remote, k);
      assert remote[k..j][0] == remote[k] && remote[k..j][1..] == remote[k + 1..j];
      if !Eligible(remote[k], chat) {
        t := WalkOverQueue(remote, known, chat, busy, last, k + 1, j);
      } else if remote[k].id in known {
        CoveredAt(remote, known, chat, last, k);
        t := WalkOverQueue(remote, known, chat, busy, Max(last, remote[k].id), k + 1, j);
      } else if !busy {
        CoveredAt(remote, known + [remote[k].id], chat, last, k);
      }
    }
  }

  lemma {:induction false} CoveredAt(remote: seq<Update>, known: seq<nat>, chat: string, last: int, k: nat)
    requires Ascending(remote) && k < |remote| && CoveredTo(remote, known, chat, last)
    requires forall i :: 0 <= i <= k && Eligible(remote[i], chat) ==> remote[i].id in known
    ensures CoveredTo(remote, known, chat, Max(last, remote[k].id))
  {
    forall i | 0 <= i < |remote| && Eligible(remote[i], chat) && remote[i].id <= Max(last, remote[k].id)
      ensures remote[i].id in known
    {
      assert IdsRise(remote, k, i);
    }
  }

  ghost predicate Progress(remote: seq<Update>, known: seq<nat>, chat: string, last: int) {
    Prefix(remote, known, chat) && CoveredTo(remote, known, chat, last)
  }

  /** The walk over an answer adds at most the next missing update, and what it passed or
      was told about is covered. */
  lemma {:induction false} AnswerEffect(remote: seq<Update>, known: seq<nat>, chat: string, busy: bool, last: int,
                                        saved: int, i: nat, j: nat)
    requires Ascending(remote) && Progress(remote, known, chat, saved)
    requires 0 <= last <= saved <= TopId(remote) && i <= j <= |remote|
    requires forall k :: 0 <= k < i ==> remote[k].id <= saved
    ensures var w := Walk(remote[i..j], chat, known, busy, last);
            var known' := if w.emitted.Some? then known + [w.emitted.value.id] else known;
            var reached := Reached(w, Some(if i < j then MaxId(remote[i..j]) + 1 else last + 1));
            && Progress(remote, known', chat, saved) && Progress(remote, known', chat, reached)
            && reached <= TopId(remote)
  {
    var t := WalkOverQueue(remote, known, chat, busy, last, i, j);
    var w := Walk(remote[i..j], chat, known, busy, last);
    if w.emitted.Some? {
      PrefixGrows(remote, known, t, chat);
    } else if !w.stalled && i < j {
      MaxIdLast(remote, i, j);
      BelowTop(remote, j - 1);
      CoveredAt(remote, known, chat, w.last, j - 1);
    }
  }

  /** A whole poll, read from the settings it started with. */
  lemma {:induction false} PollEffect(remote: seq<Update>, log: seq<Chat>, chat: string, seen: Config, f: Fetched,
                                      busy: bool, newId: string, saved: int)
    requires Ascending(remote) && Progress(remote, Ids(log), chat, saved)
    requires 0 <= seen.lastUpdateId <= saved <= TopId(remote) && GoodAnswer(remote, seen, f, chat, saved)
    ensures var reached := Reached(WalkOf(log, seen, f, chat, busy), NextOffset(f));
            var known := Ids(LogAfter(log, seen, f, chat, busy, newId));
            && Progress(remote, known, chat, saved)
            && (f.FetchError? || Progress(remote, known, chat, reached)) && reached <= TopId(remote)
  {
    if f.Fetched? {
      WalkEffect(remote, log, chat, seen, f, busy, saved);
    }
  }

  lemma {:induction false} WalkEffect(remote: seq<Update>, log: seq<Chat>, chat: string, seen: Config, f: Fetched,
                                      busy: bool, saved: int)
    requires Ascending(remote) && Progress(remote, Ids(log), chat, saved) && f.Fetched?
    requires 0 <= seen.lastUpdateId <= saved <= TopId(remote) && GoodAnswer(remote, seen, f, chat, saved)
    ensures var w := WalkOf(log, seen, f, chat, busy);
            var known := if w.emitted.Some? then Ids(log) + [w.emitted.value.id] else Ids(log);
            var reached := Reached(w, NextOffset(f));
            && Progress(remote, known, chat, saved) && Progress(remote, known, chat, reached)
            && reached <= TopId(remote)
  {
    var i: nat, j: nat :| AnswerIs(remote, seen, f, chat, saved, i, j);
    WalkAllowlisted(remote[i..j], chat, Ids(log), busy, seen.lastUpdateId);
    AnswerEffect(remote, Ids(log), chat, busy, seen.lastUpdateId, saved, i, j);
  }

  lemma {:induction false} PrefixGrows(remote: seq<Update>, known: seq<nat>, t: nat, chat: string)
    requires Ascending(remote) && Prefix(remote, known, chat) && t < |remote|
    requires forall i :: 0 <= i < t && Eligible(remote[i], chat) ==> remote[i].id in known
    requires Eligible(remote[t], chat) && remote[t].id !in known
    ensures Prefix(remote, known + [remote[t].id], chat)
  {
    KnownBelow(remote, known, t, chat);
    assert known + [remote[t].id] == EligibleIds(remote, t + 1, chat);
  }

  // ----- Steps -----

  lemma {:induction false} ArriveProgress(remote: seq<Update>, known: seq<nat>, u: Update, chat: string, last: int)
    requires Ascending(remote) && Progress(remote, known, chat, last) && last <= TopId(remote) < u.id
    ensures Ascending(remote + [u]) && Progress(remote + [u], known, chat, last)
  {
    forall i, j ensures IdsRise(remote + [u], i, j) {
      assert IdsRise(remote, i, j);
      assert IdsRise(remote, i, |remote| - 1);
    }
    var n: nat :| n <= |remote| && known == EligibleIds(remote, n, chat);
    EligibleIdsGrow(remote, [u], n, chat);
    assert n <= |remote + [u]|;
  }

  lemma {:induction false} ArriveAnswer(remote: seq<Update>, u: Update, seen: Config, f: Fetched, chat: string,
                                        saved: int)
    requires GoodAnswer(remote, seen, f, chat, saved)
    ensures GoodAnswer(remote + [u], seen, f, chat, saved)
  {
    if f.Fetched? {
      var i: nat, j: nat :| AnswerIs(remote, seen, f, chat, saved, i, j);
      assert (remote + [u])[i..j] == remote[i..j];
      assert AnswerIs(remote + [u], seen, f, chat, saved, i, j);
    }
  }

  lemma {:induction false} ArriveKeeps(s: State, u: Update, chat: string)
    requires Inv(s, chat)
    ensures Inv(Apply(s, Arrive(u), chat), chat)
  {
    var s' := Apply(s, Arrive(u), chat);
    if s'.remote == s.remote + [u] && TopId(s.remote) < u.id {
      ArriveProgress(s.remote, Ids(s.log), u, chat, s.config.lastUpdateId);
      forall p ensures GoodPoll(s', chat, p) {
        assert GoodPoll(s, chat, p);
        if PollOf(s, p).Answered? {
          ArriveAnswer(s.remote, u, PollOf(s, p).seen, PollOf(s, p).fetched, chat, s.config.lastUpdateId);
        }
      }
    }
  }

  lemma {:induction false} AnswerKeeps(s: State, p: nat, from: nat, upTo: nat, chat: string)
    requires Inv(s, chat)
    ensures Inv(Apply(s, Answer(p, from, upTo), chat), chat)
  {
    var s' := Apply(s, Answer(p, from, upTo), chat);
    assert GoodPoll(s, chat, p);
    if PollOf(s, p).Waiting? {
      var seen := PollOf(s, p).seen;
      FromIs(s.remote, seen.lastUpdateId + 1);
      if MayStartAt(s, seen, from) && from <= upTo <= |s.remote| {
        assert AnswerIs(s.remote, seen, ToolAnswer(s.remote[from..upTo], seen.lastUpdateId + 1, chat), chat,
                        s.config.lastUpdateId, from, upTo);
      }
    }
    forall q ensures GoodPoll(s', chat, q) {
      assert GoodPoll(s, chat, q);
    }
  }

  /** Replacing one poll, or dropping some, while the stored offset only grows. */
  lemma {:induction false} PollsKeep(s: State, s': State, chat: string)
    requires Inv(s, chat) && s'.remote == s.remote && s'.config.lastUpdateId >= s.config.lastUpdateId
    requires forall p :: PollOf(s', p) == PollOf(s, p) || PollOf(s', p).Idle? || GoodPoll(s', chat, p)
    ensures forall p :: GoodPoll(s', chat, p)
  {
    forall p ensures GoodPoll(s', chat, p) {
      assert GoodPoll(s, chat, p);
      if PollOf(s', p).Answered? && PollOf(s', p) == PollOf(s, p) {
        AnswerLater(s.remote, PollOf(s, p).seen, PollOf(s, p).fetched, chat, s.config.lastUpdateId,
                    s'.config.lastUpdateId);
      }
    }
  }

  lemma {:induction false} AnswerLater(remote: seq<Update>, seen: Config, f: Fetched, chat: string, saved: int,
                                       later: int)
    requires GoodAnswer(remote, seen, f, chat, saved) && saved <= later
    ensures GoodAnswer(remote, seen, f, chat, later)
  {
    if f.Fetched? {
      var i: nat, j: nat :| AnswerIs(remote, seen, f, chat, saved, i, j);
      assert AnswerIs(remote, seen, f, chat, later, i, j);
    }
  }

  lemma {:induction false} EmittedKeeps(s: State, p: nat, newId: string, chat: string)
    requires Inv(s, chat) && PollOf(s, p).Answered?
    ensures Progress(s.remote, Ids(Emitted(s, p, newId, chat).log), chat, s.config.lastUpdateId)
  {
    assert GoodPoll(s, chat, p);
    var poll := PollOf(s, p);
    PollEffect(s.remote, s.log, chat, poll.seen, poll.fetched,
               InFlight(s.log, s.active, ConversationOf(poll.seen, newId)), newId, s.config.lastUpdateId);
  }

  lemma {:induction false} CrashInFinishKeeps(s: State, p: nat, newId: string, chat: string)
    requires Inv(s, chat)
    ensures Inv(Apply(s, CrashInFinish(p, newId), chat), chat)
  {
    if PollOf(s, p).Answered? {
      EmittedKeeps(s, p, newId, chat);
      PollsKeep(s, Apply(s, CrashInFinish(p, newId), chat), chat);
    }
  }

  lemma {:induction false} SaveFailsKeeps(s: State, p: nat, newId: string, chat: string)
    requires Inv(s, chat)
    ensures Inv(Apply(s, SaveFails(p, newId), chat), chat)
  {
    if PollOf(s, p).Answered? {
      EmittedKeeps(s, p, newId, chat);
      PollsKeep(s, Apply(s, SaveFails(p, newId), chat), chat);
    }
  }

  lemma {:induction false} FinishKeeps(s: State, p: nat, newId: string, now: int, chat: string)
    requires Inv(s, chat)
    ensures Inv(Apply(s, Finish(p, newId, now), chat), chat)
  {
    if PollOf(s, p).Answered? {
      assert GoodPoll(s, chat, p);
      var poll := PollOf(s, p);
      PollEffect(s.remote, s.log, chat, poll.seen, poll.fetched,
                 InFlight(s.log, s.active, ConversationOf(poll.seen, newId)), newId, s.config.lastUpdateId);
      EmittedKeeps(s, p, newId, chat);
      PollsKeep(s, Apply(s, Finish(p, newId, now), chat), chat);
    }
  }

  lemma {:induction false} OtherChatKeeps(s: State, conversation: string, text: string, chat: string)
    requires Inv(s, chat)
    ensures Inv(Apply(s, OtherChat(conversation, text), chat), chat)
  {
    PollsKeep(s, Apply(s, OtherChat(conversation, text), chat), chat);
  }

  lemma {:induction false} BeginKeeps(s: State, p: nat, now: int, chat: string)
    requires Inv(s, chat)
    ensures Inv(Apply(s, Begin(p, now), chat), chat)
  {
    PollsKeep(s, Apply(s, Begin(p, now), chat), chat);
  }

  lemma {:induction false} AnswerBadlyKeeps(s: State, p: nat, error: bool, chat: string)
    requires Inv(s, chat)
    ensures Inv(Apply(s, AnswerBadly(p, error), chat), chat)
  {
    assert GoodPoll(s, chat, p);
    PollsKeep(s, Apply(s, AnswerBadly(p, error), chat), chat);
  }

  lemma {:induction false} StepKeeps(s: State, step: Step, chat: string)
    requires Inv(s, chat)
    ensures Inv(Apply(s, step, chat), chat)
  {
    match step
    case Arrive(u) => ArriveKeeps(s, u, chat);
    case Answer(p, from, upTo) => AnswerKeeps(s, p, from, upTo, chat);
    case Finish(p, newId, now) => FinishKeeps(s, p, newId, now, chat);
    case SaveFails(p, newId) => SaveFailsKeeps(s, p, newId, chat);
    case PollDies(p) => PollsKeep(s, Apply(s, step, chat), chat);
    case CrashInFinish(p, newId) => CrashInFinishKeeps(s, p, newId, chat);
    case OtherChat(conversation, text) => OtherChatKeeps(s, conversation, text, chat);
    case Begin(p, now) => BeginKeeps(s, p, now, chat);
    case AnswerBadly(p, error) => AnswerBadlyKeeps(s, p, error, chat);
    case Crash => PollsKeep(s, Apply(s, step, chat), chat);
    case Settings(enabled) => PollsKeep(s, Apply(s, step, chat), chat);
    case Dispatched(i) => PollsKeep(s, Apply(s, step, chat), chat);
    case Rejected(i) => PollsKeep(s, Apply(s, step, chat), chat);
    case Completed(i) => PollsKeep(s, Apply(s, step, chat), chat);
  }

  lemma {:induction false} RunKeeps(steps: seq<Step>, chat: string)
    ensures Inv(RunSteps(INIT, steps, chat), chat)
  {
    if steps == [] {
      assert Ids(INIT.log) == EligibleIds(INIT.remote, 0, chat);
    } else {
      RunKeeps(steps[..|steps| - 1], chat);
      StepKeeps(RunSteps(INIT, steps[..|steps| - 1], chat), steps[|steps| - 1], chat);
    }
  }

  /** Over every run, with polls interleaved at will and dying anywhere: the chats made
      are the eligible updates of a prefix of the queue, each once and in id order, and no
      eligible update at or below the saved offset is without its chat. */
  lemma {:induction false} ExactlyOnce(steps: seq<Step>, chat: string)
    ensures var s := RunSteps(INIT, steps, chat);
            && Distinct(Ids(s.log))
            && Prefix(s.remote, Ids(s.log), chat)
            && CoveredTo(s.remote, Ids(s.log), chat, s.config.lastUpdateId)
            && 0 <= s.config.lastUpdateId <= TopId(s.remote)
  {
    RunKeeps(steps, chat);
    var s := RunSteps(INIT, steps, chat);
    var n: nat :| n <= |s.remote| && Ids(s.log) == EligibleIds(s.remote, n, chat);
    EligibleIdsAre(s.remote, n, chat);
  }
}
