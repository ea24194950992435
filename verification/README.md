# Protocol and log proofs

Dafny models of the parts of the assistant's backend and web client whose promises reach over whole
runs: rewriting the event log, reading Telegram updates, limiting requests, streaming a chat,
checking the migration chain, keeping the inbox in step, handing out WebSocket slots, watching
pages, packing the prompt. Code that changes state step by step is a class or a looping method,
proved against a function; the theorems are about that function over every input, every run or
every reachable state.

`dafny verify dfyconfig.toml` checks everything. No proof rests on automatic induction: every lemma
switches it off and makes its recursive calls itself.

| Modules | What they are about |
|---|---|
| `PolicyLog`, `PolicyMeaning`, `Compaction`, `PolicyTable`, `CompactionShape`, `CompactionIds`, `CompactionCauses`, `Compactor` | the policy event compactor: what replay and the live projector make of its output, where rows stand, unique ids, causes that still resolve, idempotence, the three-pass script |
| `TelegramGateway`, `TelegramProtocol`, `TelegramProgress`, `TelegramInFlight` | the poll as atomic steps with one suspension point, interleaved polls that die anywhere, what each poll delivers, and when chats run one at a time |
| `SlidingWindow`, `RateLimit`, `RateLimiter`, `RateLimitRuns`, `RateLimitCallers`, `RateLimitTable` | the limiter against one that remembers every admission; eviction, Retry-After, whole runs of the mutable limiter, callers kept apart, the shipped table |
| `SseText`, `SseClient`, `SseTheorems`, `SseOutcome`, `SseServer`, `SseFrames`, `SseContent`, `SseQueue` | line splitting over arbitrary chunks, the client's callbacks and how a session ends, the producer's frames and what they show, the bounded queue, end to end, and whose text arrives how often |
| `RevisionChain` | the linear-chain check over migration files |
| `InboxSync`, `Inbox`, `InboxPayload`, `InboxRuns`, `InboxLimits` | the two-phase unread sync and at-most-once recording, over every run of polls, and runs that go past the query limits |
| `WebSocketSlots` | slots, registry and burst limiter under every interleaving |
| `UrlMonitors`, `UrlMonitorEdits`, `UrlMonitorRuns`, `UrlMonitorTurns`, `UrlMonitorQueue` | page monitors: edits and rounds row by row, alerts over every history, the cap of ten, who is sure of a turn |
| `PayloadSize` | the early-exit size walk |
| `Truncation`, `ContextAssembly` | cutting a text to a token cap, and greedy packing into the token budget |
| `Common`, `PyText`, `StableSort` | shared vocabulary: options, distinctness, `str.strip`, `sorted` |

## Where the code is narrower than its description

Each of these is a theorem, with the exact condition or a concrete input.

- Compaction is described as leaving the projections unchanged. A rebuilt policy row loses its
  times unless the last creation and the last event carry the first event's time, and the
  compactor's replay and the live projector disagree on updates without a risk level or without a
  preceding PolicyCreated. `PolicyTable.ProjectionPreservedIff` is the exact condition for the whole
  row. Logs that capability governance writes keep capability, risk and status
  (`PolicyTable.GovernanceLogPreserved`), yet an ordinary revoke loses its time
  (`PolicyTable.RevokeTimeLost`), and `PolicyTable.ProjectionCanChange` loses a risk level.
- `conversation_chat_in_flight` looks for executions of a conversation's ten oldest requests. A
  request has none until a later task dispatches it, so two requests made before that run at once
  (`TelegramInFlight.TwoRequestsOverlap`). Up to eleven requests, no two are ever open exactly when
  none was admitted between another's emission and its dispatch
  (`TelegramInFlight.OneChatAtATimeIff`); the twelfth can run beside the eleventh all the same
  (`TelegramInFlight.TwelfthOverlaps`).
- The unread sync looks at the 5000 newest pending and the 500 newest read rows, counting those its
  first phase has just marked. `InboxSync.SyncConvergesIff` says from the table alone, for any dates,
  when that is sure to be enough; `InboxLimits.WrongStaysRead` is a table for which it is not.
- At-most-once recording is sure exactly while no poll brings stored mail with 5000 others at least
  as new (`InboxRuns.RecordedTwiceIff`). Unread ids come without dates and share the time of their
  poll, so the same unread index of more than 5000 ids, polled twice, always goes past it
  (`InboxLimits.RecordedTwice`).
- A truncated fragment can exceed its cap by the mark appended after the search. With the fallback
  estimate it does exactly when the last character that fits is neither blank nor the mark
  (`Truncation.TruncateExceedsIff`).
- Monitors that do not fit into a tick "wait for the next tick". Whatever the spacing of the ticks,
  they are sure of a turn exactly behind fewer than three usable monitors
  (`UrlMonitorTurns.SureIff`): after a sleep the same three are due at every tick. When each tick
  comes less than half an hour after the visits of the one before, the bound is six
  (`UrlMonitorTurns.ServedIff`), and the seventh of seven can still wait for ever.
- The generator would send a completion's text again if it found the completion in the log and no
  final item on the queue (`SseContent.TextOnceIff`). The worker's last step leaves nothing between
  the two, so on every run of the program the caller reads the streamed text once
  (`SseQueue.NothingResent`, `SseQueue.CallerReads`).
- Compaction gives policy events new ids, so rows caused by them can name a cause that is gone;
  `CompactionCauses.CauseFoundIff` says which.
- A change back to a digest that was announced before stays silent; the alerts are the first
  occurrences of changes (`UrlMonitorRuns.AlertsAreChanges`).

## Model

| member | source | states |
|---|---|---|
| PolicyLog.ReplayPolicy | backend/scripts/compact_policy_events.py:54-82 | the event loop, with its mutable state, computes the replay the theorems below speak of |
| PolicyMeaning.ReplayIs | backend/scripts/compact_policy_events.py:54-82 | replay takes the capability from the last creation (else the first event), and status and risk from the last event behind it that sets them, else from that event |
| Compaction.ReplayBlock | backend/scripts/compact_policy_events.py:85-134 | those rows replay, and project, to the state they were made from, the status reduced to active or revoked |
| CompactionIds.BlockFields | backend/scripts/compact_policy_events.py:85-134 | every field of the synthetic rows, the aggregate type "policy" among them |
| PolicyMeaning.PolicyRowsTyped | backend/scripts/compact_policy_events.py:104-126 | every policy row of a compacted log carries the aggregate type "policy", whatever the log it was made from says |
| Compaction.CompactEvents | backend/scripts/compact_policy_events.py:153-197 | whatever aggregates are interleaved, an aggregate is left with exactly its block |
| Compaction.ReplayPreserved | backend/scripts/compact_policy_events.py:54-197 | a kept aggregate replays to the same capability and risk, and to the same state exactly when it ended active or revoked; one without capability has no rows left |
| PolicyMeaning.DroppedIff | backend/scripts/compact_policy_events.py:153-159 | an aggregate is left without rows exactly when it had none or its base event names no capability |
| PolicyTable.ProjectVersusReplay | backend/app/core/runtime/kernel/projectors_governance.py:31-74 | the columns capability, risk and status against the replay, on any policy events: when the row exists, and when the risk differs |
| PolicyTable.ColumnsPreservedIff | backend/scripts/compact_policy_events.py:137-197 | an aggregate's capability, risk and status are rebuilt unchanged exactly when a guard on its events holds |
| PolicyTable.RowTimes | backend/app/core/runtime/kernel/projectors_governance.py:31-74 | a row's created_at is the time of the last PolicyCreated, its updated_at that of the last event |
| PolicyTable.RebuiltIsLive | backend/app/core/runtime/kernel/sovereignty_ops.py:220-241 | a rebuild, which reads rows of type "policy" only, misses nothing in a compacted log, nor in a log whose policy events carry that type |
| PolicyTable.ProjectionPreservedIff | backend/scripts/compact_policy_events.py:137-197 | the whole row, times included, is rebuilt unchanged from the rows of type "policy" of the compacted log exactly when that guard holds and the last creation and the last event carry the first event's time |
| PolicyTable.WellWrittenSafe | backend/app/core/runtime/capability_governance.py:101-140 | events as governance writes them meet the guard on the three columns |
| PolicyTable.GovernanceLogPreserved | backend/app/core/runtime/capability_governance.py:101-140 | on logs the runtime writes, capability, risk and status agree with the replay and survive compaction and a rebuild by type; the times survive exactly under the guard on times |
| PolicyTable.ProjectionCanChange | backend/scripts/compact_policy_events.py:70-73 | a reactivation without risk level: the projection says low, the compacted log brings high back |
| PolicyTable.RevokeTimeLost | backend/scripts/compact_policy_events.py:161-166 | an ordinary revoke: the rebuilt row says it was last touched when it was created |
| CompactionCauses.CompactIds | backend/scripts/compact_policy_events.py:99-120 | the ids of a compacted log are exactly those of the other rows and those given to synthetic rows |
| CompactionCauses.CauseFoundIff | backend/scripts/compact_policy_events.py:194-197 | a surviving row still finds its cause exactly when that is no policy event, or bears an id given out again |
| CompactionCauses.MadeCauses | backend/scripts/compact_policy_events.py:112-130 | a synthetic creation keeps the first event's cause, found under the same condition; a synthetic revoke always finds its creation |
| CompactionCauses.CauseLost | backend/scripts/compact_policy_events.py:99-103 | an event caused by a creation: its cause names nothing after compaction |
| CompactionIds.SyntheticApart | backend/scripts/compact_policy_events.py:99-120 | a synthetic id tells its aggregate apart from every other |
| CompactionIds.IdsStayUnique | backend/app/store/schema_ddl.py:192 | unique event ids stay unique, whichever aggregates get synthetic rows |
| CompactionShape.NonPolicyPreserved | backend/scripts/compact_policy_events.py:194-197 | non-policy rows survive once each, in order, changed only in number |
| CompactionShape.BlockPosition | backend/scripts/compact_policy_events.py:180-193 | an aggregate's rows stand together where its first policy event stood, behind the same other rows, and nowhere else |
| CompactionShape.TimeOrderPreserved | backend/scripts/compact_policy_events.py:161-170 | a log in time order stays in time order |
| CompactionShape.CountPartition | backend/scripts/compact_policy_events.py:143-151 | every row is a policy row of exactly one aggregate or none |
| CompactionShape.AggregateGrowsIff | backend/scripts/compact_policy_events.py:76-81 | an aggregate ends with more rows than it had exactly when it was one lone revoke with a capability |
| CompactionShape.CompactLength | backend/scripts/compact_policy_events.py:202-210 | the length is the other rows plus the kept policy rows, and never grows when every aggregate begins with PolicyCreated |
| CompactionShape.PlanStable | backend/scripts/compact_policy_events.py:153-172 | compaction plans the same blocks for its own output |
| CompactionShape.CompactIdempotent | backend/scripts/compact_policy_events.py:137-197 | compacting twice is compacting once: every row, id, actor, time and cause |
| Compactor.GroupRows | backend/scripts/compact_policy_events.py:143-149 | the grouping holds each aggregate's rows in order, and the rest apart |
| Compactor.SortedEvents | backend/scripts/compact_policy_events.py:156 | sorting one aggregate's rows is taking its rows out of the sorted log |
| Compactor.FirstsDiffer | backend/scripts/compact_policy_events.py:171 | no two aggregates file their rows under the same number |
| Compactor.PlanReplacements | backend/scripts/compact_policy_events.py:153-172 | the replacement map holds each kept aggregate's block at its first event's number and nothing else; kept_policy is their total |
| Compactor.AppendBlock | backend/scripts/compact_policy_events.py:187-191 | a block is appended with consecutive numbers |
| Compactor.RewriteLog | backend/scripts/compact_policy_events.py:174-200 | the pass with skip set and replacement map computes the compacted log, numbered 1..n without gaps |
| Compactor.PlanCompaction | backend/scripts/compact_policy_events.py:137-211 | rows in any order: the output is the compaction of the log in sequence order, and every statistic is right |
| Compactor.OneOrder | backend/scripts/compact_policy_events.py:177 | there is one such order, so the output depends on the rows alone |
| Compactor.Totals | backend/scripts/compact_policy_events.py:202-210 | what the counters add up to |
| TelegramGateway.Gateway.SaveConfig | backend/app/product/telegram_gateway.py:67-94 | every field named has its new value and every other its old one; the offset is the highest of what was stored, what was named and 0 |
| TelegramGateway.Gateway.FinishPoll | backend/app/product/telegram_gateway.py:155-233 | behind the suspension point: the first new update becomes the one chat added, in the stored conversation (else the new one) with the stripped text, unless the conversation is busy; the offset, failures and wait saved, on success, failure and unreadable answers |
| TelegramGateway.WalkEmits | backend/app/product/telegram_gateway.py:186-221 | the walk stops at the first new update, if there is one, and emits exactly that one unless the conversation is busy |
| TelegramGateway.PollMeans | backend/app/product/telegram_gateway.py:155-233 | the functions the run theorems are about do just what FinishPoll promises |
| TelegramGateway.BackoffBounded | backend/app/product/telegram_gateway.py:158-159 | the delay never shrinks, starts at a minute and reaches fifteen at the fifth failure in a row |
| TelegramProtocol.WalkAllowlisted | backend/app/core/harness/builtin_tools/telegram_bot.py:108-112 | dropping foreign chats in the tool changes nothing the walk does |
| TelegramProtocol.WalkOverQueue | backend/app/product/telegram_gateway.py:186-221 | what the walk over a stretch of the queue passes, emits and covers |
| TelegramProtocol.KnownBelow | backend/app/product/telegram_gateway.py:192-199 | if everything eligible below an update is known and it is not, the known ones are exactly those below |
| TelegramProtocol.PollEffect | backend/app/product/telegram_gateway.py:146-233 | a poll working from settings that may be out of date, on an answer from which confirmed updates may be missing, adds at most the next missing update and covers what it saves |
| TelegramProtocol.StepKeeps | backend/app/product/telegram_gateway.py:134-233 | every step of any poll keeps the invariant: also one poll cancelled, a save that raises, the process dying anywhere, a settings change, another client |
| TelegramProtocol.ExactlyOnce | backend/app/product/telegram_gateway.py:134-233 | over every run: chats are the eligible updates of a prefix of the queue, each once, in order, and none at or below the saved offset lacks one |
| TelegramProgress.FinishDelivers | backend/app/product/telegram_gateway.py:186-221 | in every reachable state, whatever other polls are doing: a poll whose answer holds a missing update adds the chat of the first missing update of the whole queue, and nothing while the conversation is in flight or if nothing is missing |
| TelegramProgress.PollDelivers | backend/app/product/telegram_gateway.py:134-233 | from every reachable state a whole poll delivers the first missing update exactly when the gateway is on, no wait is running, the answer reaches that far and the conversation is idle; the prefix of requested updates then grows by one |
| TelegramProgress.PollAdvances | backend/app/product/telegram_gateway.py:222-224 | a poll that received nothing missing moves the offset behind all it received |
| TelegramProgress.CanCatchUp | backend/app/product/telegram_gateway.py:134-233 | no run leads into a dead end: whatever has failed, and however few updates an answer may hold, some continuation leaves every eligible update with its chat |
| TelegramInFlight.InFlightTrustworthyIff | backend/app/core/runtime/read_ports/events.py:369-391 | whatever is running, the test tells whether a request of the conversation is open exactly when it has at most ten requests and none waits to be dispatched |
| TelegramInFlight.StepOneOpen | backend/app/core/runtime/kernel/event_dispatch.py:217-249 | one step leaves at most one request open exactly when it does not admit one while another waits for its execution row |
| TelegramInFlight.OneChatAtATimeIff | backend/app/core/runtime/kernel/event_dispatch.py:217-249 | over every run with at most eleven requests in the conversation: at most one is ever open exactly when none was admitted between another's emission and its dispatch |
| TelegramInFlight.OneChatAtATime | backend/app/core/runtime/read_ports/events.py:369-391 | and then at most one ever runs |
| TelegramInFlight.OpenCanRun | backend/app/core/runtime/agent_scheduler.py:825-835 | two open requests need only be dispatched to run at once |
| TelegramInFlight.TwoRequestsOverlap | backend/app/core/runtime/kernel/event_dispatch.py:217-226 | a run in which two requests made before the first is dispatched run at once |
| TelegramInFlight.TwelfthOverlaps | backend/app/core/runtime/read_ports/events.py:379 | a run in which every request is dispatched at once, and the twelfth is admitted beside the eleventh |
| SlidingWindow.PruneLoop | backend/app/core/rate_limit.py:100-103 | the pop loop drops exactly the expired front |
| SlidingWindow.PruneSplits | backend/app/core/rate_limit.py:100-103 | of a sorted bucket exactly the times before the cutoff go |
| SlidingWindow.PruneForgets | backend/app/core/rate_limit.py:100-103 | forgetting what has expired is invisible to every later cutoff |
| SlidingWindow.AdmitSpaced | backend/app/core/rate_limit.py:151-159 | admitting below the quota keeps every n+1 admissions further apart than the window |
| SlidingWindow.WindowBound | backend/app/core/rate_limit.py:100-103 | a spaced history has at most n times in any closed interval as long as the window |
| SlidingWindow.LiveBound | backend/app/core/rate_limit.py:151-152 | so a bucket never holds more than its quota |
| RateLimit.MatchesSegments | backend/app/core/rate_limit.py:83-97 | a pattern matches whole path segments only, an exact one only itself |
| RateLimit.FindRuleFirst | backend/app/core/rate_limit.py:143-145 | the rule applied is the first that matches, none exactly when none does |
| RateLimit.KeyInvForgets | backend/app/core/rate_limit.py:124-130 | a bucket idle for 300 seconds may go: all it holds has expired for its rule |
| RateLimit.StepRefines | backend/app/core/rate_limit.py:141-161 | one check decides as the limiter that remembers every admission, Retry-After included |
| RateLimit.RunRefines | backend/app/core/rate_limit.py:141-161 | so does every run under a clock that does not go back |
| RateLimit.EvictionUnobservable | backend/app/core/rate_limit.py:121-130 | answers with the first eviction pass, without it, and with full memory are the same |
| RateLimit.HistoryIsAdmissions | backend/app/core/rate_limit.py:159-160 | the reference history is exactly the admissions read off the answers |
| RateLimit.WindowSafety | backend/app/core/rate_limit.py:47-72 | any closed window-long interval holds at most max_requests admissions per caller and bucket, over all paths that share it |
| RateLimiter.RetryAfterHistory | backend/app/core/rate_limit.py:106-111 | Retry-After lies between one second and the window, is long enough, and not too long by a whole second |
| RateLimiter.RetryAfterHonest | backend/app/core/rate_limit.py:150-159 | over any run in which the bucket admits nobody else, a caller who waits as told is let through |
| RateLimiter.Limiter.EvictStaleBuckets | backend/app/core/rate_limit.py:114-138 | both passes: the map is within its cap afterwards, survivors are untouched, none that stays was seen before one that goes |
| RateLimiter.Limiter.EvictOldest | backend/app/core/rate_limit.py:132-138 | the quarter seen longest ago goes |
| RateLimiter.Limiter.CheckRule | backend/app/core/rate_limit.py:146-160 | one check under a rule on the mutable map; `RateLimitCallers` says what that comes to over a run |
| RateLimiter.Limiter.CheckRateLimit | backend/app/core/rate_limit.py:141-161 | first matching rule decides, the new map is the specified one, never more than 10001 buckets |
| RateLimitRuns.CalmRun | backend/app/core/rate_limit.py:131-161 | over any run in which the second pass stays idle, the mutable limiter answers as the function the guarantees are about |
| RateLimitRuns.LimiterForgetsNothing | backend/app/core/rate_limit.py:114-161 | so it answers as the limiter that remembers every admission |
| RateLimitRuns.LimiterWindowSafety | backend/app/core/rate_limit.py:141-161 | and admits at most max_requests per bucket in any closed window |
| RateLimitCallers.RuleForIs | backend/app/core/rate_limit.py:83-97 | the rule that applies, said of the table and the path |
| RateLimitCallers.AnswerIs | backend/app/core/rate_limit.py:141-161 | over every run a request is allowed exactly when no rule covers its path or fewer than max_requests of the caller's own requests were admitted within the window, over the rules with the same bucket id or pattern |
| RateLimitCallers.CallersApart | backend/app/core/rate_limit.py:146 | over every run a caller is answered as if no other caller had made a request |
| RateLimitCallers.LimiterAnswerIs | backend/app/core/rate_limit.py:141-161 | the same count decides every answer of the mutable limiter in a run in which the second pass stays idle |
| RateLimitCallers.LimiterCallersApart | backend/app/core/rate_limit.py:146 | and its callers are kept apart |
| RateLimitCallers.EvictionIs | backend/app/core/rate_limit.py:121-138 | which buckets eviction keeps: all up to 10000, else those used in the last 300 seconds, and of more than 10000 such all but the quarter used longest ago |
| RateLimitTable.TableIsSound | backend/app/core/rate_limit.py:47-80 | in the shipped table paths that share a bucket share its quota, and no window outlasts the 300 seconds |
| SseText.SplitLossless | frontend/src/api/chat.ts:162-164 | the lines and the rest put together are the text, and neither holds a newline |
| SseText.SplitAppend | frontend/src/api/chat.ts:162-164 | a later chunk continues the unfinished line and nothing else |
| SseText.SplitUnique | frontend/src/api/chat.ts:163-164 | there is only one such way to cut a text |
| SseClient.TakeLine | frontend/src/api/chat.ts:166-188 | the callbacks of one line, and whether it ends the session |
| SseOutcome.LineIs | frontend/src/api/chat.ts:166-188 | a line shows its event unless it is a ping or unreadable, and ends the session exactly when it is the end mark or a done or error event |
| SseClient.TakeChunk | frontend/src/api/chat.ts:162-188 | a chunk delivers what the lines of buffer and chunk deliver and keeps the unfinished line |
| SseClient.SendMessage | frontend/src/api/chat.ts:47-200 | the callbacks of a whole session, over every fetch outcome and every script of reads, as `SseOutcome.SessionIs` describes them |
| SseOutcome.SessionIs | frontend/src/api/chat.ts:47-200 | the session shows the events of the text received up to the line that completes it; then comes a cancel and onDone if an abort ended it, onError with the failure if one did, and onDone alone for every other ending |
| SseOutcome.EndingCalls | frontend/src/api/chat.ts:66-200 | cancelChat is called exactly when an abort ended the session, onError exactly for a failed fetch, a bad status, a missing body, an idle timeout or a failed read, with that failure, and onDone in every other finished session |
| SseOutcome.TrimIs | frontend/src/api/chat.ts:167 | trimming takes the white space off both ends and nothing else |
| SseTheorems.SessionEndsOnce | frontend/src/api/chat.ts:47-200 | exactly one of onDone and onError, once, as the last call; before it only events and at most one cancel |
| SseTheorems.SessionDeafAfterEnd | frontend/src/api/chat.ts:130-200 | after the end nothing the network does calls anybody |
| SseTheorems.ChunkInvariance | frontend/src/api/chat.ts:155-189 | a session depends on the text received, not on where it was cut |
| SseTheorems.PayloadExactIff | frontend/src/api/chat.ts:167-170 | a framed payload is read back exactly when it is not empty and does not end in white space |
| SseTheorems.EncodedCalls | frontend/src/api/chat.ts:162-188 | encoded frames deliver their payloads up to the first terminal one |
| SseTheorems.RoundTrip | frontend/src/api/chat.ts:130-189 | the same over any chunks to the end of the stream, closing once |
| SseServer.DrainQueue | backend/app/api/chat.py:202-217 | the frames of what was left on the queue, and whether text was among them |
| SseServer.SseStream | backend/app/api/chat.py:180-248 | the producer loop: pings, queue items, completion from the log, time-out, exception |
| SseFrames.FramesAre | backend/app/api/chat.py:180-248 | apart from pings the frames show the items taken, up to the first final one: text, tool news, the extras of a result in front of done, the worker's error; and without one what the turn shows that ended the stream |
| SseServer.ProduceFinalLast | backend/app/api/chat.py:180-248 | at most one final frame, and nothing behind it |
| SseServer.DeliverFrames | frontend/src/api/chat.ts:166-188 | a producer's frames are delivered without the pings and closed once |
| SseServer.EndToEnd | backend/app/api/chat.py:180-248 | worker to callback over any cutting: every frame except pings, in order, then one onDone |
| SseFrames.CallerIsShown | backend/app/api/chat.py:180-248 | end to end over any cutting, the caller is shown exactly that, and then onDone |
| SseContent.TextSent | backend/app/api/chat.py:186-243 | the frames carry the text taken off the queue, in order, and behind it the completion's text if none was left on the queue |
| SseContent.TextOnceIff | backend/app/api/chat.py:202-228 | of the generator alone, for any queue: a run that ends with the completion sends its text once exactly when nothing was streamed, or all of it was and some was still on the queue |
| SseContent.SentTwice | backend/app/api/chat.py:202-224 | of the generator alone: with a completion in the log and no final item on the queue, text taken before is sent again |
| SseContent.CallerText | backend/app/api/chat.py:180-248 | the same text at the caller, over any cutting |
| SseQueue.Channel.Push | backend/app/core/runtime/notification_bridge.py:312-361 | a push accepts, refuses, or makes room for a final item by throwing text away; never more than 256 items |
| SseQueue.Channel.DropText | backend/app/core/runtime/notification_bridge.py:337-346 | one turn of the queue keeps the rest in order |
| SseQueue.FinalNeverLost | backend/app/core/runtime/notification_bridge.py:322-328 | over every interleaving of pushes and gets the final item is never lost, and what the stream takes is what the worker pushed, in order, with at most some items left out |
| SseQueue.AcceptedIff | backend/app/core/runtime/notification_bridge.py:319-361 | over every interleaving, as long as the stream goes on: a final item always finds room, and any other is accepted exactly when fewer than 255 wait |
| SseQueue.WithoutTextAt | backend/app/core/runtime/notification_bridge.py:337-346 | what a full queue keeps for a final item: everything that is not text, in order |
| SseQueue.NothingResent | backend/app/core/agents/handlers/chat_handler.py:119-136 | over every interleaving with the worker's own last step, the completion is never sent in addition |
| SseQueue.TextSentOnce | backend/app/core/agents/handlers/chat_handler.py:62-136 | the frames carry exactly the text taken; a stream that ends with the final item and whose queue refused nothing carries the worker's text once |
| SseQueue.CallerReads | backend/app/api/chat.py:180-248 | and that is what the caller reads, over any cutting |
| RevisionChain.ReadNodes | backend/scripts/verify_alembic.py:63-83 | reading stops at the first file that cannot be parsed or repeats an id; otherwise the nodes are what the files declare |
| RevisionChain.NodesKeep | backend/scripts/verify_alembic.py:83 | the dictionary holds what each file declares |
| RevisionChain.CollectChildren | backend/scripts/verify_alembic.py:91-93 | the child lists, in file order |
| RevisionChain.FindBranch | backend/scripts/verify_alembic.py:95-102 | whether some parent has two children |
| RevisionChain.NextIsNew | backend/scripts/verify_alembic.py:109-112 | the walk never meets a revision again, so its cycle branch is dead |
| RevisionChain.Walk | backend/scripts/verify_alembic.py:104-120 | the walk ends with a path that cannot be continued; cycle and dangling branches are unreachable |
| RevisionChain.PathIsPrefix | backend/scripts/verify_alembic.py:104-120 | every linear chain begins with the path walked |
| RevisionChain.WalkCovers | backend/scripts/verify_alembic.py:122-126 | what the walk leaves out rules every linear chain out |
| RevisionChain.ChainKids | backend/scripts/verify_alembic.py:85-102 | in a linear chain there is one root and at most one child each |
| RevisionChain.KidsCount | backend/scripts/verify_alembic.py:85-102 | what the child lists say of roots and branches |
| RevisionChain.CheckNodes | backend/scripts/verify_alembic.py:85-130 | wrong roots, a branch, an unreachable revision or a chain: each told exactly when it is so |
| RevisionChain.OrderIsChain | backend/scripts/verify_alembic.py:104-120 | an order of the files, each naming the one before it, is a chain of the revisions |
| RevisionChain.ChainIsOrder | backend/scripts/verify_alembic.py:104-120 | and a chain of the revisions is an order of the files |
| RevisionChain.CheckRevisionChain | backend/scripts/verify_alembic.py:55-130 | returns 0 exactly when every file can be read and the files can be put in an order in which the first comes after none and each other one names the revision before it; the head named is the last file's revision |
| InboxSync.SyncChanges | backend/app/product/inbox.py:62-98 | handled rows are untouched, each row moves at most once and only towards the unread set; which rows move |
| InboxSync.WindowSureIff | backend/app/product/inbox.py:70-86 | for any dates a query is sure to return a row exactly when fewer others than its limit are at least as new |
| InboxSync.WindowIs | backend/app/product/inbox.py:70-86 | with distinct dates a query returns a row exactly when fewer rows than its limit are newer |
| InboxSync.SyncConvergesIff | backend/app/product/inbox.py:62-98 | for any dates: a sync is sure to reach its aim, whatever its queries return, exactly when no pending mail that was read has 5000 other pending rows at least as new and no unread mail marked read has 500 others at least as new that are read or about to be |
| InboxSync.SyncConvergesDistinct | backend/app/product/inbox.py:62-98 | the corollary for distinct dates, where each query has one answer |
| InboxSync.SyncConverges | backend/app/product/inbox.py:70-87 | which it does within the limits of 5000 and 500 |
| InboxSync.SecondSyncIdle | backend/app/product/inbox.py:62-98 | a sync of a table in step changes nothing |
| InboxSync.CrowdedOut | backend/app/product/inbox.py:84-87 | whatever the dates elsewhere, wrongly read mail behind 500 newer read rows is not found |
| InboxLimits.WrongStaysRead | backend/app/product/inbox.py:69-87 | a table in which 500 newer rows, only just marked read, hide the wrong one, whatever the queries return |
| Inbox.Store.SyncUnreadStatus | backend/app/product/inbox.py:62-98 | the table after the sync, and the number of rows that changed |
| Inbox.Store.MarkReadRows | backend/app/product/inbox.py:69-81 | first loop and its count |
| Inbox.Store.MarkPendingRows | backend/app/product/inbox.py:86-97 | second loop and its count |
| Inbox.Store.Record | backend/app/product/inbox.py:199-212 | one recording event, and a row that is pending exactly when unread |
| Inbox.Store.KnownIds | backend/app/product/inbox.py:32-34 | the ids a poll looks at: the newest 5000 rows |
| Inbox.CollectNew | backend/app/product/inbox.py:127-135 | the mail to record: fetched or unread and not known, once each; of several with one id the last fetched, else the first unread |
| Inbox.Store.ApplyPoll | backend/app/product/inbox.py:101-269 | sync, then one recording per new id; new and duplicate counts add up to the distinct fetched ids |
| InboxPayload.MailForIs | backend/app/product/inbox.py:127-135 | the mail recorded for an id: the last fetched one with it, else the first unread one |
| InboxPayload.PollRecords | backend/app/product/inbox.py:101-212 | said of the payload: every mail brought and not among the rows looked at gets one event and one row with its date, pending exactly when the payload's unread list has it, or, without such a list, when it was fetched |
| InboxPayload.PollMoves | backend/app/product/inbox.py:62-98 | and of the rows there were only those the queries returned move, each exactly when the payload says otherwise |
| Inbox.NewPlusKnown | backend/app/product/inbox.py:123-135 | new ids and known ids partition the fetched ones |
| Inbox.AtMostOnceIff | backend/app/product/inbox.py:32-34 | no mail is recorded twice exactly as long as nothing fetched is stored outside the rows looked at |
| Inbox.PollInStep | backend/app/product/inbox.py:199-212 | after a poll whose sync reached its aim the whole table is in step, new mail included |
| InboxRuns.RecordedOnceIff | backend/app/product/inbox.py:123-135 | over every run of polls and other status changes: stored is recorded, and nothing was recorded twice exactly when no poll overlooked mail it brought |
| InboxRuns.SmallInboxRecordsOnce | backend/app/product/inbox.py:32-34 | so up to 5000 rows every mail has exactly one recording event |
| InboxRuns.NeverOverlooksIff | backend/app/product/inbox.py:32-34 | for any dates: a poll is sure to overlook nothing exactly when every stored mail it brings has fewer than 5000 others at least as new |
| InboxRuns.OverlooksIff | backend/app/product/inbox.py:32-34 | the corollary for distinct dates |
| InboxRuns.RecordedTwiceIff | backend/app/product/inbox.py:101-212 | for any dates and any plan of polls and other changes: every run records each mail once exactly when no run gets to a poll that brings stored mail with 5000 others at least as new |
| InboxRuns.RecordedTwiceDistinct | backend/app/product/inbox.py:123-135 | for one run with distinct dates: nothing was recorded twice exactly when no poll brought stored mail behind 5000 newer rows |
| InboxRuns.PollExists | backend/app/product/inbox.py:101-212 | every payload can be polled from every state |
| InboxLimits.RecordedTwice | backend/app/core/harness/builtin_tools/email.py:732-747 | the same unread index of more than 5000 ids without dates, polled twice: in every such run some mail is recorded twice |
| InboxLimits.TwicePolled | backend/app/product/inbox.py:101-212 | and there is such a run |
| InboxRuns.PollConverges | backend/app/product/inbox.py:62-212 | a poll within the query limits leaves every mail that is not handled pending exactly when unread |
| WebSocketSlots.Manager.ConnectionAllowed | backend/app/main.py:144-154 | the burst test and its time stamps |
| WebSocketSlots.Manager.ReserveConnection | backend/app/main.py:157-178 | global cap, concurrent cap, burst cap, one slot |
| WebSocketSlots.AcceptedKeeps | backend/app/main.py:181-184 | registering an accepted socket keeps the invariant: a registry of accepted tasks only, each once, and a counter of the tasks holding a slot |
| WebSocketSlots.Manager.ReleaseConnection | backend/app/main.py:187-198 | slot back, socket out of the registry if still there |
| WebSocketSlots.Manager.DropDisconnected | backend/app/main.py:795-799 | the tail of a broadcast takes dead sockets out and leaves their slots |
| WebSocketSlots.RemoveIs | backend/app/main.py:196 | removing one occurrence from a list without repetitions |
| WebSocketSlots.DropIs | backend/app/main.py:797-799 | what dropping leaves of the registry |
| WebSocketSlots.SlotsKept | backend/app/main.py:733-799 | every step of every endpoint task and broadcast keeps the slot invariant |
| WebSocketSlots.SlotSafety | backend/app/main.py:144-198 | in every interleaving the counter is the tasks holding a slot, within 64 or 16, and the registry is duplicate-free and no larger |
| WebSocketSlots.GrantedIff | backend/app/main.py:144-178 | in every interleaving a slot is granted exactly when fewer than 64 are held and, exposed without a token, fewer than 16 are and fewer than eight were admitted in the last ten seconds |
| WebSocketSlots.BurstSafety | backend/app/main.py:144-154 | exposed without a token, any closed ten seconds see at most eight admissions |
| UrlMonitors.Config.CreateUrlMonitor | backend/app/product/url_monitors.py:85-114 | valid fields, cap on enabled monitors, appended row; filters and alerts untouched |
| UrlMonitors.Config.UpdateUrlMonitor | backend/app/product/url_monitors.py:117-157 | not found, invalid, over the cap, or the row changed in place, its history forgotten when the address changed |
| UrlMonitors.Config.DeleteUrlMonitor | backend/app/product/url_monitors.py:160-167 | the rows with that id go, or not found |
| UrlMonitors.Config.PersistMonitorRow | backend/app/product/url_monitors.py:211-221 | the first row with that id takes the patch; a row that is gone stays gone |
| UrlMonitors.Config.EvaluateUrlMonitors | backend/app/product/url_monitors.py:249-349 | rows and alerts after a round, the number notified, and that a failed fetch leaves the stored digest alone |
| UrlMonitors.CapReached | backend/app/product/url_monitors.py:288-289 | stopping at the cap is the same as visiting nobody further on |
| UrlMonitorEdits.CreateIs | backend/app/product/url_monitors.py:85-114 | a new row has the fields asked for and has seen nothing; it is refused for bad fields, or when enabled beside ten enabled ones |
| UrlMonitorEdits.UpdateIs | backend/app/product/url_monitors.py:117-157 | which outcome a change has, and every field of the row after it; what was seen is forgotten exactly when the address is another one |
| UrlMonitorEdits.UpdateUnknown | backend/app/product/url_monitors.py:121-123 | a change is refused as not found exactly when no row has the id |
| UrlMonitorEdits.DeleteIs | backend/app/product/url_monitors.py:160-167 | exactly the rows with the id go, the others keep their order |
| UrlMonitorEdits.RoundIs | backend/app/product/url_monitors.py:281-347 | a round writes to the rows it wants to look at, as many as its cap allows, and what it writes; every other row stays as it was |
| UrlMonitorRuns.SentByRound | backend/app/product/url_monitors.py:311-345 | a round sends at most one alert for a monitor, and exactly when its digest is a change not announced before |
| UrlMonitorRuns.StepAgrees | backend/app/product/url_monitors.py:85-347 | every create, update, delete and round keeps stored digest and alerts in agreement with what the monitor saw |
| UrlMonitorRuns.AlertsAreChanges | backend/app/product/url_monitors.py:249-347 | over every history the alerts of a monitor are its changes, each at its first occurrence |
| UrlMonitorRuns.AnnouncedOnce | backend/app/product/url_monitors.py:327-345 | a digest is announced exactly when some change led to it, and once |
| UrlMonitorRuns.CapKept | backend/app/product/url_monitors.py:27 | over every history at most ten monitors are enabled |
| UrlMonitorTurns.SureIff | backend/app/product/url_monitors.py:262-290 | over all intervals, last looks and spacings of the ticks: a due monitor is sure to be looked at within any number of ticks exactly when fewer than three usable ones stand in front |
| UrlMonitorTurns.ServedWithinTwo | backend/app/product/url_monitors.py:262-290 | when each tick comes less than half an hour after the visits of the one before: with at most five in front, a due monitor is looked at by this tick or the next |
| UrlMonitorTurns.TickVisits | backend/app/product/url_monitors.py:281-290 | while six monitors take turns, a tick looks at the three whose turn it is and nothing else |
| UrlMonitorTurns.Starved | backend/app/product/url_monitors.py:262-264 | over any number of ticks no row behind those six is looked at |
| UrlMonitorTurns.ServedIff | backend/app/product/url_monitors.py:262-264 | under that timing, over all intervals and last looks: sure to be looked at within any number of ticks from two on exactly with fewer than six in front |
| UrlMonitorQueue.FourthNeverServed | backend/app/product/url_monitors.py:85-114 | four monitors created in a row, and ticks half an hour after the last visits: the fourth is due at every tick and never looked at |
| UrlMonitorQueue.SeventhNeverServed | backend/app/product/url_monitors.py:85-114 | seven monitors created in a row, and prompt ticks: the same for the seventh |
| PayloadSize.PushFields | backend/app/api/models.py:63-69 | one dictionary, stopping within it |
| PayloadSize.ApproxPayloadBytes | backend/app/api/models.py:53-85 | the stack walk ends and returns the recursive size, or something above the budget that the size is not below |
| PayloadSize.CheckSize | backend/app/api/models.py:43-50 | rejects exactly the payloads above 100 MiB |
| Truncation.TruncateToTokenBudget | backend/app/core/agents/token_counter.py:69-96 | the binary search loop and the mark |
| Truncation.SearchFits | backend/app/core/agents/token_counter.py:80-92 | for any counter the search leaves a prefix of the text within the cap |
| Truncation.SearchIsLongest | backend/app/core/agents/token_counter.py:80-92 | for a counter that never counts a longer text less, the binary search finds what trying every cut from the longest down finds |
| Truncation.TruncateIsLongest | backend/app/core/agents/token_counter.py:69-96 | so a text over its cap becomes the longest fitting cut, marked |
| Truncation.TruncateExceedsIff | backend/app/core/agents/token_counter.py:64-96 | with the fallback estimate a cut text is still over its cap exactly when the last character that fits is neither blank nor the mark |
| Truncation.TruncateExceeds | backend/app/core/agents/token_counter.py:64-65 | eight letters cut to one token count as two |
| ContextAssembly.Pack | backend/app/assembler/context_assembler.py:80-107 | the loop's parts, sources and running total |
| ContextAssembly.Prepare | backend/app/assembler/context_assembler.py:81-98 | a fragment brings its stripped content, cut if it has a cap and is over it |
| PyText.StripIs | backend/app/assembler/context_assembler.py:81 | stripping takes the blanks off both ends and nothing else |
| ContextAssembly.AssembleWithSources | backend/app/assembler/context_assembler.py:53-110 | failed collections left out, sorted by priority, packed, joined |
| ContextAssembly.BudgetKeptAndFilled | backend/app/assembler/context_assembler.py:101-106 | the total is within the budget, and nothing passed over would still fit at the end |
| ContextAssembly.UsedIsPrice | backend/app/assembler/context_assembler.py:101-106 | the running total is what the kept parts cost |
| ContextAssembly.TakenIff | backend/app/assembler/context_assembler.py:101-107 | a fragment is taken, with its sources, exactly when it has something to say and fits beside the parts taken before it |
| ContextAssembly.JoinSplits | backend/app/assembler/context_assembler.py:109 | the prompt is all the parts, in order, with one separator between any two |
| ContextAssembly.CollectedAt | backend/app/assembler/context_assembler.py:62-75 | every collected fragment is kept, in order, and no failed one |
| ContextAssembly.SourcesOfTaken | backend/app/assembler/context_assembler.py:107 | sources come from taken fragments and from nowhere else |
| ContextAssembly.PriorityStable | backend/app/assembler/context_assembler.py:77-107 | fragments of lower priority never change which higher ones are taken, nor the parts they begin with |
| StableSort.SortOrdered | backend/app/assembler/context_assembler.py:78 | sorting orders by key |
| StableSort.SortKeepsElements | backend/scripts/compact_policy_events.py:177 | sorting keeps every element as often as it occurs |
| StableSort.KeepSort | backend/app/assembler/context_assembler.py:78 | sorting is stable: leaving out the large keys before or after makes no difference |

## Left out

- The kernel, the scheduler, SQLite, asyncio, IMAP, HTTP and the language model: only the atomic steps and the suspension points between them are here.
- JSON text: event payloads are values; `json.dumps` and `JSON.parse` are parameters that fit together (`SseServer.Inverse`).
- `TextDecoder`: chunks are text, so a character split between two chunks is not modelled.
- Log time stamps: integers that are compared and copied, not parsed.
- Compactor.PlanCompaction: assumes distinct sequence numbers, which the primary key of the event log gives (backend/app/store/schema_ddl.py:191); writing the result back, backup and checks around it are not part of this model.
- Clock readings: real numbers, so floating-point rounding is not modelled.
- RateLimit.WindowSafety: about runs in which the second eviction pass stays idle (`RateLimitRuns.Calm`), as are the answers in `RateLimitCallers`; that pass drops live buckets by design and `RateLimitCallers.EvictionIs` says which.
- TelegramGateway.Gateway.SaveConfig: leaves out the auto_reply switch, the redaction of error texts and the audit event; none of them is read by a poll.
- TelegramGateway.Gateway.FinishPoll: leaves out ConversationCreated events, taint marks and the error texts; every request is taken to carry a correlation id of its own.
- TelegramProgress.CanCatchUp: about runs that can follow, not about when they do; when a poll starts is up to the scheduler.
- TelegramProtocol.ExactlyOnce: Telegram is taken to answer with an ascending stretch of its queue from the offset asked for, from which only updates at or below an offset saved meanwhile may be missing.
- Telegram conversations: two first polls can choose two conversation ids; exclusion is stated for each conversation.
- SseClient.SendMessage: the wording of an error is a failure value; callbacks are taken not to throw; the outcome of the cancel request and the timer that detects idleness are inputs.
- SseServer.ProduceFinalLast: says at most one final frame, because the producer can return without one (backend/app/api/chat.py:219-228).
- SseQueue.Channel.Push: the queue is registered; what a worker pushes after the stream has gone is not modelled.
- SseQueue.NothingResent: the handler and the stream share one event loop, so the worker's last emission and push are one act.
- RevisionChain.ReadNodes: a file yields its revision fields or nothing; the regular expressions and the printed messages are left out.
- Inbox.Store.ApplyPoll: polls run one after another; a mail without a date takes the time of the poll as its date before the model sees it; classification, notifications, flags, filters and the error payload are left out.
- WebSocketSlots.SlotSafety: before shutdown; the reset of counter and registry at shutdown is not modelled, nor are token checks.
- UrlMonitors.Config.EvaluateUrlMonitors: rounds do not overlap each other or an edit, and ids are distinct because they are drawn at random; titles and previews in the notification text are left out.
- UrlMonitorTurns.ServedIff: about ticks that come less than half an hour after the visits of the tick before and at least half an hour after those of the tick before that; `UrlMonitorTurns.SureIff` has no such condition.
- PolicyTable.ProjectionPreservedIff: payload values the policy table's NOT NULL columns would refuse are not treated apart.
- Page digests: values compared for equality; the 32-character prefix in the key is taken to tell digests apart.
- Web addresses: what `urlparse` accepts is a parameter of create and update.
- Notifications are never deleted, so a key found once is found again.
- Inbox filters: creating, updating, deleting and evaluating them is left out; only that monitor operations leave the stored filters alone is stated.
- ContextAssembly.BudgetKeptAndFilled: about the parts; the separators the prompt is joined with are not counted by the program either.
- Truncation.SearchIsLongest: for counters that never count a longer text less; a tokenizer that merges across the cut may count one less, and then `Truncation.SearchFits` is what holds.
- Encryption, backup, settings, telemetry, desktop shell and user interface.
