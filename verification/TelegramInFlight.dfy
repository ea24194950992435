/** Whether a conversation's chats run one at a time: what the in-flight test sees, and when
    that is enough. */
module TelegramInFlight {
  import opened Common
  import opened TelegramGateway
  import opened TelegramProtocol

  /** A request of the conversation among those listed. */
  ghost predicate Listed(log: seq<Chat>, which: set<nat>, conversation: string) {
    exists i: nat :: i < |log| && i in which && log[i].conversation == conversation
  }

  function Requests(log: seq<Chat>, conversation: string): nat {
    RankIn(log, |log|, conversation)
  }

  lemma {:induction false} RankBelow(log: seq<Chat>, i: nat, n: nat)
    requires i < n <= |log|
    ensures Rank(log, i) < RankIn(log, n, log[i].conversation)
  {
    if i + 1 < n {
      RankBelow(log, i, n - 1);
    }
  }

  lemma {:induction false} RankReached(log: seq<Chat>, n: nat, conversation: string, r: nat) returns (i: nat)
    requires n <= |log| && r < RankIn(log, n, conversation)
    ensures i < n && log[i].conversation == conversation && Rank(log, i) == r
  {
    if RankIn(log, n - 1, conversation) == r {
      i := n - 1;
    } else {
      i := RankReached(log, n - 1, conversation, r);
    }
  }

  lemma {:induction false} InFlightIsListed(log: seq<Chat>, active: set<nat>, conversation: string)
    requires Requests(log, conversation) <= LOOKUP_LIMIT
    ensures InFlight(log, active, conversation) <==> Listed(log, active, conversation)
  {
    if Listed(log, active, conversation) {
      var i: nat :| i < |log| && i in active && log[i].conversation == conversation;
      RankBelow(log, i, |log|);
    }
  }

  /** The test looks for executions of the ten oldest requests of a conversation. Whatever is
      running, it tells whether a request is open exactly as long as there are no more than
      ten and none of them waits to be dispatched. */
  lemma {:induction false} InFlightTrustworthyIff(log: seq<Chat>, waiting: set<nat>, conversation: string)
    ensures (forall active :: InFlight(log, active, conversation) <==> Listed(log, waiting + active, conversation))
            <==> Requests(log, conversation) <= LOOKUP_LIMIT && !Listed(log, waiting, conversation)
  {
    if Listed(log, waiting, conversation) {
      assert !InFlight(log, {}, conversation) && waiting + {} == waiting;
    } else if Requests(log, conversation) <= LOOKUP_LIMIT {
      forall active
        ensures InFlight(log, active, conversation) <==> Listed(log, waiting + active, conversation)
      {
        InFlightIsListed(log, active, conversation);
        if Listed(log, waiting + active, conversation) {
          var i: nat :| i < |log| && i in waiting + active && log[i].conversation == conversation;
          assert i in active;
        }
      }
    } else {
      var i := RankReached(log, |log|, conversation, LOOKUP_LIMIT);
      assert i in waiting + {i} && Listed(log, waiting + {i}, conversation);
      assert !InFlight(log, {i}, conversation);
    }
  }

  // ----- At most one of them -----

  ghost predicate OneAt(log: seq<Chat>, which: set<nat>, conversation: string, i: int, j: int) {
    0 <= i < j < |log| && i in which && j in which && log[i].conversation == conversation ==>
      log[j].conversation != conversation
  }

  /** At most one of the listed requests belongs to the conversation. */
  ghost predicate AtMostOne(log: seq<Chat>, which: set<nat>, conversation: string) {
    forall i, j :: OneAt(log, which, conversation, i, j)
  }

  /** At most one request of the conversation is open: waiting to be dispatched, or running. */
  ghost predicate OneOpen(s: State, conversation: string) {
    (forall i :: i in s.waiting + s.active ==> i < |s.log|) && AtMostOne(s.log, s.waiting + s.active, conversation)
  }

  ghost predicate OneRunning(s: State, conversation: string) {
    AtMostOne(s.log, s.active, conversation)
  }

  lemma {:induction false} RankGrows(log: seq<Chat>, more: seq<Chat>, n: nat, conversation: string)
    requires n <= |log|
    ensures RankIn(log + more, n, conversation) == RankIn(log, n, conversation)
  {
    if n > 0 {
      RankGrows(log, more, n - 1, conversation);
    }
  }

  /** A step that admits a request of the conversation while an earlier one waits. */
  ghost predicate Hasty(s: State, step: Step, chat: string, conversation: string) {
    var s' := Apply(s, step, chat);
    && |s'.log| > |s.log| && s'.log[|s.log|].conversation == conversation
    && Listed(s.log, s.waiting, conversation)
  }

  lemma {:induction false} BusyWalk(updates: seq<Update>, chat: string, known: seq<nat>, last: int)
    ensures Walk(updates, chat, known, true, last).emitted.None?
  {
    if updates != [] {
      BusyWalk(updates[1..], chat, known, last);
      BusyWalk(updates[1..], chat, known, Max(last, updates[0].id));
    }
  }

  /** What a step appends to the log waits, and was let through by the in-flight test; no
      other step opens a request. */
  lemma {:induction false} AppendedFree(s: State, step: Step, chat: string)
    ensures var s' := Apply(s, step, chat);
            if s'.log == s.log then s'.waiting + s'.active <= s.waiting + s.active
            else
              && |s'.log| == |s.log| + 1 && s'.log[..|s.log|] == s.log
              && s'.waiting == s.waiting + {|s.log|} && s'.active == s.active
              && !InFlight(s.log, s.active, s'.log[|s.log|].conversation)
  {
    if (step.Finish? || step.CrashInFinish? || step.SaveFails?) && PollOf(s, step.p).Answered? {
      var poll := PollOf(s, step.p);
      BusyWalk(Updates(poll.fetched), chat, Ids(s.log), poll.seen.lastUpdateId);
    }
  }

  /** One more request, let through while at most ten were there. */
  lemma {:induction false} AdmitOne(s: State, s': State, conversation: string)
    requires OneOpen(s, conversation) && |s'.log| == |s.log| + 1 && s'.log[..|s.log|] == s.log
    requires s'.waiting == s.waiting + {|s.log|} && s'.active == s.active
    requires !InFlight(s.log, s.active, s'.log[|s.log|].conversation)
    requires Requests(s.log, conversation) <= LOOKUP_LIMIT
    ensures OneOpen(s', conversation) <==>
              !(s'.log[|s.log|].conversation == conversation && Listed(s.log, s.waiting, conversation))
  {
    InFlightIsListed(s.log, s.active, conversation);
    assert forall i :: 0 <= i < |s.log| ==> s'.log[i] == s.log[i];
    if s'.log[|s.log|].conversation == conversation && Listed(s.log, s.waiting, conversation) {
      var i: nat :| i < |s.log| && i in s.waiting && s.log[i].conversation == conversation;
      assert !OneAt(s'.log, s'.waiting + s'.active, conversation, i, |s.log|);
    } else {
      forall i, j ensures OneAt(s'.log, s'.waiting + s'.active, conversation, i, j) {
        assert OneAt(s.log, s.waiting + s.active, conversation, i, j);
      }
    }
  }

  lemma {:induction false} StepOneOpen(s: State, step: Step, chat: string, conversation: string)
    requires OneOpen(s, conversation) && Requests(Apply(s, step, chat).log, conversation) <= LOOKUP_LIMIT + 1
    ensures OneOpen(Apply(s, step, chat), conversation) <==> !Hasty(s, step, chat, conversation)
  {
    var s' := Apply(s, step, chat);
    AppendedFree(s, step, chat);
    if s'.log == s.log {
      forall i, j ensures OneAt(s'.log, s'.waiting + s'.active, conversation, i, j) {
        assert OneAt(s.log, s.waiting + s.active, conversation, i, j);
      }
    } else {
      InitLast(s'.log);
      RankGrows(s.log, [s'.log[|s.log|]], |s.log|, conversation);
      if Requests(s.log, conversation) <= LOOKUP_LIMIT {
        AdmitOne(s, s', conversation);
      } else {
        AdmitOther(s, s', conversation);
      }
    }
  }

  /** A request of another conversation changes nothing. */
  lemma {:induction false} AdmitOther(s: State, s': State, conversation: string)
    requires OneOpen(s, conversation) && |s'.log| == |s.log| + 1 && s'.log[..|s.log|] == s.log
    requires s'.waiting == s.waiting + {|s.log|} && s'.active == s.active
    requires s'.log[|s.log|].conversation != conversation
    ensures OneOpen(s', conversation)
  {
    assert forall i :: 0 <= i < |s.log| ==> s'.log[i] == s.log[i];
    forall i, j ensures OneAt(s'.log, s'.waiting + s'.active, conversation, i, j) {
      assert OneAt(s.log, s.waiting + s.active, conversation, i, j);
    }
  }

  lemma {:induction false} RequestsShrink(s: State, step: Step, chat: string, conversation: string)
    ensures Requests(s.log, conversation) <= Requests(Apply(s, step, chat).log, conversation)
  {
    var s' := Apply(s, step, chat);
    AppendedFree(s, step, chat);
    if s'.log != s.log {
      InitLast(s'.log);
      RankGrows(s.log, [s'.log[|s.log|]], |s.log|, conversation);
    }
  }

  // ----- Whole runs -----

  ghost predicate AlwaysOneOpen(steps: seq<Step>, chat: string, conversation: string) {
    && OneOpen(RunSteps(INIT, steps, chat), conversation)
    && (steps != [] ==> AlwaysOneOpen(steps[..|steps| - 1], chat, conversation))
  }

  /** Nothing of the conversation is admitted between an emission and its dispatch. */
  ghost predicate Unhurried(steps: seq<Step>, chat: string, conversation: string) {
    steps != [] ==>
      var init, last := steps[..|steps| - 1], steps[|steps| - 1];
      Unhurried(init, chat, conversation) && !Hasty(RunSteps(INIT, init, chat), last, chat, conversation)
  }

  /** Over every run with at most eleven requests in the conversation: at most one of them is
      ever open exactly when none was admitted while another waited to be dispatched. */
  lemma {:induction false} OneChatAtATimeIff(steps: seq<Step>, chat: string, conversation: string)
    requires Requests(RunSteps(INIT, steps, chat).log, conversation) <= LOOKUP_LIMIT + 1
    ensures AlwaysOneOpen(steps, chat, conversation) <==> Unhurried(steps, chat, conversation)
  {
    if steps == [] {
      assert INIT.waiting + INIT.active == {};
      assert forall i, j :: OneAt(INIT.log, {}, conversation, i, j);
    } else {
      var init, last := steps[..|steps| - 1], steps[|steps| - 1];
      var s := RunSteps(INIT, init, chat);
      RequestsShrink(s, last, chat, conversation);
      OneChatAtATimeIff(init, chat, conversation);
      if AlwaysOneOpen(init, chat, conversation) {
        assert OneOpen(s, conversation);
        StepOneOpen(s, last, chat, conversation);
      }
    }
  }

  /** And then at most one is ever running. */
  lemma {:induction false} OneChatAtATime(steps: seq<Step>, chat: string, conversation: string)
    requires Requests(RunSteps(INIT, steps, chat).log, conversation) <= LOOKUP_LIMIT + 1
    requires Unhurried(steps, chat, conversation)
    ensures OneRunning(RunSteps(INIT, steps, chat), conversation)
  {
    var s := RunSteps(INIT, steps, chat);
    OneChatAtATimeIff(steps, chat, conversation);
    forall i, j ensures OneAt(s.log, s.active, conversation, i, j) {
      assert OneAt(s.log, s.waiting + s.active, conversation, i, j);
    }
  }

  /** Two open requests need only be dispatched to run at the same time. */
  lemma {:induction false} OpenCanRun(s: State, chat: string, conversation: string) returns (more: seq<Step>)
    requires !AtMostOne(s.log, s.waiting + s.active, conversation)
    ensures (forall step :: step in more ==> step.Dispatched?) && !OneRunning(RunSteps(s, more, chat), conversation)
  {
    var i, j :| !OneAt(s.log, s.waiting + s.active, conversation, i, j);
    more := [Dispatched(i), Dispatched(j)];
    var s1 := Apply(s, Dispatched(i), chat);
    var s2 := Apply(s1, Dispatched(j), chat);
    assert more[..1] == [Dispatched(i)] && more[..1][..0] == [];
    assert RunSteps(s, more[..1], chat) == s1;
    assert i in s2.active && j in s2.active && s2.log == s.log;
    assert !OneAt(s2.log, s2.active, conversation, i, j);
  }

  // ----- Runs in which two chats run at once -----

  /** Two requests made before the first is dispatched. */
  lemma {:induction false} TwoRequestsOverlap(chat: string) returns (steps: seq<Step>)
    ensures Requests(RunSteps(INIT, steps, chat).log, "c") == 2
    ensures !OneRunning(RunSteps(INIT, steps, chat), "c")
  {
    var hi := OtherChat("c", "hi");
    var one, two, three := [hi], [hi, hi], [hi, hi, Dispatched(0)];
    steps := [hi, hi, Dispatched(0), Dispatched(1)];
    assert one == [] + [hi] && two == one + [hi] && three == two + [Dispatched(0)] && steps == three + [Dispatched(1)];
    RunSnoc(INIT, [], hi, chat);
    RunSnoc(INIT, one, hi, chat);
    RunSnoc(INIT, two, Dispatched(0), chat);
    RunSnoc(INIT, three, Dispatched(1), chat);
    var s := RunSteps(INIT, steps, chat);
    assert s.log == [Chat("c", None, "hi"), Chat("c", None, "hi")] && s.active == {0, 1};
    assert !OneAt(s.log, s.active, "c", 0, 1);
    RankOfRounds(s.log, 2);
  }

  lemma {:induction false} RankOfRounds(log: seq<Chat>, n: nat)
    requires n <= |log| && forall i :: 0 <= i < n ==> log[i].conversation == "c"
    ensures RankIn(log, n, "c") == n
  {
    if n > 0 {
      RankOfRounds(log, n - 1);
    }
  }

  lemma {:induction false} RunSnoc(s: State, steps: seq<Step>, step: Step, chat: string)
    ensures RunSteps(s, steps + [step], chat) == Apply(RunSteps(s, steps, chat), step, chat)
  {
    assert (steps + [step])[..|steps|] == steps;
  }

  lemma {:induction false} UnhurriedSnoc(steps: seq<Step>, step: Step, chat: string, conversation: string)
    requires Unhurried(steps, chat, conversation)
    requires RunSteps(INIT, steps, chat).waiting == {} || step.Dispatched? || step.Completed?
    ensures Unhurried(steps + [step], chat, conversation)
  {
    assert (steps + [step])[..|steps|] == steps;
  }

  /** `k` requests, each dispatched and over before the next. */
  lemma {:induction false} Rounds(k: nat, chat: string) returns (steps: seq<Step>)
    requires k <= LOOKUP_LIMIT
    ensures Unhurried(steps, chat, "c")
    ensures var s := RunSteps(INIT, steps, chat);
            && |s.log| == k && s.waiting == {} && s.active == {}
            && forall i :: 0 <= i < k ==> s.log[i] == Chat("c", None, "hi")
  {
    steps := [];
    if k > 0 {
      var before := Rounds(k - 1, chat);
      steps := OneRound(before, k - 1, chat);
    }
  }

  lemma {:induction false} OneRound(before: seq<Step>, k: nat, chat: string) returns (steps: seq<Step>)
    requires Unhurried(before, chat, "c")
    requires var s := RunSteps(INIT, before, chat); |s.log| == k && s.waiting == {} && s.active == {}
    ensures Unhurried(steps, chat, "c")
    ensures var s := RunSteps(INIT, before, chat);
            RunSteps(INIT, steps, chat) == s.(log := s.log + [Chat("c", None, "hi")])
  {
    var running := Admitted(before, chat);
    steps := running + [Completed(k)];
    RunSnoc(INIT, running, Completed(k), chat);
    UnhurriedSnoc(running, Completed(k), chat, "c");
  }

  /** One more request, dispatched at once. */
  lemma {:induction false} Admitted(before: seq<Step>, chat: string) returns (steps: seq<Step>)
    requires Unhurried(before, chat, "c") && RunSteps(INIT, before, chat).waiting == {}
    requires var s := RunSteps(INIT, before, chat); !InFlight(s.log, s.active, "c")
    ensures Unhurried(steps, chat, "c")
    ensures var s := RunSteps(INIT, before, chat);
            RunSteps(INIT, steps, chat)
            == s.(log := s.log + [Chat("c", None, "hi")], active := s.active + {|s.log|})
  {
    var s := RunSteps(INIT, before, chat);
    steps := before + [OtherChat("c", "hi")] + [Dispatched(|s.log|)];
    RunSnoc(INIT, before, OtherChat("c", "hi"), chat);
    UnhurriedSnoc(before, OtherChat("c", "hi"), chat, "c");
    RunSnoc(INIT, before + [OtherChat("c", "hi")], Dispatched(|s.log|), chat);
    UnhurriedSnoc(before + [OtherChat("c", "hi")], Dispatched(|s.log|), chat, "c");
  }

  /** Though every request is dispatched at once, the twelfth can run beside the eleventh. */
  lemma {:induction false} TwelfthOverlaps(chat: string) returns (steps: seq<Step>)
    ensures Unhurried(steps, chat, "c") && !OneRunning(RunSteps(INIT, steps, chat), "c")
    ensures Requests(RunSteps(INIT, steps, chat).log, "c") == LOOKUP_LIMIT + 2
  {
    var before := Rounds(LOOKUP_LIMIT, chat);
    var eleven := Admitted(before, chat);
    var s1 := RunSteps(INIT, eleven, chat);
    RankOfRounds(s1.log, LOOKUP_LIMIT);
    assert s1.active == {LOOKUP_LIMIT} && !InFlight(s1.log, s1.active, "c");
    steps := Admitted(eleven, chat);
    var s2 := RunSteps(INIT, steps, chat);
    assert !OneAt(s2.log, s2.active, "c", LOOKUP_LIMIT, LOOKUP_LIMIT + 1);
    RankOfRounds(s2.log, |s2.log|);
  }
}
