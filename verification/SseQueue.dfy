/** The bounded queue between the chat worker and the stream, and what the two of them do to
    it in any interleaving. */
module SseQueue {
  import opened Common
  import opened SseText
  import opened SseClient
  import opened SseTheorems
  import opened SseServer
  import opened SseContent

  const QUEUE_MAX: nat := 256

  predicate Final(item: Item) {
    item.kind == "done" || item.kind == "error"
  }

  function WithoutText(q: seq<Item>): seq<Item> {
    if q == [] then []
    else if q[|q| - 1].kind == "text_delta" then WithoutText(q[..|q| - 1])
    else WithoutText(q[..|q| - 1]) + [q[|q| - 1]]
  }

  /** The queue after a push: a place is kept free for a final item, and a final item that
      finds none makes room by throwing text away. */
  function Pushed(q: seq<Item>, item: Item): seq<Item> {
    if !Final(item) && |q| >= QUEUE_MAX - 1 then q
    else if |q| < QUEUE_MAX then q + [item]
    else if |WithoutText(q)| < |q| then WithoutText(q) + [item]
    else q
  }

  lemma {:induction false} WithoutTextShrinks(q: seq<Item>)
    ensures |WithoutText(q)| <= |q| && (|WithoutText(q)| == |q| ==> WithoutText(q) == q)
  {
    if q != [] {
      WithoutTextShrinks(q[..|q| - 1]);
    }
  }

  class Channel {
    var queue: seq<Item>

    /** Turns the whole queue over once, keeping what is not text. */
    method DropText() returns (dropped: bool)
      modifies this
      ensures queue == WithoutText(old(queue)) && dropped == (|queue| < |old(queue)|)
    {
      dropped := false;
      ghost var was := queue;
      var size := |queue|;
      assert was[..size] == was;
      for i := 0 to size
        invariant |was| == size && queue == was[i..] + WithoutText(was[..i])
        invariant dropped == (|WithoutText(was[..i])| < i) && |WithoutText(was[..i])| <= i
      {
        var old' := queue[0];
        assert was[..i + 1][..i] == was[..i] && was[i..][1..] == was[i + 1..];
        queue := queue[1..];
        if old'.kind == "text_delta" {
          dropped := true;
        } else {
          queue := queue + [old'];
        }
      }
    }

    method Push(item: Item)
      requires |queue| <= QUEUE_MAX
      modifies this
      ensures queue == Pushed(old(queue), item) && |queue| <= QUEUE_MAX
    {
      var terminal := item.kind == "done" || item.kind == "error";
      if !terminal && |queue| >= QUEUE_MAX - 1 {
        return;
      }
      WithoutTextShrinks(queue);
      ghost var was := queue;
      var trying := true;
      while trying
        invariant trying ==> queue == was || (terminal && queue == WithoutText(was) && |queue| < |was| == QUEUE_MAX)
        invariant !trying ==> queue == Pushed(was, item) && |queue| <= QUEUE_MAX
        decreases trying, |queue|
      {
        if |queue| < QUEUE_MAX {
          queue := queue + [item];
          trying := false;
        } else if terminal {
          var dropped := DropText();
          trying := dropped;
        } else {
          trying := false;
        }
      }
    }
  }

  // ----- Worker, queue and stream, in any interleaving -----

  /** What happens: the worker pushes an item, or writes its completion to the log and pushes
      its final item, with nothing in between; the stream takes an item, or finds none in time
      and looks at the log, or is cut short. */
  datatype Act =
    | Push(item: Item)
    | Finish(final: Item, completed: Completed)
    | Take
    | TimeOut(now: real)
    | CutShort(deadline: bool)

  /** `pushed` is all the worker pushed, `kept` what of it the queue accepted, `turns` what the
      stream's loop went through. */
  datatype Exchange = Exchange(
    queue: seq<Item>, done: Option<Completed>, ended: bool, turns: seq<Turn>, pushed: seq<Item>, kept: seq<Item>)

  const START := Exchange([], None, false, [], [], [])

  function Send(s: Exchange, item: Item): Exchange {
    var q := Pushed(s.queue, item);
    s.(queue := q, pushed := s.pushed + [item], kept := if |q| > |s.queue| then s.kept + [item] else s.kept)
  }

  /** One act; one whose guard fails changes nothing. */
  function Next(s: Exchange, act: Act): Exchange {
    match act
    case Push(item) => if s.done.None? && !Final(item) then Send(s, item) else s
    case Finish(final, completed) =>
      if s.done.None? && Final(final) then Send(s, final).(done := Some(completed)) else s
    case Take =>
      if s.ended || s.queue == [] then s
      else s.(queue := s.queue[1..], turns := s.turns + [Got(s.queue[0])], ended := Final(s.queue[0]))
    case TimeOut(now) =>
      if s.ended then s
      else if s.done.None? then s.(turns := s.turns + [Quiet(now)])
      else s.(queue := [], turns := s.turns + [Finished(now, s.queue, s.done)], ended := true)
    case CutShort(deadline) =>
      if s.ended then s else s.(turns := s.turns + [if deadline then Deadline else Failed], ended := true)
  }

  function RunActs(acts: seq<Act>): Exchange {
    if acts == [] then START else Next(RunActs(acts[..|acts| - 1]), acts[|acts| - 1])
  }

  /** The items the stream's loop took, in order. */
  function Taken(turns: seq<Turn>): seq<Item> {
    if turns == [] then []
    else
      match turns[0]
      case Got(item) => [item] + Taken(turns[1..])
      case Finished(_, pending, _) => Cat(pending, Taken(turns[1..]))
      case _ => Taken(turns[1..])
  }

  lemma {:induction false} TakenAppend(x: seq<Turn>, y: seq<Turn>)
    ensures Taken(x + y) == Taken(x) + Taken(y)
  {
    if x == [] {
      assert x + y == y;
    } else {
      assert (x + y)[1..] == x[1..] + y;
      TakenAppend(x[1..], y);
      if x[0].Finished? {
        CatIsAppend(x[0].pending, Taken(x[1..]));
        CatIsAppend(x[0].pending, Taken(x[1..] + y));
        Regroup(x[0].pending, Taken(x[1..]), Taken(y));
      }
    }
  }

  lemma {:induction false} TakenOne(turn: Turn)
    ensures Taken([turn]) == if turn.Got? then [turn.item] else if turn.Finished? then turn.pending else []
  {
    assert [turn][1..] == [];
  }

  /** A turn after which the loop goes on. */
  predicate GoesOn(turn: Turn) {
    turn.Quiet? || (turn.Got? && !Final(turn.item))
  }

  /** `a` is what is left of `b` when some items are left out. */
  ghost predicate Sub(a: seq<Item>, b: seq<Item>) {
    if b == [] then a == []
    else
      Sub(a, b[..|b| - 1]) || (a != [] && a[|a| - 1] == b[|b| - 1] && Sub(a[..|a| - 1], b[..|b| - 1]))
  }

  lemma {:induction false} SubSnoc(a: seq<Item>, b: seq<Item>, x: Item)
    requires Sub(a, b)
    ensures Sub(a, b + [x]) && Sub(a + [x], b + [x])
  {
    assert (b + [x])[..|b|] == b && (a + [x])[..|a|] == a;
  }

  ghost predicate NoFinals(items: seq<Item>) {
    forall i :: 0 <= i < |items| ==> !Final(items[i])
  }

  /** The final item, once pushed, is the last on the queue until it is taken. */
  ghost predicate FinalWaits(s: Exchange) {
    if s.done.None? then NoFinals(s.queue) && |s.queue| <= QUEUE_MAX - 1
    else s.queue != [] && NoFinals(s.queue[..|s.queue| - 1]) && Final(s.queue[|s.queue| - 1])
  }

  ghost predicate AllGoOn(turns: seq<Turn>) {
    forall i :: 0 <= i < |turns| ==> GoesOn(turns[i])
  }

  /** How the last turn ended the stream: cut short, or with the worker's final item. */
  ghost predicate EndsWell(s: Exchange, last: Turn) {
    && s.done.Some? && Taken(s.turns) == s.kept && s.kept != [] && Final(s.kept[|s.kept| - 1])
    && (last.Got? ==> Final(last.item))
    && (last.Finished? ==>
          last.pending != [] && Final(last.pending[|last.pending| - 1]) && NoFinals(last.pending[..|last.pending| - 1]))
    && (last.Got? || last.Finished?)
  }

  ghost predicate QueueInv(s: Exchange) {
    && Sub(s.kept, s.pushed) && (s.done.None? ==> NoFinals(s.kept))
    && if !s.ended then FinalWaits(s) && s.kept == Cat(Taken(s.turns), s.queue) && AllGoOn(s.turns)
       else
         && s.turns != [] && AllGoOn(s.turns[..|s.turns| - 1]) && Sub(Taken(s.turns), s.pushed)
         && (CutOff(s) || EndsWell(s, s.turns[|s.turns| - 1]))
  }

  ghost predicate CutOff(s: Exchange) {
    s.turns != [] && (s.turns[|s.turns| - 1].Failed? || s.turns[|s.turns| - 1].Deadline?)
  }

  lemma {:induction false} SubPrefix(a: seq<Item>, b: seq<Item>, c: seq<Item>)
    requires Sub(a + b, c)
    ensures Sub(a, c)
    decreases |b|, |c|
  {
    if b == [] {
      assert a + b == a;
    } else {
      assert (a + b)[..|a + b| - 1] == a + b[..|b| - 1];
      if Sub(a + b, c[..|c| - 1]) {
        SubPrefix(a, b, c[..|c| - 1]);
      } else {
        SubPrefix(a, b[..|b| - 1], c[..|c| - 1]);
      }
    }
  }

  lemma {:induction false} SendKeeps(s: Exchange, item: Item)
    requires QueueInv(s) && s.done.None?
    ensures Sub(Send(s, item).kept, Send(s, item).pushed)
    ensures !s.ended ==>
              var s' := Send(s, item);
              && s'.kept == Cat(Taken(s.turns), s'.queue)
              && (Final(item) ==> s'.queue == s.queue + [item])
              && (!Final(item) ==> NoFinals(s'.queue) && |s'.queue| <= QUEUE_MAX - 1)
    ensures s.ended ==> Sub(Taken(s.turns), Send(s, item).pushed)
  {
    SubSnoc(s.kept, s.pushed, item);
    if !s.ended {
      CatIsAppend(Taken(s.turns), s.queue);
      CatIsAppend(Taken(s.turns), s.queue + [item]);
      Regroup(Taken(s.turns), s.queue, [item]);
    } else {
      SubSnoc(Taken(s.turns), s.pushed, item);
    }
  }

  /** The first item on the queue is final only if it is the only one. */
  lemma {:induction false} HeadOfQueue(s: Exchange)
    requires FinalWaits(s) && s.queue != []
    ensures Final(s.queue[0]) ==> s.done.Some? && |s.queue| == 1
    ensures !Final(s.queue[0]) ==> FinalWaits(s.(queue := s.queue[1..]))
  {
    var q := s.queue;
    assert |q| > 1 ==> q[0] == q[..|q| - 1][0];
    if s.done.Some? && |q| > 1 {
      assert q[1..][..|q| - 2] == q[..|q| - 1][1..];
    }
  }

  lemma {:induction false} HeadTaken(s: Exchange)
    requires s.kept == Cat(Taken(s.turns), s.queue) && s.queue != []
    ensures s.kept == Cat(Taken(s.turns + [Got(s.queue[0])]), s.queue[1..])
  {
    var taken := Taken(s.turns + [Got(s.queue[0])]);
    TakenAppend(s.turns, [Got(s.queue[0])]);
    TakenOne(Got(s.queue[0]));
    CatIsAppend(Taken(s.turns), s.queue);
    CatIsAppend(taken, s.queue[1..]);
    assert s.queue == [s.queue[0]] + s.queue[1..];
    Regroup(Taken(s.turns), [s.queue[0]], s.queue[1..]);
  }

  lemma {:induction false} TakeKeeps(s: Exchange)
    requires QueueInv(s) && !s.ended && s.queue != []
    ensures QueueInv(Next(s, Take))
  {
    HeadOfQueue(s);
    HeadTaken(s);
    assert (s.turns + [Got(s.queue[0])])[..|s.turns|] == s.turns;
    if Final(s.queue[0]) {
      assert s.queue[1..] == [];
      assert s.kept[|s.kept| - 1] == s.queue[0] by {
        CatIsAppend(Taken(s.turns), s.queue);
      }
    }
  }

  lemma {:induction false} TimeOutKeeps(s: Exchange, now: real)
    requires QueueInv(s) && !s.ended
    ensures QueueInv(Next(s, TimeOut(now)))
  {
    var turn := if s.done.None? then Quiet(now) else Finished(now, s.queue, s.done);
    TakenAppend(s.turns, [turn]);
    TakenOne(turn);
    CatIsAppend(Taken(s.turns), s.queue);
    assert (s.turns + [turn])[..|s.turns|] == s.turns;
  }

  lemma {:induction false} CutShortKeeps(s: Exchange, deadline: bool)
    requires QueueInv(s) && !s.ended
    ensures QueueInv(Next(s, CutShort(deadline)))
  {
    var turn := if deadline then Deadline else Failed;
    TakenAppend(s.turns, [turn]);
    TakenOne(turn);
    CatIsAppend(Taken(s.turns), s.queue);
    assert Taken(s.turns) + [] == Taken(s.turns);
    SubPrefix(Taken(s.turns), s.queue, s.pushed);
    assert (s.turns + [turn])[..|s.turns|] == s.turns;
  }

  lemma {:induction false} ActKeeps(s: Exchange, act: Act)
    requires QueueInv(s)
    ensures QueueInv(Next(s, act))
  {
    match act {
      case Push(item) => {
        if s.done.None? {
          SendKeeps(s, item);
        }
      }
      case Finish(final, completed) => {
        if s.done.None? {
          SendKeeps(s, final);
        }
      }
      case Take => {
        if !s.ended && s.queue != [] {
          TakeKeeps(s);
        }
      }
      case TimeOut(now) => {
        if !s.ended {
          TimeOutKeeps(s, now);
        }
      }
      case CutShort(deadline) => {
        if !s.ended {
          CutShortKeeps(s, deadline);
        }
      }
    }
  }

  lemma {:induction false} RunInv(acts: seq<Act>)
    ensures QueueInv(RunActs(acts))
  {
    if acts != [] {
      RunInv(acts[..|acts| - 1]);
      ActKeeps(RunActs(acts[..|acts| - 1]), acts[|acts| - 1]);
    }
  }

  /** In every interleaving: the worker's final item, once pushed, is on the queue as long as
      the stream goes on, and is what ends the stream unless it is cut short; and what the
      stream took is what the worker pushed, in order, with at most some items left out. */
  lemma {:induction false} FinalNeverLost(acts: seq<Act>)
    ensures var s := RunActs(acts);
            && (!s.ended && s.done.Some? ==> s.queue != [] && Final(s.queue[|s.queue| - 1]))
            && (s.ended && !CutOff(s) ==> Taken(s.turns) != [] && Final(Taken(s.turns)[|Taken(s.turns)| - 1]))
            && Sub(Taken(s.turns), s.pushed)
  {
    RunInv(acts);
    var s := RunActs(acts);
    if !s.ended {
      CatIsAppend(Taken(s.turns), s.queue);
      SubPrefix(Taken(s.turns), s.queue, s.pushed);
    }
  }

  lemma {:induction false} WithoutTextAppend(a: seq<Item>, b: seq<Item>)
    ensures WithoutText(a + b) == WithoutText(a) + WithoutText(b)
  {
    if b == [] {
      assert a + b == a;
    } else {
      var init, last := b[..|b| - 1], b[|b| - 1];
      assert (a + b)[..|a + b| - 1] == a + init && (a + b)[|a + b| - 1] == last;
      WithoutTextAppend(a, init);
    }
  }

  /** What a full queue keeps when a final item needs room: everything that is not text. */
  lemma {:induction false} WithoutTextAt(q: seq<Item>, i: nat)
    requires i < |q|
    ensures q[i].kind == "text_delta" ==> WithoutText(q) == WithoutText(q[..i]) + WithoutText(q[i + 1..])
    ensures q[i].kind != "text_delta" ==> WithoutText(q) == WithoutText(q[..i]) + [q[i]] + WithoutText(q[i + 1..])
  {
    assert q == q[..i + 1] + q[i + 1..] && q[..i + 1][..i] == q[..i];
    WithoutTextAppend(q[..i + 1], q[i + 1..]);
  }

  /** In every interleaving, as long as the stream goes on: a final item always finds room,
      and any other is accepted exactly when fewer than 255 are waiting. */
  lemma {:induction false} AcceptedIff(acts: seq<Act>, item: Item, completed: Completed)
    requires !RunActs(acts).ended && RunActs(acts).done.None?
    ensures var s := RunActs(acts);
            var s' := RunActs(acts + [if item.kind in {"done", "error"} then Finish(item, completed) else Push(item)]);
            if item.kind in {"done", "error"} || |s.queue| < 255
            then s'.queue == s.queue + [item] && s'.kept == s.kept + [item]
            else s'.queue == s.queue && s'.kept == s.kept
  {
    RunInv(acts);
    var act := if item.kind in {"done", "error"} then Finish(item, completed) else Push(item);
    assert (acts + [act])[..|acts|] == acts;
  }

  // ----- Nothing is sent again -----

  lemma {:induction false} DrainsFinal(q: seq<Item>)
    requires q != [] && Final(q[|q| - 1])
    ensures DrainFrames(q).1
  {
    if !ItemFrames(q[0]).1 {
      DrainsFinal(q[1..]);
    }
  }

  lemma {:induction false} EndingBehind(x: seq<Turn>, y: seq<Turn>)
    requires AllGoOn(x)
    ensures EndingOf(x + y) == EndingOf(y) && TakenText(x + y) == AllText(Taken(x)) + TakenText(y)
  {
    if x == [] {
      assert x + y == y;
    } else {
      assert (x + y)[1..] == x[1..] + y && GoesOn(x[0]);
      EndingBehind(x[1..], y);
      if x[0].Got? {
        assert ([x[0].item] + Taken(x[1..]))[1..] == Taken(x[1..]);
        Regroup(ItemText(x[0].item), AllText(Taken(x[1..])), TakenText(y));
      }
    }
  }

  /** The text of a list of items. */
  function AllText(items: seq<Item>): string {
    if items == [] then "" else ItemText(items[0]) + AllText(items[1..])
  }

  lemma {:induction false} AllTextCat(x: seq<Item>, y: seq<Item>)
    ensures AllText(x + y) == AllText(x) + AllText(y)
  {
    if x == [] {
      assert x + y == y;
    } else {
      assert (x + y)[1..] == x[1..] + y;
      AllTextCat(x[1..], y);
      Regroup(ItemText(x[0]), AllText(x[1..]), AllText(y));
    }
  }

  lemma {:induction false} QueueTextIs(q: seq<Item>)
    requires q != [] && Final(q[|q| - 1]) && NoFinals(q[..|q| - 1])
    ensures QueueText(q) == AllText(q)
  {
    assert |q| > 1 ==> !Final(q[..|q| - 1][0]);
    if |q| == 1 {
      assert q[1..] == [];
    } else {
      assert q[1..][..|q| - 2] == q[..|q| - 1][1..];
      QueueTextIs(q[1..]);
    }
  }

  /** Over every interleaving with the worker's own last step, which leaves nothing between the
      log and the queue, the completion's text is never sent in addition. */
  lemma {:induction false} NothingResent(acts: seq<Act>)
    ensures EndingOf(RunActs(acts).turns) == None && Resent(RunActs(acts).turns) == ""
  {
    RunInv(acts);
    var s := RunActs(acts);
    if !s.ended {
      EndingBehind(s.turns, []);
      assert s.turns + [] == s.turns;
    } else {
      var init, last := s.turns[..|s.turns| - 1], s.turns[|s.turns| - 1];
      InitLast(s.turns);
      EndingBehind(init, [last]);
      assert [last][1..] == [];
      if last.Finished? {
        DrainsFinal(last.pending);
      }
    }
  }

  lemma {:induction false} TakenTextIs(acts: seq<Act>)
    ensures var s := RunActs(acts); TakenText(s.turns) == AllText(Taken(s.turns))
  {
    RunInv(acts);
    var s := RunActs(acts);
    if !s.ended {
      EndingBehind(s.turns, []);
      assert s.turns + [] == s.turns;
    } else {
      var init, last := s.turns[..|s.turns| - 1], s.turns[|s.turns| - 1];
      InitLast(s.turns);
      EndingBehind(init, [last]);
      TakenAppend(init, [last]);
      TakenOne(last);
      LastText(s, last);
      AllTextCat(Taken(init), Taken([last]));
    }
  }

  lemma {:induction false} LastText(s: Exchange, last: Turn)
    requires EndsWell(s, last) || last.Failed? || last.Deadline?
    ensures TakenText([last]) == AllText(Taken([last]))
  {
    TakenOne(last);
    if last.Got? {
      assert [last.item][1..] == [];
    } else if last.Finished? {
      QueueTextIs(last.pending);
    }
  }

  // ----- What the caller reads -----

  ghost predicate GoodAct(act: Act) {
    (act.Push? ==> GoodItem(act.item)) && (act.Finish? ==> GoodItem(act.final) && GoodExtras(act.completed.extras))
  }

  ghost predicate AllGood(s: Exchange) {
    && (forall i :: 0 <= i < |s.queue| ==> GoodItem(s.queue[i])) && (forall t :: t in s.turns ==> GoodTurn(t))
    && (s.done.Some? ==> GoodExtras(s.done.value.extras))
  }

  lemma {:induction false} WithoutTextMembers(q: seq<Item>)
    ensures forall x :: x in WithoutText(q) ==> x in q
  {
    if q != [] {
      WithoutTextMembers(q[..|q| - 1]);
    }
  }

  lemma {:induction false} StaysGood(s: Exchange, act: Act)
    requires AllGood(s) && GoodAct(act)
    ensures AllGood(Next(s, act))
  {
    WithoutTextMembers(s.queue);
    var s' := Next(s, act);
    if act.Push? || act.Finish? {
      forall i | 0 <= i < |s'.queue| ensures GoodItem(s'.queue[i]) {
        assert s'.queue[i] in s'.queue;
      }
    }
  }

  lemma {:induction false} RunGood(acts: seq<Act>)
    requires forall a :: a in acts ==> GoodAct(a)
    ensures AllGood(RunActs(acts))
  {
    if acts != [] {
      assert acts[|acts| - 1] in acts;
      RunGood(acts[..|acts| - 1]);
      StaysGood(RunActs(acts[..|acts| - 1]), acts[|acts| - 1]);
    }
  }

  /** The stream's frames carry exactly the text it took; and if it ended with the worker's
      final item and the queue refused nothing, that is the worker's whole text, once. */
  lemma {:induction false} TextSentOnce(acts: seq<Act>, start: real)
    requires forall a :: a in acts ==> GoodAct(a)
    ensures var s := RunActs(acts);
            && TextOf(Produce(s.turns, start).0) == AllText(Taken(s.turns))
            && (s.ended && !CutOff(s) && s.kept == s.pushed ==>
                  TextOf(Produce(s.turns, start).0) == AllText(s.pushed))
  {
    RunInv(acts);
    RunGood(acts);
    var s := RunActs(acts);
    TextSent(s.turns, start);
    NothingResent(acts);
    TakenTextIs(acts);
    assert TakenText(s.turns) + "" == TakenText(s.turns);
  }

  /** End to end: over any cutting the caller reads just that text. */
  lemma {:induction false} CallerReads(acts: seq<Act>, start: real, chunks: seq<string>, dump: Event -> string,
                                       parse: Parser)
    requires forall a :: a in acts ==> GoodAct(a)
    requires forall e: Event :: Inverse(e, dump, parse)
    requires Concat(chunks) == Encode(Dump(Produce(RunActs(acts).turns, start).0, dump))
    ensures CallsText(Session(Response(200, true), ChunkReads(chunks) + [Read(false, EndOfStream)], parse).0)
            == AllText(Taken(RunActs(acts).turns))
  {
    RunGood(acts);
    NothingResent(acts);
    TakenTextIs(acts);
    CallerText(RunActs(acts).turns, start, chunks, dump, parse);
  }
}
