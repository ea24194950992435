/** What the caller of a chat is shown, said of the items put on the queue and of the turn
    that ended the stream. */
module SseFrames {
  import opened Common
  import opened SseText
  import opened SseClient
  import opened SseTheorems
  import opened SseServer

  function Calls(events: seq<Event>): seq<Call> {
    if events == [] then [] else [OnEvent(events[0])] + Calls(events[1..])
  }

  ghost predicate Final(item: Item) {
    item.kind in {"done", "error"}
  }

  /** What one item shows: text and tool news as they are, the extras of a result and the end
      of the answer, or the worker's error. */
  ghost function ItemShown(item: Item): seq<Call> {
    match item
    case Item("done", _, extras) => Cat(Calls(extras), [OnEvent(Event("done", ""))])
    case Item("error", content, _) => [OnEvent(Event("error", content))]
    case Item(kind, content, _) =>
      if kind in {"tool_call_start", "tool_result"} || (kind == "text_delta" && content != "")
      then [OnEvent(Event(kind, content))] else []
  }

  /** Items in order, none of those behind the first final one. */
  ghost function ItemsShown(items: seq<Item>): seq<Call> {
    if items == [] then []
    else if Final(items[0]) then ItemShown(items[0])
    else Cat(ItemShown(items[0]), ItemsShown(items[1..]))
  }

  ghost predicate HasFinal(items: seq<Item>) {
    exists i :: 0 <= i < |items| && Final(items[i])
  }

  /** The items taken off the queue before the first turn that ends the stream by itself, and
      those still on the queue when the log says the chat is over. */
  ghost function Offered(turns: seq<Turn>): seq<Item> {
    if turns == [] then []
    else
      match turns[0]
      case Got(item) => Cat([item], Offered(turns[1..]))
      case Quiet(_) => Offered(turns[1..])
      case Finished(_, pending, _) => pending
      case _ => []
  }

  /** The first turn that ends the stream whatever was on the queue. */
  ghost function LastTurn(turns: seq<Turn>): Option<Turn> {
    if turns == [] then None
    else if turns[0].Got? || turns[0].Quiet? then LastTurn(turns[1..])
    else Some(turns[0])
  }

  /** What such a turn shows once the queue has yielded no final item. */
  ghost function TurnShown(turn: Option<Turn>): seq<Call> {
    match turn
    case Some(Failed) => [OnEvent(Event("error", "An internal error occurred. Please try again."))]
    case Some(Deadline) => [OnEvent(Event("error", "Chat request timed out"))]
    case Some(Finished(_, pending, Some(c))) =>
      var unsent := c.content != "" && forall i :: i in pending ==> i.kind != "text_delta" || i.content == "";
      Cat(if unsent then [OnEvent(Event("text_delta", c.content))] else [],
          Cat(Calls(c.extras), [OnEvent(Event("done", ""))]))
    case _ => []
  }

  lemma {:induction false} VisibleCat(x: seq<Event>, y: seq<Event>)
    ensures Visible(Cat(x, y)) == Cat(Visible(x), Visible(y))
  {
    CatIsAppend(x, y);
    if y != [] {
      var init, last := y[..|y| - 1], y[|y| - 1];
      assert (x + y)[..|x + y| - 1] == x + init && (x + y)[|x + y| - 1] == last;
      CatIsAppend(x, init);
      VisibleCat(x, init);
      if last.kind != "ping" {
        CatIsAppend(Visible(x), Visible(init));
        Regroup(Visible(x), Visible(init), [OnEvent(last)]);
      }
    }
  }

  lemma {:induction false} VisibleOne(e: Event)
    ensures Visible([e]) == if e.kind == "ping" then [] else [OnEvent(e)]
  {
    assert [e][..0] == [];
  }

  lemma {:induction false} VisibleExtras(extras: seq<Event>)
    requires GoodExtras(extras)
    ensures Visible(extras) == Calls(extras)
  {
    if extras != [] {
      assert extras[0] in extras;
      assert forall e :: e in extras[1..] ==> e in extras;
      VisibleExtras(extras[1..]);
      CatIsAppend([extras[0]], extras[1..]);
      assert extras == [extras[0]] + extras[1..];
      VisibleCat([extras[0]], extras[1..]);
      VisibleOne(extras[0]);
    }
  }

  lemma {:induction false} FinalVisible(extras: seq<Event>)
    requires GoodExtras(extras)
    ensures Visible(Cat(extras, [DONE])) == Cat(Calls(extras), [OnEvent(Event("done", ""))])
  {
    VisibleCat(extras, [DONE]);
    VisibleExtras(extras);
    VisibleOne(DONE);
  }

  lemma {:induction false} ItemIs(item: Item)
    requires GoodItem(item)
    ensures Visible(ItemFrames(item).0) == ItemShown(item) && ItemFrames(item).1 == Final(item)
  {
    if item.kind == "done" {
      FinalVisible(item.extras);
    } else {
      VisibleOne(Event(item.kind, item.content));
    }
  }

  lemma {:induction false} HasFinalFirst(items: seq<Item>)
    requires items != []
    ensures HasFinal(items) <==> Final(items[0]) || HasFinal(items[1..])
  {
    if i :| 0 <= i < |items| && Final(items[i]) {
      assert i > 0 ==> items[1..][i - 1] == items[i];
    }
    if i :| 0 <= i < |items[1..]| && Final(items[1..][i]) {
      assert items[i + 1] == items[1..][i];
    }
  }

  lemma {:induction false} DrainIs(pending: seq<Item>)
    requires forall i :: i in pending ==> GoodItem(i)
    ensures Visible(DrainFrames(pending).0) == ItemsShown(pending) && DrainFrames(pending).1 == HasFinal(pending)
  {
    if pending != [] {
      ItemIs(pending[0]);
      HasFinalFirst(pending);
      if !Final(pending[0]) {
        DrainIs(pending[1..]);
        VisibleCat(ItemFrames(pending[0]).0, DrainFrames(pending[1..]).0);
      }
    }
  }

  lemma {:induction false} CompletionIs(c: Completed, streamed: bool)
    requires GoodExtras(c.extras)
    ensures Visible(CompletedFrames(Some(c), streamed)) ==
            Cat(if c.content != "" && !streamed then [OnEvent(Event("text_delta", c.content))] else [],
                Cat(Calls(c.extras), [OnEvent(Event("done", ""))]))
  {
    FinalVisible(c.extras);
    if c.content != "" && !streamed {
      VisibleCat([Event("text_delta", c.content)], Cat(c.extras, [DONE]));
      VisibleOne(Event("text_delta", c.content));
    }
  }

  lemma {:induction false} CompletedIs(now: real, pending: seq<Item>, completed: Option<Completed>)
    requires completed.Some? ==> GoodExtras(completed.value.extras)
    ensures Visible(CompletedFrames(completed, Streamed(pending))) == TurnShown(Some(Finished(now, pending, completed)))
  {
    if completed.Some? {
      CompletionIs(completed.value, Streamed(pending));
      StreamedIs(pending);
    }
  }

  lemma {:induction false} StreamedIs(pending: seq<Item>)
    ensures Streamed(pending) <==> !forall i :: i in pending ==> i.kind != "text_delta" || i.content == ""
  {
    if !forall i :: i in pending ==> i.kind != "text_delta" || i.content == "" {
      var i :| i in pending && i.kind == "text_delta" && i.content != "";
      var k :| 0 <= k < |pending| && pending[k] == i;
    }
  }

  lemma {:induction false} FinishedIs(turn: Turn, lastPing: real)
    requires turn.Finished? && GoodTurn(turn)
    ensures Visible(Produce([turn], lastPing).0) ==
            Cat(ItemsShown(turn.pending), if HasFinal(turn.pending) then [] else TurnShown(Some(turn)))
  {
    DrainIs(turn.pending);
    CompletedIs(turn.now, turn.pending, turn.completed);
    var completion := CompletedFrames(turn.completed, Streamed(turn.pending));
    var tail := if DrainFrames(turn.pending).1 then DrainFrames(turn.pending).0
    else Cat(DrainFrames(turn.pending).0, completion);
    VisibleCat(DrainFrames(turn.pending).0, completion);
    VisibleCat(PingFrames(turn.now, lastPing), tail);
    VisibleOne(PING);
  }

  /** Whatever the turns: apart from pings the frames show the items taken, up to the first
      final one, and if there is none what the turn shows that ended the stream. */
  lemma {:induction false} FramesAre(turns: seq<Turn>, lastPing: real)
    requires forall t :: t in turns ==> GoodTurn(t)
    ensures var items := Offered(turns);
            && Visible(Produce(turns, lastPing).0) ==
               Cat(ItemsShown(items), if HasFinal(items) then [] else TurnShown(LastTurn(turns)))
            && Produce(turns, lastPing).1 == (HasFinal(items) || LastTurn(turns).Some?)
    decreases |turns|
  {
    if turns != [] {
      assert GoodTurn(turns[0]);
      var rest := turns[1..];
      match turns[0] {
        case Got(item) => {
          ItemIs(item);
          HasFinalFirst(Offered(turns));
          CatTail([item], Offered(rest));
          if !Final(item) {
            FramesAre(rest, lastPing);
            VisibleCat(ItemFrames(item).0, Produce(rest, lastPing).0);
            CatAssoc(ItemShown(item), ItemsShown(Offered(rest)),
                     if HasFinal(Offered(rest)) then [] else TurnShown(LastTurn(rest)));
          }
        }
        case Quiet(now) => {
          FramesAre(rest, PingClock(now, lastPing));
          VisibleCat(PingFrames(now, lastPing), Produce(rest, PingClock(now, lastPing)).0);
          VisibleOne(PING);
        }
        case Finished(_, _, _) => {
          FinishedIs(turns[0], lastPing);
        }
        case Failed => {
          VisibleOne(Event("error", "An internal error occurred. Please try again."));
        }
        case Deadline => {
          VisibleOne(Event("error", "Chat request timed out"));
        }
      }
    }
  }

  /** End to end, over any cutting: the caller is shown exactly that, and then onDone. */
  lemma {:induction false} CallerIsShown(turns: seq<Turn>, start: real, chunks: seq<string>, dump: Event -> string,
                                         parse: Parser)
    requires forall t :: t in turns ==> GoodTurn(t)
    requires forall e: Event :: Inverse(e, dump, parse)
    requires Concat(chunks) == Encode(Dump(Produce(turns, start).0, dump))
    ensures var items := Offered(turns);
            Session(Response(200, true), ChunkReads(chunks) + [Read(false, EndOfStream)], parse)
            == (Cat(ItemsShown(items), if HasFinal(items) then [] else TurnShown(LastTurn(turns))) + [OnDone], true)
  {
    EndToEnd(turns, start, chunks, dump, parse);
    FramesAre(turns, start);
  }
}
