/** The worker's text and what the caller gets to read of it. */
module SseContent {
  import opened Common
  import opened SseText
  import opened SseClient
  import opened SseTheorems
  import opened SseServer

  function EventText(e: Event): string {
    if e.kind == "text_delta" then e.body else ""
  }

  /** The text a list of frames carries. */
  function TextOf(frames: seq<Event>): string {
    if frames == [] then "" else EventText(frames[0]) + TextOf(frames[1..])
  }

  function ItemText(item: Item): string {
    if item.kind == "text_delta" then item.content else ""
  }

  /** The text among the items of a queue, up to one that ends the stream. */
  function QueueText(items: seq<Item>): string {
    if items == [] || ItemFrames(items[0]).1 then "" else ItemText(items[0]) + QueueText(items[1..])
  }

  /** All text the producer took off the queue. */
  function TakenText(turns: seq<Turn>): string {
    if turns == [] then ""
    else
      match turns[0]
      case Got(item) => if ItemFrames(item).1 then "" else ItemText(item) + TakenText(turns[1..])
      case Quiet(_) => TakenText(turns[1..])
      case Finished(_, pending, _) => QueueText(pending)
      case Failed => ""
      case Deadline => ""
  }

  /** How a run ends that gets to the completion in the event log: the text still on the queue
      by then, and the text of the completion. */
  datatype Ending = Ending(late: string, content: string)

  function EndingOf(turns: seq<Turn>): Option<Ending> {
    if turns == [] then None
    else
      match turns[0]
      case Got(item) => if ItemFrames(item).1 then None else EndingOf(turns[1..])
      case Quiet(_) => EndingOf(turns[1..])
      case Finished(_, pending, completed) =>
        if DrainFrames(pending).1 || completed.None? then None
        else Some(Ending(QueueText(pending), completed.value.content))
      case Failed => None
      case Deadline => None
  }

  /** What the completion sends in addition. */
  function Resent(turns: seq<Turn>): string {
    var end := EndingOf(turns);
    if end.Some? && end.value.late == "" then end.value.content else ""
  }

  lemma {:induction false} TextCat(x: seq<Event>, y: seq<Event>)
    ensures TextOf(Cat(x, y)) == TextOf(x) + TextOf(y)
  {
    CatIsAppend(x, y);
    if x != [] && y != [] {
      assert (x + y)[1..] == x[1..] + y;
      CatIsAppend(x[1..], y);
      TextCat(x[1..], y);
      Regroup(EventText(x[0]), TextOf(x[1..]), TextOf(y));
    }
  }

  lemma {:induction false} ExtrasText(extras: seq<Event>)
    requires GoodExtras(extras)
    ensures TextOf(extras) == ""
  {
    if extras != [] {
      assert extras[0] in extras;
      ExtrasText(extras[1..]);
    }
  }

  lemma {:induction false} FinalText(extras: seq<Event>)
    requires GoodExtras(extras)
    ensures TextOf(Cat(extras, [DONE])) == ""
  {
    TextCat(extras, [DONE]);
    ExtrasText(extras);
  }

  lemma {:induction false} ItemFramesText(item: Item)
    requires GoodItem(item)
    ensures TextOf(ItemFrames(item).0) == if ItemFrames(item).1 then "" else ItemText(item)
  {
    FinalText(item.extras);
  }

  lemma {:induction false} DrainText(pending: seq<Item>)
    requires forall i :: i in pending ==> GoodItem(i)
    ensures TextOf(DrainFrames(pending).0) == QueueText(pending)
    ensures !DrainFrames(pending).1 ==> (Streamed(pending) <==> QueueText(pending) != "")
  {
    if pending != [] {
      ItemFramesText(pending[0]);
      if !ItemFrames(pending[0]).1 {
        DrainText(pending[1..]);
        TextCat(ItemFrames(pending[0]).0, DrainFrames(pending[1..]).0);
        assert forall i :: 1 <= i < |pending| ==> pending[1..][i - 1] == pending[i];
      }
    }
  }

  lemma {:induction false} CompletedText(c: Completed, streamed: bool)
    requires GoodExtras(c.extras)
    ensures TextOf(CompletedFrames(Some(c), streamed)) == if streamed then "" else c.content
  {
    FinalText(c.extras);
    TextCat([Event("text_delta", c.content)], Cat(c.extras, [DONE]));
  }

  /** The last turn of a run that the log ended. */
  lemma {:induction false} FinishedText(turn: Turn, lastPing: real)
    requires turn.Finished? && GoodTurn(turn)
    ensures TextOf(Produce([turn], lastPing).0) == TakenText([turn]) + Resent([turn])
  {
    var drained := DrainFrames(turn.pending).0;
    DrainText(turn.pending);
    var tail := if DrainFrames(turn.pending).1 then drained
    else Cat(drained, CompletedFrames(turn.completed, Streamed(turn.pending)));
    TextCat(PingFrames(turn.now, lastPing), tail);
    if !DrainFrames(turn.pending).1 {
      TextCat(drained, CompletedFrames(turn.completed, Streamed(turn.pending)));
      if turn.completed.Some? {
        CompletedText(turn.completed.value, Streamed(turn.pending));
      }
    }
  }

  /** Every frame's text was taken off the queue, in order, or is the completion's. */
  lemma {:induction false} TextSent(turns: seq<Turn>, lastPing: real)
    requires forall t :: t in turns ==> GoodTurn(t)
    ensures TextOf(Produce(turns, lastPing).0) == TakenText(turns) + Resent(turns)
    decreases |turns|
  {
    if turns != [] {
      assert GoodTurn(turns[0]);
      match turns[0] {
        case Got(item) => {
          ItemFramesText(item);
          if !ItemFrames(item).1 {
            TextSent(turns[1..], lastPing);
            TextCat(ItemFrames(item).0, Produce(turns[1..], lastPing).0);
            Regroup(ItemText(item), TakenText(turns[1..]), Resent(turns[1..]));
          }
        }
        case Quiet(now) => {
          TextSent(turns[1..], PingClock(now, lastPing));
          TextCat(PingFrames(now, lastPing), Produce(turns[1..], PingClock(now, lastPing)).0);
        }
        case Finished(_, _, _) => {
          FinishedText(turns[0], lastPing);
        }
        case Failed => {}
        case Deadline => {}
      }
    }
  }

  /** In a run that ends with the completion the frames carry its text once exactly when all
      of it was streamed and some of that was still on the queue, or nothing was streamed. */
  lemma {:induction false} TextOnceIff(turns: seq<Turn>, lastPing: real)
    requires (forall t :: t in turns ==> GoodTurn(t)) && EndingOf(turns).Some?
    ensures var taken, end := TakenText(turns), EndingOf(turns).value;
            TextOf(Produce(turns, lastPing).0) == end.content <==>
              taken == "" || (taken == end.content && end.late != "")
  {
    TextSent(turns, lastPing);
    LateIsTaken(turns);
    var taken, end := TakenText(turns), EndingOf(turns).value;
    assert |taken + Resent(turns)| == |taken| + |Resent(turns)|;
  }

  lemma {:induction false} LateIsTaken(turns: seq<Turn>)
    ensures EndingOf(turns).Some? ==> |EndingOf(turns).value.late| <= |TakenText(turns)|
  {
    if turns != [] && (turns[0].Got? || turns[0].Quiet?) {
      LateIsTaken(turns[1..]);
    }
  }

  /** All text taken before the log said the chat was done: it is sent again. */
  lemma {:induction false} SentTwice()
    ensures var turns := [Got(Item("text_delta", "a", [])), Finished(0.0, [], Some(Completed("a", [])))];
            Produce(turns, 0.0).0 == [Event("text_delta", "a"), Event("text_delta", "a"), DONE]
            && TextOf(Produce(turns, 0.0).0) == "aa"
  {
    var turns := [Got(Item("text_delta", "a", [])), Finished(0.0, [], Some(Completed("a", [])))];
    assert turns[1..] == [turns[1]];
    assert DrainFrames([]) == ([], false);
    TextSent(turns, 0.0);
  }

  // ----- At the caller -----

  /** The text in what the caller is told. */
  function CallsText(calls: seq<Call>): string {
    if calls == [] then ""
    else
      var last := calls[|calls| - 1];
      CallsText(calls[..|calls| - 1]) + if last.OnEvent? then EventText(last.event) else ""
  }

  lemma {:induction false} VisibleText(frames: seq<Event>)
    ensures CallsText(Visible(frames)) == TextOf(frames)
  {
    if frames != [] {
      var init, last := frames[..|frames| - 1], frames[|frames| - 1];
      VisibleText(init);
      CatIsAppend(init, [last]);
      assert frames == init + [last];
      TextCat(init, [last]);
      if last.kind != "ping" {
        assert (Visible(init) + [OnEvent(last)])[..|Visible(init)|] == Visible(init);
      }
    }
  }

  /** End to end: the caller reads the text the producer took off the queue, and behind it the
      completion's text if there was any left to send. */
  lemma {:induction false} CallerText(turns: seq<Turn>, start: real, chunks: seq<string>,
                                      dump: Event -> string, parse: Parser)
    requires forall t :: t in turns ==> GoodTurn(t)
    requires forall e: Event :: Inverse(e, dump, parse)
    requires Concat(chunks) == Encode(Dump(Produce(turns, start).0, dump))
    ensures CallsText(Session(Response(200, true), ChunkReads(chunks) + [Read(false, EndOfStream)], parse).0)
            == TakenText(turns) + Resent(turns)
  {
    var frames := Produce(turns, start).0;
    EndToEnd(turns, start, chunks, dump, parse);
    VisibleText(frames);
    TextSent(turns, start);
  }

}
