/** The frame producer behind a chat session, and both ends together. */
module SseServer {
  import opened Common
  import opened SseText
  import opened SseClient
  import opened SseTheorems

  /** Something the chat worker put on the session's queue; `extras` are the frames its
      result adds in front of the final one (sources, a confirmation request). */
  datatype Item = Item(kind: string, content: string, extras: seq<Event>)

  /** A finished chat as the event log shows it. */
  datatype Completed = Completed(content: string, extras: seq<Event>)

  /** One turn of the producer's loop: an item in time; a timeout at clock reading `now`
      with, once the log says the chat is done, what was left on the queue and the logged
      completion if any; an exception; or the deadline. */
  datatype Turn =
    | Got(item: Item)
    | Quiet(now: real)
    | Finished(now: real, pending: seq<Item>, completed: Option<Completed>)
    | Failed
    | Deadline

  const PING := Event("ping", "")
  const DONE := Event("done", "")

  /** What a result adds in front of the final frame. */
  ghost predicate GoodExtras(extras: seq<Event>) {
    forall e :: e in extras ==> e.kind == "sources" || e.kind == "confirmation_required"
  }

  ghost predicate GoodItem(item: Item) {
    GoodExtras(item.extras)
  }

  ghost predicate GoodTurn(turn: Turn) {
    match turn
    case Got(item) => GoodItem(item)
    case Finished(_, pending, completed) =>
      (forall i :: i in pending ==> GoodItem(i)) && (completed.Some? ==> GoodExtras(completed.value.extras))
    case _ => true
  }

  /** The frames one queue item turns into, and whether they end the stream. */
  function ItemFrames(item: Item): (seq<Event>, bool) {
    if item.kind == "text_delta" && item.content != "" then ([Event("text_delta", item.content)], false)
    else if item.kind == "tool_call_start" || item.kind == "tool_result" then ([Event(item.kind, item.content)], false)
    else if item.kind == "done" then (Cat(item.extras, [DONE]), true)
    else if item.kind == "error" then ([Event("error", item.content)], true)
    else ([], false)
  }

  /** What was left on the queue, up to the first item that ends the stream. */
  function DrainFrames(pending: seq<Item>): (seq<Event>, bool) {
    if pending == [] then ([], false)
    else
      var (frames, ended) := ItemFrames(pending[0]);
      if ended then (frames, true)
      else
        var (more, done) := DrainFrames(pending[1..]);
        (Cat(frames, more), done)
  }

  predicate Streamed(pending: seq<Item>) {
    exists i :: 0 <= i < |pending| && pending[i].kind == "text_delta" && pending[i].content != ""
  }

  /** The frames for a chat the log reports as completed. */
  function CompletedFrames(completed: Option<Completed>, streamed: bool): seq<Event> {
    match completed
    case None => []
    case Some(c) =>
      Cat(if c.content != "" && !streamed then [Event("text_delta", c.content)] else [], Cat(c.extras, [DONE]))
  }

  function PingFrames(now: real, lastPing: real): seq<Event> {
    if now - lastPing >= 15.0 then [PING] else []
  }

  function PingClock(now: real, lastPing: real): real {
    if now - lastPing >= 15.0 then now else lastPing
  }

  /** Everything the producer writes, and whether the generator has returned. */
  function Produce(turns: seq<Turn>, lastPing: real): (seq<Event>, bool)
    decreases |turns|
  {
    if turns == [] then ([], false)
    else
      match turns[0]
      case Failed => ([Event("error", "An internal error occurred. Please try again.")], true)
      case Deadline => ([Event("error", "Chat request timed out")], true)
      case Got(item) =>
        var (frames, ended) := ItemFrames(item);
        if ended then (frames, true)
        else
          var (more, done) := Produce(turns[1..], lastPing);
          (Cat(frames, more), done)
      case Quiet(now) =>
        var (more, done) := Produce(turns[1..], PingClock(now, lastPing));
        (Cat(PingFrames(now, lastPing), more), done)
      case Finished(now, pending, completed) =>
        var (frames, ended) := DrainFrames(pending);
        (Cat(PingFrames(now, lastPing),
             if ended then frames else Cat(frames, CompletedFrames(completed, Streamed(pending)))), true)
  }

  method DrainQueue(pending: seq<Item>) returns (frames: seq<Event>, streamedText: bool, ended: bool)
    ensures (frames, ended) == DrainFrames(pending)
    ensures !ended ==> streamedText == Streamed(pending)
  {
    frames, streamedText, ended := [], false, false;
    for i := 0 to |pending|
      invariant !ended
      invariant streamedText == exists j :: 0 <= j < i && pending[j].kind == "text_delta" && pending[j].content != ""
      invariant var (more, done) := DrainFrames(pending[i..]);
                (Cat(frames, more), done) == DrainFrames(pending)
    {
      var item := pending[i];
      assert pending[i..][1..] == pending[i + 1..];
      var (now, done) := ItemFrames(item);
      CatAssoc(frames, now, DrainFrames(pending[i + 1..]).0);
      frames := Cat(frames, now);
      if item.kind == "text_delta" && item.content != "" {
        streamedText := true;
      }
      if done {
        ended := true;
        return;
      }
    }
    assert pending[|pending|..] == [];
  }

  /** The producer's loop. */
  method SseStream(turns: seq<Turn>, start: real) returns (frames: seq<Event>, returned: bool)
    ensures (frames, returned) == Produce(turns, start)
  {
    frames, returned := [], false;
    var lastPing := start;
    for i := 0 to |turns|
      invariant !returned
      invariant var (more, done) := Produce(turns[i..], lastPing);
                (Cat(frames, more), done) == Produce(turns, start)
    {
      assert turns[i..][1..] == turns[i + 1..];
      match turns[i]
      case Failed =>
        return Cat(frames, [Event("error", "An internal error occurred. Please try again.")]), true;
      case Deadline =>
        return Cat(frames, [Event("error", "Chat request timed out")]), true;
      case Got(item) =>
        var (now, ended) := ItemFrames(item);
        CatAssoc(frames, now, Produce(turns[i + 1..], lastPing).0);
        frames := Cat(frames, now);
        if ended {
          return frames, true;
        }
      case Quiet(now) =>
        CatAssoc(frames, PingFrames(now, lastPing), Produce(turns[i + 1..], PingClock(now, lastPing)).0);
        if now - lastPing >= 15.0 {
          frames := Cat(frames, [PING]);
          lastPing := now;
        }
      case Finished(now, pending, completed) =>
        var drained, streamedText, ended := DrainQueue(pending);
        var tail := if ended then drained else Cat(drained, CompletedFrames(completed, streamedText));
        return Cat(frames, Cat(PingFrames(now, lastPing), tail)), true;
    }
    assert turns[|turns|..] == [];
  }

  // ----- At most one final frame, and it is the last -----

  ghost predicate FinalLast(frames: seq<Event>) {
    forall i :: 0 <= i < |frames| - 1 ==> !IsTerminal(frames[i])
  }

  ghost predicate NoFinal(frames: seq<Event>) {
    forall i :: 0 <= i < |frames| ==> !IsTerminal(frames[i])
  }

  lemma {:induction false} FinalCat(x: seq<Event>, y: seq<Event>)
    requires NoFinal(x) && FinalLast(y)
    ensures FinalLast(Cat(x, y))
    ensures NoFinal(y) ==> NoFinal(Cat(x, y))
  {
    CatIsAppend(x, y);
  }

  lemma {:induction false} ItemFinal(item: Item)
    requires GoodItem(item)
    ensures FinalLast(ItemFrames(item).0) && (!ItemFrames(item).1 ==> NoFinal(ItemFrames(item).0))
  {
  }

  lemma {:induction false} DrainFinal(pending: seq<Item>)
    requires forall i :: i in pending ==> GoodItem(i)
    ensures FinalLast(DrainFrames(pending).0) && (!DrainFrames(pending).1 ==> NoFinal(DrainFrames(pending).0))
  {
    if pending != [] {
      ItemFinal(pending[0]);
      if !ItemFrames(pending[0]).1 {
        DrainFinal(pending[1..]);
        FinalCat(ItemFrames(pending[0]).0, DrainFrames(pending[1..]).0);
      }
    }
  }

  /** Whatever happens to the session, the producer writes at most one final frame, and
      nothing after it. */
  lemma {:induction false} ProduceFinalLast(turns: seq<Turn>, lastPing: real)
    requires forall t :: t in turns ==> GoodTurn(t)
    ensures FinalLast(Produce(turns, lastPing).0)
    decreases |turns|
  {
    if turns != [] {
      assert GoodTurn(turns[0]);
      match turns[0]
      case Failed =>
      case Deadline =>
      case Got(item) =>
        ItemFinal(item);
        if !ItemFrames(item).1 {
          ProduceFinalLast(turns[1..], lastPing);
          FinalCat(ItemFrames(item).0, Produce(turns[1..], lastPing).0);
        }
      case Quiet(now) =>
        ProduceFinalLast(turns[1..], PingClock(now, lastPing));
        FinalCat(PingFrames(now, lastPing), Produce(turns[1..], PingClock(now, lastPing)).0);
      case Finished(now, pending, completed) =>
        DrainFinal(pending);
        if DrainFrames(pending).1 {
          FinalCat(PingFrames(now, lastPing), DrainFrames(pending).0);
        } else {
          FinalCat(DrainFrames(pending).0, CompletedFrames(completed, Streamed(pending)));
          FinalCat(PingFrames(now, lastPing),
                   Cat(DrainFrames(pending).0, CompletedFrames(completed, Streamed(pending))));
        }
    }
  }

  // ----- Both ends together -----

  /** What the caller should see of a list of frames: all but the pings. */
  function Visible(frames: seq<Event>): seq<Call> {
    if frames == [] then []
    else if frames[|frames| - 1].kind == "ping" then Visible(frames[..|frames| - 1])
    else Visible(frames[..|frames| - 1]) + [OnEvent(frames[|frames| - 1])]
  }

  function Dump(frames: seq<Event>, dump: Event -> string): seq<string> {
    seq(|frames|, i requires 0 <= i < |frames| => dump(frames[i]))
  }

  /** json.dumps and JSON.parse fit together: what is written comes back, on one line that
      ends in no blank, and is never the `[DONE]` mark. */
  ghost predicate Inverse(e: Event, dump: Event -> string, parse: Parser) {
    Clean(dump(e)) && dump(e) != DONE_MARK && parse(dump(e)) == Some(e)
  }

  lemma {:induction false} DeliverFrames(frames: seq<Event>, dump: Event -> string, parse: Parser)
    requires FinalLast(frames) && forall i :: 0 <= i < |frames| ==> Inverse(frames[i], dump, parse)
    ensures Deliver(Dump(frames, dump), parse) ==
            if frames != [] && IsTerminal(frames[|frames| - 1]) then (Visible(frames) + [OnDone], true)
            else (Visible(frames), false)
  {
    if frames != [] {
      var init, last := frames[..|frames| - 1], frames[|frames| - 1];
      DeliverFrames(init, dump, parse);
      assert Dump(frames, dump)[..|frames| - 1] == Dump(init, dump);
      assert Inverse(last, dump, parse);
      assert init != [] ==> !IsTerminal(frames[|frames| - 2]);
      if IsTerminal(last) {
        CatIsAppend(Visible(init), [OnEvent(last), OnDone]);
        Regroup(Visible(init), [OnEvent(last)], [OnDone]);
        assert [OnEvent(last)] + [OnDone] == [OnEvent(last), OnDone];
      } else if last.kind != "ping" {
        CatIsAppend(Visible(init), [OnEvent(last)]);
      }
    }
  }

  /** End to end: whatever the worker does, and however the network cuts the stream, the
      caller sees every frame the server wrote except pings, in order, and then exactly one
      onDone. */
  lemma {:induction false} EndToEnd(turns: seq<Turn>, start: real, chunks: seq<string>,
                                    dump: Event -> string, parse: Parser)
    requires forall t :: t in turns ==> GoodTurn(t)
    requires forall e: Event :: Inverse(e, dump, parse)
    requires Concat(chunks) == Encode(Dump(Produce(turns, start).0, dump))
    ensures Session(Response(200, true), ChunkReads(chunks) + [Read(false, EndOfStream)], parse)
            == (Visible(Produce(turns, start).0) + [OnDone], true)
  {
    var frames := Produce(turns, start).0;
    ProduceFinalLast(turns, start);
    var payloads := Dump(frames, dump);
    forall p | p in payloads ensures Clean(p) {
      var i :| 0 <= i < |payloads| && payloads[i] == p;
      assert Inverse(frames[i], dump, parse);
    }
    DeliverFrames(frames, dump, parse);
    RoundTrip(payloads, chunks, parse);
    CatIsAppend(Visible(frames), [OnDone]);
  }
}
