/** The chat client's reader: chunks in, callbacks out. */
module SseClient {
  import opened Common
  import opened SseText

  datatype Event = Event(kind: string, body: string)

  /** What an error callback reports. */
  datatype Failure =
    | FetchFailed(message: string)
    | Unauthorized
    | BadStatus(status: int)
    | EmptyBody
    | IdleTooLong
    | ReadFailed(message: string)

  /** What the caller of `sendMessage` sees, in order. `CancelChat` is the cancel request an
      abort sends to the server. */
  datatype Call = OnEvent(event: Event) | CancelChat | OnDone | OnError(failure: Failure)

  /** JSON.parse: an event, or an exception. */
  type Parser = string -> Option<Event>

  /** How the initial request ends. */
  datatype Fetch =
    | FetchThrew(aborted: bool, message: string)
    | Response(status: int, hasBody: bool)

  /** How one guarded read ends. The flag on an exception says whether the signal was
      aborted by then. */
  datatype ReadEnd =
    | Chunk(text: string)
    | EndOfStream
    | IdleTimeout(aborted: bool)
    | AbortThrown
    | ReadThrew(aborted: bool, message: string)

  datatype Read = Read(abortedBefore: bool, end: ReadEnd)

  predicate IsTerminal(e: Event) {
    e.kind == "done" || e.kind == "error"
  }

  const PREFIX := "data: "
  const DONE_MARK := "[DONE]"

  /** The payload of a line, if the line carries one. */
  function Payload(line: string): Option<string> {
    var trimmed := Trim(line);
    if trimmed == [] || !(PREFIX <= trimmed) then None else Some(trimmed[|PREFIX|..])
  }

  /** The callbacks one payload leads to, and whether it ends the session. */
  function PayloadCalls(data: string, parse: Parser): (seq<Call>, bool) {
    if data == DONE_MARK then ([OnDone], true)
    else
      match parse(data)
      case None => ([], false)
      case Some(e) =>
        if IsTerminal(e) then ([OnEvent(e), OnDone], true)
        else if e.kind == "ping" then ([], false)
        else ([OnEvent(e)], false)
  }

  function LineCalls(line: string, parse: Parser): (seq<Call>, bool) {
    match Payload(line)
    case None => ([], false)
    case Some(data) => PayloadCalls(data, parse)
  }

  /** The callbacks of a list of lines: none of those behind the first that ends the session. */
  function LinesCalls(lines: seq<string>, parse: Parser): (seq<Call>, bool) {
    if lines == [] then ([], false)
    else
      var (calls, ended) := LineCalls(lines[0], parse);
      if ended then (calls, true)
      else
        var (more, done) := LinesCalls(lines[1..], parse);
        (Cat(calls, more), done)
  }

  lemma {:induction false} CatAssoc<T>(a: seq<T>, b: seq<T>, c: seq<T>)
    ensures Cat(Cat(a, b), c) == Cat(a, Cat(b, c))
  {
    if a != [] && b != [] && c != [] {
      Regroup(a, b, c);
    }
  }

  lemma {:induction false} CatTail<T>(x: seq<T>, y: seq<T>)
    requires x != []
    ensures Cat(x, y) != [] && Cat(x, y)[0] == x[0] && Cat(x, y)[1..] == Cat(x[1..], y)
  {
  }

  lemma {:induction false} LinesCallsCat(x: seq<string>, y: seq<string>, parse: Parser)
    ensures LinesCalls(Cat(x, y), parse) ==
            if LinesCalls(x, parse).1 then LinesCalls(x, parse)
            else (Cat(LinesCalls(x, parse).0, LinesCalls(y, parse).0), LinesCalls(y, parse).1)
  {
    if x != [] {
      CatTail(x, y);
      if !LineCalls(x[0], parse).1 {
        LinesCallsCat(x[1..], y, parse);
        CatAssoc(LineCalls(x[0], parse).0, LinesCalls(x[1..], parse).0, LinesCalls(y, parse).0);
      }
    }
  }

  /** One line, as the reading loop goes through it. */
  method TakeLine(line: string, parse: Parser) returns (calls: seq<Call>, ended: bool)
    ensures (calls, ended) == LineCalls(line, parse)
  {
    calls, ended := [], false;
    var trimmed := Trim(line);
    if trimmed == [] || !(PREFIX <= trimmed) {
      return;
    }
    var data := trimmed[|PREFIX|..];
    if data == DONE_MARK {
      return [OnDone], true;
    }
    match parse(data)
    case None =>
    case Some(event) =>
      if event.kind != "ping" {
        calls := [OnEvent(event)];
      }
      if event.kind == "done" || event.kind == "error" {
        assert [OnEvent(event)] + [OnDone] == [OnEvent(event), OnDone];
        calls := calls + [OnDone];
        ended := true;
      }
  }

  /** One read of text: append it, split, keep the unfinished line, go through the rest. */
  method TakeChunk(buffer: string, text: string, parse: Parser) returns (buffer': string, calls: seq<Call>, ended: bool)
    ensures (calls, ended) == LinesCalls(Lines(buffer + text), parse)
    ensures buffer' == Rest(buffer + text)
  {
    var pieces := Split(buffer + text);
    buffer' := pieces[|pieces| - 1];
    var lines := pieces[..|pieces| - 1];
    assert lines == Lines(buffer + text);
    calls, ended := [], false;
    for i := 0 to |lines|
      invariant !ended
      invariant var (more, done) := LinesCalls(lines[i..], parse);
                (Cat(calls, more), done) == LinesCalls(lines, parse)
    {
      assert lines[i..][1..] == lines[i + 1..];
      var now;
      now, ended := TakeLine(lines[i], parse);
      CatAssoc(calls, now, LinesCalls(lines[i + 1..], parse).0);
      calls := Cat(calls, now);
      if ended {
        return;
      }
    }
    assert lines[|lines|..] == [];
  }

  // ----- A whole session -----

  /** The callbacks of the read loop, and whether it has come to its end; a script that runs
      out leaves the session waiting for its next read. */
  function Loop(buffer: string, script: seq<Read>, parse: Parser): (seq<Call>, bool)
    decreases |script|
  {
    if script == [] then ([], false)
    else if script[0].abortedBefore then ([CancelChat, OnDone], true)
    else
      match script[0].end
      case EndOfStream => ([OnDone], true)
      case AbortThrown => ([CancelChat, OnDone], true)
      case IdleTimeout(aborted) =>
        if aborted then ([CancelChat, OnDone], true) else ([OnError(IdleTooLong)], true)
      case ReadThrew(aborted, message) =>
        if aborted then ([CancelChat, OnDone], true) else ([OnError(ReadFailed(message))], true)
      case Chunk(text) =>
        var (calls, ended) := LinesCalls(Lines(buffer + text), parse);
        if ended then (calls, true)
        else
          var (more, done) := Loop(Rest(buffer + text), script[1..], parse);
          (Cat(calls, more), done)
  }

  function Session(fetch: Fetch, script: seq<Read>, parse: Parser): (seq<Call>, bool) {
    match fetch
    case FetchThrew(aborted, message) =>
      if aborted then ([CancelChat, OnDone], true) else ([OnError(FetchFailed(message))], true)
    case Response(status, hasBody) =>
      if status == 401 then ([OnError(Unauthorized)], true)
      else if !(200 <= status < 300) then ([OnError(BadStatus(status))], true)
      else if !hasBody then ([OnError(EmptyBody)], true)
      else Loop([], script, parse)
  }

  method SendMessage(fetch: Fetch, script: seq<Read>, parse: Parser) returns (calls: seq<Call>, finished: bool)
    ensures (calls, finished) == Session(fetch, script, parse)
  {
    match fetch {
      case FetchThrew(aborted, message) =>
        if aborted {
          return [CancelChat, OnDone], true;
        }
        return [OnError(FetchFailed(message))], true;
      case Response(status, hasBody) =>
        if status == 401 {
          return [OnError(Unauthorized)], true;
        }
        if !(200 <= status < 300) {
          return [OnError(BadStatus(status))], true;
        }
        if !hasBody {
          return [OnError(EmptyBody)], true;
        }
    }
    calls, finished := [], false;
    var buffer := "";
    for i := 0 to |script|
      invariant !finished
      invariant var (more, done) := Loop(buffer, script[i..], parse);
                (Cat(calls, more), done) == Loop([], script, parse)
    {
      assert script[i..][1..] == script[i + 1..];
      if script[i].abortedBefore {
        return Cat(calls, [CancelChat, OnDone]), true;
      }
      match script[i].end
      case EndOfStream => return Cat(calls, [OnDone]), true;
      case AbortThrown => return Cat(calls, [CancelChat, OnDone]), true;
      case IdleTimeout(aborted) =>
        return Cat(calls, if aborted then [CancelChat, OnDone] else [OnError(IdleTooLong)]), true;
      case ReadThrew(aborted, message) =>
        return Cat(calls, if aborted then [CancelChat, OnDone] else [OnError(ReadFailed(message))]), true;
      case Chunk(text) =>
        var buffer', new_, ended := TakeChunk(buffer, text, parse);
        CatAssoc(calls, new_, Loop(buffer', script[i + 1..], parse).0);
        calls := Cat(calls, new_);
        if ended {
          return calls, true;
        }
        buffer := buffer';
    }
    assert script[|script|..] == [];
  }
}
