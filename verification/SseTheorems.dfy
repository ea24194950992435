/** What a chat session delivers: once, in order, however the network cuts it up. */
module SseTheorems {
  import opened Common
  import opened SseText
  import opened SseClient

  // ----- One ending -----

  predicate Closing(c: Call) {
    c.OnDone? || c.OnError?
  }

  /** Events, then at most one cancel request with its OnDone, and exactly one closing call. */
  ghost predicate EndedOnce(calls: seq<Call>) {
    && calls != [] && Closing(calls[|calls| - 1])
    && forall i :: 0 <= i < |calls| - 1 ==>
         calls[i].OnEvent? || (calls[i].CancelChat? && i == |calls| - 2 && calls[|calls| - 1].OnDone?)
  }

  ghost predicate OnlyEvents(calls: seq<Call>) {
    forall i :: 0 <= i < |calls| ==> calls[i].OnEvent?
  }

  ghost predicate ShapeOf(calls: seq<Call>, ended: bool) {
    if ended then EndedOnce(calls) else OnlyEvents(calls)
  }

  lemma {:induction false} LinesShape(lines: seq<string>, parse: Parser)
    ensures ShapeOf(LinesCalls(lines, parse).0, LinesCalls(lines, parse).1)
  {
    if lines != [] && !LineCalls(lines[0], parse).1 {
      LinesShape(lines[1..], parse);
    }
  }

  lemma {:induction false} LoopShape(buffer: string, script: seq<Read>, parse: Parser)
    ensures ShapeOf(Loop(buffer, script, parse).0, Loop(buffer, script, parse).1)
    decreases |script|
  {
    if script != [] && !script[0].abortedBefore && script[0].end.Chunk? {
      var lines, rest := Lines(buffer + script[0].end.text), Rest(buffer + script[0].end.text);
      LinesShape(lines, parse);
      LoopShape(rest, script[1..], parse);
    }
  }

  /** Over every run exactly one of onDone and onError is called, once, as the last thing;
      a run still waiting has only delivered events. */
  lemma {:induction false} SessionEndsOnce(fetch: Fetch, script: seq<Read>, parse: Parser)
    ensures var (calls, finished) := Session(fetch, script, parse);
            if finished then EndedOnce(calls) else OnlyEvents(calls)
  {
    LoopShape([], script, parse);
  }

  lemma {:induction false} LoopDeaf(buffer: string, script: seq<Read>, more: seq<Read>, parse: Parser)
    requires Loop(buffer, script, parse).1
    ensures Loop(buffer, script + more, parse) == Loop(buffer, script, parse)
    decreases |script|
  {
    assert (script + more)[0] == script[0] && (script + more)[1..] == script[1..] + more;
    if !script[0].abortedBefore && script[0].end.Chunk? && !LinesCalls(Lines(buffer + script[0].end.text), parse).1 {
      LoopDeaf(Rest(buffer + script[0].end.text), script[1..], more, parse);
    }
  }

  /** Once ended, whatever the network does next calls nobody. */
  lemma {:induction false} SessionDeafAfterEnd(fetch: Fetch, script: seq<Read>, more: seq<Read>, parse: Parser)
    requires Session(fetch, script, parse).1
    ensures Session(fetch, script + more, parse) == Session(fetch, script, parse)
  {
    if fetch.Response? && 200 <= fetch.status < 300 && fetch.hasBody {
      LoopDeaf([], script, more, parse);
    }
  }

  // ----- Chunks do not matter -----

  function ChunkReads(chunks: seq<string>): seq<Read> {
    if chunks == [] then [] else [Read(false, Chunk(chunks[0]))] + ChunkReads(chunks[1..])
  }

  lemma {:induction false} LoopChunks(buffer: string, chunks: seq<string>, last: Read, parse: Parser)
    requires OneLine(buffer)
    ensures var text := buffer + Concat(chunks);
            Loop(buffer, ChunkReads(chunks) + [last], parse) ==
            if LinesCalls(Lines(text), parse).1 then LinesCalls(Lines(text), parse)
            else (Cat(LinesCalls(Lines(text), parse).0, Loop(Rest(text), [last], parse).0),
                  Loop(Rest(text), [last], parse).1)
    decreases |chunks|
  {
    if chunks == [] {
      assert ChunkReads(chunks) + [last] == [last];
      assert buffer + Concat(chunks) == buffer;
      OneLineSplit(buffer);
    } else {
      var first, rest := chunks[0], Concat(chunks[1..]);
      var s := ChunkReads(chunks) + [last];
      assert s[0] == Read(false, Chunk(first)) && s[1..] == ChunkReads(chunks[1..]) + [last];
      Regroup(buffer, first, rest);
      SplitAppend(buffer + first, rest);
      RestIsOneLine(buffer + first);
      LoopChunks(Rest(buffer + first), chunks[1..], last, parse);
      LinesCallsCat(Lines(buffer + first), Lines(Rest(buffer + first) + rest), parse);
      CatAssoc(LinesCalls(Lines(buffer + first), parse).0,
               LinesCalls(Lines(Rest(buffer + first) + rest), parse).0,
               Loop(Rest(Rest(buffer + first) + rest), [last], parse).0);
    }
  }

  /** A session depends on the text it receives and how it ends, not on where it was cut. */
  lemma {:induction false} ChunkInvariance(a: seq<string>, b: seq<string>, last: Read, parse: Parser)
    requires Concat(a) == Concat(b)
    ensures Session(Response(200, true), ChunkReads(a) + [last], parse)
            == Session(Response(200, true), ChunkReads(b) + [last], parse)
  {
    LoopChunks([], a, last, parse);
    LoopChunks([], b, last, parse);
  }

  // ----- Frames round-trip -----

  /** One `data` frame as the server writes it. */
  function Frame(payload: string): string {
    PREFIX + payload + "\n\n"
  }

  function Encode(payloads: seq<string>): string {
    if payloads == [] then [] else Encode(payloads[..|payloads| - 1]) + Frame(payloads[|payloads| - 1])
  }

  /** A payload that survives: something on one line that does not end in white space. */
  predicate Clean(payload: string) {
    OneLine(payload) && payload != [] && !IsSpace(payload[|payload| - 1])
  }

  lemma {:induction false} TrimEndShorter(s: string)
    ensures TrimEnd(s) <= s
    ensures TrimEnd(s) == s <==> s == [] || !IsSpace(s[|s| - 1])
  {
    if s != [] && IsSpace(s[|s| - 1]) {
      TrimEndShorter(s[..|s| - 1]);
    }
  }

  /** The client reads a framed line back exactly when its payload does not end in blanks. */
  lemma {:induction false} PayloadExactIff(payload: string)
    ensures Payload(PREFIX + payload) == Some(payload) <==> payload != [] && !IsSpace(payload[|payload| - 1])
  {
    var line := PREFIX + payload;
    assert line[0] == 'd' && !IsSpace('d');
    TrimEndShorter(line);
    assert line[|PREFIX|..] == payload;
    if payload != [] {
      assert line[|line| - 1] == payload[|payload| - 1];
    } else {
      assert line[|line| - 1] == ' ';
    }
    if Trim(line) != line && PREFIX <= Trim(line) {
      assert |Trim(line)[|PREFIX|..]| < |payload|;
    }
  }

  /** The callbacks of a list of payloads, the first terminal one being the last. */
  function Deliver(payloads: seq<string>, parse: Parser): (seq<Call>, bool) {
    if payloads == [] then ([], false)
    else
      var (before, ended) := Deliver(payloads[..|payloads| - 1], parse);
      if ended then (before, true)
      else
        var (calls, now) := PayloadCalls(payloads[|payloads| - 1], parse);
        (Cat(before, calls), now)
  }

  lemma {:induction false} EncodeLines(payloads: seq<string>)
    requires forall p :: p in payloads ==> Clean(p)
    ensures Rest(Encode(payloads)) == []
    ensures payloads != [] ==>
              Lines(Encode(payloads)) ==
              Lines(Encode(payloads[..|payloads| - 1])) + [PREFIX + payloads[|payloads| - 1]] + [[]]
  {
    if payloads != [] {
      var init, p := payloads[..|payloads| - 1], payloads[|payloads| - 1];
      InitLast(payloads);
      EncodeLines(init);
      var x := Encode(init);
      assert p in payloads && OneLine(PREFIX);
      forall c | c in PREFIX + p ensures c in PREFIX || c in p {
      }
      LineAppended(x, PREFIX + p);
      LineAppended(x + ((PREFIX + p) + "\n"), []);
      assert Encode(payloads) == (x + ((PREFIX + p) + "\n")) + ([] + "\n");
    }
  }

  lemma {:induction false} LinesCallsSnoc(lines: seq<string>, line: string, parse: Parser)
    ensures LinesCalls(lines + [line], parse) ==
            if LinesCalls(lines, parse).1 then LinesCalls(lines, parse)
            else (Cat(LinesCalls(lines, parse).0, LineCalls(line, parse).0), LineCalls(line, parse).1)
  {
    CatIsAppend(lines, [line]);
    LinesCallsCat(lines, [line], parse);
    assert LinesCalls([line][1..], parse) == ([], false);
  }

  lemma {:induction false} EncodedCalls(payloads: seq<string>, parse: Parser)
    requires forall p :: p in payloads ==> Clean(p)
    ensures LinesCalls(Lines(Encode(payloads)), parse) == Deliver(payloads, parse)
  {
    if payloads != [] {
      var init, p := payloads[..|payloads| - 1], payloads[|payloads| - 1];
      InitLast(payloads);
      assert p in payloads && forall q :: q in init ==> q in payloads;
      EncodedCalls(init, parse);
      EncodeLines(payloads);
      PayloadExactIff(p);
      var before := Lines(Encode(init));
      LinesCallsSnoc(before, PREFIX + p, parse);
      LinesCallsSnoc(before + [PREFIX + p], [], parse);
    }
  }

  /** Frames cut into any chunks and read to the end of the stream: the client delivers the
      payloads in order up to the first terminal one, and then is done, once. */
  lemma {:induction false} RoundTrip(payloads: seq<string>, chunks: seq<string>, parse: Parser)
    requires forall p :: p in payloads ==> Clean(p)
    requires Concat(chunks) == Encode(payloads)
    ensures Session(Response(200, true), ChunkReads(chunks) + [Read(false, EndOfStream)], parse) ==
            (if Deliver(payloads, parse).1 then Deliver(payloads, parse).0
                else Cat(Deliver(payloads, parse).0, [OnDone]), true)
  {
    LoopChunks([], chunks, Read(false, EndOfStream), parse);
    assert [] + Concat(chunks) == Encode(payloads);
    EncodedCalls(payloads, parse);
  }
}
