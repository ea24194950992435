/** How a chat session ends and what it shows, said of the text received and of the first
    thing that interrupts it. */
module SseOutcome {
  import opened Common
  import opened SseText
  import opened SseClient

  // ----- One line -----

  /** What a line carries behind "data: ". */
  ghost function DataOf(line: string): Option<string> {
    var t := Trim(line);
    if |t| >= 6 && t[..6] == "data: " then Some(t[6..]) else None
  }

  lemma {:induction false} TrimStartIs(s: string) returns (i: nat)
    ensures i <= |s| && TrimStart(s) == s[i..] && (forall k :: 0 <= k < i ==> IsSpace(s[k]))
    ensures i < |s| ==> !IsSpace(s[i])
  {
    i := 0;
    if s != [] && IsSpace(s[0]) {
      i := TrimStartIs(s[1..]);
      i := i + 1;
    }
  }

  lemma {:induction false} TrimEndIs(s: string) returns (j: nat)
    ensures j <= |s| && TrimEnd(s) == s[..j] && (forall k :: j <= k < |s| ==> IsSpace(s[k]))
    ensures j > 0 ==> !IsSpace(s[j - 1])
  {
    j := |s|;
    if s != [] && IsSpace(s[|s| - 1]) {
      j := TrimEndIs(s[..|s| - 1]);
    }
  }

  /** Trimming takes the white space off both ends and nothing else. */
  lemma {:induction false} TrimIs(s: string) returns (i: nat, j: nat)
    ensures i <= j <= |s| && Trim(s) == s[i..j]
    ensures (forall k :: 0 <= k < i ==> IsSpace(s[k])) && forall k :: j <= k < |s| ==> IsSpace(s[k])
    ensures i < j ==> !IsSpace(s[i]) && !IsSpace(s[j - 1])
  {
    i := TrimStartIs(s);
    var n := TrimEndIs(s[i..]);
    j := i + n;
    forall k | j <= k < |s| ensures IsSpace(s[k]) {
      assert s[i..][k - i] == s[k];
    }
  }

  /** The line that says the answer is complete: the end mark, or a final event. */
  ghost predicate Ends(line: string, parse: Parser) {
    var data := DataOf(line);
    data.Some? && (data.value == "[DONE]"
                   || (parse(data.value).Some? && parse(data.value).value.kind in {"done", "error"}))
  }

  /** The event a line shows the caller: any that can be read, except pings. */
  ghost function ShownBy(line: string, parse: Parser): Option<Event> {
    var data := DataOf(line);
    if data.Some? && data.value != "[DONE]" && parse(data.value).Some? && parse(data.value).value.kind != "ping"
    then parse(data.value) else None
  }

  /** The events of a list of lines, none of those behind the first line that ends. */
  ghost function Shown(lines: seq<string>, parse: Parser): seq<Call> {
    if lines == [] then []
    else
      var first := match ShownBy(lines[0], parse) case Some(e) => [OnEvent(e)] case None => [];
      if Ends(lines[0], parse) then first else Cat(first, Shown(lines[1..], parse))
  }

  ghost predicate Ended(lines: seq<string>, parse: Parser) {
    exists i :: 0 <= i < |lines| && Ends(lines[i], parse)
  }

  // ----- The reads -----

  predicate Plain(r: Read) {
    !r.abortedBefore && r.end.Chunk?
  }

  /** Where the first read stands that is not just text. */
  ghost function Cut(script: seq<Read>): (c: nat)
    ensures c <= |script| && (c < |script| ==> !Plain(script[c])) && forall k :: 0 <= k < c ==> Plain(script[k])
  {
    if script == [] || !Plain(script[0]) then 0 else 1 + Cut(script[1..])
  }

  /** The text received before it. */
  ghost function Text(script: seq<Read>): string {
    if script == [] || !Plain(script[0]) then "" else script[0].end.text + Text(script[1..])
  }

  predicate Opened(fetch: Fetch) {
    fetch.Response? && 200 <= fetch.status < 300 && fetch.hasBody
  }

  /** The user's abort is seen by this read. */
  predicate Aborts(r: Read) {
    || r.abortedBefore || r.end == AbortThrown
    || (r.end.IdleTimeout? && r.end.aborted) || (r.end.ReadThrew? && r.end.aborted)
  }

  /** The text received says that the answer is complete. */
  ghost predicate Complete(script: seq<Read>, parse: Parser) {
    Ended(Lines(Text(script)), parse)
  }

  ghost predicate AbortEnds(fetch: Fetch, script: seq<Read>, parse: Parser) {
    || (fetch.FetchThrew? && fetch.aborted)
    || (Opened(fetch) && !Complete(script, parse) && Cut(script) < |script| && Aborts(script[Cut(script)]))
  }

  /** What went wrong, if that ended the session. */
  ghost function FailureOf(fetch: Fetch, script: seq<Read>, parse: Parser): Option<Failure> {
    match fetch
    case FetchThrew(aborted, message) => if aborted then None else Some(FetchFailed(message))
    case Response(status, hasBody) =>
      if status == 401 then Some(Unauthorized)
      else if status < 200 || status > 299 then Some(BadStatus(status))
      else if !hasBody then Some(EmptyBody)
      else if Complete(script, parse) || Cut(script) == |script| || Aborts(script[Cut(script)]) then None
      else
        match script[Cut(script)].end
        case IdleTimeout(_) => Some(IdleTooLong)
        case ReadThrew(_, message) => Some(ReadFailed(message))
        case _ => None
  }

  // ----- The lines -----

  lemma {:induction false} LineIs(line: string, parse: Parser)
    ensures LineCalls(line, parse).1 == Ends(line, parse)
    ensures LineCalls(line, parse).0 == Cat(match ShownBy(line, parse) case Some(e) => [OnEvent(e)] case None => [],
                                            if Ends(line, parse) then [OnDone] else [])
  {
    assert Payload(line) == DataOf(line);
  }

  lemma {:induction false} LinesAre(lines: seq<string>, parse: Parser)
    ensures LinesCalls(lines, parse) ==
            (Cat(Shown(lines, parse), if Ended(lines, parse) then [OnDone] else []), Ended(lines, parse))
  {
    if lines != [] {
      LineIs(lines[0], parse);
      EndedSplit([lines[0]], lines[1..], parse);
      assert lines == [lines[0]] + lines[1..];
      if !Ends(lines[0], parse) {
        LinesAre(lines[1..], parse);
        CatAssoc(LineCalls(lines[0], parse).0, Shown(lines[1..], parse),
                 if Ended(lines[1..], parse) then [OnDone] else []);
      }
    }
  }

  lemma {:induction false} EndedSplit(x: seq<string>, y: seq<string>, parse: Parser)
    ensures Ended(x + y, parse) <==> Ended(x, parse) || Ended(y, parse)
  {
    forall i | 0 <= i < |x| && Ends(x[i], parse) ensures Ends((x + y)[i], parse) {
    }
    forall i | 0 <= i < |y| && Ends(y[i], parse) ensures Ends((x + y)[|x| + i], parse) {
    }
  }

  lemma {:induction false} ShownSplit(x: seq<string>, y: seq<string>, parse: Parser)
    ensures Shown(Cat(x, y), parse) ==
            if Ended(x, parse) then Shown(x, parse) else Cat(Shown(x, parse), Shown(y, parse))
  {
    if x != [] {
      CatTail(x, y);
      EndedSplit([x[0]], x[1..], parse);
      assert x == [x[0]] + x[1..];
      if !Ends(x[0], parse) {
        ShownSplit(x[1..], y, parse);
        CatAssoc(match ShownBy(x[0], parse) case Some(e) => [OnEvent(e)] case None => [], Shown(x[1..], parse),
                 Shown(y, parse));
      }
    }
  }

  // ----- The session -----

  /** How the first read that is not just text closes the session. */
  ghost function ClosedBy(r: Read): seq<Call> {
    if Aborts(r) then [CancelChat, OnDone]
    else
      match r.end
      case IdleTimeout(_) => [OnError(IdleTooLong)]
      case ReadThrew(_, message) => [OnError(ReadFailed(message))]
      case _ => [OnDone]
  }

  ghost function ClosedAt(script: seq<Read>): seq<Call> {
    if Cut(script) < |script| then ClosedBy(script[Cut(script)]) else []
  }

  lemma {:induction false} LoopIs(buffer: string, script: seq<Read>, parse: Parser)
    requires OneLine(buffer)
    ensures var lines := Lines(buffer + Text(script));
            Loop(buffer, script, parse) ==
            (Cat(Shown(lines, parse), if Ended(lines, parse) then [OnDone] else ClosedAt(script)),
             Ended(lines, parse) || Cut(script) < |script|)
    decreases |script|
  {
    if script == [] || !Plain(script[0]) {
      assert buffer + Text(script) == buffer;
      OneLineSplit(buffer);
    } else {
      var text, rest := buffer + script[0].end.text, Text(script[1..]);
      Regroup(buffer, script[0].end.text, rest);
      SplitAppend(text, rest);
      RestIsOneLine(text);
      LoopIs(Rest(text), script[1..], parse);
      LinesAre(Lines(text), parse);
      var later := Lines(Rest(text) + rest);
      ShownSplit(Lines(text), later, parse);
      CatIsAppend(Lines(text), later);
      EndedSplit(Lines(text), later, parse);
      CatAssoc(Shown(Lines(text), parse), Shown(later, parse),
               if Ended(later, parse) then [OnDone] else ClosedAt(script[1..]));
    }
  }

  /** Over every fetch and every script: the events of the text received, up to the line that
      completes it; then a cancel and onDone if an abort ended the session, onError with the
      failure if one did, and onDone alone for every other ending. */
  lemma {:induction false} SessionIs(fetch: Fetch, script: seq<Read>, parse: Parser)
    ensures var failure := FailureOf(fetch, script, parse);
            var finished := !Opened(fetch) || Complete(script, parse) || Cut(script) < |script|;
            Session(fetch, script, parse) ==
            (Cat(if Opened(fetch) then Shown(Lines(Text(script)), parse) else [],
                 if AbortEnds(fetch, script, parse) then [CancelChat, OnDone]
                 else if failure.Some? then [OnError(failure.value)]
                 else if finished then [OnDone] else []), finished)
  {
    LoopIs([], script, parse);
    assert [] + Text(script) == Text(script);
  }

  lemma {:induction false} ShownAreEvents(lines: seq<string>, parse: Parser)
    ensures forall c :: c in Shown(lines, parse) ==> c.OnEvent?
  {
    if lines != [] {
      ShownAreEvents(lines[1..], parse);
      CatIsAppend(match ShownBy(lines[0], parse) case Some(e) => [OnEvent(e)] case None => [],
                  Shown(lines[1..], parse));
    }
  }

  /** Which ending makes which call. */
  lemma {:induction false} EndingCalls(fetch: Fetch, script: seq<Read>, parse: Parser)
    ensures var (calls, finished) := Session(fetch, script, parse);
            && (CancelChat in calls <==> AbortEnds(fetch, script, parse))
            && (forall f :: OnError(f) in calls <==> FailureOf(fetch, script, parse) == Some(f))
            && (OnDone in calls <==> finished && FailureOf(fetch, script, parse) == None)
  {
    SessionIs(fetch, script, parse);
    ShownAreEvents(Lines(Text(script)), parse);
    var shown := if Opened(fetch) then Shown(Lines(Text(script)), parse) else [];
    var calls := Session(fetch, script, parse).0;
    var tail := calls[|shown|..];
    CatIsAppend(shown, tail);
    assert calls == shown + tail;
  }
}
