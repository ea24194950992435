/** What a list of policy events amounts to, read off the events and not event by event, and
    which aggregates compaction drops. */
module PolicyMeaning {
  import opened Common
  import opened PolicyLog
  import opened Compaction
  import opened CompactionIds

  /** The event the state starts from: the last creation, or the first event if there is none. */
  ghost predicate IsBase(evts: seq<Row>, b: int) {
    && 0 <= b < |evts| && (forall j :: b < j < |evts| ==> !evts[j].kind.PolicyCreated?)
    && (evts[b].kind.PolicyCreated? || b == 0)
  }

  predicate SetsStatus(e: Row) {
    Get(e.payload, "status", Null) == Str("revoked") || Get(e.payload, "status", Null) == Str("active")
  }

  predicate SetsRisk(e: Row) {
    "risk_level" in e.payload && Get(e.payload, "status", Null) != Str("revoked")
  }

  /** The status to start from: a creation is active, an orphan update may name one. */
  function StartStatus(e: Row): Value {
    var status := Get(e.payload, "status", Null);
    if e.kind.PolicyCreated? || status == Null || status == Str("") || status == Bool(false) || status == Int(0)
       || (status.Other? && !status.nonEmpty)
    then Str("active")
    else status
  }

  /** The last of the first `n` events that sets the status and stands behind `b`, or `b`. */
  function LastStatus(evts: seq<Row>, b: int, n: int): (j: int)
    requires 0 <= b < n <= |evts|
    ensures b <= j < n && (j == b || SetsStatus(evts[j])) && forall k :: j < k < n ==> !SetsStatus(evts[k])
    decreases n
  {
    if n == b + 1 then b else if SetsStatus(evts[n - 1]) then n - 1 else LastStatus(evts, b, n - 1)
  }

  function LastRisk(evts: seq<Row>, b: int, n: int): (j: int)
    requires 0 <= b < n <= |evts|
    ensures b <= j < n && (j == b || SetsRisk(evts[j])) && forall k :: j < k < n ==> !SetsRisk(evts[k])
    decreases n
  {
    if n == b + 1 then b else if SetsRisk(evts[n - 1]) then n - 1 else LastRisk(evts, b, n - 1)
  }

  lemma {:induction false} LastLocal(x: seq<Row>, y: seq<Row>, b: int, n: int)
    requires 0 <= b < n <= |x| <= |y| && x == y[..|x|]
    ensures LastStatus(x, b, n) == LastStatus(y, b, n) && LastRisk(x, b, n) == LastRisk(y, b, n)
    decreases n
  {
    if n > b + 1 {
      LastLocal(x, y, b, n - 1);
    }
  }

  /** What replay makes of the events, given their base. */
  predicate Means(evts: seq<Row>, b: int, s: State)
    requires 0 <= b < |evts|
  {
    var i, j := LastStatus(evts, b, |evts|), LastRisk(evts, b, |evts|);
    && s.capability == Get(evts[b].payload, "capability", Str(""))
    && s.status == (if i == b then StartStatus(evts[b]) else evts[i].payload["status"])
    && s.risk == (if j == b then Get(evts[b].payload, "risk_level", Str("low")) else evts[j].payload["risk_level"])
  }

  lemma {:induction false} FromBase(evts: seq<Row>)
    requires evts != [] && IsPolicy(evts[|evts| - 1])
    requires evts[|evts| - 1].kind.PolicyCreated? || Replay(evts[..|evts| - 1]) == None
    ensures Replay(evts).Some? && Means(evts, |evts| - 1, Replay(evts).value)
  {
  }

  lemma {:induction false} BaseSnoc(evts: seq<Row>, b: int)
    requires evts != [] && !evts[|evts| - 1].kind.PolicyCreated? && IsBase(evts[..|evts| - 1], b)
    ensures IsBase(evts, b)
  {
    assert forall j :: 0 <= j < |evts| - 1 ==> evts[..|evts| - 1][j] == evts[j];
  }

  /** Replay takes the capability from the base event, and status and risk from the last event
      behind it that sets them, or else from the base event. */
  lemma {:induction false} ReplayIs(evts: seq<Row>) returns (b: int)
    requires evts != [] && forall e :: e in evts ==> IsPolicy(e)
    ensures IsBase(evts, b) && Replay(evts).Some? && Means(evts, b, Replay(evts).value)
  {
    var init := evts[..|evts| - 1];
    assert evts[|evts| - 1] in evts;
    if evts[|evts| - 1].kind.PolicyCreated? || init == [] {
      b := |evts| - 1;
      ReplayNothing();
      FromBase(evts);
    } else {
      assert forall e :: e in init ==> e in evts;
      b := ReplayIs(init);
      BaseSnoc(evts, b);
      BehindBase(evts, b, Replay(init).value);
    }
  }

  lemma {:induction false} ReplayNothing()
    ensures Replay([]) == None
  {
  }

  lemma {:induction false} BehindBase(evts: seq<Row>, b: int, before: State)
    requires evts != [] && evts[|evts| - 1].kind.PolicyUpdated? && 0 <= b < |evts| - 1
    requires Replay(evts[..|evts| - 1]) == Some(before) && Means(evts[..|evts| - 1], b, before)
    ensures Replay(evts).Some? && Means(evts, b, Replay(evts).value)
  {
    var init, last := evts[..|evts| - 1], evts[|evts| - 1];
    LastLocal(init, evts, b, |init|);
  }

  /** Nothing, null, false, zero, or an empty string, list or object. */
  predicate NoCapability(e: Row) {
    "capability" !in e.payload ||
    match e.payload["capability"]
    case Null => true
    case Bool(v) => !v
    case Int(n) => n == 0
    case Str(v) => v == ""
    case Other(nonEmpty, _) => !nonEmpty
  }

  /** An aggregate is left without rows exactly when it had none, or its base event names no
      capability. */
  lemma {:induction false} DroppedIff(log: seq<Row>, agg: string)
    ensures Events(Compact(log), agg) == [] <==>
              (forall b: int :: IsBase(Events(log, agg), b) ==> NoCapability(Events(log, agg)[b]))
  {
    var evts := Events(log, agg);
    CompactEvents(log, agg);
    if evts != [] {
      EventsMembers(log, |log|, agg);
      var b := ReplayIs(evts);
      OneBase(evts, b);
      KeptIff(Replay(evts).value, evts[b]);
      if Kept(Replay(evts)) {
        BlockFields(evts, agg);
      }
    } else {
      assert Replay(evts) == None;
    }
  }

  lemma {:induction false} OneBase(evts: seq<Row>, b: int)
    requires IsBase(evts, b)
    ensures forall c: int :: IsBase(evts, c) ==> c == b
  {
  }

  lemma {:induction false} KeptIff(s: State, e: Row)
    requires s.capability == Get(e.payload, "capability", Str(""))
    ensures Kept(Some(s)) <==> !NoCapability(e)
  {
  }

  /** Every policy row compaction leaves is filed under the aggregate type the rebuild looks
      for, whatever type the events before it carried. */
  lemma {:induction false} PolicyRowsTyped(log: seq<Row>)
    ensures forall r :: r in Compact(log) && IsPolicy(r) ==> r.aggregateType == "policy"
  {
    var out := Compact(log);
    forall r | r in out && IsPolicy(r) ensures r.aggregateType == "policy" {
      var agg := r.aggregateId;
      EventsMembers(out, |out|, agg);
      assert out[..|out|] == out;
      var i :| 0 <= i < |Events(out, agg)| && Events(out, agg)[i] == r;
      CompactEvents(log, agg);
      assert EraseAll(Events(out, agg))[i] == Erase(r);
      BlockFields(Events(log, agg), agg);
    }
  }
}
