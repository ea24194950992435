/** The policy table the live projector fills, before and after compaction. */
module PolicyTable {
  import opened Common
  import opened PolicyLog
  import opened Compaction
  import opened CompactionIds
  import opened PolicyMeaning

  // ----- Capability, risk and status -----

  predicate HasCreated(evts: seq<Row>) {
    exists i :: 0 <= i < |evts| && evts[i].kind.PolicyCreated?
  }

  /** The last update that is not a revoke, if it came after the last PolicyCreated,
      carries no risk level. */
  predicate RiskOmitted(evts: seq<Row>) {
    if evts == [] then false
    else
      var last := evts[|evts| - 1];
      if last.kind.PolicyCreated? then false
      else if !last.kind.PolicyUpdated? || Get(last.payload, "status", Null) == REVOKED
      then RiskOmitted(evts[..|evts| - 1])
      else "risk_level" !in last.payload
  }

  lemma {:induction false} ProjectVersusReplay(evts: seq<Row>)
    requires forall e :: e in evts ==> IsPolicy(e)
    ensures Project(evts).Some? <==> HasCreated(evts)
    ensures Replay(evts).Some? <==> evts != []
    ensures HasCreated(evts) ==>
              var p, r := Project(evts).value, Replay(evts).value;
              && p.capability == r.capability
              && p.status == r.status
              && (r.status == ACTIVE || r.status == REVOKED)
              && p.risk == if RiskOmitted(evts) then LOW else r.risk
  {
    if evts != [] {
      var init, last := evts[..|evts| - 1], evts[|evts| - 1];
      ProjectVersusReplay(init);
      assert forall i :: 0 <= i < |init| ==> init[i] == evts[i];
      assert last in evts;
      if last.kind.PolicyCreated? {
        assert HasCreated(evts);
      } else if HasCreated(evts) {
        var i :| 0 <= i < |evts| && evts[i].kind.PolicyCreated?;
        assert init[i].kind.PolicyCreated?;
      }
    }
  }

  /** The guard under which the compacted log gives the aggregate its capability, risk and
      status back. */
  predicate ProjectionSafe(evts: seq<Row>) {
    && (HasCreated(evts) <==> Kept(Replay(evts)))
    && (HasCreated(evts) && RiskOmitted(evts) ==> Replay(evts).value.risk == LOW)
  }

  /** Capability, risk and status of an aggregate survive exactly under that guard. */
  lemma {:induction false} ColumnsPreservedIff(log: seq<Row>, agg: string)
    ensures Project(Events(Compact(log), agg)) == Project(Events(log, agg)) <==> ProjectionSafe(Events(log, agg))
  {
    var evts := Events(log, agg);
    EventsMembers(log, |log|, agg);
    assert log[..|log|] == log;
    CompactEvents(log, agg);
    ReplayErase(Events(Compact(log), agg));
    ProjectVersusReplay(evts);
    if evts != [] && Kept(Replay(evts)) {
      ReplayBlock(evts, agg);
    }
  }

  /** Events as capability governance writes them: a PolicyCreated names its capability
      and every update that is not a revoke states the risk level. */
  predicate WellWritten(row: Row) {
    if row.kind.PolicyCreated? then Truthy(Get(row.payload, "capability", Str("")))
    else Get(row.payload, "status", Null) == REVOKED || "risk_level" in row.payload
  }

  lemma {:induction false} WellWrittenSafe(evts: seq<Row>)
    requires forall e :: e in evts ==> IsPolicy(e) && WellWritten(e)
    requires evts != [] ==> evts[0].kind.PolicyCreated?
    ensures ProjectionSafe(evts)
    ensures evts != [] ==> Kept(Replay(evts)) && !RiskOmitted(evts)
  {
    if evts != [] {
      var init, last := evts[..|evts| - 1], evts[|evts| - 1];
      assert last in evts;
      assert forall e :: e in init ==> e in evts;
      WellWrittenSafe(init);
      assert evts[0].kind.PolicyCreated?;
      ProjectVersusReplay(evts);
    }
  }

  // ----- The whole row -----

  lemma {:induction false} RowState(evts: seq<Row>)
    ensures ProjectRow(evts).Some? <==> Project(evts).Some?
    ensures ProjectRow(evts).Some? ==> ProjectRow(evts).value.state == Project(evts).value
  {
    if evts != [] {
      RowState(evts[..|evts| - 1]);
    }
  }

  /** The time of the last PolicyCreated. */
  function CreatedTime(evts: seq<Row>): int {
    if evts == [] then 0
    else if evts[|evts| - 1].kind.PolicyCreated? then evts[|evts| - 1].origin.ts
    else CreatedTime(evts[..|evts| - 1])
  }

  /** A row was created by the last PolicyCreated and last touched by the last event. */
  lemma {:induction false} RowTimes(evts: seq<Row>)
    requires forall e :: e in evts ==> IsPolicy(e)
    ensures ProjectRow(evts).Some? ==>
              && evts != []
              && ProjectRow(evts).value.createdAt == CreatedTime(evts)
              && ProjectRow(evts).value.updatedAt == evts[|evts| - 1].origin.ts
  {
    if evts != [] {
      var init, last := evts[..|evts| - 1], evts[|evts| - 1];
      assert last in evts;
      assert forall e :: e in init ==> e in evts;
      RowTimes(init);
    }
  }

  lemma {:induction false} RowErase(evts: seq<Row>)
    ensures ProjectRow(EraseAll(evts)) == ProjectRow(evts)
  {
    if evts != [] {
      RowErase(evts[..|evts| - 1]);
      assert EraseAll(evts)[..|evts| - 1] == EraseAll(evts[..|evts| - 1]);
    }
  }

  /** The row was created, and last touched, at the time of the aggregate's first event. */
  predicate TimesSafe(evts: seq<Row>) {
    HasCreated(evts) ==> CreatedTime(evts) == evts[0].origin.ts == evts[|evts| - 1].origin.ts
  }

  /** What a rebuild reads for one aggregate: rows filed under the type "policy", in log order. */
  function TypedUpTo(log: seq<Row>, n: nat, agg: string): seq<Row>
    requires n <= |log|
  {
    if n == 0 then []
    else if log[n - 1].aggregateType == "policy" && IsPolicyOf(log[n - 1], agg)
    then TypedUpTo(log, n - 1, agg) + [log[n - 1]]
    else TypedUpTo(log, n - 1, agg)
  }

  /** The aggregate's row once the table has been emptied and rebuilt from the log. */
  function Rebuilt(log: seq<Row>, agg: string): Option<PolicyRow> {
    ProjectRow(TypedUpTo(log, |log|, agg))
  }

  /** The row as it was projected when the events were written, whatever type they carried. */
  function Live(log: seq<Row>, agg: string): Option<PolicyRow> {
    ProjectRow(Events(log, agg))
  }

  lemma {:induction false} AllTyped(log: seq<Row>, n: nat, agg: string)
    requires n <= |log| && forall r :: r in log && IsPolicyOf(r, agg) ==> r.aggregateType == "policy"
    ensures TypedUpTo(log, n, agg) == EventsUpTo(log, n, agg)
  {
    if n > 0 {
      assert log[n - 1] in log;
      AllTyped(log, n - 1, agg);
    }
  }

  /** Compaction promises to leave the projection alone. A rebuild from the compacted log gives
      the aggregate's row back, its times included, exactly under both guards. */
  lemma {:induction false} ProjectionPreservedIff(log: seq<Row>, agg: string)
    ensures Rebuilt(Compact(log), agg) == Live(log, agg) <==>
              ProjectionSafe(Events(log, agg)) && TimesSafe(Events(log, agg))
    ensures (forall r :: r in log && IsPolicyOf(r, agg) ==> r.aggregateType == "policy") ==>
              Rebuilt(log, agg) == Live(log, agg)
  {
    RebuiltIsLive(log, agg);
    var evts, after := Events(log, agg), Events(Compact(log), agg);
    PolicyEvents(log, agg);
    ColumnsPreservedIff(log, agg);
    CompactEvents(log, agg);
    RowErase(after);
    RowState(evts);
    RowState(after);
    ProjectVersusReplay(evts);
    RowTimes(evts);
    if evts != [] && Kept(Replay(evts)) {
      BlockRow(evts, agg);
    }
  }

  lemma {:induction false} RebuiltIsLive(log: seq<Row>, agg: string)
    ensures Rebuilt(Compact(log), agg) == Live(Compact(log), agg)
    ensures (forall r :: r in log && IsPolicyOf(r, agg) ==> r.aggregateType == "policy") ==>
              Rebuilt(log, agg) == Live(log, agg)
  {
    PolicyRowsTyped(log);
    AllTyped(Compact(log), |Compact(log)|, agg);
    if forall r :: r in log && IsPolicyOf(r, agg) ==> r.aggregateType == "policy" {
      AllTyped(log, |log|, agg);
    }
  }

  lemma {:induction false} BlockRow(evts: seq<Row>, agg: string)
    requires evts != [] && Kept(Replay(evts))
    ensures ProjectRow(BlockOf(evts, agg)).Some?
    ensures var row := ProjectRow(BlockOf(evts, agg)).value; row.createdAt == row.updatedAt == evts[0].origin.ts
  {
    var b := BlockOf(evts, agg);
    BlockFields(evts, agg);
    if |b| == 1 {
      assert b[..0] == [];
    } else {
      assert b[..1] == [b[0]] && b[..1][..0] == [];
    }
  }

  lemma {:induction false} PolicyEvents(log: seq<Row>, agg: string)
    ensures forall e :: e in Events(log, agg) ==> e in log && IsPolicyOf(e, agg)
  {
    EventsMembers(log, |log|, agg);
    assert log[..|log|] == log;
  }

  /** On logs the runtime itself writes, capability, risk and status survive compaction and a
      rebuild; the times survive exactly for the rows whose last creation and last event carry
      the time of their first event. */
  lemma {:induction false} GovernanceLogPreserved(log: seq<Row>, agg: string)
    requires forall e :: e in log && IsPolicyOf(e, agg) ==> WellWritten(e)
    requires Events(log, agg) != [] ==> Events(log, agg)[0].kind.PolicyCreated?
    ensures var before, after := Live(log, agg), Rebuilt(Compact(log), agg);
            && (before.Some? <==> after.Some?) && (before.Some? <==> Events(log, agg) != [])
            && (before.Some? ==>
                  Replay(Events(log, agg)) == Some(before.value.state) && after.value.state == before.value.state)
            && (after == before <==> TimesSafe(Events(log, agg)))
  {
    var evts := Events(log, agg);
    PolicyEvents(log, agg);
    WellWrittenSafe(evts);
    ColumnsPreservedIff(log, agg);
    ProjectionPreservedIff(log, agg);
    ProjectVersusReplay(evts);
    RebuiltIsLive(log, agg);
    RowState(evts);
    RowState(Events(Compact(log), agg));
  }

  /** A capability created at 0 and revoked at 5, as governance writes it: the compacted log
      brings the row back as last touched at 0. */
  lemma {:induction false} RevokeTimeLost() returns (log: seq<Row>)
    ensures |log| == 2 && Events(log, "policy_x") == log && forall e :: e in log ==> WellWritten(e)
    ensures Live(log, "policy_x") == Some(PolicyRow(State(Str("x"), Str("high"), REVOKED), 0, 5))
    ensures Rebuilt(Compact(log), "policy_x") == Some(PolicyRow(State(Str("x"), Str("high"), REVOKED), 0, 0))
  {
    var a := Row(1, "e1", PolicyCreated, "policy", "policy_x",
                 map["capability" := Str("x"), "risk_level" := Str("high")], Origin(None, None, None, 0));
    var b := Row(2, "e2", PolicyUpdated, "policy", "policy_x", map["status" := REVOKED], Origin(None, None, None, 5));
    log := [a, b];
    TwoEvents(a, b, "policy_x");
    assert log[..1] == [a] && [a][..0] == [];
    assert ProjectRow([a]) == Some(PolicyRow(State(Str("x"), Str("high"), ACTIVE), 0, 0));
    GovernanceLogPreserved(log, "policy_x");
    RebuiltIsLive(log, "policy_x");
    CompactEvents(log, "policy_x");
    RowErase(Events(Compact(log), "policy_x"));
    BlockRow(log, "policy_x");
  }

  lemma {:induction false} TwoEvents(a: Row, b: Row, agg: string)
    requires IsPolicyOf(a, agg) && IsPolicyOf(b, agg)
    ensures Events([a, b], agg) == [a, b]
  {
    EventsOne(a, agg);
    EventsOne(b, agg);
    EventsAppend([a], [b], agg);
    assert [a, b] == [a] + [b];
  }

  /** A reactivation that leaves out the risk level: the projection says "low", the
      compacted log brings "high" back. */
  lemma {:induction false} ProjectionCanChange() returns (log: seq<Row>)
    ensures |log| == 2 && Events(log, "policy_x") == log
    ensures Project(log) == Some(State(Str("x"), LOW, ACTIVE))
    ensures Project(Events(Compact(log), "policy_x")) == Some(State(Str("x"), Str("high"), ACTIVE))
  {
    var a := Row(1, "e1", PolicyCreated, "policy", "policy_x",
                 map["capability" := Str("x"), "risk_level" := Str("high")], Origin(None, None, None, 0));
    var b := Row(2, "e2", PolicyUpdated, "policy", "policy_x", map["status" := ACTIVE], Origin(None, None, None, 1));
    log := [a, b];
    TwoEvents(a, b, "policy_x");
    assert log[..1] == [a] && [a][..0] == [];
    assert Replay([a]) == Some(State(Str("x"), Str("high"), ACTIVE)) == Project([a]);
    CompactEvents(log, "policy_x");
    ReplayErase(Events(Compact(log), "policy_x"));
    ReplayBlock(log, "policy_x");
  }
}
