/** Which rows of a compacted log still find the event that caused them. */
module CompactionCauses {
  import opened Common
  import opened PolicyLog
  import opened Compaction
  import opened CompactionShape
  import opened CompactionIds

  predicate Resolves(log: seq<Row>, cause: Option<string>) {
    cause.Some? ==> cause.value in Ids(log)
  }

  /** Ids that compaction keeps: those of other rows, and those it gives the rows it makes. */
  ghost predicate Stays(log: seq<Row>, id: string) {
    || (exists r :: r in log && !IsPolicy(r) && r.id == id)
    || (exists agg :: MadeAs(log, agg, id))
  }

  predicate MadeAs(log: seq<Row>, agg: string, id: string) {
    var state := Replay(Events(log, agg));
    Kept(state) && (id == CreatedId(agg) || (state.value.status == REVOKED && id == RevokedId(agg)))
  }

  lemma {:induction false} IdOf(rows: seq<Row>, id: string)
    ensures id in Ids(rows) <==> exists r :: r in rows && r.id == id
  {
    forall r | r in rows && r.id == id ensures id in Ids(rows) {
      var i :| 0 <= i < |rows| && rows[i] == r;
      assert Ids(rows)[i] == id;
    }
    if id in Ids(rows) {
      var i :| 0 <= i < |rows| && Ids(rows)[i] == id;
      assert rows[i] in rows;
    }
  }

  lemma {:induction false} NonPolicyMembers(log: seq<Row>, n: nat)
    requires n <= |log|
    ensures forall r :: r in NonPolicyUpTo(log, n) <==> r in log[..n] && !IsPolicy(r)
  {
    if n > 0 {
      NonPolicyMembers(log, n - 1);
      assert log[..n] == log[..n - 1] + [log[n - 1]];
    }
  }

  lemma {:induction false} IdsErased(rows: seq<Row>)
    ensures Ids(EraseAll(rows)) == Ids(rows)
  {
  }

  lemma {:induction false} OtherIds(log: seq<Row>, id: string)
    ensures id in Ids(NonPolicy(log)) <==> exists r :: r in log && !IsPolicy(r) && r.id == id
  {
    NonPolicyMembers(log, |log|);
    assert log[..|log|] == log;
    IdOf(NonPolicy(log), id);
  }

  lemma {:induction false} MadeIds(log: seq<Row>, agg: string, id: string)
    ensures id in Ids(BlockOf(Events(log, agg), agg)) <==> MadeAs(log, agg, id)
  {
    var evts := Events(log, agg);
    var b := BlockOf(evts, agg);
    assert evts == [] ==> Replay(evts) == None;
    IdOf(b, id);
    if b != [] {
      assert b[0] in b && b[0].id == CreatedId(agg);
      if |b| == 2 {
        assert b[1] in b && b[1].id == RevokedId(agg);
      }
    }
  }

  /** The ids of a compacted log are exactly those that stay. */
  lemma {:induction false} CompactIds(log: seq<Row>, id: string)
    ensures id in Ids(Compact(log)) <==> Stays(log, id)
  {
    var out := Compact(log);
    NonPolicyPreserved(log);
    IdsErased(NonPolicy(out));
    IdsErased(NonPolicy(log));
    OtherIds(log, id);
    OtherIds(out, id);
    IdOf(out, id);
    forall agg ensures id in Ids(Events(out, agg)) <==> MadeAs(log, agg, id) {
      CompactEvents(log, agg);
      IdsErased(Events(out, agg));
      MadeIds(log, agg, id);
    }
    forall r | r in out && IsPolicy(r) && r.id == id ensures exists agg :: MadeAs(log, agg, id) {
      PolicyRow(out, r);
      IdOf(Events(out, r.aggregateId), id);
      assert MadeAs(log, r.aggregateId, id);
    }
    if agg :| MadeAs(log, agg, id) {
      IdOf(Events(out, agg), id);
      var r :| r in Events(out, agg) && r.id == id;
      EventsMembers(out, |out|, agg);
      assert out[..|out|] == out;
    }
  }

  lemma {:induction false} PolicyRow(log: seq<Row>, r: Row)
    requires r in log && IsPolicy(r)
    ensures r in Events(log, r.aggregateId)
  {
    EventsMembers(log, |log|, r.aggregateId);
    assert log[..|log|] == log;
  }

  /** A row that is not a policy row keeps its cause, and still finds it exactly when the cause
      is no policy event, or bears an id the script gives out again. */
  lemma {:induction false} CauseFoundIff(log: seq<Row>, r: Row)
    requires r in log && !IsPolicy(r)
    ensures Resolves(Compact(log), r.origin.causedBy) <==>
              (r.origin.causedBy.Some? ==> Stays(log, r.origin.causedBy.value))
    ensures exists out :: out in Compact(log) && Erase(out) == Erase(r)
  {
    if r.origin.causedBy.Some? {
      CompactIds(log, r.origin.causedBy.value);
    }
    NonPolicyPreserved(log);
    NonPolicyMembers(log, |log|);
    NonPolicyMembers(Compact(log), |Compact(log)|);
    assert log[..|log|] == log && Compact(log)[..|Compact(log)|] == Compact(log);
    var i :| 0 <= i < |NonPolicy(log)| && NonPolicy(log)[i] == r;
    assert EraseAll(NonPolicy(log))[i] == Erase(r);
    assert NonPolicy(Compact(log))[i] in NonPolicy(Compact(log));
    assert Erase(NonPolicy(Compact(log))[i]) == EraseAll(NonPolicy(Compact(log)))[i];
  }

  /** Of the rows the script makes, the first finds the cause of the aggregate's first event
      under the same condition, and a revoke always finds its creation. */
  lemma {:induction false} MadeCauses(log: seq<Row>, agg: string)
    requires Kept(Replay(Events(log, agg)))
    ensures var b, cause := BlockOf(Events(log, agg), agg), Events(log, agg)[0].origin.causedBy;
            && 1 <= |b| <= 2 && b[0].origin.causedBy == cause
            && (Resolves(Compact(log), cause) <==> (cause.Some? ==> Stays(log, cause.value)))
            && (|b| == 2 ==> Resolves(Compact(log), b[1].origin.causedBy))
  {
    var evts := Events(log, agg);
    assert evts == [] ==> Replay(evts) == None;
    BlockFields(evts, agg);
    CompactIds(log, CreatedId(agg));
    assert MadeAs(log, agg, CreatedId(agg));
    if evts[0].origin.causedBy.Some? {
      CompactIds(log, evts[0].origin.causedBy.value);
    }
  }

  /** An event caused by a policy's creation: compaction gives the creation another id, and
      the cause names nothing any more. */
  lemma {:induction false} CauseLost() returns (log: seq<Row>)
    ensures |log| == 2 && !IsPolicy(log[1]) && Resolves(log, log[1].origin.causedBy)
    ensures !Resolves(Compact(log), log[1].origin.causedBy)
  {
    var a := Row(1, "e1", PolicyCreated, "policy", "p", map["capability" := Str("x")], Origin(None, None, None, 0));
    var b := Row(2, "e2", OtherKind("CapabilityInvoked"), "capability", "x", map[], Origin(None, Some("e1"), None, 1));
    log := [a, b];
    assert Ids(log)[0] == "e1";
    CompactIds(log, "e1");
    forall agg ensures !MadeAs(log, agg, "e1") {
      assert |CreatedId(agg)| >= 20 && |RevokedId(agg)| >= 20;
    }
  }
}
