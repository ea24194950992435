/** Where the rows of a compacted log come from, and that no two of them share an id. */
module CompactionIds {
  import opened Common
  import opened PolicyLog
  import opened Compaction

  /** The rows that stand for an aggregate, field by field: what is rebuilt from them, and the
      time, correlation, cause and, if there was one, actor of its first event. */
  lemma {:induction false} BlockFields(evts: seq<Row>, agg: string)
    requires evts != [] && Kept(Replay(evts))
    ensures var b, first, state := BlockOf(evts, agg), evts[0].origin, Replay(evts).value;
            && 1 <= |b| <= 2 && (|b| == 2 <==> state.status == Str("revoked"))
            && b[0].kind.PolicyCreated? && b[0].id == "evt_compact_" + agg + "_created"
            && b[0].payload.Keys == {"capability", "risk_level", "schema_version"}
            && b[0].payload["capability"] == state.capability && b[0].payload["risk_level"] == state.risk
            && b[0].origin.causedBy == first.causedBy
            && (|b| == 2 ==>
                  && b[1].kind.PolicyUpdated? && b[1].id == "evt_compact_" + agg + "_revoked"
                  && b[1].payload.Keys == {"capability", "status", "schema_version"}
                  && b[1].payload["capability"] == state.capability && b[1].payload["status"] == Str("revoked")
                  && b[1].origin.causedBy == Some(b[0].id))
            && forall i :: 0 <= i < |b| ==>
                 && b[i].aggregateType == "policy" && b[i].aggregateId == agg
                 && b[i].payload["schema_version"] == Int(1)
                 && b[i].origin.ts == first.ts && b[i].origin.correlationId == first.correlationId
                 && b[i].origin.actor ==
                    if first.actor.Some? && first.actor.value != "" then first.actor else Some("compact_policy_events")
  {
  }

  function Ids(rows: seq<Row>): (r: seq<string>)
    ensures |r| == |rows|
  {
    seq(|rows|, i requires 0 <= i < |rows| => rows[i].id)
  }

  predicate Synthetic(id: string, agg: string) {
    id == CreatedId(agg) || id == RevokedId(agg)
  }

  /** One aggregate's ids tell it apart from every other. */
  lemma {:induction false} SyntheticApart(id: string, a: string, b: string)
    requires Synthetic(id, a) && Synthetic(id, b)
    ensures a == b
  {
    assert |CreatedId(a)| == |RevokedId(a)| == 20 + |a| && |CreatedId(b)| == |RevokedId(b)| == 20 + |b|;
    assert CreatedId(a)[12..12 + |a|] == a == RevokedId(a)[12..12 + |a|];
    assert CreatedId(b)[12..12 + |b|] == b == RevokedId(b)[12..12 + |b|];
  }

  lemma {:induction false} CreatedIsNotRevoked(agg: string)
    ensures CreatedId(agg) != RevokedId(agg)
  {
    assert CreatedId(agg)[13 + |agg|] == 'c' && RevokedId(agg)[13 + |agg|] == 'r';
  }

  /** Ids in use by other rows do not look like the script's own. */
  ghost predicate PlainIds(log: seq<Row>) {
    forall i, agg :: 0 <= i < |log| && !IsPolicy(log[i]) ==> !Synthetic(log[i].id, agg)
  }

  /** Where an id in the first part of the output comes from. */
  ghost predicate CopiedFrom(log: seq<Row>, k: nat, id: string) {
    exists i :: 0 <= i < k <= |log| && !IsPolicy(log[i]) && log[i].id == id
  }

  ghost predicate MadeFor(log: seq<Row>, k: nat, id: string) {
    exists agg :: k <= |log| && Synthetic(id, agg) && EventsUpTo(log, k, agg) != []
  }

  ghost predicate Accounted(log: seq<Row>, k: nat, ids: seq<string>) {
    forall id :: id in ids ==> CopiedFrom(log, k, id) || MadeFor(log, k, id)
  }

  lemma {:induction false} IdsCat(x: seq<Row>, y: seq<Row>)
    ensures Ids(Cat(x, y)) == Cat(Ids(x), Ids(y))
  {
    CatIsAppend(x, y);
    CatIsAppend(Ids(x), Ids(y));
  }

  lemma {:induction false} DistinctCat(a: seq<string>, b: seq<string>)
    requires Distinct(a) && Distinct(b) && forall x :: x in a ==> x !in b
    ensures Distinct(Cat(a, b))
  {
    CatIsAppend(a, b);
    var t := a + b;
    forall i, j | 0 <= i < j < |t| ensures t[i] != t[j] {
      if j < |a| {
        assert DifferAt(a, i, j);
      } else if i >= |a| {
        assert DifferAt(b, i - |a|, j - |a|);
      } else {
        assert t[i] == a[i] && a[i] in a && t[j] == b[j - |a|] && b[j - |a|] in b;
      }
    }
  }

  lemma {:induction false} BlockIds(evts: seq<Row>, agg: string)
    ensures Distinct(Ids(BlockOf(evts, agg))) && forall id :: id in Ids(BlockOf(evts, agg)) ==> Synthetic(id, agg)
  {
    var b := BlockOf(evts, agg);
    if b != [] {
      CreatedIsNotRevoked(agg);
      forall i, j | 0 <= i < j < |b| ensures Ids(b)[i] != Ids(b)[j] {
        assert b[0].id == CreatedId(agg) && b[1].id == RevokedId(agg);
      }
    }
  }

  /** A copied row brings an id that is not there yet. */
  lemma {:induction false} CopyIsNew(log: seq<Row>, k: nat, ids: seq<string>)
    requires k < |log| && !IsPolicy(log[k]) && Distinct(Ids(log)) && PlainIds(log) && Accounted(log, k, ids)
    ensures log[k].id !in ids
  {
    forall i | 0 <= i < k ensures log[i].id != log[k].id {
      assert DifferAt(Ids(log), i, k);
    }
  }

  /** So does the block of an aggregate that appears for the first time. */
  lemma {:induction false} BlockIsNew(log: seq<Row>, k: nat, ids: seq<string>, agg: string, id: string)
    requires k <= |log| && PlainIds(log) && Accounted(log, k, ids)
    requires EventsUpTo(log, k, agg) == [] && Synthetic(id, agg)
    ensures id !in ids
  {
    if id in ids && MadeFor(log, k, id) {
      var other :| Synthetic(id, other) && EventsUpTo(log, k, other) != [];
      SyntheticApart(id, agg, other);
    }
  }

  lemma {:induction false} ContributionIds(log: seq<Row>, k: nat, ids: seq<string>)
    requires k < |log| && Distinct(Ids(log)) && PlainIds(log) && Accounted(log, k, ids)
    ensures var c := Ids(Contribution(log, PlanOf(log), k));
            Distinct(c) && (forall id :: id in c ==> id !in ids) && Accounted(log, k + 1, c)
  {
    var agg, c := log[k].aggregateId, Ids(Contribution(log, PlanOf(log), k));
    if !IsPolicy(log[k]) {
      CopyIsNew(log, k, ids);
    } else if c != [] {
      PlannedBlock(log, agg);
      BlockIds(Events(log, agg), agg);
      assert EventsUpTo(log, k + 1, agg) != [];
      forall id | id in c ensures id !in ids {
        BlockIsNew(log, k, ids, agg, id);
      }
    }
  }

  lemma {:induction false} EmitIds(log: seq<Row>, k: nat)
    requires k <= |log| && Distinct(Ids(log)) && PlainIds(log)
    ensures var ids := Ids(Emit(log, PlanOf(log), k)); Distinct(ids) && Accounted(log, k, ids)
  {
    if k > 0 {
      EmitIds(log, k - 1);
      AddRow(log, k - 1, Emit(log, PlanOf(log), k - 1));
    }
  }

  lemma {:induction false} AddRow(log: seq<Row>, k: nat, x: seq<Row>)
    requires k < |log| && Distinct(Ids(log)) && PlainIds(log) && Distinct(Ids(x)) && Accounted(log, k, Ids(x))
    ensures var ids := Ids(Cat(x, Contribution(log, PlanOf(log), k))); Distinct(ids) && Accounted(log, k + 1, ids)
  {
    var c := Contribution(log, PlanOf(log), k);
    ContributionIds(log, k, Ids(x));
    IdsCat(x, c);
    DistinctCat(Ids(x), Ids(c));
  }

  /** The compacted log can be stored again: its ids are unique whenever they were before
      and no other row bears one of the script's own. */
  lemma {:induction false} IdsStayUnique(log: seq<Row>)
    requires Distinct(Ids(log)) && PlainIds(log)
    ensures Distinct(Ids(Compact(log)))
  {
    EmitIds(log, |log|);
    assert Ids(Compact(log)) == Ids(Emit(log, PlanOf(log), |log|));
  }
}
