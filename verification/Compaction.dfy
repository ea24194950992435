/** What compaction is meant to produce, and what it keeps. Everything here speaks of a
    log already in `seqNo` order; `Compactor` ties the running script to these functions. */
module Compaction {
  import opened Common
  import opened PolicyLog

  function Erase(row: Row): Row {
    row.(seqNo := 0)
  }

  function EraseAll(rows: seq<Row>): (r: seq<Row>)
    ensures |r| == |rows|
  {
    seq(|rows|, i requires 0 <= i < |rows| => Erase(rows[i]))
  }

  /** The same rows renumbered 1..n. */
  function Number(rows: seq<Row>): (r: seq<Row>)
    ensures |r| == |rows|
  {
    seq(|rows|, i requires 0 <= i < |rows| => rows[i].(seqNo := i + 1))
  }

  function ActorOrDefault(actor: Option<string>): Option<string> {
    if actor.Some? && actor.value != "" then actor else Some("compact_policy_events")
  }

  function CreatedId(agg: string): string {
    "evt_compact_" + agg + "_created"
  }

  function RevokedId(agg: string): string {
    "evt_compact_" + agg + "_revoked"
  }

  /** `origin` is the provenance of the aggregate's first event. */
  function CreatedRow(agg: string, state: State, origin: Origin, startSeq: int): Row {
    Row(startSeq, CreatedId(agg), PolicyCreated, "policy", agg,
        map["capability" := state.capability, "risk_level" := state.risk, "schema_version" := Int(1)],
        origin.(actor := ActorOrDefault(origin.actor)))
  }

  function RevokedRow(agg: string, state: State, origin: Origin, startSeq: int): Row {
    Row(startSeq, RevokedId(agg), PolicyUpdated, "policy", agg,
        map["capability" := state.capability, "status" := REVOKED, "schema_version" := Int(1)],
        origin.(actor := ActorOrDefault(origin.actor), causedBy := Some(CreatedId(agg))))
  }

  /** The minimal rows that rebuild to `state`, with the provenance of the first event. */
  function SyntheticRows(agg: string, state: State, origin: Origin, startSeq: int): seq<Row> {
    [CreatedRow(agg, state, origin, startSeq)] +
    if state.status == REVOKED then [RevokedRow(agg, state, origin, startSeq + 1)] else []
  }

  /** Whether the script keeps an aggregate at all. */
  predicate Kept(state: Option<State>) {
    state.Some? && Truthy(state.value.capability)
  }

  /** The rows, still unnumbered, that stand for the events of one aggregate. */
  function BlockOf(evts: seq<Row>, agg: string): seq<Row> {
    if evts != [] && Kept(Replay(evts)) then EraseAll(SyntheticRows(agg, Replay(evts).value, evts[0].origin, 0)) else []
  }

  /** Which rows replace which aggregate; an aggregate that is not kept has no entry. */
  type Plan = map<string, seq<Row>>

  function Aggregates(log: seq<Row>): set<string> {
    set r | r in log && IsPolicy(r) :: r.aggregateId
  }

  function PlanOf(log: seq<Row>): Plan {
    map agg | agg in Aggregates(log) && Kept(Replay(Events(log, agg))) :: BlockOf(Events(log, agg), agg)
  }

  function Block(plan: Plan, agg: string): seq<Row> {
    if agg in plan then plan[agg] else []
  }

  /** What row `k` of the log turns into: itself, its aggregate's block, or nothing. */
  function Contribution(log: seq<Row>, plan: Plan, k: nat): seq<Row>
    requires k < |log|
  {
    if !IsPolicy(log[k]) then [Erase(log[k])]
    else if EventsUpTo(log, k, log[k].aggregateId) == [] then Block(plan, log[k].aggregateId)
    else []
  }

  function Emit(log: seq<Row>, plan: Plan, k: nat): seq<Row>
    requires k <= |log|
  {
    if k == 0 then [] else Cat(Emit(log, plan, k - 1), Contribution(log, plan, k - 1))
  }

  function Compact(log: seq<Row>): seq<Row> {
    Number(Emit(log, PlanOf(log), |log|))
  }

  // ----- Numbers do not matter to replay -----

  lemma {:induction false} EventsErase(log: seq<Row>, n: nat, agg: string)
    requires n <= |log|
    ensures EventsUpTo(EraseAll(log), n, agg) == EraseAll(EventsUpTo(log, n, agg))
    ensures NonPolicyUpTo(EraseAll(log), n) == EraseAll(NonPolicyUpTo(log, n))
  {
    if n > 0 {
      EventsErase(log, n - 1, agg);
    }
  }

  lemma {:induction false} ReplayErase(evts: seq<Row>)
    ensures Replay(EraseAll(evts)) == Replay(evts)
    ensures Project(EraseAll(evts)) == Project(evts)
  {
    if evts != [] {
      ReplayErase(evts[..|evts| - 1]);
      assert EraseAll(evts)[..|evts| - 1] == EraseAll(evts[..|evts| - 1]);
    }
  }

  lemma {:induction false} EraseNumber(rows: seq<Row>)
    ensures EraseAll(Number(rows)) == EraseAll(rows)
  {
  }

  // ----- What one aggregate's events become -----

  /** Every planned block is a non-empty list of unnumbered policy rows of its aggregate. */
  ghost predicate GoodPlan(plan: Plan) {
    forall agg :: agg in plan ==> plan[agg] != [] && forall r :: r in plan[agg] ==> IsPolicyOf(r, agg) && r.seqNo == 0
  }

  lemma {:induction false} OwnEvents(rows: seq<Row>, n: nat, agg: string, other: string)
    requires n <= |rows| && forall r :: r in rows ==> IsPolicyOf(r, agg)
    ensures EventsUpTo(rows, n, other) == if agg == other then rows[..n] else []
    ensures NonPolicyUpTo(rows, n) == []
  {
    if n > 0 {
      OwnEvents(rows, n - 1, agg, other);
      assert rows[n - 1] in rows;
    }
  }

  lemma {:induction false} ContributionEvents(log: seq<Row>, plan: Plan, k: nat, agg: string)
    requires k < |log| && GoodPlan(plan)
    ensures Events(Contribution(log, plan, k), agg)
            == if IsPolicyOf(log[k], agg) && EventsUpTo(log, k, agg) == [] then Block(plan, agg) else []
    ensures NonPolicy(Contribution(log, plan, k)) == if IsPolicy(log[k]) then [] else [Erase(log[k])]
  {
    var c := Contribution(log, plan, k);
    if IsPolicy(log[k]) {
      OwnEvents(c, |c|, log[k].aggregateId, agg);
    } else {
      EventsOne(Erase(log[k]), agg);
    }
  }

  lemma {:induction false} EmitEvents(log: seq<Row>, plan: Plan, k: nat, agg: string)
    requires k <= |log| && GoodPlan(plan)
    ensures Events(Emit(log, plan, k), agg) == if EventsUpTo(log, k, agg) == [] then [] else Block(plan, agg)
  {
    if k > 0 {
      EmitEvents(log, plan, k - 1, agg);
      EventsAppend(Emit(log, plan, k - 1), Contribution(log, plan, k - 1), agg);
      ContributionEvents(log, plan, k - 1, agg);
    }
  }

  lemma {:induction false} EraseSnoc(rows: seq<Row>, row: Row)
    ensures EraseAll(rows + [row]) == Cat(EraseAll(rows), [Erase(row)])
  {
    CatIsAppend(EraseAll(rows), [Erase(row)]);
  }

  lemma {:induction false} OneMoreRow(log: seq<Row>, plan: Plan, k: nat, x: seq<Row>)
    requires k < |log| && GoodPlan(plan) && NonPolicy(x) == EraseAll(NonPolicyUpTo(log, k))
    ensures NonPolicy(Cat(x, Contribution(log, plan, k))) == EraseAll(NonPolicyUpTo(log, k + 1))
  {
    EventsAppend(x, Contribution(log, plan, k), "");
    ContributionEvents(log, plan, k, "");
    if !IsPolicy(log[k]) {
      EraseSnoc(NonPolicyUpTo(log, k), log[k]);
    }
  }

  lemma {:induction false} EmitNonPolicy(log: seq<Row>, plan: Plan, k: nat)
    requires k <= |log| && GoodPlan(plan)
    ensures NonPolicy(Emit(log, plan, k)) == EraseAll(NonPolicyUpTo(log, k))
  {
    if k > 0 {
      EmitNonPolicy(log, plan, k - 1);
      OneMoreRow(log, plan, k - 1, Emit(log, plan, k - 1));
    }
  }

  lemma {:induction false} PlanIsGood(log: seq<Row>)
    ensures GoodPlan(PlanOf(log))
  {
    forall agg | agg in PlanOf(log)
      ensures PlanOf(log)[agg] != [] && forall r :: r in PlanOf(log)[agg] ==> IsPolicyOf(r, agg) && r.seqNo == 0
    {
      BlockIsGood(Events(log, agg), agg);
    }
  }

  lemma {:induction false} BlockIsGood(evts: seq<Row>, agg: string)
    requires Kept(Replay(evts))
    ensures BlockOf(evts, agg) != [] && forall r :: r in BlockOf(evts, agg) ==> IsPolicyOf(r, agg) && r.seqNo == 0
  {
    assert evts == [] ==> Replay(evts) == None;
  }

  lemma {:induction false} PlannedBlock(log: seq<Row>, agg: string)
    ensures Block(PlanOf(log), agg) == BlockOf(Events(log, agg), agg)
    ensures agg in Aggregates(log) <==> Events(log, agg) != []
  {
    EventsMembers(log, |log|, agg);
    assert log[..|log|] == log;
    if Events(log, agg) != [] {
      assert Events(log, agg)[0] in Events(log, agg);
    }
    forall r | r in log && IsPolicyOf(r, agg) ensures Events(log, agg) != [] {
      assert r in Events(log, agg);
    }
  }

  /** The policy rows compaction leaves to an aggregate are exactly its block. */
  lemma {:induction false} CompactEvents(log: seq<Row>, agg: string)
    ensures EraseAll(Events(Compact(log), agg)) == BlockOf(Events(log, agg), agg)
  {
    var plan := PlanOf(log);
    var e := Emit(log, plan, |log|);
    PlanIsGood(log);
    PlannedBlock(log, agg);
    EmitEvents(log, plan, |log|, agg);
    EventsErase(Compact(log), |e|, agg);
    EraseNumber(e);
    EventsErase(e, |e|, agg);
    assert EraseAll(BlockOf(Events(log, agg), agg)) == BlockOf(Events(log, agg), agg);
  }

  lemma {:induction false} ReplayBlock(evts: seq<Row>, agg: string)
    requires evts != [] && Kept(Replay(evts))
    ensures var s := Replay(evts).value;
            Replay(BlockOf(evts, agg)) ==
            Some(State(s.capability, s.risk, if s.status == REVOKED then REVOKED else ACTIVE))
    ensures Project(BlockOf(evts, agg)) == Replay(BlockOf(evts, agg))
  {
    var b := BlockOf(evts, agg);
    if |b| == 1 {
      assert b[..0] == [];
    } else {
      assert b[..1] == [b[0]] && b[..1][..0] == [];
    }
  }

  /** Replay of the compacted log. A kept aggregate keeps capability and risk; its status
      survives exactly when it was "active" or "revoked". A dropped one has no rows left. */
  lemma {:induction false} ReplayPreserved(log: seq<Row>, agg: string)
    ensures !Kept(Replay(Events(log, agg))) ==> Events(Compact(log), agg) == []
    ensures Kept(Replay(Events(log, agg))) ==>
              var before := Replay(Events(log, agg)).value;
              && Replay(Events(Compact(log), agg))
                 == Some(before.(status := if before.status == REVOKED then REVOKED else ACTIVE))
              && (Replay(Events(Compact(log), agg)) == Some(before) <==>
                  before.status == ACTIVE || before.status == REVOKED)
  {
    var evts := Events(log, agg);
    CompactEvents(log, agg);
    ReplayErase(Events(Compact(log), agg));
    if Kept(Replay(evts)) {
      ReplayBlock(evts, agg);
    }
  }
}
