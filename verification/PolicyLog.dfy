/** Policy events, the compactor's own replay of them, and the live projector's replay. */
module PolicyLog {
  import opened Common

  /** A JSON value; `Other` stands for a list, an object or a float, kept by its text. */
  datatype Value = Null | Bool(b: bool) | Int(n: int) | Str(s: string) | Other(nonEmpty: bool, text: string)

  type Payload = map<string, Value>

  datatype Kind = PolicyCreated | PolicyUpdated | OtherKind(name: string)

  /** Who wrote a row, why and when. `ts` is only ever compared and copied. */
  datatype Origin = Origin(actor: Option<string>, causedBy: Option<string>, correlationId: Option<string>, ts: int)

  /** One row of the event log. */
  datatype Row = Row(
    seqNo: int,
    id: string,
    kind: Kind,
    aggregateType: string,
    aggregateId: string,
    payload: Payload,
    origin: Origin)

  /** What a policy aggregate replays to. */
  datatype State = State(capability: Value, risk: Value, status: Value)

  const ACTIVE := Str("active")
  const REVOKED := Str("revoked")
  const LOW := Str("low")

  /** Python truthiness of a JSON value. */
  predicate Truthy(v: Value) {
    match v
    case Null => false
    case Bool(b) => b
    case Int(n) => n != 0
    case Str(s) => s != ""
    case Other(nonEmpty, _) => nonEmpty
  }

  function Get(p: Payload, key: string, default: Value): Value {
    if key in p then p[key] else default
  }

  predicate IsPolicy(row: Row) {
    row.kind.PolicyCreated? || row.kind.PolicyUpdated?
  }

  predicate IsPolicyOf(row: Row, agg: string) {
    IsPolicy(row) && row.aggregateId == agg
  }

  /** The policy rows of one aggregate among the first `n` rows, in log order. */
  function EventsUpTo(log: seq<Row>, n: nat, agg: string): seq<Row>
    requires n <= |log|
  {
    if n == 0 then []
    else if IsPolicyOf(log[n - 1], agg) then EventsUpTo(log, n - 1, agg) + [log[n - 1]]
    else EventsUpTo(log, n - 1, agg)
  }

  function Events(log: seq<Row>, agg: string): seq<Row> {
    EventsUpTo(log, |log|, agg)
  }

  /** Everything that is not a policy row among the first `n` rows, in log order. */
  function NonPolicyUpTo(log: seq<Row>, n: nat): seq<Row>
    requires n <= |log|
  {
    if n == 0 then []
    else if IsPolicy(log[n - 1]) then NonPolicyUpTo(log, n - 1)
    else NonPolicyUpTo(log, n - 1) + [log[n - 1]]
  }

  function NonPolicy(log: seq<Row>): seq<Row> {
    NonPolicyUpTo(log, |log|)
  }

  lemma {:induction false} EventsMembers(log: seq<Row>, n: nat, agg: string)
    requires n <= |log|
    ensures forall e :: e in EventsUpTo(log, n, agg) <==> e in log[..n] && IsPolicyOf(e, agg)
  {
    if n > 0 {
      EventsMembers(log, n - 1, agg);
      assert log[..n] == log[..n - 1] + [log[n - 1]];
    }
  }

  lemma {:induction false} SamePrefix(x: seq<Row>, y: seq<Row>, n: nat, agg: string)
    requires n <= |x| && n <= |y| && forall i :: 0 <= i < n ==> x[i] == y[i]
    ensures EventsUpTo(x, n, agg) == EventsUpTo(y, n, agg)
    ensures NonPolicyUpTo(x, n) == NonPolicyUpTo(y, n)
  {
    if n > 0 {
      SamePrefix(x, y, n - 1, agg);
    }
  }

  lemma {:induction false} EventsAppendUpTo(x: seq<Row>, y: seq<Row>, n: nat, agg: string)
    requires n <= |y|
    ensures EventsUpTo(x + y, |x| + n, agg) == Cat(Events(x, agg), EventsUpTo(y, n, agg))
  {
    if n == 0 {
      SamePrefix(x + y, x, |x|, agg);
    } else {
      EventsAppendUpTo(x, y, n - 1, agg);
      assert (x + y)[|x| + n - 1] == y[n - 1];
    }
  }

  lemma {:induction false} NonPolicyAppendUpTo(x: seq<Row>, y: seq<Row>, n: nat)
    requires n <= |y|
    ensures NonPolicyUpTo(x + y, |x| + n) == Cat(NonPolicy(x), NonPolicyUpTo(y, n))
  {
    if n == 0 {
      SamePrefix(x + y, x, |x|, "");
    } else {
      NonPolicyAppendUpTo(x, y, n - 1);
      assert (x + y)[|x| + n - 1] == y[n - 1];
    }
  }

  lemma {:induction false} EventsAppend(x: seq<Row>, y: seq<Row>, agg: string)
    ensures Events(Cat(x, y), agg) == Cat(Events(x, agg), Events(y, agg))
    ensures NonPolicy(Cat(x, y)) == Cat(NonPolicy(x), NonPolicy(y))
  {
    if x != [] && y != [] {
      EventsAppendUpTo(x, y, |y|, agg);
      NonPolicyAppendUpTo(x, y, |y|);
    }
  }

  lemma {:induction false} EventsOne(row: Row, agg: string)
    ensures Events([row], agg) == if IsPolicyOf(row, agg) then [row] else []
    ensures NonPolicy([row]) == if IsPolicy(row) then [] else [row]
  {
    assert EventsUpTo([row], 0, agg) == [] && NonPolicyUpTo([row], 0) == [];
  }

  /** One step of the compactor's replay. */
  function ReplayStep(state: Option<State>, row: Row): Option<State> {
    var p := row.payload;
    if row.kind.PolicyCreated? then
      Some(State(Get(p, "capability", Str("")), Get(p, "risk_level", LOW), ACTIVE))
    else if !row.kind.PolicyUpdated? then state
    else if state.Some? then
      var status := Get(p, "status", Null);
      if status == REVOKED then Some(state.value.(status := REVOKED))
      else
        var risk := if "risk_level" in p then p["risk_level"] else state.value.risk;
        if status == ACTIVE then Some(state.value.(status := ACTIVE, risk := risk))
        else Some(state.value.(risk := risk))
    else
      var status := Get(p, "status", Null);
      Some(State(Get(p, "capability", Str("")), Get(p, "risk_level", LOW),
                 if Truthy(status) then status else ACTIVE))
  }

  /** The compactor's reading of an ordered list of policy events. */
  function Replay(evts: seq<Row>): (state: Option<State>)
  {
    if evts == [] then None
    else ReplayStep(Replay(evts[..|evts| - 1]), evts[|evts| - 1])
  }

  /** One step of the live projector that fills the policy table: an update of an
      aggregate without a row touches nothing, and an update that is not a revoke
      always writes the risk level, falling back to "low". */
  function ProjectStep(state: Option<State>, row: Row): Option<State> {
    var p := row.payload;
    if row.kind.PolicyCreated? then
      Some(State(Get(p, "capability", Str("")), Get(p, "risk_level", LOW), ACTIVE))
    else if !row.kind.PolicyUpdated? || state.None? then state
    else
      var status := Get(p, "status", Null);
      if status == REVOKED then Some(state.value.(status := REVOKED))
      else if status == ACTIVE then Some(state.value.(status := ACTIVE, risk := Get(p, "risk_level", LOW)))
      else Some(state.value.(risk := Get(p, "risk_level", LOW)))
  }

  /** Capability, risk and status of the row it ends with after the same events. */
  function Project(evts: seq<Row>): Option<State> {
    if evts == [] then None
    else ProjectStep(Project(evts[..|evts| - 1]), evts[|evts| - 1])
  }

  /** A row of the policy table. */
  datatype PolicyRow = PolicyRow(state: State, createdAt: int, updatedAt: int)

  /** The same step on the whole row: creation sets both times, any update of a row that is
      there sets the second. */
  function ProjectRowStep(row: Option<PolicyRow>, e: Row): Option<PolicyRow> {
    var state := ProjectStep(if row.Some? then Some(row.value.state) else None, e);
    if state.None? || !IsPolicy(e) then row
    else if e.kind.PolicyCreated? || row.None? then Some(PolicyRow(state.value, e.origin.ts, e.origin.ts))
    else Some(PolicyRow(state.value, row.value.createdAt, e.origin.ts))
  }

  /** The whole row after the same events. */
  function ProjectRow(evts: seq<Row>): Option<PolicyRow> {
    if evts == [] then None
    else ProjectRowStep(ProjectRow(evts[..|evts| - 1]), evts[|evts| - 1])
  }

  /** The replay as the script runs it: one state variable updated event by event. */
  method ReplayPolicy(events: seq<Row>) returns (state: Option<State>)
    ensures state == Replay(events)
  {
    state := None;
    for i := 0 to |events|
      invariant state == Replay(events[..i])
    {
      var row := events[i];
      var payload := row.payload;
      assert events[..i + 1][..i] == events[..i];
      if row.kind.PolicyCreated? {
        state := Some(State(Get(payload, "capability", Str("")), Get(payload, "risk_level", LOW), ACTIVE));
      } else if row.kind.PolicyUpdated? && state.Some? {
        var status := Get(payload, "status", Null);
        if status == REVOKED {
          state := Some(state.value.(status := REVOKED));
        } else if status == ACTIVE {
          state := Some(state.value.(status := ACTIVE));
          if "risk_level" in payload {
            state := Some(state.value.(risk := payload["risk_level"]));
          }
        } else if "risk_level" in payload {
          state := Some(state.value.(risk := payload["risk_level"]));
        }
      } else if row.kind.PolicyUpdated? && state.None? {
        var status := Get(payload, "status", Null);
        state := Some(State(Get(payload, "capability", Str("")), Get(payload, "risk_level", LOW),
                            if Truthy(status) then status else ACTIVE));
      }
    }
    assert events[..|events|] == events;
  }
}
