/** What compaction does to the log as a whole: order, numbering, time stamps, length, and
    that doing it twice is doing it once. */
module CompactionShape {
  import opened Common
  import opened PolicyLog
  import opened Compaction

  // ----- Everything that is not a policy row -----

  /** Rows that are not policy rows survive once each, in order, changed only in number. */
  lemma {:induction false} NonPolicyPreserved(log: seq<Row>)
    ensures EraseAll(NonPolicy(Compact(log))) == EraseAll(NonPolicy(log))
  {
    var e := Emit(log, PlanOf(log), |log|);
    PlanIsGood(log);
    EmitNonPolicy(log, PlanOf(log), |log|);
    EventsErase(Compact(log), |e|, "");
    EraseNumber(e);
    EventsErase(e, |e|, "");
    assert EraseAll(EraseAll(NonPolicy(log))) == EraseAll(NonPolicy(log));
  }

  // ----- Where the rows stand -----

  lemma {:induction false} EmitPrefix(log: seq<Row>, plan: Plan, k: nat, m: nat)
    requires k <= m <= |log|
    ensures Emit(log, plan, k) <= Emit(log, plan, m)
    decreases m - k
  {
    if k < m {
      EmitPrefix(log, plan, k, m - 1);
    }
  }

  /** An aggregate's block stands where its first policy event stood: the other rows in
      front of it are the ones that were in front of that event, and no policy row of the
      aggregate stands anywhere else. */
  lemma {:induction false} BlockPosition(log: seq<Row>, k: nat) returns (p: nat)
    requires k < |log| && IsPolicy(log[k]) && EventsUpTo(log, k, log[k].aggregateId) == []
    ensures var agg, out := log[k].aggregateId, EraseAll(Compact(log));
            var b := BlockOf(Events(log, agg), agg);
            && p + |b| <= |out|
            && out[p..p + |b|] == b
            && NonPolicy(out[..p]) == EraseAll(NonPolicyUpTo(log, k))
            && Events(out[..p], agg) == []
            && Events(out[p + |b|..], agg) == []
  {
    var agg, plan := log[k].aggregateId, PlanOf(log);
    PlannedBlock(log, agg);
    PlanIsGood(log);
    CompactErased(log);
    EmitEvents(log, plan, |log|, agg);
    EventsFirst(log, k);
    p := |Emit(log, plan, k)|;
    BlockAt(log, plan, k, Emit(log, plan, |log|));
    BlockRows(plan, agg);
    SplitEvents(Emit(log, plan, |log|), p, Block(plan, agg), agg);
  }

  lemma {:induction false} BlockRows(plan: Plan, agg: string)
    requires GoodPlan(plan)
    ensures forall r :: r in Block(plan, agg) ==> IsPolicyOf(r, agg)
  {
  }

  lemma {:induction false} CompactErased(log: seq<Row>)
    ensures EraseAll(Compact(log)) == Emit(log, PlanOf(log), |log|)
  {
    PlanIsGood(log);
    EmitErased(log, PlanOf(log), |log|);
    EraseNumber(Emit(log, PlanOf(log), |log|));
  }

  lemma {:induction false} BlockAt(log: seq<Row>, plan: Plan, k: nat, out: seq<Row>)
    requires k < |log| && GoodPlan(plan) && out == Emit(log, plan, |log|)
    requires IsPolicy(log[k]) && EventsUpTo(log, k, log[k].aggregateId) == []
    ensures var p, b := |Emit(log, plan, k)|, Block(plan, log[k].aggregateId);
            && p + |b| <= |out| && out[p..p + |b|] == b
            && NonPolicy(out[..p]) == EraseAll(NonPolicyUpTo(log, k))
  {
    EmitPrefix(log, plan, k + 1, |log|);
    CatPrefix(Emit(log, plan, k), Block(plan, log[k].aggregateId), out);
    EmitNonPolicy(log, plan, k);
  }

  lemma {:induction false} SplitEvents(out: seq<Row>, p: nat, b: seq<Row>, agg: string)
    requires p + |b| <= |out| && out[p..p + |b|] == b
    requires forall r :: r in b ==> IsPolicyOf(r, agg)
    requires Events(out, agg) == b
    ensures Events(out[..p], agg) == [] && Events(out[p + |b|..], agg) == []
  {
    var x, y := out[..p], out[p + |b|..];
    CatIsAppend(x, b);
    CatIsAppend(Cat(x, b), y);
    assert out == x + b + y;
    EventsAppend(Cat(x, b), y, agg);
    EventsAppend(x, b, agg);
    OwnEvents(b, |b|, agg, agg);
    assert |b| == |Events(x, agg)| + |b| + |Events(y, agg)|;
  }

  lemma {:induction false} EraseCat(x: seq<Row>, c: seq<Row>)
    ensures EraseAll(Cat(x, c)) == Cat(EraseAll(x), EraseAll(c))
  {
    CatIsAppend(x, c);
    CatIsAppend(EraseAll(x), EraseAll(c));
  }

  lemma {:induction false} ContributionErased(log: seq<Row>, plan: Plan, k: nat)
    requires k < |log| && GoodPlan(plan)
    ensures EraseAll(Contribution(log, plan, k)) == Contribution(log, plan, k)
  {
    var c := Contribution(log, plan, k);
    assert forall i :: 0 <= i < |c| ==> c[i] in c;
  }

  lemma {:induction false} EmitErased(log: seq<Row>, plan: Plan, k: nat)
    requires k <= |log| && GoodPlan(plan)
    ensures EraseAll(Emit(log, plan, k)) == Emit(log, plan, k)
  {
    if k > 0 {
      EmitErased(log, plan, k - 1);
      EraseCat(Emit(log, plan, k - 1), Contribution(log, plan, k - 1));
      ContributionErased(log, plan, k - 1);
    }
  }

  predicate TimeOrdered(log: seq<Row>) {
    forall i, j :: 0 <= i < j < |log| ==> log[i].origin.ts <= log[j].origin.ts
  }

  lemma {:induction false} EventsFirst(log: seq<Row>, k: nat)
    requires k < |log| && IsPolicy(log[k]) && EventsUpTo(log, k, log[k].aggregateId) == []
    ensures Events(log, log[k].aggregateId) != []
    ensures Events(log, log[k].aggregateId)[0] == log[k]
  {
    var agg := log[k].aggregateId;
    for n := k + 1 to |log|
      invariant EventsUpTo(log, n, agg) != [] && EventsUpTo(log, n, agg)[0] == log[k]
    {
    }
  }

  /** Every row of an aggregate's block carries the time of that aggregate's first event. */
  ghost predicate TimedPlan(log: seq<Row>, plan: Plan) {
    forall agg :: agg in plan ==>
      Events(log, agg) != [] && forall r :: r in plan[agg] ==> r.origin.ts == Events(log, agg)[0].origin.ts
  }

  /** Time order, and nothing later than `bound`. */
  predicate TimedUpTo(rows: seq<Row>, bound: int) {
    TimeOrdered(rows) && forall i :: 0 <= i < |rows| ==> rows[i].origin.ts <= bound
  }

  lemma {:induction false} TimedCat(x: seq<Row>, c: seq<Row>, low: int, ts: int)
    requires TimedUpTo(x, low) && low <= ts
    requires forall i :: 0 <= i < |c| ==> c[i].origin.ts == ts
    ensures TimedUpTo(Cat(x, c), ts)
  {
    CatIsAppend(x, c);
  }

  lemma {:induction false} ContributionTimes(log: seq<Row>, plan: Plan, k: nat)
    requires k < |log| && TimedPlan(log, plan)
    ensures forall i :: 0 <= i < |Contribution(log, plan, k)| ==>
            Contribution(log, plan, k)[i].origin.ts == log[k].origin.ts
  {
    var c := Contribution(log, plan, k);
    if IsPolicy(log[k]) && c != [] {
      EventsFirst(log, k);
      forall i | 0 <= i < |c| ensures c[i].origin.ts == log[k].origin.ts {
        assert c[i] in c;
      }
    }
  }

  lemma {:induction false} EmitTimes(log: seq<Row>, plan: Plan, k: nat)
    requires 0 < k <= |log| && TimeOrdered(log) && TimedPlan(log, plan)
    ensures TimedUpTo(Emit(log, plan, k), log[k - 1].origin.ts)
  {
    ContributionTimes(log, plan, k - 1);
    if k == 1 {
      TimedCat([], Contribution(log, plan, 0), log[0].origin.ts, log[0].origin.ts);
      assert Emit(log, plan, 0) == [];
    } else {
      EmitTimes(log, plan, k - 1);
      TimedCat(Emit(log, plan, k - 1), Contribution(log, plan, k - 1), log[k - 2].origin.ts, log[k - 1].origin.ts);
    }
  }

  /** A log in time order stays in time order. */
  lemma {:induction false} TimeOrderPreserved(log: seq<Row>)
    requires TimeOrdered(log)
    ensures TimeOrdered(Compact(log))
  {
    var e, c := Emit(log, PlanOf(log), |log|), Compact(log);
    forall agg | agg in PlanOf(log) ensures Events(log, agg) != [] {
      PlannedBlock(log, agg);
    }
    if log != [] {
      EmitTimes(log, PlanOf(log), |log|);
    }
    assert forall i :: 0 <= i < |c| ==> c[i].origin.ts == e[i].origin.ts;
  }

  // ----- How long the result is -----

  /** The policy rows of the listed aggregates, counted. */
  function CountEvents(order: seq<string>, log: seq<Row>): nat {
    if order == [] then 0 else CountEvents(order[..|order| - 1], log) + |Events(log, order[|order| - 1])|
  }

  /** `order` names every policy aggregate of the log once. */
  ghost predicate Covers(order: seq<string>, log: seq<Row>) {
    Distinct(order) && forall r :: r in log && IsPolicy(r) ==> r.aggregateId in order
  }

  lemma {:induction false} CountSnoc(order: seq<string>, log: seq<Row>, row: Row)
    requires Distinct(order)
    ensures CountEvents(order, log + [row])
            == CountEvents(order, log) + if IsPolicy(row) && row.aggregateId in order then 1 else 0
  {
    if order != [] {
      var init, agg := order[..|order| - 1], order[|order| - 1];
      DistinctAt(order, |order| - 1);
      CountSnoc(init, log, row);
      CatIsAppend(log, [row]);
      EventsAppend(log, [row], agg);
      EventsOne(row, agg);
      assert order == init + [agg];
    }
  }

  lemma {:induction false} CountEmpty(order: seq<string>)
    ensures CountEvents(order, []) == 0
  {
    if order != [] {
      CountEmpty(order[..|order| - 1]);
    }
  }

  /** Every row is either a policy row of exactly one listed aggregate or none at all. */
  lemma {:induction false} CountPartition(order: seq<string>, log: seq<Row>)
    requires Covers(order, log)
    ensures |log| == |NonPolicy(log)| + CountEvents(order, log)
  {
    if log == [] {
      CountEmpty(order);
    } else {
      var init, last := log[..|log| - 1], log[|log| - 1];
      assert log == init + [last] && last in log;
      CountPartition(order, init);
      CountSnoc(order, init, last);
      SamePrefix(log, init, |init|, "");
    }
  }

  /** An aggregate ends with more rows than it had exactly when it was one lone revoke. */
  lemma {:induction false} AggregateGrowsIff(log: seq<Row>, agg: string)
    ensures |Events(Compact(log), agg)| > |Events(log, agg)| <==>
              var evts := Events(log, agg);
              && |evts| == 1 && evts[0].kind.PolicyUpdated?
              && Get(evts[0].payload, "status", Null) == REVOKED
              && Truthy(Get(evts[0].payload, "capability", Str("")))
  {
    var evts := Events(log, agg);
    CompactEvents(log, agg);
    EventsMembers(log, |log|, agg);
    assert log[..|log|] == log;
    if |evts| == 1 {
      assert evts[0] in evts;
      assert evts[..0] == [];
      assert Replay(evts) == ReplayStep(None, evts[0]);
    }
  }

  lemma {:induction false} CountLe(order: seq<string>, x: seq<Row>, y: seq<Row>)
    requires forall a :: a in order ==> |Events(x, a)| <= |Events(y, a)|
    ensures CountEvents(order, x) <= CountEvents(order, y)
  {
    if order != [] {
      assert order == order[..|order| - 1] + [order[|order| - 1]];
      CountLe(order[..|order| - 1], x, y);
    }
  }

  lemma {:induction false} CompactCovered(order: seq<string>, log: seq<Row>)
    requires Covers(order, log)
    ensures Covers(order, Compact(log))
  {
    forall r | r in Compact(log) && IsPolicy(r) ensures r.aggregateId in order {
      EventsMembers(Compact(log), |Compact(log)|, r.aggregateId);
      assert Compact(log)[..|Compact(log)|] == Compact(log);
      CompactEvents(log, r.aggregateId);
      assert r in Events(Compact(log), r.aggregateId);
      assert Events(log, r.aggregateId) != [];
      var e := Events(log, r.aggregateId)[0];
      assert e in Events(log, r.aggregateId);
      EventsMembers(log, |log|, r.aggregateId);
      assert log[..|log|] == log;
    }
  }

  /** The length is what was not policy plus the kept policy rows, and the log never grows
      when every aggregate begins with a PolicyCreated. */
  lemma {:induction false} CompactLength(order: seq<string>, log: seq<Row>)
    requires Covers(order, log)
    ensures |Compact(log)| == |NonPolicy(log)| + CountEvents(order, Compact(log))
    ensures (forall a :: a in order && Events(log, a) != [] ==> Events(log, a)[0].kind.PolicyCreated?)
            ==> |Compact(log)| <= |log|
  {
    CompactCovered(order, log);
    CountPartition(order, log);
    CountPartition(order, Compact(log));
    NonPolicyPreserved(log);
    assert |NonPolicy(Compact(log))| == |EraseAll(NonPolicy(log))|;
    if forall a :: a in order && Events(log, a) != [] ==> Events(log, a)[0].kind.PolicyCreated? {
      forall a | a in order ensures |Events(Compact(log), a)| <= |Events(log, a)| {
        AggregateGrowsIff(log, a);
      }
      CountLe(order, Compact(log), log);
    }
  }

  // ----- Twice is once -----

  lemma {:induction false} BlockStable(evts: seq<Row>, agg: string)
    ensures BlockOf(BlockOf(evts, agg), agg) == BlockOf(evts, agg)
  {
    if BlockOf(evts, agg) != [] {
      ReplayBlock(evts, agg);
    }
  }

  /** Compaction plans the same blocks for its own output. */
  lemma {:induction false} PlanStable(log: seq<Row>)
    ensures PlanOf(EraseAll(Compact(log))) == PlanOf(log)
  {
    var out := EraseAll(Compact(log));
    forall agg
      ensures Block(PlanOf(out), agg) == Block(PlanOf(log), agg)
    {
      CompactEvents(log, agg);
      EventsErase(Compact(log), |Compact(log)|, agg);
      PlannedBlock(log, agg);
      PlannedBlock(out, agg);
      BlockStable(Events(log, agg), agg);
    }
    PlanIsGood(log);
    PlanIsGood(out);
    SamePlans(PlanOf(out), PlanOf(log));
  }

  lemma {:induction false} SamePlans(x: Plan, y: Plan)
    requires GoodPlan(x) && GoodPlan(y)
    requires forall agg :: Block(x, agg) == Block(y, agg)
    ensures x == y
  {
    forall agg ensures agg in x <==> agg in y {
      assert Block(x, agg) == Block(y, agg);
    }
    forall agg | agg in x ensures x[agg] == y[agg] {
      assert Block(x, agg) == Block(y, agg);
    }
  }

  /** Once an aggregate has appeared, its further policy rows add nothing. */
  lemma {:induction false} EmitQuiet(out: seq<Row>, plan: Plan, p: nat, n: nat, agg: string)
    requires p <= n <= |out| && EventsUpTo(out, p, agg) != []
    requires forall i :: p <= i < n ==> IsPolicyOf(out[i], agg)
    ensures Emit(out, plan, n) == Emit(out, plan, p) && EventsUpTo(out, n, agg) != []
  {
    if p < n {
      EmitQuiet(out, plan, p, n - 1, agg);
    }
  }

  /** Where a whole block stands in a log, compaction reproduces it from its first row. */
  lemma {:induction false} EmitBlock(out: seq<Row>, plan: Plan, p: nat, b: seq<Row>, agg: string)
    requires GoodPlan(plan) && b != [] && b == Block(plan, agg) && p + |b| <= |out|
    requires forall i :: p <= i < p + |b| ==> IsPolicyOf(out[i], agg)
    requires EventsUpTo(out, p, agg) == []
    ensures Emit(out, plan, p + |b|) == Cat(Emit(out, plan, p), b)
  {
    assert Contribution(out, plan, p) == b;
    EmitQuiet(out, plan, p + 1, p + |b|, agg);
  }

  lemma {:induction false} SliceRows(out: seq<Row>, p: nat, b: seq<Row>, agg: string)
    requires b != [] && p + |b| <= |out| && out[p..p + |b|] == b && forall r :: r in b ==> IsPolicyOf(r, agg)
    ensures out[p] == b[0] && forall i :: p <= i < p + |b| ==> IsPolicyOf(out[i], agg)
  {
    forall i | p <= i < p + |b| ensures IsPolicyOf(out[i], agg) {
      assert out[i] == b[i - p] && b[i - p] in b;
    }
  }

  lemma {:induction false} EmitStable(log: seq<Row>, plan: Plan, out: seq<Row>, k: nat)
    requires k <= |log| && GoodPlan(plan) && out == Emit(log, plan, |log|)
    ensures |Emit(log, plan, k)| <= |out| && Emit(out, plan, |Emit(log, plan, k)|) == Emit(log, plan, k)
  {
    EmitPrefix(log, plan, k, |log|);
    if k > 0 {
      EmitStable(log, plan, out, k - 1);
      var x, c, agg := Emit(log, plan, k - 1), Contribution(log, plan, k - 1), log[k - 1].aggregateId;
      if !IsPolicy(log[k - 1]) {
        RowAgain(out, plan, x, Erase(log[k - 1]));
      } else if c != [] {
        EmitEvents(log, plan, k - 1, agg);
        BlockAgain(out, plan, x, c, agg);
      }
    }
  }

  lemma {:induction false} BlockAgain(out: seq<Row>, plan: Plan, x: seq<Row>, c: seq<Row>, agg: string)
    requires GoodPlan(plan) && c != [] && c == Block(plan, agg)
    requires Cat(x, c) <= out && Emit(out, plan, |x|) == x && Events(x, agg) == []
    ensures Emit(out, plan, |Cat(x, c)|) == Cat(x, c)
  {
    CatPrefix(x, c, out);
    assert |Cat(x, c)| == |x| + |c|;
    SameSlice(out, x, agg);
    BlockRows(plan, agg);
    SliceRows(out, |x|, c, agg);
    EmitBlock(out, plan, |x|, c, agg);
  }

  lemma {:induction false} RowAgain(out: seq<Row>, plan: Plan, x: seq<Row>, row: Row)
    requires !IsPolicy(row) && row == Erase(row)
    requires Cat(x, [row]) <= out && Emit(out, plan, |x|) == x
    ensures Emit(out, plan, |Cat(x, [row])|) == Cat(x, [row])
  {
    CatPrefix(x, [row], out);
    assert |Cat(x, [row])| == |x| + 1;
    assert out[|x|] == out[|x|..|x| + 1][0];
    EmitOther(out, plan, |x|, row);
  }

  lemma {:induction false} SameSlice(out: seq<Row>, x: seq<Row>, agg: string)
    requires |x| <= |out| && out[..|x|] == x
    ensures EventsUpTo(out, |x|, agg) == Events(x, agg)
  {
    SamePrefix(out, x, |x|, agg);
  }

  lemma {:induction false} EmitOther(out: seq<Row>, plan: Plan, p: nat, row: Row)
    requires p < |out| && out[p] == row == Erase(row) && !IsPolicy(row)
    ensures Emit(out, plan, p + 1) == Cat(Emit(out, plan, p), [row])
  {
  }

  lemma {:induction false} ContributionErase(log: seq<Row>, plan: Plan, k: nat)
    requires k < |log|
    ensures Contribution(EraseAll(log), plan, k) == Contribution(log, plan, k)
  {
    EventsErase(log, k, log[k].aggregateId);
  }

  lemma {:induction false} EmitErase(log: seq<Row>, plan: Plan, k: nat)
    requires k <= |log|
    ensures Emit(EraseAll(log), plan, k) == Emit(log, plan, k)
  {
    if k > 0 {
      EmitErase(log, plan, k - 1);
      ContributionErase(log, plan, k - 1);
    }
  }

  lemma {:induction false} PlanErase(log: seq<Row>)
    ensures PlanOf(EraseAll(log)) == PlanOf(log)
  {
    forall agg ensures Block(PlanOf(EraseAll(log)), agg) == Block(PlanOf(log), agg) {
      EventsErase(log, |log|, agg);
      ReplayErase(Events(log, agg));
      PlannedBlock(log, agg);
      PlannedBlock(EraseAll(log), agg);
    }
    PlanIsGood(log);
    PlanIsGood(EraseAll(log));
    SamePlans(PlanOf(EraseAll(log)), PlanOf(log));
  }

  /** Compacting a compacted log changes nothing, not even ids, actors or causes. */
  lemma {:induction false} CompactIdempotent(log: seq<Row>)
    ensures Compact(Compact(log)) == Compact(log)
  {
    var plan, out := PlanOf(log), Compact(log);
    var e := Emit(log, plan, |log|);
    PlanIsGood(log);
    PlanErase(out);
    PlanStable(log);
    EmitErased(log, plan, |log|);
    EraseNumber(e);
    EmitErase(out, plan, |out|);
    EmitStable(log, plan, e, |log|);
  }
}
