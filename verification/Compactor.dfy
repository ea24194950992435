/** The compaction script itself: group, replay, replace, renumber. */
module Compactor {
  import opened Common
  import opened StableSort
  import opened PolicyLog
  import opened Compaction
  import opened CompactionShape

  function SeqNo(row: Row): int {
    row.seqNo
  }

  /** The event log's primary key. */
  ghost predicate DistinctSeqs(rows: seq<Row>) {
    DistinctKeys(rows, SeqNo)
  }

  /** `log` is `raw` in the order of its sequence numbers. */
  ghost predicate InSeqOrder(log: seq<Row>, raw: seq<Row>) {
    Ordered(log, SeqNo) && multiset(log) == multiset(raw)
  }

  datatype Stats = Stats(total: nat, policyBefore: nat, nonPolicy: nat, aggregates: nat,
                         after: nat, policyKept: nat, policyRemoved: int)

  predicate Dense(log: seq<Row>) {
    forall i :: 0 <= i < |log| ==> log[i].seqNo == i + 1
  }

  lemma {:induction false} EventsOrdered(log: seq<Row>, n: nat, agg: string)
    requires n <= |log| && Ordered(log, SeqNo) && DistinctSeqs(log)
    ensures var e := EventsUpTo(log, n, agg); Ordered(e, SeqNo) && DistinctSeqs(e)
    ensures forall r :: r in EventsUpTo(log, n, agg) ==> exists i :: 0 <= i < n && log[i] == r
  {
    if n > 0 {
      EventsOrdered(log, n - 1, agg);
      var e := EventsUpTo(log, n - 1, agg);
      UseOrdered(e, SeqNo);
      UseDistinct(e, SeqNo);
      forall i | 0 <= i < |e| ensures SeqNo(e[i]) < SeqNo(log[n - 1]) {
        assert e[i] in e;
        var j :| 0 <= j < n - 1 && log[j] == e[i];
        assert InOrder(log, SeqNo, j, n - 1) && Differ(log, SeqNo, j, n - 1);
      }
    }
  }

  lemma {:induction false} EventsDistinct(log: seq<Row>, n: nat, agg: string)
    requires n <= |log| && DistinctSeqs(log)
    ensures DistinctSeqs(EventsUpTo(log, n, agg))
    ensures forall r :: r in EventsUpTo(log, n, agg) ==> exists i :: 0 <= i < n && log[i] == r
  {
    if n > 0 {
      EventsDistinct(log, n - 1, agg);
      var e := EventsUpTo(log, n - 1, agg);
      UseDistinct(e, SeqNo);
      forall i | 0 <= i < |e| ensures SeqNo(e[i]) != SeqNo(log[n - 1]) {
        assert e[i] in e;
        var j :| 0 <= j < n - 1 && log[j] == e[i];
        assert Differ(log, SeqNo, j, n - 1);
      }
    }
  }

  /** Sorting one aggregate's rows is taking its rows out of the sorted log. */
  lemma {:induction false} SortedEvents(raw: seq<Row>, log: seq<Row>, agg: string)
    requires DistinctSeqs(raw) && InSeqOrder(log, raw)
    ensures SortBy(Events(raw, agg), SeqNo) == Events(log, agg)
  {
    var e := Events(raw, agg);
    var s := SortBy(e, SeqNo);
    SortKeepsElements(e, SeqNo);
    DistinctKeysPermute(raw, log, SeqNo);
    SortOrdered(e, SeqNo, |e|);
    EventsDistinct(raw, |raw|, agg);
    DistinctKeysPermute(e, s, SeqNo);
    EventsOrdered(log, |log|, agg);
    EventsMembers(raw, |raw|, agg);
    EventsMembers(log, |log|, agg);
    assert raw[..|raw|] == raw && log[..|log|] == log;
    MultisetMembers(raw, log);
    MultisetMembers(e, s);
    OrderUnique(s, Events(log, agg), SeqNo);
  }

  /** Policy rows the plan keeps for the listed aggregates. */
  function SumBlocks(order: seq<string>, plan: Plan): nat {
    if order == [] then 0
    else SumBlocks(order[..|order| - 1], plan) + |Block(plan, order[|order| - 1])|
  }

  lemma {:induction false} SumBlocksIs(order: seq<string>, log: seq<Row>)
    ensures SumBlocks(order, PlanOf(log)) == CountEvents(order, Compact(log))
  {
    if order != [] {
      SumBlocksIs(order[..|order| - 1], log);
      CompactEvents(log, order[|order| - 1]);
      PlannedBlock(log, order[|order| - 1]);
    }
  }

  /** First pass: the rows by aggregate, aggregates in the order they first appear. */
  method GroupRows(raw: seq<Row>)
    returns (policyByAgg: map<string, seq<Row>>, order: seq<string>, other: seq<Row>)
    ensures policyByAgg.Keys == Aggregates(raw)
    ensures forall a :: a in policyByAgg ==> policyByAgg[a] == Events(raw, a)
    ensures Distinct(order) && forall a :: a in order <==> a in policyByAgg
    ensures other == NonPolicy(raw)
  {
    policyByAgg, order, other := map[], [], [];
    for i := 0 to |raw|
      invariant forall a :: a in policyByAgg <==> EventsUpTo(raw, i, a) != []
      invariant forall a :: a in policyByAgg ==> policyByAgg[a] == EventsUpTo(raw, i, a)
      invariant Distinct(order) && forall a :: a in order <==> a in policyByAgg
      invariant other == NonPolicyUpTo(raw, i)
    {
      var row := raw[i];
      if IsPolicy(row) {
        var agg := row.aggregateId;
        if agg !in policyByAgg {
          policyByAgg := policyByAgg[agg := []];
          DistinctSnoc(order, agg);
          order := order + [agg];
        }
        policyByAgg := policyByAgg[agg := policyByAgg[agg] + [row]];
      } else {
        other := other + [row];
      }
    }
    forall a ensures a in policyByAgg <==> a in Aggregates(raw) {
      PlannedBlock(raw, a);
    }
  }

  /** The number of the first event of every aggregate that is kept. */
  ghost function FirstsOf(log: seq<Row>): (firsts: map<string, int>)
    ensures firsts.Keys == PlanOf(log).Keys
  {
    map agg | agg in PlanOf(log) :: if Events(log, agg) == [] then 0 else Events(log, agg)[0].seqNo
  }

  /** The replacement map holds each kept aggregate's block at its first event's number. */
  ghost predicate Replaces(replacementAt: map<int, seq<Row>>, firsts: map<string, int>, plan: Plan, done: set<string>) {
    && (forall a :: a in done && a in firsts ==>
          firsts[a] in replacementAt && EraseAll(replacementAt[firsts[a]]) == Block(plan, a))
    && (forall n :: n in replacementAt ==> exists a :: a in done && a in firsts && firsts[a] == n)
  }

  lemma {:induction false} FirstIndex(log: seq<Row>, agg: string) returns (i: nat)
    requires agg in PlanOf(log)
    ensures i < |log| && log[i].seqNo == FirstsOf(log)[agg] && log[i].aggregateId == agg
  {
    PlannedBlock(log, agg);
    EventsMembers(log, |log|, agg);
    var x := Events(log, agg)[0];
    assert x in Events(log, agg);
    i :| 0 <= i < |log| && log[i] == x;
  }

  ghost predicate OpenApart(firsts: map<string, int>, a: string, b: string) {
    a in firsts && b in firsts && firsts[a] == firsts[b] ==> a == b
  }

  /** No two aggregates open at the same row. */
  lemma {:induction false} FirstsDiffer(log: seq<Row>)
    requires DistinctSeqs(log)
    ensures forall a, b :: OpenApart(FirstsOf(log), a, b)
  {
    forall a, b | a in FirstsOf(log) && b in FirstsOf(log) && FirstsOf(log)[a] == FirstsOf(log)[b] ensures a == b {
      var i := FirstIndex(log, a);
      var j := FirstIndex(log, b);
      assert Differ(log, SeqNo, i, j) && Differ(log, SeqNo, j, i);
    }
  }

  lemma {:induction false} ReplacesSkip(m: map<int, seq<Row>>, firsts: map<string, int>, plan: Plan,
                                        done: set<string>, agg: string)
    requires Replaces(m, firsts, plan, done) && agg !in firsts
    ensures Replaces(m, firsts, plan, done + {agg})
  {
    forall n | n in m ensures exists a :: a in done + {agg} && a in firsts && firsts[a] == n {
      var a :| a in done && a in firsts && firsts[a] == n;
      assert a in done + {agg};
    }
  }

  lemma {:induction false} ReplacesExtend(m: map<int, seq<Row>>, firsts: map<string, int>, plan: Plan,
                                          done: set<string>, agg: string, syn: seq<Row>)
    requires Replaces(m, firsts, plan, done) && agg in firsts && EraseAll(syn) == Block(plan, agg)
    requires forall a, b :: OpenApart(firsts, a, b)
    ensures Replaces(m[firsts[agg] := syn], firsts, plan, done + {agg})
  {
    var m' := m[firsts[agg] := syn];
    forall a | a in done + {agg} && a in firsts ensures firsts[a] in m' && EraseAll(m'[firsts[a]]) == Block(plan, a) {
      assert OpenApart(firsts, a, agg);
    }
    forall n | n in m' ensures exists a :: a in done + {agg} && a in firsts && firsts[a] == n {
      if n == firsts[agg] {
        assert agg in done + {agg};
      } else {
        assert n in m;
        var a :| a in done && a in firsts && firsts[a] == n;
        assert a in done + {agg};
      }
    }
  }

  /** What the plan holds for an aggregate with these events, in order. */
  ghost predicate Planned(evts: seq<Row>, agg: string, firsts: map<string, int>, plan: Plan) {
    && evts != []
    && (agg in plan <==> Kept(Replay(evts)))
    && (agg in plan ==> agg in firsts && firsts[agg] == evts[0].seqNo && plan[agg] == BlockOf(evts, agg))
  }

  ghost predicate PlannedAt(policyByAgg: map<string, seq<Row>>, agg: string, firsts: map<string, int>, plan: Plan) {
    agg in policyByAgg && Planned(SortBy(policyByAgg[agg], SeqNo), agg, firsts, plan)
  }

  /** Second pass: replay every aggregate and file its synthetic rows under the number of
      its first event. */
  method PlanReplacements(policyByAgg: map<string, seq<Row>>, order: seq<string>,
                          ghost firsts: map<string, int>, ghost plan: Plan)
    returns (replacementAt: map<int, seq<Row>>, kept: nat)
    requires firsts.Keys == plan.Keys && forall a :: a in plan ==> a in order
    requires forall a, b :: OpenApart(firsts, a, b)
    requires forall a {:trigger PlannedAt(policyByAgg, a, firsts, plan)} :: a in order ==>
             PlannedAt(policyByAgg, a, firsts, plan)
    ensures Replaces(replacementAt, firsts, plan, firsts.Keys)
    ensures kept == SumBlocks(order, plan)
  {
    replacementAt, kept := map[], 0;
    ghost var done: set<string> := {};
    for j := 0 to |order|
      invariant forall a :: a in done <==> a in order[..j]
      invariant Replaces(replacementAt, firsts, plan, done)
      invariant kept == SumBlocks(order[..j], plan)
    {
      var agg := order[j];
      assert PlannedAt(policyByAgg, agg, firsts, plan);
      assert order[..j + 1] == order[..j] + [agg] && order[..j + 1][..j] == order[..j];
      var evtsSorted := SortBy(policyByAgg[agg], SeqNo);
      var state := ReplayPolicy(evtsSorted);
      if state.None? || !Truthy(state.value.capability) {
        ReplacesSkip(replacementAt, firsts, plan, done, agg);
        done := done + {agg};
        continue;
      }
      var first := evtsSorted[0];
      var syn := SyntheticRows(agg, state.value, first.origin, 0);
      ReplacesExtend(replacementAt, firsts, plan, done, agg, syn);
      replacementAt := replacementAt[first.seqNo := syn];
      kept := kept + |syn|;
      done := done + {agg};
    }
    assert order[..|order|] == order;
  }

  lemma {:induction false} NumberErased(x: seq<Row>, y: seq<Row>)
    requires EraseAll(x) == EraseAll(y)
    ensures Number(x) == Number(y)
  {
    forall i | 0 <= i < |x| ensures Number(x)[i] == Number(y)[i] {
      assert EraseAll(x)[i] == EraseAll(y)[i];
    }
  }

  lemma {:induction false} FirstHere(log: seq<Row>, k: nat)
    requires k < |log| && IsPolicy(log[k]) && EventsUpTo(log, k, log[k].aggregateId) == []
    requires log[k].aggregateId in PlanOf(log)
    ensures FirstsOf(log)[log[k].aggregateId] == log[k].seqNo
  {
    EventsFirst(log, k);
  }

  lemma {:induction false} FirstThere(log: seq<Row>, k: nat, a: string)
    requires DistinctSeqs(log) && k < |log| && a in PlanOf(log) && FirstsOf(log)[a] == log[k].seqNo
    ensures log[k].aggregateId == a
  {
    var i := FirstIndex(log, a);
    assert Differ(log, SeqNo, i, k) && Differ(log, SeqNo, k, i);
  }

  /** At a row that opens its aggregate the replacement map holds what the plan holds. */
  ghost predicate FiledAt(m: map<int, seq<Row>>, plan: Plan, log: seq<Row>, k: int) {
    0 <= k < |log| && IsPolicy(log[k]) && EventsUpTo(log, k, log[k].aggregateId) == [] ==>
      && (log[k].seqNo in m <==> log[k].aggregateId in plan)
      && (log[k].seqNo in m ==> EraseAll(m[log[k].seqNo]) == Block(plan, log[k].aggregateId))
  }

  lemma {:induction false} ReplacementHere(m: map<int, seq<Row>>, firsts: map<string, int>, plan: Plan,
                                           log: seq<Row>, k: nat)
    requires DistinctSeqs(log) && firsts == FirstsOf(log) && plan == PlanOf(log)
             && Replaces(m, firsts, plan, firsts.Keys)
    requires k < |log| && IsPolicy(log[k]) && EventsUpTo(log, k, log[k].aggregateId) == []
    ensures FiledAt(m, plan, log, k)
  {
    var agg, n := log[k].aggregateId, log[k].seqNo;
    if agg in plan {
      FirstHere(log, k);
      assert agg in firsts.Keys;
    }
    if n in m {
      var a :| a in firsts.Keys && a in firsts && firsts[a] == n;
      FirstThere(log, k, a);
    }
  }

  /** Copy one block to the end of the output, numbering as it goes. */
  method AppendBlock(output: seq<Row>, nextSeq: int, synRows: seq<Row>, ghost x: seq<Row>)
    returns (output': seq<Row>, nextSeq': int)
    requires output == Number(x) && nextSeq == |output| + 1
    ensures output' == Number(Cat(x, EraseAll(synRows))) && nextSeq' == |output'| + 1
  {
    output', nextSeq' := output, nextSeq;
    assert x + synRows[..0] == x;
    for i := 0 to |synRows|
      invariant output' == Number(x + synRows[..i])
      invariant nextSeq' == |output'| + 1
    {
      assert x + synRows[..i + 1] == x + synRows[..i] + [synRows[i]];
      output' := output' + [synRows[i].(seqNo := nextSeq')];
      nextSeq' := nextSeq' + 1;
    }
    assert synRows[..|synRows|] == synRows;
    NumberErased(x + synRows, x + EraseAll(synRows));
    CatIsAppend(x, EraseAll(synRows));
  }

  lemma {:induction false} CopiedRow(log: seq<Row>, plan: Plan, k: nat)
    requires k < |log| && !IsPolicy(log[k])
    ensures Number(Emit(log, plan, k + 1))
            == Number(Emit(log, plan, k)) + [log[k].(seqNo := |Emit(log, plan, k)| + 1)]
  {
    var x := Emit(log, plan, k);
    CatIsAppend(x, [Erase(log[k])]);
  }

  /** Third pass: walk the log in order, put each block where its aggregate first appears,
      copy everything else, and number the result as it grows. */
  method RewriteLog(log: seq<Row>, replacementAt: map<int, seq<Row>>, ghost plan: Plan) returns (output: seq<Row>)
    requires forall k :: FiledAt(replacementAt, plan, log, k)
    ensures output == Number(Emit(log, plan, |log|)) && Dense(output)
  {
    var skipAggs: set<string> := {};
    output := [];
    var nextSeq := 1;
    for k := 0 to |log|
      invariant forall a :: a in skipAggs <==> EventsUpTo(log, k, a) != []
      invariant output == Number(Emit(log, plan, k))
      invariant nextSeq == |output| + 1
    {
      var row := log[k];
      var agg := row.aggregateId;
      if IsPolicy(row) {
        if agg in skipAggs {
          continue;
        }
        assert FiledAt(replacementAt, plan, log, k);
        if row.seqNo !in replacementAt {
          skipAggs := skipAggs + {agg};
          continue;
        }
        output, nextSeq := AppendBlock(output, nextSeq, replacementAt[row.seqNo], Emit(log, plan, k));
        skipAggs := skipAggs + {agg};
        continue;
      }
      CopiedRow(log, plan, k);
      output := output + [row.(seqNo := nextSeq)];
      nextSeq := nextSeq + 1;
    }
  }

  method SumLengths(policyByAgg: map<string, seq<Row>>, order: seq<string>, ghost raw: seq<Row>) returns (total: nat)
    requires forall a :: a in order ==> a in policyByAgg && policyByAgg[a] == Events(raw, a)
    ensures total == CountEvents(order, raw)
  {
    total := 0;
    for j := 0 to |order|
      invariant total == CountEvents(order[..j], raw)
    {
      assert order[..j + 1][..j] == order[..j];
      total := total + |policyByAgg[order[j]]|;
    }
    assert order[..|order|] == order;
  }

  /** Compaction as the script runs it on rows in any order. */
  method PlanCompaction(raw: seq<Row>) returns (output: seq<Row>, stats: Stats, ghost log: seq<Row>)
    requires DistinctSeqs(raw)
    ensures InSeqOrder(log, raw) && output == Compact(log)
    ensures Dense(output)
    ensures stats.total == |raw| == stats.policyBefore + stats.nonPolicy
    ensures stats.nonPolicy == |NonPolicy(raw)| && stats.aggregates == |Aggregates(raw)|
    ensures stats.after == |output| == stats.nonPolicy + stats.policyKept
    ensures stats.policyRemoved == |raw| - |output|
  {
    var policyByAgg, order, other := GroupRows(raw);
    var sorted := SortBy(raw, SeqNo);
    SortKeepsElements(raw, SeqNo);
    log := sorted;
    SortOrdered(raw, SeqNo, |raw|);
    var beforePolicy := SumLengths(policyByAgg, order, raw);
    var kept;
    output, kept := Rebuild(sorted, policyByAgg, order, raw);
    stats := Stats(|raw|, beforePolicy, |other|, |policyByAgg|, |output|, kept, (beforePolicy as int) - (kept as int));
    assert |policyByAgg| == |policyByAgg.Keys|;
    Totals(raw, log, order);
  }

  /** Second and third pass together. */
  method Rebuild(log: seq<Row>, policyByAgg: map<string, seq<Row>>, order: seq<string>, ghost raw: seq<Row>)
    returns (output: seq<Row>, kept: nat)
    requires DistinctSeqs(raw) && InSeqOrder(log, raw)
    requires forall a :: a in order <==> a in Aggregates(raw)
    requires forall a :: a in order ==> a in policyByAgg && policyByAgg[a] == Events(raw, a)
    ensures output == Compact(log) && Dense(output) && kept == SumBlocks(order, PlanOf(log))
  {
    ghost var plan, firsts := PlanOf(log), FirstsOf(log);
    PlanReady(raw, log, order, policyByAgg, firsts, plan);
    var replacementAt;
    replacementAt, kept := PlanReplacements(policyByAgg, order, firsts, plan);
    MapReady(replacementAt, firsts, plan, log);
    output := RewriteLog(log, replacementAt, plan);
  }

  lemma {:induction false} PlanReady(raw: seq<Row>, log: seq<Row>, order: seq<string>,
                                     policyByAgg: map<string, seq<Row>>, firsts: map<string, int>, plan: Plan)
    requires DistinctSeqs(raw) && InSeqOrder(log, raw) && plan == PlanOf(log) && firsts == FirstsOf(log)
    requires forall a :: a in order <==> a in Aggregates(raw)
    requires forall a :: a in order ==> a in policyByAgg && policyByAgg[a] == Events(raw, a)
    ensures DistinctSeqs(log) && forall a, b :: OpenApart(firsts, a, b)
    ensures forall a :: a in plan ==> a in order
    ensures forall a {:trigger PlannedAt(policyByAgg, a, firsts, plan)} :: a in order ==>
            PlannedAt(policyByAgg, a, firsts, plan)
  {
    DistinctKeysPermute(raw, log, SeqNo);
    MultisetMembers(raw, log);
    FirstsDiffer(log);
    forall a | a in order ensures PlannedAt(policyByAgg, a, firsts, plan) {
      SortedEvents(raw, log, a);
      PlannedBlock(log, a);
    }
  }

  lemma {:induction false} MapReady(m: map<int, seq<Row>>, firsts: map<string, int>, plan: Plan, log: seq<Row>)
    requires DistinctSeqs(log) && firsts == FirstsOf(log) && plan == PlanOf(log)
             && Replaces(m, firsts, plan, firsts.Keys)
    ensures forall k :: FiledAt(m, plan, log, k)
  {
    forall k | 0 <= k < |log| && IsPolicy(log[k]) && EventsUpTo(log, k, log[k].aggregateId) == []
      ensures FiledAt(m, plan, log, k)
    {
      ReplacementHere(m, firsts, plan, log, k);
    }
  }

  /** There is only one such log, so the output is a function of the rows alone. */
  lemma {:induction false} OneOrder(raw: seq<Row>, log: seq<Row>, l: seq<Row>)
    requires DistinctSeqs(raw) && InSeqOrder(log, raw) && InSeqOrder(l, raw)
    ensures l == log
  {
    DistinctKeysPermute(raw, log, SeqNo);
    MultisetMembers(raw, log);
    DistinctKeysPermute(raw, l, SeqNo);
    MultisetMembers(raw, l);
    OrderUnique(l, log, SeqNo);
  }

  lemma {:induction false} Totals(raw: seq<Row>, log: seq<Row>, order: seq<string>)
    requires DistinctSeqs(raw) && InSeqOrder(log, raw)
    requires Distinct(order) && forall a :: a in order <==> a in Aggregates(raw)
    ensures |raw| == |NonPolicy(raw)| + CountEvents(order, raw)
    ensures |Compact(log)| == |NonPolicy(raw)| + SumBlocks(order, PlanOf(log))
  {
    MultisetMembers(raw, log);
    CountPartition(order, raw);
    CompactLength(order, log);
    CountPartition(order, log);
    SumBlocksIs(order, log);
    CountSame(order, raw, log);
  }

  lemma {:induction false} CountSame(order: seq<string>, raw: seq<Row>, log: seq<Row>)
    requires DistinctSeqs(raw) && InSeqOrder(log, raw)
    ensures |raw| == |log| && CountEvents(order, raw) == CountEvents(order, log)
  {
    assert |multiset(raw)| == |raw| && |multiset(log)| == |log|;
    if order != [] {
      CountSame(order[..|order| - 1], raw, log);
      SortedEvents(raw, log, order[|order| - 1]);
    }
  }
}
