/** WebSocket slots: a counter reserved before accept, a registry filled after it. */
module WebSocketSlots {
  import opened Common
  import opened SlidingWindow

  const MAX_GLOBAL: nat := 64
  const MAX_NOAUTH_BURST: nat := 8
  const MAX_NOAUTH_CONCURRENT: nat := 16
  const NOAUTH_WINDOW: real := 10.0

  /** The module's three variables. */
  datatype Slots = Slots(reserved: int, connections: seq<nat>, stamps: seq<real>)

  /** The burst test of the exposed mode: the pruned time stamps, and whether one was added. */
  function Burst(stamps: seq<real>, now: real): (seq<real>, bool) {
    var live := Prune(stamps, now - NOAUTH_WINDOW);
    if |live| >= MAX_NOAUTH_BURST then (live, false) else (live + [now], true)
  }

  function Reserve(s: Slots, exposed: bool, now: real): (Slots, bool) {
    if s.reserved >= MAX_GLOBAL then (s, false)
    else if !exposed then (s.(reserved := s.reserved + 1), true)
    else if s.reserved >= MAX_NOAUTH_CONCURRENT then (s, false)
    else
      var (stamps, ok) := Burst(s.stamps, now);
      if ok then (s.(stamps := stamps, reserved := s.reserved + 1), true) else (s.(stamps := stamps), false)
  }

  /** `list.remove`: the first occurrence goes. */
  function Remove(list: seq<nat>, x: nat): seq<nat> {
    if list == [] then []
    else if list[0] == x then list[1..]
    else [list[0]] + Remove(list[1..], x)
  }

  function Release(s: Slots, ws: nat, registered: bool): Slots {
    Slots(if s.reserved > 0 then s.reserved - 1 else s.reserved,
          if registered then Remove(s.connections, ws) else s.connections, s.stamps)
  }

  function Drop(connections: seq<nat>, gone: seq<nat>): seq<nat> {
    if gone == [] then connections else Remove(Drop(connections, gone[..|gone| - 1]), gone[|gone| - 1])
  }

  lemma {:induction false} RemoveIs(list: seq<nat>, x: nat)
    requires Distinct(list)
    ensures Distinct(Remove(list, x)) && |Remove(list, x)| <= |list|
    ensures forall y :: y in Remove(list, x) <==> y in list && y != x
  {
    if list != [] {
      var tail := list[1..];
      assert list == [list[0]] + tail;
      forall i, j ensures DifferAt(tail, i, j) {
        assert DifferAt(list, i + 1, j + 1);
      }
      forall y | y in tail ensures y != list[0] {
        var i :| 0 <= i < |tail| && tail[i] == y;
        assert DifferAt(list, 0, i + 1);
      }
      RemoveIs(tail, x);
      if list[0] != x {
        DistinctCons(list[0], Remove(tail, x));
      }
    }
  }

  lemma {:induction false} DistinctCons(x: nat, s: seq<nat>)
    requires Distinct(s) && x !in s
    ensures Distinct([x] + s)
  {
    forall i, j ensures DifferAt([x] + s, i, j) {
      assert DifferAt(s, i - 1, j - 1);
    }
  }

  lemma {:induction false} RemoveAbsent(list: seq<nat>, x: nat)
    requires x !in list
    ensures Remove(list, x) == list
  {
    if list != [] {
      RemoveAbsent(list[1..], x);
    }
  }

  lemma {:induction false} DropIs(connections: seq<nat>, gone: seq<nat>)
    requires Distinct(connections)
    ensures Distinct(Drop(connections, gone)) && |Drop(connections, gone)| <= |connections|
    ensures forall y :: y in Drop(connections, gone) <==> y in connections && y !in gone
  {
    if gone != [] {
      InitLast(gone);
      DropIs(connections, gone[..|gone| - 1]);
      RemoveIs(Drop(connections, gone[..|gone| - 1]), gone[|gone| - 1]);
    }
  }

  // ----- The code -----

  class Manager {
    var reserved: int
    var connections: seq<nat>
    var stamps: seq<real>

    constructor ()
      ensures State() == Slots(0, [], [])
    {
      reserved, connections, stamps := 0, [], [];
    }

    function State(): Slots
      reads this
    {
      Slots(reserved, connections, stamps)
    }

    method ConnectionAllowed(now: real) returns (ok: bool)
      modifies this`stamps
      ensures (stamps, ok) == Burst(old(stamps), now)
    {
      stamps := PruneLoop(stamps, now - NOAUTH_WINDOW);
      if |stamps| >= MAX_NOAUTH_BURST {
        return false;
      }
      stamps := stamps + [now];
      return true;
    }

    method ReserveConnection(exposedWithoutAuth: bool, now: real) returns (ok: bool)
      modifies this
      ensures (State(), ok) == Reserve(old(State()), exposedWithoutAuth, now)
    {
      if reserved >= MAX_GLOBAL {
        return false;
      }
      if exposedWithoutAuth {
        if reserved >= MAX_NOAUTH_CONCURRENT {
          return false;
        }
        ok := ConnectionAllowed(now);
        if !ok {
          return false;
        }
      }
      reserved := reserved + 1;
      return true;
    }

    method RegisterConnection(ws: nat)
      modifies this`connections
      ensures connections == old(connections) + [ws]
    {
      connections := connections + [ws];
    }

    method ReleaseConnection(ws: nat, registered: bool)
      modifies this
      ensures State() == Release(old(State()), ws, registered)
    {
      if registered && ws in connections {
        connections := Remove(connections, ws);
      } else {
        if registered {
          RemoveAbsent(connections, ws);
        }
      }
      if reserved > 0 {
        reserved := reserved - 1;
      }
    }

    /** The tail of a broadcast: clients whose send failed leave the registry, if they are
        still in it; their slots stay reserved. */
    method DropDisconnected(gone: seq<nat>)
      modifies this`connections
      ensures connections == Drop(old(connections), gone)
    {
      ghost var c := connections;
      for i := 0 to |gone|
        invariant connections == Drop(c, gone[..i])
      {
        assert gone[..i + 1][..i] == gone[..i];
        if gone[i] in connections {
          connections := Remove(connections, gone[i]);
        } else {
          RemoveAbsent(connections, gone[i]);
        }
      }
      assert gone[..|gone|] == gone;
    }
  }

  // ----- The protocol -----

  /** Where an endpoint task stands between reserving and releasing its slot. */
  datatype Phase = Accepting | Open

  /** `tasks` are the endpoint tasks holding a slot; `admitted` every time the exposed mode
      granted one. */
  datatype World = World(slots: Slots, tasks: map<nat, Phase>, admitted: seq<real>, clock: real)

  datatype Step =
    | Connect(task: nat, now: real)    // a new task asks for a slot
    | Accepted(task: nat)              // accept succeeded: into the registry
    | Broadcast(gone: seq<nat>)        // a broadcast found these clients gone
    | Leave(task: nat)                 // the endpoint's `finally`, whether or not it was accepted

  function Apply(w: World, step: Step, exposed: bool): World {
    match step
    case Connect(task, now) =>
      if task in w.tasks || now < w.clock then w
      else
        var (slots, ok) := Reserve(w.slots, exposed, now);
        World(slots, if ok then w.tasks[task := Accepting] else w.tasks,
              if ok && exposed then w.admitted + [now] else w.admitted, now)
    case Accepted(task) =>
      if task in w.tasks && w.tasks[task] == Accepting then
        w.(slots := w.slots.(connections := w.slots.connections + [task]), tasks := w.tasks[task := Open])
      else w
    case Broadcast(gone) => w.(slots := w.slots.(connections := Drop(w.slots.connections, gone)))
    case Leave(task) =>
      if task in w.tasks then w.(slots := Release(w.slots, task, w.tasks[task] == Open), tasks := w.tasks - {task})
      else w
  }

  function Run(steps: seq<Step>, exposed: bool, start: real): World {
    if steps == [] then World(Slots(0, [], []), map[], [], start)
    else Apply(Run(steps[..|steps| - 1], exposed, start), steps[|steps| - 1], exposed)
  }

  /** The slots are the tasks that hold one; the registry is some of the accepted ones. */
  ghost predicate SlotInv(w: World, exposed: bool) {
    && w.slots.reserved == |w.tasks| <= MAX_GLOBAL
    && (exposed ==> w.slots.reserved <= MAX_NOAUTH_CONCURRENT)
    && Distinct(w.slots.connections)
    && forall ws :: ws in w.slots.connections ==> ws in w.tasks && w.tasks[ws] == Open
  }

  /** The burst limiter's time stamps are what pruning has left of its admissions. */
  ghost predicate BurstInv(stamps: seq<real>, admitted: seq<real>, clock: real) {
    && Sorted(admitted) && (admitted != [] ==> admitted[|admitted| - 1] <= clock)
    && Spaced(admitted, MAX_NOAUTH_BURST, NOAUTH_WINDOW)
    && Remains(stamps, admitted, clock - NOAUTH_WINDOW)
  }

  lemma {:induction false} BurstStep(stamps: seq<real>, admitted: seq<real>, clock: real, now: real)
    requires BurstInv(stamps, admitted, clock) && clock <= now
    ensures BurstInv(Burst(stamps, now).0, if Burst(stamps, now).1 then admitted + [now] else admitted, now)
  {
    PruneForgets(stamps, admitted, clock - NOAUTH_WINDOW, now - NOAUTH_WINDOW);
    PruneRemains(admitted, now - NOAUTH_WINDOW);
    if |Prune(admitted, now - NOAUTH_WINDOW)| < MAX_NOAUTH_BURST {
      BurstAdmits(admitted, clock, now);
    }
  }

  lemma {:induction false} BurstAdmits(admitted: seq<real>, clock: real, now: real)
    requires Sorted(admitted) && (admitted != [] ==> admitted[|admitted| - 1] <= clock) && clock <= now
    requires Spaced(admitted, MAX_NOAUTH_BURST, NOAUTH_WINDOW)
    requires |Prune(admitted, now - NOAUTH_WINDOW)| < MAX_NOAUTH_BURST
    ensures BurstInv(Prune(admitted, now - NOAUTH_WINDOW) + [now], admitted + [now], now)
  {
    var cutoff := now - NOAUTH_WINDOW;
    PruneRemains(admitted, cutoff);
    AdmitSpaced(admitted, MAX_NOAUTH_BURST, NOAUTH_WINDOW, cutoff, now);
  }

  lemma {:induction false} ConnectKeeps(w: World, task: nat, now: real, exposed: bool)
    requires SlotInv(w, exposed)
    ensures SlotInv(Apply(w, Connect(task, now), exposed), exposed)
  {
  }

  lemma {:induction false} AcceptedKeeps(w: World, task: nat, exposed: bool)
    requires SlotInv(w, exposed)
    ensures SlotInv(Apply(w, Accepted(task), exposed), exposed)
  {
    if task in w.tasks && w.tasks[task] == Accepting {
      DistinctSnoc(w.slots.connections, task);
    }
  }

  lemma {:induction false} LeaveKeeps(w: World, task: nat, exposed: bool)
    requires SlotInv(w, exposed)
    ensures SlotInv(Apply(w, Leave(task), exposed), exposed)
  {
    RemoveIs(w.slots.connections, task);
  }

  lemma {:induction false} SlotsKept(w: World, step: Step, exposed: bool)
    requires SlotInv(w, exposed)
    ensures SlotInv(Apply(w, step, exposed), exposed)
  {
    match step
    case Connect(task, now) => ConnectKeeps(w, task, now, exposed);
    case Accepted(task) => AcceptedKeeps(w, task, exposed);
    case Broadcast(gone) => DropIs(w.slots.connections, gone);
    case Leave(task) => LeaveKeeps(w, task, exposed);
  }

  lemma {:induction false} ReserveBurst(s: Slots, admitted: seq<real>, clock: real, exposed: bool, now: real)
    requires BurstInv(s.stamps, admitted, clock) && clock <= now
    ensures var (u, ok) := Reserve(s, exposed, now);
            BurstInv(u.stamps, if ok && exposed then admitted + [now] else admitted, now)
  {
    if s.reserved < MAX_NOAUTH_CONCURRENT && exposed {
      BurstStep(s.stamps, admitted, clock, now);
    } else {
    }
  }

  lemma {:induction false} BurstKept(w: World, step: Step, exposed: bool)
    requires BurstInv(w.slots.stamps, w.admitted, w.clock)
    ensures var u := Apply(w, step, exposed); BurstInv(u.slots.stamps, u.admitted, u.clock)
  {
    if step.Connect? && step.now >= w.clock {
      ReserveBurst(w.slots, w.admitted, w.clock, exposed, step.now);
    }
  }

  lemma {:induction false} RunInv(steps: seq<Step>, exposed: bool, start: real)
    ensures var w := Run(steps, exposed, start);
            SlotInv(w, exposed) && BurstInv(w.slots.stamps, w.admitted, w.clock)
  {
    if steps != [] {
      RunInv(steps[..|steps| - 1], exposed, start);
      SlotsKept(Run(steps[..|steps| - 1], exposed, start), steps[|steps| - 1], exposed);
      BurstKept(Run(steps[..|steps| - 1], exposed, start), steps[|steps| - 1], exposed);
    }
  }

  /** In every interleaving: the counter is the number of tasks holding a slot and stays
      within the limits, and the registry holds accepted tasks only, each once, so it is no
      larger than the counter. */
  lemma {:induction false} SlotSafety(steps: seq<Step>, exposed: bool, start: real)
    ensures var w := Run(steps, exposed, start);
            && SlotInv(w, exposed)
            && |w.slots.connections| <= w.slots.reserved
  {
    RunInv(steps, exposed, start);
    var w := Run(steps, exposed, start);
    DistinctSize(w.slots.connections, w.tasks.Keys);
    assert |w.tasks.Keys| == |w.tasks|;
  }

  lemma {:induction false} DistinctSize(s: seq<nat>, all: set<nat>)
    requires Distinct(s) && forall x :: x in s ==> x in all
    ensures |s| <= |all|
  {
    if s != [] {
      DistinctAt(s, |s| - 1);
      InitLast(s);
      DistinctSize(s[..|s| - 1], all - {s[|s| - 1]});
    }
  }

  /** In exposed mode any closed interval of ten seconds sees at most eight admissions. */
  lemma {:induction false} BurstSafety(steps: seq<Step>, start: real, x: real)
    ensures CountIn(Run(steps, true, start).admitted, x, x + NOAUTH_WINDOW) <= MAX_NOAUTH_BURST
  {
    RunInv(steps, true, start);
    WindowBound(Run(steps, true, start).admitted, MAX_NOAUTH_BURST, NOAUTH_WINDOW, x, x + NOAUTH_WINDOW);
  }

  lemma {:induction false} LiveCount(h: seq<real>, since: real, now: real)
    requires Sorted(h) && (h != [] ==> h[|h| - 1] <= now)
    ensures |Prune(h, since)| == CountIn(h, since, now)
  {
    PruneSplits(h, since);
    var k := |h| - |Prune(h, since)|;
    forall i | 0 <= i < |h| ensures h[i] <= now {
      assert h[i] <= h[|h| - 1];
    }
    CountInAtMost(h, since, now, k);
    SuffixCount(h, k, since, now);
  }

  lemma {:induction false} ReserveIff(s: Slots, admitted: seq<real>, clock: real, exposed: bool, now: real)
    requires BurstInv(s.stamps, admitted, clock) && clock <= now
    ensures var (u, ok) := Reserve(s, exposed, now);
            && ok == (s.reserved < 64 && (exposed ==> s.reserved < 16 && CountIn(admitted, now - 10.0, now) < 8))
            && u.connections == s.connections
  {
    var since := now - NOAUTH_WINDOW;
    PruneForgets(s.stamps, admitted, clock - NOAUTH_WINDOW, since);
    LiveCount(admitted, since, now);
  }

  /** In every interleaving a task that asks is given a slot exactly when fewer than 64 tasks
      hold one and, exposed without a token, fewer than 16 do and fewer than eight were
      admitted in the last ten seconds. */
  lemma {:induction false} GrantedIff(steps: seq<Step>, exposed: bool, start: real, task: nat, now: real)
    requires var w := Run(steps, exposed, start); task !in w.tasks && now >= w.clock
    ensures var w, u := Run(steps, exposed, start), Run(steps + [Connect(task, now)], exposed, start);
            var recent := CountIn(w.admitted, now - 10.0, now);
            && (task in u.tasks <==> |w.tasks| < 64 && (exposed ==> |w.tasks| < 16 && recent < 8))
            && u.tasks == (if task in u.tasks then w.tasks[task := Accepting] else w.tasks)
            && u.slots.connections == w.slots.connections
  {
    RunInv(steps, exposed, start);
    var w := Run(steps, exposed, start);
    assert (steps + [Connect(task, now)])[..|steps|] == steps;
    ReserveIff(w.slots, w.admitted, w.clock, exposed, now);
  }
}
