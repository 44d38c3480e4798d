/** Scheduled downtimes of one host or service: the nesting counter, the flag,
    the log of entering and leaving, over every run of the scheduler. */
module Downtimes {

  type Id = nat

  datatype Downtime = Downtime(fixed: bool, start: int, end: int, duration: int, realEnd: int,
                               inEffect: bool, deletable: bool)

  datatype Event = Entered | Exited | Cancelled

  /** The downtimes of the item, scheduled_downtime_depth, in_scheduled_downtime
      and the log entries raised so far. */
  datatype State = State(downtimes: map<Id, Downtime>, depth: int, inDowntime: bool, log: seq<Event>)

  const INITIAL := State(map[], 0, false, [])

  /** A downtime just created. A fixed one lasts from its start to its end. */
  function Create(fixed: bool, start: int, end: int, duration: int): Downtime {
    Downtime(fixed, start, end, if fixed then end - start else duration, end, false, false)
  }

  // ---------------------------------------------------------------- enter, exit, cancel

  function Enter(s: State, id: Id, now: int): State
    requires id in s.downtimes
  {
    var d := s.downtimes[id];
    var d' := d.(inEffect := true, realEnd := if d.fixed then d.realEnd else now + d.duration);
    State(s.downtimes[id := d'], s.depth + 1, true,
          if s.depth + 1 == 1 then s.log + [Entered] else s.log)
  }

  function Exit(s: State, id: Id): State
    requires id in s.downtimes
  {
    var d := s.downtimes[id];
    var left := s.(downtimes := s.downtimes[id := d.(inEffect := false, deletable := true)]);
    if !d.inEffect then left
    else if s.depth - 1 == 0 then left.(depth := 0, inDowntime := false, log := s.log + [Exited])
    else left.(depth := s.depth - 1)
  }

  function Cancel(s: State, id: Id): State
    requires id in s.downtimes
  {
    var d := s.downtimes[id];
    var left := s.(downtimes := s.downtimes[id := d.(inEffect := false, deletable := true)]);
    if s.depth - 1 == 0 then left.(depth := 0, inDowntime := false, log := s.log + [Cancelled])
    else left.(depth := s.depth - 1)
  }

  // ---------------------------------------------------------------- the scheduler's passes

  /** The downtimes marked for deletion are forgotten. */
  function Sweep(s: State): State {
    s.(downtimes := map id | id in s.downtimes && !s.downtimes[id].deletable :: s.downtimes[id])
  }

  predicate Expired(d: Downtime, now: int) { d.realEnd < now }

  predicate MustStart(d: Downtime, now: int) { now >= d.start && d.fixed && !d.inEffect }

  function StartOrStop(s: State, id: Id, now: int): State {
    if id !in s.downtimes then s
    else if Expired(s.downtimes[id], now) then Exit(s, id)
    else if MustStart(s.downtimes[id], now) then Enter(s, id, now)
    else s
  }

  function StartOrStopAll(s: State, order: seq<Id>, now: int): State
    decreases |order|
  {
    if order == [] then s else StartOrStopAll(StartOrStop(s, order[0], now), order[1..], now)
  }

  /** update_downtimes_and_comments at time now; order is the order in which the
      remaining downtimes are gone through. */
  function Update(s: State, order: seq<Id>, now: int): State {
    StartOrStopAll(Sweep(s), order, now)
  }

  /** A flexible downtime whose window holds the last check of a problem. */
  predicate Triggers(d: Downtime, lastCheck: int) {
    !d.fixed && !d.inEffect && d.start <= lastCheck <= d.end
  }

  function Trigger(s: State, id: Id, lastCheck: int, now: int): State {
    if id in s.downtimes && Triggers(s.downtimes[id], lastCheck) then Enter(s, id, now) else s
  }

  /** check_for_flexible_downtime, called when the item has a problem. */
  function TriggerAll(s: State, order: seq<Id>, lastCheck: int, now: int): State
    decreases |order|
  {
    if order == [] then s else TriggerAll(Trigger(s, order[0], lastCheck, now), order[1..], lastCheck, now)
  }

  datatype Step =
    | Add(id: Id, downtime: Downtime)
    | CancelOne(id: Id)
    | Tick(order: seq<Id>, now: int)
    | Problem(order: seq<Id>, lastCheck: int, now: int)

  function Next(s: State, step: Step): State {
    match step
    case Add(id, d) => s.(downtimes := s.downtimes[id := d])
    case CancelOne(id) => if id in s.downtimes then Cancel(s, id) else s
    case Tick(order, now) => Update(s, order, now)
    case Problem(order, lastCheck, now) => TriggerAll(s, order, lastCheck, now)
  }

  function Run(s: State, steps: seq<Step>): State
    decreases |steps|
  {
    if steps == [] then s else Run(Next(s, steps[0]), steps[1..])
  }

  // ---------------------------------------------------------------- the books

  function InEffect(s: State): (r: set<Id>) {
    set id | id in s.downtimes && s.downtimes[id].inEffect
  }

  /** What the counter counts beyond the downtimes in effect. */
  function Drift(s: State): int { s.depth - |InEffect(s)| }

  /** The downtimes in effect that the next tick forgets without leaving them. */
  function Forgotten(s: State): set<Id> {
    set id | id in s.downtimes && s.downtimes[id].inEffect && s.downtimes[id].deletable
  }

  lemma EnterDrift(s: State, id: Id, now: int)
    requires id in s.downtimes && !s.downtimes[id].inEffect
    ensures Drift(Enter(s, id, now)) == Drift(s)
  {
    assert InEffect(Enter(s, id, now)) == InEffect(s) + {id};
  }

  lemma ExitDrift(s: State, id: Id)
    requires id in s.downtimes
    ensures Drift(Exit(s, id)) == Drift(s)
  {
    assert InEffect(Exit(s, id)) == InEffect(s) - {id};
  }

  lemma CancelDrift(s: State, id: Id)
    requires id in s.downtimes
    ensures Drift(Cancel(s, id)) == Drift(s) - if s.downtimes[id].inEffect then 0 else 1
  {
    assert InEffect(Cancel(s, id)) == InEffect(s) - {id};
  }

  lemma SweepDrift(s: State)
    ensures Drift(Sweep(s)) == Drift(s) + |Forgotten(s)|
  {
    assert InEffect(Sweep(s)) == InEffect(s) - Forgotten(s);
    assert Forgotten(s) <= InEffect(s);
  }

  lemma {:induction false} StartOrStopAllDrift(s: State, order: seq<Id>, now: int)
    ensures Drift(StartOrStopAll(s, order, now)) == Drift(s)
    decreases |order|
  {
    if order != [] {
      var id := order[0];
      if id in s.downtimes {
        ExitDrift(s, id);
        if !s.downtimes[id].inEffect { EnterDrift(s, id, now); }
      }
      StartOrStopAllDrift(StartOrStop(s, id, now), order[1..], now);
    }
  }

  lemma {:induction false} TriggerAllDrift(s: State, order: seq<Id>, lastCheck: int, now: int)
    ensures Drift(TriggerAll(s, order, lastCheck, now)) == Drift(s)
    decreases |order|
  {
    if order != [] {
      var id := order[0];
      if id in s.downtimes && !s.downtimes[id].inEffect { EnterDrift(s, id, now); }
      TriggerAllDrift(Trigger(s, id, lastCheck, now), order[1..], lastCheck, now);
    }
  }

  /** A new downtime gets a fresh identity and is not in effect. */
  predicate ProperAdd(s: State, step: Step) {
    step.Add? ==> step.id !in s.downtimes && !step.downtime.inEffect && !step.downtime.deletable
  }

  /** The only two ways the counter leaves the number of downtimes in effect:
      forgetting downtimes that are in effect, and cancelling one that is not. */
  lemma DriftLaw(s: State, step: Step)
    requires ProperAdd(s, step)
    ensures Drift(Next(s, step)) == Drift(s)
              + (if step.Tick? then |Forgotten(s)| else 0)
              - (if step.CancelOne? && step.id in s.downtimes && !s.downtimes[step.id].inEffect then 1 else 0)
  {
    match step
    case Add(id, d) => assert InEffect(Next(s, step)) == InEffect(s);
    case CancelOne(id) => if id in s.downtimes { CancelDrift(s, id); }
    case Tick(order, now) =>
      SweepDrift(s);
      StartOrStopAllDrift(Sweep(s), order, now);
    case Problem(order, lastCheck, now) => TriggerAllDrift(s, order, lastCheck, now);
  }

  // ---------------------------------------------------------------- the invariant

  predicate Alternates(log: seq<Event>) {
    forall i :: 0 <= i < |log| ==> (log[i].Entered? <==> i % 2 == 0)
  }

  predicate FlagAndLog(s: State) {
    && s.depth >= 0
    && (s.inDowntime <==> s.depth > 0)
    && Alternates(s.log) && (|s.log| % 2 == 1 <==> s.depth > 0)
  }

  predicate NoneForgotten(s: State) {
    forall id :: id in s.downtimes ==> !(s.downtimes[id].inEffect && s.downtimes[id].deletable)
  }

  predicate Good(s: State) {
    s.depth == |InEffect(s)| && FlagAndLog(s) && NoneForgotten(s)
  }

  lemma EnterFlag(s: State, id: Id, now: int)
    requires id in s.downtimes && FlagAndLog(s)
    ensures FlagAndLog(Enter(s, id, now))
  {
  }

  lemma LeaveFlag(s: State, id: Id)
    requires id in s.downtimes && FlagAndLog(s) && (s.downtimes[id].inEffect ==> s.depth >= 1)
    ensures FlagAndLog(Exit(s, id))
    ensures s.depth >= 1 ==> FlagAndLog(Cancel(s, id))
  {
  }

  lemma InEffectCounted(s: State, id: Id)
    requires id in s.downtimes && s.downtimes[id].inEffect
    ensures |InEffect(s)| >= 1
  {
    assert id in InEffect(s);
  }

  /** One downtime of a tick; it only leaves or, if not deletable, enters. */
  lemma StartOrStopGood(s: State, id: Id, now: int)
    requires Good(s) && (id in s.downtimes ==> !s.downtimes[id].deletable)
    ensures Good(StartOrStop(s, id, now))
  {
    if id in s.downtimes {
      if Expired(s.downtimes[id], now) {
        if s.downtimes[id].inEffect { InEffectCounted(s, id); }
        ExitDrift(s, id);
        LeaveFlag(s, id);
      } else if MustStart(s.downtimes[id], now) {
        EnterDrift(s, id, now);
        EnterFlag(s, id, now);
      }
    }
  }

  predicate Distinct(order: seq<Id>) {
    forall i, j :: 0 <= i < j < |order| ==> order[i] != order[j]
  }

  predicate Keepable(s: State, order: seq<Id>) {
    forall i :: 0 <= i < |order| && order[i] in s.downtimes ==> !s.downtimes[order[i]].deletable
  }

  lemma {:induction false} StartOrStopAllGood(s: State, order: seq<Id>, now: int)
    requires Good(s) && Distinct(order) && Keepable(s, order)
    ensures Good(StartOrStopAll(s, order, now))
    decreases |order|
  {
    if order != [] {
      StartOrStopGood(s, order[0], now);
      var s' := StartOrStop(s, order[0], now);
      assert forall i :: 1 <= i < |order| && order[i] in s'.downtimes ==>
          order[i] in s.downtimes && s'.downtimes[order[i]] == s.downtimes[order[i]];
      StartOrStopAllGood(s', order[1..], now);
    }
  }

  lemma TickGood(s: State, order: seq<Id>, now: int)
    requires Good(s) && Distinct(order)
    ensures Good(Update(s, order, now))
  {
    SweepDrift(s);
    assert Forgotten(s) == {};
    StartOrStopAllGood(Sweep(s), order, now);
  }

  /** No deletable flexible downtime would be entered: what the code does not test. */
  predicate TriggersOnlyKept(s: State, step: Step) {
    step.Problem? ==>
      forall i :: 0 <= i < |step.order| && step.order[i] in s.downtimes &&
                  Triggers(s.downtimes[step.order[i]], step.lastCheck) ==>
        !s.downtimes[step.order[i]].deletable
  }

  predicate CancelsInEffect(s: State, step: Step) {
    step.CancelOne? && step.id in s.downtimes ==> s.downtimes[step.id].inEffect
  }

  /** A new downtime has a new id and is not in effect; a pass meets each downtime once. */
  predicate WellPosed(s: State, step: Step) {
    ProperAdd(s, step) && (step.Tick? || step.Problem? ==> Distinct(step.order))
  }

  predicate Proper(s: State, step: Step) { WellPosed(s, step) && CancelsInEffect(s, step) }

  lemma {:induction false} TriggerAllFlag(s: State, order: seq<Id>, lastCheck: int, now: int)
    requires FlagAndLog(s)
    ensures FlagAndLog(TriggerAll(s, order, lastCheck, now))
    decreases |order|
  {
    if order != [] {
      if order[0] in s.downtimes { EnterFlag(s, order[0], now); }
      TriggerAllFlag(Trigger(s, order[0], lastCheck, now), order[1..], lastCheck, now);
    }
  }

  /** After the pass a downtime is in effect exactly if it was or it triggered. */
  lemma {:induction false} TriggerAllEffect(s: State, order: seq<Id>, lastCheck: int, now: int, id: Id)
    requires id in s.downtimes
    ensures var s' := TriggerAll(s, order, lastCheck, now);
            && id in s'.downtimes && s'.downtimes.Keys == s.downtimes.Keys
            && s'.downtimes[id].deletable == s.downtimes[id].deletable
            && (s'.downtimes[id].inEffect <==>
                  s.downtimes[id].inEffect || (id in order && Triggers(s.downtimes[id], lastCheck)))
    decreases |order|
  {
    if order != [] {
      TriggerAllEffect(Trigger(s, order[0], lastCheck, now), order[1..], lastCheck, now, id);
      assert id in order <==> id == order[0] || id in order[1..];
    }
  }

  /** From a good state, a problem leaves a good state exactly when no deletable
      downtime triggers. */
  lemma ProblemGoodIff(s: State, order: seq<Id>, lastCheck: int, now: int)
    requires Good(s)
    ensures Good(TriggerAll(s, order, lastCheck, now))
       <==> TriggersOnlyKept(s, Problem(order, lastCheck, now))
  {
    var s' := TriggerAll(s, order, lastCheck, now);
    TriggerAllDrift(s, order, lastCheck, now);
    TriggerAllFlag(s, order, lastCheck, now);
    forall id | id in s.downtimes
      ensures id in s'.downtimes && s'.downtimes.Keys == s.downtimes.Keys
      ensures s'.downtimes[id].deletable == s.downtimes[id].deletable
      ensures s'.downtimes[id].inEffect <==>
                s.downtimes[id].inEffect || (id in order && Triggers(s.downtimes[id], lastCheck))
    {
      TriggerAllEffect(s, order, lastCheck, now, id);
    }
    TriggerAllKeys(s, order, lastCheck, now);
    if !TriggersOnlyKept(s, Problem(order, lastCheck, now)) {
      var i :| 0 <= i < |order| && order[i] in s.downtimes && Triggers(s.downtimes[order[i]], lastCheck)
            && s.downtimes[order[i]].deletable;
      assert order[i] in order && s'.downtimes[order[i]].inEffect;
    }
  }

  lemma {:induction false} TriggerAllKeys(s: State, order: seq<Id>, lastCheck: int, now: int)
    ensures TriggerAll(s, order, lastCheck, now).downtimes.Keys == s.downtimes.Keys
    decreases |order|
  {
    if order != [] {
      TriggerAllKeys(Trigger(s, order[0], lastCheck, now), order[1..], lastCheck, now);
    }
  }

  /** Each step keeps the state good exactly when it triggers no deletable downtime
      and cancels none that is not in effect. */
  lemma StepGoodIff(s: State, step: Step)
    requires Good(s) && WellPosed(s, step)
    ensures Good(Next(s, step)) <==> TriggersOnlyKept(s, step) && CancelsInEffect(s, step)
  {
    match step
    case Add(id, d) => assert InEffect(Next(s, step)) == InEffect(s);
    case CancelOne(id) =>
      DriftLaw(s, step);
      if id in s.downtimes && s.downtimes[id].inEffect {
        InEffectCounted(s, id);
        LeaveFlag(s, id);
      }
    case Tick(order, now) => TickGood(s, order, now);
    case Problem(order, lastCheck, now) => ProblemGoodIff(s, order, lastCheck, now);
  }

  /** Cancelling a fixed downtime before it starts leaves the counter at -1. */
  lemma EarlyCancel(d: Downtime)
    requires d == Create(true, 10, 20, 0)
    ensures var s1 := Next(INITIAL, Add(1, d));
            WellPosed(INITIAL, Add(1, d)) && WellPosed(s1, CancelOne(1)) && Next(s1, CancelOne(1)).depth == -1
  {
  }

  /** Every state of the run is good. */
  predicate GoodThroughout(s: State, steps: seq<Step>)
    decreases |steps|
  {
    Good(s) && (steps != [] ==> GoodThroughout(Next(s, steps[0]), steps[1..]))
  }

  predicate WellPosedRun(s: State, steps: seq<Step>)
    decreases |steps|
  {
    steps != [] ==> WellPosed(s, steps[0]) && WellPosedRun(Next(s, steps[0]), steps[1..])
  }

  predicate CleanRun(s: State, steps: seq<Step>)
    decreases |steps|
  {
    steps != [] ==>
      && TriggersOnlyKept(s, steps[0]) && CancelsInEffect(s, steps[0])
      && CleanRun(Next(s, steps[0]), steps[1..])
  }

  /** A run stays good throughout exactly when each of its steps triggers no deletable
      downtime and cancels none that is not in effect. */
  lemma {:induction false} RunGoodIff(s: State, steps: seq<Step>)
    requires Good(s) && WellPosedRun(s, steps)
    ensures GoodThroughout(s, steps) <==> CleanRun(s, steps)
    decreases |steps|
  {
    if steps != [] {
      StepGoodIff(s, steps[0]);
      if Good(Next(s, steps[0])) { RunGoodIff(Next(s, steps[0]), steps[1..]); }
    }
  }

  predicate ProperRun(s: State, steps: seq<Step>)
    decreases |steps|
  {
    steps != [] ==> Proper(s, steps[0]) && ProperRun(Next(s, steps[0]), steps[1..])
  }

  predicate RunTriggersOnlyKept(s: State, steps: seq<Step>)
    decreases |steps|
  {
    steps != [] ==> TriggersOnlyKept(s, steps[0]) && RunTriggersOnlyKept(Next(s, steps[0]), steps[1..])
  }

  lemma {:induction false} RunGood(s: State, steps: seq<Step>)
    requires Good(s) && ProperRun(s, steps) && RunTriggersOnlyKept(s, steps)
    ensures Good(Run(s, steps))
    decreases |steps|
  {
    if steps != [] {
      StepGoodIff(s, steps[0]);
      RunGood(Next(s, steps[0]), steps[1..]);
    }
  }

  predicate AllFixed(s: State) {
    forall id :: id in s.downtimes ==> s.downtimes[id].fixed
  }

  predicate AddsFixed(steps: seq<Step>) {
    forall i :: 0 <= i < |steps| && steps[i].Add? ==> steps[i].downtime.fixed
  }

  lemma {:induction false} StartOrStopAllFixed(s: State, order: seq<Id>, now: int)
    requires AllFixed(s)
    ensures AllFixed(StartOrStopAll(s, order, now))
    decreases |order|
  {
    if order != [] {
      StartOrStopAllFixed(StartOrStop(s, order[0], now), order[1..], now);
    }
  }

  lemma {:induction false} TriggerAllFixed(s: State, order: seq<Id>, lastCheck: int, now: int)
    requires AllFixed(s)
    ensures TriggerAll(s, order, lastCheck, now) == s
    decreases |order|
  {
    if order != [] {
      TriggerAllFixed(s, order[1..], lastCheck, now);
    }
  }

  /** Without flexible downtimes nothing triggers, so every proper run is good. */
  lemma {:induction false} FixedRunGood(s: State, steps: seq<Step>)
    requires Good(s) && AllFixed(s) && AddsFixed(steps) && ProperRun(s, steps)
    ensures Good(Run(s, steps))
    decreases |steps|
  {
    if steps != [] {
      var step := steps[0];
      StepGoodIff(s, step);
      match step {
        case Add(_, _) =>
        case CancelOne(_) =>
        case Tick(order, now) => StartOrStopAllFixed(Sweep(s), order, now);
        case Problem(order, lastCheck, now) => TriggerAllFixed(s, order, lastCheck, now);
      }
      FixedRunGood(Next(s, step), steps[1..]);
    }
  }

  // ---------------------------------------------------------------- the clock

  /** What a pass over the downtimes does to one of them. */
  function StartedOrStopped(d: Downtime, now: int): Downtime {
    if Expired(d, now) then d.(inEffect := false, deletable := true)
    else if MustStart(d, now) then d.(inEffect := true)
    else d
  }

  lemma {:induction false} StartOrStopAllEffect(s: State, order: seq<Id>, now: int, id: Id)
    requires Distinct(order)
    ensures var s' := StartOrStopAll(s, order, now);
            && s'.downtimes.Keys == s.downtimes.Keys
            && (id in s.downtimes ==>
                  s'.downtimes[id] == if id in order then StartedOrStopped(s.downtimes[id], now) else s.downtimes[id])
    decreases |order|
  {
    if order != [] {
      StartOrStopAllEffect(StartOrStop(s, order[0], now), order[1..], now, id);
      assert order == [order[0]] + order[1..];
    }
  }

  /** A downtime as created: not in effect, with the times that were given. */
  lemma CreatedAsGiven(fixed: bool, start: int, end: int, duration: int)
    ensures var d := Create(fixed, start, end, duration);
            && d.fixed == fixed && d.start == start && d.end == end && d.realEnd == end
            && !d.inEffect && !d.deletable && d.duration == (if fixed then end - start else duration)
  {
  }

  /** After a tick a fixed downtime that is kept is in effect from its start to its
      end; one that has ended is not, and goes at the next tick. Its end stays what it
      was when it was created. */
  lemma FixedFollowsTheClock(s: State, order: seq<Id>, now: int, id: Id)
    requires Distinct(order) && id in order && id in s.downtimes && !s.downtimes[id].deletable
    requires s.downtimes[id].fixed && s.downtimes[id].realEnd == s.downtimes[id].end
    requires s.downtimes[id].inEffect ==> s.downtimes[id].start <= now
    ensures var s' := Update(s, order, now); var d := s.downtimes[id];
            && id in s'.downtimes && s'.downtimes[id].fixed && s'.downtimes[id].start == d.start
            && s'.downtimes[id].realEnd == s'.downtimes[id].end == d.end
            && (s'.downtimes[id].inEffect <==> d.start <= now <= d.end)
            && (s'.downtimes[id].deletable <==> d.end < now)
            && (id in Sweep(s').downtimes <==> now <= d.end)
  {
    StartOrStopAllEffect(Sweep(s), order, now, id);
  }

  /** The same for a downtime that has just been added. */
  lemma NewFixedFollowsTheClock(s: State, id: Id, start: int, end: int, order: seq<Id>, now: int)
    requires Distinct(order) && id in order
    ensures var s' := Update(Next(s, Add(id, Create(true, start, end, 0))), order, now);
            id in s'.downtimes && (s'.downtimes[id].inEffect <==> start <= now <= end)
  {
    FixedFollowsTheClock(Next(s, Add(id, Create(true, start, end, 0))), order, now, id);
  }

  /** A problem triggers exactly the flexible downtimes, not in effect, whose window
      from start to end holds the last check. */
  lemma TriggeredIff(s: State, order: seq<Id>, lastCheck: int, now: int, id: Id)
    requires id in s.downtimes && id in order && !s.downtimes[id].inEffect
    ensures var s' := TriggerAll(s, order, lastCheck, now); var d := s.downtimes[id];
            && id in s'.downtimes
            && (s'.downtimes[id].inEffect <==> !d.fixed && d.start <= lastCheck && lastCheck <= d.end)
  {
    TriggerAllEffect(s, order, lastCheck, now, id);
  }

  /** A downtime that was left or cancelled is no longer in effect and is gone after
      the next sweep; no other one is touched. */
  lemma LeftIsGone(s: State, id: Id, other: Id)
    requires id in s.downtimes
    ensures !Exit(s, id).downtimes[id].inEffect && id !in Sweep(Exit(s, id)).downtimes
    ensures !Cancel(s, id).downtimes[id].inEffect && id !in Sweep(Cancel(s, id)).downtimes
    ensures other in s.downtimes && other != id ==>
              Exit(s, id).downtimes[other] == s.downtimes[other] && Cancel(s, id).downtimes[other] == s.downtimes[other]
    ensures other in s.downtimes && !s.downtimes[other].deletable ==> other in Sweep(s).downtimes
  {
  }

  /** Which event is logged, and when: entering the first downtime, and leaving or
      cancelling the last one. */
  lemma EventsLogged(s: State, id: Id, now: int)
    requires id in s.downtimes
    ensures Enter(s, id, now).log == if s.depth == 0 then s.log + [Entered] else s.log
    ensures Exit(s, id).log == if s.depth == 1 && s.downtimes[id].inEffect then s.log + [Exited] else s.log
    ensures Cancel(s, id).log == if s.depth == 1 then s.log + [Cancelled] else s.log
  {
  }

  /** A flexible downtime that triggers lasts for its duration from then on: the
      first tick after that ends it, and no earlier one. */
  lemma FlexibleLastsItsDuration(s: State, entered: int, order: seq<Id>, now: int, id: Id)
    requires Distinct(order) && id in order && id in s.downtimes
    requires !s.downtimes[id].fixed && !s.downtimes[id].deletable
    ensures var s' := Update(Enter(s, id, entered), order, now);
            && id in s'.downtimes
            && (s'.downtimes[id].inEffect <==> now <= entered + s.downtimes[id].duration)
            && (s'.downtimes[id].deletable <==> !s'.downtimes[id].inEffect)
  {
    StartOrStopAllEffect(Sweep(Enter(s, id, entered)), order, now, id);
  }

  // ---------------------------------------------------------------- the leak

  /** Once the counter is ahead it stays ahead: the item never leaves downtime. */
  lemma {:induction false} LeakIsForever(s: State, steps: seq<Step>)
    requires ProperRun(s, steps) && FlagAndLog(s) && Drift(s) >= 1
    ensures Drift(Run(s, steps)) >= 1 && Run(s, steps).depth >= 1 && Run(s, steps).inDowntime
    decreases |steps|
  {
    if steps != [] {
      DriftLaw(s, steps[0]);
      AheadFlag(s, steps[0]);
      LeakIsForever(Next(s, steps[0]), steps[1..]);
    }
  }

  lemma {:induction false} StartOrStopAllFlag(s: State, order: seq<Id>, now: int)
    requires FlagAndLog(s) && Drift(s) >= 1
    ensures FlagAndLog(StartOrStopAll(s, order, now))
    decreases |order|
  {
    if order != [] {
      var id := order[0];
      if id in s.downtimes {
        ExitDrift(s, id);
        LeaveFlag(s, id);
        if !s.downtimes[id].inEffect { EnterDrift(s, id, now); }
        EnterFlag(s, id, now);
      }
      StartOrStopAllFlag(StartOrStop(s, id, now), order[1..], now);
    }
  }

  lemma AheadFlag(s: State, step: Step)
    requires Proper(s, step) && FlagAndLog(s) && Drift(s) >= 1
    ensures FlagAndLog(Next(s, step))
  {
    match step
    case Add(id, d) =>
    case CancelOne(id) => if id in s.downtimes { LeaveFlag(s, id); }
    case Tick(order, now) =>
      SweepDrift(s);
      StartOrStopAllFlag(Sweep(s), order, now);
    case Problem(order, lastCheck, now) => TriggerAllFlag(s, order, lastCheck, now);
  }

  /** A flexible downtime open from 0 to 100 and lasting 10: it starts on a
      problem at 5, ends in the tick at 16, starts again on a problem consumed in
      that same tick, and is forgotten by the next one. */
  const LEAKING: seq<Step> := [
    Add(1, Create(false, 0, 100, 10)),
    Problem([1], 5, 5),
    Tick([1], 16),
    Problem([1], 16, 16),
    Tick([], 17)
  ]

  lemma LeakHappens()
    ensures ProperRun(INITIAL, LEAKING)
    ensures Run(INITIAL, LEAKING).downtimes == map[]
    ensures Run(INITIAL, LEAKING).depth == 1 && Run(INITIAL, LEAKING).inDowntime
  {
    var d := Create(false, 0, 100, 10);
    var s1 := Next(INITIAL, LEAKING[0]);
    var s2 := Next(s1, LEAKING[1]);
    OneTriggered(s1, 1, 5, 5);
    var s3 := Next(s2, LEAKING[2]);
    assert Sweep(s2) == s2;
    OneStartedOrStopped(s2, 1, 16);
    assert s3 == Exit(s2, 1);
    var s4 := Next(s3, LEAKING[3]);
    OneTriggered(s3, 1, 16, 16);
    var s5 := Next(s4, LEAKING[4]);
    assert s5 == Sweep(s4);
    assert s5.downtimes == map[];
    RunCons(s4, LEAKING[4], []);
    RunCons(s3, LEAKING[3], [LEAKING[4]]);
    RunCons(s2, LEAKING[2], [LEAKING[3], LEAKING[4]]);
    RunCons(s1, LEAKING[1], [LEAKING[2], LEAKING[3], LEAKING[4]]);
    RunCons(INITIAL, LEAKING[0], [LEAKING[1], LEAKING[2], LEAKING[3], LEAKING[4]]);
  }

  lemma RunCons(s: State, step: Step, rest: seq<Step>)
    ensures Run(s, [step] + rest) == Run(Next(s, step), rest)
    ensures ProperRun(s, [step] + rest) <==> Proper(s, step) && ProperRun(Next(s, step), rest)
  {
    assert ([step] + rest)[1..] == rest;
  }

  lemma OneTriggered(s: State, id: Id, lastCheck: int, now: int)
    ensures TriggerAll(s, [id], lastCheck, now) == Trigger(s, id, lastCheck, now)
  {
    assert [id][1..] == [];
  }

  lemma OneStartedOrStopped(s: State, id: Id, now: int)
    ensures StartOrStopAll(s, [id], now) == StartOrStop(s, id, now)
  {
    assert [id][1..] == [];
  }
}

/** The mutable item and the passes of the scheduler over its downtimes. */
module DowntimeItem {
  import opened Downtimes

  class Item {
    var downtimes: map<Id, Downtime>
    var scheduledDowntimeDepth: int
    var inScheduledDowntime: bool
    var log: seq<Event>

    function View(): State
      reads this
    {
      State(downtimes, scheduledDowntimeDepth, inScheduledDowntime, log)
    }

    constructor ()
      ensures View() == INITIAL && Good(View())
    {
      downtimes, scheduledDowntimeDepth, inScheduledDowntime, log := map[], 0, false, [];
    }

    method AddDowntime(id: Id, d: Downtime)
      modifies this
      ensures View() == Next(old(View()), Add(id, d))
    {
      downtimes := downtimes[id := d];
    }

    method EnterDowntime(id: Id, now: int)
      requires id in downtimes
      modifies this
      ensures View() == Enter(old(View()), id, now)
    {
      var d := downtimes[id].(inEffect := true);
      if !d.fixed {
        d := d.(realEnd := now + d.duration);
      }
      downtimes := downtimes[id := d];
      scheduledDowntimeDepth := scheduledDowntimeDepth + 1;
      inScheduledDowntime := true;
      if scheduledDowntimeDepth == 1 {
        log := log + [Entered];
      }
    }

    method ExitDowntime(id: Id)
      requires id in downtimes
      modifies this
      ensures View() == Exit(old(View()), id)
    {
      var d := downtimes[id];
      if d.inEffect {
        d := d.(inEffect := false);
        scheduledDowntimeDepth := scheduledDowntimeDepth - 1;
        if scheduledDowntimeDepth == 0 {
          log := log + [Exited];
          inScheduledDowntime := false;
        }
      }
      downtimes := downtimes[id := d.(deletable := true)];
    }

    method CancelDowntime(id: Id)
      requires id in downtimes
      modifies this
      ensures View() == Cancel(old(View()), id)
    {
      scheduledDowntimeDepth := scheduledDowntimeDepth - 1;
      if scheduledDowntimeDepth == 0 {
        log := log + [Cancelled];
        inScheduledDowntime := false;
      }
      downtimes := downtimes[id := downtimes[id].(inEffect := false, deletable := true)];
    }

    /** One pass of update_downtimes_and_comments over this item. */
    method UpdateDowntimes(order: seq<Id>, now: int)
      modifies this
      ensures View() == Update(old(View()), order, now)
    {
      downtimes := map id | id in downtimes && !downtimes[id].deletable :: downtimes[id];
      assert View() == Sweep(old(View()));
      for i := 0 to |order|
        invariant StartOrStopAll(View(), order[i..], now) == Update(old(View()), order, now)
      {
        assert order[i..][1..] == order[i + 1..];
        if order[i] in downtimes {
          if downtimes[order[i]].realEnd < now {
            ExitDowntime(order[i]);
          } else if now >= downtimes[order[i]].start && downtimes[order[i]].fixed && !downtimes[order[i]].inEffect {
            EnterDowntime(order[i], now);
          }
        }
      }
    }

    /** Called when a check shows a problem. */
    method CheckForFlexibleDowntime(order: seq<Id>, lastCheck: int, now: int)
      modifies this
      ensures View() == TriggerAll(old(View()), order, lastCheck, now)
    {
      for i := 0 to |order|
        invariant TriggerAll(View(), order[i..], lastCheck, now) == TriggerAll(old(View()), order, lastCheck, now)
      {
        assert order[i..][1..] == order[i + 1..];
        if order[i] in downtimes {
          var d := downtimes[order[i]];
          if !(d.fixed || d.inEffect) && d.start <= lastCheck && d.end >= lastCheck {
            EnterDowntime(order[i], now);
          }
        }
      }
    }
  }
}
