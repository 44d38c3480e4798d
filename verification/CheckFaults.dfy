/** The travel of the checks with faults: workers die, checks are orphaned and handed
    out again, results come back late or several times. */
module CheckFaults {
  import S = SchedulerChecks
  import opened Satellites
  import opened CheckProtocol

  datatype FaultStep =
    | NewCheck(u: Uuid)
    | HandOut(link: nat, batch: Batch)
    | TakeIn(link: nat)
    | Inside(link: nat, step: Satellites.Step)
    | SendBack(link: nat, results: seq<Uuid>)
    | Repeat(results: seq<Uuid>)
    | Orphan(late: set<Uuid>)
    | Tick

  /** Any scheduled checks may be handed to any poller, whatever workers it has. Inside
      a poller workers get, finish, die and are buried; what it is handed comes in by
      TakeIn, and what it returns leaves by SendBack. */
  predicate Permitted(net: Net, step: FaultStep) {
    match step
    case NewCheck(u) => u !in net.sched.used
    case HandOut(k, batch) =>
      && k < |net.links|
      && forall i :: 0 <= i < |batch| ==> batch[i].0 in net.sched.checks && net.sched.checks[batch[i].0].Scheduled?
    case TakeIn(k) => k < |net.links|
    case Inside(k, s) =>
      && k < |net.links| && !s.Receive? && !s.PushStep?
      && Possible(net.links[k].poller, s) && Thorough(net.links[k].poller, s)
    case SendBack(k, results) => k < |net.links| && multiset(results) == multiset(net.links[k].poller.homerun)
    case _ => true
  }

  function Apply(net: Net, step: FaultStep, c: S.Config): Net
    requires Permitted(net, step)
  {
    match step
    case NewCheck(u) => net.(sched := S.AddCheck(net.sched, u))
    case HandOut(k, batch) =>
      Net(S.GetToRun(net.sched, NameSet(batch)), net.links[k := Handed(net.links[k], batch)])
    case TakeIn(k) => net.(links := net.links[k := Enqueue(net.links[k])])
    case Inside(k, s) =>
      net.(links := net.links[k := net.links[k].(poller := Satellites.Next(net.links[k].poller, s))])
    case SendBack(k, results) =>
      Net(net.sched.(waiting := net.sched.waiting + results), net.links[k := Pushed(net.links[k])])
    case Repeat(results) => net.(sched := net.sched.(waiting := net.sched.waiting + results))
    case Orphan(late) => net.(sched := S.CheckOrphaned(net.sched, late))
    case Tick => net.(sched := S.Tick(net.sched, c))
  }

  predicate PermittedRun(net: Net, steps: seq<FaultStep>, c: S.Config)
    decreases |steps|
  {
    steps != [] ==> Permitted(net, steps[0]) && PermittedRun(Apply(net, steps[0], c), steps[1..], c)
  }

  function ApplyAll(net: Net, steps: seq<FaultStep>, c: S.Config): Net
    requires PermittedRun(net, steps, c)
    decreases |steps|
  {
    if steps == [] then net else ApplyAll(Apply(net, steps[0], c), steps[1..], c)
  }

  // ---------------------------------------------------------------- where a check is

  /** The link has been handed u, knows it, or has a result of it. */
  predicate At(l: Link, u: Uuid) {
    u in Names(l.incoming) || u in l.poller.actions || u in l.poller.returned || u in l.poller.homerun
  }

  ghost predicate AtSomeLink(links: seq<Link>, u: Uuid) {
    exists k :: 0 <= k < |links| && At(links[k], u)
  }

  /** A check that is with a poller, as the scheduler has it, is at some link, or its
      result has arrived. */
  ghost predicate Tracked(net: Net, u: Uuid) {
    InPoller(net.sched, u) ==> u in net.sched.waiting || AtSomeLink(net.links, u)
  }

  lemma LinkStays(links: seq<Link>, k: nat, l: Link, u: Uuid)
    requires k < |links| && AtSomeLink(links, u) && (At(links[k], u) ==> At(l, u))
    ensures AtSomeLink(links[k := l], u)
  {
    var i :| 0 <= i < |links| && At(links[i], u);
    assert At(links[k := l][i], u);
  }

  lemma LinkGets(links: seq<Link>, k: nat, l: Link, u: Uuid)
    requires k < |links| && At(l, u)
    ensures AtSomeLink(links[k := l], u)
  {
    assert At(links[k := l][k], u);
  }

  lemma {:induction false} AddedAreKnown(p: Poller, batch: Batch, u: Uuid)
    ensures u in AddActions(p, batch).actions <==> u in p.actions || u in Names(batch)
    ensures AddActions(p, batch).returned == p.returned && AddActions(p, batch).homerun == p.homerun
    decreases |batch|
  {
    if batch != [] {
      AddActionKnown(p, batch[0].0, batch[0].1);
      HomerunStays(p, batch[0].0, batch[0].1);
      hide AddAction;
      AddedAreKnown(AddAction(p, batch[0].0, batch[0].1), batch[1..], u);
    }
  }

  lemma HomerunStays(p: Poller, x: Uuid, mod: Module)
    ensures AddAction(p, x, mod).homerun == p.homerun
  {
  }

  lemma InsideStays(p: Poller, s: Satellites.Step, u: Uuid)
    requires Possible(p, s) && !s.Receive? && !s.PushStep?
    requires u in p.actions || u in p.returned || u in p.homerun
    ensures var p' := Satellites.Next(p, s); u in p'.actions || u in p'.returned || u in p'.homerun
  {
    match s
    case PassStep(order) => BuryAllFlags(p, DeadList(p.workers), order);
    case ReturnStep => assert p.returned == [p.returned[0]] + p.returned[1..];
    case FinishStep(w, i) => assert forall x :: x in p.returned ==> x in p.returned + [p.workers[w].held[i]];
    case _ =>
  }

  lemma TickTracks(s: S.State, c: S.Config, u: Uuid)
    requires InPoller(S.Tick(s, c), u)
    ensures InPoller(s, u) && (u in s.waiting ==> u in S.Tick(s, c).waiting)
  {
    S.ManageResultsEffect(s.checks, s.waiting);
    hide S.ManageResults;
  }

  /** No step, faulty or not, makes the net lose track of a check. */
  lemma StepTracked(net: Net, step: FaultStep, c: S.Config, u: Uuid)
    requires Tracked(net, u) && Permitted(net, step)
    ensures Tracked(Apply(net, step, c), u)
  {
    hide AtSomeLink, S.Tick, AddActions;
    var net' := Apply(net, step, c);
    if InPoller(net'.sched, u) {
      match step
      case HandOut(k, batch) =>
        var l := Handed(net.links[k], batch);
        NamesConcat(net.links[k].incoming, batch);
        if u in Names(batch) {
          LinkGets(net.links, k, l, u);
        } else if u !in net.sched.waiting {
          LinkStays(net.links, k, l, u);
        }
      case TakeIn(k) =>
        AddedAreKnown(net.links[k].poller, net.links[k].incoming, u);
        if u !in net.sched.waiting { LinkStays(net.links, k, Enqueue(net.links[k]), u); }
      case Inside(k, s) =>
        if u !in net.sched.waiting {
          InsideStep(net, k, s, u);
        }
      case SendBack(k, results) =>
        assert u in results <==> u in multiset(results);
        if u !in net.sched.waiting + results { LinkStays(net.links, k, Pushed(net.links[k]), u); }
      case Tick => TickTracks(net.sched, c, u);
      case _ =>
    }
  }

  lemma InsideStep(net: Net, k: nat, s: Satellites.Step, u: Uuid)
    requires Permitted(net, Inside(k, s)) && AtSomeLink(net.links, u)
    ensures AtSomeLink(net.links[k := net.links[k].(poller := Satellites.Next(net.links[k].poller, s))], u)
  {
    var l := net.links[k];
    if u in l.poller.actions || u in l.poller.returned || u in l.poller.homerun { InsideStays(l.poller, s, u); }
    LinkStays(net.links, k, l.(poller := Satellites.Next(l.poller, s)), u);
  }

  // ---------------------------------------------------------------- what a poller knows is not lost

  predicate KeptEverywhere(net: Net, u: Uuid) {
    forall k :: 0 <= k < |net.links| ==> Kept(net.links[k].poller, u)
  }

  /** What u needs of a step: where it is taken in or a pass finds it unanswered. */
  ghost predicate Helps(net: Net, step: FaultStep, u: Uuid)
    requires Permitted(net, step)
  {
    match step
    case TakeIn(k) => KeepsStep(net.links[k].poller, Receive(net.links[k].incoming), u)
    case Inside(k, s) => KeepsStep(net.links[k].poller, s, u)
    case _ => true
  }

  lemma OneLinkKept(net: Net, k: nat, l: Link, u: Uuid)
    requires KeptEverywhere(net, u) && k < |net.links|
    ensures KeptEverywhere(net.(links := net.links[k := l]), u) <==> Kept(l.poller, u)
  {
    hide Kept;
    if KeptEverywhere(net.(links := net.links[k := l]), u) { assert net.links[k := l][k] == l; }
  }

  lemma StepKeptEverywhereIff(net: Net, step: FaultStep, c: S.Config, u: Uuid)
    requires KeptEverywhere(net, u) && Permitted(net, step)
    ensures KeptEverywhere(Apply(net, step, c), u) <==> Helps(net, step, u)
  {
    hide Kept, AddActions, S.Tick;
    match step
    case HandOut(k, batch) => OneLinkKept(net, k, Handed(net.links[k], batch), u);
    case TakeIn(k) =>
      StepKeptIff(net.links[k].poller, Receive(net.links[k].incoming), u);
      OneLinkKept(net, k, Enqueue(net.links[k]), u);
    case Inside(k, s) =>
      StepKeptIff(net.links[k].poller, s, u);
      OneLinkKept(net, k, net.links[k].(poller := Satellites.Next(net.links[k].poller, s)), u);
    case SendBack(k, results) =>
      PushKept(net.links[k].poller, u);
      OneLinkKept(net, k, Pushed(net.links[k]), u);
    case _ =>
  }

  lemma PushKept(p: Poller, u: Uuid)
    requires Kept(p, u)
    ensures Kept(Push(p), u)
  {
  }

  // ---------------------------------------------------------------- runs

  ghost predicate HelpsRun(net: Net, steps: seq<FaultStep>, c: S.Config, u: Uuid)
    requires PermittedRun(net, steps, c)
    decreases |steps|
  {
    steps != [] ==> Helps(net, steps[0], u) && HelpsRun(Apply(net, steps[0], c), steps[1..], c, u)
  }

  predicate KeptAllAlong(net: Net, steps: seq<FaultStep>, c: S.Config, u: Uuid)
    requires PermittedRun(net, steps, c)
    decreases |steps|
  {
    KeptEverywhere(net, u) && (steps != [] ==> KeptAllAlong(Apply(net, steps[0], c), steps[1..], c, u))
  }

  lemma {:induction false} RunKeptEverywhereIff(net: Net, steps: seq<FaultStep>, c: S.Config, u: Uuid)
    requires KeptEverywhere(net, u) && PermittedRun(net, steps, c)
    ensures KeptAllAlong(net, steps, c, u) <==> HelpsRun(net, steps, c, u)
    decreases |steps|
  {
    if steps != [] {
      StepKeptEverywhereIff(net, steps[0], c, u);
      hide KeptEverywhere, Apply, Permitted, Helps;
      if KeptEverywhere(Apply(net, steps[0], c), u) { RunKeptEverywhereIff(Apply(net, steps[0], c), steps[1..], c, u); }
    }
  }

  lemma {:induction false} RunTracked(net: Net, steps: seq<FaultStep>, c: S.Config, u: Uuid)
    requires Tracked(net, u) && PermittedRun(net, steps, c)
    ensures Tracked(ApplyAll(net, steps, c), u)
    decreases |steps|
  {
    if steps != [] {
      StepTracked(net, steps[0], c, u);
      hide Tracked, Apply, Permitted;
      RunTracked(Apply(net, steps[0], c), steps[1..], c, u);
    }
  }

  lemma StepSchedInv(net: Net, step: FaultStep, c: S.Config)
    requires 1 <= c.deleteEvery <= c.consumeEvery && S.Inv(net.sched, c) && Permitted(net, step)
    ensures S.Inv(Apply(net, step, c).sched, c)
  {
    hide S.Inv, S.Tick, S.AddCheck, S.GetToRun, S.CheckOrphaned;
    match step
    case NewCheck(u) => S.StepInv(net.sched, S.Add(u), c);
    case HandOut(k, batch) => S.StepInv(net.sched, S.Poll(NameSet(batch)), c);
    case SendBack(k, results) => S.StepInv(net.sched, S.Arrive(results), c);
    case Repeat(results) => S.StepInv(net.sched, S.Arrive(results), c);
    case Orphan(late) => S.StepInv(net.sched, S.Orphan(late), c);
    case Tick => S.StepInv(net.sched, S.TickStep, c);
    case _ =>
  }

  lemma {:induction false} RunSchedInv(net: Net, steps: seq<FaultStep>, c: S.Config)
    requires 1 <= c.deleteEvery <= c.consumeEvery && S.Inv(net.sched, c) && PermittedRun(net, steps, c)
    ensures S.Inv(ApplyAll(net, steps, c).sched, c)
    decreases |steps|
  {
    if steps != [] {
      StepSchedInv(net, steps[0], c);
      hide S.Inv, Apply, Permitted;
      RunSchedInv(Apply(net, steps[0], c), steps[1..], c);
    }
  }

  /** Whatever goes wrong: a check that the scheduler believes to be with a poller is
      at a link or its result has come; a link that knows it has not lost it, as long
      as workers of its module are there when it needs them; and, with zombies deleted
      often enough, it is consumed at most once. */
  lemma FaultsLoseNothing(n: nat, steps: seq<FaultStep>, c: S.Config, u: Uuid)
    requires PermittedRun(Idle(n), steps, c)
    ensures Tracked(ApplyAll(Idle(n), steps, c), u)
    ensures KeptAllAlong(Idle(n), steps, c, u) <==> HelpsRun(Idle(n), steps, c, u)
    ensures 1 <= c.deleteEvery <= c.consumeEvery ==> ApplyAll(Idle(n), steps, c).sched.consumed[u] <= 1
  {
    RunTracked(Idle(n), steps, c, u);
    RunKeptEverywhereIff(Idle(n), steps, c, u);
    if 1 <= c.deleteEvery <= c.consumeEvery { RunSchedInv(Idle(n), steps, c); }
  }
}
