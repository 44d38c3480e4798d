/** Without faults the checks come home: no run wedges, moves end, and when none is
    left every check that was with a poller has been consumed. */
module CheckProgress {
  import S = SchedulerChecks
  import opened Satellites
  import opened CheckProtocol

  /** How many moves the copies are from home, weighing each buffer by its distance. */
  function WorkerDistance(w: Worker): nat { 5 * |w.queue| + 4 * |w.held| }

  function DistanceByWorker(ws: seq<Worker>): (r: seq<nat>)
    ensures |r| == |ws|
  {
    seq(|ws|, i requires 0 <= i < |ws| => WorkerDistance(ws[i]))
  }

  function WorkersDistance(ws: seq<Worker>): nat { Sum(DistanceByWorker(ws)) }

  function LinkDistance(l: Link): nat {
    6 * |l.incoming| + WorkersDistance(l.poller.workers) + 3 * |l.poller.returned| + 2 * |l.poller.homerun|
  }

  function DistanceByLink(links: seq<Link>): (r: seq<nat>)
    ensures |r| == |links|
  {
    seq(|links|, i requires 0 <= i < |links| => LinkDistance(links[i]))
  }

  function LinksDistance(links: seq<Link>): nat { Sum(DistanceByLink(links)) }

  function Distance(net: Net): nat { LinksDistance(net.links) + |net.sched.waiting| }

  lemma WorkerNearer(ws: seq<Worker>, i: nat, w: Worker)
    requires i < |ws|
    ensures WorkersDistance(ws[i := w]) + WorkerDistance(ws[i]) == WorkersDistance(ws) + WorkerDistance(w)
  {
    SumUpdate(DistanceByWorker(ws), i, WorkerDistance(w));
    assert DistanceByWorker(ws[i := w]) == DistanceByWorker(ws)[i := WorkerDistance(w)];
  }

  lemma LinkNearer(links: seq<Link>, i: nat, l: Link)
    requires i < |links|
    ensures LinksDistance(links[i := l]) + LinkDistance(links[i]) == LinksDistance(links) + LinkDistance(l)
  {
    hide LinkDistance;
    SumUpdate(DistanceByLink(links), i, LinkDistance(l));
    assert DistanceByLink(links[i := l]) == DistanceByLink(links)[i := LinkDistance(l)];
  }

  lemma AddActionDistance(p: Poller, x: Uuid, mod: Module)
    requires x !in p.actions && SomeServes(p.workers, mod)
    ensures WorkersDistance(AddAction(p, x, mod).workers) == WorkersDistance(p.workers) + 5
  {
    var w: WorkerId :| Serves(p.workers, w, mod);
    QueuesMembers(p.workers, mod, w);
    var picked := Pick(p.workers, p.rr, mod).0.value;
    WorkerNearer(p.workers, picked, Append(p.workers[picked], x));
  }

  lemma {:induction false} AddActionsDistance(p: Poller, batch: Batch)
    requires NewAndServed(p, batch)
    ensures WorkersDistance(AddActions(p, batch).workers) == WorkersDistance(p.workers) + 5 * |batch|
    decreases |batch|
  {
    if batch != [] {
      AddActionDistance(p, batch[0].0, batch[0].1);
      OneLessNew(p, batch);
      hide AddAction, NewAndServed, WorkersDistance;
      AddActionsDistance(AddAction(p, batch[0].0, batch[0].1), batch[1..]);
    }
  }

  /** The steps that move a copy: no new check, no new worker, nothing idle. */
  ghost predicate Moves(net: Net, step: NetStep) {
    && Allowed(net, step)
    && match step
       case EnqueueStep(k) => net.links[k].incoming != []
       case AtPoller(_, s) => s.GetStep? || s.FinishStep? || s.ReturnStep?
       case PushBack(_, results) => results != []
       case ConsumeStep => net.sched.waiting != []
       case _ => false
  }

  lemma EnqueueNearer(l: Link)
    requires LinkOk(l) && Single(l) && l.incoming != []
    ensures LinkDistance(Enqueue(l)) < LinkDistance(l)
  {
    IncomingIsNew(l);
    AddActionsKeeps(l.poller, l.incoming);
    AddActionsDistance(l.poller, l.incoming);
    hide WorkersDistance, AddActions;
  }

  lemma PollerStepNearer(p: Poller, s: Satellites.Step)
    requires Possible(p, s) && (s.GetStep? || s.FinishStep? || s.ReturnStep?)
    ensures LinkDistance(Link([], Satellites.Next(p, s))) < LinkDistance(Link([], p))
  {
    match s
    case GetStep(w) =>
      var x := p.workers[w];
      WorkerNearer(p.workers, w, x.(queue := x.queue[1..], held := x.held + [x.queue[0]]));
    case FinishStep(w, i) =>
      var x := p.workers[w];
      WorkerNearer(p.workers, w, x.(held := x.held[..i] + x.held[i + 1..]));
    case ReturnStep =>
      hide WorkersDistance;
      assert |p.homerun + {p.returned[0]}| <= |p.homerun| + 1;
  }

  lemma MoveIsNearer(net: Net, step: NetStep)
    requires Conserved(net) && Moves(net, step)
    ensures Distance(After(net, step)) < Distance(net)
  {
    hide LinksDistance, WorkersDistance;
    match step
    case EnqueueStep(k) =>
      ConservedSingle(net, k);
      EnqueueNearer(net.links[k]);
      LinkNearer(net.links, k, Enqueue(net.links[k]));
    case AtPoller(k, s) =>
      var l := net.links[k];
      PollerStepNearer(l.poller, s);
      LinkNearer(net.links, k, l.(poller := Satellites.Next(l.poller, s)));
    case PushBack(k, results) => PushIsNearer(net, k, results);
    case ConsumeStep =>
  }

  lemma PushIsNearer(net: Net, k: nat, results: seq<Uuid>)
    requires Moves(net, PushBack(k, results))
    ensures Distance(After(net, PushBack(k, results))) < Distance(net)
  {
    hide LinksDistance, WorkersDistance;
    var l := net.links[k];
    assert |multiset(results)| == |results| && |multiset(l.poller.homerun)| == |l.poller.homerun|;
    LinkNearer(net.links, k, l.(poller := Push(l.poller)));
  }

  lemma {:induction false} SomePart(parts: seq<nat>) returns (i: nat)
    requires Sum(parts) > 0
    ensures i < |parts| && parts[i] > 0
  {
    if parts[0] > 0 {
      i := 0;
    } else {
      var j := SomePart(parts[1..]);
      i := j + 1;
    }
  }

  lemma {:induction false} Listing(s: set<Uuid>) returns (r: seq<Uuid>)
    ensures multiset(r) == multiset(s)
  {
    if s == {} {
      r := [];
    } else {
      var u :| u in s;
      var rest := Listing(s - {u});
      r := [u] + rest;
      assert multiset(s) == multiset(s - {u}) + multiset{u};
    }
  }

  /** Where a copy of u is, there is a step that moves it on. */
  lemma LinkNotWedged(net: Net, k: nat, u: Uuid) returns (step: NetStep)
    requires k < |net.links| && LinkOk(net.links[k]) && LinkCopies(net.links[k], u) > 0
    ensures Moves(net, step)
  {
    var l := net.links[k];
    if l.incoming != [] {
      step := EnqueueStep(k);
    } else if l.poller.returned != [] {
      step := AtPoller(k, ReturnStep);
    } else if l.poller.homerun != {} {
      var results := Listing(l.poller.homerun);
      assert |multiset(results)| == |results| && |multiset(l.poller.homerun)| == |l.poller.homerun|;
      step := PushBack(k, results);
    } else {
      var w := SomePart(CopiesByWorker(l.poller.workers, u));
      if l.poller.workers[w].queue != [] {
        step := AtPoller(k, GetStep(w));
      } else {
        assert l.poller.workers[w].held != [];
        step := AtPoller(k, FinishStep(w, 0));
      }
    }
  }

  /** As long as a check is with a poller, some copy can move. */
  lemma NeverWedged(net: Net, u: Uuid) returns (step: NetStep)
    requires Conserved(net) && InPoller(net.sched, u)
    ensures Moves(net, step)
  {
    assert Copies(net, u) == 1;
    if net.sched.waiting != [] {
      step := ConsumeStep;
    } else {
      var k := SomePart(CopiesByLink(net.links, u));
      step := LinkNotWedged(net, k, u);
    }
  }

  ghost predicate MovingRun(net: Net, steps: seq<NetStep>)
    decreases |steps|
  {
    steps != [] ==> Moves(net, steps[0]) && MovingRun(After(net, steps[0]), steps[1..])
  }

  predicate Answered(s: S.State, u: Uuid) { s.consumed[u] == 1 }

  lemma MoveKeepsAnswer(net: Net, step: NetStep, u: Uuid)
    requires Conserved(net) && Moves(net, step) && (InPoller(net.sched, u) || Answered(net.sched, u))
    ensures InPoller(After(net, step).sched, u) || Answered(After(net, step).sched, u)
  {
    hide LinkOk, AtLinks;
    assert Copies(net, u) == One(InPoller(net.sched, u));
    if step.ConsumeStep? {
      forall x ensures Count(net.sched.waiting, x) <= One(InPoller(net.sched, x)) {
        assert Copies(net, x) == One(InPoller(net.sched, x));
      }
      ConsumeSched(net.sched);
      hide S.Consume, S.Known;
    }
  }

  /** Moves cannot go on for ever: a run of them is no longer than the distance. */
  lemma {:induction false} MovesEnd(net: Net, steps: seq<NetStep>)
    requires Conserved(net) && MovingRun(net, steps)
    ensures AllowedRun(net, steps) && |steps| + Distance(AfterRun(net, steps)) <= Distance(net)
    decreases |steps|
  {
    if steps != [] {
      MoveIsNearer(net, steps[0]);
      StepConserved(net, steps[0]);
      hide Conserved, Distance;
      MovesEnd(After(net, steps[0]), steps[1..]);
    }
  }

  lemma {:induction false} MovesKeepAnswer(net: Net, steps: seq<NetStep>, u: Uuid)
    requires Conserved(net) && MovingRun(net, steps) && (InPoller(net.sched, u) || Answered(net.sched, u))
    ensures AllowedRun(net, steps) && Conserved(AfterRun(net, steps))
    ensures var s := AfterRun(net, steps).sched; InPoller(s, u) || Answered(s, u)
    decreases |steps|
  {
    if steps != [] {
      MoveKeepsAnswer(net, steps[0], u);
      StepConserved(net, steps[0]);
      hide Conserved, InPoller, Answered;
      MovesKeepAnswer(After(net, steps[0]), steps[1..], u);
    }
  }

  /** Whatever the order of the moves, when none is left every check that was with a
      poller has been consumed exactly once. */
  lemma EveryCheckComesHome(net: Net, steps: seq<NetStep>, u: Uuid)
    requires Conserved(net) && InPoller(net.sched, u) && MovingRun(net, steps)
    ensures AllowedRun(net, steps)
    ensures (forall step :: !Moves(AfterRun(net, steps), step)) ==> Answered(AfterRun(net, steps).sched, u)
  {
    MovesKeepAnswer(net, steps, u);
    var net' := AfterRun(net, steps);
    if InPoller(net'.sched, u) {
      var step := NeverWedged(net', u);
    }
  }

  /** From every conserved state there is such a run: one that brings all checks home. */
  lemma {:induction false} AWayHome(net: Net) returns (steps: seq<NetStep>)
    requires Conserved(net)
    ensures MovingRun(net, steps) && AllowedRun(net, steps)
    ensures forall u :: !InPoller(AfterRun(net, steps).sched, u)
    ensures forall u :: InPoller(net.sched, u) ==> Answered(AfterRun(net, steps).sched, u)
    decreases Distance(net)
  {
    if u :| InPoller(net.sched, u) {
      var step := NeverWedged(net, u);
      StepConserved(net, step);
      MoveIsNearer(net, step);
      var net1 := After(net, step);
      var rest := AWayHome(net1);
      steps := [step] + rest;
      assert steps[1..] == rest;
      forall x | InPoller(net.sched, x) ensures Answered(AfterRun(net1, rest).sched, x) {
        MoveKeepsAnswer(net, step, x);
        MovesKeepAnswer(net1, rest, x);
      }
    } else {
      steps := [];
    }
  }
}
