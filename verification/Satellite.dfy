/** A satellite: it spreads the actions of its scheduler over the queues of its
    workers, takes the results back, and recovers from workers that die. */
module Satellites {
  import opened Options

  type Uuid = nat
  type WorkerId = nat
  type Module = nat

  /** listed: the worker and its queue are registered with the satellite. queue
      holds the messages it has not read, held the actions it works on. */
  datatype Worker = Worker(mod: Module, alive: bool, listed: bool, queue: seq<Uuid>, held: seq<Uuid>)

  /** An action of the scheduler link: whether its status is queued, and its my_worker. */
  datatype Action = Action(mod: Module, queued: bool, worker: Option<WorkerId>)

  /** Workers are numbered in the order of their creation. */
  datatype Poller = Poller(actions: map<Uuid, Action>, workers: seq<Worker>, rr: nat,
                           returned: seq<Uuid>, homerun: set<Uuid>)

  // ---------------------------------------------------------------- queues

  /** The workers listed for a module, in order. */
  function Queues(ws: seq<Worker>, mod: Module): (r: seq<WorkerId>)
    ensures forall i :: 0 <= i < |r| ==> r[i] < |ws|
  {
    if ws == [] then []
    else
      var last := |ws| - 1;
      Queues(ws[..last], mod) + if ws[last].listed && ws[last].mod == mod then [last] else []
  }

  predicate Serves(ws: seq<Worker>, w: WorkerId, mod: Module) {
    w < |ws| && ws[w].listed && ws[w].mod == mod
  }

  lemma {:induction false} QueuesMembers(ws: seq<Worker>, mod: Module, w: WorkerId)
    ensures w in Queues(ws, mod) <==> Serves(ws, w, mod)
  {
    if ws != [] {
      var front := ws[..|ws| - 1];
      QueuesMembers(front, mod, w);
      assert w < |front| ==> front[w] == ws[w];
    }
  }

  /** The index that follows rr in a round of n. */
  function NextIndex(rr: nat, n: nat): (r: nat)
    requires n > 0
    ensures r < n
  {
    (rr + 1) % n
  }

  /** Round robin: the next index, then the worker found there. */
  function Pick(ws: seq<Worker>, rr: nat, mod: Module): (r: (Option<WorkerId>, nat))
    ensures r.0.Some? ==> r.0.value < |ws|
  {
    var qs := Queues(ws, mod);
    if qs == [] then (None, rr)
    else
      var next := NextIndex(rr, |qs|);
      (Some(qs[next]), next)
  }

  function Append(w: Worker, u: Uuid): Worker { w.(queue := w.queue + [u]) }

  function AssignToQueue(p: Poller, u: Uuid): Poller
    requires u in p.actions
  {
    var (w, rr) := Pick(p.workers, p.rr, p.actions[u].mod);
    if w.None? then p
    else p.(actions := p.actions[u := p.actions[u].(queued := true, worker := w)], rr := rr,
            workers := p.workers[w.value := Append(p.workers[w.value], u)])
  }

  /** An action already known is skipped. */
  function AddAction(p: Poller, u: Uuid, mod: Module): Poller {
    if u in p.actions then p
    else AssignToQueue(p.(actions := p.actions[u := Action(mod, false, None)]), u)
  }

  function AddActions(p: Poller, list: seq<(Uuid, Module)>): Poller
    decreases |list|
  {
    if list == [] then p else AddActions(AddAction(p, list[0].0, list[0].1), list[1..])
  }

  // ---------------------------------------------------------------- workers and returns

  predicate CanGet(p: Poller, w: WorkerId) {
    w < |p.workers| && p.workers[w].alive && p.workers[w].queue != []
  }

  function Get(p: Poller, w: WorkerId): Poller
    requires CanGet(p, w)
  {
    var x := p.workers[w];
    p.(workers := p.workers[w := x.(queue := x.queue[1..], held := x.held + [x.queue[0]])])
  }

  predicate CanFinish(p: Poller, w: WorkerId, i: nat) {
    w < |p.workers| && p.workers[w].alive && i < |p.workers[w].held|
  }

  function Finish(p: Poller, w: WorkerId, i: nat): Poller
    requires CanFinish(p, w, i)
  {
    var x := p.workers[w];
    p.(workers := p.workers[w := x.(held := x.held[..i] + x.held[i + 1..])], returned := p.returned + [x.held[i]])
  }

  /** manage_action_return on the oldest Done message. */
  function TakeReturn(p: Poller): Poller
    requires p.returned != []
  {
    p.(returned := p.returned[1..], actions := p.actions - {p.returned[0]}, homerun := p.homerun + {p.returned[0]})
  }

  function Push(p: Poller): Poller { p.(homerun := {}) }

  function Spawn(p: Poller, mod: Module): Poller {
    p.(workers := p.workers + [Worker(mod, true, true, [], [])])
  }

  function Die(p: Poller, w: WorkerId): Poller
    requires w < |p.workers|
  {
    p.(workers := p.workers[w := p.workers[w].(alive := false)])
  }

  // ---------------------------------------------------------------- zombie workers

  predicate TaggedWith(p: Poller, u: Uuid, w: WorkerId) {
    u in p.actions && p.actions[u].queued && p.actions[u].worker == Some(w)
  }

  function Reassign(p: Poller, order: seq<Uuid>, w: WorkerId): Poller
    decreases |order|
  {
    if order == [] then p
    else Reassign(if TaggedWith(p, order[0], w) then AssignToQueue(p, order[0]) else p, order[1..], w)
  }

  function Unlist(p: Poller, w: WorkerId): Poller
    requires w < |p.workers|
  {
    p.(workers := p.workers[w := p.workers[w].(listed := false)])
  }

  /** The queue of a dead worker goes, then its actions are queued again. */
  function Bury(p: Poller, w: WorkerId, order: seq<Uuid>): Poller
    requires w < |p.workers|
  {
    Reassign(Unlist(p, w), order, w)
  }

  function BuryAll(p: Poller, dead: seq<WorkerId>, order: seq<Uuid>): Poller
    decreases |dead|
  {
    if dead == [] then p
    else if dead[0] < |p.workers| then BuryAll(Bury(p, dead[0], order), dead[1..], order)
    else BuryAll(p, dead[1..], order)
  }

  function DeadList(ws: seq<Worker>): seq<WorkerId> {
    if ws == [] then []
    else
      var last := |ws| - 1;
      DeadList(ws[..last]) + if ws[last].listed && !ws[last].alive then [last] else []
  }

  /** check_and_del_zombie_workers; order is how the actions are gone through. */
  function ZombiePass(p: Poller, order: seq<Uuid>): Poller {
    BuryAll(p, DeadList(p.workers), order)
  }

  // ---------------------------------------------------------------- where an action is

  predicate Tagged(p: Poller, u: Uuid) {
    && u in p.actions && p.actions[u].queued && p.actions[u].worker.Some?
    && p.actions[u].worker.value < |p.workers|
    && p.workers[p.actions[u].worker.value].mod == p.actions[u].mod
  }

  function TagOf(p: Poller, u: Uuid): WorkerId
    requires Tagged(p, u)
  {
    p.actions[u].worker.value
  }

  predicate Carries(w: Worker, u: Uuid) { u in w.queue || u in w.held }

  /** Tagged with a listed worker that carries it, or that is dead and will be buried. */
  predicate Held(p: Poller, u: Uuid) {
    Tagged(p, u) && p.workers[TagOf(p, u)].listed && (p.workers[TagOf(p, u)].alive ==> Carries(p.workers[TagOf(p, u)], u))
  }

  /** Held, or its result is on its way. */
  predicate Placed(p: Poller, u: Uuid) { Tagged(p, u) && (u in p.returned || Held(p, u)) }

  /** Tagged with a listed and living worker that carries it. */
  predicate Safe(p: Poller, u: Uuid) {
    Tagged(p, u) && p.workers[TagOf(p, u)].listed && p.workers[TagOf(p, u)].alive && Carries(p.workers[TagOf(p, u)], u)
  }

  ghost predicate Survivor(p: Poller, mod: Module) {
    exists w: WorkerId :: Serves(p.workers, w, mod) && p.workers[w].alive
  }

  /** Same workers, with the same flags and nothing taken away from them. */
  predicate OnlyAppended(ws: seq<Worker>, ws': seq<Worker>) {
    && |ws'| == |ws|
    && forall w :: 0 <= w < |ws| ==>
         && ws'[w].mod == ws[w].mod && ws'[w].alive == ws[w].alive && ws'[w].listed == ws[w].listed
         && ws'[w].held == ws[w].held && |ws[w].queue| <= |ws'[w].queue|
         && ws'[w].queue[..|ws[w].queue|] == ws[w].queue
  }

  lemma AppendedCarries(ws: seq<Worker>, ws': seq<Worker>, w: WorkerId, u: Uuid)
    requires OnlyAppended(ws, ws') && w < |ws| && Carries(ws[w], u)
    ensures Carries(ws'[w], u)
  {
    if u in ws[w].queue {
      var i :| 0 <= i < |ws[w].queue| && ws[w].queue[i] == u;
      assert ws'[w].queue[..|ws[w].queue|][i] == u;
    }
  }

  lemma AssignOnlyAppends(p: Poller, x: Uuid)
    requires x in p.actions
    ensures var p' := AssignToQueue(p, x);
            && OnlyAppended(p.workers, p'.workers) && p'.actions.Keys == p.actions.Keys
            && p'.returned == p.returned && p'.homerun == p.homerun
            && forall u :: u in p.actions && u != x ==> p'.actions[u] == p.actions[u]
  {
    hide Queues;
    var (w, rr) := Pick(p.workers, p.rr, p.actions[x].mod);
    if w.Some? {
      var before := p.workers[w.value];
      assert (before.queue + [x])[..|before.queue|] == before.queue;
    }
  }

  /** Queueing another action does not move u. */
  lemma AssignOther(p: Poller, x: Uuid, u: Uuid)
    requires x in p.actions && x != u && Held(p, u)
    ensures Held(AssignToQueue(p, x), u)
  {
    AssignOnlyAppends(p, x);
    var p' := AssignToQueue(p, x);
    if Carries(p.workers[TagOf(p, u)], u) {
      AppendedCarries(p.workers, p'.workers, TagOf(p, u), u);
    }
  }

  /** Queueing u itself places it with a worker of its module, if there is one. */
  lemma AssignSelf(p: Poller, u: Uuid, w: WorkerId)
    requires u in p.actions && Serves(p.workers, w, p.actions[u].mod)
    ensures Held(AssignToQueue(p, u), u)
  {
    var mod := p.actions[u].mod;
    QueuesMembers(p.workers, mod, w);
    var picked := Pick(p.workers, p.rr, mod).0;
    assert picked.value in Queues(p.workers, mod);
    QueuesMembers(p.workers, mod, picked.value);
    var p' := AssignToQueue(p, u);
    assert u in p'.workers[picked.value].queue;
  }

  lemma NoQueueNoChange(p: Poller, u: Uuid)
    requires u in p.actions && forall w: WorkerId :: !Serves(p.workers, w, p.actions[u].mod)
    ensures AssignToQueue(p, u) == p
  {
    var mod := p.actions[u].mod;
    if Queues(p.workers, mod) != [] {
      QueuesMembers(p.workers, mod, Queues(p.workers, mod)[0]);
    }
  }

  // ---------------------------------------------------------------- recovery

  lemma {:induction false} ReassignHeld(p: Poller, order: seq<Uuid>, d: WorkerId, u: Uuid, w: WorkerId)
    requires Tagged(p, u) && (Held(p, u) || (TagOf(p, u) == d && u in order))
    requires Serves(p.workers, w, p.actions[u].mod)
    ensures Held(Reassign(p, order, d), u)
    decreases |order|
  {
    if order != [] {
      var x := order[0];
      if TaggedWith(p, x, d) {
        AssignOnlyAppends(p, x);
        if x == u {
          AssignSelf(p, u, w);
        } else {
          if Held(p, u) { AssignOther(p, x, u); }
        }
        ReassignHeld(AssignToQueue(p, x), order[1..], d, u, w);
      } else {
        ReassignHeld(p, order[1..], d, u, w);
      }
    }
  }

  lemma {:induction false} ReassignOnlyAppends(p: Poller, order: seq<Uuid>, d: WorkerId)
    ensures var p' := Reassign(p, order, d);
            && OnlyAppended(p.workers, p'.workers) && p'.actions.Keys == p.actions.Keys
            && p'.returned == p.returned && p'.homerun == p.homerun
            && forall u :: u in p.actions ==> p'.actions[u].mod == p.actions[u].mod
    decreases |order|
  {
    if order != [] {
      if TaggedWith(p, order[0], d) {
        AssignOnlyAppends(p, order[0]);
        var p1 := AssignToQueue(p, order[0]);
        ReassignOnlyAppends(p1, order[1..], d);
        AppendedTrans(p.workers, p1.workers, Reassign(p1, order[1..], d).workers);
      } else {
        ReassignOnlyAppends(p, order[1..], d);
      }
    }
  }

  lemma AppendedTrans(a: seq<Worker>, b: seq<Worker>, c: seq<Worker>)
    requires OnlyAppended(a, b) && OnlyAppended(b, c)
    ensures OnlyAppended(a, c)
  {
    forall w | 0 <= w < |a|
      ensures c[w].queue[..|a[w].queue|] == a[w].queue
    {
      assert c[w].queue[..|b[w].queue|][..|a[w].queue|] == c[w].queue[..|a[w].queue|];
    }
  }

  /** The flags after burying: only the buried workers are no longer listed. */
  lemma {:induction false} BuryAllFlags(p: Poller, dead: seq<WorkerId>, order: seq<Uuid>)
    ensures var p' := BuryAll(p, dead, order);
            && |p'.workers| == |p.workers| && p'.actions.Keys == p.actions.Keys && p'.returned == p.returned
            && p'.homerun == p.homerun
            && (forall u :: u in p.actions ==> p'.actions[u].mod == p.actions[u].mod)
            && forall w :: 0 <= w < |p.workers| ==>
                 && p'.workers[w].alive == p.workers[w].alive && p'.workers[w].mod == p.workers[w].mod
                 && (p'.workers[w].listed <==> p.workers[w].listed && w !in dead)
    decreases |dead|
  {
    if dead != [] {
      if dead[0] < |p.workers| {
        ReassignOnlyAppends(Unlist(p, dead[0]), order, dead[0]);
        BuryAllFlags(Bury(p, dead[0], order), dead[1..], order);
      } else {
        BuryAllFlags(p, dead[1..], order);
      }
    }
  }

  /** Through all burials an action keeps a worker as long as s survives. */
  lemma {:induction false} BuryAllHeld(p: Poller, dead: seq<WorkerId>, order: seq<Uuid>, u: Uuid, s: WorkerId)
    requires Held(p, u) && u in order && Serves(p.workers, s, p.actions[u].mod) && s !in dead
    ensures Held(BuryAll(p, dead, order), u)
    decreases |dead|
  {
    if dead != [] {
      var d := dead[0];
      if d < |p.workers| {
        var p1 := Unlist(p, d);
        assert Serves(p1.workers, s, p.actions[u].mod);
        assert TagOf(p, u) != d ==> Held(p1, u);
        ReassignHeld(p1, order, d, u, s);
        ReassignOnlyAppends(p1, order, d);
        BuryAllHeld(Bury(p, d, order), dead[1..], order, u, s);
      } else {
        BuryAllHeld(p, dead[1..], order, u, s);
      }
    }
  }

  lemma {:induction false} DeadListMembers(ws: seq<Worker>, w: WorkerId)
    ensures w in DeadList(ws) <==> w < |ws| && ws[w].listed && !ws[w].alive
  {
    if ws != [] {
      var front := ws[..|ws| - 1];
      DeadListMembers(front, w);
      assert w < |front| ==> front[w] == ws[w];
    }
  }

  /** After a pass every listed worker is alive, and no living one was dropped. */
  lemma PassLeavesLiving(p: Poller, order: seq<Uuid>, w: WorkerId)
    requires w < |p.workers|
    ensures var p' := ZombiePass(p, order);
            w < |p'.workers| && (p'.workers[w].listed <==> p.workers[w].listed && p.workers[w].alive)
            && p'.workers[w].alive == p.workers[w].alive && p'.workers[w].mod == p.workers[w].mod
  {
    BuryAllFlags(p, DeadList(p.workers), order);
    DeadListMembers(p.workers, w);
  }

  /** If a worker of its module survives, an action that was held is safe after the
      pass, however many workers died. */
  lemma RecoveryKeeps(p: Poller, order: seq<Uuid>, u: Uuid)
    requires Held(p, u) && u in order && Survivor(p, p.actions[u].mod)
    ensures Safe(ZombiePass(p, order), u)
  {
    var s: WorkerId :| Serves(p.workers, s, p.actions[u].mod) && p.workers[s].alive;
    DeadListMembers(p.workers, s);
    BuryAllHeld(p, DeadList(p.workers), order, u, s);
    BuryAllFlags(p, DeadList(p.workers), order);
    var p' := ZombiePass(p, order);
    PassLeavesLiving(p, order, TagOf(p', u));
  }

  /** Among dead workers only, an action ends with a worker no longer listed. */
  lemma NoSurvivorNoWorker(p: Poller, order: seq<Uuid>, u: Uuid)
    requires u in p.actions && !Survivor(p, p.actions[u].mod)
    ensures !Safe(ZombiePass(p, order), u)
  {
    BuryAllFlags(p, DeadList(p.workers), order);
    var p' := ZombiePass(p, order);
    if Safe(p', u) {
      PassLeavesLiving(p, order, TagOf(p', u));
      assert Serves(p.workers, TagOf(p', u), p.actions[u].mod);
    }
  }

  /** A pass keeps a held action exactly when a worker of its module survives. */
  lemma RecoveryIff(p: Poller, order: seq<Uuid>, u: Uuid)
    requires Held(p, u) && u in order
    ensures Safe(ZombiePass(p, order), u) <==> Survivor(p, p.actions[u].mod)
  {
    if Survivor(p, p.actions[u].mod) { RecoveryKeeps(p, order, u); } else { NoSurvivorNoWorker(p, order, u); }
  }

  // ---------------------------------------------------------------- runs

  datatype Step =
    | Receive(list: seq<(Uuid, Module)>)
    | GetStep(worker: WorkerId)
    | FinishStep(worker: WorkerId, index: nat)
    | ReturnStep
    | PushStep
    | SpawnStep(mod: Module)
    | DieStep(worker: WorkerId)
    | PassStep(order: seq<Uuid>)

  predicate Possible(p: Poller, step: Step) {
    match step
    case GetStep(w) => CanGet(p, w)
    case FinishStep(w, i) => CanFinish(p, w, i)
    case ReturnStep => p.returned != []
    case DieStep(w) => w < |p.workers|
    case _ => true
  }

  function Next(p: Poller, step: Step): Poller
    requires Possible(p, step)
  {
    match step
    case Receive(list) => AddActions(p, list)
    case GetStep(w) => Get(p, w)
    case FinishStep(w, i) => Finish(p, w, i)
    case ReturnStep => TakeReturn(p)
    case PushStep => Push(p)
    case SpawnStep(mod) => Spawn(p, mod)
    case DieStep(w) => Die(p, w)
    case PassStep(order) => ZombiePass(p, order)
  }

  ghost predicate SomeServes(ws: seq<Worker>, mod: Module) {
    exists w: WorkerId :: Serves(ws, w, mod)
  }

  /** What the satellite knows of u, it has not lost. */
  predicate Kept(p: Poller, u: Uuid) { u in p.actions ==> Placed(p, u) }

  /** The module under which u comes first in a list. */
  function FirstModule(list: seq<(Uuid, Module)>, u: Uuid): Option<Module> {
    if list == [] then None
    else if list[0].0 == u then Some(list[0].1)
    else FirstModule(list[1..], u)
  }

  /** What u itself needs of a step: a listed worker of its module when it arrives,
      and a survivor of its module at a pass that finds it unanswered. */
  ghost predicate KeepsStep(p: Poller, step: Step, u: Uuid) {
    match step
    case Receive(list) =>
      u !in p.actions && FirstModule(list, u).Some? ==> SomeServes(p.workers, FirstModule(list, u).value)
    case PassStep(_) =>
      u in p.actions && u !in p.returned ==> Survivor(p, p.actions[u].mod)
    case _ => true
  }

  /** A pass goes through all known actions. */
  predicate Thorough(p: Poller, step: Step) {
    step.PassStep? ==> forall u :: u in p.actions ==> u in step.order
  }

  lemma AddActionKnown(p: Poller, x: Uuid, mod: Module)
    ensures var p' := AddAction(p, x, mod);
            && OnlyAppended(p.workers, p'.workers) && p'.returned == p.returned
            && p'.actions.Keys == p.actions.Keys + {x}
            && forall u :: u in p.actions ==> p'.actions[u] == p.actions[u]
  {
    if x !in p.actions { AssignOnlyAppends(p.(actions := p.actions[x := Action(mod, false, None)]), x); }
  }

  lemma AppendedHeld(p: Poller, p': Poller, u: Uuid)
    requires OnlyAppended(p.workers, p'.workers) && u in p.actions && u in p'.actions && p'.actions[u] == p.actions[u]
    ensures Tagged(p', u) <==> Tagged(p, u)
    ensures Held(p, u) ==> Held(p', u)
  {
    if Held(p, u) && p.workers[TagOf(p, u)].alive { AppendedCarries(p.workers, p'.workers, TagOf(p, u), u); }
  }

  /** A batch does not touch an action that is already known. */
  lemma {:induction false} KnownStaysKept(p: Poller, list: seq<(Uuid, Module)>, u: Uuid)
    requires u in p.actions
    ensures var p' := AddActions(p, list);
            && u in p'.actions && (Tagged(p', u) <==> Tagged(p, u)) && (Placed(p, u) ==> Placed(p', u))
    decreases |list|
  {
    if list != [] {
      var p1 := AddAction(p, list[0].0, list[0].1);
      AddActionKnown(p, list[0].0, list[0].1);
      AppendedHeld(p, p1, u);
      hide AddAction, Held, Tagged;
      KnownStaysKept(p1, list[1..], u);
    }
  }

  lemma AppendedServes(ws: seq<Worker>, ws': seq<Worker>, mod: Module)
    requires OnlyAppended(ws, ws')
    ensures SomeServes(ws', mod) <==> SomeServes(ws, mod)
  {
    if w: WorkerId :| Serves(ws, w, mod) { assert Serves(ws', w, mod); }
    if w: WorkerId :| Serves(ws', w, mod) { assert Serves(ws, w, mod); }
  }

  /** On its arrival an action is placed exactly if a worker is listed for its module. */
  lemma ArrivalPlacedIff(p: Poller, u: Uuid, mod: Module)
    requires u !in p.actions
    ensures var p' := AddAction(p, u, mod);
            && u in p'.actions && (Tagged(p', u) <==> SomeServes(p.workers, mod))
            && (Placed(p', u) <==> SomeServes(p.workers, mod))
  {
    var p1 := p.(actions := p.actions[u := Action(mod, false, None)]);
    assert p1.workers == p.workers;
    if w: WorkerId :| Serves(p.workers, w, mod) {
      AssignSelf(p1, u, w);
      assert SomeServes(p.workers, mod);
    } else {
      NoQueueNoChange(p1, u);
    }
  }

  lemma {:induction false} ReceiveKeptIff(p: Poller, list: seq<(Uuid, Module)>, u: Uuid)
    requires Kept(p, u)
    ensures Kept(AddActions(p, list), u) <==> KeepsStep(p, Receive(list), u)
    decreases |list|
  {
    if u in p.actions {
      KnownStaysKept(p, list, u);
    } else if list != [] {
      var p1 := AddAction(p, list[0].0, list[0].1);
      if list[0].0 == u {
        ArrivalPlacedIff(p, u, list[0].1);
        KnownStaysKept(p1, list[1..], u);
      } else {
        AddActionKnown(p, list[0].0, list[0].1);
        if FirstModule(list, u).Some? { AppendedServes(p.workers, p1.workers, FirstModule(list, u).value); }
        hide AddAction;
        ReceiveKeptIff(p1, list[1..], u);
      }
    }
  }

  lemma GetCarries(w: Worker, u: Uuid)
    requires w.queue != []
    ensures Carries(w.(queue := w.queue[1..], held := w.held + [w.queue[0]]), u) <==> Carries(w, u)
  {
    assert w.queue == [w.queue[0]] + w.queue[1..];
  }

  lemma FinishCarries(w: Worker, i: nat, u: Uuid)
    requires i < |w.held|
    ensures Carries(w, u) <==> u == w.held[i] || Carries(w.(held := w.held[..i] + w.held[i + 1..]), u)
  {
    assert w.held == w.held[..i] + [w.held[i]] + w.held[i + 1..];
  }

  lemma {:induction false} ReassignTagged(p: Poller, order: seq<Uuid>, d: WorkerId, u: Uuid)
    requires Tagged(p, u)
    ensures Tagged(Reassign(p, order, d), u)
    decreases |order|
  {
    if order != [] {
      var x := order[0];
      if TaggedWith(p, x, d) {
        AssignTagged(p, x, u);
        ReassignTagged(AssignToQueue(p, x), order[1..], d, u);
      } else {
        ReassignTagged(p, order[1..], d, u);
      }
    }
  }

  lemma AssignTagged(p: Poller, x: Uuid, u: Uuid)
    requires x in p.actions && Tagged(p, u)
    ensures Tagged(AssignToQueue(p, x), u)
  {
    AssignOnlyAppends(p, x);
    var picked := Pick(p.workers, p.rr, p.actions[x].mod).0;
    if picked.Some? {
      assert picked.value in Queues(p.workers, p.actions[x].mod);
      QueuesMembers(p.workers, p.actions[x].mod, picked.value);
    }
  }

  lemma {:induction false} BuryAllTagged(p: Poller, dead: seq<WorkerId>, order: seq<Uuid>, u: Uuid)
    requires Tagged(p, u)
    ensures Tagged(BuryAll(p, dead, order), u)
    decreases |dead|
  {
    if dead != [] {
      if dead[0] < |p.workers| {
        assert Tagged(Unlist(p, dead[0]), u);
        ReassignTagged(Unlist(p, dead[0]), order, dead[0], u);
        BuryAllTagged(Bury(p, dead[0], order), dead[1..], order, u);
      } else {
        BuryAllTagged(p, dead[1..], order, u);
      }
    }
  }

  lemma PassKeptIff(p: Poller, order: seq<Uuid>, u: Uuid)
    requires Kept(p, u) && Thorough(p, PassStep(order))
    ensures Kept(ZombiePass(p, order), u) <==> KeepsStep(p, PassStep(order), u)
  {
    var p' := ZombiePass(p, order);
    BuryAllFlags(p, DeadList(p.workers), order);
    if u in p.actions {
      BuryAllTagged(p, DeadList(p.workers), order, u);
      if u !in p.returned {
        if Survivor(p, p.actions[u].mod) {
          RecoveryKeeps(p, order, u);
        } else if Held(p', u) {
          PassLeavesLiving(p, order, TagOf(p', u));
          assert Serves(p.workers, TagOf(p', u), p.actions[u].mod);
        }
      }
    }
  }

  lemma WorkerStepKept(p: Poller, step: Step, u: Uuid)
    requires Kept(p, u) && Possible(p, step) && (step.GetStep? || step.FinishStep?)
    ensures Kept(Next(p, step), u)
  {
    match step
    case GetStep(w) => GetCarries(p.workers[w], u);
    case FinishStep(w, i) => FinishCarries(p.workers[w], i, u);
  }

  /** A step loses the action u exactly when it fails what u itself needs; what
      happens to other actions and other modules does not matter. */
  lemma StepKeptIff(p: Poller, step: Step, u: Uuid)
    requires Kept(p, u) && Possible(p, step) && Thorough(p, step)
    ensures Kept(Next(p, step), u) <==> KeepsStep(p, step, u)
  {
    match step
    case Receive(list) => ReceiveKeptIff(p, list, u);
    case GetStep(_) => WorkerStepKept(p, step, u);
    case FinishStep(_, _) => WorkerStepKept(p, step, u);
    case ReturnStep => assert p.returned == [p.returned[0]] + p.returned[1..];
    case PassStep(order) => PassKeptIff(p, order, u);
    case _ =>
  }

  ghost function Run(p: Poller, steps: seq<Step>): Poller
    requires PossibleRun(p, steps)
    decreases |steps|
  {
    if steps == [] then p else Run(Next(p, steps[0]), steps[1..])
  }

  ghost predicate PossibleRun(p: Poller, steps: seq<Step>)
    decreases |steps|
  {
    steps != [] ==> Possible(p, steps[0]) && PossibleRun(Next(p, steps[0]), steps[1..])
  }

  ghost predicate ThoroughRun(p: Poller, steps: seq<Step>)
    decreases |steps|
  {
    steps != [] ==>
      Possible(p, steps[0]) && Thorough(p, steps[0]) && ThoroughRun(Next(p, steps[0]), steps[1..])
  }

  ghost predicate KeepsRun(p: Poller, steps: seq<Step>, u: Uuid)
    requires ThoroughRun(p, steps)
    decreases |steps|
  {
    steps != [] ==> KeepsStep(p, steps[0], u) && KeepsRun(Next(p, steps[0]), steps[1..], u)
  }

  /** u is not lost in any state of the run. */
  ghost predicate KeptThroughout(p: Poller, steps: seq<Step>, u: Uuid)
    requires ThoroughRun(p, steps)
    decreases |steps|
  {
    Kept(p, u) && (steps != [] ==> KeptThroughout(Next(p, steps[0]), steps[1..], u))
  }

  /** In every run, deaths of any number of workers included, an action is never lost
      exactly when it finds a worker of its module listed each time it arrives, and
      alive at each pass that finds it unanswered. */
  lemma {:induction false} RunKeptIff(p: Poller, steps: seq<Step>, u: Uuid)
    requires Kept(p, u) && ThoroughRun(p, steps)
    ensures KeptThroughout(p, steps, u) <==> KeepsRun(p, steps, u)
    decreases |steps|
  {
    if steps != [] {
      StepKeptIff(p, steps[0], u);
      if Kept(Next(p, steps[0]), u) { RunKeptIff(Next(p, steps[0]), steps[1..], u); }
    }
  }

  /** A worker that dies stays listed until a pass buries it; its actions are with
      another one afterwards, if there is one. */
  lemma DeathIsRecovered(p: Poller, w: WorkerId, order: seq<Uuid>, u: Uuid)
    requires w < |p.workers| && p.workers[w].listed && Held(p, u) && u in order
    ensures !Die(p, w).workers[w].alive && Die(p, w).workers[w].listed
    ensures w < |ZombiePass(Die(p, w), order).workers| && !ZombiePass(Die(p, w), order).workers[w].listed
    ensures Survivor(Die(p, w), p.actions[u].mod) ==> Safe(ZombiePass(Die(p, w), order), u)
  {
    var p1 := Die(p, w);
    PassLeavesLiving(p1, order, w);
    assert Held(p1, u);
    if Survivor(p1, p.actions[u].mod) { RecoveryKeeps(p1, order, u); }
  }

  // ---------------------------------------------------------------- stuck actions

  predicate NoLivingCarrier(p: Poller, u: Uuid) {
    forall w :: 0 <= w < |p.workers| && p.workers[w].alive ==> !Carries(p.workers[w], u)
  }

  /** Never queued, or tagged with a worker that is no longer listed. */
  predicate Adrift(p: Poller, u: Uuid) {
    && u in p.actions
    && (p.actions[u].queued ==>
          && p.actions[u].worker.Some? && p.actions[u].worker.value < |p.workers|
          && !p.workers[p.actions[u].worker.value].listed)
  }

  /** Known, but adrift, carried by no living worker, and without a result on its way. */
  predicate Stuck(p: Poller, u: Uuid) {
    Adrift(p, u) && u !in p.returned && NoLivingCarrier(p, u)
  }

  lemma AssignOtherStuck(p: Poller, x: Uuid, u: Uuid)
    requires x in p.actions && x != u && Stuck(p, u)
    ensures Stuck(AssignToQueue(p, x), u)
  {
    AssignOnlyAppends(p, x);
  }

  lemma {:induction false} AddActionsStuck(p: Poller, list: seq<(Uuid, Module)>, u: Uuid)
    requires Stuck(p, u)
    ensures Stuck(AddActions(p, list), u) && AddActions(p, list).homerun == p.homerun
    decreases |list|
  {
    if list != [] {
      var x, mod := list[0].0, list[0].1;
      if x !in p.actions {
        var p1 := p.(actions := p.actions[x := Action(mod, false, None)]);
        assert Stuck(p1, u);
        AssignOtherStuck(p1, x, u);
        AssignOnlyAppends(p1, x);
      }
      AddActionsStuck(AddAction(p, x, mod), list[1..], u);
    }
  }

  lemma {:induction false} ReassignStuck(p: Poller, order: seq<Uuid>, d: WorkerId, u: Uuid)
    requires Stuck(p, u) && !TaggedWith(p, u, d)
    ensures Stuck(Reassign(p, order, d), u) && Reassign(p, order, d).actions[u] == p.actions[u]
    decreases |order|
  {
    if order != [] {
      if TaggedWith(p, order[0], d) {
        AssignOtherStuck(p, order[0], u);
        AssignOnlyAppends(p, order[0]);
        ReassignStuck(AssignToQueue(p, order[0]), order[1..], d, u);
      } else {
        ReassignStuck(p, order[1..], d, u);
      }
    }
  }

  lemma {:induction false} BuryAllStuck(p: Poller, dead: seq<WorkerId>, order: seq<Uuid>, u: Uuid)
    requires Stuck(p, u) && forall d :: d in dead ==> !TaggedWith(p, u, d)
    ensures Stuck(BuryAll(p, dead, order), u)
    decreases |dead|
  {
    if dead != [] {
      var d := dead[0];
      if d < |p.workers| {
        assert d in dead && Stuck(Unlist(p, d), u);
        ReassignStuck(Unlist(p, d), order, d, u);
        assert Bury(p, d, order).actions[u] == p.actions[u];
        forall e | e in dead[1..] ensures !TaggedWith(Bury(p, d, order), u, e) {
          assert !TaggedWith(p, u, e);
        }
        BuryAllStuck(Bury(p, d, order), dead[1..], order, u);
      } else {
        BuryAllStuck(p, dead[1..], order, u);
      }
    }
  }

  /** Nothing the satellite ever does brings a stuck action back: receiving it
      again is skipped, because it is already known. */
  lemma StepStuck(p: Poller, step: Step, u: Uuid)
    requires Stuck(p, u) && Possible(p, step)
    ensures Stuck(Next(p, step), u) && (u in Next(p, step).homerun ==> u in p.homerun)
  {
    match step
    case Receive(list) => AddActionsStuck(p, list, u);
    case GetStep(w) => GetCarries(p.workers[w], u);
    case FinishStep(w, i) => FinishCarries(p.workers[w], i, u);
    case ReturnStep => assert p.returned[0] in p.returned;
    case PassStep(order) =>
      forall d | d in DeadList(p.workers) ensures !TaggedWith(p, u, d) {
        DeadListMembers(p.workers, d);
      }
      BuryAllStuck(p, DeadList(p.workers), order, u);
      BuryAllFlags(p, DeadList(p.workers), order);
    case _ =>
  }

  lemma {:induction false} StuckForever(p: Poller, steps: seq<Step>, u: Uuid)
    requires Stuck(p, u) && PossibleRun(p, steps)
    ensures Stuck(Run(p, steps), u) && (u in Run(p, steps).homerun ==> u in p.homerun)
    decreases |steps|
  {
    if steps != [] {
      StepStuck(p, steps[0], u);
      StuckForever(Next(p, steps[0]), steps[1..], u);
    }
  }

  lemma AssignNoLivingCarrier(p: Poller, x: Uuid, u: Uuid)
    requires x in p.actions && u in p.actions && NoLivingCarrier(p, u) && !Survivor(p, p.actions[u].mod)
    ensures NoLivingCarrier(AssignToQueue(p, x), u) && !Survivor(AssignToQueue(p, x), p.actions[u].mod)
  {
    AssignOnlyAppends(p, x);
    var p' := AssignToQueue(p, x);
    var picked := Pick(p.workers, p.rr, p.actions[x].mod).0;
    if picked.Some? {
      assert picked.value in Queues(p.workers, p.actions[x].mod);
      QueuesMembers(p.workers, p.actions[x].mod, picked.value);
    }
    if Survivor(p', p.actions[u].mod) {
      var w: WorkerId :| Serves(p'.workers, w, p.actions[u].mod) && p'.workers[w].alive;
      assert Serves(p.workers, w, p.actions[u].mod);
    }
  }

  lemma {:induction false} ReassignNoLivingCarrier(p: Poller, order: seq<Uuid>, d: WorkerId, u: Uuid)
    requires u in p.actions && NoLivingCarrier(p, u) && !Survivor(p, p.actions[u].mod)
    ensures var p' := Reassign(p, order, d);
            u in p'.actions && p'.actions[u].mod == p.actions[u].mod
            && NoLivingCarrier(p', u) && !Survivor(p', p.actions[u].mod)
    decreases |order|
  {
    if order != [] {
      if TaggedWith(p, order[0], d) {
        AssignNoLivingCarrier(p, order[0], u);
        AssignOnlyAppends(p, order[0]);
        ReassignNoLivingCarrier(AssignToQueue(p, order[0]), order[1..], d, u);
      } else {
        ReassignNoLivingCarrier(p, order[1..], d, u);
      }
    }
  }

  lemma {:induction false} BuryAllNoLivingCarrier(p: Poller, dead: seq<WorkerId>, order: seq<Uuid>, u: Uuid)
    requires u in p.actions && NoLivingCarrier(p, u) && !Survivor(p, p.actions[u].mod)
    ensures NoLivingCarrier(BuryAll(p, dead, order), u)
    decreases |dead|
  {
    if dead != [] {
      if dead[0] < |p.workers| {
        var p1 := Unlist(p, dead[0]);
        forall w: WorkerId ensures Serves(p1.workers, w, p.actions[u].mod) ==> Serves(p.workers, w, p.actions[u].mod) {}
        ReassignNoLivingCarrier(p1, order, dead[0], u);
        BuryAllNoLivingCarrier(Bury(p, dead[0], order), dead[1..], order, u);
      } else {
        BuryAllNoLivingCarrier(p, dead[1..], order, u);
      }
    }
  }

  /** Without a survivor, a pass makes the unanswered actions of the module stuck. */
  lemma NoSurvivorMakesStuck(p: Poller, order: seq<Uuid>, u: Uuid)
    requires Held(p, u) && u !in p.returned && NoLivingCarrier(p, u) && !Survivor(p, p.actions[u].mod)
    ensures Stuck(ZombiePass(p, order), u)
  {
    var p' := ZombiePass(p, order);
    BuryAllFlags(p, DeadList(p.workers), order);
    BuryAllTagged(p, DeadList(p.workers), order, u);
    BuryAllNoLivingCarrier(p, DeadList(p.workers), order, u);
    var w := TagOf(p', u);
    PassLeavesLiving(p, order, w);
    assert p.workers[w].listed && p.workers[w].alive ==> Serves(p.workers, w, p.actions[u].mod);
  }

  /** A pass makes an unanswered action that no living worker carries stuck exactly
      when no worker of its module survives. */
  lemma PassMakesStuckIff(p: Poller, order: seq<Uuid>, u: Uuid)
    requires Held(p, u) && u in order && u !in p.returned && NoLivingCarrier(p, u)
    ensures Stuck(ZombiePass(p, order), u) <==> !Survivor(p, p.actions[u].mod)
  {
    if Survivor(p, p.actions[u].mod) { RecoveryKeeps(p, order, u); } else { NoSurvivorMakesStuck(p, order, u); }
  }

  /** A new action is stuck from its arrival exactly when no worker is listed for its module. */
  lemma ArrivalMakesStuckIff(p: Poller, u: Uuid, mod: Module)
    requires u !in p.actions && u !in p.returned && NoLivingCarrier(p, u)
    ensures Stuck(AddAction(p, u, mod), u) <==> !SomeServes(p.workers, mod)
  {
    var p1 := p.(actions := p.actions[u := Action(mod, false, None)]);
    assert p1.workers == p.workers;
    if SomeServes(p.workers, mod) {
      var w: WorkerId :| Serves(p.workers, w, mod);
      AssignSelf(p1, u, w);
    } else {
      NoQueueNoChange(p1, u);
    }
  }

  /** A poller without workers that receives an action of module 0 has it stuck. */
  lemma NoWorkerStuck()
    ensures Stuck(AddActions(Poller(map[], [], 0, [], {}), [(1, 0)]), 1)
  {
    var p := Poller(map[], [], 0, [], {});
    assert [(1, 0)][1..] == [];
    assert AddActions(p, [(1, 0)]) == AddAction(p, 1, 0);
    assert !SomeServes(p.workers, 0);
    ArrivalMakesStuckIff(p, 1, 0);
  }

  // ---------------------------------------------------------------- load balance

  /** The indices picked by k assignments in a row over n queues. */
  function Picks(rr: nat, n: nat, k: nat): (r: seq<nat>)
    requires n > 0
    ensures |r| == k
    decreases k
  {
    if k == 0 then [] else [NextIndex(rr, n)] + Picks(NextIndex(rr, n), n, k - 1)
  }

  function CountOf(picks: seq<nat>, j: nat): nat {
    if picks == [] then 0 else (if picks[0] == j then 1 else 0) + CountOf(picks[1..], j)
  }

  lemma NextIndexValue(rr: nat, n: nat)
    requires rr < n
    ensures NextIndex(rr, n) == if rr + 1 < n then rr + 1 else 0
  {
    if rr + 1 < n {
    } else {
      assert n % n == 0;
    }
  }

  /** Of two indices, the one that comes sooner after rr is picked as often as the
      other one or once more. */
  predicate Sooner(rr: nat, n: nat, i: nat, j: nat) {
    if i > rr then (j > rr ==> i < j) else (j <= rr && i < j)
  }

  lemma {:induction false} SoonerPickedMore(rr: nat, n: nat, k: nat, i: nat, j: nat)
    requires rr < n && i < n && j < n && i != j && Sooner(rr, n, i, j)
    ensures CountOf(Picks(rr, n, k), j) <= CountOf(Picks(rr, n, k), i) <= CountOf(Picks(rr, n, k), j) + 1
    decreases k
  {
    if k > 0 {
      NextIndexValue(rr, n);
      var next := NextIndex(rr, n);
      var picks := Picks(rr, n, k);
      assert picks[1..] == Picks(next, n, k - 1);
      if next == i {
        // i has just been picked: from now on j comes sooner
        SoonerPickedMore(next, n, k - 1, j, i);
      } else {
        SoonerPickedMore(next, n, k - 1, i, j);
      }
    }
  }

  lemma SoonerTotal(rr: nat, n: nat, i: nat, j: nat)
    requires i != j
    ensures Sooner(rr, n, i, j) || Sooner(rr, n, j, i)
  {
  }

  /** Over a fixed set of queues of one module, the loads differ by at most one. */
  lemma LoadBalanced(rr: nat, n: nat, k: nat, i: nat, j: nat)
    requires n > 0 && i < n && j < n
    ensures CountOf(Picks(rr, n, k), i) <= CountOf(Picks(rr, n, k), j) + 1
  {
    if k > 0 && i != j {
      var next := NextIndex(rr, n);
      // the same picks start just before next
      var rr' := if next == 0 then n - 1 else next - 1;
      NextIndexValue(rr', n);
      assert Picks(rr, n, k) == Picks(rr', n, k);
      SoonerTotal(rr', n, i, j);
      if Sooner(rr', n, i, j) {
        SoonerPickedMore(rr', n, k, i, j);
      } else {
        SoonerPickedMore(rr', n, k, j, i);
      }
    }
  }

  lemma {:induction false} QueuesDistinct(ws: seq<Worker>, mod: Module, i: nat, j: nat)
    requires i < j < |Queues(ws, mod)|
    ensures Queues(ws, mod)[i] < Queues(ws, mod)[j]
  {
    var front := ws[..|ws| - 1];
    if j < |Queues(front, mod)| { QueuesDistinct(front, mod, i, j); }
  }

  lemma {:induction false} SameQueues(ws: seq<Worker>, ws': seq<Worker>, mod: Module)
    requires OnlyAppended(ws, ws')
    ensures Queues(ws', mod) == Queues(ws, mod)
  {
    if ws != [] {
      SameQueues(ws[..|ws| - 1], ws'[..|ws| - 1], mod);
    }
  }

  /** Unknown actions, each named once. */
  predicate AllNew(p: Poller, list: seq<(Uuid, Module)>) {
    && (forall i :: 0 <= i < |list| ==> list[i].0 !in p.actions)
    && (forall i, j :: 0 <= i < j < |list| ==> list[i].0 != list[j].0)
  }

  /** No worker is listed for a module of the list other than mod. */
  predicate OnlyServed(ws: seq<Worker>, list: seq<(Uuid, Module)>, mod: Module) {
    forall i :: 0 <= i < |list| ==> list[i].1 == mod || Queues(ws, list[i].1) == []
  }

  function OfModule(list: seq<(Uuid, Module)>, mod: Module): nat {
    if list == [] then 0 else (if list[0].1 == mod then 1 else 0) + OfModule(list[1..], mod)
  }

  /** How many messages a worker was sent between two states. */
  function Sent(p: Poller, p': Poller, w: WorkerId): int
    requires w < |p.workers| && w < |p'.workers|
  {
    |p'.workers[w].queue| - |p.workers[w].queue|
  }

  /** One new action goes to the queue picked, and to no other. */
  lemma NewActionFollowsPick(p: Poller, u: Uuid, mod: Module, i: nat)
    requires u !in p.actions && i < |Queues(p.workers, mod)|
    ensures var qs := Queues(p.workers, mod); var p' := AddAction(p, u, mod);
            && Queues(p'.workers, mod) == qs && |p'.workers| == |p.workers|
            && p'.rr == NextIndex(p.rr, |qs|) && p'.actions.Keys == p.actions.Keys + {u}
            && Sent(p, p', qs[i]) == if i == p'.rr then 1 else 0
  {
    var next := NextIndex(p.rr, |Queues(p.workers, mod)|);
    AssignOnlyAppends(p.(actions := p.actions[u := Action(mod, false, None)]), u);
    SameQueues(p.workers, AddAction(p, u, mod).workers, mod);
    if i < next { QueuesDistinct(p.workers, mod, i, next); }
    if next < i { QueuesDistinct(p.workers, mod, next, i); }
  }

  /** An action of another module leaves the queues of mod as they are; the index
      moves if a worker is listed for that module. */
  lemma OtherActionLeavesQueues(p: Poller, u: Uuid, other: Module, mod: Module)
    requires u !in p.actions && other != mod
    ensures var p' := AddAction(p, u, other); var qs := Queues(p.workers, other);
            && |p'.workers| == |p.workers| && p'.actions.Keys == p.actions.Keys + {u}
            && (forall m :: Queues(p'.workers, m) == Queues(p.workers, m))
            && p'.rr == (if qs == [] then p.rr else NextIndex(p.rr, |qs|))
            && forall w: WorkerId :: Serves(p.workers, w, mod) ==> Sent(p, p', w) == 0
  {
    var p' := AddAction(p, u, other);
    AssignOnlyAppends(p.(actions := p.actions[u := Action(other, false, None)]), u);
    forall m ensures Queues(p'.workers, m) == Queues(p.workers, m) {
      SameQueues(p.workers, p'.workers, m);
    }
    var picked := Pick(p.workers, p.rr, other).0;
    if picked.Some? { QueuesMembers(p.workers, other, picked.value); }
  }

  lemma AllNewTail(p: Poller, list: seq<(Uuid, Module)>, p1: Poller)
    requires list != [] && AllNew(p, list) && p1.actions.Keys == p.actions.Keys + {list[0].0}
    ensures AllNew(p1, list[1..])
  {
    forall i | 0 <= i < |list[1..]| ensures list[1..][i].0 !in p1.actions {
      assert list[1..][i] == list[i + 1];
      assert list[i + 1].0 !in p.actions.Keys + {list[0].0};
    }
  }

  lemma OnlyServedTail(ws: seq<Worker>, list: seq<(Uuid, Module)>, mod: Module, ws': seq<Worker>)
    requires list != [] && OnlyServed(ws, list, mod) && forall m :: Queues(ws', m) == Queues(ws, m)
    ensures OnlyServed(ws', list[1..], mod)
  {
    forall i | 0 <= i < |list[1..]| ensures list[1..][i].1 == mod || Queues(ws', list[1..][i].1) == [] {
      assert list[1..][i] == list[i + 1];
    }
  }

  /** The first action of a batch: the i-th queue of mod gets it if it is of mod and
      the next index is i. */
  lemma FirstFollowsPick(p: Poller, list: seq<(Uuid, Module)>, mod: Module, i: nat)
    requires list != [] && AllNew(p, list) && OnlyServed(p.workers, list, mod) && i < |Queues(p.workers, mod)|
    ensures var p1 := AddAction(p, list[0].0, list[0].1); var qs := Queues(p.workers, mod);
            && AllNew(p1, list[1..]) && OnlyServed(p1.workers, list[1..], mod)
            && Queues(p1.workers, mod) == qs && |p1.workers| == |p.workers|
            && p1.rr == (if list[0].1 == mod then NextIndex(p.rr, |qs|) else p.rr)
            && Sent(p, p1, qs[i]) == if list[0].1 == mod && i == p1.rr then 1 else 0
  {
    var (u, m) := list[0];
    var p1 := AddAction(p, u, m);
    if m == mod {
      NewActionFollowsPick(p, u, mod, i);
    } else {
      OtherActionLeavesQueues(p, u, m, mod);
      QueuesMembers(p.workers, mod, Queues(p.workers, mod)[i]);
    }
    AssignOnlyAppends(p.(actions := p.actions[u := Action(m, false, None)]), u);
    forall k ensures Queues(p1.workers, k) == Queues(p.workers, k) {
      SameQueues(p.workers, p1.workers, k);
    }
    AllNewTail(p, list, p1);
    OnlyServedTail(p.workers, list, mod, p1.workers);
  }

  lemma PicksCount(rr: nat, n: nat, k: nat, i: nat)
    requires n > 0 && k > 0
    ensures var next := NextIndex(rr, n);
            CountOf(Picks(rr, n, k), i) == (if next == i then 1 else 0) + CountOf(Picks(next, n, k - 1), i)
  {
    assert Picks(rr, n, k)[1..] == Picks(NextIndex(rr, n), n, k - 1);
  }

  /** A batch sends to the i-th queue as many messages as there are picks of i. */
  lemma {:induction false} BatchFollowsPicks(p: Poller, list: seq<(Uuid, Module)>, mod: Module, i: nat)
    requires AllNew(p, list) && OnlyServed(p.workers, list, mod) && i < |Queues(p.workers, mod)|
    ensures var qs := Queues(p.workers, mod); var p' := AddActions(p, list);
            && |p'.workers| == |p.workers|
            && Sent(p, p', qs[i]) == CountOf(Picks(p.rr, |qs|, OfModule(list, mod)), i)
    decreases |list|
  {
    if list != [] {
      hide AddAction, AddActions, Queues, AllNew, OnlyServed, Picks, CountOf, NextIndex;
      var qs := Queues(p.workers, mod);
      var p1 := AddAction(p, list[0].0, list[0].1);
      FirstFollowsPick(p, list, mod, i);
      FirstAdded(p, list);
      BatchFollowsPicks(p1, list[1..], mod, i);
      if list[0].1 == mod { PicksCount(p.rr, |qs|, OfModule(list, mod), i); }
    }
  }

  lemma FirstAdded(p: Poller, list: seq<(Uuid, Module)>)
    requires list != []
    ensures AddActions(p, list) == AddActions(AddAction(p, list[0].0, list[0].1), list[1..])
  {
  }

  /** A batch in which only mod has workers leaves no worker of mod more than one
      message ahead of another. */
  lemma BatchBalanced(p: Poller, list: seq<(Uuid, Module)>, mod: Module, v: WorkerId, w: WorkerId)
    requires AllNew(p, list) && OnlyServed(p.workers, list, mod)
    requires Serves(p.workers, v, mod) && Serves(p.workers, w, mod)
    ensures var p' := AddActions(p, list);
            |p'.workers| == |p.workers| && Sent(p, p', v) <= Sent(p, p', w) + 1
  {
    var qs := Queues(p.workers, mod);
    QueuesMembers(p.workers, mod, v);
    QueuesMembers(p.workers, mod, w);
    var i :| 0 <= i < |qs| && qs[i] == v;
    var j :| 0 <= j < |qs| && qs[j] == w;
    BatchFollowsPicks(p, list, mod, i);
    BatchFollowsPicks(p, list, mod, j);
    LoadBalanced(p.rr, |qs|, OfModule(list, mod), i, j);
  }

  // ---------------------------------------------------------------- the shared index

  ghost predicate WithinOne(p: Poller, p': Poller, mod: Module) {
    && |p'.workers| == |p.workers|
    && forall v: WorkerId, w: WorkerId :: Serves(p.workers, v, mod) && Serves(p.workers, w, mod) ==>
         Sent(p, p', v) <= Sent(p, p', w) + 1
  }

  /** Every batch of new actions, of whatever modules, is spread evenly over mod. */
  ghost predicate AlwaysBalances(p: Poller, mod: Module) {
    forall list :: AllNew(p, list) ==> WithinOne(p, AddActions(p, list), mod)
  }

  predicate OnlyModule(ws: seq<Worker>, mod: Module) {
    forall w :: 0 <= w < |ws| && ws[w].listed ==> ws[w].mod == mod
  }

  lemma {:induction false} AddActionsConcat(p: Poller, a: seq<(Uuid, Module)>, b: seq<(Uuid, Module)>)
    ensures AddActions(p, a + b) == AddActions(AddActions(p, a), b)
    decreases |a|
  {
    if a == [] {
      assert a + b == b;
    } else {
      assert (a + b)[1..] == a[1..] + b;
      AddActionsConcat(AddAction(p, a[0].0, a[0].1), a[1..], b);
    }
  }

  lemma {:induction false} AddActionsSameCount(p: Poller, list: seq<(Uuid, Module)>)
    ensures |AddActions(p, list).workers| == |p.workers|
    decreases |list|
  {
    if list != [] { AddActionsSameCount(AddAction(p, list[0].0, list[0].1), list[1..]); }
  }

  lemma {:induction false} UnknownUuid(known: set<Uuid>) returns (u: Uuid)
    ensures forall x :: x in known ==> x < u
  {
    if known == {} {
      u := 0;
    } else {
      var x :| x in known;
      var v := UnknownUuid(known - {x});
      u := if x < v then v else x + 1;
      assert known == known - {x} + {x};
    }
  }

  /** A batch from p to p' that only moved the index, as far as mod is concerned. */
  ghost predicate Moved(p: Poller, list: seq<(Uuid, Module)>, p': Poller, mod: Module) {
    && AllNew(p, list) && p' == AddActions(p, list) && NothingSent(p, p', mod)
    && (forall u :: u in p'.actions <==> u in p.actions || Named(list, u))
    && (forall m :: Queues(p'.workers, m) == Queues(p.workers, m))
  }

  ghost predicate NothingSent(p: Poller, p': Poller, mod: Module) {
    |p'.workers| == |p.workers| && forall w: WorkerId :: Serves(p.workers, w, mod) ==> Sent(p, p', w) == 0
  }

  predicate Named(list: seq<(Uuid, Module)>, u: Uuid) { exists i :: 0 <= i < |list| && list[i].0 == u }

  lemma SameServes(ws: seq<Worker>, ws': seq<Worker>, mod: Module, w: WorkerId)
    requires Queues(ws', mod) == Queues(ws, mod)
    ensures Serves(ws', w, mod) <==> Serves(ws, w, mod)
  {
    QueuesMembers(ws, mod, w);
    QueuesMembers(ws', mod, w);
  }

  lemma NamedCons(u: Uuid, m: Module, rest: seq<(Uuid, Module)>, x: Uuid)
    ensures Named([(u, m)] + rest, x) <==> x == u || Named(rest, x)
  {
    var list := [(u, m)] + rest;
    assert list[0].0 == u;
    if i :| 0 <= i < |rest| && rest[i].0 == x { assert list[i + 1].0 == x; }
  }

  lemma MovedCons(p: Poller, u: Uuid, other: Module, rest: seq<(Uuid, Module)>, p': Poller, mod: Module)
    requires u !in p.actions && other != mod && Moved(AddAction(p, u, other), rest, p', mod)
    ensures Moved(p, [(u, other)] + rest, p', mod)
  {
    hide AddAction, AddActions, Queues, AllNew, Named, NothingSent;
    var p1, list := AddAction(p, u, other), [(u, other)] + rest;
    OneMoved(p, u, other, mod);
    AddActionsCons(p, u, other, rest);
    forall x ensures Named(list, x) <==> x == u || Named(rest, x) {
      NamedCons(u, other, rest, x);
    }
    AllNewConcat(p, [(u, other)], p1, rest);
    NothingSentTwice(p, p1, p', mod);
  }

  lemma OneMoved(p: Poller, u: Uuid, other: Module, mod: Module)
    requires u !in p.actions && other != mod
    ensures var p1 := AddAction(p, u, other);
            && AllNew(p, [(u, other)]) && NothingSent(p, p1, mod) && p1.actions.Keys == p.actions.Keys + {u}
            && (forall x :: x in p.actions || Named([(u, other)], x) ==> x in p1.actions)
            && forall m :: Queues(p1.workers, m) == Queues(p.workers, m)
  {
    OtherActionLeavesQueues(p, u, other, mod);
    hide AddAction, Queues;
  }

  /** Two stretches without a message for mod make one. */
  lemma NothingSentTwice(p: Poller, p1: Poller, p': Poller, mod: Module)
    requires NothingSent(p, p1, mod) && NothingSent(p1, p', mod)
    requires Queues(p1.workers, mod) == Queues(p.workers, mod)
    ensures NothingSent(p, p', mod)
  {
    forall w: WorkerId | Serves(p.workers, w, mod) ensures Sent(p, p', w) == 0 {
      SameServes(p.workers, p1.workers, mod, w);
      assert Sent(p, p1, w) == 0 && Sent(p1, p', w) == 0;
    }
  }

  lemma AddActionsCons(p: Poller, u: Uuid, m: Module, rest: seq<(Uuid, Module)>)
    ensures AddActions(p, [(u, m)] + rest) == AddActions(AddAction(p, u, m), rest)
  {
    assert ([(u, m)] + rest)[1..] == rest;
  }

  /** Enough actions of another module bring the index to 0. */
  lemma {:induction false} DriveToZero(p: Poller, other: Module, mod: Module)
    returns (list: seq<(Uuid, Module)>, p': Poller)
    requires other != mod && Queues(p.workers, other) != []
    ensures Moved(p, list, p', mod) && p'.rr == 0
    decreases var n := |Queues(p.workers, other)|; if p.rr == 0 then 0 else if p.rr < n then n - p.rr else n + 1
  {
    if p.rr == 0 {
      list, p' := [], p;
    } else {
      var u := UnknownUuid(p.actions.Keys);
      var p1 := AddAction(p, u, other);
      OtherActionLeavesQueues(p, u, other, mod);
      var n := |Queues(p.workers, other)|;
      if p.rr < n { NextIndexValue(p.rr, n); }
      var rest;
      rest, p' := DriveToZero(p1, other, mod);
      list := [(u, other)] + rest;
      MovedCons(p, u, other, rest, p', mod);
    }
  }

  /** With the index at 0, an action of mod goes to the second queue. */
  lemma SecondQueueNext(p: Poller, mod: Module) returns (u: Uuid, p': Poller)
    requires p.rr == 0 && |Queues(p.workers, mod)| >= 2
    ensures u !in p.actions && p' == AddAction(p, u, mod) && |p'.workers| == |p.workers|
    ensures p'.actions.Keys == p.actions.Keys + {u} && (forall m :: Queues(p'.workers, m) == Queues(p.workers, m))
    ensures var qs := Queues(p.workers, mod); Sent(p, p', qs[0]) == 0 && Sent(p, p', qs[1]) == 1
  {
    u := UnknownUuid(p.actions.Keys);
    p' := AddAction(p, u, mod);
    NewActionFollowsPick(p, u, mod, 0);
    NewActionFollowsPick(p, u, mod, 1);
    NextIndexValue(0, |Queues(p.workers, mod)|);
    AssignOnlyAppends(p.(actions := p.actions[u := Action(mod, false, None)]), u);
    forall m ensures Queues(p'.workers, m) == Queues(p.workers, m) {
      SameQueues(p.workers, p'.workers, m);
    }
  }

  lemma AllNewConcat(p: Poller, a: seq<(Uuid, Module)>, p1: Poller, b: seq<(Uuid, Module)>)
    requires AllNew(p, a) && AllNew(p1, b)
    requires forall u :: u in p.actions || Named(a, u) ==> u in p1.actions
    ensures AllNew(p, a + b)
  {
    var c := a + b;
    forall i, j | 0 <= i < j < |c| ensures c[i].0 != c[j].0 {
      if i < |a| <= j {
        assert Named(a, a[i].0);
        assert c[j] == b[j - |a|];
      }
    }
  }

  /** The index is driven to 0, then one action of mod comes: the second queue gets
      it, and the first one nothing. */
  lemma SkipsFirstQueue(p: Poller, other: Module, mod: Module) returns (list: seq<(Uuid, Module)>, p': Poller)
    requires other != mod && Queues(p.workers, other) != [] && |Queues(p.workers, mod)| >= 2
    ensures AllNew(p, list) && p' == AddActions(p, list) && |p'.workers| == |p.workers|
    ensures forall u :: u in p.actions || Named(list, u) ==> u in p'.actions
    ensures forall m :: Queues(p'.workers, m) == Queues(p.workers, m)
    ensures var qs := Queues(p.workers, mod); Sent(p, p', qs[0]) == 0 && Sent(p, p', qs[1]) == 1
  {
    hide AddAction, AddActions, Queues, AllNew, Named, Serves;
    var qs := Queues(p.workers, mod);
    QueuesMembers(p.workers, mod, qs[0]);
    QueuesMembers(p.workers, mod, qs[1]);
    var a, p1 := DriveToZero(p, other, mod);
    var u, p2 := SecondQueueNext(p1, mod);
    list, p' := a + [(u, mod)], p2;
    AddedLast(p, a, p1, u, mod);
    assert Sent(p, p1, qs[0]) == 0 && Sent(p, p1, qs[1]) == 0;
  }

  /** One more new action at the end of a batch. */
  lemma AddedLast(p: Poller, a: seq<(Uuid, Module)>, p1: Poller, u: Uuid, mod: Module)
    requires AllNew(p, a) && p1 == AddActions(p, a) && u !in p1.actions
    requires forall x :: x in p1.actions <==> x in p.actions || Named(a, x)
    ensures AllNew(p, a + [(u, mod)]) && AddActions(p, a + [(u, mod)]) == AddAction(p1, u, mod)
    ensures forall x :: x in p.actions || Named(a + [(u, mod)], x) ==> x in p1.actions || x == u
  {
    var b := [(u, mod)];
    AddActionsConcat(p, a, b);
    AddActionsCons(p1, u, mod, []);
    assert b + [] == b;
    hide AddAction, AddActions;
    AllNewConcat(p, a, p1, b);
    forall x | Named(a + b, x) ensures x in p1.actions || x == u {
      var i :| 0 <= i < |a + b| && (a + b)[i].0 == x;
      if i < |a| { assert Named(a, x); }
    }
  }

  lemma SharedIndexUnbalances(p: Poller, other: Module, mod: Module)
    requires other != mod && Queues(p.workers, other) != [] && |Queues(p.workers, mod)| >= 2
    ensures !AlwaysBalances(p, mod)
  {
    var a, p1 := SkipsFirstQueue(p, other, mod);
    var b, p2 := SkipsFirstQueue(p1, other, mod);
    AddActionsConcat(p, a, b);
    AllNewConcat(p, a, p1, b);
    var qs := Queues(p.workers, mod);
    QueuesMembers(p.workers, mod, qs[0]);
    QueuesMembers(p.workers, mod, qs[1]);
    assert Sent(p, p2, qs[1]) == 2 && Sent(p, p2, qs[0]) == 0;
    assert !WithinOne(p, AddActions(p, a + b), mod);
  }

  /** Every batch is spread evenly over the workers of mod exactly when there are
      not two of them, or no worker is listed for any other module. */
  lemma AlwaysBalancesIff(p: Poller, mod: Module)
    ensures AlwaysBalances(p, mod) <==> |Queues(p.workers, mod)| <= 1 || OnlyModule(p.workers, mod)
  {
    if |Queues(p.workers, mod)| <= 1 || OnlyModule(p.workers, mod) {
      forall list | AllNew(p, list) ensures WithinOne(p, AddActions(p, list), mod) {
        EvenlySpread(p, list, mod);
      }
    } else {
      var w :| 0 <= w < |p.workers| && p.workers[w].listed && p.workers[w].mod != mod;
      var other := p.workers[w].mod;
      QueuesMembers(p.workers, other, w);
      SharedIndexUnbalances(p, other, mod);
    }
  }

  lemma EvenlySpread(p: Poller, list: seq<(Uuid, Module)>, mod: Module)
    requires AllNew(p, list) && (|Queues(p.workers, mod)| <= 1 || OnlyModule(p.workers, mod))
    ensures WithinOne(p, AddActions(p, list), mod)
  {
    hide AddActions, Queues, AllNew, OnlyServed, OnlyModule;
    AddActionsSameCount(p, list);
    var p' := AddActions(p, list);
    forall v: WorkerId, w: WorkerId | Serves(p.workers, v, mod) && Serves(p.workers, w, mod)
      ensures Sent(p, p', v) <= Sent(p, p', w) + 1
    {
      if |Queues(p.workers, mod)| <= 1 {
        OneQueueOneWorker(p.workers, mod, v, w);
      } else {
        OnlyModuleServed(p.workers, list, mod);
        BatchBalanced(p, list, mod, v, w);
      }
    }
  }

  lemma OneQueueOneWorker(ws: seq<Worker>, mod: Module, v: WorkerId, w: WorkerId)
    requires |Queues(ws, mod)| <= 1 && Serves(ws, v, mod) && Serves(ws, w, mod)
    ensures v == w
  {
    QueuesMembers(ws, mod, v);
    QueuesMembers(ws, mod, w);
  }

  lemma OnlyModuleServed(ws: seq<Worker>, list: seq<(Uuid, Module)>, mod: Module)
    requires OnlyModule(ws, mod)
    ensures OnlyServed(ws, list, mod)
  {
    forall i | 0 <= i < |list| && list[i].1 != mod ensures Queues(ws, list[i].1) == [] {
      if Queues(ws, list[i].1) != [] {
        QueuesMembers(ws, list[i].1, Queues(ws, list[i].1)[0]);
      }
    }
  }

  const FIRST := Worker(0, true, true, [], [])
  const SECOND := Worker(1, true, true, [], [])

  /** Two workers of module 0 and one of module 1: actions that alternate between
      the modules all go to the second worker of module 0. */
  lemma SharedCounterUnbalances()
    ensures var p' := AddActions(Poller(map[], [FIRST, FIRST, SECOND], 0, [], {}), [(10, 0), (20, 1), (11, 0)]);
            |p'.workers| == 3 && p'.workers[0].queue == [] && p'.workers[1].queue == [10, 11]
  {
    var p := Poller(map[], [FIRST, FIRST, SECOND], 0, [], {});
    hide AddAction, AddActions;
    var p1 := AddAction(p, 10, 0);
    var p2 := AddAction(p1, 20, 1);
    var p3 := AddAction(p2, 11, 0);
    AddsToThree(p, 10, 0, 1, 1);
    AddsToThree(p1, 20, 1, 2, 0);
    AddsToThree(p2, 11, 0, 1, 1);
    assert AddActions(p, [(10, 0), (20, 1), (11, 0)]) == p3 by { ThreeAdded(p, (10, 0), (20, 1), (11, 0)); }
    assert p3.workers[0] == FIRST && p3.workers[1] == Append(Append(FIRST, 10), 11);
  }

  lemma ThreeAdded(p: Poller, a: (Uuid, Module), b: (Uuid, Module), c: (Uuid, Module))
    ensures AddActions(p, [a, b, c]) == AddAction(AddAction(AddAction(p, a.0, a.1), b.0, b.1), c.0, c.1)
  {
    var p1 := AddAction(p, a.0, a.1);
    FirstAdded(p, [a, b, c]);
    FirstAdded(p1, [b, c]);
    FirstAdded(AddAction(p1, b.0, b.1), [c]);
    assert [a, b, c][1..] == [b, c] && [b, c][1..] == [c] && [c][1..] == [];
    hide AddAction;
  }

  predicate ThreeWorkers(ws: seq<Worker>) {
    && |ws| == 3 && ws[0].listed && ws[1].listed && ws[2].listed
    && ws[0].mod == 0 && ws[1].mod == 0 && ws[2].mod == 1
  }

  lemma AddsToThree(p: Poller, u: Uuid, m: Module, w: WorkerId, rr: nat)
    requires ThreeWorkers(p.workers) && u !in p.actions
    requires if m == 0 then p.rr == 0 && w == rr == 1 else m == 1 && w == 2 && rr == 0
    ensures var p' := AddAction(p, u, m);
            && ThreeWorkers(p'.workers) && p'.workers == p.workers[w := Append(p.workers[w], u)]
            && p'.rr == rr && p'.actions.Keys == p.actions.Keys + {u}
  {
    ThreeQueues(p.workers);
  }

  lemma ThreeQueues(ws: seq<Worker>)
    requires ThreeWorkers(ws)
    ensures Queues(ws, 0) == [0, 1] && Queues(ws, 1) == [2]
  {
    assert ws[..1][..0] == [] && ws[..2][..1] == ws[..1];
    assert Queues(ws[..1], 0) == [0] && Queues(ws[..1], 1) == [];
    assert Queues(ws[..2], 0) == [0, 1] && Queues(ws[..2], 1) == [];
  }
}

/** The mutable satellite with its loops. */
module SatelliteObject {
  import opened Options
  import opened Satellites

  /** The listed workers found dead. */
  method FindDead(workers: seq<Worker>) returns (dead: seq<WorkerId>)
    ensures dead == DeadList(workers)
  {
    dead := [];
    for w := 0 to |workers|
      invariant dead == DeadList(workers[..w])
    {
      assert workers[..w + 1][..w] == workers[..w];
      if workers[w].listed && !workers[w].alive {
        dead := dead + [w];
      }
    }
    assert workers[..|workers|] == workers;
  }

  /** The first new action of a list whose module has no queues at all, if any, is
      the last one that gets registered. */
  ghost predicate StopsAfter(p: Poller, modules: set<Module>, list: seq<(Uuid, Module)>, done: nat, raised: bool) {
    && done <= |list|
    && (forall i :: 0 <= i < (if raised then done - 1 else done) ==>
          list[i].0 in AddActions(p, list[..i]).actions || list[i].1 in modules)
    && (if raised
        then done > 0 && list[done - 1].0 !in AddActions(p, list[..done - 1]).actions && list[done - 1].1 !in modules
        else done == |list|)
  }

  /** What becomes of each action under the part of a list that was looked at. */
  lemma PrefixKept(p: Poller, list: seq<(Uuid, Module)>)
    ensures forall u :: Kept(p, u) ==> (Kept(AddActions(p, list), u) <==> KeepsStep(p, Receive(list), u))
  {
    forall u | Kept(p, u) ensures Kept(AddActions(p, list), u) <==> KeepsStep(p, Receive(list), u) {
      ReceiveKeptIff(p, list, u);
    }
  }

  lemma NothingAdded(p: Poller)
    ensures AddActions(p, []) == p
  {
  }

  lemma OneMoreAdded(p: Poller, list: seq<(Uuid, Module)>, i: nat)
    requires i < |list|
    ensures AddActions(p, list[..i + 1]) == AddAction(AddActions(p, list[..i]), list[i].0, list[i].1)
  {
    assert list[..i + 1] == list[..i] + [list[i]];
    AddActionsConcat(p, list[..i], [list[i]]);
    FirstAdded(AddActions(p, list[..i]), [list[i]]);
    hide AddAction;
  }

  class Satellite {
    var actions: map<Uuid, Action>
    var workers: seq<Worker>
    var modules: set<Module>   // the keys of q_by_mod
    var rrQid: nat
    var returnsQueue: seq<Uuid>
    var waitHomerun: set<Uuid>

    function View(): Poller
      reads this
    {
      Poller(actions, workers, rrQid, returnsQueue, waitHomerun)
    }

    /** Workers that are listed, and actions that are queued, are of known modules. */
    ghost predicate Valid()
      reads this
    {
      && (forall w :: 0 <= w < |workers| && workers[w].listed ==> workers[w].mod in modules)
      && (forall u :: u in actions && actions[u].queued ==> actions[u].mod in modules)
    }

    constructor ()
      ensures Valid() && View() == Poller(map[], [], 0, [], {}) && forall u :: Kept(View(), u)
    {
      actions, workers, modules, rrQid, returnsQueue, waitHomerun := map[], [], {}, 0, [], {};
    }

    /** A module without an entry in q_by_mod raises; one without queues gives no worker. */
    method GetQueueForTheAction(mod: Module) returns (worker: Option<WorkerId>, raised: bool)
      requires Valid()
      modifies this`rrQid
      ensures Valid() && (raised <==> mod !in modules)
      ensures (worker, rrQid) == Pick(workers, old(rrQid), mod)
      ensures worker.Some? ==> Serves(workers, worker.value, mod)
    {
      var queues := Queues(workers, mod);
      if |queues| > 0 {
        QueuesMembers(workers, mod, queues[0]);
      }
      if mod !in modules {
        return None, true;
      }
      raised := false;
      if |queues| == 0 {
        return None, false;
      }
      rrQid := (rrQid + 1) % |queues|;
      worker := Some(queues[rrQid]);
      QueuesMembers(workers, mod, queues[rrQid]);
    }

    method AssignToAQueue(u: Uuid) returns (raised: bool)
      requires Valid() && u in actions
      modifies this`rrQid, this`actions, this`workers
      ensures Valid() && (raised <==> old(actions)[u].mod !in modules)
      ensures View() == AssignToQueue(old(View()), u)
    {
      var worker;
      worker, raised := GetQueueForTheAction(actions[u].mod);
      if worker.None? {
        return;
      }
      actions := actions[u := actions[u].(worker := worker, queued := true)];
      workers := workers[worker.value := workers[worker.value].(queue := workers[worker.value].queue + [u])];
    }

    /** One turn of the loop below: raising leaves the action registered without a queue. */
    method AddNewAction(u: Uuid, mod: Module) returns (raised: bool)
      requires Valid()
      modifies this`rrQid, this`actions, this`workers
      ensures Valid() && (raised <==> u !in old(actions) && mod !in modules)
      ensures View() == AddAction(old(View()), u, mod)
    {
      if u in actions {
        return false;
      }
      actions := actions[u := Action(mod, false, None)];
      raised := AssignToAQueue(u);
    }

    /** Raising leaves the rest of the list untouched; done counts the actions that
        were looked at. */
    method AddNewActions(list: seq<(Uuid, Module)>) returns (ghost done: nat, raised: bool)
      requires Valid()
      modifies this
      ensures Valid() && modules == old(modules) && StopsAfter(old(View()), modules, list, done, raised)
      ensures View() == AddActions(old(View()), list[..done])
      ensures forall u :: Kept(old(View()), u) ==> (Kept(View(), u) <==> KeepsStep(old(View()), Receive(list[..done]), u))
    {
      hide AddAction, AddActions, Valid, Kept, KeepsStep;
      ghost var p := View();
      done, raised := 0, false;
      NothingAdded(p);
      for i := 0 to |list|
        invariant Valid() && modules == old(modules) && done == i && !raised
        invariant forall j :: 0 <= j < i ==> list[j].0 in AddActions(p, list[..j]).actions || list[j].1 in modules
        invariant View() == AddActions(p, list[..i])
      {
        OneMoreAdded(p, list, i);
        done := i + 1;
        raised := AddNewAction(list[i].0, list[i].1);
        if raised {
          PrefixKept(p, list[..done]);
          return;
        }
      }
      PrefixKept(p, list[..done]);
    }

    /** The action leaves the link, if it is still there, and waits for its home run. */
    method ManageActionReturn()
      requires Valid() && returnsQueue != []
      modifies this
      ensures Valid() && View() == TakeReturn(old(View()))
    {
      var u := returnsQueue[0];
      returnsQueue := returnsQueue[1..];
      actions := actions - {u};
      waitHomerun := waitHomerun + {u};
    }

    method PushResults() returns (results: set<Uuid>)
      requires Valid()
      modifies this
      ensures Valid() && View() == Push(old(View())) && results == old(waitHomerun)
    {
      results := waitHomerun;
      waitHomerun := {};
    }

    /** Everything tagged with a worker whose queue is gone is queued again. What was
        queued once is of a known module, so nothing raises. */
    method RequeueActionsOf(w: WorkerId, order: seq<Uuid>)
      requires Valid()
      modifies this`rrQid, this`actions, this`workers
      ensures Valid() && View() == Reassign(old(View()), order, w)
    {
      for i := 0 to |order|
        invariant Valid() && Reassign(View(), order[i..], w) == Reassign(old(View()), order, w)
        invariant returnsQueue == old(returnsQueue) && waitHomerun == old(waitHomerun)
      {
        var u := order[i];
        assert order[i..][1..] == order[i + 1..];
        if u in actions && actions[u].queued && actions[u].worker == Some(w) {
          var raised := AssignToAQueue(u);
          assert !raised;
        }
      }
    }

    method CheckAndDelZombieWorkers(order: seq<Uuid>)
      requires Valid()
      modifies this
      ensures Valid() && View() == ZombiePass(old(View()), order)
    {
      var dead := FindDead(workers);
      for i := 0 to |dead|
        invariant Valid() && BuryAll(View(), dead[i..], order) == BuryAll(old(View()), dead, order)
      {
        assert dead[i..][1..] == dead[i + 1..];
        var w := dead[i];
        if w < |workers| {
          workers := workers[w := workers[w].(listed := false)];
          RequeueActionsOf(w, order);
        }
      }
    }
  }
}
