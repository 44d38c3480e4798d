/** The whole travel of the checks: a scheduler, any number of pollers with their
    workers, and the buffers between them, in any interleaving without faults. */
module CheckProtocol {
  import S = SchedulerChecks
  import opened Options
  import opened Satellites

  type Batch = seq<(Uuid, Module)>

  /** incoming: the checks a poller was handed and has not queued yet. */
  datatype Link = Link(incoming: Batch, poller: Poller)

  datatype Net = Net(sched: S.State, links: seq<Link>)

  // ---------------------------------------------------------------- copies

  function Names(batch: Batch): (r: seq<Uuid>)
    ensures |r| == |batch|
  {
    if batch == [] then [] else [batch[0].0] + Names(batch[1..])
  }

  function Count(s: seq<Uuid>, u: Uuid): nat { multiset(s)[u] }

  function One(b: bool): nat { if b then 1 else 0 }

  function Sum(parts: seq<nat>): nat {
    if parts == [] then 0 else parts[0] + Sum(parts[1..])
  }

  /** The copies of u in the queue and the list of a worker. */
  function WorkerCopies(w: Worker, u: Uuid): nat { Count(w.queue, u) + Count(w.held, u) }

  function CopiesByWorker(ws: seq<Worker>, u: Uuid): (r: seq<nat>)
    ensures |r| == |ws|
  {
    seq(|ws|, i requires 0 <= i < |ws| => WorkerCopies(ws[i], u))
  }

  function AtWorkers(ws: seq<Worker>, u: Uuid): nat { Sum(CopiesByWorker(ws, u)) }

  function LinkCopies(l: Link, u: Uuid): nat {
    Count(Names(l.incoming), u) + AtWorkers(l.poller.workers, u) + Count(l.poller.returned, u) + One(u in l.poller.homerun)
  }

  function CopiesByLink(links: seq<Link>, u: Uuid): (r: seq<nat>)
    ensures |r| == |links|
  {
    seq(|links|, i requires 0 <= i < |links| => LinkCopies(links[i], u))
  }

  function AtLinks(links: seq<Link>, u: Uuid): nat { Sum(CopiesByLink(links, u)) }

  /** All copies of u, wherever they are. */
  function Copies(net: Net, u: Uuid): nat { AtLinks(net.links, u) + Count(net.sched.waiting, u) }

  predicate InPoller(s: S.State, u: Uuid) { u in s.checks && s.checks[u].InPoller? }

  lemma CountConcat(a: seq<Uuid>, b: seq<Uuid>, u: Uuid)
    ensures Count(a + b, u) == Count(a, u) + Count(b, u)
  {
  }

  lemma CountOne(x: Uuid, u: Uuid)
    ensures Count([x], u) == One(x == u)
  {
  }

  lemma {:induction false} SumUpdate(parts: seq<nat>, i: nat, m: nat)
    requires i < |parts|
    ensures Sum(parts[i := m]) + parts[i] == Sum(parts) + m
  {
    if i > 0 {
      SumUpdate(parts[1..], i - 1, m);
      assert parts[i := m][1..] == parts[1..][i - 1 := m];
    } else {
      assert parts[i := m][1..] == parts[1..];
    }
  }

  lemma {:induction false} SumHolds(parts: seq<nat>, i: nat)
    requires i < |parts|
    ensures parts[i] <= Sum(parts)
  {
    if i > 0 { SumHolds(parts[1..], i - 1); }
  }

  lemma {:induction false} SumAppend(parts: seq<nat>, m: nat)
    ensures Sum(parts + [m]) == Sum(parts) + m
  {
    if parts == [] {
      assert [] + [m] == [m] && [m][1..] == [];
    } else {
      assert (parts + [m])[1..] == parts[1..] + [m];
      SumAppend(parts[1..], m);
    }
  }

  lemma WorkerUpdate(ws: seq<Worker>, i: nat, w: Worker, u: Uuid)
    requires i < |ws|
    ensures AtWorkers(ws[i := w], u) + WorkerCopies(ws[i], u) == AtWorkers(ws, u) + WorkerCopies(w, u)
  {
    hide WorkerCopies;
    SumUpdate(CopiesByWorker(ws, u), i, WorkerCopies(w, u));
    assert CopiesByWorker(ws[i := w], u) == CopiesByWorker(ws, u)[i := WorkerCopies(w, u)];
  }

  lemma LinkUpdate(links: seq<Link>, i: nat, l: Link, u: Uuid)
    requires i < |links|
    ensures AtLinks(links[i := l], u) + LinkCopies(links[i], u) == AtLinks(links, u) + LinkCopies(l, u)
  {
    hide LinkCopies;
    SumUpdate(CopiesByLink(links, u), i, LinkCopies(l, u));
    assert CopiesByLink(links[i := l], u) == CopiesByLink(links, u)[i := LinkCopies(l, u)];
  }

  // ---------------------------------------------------------------- inside a poller

  /** What the link knows is carried by a worker or on its way back; every worker is
      up, and one serves each check that comes in. */
  ghost predicate LinkOk(l: Link) {
    && (forall u :: u in l.poller.actions ==> AtWorkers(l.poller.workers, u) + Count(l.poller.returned, u) >= 1)
    && (forall w :: 0 <= w < |l.poller.workers| ==> l.poller.workers[w].alive && l.poller.workers[w].listed)
    && (forall i :: 0 <= i < |l.incoming| ==> SomeServes(l.poller.workers, l.incoming[i].1))
  }

  /** No check has two copies at the link. */
  ghost predicate Single(l: Link) { forall u :: LinkCopies(l, u) <= 1 }

  ghost predicate SameCopies(l: Link, l': Link) { forall u :: LinkCopies(l', u) == LinkCopies(l, u) }

  lemma AddActionKeeps(p: Poller, x: Uuid, mod: Module)
    requires x !in p.actions
    ensures var p' := AddAction(p, x, mod);
            && p'.actions.Keys == p.actions.Keys + {x} && OnlyAppended(p.workers, p'.workers)
            && p'.returned == p.returned && p'.homerun == p.homerun
  {
    AssignOnlyAppends(p.(actions := p.actions[x := Action(mod, false, None)]), x);
  }

  lemma AddActionCopies(p: Poller, x: Uuid, mod: Module, u: Uuid)
    requires x !in p.actions && SomeServes(p.workers, mod)
    ensures AtWorkers(AddAction(p, x, mod).workers, u) == AtWorkers(p.workers, u) + One(x == u)
  {
    var w: WorkerId :| Serves(p.workers, w, mod);
    QueuesMembers(p.workers, mod, w);
    var picked := Pick(p.workers, p.rr, mod).0.value;
    var a := p.workers[picked];
    CountConcat(a.queue, [x], u);
    CountOne(x, u);
    WorkerUpdate(p.workers, picked, Append(a, x), u);
  }

  lemma StillServes(ws: seq<Worker>, ws': seq<Worker>, mod: Module)
    requires OnlyAppended(ws, ws') && SomeServes(ws, mod)
    ensures SomeServes(ws', mod)
  {
    var w: WorkerId :| Serves(ws, w, mod);
    assert Serves(ws', w, mod);
  }

  ghost predicate NewAndServed(p: Poller, batch: Batch) {
    && (forall i :: 0 <= i < |batch| ==> batch[i].0 !in p.actions && SomeServes(p.workers, batch[i].1))
    && (forall i, j :: 0 <= i < j < |batch| ==> batch[i].0 != batch[j].0)
  }

  lemma OneLessNew(p: Poller, batch: Batch)
    requires NewAndServed(p, batch) && batch != []
    ensures NewAndServed(AddAction(p, batch[0].0, batch[0].1), batch[1..])
  {
    var p1 := AddAction(p, batch[0].0, batch[0].1);
    AddActionKeeps(p, batch[0].0, batch[0].1);
    hide AddAction;
    forall i | 0 <= i < |batch[1..]| ensures SomeServes(p1.workers, batch[1..][i].1) {
      StillServes(p.workers, p1.workers, batch[i + 1].1);
    }
  }

  lemma {:induction false} AddActionsKeeps(p: Poller, batch: Batch)
    requires NewAndServed(p, batch)
    ensures var p' := AddActions(p, batch);
            && (forall u :: u in p'.actions <==> u in p.actions || u in Names(batch))
            && OnlyAppended(p.workers, p'.workers)
            && p'.returned == p.returned && p'.homerun == p.homerun
    decreases |batch|
  {
    if batch != [] {
      var p1 := AddAction(p, batch[0].0, batch[0].1);
      AddActionKeeps(p, batch[0].0, batch[0].1);
      OneLessNew(p, batch);
      hide AddAction, NewAndServed;
      AddActionsKeeps(p1, batch[1..]);
      AppendedTrans(p.workers, p1.workers, AddActions(p, batch).workers);
    }
  }

  /** Queueing a batch of new checks puts exactly one copy of each with the workers. */
  lemma {:induction false} AddActionsCopies(p: Poller, batch: Batch, u: Uuid)
    requires NewAndServed(p, batch)
    ensures AtWorkers(AddActions(p, batch).workers, u) == AtWorkers(p.workers, u) + Count(Names(batch), u)
    decreases |batch|
  {
    if batch != [] {
      AddActionCopies(p, batch[0].0, batch[0].1, u);
      OneLessNew(p, batch);
      hide AddAction, NewAndServed, AtWorkers;
      AddActionsCopies(AddAction(p, batch[0].0, batch[0].1), batch[1..], u);
      CountConcat([batch[0].0], Names(batch[1..]), u);
      CountOne(batch[0].0, u);
    }
  }

  lemma {:induction false} NamesAt(batch: Batch, i: nat)
    requires i < |batch|
    ensures Names(batch)[i] == batch[i].0
  {
    if i > 0 { NamesAt(batch[1..], i - 1); }
  }

  lemma TwiceInSeq(s: seq<Uuid>, i: nat, j: nat)
    requires i < j < |s| && s[i] == s[j]
    ensures Count(s, s[i]) >= 2
  {
    CountConcat(s[..i + 1], s[i + 1..], s[i]);
    assert s == s[..i + 1] + s[i + 1..];
    assert s[..i + 1][i] == s[i] && s[i + 1..][j - i - 1] == s[i];
  }

  lemma IncomingIsNew(l: Link)
    requires LinkOk(l) && Single(l)
    ensures NewAndServed(l.poller, l.incoming)
  {
    hide AtWorkers;
    var names := Names(l.incoming);
    forall i | 0 <= i < |l.incoming| ensures l.incoming[i].0 !in l.poller.actions {
      NamesAt(l.incoming, i);
      assert names[i] in multiset(names);
      assert LinkCopies(l, names[i]) <= 1;
    }
    forall i, j | 0 <= i < j < |l.incoming| ensures l.incoming[i].0 != l.incoming[j].0 {
      NamesAt(l.incoming, i);
      NamesAt(l.incoming, j);
      assert LinkCopies(l, names[i]) <= 1;
      if names[i] == names[j] { TwiceInSeq(names, i, j); }
    }
  }

  function Enqueue(l: Link): Link { Link([], AddActions(l.poller, l.incoming)) }

  lemma AppendedFlags(ws: seq<Worker>, ws': seq<Worker>)
    requires OnlyAppended(ws, ws')
    ensures |ws'| == |ws|
    ensures forall w :: 0 <= w < |ws| ==> ws'[w].alive == ws[w].alive && ws'[w].listed == ws[w].listed
  {
  }

  lemma EnqueueKeeps(l: Link)
    requires LinkOk(l) && Single(l)
    ensures LinkOk(Enqueue(l)) && SameCopies(l, Enqueue(l))
  {
    hide AtWorkers, AddActions, OnlyAppended, NewAndServed, SomeServes, Single;
    IncomingIsNew(l);
    AddActionsKeeps(l.poller, l.incoming);
    forall u
      ensures AtWorkers(Enqueue(l).poller.workers, u) == AtWorkers(l.poller.workers, u) + Count(Names(l.incoming), u)
    {
      AddActionsCopies(l.poller, l.incoming, u);
    }
    AppendedFlags(l.poller.workers, Enqueue(l).poller.workers);
    assert Names([]) == [];
  }

  /** Replacing workers without touching their flags keeps every module served. */
  lemma ServedAfter(l: Link, ws': seq<Worker>)
    requires LinkOk(l) && |ws'| >= |l.poller.workers|
    requires forall w :: 0 <= w < |l.poller.workers| ==>
               ws'[w].listed == l.poller.workers[w].listed && ws'[w].mod == l.poller.workers[w].mod
    ensures forall i :: 0 <= i < |l.incoming| ==> SomeServes(ws', l.incoming[i].1)
  {
    forall i | 0 <= i < |l.incoming| ensures SomeServes(ws', l.incoming[i].1) {
      var w: WorkerId :| Serves(l.poller.workers, w, l.incoming[i].1);
      assert Serves(ws', w, l.incoming[i].1);
    }
  }

  lemma GetKeeps(l: Link, w: WorkerId)
    requires LinkOk(l) && CanGet(l.poller, w)
    ensures var l' := l.(poller := Get(l.poller, w)); LinkOk(l') && SameCopies(l, l')
  {
    var ws, x := l.poller.workers, l.poller.workers[w];
    var x' := x.(queue := x.queue[1..], held := x.held + [x.queue[0]]);
    assert x.queue == [x.queue[0]] + x.queue[1..];
    forall u ensures AtWorkers(ws[w := x'], u) == AtWorkers(ws, u) {
      CountConcat([x.queue[0]], x.queue[1..], u);
      CountConcat(x.held, [x.queue[0]], u);
      WorkerUpdate(ws, w, x', u);
    }
    ServedAfter(l, ws[w := x']);
    hide AtWorkers;
  }

  lemma FinishKeeps(l: Link, w: WorkerId, i: nat)
    requires LinkOk(l) && CanFinish(l.poller, w, i)
    ensures var l' := l.(poller := Finish(l.poller, w, i)); LinkOk(l') && SameCopies(l, l')
  {
    var p, p' := l.poller, Finish(l.poller, w, i);
    forall u ensures AtWorkers(p'.workers, u) + Count(p'.returned, u) == AtWorkers(p.workers, u) + Count(p.returned, u) {
      FinishCopies(p, w, i, u);
    }
    ServedAfter(l, p'.workers);
    hide AtWorkers;
  }

  lemma FinishCopies(p: Poller, w: WorkerId, i: nat, u: Uuid)
    requires CanFinish(p, w, i)
    ensures var p' := Finish(p, w, i);
            AtWorkers(p'.workers, u) + Count(p'.returned, u) == AtWorkers(p.workers, u) + Count(p.returned, u)
  {
    var x := p.workers[w];
    var x' := x.(held := x.held[..i] + x.held[i + 1..]);
    CountConcat(x.held[..i], x.held[i + 1..], u);
    CountConcat(x.held[..i], [x.held[i]], u);
    CountConcat(x.held[..i] + [x.held[i]], x.held[i + 1..], u);
    assert x.held == x.held[..i] + [x.held[i]] + x.held[i + 1..];
    CountConcat(p.returned, [x.held[i]], u);
    WorkerUpdate(p.workers, w, x', u);
  }

  lemma ReturnKeeps(l: Link)
    requires LinkOk(l) && Single(l) && l.poller.returned != []
    ensures var l' := l.(poller := TakeReturn(l.poller)); LinkOk(l') && SameCopies(l, l')
  {
    hide AtWorkers;
    var p, x := l.poller, l.poller.returned[0];
    assert LinkCopies(l, x) <= 1;
    forall u ensures Count(p.returned, u) == One(u == x) + Count(p.returned[1..], u) {
      CountConcat([x], p.returned[1..], u);
      CountOne(x, u);
      assert p.returned == [x] + p.returned[1..];
    }
    assert x !in p.homerun;
  }

  lemma SpawnKeeps(l: Link, mod: Module)
    requires LinkOk(l)
    ensures var l' := l.(poller := Spawn(l.poller, mod)); LinkOk(l') && SameCopies(l, l')
  {
    var ws, w := l.poller.workers, Worker(mod, true, true, [], []);
    forall u ensures AtWorkers(ws + [w], u) == AtWorkers(ws, u) {
      SumAppend(CopiesByWorker(ws, u), 0);
      assert WorkerCopies(w, u) == 0;
      assert CopiesByWorker(ws + [w], u) == CopiesByWorker(ws, u) + [0];
    }
    ServedAfter(l, ws + [w]);
    hide AtWorkers;
  }

  lemma {:induction false} NoneDead(ws: seq<Worker>)
    requires forall w :: 0 <= w < |ws| ==> ws[w].alive
    ensures DeadList(ws) == []
  {
    if ws != [] { NoneDead(ws[..|ws| - 1]); }
  }

  /** A zombie pass that finds nobody dead changes nothing. */
  lemma IdlePass(l: Link, order: seq<Uuid>)
    requires LinkOk(l)
    ensures ZombiePass(l.poller, order) == l.poller
  {
    NoneDead(l.poller.workers);
  }

  // ---------------------------------------------------------------- steps

  datatype NetStep =
    | Add(u: Uuid)
    | Poll(link: nat, batch: Batch)
    | EnqueueStep(link: nat)
    | AtPoller(link: nat, step: Satellites.Step)
    | PushBack(link: nat, results: seq<Uuid>)
    | ConsumeStep
    | DeleteStep

  /** A poller is handed scheduled checks, each once, of modules it has a worker for.
      Workers do not die; results are pushed in any order. */
  ghost predicate Allowed(net: Net, step: NetStep) {
    match step
    case Add(u) => u !in net.sched.used
    case Poll(k, batch) =>
      && k < |net.links| && Distributable(net.sched, batch)
      && (forall i :: 0 <= i < |batch| ==> SomeServes(net.links[k].poller.workers, batch[i].1))
    case EnqueueStep(k) => k < |net.links|
    case AtPoller(k, s) =>
      k < |net.links| && Possible(net.links[k].poller, s)
      && (s.GetStep? || s.FinishStep? || s.ReturnStep? || s.SpawnStep? || s.PassStep?)
    case PushBack(k, results) => k < |net.links| && multiset(results) == multiset(net.links[k].poller.homerun)
    case _ => true
  }

  ghost function After(net: Net, step: NetStep): Net
    requires Allowed(net, step)
  {
    match step
    case Add(u) => net.(sched := S.AddCheck(net.sched, u))
    case Poll(k, batch) =>
      Net(S.GetToRun(net.sched, NameSet(batch)), net.links[k := Handed(net.links[k], batch)])
    case EnqueueStep(k) => net.(links := net.links[k := Enqueue(net.links[k])])
    case AtPoller(k, s) =>
      net.(links := net.links[k := net.links[k].(poller := Satellites.Next(net.links[k].poller, s))])
    case PushBack(k, results) =>
      Net(net.sched.(waiting := net.sched.waiting + results),
          net.links[k := Pushed(net.links[k])])
    case ConsumeStep => net.(sched := S.Consume(net.sched))
    case DeleteStep => net.(sched := S.DeleteZombies(net.sched))
  }

  // ---------------------------------------------------------------- the invariant

  /** A check has one copy if it is with a poller and none otherwise; nothing is
      consumed twice. */
  ghost predicate Conserved(net: Net) {
    && (forall u :: Copies(net, u) == One(InPoller(net.sched, u)))
    && S.Known(net.sched) && S.AtMostOnce(net.sched)
    && (forall k :: 0 <= k < |net.links| ==> LinkOk(net.links[k]))
  }

  lemma ConservedSingle(net: Net, k: nat)
    requires Conserved(net) && k < |net.links|
    ensures Single(net.links[k])
  {
    hide LinkCopies, LinkOk;
    forall u ensures LinkCopies(net.links[k], u) <= 1 {
      SumHolds(CopiesByLink(net.links, u), k);
      assert Copies(net, u) <= 1;
    }
  }

  /** A step inside one poller that keeps its copies keeps the whole. */
  lemma LocalStep(net: Net, k: nat, l: Link)
    requires Conserved(net) && k < |net.links| && LinkOk(l) && SameCopies(net.links[k], l)
    ensures Conserved(net.(links := net.links[k := l]))
  {
    hide LinkCopies, AtLinks, LinkOk;
    var net' := net.(links := net.links[k := l]);
    forall u ensures Copies(net', u) == One(InPoller(net'.sched, u)) {
      LinkUpdate(net.links, k, l, u);
      assert Copies(net, u) == One(InPoller(net.sched, u));
      assert LinkCopies(l, u) == LinkCopies(net.links[k], u);
    }
  }

  lemma {:induction false} DistinctNames(batch: Batch, u: Uuid)
    requires forall i, j :: 0 <= i < j < |batch| ==> batch[i].0 != batch[j].0
    ensures Count(Names(batch), u) == One(u in Names(batch))
  {
    if batch != [] {
      DistinctNames(batch[1..], u);
      CountConcat([batch[0].0], Names(batch[1..]), u);
      CountOne(batch[0].0, u);
      if batch[0].0 in Names(batch[1..]) {
        var i :| 0 <= i < |batch| - 1 && Names(batch[1..])[i] == batch[0].0;
        NamesAt(batch[1..], i);
      }
    }
  }

  lemma {:induction false} NamesConcat(a: Batch, b: Batch)
    ensures Names(a + b) == Names(a) + Names(b)
  {
    if a == [] {
      assert a + b == b;
    } else {
      assert (a + b)[1..] == a[1..] + b;
      NamesConcat(a[1..], b);
    }
  }

  function Handed(l: Link, batch: Batch): Link { l.(incoming := l.incoming + batch) }

  lemma HandedCopies(l: Link, batch: Batch, u: Uuid)
    ensures LinkCopies(Handed(l, batch), u) == LinkCopies(l, u) + Count(Names(batch), u)
  {
    NamesConcat(l.incoming, batch);
    CountConcat(Names(l.incoming), Names(batch), u);
  }

  ghost predicate Distributable(s: S.State, batch: Batch) {
    && (forall i :: 0 <= i < |batch| ==> batch[i].0 in s.checks && s.checks[batch[i].0].Scheduled?)
    && (forall i, j :: 0 <= i < j < |batch| ==> batch[i].0 != batch[j].0)
  }

  function NameSet(batch: Batch): set<Uuid> { set u | u in Names(batch) }

  lemma ScheduledNames(s: S.State, batch: Batch)
    requires Distributable(s, batch)
    ensures forall u :: u in NameSet(batch) ==> u in s.checks && s.checks[u].Scheduled?
  {
    forall u | u in NameSet(batch) ensures u in s.checks && s.checks[u].Scheduled? {
      var i :| 0 <= i < |batch| && Names(batch)[i] == u;
      NamesAt(batch, i);
    }
  }

  lemma PollCopies(links: seq<Link>, k: nat, batch: Batch, u: Uuid)
    requires k < |links| && forall i, j :: 0 <= i < j < |batch| ==> batch[i].0 != batch[j].0
    ensures AtLinks(links[k := Handed(links[k], batch)], u) == AtLinks(links, u) + One(u in NameSet(batch))
  {
    hide LinkCopies, AtLinks;
    HandedCopies(links[k], batch, u);
    DistinctNames(batch, u);
    LinkUpdate(links, k, Handed(links[k], batch), u);
  }

  lemma HandedOk(l: Link, batch: Batch)
    requires LinkOk(l) && forall i :: 0 <= i < |batch| ==> SomeServes(l.poller.workers, batch[i].1)
    ensures LinkOk(Handed(l, batch))
  {
    hide AtWorkers, SomeServes;
  }

  lemma PollConserved(net: Net, k: nat, batch: Batch)
    requires Conserved(net) && Allowed(net, Poll(k, batch))
    ensures Conserved(After(net, Poll(k, batch)))
  {
    hide LinkOk, AtLinks, Handed, Distributable, SomeServes, S.GetToRun, S.Known, S.AtMostOnce, NameSet, InPoller, Count;
    HandedOk(net.links[k], batch);
    ScheduledNames(net.sched, batch);
    PollSched(net.sched, NameSet(batch));
    var net' := After(net, Poll(k, batch));
    forall u ensures Copies(net', u) == One(InPoller(net'.sched, u)) {
      assert Copies(net, u) == One(InPoller(net.sched, u));
      DistributableIsDistinct(net.sched, batch);
      PollCopies(net.links, k, batch, u);
    }
  }

  lemma DistributableIsDistinct(s: S.State, batch: Batch)
    requires Distributable(s, batch)
    ensures forall i, j :: 0 <= i < j < |batch| ==> batch[i].0 != batch[j].0
  {
  }

  lemma PollSched(s: S.State, names: set<Uuid>)
    requires S.Known(s) && S.AtMostOnce(s) && forall u :: u in names ==> u in s.checks && s.checks[u].Scheduled?
    ensures var s' := S.GetToRun(s, names);
            && S.Known(s') && S.AtMostOnce(s') && s'.waiting == s.waiting
            && forall u :: One(InPoller(s', u)) == One(InPoller(s, u)) + One(u in names)
  {
  }

  function Pushed(l: Link): Link { l.(poller := Push(l.poller)) }

  lemma PushedCopies(l: Link, results: seq<Uuid>, u: Uuid)
    requires multiset(results) == multiset(l.poller.homerun)
    ensures LinkCopies(Pushed(l), u) + Count(results, u) == LinkCopies(l, u)
  {
    hide AtWorkers, Names;
    assert Count(results, u) == multiset(l.poller.homerun)[u];
  }

  lemma PushConserved(net: Net, k: nat, results: seq<Uuid>)
    requires Conserved(net) && Allowed(net, PushBack(k, results))
    ensures Conserved(After(net, PushBack(k, results)))
  {
    var l := net.links[k];
    assert LinkOk(Pushed(l)) by { assert LinkOk(l); }
    hide LinkCopies, AtLinks, LinkOk;
    var net' := After(net, PushBack(k, results));
    forall u ensures Copies(net', u) == One(InPoller(net'.sched, u)) {
      assert Copies(net, u) == One(InPoller(net.sched, u));
      PushedCopies(l, results, u);
      CountConcat(net.sched.waiting, results, u);
      LinkUpdate(net.links, k, Pushed(l), u);
    }
  }

  /** Every result that waits is of a check with a poller: none is dropped. */
  lemma WaitingExactly(s: S.State, u: Uuid)
    requires S.Known(s) && Count(s.waiting, u) <= One(InPoller(s, u))
    ensures Count(s.waiting, u) == One(u in s.waiting) && (u in s.waiting ==> InPoller(s, u))
    ensures u in S.Waiting(S.ManageResults(s.checks, s.waiting)) <==> u in s.waiting
  {
    assert u in s.waiting <==> u in multiset(s.waiting);
    S.ManageResultsEffect(s.checks, s.waiting);
  }

  /** What consumption does to one check. */
  lemma ConsumeOne(s: S.State, u: Uuid)
    requires S.Known(s) && Count(s.waiting, u) <= One(InPoller(s, u))
    ensures var s' := S.Consume(s);
            && s'.consumed[u] == s.consumed[u] + Count(s.waiting, u)
            && (u in s'.checks <==> u in s.checks)
            && (u in s.checks ==> s'.checks[u] == if u in s.waiting then S.Zombie else s.checks[u])
  {
    WaitingExactly(s, u);
    S.ManageResultsEffect(s.checks, s.waiting);
    hide S.ManageResults, Count;
  }

  /** What consumption does to all of them. */
  ghost predicate ConsumedWaiting(s: S.State, s': S.State) {
    && s'.waiting == [] && s'.used == s.used
    && forall u ::
         && Count(s.waiting, u) == One(u in s.waiting) && (u in s.waiting ==> InPoller(s, u))
         && s'.consumed[u] == s.consumed[u] + Count(s.waiting, u)
         && (u in s'.checks <==> u in s.checks)
         && (u in s.checks ==> s'.checks[u] == if u in s.waiting then S.Zombie else s.checks[u])
  }

  lemma ConsumeAll(s: S.State)
    requires S.Known(s) && forall u :: Count(s.waiting, u) <= One(InPoller(s, u))
    ensures ConsumedWaiting(s, S.Consume(s))
  {
    var s' := S.Consume(s);
    assert s'.waiting == [] && s'.used == s.used;
    hide S.Consume, S.Waiting, S.ManageResults, S.Known, Count, InPoller;
    forall u
      ensures Count(s.waiting, u) == One(u in s.waiting) && (u in s.waiting ==> InPoller(s, u))
      ensures s'.consumed[u] == s.consumed[u] + Count(s.waiting, u) && (u in s'.checks <==> u in s.checks)
      ensures u in s.checks ==> s'.checks[u] == if u in s.waiting then S.Zombie else s.checks[u]
    {
      WaitingExactly(s, u);
      ConsumeOne(s, u);
    }
  }

  lemma ConsumedIsKnown(s: S.State, s': S.State)
    requires S.Known(s) && ConsumedWaiting(s, s')
    ensures S.Known(s')
  {
    hide Count;
    forall u
      ensures u in s'.checks ==> u in s'.used && !s'.checks[u].WaitConsume?
      ensures u in s'.consumed ==> u in s'.used
      ensures u in s'.consumed && u in s'.checks ==> s'.checks[u].Zombie?
    {
      assert s'.consumed[u] == s.consumed[u] + Count(s.waiting, u);
    }
  }

  lemma ConsumedAtMostOnce(s: S.State, s': S.State)
    requires S.Known(s) && S.AtMostOnce(s) && ConsumedWaiting(s, s')
    ensures S.AtMostOnce(s')
  {
    hide Count;
    forall u | u in s'.consumed ensures s'.consumed[u] <= 1 {
      assert s'.consumed[u] == s.consumed[u] + Count(s.waiting, u);
    }
  }

  lemma ConsumedCounts(s: S.State, s': S.State, u: Uuid)
    requires ConsumedWaiting(s, s')
    ensures One(InPoller(s', u)) == One(InPoller(s, u)) - Count(s.waiting, u)
  {
    hide Count;
  }

  /** Consumption takes exactly the checks whose results wait, and none of them again. */
  lemma ConsumeSched(s: S.State)
    requires S.Known(s) && S.AtMostOnce(s) && forall u :: Count(s.waiting, u) <= One(InPoller(s, u))
    ensures var s' := S.Consume(s);
            && S.Known(s') && S.AtMostOnce(s') && s'.waiting == []
            && (forall u :: One(InPoller(s', u)) == One(InPoller(s, u)) - Count(s.waiting, u))
            && (forall u :: s'.consumed[u] == s.consumed[u] + Count(s.waiting, u))
  {
    var s' := S.Consume(s);
    ConsumeAll(s);
    ConsumedIsKnown(s, s');
    ConsumedAtMostOnce(s, s');
    hide S.Consume, S.Known, S.AtMostOnce, Count, InPoller, One;
    forall u ensures One(InPoller(s', u)) == One(InPoller(s, u)) - Count(s.waiting, u) {
      ConsumedCounts(s, s', u);
    }
  }

  lemma NothingCounted()
    ensures forall u :: Count([], u) == 0
  {
  }

  lemma ConsumeConserved(net: Net)
    requires Conserved(net)
    ensures Conserved(After(net, ConsumeStep))
  {
    hide LinkOk, AtLinks, S.Consume, S.Known, S.AtMostOnce, InPoller, Count;
    forall u ensures Count(net.sched.waiting, u) <= One(InPoller(net.sched, u)) {
      assert Copies(net, u) == One(InPoller(net.sched, u));
    }
    ConsumeSched(net.sched);
    NothingCounted();
    var net' := After(net, ConsumeStep);
    forall u ensures Copies(net', u) == One(InPoller(net'.sched, u)) {
      assert Copies(net, u) == One(InPoller(net.sched, u));
    }
  }

  lemma DeleteConserved(net: Net)
    requires Conserved(net)
    ensures Conserved(After(net, DeleteStep))
  {
    hide LinkOk, AtLinks;
    S.DeleteKnown(net.sched);
    var net' := After(net, DeleteStep);
    forall u ensures Copies(net', u) == One(InPoller(net'.sched, u)) {
      assert Copies(net, u) == One(InPoller(net.sched, u));
    }
  }

  lemma AddConserved(net: Net, u: Uuid)
    requires Conserved(net) && u !in net.sched.used
    ensures Conserved(After(net, Add(u)))
  {
    hide LinkOk, AtLinks;
    var net' := After(net, Add(u));
    forall x ensures Copies(net', x) == One(InPoller(net'.sched, x)) {
      assert Copies(net, x) == One(InPoller(net.sched, x));
    }
  }

  lemma AtPollerConserved(net: Net, k: nat, s: Satellites.Step)
    requires Conserved(net) && Allowed(net, AtPoller(k, s))
    ensures Conserved(After(net, AtPoller(k, s)))
  {
    var l := net.links[k];
    var l' := l.(poller := Satellites.Next(l.poller, s));
    ConservedSingle(net, k);
    assert LinkOk(l);
    assert LinkOk(l') && SameCopies(l, l') by {
      match s
      case GetStep(w) => GetKeeps(l, w);
      case FinishStep(w, i) => FinishKeeps(l, w, i);
      case ReturnStep => ReturnKeeps(l);
      case SpawnStep(mod) => SpawnKeeps(l, mod);
      case PassStep(order) => IdlePass(l, order);
    }
    LocalStep(net, k, l');
  }

  lemma StepConserved(net: Net, step: NetStep)
    requires Conserved(net) && Allowed(net, step)
    ensures Conserved(After(net, step))
  {
    match step
    case Add(u) => AddConserved(net, u);
    case Poll(k, batch) => PollConserved(net, k, batch);
    case EnqueueStep(k) =>
      ConservedSingle(net, k);
      EnqueueKeeps(net.links[k]);
      LocalStep(net, k, Enqueue(net.links[k]));
    case AtPoller(k, s) => AtPollerConserved(net, k, s);
    case PushBack(k, results) => PushConserved(net, k, results);
    case ConsumeStep => ConsumeConserved(net);
    case DeleteStep => DeleteConserved(net);
  }

  ghost predicate AllowedRun(net: Net, steps: seq<NetStep>)
    decreases |steps|
  {
    steps != [] ==> Allowed(net, steps[0]) && AllowedRun(After(net, steps[0]), steps[1..])
  }

  ghost function AfterRun(net: Net, steps: seq<NetStep>): Net
    requires AllowedRun(net, steps)
    decreases |steps|
  {
    if steps == [] then net else AfterRun(After(net, steps[0]), steps[1..])
  }

  lemma {:induction false} RunConserved(net: Net, steps: seq<NetStep>)
    requires Conserved(net) && AllowedRun(net, steps)
    ensures Conserved(AfterRun(net, steps))
    decreases |steps|
  {
    if steps != [] {
      StepConserved(net, steps[0]);
      RunConserved(After(net, steps[0]), steps[1..]);
    }
  }

  /** n pollers, without workers yet. */
  function Idle(n: nat): Net {
    Net(S.INITIAL, seq(n, _ => Link([], Poller(map[], [], 0, [], {}))))
  }

  lemma {:induction false} SumOfNothing(parts: seq<nat>)
    requires forall i :: 0 <= i < |parts| ==> parts[i] == 0
    ensures Sum(parts) == 0
  {
    if parts != [] { SumOfNothing(parts[1..]); }
  }

  lemma IdleConserved(n: nat)
    ensures Conserved(Idle(n))
  {
    var net := Idle(n);
    forall u ensures Copies(net, u) == 0 {
      assert CopiesByWorker([], u) == [];
      forall k | 0 <= k < n ensures LinkCopies(net.links[k], u) == 0 {}
      SumOfNothing(CopiesByLink(net.links, u));
    }
  }

  /** In every reachable state, a check has exactly one copy among all buffers if it
      is with a poller and none otherwise, and it was consumed at most once. */
  lemma OneCopyEach(n: nat, steps: seq<NetStep>, u: Uuid)
    requires AllowedRun(Idle(n), steps)
    ensures var net := AfterRun(Idle(n), steps);
            Copies(net, u) == One(InPoller(net.sched, u)) && net.sched.consumed[u] <= 1
  {
    IdleConserved(n);
    RunConserved(Idle(n), steps);
  }
}
