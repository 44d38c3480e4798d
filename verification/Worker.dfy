/** A worker process: it takes actions from its queue, launches them, and sends
    the finished ones back. */
module Workers {

  datatype Status = Queued | Launched | Finished | TimedOut

  datatype Action = Action(uuid: nat, status: Status)

  datatype Message = Do(action: Action) | Ping | Unknown

  /** The counters and the list of checks of a worker. */
  datatype State = State(checks: seq<Action>, got: nat, launched: nat, finished: nat, dying: bool)

  // ---------------------------------------------------------------- taking actions

  /** pongs counts the pings answered. */
  datatype Taken = Taken(state: State, queue: seq<Message>, pongs: nat)

  /** Messages are taken while fewer than limit checks are held. */
  function GetNewChecks(s: State, queue: seq<Message>, limit: nat): Taken
    decreases |queue|
  {
    if |s.checks| >= limit || queue == [] then Taken(s, queue, 0)
    else
      match queue[0]
      case Do(a) => GetNewChecks(s.(checks := s.checks + [a], got := s.got + 1), queue[1..], limit)
      case Ping =>
        var t := GetNewChecks(s, queue[1..], limit);
        t.(pongs := t.pongs + 1)
      case Unknown => GetNewChecks(s, queue[1..], limit)
  }

  // ---------------------------------------------------------------- launching

  /** What starting a process leads to. */
  datatype Launch = Launch(status: Status, tooManyFiles: bool)

  function LaunchOne(s: State, i: nat, outcome: Launch): State
    requires i < |s.checks|
  {
    if !s.checks[i].status.Queued? then s
    else s.(checks := s.checks[i := s.checks[i].(status := outcome.status)], launched := s.launched + 1,
            dying := s.dying || outcome.tooManyFiles)
  }

  /** The first n checks, each with its outcome. */
  function LaunchNewChecks(s: State, outcomes: seq<Launch>, n: nat): (r: State)
    requires |outcomes| == |s.checks| && n <= |s.checks|
    ensures |r.checks| == |s.checks| && r.got == s.got && r.finished == s.finished
    ensures forall i :: 0 <= i < |s.checks| ==> r.checks[i].uuid == s.checks[i].uuid
  {
    if n == 0 then s else LaunchOne(LaunchNewChecks(s, outcomes, n - 1), n - 1, outcomes[n - 1])
  }

  // ---------------------------------------------------------------- finishing

  predicate IsOver(a: Action) { a.status.Finished? || a.status.TimedOut? }

  /** Polling a launched process gives its new status. */
  function PollOne(a: Action, polled: Status): Action {
    if a.status.Launched? then a.(status := polled) else a
  }

  function PollAll(checks: seq<Action>, polls: seq<Status>): (r: seq<Action>)
    requires |polls| == |checks|
    ensures |r| == |checks|
  {
    if checks == [] then [] else [PollOne(checks[0], polls[0])] + PollAll(checks[1..], polls[1..])
  }

  function Over(checks: seq<Action>): seq<Action> {
    if checks == [] then []
    else (if IsOver(checks[0]) then [checks[0]] else []) + Over(checks[1..])
  }

  function StillRunning(checks: seq<Action>): seq<Action> {
    if checks == [] then []
    else (if IsOver(checks[0]) then [] else [checks[0]]) + StillRunning(checks[1..])
  }

  /** The new state, and the actions sent back in Done messages. */
  function ManageFinishedChecks(s: State, polls: seq<Status>): (State, seq<Action>)
    requires |polls| == |s.checks|
  {
    var checks := PollAll(s.checks, polls);
    (s.(checks := StillRunning(checks), finished := s.finished + |Over(checks)|), Over(checks))
  }

  // ---------------------------------------------------------------- accounting

  predicate Balanced(s: State, limit: nat) {
    s.got == s.finished + |s.checks| && |s.checks| <= limit
  }

  function Uuids(checks: seq<Action>): (r: seq<nat>)
    ensures |r| == |checks|
  {
    if checks == [] then [] else [checks[0].uuid] + Uuids(checks[1..])
  }

  /** The uuids of the actions a sequence of messages asks for. */
  function Asked(queue: seq<Message>): seq<nat> {
    if queue == [] then []
    else (if queue[0].Do? then [queue[0].action.uuid] else []) + Asked(queue[1..])
  }

  lemma {:induction false} UuidsAppend(checks: seq<Action>, a: Action)
    ensures Uuids(checks + [a]) == Uuids(checks) + [a.uuid]
  {
    if checks == [] {
      assert [] + [a] == [a];
    } else {
      assert (checks + [a])[1..] == checks[1..] + [a];
      UuidsAppend(checks[1..], a);
    }
  }

  /** Taking messages keeps the books, and every action asked for is now held or
      still in the queue, in the same order. */
  lemma {:induction false} TakingIsConservative(s: State, queue: seq<Message>, limit: nat)
    requires Balanced(s, limit)
    ensures var t := GetNewChecks(s, queue, limit);
            && Balanced(t.state, limit)
            && Uuids(t.state.checks) + Asked(t.queue) == Uuids(s.checks) + Asked(queue)
    decreases |queue|
  {
    if |s.checks| < limit && queue != [] {
      match queue[0]
      case Do(a) =>
        var s1 := s.(checks := s.checks + [a], got := s.got + 1);
        TakingIsConservative(s1, queue[1..], limit);
        calc {
          Uuids(s1.checks) + Asked(queue[1..]);
          { UuidsAppend(s.checks, a); }
          Uuids(s.checks) + [a.uuid] + Asked(queue[1..]);
          Uuids(s.checks) + ([a.uuid] + Asked(queue[1..]));
          Uuids(s.checks) + Asked(queue);
        }
      case Ping => TakingIsConservative(s, queue[1..], limit);
      case Unknown => TakingIsConservative(s, queue[1..], limit);
    }
  }

  function Pings(queue: seq<Message>): nat {
    if queue == [] then 0 else (if queue[0].Ping? then 1 else 0) + Pings(queue[1..])
  }

  /** Taking goes on until the limit is reached or the queue is empty, and every
      ping met on the way is answered. */
  lemma {:induction false} TakingIsMaximal(s: State, queue: seq<Message>, limit: nat)
    requires |s.checks| <= limit
    ensures var t := GetNewChecks(s, queue, limit);
            && (|t.state.checks| == limit || t.queue == [])
            && t.pongs + Pings(t.queue) == Pings(queue)
    decreases |queue|
  {
    if |s.checks| < limit && queue != [] {
      match queue[0]
      case Do(a) => TakingIsMaximal(s.(checks := s.checks + [a], got := s.got + 1), queue[1..], limit);
      case Ping => TakingIsMaximal(s, queue[1..], limit);
      case Unknown => TakingIsMaximal(s, queue[1..], limit);
    }
  }

  /** How many of the first n checks are queued. */
  function QueuedCount(checks: seq<Action>, n: nat): nat
    requires n <= |checks|
  {
    if n == 0 then 0 else QueuedCount(checks, n - 1) + if checks[n - 1].status.Queued? then 1 else 0
  }

  /** Launching gives each queued check its outcome; the others keep their status. */
  lemma {:induction false} LaunchesTheQueued(s: State, outcomes: seq<Launch>, n: nat, i: nat)
    requires |outcomes| == |s.checks| && n <= |s.checks| && i < |s.checks|
    ensures LaunchNewChecks(s, outcomes, n).checks[i] ==
            if i < n && s.checks[i].status.Queued? then s.checks[i].(status := outcomes[i].status) else s.checks[i]
  {
    if n > 0 { LaunchesTheQueued(s, outcomes, n - 1, i); }
  }

  predicate RanOutOfFiles(s: State, outcomes: seq<Launch>, n: nat)
    requires |outcomes| == |s.checks| && n <= |s.checks|
  {
    exists i :: 0 <= i < n && s.checks[i].status.Queued? && outcomes[i].tooManyFiles
  }

  /** Each queued check is counted once. */
  lemma {:induction false} LaunchIsCounted(s: State, outcomes: seq<Launch>, n: nat)
    requires |outcomes| == |s.checks| && n <= |s.checks|
    ensures LaunchNewChecks(s, outcomes, n).launched == s.launched + QueuedCount(s.checks, n)
  {
    if n > 0 {
      LaunchIsCounted(s, outcomes, n - 1);
      LaunchesTheQueued(s, outcomes, n - 1, n - 1);
    }
  }

  /** The worker starts dying exactly if a launch ran out of files. */
  lemma {:induction false} DiesWithoutFiles(s: State, outcomes: seq<Launch>, n: nat)
    requires |outcomes| == |s.checks| && n <= |s.checks|
    ensures LaunchNewChecks(s, outcomes, n).dying <==> s.dying || RanOutOfFiles(s, outcomes, n)
  {
    if n > 0 {
      DiesWithoutFiles(s, outcomes, n - 1);
      LaunchesTheQueued(s, outcomes, n - 1, n - 1);
      hide LaunchNewChecks;
      assert RanOutOfFiles(s, outcomes, n) <==>
             RanOutOfFiles(s, outcomes, n - 1) || (s.checks[n - 1].status.Queued? && outcomes[n - 1].tooManyFiles);
    }
  }

  /** What polling makes of a check: a launched one gets the status of its process. */
  function StatusAfterPoll(a: Action, polled: Status): Status {
    if a.status == Launched then polled else a.status
  }

  lemma {:induction false} GoesBackOrStays(checks: seq<Action>, polls: seq<Status>, i: nat)
    requires |polls| == |checks| && i < |checks|
    ensures var status := StatusAfterPoll(checks[i], polls[i]); var a := Action(checks[i].uuid, status);
            if status == Finished || status == TimedOut then a in Over(PollAll(checks, polls))
            else a in StillRunning(PollAll(checks, polls))
  {
    assert PollAll(checks, polls)[1..] == PollAll(checks[1..], polls[1..]);
    if i > 0 { GoesBackOrStays(checks[1..], polls[1..], i - 1); }
  }

  lemma {:induction false} OnlyOverGoBack(checks: seq<Action>)
    ensures forall a :: a in Over(checks) ==> a.status == Finished || a.status == TimedOut
    ensures forall a :: a in StillRunning(checks) ==> a.status == Queued || a.status == Launched
  {
    if checks != [] { OnlyOverGoBack(checks[1..]); }
  }

  /** A check is sent back if and only if, after polling, it is done or timed out. */
  lemma SentBackIff(s: State, polls: seq<Status>, i: nat)
    requires |polls| == |s.checks| && i < |s.checks|
    ensures var (s', back) := ManageFinishedChecks(s, polls);
            var status := StatusAfterPoll(s.checks[i], polls[i]); var a := Action(s.checks[i].uuid, status);
            && (a in back <==> status == Finished || status == TimedOut)
            && (a in s'.checks <==> status == Queued || status == Launched)
  {
    GoesBackOrStays(s.checks, polls, i);
    OnlyOverGoBack(PollAll(s.checks, polls));
  }

  lemma {:induction false} OverOrRunning(checks: seq<Action>)
    ensures |Over(checks)| + |StillRunning(checks)| == |checks|
    ensures multiset(Over(checks)) + multiset(StillRunning(checks)) == multiset(checks)
  {
    if checks != [] {
      OverOrRunning(checks[1..]);
      assert checks == [checks[0]] + checks[1..];
    }
  }

  lemma {:induction false} PollAllUuids(checks: seq<Action>, polls: seq<Status>)
    requires |polls| == |checks|
    ensures Uuids(PollAll(checks, polls)) == Uuids(checks)
  {
    if checks != [] {
      PollAllUuids(checks[1..], polls[1..]);
      assert PollAll(checks, polls)[1..] == PollAll(checks[1..], polls[1..]);
    }
  }

  /** One turn of a worker: what it takes from its queue and what it sends back. */
  datatype Turn = Turn(incoming: seq<Message>, outcomes: seq<Launch>, polls: seq<Status>)

  /** A dying worker takes and launches nothing more. */
  function Work(s: State, turn: Turn, limit: nat): (State, seq<Action>)
    requires TurnFits(s, turn, limit)
  {
    var t := GetNewChecks(s, turn.incoming, limit);
    var s1 := if s.dying then s else LaunchNewChecks(t.state, turn.outcomes, |turn.outcomes|);
    ManageFinishedChecks(s1, turn.polls)
  }

  predicate TurnFits(s: State, turn: Turn, limit: nat) {
    var held := if s.dying then s.checks else GetNewChecks(s, turn.incoming, limit).state.checks;
    |turn.polls| == |held| && (!s.dying ==> |turn.outcomes| == |held|)
  }

  function Worked(s: State, turn: Turn, limit: nat): State
    requires TurnFits(s, turn, limit)
  {
    Work(s, turn, limit).0
  }

  predicate RunFits(s: State, turns: seq<Turn>, limit: nat)
    decreases |turns|
  {
    turns != [] ==> TurnFits(s, turns[0], limit) && RunFits(Worked(s, turns[0], limit), turns[1..], limit)
  }

  function Run(s: State, turns: seq<Turn>, limit: nat): State
    requires RunFits(s, turns, limit)
    decreases |turns|
  {
    if turns == [] then s else Run(Worked(s, turns[0], limit), turns[1..], limit)
  }

  lemma TurnBalanced(s: State, turn: Turn, limit: nat)
    requires Balanced(s, limit) && TurnFits(s, turn, limit)
    ensures Balanced(Worked(s, turn, limit), limit)
  {
    TakingIsConservative(s, turn.incoming, limit);
    var t := GetNewChecks(s, turn.incoming, limit);
    var s1 := if s.dying then s else LaunchNewChecks(t.state, turn.outcomes, |turn.outcomes|);
    OverOrRunning(PollAll(s1.checks, turn.polls));
  }

  /** A turn of a worker that is not dying launches all that is queued once it has taken
      what it can. */
  lemma TurnLaunches(s: State, turn: Turn, limit: nat)
    requires !s.dying && TurnFits(s, turn, limit)
    ensures var taken := GetNewChecks(s, turn.incoming, limit).state;
            && Worked(s, turn, limit).launched == taken.launched + QueuedCount(taken.checks, |taken.checks|)
            && Worked(s, turn, limit).got == taken.got
  {
    LaunchIsCounted(GetNewChecks(s, turn.incoming, limit).state, turn.outcomes, |turn.outcomes|);
  }

  /** A dying worker takes nothing and launches nothing any more, and stays dying. */
  lemma DyingTakesNothing(s: State, turn: Turn, limit: nat)
    requires s.dying && TurnFits(s, turn, limit)
    ensures var s' := Worked(s, turn, limit);
            s'.dying && s'.got == s.got && s'.launched == s.launched && |s'.checks| <= |s.checks|
  {
    OverOrRunning(PollAll(s.checks, turn.polls));
  }

  /** In every run: got is finished plus held, and never more than the limit is held. */
  lemma {:induction false} RunBalanced(s: State, turns: seq<Turn>, limit: nat)
    requires Balanced(s, limit) && RunFits(s, turns, limit)
    ensures Balanced(Run(s, turns, limit), limit)
    decreases |turns|
  {
    if turns != [] {
      TurnBalanced(s, turns[0], limit);
      RunBalanced(Worked(s, turns[0], limit), turns[1..], limit);
    }
  }

  /** What is held after finishing, plus what was sent back, is what was held before. */
  lemma FinishingIsConservative(s: State, polls: seq<Status>)
    requires |polls| == |s.checks|
    ensures var (s', sentBack) := ManageFinishedChecks(s, polls);
            multiset(Uuids(s'.checks)) + multiset(Uuids(sentBack)) == multiset(Uuids(s.checks))
  {
    var checks := PollAll(s.checks, polls);
    PollAllUuids(s.checks, polls);
    SplitUuids(checks);
  }

  lemma UuidsCons(head: Action, tail: seq<Action>)
    ensures Uuids([head] + tail) == [head.uuid] + Uuids(tail)
  {
    assert ([head] + tail)[1..] == tail;
  }

  lemma OneMore(u: nat, some: seq<nat>, others: seq<nat>, all: seq<nat>)
    requires multiset(some) + multiset(others) == multiset(all)
    ensures multiset([u] + some) + multiset(others) == multiset([u] + all)
    ensures multiset(some) + multiset([u] + others) == multiset([u] + all)
  {
  }

  lemma {:induction false} SplitUuids(checks: seq<Action>)
    ensures multiset(Uuids(StillRunning(checks))) + multiset(Uuids(Over(checks))) == multiset(Uuids(checks))
  {
    if checks != [] {
      var head, tail := checks[0], checks[1..];
      SplitUuids(tail);
      assert [] + StillRunning(tail) == StillRunning(tail) && [] + Over(tail) == Over(tail);
      assert Uuids(checks) == [head.uuid] + Uuids(tail);
      assert IsOver(head) ==> StillRunning(checks) == StillRunning(tail) && Over(checks) == [head] + Over(tail);
      assert !IsOver(head) ==> StillRunning(checks) == [head] + StillRunning(tail) && Over(checks) == Over(tail);
      hide StillRunning, Over, Uuids, IsOver;
      UuidsCons(head, if IsOver(head) then Over(tail) else StillRunning(tail));
      OneMore(head.uuid, Uuids(StillRunning(tail)), Uuids(Over(tail)), Uuids(tail));
    }
  }
}

/** The mutable worker with the loops of its three phases. */
module WorkerObject {
  import opened Workers

  method SplitChecks(checks: seq<Action>, polls: seq<Status>)
    returns (kept: seq<Action>, sentBack: seq<Action>)
    requires |polls| == |checks|
    ensures kept == StillRunning(PollAll(checks, polls)) && sentBack == Over(PollAll(checks, polls))
  {
    hide StillRunning, Over, PollAll;
    ghost var polled := PollAll(checks, polls);
    kept, sentBack := [], [];
    assert polled[0..] == polled;
    for i := 0 to |checks|
      invariant kept + StillRunning(polled[i..]) == StillRunning(polled)
      invariant sentBack + Over(polled[i..]) == Over(polled)
    {
      PollAllAt(checks, polls, i);
      FinishStep(polled, i);
      var action := checks[i];
      if action.status.Launched? {
        action := action.(status := polls[i]);
      }
      if action.status.Finished? || action.status.TimedOut? {
        sentBack := sentBack + [action];
      } else {
        kept := kept + [action];
      }
    }
    assert polled[|checks|..] == [];
    NothingLeft();
  }

  lemma NothingLeft()
    ensures Over([]) == [] && StillRunning([]) == []
  {
  }

  lemma FinishStep(polled: seq<Action>, i: nat)
    requires i < |polled|
    ensures Over(polled[i..]) == (if IsOver(polled[i]) then [polled[i]] else []) + Over(polled[i + 1..])
    ensures StillRunning(polled[i..]) == (if IsOver(polled[i]) then [] else [polled[i]]) + StillRunning(polled[i + 1..])
  {
    assert polled[i..][1..] == polled[i + 1..];
  }

  lemma {:induction false} PollAllAt(checks: seq<Action>, polls: seq<Status>, i: nat)
    requires |polls| == |checks| && i < |checks|
    ensures PollAll(checks, polls)[i] == PollOne(checks[i], polls[i])
  {
    if i > 0 { PollAllAt(checks[1..], polls[1..], i - 1); }
  }

  class Worker {
    const processesByWorker: nat
    var checks: seq<Action>
    var actionsGot: nat
    var actionsLaunched: nat
    var actionsFinished: nat
    var iAmDying: bool

    function View(): State
      reads this
    {
      State(checks, actionsGot, actionsLaunched, actionsFinished, iAmDying)
    }

    constructor (limit: nat)
      ensures processesByWorker == limit && View() == State([], 0, 0, 0, false)
      ensures Balanced(View(), processesByWorker)
    {
      processesByWorker := limit;
      checks, actionsGot, actionsLaunched, actionsFinished, iAmDying := [], 0, 0, 0, false;
    }

    method TakeNewChecks(queue: seq<Message>) returns (rest: seq<Message>, pongs: nat)
      modifies this
      ensures Taken(View(), rest, pongs) == GetNewChecks(old(View()), queue, processesByWorker)
    {
      rest, pongs := queue, 0;
      while |checks| < processesByWorker && rest != []
        invariant var t := GetNewChecks(View(), rest, processesByWorker);
                  t.(pongs := pongs + t.pongs) == GetNewChecks(old(View()), queue, processesByWorker)
        decreases |rest|
      {
        var msg := rest[0];
        rest := rest[1..];
        match msg {
          case Do(a) =>
            checks := checks + [a];
            actionsGot := actionsGot + 1;
          case Ping => pongs := pongs + 1;
          case Unknown =>
        }
      }
    }

    method StartChecks(outcomes: seq<Launch>)
      requires |outcomes| == |checks|
      modifies this
      ensures View() == LaunchNewChecks(old(View()), outcomes, |outcomes|)
    {
      for i := 0 to |outcomes|
        invariant |checks| == |outcomes|
        invariant View() == LaunchNewChecks(old(View()), outcomes, i)
      {
        if checks[i].status.Queued? {
          actionsLaunched := actionsLaunched + 1;
          checks := checks[i := checks[i].(status := outcomes[i].status)];
          if outcomes[i].tooManyFiles {
            iAmDying := true;
          }
        }
      }
    }

    /** First every check is looked at, then the finished ones are removed. */
    method FinishChecks(polls: seq<Status>) returns (sentBack: seq<Action>)
      requires |polls| == |checks|
      modifies this
      ensures (View(), sentBack) == ManageFinishedChecks(old(View()), polls)
    {
      var kept;
      kept, sentBack := SplitChecks(checks, polls);
      actionsFinished := actionsFinished + |sentBack|;
      checks := kept;
    }
  }
}
