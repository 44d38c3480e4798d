# A verified model of Alignak's scheduling core

Alignak is a monitoring framework: an arbiter dispatches configuration parts to
daemons, schedulers plan checks, pollers execute them with worker processes, and
results travel back. This project models the parts of it whose correctness
depends on many steps together, and proves what they keep.

| files | subject |
|---|---|
| `CheckProtocol.dfy`, `CheckProgress.dfy`, `CheckFaults.dfy`, `Satellite.dfy`, `Worker.dfy`, `SchedulerChecks.dfy` | the travel of a check from the scheduler to a worker and back |
| `Graph.dfy`, `LoopSearch.dfy`, `Packs.dfy`, `DependencyGraph.dfy` | loop detection with five colours, and the split into independent packs |
| `DateRange.dfy`, `DateRangeSearch.dfy` | the searches for the next valid and the next invalid second |
| `BusinessRuleParser.dfy`, `BusinessRuleRoundTrip.dfy`, `BusinessRuleState.dfy`, `BusinessRuleMeaning.dfy`, `Text.dfy` | business rules: the parser, the state algebra, and the way from one to the other |
| `GroupExpressionParser.dfy`, `GroupExpressionMeaning.dfy`, `GroupExpressionForms.dfy` | group expressions: the parser, the set algebra, and all the forms an expression can be written in |
| `Downtime.dfy` | the nesting counter of scheduled downtimes |
| `Dispatch.dfy`, `SchedulerAssignment.dfy` | the dispatch flags, and which scheduler gets which configuration part |
| `Option.dfy` | a value that may be missing |

Each imperative component comes twice: as functions on values, which the lemmas
are about, and as a class or a loop whose methods are proved to compute exactly
these functions (`DependencyGraph.Graph`, `SatelliteObject.Satellite`,
`SchedulerObject.Scheduler`, `WorkerObject.Worker`, `DispatcherObject.Dispatcher`,
`SchedulerAssignment.Preparation`, `DowntimeItem.Item`, and the loop methods of the
two parsers, of the `of:` state and of the date ranges). Whatever the
source leaves to the outside (clocks, answers of daemons, outcomes of processes,
the order in which a dictionary is gone through) is a parameter that the theorems
quantify over.

## Main results

* **Conservation** (`OneCopyEach`): in every fault-free run with any number of
  pollers and workers, a check has exactly one copy among all buffers while it is
  with a poller and none otherwise. No run wedges (`NeverWedged`), moves end
  (`MovesEnd`), and when none is left every check that was out has been consumed
  exactly once (`EveryCheckComesHome`, `AWayHome`).
* **Faults** (`FaultsLoseNothing`): in every run of the whole net in which workers die,
  checks are orphaned and handed out again and results come back late or repeatedly,
  a check that the scheduler believes to be with a poller is at some poller or its
  result has come, a poller that knows it has not lost it exactly as long as workers
  of its module are there when it needs them, and it is consumed at most once.
* **At most once** (`AtMostOnceIff`): with orphans re-enabled and results
  duplicated at will, no check is consumed twice exactly when zombies are deleted at
  least as often as results are consumed. Whatever the ticks, a check that was ever
  added is known to the scheduler until it has been consumed (`NoCheckForgotten`).
* **Recovery** (`RunKeptIff`, `RecoveryIff`): in every run, whatever happens to other
  actions and modules and however many workers die, an action is never lost exactly
  when a worker of its own module is listed each time it arrives and alive at each
  pass that finds it unanswered. One that is lost and that no living worker carries is
  stuck for ever (`StuckForever`).
* **Loop detection** (`EmptyReportIffAcyclic`, `OkayIffNoCycle`) and **packs**,
  with the exact graphs and orders on which they keep what is promised: nodes related
  inside a pack, no relation between packs (`PromiseKeptIff`).
* **Load balance** (`LoadBalanced`, `AlwaysBalancesIff`): every batch is spread
  evenly over the workers of a module exactly when there are not two of them or no
  other module has a worker.
* **Date searches** agree with a second-by-second scan (`NextValidIsLeast`,
  `NextInvalidIsLeast`), with the exact conditions (`SearchRightIff`,
  `ReversedCalendarIff`, `InvalidSearchRightIff`).
* **Round trips** (`RoundTrip`, `ParseWritten`) and **meaning preserved**
  (`CompiledState`, `WrittenRightIff`, `SubtractsIff`), for every way of writing a
  rule or an expression: each name bare or in parentheses, negated or not, with any
  spaces between the parts. `&` is the worst son and `|` the best (`GroupIsExtreme`,
  `StateOfText`), De Morgan holds (`PushNotState`), and so does monotonicity
  (`StateMonotone`, `SimpleOfMonotoneIff`).
* **Whole-run invariants** of downtimes (`StepGoodIff`, `RunGoodIff`), of the
  dispatcher (`RunSound`, `RunSendsNothingAstray`) and of the assignment
  (`AssignPartsComplete`, `RealmsProcessed`).

## Where the code differs from what it says

The model follows the code. For each case below lemmas give a failing input or run
and the exact condition under which the promise holds.

* `loop_check` is documented to return the nodes that are part of a loop. It can
  also return a node that only leads to one (`ReportedOffCycle`,
  `ReportsExactlyCyclesIffNoStray`).
* `get_accessibility_packs` promises that the nodes of a pack are related in some way
  and that between packs there is no relation at all. That holds exactly when no node
  that a start finds new has an edge to a node seen from an earlier start
  (`PromiseKeptIff`), which depends on the order of the nodes: `OneWayEdgeOverlaps`
  has one graph that keeps the promise in one order and not in the other. When every
  edge can be walked back, in particular when all edges go both ways, every order is
  fine, and the packs are the components of mutual reachability (`PartitionIff`).
* The ticks of consumption and deletion are configurable one by one. When deletion is
  the rarer one, a late second result revives a zombie (`ConsumedTwice`,
  `AtMostOnceIff`).
* An action that arrives while its module has no worker, or whose last worker
  dies, is known to the poller for ever, so polling it again skips it
  (`NoWorkerStuck`, `ArrivalMakesStuckIff`, `PassMakesStuckIff`, `StuckForever`).
* One round-robin index is shared by all modules: actions of two modules in turn can
  load one worker only (`SharedCounterUnbalances`, `AlwaysBalancesIff`).
* A flexible downtime that has ended can be entered again before it is deleted; as
  long as only downtimes in effect are cancelled, the counter then never returns to
  zero (`LeakHappens`, `LeakIsForever`). Cancelling a downtime that is not in effect
  breaks the counter too (`EarlyCancel`, `StepGoodIff`, `RunGoodIff`).
* Schedulers are listed masters first, but taken from the end of the list, so
  spares are served first (`SpareIsPreferred`, `MastersFirstIff`).
* Preparing a configuration does not clear `dispatch_ok`, so the second configuration
  that a dispatcher prepares and dispatches is sent to nobody
  (`SecondConfigurationStays`, `SecondConfigurationIsNotSent`, `PreparedIsSentIff`).
  A dispatch that skipped unreachable daemons still declares itself done
  (`UnreachableIsSkipped`, `DispatchReachesEveryoneIff`).
* For a calendar interval that ends before it starts, the search answers with a
  time that is not valid (`ReversedCalendarIff`), and so it does at a start that no
  range covers, or when a range starts at 24:00 or later and the last second of the
  day is free (`UncoveredStartMisleads`, `LateStartMisleads`, `SearchRightIff`).
* Ranges that run on into each other make the next-invalid search stop early
  (`TouchingRangesMislead`), and so does a range such as `22:00-06:00`, which holds no
  second itself, beside `00:00-24:00` (`InnerEndMisleads`, `EmptyRangeMisleads`). A
  range such as `00:00-24:30` makes it stop late, after an invalid midnight
  (`AfterMidnightMisleads`, `LateEndMisleads`, `AlwaysValidUntilIff`). All of it is in
  the exact condition of `InvalidSearchRightIff`.
* In a group expression, `!` in front of a parenthesis moves inside it
  (`BangMovesInside`): `(x)&!((a)|(b))` selects what is in `x` and `b` but not in `a`
  (`NotBeforeListMisleads`). A `!` before a parenthesis takes away what is inside
  exactly when that is a plain name (`SubtractsIff`).
* The `!` of a name that stands alone is ignored: `!linux` selects the members of
  `linux`. Every other expression is compiled to its meaning, with or without
  parentheses around its names (`WrittenRightIff`).
* Separators that are mixed without parentheses are not told apart: the last one
  decides for all, so `a&b,c` is the union of the three (`LastSeparatorDecides`).
* A business rule that mixes `&` and `|` without parentheses has no tree
  (`MixedIsMissing`), and negating it raises (`NegatedMixRaises`). A `!` after the
  start of a name is dropped and negates nothing (`LateBangDropped`).
* When no threshold of an `of:` rule applies, the documentation gives ok to a simple
  rule and the worst state to a multiple one; the code does the opposite
  (`FallbacksSwapped`), so it answers as documented exactly when a threshold applies
  or no son has a problem (`DocumentedIff`).
* A simple `of:` rule can improve when a son gets worse (`SimpleOfImproves`,
  `SimpleOfMonotoneIff`).

## Model

| member | source | states |
|---|---|---|
| CheckProtocol.OneCopyEach | alignak/scheduler.py:886-923 | in every state reachable from idle pollers, a check has exactly one copy over incoming batches, worker queues, worker lists, returns queues, home-run maps and waiting results if it is with a poller, none otherwise, and was consumed at most once |
| CheckProtocol.StepConserved | alignak/satellite.py:504-538 | each of the steps add, poll, enqueue, get, finish, return, push, spawn, idle zombie pass, consume and delete keeps the number of copies of every check right |
| CheckProtocol.RunConserved | alignak/satellite.py:759-805 | the conservation invariant holds after any interleaving of these steps |
| CheckProtocol.PollConserved | alignak/scheduler.py:886-923 | handing a batch of scheduled checks to a poller creates one copy of each and marks them as with the poller |
| CheckProtocol.AddActionsCopies | alignak/satellite.py:788-805 | queueing a batch of new actions puts exactly one copy of each with the workers, and adds no other |
| CheckProtocol.EnqueueKeeps | alignak/satellite.py:759-805 | no action of a batch is skipped as already known, so enqueueing changes no count |
| CheckProtocol.GetKeeps | alignak/worker.py:250-259 | a worker reading its queue moves a copy and neither creates nor loses one |
| CheckProtocol.FinishKeeps | alignak/worker.py:316-337 | a worker sending a Done message moves a copy and neither creates nor loses one |
| CheckProtocol.ReturnKeeps | alignak/satellite.py:462-502 | managing a return moves a copy to the home-run map without overwriting another, and the link still knows only what is carried or coming back |
| CheckProtocol.PushConserved | alignak/satellite.py:511-538 | pushing moves all results of the home-run map, in any order, to the waiting results |
| CheckProtocol.ConsumeSched | alignak/scheduler.py:1639-1668 | in a conserved state no result is dropped as unknown, and each waiting result is consumed exactly once |
| CheckProgress.NeverWedged | alignak/satellite.py:504-538 | while any check is with a poller, some step can move a copy on |
| CheckProgress.MovesEnd | alignak/satellite.py:462-502 | a run of moving steps is no longer than the weighted distance of the copies from home |
| CheckProgress.EveryCheckComesHome | alignak/scheduler.py:1639-1668 | whatever the order of the moves, when none is left every check that was with a poller has been consumed exactly once |
| CheckProgress.AWayHome | alignak/satellite.py:504-538 | from every conserved state there is a run of moves after which no check is with a poller and every one that was has been consumed exactly once |
| CheckFaults.FaultsLoseNothing | alignak/satellite.py:654-699 | in every run from idle pollers with deaths, orphans and repeated results: a check with a poller is at a link or its result waits; a link that knows it keeps it all along if and only if its module serves it when needed; with zombies deleted as often as results are consumed it is consumed at most once |
| CheckFaults.StepTracked | alignak/scheduler.py:1977-1992 | no step, faulty or not, makes the net lose track of a check |
| CheckFaults.StepKeptEverywhereIff | alignak/satellite.py:683-699 | a step keeps a check at every poller that knows it if and only if it gives it what it needs where it is taken in or a pass finds it |
| CheckFaults.RunKeptEverywhereIff | alignak/satellite.py:683-699 | the same for runs of the whole net |
| SchedulerChecks.AtMostOnceIff | alignak/scheduler.py:1639-1713 | every run, with orphans and duplicated results, consumes each check at most once if and only if nothing is ever consumed or 1 <= delete tick <= consume tick |
| SchedulerChecks.RunInv | alignak/scheduler.py:1977-1992 | with such ticks every run keeps: consumed checks are zombies or gone, nothing is consumed twice, and no deletion was missed while a zombie is left |
| SchedulerChecks.ConsumedTwice | alignak/scheduler.py:2312-2326 | for every other pair of ticks, a run in which a check is orphaned, answered twice and consumed twice |
| SchedulerChecks.ManageResultsEffect | alignak/scheduler.py:1066-1097 | results of unknown checks are dropped, the others make their check wait for consumption whatever its status, and nothing else changes |
| SchedulerChecks.ConsumeKnown | alignak/scheduler.py:1639-1668 | consuming while no zombie is left consumes nothing that was consumed before |
| SchedulerChecks.NoCheckForgotten | alignak/scheduler.py:1701-1713 | in every run, with any ticks, orphans and repeated results, each check that was ever added is still known or has been consumed, and zombies have been consumed |
| SchedulerChecks.OrphanEffect | alignak/scheduler.py:1977-1992 | a check with a poller is scheduled again if and only if it is late, and every other check keeps its status |
| SchedulerChecks.AddedOnce | alignak/scheduler.py:537-553 | adding a known check changes nothing; a new one is scheduled and the others are kept |
| SchedulerObject.Scheduler.NewCheck | alignak/scheduler.py:537-553 | a check with a known uuid is ignored, another one is added as scheduled |
| SchedulerObject.Scheduler.GetToRunChecks | alignak/scheduler.py:886-923 | exactly the scheduled and launchable checks are returned and marked as with a poller |
| SchedulerObject.Scheduler.ConsumeResults | alignak/scheduler.py:1639-1668 | all waiting results are managed, then every check that waits is consumed once and becomes a zombie |
| SchedulerObject.ConsumeWaiting | alignak/scheduler.py:1646-1668 | the second loop touches exactly the waiting checks, and records each once |
| SchedulerObject.Scheduler.DeleteZombieChecks | alignak/scheduler.py:1701-1713 | exactly the zombies are deleted |
| SchedulerObject.Scheduler.ReenableOrphans | alignak/scheduler.py:1977-1992 | exactly the late checks that are with a poller are scheduled again |
| SchedulerObject.Scheduler.RunOnce | alignak/scheduler.py:2312-2326 | one loop turn: consumption comes before deletion, each only when its tick is due |
| Satellites.RunKeptIff | alignak/satellite.py:654-699 | in every run with any deaths, an action is, whenever it is known, tagged with a listed worker of its module that carries it or is dead and not yet buried, or its result is on its way, if and only if a worker of its module is listed each time it arrives and alive at each pass that finds it unanswered |
| Satellites.StepKeptIff | alignak/satellite.py:668-699 | each step keeps that for one action if and only if it gives this action what it needs, whatever it does to others |
| Satellites.ReceiveKeptIff | alignak/satellite.py:788-805 | a list of actions that is gone through keeps an action if and only if a worker is listed for the module under which it comes first, or it is known or not in the list; a list that the source gives up on is the part it looked at |
| Satellites.PassKeptIff | alignak/satellite.py:683-699 | a pass over all actions keeps it if and only if the action is answered or a worker of its module survives |
| Satellites.RecoveryIff | alignak/satellite.py:683-699 | after a pass, however many workers died, a held action is with a listed, living worker that carries it if and only if a worker of its module survived |
| Satellites.DeathIsRecovered | alignak/satellite.py:668-699 | when a worker dies, the pass takes it off the list, and the actions it held are safe if another worker of their module survives |
| Satellites.PassMakesStuckIff | alignak/satellite.py:688-696 | a pass leaves an unanswered action that no living worker carries stuck if and only if no worker of its module survives |
| Satellites.ArrivalMakesStuckIff | alignak/satellite.py:734-749 | a new action is stuck from its arrival if and only if no worker is listed for its module |
| Satellites.NoWorkerStuck | alignak/satellite.py:745-749 | a poller without workers that receives one action has it stuck |
| Satellites.StuckForever | alignak/satellite.py:797-802 | no later run, receiving the action again included, ever returns the result of a stuck action |
| Satellites.AssignSelf | alignak/satellite.py:804-822 | an action for whose module a worker is listed ends up tagged with such a worker and in its queue |
| Satellites.QueuesMembers | alignak/satellite.py:745-746 | the queues gone through are exactly those of the workers listed for the module |
| Satellites.LoadBalanced | alignak/satellite.py:751-757 | after any number of picks over n queues, from any index, the numbers of picks of two queues differ by at most one |
| Satellites.BatchFollowsPicks | alignak/satellite.py:788-822 | a batch of new actions in which only one module has workers sends to its i-th queue as many messages as round robin picks i |
| Satellites.BatchBalanced | alignak/satellite.py:788-805 | such a batch leaves no worker of the module more than one message ahead of another |
| Satellites.AlwaysBalancesIff | alignak/satellite.py:751-757 | every batch of new actions, of any modules, leaves the workers of a module within one message of each other if and only if there are not two of them or no worker is listed for another module |
| Satellites.SharedCounterUnbalances | alignak/satellite.py:751-757 | with two workers of one module and one of another, a concrete batch that alternates between the modules gives both actions of the first one to the same worker |
| SatelliteObject.Satellite.GetQueueForTheAction | alignak/satellite.py:734-757 | raises exactly for a module without an entry; no worker and an unchanged index when it has no queue; else the next index and its worker, listed for the module |
| SatelliteObject.Satellite.AssignToAQueue | alignak/satellite.py:807-822 | tags and queues the action with the picked worker, or leaves everything unchanged; raises exactly for a module without an entry |
| SatelliteObject.Satellite.AddNewActions | alignak/satellite.py:788-805 | the loop skips known actions and queues the others in order; it raises at the first new action whose module has no entry, which stays registered, and leaves the rest of the list untouched; which actions are kept follows from the part looked at |
| SatelliteObject.Satellite.ManageActionReturn | alignak/satellite.py:462-502 | the action leaves the link, if it is there, and joins the home-run map |
| SatelliteObject.Satellite.PushResults | alignak/satellite.py:504-538 | all results are handed over and the map is emptied |
| SatelliteObject.FindDead | alignak/satellite.py:668-682 | collects the listed workers that are dead |
| SatelliteObject.Satellite.RequeueActionsOf | alignak/satellite.py:690-696 | goes through the actions and queues again those tagged with the dead worker; never raises |
| SatelliteObject.Satellite.CheckAndDelZombieWorkers | alignak/satellite.py:654-699 | buries the dead workers one after the other, requeueing before the next one is removed |
| Workers.RunBalanced | alignak/worker.py:386-420 | in every worker run, actions got = actions finished + checks held, and never more than the limit is held |
| Workers.TakingIsConservative | alignak/worker.py:241-280 | the uuids held, followed by those still asked for in the queue, are the same before and after, in the same order |
| Workers.FinishingIsConservative | alignak/worker.py:305-337 | what is still held plus what was sent back is what was held |
| Workers.SentBackIff | alignak/worker.py:305-337 | a check goes back if and only if its status after polling is done or timed out, and is held on if and only if it is queued or launched |
| Workers.TakingIsMaximal | alignak/worker.py:250-280 | taking stops only at the limit or at an empty queue, and every ping met is answered |
| Workers.LaunchesTheQueued | alignak/worker.py:282-303 | every queued check gets the outcome of its launch, every other one keeps its status |
| Workers.LaunchIsCounted | alignak/worker.py:282-303 | the launched counter grows by the number of queued checks |
| Workers.DiesWithoutFiles | alignak/worker.py:282-303 | the worker is dying afterwards if and only if it was, or a launch ran out of files |
| Workers.DyingTakesNothing | alignak/worker.py:412-420 | a dying worker takes and launches nothing and stays dying |
| Workers.TurnLaunches | alignak/worker.py:412-420 | a turn launches every queued check, those just taken included |
| WorkerObject.Worker.TakeNewChecks | alignak/worker.py:241-280 | the loop over the queue stops at the limit or at an empty queue, answers pings and drops unknown messages |
| WorkerObject.Worker.StartChecks | alignak/worker.py:282-303 | every queued check is launched and counted once; too many open files makes the worker die |
| WorkerObject.Worker.FinishChecks | alignak/worker.py:305-337 | finished and timed-out checks leave the list, are counted and sent back |
| WorkerObject.SplitChecks | alignak/worker.py:316-337 | launched checks are polled; those that are over are separated from those that run on, both in order |
| LoopSearch.EmptyReportIffAcyclic | alignak/graph.py:101-125 | the report is empty if and only if the graph is acyclic |
| LoopSearch.EveryCycleNodeIsReported | alignak/graph.py:101-125 | every node on a cycle is reported |
| LoopSearch.OnlyCycleLeadersAreReported | alignak/graph.py:101-125 | every reported node is on a cycle or reaches one |
| LoopSearch.OkayIffNoCycle | alignak/graph.py:127-170 | a visited node ends with the okay colour if and only if it reaches no cycle |
| LoopSearch.ColourMeaning | alignak/graph.py:118-125 | a node is coloured as inside a loop after the search from it exactly when it leads to a cycle and lies behind an earlier or the same start |
| LoopSearch.ReportsExactlyCyclesIffNoStray | alignak/graph.py:101-108 | the report is exactly the nodes on cycles if and only if no off-cycle node that leads to a cycle lies behind an earlier node |
| LoopSearch.ReportedOffCycle | alignak/graph.py:101-125 | a concrete graph in which a node on no cycle is reported |
| LoopSearch.PushKeepsInv | alignak/graph.py:134-136 | marking a node as being on the stack keeps the colour invariant |
| LoopSearch.StepSound | alignak/graph.py:138-163 | rewriting the colours of a node and its son while both may be on the stack keeps the colour invariant |
| LoopSearch.PopKeepsInv | alignak/graph.py:165-170 | a node all of whose sons are done and that is still temporary may become okay |
| DependencyGraph.Graph.AddNode | alignak/graph.py:62-69 | the node has no sons afterwards, and keeps its place if it was there |
| DependencyGraph.Graph.AddEdge | alignak/graph.py:81-99 | adds missing ends and appends the edge |
| Graphs.WithEdgeAppends | alignak/graph.py:81-99 | the edge comes last among the sons of its start, the ends are nodes, and nothing else changes |
| DependencyGraph.Graph.LoopCheck | alignak/graph.py:101-125 | returns the report; it is empty if and only if the graph is acyclic |
| DependencyGraph.Graph.DfsLoopSearch | alignak/graph.py:127-170 | ends because unchecked nodes decrease, keeps the colour invariant, settles its root, and reaches only what the root reaches |
| DependencyGraph.Graph.ScanSon | alignak/graph.py:138-163 | one turn of the loop over the sons |
| DependencyGraph.Graph.GetAccessibilityPacks | alignak/graph.py:172-195 | returns the packs, on every graph, and they keep the promise exactly under that condition |
| DependencyGraph.Graph.DfsGetAllChilds | alignak/graph.py:197-218 | returns exactly what it newly marked, all of it at or below the root and closed under sons not visited before |
| Packs.PromiseKeptIff | alignak/graph.py:172-195 | the packs cover all nodes, are disjoint, and each is all that is joined to one of its nodes by edges in whatever direction, if and only if no node that a start finds new has an edge to a node seen from an earlier start |
| Packs.PartitionIff | alignak/graph.py:172-218 | the packs are disjoint, cover all nodes and are the components of mutual reachability if and only if every edge can be walked back by some path |
| Packs.DisjointIff | alignak/graph.py:172-218 | the same condition as for the whole promise is already necessary for the packs to be disjoint |
| Packs.SymmetricEdgesReturn | alignak/graph.py:81-99 | a graph whose edges are all added both ways meets the condition for components |
| Packs.GatheredIsPack | alignak/graph.py:197-218 | on every graph, what one descent gathers is everything at or below its root not seen by an earlier start, and the root |
| Packs.OneWayEdgeOverlaps | alignak/graph.py:172-195 | a concrete graph with a single one-way edge: two packs that overlap in one order of its nodes, one pack that keeps the promise in the other |
| DateRangeSearch.NextValidIsLeast | alignak/daterange.py:517-553 | for weekly and calendar ranges with timely and covered starts, the search returns the least valid time at or after t, and none exactly when there is none |
| DateRangeSearch.WeeklyAlwaysFinds | alignak/daterange.py:517-553 | a weekly range with a time range always has a next valid time |
| DateRangeSearch.SearchRightIff | alignak/daterange.py:495-553 | for all time ranges of two-digit hours and minutes, the search is right at every time if and only if every start in the day is a covered second and no range starts at 24:00 or later unless the last second of the day is covered; for a calendar interval that ends before it starts, if and only if there is no time range |
| DateRangeSearch.UncoveredStartMisleads | alignak/daterange.py:454-471 | at a start that no range covers the search is wrong |
| DateRangeSearch.LateStartMisleads | alignak/daterange.py:454-471 | with a start at 24:00 or later and the last second of the day free, the search is wrong at the end of a last day |
| DateRangeSearch.OrderedRangesCoverStarts | alignak/daterange.py:254-287 | time ranges whose start is not after their end have covered starts, however they overlap |
| DateRangeSearch.ReversedCalendarIff | alignak/daterange.py:495-515 | for a calendar interval that ends before it starts, the search is right at t if and only if the start has passed |
| DateRangeSearch.ValidUntilNextInvalid | alignak/daterange.py:591-637 | when the last second of the day is not covered or some range ends at 24:00, every time from t up to the returned one is valid |
| DateRangeSearch.AlwaysValidUntilIff | alignak/daterange.py:473-493 | for all time ranges, every time up to the answer is valid, at all t, if and only if that condition holds or the calendar interval is reversed |
| DateRangeSearch.LateEndMisleads | alignak/daterange.py:473-493 | otherwise, from the last second of a last day, the answer lies after a midnight that is invalid |
| DateRangeSearch.AfterMidnightMisleads | alignak/daterange.py:473-493 | for 00:00-24:30 on mondays, the search from monday midnight answers 00:30:01 on tuesday, after a midnight that is invalid |
| DateRangeSearch.NextInvalidIsLeast | alignak/daterange.py:591-637 | under that condition, and when no range runs on into another, the search returns the least invalid time, midnight after 24:00 included |
| DateRangeSearch.InvalidSearchRightIff | alignak/daterange.py:555-637 | for all time ranges, the search is right at every time if and only if the last second of the day is not covered or some range ends at 24:00, no last second is followed by a covered one, within a day or across midnight, or the calendar interval is reversed |
| DateRangeSearch.TouchingRangesMislead | alignak/daterange.py:591-637 | where a last second in the day is followed by a valid one, the search stops at a time that is still valid |
| DateRangeSearch.InnerEndMisleads | alignak/daterange.py:473-493 | beside a range for the whole day, the search stops at the end of any other range, even one that starts after its end |
| DateRangeSearch.EmptyRangeMisleads | alignak/daterange.py:473-493 | for 00:00-24:00 and 22:00-06:00 on any day, the search from five in the morning answers 06:00:01, which is valid |
| DateRanges.NextStartIsLeast | alignak/daterange.py:454-471 | the start found is the least one that is not before the given second, and none is found exactly when all are before |
| DateRanges.NextEndIsLeast | alignak/daterange.py:473-493 | the same for the ends, with 24:00 read as the last second of the day |
| DateRanges.ValidInCoordinates | alignak/daterange.py:433-442 | comparing timestamps with start and end of the period is the same as looking at the day and the second of the day |
| DateRanges.CoversByTheClock | alignak/daterange.py:273-287 | for minutes below 60, a time of day is covered if and only if it is not before the start and not after the end, by the hour first and then the minute |
| DateRanges.LocalTime | alignak/daterange.py:124-136 | the day and the second of the day make up the local time |
| DateRanges.CheckTime | alignak/daterange.py:384-396 | the loop over the time ranges decides validity |
| DateRanges.GetNextFutureTimerangeValid | alignak/daterange.py:454-471 | the accumulating loop computes the next start |
| DateRanges.GetNextFutureTimerangeInvalid | alignak/daterange.py:473-493 | the accumulating loop computes the next end |
| BusinessRuleRoundTrip.RoundTrip | alignak/dependencynode.py:500-607 | for every rule of &, \| and of: groups, with every name bare or in parentheses, every part negated or not and any spaces between the parts, parsing its text gives operators, thresholds (0 for all sons), sons in order and negations |
| BusinessRuleRoundTrip.HeaderSimple | alignak/dependencynode.py:455-482 | a simple of: prefix is recognised with its value, and taken off with the spaces after it |
| BusinessRuleRoundTrip.HeaderMultiple | alignak/dependencynode.py:455-482 | a multiple of: prefix is recognised with its three values, and taken off with the spaces after it |
| BusinessRuleRoundTrip.SonScanned | alignak/dependencynode.py:507-602 | after the text of a son, bare or in parentheses and with spaces before it, the scan holds exactly its tree, negated if it was, or its name with the pending NOT |
| BusinessRuleRoundTrip.SonsScanned | alignak/dependencynode.py:507-602 | scanning sons with an operator between them appends the tree of every one, in order, and sets the operator |
| BusinessRuleRoundTrip.OperatorsInText | alignak/dependencynode.py:568-602 | for all names, a&b parses to the conjunction of both and a\|b to their disjunction |
| BusinessRuleRoundTrip.MixedIsMissing | alignak/dependencynode.py:572-575 | two sons, in any form, followed by two different operators have no tree, whatever follows |
| BusinessRuleRoundTrip.NegatedMixRaises | alignak/dependencynode.py:533-541 | ! before a parenthesised mix of & and \| raises |
| BusinessRuleRoundTrip.LoneNameIsLeaf | alignak/dependencynode.py:609-632 | a single name after an of: prefix, without parentheses, is a leaf, which the prefix does not influence |
| BusinessRuleRoundTrip.BangNameParsed | alignak/dependencynode.py:624-632 | ! directly before a name negates it |
| BusinessRuleRoundTrip.LateBangDropped | alignak/dependencynode.py:559-566 | a ! after the start of a name changes nothing |
| BusinessRuleParser.MatchXof | alignak/dependencynode.py:467-482 | the text left after an of: prefix is strictly shorter |
| BusinessRuleParser.OneChar | alignak/dependencynode.py:507-590 | each character adds at most one to the text gathered, and the first special character met adds nothing, so every sub-pattern is shorter than the pattern |
| BusinessRuleParser.EvalCorPattern | alignak/dependencynode.py:424-453 | ends on every string, balanced or not, with the tree or the failure of the parser function |
| BusinessRuleParser.EvalComplexCorPattern | alignak/dependencynode.py:484-607 | the same for complex patterns; mixing operators fails |
| BusinessRuleParser.ScanPattern | alignak/dependencynode.py:507-607 | the character loop agrees with the recursive scan |
| BusinessRuleParser.ScanChar | alignak/dependencynode.py:508-590 | the branches taken for one character, errors included |
| BusinessRuleMeaning.CompiledState | alignak/dependencynode.py:147-178 | for every written form of a rule, parsing the text and evaluating the result gives the state of the rule, for all states of hosts and services |
| BusinessRuleMeaning.WriteIsLegible | alignak/dependencynode.py:484-607 | every rule with non-empty groups and non-zero values has such a form, with bare names (a lone son in parentheses) and any number of spaces around the operators |
| BusinessRuleMeaning.StateOfText | alignak/dependencynode.py:223-264 | the text a&b has the worse of the states of the two names, and a\|b the better one |
| BusinessRuleMeaning.ParsedSimpleOnes | alignak/dependencynode.py:381-393 | in the rule parsed from any text, every simple of: group wants as many warnings, and as many criticals, as it has sons |
| BusinessRuleMeaning.ParsedSet | alignak/dependencynode.py:467-482 | the same on the texts of the values, for every node of every parsed tree |
| BusinessRuleMeaning.ThresholdRead | alignak/dependencynode.py:314-327 | the text of a count, a negative count or a percentage is read as that value |
| BusinessRuleState.StateInRange | alignak/dependencynode.py:147-178 | with items in 0, 1, 2 the state of every rule is in 0, 1, 2 |
| BusinessRuleState.GroupIsExtreme | alignak/dependencynode.py:223-264 | the state of an & group is the state of one of its sons and not better than any; that of an \| group is the state of a son and not worse than any |
| BusinessRuleState.LeafStates | alignak/dependencynode.py:180-221 | ok, acknowledged and in downtime count as ok; any other host is critical, any other service has its own state |
| BusinessRuleState.AppliesMeaning | alignak/dependencynode.py:301-327 | a threshold asks for a count, for all but a count, for a percentage or for all but a percentage, said without division |
| BusinessRuleState.FlipReverses | alignak/dependencynode.py:124-145 | toggling NOT at a node reverses its state, whatever the rule |
| BusinessRuleState.PushNotState | alignak/dependencynode.py:223-264 | pushing NOT to the leaves while swapping & and \| keeps the state, and leaves only leaves negated |
| BusinessRuleState.StateMonotone | alignak/dependencynode.py:223-264 | worsening any set of items never improves a rule without NOT over &, \|, multiple of: and the simple of: rules that one ok son satisfies |
| BusinessRuleState.MultipleOfMonotone | alignak/dependencynode.py:281-341 | a multiple of: rule with counts, negative counts or percentages is monotone in its sons |
| BusinessRuleState.SimpleOfMonotoneIff | alignak/dependencynode.py:281-361 | a simple of: rule is monotone if and only if it has one son or one ok son is enough for it |
| BusinessRuleState.SimpleOfImproves | alignak/dependencynode.py:341-361 | for every other simple of: rule, an ok son turning into a warning improves the state from critical to warning |
| BusinessRuleState.DocumentedIff | alignak/dependencynode.py:266-361 | the of: state is the documented one if and only if a threshold applies or the worst state is ok |
| BusinessRuleState.FallbacksSwapped | alignak/dependencynode.py:343-361 | concrete sons for which the simple and the multiple form each give the answer documented for the other |
| BusinessRuleState.GetXofState | alignak/dependencynode.py:266-361 | the counting loop computes the of: state |
| GroupExpressionMeaning.CompiledMeaning | alignak/complexexpression.py:72-114 | for every parenthesised expression with NOT on names only that is not a lone negated name, resolving the parsed text selects exactly the elements it denotes |
| GroupExpressionMeaning.CompiledRightIff | alignak/complexexpression.py:79-84 | an expression is compiled to its meaning if and only if it is not a lone negated name, whose NOT is ignored |
| GroupExpressionMeaning.ParsePrint | alignak/complexexpression.py:147-261 | parsing the printed text gives the tree of the expression |
| GroupExpressionForms.ParseWritten | alignak/complexexpression.py:147-261 | for every expression with each part bare or in parentheses, names negated or not, and any spaces, parsing its text gives the tree of the expression |
| GroupExpressionForms.WrittenRightIff | alignak/complexexpression.py:72-114 | in each of these forms the text selects what the expression denotes, for every lookup, if and only if it is not a lone negated name |
| GroupExpressionForms.SeparatorsInText | alignak/complexexpression.py:188-211 | for all names, a,b and a\|b unite, a&b and a+b intersect |
| GroupExpressionForms.LastSeparatorDecides | alignak/complexexpression.py:188-211 | three parts, in any form, with two separators between them are joined by the last one |
| GroupExpressionMeaning.TreeSelects | alignak/complexexpression.py:72-114 | the tree selects what the expression denotes (union or intersection of the positive parts, minus the negated ones), and the complement of it for a lone negated name |
| GroupExpressionMeaning.BangMovesInside | alignak/complexexpression.py:188-259 | a ! before a parenthesised expression is read as a ! before its first name, at any depth |
| GroupExpressionMeaning.BangNegatesIff | alignak/complexexpression.py:170-186 | the part read from !(e) counts as negated if and only if e is a name |
| GroupExpressionMeaning.SubtractsIff | alignak/complexexpression.py:72-114 | for every name n, (n)&!(e) selects the elements of n that e does not select, if and only if e is a plain name |
| GroupExpressionMeaning.NotBeforeListMisleads | alignak/complexexpression.py:188-259 | what (x)&!((a)\|(b)) selects, for every lookup, beside what (a)\|(b) denotes |
| GroupExpressionParser.SonsOrderIsIrrelevant | alignak/complexexpression.py:72-114 | the order and multiplicity of sons do not matter |
| GroupExpressionParser.OneChar | alignak/complexexpression.py:188-246 | each character adds at most one to the text gathered, and the first special character met adds nothing, so every sub-pattern is shorter than the pattern |
| GroupExpressionParser.EvalCorPattern | alignak/complexexpression.py:147-261 | ends on every string, balanced or not, with the tree of the parser function |
| GroupExpressionParser.ScanChar | alignak/complexexpression.py:188-246 | the branches taken for one character |
| GroupExpressionParser.ResolveElements | alignak/complexexpression.py:72-114 | the two loops over the sons return exactly the members of the tree |
| Downtimes.StepGoodIff | alignak/downtime.py:189-196 | from a good state (counter = downtimes in effect, flag iff positive, no deletable downtime in effect, log alternates) a step leads to a good one if and only if it triggers no deletable downtime and cancels none that is not in effect |
| Downtimes.EarlyCancel | alignak/downtime.py:294-305 | cancelling a fixed downtime before it starts leaves the counter at -1 |
| Downtimes.RunGoodIff | alignak/scheduler.py:1779-1805 | a run is good throughout if and only if all its steps are like that, whatever the clock does |
| Downtimes.RunGood | alignak/scheduler.py:1779-1805 | a run with such steps only ends in a good state |
| Downtimes.FixedRunGood | alignak/scheduler.py:1797-1805 | with fixed downtimes only, every run stays good |
| Downtimes.DriftLaw | alignak/downtime.py:247-269 | the exact change of counter minus downtimes in effect, for every step: only forgetting downtimes in effect and cancelling one not in effect change it |
| Downtimes.ProblemGoodIff | alignak/objects/schedulingitem.py:1529-1540 | a problem keeps the state good if and only if no deletable flexible downtime has its window open |
| Downtimes.FixedFollowsTheClock | alignak/scheduler.py:1797-1805 | after a tick, a kept fixed downtime is in effect if and only if the time lies between its start and its end; an ended one goes at the next tick |
| Downtimes.NewFixedFollowsTheClock | alignak/downtime.py:117-142 | that for a fixed downtime just created with a start and an end |
| Downtimes.CreatedAsGiven | alignak/downtime.py:117-142 | a new downtime has the start and end given, is not in effect, and lasts from one to the other if it is fixed |
| Downtimes.TriggeredIff | alignak/objects/schedulingitem.py:1529-1540 | a problem puts a downtime in effect if and only if it is flexible and its window holds the last check |
| Downtimes.EventsLogged | alignak/downtime.py:189-305 | only the first entry, the last exit and the last cancel are logged, each with its own event |
| Downtimes.LeftIsGone | alignak/downtime.py:229-305 | a downtime that was left or cancelled is gone after the next sweep; the others stay as they are |
| Downtimes.FlexibleLastsItsDuration | alignak/downtime.py:174-196 | a flexible downtime that was entered is still in effect at a tick if and only if its duration has not passed since |
| Downtimes.LeakHappens | alignak/objects/schedulingitem.py:1529-1540 | a concrete run after which no downtime is left but the item is in downtime |
| Downtimes.LeakIsForever | alignak/downtime.py:247-269 | once the counter is ahead, no run that cancels only downtimes in effect ever ends the item's downtime |
| DowntimeItem.Item.EnterDowntime | alignak/downtime.py:174-196 | in effect, counted, flagged; the end of a flexible one is set; logged only when it is the first |
| DowntimeItem.Item.ExitDowntime | alignak/downtime.py:229-269 | no longer in effect and deletable; uncounted only if it was in effect; flag and log only when it was the last |
| DowntimeItem.Item.CancelDowntime | alignak/downtime.py:279-305 | uncounted unconditionally; flag and log only when it was the last |
| DowntimeItem.Item.UpdateDowntimes | alignak/scheduler.py:1779-1805 | deletes what is deletable, then ends or starts each downtime |
| DowntimeItem.Item.CheckForFlexibleDowntime | alignak/objects/schedulingitem.py:1529-1540 | enters each flexible downtime whose window holds the last check |
| Dispatch.RunSound | alignak/dispatcher.py:838-943 | in every run the two flags are never both set, and since the last prepare each daemon was sent at most one configuration plus one per answer that it has none |
| Dispatch.RunSendsNothingAstray | alignak/dispatcher.py:857-938 | in every run nothing is sent to a daemon that is not active or to a master arbiter |
| Dispatch.UnmanagedIsNoted | alignak/dispatcher.py:339-447 | checking the dispatch after a first one never raises, and leaves it as done if and only if all parts are managed |
| Dispatch.CheckReachableNeverRaises | alignak/dispatcher.py:278-295 | polling the daemons never makes dispatch raise, and keeps the invariant |
| Dispatch.RaisesIff | alignak/dispatcher.py:514-519 | exactly which operation raises in which state |
| Dispatch.DispatchReachesEveryoneIff | alignak/dispatcher.py:857-943 | a dispatch always declares itself done, but everyone has a configuration if and only if everyone who lacked one was reachable |
| Dispatch.UnreachableIsSkipped | alignak/dispatcher.py:896-943 | a dispatch with a single, unreachable scheduler that declares itself done |
| Dispatch.PollSendsIff | alignak/dispatcher.py:229-295 | for every arbiter, scheduler and satellite: reachability is what it answered, and its configuration is sent exactly when the poll dispatches and it lacks one |
| Dispatch.NotConfiguredIff | alignak/dispatcher.py:255-276 | which answers make a daemon count as not configured: a timeout, having none, or managing one before the first dispatch; a connection that is too recent does not |
| Dispatch.LostConfigurationIsSentAgain | alignak/dispatcher.py:262-295 | after a first dispatch, an active and reachable daemon that answers that it has no configuration is sent it again at once |
| Dispatch.PreparedIsSentIff | alignak/dispatcher.py:514-519 | for each daemon, whether a dispatch right after a prepare sends it a configuration: if and only if dispatch_ok was not left set, and the daemon is active, reachable and lacks one |
| Dispatch.SecondConfigurationStays | alignak/dispatcher.py:853-855 | in the run prepare, dispatch, prepare, dispatch of any new dispatcher, the first configuration is sent to every scheduler that can get it, the second one to none |
| Dispatch.SecondConfigurationIsNotSent | alignak/dispatcher.py:853-855 | that run for one active and reachable scheduler |
| DispatcherObject.SendTo | alignak/dispatcher.py:861-938 | each of the three loops sends exactly to the active, reachable daemons not yet sent to |
| DispatcherObject.Dispatcher.DispatchConfigurations | alignak/dispatcher.py:838-943 | raises and changes nothing, does nothing, or sends and sets the flags |
| DispatcherObject.Poll | alignak/dispatcher.py:229-276 | the loop updates each polled daemon and tells whether one is not configured |
| DispatcherObject.Dispatcher.PollDaemons | alignak/dispatcher.py:213-297 | polls all daemons, then dispatches when one is not configured |
| SchedulerAssignment.AssignPartsComplete | alignak/dispatcher.py:617-733 | new parts and their schedulers point at each other, nothing else changes, the number assigned is the least of parts and schedulers in need, and those served are the last ones in need in the list |
| SchedulerAssignment.AssignmentInjective | alignak/dispatcher.py:592-733 | over all realms, no scheduler gets two parts |
| SchedulerAssignment.PrepareRealmLinked | alignak/dispatcher.py:595-733 | the same inverse links and number for a realm as prepared, with nothing to do or no candidate included |
| SchedulerAssignment.RealmsProcessed | alignak/dispatcher.py:592-733 | the realms are prepared in order up to the first one that ends the pass, and each of them gets as many parts as it has to give and schedulers in need |
| SchedulerAssignment.IdleRealmPassedOver | alignak/dispatcher.py:595-613 | a realm with nothing to dispatch or without scheduler changes nothing and does not end the pass |
| SchedulerAssignment.MastersFirstIff | alignak/dispatcher.py:623-643 | a spare is never preferred to a master if and only if there is nothing to give, no spare or no master in need, or enough parts for all |
| SchedulerAssignment.SpareIsPreferred | alignak/dispatcher.py:621-645 | with one part, a master and a spare in need, the spare gets it |
| SchedulerAssignment.PopUntilNeeded | alignak/dispatcher.py:623-645 | popping stops at the last scheduler of the list that needs a configuration, and passes over none that does |
| SchedulerAssignment.Preparation.PopScheduler | alignak/dispatcher.py:621-645 | the inner loop finds that scheduler, or none when the list is exhausted |
| SchedulerAssignment.Preparation.AssignRealm | alignak/dispatcher.py:617-733 | the loop over the parts assigns as the recursive function does |

## Left out

- Local time is a fixed offset from UTC; daylight saving and zone changes are not modelled.
- Month-based date ranges (alignak/daterange.py:831-1058): they overwrite their own years when used, so results depend on earlier calls.
- Time ranges whose text does not parse; a `TimeRange` is always made of numbers.
- `item.consume_result`: consumption is the change from waiting to zombie. Dependent checks and the loop that resolves them (alignak/scheduler.py:1670-1699) are not part of this model.
- Passive and internal checks, poller tags, and the actions other than checks; the set of launchable checks is a parameter.
- The value model of the satellite treats a module without an entry in `q_by_mod` like one without workers; that the source then raises is part of `SatelliteObject`.
- Each poller has one scheduler link, and its links are always active; un-serialization errors of actions are not modelled.
- A worker that dies between taking an action out of its queue and listing it, and messages lost inside a process queue.
- In the fault-free protocol a worker moves one action at a time; `Workers` models the batches of one turn.
- The real process handling of workers, the pause before reading, and the turning off of a worker that is asked to stop.
- Which host or service a name stands for (`find_object`) and the expansion of regular expressions, flags and filters in business rules.
- In the parser of business rules: values of an of: prefix that are no number, the threshold values kept by & and \| nodes, which nothing reads, and digits other than ASCII ones in an of: prefix.
- The round trips cover texts with matching parentheses; the parsers themselves are modelled, and end, on every text.
- Percentages of of: rules are computed over the reals, not over floating point.
- UNKNOWN states (3) in the laws of the state algebra, and nodes without operator or without sons.
- Triggered downtimes, downtimes of contacts, comments, notifications and broks.
- The configuration parts given to satellites, hashes, serialization and the HTTP calls of the dispatcher; which links a prepare gives a configuration is a parameter.
- How `check_dispatch` decides that a part is managed; its verdict is a parameter.
- Which schedulers a realm may use: the list is a parameter, with masters first where the order matters (alignak/util.py:726-748).
- Notifications, retention, external commands, macros, modules, properties and logs would add only easy members or lie outside the code.
