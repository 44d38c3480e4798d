/** The dispatch of configurations to the daemons: the flags that say whether a
    configuration is prepared and sent, and how often each daemon is sent one. */
module Dispatch {

  datatype Kind = Myself | OtherMaster | SpareArbiter | Scheduler | Satellite

  /** A daemon link. sent counts the configurations put since the last prepare,
      none the times the daemon answered since then that it has none. */
  datatype Link = Link(kind: Kind, active: bool, reachable: bool, configurationSent: bool,
                       sent: nat, none: nat)

  datatype State = State(newToDispatch: bool, firstDispatchDone: bool, dispatchOk: bool,
                         arbiters: seq<Link>, schedulers: seq<Link>, satellites: seq<Link>)

  /** An operation ends, or raises a DispatcherError and changes nothing. */
  datatype Outcome = Done(state: State) | Raises

  // ---------------------------------------------------------------- dispatch

  /** The daemons a configuration is meant for. */
  predicate Wants(l: Link) {
    l.active && (l.kind == SpareArbiter || l.kind == Scheduler || l.kind == Satellite)
  }

  predicate CanSend(l: Link) { Wants(l) && !l.configurationSent && l.reachable }

  function Send(l: Link): Link {
    if CanSend(l) then l.(configurationSent := true, sent := l.sent + 1) else l
  }

  function SendAll(links: seq<Link>): (r: seq<Link>)
    ensures |r| == |links|
    ensures forall i :: 0 <= i < |links| ==> r[i] == Send(links[i])
  {
    seq(|links|, i requires 0 <= i < |links| => Send(links[i]))
  }

  function DispatchAll(s: State): Outcome {
    if !s.newToDispatch || s.firstDispatchDone then Raises
    else if s.dispatchOk then Done(s)
    else Done(State(false, true, true, SendAll(s.arbiters), SendAll(s.schedulers), SendAll(s.satellites)))
  }

  // ---------------------------------------------------------------- polling

  datatype Reply = TooRecent | TimedOut | Manages | HasNone

  /** What a poll of a daemon yields, and whether it is reachable afterwards. */
  datatype Answer = Answer(reply: Reply, reachable: bool)

  predicate Polled(l: Link) { l.kind != Myself && l.active }

  function Hear(l: Link, a: Answer): Link {
    if !Polled(l) then l
    else if a.reply == HasNone then l.(reachable := a.reachable, configurationSent := false, none := l.none + 1)
    else l.(reachable := a.reachable)
  }

  predicate NotConfigured(l: Link, a: Answer, firstDispatchDone: bool) {
    Polled(l) && (a.reply == TimedOut || a.reply == HasNone || (a.reply == Manages && !firstDispatchDone))
  }

  function HearAll(links: seq<Link>, answers: seq<Answer>): (r: seq<Link>)
    requires |answers| == |links|
    ensures |r| == |links|
    ensures forall i :: 0 <= i < |links| ==> r[i] == Hear(links[i], answers[i])
  {
    seq(|links|, i requires 0 <= i < |links| => Hear(links[i], answers[i]))
  }

  predicate AnyNotConfigured(links: seq<Link>, answers: seq<Answer>, done: bool)
    requires |answers| == |links|
  {
    exists i :: 0 <= i < |links| && NotConfigured(links[i], answers[i], done)
  }

  datatype Answers = Answers(arbiters: seq<Answer>, schedulers: seq<Answer>, satellites: seq<Answer>)

  predicate Fits(s: State, a: Answers) {
    |a.arbiters| == |s.arbiters| && |a.schedulers| == |s.schedulers| && |a.satellites| == |s.satellites|
  }

  predicate SomeNotConfigured(s: State, a: Answers)
    requires Fits(s, a)
  {
    || AnyNotConfigured(s.arbiters, a.arbiters, s.firstDispatchDone)
    || AnyNotConfigured(s.schedulers, a.schedulers, s.firstDispatchDone)
    || AnyNotConfigured(s.satellites, a.satellites, s.firstDispatchDone)
  }

  function Heard(s: State, a: Answers): State
    requires Fits(s, a)
  {
    s.(arbiters := HearAll(s.arbiters, a.arbiters), schedulers := HearAll(s.schedulers, a.schedulers),
       satellites := HearAll(s.satellites, a.satellites))
  }

  function CheckReachable(s: State, a: Answers): Outcome
    requires Fits(s, a)
  {
    var s1 := Heard(s, a);
    if SomeNotConfigured(s, a) && s.newToDispatch && !s.firstDispatchDone then
      DispatchAll(s1.(dispatchOk := false))
    else if SomeNotConfigured(s, a) && s.firstDispatchDone then
      DispatchAll(s1.(dispatchOk := false, newToDispatch := true, firstDispatchDone := false))
    else Done(s1)
  }

  /** check_dispatch; fine says whether all parts and satellites were found managed. */
  function CheckDispatch(s: State, a: Answers, fine: bool): Outcome
    requires Fits(s, a)
  {
    if !s.firstDispatchDone then Raises
    else
      match CheckReachable(s.(dispatchOk := true), a)
      case Raises => Raises
      case Done(s') => Done(s'.(dispatchOk := s'.dispatchOk && fine))
  }

  // ---------------------------------------------------------------- prepare

  /** The links that are given a configuration must be sent it again. */
  function Reset(links: seq<Link>, given: set<nat>): (r: seq<Link>)
    ensures |r| == |links|
    ensures forall i :: 0 <= i < |links| ==>
              r[i] == links[i].(sent := 0, none := 0, configurationSent := links[i].configurationSent && i !in given)
  {
    seq(|links|, i requires 0 <= i < |links| =>
      links[i].(sent := 0, none := 0, configurationSent := links[i].configurationSent && i !in given))
  }

  datatype Given = Given(arbiters: set<nat>, schedulers: set<nat>, satellites: set<nat>)

  function Prepare(s: State, g: Given): Outcome {
    if s.newToDispatch then Raises
    else Done(State(true, false, s.dispatchOk, Reset(s.arbiters, g.arbiters),
                    Reset(s.schedulers, g.schedulers), Reset(s.satellites, g.satellites)))
  }

  // ---------------------------------------------------------------- runs

  datatype Step =
    | PrepareStep(given: Given)
    | DispatchStep
    | ReachableStep(answers: Answers)
    | CheckStep(answers: Answers, fine: bool)

  predicate Possible(s: State, step: Step) {
    (step.ReachableStep? || step.CheckStep?) ==> Fits(s, step.answers)
  }

  function Perform(s: State, step: Step): Outcome
    requires Possible(s, step)
  {
    match step
    case PrepareStep(g) => Prepare(s, g)
    case DispatchStep => DispatchAll(s)
    case ReachableStep(a) => CheckReachable(s, a)
    case CheckStep(a, fine) => CheckDispatch(s, a, fine)
  }

  function Next(s: State, step: Step): State
    requires Possible(s, step)
  {
    var o := Perform(s, step);
    if o.Done? then o.state else s
  }

  predicate PossibleRun(s: State, steps: seq<Step>)
    decreases |steps|
  {
    steps != [] ==> Possible(s, steps[0]) && PossibleRun(Next(s, steps[0]), steps[1..])
  }

  function Run(s: State, steps: seq<Step>): State
    requires PossibleRun(s, steps)
    decreases |steps|
  {
    if steps == [] then s else Run(Next(s, steps[0]), steps[1..])
  }

  // ---------------------------------------------------------------- invariant

  /** A configuration is put at most once, plus once per answer that there is none. */
  predicate Accounted(l: Link) { l.sent <= l.none + if l.configurationSent then 1 else 0 }

  predicate AllAccounted(links: seq<Link>) {
    forall i :: 0 <= i < |links| ==> Accounted(links[i])
  }

  predicate Sound(s: State) {
    && !(s.newToDispatch && s.firstDispatchDone)
    && AllAccounted(s.arbiters) && AllAccounted(s.schedulers) && AllAccounted(s.satellites)
  }

  lemma DispatchSound(s: State)
    requires Sound(s)
    ensures DispatchAll(s).Done? ==> Sound(DispatchAll(s).state)
    ensures DispatchAll(s).Done? <==> s.newToDispatch
  {
  }

  lemma HeardSound(s: State, a: Answers)
    requires Sound(s) && Fits(s, a)
    ensures Sound(Heard(s, a))
  {
  }

  /** Polling the daemons never makes the dispatch it starts raise. */
  lemma CheckReachableNeverRaises(s: State, a: Answers)
    requires Sound(s) && Fits(s, a)
    ensures CheckReachable(s, a).Done? && Sound(CheckReachable(s, a).state)
  {
    HeardSound(s, a);
    var s1 := Heard(s, a);
    DispatchSound(s1.(dispatchOk := false));
    DispatchSound(s1.(dispatchOk := false, newToDispatch := true, firstDispatchDone := false));
  }

  lemma StepSound(s: State, step: Step)
    requires Sound(s) && Possible(s, step)
    ensures Sound(Next(s, step))
  {
    match step
    case PrepareStep(_) =>
    case DispatchStep => DispatchSound(s);
    case ReachableStep(a) => CheckReachableNeverRaises(s, a);
    case CheckStep(a, _) => CheckReachableNeverRaises(s.(dispatchOk := true), a);
  }

  /** In every run: never both flags, and the bound on what each daemon is sent. */
  lemma {:induction false} RunSound(s: State, steps: seq<Step>)
    requires Sound(s) && PossibleRun(s, steps)
    ensures Sound(Run(s, steps))
    decreases |steps|
  {
    if steps != [] {
      StepSound(s, steps[0]);
      RunSound(Next(s, steps[0]), steps[1..]);
    }
  }

  /** Which operations raise, and when. */
  lemma RaisesIff(s: State, step: Step)
    requires Sound(s) && Possible(s, step)
    ensures Perform(s, step).Raises? <==>
              || (step.PrepareStep? && s.newToDispatch)
              || (step.DispatchStep? && !s.newToDispatch)
              || (step.CheckStep? && !s.firstDispatchDone)
  {
    match step
    case PrepareStep(_) =>
    case DispatchStep =>
    case ReachableStep(a) => CheckReachableNeverRaises(s, a);
    case CheckStep(a, _) => CheckReachableNeverRaises(s.(dispatchOk := true), a);
  }

  // ---------------------------------------------------------------- completeness

  predicate Everyone(links: seq<Link>) {
    forall i :: 0 <= i < |links| && Wants(links[i]) ==> links[i].configurationSent
  }

  predicate Reachable(links: seq<Link>) {
    forall i :: 0 <= i < |links| && Wants(links[i]) ==> links[i].configurationSent || links[i].reachable
  }

  lemma SendAllEveryoneIff(links: seq<Link>)
    ensures Everyone(SendAll(links)) <==> Reachable(links)
  {
    var r := SendAll(links);
    if Everyone(r) {
      forall i | 0 <= i < |links| && Wants(links[i])
        ensures links[i].configurationSent || links[i].reachable
      {
        assert Wants(r[i]);
      }
    }
  }

  /** A dispatch that sends always declares itself done, but it reached everyone
      exactly when each daemon that still lacked a configuration was reachable. */
  lemma DispatchReachesEveryoneIff(s: State)
    requires s.newToDispatch && !s.firstDispatchDone && !s.dispatchOk
    ensures var s' := DispatchAll(s).state;
            && s'.firstDispatchDone && s'.dispatchOk && !s'.newToDispatch
            && ((Everyone(s'.arbiters) && Everyone(s'.schedulers) && Everyone(s'.satellites)) <==>
                (Reachable(s.arbiters) && Reachable(s.schedulers) && Reachable(s.satellites)))
  {
    SendAllEveryoneIff(s.arbiters);
    SendAllEveryoneIff(s.schedulers);
    SendAllEveryoneIff(s.satellites);
  }

  /** A dispatch that finds its only scheduler unreachable declares itself done. */
  lemma UnreachableIsSkipped()
    ensures var l := Link(Scheduler, true, false, false, 0, 0);
            DispatchAll(State(true, false, false, [], [l], [])) == Done(State(false, true, true, [], [l], []))
            && !Everyone([l])
  {
    var l := Link(Scheduler, true, false, false, 0, 0);
    assert SendAll([l]) == [l];
    assert Wants([l][0]) && ![l][0].configurationSent;
  }

  /** A daemon is polled unless it is this arbiter itself or not active; it is then as
      reachable as its answer says, and has no configuration if it says so. If sends,
      active spare arbiters, schedulers and satellites that are reachable and have
      none are sent one. */
  predicate PolledTo(links: seq<Link>, answers: seq<Answer>, links': seq<Link>, sends: bool)
    requires |answers| == |links| == |links'|
  {
    forall i :: 0 <= i < |links| ==>
      var l, a, l' := links[i], answers[i], links'[i];
      var polled := l.kind != Myself && l.active;
      var reachable := if polled then a.reachable else l.reachable;
      var has := l.configurationSent && !(polled && a.reply == HasNone);
      var gets := sends && l.active && l.kind != Myself && l.kind != OtherMaster && reachable && !has;
      && l'.kind == l.kind && l'.active == l.active && l'.reachable == reachable
      && l'.configurationSent == (has || gets) && l'.sent == l.sent + (if gets then 1 else 0)
      && l'.none == l.none + (if polled && a.reply == HasNone then 1 else 0)
  }

  /** Which answers mean that a daemon is not configured. */
  lemma NotConfiguredIff(l: Link, a: Answer, done: bool)
    requires l.kind != Myself && l.active
    ensures a.reply == TimedOut || a.reply == HasNone ==> NotConfigured(l, a, done)
    ensures a.reply == Manages ==> (NotConfigured(l, a, done) <==> !done)
    ensures a.reply == TooRecent ==> !NotConfigured(l, a, done)
  {
  }

  /** Master arbiters and daemons that are not active are never sent anything. */
  predicate NothingSent(links: seq<Link>) {
    forall i :: 0 <= i < |links| && (!links[i].active || links[i].kind == Myself || links[i].kind == OtherMaster) ==>
      links[i].sent == 0
  }

  predicate NothingSentAstray(s: State) {
    NothingSent(s.arbiters) && NothingSent(s.schedulers) && NothingSent(s.satellites)
  }

  lemma ListSendsNothingAstray(links: seq<Link>, answers: seq<Answer>, given: set<nat>)
    requires NothingSent(links)
    ensures NothingSent(SendAll(links)) && NothingSent(Reset(links, given))
    ensures |answers| == |links| ==> NothingSent(HearAll(links, answers))
  {
  }

  lemma DispatchSendsNothingAstray(s: State)
    requires NothingSentAstray(s)
    ensures DispatchAll(s).Done? ==> NothingSentAstray(DispatchAll(s).state)
  {
    ListSendsNothingAstray(s.arbiters, [], {});
    ListSendsNothingAstray(s.schedulers, [], {});
    ListSendsNothingAstray(s.satellites, [], {});
    hide SendAll, NothingSent;
  }

  lemma PollSendsNothingAstray(s: State, a: Answers)
    requires NothingSentAstray(s) && Fits(s, a)
    ensures CheckReachable(s, a).Done? ==> NothingSentAstray(CheckReachable(s, a).state)
  {
    ListSendsNothingAstray(s.arbiters, a.arbiters, {});
    ListSendsNothingAstray(s.schedulers, a.schedulers, {});
    ListSendsNothingAstray(s.satellites, a.satellites, {});
    var s1 := Heard(s, a);
    hide SendAll, HearAll, NothingSent, SomeNotConfigured, DispatchAll;
    DispatchSendsNothingAstray(s1.(dispatchOk := false));
    DispatchSendsNothingAstray(s1.(dispatchOk := false, newToDispatch := true, firstDispatchDone := false));
  }

  lemma StepSendsNothingAstray(s: State, step: Step)
    requires NothingSentAstray(s) && Possible(s, step)
    ensures NothingSentAstray(Next(s, step))
  {
    match step
    case PrepareStep(g) =>
      ListSendsNothingAstray(s.arbiters, [], g.arbiters);
      ListSendsNothingAstray(s.schedulers, [], g.schedulers);
      ListSendsNothingAstray(s.satellites, [], g.satellites);
      hide Reset, NothingSent;
    case DispatchStep => DispatchSendsNothingAstray(s);
    case ReachableStep(a) => PollSendsNothingAstray(s, a);
    case CheckStep(a, _) =>
      hide CheckReachable;
      PollSendsNothingAstray(s.(dispatchOk := true), a);
  }

  lemma {:induction false} RunSendsNothingAstray(s: State, steps: seq<Step>)
    requires NothingSentAstray(s) && PossibleRun(s, steps)
    ensures NothingSentAstray(Run(s, steps))
    decreases |steps|
  {
    if steps != [] {
      StepSendsNothingAstray(s, steps[0]);
      hide Next, NothingSentAstray, Possible;
      RunSendsNothingAstray(Next(s, steps[0]), steps[1..]);
    }
  }

  /** A check of the dispatch that found a part or a satellite not managed leaves
      dispatch_ok unset. */
  lemma UnmanagedIsNoted(s: State, a: Answers, fine: bool)
    requires Sound(s) && Fits(s, a) && s.firstDispatchDone
    ensures CheckDispatch(s, a, fine).Done? && (CheckDispatch(s, a, fine).state.dispatchOk <==> fine)
  {
    CheckReachableNeverRaises(s.(dispatchOk := true), a);
    hide SendAll, HearAll, SomeNotConfigured;
  }

  lemma HeardThenSent(links: seq<Link>, answers: seq<Answer>)
    requires |answers| == |links|
    ensures PolledTo(links, answers, SendAll(HearAll(links, answers)), true)
    ensures PolledTo(links, answers, HearAll(links, answers), false)
  {
  }

  /** A poll sends configurations exactly when some daemon turned out not configured,
      and a configuration is prepared or was dispatched. */
  predicate PollSends(s: State, a: Answers)
    requires Fits(s, a)
  {
    SomeNotConfigured(s, a) && (s.newToDispatch || s.firstDispatchDone)
  }

  /** What a poll sends, to arbiters, schedulers and satellites alike. */
  lemma PollSendsIff(s: State, a: Answers)
    requires Sound(s) && Fits(s, a)
    ensures CheckReachable(s, a).Done? && Fits(CheckReachable(s, a).state, a)
    ensures var s' := CheckReachable(s, a).state;
            && PolledTo(s.arbiters, a.arbiters, s'.arbiters, PollSends(s, a))
            && PolledTo(s.schedulers, a.schedulers, s'.schedulers, PollSends(s, a))
            && PolledTo(s.satellites, a.satellites, s'.satellites, PollSends(s, a))
  {
    CheckReachableNeverRaises(s, a);
    HeardThenSent(s.arbiters, a.arbiters);
    HeardThenSent(s.schedulers, a.schedulers);
    HeardThenSent(s.satellites, a.satellites);
    hide SomeNotConfigured, PolledTo;
  }

  /** An active and reachable daemon that lost a dispatched configuration gets it again. */
  lemma LostConfigurationIsSentAgain(s: State, a: Answers, i: nat)
    requires Sound(s) && Fits(s, a) && s.firstDispatchDone
    ensures var s' := CheckReachable(s, a).state;
            && CheckReachable(s, a).Done? && Fits(s', a)
            && (i < |s.arbiters| && Lost(s.arbiters[i], a.arbiters[i]) ==> SentAgain(s.arbiters[i], s'.arbiters[i]))
            && (i < |s.schedulers| && Lost(s.schedulers[i], a.schedulers[i]) ==>
                  SentAgain(s.schedulers[i], s'.schedulers[i]))
            && (i < |s.satellites| && Lost(s.satellites[i], a.satellites[i]) ==>
                  SentAgain(s.satellites[i], s'.satellites[i]))
  {
    PollSendsIff(s, a);
    assert i < |s.arbiters| && Lost(s.arbiters[i], a.arbiters[i]) ==>
             NotConfigured(s.arbiters[i], a.arbiters[i], true);
    assert i < |s.schedulers| && Lost(s.schedulers[i], a.schedulers[i]) ==>
             NotConfigured(s.schedulers[i], a.schedulers[i], true);
    assert i < |s.satellites| && Lost(s.satellites[i], a.satellites[i]) ==>
             NotConfigured(s.satellites[i], a.satellites[i], true);
    hide CheckReachable;
  }

  predicate Lost(l: Link, a: Answer) { Wants(l) && a == Answer(HasNone, true) }

  predicate SentAgain(l: Link, l': Link) { l'.configurationSent && l'.sent == l.sent + 1 }

  /** The configuration prepared for link i is one that it lacks. */
  predicate Lacks(links: seq<Link>, given: set<nat>, i: nat)
    requires i < |links|
  {
    !links[i].configurationSent || i in given
  }

  /** Since the prepare from links, links' were sent one configuration each where they
      wanted one, could be reached and lacked it, if sends; otherwise none was sent. */
  predicate SentTo(links: seq<Link>, given: set<nat>, links': seq<Link>, sends: bool)
    requires |links'| == |links|
  {
    forall i :: 0 <= i < |links| ==>
      links'[i].sent == if sends && Wants(links[i]) && links[i].reachable && Lacks(links, given, i) then 1 else 0
  }

  lemma ResetThenSent(links: seq<Link>, given: set<nat>)
    ensures SentTo(links, given, SendAll(Reset(links, given)), true)
    ensures SentTo(links, given, Reset(links, given), false)
  {
  }

  /** What a dispatch right after a prepare sends: nothing at all if dispatch_ok was
      left set, which prepare does not clear; otherwise one configuration to each
      active and reachable daemon that lacks one. */
  lemma PreparedIsSentIff(s: State, g: Given)
    requires Sound(s) && !s.newToDispatch
    ensures Prepare(s, g).Done? && DispatchAll(Prepare(s, g).state).Done?
    ensures var s' := DispatchAll(Prepare(s, g).state).state;
            && |s'.arbiters| == |s.arbiters| && |s'.schedulers| == |s.schedulers| && |s'.satellites| == |s.satellites|
            && SentTo(s.arbiters, g.arbiters, s'.arbiters, !s.dispatchOk)
            && SentTo(s.schedulers, g.schedulers, s'.schedulers, !s.dispatchOk)
            && SentTo(s.satellites, g.satellites, s'.satellites, !s.dispatchOk)
  {
    ResetThenSent(s.arbiters, g.arbiters);
    ResetThenSent(s.schedulers, g.schedulers);
    ResetThenSent(s.satellites, g.satellites);
  }

  predicate Unused(s: State) { !s.newToDispatch && !s.firstDispatchDone && !s.dispatchOk }

  function PrepareAndDispatch(g: Given): seq<Step> { [PrepareStep(g), DispatchStep] }

  lemma TwoSteps(s: State, g: Given)
    requires !s.newToDispatch
    ensures PossibleRun(s, PrepareAndDispatch(g)) && DispatchAll(Prepare(s, g).state).Done?
    ensures Run(s, PrepareAndDispatch(g)) == DispatchAll(Prepare(s, g).state).state
  {
    var steps, s1 := PrepareAndDispatch(g), Prepare(s, g).state;
    assert steps[1..] == [DispatchStep] && steps[1..][1..] == [];
    assert Run(s1, [DispatchStep]) == Run(Next(s1, DispatchStep), []);
  }

  /** From a new dispatcher, the first configuration prepared is sent to every active
      and reachable daemon that lacks it; the second one is sent to nobody. */
  lemma SecondConfigurationStays(s: State, g: Given, g': Given)
    requires Unused(s) && Sound(s)
    ensures PossibleRun(s, PrepareAndDispatch(g))
    ensures var s1 := Run(s, PrepareAndDispatch(g));
            && |s1.schedulers| == |s.schedulers| && SentTo(s.schedulers, g.schedulers, s1.schedulers, true)
            && PossibleRun(s1, PrepareAndDispatch(g'))
            && var s2 := Run(s1, PrepareAndDispatch(g'));
               && s2.newToDispatch && !s2.firstDispatchDone && |s2.schedulers| == |s.schedulers|
               && forall i :: 0 <= i < |s.schedulers| ==>
                    s2.schedulers[i].sent == 0 && (i in g'.schedulers ==> !s2.schedulers[i].configurationSent)
  {
    TwoSteps(s, g);
    PreparedIsSentIff(s, g);
    var s1 := Run(s, PrepareAndDispatch(g));
    RunSound(s, PrepareAndDispatch(g));
    assert s1.dispatchOk && !s1.newToDispatch;
    TwoSteps(s1, g');
    PreparedIsSentIff(s1, g');
  }

  /** The same in figures: an active and reachable scheduler, twice given a
      configuration, is sent the first one only. */
  lemma SecondConfigurationIsNotSent()
    ensures var l := Link(Scheduler, true, true, false, 0, 0);
            var s := State(false, false, false, [], [l], []);
            var given := Given({}, {0}, {});
            && PossibleRun(s, PrepareAndDispatch(given))
            && var s1 := Run(s, PrepareAndDispatch(given));
               && s1.schedulers == [l.(configurationSent := true, sent := 1)]
               && PossibleRun(s1, PrepareAndDispatch(given))
               && Run(s1, PrepareAndDispatch(given)).schedulers == [l]
  {
    var l := Link(Scheduler, true, true, false, 0, 0);
    var s := State(false, false, false, [], [l], []);
    var given := Given({}, {0}, {});
    TwoSteps(s, given);
    var s1 := Run(s, PrepareAndDispatch(given));
    assert s1.schedulers == [l.(configurationSent := true, sent := 1)];
    TwoSteps(s1, given);
  }
}

/** The mutable dispatcher. */
module DispatcherObject {
  import opened Dispatch

  /** One of the three sending loops. */
  method SendTo(links: seq<Link>) returns (r: seq<Link>)
    ensures r == SendAll(links)
  {
    r := [];
    for i := 0 to |links|
      invariant r == SendAll(links[..i])
    {
      var link := links[i];
      if link.kind != Myself && link.kind != OtherMaster && link.active
         && !link.configurationSent && link.reachable {
        link := link.(configurationSent := true, sent := link.sent + 1);
      }
      r := r + [link];
    }
    assert links[..|links|] == links;
  }

  /** The polling loop over one list of links. */
  method Poll(links: seq<Link>, answers: seq<Answer>, done: bool) returns (r: seq<Link>, missing: bool)
    requires |answers| == |links|
    ensures r == HearAll(links, answers) && missing == AnyNotConfigured(links, answers, done)
  {
    r, missing := [], false;
    for i := 0 to |links|
      invariant r == HearAll(links[..i], answers[..i])
      invariant missing == AnyNotConfigured(links[..i], answers[..i], done)
    {
      var link := links[i];
      if link.kind != Myself && link.active {
        link := link.(reachable := answers[i].reachable);
        match answers[i].reply {
          case TooRecent =>
          case Manages => if !done { missing := true; }
          case HasNone =>
            missing := true;
            link := link.(configurationSent := false, none := link.none + 1);
          case TimedOut => missing := true;
        }
      }
      r := r + [link];
      PollStep(links, answers, done, i);
    }
    assert links[..|links|] == links && answers[..|links|] == answers;
  }

  lemma PollStep(links: seq<Link>, answers: seq<Answer>, done: bool, i: nat)
    requires |answers| == |links| && i < |links|
    ensures AnyNotConfigured(links[..i + 1], answers[..i + 1], done) <==>
              AnyNotConfigured(links[..i], answers[..i], done) || NotConfigured(links[i], answers[i], done)
  {
    var ls, as' := links[..i + 1], answers[..i + 1];
    if AnyNotConfigured(links[..i], answers[..i], done) {
      var k :| 0 <= k < i && NotConfigured(links[..i][k], answers[..i][k], done);
      assert NotConfigured(ls[k], as'[k], done);
    }
    if NotConfigured(links[i], answers[i], done) {
      assert NotConfigured(ls[i], as'[i], done);
    }
    if AnyNotConfigured(ls, as', done) {
      var k :| 0 <= k < i + 1 && NotConfigured(ls[k], as'[k], done);
      assert k < i ==> NotConfigured(links[..i][k], answers[..i][k], done);
    }
  }

  class Dispatcher {
    var newToDispatch: bool
    var firstDispatchDone: bool
    var dispatchOk: bool
    var arbiters: seq<Link>
    var schedulers: seq<Link>
    var satellites: seq<Link>

    function View(): State
      reads this
    {
      State(newToDispatch, firstDispatchDone, dispatchOk, arbiters, schedulers, satellites)
    }

    /** All links start without a configuration. */
    constructor (arbs: seq<Link>, scheds: seq<Link>, sats: seq<Link>)
      requires forall l :: l in arbs + scheds + sats ==> l.sent == 0 && l.none == 0
      ensures View() == State(false, false, false, arbs, scheds, sats) && Sound(View())
    {
      newToDispatch, firstDispatchDone, dispatchOk := false, false, false;
      arbiters, schedulers, satellites := arbs, scheds, sats;
      new;
      assert forall i :: 0 <= i < |arbs| ==> arbs[i] in arbs + scheds + sats;
      assert forall i :: 0 <= i < |scheds| ==> scheds[i] in arbs + scheds + sats;
      assert forall i :: 0 <= i < |sats| ==> sats[i] in arbs + scheds + sats;
    }

    method DispatchConfigurations() returns (raised: bool)
      modifies this
      ensures raised <==> DispatchAll(old(View())).Raises?
      ensures View() == if raised then old(View()) else DispatchAll(old(View())).state
    {
      if !newToDispatch || firstDispatchDone {
        return true;
      }
      raised := false;
      if dispatchOk {
        return;
      }
      dispatchOk := true;
      arbiters := SendTo(arbiters);
      schedulers := SendTo(schedulers);
      satellites := SendTo(satellites);
      newToDispatch := false;
      firstDispatchDone := true;
    }

    method PollDaemons(a: Answers)
      requires Sound(View()) && Fits(View(), a)
      modifies this
      ensures View() == CheckReachable(old(View()), a).state && Sound(View())
    {
      CheckReachableNeverRaises(View(), a);
      var m1, m2, m3;
      arbiters, m1 := Poll(arbiters, a.arbiters, firstDispatchDone);
      schedulers, m2 := Poll(schedulers, a.schedulers, firstDispatchDone);
      satellites, m3 := Poll(satellites, a.satellites, firstDispatchDone);
      var notConfigured := m1 || m2 || m3;
      if notConfigured && newToDispatch && !firstDispatchDone {
        dispatchOk := false;
        var raised := DispatchConfigurations();
      } else if notConfigured && firstDispatchDone {
        dispatchOk := false;
        newToDispatch := true;
        firstDispatchDone := false;
        var raised := DispatchConfigurations();
      }
    }
  }
}
