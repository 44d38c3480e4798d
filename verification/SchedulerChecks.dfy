/** The checks of the scheduler: handed out, taken back, consumed, deleted, with
    results that may come back late or several times. */
module SchedulerChecks {

  type Uuid = nat

  datatype Status = Scheduled | InPoller | WaitConsume | Zombie

  /** consumed records every consumption; used the uuids that have been given. */
  datatype State = State(checks: map<Uuid, Status>, waiting: seq<Uuid>,
                         consumed: multiset<Uuid>, used: set<Uuid>, ticks: nat)

  const INITIAL := State(map[], [], multiset{}, {}, 0)

  // ---------------------------------------------------------------- operations

  function AddCheck(s: State, u: Uuid): State {
    if u in s.checks then s else s.(checks := s.checks[u := Scheduled], used := s.used + {u})
  }

  predicate Runnable(s: State, ready: set<Uuid>, u: Uuid) {
    u in s.checks && s.checks[u].Scheduled? && u in ready
  }

  /** The checks of ready that are scheduled go to a poller. */
  function GetToRun(s: State, ready: set<Uuid>): State {
    s.(checks := map u | u in s.checks :: if Runnable(s, ready, u) then InPoller else s.checks[u])
  }

  /** A result for an unknown check is dropped; any other check waits to be consumed. */
  function ManageResult(checks: map<Uuid, Status>, u: Uuid): map<Uuid, Status> {
    if u in checks then checks[u := WaitConsume] else checks
  }

  function ManageResults(checks: map<Uuid, Status>, results: seq<Uuid>): map<Uuid, Status> {
    if results == [] then checks else ManageResults(ManageResult(checks, results[0]), results[1..])
  }

  function Waiting(checks: map<Uuid, Status>): set<Uuid> {
    set u | u in checks && checks[u].WaitConsume?
  }

  /** All waiting results are managed, then every check that waits is consumed. */
  function Consume(s: State): State {
    var checks := ManageResults(s.checks, s.waiting);
    s.(waiting := [], consumed := s.consumed + multiset(Waiting(checks)),
       checks := map u | u in checks :: if checks[u].WaitConsume? then Zombie else checks[u])
  }

  function DeleteZombies(s: State): State {
    s.(checks := map u | u in s.checks && !s.checks[u].Zombie? :: s.checks[u])
  }

  /** The checks of late that are still with a poller are scheduled again. */
  function CheckOrphaned(s: State, late: set<Uuid>): State {
    s.(checks := map u | u in s.checks ::
                   if s.checks[u].InPoller? && u in late then Scheduled else s.checks[u])
  }

  /** Every how many ticks results are consumed and zombies deleted; 0 is never. */
  datatype Config = Config(consumeEvery: nat, deleteEvery: nat)

  predicate Due(t: nat, every: nat) { every > 0 && t % every == 0 }

  /** One scheduler loop: consumption comes before deletion. */
  function Tick(s: State, c: Config): State {
    var s1 := s.(ticks := s.ticks + 1);
    var s2 := if Due(s1.ticks, c.consumeEvery) then Consume(s1) else s1;
    if Due(s1.ticks, c.deleteEvery) then DeleteZombies(s2) else s2
  }

  // ---------------------------------------------------------------- runs

  datatype Step =
    | Add(u: Uuid)
    | Poll(ready: set<Uuid>)
    | Arrive(results: seq<Uuid>)
    | Orphan(late: set<Uuid>)
    | TickStep

  /** uuids are never reused. */
  predicate Proper(s: State, step: Step) { step.Add? ==> step.u !in s.used }

  function Next(s: State, step: Step, c: Config): State {
    match step
    case Add(u) => AddCheck(s, u)
    case Poll(ready) => GetToRun(s, ready)
    case Arrive(results) => s.(waiting := s.waiting + results)
    case Orphan(late) => CheckOrphaned(s, late)
    case TickStep => Tick(s, c)
  }

  predicate ProperRun(s: State, steps: seq<Step>, c: Config)
    decreases |steps|
  {
    steps != [] ==> Proper(s, steps[0]) && ProperRun(Next(s, steps[0], c), steps[1..], c)
  }

  function Run(s: State, steps: seq<Step>, c: Config): State
    decreases |steps|
  {
    if steps == [] then s else Run(Next(s, steps[0], c), steps[1..], c)
  }

  predicate AtMostOnce(s: State) { forall u :: u in s.consumed ==> s.consumed[u] <= 1 }

  // ---------------------------------------------------------------- division

  lemma MulGap(a: nat, b: nat, n: nat)
    requires a < b
    ensures a * n + n <= b * n
  {
    var d := b - a - 1;
    calc {
      b * n;
      (a + 1 + d) * n;
      a * n + n + d * n;
    }
    assert d * n >= 0;
  }

  lemma DivModUnique(x: nat, n: nat, q: nat, r: nat)
    requires n > 0 && r < n && x == q * n + r
    ensures x % n == r && x / n == q
  {
    var q', r' := x / n, x % n;
    DivMod(x, n);
    if q < q' { MulGap(q, q', n); }
    if q' < q { MulGap(q', q, n); }
  }

  lemma DivMod(x: nat, n: nat)
    requires n > 0
    ensures x == (x / n) * n + x % n
  {
  }

  lemma ModStep(t: nat, n: nat)
    requires n > 0 && (t + 1) % n != 0
    ensures (t + 1) % n == t % n + 1
  {
    var q, r := (t + 1) / n, (t + 1) % n;
    assert t + 1 == q * n + r;
    DivModUnique(t, n, q, r - 1);
  }

  lemma ModWrap(t: nat, n: nat)
    requires n > 0 && (t + 1) % n == 0
    ensures t % n == n - 1
  {
    var q := (t + 1) / n;
    assert t + 1 == q * n;
    assert q >= 1;
    assert t == (q - 1) * n + (n - 1);
    DivModUnique(t, n, q - 1, n - 1);
  }

  /** Any n consecutive numbers hold a multiple of n. */
  lemma MultipleAhead(from: nat, n: nat) returns (t: nat)
    requires n > 0
    ensures from <= t < from + n && t % n == 0
  {
    var q, r := from / n, from % n;
    assert from == q * n + r;
    if r == 0 {
      t := from;
    } else {
      t := from + (n - r);
      assert t == (q + 1) * n + 0;
      DivModUnique(t, n, q + 1, 0);
    }
  }

  // ---------------------------------------------------------------- at most once

  predicate SomeZombie(s: State) { exists u :: u in s.checks && s.checks[u].Zombie? }

  /** The last tick at which results were consumed, or 0. */
  function LastConsume(s: State, c: Config): nat
    requires c.consumeEvery > 0
  {
    s.ticks - s.ticks % c.consumeEvery
  }

  predicate NoDeletionSince(from: nat, to: nat, c: Config) {
    forall t :: from <= t <= to ==> !Due(t, c.deleteEvery)
  }

  /** Zombies are consumed, and a check that was added is known or consumed. */
  predicate Traced(s: State) {
    && (forall u :: u in s.checks && s.checks[u].Zombie? ==> u in s.consumed)
    && (forall u :: u in s.used ==> u in s.checks || u in s.consumed)
  }

  predicate Known(s: State) {
    && (forall u :: u in s.checks ==> u in s.used && !s.checks[u].WaitConsume?)
    && (forall u :: u in s.consumed ==> u in s.used)
    && (forall u :: u in s.consumed && u in s.checks ==> s.checks[u].Zombie?)
    && Traced(s)
  }

  predicate Inv(s: State, c: Config)
    requires c.consumeEvery > 0
  {
    Known(s) && AtMostOnce(s) && (SomeZombie(s) ==> NoDeletionSince(LastConsume(s, c), s.ticks, c))
  }

  lemma {:induction false} ManageResultsEffect(checks: map<Uuid, Status>, results: seq<Uuid>)
    ensures var r := ManageResults(checks, results);
            && r.Keys == checks.Keys
            && forall u :: u in checks ==> r[u] == if u in results then WaitConsume else checks[u]
  {
    if results != [] {
      ManageResultsEffect(ManageResult(checks, results[0]), results[1..]);
    }
  }

  /** Consuming when no zombie is left consumes nothing that was consumed before. */
  lemma ConsumeKnown(s: State)
    requires Known(s) && AtMostOnce(s) && !SomeZombie(s)
    ensures Known(Consume(s)) && AtMostOnce(Consume(s))
  {
    ManageResultsEffect(s.checks, s.waiting);
    var now := Waiting(ManageResults(s.checks, s.waiting));
    assert forall u :: u in now ==> u in s.checks && u !in s.consumed;
  }

  lemma DeleteKnown(s: State)
    requires Known(s) && AtMostOnce(s)
    ensures Known(DeleteZombies(s)) && AtMostOnce(DeleteZombies(s)) && !SomeZombie(DeleteZombies(s))
  {
  }

  lemma NoZombieAtConsume(s: State, c: Config)
    requires 1 <= c.deleteEvery <= c.consumeEvery && Inv(s, c) && Due(s.ticks + 1, c.consumeEvery)
    ensures !SomeZombie(s)
  {
    ModWrap(s.ticks, c.consumeEvery);
    var t := MultipleAhead(LastConsume(s, c), c.deleteEvery);
    assert Due(t, c.deleteEvery);
  }

  lemma TickInv(s: State, c: Config)
    requires 1 <= c.deleteEvery <= c.consumeEvery && Inv(s, c)
    ensures Inv(Tick(s, c), c)
  {
    if Due(s.ticks + 1, c.consumeEvery) { ConsumingTickInv(s, c); } else { OtherTickInv(s, c); }
  }

  lemma ConsumingTickInv(s: State, c: Config)
    requires 1 <= c.deleteEvery <= c.consumeEvery && Inv(s, c) && Due(s.ticks + 1, c.consumeEvery)
    ensures Inv(Tick(s, c), c)
  {
    hide Known;
    var s1 := s.(ticks := s.ticks + 1);
    NoZombieAtConsume(s, c);
    KnownAtAnyTick(s, s1);
    ConsumeKnown(s1);
    DeleteKnown(Consume(s1));
    assert LastConsume(Tick(s, c), c) == s1.ticks;
  }

  lemma OtherTickInv(s: State, c: Config)
    requires 1 <= c.deleteEvery <= c.consumeEvery && Inv(s, c) && !Due(s.ticks + 1, c.consumeEvery)
    ensures Inv(Tick(s, c), c)
  {
    hide Known;
    var s1 := s.(ticks := s.ticks + 1);
    ModStep(s.ticks, c.consumeEvery);
    assert LastConsume(s1, c) == LastConsume(s, c);
    KnownAtAnyTick(s, s1);
    DeleteKnown(s1);
    assert SomeZombie(s1) ==> SomeZombie(s);
  }

  lemma KnownAtAnyTick(s: State, s': State)
    requires Known(s) && s' == s.(ticks := s'.ticks)
    ensures Known(s') && (SomeZombie(s') <==> SomeZombie(s))
  {
  }

  lemma StepInv(s: State, step: Step, c: Config)
    requires 1 <= c.deleteEvery <= c.consumeEvery && Inv(s, c) && Proper(s, step)
    ensures Inv(Next(s, step, c), c)
  {
    match step
    case TickStep => TickInv(s, c);
    case _ =>
      var s' := Next(s, step, c);
      assert s'.consumed == s.consumed && s'.ticks == s.ticks;
      assert forall u :: u in s'.checks && s'.checks[u].Zombie? ==> u in s.checks && s.checks[u].Zombie?;
  }

  lemma {:induction false} RunInv(s: State, steps: seq<Step>, c: Config)
    requires 1 <= c.deleteEvery <= c.consumeEvery && Inv(s, c) && ProperRun(s, steps, c)
    ensures Inv(Run(s, steps, c), c)
    decreases |steps|
  {
    if steps != [] {
      StepInv(s, steps[0], c);
      RunInv(Next(s, steps[0], c), steps[1..], c);
    }
  }

  /** Adding a check that is known changes nothing; a new one is scheduled. */
  lemma AddedOnce(s: State, u: Uuid, x: Uuid)
    ensures u in s.checks ==> AddCheck(s, u) == s
    ensures u !in s.checks ==>
              var s' := AddCheck(s, u);
              && u in s'.checks && s'.checks[u] == Scheduled && s'.checks.Keys == s.checks.Keys + {u}
              && (x in s.checks ==> s'.checks[x] == s.checks[x])
  {
  }

  lemma ConsumeTraced(s: State)
    requires Traced(s)
    ensures Traced(Consume(s))
  {
    ManageResultsEffect(s.checks, s.waiting);
    hide ManageResults;
  }

  lemma NextTraced(s: State, step: Step, c: Config)
    requires Traced(s)
    ensures Traced(Next(s, step, c))
  {
    if step.TickStep? {
      var s1 := s.(ticks := s.ticks + 1);
      assert Traced(s1);
      ConsumeTraced(s1);
      hide Consume;
      assert Traced(Next(s, step, c));
    }
  }

  /** Whatever the ticks, a check that was ever added is known until it has been
      consumed. */
  lemma {:induction false} NoCheckForgotten(s: State, steps: seq<Step>, c: Config)
    requires Traced(s)
    ensures Traced(Run(s, steps, c))
    decreases |steps|
  {
    if steps != [] {
      NextTraced(s, steps[0], c);
      NoCheckForgotten(Next(s, steps[0], c), steps[1..], c);
    }
  }

  /** Exactly the late checks that are with a poller are scheduled again. */
  lemma OrphanEffect(s: State, late: set<Uuid>, u: Uuid)
    ensures var s' := CheckOrphaned(s, late);
            && s'.checks.Keys == s.checks.Keys && s'.consumed == s.consumed && s'.waiting == s.waiting
            && (u in s.checks && s.checks[u] != InPoller ==> s'.checks[u] == s.checks[u])
            && (u in s.checks && s.checks[u] == InPoller ==> (s'.checks[u] == Scheduled <==> u in late))
            && (u in s.checks && s.checks[u] == InPoller ==> (s'.checks[u] == InPoller <==> u !in late))
  {
  }

  // ---------------------------------------------------------------- twice

  lemma {:induction false} RunConcat(s: State, a: seq<Step>, b: seq<Step>, c: Config)
    ensures Run(s, a + b, c) == Run(Run(s, a, c), b, c)
    ensures ProperRun(s, a + b, c) <==> ProperRun(s, a, c) && ProperRun(Run(s, a, c), b, c)
    decreases |a|
  {
    if a == [] {
      assert a + b == b;
    } else {
      assert (a + b)[1..] == a[1..] + b;
      RunConcat(Next(s, a[0], c), a[1..], b, c);
    }
  }

  function Ticks(n: nat): seq<Step> {
    if n == 0 then [] else [TickStep] + Ticks(n - 1)
  }

  /** Nothing is consumed or deleted at the next n ticks, or there is nothing to. */
  predicate Quiet(s: State, n: nat, c: Config) {
    && s.waiting == []
    && (s.checks == map[] || forall t :: s.ticks < t <= s.ticks + n ==> !Due(t, c.consumeEvery) && !Due(t, c.deleteEvery))
  }

  lemma {:induction false} QuietTicks(s: State, n: nat, c: Config)
    requires Quiet(s, n, c)
    ensures ProperRun(s, Ticks(n), c) && Run(s, Ticks(n), c) == s.(ticks := s.ticks + n)
    decreases n
  {
    if n > 0 {
      var s1 := s.(ticks := s.ticks + 1);
      assert Tick(s, c) == s1 by {
        if s.checks == map[] {
          assert ManageResults(map[], []) == map[];
          assert Consume(s1).checks == map[] && Waiting(map[]) == {};
          assert Consume(s1) == s1;
          assert DeleteZombies(s1).checks == map[];
        }
      }
      assert Ticks(n)[1..] == Ticks(n - 1);
      QuietTicks(s1, n - 1, c);
    }
  }

  /** The check 0 is polled, orphaned, polled again, and answered. */
  const FIRST_ANSWER: seq<Step> := [Add(0), Poll({0}), Orphan({0}), Poll({0}), Arrive([0]), TickStep]

  const SECOND_ANSWER: seq<Step> := [Arrive([0]), TickStep]

  lemma FirstAnswer(s: State, c: Config)
    requires s.checks == map[] && s.waiting == [] && s.consumed == multiset{} && s.used == {}
    requires Due(s.ticks + 1, c.consumeEvery) && !Due(s.ticks + 1, c.deleteEvery)
    ensures ProperRun(s, FIRST_ANSWER, c)
    ensures Run(s, FIRST_ANSWER, c) == State(map[0 := Zombie], [], multiset{0}, {0}, s.ticks + 1)
  {
    var s1 := State(map[0 := Scheduled], [], multiset{}, {0}, s.ticks);
    var s2 := s1.(checks := map[0 := InPoller]);
    var s3 := s2.(waiting := [0]);
    assert Next(s, Add(0), c) == s1;
    assert Next(s1, Poll({0}), c) == s2;
    assert Next(s2, Orphan({0}), c) == s1;
    assert Next(s2, Arrive([0]), c) == s3;
    TickConsumesOne(s3, c);
    RunCons(s3, TickStep, [], c);
    RunCons(s2, Arrive([0]), [TickStep], c);
    RunCons(s1, Poll({0}), [Arrive([0]), TickStep], c);
    RunCons(s2, Orphan({0}), [Poll({0}), Arrive([0]), TickStep], c);
    RunCons(s1, Poll({0}), [Orphan({0}), Poll({0}), Arrive([0]), TickStep], c);
    RunCons(s, Add(0), [Poll({0}), Orphan({0}), Poll({0}), Arrive([0]), TickStep], c);
  }

  lemma RunCons(s: State, step: Step, rest: seq<Step>, c: Config)
    ensures Run(s, [step] + rest, c) == Run(Next(s, step, c), rest, c)
    ensures ProperRun(s, [step] + rest, c) <==> Proper(s, step) && ProperRun(Next(s, step, c), rest, c)
  {
    assert ([step] + rest)[1..] == rest;
  }

  /** A single known check with an answer waiting is consumed, whatever its status. */
  lemma TickConsumesOne(s: State, c: Config)
    requires s.checks.Keys == {0} && s.waiting == [0] && Due(s.ticks + 1, c.consumeEvery)
    ensures var s1 := State(map[0 := Zombie], [], s.consumed + multiset{0}, s.used, s.ticks + 1);
            Tick(s, c) == if Due(s.ticks + 1, c.deleteEvery) then DeleteZombies(s1) else s1
  {
    ManageResultsEffect(s.checks, s.waiting);
    var checks := ManageResults(s.checks, s.waiting);
    assert Waiting(checks) == {0};
    assert Consume(s.(ticks := s.ticks + 1)).checks == map[0 := Zombie];
  }

  /** The tick of the first answer when deletion is rarer than consumption. */
  function FirstTick(c: Config): nat {
    if c.deleteEvery == 0 then c.consumeEvery else c.consumeEvery * (c.deleteEvery - 1)
  }

  predicate ConsumesOften(c: Config) {
    c.consumeEvery > 0 && (c.deleteEvery == 0 || c.deleteEvery > c.consumeEvery)
  }

  lemma FirstTickIsDue(c: Config)
    requires ConsumesOften(c)
    ensures FirstTick(c) >= 1 && Due(FirstTick(c), c.consumeEvery)
    ensures Due(FirstTick(c) + c.consumeEvery, c.consumeEvery)
    ensures forall t :: FirstTick(c) < t < FirstTick(c) + c.consumeEvery ==> !Due(t, c.consumeEvery)
  {
    var n, k := c.consumeEvery, FirstTick(c);
    var q := if c.deleteEvery == 0 then 1 else c.deleteEvery - 1;
    assert k == q * n + 0;
    assert k + n == (q + 1) * n + 0;
    assert k >= 1;
    DivModUnique(k, n, q, 0);
    DivModUnique(k + n, n, q + 1, 0);
    forall t | k < t < k + n ensures !Due(t, n) {
      DivModUnique(t, n, q, t - k);
    }
  }

  lemma NoDeletionThere(c: Config, t: nat)
    requires ConsumesOften(c) && FirstTick(c) <= t < FirstTick(c) + c.consumeEvery
    ensures !Due(t, c.deleteEvery)
  {
    var n, d := c.consumeEvery, c.deleteEvery;
    if d > 0 {
      var r := t - FirstTick(c) + (d - n);
      Rearranged(n, d);
      assert t == (n - 1) * d + r;
      DivModUnique(t, d, n - 1, r);
    }
  }

  lemma Rearranged(n: nat, d: nat)
    requires n > 0 && d > 0
    ensures n * (d - 1) == (n - 1) * d + (d - n)
  {
    assert n * (d - 1) == n * d - n;
    assert (n - 1) * d == n * d - d;
  }

  function TwiceRun(c: Config): seq<Step>
    requires c.consumeEvery > 0
  {
    Ticks(if FirstTick(c) >= 1 then FirstTick(c) - 1 else 0) + (FIRST_ANSWER + (Ticks(c.consumeEvery - 1) + SECOND_ANSWER))
  }

  /** When deletion is rarer, a late second answer revives a zombie. */
  lemma ConsumedTwice(c: Config)
    requires ConsumesOften(c)
    ensures ProperRun(INITIAL, TwiceRun(c), c)
    ensures Run(INITIAL, TwiceRun(c), c).consumed == multiset{0, 0}
  {
    hide Run, ProperRun, Tick, Ticks, FirstTick;
    var k, n := FirstTick(c), c.consumeEvery;
    FirstTickIsDue(c);
    QuietTicks(INITIAL, k - 1, c);
    var s1 := INITIAL.(ticks := k - 1);
    NoDeletionThere(c, k);
    FirstAnswer(s1, c);
    SecondAnswer(c);
    var s2 := State(map[0 := Zombie], [], multiset{0}, {0}, k);
    RunConcat(s1, FIRST_ANSWER, Ticks(n - 1) + SECOND_ANSWER, c);
    RunConcat(INITIAL, Ticks(k - 1), FIRST_ANSWER + (Ticks(n - 1) + SECOND_ANSWER), c);
  }

  lemma SecondAnswer(c: Config)
    requires ConsumesOften(c)
    ensures var s := State(map[0 := Zombie], [], multiset{0}, {0}, FirstTick(c));
            var steps := Ticks(c.consumeEvery - 1) + SECOND_ANSWER;
            ProperRun(s, steps, c) && Run(s, steps, c).consumed == multiset{0, 0}
  {
    hide Run, ProperRun, Ticks, FirstTick;
    var k, n := FirstTick(c), c.consumeEvery;
    FirstTickIsDue(c);
    var s2 := State(map[0 := Zombie], [], multiset{0}, {0}, k);
    forall t | k < t < k + n ensures !Due(t, c.deleteEvery) {
      NoDeletionThere(c, t);
    }
    QuietTicks(s2, n - 1, c);
    var s3 := s2.(ticks := k + n - 1);
    AnswerConsumed(s3, c);
    RunConcat(s2, Ticks(n - 1), SECOND_ANSWER, c);
  }

  lemma AnswerConsumed(s: State, c: Config)
    requires s.checks.Keys == {0} && s.waiting == [] && Due(s.ticks + 1, c.consumeEvery)
    ensures ProperRun(s, SECOND_ANSWER, c)
    ensures Run(s, SECOND_ANSWER, c).consumed == s.consumed + multiset{0}
  {
    var s1 := s.(waiting := [0]);
    assert Next(s, Arrive([0]), c) == s1;
    TickConsumesOne(s1, c);
    RunCons(s1, TickStep, [], c);
    RunCons(s, Arrive([0]), [TickStep], c);
  }

  ghost predicate AlwaysAtMostOnce(c: Config) {
    forall steps :: ProperRun(INITIAL, steps, c) ==> AtMostOnce(Run(INITIAL, steps, c))
  }

  lemma {:induction false} NeverConsumed(s: State, steps: seq<Step>, c: Config)
    requires c.consumeEvery == 0 && s.consumed == multiset{}
    ensures Run(s, steps, c).consumed == multiset{}
    decreases |steps|
  {
    if steps != [] {
      NeverConsumed(Next(s, steps[0], c), steps[1..], c);
    }
  }

  /** Each check is consumed at most once in every run exactly when zombies are
      deleted at least as often as results are consumed. */
  lemma AtMostOnceIff(c: Config)
    ensures AlwaysAtMostOnce(c) <==> c.consumeEvery == 0 || 1 <= c.deleteEvery <= c.consumeEvery
  {
    if c.consumeEvery == 0 {
      forall steps | ProperRun(INITIAL, steps, c) ensures AtMostOnce(Run(INITIAL, steps, c)) {
        NeverConsumed(INITIAL, steps, c);
      }
    } else if 1 <= c.deleteEvery <= c.consumeEvery {
      forall steps | ProperRun(INITIAL, steps, c) ensures AtMostOnce(Run(INITIAL, steps, c)) {
        RunInv(INITIAL, steps, c);
      }
    } else {
      ConsumedTwice(c);
      assert Run(INITIAL, TwiceRun(c), c).consumed[0] == 2;
    }
  }
}

/** The mutable scheduler: the same operations as loops over its checks, which
    may be gone through in any order. */
module SchedulerObject {
  import opened SchedulerChecks

  /** Each check that waits is consumed once; taken records them. */
  method ConsumeWaiting(managed: map<Uuid, Status>)
    returns (r: map<Uuid, Status>, ghost taken: multiset<Uuid>)
    ensures r == map u | u in managed :: if managed[u].WaitConsume? then Zombie else managed[u]
    ensures taken == multiset(Waiting(managed))
  {
    r, taken := managed, multiset{};
    var todo := managed.Keys;
    ghost var seen: set<Uuid> := {};
    while todo != {}
      invariant todo <= managed.Keys == r.Keys && seen == Waiting(managed) - todo
      invariant forall u :: u in r ==>
                  r[u] == if u !in todo && managed[u].WaitConsume? then Zombie else managed[u]
      invariant taken == multiset(seen)
      decreases todo
    {
      var u :| u in todo;
      if r[u].WaitConsume? {
        r := r[u := Zombie];
        taken := taken + multiset{u};
        OneMore(seen, u);
        seen := seen + {u};
      }
      todo := todo - {u};
    }
  }

  lemma OneMore(seen: set<Uuid>, u: Uuid)
    requires u !in seen
    ensures multiset(seen + {u}) == multiset(seen) + multiset{u}
  {
  }

  class Scheduler {
    var checks: map<Uuid, Status>
    var waitingResults: seq<Uuid>
    var ticks: nat
    ghost var consumed: multiset<Uuid>
    ghost var used: set<Uuid>

    ghost function View(): State
      reads this
    {
      State(checks, waitingResults, consumed, used, ticks)
    }

    constructor ()
      ensures View() == INITIAL
    {
      checks, waitingResults, ticks, consumed, used := map[], [], 0, multiset{}, {};
    }

    method NewCheck(u: Uuid)
      modifies this
      ensures View() == AddCheck(old(View()), u)
    {
      if u !in checks {
        checks := checks[u := Scheduled];
        used := used + {u};
      }
    }

    /** Returns the checks handed out. */
    method GetToRunChecks(ready: set<Uuid>) returns (res: set<Uuid>)
      modifies this
      ensures View() == GetToRun(old(View()), ready)
      ensures res == set u | u in old(checks) && Runnable(old(View()), ready, u)
    {
      res := {};
      var todo := checks.Keys;
      while todo != {}
        invariant todo <= checks.Keys == old(checks).Keys
        invariant View() == old(View()).(checks := checks)
        invariant res == set u | u in old(checks) && u !in todo && Runnable(old(View()), ready, u)
        invariant forall u :: u in checks ==>
                    checks[u] == if u !in todo && Runnable(old(View()), ready, u) then InPoller else old(checks)[u]
        decreases todo
      {
        var u :| u in todo;
        todo := todo - {u};
        if checks[u].Scheduled? && u in ready {
          checks := checks[u := InPoller];
          res := res + {u};
        }
      }
      assert checks == GetToRun(old(View()), ready).checks;
    }

    method ConsumeResults()
      modifies this
      ensures View() == Consume(old(View()))
    {
      var i := 0;
      while i < |waitingResults|
        invariant i <= |waitingResults|
        invariant View() == old(View()).(checks := checks)
        invariant ManageResults(checks, waitingResults[i..]) == ManageResults(old(checks), old(waitingResults))
      {
        assert waitingResults[i..][1..] == waitingResults[i + 1..];
        if waitingResults[i] in checks {
          checks := checks[waitingResults[i] := WaitConsume];
        }
        i := i + 1;
      }
      waitingResults := [];
      ghost var taken;
      checks, taken := ConsumeWaiting(checks);
      consumed := consumed + taken;
    }

    method DeleteZombieChecks()
      modifies this
      ensures View() == DeleteZombies(old(View()))
    {
      var todo, toDelete := checks.Keys, {};
      while todo != {}
        invariant todo <= checks.Keys
        invariant toDelete == set u | u in checks && u !in todo && checks[u].Zombie?
        invariant View() == old(View())
        decreases todo
      {
        var u :| u in todo;
        todo := todo - {u};
        if checks[u].Zombie? {
          toDelete := toDelete + {u};
        }
      }
      checks := checks - toDelete;
      assert checks == DeleteZombies(old(View())).checks;
    }

    method ReenableOrphans(late: set<Uuid>)
      modifies this
      ensures View() == CheckOrphaned(old(View()), late)
    {
      var todo := checks.Keys;
      while todo != {}
        invariant todo <= checks.Keys == old(checks).Keys
        invariant View() == old(View()).(checks := checks)
        invariant forall u :: u in checks ==>
                    checks[u] == if u !in todo && old(checks)[u].InPoller? && u in late then Scheduled else old(checks)[u]
        decreases todo
      {
        var u :| u in todo;
        todo := todo - {u};
        if checks[u].InPoller? && u in late {
          checks := checks[u := Scheduled];
        }
      }
      assert checks == CheckOrphaned(old(View()), late).checks;
    }

    /** The recurrent works of one loop that concern checks. */
    method RunOnce(c: Config)
      modifies this
      ensures View() == Tick(old(View()), c)
    {
      ticks := ticks + 1;
      if c.consumeEvery > 0 && ticks % c.consumeEvery == 0 {
        ConsumeResults();
      }
      if c.deleteEvery > 0 && ticks % c.deleteEvery == 0 {
        DeleteZombieChecks();
      }
    }
  }
}
