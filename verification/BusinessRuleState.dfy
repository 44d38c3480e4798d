/** The state of a business rule: how the states of hosts and services combine
    through &, |, of: and NOT. */
module BusinessRuleState {

  /** An of: value; negative ones count from the total. */
  datatype Threshold = Number(n: int) | Percent(n: int)

  datatype Connective = All | Any | Of(ok: Threshold, warn: Threshold, crit: Threshold, mul: bool)

  datatype Rule =
    | Host(id: nat, negated: bool)
    | Service(id: nat, negated: bool)
    | Group(op: Connective, sons: seq<Rule>, negated: bool)

  /** The last hard state of an item, and what hides its problem. */
  datatype Item = Item(state: int, acknowledged: bool, inDowntime: bool)

  type Items = nat -> Item

  // ---------------------------------------------------------------- states

  function ReverseState(state: int): int {
    if state == 1 then 1 else if state == 0 then 2 else if state == 2 then 0 else state
  }

  function MaybeReverse(negated: bool, state: int): int {
    if negated then ReverseState(state) else state
  }

  function Hidden(item: Item, state: int): int {
    if item.acknowledged || item.inDowntime then 0 else state
  }

  /** DOWN counts as CRITICAL. */
  function HostState(item: Item, negated: bool): int {
    var state := Hidden(item, if item.state == 1 then 2 else item.state);
    if negated then (if state != 0 then 0 else 2) else state
  }

  function ServiceState(item: Item, negated: bool): int {
    var state := Hidden(item, item.state);
    if negated && state == 2 then 0 else if negated && state == 0 then 2 else state
  }

  function Best(states: seq<int>): (m: int)
    requires states != []
    ensures m in states && forall i :: 0 <= i < |states| ==> m <= states[i]
  {
    if |states| == 1 then states[0]
    else
      var m := Best(states[1..]);
      if states[0] <= m then states[0] else m
  }

  function Greatest(states: seq<int>): (m: int)
    requires states != []
    ensures m in states && forall i :: 0 <= i < |states| ==> states[i] <= m
  {
    if |states| == 1 then states[0]
    else
      var m := Greatest(states[1..]);
      if states[0] >= m then states[0] else m
  }

  /** CRITICAL first: it outranks the larger code of UNKNOWN. */
  function Worst(states: seq<int>): int
    requires states != []
  {
    if 2 in states then 2 else Greatest(states)
  }

  function CountOf(states: seq<int>, v: int): (n: nat)
    ensures n <= |states|
  {
    if states == [] then 0
    else (if states[0] == v then 1 else 0) + CountOf(states[1..], v)
  }

  predicate Applies(total: nat, actual: nat, search: Threshold)
    requires total > 0
  {
    match search
    case Percent(n) =>
      var wanted := if n >= 0 then n else if 100 + n > 0 then 100 + n else 0;
      (actual as real) / (total as real) * 100.0 >= wanted as real
    case Number(n) =>
      var wanted := if n >= 0 then n else if total + n > 0 then total + n else 0;
      actual >= wanted
  }

  /** The worst of critical, warning and ok that has enough sons. If none has,
      a multiple rule answers ok and a simple one the worst state. */
  function OfState(states: seq<int>, op: Connective): int
    requires states != [] && op.Of?
  {
    var n := |states|;
    if Applies(n, CountOf(states, 2), op.crit) then 2
    else if Applies(n, CountOf(states, 1) + CountOf(states, 2), op.warn) then 1
    else if Applies(n, CountOf(states, 0), op.ok) then 0
    else if op.mul then 0
    else Worst(states)
  }

  function Combine(op: Connective, states: seq<int>): int
    requires states != []
  {
    match op
    case All => Worst(states)
    case Any => Best(states)
    case Of(_, _, _, _) => OfState(states, op)
  }

  /** Every group has a son. */
  predicate WellBuilt(r: Rule)
    decreases r
  {
    r.Group? ==> r.sons != [] && forall i :: 0 <= i < |r.sons| ==> WellBuilt(r.sons[i])
  }

  predicate AllWellBuilt(sons: seq<Rule>) {
    forall i :: 0 <= i < |sons| ==> WellBuilt(sons[i])
  }

  function GetState(r: Rule, items: Items): int
    requires WellBuilt(r)
    decreases r, 1
  {
    match r
    case Host(id, negated) => HostState(items(id), negated)
    case Service(id, negated) => ServiceState(items(id), negated)
    case Group(op, sons, negated) => MaybeReverse(negated, Combine(op, States(sons, items)))
  }

  function States(sons: seq<Rule>, items: Items): (s: seq<int>)
    requires AllWellBuilt(sons)
    ensures |s| == |sons|
    ensures forall i :: 0 <= i < |sons| ==> s[i] == GetState(sons[i], items)
    decreases sons, 0
  {
    if sons == [] then [] else [GetState(sons[0], items)] + States(sons[1..], items)
  }

  // ---------------------------------------------------------------- the counting loop

  method GetXofState(states: seq<int>, op: Connective, negated: bool) returns (r: int)
    requires states != [] && op.Of?
    ensures r == MaybeReverse(negated, Combine(op, states))
  {
    var nbOk, nbWarn, nbCrit := 0, 0, 0;
    for i := 0 to |states|
      invariant nbOk + CountOf(states[i..], 0) == CountOf(states, 0)
      invariant nbWarn + CountOf(states[i..], 1) == CountOf(states, 1)
      invariant nbCrit + CountOf(states[i..], 2) == CountOf(states, 2)
    {
      assert states[i..][1..] == states[i + 1..];
      if states[i] == 0 {
        nbOk := nbOk + 1;
      } else if states[i] == 1 {
        nbWarn := nbWarn + 1;
      } else if states[i] == 2 {
        nbCrit := nbCrit + 1;
      }
    }
    var okApply := Applies(|states|, nbOk, op.ok);
    var warnApply := Applies(|states|, nbWarn + nbCrit, op.warn);
    var critApply := Applies(|states|, nbCrit, op.crit);
    if critApply {
      r := 2;
    } else if warnApply {
      r := 1;
    } else if okApply || op.mul {
      r := 0;
    } else if 2 in states {
      r := 2;
    } else {
      r := Greatest(states);
    }
    if negated {
      r := ReverseState(r);
    }
  }

  // ---------------------------------------------------------------- the documented answer

  /** Some threshold of the rule has enough sons. */
  predicate SomeApplies(states: seq<int>, op: Connective)
    requires states != [] && op.Of?
  {
    var n := |states|;
    || Applies(n, CountOf(states, 2), op.crit)
    || Applies(n, CountOf(states, 1) + CountOf(states, 2), op.warn)
    || Applies(n, CountOf(states, 0), op.ok)
  }

  /** What the documentation promises: the worst threshold that applies; if none
      does, ok for a simple rule and the worst state for a multiple one. */
  ghost predicate IsDocumented(states: seq<int>, op: Connective, r: int)
    requires states != [] && op.Of?
  {
    if SomeApplies(states, op) then
      && (r == 2 <==> Applies(|states|, CountOf(states, 2), op.crit))
      && (r == 1 ==> Applies(|states|, CountOf(states, 1) + CountOf(states, 2), op.warn))
      && (r == 0 ==> !Applies(|states|, CountOf(states, 1) + CountOf(states, 2), op.warn))
      && 0 <= r <= 2
    else r == if op.mul then Worst(states) else 0
  }

  /** The code answers as documented exactly when a threshold applies or all is well:
      otherwise it has the two fallbacks the wrong way round. */
  lemma DocumentedIff(states: seq<int>, op: Connective)
    requires states != [] && op.Of?
    ensures IsDocumented(states, op, OfState(states, op)) <==> SomeApplies(states, op) || Worst(states) == 0
  {
  }

  /** One ok and one critical son, with 2 wanted of each: critical for the simple
      rule and ok for the multiple one, where ok and critical are documented. */
  lemma FallbacksSwapped()
    ensures var two := Number(2);
            var simple, multiple := Of(two, two, two, false), Of(two, two, two, true);
            && OfState([0, 2], simple) == 2 && IsDocumented([0, 2], simple, 0)
            && OfState([0, 2], multiple) == 0 && IsDocumented([0, 2], multiple, 2)
  {
    var states := [0, 2];
    assert states[1..] == [2] && [2][1..] == [];
    assert CountOf([2], 2) == 1 && CountOf([2], 1) == 0 && CountOf([2], 0) == 0;
    assert CountOf(states, 2) == 1 && CountOf(states, 1) == 0 && CountOf(states, 0) == 1;
    assert 2 in states;
  }

  // ---------------------------------------------------------------- the states stay in range

  predicate InRange(s: int) { 0 <= s <= 2 }

  predicate AllInRange(states: seq<int>) {
    forall i :: 0 <= i < |states| ==> InRange(states[i])
  }

  ghost predicate ItemsInRange(items: Items) {
    forall id :: InRange(items(id).state)
  }

  lemma CombineInRange(op: Connective, states: seq<int>)
    requires states != [] && AllInRange(states)
    ensures InRange(Combine(op, states))
  {
  }

  lemma {:induction false} StateInRange(r: Rule, items: Items)
    requires WellBuilt(r) && ItemsInRange(items)
    ensures InRange(GetState(r, items))
  {
    if r.Group? {
      forall i | 0 <= i < |r.sons|
        ensures InRange(States(r.sons, items)[i])
      {
        StateInRange(r.sons[i], items);
      }
      CombineInRange(r.op, States(r.sons, items));
    }
  }

  // ---------------------------------------------------------------- NOT

  // ---------------------------------------------------------------- what the states are

  /** Under & a rule is as bad as its worst son, under | as good as its best one. */
  lemma GroupIsExtreme(r: Rule, items: Items, i: nat)
    requires WellBuilt(r) && r.Group? && !r.negated && ItemsInRange(items) && i < |r.sons|
    ensures r.op.All? ==> GetState(r, items) >= GetState(r.sons[i], items) && HasSonState(r, items)
    ensures r.op.Any? ==> GetState(r, items) <= GetState(r.sons[i], items) && HasSonState(r, items)
  {
    var states := States(r.sons, items);
    forall k | 0 <= k < |states| ensures InRange(states[k]) { StateInRange(r.sons[k], items); }
    if r.op.All? || r.op.Any? {
      var k :| 0 <= k < |states| && states[k] == Combine(r.op, states);
      assert GetState(r.sons[k], items) == GetState(r, items);
    }
  }

  /** Some son has the state of the rule. */
  ghost predicate HasSonState(r: Rule, items: Items)
    requires WellBuilt(r) && r.Group?
  {
    exists k :: 0 <= k < |r.sons| && GetState(r.sons[k], items) == GetState(r, items)
  }

  /** A host or service is ok in a rule if it is ok, acknowledged or in downtime. Any
      other host is critical; any other service has its own state. */
  lemma LeafStates(id: nat, items: Items)
    requires InRange(items(id).state)
    ensures var item := items(id); var fine := item.state == 0 || item.acknowledged || item.inDowntime;
            && GetState(Host(id, false), items) == (if fine then 0 else 2)
            && GetState(Service(id, false), items) == (if fine then 0 else item.state)
  {
  }

  /** What a threshold asks for, without division: a count, all but a count, a
      percentage, or all but a percentage. */
  lemma AppliesMeaning(total: nat, actual: nat, k: nat)
    requires total > 0 && k > 0
    ensures Applies(total, actual, Number(k)) <==> actual >= k
    ensures Applies(total, actual, Number(0 - k)) <==> actual + k >= total
    ensures Applies(total, actual, Percent(k)) <==> actual * 100 >= k * total
    ensures Applies(total, actual, Percent(0 - k)) <==> (actual * 100 >= (100 - k) * total || k > 100)
  {
    PercentMeaning(total, actual, k);
    if k <= 100 { PercentMeaning(total, actual, 100 - k); }
  }

  lemma PercentMeaning(total: nat, actual: nat, k: nat)
    requires total > 0
    ensures (actual as real) / (total as real) * 100.0 >= k as real <==> actual * 100 >= k * total
  {
    var a, t, w := actual as real, total as real, k as real;
    var q := a / t;
    assert q * t == a;
    ScaledBy(q * 100.0, w, t);
    assert q * 100.0 * t == a * 100.0;
    assert (actual * 100) as real == a * 100.0 && (k * total) as real == w * t;
  }

  lemma ScaledBy(x: real, y: real, t: real)
    requires t > 0.0
    ensures x >= y <==> x * t >= y * t
  {
    if x >= y { assert (x - y) * t >= 0.0; } else { assert (y - x) * t > 0.0; }
  }

  function Flip(r: Rule): Rule { r.(negated := !r.negated) }

  /** Toggling NOT at the top reverses the state, whatever the rule is. */
  lemma FlipReverses(r: Rule, items: Items)
    requires WellBuilt(r) && ItemsInRange(items)
    ensures WellBuilt(Flip(r)) && GetState(Flip(r), items) == 2 - GetState(r, items)
  {
    StateInRange(r, items);
    if r.Group? {
      StateInRange(Group(r.op, r.sons, false), items);
      assert Flip(r).sons == r.sons;
    }
  }

  /** Only & and | groups. */
  predicate Boolean(r: Rule)
    decreases r
  {
    r.Group? ==> (r.op.All? || r.op.Any?) && forall i :: 0 <= i < |r.sons| ==> Boolean(r.sons[i])
  }

  function Dual(op: Connective): Connective {
    if op.All? then Any else All
  }

  /** NOT pushed down to the leaves, swapping & and | under a negation. */
  function PushNot(r: Rule, flip: bool): (p: Rule)
    requires Boolean(r)
    decreases r, 1
  {
    if !r.Group? then (if flip then Flip(r) else r)
    else if r.negated != flip then Group(Dual(r.op), PushAll(r.sons, true), false)
    else Group(r.op, PushAll(r.sons, false), false)
  }

  function PushAll(sons: seq<Rule>, flip: bool): (p: seq<Rule>)
    requires forall i :: 0 <= i < |sons| ==> Boolean(sons[i])
    ensures |p| == |sons| && forall i :: 0 <= i < |sons| ==> p[i] == PushNot(sons[i], flip)
    decreases sons, 0
  {
    if sons == [] then [] else [PushNot(sons[0], flip)] + PushAll(sons[1..], flip)
  }

  /** Negations at the leaves only. */
  predicate NegatedLeavesOnly(r: Rule)
    decreases r
  {
    r.Group? ==> !r.negated && forall i :: 0 <= i < |r.sons| ==> NegatedLeavesOnly(r.sons[i])
  }

  lemma ReversedCombine(op: Connective, states: seq<int>, reversed: seq<int>)
    requires !op.Of? && states != [] && AllInRange(states) && |reversed| == |states|
    requires forall i :: 0 <= i < |states| ==> reversed[i] == 2 - states[i]
    ensures Combine(Dual(op), reversed) == 2 - Combine(op, states)
  {
    assert AllInRange(reversed);
    var i :| 0 <= i < |states| && states[i] == (if op.All? then Greatest(states) else Best(states));
    var j :| 0 <= j < |states| && reversed[j] == (if op.All? then Best(reversed) else Greatest(reversed));
  }

  /** De Morgan: pushing NOT to the leaves keeps the state, and pushing one more
      NOT reverses it. */
  lemma {:induction false} PushNotState(r: Rule, flip: bool, items: Items)
    requires WellBuilt(r) && Boolean(r) && ItemsInRange(items)
    ensures WellBuilt(PushNot(r, flip)) && NegatedLeavesOnly(PushNot(r, flip))
    ensures GetState(PushNot(r, flip), items) == if flip then 2 - GetState(r, items) else GetState(r, items)
    decreases r
  {
    if r.Group? {
      var under := r.negated != flip;
      var p := PushAll(r.sons, under);
      forall i | 0 <= i < |r.sons|
        ensures WellBuilt(p[i]) && NegatedLeavesOnly(p[i])
        ensures GetState(p[i], items) == if under then 2 - GetState(r.sons[i], items) else GetState(r.sons[i], items)
      {
        PushNotState(r.sons[i], under, items);
      }
      PushedGroup(r, under, p, items);
    }
  }

  lemma PushedGroup(r: Rule, under: bool, p: seq<Rule>, items: Items)
    requires r.Group? && WellBuilt(r) && !r.op.Of? && ItemsInRange(items)
    requires |p| == |r.sons| && AllWellBuilt(p)
    requires forall i :: 0 <= i < |p| ==>
               GetState(p[i], items) == if under then 2 - GetState(r.sons[i], items) else GetState(r.sons[i], items)
    ensures var plain := Combine(r.op, States(r.sons, items));
            GetState(Group(if under then Dual(r.op) else r.op, p, false), items) == (if under then 2 - plain else plain)
            && GetState(r, items) == (if r.negated then 2 - plain else plain)
  {
    var states, pushed := States(r.sons, items), States(p, items);
    forall i | 0 <= i < |states| ensures InRange(states[i]) {
      StateInRange(r.sons[i], items);
    }
    CombineInRange(r.op, states);
    if under {
      ReversedCombine(r.op, states, pushed);
    } else {
      assert pushed == states;
    }
  }

  // ---------------------------------------------------------------- monotonicity

  predicate Worse(s: seq<int>, s': seq<int>) {
    |s| == |s'| && forall i :: 0 <= i < |s| ==> s[i] <= s'[i]
  }

  /** Every item is at least as bad as before, and no better hidden. */
  ghost predicate ItemsWorse(items: Items, items': Items) {
    forall id ::
      && items(id).state <= items'(id).state
      && (items'(id).acknowledged ==> items(id).acknowledged)
      && (items'(id).inDowntime ==> items(id).inDowntime)
  }

  lemma AppliesMore(total: nat, few: nat, many: nat, search: Threshold)
    requires total > 0 && few <= many && Applies(total, few, search)
    ensures Applies(total, many, search)
  {
    if search.Percent? {
      assert (few as real) / (total as real) <= (many as real) / (total as real);
    }
  }

  lemma {:induction false} CountsWorse(s: seq<int>, s': seq<int>)
    requires Worse(s, s') && AllInRange(s) && AllInRange(s')
    ensures CountOf(s, 2) <= CountOf(s', 2)
    ensures CountOf(s, 1) + CountOf(s, 2) <= CountOf(s', 1) + CountOf(s', 2)
    ensures CountOf(s, 0) + CountOf(s, 1) + CountOf(s, 2) == |s|
    ensures CountOf(s', 0) + CountOf(s', 1) + CountOf(s', 2) == |s'|
  {
    if s != [] {
      CountsWorse(s[1..], s'[1..]);
    }
  }

  /** A simple of: rule as parsed: two of its values are the number of sons. */
  predicate SimpleOf(op: Connective, sons: nat) {
    op.Of? && !op.mul && op.warn == op.crit == Number(sons)
  }

  /** One son in state ok is enough for the ok value. */
  predicate OneOkIsEnough(op: Connective, sons: nat)
    requires op.Of? && sons > 0
  {
    Applies(sons, 1, op.ok)
  }

  lemma MultipleOfMonotone(op: Connective, s: seq<int>, s': seq<int>)
    requires op.Of? && op.mul && s != [] && Worse(s, s') && AllInRange(s) && AllInRange(s')
    ensures OfState(s, op) <= OfState(s', op)
  {
    CountsWorse(s, s');
    var n := |s|;
    if Applies(n, CountOf(s, 2), op.crit) {
      AppliesMore(n, CountOf(s, 2), CountOf(s', 2), op.crit);
    } else if Applies(n, CountOf(s, 1) + CountOf(s, 2), op.warn) {
      AppliesMore(n, CountOf(s, 1) + CountOf(s, 2), CountOf(s', 1) + CountOf(s', 2), op.warn);
    }
  }

  lemma SimpleOfMonotone(op: Connective, s: seq<int>, s': seq<int>)
    requires s != [] && SimpleOf(op, |s|) && (|s| == 1 || OneOkIsEnough(op, |s|))
    requires Worse(s, s') && AllInRange(s) && AllInRange(s')
    ensures OfState(s, op) <= OfState(s', op)
  {
    CountsWorse(s, s');
    if CountOf(s, 0) >= 1 && |s| > 1 {
      AppliesMore(|s|, 1, CountOf(s, 0), op.ok);
    }
  }

  /** Once two sons are there and one ok is not enough, turning the only ok son
      into a warning improves the rule from critical to warning. */
  lemma SimpleOfImproves(op: Connective, n: nat)
    requires n >= 2 && SimpleOf(op, n) && !OneOkIsEnough(op, n)
    ensures var s, s' := [0] + seq(n - 1, _ => 2), [1] + seq(n - 1, _ => 2);
            Worse(s, s') && AllInRange(s) && AllInRange(s') && OfState(s, op) == 2 && OfState(s', op) == 1
  {
    var twos := seq(n - 1, _ => 2);
    CountConstant(twos);
    assert ([0] + twos)[1..] == twos && ([1] + twos)[1..] == twos;
    assert 2 in twos by { assert twos[0] == 2; }
  }

  lemma {:induction false} CountConstant(s: seq<int>)
    requires forall i :: 0 <= i < |s| ==> s[i] == 2
    ensures CountOf(s, 2) == |s| && CountOf(s, 1) == 0 && CountOf(s, 0) == 0
  {
    if s != [] { CountConstant(s[1..]); }
  }

  ghost predicate OfMonotone(op: Connective, n: nat)
    requires op.Of? && n > 0
  {
    forall s, s' :: |s| == n && Worse(s, s') && AllInRange(s) && AllInRange(s') ==>
      OfState(s, op) <= OfState(s', op)
  }

  /** A simple of: rule is monotone exactly when it has one son or is satisfied by one. */
  lemma SimpleOfMonotoneIff(op: Connective, n: nat)
    requires n > 0 && SimpleOf(op, n)
    ensures OfMonotone(op, n) <==> n == 1 || OneOkIsEnough(op, n)
  {
    if n == 1 || OneOkIsEnough(op, n) {
      forall s, s' | |s| == n && Worse(s, s') && AllInRange(s) && AllInRange(s')
        ensures OfState(s, op) <= OfState(s', op)
      {
        SimpleOfMonotone(op, s, s');
      }
    } else {
      SimpleOfImproves(op, n);
    }
  }

  /** NOT-free rules whose simple of: groups are satisfied by one ok son. */
  predicate Monotone(r: Rule)
    decreases r
  {
    && !r.negated
    && (r.Group? ==>
          && (r.op.Of? && !r.op.mul ==>
                SimpleOf(r.op, |r.sons|) && (|r.sons| <= 1 || OneOkIsEnough(r.op, |r.sons|)))
          && forall i :: 0 <= i < |r.sons| ==> Monotone(r.sons[i]))
  }

  lemma CombineMonotone(op: Connective, s: seq<int>, s': seq<int>)
    requires s != [] && Worse(s, s') && AllInRange(s) && AllInRange(s')
    requires op.Of? && !op.mul ==> SimpleOf(op, |s|) && (|s| == 1 || OneOkIsEnough(op, |s|))
    ensures Combine(op, s) <= Combine(op, s')
  {
    match op
    case All =>
      var i :| 0 <= i < |s| && s[i] == Greatest(s);
      assert s'[i] >= s[i];
    case Any =>
      var i :| 0 <= i < |s'| && s'[i] == Best(s');
      assert s[i] <= s'[i];
    case Of(_, _, _, mul) =>
      if mul { MultipleOfMonotone(op, s, s'); } else { SimpleOfMonotone(op, s, s'); }
  }

  /** Worsening any set of items never improves the rule. */
  lemma {:induction false} StateMonotone(r: Rule, items: Items, items': Items)
    requires WellBuilt(r) && Monotone(r)
    requires ItemsInRange(items) && ItemsInRange(items') && ItemsWorse(items, items')
    ensures GetState(r, items) <= GetState(r, items')
  {
    if r.Group? {
      var s, s' := States(r.sons, items), States(r.sons, items');
      forall i | 0 <= i < |s|
        ensures InRange(s[i]) && InRange(s'[i]) && s[i] <= s'[i]
      {
        StateInRange(r.sons[i], items);
        StateInRange(r.sons[i], items');
        StateMonotone(r.sons[i], items, items');
      }
      CombineMonotone(r.op, s, s');
    } else {
      assert ItemsWorse(items, items');
      assert items(r.id).state <= items'(r.id).state;
    }
  }
}
