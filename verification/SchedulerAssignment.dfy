/** Preparing a dispatch: giving the configuration parts of each realm to the
    schedulers that need a configuration. */
module SchedulerAssignment {
  import opened Options

  type PartId = nat
  type SchedulerId = nat

  datatype Part = Part(isAssigned: bool, scheduler: Option<SchedulerId>)

  datatype SchedulerLink = SchedulerLink(spare: bool, needConf: bool, cfgToManage: Option<PartId>)

  datatype Plan = Plan(parts: map<PartId, Part>, schedulers: map<SchedulerId, SchedulerLink>)

  predicate Assigned(m: Plan, p: PartId) { p in m.parts && m.parts[p].isAssigned }

  predicate Needs(m: Plan, s: SchedulerId) { s in m.schedulers && m.schedulers[s].needConf }

  function Give(m: Plan, p: PartId, s: SchedulerId): Plan
    requires p in m.parts && s in m.schedulers
  {
    Plan(m.parts[p := Part(true, Some(s))],
         m.schedulers[s := m.schedulers[s].(needConf := false, cfgToManage := Some(p))])
  }

  predicate Known(m: Plan, todo: seq<PartId>, candidates: seq<SchedulerId>) {
    && (forall i :: 0 <= i < |todo| ==> todo[i] in m.parts)
    && (forall i :: 0 <= i < |candidates| ==> candidates[i] in m.schedulers)
  }

  /** Pop candidates until one needs a configuration. */
  function PopUntilNeeded(m: Plan, candidates: seq<SchedulerId>): (r: seq<SchedulerId>)
    ensures |r| <= |candidates| && r == candidates[..|r|]
    ensures r != [] ==> Needs(m, r[|r| - 1])
    ensures forall i :: |r| <= i < |candidates| ==> !Needs(m, candidates[i])
  {
    if candidates == [] || Needs(m, candidates[|candidates| - 1]) then candidates
    else PopUntilNeeded(m, candidates[..|candidates| - 1])
  }

  /** The parts of one realm, given out one after the other. */
  function AssignParts(m: Plan, todo: seq<PartId>, candidates: seq<SchedulerId>): Plan
    requires Known(m, todo, candidates)
    decreases |todo|
  {
    if todo == [] then m
    else
      var left := PopUntilNeeded(m, candidates);
      if left == [] then AssignParts(m, todo[1..], [])
      else AssignParts(Give(m, todo[0], left[|left| - 1]), todo[1..], left[..|left| - 1])
  }

  // ---------------------------------------------------------------- what was given

  function Needing(m: Plan, candidates: seq<SchedulerId>): set<SchedulerId> {
    set s | s in candidates && Needs(m, s)
  }

  /** The parts assigned between m and m'. */
  function NewParts(m: Plan, m': Plan): set<PartId> {
    set p | p in m'.parts && Assigned(m', p) && !Assigned(m, p)
  }

  /** The schedulers that no longer need a configuration. */
  function Served(m: Plan, m': Plan): set<SchedulerId> {
    set s | s in m.schedulers && Needs(m, s) && !Needs(m', s)
  }

  /** Each new part and its scheduler point at each other, and nothing else moved. */
  predicate Linked(m: Plan, m': Plan) {
    && m'.parts.Keys == m.parts.Keys && m'.schedulers.Keys == m.schedulers.Keys
    && (forall p :: p in NewParts(m, m') ==>
          && m'.parts[p].scheduler.Some?
          && m'.parts[p].scheduler.value in Served(m, m')
          && m'.schedulers[m'.parts[p].scheduler.value].cfgToManage == Some(p))
    && (forall s :: s in Served(m, m') ==>
          && m'.schedulers[s].cfgToManage.Some?
          && m'.schedulers[s].cfgToManage.value in NewParts(m, m')
          && m'.parts[m'.schedulers[s].cfgToManage.value].scheduler == Some(s))
    && (forall p :: p in m.parts && p !in NewParts(m, m') ==> m'.parts[p] == m.parts[p])
    && (forall s :: s in m.schedulers && s !in Served(m, m') ==> m'.schedulers[s] == m.schedulers[s])
  }

  lemma LinkedRefl(m: Plan)
    ensures Linked(m, m) && NewParts(m, m) == {} && Served(m, m) == {}
  {
  }

  lemma GiveLinked(m: Plan, p: PartId, s: SchedulerId)
    requires p in m.parts && !Assigned(m, p) && Needs(m, s)
    ensures Linked(m, Give(m, p, s))
    ensures NewParts(m, Give(m, p, s)) == {p} && Served(m, Give(m, p, s)) == {s}
  {
    var m' := Give(m, p, s);
    assert NewParts(m, m') == {p};
    assert Served(m, m') == {s};
  }

  lemma LinkedTrans(m: Plan, m1: Plan, m2: Plan)
    requires Linked(m, m1) && Linked(m1, m2)
    ensures Linked(m, m2)
    ensures NewParts(m, m2) == NewParts(m, m1) + NewParts(m1, m2)
    ensures NewParts(m, m1) !! NewParts(m1, m2)
    ensures Served(m, m2) == Served(m, m1) + Served(m1, m2)
    ensures Served(m, m1) !! Served(m1, m2)
  {
    assert forall p :: p in m.parts && Assigned(m, p) ==> m1.parts[p] == m.parts[p];
    assert forall p :: p in m.parts && Assigned(m1, p) ==> m2.parts[p] == m1.parts[p];
    assert forall s :: s in m.schedulers && !Needs(m, s) ==> m1.schedulers[s] == m.schedulers[s];
    assert forall s :: s in m.schedulers && !Needs(m1, s) ==> m2.schedulers[s] == m1.schedulers[s];
    assert NewParts(m, m2) == NewParts(m, m1) + NewParts(m1, m2);
    assert Served(m, m2) == Served(m, m1) + Served(m1, m2);
  }

  predicate Distinct(todo: seq<PartId>) {
    forall i, j :: 0 <= i < j < |todo| ==> todo[i] != todo[j]
  }

  predicate Unassigned(m: Plan, todo: seq<PartId>) {
    forall i :: 0 <= i < |todo| ==> !Assigned(m, todo[i])
  }

  /** The schedulers served are the needing ones of a tail of the list: a list is
      popped from its end. */
  predicate ServedFromEnd(m: Plan, m': Plan, candidates: seq<SchedulerId>) {
    exists cut :: 0 <= cut <= |candidates| && Served(m, m') == Needing(m, candidates[cut..])
  }

  function Min(a: nat, b: nat): nat { if a <= b then a else b }

  lemma GiveKeepsOrder(m: Plan, todo: seq<PartId>, candidates: seq<SchedulerId>, left: seq<SchedulerId>)
    requires Known(m, todo, candidates) && Distinct(todo) && Unassigned(m, todo) && todo != []
    requires 0 < |left| <= |candidates| && left == candidates[..|left|]
    ensures left[|left| - 1] in m.schedulers && !Assigned(m, todo[0])
    ensures var m1 := Give(m, todo[0], left[|left| - 1]);
            Known(m1, todo[1..], left[..|left| - 1]) && Distinct(todo[1..]) && Unassigned(m1, todo[1..])
  {
  }

  /** Inverse links, as many parts given as can be, and from the end of the list. */
  predicate Complete(m: Plan, m': Plan, todo: seq<PartId>, candidates: seq<SchedulerId>) {
    && Linked(m, m')
    && (forall p :: p in NewParts(m, m') ==> p in todo)
    && Served(m, m') <= Needing(m, candidates)
    && |NewParts(m, m')| == |Served(m, m')| == Min(|todo|, |Needing(m, candidates)|)
    && ServedFromEnd(m, m', candidates)
  }

  /** What the assignment of one realm achieves. */
  lemma {:induction false} AssignPartsComplete(m: Plan, todo: seq<PartId>, candidates: seq<SchedulerId>)
    requires Known(m, todo, candidates) && Distinct(todo) && Unassigned(m, todo)
    ensures Complete(m, AssignParts(m, todo, candidates), todo, candidates)
    decreases |todo|
  {
    hide Complete, Unassigned, Distinct, PopUntilNeeded;
    var m' := AssignParts(m, todo, candidates);
    if todo == [] {
      NothingGiven(m, candidates);
    } else {
      var left := PopUntilNeeded(m, candidates);
      if left == [] {
        NothingNeeded(m, todo, candidates);
      } else {
        GiveKeepsOrder(m, todo, candidates, left);
        var m1 := Give(m, todo[0], left[|left| - 1]);
        AssignPartsComplete(m1, todo[1..], left[..|left| - 1]);
        CompleteStep(m, m', todo, candidates, left);
      }
    }
  }

  lemma CompleteStep(m: Plan, m': Plan, todo: seq<PartId>, candidates: seq<SchedulerId>, left: seq<SchedulerId>)
    requires todo != [] && todo[0] in m.parts && !Assigned(m, todo[0])
    requires left != [] && left == PopUntilNeeded(m, candidates)
    requires Complete(Give(m, todo[0], left[|left| - 1]), m', todo[1..], left[..|left| - 1])
    ensures Complete(m, m', todo, candidates)
  {
    hide Linked, NewParts, Served, Needing, ServedFromEnd, PopUntilNeeded;
    var s, rest := left[|left| - 1], left[..|left| - 1];
    var m1 := Give(m, todo[0], s);
    GiveLinked(m, todo[0], s);
    LinkedTrans(m, m1, m');
    NeedingAfterGive(m, todo[0], candidates, left);
    ServedStep(m, todo[0], m', candidates, left);
    SetsStep(todo, s, NewParts(m, m'), NewParts(m1, m'), Served(m, m'), Served(m1, m'),
             Needing(m, candidates), Needing(m1, rest));
  }

  lemma SetsStep(todo: seq<PartId>, s: SchedulerId, given: set<PartId>, given1: set<PartId>,
                 served: set<SchedulerId>, served1: set<SchedulerId>,
                 need: set<SchedulerId>, need1: set<SchedulerId>)
    requires todo != [] && todo[0] !in given1 && s !in served1 && s !in need1
    requires given == {todo[0]} + given1 && served == {s} + served1 && need == need1 + {s}
    requires (forall p :: p in given1 ==> p in todo[1..]) && served1 <= need1
    requires |given1| == |served1| == Min(|todo[1..]|, |need1|)
    ensures (forall p :: p in given ==> p in todo) && served <= need
    ensures |given| == |served| == Min(|todo|, |need|)
  {
    assert given - {todo[0]} == given1 && served - {s} == served1 && need - {s} == need1;
  }

  lemma NothingGiven(m: Plan, candidates: seq<SchedulerId>)
    ensures Complete(m, m, [], candidates)
  {
    LinkedRefl(m);
    NothingServed(m, candidates);
  }

  lemma NothingServed(m: Plan, candidates: seq<SchedulerId>)
    ensures ServedFromEnd(m, m, candidates)
  {
    assert candidates[|candidates|..] == [];
    assert Served(m, m) == Needing(m, candidates[|candidates|..]);
  }

  lemma NothingNeeded(m: Plan, todo: seq<PartId>, candidates: seq<SchedulerId>)
    requires Known(m, todo, candidates) && todo != [] && PopUntilNeeded(m, candidates) == []
    ensures Complete(m, AssignParts(m, todo, candidates), todo, candidates)
  {
    EmptyAssigns(m, todo[1..]);
    LinkedRefl(m);
    NothingServed(m, candidates);
    assert Needing(m, candidates) == {};
  }

  lemma {:induction false} EmptyAssigns(m: Plan, todo: seq<PartId>)
    requires Known(m, todo, [])
    ensures AssignParts(m, todo, []) == m
    decreases |todo|
  {
    if todo != [] {
      EmptyAssigns(m, todo[1..]);
    }
  }

  /** Serving the last needing candidate removes exactly it from those in need. */
  lemma NeedingAfterGive(m: Plan, p: PartId, candidates: seq<SchedulerId>, left: seq<SchedulerId>)
    requires left != [] && left == PopUntilNeeded(m, candidates) && p in m.parts
    ensures var s, rest := left[|left| - 1], left[..|left| - 1];
            && s !in Needing(Give(m, p, s), rest)
            && Needing(m, candidates) == Needing(Give(m, p, s), rest) + {s}
  {
    var s, rest := left[|left| - 1], left[..|left| - 1];
    TailNeeding(m, p, candidates, left, 0);
    assert candidates[0..] == candidates && rest[0..] == rest;
  }

  lemma TailNeeding(m: Plan, p: PartId, candidates: seq<SchedulerId>, left: seq<SchedulerId>, cut: nat)
    requires left != [] && left == PopUntilNeeded(m, candidates) && p in m.parts && cut < |left|
    ensures var s, rest := left[|left| - 1], left[..|left| - 1];
            Needing(m, candidates[cut..]) == Needing(Give(m, p, s), rest[cut..]) + {s}
  {
    var s, rest := left[|left| - 1], left[..|left| - 1];
    var m1, tail := Give(m, p, s), candidates[cut..];
    forall x
      ensures x in Needing(m, tail) <==> x == s || x in Needing(m1, rest[cut..])
    {
      if x in Needing(m, tail) {
        var i :| 0 <= i < |tail| && tail[i] == x;
        assert candidates[cut + i] == x && cut + i < |left|;
        assert x != s ==> cut + i < |rest| && rest[cut..][i] == x;
      }
      if x in Needing(m1, rest[cut..]) {
        var i :| 0 <= i < |rest[cut..]| && rest[cut..][i] == x;
        assert tail[i] == x;
      }
      if x == s {
        assert tail[|left| - 1 - cut] == s;
      }
    }
  }

  lemma ServedStep(m: Plan, p: PartId, m': Plan, candidates: seq<SchedulerId>, left: seq<SchedulerId>)
    requires left != [] && left == PopUntilNeeded(m, candidates) && p in m.parts
    requires var m1 := Give(m, p, left[|left| - 1]);
             Served(m, m') == {left[|left| - 1]} + Served(m1, m') && ServedFromEnd(m1, m', left[..|left| - 1])
    ensures ServedFromEnd(m, m', candidates)
  {
    hide Served, Needing;
    var rest := left[..|left| - 1];
    var m1 := Give(m, p, left[|left| - 1]);
    var cut :| 0 <= cut <= |rest| && Served(m1, m') == Needing(m1, rest[cut..]);
    TailNeeding(m, p, candidates, left, cut);
    assert Served(m, m') == Needing(m, candidates[cut..]);
  }

  // ---------------------------------------------------------------- masters and spares

  predicate MastersThenSpares(m: Plan, candidates: seq<SchedulerId>)
    requires forall i :: 0 <= i < |candidates| ==> candidates[i] in m.schedulers
  {
    forall i, j :: 0 <= i < j < |candidates| && m.schedulers[candidates[i]].spare ==> m.schedulers[candidates[j]].spare
  }

  predicate SomeMasterLeftOut(m: Plan, m': Plan, candidates: seq<SchedulerId>) {
    exists a :: a in Needing(m, candidates) && a !in Served(m, m') && !m.schedulers[a].spare
  }

  predicate SomeSpareServed(m: Plan, m': Plan) {
    exists b :: b in Served(m, m') && m.schedulers[b].spare
  }

  /** No spare is served while a master that needs a configuration is left out. */
  predicate MastersFirst(m: Plan, m': Plan, candidates: seq<SchedulerId>) {
    !(SomeMasterLeftOut(m, m', candidates) && SomeSpareServed(m, m'))
  }

  predicate SomeSpareNeeds(m: Plan, candidates: seq<SchedulerId>) {
    exists s :: s in Needing(m, candidates) && m.schedulers[s].spare
  }

  predicate SomeMasterNeeds(m: Plan, candidates: seq<SchedulerId>) {
    exists s :: s in Needing(m, candidates) && !m.schedulers[s].spare
  }

  /** The list handed over has the masters first, and is popped from its end: so
      masters come first exactly when there is nothing to give, no spare in need,
      no master in need, or enough parts for all in need. */
  lemma MastersFirstIff(m: Plan, todo: seq<PartId>, candidates: seq<SchedulerId>)
    requires Known(m, todo, candidates) && Distinct(todo) && Unassigned(m, todo)
    requires MastersThenSpares(m, candidates)
    ensures MastersFirst(m, AssignParts(m, todo, candidates), candidates) <==>
              || todo == [] || !SomeSpareNeeds(m, candidates) || !SomeMasterNeeds(m, candidates)
              || |todo| >= |Needing(m, candidates)|
  {
    hide Linked, NewParts, Served, Needing, AssignParts;
    var m' := AssignParts(m, todo, candidates);
    AssignPartsComplete(m, todo, candidates);
    var need, served := Needing(m, candidates), Served(m, m');
    if |todo| >= |need| {
      SubsetSameSize(served, need);
    } else if todo != [] && SomeSpareNeeds(m, candidates) && SomeMasterNeeds(m, candidates) {
      var cut :| 0 <= cut <= |candidates| && served == Needing(m, candidates[cut..]);
      assert |need - served| == |need| - |served|;
      SpareIsServed(m, m', candidates, cut);
      MasterIsLeftOut(m, m', candidates, cut);
    }
  }

  /** One part, a master and a spare that both need a configuration: the spare gets it. */
  lemma SpareIsPreferred()
    ensures var m := Plan(map[0 := Part(false, None)],
                          map[0 := SchedulerLink(false, true, None), 1 := SchedulerLink(true, true, None)]);
            && MastersThenSpares(m, [0, 1]) && Known(m, [0], [0, 1])
            && AssignParts(m, [0], [0, 1]).parts[0].scheduler == Some(1)
            && !MastersFirst(m, AssignParts(m, [0], [0, 1]), [0, 1])
  {
    var m := Plan(map[0 := Part(false, None)],
                  map[0 := SchedulerLink(false, true, None), 1 := SchedulerLink(true, true, None)]);
    var candidates := [0, 1];
    assert PopUntilNeeded(m, candidates) == candidates;
    assert AssignParts(m, [0], candidates) == AssignParts(Give(m, 0, 1), [], [0]);
    assert 0 in candidates && 1 in candidates;
    assert Needing(m, candidates) == {0, 1};
    MastersFirstIff(m, [0], candidates);
  }

  lemma SubsetSameSize(a: set<SchedulerId>, b: set<SchedulerId>)
    requires a <= b && |a| == |b|
    ensures a == b
  {
    assert |b - a| == 0;
  }

  lemma SpareIsServed(m: Plan, m': Plan, candidates: seq<SchedulerId>, cut: nat)
    requires forall i :: 0 <= i < |candidates| ==> candidates[i] in m.schedulers
    requires MastersThenSpares(m, candidates) && cut <= |candidates|
    requires Served(m, m') == Needing(m, candidates[cut..]) && Served(m, m') != {}
    requires SomeSpareNeeds(m, candidates)
    ensures SomeSpareServed(m, m')
  {
    var b :| b in Served(m, m');
    var k :| 0 <= k < |candidates[cut..]| && candidates[cut..][k] == b;
    assert candidates[cut + k] == b;
    var spare :| spare in Needing(m, candidates) && m.schedulers[spare].spare;
    var j :| 0 <= j < |candidates| && candidates[j] == spare;
    if !m.schedulers[b].spare {
      assert j >= cut + k;
      assert candidates[cut..][j - cut] == spare;
      assert spare in Served(m, m');
    }
  }

  lemma MasterIsLeftOut(m: Plan, m': Plan, candidates: seq<SchedulerId>, cut: nat)
    requires forall i :: 0 <= i < |candidates| ==> candidates[i] in m.schedulers
    requires MastersThenSpares(m, candidates) && cut <= |candidates|
    requires Served(m, m') == Needing(m, candidates[cut..]) && Needing(m, candidates) - Served(m, m') != {}
    requires SomeMasterNeeds(m, candidates)
    ensures SomeMasterLeftOut(m, m', candidates)
  {
    hide Served;
    var out :| out in Needing(m, candidates) && out !in Served(m, m');
    var master :| master in Needing(m, candidates) && !m.schedulers[master].spare;
    if master in Served(m, m') {
      // a served master lies behind the cut, so everything before the cut is a master
      NeedingIsCandidate(m, candidates, out);
      var i :| 0 <= i < |candidates| && candidates[i] == out;
      NeedingIsCandidate(m, candidates[cut..], master);
      var k :| 0 <= k < |candidates[cut..]| && candidates[cut..][k] == master;
      assert candidates[cut + k] == master;
      NotServedIsBeforeCut(m, candidates, cut, i);
    }
  }

  lemma NeedingIsCandidate(m: Plan, candidates: seq<SchedulerId>, s: SchedulerId)
    requires s in Needing(m, candidates)
    ensures s in candidates && Needs(m, s)
  {
  }

  lemma NotServedIsBeforeCut(m: Plan, candidates: seq<SchedulerId>, cut: nat, i: nat)
    requires cut <= |candidates| && i < |candidates| && Needs(m, candidates[i])
    requires candidates[i] !in Needing(m, candidates[cut..])
    ensures i < cut
  {
    if i >= cut {
      InTail(candidates, cut, i);
    }
  }

  lemma InTail(candidates: seq<SchedulerId>, cut: nat, i: nat)
    requires cut <= i < |candidates|
    ensures candidates[i] in candidates[cut..]
  {
    assert candidates[cut..][i - cut] == candidates[i];
  }

  // ---------------------------------------------------------------- all realms

  /** A realm with its parts and its candidate schedulers. ends tells that the
      preparation of its satellites returned early, which skips later realms. */
  datatype Realm = Realm(parts: seq<PartId>, candidates: seq<SchedulerId>, ends: bool)

  function ToDispatch(m: Plan, parts: seq<PartId>): (r: seq<PartId>)
    ensures forall p :: p in r <==> p in parts && !Assigned(m, p)
    ensures Distinct(parts) ==> Distinct(r)
  {
    if parts == [] then []
    else if Assigned(m, parts[0]) then ToDispatch(m, parts[1..])
    else [parts[0]] + ToDispatch(m, parts[1..])
  }

  function PrepareRealm(m: Plan, realm: Realm): Plan
    requires Known(m, realm.parts, realm.candidates)
  {
    var todo := ToDispatch(m, realm.parts);
    if todo == [] || realm.candidates == [] then m
    else
      assert forall i :: 0 <= i < |todo| ==> todo[i] in realm.parts by {
        assert forall i :: 0 <= i < |todo| ==> todo[i] in todo;
      }
      AssignParts(m, todo, realm.candidates)
  }

  /** A realm with nothing to give or nobody to give it to never ends the pass. */
  predicate Ends(m: Plan, realm: Realm) {
    realm.ends && ToDispatch(m, realm.parts) != [] && realm.candidates != []
  }

  predicate AllKnown(m: Plan, realms: seq<Realm>) {
    forall i :: 0 <= i < |realms| ==>
      Known(m, realms[i].parts, realms[i].candidates) && Distinct(realms[i].parts)
  }

  lemma PrepareRealmLinked(m: Plan, realm: Realm)
    requires Known(m, realm.parts, realm.candidates) && Distinct(realm.parts)
    ensures var m' := PrepareRealm(m, realm);
            && Linked(m, m')
            && |NewParts(m, m')| == Min(|ToDispatch(m, realm.parts)|, |Needing(m, realm.candidates)|)
  {
    var todo := ToDispatch(m, realm.parts);
    LinkedRefl(m);
    if todo == [] || realm.candidates == [] {
      assert realm.candidates == [] ==> Needing(m, realm.candidates) == {};
    } else {
      assert forall i :: 0 <= i < |todo| ==> todo[i] in todo;
      AssignPartsComplete(m, todo, realm.candidates);
    }
  }

  function PrepareAll(m: Plan, realms: seq<Realm>): (m': Plan)
    requires AllKnown(m, realms)
    ensures Linked(m, m')
    decreases |realms|
  {
    LinkedRefl(m);
    if realms == [] then m
    else
      PrepareRealmLinked(m, realms[0]);
      var m1 := PrepareRealm(m, realms[0]);
      if Ends(m, realms[0]) then m1
      else
        assert AllKnown(m1, realms[1..]);
        var m2 := PrepareAll(m1, realms[1..]);
        LinkedTrans(m, m1, m2);
        m2
  }

  /** The plan before the i-th realm, when all earlier ones are processed. */
  function Before(m: Plan, realms: seq<Realm>, i: nat): (m': Plan)
    requires AllKnown(m, realms) && i <= |realms|
    ensures AllKnown(m', realms)
  {
    if i == 0 then m
    else
      var m1 := Before(m, realms, i - 1);
      PrepareRealmLinked(m1, realms[i - 1]);
      PrepareRealm(m1, realms[i - 1])
  }

  /** A realm that is processed gets as many parts as it can. */
  predicate Processed(m: Plan, realms: seq<Realm>, i: nat)
    requires AllKnown(m, realms) && i < |realms|
  {
    var m0, m1 := Before(m, realms, i), Before(m, realms, i + 1);
    |NewParts(m0, m1)| == Min(|ToDispatch(m0, realms[i].parts)|, |Needing(m0, realms[i].candidates)|)
  }

  lemma PrepareStep(m: Plan, realms: seq<Realm>, i: nat)
    requires AllKnown(m, realms) && i < |realms|
    ensures AllKnown(Before(m, realms, i), realms[i..]) && AllKnown(Before(m, realms, i + 1), realms[i + 1..])
    ensures PrepareAll(Before(m, realms, i), realms[i..]) ==
              if Ends(Before(m, realms, i), realms[i]) then Before(m, realms, i + 1)
              else PrepareAll(Before(m, realms, i + 1), realms[i + 1..])
  {
    assert realms[i..][1..] == realms[i + 1..] && realms[i..][0] == realms[i];
    hide PrepareRealm, Ends, Known, Linked;
  }

  /** The i-th realm ends the pass. */
  predicate EndsAt(m: Plan, realms: seq<Realm>, i: nat)
    requires AllKnown(m, realms) && i < |realms|
  {
    Ends(Before(m, realms, i), realms[i])
  }

  lemma NothingLeft(m: Plan, realms: seq<Realm>)
    requires AllKnown(m, realms)
    ensures AllKnown(Before(m, realms, |realms|), realms[|realms|..])
    ensures PrepareAll(Before(m, realms, |realms|), realms[|realms|..]) == Before(m, realms, |realms|)
  {
    hide Before;
  }

  lemma {:induction false} ProcessedFrom(m: Plan, realms: seq<Realm>, i: nat) returns (k: nat)
    requires AllKnown(m, realms) && i <= |realms|
    ensures i <= k <= |realms| && AllKnown(Before(m, realms, i), realms[i..])
    ensures PrepareAll(Before(m, realms, i), realms[i..]) == Before(m, realms, k)
    ensures forall j :: i <= j < k - 1 ==> !EndsAt(m, realms, j)
    ensures k == |realms| || (k > i && EndsAt(m, realms, k - 1))
    decreases |realms| - i
  {
    hide PrepareAll, Before, Ends, AllKnown;
    if i == |realms| {
      k := i;
      NothingLeft(m, realms);
    } else {
      PrepareStep(m, realms, i);
      if EndsAt(m, realms, i) {
        k := i + 1;
      } else {
        k := ProcessedFrom(m, realms, i + 1);
      }
    }
  }

  /** The realms are processed one after the other, each to the full, up to the last
      one or to the first that ends the pass. */
  lemma RealmsProcessed(m: Plan, realms: seq<Realm>) returns (k: nat)
    requires AllKnown(m, realms)
    ensures k <= |realms| && PrepareAll(m, realms) == Before(m, realms, k)
    ensures forall i :: 0 <= i < k ==> Processed(m, realms, i)
    ensures forall i :: 0 <= i < k - 1 ==> !EndsAt(m, realms, i)
    ensures k == |realms| || (k > 0 && EndsAt(m, realms, k - 1))
  {
    assert realms[0..] == realms && Before(m, realms, 0) == m;
    hide PrepareAll, EndsAt, AllKnown, Processed, Before;
    k := ProcessedFrom(m, realms, 0);
    forall i | 0 <= i < k ensures Processed(m, realms, i) {
      RealmProcessed(m, realms, i);
    }
  }

  lemma RealmProcessed(m: Plan, realms: seq<Realm>, i: nat)
    requires AllKnown(m, realms) && i < |realms|
    ensures Processed(m, realms, i)
  {
    PrepareRealmLinked(Before(m, realms, i), realms[i]);
  }

  /** A realm that has nothing to give, or nobody to give it to, is passed over. */
  lemma IdleRealmPassedOver(m: Plan, realm: Realm, rest: seq<Realm>)
    requires AllKnown(m, [realm] + rest) && AllKnown(m, rest)
    requires (forall p :: p in realm.parts ==> Assigned(m, p)) || realm.candidates == []
    ensures PrepareAll(m, [realm] + rest) == PrepareAll(m, rest)
  {
    var todo := ToDispatch(m, realm.parts);
    if todo != [] { assert todo[0] in todo; }
    assert ([realm] + rest)[1..] == rest;
    hide AllKnown, Linked;
  }

  /** Over all realms: no scheduler receives two parts and no part two schedulers. */
  lemma AssignmentInjective(m: Plan, realms: seq<Realm>, p: PartId, q: PartId)
    requires AllKnown(m, realms)
    requires p in NewParts(m, PrepareAll(m, realms)) && q in NewParts(m, PrepareAll(m, realms))
    requires PrepareAll(m, realms).parts[p].scheduler == PrepareAll(m, realms).parts[q].scheduler
    ensures p == q
  {
    var m' := PrepareAll(m, realms);
    assert m'.schedulers[m'.parts[p].scheduler.value].cfgToManage == Some(p);
    assert m'.schedulers[m'.parts[q].scheduler.value].cfgToManage == Some(q);
  }

  // ---------------------------------------------------------------- the loops

  class Preparation {
    var parts: map<PartId, Part>
    var schedulers: map<SchedulerId, SchedulerLink>

    function View(): Plan
      reads this
    {
      Plan(parts, schedulers)
    }

    /** The inner loop: pop until a scheduler needs a configuration. */
    method PopScheduler(candidates: seq<SchedulerId>) returns (link: Option<SchedulerId>, list: seq<SchedulerId>)
      ensures link.None? <==> PopUntilNeeded(View(), candidates) == []
      ensures link.None? ==> list == []
      ensures link.Some? ==> list + [link.value] == PopUntilNeeded(View(), candidates)
    {
      list := candidates;
      while list != []
        invariant PopUntilNeeded(View(), list) == PopUntilNeeded(View(), candidates)
      {
        var s := list[|list| - 1];
        assert list == list[..|list| - 1] + [s];
        if s in schedulers && schedulers[s].needConf {
          return Some(s), list[..|list| - 1];
        }
        list := list[..|list| - 1];
      }
      link := None;
    }

    /** The loop over the parts of a realm. */
    method AssignRealm(todo: seq<PartId>, candidates: seq<SchedulerId>)
      requires Known(View(), todo, candidates)
      modifies this
      ensures View() == AssignParts(old(View()), todo, candidates)
    {
      var list := candidates;
      for i := 0 to |todo|
        invariant Known(View(), todo[i..], list)
        invariant AssignParts(View(), todo[i..], list) == AssignParts(old(View()), todo, candidates)
      {
        assert todo[i..][1..] == todo[i + 1..] && todo[i..][0] == todo[i];
        var link, rest := PopScheduler(list);
        if link.Some? {
          ghost var left := PopUntilNeeded(View(), list);
          assert left[|left| - 1] == link.value && left[..|left| - 1] == rest;
          parts := parts[todo[i] := Part(true, Some(link.value))];
          schedulers := schedulers[link.value :=
            schedulers[link.value].(needConf := false, cfgToManage := Some(todo[i]))];
        }
        list := rest;
      }
    }
  }
}
