/** The hostgroup and template expressions: the recursive character scanner,
    and the resolution of the parsed tree to a set of elements. */
module GroupExpressionParser {
  import opened Text

  datatype Operand = NoOperand | Or | And

  /** Only leaves carry a negation: a ! in front of a parenthesis is not one. */
  datatype Tree =
    | Leaf(name: string, negated: bool)
    | Node(operand: Operand, sons: seq<Tree>)

  predicate IsOr(c: char) { c == ',' || c == '|' }

  predicate IsAnd(c: char) { c == '&' || c == '+' }

  predicate IsSpecial(c: char) { IsOr(c) || IsAnd(c) || c == '(' || c == ')' }

  predicate HasSpecial(s: string) {
    s != "" && (IsSpecial(s[0]) || HasSpecial(s[1..]))
  }

  // ---------------------------------------------------------------- scanner

  /** The local variables of the scan. */
  datatype Scan = Scan(operand: Operand, sons: seq<Tree>, tmp: string, depth: int, inPar: bool)

  const START := Scan(NoOperand, [], "", 0, false)

  /** A special character has been consumed for good, or the next one will be. */
  ghost predicate Fits(s: Scan, rest: string, limit: nat) {
    && |s.tmp| + |rest| <= limit
    && (|s.tmp| + |rest| < limit || (s.depth == 0 && !s.inPar && HasSpecial(rest)))
  }

  function Push(s: Scan, c: char): Scan { s.(tmp := s.tmp + [c]) }

  function Open(s: Scan): Scan {
    var tmp := Strip(s.tmp);
    s.(depth := s.depth + 1, inPar := true, tmp := if s.depth + 1 > 1 then tmp + "(" else tmp)
  }

  function OperandOf(c: char): Operand { if IsOr(c) then Or else And }

  function ParseLeaf(p: string): Tree {
    if p != "" && p[0] == '!' then Leaf(Strip(p[1..]), true) else Leaf(Strip(p), false)
  }

  function Parse(pattern: string): Tree
    decreases |pattern|, 2, 0
  {
    var p := Strip(pattern);
    if HasSpecial(p) then ScanFrom(START, p, |p|) else ParseLeaf(p)
  }

  function ScanFrom(s: Scan, rest: string, limit: nat): Tree
    requires Fits(s, rest, limit)
    decreases limit, 1, |rest|
  {
    if rest == "" then AtEnd(s, limit)
    else ScanFrom(OneChar(s, rest[0], limit), rest[1..], limit)
  }

  function AtEnd(s: Scan, limit: nat): Tree
    requires |s.tmp| < limit
    decreases limit, 0, 1
  {
    var s' := Cut(s, limit);
    Node(s'.operand, s'.sons)
  }

  /** Parse the text kept so far, if there is any, as a son. */
  function Cut(s: Scan, limit: nat): (s': Scan)
    requires |s.tmp| < limit
    ensures s'.tmp == "" && s'.depth == s.depth && s'.inPar == s.inPar
    decreases limit, 0, 0
  {
    var tmp := Strip(s.tmp);
    s.(sons := if tmp == "" then s.sons else s.sons + [Parse(tmp)], tmp := "")
  }

  /** One turn of the character loop. */
  function OneChar(s: Scan, c: char, limit: nat): (s': Scan)
    requires |s.tmp| < limit
    ensures |s'.tmp| <= |s.tmp| + 1
    ensures s.depth == 0 && !s.inPar ==>
              if IsSpecial(c) then |s'.tmp| <= |s.tmp| else s'.depth == 0 && !s'.inPar
    decreases limit, 0, 1
  {
    if IsOr(c) || IsAnd(c) then
      if s.inPar then Push(s, c) else Cut(s.(operand := OperandOf(c)), limit)
    else if c == '(' then Open(s)
    else if c == ')' then
      var s1 := s.(depth := s.depth - 1);
      if s1.depth < 0 then s1
      else if s1.depth == 0 then s1.(sons := s.sons + [Parse(Strip(s.tmp))], inPar := false, tmp := "")
      else Push(s1, c)
    else Push(s, c)
  }

  // ---------------------------------------------------------------- the loop

  method EvalCorPattern(pattern: string) returns (r: Tree)
    ensures r == Parse(pattern)
    decreases |pattern|, 2
  {
    var p := Strip(pattern);
    if !HasSpecial(p) {
      return ParseLeaf(p);
    }
    var scan := START;
    var i := 0;
    while i < |p|
      invariant i <= |p|
      invariant Fits(scan, p[i..], |p|)
      invariant ScanFrom(scan, p[i..], |p|) == ScanFrom(START, p, |p|)
    {
      assert p[i..][1..] == p[i + 1..];
      scan := ScanChar(scan, p[i], |p|);
      i := i + 1;
    }
    assert ScanFrom(scan, p[i..], |p|) == AtEnd(scan, |p|);
    var tmp := Strip(scan.tmp);
    if tmp != "" {
      var son := EvalCorPattern(tmp);
      scan := scan.(sons := scan.sons + [son]);
    }
    r := Node(scan.operand, scan.sons);
  }

  /** The body of the loop, branch by branch. */
  method ScanChar(s: Scan, c: char, limit: nat) returns (s': Scan)
    requires |s.tmp| < limit
    ensures s' == OneChar(s, c, limit)
    decreases limit, 1
  {
    var Scan(operand, sons, tmp, stacked, inPar) := s;
    if c == ',' || c == '|' || c == '&' || c == '+' {
      if inPar {
        tmp := tmp + [c];
      } else {
        tmp := Strip(tmp);
        operand := if c == ',' || c == '|' then Or else And;
        if tmp != "" {
          var son := EvalCorPattern(tmp);
          sons := sons + [son];
        }
        tmp := "";
      }
    } else if c == '(' {
      stacked := stacked + 1;
      inPar := true;
      tmp := Strip(tmp);
      if stacked > 1 {
        tmp := tmp + [c];
      }
    } else if c == ')' {
      stacked := stacked - 1;
      if stacked == 0 {
        var son := EvalCorPattern(Strip(tmp));
        sons := sons + [son];
        inPar, tmp := false, "";
      } else if stacked > 0 {
        tmp := tmp + [c];
      }
    } else {
      tmp := tmp + [c];
    }
    s' := Scan(operand, sons, tmp, stacked, inPar);
  }

  // ---------------------------------------------------------------- resolution

  type Element = string

  type Lookup = string -> set<Element>

  predicate Negated(t: Tree) { t.Leaf? && t.negated }

  /** Whether x belongs to the node: to some (|) or to all (&) of its positive
      sons, of which there must be one, and to none of its negated sons. */
  ghost predicate Member(t: Tree, x: Element, find: Lookup)
    decreases t
  {
    match t
    case Leaf(name, _) => x in find(name)
    case Node(op, sons) =>
      && (exists i :: 0 <= i < |sons| && !Negated(sons[i]) && Member(sons[i], x, find))
      && (op.And? ==> forall i :: 0 <= i < |sons| && !Negated(sons[i]) ==> Member(sons[i], x, find))
      && (forall i :: 0 <= i < |sons| && Negated(sons[i]) ==> !Member(sons[i], x, find))
  }

  ghost predicate SomeMember(sons: seq<Tree>, negated: bool, x: Element, find: Lookup) {
    exists i :: 0 <= i < |sons| && Negated(sons[i]) == negated && Member(sons[i], x, find)
  }

  ghost predicate AllMember(sons: seq<Tree>, x: Element, find: Lookup) {
    forall i :: 0 <= i < |sons| && !Negated(sons[i]) ==> Member(sons[i], x, find)
  }

  lemma SomeMemberAppend(done: seq<Tree>, son: Tree, find: Lookup)
    ensures forall negated, x :: SomeMember(done + [son], negated, x, find) <==>
              SomeMember(done, negated, x, find) || (Negated(son) == negated && Member(son, x, find))
  {
    var sons := done + [son];
    forall negated, x
      ensures SomeMember(sons, negated, x, find) <==>
              SomeMember(done, negated, x, find) || (Negated(son) == negated && Member(son, x, find))
    {
      if SomeMember(done, negated, x, find) {
        var i :| 0 <= i < |done| && Negated(done[i]) == negated && Member(done[i], x, find);
        assert sons[i] == done[i];
      }
      if Negated(son) == negated && Member(son, x, find) {
        assert sons[|done|] == son;
      }
    }
  }

  lemma AllMemberAppend(done: seq<Tree>, son: Tree, x: Element, find: Lookup)
    ensures AllMember(done + [son], x, find) <==>
              AllMember(done, x, find) && (!Negated(son) ==> Member(son, x, find))
  {
    var sons := done + [son];
    if AllMember(sons, x, find) {
      forall i | 0 <= i < |done| && !Negated(done[i]) ensures Member(done[i], x, find) {
        assert sons[i] == done[i];
      }
      assert sons[|done|] == son;
    }
  }

  lemma PositiveSon(op: Operand, done: seq<Tree>, son: Tree, before: set<Element>, members: set<Element>,
                    first: bool, find: Lookup)
    requires !Negated(son) && (forall x :: x in members <==> Member(son, x, find))
    requires first <==> forall j :: 0 <= j < |done| ==> Negated(done[j])
    requires forall x :: x in before <==>
               SomeMember(done, false, x, find) && (op.And? ==> AllMember(done, x, find))
    ensures var after := if !op.And? then before + members else if first then members else before * members;
            forall x :: x in after <==>
              SomeMember(done + [son], false, x, find) && (op.And? ==> AllMember(done + [son], x, find))
  {
    SomeMemberAppend(done, son, find);
    forall x
      ensures AllMember(done + [son], x, find) <==> AllMember(done, x, find) && Member(son, x, find)
      ensures first ==> AllMember(done, x, find)
      ensures !first && AllMember(done, x, find) ==> SomeMember(done, false, x, find)
    {
      AllMemberAppend(done, son, x, find);
    }
  }

  lemma NegativeSonSkipped(done: seq<Tree>, son: Tree, find: Lookup)
    requires Negated(son)
    ensures forall x :: SomeMember(done + [son], false, x, find) <==> SomeMember(done, false, x, find)
    ensures forall x :: AllMember(done + [son], x, find) <==> AllMember(done, x, find)
  {
    SomeMemberAppend(done, son, find);
    forall x ensures AllMember(done + [son], x, find) <==> AllMember(done, x, find) {
      AllMemberAppend(done, son, x, find);
    }
  }

  lemma MemberOfNode(t: Tree, x: Element, find: Lookup)
    requires t.Node?
    ensures Member(t, x, find) <==>
              && SomeMember(t.sons, false, x, find)
              && (t.operand.And? ==> AllMember(t.sons, x, find))
              && !SomeMember(t.sons, true, x, find)
  {
  }

  /** The order of the sons does not matter, nor how often one is written. */
  lemma SonsOrderIsIrrelevant(op: Operand, sons: seq<Tree>, sons': seq<Tree>, x: Element, find: Lookup)
    requires forall t :: t in sons <==> t in sons'
    ensures Member(Node(op, sons), x, find) <==> Member(Node(op, sons'), x, find)
  {
    SameSonsInclude(op, sons, sons', x, find);
    SameSonsInclude(op, sons', sons, x, find);
  }

  lemma SameSonsInclude(op: Operand, sons: seq<Tree>, sons': seq<Tree>, x: Element, find: Lookup)
    requires forall t :: t in sons <==> t in sons'
    ensures Member(Node(op, sons), x, find) ==> Member(Node(op, sons'), x, find)
  {
    if Member(Node(op, sons), x, find) {
      var i :| 0 <= i < |sons| && !Negated(sons[i]) && Member(sons[i], x, find);
      assert sons[i] in sons';
      var j :| 0 <= j < |sons'| && sons'[j] == sons[i];
      forall k | 0 <= k < |sons'|
        ensures exists m :: 0 <= m < |sons| && sons[m] == sons'[k]
      {
        assert sons'[k] in sons;
      }
    }
  }

  /** The loops of the resolution compute exactly the members. */
  method ResolveElements(t: Tree, find: Lookup) returns (res: set<Element>)
    ensures forall x :: x in res <==> Member(t, x, find)
    decreases t
  {
    if t.Leaf? {
      return find(t.name);
    }
    res := {};
    var first := true;
    for i := 0 to |t.sons|
      invariant first <==> forall j :: 0 <= j < i ==> Negated(t.sons[j])
      invariant forall x :: x in res <==>
                  SomeMember(t.sons[..i], false, x, find) && (t.operand.And? ==> AllMember(t.sons[..i], x, find))
    {
      var done := t.sons[..i];
      assert t.sons[..i + 1] == done + [t.sons[i]];
      if !Negated(t.sons[i]) {
        var members := ResolveElements(t.sons[i], find);
        ghost var before := res;
        if !t.operand.And? {
          res := res + members;
        } else if first {
          res := members;
        } else {
          res := res * members;
        }
        PositiveSon(t.operand, done, t.sons[i], before, members, first, find);
        first := false;
      } else {
        NegativeSonSkipped(done, t.sons[i], find);
      }
    }
    assert t.sons[..|t.sons|] == t.sons;
    ghost var positive := res;
    for i := 0 to |t.sons|
      invariant forall x :: x in res <==> x in positive && !SomeMember(t.sons[..i], true, x, find)
    {
      assert t.sons[..i + 1] == t.sons[..i] + [t.sons[i]];
      if Negated(t.sons[i]) {
        var members := ResolveElements(t.sons[i], find);
        res := res - members;
      }
      SomeMemberAppend(t.sons[..i], t.sons[i], find);
    }
    forall x ensures x in res <==> Member(t, x, find) {
      MemberOfNode(t, x, find);
    }
  }
}
