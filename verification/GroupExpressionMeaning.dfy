/** Printing a group expression, parsing it back, and what it then selects. */
module GroupExpressionMeaning {
  import opened Text
  import opened GroupExpressionParser

  /** An expression as a user means it. A list node keeps the character that
      separates its parts: , or | for the union, & or + for the intersection. */
  datatype Expr =
    | Name(name: string, negated: bool)
    | List(separator: char, parts: seq<Expr>)

  predicate PlainName(s: string) {
    s != "" && Trimmed(s) && !HasSpecial(s) && s[0] != '!'
  }

  predicate WellFormed(e: Expr)
    decreases e, 0
  {
    match e
    case Name(name, _) => PlainName(name)
    case List(c, parts) =>
      (IsOr(c) || IsAnd(c)) && |parts| >= 1 && forall i :: 0 <= i < |parts| ==> WellFormed(parts[i])
  }

  predicate AllWellFormed(parts: seq<Expr>) {
    forall i :: 0 <= i < |parts| ==> WellFormed(parts[i])
  }

  /** Every part is written in parentheses. */
  function Print(e: Expr): string
    requires WellFormed(e)
    decreases e, 1
  {
    match e
    case Name(name, negated) => if negated then "!" + name else name
    case List(c, parts) => Join(c, parts)
  }

  function Part(e: Expr): string
    requires WellFormed(e)
    decreases e, 2
  {
    "(" + (Print(e) + ")")
  }

  function Join(c: char, parts: seq<Expr>): string
    requires AllWellFormed(parts)
    decreases parts, 0
  {
    if |parts| == 0 then ""
    else if |parts| == 1 then Part(parts[0])
    else Part(parts[0]) + ([c] + Join(c, parts[1..]))
  }

  /** The tree the text stands for. */
  function TreeOf(e: Expr): Tree
    decreases e, 1
  {
    match e
    case Name(name, negated) => Leaf(name, negated)
    case List(c, parts) => Node(if |parts| <= 1 then NoOperand else OperandOf(c), TreesOf(parts))
  }

  function TreesOf(parts: seq<Expr>): (r: seq<Tree>)
    ensures |r| == |parts|
    decreases parts, 0
  {
    if |parts| == 0 then [] else [TreeOf(parts[0])] + TreesOf(parts[1..])
  }

  lemma {:induction false} TreesOfAt(parts: seq<Expr>, i: int)
    requires 0 <= i < |parts|
    ensures TreesOf(parts)[i] == TreeOf(parts[i])
  {
    if i > 0 { TreesOfAt(parts[1..], i - 1); }
  }

  // ---------------------------------------------------------------- one character

  lemma Step(s: Scan, c: char, more: string, limit: nat)
    requires Fits(s, [c] + more, limit)
    ensures Fits(OneChar(s, c, limit), more, limit)
    ensures ScanFrom(s, [c] + more, limit) == ScanFrom(OneChar(s, c, limit), more, limit)
  {
    assert ([c] + more)[1..] == more;
  }

  lemma StepInside(s: Scan, c: char, more: string, limit: nat)
    requires Fits(s, [c] + more, limit) && s.inPar && c != '(' && (c == ')' ==> s.depth >= 2)
    ensures var s' := Push(s, c).(depth := if c == ')' then s.depth - 1 else s.depth);
            Fits(s', more, limit) && ScanFrom(s, [c] + more, limit) == ScanFrom(s', more, limit)
  {
    Step(s, c, more, limit);
  }

  lemma StepOpenInside(s: Scan, more: string, limit: nat)
    requires Fits(s, "(" + more, limit) && s.inPar && s.depth >= 1 && Trimmed(s.tmp)
    ensures var s' := Push(s, '(').(depth := s.depth + 1);
            Fits(s', more, limit) && ScanFrom(s, "(" + more, limit) == ScanFrom(s', more, limit)
  {
    StripTrimmed(s.tmp);
    Step(s, '(', more, limit);
  }

  // ---------------------------------------------------------------- inside parentheses

  /** Inside parentheses, the scan of x just appends x to the text kept. */
  ghost predicate CopiedAt(x: string, s: Scan, rest: string, limit: nat) {
    s.inPar && s.depth >= 1 && Trimmed(s.tmp) && Fits(s, x + rest, limit) ==>
      && Fits(s.(tmp := s.tmp + x), rest, limit)
      && ScanFrom(s, x + rest, limit) == ScanFrom(s.(tmp := s.tmp + x), rest, limit)
  }

  ghost predicate Copied(x: string) {
    forall s, rest, limit: nat :: CopiedAt(x, s, rest, limit)
  }

  predicate NoParenthesis(x: string) { '(' !in x && ')' !in x }

  lemma {:induction false} PlainCopiedAt(x: string, s: Scan, rest: string, limit: nat)
    requires s.inPar && s.depth >= 1 && NoParenthesis(x) && Fits(s, x + rest, limit)
    ensures Fits(s.(tmp := s.tmp + x), rest, limit)
    ensures ScanFrom(s, x + rest, limit) == ScanFrom(s.(tmp := s.tmp + x), rest, limit)
  {
    hide ScanFrom;
    if x == "" {
      assert x + rest == rest && s.tmp + x == s.tmp;
    } else {
      assert x + rest == [x[0]] + (x[1..] + rest);
      StepInside(s, x[0], x[1..] + rest, limit);
      PlainCopiedAt(x[1..], Push(s, x[0]), rest, limit);
      assert s.tmp + [x[0]] + x[1..] == s.tmp + x;
    }
  }

  lemma PlainCopied(x: string)
    requires NoParenthesis(x)
    ensures Copied(x)
  {
    hide ScanFrom;
    forall s, rest, limit: nat ensures CopiedAt(x, s, rest, limit) {
      if s.inPar && s.depth >= 1 && Fits(s, x + rest, limit) {
        PlainCopiedAt(x, s, rest, limit);
      }
    }
  }

  lemma ParenthesesCopied(b: string)
    requires Copied(b)
    ensures Copied("(" + (b + ")"))
  {
    hide ScanFrom;
    var x := "(" + (b + ")");
    forall s, rest, limit: nat ensures CopiedAt(x, s, rest, limit) {
      if s.inPar && s.depth >= 1 && Trimmed(s.tmp) && Fits(s, x + rest, limit) {
        assert x + rest == "(" + (b + (")" + rest));
        StepOpenInside(s, b + (")" + rest), limit);
        var s1 := Push(s, '(').(depth := s.depth + 1);
        assert CopiedAt(b, s1, ")" + rest, limit);
        var s2 := s1.(tmp := s1.tmp + b);
        StepInside(s2, ')', rest, limit);
        assert s2.tmp + ")" == s.tmp + x;
      }
    }
  }

  lemma ConcatCopied(x: string, y: string)
    requires Copied(x) && Copied(y) && x != "" && Trimmed(x)
    ensures Copied(x + y)
  {
    hide ScanFrom;
    forall s, rest, limit: nat ensures CopiedAt(x + y, s, rest, limit) {
      if s.inPar && s.depth >= 1 && Trimmed(s.tmp) && Fits(s, x + y + rest, limit) {
        assert x + y + rest == x + (y + rest);
        assert CopiedAt(x, s, y + rest, limit);
        var s1 := s.(tmp := s.tmp + x);
        assert CopiedAt(y, s1, rest, limit);
        assert s.tmp + x + y == s.tmp + (x + y);
      }
    }
  }

  lemma {:induction false} PlainHasNoParenthesis(s: string)
    requires !HasSpecial(s)
    ensures NoParenthesis(s)
  {
    if s != "" {
      PlainHasNoParenthesis(s[1..]);
      assert s == [s[0]] + s[1..];
    }
  }

  lemma {:induction false} PrintCopied(e: Expr)
    requires WellFormed(e)
    ensures Copied(Print(e))
    decreases e, 1
  {
    match e
    case Name(name, _) =>
      PlainHasNoParenthesis(name);
      PlainCopied(Print(e));
    case List(c, parts) => JoinCopied(c, parts);
  }

  lemma {:induction false} JoinCopied(c: char, parts: seq<Expr>)
    requires AllWellFormed(parts) && (IsOr(c) || IsAnd(c))
    ensures Copied(Join(c, parts))
    decreases parts, 0
  {
    if |parts| == 0 {
      PlainCopied("");
    } else {
      PrintCopied(parts[0]);
      ParenthesesCopied(Print(parts[0]));
      if |parts| > 1 {
        var tail := Join(c, parts[1..]);
        JoinCopied(c, parts[1..]);
        PlainCopied([c]);
        ConcatCopied([c], tail);
        ConcatCopied(Part(parts[0]), [c] + tail);
      }
    }
  }

  // ---------------------------------------------------------------- between parts

  predicate BetweenParts(s: Scan) {
    s.tmp == "" && s.depth == 0 && !s.inPar
  }

  lemma {:induction false} JoinEnds(c: char, parts: seq<Expr>)
    requires AllWellFormed(parts) && |parts| >= 1
    ensures var j := Join(c, parts); j != "" && j[0] == '(' && j[|j| - 1] == ')'
  {
    if |parts| > 1 {
      JoinEnds(c, parts[1..]);
    }
  }

  lemma PrintTrimmed(e: Expr)
    requires WellFormed(e)
    ensures Print(e) != "" && Trimmed(Print(e))
  {
    if e.List? {
      JoinEnds(e.separator, e.parts);
    }
  }

  lemma StepOpenOutside(s: Scan, more: string, limit: nat)
    requires Fits(s, "(" + more, limit) && BetweenParts(s)
    ensures var s' := s.(depth := 1, inPar := true);
            Fits(s', more, limit) && ScanFrom(s, "(" + more, limit) == ScanFrom(s', more, limit)
  {
    Step(s, '(', more, limit);
  }

  lemma StepClose(s: Scan, more: string, limit: nat)
    requires Fits(s, ")" + more, limit) && s.depth == 1 && Trimmed(s.tmp)
    ensures var s' := Scan(s.operand, s.sons + [Parse(s.tmp)], "", 0, false);
            Fits(s', more, limit) && ScanFrom(s, ")" + more, limit) == ScanFrom(s', more, limit)
  {
    StripTrimmed(s.tmp);
    Step(s, ')', more, limit);
  }

  lemma StepSeparator(s: Scan, c: char, more: string, limit: nat)
    requires (IsOr(c) || IsAnd(c)) && Fits(s, [c] + more, limit) && BetweenParts(s)
    ensures var s' := s.(operand := OperandOf(c));
            Fits(s', more, limit) && ScanFrom(s, [c] + more, limit) == ScanFrom(s', more, limit)
  {
    Step(s, c, more, limit);
  }

  lemma PartScanned(b: string, s: Scan, rest: string, limit: nat)
    requires Trimmed(b) && Copied(b) && BetweenParts(s) && |b| + |rest| + 2 <= limit
    ensures var s' := s.(sons := s.sons + [Parse(b)]);
            && Fits(s, "(" + (b + (")" + rest)), limit) && Fits(s', rest, limit)
            && ScanFrom(s, "(" + (b + (")" + rest)), limit) == ScanFrom(s', rest, limit)
  {
    hide ScanFrom, Parse;
    StepOpenOutside(s, b + (")" + rest), limit);
    var s1 := s.(depth := 1, inPar := true);
    assert CopiedAt(b, s1, ")" + rest, limit);
    var s2 := s1.(tmp := s1.tmp + b);
    assert s2.tmp == b;
    StepClose(s2, rest, limit);
  }

  ghost predicate PartsParse(parts: seq<Expr>)
    requires AllWellFormed(parts)
  {
    forall i :: 0 <= i < |parts| ==> Parse(Print(parts[i])) == TreeOf(parts[i])
  }

  lemma JoinCons(c: char, parts: seq<Expr>)
    requires AllWellFormed(parts) && |parts| >= 1
    ensures Join(c, parts) == if |parts| == 1 then Part(parts[0]) else Part(parts[0]) + ([c] + Join(c, parts[1..]))
  {
  }

  lemma TreesOfCons(parts: seq<Expr>)
    requires |parts| >= 1
    ensures TreesOf(parts) == [TreeOf(parts[0])] + TreesOf(parts[1..])
    ensures |parts| == 1 ==> TreesOf(parts) == [TreeOf(parts[0])]
  {
  }

  lemma TailParses(parts: seq<Expr>)
    requires AllWellFormed(parts) && PartsParse(parts) && |parts| >= 1
    ensures WellFormed(parts[0]) && Parse(Print(parts[0])) == TreeOf(parts[0])
    ensures AllWellFormed(parts[1..]) && PartsParse(parts[1..])
  {
    hide Parse, Print, WellFormed, TreeOf;
    forall i | 0 <= i < |parts[1..]|
      ensures WellFormed(parts[1..][i]) && Parse(Print(parts[1..][i])) == TreeOf(parts[1..][i])
    {
      assert parts[1..][i] == parts[i + 1];
    }
  }

  lemma {:induction false} PartsScanned(c: char, s: Scan, parts: seq<Expr>, limit: nat)
    requires AllWellFormed(parts) && PartsParse(parts) && BetweenParts(s) && (IsOr(c) || IsAnd(c))
    requires |parts| >= 1 && Fits(s, Join(c, parts), limit)
    ensures ScanFrom(s, Join(c, parts), limit) ==
              Node(if |parts| == 1 then s.operand else OperandOf(c), s.sons + TreesOf(parts))
    decreases |parts|
  {
    hide ScanFrom, Parse, Part, WellFormed, TreeOf, TreesOf, HasSpecial, PartsParse, Join, Print, OperandOf;
    TailParses(parts);
    TreesOfCons(parts);
    JoinCons(c, parts);
    if |parts| == 1 {
      LastPart(parts[0], s, limit);
    } else {
      PartThenSeparator(parts[0], c, s, Join(c, parts[1..]), limit);
      var s' := s.(sons := s.sons + [TreeOf(parts[0])], operand := OperandOf(c));
      PartsScanned(c, s', parts[1..], limit);
      assert s'.sons + TreesOf(parts[1..]) == s.sons + TreesOf(parts);
    }
  }

  lemma LastPart(e: Expr, s: Scan, limit: nat)
    requires WellFormed(e) && Parse(Print(e)) == TreeOf(e) && BetweenParts(s)
    requires Fits(s, Part(e), limit)
    ensures ScanFrom(s, Part(e), limit) == Node(s.operand, s.sons + [TreeOf(e)])
  {
    hide ScanFrom, Parse, Part, TreeOf, HasSpecial;
    assert Part(e) + "" == Part(e);
    PartAppended(e, s, "", limit);
    ScanEnds(s.(sons := s.sons + [TreeOf(e)]), limit);
  }

  lemma PartThenSeparator(e: Expr, c: char, s: Scan, tail: string, limit: nat)
    requires WellFormed(e) && Parse(Print(e)) == TreeOf(e) && BetweenParts(s) && (IsOr(c) || IsAnd(c))
    requires Fits(s, Part(e) + ([c] + tail), limit)
    ensures var s' := s.(sons := s.sons + [TreeOf(e)], operand := OperandOf(c));
            && Fits(s', tail, limit)
            && ScanFrom(s, Part(e) + ([c] + tail), limit) == ScanFrom(s', tail, limit)
  {
    hide ScanFrom, Parse, Part, TreeOf, HasSpecial;
    PartAppended(e, s, [c] + tail, limit);
    StepSeparator(s.(sons := s.sons + [TreeOf(e)]), c, tail, limit);
  }

  lemma PartAppended(e: Expr, s: Scan, rest: string, limit: nat)
    requires WellFormed(e) && Parse(Print(e)) == TreeOf(e) && BetweenParts(s)
    requires Fits(s, Part(e) + rest, limit)
    ensures Fits(s.(sons := s.sons + [TreeOf(e)]), rest, limit)
    ensures ScanFrom(s, Part(e) + rest, limit) == ScanFrom(s.(sons := s.sons + [TreeOf(e)]), rest, limit)
  {
    hide ScanFrom, Parse, TreeOf, HasSpecial;
    PrintTrimmed(e);
    PrintCopied(e);
    assert Part(e) + rest == "(" + (Print(e) + (")" + rest));
    PartScanned(Print(e), s, rest, limit);
  }

  lemma ScanEnds(s: Scan, limit: nat)
    requires BetweenParts(s) && Fits(s, "", limit)
    ensures ScanFrom(s, "", limit) == Node(s.operand, s.sons)
  {
    assert Strip(s.tmp) == "";
    assert Cut(s, limit) == s;
    assert AtEnd(s, limit) == Node(s.operand, s.sons);
  }

  /** Parsing the printed text gives the tree of the expression. */
  lemma {:induction false} ParsePrint(e: Expr)
    requires WellFormed(e)
    ensures Parse(Print(e)) == TreeOf(e)
  {
    match e
    case Name(name, negated) => NameParsed(name, negated);
    case List(c, parts) =>
      forall i | 0 <= i < |parts|
        ensures Parse(Print(parts[i])) == TreeOf(parts[i])
      {
        ParsePrint(parts[i]);
      }
      ListParsed(c, parts);
  }

  lemma NameParsed(name: string, negated: bool)
    requires PlainName(name)
    ensures Parse(if negated then "!" + name else name) == Leaf(name, negated)
  {
    StripTrimmed(name);
    if negated {
      assert ("!" + name)[1..] == name;
      StripTrimmed("!" + name);
    }
  }

  lemma ListTextParses(text: string)
    requires Trimmed(text) && HasSpecial(text)
    ensures Parse(text) == ScanFrom(START, text, |text|)
  {
    hide ScanFrom;
    StripTrimmed(text);
  }

  lemma ListParsed(c: char, parts: seq<Expr>)
    requires AllWellFormed(parts) && PartsParse(parts) && (IsOr(c) || IsAnd(c)) && |parts| >= 1
    ensures Parse(Join(c, parts)) == TreeOf(List(c, parts))
  {
    hide ScanFrom, Parse;
    var text := Join(c, parts);
    JoinEnds(c, parts);
    ListTextParses(text);
    PartsScanned(c, START, parts, |text|);
    assert [] + TreesOf(parts) == TreesOf(parts);
  }

  // ---------------------------------------------------------------- meaning

  predicate NegatedName(e: Expr) { e.Name? && e.negated }

  /** What an expression selects, on its own terms. A list without a positive
      part selects nothing. */
  ghost predicate Selects(e: Expr, x: Element, find: Lookup)
    decreases e
  {
    match e
    case Name(name, negated) => if negated then x !in find(name) else x in find(name)
    case List(c, parts) =>
      && (exists i :: 0 <= i < |parts| && !NegatedName(parts[i]) && Selects(parts[i], x, find))
      && (IsOr(c) || forall i :: 0 <= i < |parts| && !NegatedName(parts[i]) ==> Selects(parts[i], x, find))
      && (forall i :: 0 <= i < |parts| && NegatedName(parts[i]) ==> Selects(parts[i], x, find))
  }

  /** A tree selects what its expression means, except for a negated name on its own. */
  lemma {:induction false} TreeSelects(e: Expr, x: Element, find: Lookup)
    requires WellFormed(e)
    ensures Member(TreeOf(e), x, find) <==> (Selects(e, x, find) != NegatedName(e))
  {
    if e.List? {
      var trees := TreesOf(e.parts);
      forall i | 0 <= i < |e.parts|
        ensures Member(trees[i], x, find) <==> (Selects(e.parts[i], x, find) != NegatedName(e.parts[i]))
        ensures Negated(trees[i]) <==> NegatedName(e.parts[i])
      {
        TreesOfAt(e.parts, i);
        TreeSelects(e.parts[i], x, find);
      }
      ListSelects(e, trees, x, find);
    }
  }

  lemma ListSelects(e: Expr, trees: seq<Tree>, x: Element, find: Lookup)
    requires e.List? && |e.parts| >= 1 && (IsOr(e.separator) || IsAnd(e.separator)) && Agree(e.parts, trees, x, find)
    ensures var op := if |trees| <= 1 then NoOperand else OperandOf(e.separator);
            Member(Node(op, trees), x, find) <==> Selects(e, x, find)
  {
    var op := if |trees| <= 1 then NoOperand else OperandOf(e.separator);
    MemberOfNode(Node(op, trees), x, find);
    hide Member;
    PositivesAgree(e.parts, trees, x, find);
    NegativesAgree(e.parts, trees, x, find);
    hide SomeMember, AllMember;
  }

  ghost predicate Agree(parts: seq<Expr>, trees: seq<Tree>, x: Element, find: Lookup) {
    && |trees| == |parts|
    && forall i :: 0 <= i < |trees| ==>
         && (Member(trees[i], x, find) <==> (Selects(parts[i], x, find) != NegatedName(parts[i])))
         && (Negated(trees[i]) <==> NegatedName(parts[i]))
  }

  lemma PositivesAgree(parts: seq<Expr>, trees: seq<Tree>, x: Element, find: Lookup)
    requires Agree(parts, trees, x, find)
    ensures SomeMember(trees, false, x, find) <==>
              exists i :: 0 <= i < |parts| && !NegatedName(parts[i]) && Selects(parts[i], x, find)
    ensures AllMember(trees, x, find) <==>
              forall i :: 0 <= i < |parts| && !NegatedName(parts[i]) ==> Selects(parts[i], x, find)
    ensures |trees| == 1 && SomeMember(trees, false, x, find) ==> AllMember(trees, x, find)
  {
    hide Member, Selects;
  }

  lemma NegativesAgree(parts: seq<Expr>, trees: seq<Tree>, x: Element, find: Lookup)
    requires Agree(parts, trees, x, find)
    ensures SomeMember(trees, true, x, find) <==>
              !forall i :: 0 <= i < |parts| && NegatedName(parts[i]) ==> Selects(parts[i], x, find)
  {
    hide Member, Selects;
  }

  /** Parsing and resolving the printed text selects what the expression means. */
  lemma CompiledMeaning(e: Expr, x: Element, find: Lookup)
    requires WellFormed(e) && !NegatedName(e)
    ensures Member(Parse(Print(e)), x, find) <==> Selects(e, x, find)
  {
    ParsePrint(e);
    TreeSelects(e, x, find);
  }

  ghost predicate CompiledRight(e: Expr)
    requires WellFormed(e)
  {
    forall x, find :: Member(Parse(Print(e)), x, find) <==> Selects(e, x, find)
  }

  /** The only expression that is not compiled to its meaning is a lone negated
      name: its NOT is ignored, and it selects the members of the name. */
  lemma CompiledRightIff(e: Expr)
    requires WellFormed(e)
    ensures CompiledRight(e) <==> !NegatedName(e)
    ensures NegatedName(e) ==> forall x, find :: Member(Parse(Print(e)), x, find) <==> x in find(e.name)
  {
    ParsePrint(e);
    forall x, find ensures Member(Parse(Print(e)), x, find) <==> (Selects(e, x, find) != NegatedName(e)) {
      TreeSelects(e, x, find);
    }
    var nothing: Lookup := _ => {};
    assert Member(Parse(Print(e)), "", nothing) <==> (Selects(e, "", nothing) != NegatedName(e));
  }

  // ---------------------------------------------------------------- NOT before a parenthesis

  lemma StepBang(s: Scan, more: string, limit: nat)
    requires BetweenParts(s) && Fits(s, "!" + more, limit)
    ensures var s' := s.(tmp := "!");
            Fits(s', more, limit) && ScanFrom(s, "!" + more, limit) == ScanFrom(s', more, limit)
  {
    Step(s, '!', more, limit);
    assert s.tmp + "!" == "!";
  }

  lemma StepOpenAfterText(s: Scan, more: string, limit: nat)
    requires s.depth == 0 && !s.inPar && Trimmed(s.tmp) && Fits(s, "(" + more, limit)
    ensures var s' := s.(depth := 1, inPar := true);
            Fits(s', more, limit) && ScanFrom(s, "(" + more, limit) == ScanFrom(s', more, limit)
  {
    StripTrimmed(s.tmp);
    Step(s, '(', more, limit);
  }

  /** A ! in front of a parenthesised part is moved inside the parenthesis. */
  lemma BangPartScanned(e: Expr, s: Scan, rest: string, limit: nat)
    requires WellFormed(e) && BetweenParts(s) && Fits(s, "!" + (Part(e) + rest), limit)
    ensures var s' := s.(sons := s.sons + [Parse("!" + Print(e))]);
            Fits(s', rest, limit) && ScanFrom(s, "!" + (Part(e) + rest), limit) == ScanFrom(s', rest, limit)
  {
    hide ScanFrom, Parse, HasSpecial;
    var b := Print(e);
    PrintTrimmed(e);
    PrintCopied(e);
    assert Part(e) + rest == "(" + (b + (")" + rest));
    StepBang(s, Part(e) + rest, limit);
    var s1 := s.(tmp := "!");
    StepOpenAfterText(s1, b + (")" + rest), limit);
    var s2 := s1.(depth := 1, inPar := true);
    assert CopiedAt(b, s2, ")" + rest, limit);
    StepClose(s2.(tmp := s2.tmp + b), rest, limit);
  }

  /** What a ! followed by the text of an expression is read as: a negated name, or
      a list in which only the first part is touched. */
  function BangTree(e: Expr): Tree
    requires WellFormed(e)
    decreases e
  {
    match e
    case Name(_, _) => Leaf(Print(e), true)
    case List(c, parts) =>
      Node(if |parts| <= 1 then NoOperand else OperandOf(c), [BangTree(parts[0])] + TreesOf(parts[1..]))
  }

  lemma {:induction false} BangParsed(e: Expr)
    requires WellFormed(e)
    ensures Parse("!" + Print(e)) == BangTree(e)
  {
    match e
    case Name(_, _) => BangNameParsed(e);
    case List(c, parts) =>
      BangParsed(parts[0]);
      BangListParsed(c, parts);
  }

  lemma BangNameParsed(e: Expr)
    requires WellFormed(e) && e.Name?
    ensures Parse("!" + Print(e)) == Leaf(Print(e), true)
  {
    var b := Print(e);
    PrintTrimmed(e);
    assert !HasSpecial(b) by { assert e.negated ==> b[1..] == e.name; }
    hide Print;
    StripTrimmed(b);
    StripTrimmed("!" + b);
    assert ("!" + b)[1..] == b;
  }

  lemma BangListParsed(c: char, parts: seq<Expr>)
    requires AllWellFormed(parts) && (IsOr(c) || IsAnd(c)) && |parts| >= 1
    requires Parse("!" + Print(parts[0])) == BangTree(parts[0])
    ensures Parse("!" + Join(c, parts)) == BangTree(List(c, parts))
  {
    hide ScanFrom, Parse, BangTree, HasSpecial;
    BangTreeOfList(c, parts);
    if |parts| == 1 {
      OneBangPart(parts[0], "!" + Join(c, parts));
    } else {
      BangThenParts(c, parts);
    }
  }

  /** The whole text is a ! and one part. */
  lemma OneBangPart(e: Expr, text: string)
    requires WellFormed(e) && text == "!" + Part(e)
    ensures Parse(text) == Node(NoOperand, [Parse("!" + Print(e))])
  {
    hide ScanFrom, Parse, HasSpecial;
    BangTextIsList(Part(e));
    ListTextParses(text);
    assert Part(e) + "" == Part(e);
    BangPartScanned(e, START, "", |text|);
    var son := Parse("!" + Print(e));
    assert START.sons + [son] == [son];
    ScanEnds(START.(sons := START.sons + [son]), |text|);
  }

  lemma BangThenParts(c: char, parts: seq<Expr>)
    requires AllWellFormed(parts) && (IsOr(c) || IsAnd(c)) && |parts| >= 2
    ensures Parse("!" + Join(c, parts)) ==
              Node(OperandOf(c), [Parse("!" + Print(parts[0]))] + TreesOf(parts[1..]))
  {
    hide ScanFrom, Parse, HasSpecial, WellFormed, Part, TreeOf, TreesOf;
    var text, rest := "!" + Join(c, parts), parts[1..];
    JoinEnds(c, parts);
    BangTextIsList(Join(c, parts));
    ListTextParses(text);
    BangPartScanned(parts[0], START, [c] + Join(c, rest), |text|);
    var son := Parse("!" + Print(parts[0]));
    assert START.sons + [son] == [son];
    var s := START.(sons := [son]);
    StepSeparator(s, c, Join(c, rest), |text|);
    forall i | 0 <= i < |rest| ensures Parse(Print(rest[i])) == TreeOf(rest[i]) {
      ParsePrint(rest[i]);
    }
    PartsScanned(c, s.(operand := OperandOf(c)), rest, |text|);
  }

  lemma BangTreeOfList(c: char, parts: seq<Expr>)
    requires AllWellFormed(parts) && (IsOr(c) || IsAnd(c)) && |parts| >= 1
    ensures BangTree(List(c, parts)) ==
              Node(if |parts| <= 1 then NoOperand else OperandOf(c), [BangTree(parts[0])] + TreesOf(parts[1..]))
  {
  }

  lemma BangTextIsList(join: string)
    requires join != "" && join[0] == '(' && join[|join| - 1] == ')'
    ensures HasSpecial("!" + join) && Trimmed("!" + join)
  {
    assert ("!" + join)[1..] == join;
  }

  /** !(e) on its own is a list whose only part is read as !e: so !((a)|(b)) is read
      as !(a)|(b). */
  lemma BangMovesInside(e: Expr)
    requires WellFormed(e)
    ensures Parse("!" + Part(e)) == Node(NoOperand, [BangTree(e)])
  {
    hide Parse, BangTree;
    OneBangPart(e, "!" + Part(e));
    BangParsed(e);
  }

  /** The part counts as negated exactly when it is a name. */
  lemma BangNegatesIff(e: Expr)
    requires WellFormed(e)
    ensures Negated(Parse("!" + Print(e))) <==> e.Name?
  {
    BangParsed(e);
  }

  /** The elements of a name, without those of an expression. */
  function Without(name: string, e: Expr): string
    requires PlainName(name) && WellFormed(e)
  {
    Part(Name(name, false)) + ("&" + ("!" + Part(e)))
  }

  lemma WithoutParsed(name: string, e: Expr)
    requires PlainName(name) && WellFormed(e)
    ensures Parse(Without(name, e)) == Node(And, [Leaf(name, false), BangTree(e)])
  {
    hide ScanFrom, Parse, BangTree;
    var n := Name(name, false);
    var text, tail := Without(name, e), "!" + Part(e);
    assert Part(e)[|Part(e)| - 1] == ')';
    ListTextParses(text);
    ParsePrint(n);
    PartThenSeparator(n, '&', START, tail, |text|);
    assert Part(e) + "" == Part(e);
    var s := Scan(And, [Leaf(name, false)], "", 0, false);
    assert START.sons + [TreeOf(n)] == s.sons;
    BangPartScanned(e, s, "", |text|);
    BangParsed(e);
    ScanEnds(s.(sons := s.sons + [BangTree(e)]), |text|);
  }

  predicate Mentions(e: Expr, name: string)
    decreases e
  {
    match e
    case Name(n, _) => n == name
    case List(_, parts) => exists i :: 0 <= i < |parts| && Mentions(parts[i], name)
  }

  ghost predicate Subtracts(name: string, e: Expr)
    requires PlainName(name) && WellFormed(e)
  {
    forall x, find :: Member(Parse(Without(name, e)), x, find) <==> x in find(name) && !Selects(e, x, find)
  }

  /** x is found under name only: no tree of e holds it. */
  lemma {:induction false} NotFoundElsewhere(e: Expr, name: string, x: Element, find: Lookup)
    requires WellFormed(e) && PlainName(name) && !Mentions(e, name)
    requires forall n :: n != name ==> x !in find(n)
    ensures !Member(TreeOf(e), x, find) && !Member(BangTree(e), x, find)
  {
    if e.List? {
      var trees := TreesOf(e.parts);
      forall i | 0 <= i < |e.parts|
        ensures !Member(trees[i], x, find) && !Member(BangTree(e.parts[i]), x, find)
        ensures i > 0 ==> TreesOf(e.parts[1..])[i - 1] == trees[i]
      {
        NotFoundElsewhere(e.parts[i], name, x, find);
        TreesOfAt(e.parts, i);
      }
      var bang := BangTree(e).sons;
      assert bang == [BangTree(e.parts[0])] + TreesOf(e.parts[1..]);
      forall i | 0 <= i < |bang| ensures !Member(bang[i], x, find) {
        if i > 0 { assert bang[i] == trees[i]; }
      }
    }
  }

  /** No name of e is longer than this. */
  function LongestName(e: Expr): nat
    decreases e, 1
  {
    match e
    case Name(name, _) => |name|
    case List(_, parts) => LongestIn(parts)
  }

  function LongestIn(parts: seq<Expr>): nat
    decreases parts, 0
  {
    if |parts| == 0 then 0
    else
      var a, b := LongestName(parts[0]), LongestIn(parts[1..]);
      if a <= b then b else a
  }

  lemma {:induction false} MentionedIsShort(e: Expr, name: string)
    requires Mentions(e, name)
    ensures |name| <= LongestName(e)
    decreases e
  {
    if e.List? {
      var i :| 0 <= i < |e.parts| && Mentions(e.parts[i], name);
      MentionedIsShort(e.parts[i], name);
      PartIsShort(e.parts, i);
    }
  }

  lemma {:induction false} PartIsShort(parts: seq<Expr>, i: int)
    requires 0 <= i < |parts|
    ensures LongestName(parts[i]) <= LongestIn(parts)
  {
    if i > 0 { PartIsShort(parts[1..], i - 1); }
  }

  function Xs(n: nat): (s: string)
    ensures |s| == n && !HasSpecial(s) && forall i :: 0 <= i < n ==> s[i] == 'x'
  {
    if n == 0 then "" else "x" + Xs(n - 1)
  }

  lemma UnmentionedName(e: Expr) returns (name: string)
    ensures PlainName(name) && !Mentions(e, name)
  {
    name := Xs(LongestName(e) + 1);
    if Mentions(e, name) { MentionedIsShort(e, name); }
  }

  /** Taking !(e) away from a name does so, whatever the name, exactly when e is a
      plain name; before a list, or before a name that is already negated, the !
      means something else. */
  lemma SubtractsIff(e: Expr)
    requires WellFormed(e)
    ensures (forall name :: PlainName(name) ==> Subtracts(name, e)) <==> e.Name? && !e.negated
  {
    if e.Name? && !e.negated {
      forall name | PlainName(name) ensures Subtracts(name, e) { NameSubtracted(name, e); }
    } else {
      var name := UnmentionedName(e);
      NotSubtracted(name, e);
    }
  }

  lemma NameSubtracted(name: string, e: Expr)
    requires PlainName(name) && WellFormed(e) && e.Name? && !e.negated
    ensures Subtracts(name, e)
  {
    WithoutParsed(name, e);
    forall x, find
      ensures Member(Parse(Without(name, e)), x, find) <==> x in find(name) && !Selects(e, x, find)
    {
      TwoSons(name, Leaf(e.name, true), x, find);
    }
  }

  /** With x found under the name only. */
  lemma NotSubtracted(name: string, e: Expr)
    requires PlainName(name) && WellFormed(e) && !Mentions(e, name) && !(e.Name? && !e.negated)
    ensures !Subtracts(name, e)
  {
    var find: Lookup := n => if n == name then {""} else {};
    WithoutParsed(name, e);
    NotFoundElsewhere(e, name, "", find);
    TreeSelects(e, "", find);
    TwoSons(name, BangTree(e), "", find);
    assert !(Member(Parse(Without(name, e)), "", find) <==> "" in find(name) && !Selects(e, "", find));
  }

  lemma TwoSons(name: string, t: Tree, x: Element, find: Lookup)
    ensures Member(Node(And, [Leaf(name, false), t]), x, find) <==>
              x in find(name) && (Member(t, x, find) != Negated(t))
  {
    var sons := [Leaf(name, false), t];
    assert !Negated(sons[0]) && (Member(sons[0], x, find) <==> x in find(name));
    assert sons[1] == t;
  }

  const EITHER := List('|', [Name("a", false), Name("b", false)])

  lemma EitherText()
    ensures WellFormed(EITHER) && PlainName("x") && Print(EITHER) == "(a)|(b)"
    ensures Without("x", EITHER) == "(x)&!((a)|(b))"
  {
    var a, b := Name("a", false), Name("b", false);
    assert WellFormed(a) && WellFormed(b);
    assert EITHER.parts[1..] == [b];
    assert Part(a) == "(a)" && Join('|', [b]) == "(b)";
  }

  lemma EitherBang()
    requires WellFormed(EITHER)
    ensures BangTree(EITHER) == Node(Or, [Leaf("a", true), Leaf("b", false)])
  {
    var b := Name("b", false);
    assert EITHER.parts[1..] == [b] && [b][1..] == [];
    assert TreesOf([b]) == [Leaf("b", false)];
  }

  lemma EitherSelects(x: Element, find: Lookup)
    ensures Selects(EITHER, x, find) <==> x in find("a") || x in find("b")
  {
    var parts := EITHER.parts;
    assert !NegatedName(parts[0]) && (Selects(parts[0], x, find) <==> x in find("a"));
    assert !NegatedName(parts[1]) && (Selects(parts[1], x, find) <==> x in find("b"));
  }

  lemma EitherBangHolds(x: Element, find: Lookup)
    ensures Member(Node(Or, [Leaf("a", true), Leaf("b", false)]), x, find) <==> x in find("b") && x !in find("a")
  {
    var sons := [Leaf("a", true), Leaf("b", false)];
    assert Negated(sons[0]) && (Member(sons[0], x, find) <==> x in find("a"));
    assert !Negated(sons[1]) && (Member(sons[1], x, find) <==> x in find("b"));
  }

  /** (x)&!((a)|(b)) selects x and b without a. What is meant is x without a and b:
      the two differ as soon as x and b share an element that is not in a. */
  lemma NotBeforeListMisleads(x: Element, find: Lookup)
    ensures Member(Parse("(x)&!((a)|(b))"), x, find) <==> x in find("x") && x in find("b") && x !in find("a")
    ensures Selects(EITHER, x, find) <==> x in find("a") || x in find("b")
  {
    hide Parse, Without, BangTree, Print, Selects, Member;
    EitherText();
    EitherBang();
    EitherSelects(x, find);
    WithoutParsed("x", EITHER);
    TwoSons("x", BangTree(EITHER), x, find);
    EitherBangHolds(x, find);
  }
}
