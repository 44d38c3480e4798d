/** Group expressions in all their usual forms: names with or without parentheses,
    spaces around separators. */
module GroupExpressionForms {
  import opened Text
  import opened GroupExpressionParser
  import opened GroupExpressionMeaning

  // ---------------------------------------------------------------- what may be written

  /** An expression as a user writes it: before and after are the spaces around this
      part, where a separator stands. A list inside another is in parentheses. */
  datatype Written =
    | Word(name: string, negated: bool, bare: bool, before: nat, after: nat)
    | Clause(separator: char, parts: seq<Written>, before: nat, after: nat)

  /** What is meant. */
  function ExprOf(w: Written): Expr
    decreases w
  {
    match w
    case Word(name, negated, _, _, _) => Name(name, negated)
    case Clause(c, parts, _, _) => List(c, ExprsOf(parts))
  }

  function ExprsOf(parts: seq<Written>): (r: seq<Expr>)
    ensures |r| == |parts| && forall i :: 0 <= i < |parts| ==> r[i] == ExprOf(parts[i])
    decreases parts
  {
    seq(|parts|, i requires 0 <= i < |parts| => ExprOf(parts[i]))
  }

  predicate IsSeparator(c: char) { IsOr(c) || IsAnd(c) }

  predicate IsBare(w: Written) { w.Word? && w.bare }

  /** An only part is in parentheses, and no spaces come before the first one. */
  predicate Legible(w: Written)
    decreases w
  {
    match w
    case Word(name, _, _, _, _) => PlainName(name)
    case Clause(c, parts, _, _) =>
      && IsSeparator(c) && |parts| >= 1 && (forall i :: 0 <= i < |parts| ==> Legible(parts[i]))
      && parts[0].before == 0 && (|parts| == 1 ==> !IsBare(parts[0]))
  }

  predicate AllLegible(parts: seq<Written>) {
    forall i :: 0 <= i < |parts| ==> Legible(parts[i])
  }

  function Body(w: Written): string
    requires Legible(w)
    decreases w, 1
  {
    match w
    case Word(name, negated, _, _, _) => if negated then "!" + name else name
    case Clause(c, parts, _, _) => JoinParts(c, parts)
  }

  function PartText(w: Written): string
    requires Legible(w)
    decreases w, 2
  {
    if IsBare(w) then Body(w) else "(" + (Body(w) + ")")
  }

  /** The parts with their spaces, and the separator c between them. */
  function JoinParts(c: char, parts: seq<Written>): string
    requires AllLegible(parts)
    decreases parts, 0
  {
    if |parts| == 0 then ""
    else
      var first := Spaces(parts[0].before) + PartText(parts[0]);
      if |parts| == 1 then first
      else first + (Spaces(parts[0].after) + ([c] + JoinParts(c, parts[1..])))
  }

  lemma JoinCons(c: char, parts: seq<Written>)
    requires AllLegible(parts) && |parts| >= 1
    ensures Legible(parts[0]) && AllLegible(parts[1..])
    ensures var x := Spaces(parts[0].before) + PartText(parts[0]);
            JoinParts(c, parts) ==
              if |parts| == 1 then x else x + (Spaces(parts[0].after) + ([c] + JoinParts(c, parts[1..])))
  {
    hide Legible, PartText;
    assert forall i :: 0 <= i < |parts| - 1 ==> parts[1..][i] == parts[i + 1];
  }

  // ---------------------------------------------------------------- ends

  lemma WordTight(w: Written)
    requires Legible(w) && w.Word?
    ensures Body(w) != "" && Trimmed(Body(w)) && !HasSpecial(Body(w)) && NoParenthesis(Body(w))
  {
    var b := Body(w);
    assert b[|b| - 1] == w.name[|w.name| - 1];
    if w.negated { assert b[1..] == w.name; }
    PlainHasNoParenthesis(b);
  }

  lemma {:induction false} BodyTight(w: Written)
    requires Legible(w)
    ensures Body(w) != "" && Trimmed(Body(w))
    decreases w, 1
  {
    match w
    case Word(_, _, _, _, _) => WordTight(w);
    case Clause(c, parts, _, _) => JoinTight(c, parts);
  }

  lemma {:induction false} PartTight(w: Written)
    requires Legible(w)
    ensures PartText(w) != "" && Trimmed(PartText(w))
    decreases w, 2
  {
    BodyTight(w);
    hide Body;
    var x := PartText(w);
    if !IsBare(w) { assert x[0] == '(' && x[|x| - 1] == ')'; }
  }

  lemma {:induction false} JoinTight(c: char, parts: seq<Written>)
    requires AllLegible(parts) && |parts| >= 1
    ensures var j := JoinParts(c, parts); j != "" && !IsSpace(j[|j| - 1]) && (parts[0].before == 0 ==> Trimmed(j))
    decreases parts, 0
  {
    PartTight(parts[0]);
    if |parts| > 1 { JoinTight(c, parts[1..]); }
    hide PartText, Legible;
    JoinCons(c, parts);
    LedTight(Spaces(parts[0].before), PartText(parts[0]));
  }

  lemma LedTight(sp: string, x: string)
    requires x != "" && Trimmed(x)
    ensures var y := sp + x; y != "" && !IsSpace(y[|y| - 1]) && (sp == "" ==> !IsSpace(y[0]))
  {
  }

  // ---------------------------------------------------------------- inside parentheses

  /** Inside parentheses, the scan of x appends y to the text kept. */
  ghost predicate KeptAt(x: string, y: string, s: Scan, rest: string, limit: nat) {
    s.inPar && s.depth >= 1 && Trimmed(s.tmp) && (s.tmp != "" || StartsTight(x)) && Fits(s, x + rest, limit) ==>
      && Fits(s.(tmp := s.tmp + y), rest, limit)
      && ScanFrom(s, x + rest, limit) == ScanFrom(s.(tmp := s.tmp + y), rest, limit)
  }

  ghost predicate KeptAs(x: string, y: string) {
    forall s, rest, limit: nat :: KeptAt(x, y, s, rest, limit)
  }

  lemma PlainKeptAs(x: string)
    requires NoParenthesis(x)
    ensures KeptAs(x, x)
  {
    hide ScanFrom;
    forall s, rest, limit: nat ensures KeptAt(x, x, s, rest, limit) {
      if s.inPar && s.depth >= 1 && Fits(s, x + rest, limit) {
        PlainCopiedAt(x, s, rest, limit);
      }
    }
  }

  lemma StepOpenDropsSpaces(s: Scan, tmp: string, n: nat, more: string, limit: nat)
    requires Fits(s, "(" + more, limit) && s.inPar && s.depth >= 1 && Trimmed(tmp) && s.tmp == tmp + Spaces(n)
    ensures var s' := s.(tmp := tmp + "(", depth := s.depth + 1);
            Fits(s', more, limit) && ScanFrom(s, "(" + more, limit) == ScanFrom(s', more, limit)
  {
    SpacesStripped(tmp, n);
    StripTrimmed(tmp);
    Step(s, '(', more, limit);
  }

  /** Spaces before a parenthesis are dropped. */
  lemma EnclosedKeptAs(n: nat, b: string, b': string)
    requires KeptAs(b, b') && StartsTight(b)
    ensures KeptAs(Spaces(n) + ("(" + (b + ")")), "(" + (b' + ")"))
  {
    hide ScanFrom;
    var x, y := Spaces(n) + ("(" + (b + ")")), "(" + (b' + ")");
    forall s, rest, limit: nat ensures KeptAt(x, y, s, rest, limit) {
      if s.inPar && s.depth >= 1 && Trimmed(s.tmp) && Fits(s, x + rest, limit) {
        var inner := b + (")" + rest);
        assert x + rest == Spaces(n) + ("(" + inner);
        PlainCopiedAt(Spaces(n), s, "(" + inner, limit);
        StepOpenDropsSpaces(s.(tmp := s.tmp + Spaces(n)), s.tmp, n, inner, limit);
        var s1 := s.(tmp := s.tmp + "(", depth := s.depth + 1);
        assert KeptAt(b, b', s1, ")" + rest, limit);
        var s2 := s1.(tmp := s1.tmp + b');
        StepInside(s2, ')', rest, limit);
        assert s2.tmp + ")" == s.tmp + y;
      }
    }
  }

  lemma ConcatKeptAs(x: string, x': string, y: string, y': string)
    requires KeptAs(x, x') && KeptAs(y, y') && x' != "" && !IsSpace(x'[|x'| - 1])
    requires x != "" && (StartsTight(x) ==> StartsTight(x'))
    ensures KeptAs(x + y, x' + y')
  {
    hide ScanFrom;
    forall s, rest, limit: nat ensures KeptAt(x + y, x' + y', s, rest, limit) {
      if s.inPar && s.depth >= 1 && Trimmed(s.tmp) && (s.tmp != "" || StartsTight(x + y)) && Fits(s, x + y + rest, limit) {
        assert x + y + rest == x + (y + rest);
        assert (x + y)[0] == x[0];
        assert KeptAt(x, x', s, y + rest, limit);
        var s1 := s.(tmp := s.tmp + x');
        assert KeptAt(y, y', s1, rest, limit);
        assert s.tmp + x' + y' == s.tmp + (x' + y');
      }
    }
  }

  /** The same expression without the spaces that stand directly before a parenthesis. */
  function Squeeze(w: Written): Written
    decreases w
  {
    match w
    case Word(name, negated, bare, before, after) => Word(name, negated, bare, if bare then before else 0, after)
    case Clause(c, parts, _, after) => Clause(c, SqueezeAll(parts), 0, after)
  }

  function SqueezeAll(parts: seq<Written>): (r: seq<Written>)
    ensures |r| == |parts| && forall i :: 0 <= i < |parts| ==> r[i] == Squeeze(parts[i])
    decreases parts
  {
    seq(|parts|, i requires 0 <= i < |parts| => Squeeze(parts[i]))
  }

  lemma SqueezeAllCons(parts: seq<Written>)
    requires |parts| >= 1
    ensures SqueezeAll(parts)[0] == Squeeze(parts[0]) && SqueezeAll(parts)[1..] == SqueezeAll(parts[1..])
  {
    hide Squeeze;
  }

  function Size(w: Written): nat
    decreases w, 1
  {
    if w.Word? then 1 else 1 + SizeAll(w.parts)
  }

  function SizeAll(parts: seq<Written>): nat
    decreases parts, 0
  {
    if parts == [] then 0 else Size(parts[0]) + SizeAll(parts[1..])
  }

  lemma {:induction false} PartIsSmaller(parts: seq<Written>, i: nat)
    requires i < |parts|
    ensures Size(parts[i]) <= SizeAll(parts)
  {
    if i > 0 { PartIsSmaller(parts[1..], i - 1); }
  }

  lemma {:induction false} SqueezeSize(w: Written)
    ensures Size(Squeeze(w)) == Size(w)
    decreases w, 1
  {
    if w.Clause? { SqueezeAllSize(w.parts); }
  }

  lemma {:induction false} SqueezeAllSize(parts: seq<Written>)
    ensures SizeAll(SqueezeAll(parts)) == SizeAll(parts)
    decreases parts, 0
  {
    if parts != [] {
      SqueezeSize(parts[0]);
      SqueezeAllSize(parts[1..]);
      SqueezeAllCons(parts);
    }
  }

  lemma {:induction false} SqueezeKeeps(w: Written)
    ensures ExprOf(Squeeze(w)) == ExprOf(w) && (Legible(w) ==> Legible(Squeeze(w)))
    ensures Squeeze(w).after == w.after && IsBare(Squeeze(w)) == IsBare(w)
    ensures w.before == 0 ==> Squeeze(w).before == 0
  {
    if w.Clause? {
      forall i | 0 <= i < |w.parts|
        ensures ExprOf(Squeeze(w.parts[i])) == ExprOf(w.parts[i])
        ensures Legible(w.parts[i]) ==> Legible(Squeeze(w.parts[i]))
        ensures IsBare(Squeeze(w.parts[i])) == IsBare(w.parts[i])
        ensures w.parts[i].before == 0 ==> Squeeze(w.parts[i]).before == 0
      {
        SqueezeKeeps(w.parts[i]);
      }
      assert ExprsOf(SqueezeAll(w.parts)) == ExprsOf(w.parts);
    }
  }

  lemma SqueezeAllKeeps(parts: seq<Written>)
    requires AllLegible(parts)
    ensures AllLegible(SqueezeAll(parts))
  {
    forall i | 0 <= i < |parts| ensures Legible(Squeeze(parts[i])) {
      SqueezeKeeps(parts[i]);
    }
  }

  lemma {:induction false} BodyKeptAs(w: Written)
    requires Legible(w)
    ensures Legible(Squeeze(w)) && KeptAs(Body(w), Body(Squeeze(w)))
    decreases w, 1
  {
    SqueezeKeeps(w);
    match w
    case Word(_, _, _, _, _) =>
      WordTight(w);
      PlainKeptAs(Body(w));
    case Clause(c, parts, _, _) => JoinKeptAs(c, parts);
  }

  lemma {:induction false} PartKeptAs(w: Written)
    requires Legible(w)
    ensures Legible(Squeeze(w))
    ensures KeptAs(Spaces(w.before) + PartText(w), Spaces(Squeeze(w).before) + PartText(Squeeze(w)))
    decreases w, 2
  {
    SqueezeKeeps(w);
    if IsBare(w) {
      WordTight(w);
      PlainKeptAs(Spaces(w.before) + PartText(w));
    } else {
      BodyKeptAs(w);
      BodyTight(w);
      hide KeptAs, Legible, Body, Trimmed;
      EnclosedKeptAs(w.before, Body(w), Body(Squeeze(w)));
      assert Squeeze(w).before == 0;
      assert Spaces(0) + PartText(Squeeze(w)) == PartText(Squeeze(w));
    }
  }

  lemma {:induction false} JoinKeptAs(c: char, parts: seq<Written>)
    requires AllLegible(parts) && IsSeparator(c)
    ensures AllLegible(SqueezeAll(parts)) && KeptAs(JoinParts(c, parts), JoinParts(c, SqueezeAll(parts)))
    decreases parts, 0
  {
    SqueezeAllKeeps(parts);
    hide KeptAs;
    if |parts| == 0 {
      PlainKeptAs("");
    } else {
      PartKeptAs(parts[0]);
      if |parts| > 1 {
        JoinKeptAs(c, parts[1..]);
        JoinKeptAsStep(c, parts);
      }
    }
  }

  lemma JoinKeptAsStep(c: char, parts: seq<Written>)
    requires AllLegible(parts) && |parts| > 1 && IsSeparator(c)
    requires Legible(Squeeze(parts[0])) && AllLegible(SqueezeAll(parts)) && AllLegible(SqueezeAll(parts[1..]))
    requires var w, w' := parts[0], Squeeze(parts[0]);
             KeptAs(Spaces(w.before) + PartText(w), Spaces(w'.before) + PartText(w'))
    requires KeptAs(JoinParts(c, parts[1..]), JoinParts(c, SqueezeAll(parts[1..])))
    ensures KeptAs(JoinParts(c, parts), JoinParts(c, SqueezeAll(parts)))
  {
    hide KeptAs, PartText, Legible, Squeeze, SqueezeAll, JoinParts, Spaces, AllLegible;
    var w, w' := parts[0], Squeeze(parts[0]);
    SqueezeKeeps(w);
    SqueezeAllCons(parts);
    JoinCons(c, parts);
    JoinCons(c, SqueezeAll(parts));
    PartTight(w);
    PartTight(w');
    SpacedTight(w.before, PartText(w));
    SpacedTight(w'.before, PartText(w'));
    PartThenKept(Spaces(w.before) + PartText(w), Spaces(w'.before) + PartText(w'), w.after, c,
                 JoinParts(c, parts[1..]), JoinParts(c, SqueezeAll(parts[1..])));
  }

  lemma SpacedTight(n: nat, x: string)
    requires x != "" && Trimmed(x)
    ensures var y := Spaces(n) + x; y != "" && !IsSpace(y[|y| - 1]) && (StartsTight(y) <==> n == 0)
  {
    assert IsSpace(' ');
  }

  lemma PartThenKept(x: string, x': string, n: nat, c: char, y: string, y': string)
    requires KeptAs(x, x') && KeptAs(y, y') && x != "" && x' != "" && IsSeparator(c)
    requires !IsSpace(x'[|x'| - 1]) && (StartsTight(x) ==> StartsTight(x'))
    ensures KeptAs(x + (Spaces(n) + ([c] + y)), x' + (Spaces(n) + ([c] + y')))
  {
    var op := Spaces(n) + [c];
    PlainKeptAs(op);
    hide KeptAs;
    ConcatKeptAs(x, x', op, op);
    ConcatKeptAs(x + op, x' + op, y, y');
    assert x + (Spaces(n) + ([c] + y)) == x + op + y;
    assert x' + (Spaces(n) + ([c] + y')) == x' + op + y';
  }

  // ---------------------------------------------------------------- between parts

  /** Outside parentheses, with nothing but spaces kept. */
  predicate Outside(s: Scan) { Strip(s.tmp) == "" && s.depth == 0 && !s.inPar }

  /** A part has been read: a bare name waits in the text kept, any other is attached. */
  predicate PartRead(s: Scan, w: Written, sons: seq<Tree>)
    requires Legible(w)
  {
    && s.depth == 0 && !s.inPar
    && if IsBare(w) then Strip(s.tmp) == Body(w) && s.sons == sons
       else Strip(s.tmp) == "" && s.sons == sons + [TreeOf(ExprOf(w))]
  }

  lemma {:induction false} NotSpecialHere(x: string, rest: string)
    requires !HasSpecial(x) && HasSpecial(x + rest)
    ensures HasSpecial(rest)
  {
    if x == "" {
      assert x + rest == rest;
    } else {
      assert (x + rest)[1..] == x[1..] + rest;
      NotSpecialHere(x[1..], rest);
    }
  }

  /** Outside parentheses plain text is kept until a separator comes. */
  lemma {:induction false} PlainKept(x: string, s: Scan, rest: string, limit: nat)
    requires s.depth == 0 && !s.inPar && !HasSpecial(x) && Fits(s, x + rest, limit)
    ensures Fits(s.(tmp := s.tmp + x), rest, limit)
    ensures ScanFrom(s, x + rest, limit) == ScanFrom(s.(tmp := s.tmp + x), rest, limit)
  {
    hide ScanFrom;
    if x == "" {
      assert x + rest == rest && s.tmp + x == s.tmp;
    } else {
      assert x + rest == [x[0]] + (x[1..] + rest);
      Step(s, x[0], x[1..] + rest, limit);
      PlainKept(x[1..], Push(s, x[0]), rest, limit);
      assert s.tmp + [x[0]] + x[1..] == s.tmp + x;
    }
  }

  lemma {:induction false} SpacesArePlain(n: nat)
    ensures !HasSpecial(Spaces(n))
    decreases n
  {
    if n > 0 {
      assert Spaces(n)[1..] == Spaces(n - 1);
      SpacesArePlain(n - 1);
    }
  }

  lemma WordParsed(w: Written)
    requires Legible(w) && w.Word?
    ensures Parse(Body(w)) == TreeOf(ExprOf(w))
  {
    NameParsed(w.name, w.negated);
  }

  /** A separator after a part: from now on the part is attached. */
  lemma SeparatorScanned(s: Scan, w: Written, sons: seq<Tree>, c: char, more: string, limit: nat)
    requires IsSeparator(c) && Fits(s, [c] + more, limit) && Legible(w) && PartRead(s, w, sons)
    ensures var s' := Scan(OperandOf(c), sons + [TreeOf(ExprOf(w))], "", 0, false);
            Fits(s', more, limit) && ScanFrom(s, [c] + more, limit) == ScanFrom(s', more, limit)
  {
    if IsBare(w) {
      WordParsed(w);
      WordTight(w);
    }
    hide Parse, Body, TreeOf;
    Step(s, c, more, limit);
  }

  /** The end of the text after a part. */
  lemma EndScanned(s: Scan, w: Written, sons: seq<Tree>, limit: nat)
    requires Fits(s, "", limit) && Legible(w) && PartRead(s, w, sons)
    ensures ScanFrom(s, "", limit) == Node(s.operand, sons + [TreeOf(ExprOf(w))])
  {
    if IsBare(w) {
      WordParsed(w);
      WordTight(w);
      assert Parse(Strip(s.tmp)) == TreeOf(ExprOf(w));
    }
    hide Body, TreeOf;
    assert Cut(s, limit).sons == sons + [TreeOf(ExprOf(w))];
  }

  lemma SpacesAfterPart(s: Scan, w: Written, sons: seq<Tree>, n: nat)
    requires Legible(w) && PartRead(s, w, sons)
    ensures PartRead(s.(tmp := s.tmp + Spaces(n)), w, sons)
  {
    SpacesStripped(s.tmp, n);
  }

  /** A part in parentheses is kept in its squeezed form, and parsed from it. */
  ghost predicate PartParses(w: Written)
    requires Legible(w)
  {
    Legible(Squeeze(w)) && Parse(Body(Squeeze(w))) == TreeOf(ExprOf(w))
  }

  lemma EnclosedScanned(t: Tree, b: string, b': string, s: Scan, rest: string, limit: nat)
    requires Parse(b') == t && Trimmed(b) && Trimmed(b') && KeptAs(b, b') && Outside(s)
    requires Fits(s, "(" + (b + (")" + rest)), limit)
    ensures var s' := Scan(s.operand, s.sons + [t], "", 0, false);
            Fits(s', rest, limit) && ScanFrom(s, "(" + (b + (")" + rest)), limit) == ScanFrom(s', rest, limit)
  {
    hide ScanFrom, Parse;
    Step(s, '(', b + (")" + rest), limit);
    var s1 := s.(depth := 1, inPar := true, tmp := "");
    assert KeptAt(b, b', s1, ")" + rest, limit);
    var s2 := s1.(tmp := s1.tmp + b');
    assert s2.tmp == b';
    StepClose(s2, rest, limit);
  }

  lemma PartScanned(w: Written, s: Scan, rest: string, limit: nat) returns (s': Scan)
    requires Legible(w) && PartParses(w) && Outside(s) && s.tmp == ""
    requires Fits(s, Spaces(w.before) + PartText(w) + rest, limit)
    ensures PartRead(s', w, s.sons) && s'.operand == s.operand && Fits(s', rest, limit)
    ensures ScanFrom(s, Spaces(w.before) + PartText(w) + rest, limit) == ScanFrom(s', rest, limit)
  {
    hide ScanFrom, Parse, HasSpecial, Legible, Body, TreeOf;
    var n := w.before;
    SpacesArePlain(n);
    assert Spaces(n) + PartText(w) + rest == Spaces(n) + (PartText(w) + rest);
    PlainKept(Spaces(n), s, PartText(w) + rest, limit);
    var s1 := s.(tmp := s.tmp + Spaces(n));
    assert s1.tmp == Spaces(n) && Spaces(n) + "" == Spaces(n);
    LeadStripped(n, "");
    if IsBare(w) {
      WordTight(w);
      PlainKept(Body(w), s1, rest, limit);
      s' := s1.(tmp := s1.tmp + Body(w));
      LeadStripped(n, Body(w));
    } else {
      BodyKeptAs(w);
      BodyTight(w);
      BodyTight(Squeeze(w));
      assert PartText(w) + rest == "(" + (Body(w) + (")" + rest));
      EnclosedScanned(TreeOf(ExprOf(w)), Body(w), Body(Squeeze(w)), s1, rest, limit);
      s' := Scan(s.operand, s.sons + [TreeOf(ExprOf(w))], "", 0, false);
    }
  }

  ghost predicate PartsParse(parts: seq<Written>)
    requires AllLegible(parts)
  {
    forall i :: 0 <= i < |parts| ==> PartParses(parts[i])
  }

  lemma PartThenSeparatorScanned(w: Written, s: Scan, c: char, tail: string, limit: nat)
    requires Legible(w) && PartParses(w) && Outside(s) && s.tmp == "" && IsSeparator(c)
    requires Fits(s, Spaces(w.before) + PartText(w) + (Spaces(w.after) + ([c] + tail)), limit)
    ensures var s' := Scan(OperandOf(c), s.sons + [TreeOf(ExprOf(w))], "", 0, false);
            && Fits(s', tail, limit)
            && ScanFrom(s, Spaces(w.before) + PartText(w) + (Spaces(w.after) + ([c] + tail)), limit) ==
                 ScanFrom(s', tail, limit)
  {
    hide ScanFrom, Parse, PartText, Body, Legible, PartParses, HasSpecial, TreeOf;
    var s1 := PartScanned(w, s, Spaces(w.after) + ([c] + tail), limit);
    SpacesArePlain(w.after);
    PlainKept(Spaces(w.after), s1, [c] + tail, limit);
    SpacesAfterPart(s1, w, s.sons, w.after);
    SeparatorScanned(s1.(tmp := s1.tmp + Spaces(w.after)), w, s.sons, c, tail, limit);
  }

  /** The trees of the parts. */
  function PartTrees(parts: seq<Written>): seq<Tree> { TreesOf(ExprsOf(parts)) }

  lemma PartTreesCons(parts: seq<Written>)
    requires |parts| >= 1
    ensures PartTrees(parts) == [TreeOf(ExprOf(parts[0]))] + PartTrees(parts[1..])
    ensures |parts| == 1 ==> PartTrees(parts) == [TreeOf(ExprOf(parts[0]))]
  {
    hide ExprOf;
    assert ExprsOf(parts)[1..] == ExprsOf(parts[1..]);
  }

  lemma TailParse(parts: seq<Written>)
    requires AllLegible(parts) && PartsParse(parts) && |parts| >= 1
    ensures PartParses(parts[0]) && AllLegible(parts[1..]) && PartsParse(parts[1..])
  {
    hide PartParses, Legible;
    assert forall i :: 0 <= i < |parts| - 1 ==> parts[1..][i] == parts[i + 1];
  }

  lemma LastPartRead(w: Written, s: Scan, limit: nat)
    requires Legible(w) && PartParses(w) && Outside(s) && s.tmp == "" && Fits(s, Spaces(w.before) + PartText(w), limit)
    ensures ScanFrom(s, Spaces(w.before) + PartText(w), limit) == Node(s.operand, s.sons + [TreeOf(ExprOf(w))])
  {
    hide ScanFrom, Parse, PartText, Body, Legible, HasSpecial, TreeOf, ExprOf, PartParses, Spaces;
    var last := Spaces(w.before) + PartText(w);
    assert last + "" == last;
    var s1 := PartScanned(w, s, "", limit);
    EndScanned(s1, w, s.sons, limit);
  }

  lemma {:induction false} PartsScannedTo(c: char, s: Scan, parts: seq<Written>, limit: nat)
    requires AllLegible(parts) && PartsParse(parts) && Outside(s) && s.tmp == "" && IsSeparator(c)
    requires |parts| >= 1 && Fits(s, JoinParts(c, parts), limit)
    ensures ScanFrom(s, JoinParts(c, parts), limit) ==
              Node(if |parts| == 1 then s.operand else OperandOf(c), s.sons + PartTrees(parts))
    decreases |parts|
  {
    hide ScanFrom, Parse, PartText, Body, Legible, PartParses, HasSpecial, TreeOf, ExprOf, Spaces, JoinParts, AllLegible,
      PartsParse, PartTrees, OperandOf;
    var w := parts[0];
    TailParse(parts);
    JoinCons(c, parts);
    PartTreesCons(parts);
    if |parts| == 1 {
      LastPartRead(w, s, limit);
    } else {
      var tail := JoinParts(c, parts[1..]);
      PartThenSeparatorScanned(w, s, c, tail, limit);
      var s2 := Scan(OperandOf(c), s.sons + [TreeOf(ExprOf(w))], "", 0, false);
      assert Strip("") == "";
      PartsScannedTo(c, s2, parts[1..], limit);
      assert s2.sons + PartTrees(parts[1..]) == s.sons + PartTrees(parts);
    }
  }

  // ---------------------------------------------------------------- the round trip

  lemma {:induction false} SpecialIn(x: string, c: char, y: string)
    requires IsSpecial(c)
    ensures HasSpecial(x + ([c] + y))
  {
    if x != "" {
      SpecialIn(x[1..], c, y);
      assert (x + ([c] + y))[1..] == x[1..] + ([c] + y);
    }
  }

  lemma JoinHasSpecial(c: char, parts: seq<Written>)
    requires AllLegible(parts) && |parts| >= 1 && IsSeparator(c) && (|parts| == 1 ==> !IsBare(parts[0]))
    ensures HasSpecial(JoinParts(c, parts))
  {
    hide Legible, HasSpecial, Body;
    var w := parts[0];
    JoinCons(c, parts);
    var x := Spaces(w.before) + PartText(w);
    if |parts| > 1 {
      var y := JoinParts(c, parts[1..]);
      assert x + (Spaces(w.after) + ([c] + y)) == x + Spaces(w.after) + ([c] + y);
      SpecialIn(x + Spaces(w.after), c, y);
    } else {
      SpecialIn(Spaces(w.before), '(', Body(w) + ")");
    }
  }

  lemma ClauseParsed(c: char, parts: seq<Written>)
    requires AllLegible(parts) && PartsParse(parts) && IsSeparator(c) && |parts| >= 1 && parts[0].before == 0
    requires |parts| == 1 ==> !IsBare(parts[0])
    ensures Parse(JoinParts(c, parts)) == Node(if |parts| == 1 then NoOperand else OperandOf(c), PartTrees(parts))
  {
    hide ScanFrom, Parse, Legible, AllLegible, PartsParse, JoinParts, PartTrees, HasSpecial, OperandOf;
    var text := JoinParts(c, parts);
    JoinTight(c, parts);
    JoinHasSpecial(c, parts);
    ListTextParses(text);
    assert Strip("") == "";
    PartsScannedTo(c, START, parts, |text|);
    assert [] + PartTrees(parts) == PartTrees(parts);
  }

  /** Parsing a written expression gives the tree of what is meant. */
  lemma {:induction false} ParseWritten(w: Written)
    requires Legible(w)
    ensures Parse(Body(w)) == TreeOf(ExprOf(w))
    decreases Size(w)
  {
    match w
    case Word(_, _, _, _, _) => WordParsed(w);
    case Clause(c, parts, _, _) =>
      forall i | 0 <= i < |parts| ensures PartParses(parts[i]) {
        PartIsSmaller(parts, i);
        SqueezeSize(parts[i]);
        SqueezeKeeps(parts[i]);
        ParseWritten(Squeeze(parts[i]));
      }
      ClauseParsed(c, parts);
  }

  lemma {:induction false} LegibleIsWellFormed(w: Written)
    requires Legible(w)
    ensures WellFormed(ExprOf(w))
  {
    if w.Clause? {
      forall i | 0 <= i < |w.parts| ensures WellFormed(ExprOf(w.parts[i])) { LegibleIsWellFormed(w.parts[i]); }
    }
  }

  ghost predicate WrittenRight(w: Written)
    requires Legible(w)
  {
    forall x, find :: Member(Parse(Body(w)), x, find) <==> Selects(ExprOf(w), x, find)
  }

  /** In every form, an expression is compiled to its meaning, except for a lone
      negated name, whose NOT is ignored. */
  lemma WrittenRightIff(w: Written)
    requires Legible(w)
    ensures WrittenRight(w) <==> !NegatedName(ExprOf(w))
  {
    ParseWritten(w);
    LegibleIsWellFormed(w);
    CompiledRightIff(ExprOf(w));
    ParsePrint(ExprOf(w));
    hide Parse, Body, Print;
  }

  // ---------------------------------------------------------------- mixed separators

  /** When separators are mixed without parentheses, the last one decides for all. */
  lemma LastSeparatorDecides(a: Written, b: Written, d: Written, c: char, c': char)
    requires Legible(a) && Legible(b) && Legible(d) && IsSeparator(c) && IsSeparator(c') && a.before == 0
    ensures Parse(MixedText(a, b, d, c, c')) ==
              Node(OperandOf(c'), [TreeOf(ExprOf(a)), TreeOf(ExprOf(b)), TreeOf(ExprOf(d))])
  {
    var text := MixedText(a, b, d, c, c');
    MixedTight(a, b, d, c, c');
    hide ScanFrom, Parse, PartText, Legible, HasSpecial, TreeOf, MixedText;
    ListTextParses(text);
    MixedScanned(a, b, d, c, c', |text|);
  }

  lemma MixedScanned(a: Written, b: Written, d: Written, c: char, c': char, limit: nat)
    requires Legible(a) && Legible(b) && Legible(d) && IsSeparator(c) && IsSeparator(c')
    requires Fits(START, MixedText(a, b, d, c, c'), limit)
    ensures ScanFrom(START, MixedText(a, b, d, c, c'), limit) ==
              Node(OperandOf(c'), [TreeOf(ExprOf(a)), TreeOf(ExprOf(b)), TreeOf(ExprOf(d))])
  {
    hide ScanFrom, Parse, PartText, Body, Legible, HasSpecial, TreeOf, ExprOf, PartParses, Spaces, OperandOf, IsSeparator;
    AnyPartParses(a);
    AnyPartParses(b);
    assert Strip("") == "";
    var last := Spaces(d.before) + PartText(d);
    var tail := Spaces(b.before) + PartText(b) + (Spaces(b.after) + ([c'] + last));
    PartThenSeparatorScanned(a, START, c, tail, limit);
    var s1 := Scan(OperandOf(c), START.sons + [TreeOf(ExprOf(a))], "", 0, false);
    PartThenSeparatorScanned(b, s1, c', last, limit);
    var s2 := Scan(OperandOf(c'), s1.sons + [TreeOf(ExprOf(b))], "", 0, false);
    AnyPartParses(d);
    LastPartRead(d, s2, limit);
    assert s2.sons + [TreeOf(ExprOf(d))] == [TreeOf(ExprOf(a)), TreeOf(ExprOf(b)), TreeOf(ExprOf(d))];
  }

  function MixedText(a: Written, b: Written, d: Written, c: char, c': char): string
    requires Legible(a) && Legible(b) && Legible(d)
  {
    Spaces(a.before) + PartText(a) + (Spaces(a.after) + ([c] + (
      Spaces(b.before) + PartText(b) + (Spaces(b.after) + ([c'] + (Spaces(d.before) + PartText(d)))))))
  }

  lemma AnyPartParses(w: Written)
    requires Legible(w)
    ensures PartParses(w)
  {
    SqueezeKeeps(w);
    ParseWritten(Squeeze(w));
  }

  lemma MixedTight(a: Written, b: Written, d: Written, c: char, c': char)
    requires Legible(a) && Legible(b) && Legible(d) && IsSeparator(c) && a.before == 0
    ensures Trimmed(MixedText(a, b, d, c, c')) && HasSpecial(MixedText(a, b, d, c, c'))
  {
    hide PartText, Legible, HasSpecial;
    PartTight(a);
    PartTight(d);
    var more := Spaces(b.before) + PartText(b) + (Spaces(b.after) + ([c'] + (Spaces(d.before) + PartText(d))));
    var x := Spaces(a.before) + PartText(a) + Spaces(a.after);
    var text := MixedText(a, b, d, c, c');
    assert text == x + ([c] + more);
    SpecialIn(x, c, more);
    assert text[0] == PartText(a)[0];
    assert more[|more| - 1] == PartText(d)[|PartText(d)| - 1];
    assert text[|text| - 1] == more[|more| - 1];
  }

  // ---------------------------------------------------------------- in figures

  /** The four separators: , and | unite, & and + intersect. */
  lemma SeparatorsInText(a: string, b: string, c: char)
    requires PlainName(a) && PlainName(b)
    requires c == ',' || c == '|' || c == '&' || c == '+'
    ensures Parse(a + ([c] + b)) ==
              Node(if c == ',' || c == '|' then Or else And, [Leaf(a, false), Leaf(b, false)])
  {
    var v, w := Word(a, false, true, 0, 0), Word(b, false, true, 0, 0);
    var e := Clause(c, [v, w], 0, 0);
    assert Legible(v) && Legible(w) && Legible(e);
    BareText(c, v, w);
    ParseWritten(e);
    hide Parse, Legible, PlainName;
    assert ExprsOf(e.parts) == [Name(a, false), Name(b, false)];
    TwoTrees(a, b, c);
  }

  lemma TwoTrees(a: string, b: string, c: char)
    ensures TreeOf(List(c, [Name(a, false), Name(b, false)])) == Node(OperandOf(c), [Leaf(a, false), Leaf(b, false)])
  {
    var x, y := Name(a, false), Name(b, false);
    assert [x, y][1..] == [y];
    TreesOfCons([x, y]);
    TreesOfCons([y]);
    assert TreeOf(x) == Leaf(a, false) && TreeOf(y) == Leaf(b, false);
  }

  lemma BareText(c: char, v: Written, w: Written)
    requires Legible(v) && Legible(w) && IsBare(v) && IsBare(w) && !v.negated && !w.negated
    requires v.before == 0 && v.after == 0 && w.before == 0
    ensures JoinParts(c, [v, w]) == v.name + ([c] + w.name)
  {
    hide Legible;
    var parts := [v, w];
    assert AllLegible(parts) && parts[1..] == [w] && AllLegible([w]);
    JoinCons(c, parts);
    JoinCons(c, [w]);
    assert PartText(v) == v.name && PartText(w) == w.name;
    assert Spaces(0) + v.name == v.name && Spaces(0) + w.name == w.name;
    assert Spaces(0) + ([c] + w.name) == [c] + w.name;
  }
}
