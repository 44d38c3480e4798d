/** Writing a business rule, in any of its usual forms, and parsing it back. */
module BusinessRuleRoundTrip {
  import opened Text
  import opened BusinessRuleParser

  // ---------------------------------------------------------------- what may be written

  /** A rule as a user writes it. Between the sons of a clause stands its operator, with
      any number of spaces on both sides: before and after are those around this son. A
      word may stand bare or in parentheses; a clause inside another is in parentheses. */
  datatype Written =
    | Word(name: string, negated: bool, bare: bool, before: nat, after: nat)
    | Clause(operand: Operand, sons: seq<Written>, negated: bool, before: nat, after: nat)

  /** A value written 0 stands for all sons. */
  function ValueMeant(a: string, sons: nat): string { if a == "0" then Decimal(sons) else a }

  /** A simple of: rule has one value of its own; the two others are all sons. */
  function Meant(op: Operand, sons: nat): Operand {
    match op
    case Of(a, b, c, true) => Of(ValueMeant(a, sons), ValueMeant(b, sons), ValueMeant(c, sons), true)
    case Of(a, _, _, false) => Of(ValueMeant(a, sons), Decimal(sons), Decimal(sons), false)
    case _ => op
  }

  /** The tree that is meant. */
  function TreeOf(w: Written): (t: Tree)
    ensures !t.Missing? && t.negated == w.negated
    decreases w
  {
    match w
    case Word(name, negated, _, _, _) => Leaf(NoOperand, name, negated)
    case Clause(op, sons, negated, _, _) => Node(Meant(op, |sons|), TreesOf(sons), negated)
  }

  function Positive(t: Tree): Tree {
    match t
    case Missing => t
    case Leaf(op, name, _) => Leaf(op, name, false)
    case Node(op, sons, _) => Node(op, sons, false)
  }

  function TreesOf(sons: seq<Written>): (r: seq<Tree>)
    ensures |r| == |sons| && forall i :: 0 <= i < |sons| ==> r[i] == TreeOf(sons[i])
    decreases sons
  {
    seq(|sons|, i requires 0 <= i < |sons| => TreeOf(sons[i]))
  }

  /** A name that stands for itself: one trimmed line, without operators or
      parentheses, not starting with ! and not an of: rule. */
  predicate PlainName(s: string) {
    && s != "" && Trimmed(s) && !HasSpecial(s) && s[0] != '!' && '\n' !in s
    && MatchXof(s).None?
  }

  /** What is left after the numbers that may come before of: */
  function AfterNumbers(s: string): string {
    var s1 := SkipChar(s[NumberLength(s)..], ',');
    var s2 := SkipChar(s1[NumberLength(s1)..], ',');
    SkipChar(s2[NumberLength(s2)..], ' ')
  }

  /** Numbers, then of: the start of an of: rule. */
  predicate AsksOf(s: string) {
    StartsWithNumber(s) && |AfterNumbers(s)| >= 3 && AfterNumbers(s)[..3] == "of:"
  }

  /** A plain name that may stand without parentheses. */
  predicate BareName(s: string) { PlainName(s) && '!' !in s && !AsksOf(s) }

  /** An optional minus, digits, an optional percent sign. */
  predicate IsNumber(s: string) {
    StartsWithNumber(s) && NumberLength(s) == |s|
  }

  /** The operands a written clause can carry. */
  predicate PrintableOperand(op: Operand, sons: nat) {
    match op
    case NoOperand => false
    case Of(a, b, c, true) => sons >= 1 && IsNumber(a) && IsNumber(b) && IsNumber(c)
    case Of(a, _, _, false) => sons >= 1 && IsNumber(a)
    case _ => sons >= 2
  }

  predicate IsBare(w: Written) { w.Word? && w.bare }

  /** An only son is in parentheses; spaces before the first one follow an of: only. */
  predicate Legible(w: Written)
    decreases w
  {
    match w
    case Word(name, _, bare, _, _) => if bare then BareName(name) else PlainName(name)
    case Clause(op, sons, _, _, _) =>
      && PrintableOperand(op, |sons|) && (forall i :: 0 <= i < |sons| ==> Legible(sons[i]))
      && (|sons| == 1 ==> !IsBare(sons[0])) && (!op.Of? && |sons| > 0 ==> sons[0].before == 0)
  }

  predicate AllLegible(sons: seq<Written>) {
    forall i :: 0 <= i < |sons| ==> Legible(sons[i])
  }

  // ---------------------------------------------------------------- writing

  function OperatorChar(op: Operand): char { if op.Or? then '|' else '&' }

  function HeaderText(op: Operand): string {
    match op
    case Of(a, b, c, true) => a + ("," + (b + ("," + (c + " of:"))))
    case Of(a, _, _, false) => a + " of:"
    case _ => ""
  }

  /** The text of a rule, without its own negation. */
  function Body(w: Written): string
    requires Legible(w)
    decreases w, 1
  {
    match w
    case Word(name, _, _, _, _) => name
    case Clause(op, sons, _, _, _) => HeaderText(op) + Join(OperatorChar(op), sons)
  }

  function Bangs(w: Written): string { if w.negated then "!" else "" }

  function SonText(w: Written): string
    requires Legible(w)
    decreases w, 2
  {
    Bangs(w) + (if IsBare(w) then w.name else "(" + (Body(w) + ")"))
  }

  /** The sons with their spaces, and the operator character c between them. */
  function Join(c: char, sons: seq<Written>): string
    requires AllLegible(sons)
    decreases sons, 0
  {
    if |sons| == 0 then ""
    else
      var first := Spaces(sons[0].before) + SonText(sons[0]);
      if |sons| == 1 then first
      else first + (Spaces(sons[0].after) + ([c] + Join(c, sons[1..])))
  }

  // ---------------------------------------------------------------- spaces

  lemma {:induction false} SpacesArePlain(n: nat)
    ensures !HasSpecial(Spaces(n)) && '!' !in Spaces(n) && '\n' !in Spaces(n)
    decreases n
  {
    if n > 0 {
      assert Spaces(n)[1..] == Spaces(n - 1);
      SpacesArePlain(n - 1);
    }
  }

  // ---------------------------------------------------------------- one character

  lemma Step(s: Scan, c: char, more: string, limit: nat)
    requires Fits(s, [c] + more, limit)
    ensures OneChar(s, c, limit).Next? ==>
              && Fits(OneChar(s, c, limit).scan, more, limit)
              && ScanFrom(s, [c] + more, limit) == ScanFrom(OneChar(s, c, limit).scan, more, limit)
  {
    assert ([c] + more)[1..] == more;
  }

  /** A character that is only appended inside parentheses. */
  lemma StepInside(s: Scan, c: char, more: string, limit: nat)
    requires Fits(s, [c] + more, limit) && s.inPar && (c == ')' ==> s.depth >= 2)
    requires c != '('
    ensures var s' := Push(s, c).(depth := if c == ')' then s.depth - 1 else s.depth);
            Fits(s', more, limit) && ScanFrom(s, [c] + more, limit) == ScanFrom(s', more, limit)
  {
    Step(s, c, more, limit);
  }

  /** A parenthesis inside another drops the spaces before it. */
  lemma StepOpenInside(s: Scan, tmp: string, n: nat, more: string, limit: nat)
    requires Fits(s, "(" + more, limit) && s.inPar && s.depth >= 1 && Trimmed(tmp) && s.tmp == tmp + Spaces(n)
    ensures var s' := s.(tmp := tmp + "(", depth := s.depth + 1);
            Fits(s', more, limit) && ScanFrom(s, "(" + more, limit) == ScanFrom(s', more, limit)
  {
    SpacesStripped(tmp, n);
    StripTrimmed(tmp);
    Step(s, '(', more, limit);
  }

  // ---------------------------------------------------------------- inside parentheses

  /** Inside parentheses, the scan of x appends y to the text kept. */
  ghost predicate CopiedAt(x: string, y: string, s: Scan, rest: string, limit: nat) {
    s.inPar && s.depth >= 1 && Trimmed(s.tmp) && (s.tmp != "" || StartsTight(x)) && Fits(s, x + rest, limit) ==>
      && Fits(s.(tmp := s.tmp + y), rest, limit)
      && ScanFrom(s, x + rest, limit) == ScanFrom(s.(tmp := s.tmp + y), rest, limit)
  }

  ghost predicate CopiedTo(x: string, y: string) {
    forall s, rest, limit: nat :: CopiedAt(x, y, s, rest, limit)
  }

  lemma {:induction false} PlainCopiedAt(x: string, s: Scan, rest: string, limit: nat)
    requires s.inPar && s.depth >= 1 && !HasSpecial(x) && Fits(s, x + rest, limit)
    ensures Fits(s.(tmp := s.tmp + x), rest, limit)
    ensures ScanFrom(s, x + rest, limit) == ScanFrom(s.(tmp := s.tmp + x), rest, limit)
  {
    hide ScanFrom;
    if x == "" {
      assert x + rest == rest && s.tmp + x == s.tmp;
    } else {
      assert x + rest == [x[0]] + (x[1..] + rest);
      StepInside(s, x[0], x[1..] + rest, limit);
      PlainCopiedAt(x[1..], Push(s, x[0]), rest, limit);
      assert s.tmp + [x[0]] + x[1..] == s.tmp + x;
    }
  }

  lemma PlainCopied(x: string)
    requires !HasSpecial(x)
    ensures CopiedTo(x, x)
  {
    hide ScanFrom;
    forall s, rest, limit: nat ensures CopiedAt(x, x, s, rest, limit) {
      if s.inPar && s.depth >= 1 && Fits(s, x + rest, limit) {
        PlainCopiedAt(x, s, rest, limit);
      }
    }
  }

  /** Spaces and an operator are kept. */
  lemma OperatorCopied(n: nat, c: char)
    requires c == '&' || c == '|'
    ensures CopiedTo(Spaces(n) + [c], Spaces(n) + [c])
  {
    hide ScanFrom;
    var x := Spaces(n) + [c];
    SpacesArePlain(n);
    forall s, rest, limit: nat ensures CopiedAt(x, x, s, rest, limit) {
      if s.inPar && s.depth >= 1 && Fits(s, x + rest, limit) {
        assert x + rest == Spaces(n) + ([c] + rest);
        PlainCopiedAt(Spaces(n), s, [c] + rest, limit);
        StepInside(s.(tmp := s.tmp + Spaces(n)), c, rest, limit);
        assert s.tmp + Spaces(n) + [c] == s.tmp + x;
      }
    }
  }

  /** Spaces before a parenthesis are not. */
  lemma ParenthesesCopied(n: nat, b: string, b': string)
    requires CopiedTo(b, b') && StartsTight(b)
    ensures CopiedTo(Spaces(n) + ("(" + (b + ")")), "(" + (b' + ")"))
  {
    hide ScanFrom;
    var x, y := Spaces(n) + ("(" + (b + ")")), "(" + (b' + ")");
    SpacesArePlain(n);
    forall s, rest, limit: nat ensures CopiedAt(x, y, s, rest, limit) {
      if s.inPar && s.depth >= 1 && Trimmed(s.tmp) && Fits(s, x + rest, limit) {
        var inner := b + (")" + rest);
        assert x + rest == Spaces(n) + ("(" + inner);
        PlainCopiedAt(Spaces(n), s, "(" + inner, limit);
        StepOpenInside(s.(tmp := s.tmp + Spaces(n)), s.tmp, n, inner, limit);
        var s1 := s.(tmp := s.tmp + "(", depth := s.depth + 1);
        assert CopiedAt(b, b', s1, ")" + rest, limit);
        var s2 := s1.(tmp := s1.tmp + b');
        StepInside(s2, ')', rest, limit);
        assert s2.tmp + ")" == s.tmp + y;
      }
    }
  }

  lemma ConcatCopied(x: string, x': string, y: string, y': string)
    requires CopiedTo(x, x') && CopiedTo(y, y') && x' != "" && !IsSpace(x'[|x'| - 1])
    requires x != "" && (StartsTight(x) ==> StartsTight(x'))
    ensures CopiedTo(x + y, x' + y')
  {
    hide ScanFrom;
    forall s, rest, limit: nat ensures CopiedAt(x + y, x' + y', s, rest, limit) {
      if s.inPar && s.depth >= 1 && Trimmed(s.tmp) && (s.tmp != "" || StartsTight(x + y)) && Fits(s, x + y + rest, limit) {
        assert x + y + rest == x + (y + rest);
        assert (x + y)[0] == x[0];
        assert CopiedAt(x, x', s, y + rest, limit);
        var s1 := s.(tmp := s.tmp + x');
        assert CopiedAt(y, y', s1, rest, limit);
        assert s.tmp + x' + y' == s.tmp + (x' + y');
      }
    }
  }

  /** The same rule without the spaces that stand directly before a parenthesis. */
  function Squeeze(w: Written): Written
    decreases w
  {
    match w
    case Word(name, negated, bare, before, after) =>
      Word(name, negated, bare, if bare || negated then before else 0, after)
    case Clause(op, sons, negated, before, after) =>
      Clause(op, SqueezeAll(sons), negated, if negated then before else 0, after)
  }

  function SqueezeAll(sons: seq<Written>): (r: seq<Written>)
    ensures |r| == |sons| && forall i :: 0 <= i < |sons| ==> r[i] == Squeeze(sons[i])
    decreases sons
  {
    seq(|sons|, i requires 0 <= i < |sons| => Squeeze(sons[i]))
  }

  function Size(w: Written): nat
    decreases w, 1
  {
    if w.Word? then 1 else 1 + SizeAll(w.sons)
  }

  function SizeAll(sons: seq<Written>): nat
    decreases sons, 0
  {
    if sons == [] then 0 else Size(sons[0]) + SizeAll(sons[1..])
  }

  lemma {:induction false} SonIsSmaller(sons: seq<Written>, i: nat)
    requires i < |sons|
    ensures Size(sons[i]) <= SizeAll(sons)
  {
    if i > 0 { SonIsSmaller(sons[1..], i - 1); }
  }

  lemma {:induction false} SqueezeSize(w: Written)
    ensures Size(Squeeze(w)) == Size(w)
    decreases w, 1
  {
    if w.Clause? { SqueezeAllSize(w.sons); }
  }

  lemma {:induction false} SqueezeAllSize(sons: seq<Written>)
    ensures SizeAll(SqueezeAll(sons)) == SizeAll(sons)
    decreases sons, 0
  {
    if sons != [] {
      SqueezeSize(sons[0]);
      SqueezeAllSize(sons[1..]);
      assert SqueezeAll(sons)[1..] == SqueezeAll(sons[1..]);
    }
  }

  lemma {:induction false} SqueezeKeeps(w: Written)
    ensures TreeOf(Squeeze(w)) == TreeOf(w) && (Legible(w) ==> Legible(Squeeze(w)))
    ensures Squeeze(w).negated == w.negated && Squeeze(w).after == w.after && IsBare(Squeeze(w)) == IsBare(w)
    ensures w.before == 0 ==> Squeeze(w).before == 0
  {
    if w.Clause? {
      forall i | 0 <= i < |w.sons|
        ensures TreeOf(Squeeze(w.sons[i])) == TreeOf(w.sons[i])
        ensures Legible(w.sons[i]) ==> Legible(Squeeze(w.sons[i]))
        ensures IsBare(Squeeze(w.sons[i])) == IsBare(w.sons[i])
        ensures w.sons[i].before == 0 ==> Squeeze(w.sons[i]).before == 0
      {
        SqueezeKeeps(w.sons[i]);
      }
      assert TreesOf(SqueezeAll(w.sons)) == TreesOf(w.sons);
    }
  }

  lemma SqueezeAllKeeps(sons: seq<Written>)
    requires AllLegible(sons)
    ensures AllLegible(SqueezeAll(sons)) && TreesOf(SqueezeAll(sons)) == TreesOf(sons)
  {
    forall i | 0 <= i < |sons|
      ensures Legible(Squeeze(sons[i])) && TreeOf(Squeeze(sons[i])) == TreeOf(sons[i])
    {
      SqueezeKeeps(sons[i]);
    }
  }

  /** Inside parentheses a rule is copied in its squeezed form. */
  lemma {:induction false} BodyCopied(w: Written)
    requires Legible(w)
    ensures Legible(Squeeze(w)) && CopiedTo(Body(w), Body(Squeeze(w)))
    decreases w, 1
  {
    SqueezeKeeps(w);
    match w
    case Word(name, _, _, _, _) => PlainCopied(name);
    case Clause(op, sons, _, _, _) =>
      var c := OperatorChar(op);
      SqueezeAllKeeps(sons);
      var j, j' := Join(c, sons), Join(c, SqueezeAll(sons));
      JoinCopied(c, sons);
      if op.Of? {
        HeaderTextIsPlain(op, |sons|);
        PlainCopied(HeaderText(op));
        ConcatCopied(HeaderText(op), HeaderText(op), j, j');
      } else {
        assert "" + j == j && "" + j' == j';
      }
  }

  lemma {:induction false} SonCopied(w: Written)
    requires Legible(w)
    ensures Legible(Squeeze(w))
    ensures CopiedTo(Spaces(w.before) + SonText(w), Spaces(Squeeze(w).before) + SonText(Squeeze(w)))
    decreases w, 2
  {
    SqueezeKeeps(w);
    if IsBare(w) {
      BareCopied(w);
    } else {
      BodyCopied(w);
      BodyTrimmed(w);
      hide CopiedTo, Legible, Body, Trimmed;
      EnclosedCopied(w.before, w.negated, Body(w), Body(Squeeze(w)));
    }
  }

  lemma BareCopied(w: Written)
    requires Legible(w) && IsBare(w)
    ensures CopiedTo(Spaces(w.before) + SonText(w), Spaces(w.before) + SonText(w))
  {
    SpacesArePlain(w.before);
    BangsArePlain(w);
    NoSpecialConcat(Bangs(w), w.name);
    NoSpecialConcat(Spaces(w.before), Bangs(w) + w.name);
    PlainCopied(Spaces(w.before) + SonText(w));
  }

  /** Spaces before a ! are kept, those before a parenthesis are not. */
  lemma EnclosedCopied(n: nat, negated: bool, b: string, b': string)
    requires CopiedTo(b, b') && b != "" && Trimmed(b)
    ensures var bang := if negated then "!" else "";
            CopiedTo(Spaces(n) + (bang + ("(" + (b + ")"))),
                     Spaces(if negated then n else 0) + (bang + ("(" + (b' + ")"))))
  {
    var x, y := "(" + (b + ")"), "(" + (b' + ")");
    hide CopiedTo;
    if negated {
      SpacesArePlain(n);
      assert "!"[1..] == "";
      NoSpecialConcat(Spaces(n), "!");
      PlainCopied(Spaces(n) + "!");
      ParenthesesCopied(0, b, b');
      assert Spaces(0) + x == x;
      ConcatCopied(Spaces(n) + "!", Spaces(n) + "!", x, y);
      assert Spaces(n) + "!" + x == Spaces(n) + ("!" + x);
      assert Spaces(n) + "!" + y == Spaces(n) + ("!" + y);
    } else {
      ParenthesesCopied(n, b, b');
      assert "" + x == x && Spaces(0) + ("" + y) == y;
    }
  }

  lemma BangsArePlain(w: Written)
    ensures !HasSpecial(Bangs(w)) && !HasSpecial("!")
  {
    assert "!"[1..] == "";
  }

  lemma {:induction false} JoinCopied(c: char, sons: seq<Written>)
    requires AllLegible(sons) && (c == '&' || c == '|')
    ensures AllLegible(SqueezeAll(sons)) && CopiedTo(Join(c, sons), Join(c, SqueezeAll(sons)))
    decreases sons, 0
  {
    SqueezeAllKeeps(sons);
    hide CopiedTo;
    if |sons| == 0 {
      PlainCopied("");
    } else {
      SonCopied(sons[0]);
      if |sons| > 1 {
        JoinCopied(c, sons[1..]);
        JoinCopiedStep(c, sons);
      }
    }
  }

  lemma SqueezeAllCons(sons: seq<Written>)
    requires |sons| >= 1
    ensures SqueezeAll(sons)[0] == Squeeze(sons[0]) && SqueezeAll(sons)[1..] == SqueezeAll(sons[1..])
  {
    hide Squeeze;
  }

  lemma JoinCopiedStep(c: char, sons: seq<Written>)
    requires AllLegible(sons) && |sons| > 1 && (c == '&' || c == '|')
    requires Legible(Squeeze(sons[0])) && AllLegible(SqueezeAll(sons)) && AllLegible(SqueezeAll(sons[1..]))
    requires var w, w' := sons[0], Squeeze(sons[0]);
             CopiedTo(Spaces(w.before) + SonText(w), Spaces(w'.before) + SonText(w'))
    requires CopiedTo(Join(c, sons[1..]), Join(c, SqueezeAll(sons[1..])))
    ensures CopiedTo(Join(c, sons), Join(c, SqueezeAll(sons)))
  {
    hide CopiedTo, SonText, Legible, Squeeze, SqueezeAll, Join, Spaces, AllLegible;
    var w, w' := sons[0], Squeeze(sons[0]);
    SqueezeKeeps(w);
    SqueezeAllCons(sons);
    JoinCons(c, sons);
    JoinCons(c, SqueezeAll(sons));
    SonTextEnds(w);
    SonTextEnds(w');
    SonThenCopied(Spaces(w.before) + SonText(w), Spaces(w'.before) + SonText(w'), w.after, c,
                  Join(c, sons[1..]), Join(c, SqueezeAll(sons[1..])));
  }

  lemma SonThenCopied(x: string, x': string, n: nat, c: char, y: string, y': string)
    requires CopiedTo(x, x') && CopiedTo(y, y') && x != "" && x' != "" && (c == '&' || c == '|')
    requires !IsSpace(x'[|x'| - 1]) && (StartsTight(x) ==> StartsTight(x'))
    ensures CopiedTo(x + (Spaces(n) + ([c] + y)), x' + (Spaces(n) + ([c] + y')))
  {
    hide CopiedTo;
    var op := Spaces(n) + [c];
    OperatorCopied(n, c);
    ConcatCopied(x, x', op, op);
    ConcatCopied(x + op, x' + op, y, y');
    assert x + (Spaces(n) + ([c] + y)) == x + op + y;
    assert x' + (Spaces(n) + ([c] + y')) == x' + op + y';
  }

  /** The text of a son is tight; what comes before it is its own spaces. */
  lemma SonTextEnds(w: Written)
    requires Legible(w)
    ensures var x := SonText(w); x != "" && Trimmed(x)
    ensures var x := Spaces(w.before) + SonText(w);
            x != "" && !IsSpace(x[|x| - 1]) && (StartsTight(x) <==> w.before == 0)
  {
    SonTextTight(w);
    hide SonText, Legible;
    assert IsSpace(' ');
    var sp, t := Spaces(w.before), SonText(w);
    assert (sp + t)[|sp + t| - 1] == t[|t| - 1];
    assert (sp + t)[0] == if w.before == 0 then t[0] else sp[0];
  }

  lemma SonTextTight(w: Written)
    requires Legible(w)
    ensures var x := SonText(w); x != "" && Trimmed(x)
  {
    var x := SonText(w);
    assert w.negated ==> x[0] == '!';
    if IsBare(w) {
      assert x[|x| - 1] == w.name[|w.name| - 1] && (!w.negated ==> x[0] == w.name[0]);
    } else {
      hide Body;
      assert x[|x| - 1] == ')' && (!w.negated ==> x[0] == '(');
    }
  }

  lemma {:induction false} JoinEnds(c: char, sons: seq<Written>)
    requires AllLegible(sons) && |sons| >= 1
    ensures var j := Join(c, sons); j != "" && !IsSpace(j[|j| - 1]) && (StartsTight(j) <==> sons[0].before == 0)
  {
    SonTextEnds(sons[0]);
    if |sons| > 1 {
      JoinEnds(c, sons[1..]);
    }
  }

  lemma BodyTrimmed(w: Written)
    requires Legible(w)
    ensures Body(w) != "" && Trimmed(Body(w))
  {
    if w.Clause? {
      JoinEnds(OperatorChar(w.operand), w.sons);
      if w.operand.Of? {
        HeaderTextIsPlain(w.operand, |w.sons|);
      }
    }
  }

  // ---------------------------------------------------------------- of: headers

  lemma {:induction false} CountDigitsOf(x: string, rest: string)
    requires rest != "" && !IsDigit(rest[0])
    ensures CountDigits(x + rest) == CountDigits(x)
  {
    if x != "" {
      assert (x + rest)[1..] == x[1..] + rest;
      CountDigitsOf(x[1..], rest);
    } else {
      assert x + rest == rest;
    }
  }

  lemma NumberLengthOf(a: string, rest: string)
    requires IsNumber(a) && rest != "" && !IsDigit(rest[0]) && rest[0] != '%'
    ensures StartsWithNumber(a + rest) && NumberLength(a + rest) == |a|
    ensures (a + rest)[..|a|] == a && (a + rest)[|a|..] == rest
  {
    var sign := if a[0] == '-' then 1 else 0;
    CountDigitsOf(a[sign..], rest);
    assert (a + rest)[sign..] == a[sign..] + rest;
  }

  lemma {:induction false} DigitsArePlain(s: string)
    requires CountDigits(s) == |s| || (CountDigits(s) + 1 == |s| && s[|s| - 1] == '%')
    ensures !HasSpecial(s) && '\n' !in s
  {
    if s != "" && IsDigit(s[0]) {
      DigitsArePlain(s[1..]);
      assert s == [s[0]] + s[1..];
    }
  }

  lemma NumberIsPlain(a: string)
    requires IsNumber(a)
    ensures a != "" && !HasSpecial(a) && '\n' !in a && a[0] != ','
  {
    if a[0] == '-' {
      DigitsArePlain(a[1..]);
      assert a == [a[0]] + a[1..];
    } else {
      DigitsArePlain(a);
    }
  }

  lemma {:induction false} NoSpecialConcat(x: string, y: string)
    requires !HasSpecial(x) && !HasSpecial(y)
    ensures !HasSpecial(x + y)
  {
    if x == "" {
      assert x + y == y;
    } else {
      assert (x + y)[1..] == x[1..] + y;
      NoSpecialConcat(x[1..], y);
    }
  }

  lemma OfIsPlain()
    ensures !HasSpecial(" of:") && !HasSpecial(",")
  {
    assert " of:"[1..] == "of:" && "of:"[1..] == "f:" && "f:"[1..] == ":" && ":"[1..] == "";
    assert !HasSpecial(":") && !HasSpecial("f:") && !HasSpecial("of:");
  }

  lemma HeaderTextIsPlain(op: Operand, sons: nat)
    requires PrintableOperand(op, sons) && op.Of?
    ensures var h := HeaderText(op);
            h != "" && Trimmed(h) && !HasSpecial(h) && '\n' !in h && (IsDigit(h[0]) || h[0] == '-')
  {
    hide HasSpecial;
    OfIsPlain();
    if op.mul {
      var t3 := op.crit + " of:";
      NumberStarts(op.crit, " of:");
      NoSpecialConcat(",", t3);
      NumberStarts(op.warn, "," + t3);
      NoSpecialConcat(",", op.warn + ("," + t3));
      NumberStarts(op.ok, "," + (op.warn + ("," + t3)));
    } else {
      NumberStarts(op.ok, " of:");
    }
    var h := HeaderText(op);
    assert h[|h| - 1] == ':';
  }

  lemma NumberStarts(a: string, rest: string)
    requires IsNumber(a) && !HasSpecial(rest) && '\n' !in rest
    ensures var h := a + rest; h != "" && !HasSpecial(h) && '\n' !in h && (IsDigit(h[0]) || h[0] == '-')
  {
    NumberIsPlain(a);
    NoSpecialConcat(a, rest);
  }

  lemma {:induction false} FirstLineOf(s: string)
    requires '\n' !in s
    ensures FirstLine(s) == s
  {
    if s != "" {
      FirstLineOf(s[1..]);
    }
  }

  lemma SkipOne(c: char, s: string)
    requires s != "" && s[0] != c
    ensures SkipChar([c] + s, c) == s && SkipChar(s, c) == s
  {
    assert ([c] + s)[1..] == s;
  }

  lemma {:induction false} SkipSpaces(n: nat, j: string)
    requires j != "" && j[0] != ' '
    ensures SkipChar(Spaces(n) + j, ' ') == j
    decreases n
  {
    if n == 0 {
      assert Spaces(n) + j == j;
    } else {
      assert (Spaces(n) + j)[1..] == Spaces(n - 1) + j;
      SkipSpaces(n - 1, j);
    }
  }

  /** The part of the match after the last number; spaces after of: are dropped. */
  lemma SubjectMatched(n: nat, j: string)
    requires j != "" && j[0] != ' ' && '\n' !in j
    ensures var s3 := SkipChar(" of:" + (Spaces(n) + j), ' ');
            |s3| >= 3 && s3[..3] == "of:" && FirstLine(s3[3..]) == Spaces(n) + j && Subject(Spaces(n) + j) == j
  {
    var line := Spaces(n) + j;
    assert " of:" + line == " " + ("of:" + line);
    SkipOne(' ', "of:" + line);
    assert ("of:" + line)[3..] == line;
    SpacesArePlain(n);
    FirstLineOf(line);
    SkipSpaces(n, j);
  }

  lemma HeaderSimple(a: string, n: nat, j: string)
    requires IsNumber(a) && j != "" && j[0] != ' ' && '\n' !in j
    ensures Header(a + " of:" + (Spaces(n) + j)) == (Of(a, "0", "0", false), j)
  {
    var tail := " of:" + (Spaces(n) + j);
    assert a + " of:" + (Spaces(n) + j) == a + tail;
    NumberLengthOf(a, tail);
    SkipOne(',', tail);
    assert NumberLength(tail) == 0;
    assert tail[0..] == tail;
    SubjectMatched(n, j);
  }

  lemma HeaderMultiple(a: string, b: string, c: string, n: nat, j: string)
    requires IsNumber(a) && IsNumber(b) && IsNumber(c) && j != "" && j[0] != ' ' && '\n' !in j
    ensures Header(a + ("," + (b + ("," + (c + " of:")))) + (Spaces(n) + j)) == (Of(a, b, c, true), j)
  {
    SubjectMatched(n, j);
    HeaderOnLine(a, b, c, Spaces(n) + j);
  }

  lemma HeaderOnLine(a: string, b: string, c: string, line: string)
    requires IsNumber(a) && IsNumber(b) && IsNumber(c) && line != ""
    requires var s3 := SkipChar(" of:" + line, ' '); |s3| >= 3 && s3[..3] == "of:" && FirstLine(s3[3..]) == line
    ensures Header(a + ("," + (b + ("," + (c + " of:")))) + line) == (Of(a, b, c, true), Subject(line))
  {
    hide FirstLine, Subject, SkipChar, NumberLength, StartsWithNumber, IsNumber;
    var t3 := " of:" + line;
    var t2 := "," + (c + t3);
    var t1 := "," + (b + t2);
    assert a + ("," + (b + ("," + (c + " of:")))) + line == a + t1;
    NumberIsPlain(a);
    NumberThen(b, t2);
    NumberThen(c, t3);
    NumberLengthOf(a, t1);
    NumberLengthOf(b, t2);
    NumberLengthOf(c, t3);
    NumberNotEmpty(b);
    NumberNotEmpty(c);
  }

  lemma NumberNotEmpty(a: string)
    requires IsNumber(a)
    ensures a != ""
  {
  }

  lemma NumberThen(a: string, rest: string)
    requires IsNumber(a)
    ensures SkipChar("," + (a + rest), ',') == a + rest
  {
    NumberIsPlain(a);
    SkipOne(',', a + rest);
  }

  lemma {:induction false} BodyOnOneLine(w: Written)
    requires Legible(w)
    ensures '\n' !in Body(w)
    decreases w, 1
  {
    if w.Clause? {
      JoinOnOneLine(OperatorChar(w.operand), w.sons);
      if w.operand.Of? {
        HeaderTextIsPlain(w.operand, |w.sons|);
      }
    }
  }

  lemma {:induction false} JoinOnOneLine(c: char, sons: seq<Written>)
    requires AllLegible(sons) && c != '\n'
    ensures '\n' !in Join(c, sons)
    decreases sons, 0
  {
    if |sons| > 0 {
      BodyOnOneLine(sons[0]);
      SpacesArePlain(sons[0].before);
      SpacesArePlain(sons[0].after);
      if |sons| > 1 {
        JoinOnOneLine(c, sons[1..]);
      }
    }
  }

  // ---------------------------------------------------------------- no header

  /** A character that no part of an of: prefix is made of. */
  predicate Breaks(c: char) { !IsDigit(c) && c != '-' && c != '%' && c != ',' && c != 'f' && c != ':' }

  lemma {:induction false} CountDigitsThen(x: string, y: string)
    requires y != "" && !IsDigit(y[0])
    ensures CountDigits(x + y) == CountDigits(x)
  {
    CountDigitsOf(x, y);
  }

  lemma NumberLengthThen(x: string, y: string)
    requires y != "" && Breaks(y[0])
    ensures NumberLength(x + y) == NumberLength(x) && (x + y)[NumberLength(x)..] == x[NumberLength(x)..] + y
  {
    var sign := if x != "" && x[0] == '-' then 1 else 0;
    if x == "" {
      assert x + y == y && y[0..] == y;
    } else {
      assert (x + y)[sign..] == x[sign..] + y;
      CountDigitsThen(x[sign..], y);
    }
  }

  lemma {:induction false} SkipCharThen(x: string, y: string, c: char)
    requires y != "" && y[0] != c
    ensures SkipChar(x + y, c) == SkipChar(x, c) + y
  {
    if x == "" {
      assert x + y == y;
    } else {
      assert (x + y)[1..] == x[1..] + y;
      SkipCharThen(x[1..], y, c);
    }
  }

  /** Spaces and an operator after a name do not make it an of: rule. */
  lemma NameAsksNothing(name: string, n: nat, c: char, more: string)
    requires !AsksOf(name) && name != "" && (c == '&' || c == '|')
    ensures !AsksOf(name + (Spaces(n) + ([c] + more)))
  {
    var y := Spaces(n) + ([c] + more);
    assert y != "" && Breaks(y[0]);
    NumberLengthThen(name, y);
    var a := name[NumberLength(name)..];
    SkipCharThen(a, y, ',');
    var s1 := SkipChar(a, ',');
    NumberLengthThen(s1, y);
    SkipCharThen(s1[NumberLength(s1)..], y, ',');
    var s2 := SkipChar(s1[NumberLength(s1)..], ',');
    NumberLengthThen(s2, y);
    SkipBeforeOperator(s2[NumberLength(s2)..], n, c, more);
    var end := SkipChar(s2[NumberLength(s2)..], ' ');
    assert AfterNumbers(name) == end;
    assert StartsWithNumber(name + y) ==> StartsWithNumber(name);
  }

  /** The last run of spaces may go on into those after the name, but not over the operator. */
  lemma {:induction false} SkipBeforeOperator(x: string, n: nat, c: char, more: string)
    requires c == '&' || c == '|'
    ensures var y := Spaces(n) + ([c] + more); var r := SkipChar(x + y, ' ');
            |r| >= 3 && r[..3] == "of:" ==> |SkipChar(x, ' ')| >= 3 && SkipChar(x, ' ')[..3] == "of:"
  {
    var y := Spaces(n) + ([c] + more);
    if x == "" {
      assert x + y == y;
      SkipSpaces(n, [c] + more);
    } else if x[0] == ' ' {
      assert (x + y)[1..] == x[1..] + y;
      SkipBeforeOperator(x[1..], n, c, more);
    } else {
      assert SkipChar(x + y, ' ') == x + y && SkipChar(x, ' ') == x;
      assert |x| >= 3 ==> (x + y)[..3] == x[..3];
      assert |x| < 3 && |x + y| >= 3 ==> (x + y)[..3][|x|] == y[0];
    }
  }

  lemma NoHeader(text: string)
    requires !AsksOf(text)
    ensures Header(text) == (NoOperand, text)
  {
  }

  // ---------------------------------------------------------------- between sons

  /** Outside parentheses, with nothing but spaces kept. */
  predicate Outside(s: Scan) { Strip(s.tmp) == "" && s.depth == 0 && !s.inPar }

  /** Ready for the next son. */
  predicate BetweenSons(s: Scan) { Outside(s) && !s.sonIsNot }

  lemma {:induction false} NotSpecialHere(x: string, rest: string)
    requires !HasSpecial(x) && HasSpecial(x + rest)
    ensures HasSpecial(rest)
  {
    if x == "" {
      assert x + rest == rest;
    } else {
      assert (x + rest)[1..] == x[1..] + rest;
      NotSpecialHere(x[1..], rest);
    }
  }

  lemma StepPlain(s: Scan, c: char, more: string, limit: nat)
    requires Fits(s, [c] + more, limit) && s.depth == 0 && !s.inPar && !IsSpecial(c) && c != '!'
    ensures Fits(Push(s, c), more, limit) && ScanFrom(s, [c] + more, limit) == ScanFrom(Push(s, c), more, limit)
  {
    Step(s, c, more, limit);
  }

  /** Outside parentheses plain text is kept until an operator comes. */
  lemma {:induction false} PlainKept(x: string, s: Scan, rest: string, limit: nat)
    requires s.depth == 0 && !s.inPar && !HasSpecial(x) && '!' !in x && Fits(s, x + rest, limit)
    ensures Fits(s.(tmp := s.tmp + x), rest, limit)
    ensures ScanFrom(s, x + rest, limit) == ScanFrom(s.(tmp := s.tmp + x), rest, limit)
  {
    hide ScanFrom;
    if x == "" {
      assert x + rest == rest && s.tmp + x == s.tmp;
    } else {
      assert x + rest == [x[0]] + (x[1..] + rest);
      StepPlain(s, x[0], x[1..] + rest, limit);
      PlainKept(x[1..], Push(s, x[0]), rest, limit);
      assert s.tmp + [x[0]] + x[1..] == s.tmp + x;
    }
  }

  lemma StepOpenOutside(s: Scan, more: string, limit: nat)
    requires Fits(s, "(" + more, limit) && Outside(s)
    ensures var s' := s.(depth := 1, inPar := true, tmp := "");
            Fits(s', more, limit) && ScanFrom(s, "(" + more, limit) == ScanFrom(s', more, limit)
  {
    Step(s, '(', more, limit);
  }

  lemma StepBang(s: Scan, more: string, limit: nat)
    requires Fits(s, "!" + more, limit) && BetweenSons(s)
    ensures var s' := s.(sonIsNot := true, tmp := "");
            Fits(s', more, limit) && ScanFrom(s, "!" + more, limit) == ScanFrom(s', more, limit)
  {
    Step(s, '!', more, limit);
  }

  lemma StepClose(s: Scan, t: Tree, more: string, limit: nat)
    requires Fits(s, ")" + more, limit) && s.depth == 1 && Trimmed(s.tmp) && !t.Missing?
    requires Parse(s.tmp) == Parsed(Positive(t)) && s.sonIsNot == t.negated
    ensures var s' := Scan(s.operand, s.sons + [t], "", false, 0, false);
            Fits(s', more, limit) && ScanFrom(s, ")" + more, limit) == ScanFrom(s', more, limit)
  {
    StripTrimmed(s.tmp);
    Step(s, ')', more, limit);
  }

  /** The operand after a separator c: an of: rule keeps its own. */
  function After(op: Operand, c: char): Operand {
    if op.Of? then op else OperatorOf(c)
  }

  predicate Accepts(op: Operand, c: char) { op.Of? || op == OperatorOf(c) || op.NoOperand? }

  /** A bare name waits in the text kept, its negation in the flag. */
  predicate NameWaits(s: Scan, w: Written) {
    IsBare(w) && Strip(s.tmp) == w.name && s.sonIsNot == w.negated && s.depth == 0 && !s.inPar
  }

  /** A son has been read: a bare name waits, any other son is attached. */
  predicate SonRead(s: Scan, w: Written, sons: seq<Tree>) {
    if IsBare(w) then NameWaits(s, w) && s.sons == sons
    else BetweenSons(s) && s.sons == sons + [TreeOf(w)]
  }

  lemma NameParsed(name: string)
    requires PlainName(name)
    ensures Parse(name) == Parsed(Leaf(NoOperand, name, false))
  {
    StripTrimmed(name);
  }

  /** A ! directly before a name, alone or inside parentheses, negates it. */
  lemma BangNameParsed(name: string)
    requires PlainName(name)
    ensures Parse("!" + name) == Parsed(Leaf(NoOperand, name, true))
  {
    var text := "!" + name;
    assert text[1..] == name;
    StripTrimmed(text);
    assert MatchXof(text).None?;
  }

  /** An operator after a son: from now on the son is attached. */
  lemma StepOperator(s: Scan, w: Written, sons: seq<Tree>, c: char, more: string, limit: nat)
    requires (c == '&' || c == '|') && Fits(s, [c] + more, limit) && Accepts(s.operand, c)
    requires Legible(w) && SonRead(s, w, sons)
    ensures var s' := Scan(After(s.operand, c), sons + [TreeOf(w)], "", false, 0, false);
            Fits(s', more, limit) && ScanFrom(s, [c] + more, limit) == ScanFrom(s', more, limit)
  {
    if IsBare(w) { NameParsed(w.name); }
    hide Parse;
    Step(s, c, more, limit);
  }

  /** The end of the text after a son. */
  lemma ScanEnds(s: Scan, w: Written, sons: seq<Tree>, limit: nat)
    requires Fits(s, "", limit) && Legible(w) && SonRead(s, w, sons)
    ensures ScanFrom(s, "", limit) ==
              Parsed(Node(SwitchZeros(s.operand, |sons| + 1), sons + [TreeOf(w)], false))
  {
    if IsBare(w) { NameParsed(w.name); }
    hide Parse;
  }

  lemma SpacesAfterSon(s: Scan, w: Written, sons: seq<Tree>, n: nat)
    requires SonRead(s, w, sons)
    ensures SonRead(s.(tmp := s.tmp + Spaces(n)), w, sons)
  {
    SpacesStripped(s.tmp, n);
  }

  /** A son in parentheses is copied in its squeezed form, and parsed from it. */
  ghost predicate SonParses(w: Written)
    requires Legible(w)
  {
    Legible(Squeeze(w)) && Parse(Body(Squeeze(w))) == Parsed(Positive(TreeOf(w)))
  }

  function Core(w: Written): string
    requires Legible(w)
  {
    if IsBare(w) then w.name else "(" + (Body(w) + ")")
  }

  lemma SonScanned(w: Written, s: Scan, rest: string, limit: nat) returns (s': Scan)
    requires Legible(w) && SonParses(w) && BetweenSons(s) && s.tmp == ""
    requires Fits(s, Spaces(w.before) + SonText(w) + rest, limit)
    ensures SonRead(s', w, s.sons) && s'.operand == s.operand && Fits(s', rest, limit)
    ensures ScanFrom(s, Spaces(w.before) + SonText(w) + rest, limit) == ScanFrom(s', rest, limit)
  {
    hide ScanFrom, Parse, Legible, Body, HasSpecial, SonParses;
    var n, core := w.before, Core(w);
    SpacesArePlain(n);
    assert Spaces(n) + SonText(w) + rest == Spaces(n) + (Bangs(w) + (core + rest));
    PlainKept(Spaces(n), s, Bangs(w) + (core + rest), limit);
    var s1 := s.(tmp := s.tmp + Spaces(n));
    assert s1.tmp == Spaces(n);
    LeadStripped(n, "");
    assert Spaces(n) + "" == Spaces(n);
    if w.negated {
      StepBang(s1, core + rest, limit);
      s' := CoreScanned(w, s1.(sonIsNot := true, tmp := ""), 0, rest, limit);
    } else {
      assert "" + (core + rest) == core + rest;
      s' := CoreScanned(w, s1, n, rest, limit);
    }
  }

  lemma CoreScanned(w: Written, s: Scan, n: nat, rest: string, limit: nat) returns (s': Scan)
    requires Legible(w) && SonParses(w) && Outside(s) && s.tmp == Spaces(n) && s.sonIsNot == w.negated
    requires Fits(s, Core(w) + rest, limit)
    ensures SonRead(s', w, s.sons) && s'.operand == s.operand && Fits(s', rest, limit)
    ensures ScanFrom(s, Core(w) + rest, limit) == ScanFrom(s', rest, limit)
  {
    hide ScanFrom, Parse, HasSpecial;
    if IsBare(w) {
      PlainKept(w.name, s, rest, limit);
      s' := s.(tmp := s.tmp + w.name);
      LeadStripped(n, w.name);
    } else {
      BodyCopied(w);
      BodyTrimmed(w);
      BodyTrimmed(Squeeze(w));
      assert Core(w) + rest == "(" + (Body(w) + (")" + rest));
      BodyScanned(TreeOf(w), Body(w), Body(Squeeze(w)), s, rest, limit);
      s' := Scan(s.operand, s.sons + [TreeOf(w)], "", false, 0, false);
      assert Strip("") == "";
    }
  }

  lemma BodyScanned(t: Tree, b: string, b': string, s: Scan, rest: string, limit: nat)
    requires !t.Missing? && Parse(b') == Parsed(Positive(t)) && Trimmed(b) && Trimmed(b') && CopiedTo(b, b')
    requires Outside(s) && s.sonIsNot == t.negated && Fits(s, "(" + (b + (")" + rest)), limit)
    ensures var s' := Scan(s.operand, s.sons + [t], "", false, 0, false);
            Fits(s', rest, limit) && ScanFrom(s, "(" + (b + (")" + rest)), limit) == ScanFrom(s', rest, limit)
  {
    hide ScanFrom, Parse;
    StepOpenOutside(s, b + (")" + rest), limit);
    var s1 := s.(depth := 1, inPar := true, tmp := "");
    assert CopiedAt(b, b', s1, ")" + rest, limit);
    var s2 := s1.(tmp := s1.tmp + b');
    assert s2.tmp == b';
    StepClose(s2, t, rest, limit);
  }

  ghost predicate SonsParse(sons: seq<Written>)
    requires AllLegible(sons)
  {
    forall i :: 0 <= i < |sons| ==> SonParses(sons[i])
  }

  /** A son, spaces and an operator. */
  lemma SonThenOperator(w: Written, s: Scan, c: char, tail: string, limit: nat)
    requires Legible(w) && SonParses(w) && BetweenSons(s) && s.tmp == "" && (c == '&' || c == '|') && Accepts(s.operand, c)
    requires Fits(s, Spaces(w.before) + SonText(w) + (Spaces(w.after) + ([c] + tail)), limit)
    ensures var s' := Scan(After(s.operand, c), s.sons + [TreeOf(w)], "", false, 0, false);
            && Fits(s', tail, limit) && BetweenSons(s')
            && ScanFrom(s, Spaces(w.before) + SonText(w) + (Spaces(w.after) + ([c] + tail)), limit) ==
                 ScanFrom(s', tail, limit)
  {
    hide ScanFrom, Parse, SonText, Body, Legible, SonParses, HasSpecial;
    var s1 := SonScanned(w, s, Spaces(w.after) + ([c] + tail), limit);
    SpacesArePlain(w.after);
    SonReadOutside(s1, w, s.sons);
    PlainKept(Spaces(w.after), s1, [c] + tail, limit);
    SpacesAfterSon(s1, w, s.sons, w.after);
    StepOperator(s1.(tmp := s1.tmp + Spaces(w.after)), w, s.sons, c, tail, limit);
    assert Strip("") == "";
  }

  lemma SonReadOutside(s: Scan, w: Written, sons: seq<Tree>)
    requires SonRead(s, w, sons)
    ensures s.depth == 0 && !s.inPar
  {
  }

  lemma JoinCons(c: char, sons: seq<Written>)
    requires AllLegible(sons) && |sons| >= 1
    ensures Legible(sons[0]) && AllLegible(sons[1..])
    ensures SonsParse(sons) ==> SonParses(sons[0]) && SonsParse(sons[1..])
    ensures var x := Spaces(sons[0].before) + SonText(sons[0]);
            Join(c, sons) == if |sons| == 1 then x else x + (Spaces(sons[0].after) + ([c] + Join(c, sons[1..])))
  {
    hide SonParses, Legible, SonText;
    assert forall i :: 0 <= i < |sons| - 1 ==> sons[1..][i] == sons[i + 1];
  }

  lemma {:induction false} SonsScanned(c: char, s: Scan, sons: seq<Written>, limit: nat)
    requires AllLegible(sons) && SonsParse(sons) && BetweenSons(s) && s.tmp == "" && (c == '&' || c == '|')
    requires |sons| >= 1 && Fits(s, Join(c, sons), limit) && Accepts(s.operand, c)
    requires s.operand.NoOperand? ==> |sons| >= 2
    ensures ScanFrom(s, Join(c, sons), limit) ==
              Parsed(Node(SwitchZeros(After(s.operand, c), |s.sons| + |sons|), s.sons + TreesOf(sons), false))
    decreases |sons|
  {
    hide ScanFrom, Parse, SonText, Body, Legible, SonParses, HasSpecial, BetweenSons, TreeOf, TreesOf, Spaces, Join,
      AllLegible, SonsParse, SwitchZeros, SonRead;
    var w := sons[0];
    JoinCons(c, sons);
    TreesOfCons(sons);
    if |sons| == 1 {
      LastSon(w, c, s, limit);
    } else {
      var tail := Join(c, sons[1..]);
      SonThenOperator(w, s, c, tail, limit);
      var s2 := Scan(After(s.operand, c), s.sons + [TreeOf(w)], "", false, 0, false);
      SonsScanned(c, s2, sons[1..], limit);
      assert s2.sons + TreesOf(sons[1..]) == s.sons + TreesOf(sons);
    }
  }

  lemma LastSon(w: Written, c: char, s: Scan, limit: nat)
    requires Legible(w) && SonParses(w) && BetweenSons(s) && s.tmp == "" && Accepts(s.operand, c) && !s.operand.NoOperand?
    requires Fits(s, Spaces(w.before) + SonText(w), limit)
    ensures ScanFrom(s, Spaces(w.before) + SonText(w), limit) ==
              Parsed(Node(SwitchZeros(After(s.operand, c), |s.sons| + 1), s.sons + [TreeOf(w)], false))
  {
    hide ScanFrom, Parse, SonText, Body, Legible, SonParses, HasSpecial, TreeOf, Spaces;
    var x := Spaces(w.before) + SonText(w);
    assert x + "" == x;
    var s1 := SonScanned(w, s, "", limit);
    ScanEnds(s1, w, s.sons, limit);
  }

  lemma TreesOfCons(sons: seq<Written>)
    requires |sons| >= 1
    ensures TreesOf(sons) == [TreeOf(sons[0])] + TreesOf(sons[1..])
    ensures |sons| == 1 ==> TreesOf(sons) == [TreeOf(sons[0])]
  {
    hide TreeOf;
  }

  // ---------------------------------------------------------------- the round trip

  /** Parsing a written rule gives the tree that is meant. */
  lemma {:induction false} RoundTrip(w: Written)
    requires Legible(w)
    ensures Parse(Body(w)) == Parsed(Positive(TreeOf(w)))
    decreases Size(w)
  {
    match w
    case Word(name, _, _, _, _) => NameParsed(name);
    case Clause(op, sons, _, _, _) =>
      forall i | 0 <= i < |sons| ensures SonParses(sons[i]) {
        SonIsSmaller(sons, i);
        SqueezeSize(sons[i]);
        SqueezeKeeps(sons[i]);
        RoundTrip(Squeeze(sons[i]));
      }
      ClauseParsed(w);
  }

  lemma AnySonParses(w: Written)
    requires Legible(w)
    ensures SonParses(w)
  {
    SqueezeKeeps(w);
    RoundTrip(Squeeze(w));
  }

  /** The operand read from the header of a clause, before the zeros of a simple of:
      rule are replaced. */
  function HeaderOperand(op: Operand): Operand {
    match op
    case Of(a, _, _, false) => Of(a, "0", "0", false)
    case Of(_, _, _, true) => op
    case _ => NoOperand
  }

  /** The sons as they are scanned: the spaces after of: belong to the header. */
  function Unled(sons: seq<Written>): seq<Written>
    requires |sons| >= 1
  {
    sons[0 := sons[0].(before := 0)]
  }

  lemma UnledLegible(sons: seq<Written>)
    requires AllLegible(sons) && |sons| >= 1
    ensures |Unled(sons)| == |sons| && AllLegible(Unled(sons))
    ensures Unled(sons)[1..] == sons[1..] && Unled(sons)[0] == sons[0].(before := 0)
  {
    UnledSame(sons[0]);
    hide Legible, SonText, TreeOf, SonParses;
  }

  lemma UnledTrees(sons: seq<Written>)
    requires AllLegible(sons) && |sons| >= 1
    ensures TreesOf(Unled(sons)) == TreesOf(sons)
  {
    UnledSame(sons[0]);
    hide Legible, SonText, TreeOf, SonParses;
  }

  lemma UnledParse(sons: seq<Written>)
    requires AllLegible(sons) && |sons| >= 1 && SonsParse(sons)
    ensures AllLegible(Unled(sons)) && SonsParse(Unled(sons))
  {
    UnledLegible(sons);
    UnledSame(sons[0]);
    hide Legible, SonText, TreeOf, SonParses;
  }

  lemma Reassociate(x: string, y: string, z: string)
    ensures x + y + z == x + (y + z)
  {
  }

  lemma UnledJoin(c: char, sons: seq<Written>)
    requires AllLegible(sons) && |sons| >= 1
    ensures AllLegible(Unled(sons)) && Join(c, sons) == Spaces(sons[0].before) + Join(c, Unled(sons))
  {
    assert Spaces(0) == "" && "" + SonText(sons[0]) == SonText(sons[0]);
    hide Legible, SonText, TreeOf, SonParses, SonsParse, AllLegible, Join, Unled, Spaces;
    UnledLegible(sons);
    JoinCons(c, sons);
    UnledSame(sons[0]);
    JoinCons(c, Unled(sons));
    var w := sons[0];
    var n, x := w.before, SonText(w);
    if |sons| > 1 {
      Reassociate(Spaces(n), x, Spaces(w.after) + ([c] + Join(c, sons[1..])));
    }
  }

  /** The spaces before a rule do not matter to its text. */
  lemma UnledSame(w: Written)
    requires Legible(w)
    ensures var v := w.(before := 0);
            Legible(v) && SonText(v) == SonText(w) && TreeOf(v) == TreeOf(w) && (SonParses(w) ==> SonParses(v))
  {
    var v := w.(before := 0);
    match w
    case Word(_, _, _, _, _) =>
    case Clause(op, sons, _, _, _) => assert v.sons == sons && v.operand == op;
  }

  lemma ClauseParsed(w: Written)
    requires Legible(w) && w.Clause? && SonsParse(w.sons)
    ensures Parse(Body(w)) == Parsed(Node(Meant(w.operand, |w.sons|), TreesOf(w.sons), false))
  {
    hide ScanFrom, Parse, SonsParse, Legible, AllLegible, Body, Join, TreesOf, TreeOf, Header, HasSpecial, Trimmed,
      SwitchZeros, Unled, HeaderText, PrintableOperand, Fits, After, HeaderOperand, BetweenSons, Meant;
    var op, c := w.operand, OperatorChar(w.operand);
    ClauseFacts(w);
    UnledParse(w.sons);
    UnledTrees(w.sons);
    var sons := Unled(w.sons);
    var s := Start(HeaderOperand(op));
    SonsScanned(c, s, sons, |Body(w)|);
    ComplexTextParses(Body(w), HeaderOperand(op), Join(c, sons));
    assert [] + TreesOf(sons) == TreesOf(w.sons);
  }

  /** All that the scan of a clause relies on. */
  lemma ClauseFacts(w: Written)
    requires Legible(w) && w.Clause?
    ensures |w.sons| >= 1 && AllLegible(w.sons) && AllLegible(Unled(w.sons))
    ensures Trimmed(Body(w)) && HasSpecial(Body(w))
    ensures var op := w.operand; var c := OperatorChar(op); var j := Join(c, Unled(w.sons));
            && Header(Body(w)) == (HeaderOperand(op), j) && Fits(Start(HeaderOperand(op)), j, |Body(w)|)
            && BetweenSons(Start(HeaderOperand(op))) && Accepts(HeaderOperand(op), c)
            && (HeaderOperand(op).NoOperand? ==> |w.sons| >= 2)
            && SwitchZeros(After(HeaderOperand(op), c), |w.sons|) == Meant(op, |w.sons|)
  {
    OperandFacts(w.operand, |w.sons|);
    assert |w.sons| >= 1 && AllLegible(w.sons) && PrintableOperand(w.operand, |w.sons|);
    assert Strip("") == "";
    hide Header, SwitchZeros, HeaderOperand, After, Meant;
    BodyTrimmed(w);
    BodyHeader(w);
    BodyHasSpecial(w);
    hide *;
  }

  lemma OperandFacts(op: Operand, sons: nat)
    ensures PrintableOperand(op, sons) ==>
              var c := OperatorChar(op); var h := HeaderOperand(op);
              && sons >= 1 && Accepts(h, c) && (h.NoOperand? ==> sons >= 2)
              && SwitchZeros(After(h, c), sons) == Meant(op, sons) && (op.Of? <==> h.Of?)
  {
  }

  lemma BodyHasSpecial(w: Written)
    requires Legible(w) && w.Clause?
    ensures AllLegible(Unled(w.sons)) && HasSpecial(Body(w))
    ensures Fits(Start(HeaderOperand(w.operand)), Join(OperatorChar(w.operand), Unled(w.sons)), |Body(w)|)
  {
    var op, c := w.operand, OperatorChar(w.operand);
    var n := w.sons[0].before;
    assert AllLegible(w.sons) && (|w.sons| == 1 ==> !IsBare(w.sons[0])) && (!op.Of? ==> n == 0);
    assert Body(w) == HeaderText(op) + Join(c, w.sons) && (op.Of? ==> |HeaderText(op)| > 0) && (!op.Of? ==> HeaderText(op) == "");
    hide Legible, Body, HeaderText, Join;
    UnledLegible(w.sons);
    UnledJoin(c, w.sons);
    var j := Join(c, Unled(w.sons));
    JoinHasSpecial(c, Unled(w.sons));
    HasSpecialConcat(Spaces(n), j);
    HasSpecialConcat(HeaderText(op), Join(c, w.sons));
    if !op.Of? { assert Spaces(0) + j == j && "" + j == j; }
    hide HasSpecial;
  }

  lemma BodyHeader(w: Written)
    requires Legible(w) && w.Clause?
    ensures AllLegible(Unled(w.sons))
    ensures Header(Body(w)) == (HeaderOperand(w.operand), Join(OperatorChar(w.operand), Unled(w.sons)))
  {
    hide Header;
    var op, c := w.operand, OperatorChar(w.operand);
    UnledLegible(w.sons);
    UnledJoin(c, w.sons);
    var n, j := w.sons[0].before, Join(c, Unled(w.sons));
    JoinEnds(c, Unled(w.sons));
    JoinOnOneLine(c, Unled(w.sons));
    assert IsSpace(' ');
    if op.Of? {
      assert Body(w) == HeaderText(op) + (Spaces(n) + j);
      if op.mul { HeaderMultiple(op.ok, op.warn, op.crit, n, j); } else { HeaderSimple(op.ok, n, j); }
    } else {
      assert Spaces(0) + j == j && "" + j == j;
      JoinAsksNothing(c, Unled(w.sons));
      NoHeader(j);
    }
  }

  lemma JoinAsksNothing(c: char, sons: seq<Written>)
    requires AllLegible(sons) && |sons| >= 2 && (c == '&' || c == '|') && sons[0].before == 0
    ensures !AsksOf(Join(c, sons))
  {
    var w := sons[0];
    var tail := Spaces(w.after) + ([c] + Join(c, sons[1..]));
    assert Spaces(0) + SonText(w) == SonText(w);
    assert Join(c, sons) == SonText(w) + tail;
    if IsBare(w) && !w.negated {
      assert SonText(w) == w.name;
      NameAsksNothing(w.name, w.after, c, Join(c, sons[1..]));
    } else {
      assert SonText(w)[0] == '!' || SonText(w)[0] == '(';
    }
  }

  lemma ComplexTextParses(text: string, op: Operand, j: string)
    requires Trimmed(text) && HasSpecial(text) && Header(text) == (op, j)
    requires Fits(Start(op), j, |text|)
    ensures Parse(text) == ScanFrom(Start(op), j, |text|)
  {
    hide ScanFrom, MatchXof, Header;
    StripTrimmed(text);
    assert Parse(text) == ParseComplex(text);
  }

  lemma {:induction false} HasSpecialIn(x: string, c: char, y: string)
    requires IsSpecial(c)
    ensures HasSpecial(x + ([c] + y))
  {
    if x != "" {
      HasSpecialIn(x[1..], c, y);
      assert (x + ([c] + y))[1..] == x[1..] + ([c] + y);
    }
  }

  lemma JoinHasSpecial(c: char, sons: seq<Written>)
    requires AllLegible(sons) && |sons| >= 1 && (c == '&' || c == '|') && (|sons| == 1 ==> !IsBare(sons[0]))
    ensures HasSpecial(Join(c, sons))
  {
    var w := sons[0];
    var x := Spaces(w.before) + SonText(w);
    if |sons| > 1 {
      var y := Join(c, sons[1..]);
      assert Join(c, sons) == x + Spaces(w.after) + ([c] + y);
      HasSpecialIn(x + Spaces(w.after), c, y);
    } else {
      var y := Body(w) + ")";
      assert x == Spaces(w.before) + Bangs(w) + ("(" + y);
      HasSpecialIn(Spaces(w.before) + Bangs(w), '(', y);
    }
  }

  lemma {:induction false} HasSpecialConcat(x: string, y: string)
    requires HasSpecial(y)
    ensures HasSpecial(x + y)
  {
    if x == "" {
      assert x + y == y;
    } else {
      assert (x + y)[1..] == x[1..] + y;
      HasSpecialConcat(x[1..], y);
    }
  }

  // ---------------------------------------------------------------- mixed operators

  /** Two sons with one operator, then the other operator. */
  function Mixed(v: Written, w: Written, c: char, d: char, rest: string): string
    requires Legible(v) && Legible(w)
  {
    Spaces(v.before) + SonText(v) + (Spaces(v.after) + ([c] + (
      Spaces(w.before) + SonText(w) + (Spaces(w.after) + ([d] + rest)))))
  }

  predicate Operators(c: char, d: char) { (c == '&' && d == '|') || (c == '|' && d == '&') }

  lemma StepMixes(s: Scan, c: char, rest: string, limit: nat)
    requires (c == '&' || c == '|') && s.depth == 0 && !s.inPar && Mixes(s.operand, c) && Fits(s, [c] + rest, limit)
    ensures ScanFrom(s, [c] + rest, limit) == Parsed(Missing)
  {
  }

  lemma MixedScanned(v: Written, w: Written, c: char, d: char, rest: string, s: Scan, limit: nat)
    requires Legible(v) && Legible(w) && Operators(c, d) && s == Start(NoOperand) && Fits(s, Mixed(v, w, c, d, rest), limit)
    ensures ScanFrom(s, Mixed(v, w, c, d, rest), limit) == Parsed(Missing)
  {
    hide ScanFrom, Parse, SonText, Body, Legible, SonParses, HasSpecial;
    AnySonParses(v);
    AnySonParses(w);
    assert Strip("") == "";
    var tail := Spaces(w.before) + SonText(w) + (Spaces(w.after) + ([d] + rest));
    SonThenOperator(v, s, c, tail, limit);
    var s1 := Scan(OperatorOf(c), [TreeOf(v)], "", false, 0, false);
    assert s.sons + [TreeOf(v)] == [TreeOf(v)];
    var s2 := SonScanned(w, s1, Spaces(w.after) + ([d] + rest), limit);
    SonReadOutside(s2, w, s1.sons);
    SpacesArePlain(w.after);
    PlainKept(Spaces(w.after), s2, [d] + rest, limit);
    StepMixes(s2.(tmp := s2.tmp + Spaces(w.after)), d, rest, limit);
  }

  /** A rule that mixes & and | without parentheses has no tree. */
  lemma MixedIsMissing(v: Written, w: Written, c: char, d: char, rest: string)
    requires Legible(v) && Legible(w) && Operators(c, d) && v.before == 0
    requires rest == "" || !IsSpace(rest[|rest| - 1])
    ensures Parse(Mixed(v, w, c, d, rest)) == Parsed(Missing)
  {
    hide ScanFrom, Parse, SonText, Legible, HasSpecial, Header, Mixed;
    var text := Mixed(v, w, c, d, rest);
    MixedFacts(v, w, c, d, rest);
    ComplexTextParses(text, NoOperand, text);
    MixedScanned(v, w, c, d, rest, Start(NoOperand), |text|);
  }

  lemma MixedFacts(v: Written, w: Written, c: char, d: char, rest: string)
    requires Legible(v) && Legible(w) && Operators(c, d) && v.before == 0
    requires rest == "" || !IsSpace(rest[|rest| - 1])
    ensures var text := Mixed(v, w, c, d, rest);
            && Trimmed(text) && HasSpecial(text) && Header(text) == (NoOperand, text)
            && Fits(Start(NoOperand), text, |text|)
  {
    hide SonText, Legible, HasSpecial, Header, Spaces;
    var text := Mixed(v, w, c, d, rest);
    var last := [d] + rest;
    var more := Spaces(w.before) + SonText(w) + (Spaces(w.after) + last);
    MixedHeader(v, c, more);
    SonTextEnds(v);
    NoLead(v);
    MixedEnds(SonText(v), Spaces(v.after), c, Spaces(w.before) + SonText(w) + Spaces(w.after), last);
    assert more == Spaces(w.before) + SonText(w) + Spaces(w.after) + last;
  }

  lemma NoLead(v: Written)
    requires Legible(v) && v.before == 0
    ensures Spaces(v.before) + SonText(v) == SonText(v)
  {
    hide SonText;
  }

  lemma MixedEnds(x: string, sp: string, c: char, y: string, last: string)
    requires x != "" && Trimmed(x) && last != "" && !IsSpace(last[|last| - 1]) && IsSpecial(c)
    ensures var text := x + (sp + ([c] + (y + last))); Trimmed(text) && HasSpecial(text)
  {
    hide HasSpecial;
    var text := x + (sp + ([c] + (y + last)));
    assert text == x + sp + ([c] + (y + last));
    HasSpecialIn(x + sp, c, y + last);
    assert text[|text| - 1] == last[|last| - 1];
  }

  lemma MixedHeader(v: Written, c: char, more: string)
    requires Legible(v) && (c == '&' || c == '|')
    ensures var text := SonText(v) + (Spaces(v.after) + ([c] + more)); Header(text) == (NoOperand, text)
  {
    var text := SonText(v) + (Spaces(v.after) + ([c] + more));
    if IsBare(v) && !v.negated {
      assert SonText(v) == v.name;
      NameAsksNothing(v.name, v.after, c, more);
    } else {
      assert text[0] == '!' || text[0] == '(';
    }
    NoHeader(text);
  }

  function MixedNames(a: string, b: string, d: string): string { a + ("&" + (b + ("|" + d))) }

  function Bare(name: string): Written { Word(name, false, true, 0, 0) }

  lemma BareText(name: string)
    requires BareName(name)
    ensures Legible(Bare(name)) && SonText(Bare(name)) == name
  {
    assert "" + name == name;
  }

  lemma MixedNamesMissing(a: string, b: string, d: string)
    requires BareName(a) && BareName(b) && BareName(d)
    ensures Parse(MixedNames(a, b, d)) == Parsed(Missing)
  {
    assert d != "" && !IsSpace(d[|d| - 1]);
    hide Parse, BareName, Legible, SonText;
    BareText(a);
    BareText(b);
    MixedIsMissing(Bare(a), Bare(b), '&', '|', d);
    NoSpaces(a, b, d, Spaces(0));
    hide Spaces;
  }

  lemma NoSpaces(a: string, b: string, d: string, e: string)
    requires e == ""
    ensures e + a + (e + (['&'] + (e + b + (e + (['|'] + d))))) == MixedNames(a, b, d)
  {
    var t := b + ("|" + d);
    assert e + a == a && e + b == b && e + ("|" + d) == "|" + d && e + ("&" + t) == "&" + t;
  }

  lemma MixedNamesCopied(a: string, b: string, d: string)
    requires BareName(a) && BareName(b) && BareName(d)
    ensures CopiedTo(MixedNames(a, b, d), MixedNames(a, b, d))
  {
    hide CopiedTo;
    PlainCopied(a);
    PlainCopied(b);
    PlainCopied(d);
    assert Spaces(0) == "";
    SonThenCopied(b, b, 0, '|', d, d);
    assert b + (Spaces(0) + (['|'] + d)) == b + ("|" + d);
    SonThenCopied(a, a, 0, '&', b + ("|" + d), b + ("|" + d));
    assert a + (Spaces(0) + (['&'] + (b + ("|" + d)))) == MixedNames(a, b, d);
  }

  /** Negating such a rule raises: there is no son to negate. */
  lemma NegatedMixRaises(a: string, b: string, d: string)
    requires BareName(a) && BareName(b) && BareName(d)
    ensures Parse("!" + ("(" + (MixedNames(a, b, d) + ")"))) == Raises
  {
    hide Parse, CopiedTo, BareName;
    var m := MixedNames(a, b, d);
    MixedNamesMissing(a, b, d);
    MixedNamesCopied(a, b, d);
    MixedNamesTight(a, b, d);
    BangParses(m);
    BangRaises(m);
  }

  lemma MixedNamesTight(a: string, b: string, d: string)
    requires BareName(a) && BareName(b) && BareName(d)
    ensures MixedNames(a, b, d) != "" && Trimmed(MixedNames(a, b, d))
  {
    hide AsksOf, MatchXof, HasSpecial;
    var m := MixedNames(a, b, d);
    assert m[0] == a[0] && m[|m| - 1] == d[|d| - 1];
  }

  lemma BangParses(m: string)
    ensures var text := "!" + ("(" + (m + ")"));
            Fits(Start(NoOperand), text, |text|) && Parse(text) == ScanFrom(Start(NoOperand), text, |text|)
  {
    var text := "!" + ("(" + (m + ")"));
    assert text[1..] == "(" + (m + ")");
    assert HasSpecial(text[1..]) && HasSpecial(text);
    NoHeader(text);
    hide ScanFrom, Parse, HasSpecial, Header;
    ComplexTextParses(text, NoOperand, text);
  }

  lemma BangRaises(m: string)
    requires Parse(m) == Parsed(Missing) && m != "" && Trimmed(m) && CopiedTo(m, m)
    requires Fits(Start(NoOperand), "!" + ("(" + (m + ")")), |m| + 3)
    ensures ScanFrom(Start(NoOperand), "!" + ("(" + (m + ")")), |m| + 3) == Raises
  {
    hide ScanFrom, Parse, HasSpecial;
    var limit, s := |m| + 3, Start(NoOperand);
    assert Strip("") == "";
    StepBang(s, "(" + (m + ")"), limit);
    var s1 := s.(sonIsNot := true, tmp := "");
    StepOpenOutside(s1, m + ")", limit);
    var s2 := s1.(depth := 1, inPar := true, tmp := "");
    assert CopiedAt(m, m, s2, ")", limit);
    assert "" + m == m;
    CloseRaises(s2.(tmp := m), limit);
  }

  lemma CloseRaises(s: Scan, limit: nat)
    requires Fits(s, ")", limit) && s.depth == 1 && Trimmed(s.tmp) && Parse(s.tmp) == Parsed(Missing) && s.sonIsNot
    ensures ScanFrom(s, ")", limit) == Raises
  {
    StripTrimmed(s.tmp);
    hide Parse;
    assert OneChar(s, ')', limit) == Stop(Raises);
  }

  // ---------------------------------------------------------------- in figures

  lemma BareJoin(c: char, a: string, b: string)
    requires BareName(a) && BareName(b)
    ensures AllLegible([Bare(a), Bare(b)]) && Join(c, [Bare(a), Bare(b)]) == a + ([c] + b)
  {
    BareText(a);
    BareText(b);
    assert Spaces(0) == "" && "" + a == a && "" + b == b && "" + ([c] + b) == [c] + b;
    hide BareName, SonText, Legible, Join, Spaces, SonParses, SonsParse;
    var sons := [Bare(a), Bare(b)];
    assert AllLegible(sons) && sons[1..] == [Bare(b)] && AllLegible([Bare(b)]);
    JoinCons(c, sons);
    JoinCons(c, [Bare(b)]);
  }

  lemma BareTree(op: Operand, a: string, b: string)
    requires op == And || op == Or
    ensures TreeOf(Clause(op, [Bare(a), Bare(b)], false, 0, 0)) ==
              Node(op, [Leaf(NoOperand, a, false), Leaf(NoOperand, b, false)], false)
  {
    assert TreesOf([Bare(a), Bare(b)]) == [TreeOf(Bare(a)), TreeOf(Bare(b))];
  }

  lemma BareClause(op: Operand, a: string, b: string)
    requires BareName(a) && BareName(b) && (op == And || op == Or)
    ensures var w := Clause(op, [Bare(a), Bare(b)], false, 0, 0);
            && Legible(w) && TreeOf(w) == Node(op, [Leaf(NoOperand, a, false), Leaf(NoOperand, b, false)], false)
            && Body(w) == a + ([OperatorChar(op)] + b)
  {
    BareTree(op, a, b);
    BareJoin(OperatorChar(op), a, b);
    hide BareName, SonText, TreeOf, Join;
    assert "" + (a + ([OperatorChar(op)] + b)) == a + ([OperatorChar(op)] + b);
  }

  /** The text a&b is the conjunction of a and b, and a|b their disjunction. */
  lemma OperatorsInText(a: string, b: string)
    requires BareName(a) && BareName(b)
    ensures Parse(a + ("&" + b)) == Parsed(Node(And, [Leaf(NoOperand, a, false), Leaf(NoOperand, b, false)], false))
    ensures Parse(a + ("|" + b)) == Parsed(Node(Or, [Leaf(NoOperand, a, false), Leaf(NoOperand, b, false)], false))
  {
    hide Parse, BareName, Body, Legible;
    BareClause(And, a, b);
    BareClause(Or, a, b);
    RoundTrip(Clause(And, [Bare(a), Bare(b)], false, 0, 0));
    RoundTrip(Clause(Or, [Bare(a), Bare(b)], false, 0, 0));
  }

  /** A name that stands alone after of: is a leaf, which no threshold decides about. */
  lemma LoneNameIsLeaf(op: Operand, n: nat, name: string)
    requires PrintableOperand(op, 1) && op.Of? && PlainName(name)
    ensures Parse(HeaderText(op) + (Spaces(n) + name)) == Parsed(Leaf(HeaderOperand(op), name, false))
  {
    var text := HeaderText(op) + (Spaces(n) + name);
    assert IsSpace(' ');
    assert Trimmed(text) && !HasSpecial(text) by {
      HeaderTextIsPlain(op, 1);
      SpacesArePlain(n);
      NoSpecialConcat(Spaces(n), name);
      NoSpecialConcat(HeaderText(op), Spaces(n) + name);
      hide HasSpecial, HeaderText, Spaces;
    }
    StripTrimmed(text);
    hide Header, HasSpecial, Trimmed;
    if op.mul { HeaderMultiple(op.ok, op.warn, op.crit, n, name); } else { HeaderSimple(op.ok, n, name); }
  }

  /** A ! after the start of a name is dropped and negates nothing. */
  lemma LateBangDropped(x: string, s: Scan, rest: string, limit: nat)
    requires s.depth == 0 && !s.inPar && s.tmp == "" && x != "" && Trimmed(x) && !HasSpecial(x) && '!' !in x
    requires Fits(s, x + ("!" + rest), limit) && Fits(s, x + rest, limit)
    ensures ScanFrom(s, x + ("!" + rest), limit) == ScanFrom(s, x + rest, limit)
  {
    hide ScanFrom;
    PlainKept(x, s, "!" + rest, limit);
    PlainKept(x, s, rest, limit);
    var s1 := s.(tmp := s.tmp + x);
    assert s1.tmp == x;
    StripTrimmed(x);
    Step(s1, '!', rest, limit);
  }
}
