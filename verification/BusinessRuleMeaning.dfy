/** From the text of a business rule to its state: the values of of: rules are read
    from their text, and a printed rule is compiled back to itself. */
module BusinessRuleMeaning {
  import opened Text
  import P = BusinessRuleParser
  import R = BusinessRuleRoundTrip
  import opened BusinessRuleState

  // ---------------------------------------------------------------- values

  function DigitValue(c: char): nat { if P.IsDigit(c) then (c - '0') as nat else 0 }

  function DigitsValue(s: string): nat {
    if s == "" then 0 else 10 * DigitsValue(s[..|s| - 1]) + DigitValue(s[|s| - 1])
  }

  /** An optional minus, then digits. */
  function NumberValue(s: string): int {
    if s != "" && s[0] == '-' then 0 - DigitsValue(s[1..]) else DigitsValue(s)
  }

  /** A number or, with a percent sign, a percentage. */
  function ThresholdOf(s: string): Threshold {
    if s != "" && s[|s| - 1] == '%' then Percent(NumberValue(s[..|s| - 1])) else Number(NumberValue(s))
  }

  function Signed(n: int): string { if n < 0 then "-" + P.Decimal(-n) else P.Decimal(n) }

  function TextOf(t: Threshold): string {
    match t
    case Number(n) => Signed(n)
    case Percent(n) => Signed(n) + "%"
  }

  predicate AllDigits(s: string) { forall i :: 0 <= i < |s| ==> P.IsDigit(s[i]) }

  lemma {:induction false} DecimalDigits(n: nat)
    ensures AllDigits(P.Decimal(n)) && P.Decimal(n) != ""
    ensures P.Decimal(n) == "0" <==> n == 0
    ensures n > 0 ==> P.Decimal(n)[0] != '0'
    decreases n
  {
    if n >= 10 { DecimalDigits(n / 10); }
  }

  lemma {:induction false} DecimalValue(n: nat)
    ensures DigitsValue(P.Decimal(n)) == n
    decreases n
  {
    var digit := ['0' + (n % 10) as char];
    assert DigitValue(digit[0]) == n % 10;
    if n < 10 {
      assert digit[..0] == "";
    } else {
      DecimalValue(n / 10);
      assert P.Decimal(n)[..|P.Decimal(n)| - 1] == P.Decimal(n / 10);
    }
  }

  lemma SignedValue(n: int)
    ensures NumberValue(Signed(n)) == n && Signed(n) != "" && Signed(n)[|Signed(n)| - 1] != '%'
  {
    var d := P.Decimal(if n < 0 then -n else n);
    DecimalDigits(if n < 0 then -n else n);
    DecimalValue(if n < 0 then -n else n);
    assert P.IsDigit(d[0]) && P.IsDigit(d[|d| - 1]);
    if n < 0 { assert Signed(n)[1..] == d; }
  }

  /** The text of a value is read back as that value. */
  lemma ThresholdRead(t: Threshold)
    ensures ThresholdOf(TextOf(t)) == t
  {
    SignedValue(t.n);
    if t.Percent? { assert TextOf(t)[..|TextOf(t)| - 1] == Signed(t.n); }
  }

  // ---------------------------------------------------------------- of: values after parsing

  /** The two other values of every simple of: node are its number of sons. */
  predicate SimpleValuesSet(t: P.Tree)
    decreases t
  {
    t.Node? ==>
      && (t.operand.Of? && !t.operand.mul ==> t.operand.warn == t.operand.crit == P.Decimal(|t.sons|))
      && forall i :: 0 <= i < |t.sons| ==> SimpleValuesSet(t.sons[i])
  }

  predicate FromHeader(op: P.Operand) { op.Of? && !op.mul ==> op.warn == op.crit == "0" }

  predicate ScanSet(s: P.Scan) { FromHeader(s.operand) && forall i :: 0 <= i < |s.sons| ==> SimpleValuesSet(s.sons[i]) }

  predicate ResultSet(r: P.Result) { r.Parsed? ==> SimpleValuesSet(r.tree) }

  lemma FinishSet(s: P.Scan)
    requires ScanSet(s)
    ensures SimpleValuesSet(P.Finish(s))
  {
  }

  lemma AttachSet(s: P.Scan, son: P.Result)
    requires ScanSet(s) && ResultSet(son)
    ensures P.Attach(s, son).Some? ==> ScanSet(P.Attach(s, son).value)
  {
  }

  lemma SameSonsSet(s: P.Scan, s': P.Scan)
    requires ScanSet(s) && s'.sons == s.sons && (s'.operand == s.operand || !s'.operand.Of?)
    ensures ScanSet(s')
  {
  }

  /** A character either keeps the sons, or attaches the text gathered as one more. */
  lemma OneCharEffect(s: P.Scan, c: char, limit: nat, son: P.Result, o: P.Outcome)
    requires |s.tmp| < limit && son == P.Parse(Strip(s.tmp)) && o == P.OneChar(s, c, limit)
    ensures || (o.Next? && o.scan.sons == s.sons && (o.scan.operand == s.operand || !o.scan.operand.Of?))
            || (o.Stop? && (o.result.Raises? || o.result == P.Parsed(P.Missing)))
            || exists s1 :: Attached(s, s1, son, o)
  {
    hide P.Parse;
    if c == ')' && s.depth == 1 {
      var s1 := s.(depth := 0);
      if P.Attach(s1, son).Some? {
        assert Attached(s, s1, son, o);
      } else {
        assert o == P.Stop(P.Raises);
      }
    } else if (c == '&' || c == '|') && !s.inPar && Strip(s.tmp) != "" {
      assert o.Next? ==> Attached(s, P.WithOperator(s, c), son, o);
    }
  }

  ghost predicate Attached(s: P.Scan, s1: P.Scan, son: P.Result, o: P.Outcome) {
    && s1.sons == s.sons && (s1.operand == s.operand || !s1.operand.Of?)
    && P.Attach(s1, son).Some? && o.Next?
    && o.scan.sons == P.Attach(s1, son).value.sons && o.scan.operand == P.Attach(s1, son).value.operand
  }

  lemma {:induction false} OneCharSet(s: P.Scan, c: char, limit: nat)
    requires ScanSet(s) && |s.tmp| < limit
    ensures var o := P.OneChar(s, c, limit);
            && (o.Next? ==> ScanSet(o.scan)) && (o.Stop? ==> ResultSet(o.result))
    decreases limit, 0, 0
  {
    hide P.Parse, P.OneChar, P.Attach, ScanSet;
    var o, son := P.OneChar(s, c, limit), P.Parse(Strip(s.tmp));
    OneCharEffect(s, c, limit, son, o);
    ParsedSet(Strip(s.tmp));
    if s1 :| Attached(s, s1, son, o) {
      SameSonsSet(s, s1);
      AttachSet(s1, son);
      SameSonsSet(P.Attach(s1, son).value, o.scan);
    } else if o.Next? {
      SameSonsSet(s, o.scan);
    }
  }

  lemma {:induction false} ScanFromSet(s: P.Scan, rest: string, limit: nat)
    requires ScanSet(s) && P.Fits(s, rest, limit)
    ensures ResultSet(P.ScanFrom(s, rest, limit))
    decreases limit, 1, |rest|
  {
    if rest == "" {
      var tmp := Strip(s.tmp);
      ParsedSet(tmp);
      AttachSet(s, P.Parse(tmp));
      FinishSet(s);
      if P.Attach(s, P.Parse(tmp)).Some? { FinishSet(P.Attach(s, P.Parse(tmp)).value); }
    } else {
      OneCharSet(s, rest[0], limit);
      var o := P.OneChar(s, rest[0], limit);
      if o.Next? { ScanFromSet(o.scan, rest[1..], limit); }
    }
  }

  /** In the tree of every text, each simple of: node has its values set. */
  lemma {:induction false} ParsedSet(pattern: string)
    ensures ResultSet(P.Parse(pattern))
    decreases |pattern|, 3, 0
  {
    var p := Strip(pattern);
    if P.HasSpecial(p) {
      var (op, body) := P.Header(p);
      ScanFromSet(P.Start(op), body, |p|);
    }
  }

  // ---------------------------------------------------------------- from trees to rules

  /** What a name stands for: a host or a service, and which one. */
  type Directory = string -> (bool, nat)

  type Naming = (bool, nat) -> string

  /** The trees that have a state: no missing son, no node without operator. */
  predicate HasMeaning(t: P.Tree)
    decreases t
  {
    match t
    case Missing => false
    case Leaf(_, _, _) => true
    case Node(op, sons, _) => !op.NoOperand? && forall i :: 0 <= i < |sons| ==> HasMeaning(sons[i])
  }

  predicate AllMeaning(sons: seq<P.Tree>) { forall i :: 0 <= i < |sons| ==> HasMeaning(sons[i]) }

  function ConnectiveOf(op: P.Operand): Connective
    requires !op.NoOperand?
  {
    match op
    case And => All
    case Or => Any
    case Of(a, b, c, mul) => Of(ThresholdOf(a), ThresholdOf(b), ThresholdOf(c), mul)
  }

  function RuleOf(t: P.Tree, find: Directory): Rule
    requires HasMeaning(t)
    decreases t, 1
  {
    match t
    case Leaf(_, name, negated) =>
      var (host, id) := find(name);
      if host then Host(id, negated) else Service(id, negated)
    case Node(op, sons, negated) => Group(ConnectiveOf(op), RulesOf(sons, find), negated)
  }

  function RulesOf(sons: seq<P.Tree>, find: Directory): (r: seq<Rule>)
    requires AllMeaning(sons)
    ensures |r| == |sons|
    decreases sons, 0
  {
    if sons == [] then [] else [RuleOf(sons[0], find)] + RulesOf(sons[1..], find)
  }

  /** In the rule of every text, the simple of: groups are as SimpleOf has them. */
  predicate SimpleOnes(r: Rule)
    decreases r
  {
    r.Group? ==>
      && (r.op.Of? && !r.op.mul ==> SimpleOf(r.op, |r.sons|))
      && forall i :: 0 <= i < |r.sons| ==> SimpleOnes(r.sons[i])
  }

  lemma {:induction false} RulesOfAt(sons: seq<P.Tree>, find: Directory, i: nat)
    requires AllMeaning(sons) && i < |sons|
    ensures RulesOf(sons, find)[i] == RuleOf(sons[i], find)
  {
    if i > 0 { RulesOfAt(sons[1..], find, i - 1); }
  }

  lemma DecimalThreshold(n: nat)
    ensures ThresholdOf(P.Decimal(n)) == Number(n)
  {
    ThresholdRead(Number(n));
  }

  lemma {:induction false} SetMakesSimple(t: P.Tree, find: Directory)
    requires HasMeaning(t) && SimpleValuesSet(t)
    ensures SimpleOnes(RuleOf(t, find))
  {
    if t.Node? {
      DecimalThreshold(|t.sons|);
      forall i | 0 <= i < |t.sons| ensures SimpleOnes(RulesOf(t.sons, find)[i]) {
        SetMakesSimple(t.sons[i], find);
        RulesOfAt(t.sons, find, i);
      }
    }
  }

  /** Whatever the text, a simple of: rule that is parsed from it wants as many
      warnings, and as many criticals, as it has sons. */
  lemma ParsedSimpleOnes(text: string, find: Directory)
    ensures var r := P.Parse(text); r.Parsed? && HasMeaning(r.tree) ==> SimpleOnes(RuleOf(r.tree, find))
  {
    ParsedSet(text);
    var r := P.Parse(text);
    if r.Parsed? && HasMeaning(r.tree) { SetMakesSimple(r.tree, find); }
  }

  // ---------------------------------------------------------------- from rules to text and back

  function OperandOf(op: Connective): P.Operand {
    match op
    case All => P.And
    case Any => P.Or
    case Of(a, b, c, mul) => P.Of(TextOf(a), TextOf(b), TextOf(c), mul)
  }

  function TreeOf(r: Rule, names: Naming): P.Tree
    decreases r, 1
  {
    match r
    case Host(id, negated) => P.Leaf(P.NoOperand, names(true, id), negated)
    case Service(id, negated) => P.Leaf(P.NoOperand, names(false, id), negated)
    case Group(op, sons, negated) => P.Node(OperandOf(op), TreesOf(sons, names), negated)
  }

  function TreesOf(sons: seq<Rule>, names: Naming): (r: seq<P.Tree>)
    ensures |r| == |sons|
    decreases sons, 0
  {
    if sons == [] then [] else [TreeOf(sons[0], names)] + TreesOf(sons[1..], names)
  }

  /** Names are plain, also without parentheses, and looked up as what they name. */
  ghost predicate Named(names: Naming, find: Directory) {
    forall host: bool, id: nat :: R.BareName(names(host, id)) && find(names(host, id)) == (host, id)
  }

  lemma {:induction false} TreesOfAt(sons: seq<Rule>, names: Naming, i: nat)
    requires i < |sons|
    ensures TreesOf(sons, names)[i] == TreeOf(sons[i], names)
  {
    if i > 0 { TreesOfAt(sons[1..], names, i - 1); }
  }

  lemma OperandRead(op: Connective)
    ensures !OperandOf(op).NoOperand? && ConnectiveOf(OperandOf(op)) == op
  {
    if op.Of? {
      ThresholdRead(op.ok);
      ThresholdRead(op.warn);
      ThresholdRead(op.crit);
    }
  }

  /** The tree of a rule stands for the rule. */
  lemma {:induction false} TreeOfRule(r: Rule, names: Naming, find: Directory)
    requires Named(names, find)
    ensures HasMeaning(TreeOf(r, names)) && RuleOf(TreeOf(r, names), find) == r
  {
    if r.Group? {
      OperandRead(r.op);
      var trees := TreesOf(r.sons, names);
      forall i | 0 <= i < |r.sons|
        ensures HasMeaning(trees[i]) && RuleOf(trees[i], find) == r.sons[i]
      {
        TreesOfAt(r.sons, names, i);
        TreeOfRule(r.sons[i], names, find);
      }
      forall i | 0 <= i < |r.sons| ensures RulesOf(trees, find)[i] == r.sons[i] {
        RulesOfAt(trees, find, i);
      }
      assert RulesOf(trees, find) == r.sons;
    }
  }

  function Positive(r: Rule): Rule { r.(negated := false) }

  /** Writing a rule in any of its forms, parsing the text and evaluating the result
      gives the state of the rule, whatever the states of hosts and services. */
  lemma CompiledState(r: Rule, w: R.Written, names: Naming, find: Directory, items: Items)
    requires Named(names, find) && R.Legible(w) && R.TreeOf(w) == TreeOf(r, names)
    ensures var parsed := P.Parse(R.Body(w));
            && parsed.Parsed? && HasMeaning(parsed.tree) && RuleOf(parsed.tree, find) == Positive(r)
            && WellBuilt(Positive(r)) && GetState(RuleOf(parsed.tree, find), items) == GetState(Positive(r), items)
  {
    LegibleIsBuilt(r, w, names);
    TreeOfRule(r, names, find);
    R.RoundTrip(w);
    UnnegatedMeaning(R.TreeOf(w), find);
  }

  lemma {:induction false} LegibleIsBuilt(r: Rule, w: R.Written, names: Naming)
    requires R.Legible(w) && R.TreeOf(w) == TreeOf(r, names)
    ensures WellBuilt(r) && WellBuilt(Positive(r))
  {
    if r.Group? {
      assert w.Clause? && R.TreesOf(w.sons) == TreesOf(r.sons, names);
      forall i | 0 <= i < |r.sons| ensures WellBuilt(r.sons[i]) {
        TreesOfAt(r.sons, names, i);
        assert R.TreesOf(w.sons)[i] == R.TreeOf(w.sons[i]);
        LegibleIsBuilt(r.sons[i], w.sons[i], names);
      }
    }
  }

  lemma UnnegatedMeaning(t: P.Tree, find: Directory)
    requires HasMeaning(t)
    ensures HasMeaning(R.Positive(t)) && RuleOf(R.Positive(t), find) == Positive(RuleOf(t, find))
  {
  }

  // ---------------------------------------------------------------- a way to write every rule

  /** Two sons under & and |; of: values that are not 0, which stands for all sons. */
  predicate Writable(r: Rule)
    decreases r
  {
    r.Group? ==>
      && (match r.op
          case Of(a, b, c, true) => |r.sons| >= 1 && a != Number(0) && b != Number(0) && c != Number(0)
          case Of(a, _, _, false) => |r.sons| >= 1 && a != Number(0) && SimpleOf(r.op, |r.sons|)
          case _ => |r.sons| >= 2)
      && forall i :: 0 <= i < |r.sons| ==> Writable(r.sons[i])
  }

  lemma {:induction false} CountDigitsThen(s: string, rest: string)
    requires AllDigits(s) && (rest == "" || !P.IsDigit(rest[0]))
    ensures P.CountDigits(s + rest) == |s|
  {
    if s == "" {
      assert s + rest == rest;
    } else {
      assert (s + rest)[1..] == s[1..] + rest;
      CountDigitsThen(s[1..], rest);
    }
  }

  /** The text of a value is a number as the of: prefix has it, and not 0 unless the value is. */
  lemma TextIsNumber(t: Threshold)
    ensures R.IsNumber(TextOf(t)) && (TextOf(t) == "0" <==> t == Number(0))
  {
    var n: nat := if t.n < 0 then -t.n else t.n;
    var d, rest := P.Decimal(n), if t.Percent? then "%" else "";
    DecimalDigits(n);
    CountDigitsThen(d, rest);
    assert P.IsDigit(d[0]);
    var text := TextOf(t);
    if t.n < 0 {
      assert text == "-" + (d + rest);
      assert text[1..] == d + rest;
    } else {
      assert text == d + rest && text[0..] == text;
    }
  }

  lemma WritableOperand(op: Connective, sons: nat)
    requires match op
             case Of(a, b, c, true) => sons >= 1 && a != Number(0) && b != Number(0) && c != Number(0)
             case Of(a, _, _, false) => sons >= 1 && a != Number(0) && SimpleOf(op, sons)
             case _ => sons >= 2
    ensures R.PrintableOperand(OperandOf(op), sons) && R.Meant(OperandOf(op), sons) == OperandOf(op)
  {
    if op.Of? {
      TextIsNumber(op.ok);
      TextIsNumber(op.warn);
      TextIsNumber(op.crit);
    }
  }

  /** The usual form: names stand bare, unless alone, with n spaces around operators. */
  function Write(r: Rule, names: Naming, n: nat, first: bool, only: bool): R.Written
    decreases r
  {
    var before := if first then 0 else n;
    match r
    case Host(id, negated) => R.Word(names(true, id), negated, !only, before, n)
    case Service(id, negated) => R.Word(names(false, id), negated, !only, before, n)
    case Group(op, sons, negated) => R.Clause(OperandOf(op), WriteAll(sons, names, n), negated, before, n)
  }

  function WriteAll(sons: seq<Rule>, names: Naming, n: nat): (w: seq<R.Written>)
    ensures |w| == |sons|
    ensures forall i :: 0 <= i < |sons| ==> w[i] == Write(sons[i], names, n, i == 0, |sons| == 1)
    decreases sons
  {
    seq(|sons|, i requires 0 <= i < |sons| => Write(sons[i], names, n, i == 0, |sons| == 1))
  }

  /** Every writable rule can be written like that. */
  lemma {:induction false} WriteIsLegible(r: Rule, names: Naming, find: Directory, n: nat, first: bool, only: bool)
    requires Writable(r) && Named(names, find)
    ensures var w := Write(r, names, n, first, only);
            && R.Legible(w) && R.TreeOf(w) == TreeOf(r, names) && (first ==> w.before == 0) && (only ==> !R.IsBare(w))
    decreases r
  {
    if r.Group? {
      WritableOperand(r.op, |r.sons|);
      var ws, trees := WriteAll(r.sons, names, n), TreesOf(r.sons, names);
      forall i | 0 <= i < |r.sons|
        ensures R.Legible(ws[i]) && R.TreeOf(ws[i]) == trees[i]
        ensures i == 0 ==> ws[i].before == 0 && (|r.sons| == 1 ==> !R.IsBare(ws[i]))
      {
        WriteIsLegible(r.sons[i], names, find, n, i == 0, |r.sons| == 1);
        TreesOfAt(r.sons, names, i);
      }
      assert R.TreesOf(ws) == trees;
    }
  }

  // ---------------------------------------------------------------- in figures

  /** A text a&b has the worse of the two states, and a|b the better one. */
  lemma StateOfText(a: string, b: string, find: Directory, items: Items)
    requires R.BareName(a) && R.BareName(b) && ItemsInRange(items)
    ensures var both, either := P.Parse(a + ("&" + b)), P.Parse(a + ("|" + b));
            var x, y := StateOfName(a, find, items), StateOfName(b, find, items);
            && both.Parsed? && HasMeaning(both.tree) && WellBuilt(RuleOf(both.tree, find))
            && GetState(RuleOf(both.tree, find), items) == (if x >= y then x else y)
            && either.Parsed? && HasMeaning(either.tree) && WellBuilt(RuleOf(either.tree, find))
            && GetState(RuleOf(either.tree, find), items) == (if x <= y then x else y)
  {
    R.OperatorsInText(a, b);
    hide P.Parse, R.BareName;
    var la, lb := P.Leaf(P.NoOperand, a, false), P.Leaf(P.NoOperand, b, false);
    TwoSonsState(P.And, la, lb, find, items);
    TwoSonsState(P.Or, la, lb, find, items);
  }

  function StateOfName(name: string, find: Directory, items: Items): int {
    GetState(RuleOf(P.Leaf(P.NoOperand, name, false), find), items)
  }

  lemma TwoRules(op: P.Operand, s: P.Tree, t: P.Tree, find: Directory)
    requires (op == P.And || op == P.Or) && s.Leaf? && t.Leaf?
    ensures HasMeaning(P.Node(op, [s, t], false))
    ensures RuleOf(P.Node(op, [s, t], false), find) ==
              Group(ConnectiveOf(op), [RuleOf(s, find), RuleOf(t, find)], false)
  {
    assert [s, t][1..] == [t] && [t][1..] == [];
    assert RulesOf([t], find) == [RuleOf(t, find)];
  }

  lemma TwoSonsState(op: P.Operand, s: P.Tree, t: P.Tree, find: Directory, items: Items)
    requires op == P.And || op == P.Or
    requires s.Leaf? && t.Leaf? && ItemsInRange(items)
    ensures var n := P.Node(op, [s, t], false);
            && HasMeaning(n) && WellBuilt(RuleOf(n, find))
            && var x, y := GetState(RuleOf(s, find), items), GetState(RuleOf(t, find), items);
               GetState(RuleOf(n, find), items) ==
                 if op == P.And then (if x >= y then x else y) else (if x <= y then x else y)
  {
    TwoRules(op, s, t, find);
    TwoExtremes(ConnectiveOf(op), RuleOf(s, find), RuleOf(t, find), items);
    hide RuleOf, GetState, HasMeaning, WellBuilt;
  }

  lemma TwoExtremes(op: Connective, a: Rule, b: Rule, items: Items)
    requires (op.All? || op.Any?) && !a.Group? && !b.Group? && ItemsInRange(items)
    ensures WellBuilt(a) && WellBuilt(b) && WellBuilt(Group(op, [a, b], false))
    ensures var x, y := GetState(a, items), GetState(b, items);
            GetState(Group(op, [a, b], false), items) ==
              if op.All? then (if x >= y then x else y) else (if x <= y then x else y)
  {
    var r := Group(op, [a, b], false);
    assert WellBuilt(a) && WellBuilt(b) && WellBuilt(r);
    hide GetState, WellBuilt;
    GroupIsExtreme(r, items, 0);
    GroupIsExtreme(r, items, 1);
    assert r.sons[0] == a && r.sons[1] == b;
    var k :| 0 <= k < |r.sons| && GetState(r.sons[k], items) == GetState(r, items);
  }
}
