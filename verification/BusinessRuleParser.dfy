/** The business rule language: the recursive character scanner that turns a
    rule text into a tree, as a function and as the loop that computes it. */
module BusinessRuleParser {
  import opened Options
  import opened Text

  /** The operand of a node; an of: rule keeps its three values as written. */
  datatype Operand = NoOperand | And | Or | Of(ok: string, warn: string, crit: string, mul: bool)

  /** Missing is the None that a rule mixing & and | parses to. A leaf keeps the
      text that names a host or a service. */
  datatype Tree =
    | Missing
    | Leaf(operand: Operand, name: string, negated: bool)
    | Node(operand: Operand, sons: seq<Tree>, negated: bool)

  /** Raises: not_value was set on a missing son. */
  datatype Result = Parsed(tree: Tree) | Raises

  // ---------------------------------------------------------------- of: prefix

  datatype XofMatch = XofMatch(ok: string, warn: string, crit: string, rest: string)

  predicate IsDigit(c: char) { '0' <= c <= '9' }

  function CountDigits(s: string): (n: nat)
    ensures n <= |s|
  {
    if s != "" && IsDigit(s[0]) then 1 + CountDigits(s[1..]) else 0
  }

  function SkipChar(s: string, c: char): (r: string)
    ensures |r| <= |s|
  {
    if s != "" && s[0] == c then SkipChar(s[1..], c) else s
  }

  /** The length of an optional minus, digits, and an optional percent sign. */
  function NumberLength(s: string): (n: nat)
    ensures n <= |s|
  {
    var sign := if s != "" && s[0] == '-' then 1 else 0;
    var k := sign + CountDigits(s[sign..]);
    if k < |s| && s[k] == '%' then k + 1 else k
  }

  predicate StartsWithNumber(s: string) {
    s != "" && (IsDigit(s[0]) || (s[0] == '-' && |s| > 1 && IsDigit(s[1])))
  }

  function FirstLine(s: string): (r: string)
    ensures |r| <= |s|
  {
    if s != "" && s[0] != '\n' then [s[0]] + FirstLine(s[1..]) else ""
  }

  /** A, then optionally B and C, then of:, then what the rule is about. Each
      part is matched greedily, which never loses a match. */
  function MatchXof(s: string): (r: Option<XofMatch>)
    ensures r.Some? ==> |r.value.rest| < |s|
  {
    if !StartsWithNumber(s) then None
    else
      var n1 := NumberLength(s);
      var s1 := SkipChar(s[n1..], ',');
      var n2 := NumberLength(s1);
      var s2 := SkipChar(s1[n2..], ',');
      var n3 := NumberLength(s2);
      var s3 := SkipChar(s2[n3..], ' ');
      if |s3| < 3 || s3[..3] != "of:" then None
      else
        var line := FirstLine(s3[3..]);
        if line == "" then None
        else Some(XofMatch(s[..n1], s1[..n2], s2[..n3], Subject(line)))
  }

  /** Spaces are dropped, but at least one character stays. */
  function Subject(line: string): (r: string)
    requires line != ""
    ensures r != "" && |r| <= |line|
  {
    var r := SkipChar(line, ' ');
    if r != "" then r else line[|line| - 1..]
  }

  /** The operand and the text left to scan. */
  function Header(s: string): (Operand, string) {
    match MatchXof(s)
    case None => (NoOperand, s)
    case Some(m) =>
      if m.warn != "" && m.crit != "" then (Of(m.ok, m.warn, m.crit, true), m.rest)
      else (Of(m.ok, "0", "0", false), m.rest)
  }

  function Decimal(n: nat): string {
    var digit := ['0' + (n % 10) as char];
    if n < 10 then digit else Decimal(n / 10) + digit
  }

  /** A value written 0 stands for the number of sons. */
  function SwitchZeros(op: Operand, sons: nat): Operand {
    match op
    case Of(a, b, c, mul) =>
      var all := Decimal(sons);
      Of(if a == "0" then all else a, if b == "0" then all else b, if c == "0" then all else c, mul)
    case _ => op
  }

  // ---------------------------------------------------------------- scanner

  predicate IsSpecial(c: char) { c == '(' || c == ')' || c == '&' || c == '|' }

  predicate HasSpecial(s: string) {
    s != "" && (IsSpecial(s[0]) || HasSpecial(s[1..]))
  }

  /** The local variables of the scan. */
  datatype Scan = Scan(operand: Operand, sons: seq<Tree>, tmp: string,
                       sonIsNot: bool, depth: int, inPar: bool)

  function Start(op: Operand): Scan {
    Scan(op, [], "", false, 0, false)
  }

  /** What bounds the recursion: a special character has been consumed for good,
      or the next one met will be. */
  ghost predicate Fits(s: Scan, rest: string, limit: nat) {
    && |s.tmp| + |rest| <= limit
    && (|s.tmp| + |rest| < limit || (s.depth == 0 && !s.inPar && HasSpecial(rest)))
  }

  function Open(s: Scan): Scan {
    var tmp := Strip(s.tmp);
    s.(depth := s.depth + 1, inPar := true, tmp := if s.depth + 1 > 1 then tmp + "(" else tmp)
  }

  /** Attach a parsed son, negated if a ! came before it. */
  function Attach(s: Scan, son: Result): Option<Scan> {
    match son
    case Raises => None
    case Parsed(t) =>
      if !s.sonIsNot then Some(s.(sons := s.sons + [t], tmp := ""))
      else if t.Missing? then None
      else Some(s.(sons := s.sons + [t.(negated := true)], sonIsNot := false, tmp := ""))
  }

  function Bang(s: Scan): Scan {
    var tmp := Strip(s.tmp);
    if tmp != "" && tmp[0] != '!' then s.(tmp := tmp) else s.(tmp := tmp, sonIsNot := true)
  }

  function OperatorOf(c: char): Operand { if c == '&' then And else Or }

  predicate Mixes(op: Operand, c: char) {
    !op.NoOperand? && !op.Of? && op != OperatorOf(c)
  }

  function WithOperator(s: Scan, c: char): Scan {
    if s.operand.Of? then s else s.(operand := OperatorOf(c))
  }

  function Push(s: Scan, c: char): Scan { s.(tmp := s.tmp + [c]) }

  function Finish(s: Scan): Tree {
    Node(SwitchZeros(s.operand, |s.sons|), s.sons, false)
  }

  /** The scan goes on, or the whole parse is over. */
  datatype Outcome = Next(scan: Scan) | Stop(result: Result)

  function Parse(pattern: string): Result
    decreases |pattern|, 3, 0
  {
    var p := Strip(pattern);
    if HasSpecial(p) then ParseComplex(p) else Parsed(ParseSimple(p))
  }

  function ParseSimple(p: string): Tree {
    var (op, text) := Header(p);
    if text != "" && text[0] == '!' then Leaf(op, text[1..], true) else Leaf(op, text, false)
  }

  function ParseComplex(p: string): Result
    requires HasSpecial(p)
    decreases |p|, 2, 0
  {
    var (op, body) := Header(p);
    ScanFrom(Start(op), body, |p|)
  }

  function ScanFrom(s: Scan, rest: string, limit: nat): Result
    requires Fits(s, rest, limit)
    decreases limit, 1, |rest|
  {
    if rest == "" then AtEnd(s, limit)
    else
      match OneChar(s, rest[0], limit)
      case Stop(r) => r
      case Next(s') => ScanFrom(s', rest[1..], limit)
  }

  function AtEnd(s: Scan, limit: nat): Result
    requires |s.tmp| < limit
    decreases limit, 0, 0
  {
    if Strip(s.tmp) == "" then Parsed(Finish(s))
    else
      match Attach(s, Parse(Strip(s.tmp)))
      case None => Raises
      case Some(s') => Parsed(Finish(s'))
  }

  /** One turn of the character loop. Outside parentheses a special character
      is consumed; any other one is kept or dropped. */
  function OneChar(s: Scan, c: char, limit: nat): (o: Outcome)
    requires |s.tmp| < limit
    ensures o.Next? ==> |o.scan.tmp| <= |s.tmp| + 1
    ensures o.Next? && s.depth == 0 && !s.inPar ==>
              if IsSpecial(c) then |o.scan.tmp| <= |s.tmp| else o.scan.depth == 0 && !o.scan.inPar
    decreases limit, 0, 0
  {
    if c == '(' then Next(Open(s))
    else if c == ')' then
      var s1 := s.(depth := s.depth - 1);
      if s1.depth < 0 then Next(s1)
      else if s1.depth == 0 then
        match Attach(s1, Parse(Strip(s.tmp)))
        case None => Stop(Raises)
        case Some(s') => Next(s'.(inPar := false))
      else Next(Push(s1, c))
    else if s.inPar then Next(Push(s, c))
    else if c == '!' then Next(Bang(s))
    else if c == '&' || c == '|' then
      if Mixes(s.operand, c) then Stop(Parsed(Missing))
      else
        var s1 := WithOperator(s, c);
        if Strip(s.tmp) == "" then Next(s1.(tmp := ""))
        else
          match Attach(s1, Parse(Strip(s.tmp)))
          case None => Stop(Raises)
          case Some(s') => Next(s')
    else Next(Push(s, c))
  }

  // ---------------------------------------------------------------- the loop

  method EvalCorPattern(pattern: string) returns (r: Result)
    ensures r == Parse(pattern)
    decreases |pattern|, 3
  {
    var p := Strip(pattern);
    var complexNode := HasSpecial(p);
    if complexNode {
      r := EvalComplexCorPattern(p);
    } else {
      r := Parsed(ParseSimple(p));
    }
  }

  method EvalComplexCorPattern(p: string) returns (r: Result)
    requires HasSpecial(p)
    ensures r == ParseComplex(p)
    decreases |p|, 2
  {
    var (op, body) := Header(p);
    r := ScanPattern(op, body, |p|);
  }

  method ScanPattern(op: Operand, body: string, limit: nat) returns (r: Result)
    requires Fits(Start(op), body, limit)
    ensures r == ScanFrom(Start(op), body, limit)
    decreases limit, 1
  {
    var scan := Start(op);
    var i := 0;
    while i < |body|
      invariant i <= |body|
      invariant Fits(scan, body[i..], limit)
      invariant ScanFrom(scan, body[i..], limit) == ScanFrom(Start(op), body, limit)
    {
      assert body[i..][1..] == body[i + 1..];
      var outcome := ScanChar(scan, body[i], limit);
      if outcome.Stop? {
        return outcome.result;
      }
      scan := outcome.scan;
      i := i + 1;
    }
    var tmp := Strip(scan.tmp);
    if tmp != "" {
      var son := EvalCorPattern(tmp);
      var attached := Attach(scan, son);
      if attached.None? {
        return Raises;
      }
      scan := attached.value;
    }
    r := Parsed(Node(SwitchZeros(scan.operand, |scan.sons|), scan.sons, false));
  }

  /** The body of the loop, branch by branch. */
  method ScanChar(s: Scan, c: char, limit: nat) returns (o: Outcome)
    requires |s.tmp| < limit
    ensures o == OneChar(s, c, limit)
    decreases limit, 0
  {
    var Scan(operand, sons, tmp, sonIsNot, stacked, inPar) := s;
    if c == '(' {
      stacked := stacked + 1;
      inPar := true;
      tmp := Strip(tmp);
      if stacked > 1 {
        tmp := tmp + [c];
      }
    } else if c == ')' {
      stacked := stacked - 1;
      if stacked == 0 {
        var son := EvalCorPattern(Strip(tmp));
        if son.Raises? || (sonIsNot && son.tree.Missing?) {
          return Stop(Raises);
        }
        sons := sons + [if sonIsNot then son.tree.(negated := true) else son.tree];
        sonIsNot, inPar, tmp := false, false, "";
      } else if stacked > 0 {
        tmp := tmp + [c];
      }
    } else if inPar {
      tmp := tmp + [c];
    } else if c == '!' {
      tmp := Strip(tmp);
      if tmp == "" || tmp[0] == '!' {
        sonIsNot := true;
      }
    } else if c == '&' || c == '|' {
      tmp := Strip(tmp);
      if Mixes(operand, c) {
        return Stop(Parsed(Missing));
      }
      if !operand.Of? {
        operand := OperatorOf(c);
      }
      if tmp != "" {
        var son := EvalCorPattern(tmp);
        if son.Raises? || (sonIsNot && son.tree.Missing?) {
          return Stop(Raises);
        }
        sons := sons + [if sonIsNot then son.tree.(negated := true) else son.tree];
        sonIsNot := false;
      }
      tmp := "";
    } else {
      tmp := tmp + [c];
    }
    o := Next(Scan(operand, sons, tmp, sonIsNot, stacked, inPar));
  }
}
