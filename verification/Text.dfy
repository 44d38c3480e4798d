/** The few string operations the expression parsers rely on. */
module Text {

  /** The characters that str.strip removes. */
  predicate IsSpace(c: char) {
    var k := c as int;
    || 9 <= k <= 13 || 28 <= k <= 32 || k == 0x85 || k == 0xA0 || k == 0x1680
    || 0x2000 <= k <= 0x200A || k == 0x2028 || k == 0x2029 || k == 0x202F
    || k == 0x205F || k == 0x3000
  }

  function StripLeft(s: string): (r: string)
    ensures |r| <= |s|
    ensures r != "" ==> !IsSpace(r[0])
  {
    if s != "" && IsSpace(s[0]) then StripLeft(s[1..]) else s
  }

  function StripRight(s: string): (r: string)
    ensures |r| <= |s| && r == s[..|r|]
    ensures r != "" ==> !IsSpace(r[|r| - 1])
  {
    if s != "" && IsSpace(s[|s| - 1]) then StripRight(s[..|s| - 1]) else s
  }

  function Strip(s: string): (r: string)
    ensures |r| <= |s|
    ensures Trimmed(r)
  {
    StripRight(StripLeft(s))
  }

  /** No space at either end. */
  predicate Trimmed(s: string) {
    s == "" || (!IsSpace(s[0]) && !IsSpace(s[|s| - 1]))
  }

  lemma StripTrimmed(s: string)
    requires Trimmed(s)
    ensures Strip(s) == s
  {
  }

  predicate StartsTight(x: string) { x == "" || !IsSpace(x[0]) }

  // ---------------------------------------------------------------- spaces

  function Spaces(n: nat): (s: string)
    ensures |s| == n && forall i :: 0 <= i < n ==> s[i] == ' '
  {
    seq(n, _ => ' ')
  }

  lemma {:induction false} AllStripped(s: string)
    requires forall i :: 0 <= i < |s| ==> IsSpace(s[i])
    ensures StripLeft(s) == "" && Strip(s) == ""
  {
    if s != "" { AllStripped(s[1..]); }
  }

  lemma {:induction false} RightStripped(x: string, n: nat)
    ensures StripRight(x + Spaces(n)) == StripRight(x)
    decreases n
  {
    var s := x + Spaces(n);
    if n == 0 {
      assert s == x;
    } else {
      assert s[|s| - 1] == ' ' && IsSpace(' ');
      assert s[..|s| - 1] == x + Spaces(n - 1);
      RightStripped(x, n - 1);
    }
  }

  lemma {:induction false} LeftStripped(x: string, n: nat)
    ensures StripLeft(x) != "" ==> StripLeft(x + Spaces(n)) == StripLeft(x) + Spaces(n)
    ensures StripLeft(x) == "" ==> StripLeft(x + Spaces(n)) == ""
  {
    if x == "" {
      assert x + Spaces(n) == Spaces(n) && IsSpace(' ');
      AllStripped(Spaces(n));
    } else if IsSpace(x[0]) {
      assert (x + Spaces(n))[1..] == x[1..] + Spaces(n);
      LeftStripped(x[1..], n);
    }
  }

  /** Spaces at the end are stripped. */
  lemma SpacesStripped(x: string, n: nat)
    ensures Strip(x + Spaces(n)) == Strip(x)
  {
    LeftStripped(x, n);
    RightStripped(StripLeft(x), n);
  }

  /** Spaces in front of a tight text are stripped. */
  lemma {:induction false} LeadStripped(n: nat, x: string)
    requires Trimmed(x)
    ensures Strip(Spaces(n) + x) == x
    decreases n
  {
    if n == 0 {
      assert Spaces(n) + x == x;
      StripTrimmed(x);
    } else {
      assert (Spaces(n) + x)[1..] == Spaces(n - 1) + x && IsSpace(' ');
      LeadStripped(n - 1, x);
    }
  }
}
