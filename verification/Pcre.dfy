/** The part of PCRE that the two host-name expressions use: a backtracking matcher that
    tries alternatives in PCRE's order. A pattern is written with its continuation, so that
    (X)?Y is Alt(XY, Y). */
module Pcre {
  import opened Text

  datatype CharClass =
    | NameChar    // [-\w.]
    | Digit       // \d
    | HostChar    // [-A-Za-z\d.]
    | HostLetter  // [-A-Za-z]
    | Dot         // \.

  datatype Re =
    | End                                         // $: the end, or before a final newline
    | Open(group: nat, rest: Re)
    | Close(group: nat, rest: Re)
    | One(cls: CharClass, rest: Re)
    | Star(cls: CharClass, lazy: bool, rest: Re)
    | Ref(group: nat, rest: Re)                   // \group
    | Cond(group: nat, whenSet: Re, whenUnset: Re)
    | Alt(first: Re, second: Re)

  /** Groups opened so far (their start) and groups closed so far (start and end). */
  datatype Captures = Captures(starts: map<nat, nat>, spans: map<nat, (nat, nat)>)

  const NO_CAPTURES := Captures(map[], map[])

  predicate In(cls: CharClass, c: char) {
    match cls
    case NameChar => c == '-' || IsLetter(c) || IsDigit(c) || c == '_' || c == '.'
    case Digit => IsDigit(c)
    case HostChar => c == '-' || IsLetter(c) || IsDigit(c) || c == '.'
    case HostLetter => c == '-' || IsLetter(c)
    case Dot => c == '.'
  }

  /** The characters of each class. */
  lemma CharClasses(c: char)
    ensures In(HostLetter, c) <==> 'a' <= c <= 'z' || 'A' <= c <= 'Z' || c == '-'
    ensures In(HostChar, c) <==> 'a' <= c <= 'z' || 'A' <= c <= 'Z' || '0' <= c <= '9' || c in "-."
    ensures In(NameChar, c) <==> 'a' <= c <= 'z' || 'A' <= c <= 'Z' || '0' <= c <= '9' || c in "-._"
    ensures In(Digit, c) <==> '0' <= c <= '9'
  {
  }

  predicate AllIn(cls: CharClass, s: string) {
    forall i :: 0 <= i < |s| ==> In(cls, s[i])
  }

  /** Some(captures) of the first match in PCRE's order, or None. */
  function Run(re: Re, s: string, i: nat, c: Captures): Option<Captures>
    requires i <= |s|
    decreases |s| - i, re
  {
    match re
    case End =>
      if i == |s| || (i == |s| - 1 && s[i] == '\n') then Some(c) else None
    case Open(g, k) =>
      Run(k, s, i, c.(starts := c.starts[g := i]))
    case Close(g, k) =>
      if g !in c.starts then None
      else Run(k, s, i, c.(spans := c.spans[g := (c.starts[g], i)]))
    case One(cls, k) =>
      if i < |s| && In(cls, s[i]) then Run(k, s, i + 1, c) else None
    case Star(cls, lazy, k) =>
      if i == |s| || !In(cls, s[i]) then Run(k, s, i, c)
      else if lazy then
        var r := Run(k, s, i, c);
        if r.Some? then r else Run(re, s, i + 1, c)
      else
        var r := Run(re, s, i + 1, c);
        if r.Some? then r else Run(k, s, i, c)
    case Ref(g, k) =>
      if g !in c.spans then None
      else
        var (a, b) := c.spans[g];
        if a <= b <= |s| && i + (b - a) <= |s| && s[i..i + (b - a)] == s[a..b]
        then Run(k, s, i + (b - a), c) else None
    case Cond(g, yes, no) =>
      if g in c.spans then Run(yes, s, i, c) else Run(no, s, i, c)
    case Alt(a, b) =>
      var r := Run(a, s, i, c);
      if r.Some? then r else Run(b, s, i, c)
  }

  function Plus(cls: CharClass, k: Re): Re {
    One(cls, Star(cls, false, k))
  }

  /** The characters s[i..j] all belong to the class. */
  predicate Reach(cls: CharClass, s: string, i: int, j: int) {
    0 <= i <= j <= |s| && forall x :: i <= x < j ==> In(cls, s[x])
  }

  /** Where a repetition stops: the first continuation that succeeds, counting upwards when
      lazy and downwards when greedy. */
  lemma {:induction false} StarStops(cls: CharClass, lazy: bool, k: Re, s: string, i: nat, c: Captures) returns (j: nat)
    requires i <= |s|
    ensures Reach(cls, s, i, j)
    ensures var r := Run(Star(cls, lazy, k), s, i, c);
            if r.Some? then r == Run(k, s, j, c)
            else forall x :: Reach(cls, s, i, x) ==> Run(k, s, x, c).None?
    ensures Run(Star(cls, lazy, k), s, i, c).Some? ==>
              forall x :: Reach(cls, s, i, x) && (if lazy then x < j else x > j) ==> Run(k, s, x, c).None?
    decreases |s| - i
  {
    j := i;
    if i < |s| && In(cls, s[i]) {
      if lazy && Run(k, s, i, c).Some? {
      } else {
        var j' := StarStops(cls, lazy, k, s, i + 1, c);
        assert forall x :: i < x && Reach(cls, s, i, x) ==> Reach(cls, s, i + 1, x);
        if Run(Star(cls, lazy, k), s, i + 1, c).Some? {
          j := j';
        }
      }
    }
  }

  /** A repetition succeeds when its continuation succeeds at some place it can reach. */
  lemma StarReaches(cls: CharClass, lazy: bool, k: Re, s: string, i: nat, j: nat, c: Captures)
    requires Reach(cls, s, i, j) && Run(k, s, j, c).Some?
    ensures Run(Star(cls, lazy, k), s, i, c).Some?
  {
    hide Run;
    var _ := StarStops(cls, lazy, k, s, i, c);
  }
}
