/** Splitting a host name into prefix, number and domain (range_parts.c). */
module NodeParts {
  import opened Text
  import opened Pcre
  import Decimal

  datatype NodeParts = NodeParts(
    prefix: string,
    domain: string,
    num: int,
    numStr: Option<string>,
    fullName: string)

  /** (\.[-A-Za-z\d.]*[-A-Za-z]+[-A-Za-z\d.]*) as group 3, followed by k. */
  function DomainThen(k: Re): Re {
    Open(3, One(Dot, Star(HostChar, false, Plus(HostLetter, Star(HostChar, false, Close(3, k))))))
  }

  const AFTER_DIGITS := Alt(DomainThen(End), End)

  const NUMBER := Open(2, Plus(Digit, Close(2, AFTER_DIGITS)))

  const NUMBERED_NODE_RE := Open(1, Star(NameChar, true, Close(1, NUMBER)))

  /** The text of a capture; empty when the group did not take part. */
  function Substring(s: string, c: Captures, group: nat): string {
    if group in c.spans && c.spans[group].0 <= c.spans[group].1 <= |s|
    then s[c.spans[group].0..c.spans[group].1] else ""
  }

  /** node_to_parts; numStr is None where the source leaves a null pointer. */
  function NodeToParts(name: string): (r: NodeParts)
    ensures r.fullName == name && r.num >= 0
  {
    var m := Run(NUMBERED_NODE_RE, name, 0, NO_CAPTURES);
    if m.None? then NodeParts("", "", 0, None, name)
    else
      var num := Substring(name, m.value, 2);
      NodeParts(Substring(name, m.value, 1), Substring(name, m.value, 3), Atoi(num), Some(num), name)
  }

  function Atoi(s: string): nat {
    if AllDigits(s) then Decimal.Value(s) else 0
  }

  /** The part of a name that a pattern ending in $ has to match: all but a final newline. */
  function Line(s: string): (line: string)
    ensures |line| <= |s| && line == s[..|line|]
  {
    if s != "" && s[|s| - 1] == '\n' then s[..|s| - 1] else s
  }

  // What a split is, without reference to the matcher.

  predicate IsDomain(d: string) {
    |d| > 1 && d[0] == '.' && AllIn(HostChar, d) && exists x :: 1 <= x < |d| && In(HostLetter, d[x])
  }

  predicate Splits(name: string, p: string, num: string, d: string) {
    && name == p + num + d
    && AllIn(NameChar, p)
    && num != "" && AllDigits(num)
    && (d == "" || IsDomain(d))
  }

  ghost predicate ShortestSplit(name: string, p: string, num: string, d: string) {
    && Splits(name, p, num, d)
    && forall p', num', d' :: Splits(name, p', num', d') ==> |p| <= |p'|
  }

  function WithDomain(c: Captures, i: nat, j: nat): Captures {
    Captures(c.starts[3 := i], c.spans[3 := (i, j)])
  }

  lemma DomainSound(k: Re, s: string, i: nat, c: Captures) returns (j: nat)
    requires i <= |s|
    requires Run(DomainThen(k), s, i, c).Some?
    ensures i < j <= |s| && IsDomain(s[i..j])
    ensures Run(DomainThen(k), s, i, c) == Run(k, s, j, WithDomain(c, i, j))
  {
    var c3 := c.(starts := c.starts[3 := i]);
    var tail := Star(HostChar, false, Close(3, k));
    var letters := Star(HostLetter, false, tail);
    var a := StarStops(HostChar, false, Plus(HostLetter, tail), s, i + 1, c3);
    var b := StarStops(HostLetter, false, tail, s, a + 1, c3);
    j := StarStops(HostChar, false, Close(3, k), s, b, c3);
    assert In(HostLetter, s[i..j][a - i]);
  }

  lemma DomainComplete(k: Re, s: string, i: nat, j: nat, c: Captures)
    requires i < j <= |s| && IsDomain(s[i..j])
    requires Run(k, s, j, WithDomain(c, i, j)).Some?
    ensures Run(DomainThen(k), s, i, c).Some?
  {
    var c3 := c.(starts := c.starts[3 := i]);
    var tail := Star(HostChar, false, Close(3, k));
    var d := s[i..j];
    var x :| 1 <= x < |d| && In(HostLetter, d[x]);
    assert forall y :: i <= y < j ==> s[y] == d[y - i];
    assert Run(Close(3, k), s, j, c3) == Run(k, s, j, WithDomain(c, i, j));
    StarReaches(HostChar, false, Close(3, k), s, i + x + 1, j, c3);
    LetterReaches(tail, s, i, i + x, c3);
  }

  lemma LetterReaches(k: Re, s: string, i: nat, x: nat, c: Captures)
    requires i < x < |s| && s[i] == '.' && Reach(HostChar, s, i + 1, x) && In(HostLetter, s[x])
    requires Run(k, s, x + 1, c).Some?
    ensures Run(One(Dot, Star(HostChar, false, Plus(HostLetter, k))), s, i, c).Some?
  {
    StarReaches(HostLetter, false, k, s, x + 1, x + 1, c);
    assert Run(Plus(HostLetter, k), s, x, c).Some?;
    StarReaches(HostChar, false, Plus(HostLetter, k), s, i + 1, x, c);
  }

  /** Captures of a split at positions p (end of prefix) and e (end of number). */
  function NumberCaptures(p: nat, e: nat): Captures {
    Captures(map[1 := 0, 2 := p], map[1 := (0, p), 2 := (p, e)])
  }

  function Prefixed(p: nat): Captures {
    Captures(map[1 := 0], map[1 := (0, p)])
  }

  lemma DigitsSound(k: Re, s: string, p: nat) returns (e: nat)
    requires p <= |s|
    requires Run(Open(2, Plus(Digit, Close(2, k))), s, p, Prefixed(p)).Some?
    ensures p < e && Reach(Digit, s, p, e)
    ensures Run(Open(2, Plus(Digit, Close(2, k))), s, p, Prefixed(p)) == Run(k, s, e, NumberCaptures(p, e))
  {
    var c := Captures(map[1 := 0, 2 := p], map[1 := (0, p)]);
    e := StarStops(Digit, false, Close(2, k), s, p + 1, c);
    assert c.(spans := c.spans[2 := (p, e)]) == NumberCaptures(p, e);
  }

  lemma DigitsComplete(k: Re, s: string, p: nat, e: nat)
    requires p < e && Reach(Digit, s, p, e)
    requires Run(k, s, e, NumberCaptures(p, e)).Some?
    ensures Run(Open(2, Plus(Digit, Close(2, k))), s, p, Prefixed(p)).Some?
  {
    var c := Captures(map[1 := 0, 2 := p], map[1 := (0, p)]);
    assert c.(spans := c.spans[2 := (p, e)]) == NumberCaptures(p, e);
    var _ := StarStops(Digit, false, Close(2, k), s, p + 1, c);
    assert Reach(Digit, s, p + 1, e);
  }

  lemma AfterDigits(s: string, e: nat, c: Captures)
    requires e <= |Line(s)|
    ensures var line := Line(s);
            Run(AFTER_DIGITS, s, e, c) ==
            if e == |line| then Some(c)
            else if IsDomain(line[e..]) then Some(WithDomain(c, e, |line|))
            else None
  {
    var line := Line(s);
    assert s[e..|line|] == line[e..];
    if Run(DomainThen(End), s, e, c).Some? {
      var j := DomainSound(End, s, e, c);
      assert s[e..j][j - 1 - e] == s[j - 1];
    } else if IsDomain(line[e..]) {
      DomainComplete(End, s, e, |line|, c);
    }
  }

  lemma OpenPrefix(s: string)
    ensures Run(NUMBERED_NODE_RE, s, 0, NO_CAPTURES)
         == Run(Star(NameChar, true, Close(1, NUMBER)), s, 0, Captures(map[1 := 0], map[]))
  {
  }

  lemma ClosePrefix(s: string, q: nat)
    requires q <= |s|
    ensures Run(Close(1, NUMBER), s, q, Captures(map[1 := 0], map[])) == Run(NUMBER, s, q, Prefixed(q))
  {
    assert Captures(map[1 := 0], map[]).spans[1 := (0, q)] == Prefixed(q).spans;
  }

  /** Every split makes the expression match at its prefix. */
  lemma SplitMatches(name: string, p: string, num: string, d: string)
    requires Splits(Line(name), p, num, d)
    ensures Reach(NameChar, name, 0, |p|)
    ensures Run(NUMBER, name, |p|, Prefixed(|p|)).Some?
  {
    hide Run, IsDomain;
    var e := |p| + |num|;
    var line := Line(name);
    assert line[e..] == d;
    assert forall x :: 0 <= x < |p| ==> name[x] == line[x] == p[x];
    assert forall x :: |p| <= x < e ==> name[x] == line[x] == num[x - |p|];
    AfterDigits(name, e, NumberCaptures(|p|, e));
    DigitsComplete(AFTER_DIGITS, name, |p|, e);
  }

  /** Every match at a prefix is a split. */
  lemma MatchSplits(name: string, p: nat) returns (e: nat)
    requires Reach(NameChar, name, 0, p) && Run(NUMBER, name, p, Prefixed(p)).Some?
    ensures var line := Line(name);
            && p < e <= |line| && Splits(line, line[..p], line[p..e], line[e..])
            && var c := NumberCaptures(p, e);
               Run(NUMBER, name, p, Prefixed(p)) == Some(if e == |line| then c else WithDomain(c, e, |line|))
  {
    hide Run, IsDomain;
    e := DigitsSound(AFTER_DIGITS, name, p);
    var line := Line(name);
    assert IsDigit(name[e - 1]) && e <= |line|;
    assert forall x :: 0 <= x < |line| ==> line[x] == name[x];
    assert AllIn(NameChar, line[..p]) && AllDigits(line[p..e]);
    AfterDigits(name, e, NumberCaptures(p, e));
    assert line == line[..p] + line[p..e] + line[e..];
  }

  lemma LineSlice(name: string, a: nat, b: nat)
    requires a <= b <= |Line(name)|
    ensures name[a..b] == Line(name)[a..b]
  {
  }

  /** What NUMBERED_NODE_RE does: it succeeds exactly on the names that split, and the lazy
      prefix makes it find the split with the shortest prefix. */
  lemma NodeToPartsIsShortestSplit(name: string)
    ensures var r := NodeToParts(name);
            match r.numStr
            case Some(num) => ShortestSplit(Line(name), r.prefix, num, r.domain) && r.num == Decimal.Value(num)
            case None => r.prefix == r.domain == "" && r.num == 0 && forall p, num, d :: !Splits(Line(name), p, num, d)
  {
    hide Run, IsDomain, Splits;
    var k := Close(1, NUMBER);
    var c := Captures(map[1 := 0], map[]);
    OpenPrefix(name);
    var p := StarStops(NameChar, true, k, name, 0, c);
    ClosePrefix(name, p);
    forall p', num', d' | Splits(Line(name), p', num', d')
      ensures Reach(NameChar, name, 0, |p'|) && Run(k, name, |p'|, c).Some?
    {
      SplitMatches(name, p', num', d');
      ClosePrefix(name, |p'|);
    }
    if Run(NUMBERED_NODE_RE, name, 0, NO_CAPTURES).Some? {
      var e := MatchSplits(name, p);
      var line := Line(name);
      SplitDigits(line, line[..p], line[p..e], line[e..]);
      LineSlice(name, 0, p);
      LineSlice(name, p, e);
      LineSlice(name, e, |line|);
      assert line[0..p] == line[..p] && line[e..|line|] == line[e..];
      assert NodeToParts(name).prefix == line[..p];
      assert NodeToParts(name).numStr == Some(line[p..e]);
      assert NodeToParts(name).domain == line[e..];
    }
  }

  lemma SplitDigits(name: string, p: string, num: string, d: string)
    requires Splits(name, p, num, d)
    ensures AllDigits(num)
  {
  }

  /** The split is unique: node_to_parts recovers the pieces a shortest split was made of. */
  lemma ShortestSplitUnique(name: string, p: string, num: string, d: string)
    requires ShortestSplit(Line(name), p, num, d)
    ensures NodeToParts(name) == NodeParts(p, d, Decimal.Value(num), Some(num), name)
  {
    NodeToPartsIsShortestSplit(name);
    var r := NodeToParts(name);
    assert Splits(Line(name), r.prefix, r.numStr.value, r.domain);
    SplitDeterminesRest(Line(name), p, num, d, r.numStr.value, r.domain);
  }

  /** The parts of a host name: letters up to the number, and after it nothing or a domain, which
      holds a letter or a hyphen. */
  lemma PartsOfHost(p: string, num: string, d: string)
    requires forall i :: 0 <= i < |p| ==> 'a' <= p[i] <= 'z' || 'A' <= p[i] <= 'Z' || p[i] in "-._"
    requires num != "" && AllDigits(num)
    requires d != "" ==>
               && d[0] == '.'
               && (forall i :: 0 <= i < |d| ==>
                     'a' <= d[i] <= 'z' || 'A' <= d[i] <= 'Z' || '0' <= d[i] <= '9' || d[i] in "-.")
               && exists i :: 0 <= i < |d| && ('a' <= d[i] <= 'z' || 'A' <= d[i] <= 'Z' || d[i] == '-')
    ensures NodeToParts(p + num + d) == NodeParts(p, d, Decimal.Value(num), Some(num), p + num + d)
    ensures ShortestSplit(p + num + d, p, num, d)
  {
    hide NodeToParts;
    var name := p + num + d;
    assert Splits(name, p, num, d);
    forall p', num', d' | Splits(name, p', num', d') ensures |p| <= |p'| {
      SplitShape(name, p', num', d');
      assert forall i :: 0 <= i < |p| ==> name[i] == p[i];
    }
    NoLineEnd(name);
    ShortestSplitUnique(name, p, num, d);
  }

  lemma NoLineEnd(name: string)
    requires name != "" && name[|name| - 1] != '\n'
    ensures Line(name) == name
  {
  }

  /** An address is split before its last number. */
  lemma PartsOfAddress(p: string, num: string)
    requires p != "" && p[|p| - 1] == '.' && forall i :: 0 <= i < |p| ==> '0' <= p[i] <= '9' || p[i] == '.'
    requires num != "" && AllDigits(num)
    ensures NodeToParts(p + num) == NodeParts(p, "", Decimal.Value(num), Some(num), p + num)
  {
    hide NodeToParts;
    var name := p + num;
    assert name == p + num + "";
    assert Splits(name, p, num, "");
    forall p', num', d' | Splits(name, p', num', d') ensures |p| <= |p'| {
      SplitShape(name, p', num', d');
      assert name[|p| - 1] == '.';
      assert forall i :: 0 <= i < |name| ==> name[i] == if i < |p| then p[i] else num[i - |p|];
    }
    NoLineEnd(name);
    ShortestSplitUnique(name, p, num, "");
  }

  /** After the prefix stands a digit; then digits only, unless a letter or hyphen comes. */
  lemma SplitShape(name: string, p: string, num: string, d: string)
    requires Splits(name, p, num, d)
    ensures |p| < |name| && IsDigit(name[|p|])
    ensures d == "" ==> forall i :: |p| <= i < |name| ==> IsDigit(name[i])
    ensures d != "" ==> exists i :: 0 <= i < |name| && In(HostLetter, name[i])
  {
    assert forall i :: 0 <= i < |num| ==> name[|p| + i] == num[i];
    if d != "" {
      var x :| 1 <= x < |d| && In(HostLetter, d[x]);
      assert name[|p| + |num| + x] == d[x];
    } else {
      forall i | |p| <= i < |name| ensures IsDigit(name[i]) {
        assert name[i] == num[i - |p|];
      }
    }
  }

  /** With the prefix fixed, the number is the whole run of digits. */
  lemma SplitDeterminesRest(name: string, p: string, num: string, d: string, num': string, d': string)
    requires Splits(name, p, num, d)
    requires exists p' :: |p'| == |p| && Splits(name, p', num', d')
    ensures num == num' && d == d' && name[..|p|] == p
  {
    hide IsDomain;
    var p' :| |p'| == |p| && Splits(name, p', num', d');
    DomainDot(d);
    DomainDot(d');
    assert name == p + (num + d) == p' + (num' + d');
    assert name[..|p|] == p == p';
    assert name[|p|..] == num + d == num' + d';
    DigitsNotLonger(num, d, num', d');
    DigitsNotLonger(num', d', num, d);
    assert (num + d)[..|num|] == num && (num' + d')[..|num|] == num';
    assert (num + d)[|num|..] == d && (num' + d')[|num|..] == d';
  }

  lemma DomainDot(d: string)
    ensures IsDomain(d) ==> d[0] == '.'
  {
  }

  lemma DigitsNotLonger(num: string, d: string, num': string, d': string)
    requires num + d == num' + d' && AllDigits(num) && AllDigits(num')
    requires d' == "" || d'[0] == '.'
    ensures |num| <= |num'|
  {
    var r := num + d;
    assert |num'| < |r| ==> r[|num'|] == (num' + d')[|num'|];
  }
}
