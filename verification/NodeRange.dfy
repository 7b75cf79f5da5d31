/** Reading "prefix num .. suffix domain" back (NODE_RE and rangeparts_from_hostname). */
module NodeRange {
  import opened Text
  import opened Pcre
  import opened NodeParts

  datatype RangeParts = RangeParts(prefix: string, first: string, last: string, domain: string)

  const TAIL := Close(6, End)
  const LAST_DOMAIN := Open(6, Cond(3, Ref(3, TAIL), Alt(One(Dot, Plus(HostChar, TAIL)), TAIL)))
  const LAST := Open(5, Plus(Digit, Close(5, LAST_DOMAIN)))
  const REPEAT := Alt(Ref(1, LAST), LAST)
  const SECOND_DOT := One(Dot, Close(4, REPEAT))
  const DOTS := Open(4, One(Dot, SECOND_DOT))
  const AFTER_FIRST := Alt(DomainThen(DOTS), DOTS)
  const AFTER_PREFIX := Close(1, Open(2, Plus(Digit, Close(2, AFTER_FIRST))))
  const NODE_RE := Open(1, Star(NameChar, true, AFTER_PREFIX))

  /** rangeparts_from_hostname; None where the source returns a null pointer. */
  function RangepartsFromHostname(hostname: string): Option<RangeParts> {
    var m := Run(NODE_RE, hostname, 0, NO_CAPTURES);
    if m.None? then None
    else
      var domain := if Substring(hostname, m.value, 3) != "" then Substring(hostname, m.value, 3)
                    else Substring(hostname, m.value, 6);
      Some(RangeParts(Substring(hostname, m.value, 1), Substring(hostname, m.value, 2),
                      Substring(hostname, m.value, 5), domain))
  }

  /** The printed form of a range of hosts. */
  function RangeText(p: string, num: string, x: string, d: string): string {
    p + num + ".." + x + d
  }

  function WithDots(c: Captures, t: nat): Captures {
    Captures(c.starts[4 := t], c.spans[4 := (t, t + 2)])
  }

  lemma DotsStep(s: string, t: nat, c: Captures)
    requires t <= |s|
    ensures Run(DOTS, s, t, c) == if DotsAt(s, t) then Run(REPEAT, s, t + 2, WithDots(c, t)) else None
  {
    var c4 := c.(starts := c.starts[4 := t]);
    assert Run(DOTS, s, t, c) == Run(One(Dot, SECOND_DOT), s, t, c4);
    if t < |s| {
      assert Run(SECOND_DOT, s, t + 1, c4)
          == if t + 1 < |s| && s[t + 1] == '.' then Run(Close(4, REPEAT), s, t + 2, c4) else None;
    }
  }

  lemma BeforeDots(s: string, e: nat, c: Captures) returns (t: nat)
    requires e <= |s|
    requires Run(AFTER_FIRST, s, e, c).Some?
    ensures e <= t && DotsAt(s, t)
    ensures t == e || IsDomain(s[e..t])
    ensures Run(AFTER_FIRST, s, e, c) == Run(DOTS, s, t, if t == e then c else WithDomain(c, e, t))
  {
    if Run(DomainThen(DOTS), s, e, c).Some? {
      t := DomainSound(DOTS, s, e, c);
    } else {
      t := e;
    }
    DotsStep(s, t, if t == e then c else WithDomain(c, e, t));
  }

  /** Whatever stands before the only "..", extended by d, splits at the matched positions. */
  lemma PrefixMatchSplits(s: string, q: nat, m: nat, d: string) returns (num: string, d': string)
    requires Reach(NameChar, s, 0, q) && m <= |s|
    requires OnlyDots(s, m)
    requires d == "" || IsDomain(d)
    requires Run(AFTER_PREFIX, s, q, Captures(map[1 := 0], map[])).Some?
    ensures Splits(s[..m] + d, s[..q], num, d')
  {
    hide IsDomain;
    assert Captures(map[1 := 0], map[]).spans[1 := (0, q)] == Prefixed(q).spans;
    var e := DigitsSound(AFTER_FIRST, s, q);
    var t := BeforeDots(s, e, NumberCaptures(q, e));
    NumberBeforeDots(s, q, e, t, m);
    num, d' := s[q..e], s[e..m] + d;
    assert s[..m] + d == s[..q] + num + d';
    if e < m {
      DomainsJoin(s[e..m], d);
    } else {
      assert d' == d;
    }
  }

  /** The number ends at the dots or at a domain that does. */
  lemma NumberBeforeDots(s: string, q: nat, e: nat, t: nat, m: nat)
    requires q < e && Reach(Digit, s, q, e) && e <= t && DotsAt(s, t) && OnlyDots(s, m)
    requires t == e || IsDomain(s[e..t])
    ensures e <= m && (e < m ==> IsDomain(s[e..m]))
  {
    if t == m + 1 && e <= m {
      var g := s[e..t];
      if IsDomain(g) {
        var x :| 1 <= x < |g| && In(HostLetter, g[x]);
        assert g[m - e] == s[m];
        assert forall y :: 0 <= y < m - e ==> s[e..m][y] == g[y];
        assert x < m - e;
      }
    }
  }

  lemma DomainsJoin(g: string, d: string)
    requires IsDomain(g) && (d == "" || IsDomain(d))
    ensures IsDomain(g + d)
  {
    var x :| 1 <= x < |g| && In(HostLetter, g[x]);
    assert (g + d)[x] == g[x];
    assert forall y :: 0 <= y < |g + d| ==> (g + d)[y] == if y < |g| then g[y] else d[y - |g|];
  }

  /** A host name without ".." is never read as a range. */
  lemma NoDotsNoRange(s: string)
    requires !HasDots(s)
    ensures RangepartsFromHostname(s).None?
  {
    var q := StarStops(NameChar, true, AFTER_PREFIX, s, 0, Captures(map[1 := 0], map[]));
    if Run(NODE_RE, s, 0, NO_CAPTURES).Some? {
      assert Captures(map[1 := 0], map[]).spans[1 := (0, q)] == Prefixed(q).spans;
      var e := DigitsSound(AFTER_FIRST, s, q);
      var t := BeforeDots(s, e, NumberCaptures(q, e));
    }
  }

  /** Captures after the last number x and the domain d that follows it. */
  function LastCaptures(c: Captures, i: nat, x: string, d: string): Captures {
    Captures(c.starts[5 := i][6 := i + |x|], c.spans[5 := (i, i + |x|)][6 := (i + |x|, i + |x| + |d|)])
  }

  lemma TailStep(s: string, j: nat, c: Captures)
    requires j <= |s| && 6 in c.starts
    ensures Run(TAIL, s, j, c)
         == if j == |s| || (j == |s| - 1 && s[j] == '\n') then Some(c.(spans := c.spans[6 := (c.starts[6], j)])) else None
  {
  }

  lemma DomainTail(s: string, j: nat, c: Captures)
    requires j <= |s| && 6 in c.starts && 3 !in c.spans
    requires s[j..] == "" || IsDomain(s[j..])
    ensures Run(Alt(One(Dot, Plus(HostChar, TAIL)), TAIL), s, j, c)
         == Some(c.(spans := c.spans[6 := (c.starts[6], |s|)]))
  {
    TailStep(s, j, c);
    if j < |s| {
      var d := s[j..];
      assert forall y :: j <= y < |s| ==> s[y] == d[y - j];
      var z := StarStops(HostChar, false, TAIL, s, j + 2, c);
      assert Reach(HostChar, s, j + 2, |s|);
      TailStep(s, |s|, c);
      TailStep(s, z, c);
      assert Run(Plus(HostChar, TAIL), s, j + 1, c) == Run(TAIL, s, z, c);
    }
  }

  lemma AfterLast(s: string, i: nat, j: nat, c: Captures)
    requires i < j <= |s| && 3 !in c.spans && (s[j..] == "" || IsDomain(s[j..]))
    ensures Run(Close(5, LAST_DOMAIN), s, j, c.(starts := c.starts[5 := i]))
         == Some(LastCaptures(c, i, s[i..j], s[j..]))
  {
    hide IsDomain;
    var c6 := Captures(c.starts[5 := i][6 := j], c.spans[5 := (i, j)]);
    DomainTail(s, j, c6);
    var inner := Cond(3, Ref(3, TAIL), Alt(One(Dot, Plus(HostChar, TAIL)), TAIL));
    var c5 := c.(starts := c.starts[5 := i]);
    assert Run(Close(5, LAST_DOMAIN), s, j, c5) == Run(LAST_DOMAIN, s, j, c5.(spans := c6.spans));
    assert Run(LAST_DOMAIN, s, j, c5.(spans := c6.spans)) == Run(inner, s, j, c6);
    assert c6.(spans := c6.spans[6 := (j, |s|)]) == LastCaptures(c, i, s[i..j], s[j..]);
  }

  lemma LastMatches(s: string, i: nat, c: Captures, x: string, d: string)
    requires i <= |s| && s[i..] == x + d
    requires x != "" && AllDigits(x) && (d == "" || IsDomain(d))
    requires 3 !in c.spans
    ensures Run(LAST, s, i, c) == Some(LastCaptures(c, i, x, d))
  {
    hide IsDomain, Run;
    DomainDot(d);
    var c5 := c.(starts := c.starts[5 := i]);
    var j := i + |x|;
    assert forall y :: i <= y < |s| ==> s[y] == (x + d)[y - i];
    assert s[i..j] == x && s[j..] == d;
    AfterLast(s, i, j, c);
    LastDigits(s, i, j, c5);
    LastStep(s, i, c);
  }

  lemma LastStep(s: string, i: nat, c: Captures)
    requires i < |s| && IsDigit(s[i])
    ensures Run(LAST, s, i, c)
         == Run(Star(Digit, false, Close(5, LAST_DOMAIN)), s, i + 1, c.(starts := c.starts[5 := i]))
  {
  }

  /** The whole run of digits is the last number. */
  lemma LastDigits(s: string, i: nat, j: nat, c: Captures)
    requires i < j <= |s| && Reach(Digit, s, i, j) && (j < |s| ==> s[j] == '.')
    requires 5 in c.starts && 3 !in c.spans
    requires Run(Close(5, LAST_DOMAIN), s, j, c).Some?
    ensures Run(Star(Digit, false, Close(5, LAST_DOMAIN)), s, i + 1, c) == Run(Close(5, LAST_DOMAIN), s, j, c)
  {
    hide Run;
    var k := Close(5, LAST_DOMAIN);
    var z := StarStops(Digit, false, k, s, i + 1, c);
    assert Reach(Digit, s, i + 1, j);
  }

  /** A name that began with its own repeated prefix would split without any prefix. */
  lemma RepeatSplits(name: string, p: string, num: string, d: string, x: string) returns (num': string, d': string)
    requires Splits(name, p, num, d)
    requires p <= x + d && AllDigits(x) && x != ""
    ensures Splits(name, "", num', d')
  {
    var y := x + d;
    assert forall i :: 0 <= i < |p| ==> p[i] == y[i];
    if |p| <= |x| {
      num', d' := p + num, d;
      assert name == "" + (p + num) + d;
    } else {
      var d1 := d[..|p| - |x|];
      assert p == x + d1;
      num', d' := x, d1 + num + d;
      var z :| 1 <= z < |d| && In(HostLetter, d[z]);
      assert d'[|d1| + |num| + z] == d[z];
      assert name == "" + x + d';
    }
  }

  /** The repeated prefix \1? consumes nothing: after "..", the text never begins with p. */
  lemma PrefixNotRepeated(name: string, p: string, num: string, d: string, x: string)
    requires ShortestSplit(name, p, num, d)
    requires p != "" && AllDigits(x) && x != ""
    ensures !(p <= x + d)
  {
    hide Splits;
    if p <= x + d {
      var num', d' := RepeatSplits(name, p, num, d, x);
    }
  }

  /** ".." stands at m and nowhere else, except that a third dot may follow. */
  ghost predicate OnlyDots(s: string, m: nat) {
    DotsAt(s, m) && forall t :: DotsAt(s, t) ==> t == m || t == m + 1
  }

  /** The dots of a printed range are the only dots in it. */
  lemma RangeDots(name: string, p: string, num: string, d: string, x: string)
    requires Splits(name, p, num, d) && !HasDots(name)
    requires AllDigits(x) && x != ""
    ensures OnlyDots(RangeText(p, num, x, d), |p| + |num|)
  {
    var s := RangeText(p, num, x, d);
    var m := |p| + |num|;
    assert |s| == m + 2 + |x| + |d| && |name| == m + |d|;
    assert forall y :: 0 <= y < m ==> s[y] == name[y];
    assert forall y :: m + 2 + |x| <= y < |s| ==> s[y] == d[y - m - 2 - |x|] == name[y - 2 - |x|];
    assert forall y :: m + 2 <= y < m + 2 + |x| ==> s[y] == x[y - m - 2];
    assert s[m - 1] == num[|num| - 1];
    NoDotsWithin(name, s, 0, m, 0);
    NoDotsWithin(name, s, m + 2 + |x|, |s|, 2 + |x|);
  }

  /** The characters of s from a to b are those of the name, moved by shift. */
  predicate TakenOver(name: string, s: string, a: nat, b: nat, shift: int) {
    b <= |s| && forall y :: a <= y < b ==> 0 <= y - shift < |name| && s[y] == name[y - shift]
  }

  /** Text taken over from a name without ".." has none. */
  lemma NoDotsWithin(name: string, s: string, a: nat, b: nat, shift: int)
    requires !HasDots(name) && TakenOver(name, s, a, b, shift)
    ensures forall t :: a <= t && t + 1 < b ==> !DotsAt(s, t)
  {
    forall t | a <= t && t + 1 < b ensures !DotsAt(s, t) {
      var first, second := s[t], s[t + 1];
      assert first == name[t - shift] && second == name[t + 1 - shift];
      assert !DotsAt(name, t - shift);
    }
  }

  lemma RepeatSkipped(s: string, i: nat, c: Captures, p: string)
    requires i <= |s|
    requires p <= s && 1 in c.spans && c.spans[1] == (0, |p|)
    requires p != "" ==> !(p <= s[i..])
    ensures Run(REPEAT, s, i, c) == Run(LAST, s, i, c)
  {
    assert s[0..|p|] == p;
    if p != "" {
      assert i + |p| <= |s| ==> s[i..i + |p|] == s[i..][..|p|];
      assert Run(Ref(1, LAST), s, i, c).None?;
    }
  }

  lemma DotsMatch(s: string, m: nat, p: string, x: string, d: string)
    requires |p| <= m && p <= s && DotsAt(s, m) && s[m + 2..] == x + d
    requires x != "" && AllDigits(x) && (d == "" || IsDomain(d))
    requires p != "" ==> !(p <= x + d)
    ensures Run(DOTS, s, m, NumberCaptures(|p|, m))
         == Some(LastCaptures(WithDots(NumberCaptures(|p|, m), m), m + 2, x, d))
  {
    hide Run, IsDomain;
    var c := NumberCaptures(|p|, m);
    DotsStep(s, m, c);
    LastMatches(s, m + 2, WithDots(c, m), x, d);
    RepeatSkipped(s, m + 2, WithDots(c, m), p);
  }

  lemma NumberThenDots(s: string, a: nat, m: nat)
    requires a < m <= |s| && Reach(Digit, s, a, m)
    requires OnlyDots(s, m) && Run(DOTS, s, m, NumberCaptures(a, m)).Some?
    ensures Run(AFTER_PREFIX, s, a, Captures(map[1 := 0], map[])) == Run(DOTS, s, m, NumberCaptures(a, m))
  {
    hide IsDomain;
    assert Captures(map[1 := 0], map[]).spans[1 := (0, a)] == Prefixed(a).spans;
    DigitsComplete(AFTER_FIRST, s, a, m);
    var e := DigitsSound(AFTER_FIRST, s, a);
    var t := BeforeDots(s, e, NumberCaptures(a, e));
    NumberBeforeDots(s, a, e, t, m);
    WholeNumber(s, a, e, t, m);
  }

  /** Where only digits stand before the dots, the number ends at them. */
  lemma WholeNumber(s: string, a: nat, e: nat, t: nat, m: nat)
    requires a < e <= m && Reach(Digit, s, a, m) && e <= t <= |s| && (t == m || t == m + 1)
    requires t == e || IsDomain(s[e..t])
    requires e < m ==> IsDomain(s[e..m])
    ensures e == m && t == m
  {
    hide IsDomain;
    DigitNoDomain(s, e, m);
    ShortNoDomain(s, e, t);
  }

  lemma DigitNoDomain(s: string, e: nat, m: nat)
    ensures e < m <= |s| && IsDigit(s[e]) ==> !IsDomain(s[e..m])
  {
  }

  lemma ShortNoDomain(s: string, e: nat, t: nat)
    ensures e <= t <= |s| && t <= e + 1 ==> !IsDomain(s[e..t])
  {
  }

  /** Every prefix shorter than the name's own fails: it would split the name earlier. */
  lemma NoShorterPrefix(name: string, s: string, p: string, num: string, d: string, q: nat)
    requires ShortestSplit(name, p, num, d) && q < |p|
    requires |p| + |num| <= |s| && s[..|p| + |num|] == p + num && OnlyDots(s, |p| + |num|)
    ensures Run(AFTER_PREFIX, s, q, Captures(map[1 := 0], map[])).None?
  {
    var m := |p| + |num|;
    assert forall y :: 0 <= y < |p| ==> s[y] == s[..m][y] == p[y];
    assert s[..q] == p[..q];
    if Run(AFTER_PREFIX, s, q, Captures(map[1 := 0], map[])).Some? {
      assert s[..m] + d == name;
      var num', d' := PrefixMatchSplits(s, q, m, d);
    }
  }

  lemma OpenName(s: string)
    ensures Run(NODE_RE, s, 0, NO_CAPTURES)
         == Run(Star(NameChar, true, AFTER_PREFIX), s, 0, Captures(map[1 := 0], map[]))
  {
  }

  /** A text that begins with a name's prefix and number, and matches from its only "..", matches
      with exactly that prefix and number. */
  lemma WholeMatch(name: string, s: string, p: string, num: string, d: string, caps: Captures)
    requires ShortestSplit(name, p, num, d)
    requires |p| + |num| <= |s| && s[..|p| + |num|] == p + num && OnlyDots(s, |p| + |num|)
    requires Run(DOTS, s, |p| + |num|, NumberCaptures(|p|, |p| + |num|)) == Some(caps)
    ensures Run(NODE_RE, s, 0, NO_CAPTURES) == Some(caps)
  {
    hide Run, IsDomain, Splits;
    var m := |p| + |num|;
    var c := Captures(map[1 := 0], map[]);
    NumberIsDigits(name, p, num, d);
    PrefixReached(s, p, num);
    NumberThenDots(s, |p|, m);
    OpenName(s);
    var q := StarStops(NameChar, true, AFTER_PREFIX, s, 0, c);
    if q < |p| {
      NoShorterPrefix(name, s, p, num, d, q);
    }
  }

  lemma NumberIsDigits(name: string, p: string, num: string, d: string)
    requires ShortestSplit(name, p, num, d)
    ensures num != "" && AllDigits(num) && AllIn(NameChar, p)
  {
  }

  lemma PrefixReached(s: string, p: string, num: string)
    requires |p| + |num| <= |s| && s[..|p| + |num|] == p + num && AllDigits(num)
    ensures Reach(Digit, s, |p|, |p| + |num|)
    ensures AllIn(NameChar, p) ==> Reach(NameChar, s, 0, |p|)
  {
    var m := |p| + |num|;
    assert forall y :: 0 <= y < m ==> s[y] == s[..m][y];
  }

  lemma RangeTextPieces(p: string, num: string, x: string, d: string)
    ensures var s := RangeText(p, num, x, d);
            var m := |p| + |num|;
            m + 2 <= |s| && s[..m] == p + num && s[..|p|] == p && s[m + 2..] == x + d
  {
    assert RangeText(p, num, x, d) == p + num + ".." + (x + d);
  }

  lemma RangeTextRuns(name: string, s: string, p: string, num: string, d: string, x: string)
    requires ShortestSplit(name, p, num, d) && !HasDots(name)
    requires AllDigits(x) && x != "" && s == RangeText(p, num, x, d)
    ensures var m := |p| + |num|;
            Run(NODE_RE, s, 0, NO_CAPTURES)
              == Some(LastCaptures(WithDots(NumberCaptures(|p|, m), m), m + 2, x, d))
  {
    hide Run, IsDomain;
    var m := |p| + |num|;
    RangeTextPieces(p, num, x, d);
    RangeDots(name, p, num, d, x);
    if p != "" {
      PrefixNotRepeated(name, p, num, d, x);
    }
    DotsMatch(s, m, p, x, d);
    WholeMatch(name, s, p, num, d, LastCaptures(WithDots(NumberCaptures(|p|, m), m), m + 2, x, d));
  }

  lemma CapturedSpans(a: nat, m: nat, i: nat, x: string, d: string)
    ensures var spans := LastCaptures(WithDots(NumberCaptures(a, m), m), i, x, d).spans;
            && 1 in spans && spans[1] == (0, a) && 2 in spans && spans[2] == (a, m) && 3 !in spans
            && 5 in spans && spans[5] == (i, i + |x|) && 6 in spans && spans[6] == (i + |x|, i + |x| + |d|)
  {
  }

  /** p, num, x and d stand where the captures of a range begin and end. */
  predicate PiecesAt(s: string, p: string, num: string, i: nat, x: string, d: string) {
    && |p| + |num| <= i && i + |x| + |d| == |s|
    && s[0..|p|] == p && s[|p|..|p| + |num|] == num
    && s[i..i + |x|] == x && s[i + |x|..|s|] == d
  }

  lemma Pieces(s: string, p: string, num: string, i: nat, x: string, d: string)
    requires |p| + |num| <= i <= |s| && s[..|p| + |num|] == p + num && s[i..] == x + d
    ensures PiecesAt(s, p, num, i, x, d)
  {
    var m := |p| + |num|;
    assert s[0..|p|] == s[..m][..|p|] && s[|p|..m] == s[..m][|p|..];
    assert s[i..i + |x|] == s[i..][..|x|] && s[i + |x|..|s|] == s[i..][|x|..];
  }

  lemma ReadPieces(s: string, c: Captures, p: string, num: string, i: nat, x: string, d: string)
    requires PiecesAt(s, p, num, i, x, d) && Run(NODE_RE, s, 0, NO_CAPTURES) == Some(c)
    requires 1 in c.spans && c.spans[1] == (0, |p|) && 2 in c.spans && c.spans[2] == (|p|, |p| + |num|) && 3 !in c.spans
    requires 5 in c.spans && c.spans[5] == (i, i + |x|) && 6 in c.spans && c.spans[6] == (i + |x|, i + |x| + |d|)
    ensures RangepartsFromHostname(s) == Some(RangeParts(p, num, x, d))
  {
    hide Run;
  }

  /** The pieces between the captured positions are what is read. */
  lemma CapturesRead(s: string, p: string, num: string, i: nat, x: string, d: string)
    requires PiecesAt(s, p, num, i, x, d)
    requires var m := |p| + |num|;
             Run(NODE_RE, s, 0, NO_CAPTURES)
               == Some(LastCaptures(WithDots(NumberCaptures(|p|, m), m), i, x, d))
    ensures RangepartsFromHostname(s) == Some(RangeParts(p, num, x, d))
  {
    hide *;
    var m := |p| + |num|;
    CapturedSpans(|p|, m, i, x, d);
    ReadPieces(s, LastCaptures(WithDots(NumberCaptures(|p|, m), m), i, x, d), p, num, i, x, d);
  }

  /** Split uniqueness: NODE_RE reads the printed range of a name back into the very pieces
      NUMBERED_NODE_RE split that name into. */
  lemma RangeTextReadsBack(name: string, p: string, num: string, d: string, x: string)
    requires ShortestSplit(name, p, num, d) && !HasDots(name)
    requires AllDigits(x) && x != ""
    ensures RangepartsFromHostname(RangeText(p, num, x, d)) == Some(RangeParts(p, num, x, d))
  {
    hide Run, ShortestSplit, RangepartsFromHostname, RangeText;
    var s := RangeText(p, num, x, d);
    RangeTextRuns(name, s, p, num, d, x);
    RangeTextPieces(p, num, x, d);
    Pieces(s, p, num, |p| + |num| + 2, x, d);
    CapturesRead(s, p, num, |p| + |num| + 2, x, d);
  }

  /** A range of hosts with letters up to the number, and nothing or a domain after it. */
  lemma RangeOfHosts(p: string, num: string, x: string, d: string)
    requires forall i :: 0 <= i < |p| ==> 'a' <= p[i] <= 'z' || 'A' <= p[i] <= 'Z' || p[i] in "-._"
    requires num != "" && AllDigits(num)
    requires d != "" ==>
               && d[0] == '.'
               && (forall i :: 0 <= i < |d| ==>
                     'a' <= d[i] <= 'z' || 'A' <= d[i] <= 'Z' || '0' <= d[i] <= '9' || d[i] in "-.")
               && exists i :: 0 <= i < |d| && ('a' <= d[i] <= 'z' || 'A' <= d[i] <= 'Z' || d[i] == '-')
    requires x != "" && AllDigits(x) && !HasDots(p + num + d)
    ensures RangepartsFromHostname(p + num + ".." + x + d) == Some(RangeParts(p, num, x, d))
  {
    hide ShortestSplit, RangepartsFromHostname;
    PartsOfHost(p, num, d);
    RangeTextReadsBack(p + num + d, p, num, d, x);
  }

  // The prefix may be repeated after the dots.

  function RepeatText(p: string, num: string, x: string, d: string): string {
    p + num + ".." + p + x + d
  }

  lemma RepeatPieces(p: string, num: string, x: string, d: string)
    ensures var s := RepeatText(p, num, x, d);
            var m := |p| + |num|;
            && m + 2 + |p| <= |s| && s[..m] == p + num && s[..|p|] == p
            && s[m + 2..m + 2 + |p|] == p && s[m + 2 + |p|..] == x + d
  {
    assert RepeatText(p, num, x, d) == p + num + ".." + p + (x + d);
  }

  lemma RepeatCharacters(p: string, num: string, x: string, d: string)
    ensures var s := RepeatText(p, num, x, d);
            var name := p + num + d;
            var m := |p| + |num|;
            var n := m + 2 + |p|;
            && |s| == n + |x| + |d| && |name| == m + |d|
            && s[m] == '.' && s[m + 1] == '.' && (m > 0 ==> s[m - 1] == name[m - 1])
            && (forall y :: n <= y < n + |x| ==> s[y] == x[y - n])
            && TakenOver(name, s, 0, m, 0) && TakenOver(name, s, m + 2, n, m + 2)
            && TakenOver(name, s, n + |x|, |s|, n + |x| - m)
  {
    var before := p + num;
    assert RepeatText(p, num, x, d) == before + ".." + (p + (x + d));
  }

  lemma RepeatDots(name: string, p: string, num: string, d: string, x: string)
    requires Splits(name, p, num, d) && !HasDots(name)
    requires AllDigits(x) && x != ""
    ensures OnlyDots(RepeatText(p, num, x, d), |p| + |num|)
  {
    hide RepeatText, IsDomain, HasDots, DotsAt, OnlyDots, TakenOver;
    var s := RepeatText(p, num, x, d);
    var m := |p| + |num|;
    var n := m + 2 + |p|;
    RepeatCharacters(p, num, x, d);
    assert s[m - 1] == name[m - 1] == num[|num| - 1];
    NoDotsWithin(name, s, 0, m, 0);
    NoDotsWithin(name, s, m + 2, n, m + 2);
    NoDotsWithin(name, s, n + |x|, |s|, n + |x| - m);
    DotsBetween(s, m, n, n + |x|);
  }

  lemma DotsBetween(s: string, m: nat, n: nat, k: nat)
    requires 0 < m && m + 2 <= n < k <= |s|
    requires IsDigit(s[m - 1]) && s[m] == '.' && s[m + 1] == '.'
    requires forall y :: n <= y < k ==> IsDigit(s[y])
    requires forall t :: 0 <= t && t + 1 < m ==> !DotsAt(s, t)
    requires forall t :: m + 2 <= t && t + 1 < n ==> !DotsAt(s, t)
    requires forall t :: k <= t && t + 1 < |s| ==> !DotsAt(s, t)
    ensures OnlyDots(s, m)
  {
    assert IsDigit(s[n]) && IsDigit(s[k - 1]);
  }

  lemma RepeatTaken(s: string, i: nat, c: Captures, p: string, x: string, d: string)
    requires i + |p| <= |s| && s[i..i + |p|] == p && s[i + |p|..] == x + d && p <= s
    requires 1 in c.spans && c.spans[1] == (0, |p|) && 3 !in c.spans
    requires x != "" && AllDigits(x) && (d == "" || IsDomain(d))
    ensures Run(REPEAT, s, i, c) == Some(LastCaptures(c, i + |p|, x, d))
  {
    hide IsDomain;
    LastMatches(s, i + |p|, c, x, d);
    assert s[0..|p|] == p;
    assert Run(Ref(1, LAST), s, i, c) == Run(LAST, s, i + |p|, c);
  }

  /** A repeated prefix changes nothing: node1..node4 is read as node1..4 is. */
  lemma RepeatedPrefixReadsBack(name: string, p: string, num: string, d: string, x: string)
    requires ShortestSplit(name, p, num, d) && !HasDots(name)
    requires AllDigits(x) && x != ""
    ensures RangepartsFromHostname(RepeatText(p, num, x, d)) == Some(RangeParts(p, num, x, d))
    ensures RangepartsFromHostname(RepeatText(p, num, x, d)) == RangepartsFromHostname(RangeText(p, num, x, d))
  {
    hide Run, ShortestSplit, RangepartsFromHostname, RepeatText;
    RangeTextReadsBack(name, p, num, d, x);
    var s := RepeatText(p, num, x, d);
    RepeatRuns(name, s, p, num, d, x);
    RepeatPieces(p, num, x, d);
    Pieces(s, p, num, |p| + |num| + 2 + |p|, x, d);
    CapturesRead(s, p, num, |p| + |num| + 2 + |p|, x, d);
  }

  lemma RepeatRuns(name: string, s: string, p: string, num: string, d: string, x: string)
    requires ShortestSplit(name, p, num, d) && !HasDots(name)
    requires AllDigits(x) && x != "" && s == RepeatText(p, num, x, d)
    ensures var m := |p| + |num|;
            Run(NODE_RE, s, 0, NO_CAPTURES)
              == Some(LastCaptures(WithDots(NumberCaptures(|p|, m), m), m + 2 + |p|, x, d))
  {
    hide Run, IsDomain;
    var m := |p| + |num|;
    var c := NumberCaptures(|p|, m);
    RepeatPieces(p, num, x, d);
    RepeatDots(name, p, num, d, x);
    DotsStep(s, m, c);
    RepeatTaken(s, m + 2, WithDots(c, m), p, x, d);
    WholeMatch(name, s, p, num, d, LastCaptures(WithDots(c, m), m + 2 + |p|, x, d));
  }
}
