/** Which texts NODE_RE matches, and what rangeparts_from_hostname reads from them. */
module NodeReMatch {
  import opened Text
  import opened Pcre
  import opened NodeParts
  import opened NodeRange

  /** The domain after the last number: the first domain again, or, without one, any domain. */
  predicate LastDomain(d: string, d2: string) {
    if d != "" then d2 == d
    else d2 == "" || (|d2| > 1 && d2[0] == '.' && AllIn(HostChar, d2))
  }

  /** A range: prefix, number, domain, "..", the prefix again or nothing, last number, last domain. */
  predicate RangeSplits(line: string, p: string, num: string, d: string, again: string, x: string, d2: string) {
    && line == p + num + d + ".." + again + x + d2
    && AllIn(NameChar, p)
    && num != "" && AllDigits(num)
    && (d == "" || IsDomain(d))
    && (again == "" || again == p)
    && x != "" && AllDigits(x)
    && LastDomain(d, d2)
  }

  // Every match is a split.

  /** Where $ matches. */
  predicate AtEnd(s: string, f: int) {
    f == |s| || (0 <= f == |s| - 1 && s[f] == '\n')
  }

  predicate GroupAt(s: string, c: Captures, group: nat) {
    group in c.spans && c.spans[group].0 <= c.spans[group].1 <= |s|
  }

  const SOME_DOMAIN := One(Dot, Plus(HostChar, TAIL))

  lemma SomeDomainSound(s: string, j: nat, c: Captures) returns (f: nat)
    requires j <= |s| && 6 in c.starts && Run(Alt(SOME_DOMAIN, TAIL), s, j, c).Some?
    ensures j <= f <= |s| && LastDomain("", s[j..f])
    ensures Run(Alt(SOME_DOMAIN, TAIL), s, j, c) == Run(TAIL, s, f, c)
  {
    f := j;
    if Run(SOME_DOMAIN, s, j, c).Some? {
      assert Run(SOME_DOMAIN, s, j, c) == Run(Plus(HostChar, TAIL), s, j + 1, c);
      assert Run(Plus(HostChar, TAIL), s, j + 1, c) == Run(Star(HostChar, false, TAIL), s, j + 2, c);
      f := StarStops(HostChar, false, TAIL, s, j + 2, c);
    }
  }

  lemma LastDomainSteps(s: string, j: nat, c: Captures)
    requires j <= |s| && (3 in c.spans ==> GroupAt(s, c, 3))
    ensures var c6 := c.(starts := c.starts[6 := j]);
            Run(LAST_DOMAIN, s, j, c)
              == if 3 !in c.spans then Run(Alt(SOME_DOMAIN, TAIL), s, j, c6)
                 else
                   var g := Substring(s, c, 3);
                   if j + |g| <= |s| && s[j..j + |g|] == g then Run(TAIL, s, j + |g|, c6) else None
  {
    var c6 := c.(starts := c.starts[6 := j]);
    var inner := Cond(3, Ref(3, TAIL), Alt(SOME_DOMAIN, TAIL));
    assert Run(LAST_DOMAIN, s, j, c) == Run(inner, s, j, c6);
    if 3 in c.spans {
      assert Run(inner, s, j, c6) == Run(Ref(3, TAIL), s, j, c6);
    } else {
      assert Run(inner, s, j, c6) == Run(Alt(SOME_DOMAIN, TAIL), s, j, c6);
    }
  }

  lemma LastDomainSound(s: string, j: nat, c: Captures) returns (f: nat)
    requires j <= |s| && Run(LAST_DOMAIN, s, j, c).Some?
    requires 3 in c.spans ==> GroupAt(s, c, 3)
    ensures j <= f <= |s| && AtEnd(s, f)
    ensures Run(LAST_DOMAIN, s, j, c) == Some(Captures(c.starts[6 := j], c.spans[6 := (j, f)]))
    ensures 3 in c.spans ==> s[j..f] == Substring(s, c, 3)
    ensures 3 !in c.spans ==> LastDomain("", s[j..f])
  {
    hide Run, LastDomain;
    var c6 := c.(starts := c.starts[6 := j]);
    LastDomainSteps(s, j, c);
    if 3 in c.spans {
      f := j + |Substring(s, c, 3)|;
    } else {
      f := SomeDomainSound(s, j, c6);
    }
    TailStep(s, f, c6);
  }

  lemma LastSound(s: string, i: nat, c: Captures) returns (j: nat, f: nat)
    requires i <= |s| && Run(LAST, s, i, c).Some?
    requires 3 in c.spans ==> GroupAt(s, c, 3)
    ensures i < j <= f <= |s| && Reach(Digit, s, i, j) && AtEnd(s, f)
    ensures Run(LAST, s, i, c) == Some(LastCaptures(c, i, s[i..j], s[j..f]))
    ensures 3 in c.spans ==> s[j..f] == Substring(s, c, 3)
    ensures 3 !in c.spans ==> LastDomain("", s[j..f])
  {
    hide AtEnd, LastDomain;
    var c5 := c.(starts := c.starts[5 := i]);
    j := StarStops(Digit, false, Close(5, LAST_DOMAIN), s, i + 1, c5);
    var c5' := c5.(spans := c5.spans[5 := (i, j)]);
    f := LastDomainSound(s, j, c5');
  }

  lemma RepeatSound(s: string, i: nat, c: Captures) returns (a: nat)
    requires i <= |s| && Run(REPEAT, s, i, c).Some? && GroupAt(s, c, 1)
    ensures i <= a <= |s| && Run(REPEAT, s, i, c) == Run(LAST, s, a, c)
    ensures a == i || s[i..a] == Substring(s, c, 1)
  {
    a := if Run(Ref(1, LAST), s, i, c).Some? then i + (c.spans[1].1 - c.spans[1].0) else i;
  }

  /** What has been captured before the dots: prefix, number and, if it is not empty, a domain. */
  function Before(q: nat, e: nat, t: nat): Captures {
    if t == e then NumberCaptures(q, e) else WithDomain(NumberCaptures(q, e), e, t)
  }

  /** Where a match of NODE_RE with a prefix of q characters ends its pieces. */
  predicate MatchAt(s: string, q: nat, e: nat, t: nat, a: nat, j: nat, f: nat) {
    && q < e <= t && t + 2 <= a < j <= f <= |s| && AtEnd(s, f)
    && Reach(Digit, s, q, e) && (t == e || IsDomain(s[e..t]))
    && DotsAt(s, t) && (a == t + 2 || s[t + 2..a] == s[0..q])
    && Reach(Digit, s, a, j) && LastDomain(s[e..t], s[j..f])
  }

  lemma MatchSound(s: string, q: nat) returns (e: nat, t: nat, a: nat, j: nat, f: nat)
    requires q <= |s| && Run(AFTER_PREFIX, s, q, Captures(map[1 := 0], map[])).Some?
    ensures MatchAt(s, q, e, t, a, j, f)
    ensures Run(AFTER_PREFIX, s, q, Captures(map[1 := 0], map[]))
         == Some(LastCaptures(WithDots(Before(q, e, t), t), a, s[a..j], s[j..f]))
  {
    hide IsDomain, AtEnd;
    assert Captures(map[1 := 0], map[]).spans[1 := (0, q)] == Prefixed(q).spans;
    e := DigitsSound(AFTER_FIRST, s, q);
    t := BeforeDots(s, e, NumberCaptures(q, e));
    var c := WithDots(Before(q, e, t), t);
    DotsStep(s, t, Before(q, e, t));
    a := RepeatSound(s, t + 2, c);
    j, f := LastSound(s, a, c);
    assert t == e ==> s[e..t] == "";
    assert t != e ==> Substring(s, c, 3) == s[e..t];
    assert Substring(s, c, 1) == s[0..q];
  }

  lemma EndOfLine(s: string, f: nat)
    requires 0 < f <= |s| && AtEnd(s, f) && s[f - 1] != '\n'
    ensures f == |Line(s)|
  {
  }

  lemma LastCharacter(s: string, q: nat, e: nat, t: nat, a: nat, j: nat, f: nat)
    requires MatchAt(s, q, e, t, a, j, f)
    ensures s[f - 1] != '\n'
  {
    if j < f {
      assert s[j..f][f - 1 - j] == s[f - 1];
    }
  }

  lemma CutInSeven(s: string, q: nat, e: nat, t: nat, a: nat, j: nat, f: nat)
    requires q <= e <= t && t + 2 <= a <= j <= f <= |s| && DotsAt(s, t)
    ensures s[..f] == s[..q] + s[q..e] + s[e..t] + ".." + s[t + 2..a] + s[a..j] + s[j..f]
  {
    assert s[..f] == s[..j] + s[j..f];
    assert s[..j] == s[..a] + s[a..j];
    assert s[..a] == s[..t + 2] + s[t + 2..a];
    assert s[..t + 2] == s[..t] + "..";
    assert s[..t] == s[..e] + s[e..t];
    assert s[..e] == s[..q] + s[q..e];
  }

  lemma MatchPieces(s: string, q: nat, e: nat, t: nat, a: nat, j: nat, f: nat)
    requires Reach(NameChar, s, 0, q) && MatchAt(s, q, e, t, a, j, f)
    ensures AllIn(NameChar, s[..q]) && s[q..e] != "" && AllDigits(s[q..e])
    ensures s[e..t] == "" || IsDomain(s[e..t])
    ensures s[t + 2..a] == "" || s[t + 2..a] == s[..q]
    ensures s[a..j] != "" && AllDigits(s[a..j]) && LastDomain(s[e..t], s[j..f])
  {
    hide IsDomain, LastDomain;
    assert s[0..q] == s[..q];
  }

  lemma MatchIsSplit(s: string, q: nat, e: nat, t: nat, a: nat, j: nat, f: nat)
    requires Reach(NameChar, s, 0, q) && MatchAt(s, q, e, t, a, j, f)
    ensures f == |Line(s)|
    ensures RangeSplits(Line(s), s[..q], s[q..e], s[e..t], s[t + 2..a], s[a..j], s[j..f])
  {
    hide IsDomain, LastDomain, AllIn, AllDigits, AtEnd;
    LastCharacter(s, q, e, t, a, j, f);
    EndOfLine(s, f);
    CutInSeven(s, q, e, t, a, j, f);
    MatchPieces(s, q, e, t, a, j, f);
  }

  // Every split is matched.

  lemma LastDomainComplete(s: string, j: nat, f: nat, c: Captures)
    requires j <= f <= |s| && AtEnd(s, f)
    requires 3 in c.spans ==> GroupAt(s, c, 3) && s[j..f] == Substring(s, c, 3)
    requires 3 !in c.spans ==> LastDomain("", s[j..f])
    ensures Run(LAST_DOMAIN, s, j, c).Some?
  {
    hide Run;
    var c6 := c.(starts := c.starts[6 := j]);
    LastDomainSteps(s, j, c);
    TailStep(s, f, c6);
    if 3 !in c.spans {
      SomeDomainComplete(s, j, f, c6);
    }
  }

  lemma SomeDomainComplete(s: string, j: nat, f: nat, c: Captures)
    requires j <= f <= |s| && LastDomain("", s[j..f]) && Run(TAIL, s, f, c).Some?
    ensures Run(Alt(SOME_DOMAIN, TAIL), s, j, c).Some?
  {
    if j < f {
      assert forall y :: j <= y < f ==> s[j..f][y - j] == s[y];
      StarReaches(HostChar, false, TAIL, s, j + 2, f, c);
      assert Run(Plus(HostChar, TAIL), s, j + 1, c) == Run(Star(HostChar, false, TAIL), s, j + 2, c);
      assert Run(SOME_DOMAIN, s, j, c) == Run(Plus(HostChar, TAIL), s, j + 1, c);
    }
  }

  lemma LastComplete(s: string, a: nat, j: nat, f: nat, c: Captures)
    requires a < j <= f <= |s| && Reach(Digit, s, a, j) && AtEnd(s, f)
    requires 3 in c.spans ==> GroupAt(s, c, 3) && s[j..f] == Substring(s, c, 3)
    requires 3 !in c.spans ==> LastDomain("", s[j..f])
    ensures Run(LAST, s, a, c).Some?
  {
    hide AtEnd, LastDomain;
    var c5 := c.(starts := c.starts[5 := a]);
    var c5' := c5.(spans := c5.spans[5 := (a, j)]);
    LastDomainComplete(s, j, f, c5');
    assert Run(Close(5, LAST_DOMAIN), s, j, c5) == Run(LAST_DOMAIN, s, j, c5');
    StarReaches(Digit, false, Close(5, LAST_DOMAIN), s, a + 1, j, c5);
    LastStep(s, a, c);
  }

  lemma RepeatComplete(s: string, i: nat, a: nat, c: Captures)
    requires i <= a <= |s| && GroupAt(s, c, 1) && (a == i || s[i..a] == Substring(s, c, 1))
    requires Run(LAST, s, a, c).Some?
    ensures Run(REPEAT, s, i, c).Some?
  {
  }

  lemma MatchComplete(s: string, q: nat, e: nat, t: nat, a: nat, j: nat, f: nat)
    requires MatchAt(s, q, e, t, a, j, f)
    ensures Run(AFTER_PREFIX, s, q, Captures(map[1 := 0], map[])).Some?
  {
    hide IsDomain, AtEnd, Run;
    var c := WithDots(Before(q, e, t), t);
    assert t == e ==> s[e..t] == "";
    assert t != e ==> Substring(s, c, 3) == s[e..t];
    assert Substring(s, c, 1) == s[0..q];
    LastComplete(s, a, j, f, c);
    RepeatComplete(s, t + 2, a, c);
    DotsStep(s, t, Before(q, e, t));
    FirstComplete(s, q, e, t);
    DigitsComplete(AFTER_FIRST, s, q, e);
    CloseFirst(s, q);
  }

  lemma FirstComplete(s: string, q: nat, e: nat, t: nat)
    requires q < e <= t <= |s| && (t == e || IsDomain(s[e..t]))
    requires Run(DOTS, s, t, Before(q, e, t)).Some?
    ensures Run(AFTER_FIRST, s, e, NumberCaptures(q, e)).Some?
  {
    hide IsDomain;
    if t != e {
      DomainComplete(DOTS, s, e, t, NumberCaptures(q, e));
    }
  }

  lemma CloseFirst(s: string, q: nat)
    requires q <= |s|
    ensures Run(AFTER_PREFIX, s, q, Captures(map[1 := 0], map[]))
         == Run(Open(2, Plus(Digit, Close(2, AFTER_FIRST))), s, q, Prefixed(q))
  {
    assert Captures(map[1 := 0], map[]).spans[1 := (0, q)] == Prefixed(q).spans;
  }

  lemma SplitIsMatch(s: string, p: string, num: string, d: string, again: string, x: string, d2: string)
    requires RangeSplits(Line(s), p, num, d, again, x, d2)
    ensures Reach(NameChar, s, 0, |p|)
    ensures Run(AFTER_PREFIX, s, |p|, Captures(map[1 := 0], map[])).Some?
  {
    hide *;
    var e := |p| + |num|;
    var t := e + |d|;
    var a := t + 2 + |again|;
    SplitPlaces(s, p, num, d, again, x, d2);
    MatchComplete(s, |p|, e, t, a, a + |x|, |Line(s)|);
  }

  /** The last piece of a beginning of the text. */
  lemma LastPiece(line: string, before: string, piece: string)
    requires before + piece <= line
    ensures before <= line && line[|before|..|before| + |piece|] == piece
  {
    assert line[..|before + piece|] == before + piece;
    assert line[|before|..|before| + |piece|] == line[..|before + piece|][|before|..];
  }

  lemma SevenPieces(line: string, p: string, num: string, d: string, again: string, x: string, d2: string)
    requires line == p + num + d + ".." + again + x + d2
    ensures var e := |p| + |num|;
            var t := e + |d|;
            var a := t + 2 + |again|;
            var j := a + |x|;
            && |line| == j + |d2| && line[..|p|] == p && line[|p|..e] == num && line[e..t] == d
            && line[t..t + 2] == ".." && line[t + 2..a] == again && line[a..j] == x && line[j..|line|] == d2
  {
    LastPiece(line, p + num + d + ".." + again + x, d2);
    LastPiece(line, p + num + d + ".." + again, x);
    LastPiece(line, p + num + d + "..", again);
    LastPiece(line, p + num + d, "..");
    LastPiece(line, p + num, d);
    LastPiece(line, p, num);
  }

  lemma DotsBySlice(line: string, t: nat)
    requires t + 2 <= |line| && line[t..t + 2] == ".."
    ensures DotsAt(line, t)
  {
    assert line[t] == line[t..t + 2][0] && line[t + 1] == line[t..t + 2][1];
  }

  lemma SplitPlaces(s: string, p: string, num: string, d: string, again: string, x: string, d2: string)
    requires RangeSplits(Line(s), p, num, d, again, x, d2)
    ensures Reach(NameChar, s, 0, |p|)
    ensures var e := |p| + |num|;
            var t := e + |d|;
            var a := t + 2 + |again|;
            MatchAt(s, |p|, e, t, a, a + |x|, |Line(s)|)
  {
    hide IsDomain, LastDomain, AtEnd, CutAt, Line, AllDigits, AllIn, MatchAt, Reach;
    var e := |p| + |num|;
    var t := e + |d|;
    var a := t + 2 + |again|;
    LineIsCut(s, p, num, d, again, x, d2);
    LineEnds(s);
    CutReaches(s, e, t, a, a + |x|, |Line(s)|, p, num, d, again, x, d2);
    CutMatches(s, e, t, a, a + |x|, |Line(s)|, p, num, d, again, x, d2);
  }

  /** The pieces of s between the given positions. */
  predicate CutAt(s: string, e: nat, t: nat, a: nat, j: nat, f: nat,
    p: string, num: string, d: string, again: string, x: string, d2: string) {
    && |p| <= e <= t && t + 2 <= a <= j <= f <= |s| && DotsAt(s, t)
    && s[0..|p|] == p && s[|p|..e] == num && s[e..t] == d
    && s[t + 2..a] == again && s[a..j] == x && s[j..f] == d2
  }

  lemma CutReaches(s: string, e: nat, t: nat, a: nat, j: nat, f: nat,
    p: string, num: string, d: string, again: string, x: string, d2: string)
    requires CutAt(s, e, t, a, j, f, p, num, d, again, x, d2)
    ensures AllIn(NameChar, p) ==> Reach(NameChar, s, 0, |p|)
    ensures AllDigits(num) ==> Reach(Digit, s, |p|, e)
    ensures AllDigits(x) ==> Reach(Digit, s, a, j)
  {
    assert forall y :: 0 <= y < |p| ==> s[y] == s[0..|p|][y];
    assert forall y :: |p| <= y < e ==> s[y] == s[|p|..e][y - |p|];
    assert forall y :: a <= y < j ==> s[y] == s[a..j][y - a];
  }

  lemma CutMatches(s: string, e: nat, t: nat, a: nat, j: nat, f: nat,
    p: string, num: string, d: string, again: string, x: string, d2: string)
    requires CutAt(s, e, t, a, j, f, p, num, d, again, x, d2) && AtEnd(s, f)
    requires num != "" && AllDigits(num) && (d == "" || IsDomain(d)) && (again == "" || again == p)
    requires x != "" && AllDigits(x) && LastDomain(d, d2)
    ensures MatchAt(s, |p|, e, t, a, j, f)
  {
    hide IsDomain, AllDigits, AtEnd, AllIn, Reach;
    CutReaches(s, e, t, a, j, f, p, num, d, again, x, d2);
    assert |num| == e - |p| && |x| == j - a && |d| == t - e && |again| == a - t - 2;
  }

  lemma LineEnds(s: string)
    ensures AtEnd(s, |Line(s)|)
  {
  }

  lemma InLine(s: string, a: nat, b: nat)
    requires a <= b <= |Line(s)|
    ensures s[a..b] == Line(s)[a..b]
  {
  }

  lemma DotsInLine(s: string, t: nat)
    requires DotsAt(Line(s), t)
    ensures DotsAt(s, t)
  {
  }

  lemma LineIsCut(s: string, p: string, num: string, d: string, again: string, x: string, d2: string)
    requires Line(s) == p + num + d + ".." + again + x + d2
    ensures var e := |p| + |num|;
            var t := e + |d|;
            var a := t + 2 + |again|;
            CutAt(s, e, t, a, a + |x|, |Line(s)|, p, num, d, again, x, d2)
  {
    hide Line, DotsAt;
    var line := Line(s);
    var e := |p| + |num|;
    var t := e + |d|;
    var a := t + 2 + |again|;
    var j := a + |x|;
    SevenPieces(line, p, num, d, again, x, d2);
    InLine(s, 0, |p|);
    InLine(s, |p|, e);
    InLine(s, e, t);
    InLine(s, t + 2, a);
    InLine(s, a, j);
    InLine(s, j, |line|);
    DotsBySlice(line, t);
    DotsInLine(s, t);
    assert line[0..|p|] == line[..|p|];
  }

  // What is read.

  lemma ReadSpans(q: nat, e: nat, t: nat, a: nat, x: string, d2: string)
    ensures var spans := LastCaptures(WithDots(Before(q, e, t), t), a, x, d2).spans;
            && 1 in spans && spans[1] == (0, q) && 2 in spans && spans[2] == (q, e)
            && (3 in spans <==> t != e) && (t != e ==> spans[3] == (e, t))
            && 5 in spans && spans[5] == (a, a + |x|) && 6 in spans && spans[6] == (a + |x|, a + |x| + |d2|)
  {
  }

  lemma MatchRead(s: string, q: nat, e: nat, t: nat, a: nat, j: nat, f: nat)
    requires MatchAt(s, q, e, t, a, j, f)
    requires Run(NODE_RE, s, 0, NO_CAPTURES) == Some(LastCaptures(WithDots(Before(q, e, t), t), a, s[a..j], s[j..f]))
    ensures RangepartsFromHostname(s)
         == Some(RangeParts(s[..q], s[q..e], s[a..j], if t != e then s[e..t] else s[j..f]))
  {
    hide Run, IsDomain, AtEnd, LastDomain, Reach, LastCaptures, WithDots, Before, DotsAt;
    ReadSpans(q, e, t, a, s[a..j], s[j..f]);
    assert s[0..q] == s[..q];
    assert t != e ==> s[e..t] != "";
  }

  /** What NODE_RE does: it matches exactly the texts that are a prefix, a number, a domain or
      nothing, "..", the prefix again or nothing, a number, and the same domain again or, if there
      was none, any domain or nothing. The prefix is the shortest that such a reading can have, and
      the domain is the one that is there. */
  lemma NodeReIsRangeSplit(s: string) returns (d: string, again: string, d2: string)
    ensures match RangepartsFromHostname(s)
            case Some(r) =>
              && RangeSplits(Line(s), r.prefix, r.first, d, again, r.last, d2)
              && r.domain == (if d != "" then d else d2)
              && forall p', num', d', again', x', d2' ::
                   RangeSplits(Line(s), p', num', d', again', x', d2') ==> |r.prefix| <= |p'|
            case None => forall p', num', d', again', x', d2' :: !RangeSplits(Line(s), p', num', d', again', x', d2')
  {
    hide Run, RangeSplits, RangepartsFromHostname, MatchAt;
    var c := Captures(map[1 := 0], map[]);
    d, again, d2 := "", "", "";
    OpenName(s);
    var q := StarStops(NameChar, true, AFTER_PREFIX, s, 0, c);
    forall p', num', d', again', x', d2' | RangeSplits(Line(s), p', num', d', again', x', d2')
      ensures Reach(NameChar, s, 0, |p'|) && Run(AFTER_PREFIX, s, |p'|, c).Some?
    {
      SplitIsMatch(s, p', num', d', again', x', d2');
    }
    if Run(NODE_RE, s, 0, NO_CAPTURES).Some? {
      var e, t, a, j, f := MatchSound(s, q);
      MatchRead(s, q, e, t, a, j, f);
      MatchIsSplit(s, q, e, t, a, j, f);
      MatchBounds(s, q, e, t, a, j, f);
      d, again, d2 := s[e..t], s[t + 2..a], s[j..f];
    } else {
      NothingRead(s);
    }
  }

  lemma MatchBounds(s: string, q: nat, e: nat, t: nat, a: nat, j: nat, f: nat)
    requires MatchAt(s, q, e, t, a, j, f)
    ensures q < e <= t && t + 2 <= a < j <= f <= |s|
  {
  }

  lemma NothingRead(s: string)
    requires Run(NODE_RE, s, 0, NO_CAPTURES).None?
    ensures RangepartsFromHostname(s).None?
  {
  }

  // The domain may be repeated too.

  /** The host at both ends spelled out: foo1.a.com..foo4.a.com, or foo1.a.com..4.a.com. */
  function DomainText(name: string, again: string, x: string, d: string): string {
    name + ".." + again + x + d
  }

  /** The characters of such a text, seen from the name it begins with. */
  predicate Spelled(s: string, name: string, again: string, x: string, d: string) {
    var m := |name|;
    var n := m + 2 + |again|;
    && 1 < |d| < m && |s| == n + |x| + |d|
    && TakenOver(name, s, 0, m, 0) && s[m] == '.' && s[m + 1] == '.'
    && TakenOver(name, s, m + 2, n, m + 2)
    && (forall y :: n <= y < n + |x| ==> IsDigit(s[y]))
    && TakenOver(name, s, n + |x|, |s|, n + |x| + |d| - m)
  }

  lemma DomainTextPieces(name: string, again: string, x: string, d: string)
    ensures var s := DomainText(name, again, x, d);
            var m := |name|;
            var n := m + 2 + |again|;
            && |s| == n + |x| + |d| && s[0..m] == name && s[m..m + 2] == ".."
            && s[m + 2..n] == again && s[n..n + |x|] == x && s[n + |x|..|s|] == d
  {
    var s := DomainText(name, again, x, d);
    LastPiece(s, name + ".." + again + x, d);
    LastPiece(s, name + ".." + again, x);
    LastPiece(s, name + "..", again);
    LastPiece(s, name, "..");
  }

  /** A piece of the text that is a piece of the name. */
  lemma SliceTaken(name: string, s: string, a: nat, b: nat, k: nat)
    requires a <= b <= |s| && k + (b - a) <= |name| && s[a..b] == name[k..k + (b - a)]
    ensures TakenOver(name, s, a, b, a - k)
  {
    forall y | a <= y < b ensures 0 <= y - (a - k) < |name| && s[y] == name[y - (a - k)] {
      assert s[y] == s[a..b][y - a] == name[k..k + (b - a)][y - a];
    }
  }

  lemma DigitsInSlice(s: string, a: nat, b: nat, x: string)
    requires a <= b <= |s| && s[a..b] == x && AllDigits(x)
    ensures forall y :: a <= y < b ==> IsDigit(s[y])
  {
    assert forall y :: a <= y < b ==> s[y] == x[y - a];
  }

  lemma NamePieces(name: string, p: string, num: string, d: string)
    requires Splits(name, p, num, d) && d != ""
    ensures 1 < |d| < |name| && |p| <= |name|
    ensures name[0..|name|] == name && name[0..|p|] == p && name[0..0] == "" && name[|name| - |d|..|name|] == d
  {
    hide IsDomain, AllIn;
    DomainLength(d);
  }

  lemma DomainTextSpelled(name: string, p: string, num: string, d: string, again: string, x: string)
    requires Splits(name, p, num, d) && d != "" && (again == "" || again == p) && AllDigits(x)
    ensures Spelled(DomainText(name, again, x, d), name, again, x, d)
  {
    hide DomainText, Splits, TakenOver, AllDigits;
    var s := DomainText(name, again, x, d);
    var m := |name|;
    var n := m + 2 + |again|;
    NamePieces(name, p, num, d);
    DomainTextPieces(name, again, x, d);
    DotsBySlice(s, m);
    SliceTaken(name, s, 0, m, 0);
    SliceTaken(name, s, m + 2, n, 0);
    SliceTaken(name, s, n + |x|, |s|, m - |d|);
    DigitsInSlice(s, n, n + |x|, x);
  }

  /** The text is read in the intended way, among others. */
  lemma DomainTextSplits(name: string, p: string, num: string, d: string, again: string, x: string)
    requires Splits(name, p, num, d) && d != "" && (again == "" || again == p) && AllDigits(x) && x != ""
    ensures var s := DomainText(name, again, x, d);
            Line(s) == s && RangeSplits(s, p, num, d, again, x, d)
  {
    hide IsDomain, Line;
    var s := DomainText(name, again, x, d);
    assert s[|s| - 1] == d[|d| - 1];
    LineWhole(s, d);
  }

  lemma LineWhole(s: string, d: string)
    requires IsDomain(d) && s != "" && s[|s| - 1] == d[|d| - 1]
    ensures Line(s) == s
  {
  }

  /** Two dots stand only where the hosts meet. */
  lemma SpelledDots(s: string, name: string, again: string, x: string, d: string, t: nat)
    requires Spelled(s, name, again, x, d) && !HasDots(name) && x != "" && DotsAt(s, t)
    requires d[0] == '.' && name[|name| - |d|..] == d
    ensures |name| - 1 <= t <= |name| + 1
  {
    hide HasDots;
    var m := |name|;
    var n := m + 2 + |again|;
    NoDotsWithin(name, s, 0, m, 0);
    NoDotsWithin(name, s, m + 2, n, m + 2);
    NoDotsWithin(name, s, n + |x|, |s|, n + |x| + |d| - m);
    assert IsDigit(s[n]) && IsDigit(s[n + |x| - 1]);
  }

  /** What a reading of the text has at the positions it is cut at. */
  predicate ReadAt(s: string, q: nat, e: nat, t: nat, d: string) {
    && q < e && t == e + |d| && DotsAt(s, t) && |d| != 1
    && (forall y :: q <= y < e ==> IsDigit(s[y]))
    && |d| <= |s| && s[e..t] == d && s[|s| - |d|..] == d
  }

  lemma SplitReadAt(s: string, p: string, num: string, d: string, again: string, x: string, d2: string)
    requires RangeSplits(s, p, num, d, again, x, d2)
    ensures d != "" ==> ReadAt(s, |p|, |p| + |num|, |p| + |num| + |d|, d)
    ensures d == "" ==> ReadAt(s, |p|, |p| + |num|, |p| + |num|, "")
    ensures s[..|p| + |num| + |d|] == p + num + d
  {
    hide IsDomain, AllIn;
    DomainLength(d);
    var e := |p| + |num|;
    var t := e + |d|;
    SevenPieces(s, p, num, d, again, x, d2);
    DotsBySlice(s, t);
    assert forall y :: |p| <= y < e ==> s[y] == s[|p|..e][y - |p|];
    LastPiece(s, p + num, d);
  }

  lemma DomainLength(d: string)
    ensures IsDomain(d) ==> |d| > 1 && d[0] == '.'
  {
  }

  /** The last two characters of the text are those of the name. */
  lemma SpelledEnd(s: string, name: string, again: string, x: string, d: string)
    requires Spelled(s, name, again, x, d)
    ensures |s| > 1 && s[|s| - 1] == name[|name| - 1] && s[|s| - 2] == name[|name| - 2]
  {
  }

  /** A reading that shares the prefix's digits cuts the text where the hosts meet. */
  lemma CutAtName(s: string, name: string, again: string, x: string, d: string, q: nat, e: nat, t: nat, d': string)
    requires Spelled(s, name, again, x, d) && !HasDots(name) && x != ""
    requires d[0] == '.' && name[|name| - |d|..] == d && q <= |name| - |d|
    requires ReadAt(s, q, e, t, d')
    ensures t == |name|
  {
    var m := |name|;
    SpelledDots(s, name, again, x, d, t);
    SpelledEnd(s, name, again, x, d);
    assert s[m - |d|] == name[m - |d|] == d[0];
    assert !DotsAt(name, m - 2);
    if d' != "" {
      assert s[|s| - 1] == s[|s| - |d'|..][|d'| - 1] == s[e..t][|d'| - 1] == s[t - 1];
      assert s[|s| - 2] == s[|s| - |d'|..][|d'| - 2] == s[e..t][|d'| - 2] == s[t - 2];
    }
  }

  /** A domain repeated after the last number changes nothing, whether or not the prefix is
      repeated as well. */
  lemma RepeatedDomainReadsBack(name: string, p: string, num: string, d: string, again: string, x: string)
    requires ShortestSplit(name, p, num, d) && !HasDots(name) && d != ""
    requires (again == "" || again == p) && AllDigits(x) && x != ""
    ensures RangepartsFromHostname(DomainText(name, again, x, d)) == Some(RangeParts(p, num, x, d))
    ensures RangepartsFromHostname(DomainText(name, again, x, d)) == RangepartsFromHostname(RangeText(p, num, x, d))
  {
    hide RangepartsFromHostname, Run, IsDomain, HasDots, ReadAt, Spelled, AllIn, AllDigits, Line, DomainText,
      RangeSplits, ShortestSplit, Splits;
    var s := DomainText(name, again, x, d);
    RangeTextReadsBack(name, p, num, d, x);
    ShortestIsSplit(name, p, num, d);
    DomainTextSpelled(name, p, num, d, again, x);
    DomainTextSplits(name, p, num, d, again, x);
    NameEndsInDomain(name, p, num, d);
    var d', again', d2' := NodeReIsRangeSplit(s);
    assert RangepartsFromHostname(s).Some?;
    var r := RangepartsFromHostname(s).value;
    SplitReadAt(s, r.prefix, r.first, d', again', r.last, d2');
    var e := |r.prefix| + |r.first|;
    CutAtName(s, name, again, x, d, |r.prefix|, e, e + |d'|, d');
    DomainTextPieces(name, again, x, d);
    assert s[..|name|] == s[0..|name|];
    NameRead(s, name, p, num, d, r.prefix, r.first, d', again', r.last, d2');
    RestRead(name, p, num, d, again, x, again', r.last, d2');
  }

  lemma ShortestIsSplit(name: string, p: string, num: string, d: string)
    requires ShortestSplit(name, p, num, d)
    ensures Splits(name, p, num, d) && (d != "" ==> |d| > 1 && d[0] == '.')
  {
    hide IsDomain;
    DomainLength(d);
  }

  /** A reading that begins with the whole name splits it as the name is split. */
  lemma NameRead(s: string, name: string, p: string, num: string, d: string,
                 p': string, num': string, d': string, again': string, x': string, d2': string)
    requires ShortestSplit(name, p, num, d) && |p'| <= |p|
    requires RangeSplits(s, p', num', d', again', x', d2') && p' + num' + d' == name
    ensures p' == p && num' == num && d' == d
  {
    hide IsDomain, AllIn, AllDigits;
    assert Splits(name, p', num', d');
    SplitDeterminesRest(name, p, num, d, num', d');
    assert name == p + (num + d) == p' + (num' + d');
    assert name[..|p|] == p == p';
  }

  /** With the domain fixed, the last number is the one that was written. */
  lemma RestRead(name: string, p: string, num: string, d: string, again: string, x: string,
                 again': string, x': string, d2': string)
    requires ShortestSplit(name, p, num, d) && d != "" && (again == "" || again == p)
    requires AllDigits(x) && x != ""
    requires RangeSplits(DomainText(name, again, x, d), p, num, d, again', x', d2')
    ensures x' == x && d2' == d
  {
    hide IsDomain, AllIn, RangeSplits, LastDomain, AllDigits;
    RangeSplitParts(DomainText(name, again, x, d), p, num, d, again', x', d2');
    assert name + ".." + again + x + d == name + (".." + ((again + x) + d));
    assert name + ".." + again' + x' + d == name + (".." + ((again' + x') + d));
    SameEnds(name, again + x, again' + x', d);
    if again != again' {
      DigitPrefix(name, p, num, d, x, x');
    } else {
      assert (again + x)[|again|..] == x && (again + x')[|again|..] == x';
    }
  }

  lemma RangeSplitParts(s: string, p: string, num: string, d: string, again: string, x: string, d2: string)
    requires RangeSplits(s, p, num, d, again, x, d2) && d != ""
    ensures s == p + num + d + ".." + again + x + d && d2 == d
    ensures (again == "" || again == p) && AllDigits(x) && x != ""
  {
  }

  lemma SameEnds(name: string, a: string, b: string, d: string)
    requires name + (".." + (a + d)) == name + (".." + (b + d))
    ensures a == b
  {
    var s := name + (".." + (a + d));
    assert s[|name| + 2..] == a + d == b + d;
    assert (a + d)[..|a|] == a && (b + d)[..|b|] == b && |a| == |b|;
  }

  /** A prefix of digits would be part of the number, so that only an empty one can be. */
  lemma DigitPrefix(name: string, p: string, num: string, d: string, x: string, y: string)
    requires ShortestSplit(name, p, num, d) && AllDigits(x) && AllDigits(y)
    requires p + x == y || p + y == x
    ensures p == "" && x == y
  {
    hide IsDomain;
    var whole := if p + x == y then y else x;
    assert forall i :: 0 <= i < |p| ==> p[i] == whole[i];
    assert name == "" + (p + num) + d;
    assert Splits(name, "", p + num, d);
  }

  lemma NameEndsInDomain(name: string, p: string, num: string, d: string)
    requires Splits(name, p, num, d)
    ensures |d| <= |name| && name[|name| - |d|..] == d && |name| - |d| == |p| + |num|
  {
  }
}
