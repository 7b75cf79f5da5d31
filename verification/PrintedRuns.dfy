/** The printed text of one run, and what reading it back gives. */
module PrintedRuns {
  import opened Text
  import opened Decimal
  import opened NodeParts
  import opened NodeRange
  import opened RangeExpand
  import opened RangeCompress
  import opened RangeGroups
  import opened Grammar
  import opened Scanner
  import opened TokenLists

  /** A non-empty name of word characters that does not start with '-' and holds no "..",
      whose number fits the C int. */
  predicate ValidName(x: string) {
    IsWord(x) && !HasDots(x) && NodeToParts(x).num <= INT_MAX
  }

  ghost predicate ValidNames(names: seq<string>) {
    Distinct(names) && forall x :: x in names ==> ValidName(x)
  }

  /** A run whose names are all numbered, equally wide. */
  predicate CleanRun(run: seq<string>) {
    InRun(run) &&
    (|run| > 1 ==> Numbered(run[0]) && forall k :: 0 < k < |run| ==> NumWidth(run[k]) == NumWidth(run[0]))
  }

  /** A run that starts with an unnumbered name. */
  predicate BadRun(run: seq<string>) {
    |run| > 1 && !Numbered(run[0])
  }

  /** A run that a name joins. */
  lemma RunGrows(s: seq<string>, n: nat, open: seq<string>)
    requires 0 < n < |s| && Joins(s, n) && InRun(open + [s[n]]) && open != [] && Last(open) == s[n - 1]
    requires CleanRun(open) || BadRun(open)
    ensures CleanRun(open + [s[n]]) || BadRun(open + [s[n]])
  {
    hide NodeToParts, LastWidth;
    var run := open + [s[n]];
    if Numbered(open[0]) {
      assert |open| > 1 ==> Counts(run[0], run[|open| - 1], |open| - 1);
      LastWidthIs(s[..n], n - 1);
      assert Counts(run[0], run[|open|], |open|);
    }
  }

  lemma {:induction false} RunsCleanOrBad(s: seq<string>)
    ensures forall run :: run in Runs(s) ==> CleanRun(run) || BadRun(run)
  {
    hide NodeToParts, LastWidth, CleanRun, BadRun, Joins, InRun;
    RunsCount(s);
    if s != [] {
      var n := |s| - 1;
      RunsCleanOrBad(s[..n]);
      RunsCount(s[..n]);
      var before := Runs(s[..n]);
      if Joins(s, n) {
        JoinsLater(s, n);
        var open := Last(before);
        assert open in before;
        assert Runs(s) == before[..|before| - 1] + [open + [s[n]]];
        OpenNotEmpty(open);
        RunGrows(s, n, open);
      } else {
        SingleIsClean(s[n]);
      }
    }
  }

  lemma OpenNotEmpty(run: seq<string>)
    requires InRun(run)
    ensures run != []
  {
  }

  lemma SingleIsClean(x: string)
    ensures CleanRun([x])
  {
  }

  lemma CleanStep(s: seq<string>)
    requires s != []
    ensures Clean(s) <==> Clean(s[..|s| - 1]) && (Joins(s, |s| - 1) ==> Numbered(s[|s| - 2]))
  {
    hide NodeToParts, LastWidth;
    var n := |s| - 1;
    forall i | i < n ensures Joins(s[..n], i) <==> Joins(s, i) { JoinsPrefix(s, n, i); }
  }

  /** Joining a name makes the open run bad when the name before it, then the only one, has no number. */
  lemma BadRunStep(s: seq<string>, n: nat, open: seq<string>)
    requires 0 < n < |s| && InRun(open) && Last(open) == s[n - 1]
    ensures BadRun(open + [s[n]]) <==> BadRun(open) || !Numbered(s[n - 1])
  {
    hide NodeToParts;
    assert |open| > 1 ==> Counts(open[0], Last(open), |open| - 1);
  }

  /** A bad run is there exactly when the loop continued an unnumbered name. */
  lemma {:induction false} BadRunUnlessClean(s: seq<string>)
    ensures Clean(s) <==> forall run :: run in Runs(s) ==> !BadRun(run)
  {
    hide NodeToParts, LastWidth, Clean, BadRun, Joins, InRun;
    if s == [] {
      NoneJoined();
    } else {
      var n := |s| - 1;
      BadRunUnlessClean(s[..n]);
      RunsCount(s[..n]);
      CleanStep(s);
      var before := Runs(s[..n]);
      if Joins(s, n) {
        JoinsLater(s, n);
        var open := Last(before);
        assert open in before && before == before[..|before| - 1] + [open];
        OpenNotEmpty(open);
        BadRunStep(s, n, open);
        assert Runs(s) == before[..|before| - 1] + [open + [s[n]]];
        assert open + [s[n]] in Runs(s);
      } else {
        assert Runs(s) == before + [[s[n]]];
        SingleIsGood(s[n]);
      }
    }
  }

  lemma NoneJoined()
    ensures Clean([])
  {
  }

  lemma SingleIsGood(x: string)
    ensures !BadRun([x])
  {
  }

  /** No name of the run ends in a newline. */
  predicate OneLine(run: seq<string>) {
    forall x :: x in run ==> Line(x) == x
  }

  lemma ValidRunIsOneLine(run: seq<string>)
    requires forall x :: x in run ==> ValidName(x)
    ensures OneLine(run)
  {
    hide NodeToParts, HasDots;
  }

  /** A numbered name is its prefix, its fixed-width number and its domain. */
  lemma NameIsDigits(x: string)
    requires Numbered(x) && Line(x) == x
    ensures var a := NodeToParts(x);
            && ShortestSplit(x, a.prefix, a.numStr.value, a.domain)
            && x == a.prefix + Digits(NumWidth(x), a.num) + a.domain
            && a.num < Pow10(NumWidth(x))
            && a.numStr.value == Digits(NumWidth(x), a.num)
  {
    NodeToPartsIsShortestSplit(x);
    DigitsOfValue(NodeToParts(x).numStr.value);
  }

  function RunParts(run: seq<string>): RangeParts
    requires run != [] && Numbered(run[0])
  {
    var a := NodeToParts(run[0]);
    RangeParts(a.prefix, a.numStr.value, Suffix(a.num, a.num + |run| - 1), a.domain)
  }

  lemma RunAt(run: seq<string>, k: nat)
    requires CleanRun(run) && OneLine(run) && k < |run| && |run| > 1
    ensures var a := NodeToParts(run[0]);
            var w := NumWidth(run[0]);
            a.num + k < Pow10(w) && run[k] == a.prefix + Digits(w, a.num + k) + a.domain
  {
    hide NodeToParts, Digits, Pow10, LastWidth, ShortestSplit;
    NameIsDigits(run[k]);
    assert k > 0 ==> Counts(run[0], run[k], k);
  }

  /** Expanding the text of a run gives its names, in order. */
  lemma RunExpands(run: seq<string>)
    requires CleanRun(run) && OneLine(run) && |run| > 1
    ensures Expansion(RunParts(run)) == run
  {
    hide NodeToParts, Suffix, Digits, Expansion, Pow10;
    var a := NodeToParts(run[0]);
    var w := NumWidth(run[0]);
    var n2 := a.num + |run| - 1;
    NameIsDigits(run[0]);
    RunAt(run, |run| - 1);
    SuffixExpands(a.prefix, w, a.num, n2, a.domain);
    forall k | 0 <= k < |run|
      ensures run[k] == NumberRun(a.prefix, w, a.num, n2, a.domain)[k]
    {
      RunAt(run, k);
    }
  }

  /** The text of a run, in the form the range expression reads. */
  lemma RunIsRangeText(run: seq<string>)
    requires CleanRun(run) && OneLine(run) && |run| > 1
    ensures var r := RunParts(run);
            && RunText(run) == RangeText(r.prefix, r.first, r.last, r.domain)
            && ShortestSplit(run[0], r.prefix, r.first, r.domain)
            && AllDigits(r.last) && r.last != ""
  {
    hide NodeToParts, Digits, Pow10, Suffix, ShortestSplit;
    NameIsDigits(run[0]);
    RunAt(run, |run| - 1);
    SuffixRebuilds(NumWidth(run[0]), NodeToParts(run[0]).num, NodeToParts(run[0]).num + |run| - 1);
  }

  lemma RangeTextIsWord(name: string, p: string, num: string, x: string, d: string)
    requires Splits(name, p, num, d) && IsWord(name) && AllDigits(x)
    ensures IsWord(RangeText(p, num, x, d))
  {
    var text := RangeText(p, num, x, d);
    var m := |p| + |num|;
    assert forall i :: 0 <= i < m ==> text[i] == name[i];
    assert forall i :: m + 2 <= i < m + 2 + |x| ==> text[i] == x[i - m - 2];
    assert forall i :: m + 2 + |x| <= i < |text| ==> text[i] == name[i - 2 - |x|];
  }

  /** The text of a run is one token, which stands for the names of the run. */
  lemma RunToken(run: seq<string>)
    requires CleanRun(run) && forall x :: x in run ==> ValidName(x)
    ensures IsWord(RunText(run))
    ensures var t := WordToken(RunText(run));
            IsAtom(t) && TokenNames(t) == Elements(run) && (|run| > 1 ==> t == Parts(RunParts(run)))
  {
    hide NodeToParts, RangepartsFromHostname, RangeText, Splits, Expansion, Suffix;
    assert run[0] in run && ValidName(run[0]);
    if |run| == 1 {
      NoDotsNoRange(run[0]);
      assert run == [run[0]];
    } else {
      var r := RunParts(run);
      ValidRunIsOneLine(run);
      RunIsRangeText(run);
      RangeTextIsWord(run[0], r.prefix, r.first, r.last, r.domain);
      RangeTextReadsBack(run[0], r.prefix, r.first, r.domain, r.last);
      RunExpands(run);
    }
  }

  // When the expansion loop stays within the C int.

  /** The run reaches down from INT_MAX to a number with another leading digit, so that the
      printed last number is INT_MAX itself. */
  predicate Overflows(run: seq<string>) {
    |run| > 1 && NodeToParts(run[|run| - 1]).num == INT_MAX && NodeToParts(run[0]).num <= 1_999_999_999
  }

  lemma RunIsClean(run: seq<string>)
    requires CleanRun(run) && 1 < |run|
    ensures run != [] && Numbered(run[0])
  {
  }

  lemma RunEnds(run: seq<string>)
    requires CleanRun(run) && OneLine(run) && 1 < |run|
    ensures var r := RunParts(run);
            && AllDigits(r.first) && AllDigits(r.last) && 0 < |r.last| <= |r.first|
            && Value(r.first) == NodeToParts(run[0]).num
            && Value(Pad(r) + r.last) == NodeToParts(run[0]).num + |run| - 1
  {
    hide NodeToParts, Digits, Suffix, Value, Pow10, CleanRun;
    RunIsClean(run);
    var n1 := NodeToParts(run[0]).num;
    var w := NumWidth(run[0]);
    NameIsDigits(run[0]);
    RunAt(run, |run| - 1);
    SuffixRebuilds(w, n1, n1 + |run| - 1);
    ValueOfDigits(w, n1);
    ValueOfDigits(w, n1 + |run| - 1);
  }

  /** Expanding the text of a run keeps the loop counter within the int, except for a run that overflows. */
  lemma RunInInt(run: seq<string>)
    requires CleanRun(run) && OneLine(run) && 1 < |run|
    requires NodeToParts(run[|run| - 1]).num <= INT_MAX
    ensures InInt(RunParts(run)) <==> !Overflows(run)
  {
    hide NodeToParts, Suffix, Pow10, Value;
    var r := RunParts(run);
    var n1 := NodeToParts(run[0]).num;
    RunEnds(run);
    assert Counts(run[0], run[|run| - 1], |run| - 1);
    var base := ExpansionBounds(r);
    SuffixInInt(n1, n1 + |run| - 1);
  }

  lemma RunTokenInInt(run: seq<string>)
    requires CleanRun(run) && forall x :: x in run ==> ValidName(x)
    ensures InIntToken(WordToken(RunText(run))) <==> !Overflows(run)
  {
    hide NodeToParts, RangepartsFromHostname, RunText, InInt, CleanRun, RunParts;
    RunToken(run);
    CleanNotEmpty(run);
    if |run| == 1 {
      NoDotsNoRange(run[0]);
      SingleText(run);
    } else {
      assert run[|run| - 1] in run && ValidName(run[|run| - 1]);
      ValidRunIsOneLine(run);
      RunInInt(run);
    }
  }

  lemma CleanNotEmpty(run: seq<string>)
    requires CleanRun(run)
    ensures run != [] && run[0] in run && (|run| > 1 ==> Numbered(run[0]))
  {
  }

  lemma SingleText(run: seq<string>)
    requires |run| == 1
    ensures RunText(run) == run[0]
  {
  }
}
