/** Printing a set of names as short ranges (range_compress.c). */
module RangeCompress {
  import opened Text
  import opened Decimal
  import opened NodeParts
  import opened RangeExpand
  import opened RangeSort
  import opened Scanner

  const MAX_NUM_GROUPS := 65536

  function FmtGroup(parts: NodeParts, count: nat): string
    requires parts.num >= 0
  {
    parts.prefix + (if parts.numStr.Some? then parts.numStr.value else "(null)")
    + ".." + Suffix(parts.num, parts.num + count) + parts.domain
  }

  /** The width of the last numbered name, or -1: what prev_num_str_len holds. */
  function LastWidth(s: seq<string>): int {
    if s == [] then -1
    else
      match NodeToParts(s[|s| - 1]).numStr
      case Some(num) => |num|
      case None => LastWidth(s[..|s| - 1])
  }

  /** Name i continues the run of name i - 1. */
  predicate Joins(s: seq<string>, i: int) {
    0 < i < |s| &&
    var a, b := NodeToParts(s[i - 1]), NodeToParts(s[i]);
    && a.prefix == b.prefix
    && a.domain == b.domain
    && b.num == a.num + 1
    && b.numStr.Some?
    && |b.numStr.value| == LastWidth(s[..i])
  }

  function ExtendLast(runs: seq<seq<string>>, x: string): seq<seq<string>>
    requires runs != []
  {
    runs[..|runs| - 1] + [Last(runs) + [x]]
  }

  function Last<T>(s: seq<T>): T
    requires s != []
  {
    s[|s| - 1]
  }

  /** The sorted names, cut where a name does not continue the run before it. */
  function Runs(s: seq<string>): (r: seq<seq<string>>)
    ensures s != [] <==> r != []
  {
    if s == [] then []
    else
      var n := |s| - 1;
      if Joins(s, n) then ExtendLast(Runs(s[..n]), s[n]) else Runs(s[..n]) + [[s[n]]]
  }

  function RunText(run: seq<string>): string {
    if run == [] then ""
    else if |run| == 1 then run[0]
    else FmtGroup(NodeToParts(run[0]), |run| - 1)
  }

  function RunTexts(runs: seq<seq<string>>): seq<string> {
    seq(|runs|, i requires 0 <= i < |runs| => RunText(runs[i]))
  }

  /** Names in a run count upwards from the first. */
  predicate InRun(run: seq<string>) {
    run != [] && forall k :: 0 < k < |run| ==> Counts(run[0], run[k], k)
  }

  /** y is numbered k above x. */
  predicate Counts(x: string, y: string, k: int) {
    var a, b := NodeToParts(x), NodeToParts(y);
    b.prefix == a.prefix && b.domain == a.domain && b.num == a.num + k && b.numStr.Some?
  }

  function Flatten<T>(r: seq<seq<T>>): seq<T> {
    if r == [] then [] else Flatten(r[..|r| - 1]) + r[|r| - 1]
  }

  lemma JoinsLater(s: seq<string>, i: int)
    requires Joins(s, i)
    ensures 0 < i
  {
  }

  lemma FlattenNone<T>()
    ensures Flatten<T>([]) == []
  {
  }

  lemma FlattenSnoc<T>(r: seq<seq<T>>, x: seq<T>)
    ensures Flatten(r + [x]) == Flatten(r) + x
  {
    assert (r + [x])[..|r|] == r;
  }

  lemma FlattenExtend(runs: seq<seq<string>>, x: string)
    requires runs != []
    ensures Flatten(ExtendLast(runs, x)) == Flatten(runs) + [x]
  {
    FlattenSnoc(runs[..|runs| - 1], Last(runs) + [x]);
  }

  /** Every name stands in exactly one run: cutting neither loses, repeats nor reorders. */
  lemma {:induction false} RunsPartition(s: seq<string>)
    ensures Flatten(Runs(s)) == s
  {
    hide NodeToParts, LastWidth, Joins, Flatten;
    FlattenNone<string>();
    if s != [] {
      var n := |s| - 1;
      RunsPartition(s[..n]);
      if Joins(s, n) {
        JoinsLater(s, n);
        FlattenExtend(Runs(s[..n]), s[n]);
      } else {
        FlattenSnoc(Runs(s[..n]), [s[n]]);
      }
    }
  }

  /** Names in a run count upwards, and the last run ends in the last name. */
  lemma {:induction false} RunsCount(s: seq<string>)
    ensures forall run :: run in Runs(s) ==> InRun(run)
    ensures s != [] ==> Last(Last(Runs(s))) == Last(s)
  {
    hide NodeToParts;
    if s != [] {
      var n := |s| - 1;
      RunsCount(s[..n]);
      var before := Runs(s[..n]);
      if Joins(s, n) {
        var open := Last(before);
        assert open in before && Last(open) == s[n - 1];
        assert |open| > 1 ==> Counts(open[0], Last(open), |open| - 1);
        assert InRun(open + [s[n]]);
      }
    }
  }

  function Join(texts: seq<string>): string
    requires texts != []
  {
    WithCommas(texts[..|texts| - 1]) + texts[|texts| - 1]
  }

  /** The text printed for sorted names: empty for no names and for too many groups. */
  function Compressed(s: seq<string>): string {
    if s == [] || |Runs(s)| > MAX_NUM_GROUPS then "" else Join(RunTexts(Runs(s)))
  }

  const INIT_PREV_PARTS := NodeParts("", "", -2, Some(""), "")

  /** The loop state after the sorted names s: the finished groups and the open one. */
  ghost predicate LoopState(s: seq<string>, groups: seq<string>, prev: NodeParts, count: int, width: int) {
    && width == LastWidth(s)
    && if s == [] then groups == [] && (prev == INIT_PREV_PARTS || prev == NodeToParts("")) && count == 0
       else
         && groups == RunTexts(Runs(s)[..|Runs(s)| - 1])
         && InRun(Last(Runs(s)))
         && prev == NodeToParts(Last(Runs(s))[0])
         && count == |Last(Runs(s))| - 1
  }

  /** What the loop tests: does this name continue the open group? */
  predicate Continues(parts: NodeParts, prev: NodeParts, count: int) {
    parts.prefix == prev.prefix && parts.domain == prev.domain && parts.num == prev.num + count + 1
  }

  function GroupText(prev: NodeParts, count: nat): string
    requires prev.num >= 0
  {
    if count > 0 then FmtGroup(prev, count) else prev.fullName
  }

  lemma JoinsIsContinues(s: seq<string>, n: nat, groups: seq<string>, prev: NodeParts, count: int, width: int)
    requires n < |s| && LoopState(s[..n], groups, prev, count, width)
    ensures var parts := NodeToParts(s[n]);
            && (Continues(parts, prev, count) ==> parts.numStr.Some?)
            && (Joins(s, n) <==> Continues(parts, prev, count) && |parts.numStr.value| == width)
  {
    hide *;
    if n == 0 {
      NothingOpen(s, groups, prev, count, width);
    } else {
      GroupOpen(s, n, groups, prev, count, width);
    }
  }

  lemma NothingOpen(s: seq<string>, groups: seq<string>, prev: NodeParts, count: int, width: int)
    requires 0 < |s| && LoopState(s[..0], groups, prev, count, width)
    ensures !Joins(s, 0)
    ensures var parts := NodeToParts(s[0]);
            Continues(parts, prev, count) ==> parts.numStr.Some? && |parts.numStr.value| != width
  {
    NodeToPartsIsShortestSplit(s[0]);
    EmptyNameParts();
    hide Runs, NodeToParts, RunTexts, ShortestSplit, Splits;
  }

  lemma GroupOpen(s: seq<string>, n: nat, groups: seq<string>, prev: NodeParts, count: int, width: int)
    requires 0 < n < |s| && LoopState(s[..n], groups, prev, count, width)
    ensures var parts := NodeToParts(s[n]);
            && (Continues(parts, prev, count) ==> parts.numStr.Some?)
            && (Joins(s, n) <==> Continues(parts, prev, count) && |parts.numStr.value| == width)
  {
    NodeToPartsIsShortestSplit(s[n]);
    hide Runs, NodeToParts, LastWidth, RunTexts, ShortestSplit, Splits;
    var open := Last(Runs(s[..n]));
    RunsCount(s[..n]);
    assert Last(open) == s[n - 1];
    assert |open| > 1 ==> Counts(open[0], Last(open), |open| - 1);
  }

  /** A name that continues the open group. */
  lemma StepJoins(s: seq<string>, n: nat, groups: seq<string>, prev: NodeParts, count: int, width: int)
    requires n < |s| && LoopState(s[..n], groups, prev, count, width) && Joins(s, n)
    ensures LoopState(s[..n + 1], groups, prev, count + 1, width)
    ensures |Runs(s[..n + 1])| == |Runs(s[..n])|
  {
    hide NodeToParts, FmtGroup;
    var t := s[..n + 1];
    assert t[..n] == s[..n];
    assert Joins(t, n);
    RunsCount(t);
    var runs := Runs(s[..n]);
    assert Runs(t)[..|runs| - 1] == runs[..|runs| - 1];
    assert Last(Runs(t)) in Runs(t);
  }

  function NextWidth(parts: NodeParts, width: int): int {
    match parts.numStr case Some(num) => |num| case None => width
  }

  /** A name that opens a new group, closing the one before it. */
  lemma StepCuts(s: seq<string>, n: nat, groups: seq<string>, prev: NodeParts, count: int, width: int)
    requires n < |s| && LoopState(s[..n], groups, prev, count, width) && !Joins(s, n)
    requires "" !in s
    ensures n == 0 <==> prev.fullName == ""
    ensures n > 0 ==> prev.num >= 0 && count >= 0
    ensures var done := if n == 0 then groups else groups + [GroupText(prev, count)];
            && LoopState(s[..n + 1], done, NodeToParts(s[n]), 0, NextWidth(NodeToParts(s[n]), width))
            && |Runs(s[..n + 1])| == |done| + 1
  {
    hide NodeToParts, FmtGroup, LoopState, Runs, GroupText, NextWidth;
    if n == 0 {
      FirstCut(s, groups, prev, count, width);
    } else {
      LaterCut(s, n, groups, prev, count, width);
    }
  }

  lemma FirstCut(s: seq<string>, groups: seq<string>, prev: NodeParts, count: int, width: int)
    requires s != [] && LoopState(s[..0], groups, prev, count, width)
    ensures prev.fullName == "" && groups == []
    ensures LoopState(s[..1], [], NodeToParts(s[0]), 0, NextWidth(NodeToParts(s[0]), width))
    ensures |Runs(s[..1])| == 1
  {
    hide NodeToParts, FmtGroup;
    var t := s[..1];
    assert t[..0] == s[..0] == [];
    assert Runs(t) == [[s[0]]];
  }

  lemma LaterCut(s: seq<string>, n: nat, groups: seq<string>, prev: NodeParts, count: int, width: int)
    requires 0 < n < |s| && LoopState(s[..n], groups, prev, count, width) && !Joins(s, n)
    requires "" !in s
    ensures prev.fullName != "" && prev.num >= 0 && count >= 0
    ensures var done := groups + [GroupText(prev, count)];
            && LoopState(s[..n + 1], done, NodeToParts(s[n]), 0, NextWidth(NodeToParts(s[n]), width))
            && |Runs(s[..n + 1])| == |done| + 1
  {
    hide NodeToParts, FmtGroup, Runs, Joins, LastWidth, RunText;
    RunsCut(s, n);
    OpenRunNamed(s[..n]);
    var runs := Runs(s[..n]);
    assert Runs(s[..n + 1])[..|runs|] == runs;
    RunTextOf(s, n, prev, count);
    assert RunTexts(runs) == RunTexts(runs[..|runs| - 1]) + [RunText(Last(runs))];
  }

  lemma RunTextOf(s: seq<string>, n: nat, prev: NodeParts, count: int)
    requires 0 < n < |s| && InRun(Last(Runs(s[..n])))
    requires prev == NodeToParts(Last(Runs(s[..n]))[0]) && count == |Last(Runs(s[..n]))| - 1
    ensures RunText(Last(Runs(s[..n]))) == GroupText(prev, count)
    ensures prev.fullName == Last(Runs(s[..n]))[0] && InRun([s[n]])
  {
    hide NodeToParts, FmtGroup, Runs;
  }

  lemma RunsCut(s: seq<string>, n: nat)
    requires 0 < n < |s| && !Joins(s, n)
    ensures Runs(s[..n + 1]) == Runs(s[..n]) + [[s[n]]]
    ensures LastWidth(s[..n + 1]) == NextWidth(NodeToParts(s[n]), LastWidth(s[..n]))
  {
    hide NodeToParts;
    var t := s[..n + 1];
    assert t[..n] == s[..n];
    assert !Joins(t, n);
  }

  lemma OpenRunNamed(s: seq<string>)
    requires s != [] && "" !in s
    ensures Last(Runs(s))[0] != ""
  {
    OpenRunIsFromNames(s, Last(Runs(s)));
    RunsCount(s);
    assert Last(Runs(s))[0] in Last(Runs(s));
  }

  lemma {:induction false} OpenRunIsFromNames(s: seq<string>, run: seq<string>)
    requires run in Runs(s)
    ensures forall x :: x in run ==> x in s
  {
    RunsPartition(s);
    var r := Runs(s);
    var i :| 0 <= i < |r| && r[i] == run;
    FlattenHolds(r, i);
  }

  lemma {:induction false} FlattenHolds<T>(r: seq<seq<T>>, i: nat)
    requires i < |r|
    ensures forall x :: x in r[i] ==> x in Flatten(r)
  {
    if i < |r| - 1 {
      FlattenHolds(r[..|r| - 1], i);
    }
  }

  lemma EmptyNameParts()
    ensures NodeToParts("") == NodeParts("", "", 0, None, "")
  {
    NodeToPartsIsShortestSplit("");
  }

  /** What the sorted names are without an empty one, which can only come first. */
  function Nonempty(sorted: seq<string>): seq<string> {
    if sorted != [] && sorted[0] == "" then sorted[1..] else sorted
  }

  lemma EmptyIsFirst(sorted: seq<string>)
    requires Sorted(sorted)
    ensures "" !in Nonempty(sorted)
  {
    hide NodeToParts;
    EmptyNameParts();
    forall i | 0 <= i < |sorted| && sorted[i] == "" ensures i == 0 {
      if i > 0 {
        NothingBeforeEmpty(sorted[0]);
      }
    }
  }

  lemma NothingBeforeEmpty(x: string)
    ensures !Before(x, "")
  {
    EmptyNameParts();
    hide NodeToParts;
    StrCmpZero(NodeToParts(x).prefix, "");
    StrCmpZero(NodeToParts(x).domain, "");
    StrCmpZero(x, "");
  }

  /** Printing drops an empty name: the text is that of the other names. */
  lemma EmptyNameDropped(members: seq<string>, named: seq<string>)
    requires Distinct(members) && Distinct(named)
    requires forall x :: x in named <==> x in members && x != ""
    ensures Nonempty(Sort(members)) == Sort(named)
  {
    hide Sort, NodeToParts, Before;
    SortIsSorted(members);
    SortIsSorted(named);
    var s := Sort(members);
    EmptyIsFirst(s);
    forall x ensures x in Nonempty(s) <==> x in Sort(named) {
      assert s != [] ==> (x in s <==> x == s[0] || x in s[1..]);
    }
    SortedUnique(Nonempty(s), Sort(named));
  }

  /** The groups that are printed hold every name but the empty one, each in exactly one group. */
  lemma GroupsHoldNames(members: seq<string>)
    requires Distinct(members)
    ensures var named := Nonempty(Sort(members));
            && Flatten(Runs(named)) == named
            && (forall x :: x in named <==> x in members && x != "")
            && |named| == |members| - if "" in members then 1 else 0
  {
    hide Runs, Sort, Before, NodeToParts;
    SortIsSorted(members);
    var s := Sort(members);
    EmptyIsFirst(s);
    RunsPartition(Nonempty(s));
    assert s != [] ==> (forall x :: x in s <==> x == s[0] || x in s[1..]);
  }

  /** The first |texts| entries of the groups array. */
  ghost predicate Filled(groups: array<string>, texts: seq<string>)
    reads groups
  {
    |texts| <= groups.Length && forall j :: 0 <= j < |texts| ==> groups[j] == texts[j]
  }

  /** The grouping loop: fills groups up to the group still open. An empty name opens a group
      that is never printed. */
  method FillGroups(sorted: seq<string>, groups: array<string>)
    returns (numGroups: int, prev: NodeParts, count: int, ghost done: seq<string>)
    requires "" !in Nonempty(sorted) && groups.Length == MAX_NUM_GROUPS
    modifies groups
    ensures numGroups == |done| && Filled(groups, done)
    ensures numGroups == MAX_NUM_GROUPS ==> |Runs(Nonempty(sorted))| > MAX_NUM_GROUPS
    ensures numGroups != MAX_NUM_GROUPS ==>
              LoopState(Nonempty(sorted), done, prev, count, LastWidth(Nonempty(sorted)))
    ensures sorted != [] ==> prev.num >= 0
  {
    hide Runs, LoopState, NodeToParts, LastWidth, Joins, FmtGroup, GroupText, RunTexts, Continues;
    numGroups, count, prev, done := 0, 0, INIT_PREV_PARTS, [];
    var prevNumStrLen := -1;
    ghost var s := Nonempty(sorted);
    ghost var off := |sorted| - |s|;
    LoopStateAtStart(s);
    EmptyNameParts();
    for i := 0 to |sorted|
      invariant numGroups == |done| < MAX_NUM_GROUPS && Filled(groups, done)
      invariant LoopState(s[..if i < off then 0 else i - off], done, prev, count, prevNumStrLen)
      invariant i < off ==> prev == INIT_PREV_PARTS && count == 0 && prevNumStrLen == -1 && numGroups == 0
      invariant i > 0 ==> prev.num >= 0
    {
      var parts := NodeToParts(sorted[i]);
      ghost var n := i - off;
      if i < off {
        EmptyOpens(s);
      } else {
        JoinsIsContinues(s, n, done, prev, count, prevNumStrLen);
      }
      if Continues(parts, prev, count) && |parts.numStr.value| == prevNumStrLen {
        StepJoins(s, n, done, prev, count, prevNumStrLen);
        count := count + 1;
      } else {
        if i >= off {
          StepCuts(s, n, done, prev, count, prevNumStrLen);
        }
        if prev.fullName != "" {
          groups[numGroups] := GroupText(prev, count);
          numGroups := numGroups + 1;
          done := done + [GroupText(prev, count)];
          if numGroups == MAX_NUM_GROUPS {
            RunsGrow(s, n + 1);
            return;
          }
        }
        prev := parts;
        if prev.numStr.Some? {
          prevNumStrLen := |prev.numStr.value|;
        }
        count := 0;
      }
    }
    LoopStateAtEnd(s, done, prev, count, prevNumStrLen);
  }

  lemma EmptyOpens(s: seq<string>)
    ensures !Continues(NodeToParts(""), INIT_PREV_PARTS, 0)
    ensures NodeToParts("").numStr.None? && LoopState(s[..0], [], NodeToParts(""), 0, -1)
  {
    EmptyNameParts();
  }

  lemma LoopStateAtStart(s: seq<string>)
    ensures LoopState(s[..0], [], INIT_PREV_PARTS, 0, -1)
  {
  }

  lemma LoopStateAtEnd(s: seq<string>, groups: seq<string>, prev: NodeParts, count: int, width: int)
    requires LoopState(s[..|s|], groups, prev, count, width)
    ensures LoopState(s, groups, prev, count, LastWidth(s))
  {
    assert s[..|s|] == s;
  }

  lemma LastGroup(sorted: seq<string>, groups: seq<string>, prev: NodeParts, count: int)
    requires sorted != [] && prev.num >= 0
    requires LoopState(Nonempty(sorted), groups, prev, count, LastWidth(Nonempty(sorted)))
    ensures count >= 0
    ensures groups + [GroupText(prev, count)] == if Nonempty(sorted) == [] then [""] else RunTexts(Runs(Nonempty(sorted)))
  {
    hide FmtGroup, Runs, NodeToParts, RunTexts, LastWidth;
    if Nonempty(sorted) == [] {
      EmptyNameParts();
    } else {
      LastRun(Nonempty(sorted), groups, prev, count);
    }
  }

  lemma LastRun(s: seq<string>, groups: seq<string>, prev: NodeParts, count: int)
    requires s != [] && LoopState(s, groups, prev, count, LastWidth(s))
    ensures prev.num >= 0 && count >= 0
    ensures groups + [GroupText(prev, count)] == RunTexts(Runs(s))
  {
    hide NodeToParts, FmtGroup, Runs;
    var runs := Runs(s);
    assert RunTexts(runs) == RunTexts(runs[..|runs| - 1]) + [RunText(Last(runs))];
  }

  /** One name is printed as it is. A run is printed with its first number as it stands, and of its
      last number the digits from the first one on that differs. */
  lemma RunIsWritten(run: seq<string>) returns (k: nat)
    requires run != [] && NodeToParts(run[0]).numStr.Some?
    ensures |run| == 1 ==> RunText(run) == run[0]
    ensures var a := NodeToParts(run[0]);
            var first, last := Itoa(a.num), Itoa(a.num + |run| - 1);
            |run| > 1 ==>
              && k < |last| && RunText(run) == a.prefix + a.numStr.value + ".." + last[k..] + a.domain
              && (if |first| < |last| then k == 0
                  else |first| == |last| && first[..k] == last[..k] && first[k] != last[k])
  {
    hide NodeToParts, Itoa, Suffix;
    var a := NodeToParts(run[0]);
    k := 0;
    if |run| > 1 {
      k := SuffixIsShortest(a.num, a.num + |run| - 1);
    }
  }

  lemma CompressedText(s: seq<string>)
    ensures var runs := Runs(s);
            Compressed(s) == if runs == [] || |runs| > 65536 then ""
                             else WithCommas(RunTexts(runs[..|runs| - 1])) + RunText(Last(runs))
  {
    hide Runs, RunText;
    var runs := Runs(s);
    if runs != [] {
      assert RunTexts(runs)[..|runs| - 1] == RunTexts(runs[..|runs| - 1]);
    }
  }

  /** do_range_compress. */
  method DoRangeCompress(members: seq<string>) returns (result: string)
    requires Distinct(members)
    ensures result == Compressed(Nonempty(Sort(members)))
    ensures var runs := Runs(Nonempty(Sort(members)));
            result == if runs == [] || |runs| > 65536 then ""
                      else WithCommas(RunTexts(runs[..|runs| - 1])) + RunText(Last(runs))
  {
    hide NodeToParts, FmtGroup, Runs, LoopState, GroupText, Sort, RunText, Before;
    CompressedText(Nonempty(Sort(members)));
    SortIsSorted(members);
    EmptyIsFirst(Sort(members));
    if |members| == 0 {
      return "";
    }
    var sorted := Sort(members);
    var groups := new string[MAX_NUM_GROUPS](_ => "");
    var numGroups, prev, count, done := FillGroups(sorted, groups);
    if numGroups == MAX_NUM_GROUPS {
      return "";
    }
    LastGroup(sorted, done, prev, count);
    groups[numGroups] := GroupText(prev, count);
    ghost var texts := done + [GroupText(prev, count)];
    result := "";
    for i := 0 to numGroups
      invariant result == WithCommas(texts[..i])
    {
      assert texts[..i + 1][..i] == texts[..i];
      result := result + groups[i] + ",";
    }
    result := result + groups[numGroups];
  }

  /** More names never make fewer runs. */
  lemma {:induction false} RunsGrow(s: seq<string>, n: nat)
    requires n <= |s|
    ensures |Runs(s[..n])| <= |Runs(s)|
  {
    if n == |s| {
      assert s[..n] == s;
    } else {
      RunsGrow(s[..|s| - 1], n);
      assert s[..|s| - 1][..n] == s[..n];
    }
  }
}
