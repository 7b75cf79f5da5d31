/** Printing a set of names and expanding the printed text. */
module RoundTrip {
  import opened Text
  import opened Decimal
  import opened Pcre
  import opened NodeParts
  import opened RangeExpand
  import opened RangeSort
  import opened RangeCompress
  import opened RangeGroups
  import opened Grammar
  import opened Scanner
  import opened Semantics
  import opened TokenLists
  import opened PrintedRuns

  lemma RunsHoldNames(s: seq<string>, i: nat)
    requires i < |Runs(s)|
    ensures InRun(Runs(s)[i]) && Runs(s)[i][0] in s && |Runs(s)[i]| <= |s|
    ensures forall x :: x in Runs(s)[i] ==> x in s
  {
    RunsCount(s);
    OpenRunIsFromNames(s, Runs(s)[i]);
    RunsPartition(s);
    FlattenLength(Runs(s), i);
  }

  lemma {:induction false} FlattenLength<T>(r: seq<seq<T>>, i: nat)
    requires i < |r|
    ensures |r[i]| <= |Flatten(r)|
  {
    if i < |r| - 1 {
      FlattenLength(r[..|r| - 1], i);
    }
  }

  /** The first n runs start with numbered names or stand alone. */
  ghost predicate GoodRuns(s: seq<string>, n: nat) {
    n <= |Runs(s)| && forall i :: 0 <= i < n ==> !BadRun(Runs(s)[i])
  }

  lemma GoodRunToken(s: seq<string>, n: nat, i: nat)
    requires GoodRuns(s, n) && i < n && forall x :: x in s ==> ValidName(x)
    ensures CleanRun(Runs(s)[i]) && ValidName(Runs(s)[i][0])
    ensures var text := RunText(Runs(s)[i]);
            && IsWord(text) && IsAtom(WordToken(text)) && TokenNames(WordToken(text)) == Elements(Runs(s)[i])
            && (InIntToken(WordToken(text)) <==> !Overflows(Runs(s)[i]))
  {
    hide Runs, NodeToParts, RunText, WordToken, TokenNames, Elements, CleanRun, BadRun, ValidName;
    RunsHoldNames(s, i);
    RunsCleanOrBad(s);
    var run := Runs(s)[i];
    assert run in Runs(s);
    RunToken(run);
    RunTokenInInt(run);
    CleanNotEmpty(run);
  }

  /** Every good run is printed as a word. */
  lemma RunTextsAreAtoms(s: seq<string>, n: nat)
    requires GoodRuns(s, n) && forall x :: x in s ==> ValidName(x)
    ensures forall w :: w in RunTexts(Runs(s))[..n] ==> IsWord(w) && IsAtom(WordToken(w))
  {
    forall i | 0 <= i < n
      ensures IsWord(RunTexts(Runs(s))[i]) && IsAtom(WordToken(RunTexts(Runs(s))[i]))
    {
      GoodRunToken(s, n, i);
    }
  }

  lemma TokensHoldOneMore(s: seq<string>, n: nat)
    requires n < |Runs(s)|
    ensures var texts := RunTexts(Runs(s));
            && AllNames(CommaTokens(texts[..n + 1]))
                 == AllNames(CommaTokens(texts[..n])) + TokenNames(WordToken(texts[n]))
            && Elements(Flatten(Runs(s)[..n + 1])) == Elements(Flatten(Runs(s)[..n])) + Elements(Runs(s)[n])
  {
    hide Runs, AllNames, CommaTokens, TokenNames, WordToken, Flatten, RunText, Elements;
    var texts := RunTexts(Runs(s));
    assert texts[..n + 1] == texts[..n] + [texts[n]];
    CommaTokensSnoc(texts[..n], texts[n]);
    assert Runs(s)[..n + 1] == Runs(s)[..n] + [Runs(s)[n]];
    FlattenSnoc(Runs(s)[..n], Runs(s)[n]);
    ElementsConcat(Flatten(Runs(s)[..n]), Runs(s)[n]);
  }

  lemma {:induction false} TokensHoldRuns(s: seq<string>, n: nat)
    requires GoodRuns(s, n) && forall x :: x in s ==> ValidName(x)
    ensures AllNames(CommaTokens(RunTexts(Runs(s))[..n])) == Elements(Flatten(Runs(s)[..n]))
  {
    if n > 0 {
      TokensHoldRuns(s, n - 1);
      GoodRunToken(s, n, n - 1);
      TokensHoldOneMore(s, n - 1);
    }
  }

  /** The ranges printed stay within the int exactly when no run overflows. */
  lemma TextsInInt(s: seq<string>)
    requires s != [] && GoodRuns(s, |Runs(s)|) && forall x :: x in s ==> ValidName(x)
    ensures var texts := RunTexts(Runs(s));
            TokensInInt(CommaTokens(texts[..|texts| - 1]) + [WordToken(Last(texts))]) <==>
              forall run :: run in Runs(s) ==> !Overflows(run)
  {
    hide Runs, RunText, WordToken, CommaTokens, InIntToken, BadRun, ValidName, Overflows;
    var texts := RunTexts(Runs(s));
    var n := |texts| - 1;
    CommaTokensInInt(texts[..n]);
    forall i | 0 <= i < |texts| ensures InIntToken(WordToken(texts[i])) <==> !Overflows(Runs(s)[i]) {
      GoodRunToken(s, |texts|, i);
    }
    LastInInt(CommaTokens(texts[..n]), WordToken(texts[n]));
    assert forall w :: w in texts <==> w in texts[..n] || w == texts[n];
    assert forall run :: run in Runs(s) ==> exists i :: 0 <= i < |texts| && Runs(s)[i] == run;
    assert forall i :: 0 <= i < |texts| ==> texts[i] in texts;
    assert forall w :: w in texts ==> exists i :: 0 <= i < |texts| && texts[i] == w;
  }

  /** The tokens of the printed text are the items of a list whose names are those printed. */
  lemma PrintedTokens(s: seq<string>) returns (d: Deriv)
    requires s != [] && GoodRuns(s, |Runs(s)|) && forall x :: x in s ==> ValidName(x)
    ensures var ts := Scan(Join(RunTexts(Runs(s))));
            && Yield(d) == ts
            && AllNames(ts) == Elements(s)
            && (TokensInInt(ts) <==> forall run :: run in Runs(s) ==> !Overflows(run))
            && forall t :: t in ts ==> IsListToken(t)
  {
    hide Runs, RunText, WordToken, CommaTokens, AllNames, TokenNames, Scan, Flatten, BadRun, ValidName, Join, Yield,
      TokensInInt, Overflows;
    TextsInInt(s);
    var texts := RunTexts(Runs(s));
    var n := |texts| - 1;
    RunTextsAreAtoms(s, |texts|);
    assert texts[..|texts|] == texts && Runs(s)[..|texts|] == Runs(s);
    ScanJoin(texts);
    d := ListDerives(texts[..n], texts[n]);
    CommaTokensAreList(texts[..n]);
    TokensHoldRuns(s, |texts|);
    RunsPartition(s);
    assert texts == texts[..n] + [texts[n]];
    CommaTokensSnoc(texts[..n], texts[n]);
  }

  // What goes wrong when an unnumbered name is continued.

  lemma FirstBadRun(s: seq<string>) returns (r: nat)
    requires !Clean(s)
    ensures r < |Runs(s)| && BadRun(Runs(s)[r]) && GoodRuns(s, r)
  {
    BadRunUnlessClean(s);
    hide Runs, BadRun, Joins, Clean;
    var run :| run in Runs(s) && BadRun(run);
    var j :| 0 <= j < |Runs(s)| && Runs(s)[j] == run;
    r := 0;
    while !BadRun(Runs(s)[r])
      invariant r <= j
      invariant forall k :: 0 <= k < r ==> !BadRun(Runs(s)[k])
      decreases j - r
    {
      r := r + 1;
    }
  }

  lemma {:induction false} JoinSplit(texts: seq<string>, r: nat) returns (tail: string)
    requires r < |texts|
    ensures Join(texts) == WithCommas(texts[..r]) + (texts[r] + tail)
  {
    var n := |texts| - 1;
    if r == n {
      tail := "";
      assert texts[r] + "" == texts[r];
    } else {
      var tail' := JoinSplit(texts[..n], r);
      assert texts[..n][..r] == texts[..r];
      assert texts[..n][..n - 1] == texts[..n - 1];
      tail := tail' + "," + texts[n];
      calc {
        Join(texts);
        Join(texts[..n]) + "," + texts[n];
        WithCommas(texts[..r]) + (texts[r] + tail') + "," + texts[n];
        WithCommas(texts[..r]) + (texts[r] + tail);
      }
    }
  }

  lemma ScanAtom(s: string)
    requires s != "" && s[0] == '.'
    ensures Scan(s) != [] && IsAtom(Scan(s)[0])
  {
  }

  /** A null number string prints as "(null)": an atom follows a closing parenthesis. */
  lemma ScanNull(rest: string)
    requires rest != "" && rest[0] == '.'
    ensures AtomAfterParen(Scan("(null)" + rest), 2)
  {
    hide Scan;
    var afterNull := [')'] + rest;
    var afterOpen := "null" + afterNull;
    assert "(null)" + rest == ['('] + afterOpen;
    ScanParen("(null)" + rest);
    ScanWord("null", afterNull);
    ScanParen(afterNull);
    ScanAtom(rest);
  }

  lemma NullText(x: string)
    ensures "" + "(null)" + ".." + x + "" == "(null)" + (".." + x)
  {
  }

  lemma BadRunText(run: seq<string>)
    requires BadRun(run)
    ensures RunText(run) == "(null)" + (".." + Suffix(0, |run| - 1))
  {
    NodeToPartsIsShortestSplit(run[0]);
    hide NodeToParts, Suffix, ShortestSplit, Splits;
    NullText(Suffix(0, |run| - 1));
  }

  lemma AtomAfterParenLater(a: seq<Token>, b: seq<Token>, i: int)
    requires AtomAfterParen(b, i)
    ensures AtomAfterParen(a + b, |a| + i)
  {
  }

  lemma BadTextTokens(words: seq<string>, run: seq<string>, tail: string)
    requires BadRun(run) && forall w :: w in words ==> IsWord(w)
    ensures AtomAfterParen(Scan(WithCommas(words) + (RunText(run) + tail)), |CommaTokens(words)| + 2)
  {
    ScanCommas(words, RunText(run) + tail);
    BadRunText(run);
    var dots := ".." + Suffix(0, |run| - 1);
    Assoc("(null)", dots, tail);
    ScanNull(dots + tail);
    AtomAfterParenLater(CommaTokens(words), Scan(RunText(run) + tail), 2);
  }

  /** The printed text of such a set is a syntax error. */
  lemma NullIsSyntaxError(s: seq<string>, d: Deriv)
    requires !Clean(s) && forall x :: x in s ==> ValidName(x)
    ensures Yield(d) != Scan(Join(RunTexts(Runs(s))))
  {
    var r := FirstBadRun(s);
    var texts := RunTexts(Runs(s));
    var tail := JoinSplit(texts, r);
    RunTextsAreAtoms(s, r);
    BadTextTokens(texts[..r], Runs(s)[r], tail);
    NoAtomAfterParen(d);
  }

  // The round trip.

  /** The printed text has a derivation of its own: it holds no null pointer and all the groups. */
  ghost predicate PrintsAll(members: seq<string>) {
    !StaleWidth(Elements(members)) && |Runs(Sort(members))| <= MAX_NUM_GROUPS
  }

  /** Some run is printed with INT_MAX as its last number, which the expansion loop steps past. */
  ghost predicate PrintsOverflow(members: seq<string>) {
    exists run :: run in Runs(Sort(members)) && Overflows(run)
  }

  /** When printing and expanding a set gives the set back. */
  ghost predicate PrintsFaithfully(members: seq<string>) {
    PrintsAll(members) && !PrintsOverflow(members)
  }

  lemma EmptyExpands(env: Env, names: set<string>)
    ensures Expands(env, "", names) <==> names == {}
  {
    assert Yield(DEmpty) == Scan("") && Defined(Meaning(DEmpty));
    forall d | Yield(d) == Scan("") ensures Eval(env, Meaning(d)).names == {} {
      ListMeansUnion(env, d);
    }
  }

  /** The round trip: expanding the printed text gives the set exactly when the set is not of
      the stale-width family, needs at most 65536 groups and has no run that overflows. In the
      first two cases it gives the empty range, in the last C gives it no value. */
  lemma RoundTrip(env: Env, members: seq<string>, names: set<string>)
    requires ValidNames(members)
    ensures Expands(env, Compressed(Sort(members)), names)
       <==> if PrintsAll(members) then !PrintsOverflow(members) && names == Elements(members) else names == {}
  {
    hide ValidName, Overflows, NodeToParts, Eval, Scan, Runs, StaleWidth, Expands, Clean, Join, TokensInInt;
    var s := Sort(members);
    SortIsSorted(members);
    assert Elements(s) == Elements(members);
    CleanUnlessStale(s);
    if s == [] || |Runs(s)| > MAX_NUM_GROUPS {
      EmptyExpands(env, names);
      assert s == [] ==> Elements(members) == {} && Runs(s) == [];
    } else if Clean(s) {
      BadRunUnlessClean(s);
      var d0 := PrintedTokens(s);
      ListExpands(env, Compressed(s), d0, names);
    } else {
      NoDerivation(env, s, names);
    }
  }

  lemma NoDerivation(env: Env, s: seq<string>, names: set<string>)
    requires s != [] && !Clean(s) && forall x :: x in s ==> ValidName(x)
    ensures Expands(env, Join(RunTexts(Runs(s))), names) <==> names == {}
  {
    hide ValidName, Scan, Runs, Join, RunText, Eval;
    forall d ensures Yield(d) != Scan(Join(RunTexts(Runs(s)))) { NullIsSyntaxError(s, d); }
  }

  /** Hence the set comes back if and only if it is faithfully printed. */
  lemma RoundTripExact(env: Env, members: seq<string>)
    requires ValidNames(members)
    ensures Expands(env, Compressed(Sort(members)), Elements(members)) <==> PrintsFaithfully(members)
  {
    hide ValidName, Expands, NodeToParts, StaleWidth, Compressed;
    RoundTrip(env, members, Elements(members));
    if members == [] {
      SortIsSorted(members);
      assert Sort(members) == [];
      NotStale({});
    } else {
      assert members[0] in Elements(members);
    }
  }

  /** Printing, expanding and printing again changes nothing. */
  lemma CompressExpandCompress(env: Env, members: seq<string>, again: seq<string>)
    requires ValidNames(members) && PrintsFaithfully(members) && Distinct(again)
    requires Expands(env, Compressed(Sort(members)), Elements(again))
    ensures Compressed(Sort(again)) == Compressed(Sort(members))
  {
    RoundTrip(env, members, Elements(again));
    assert forall x :: x in members <==> x in Elements(members);
    assert forall x :: x in again <==> x in Elements(again);
    SortCanonical(members, again);
  }

  /** No set with this many names has a run that overflows. */
  const MAX_MEMBERS := INT_MAX - 1_999_999_999

  lemma PrintedRangesStayInInt(members: seq<string>)
    requires ValidNames(members) && |members| <= MAX_MEMBERS
    ensures !PrintsOverflow(members)
  {
    hide NodeToParts, Before;
    SortIsSorted(members);
    var s := Sort(members);
    forall run | run in Runs(s) ensures !Overflows(run) {
      var i :| 0 <= i < |Runs(s)| && Runs(s)[i] == run;
      RunsHoldNames(s, i);
      assert |run| > 1 ==> Counts(run[0], run[|run| - 1], |run| - 1);
    }
  }

  // The smallest example of the family that does not come back.

  lemma BareNumber(x: string)
    requires x != "" && AllDigits(x)
    ensures NodeToParts(x) == NodeParts("", "", Value(x), Some(x), x)
  {
    assert x == "" + x + "";
    assert Splits(x, "", x, "");
    ShortestSplitUnique(x, "", x, "");
  }

  lemma NumberedHasDigit(x: string)
    requires Numbered(x)
    ensures exists i :: 0 <= i < |x| && IsDigit(x[i])
  {
    NodeToPartsIsShortestSplit(x);
    var r := NodeToParts(x);
    assert x[|r.prefix|] == r.numStr.value[0];
  }

  lemma StaleExample(env: Env, names: set<string>)
    ensures ValidNames(["0", "foo", "1"])
    ensures Expands(env, Compressed(Sort(["0", "foo", "1"])), names) <==> names == {}
  {
    hide NodeToParts, Sort, Compressed, Eval, Scan, Before, Runs, StaleWidth;
    StaleNames();
    RoundTrip(env, ["0", "foo", "1"], names);
  }

  lemma StaleNames()
    ensures ValidNames(["0", "foo", "1"]) && StaleWidth(Elements(["0", "foo", "1"]))
  {
    hide NodeToParts;
    var members := ["0", "foo", "1"];
    BareNumber("0");
    BareNumber("1");
    if Numbered("foo") {
      NumberedHasDigit("foo");
    }
    Unnumbered("foo");
    assert "0"[..0] == "" && "1"[..0] == "";
    assert Value("0") == 0 && Value("1") == 1;
    assert members[0] == "0" && members[1] == "foo" && members[2] == "1";
    assert Elements(members) == {"0", "foo", "1"};
    assert StaleTriple(Elements(members), "0", "foo", "1") by {
      BeforeIrreflexive("0");
      BeforeIrreflexive("1");
    }
  }

  // The other family: a run that is printed with INT_MAX as its last number.

  predicate Digitless(p: string) {
    AllIn(NameChar, p) && forall i :: 0 <= i < |p| ==> !IsDigit(p[i])
  }

  lemma DigitAfterPrefix(p: string, num: string, i: nat)
    requires Digitless(p) && i < |p + num| && IsDigit((p + num)[i])
    ensures |p| <= i
  {
  }

  lemma NumberedName(p: string, num: string)
    requires Digitless(p) && num != "" && AllDigits(num) && Line(p + num) == p + num
    ensures NodeToParts(p + num) == NodeParts(p, "", Value(num), Some(num), p + num)
  {
    hide IsDomain;
    var name := p + num;
    assert name == p + num + "";
    forall p', num', d' | Splits(name, p', num', d') ensures |p| <= |p'| {
      assert name[|p'|] == num'[0];
      DigitAfterPrefix(p, num, |p'|);
    }
    ShortestSplitUnique(name, p, num, "");
  }

  lemma DigitsEndLine(p: string, w: nat, n: nat)
    requires w > 0
    ensures var x := p + Digits(w, n) + "";
            x == p + Digits(w, n) && Line(x) == x
  {
    var x := p + Digits(w, n);
    assert x[|x| - 1] == Digits(w, n)[w - 1];
  }

  lemma NumberedParts(p: string, w: nat, n1: nat, n2: nat, k: nat)
    requires Digitless(p) && w > 0 && k < |NumberRun(p, w, n1, n2, "")| && n2 < Pow10(w)
    ensures var x := NumberRun(p, w, n1, n2, "")[k];
            NodeToParts(x) == NodeParts(p, "", n1 + k, Some(Digits(w, n1 + k)), x)
  {
    hide NodeToParts, Pow10, Digits, Line;
    DigitsEndLine(p, w, n1 + k);
    NumberedName(p, Digits(w, n1 + k));
    BelowPower(w, n1 + k, n2);
    ValueOfDigits(w, n1 + k);
  }

  lemma BelowPower(w: nat, m: nat, n: nat)
    requires m <= n < Pow10(w)
    ensures m < Pow10(w)
  {
  }

  /** Such names are in order. */
  lemma NumberedSorted(p: string, w: nat, n1: nat, n2: nat)
    requires Digitless(p) && w > 0 && n2 < Pow10(w)
    ensures Sorted(NumberRun(p, w, n1, n2, "")) && Distinct(NumberRun(p, w, n1, n2, ""))
  {
    hide NodeToParts, Pow10, Digits, NumberRun;
    var s := NumberRun(p, w, n1, n2, "");
    forall i, j | 0 <= i < j < |s| ensures Before(s[i], s[j]) && s[i] != s[j] {
      NumberedParts(p, w, n1, n2, i);
      NumberedParts(p, w, n1, n2, j);
      StrCmpZero(p, p);
      StrCmpZero("", "");
    }
  }

  lemma NumberedJoin(p: string, w: nat, n1: nat, n2: nat, k: nat)
    requires Digitless(p) && w > 0 && 0 < k < |NumberRun(p, w, n1, n2, "")| && n2 < Pow10(w)
    ensures Joins(NumberRun(p, w, n1, n2, ""), k)
  {
    hide NodeToParts, Pow10, Digits, NumberRun, LastWidth;
    var s := NumberRun(p, w, n1, n2, "");
    NumberedParts(p, w, n1, n2, k - 1);
    NumberedParts(p, w, n1, n2, k);
    LastWidthIs(s[..k], k - 1);
  }

  /** They make one run. */
  lemma {:induction false} NumberedRun(p: string, w: nat, n1: nat, n2: nat, k: nat)
    requires Digitless(p) && w > 0 && 0 < k <= |NumberRun(p, w, n1, n2, "")| && n2 < Pow10(w)
    ensures Runs(NumberRun(p, w, n1, n2, "")[..k]) == [NumberRun(p, w, n1, n2, "")[..k]]
  {
    hide NodeToParts, Pow10, Digits, NumberRun, LastWidth;
    var s := NumberRun(p, w, n1, n2, "");
    if k == 1 {
      assert s[..1] == [s[0]];
      assert Runs(s[..1]) == [[s[0]]];
    } else {
      NumberedRun(p, w, n1, n2, k - 1);
      NumberedJoin(p, w, n1, n2, k - 1);
      JoinsPrefix(s, k, k - 1);
      assert s[..k][..k - 1] == s[..k - 1];
      assert s[..k - 1] + [s[k - 1]] == s[..k];
      assert [s[..k - 1]][..0] == [];
    }
  }

  /** The names foo1999999999 to foo2147483647, or any such names from a number no higher, are
      printed as a range that expands to no value, although they make one group. */
  lemma OverflowExample(env: Env, n1: nat, names: set<string>)
    requires n1 <= 1_999_999_999
    ensures var members := NumberRun("foo", 10, n1, INT_MAX, "");
            && |members| == INT_MAX - n1 + 1 && ValidNames(members)
            && PrintsAll(members) && PrintsOverflow(members)
            && !Expands(env, Compressed(Sort(members)), names)
  {
    hide NodeToParts, Pow10, Digits, NumberRun, Compressed, Expands, Runs, Sort, Before;
    var members := NumberRun("foo", 10, n1, INT_MAX, "");
    FooNumbers(n1);
    SortIsSorted(members);
    SortedUnique(Sort(members), members);
    NumberedRun("foo", 10, n1, INT_MAX, |members|);
    assert members[..|members|] == members;
    assert members in Runs(Sort(members)) by { assert Runs(Sort(members))[0] == members; }
    NotStale(Elements(members));
    RoundTrip(env, members, names);
  }

  lemma FooNumbers(n1: nat)
    requires n1 <= 1_999_999_999
    ensures var members := NumberRun("foo", 10, n1, INT_MAX, "");
            && |members| == INT_MAX - n1 + 1 && ValidNames(members) && Sorted(members) && Overflows(members)
            && forall x :: x in members ==> Numbered(x)
    ensures Digitless("foo") && INT_MAX < Pow10(10)
  {
    hide NodeToParts, Digits, Before;
    TenDigits();
    var members := NumberRun("foo", 10, n1, INT_MAX, "");
    NumberedSorted("foo", 10, n1, INT_MAX);
    forall i | 0 <= i < |members| ensures ValidName(members[i]) && Numbered(members[i]) {
      NumberedParts("foo", 10, n1, INT_MAX, i);
      FooIsWord(Digits(10, n1 + i));
    }
    NumberedParts("foo", 10, n1, INT_MAX, 0);
    NumberedParts("foo", 10, n1, INT_MAX, |members| - 1);
  }

  lemma FooIsWord(num: string)
    requires AllDigits(num)
    ensures IsWord("foo" + num + "") && !HasDots("foo" + num + "")
  {
    var x := "foo" + num + "";
    assert x[0] == 'f' && x[1] == 'o' && x[2] == 'o';
    assert forall i :: 3 <= i < |x| ==> x[i] == num[i - 3];
  }
}
