/** A request that expands the text printed for a range holds the same names. */
module EndToEnd {
  import opened Text
  import opened NodeParts
  import opened NodeRange
  import opened RangeExpand
  import opened RangeSort
  import opened RangeCompress
  import opened RangeGroups
  import opened Grammar
  import opened Scanner
  import opened Semantics
  import opened TokenLists
  import opened PrintedRuns
  import opened RoundTrip
  import opened ClusterSemantics
  import opened HashSets
  import opened Ranges
  import opened Evaluator
  import Results

  // How many names the items of a list add.

  function TokenWeight(t: Token): nat {
    match t
    case Literal(_) => 1
    case Parts(p) => |Expansion(p)|
    case _ => 0
  }

  function Weight(ts: seq<Token>): nat {
    if ts == [] then 0 else Weight(ts[..|ts| - 1]) + TokenWeight(ts[|ts| - 1])
  }

  lemma {:induction false} WeightConcat(a: seq<Token>, b: seq<Token>)
    ensures Weight(a + b) == Weight(a) + Weight(b)
  {
    hide TokenWeight;
    if b == [] {
      assert a + b == a;
    } else {
      var n := |b| - 1;
      assert (a + b)[..|a + b| - 1] == a + b[..n];
      WeightConcat(a, b[..n]);
    }
  }

  lemma WeightSingle(t: Token)
    ensures Weight([t]) == TokenWeight(t) && Weight([]) == 0
  {
    assert [t][..0] == [];
  }

  lemma {:induction false} NamesWithinWeight(ts: seq<Token>)
    ensures |AllNames(ts)| <= Weight(ts)
  {
    hide Expansion;
    if ts != [] {
      NamesWithinWeight(ts[..|ts| - 1]);
      var t := ts[|ts| - 1];
      if t.Parts? {
        CountedAtMost(Expansion(t.parts));
      }
      SizeOfUnion(AllNames(ts[..|ts| - 1]), TokenNames(t));
    }
  }

  lemma SizeOfUnion(a: set<string>, b: set<string>)
    ensures |a + b| <= |a| + |b|
  {
    assert a + b == a + (b - a);
    SubsetSize(b - a, b);
  }

  lemma SublistTokens(a: seq<Token>, b: seq<Token>)
    requires forall t :: t in a + [Sym(',')] + b ==> IsListToken(t)
    ensures forall t :: t in a || t in b ==> IsListToken(t)
    ensures Weight(a + [Sym(',')] + b) == Weight(a) + Weight(b)
  {
    var ts := a + [Sym(',')] + b;
    assert forall t :: t in a || t in b ==> t in ts;
    WeightConcat(a + [Sym(',')], b);
    WeightConcat(a, [Sym(',')]);
    WeightSingle(Sym(','));
  }

  /** Every derivation of a list that stays within the int, and whose items add fewer names than
      the largest table has room for, fits; it reads no section, and its value is unquoted. */
  lemma {:induction false} ListFits(env: Env, d: Deriv)
    requires forall t :: t in Yield(d) ==> IsListToken(t)
    requires TokensInInt(Yield(d)) && Weight(Yield(d)) < BIG
    ensures Fits(env, Meaning(d)) && Fixed(Meaning(d)) && !Eval(env, Meaning(d)).quoted
  {
    hide Expansion, InInt, TokensInInt, Weight, AllNames, IsListToken;
    match d
    case DParts(p) =>
      WeightSingle(Parts(p));
      SingleInInt(Parts(p));
    case DUnion(l, r) =>
      SublistTokens(Yield(l), Yield(r));
      ConcatInInt(Yield(l), Yield(r));
      ListFits(env, l);
      ListFits(env, r);
      ListMeansUnion(env, l);
      ListMeansUnion(env, r);
      NamesWithinWeight(Yield(l));
      NamesWithinWeight(Yield(r));
    case DEmpty =>
    case DLiteral(_) =>
    case _ =>
      NotAList(d);
  }

  // A printed text adds each name once.

  lemma RunWeight(run: seq<string>)
    requires CleanRun(run) && forall x :: x in run ==> ValidName(x)
    ensures TokenWeight(WordToken(RunText(run))) == |run|
  {
    hide CleanRun, RunText, WordToken, Expansion, RunParts, ValidName;
    RunToken(run);
    CleanNotEmpty(run);
    if |run| > 1 {
      ValidRunIsOneLine(run);
      RunExpands(run);
    } else {
      SingleIsLiteral(run);
    }
  }

  lemma SingleIsLiteral(run: seq<string>)
    requires |run| == 1 && ValidName(run[0])
    ensures WordToken(RunText(run)).Literal?
  {
    NoDotsNoRange(run[0]);
  }

  lemma {:induction false} RunsWeight(s: seq<string>, n: nat)
    requires GoodRuns(s, n) && forall x :: x in s ==> ValidName(x)
    ensures Weight(CommaTokens(RunTexts(Runs(s))[..n])) == |Flatten(Runs(s)[..n])|
  {
    hide Runs, RunText, WordToken, TokenWeight, ValidName, CleanRun, BadRun, Weight, CommaTokens, Flatten, TokenNames,
      Elements, InIntToken, Overflows, IsWord, IsAtom, InRun;
    var texts := RunTexts(Runs(s));
    if n == 0 {
      NothingWeighs(texts, Runs(s));
    } else {
      RunsWeight(s, n - 1);
      GoodRunToken(s, n, n - 1);
      RunsHoldNames(s, n - 1);
      RunWeight(Runs(s)[n - 1]);
      WeightOneMore(texts[..n - 1], texts[n - 1]);
      assert texts[..n] == texts[..n - 1] + [texts[n - 1]];
      assert Runs(s)[..n] == Runs(s)[..n - 1] + [Runs(s)[n - 1]];
      FlattenSnoc(Runs(s)[..n - 1], Runs(s)[n - 1]);
    }
  }

  lemma NothingWeighs(texts: seq<string>, runs: seq<seq<string>>)
    ensures Weight(CommaTokens(texts[..0])) == 0 && Flatten(runs[..0]) == []
  {
  }

  lemma WeightOneMore(words: seq<string>, w: string)
    ensures Weight(CommaTokens(words + [w])) == Weight(CommaTokens(words)) + TokenWeight(WordToken(w))
    ensures Weight(CommaTokens(words) + [WordToken(w)]) == Weight(CommaTokens(words)) + TokenWeight(WordToken(w))
  {
    hide CommaTokens, TokenWeight, WordToken;
    CommaTokensSnoc(words, w);
    WeightConcat(CommaTokens(words), [WordToken(w)]);
    WeightConcat(CommaTokens(words) + [WordToken(w)], [Sym(',')]);
    WeightSingle(WordToken(w));
    WeightSingle(Sym(','));
    CommaWeighsNothing();
  }

  lemma CommaWeighsNothing()
    ensures TokenWeight(Sym(',')) == 0
  {
  }

  lemma PrintedWeight(s: seq<string>)
    requires s != [] && GoodRuns(s, |Runs(s)|) && forall x :: x in s ==> ValidName(x)
    ensures Weight(Scan(Join(RunTexts(Runs(s))))) == |s|
  {
    hide Runs, RunText, WordToken, ValidName, Weight, Scan, Join, BadRun, Flatten, CommaTokens;
    var texts := RunTexts(Runs(s));
    var n := |texts| - 1;
    RunTextsAreAtoms(s, |texts|);
    assert texts[..|texts|] == texts && Runs(s)[..|texts|] == Runs(s);
    ScanJoin(texts);
    RunsWeight(s, |texts|);
    RunsPartition(s);
    WeightOneMore(texts[..n], texts[n]);
    assert texts == texts[..n] + [texts[n]];
  }

  // Printing a range and expanding the text.

  /** The parser finds a derivation of the tokens exactly when there is one. */
  ghost predicate Parses(defs: Defs) {
    forall text :: match defs.parse(text)
                   case Some(d) => Yield(d) == Scan(text)
                   case None => forall d :: Yield(d) != Scan(text)
  }

  lemma ParsedIs(defs: Defs, text: string)
    requires Parses(defs)
    ensures defs.parse(text).Some? ==> Yield(defs.parse(text).value) == Scan(text)
    ensures defs.parse(text).None? ==> forall d :: Yield(d) != Scan(text)
  {
  }

  /** What expanding the printed text gives, and that it fits. */
  lemma PrintedTextReady(rr: Request, k: nat, members: seq<string>)
    requires Parses(rr.defs) && ValidNames(members) && |members| < BIG
    requires PrintsAll(members) ==> !PrintsOverflow(members)
    ensures var text := Some(Compressed(Sort(members)));
            && TextReady(rr, k, text)
            && TextValue(rr, text) == RangeVal(if PrintsAll(members) then Elements(members) else {}, false)
  {
    hide ValidName, StaleWidth, Runs, NodeToParts, Eval, Meaning, Yield, Scan, Overflows, Join, Before, Parses, Fits,
      ReadsBelow, Clean;
    var s := Sort(members);
    var text := Compressed(s);
    SortIsSorted(members);
    assert Elements(s) == Elements(members);
    CleanUnlessStale(s);
    ParsedIs(rr.defs, text);
    if s == [] || |Runs(s)| > MAX_NUM_GROUPS {
      EmptyTokens();
      assert s == [] ==> Elements(members) == {};
      ListReady(rr, k, text);
    } else if Clean(s) {
      BadRunUnlessClean(s);
      var d := PrintedTokens(s);
      PrintedWeight(s);
      ListReady(rr, k, text);
      assert rr.defs.parse(text).Some?;
    } else {
      forall d ensures Yield(d) != Scan(text) { NullIsSyntaxError(s, d); }
    }
  }

  lemma EmptyTokens()
    ensures Scan("") == [] && AllNames([]) == {} && TokensInInt([]) && Weight([]) == 0 && Yield(DEmpty) == []
  {
  }

  /** A list text is ready to be expanded. */
  lemma ListReady(rr: Request, k: nat, text: string)
    requires rr.defs.parse(text).Some? ==> Yield(rr.defs.parse(text).value) == Scan(text)
    requires (forall t :: t in Scan(text) ==> IsListToken(t)) && TokensInInt(Scan(text)) && Weight(Scan(text)) < BIG
    ensures TextReady(rr, k, Some(text))
    ensures rr.defs.parse(text).Some? ==> TextValue(rr, Some(text)) == RangeVal(AllNames(Scan(text)), false)
  {
    hide Scan, IsListToken, TokensInInt, Weight, AllNames, Eval, Meaning, Yield, Fits, ReadsBelow, Fixed;
    if rr.defs.parse(text).Some? {
      var d := rr.defs.parse(text).value;
      ListFits(rr.Env(), d);
      ListMeansUnion(rr.Env(), d);
      FixedReads(rr.defs, rr.value, rr.rank, k, Meaning(d));
    }
  }

  lemma NoEmptyName(members: seq<string>)
    requires ValidNames(members)
    ensures Nonempty(Sort(members)) == Sort(members)
  {
    hide NodeToParts, Sort, HasDots;
    SortIsSorted(members);
    var s := Sort(members);
    assert s != [] ==> s[0] in members;
  }

  /** range_request_compressed, and range_expand on its text: the request ends up holding the same
      names, unless the set is of the family that prints a null pointer or needs too many groups,
      when it holds none. The set must not print a range that overflows. */
  method PrintThenExpand(rr: Request, ghost k: nat, r: Range, ghost v: RangeVal, ghost members: seq<string>)
    returns (text: string, again: Range)
    requires Ready(rr, k) && Parses(rr.defs) && IsRange(r, v) && Small(v)
    requires ValidNames(members) && Elements(members) == v.names
    requires PrintsAll(members) ==> !PrintsOverflow(members)
    modifies rr`r
    ensures text == Compressed(Sort(members))
    ensures rr.r == Some(again) && fresh(again.nodes.Repr)
    ensures IsRange(again, RangeVal(if PrintsAll(members) then v.names else {}, false))
  {
    hide Ready, IsRange, Parses, Compressed, Sort, ValidName, PrintsAll, PrintsOverflow, TextReady, TextValue, Nonempty;
    DistinctCounts(members);
    NoEmptyName(members);
    PrintedTextReady(rr, k, members);
    text := Results.RequestCompressed(r, v);
    again := DoRangeExpand(rr, k, Some(text));
  }

  lemma {:induction false} DistinctCounts(names: seq<string>)
    requires Distinct(names)
    ensures |Elements(names)| == |names|
  {
    if names != [] {
      var n := |names| - 1;
      DistinctCounts(names[..n]);
      assert names == names[..n] + [names[n]];
      ElementsConcat(names[..n], [names[n]]);
      assert names[n] !in Elements(names[..n]);
      assert Elements(names) == Elements(names[..n]) + {names[n]};
    }
  }
}
