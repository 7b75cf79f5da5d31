/** Expanding the KEYS section of a cluster gives the names of its sections. */
module KeysExpand {
  import opened Text
  import opened NodeRange
  import opened Grammar
  import opened Scanner
  import opened Semantics
  import opened TokenLists
  import ClusterKeys

  /** A section name that the scanner reads as one host name. */
  predicate PlainName(x: string) {
    IsWord(x) && !HasDots(x)
  }

  lemma PlainNameToken(x: string)
    requires PlainName(x)
    ensures WordToken(x) == Literal(x)
  {
    hide RangepartsFromHostname;
    NoDotsNoRange(x);
  }

  lemma {:induction false} CommasAreSeparators(names: seq<string>)
    ensures WithCommas(names) == ClusterKeys.WithSeparators(names, ',')
  {
    if names != [] {
      CommasAreSeparators(names[..|names| - 1]);
    }
  }

  lemma {:induction false} PlainTokens(names: seq<string>)
    requires forall x :: x in names ==> PlainName(x)
    ensures AllNames(CommaTokens(names)) == Elements(names)
    ensures forall x :: x in names ==> IsWord(x) && IsAtom(WordToken(x))
  {
    hide AllNames, CommaTokens, WordToken, PlainName;
    forall x | x in names ensures IsWord(x) && IsAtom(WordToken(x)) {
      PlainIsAtom(x);
    }
    if names == [] {
      NoTokens();
    } else {
      var n := |names| - 1;
      PlainTokens(names[..n]);
      PlainNameToken(names[n]);
      assert names == names[..n] + [names[n]];
      CommaTokensSnoc(names[..n], names[n]);
      ElementsConcat(names[..n], [names[n]]);
    }
  }

  lemma NoTokens()
    ensures AllNames(CommaTokens([])) == {} && Elements<string>([]) == {}
  {
  }

  lemma PlainIsAtom(x: string)
    requires PlainName(x)
    ensures IsWord(x) && IsAtom(WordToken(x))
  {
    PlainNameToken(x);
  }

  /** The text that lists plain section names expands to these names and to nothing else. */
  lemma KeysExpandToNames(env: Env, names: seq<string>, result: set<string>)
    requires names != [] && forall x :: x in names ==> PlainName(x)
    ensures Expands(env, ClusterKeys.Joined(names, ','), result) <==> result == Elements(names)
  {
    hide AllNames, CommaTokens, WordToken, PlainName, Scan, IsWord, Yield, Eval, Meaning, Expands, TokensInInt;
    var n := |names| - 1;
    CommasAreSeparators(names[..n]);
    PlainTokens(names);
    ScanJoin(names);
    CommaTokensSnoc(names[..n], names[n]);
    CommaTokensAreList(names[..n]);
    assert names == names[..n] + [names[n]];
    var d := ListDerives(names[..n], names[n]);
    PlainInInt(names);
    LastInInt(CommaTokens(names[..n]), WordToken(names[n]));
    ListExpands(env, ClusterKeys.Joined(names, ','), d, result);
  }

  lemma PlainInInt(names: seq<string>)
    requires names != [] && forall x :: x in names ==> PlainName(x)
    ensures TokensInInt(CommaTokens(names[..|names| - 1])) && InIntToken(WordToken(names[|names| - 1]))
  {
    hide WordToken, PlainName, CommaTokens, TokensInInt;
    forall x | x in names ensures InIntToken(WordToken(x)) { PlainNameToken(x); }
    CommaTokensInInt(names[..|names| - 1]);
  }
}
