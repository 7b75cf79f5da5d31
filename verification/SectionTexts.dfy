/** What the text of a cluster section means: a scalar stands for itself, a list for the union of
    its items (_cluster_keys in yamlfile.c, read back by the scanner and the parser). */
module SectionTexts {
  import opened Text
  import opened Grammar
  import opened Scanner
  import opened Semantics
  import opened TokenLists
  import opened ParenLists
  import opened KeysExpand
  import opened Dollars
  import opened ClusterKeys

  /** The text closes what it opens, so that what follows it in parentheses is scanned afresh. */
  ghost predicate Standalone(text: string) {
    forall rest :: Scan(text + ")" + rest) == Scan(text) + [Sym(')')] + Scan(rest)
  }

  function InParens(texts: seq<string>): seq<string> {
    seq(|texts|, i requires 0 <= i < |texts| => "(" + texts[i] + ")")
  }

  function Scans(texts: seq<string>): seq<seq<Token>> {
    seq(|texts|, i requires 0 <= i < |texts| => Scan(texts[i]))
  }

  lemma ScanItem(text: string, rest: string)
    requires Standalone(text)
    ensures Scan("(" + text + ")" + rest) == Paren(Scan(text)) + Scan(rest)
  {
    var s := "(" + text + ")" + rest;
    assert s[1..] == text + ")" + rest;
    ScanParen(s);
  }

  lemma {:induction false} ScanItems(texts: seq<string>, rest: string)
    requires texts != [] && forall i :: 0 <= i < |texts| ==> Standalone(texts[i])
    ensures Scan(WithSeparators(InParens(texts), ',') + rest) == Wrapped(Scans(texts)) + [Sym(',')] + Scan(rest)
  {
    hide Scan, Standalone, Paren;
    var n := |texts| - 1;
    var tail := "," + rest;
    var last := "(" + texts[n] + ")" + tail;
    ScanItem(texts[n], tail);
    ScanComma(rest);
    assert InParens(texts)[..n] == InParens(texts[..n]);
    assert Scans(texts)[..n] == Scans(texts[..n]);
    assert WithSeparators(InParens(texts), ',') + rest == WithSeparators(InParens(texts[..n]), ',') + last;
    if n == 0 {
      assert WithSeparators(InParens(texts[..0]), ',') + last == last;
    } else {
      ScanItems(texts[..n], last);
    }
  }

  /** The text of a list scans to its items' tokens, each item in parentheses, with commas between. */
  lemma ScanList(texts: seq<string>)
    requires texts != [] && forall i :: 0 <= i < |texts| ==> Standalone(texts[i])
    ensures Scan(Joined(InParens(texts), ',')) == Wrapped(Scans(texts))
  {
    hide Scan, Standalone, Paren;
    var n := |texts| - 1;
    var last := "(" + texts[n] + ")" + "";
    ScanItem(texts[n], "");
    ScanNothing();
    assert InParens(texts)[..n] == InParens(texts[..n]);
    assert Scans(texts)[..n] == Scans(texts[..n]);
    assert last == InParens(texts)[n];
    if n > 0 {
      ScanItems(texts[..n], last);
    } else {
      assert Joined(InParens(texts), ',') == last;
    }
  }

  lemma ScanNothing()
    ensures Scan("") == []
  {
  }

  /** The items with their references to other sections spelled out. */
  function Spelled(cluster: string, items: seq<string>): seq<string> {
    seq(|items|, i requires 0 <= i < |items| => Substituted(cluster, items[i], false))
  }

  function Present(items: seq<string>): seq<Option<string>> {
    seq(|items|, i requires 0 <= i < |items| => Some(items[i]))
  }

  lemma ListText(cluster: string, items: seq<string>)
    ensures !Malformed(Items(Present(items)))
    ensures items != [] ==>
              SectionText(cluster, Items(Present(items))) == Some(Joined(InParens(Spelled(cluster, items)), ','))
    ensures items == [] ==> SectionText(cluster, Items(Present(items))) == Some("")
  {
    hide Joined, Substituted;
    assert ItemTexts(cluster, Present(items)) == InParens(Spelled(cluster, items));
  }

  /** However the text of a list section is parsed, it means the union of what its items mean. */
  lemma ListMeansItems(env: Env, cluster: string, items: seq<string>, text: string, d: Deriv) returns (ds: seq<Deriv>)
    requires items != [] && SectionText(cluster, Items(Present(items))) == Some(text)
    requires forall i :: 0 <= i < |items| ==>
               Standalone(Spelled(cluster, items)[i]) && Balanced(Scan(Spelled(cluster, items)[i]))
    requires Yield(d) == Scan(text)
    ensures |ds| == |items| && forall i :: 0 <= i < |ds| ==> Yield(ds[i]) == Scan(Substituted(cluster, items[i], false))
    ensures forall x :: x in Eval(env, Meaning(d)).names <==>
                        exists i :: 0 <= i < |ds| && x in Eval(env, Meaning(ds[i])).names
    ensures Defined(Meaning(d)) <==> forall i :: 0 <= i < |ds| ==> Defined(Meaning(ds[i]))
  {
    hide Scan, Standalone, Joined, Eval, Meaning, Defined, Wrapped, Balanced, Substituted;
    var texts := Spelled(cluster, items);
    ListText(cluster, items);
    ScanList(texts);
    ds := ItemsUnion(env, d, Scans(texts));
  }

  /** And it has a derivation as soon as its items have. */
  lemma ListDerivation(cluster: string, items: seq<string>, text: string, ds: seq<Deriv>) returns (d: Deriv)
    requires items != [] && SectionText(cluster, Items(Present(items))) == Some(text)
    requires forall i :: 0 <= i < |items| ==> Standalone(Spelled(cluster, items)[i])
    requires |ds| == |items| && forall i :: 0 <= i < |ds| ==> Yield(ds[i]) == Scan(Spelled(cluster, items)[i])
    ensures Yield(d) == Scan(text)
  {
    hide Scan, Standalone, Joined, Wrapped, Substituted, Yield;
    var texts := Spelled(cluster, items);
    ListText(cluster, items);
    ScanList(texts);
    d := ItemsDerive(ds, Scans(texts));
  }

  /** A scalar without live references is its own text. */
  lemma ScalarText(cluster: string, t: string)
    requires LiveDollars(t, false) == 0
    ensures SectionText(cluster, Scalar(t)) == Some(t)
  {
    NothingLive(cluster, t, false);
  }

  // Lists of plain host names.

  lemma PlainScans(x: string)
    requires PlainName(x)
    ensures Scan(x) == [Literal(x)] && Standalone(x)
  {
    hide Scan, WordToken, PlainName;
    PlainIsAtom(x);
    PlainNameToken(x);
    forall rest ensures Scan(x + ")" + rest) == [Literal(x)] + [Sym(')')] + Scan(rest) {
      var tail := ")" + rest;
      ParenEndsWord();
      ScanWord(x, tail);
      ScanParen(tail);
      assert x + ")" + rest == x + tail && tail[1..] == rest;
    }
    ScanWord(x, "");
    ScanNothing();
    assert x + "" == x;
  }

  lemma ParenEndsWord()
    ensures !WordChar(')')
  {
  }

  lemma {:induction false} NoDollars(x: string, inRegex: bool)
    requires forall i :: 0 <= i < |x| ==> WordChar(x[i])
    ensures LiveDollars(x, inRegex) == 0
    decreases |x|
  {
    if x != "" {
      NoDollars(x[1..], inRegex);
    }
  }

  lemma PlainSpelled(cluster: string, x: string)
    requires PlainName(x)
    ensures Substituted(cluster, x, false) == x
  {
    hide Substituted;
    NoDollars(x, false);
    NothingLive(cluster, x, false);
  }

  lemma OneName(env: Env, x: string, d: Deriv)
    requires Yield(d) == [Literal(x)]
    ensures Eval(env, Meaning(d)).names == {x} && Defined(Meaning(d))
  {
    hide Eval, Meaning, Defined, AllNames, TokensInInt;
    ListMeansUnion(env, d);
    AllNamesSingle(Literal(x));
    SingleInInt(Literal(x));
  }

  lemma PlainList(cluster: string, names: seq<string>)
    requires forall x :: x in names ==> PlainName(x)
    ensures Spelled(cluster, names) == names
    ensures forall i :: 0 <= i < |names| ==>
              Scan(names[i]) == [Literal(names[i])] && Standalone(names[i]) && Balanced(Scan(names[i]))
  {
    hide Scan, PlainName, Standalone, Balanced, Substituted;
    forall i | 0 <= i < |names|
      ensures Substituted(cluster, names[i], false) == names[i]
      ensures Scan(names[i]) == [Literal(names[i])] && Standalone(names[i]) && Balanced(Scan(names[i]))
    {
      PlainSpelled(cluster, names[i]);
      PlainScans(names[i]);
      BalancedOne(Literal(names[i]));
    }
  }

  /** A list of plain host names, as in "CLUSTER: [host1, host2]", expands to exactly these names. */
  lemma HostListExpands(env: Env, cluster: string, names: seq<string>, text: string, result: set<string>)
    requires names != [] && forall x :: x in names ==> PlainName(x)
    requires SectionText(cluster, Items(Present(names))) == Some(text)
    ensures Expands(env, text, result) <==> result == Elements(names)
  {
    hide Scan, PlainName, Standalone, Balanced, Substituted, SectionText, Yield, Meaning, Eval, Defined, Spelled;
    PlainList(cluster, names);
    var singles := seq(|names|, i requires 0 <= i < |names| => DLiteral(names[i]));
    LiteralsYield(names);
    var d0 := ListDerivation(cluster, names, text, singles);
    forall d | Yield(d) == Scan(text)
      ensures Eval(env, Meaning(d)).names == Elements(names) && Defined(Meaning(d))
    {
      HostListMeans(env, cluster, names, text, d);
    }
  }

  lemma LiteralsYield(names: seq<string>)
    ensures forall i :: 0 <= i < |names| ==> Yield(DLiteral(names[i])) == [Literal(names[i])]
  {
  }

  lemma HostListMeans(env: Env, cluster: string, names: seq<string>, text: string, d: Deriv)
    requires names != [] && forall x :: x in names ==> PlainName(x)
    requires SectionText(cluster, Items(Present(names))) == Some(text) && Yield(d) == Scan(text)
    ensures Eval(env, Meaning(d)).names == Elements(names) && Defined(Meaning(d))
  {
    hide Scan, PlainName, Standalone, Balanced, Substituted, SectionText, Yield, Meaning, Eval, Defined, Spelled;
    PlainList(cluster, names);
    var ds := ListMeansItems(env, cluster, names, text, d);
    forall i | 0 <= i < |ds| ensures Eval(env, Meaning(ds[i])).names == {names[i]} && Defined(Meaning(ds[i])) {
      PlainSpelled(cluster, names[i]);
      OneName(env, names[i], ds[i]);
    }
  }
}
