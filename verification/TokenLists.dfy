/** Comma-separated lists of hosts and ranges, and what expanding a text gives. */
module TokenLists {
  import opened Text
  import opened RangeExpand
  import opened RangeCompress
  import opened Grammar
  import opened Scanner
  import opened Semantics

  /** do_range_expand on a text gives these names: those of a derivation of its tokens to which
      C gives a value, or none when there is no derivation. */
  ghost predicate Expands(env: Env, text: string, names: set<string>) {
    if exists d :: Yield(d) == Scan(text)
    then exists d :: Yield(d) == Scan(text) && Defined(Meaning(d)) && names == Eval(env, Meaning(d)).names
    else names == {}
  }

  function TokenNames(t: Token): set<string> {
    match t
    case Literal(x) => {x}
    case Parts(p) => Elements(Expansion(p))
    case _ => {}
  }

  function AllNames(ts: seq<Token>): set<string> {
    if ts == [] then {} else AllNames(ts[..|ts| - 1]) + TokenNames(ts[|ts| - 1])
  }

  lemma {:induction false} AllNamesConcat(a: seq<Token>, b: seq<Token>)
    ensures AllNames(a + b) == AllNames(a) + AllNames(b)
  {
    if b == [] {
      assert a + b == a;
    } else {
      var n := |b| - 1;
      assert (a + b)[..|a + b| - 1] == a + b[..n];
      AllNamesConcat(a, b[..n]);
    }
  }

  lemma AllNamesSingle(t: Token)
    ensures AllNames([]) == {} && AllNames([t]) == TokenNames(t)
  {
    assert [t][..0] == [];
  }

  /** No range among the tokens steps the loop counter past INT_MAX. */
  predicate InIntToken(t: Token) {
    t.Parts? ==> InInt(t.parts)
  }

  predicate TokensInInt(ts: seq<Token>) {
    forall t :: t in ts ==> InIntToken(t)
  }

  predicate IsListToken(t: Token) {
    IsAtom(t) || t == Sym(',')
  }

  lemma SingleInInt(t: Token)
    ensures TokensInInt([]) && (TokensInInt([t]) <==> InIntToken(t))
  {
    assert t in [t];
  }

  lemma ConcatInInt(a: seq<Token>, b: seq<Token>)
    ensures TokensInInt(a + [Sym(',')] + b) <==> TokensInInt(a) && TokensInInt(b)
  {
    var ts := a + [Sym(',')] + b;
    assert forall t :: t in ts <==> t in a || t == Sym(',') || t in b;
  }

  /** Every derivation of a comma-separated list means the union of its items, and C gives it a
      value exactly when it gives one to every item. */
  lemma {:induction false} ListMeansUnion(env: Env, d: Deriv)
    requires forall t :: t in Yield(d) ==> IsListToken(t)
    ensures Eval(env, Meaning(d)).names == AllNames(Yield(d))
    ensures Defined(Meaning(d)) <==> TokensInInt(Yield(d))
  {
    hide AllNames, Expansion, InInt, TokensInInt, Bundles;
    match d
    case DEmpty =>
      AllNamesSingle(Sym(','));
      SingleInInt(Sym(','));
    case DLiteral(t) =>
      AllNamesSingle(Literal(t));
      SingleInInt(Literal(t));
    case DParts(p) =>
      AllNamesSingle(Parts(p));
      SingleInInt(Parts(p));
    case DUnion(l, r) =>
      ConcatInInt(Yield(l), Yield(r));
      ListMeansUnion(env, l);
      ListMeansUnion(env, r);
      AllNamesConcat(Yield(l) + [Sym(',')], Yield(r));
      AllNamesConcat(Yield(l), [Sym(',')]);
      AllNamesSingle(Sym(','));
    case _ =>
      NotAList(d);
  }

  lemma NotAList(d: Deriv)
    requires !d.DEmpty? && !d.DLiteral? && !d.DParts? && !d.DUnion?
    ensures exists t :: t in Yield(d) && !IsListToken(t)
  {
    var ts := Yield(d);
    match d
    case DRegex(t) => assert ts[0] in ts;
    case DNonRange(t) => assert ts[0] in ts;
    case DParens(e) => assert ts[0] in ts;
    case DBraces(l, c, r) => assert ts[|Yield(l)|] in ts;
    case DDiff(l, r) => assert ts[|Yield(l)|] in ts;
    case DInter(l, r) => assert ts[|Yield(l)|] in ts;
    case DPrefix(op, e) => assert ts[0] in ts;
    case DCall(hash, name, args) => assert ts[if hash then 2 else 1] in ts;
  }

  /** A comma-separated list has a derivation. */
  lemma {:induction false} ListDerives(words: seq<string>, last: string) returns (d: Deriv)
    requires IsAtom(WordToken(last)) && forall w :: w in words ==> IsAtom(WordToken(w))
    ensures Yield(d) == CommaTokens(words) + [WordToken(last)]
  {
    var atom := match WordToken(last) case Literal(t) => DLiteral(t) case Parts(p) => DParts(p);
    if words == [] {
      d := atom;
    } else {
      var n := |words| - 1;
      var left := ListDerives(words[..n], words[n]);
      d := DUnion(left, atom);
      assert Yield(d) == CommaTokens(words[..n]) + [WordToken(words[n])] + [Sym(',')] + [WordToken(last)];
    }
  }

  lemma {:induction false} CommaTokensAreList(words: seq<string>)
    requires forall w :: w in words ==> IsAtom(WordToken(w))
    ensures forall t :: t in CommaTokens(words) ==> IsListToken(t)
  {
    if words != [] {
      CommaTokensAreList(words[..|words| - 1]);
    }
  }

  lemma {:induction false} CommaTokensInInt(words: seq<string>)
    ensures TokensInInt(CommaTokens(words)) <==> forall w :: w in words ==> InIntToken(WordToken(w))
  {
    hide WordToken, InInt;
    if words != [] {
      var n := |words| - 1;
      CommaTokensInInt(words[..n]);
      assert words == words[..n] + [words[n]];
      var ts := CommaTokens(words[..n]);
      assert forall t :: t in CommaTokens(words) <==> t in ts || t == WordToken(words[n]) || t == Sym(',');
    }
  }

  lemma CommaTokensSnoc(words: seq<string>, w: string)
    ensures CommaTokens(words + [w]) == CommaTokens(words) + [WordToken(w)] + [Sym(',')]
    ensures AllNames(CommaTokens(words) + [WordToken(w)]) == AllNames(CommaTokens(words)) + TokenNames(WordToken(w))
    ensures AllNames(CommaTokens(words + [w])) == AllNames(CommaTokens(words) + [WordToken(w)])
  {
    assert (words + [w])[..|words|] == words;
    var before := CommaTokens(words);
    var ts := before + [WordToken(w)];
    assert ts[..|before|] == before;
    assert (ts + [Sym(',')])[..|ts|] == ts;
  }

  lemma {:induction false} ScanJoin(texts: seq<string>)
    requires texts != [] && forall w :: w in texts ==> IsWord(w)
    ensures Scan(Join(texts)) == CommaTokens(texts[..|texts| - 1]) + [WordToken(Last(texts))]
  {
    var last := Last(texts);
    ScanCommas(texts[..|texts| - 1], last);
    ScanWord(last, "");
    assert last + "" == last;
    assert Scan("") == [];
  }

  lemma LastInInt(ts: seq<Token>, t: Token)
    ensures TokensInInt(ts + [t]) <==> TokensInInt(ts) && InIntToken(t)
  {
    assert forall u :: u in ts + [t] <==> u in ts || u == t;
  }

  /** A list expands to the union of its items, provided that no item overflows. */
  lemma ListExpands(env: Env, text: string, d0: Deriv, names: set<string>)
    requires Yield(d0) == Scan(text) && forall t :: t in Scan(text) ==> IsListToken(t)
    ensures Expands(env, text, names) <==> TokensInInt(Scan(text)) && names == AllNames(Scan(text))
  {
    hide Scan, AllNames, TokensInInt;
    ListMeansUnion(env, d0);
    forall d | Yield(d) == Scan(text)
      ensures Eval(env, Meaning(d)).names == AllNames(Scan(text)) && (Defined(Meaning(d)) <==> TokensInInt(Scan(text)))
    {
      ListMeansUnion(env, d);
    }
  }
}
