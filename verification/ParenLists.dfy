/** Lists of items that each stand in parentheses, as they are glued together from the items of a
    cluster section: no derivation cuts across an item. */
module ParenLists {
  import opened Grammar
  import opened Semantics
  import ExpressionLaws

  // Parentheses are balanced in every derivable token string.

  function Weight(t: Token): int {
    if t == Sym('(') then 1 else if t == Sym(')') then -1 else 0
  }

  /** How many parentheses are open after the tokens. */
  function Depth(ts: seq<Token>): int {
    if ts == [] then 0 else Depth(ts[..|ts| - 1]) + Weight(ts[|ts| - 1])
  }

  predicate Nonnegative(ts: seq<Token>) {
    forall i :: 0 <= i <= |ts| ==> Depth(ts[..i]) >= 0
  }

  predicate Balanced(ts: seq<Token>) {
    Depth(ts) == 0 && Nonnegative(ts)
  }

  lemma {:induction false} DepthConcat(a: seq<Token>, b: seq<Token>)
    ensures Depth(a + b) == Depth(a) + Depth(b)
  {
    if b == [] {
      assert a + b == a;
    } else {
      var n := |b| - 1;
      assert (a + b)[..|a + b| - 1] == a + b[..n];
      DepthConcat(a, b[..n]);
    }
  }

  lemma DepthOne(t: Token)
    ensures Depth([t]) == Weight(t) && Depth([]) == 0
  {
    assert [t][..0] == [];
  }

  lemma BalancedConcat(a: seq<Token>, b: seq<Token>)
    requires Balanced(a) && Balanced(b)
    ensures Balanced(a + b)
  {
    hide Depth;
    DepthConcat(a, b);
    forall i | 0 <= i <= |a + b| ensures Depth((a + b)[..i]) >= 0 {
      if i <= |a| {
        assert (a + b)[..i] == a[..i];
      } else {
        assert (a + b)[..i] == a + b[..i - |a|];
        DepthConcat(a, b[..i - |a|]);
      }
    }
  }

  lemma BalancedOne(t: Token)
    requires Weight(t) == 0
    ensures Balanced([t]) && Balanced([])
  {
    hide Depth;
    DepthOne(t);
    assert [t][..0] == [] && [t][..1] == [t];
  }

  function Paren(ts: seq<Token>): seq<Token> {
    [Sym('(')] + ts + [Sym(')')]
  }

  /** Inside the parentheses the depth is at least one. */
  lemma InParen(ts: seq<Token>, i: nat)
    requires Balanced(ts) && 0 < i <= |ts| + 1
    ensures Depth(Paren(ts)[..i]) > 0
  {
    hide Depth;
    assert Paren(ts)[..i] == [Sym('(')] + ts[..i - 1];
    DepthConcat([Sym('(')], ts[..i - 1]);
    DepthOne(Sym('('));
    assert Nonnegative(ts);
  }

  lemma BalancedParen(ts: seq<Token>)
    requires Balanced(ts)
    ensures Balanced(Paren(ts))
  {
    hide Depth;
    var s := Paren(ts);
    DepthOne(Sym('('));
    DepthOne(Sym(')'));
    DepthConcat([Sym('(')], ts);
    DepthConcat([Sym('(')] + ts, [Sym(')')]);
    forall i | 0 <= i <= |s| ensures Depth(s[..i]) >= 0 {
      if i == 0 {
        assert s[..i] == [];
      } else if i == |s| {
        assert s[..i] == s;
      } else {
        InParen(ts, i);
      }
    }
  }

  lemma {:induction false} YieldBalanced(d: Deriv)
    ensures Balanced(Yield(d))
  {
    hide Balanced;
    match d
    case DEmpty => BalancedOne(Eol);
    case DRegex(t) => BalancedOne(Regex(t));
    case DLiteral(t) => BalancedOne(Literal(t));
    case DNonRange(t) => BalancedOne(NonRange(t));
    case DParts(p) => BalancedOne(Parts(p));
    case DParens(e) =>
      YieldBalanced(e);
      BalancedParen(Yield(e));
    case DUnion(l, r) => BinaryBalanced(d, l, r, Sym(','));
    case DDiff(l, r) => BinaryBalanced(d, l, r, Sym('-'));
    case DInter(l, r) => BinaryBalanced(d, l, r, Sym('&'));
    case DBraces(l, c, r) =>
      YieldBalanced(l);
      YieldBalanced(c);
      YieldBalanced(r);
      Between(Yield(l), Sym('{'), Yield(c));
      Between(Yield(l) + [Sym('{')] + Yield(c), Sym('}'), Yield(r));
    case DPrefix(op, e) =>
      YieldBalanced(e);
      BalancedOne(Sym(OpChar(op)));
      BalancedConcat([Sym(OpChar(op))], Yield(e));
    case DCall(hash, name, args) =>
      ArgsBalanced(args);
      CallBalanced(hash, name, YieldArgs(args));
  }

  lemma BinaryBalanced(d: Deriv, l: Deriv, r: Deriv, op: Token)
    requires l < d && r < d && Weight(op) == 0
    ensures Balanced(Yield(l) + [op] + Yield(r))
    decreases d, 0
  {
    hide Balanced, Yield;
    YieldBalanced(l);
    YieldBalanced(r);
    Between(Yield(l), op, Yield(r));
  }

  lemma Between(a: seq<Token>, op: Token, b: seq<Token>)
    requires Balanced(a) && Balanced(b) && Weight(op) == 0
    ensures Balanced(a + [op] + b)
  {
    hide Balanced;
    BalancedOne(op);
    BalancedConcat(a, [op]);
    BalancedConcat(a + [op], b);
  }

  lemma CallBalanced(hash: bool, name: string, args: seq<Token>)
    requires Balanced(args)
    ensures Balanced((if hash then [Sym('#')] else []) + [Literal(name), Sym('(')] + args + [Sym(')')])
  {
    hide Balanced;
    BalancedOne(Sym('#'));
    BalancedOne(Literal(name));
    BalancedParen(args);
    var head := if hash then [Sym('#')] else [];
    BalancedConcat(head, [Literal(name)]);
    BalancedConcat(head + [Literal(name)], Paren(args));
    assert head + [Literal(name), Sym('(')] + args + [Sym(')')] == head + [Literal(name)] + Paren(args);
  }

  lemma {:induction false} ArgsBalanced(args: DArgs)
    ensures Balanced(YieldArgs(args))
  {
    hide Balanced;
    match args
    case DLast(e) =>
      YieldBalanced(e);
    case DMore(e, rest) =>
      YieldBalanced(e);
      ArgsBalanced(rest);
      Between(Yield(e), Sym(';'), YieldArgs(rest));
  }

  // Lists of items in parentheses.

  function Wrapped(items: seq<seq<Token>>): seq<Token>
    requires items != []
  {
    var n := |items| - 1;
    if n == 0 then Paren(items[0]) else Wrapped(items[..n]) + [Sym(',')] + Paren(items[n])
  }

  predicate AllBalanced(items: seq<seq<Token>>) {
    forall i :: 0 <= i < |items| ==> Balanced(items[i])
  }

  lemma {:induction false} WrappedBalanced(items: seq<seq<Token>>)
    requires items != [] && AllBalanced(items)
    ensures Balanced(Wrapped(items)) && |Wrapped(items)| >= 2 && Wrapped(items)[0] == Sym('(')
  {
    hide Balanced;
    var n := |items| - 1;
    BalancedParen(items[n]);
    if n > 0 {
      WrappedBalanced(items[..n]);
      Between(Wrapped(items[..n]), Sym(','), Paren(items[n]));
    }
  }

  /** Outside all parentheses a list of items has only the commas between them. */
  lemma {:induction false} OutsideItems(items: seq<seq<Token>>, p: nat) returns (k: nat)
    requires items != [] && AllBalanced(items)
    requires p < |Wrapped(items)| && Depth(Wrapped(items)[..p]) == 0
    ensures Wrapped(items)[p] == Sym('(') || CutAt(items, p, k)
  {
    hide Balanced, Depth, CutAt;
    var n := |items| - 1;
    k := n;
    if n == 0 {
      if p > 0 {
        InParen(items[0], p);
      }
    } else {
      var front := Wrapped(items[..n]);
      WrappedBalanced(items[..n]);
      if p < |front| {
        assert Wrapped(items)[..p] == front[..p];
        k := OutsideItems(items[..n], p);
        if CutAt(items[..n], p, k) {
          CutLater(items, p, k);
        }
      } else if p == |front| {
        CutHere(items);
      } else if p > |front| + 1 {
        InLastItem(items, p);
      }
    }
  }

  /** At p the comma after the first k items. */
  predicate CutAt(items: seq<seq<Token>>, p: nat, k: nat) {
    && 0 < k < |items| && p < |Wrapped(items)| && Wrapped(items)[p] == Sym(',')
    && Wrapped(items)[..p] == Wrapped(items[..k]) && Wrapped(items)[p + 1..] == Wrapped(items[k..])
  }

  lemma CutLater(items: seq<seq<Token>>, p: nat, k: nat)
    requires |items| > 1 && CutAt(items[..|items| - 1], p, k)
    ensures CutAt(items, p, k)
  {
    hide Wrapped, Paren;
    var n := |items| - 1;
    var front, rest := items[..n], items[k..];
    assert front[..k] == items[..k];
    assert rest[..|rest| - 1] == front[k..] && rest[|rest| - 1] == items[n];
    OneMoreItem(items);
    OneMoreItem(rest);
    CutFront(Wrapped(front), [Sym(',')] + Paren(items[n]), p);
  }

  lemma OneMoreItem(items: seq<seq<Token>>)
    requires |items| > 1
    ensures Wrapped(items) == Wrapped(items[..|items| - 1]) + ([Sym(',')] + Paren(items[|items| - 1]))
  {
    hide Paren;
  }

  lemma CutFront(a: seq<Token>, b: seq<Token>, p: nat)
    requires p < |a|
    ensures (a + b)[p] == a[p] && (a + b)[..p] == a[..p] && (a + b)[p + 1..] == a[p + 1..] + b
  {
  }

  lemma CutHere(items: seq<seq<Token>>)
    requires |items| > 1
    ensures CutAt(items, |Wrapped(items[..|items| - 1])|, |items| - 1)
  {
    var n := |items| - 1;
    var front := Wrapped(items[..n]);
    assert items[n..] == [items[n]];
    assert Wrapped(items)[..|front|] == front;
    assert Wrapped(items)[|front| + 1..] == Paren(items[n]);
  }

  lemma InLastItem(items: seq<seq<Token>>, p: nat)
    requires |items| > 1 && AllBalanced(items)
    requires |Wrapped(items[..|items| - 1])| + 1 < p < |Wrapped(items)|
    ensures Depth(Wrapped(items)[..p]) > 0
  {
    hide Depth;
    var n := |items| - 1;
    var front, last := Wrapped(items[..n]), Paren(items[n]);
    var q := p - |front| - 1;
    WrappedBalanced(items[..n]);
    InParen(items[n], q);
    assert Wrapped(items)[..p] == front + [Sym(',')] + last[..q];
    DepthConcat(front, [Sym(',')]);
    DepthConcat(front + [Sym(',')], last[..q]);
    DepthOne(Sym(','));
  }

  /** An operator after a derivable beginning can only be such a comma. */
  lemma OnlyCommas(items: seq<seq<Token>>, l: Deriv, op: char, rest: seq<Token>) returns (k: nat)
    requires items != [] && AllBalanced(items) && op != '('
    requires Wrapped(items) == Yield(l) + [Sym(op)] + rest
    ensures op == ',' && CutAt(items, |Yield(l)|, k)
    ensures Yield(l) == Wrapped(items[..k]) && rest == Wrapped(items[k..])
  {
    hide Wrapped, Yield, Depth, AllBalanced;
    var ts := Yield(l);
    YieldBalanced(l);
    assert Wrapped(items)[..|ts|] == ts;
    assert Wrapped(items)[|ts|] == Sym(op);
    k := OutsideItems(items, |ts|);
    assert Wrapped(items)[|ts| + 1..] == rest;
  }

  /** A derivation of the whole list holds one of each item, and its value is the union of theirs. */
  lemma {:induction false} ItemsUnion(env: Env, d: Deriv, items: seq<seq<Token>>) returns (ds: seq<Deriv>)
    requires items != [] && AllBalanced(items) && Yield(d) == Wrapped(items)
    ensures |ds| == |items| && forall i :: 0 <= i < |ds| ==> Yield(ds[i]) == items[i]
    ensures forall x :: x in Eval(env, Meaning(d)).names <==>
                        exists i :: 0 <= i < |ds| && x in Eval(env, Meaning(ds[i])).names
    ensures Defined(Meaning(d)) <==> forall i :: 0 <= i < |ds| ==> Defined(Meaning(ds[i]))
    decreases d
  {
    hide Wrapped, Paren, Balanced, AllBalanced, Eval, CutAt, Defined;
    WrappedBalanced(items);
    match d
    case DParens(e) =>
      WrapParen(e);
      OneItem(e, items);
      ds := [e];
      assert Yield(ds[0]) == items[0];
    case DUnion(l, r) =>
      var k := OnlyCommas(items, l, ',', Yield(r));
      CutIsInside(items, |Yield(l)|, k);
      var ls := ItemsUnion(env, l, items[..k]);
      var rs := ItemsUnion(env, r, items[k..]);
      ds := ls + rs;
      UnionOfParts(env, l, r, ls, rs);
      DefinedParts(l, r, ls, rs);
    case DDiff(l, r) =>
      var k := OnlyCommas(items, l, '-', Yield(r));
    case DInter(l, r) =>
      var k := OnlyCommas(items, l, '&', Yield(r));
    case DBraces(l, c, r) =>
      BracesApart(l, c, r);
      var k := OnlyCommas(items, l, '{', Yield(c) + [Sym('}')] + Yield(r));
    case _ =>
  }

  lemma BracesApart(l: Deriv, c: Deriv, r: Deriv)
    ensures Yield(DBraces(l, c, r)) == Yield(l) + [Sym('{')] + (Yield(c) + [Sym('}')] + Yield(r))
  {
  }

  lemma CutIsInside(items: seq<seq<Token>>, p: nat, k: nat)
    requires CutAt(items, p, k) && AllBalanced(items)
    ensures 0 < k < |items| && AllBalanced(items[..k]) && AllBalanced(items[k..])
  {
    hide Balanced, Wrapped;
  }

  lemma UnionOfParts(env: Env, l: Deriv, r: Deriv, ls: seq<Deriv>, rs: seq<Deriv>)
    requires forall x :: x in Eval(env, Meaning(l)).names <==>
                         exists i :: 0 <= i < |ls| && x in Eval(env, Meaning(ls[i])).names
    requires forall x :: x in Eval(env, Meaning(r)).names <==>
                         exists i :: 0 <= i < |rs| && x in Eval(env, Meaning(rs[i])).names
    ensures forall x :: x in Eval(env, Meaning(DUnion(l, r))).names <==>
                        exists i :: 0 <= i < |ls + rs| && x in Eval(env, Meaning((ls + rs)[i])).names
  {
    forall x ensures x in Eval(env, Meaning(DUnion(l, r))).names <==>
                       exists i :: 0 <= i < |ls + rs| && x in Eval(env, Meaning((ls + rs)[i])).names
    {
      hide Eval, Meaning;
      ExpressionLaws.SetOperators(env, l, r, x);
      forall i | 0 <= i < |ls| ensures (ls + rs)[i] == ls[i] {}
      forall i | 0 <= i < |rs| ensures (ls + rs)[|ls| + i] == rs[i] {}
    }
  }

  lemma DefinedParts(l: Deriv, r: Deriv, ls: seq<Deriv>, rs: seq<Deriv>)
    requires Defined(Meaning(l)) <==> forall i :: 0 <= i < |ls| ==> Defined(Meaning(ls[i]))
    requires Defined(Meaning(r)) <==> forall i :: 0 <= i < |rs| ==> Defined(Meaning(rs[i]))
    ensures Defined(Meaning(DUnion(l, r))) <==> forall i :: 0 <= i < |ls + rs| ==> Defined(Meaning((ls + rs)[i]))
  {
    forall i | 0 <= i < |ls| ensures (ls + rs)[i] == ls[i] {}
    forall i | 0 <= i < |rs| ensures (ls + rs)[|ls| + i] == rs[i] {}
  }

  /** A derivation with parentheses around it is that of one item. */
  lemma OneItem(e: Deriv, items: seq<seq<Token>>)
    requires items != [] && AllBalanced(items) && Paren(Yield(e)) == Wrapped(items)
    ensures |items| == 1 && Yield(e) == items[0]
  {
    hide Balanced, Depth;
    YieldBalanced(e);
    var n := |items| - 1;
    if n > 0 {
      var front := Wrapped(items[..n]);
      WrappedBalanced(items[..n]);
      InParen(Yield(e), |front|);
      assert Paren(Yield(e))[..|front|] == front;
      ZeroDepth(front);
    } else {
      assert Paren(Yield(e))[1..|Yield(e)| + 1] == Yield(e);
      assert Paren(items[0])[1..|items[0]| + 1] == items[0];
    }
  }

  lemma ZeroDepth(ts: seq<Token>)
    requires Balanced(ts)
    ensures Depth(ts) == 0
  {
    hide Depth;
  }

  /** And one derivation of each item makes one of the list. */
  lemma {:induction false} ItemsDerive(ds: seq<Deriv>, items: seq<seq<Token>>) returns (d: Deriv)
    requires items != [] && |ds| == |items| && forall i :: 0 <= i < |ds| ==> Yield(ds[i]) == items[i]
    ensures Yield(d) == Wrapped(items)
  {
    hide Paren;
    var n := |items| - 1;
    WrapParen(ds[n]);
    d := DParens(ds[n]);
    if n > 0 {
      var l := ItemsDerive(ds[..n], items[..n]);
      d := DUnion(l, d);
    }
  }

  lemma WrapParen(d: Deriv)
    ensures Yield(DParens(d)) == Paren(Yield(d))
  {
  }
}
