/** What each form of expression stands for, stated on the tokens of the range language: which
    names the operators keep, and which function a shorthand calls (range_parser.y, ast.c). */
module ExpressionLaws {
  import opened Text
  import opened RangeExpand
  import opened Grammar
  import opened Semantics

  // On syntax trees.

  lemma UnionOf(env: Env, l: Expr, r: Expr)
    ensures Eval(env, EUnion(l, r))
         == RangeVal(Eval(env, l).names + Eval(env, r).names,
                     if |Eval(env, r).names| < |Eval(env, l).names| then Eval(env, l).quoted else Eval(env, r).quoted)
  {
    hide Bundles, Hostnames, Matching, Expansion, Elements, Everything;
  }

  lemma OperandOf(env: Env, left: RangeVal, r: Expr)
    ensures !r.ERegex? ==> Operand(env, left, r) == Eval(env, r)
    ensures r.ERegex? && !left.quoted ==>
              Operand(env, left, r).names == (set x | x in left.names && env.matches(r.text, x))
  {
    hide Eval;
  }

  lemma DiffOf(env: Env, l: Expr, r: Expr)
    ensures Eval(env, EDiff(l, r)) == RangeVal(Eval(env, l).names - Operand(env, Eval(env, l), r).names, Eval(env, l).quoted)
  {
    hide Operand;
  }

  lemma InterOf(env: Env, l: Expr, r: Expr)
    ensures Eval(env, EInter(l, r)) == RangeVal(Eval(env, l).names * Operand(env, Eval(env, l), r).names,
                                                Eval(env, l).quoted || Operand(env, Eval(env, l), r).quoted)
  {
    hide Operand;
  }

  lemma BracesOf(env: Env, l: Expr, c: Expr, r: Expr)
    ensures Eval(env, EBraces(l, c, r)).names == Bundles(Eval(env, l).names, Eval(env, c).names, Eval(env, r).names)
    ensures Eval(env, EBraces(l, c, r)).quoted == (Eval(env, l).quoted || Eval(env, c).quoted || Eval(env, r).quoted)
  {
    hide Bundles, Hostnames, Matching, Expansion, Elements, Everything;
  }

  lemma NamesAll(env: Env, inner: Expr, t: string)
    ensures var all := env.functions("cluster", [RangeVal({"all:CLUSTER"}, false)]);
            && Eval(env, ENot(inner)).names == all.names - Eval(env, inner).names
            && (!all.quoted ==> Eval(env, ERegex(t)).names == set x | x in all.names && env.matches(t, x))
  {
    hide Bundles, Expansion, Elements;
  }

  lemma CallOfAll(env: Env, name: string, args: seq<Expr>)
    ensures Eval(env, EFunction(name, args)) == env.functions(name, EvalAll(env, args))
  {
    hide EvalAll, Operand;
  }

  lemma ArgsOf(env: Env, e: Expr, rest: seq<Expr>)
    ensures EvalAll(env, [e] + rest) == [Eval(env, e)] + EvalAll(env, rest)
  {
    hide Eval, Operand;
    assert ([e] + rest)[1..] == rest;
  }

  lemma CallOfOne(env: Env, name: string, e: Expr)
    ensures EvalAll(env, [e]) == [Eval(env, e)]
    ensures Eval(env, EFunction(name, [e])) == env.functions(name, [Eval(env, e)])
  {
    hide Eval, Operand;
    ArgsOf(env, e, []);
    assert [e] + [] == [e];
    assert EvalAll(env, [e]) == [Eval(env, e)];
    CallOfAll(env, name, [e]);
  }

  // On the tokens.

  /** A word is its own name, a quoted text likewise but shown in quotes; nothing is no name, and
      parentheses change nothing. */
  lemma Atoms(env: Env, t: string, d: Deriv)
    ensures Yield(DLiteral(t)) == [Literal(t)] && Eval(env, Meaning(DLiteral(t))) == RangeVal({t}, false)
    ensures Yield(DNonRange(t)) == [NonRange(t)] && Eval(env, Meaning(DNonRange(t))) == RangeVal({t}, true)
    ensures Yield(DEmpty) == [] && Eval(env, Meaning(DEmpty)) == RangeVal({}, false)
    ensures Yield(DParens(d)) == [Sym('(')] + Yield(d) + [Sym(')')]
    ensures Meaning(DParens(d)) == Meaning(d)
  {
    hide Bundles, Hostnames, Matching, Expansion, Elements, Everything;
  }

  /** A range is its expansion. */
  lemma RangeAtom(env: Env, d: Deriv)
    requires d.DParts?
    ensures Yield(d) == [Parts(d.parts)] && Eval(env, Meaning(d)) == RangeVal(Elements(Expansion(d.parts)), false)
  {
    hide Expansion, Elements;
  }

  /** X,Y holds the names of X or Y; X-Y those of X that are not in Y; X&Y those in both. The last
      two hold unless Y is a regular expression, which is no set of its own there. */
  lemma SetOperators(env: Env, l: Deriv, r: Deriv, x: string)
    ensures Yield(DUnion(l, r)) == Yield(l) + [Sym(',')] + Yield(r)
    ensures Yield(DDiff(l, r)) == Yield(l) + [Sym('-')] + Yield(r)
    ensures Yield(DInter(l, r)) == Yield(l) + [Sym('&')] + Yield(r)
    ensures x in Eval(env, Meaning(DUnion(l, r))).names <==>
              x in Eval(env, Meaning(l)).names || x in Eval(env, Meaning(r)).names
    ensures !Meaning(r).ERegex? ==>
              (x in Eval(env, Meaning(DDiff(l, r))).names <==>
                x in Eval(env, Meaning(l)).names && x !in Eval(env, Meaning(r)).names)
    ensures !Meaning(r).ERegex? ==>
              (x in Eval(env, Meaning(DInter(l, r))).names <==>
                x in Eval(env, Meaning(l)).names && x in Eval(env, Meaning(r)).names)
  {
    hide Eval, Operand;
    UnionOf(env, Meaning(l), Meaning(r));
    DiffOf(env, Meaning(l), Meaning(r));
    InterOf(env, Meaning(l), Meaning(r));
    OperandOf(env, Eval(env, Meaning(l)), Meaning(r));
  }

  /** On the right of - and & a regular expression sifts the names on the left. */
  lemma RegexFilters(env: Env, l: Deriv, t: string, x: string)
    requires !Eval(env, Meaning(l)).quoted
    ensures Yield(DRegex(t)) == [Regex(t)]
    ensures x in Eval(env, Meaning(DDiff(l, DRegex(t)))).names <==>
              x in Eval(env, Meaning(l)).names && !env.matches(t, x)
    ensures x in Eval(env, Meaning(DInter(l, DRegex(t)))).names <==>
              x in Eval(env, Meaning(l)).names && env.matches(t, x)
  {
    hide Eval, Operand;
    DiffOf(env, Meaning(l), ERegex(t));
    InterOf(env, Meaning(l), ERegex(t));
    OperandOf(env, Eval(env, Meaning(l)), ERegex(t));
  }

  /** Elsewhere it sifts all names there are, %all:CLUSTER; the complement is taken in them too. */
  lemma AgainstEverything(env: Env, t: string, d: Deriv, x: string)
    ensures Yield(DPrefix(OpNot, d)) == [Sym('!')] + Yield(d)
    ensures var all := Eval(env, Meaning(DPrefix(OpCluster, DLiteral("all:CLUSTER"))));
            && (x in Eval(env, Meaning(DPrefix(OpNot, d))).names <==>
                 x in all.names && x !in Eval(env, Meaning(d)).names)
            && (!all.quoted ==> (x in Eval(env, Meaning(DRegex(t))).names <==> x in all.names && env.matches(t, x)))
  {
    Atoms(env, "all:CLUSTER", d);
    hide Eval;
    NamesAll(env, Meaning(d), t);
    CallOfOne(env, "cluster", Meaning(DLiteral("all:CLUSTER")));
  }

  /** Each shorthand calls its function on the operand. */
  lemma Shorthands(env: Env, d: Deriv)
    ensures Yield(DPrefix(OpCluster, d)) == [Sym('%')] + Yield(d)
    ensures Eval(env, Meaning(DPrefix(OpCluster, d))) == env.functions("cluster", [Eval(env, Meaning(d))])
    ensures Yield(DPrefix(OpAdmin, d)) == [Sym('^')] + Yield(d)
    ensures Eval(env, Meaning(DPrefix(OpAdmin, d))) == env.functions("get_admin", [Eval(env, Meaning(d))])
    ensures Yield(DPrefix(OpGroup, d)) == [Sym('@')] + Yield(d)
    ensures Eval(env, Meaning(DPrefix(OpGroup, d))) == env.functions("group", [Eval(env, Meaning(d))])
    ensures Yield(DPrefix(OpGetCluster, d)) == [Sym('*')] + Yield(d)
    ensures Eval(env, Meaning(DPrefix(OpGetCluster, d))) == env.functions("get_cluster", [Eval(env, Meaning(d))])
    ensures Yield(DPrefix(OpGetGroups, d)) == [Sym('?')] + Yield(d)
    ensures Eval(env, Meaning(DPrefix(OpGetGroups, d))) == env.functions("get_groups", [Eval(env, Meaning(d))])
  {
    hide Eval;
    CallOfOne(env, "cluster", Meaning(d));
    CallOfOne(env, "get_admin", Meaning(d));
    CallOfOne(env, "group", Meaning(d));
    CallOfOne(env, "get_cluster", Meaning(d));
    CallOfOne(env, "get_groups", Meaning(d));
  }

  /** A call applies the function it names to the values of its arguments, in the order in which
      they stand between the semicolons; a hash sign before it changes nothing. */
  lemma Calls(env: Env, hash: bool, name: string, args: DArgs)
    ensures Yield(DCall(hash, name, args))
         == (if hash then [Sym('#')] else []) + [Literal(name), Sym('(')] + YieldArgs(args) + [Sym(')')]
    ensures Eval(env, Meaning(DCall(hash, name, args))) == env.functions(name, EvalAll(env, MeaningArgs(args)))
    ensures args.DLast? ==>
              && YieldArgs(args) == Yield(args.arg)
              && EvalAll(env, MeaningArgs(args)) == [Eval(env, Meaning(args.arg))]
    ensures args.DMore? ==>
              && YieldArgs(args) == Yield(args.arg) + [Sym(';')] + YieldArgs(args.rest)
              && EvalAll(env, MeaningArgs(args)) == [Eval(env, Meaning(args.arg))] + EvalAll(env, MeaningArgs(args.rest))
  {
    hide Eval, EvalAll;
    CallOfAll(env, name, MeaningArgs(args));
    if args.DMore? {
      ArgsOf(env, Meaning(args.arg), MeaningArgs(args.rest));
    } else {
      CallOfOne(env, name, Meaning(args.arg));
    }
  }

  /** X{Y}Z puts a name of X, a name of Y and a name of Z together, in this order; an empty X or Z
      adds nothing. */
  lemma Braces(env: Env, l: Deriv, c: Deriv, r: Deriv)
    ensures Yield(DBraces(l, c, r)) == Yield(l) + [Sym('{')] + Yield(c) + [Sym('}')] + Yield(r)
    ensures var a, b, d := Eval(env, Meaning(l)).names, Eval(env, Meaning(c)).names, Eval(env, Meaning(r)).names;
            var all := Eval(env, Meaning(DBraces(l, c, r))).names;
            && (a != {} && b != {} && d != {} ==> all == set x, y, z | x in a && y in b && z in d :: x + y + z)
            && (a != {} && b != {} && d == {} ==> all == set x, y | x in a && y in b :: x + y)
            && (a == {} && b != {} && d != {} ==> all == set y, z | y in b && z in d :: y + z)
            && (a == {} && d == {} && b != {} ==> all == b)
  {
    hide Eval, Bundles;
    var a, b, d := Eval(env, Meaning(l)).names, Eval(env, Meaning(c)).names, Eval(env, Meaning(r)).names;
    BracesOf(env, Meaning(l), Meaning(c), Meaning(r));
    if a != {} && b != {} && d != {} {
      BracesOfThree(a, b, d);
    } else if b != {} && (a != {} || d != {}) {
      BracesOfTwo(a, b, d);
    } else if b != {} {
      BracesOfOne(a, b, d);
    }
  }

  /** Which results are shown in quotes. Of a union it is the larger operand that decides, and the
      right one between equals, since the other is added to it. */
  lemma ShownInQuotes(env: Env, l: Deriv, c: Deriv, r: Deriv)
    ensures var a, b, d := Eval(env, Meaning(l)), Eval(env, Meaning(c)), Eval(env, Meaning(r));
            && Eval(env, Meaning(DUnion(l, r))).quoted == (if |d.names| < |a.names| then a.quoted else d.quoted)
            && Eval(env, Meaning(DDiff(l, r))).quoted == a.quoted
            && (!Meaning(r).ERegex? ==> Eval(env, Meaning(DInter(l, r))).quoted == (a.quoted || d.quoted))
            && Eval(env, Meaning(DBraces(l, c, r))).quoted == (a.quoted || b.quoted || d.quoted)
  {
    hide Eval, Operand;
    UnionOf(env, Meaning(l), Meaning(r));
    DiffOf(env, Meaning(l), Meaning(r));
    InterOf(env, Meaning(l), Meaning(r));
    OperandOf(env, Eval(env, Meaning(l)), Meaning(r));
    BracesOf(env, Meaning(l), Meaning(c), Meaning(r));
  }

  /** The names of a quoted range in quotes: what a function or a regular expression sees of it. */
  lemma SeenInQuotes(v: RangeVal, x: string)
    ensures v.quoted ==> (x in Hostnames(v) <==> exists n :: n in v.names && x == "\"" + n + "\"")
    ensures !v.quoted ==> (x in Hostnames(v) <==> x in v.names)
  {
    assert forall n :: Quote(n) == "\"" + n + "\"";
  }
}
