/** The range grammar: tokens, derivations and the syntax trees they stand for
    (range_parser.y, ast.h). Precedence is left open: a token string may have several
    derivations, and what is proved about a derivation holds for each of them. */
module Grammar {
  import opened NodeRange

  datatype Token =
    | Regex(text: string)
    | Literal(text: string)
    | NonRange(text: string)
    | Parts(parts: RangeParts)
    | Sym(c: char)
    | Eol

  /** Derivations from rangeexpr, one constructor per production. */
  datatype Deriv =
    | DEmpty
    | DRegex(text: string)
    | DLiteral(text: string)
    | DNonRange(text: string)
    | DParts(parts: RangeParts)
    | DParens(inner: Deriv)
    | DUnion(left: Deriv, right: Deriv)
    | DBraces(left: Deriv, center: Deriv, right: Deriv)
    | DDiff(left: Deriv, right: Deriv)
    | DInter(left: Deriv, right: Deriv)
    | DPrefix(op: PrefixOp, inner: Deriv)
    | DCall(hash: bool, name: string, args: DArgs)

  /** Derivations from funcargs. */
  datatype DArgs = DLast(arg: Deriv) | DMore(arg: Deriv, rest: DArgs)

  datatype PrefixOp = OpCluster | OpAdmin | OpGroup | OpGetCluster | OpGetGroups | OpNot

  function OpChar(op: PrefixOp): char {
    match op
    case OpCluster => '%'
    case OpAdmin => '^'
    case OpGroup => '@'
    case OpGetCluster => '*'
    case OpGetGroups => '?'
    case OpNot => '!'
  }

  function OpFunction(op: PrefixOp): string
    requires !op.OpNot?
  {
    match op
    case OpCluster => "cluster"
    case OpAdmin => "get_admin"
    case OpGroup => "group"
    case OpGetCluster => "get_cluster"
    case OpGetGroups => "get_groups"
  }

  /** The token string a derivation derives. */
  function Yield(d: Deriv): seq<Token> {
    match d
    case DEmpty => []
    case DRegex(t) => [Regex(t)]
    case DLiteral(t) => [Literal(t)]
    case DNonRange(t) => [NonRange(t)]
    case DParts(p) => [Parts(p)]
    case DParens(e) => [Sym('(')] + Yield(e) + [Sym(')')]
    case DUnion(l, r) => Yield(l) + [Sym(',')] + Yield(r)
    case DBraces(l, c, r) => Yield(l) + [Sym('{')] + Yield(c) + [Sym('}')] + Yield(r)
    case DDiff(l, r) => Yield(l) + [Sym('-')] + Yield(r)
    case DInter(l, r) => Yield(l) + [Sym('&')] + Yield(r)
    case DPrefix(op, e) => [Sym(OpChar(op))] + Yield(e)
    case DCall(hash, name, args) =>
      (if hash then [Sym('#')] else []) + [Literal(name), Sym('(')] + YieldArgs(args) + [Sym(')')]
  }

  function YieldArgs(args: DArgs): seq<Token> {
    match args
    case DLast(e) => Yield(e)
    case DMore(e, rest) => Yield(e) + [Sym(';')] + YieldArgs(rest)
  }

  /** Syntax trees (the AST_* node types). */
  datatype Expr =
    | ENothing
    | ERegex(text: string)
    | ELiteral(text: string)
    | ENonRange(text: string)
    | EParts(parts: RangeParts)
    | EUnion(left: Expr, right: Expr)
    | EBraces(left: Expr, center: Expr, right: Expr)
    | EDiff(left: Expr, right: Expr)
    | EInter(left: Expr, right: Expr)
    | ENot(inner: Expr)
    | EGroup(inner: Expr)
    | EFunction(name: string, args: seq<Expr>)

  function Meaning(d: Deriv): Expr {
    match d
    case DEmpty => ENothing
    case DRegex(t) => ERegex(t)
    case DLiteral(t) => ELiteral(t)
    case DNonRange(t) => ENonRange(t)
    case DParts(p) => EParts(p)
    case DParens(e) => Meaning(e)
    case DUnion(l, r) => EUnion(Meaning(l), Meaning(r))
    case DBraces(l, c, r) => EBraces(Meaning(l), Meaning(c), Meaning(r))
    case DDiff(l, r) => EDiff(Meaning(l), Meaning(r))
    case DInter(l, r) => EInter(Meaning(l), Meaning(r))
    case DPrefix(op, e) =>
      if op.OpNot? then ENot(Meaning(e)) else EFunction(OpFunction(op), [Meaning(e)])
    case DCall(_, name, args) => EFunction(name, MeaningArgs(args))
  }

  function MeaningArgs(args: DArgs): seq<Expr> {
    match args
    case DLast(e) => [Meaning(e)]
    case DMore(e, rest) => [Meaning(e)] + MeaningArgs(rest)
  }

  // Two facts about every derivable token string.

  predicate IsAtom(t: Token) {
    t.Literal? || t.Parts?
  }

  /** A host or range directly after a closing parenthesis. */
  predicate AtomAfterParen(ts: seq<Token>, i: int) {
    0 <= i < |ts| - 1 && ts[i] == Sym(')') && IsAtom(ts[i + 1])
  }

  predicate NoneAfterParen(ts: seq<Token>) {
    forall i :: 0 <= i < |ts| ==> !AtomAfterParen(ts, i)
  }

  lemma NoneConcat(a: seq<Token>, op: Token, b: seq<Token>)
    requires NoneAfterParen(a) && NoneAfterParen(b) && op != Sym(')') && !IsAtom(op)
    ensures NoneAfterParen(a + [op] + b)
  {
    var s := a + [op] + b;
    forall i | 0 <= i < |s| ensures !AtomAfterParen(s, i) {
      if i < |a| {
        assert !AtomAfterParen(a, i);
      } else if i > |a| {
        assert !AtomAfterParen(b, i - |a| - 1);
      }
    }
  }

  lemma NoneSnoc(a: seq<Token>)
    requires NoneAfterParen(a)
    ensures NoneAfterParen(a + [Sym(')')])
  {
    var s := a + [Sym(')')];
    forall i | 0 <= i < |s| ensures !AtomAfterParen(s, i) {
      if i < |a| {
        assert !AtomAfterParen(a, i);
      }
    }
  }

  lemma NoneShort(ts: seq<Token>)
    requires forall i :: 0 <= i < |ts| - 1 ==> ts[i] != Sym(')')
    ensures NoneAfterParen(ts)
  {
  }

  lemma NonePrefix(op: Token, a: seq<Token>)
    requires NoneAfterParen(a) && op != Sym(')') && !IsAtom(op)
    ensures NoneAfterParen([op] + a)
  {
    NoneConcat([], op, a);
    assert [] + [op] + a == [op] + a;
  }

  /** No derivable token string has a host directly after a closing parenthesis. */
  lemma {:induction false} NoAtomAfterParen(d: Deriv)
    ensures NoneAfterParen(Yield(d))
  {
    hide NoneAfterParen;
    match d
    case DParens(e) =>
      NoAtomAfterParen(e);
      NonePrefix(Sym('('), Yield(e));
      NoneSnoc([Sym('(')] + Yield(e));
    case DUnion(l, r) =>
      NoAtomAfterParen(l);
      NoAtomAfterParen(r);
      NoneConcat(Yield(l), Sym(','), Yield(r));
    case DBraces(l, c, r) =>
      NoAtomAfterParen(l);
      NoAtomAfterParen(c);
      NoAtomAfterParen(r);
      NoneConcat(Yield(l), Sym('{'), Yield(c));
      NoneConcat(Yield(l) + [Sym('{')] + Yield(c), Sym('}'), Yield(r));
    case DDiff(l, r) =>
      NoAtomAfterParen(l);
      NoAtomAfterParen(r);
      NoneConcat(Yield(l), Sym('-'), Yield(r));
    case DInter(l, r) =>
      NoAtomAfterParen(l);
      NoAtomAfterParen(r);
      NoneConcat(Yield(l), Sym('&'), Yield(r));
    case DPrefix(op, e) =>
      NoAtomAfterParen(e);
      NonePrefix(Sym(OpChar(op)), Yield(e));
    case DCall(hash, name, args) =>
      NoAtomAfterParenArgs(args);
      NoneCall(hash, name, YieldArgs(args));
    case _ =>
      NoneShort(Yield(d));
  }

  lemma NoneCall(hash: bool, name: string, args: seq<Token>)
    requires NoneAfterParen(args)
    ensures NoneAfterParen((if hash then [Sym('#')] else []) + [Literal(name), Sym('(')] + args + [Sym(')')])
  {
    var head := (if hash then [Sym('#')] else []) + [Literal(name)];
    NoneShort(head);
    NoneConcat(head, Sym('('), args);
    NoneSnoc(head + [Sym('(')] + args);
    assert (if hash then [Sym('#')] else []) + [Literal(name), Sym('(')] == head + [Sym('(')];
  }

  lemma {:induction false} NoAtomAfterParenArgs(args: DArgs)
    ensures NoneAfterParen(YieldArgs(args))
  {
    hide NoneAfterParen;
    match args
    case DLast(e) =>
      NoAtomAfterParen(e);
    case DMore(e, rest) =>
      NoAtomAfterParen(e);
      NoAtomAfterParenArgs(rest);
      NoneConcat(Yield(e), Sym(';'), YieldArgs(rest));
  }
}
