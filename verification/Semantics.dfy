/** What a range expression means: the value range_evaluate must return (ast.c, range.c). */
module Semantics {
  import opened Text
  import opened RangeExpand
  import opened Grammar

  /** A range: its set of names, and whether host names are shown in quotes. */
  datatype RangeVal = RangeVal(names: set<string>, quoted: bool)

  /** The plugin functions, and the matches of user regular expressions (a pattern that does
      not compile matches nothing). */
  datatype Env = Env(
    functions: (string, seq<RangeVal>) -> RangeVal,
    matches: (string, string) -> bool)

  function Quote(name: string): string {
    "\"" + name + "\""
  }

  function Hostnames(v: RangeVal): set<string> {
    if v.quoted then set n | n in v.names :: Quote(n) else v.names
  }

  function Matching(env: Env, v: RangeVal, regex: string): RangeVal {
    RangeVal(set h | h in Hostnames(v) && env.matches(regex, h), false)
  }

  /** An empty operand of braces counts as the empty string. */
  function OrBlank(names: set<string>): set<string> {
    if names == {} then {""} else names
  }

  function Bundles(a: set<string>, b: set<string>, c: set<string>): set<string> {
    set x, y, z | x in OrBlank(a) && y in OrBlank(b) && z in OrBlank(c) :: x + y + z
  }

  lemma Bundled(a: set<string>, b: set<string>, c: set<string>, x: string, y: string, z: string)
    requires x in OrBlank(a) && y in OrBlank(b) && z in OrBlank(c)
    ensures x + y + z in Bundles(a, b, c)
  {
  }

  lemma Unbundled(a: set<string>, b: set<string>, c: set<string>, w: string) returns (x: string, y: string, z: string)
    requires w in Bundles(a, b, c)
    ensures x in OrBlank(a) && y in OrBlank(b) && z in OrBlank(c) && w == x + y + z
  {
    x, y, z :| x in OrBlank(a) && y in OrBlank(b) && z in OrBlank(c) && w == x + y + z;
  }

  lemma BracesOfTwo(a: set<string>, b: set<string>, c: set<string>)
    requires a == {} || b == {} || c == {}
    ensures a != {} && b != {} ==> Bundles(a, b, c) == set x, y | x in a && y in b :: x + y
    ensures a != {} && c != {} ==> Bundles(a, b, c) == set x, z | x in a && z in c :: x + z
    ensures b != {} && c != {} ==> Bundles(a, b, c) == set y, z | y in b && z in c :: y + z
  {
    hide Bundles;
    forall w | w in Bundles(a, b, c)
      ensures a != {} && b != {} ==> exists x, y :: x in a && y in b && w == x + y
      ensures a != {} && c != {} ==> exists x, z :: x in a && z in c && w == x + z
      ensures b != {} && c != {} ==> exists y, z :: y in b && z in c && w == y + z
    {
      var x, y, z := Unbundled(a, b, c, w);
    }
    if a != {} && b != {} {
      forall x, y | x in a && y in b ensures x + y in Bundles(a, b, c) {
        Bundled(a, b, c, x, y, "");
        assert x + y + "" == x + y;
      }
    }
    if a != {} && c != {} {
      forall x, z | x in a && z in c ensures x + z in Bundles(a, b, c) {
        Bundled(a, b, c, x, "", z);
        assert x + "" + z == x + z;
      }
    }
    if b != {} && c != {} {
      forall y, z | y in b && z in c ensures y + z in Bundles(a, b, c) {
        Bundled(a, b, c, "", y, z);
        assert "" + y + z == y + z;
      }
    }
  }

  lemma BracesOfOne(a: set<string>, b: set<string>, c: set<string>)
    requires (a == {} && b == {}) || (a == {} && c == {}) || (b == {} && c == {})
    ensures Bundles(a, b, c) == if a + b + c == {} then {""} else a + b + c
  {
    hide Bundles;
    var left := if a + b + c == {} then {""} else a + b + c;
    forall w ensures w in Bundles(a, b, c) <==> w in left {
      if w in Bundles(a, b, c) {
        var x, y, z := Unbundled(a, b, c, w);
        assert x + "" + "" == x && "" + y + "" == y && "" + "" + z == z;
      }
      if w in left {
        var x, y, z := if a == {} then "" else w, if b == {} then "" else w, if c == {} then "" else w;
        Bundled(a, b, c, x, y, z);
        assert x + y + z == w;
      }
    }
  }

  /** An empty operand of braces drops out: what is left is the product of the other two, or the
      other one, or the empty name alone. */
  lemma BracesHold(a: set<string>, b: set<string>, c: set<string>)
    requires a != {} && b != {} && c != {}
    ensures Bundles(a, b, c) == set x, y, z | x in a && y in b && z in c :: x + y + z
    ensures Bundles(a, b, {}) == set x, y | x in a && y in b :: x + y
    ensures Bundles(a, {}, c) == set x, z | x in a && z in c :: x + z
    ensures Bundles({}, b, c) == set y, z | y in b && z in c :: y + z
    ensures Bundles(a, {}, {}) == a && Bundles({}, b, {}) == b && Bundles({}, {}, c) == c
    ensures Bundles({}, {}, {}) == {""}
  {
    hide Bundles;
    BracesOfThree(a, b, c);
    BracesOfTwo(a, b, {});
    BracesOfTwo(a, {}, c);
    BracesOfTwo({}, b, c);
    BracesOfOne(a, {}, {});
    BracesOfOne({}, b, {});
    BracesOfOne({}, {}, c);
    BracesOfOne({}, {}, {});
  }

  lemma BracesOfThree(a: set<string>, b: set<string>, c: set<string>)
    requires a != {} && b != {} && c != {}
    ensures Bundles(a, b, c) == set x, y, z | x in a && y in b && z in c :: x + y + z
  {
  }

  const EVERYTHING := RangeVal({"all:CLUSTER"}, false)

  function Everything(env: Env): RangeVal {
    env.functions("cluster", [EVERYTHING])
  }

  /** The right operand of a difference or intersection: a regular expression filters the left
      operand, anything else is evaluated. */
  function Operand(env: Env, left: RangeVal, e: Expr): RangeVal
    decreases e, 1
  {
    if e.ERegex? then Matching(env, left, e.text) else Eval(env, e)
  }

  function Eval(env: Env, e: Expr): RangeVal
    decreases e, 0
  {
    match e
    case ENothing => RangeVal({}, false)
    case ERegex(t) => Matching(env, Everything(env), t)
    case ELiteral(t) => RangeVal({t}, false)
    case ENonRange(t) => RangeVal({t}, true)
    case EParts(p) => RangeVal(Elements(Expansion(p)), false)
    case EUnion(l, r) =>
      var a, b := Eval(env, l), Eval(env, r);
      RangeVal(a.names + b.names, if |a.names| > |b.names| then a.quoted else b.quoted)
    case EBraces(l, c, r) =>
      var x, y, z := Eval(env, l), Eval(env, c), Eval(env, r);
      RangeVal(Bundles(x.names, y.names, z.names), x.quoted || y.quoted || z.quoted)
    case EDiff(l, r) =>
      var a := Eval(env, l);
      RangeVal(a.names - Operand(env, a, r).names, a.quoted)
    case EInter(l, r) =>
      var a := Eval(env, l);
      var b := Operand(env, a, r);
      RangeVal(a.names * b.names, a.quoted || b.quoted)
    case ENot(inner) =>
      RangeVal(Everything(env).names - Eval(env, inner).names, Everything(env).quoted)
    case EGroup(inner) => env.functions("group", [Eval(env, inner)])
    case EFunction(name, args) => env.functions(name, EvalAll(env, args))
  }

  function EvalAll(env: Env, args: seq<Expr>): (r: seq<RangeVal>)
    ensures |r| == |args|
    decreases args
  {
    if args == [] then [] else [Eval(env, args[0])] + EvalAll(env, args[1..])
  }

  /** C gives the expression a value: no range in it steps the loop counter past INT_MAX. */
  predicate Defined(e: Expr) {
    match e
    case EParts(p) => InInt(p)
    case EUnion(l, r) => Defined(l) && Defined(r)
    case EBraces(l, c, r) => Defined(l) && Defined(c) && Defined(r)
    case EDiff(l, r) => Defined(l) && Defined(r)
    case EInter(l, r) => Defined(l) && Defined(r)
    case ENot(inner) => Defined(inner)
    case EGroup(inner) => Defined(inner)
    case EFunction(_, args) => forall a :: a in args ==> Defined(a)
    case _ => true
  }

  // Set semantics: over unquoted ranges the values are sets and nothing else.

  /** No quoted literal occurs. */
  predicate Unquoted(e: Expr) {
    match e
    case ENonRange(_) => false
    case EUnion(l, r) => Unquoted(l) && Unquoted(r)
    case EBraces(l, c, r) => Unquoted(l) && Unquoted(c) && Unquoted(r)
    case EDiff(l, r) => Unquoted(l) && Unquoted(r)
    case EInter(l, r) => Unquoted(l) && Unquoted(r)
    case ENot(inner) => Unquoted(inner)
    case EGroup(inner) => Unquoted(inner)
    case EFunction(_, args) => forall a :: a in args ==> Unquoted(a)
    case _ => true
  }

  predicate Plain(vs: seq<RangeVal>) {
    forall v :: v in vs ==> !v.quoted
  }

  /** Plugin functions give unquoted ranges for unquoted ranges. */
  ghost predicate PlainFunctions(env: Env) {
    forall name, vs :: Plain(vs) ==> !env.functions(name, vs).quoted
  }

  function Wrap(sets: seq<set<string>>): seq<RangeVal> {
    seq(|sets|, i requires 0 <= i < |sets| => RangeVal(sets[i], false))
  }

  /** The set an expression denotes: union, difference, intersection, complement against all
      clusters, filter by a regular expression, and product. */
  function Denotes(env: Env, e: Expr): set<string> {
    match e
    case ENothing => {}
    case ERegex(t) => set h | h in Everything(env).names && env.matches(t, h)
    case ELiteral(t) => {t}
    case ENonRange(t) => {t}
    case EParts(p) => Elements(Expansion(p))
    case EUnion(l, r) => Denotes(env, l) + Denotes(env, r)
    case EBraces(l, c, r) => Bundles(Denotes(env, l), Denotes(env, c), Denotes(env, r))
    case EDiff(l, r) =>
      if r.ERegex? then set h | h in Denotes(env, l) && !env.matches(r.text, h)
      else Denotes(env, l) - Denotes(env, r)
    case EInter(l, r) =>
      if r.ERegex? then set h | h in Denotes(env, l) && env.matches(r.text, h)
      else Denotes(env, l) * Denotes(env, r)
    case ENot(inner) => Everything(env).names - Denotes(env, inner)
    case EGroup(inner) => env.functions("group", Wrap([Denotes(env, inner)])).names
    case EFunction(name, args) => env.functions(name, Wrap(DenotesAll(env, args))).names
  }

  function DenotesAll(env: Env, args: seq<Expr>): (r: seq<set<string>>)
    ensures |r| == |args|
  {
    if args == [] then [] else [Denotes(env, args[0])] + DenotesAll(env, args[1..])
  }

  /** On unquoted expressions the evaluator's value is the denoted set: which operand of a union
      is larger, and hence kept, makes no difference. */
  lemma {:induction false} EvalIsDenotes(env: Env, e: Expr)
    requires PlainFunctions(env) && Unquoted(e)
    ensures Eval(env, e) == RangeVal(Denotes(env, e), false)
    decreases e
  {
    hide Bundles, Expansion;
    assert !Everything(env).quoted by { assert Plain([EVERYTHING]); }
    match e
    case EUnion(l, r) =>
      EvalIsDenotes(env, l);
      EvalIsDenotes(env, r);
    case EBraces(l, c, r) =>
      EvalIsDenotes(env, l);
      EvalIsDenotes(env, c);
      EvalIsDenotes(env, r);
    case EDiff(l, r) =>
      EvalIsDenotes(env, l);
      EvalIsDenotes(env, r);
    case EInter(l, r) =>
      EvalIsDenotes(env, l);
      EvalIsDenotes(env, r);
    case ENot(inner) =>
      EvalIsDenotes(env, inner);
    case EGroup(inner) =>
      EvalIsDenotes(env, inner);
      assert Wrap([Denotes(env, inner)]) == [Eval(env, inner)];
      assert Plain([Eval(env, inner)]);
    case EFunction(name, args) =>
      EvalAllIsDenotes(env, args);
      assert Plain(Wrap(DenotesAll(env, args)));
    case _ =>
  }

  lemma {:induction false} EvalAllIsDenotes(env: Env, args: seq<Expr>)
    requires PlainFunctions(env) && forall a :: a in args ==> Unquoted(a)
    ensures EvalAll(env, args) == Wrap(DenotesAll(env, args))
    decreases args
  {
    if args != [] {
      EvalIsDenotes(env, args[0]);
      EvalAllIsDenotes(env, args[1..]);
    }
  }

  /** Filtering a quoted range looks at the quoted names, so it keeps none of the range's own
      names unless one is itself written in quotes. */
  lemma QuotedFilterMisses(env: Env, v: RangeVal, regex: string)
    requires v.quoted && forall n :: n in v.names ==> n == "" || n[0] != '"'
    ensures v.names * Matching(env, v, regex).names == {}
  {
  }
}
