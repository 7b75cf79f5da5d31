/** The syntax tree as the parser actions build it: a heap of nodes with a first child and a
    next sibling (ast.c, range_parser.y). */
module AstHeap {
  import opened NodeRange
  import opened Grammar

  /** A node's type with the string or parts it carries. */
  datatype Kind =
    | KNothing
    | KRegex(text: string)
    | KLiteral(text: string)
    | KNonRange(text: string)
    | KParts(parts: RangeParts)
    | KUnion
    | KBraces
    | KDiff
    | KInter
    | KNot
    | KGroup
    | KFunction(name: string)

  class AstNode {
    const kind: Kind
    var children: AstNode?
    var next: AstNode?

    /** range_ast_new */
    constructor (kind: Kind)
      ensures this.kind == kind && children == null && next == null
    {
      this.kind := kind;
      children := null;
      next := null;
    }
  }

  function KindOf(e: Expr): Kind {
    match e
    case ENothing => KNothing
    case ERegex(t) => KRegex(t)
    case ELiteral(t) => KLiteral(t)
    case ENonRange(t) => KNonRange(t)
    case EParts(p) => KParts(p)
    case EUnion(_, _) => KUnion
    case EBraces(_, _, _) => KBraces
    case EDiff(_, _) => KDiff
    case EInter(_, _) => KInter
    case ENot(_) => KNot
    case EGroup(_) => KGroup
    case EFunction(name, _) => KFunction(name)
  }

  /** The number of nodes of a syntax tree. */
  function Size(e: Expr): (n: nat)
    ensures n > 0
  {
    match e
    case EUnion(l, r) => 1 + Size(l) + Size(r)
    case EBraces(l, c, r) => 1 + Size(l) + Size(c) + Size(r)
    case EDiff(l, r) => 1 + Size(l) + Size(r)
    case EInter(l, r) => 1 + Size(l) + Size(r)
    case ENot(inner) => 1 + Size(inner)
    case EGroup(inner) => 1 + Size(inner)
    case EFunction(_, args) => 1 + SizeAll(args)
    case _ => 1
  }

  function SizeAll(es: seq<Expr>): nat {
    if es == [] then 0 else Size(es[0]) + SizeAll(es[1..])
  }

  lemma SizeCons(e: Expr, es: seq<Expr>)
    ensures SizeAll([e] + es) == Size(e) + SizeAll(es)
  {
    assert ([e] + es)[1..] == es;
  }

  lemma SizeOfOne(e: Expr)
    ensures SizeAll([e]) == Size(e)
  {
    SizeCons(e, []);
    assert [e] + [] == [e];
  }

  lemma SizeOfTwo(a: Expr, b: Expr)
    ensures SizeAll([a, b]) == Size(a) + Size(b)
  {
    SizeOfOne(b);
    SizeCons(a, [b]);
    assert [a] + [b] == [a, b];
  }

  function Kids(e: Expr): seq<Expr> {
    match e
    case EUnion(l, r) => [l, r]
    case EBraces(l, c, r) => [l, c, r]
    case EDiff(l, r) => [l, r]
    case EInter(l, r) => [l, r]
    case ENot(inner) => [inner]
    case EGroup(inner) => [inner]
    case EFunction(_, args) => args
    case _ => []
  }

  lemma KidsSize(e: Expr)
    ensures SizeAll(Kids(e)) + 1 == Size(e)
  {
    match e
    case EUnion(l, r) => SizeOfTwo(l, r);
    case EBraces(l, c, r) =>
      SizeOfTwo(c, r);
      SizeCons(l, [c, r]);
      assert [l] + [c, r] == [l, c, r];
    case EDiff(l, r) => SizeOfTwo(l, r);
    case EInter(l, r) => SizeOfTwo(l, r);
    case ENot(inner) => SizeOfOne(inner);
    case EGroup(inner) => SizeOfOne(inner);
    case _ =>
  }

  /** n is the root of a tree that decodes to e; the other nodes of the tree are in below. */
  ghost predicate Encodes(n: AstNode, e: Expr, below: set<AstNode>)
    reads n`children, below
    decreases Size(e), 0
  {
    KidsSize(e);
    n.kind == KindOf(e) && EncodesList(n.children, Kids(e), below)
  }

  /** n is the first of |es| siblings that decode to es, one after the other. */
  ghost predicate EncodesList(n: AstNode?, es: seq<Expr>, nodes: set<AstNode>)
    reads nodes
    decreases SizeAll(es), 1
  {
    if es == [] then n == null
    else n != null && n in nodes && Encodes(n, es[0], nodes) && EncodesList(n.next, es[1..], nodes)
  }

  lemma {:induction false} EncodesMore(n: AstNode, e: Expr, below: set<AstNode>, more: set<AstNode>)
    requires Encodes(n, e, below) && below <= more
    ensures Encodes(n, e, more)
    decreases Size(e), 0
  {
    KidsSize(e);
    EncodesListMore(n.children, Kids(e), below, more);
  }

  lemma {:induction false} EncodesListMore(n: AstNode?, es: seq<Expr>, nodes: set<AstNode>, more: set<AstNode>)
    requires EncodesList(n, es, nodes) && nodes <= more
    ensures EncodesList(n, es, more)
    decreases SizeAll(es), 1
  {
    if es != [] {
      EncodesMore(n, es[0], nodes, more);
      EncodesListMore(n.next, es[1..], nodes, more);
    }
  }

  /** A heap tree decodes to one expression only. */
  lemma {:induction false} DecodesOnce(n: AstNode, e: Expr, f: Expr, below: set<AstNode>)
    requires Encodes(n, e, below) && Encodes(n, f, below)
    ensures e == f
    decreases Size(e), 0
  {
    KidsSize(e);
    DecodesListOnce(n.children, Kids(e), Kids(f), below);
    KidsDecide(e, f);
  }

  lemma {:induction false} DecodesListOnce(n: AstNode?, es: seq<Expr>, fs: seq<Expr>, nodes: set<AstNode>)
    requires EncodesList(n, es, nodes) && EncodesList(n, fs, nodes)
    ensures es == fs
    decreases SizeAll(es), 1
  {
    if es != [] && fs != [] {
      DecodesOnce(n, es[0], fs[0], nodes);
      DecodesListOnce(n.next, es[1..], fs[1..], nodes);
      assert es == [es[0]] + es[1..] && fs == [fs[0]] + fs[1..];
    }
  }

  // The children that the evaluator dereferences.

  lemma FirstSibling(n: AstNode?, es: seq<Expr>, nodes: set<AstNode>)
    requires es != [] && EncodesList(n, es, nodes)
    ensures n != null && n in nodes && Encodes(n, es[0], nodes) && EncodesList(n.next, es[1..], nodes)
    ensures SizeAll(es) == Size(es[0]) + SizeAll(es[1..])
  {
  }

  lemma ListEnds(n: AstNode?, es: seq<Expr>, nodes: set<AstNode>)
    requires EncodesList(n, es, nodes)
    ensures n == null <==> es == []
  {
  }

  lemma ChildList(n: AstNode, e: Expr, below: set<AstNode>)
    requires Encodes(n, e, below)
    ensures EncodesList(n.children, Kids(e), below) && SizeAll(Kids(e)) < Size(e)
  {
    KidsSize(e);
  }

  /** A node with one operand has one child. */
  lemma OneOperand(n: AstNode, e: Expr, below: set<AstNode>)
    requires Encodes(n, e, below) && |Kids(e)| == 1
    ensures n.children != null && n.children.next == null
    ensures Encodes(n.children, Kids(e)[0], below) && Size(Kids(e)[0]) < Size(e)
  {
    hide *;
    ChildList(n, e, below);
    FirstSibling(n.children, Kids(e), below);
    assert Kids(e)[1..] == [];
    ListEnds(n.children.next, [], below);
  }

  /** A node with two operands has two children. */
  lemma TwoOperands(n: AstNode, e: Expr, below: set<AstNode>)
    requires Encodes(n, e, below) && |Kids(e)| == 2
    ensures n.children != null && n.children.next != null && n.children.next.next == null
    ensures Encodes(n.children, Kids(e)[0], below) && Size(Kids(e)[0]) < Size(e)
    ensures Encodes(n.children.next, Kids(e)[1], below) && Size(Kids(e)[1]) < Size(e)
  {
    hide *;
    ghost var es := Kids(e);
    ChildList(n, e, below);
    FirstSibling(n.children, es, below);
    FirstSibling(n.children.next, es[1..], below);
    assert es[1..][1..] == [];
    ListEnds(n.children.next.next, [], below);
  }

  /** A node with three operands has three children. */
  lemma ThreeOperands(n: AstNode, e: Expr, below: set<AstNode>)
    requires Encodes(n, e, below) && |Kids(e)| == 3
    ensures n.children != null && n.children.next != null && n.children.next.next != null
    ensures n.children.next.next.next == null
    ensures Encodes(n.children, Kids(e)[0], below) && Size(Kids(e)[0]) < Size(e)
    ensures Encodes(n.children.next, Kids(e)[1], below) && Size(Kids(e)[1]) < Size(e)
    ensures Encodes(n.children.next.next, Kids(e)[2], below) && Size(Kids(e)[2]) < Size(e)
  {
    hide *;
    ghost var es := Kids(e);
    ChildList(n, e, below);
    FirstSibling(n.children, es, below);
    FirstSibling(n.children.next, es[1..], below);
    FirstSibling(n.children.next.next, es[1..][1..], below);
    assert es[1..][1..][1..] == [];
    ListEnds(n.children.next.next.next, [], below);
  }

  // The parser actions.

  /** n's sibling list, with n's own tree in front of the list that n links to. */
  lemma ListInFront(n: AstNode, e: Expr, below: set<AstNode>, es: seq<Expr>, nodes: set<AstNode>)
    requires Encodes(n, e, below) && EncodesList(n.next, es, nodes)
    ensures EncodesList(n, [e] + es, {n} + below + nodes)
    ensures SizeAll([e] + es) == Size(e) + SizeAll(es)
  {
    assert ([e] + es)[1..] == es;
    EncodesMore(n, e, below, {n} + below + nodes);
    EncodesListMore(n.next, es, nodes, {n} + below + nodes);
  }

  /** The action $1->next = $3: a node's sibling is set at most once. */
  method Link(n: AstNode, sibling: AstNode)
    requires n.next == null
    modifies n`next
    ensures n.next == sibling
  {
    n.next := sibling;
  }

  /** A new node with the given children. */
  method Parent(kind: Kind, first: AstNode?, ghost e: Expr, ghost nodes: set<AstNode>) returns (n: AstNode)
    requires kind == KindOf(e) && TreeList(first, Kids(e), nodes)
    ensures fresh(n) && Tree(n, e, nodes)
  {
    KidsSize(e);
    n := new AstNode(kind);
    n.children := first;
  }

  /** n heads a tree of its own, not yet linked to a sibling. The tree has as many nodes as the
      expression, so none is shared. */
  ghost predicate Tree(n: AstNode, e: Expr, below: set<AstNode>)
    reads n, below
  {
    n !in below && n.next == null && Encodes(n, e, below) && |below| + 1 == Size(e)
  }

  ghost predicate TreeList(n: AstNode?, es: seq<Expr>, nodes: set<AstNode>)
    reads nodes
  {
    EncodesList(n, es, nodes) && |nodes| == SizeAll(es)
  }

  /** Puts a fresh tree in front of a fresh sibling list. */
  method LinkList(n: AstNode, rest: AstNode, ghost e: Expr, ghost below: set<AstNode>,
                  ghost es: seq<Expr>, ghost nodes: set<AstNode>) returns (ghost all: set<AstNode>)
    requires Tree(n, e, below) && TreeList(rest, es, nodes) && {n} + below !! nodes
    modifies n`next
    ensures all == {n} + below + nodes && TreeList(n, [e] + es, all)
  {
    Link(n, rest);
    ListInFront(n, e, below, es, nodes);
    all := {n} + below + nodes;
  }

  /** One child alone. */
  lemma OneChild(n: AstNode, e: Expr, below: set<AstNode>)
    requires Tree(n, e, below)
    ensures TreeList(n, [e], {n} + below)
  {
    ListInFront(n, e, below, [], {});
    assert [e] + [] == [e] && {n} + below + {} == {n} + below;
  }

  /** A node over two operands. */
  method Binary(kind: Kind, n1: AstNode, n2: AstNode, ghost e: Expr,
                ghost below1: set<AstNode>, ghost below2: set<AstNode>)
    returns (n: AstNode, ghost below: set<AstNode>)
    requires kind == KindOf(e) && |Kids(e)| == 2
    requires Tree(n1, Kids(e)[0], below1) && Tree(n2, Kids(e)[1], below2)
    requires {n1} + below1 !! {n2} + below2
    modifies n1`next
    ensures fresh(n) && below == {n1} + below1 + ({n2} + below2) && Tree(n, e, below)
  {
    hide *;
    OneChild(n2, Kids(e)[1], below2);
    below := LinkList(n1, n2, Kids(e)[0], below1, [Kids(e)[1]], {n2} + below2);
    assert Kids(e) == [Kids(e)[0]] + [Kids(e)[1]];
    n := Parent(kind, n1, e, below);
  }

  /** A node over one operand. */
  method Unary(kind: Kind, n1: AstNode, ghost e: Expr, ghost below1: set<AstNode>)
    returns (n: AstNode, ghost below: set<AstNode>)
    requires kind == KindOf(e) && |Kids(e)| == 1 && Tree(n1, Kids(e)[0], below1)
    ensures fresh(n) && below == {n1} + below1 && Tree(n, e, below)
  {
    hide *;
    OneChild(n1, Kids(e)[0], below1);
    assert Kids(e) == [Kids(e)[0]];
    below := {n1} + below1;
    n := Parent(kind, n1, e, below);
  }

  /** A node over three operands. */
  method Ternary(n1: AstNode, n2: AstNode, n3: AstNode, ghost e: Expr,
                 ghost below1: set<AstNode>, ghost below2: set<AstNode>, ghost below3: set<AstNode>)
    returns (n: AstNode, ghost below: set<AstNode>)
    requires KindOf(e) == KBraces && |Kids(e)| == 3
    requires Tree(n1, Kids(e)[0], below1) && Tree(n2, Kids(e)[1], below2) && Tree(n3, Kids(e)[2], below3)
    requires {n1} + below1 !! {n2} + below2 !! {n3} + below3
    modifies n1`next, n2`next
    ensures fresh(n) && below == {n1} + below1 + ({n2} + below2 + ({n3} + below3)) && Tree(n, e, below)
  {
    hide *;
    ghost var es := Kids(e);
    OneChild(n3, es[2], below3);
    ghost var later := LinkList(n2, n3, es[1], below2, [es[2]], {n3} + below3);
    below := LinkList(n1, n2, es[0], below1, [es[1]] + [es[2]], later);
    assert es == [es[0]] + ([es[1]] + [es[2]]);
    n := Parent(KBraces, n1, e, below);
  }

  method Leaf(kind: Kind, ghost e: Expr) returns (n: AstNode, ghost below: set<AstNode>)
    requires kind == KindOf(e) && Kids(e) == []
    ensures fresh(n) && below == {} && Tree(n, e, below)
  {
    below := {};
    n := Parent(kind, null, e, below);
  }

  /** The actions of a derivation, innermost first, leave a tree of fresh nodes that decodes to
      its meaning. */
  method Build(d: Deriv) returns (n: AstNode, ghost below: set<AstNode>)
    ensures fresh({n} + below) && Tree(n, Meaning(d), below)
    decreases d
  {
    hide Tree, TreeList, Encodes, EncodesList, Size, SizeAll;
    match d
    case DEmpty => n, below := Leaf(KNothing, Meaning(d));
    case DRegex(t) => n, below := Leaf(KRegex(t), Meaning(d));
    case DLiteral(t) => n, below := Leaf(KLiteral(t), Meaning(d));
    case DNonRange(t) => n, below := Leaf(KNonRange(t), Meaning(d));
    case DParts(p) => n, below := Leaf(KParts(p), Meaning(d));
    case DParens(inner) => n, below := Build(inner);
    case DUnion(l, r) => n, below := BuildBinary(KUnion, d, l, r);
    case DDiff(l, r) => n, below := BuildBinary(KDiff, d, l, r);
    case DInter(l, r) => n, below := BuildBinary(KInter, d, l, r);
    case DBraces(l, c, r) => n, below := BuildBraces(d, l, c, r);
    case DPrefix(op, inner) =>
      n, below := BuildUnary(if op.OpNot? then KNot else KFunction(OpFunction(op)), d, inner);
    case DCall(_, name, args) =>
      var n1, nodes := BuildArgs(args);
      n := Parent(KFunction(name), n1, Meaning(d), nodes);
      below := nodes;
  }

  method BuildBinary(kind: Kind, ghost d: Deriv, l: Deriv, r: Deriv) returns (n: AstNode, ghost below: set<AstNode>)
    requires l < d && r < d
    requires kind == KindOf(Meaning(d)) && Kids(Meaning(d)) == [Meaning(l), Meaning(r)]
    ensures fresh({n} + below) && Tree(n, Meaning(d), below)
    decreases d, 0
  {
    hide Tree, TreeList, Encodes, EncodesList, Size, SizeAll, Kids, Meaning;
    var n1, b1 := Build(l);
    var n2, b2 := Build(r);
    n, below := Binary(kind, n1, n2, Meaning(d), b1, b2);
  }

  method BuildUnary(kind: Kind, ghost d: Deriv, inner: Deriv) returns (n: AstNode, ghost below: set<AstNode>)
    requires inner < d && kind == KindOf(Meaning(d)) && Kids(Meaning(d)) == [Meaning(inner)]
    ensures fresh({n} + below) && Tree(n, Meaning(d), below)
    decreases d, 0
  {
    hide Tree, TreeList, Encodes, EncodesList, Size, SizeAll, Kids, Meaning;
    var n1, b1 := Build(inner);
    n, below := Unary(kind, n1, Meaning(d), b1);
  }

  method BuildBraces(ghost d: Deriv, l: Deriv, c: Deriv, r: Deriv) returns (n: AstNode, ghost below: set<AstNode>)
    requires l < d && c < d && r < d
    requires KindOf(Meaning(d)) == KBraces && Kids(Meaning(d)) == [Meaning(l), Meaning(c), Meaning(r)]
    ensures fresh({n} + below) && Tree(n, Meaning(d), below)
    decreases d, 0
  {
    hide *;
    var n1, b1 := Build(l);
    var n2, b2 := Build(c);
    var n3, b3 := Build(r);
    n, below := Ternary(n1, n2, n3, Meaning(d), b1, b2, b3);
  }

  method BuildArgs(args: DArgs) returns (n: AstNode, ghost nodes: set<AstNode>)
    ensures fresh(nodes) && n in nodes && TreeList(n, MeaningArgs(args), nodes)
    decreases args
  {
    hide Tree, TreeList, Encodes, EncodesList, Size, SizeAll, Meaning;
    match args
    case DLast(arg) =>
      var n1, below := Build(arg);
      OneChild(n1, Meaning(arg), below);
      n, nodes := n1, {n1} + below;
    case DMore(arg, rest) =>
      var n1, below := Build(arg);
      var n2, later := BuildArgs(rest);
      nodes := LinkList(n1, n2, Meaning(arg), below, MeaningArgs(rest), later);
      n := n1;
  }

  lemma KidsDecide(e: Expr, f: Expr)
    requires KindOf(e) == KindOf(f) && Kids(e) == Kids(f)
    ensures e == f
  {
    match e
    case EUnion(l, r) => assert Kids(e)[0] == l && Kids(e)[1] == r;
    case EBraces(l, c, r) => assert Kids(e)[0] == l && Kids(e)[1] == c && Kids(e)[2] == r;
    case EDiff(l, r) => assert Kids(e)[0] == l && Kids(e)[1] == r;
    case EInter(l, r) => assert Kids(e)[0] == l && Kids(e)[1] == r;
    case ENot(inner) => assert Kids(e)[0] == inner;
    case EGroup(inner) => assert Kids(e)[0] == inner;
    case _ =>
  }
}
