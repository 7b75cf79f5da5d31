/** Ranges over sets that are changed and destroyed in place (range.c). */
module Ranges {
  import opened Text
  import opened Decimal
  import opened NodeParts
  import opened NodeRange
  import opened RangeExpand
  import opened Semantics
  import opened ClusterSemantics
  import opened HashSets
  import SetAlgebra
  import SetRemove

  datatype Range = Range(nodes: HashSet, quoted: bool)

  /** A range request: what it evaluates with, and the range it holds. */
  class Request {
    const hash: string -> nat
    const defs: Defs
    ghost const value: Sections
    ghost const rank: Rank
    var r: Option<Range>

    constructor (hash: string -> nat, defs: Defs, ghost value: Sections, ghost rank: Rank)
      ensures this.hash == hash && this.defs == defs && this.value == value && this.rank == rank && r == None
    {
      this.hash := hash;
      this.defs := defs;
      this.value := value;
      this.rank := rank;
      r := None;
    }

    /** What evaluation means for this request, when sections have their values. */
    ghost function Env(): Env {
      EnvOf(defs, value)
    }
  }

  /** r holds the value v. */
  ghost predicate IsRange(r: Range, v: RangeVal)
    reads r.nodes, r.nodes.Repr
  {
    && r.nodes.Valid()
    && r.nodes.View().Keys == v.names
    && r.quoted == v.quoted
  }

  predicate Small(v: RangeVal) {
    |v.names| < BIG
  }

  /** The numbers of a range fit the C int, and so does the number of its names. */
  predicate PartsFit(p: RangeParts) {
    InInt(p) && |Expansion(p)| < BIG
  }

  lemma RangeSize(r: Range, v: RangeVal)
    requires IsRange(r, v)
    ensures r.nodes.members == |v.names| && r.nodes.Valid() && r.nodes.View().Keys == v.names
    ensures r.nodes in r.nodes.Repr && r.nodes.live
    ensures r.quoted == v.quoted
  {
    hide Sound, Mirrors;
    assert |r.nodes.m.view.Keys| == |r.nodes.m.view|;
  }

  lemma NowRange(r: Range, v: RangeVal)
    requires r.nodes.Valid() && r.nodes.View().Keys == v.names && r.quoted == v.quoted
    ensures IsRange(r, v)
  {
  }

  // range.c: construction.

  /** range_new */
  method RangeNew(rr: Request) returns (r: Range)
    ensures fresh(r.nodes.Repr) && IsRange(r, RangeVal({}, false))
  {
    hide HashSet.Valid, IsNextPrime;
    var s := new HashSet(rr.hash, 0);
    r := Range(s, false);
  }

  /** range_add */
  method RangeAdd(r: Range, text: string, ghost v: RangeVal)
    requires IsRange(r, v) && |v.names| < BIG
    modifies r.nodes.Repr
    ensures fresh(r.nodes.Repr - old(r.nodes.Repr))
    ensures IsRange(r, RangeVal(v.names + {text}, v.quoted))
  {
    hide HashSet.Valid, IsNextPrime, HashSet.View;
    RangeSize(r, v);
    ghost var before := r.nodes.View();
    r.nodes.Add(text, None);
    assert before[text := None].Keys == before.Keys + {text};
  }

  /** range_from_literal */
  method FromLiteral(rr: Request, literal: string) returns (r: Range)
    ensures fresh(r.nodes.Repr) && IsRange(r, RangeVal({literal}, false))
  {
    hide IsRange;
    r := RangeNew(rr);
    RangeAdd(r, literal, RangeVal({}, false));
    assert {} + {literal} == {literal};
  }

  /** range_from_nonrange_literal */
  method FromNonRangeLiteral(rr: Request, literal: string) returns (r: Range)
    ensures fresh(r.nodes.Repr) && IsRange(r, RangeVal({literal}, true))
  {
    hide HashSet.Valid;
    r := FromLiteral(rr, literal);
    r := r.(quoted := true);
  }

  /** range_destroy */
  method RangeDestroy(r: Range)
    requires r.nodes.live
    modifies r.nodes`live
    ensures !r.nodes.live
  {
    r.nodes.Destroy();
  }

  /** The names of a set, as set_members lists them. */
  method NamesOf(s: HashSet) returns (names: seq<string>)
    requires s.Valid()
    ensures |names| == s.members && Elements(names) == s.View().Keys
  {
    hide HashSet.Valid, Sound, NoRepeats, HashSet.View;
    s.Parts();
    var members, order := s.Members();
    names := [];
    var i := 0;
    while i < s.members
      invariant i <= s.members && |names| == i
      invariant forall j :: 0 <= j < i ==> names[j] == order[j].name
    {
      names := names + [members[i].name];
      i := i + 1;
    }
    ViewNames(s);
    forall x | x in s.View().Keys ensures x in Elements(names) {
      var n :| n in s.m.nodes && n.name == x;
      assert n in Elements(order);
      var j :| 0 <= j < |order| && order[j] == n;
      assert names[j] == x;
    }
    forall x | x in names ensures x in s.View().Keys {
      var j :| 0 <= j < |names| && names[j] == x;
      assert order[j] in Elements(order);
    }
  }

  lemma ViewNames(s: HashSet)
    requires s.Valid()
    ensures forall x :: x in s.View().Keys ==> exists n :: n in s.m.nodes && n.name == x
    ensures forall n :: n in s.m.nodes ==> n.name in s.View().Keys
  {
    hide Indexed, AllLists, Mirrors;
    assert s.View().Keys == Names(s.m.nodes);
  }

  /** range_get_hostnames: quoted when the range is. */
  method GetHostnames(r: Range, ghost v: RangeVal) returns (names: seq<string>)
    requires IsRange(r, v)
    ensures |names| == |v.names| && Elements(names) == Hostnames(v)
  {
    hide HashSet.Valid, HashSet.View;
    RangeSize(r, v);
    names := NamesOf(r.nodes);
    if r.quoted {
      var plain := names;
      names := seq(|plain|, i requires 0 <= i < |plain| => Quote(plain[i]));
      forall q | q in Hostnames(v) ensures q in Elements(names) {
        var n :| n in v.names && q == Quote(n);
        assert n in Elements(plain);
        var i :| 0 <= i < |plain| && plain[i] == n;
        assert names[i] == q;
      }
      forall q | q in names ensures q in Hostnames(v) {
        var i :| 0 <= i < |names| && names[i] == q;
        assert plain[i] in Elements(plain);
      }
    }
  }

  /** range_from_match */
  method FromMatch(rr: Request, r: Range, regex: string, ghost v: RangeVal) returns (ret: Range)
    requires IsRange(r, v)
    ensures fresh(ret.nodes.Repr) && IsRange(ret, Matching(rr.Env(), v, regex))
  {
    hide HashSet.Valid, IsRange, HashSet.View;
    RangeBelow(r, v);
    var members := GetHostnames(r, v);
    ret := RangeNew(rr);
    ghost var got: set<string> := {};
    var i := 0;
    while i < |members|
      invariant i <= |members| && |got| <= i
      invariant got == set h | h in members[..i] && rr.defs.matches(regex, h)
      invariant fresh(ret.nodes.Repr) && IsRange(ret, RangeVal(got, false))
    {
      assert members[..i + 1] == members[..i] + [members[i]];
      if rr.defs.matches(regex, members[i]) {
        RangeAdd(ret, members[i], RangeVal(got, false));
        got := got + {members[i]};
      }
      i := i + 1;
    }
    assert members[..i] == members;
    assert got == Matching(rr.Env(), v, regex).names by {
      forall h ensures h in got <==> h in Matching(rr.Env(), v, regex).names {
        assert h in members <==> h in Elements(members);
      }
    }
  }

  /** A set that a C int can count has fewer names than the largest int table has buckets, or as many. */
  lemma RangeBelow(r: Range, v: RangeVal)
    requires IsRange(r, v)
    ensures |v.names| <= BIG
  {
    hide Sound, Mirrors;
    RangeSize(r, v);
  }

  lemma ExpansionStep(p: RangeParts, i: nat)
    requires From(p) <= i <= To(p)
    ensures i - From(p) < |Expansion(p)| == To(p) - From(p) + 1
    ensures Elements(Expansion(p)[..i + 1 - From(p)])
         == Elements(Expansion(p)[..i - From(p)]) + {p.prefix + Pad(p) + Padded(Width(p), i) + p.domain}
  {
    hide Padded, From, To, Pad, Width;
    var k := i - From(p);
    assert Expansion(p)[..k + 1] == Expansion(p)[..k] + [Expansion(p)[k]];
    ElementsConcat(Expansion(p)[..k], [Expansion(p)[k]]);
  }

  lemma ExpansionLength(p: RangeParts)
    ensures |Expansion(p)| == if From(p) <= To(p) then To(p) - From(p) + 1 else 0
  {
  }

  /** range_from_rangeparts */
  method FromRangeparts(rr: Request, p: RangeParts) returns (r: Range)
    requires PartsFit(p)
    ensures fresh(r.nodes.Repr) && IsRange(r, RangeVal(Elements(Expansion(p)), false))
  {
    hide IsRange, Padded, Atoi, From, To, Pad, Width, Expansion;
    ExpansionLength(p);
    r := RangeNew(rr);
    ghost var got: set<string> := {};
    var f, l, i := From(p), To(p), From(p);
    while i <= l
      invariant f <= i <= INT_MAX && (f <= l ==> i <= l + 1)
      invariant i - f <= |Expansion(p)| && |got| <= i - f
      invariant got == Elements(Expansion(p)[..i - f])
      invariant fresh(r.nodes.Repr) && IsRange(r, RangeVal(got, false))
      decreases l - i
    {
      var text := p.prefix + Pad(p) + Padded(Width(p), i) + p.domain;
      ExpansionStep(p, i);
      RangeAdd(r, text, RangeVal(got, false));
      got := got + {text};
      i := i + 1;
    }
    assert Expansion(p)[..i - f] == Expansion(p);
  }

  /** A set holding the empty string, or the one made before. */
  method Blank(rr: Request, temp: HashSet?) returns (s: HashSet)
    requires temp != null ==> temp.Valid() && temp.View().Keys == {""}
    ensures s.Valid() && s.View().Keys == {""}
    ensures s == temp || fresh(s.Repr)
  {
    hide HashSet.Valid, IsNextPrime, HashSet.View, IsTableSize;
    if temp != null {
      s := temp;
    } else {
      s := new HashSet(rr.hash, 1);
      s.Add("", None);
    }
  }

  /** The names of an operand of braces, and the helper set once it is needed. */
  method Operands(rr: Request, s: HashSet, temp: HashSet?) returns (names: seq<string>, temp': HashSet?)
    requires s.Valid()
    requires temp != null ==> temp.Valid() && temp.View().Keys == {""}
    ensures temp' != null ==> temp'.Valid() && temp'.View().Keys == {""}
    ensures temp' == temp || (temp' != null && fresh(temp'.Repr))
    ensures Elements(names) == OrBlank(s.View().Keys)
  {
    hide HashSet.Valid, HashSet.View;
    temp' := temp;
    names := NamesOf(s);
    if s.members == 0 {
      assert s.View().Keys == {} by { assert Elements(names) == {}; }
      temp' := Blank(rr, temp);
      names := NamesOf(temp');
    } else {
      assert names[0] in Elements(names);
    }
  }

  function WithLast(x: string, y: string, m3: set<string>): set<string> {
    set z | z in m3 :: x + y + z
  }

  function WithMiddle(x: string, m2: set<string>, m3: set<string>): set<string> {
    set y, z | y in m2 && z in m3 :: x + y + z
  }

  function WithFirst(m1: set<string>, m2: set<string>, m3: set<string>): set<string> {
    set x, y, z | x in m1 && y in m2 && z in m3 :: x + y + z
  }

  lemma OneMoreLast(x: string, y: string, done: set<string>, z: string)
    ensures WithLast(x, y, {}) == {}
    ensures WithLast(x, y, done + {z}) == WithLast(x, y, done) + {x + y + z}
  {
  }

  lemma OneMoreMiddle(x: string, done: set<string>, y: string, m3: set<string>)
    ensures WithMiddle(x, {}, m3) == {}
    ensures WithMiddle(x, done + {y}, m3) == WithMiddle(x, done, m3) + WithLast(x, y, m3)
  {
  }

  lemma OneMoreFirst(done: set<string>, x: string, m2: set<string>, m3: set<string>)
    ensures WithFirst({}, m2, m3) == {}
    ensures WithFirst(done + {x}, m2, m3) == WithFirst(done, m2, m3) + WithMiddle(x, m2, m3)
  {
  }

  lemma MorePrefix(names: seq<string>, i: nat)
    requires i < |names|
    ensures Elements(names[..i + 1]) == Elements(names[..i]) + {names[i]}
  {
    assert names[..i + 1] == names[..i] + [names[i]];
  }

  lemma NoneYet(names: seq<string>)
    ensures Elements(names[..0]) == {}
  {
  }

  lemma WithinLast(x: string, y: string, m3: seq<string>, k: nat)
    requires k < |m3|
    ensures x + y + m3[k] in WithLast(x, y, Elements(m3))
  {
    assert m3[k] in Elements(m3);
  }

  lemma WithinMiddle(x: string, m2: seq<string>, j: nat, m3: set<string>)
    requires j < |m2|
    ensures WithLast(x, m2[j], m3) <= WithMiddle(x, Elements(m2), m3)
  {
    assert m2[j] in Elements(m2);
  }

  lemma WithinFirst(m1: seq<string>, i: nat, m2: set<string>, m3: set<string>)
    requires i < |m1|
    ensures WithMiddle(m1[i], m2, m3) <= WithFirst(Elements(m1), m2, m3)
  {
    assert m1[i] in Elements(m1);
  }

  /** The innermost loop of range_from_braces. */
  method AddLast(r: Range, x: string, y: string, m3: seq<string>, ghost got: set<string>)
    requires IsRange(r, RangeVal(got, false))
    requires |got + WithLast(x, y, Elements(m3))| < BIG
    modifies r.nodes.Repr
    ensures fresh(r.nodes.Repr - old(r.nodes.Repr))
    ensures IsRange(r, RangeVal(got + WithLast(x, y, Elements(m3)), false))
  {
    hide IsRange, WithLast, Elements;
    NoneYet(m3);
    OneMoreLast(x, y, {}, "");
    ghost var have := got;
    for k := 0 to |m3|
      invariant have == got + WithLast(x, y, Elements(m3[..k])) && have <= got + WithLast(x, y, Elements(m3))
      invariant fresh(r.nodes.Repr - old(r.nodes.Repr)) && IsRange(r, RangeVal(have, false))
    {
      MorePrefix(m3, k);
      WithinLast(x, y, m3, k);
      SubsetSize(have, got + WithLast(x, y, Elements(m3)));
      OneMoreLast(x, y, Elements(m3[..k]), m3[k]);
      RangeAdd(r, x + y + m3[k], RangeVal(have, false));
      have := have + {x + y + m3[k]};
    }
    assert m3[..|m3|] == m3;
  }

  /** The middle loop. */
  method AddMiddle(r: Range, x: string, m2: seq<string>, m3: seq<string>, ghost got: set<string>)
    requires IsRange(r, RangeVal(got, false))
    requires |got + WithMiddle(x, Elements(m2), Elements(m3))| < BIG
    modifies r.nodes.Repr
    ensures fresh(r.nodes.Repr - old(r.nodes.Repr))
    ensures IsRange(r, RangeVal(got + WithMiddle(x, Elements(m2), Elements(m3)), false))
  {
    hide IsRange, WithLast, WithMiddle, Elements;
    NoneYet(m2);
    OneMoreMiddle(x, {}, "", Elements(m3));
    ghost var all := got + WithMiddle(x, Elements(m2), Elements(m3));
    ghost var have := got;
    for j := 0 to |m2|
      invariant have == got + WithMiddle(x, Elements(m2[..j]), Elements(m3)) && have <= all
      invariant fresh(r.nodes.Repr - old(r.nodes.Repr)) && IsRange(r, RangeVal(have, false))
    {
      MorePrefix(m2, j);
      WithinMiddle(x, m2, j, Elements(m3));
      SubsetSize(have + WithLast(x, m2[j], Elements(m3)), all);
      OneMoreMiddle(x, Elements(m2[..j]), m2[j], Elements(m3));
      AddLast(r, x, m2[j], m3, have);
      have := have + WithLast(x, m2[j], Elements(m3));
    }
    assert m2[..|m2|] == m2;
  }

  /** The three loops over the operands' names. */
  method AddBundles(r: Range, m1: seq<string>, m2: seq<string>, m3: seq<string>)
    requires IsRange(r, RangeVal({}, false))
    requires |WithFirst(Elements(m1), Elements(m2), Elements(m3))| < BIG
    modifies r.nodes.Repr
    ensures fresh(r.nodes.Repr - old(r.nodes.Repr))
    ensures IsRange(r, RangeVal(WithFirst(Elements(m1), Elements(m2), Elements(m3)), false))
  {
    hide IsRange, WithFirst, WithMiddle, Elements;
    NoneYet(m1);
    OneMoreFirst({}, "", Elements(m2), Elements(m3));
    ghost var all := WithFirst(Elements(m1), Elements(m2), Elements(m3));
    ghost var have: set<string> := {};
    for i := 0 to |m1|
      invariant have == WithFirst(Elements(m1[..i]), Elements(m2), Elements(m3)) && have <= all
      invariant fresh(r.nodes.Repr - old(r.nodes.Repr)) && IsRange(r, RangeVal(have, false))
    {
      MorePrefix(m1, i);
      WithinFirst(m1, i, Elements(m2), Elements(m3));
      SubsetSize(have + WithMiddle(m1[i], Elements(m2), Elements(m3)), all);
      OneMoreFirst(Elements(m1[..i]), m1[i], Elements(m2), Elements(m3));
      AddMiddle(r, m1[i], m2, m3, have);
      have := have + WithMiddle(m1[i], Elements(m2), Elements(m3));
    }
    assert m1[..|m1|] == m1;
  }

  /** Where an operand is empty, one helper set with the empty string stands in for it. */
  method AllOperands(rr: Request, s1: HashSet, s2: HashSet, s3: HashSet)
    returns (m1: seq<string>, m2: seq<string>, m3: seq<string>, temp: HashSet?)
    requires s1.Valid() && s2.Valid() && s3.Valid()
    ensures temp != null ==> fresh(temp.Repr) && temp.Valid()
    ensures Elements(m1) == OrBlank(s1.View().Keys)
    ensures Elements(m2) == OrBlank(s2.View().Keys)
    ensures Elements(m3) == OrBlank(s3.View().Keys)
  {
    hide HashSet.Valid, Elements, OrBlank, HashSet.View;
    m1, temp := Operands(rr, s1, null);
    m2, temp := Operands(rr, s2, temp);
    m3, temp := Operands(rr, s3, temp);
  }

  /** range_from_braces */
  method FromBraces(rr: Request, r1: Range, r2: Range, r3: Range, ghost a: RangeVal, ghost b: RangeVal,
                    ghost c: RangeVal)
    returns (r: Range)
    requires IsRange(r1, a) && IsRange(r2, b) && IsRange(r3, c)
    requires |Bundles(a.names, b.names, c.names)| < BIG
    ensures fresh(r.nodes.Repr)
    ensures IsRange(r, RangeVal(Bundles(a.names, b.names, c.names), a.quoted || b.quoted || c.quoted))
  {
    hide HashSet.Valid, Elements, OrBlank, HashSet.View, IsRange, WithFirst, Bundles;
    RangeSize(r1, a);
    RangeSize(r2, b);
    RangeSize(r3, c);
    var m1, m2, m3, temp := AllOperands(rr, r1.nodes, r2.nodes, r3.nodes);
    BundlesAreWithFirst(a.names, b.names, c.names);
    var bigrange := RangeNew(rr);
    AddBundles(bigrange, m1, m2, m3);
    if temp != null {
      temp.Destroy();
    }
    r := bigrange.(quoted := r1.quoted || r2.quoted || r3.quoted);
    Requoted(bigrange, r, RangeVal(Bundles(a.names, b.names, c.names), false));
  }

  lemma BundlesAreWithFirst(a: set<string>, b: set<string>, c: set<string>)
    ensures Bundles(a, b, c) == WithFirst(OrBlank(a), OrBlank(b), OrBlank(c))
  {
  }

  lemma Requoted(r: Range, r': Range, v: RangeVal)
    requires IsRange(r, v) && r'.nodes == r.nodes
    ensures IsRange(r', RangeVal(v.names, r'.quoted))
  {
  }

  // Operations that change or consume their operands.

  /** The larger operand takes over the other's names, and the other is destroyed. */
  method UnionOfBoth(r1: Range, r2: Range, ghost a: RangeVal, ghost b: RangeVal) returns (r: Range)
    requires IsRange(r1, a) && IsRange(r2, b) && r1.nodes.Repr !! r2.nodes.Repr
    requires |a.names| + |b.names| < BIG
    modifies r1.nodes.Repr, r2.nodes.Repr
    ensures r == if |a.names| > |b.names| then r1 else r2
    ensures !(if r == r1 then r2 else r1).nodes.live
    ensures fresh(r.nodes.Repr - old(r.nodes.Repr))
    ensures IsRange(r, RangeVal(a.names + b.names, if |a.names| > |b.names| then a.quoted else b.quoted))
  {
    hide IsRange, HashSet.Valid, HashSet.View;
    RangeSize(r1, a);
    RangeSize(r2, b);
    if r1.nodes.members > r2.nodes.members {
      Absorb(r1, r2, a, b);
      r := r1;
    } else {
      Absorb(r2, r1, b, a);
      r := r2;
      assert b.names + a.names == a.names + b.names;
    }
  }

  /** dst takes over src's names, and src is destroyed. */
  method Absorb(dst: Range, src: Range, ghost a: RangeVal, ghost b: RangeVal)
    requires IsRange(dst, a) && IsRange(src, b) && dst.nodes.Repr !! src.nodes.Repr
    requires |a.names| + |b.names| < BIG
    modifies dst.nodes.Repr, src.nodes.Repr
    ensures fresh(dst.nodes.Repr - old(dst.nodes.Repr)) && !src.nodes.live
    ensures IsRange(dst, RangeVal(a.names + b.names, a.quoted))
  {
    hide IsRange, HashSet.Valid, HashSet.View;
    RangeSize(src, b);
    UnionInplace(dst, src, a, b);
    RangeDestroy(src);
  }

  /** range_union_inplace */
  method UnionInplace(dst: Range, src: Range, ghost a: RangeVal, ghost b: RangeVal)
    requires IsRange(dst, a) && IsRange(src, b) && dst.nodes.Repr !! src.nodes.Repr
    requires |a.names| + |b.names| < BIG
    modifies dst.nodes.Repr
    ensures fresh(dst.nodes.Repr - old(dst.nodes.Repr))
    ensures IsRange(dst, RangeVal(a.names + b.names, a.quoted))
  {
    hide IsRange, HashSet.Valid, HashSet.View, IsNextPrime, IsTableSize;
    RangeSize(dst, a);
    RangeSize(src, b);
    SetAlgebra.UnionInplace(dst.nodes, src.nodes);
    NowRange(dst, RangeVal(a.names + b.names, a.quoted));
  }

  /** range_from_inter, after which both operands are destroyed. */
  method InterOfBoth(r1: Range, r2: Range, ghost a: RangeVal, ghost b: RangeVal) returns (r: Range)
    requires IsRange(r1, a) && IsRange(r2, b) && r1.nodes.Repr !! r2.nodes.Repr
    modifies r1.nodes.Repr, r2.nodes.Repr
    ensures fresh(r.nodes.Repr) && !r1.nodes.live && !r2.nodes.live
    ensures IsRange(r, RangeVal(a.names * b.names, a.quoted || b.quoted))
  {
    hide HashSet.Valid, IsNextPrime, HashSet.View;
    var s := SetAlgebra.Intersect(r1.nodes, r2.nodes);
    r := Range(s, r1.quoted || r2.quoted);
    RangeDestroy(r1);
    RangeDestroy(r2);
  }

  /** range_diff_inplace */
  method DiffInplace(dst: Range, r2: Range, ghost a: RangeVal, ghost b: RangeVal)
    requires IsRange(dst, a) && IsRange(r2, b) && dst.nodes.Repr !! r2.nodes.Repr
    modifies dst.nodes.Repr
    ensures dst.nodes.Repr == old(dst.nodes.Repr)
    ensures IsRange(dst, RangeVal(a.names - b.names, a.quoted))
  {
    hide HashSet.Valid, IsNextPrime, HashSet.View;
    SetRemove.DiffInplace(dst.nodes, r2.nodes);
  }

  // Functions.

  /** The ranges of rs hold the values vs and share nothing. */
  ghost predicate Hold(rs: seq<Range>, vs: seq<RangeVal>)
    reads set r | r in rs :: r.nodes, set r, o | r in rs && o in r.nodes.Repr :: o
  {
    && |rs| == |vs|
    && (forall i :: 0 <= i < |rs| ==> IsRange(rs[i], vs[i]))
    && (forall i, j :: 0 <= i < j < |rs| ==> rs[i].nodes.Repr !! rs[j].nodes.Repr)
  }

  /** A null-terminated array of ranges. */
  ghost predicate Terminated(ranges: array<Option<Range>>, rs: seq<Range>)
    reads ranges
  {
    && ranges.Length == |rs| + 1
    && (forall i :: 0 <= i < |rs| ==> ranges[i] == Some(rs[i]))
    && ranges[|rs|] == None
  }

  /** The value that a plugin function sees. */
  method ReadRange(r: Range, ghost v: RangeVal) returns (v': RangeVal)
    requires IsRange(r, v)
    ensures v' == v
  {
    hide HashSet.Valid, HashSet.View;
    var names := NamesOf(r.nodes);
    v' := RangeVal(Elements(names), r.quoted);
  }

  /** The values of all arguments, up to the null. */
  method ReadAll(ranges: array<Option<Range>>, ghost rs: seq<Range>, ghost vs: seq<RangeVal>)
    returns (args: seq<RangeVal>)
    requires Terminated(ranges, rs) && Hold(rs, vs)
    ensures args == vs
  {
    hide *;
    args := [];
    var i := 0;
    TerminatedAt(ranges, rs, 0);
    HoldAt(rs, vs);
    while ranges[i].Some?
      invariant i <= |rs| == |vs| && args == vs[..i] && ranges.Length == |rs| + 1
      invariant ranges[i].Some? ==> i < |rs| && ranges[i] == Some(rs[i])
      invariant ranges[i].None? ==> i == |rs|
      invariant Terminated(ranges, rs)
      invariant forall j :: 0 <= j < |rs| ==> allocated(rs[j]) && allocated(rs[j].nodes)
      invariant forall j :: 0 <= j < |rs| ==> IsRange(rs[j], vs[j])
      decreases |rs| - i
    {
      var v := ReadRange(ranges[i].value, vs[i]);
      args := args + [v];
      i := i + 1;
      TerminatedAt(ranges, rs, i);
    }
  }

  lemma TerminatedAt(ranges: array<Option<Range>>, rs: seq<Range>, i: nat)
    requires Terminated(ranges, rs) && i <= |rs|
    ensures ranges.Length == |rs| + 1
    ensures ranges[i] == if i < |rs| then Some(rs[i]) else None
  {
  }

  lemma HoldAt(rs: seq<Range>, vs: seq<RangeVal>)
    requires Hold(rs, vs)
    ensures |rs| == |vs| && forall i :: 0 <= i < |rs| ==> IsRange(rs[i], vs[i])
  {
  }

  /** A new range with the names of v. */
  method Fill(rr: Request, v: RangeVal) returns (r: Range)
    requires Small(v)
    ensures fresh(r.nodes.Repr) && IsRange(r, v)
  {
    hide IsRange;
    var s := RangeNew(rr);
    var rest := v.names;
    ghost var done: set<string> := {};
    while rest != {}
      invariant rest + done == v.names
      invariant fresh(s.nodes.Repr) && IsRange(s, RangeVal(done, false))
      decreases |rest|
    {
      var x :| x in rest;
      SubsetSize(done, v.names);
      RangeAdd(s, x, RangeVal(done, false));
      rest, done := rest - {x}, done + {x};
    }
    assert done == v.names;
    r := s.(quoted := v.quoted);
    Requoted(s, r, RangeVal(done, false));
  }

  /** The destroy loop after a call. */
  method DestroyAll(ranges: array<Option<Range>>, ghost rs: seq<Range>)
    requires Terminated(ranges, rs)
    requires forall i :: 0 <= i < |rs| ==> rs[i].nodes.live
    requires forall i, j :: 0 <= i < j < |rs| ==> rs[i].nodes != rs[j].nodes
    modifies set r | r in rs :: r.nodes
    ensures forall i :: 0 <= i < |rs| ==> !rs[i].nodes.live
  {
    var i := 0;
    while ranges[i].Some?
      invariant i <= |rs| && Terminated(ranges, rs)
      invariant forall j :: 0 <= j < |rs| ==> rs[j].nodes.live == (j >= i)
      decreases |rs| - i
    {
      RangeDestroy(ranges[i].value);
      i := i + 1;
    }
  }
}
