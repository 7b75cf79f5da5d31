/** Evaluation of a syntax tree (range_evaluate in ast.c), with cluster definitions feeding back
    into the evaluator (_expand_cluster and the functions that call it in yamlfile.c,
    do_range_expand and range_from_function in range.c). */
module Evaluator {
  import opened Text
  import opened Grammar
  import opened Semantics
  import opened ClusterSemantics
  import opened AstHeap
  import opened ClusterIndex
  import opened HashSets
  import opened Ranges
  import opened IndexLookup

  /** The names of a function's result, counted twice, fit the largest table. */
  predicate Modest(v: RangeVal) {
    2 * |v.names| < BIG
  }

  /** The union loops of cluster and group want room for both operands at once. */
  predicate CallFits(name: string, v: RangeVal) {
    if name == "cluster" || name == "group" then Modest(v) else Small(v)
  }

  /** No set that evaluation builds outgrows the table sizes a C int holds. */
  predicate Fits(env: Env, e: Expr)
    decreases e
  {
    match e
    case EParts(p) => PartsFit(p)
    case ERegex(_) => Modest(Everything(env))
    case EUnion(l, r) => Fits(env, l) && Fits(env, r) && |Eval(env, l).names| + |Eval(env, r).names| < BIG
    case EBraces(l, c, r) => Fits(env, l) && Fits(env, c) && Fits(env, r) && Small(Eval(env, e))
    case EDiff(l, r) => Fits(env, l) && (r.ERegex? || Fits(env, r))
    case EInter(l, r) => Fits(env, l) && (r.ERegex? || Fits(env, r))
    case ENot(inner) => Fits(env, inner) && Modest(Everything(env))
    case EGroup(inner) => Fits(env, inner) && Modest(Eval(env, e))
    case EFunction(_, args) => (forall a :: a in args ==> Fits(env, a)) && CallFits(e.name, Eval(env, e))
    case _ => true
  }

  /** The request's sections of rank below k have the values that their texts define; each of
      these texts refers to sections of lower rank only, fits, and is unquoted. */
  ghost predicate Ready(rr: Request, k: nat) {
    && SolvesBelow(rr.defs, rr.rank, k, rr.value)
    && forall c, s :: rr.rank(c, s) < k && SectionExpr(rr.defs, c, s).Some? ==>
      SectionReady(rr, rr.rank(c, s), SectionExpr(rr.defs, c, s).value)
  }

  ghost predicate SectionReady(rr: Request, k: nat, e: Expr) {
    Fits(rr.Env(), e) && ReadsBelow(rr.defs, rr.value, rr.rank, k, e) && !Eval(rr.Env(), e).quoted
  }

  lemma SectionIsReady(rr: Request, k: nat, c: string, s: string)
    requires Ready(rr, k) && rr.rank(c, s) < k
    ensures Ready(rr, rr.rank(c, s))
    ensures rr.value(c, s) == SectionValue(rr.defs, rr.value, c, s)
    ensures SectionExpr(rr.defs, c, s).Some? ==> SectionReady(rr, rr.rank(c, s), SectionExpr(rr.defs, c, s).value)
  {
    hide SectionReady, SectionValue, SectionExpr;
  }

  // Functions.

  /** validate_range_args: a call has the expected number of arguments; one is as good as none. */
  method ValidateRangeArgs(ranges: array<Option<Range>>, expected: nat, ghost rs: seq<Range>) returns (ok: bool)
    requires Terminated(ranges, rs) && (expected == 0 ==> |rs| > 0)
    ensures ok == (|rs| == expected || (expected == 0 && |rs| == 1))
  {
    if expected == 0 && ranges[1].None? {
      return true;
    }
    var i := 0;
    while i < expected
      invariant i <= expected && i <= |rs|
    {
      if ranges[i].None? {
        return false;
      }
      i := i + 1;
    }
    ok := ranges[i].None?;
  }

  lemma UnionGrows(value: Sections, names: seq<string>, i: nat)
    requires i < |names|
    ensures ClusterUnion(value, Elements(names[..i + 1]))
         == ClusterUnion(value, Elements(names[..i])) + ValueOf(value, names[i])
    ensures ClusterUnion(value, Elements(names[..i])) + ValueOf(value, names[i]) <= ClusterUnion(value, Elements(names))
  {
    hide ValueOf;
    assert names[..i + 1] == names[..i] + [names[i]];
  }

  lemma GroupsGrow(value: Sections, names: seq<string>, i: nat)
    requires i < |names|
    ensures GroupUnion(value, Elements(names[..i + 1]))
         == GroupUnion(value, Elements(names[..i])) + value("GROUPS", names[i])
    ensures GroupUnion(value, Elements(names[..i])) + value("GROUPS", names[i]) <= GroupUnion(value, Elements(names))
  {
    assert names[..i + 1] == names[..i] + [names[i]];
  }

  lemma UnionOfNone(value: Sections)
    ensures ClusterUnion(value, {}) == {} && GroupUnion(value, {}) == {}
  {
  }

  lemma NameBelow(rank: Rank, k: nat, names: seq<string>, i: nat)
    requires i < |names|
    ensures NamesBelow(rank, k, Elements(names)) ==> rank(SplitName(names[i]).0, SplitName(names[i]).1) < k
    ensures GroupsBelow(rank, k, Elements(names)) ==> rank("GROUPS", names[i]) < k
  {
    assert names[i] in Elements(names);
  }

  lemma BothSmall(a: set<string>, b: set<string>, all: set<string>)
    requires a + b <= all && 2 * |all| < BIG
    ensures |a| + |b| < BIG
  {
    SubsetSize(a, all);
    SubsetSize(b, all);
  }

  /** rangefunc_cluster: the union of the sections that the names refer to. Whichever set is
      larger takes over the other; the set that comes out does not depend on it. */
  method RangefuncCluster(rr: Request, ghost k: nat, ranges: array<Option<Range>>,
                          ghost rs: seq<Range>, ghost vs: seq<RangeVal>) returns (r: Range)
    requires Ready(rr, k) && Terminated(ranges, rs) && Hold(rs, vs)
    requires CallBelow(rr.defs, rr.value, rr.rank, k, "cluster", vs) && Modest(CallFunction(rr.defs, rr.value, "cluster", vs))
    modifies rr`r
    ensures fresh(r.nodes.Repr) && IsRange(r, CallFunction(rr.defs, rr.value, "cluster", vs))
    decreases k, 0, 3
  {
    hide Ready, Terminated, Hold, IsRange, ClusterUnion;
    HoldAt(rs, vs);
    assert |rs| > 0 ==> allocated(rs[0]) && allocated(rs[0].nodes) && IsRange(rs[0], vs[0]);
    var ok := ValidateRangeArgs(ranges, 1, rs);
    if ok {
      TerminatedAt(ranges, rs, 0);
      var names := GetHostnames(ranges[0].value, vs[0]);
      r := UnionOfSections(rr, k, names);
    } else {
      r := RangeNew(rr);
    }
  }

  method UnionOfSections(rr: Request, ghost k: nat, clusters: seq<string>) returns (ret: Range)
    requires Ready(rr, k) && NamesBelow(rr.rank, k, Elements(clusters))
    requires 2 * |ClusterUnion(rr.value, Elements(clusters))| < BIG
    modifies rr`r
    ensures fresh(ret.nodes.Repr) && IsRange(ret, RangeVal(ClusterUnion(rr.value, Elements(clusters)), false))
    decreases k, 0, 2
  {
    hide Ready, IsRange, ClusterUnion, Elements, NamesBelow, SplitName;
    NoneYet(clusters);
    UnionOfNone(rr.value);
    ret := RangeNew(rr);
    ghost var got: set<string> := {};
    var p := 0;
    while p < |clusters|
      invariant p <= |clusters| && got == ClusterUnion(rr.value, Elements(clusters[..p]))
      invariant fresh(ret.nodes.Repr) && IsRange(ret, RangeVal(got, false))
    {
      UnionGrows(rr.value, clusters, p);
      BothSmall(got, ValueOf(rr.value, clusters[p]), ClusterUnion(rr.value, Elements(clusters)));
      NameBelow(rr.rank, k, clusters, p);
      var at := SplitName(clusters[p]);
      var r1 := ExpandCluster(rr, k, at.0, at.1);
      ret := UnionOfBoth(r1, ret, RangeVal(ValueOf(rr.value, clusters[p]), false), RangeVal(got, false));
      assert ValueOf(rr.value, clusters[p]) + got == got + ValueOf(rr.value, clusters[p]);
      got := got + ValueOf(rr.value, clusters[p]);
      p := p + 1;
    }
    assert clusters[..p] == clusters;
  }

  /** rangefunc_group: the union of the sections of GROUPS with these names. */
  method RangefuncGroup(rr: Request, ghost k: nat, ranges: array<Option<Range>>,
                        ghost rs: seq<Range>, ghost vs: seq<RangeVal>) returns (ret: Range)
    requires Ready(rr, k) && Terminated(ranges, rs) && Hold(rs, vs) && vs != []
    requires CallBelow(rr.defs, rr.value, rr.rank, k, "group", vs) && Modest(CallFunction(rr.defs, rr.value, "group", vs))
    modifies rr`r
    ensures fresh(ret.nodes.Repr) && IsRange(ret, CallFunction(rr.defs, rr.value, "group", vs))
    decreases k, 0, 3
  {
    hide Ready, Terminated, Hold, IsRange, GroupUnion;
    HoldAt(rs, vs);
    TerminatedAt(ranges, rs, 0);
    var names := GetHostnames(ranges[0].value, vs[0]);
    ret := UnionOfGroups(rr, k, names);
  }

  method UnionOfGroups(rr: Request, ghost k: nat, groups: seq<string>) returns (ret: Range)
    requires Ready(rr, k) && GroupsBelow(rr.rank, k, Elements(groups))
    requires 2 * |GroupUnion(rr.value, Elements(groups))| < BIG
    modifies rr`r
    ensures fresh(ret.nodes.Repr) && IsRange(ret, RangeVal(GroupUnion(rr.value, Elements(groups)), false))
    decreases k, 0, 2
  {
    hide Ready, IsRange, GroupUnion, Elements, GroupsBelow;
    NoneYet(groups);
    UnionOfNone(rr.value);
    ret := RangeNew(rr);
    ghost var got: set<string> := {};
    var i := 0;
    while i < |groups|
      invariant i <= |groups| && got == GroupUnion(rr.value, Elements(groups[..i]))
      invariant fresh(ret.nodes.Repr) && IsRange(ret, RangeVal(got, false))
    {
      GroupsGrow(rr.value, groups, i);
      BothSmall(got, rr.value("GROUPS", groups[i]), GroupUnion(rr.value, Elements(groups)));
      NameBelow(rr.rank, k, groups, i);
      var r1 := ExpandCluster(rr, k, "GROUPS", groups[i]);
      UnionInplace(ret, r1, RangeVal(got, false), RangeVal(rr.value("GROUPS", groups[i]), false));
      got := got + rr.value("GROUPS", groups[i]);
      i := i + 1;
    }
    assert groups[..i] == groups;
  }

  // The functions that read an index, or the sections of a cluster.

  /** The names of the argument of a function that takes one. */
  method OneArgument(ranges: array<Option<Range>>, ghost rs: seq<Range>, ghost vs: seq<RangeVal>)
    returns (ok: bool, names: seq<string>)
    requires Terminated(ranges, rs) && Hold(rs, vs)
    ensures ok == (|vs| == 1) && (ok ==> Elements(names) == Hostnames(vs[0]))
  {
    hide Terminated, Hold, IsRange;
    HoldAt(rs, vs);
    names := [];
    assert |rs| > 0 ==> allocated(rs[0]) && allocated(rs[0].nodes) && IsRange(rs[0], vs[0]);
    ok := ValidateRangeArgs(ranges, 1, rs);
    if ok {
      TerminatedAt(ranges, rs, 0);
      names := GetHostnames(ranges[0].value, vs[0]);
    }
  }

  /** The names of the arguments of a function that takes two. */
  method TwoArguments(ranges: array<Option<Range>>, ghost rs: seq<Range>, ghost vs: seq<RangeVal>)
    returns (ok: bool, first: seq<string>, second: seq<string>)
    requires Terminated(ranges, rs) && Hold(rs, vs)
    ensures ok == (|vs| == 2)
    ensures ok ==> Elements(first) == Hostnames(vs[0]) && |first| == |vs[0].names|
    ensures ok ==> Elements(second) == Hostnames(vs[1]) && |second| == |vs[1].names|
  {
    hide Terminated, Hold, IsRange;
    HoldAt(rs, vs);
    first, second := [], [];
    assert |rs| > 0 ==> allocated(rs[0]) && allocated(rs[0].nodes) && IsRange(rs[0], vs[0]);
    assert |rs| > 1 ==> allocated(rs[1]) && allocated(rs[1].nodes) && IsRange(rs[1], vs[1]);
    ok := ValidateRangeArgs(ranges, 2, rs);
    if ok {
      TerminatedAt(ranges, rs, 0);
      TerminatedAt(ranges, rs, 1);
      first := GetHostnames(ranges[0].value, vs[0]);
      second := GetHostnames(ranges[1].value, vs[1]);
    }
  }

  /** _get_clusters: the nodes of every cluster, each with the clusters that hold it. */
  method GetClusters(rr: Request, ghost k: nat) returns (index: map<string, seq<string>>)
    requires Ready(rr, k) && ClustersBelow(rr.defs.clusters, rr.rank, k, "CLUSTER")
    modifies rr`r
    ensures Indexes(index, rr.defs.clusters, ByCluster(rr.value))
    decreases k, 0, 2
  {
    hide Ready, IsRange, Indexing, Indexes;
    var clusters := rr.defs.clusters;
    index := map[];
    NothingIndexed(clusters, ByCluster(rr.value));
    var i := 0;
    while i < |clusters|
      invariant i <= |clusters| && Indexes(index, clusters[..i], ByCluster(rr.value))
    {
      var r := ExpandCluster(rr, k, clusters[i], "CLUSTER");
      var nodes := GetHostnames(r, RangeVal(rr.value(clusters[i], "CLUSTER"), false));
      DistinctIfCounted(nodes);
      index := AddCluster(index, clusters[i], nodes, clusters[..i], ByCluster(rr.value));
      OneMoreIndexed(index, clusters, ByCluster(rr.value), i, nodes);
      i := i + 1;
    }
    assert clusters[..i] == clusters;
  }

  /** rangefunc_clusters: exactly the clusters whose CLUSTER section meets the names. */
  method RangefuncClusters(rr: Request, ghost k: nat, ranges: array<Option<Range>>,
                           ghost rs: seq<Range>, ghost vs: seq<RangeVal>) returns (r: Range)
    requires Ready(rr, k) && Terminated(ranges, rs) && Hold(rs, vs)
    requires CallBelow(rr.defs, rr.value, rr.rank, k, "clusters", vs)
    requires Small(CallFunction(rr.defs, rr.value, "clusters", vs))
    modifies rr`r
    ensures fresh(r.nodes.Repr) && IsRange(r, CallFunction(rr.defs, rr.value, "clusters", vs))
    decreases k, 0, 3
  {
    hide Ready, Terminated, Hold, IsRange, CallFunction, CallBelow, Meeting, Elements;
    ClustersCall(rr.defs, rr.value, vs);
    var ok, nodes := OneArgument(ranges, rs, vs);
    if ok {
      ClusterCallsBelow(rr.defs, rr.value, rr.rank, k, "clusters", vs);
      var index := GetClusters(rr, k);
      r := CollectAll(rr, index, nodes, rr.defs.clusters, ByCluster(rr.value));
    } else {
      r := RangeNew(rr);
    }
  }

  /** rangefunc_get_cluster: for each name in some cluster, the first cluster that holds it. */
  method RangefuncGetCluster(rr: Request, ghost k: nat, ranges: array<Option<Range>>,
                             ghost rs: seq<Range>, ghost vs: seq<RangeVal>) returns (r: Range)
    requires Ready(rr, k) && Terminated(ranges, rs) && Hold(rs, vs)
    requires CallBelow(rr.defs, rr.value, rr.rank, k, "get_cluster", vs)
    requires Small(CallFunction(rr.defs, rr.value, "get_cluster", vs))
    modifies rr`r
    ensures fresh(r.nodes.Repr) && IsRange(r, CallFunction(rr.defs, rr.value, "get_cluster", vs))
    decreases k, 0, 3
  {
    hide Ready, Terminated, Hold, IsRange, CallFunction, CallBelow, FirstHolders, Elements;
    GetClusterCall(rr.defs, rr.value, vs);
    var ok, nodes := OneArgument(ranges, rs, vs);
    if ok {
      ClusterCallsBelow(rr.defs, rr.value, rr.rank, k, "get_cluster", vs);
      var index := GetClusters(rr, k);
      r := CollectFirst(rr, index, nodes, rr.defs.clusters, ByCluster(rr.value));
    } else {
      r := RangeNew(rr);
    }
  }

  /** The sections that KEYS lists, as range_get_hostnames gives them. */
  method KeysOf(rr: Request, ghost k: nat, c: string) returns (sections: seq<string>)
    requires Ready(rr, k) && rr.rank(c, "KEYS") < k
    modifies rr`r
    ensures Elements(sections) == rr.value(c, "KEYS")
    decreases k, 0, 2
  {
    hide Ready, IsRange;
    var keys := ExpandCluster(rr, k, c, "KEYS");
    sections := GetHostnames(keys, RangeVal(rr.value(c, "KEYS"), false));
  }

  lemma SectionBelow(value: Sections, rank: Rank, k: nat, c: string, sections: seq<string>, i: nat)
    requires SectionsBelow(value, rank, k, c) && Elements(sections) == value(c, "KEYS") && i < |sections|
    ensures rank(c, sections[i]) < k
  {
    assert sections[i] in Elements(sections);
  }

  /** The index of the sections of a cluster. */
  method IndexSections(rr: Request, ghost k: nat, c: string, sections: seq<string>)
    returns (index: map<string, seq<string>>)
    requires Ready(rr, k) && SectionsBelow(rr.value, rr.rank, k, c) && Elements(sections) == rr.value(c, "KEYS")
    modifies rr`r
    ensures Indexes(index, sections, BySection(rr.value, c))
    decreases k, 0, 2
  {
    hide Ready, IsRange, Indexing, Indexes, SectionsBelow, Elements;
    index := map[];
    NothingIndexed(sections, BySection(rr.value, c));
    var i := 0;
    while i < |sections|
      invariant i <= |sections| && Indexes(index, sections[..i], BySection(rr.value, c))
    {
      SectionBelow(rr.value, rr.rank, k, c, sections, i);
      var r := ExpandCluster(rr, k, c, sections[i]);
      var nodes := GetHostnames(r, RangeVal(rr.value(c, sections[i]), false));
      DistinctIfCounted(nodes);
      index := AddCluster(index, sections[i], nodes, sections[..i], BySection(rr.value, c));
      OneMoreIndexed(index, sections, BySection(rr.value, c), i, nodes);
      i := i + 1;
    }
    assert sections[..i] == sections;
  }

  /** rangefunc_get_groups: exactly the sections of GROUPS that meet the names. */
  method RangefuncGetGroups(rr: Request, ghost k: nat, ranges: array<Option<Range>>,
                            ghost rs: seq<Range>, ghost vs: seq<RangeVal>) returns (r: Range)
    requires Ready(rr, k) && Terminated(ranges, rs) && Hold(rs, vs)
    requires CallBelow(rr.defs, rr.value, rr.rank, k, "get_groups", vs)
    requires Small(CallFunction(rr.defs, rr.value, "get_groups", vs))
    modifies rr`r
    ensures fresh(r.nodes.Repr) && IsRange(r, CallFunction(rr.defs, rr.value, "get_groups", vs))
    decreases k, 0, 3
  {
    hide Ready, Terminated, Hold, IsRange, CallFunction, CallBelow, Meeting, Elements;
    GetGroupsCall(rr.defs, rr.value, vs);
    var ok, nodes := OneArgument(ranges, rs, vs);
    if ok {
      GetGroupsBelow(rr.defs, rr.value, rr.rank, k, vs);
      var groups := KeysOf(rr, k, "GROUPS");
      var index := IndexSections(rr, k, "GROUPS", groups);
      r := CollectAll(rr, index, nodes, groups, BySection(rr.value, "GROUPS"));
    } else {
      r := RangeNew(rr);
    }
  }

  /** What the goto loop has found among the first i sections. */
  ghost function FoundIn(sections: seq<string>, i: nat, expand: Expansions, wanted: set<string>): set<string>
    requires i <= |sections|
  {
    Meeting(Elements(sections[..i]), expand, wanted)
  }

  lemma FoundStep(sections: seq<string>, i: nat, expand: Expansions, wanted: set<string>)
    requires i < |sections|
    ensures FoundIn(sections, i + 1, expand, wanted)
         == if Meets(expand, sections[i], wanted) then FoundIn(sections, i, expand, wanted) + {sections[i]}
            else FoundIn(sections, i, expand, wanted)
    ensures FoundIn(sections, i, expand, wanted) <= Meeting(Elements(sections), expand, wanted)
  {
    hide Meeting, Meets, Elements;
    MorePrefix(sections, i);
    PrefixSubset(sections, i);
    ListedStep(Elements(sections[..i]), sections[i], expand, wanted);
    MeetingGrows(Elements(sections[..i]), Elements(sections), expand, wanted, wanted);
  }

  lemma FoundEnds(sections: seq<string>, expand: Expansions, wanted: set<string>)
    ensures FoundIn(sections, 0, expand, wanted) == {}
    ensures FoundIn(sections, |sections|, expand, wanted) == Meeting(Elements(sections), expand, wanted)
  {
    assert sections[..|sections|] == sections;
  }

  /** The goto loop of rangefunc_mem: the sections that hold a wanted name. */
  method SectionsWith(rr: Request, ghost k: nat, c: string, sections: seq<string>, wanted: seq<string>)
    returns (ret: Range)
    requires Ready(rr, k) && SectionsBelow(rr.value, rr.rank, k, c) && Elements(sections) == rr.value(c, "KEYS")
    requires |SectionsMeeting(rr.value, c, Elements(wanted))| < BIG
    modifies rr`r
    ensures fresh(ret.nodes.Repr)
    ensures IsRange(ret, RangeVal(SectionsMeeting(rr.value, c, Elements(wanted)), false))
    decreases k, 0, 2
  {
    hide Ready, IsRange, SectionsBelow, Elements, Meeting, Meets, FoundIn;
    ghost var expand := BySection(rr.value, c);
    ghost var all := SectionsMeeting(rr.value, c, Elements(wanted));
    FoundEnds(sections, expand, Elements(wanted));
    ret := RangeNew(rr);
    var i := 0;
    while i < |sections|
      invariant i <= |sections| && fresh(ret.nodes.Repr)
      invariant IsRange(ret, RangeVal(FoundIn(sections, i, expand, Elements(wanted)), false))
    {
      SectionBelow(rr.value, rr.rank, k, c, sections, i);
      FoundStep(sections, i, expand, Elements(wanted));
      var r := ExpandCluster(rr, k, c, sections[i]);
      var found := FindWanted(r, wanted, expand, sections[i]);
      if found {
        AddWithin(ret, sections[i], FoundIn(sections, i, expand, Elements(wanted)), all);
      }
      i := i + 1;
    }
  }

  lemma Alone(names: seq<string>)
    requires |names| == 1
    ensures Elements(names) == {names[0]}
  {
  }

  /** rangefunc_mem: the sections of a cluster that hold some of the names. */
  method RangefuncMem(rr: Request, ghost k: nat, ranges: array<Option<Range>>,
                      ghost rs: seq<Range>, ghost vs: seq<RangeVal>) returns (r: Range)
    requires Ready(rr, k) && Terminated(ranges, rs) && Hold(rs, vs) && TakesFirst("mem", vs)
    requires CallBelow(rr.defs, rr.value, rr.rank, k, "mem", vs)
    requires Small(CallFunction(rr.defs, rr.value, "mem", vs))
    modifies rr`r
    ensures fresh(r.nodes.Repr) && IsRange(r, CallFunction(rr.defs, rr.value, "mem", vs))
    decreases k, 0, 3
  {
    hide Ready, Terminated, Hold, IsRange, CallFunction, CallBelow, SectionsMeeting, Elements;
    var ok, clusters, wanted := TwoArguments(ranges, rs, vs);
    if ok {
      Alone(clusters);
      MemCall(rr.defs, rr.value, vs, clusters[0]);
      MemBelow(rr.defs, rr.value, rr.rank, k, vs, clusters[0]);
      var sections := KeysOf(rr, k, clusters[0]);
      r := SectionsWith(rr, k, clusters[0], sections, wanted);
    } else {
      WrongCall(rr.defs, rr.value, "mem", vs);
      r := RangeNew(rr);
    }
  }

  lemma ClusterBelow(clusters: seq<string>, rank: Rank, k: nat, section: string, i: nat)
    requires ClustersBelow(clusters, rank, k, section) && i < |clusters|
    ensures rank(clusters[i], section) < k
  {
  }

  /** What the loop of rangefunc_has has found among the first i clusters. */
  ghost function HeldIn(clusters: seq<string>, i: nat, value: Sections, t: string, x: string): set<string>
    requires i <= |clusters|
  {
    Holding(clusters[..i], value, t, x)
  }

  lemma HeldStep(clusters: seq<string>, i: nat, value: Sections, t: string, x: string)
    requires i < |clusters|
    ensures HeldIn(clusters, i + 1, value, t, x)
         == if x in value(clusters[i], t) then HeldIn(clusters, i, value, t, x) + {clusters[i]}
            else HeldIn(clusters, i, value, t, x)
    ensures HeldIn(clusters, i, value, t, x) <= Holding(clusters, value, t, x)
  {
    assert clusters[..i + 1] == clusters[..i] + [clusters[i]];
  }

  lemma HeldEnds(clusters: seq<string>, value: Sections, t: string, x: string)
    ensures HeldIn(clusters, 0, value, t, x) == {}
    ensures HeldIn(clusters, |clusters|, value, t, x) == Holding(clusters, value, t, x)
  {
    assert clusters[..|clusters|] == clusters;
  }

  /** The test of rangefunc_has: does section t of cluster c hold the name? */
  method SectionHolds(rr: Request, ghost k: nat, c: string, t: string, x: string) returns (b: bool)
    requires Ready(rr, k) && rr.rank(c, t) < k
    modifies rr`r
    ensures b <==> x in rr.value(c, t)
    decreases k, 0, 2, 0
  {
    hide Ready, IsRange, HashSet.Valid, HashSet.View;
    var r := ExpandCluster(rr, k, c, t);
    RangeSize(r, RangeVal(rr.value(c, t), false));
    var e := r.nodes.Get(x);
    b := e != null;
  }

  /** The loop of rangefunc_has: the clusters whose section holds the name. */
  method ClustersWith(rr: Request, ghost k: nat, t: string, x: string) returns (ret: Range)
    requires Ready(rr, k) && ClustersBelow(rr.defs.clusters, rr.rank, k, t)
    requires |Holding(rr.defs.clusters, rr.value, t, x)| < BIG
    modifies rr`r
    ensures fresh(ret.nodes.Repr)
    ensures IsRange(ret, RangeVal(Holding(rr.defs.clusters, rr.value, t, x), false))
    decreases k, 0, 2
  {
    hide Ready, IsRange, Holding, HeldIn, ClustersBelow;
    var clusters := rr.defs.clusters;
    HeldEnds(clusters, rr.value, t, x);
    ret := RangeNew(rr);
    var i := 0;
    while i < |clusters|
      invariant i <= |clusters| && fresh(ret.nodes.Repr)
      invariant IsRange(ret, RangeVal(HeldIn(clusters, i, rr.value, t, x), false))
    {
      HeldStep(clusters, i, rr.value, t, x);
      ClusterBelow(clusters, rr.rank, k, t, i);
      var found := SectionHolds(rr, k, clusters[i], t, x);
      if found {
        AddWithin(ret, clusters[i], HeldIn(clusters, i, rr.value, t, x), Holding(clusters, rr.value, t, x));
      }
      i := i + 1;
    }
  }

  /** rangefunc_has: the clusters with a section of one name that holds another. */
  method RangefuncHas(rr: Request, ghost k: nat, ranges: array<Option<Range>>,
                      ghost rs: seq<Range>, ghost vs: seq<RangeVal>) returns (r: Range)
    requires Ready(rr, k) && Terminated(ranges, rs) && Hold(rs, vs) && TakesFirst("has", vs)
    requires CallBelow(rr.defs, rr.value, rr.rank, k, "has", vs)
    requires Small(CallFunction(rr.defs, rr.value, "has", vs))
    modifies rr`r
    ensures fresh(r.nodes.Repr) && IsRange(r, CallFunction(rr.defs, rr.value, "has", vs))
    decreases k, 0, 3
  {
    hide Ready, Terminated, Hold, IsRange, CallFunction, CallBelow, Holding, Elements;
    var ok, tags, values := TwoArguments(ranges, rs, vs);
    if ok {
      Alone(tags);
      Alone(values);
      HasCall(rr.defs, rr.value, vs, tags[0], values[0]);
      HasBelow(rr.defs, rr.value, rr.rank, k, vs, tags[0]);
      r := ClustersWith(rr, k, tags[0], values[0]);
    } else {
      WrongCall(rr.defs, rr.value, "has", vs);
      r := RangeNew(rr);
    }
  }

  /** Whether mem or has is called with one name where it takes the first. */
  method FirstIsOnly(name: string, ranges: array<Option<Range>>, ghost rs: seq<Range>, ghost vs: seq<RangeVal>)
    returns (b: bool)
    requires Terminated(ranges, rs) && Hold(rs, vs)
    ensures b == TakesFirst(name, vs)
  {
    hide Terminated, Hold, IsRange;
    if name != "mem" && name != "has" {
      return false;
    }
    var ok, first, second := TwoArguments(ranges, rs, vs);
    b := !ok || (|first| == 1 && (name == "has" ==> |second| == 1));
  }

  /** _expand_cluster: looks up the text of a section and expands it. */
  method ExpandCluster(rr: Request, ghost k: nat, c: string, s: string) returns (r: Range)
    requires Ready(rr, k) && rr.rank(c, s) < k
    modifies rr`r
    ensures fresh(r.nodes.Repr) && IsRange(r, RangeVal(rr.value(c, s), false))
    decreases k, 0, 1
  {
    hide Ready, IsRange, SectionReady, Fits, ReadsBelow, Eval;
    SectionIsReady(rr, k, c, s);
    SectionParts(rr, k, c, s);
    var text := rr.defs.text(c, s);
    if text.None? {
      r := RangeNew(rr);
    } else {
      r := DoRangeExpand(rr, rr.rank(c, s), text);
    }
  }

  /** What a text stands for; a null text and a syntax error stand for nothing. */
  ghost function TextValue(rr: Request, text: Option<string>): RangeVal {
    match text
    case None => RangeVal({}, false)
    case Some(t) =>
      match rr.defs.parse(t)
      case None => RangeVal({}, false)
      case Some(d) => Eval(rr.Env(), Meaning(d))
  }

  ghost predicate TextReady(rr: Request, k: nat, text: Option<string>) {
    text.Some? && rr.defs.parse(text.value).Some? ==>
      var e := Meaning(rr.defs.parse(text.value).value);
      Fits(rr.Env(), e) && ReadsBelow(rr.defs, rr.value, rr.rank, k, e)
  }

  lemma SectionParts(rr: Request, k: nat, c: string, s: string)
    requires Ready(rr, k) && rr.rank(c, s) < k
    ensures TextReady(rr, rr.rank(c, s), rr.defs.text(c, s))
    ensures TextValue(rr, rr.defs.text(c, s)) == RangeVal(rr.value(c, s), false)
  {
    hide Fits, ReadsBelow, Eval, Ready;
    SectionIsReady(rr, k, c, s);
  }

  /** do_range_expand: when it returns, the request holds the range it returned, whatever nested
      expansions left there before. */
  method DoRangeExpand(rr: Request, ghost k: nat, text: Option<string>) returns (r: Range)
    requires Ready(rr, k) && TextReady(rr, k, text)
    modifies rr`r
    ensures rr.r == Some(r)
    ensures fresh(r.nodes.Repr) && IsRange(r, TextValue(rr, text))
    decreases k
  {
    hide Ready, IsRange, Fits, ReadsBelow, Eval, Meaning, Encodes, Size;
    var parsed := if text.None? then None else rr.defs.parse(text.value);
    if parsed.None? {
      r := RangeNew(rr);
    } else {
      var n, below := Build(parsed.value);
      TreeEncodes(n, Meaning(parsed.value), below);
      r := Evaluate(rr, k, n, Meaning(parsed.value), below);
    }
    rr.r := Some(r);
  }

  lemma TreeEncodes(n: AstNode, e: Expr, below: set<AstNode>)
    requires Tree(n, e, below)
    ensures Encodes(n, e, below)
  {
  }

  // range_evaluate, one method for each kind of node.

  /** The functions of other modules read their arguments and return a set of their own. */
  method OtherFunction(rr: Request, name: string, ranges: array<Option<Range>>, ghost rs: seq<Range>,
                       ghost vs: seq<RangeVal>) returns (r: Range)
    requires Terminated(ranges, rs) && Hold(rs, vs) && Small(rr.defs.plugins(name, vs))
    ensures fresh(r.nodes.Repr) && IsRange(r, rr.defs.plugins(name, vs))
  {
    hide Terminated, Hold, IsRange, Small;
    var args := ReadAll(ranges, rs, vs);
    r := Fill(rr, rr.defs.plugins(name, args));
  }

  lemma WhichCall(defs: Defs, value: Sections, name: string, args: seq<RangeVal>)
    ensures name == "allclusters" ==> CallFunction(defs, value, name, args) == RangeVal(Elements(defs.clusters), false)
    ensures name !in ONE_ARGUMENT && name != "allclusters" && !(name == "group" && args != []) && !TakesFirst(name, args) ==>
              CallFunction(defs, value, name, args) == defs.plugins(name, args)
    ensures name in ONE_ARGUMENT <==> name == "cluster" || name == "clusters" || name == "get_cluster" || name == "get_groups"
    ensures CallFits(name, CallFunction(defs, value, name, args)) ==> Small(CallFunction(defs, value, name, args))
  {
    hide TakesFirst, CallOnNames, CallOnPair, GroupUnion;
    assert ONE_ARGUMENT[0] == "cluster" && ONE_ARGUMENT[1] == "clusters" && ONE_ARGUMENT[2] == "get_cluster"
        && ONE_ARGUMENT[3] == "get_groups";
  }

  /** range_from_function: the functions of yamlfile.c, or those of other modules. */
  method FromFunction(rr: Request, ghost k: nat, name: string, ranges: array<Option<Range>>,
                      ghost rs: seq<Range>, ghost vs: seq<RangeVal>) returns (r: Range)
    requires Ready(rr, k) && Terminated(ranges, rs) && Hold(rs, vs)
    requires CallBelow(rr.defs, rr.value, rr.rank, k, name, vs)
    requires CallFits(name, CallFunction(rr.defs, rr.value, name, vs))
    modifies rr`r
    ensures fresh(r.nodes.Repr) && IsRange(r, CallFunction(rr.defs, rr.value, name, vs))
    decreases k, 0, 4
  {
    hide Ready, Terminated, Hold, IsRange, CallFunction, CallBelow, TakesFirst, ONE_ARGUMENT;
    TerminatedAt(ranges, rs, 0);
    HoldAt(rs, vs);
    WhichCall(rr.defs, rr.value, name, vs);
    assert forall j :: 0 <= j < |rs| ==> allocated(rs[j]) && allocated(rs[j].nodes);
    var takesFirst := FirstIsOnly(name, ranges, rs, vs);
    if name == "cluster" {
      r := RangefuncCluster(rr, k, ranges, rs, vs);
    } else if name == "group" && ranges[0].Some? {
      r := RangefuncGroup(rr, k, ranges, rs, vs);
    } else if name == "clusters" {
      r := RangefuncClusters(rr, k, ranges, rs, vs);
    } else if name == "get_cluster" {
      r := RangefuncGetCluster(rr, k, ranges, rs, vs);
    } else if name == "get_groups" {
      r := RangefuncGetGroups(rr, k, ranges, rs, vs);
    } else if name == "allclusters" {
      r := RangeOf(rr, rr.defs.clusters);
    } else if takesFirst && name == "mem" {
      r := RangefuncMem(rr, k, ranges, rs, vs);
    } else if takesFirst && name == "has" {
      r := RangefuncHas(rr, k, ranges, rs, vs);
    } else {
      OnlyMemAndHas(name, vs);
      r := OtherFunction(rr, name, ranges, rs, vs);
    }
  }

  lemma OnlyMemAndHas(name: string, args: seq<RangeVal>)
    ensures TakesFirst(name, args) ==> name == "mem" || name == "has"
  {
  }

  lemma HoldOne(r: Range, v: RangeVal)
    requires IsRange(r, v)
    ensures Hold([r], [v])
  {
    hide IsRange;
  }

  /** Calls a function with one argument, which is destroyed afterwards. */
  method CallOne(rr: Request, ghost k: nat, name: string, arg: Range, ghost v: RangeVal) returns (r: Range)
    requires Ready(rr, k) && IsRange(arg, v) && rr !in arg.nodes.Repr
    requires CallBelow(rr.defs, rr.value, rr.rank, k, name, [v])
    requires CallFits(name, CallFunction(rr.defs, rr.value, name, [v]))
    modifies rr`r, arg.nodes`live
    ensures fresh(r.nodes.Repr) && IsRange(r, CallFunction(rr.defs, rr.value, name, [v]))
    decreases k, 0, 5
  {
    hide Ready, CallBelow, CallFits, CallFunction, IsRange, Hold, HashSet.Valid, HashSet.View;
    RangeSize(arg, v);
    var ranges := new Option<Range>[2](_ => None);
    ranges[0] := Some(arg);
    HoldOne(arg, v);
    r := FromFunction(rr, k, name, ranges, [arg], [v]);
    RangeDestroy(arg);
  }

  lemma EverythingIs(rr: Request)
    ensures Everything(rr.Env()) == CallFunction(rr.defs, rr.value, "cluster", [EVERYTHING])
  {
    CallIs(rr.defs, rr.value, "cluster", [EVERYTHING]);
  }

  /** The value of cluster(all:CLUSTER). */
  method EverythingOf(rr: Request, ghost k: nat) returns (r: Range)
    requires Ready(rr, k) && CallBelow(rr.defs, rr.value, rr.rank, k, "cluster", [EVERYTHING]) && Modest(Everything(rr.Env()))
    modifies rr`r
    ensures fresh(r.nodes.Repr) && IsRange(r, Everything(rr.Env()))
    decreases k, 0, 6
  {
    hide Ready, CallBelow, Modest, CallFunction, IsRange;
    EverythingIs(rr);
    var all := FromLiteral(rr, "all:CLUSTER");
    RangeSize(all, EVERYTHING);
    r := CallOne(rr, k, "cluster", all, EVERYTHING);
  }

  method Evaluate(rr: Request, ghost k: nat, n: AstNode, ghost e: Expr, ghost below: set<AstNode>) returns (r: Range)
    requires Encodes(n, e, below) && Fits(rr.Env(), e)
    requires Ready(rr, k) && ReadsBelow(rr.defs, rr.value, rr.rank, k, e)
    modifies rr`r
    ensures fresh(r.nodes.Repr) && IsRange(r, Eval(rr.Env(), e))
    decreases k, Size(e), 2
  {
    hide Ready, IsRange, EncodesList, Everything;
    match n.kind
    case KLiteral(t) => r := FromLiteral(rr, t);
    case KNonRange(t) => r := FromNonRangeLiteral(rr, t);
    case KParts(p) => r := FromRangeparts(rr, p);
    case KNothing => r := RangeNew(rr);
    case KUnion => r := EvaluateUnion(rr, k, n, e, below);
    case KDiff => r := EvaluateDiff(rr, k, n, e, below);
    case KInter => r := EvaluateInter(rr, k, n, e, below);
    case KNot => r := EvaluateNot(rr, k, n, e, below);
    case KBraces => r := EvaluateBraces(rr, k, n, e, below);
    case KGroup => r := EvaluateGroup(rr, k, n, e, below);
    case KRegex(_) => r := EvaluateRegex(rr, k, n, e, below);
    case KFunction(name) => r := EvaluateFunction(rr, k, n, name, e, below);
  }

  method EvaluateRegex(rr: Request, ghost k: nat, n: AstNode, ghost e: Expr, ghost below: set<AstNode>)
    returns (r: Range)
    requires e.ERegex? && Encodes(n, e, below) && Fits(rr.Env(), e)
    requires Ready(rr, k) && ReadsBelow(rr.defs, rr.value, rr.rank, k, e)
    modifies rr`r
    ensures fresh(r.nodes.Repr) && IsRange(r, Eval(rr.Env(), e))
    decreases k, Size(e), 0
  {
    hide Ready, IsRange, EncodesList, Everything;
    var r1 := EverythingOf(rr, k);
    r := FromMatch(rr, r1, n.kind.text, Everything(rr.Env()));
    RangeSize(r1, Everything(rr.Env()));
    RangeDestroy(r1);
  }

  method EvaluateUnion(rr: Request, ghost k: nat, n: AstNode, ghost e: Expr, ghost below: set<AstNode>)
    returns (r: Range)
    requires e.EUnion? && Encodes(n, e, below) && Fits(rr.Env(), e)
    requires Ready(rr, k) && ReadsBelow(rr.defs, rr.value, rr.rank, k, e)
    modifies rr`r
    ensures fresh(r.nodes.Repr) && IsRange(r, Eval(rr.Env(), e))
    decreases k, Size(e), 0
  {
    hide Ready, IsRange, Encodes, EncodesList;
    TwoOperands(n, e, below);
    var r1 := Evaluate(rr, k, n.children, e.left, below);
    var r2 := Evaluate(rr, k, n.children.next, e.right, below);
    r := UnionOfBoth(r1, r2, Eval(rr.Env(), e.left), Eval(rr.Env(), e.right));
  }

  /** The right operand of a difference or intersection. */
  method EvaluateOperand(rr: Request, ghost k: nat, n: AstNode, left: Range, ghost v: RangeVal, ghost e: Expr,
                         ghost below: set<AstNode>)
    returns (r: Range)
    requires Encodes(n, e, below) && IsRange(left, v) && rr !in left.nodes.Repr
    requires Ready(rr, k) && (e.ERegex? || (Fits(rr.Env(), e) && ReadsBelow(rr.defs, rr.value, rr.rank, k, e)))
    modifies rr`r
    ensures fresh(r.nodes.Repr) && IsRange(r, Operand(rr.Env(), v, e))
    decreases k, Size(e), 3
  {
    hide Ready, IsRange, EncodesList;
    if n.kind.KRegex? {
      r := FromMatch(rr, left, n.kind.text, v);
    } else {
      r := Evaluate(rr, k, n, e, below);
    }
  }

  method EvaluateDiff(rr: Request, ghost k: nat, n: AstNode, ghost e: Expr, ghost below: set<AstNode>)
    returns (r: Range)
    requires e.EDiff? && Encodes(n, e, below) && Fits(rr.Env(), e)
    requires Ready(rr, k) && ReadsBelow(rr.defs, rr.value, rr.rank, k, e)
    modifies rr`r
    ensures fresh(r.nodes.Repr) && IsRange(r, Eval(rr.Env(), e))
    decreases k, Size(e), 0
  {
    hide Ready, IsRange, Encodes, EncodesList, Operand;
    TwoOperands(n, e, below);
    r := Evaluate(rr, k, n.children, e.left, below);
    var r2 := EvaluateOperand(rr, k, n.children.next, r, Eval(rr.Env(), e.left), e.right, below);
    DiffInplace(r, r2, Eval(rr.Env(), e.left), Operand(rr.Env(), Eval(rr.Env(), e.left), e.right));
  }

  method EvaluateInter(rr: Request, ghost k: nat, n: AstNode, ghost e: Expr, ghost below: set<AstNode>)
    returns (r: Range)
    requires e.EInter? && Encodes(n, e, below) && Fits(rr.Env(), e)
    requires Ready(rr, k) && ReadsBelow(rr.defs, rr.value, rr.rank, k, e)
    modifies rr`r
    ensures fresh(r.nodes.Repr) && IsRange(r, Eval(rr.Env(), e))
    decreases k, Size(e), 0
  {
    hide Ready, IsRange, Encodes, EncodesList, Operand;
    TwoOperands(n, e, below);
    var r1 := Evaluate(rr, k, n.children, e.left, below);
    var r2 := EvaluateOperand(rr, k, n.children.next, r1, Eval(rr.Env(), e.left), e.right, below);
    r := InterOfBoth(r1, r2, Eval(rr.Env(), e.left), Operand(rr.Env(), Eval(rr.Env(), e.left), e.right));
  }

  lemma NotParts(rr: Request, k: nat, e: Expr)
    requires e.ENot? && Fits(rr.Env(), e) && ReadsBelow(rr.defs, rr.value, rr.rank, k, e)
    ensures Kids(e) == [e.inner] && Fits(rr.Env(), e.inner) && ReadsBelow(rr.defs, rr.value, rr.rank, k, e.inner)
    ensures CallBelow(rr.defs, rr.value, rr.rank, k, "cluster", [EVERYTHING]) && Modest(Everything(rr.Env()))
    ensures Eval(rr.Env(), e)
         == RangeVal(Everything(rr.Env()).names - Eval(rr.Env(), e.inner).names, Everything(rr.Env()).quoted)
  {
    hide Everything, CallBelow;
  }

  method EvaluateNot(rr: Request, ghost k: nat, n: AstNode, ghost e: Expr, ghost below: set<AstNode>) returns (r: Range)
    requires e.ENot? && Encodes(n, e, below) && Fits(rr.Env(), e)
    requires Ready(rr, k) && ReadsBelow(rr.defs, rr.value, rr.rank, k, e)
    modifies rr`r
    ensures fresh(r.nodes.Repr) && IsRange(r, Eval(rr.Env(), e))
    decreases k, Size(e), 0
  {
    hide *;
    NotParts(rr, k, e);
    OneOperand(n, e, below);
    r := EverythingOf(rr, k);
    var r2 := Evaluate(rr, k, n.children, e.inner, below);
    RangeSize(r2, Eval(rr.Env(), e.inner));
    DiffInplace(r, r2, Everything(rr.Env()), Eval(rr.Env(), e.inner));
    RangeDestroy(r2);
  }

  method EvaluateGroup(rr: Request, ghost k: nat, n: AstNode, ghost e: Expr, ghost below: set<AstNode>)
    returns (r: Range)
    requires e.EGroup? && Encodes(n, e, below) && Fits(rr.Env(), e)
    requires Ready(rr, k) && ReadsBelow(rr.defs, rr.value, rr.rank, k, e)
    modifies rr`r
    ensures fresh(r.nodes.Repr) && IsRange(r, Eval(rr.Env(), e))
    decreases k, Size(e), 0
  {
    hide Ready, IsRange, Encodes, EncodesList;
    OneOperand(n, e, below);
    var r1 := Evaluate(rr, k, n.children, e.inner, below);
    RangeSize(r1, Eval(rr.Env(), e.inner));
    r := CallOne(rr, k, "group", r1, Eval(rr.Env(), e.inner));
  }

  lemma BracesParts(rr: Request, k: nat, e: Expr) returns (a: RangeVal, b: RangeVal, c: RangeVal)
    requires e.EBraces? && Fits(rr.Env(), e) && ReadsBelow(rr.defs, rr.value, rr.rank, k, e)
    ensures ReadsBelow(rr.defs, rr.value, rr.rank, k, e.left) && ReadsBelow(rr.defs, rr.value, rr.rank, k, e.center)
      && ReadsBelow(rr.defs, rr.value, rr.rank, k, e.right)
    ensures Kids(e) == [e.left, e.center, e.right]
    ensures Fits(rr.Env(), e.left) && Fits(rr.Env(), e.center) && Fits(rr.Env(), e.right)
    ensures a == Eval(rr.Env(), e.left) && b == Eval(rr.Env(), e.center) && c == Eval(rr.Env(), e.right)
    ensures |Bundles(a.names, b.names, c.names)| < BIG
    ensures Eval(rr.Env(), e) == RangeVal(Bundles(a.names, b.names, c.names), a.quoted || b.quoted || c.quoted)
  {
    hide Bundles;
    a, b, c := Eval(rr.Env(), e.left), Eval(rr.Env(), e.center), Eval(rr.Env(), e.right);
  }

  method DestroyThree(r1: Range, r2: Range, r3: Range)
    requires r1.nodes.live && r2.nodes.live && r3.nodes.live
    requires r1.nodes != r2.nodes && r1.nodes != r3.nodes && r2.nodes != r3.nodes
    modifies r1.nodes`live, r2.nodes`live, r3.nodes`live
  {
    RangeDestroy(r1);
    RangeDestroy(r2);
    RangeDestroy(r3);
  }

  method EvaluateBraces(rr: Request, ghost k: nat, n: AstNode, ghost e: Expr, ghost below: set<AstNode>)
    returns (r: Range)
    requires e.EBraces? && Encodes(n, e, below) && Fits(rr.Env(), e)
    requires Ready(rr, k) && ReadsBelow(rr.defs, rr.value, rr.rank, k, e)
    modifies rr`r
    ensures fresh(r.nodes.Repr) && IsRange(r, Eval(rr.Env(), e))
    decreases k, Size(e), 1
  {
    hide *;
    ghost var a, b, c := BracesParts(rr, k, e);
    var r1, r2, r3 := EvaluateThree(rr, k, n, e, below);
    r := FromBraces(rr, r1, r2, r3, a, b, c);
    RangeSize(r, Eval(rr.Env(), e));
    DestroyThree(r1, r2, r3);
  }

  /** The operands of braces, from left to right. */
  method EvaluateThree(rr: Request, ghost k: nat, n: AstNode, ghost e: Expr, ghost below: set<AstNode>)
    returns (r1: Range, r2: Range, r3: Range)
    requires e.EBraces? && Encodes(n, e, below) && Fits(rr.Env(), e)
    requires Ready(rr, k) && ReadsBelow(rr.defs, rr.value, rr.rank, k, e)
    modifies rr`r
    ensures fresh(r1.nodes) && fresh(r2.nodes) && fresh(r3.nodes)
    ensures r1.nodes != r2.nodes && r1.nodes != r3.nodes && r2.nodes != r3.nodes
    ensures r1.nodes.live && r2.nodes.live && r3.nodes.live
    ensures IsRange(r1, Eval(rr.Env(), e.left))
    ensures IsRange(r2, Eval(rr.Env(), e.center))
    ensures IsRange(r3, Eval(rr.Env(), e.right))
    decreases k, Size(e), 0
  {
    hide *;
    ghost var a, b, c := BracesParts(rr, k, e);
    ThreeOperands(n, e, below);
    r1 := Evaluate(rr, k, n.children, e.left, below);
    RangeSize(r1, a);
    r2 := Evaluate(rr, k, n.children.next, e.center, below);
    RangeSize(r2, b);
    r3 := Evaluate(rr, k, n.children.next.next, e.right, below);
    RangeSize(r3, c);
  }

  /** How many arguments a call has. */
  method CountChildren(n: AstNode, ghost es: seq<Expr>, ghost below: set<AstNode>) returns (i: nat)
    requires EncodesList(n.children, es, below)
    ensures i == |es|
  {
    hide Encodes;
    i := 0;
    var rtmp := n.children;
    assert es[0..] == es;
    while rtmp != null
      invariant i <= |es| && EncodesList(rtmp, es[i..], below)
      decreases |es| - i
    {
      assert es[i..][1..] == es[i + 1..];
      rtmp := rtmp.next;
      i := i + 1;
    }
  }

  lemma {:induction false} EvalAllAt(env: Env, args: seq<Expr>, i: nat)
    requires i < |args|
    ensures EvalAll(env, args)[i] == Eval(env, args[i])
  {
    if i > 0 {
      EvalAllAt(env, args[1..], i - 1);
    }
  }

  method EvaluateFunction(rr: Request, ghost k: nat, n: AstNode, name: string, ghost e: Expr, ghost below: set<AstNode>)
    returns (r: Range)
    requires e.EFunction? && e.name == name && Encodes(n, e, below) && Fits(rr.Env(), e)
    requires Ready(rr, k) && ReadsBelow(rr.defs, rr.value, rr.rank, k, e)
    modifies rr`r
    ensures fresh(r.nodes.Repr) && IsRange(r, Eval(rr.Env(), e))
    decreases k, Size(e), 0
  {
    hide Ready, IsRange, Encodes, EncodesList;
    ChildList(n, e, below);
    var count := CountChildren(n, e.args, below);
    var ranges, rs := EvaluateArguments(rr, k, n, count, e.args, below);
    r := FromFunction(rr, k, name, ranges, rs, EvalAll(rr.Env(), e.args));
    LiveAndApart(rs, EvalAll(rr.Env(), e.args));
    DestroyAll(ranges, rs);
  }

  lemma LiveAndApart(rs: seq<Range>, vs: seq<RangeVal>)
    requires Hold(rs, vs)
    ensures forall i :: 0 <= i < |rs| ==> rs[i].nodes.live && rs[i].nodes in rs[i].nodes.Repr
    ensures forall i, j :: 0 <= i < j < |rs| ==> rs[i].nodes != rs[j].nodes
  {
    hide IsRange;
    forall i | 0 <= i < |rs| ensures rs[i].nodes.live && rs[i].nodes in rs[i].nodes.Repr {
      RangeSize(rs[i], vs[i]);
    }
  }

  ghost predicate ArgsReady(rr: Request, k: nat, args: seq<Expr>) {
    forall a :: a in args ==> Fits(rr.Env(), a) && ReadsBelow(rr.defs, rr.value, rr.rank, k, a)
  }

  lemma ArgReady(rr: Request, k: nat, args: seq<Expr>, i: nat)
    requires ArgsReady(rr, k, args) && i < |args|
    ensures Fits(rr.Env(), args[i]) && ReadsBelow(rr.defs, rr.value, rr.rank, k, args[i])
  {
  }

  /** The arguments, evaluated in order into a null-terminated array. */
  method EvaluateArguments(rr: Request, ghost k: nat, n: AstNode, count: nat, ghost args: seq<Expr>,
                           ghost below: set<AstNode>)
    returns (ranges: array<Option<Range>>, ghost rs: seq<Range>)
    requires EncodesList(n.children, args, below) && count == |args|
    requires Ready(rr, k) && ArgsReady(rr, k, args)
    modifies rr`r
    ensures fresh(ranges) && Terminated(ranges, rs)
    ensures Hold(rs, EvalAll(rr.Env(), args))
    ensures forall i :: 0 <= i < |rs| ==> fresh(rs[i].nodes.Repr) && ranges !in rs[i].nodes.Repr
    decreases k, SizeAll(args), 3
  {
    hide *;
    ranges := new Option<Range>[count + 1](_ => None);
    rs := [];
    var i := 0;
    var rtmp := n.children;
    assert args[0..] == args;
    while rtmp != null
      invariant i == |rs| <= |args| && EncodesList(rtmp, args[i..], below)
      invariant SizeAll(args[i..]) <= SizeAll(args)
      invariant forall k :: 0 <= k < i ==> ranges[k] == Some(rs[k])
      invariant forall k :: i <= k <= count ==> ranges[k] == None
      invariant forall k :: 0 <= k < i ==> fresh(rs[k].nodes.Repr) && ranges !in rs[k].nodes.Repr
      invariant forall k :: 0 <= k < i ==> IsRange(rs[k], Eval(rr.Env(), args[k]))
      invariant forall j, k :: 0 <= j < k < i ==> rs[j].nodes.Repr !! rs[k].nodes.Repr
      decreases |args| - i
    {
      ListEnds(rtmp, args[i..], below);
      FirstSibling(rtmp, args[i..], below);
      assert args[i..][0] == args[i] && args[i..][1..] == args[i + 1..];
      ArgReady(rr, k, args, i);
      var r := Evaluate(rr, k, rtmp, args[i], below);
      ranges[i] := Some(r);
      rs := rs + [r];
      rtmp := rtmp.next;
      i := i + 1;
    }
    ListEnds(rtmp, args[i..], below);
    AllEvaluated(rr.Env(), args, rs);
    AllStored(ranges, rs);
  }

  lemma AllStored(ranges: array<Option<Range>>, rs: seq<Range>)
    requires ranges.Length == |rs| + 1 && ranges[|rs|] == None
    requires forall i :: 0 <= i < |rs| ==> ranges[i] == Some(rs[i])
    ensures Terminated(ranges, rs)
  {
  }

  lemma AllEvaluated(env: Env, args: seq<Expr>, rs: seq<Range>)
    requires |rs| == |args| && forall i :: 0 <= i < |rs| ==> IsRange(rs[i], Eval(env, args[i]))
    requires forall i, j :: 0 <= i < j < |rs| ==> rs[i].nodes.Repr !! rs[j].nodes.Repr
    ensures Hold(rs, EvalAll(env, args))
  {
    hide Ready, IsRange, Eval;
    forall i | 0 <= i < |rs| ensures EvalAll(env, args)[i] == Eval(env, args[i]) {
      EvalAllAt(env, args, i);
    }
  }

  // A whole request.

  /** The sections of rank below k fit and are unquoted. */
  ghost predicate SectionsFit(defs: Defs, value: Sections, rank: Rank, k: nat) {
    forall c, s :: rank(c, s) < k && SectionExpr(defs, c, s).Some? ==>
      var e := SectionExpr(defs, c, s).value;
      Fits(EnvOf(defs, value), e) && !Eval(EnvOf(defs, value), e).quoted
  }

  /** Where the system is stratified and the sections fit, a request with the values that expansion
      computes is ready. */
  lemma StratifiedIsReady(rr: Request, k: nat)
    requires StratifiedBelow(rr.defs, rr.rank, k) && rr.value == Solution(rr.defs, rr.rank)
    requires SectionsFit(rr.defs, rr.value, rr.rank, k)
    ensures Ready(rr, k)
  {
    hide StratifiedBelow, SolvesBelow, Fits, Eval, ReadsBelow, SectionExpr, Solution;
    UniqueSolution(rr.defs, rr.rank, k);
  }

  /** range_expand: a new request ends up holding the value of the text, each section that can be
      reached meaning the unique solution of the section equations. Sections of higher rank may
      refer to each other in circles. */
  method RangeExpand(hash: string -> nat, defs: Defs, ghost rank: Rank, ghost k: nat, text: Option<string>)
    returns (rr: Request)
    requires StratifiedBelow(defs, rank, k) && SectionsFit(defs, Solution(defs, rank), rank, k)
    requires text.Some? && defs.parse(text.value).Some? ==>
               var e := Meaning(defs.parse(text.value).value);
               && Fits(EnvOf(defs, Solution(defs, rank)), e)
               && ReadsBelow(defs, Solution(defs, rank), rank, k, e)
    ensures fresh(rr) && rr.defs == defs && rr.value == Solution(defs, rank)
    ensures rr.r.Some? && IsRange(rr.r.value, TextValue(rr, text))
  {
    hide StratifiedBelow, SectionsFit, Fits, Eval, ReadsBelow, Solution, IsRange, TextValue;
    rr := new Request(hash, defs, Solution(defs, rank), rank);
    StratifiedIsReady(rr, k);
    var r := DoRangeExpand(rr, k, text);
  }
}
