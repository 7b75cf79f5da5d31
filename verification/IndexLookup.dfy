/** The loops that turn an inverted index, or the sections of a cluster, into a range
    (rangefunc_clusters, rangefunc_get_cluster, rangefunc_get_groups, rangefunc_mem and
    rangefunc_allclusters in yamlfile.c). */
module IndexLookup {
  import opened Text
  import opened Semantics
  import opened ClusterIndex
  import opened HashSets
  import opened Ranges

  /** Adds all strings of a list. */
  method AddEach(ret: Range, xs: seq<string>, ghost got: set<string>)
    requires IsRange(ret, RangeVal(got, false)) && |got + Elements(xs)| < BIG
    modifies ret.nodes.Repr
    ensures fresh(ret.nodes.Repr - old(ret.nodes.Repr))
    ensures IsRange(ret, RangeVal(got + Elements(xs), false))
  {
    hide IsRange, Elements;
    NoneYet(xs);
    ghost var have := got;
    for i := 0 to |xs|
      invariant have == got + Elements(xs[..i])
      invariant fresh(ret.nodes.Repr - old(ret.nodes.Repr)) && IsRange(ret, RangeVal(have, false))
    {
      MorePrefix(xs, i);
      PrefixSubset(xs, i);
      SubsetSize(have, got + Elements(xs));
      RangeAdd(ret, xs[i], RangeVal(have, false));
      have := have + {xs[i]};
    }
    assert xs[..|xs|] == xs;
  }

  /** One string more, within a set that is not too large. */
  method AddWithin(ret: Range, x: string, ghost got: set<string>, ghost all: set<string>)
    requires IsRange(ret, RangeVal(got, false)) && got <= all && |all| < BIG
    modifies ret.nodes.Repr
    ensures fresh(ret.nodes.Repr - old(ret.nodes.Repr))
    ensures IsRange(ret, RangeVal(got + {x}, false))
  {
    hide IsRange;
    SubsetSize(got, all);
    RangeAdd(ret, x, RangeVal(got, false));
  }

  lemma PrefixSubset(xs: seq<string>, i: nat)
    requires i <= |xs|
    ensures Elements(xs[..i]) <= Elements(xs)
  {
  }

  /** rangefunc_allclusters */
  method RangeOf(rr: Request, xs: seq<string>) returns (ret: Range)
    requires |Elements(xs)| < BIG
    ensures fresh(ret.nodes.Repr) && IsRange(ret, RangeVal(Elements(xs), false))
  {
    hide IsRange, Elements;
    ret := RangeNew(rr);
    assert {} + Elements(xs) == Elements(xs);
    AddEach(ret, xs, {});
  }

  /** Every cluster that the index lists for one of the nodes. */
  method CollectAll(rr: Request, index: map<string, seq<string>>, nodes: seq<string>,
                    ghost clusters: seq<string>, ghost expand: Expansions) returns (ret: Range)
    requires Indexes(index, clusters, expand)
    requires |Meeting(Elements(clusters), expand, Elements(nodes))| < BIG
    ensures fresh(ret.nodes.Repr)
    ensures IsRange(ret, RangeVal(Meeting(Elements(clusters), expand, Elements(nodes)), false))
  {
    hide IsRange, Elements, Indexes, Meeting, Holders;
    NoneYet(nodes);
    MeetingNone(Elements(clusters), expand);
    ret := RangeNew(rr);
    ghost var all, got: set<string> := Meeting(Elements(clusters), expand, Elements(nodes)), {};
    var i := 0;
    while i < |nodes|
      invariant i <= |nodes| && got == Meeting(Elements(clusters), expand, Elements(nodes[..i]))
      invariant fresh(ret.nodes.Repr) && IsRange(ret, RangeVal(got, false))
    {
      MorePrefix(nodes, i);
      PrefixSubset(nodes, i + 1);
      MeetingStep(clusters, expand, Elements(nodes[..i]), nodes[i]);
      MeetingGrows(Elements(clusters), Elements(clusters), expand, Elements(nodes[..i + 1]), Elements(nodes));
      IndexAt(index, clusters, expand, nodes[i]);
      if nodes[i] in index {
        SubsetSize(got + Elements(index[nodes[i]]), all);
        AddEach(ret, index[nodes[i]], got);
        got := got + Elements(index[nodes[i]]);
      }
      i := i + 1;
    }
    assert nodes[..i] == nodes;
  }

  lemma IndexAt(index: map<string, seq<string>>, clusters: seq<string>, expand: Expansions, n: string)
    requires Indexes(index, clusters, expand)
    ensures n in index ==> index[n] == Holders(clusters, expand, n) && index[n] != []
    ensures n !in index ==> Holders(clusters, expand, n) == []
    ensures Elements<string>([]) == {}
  {
  }

  /** The first cluster that the index lists for each of the nodes. */
  method CollectFirst(rr: Request, index: map<string, seq<string>>, nodes: seq<string>,
                      ghost clusters: seq<string>, ghost expand: Expansions) returns (ret: Range)
    requires Indexes(index, clusters, expand)
    requires |FirstHolders(clusters, expand, Elements(nodes))| < BIG
    ensures fresh(ret.nodes.Repr)
    ensures IsRange(ret, RangeVal(FirstHolders(clusters, expand, Elements(nodes)), false))
  {
    hide IsRange, Elements, Indexes, FirstHolders, Holders;
    NoneYet(nodes);
    FirstHoldersGrow(clusters, expand, {}, Elements(nodes));
    ret := RangeNew(rr);
    ghost var all, got: set<string> := FirstHolders(clusters, expand, Elements(nodes)), {};
    var i := 0;
    while i < |nodes|
      invariant i <= |nodes| && got == FirstHolders(clusters, expand, Elements(nodes[..i]))
      invariant fresh(ret.nodes.Repr) && IsRange(ret, RangeVal(got, false))
    {
      MorePrefix(nodes, i);
      PrefixSubset(nodes, i);
      FirstHoldersStep(clusters, expand, Elements(nodes[..i]), nodes[i]);
      FirstHoldersGrow(clusters, expand, Elements(nodes[..i]), Elements(nodes));
      IndexAt(index, clusters, expand, nodes[i]);
      if nodes[i] in index {
        SubsetSize(got, all);
        RangeAdd(ret, index[nodes[i]][0], RangeVal(got, false));
        got := got + {index[nodes[i]][0]};
      }
      i := i + 1;
    }
    assert nodes[..i] == nodes;
  }

  /** The inner loop of rangefunc_mem: does the section hold a wanted name? */
  method FindWanted(r: Range, wanted: seq<string>, ghost expand: Expansions, ghost s: string) returns (found: bool)
    requires IsRange(r, RangeVal(expand(s), false))
    ensures found <==> Meets(expand, s, Elements(wanted))
  {
    hide IsRange, HashSet.Valid, HashSet.View;
    RangeSize(r, RangeVal(expand(s), false));
    var j := 0;
    while j < |wanted|
      invariant j <= |wanted| && forall i :: 0 <= i < j ==> wanted[i] !in expand(s)
    {
      var e := r.nodes.Get(wanted[j]);
      if e != null {
        assert wanted[j] in Elements(wanted);
        return true;
      }
      j := j + 1;
    }
    found := false;
  }
}
