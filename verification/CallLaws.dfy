/** What the cluster functions return, stated on the sections of the clusters: their values, and
    the names that KEYS lists (the rangefunc functions in yamlfile.c). */
module CallLaws {
  import opened Text
  import opened Semantics
  import opened ClusterIndex
  import opened ClusterSemantics

  /** %c is the CLUSTER section of c, and %c:s its section s. */
  lemma ClusterOfName(defs: Defs, value: Sections, c: string, s: string)
    requires ':' !in c
    ensures CallFunction(defs, value, "cluster", [RangeVal({c}, false)]) == RangeVal(value(c, "CLUSTER"), false)
    ensures CallFunction(defs, value, "cluster", [RangeVal({c + ":" + s}, false)]) == RangeVal(value(c, s), false)
  {
    hide CallFunction, SplitName;
    ClusterOfOne(defs, value, c);
    CallIs(defs, value, "cluster", [RangeVal({c}, false)]);
    BareName(c);
    ClusterOfOne(defs, value, c + ":" + s);
    CallIs(defs, value, "cluster", [RangeVal({c + ":" + s}, false)]);
    SplitJoined(c, s);
  }

  lemma BareName(c: string)
    requires ':' !in c
    ensures SplitName(c) == (c, "CLUSTER")
  {
  }

  /** Of several names it is what each name gives. */
  lemma ClusterOfNames(defs: Defs, value: Sections, names: set<string>, x: string)
    ensures x in CallFunction(defs, value, "cluster", [RangeVal(names, false)]).names <==>
              exists h :: h in names && x in CallFunction(defs, value, "cluster", [RangeVal({h}, false)]).names
  {
    hide CallFunction, SplitName;
    forall h | h in names
      ensures CallFunction(defs, value, "cluster", [RangeVal({h}, false)]).names == ValueOf(value, h)
    {
      ClusterOfOne(defs, value, h);
      CallIs(defs, value, "cluster", [RangeVal({h}, false)]);
    }
    ClusterCall(defs, value, names);
  }

  lemma ClusterCall(defs: Defs, value: Sections, names: set<string>)
    ensures CallFunction(defs, value, "cluster", [RangeVal(names, false)]) == RangeVal(ClusterUnion(value, names), false)
  {
    hide ClusterUnion;
    assert ONE_ARGUMENT[0] == "cluster";
  }

  /** @g is the section g of the cluster GROUPS; of several names it is what each gives. */
  lemma GroupOfNames(defs: Defs, value: Sections, g: string, names: set<string>, x: string)
    ensures CallFunction(defs, value, "group", [RangeVal({g}, false)]) == RangeVal(value("GROUPS", g), false)
    ensures x in CallFunction(defs, value, "group", [RangeVal(names, false)]).names <==>
              exists h :: h in names && x in value("GROUPS", h)
  {
    assert GroupUnion(value, {g}) == value("GROUPS", g);
  }

  /** clusters: every cluster whose CLUSTER section holds one of the names. */
  lemma ClustersOfNames(defs: Defs, value: Sections, names: set<string>, c: string)
    ensures c in CallFunction(defs, value, "clusters", [RangeVal(names, false)]).names <==>
              c in defs.clusters && exists n :: n in names && n in value(c, "CLUSTER")
  {
    hide CallFunction;
    ClustersCall(defs, value, [RangeVal(names, false)]);
  }

  lemma FirstOf(clusters: seq<string>, value: Sections, n: string, c: string)
    ensures FirstHolder(clusters, ByCluster(value), n) == Some(c) <==>
              exists k :: 0 <= k < |clusters| && clusters[k] == c && n in value(c, "CLUSTER")
                          && forall j :: 0 <= j < k ==> n !in value(clusters[j], "CLUSTER")
  {
    hide FirstHolder, FirstAt;
    var i := FirstIsFirst(clusters, ByCluster(value), n);
    forall k | 0 <= k < |clusters|
      ensures FirstAt(clusters, ByCluster(value), n, k, clusters[k]) <==>
                n in value(clusters[k], "CLUSTER") && forall j :: 0 <= j < k ==> n !in value(clusters[j], "CLUSTER")
      ensures FirstAt(clusters, ByCluster(value), n, k, clusters[k]) ==>
                FirstHolder(clusters, ByCluster(value), n) == Some(clusters[k])
    {
      FirstMeans(clusters, value, n, k);
      if FirstAt(clusters, ByCluster(value), n, k, clusters[k]) {
        FirstIsHolder(clusters, ByCluster(value), n, k, clusters[k]);
      }
    }
    if FirstHolder(clusters, ByCluster(value), n).Some? {
      AtItsPlace(clusters, ByCluster(value), n, i, FirstHolder(clusters, ByCluster(value), n).value);
    }
  }

  lemma FirstMeans(clusters: seq<string>, value: Sections, n: string, k: nat)
    requires k < |clusters|
    ensures FirstAt(clusters, ByCluster(value), n, k, clusters[k]) <==>
              n in value(clusters[k], "CLUSTER") && forall j :: 0 <= j < k ==> n !in value(clusters[j], "CLUSTER")
  {
  }

  lemma AtItsPlace(clusters: seq<string>, expand: Expansions, n: string, k: nat, c: string)
    requires FirstAt(clusters, expand, n, k, c)
    ensures k < |clusters| && clusters[k] == c
  {
  }

  lemma FirstIsHolder(clusters: seq<string>, expand: Expansions, n: string, k: nat, c: string)
    requires FirstAt(clusters, expand, n, k, c)
    ensures FirstHolder(clusters, expand, n) == Some(c)
  {
    hide FirstHolder;
    var i := FirstIsFirst(clusters, expand, n);
    assert clusters[k] in clusters;
  }

  /** *n: of each name the first cluster whose CLUSTER section holds it. */
  lemma FirstClusterOfNames(defs: Defs, value: Sections, names: set<string>, c: string)
    ensures c in CallFunction(defs, value, "get_cluster", [RangeVal(names, false)]).names <==>
              exists n, k :: n in names && 0 <= k < |defs.clusters| && defs.clusters[k] == c && n in value(c, "CLUSTER")
                              && forall j :: 0 <= j < k ==> n !in value(defs.clusters[j], "CLUSTER")
  {
    hide CallFunction, FirstHolder;
    GetClusterCall(defs, value, [RangeVal(names, false)]);
    forall n {
      FirstOf(defs.clusters, value, n, c);
    }
  }

  /** ?n: the sections of GROUPS, as its KEYS list them, that hold one of the names. */
  lemma GroupsOfNames(defs: Defs, value: Sections, names: set<string>, g: string)
    ensures g in CallFunction(defs, value, "get_groups", [RangeVal(names, false)]).names <==>
              g in value("GROUPS", "KEYS") && exists n :: n in names && n in value("GROUPS", g)
  {
    hide CallFunction;
    GetGroupsCall(defs, value, [RangeVal(names, false)]);
  }

  /** mem(c; names): the sections of c, as its KEYS list them, that hold one of the names. */
  lemma SectionsOfNames(defs: Defs, value: Sections, c: string, names: set<string>, s: string)
    ensures s in CallFunction(defs, value, "mem", [RangeVal({c}, false), RangeVal(names, false)]).names <==>
              s in value(c, "KEYS") && exists n :: n in names && n in value(c, s)
  {
    hide CallFunction;
    MemCall(defs, value, [RangeVal({c}, false), RangeVal(names, false)], c);
  }

  /** has(s; x): the clusters whose section s holds x. */
  lemma ClustersWithValue(defs: Defs, value: Sections, s: string, x: string, c: string)
    ensures c in CallFunction(defs, value, "has", [RangeVal({s}, false), RangeVal({x}, false)]).names <==>
              c in defs.clusters && x in value(c, s)
  {
    hide CallFunction;
    HasCall(defs, value, [RangeVal({s}, false), RangeVal({x}, false)], s, x);
  }

  /** allclusters lists the clusters; the wrong number of arguments gives nothing. */
  lemma OtherCalls(defs: Defs, value: Sections, args: seq<RangeVal>)
    ensures CallFunction(defs, value, "allclusters", args) == RangeVal(set c | c in defs.clusters, false)
    ensures |args| != 1 ==>
              && CallFunction(defs, value, "cluster", args) == RangeVal({}, false)
              && CallFunction(defs, value, "clusters", args) == RangeVal({}, false)
              && CallFunction(defs, value, "get_cluster", args) == RangeVal({}, false)
              && CallFunction(defs, value, "get_groups", args) == RangeVal({}, false)
    ensures |args| != 2 ==>
              && CallFunction(defs, value, "mem", args) == RangeVal({}, false)
              && CallFunction(defs, value, "has", args) == RangeVal({}, false)
  {
    assert ONE_ARGUMENT[0] == "cluster" && ONE_ARGUMENT[1] == "clusters";
    assert ONE_ARGUMENT[2] == "get_cluster" && ONE_ARGUMENT[3] == "get_groups";
  }

  /** The value of a section is what its text evaluates to; there is none without a text, or
      with one that does not parse. */
  lemma ValueOfText(defs: Defs, value: Sections, c: string, s: string)
    ensures defs.text(c, s).None? ==> SectionValue(defs, value, c, s) == {}
    ensures defs.text(c, s).Some? && defs.parse(defs.text(c, s).value).None? ==> SectionValue(defs, value, c, s) == {}
    ensures defs.text(c, s).Some? && defs.parse(defs.text(c, s).value).Some? ==>
              SectionValue(defs, value, c, s)
                == Eval(Env((name, args) => CallFunction(defs, value, name, args), defs.matches),
                        Grammar.Meaning(defs.parse(defs.text(c, s).value).value)).names
  {
    hide Eval;
  }

  lemma HostnamesOfQuoted(names: set<string>)
    ensures Hostnames(RangeVal(names, true)) == Hostnames(RangeVal(set n | n in names :: "\"" + n + "\"", false))
  {
    assert forall n :: Quote(n) == "\"" + n + "\"";
  }

  /** A quoted argument counts as its names in quotes. */
  lemma QuotedArgument(defs: Defs, value: Sections, name: string, names: set<string>)
    requires name in ["cluster", "group", "clusters", "get_cluster", "get_groups"]
    ensures CallFunction(defs, value, name, [RangeVal(names, true)])
         == CallFunction(defs, value, name, [RangeVal(set n | n in names :: "\"" + n + "\"", false)])
  {
    hide Hostnames;
    HostnamesOfQuoted(names);
    if name != "group" {
      assert ONE_ARGUMENT[0] == "cluster" && ONE_ARGUMENT[1] == "clusters";
      assert ONE_ARGUMENT[2] == "get_cluster" && ONE_ARGUMENT[3] == "get_groups";
    }
  }
}
