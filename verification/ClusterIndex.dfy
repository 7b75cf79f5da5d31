/** Which clusters a node is in: the inverted index (_get_clusters, and the same loops in
    rangefunc_get_groups of yamlfile.c) and what is read from it. */
module ClusterIndex {
  import opened Text

  /** The names that a section expands to. */
  type Expansions = string -> set<string>

  /** The clusters of the list that hold the node, in order. */
  function Holders(clusters: seq<string>, expand: Expansions, node: string): seq<string> {
    if clusters == [] then []
    else
      var n := |clusters| - 1;
      Holders(clusters[..n], expand, node) + if node in expand(clusters[n]) then [clusters[n]] else []
  }

  lemma {:induction false} HoldersAre(clusters: seq<string>, expand: Expansions, node: string)
    ensures forall c :: c in Holders(clusters, expand, node) <==> c in clusters && node in expand(c)
  {
    if clusters != [] {
      var n := |clusters| - 1;
      HoldersAre(clusters[..n], expand, node);
      assert clusters == clusters[..n] + [clusters[n]];
    }
  }

  lemma HoldersStep(clusters: seq<string>, expand: Expansions, i: nat, node: string)
    requires i < |clusters|
    ensures Holders(clusters[..i + 1], expand, node)
         == Holders(clusters[..i], expand, node) + if node in expand(clusters[i]) then [clusters[i]] else []
  {
    assert clusters[..i + 1][..i] == clusters[..i];
  }

  /** The index: nodes in no cluster have no entry, the others list the clusters that hold them. */
  ghost predicate Indexes(index: map<string, seq<string>>, clusters: seq<string>, expand: Expansions) {
    && (forall n :: n in index ==> index[n] == Holders(clusters, expand, n) && index[n] != [])
    && (forall n :: n !in index ==> Holders(clusters, expand, n) == [])
  }

  /** While the names of cluster c are added: those of done have it, the others not yet. */
  ghost predicate Indexing(index: map<string, seq<string>>, clusters: seq<string>, expand: Expansions, c: string,
                           done: seq<string>) {
    && (forall n :: n in index ==>
          index[n] == Holders(clusters, expand, n) + (if n in done then [c] else []) && index[n] != [])
    && (forall n :: n !in index ==> n !in done && Holders(clusters, expand, n) == [])
  }

  lemma IndexingStep(index: map<string, seq<string>>, clusters: seq<string>, expand: Expansions, c: string,
                     done: seq<string>, n: string)
    requires Indexing(index, clusters, expand, c, done) && n !in done
    ensures Indexing(index[n := (if n in index then index[n] else []) + [c]], clusters, expand, c, done + [n])
  {
    hide Holders;
  }

  /** The inner loop of _get_clusters: c is appended to the list of each of its nodes. */
  method AddCluster(index: map<string, seq<string>>, c: string, nodes: seq<string>, ghost clusters: seq<string>,
                    ghost expand: Expansions)
    returns (index': map<string, seq<string>>)
    requires Distinct(nodes) && Indexes(index, clusters, expand)
    ensures Indexing(index', clusters, expand, c, nodes)
  {
    hide Holders;
    index' := index;
    var i := 0;
    while i < |nodes|
      invariant i <= |nodes| && Indexing(index', clusters, expand, c, nodes[..i])
    {
      IndexingStep(index', clusters, expand, c, nodes[..i], nodes[i]);
      assert nodes[..i + 1] == nodes[..i] + [nodes[i]];
      var listed := if nodes[i] in index' then index'[nodes[i]] else [];
      index' := index'[nodes[i] := listed + [c]];
      i := i + 1;
    }
    assert nodes[..i] == nodes;
  }

  lemma NothingIndexed(clusters: seq<string>, expand: Expansions)
    ensures Indexes(map[], clusters[..0], expand)
  {
  }

  /** Once all nodes of cluster i are added, the index stands for one cluster more. */
  lemma OneMoreIndexed(index: map<string, seq<string>>, clusters: seq<string>, expand: Expansions, i: nat,
                       nodes: seq<string>)
    requires i < |clusters| && Elements(nodes) == expand(clusters[i])
    requires Indexing(index, clusters[..i], expand, clusters[i], nodes)
    ensures Indexes(index, clusters[..i + 1], expand)
  {
    hide Holders;
    forall n
      ensures Holders(clusters[..i + 1], expand, n)
           == Holders(clusters[..i], expand, n) + if n in nodes then [clusters[i]] else []
    {
      HoldersStep(clusters, expand, i, n);
      assert n in nodes <==> n in Elements(nodes);
    }
  }

  /** Some of the names is in the expansion of c. */
  predicate Meets(expand: Expansions, c: string, names: set<string>) {
    exists n :: n in names && n in expand(c)
  }

  /** The listed clusters or sections that meet the names. */
  function Meeting(listed: set<string>, expand: Expansions, names: set<string>): set<string> {
    set c | c in listed && Meets(expand, c, names)
  }

  /** With one name more, those that hold it are added: what the index lists for it. */
  lemma MeetingStep(clusters: seq<string>, expand: Expansions, done: set<string>, n: string)
    ensures Meeting(Elements(clusters), expand, done + {n})
         == Meeting(Elements(clusters), expand, done) + Elements(Holders(clusters, expand, n))
  {
    hide Holders;
    HoldersAre(clusters, expand, n);
    forall c ensures Meets(expand, c, done + {n}) <==> Meets(expand, c, done) || n in expand(c) {
      assert n in done + {n};
    }
  }

  lemma MeetingNone(listed: set<string>, expand: Expansions)
    ensures Meeting(listed, expand, {}) == {}
  {
  }

  /** The first cluster of the list that holds the node. */
  function FirstHolder(clusters: seq<string>, expand: Expansions, node: string): Option<string> {
    var held := Holders(clusters, expand, node);
    if held == [] then None else Some(held[0])
  }

  /** c stands at position k, and no cluster before it holds the node. */
  predicate FirstAt(clusters: seq<string>, expand: Expansions, node: string, k: nat, c: string) {
    && k < |clusters| && clusters[k] == c && node in expand(c)
    && forall j :: 0 <= j < k ==> node !in expand(clusters[j])
  }

  /** The first holder stands before all others. */
  lemma {:induction false} FirstIsFirst(clusters: seq<string>, expand: Expansions, node: string) returns (k: nat)
    ensures FirstHolder(clusters, expand, node).None? ==> forall c :: c in clusters ==> node !in expand(c)
    ensures FirstHolder(clusters, expand, node).Some? ==>
              FirstAt(clusters, expand, node, k, FirstHolder(clusters, expand, node).value)
  {
    hide FirstAt;
    HoldersAre(clusters, expand, node);
    k := 0;
    if clusters != [] {
      var n := |clusters| - 1;
      k := FirstIsFirst(clusters[..n], expand, node);
      if FirstHolder(clusters[..n], expand, node).Some? {
        FirstStays(clusters, expand, node, k, FirstHolder(clusters[..n], expand, node).value);
      } else if node in expand(clusters[n]) {
        k := n;
        LastIsFirst(clusters, expand, node);
      }
    }
  }

  lemma FirstStays(clusters: seq<string>, expand: Expansions, node: string, k: nat, c: string)
    requires clusters != [] && FirstAt(clusters[..|clusters| - 1], expand, node, k, c)
    ensures FirstAt(clusters, expand, node, k, c)
  {
  }

  lemma LastIsFirst(clusters: seq<string>, expand: Expansions, node: string)
    requires clusters != [] && node in expand(clusters[|clusters| - 1])
    requires forall c :: c in clusters[..|clusters| - 1] ==> node !in expand(c)
    ensures FirstAt(clusters, expand, node, |clusters| - 1, clusters[|clusters| - 1])
  {
    var n := |clusters| - 1;
    assert forall j :: 0 <= j < n ==> clusters[j] in clusters[..n];
  }

  /** For each of the nodes in some cluster, the first that holds it. */
  function FirstHolders(clusters: seq<string>, expand: Expansions, nodes: set<string>): set<string> {
    set n | n in nodes && FirstHolder(clusters, expand, n).Some? :: FirstHolder(clusters, expand, n).value
  }

  lemma FirstHoldersStep(clusters: seq<string>, expand: Expansions, done: set<string>, n: string)
    ensures FirstHolders(clusters, expand, done + {n})
         == FirstHolders(clusters, expand, done)
            + if Holders(clusters, expand, n) == [] then {} else {Holders(clusters, expand, n)[0]}
  {
    hide Holders;
  }

  // The listed sections one by one (rangefunc_mem).

  lemma ListedStep(done: set<string>, s: string, expand: Expansions, names: set<string>)
    ensures Meeting(done + {s}, expand, names)
         == Meeting(done, expand, names) + if Meets(expand, s, names) then {s} else {}
    ensures Meeting({}, expand, names) == {}
  {
  }

  /** More nodes or more sections never meet less. */
  lemma MeetingGrows(listed: set<string>, listed': set<string>, expand: Expansions, names: set<string>, names': set<string>)
    requires listed <= listed' && names <= names'
    ensures Meeting(listed, expand, names) <= Meeting(listed', expand, names')
  {
  }

  lemma FirstHoldersGrow(clusters: seq<string>, expand: Expansions, nodes: set<string>, nodes': set<string>)
    requires nodes <= nodes'
    ensures FirstHolders(clusters, expand, nodes) <= FirstHolders(clusters, expand, nodes')
    ensures FirstHolders(clusters, expand, {}) == {}
  {
    hide Holders;
  }
}
