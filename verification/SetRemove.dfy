/** Unlinking elements in place: set_remove and set_diff_inplace (set.c). */
module SetRemove {
  import opened Text
  import opened HashSets

  function Cut<T>(c: seq<T>, k: nat): seq<T>
    requires k < |c|
  {
    c[..k] + c[k + 1..]
  }

  /** The model without node k of chain i. */
  function CutModel(m: Model, i: nat, k: nat): Model
    requires i < |m.chains| == |m.heads| && k < |m.chains[i]| && m.chains[i][k] in m.nexts
  {
    var c := m.chains[i];
    var x := c[k];
    Model(m.chains[i := Cut(c, k)], m.nodes - {x},
          if k == 0 then m.heads[i := m.nexts[x]] else m.heads,
          if k == 0 then m.nexts else m.nexts[c[k - 1] := m.nexts[x]],
          m.view - {x.name})
  }

  lemma CutHolds(c: seq<Node>, k: nat)
    requires k < |c| && NoRepeats(c)
    ensures NoRepeats(Cut(c, k))
    ensures Elements(Cut(c, k)) == Elements(c) - {c[k]}
  {
    var d := Cut(c, k);
    forall x | x in c && x != c[k] ensures x in d {
      var j :| 0 <= j < |c| && c[j] == x;
      assert d[if j < k then j else j - 1] == x;
    }
  }

  lemma IndexedCut(chains: seq<seq<Node>>, nodes: set<Node>, hash: string -> nat, i: nat, k: nat)
    requires Indexed(chains, nodes, hash) && i < |chains| && k < |chains[i]|
    ensures Indexed(chains[i := Cut(chains[i], k)], nodes - {chains[i][k]}, hash)
  {
    hide Slot, Cut, NoRepeats;
    var x := chains[i][k];
    assert x in chains[i] && NoRepeats(chains[i]);
    var cut := Cut(chains[i], k);
    CutHolds(chains[i], k);
    assert forall y :: y in cut <==> y in Elements(cut);
    forall y ensures y in cut <==> y in chains[i] && y != x {
      assert y in chains[i] <==> y in Elements(chains[i]);
    }
    IndexedLess(chains, nodes, hash, i, cut, x);
  }

  lemma IndexedLess(chains: seq<seq<Node>>, nodes: set<Node>, hash: string -> nat, i: nat, cut: seq<Node>, x: Node)
    requires Indexed(chains, nodes, hash) && i < |chains| && x in chains[i] && NoRepeats(cut)
    requires forall y :: y in cut <==> y in chains[i] && y != x
    ensures Indexed(chains[i := cut], nodes - {x}, hash)
  {
    hide Slot, NoRepeats;
    var chains' := chains[i := cut];
    forall j, y | 0 <= j < |chains'| && y in chains'[j]
      ensures y in nodes - {x} && Slot(hash, y.name, |chains|) == j
    {
      assert y in chains[j];
      ChainSlot(chains, nodes, hash, j, y);
      ChainSlot(chains, nodes, hash, i, x);
    }
    forall y | y in nodes - {x} ensures y in chains'[Slot(hash, y.name, |chains|)] {
      assert y in chains[Slot(hash, y.name, |chains|)];
    }
  }

  /** Redirecting the link before node k drops it from the list. */
  lemma {:induction false} ListCut(nexts: map<Node, Node?>, n: Node?, c: seq<Node>, k: nat)
    requires IsList(nexts, n, c) && NoRepeats(c) && 0 < k < |c|
    ensures c[k] in nexts && IsList(nexts[c[k - 1] := nexts[c[k]]], n, Cut(c, k))
  {
    var tail := c[1..];
    assert Cut(c, k)[1..] == if k == 1 then c[2..] else Cut(tail, k - 1);
    assert c[1..][1..] == c[2..];
    if k == 1 {
      ListFrame(nexts, nexts[c[1]], c[2..], c[0], nexts[c[1]]);
    } else {
      ListCut(nexts, nexts[c[0]], tail, k - 1);
    }
  }

  lemma {:induction false} ListLinks(nexts: map<Node, Node?>, n: Node?, c: seq<Node>, k: nat)
    requires IsList(nexts, n, c) && k < |c|
    ensures c[k] in nexts && (k == 0 ==> n == c[0]) && IsList(nexts, nexts[c[k]], c[k + 1..])
  {
    if k > 0 {
      ListLinks(nexts, nexts[c[0]], c[1..], k - 1);
      assert c[1..][k..] == c[k + 1..];
    }
  }

  lemma CutLists(m: Model, hash: string -> nat, i: nat, k: nat)
    requires Indexed(m.chains, m.nodes, hash) && AllLists(m) && i < |m.chains| && k < |m.chains[i]|
    ensures m.chains[i][k] in m.nexts && AllLists(CutModel(m, i, k))
  {
    hide Slot, Cut, IsList;
    var c := m.chains[i];
    assert NoRepeats(c) && c[k] in c;
    ListLinks(m.nexts, m.heads[i], c, k);
    var m' := CutModel(m, i, k);
    assert k > 0 ==> c[k - 1] in c;
    forall j | 0 <= j < |m'.chains| ensures IsList(m'.nexts, m'.heads[j], m'.chains[j]) {
      if j == i {
        if k > 0 {
          ListCut(m.nexts, m.heads[i], c, k);
        } else {
          CutFirst(c);
        }
      } else if k > 0 {
        OtherChain(m.chains, m.nodes, hash, i, j, c[k - 1]);
        ListFrame(m.nexts, m.heads[j], m.chains[j], c[k - 1], m.nexts[c[k]]);
      }
    }
  }

  lemma OtherChain(chains: seq<seq<Node>>, nodes: set<Node>, hash: string -> nat, i: nat, j: nat, x: Node)
    requires Indexed(chains, nodes, hash) && i < |chains| && j < |chains| && i != j && x in chains[i]
    ensures x !in chains[j]
  {
    ChainSlot(chains, nodes, hash, i, x);
    if x in chains[j] {
      ChainSlot(chains, nodes, hash, j, x);
    }
  }

  lemma ChainSlot(chains: seq<seq<Node>>, nodes: set<Node>, hash: string -> nat, i: nat, x: Node)
    requires Indexed(chains, nodes, hash) && i < |chains| && x in chains[i]
    ensures Slot(hash, x.name, |chains|) == i
  {
  }

  lemma CutFirst(c: seq<Node>)
    requires c != []
    ensures Cut(c, 0) == c[1..]
  {
  }

  lemma CutNames(m: Model, hash: string -> nat, x: Node)
    requires Sound(m, hash) && x in m.nodes
    ensures (m.view - {x.name}).Keys == Names(m.nodes - {x})
    ensures |m.view - {x.name}| == |m.nodes - {x}| == |m.nodes| - 1
    ensures forall y :: y in m.nodes && y != x ==> y.name != x.name
  {
    hide AllLists, Slot, NoRepeats;
    assert x.name in Names(m.nodes);
    assert Names(m.nodes - {x}) == Names(m.nodes) - {x.name};
    assert (m.view - {x.name}).Keys == m.view.Keys - {x.name};
  }

  lemma CutSound(m: Model, hash: string -> nat, i: nat, k: nat)
    requires Sound(m, hash) && i < |m.chains| && k < |m.chains[i]|
    ensures |m.heads| == |m.chains| && m.chains[i][k] in m.nexts && m.chains[i][k] in m.nodes
    ensures Sound(CutModel(m, i, k), hash)
    ensures |CutModel(m, i, k).nodes| == |m.nodes| - 1
    ensures forall y :: y in m.nodes && y != m.chains[i][k] ==> y.name != m.chains[i][k].name
    ensures k > 0 ==> m.chains[i][k - 1] in m.nodes && m.chains[i][k - 1] != m.chains[i][k]
  {
    hide Indexed, Cut, IsList, Names;
    CutNodes(m.chains, m.nodes, hash, i, k);
    CutLists(m, hash, i, k);
    CutNames(m, hash, m.chains[i][k]);
    IndexedCut(m.chains, m.nodes, hash, i, k);
  }

  lemma CutNodes(chains: seq<seq<Node>>, nodes: set<Node>, hash: string -> nat, i: nat, k: nat)
    requires Indexed(chains, nodes, hash) && i < |chains| && k < |chains[i]|
    ensures chains[i][k] in nodes
    ensures k > 0 ==> chains[i][k - 1] in nodes && chains[i][k - 1] != chains[i][k]
  {
    hide Slot;
    assert NoRepeats(chains[i]);
    assert chains[i][k] in chains[i];
    assert k > 0 ==> chains[i][k - 1] in chains[i];
  }

  /** After the link is redirected, the heap holds the model without the node. */
  lemma MirrorCut(table: array<Node?>, m: Model, i: nat, k: nat)
    requires i < |m.chains| == |m.heads| == table.Length && k < |m.chains[i]|
    requires var c := m.chains[i];
             && c[k] in m.nexts && c[k] in m.nodes
             && (forall j :: 0 <= j < |m.heads| && (j != i || k > 0) ==> table[j] == m.heads[j])
             && (k == 0 ==> table[i] == m.nexts[c[k]])
             && (k > 0 ==> c[k - 1] in m.nodes && c[k - 1].next == m.nexts[c[k]]
                           && c[k - 1].name in m.view && c[k - 1].data == m.view[c[k - 1].name])
             && Keeps(m, if k > 0 then m.nodes - {c[k - 1]} else m.nodes)
             && forall y :: y in m.nodes && y != c[k] ==> y.name != c[k].name
    ensures Mirrors(table, CutModel(m, i, k))
  {
    hide Cut;
  }

  /** Takes node k of bucket i out of its list; prev is the node before it, or null. */
  method Unlink(s: HashSet, i: nat, prev: Node?, n: Node, ghost k: nat)
    requires s.Valid() && i < s.hashsize == |s.m.chains| && k < |s.m.chains[i]|
    requires n == s.m.chains[i][k] && prev == if k == 0 then null else s.m.chains[i][k - 1]
    modifies s.Repr
    ensures s.Valid() && s.Repr == old(s.Repr) && s.hashsize == old(s.hashsize)
    ensures |old(s.m).heads| == |old(s.m).chains| && n in old(s.m).nexts && s.m == CutModel(old(s.m), i, k)
    ensures n in old(s.m).nodes && n.next == old(n.next) == old(s.m).nexts[n]
  {
    hide Sound, IsTableSize, Keeps, CutModel;
    CutSound(s.m, s.hash, i, k);
    CutParts(s.m, i, k);
    MirrorsAt(s.table, s.m, n);
    if prev != null {
      MirrorsAt(s.table, s.m, prev);
      KeepsRest(s.m, prev);
      prev.next := n.next;
    } else {
      s.table[i] := n.next;
    }
    s.members := s.members - 1;
    ghost var m := s.m;
    s.m := CutModel(m, i, k);
    MirrorCut(s.table, m, i, k);
  }

  lemma KeepsRest(m: Model, x: Node)
    ensures Keeps(m, m.nodes) ==> Keeps(m, m.nodes - {x})
  {
  }

  lemma CutParts(m: Model, i: nat, k: nat)
    requires i < |m.chains| == |m.heads| && k < |m.chains[i]| && m.chains[i][k] in m.nexts
    ensures var m' := CutModel(m, i, k);
            m'.nodes == m.nodes - {m.chains[i][k]} && |m'.chains| == |m.chains|
              && m'.view == m.view - {m.chains[i][k].name}
            && m'.chains == m.chains[i := Cut(m.chains[i], k)]
  {
  }

  /** The loop of set_remove: the node with the name in its bucket, and the node before it. */
  method FindLink(s: HashSet, name: string, i: nat) returns (prev: Node?, n: Node?, ghost k: nat)
    requires s.Valid() && i < s.hashsize == |s.m.chains|
    ensures n == null ==> forall x :: x in s.m.chains[i] ==> x.name != name
    ensures n != null ==>
              && n.name == name && k < |s.m.chains[i]| && n == s.m.chains[i][k]
              && prev == if k == 0 then null else s.m.chains[i][k - 1]
  {
    hide HashSet.Valid, Sound, IsTableSize, Slot, IsNextPrime;
    s.Parts();
    SoundParts(s.m, s.hash);
    ghost var c := s.m.chains[i];
    k := 0;
    prev := null;
    n := s.table[i];
    assert c[0..] == c;
    while n != null && n.name != name
      invariant k <= |c| && IsList(s.m.nexts, n, c[k..])
      invariant prev == if k == 0 then null else c[k - 1]
      invariant forall j :: 0 <= j < k ==> c[j].name != name
      decreases |c| - k
    {
      assert c[k..][1..] == c[k + 1..];
      assert c[k] in c;
      ChainInNodes(s.m, s.hash, i);
      s.PartsAt(n);
      prev, n := n, n.next;
      k := k + 1;
    }
  }

  lemma ChainInNodes(m: Model, hash: string -> nat, i: nat)
    requires Sound(m, hash) && i < |m.chains|
    ensures forall x :: x in m.chains[i] ==> x in m.nodes
  {
  }

  lemma NotInSlot(m: Model, hash: string -> nat, name: string)
    requires Sound(m, hash)
    ensures |m.chains| > 0 && Slot(hash, name, |m.chains|) < |m.chains|
    ensures (forall x :: x in m.chains[Slot(hash, name, |m.chains|)] ==> x.name != name) ==> name !in m.view
  {
    hide Sound, Slot;
    SoundParts(m, hash);
    Located(m, hash, name);
  }

  /** set_remove */
  method Remove(s: HashSet, name: string)
    requires s.Valid()
    modifies s.Repr
    ensures s.Valid() && s.Repr == old(s.Repr) && s.hashsize == old(s.hashsize)
    ensures s.View() == old(s.View()) - {name}
  {
    hide HashSet.Valid, Sound, IsTableSize, CutModel, Slot, IsNextPrime;
    s.Parts();
    NotInSlot(s.m, s.hash, name);
    var i := Slot(s.hash, name, s.hashsize);
    var prev, n, k := FindLink(s, name, i);
    if n != null {
      CutSound(s.m, s.hash, i, k);
      CutParts(s.m, i, k);
      Unlink(s, i, prev, n, k);
    }
  }

  // The walk of set_diff_inplace.

  function At(c: seq<Node>, k: nat): Node? {
    if k < |c| then c[k] else null
  }

  lemma NextIs(m: Model, hash: string -> nat, i: nat, k: nat)
    requires Sound(m, hash) && i < |m.chains|
    ensures |m.heads| == |m.chains| && m.heads[i] == At(m.chains[i], 0)
    ensures k < |m.chains[i]| ==> m.chains[i][k] in m.nexts && m.nexts[m.chains[i][k]] == At(m.chains[i], k + 1)
  {
    hide Indexed, Names;
    if k < |m.chains[i]| {
      ListLinks(m.nexts, m.heads[i], m.chains[i], k);
    }
  }

  lemma CutAt(c: seq<Node>, k: nat)
    requires k < |c|
    ensures At(Cut(c, k), k) == At(c, k + 1) && Cut(c, k)[..k] == c[..k] && |Cut(c, k)| == |c| - 1
  {
  }

  /** Unlinking ahead of the walk leaves what was visited as it was. */
  lemma VisitedCut(chains: seq<seq<Node>>, i: nat, k: nat)
    requires i < |chains| && k < |chains[i]|
    ensures |Cut(chains[i], k)| >= k
    ensures Visited(chains[i := Cut(chains[i], k)], i, k) == Visited(chains, i, k)
  {
    hide Cut;
    CutAt(chains[i], k);
    var chains' := chains[i := Cut(chains[i], k)];
    assert forall j :: 0 <= j < i ==> chains'[j] == chains[j];
  }

  /** While s loses the names of s2: only such names are gone, and no node of done has one. */
  ghost predicate Pruned(view: map<string, Data>, before: map<string, Data>, theirs: set<string>, done: set<Node>) {
    && (forall k :: k in view ==> k in before && view[k] == before[k])
    && (forall k :: k in before && k !in view ==> k in theirs)
    && (forall x :: x in done ==> x.name !in theirs)
  }

  lemma PrunedCut(view: map<string, Data>, before: map<string, Data>, theirs: set<string>, done: set<Node>,
                  name: string)
    requires Pruned(view, before, theirs, done) && name in theirs
    ensures Pruned(view - {name}, before, theirs, done)
  {
  }

  lemma PrunedKeep(view: map<string, Data>, before: map<string, Data>, theirs: set<string>, done: set<Node>, x: Node)
    requires Pruned(view, before, theirs, done) && x.name !in theirs
    ensures Pruned(view, before, theirs, done + {x})
  {
  }

  lemma PrunedAll(m: Model, hash: string -> nat, before: map<string, Data>, theirs: set<string>)
    requires Sound(m, hash) && Pruned(m.view, before, theirs, m.nodes)
    ensures m.view == before - theirs
  {
    hide Indexed, AllLists;
    forall k | k in m.view ensures k !in theirs {
      assert k in Names(m.nodes);
    }
  }

  /** The walk of s stands at node k of chain i; theirs are the names that s2 had when it began.
      A set diminished by itself loses its own names on the way. */
  ghost predicate Pruning(s: HashSet, s2: HashSet, before: map<string, Data>, theirs: set<string>, i: nat, k: nat)
    reads s, s.Repr, s2, s2.Repr
  {
    && s.Valid() && s2.Valid()
    && (if s == s2 then theirs == before.Keys else s.Repr !! s2.Repr && theirs == s2.View().Keys)
    && i <= |s.m.chains| && (i < |s.m.chains| ==> k <= |s.m.chains[i]|)
    && Pruned(s.View(), before, theirs, Visited(s.m.chains, i, k))
  }

  /** What s2 answers about a node of the walk is whether it had the name at first. */
  lemma Asked(s: HashSet, s2: HashSet, before: map<string, Data>, theirs: set<string>, i: nat, k: nat)
    requires Pruning(s, s2, before, theirs, i, k) && i < |s.m.chains| && k < |s.m.chains[i]|
    ensures s.m.chains[i][k].name in s2.View() <==> s.m.chains[i][k].name in theirs
  {
    hide HashSet.Valid, Sound, Visited;
    s.Parts();
    CutSound(s.m, s.hash, i, k);
    s.PartsAt(s.m.chains[i][k]);
  }

  lemma CutWalk(m: Model, hash: string -> nat, i: nat, k: nat, before: map<string, Data>, theirs: set<string>)
    requires Sound(m, hash) && i < |m.chains| && k < |m.chains[i]|
    requires Pruned(m.view, before, theirs, Visited(m.chains, i, k)) && m.chains[i][k].name in theirs
    ensures |m.heads| == |m.chains| && m.chains[i][k] in m.nexts
    ensures var m' := CutModel(m, i, k);
            && |m'.chains| == |m.chains| && |m'.chains[i]| == |m.chains[i]| - 1
            && m'.chains[i][..k] == m.chains[i][..k]
            && At(m'.chains[i], k) == m.nexts[m.chains[i][k]]
            && Pruned(m'.view, before, theirs, Visited(m'.chains, i, k))
  {
    hide Sound, Visited, Pruned, Cut;
    CutSound(m, hash, i, k);
    NextIs(m, hash, i, k);
    CutAt(m.chains[i], k);
    VisitedCut(m.chains, i, k);
    PrunedCut(m.view, before, theirs, Visited(m.chains, i, k), m.chains[i][k].name);
  }

  /** A node of the walk that s2 has is unlinked; prev stays where it is. */
  method PruneHit(s: HashSet, s2: HashSet, i: nat, prev: Node?, n: Node, ghost before: map<string, Data>,
                  ghost theirs: set<string>, ghost k: nat)
    requires Pruning(s, s2, before, theirs, i, k) && i < s.hashsize == |s.m.chains|
    requires k < |s.m.chains[i]| && n == s.m.chains[i][k] && n.name in theirs
    requires prev == if k == 0 then null else s.m.chains[i][k - 1]
    modifies s.Repr
    ensures Pruning(s, s2, before, theirs, i, k) && s.Repr == old(s.Repr)
    ensures s.hashsize == old(s.hashsize) && |s.m.chains| == |old(s.m).chains|
    ensures |s.m.chains[i]| == |old(s.m).chains[i]| - 1
    ensures n.next == At(s.m.chains[i], k)
    ensures prev == if k == 0 then null else s.m.chains[i][k - 1]
  {
    hide HashSet.Valid, Sound, IsTableSize, CutModel, Visited, Pruned, At;
    ghost var m := s.m;
    s.Parts();
    CutWalk(m, s.hash, i, k, before, theirs);
    Unlink(s, i, prev, n, k);
    assert k > 0 ==> m.chains[i][..k][k - 1] == s.m.chains[i][..k][k - 1];
  }

  /** A node of the walk that s2 lacks is kept, and becomes prev. */
  lemma PruneMiss(s: HashSet, s2: HashSet, i: nat, before: map<string, Data>, theirs: set<string>, k: nat)
    requires Pruning(s, s2, before, theirs, i, k) && i < |s.m.chains|
    requires k < |s.m.chains[i]| && s.m.chains[i][k].name !in theirs
    ensures Pruning(s, s2, before, theirs, i, k + 1)
    ensures s.m.chains[i][k].next == At(s.m.chains[i], k + 1)
  {
    hide HashSet.Valid, Sound, IsTableSize, Visited, Pruned;
    s.Parts();
    NextIs(s.m, s.hash, i, k);
    SoundVisit(s.m, s.hash, i, k);
    s.PartsAt(s.m.chains[i][k]);
    PrunedKeep(s.m.view, before, theirs, Visited(s.m.chains, i, k), s.m.chains[i][k]);
  }

  lemma PruningSets(s: HashSet, s2: HashSet, before: map<string, Data>, theirs: set<string>, i: nat, k: nat)
    requires Pruning(s, s2, before, theirs, i, k)
    ensures s.Valid() && s2.Valid() && i <= |s.m.chains|
    ensures k == 0 || (i < |s.m.chains| ==> k <= |s.m.chains[i]|)
  {
    hide HashSet.Valid, Visited, Pruned;
  }

  lemma PruningHead(s: HashSet, s2: HashSet, before: map<string, Data>, theirs: set<string>, i: nat)
    requires Pruning(s, s2, before, theirs, i, 0) && i < |s.m.chains|
    ensures i < s.table.Length && s.table[i] == At(s.m.chains[i], 0)
  {
    hide HashSet.Valid, Visited, Pruned, Sound;
    s.Parts();
    NextIs(s.m, s.hash, i, 0);
  }

  lemma PruningBucket(s: HashSet, s2: HashSet, before: map<string, Data>, theirs: set<string>, i: nat)
    requires i < |s.m.chains| && Pruning(s, s2, before, theirs, i, |s.m.chains[i]|)
    ensures Pruning(s, s2, before, theirs, i + 1, 0)
  {
    hide HashSet.Valid, Visited, Pruned;
    VisitedBucket(s.m.chains, i);
  }

  /** set_diff_inplace: one bucket. */
  method PruneBucket(s: HashSet, s2: HashSet, i: nat, ghost before: map<string, Data>, ghost theirs: set<string>)
    requires Pruning(s, s2, before, theirs, i, 0) && i < s.hashsize == |s.m.chains|
    modifies s.Repr
    ensures s.Repr == old(s.Repr) && s.hashsize == old(s.hashsize) && |s.m.chains| == |old(s.m).chains|
    ensures Pruning(s, s2, before, theirs, i + 1, 0)
  {
    hide HashSet.Valid, Pruning, HashSet.View;
    PruningHead(s, s2, before, theirs, i);
    ghost var k := 0;
    var prev: Node? := null;
    var n := s.table[i];
    while n != null
      invariant Pruning(s, s2, before, theirs, i, k) && i < s.hashsize == |s.m.chains|
      invariant s.Repr == old(s.Repr) && s.hashsize == old(s.hashsize) && |s.m.chains| == |old(s.m).chains|
      invariant k <= |s.m.chains[i]| && n == At(s.m.chains[i], k)
      invariant prev == if k == 0 then null else s.m.chains[i][k - 1]
      decreases |s.m.chains[i]| - k
    {
      PruningSets(s, s2, before, theirs, i, k);
      Asked(s, s2, before, theirs, i, k);
      var e := s2.Get(n.name);
      if e != null {
        PruneHit(s, s2, i, prev, n, before, theirs, k);
      } else {
        PruneMiss(s, s2, i, before, theirs, k);
        prev, k := n, k + 1;
      }
      n := n.next;
    }
    PruningBucket(s, s2, before, theirs, i);
  }

  /** set_diff_inplace; s2 may be s itself. */
  method DiffInplace(s: HashSet, s2: HashSet)
    requires s.Valid() && s2.Valid() && (s == s2 || s.Repr !! s2.Repr)
    modifies s.Repr
    ensures s.Valid() && s.Repr == old(s.Repr) && s.hashsize == old(s.hashsize)
    ensures s.View() == old(s.View()) - old(s2.View()).Keys
  {
    hide HashSet.Valid, Sound, IsTableSize, Visited, Pruned;
    ghost var before, theirs := s.View(), s2.View().Keys;
    s.Parts();
    VisitedNone(s.m.chains);
    PrunedNone(before, theirs);
    for i := 0 to s.hashsize
      invariant Pruning(s, s2, before, theirs, i, 0) && s.hashsize == |s.m.chains|
      invariant s.Repr == old(s.Repr) && s.hashsize == old(s.hashsize)
    {
      PruneBucket(s, s2, i, before, theirs);
    }
    s.Parts();
    SoundVisitAll(s.m, s.hash);
    PrunedAll(s.m, s.hash, before, theirs);
  }

  lemma PrunedNone(before: map<string, Data>, theirs: set<string>)
    ensures Pruned(before, before, theirs, {})
  {
  }
}
