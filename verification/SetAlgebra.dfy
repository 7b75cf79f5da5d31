/** Union, difference and intersection of hash sets, and removal (set.c). */
module SetAlgebra {
  import opened HashSets

  /** src.View() restricted to the names of done. */
  ghost predicate Copied(view: map<string, Data>, before: map<string, Data>, m: Model, done: set<Node>) {
    view == before + Part(m.view, Names(done))
  }

  lemma CopiedStep(view: map<string, Data>, before: map<string, Data>, m: Model, hash: string -> nat,
                   done: set<Node>, x: Node)
    requires Sound(m, hash) && x in m.nodes && Copied(view, before, m, done)
    ensures x.name in m.view && Copied(view[x.name := m.view[x.name]], before, m, done + {x})
  {
    hide Sound, Part, Names;
    PartStep(m, hash, done, x);
  }

  lemma CopiedEnds(view: map<string, Data>, before: map<string, Data>, m: Model, hash: string -> nat)
    requires Sound(m, hash)
    ensures Copied(before, before, m, {})
    ensures Copied(view, before, m, m.nodes) ==> view == before + m.view
  {
    hide Sound, Part, Names;
    PartAll(m, hash);
  }

  /** Two sets share nothing, or are one and the same. */
  ghost predicate ApartOrSame(s: HashSet, src: HashSet)
    reads s, src
  {
    s == src || s.Repr !! src.Repr
  }

  /** While s takes over src: the nodes of done are copied, and there is room for the rest. A set
      that takes over itself stays as it is. */
  ghost predicate Copying(s: HashSet, src: HashSet, before: map<string, Data>, members0: nat, done: set<Node>)
    reads s, s.Repr, src, src.Repr
  {
    && s.Valid() && src.Valid() && ApartOrSame(s, src)
    && (s == src ==> s.View() == before && s.members == members0)
    && Copied(s.View(), before, src.m, done)
    && s.members <= members0 + |done|
    && members0 + src.members <= s.hashsize
  }

  /** The data that a set has for the name of one of its nodes. */
  lemma OwnData(s: HashSet, n: Node)
    requires s.Valid() && n in s.m.nodes
    ensures n.name in s.View() && s.View()[n.name] == n.data && s.View()[n.name := n.data] == s.View()
  {
    hide HashSet.Valid;
    s.PartsAt(n);
  }

  method CopyNode(s: HashSet, src: HashSet, n: Node,
                  ghost before: map<string, Data>, ghost members0: nat, ghost done: set<Node>)
    requires Copying(s, src, before, members0, done)
    requires n in src.m.nodes && n !in done && |done| < |src.m.nodes|
    modifies s.Repr
    ensures Copying(s, src, before, members0, done + {n})
    ensures fresh(s.Repr - old(s.Repr)) && s.hashsize == old(s.hashsize)
    ensures src.m == old(src.m) && src.Repr == old(src.Repr) && src.members == old(src.members)
  {
    hide HashSet.Valid, Sound, IsTableSize, Copied, HashSet.View;
    src.Parts();
    src.PartsAt(n);
    OwnData(src, n);
    CopiedStep(s.View(), before, src.m, src.hash, done, n);
    s.AddNoResize(n.name, n.data);
  }

  /** Adds every element of src to s; its buckets are walked while s changes. */
  method AddAll(s: HashSet, src: HashSet)
    requires s.Valid() && src.Valid() && ApartOrSame(s, src)
    requires s.members + src.members <= s.hashsize
    modifies s.Repr
    ensures s.Valid() && fresh(s.Repr - old(s.Repr))
    ensures s.View() == old(s.View()) + old(src.View())
    ensures s.hashsize == old(s.hashsize) && s.members <= old(s.members) + old(src.members)
  {
    hide HashSet.Valid, IsTableSize, Visited, Copying, Sound;
    ghost var before, members0 := s.View(), s.members;
    src.Parts();
    VisitedNone(src.m.chains);
    CopyingStart(s, src);
    for i := 0 to src.hashsize
      invariant src.m == old(src.m) && src.hashsize == old(src.hashsize) && src.members == old(src.members)
      invariant Copying(s, src, before, members0, Visited(src.m.chains, i, 0))
      invariant fresh(s.Repr - old(s.Repr)) && s.hashsize == old(s.hashsize)
    {
      AddBucket(s, src, i, before, members0);
    }
    SoundVisitAll(src.m, src.hash);
    CopyingDone(s, src, before, members0);
  }

  lemma CopyingStart(s: HashSet, src: HashSet)
    requires s.Valid() && src.Valid() && ApartOrSame(s, src)
    requires s.members + src.members <= s.hashsize
    ensures Copying(s, src, s.View(), s.members, {})
  {
    hide HashSet.Valid, Copied, Sound;
    src.Parts();
    CopiedEnds(s.View(), s.View(), src.m, src.hash);
  }

  lemma CopyingDone(s: HashSet, src: HashSet, before: map<string, Data>, members0: nat)
    requires Copying(s, src, before, members0, src.m.nodes)
    ensures s.Valid() && s.View() == before + src.View() && s.members <= members0 + src.members
  {
    hide HashSet.Valid, Copied, Sound;
    src.Parts();
    CopiedEnds(s.View(), before, src.m, src.hash);
  }

  lemma CopyingSets(s: HashSet, src: HashSet, before: map<string, Data>, members0: nat, done: set<Node>)
    requires Copying(s, src, before, members0, done)
    ensures src.Valid() && src in src.Repr
    ensures src.m.nodes <= src.Repr && src.table in src.Repr
    ensures Sound(src.m, src.hash) && src.hashsize == src.table.Length == |src.m.chains|
    ensures forall i :: 0 <= i < src.hashsize && i < |src.m.heads| ==> src.table[i] == src.m.heads[i]
  {
    hide HashSet.Valid, Sound, Copied;
    src.Parts();
  }

  method AddBucket(s: HashSet, src: HashSet, i: nat, ghost before: map<string, Data>, ghost members0: nat)
    requires i < src.hashsize == |src.m.chains|
    requires Copying(s, src, before, members0, Visited(src.m.chains, i, 0))
    modifies s.Repr
    ensures fresh(s.Repr - old(s.Repr)) && s.hashsize == old(s.hashsize)
    ensures src.m == old(src.m) && src.Repr == old(src.Repr) && src.members == old(src.members)
    ensures Copying(s, src, before, members0, Visited(src.m.chains, i + 1, 0))
  {
    hide *;
    ghost var m, c, k := src.m, src.m.chains[i], 0;
    CopyingSets(s, src, before, members0, Visited(m.chains, i, 0));
    SoundParts(m, src.hash);
    var n := src.table[i];
    assert c[0..] == c;
    while n != null
      invariant k <= |c| && IsList(m.nexts, n, c[k..]) && src.m == m && src.Repr == old(src.Repr)
      invariant src.members == old(src.members)
      invariant Copying(s, src, before, members0, Visited(m.chains, i, k))
      invariant fresh(s.Repr - old(s.Repr)) && s.hashsize == old(s.hashsize)
      decreases |c| - k
    {
      CopyingSets(s, src, before, members0, Visited(m.chains, i, k));
      ListHead(m.nexts, n, c[k..]);
      assert c[k..][1..] == c[k + 1..];
      SoundVisit(m, src.hash, i, k);
      CopyNode(s, src, n, before, members0, Visited(m.chains, i, k));
      CopyingSets(s, src, before, members0, Visited(m.chains, i, k + 1));
      src.PartsAt(n);
      n := n.next;
      k := k + 1;
    }
    ListEnd(m.nexts, c[k..]);
    VisitedBucket(m.chains, i);
  }

  lemma ListHead(nexts: map<Node, Node?>, n: Node?, c: seq<Node>)
    requires n != null && IsList(nexts, n, c)
    ensures c != [] && n == c[0] && n in nexts && IsList(nexts, nexts[n], c[1..])
  {
  }

  lemma ListEnd(nexts: map<Node, Node?>, c: seq<Node>)
    requires IsList(nexts, null, c)
    ensures c == []
  {
  }

  lemma OwnParts(s: HashSet)
    requires s.Valid()
    ensures s in s.Repr && s.members == |s.View()|
  {
  }

  /** set_union_inplace. An element of src replaces the data of its namesake; src may be s itself. */
  method UnionInplace(s: HashSet, src: HashSet)
    requires s.Valid() && src.Valid() && ApartOrSame(s, src)
    requires s.members + src.members <= BIG
    modifies s.Repr
    ensures s.Valid() && fresh(s.Repr - old(s.Repr))
    ensures s.View() == old(s.View()) + old(src.View())
    ensures s.hashsize == old(s.hashsize) || IsNextPrime(old(s.members) + old(src.members), s.hashsize)
  {
    hide HashSet.Valid, IsTableSize, IsNextPrime;
    OwnParts(src);
    s.Resize(s.members + src.members);
    AddAll(s, src);
  }

  lemma Apart(s: HashSet, src: HashSet)
    requires s == src || s.Repr !! src.Repr
    ensures ApartOrSame(s, src)
  {
  }

  /** The two loops of set_union: the empty set s takes over s1, then s2. */
  method AddBoth(s: HashSet, s1: HashSet, s2: HashSet)
    requires s.Valid() && s.View() == map[] && s.members == 0
    requires s1.Valid() && s2.Valid() && s.Repr !! s1.Repr && s.Repr !! s2.Repr
    requires s1.members + s2.members <= s.hashsize
    modifies s.Repr
    ensures s.Valid() && fresh(s.Repr - old(s.Repr))
    ensures s.View() == s1.View() + s2.View()
  {
    hide HashSet.Valid, IsTableSize, IsNextPrime, ApartOrSame, HashSet.View;
    OwnParts(s1);
    OwnParts(s2);
    Apart(s, s1);
    AddAll(s, s1);
    assert map[] + s1.View() == s1.View();
    Apart(s, s2);
    AddAll(s, s2);
  }

  /** set_union */
  method Union(s1: HashSet, s2: HashSet) returns (s: HashSet)
    requires s1.Valid() && s2.Valid() && s1.members + s2.members <= BIG
    ensures s.Valid() && fresh(s.Repr)
    ensures s.View() == s1.View() + s2.View()
  {
    hide HashSet.Valid, IsTableSize, IsNextPrime, ApartOrSame, HashSet.View;
    s := new HashSet(s1.hash, s1.members + s2.members);
    NextPrimeAtLeast(s1.members + s2.members, s.hashsize);
    AddBoth(s, s1, s2);
  }

  /** The part of a map whose names are, or are not, in another. */
  ghost function Sift(view: map<string, Data>, other: map<string, Data>, present: bool): map<string, Data> {
    map k | k in view && (k in other) == present :: view[k]
  }

  lemma SiftStep(m: Model, hash: string -> nat, done: set<Node>, x: Node, other: map<string, Data>, present: bool)
    requires Sound(m, hash) && x in m.nodes
    ensures x.name in m.view
    ensures Sift(Part(m.view, Names(done + {x})), other, present)
         == if (x.name in other) == present then Sift(Part(m.view, Names(done)), other, present)[x.name := m.view[x.name]]
            else Sift(Part(m.view, Names(done)), other, present)
  {
    hide Sound, Part, Names;
    PartStep(m, hash, done, x);
  }

  lemma SiftEnds(m: Model, hash: string -> nat, other: map<string, Data>, present: bool)
    requires Sound(m, hash)
    ensures Sift(Part(m.view, Names({})), other, present) == map[]
    ensures Sift(Part(m.view, Names(m.nodes)), other, present) == Sift(m.view, other, present)
  {
    hide Sound, Part, Names;
    PartAll(m, hash);
  }

  /** While s takes over the elements of src that other has (present) or lacks. */
  ghost predicate Sifting(s: HashSet, src: HashSet, other: HashSet, present: bool, done: set<Node>)
    reads s, s.Repr, src, src.Repr, other, other.Repr
  {
    && s.Valid() && src.Valid() && other.Valid() && s.Repr !! src.Repr && s.Repr !! other.Repr
    && s.View() == Sift(Part(src.m.view, Names(done)), other.View(), present)
    && s.members <= |done|
    && src.members <= s.hashsize
  }

  method SiftNode(s: HashSet, src: HashSet, other: HashSet, present: bool, n: Node, ghost done: set<Node>)
    requires Sifting(s, src, other, present, done)
    requires n in src.m.nodes && n !in done && |done| < |src.m.nodes|
    modifies s.Repr
    ensures Sifting(s, src, other, present, done + {n})
    ensures fresh(s.Repr - old(s.Repr)) && s.hashsize == old(s.hashsize)
  {
    hide HashSet.Valid, Sound, IsTableSize, Part, Names, Sift, HashSet.View;
    src.Parts();
    src.PartsAt(n);
    SiftStep(src.m, src.hash, done, n, other.View(), present);
    var e := other.Get(n.name);
    if (e != null) == present {
      s.AddNoResize(n.name, n.data);
    }
  }

  lemma SiftingSets(s: HashSet, src: HashSet, other: HashSet, present: bool, done: set<Node>)
    requires Sifting(s, src, other, present, done)
    ensures src.Valid() && s.Repr !! src.Repr && src in src.Repr
    ensures src.m.nodes <= src.Repr && src.table in src.Repr
    ensures Sound(src.m, src.hash) && src.hashsize == src.table.Length == |src.m.chains|
    ensures forall i :: 0 <= i < src.hashsize && i < |src.m.heads| ==> src.table[i] == src.m.heads[i]
  {
    hide HashSet.Valid, Sound, Sift, Part;
    src.Parts();
  }

  method SiftBucket(s: HashSet, src: HashSet, other: HashSet, present: bool, i: nat)
    requires i < src.hashsize == |src.m.chains|
    requires Sifting(s, src, other, present, Visited(src.m.chains, i, 0))
    modifies s.Repr
    ensures fresh(s.Repr - old(s.Repr)) && s.hashsize == old(s.hashsize)
    ensures Sifting(s, src, other, present, Visited(src.m.chains, i + 1, 0))
  {
    hide *;
    ghost var m, c, k := src.m, src.m.chains[i], 0;
    SiftingSets(s, src, other, present, Visited(m.chains, i, 0));
    SoundParts(m, src.hash);
    var n := src.table[i];
    assert c[0..] == c;
    while n != null
      invariant k <= |c| && IsList(m.nexts, n, c[k..]) && src.m == m && src.Repr == old(src.Repr)
      invariant Sifting(s, src, other, present, Visited(m.chains, i, k))
      invariant fresh(s.Repr - old(s.Repr)) && s.hashsize == old(s.hashsize)
      decreases |c| - k
    {
      SiftingSets(s, src, other, present, Visited(m.chains, i, k));
      ListHead(m.nexts, n, c[k..]);
      assert c[k..][1..] == c[k + 1..];
      SoundVisit(m, src.hash, i, k);
      SiftNode(s, src, other, present, n, Visited(m.chains, i, k));
      SiftingSets(s, src, other, present, Visited(m.chains, i, k + 1));
      src.PartsAt(n);
      n := n.next;
      k := k + 1;
    }
    ListEnd(m.nexts, c[k..]);
    VisitedBucket(m.chains, i);
  }

  /** Adds to the empty set s the elements of src whose names other has (present) or lacks. */
  method AddSifted(s: HashSet, src: HashSet, other: HashSet, present: bool)
    requires s.Valid() && s.View() == map[] && s.members == 0
    requires src.Valid() && other.Valid() && s.Repr !! src.Repr && s.Repr !! other.Repr
    requires src.members <= s.hashsize
    modifies s.Repr
    ensures s.Valid() && fresh(s.Repr - old(s.Repr))
    ensures s.View() == Sift(src.View(), other.View(), present)
    ensures s.hashsize == old(s.hashsize)
  {
    hide HashSet.Valid, IsTableSize, Visited, Sifting, Sound;
    src.Parts();
    VisitedNone(src.m.chains);
    SiftingStart(s, src, other, present);
    for i := 0 to src.hashsize
      invariant Sifting(s, src, other, present, Visited(src.m.chains, i, 0))
      invariant fresh(s.Repr - old(s.Repr)) && s.hashsize == old(s.hashsize)
    {
      SiftBucket(s, src, other, present, i);
    }
    SoundVisitAll(src.m, src.hash);
    SiftingDone(s, src, other, present);
  }

  lemma SiftingStart(s: HashSet, src: HashSet, other: HashSet, present: bool)
    requires s.Valid() && s.View() == map[] && s.members == 0
    requires src.Valid() && other.Valid() && s.Repr !! src.Repr && s.Repr !! other.Repr
    requires src.members <= s.hashsize
    ensures Sifting(s, src, other, present, {})
  {
    hide HashSet.Valid, Sift, Part, Names, Sound;
    src.Parts();
    SiftEnds(src.m, src.hash, other.View(), present);
  }

  lemma SiftingDone(s: HashSet, src: HashSet, other: HashSet, present: bool)
    requires Sifting(s, src, other, present, src.m.nodes)
    ensures s.Valid() && s.View() == Sift(src.View(), other.View(), present)
  {
    hide HashSet.Valid, Sift, Part, Names, Sound;
    src.Parts();
    SiftEnds(src.m, src.hash, other.View(), present);
  }

  /** set_diff. The new set has the table size of s1, because next_prime is the identity on
      table sizes. */
  method Diff(s1: HashSet, s2: HashSet) returns (s: HashSet)
    requires s1.Valid() && s2.Valid()
    ensures s.Valid() && fresh(s.Repr) && s.hashsize == s1.hashsize
    ensures s.View() == s1.View() - s2.View().Keys
  {
    hide HashSet.Valid, IsTableSize, IsNextPrime;
    s := new HashSet(s1.hash, s1.hashsize);
    NextPrimeIdentity(s1.hashsize, s.hashsize);
    AddSifted(s, s1, s2, false);
    assert Sift(s1.View(), s2.View(), false) == s1.View() - s2.View().Keys;
  }

  /** set_intersect: the data comes from the smaller set, or from s2 when neither is. */
  method Intersect(s1: HashSet, s2: HashSet) returns (s: HashSet)
    requires s1.Valid() && s2.Valid()
    ensures s.Valid() && fresh(s.Repr)
    ensures s.hashsize == if s1.members < s2.members then s2.hashsize else s1.hashsize
    ensures s.View().Keys == s1.View().Keys * s2.View().Keys
    ensures forall k :: k in s.View() ==>
              s.View()[k] == if s1.members < s2.members then s1.View()[k] else s2.View()[k]
  {
    hide HashSet.Valid, IsTableSize, IsNextPrime;
    var large, small := s1, s2;
    if s1.members < s2.members {
      large, small := s2, s1;
    }
    s := new HashSet(large.hash, large.hashsize);
    NextPrimeIdentity(large.hashsize, s.hashsize);
    AddSifted(s, small, large, true);
  }

  lemma NextPrimeAtLeast(n: nat, p: nat)
    requires IsNextPrime(n, p)
    ensures n <= p
  {
  }

  lemma NextPrimeIdentity(n: nat, p: nat)
    requires IsTableSize(n) && IsNextPrime(n, p)
    ensures p == n
  {
    hide Prime;
  }

  /** _count_members: walking all chains finds as many elements as members says. */
  method CountMembers(s: HashSet) returns (count: nat)
    requires s.Valid()
    ensures count == s.members
  {
    hide HashSet.Valid, Sound, IsTableSize, Visited;
    s.Parts();
    VisitedNone(s.m.chains);
    count := 0;
    for i := 0 to s.hashsize
      invariant count == |Visited(s.m.chains, i, 0)|
    {
      count := CountBucket(s, i, count);
    }
    SoundVisitAll(s.m, s.hash);
  }

  method CountBucket(s: HashSet, i: nat, before: nat) returns (count: nat)
    requires s.Valid() && i < s.hashsize == |s.m.chains| && before == |Visited(s.m.chains, i, 0)|
    ensures count == |Visited(s.m.chains, i + 1, 0)|
  {
    hide HashSet.Valid, Sound, IsTableSize, Visited;
    ghost var c, k := s.m.chains[i], 0;
    s.Parts();
    SoundParts(s.m, s.hash);
    count := before;
    var n := s.table[i];
    assert c[0..] == c;
    while n != null
      invariant k <= |c| && IsList(s.m.nexts, n, c[k..]) && count == |Visited(s.m.chains, i, k)|
      decreases |c| - k
    {
      assert c[k..][1..] == c[k + 1..];
      SoundVisit(s.m, s.hash, i, k);
      s.PartsAt(n);
      count := count + 1;
      n := n.next;
      k := k + 1;
    }
    VisitedBucket(s.m.chains, i);
  }
}
