/** The chained hash set (set.c). */
module HashSets {
  import opened Text

  /** What an element carries: a null pointer or a string. */
  type Data = Option<string>

  const NUM_PRIMES := 29

  /** prime_list */
  function Prime(i: nat): nat
    requires i < NUM_PRIMES
  {
    if i == 0 then 19 else if i == 1 then 53 else if i == 2 then 97 else if i == 3 then 193
    else if i == 4 then 389 else if i == 5 then 769 else if i == 6 then 1543 else if i == 7 then 3079
    else if i == 8 then 6151 else if i == 9 then 12289 else if i == 10 then 24593
    else if i == 11 then 49157 else if i == 12 then 98317 else if i == 13 then 196613
    else if i == 14 then 393241 else if i == 15 then 786433 else if i == 16 then 1572869
    else if i == 17 then 3145739 else if i == 18 then 6291469 else if i == 19 then 12582917
    else if i == 20 then 25165843 else if i == 21 then 50331653 else if i == 22 then 100663319
    else if i == 23 then 201326611 else if i == 24 then 402653189 else if i == 25 then 805306457
    else if i == 26 then 1610612741 else if i == 27 then 3221225473 else 4294967291
  }

  const LARGEST := 4294967291

  predicate IsTableSize(n: nat) {
    exists i :: 0 <= i < NUM_PRIMES && Prime(i) == n
  }

  lemma TableSizePositive(n: nat)
    requires IsTableSize(n)
    ensures n > 0
  {
  }

  /** p is the smallest table size that is at least n. */
  ghost predicate IsNextPrime(n: nat, p: nat) {
    IsTableSize(p) && n <= p && forall i :: 0 <= i < NUM_PRIMES && n <= Prime(i) ==> p <= Prime(i)
  }

  method NextPrime(n: nat) returns (p: nat)
    requires n < LARGEST
    ensures IsNextPrime(n, p)
  {
    var i := 0;
    while Prime(i) < n
      invariant i < NUM_PRIMES
      invariant forall j :: 0 <= j < i ==> Prime(j) < n
      decreases NUM_PRIMES - i
    {
      i := i + 1;
    }
    p := Prime(i);
    forall j | 0 <= j < NUM_PRIMES && n <= Prime(j) ensures p <= Prime(j) {
      PrimesAscend(i, j);
    }
  }

  lemma {:induction false} PrimesAscend(i: nat, j: nat)
    requires i <= j < NUM_PRIMES
    ensures Prime(i) <= Prime(j)
    decreases j
  {
    if i < j {
      PrimesAscend(i, j - 1);
    }
  }

  /** The largest table size that a C int holds: the loops over buckets count with an int. */
  const BIG := 1610612741

  lemma NextPrimeBig(n: nat, p: nat)
    requires IsNextPrime(n, p) && n <= BIG
    ensures p <= BIG
  {
    assert Prime(26) == BIG;
  }

  class Node {
    const name: string
    var data: Data
    var next: Node?

    constructor (name: string, data: Data, next: Node?)
      ensures this.name == name && this.data == data && this.next == next
    {
      this.name := name;
      this.data := data;
      this.next := next;
    }
  }

  function Slot(hash: string -> nat, name: string, size: nat): (i: nat)
    requires size > 0
    ensures i < size
  {
    hash(name) % size
  }

  /** What a table of linked nodes stands for: the chain of each bucket, the links as they are
      stored, and the map from names to data. */
  datatype Model = Model(
    chains: seq<seq<Node>>,
    nodes: set<Node>,
    heads: seq<Node?>,
    nexts: map<Node, Node?>,
    view: map<string, Data>)

  /** n points to the linked list of exactly these nodes. */
  ghost predicate IsList(nexts: map<Node, Node?>, n: Node?, c: seq<Node>) {
    if c == [] then n == null
    else n == c[0] && c[0] in nexts && IsList(nexts, nexts[c[0]], c[1..])
  }

  ghost predicate NoRepeats(c: seq<Node>) {
    forall j, k :: 0 <= j < k < |c| ==> c[j] != c[k]
  }

  /** Each node stands once, in the chain of its name's slot, and names are distinct. */
  ghost predicate Indexed(chains: seq<seq<Node>>, nodes: set<Node>, hash: string -> nat) {
    && |chains| > 0
    && (forall i, x :: 0 <= i < |chains| && x in chains[i] ==> x in nodes && Slot(hash, x.name, |chains|) == i)
    && (forall x :: x in nodes ==> x in chains[Slot(hash, x.name, |chains|)])
    && (forall x, y :: x in nodes && y in nodes && x.name == y.name ==> x == y)
    && (forall i :: 0 <= i < |chains| ==> NoRepeats(chains[i]))
  }

  ghost function Names(nodes: set<Node>): set<string> {
    set x | x in nodes :: x.name
  }

  ghost predicate Sound(m: Model, hash: string -> nat) {
    && Indexed(m.chains, m.nodes, hash)
    && AllLists(m)
    && m.view.Keys == Names(m.nodes)
    && |m.view| == |m.nodes|
  }

  /** The nodes of part hold the links and data of the model. */
  ghost predicate Keeps(m: Model, part: set<Node>)
    reads part
  {
    forall x :: x in part ==>
      x in m.nexts && x.next == m.nexts[x] && x.name in m.view && x.data == m.view[x.name]
  }

  /** The heap holds what the model says. */
  ghost predicate Mirrors(table: array<Node?>, m: Model)
    reads table, m.nodes
  {
    HeadsAre(table, m) && Keeps(m, m.nodes)
  }

  ghost predicate HeadsAre(table: array<Node?>, m: Model)
    reads table
  {
    table.Length == |m.heads| && forall i :: 0 <= i < |m.heads| ==> table[i] == m.heads[i]
  }

  // How the operations change the model.

  function EmptyModel(size: nat): Model {
    Model(seq(size, _ => []), {}, seq(size, _ => null), map[], map[])
  }

  function PushModel(m: Model, i: nat, n: Node, d: Data): Model
    requires i < |m.chains| && i < |m.heads|
  {
    Model(m.chains[i := [n] + m.chains[i]], m.nodes + {n}, m.heads[i := n],
          m.nexts[n := m.heads[i]], m.view[n.name := d])
  }

  function SetModel(m: Model, name: string, d: Data): Model {
    m.(view := m.view[name := d])
  }

  lemma EmptySound(size: nat, hash: string -> nat)
    requires size > 0
    ensures Sound(EmptyModel(size), hash)
  {
  }

  lemma IndexedCons(chains: seq<seq<Node>>, nodes: set<Node>, hash: string -> nat, x: Node)
    requires Indexed(chains, nodes, hash)
    requires forall y :: y in nodes ==> y.name != x.name
    ensures var i := Slot(hash, x.name, |chains|);
            Indexed(chains[i := [x] + chains[i]], nodes + {x}, hash)
  {
    hide Slot;
    var i := Slot(hash, x.name, |chains|);
    var chains' := chains[i := [x] + chains[i]];
    forall j, y | 0 <= j < |chains'| && y in chains'[j]
      ensures y in nodes + {x} && Slot(hash, y.name, |chains|) == j
    {
    }
    assert x !in chains[i];
    forall j | 0 <= j < |chains'| ensures NoRepeats(chains'[j]) {
      assert NoRepeats(chains[j]);
    }
  }

  /** A link that no node of the list has may be stored without changing the list. */
  lemma {:induction false} ListFrame(nexts: map<Node, Node?>, n: Node?, c: seq<Node>, x: Node, to: Node?)
    requires IsList(nexts, n, c) && x !in c
    ensures IsList(nexts[x := to], n, c)
  {
    if c != [] {
      ListFrame(nexts, nexts[c[0]], c[1..], x, to);
    }
  }

  ghost predicate AllLists(m: Model) {
    |m.heads| == |m.chains| && forall i :: 0 <= i < |m.chains| ==> IsList(m.nexts, m.heads[i], m.chains[i])
  }

  lemma ListCons(nexts: map<Node, Node?>, n: Node, c: seq<Node>)
    requires n in nexts && IsList(nexts, nexts[n], c)
    ensures IsList(nexts, n, [n] + c)
  {
    assert ([n] + c)[1..] == c;
  }

  lemma PushLists(m: Model, i: nat, n: Node, d: Data)
    requires AllLists(m) && i < |m.chains|
    requires forall j :: 0 <= j < |m.chains| ==> n !in m.chains[j]
    ensures AllLists(PushModel(m, i, n, d))
  {
    hide IsList;
    var m' := PushModel(m, i, n, d);
    forall j | 0 <= j < |m'.chains| ensures IsList(m'.nexts, m'.heads[j], m'.chains[j]) {
      ListFrame(m.nexts, m.heads[j], m.chains[j], n, m.heads[i]);
      if j == i {
        ListCons(m'.nexts, n, m.chains[i]);
      }
    }
  }

  lemma NamesPush(nodes: set<Node>, n: Node)
    ensures Names(nodes + {n}) == Names(nodes) + {n.name}
    ensures n.name !in Names(nodes) ==> n !in nodes && forall y :: y in nodes ==> y.name != n.name
  {
    forall y | y in nodes ensures y.name in Names(nodes) {}
  }

  lemma PushNames(m: Model, i: nat, n: Node, d: Data)
    requires i < |m.chains| && i < |m.heads|
    requires m.view.Keys == Names(m.nodes) && |m.view| == |m.nodes| && n.name !in m.view
    ensures n !in m.nodes && forall y :: y in m.nodes ==> y.name != n.name
    ensures var m' := PushModel(m, i, n, d);
            m'.view.Keys == Names(m'.nodes) && |m'.view| == |m'.nodes| == |m.nodes| + 1
  {
    hide Names;
    NamesPush(m.nodes, n);
    assert m.view[n.name := d].Keys == m.view.Keys + {n.name};
  }

  lemma PushSound(m: Model, hash: string -> nat, n: Node, d: Data)
    requires Sound(m, hash) && n.name !in m.view
    ensures n !in m.nodes && forall y :: y in m.nodes ==> y.name != n.name
    ensures |PushModel(m, Slot(hash, n.name, |m.chains|), n, d).nodes| == |m.nodes| + 1
    ensures Sound(PushModel(m, Slot(hash, n.name, |m.chains|), n, d), hash)
  {
    hide Indexed, Names, Slot, IsList;
    IndexedWithin(m.chains, m.nodes, hash);
    var i := Slot(hash, n.name, |m.chains|);
    PushNames(m, i, n, d);
    PushLists(m, i, n, d);
    IndexedCons(m.chains, m.nodes, hash, n);
  }

  lemma IndexedWithin(chains: seq<seq<Node>>, nodes: set<Node>, hash: string -> nat)
    requires Indexed(chains, nodes, hash)
    ensures |chains| > 0
    ensures forall i, x :: 0 <= i < |chains| && x in chains[i] ==> x in nodes
  {
  }

  lemma MirrorPush(table: array<Node?>, m: Model, i: nat, n: Node, d: Data)
    requires i < |m.chains| && i < |m.heads| == table.Length
    requires table[i] == n && n.next == m.heads[i] && n.data == d
    requires forall j :: 0 <= j < |m.heads| && j != i ==> table[j] == m.heads[j]
    requires Keeps(m, m.nodes)
    requires n !in m.nodes && forall x :: x in m.nodes ==> x.name != n.name
    ensures var m' := PushModel(m, i, n, d);
            Mirrors(table, m') && m'.nodes == m.nodes + {n} && |m'.chains| == |m.chains|
              && m'.view == m.view[n.name := d]
  {
  }

  lemma SameData(m: Model, name: string, d: Data)
    ensures name in m.view && m.view[name] == d ==> SetModel(m, name, d) == m
  {
    assert name in m.view && m.view[name] == d ==> m.view[name := d] == m.view;
  }

  lemma SetSound(m: Model, hash: string -> nat, name: string, d: Data)
    requires Sound(m, hash) && name in m.view
    ensures Sound(SetModel(m, name, d), hash)
  {
    hide Indexed, IsList, Names;
    assert m.view[name := d].Keys == m.view.Keys;
  }

  /** Where a name can be: only in its slot's chain, at most once. */
  lemma Located(m: Model, hash: string -> nat, name: string)
    requires Sound(m, hash)
    ensures forall x :: x in m.chains[Slot(hash, name, |m.chains|)] ==> x in m.nodes
    ensures forall x :: x in m.nodes && x.name == name ==> x in m.chains[Slot(hash, name, |m.chains|)]
    ensures name in m.view <==> exists x :: x in m.nodes && x.name == name
    ensures forall x, y :: x in m.nodes && y in m.nodes && x.name == name && y.name == name ==> x == y
  {
    hide AllLists, Slot, NoRepeats;
    assert name in m.view <==> name in Names(m.nodes);
  }

  lemma SoundParts(m: Model, hash: string -> nat)
    requires Sound(m, hash)
    ensures 0 < |m.chains| == |m.heads|
    ensures forall i :: 0 <= i < |m.chains| ==> IsList(m.nexts, m.heads[i], m.chains[i])
  {
  }

  // Walking over all buckets.

  /** The nodes of the buckets before i, and the first k nodes of bucket i. */
  ghost function Visited(chains: seq<seq<Node>>, i: nat, k: nat): set<Node>
    requires i <= |chains| && (i < |chains| ==> k <= |chains[i]|)
  {
    (set j, x | 0 <= j < i && x in chains[j] :: x) + (if i < |chains| then set x | x in chains[i][..k] else {})
  }

  lemma VisitedNone(chains: seq<seq<Node>>)
    ensures Visited(chains, 0, 0) == {}
  {
  }

  lemma VisitedStep(chains: seq<seq<Node>>, nodes: set<Node>, hash: string -> nat, i: nat, k: nat)
    requires Indexed(chains, nodes, hash) && i < |chains| && k < |chains[i]|
    ensures chains[i][k] in nodes && chains[i][k] !in Visited(chains, i, k)
    ensures Visited(chains, i, k + 1) == Visited(chains, i, k) + {chains[i][k]}
  {
    hide Slot;
    var x := chains[i][k];
    assert x in chains[i];
    assert NoRepeats(chains[i]);
    assert chains[i][..k + 1] == chains[i][..k] + [x];
  }

  lemma VisitedBucket(chains: seq<seq<Node>>, i: nat)
    requires i < |chains|
    ensures Visited(chains, i, |chains[i]|) == Visited(chains, i + 1, 0)
  {
    assert chains[i][..|chains[i]|] == chains[i];
  }

  lemma VisitedAll(chains: seq<seq<Node>>, nodes: set<Node>, hash: string -> nat)
    requires Indexed(chains, nodes, hash)
    ensures Visited(chains, |chains|, 0) == nodes
  {
    hide Slot, NoRepeats;
    forall x | x in nodes ensures x in Visited(chains, |chains|, 0) {
      assert x in chains[Slot(hash, x.name, |chains|)];
    }
  }

  lemma VisitedWithin(chains: seq<seq<Node>>, nodes: set<Node>, hash: string -> nat, i: nat, k: nat)
    requires Indexed(chains, nodes, hash)
    requires i <= |chains| && (i < |chains| ==> k <= |chains[i]|)
    ensures Visited(chains, i, k) <= nodes && |Visited(chains, i, k)| <= |nodes|
  {
    hide Slot, NoRepeats;
    SubsetSize(Visited(chains, i, k), nodes);
  }

  lemma SoundVisit(m: Model, hash: string -> nat, i: nat, k: nat)
    requires Sound(m, hash) && i < |m.chains| && k < |m.chains[i]|
    ensures m.chains[i][k] in m.nodes && m.chains[i][k] !in Visited(m.chains, i, k)
    ensures Visited(m.chains, i, k + 1) == Visited(m.chains, i, k) + {m.chains[i][k]}
    ensures Visited(m.chains, i, k) <= m.nodes && |Visited(m.chains, i, k)| < |m.nodes|
  {
    hide Indexed, AllLists, Names, Visited;
    VisitedStep(m.chains, m.nodes, hash, i, k);
    VisitedWithin(m.chains, m.nodes, hash, i, k);
    VisitedWithin(m.chains, m.nodes, hash, i, k + 1);
  }

  lemma SoundVisitAll(m: Model, hash: string -> nat)
    requires Sound(m, hash)
    ensures Visited(m.chains, |m.chains|, 0) == m.nodes
  {
    hide Indexed, AllLists, Names, Visited;
    VisitedAll(m.chains, m.nodes, hash);
  }

  lemma {:induction false} SubsetSize<T>(a: set<T>, b: set<T>)
    requires a <= b
    ensures |a| <= |b|
  {
    if a != {} {
      var x :| x in a;
      SubsetSize(a - {x}, b - {x});
    }
  }

  /** The part of a map that has the given names. */
  ghost function Part(view: map<string, Data>, names: set<string>): map<string, Data> {
    map k | k in view && k in names :: view[k]
  }

  lemma PartStep(m: Model, hash: string -> nat, done: set<Node>, x: Node)
    requires Sound(m, hash) && x in m.nodes
    ensures x.name in m.view && Names(done + {x}) == Names(done) + {x.name}
    ensures Part(m.view, Names(done + {x})) == Part(m.view, Names(done))[x.name := m.view[x.name]]
  {
    hide Indexed, AllLists;
    assert x.name in Names(m.nodes);
  }

  lemma PartAll(m: Model, hash: string -> nat)
    requires Sound(m, hash)
    ensures Part(m.view, Names({})) == map[] && Part(m.view, Names(m.nodes)) == m.view
  {
    hide Indexed, AllLists;
  }

  // Relinking into a larger table.

  /** While nodes move: those in done are linked into newTable, the others are as they were. */
  ghost predicate Moving(newTable: array<Node?>, m: Model, m2: Model, hash: string -> nat, done: set<Node>)
    reads newTable, m.nodes
  {
    && Sound(m2, hash) && m2.nodes == done && done <= m.nodes
    && Mirrors(newTable, m2)
    && (forall x :: x in done ==> x.name in m.view && x.name in m2.view && m2.view[x.name] == m.view[x.name])
    && (forall x :: x in m.nodes && x !in done ==>
          x in m.nexts && x.next == m.nexts[x] && x.name in m.view && x.data == m.view[x.name])
  }

  lemma NameUnused(m: Model, m2: Model, hash: string -> nat, x: Node)
    requires Sound(m, hash) && Sound(m2, hash) && m2.nodes <= m.nodes
    requires x in m.nodes && x !in m2.nodes
    ensures x.name !in m2.view
  {
    hide AllLists, Slot, NoRepeats;
    forall y | y in m2.nodes ensures y.name != x.name {}
  }

  lemma MovingStep(newTable: array<Node?>, m: Model, m2: Model, hash: string -> nat, done: set<Node>, bucket: Node)
    requires Sound(m, hash) && Sound(m2, hash) && m2.nodes == done && done <= m.nodes
    requires bucket in m.nodes && bucket !in done && bucket.name in m.view && bucket.data == m.view[bucket.name]
    requires |m2.chains| > 0 && newTable.Length == |m2.heads| == |m2.chains|
    requires Keeps(m2, done) && Keeps(m, m.nodes - done - {bucket})
    requires forall x :: x in done ==> x.name in m.view && x.name in m2.view && m2.view[x.name] == m.view[x.name]
    requires var i := Slot(hash, bucket.name, |m2.chains|);
             newTable[i] == bucket && bucket.next == m2.heads[i]
             && forall j :: 0 <= j < |m2.heads| && j != i ==> newTable[j] == m2.heads[j]
    ensures var m2' := PushModel(m2, Slot(hash, bucket.name, |m2.chains|), bucket, bucket.data);
            Moving(newTable, m, m2', hash, done + {bucket}) && |m2'.chains| == |m2.chains|
  {
    hide Sound, Slot, PushModel;
    NameUnused(m, m2, hash, bucket);
    PushSound(m2, hash, bucket, bucket.data);
    MirrorPush(newTable, m2, Slot(hash, bucket.name, |m2.chains|), bucket, bucket.data);
  }

  lemma MovingParts(newTable: array<Node?>, m: Model, m2: Model, hash: string -> nat, done: set<Node>)
    requires Moving(newTable, m, m2, hash, done)
    ensures Sound(m2, hash) && m2.nodes == done && done <= m.nodes
    ensures 0 < newTable.Length == |m2.heads| == |m2.chains|
    ensures forall i :: 0 <= i < |m2.heads| ==> newTable[i] == m2.heads[i]
    ensures Keeps(m2, done) && Keeps(m, m.nodes - done)
    ensures forall x :: x in done ==> x.name in m.view && x.name in m2.view && m2.view[x.name] == m.view[x.name]
  {
    hide Sound;
    SoundParts(m2, hash);
  }

  method MoveNode(bucket: Node, newTable: array<Node?>, hash: string -> nat,
                  ghost m: Model, ghost m2: Model, ghost done: set<Node>)
    returns (nextBucket: Node?, ghost m2': Model)
    requires Sound(m, hash) && Moving(newTable, m, m2, hash, done)
    requires bucket in m.nodes && bucket !in done && bucket in m.nexts
    modifies bucket, newTable
    ensures Moving(newTable, m, m2', hash, done + {bucket}) && |m2'.chains| == |m2.chains|
    ensures nextBucket == m.nexts[bucket]
  {
    hide Sound, Slot, Moving;
    MovingParts(newTable, m, m2, hash, done);
    var newIdx := Slot(hash, bucket.name, newTable.Length);
    nextBucket := bucket.next;
    bucket.next := newTable[newIdx];
    newTable[newIdx] := bucket;
    MovingStep(newTable, m, m2, hash, done, bucket);
    m2' := PushModel(m2, newIdx, bucket, bucket.data);
  }

  method RelinkBucket(head: Node?, newTable: array<Node?>, hash: string -> nat, ghost i: nat, ghost m: Model,
                      ghost m2: Model)
    returns (ghost m2': Model)
    requires Sound(m, hash) && i < |m.chains| && IsList(m.nexts, head, m.chains[i])
    requires Moving(newTable, m, m2, hash, Visited(m.chains, i, 0))
    modifies m.nodes, newTable
    ensures Moving(newTable, m, m2', hash, Visited(m.chains, i + 1, 0)) && |m2'.chains| == |m2.chains|
  {
    hide Sound, Visited, Moving;
    ghost var c := m.chains[i];
    ghost var k := 0;
    m2' := m2;
    var bucket := head;
    assert c[0..] == c;
    while bucket != null
      invariant k <= |c| && IsList(m.nexts, bucket, c[k..])
      invariant Moving(newTable, m, m2', hash, Visited(m.chains, i, k)) && |m2'.chains| == |m2.chains|
      decreases |c| - k
    {
      assert c[k..][1..] == c[k + 1..];
      SoundVisit(m, hash, i, k);
      bucket, m2' := MoveNode(bucket, newTable, hash, m, m2', Visited(m.chains, i, k));
      k := k + 1;
    }
    VisitedBucket(m.chains, i);
  }

  lemma MovingStart(table: array<Node?>, newTable: array<Node?>, m: Model, hash: string -> nat)
    requires newTable.Length > 0 && forall i :: 0 <= i < newTable.Length ==> newTable[i] == null
    requires Mirrors(table, m)
    ensures Moving(newTable, m, EmptyModel(newTable.Length), hash, {})
    ensures |EmptyModel(newTable.Length).chains| == newTable.Length
  {
    hide Sound;
    EmptySound(newTable.Length, hash);
  }

  lemma MirrorsHeads(table: array<Node?>, m: Model)
    requires Mirrors(table, m)
    ensures table.Length == |m.heads| && forall i :: 0 <= i < |m.heads| ==> table[i] == m.heads[i]
  {
  }

  /** Once all nodes have moved, the new model stands for the same map. */
  lemma AllMoved(newTable: array<Node?>, m: Model, m2: Model, hash: string -> nat)
    requires Sound(m, hash) && Moving(newTable, m, m2, hash, m.nodes)
    ensures m2.view == m.view && Mirrors(newTable, m2) && Sound(m2, hash) && m2.nodes == m.nodes
  {
    hide Indexed, AllLists, Mirrors;
    forall k | k in m.view ensures k in m2.view && m2.view[k] == m.view[k] {
      assert k in Names(m.nodes);
    }
    assert m2.view.Keys == m.view.Keys;
  }

  lemma MirrorsKeeps(table: array<Node?>, m: Model)
    requires Mirrors(table, m)
    ensures Keeps(m, m.nodes)
  {
  }

  lemma KeepsAt(m: Model, x: Node)
    requires Keeps(m, m.nodes) && x in m.nodes
    ensures x in m.nexts && x.next == m.nexts[x] && x.name in m.view && x.data == m.view[x.name]
  {
  }

  lemma MirrorsAt(table: array<Node?>, m: Model, x: Node)
    requires Mirrors(table, m) && x in m.nodes
    ensures x in m.nexts && x.next == m.nexts[x] && x.name in m.view && x.data == m.view[x.name]
  {
  }

  /** ret starts with the nodes of order, which are those of done, once each. */
  ghost predicate Listed(ret: array<Node?>, order: seq<Node>, done: set<Node>)
    reads ret
  {
    && |order| == |done| && |order| < ret.Length
    && NoRepeats(order)
    && Elements(order) == done
    && (forall t :: 0 <= t < |order| ==> ret[t] == order[t])
  }

  lemma ListedNone(ret: array<Node?>)
    requires ret.Length > 0
    ensures Listed(ret, [], {})
  {
  }

  lemma ListedAll(ret: array<Node?>, order: seq<Node>, nodes: set<Node>)
    requires Listed(ret, order, nodes)
    ensures |order| == |nodes| && NoRepeats(order) && Elements(order) == nodes
    ensures |order| <= ret.Length && forall t :: 0 <= t < |order| ==> ret[t] == order[t]
  {
  }

  method PutNext(ret: array<Node?>, j: nat, x: Node, ghost order: seq<Node>, ghost done: set<Node>) returns (j': nat)
    requires j == |order| && Listed(ret, order, done) && x !in done && |done| + 1 < ret.Length
    modifies ret
    ensures j' == j + 1 && Listed(ret, order + [x], done + {x})
    ensures ret[ret.Length - 1] == old(ret[ret.Length - 1])
  {
    ret[j] := x;
    j' := j + 1;
    assert Elements(order + [x]) == done + {x};
  }

  class HashSet {
    const hash: string -> nat
    var hashsize: nat
    var table: array<Node?>
    var members: nat
    ghost var m: Model
    ghost var live: bool
    ghost var Repr: set<object>

    ghost predicate Valid()
      reads this, Repr
      ensures Valid() ==> live && this in Repr && members == |m.view| <= hashsize <= BIG && IsTableSize(hashsize)
    {
      && live && this in Repr && table in Repr && m.nodes <= Repr
      && hashsize == |m.chains| && IsTableSize(hashsize)
      && members == |m.nodes| <= hashsize <= BIG
      && Sound(m, hash)
      && Mirrors(table, m)
    }

    /** The set as a map from names to data. */
    ghost function View(): map<string, Data>
      reads this
    {
      m.view
    }

    lemma Parts()
      requires Valid()
      ensures table in Repr && m.nodes <= Repr && members == |m.nodes|
      ensures Sound(m, hash) && hashsize == |m.chains| == |m.heads| == table.Length
      ensures forall i :: 0 <= i < hashsize ==> table[i] == m.heads[i]
    {
      hide Sound, Keeps;
      SoundParts(m, hash);
    }

    lemma PartsAt(x: Node)
      requires Valid() && x in m.nodes
      ensures x in m.nexts && x.next == m.nexts[x] && x.name in m.view && x.data == m.view[x.name]
    {
      hide Sound;
    }

    lemma ValidParts()
      requires Valid()
      ensures live && this in Repr && table in Repr && m.nodes <= Repr && members == |m.nodes| <= hashsize <= BIG
      ensures hashsize == |m.chains| == |m.heads| == table.Length && IsTableSize(hashsize)
      ensures Sound(m, hash) && Mirrors(table, m) && View() == m.view
    {
      hide Sound, Keeps;
      SoundParts(m, hash);
    }

    lemma NowValid()
      requires live && this in Repr && table in Repr && m.nodes <= Repr && members == |m.nodes| <= hashsize <= BIG
      requires hashsize == |m.chains| && IsTableSize(hashsize) && Sound(m, hash) && Mirrors(table, m)
      ensures Valid() && View() == m.view
    {
      hide Keeps, HeadsAre, Indexed, AllLists, Names;
    }

    /** set_new */
    constructor (hash: string -> nat, size: nat)
      requires size <= BIG
      ensures Valid() && fresh(Repr) && View() == map[] && members == 0 && this.hash == hash
      ensures IsNextPrime(size, hashsize)
    {
      hide Sound, IsTableSize, Prime;
      this.hash := hash;
      var n := NextPrime(size);
      NextPrimeBig(size, n);
      hashsize := n;
      var t := new Node?[n](_ => null);
      table := t;
      members := 0;
      m := EmptyModel(n);
      live := true;
      Repr := {this, t};
      TableSizePositive(n);
      EmptySound(n, hash);
    }

    /** set_destroy: a set is destroyed once, and not used again. */
    method Destroy()
      requires live
      modifies this`live
      ensures !live && !Valid()
    {
      live := false;
    }

    /** The node with this name, or null (set_get). */
    method Get(name: string) returns (r: Node?)
      requires Valid()
      ensures r == null <==> name !in View()
      ensures r != null ==> r in m.nodes && r.name == name && r.data == View()[name]
    {
      hide Sound, IsTableSize, Slot;
      SoundParts(m, hash);
      Located(m, hash, name);
      var i := Slot(hash, name, hashsize);
      ghost var c := m.chains[i];
      ghost var k := 0;
      var n := table[i];
      assert c[0..] == c;
      while n != null
        invariant k <= |c| && IsList(m.nexts, n, c[k..])
        invariant forall j :: 0 <= j < k ==> c[j].name != name
        decreases |c| - k
      {
        assert c[k..][1..] == c[k + 1..];
        assert c[k] in c;
        if n.name == name {
          return n;
        }
        n := n.next;
        k := k + 1;
      }
      r := null;
    }

    /** set_get_data */
    method GetData(name: string) returns (d: Data)
      requires Valid()
      ensures d == if name in View() then View()[name] else None
    {
      hide Valid;
      var e := Get(name);
      d := if e != null then e.data else None;
    }

    /** set_add_noresize */
    method AddNoResize(name: string, data: Data)
      requires Valid()
      requires name in View() || members < hashsize
      modifies Repr
      ensures Valid() && fresh(Repr - old(Repr))
      ensures View() == old(View())[name := data]
      ensures hashsize == old(hashsize) && members <= old(members) + 1
      ensures name in old(View()) && old(View())[name] == data ==> m == old(m) && Repr == old(Repr)
    {
      hide Valid, View;
      var e := Get(name);
      if e != null {
        SetData(e, data);
      } else {
        PushNew(name, data);
      }
    }

    method SetData(e: Node, data: Data)
      requires Valid() && e in m.nodes && e.name in View()
      modifies Repr
      ensures Valid() && Repr == old(Repr)
      ensures View() == old(View())[e.name := data]
      ensures hashsize == old(hashsize) && members == old(members)
      ensures old(View())[e.name] == data ==> m == old(m)
    {
      hide Sound, IsTableSize, Slot, IsList;
      Located(m, hash, e.name);
      SetSound(m, hash, e.name, data);
      e.data := data;
      SameData(m, e.name, data);
      m := SetModel(m, e.name, data);
    }

    method PushNew(name: string, data: Data)
      requires Valid() && name !in View() && members < hashsize
      modifies Repr
      ensures Valid() && fresh(Repr - old(Repr))
      ensures View() == old(View())[name := data]
      ensures hashsize == old(hashsize) && members == old(members) + 1
    {
      hide Valid, View, Sound, IsTableSize, Slot, PushModel, Keeps, Mirrors;
      ValidParts();
      SoundParts(m, hash);
      MirrorsHeads(table, m);
      MirrorsKeeps(table, m);
      var i := Slot(hash, name, hashsize);
      var n := new Node(name, data, table[i]);
      PushSound(m, hash, n, data);
      table[i] := n;
      members := members + 1;
      ghost var m0 := m;
      m := PushModel(m0, i, n, data);
      Repr := Repr + {n};
      MirrorPush(table, m0, i, n, data);
      NowValid();
    }

    /** set_add */
    method Add(name: string, data: Data)
      requires Valid() && members < BIG
      modifies Repr
      ensures Valid() && fresh(Repr - old(Repr))
      ensures View() == old(View())[name := data] && members <= old(members) + 1
      ensures hashsize == old(hashsize) || IsNextPrime(old(members) + 1, hashsize)
    {
      hide Valid, View, IsNextPrime;
      Resize(members + 1);
      AddNoResize(name, data);
    }

    /** resize: relinks every node into a larger table when the hint asks for one. */
    method Resize(hint: nat)
      requires Valid() && hint <= BIG
      modifies Repr
      ensures Valid() && fresh(Repr - old(Repr))
      ensures View() == old(View()) && members == old(members)
      ensures hashsize >= hint
      ensures hint <= old(hashsize) ==> hashsize == old(hashsize)
      ensures hint > old(hashsize) ==> IsNextPrime(hint, hashsize)
    {
      if hashsize < hint {
        var n := NextPrime(hint);
        NextPrimeBig(hint, n);
        if n > hashsize {
          Relink(n);
        }
      }
    }

    /** Moves every node to the front of its bucket in a table of n buckets. */
    method Relink(n: nat)
      requires Valid() && IsTableSize(n) && hashsize < n <= BIG
      modifies Repr
      ensures Valid() && fresh(Repr - old(Repr))
      ensures View() == old(View()) && members == old(members) && hashsize == n
    {
      hide Sound, IsTableSize, Slot, PushModel, Visited, Mirrors, Moving, EmptyModel;
      var newTable := new Node?[n](_ => null);
      SoundParts(m, hash);
      TableSizePositive(n);
      VisitedNone(m.chains);
      MovingStart(table, newTable, m, hash);
      MirrorsHeads(table, m);
      ghost var m2 := EmptyModel(n);
      for i := 0 to hashsize
        modifies m.nodes, newTable
        invariant Moving(newTable, m, m2, hash, Visited(m.chains, i, 0))
        invariant |m2.chains| == n
      {
        m2 := RelinkBucket(table[i], newTable, hash, i, m, m2);
      }
      SoundVisitAll(m, hash);
      AllMoved(newTable, m, m2, hash);
      table := newTable;
      hashsize := n;
      m := m2;
      Repr := Repr + {newTable};
    }

    /** set_members: the nodes, in bucket order, and a null pointer. */
    method Members() returns (ret: array<Node?>, ghost order: seq<Node>)
      requires Valid()
      ensures fresh(ret) && ret.Length == members + 1 && ret[members] == null
      ensures |order| == members && forall t :: 0 <= t < members ==> ret[t] == order[t]
      ensures NoRepeats(order) && Elements(order) == m.nodes
    {
      hide Sound, IsTableSize, Slot, Visited, Keeps, Listed, NoRepeats, Mirrors;
      SoundParts(m, hash);
      MirrorsHeads(table, m);
      MirrorsKeeps(table, m);
      VisitedNone(m.chains);
      ret := new Node?[members + 1](_ => null);
      order := [];
      var j := 0;
      ListedNone(ret);
      for i := 0 to hashsize
        modifies ret
        invariant j == |order| && Listed(ret, order, Visited(m.chains, i, 0)) && ret[members] == null
      {
        ghost var c := m.chains[i];
        ghost var k := 0;
        var n := table[i];
        assert c[0..] == c;
        while n != null
          modifies ret
          invariant j == |order| && k <= |c| && IsList(m.nexts, n, c[k..])
          invariant Listed(ret, order, Visited(m.chains, i, k)) && ret[members] == null
          decreases |c| - k
        {
          assert c[k..][1..] == c[k + 1..];
          SoundVisit(m, hash, i, k);
          KeepsAt(m, n);
          j := PutNext(ret, j, n, order, Visited(m.chains, i, k));
          order := order + [n];
          n := n.next;
          k := k + 1;
        }
        VisitedBucket(m.chains, i);
      }
      SoundVisitAll(m, hash);
      ListedAll(ret, order, m.nodes);
    }
  }
}
