/** Whole runs of operations on two sets, against two plain maps. */
module SetRuns {
  import opened Text
  import opened HashSets
  import SetAlgebra
  import SetRemove

  type View = map<string, Data>

  datatype Reg = A | B

  datatype Views = Views(a: View, b: View)

  function At(v: Views, r: Reg): View {
    if r.A? then v.a else v.b
  }

  function With(v: Views, r: Reg, x: View): Views {
    if r.A? then v.(a := x) else v.(b := x)
  }

  datatype Action =
    | Add(name: string, data: Data)
    | AddNoResize(name: string, data: Data)
    | Remove(name: string)
    | Lookup(name: string)
    | UnionInplace    // the destination gains the elements of the source
    | DiffInplace     // the destination loses the names of the source
    | Intersect       // a new set of the common elements takes the destination's place

  /** An operation on the set dst; src, which may be dst itself, is the other operand. */
  datatype Op = Op(dst: Reg, src: Reg, action: Action)

  /** The common names, with the data that set_intersect takes. */
  function Common(x: View, y: View): View {
    if |x| < |y| then map k | k in x && k in y :: x[k] else map k | k in x && k in y :: y[k]
  }

  function Changed(x: View, y: View, action: Action): View {
    match action
    case Add(n, d) => x[n := d]
    case AddNoResize(n, d) => x[n := d]
    case Remove(n) => x - {n}
    case Lookup(_) => x
    case UnionInplace => x + y
    case DiffInplace => x - y.Keys
    case Intersect => Common(x, y)
  }

  function Answer(x: View, action: Action): seq<Data> {
    match action
    case Lookup(k) => [if k in x then x[k] else None]
    case _ => []
  }

  function After(v: Views, op: Op): Views {
    With(v, op.dst, Changed(At(v, op.dst), At(v, op.src), op.action))
  }

  /** The table sizes of the source reach what the operation asks for. */
  predicate Room(x: View, y: View, action: Action) {
    match action
    case Add(_, _) => |x| < BIG
    case AddNoResize(_, _) => |x| < BIG
    case UnionInplace => |x| + |y| <= BIG
    case _ => true
  }

  /** The maps after the operations, from two empty ones. */
  function ViewsAfter(ops: seq<Op>): Views {
    if ops == [] then Views(map[], map[]) else After(ViewsAfter(ops[..|ops| - 1]), ops[|ops| - 1])
  }

  /** What the lookups of a run must answer. */
  function Answers(ops: seq<Op>): seq<Data> {
    if ops == [] then []
    else
      var n := |ops| - 1;
      Answers(ops[..n]) + Answer(At(ViewsAfter(ops[..n]), ops[n].dst), ops[n].action)
  }

  /** At each step of the run there is room. */
  ghost predicate HasRoom(ops: seq<Op>) {
    forall i :: 0 <= i < |ops| ==> RoomAt(ViewsAfter(ops[..i]), ops[i])
  }

  predicate RoomAt(v: Views, op: Op) {
    Room(At(v, op.dst), At(v, op.src), op.action)
  }

  lemma RunStep(ops: seq<Op>, i: nat)
    requires i < |ops|
    ensures ViewsAfter(ops[..i + 1]) == After(ViewsAfter(ops[..i]), ops[i])
    ensures Answers(ops[..i + 1])
         == Answers(ops[..i]) + Answer(At(ViewsAfter(ops[..i]), ops[i].dst), ops[i].action)
  {
    hide After, Answer;
    assert ops[..i + 1][..i] == ops[..i];
  }

  /** The set stands for the map. */
  ghost predicate Holds(s: HashSet, x: View)
    reads s, s.Repr
  {
    s.Valid() && s.View() == x
  }

  lemma HoldsParts(s: HashSet, x: View)
    requires Holds(s, x)
    ensures s.Valid() && s.View() == x && s.members == |x| && s in s.Repr
  {
    hide Sound, Mirrors;
  }

  lemma NowHolds(s: HashSet, x: View)
    requires s.Valid() && s.View() == x
    ensures Holds(s, x)
  {
  }

  lemma CommonIs(x: View, y: View, z: View)
    requires z.Keys == x.Keys * y.Keys
    requires forall k :: k in z ==> z[k] == if |x| < |y| then x[k] else y[k]
    ensures z == Common(x, y)
  {
    var c := Common(x, y);
    assert forall k :: k in z <==> k in x && k in y by {
      assert forall k :: k in z.Keys <==> k in x.Keys && k in y.Keys;
    }
    assert forall k :: k in c <==> k in x && k in y;
  }

  /** One element more, without resizing only where one bucket for each element is left. */
  method Gain(x: HashSet, name: string, data: Data, resize: bool, ghost vx: View)
    requires Holds(x, vx) && |vx| < BIG
    modifies x.Repr
    ensures Holds(x, vx[name := data]) && fresh(x.Repr - old(x.Repr))
  {
    hide HashSet.Valid, HashSet.View, IsNextPrime, IsTableSize, Holds;
    HoldsParts(x, vx);
    if resize || x.members >= x.hashsize {
      x.Add(name, data);
    } else {
      x.AddNoResize(name, data);
    }
    NowHolds(x, vx[name := data]);
  }

  method Unite(x: HashSet, y: HashSet, ghost vx: View, ghost vy: View)
    requires Holds(x, vx) && Holds(y, vy) && (x == y || x.Repr !! y.Repr) && |vx| + |vy| <= BIG
    modifies x.Repr
    ensures Holds(x, vx + vy) && fresh(x.Repr - old(x.Repr))
  {
    hide HashSet.Valid, HashSet.View, IsNextPrime, IsTableSize, Holds, SetAlgebra.ApartOrSame;
    HoldsParts(x, vx);
    HoldsParts(y, vy);
    SetAlgebra.Apart(x, y);
    SetAlgebra.UnionInplace(x, y);
    NowHolds(x, vx + vy);
  }

  method Lose(x: HashSet, y: HashSet, ghost vx: View, ghost vy: View)
    requires Holds(x, vx) && Holds(y, vy) && (x == y || x.Repr !! y.Repr)
    modifies x.Repr
    ensures Holds(x, vx - vy.Keys) && x.Repr == old(x.Repr)
  {
    hide HashSet.Valid, HashSet.View, IsTableSize, Holds;
    HoldsParts(x, vx);
    HoldsParts(y, vy);
    SetRemove.DiffInplace(x, y);
    NowHolds(x, vx - vy.Keys);
  }

  method Meet(x: HashSet, y: HashSet, ghost vx: View, ghost vy: View) returns (s: HashSet)
    requires Holds(x, vx) && Holds(y, vy)
    ensures Holds(s, Common(vx, vy)) && fresh(s.Repr)
  {
    hide HashSet.Valid, HashSet.View, IsTableSize, Holds, Common;
    HoldsParts(x, vx);
    HoldsParts(y, vy);
    s := SetAlgebra.Intersect(x, y);
    CommonIs(vx, vy, s.View());
    NowHolds(s, Common(vx, vy));
  }

  method Drop(x: HashSet, name: string, ghost vx: View)
    requires Holds(x, vx)
    modifies x.Repr
    ensures Holds(x, vx - {name}) && x.Repr == old(x.Repr)
  {
    hide HashSet.Valid, HashSet.View, IsTableSize, Holds;
    HoldsParts(x, vx);
    SetRemove.Remove(x, name);
    NowHolds(x, vx - {name});
  }

  /** One operation on the set x, with y as its other operand. */
  method Change(x: HashSet, y: HashSet, action: Action, ghost vx: View, ghost vy: View)
    returns (x': HashSet, answer: seq<Data>)
    requires Holds(x, vx) && Holds(y, vy) && (x == y || x.Repr !! y.Repr) && Room(vx, vy, action)
    modifies x.Repr
    ensures Holds(x', Changed(vx, vy, action)) && answer == Answer(vx, action)
    ensures fresh(x'.Repr - old(x.Repr))
  {
    hide HashSet.Valid, HashSet.View, Holds, Common;
    x', answer := x, [];
    match action
    case Add(n, d) => Gain(x, n, d, true, vx);
    case AddNoResize(n, d) => Gain(x, n, d, false, vx);
    case Remove(n) => Drop(x, n, vx);
    case Lookup(n) =>
      HoldsParts(x, vx);
      var d := x.GetData(n);
      answer := [d];
    case UnionInplace => Unite(x, y, vx, vy);
    case DiffInplace => Lose(x, y, vx, vy);
    case Intersect => x' := Meet(x, y, vx, vy);
  }

  /** One operation on two sets that share nothing. */
  method Apply(s: HashSet, t: HashSet, op: Op, ghost v: Views) returns (s': HashSet, t': HashSet, answer: seq<Data>)
    requires Holds(s, v.a) && Holds(t, v.b) && s.Repr !! t.Repr && RoomAt(v, op)
    modifies s.Repr, t.Repr
    ensures Holds(s', After(v, op).a) && Holds(t', After(v, op).b) && s'.Repr !! t'.Repr
    ensures answer == Answer(At(v, op.dst), op.action)
    ensures fresh(s'.Repr - old(s.Repr)) && fresh(t'.Repr - old(t.Repr))
  {
    hide Holds, Changed, Answer, Room;
    HoldsParts(s, v.a);
    HoldsParts(t, v.b);
    var x, y := if op.dst.A? then s else t, if op.src.A? then s else t;
    s', t' := s, t;
    if op.dst.A? {
      s', answer := Change(x, y, op.action, v.a, At(v, op.src));
    } else {
      t', answer := Change(x, y, op.action, v.b, At(v, op.src));
    }
  }

  /** After every run of operations both tables are well linked and hold their maps, and every
      lookup on the way answered from them. */
  method Run(hash: string -> nat, sizeA: nat, sizeB: nat, ops: seq<Op>) returns (s: HashSet, t: HashSet, answers: seq<Data>)
    requires sizeA <= BIG && sizeB <= BIG && HasRoom(ops)
    ensures s.Valid() && s.View() == ViewsAfter(ops).a
    ensures t.Valid() && t.View() == ViewsAfter(ops).b
    ensures answers == Answers(ops)
  {
    hide HashSet.Valid, IsNextPrime, IsTableSize, HashSet.View, After, Holds, RoomAt, Answer;
    s := new HashSet(hash, sizeA);
    NowHolds(s, map[]);
    t := new HashSet(hash, sizeB);
    NowHolds(t, map[]);
    answers := [];
    var i := 0;
    while i < |ops|
      invariant i <= |ops| && fresh(s.Repr) && fresh(t.Repr) && s.Repr !! t.Repr
      invariant Holds(s, ViewsAfter(ops[..i]).a) && Holds(t, ViewsAfter(ops[..i]).b)
      invariant answers == Answers(ops[..i])
    {
      RunStep(ops, i);
      var answer;
      s, t, answer := Apply(s, t, ops[i], ViewsAfter(ops[..i]));
      answers := answers + answer;
      i := i + 1;
    }
    assert ops[..i] == ops;
    HoldsParts(s, ViewsAfter(ops).a);
    HoldsParts(t, ViewsAfter(ops).b);
  }
}
