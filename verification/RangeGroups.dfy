/** How many groups are printed, and when the loop mistakes an unnumbered name for the start
    of a run. */
module RangeGroups {
  import opened Text
  import opened NodeParts
  import opened RangeSort
  import opened RangeCompress

  predicate Numbered(x: string) {
    NodeToParts(x).numStr.Some?
  }

  function NumWidth(x: string): nat
    requires Numbered(x)
  {
    |NodeToParts(x).numStr.value|
  }

  /** y is the successor of x: same prefix, domain and width, number one higher. */
  predicate IsNext(x: string, y: string) {
    var a, b := NodeToParts(x), NodeToParts(y);
    && Numbered(x) && Numbered(y)
    && a.prefix == b.prefix && a.domain == b.domain
    && b.num == a.num + 1 && NumWidth(x) == NumWidth(y)
  }

  /** x consists of digits and has the given value. */
  predicate IsBare(x: string, value: int) {
    var a := NodeToParts(x);
    Numbered(x) && a.prefix == "" && a.domain == "" && a.num == value
  }

  /** The family the grouping loop gets wrong, stated on the set of names: with z the last
      name of value zero and y the first of value one, z and y are equally wide and some
      unnumbered name sorts after z. */
  ghost predicate StaleWidth(names: set<string>) {
    exists z, u, y :: StaleTriple(names, z, u, y)
  }

  ghost predicate StaleTriple(names: set<string>, z: string, u: string, y: string) {
    && z in names && u in names && y in names
    && IsBare(z, 0) && !Numbered(u) && IsBare(y, 1)
    && Before(z, u)
    && NumWidth(z) == NumWidth(y)
    && (forall x :: x in names && IsBare(x, 0) ==> !Before(z, x))
    && (forall x :: x in names && IsBare(x, 1) ==> !Before(x, y))
  }

  /** No unnumbered name is continued. */
  ghost predicate Clean(s: seq<string>) {
    forall i :: Joins(s, i) ==> Numbered(s[i - 1])
  }

  lemma {:induction false} LastWidthFound(s: seq<string>) returns (a: int)
    ensures LastWidth(s) < 0 ==> forall i :: 0 <= i < |s| ==> !Numbered(s[i])
    ensures LastWidth(s) >= 0 ==>
              0 <= a < |s| && Numbered(s[a]) && NumWidth(s[a]) == LastWidth(s)
              && forall i :: a < i < |s| ==> !Numbered(s[i])
  {
    a := |s| - 1;
    if s != [] && !Numbered(s[a]) {
      a := LastWidthFound(s[..a]);
    }
  }

  lemma {:induction false} LastWidthIs(s: seq<string>, a: nat)
    requires a < |s| && Numbered(s[a])
    requires forall i :: a < i < |s| ==> !Numbered(s[i])
    ensures LastWidth(s) == NumWidth(s[a])
  {
    if a < |s| - 1 {
      LastWidthIs(s[..|s| - 1], a);
    }
  }

  lemma NothingBelowEmpty(p: string)
    requires StrCmp(p, "") <= 0
    ensures p == ""
  {
  }

  /** Names before a bare number are bare numbers or unnumbered, and no larger. */
  lemma BelowBare(x: string, y: string, value: int)
    requires Before(x, y)
    requires NodeToParts(y).prefix == "" && NodeToParts(y).domain == "" && NodeToParts(y).num == value
    ensures NodeToParts(x).prefix == "" && NodeToParts(x).domain == "" && NodeToParts(x).num <= value
  {
    NothingBelowEmpty(NodeToParts(x).prefix);
    NothingBelowEmpty(NodeToParts(x).domain);
  }

  lemma Unnumbered(x: string)
    ensures !Numbered(x) ==> NodeToParts(x).prefix == "" && NodeToParts(x).domain == "" && NodeToParts(x).num == 0
  {
    NodeToPartsIsShortestSplit(x);
  }

  lemma Ordered(s: seq<string>, i: nat, j: nat)
    requires Sorted(s) && i < |s| && j < |s|
    ensures Before(s[i], s[j]) <==> i < j
  {
    if i == j {
      BeforeIrreflexive(s[i]);
    } else if j < i {
      CompareIsStrictTotalOrder(s[i], s[j], s[i]);
    }
  }

  lemma {:induction false} StaleFromLoop(s: seq<string>, i: int) returns (a: int)
    requires Sorted(s) && Joins(s, i) && !Numbered(s[i - 1])
    ensures 0 <= a < i && StaleTriple(Elements(s), s[a], s[i - 1], s[i])
  {
    hide NodeToParts, Before, LastWidth;
    Unnumbered(s[i - 1]);
    a := LastWidthFound(s[..i]);
    assert IsBare(s[i], 1);
    Ordered(s, a, i - 1);
    BelowBare(s[a], s[i - 1], 0);
    assert forall c :: a < c < i ==> !Numbered(s[c]);
    forall x | x in Elements(s) && IsBare(x, 0) ensures !Before(s[a], x) {
      var c :| 0 <= c < |s| && s[c] == x;
      BareOrder(x, s[i]);
      Ordered(s, a, c);
      Ordered(s, c, i);
    }
    forall x | x in Elements(s) && IsBare(x, 1) ensures !Before(x, s[i]) {
      var c :| 0 <= c < |s| && s[c] == x;
      BareOrder(s[a], x);
      Ordered(s, a, c);
      Ordered(s, c, i);
    }
  }

  lemma BareOrder(z: string, y: string)
    requires IsBare(z, 0) && IsBare(y, 1)
    ensures Before(z, y)
  {
  }

  lemma {:induction false} LoopFromStale(s: seq<string>, z: string, u: string, y: string) returns (b: int)
    requires Sorted(s) && StaleTriple(Elements(s), z, u, y)
    ensures Joins(s, b) && !Numbered(s[b - 1])
  {
    hide NodeToParts, LastWidth;
    var a :| 0 <= a < |s| && s[a] == z;
    var c :| 0 <= c < |s| && s[c] == u;
    b :| 0 <= b < |s| && s[b] == y;
    Unnumbered(u);
    Ordered(s, a, c);
    Ordered(s, c, b);
    forall i | a < i < b ensures !Numbered(s[i]) {
      Ordered(s, a, i);
      Ordered(s, i, b);
      BelowBare(s[i], y, 1);
      assert s[i] in Elements(s);
    }
    assert Before(u, y);
    Unnumbered(s[b - 1]);
    LastWidthIs(s[..b], a);
  }

  /** The loop goes wrong on exactly the sets a caller can recognise by StaleWidth. */
  lemma CleanUnlessStale(s: seq<string>)
    requires Sorted(s)
    ensures Clean(s) <==> !StaleWidth(Elements(s))
  {
    if !Clean(s) {
      var i :| Joins(s, i) && !Numbered(s[i - 1]);
      var a := StaleFromLoop(s, i);
    }
    if StaleWidth(Elements(s)) {
      var z, u, y :| StaleTriple(Elements(s), z, u, y);
      var b := LoopFromStale(s, z, u, y);
    }
  }

  /** A set with no unnumbered name, or with no name of value zero, is never mistaken. */
  lemma NotStale(names: set<string>)
    requires (forall x :: x in names ==> Numbered(x)) || (forall x :: x in names ==> !IsBare(x, 0))
    ensures !StaleWidth(names)
  {
  }

  // The group count.

  /** No two numbered names share prefix, domain and number. */
  ghost predicate UniqueNumbers(names: set<string>) {
    forall x, y :: x in names && y in names && Numbered(x) && Numbered(y) && x != y ==>
      NodeToParts(x).prefix != NodeToParts(y).prefix || NodeToParts(x).domain != NodeToParts(y).domain
      || NodeToParts(x).num != NodeToParts(y).num
  }

  predicate HasNextIn(x: string, names: set<string>) {
    exists y :: y in names && IsNext(x, y)
  }

  lemma JoinsPrefix(s: seq<string>, n: nat, i: int)
    requires i < n <= |s|
    ensures Joins(s[..n], i) <==> Joins(s, i)
  {
    if 0 < i {
      assert s[..n][..i] == s[..i];
    }
  }

  /** The names that the name after them joins. */
  function Joined(s: seq<string>, n: nat): set<string>
    requires n <= |s|
  {
    set i | 0 < i < n && Joins(s, i) :: s[i - 1]
  }

  lemma JoinedStep(s: seq<string>, n: nat)
    requires 0 < n <= |s| && Distinct(s)
    ensures |Joined(s, n)| == |Joined(s, n - 1)| + if Joins(s, n - 1) then 1 else 0
  {
    if Joins(s, n - 1) {
      assert Joined(s, n) == Joined(s, n - 1) + {s[n - 2]};
      assert s[n - 2] !in Joined(s, n - 1);
    } else {
      assert Joined(s, n) == Joined(s, n - 1);
    }
  }

  lemma {:induction false} RunCount(s: seq<string>, n: nat)
    requires n <= |s| && Distinct(s)
    ensures |Runs(s[..n])| == n - |Joined(s, n)|
  {
    hide LastWidth, NodeToParts, Joins;
    if n == 0 {
      assert Joined(s, 0) == {};
    } else {
      RunCount(s, n - 1);
      assert s[..n][..n - 1] == s[..n - 1];
      JoinsPrefix(s, n, n - 1);
      JoinedStep(s, n);
    }
  }

  lemma {:induction false} JoinedIsNext(s: seq<string>, i: int)
    requires Clean(s) && Joins(s, i)
    ensures IsNext(s[i - 1], s[i])
  {
    assert s[..i][i - 1] == s[i - 1];
  }

  /** A name and its successor are neighbours in the sorted order. */
  lemma {:induction false} NextIsAdjacent(s: seq<string>, a: nat, b: nat)
    requires Sorted(s) && Clean(s) && UniqueNumbers(Elements(s))
    requires a < |s| && b < |s| && IsNext(s[a], s[b])
    ensures b == a + 1 && Joins(s, b)
  {
    var x, y := NodeToParts(s[a]), NodeToParts(s[b]);
    StrCmpZero(x.prefix, y.prefix);
    StrCmpZero(x.domain, y.domain);
    assert Before(s[a], s[b]);
    Ordered(s, a, b);
    forall c | a < c < b ensures !Numbered(s[c]) {
      Between(s, a, c, b);
    }
    Unnumbered(s[b - 1]);
    LastWidthIs(s[..b], a);
    if a + 1 < b {
      Between(s, a, b - 1, b);
    }
    assert Joins(s, b);
  }

  lemma Between(s: seq<string>, a: nat, c: nat, b: nat)
    requires Sorted(s) && UniqueNumbers(Elements(s))
    requires a < c < b < |s| && IsNext(s[a], s[b])
    ensures !Numbered(s[c])
    ensures NodeToParts(s[c]).prefix == NodeToParts(s[a]).prefix
    ensures NodeToParts(s[c]).domain == NodeToParts(s[a]).domain
    ensures NodeToParts(s[c]).num == NodeToParts(s[a]).num
  {
    var x, y, z := NodeToParts(s[a]), NodeToParts(s[c]), NodeToParts(s[b]);
    assert Before(s[a], s[c]) && Before(s[c], s[b]);
    Squeeze(x.prefix, y.prefix);
    StrCmpZero(x.prefix, y.prefix);
    Squeeze(x.domain, y.domain);
    StrCmpZero(x.domain, y.domain);
    assert s[a] in Elements(s) && s[b] in Elements(s) && s[c] in Elements(s);
    Ordered(s, a, c);
    Ordered(s, c, b);
    BeforeIrreflexive(s[c]);
    Unnumbered(s[c]);
  }

  lemma Squeeze(a: string, b: string)
    requires StrCmp(a, b) <= 0 && StrCmp(b, a) <= 0
    ensures a == b
  {
    StrCmpFlip(a, b);
    StrCmpZero(a, b);
  }

  function WithNext(names: set<string>): set<string> {
    set x | x in names && HasNextIn(x, names)
  }

  lemma JoinedIsWithNext(s: seq<string>)
    requires Sorted(s) && Clean(s) && UniqueNumbers(Elements(s))
    ensures Joined(s, |s|) == WithNext(Elements(s))
  {
    forall x | x in WithNext(Elements(s)) ensures x in Joined(s, |s|) {
      var y :| y in Elements(s) && IsNext(x, y);
      var a :| 0 <= a < |s| && s[a] == x;
      var b :| 0 <= b < |s| && s[b] == y;
      NextIsAdjacent(s, a, b);
    }
    forall x | x in Joined(s, |s|) ensures x in WithNext(Elements(s)) {
      var i :| 0 < i < |s| && Joins(s, i) && x == s[i - 1];
      JoinedIsNext(s, i);
      assert s[i] in Elements(s) && s[i - 1] in Elements(s);
    }
  }

  /** Without an empty name: one group for each name whose successor is not in the set. */
  lemma NamedGroupCount(named: seq<string>)
    requires Distinct(named)
    requires UniqueNumbers(Elements(named)) && !StaleWidth(Elements(named))
    ensures |Runs(Sort(named))| == |named| - |WithNext(Elements(named))|
  {
    SortIsSorted(named);
    var s := Sort(named);
    assert Elements(s) == Elements(named);
    CleanUnlessStale(s);
    JoinedIsWithNext(s);
    forall i, j | 0 <= i < j < |s| ensures s[i] != s[j] { BeforeIrreflexive(s[i]); }
    RunCount(s, |s|);
    assert s[..|s|] == s;
  }

  /** Exact group count: one group is printed for each name, the empty one apart, whose successor
      is not in the set. */
  lemma GroupCount(members: seq<string>, named: seq<string>)
    requires Distinct(members) && Distinct(named) && forall x :: x in named <==> x in members && x != ""
    requires UniqueNumbers(Elements(named)) && !StaleWidth(Elements(named))
    ensures |Runs(Nonempty(Sort(members)))| == |named| - |WithNext(Elements(named))|
  {
    hide UniqueNumbers, StaleWidth, Runs, Sort, NodeToParts;
    EmptyNameDropped(members, named);
    NamedGroupCount(named);
  }
}
