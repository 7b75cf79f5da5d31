/** The order of printed names (range_sort.c). */
module RangeSort {
  import opened Text
  import opened NodeParts

  /** The sign of compare_parts: prefix, then domain, then number, then the whole name. */
  function CompareParts(a: NodeParts, b: NodeParts): int {
    if StrCmp(a.prefix, b.prefix) != 0 then StrCmp(a.prefix, b.prefix)
    else if StrCmp(a.domain, b.domain) != 0 then StrCmp(a.domain, b.domain)
    else if a.num != b.num then a.num - b.num
    else StrCmp(a.fullName, b.fullName)
  }

  predicate Before(a: string, b: string) {
    CompareParts(NodeToParts(a), NodeToParts(b)) < 0
  }

  ghost predicate Sorted(s: seq<string>) {
    forall i, j :: 0 <= i < j < |s| ==> Before(s[i], s[j])
  }

  lemma {:induction false} BeforeTotal(a: string, b: string)
    requires a != b
    ensures Before(a, b) != Before(b, a)
  {
    var x, y := NodeToParts(a), NodeToParts(b);
    StrCmpFlip(x.prefix, y.prefix);
    StrCmpFlip(x.domain, y.domain);
    StrCmpFlip(a, b);
    StrCmpZero(a, b);
  }

  lemma {:induction false} BeforeIrreflexive(a: string)
    ensures !Before(a, a)
  {
    var x := NodeToParts(a);
    StrCmpZero(x.prefix, x.prefix);
    StrCmpZero(x.domain, x.domain);
    StrCmpZero(a, a);
  }

  lemma {:induction false} BeforeTransitive(a: string, b: string, c: string)
    requires Before(a, b) && Before(b, c)
    ensures Before(a, c)
  {
    var x, y, z := NodeToParts(a), NodeToParts(b), NodeToParts(c);
    StrCmpTransitive(x.prefix, y.prefix, z.prefix);
    StrCmpZero(x.prefix, y.prefix);
    StrCmpZero(y.prefix, z.prefix);
    StrCmpZero(x.prefix, z.prefix);
    StrCmpZero(x.domain, y.domain);
    StrCmpZero(y.domain, z.domain);
    StrCmpZero(x.domain, z.domain);
    if x.prefix == y.prefix == z.prefix {
      StrCmpTransitive(x.domain, y.domain, z.domain);
      if x.domain == y.domain == z.domain && x.num == y.num == z.num {
        StrCmpTransitive(a, b, c);
      }
    }
  }

  /** compare_parts is a strict total order on distinct names. */
  lemma CompareIsStrictTotalOrder(a: string, b: string, c: string)
    ensures !Before(a, a)
    ensures a != b ==> (Before(a, b) <==> !Before(b, a))
    ensures Before(a, b) && Before(b, c) ==> Before(a, c)
  {
    BeforeIrreflexive(a);
    if a != b {
      BeforeTotal(a, b);
    }
    if Before(a, b) && Before(b, c) {
      BeforeTransitive(a, b, c);
    }
  }

  /** At most one sorted sequence holds a given set of names. */
  lemma {:induction false} SortedUnique(s: seq<string>, t: seq<string>)
    requires Sorted(s) && Sorted(t)
    requires forall x :: x in s <==> x in t
    ensures s == t
  {
    assert t != [] ==> t[0] in t;
    if s != [] {
      assert s[0] in t;
      assert t[0] in s;
      var i :| 0 <= i < |t| && t[i] == s[0];
      var j :| 0 <= j < |s| && s[j] == t[0];
      if s[0] != t[0] {
        BeforeTotal(s[0], t[0]);
      }
      assert s[0] == t[0];
      forall x ensures x in s[1..] <==> x in t[1..] {
        BeforeIrreflexive(s[0]);
        SortedTail(s, x);
        SortedTail(t, x);
      }
      SortedUnique(s[1..], t[1..]);
      assert s == [s[0]] + s[1..] && t == [t[0]] + t[1..];
    }
  }

  lemma SortedTail(s: seq<string>, x: string)
    requires s != [] && Sorted(s)
    ensures x in s[1..] <==> x in s && x != s[0]
  {
    BeforeIrreflexive(s[0]);
    if x in s && x != s[0] {
      var i :| 0 <= i < |s| && s[i] == x;
      assert s[1..][i - 1] == x;
    }
  }

  /** Where a new name goes in a sorted sequence. */
  function Insert(s: seq<string>, x: string): seq<string> {
    if s == [] then [x]
    else if Before(x, s[0]) then [x] + s
    else [s[0]] + Insert(s[1..], x)
  }

  /** qsort on the members; the C library's algorithm is immaterial, by SortedUnique. */
  function Sort(names: seq<string>): seq<string> {
    if names == [] then []
    else Insert(Sort(names[..|names| - 1]), names[|names| - 1])
  }

  lemma {:induction false} InsertSorted(s: seq<string>, x: string)
    requires Sorted(s) && x !in s
    ensures Sorted(Insert(s, x))
    ensures forall y :: y in Insert(s, x) <==> y == x || y in s
    ensures |Insert(s, x)| == |s| + 1
  {
    if s != [] {
      var t := s[1..];
      assert forall y :: y in s <==> y == s[0] || y in t;
      if Before(x, s[0]) {
        forall y | y in t ensures Before(x, y) { BeforeTransitive(x, s[0], y); }
      } else {
        BeforeTotal(x, s[0]);
        InsertSorted(t, x);
        var r := Insert(t, x);
        forall i | 0 <= i < |r| ensures Before(s[0], r[i]) {
          assert r[i] == x || r[i] in t;
        }
      }
    }
  }

  /** do_range_sort returns the names of the set, in order. */
  lemma {:induction false} SortIsSorted(names: seq<string>)
    requires Distinct(names)
    ensures Sorted(Sort(names))
    ensures forall y :: y in Sort(names) <==> y in names
    ensures |Sort(names)| == |names|
  {
    if names != [] {
      var n := |names| - 1;
      SortIsSorted(names[..n]);
      assert names == names[..n] + [names[n]];
      InsertSorted(Sort(names[..n]), names[n]);
    }
  }

  /** The order itself: prefixes ascend; under one prefix the domains; under one domain the
      numbers; under one number the whole names. */
  lemma SortedByParts(names: seq<string>, i: nat, j: nat)
    requires Distinct(names) && i < j < |Sort(names)|
    ensures var a, b := NodeToParts(Sort(names)[i]), NodeToParts(Sort(names)[j]);
            || StrCmp(a.prefix, b.prefix) < 0
            || (a.prefix == b.prefix && StrCmp(a.domain, b.domain) < 0)
            || (a.prefix == b.prefix && a.domain == b.domain && a.num < b.num)
            || (a.prefix == b.prefix && a.domain == b.domain && a.num == b.num
                && StrCmp(Sort(names)[i], Sort(names)[j]) < 0)
  {
    hide Sort, NodeToParts, StrCmp;
    SortIsSorted(names);
    var x, y := Sort(names)[i], Sort(names)[j];
    assert Before(x, y);
    var a, b := NodeToParts(x), NodeToParts(y);
    StrCmpZero(a.prefix, b.prefix);
    StrCmpZero(a.domain, b.domain);
  }

  /** Canonical output: the sorted names depend on the set alone, not on the order in which
      buckets or insertions present it. */
  lemma SortCanonical(a: seq<string>, b: seq<string>)
    requires Distinct(a) && Distinct(b)
    requires forall x :: x in a <==> x in b
    ensures Sort(a) == Sort(b)
  {
    SortIsSorted(a);
    SortIsSorted(b);
    SortedUnique(Sort(a), Sort(b));
  }
}
