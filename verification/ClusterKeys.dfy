/** The sections of a cluster definition, and the KEYS section that lists them
    (_join_elements and _cluster_keys in yamlfile.c). */
module ClusterKeys {
  import opened Text
  import opened Dollars
  import opened HashSets
  import Ranges

  // _join_elements

  /** Each name followed by the separator. */
  function WithSeparators(names: seq<string>, sep: char): string {
    if names == [] then "" else WithSeparators(names[..|names| - 1], sep) + names[|names| - 1] + [sep]
  }

  function Joined(names: seq<string>, sep: char): string
    requires names != []
  {
    WithSeparators(names[..|names| - 1], sep) + names[|names| - 1]
  }

  lemma OneMoreName(names: seq<string>, i: nat, sep: char)
    requires i < |names|
    ensures WithSeparators(names[..0], sep) == "" && names[..|names|] == names
    ensures WithSeparators(names[..i + 1], sep) == WithSeparators(names[..i], sep) + names[i] + [sep]
  {
    assert names[..i + 1][..i] == names[..i];
  }

  lemma JoinedThenSeparator(names: seq<string>, sep: char)
    requires names != []
    ensures WithSeparators(names, sep) == Joined(names, sep) + [sep]
  {
  }

  lemma {:induction false} PrefixFits(names: seq<string>, i: nat, sep: char)
    requires i <= |names|
    ensures |WithSeparators(names[..i], sep)| <= |WithSeparators(names, sep)|
    decreases |names| - i
  {
    if i == |names| {
      assert names[..i] == names;
    } else {
      PrefixFits(names, i + 1, sep);
      OneMoreName(names, i, sep);
    }
  }

  method CopyString(buf: array<char>, p: nat, s: string) returns (p': nat)
    requires p + |s| <= buf.Length
    modifies buf
    ensures p' == p + |s| && buf[..p'] == old(buf[..p]) + s
  {
    ghost var before := buf[..p];
    for i := 0 to |s|
      invariant buf[..p + i] == before + s[..i]
    {
      buf[p + i] := s[i];
      assert buf[..p + i + 1] == buf[..p + i] + [s[i]];
    }
    p' := p + |s|;
  }

  method TotalLength(names: seq<string>, ghost sep: char) returns (total: nat)
    ensures total == |WithSeparators(names, sep)|
    ensures total == 0 <==> names == []
  {
    total := 0;
    for i := 0 to |names|
      invariant total == |WithSeparators(names[..i], sep)| >= i
    {
      OneMoreName(names, i, sep);
      total := total + |names[i]| + 1;
    }
    assert names[..|names|] == names;
  }

  /** _join_elements: a buffer that the joined names and their terminating null fill exactly, or
      a null pointer when there is no name. */
  method JoinElements(sep: char, names: seq<string>) returns (result: array?<char>)
    ensures result == null <==> names == []
    ensures result != null ==> fresh(result) && result[..] == Joined(names, sep) + ['\0']
  {
    hide WithSeparators, Joined;
    var total := TotalLength(names, sep);
    if total == 0 {
      return null;
    }
    OneMoreName(names, 0, sep);
    JoinedThenSeparator(names, sep);
    var buf := new char[total];
    var p := 0;
    for i := 0 to |names|
      modifies buf
      invariant p <= buf.Length == total && buf[..p] == WithSeparators(names[..i], sep)
    {
      OneMoreName(names, i, sep);
      PrefixFits(names, i + 1, sep);
      p := CopyString(buf, p, names[i]);
      buf[p] := sep;
      p := p + 1;
      assert buf[..p] == buf[..p - 1] + [sep];
    }
    assert buf[..] == buf[..total];
    p := p - 1;
    buf[p] := '\0';
    assert buf[..] == buf[..p] + ['\0'];
    result := buf;
  }

  // Splitting the text again.

  function SplitAt(s: string, sep: char): (r: seq<string>)
    ensures r != []
  {
    if s == "" then [""]
    else if s[0] == sep then [""] + SplitAt(s[1..], sep)
    else
      var rest := SplitAt(s[1..], sep);
      [[s[0]] + rest[0]] + rest[1..]
  }

  lemma {:induction false} PiecesCounted(s: string, sep: char)
    ensures |SplitAt(s, sep)| == 1 + Count(s, sep)
  {
    if s != "" {
      PiecesCounted(s[1..], sep);
    }
  }

  lemma {:induction false} SplitFront(a: string, b: string, sep: char)
    requires sep !in a
    ensures SplitAt(a + [sep] + b, sep) == [a] + SplitAt(b, sep)
  {
    var s := a + [sep] + b;
    if a == "" {
      assert s[1..] == b;
    } else {
      assert s[1..] == a[1..] + [sep] + b;
      SplitFront(a[1..], b, sep);
      assert [a[0]] + a[1..] == a;
    }
  }

  lemma {:induction false} SplitWhole(a: string, sep: char)
    requires sep !in a
    ensures SplitAt(a, sep) == [a]
  {
    if a != "" {
      SplitWhole(a[1..], sep);
      assert [a[0]] + a[1..] == a;
    }
  }

  lemma {:induction false} JoinedFront(names: seq<string>, sep: char)
    requires |names| > 1
    ensures Joined(names, sep) == names[0] + [sep] + Joined(names[1..], sep)
    decreases |names|
  {
    var n := |names| - 1;
    if n == 1 {
      assert names[..1] == [names[0]] && names[1..][..0] == [];
      OneMoreName(names, 0, sep);
    } else {
      JoinedFront(names[..n], sep);
      assert names[..n][1..] == names[1..][..n - 1];
      JoinedThenSeparator(names[..n], sep);
      JoinedThenSeparator(names[1..][..n - 1], sep);
      assert names[1..][n - 1] == names[n];
    }
  }

  lemma {:induction false} SplitsBack(names: seq<string>, sep: char)
    requires names != [] && forall x :: x in names ==> sep !in x
    ensures SplitAt(Joined(names, sep), sep) == names
    decreases |names|
  {
    hide Joined, SplitAt;
    if |names| == 1 {
      JoinedOne(names, sep);
      SplitWhole(names[0], sep);
      assert names == [names[0]];
    } else {
      JoinedFront(names, sep);
      SplitsBack(names[1..], sep);
      SplitFront(names[0], Joined(names[1..], sep), sep);
      assert names == [names[0]] + names[1..];
    }
  }

  lemma JoinedOne(names: seq<string>, sep: char)
    requires |names| == 1
    ensures Joined(names, sep) == names[0]
  {
  }

  lemma {:induction false} SeparatorsCounted(names: seq<string>, sep: char)
    ensures Count(WithSeparators(names, sep), sep) >= |names|
    ensures Count(WithSeparators(names, sep), sep) == |names| <==> forall x :: x in names ==> sep !in x
  {
    hide Count;
    if names == [] {
      CountZero("", sep);
    } else {
      var n := |names| - 1;
      var before := WithSeparators(names[..n], sep);
      SeparatorsCounted(names[..n], sep);
      CountConcat(before + names[n], [sep], sep);
      CountConcat(before, names[n], sep);
      CountZero(names[n], sep);
      CountOne(sep);
      assert names == names[..n] + [names[n]];
    }
  }

  lemma CountOne(sep: char)
    ensures Count([sep], sep) == 1
  {
    assert [sep][1..] == "";
  }

  /** The joined text splits back into the names exactly when no name contains the separator. */
  lemma SplitsBackExactly(names: seq<string>, sep: char)
    requires names != []
    ensures SplitAt(Joined(names, sep), sep) == names <==> forall x :: x in names ==> sep !in x
  {
    hide Joined, SplitAt, Count;
    JoinedThenSeparator(names, sep);
    SeparatorsCounted(names, sep);
    CountConcat(Joined(names, sep), [sep], sep);
    CountOne(sep);
    PiecesCounted(Joined(names, sep), sep);
    if forall x :: x in names ==> sep !in x {
      SplitsBack(names, sep);
    }
  }

  // _cluster_keys

  /** A value of the top-level mapping: a scalar, a list whose items are scalars or not, or
      another kind of node. */
  datatype YamlValue = Scalar(text: string) | Items(items: seq<Option<string>>) | OtherNode

  datatype Document = Unreadable | NotAMapping | Mapping(pairs: seq<(string, YamlValue)>)

  function ItemTexts(cluster: string, items: seq<Option<string>>): seq<string>
    requires forall i :: 0 <= i < |items| ==> items[i].Some?
  {
    seq(|items|, i requires 0 <= i < |items| => "(" + Substituted(cluster, items[i].value, false) + ")")
  }

  predicate Malformed(v: YamlValue) {
    v.Items? && exists i :: 0 <= i < |v.items| && v.items[i].None?
  }

  /** The text of a section, if the value gives it one. */
  function SectionText(cluster: string, v: YamlValue): Option<string>
    requires !Malformed(v)
  {
    match v
    case Scalar(t) => Some(Substituted(cluster, t, false))
    case Items(items) => Some(if items == [] then "" else Joined(ItemTexts(cluster, items), ','))
    case OtherNode => None
  }

  predicate WellFormed(pairs: seq<(string, YamlValue)>) {
    forall i :: 0 <= i < |pairs| ==> !Malformed(pairs[i].1)
  }

  /** The sections that the pairs define; a later pair replaces an earlier one of the same name. */
  function Sections(cluster: string, pairs: seq<(string, YamlValue)>): map<string, Data>
    requires WellFormed(pairs)
  {
    if pairs == [] then map[]
    else
      var (key, v) := pairs[|pairs| - 1];
      var before := Sections(cluster, pairs[..|pairs| - 1]);
      match SectionText(cluster, v) case Some(t) => before[key := Some(t)] case None => before
  }

  /** The last pair of a name decides its section, pairs that give no text apart. */
  lemma {:induction false} LastPairDecides(cluster: string, pairs: seq<(string, YamlValue)>, i: nat)
    requires WellFormed(pairs) && i < |pairs| && !pairs[i].1.OtherNode?
    requires forall j :: i < j < |pairs| && pairs[j].0 == pairs[i].0 ==> pairs[j].1.OtherNode?
    ensures pairs[i].0 in Sections(cluster, pairs)
    ensures Sections(cluster, pairs)[pairs[i].0] == SectionText(cluster, pairs[i].1)
  {
    hide Malformed;
    var n := |pairs| - 1;
    if i < n {
      var front := pairs[..n];
      assert front[i] == pairs[i] && forall j :: 0 <= j < n ==> front[j] == pairs[j];
      LastPairDecides(cluster, front, i);
    }
  }

  /** And there is no other section. */
  lemma {:induction false} NoOtherSection(cluster: string, pairs: seq<(string, YamlValue)>, key: string)
    requires WellFormed(pairs) && forall i :: 0 <= i < |pairs| && pairs[i].0 == key ==> pairs[i].1.OtherNode?
    ensures key !in Sections(cluster, pairs)
  {
    hide Malformed;
    if pairs != [] {
      var n := |pairs| - 1;
      NoOtherSection(cluster, pairs[..n], key);
      assert pairs[n].0 == key ==> pairs[n].1.OtherNode?;
    }
  }

  /** The sections of a document, with KEYS listing the names in some order; none at all for a
      document that is not a mapping of scalars and lists of scalars. */
  ghost predicate AreClusterKeys(cluster: string, doc: Document, view: map<string, Data>, order: seq<string>) {
    if doc.Mapping? && WellFormed(doc.pairs) then
      var sections := Sections(cluster, doc.pairs);
      && |order| == |sections| && Elements(order) == sections.Keys
      && view == sections["KEYS" := if order == [] then None else Some(Joined(order, ','))]
    else view == map[]
  }

  /** The list items, in parentheses, glued together with commas; none if an item is not a scalar. */
  method GlueItems(cluster: string, items: seq<Option<string>>) returns (text: Option<string>)
    ensures text.None? <==> Malformed(Items(items))
    ensures text.Some? ==> text == SectionText(cluster, Items(items))
  {
    var working: seq<string> := [];
    for i := 0 to |items|
      invariant forall j :: 0 <= j < i ==> items[j].Some?
      invariant working == ItemTexts(cluster, items[..i])
    {
      if items[i].None? {
        return None;
      }
      var t := SubstituteDollars(cluster, items[i].value);
      working := working + ["(" + t + ")"];
    }
    assert items[..|items|] == items;
    text := Some(if items == [] then "" else Joined(working, ','));
  }

  /** The sections with one text more, if there is one. */
  function Gained(sections: map<string, Data>, key: string, text: Option<string>): map<string, Data> {
    if text.Some? then sections[key := text] else sections
  }

  method AddSection(s: HashSet, key: string, text: Option<string>)
    requires s.Valid() && s.members < BIG
    modifies s.Repr
    ensures s.Valid() && fresh(s.Repr - old(s.Repr)) && s.members <= old(s.members) + 1
    ensures s.View() == Gained(old(s.View()), key, text)
  {
    hide HashSet.Valid, HashSet.View, IsNextPrime;
    if text.Some? {
      s.Add(key, text);
    }
  }

  /** The first i pairs are well formed and give these sections. */
  ghost predicate Loaded(view: map<string, Data>, cluster: string, pairs: seq<(string, YamlValue)>, i: nat) {
    i <= |pairs| && WellFormed(pairs[..i]) && view == Sections(cluster, pairs[..i])
  }

  lemma LoadedStep(view: map<string, Data>, cluster: string, pairs: seq<(string, YamlValue)>, i: nat)
    requires Loaded(view, cluster, pairs, i) && i < |pairs| && !Malformed(pairs[i].1)
    ensures Loaded(Gained(view, pairs[i].0, SectionText(cluster, pairs[i].1)), cluster, pairs, i + 1)
  {
    hide SectionText, Malformed;
    assert pairs[..i + 1][..i] == pairs[..i];
    assert forall j :: 0 <= j < i ==> pairs[..i + 1][j] == pairs[..i][j];
  }

  lemma LoadedEnds(cluster: string, pairs: seq<(string, YamlValue)>)
    ensures Loaded(map[], cluster, pairs, 0)
    ensures forall view :: Loaded(view, cluster, pairs, |pairs|) ==> WellFormed(pairs) && view == Sections(cluster, pairs)
  {
    assert pairs[..|pairs|] == pairs;
  }

  /** The text of one pair's value; ok is false for a list with an item that is not a scalar. */
  method PairText(cluster: string, v: YamlValue) returns (ok: bool, text: Option<string>)
    ensures ok == !Malformed(v)
    ensures ok ==> text == SectionText(cluster, v)
  {
    ok, text := true, None;
    match v
    case Scalar(t) =>
      var u := SubstituteDollars(cluster, t);
      text := Some(u);
    case Items(items) =>
      text := GlueItems(cluster, items);
      ok := text.Some?;
    case OtherNode =>
  }

  lemma NotFormed(pairs: seq<(string, YamlValue)>, i: nat)
    requires i < |pairs| && Malformed(pairs[i].1)
    ensures !WellFormed(pairs)
  {
    hide Malformed;
  }

  /** One pair of the mapping. */
  method LoadPair(s: HashSet, cluster: string, pair: (string, YamlValue)) returns (ok: bool)
    requires s.Valid() && s.members < BIG
    modifies s.Repr
    ensures s.Valid() && fresh(s.Repr - old(s.Repr)) && s.members <= old(s.members) + 1
    ensures ok == !Malformed(pair.1)
    ensures ok ==> s.View() == Gained(old(s.View()), pair.0, SectionText(cluster, pair.1))
  {
    hide HashSet.Valid, HashSet.View, SectionText, Malformed, IsNextPrime, IsTableSize, Gained;
    var text;
    ok, text := PairText(cluster, pair.1);
    if ok {
      AddSection(s, pair.0, text);
    }
  }

  /** The loop over the pairs of the mapping. */
  method LoadSections(hash: string -> nat, cluster: string, pairs: seq<(string, YamlValue)>)
    returns (s: HashSet, ok: bool)
    requires |pairs| < BIG
    ensures s.Valid() && fresh(s.Repr)
    ensures ok == WellFormed(pairs)
    ensures ok ==> s.View() == Sections(cluster, pairs) && s.members <= |pairs|
  {
    hide HashSet.Valid, HashSet.View, Sections, SectionText, Malformed, IsNextPrime, IsTableSize, WellFormed, Gained,
      Loaded;
    s := new HashSet(hash, 0);
    LoadedEnds(cluster, pairs);
    var i := 0;
    while i < |pairs|
      invariant i <= |pairs| && Loaded(s.View(), cluster, pairs, i)
      invariant s.Valid() && fresh(s.Repr) && s.members <= i
    {
      ghost var view := s.View();
      ok := LoadPair(s, cluster, pairs[i]);
      if !ok {
        NotFormed(pairs, i);
        return;
      }
      LoadedStep(view, cluster, pairs, i);
      i := i + 1;
    }
    ok := true;
  }

  /** _cluster_keys */
  method ClusterKeys(hash: string -> nat, cluster: string, doc: Document) returns (s: HashSet, ghost order: seq<string>)
    requires doc.Mapping? ==> |doc.pairs| < BIG
    ensures s.Valid() && fresh(s.Repr)
    ensures AreClusterKeys(cluster, doc, s.View(), order)
  {
    hide HashSet.Valid, HashSet.View, Sections, SectionText, Malformed, IsNextPrime, WellFormed, Joined;
    order := [];
    if doc.Mapping? {
      var sections, ok := LoadSections(hash, cluster, doc.pairs);
      if ok {
        order := AddKeys(sections);
        return sections, order;
      }
    }
    s := new HashSet(hash, 0);
  }

  /** The KEYS section, last of all. */
  method AddKeys(s: HashSet) returns (ghost order: seq<string>)
    requires s.Valid() && s.members < BIG
    modifies s.Repr
    ensures s.Valid() && fresh(s.Repr - old(s.Repr))
    ensures |order| == |old(s.View())| && Elements(order) == old(s.View()).Keys
    ensures s.View() == old(s.View())["KEYS" := if order == [] then None else Some(Joined(order, ','))]
  {
    hide HashSet.Valid, IsNextPrime, Joined;
    var names := Ranges.NamesOf(s);
    order := names;
    var buf := JoinElements(',', names);
    var text: Data := None;
    if buf != null {
      text := Some(buf[..buf.Length - 1]);
    }
    s.Add("KEYS", text);
  }
}
