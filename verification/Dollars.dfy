/** Preparing the text of a cluster definition: $NAME references become cluster() calls
    (_substitute_dollars in yamlfile.c). */
module Dollars {
  import opened Text

  predicate IsNameChar(c: char) {
    IsLetter(c) || IsDigit(c) || c == '-' || c == '_'
  }

  /** How many characters at the front of s can be part of a section name. */
  function NameLength(s: string): (n: nat)
    ensures n <= |s| && (n < |s| ==> !IsNameChar(s[n]))
    ensures forall i :: 0 <= i < n ==> IsNameChar(s[i])
  {
    if s == "" || !IsNameChar(s[0]) then 0 else 1 + NameLength(s[1..])
  }

  /** The text of one reference. */
  function Reference(cluster: string, name: string): string {
    "cluster(" + cluster + ":" + name + ")"
  }

  /** The line with its references spelled out; inRegex says whether it starts between slashes. */
  function Substituted(cluster: string, line: string, inRegex: bool): string
    decreases |line|
  {
    if line == "" then ""
    else if !inRegex && line[0] == '$' then
      var n := NameLength(line[1..]);
      Reference(cluster, line[1..1 + n]) + Substituted(cluster, line[1 + n..], inRegex)
    else [line[0]] + Substituted(cluster, line[1..], inRegex != (line[0] == '/'))
  }

  lemma AtDollar(cluster: string, line: string, i: nat)
    requires i < |line| && line[i] == '$'
    ensures var j := i + 1 + NameLength(line[i + 1..]);
            j <= |line| && Substituted(cluster, line[i..], false)
              == Reference(cluster, line[i + 1..j]) + Substituted(cluster, line[j..], false)
  {
    hide NameLength;
    var rest := line[i..];
    var n := NameLength(line[i + 1..]);
    assert rest[1..] == line[i + 1..];
    assert rest[1..1 + n] == line[i + 1..i + 1 + n] && rest[1 + n..] == line[i + 1 + n..];
  }

  lemma AtOther(cluster: string, line: string, i: nat, inRegex: bool)
    requires i < |line| && (inRegex || line[i] != '$')
    ensures Substituted(cluster, line[i..], inRegex)
         == [line[i]] + Substituted(cluster, line[i + 1..], inRegex != (line[i] == '/'))
  {
    assert line[i..][1..] == line[i + 1..];
  }

  /** Copies the section name that starts at i; returns the position after it. */
  method CopyName(line: string, i: nat, buf: string) returns (j: nat, buf': string)
    requires i <= |line|
    ensures j == i + NameLength(line[i..]) && j <= |line| && buf' == buf + line[i..j]
  {
    ghost var n := NameLength(line[i..]);
    j, buf' := i, buf;
    while j < |line| && IsNameChar(line[j])
      invariant i <= j <= i + n && buf' == buf + line[i..j]
    {
      assert line[i..][j - i] == line[j];
      assert line[i..j + 1] == line[i..j] + [line[j]];
      buf' := buf' + [line[j]];
      j := j + 1;
    }
    assert j < |line| ==> line[i..][j - i] == line[j];
  }

  /** _substitute_dollars: one pass that appends to a buffer. */
  method SubstituteDollars(cluster: string, line: string) returns (buf: string)
    ensures buf == Substituted(cluster, line, false)
  {
    hide Substituted, NameLength, Reference;
    var inRegex := false;
    var i := 0;
    buf := "";
    assert line[0..] == line;
    while i < |line|
      invariant i <= |line|
      invariant buf + Substituted(cluster, line[i..], inRegex) == Substituted(cluster, line, false)
    {
      var c := line[i];
      ghost var before := buf;
      if !inRegex && c == '$' {
        AtDollar(cluster, line, i);
        var j;
        j, buf := CopyName(line, i + 1, buf + "cluster(" + cluster + ":");
        buf := buf + ")";
        CallText(before, cluster, line[i + 1..j]);
        Assoc(before, Reference(cluster, line[i + 1..j]), Substituted(cluster, line[j..], false));
        i := j;
      } else {
        AtOther(cluster, line, i, inRegex);
        if c == '/' {
          inRegex := !inRegex;
        }
        buf := buf + [c];
        Assoc(before, [c], Substituted(cluster, line[i + 1..], inRegex));
        i := i + 1;
      }
    }
    assert line[i..] == "";
    NothingLeft(cluster, inRegex);
  }

  lemma CallText(before: string, cluster: string, name: string)
    ensures before + "cluster(" + cluster + ":" + name + ")" == before + Reference(cluster, name)
  {
  }

  lemma NothingLeft(cluster: string, inRegex: bool)
    ensures Substituted(cluster, "", inRegex) == ""
  {
  }

  // What is rewritten, seen character by character.

  function Slashes(s: string): nat {
    Count(s, '/')
  }

  /** Whether text that starts inside (inRegex) or outside slashes ends inside them. */
  function EndsInRegex(s: string, inRegex: bool): bool {
    inRegex != (Slashes(s) % 2 == 1)
  }

  /** The dollars that stand outside slashes. */
  function LiveDollars(s: string, inRegex: bool): nat {
    if s == "" then 0
    else (if !inRegex && s[0] == '$' then 1 else 0) + LiveDollars(s[1..], inRegex != (s[0] == '/'))
  }

  lemma {:induction false} LiveConcat(a: string, b: string, inRegex: bool)
    ensures Slashes(a + b) == Slashes(a) + Slashes(b)
    ensures LiveDollars(a + b, inRegex) == LiveDollars(a, inRegex) + LiveDollars(b, EndsInRegex(a, inRegex))
  {
    if a == "" {
      assert a + b == b;
    } else {
      assert (a + b)[1..] == a[1..] + b;
      LiveConcat(a[1..], b, inRegex != (a[0] == '/'));
    }
  }

  /** Text without dollars and slashes. */
  lemma {:induction false} NeutralText(s: string, inRegex: bool)
    requires forall i :: 0 <= i < |s| ==> s[i] != '$' && s[i] != '/'
    ensures Slashes(s) == 0 && LiveDollars(s, inRegex) == 0 && EndsInRegex(s, inRegex) == inRegex
  {
    if s != "" {
      NeutralText(s[1..], inRegex);
    }
  }

  lemma DollarCounts(cluster: string, line: string)
    requires line != "" && line[0] == '$'
    ensures var n := NameLength(line[1..]);
            && n < |line| && LiveDollars(line, false) == 1 + LiveDollars(line[1 + n..], false)
            && |Substituted(cluster, line, false)| == |cluster| + 10 + n + |Substituted(cluster, line[1 + n..], false)|
  {
    hide LiveDollars, Substituted, NameLength, Reference;
    var n := NameLength(line[1..]);
    assert line[0..] == line;
    AtDollar(cluster, line, 0);
    LiveAfterName(line, n);
    ReferenceLength(cluster, line[1..1 + n]);
  }

  lemma ReferenceLength(cluster: string, name: string)
    ensures |Reference(cluster, name)| == |cluster| + 10 + |name|
  {
  }

  lemma LiveAfterName(line: string, n: nat)
    requires line != "" && line[0] == '$' && n == NameLength(line[1..])
    ensures n < |line| && LiveDollars(line, false) == 1 + LiveDollars(line[1 + n..], false)
  {
    hide NameLength, Slashes, LiveDollars, EndsInRegex;
    var after := line[1..];
    LiveFront(line);
    NameIsNeutral(after, n);
    LiveConcat(after[..n], after[n..], false);
    assert after == after[..n] + after[n..] && after[n..] == line[1 + n..];
  }

  lemma LiveFront(line: string)
    requires line != "" && line[0] == '$'
    ensures LiveDollars(line, false) == 1 + LiveDollars(line[1..], false)
  {
  }

  lemma NameIsNeutral(s: string, n: nat)
    requires n == NameLength(s)
    ensures n <= |s| && LiveDollars(s[..n], false) == 0 && EndsInRegex(s[..n], false) == false
  {
    hide NameLength, Slashes, LiveDollars, EndsInRegex;
    var name := s[..n];
    assert forall i :: 0 <= i < n ==> name[i] == s[i] && IsNameChar(s[i]);
    NeutralText(name, false);
  }

  /** The characters that so many calls add. */
  function Added(cluster: string, live: nat): nat {
    (|cluster| + 9) * live
  }

  lemma AddedOne(cluster: string, live: nat)
    ensures Added(cluster, 1 + live) == |cluster| + 9 + Added(cluster, live)
    ensures Added(cluster, 0) == 0
  {
  }

  lemma OtherCounts(cluster: string, line: string, inRegex: bool)
    requires line != "" && (inRegex || line[0] != '$')
    ensures LiveDollars(line, inRegex) == LiveDollars(line[1..], inRegex != (line[0] == '/'))
    ensures |Substituted(cluster, line, inRegex)| == 1 + |Substituted(cluster, line[1..], inRegex != (line[0] == '/'))|
  {
  }

  lemma {:induction false} GrowsByCalls(cluster: string, line: string, inRegex: bool)
    ensures |Substituted(cluster, line, inRegex)| == |line| + Added(cluster, LiveDollars(line, inRegex))
    decreases |line|
  {
    hide NameLength, Substituted, LiveDollars, Added;
    if line == "" {
      NothingLeft(cluster, inRegex);
      NeutralText("", inRegex);
      AddedOne(cluster, 0);
    } else if !inRegex && line[0] == '$' {
      var rest := line[1 + NameLength(line[1..])..];
      DollarCounts(cluster, line);
      GrowsByCalls(cluster, rest, false);
      AddedOne(cluster, LiveDollars(rest, false));
    } else {
      OtherCounts(cluster, line, inRegex);
      GrowsByCalls(cluster, line[1..], inRegex != (line[0] == '/'));
    }
  }

  /** The line grows by |cluster| + 9 characters for each dollar outside slashes, and by nothing else. */
  lemma Growth(cluster: string, line: string, inRegex: bool)
    ensures |Substituted(cluster, line, inRegex)| == |line| + (|cluster| + 9) * LiveDollars(line, inRegex)
  {
    hide Substituted, LiveDollars;
    GrowsByCalls(cluster, line, inRegex);
  }

  /** b does not continue a name that a ends with. */
  predicate Apart(b: string) {
    b == "" || !IsNameChar(b[0])
  }

  lemma {:induction false} NameBefore(a: string, b: string)
    requires Apart(b)
    ensures NameLength(a + b) == NameLength(a)
  {
    if a == "" {
      assert a + b == b;
    } else {
      assert (a + b)[1..] == a[1..] + b;
      NameBefore(a[1..], b);
    }
  }

  lemma FrontReference(cluster: string, name: string, b: string)
    requires Apart(b) && forall i :: 0 <= i < |name| ==> IsNameChar(name[i])
    ensures Substituted(cluster, "$" + name + b, false) == Reference(cluster, name) + Substituted(cluster, b, false)
  {
    hide Substituted, Reference;
    var line := "$" + name + b;
    NameBefore(name, b);
    AllName(name);
    assert line[0..] == line && line[1..] == name + b;
    assert line[1..1 + |name|] == name && line[1 + |name|..] == b;
    AtDollar(cluster, line, 0);
  }

  lemma {:induction false} AllName(name: string)
    requires forall i :: 0 <= i < |name| ==> IsNameChar(name[i])
    ensures NameLength(name) == |name|
  {
    if name != "" {
      AllName(name[1..]);
    }
  }

  lemma FrontOther(cluster: string, c: char, b: string, inRegex: bool)
    requires inRegex || c != '$'
    ensures Substituted(cluster, [c] + b, inRegex) == [c] + Substituted(cluster, b, inRegex != (c == '/'))
  {
    assert ([c] + b)[1..] == b;
  }

  lemma RegexAfter(a: string, b: string, inRegex: bool)
    ensures EndsInRegex(a + b, inRegex) == EndsInRegex(b, EndsInRegex(a, inRegex))
  {
    LiveConcat(a, b, inRegex);
  }

  lemma RegexAfterName(name: string)
    requires forall i :: 0 <= i < |name| ==> IsNameChar(name[i])
    ensures EndsInRegex("$" + name, false) == false
  {
    NeutralText(name, false);
    LiveConcat("$", name, false);
    CountZero("$", '/');
  }

  lemma RegexAfterChar(c: char)
    ensures forall inRegex :: EndsInRegex([c], inRegex) == (inRegex != (c == '/'))
  {
    var s := [c];
    assert s[1..] == "" && Count(s, '/') == (if s[0] == '/' then 1 else 0) + Count(s[1..], '/');
  }

  lemma PieceAfterReference(cluster: string, name: string, rest: string, b: string)
    requires (forall i :: 0 <= i < |name| ==> IsNameChar(name[i])) && Apart(rest) && Apart(rest + b)
    requires Substituted(cluster, rest + b, false)
          == Substituted(cluster, rest, false) + Substituted(cluster, b, EndsInRegex(rest, false))
    ensures Substituted(cluster, "$" + name + rest + b, false)
         == Substituted(cluster, "$" + name + rest, false) + Substituted(cluster, b, EndsInRegex("$" + name + rest, false))
  {
    hide Substituted, EndsInRegex, Reference;
    Assoc("$" + name, rest, b);
    Assoc(Reference(cluster, name), Substituted(cluster, rest, false), Substituted(cluster, b, EndsInRegex(rest, false)));
    FrontReference(cluster, name, rest);
    FrontReference(cluster, name, rest + b);
    RegexAfterName(name);
    RegexAfter("$" + name, rest, false);
  }

  lemma PieceAfterOther(cluster: string, c: char, rest: string, b: string, inRegex: bool)
    requires inRegex || c != '$'
    requires Substituted(cluster, rest + b, inRegex != (c == '/'))
          == Substituted(cluster, rest, inRegex != (c == '/'))
             + Substituted(cluster, b, EndsInRegex(rest, inRegex != (c == '/')))
    ensures Substituted(cluster, [c] + rest + b, inRegex)
         == Substituted(cluster, [c] + rest, inRegex) + Substituted(cluster, b, EndsInRegex([c] + rest, inRegex))
  {
    hide Substituted, EndsInRegex;
    var front := Substituted(cluster, rest, inRegex != (c == '/'));
    var back := Substituted(cluster, b, EndsInRegex(rest, inRegex != (c == '/')));
    Assoc([c], rest, b);
    Assoc([c], front, back);
    FrontOther(cluster, c, rest, inRegex);
    FrontOther(cluster, c, rest + b, inRegex);
    RegexAfterChar(c);
    RegexAfter([c], rest, inRegex);
  }

  /** Substitution works piece by piece. */
  lemma {:induction false} PieceByPiece(cluster: string, a: string, b: string, inRegex: bool)
    requires Apart(b)
    ensures Substituted(cluster, a + b, inRegex)
         == Substituted(cluster, a, inRegex) + Substituted(cluster, b, EndsInRegex(a, inRegex))
    decreases |a|
  {
    hide Substituted, EndsInRegex, Reference, NameLength;
    if a == "" {
      assert a + b == b;
      NothingLeft(cluster, inRegex);
      assert EndsInRegex("", inRegex) == inRegex by { NeutralText("", inRegex); }
    } else if !inRegex && a[0] == '$' {
      var n := NameLength(a[1..]);
      var name, rest := a[1..1 + n], a[1 + n..];
      assert a == "$" + name + rest;
      PieceByPiece(cluster, rest, b, false);
      PieceAfterReference(cluster, name, rest, b);
    } else {
      var rest := a[1..];
      assert a == [a[0]] + rest;
      PieceByPiece(cluster, rest, b, inRegex != (a[0] == '/'));
      PieceAfterOther(cluster, a[0], rest, b, inRegex);
    }
  }

  /** Exactly the references outside slashes are rewritten: each becomes a call, wherever it stands. */
  lemma ReferenceRewritten(cluster: string, a: string, name: string, b: string)
    requires forall i :: 0 <= i < |name| ==>
               'a' <= name[i] <= 'z' || 'A' <= name[i] <= 'Z' || '0' <= name[i] <= '9' || name[i] in "-_"
    requires b != "" ==>
               !('a' <= b[0] <= 'z' || 'A' <= b[0] <= 'Z' || '0' <= b[0] <= '9' || b[0] in "-_")
    requires Count(a, '/') % 2 == 0
    ensures Substituted(cluster, a + "$" + name + b, false)
         == Substituted(cluster, a, false) + "cluster(" + cluster + ":" + name + ")" + Substituted(cluster, b, false)
  {
    hide Reference, Substituted, Count;
    ReferenceText(cluster, name, Substituted(cluster, a, false));
    var tail := "$" + name + b;
    assert a + "$" + name + b == a + tail;
    PieceByPiece(cluster, a, tail, false);
    FrontReference(cluster, name, b);
  }

  lemma ReferenceText(cluster: string, name: string, before: string)
    ensures before + Reference(cluster, name) == before + "cluster(" + cluster + ":" + name + ")"
  {
  }

  /** A dollar between slashes stays. */
  lemma QuotedDollarKept(cluster: string, a: string, b: string)
    requires Count(a, '/') % 2 == 1
    ensures Substituted(cluster, a + "$" + b, false)
         == Substituted(cluster, a, false) + "$" + Substituted(cluster, b, true)
  {
    hide Substituted, Count;
    assert a + "$" + b == a + ("$" + b);
    PieceByPiece(cluster, a, "$" + b, false);
    FrontOther(cluster, '$', b, true);
  }

  /** Without live dollars nothing changes. */
  lemma {:induction false} NothingLive(cluster: string, line: string, inRegex: bool)
    requires LiveDollars(line, inRegex) == 0
    ensures Substituted(cluster, line, inRegex) == line
    decreases |line|
  {
    if line != "" {
      NothingLive(cluster, line[1..], inRegex != (line[0] == '/'));
      assert line == [line[0]] + line[1..];
    }
  }

  /** The cluster name leaves the slashes of the text around it balanced and has no dollar of its own to expand. */
  predicate Inert(cluster: string) {
    Slashes(cluster) % 2 == 0 && LiveDollars(cluster, false) == 0
  }

  lemma ReferenceLive(cluster: string, name: string)
    requires forall i :: 0 <= i < |name| ==> name[i] != '$' && name[i] != '/'
    ensures LiveDollars(Reference(cluster, name), false) == LiveDollars(cluster, false)
    ensures EndsInRegex(Reference(cluster, name), false) == EndsInRegex(cluster, false)
  {
    hide LiveDollars, Count;
    var tail := ":" + name + ")";
    assert Reference(cluster, name) == "cluster(" + (cluster + tail);
    NeutralText("cluster(", false);
    NeutralText(tail, false);
    NeutralText(tail, true);
    LiveConcat("cluster(", cluster + tail, false);
    LiveConcat(cluster, tail, false);
  }

  lemma {:induction false} SubstitutedIsDead(cluster: string, line: string, inRegex: bool)
    requires Inert(cluster)
    ensures LiveDollars(Substituted(cluster, line, inRegex), inRegex) == 0
    decreases |line|
  {
    if line != "" {
      if !inRegex && line[0] == '$' {
        var n := NameLength(line[1..]);
        var name, rest := line[1..1 + n], line[1 + n..];
        SubstitutedIsDead(cluster, rest, false);
        ReferenceLive(cluster, name);
        LiveConcat(Reference(cluster, name), Substituted(cluster, rest, false), false);
      } else {
        var inside := inRegex != (line[0] == '/');
        SubstitutedIsDead(cluster, line[1..], inside);
        assert Substituted(cluster, line, inRegex)[1..] == Substituted(cluster, line[1..], inside);
      }
    }
  }

  ghost predicate Idempotent(cluster: string, line: string) {
    var once := Substituted(cluster, line, false);
    Substituted(cluster, once, false) == once
  }

  lemma GrowsAgain(cluster: string, line: string)
    requires LiveDollars(Substituted(cluster, line, false), false) > 0
    ensures !Idempotent(cluster, line)
  {
    hide Substituted, LiveDollars, Added;
    var once := Substituted(cluster, line, false);
    GrowsByCalls(cluster, once, false);
    AddedOne(cluster, LiveDollars(once, false) - 1);
  }

  lemma OneDollar(cluster: string)
    ensures Substituted(cluster, "$", false) == Reference(cluster, "")
  {
    hide Reference, Substituted;
    var line := "$";
    assert line[0..] == line && line[1..] == "" && line[1..1] == "" && NameLength("") == 0;
    AtDollar(cluster, line, 0);
    NothingLeft(cluster, false);
  }

  lemma DollarSlashDollar(cluster: string)
    ensures Substituted(cluster, "$/$", false) == Reference(cluster, "") + "/$"
  {
    hide Reference, Substituted;
    var line := "$/$";
    assert line[0..] == line && line[1..1] == "" && line[3..] == "" && NameLength(line[1..]) == 0;
    AtDollar(cluster, line, 0);
    AtOther(cluster, line, 1, false);
    AtOther(cluster, line, 2, true);
    NothingLeft(cluster, true);
    assert [line[1]] + ([line[2]] + "") == "/$";
  }

  lemma LiveTail()
    ensures LiveDollars("/$", true) == 1
  {
    assert "/$"[1..] == "$" && "$"[1..] == "";
    assert LiveDollars("$", false) == 1;
  }

  /** A cluster name that is not inert spoils one of two lines. */
  lemma Spoiled(cluster: string)
    requires !Inert(cluster)
    ensures !Idempotent(cluster, "$") || !Idempotent(cluster, "$/$")
  {
    hide Substituted, LiveDollars, Reference, Slashes, Idempotent;
    OneDollar(cluster);
    DollarSlashDollar(cluster);
    LiveTail();
    ReferenceLive(cluster, "");
    if LiveDollars(cluster, false) > 0 {
      GrowsAgain(cluster, "$");
    } else {
      LiveConcat(Reference(cluster, ""), "/$", false);
      GrowsAgain(cluster, "$/$");
    }
  }

  /** Substituting again changes nothing, on every line, exactly when the cluster name is inert. */
  lemma IdempotentExactly(cluster: string)
    ensures Inert(cluster) <==> forall line :: Idempotent(cluster, line)
  {
    hide Inert, Substituted, LiveDollars;
    if Inert(cluster) {
      forall line ensures Idempotent(cluster, line) {
        SubstitutedIsDead(cluster, line, false);
        NothingLive(cluster, Substituted(cluster, line, false), false);
      }
    } else {
      Spoiled(cluster);
    }
  }

  /** In particular for every name without dollars and slashes. */
  lemma PlainNamesAreInert(cluster: string)
    requires forall i :: 0 <= i < |cluster| ==> cluster[i] != '$' && cluster[i] != '/'
    ensures forall line :: Idempotent(cluster, line)
  {
    NeutralText(cluster, false);
    IdempotentExactly(cluster);
  }
}
