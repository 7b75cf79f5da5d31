/** Packing a set into contiguous memory and reading it back (set.c). */
module SetPack {
  import opened Text
  import opened HashSets

  type Entry = (string, Data)

  const NUL := '\0'

  predicate IsCString(s: string) {
    forall i :: 0 <= i < |s| ==> s[i] != NUL
  }

  predicate Packable(e: Entry) {
    IsCString(e.0) && (e.1.Some? ==> IsCString(e.1.value))
  }

  /** The four bytes of a C int, least significant first. */
  function IntBytes(n: int): (b: string)
    requires -0x8000_0000 <= n <= INT_MAX
    ensures |b| == 4
  {
    var u := if n < 0 then n + 0x1_0000_0000 else n;
    var u1 := u / 256;
    var u2 := u1 / 256;
    [(u % 256) as char, (u1 % 256) as char, (u2 % 256) as char, (u2 / 256) as char]
  }

  function ReadInt(data: string, p: nat): int
    requires p + 4 <= |data|
  {
    var u := data[p] as int + 256 * (data[p + 1] as int + 256 * (data[p + 2] as int + 256 * data[p + 3] as int));
    if u > INT_MAX then u - 0x1_0000_0000 else u
  }

  function Terminated(s: string): string
    requires |s| <= INT_MAX
  {
    IntBytes(|s|) + s + [NUL]
  }

  function Fits(e: Entry): bool {
    |e.0| <= INT_MAX && (e.1.Some? ==> |e.1.value| <= INT_MAX)
  }

  /** KEY: int(strlen) str NUL; VAL: the same, or int(-1) for a null pointer. */
  function EntryBytes(e: Entry): string
    requires Fits(e)
  {
    Terminated(e.0) + ValueBytes(e.1)
  }

  function ValueBytes(d: Data): string
    requires d.Some? ==> |d.value| <= INT_MAX
  {
    match d case Some(v) => Terminated(v) case None => IntBytes(-1)
  }

  /** What set_pack_size adds up for one element. */
  function EntrySize(e: Entry): nat {
    |e.0| + 1 + 4 + match e.1 case Some(v) => |v| + 1 + 4 case None => 4
  }

  function PackSizeOf(es: seq<Entry>): nat {
    if es == [] then 4 else PackSizeOf(es[..|es| - 1]) + EntrySize(es[|es| - 1])
  }

  function Body(es: seq<Entry>): string
    requires forall e :: e in es ==> Fits(e)
  {
    if es == [] then "" else EntryBytes(es[0]) + Body(es[1..])
  }

  /** The packed form: the total size, then the elements. */
  function Packed(es: seq<Entry>): string
    requires PackSizeOf(es) <= INT_MAX && forall e :: e in es ==> Fits(e)
  {
    IntBytes(PackSizeOf(es)) + Body(es)
  }

  // Reading.

  function CString(data: string, p: nat): (r: Option<string>)
    requires p <= |data|
    ensures r.Some? ==> p + |r.value| < |data|
    decreases |data| - p
  {
    if p == |data| then None
    else if data[p] == NUL then Some("")
    else
      var r := CString(data, p + 1);
      if r.None? then None else Some([data[p]] + r.value)
  }

  /** One key and value at p, and where the next begins; None where the reader would leave the
      buffer. */
  function DecodeEntry(data: string, p: nat): (r: Option<(Entry, nat)>)
    ensures r.Some? ==> p + 9 <= r.value.1 <= |data|
  {
    if p + 4 > |data| then None
    else
      var key := CString(data, p + 4);
      if key.None? then None
      else
        var val := DecodeValue(data, p + 4 + |key.value| + 1);
        if val.None? then None else Some(((key.value, val.value.0), val.value.1))
  }

  function DecodeValue(data: string, q: nat): (r: Option<(Data, nat)>)
    ensures r.Some? ==> q + 4 <= r.value.1 <= |data|
  {
    if q + 4 > |data| then None
    else if ReadInt(data, q) == -1 then Some((None, q + 4))
    else
      var val := CString(data, q + 4);
      if val.None? then None else Some((Some(val.value), q + 4 + |val.value| + 1))
  }

  /** The elements read, in order, and where the reading stops. */
  datatype Unpacked = Unpacked(entries: seq<Entry>, stop: nat)

  function Prepend(es: seq<Entry>, rest: Option<Unpacked>): Option<Unpacked> {
    match rest case Some(r) => Some(Unpacked(es + r.entries, r.stop)) case None => None
  }

  /** What set_unpack reads from p on; None where it would read past the buffer. */
  function DecodeFrom(data: string, size: int, p: nat): Option<Unpacked>
    decreases |data| - p
  {
    var r := DecodeEntry(data, p);
    if r.None? then None
    else if size <= r.value.1 then Some(Unpacked([r.value.0], r.value.1))
    else Prepend([r.value.0], DecodeFrom(data, size, r.value.1))
  }

  function Decode(data: string): Option<Unpacked> {
    if |data| < 4 then None else DecodeFrom(data, ReadInt(data, 0), 4)
  }

  lemma ReadIntBytes(data: string, p: nat, n: int)
    requires -0x8000_0000 <= n <= INT_MAX && p + 4 <= |data| && data[p..p + 4] == IntBytes(n)
    ensures ReadInt(data, p) == n
  {
    var b := data[p..p + 4];
    assert data[p] == b[0] && data[p + 1] == b[1] && data[p + 2] == b[2] && data[p + 3] == b[3];
  }

  lemma {:induction false} CStringAt(data: string, p: nat, s: string)
    requires IsCString(s) && p + |s| < |data| && data[p..p + |s|] == s && data[p + |s|] == NUL
    ensures CString(data, p) == Some(s)
    decreases |s|
  {
    if s != "" {
      assert data[p] == s[0];
      assert data[p + 1..p + |s|] == s[1..];
      CStringAt(data, p + 1, s[1..]);
      assert s == [s[0]] + s[1..];
    }
  }

  lemma TerminatedAt(data: string, p: nat, s: string)
    requires IsCString(s) && |s| <= INT_MAX && p + |s| + 5 <= |data|
    requires data[p..p + |s| + 5] == Terminated(s)
    ensures ReadInt(data, p) == |s| && CString(data, p + 4) == Some(s)
  {
    hide IntBytes, ReadInt, CString;
    var t := Terminated(s);
    assert t[0..4] == IntBytes(|s|) && t[4..4 + |s|] == s && t[4 + |s|] == NUL;
    SubSlice(data, p, p + |t|, 0, 4);
    ReadIntBytes(data, p, |s|);
    SubSlice(data, p, p + |t|, 4, 4 + |s|);
    assert data[p..p + |t|][4 + |s|] == data[p + 4 + |s|];
    CStringAt(data, p + 4, s);
  }

  lemma DecodeValueAt(data: string, q: nat, d: Data)
    requires (d.Some? ==> IsCString(d.value) && |d.value| <= INT_MAX) && q + |ValueBytes(d)| <= |data|
    requires data[q..q + |ValueBytes(d)|] == ValueBytes(d)
    ensures DecodeValue(data, q) == Some((d, q + |ValueBytes(d)|))
  {
    hide IntBytes, ReadInt, CString, IsCString;
    match d
    case Some(v) => TerminatedAt(data, q, v);
    case None => ReadIntBytes(data, q, -1);
  }

  lemma DecodeEntryAt(data: string, p: nat, e: Entry)
    requires Packable(e) && Fits(e) && p + |EntryBytes(e)| <= |data|
    requires data[p..p + |EntryBytes(e)|] == EntryBytes(e)
    ensures DecodeEntry(data, p) == Some((e, p + |EntryBytes(e)|))
  {
    hide ReadInt, CString, IsCString, ValueBytes, DecodeValue;
    var t := EntryBytes(e);
    assert t[0..|e.0| + 5] == Terminated(e.0) && t[|e.0| + 5..|t|] == ValueBytes(e.1);
    SubSlice(data, p, p + |t|, 0, |e.0| + 5);
    SubSlice(data, p, p + |t|, |e.0| + 5, |t|);
    TerminatedAt(data, p, e.0);
    DecodeValueAt(data, p + |e.0| + 5, e.1);
  }

  lemma {:induction false} DecodeBody(data: string, p: nat, es: seq<Entry>)
    requires es != [] && forall e :: e in es ==> Packable(e) && Fits(e)
    requires p <= |data| && data[p..] == Body(es)
    ensures DecodeFrom(data, |data|, p) == Some(Unpacked(es, |data|))
    decreases |es|
  {
    hide EntryBytes, DecodeEntry, Packable, Fits, Body;
    var t := EntryBytes(es[0]);
    BodyCons(es);
    Front(data, p, t, Body(es[1..]));
    DecodeEntryAt(data, p, es[0]);
    if |es| > 1 {
      BodyNotEmpty(es[1..]);
      DecodeBody(data, p + |t|, es[1..]);
      assert es == [es[0]] + es[1..];
    } else {
      assert es == [es[0]];
    }
  }

  lemma BodyCons(es: seq<Entry>)
    requires es != [] && forall e :: e in es ==> Fits(e)
    ensures Body(es) == EntryBytes(es[0]) + Body(es[1..])
    ensures |es| == 1 ==> Body(es[1..]) == ""
  {
  }

  lemma BodyNotEmpty(es: seq<Entry>)
    requires es != [] && forall e :: e in es ==> Fits(e)
    ensures Body(es) != ""
  {
    BodyCons(es);
    EntryNotEmpty(es[0]);
  }

  lemma Front(data: string, p: nat, t: string, rest: string)
    requires p <= |data| && data[p..] == t + rest
    ensures p + |t| + |rest| == |data| && data[p..p + |t|] == t && data[p + |t|..] == rest
  {
    assert data[p..][..|t|] == t && data[p..][|t|..] == rest;
  }

  lemma EntryNotEmpty(e: Entry)
    requires Fits(e)
    ensures |EntryBytes(e)| == EntrySize(e) > 0
  {
  }

  lemma {:induction false} BodySize(es: seq<Entry>)
    requires forall e :: e in es ==> Fits(e)
    ensures PackSizeOf(es) == 4 + |Body(es)|
  {
    hide EntryBytes, EntrySize, Fits;
    if es != [] {
      var n := |es| - 1;
      BodySize(es[..n]);
      BodySnoc(es[..n], es[n]);
      assert es == es[..n] + [es[n]];
      EntryNotEmpty(es[n]);
    }
  }

  lemma {:induction false} BodySnoc(es: seq<Entry>, e: Entry)
    requires Fits(e) && forall x :: x in es ==> Fits(x)
    ensures Body(es + [e]) == Body(es) + EntryBytes(e)
  {
    hide EntryBytes, Fits;
    if es == [] {
      assert [e][1..] == [];
    } else {
      assert (es + [e])[1..] == es[1..] + [e];
      BodySnoc(es[1..], e);
    }
  }

  /** The bytes: the total length, then of each element its name and its data, each as a length,
      the characters and a null; -1 stands for a null pointer as data. */
  lemma PackedBytes(es: seq<Entry>)
    requires PackSizeOf(es) <= INT_MAX && forall e :: e in es ==> Fits(e)
    ensures |Packed(es)| <= INT_MAX && Packed(es) == IntBytes(|Packed(es)|) + Body(es) && Body([]) == ""
    ensures es != [] ==>
              var (name, data) := es[0];
              Body(es) == IntBytes(|name|) + name + "\0"
                          + (match data case Some(v) => IntBytes(|v|) + v + "\0" case None => IntBytes(-1))
                          + Body(es[1..])
  {
    hide IntBytes, EntryBytes, Fits;
    BodySize(es);
    if es != [] {
      EntryLayout(es[0]);
    }
  }

  lemma EntryLayout(e: Entry)
    requires Fits(e)
    ensures |e.0| <= INT_MAX && (e.1.Some? ==> |e.1.value| <= INT_MAX)
    ensures EntryBytes(e)
         == IntBytes(|e.0|) + e.0 + "\0"
            + match e.1 case Some(v) => IntBytes(|v|) + v + "\0" case None => IntBytes(-1)
  {
    hide IntBytes;
  }

  lemma LittleEndian(n: int)
    requires -0x8000_0000 <= n <= INT_MAX
    ensures var b := IntBytes(n);
            var u := b[0] as int + 0x100 * b[1] as int + 0x1_0000 * b[2] as int + 0x100_0000 * b[3] as int;
            u == if n < 0 then n + 0x1_0000_0000 else n
  {
    var u := if n < 0 then n + 0x1_0000_0000 else n;
    assert u == u % 256 + 256 * (u / 256);
    assert u / 256 == u / 256 % 256 + 256 * (u / 256 / 256);
  }

  /** Reading back what was packed: exactly the elements, in order, with a null kept apart from
      the empty string, up to the very end of the bytes; but a packed empty set makes the reader
      leave the buffer. */
  lemma DecodePacked(es: seq<Entry>)
    requires PackSizeOf(es) <= INT_MAX && forall e :: e in es ==> Packable(e) && Fits(e)
    ensures |Packed(es)| == PackSizeOf(es)
    ensures Decode(Packed(es)) == if es == [] then None else Some(Unpacked(es, |Packed(es)|))
  {
    hide IntBytes, ReadInt, DecodeFrom, Packable, Fits, EntryBytes;
    var data := Packed(es);
    BodySize(es);
    assert data[..4] == IntBytes(PackSizeOf(es)) && data[0..4] == data[..4];
    ReadIntBytes(data, 0, PackSizeOf(es));
    assert data[4..] == Body(es);
    if es == [] {
      DecodeNothing(data);
    } else {
      DecodeBody(data, 4, es);
    }
  }

  lemma DecodeNothing(data: string)
    requires |data| == 4
    ensures DecodeFrom(data, 4, 4) == None
  {
  }

  // The map a list of elements stands for.

  function MapOf(es: seq<Entry>): map<string, Data> {
    if es == [] then map[] else MapOf(es[..|es| - 1])[es[|es| - 1].0 := es[|es| - 1].1]
  }

  function EntriesOf(order: seq<Node>): seq<Entry>
    reads order
  {
    seq(|order|, i requires 0 <= i < |order| reads order => (order[i].name, order[i].data))
  }

  lemma {:induction false} MapOfView(m: Model, hash: string -> nat, order: seq<Node>, n: nat)
    requires Sound(m, hash) && Keeps(m, m.nodes) && Elements(order) == m.nodes && n <= |order|
    ensures MapOf(EntriesOf(order)[..n]) == Part(m.view, Names(Elements(order[..n])))
  {
    hide Sound, Part, Names;
    var es := EntriesOf(order);
    if n == 0 {
      PartAll(m, hash);
      assert Elements(order[..0]) == {};
    } else {
      MapOfView(m, hash, order, n - 1);
      var x := order[n - 1];
      assert x in Elements(order);
      PartStep(m, hash, Elements(order[..n - 1]), x);
      assert Elements(order[..n]) == Elements(order[..n - 1]) + {x};
      assert es[..n][..n - 1] == es[..n - 1];
    }
  }

  /** The elements in walking order stand for the view of the set. */
  lemma OrderHoldsView(s: HashSet, order: seq<Node>)
    requires s.Valid() && Elements(order) == s.m.nodes
    ensures MapOf(EntriesOf(order)) == s.View()
  {
    hide Sound, Part, Names, Keeps;
    MapOfView(s.m, s.hash, order, |order|);
    PartAll(s.m, s.hash);
    assert order[..|order|] == order && EntriesOf(order)[..|order|] == EntriesOf(order);
  }

  /** memcpy and strcpy: the bytes at p are replaced. */
  method WriteBytes(buf: array<char>, p: nat, b: string) returns (q: nat)
    requires p + |b| <= buf.Length
    modifies buf
    ensures q == p + |b| && buf[..q] == old(buf[..p]) + b
  {
    for i := 0 to |b|
      invariant buf[..p + i] == old(buf[..p]) + b[..i]
    {
      buf[p + i] := b[i];
    }
    q := p + |b|;
  }

  /** set_pack_size: the length of the packed form, when a C int holds it. */
  method PackSize(es: seq<Entry>) returns (size: nat)
    ensures size == PackSizeOf(es)
    ensures size <= INT_MAX ==> (forall e :: e in es ==> Fits(e)) && size == |Packed(es)|
  {
    hide Fits, Packed;
    size := 0;
    for i := 0 to |es|
      invariant size + 4 == PackSizeOf(es[..i])
    {
      assert es[..i + 1][..i] == es[..i];
      size := size + |es[i].0| + 1 + 4;
      if es[i].1.Some? {
        size := size + |es[i].1.value| + 1 + 4;
      } else {
        size := size + 4;
      }
    }
    assert es[..|es|] == es;
    size := size + 4;
    if size <= INT_MAX {
      AllFit(es);
      PackedSize(es);
    }
  }

  lemma PackedSize(es: seq<Entry>)
    requires PackSizeOf(es) <= INT_MAX && forall e :: e in es ==> Fits(e)
    ensures |Packed(es)| == PackSizeOf(es)
  {
    BodySize(es);
  }

  lemma {:induction false} PrefixFits(es: seq<Entry>, i: nat)
    requires i < |es| && PackSizeOf(es) <= INT_MAX
    ensures Fits(es[i]) && PackSizeOf(es[..i]) + EntrySize(es[i]) <= PackSizeOf(es)
    decreases |es| - i
  {
    var n := |es| - 1;
    if i < n {
      PrefixFits(es[..n], i);
      assert es[..n][..i] == es[..i];
    }
  }

  lemma AllFit(es: seq<Entry>)
    requires PackSizeOf(es) <= INT_MAX
    ensures forall e :: e in es ==> Fits(e)
  {
    forall i | 0 <= i < |es| ensures Fits(es[i]) { PrefixFits(es, i); }
  }

  lemma PackNone()
    ensures PackSizeOf([]) == 4 && Body([]) == ""
  {
  }

  lemma PackStep(es: seq<Entry>, i: nat)
    requires i < |es| && forall e :: e in es ==> Fits(e)
    ensures PackSizeOf(es[..i + 1]) == PackSizeOf(es[..i]) + |EntryBytes(es[i])|
    ensures Body(es[..i + 1]) == Body(es[..i]) + EntryBytes(es[i])
    ensures |EntryBytes(es[i])| == EntrySize(es[i])
  {
    hide EntryBytes, EntrySize, Fits, Body;
    EntryNotEmpty(es[i]);
    BodySnoc(es[..i], es[i]);
    assert es[..i + 1] == es[..i] + [es[i]] && es[..i + 1][..i] == es[..i];
  }

  /** set_pack, over the elements in bucket order: fills exactly set_pack_size bytes. */
  method PackEntries(es: seq<Entry>) returns (buf: array<char>)
    requires PackSizeOf(es) <= INT_MAX
    ensures forall e :: e in es ==> Fits(e)
    ensures fresh(buf) && buf.Length == PackSizeOf(es) && buf[..] == Packed(es)
  {
    hide IntBytes, EntryBytes, EntrySize, PackSizeOf, Body, Fits;
    AllFit(es);
    PackNone();
    PackedSize(es);
    var size := PackSize(es);
    buf := new char[size](_ => NUL);
    var p := WriteBytes(buf, 0, IntBytes(size));
    for i := 0 to |es|
      invariant p == PackSizeOf(es[..i]) <= size
      invariant buf[..p] == IntBytes(size) + Body(es[..i])
    {
      PrefixFits(es, i);
      PackStep(es, i);
      p := WriteBytes(buf, p, EntryBytes(es[i]));
    }
    assert es[..|es|] == es && buf[..size] == buf[..];
  }

  /** set_pack. The elements appear in bucket order; entries lists them. */
  method Pack(s: HashSet) returns (buf: array<char>, ghost entries: seq<Entry>)
    requires s.Valid() && PacksInInt(s)
    ensures MapOf(entries) == s.View() && |entries| == s.members
    ensures PackSizeOf(entries) <= INT_MAX && forall e :: e in entries ==> Fits(e)
    ensures fresh(buf) && buf.Length == PackSizeOf(entries) && buf[..] == Packed(entries)
  {
    hide PackSizeOf, MapOf, Packed, HashSet.Valid, Fits;
    var nodes, order := s.Members();
    OrderHoldsView(s, order);
    var es: seq<Entry> := [];
    for i := 0 to s.members
      invariant es == EntriesOf(order)[..i]
    {
      es := es + [(nodes[i].name, nodes[i].data)];
    }
    assert es == EntriesOf(order);
    entries := es;
    buf := PackEntries(es);
  }

  lemma DecodeStep(data: string, size: int, p: nat, es: seq<Entry>)
    ensures var r := DecodeEntry(data, p);
            Prepend(es, DecodeFrom(data, size, p))
              == if r.None? then None
                 else if size <= r.value.1 then Some(Unpacked(es + [r.value.0], r.value.1))
                 else Prepend(es + [r.value.0], DecodeFrom(data, size, r.value.1))
  {
    hide DecodeEntry;
    var r := DecodeEntry(data, p);
    if r.Some? && size > r.value.1 {
      var rest := DecodeFrom(data, size, r.value.1);
      if rest.Some? {
        assert es + ([r.value.0] + rest.value.entries) == es + [r.value.0] + rest.value.entries;
      }
    }
  }

  /** set_unpack, and where its pointer ends; ok is false where the source would read past the
      end of the buffer. */
  method Unpack(hash: string -> nat, data: string) returns (s: HashSet, ok: bool, stop: nat)
    requires |data| <= INT_MAX
    ensures s.Valid() && fresh(s.Repr)
    ensures ok <==> Decode(data).Some?
    ensures ok ==> s.View() == MapOf(Decode(data).value.entries) && stop == Decode(data).value.stop
  {
    hide ReadInt, DecodeEntry, DecodeFrom, HashSet.Valid, IsNextPrime, IsTableSize;
    s := new HashSet(hash, 0);
    if |data| < 4 {
      return s, false, 0;
    }
    var size := ReadInt(data, 0);
    var p: nat := 4;
    ghost var es: seq<Entry> := [];
    PrependNone(DecodeFrom(data, size, p));
    while true
      invariant s.Valid() && fresh(s.Repr)
      invariant Decode(data) == Prepend(es, DecodeFrom(data, size, p))
      invariant s.View() == MapOf(es) && 9 * s.members + 4 <= p <= |data|
      decreases |data| - p
    {
      DecodeStep(data, size, p, es);
      var r := DecodeEntry(data, p);
      if r.None? {
        return s, false, p;
      }
      var ((key, val), q) := r.value;
      s.Add(key, val);
      assert (es + [(key, val)])[..|es|] == es;
      p := q;
      if size <= p {
        return s, true, p;
      }
      es := es + [(key, val)];
    }
  }

  lemma PrependNone(r: Option<Unpacked>)
    ensures Prepend([], r) == r
  {
    if r.Some? {
      assert [] + r.value.entries == r.value.entries;
    }
  }

  // A whole set.

  /** Elements as many as the map has keys each stand in the map. */
  lemma {:induction false} EntriesInMap(es: seq<Entry>)
    ensures |MapOf(es)| <= |es|
    ensures |MapOf(es)| == |es| ==> forall e :: e in es ==> e.0 in MapOf(es) && MapOf(es)[e.0] == e.1
  {
    if es != [] {
      var n := |es| - 1;
      EntriesInMap(es[..n]);
      MapSizeStep(MapOf(es[..n]), es[n].0, es[n].1);
      assert es == es[..n] + [es[n]];
    }
  }

  lemma MapSizeStep(m: map<string, Data>, x: string, d: Data)
    ensures |m[x := d]| == if x in m then |m| else |m| + 1
  {
    assert m[x := d].Keys == m.Keys + {x};
    assert |m[x := d]| == |m[x := d].Keys| && |m| == |m.Keys|;
  }

  /** Every key and every value of the map is a C string or null. */
  ghost predicate AllCStrings(view: map<string, Data>) {
    forall x :: x in view ==> Packable((x, view[x]))
  }

  /** The set packs into at most INT_MAX bytes. */
  ghost predicate PacksInInt(s: HashSet)
    reads s
  {
    forall es :: MapOf(es) == s.View() && |es| == s.members ==> PackSizeOf(es) <= INT_MAX
  }

  lemma EntriesPackable(es: seq<Entry>, view: map<string, Data>)
    requires MapOf(es) == view && |es| == |view| && AllCStrings(view)
    ensures forall e :: e in es ==> Packable(e)
    ensures es == [] <==> view == map[]
  {
    hide Packable;
    EntriesInMap(es);
    forall e | e in es ensures Packable(e) {
      assert e == (e.0, view[e.0]);
    }
  }

  lemma MembersIsSize(s: HashSet)
    requires s.Valid()
    ensures s.members == |s.View()|
  {
    hide Sound, Mirrors;
    assert |s.m.view.Keys| == |s.m.view|;
  }

  /** Packing a set of C strings and unpacking the bytes gives an equal set, and the reader stops
      at the end of the buffer. An empty set is the exception: its four bytes do not unpack. */
  method PackUnpack(s: HashSet) returns (buf: array<char>, t: HashSet, ok: bool, stop: nat)
    requires s.Valid() && PacksInInt(s) && AllCStrings(s.View())
    ensures t.Valid() && fresh(t.Repr)
    ensures ok <==> s.View() != map[]
    ensures ok ==> t.View() == s.View() && stop == buf.Length
  {
    hide HashSet.Valid, HashSet.View, Decode, MapOf, Packed, PackSizeOf, Packable, Fits;
    MembersIsSize(s);
    ghost var entries;
    buf, entries := Pack(s);
    EntriesPackable(entries, s.View());
    DecodePacked(entries);
    t, ok, stop := Unpack(s.hash, buf[..]);
  }
}
