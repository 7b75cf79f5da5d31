/** Finding the netblock of an address by probing one key for each prefix length (netblock.c). */
module Netblock {
  import opened Text
  import Decimal

  /** A netblock and its datacenter, as one line of the IP list gives them. */
  datatype NetColo = NetColo(base: nat, bits: nat, str: string, colo: string)

  const ADDRESSES := 0x1_0000_0000

  /** The number of addresses in a block of the given prefix length. */
  function BlockSize(bits: nat): (n: nat)
    requires bits <= 32
    ensures n > 0
    decreases 32 - bits
  {
    if bits == 32 then 1 else 2 * BlockSize(bits + 1)
  }

  /** The address with the host bits cleared (IMASK). */
  function Masked(address: nat, bits: nat): (base: nat)
    requires bits <= 32
    ensures base <= address
  {
    Aligned(address, BlockSize(bits))
  }

  function Aligned(a: nat, n: nat): (b: nat)
    requires n > 0
    ensures b <= a
  {
    RemainderFits(a, n);
    a - a % n
  }

  lemma RemainderFits(a: nat, n: nat)
    requires n > 0
    ensures a % n <= a
  {
  }

  // Keys.

  function HexChar(d: nat): (c: char)
    requires d < 16
    ensures c != '/'
  {
    if d < 10 then '0' + d as char else 'a' + (d - 10) as char
  }

  /** printf "%x" */
  function Hex(n: nat): (s: string)
    ensures |s| > 0 && '/' !in s
  {
    if n < 16 then [HexChar(n)] else Hex(n / 16) + [HexChar(n % 16)]
  }

  /** printf "%x/%d" */
  function Key(base: nat, bits: nat): string {
    Hex(base) + "/" + Decimal.Itoa(bits)
  }

  lemma HexCharInjective(d: nat, e: nat)
    requires d < 16 && e < 16 && HexChar(d) == HexChar(e)
    ensures d == e
  {
  }

  lemma HexLong(n: nat)
    ensures |Hex(n)| > 1 <==> n >= 16
  {
  }

  lemma {:induction false} HexInjective(m: nat, n: nat)
    requires Hex(m) == Hex(n)
    ensures m == n
    decreases m
  {
    hide HexChar;
    var s, t := Hex(m), Hex(n);
    HexLong(m);
    HexLong(n);
    if m >= 16 {
      assert s[..|s| - 1] == Hex(m / 16) && t[..|t| - 1] == Hex(n / 16);
      assert s[|s| - 1] == HexChar(m % 16) && t[|t| - 1] == HexChar(n % 16);
      HexInjective(m / 16, n / 16);
      HexCharInjective(m % 16, n % 16);
    } else {
      assert s[0] == HexChar(m) && t[0] == HexChar(n);
      HexCharInjective(m, n);
    }
  }

  lemma SameCut(a: string, b: string, c: string, d: string)
    requires '/' !in a && '/' !in c && a + "/" + b == c + "/" + d
    ensures a == c && b == d
  {
    var s, t := a + "/" + b, c + "/" + d;
    IndexFound(a, '/', b);
    IndexFound(c, '/', d);
    assert s[..|a|] == a && t[..|c|] == c && s[|a| + 1..] == b && t[|c| + 1..] == d;
  }

  /** A key belongs to one block only. */
  lemma KeyInjective(base: nat, bits: nat, base': nat, bits': nat)
    requires Key(base, bits) == Key(base', bits')
    ensures base == base' && bits == bits'
  {
    hide Hex, Decimal.Itoa;
    SameCut(Hex(base), Decimal.Itoa(bits), Hex(base'), Decimal.Itoa(bits'));
    HexInjective(base, base');
    Decimal.ItoaInjective(bits, bits');
  }

  // The tables.

  /** The last record of a block stands in the table. */
  function Table(records: seq<NetColo>): map<string, NetColo> {
    if records == [] then map[]
    else
      var r := records[|records| - 1];
      Table(records[..|records| - 1])[Key(r.base, r.bits) := r]
  }

  function Colos(records: seq<NetColo>): set<string> {
    set r | r in records :: r.colo
  }

  function StringsOf(records: seq<NetColo>, colo: string): set<string> {
    set r | r in records && r.colo == colo :: r.str
  }

  /** The table-building part of read_netblocks, over the records of all well-formed lines. */
  method ReadNetblocks(records: seq<NetColo>) returns (result: map<string, NetColo>, coloNets: map<string, set<string>>)
    ensures result == Table(records)
    ensures coloNets.Keys == Colos(records)
    ensures forall c :: c in coloNets ==> coloNets[c] == StringsOf(records, c)
    ensures forall r :: r in records ==> r.colo in coloNets && r.str in coloNets[r.colo]
    ensures forall c, s :: c in coloNets && s in coloNets[c] ==> exists r :: r in records && r.colo == c && r.str == s
  {
    hide Key, StringsOf, Colos;
    NoColos();
    assert records[..0] == [];
    result, coloNets := map[], map[];
    var i := 0;
    while i < |records|
      invariant i <= |records| && result == Table(records[..i])
      invariant coloNets.Keys == Colos(records[..i])
      invariant forall c :: c in coloNets ==> coloNets[c] == StringsOf(records[..i], c)
    {
      var nc := records[i];
      assert records[..i + 1][..i] == records[..i];
      StringsStep(records, i);
      result := result[Key(nc.base, nc.bits) := nc];
      var nets := if nc.colo in coloNets then coloNets[nc.colo] else {};
      coloNets := coloNets[nc.colo := nets + {nc.str}];
      i := i + 1;
    }
    assert records[..i] == records;
    StringsAre(records);
  }

  lemma StringsAre(records: seq<NetColo>)
    ensures forall r :: r in records ==> r.colo in Colos(records) && r.str in StringsOf(records, r.colo)
    ensures forall c, s :: s in StringsOf(records, c) ==> exists r :: r in records && r.colo == c && r.str == s
  {
  }

  lemma NoColos()
    ensures Colos([]) == {}
  {
  }

  lemma StringsStep(records: seq<NetColo>, i: nat)
    requires i < |records|
    ensures forall c :: StringsOf(records[..i + 1], c)
                     == StringsOf(records[..i], c) + if records[i].colo == c then {records[i].str} else {}
    ensures Colos(records[..i + 1]) == Colos(records[..i]) + {records[i].colo}
    ensures forall c :: c !in Colos(records[..i]) ==> StringsOf(records[..i], c) == {}
  {
    assert records[..i + 1] == records[..i] + [records[i]];
    assert records[i] in records[..i + 1];
  }

  /** No later record is of the same block. */
  ghost predicate LastRecord(records: seq<NetColo>, r: NetColo) {
    exists i :: 0 <= i < |records| && records[i] == r
      && forall j :: i < j < |records| ==> (records[j].base, records[j].bits) != (r.base, r.bits)
  }

  /** A key finds the last record of its block, and nothing only if the block has no record. */
  lemma {:induction false} TableHolds(records: seq<NetColo>, base: nat, bits: nat)
    ensures var key := Key(base, bits);
            if key in Table(records)
            then Table(records)[key].base == base && Table(records)[key].bits == bits
              && LastRecord(records, Table(records)[key])
            else forall r :: r in records ==> r.base != base || r.bits != bits
  {
    hide Key, LastRecord;
    if records != [] {
      var n := |records| - 1;
      var r := records[n];
      TableHolds(records[..n], base, bits);
      assert records == records[..n] + [r];
      if Key(r.base, r.bits) == Key(base, bits) {
        KeyInjective(r.base, r.bits, base, bits);
        NewIsLast(records);
      } else if Key(base, bits) in Table(records[..n]) {
        var found := Table(records[..n])[Key(base, bits)];
        assert (r.base, r.bits) != (base, bits);
        LastStays(records, found);
      }
    }
  }

  lemma NewIsLast(records: seq<NetColo>)
    requires records != []
    ensures LastRecord(records, records[|records| - 1])
  {
  }

  lemma LastStays(records: seq<NetColo>, found: NetColo)
    requires records != [] && LastRecord(records[..|records| - 1], found)
    requires (records[|records| - 1].base, records[|records| - 1].bits) != (found.base, found.bits)
    ensures LastRecord(records, found)
  {
    var n := |records| - 1;
    var front := records[..n];
    var i :| 0 <= i < n && front[i] == found
      && forall j :: i < j < n ==> (front[j].base, front[j].bits) != (found.base, found.bits);
    assert forall j :: 0 <= j < n ==> front[j] == records[j];
    assert records[i] == found;
  }

  // The lookup.

  /** The addresses from the base on, as many as the prefix length leaves. */
  predicate Contains(r: NetColo, address: nat)
    requires r.bits <= 32
  {
    r.base <= address < r.base + BlockSize(r.bits)
  }

  /** Keys are the hexadecimal base, a slash and the decimal prefix length. */
  lemma KeyExample()
    ensures Key(0xa01_ff00, 24) == "a01ff00/24"
  {
    assert Hex(0xa0) == "a0" && Hex(0xa01) == "a01" && Hex(0xa01f) == "a01f";
    assert Hex(0xa_01ff) == "a01ff" && Hex(0xa0_1ff0) == "a01ff0" && Hex(0xa01_ff00) == "a01ff00";
    assert Decimal.Itoa(24) == "24";
  }

  /** The block sizes double from one address to all of them. */
  lemma Sizes()
    ensures BlockSize(32) == 1 && BlockSize(31) == 2 && BlockSize(24) == 0x100 && BlockSize(16) == 0x1_0000
    ensures BlockSize(8) == 0x100_0000 && BlockSize(0) == ADDRESSES == 0x1_0000_0000
  {
    Halves(28);
    Halves(24);
    Halves(20);
    Halves(16);
    Halves(12);
    Halves(8);
    Halves(4);
    Halves(0);
  }

  lemma Halves(bits: nat)
    requires bits <= 28
    ensures BlockSize(bits) == 16 * BlockSize(bits + 4)
  {
    assert BlockSize(bits + 2) == 2 * BlockSize(bits + 3) == 4 * BlockSize(bits + 4);
  }

  /** A block that a prefix of 1 to 32 bits denotes: its host bits are zero. */
  predicate Proper(r: NetColo) {
    1 <= r.bits <= 32 && r.base % BlockSize(r.bits) == 0
  }

  lemma SameMultiple(a: nat, b: nat, n: nat)
    requires n > 0 && b % n == 0
    ensures Aligned(a, n) == b <==> b <= a < b + n
  {
    var q, p := a / n, b / n;
    assert a == q * n + a % n && b == p * n;
    Distribute(q, p, n);
    NoMultiple(q - p, n, a % n);
  }

  lemma Distribute(q: int, p: int, n: int)
    ensures (q - p) * n == q * n - p * n
  {
  }

  /** A multiple of n that differs from a remainder by less than n is zero. */
  lemma NoMultiple(d: int, n: nat, m: nat)
    requires m < n
    ensures 0 <= d * n + m < n ==> d == 0
  {
    if d >= 1 {
      assert d * n >= n;
    } else if d <= -1 {
      assert (d + 1) * n <= 0;
    }
  }

  /** A proper block contains exactly the addresses whose masked form is its base. */
  lemma MaskDecides(r: NetColo, address: nat)
    requires 1 <= r.bits <= 32
    ensures Masked(address, r.bits) == r.base <==> Proper(r) && Contains(r, address)
  {
    hide BlockSize, Aligned;
    var n := BlockSize(r.bits);
    AlignedIsMultiple(address, n);
    if r.base % n == 0 {
      SameMultiple(address, r.base, n);
    }
  }

  lemma AlignedIsMultiple(a: nat, n: nat)
    requires n > 0
    ensures Aligned(a, n) % n == 0
  {
    var b := Aligned(a, n);
    var q, p := a / n, b / n;
    assert a == q * n + a % n && b == p * n + b % n;
    Distribute(q, p, n);
    NoMultiple(q - p, n, 0);
  }

  /** What probing finds, from a prefix length downwards. */
  function Probe(netblocks: map<string, NetColo>, address: nat, bits: nat): Option<NetColo>
    requires bits <= 32
  {
    if bits == 0 then None
    else
      var key := Key(Masked(address, bits), bits);
      if key in netblocks then Some(netblocks[key]) else Probe(netblocks, address, bits - 1)
  }

  /** Probing finds the longest proper block that contains the address, from its last record; it
      finds nothing only if no proper block of the probed lengths contains the address. Records
      with host bits set, or with a prefix of no bits or more than 32, are never found. */
  lemma {:induction false} ProbeFindsLongest(records: seq<NetColo>, address: nat, bits: nat)
    requires bits <= 32
    ensures match Probe(Table(records), address, bits)
            case None => forall r :: r in records && Proper(r) && r.bits <= bits ==> !Contains(r, address)
            case Some(nc) =>
              && nc in records && LastRecord(records, nc) && Proper(nc) && Contains(nc, address)
              && forall r :: r in records && Proper(r) && r.bits <= bits && Contains(r, address) ==> r.bits <= nc.bits
  {
    hide BlockSize, Key, Masked, Contains, LastRecord, Table;
    if bits > 0 {
      ProbeFindsLongest(records, address, bits - 1);
      var key := Key(Masked(address, bits), bits);
      TableHolds(records, Masked(address, bits), bits);
      forall r | r in records && Proper(r) && Contains(r, address) && r.bits == bits ensures key in Table(records) {
        MaskDecides(r, address);
      }
      if key in Table(records) {
        MaskDecides(Table(records)[key], address);
        LastIsRecord(records, Table(records)[key]);
      }
    }
  }

  /** netcolo_for_ip */
  method NetcoloForIp(netblocks: map<string, NetColo>, address: nat, ghost records: seq<NetColo>)
    returns (nc: Option<NetColo>)
    requires address < ADDRESSES && netblocks == Table(records)
    ensures nc == Probe(netblocks, address, 32)
    ensures nc.None? ==> forall r :: r in records && Proper(r) ==> !Contains(r, address)
    ensures nc.Some? ==>
              && nc.value in records && LastRecord(records, nc.value)
              && Proper(nc.value) && Contains(nc.value, address)
              && forall r :: r in records && Proper(r) && Contains(r, address) ==> r.bits <= nc.value.bits
  {
    hide BlockSize, Key, Table, Masked, Contains, LastRecord;
    ProbeFindsLongest(records, address, 32);
    var bits := 32;
    while bits > 0
      invariant bits <= 32 && Probe(netblocks, address, bits) == Probe(netblocks, address, 32)
    {
      var base := Masked(address, bits);
      var key := Key(base, bits);
      if key in netblocks {
        return Some(netblocks[key]);
      }
      bits := bits - 1;
    }
    nc := None;
  }

  lemma LastIsRecord(records: seq<NetColo>, r: NetColo)
    requires LastRecord(records, r)
    ensures r in records
  {
  }
}
