/** The four host indexes: host to netblock, host to datacenter, and back
    (init_caches in hosts-netblocks.c). */
module HostIndex {
  import opened Text
  import opened Netblock

  datatype Ip = Ip(str: string, binary: nat)

  datatype IpHost = IpHost(hostname: string, ip: Ip)

  /** The room for a host name without its terminating null. */
  const NAME_ROOM := 511

  /** The indexed form of a host name: cut to the room there is, without a final dot, and without
      the default domain and the character before it. */
  function ShortName(hostname: string, domain: Option<string>): string
    requires hostname != ""
  {
    var cut := if |hostname| > NAME_ROOM then hostname[..NAME_ROOM] else hostname;
    var name := if cut[|cut| - 1] == '.' then cut[..|cut| - 1] else cut;
    if domain.Some? && |name| > |domain.value| && name[|name| - |domain.value|..] == domain.value
    then name[..|name| - |domain.value| - 1]
    else name
  }

  /** The name is indexed without its final dot and default domain. */
  lemma DomainDropped(host: string, domain: string)
    requires host != "" && |host| + |domain| + 1 <= NAME_ROOM
    requires domain != "" && domain[|domain| - 1] != '.'
    ensures ShortName(host + "." + domain, Some(domain)) == host
    ensures |host| + |domain| + 2 <= NAME_ROOM ==> ShortName(host + "." + domain + ".", Some(domain)) == host
  {
    var full := host + "." + domain;
    assert full[|full| - |domain|..] == domain && full[..|full| - |domain| - 1] == host;
    assert (full + ".")[..|full|] == full;
  }

  /** Any other name is indexed as it is, without its final dot; of a longer name only the first
      511 characters count. */
  lemma OtherNamesKept(host: string, domain: Option<string>)
    requires host != "" && host[|host| - 1] != '.'
    requires domain.Some? ==> forall a :: a != "" ==> host != a + domain.value
    ensures |host| <= 511 ==> ShortName(host, domain) == host
    ensures |host| <= 510 ==> ShortName(host + ".", domain) == host
  {
    NotInDomain(host, domain);
    var dotted := host + ".";
    assert dotted[..|host|] == host && dotted[|dotted| - 1] == '.';
  }

  lemma NotInDomain(host: string, domain: Option<string>)
    requires domain.Some? ==> forall a :: a != "" ==> host != a + domain.value
    ensures domain.Some? && |host| > |domain.value| ==> host[|host| - |domain.value|..] != domain.value
  {
    if domain.Some? && |host| > |domain.value| {
      var a := host[..|host| - |domain.value|];
      assert host == a + host[|host| - |domain.value|..];
      assert a != "";
    }
  }

  lemma LongNamesCut(host: string, domain: Option<string>)
    requires |host| > 511
    ensures ShortName(host, domain) == ShortName(host[..511], domain)
  {
  }

  /** What the indexes are built from: the hosts, the default domain, and the netblock table. */
  datatype World = World(hosts: seq<IpHost>, domain: Option<string>, netblocks: map<string, NetColo>)

  ghost predicate Wellformed(w: World) {
    forall h :: h in w.hosts ==> h.hostname != "" && h.ip.binary < ADDRESSES
  }

  function Located(w: World, h: IpHost): Option<NetColo> {
    Probe(w.netblocks, h.ip.binary, 32)
  }

  function KeyOf(nc: NetColo): string {
    Key(nc.base, nc.bits)
  }

  /** The host is indexed under the name k: by its short name or its address. */
  predicate Mentions(w: World, h: IpHost, k: string)
    requires h.hostname != ""
  {
    Located(w, h).Some? && (ShortName(h.hostname, w.domain) == k || h.ip.str == k)
  }

  /** The netblock of the last of the first n hosts that is indexed under k. */
  function LastBlock(w: World, n: nat, k: string): Option<NetColo>
    requires n <= |w.hosts| && forall h :: h in w.hosts ==> h.hostname != ""
  {
    if n == 0 then None
    else if Mentions(w, w.hosts[n - 1], k) then Located(w, w.hosts[n - 1])
    else LastBlock(w, n - 1, k)
  }

  /** The short names of the hosts in the block with this key. */
  function BlockHosts(w: World, hosts: seq<IpHost>, key: string): set<string>
    requires forall h :: h in hosts ==> h.hostname != ""
  {
    set h | h in hosts && Located(w, h).Some? && KeyOf(Located(w, h).value) == key :: ShortName(h.hostname, w.domain)
  }

  function CenterHosts(w: World, hosts: seq<IpHost>, colo: string): set<string>
    requires forall h :: h in hosts ==> h.hostname != ""
  {
    set h | h in hosts && Located(w, h).Some? && Located(w, h).value.colo == colo :: ShortName(h.hostname, w.domain)
  }

  /** hn and hd over the first n hosts: the last host indexed under a name decides. */
  ghost predicate NamesIndexed(w: World, n: nat, hn: map<string, NetColo>, hd: map<string, string>)
    requires n <= |w.hosts| && Wellformed(w)
  {
    && (forall k :: (k in hn <==> LastBlock(w, n, k).Some?) && (k in hn ==> LastBlock(w, n, k) == Some(hn[k])))
    && hd.Keys == hn.Keys && (forall k :: k in hn ==> hd[k] == hn[k].colo)
  }

  /** nh over the first n hosts: each block with a host lists exactly its hosts. */
  ghost predicate BlocksIndexed(w: World, n: nat, nh: map<string, set<string>>)
    requires n <= |w.hosts| && Wellformed(w)
  {
    forall k :: (k in nh <==> BlockHosts(w, w.hosts[..n], k) != {}) && (k in nh ==>
      nh[k] == BlockHosts(w, w.hosts[..n], k))
  }

  /** dh over the first n hosts: each datacenter with a host lists exactly its hosts. */
  ghost predicate CentersIndexed(w: World, n: nat, dh: map<string, set<string>>)
    requires n <= |w.hosts| && Wellformed(w)
  {
    forall c :: (c in dh <==> CenterHosts(w, w.hosts[..n], c) != {}) && (c in dh ==>
      dh[c] == CenterHosts(w, w.hosts[..n], c))
  }

  function AddTo(index: map<string, set<string>>, k: string, name: string): map<string, set<string>> {
    index[k := (if k in index then index[k] else {}) + {name}]
  }

  lemma BlocksStep(w: World, n: nat, nh: map<string, set<string>>)
    requires Wellformed(w) && n < |w.hosts| && BlocksIndexed(w, n, nh)
    ensures var h := w.hosts[n];
            match Located(w, h)
            case None => BlocksIndexed(w, n + 1, nh)
            case Some(nc) => BlocksIndexed(w, n + 1, AddTo(nh, KeyOf(nc), ShortName(h.hostname, w.domain)))
  {
    hide Located, ShortName, KeyOf, BlockHosts;
    forall k {
      BlockHostsStep(w, n, k);
    }
  }

  lemma BlockHostsStep(w: World, n: nat, k: string)
    requires Wellformed(w) && n < |w.hosts|
    ensures var h := w.hosts[n];
            BlockHosts(w, w.hosts[..n + 1], k)
              == BlockHosts(w, w.hosts[..n], k)
                 + if Located(w, h).Some?
                   && KeyOf(Located(w, h).value) == k then {ShortName(h.hostname, w.domain)} else {}
  {
    hide Located, ShortName, KeyOf;
    assert w.hosts[..n + 1] == w.hosts[..n] + [w.hosts[n]];
  }

  lemma CenterHostsStep(w: World, n: nat, c: string)
    requires Wellformed(w) && n < |w.hosts|
    ensures var h := w.hosts[n];
            CenterHosts(w, w.hosts[..n + 1], c)
              == CenterHosts(w, w.hosts[..n], c)
                 + if Located(w, h).Some?
                   && Located(w, h).value.colo == c then {ShortName(h.hostname, w.domain)} else {}
  {
    hide Located, ShortName;
    assert w.hosts[..n + 1] == w.hosts[..n] + [w.hosts[n]];
  }

  lemma CentersStep(w: World, n: nat, dh: map<string, set<string>>)
    requires Wellformed(w) && n < |w.hosts| && CentersIndexed(w, n, dh)
    ensures var h := w.hosts[n];
            match Located(w, h)
            case None => CentersIndexed(w, n + 1, dh)
            case Some(nc) => CentersIndexed(w, n + 1, AddTo(dh, nc.colo, ShortName(h.hostname, w.domain)))
  {
    hide Located, ShortName, CenterHosts;
    forall c {
      CenterHostsStep(w, n, c);
    }
  }

  lemma NamesStep(w: World, n: nat, hn: map<string, NetColo>, hd: map<string, string>)
    requires Wellformed(w) && n < |w.hosts| && NamesIndexed(w, n, hn, hd)
    ensures var h := w.hosts[n];
            match Located(w, h)
            case None => NamesIndexed(w, n + 1, hn, hd)
            case Some(nc) =>
              var name := ShortName(h.hostname, w.domain);
              NamesIndexed(w, n + 1, hn[name := nc][h.ip.str := nc], hd[name := nc.colo][h.ip.str := nc.colo])
  {
    hide Located, ShortName;
  }

  lemma NothingIndexed(w: World)
    requires Wellformed(w)
    ensures NamesIndexed(w, 0, map[], map[]) && BlocksIndexed(w, 0, map[]) && CentersIndexed(w, 0, map[])
  {
  }

  /** init_caches */
  method InitCaches(w: World, ghost records: seq<NetColo>)
    returns (hn: map<string, NetColo>, hd: map<string, string>, nh: map<string, set<string>>, dh: map<string, set<string>>)
    requires Wellformed(w) && w.netblocks == Table(records)
    ensures NamesIndexed(w, |w.hosts|, hn, hd)
    ensures BlocksIndexed(w, |w.hosts|, nh) && CentersIndexed(w, |w.hosts|, dh)
  {
    hide NamesIndexed, BlocksIndexed, CentersIndexed, ShortName, Proper, Contains, LastRecord;
    hn, hd, nh, dh := map[], map[], map[], map[];
    NothingIndexed(w);
    var i := 0;
    while i < |w.hosts|
      invariant i <= |w.hosts|
      invariant NamesIndexed(w, i, hn, hd) && BlocksIndexed(w, i, nh) && CentersIndexed(w, i, dh)
    {
      var iph := w.hosts[i];
      NamesStep(w, i, hn, hd);
      BlocksStep(w, i, nh);
      CentersStep(w, i, dh);
      i := i + 1;
      var nc := NetcoloForIp(w.netblocks, iph.ip.binary, records);
      if nc.None? {
        continue;
      }
      var name := ShortName(iph.hostname, w.domain);
      var block := nc.value;
      hn := hn[name := block][iph.ip.str := block];
      hd := hd[name := block.colo][iph.ip.str := block.colo];
      nh := AddTo(nh, KeyOf(block), name);
      dh := AddTo(dh, block.colo, name);
    }
  }

  // How the indexes agree.

  /** A host in a netblock is found by its short name and by its address, unless a later host in a
      netblock is indexed so too; and its short name is listed by its block and its datacenter. */
  lemma HostFound(w: World, hn: map<string, NetColo>, hd: map<string, string>,
                  nh: map<string, set<string>>, dh: map<string, set<string>>, i: nat, k: string)
    requires Wellformed(w) && i < |w.hosts| && NamesIndexed(w, |w.hosts|, hn, hd)
    requires BlocksIndexed(w, |w.hosts|, nh) && CentersIndexed(w, |w.hosts|, dh)
    requires Probe(w.netblocks, w.hosts[i].ip.binary, 32).Some?
    requires k == w.hosts[i].ip.str || k == ShortName(w.hosts[i].hostname, w.domain)
    ensures var nc := Probe(w.netblocks, w.hosts[i].ip.binary, 32).value;
            var name := ShortName(w.hosts[i].hostname, w.domain);
            && ((forall j :: i < j < |w.hosts| && Probe(w.netblocks, w.hosts[j].ip.binary, 32).Some? ==>
                  k != w.hosts[j].ip.str && k != ShortName(w.hosts[j].hostname, w.domain))
                ==> k in hn && hn[k] == nc && k in hd && hd[k] == nc.colo)
            && Key(nc.base, nc.bits) in nh && name in nh[Key(nc.base, nc.bits)]
            && nc.colo in dh && name in dh[nc.colo]
  {
    hide ShortName, BlocksIndexed, CentersIndexed, Probe, Key;
    assert Mentions(w, w.hosts[i], k);
    DecidedIndexed(w, |w.hosts|, i, k);
    var i' := LastDecides(w, |w.hosts|, k);
    if forall j :: i < j < |w.hosts| && Probe(w.netblocks, w.hosts[j].ip.binary, 32).Some? ==>
        k != w.hosts[j].ip.str && k != ShortName(w.hosts[j].hostname, w.domain) {
      assert i' == i;
    }
    HostListed(w, nh, dh, i);
  }

  lemma HostListed(w: World, nh: map<string, set<string>>, dh: map<string, set<string>>, i: nat)
    requires Wellformed(w) && i < |w.hosts| && Located(w, w.hosts[i]).Some?
    requires BlocksIndexed(w, |w.hosts|, nh) && CentersIndexed(w, |w.hosts|, dh)
    ensures var nc := Located(w, w.hosts[i]).value;
            var name := ShortName(w.hosts[i].hostname, w.domain);
            KeyOf(nc) in nh && name in nh[KeyOf(nc)] && nc.colo in dh && name in dh[nc.colo]
  {
    hide ShortName, Located, KeyOf;
    var h := w.hosts[i];
    var nc := Located(w, h).value;
    assert w.hosts[..|w.hosts|] == w.hosts;
    assert ShortName(h.hostname, w.domain) in BlockHosts(w, w.hosts, KeyOf(nc));
    assert ShortName(h.hostname, w.domain) in CenterHosts(w, w.hosts, nc.colo);
  }

  /** Host i decides what is indexed under k: it is the last to be indexed under it. */
  ghost predicate Decides(w: World, i: int, k: string)
    requires Wellformed(w)
  {
    0 <= i < |w.hosts| && Mentions(w, w.hosts[i], k) && forall j :: i < j < |w.hosts| ==> !Mentions(w, w.hosts[j], k)
  }

  lemma {:induction false} LastDecides(w: World, n: nat, k: string) returns (i: nat)
    requires Wellformed(w) && n <= |w.hosts| && LastBlock(w, n, k).Some?
    ensures i < n && Mentions(w, w.hosts[i], k) && Located(w, w.hosts[i]) == LastBlock(w, n, k)
    ensures forall j :: i < j < n ==> !Mentions(w, w.hosts[j], k)
  {
    hide Mentions, Located;
    assert n > 0;
    i := n - 1;
    if !Mentions(w, w.hosts[n - 1], k) {
      i := LastDecides(w, n - 1, k);
    }
  }

  /** A host indexed by the name k lies in the block with this key. */
  ghost predicate NamedInBlock(w: World, k: string, key: string)
    requires Wellformed(w)
  {
    exists h :: h in w.hosts && ShortName(h.hostname, w.domain) == k && Located(w, h).Some?
      && KeyOf(Located(w, h).value) == key
  }

  /** A host indexed by the name k lies in this datacenter. */
  ghost predicate NamedInCenter(w: World, k: string, colo: string)
    requires Wellformed(w)
  {
    exists h :: h in w.hosts && ShortName(h.hostname, w.domain) == k && Located(w, h).Some?
      && Located(w, h).value.colo == colo
  }

  /** The last host indexed under k is so by its address, spelled k, and not by its name; and no
      host of that name lies in its block, or none in its datacenter. */
  ghost predicate Misplaced(w: World, k: string)
    requires Wellformed(w)
  {
    exists i :: Decides(w, i, k) && Astray(w, w.hosts[i], k)
  }

  ghost predicate Astray(w: World, h: IpHost, k: string)
    requires Wellformed(w) && h in w.hosts && Located(w, h).Some?
  {
    && ShortName(h.hostname, w.domain) != k
    && (!NamedInBlock(w, k, KeyOf(Located(w, h).value)) || !NamedInCenter(w, k, Located(w, h).value.colo))
  }

  /** What is indexed under k is listed by the netblock and by the datacenter it is indexed with. */
  ghost predicate Agree(hn: map<string, NetColo>, hd: map<string, string>,
                        nh: map<string, set<string>>, dh: map<string, set<string>>, k: string) {
    && k in hn && KeyOf(hn[k]) in nh && k in nh[KeyOf(hn[k])]
    && k in hd && hd[k] in dh && k in dh[hd[k]]
  }

  lemma ListedWhereNamed(w: World, nh: map<string, set<string>>, dh: map<string, set<string>>,
                          k: string, key: string, colo: string)
    requires Wellformed(w)
    requires BlocksIndexed(w, |w.hosts|, nh) && CentersIndexed(w, |w.hosts|, dh)
    ensures key in nh && k in nh[key] <==> NamedInBlock(w, k, key)
    ensures colo in dh && k in dh[colo] <==> NamedInCenter(w, k, colo)
  {
    hide ShortName, Located, KeyOf;
    assert w.hosts[..|w.hosts|] == w.hosts;
    assert k in BlockHosts(w, w.hosts, key) <==> NamedInBlock(w, k, key);
    assert k in CenterHosts(w, w.hosts, colo) <==> NamedInCenter(w, k, colo);
  }

  /** When the four indexes agree on a name or address: exactly when it is not misplaced. */
  lemma IndexesAgreeExactly(w: World, hn: map<string, NetColo>, hd: map<string, string>,
                            nh: map<string, set<string>>, dh: map<string, set<string>>, k: string)
    requires Wellformed(w) && k in hn
    requires NamesIndexed(w, |w.hosts|, hn, hd)
    requires BlocksIndexed(w, |w.hosts|, nh) && CentersIndexed(w, |w.hosts|, dh)
    ensures Agree(hn, hd, nh, dh, k) <==> !Misplaced(w, k)
  {
    hide ShortName, Located, KeyOf, BlocksIndexed, CentersIndexed, NamedInBlock, NamedInCenter;
    var i := LastDecides(w, |w.hosts|, k);
    var h := w.hosts[i];
    assert Decides(w, i, k);
    assert hn[k] == Located(w, h).value && hd[k] == hn[k].colo;
    ListedWhereNamed(w, nh, dh, k, KeyOf(hn[k]), hd[k]);
    if ShortName(h.hostname, w.domain) == k {
      NamedWhereItIs(w, h);
    }
    forall i' | Decides(w, i', k) ensures i' == i {
      OneDecides(w, i, i', k);
    }
  }

  lemma OneDecides(w: World, i: int, j: int, k: string)
    requires Wellformed(w) && Decides(w, i, k) && Decides(w, j, k)
    ensures i == j
  {
    hide Mentions;
  }

  lemma NamedWhereItIs(w: World, h: IpHost)
    requires Wellformed(w) && h in w.hosts && Located(w, h).Some?
    ensures NamedInBlock(w, ShortName(h.hostname, w.domain), KeyOf(Located(w, h).value))
    ensures NamedInCenter(w, ShortName(h.hostname, w.domain), Located(w, h).value.colo)
  {
  }

  /** No host name is spelled like another host's address. */
  ghost predicate NamesAreNotAddresses(w: World)
    requires Wellformed(w)
  {
    forall g, h :: g in w.hosts && h in w.hosts && ShortName(g.hostname, w.domain) == h.ip.str ==> g == h
  }

  /** Then each indexed host is listed by the netblock and by the datacenter that it is indexed with. */
  lemma IndexesAgree(w: World, hn: map<string, NetColo>, hd: map<string, string>,
                     nh: map<string, set<string>>, dh: map<string, set<string>>, g: IpHost)
    requires Wellformed(w) && NamesAreNotAddresses(w)
    requires NamesIndexed(w, |w.hosts|, hn, hd)
    requires BlocksIndexed(w, |w.hosts|, nh) && CentersIndexed(w, |w.hosts|, dh)
    requires g in w.hosts && ShortName(g.hostname, w.domain) in hn
    ensures Agree(hn, hd, nh, dh, ShortName(g.hostname, w.domain))
  {
    hide ShortName, Located, KeyOf, NamesIndexed, BlocksIndexed, CentersIndexed, Agree;
    var k := ShortName(g.hostname, w.domain);
    IndexesAgreeExactly(w, hn, hd, nh, dh, k);
    forall i | Decides(w, i, k) ensures !Astray(w, w.hosts[i], k) {
      assert w.hosts[i] in w.hosts;
    }
  }

  /** The host's address lies in the block it is located in. */
  predicate InBlock(w: World, h: IpHost) {
    Located(w, h).Some? && Located(w, h).value.bits <= 32 && Contains(Located(w, h).value, h.ip.binary)
  }

  lemma LocatedInBlock(w: World, records: seq<NetColo>, h: IpHost)
    requires w.netblocks == Table(records) && Located(w, h).Some?
    ensures InBlock(w, h)
  {
    hide Table, LastRecord, Contains;
    ProbeFindsLongest(records, h.ip.binary, 32);
  }

  /** Every host that a netblock or datacenter lists comes from a record in that netblock or datacenter. */
  lemma ListedHostsHaveRecords(w: World, records: seq<NetColo>, nh: map<string, set<string>>, dh: map<string,
                               set<string>>,
                               k: string, name: string)
    requires Wellformed(w) && w.netblocks == Table(records)
    requires BlocksIndexed(w, |w.hosts|, nh) && CentersIndexed(w, |w.hosts|, dh)
    ensures k in nh && name in nh[k] ==>
              exists h :: h in w.hosts && ShortName(h.hostname, w.domain) == name && InBlock(w, h)
                && KeyOf(Located(w, h).value) == k
    ensures k in dh && name in dh[k] ==>
              exists h :: h in w.hosts && ShortName(h.hostname, w.domain) == name && InBlock(w, h)
                && Located(w, h).value.colo == k
  {
    hide ShortName, Located, KeyOf, InBlock;
    forall h | h in w.hosts && Located(w, h).Some? ensures InBlock(w, h) {
      LocatedInBlock(w, records, h);
    }
    assert w.hosts[..|w.hosts|] == w.hosts;
  }

  /** An address spelled like a name, with no later host under that spelling and no host of that
      name in the datacenter of the address, is found in a datacenter that does not list it. */
  lemma SpelledLikeAnAddress(w: World, hn: map<string, NetColo>, hd: map<string, string>, nh: map<string, set<string>>,
                             dh: map<string, set<string>>, i: nat)
    requires Wellformed(w) && NamesIndexed(w, |w.hosts|, hn, hd)
    requires BlocksIndexed(w, |w.hosts|, nh) && CentersIndexed(w, |w.hosts|, dh)
    requires i < |w.hosts| && Located(w, w.hosts[i]).Some?
    requires Decides(w, i, w.hosts[i].ip.str)
    requires !NamedInCenter(w, w.hosts[i].ip.str, Located(w, w.hosts[i]).value.colo)
    ensures var k := w.hosts[i].ip.str;
            k in hd && hd[k] == Located(w, w.hosts[i]).value.colo && !(hd[k] in dh && k in dh[hd[k]])
  {
    hide ShortName, Located, KeyOf, BlocksIndexed, CentersIndexed, NamedInBlock, NamedInCenter;
    var k := w.hosts[i].ip.str;
    DecidedIndexed(w, |w.hosts|, i, k);
    var i' := LastDecides(w, |w.hosts|, k);
    OneDecides(w, i, i', k);
    ListedWhereNamed(w, nh, dh, k, KeyOf(hn[k]), hd[k]);
  }

  lemma {:induction false} DecidedIndexed(w: World, n: nat, i: nat, k: string)
    requires Wellformed(w) && i < n <= |w.hosts| && Mentions(w, w.hosts[i], k)
    ensures LastBlock(w, n, k).Some?
  {
    if !Mentions(w, w.hosts[n - 1], k) {
      DecidedIndexed(w, n - 1, i, k);
    }
  }
}
