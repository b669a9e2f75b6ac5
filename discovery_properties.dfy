/**
  What NetPingDriver.GetSpecification promises about the properties it
  discovers: which addresses are kept (the first of each per kind), in what
  order, which are filtered out, and how they are named, both as written and
  with the counters advancing as the names suggest.
 */
module DiscoveryProperties {
  import opened Wrappers
  import opened Decimal
  import opened ThingSpecification
  import opened NetPingDriver

  // ---------------------------------------------------------------------------
  // The candidate addresses
  // ---------------------------------------------------------------------------

  /** The interface lists the candidate: a gateway as is, a DNS server only as an IPv4 address. */
  ghost predicate Offers(nic: NetworkInterface, c: Candidate) {
    && c.nicName == nic.name
    && ((c.kind == Gateway && c.address in nic.gateways)
        || (c.kind == Dns && DnsAddress(c.address, true) in nic.dnsAddresses))
  }

  lemma {:induction false} GatewayCandidatesExactly(n: nat, nicName: string, gateways: seq<string>, c: Candidate)
    ensures c in GatewayCandidates(n, nicName, gateways) <==>
      c.kind == Gateway && c.nic == n && c.nicName == nicName && c.address in gateways
    decreases |gateways|
  {
    if |gateways| > 0 {
      var m := |gateways| - 1;
      GatewayCandidatesExactly(n, nicName, gateways[..m], c);
      assert gateways == gateways[..m] + [gateways[m]];
    }
  }

  lemma {:induction false} DnsCandidatesExactly(n: nat, nicName: string, dnsAddresses: seq<DnsAddress>, c: Candidate)
    ensures c in DnsCandidates(n, nicName, dnsAddresses) <==>
      c.kind == Dns && c.nic == n && c.nicName == nicName && DnsAddress(c.address, true) in dnsAddresses
    decreases |dnsAddresses|
  {
    if |dnsAddresses| > 0 {
      var m := |dnsAddresses| - 1;
      DnsCandidatesExactly(n, nicName, dnsAddresses[..m], c);
      assert dnsAddresses == dnsAddresses[..m] + [dnsAddresses[m]];
    }
  }

  lemma InterfaceCandidatesExactly(n: nat, nic: NetworkInterface, c: Candidate)
    ensures c in InterfaceCandidates(n, nic) <==> c.nic == n && Offers(nic, c)
  {
    GatewayCandidatesExactly(n, nic.name, nic.gateways, c);
    DnsCandidatesExactly(n, nic.name, nic.dnsAddresses, c);
  }

  /**
    The loops meet exactly the gateways of every interface and the IPv4 DNS
    addresses of every interface, each tagged with its interface.
   */
  lemma {:induction false} CandidatesExactly(nics: seq<NetworkInterface>, c: Candidate)
    ensures c in Candidates(nics) <==> c.nic < |nics| && Offers(nics[c.nic], c)
    decreases |nics|
  {
    if |nics| > 0 {
      var m := |nics| - 1;
      CandidatesExactly(nics[..m], c);
      InterfaceCandidatesExactly(m, nics[m], c);
      if c.nic < m {
        assert nics[..m][c.nic] == nics[c.nic];
      }
    }
  }

  /** `a` comes no later than `b`: an earlier interface, or the same one with no DNS before a gateway. */
  predicate Precedes(a: Candidate, b: Candidate) {
    a.nic < b.nic || (a.nic == b.nic && !(a.kind == Dns && b.kind == Gateway))
  }

  lemma InterfaceCandidatesOrdered(n: nat, nic: NetworkInterface)
    ensures var cs := InterfaceCandidates(n, nic);
      && (forall i :: 0 <= i < |cs| ==> cs[i].nic == n)
      && (forall i, j :: 0 <= i < j < |cs| ==> Precedes(cs[i], cs[j]))
  {
    var gs := GatewayCandidates(n, nic.name, nic.gateways);
    var ds := DnsCandidates(n, nic.name, nic.dnsAddresses);
    var cs := gs + ds;
    assert cs == InterfaceCandidates(n, nic);
    forall i | 0 <= i < |cs|
      ensures cs[i].nic == n && (i < |gs| ==> cs[i].kind == Gateway) && (i >= |gs| ==> cs[i].kind == Dns)
    {
      if i < |gs| {
        assert cs[i] == gs[i];
        GatewayCandidatesExactly(n, nic.name, nic.gateways, cs[i]);
      } else {
        assert cs[i] == ds[i - |gs|];
        DnsCandidatesExactly(n, nic.name, nic.dnsAddresses, cs[i]);
      }
    }
  }

  /** The loops meet the addresses interface by interface, and within one interface gateways first. */
  lemma {:induction false} CandidatesOrdered(nics: seq<NetworkInterface>)
    ensures forall i, j :: 0 <= i < j < |Candidates(nics)| ==> Precedes(Candidates(nics)[i], Candidates(nics)[j])
    decreases |nics|
  {
    if |nics| > 0 {
      var m := |nics| - 1;
      var front := Candidates(nics[..m]);
      var back := InterfaceCandidates(m, nics[m]);
      var cs := front + back;
      assert cs == Candidates(nics);
      CandidatesOrdered(nics[..m]);
      InterfaceCandidatesOrdered(m, nics[m]);
      forall i, j | 0 <= i < j < |cs|
        ensures Precedes(cs[i], cs[j])
      {
        if j < |front| {
          assert cs[i] == front[i] && cs[j] == front[j];
          assert Precedes(front[i], front[j]);
        } else if i < |front| {
          assert cs[i] == front[i] && cs[i] in front;
          CandidatesExactly(nics[..m], cs[i]);
          assert cs[i].nic < m;
          assert cs[j] == back[j - |front|];
          assert cs[j].nic == m;
        } else {
          var bi, bj := i - |front|, j - |front|;
          assert cs[i] == back[bi] && cs[j] == back[bj];
          assert 0 <= bi < bj < |back|;
          assert Precedes(back[bi], back[bj]);
        }
      }
    }
  }

  // ---------------------------------------------------------------------------
  // The seen lists: first occurrence per kind
  // ---------------------------------------------------------------------------

  /** Same kind and same address: the test behind `gaddrs.Contains(ip)` / `daddrs.Contains(ip)`. */
  predicate SameKey(a: Candidate, b: Candidate) {
    a.kind == b.kind && a.address == b.address
  }

  /** Some entry of `cs` has this kind and address. */
  ghost predicate MetAs(cs: seq<Candidate>, kind: AddressKind, a: string) {
    exists i :: 0 <= i < |cs| && cs[i].kind == kind && cs[i].address == a
  }

  lemma MetAsAppend(front: seq<Candidate>, c: Candidate, kind: AddressKind, a: string)
    ensures MetAs(front + [c], kind, a) <==> MetAs(front, kind, a) || (c.kind == kind && c.address == a)
  {
    var cs := front + [c];
    if MetAs(front, kind, a) {
      var i :| 0 <= i < |front| && front[i].kind == kind && front[i].address == a;
      assert cs[i] == front[i];
    }
    if MetAs(cs, kind, a) {
      var i :| 0 <= i < |cs| && cs[i].kind == kind && cs[i].address == a;
      if i < |front| {
        assert cs[i] == front[i];
      }
    }
    if c.kind == kind && c.address == a {
      assert cs[|front|] == c;
    }
  }

  lemma {:induction false} KindAddressesExactly(ds: seq<Candidate>, kind: AddressKind, a: string)
    ensures a in KindAddresses(ds, kind) <==> MetAs(ds, kind, a)
    decreases |ds|
  {
    if |ds| > 0 {
      var m := |ds| - 1;
      KindAddressesExactly(ds[..m], kind, a);
      assert ds == ds[..m] + [ds[m]];
      MetAsAppend(ds[..m], ds[m], kind, a);
    }
  }

  lemma {:induction false} KindAddressesAppend(a: seq<Candidate>, b: seq<Candidate>, kind: AddressKind)
    ensures KindAddresses(a + b, kind) == KindAddresses(a, kind) + KindAddresses(b, kind)
    decreases |b|
  {
    if |b| == 0 {
      assert a + b == a;
    } else {
      var m := |b| - 1;
      var last := if b[m].kind == kind then [b[m].address] else [];
      assert (a + b)[..|a| + m] == a + b[..m];
      assert (a + b)[|a| + m] == b[m];
      assert KindAddresses(a + b, kind) == KindAddresses(a + b[..m], kind) + last;
      assert KindAddresses(b, kind) == KindAddresses(b[..m], kind) + last;
      KindAddressesAppend(a, b[..m], kind);
    }
  }

  /** An address is in a seen list exactly when the loops have met it with that kind. */
  lemma {:induction false} FirstSeenCovers(cs: seq<Candidate>, kind: AddressKind, a: string)
    ensures a in KindAddresses(FirstSeen(cs), kind) <==> MetAs(cs, kind, a)
    decreases |cs|
  {
    if |cs| > 0 {
      var m := |cs| - 1;
      var front, c := cs[..m], cs[m];
      var kept := FirstSeen(front);
      FirstSeenCovers(front, kind, a);
      assert cs == front + [c];
      FirstSeenStep(front, c);
      MetAsAppend(front, c, kind, a);
      if c.address !in KindAddresses(kept, c.kind) {
        AppendKept(kept, c);
      }
    }
  }

  /** Index `i` of `cs` holds the first occurrence of its kind and address. */
  ghost predicate IsFirst(cs: seq<Candidate>, i: nat)
    requires i < |cs|
  {
    forall j :: 0 <= j < i ==> !SameKey(cs[j], cs[i])
  }

  /** `kept` is `cs` at the strictly increasing positions `idx`, which are exactly the first occurrences. */
  ghost predicate PicksFirsts(idx: seq<nat>, kept: seq<Candidate>, cs: seq<Candidate>) {
    && |idx| == |kept|
    && (forall j :: 0 <= j < |idx| ==> idx[j] < |cs| && kept[j] == cs[idx[j]] && IsFirst(cs, idx[j]))
    && (forall j, k :: 0 <= j < k < |idx| ==> idx[j] < idx[k])
    && (forall i :: 0 <= i < |cs| && IsFirst(cs, i) ==> i in idx)
  }

  /** The first-occurrence positions of `front + [c]` below |front| are those of `front`. */
  lemma IsFirstAppend(front: seq<Candidate>, c: Candidate)
    ensures forall i :: 0 <= i < |front| ==> (front + [c])[i] == front[i] && (IsFirst(front + [c], i) <==> IsFirst(front, i))
  {
  }

  /** The last address met is a first occurrence exactly when its seen list lacks it. */
  lemma IsFirstLast(front: seq<Candidate>, c: Candidate)
    ensures IsFirst(front + [c], |front|) <==> c.address !in KindAddresses(FirstSeen(front), c.kind)
  {
    var cs := front + [c];
    FirstSeenCovers(front, c.kind, c.address);
    if MetAs(front, c.kind, c.address) {
      var i :| 0 <= i < |front| && front[i].kind == c.kind && front[i].address == c.address;
      assert SameKey(cs[i], cs[|front|]);
    } else {
      forall j | 0 <= j < |front|
        ensures !SameKey(cs[j], cs[|front|])
      {
        assert cs[j] == front[j];
      }
    }
  }

  /** An address met again changes neither the kept list nor the first-occurrence positions. */
  lemma PicksFirstsSkip(idx: seq<nat>, kept: seq<Candidate>, front: seq<Candidate>, c: Candidate)
    requires PicksFirsts(idx, kept, front)
    requires !IsFirst(front + [c], |front|)
    ensures PicksFirsts(idx, kept, front + [c])
  {
    var cs := front + [c];
    IsFirstAppend(front, c);
    forall j | 0 <= j < |idx|
      ensures idx[j] < |cs| && kept[j] == cs[idx[j]] && IsFirst(cs, idx[j])
    {
    }
    forall i | 0 <= i < |cs| && IsFirst(cs, i)
      ensures i in idx
    {
      assert i < |front|;
      assert IsFirst(front, i);
    }
  }

  /** An address met for the first time is kept, at its position. */
  lemma PicksFirstsAdd(idx: seq<nat>, kept: seq<Candidate>, front: seq<Candidate>, c: Candidate)
    requires PicksFirsts(idx, kept, front)
    requires IsFirst(front + [c], |front|)
    ensures PicksFirsts(idx + [|front|], kept + [c], front + [c])
  {
    var cs := front + [c];
    var idx', kept' := idx + [|front|], kept + [c];
    IsFirstAppend(front, c);
    forall j | 0 <= j < |idx'|
      ensures idx'[j] < |cs| && kept'[j] == cs[idx'[j]] && IsFirst(cs, idx'[j])
    {
      if j < |idx| {
        assert idx'[j] == idx[j] && kept'[j] == kept[j];
      }
    }
    forall j, k | 0 <= j < k < |idx'|
      ensures idx'[j] < idx'[k]
    {
      if k < |idx| {
        assert idx'[j] == idx[j] && idx'[k] == idx[k];
      } else {
        assert idx'[j] == idx[j];
      }
    }
    forall i | 0 <= i < |cs| && IsFirst(cs, i)
      ensures i in idx'
    {
      if i < |front| {
        assert IsFirst(front, i);
        assert i in idx;
      } else {
        assert idx'[|idx|] == i;
      }
    }
  }

  /**
    FirstSeen keeps exactly the first occurrence of every (kind, address)
    among the addresses met, in the order they were met.
   */
  lemma {:induction false} FirstSeenPicksFirsts(cs: seq<Candidate>)
    ensures exists idx :: PicksFirsts(idx, FirstSeen(cs), cs)
    decreases |cs|
  {
    if |cs| == 0 {
      assert PicksFirsts([], FirstSeen(cs), cs);
    } else {
      var m := |cs| - 1;
      var front, c := cs[..m], cs[m];
      assert cs == front + [c];
      FirstSeenPicksFirsts(front);
      var idx: seq<nat> :| PicksFirsts(idx, FirstSeen(front), front);
      FirstSeenStep(front, c);
      IsFirstLast(front, c);
      if IsFirst(cs, m) {
        PicksFirstsAdd(idx, FirstSeen(front), front, c);
        assert PicksFirsts(idx + [m], FirstSeen(cs), cs);
      } else {
        PicksFirstsSkip(idx, FirstSeen(front), front, c);
        assert PicksFirsts(idx, FirstSeen(cs), cs);
      }
    }
  }

  /** Per kind, no address is kept twice; the same address may be kept once per kind. */
  lemma FirstSeenUnique(cs: seq<Candidate>)
    ensures var kept := FirstSeen(cs);
      forall i, j :: 0 <= i < j < |kept| ==> !SameKey(kept[i], kept[j])
  {
    FirstSeenPicksFirsts(cs);
    var kept := FirstSeen(cs);
    var idx: seq<nat> :| PicksFirsts(idx, kept, cs);
    forall i, j | 0 <= i < j < |kept|
      ensures !SameKey(kept[i], kept[j])
    {
      assert IsFirst(cs, idx[j]);
      assert idx[i] < idx[j];
    }
  }

  // ---------------------------------------------------------------------------
  // The discovered properties, as written
  // ---------------------------------------------------------------------------

  lemma {:induction false} RenderedAt(ds: seq<Candidate>)
    ensures |Rendered(ds)| == |ds|
    ensures forall i :: 0 <= i < |ds| ==> Rendered(ds)[i] == Emitted(ds[i], 1)
    decreases |ds|
  {
    if |ds| > 0 {
      var m := |ds| - 1;
      RenderedAt(ds[..m]);
      forall i | 0 <= i < m
        ensures Rendered(ds)[i] == Emitted(ds[i], 1)
      {
        assert ds[..m][i] == ds[i];
      }
    }
  }

  /**
    As written, every gateway property has Id "Gateway" and every DNS
    property Id "Dns"; each carries its interface's name, its address, type
    "int" and unit "ms", one per kept address in order.
   */
  lemma DiscoveredShape(nics: seq<NetworkInterface>)
    ensures var kept := FirstSeen(Candidates(nics));
      var props := Discovered(nics).properties;
      && |props| == |kept|
      && forall i :: 0 <= i < |props| ==>
        && props[i].id == (if kept[i].kind == Gateway then "Gateway" else "Dns")
        && props[i].name == kept[i].nicName + KindLabel(kept[i].kind)
        && props[i].address == Some(kept[i].address)
        && props[i].dataType == Some(TypeSpec("int", Some(DataSpecs(0, Some("ms"), Some("毫秒")))))
  {
    RenderedAt(FirstSeen(Candidates(nics)));
  }

  /** Two properties with the same Id (that is, of the same kind) never share an address. */
  lemma DiscoveredAddressesUnique(nics: seq<NetworkInterface>)
    ensures var props := Discovered(nics).properties;
      forall i, j :: 0 <= i < j < |props| && props[i].id == props[j].id ==> props[i].address != props[j].address
  {
    DiscoveredShape(nics);
    FirstSeenUnique(Candidates(nics));
  }

  /**
    Every property is the first occurrence of its address and kind, and the
    properties follow the interfaces' order, gateways before DNS within one.
    Stated on the kept candidates: `Discovered(nics).properties[i]` is
    rendered from `kept[i]` (same kind, interface name and address, see
    DiscoveredShape), so the same order holds for the properties.
   */
  lemma DiscoveredOrdered(nics: seq<NetworkInterface>)
    ensures var kept := FirstSeen(Candidates(nics));
      forall i, j :: 0 <= i < j < |kept| ==> Precedes(kept[i], kept[j])
  {
    var cs := Candidates(nics);
    CandidatesOrdered(nics);
    FirstSeenPicksFirsts(cs);
    var kept := FirstSeen(cs);
    var idx: seq<nat> :| PicksFirsts(idx, kept, cs);
    forall i, j | 0 <= i < j < |kept|
      ensures Precedes(kept[i], kept[j])
    {
      assert idx[i] < idx[j];
    }
  }

  /** Every kept address is one the loops met. */
  lemma FirstSeenSubset(cs: seq<Candidate>)
    ensures var kept := FirstSeen(cs);
      forall i :: 0 <= i < |kept| ==> kept[i] in cs
  {
    FirstSeenPicksFirsts(cs);
    var kept := FirstSeen(cs);
    var idx: seq<nat> :| PicksFirsts(idx, kept, cs);
    forall i | 0 <= i < |kept|
      ensures kept[i] in cs
    {
      assert kept[i] == cs[idx[i]];
    }
  }

  /**
    A "Dns" property's address is an IPv4 DNS address of some interface; a
    DNS address that no interface lists as IPv4 never becomes a property.
   */
  lemma DiscoveredDnsIsIPv4(nics: seq<NetworkInterface>)
    ensures var props := Discovered(nics).properties;
      forall i :: 0 <= i < |props| && props[i].id == "Dns" ==>
        exists n :: 0 <= n < |nics| && props[i].address.Some? && DnsAddress(props[i].address.value, true) in nics[n].dnsAddresses
  {
    var cs := Candidates(nics);
    var kept := FirstSeen(cs);
    var props := Discovered(nics).properties;
    DiscoveredShape(nics);
    FirstSeenSubset(cs);
    forall i | 0 <= i < |props| && props[i].id == "Dns"
      ensures exists n :: 0 <= n < |nics| && props[i].address.Some? && DnsAddress(props[i].address.value, true) in nics[n].dnsAddresses
    {
      var c := kept[i];
      assert c in cs;
      CandidatesExactly(nics, c);
      assert c.kind == Dns;
      assert props[i].address == Some(c.address);
      assert DnsAddress(c.address, true) in nics[c.nic].dnsAddresses;
    }
  }

  /** An address the loops met is kept under its kind, at some position. */
  lemma KeptWhenMet(cs: seq<Candidate>, c: Candidate)
    requires c in cs
    ensures var kept := FirstSeen(cs);
      exists i :: 0 <= i < |kept| && kept[i].kind == c.kind && kept[i].address == c.address
  {
    var k :| 0 <= k < |cs| && cs[k] == c;
    assert MetAs(cs, c.kind, c.address);
    FirstSeenCovers(cs, c.kind, c.address);
    KindAddressesExactly(FirstSeen(cs), c.kind, c.address);
  }

  /**
    Every gateway address of every interface, whatever its family, and every
    IPv4 DNS address, gets a property of its kind.
   */
  lemma DiscoveredCovers(nics: seq<NetworkInterface>, n: nat, a: string)
    requires n < |nics|
    ensures var props := Discovered(nics).properties;
      && (a in nics[n].gateways ==> exists i :: 0 <= i < |props| && props[i].id == "Gateway" && props[i].address == Some(a))
      && (DnsAddress(a, true) in nics[n].dnsAddresses ==>
            exists i :: 0 <= i < |props| && props[i].id == "Dns" && props[i].address == Some(a))
  {
    var cs := Candidates(nics);
    var kept := FirstSeen(cs);
    var props := Discovered(nics).properties;
    DiscoveredShape(nics);
    if a in nics[n].gateways {
      var c := Candidate(Gateway, n, nics[n].name, a);
      CandidatesExactly(nics, c);
      KeptWhenMet(cs, c);
      var i :| 0 <= i < |kept| && kept[i].kind == Gateway && kept[i].address == a;
      assert props[i].id == "Gateway" && props[i].address == Some(a);
    }
    if DnsAddress(a, true) in nics[n].dnsAddresses {
      var c := Candidate(Dns, n, nics[n].name, a);
      CandidatesExactly(nics, c);
      KeptWhenMet(cs, c);
      var i :| 0 <= i < |kept| && kept[i].kind == Dns && kept[i].address == a;
      assert props[i].id == "Dns" && props[i].address == Some(a);
    }
  }

  /** An interface with one gateway and no DNS server contributes that gateway alone. */
  lemma OneGatewayInterface(n: nat, nic: NetworkInterface)
    requires |nic.gateways| == 1 && nic.dnsAddresses == []
    ensures InterfaceCandidates(n, nic) == [Candidate(Gateway, n, nic.name, nic.gateways[0])]
  {
    assert GatewayCandidates(n, nic.name, nic.gateways[..0]) == [];
    assert DnsCandidates(n, nic.name, nic.dnsAddresses) == [];
  }

  /**
    The same address kept once as a gateway and once as a DNS server: the
    seen lists are per kind.
   */
  lemma SameAddressBothKinds()
    ensures var props := Discovered([NetworkInterface("eth0", ["10.0.0.1"], [DnsAddress("10.0.0.1", true)])]).properties;
      |props| == 2 && props[0].id == "Gateway" && props[1].id == "Dns"
      && props[0].address == props[1].address == Some("10.0.0.1")
  {
    var nic := NetworkInterface("eth0", ["10.0.0.1"], [DnsAddress("10.0.0.1", true)]);
    var g := Candidate(Gateway, 0, "eth0", "10.0.0.1");
    var d := Candidate(Dns, 0, "eth0", "10.0.0.1");
    assert GatewayCandidates(0, "eth0", nic.gateways[..0]) == [];
    assert DnsCandidates(0, "eth0", nic.dnsAddresses[..0]) == [];
    assert InterfaceCandidates(0, nic) == [g, d];
    assert [nic][..0] == [];
    assert Candidates([nic]) == [g, d];
    FirstSeenStep([], g);
    assert [] + [g] == [g] && [g] + [d] == [g, d];
    AppendKept([], g);
    FirstSeenStep([g], d);
    assert FirstSeen([g, d]) == [g, d];
    RenderedAt([g, d]);
  }

  /** The candidates of two interfaces with one distinct gateway each and no DNS servers. */
  lemma TwoGatewayCandidates()
    ensures Candidates([NetworkInterface("eth0", ["192.168.1.1"], []), NetworkInterface("eth1", ["10.0.0.1"], [])])
      == [Candidate(Gateway, 0, "eth0", "192.168.1.1"), Candidate(Gateway, 1, "eth1", "10.0.0.1")]
  {
    var nics := [NetworkInterface("eth0", ["192.168.1.1"], []), NetworkInterface("eth1", ["10.0.0.1"], [])];
    OneGatewayInterface(0, nics[0]);
    OneGatewayInterface(1, nics[1]);
    assert nics[..1][..0] == [];
    assert nics[..1] == [nics[0]];
  }

  /**
    As written, two interfaces with different gateways yield two properties
    that share the Id "Gateway": the counter never leaves 1.
   */
  lemma GatewayIdsCollide()
    ensures var props := Discovered([NetworkInterface("eth0", ["192.168.1.1"], []),
                                     NetworkInterface("eth1", ["10.0.0.1"], [])]).properties;
      |props| == 2 && props[0].id == props[1].id == "Gateway"
      && props[0].address == Some("192.168.1.1") && props[1].address == Some("10.0.0.1")
  {
    var a := Candidate(Gateway, 0, "eth0", "192.168.1.1");
    var b := Candidate(Gateway, 1, "eth1", "10.0.0.1");
    TwoGatewayCandidates();
    FirstSeenStep([], a);
    assert [] + [a] == [a] && [a] + [b] == [a, b];
    AppendKept([], a);
    FirstSeenStep([a], b);
    assert FirstSeen([a, b]) == [a, b];
    RenderedAt([a, b]);
  }

  // ---------------------------------------------------------------------------
  // The discovered properties with numbered Ids
  // ---------------------------------------------------------------------------

  lemma {:induction false} NumberedIndex(ds: seq<Candidate>, i: nat)
    requires i < |ds|
    ensures Numbered(ds)[i] == Emitted(ds[i], |KindAddresses(ds[..i], ds[i].kind)| + 1)
    decreases |ds|
  {
    var m := |ds| - 1;
    var front := ds[..m];
    assert ds == front + [ds[m]];
    AppendKept(front, ds[m]);
    if i < m {
      NumberedIndex(front, i);
      assert front[i] == ds[i] && front[..i] == ds[..i];
    }
  }

  lemma NumberedAt(ds: seq<Candidate>)
    ensures forall i :: 0 <= i < |ds| ==>
      Numbered(ds)[i] == Emitted(ds[i], |KindAddresses(ds[..i], ds[i].kind)| + 1)
  {
    forall i | 0 <= i < |ds|
      ensures Numbered(ds)[i] == Emitted(ds[i], |KindAddresses(ds[..i], ds[i].kind)| + 1)
    {
      NumberedIndex(ds, i);
    }
  }

  /** Different counter values give different Ids, and the two kinds never share an Id. */
  lemma PropertyIdInjective(k1: AddressKind, c1: int, k2: AddressKind, c2: int)
    requires c1 >= 1 && c2 >= 1
    ensures PropertyId(k1, c1) == PropertyId(k2, c2) <==> k1 == k2 && c1 == c2
  {
    var id1, id2 := PropertyId(k1, c1), PropertyId(k2, c2);
    if k1 != k2 {
      assert id1[0] != id2[0];
    } else if c1 > 1 && c2 > 1 {
      var base := KindId(k1);
      assert IntToString(c1) == id1[|base|..];
      assert IntToString(c2) == id2[|base|..];
      IntToStringInjective(c1, c2);
    } else if c1 > 1 || c2 > 1 {
      assert |id1| != |id2|;
    }
  }

  /** The counter of a later address of the same kind is larger. */
  lemma CounterGrows(kept: seq<Candidate>, i: nat, j: nat)
    requires i < j < |kept| && kept[i].kind == kept[j].kind
    ensures |KindAddresses(kept[..j], kept[j].kind)| > |KindAddresses(kept[..i], kept[i].kind)|
  {
    var kind := kept[i].kind;
    assert kept[..j] == kept[..i] + ([kept[i]] + kept[i + 1..j]);
    KindAddressesAppend(kept[..i], [kept[i]] + kept[i + 1..j], kind);
    KindAddressesAppend([kept[i]], kept[i + 1..j], kind);
    AppendKept([], kept[i]);
    assert [] + [kept[i]] == [kept[i]];
  }

  /** Two kept addresses at different positions get different numbered Ids. */
  lemma NumberedIdsDiffer(kept: seq<Candidate>, i: nat, j: nat)
    requires i < j < |kept|
    ensures Numbered(kept)[i].id != Numbered(kept)[j].id
  {
    var ci := |KindAddresses(kept[..i], kept[i].kind)| + 1;
    var cj := |KindAddresses(kept[..j], kept[j].kind)| + 1;
    NumberedIndex(kept, i);
    NumberedIndex(kept, j);
    if kept[i].kind == kept[j].kind {
      CounterGrows(kept, i, j);
    }
    PropertyIdInjective(kept[i].kind, ci, kept[j].kind, cj);
  }

  /** With the counters advancing, no two discovered properties share an Id. */
  lemma NumberedIdsDistinct(nics: seq<NetworkInterface>)
    ensures var props := DiscoveredNumbered(nics).properties;
      forall i, j :: 0 <= i < j < |props| ==> props[i].id != props[j].id
  {
    var kept := FirstSeen(Candidates(nics));
    forall i, j | 0 <= i < j < |kept|
      ensures Numbered(kept)[i].id != Numbered(kept)[j].id
    {
      NumberedIdsDiffer(kept, i, j);
    }
  }

  /** Numbering changes only the Ids: every other field is as written. */
  lemma NumberedDiffersOnlyInIds(nics: seq<NetworkInterface>)
    ensures var written := Discovered(nics).properties;
      var numbered := DiscoveredNumbered(nics).properties;
      |numbered| == |written| && forall i :: 0 <= i < |written| ==> numbered[i] == written[i].(id := numbered[i].id)
  {
    var kept := FirstSeen(Candidates(nics));
    RenderedAt(kept);
    NumberedAt(kept);
  }

  /**
    The interfaces of GatewayIdsCollide with the counter advancing: the
    second gateway is named "Gateway2".
   */
  lemma NumberedTwoGateways()
    ensures var props := DiscoveredNumbered([NetworkInterface("eth0", ["192.168.1.1"], []),
                                             NetworkInterface("eth1", ["10.0.0.1"], [])]).properties;
      |props| == 2 && props[0].id == "Gateway" && props[1].id == "Gateway2"
  {
    var a := Candidate(Gateway, 0, "eth0", "192.168.1.1");
    var b := Candidate(Gateway, 1, "eth1", "10.0.0.1");
    TwoGatewayCandidates();
    FirstSeenStep([], a);
    assert [] + [a] == [a] && [a] + [b] == [a, b];
    AppendKept([], a);
    FirstSeenStep([a], b);
    assert FirstSeen([a, b]) == [a, b];
    AppendKept([a], b);
    assert IntToString(2) == "2";
  }
}
