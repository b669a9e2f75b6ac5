/**
  NetPingDriver: the IoT driver that pings each configured point and reports
  its round-trip time, and that discovers the local gateways and DNS servers
  as points to ping.

  The operating system is an input here: the outcome of each `Ping.Send` is
  given per point, and the network interfaces are given as a sequence.
 */
module NetPingDriver {
  import opened Wrappers
  import opened Decimal
  import opened ThingSpecification

  // ---------------------------------------------------------------------------
  // Driver parameter and points
  // ---------------------------------------------------------------------------

  /** Default of NetPingParameter.Timeout, in milliseconds. */
  const DefaultTimeout: int := 5000

  /**
    NetPingParameter. `timeout` is only handed to `Ping.Send`, whose outcome
    is an input of Read; `retrieveStatus` decides whether status keys are written.
   */
  datatype NetPingParameter = NetPingParameter(timeout: int, retrieveStatus: bool)

  /** A configured point: the result key and the host name or IP to ping (may be null). */
  datatype Point = Point(name: string, address: Option<string>)

  /** String.IsNullOrEmpty on the point's address. */
  predicate IsNullOrEmpty(s: Option<string>) {
    s.None? || s.value == ""
  }

  /** System.Net.NetworkInformation.IPStatus. */
  datatype IPStatus =
    | Success
    | DestinationNetworkUnreachable
    | DestinationHostUnreachable
    | DestinationProtocolUnreachable
    | DestinationPortUnreachable
    | NoResources
    | BadOption
    | HardwareError
    | PacketTooBig
    | TimedOut
    | BadRoute
    | TtlExpired
    | TtlReassemblyTimeExceeded
    | ParameterProblem
    | SourceQuench
    | BadDestination
    | DestinationUnreachable
    | TimeExceeded
    | BadHeader
    | UnrecognizedNextHeader
    | IcmpError
    | DestinationScopeMismatch
    | Unknown

  /** `status + ""`: the enum member's name. */
  function StatusName(status: IPStatus): (text: string)
    ensures text == "Success" <==> status == Success
  {
    match status
    case Success => "Success"
    case DestinationNetworkUnreachable => "DestinationNetworkUnreachable"
    case DestinationHostUnreachable => "DestinationHostUnreachable"
    case DestinationProtocolUnreachable => "DestinationProtocolUnreachable"
    case DestinationPortUnreachable => "DestinationPortUnreachable"
    case NoResources => "NoResources"
    case BadOption => "BadOption"
    case HardwareError => "HardwareError"
    case PacketTooBig => "PacketTooBig"
    case TimedOut => "TimedOut"
    case BadRoute => "BadRoute"
    case TtlExpired => "TtlExpired"
    case TtlReassemblyTimeExceeded => "TtlReassemblyTimeExceeded"
    case ParameterProblem => "ParameterProblem"
    case SourceQuench => "SourceQuench"
    case BadDestination => "BadDestination"
    case DestinationUnreachable => "DestinationUnreachable"
    case TimeExceeded => "TimeExceeded"
    case BadHeader => "BadHeader"
    case UnrecognizedNextHeader => "UnrecognizedNextHeader"
    case IcmpError => "IcmpError"
    case DestinationScopeMismatch => "DestinationScopeMismatch"
    case Unknown => "Unknown"
  }

  /**
    What `new Ping().Send(address, timeout)` did for one point: it returned a
    reply, or it threw and `ex.GetTrue().Message` is the innermost message.
   */
  datatype PingOutcome =
    | Replied(status: IPStatus, roundtripTime: int)
    | Threw(message: string)

  /** A value of the result dictionary: a round-trip time (long) or a status string. */
  datatype Value = Number(n: int) | Text(s: string)

  /** The key of a point's status entry. */
  function StatusKey(name: string): (key: string)
    ensures |key| == |name| + 7 && key[..|name|] == name
  {
    name + "-Status"
  }

  // ---------------------------------------------------------------------------
  // Read
  // ---------------------------------------------------------------------------

  /** The entries one point adds to the result dictionary. */
  function PointReadings(point: Point, outcome: PingOutcome, retrieveStatus: bool): map<string, Value>
  {
    if IsNullOrEmpty(point.address) then map[]
    else match outcome
      case Threw(message) => map[StatusKey(point.name) := Text(message)]
      case Replied(status, rtt) =>
        (if status == Success then map[point.name := Number(rtt)] else map[])
        + (if retrieveStatus then map[StatusKey(point.name) := Text(StatusName(status))] else map[])
  }

  /** The dictionary after the points have been visited in order: a later write of a key wins. */
  function Readings(points: seq<Point>, outcomes: seq<PingOutcome>, retrieveStatus: bool): map<string, Value>
    requires |outcomes| == |points|
    decreases |points|
  {
    if |points| == 0 then map[]
    else
      var n := |points| - 1;
      Readings(points[..n], outcomes[..n], retrieveStatus) + PointReadings(points[n], outcomes[n], retrieveStatus)
  }

  lemma ReadingsStep(points: seq<Point>, outcomes: seq<PingOutcome>, retrieveStatus: bool, i: nat)
    requires |outcomes| == |points| && i < |points|
    ensures Readings(points[..i + 1], outcomes[..i + 1], retrieveStatus)
         == Readings(points[..i], outcomes[..i], retrieveStatus) + PointReadings(points[i], outcomes[i], retrieveStatus)
  {
    assert points[..i + 1][..i] == points[..i];
    assert outcomes[..i + 1][..i] == outcomes[..i];
  }

  /** The dictionary Read returns; a null point array reads as nothing. */
  function ReadResult(parameter: NetPingParameter, points: Option<seq<Point>>, outcomes: seq<PingOutcome>): map<string, Value>
    requires points.Some? ==> |outcomes| == |points.value|
  {
    if points.None? then map[] else Readings(points.value, outcomes, parameter.retrieveStatus)
  }

  /**
    The body of Read's loop for one point: the try block writes the latency on
    success and the status when asked for; the catch block writes the message.
   */
  method ReadPoint(dic: map<string, Value>, point: Point, outcome: PingOutcome, retrieveStatus: bool)
    returns (result: map<string, Value>)
    ensures result == dic + PointReadings(point, outcome, retrieveStatus)
  {
    result := dic;
    if !IsNullOrEmpty(point.address) {
      match outcome
      case Replied(status, rtt) =>
        if status == Success {
          result := result[point.name := Number(rtt)];
        }
        if retrieveStatus {
          result := result[StatusKey(point.name) := Text(StatusName(status))];
        }
      case Threw(message) =>
        result := result[StatusKey(point.name) := Text(message)];
    }
  }

  /**
    Read: pings every point with a non-empty address; `outcomes[i]` is what
    `Ping.Send(points[i].Address, parameter.timeout)` returned or threw.
   */
  method Read(parameter: NetPingParameter, points: Option<seq<Point>>, outcomes: seq<PingOutcome>)
    returns (dic: map<string, Value>)
    requires points.Some? ==> |outcomes| == |points.value|
    ensures points.None? || points.value == [] ==> dic == map[]
    ensures dic == ReadResult(parameter, points, outcomes)
  {
    dic := map[];
    if points.None? || |points.value| == 0 {
      return;
    }
    var all := points.value;
    for i := 0 to |all|
      invariant dic == Readings(all[..i], outcomes[..i], parameter.retrieveStatus)
    {
      dic := ReadPoint(dic, all[i], outcomes[i], parameter.retrieveStatus);
      ReadingsStep(all, outcomes, parameter.retrieveStatus, i);
    }
    assert all[..|all|] == all;
    assert outcomes[..|all|] == outcomes;
  }

  // ---------------------------------------------------------------------------
  // Create
  // ---------------------------------------------------------------------------

  /**
    Create: a property with the given identity and address; a data type only
    when `typeName` is non-null, and a length only when `length` is positive.
   */
  function Create(id: string, name: string, typeName: Option<string>, length: int := 0, address: Option<string> := None): (ps: PropertySpec)
    ensures ps.id == id && ps.name == name && ps.address == address
    ensures ps.dataType.Some? <==> typeName.Some?
    ensures typeName.Some? ==> ps.dataType.value.typeName == typeName.value
    ensures typeName.Some? ==> (ps.dataType.value.specs.Some? <==> length > 0)
    ensures typeName.Some? && length > 0 ==> ps.dataType.value.specs.value == DataSpecs(length, None, None)
  {
    var ps := PropertySpec(id, name, address, None);
    if typeName.None? then ps
    else
      var dataType := TypeSpec(typeName.value, None);
      ps.(dataType := Some(if length > 0 then dataType.(specs := Some(DataSpecs(length, None, None))) else dataType))
  }

  // ---------------------------------------------------------------------------
  // GetSpecification
  // ---------------------------------------------------------------------------

  /** A DNS server address with its address family. */
  datatype DnsAddress = DnsAddress(text: string, isIPv4: bool)

  /** One network interface: its name, gateway addresses and DNS server addresses. */
  datatype NetworkInterface = NetworkInterface(name: string, gateways: seq<string>, dnsAddresses: seq<DnsAddress>)

  datatype AddressKind = Gateway | Dns

  /**
    An address as the loops meet it: its kind, the index and name of the
    interface that lists it, and its text.
   */
  datatype Candidate = Candidate(kind: AddressKind, nic: nat, nicName: string, address: string)

  /** The specs every discovered property gets: unit "ms", shown as 毫秒 (milliseconds). */
  const LatencySpecs: DataSpecs := DataSpecs(0, Some("ms"), Some("毫秒"))

  function KindId(kind: AddressKind): string {
    match kind
    case Gateway => "Gateway"
    case Dns => "Dns"
  }

  /** Suffix of the property's display name: 网关 (gateway) or DNS. */
  function KindLabel(kind: AddressKind): string {
    match kind
    case Gateway => "网关"
    case Dns => "DNS"
  }

  /** The property Id for a counter value: the counter is appended only above 1. */
  function PropertyId(kind: AddressKind, counter: int): string {
    if counter > 1 then KindId(kind) + IntToString(counter) else KindId(kind)
  }

  /** The property emitted for an address with the given counter value. */
  function LatencyProperty(kind: AddressKind, nicName: string, address: string, counter: int): (ps: PropertySpec)
    ensures ps.id == PropertyId(kind, counter)
    ensures ps.name == nicName + KindLabel(kind)
    ensures ps.address == Some(address)
    ensures ps.dataType == Some(TypeSpec("int", Some(LatencySpecs)))
  {
    var created := Create(PropertyId(kind, counter), nicName + KindLabel(kind), Some("int"), 0, Some(address));
    created.(dataType := Some(created.dataType.value.(specs := Some(LatencySpecs))))
  }

  function Emitted(c: Candidate, counter: int): PropertySpec {
    LatencyProperty(c.kind, c.nicName, c.address, counter)
  }

  /** The gateway addresses of interface `nic` (index `n`), in order. */
  function GatewayCandidates(n: nat, nicName: string, gateways: seq<string>): seq<Candidate>
    decreases |gateways|
  {
    if |gateways| == 0 then []
    else
      var m := |gateways| - 1;
      GatewayCandidates(n, nicName, gateways[..m]) + [Candidate(Gateway, n, nicName, gateways[m])]
  }

  /** The IPv4 DNS addresses of interface `nic` (index `n`), in order; others are skipped. */
  function DnsCandidates(n: nat, nicName: string, dnsAddresses: seq<DnsAddress>): seq<Candidate>
    decreases |dnsAddresses|
  {
    if |dnsAddresses| == 0 then []
    else
      var m := |dnsAddresses| - 1;
      var d := dnsAddresses[m];
      DnsCandidates(n, nicName, dnsAddresses[..m]) + (if d.isIPv4 then [Candidate(Dns, n, nicName, d.text)] else [])
  }

  function InterfaceCandidates(n: nat, nic: NetworkInterface): seq<Candidate> {
    GatewayCandidates(n, nic.name, nic.gateways) + DnsCandidates(n, nic.name, nic.dnsAddresses)
  }

  /** Every address the loops of GetSpecification meet, in the order they meet them. */
  function Candidates(nics: seq<NetworkInterface>): seq<Candidate>
    decreases |nics|
  {
    if |nics| == 0 then []
    else
      var m := |nics| - 1;
      Candidates(nics[..m]) + InterfaceCandidates(m, nics[m])
  }

  /** The addresses of the given kind in `ds`, in order: the lists `gaddrs` and `daddrs`. */
  function KindAddresses(ds: seq<Candidate>, kind: AddressKind): seq<string>
    decreases |ds|
  {
    if |ds| == 0 then []
    else
      var m := |ds| - 1;
      KindAddresses(ds[..m], kind) + (if ds[m].kind == kind then [ds[m].address] else [])
  }

  /** The candidates kept: each one whose address was not yet seen for its kind. */
  function FirstSeen(cs: seq<Candidate>): seq<Candidate>
    decreases |cs|
  {
    if |cs| == 0 then []
    else
      var m := |cs| - 1;
      var kept := FirstSeen(cs[..m]);
      if cs[m].address in KindAddresses(kept, cs[m].kind) then kept else kept + [cs[m]]
  }

  /** The properties as written: the counters never leave 1. */
  function Rendered(ds: seq<Candidate>): (props: seq<PropertySpec>)
    ensures |props| == |ds|
    decreases |ds|
  {
    if |ds| == 0 then []
    else
      var m := |ds| - 1;
      Rendered(ds[..m]) + [Emitted(ds[m], 1)]
  }

  /** The properties with a counter per kind that advances on every emitted address. */
  function Numbered(ds: seq<Candidate>): (props: seq<PropertySpec>)
    ensures |props| == |ds|
    decreases |ds|
  {
    if |ds| == 0 then []
    else
      var m := |ds| - 1;
      Numbered(ds[..m]) + [Emitted(ds[m], |KindAddresses(ds[..m], ds[m].kind)| + 1)]
  }

  function Discovered(nics: seq<NetworkInterface>): ThingSpec {
    ThingSpec(Rendered(FirstSeen(Candidates(nics))))
  }

  function DiscoveredNumbered(nics: seq<NetworkInterface>): ThingSpec {
    ThingSpec(Numbered(FirstSeen(Candidates(nics))))
  }

  lemma GatewayCandidatesStep(n: nat, nicName: string, gateways: seq<string>, g: nat)
    requires g < |gateways|
    ensures GatewayCandidates(n, nicName, gateways[..g + 1])
         == GatewayCandidates(n, nicName, gateways[..g]) + [Candidate(Gateway, n, nicName, gateways[g])]
  {
    assert gateways[..g + 1][..g] == gateways[..g];
  }

  lemma DnsCandidatesStep(n: nat, nicName: string, dnsAddresses: seq<DnsAddress>, d: nat)
    requires d < |dnsAddresses|
    ensures DnsCandidates(n, nicName, dnsAddresses[..d + 1])
         == DnsCandidates(n, nicName, dnsAddresses[..d])
            + (if dnsAddresses[d].isIPv4 then [Candidate(Dns, n, nicName, dnsAddresses[d].text)] else [])
  {
    assert dnsAddresses[..d + 1][..d] == dnsAddresses[..d];
  }

  lemma CandidatesStep(nics: seq<NetworkInterface>, n: nat)
    requires n < |nics|
    ensures Candidates(nics[..n + 1]) == Candidates(nics[..n]) + InterfaceCandidates(n, nics[n])
  {
    assert nics[..n + 1][..n] == nics[..n];
  }

  /**
    Associativity of `+`, which Dafny knows; calling it is only a hint to the
    verifier that lets a loop's `seen + ...` term match the next step's.
   */
  lemma AppendAssociative(a: seq<Candidate>, b: seq<Candidate>, c: seq<Candidate>)
    ensures (a + b) + c == a + (b + c)
  {
  }

  /** One step of the dedup: the seen lists and the output grow together. */
  lemma FirstSeenStep(seen: seq<Candidate>, c: Candidate)
    ensures FirstSeen(seen + [c]) ==
      if c.address in KindAddresses(FirstSeen(seen), c.kind) then FirstSeen(seen) else FirstSeen(seen) + [c]
  {
    assert (seen + [c])[..|seen|] == seen;
  }

  lemma AppendKept(ds: seq<Candidate>, c: Candidate)
    ensures Rendered(ds + [c]) == Rendered(ds) + [Emitted(c, 1)]
    ensures Numbered(ds + [c]) == Numbered(ds) + [Emitted(c, |KindAddresses(ds, c.kind)| + 1)]
    ensures KindAddresses(ds + [c], c.kind) == KindAddresses(ds, c.kind) + [c.address]
    ensures forall k :: k != c.kind ==> KindAddresses(ds + [c], k) == KindAddresses(ds, k)
  {
    RenderedAppend(ds, c);
    NumberedAppend(ds, c);
    KindAddressesAppendOne(ds, c);
  }

  lemma RenderedAppend(ds: seq<Candidate>, c: Candidate)
    ensures Rendered(ds + [c]) == Rendered(ds) + [Emitted(c, 1)]
  {
    assert (ds + [c])[..|ds|] == ds;
  }

  lemma NumberedAppend(ds: seq<Candidate>, c: Candidate)
    ensures Numbered(ds + [c]) == Numbered(ds) + [Emitted(c, |KindAddresses(ds, c.kind)| + 1)]
  {
    assert (ds + [c])[..|ds|] == ds;
  }

  lemma KindAddressesAppendOne(ds: seq<Candidate>, c: Candidate)
    ensures KindAddresses(ds + [c], c.kind) == KindAddresses(ds, c.kind) + [c.address]
    ensures forall k :: k != c.kind ==> KindAddresses(ds + [c], k) == KindAddresses(ds, k)
  {
    assert (ds + [c])[..|ds|] == ds;
  }

  /**
    The body of an inner loop of GetSpecification, as written, for one
    address of the given kind: unless `seenAddresses` already holds it, emit
    a property named from `counter` and remember the address. The counter is
    advanced only inside `if (counter > 1)`, so from 1 it never moves.
   */
  method VisitAddress(kind: AddressKind, nicName: string, ip: string,
                      points: seq<PropertySpec>, seenAddresses: seq<string>, counter: int)
    returns (points': seq<PropertySpec>, seenAddresses': seq<string>, counter': int)
    ensures ip in seenAddresses ==> points' == points && seenAddresses' == seenAddresses
    ensures ip !in seenAddresses ==>
      points' == points + [LatencyProperty(kind, nicName, ip, counter)] && seenAddresses' == seenAddresses + [ip]
    ensures counter' == if ip !in seenAddresses && counter > 1 then counter + 1 else counter
  {
    points', seenAddresses', counter' := points, seenAddresses, counter;
    if ip !in seenAddresses {
      var name := KindId(kind);
      if counter' > 1 {
        name := name + IntToString(counter');
        counter' := counter' + 1;
      }
      var ps := Create(name, nicName + KindLabel(kind), Some("int"), 0, Some(ip));
      ps := ps.(dataType := Some(ps.dataType.value.(specs := Some(LatencySpecs))));
      points' := points' + [ps];
      seenAddresses' := seenAddresses' + [ip];
    }
  }

  /** VisitAddress with the counter advanced on every emitted address. */
  method VisitAddressNumbered(kind: AddressKind, nicName: string, ip: string,
                              points: seq<PropertySpec>, seenAddresses: seq<string>, counter: int)
    returns (points': seq<PropertySpec>, seenAddresses': seq<string>, counter': int)
    ensures ip in seenAddresses ==> points' == points && seenAddresses' == seenAddresses
    ensures ip !in seenAddresses ==>
      points' == points + [LatencyProperty(kind, nicName, ip, counter)] && seenAddresses' == seenAddresses + [ip]
    ensures counter' == if ip !in seenAddresses then counter + 1 else counter
  {
    points', seenAddresses', counter' := points, seenAddresses, counter;
    if ip !in seenAddresses {
      var name := KindId(kind);
      if counter' > 1 {
        name := name + IntToString(counter');
      }
      counter' := counter' + 1;
      var ps := Create(name, nicName + KindLabel(kind), Some("int"), 0, Some(ip));
      ps := ps.(dataType := Some(ps.dataType.value.(specs := Some(LatencySpecs))));
      points' := points' + [ps];
      seenAddresses' := seenAddresses' + [ip];
    }
  }

  /** The lists GetSpecification keeps, as written, after it has met the addresses `seen`. */
  ghost predicate Tracks(seen: seq<Candidate>, points: seq<PropertySpec>, gaddrs: seq<string>, daddrs: seq<string>) {
    && points == Rendered(FirstSeen(seen))
    && gaddrs == KindAddresses(FirstSeen(seen), Gateway)
    && daddrs == KindAddresses(FirstSeen(seen), Dns)
  }

  /** The lists and counters of the numbered GetSpecification after it has met `seen`. */
  ghost predicate TracksNumbered(seen: seq<Candidate>, points: seq<PropertySpec>, gaddrs: seq<string>, daddrs: seq<string>,
                                 gi: int, di: int) {
    && points == Numbered(FirstSeen(seen))
    && gaddrs == KindAddresses(FirstSeen(seen), Gateway)
    && daddrs == KindAddresses(FirstSeen(seen), Dns)
    && gi == |gaddrs| + 1 && di == |daddrs| + 1
  }

  /** The `foreach` over one interface's gateway addresses, as written. */
  method VisitGateways(n: nat, item: NetworkInterface, ghost seen: seq<Candidate>,
                       points: seq<PropertySpec>, gaddrs: seq<string>, ghost daddrs: seq<string>, gi: int)
    returns (points': seq<PropertySpec>, gaddrs': seq<string>, gi': int)
    requires Tracks(seen, points, gaddrs, daddrs) && gi == 1
    ensures Tracks(seen + GatewayCandidates(n, item.name, item.gateways), points', gaddrs', daddrs) && gi' == 1
  {
    points', gaddrs', gi' := points, gaddrs, gi;
    ghost var visited := seen;
    for g := 0 to |item.gateways|
      invariant visited == seen + GatewayCandidates(n, item.name, item.gateways[..g])
      invariant Tracks(visited, points', gaddrs', daddrs) && gi' == 1
    {
      var ip := item.gateways[g];
      ghost var c := Candidate(Gateway, n, item.name, ip);
      FirstSeenStep(visited, c);
      AppendKept(FirstSeen(visited), c);
      points', gaddrs', gi' := VisitAddress(Gateway, item.name, ip, points', gaddrs', gi');
      GatewayCandidatesStep(n, item.name, item.gateways, g);
      AppendAssociative(seen, GatewayCandidates(n, item.name, item.gateways[..g]), [c]);
      visited := visited + [c];
    }
    assert item.gateways[..|item.gateways|] == item.gateways;
  }

  /** The `foreach` over one interface's DNS addresses, as written: non-IPv4 ones are skipped. */
  method VisitDnsAddresses(n: nat, item: NetworkInterface, ghost seen: seq<Candidate>,
                           points: seq<PropertySpec>, ghost gaddrs: seq<string>, daddrs: seq<string>, di: int)
    returns (points': seq<PropertySpec>, daddrs': seq<string>, di': int)
    requires Tracks(seen, points, gaddrs, daddrs) && di == 1
    ensures Tracks(seen + DnsCandidates(n, item.name, item.dnsAddresses), points', gaddrs, daddrs') && di' == 1
  {
    points', daddrs', di' := points, daddrs, di;
    ghost var visited := seen;
    for d := 0 to |item.dnsAddresses|
      invariant visited == seen + DnsCandidates(n, item.name, item.dnsAddresses[..d])
      invariant Tracks(visited, points', gaddrs, daddrs') && di' == 1
    {
      var elm := item.dnsAddresses[d];
      DnsCandidatesStep(n, item.name, item.dnsAddresses, d);
      if !elm.isIPv4 {
        continue;
      }
      var ip := elm.text;
      ghost var c := Candidate(Dns, n, item.name, ip);
      FirstSeenStep(visited, c);
      AppendKept(FirstSeen(visited), c);
      points', daddrs', di' := VisitAddress(Dns, item.name, ip, points', daddrs', di');
      AppendAssociative(seen, DnsCandidates(n, item.name, item.dnsAddresses[..d]), [c]);
      visited := visited + [c];
    }
    assert item.dnsAddresses[..|item.dnsAddresses|] == item.dnsAddresses;
  }

  /**
    GetSpecification as written: a gateway property per first-seen gateway
    address, then one per first-seen IPv4 DNS address, interface by interface.
   */
  method GetSpecification(nics: seq<NetworkInterface>) returns (spec: ThingSpec)
    ensures spec == Discovered(nics)
  {
    var points: seq<PropertySpec> := [];
    var gaddrs: seq<string> := [];
    var daddrs: seq<string> := [];
    var gi := 1;
    var di := 1;
    for n := 0 to |nics|
      invariant Tracks(Candidates(nics[..n]), points, gaddrs, daddrs)
      invariant gi == 1 && di == 1
    {
      var item := nics[n];
      ghost var seen := Candidates(nics[..n]);
      points, gaddrs, gi := VisitGateways(n, item, seen, points, gaddrs, daddrs, gi);
      seen := seen + GatewayCandidates(n, item.name, item.gateways);
      points, daddrs, di := VisitDnsAddresses(n, item, seen, points, gaddrs, daddrs, di);
      CandidatesStep(nics, n);
      AppendAssociative(Candidates(nics[..n]), GatewayCandidates(n, item.name, item.gateways),
                        DnsCandidates(n, item.name, item.dnsAddresses));
    }
    assert nics[..|nics|] == nics;
    spec := ThingSpec(points);
  }

  /** The gateway loop with the counter advanced on every emitted address. */
  method VisitGatewaysNumbered(n: nat, item: NetworkInterface, ghost seen: seq<Candidate>,
                               points: seq<PropertySpec>, gaddrs: seq<string>, ghost daddrs: seq<string>,
                               gi: int, ghost di: int)
    returns (points': seq<PropertySpec>, gaddrs': seq<string>, gi': int)
    requires TracksNumbered(seen, points, gaddrs, daddrs, gi, di)
    ensures TracksNumbered(seen + GatewayCandidates(n, item.name, item.gateways), points', gaddrs', daddrs, gi', di)
  {
    points', gaddrs', gi' := points, gaddrs, gi;
    ghost var visited := seen;
    for g := 0 to |item.gateways|
      invariant visited == seen + GatewayCandidates(n, item.name, item.gateways[..g])
      invariant TracksNumbered(visited, points', gaddrs', daddrs, gi', di)
    {
      var ip := item.gateways[g];
      ghost var c := Candidate(Gateway, n, item.name, ip);
      FirstSeenStep(visited, c);
      AppendKept(FirstSeen(visited), c);
      points', gaddrs', gi' := VisitAddressNumbered(Gateway, item.name, ip, points', gaddrs', gi');
      GatewayCandidatesStep(n, item.name, item.gateways, g);
      AppendAssociative(seen, GatewayCandidates(n, item.name, item.gateways[..g]), [c]);
      visited := visited + [c];
    }
    assert item.gateways[..|item.gateways|] == item.gateways;
  }

  /** The DNS loop with the counter advanced on every emitted address. */
  method VisitDnsAddressesNumbered(n: nat, item: NetworkInterface, ghost seen: seq<Candidate>,
                                   points: seq<PropertySpec>, ghost gaddrs: seq<string>, daddrs: seq<string>,
                                   ghost gi: int, di: int)
    returns (points': seq<PropertySpec>, daddrs': seq<string>, di': int)
    requires TracksNumbered(seen, points, gaddrs, daddrs, gi, di)
    ensures TracksNumbered(seen + DnsCandidates(n, item.name, item.dnsAddresses), points', gaddrs, daddrs', gi, di')
  {
    points', daddrs', di' := points, daddrs, di;
    ghost var visited := seen;
    for d := 0 to |item.dnsAddresses|
      invariant visited == seen + DnsCandidates(n, item.name, item.dnsAddresses[..d])
      invariant TracksNumbered(visited, points', gaddrs, daddrs', gi, di')
    {
      var elm := item.dnsAddresses[d];
      DnsCandidatesStep(n, item.name, item.dnsAddresses, d);
      if !elm.isIPv4 {
        continue;
      }
      var ip := elm.text;
      ghost var c := Candidate(Dns, n, item.name, ip);
      FirstSeenStep(visited, c);
      AppendKept(FirstSeen(visited), c);
      points', daddrs', di' := VisitAddressNumbered(Dns, item.name, ip, points', daddrs', di');
      AppendAssociative(seen, DnsCandidates(n, item.name, item.dnsAddresses[..d]), [c]);
      visited := visited + [c];
    }
    assert item.dnsAddresses[..|item.dnsAddresses|] == item.dnsAddresses;
  }

  /**
    GetSpecification with the counters advanced on every emitted address, so
    that the second gateway is "Gateway2", the third "Gateway3", and so on.
   */
  method GetSpecificationNumbered(nics: seq<NetworkInterface>) returns (spec: ThingSpec)
    ensures spec == DiscoveredNumbered(nics)
  {
    var points: seq<PropertySpec> := [];
    var gaddrs: seq<string> := [];
    var daddrs: seq<string> := [];
    var gi := 1;
    var di := 1;
    for n := 0 to |nics|
      invariant TracksNumbered(Candidates(nics[..n]), points, gaddrs, daddrs, gi, di)
    {
      var item := nics[n];
      ghost var seen := Candidates(nics[..n]);
      points, gaddrs, gi := VisitGatewaysNumbered(n, item, seen, points, gaddrs, daddrs, gi, di);
      seen := seen + GatewayCandidates(n, item.name, item.gateways);
      points, daddrs, di := VisitDnsAddressesNumbered(n, item, seen, points, gaddrs, daddrs, gi, di);
      CandidatesStep(nics, n);
      AppendAssociative(Candidates(nics[..n]), GatewayCandidates(n, item.name, item.gateways),
                        DnsCandidates(n, item.name, item.dnsAddresses));
    }
    assert nics[..|nics|] == nics;
    spec := ThingSpec(points);
  }
}
