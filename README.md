# NetPing driver model

A Dafny model of `NetPingDriver`, the IoT driver of NewLife.NetPing. The driver:

- pings every configured point and reports the round-trip time under the point's name;
- optionally reports a status string under `name + "-Status"`;
- discovers the local gateways and DNS servers and turns them into properties (points) to ping.

The model has three operations:

- **Read** is a method. Its loop updates a dictionary, modelled as a `map<string, Value>`, one point at a time. It is proved equal to `ReadResult`, a fold over the points. `ReadProperties` proves which keys that dictionary holds and which write each value comes from.
- **GetSpecification** is a method with the source's nested loops. It keeps the property list, the two seen-address lists `gaddrs`/`daddrs` and the two counters `gi`/`di`. It is proved equal to `Discovered`, which is built in three steps:
  - `Candidates`: every address the loops meet, in order.
  - `FirstSeen`: the first occurrence per kind and address.
  - `Rendered`: the properties.

  `DiscoveryProperties` proves what those properties are: unique per kind, in interface order, the IPv4 filter on DNS servers, and the Ids.
- **Create** is a function building a `PropertySpec`.

The host types (`PropertySpec`, `TypeSpec`, `DataSpecs`, `ThingSpec`) are datatypes holding only the fields the driver sets.

Files:

- `wrappers.dfy`: `Option`, which stands for a C# null.
- `decimal.dfy`: the decimal text of an `Int32`, which is used when a counter is appended to an Id.
- `thing_spec.dfy`: the host's property types.
- `net_ping_driver.dfy`: the driver's operations and the functions that specify them.
- `read_properties.dfy`: the properties of Read.
- `discovery_properties.dfy`: the properties of GetSpecification.

The operating system is an input:

- The outcome of every `Ping.Send` is given as a sequence `outcomes`, with one entry per point. An entry is either a reply (a status and a round-trip time) or an exception (with its innermost message).
- `NetworkInterface.GetAllNetworkInterfaces()` is given as a sequence of interfaces. Each interface carries its name, its gateway address texts, and its DNS address texts with an IPv4 flag.

## Model

| member | source | states |
|---|---|---|
| NetPingDriver.StatusName | NewLife.NetPing/Drivers/NetPingDriver.cs:43 | the text of a reply status is "Success" exactly when the status is Success |
| NetPingDriver.ReadPoint | NewLife.NetPing/Drivers/NetPingDriver.cs:35-48 | one pass of the loop: the dictionary gains exactly the entries `PointReadings` gives for that point, over what it held before |
| NetPingDriver.Read | NewLife.NetPing/Drivers/NetPingDriver.cs:26-53 | a null or empty point array returns an empty dictionary; otherwise the result is `ReadResult`, the points' entries applied in array order |
| ReadProperties.StatusKeyInjective | NewLife.NetPing/Drivers/NetPingDriver.cs:43 | two names have the same status key `name + "-Status"` exactly when they are equal |
| ReadProperties.PointReadingsExactly | NewLife.NetPing/Drivers/NetPingDriver.cs:35-48 | a point writes its name exactly when it has an address and the reply is Success, with the round-trip time as value. It writes its status key exactly when it has an address and either RetrieveStatus is on or Send threw. The value is the status name or the exception message |
| ReadProperties.ReadingsKeys | NewLife.NetPing/Drivers/NetPingDriver.cs:33-50 | a key is in the dictionary exactly when some point wrote it |
| ReadProperties.ReadingsLastWrite | NewLife.NetPing/Drivers/NetPingDriver.cs:33-50 | the value under a key is the one written by the last point that wrote it, whatever the other points' pings did |
| ReadProperties.ReadKeysExactly | NewLife.NetPing/Drivers/NetPingDriver.cs:26-53 | the keys of Read's result, stated on the inputs alone: nothing for a null array, else exactly the names and status keys the points' branches write |
| ReadProperties.OnlyOwnerWrites | NewLife.NetPing/Drivers/NetPingDriver.cs:41-47 | when no point's name is another point's name or status key, a point's keys are written by no other point |
| ReadProperties.ReadPerPoint | NewLife.NetPing/Drivers/NetPingDriver.cs:35-48 | with non-colliding keys, each point's latency entry is present exactly on Success and holds its round-trip time. Its status entry is present exactly when RetrieveStatus is on or Send threw, and holds the status name or message. A point without an address has neither |
| ReadProperties.ReadEmpty | NewLife.NetPing/Drivers/NetPingDriver.cs:30 | a null or empty point array reads as the empty dictionary |
| ReadProperties.TimedOutPoint | NewLife.NetPing/Drivers/NetPingDriver.cs:39-43 | one point "a" whose ping times out, with RetrieveStatus on, gives exactly `{"a-Status": "TimedOut"}` and no latency key |
| NetPingDriver.Create | NewLife.NetPing/Drivers/NetPingDriver.cs:112-130 | Id, Name and Address are copied. There is a data type exactly when the type is non-null, and it carries that type name. It has specs exactly when the length is positive, holding that length and no unit |
| NetPingDriver.LatencyProperty | NewLife.NetPing/Drivers/NetPingDriver.cs:77-78 | a discovered property has the Id for its counter, the name interface name + 网关/DNS, the address, type "int", and specs with unit "ms" shown as 毫秒 |
| NetPingDriver.VisitAddress | NewLife.NetPing/Drivers/NetPingDriver.cs:72-81 | an address already in the seen list changes nothing. Otherwise one property is appended and the address is remembered. The counter moves only when it is already above 1 |
| NetPingDriver.VisitGateways | NewLife.NetPing/Drivers/NetPingDriver.cs:70-82 | after one interface's gateway loop, the property list and `gaddrs` are those of the addresses met so far, and `gi` is still 1 |
| NetPingDriver.VisitDnsAddresses | NewLife.NetPing/Drivers/NetPingDriver.cs:83-97 | the same for the DNS loop. Non-IPv4 addresses are skipped and `di` stays 1 |
| NetPingDriver.GetSpecification | NewLife.NetPing/Drivers/NetPingDriver.cs:57-103 | the returned spec is `Discovered(nics)`: one property per first-seen gateway and IPv4 DNS address, interface by interface, with the counters stuck at 1 |
| NetPingDriver.FirstSeenStep | NewLife.NetPing/Drivers/NetPingDriver.cs:73-81 | an address already in its kind's seen list is dropped; any other is appended |
| NetPingDriver.Rendered | NewLife.NetPing/Drivers/NetPingDriver.cs:79 | one property per kept address |
| DiscoveryProperties.GatewayCandidatesExactly | NewLife.NetPing/Drivers/NetPingDriver.cs:70-72 | the gateway loop meets exactly the interface's gateway addresses, of every family |
| DiscoveryProperties.DnsCandidatesExactly | NewLife.NetPing/Drivers/NetPingDriver.cs:83-87 | the DNS loop meets exactly the interface's IPv4 DNS addresses |
| DiscoveryProperties.CandidatesExactly | NewLife.NetPing/Drivers/NetPingDriver.cs:67-98 | an address is met exactly when its interface offers it: as a gateway, or as an IPv4 DNS server |
| DiscoveryProperties.InterfaceCandidatesOrdered | NewLife.NetPing/Drivers/NetPingDriver.cs:70-97 | within one interface, all gateways are met before any DNS address |
| DiscoveryProperties.CandidatesOrdered | NewLife.NetPing/Drivers/NetPingDriver.cs:67-98 | addresses are met interface by interface, with gateways before DNS within one interface |
| DiscoveryProperties.KindAddressesExactly | NewLife.NetPing/Drivers/NetPingDriver.cs:80 | an address is in a seen list exactly when some kept entry has that kind and address |
| DiscoveryProperties.FirstSeenCovers | NewLife.NetPing/Drivers/NetPingDriver.cs:73-95 | after the loops, `gaddrs`/`daddrs` hold an address exactly when it was met with that kind |
| DiscoveryProperties.FirstSeenPicksFirsts | NewLife.NetPing/Drivers/NetPingDriver.cs:63-97 | the kept list is the addresses met, taken at exactly the first occurrence of each kind and address, in the order met |
| DiscoveryProperties.FirstSeenUnique | NewLife.NetPing/Drivers/NetPingDriver.cs:73-95 | no kind and address is kept twice |
| DiscoveryProperties.DiscoveredShape | NewLife.NetPing/Drivers/NetPingDriver.cs:75-78 | as written, every gateway property has Id "Gateway" and every DNS property Id "Dns". Each has its interface's name and label, its address, type "int" and unit "ms" |
| DiscoveryProperties.DiscoveredAddressesUnique | NewLife.NetPing/Drivers/NetPingDriver.cs:73-95 | two properties of the same kind never share an address |
| DiscoveryProperties.DiscoveredOrdered | NewLife.NetPing/Drivers/NetPingDriver.cs:67-98 | the properties follow interface order, gateways before DNS within one interface |
| DiscoveryProperties.FirstSeenSubset | NewLife.NetPing/Drivers/NetPingDriver.cs:79-80 | every kept entry is an address the loops met |
| DiscoveryProperties.DiscoveredDnsIsIPv4 | NewLife.NetPing/Drivers/NetPingDriver.cs:85 | every "Dns" property's address is an IPv4 DNS address of some interface |
| DiscoveryProperties.KeptWhenMet | NewLife.NetPing/Drivers/NetPingDriver.cs:73-80 | every address met is kept under its kind |
| DiscoveryProperties.DiscoveredCovers | NewLife.NetPing/Drivers/NetPingDriver.cs:67-98 | every gateway and every IPv4 DNS address of every interface gets a property of its kind |
| DiscoveryProperties.SameAddressBothKinds | NewLife.NetPing/Drivers/NetPingDriver.cs:63-64 | one address that is both gateway and DNS server of an interface gives two properties, because the seen lists are per kind |
| DiscoveryProperties.GatewayIdsCollide | NewLife.NetPing/Drivers/NetPingDriver.cs:75-76 | as written, two interfaces with different gateways give two properties that both have Id "Gateway" |
| NetPingDriver.VisitAddressNumbered | NewLife.NetPing/Drivers/NetPingDriver.cs:75-76 | the corrected loop body: the counter advances on every emitted property |
| NetPingDriver.VisitGatewaysNumbered | NewLife.NetPing/Drivers/NetPingDriver.cs:70-82 | with the correction, `gi` is one more than the number of gateways kept so far |
| NetPingDriver.VisitDnsAddressesNumbered | NewLife.NetPing/Drivers/NetPingDriver.cs:83-97 | with the correction, `di` is one more than the number of DNS addresses kept so far |
| NetPingDriver.GetSpecificationNumbered | NewLife.NetPing/Drivers/NetPingDriver.cs:57-103 | with the correction, the returned spec is `DiscoveredNumbered(nics)` |
| NetPingDriver.Numbered | NewLife.NetPing/Drivers/NetPingDriver.cs:79 | with the correction, one property per kept address |
| DiscoveryProperties.NumberedIndex | NewLife.NetPing/Drivers/NetPingDriver.cs:75-76 | the k-th kept address of a kind (counting from 1) gets counter k |
| DiscoveryProperties.PropertyIdInjective | NewLife.NetPing/Drivers/NetPingDriver.cs:75-76 | Ids are equal exactly when kind and counter are equal |
| DiscoveryProperties.CounterGrows | NewLife.NetPing/Drivers/NetPingDriver.cs:75-76 | a later address of the same kind has a larger counter |
| DiscoveryProperties.NumberedIdsDistinct | NewLife.NetPing/Drivers/NetPingDriver.cs:57-103 | with the correction, no two discovered properties share an Id |
| DiscoveryProperties.NumberedDiffersOnlyInIds | NewLife.NetPing/Drivers/NetPingDriver.cs:75-78 | the correction changes only the Ids: every other field is as written |
| DiscoveryProperties.NumberedTwoGateways | NewLife.NetPing/Drivers/NetPingDriver.cs:75-76 | with the correction, the two interfaces of GatewayIdsCollide give "Gateway" and "Gateway2" |
| Decimal.IntToString | NewLife.NetPing/Drivers/NetPingDriver.cs:76 | the text appended by `name += gi` is the decimal digits, with a leading minus only for negative numbers |
| Decimal.ParseNatToString | NewLife.NetPing/Drivers/NetPingDriver.cs:76 | reading the decimal text back gives the number |
| Decimal.IntToStringInjective | NewLife.NetPing/Drivers/NetPingDriver.cs:76 | two counters have the same text exactly when they are equal |

## Left out

- `Ping.Send` (ICMP) is an input: one outcome per point. `Timeout` (default 5000, NewLife.NetPing/Drivers/NetPingParameter.cs:11) is carried in the parameter but only ever handed to the ping.
- `NetworkInterface.GetAllNetworkInterfaces()` and `GetIPProperties()` are an input sequence. Address objects are reduced to their `ToString()` text.
- `IsIPv4()` is a flag on each DNS address. `ex.GetTrue().Message` is the message carried by the outcome.
- A point with a null `Name` is not modelled: names are non-null strings. In the source, a Success reply makes `dic[null] = …` (NetPingDriver.cs:41) throw `ArgumentNullException` inside the try, and the catch (:45-47) writes the message under `null + "-Status"`, that is `"-Status"`. Any other reply writes its status under `"-Status"` when RetrieveStatus is on and writes nothing when it is off; a throwing Send writes its message under `"-Status"`.
- A missing or differently typed `node.Parameter` needs no case of its own: `as` (NetPingDriver.cs:32) then yields null, `p.Timeout` (:39) throws `NullReferenceException` inside the try, and the catch (:45-47) writes that message under the status key of every point with an address, whatever RetrieveStatus says. This is the model's `Threw` outcome for every point.
- Read's exceptions that escape it are not modelled: a null `node` throws at NetPingDriver.cs:32 when `points` is non-empty, and a null element of `points` throws at :35 (`point.Address`), both outside the try. A `Point` in the model is never null.
- `RetrieveStatus` is a boolean field of the parameter. NetPingParameter.cs declares only `Timeout` (line 11), yet Read reads `p.RetrieveStatus` (NetPingDriver.cs:42).
- The dictionary's values are `long` round-trip times and strings, modelled as the `Value` datatype. The host's boxing and `IPoint`/`INode` interfaces are left out.
- Host-framework types keep only the fields the driver sets. They are immutable values, so aliasing between a created property and the list is not modelled.
- Program.cs (the test host) and NetPingNode.cs are not part of this model.
- Ids: `name += gi++` (NetPingDriver.cs:76, :91 for `di`) only does something if the counter can exceed 1, which points to `Gateway`, `Gateway2`, `Gateway3`…. The code as written gives every gateway `Gateway` (see Findings); `GetSpecification` follows the code, and `GetSpecificationNumbered` is the corrected version.
- Success status: a successful reply with RetrieveStatus on also writes a `"Success"` status entry (NetPingDriver.cs:42-43).
- `NetPingDriver.Rendered`: its contract states only the length. The contents are stated by `DiscoveryProperties.DiscoveredShape`.
- `NetPingDriver.Numbered`: its contract states only the length. The contents are stated by `DiscoveryProperties.NumberedIndex`.

## Findings

| source | as written | input that shows it | evidently intended | confidence | as-written member | corrected member |
|---|---|---|---|---|---|---|
| NewLife.NetPing/Drivers/NetPingDriver.cs:76 and :91 | `gi++` / `di++` sit inside `if (gi > 1)` / `if (di > 1)`. The counters start at 1, so they never advance, and every gateway property is "Gateway" and every DNS property "Dns" | two interfaces with gateways 192.168.1.1 and 10.0.0.1: both properties get Id "Gateway" | append the counter above 1 and advance it on every emitted property: "Gateway", "Gateway2", "Gateway3", … | high, not executed | DiscoveryProperties.GatewayIdsCollide | DiscoveryProperties.NumberedIdsDistinct |
