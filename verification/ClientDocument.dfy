/** The activation document that the client sends, and the configuration the daemon makes of it. */
module ClientDocument {
  import opened Addresses
  import opened InterfaceConfigs
  import opened Prefixes
  import opened ConfigJson

  const DEVICE_IPV6 := "fd58:baa6:dead::1"
  const AMNEZIA_DNS := "172.29.172.254"

  datatype ClientRange = ClientRange(address: string, range: int, isIpv6: bool)

  /** What the client's configuration holds; a member may be undefined. `sites` are the excluded ones. */
  datatype Client = Client(
    awg: bool,
    privateKey: Option<string>,
    address: Option<string>,
    publicKey: Option<string>,
    presharedKey: Option<string>,
    hostName: Option<string>,
    mtu: Option<string>,
    port: int,
    dns1: Option<string>,
    dns2: Option<string>,
    ranges: seq<ClientRange>,
    sites: seq<string>,
    apps: seq<string>,
    allowedDns: seq<string>,
    killSwitch: Option<string>,
    junk: map<JunkName, string>,
    special: map<SpecialName, string>)

  function Text(value: Option<string>): string {
    if value.Some? then value.value else ""
  }

  predicate HasText(s: string, part: string) {
    exists i :: 0 <= i <= |s| && part <= s[i..]
  }

  predicate OwnResolver(x: Client) {
    HasText(Text(x.dns1), AMNEZIA_DNS)
  }

  /** Obfuscation parameters are sent for the protocol that has them, and for another if all are there. */
  predicate CarriesJunk(x: Client) {
    x.awg || forall k: JunkName :: k in x.junk
  }

  // ---- what the document says, member by member

  function TextJson(value: Option<string>): Option<Json> {
    if value.Some? then Some(JString(value.value)) else None
  }

  function RangeDocument(r: ClientRange): Json {
    JObject(map[AddressField := JString(r.address), RangeField := JNumber(r.range), IsIpv6Field := JBool(r.isIpv6)])
  }

  function RangesDocument(ranges: seq<ClientRange>): seq<Json> {
    seq(|ranges|, i requires 0 <= i < |ranges| => RangeDocument(ranges[i]))
  }

  /** An undefined host becomes a null in the list. */
  function ExcludedDocument(x: Client): seq<Json> {
    [if x.hostName.Some? then JString(x.hostName.value) else JNull] + TextsJson(x.sites)
  }

  function ValueOf(x: Client, name: FieldName): Option<Json> {
    match name
    case PrivateKey => TextJson(x.privateKey)
    case DeviceIpv4Address => TextJson(x.address)
    case DeviceIpv6Address => Some(JString(DEVICE_IPV6))
    case ServerPublicKey => TextJson(x.publicKey)
    case ServerPskKey => TextJson(x.presharedKey)
    case ServerIpv4AddrIn => TextJson(x.hostName)
    case DeviceMtu => TextJson(x.mtu)
    case ServerPort => Some(JNumber(x.port))
    case ServerIpv4Gateway => TextJson(x.hostName)
    case PrimaryDnsServer => TextJson(x.dns1)
    case SecondaryDnsServer => if OwnResolver(x) then None else TextJson(x.dns2)
    case AllowedRanges => Some(JArray(RangesDocument(x.ranges)))
    case ExcludedAddresses => Some(JArray(ExcludedDocument(x)))
    case VpnDisabledApps => Some(JArray(TextsJson(x.apps)))
    case AllowedDnsServers => Some(JArray(TextsJson(x.allowedDns)))
    case KillSwitchOption => TextJson(x.killSwitch)
    case JunkField(k) => if CarriesJunk(x) && k in x.junk then Some(JString(x.junk[k])) else None
    case SpecialField(k) => if CarriesJunk(x) && k in x.special then Some(JString(x.special[k])) else None
    case _ => None
  }

  function OptAt(f: Fields, name: FieldName): Option<Json> {
    if name in f then Some(f[name]) else None
  }

  /** The document says what it should about the names, and nothing about others. */
  ghost predicate SaysOf(x: Client, f: Fields, names: set<FieldName>) {
    forall n :: OptAt(f, n) == if n in names then ValueOf(x, n) else None
  }

  ghost predicate Says(x: Client, f: Fields) {
    forall n :: OptAt(f, n) == ValueOf(x, n)
  }

  // ---- LocalSocketController::activate

  /** `QJsonObject::insert`: an undefined value removes the member. */
  method Insert(f: Fields, name: FieldName, value: Option<Json>, ghost x: Client, ghost names: set<FieldName>)
      returns (next: Fields, ghost more: set<FieldName>)
    requires SaysOf(x, f, names) && value == ValueOf(x, name)
    ensures more == names + {name} && SaysOf(x, next, more)
  {
    next, more := if value.Some? then f[name := value.value] else f - {name}, names + {name};
  }

  method InsertKeys(x: Client, f: Fields, ghost names: set<FieldName>)
      returns (json: Fields, ghost more: set<FieldName>)
    requires SaysOf(x, f, names)
    ensures SaysOf(x, json, more)
    ensures more == names + {PrivateKey, DeviceIpv4Address, DeviceIpv6Address, ServerPublicKey, ServerPskKey}
  {
    json, more := f, names;
    json, more := Insert(json, PrivateKey, TextJson(x.privateKey), x, more);
    json, more := Insert(json, DeviceIpv4Address, TextJson(x.address), x, more);
    json, more := Insert(json, DeviceIpv6Address, Some(JString(DEVICE_IPV6)), x, more);
    json, more := Insert(json, ServerPublicKey, TextJson(x.publicKey), x, more);
    json, more := Insert(json, ServerPskKey, TextJson(x.presharedKey), x, more);
  }

  method InsertServer(x: Client, f: Fields, ghost names: set<FieldName>)
      returns (json: Fields, ghost more: set<FieldName>)
    requires SaysOf(x, f, names)
    ensures SaysOf(x, json, more)
    ensures more == names + {ServerIpv4AddrIn, DeviceMtu, ServerPort, ServerIpv4Gateway}
  {
    json, more := Insert(f, ServerIpv4AddrIn, TextJson(x.hostName), x, names);
    json, more := Insert(json, DeviceMtu, TextJson(x.mtu), x, more);
    json, more := Insert(json, ServerPort, Some(JNumber(x.port)), x, more);
    json, more := Insert(json, ServerIpv4Gateway, TextJson(x.hostName), x, more);
  }

  /** The own resolver stands alone. */
  method InsertResolvers(x: Client, f: Fields, ghost names: set<FieldName>)
      returns (json: Fields, ghost more: set<FieldName>)
    requires SaysOf(x, f, names)
    ensures SaysOf(x, json, more)
    ensures more == names + if OwnResolver(x) then {PrimaryDnsServer} else {PrimaryDnsServer, SecondaryDnsServer}
  {
    json, more := Insert(f, PrimaryDnsServer, TextJson(x.dns1), x, names);
    if !HasText(Text(x.dns1), AMNEZIA_DNS) {
      json, more := Insert(json, SecondaryDnsServer, TextJson(x.dns2), x, more);
    }
  }

  method InsertRanges(x: Client, f: Fields, ghost names: set<FieldName>)
      returns (json: Fields, ghost more: set<FieldName>)
    requires SaysOf(x, f, names)
    ensures SaysOf(x, json, more) && more == names + {AllowedRanges}
  {
    var ranges := PrintClientRanges(x.ranges);
    json, more := Insert(f, AllowedRanges, Some(JArray(ranges)), x, names);
  }

  method InsertExclusions(x: Client, f: Fields, ghost names: set<FieldName>)
      returns (json: Fields, ghost more: set<FieldName>)
    requires SaysOf(x, f, names)
    ensures SaysOf(x, json, more) && more == names + {ExcludedAddresses}
  {
    var excluded := [if x.hostName.Some? then JString(x.hostName.value) else JNull];
    var sites := PrintTexts(x.sites);
    json, more := Insert(f, ExcludedAddresses, Some(JArray(excluded + sites)), x, names);
  }

  method InsertTexts(x: Client, f: Fields, ghost names: set<FieldName>)
      returns (json: Fields, ghost more: set<FieldName>)
    requires SaysOf(x, f, names)
    ensures SaysOf(x, json, more) && more == names + {VpnDisabledApps, AllowedDnsServers, KillSwitchOption}
  {
    var apps := PrintTexts(x.apps);
    json, more := Insert(f, VpnDisabledApps, Some(JArray(apps)), x, names);
    var dns := PrintTexts(x.allowedDns);
    json, more := Insert(json, AllowedDnsServers, Some(JArray(dns)), x, more);
    json, more := Insert(json, KillSwitchOption, TextJson(x.killSwitch), x, more);
  }

  method PrintClientRanges(ranges: seq<ClientRange>) returns (items: seq<Json>)
    ensures items == RangesDocument(ranges)
  {
    items := [];
    for i := 0 to |ranges|
      invariant items == RangesDocument(ranges[..i])
    {
      items := items + [RangeDocument(ranges[i])];
    }
    assert ranges[..|ranges|] == ranges;
  }

  method InsertJunk(f: Fields, name: JunkName, x: Client, ghost names: set<FieldName>)
      returns (next: Fields, ghost more: set<FieldName>)
    requires SaysOf(x, f, names) && CarriesJunk(x)
    ensures more == names + {JunkField(name)} && SaysOf(x, next, more)
  {
    var value := if name in x.junk then Some(JString(x.junk[name])) else None;
    next, more := Insert(f, JunkField(name), value, x, names);
  }

  method InsertSpecial(f: Fields, name: SpecialName, x: Client, ghost names: set<FieldName>)
      returns (next: Fields, ghost more: set<FieldName>)
    requires SaysOf(x, f, names) && CarriesJunk(x)
    ensures more == names + {SpecialField(name)} && SaysOf(x, next, more)
  {
    var value := if name in x.special then Some(JString(x.special[name])) else None;
    next, more := Insert(f, SpecialField(name), value, x, names);
  }

  method InsertPackets(x: Client, f: Fields, ghost names: set<FieldName>)
      returns (json: Fields, ghost more: set<FieldName>)
    requires SaysOf(x, f, names) && CarriesJunk(x)
    ensures SaysOf(x, json, more) && more == names + {JunkField(Jc), JunkField(Jmin), JunkField(Jmax)}
  {
    json, more := InsertJunk(f, Jc, x, names);
    json, more := InsertJunk(json, Jmin, x, more);
    json, more := InsertJunk(json, Jmax, x, more);
  }

  method InsertSizes(x: Client, f: Fields, ghost names: set<FieldName>)
      returns (json: Fields, ghost more: set<FieldName>)
    requires SaysOf(x, f, names) && CarriesJunk(x)
    ensures SaysOf(x, json, more) && more == names + {JunkField(S1), JunkField(S2), JunkField(S3), JunkField(S4)}
  {
    json, more := InsertJunk(f, S1, x, names);
    json, more := InsertJunk(json, S2, x, more);
    json, more := InsertJunk(json, S3, x, more);
    json, more := InsertJunk(json, S4, x, more);
  }

  method InsertHeaders(x: Client, f: Fields, ghost names: set<FieldName>)
      returns (json: Fields, ghost more: set<FieldName>)
    requires SaysOf(x, f, names) && CarriesJunk(x)
    ensures SaysOf(x, json, more) && more == names + {JunkField(H1), JunkField(H2), JunkField(H3), JunkField(H4)}
  {
    json, more := InsertJunk(f, H1, x, names);
    json, more := InsertJunk(json, H2, x, more);
    json, more := InsertJunk(json, H3, x, more);
    json, more := InsertJunk(json, H4, x, more);
  }

  method InsertSpecials(x: Client, f: Fields, ghost names: set<FieldName>)
      returns (json: Fields, ghost more: set<FieldName>)
    requires SaysOf(x, f, names) && CarriesJunk(x)
    ensures SaysOf(x, json, more)
    ensures more == names + {SpecialField(I1), SpecialField(I2), SpecialField(I3), SpecialField(I4), SpecialField(I5)}
  {
    json, more := InsertSpecial(f, I1, x, names);
    json, more := InsertSpecial(json, I2, x, more);
    json, more := InsertSpecial(json, I3, x, more);
    json, more := InsertSpecial(json, I4, x, more);
    json, more := InsertSpecial(json, I5, x, more);
  }

  /** The members of every activation but the resolvers. */
  const BASE_NAMES: set<FieldName> :=
    {PrivateKey, DeviceIpv4Address, DeviceIpv6Address, ServerPublicKey, ServerPskKey}
    + {ServerIpv4AddrIn, DeviceMtu, ServerPort, ServerIpv4Gateway}
    + {AllowedRanges} + {ExcludedAddresses} + {VpnDisabledApps, AllowedDnsServers, KillSwitchOption}

  method InsertBase(x: Client, f: Fields, ghost names: set<FieldName>)
      returns (json: Fields, ghost more: set<FieldName>)
    requires SaysOf(x, f, names)
    ensures SaysOf(x, json, more) && more == names + BASE_NAMES
  {
    json, more := InsertKeys(x, f, names);
    json, more := InsertServer(x, json, more);
    json, more := InsertRanges(x, json, more);
    json, more := InsertExclusions(x, json, more);
    json, more := InsertTexts(x, json, more);
  }

  const PARAMETER_NAMES: set<FieldName> :=
    {JunkField(Jc), JunkField(Jmin), JunkField(Jmax)}
    + {JunkField(S1), JunkField(S2), JunkField(S3), JunkField(S4)}
    + {JunkField(H1), JunkField(H2), JunkField(H3), JunkField(H4)}
    + {SpecialField(I1), SpecialField(I2), SpecialField(I3), SpecialField(I4), SpecialField(I5)}

  method InsertParameters(x: Client, f: Fields, ghost names: set<FieldName>)
      returns (json: Fields, ghost more: set<FieldName>)
    requires SaysOf(x, f, names) && CarriesJunk(x)
    ensures SaysOf(x, json, more) && more == names + PARAMETER_NAMES
  {
    json, more := InsertPackets(x, f, names);
    json, more := InsertSizes(x, json, more);
    json, more := InsertHeaders(x, json, more);
    json, more := InsertSpecials(x, json, more);
  }

  /** The document of an activation. */
  method ActivationDocument(x: Client) returns (json: Fields)
    ensures Says(x, json)
  {
    ghost var names: set<FieldName> := {};
    json := map[];
    json, names := InsertBase(x, json, names);
    json, names := InsertResolvers(x, json, names);
    if CarriesJunk(x) {
      json, names := InsertParameters(x, json, names);
    }
    forall n | n !in names
      ensures ValueOf(x, n) == None
    {
      NothingMissing(x, names, n);
    }
  }

  lemma NothingMissing(x: Client, names: set<FieldName>, n: FieldName)
    requires BASE_NAMES <= names && n !in names && PrimaryDnsServer in names
    requires !OwnResolver(x) ==> SecondaryDnsServer in names
    requires CarriesJunk(x) ==> PARAMETER_NAMES <= names
    ensures ValueOf(x, n) == None
  {
    if n.JunkField? {
      NameIsListed(n.junk);
    } else if n.SpecialField? {
      SpecialIsListed(n.special);
    }
  }

  lemma SpecialIsListed(k: SpecialName)
    ensures k in {I1, I2, I3, I4, I5}
  {
    assert k.I1? || k.I2? || k.I3? || k.I4? || k.I5?;
  }

  /** A text is within another exactly if the other is made by writing around it. */
  lemma HasTextExactlyWhen(s: string, part: string)
    ensures HasText(s, part) <==> exists a, b :: s == a + part + b
  {
    if HasText(s, part) {
      var i :| 0 <= i <= |s| && part <= s[i..];
      assert s == s[..i] + part + s[i + |part|..];
    }
    if a, b :| s == a + part + b {
      assert s[|a|..] == part + b;
    }
  }

  // ---- what the daemon makes of the document

  function ReceivedRange(q: Conversions, r: ClientRange): IpAddress {
    IpAddress(q.host(r.address), r.range)
  }

  function ReceivedRanges(q: Conversions, ranges: seq<ClientRange>): seq<IpAddress> {
    seq(|ranges|, i requires 0 <= i < |ranges| => ReceivedRange(q, ranges[i]))
  }

  ghost predicate KeysArrive(q: Conversions, x: Client, r: InterfaceConfig) {
    && x.privateKey == Some(r.privateKey) && x.publicKey == Some(r.serverPublicKey)
    && r.serverPskKey == Text(x.presharedKey)
    && r.serverPort == x.port
    && r.deviceMtu == if x.mtu.None? || q.toInt(x.mtu.value) == 0 then 1420 else q.toInt(x.mtu.value)
  }

  ghost predicate PlacesArrive(x: Client, r: InterfaceConfig) {
    && r.hopType == SingleHop
    && r.deviceIpv4Address == Text(x.address) && r.deviceIpv6Address == "fd58:baa6:dead::1"
    && x.hostName == Some(r.serverIpv4AddrIn) && x.hostName == Some(r.serverIpv4Gateway)
    && r.serverIpv6AddrIn == "" && r.serverIpv6Gateway == ""
    && r.primaryDnsServer == Text(x.dns1)
    && r.secondaryDnsServer == if HasText(Text(x.dns1), "172.29.172.254") then "" else Text(x.dns2)
  }

  ghost predicate ListsArrive(q: Conversions, x: Client, r: InterfaceConfig) {
    && r.excludedAddresses == [Text(x.hostName)] + x.sites
    && r.vpnDisabledApps == x.apps && r.allowedDnsServers == x.allowedDns
    && r.killSwitchEnabled == q.truth(Text(x.killSwitch))
  }

  /** Parameters that are sent and defined arrive; the others are empty. */
  ghost predicate ParametersArrive(x: Client, r: InterfaceConfig) {
    var sent := x.awg || forall k: JunkName :: k in x.junk;
    && (forall k: JunkName :: k in r.junk && r.junk[k] == if sent && k in x.junk then x.junk[k] else "")
    && (forall k: SpecialName ::
          k in r.specialJunk && r.specialJunk[k] == if sent && k in x.special then x.special[k] else "")
  }

  lemma TextArrives(x: Client, f: Fields, name: FieldName, value: Option<string>)
    requires Says(x, f) && ValueOf(x, name) == TextJson(value)
    ensures TextAt(f, name) == Text(value) && (name in f <==> value.Some?) && (IsText(f, name) <==> value.Some?)
  {
    assert OptAt(f, name) == TextJson(value);
  }

  lemma ValueArrives(x: Client, f: Fields, name: FieldName, value: Json)
    requires Says(x, f) && ValueOf(x, name) == Some(value)
    ensures name in f && f[name] == value
  {
    assert OptAt(f, name) == Some(value);
  }

  lemma NothingArrives(x: Client, f: Fields, name: FieldName)
    requires Says(x, f) && ValueOf(x, name) == None
    ensures name !in f
  {
    assert OptAt(f, name) == None;
  }

  lemma KeysAreRead(q: Conversions, x: Client, f: Fields, c: InterfaceConfig)
    requires Says(x, f)
    ensures AcceptableKeys(f) <==> x.privateKey.Some? && x.publicKey.Some?
    ensures AcceptableKeys(f) ==> KeysArrive(q, x, ReadKeys(q, f, c))
  {
    TextArrives(x, f, PrivateKey, x.privateKey);
    TextArrives(x, f, ServerPublicKey, x.publicKey);
    TextArrives(x, f, ServerPskKey, x.presharedKey);
    TextArrives(x, f, DeviceMtu, x.mtu);
    ValueArrives(x, f, ServerPort, JNumber(x.port));
  }

  lemma AddressesAreRead(q: Conversions, x: Client, f: Fields)
    requires Says(x, f)
    ensures !(NullAt(q, f, DeviceIpv4Address) && NullAt(q, f, DeviceIpv6Address))
    ensures !(NullAt(q, f, ServerIpv4AddrIn) && NullAt(q, f, ServerIpv6AddrIn)) <==>
              x.hostName.Some? && (q.emptyReadsNull ==> x.hostName.value != "")
    ensures TextAt(f, DeviceIpv4Address) == Text(x.address) && TextAt(f, DeviceIpv6Address) == DEVICE_IPV6
    ensures TextAt(f, ServerIpv4AddrIn) == Text(x.hostName) && TextAt(f, ServerIpv6AddrIn) == ""
  {
    TextArrives(x, f, DeviceIpv4Address, x.address);
    TextArrives(x, f, DeviceIpv6Address, Some(DEVICE_IPV6));
    assert f[DeviceIpv6Address].s != [];
    TextArrives(x, f, ServerIpv4AddrIn, x.hostName);
    NothingArrives(x, f, ServerIpv6AddrIn);
  }

  lemma ResolversAreRead(x: Client, f: Fields)
    requires Says(x, f)
    ensures PrimaryDnsServer in f ==> f[PrimaryDnsServer].JString?
    ensures SecondaryDnsServer in f ==> f[SecondaryDnsServer].JString?
    ensures TextAt(f, PrimaryDnsServer) == Text(x.dns1)
    ensures TextAt(f, SecondaryDnsServer) == if OwnResolver(x) then "" else Text(x.dns2)
    ensures TextAt(f, ServerIpv4Gateway) == Text(x.hostName) && TextAt(f, ServerIpv6Gateway) == ""
  {
    TextArrives(x, f, PrimaryDnsServer, x.dns1);
    TextArrives(x, f, SecondaryDnsServer, if OwnResolver(x) then None else x.dns2);
    TextArrives(x, f, ServerIpv4Gateway, x.hostName);
    NothingArrives(x, f, ServerIpv6Gateway);
  }

  lemma PlacesAreRead(q: Conversions, x: Client, f: Fields, c: InterfaceConfig)
    requires Says(x, f)
    ensures AcceptablePlaces(q, f) <==> x.hostName.Some? && (q.emptyReadsNull ==> x.hostName.value != "")
    ensures AcceptablePlaces(q, f) ==> PlacesArrive(x, ReadPlaces(f, c))
  {
    AddressesAreRead(q, x, f);
    ResolversAreRead(x, f);
    NothingArrives(x, f, HopTypeField);
  }

  lemma {:induction false} RangesAreRead(q: Conversions, ranges: seq<ClientRange>)
    ensures AllRanges(q, RangesDocument(ranges)) == Some(ReceivedRanges(q, ranges))
  {
    if ranges == [] {
    } else {
      var n := |ranges| - 1;
      RangesAreRead(q, ranges[..n]);
      assert RangesDocument(ranges)[..n] == RangesDocument(ranges[..n]);
      assert RangeOfJson(q, RangeDocument(ranges[n])) == Some(ReceivedRange(q, ranges[n]));
      assert ReceivedRanges(q, ranges[..n]) + [ReceivedRange(q, ranges[n])] == ReceivedRanges(q, ranges);
    }
  }

  lemma ExclusionsAreRead(x: Client)
    requires x.hostName.Some?
    ensures AllTexts(ExcludedDocument(x)) == Some([x.hostName.value] + x.sites)
  {
    assert ExcludedDocument(x) == TextsJson([x.hostName.value] + x.sites);
    TextsReadBack([x.hostName.value] + x.sites);
  }

  lemma ListArrives(x: Client, f: Fields, name: FieldName, texts: seq<string>)
    requires Says(x, f) && ValueOf(x, name) == Some(JArray(TextsJson(texts)))
    ensures TextList(f, name) == Some(texts)
  {
    ValueArrives(x, f, name, JArray(TextsJson(texts)));
    TextsReadBack(texts);
  }

  lemma ExclusionsArrive(x: Client, f: Fields)
    requires Says(x, f) && x.hostName.Some?
    ensures TextList(f, ExcludedAddresses) == Some([x.hostName.value] + x.sites)
  {
    ValueArrives(x, f, ExcludedAddresses, JArray(ExcludedDocument(x)));
    ExclusionsAreRead(x);
  }

  lemma RangesArrive(q: Conversions, x: Client, f: Fields)
    requires Says(x, f)
    ensures AllowedRanges in f && f[AllowedRanges].JArray?
    ensures AllRanges(q, f[AllowedRanges].items) == Some(ReceivedRanges(q, x.ranges))
  {
    ValueArrives(x, f, AllowedRanges, JArray(RangesDocument(x.ranges)));
    RangesAreRead(q, x.ranges);
  }

  lemma ListsAreRead(q: Conversions, x: Client, f: Fields, c: InterfaceConfig)
    requires Says(x, f) && x.hostName.Some?
    ensures AcceptableLists(q, f) && ListsArrive(q, x, ReadLists(q, f, c))
    ensures ReadLists(q, f, c).allowedIPAddressRanges == ReceivedRanges(q, x.ranges)
  {
    RangesArrive(q, x, f);
    ExclusionsArrive(x, f);
    ListArrives(x, f, VpnDisabledApps, x.apps);
    ListArrives(x, f, AllowedDnsServers, x.allowedDns);
    TextArrives(x, f, KillSwitchOption, x.killSwitch);
  }

  lemma JunkArrives(x: Client, f: Fields, k: JunkName)
    requires Says(x, f)
    ensures k in JunkAt(f) && JunkAt(f)[k] == if CarriesJunk(x) && k in x.junk then x.junk[k] else ""
  {
    TextArrives(x, f, JunkField(k), if CarriesJunk(x) && k in x.junk then Some(x.junk[k]) else None);
  }

  lemma SpecialArrives(x: Client, f: Fields, k: SpecialName)
    requires Says(x, f)
    ensures k in SpecialAt(f) && SpecialAt(f)[k] == if CarriesJunk(x) && k in x.special then x.special[k] else ""
  {
    TextArrives(x, f, SpecialField(k), if CarriesJunk(x) && k in x.special then Some(x.special[k]) else None);
  }

  lemma ParametersAreRead(q: Conversions, x: Client, f: Fields, c: InterfaceConfig)
    requires Says(x, f) && AcceptableLists(q, f)
    ensures ParametersArrive(x, ReadLists(q, f, c))
  {
    forall k: JunkName
      ensures k in JunkAt(f) && JunkAt(f)[k] == if CarriesJunk(x) && k in x.junk then x.junk[k] else ""
    {
      JunkArrives(x, f, k);
    }
    forall k: SpecialName
      ensures k in SpecialAt(f) && SpecialAt(f)[k] == if CarriesJunk(x) && k in x.special then x.special[k] else ""
    {
      SpecialArrives(x, f, k);
    }
  }

  lemma DocumentIsRead(q: Conversions, x: Client, f: Fields)
    requires Says(x, f)
    ensures Acceptable(q, f) <==>
              && x.privateKey.Some? && x.publicKey.Some?
              && x.hostName.Some? && (q.emptyReadsNull ==> x.hostName.value != "")
    ensures Acceptable(q, f) ==>
              var r := Read(q, f);
              && KeysArrive(q, x, r) && PlacesArrive(x, r) && ListsArrive(q, x, r) && ParametersArrive(x, r)
              && r.allowedIPAddressRanges == ReceivedRanges(q, x.ranges)
  {
    KeysAreRead(q, x, f, BLANK_CONFIG);
    PlacesAreRead(q, x, f, BLANK_CONFIG);
    if x.hostName.Some? {
      ListsAreRead(q, x, f, BLANK_CONFIG);
      ParametersAreRead(q, x, f, BLANK_CONFIG);
    }
  }

  /** From the client's configuration to the daemon's: refused exactly without keys or a server, and
      otherwise every member is what the client had, on a single hop. */
  method Deliver(q: Conversions, x: Client) returns (r: Option<InterfaceConfig>)
    ensures r.Some? <==>
              && x.privateKey.Some? && x.publicKey.Some?
              && x.hostName.Some? && (q.emptyReadsNull ==> x.hostName.value != "")
    ensures r.Some? ==> KeysArrive(q, x, r.value) && PlacesArrive(x, r.value)
    ensures r.Some? ==> ListsArrive(q, x, r.value) && ParametersArrive(x, r.value)
    ensures r.Some? ==>
              && Sorted(r.value.allowedIPAddressRanges)
              && multiset(r.value.allowedIPAddressRanges) == multiset(ReceivedRanges(q, x.ranges))
  {
    var json := ActivationDocument(x);
    DocumentIsRead(q, x, json);
    r := ParseConfig(q, json);
  }
}
