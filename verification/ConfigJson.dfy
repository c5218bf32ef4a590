/** The JSON form of a tunnel configuration: printer, parser, and what comes back. */
module ConfigJson {
  import opened Addresses
  import opened InterfaceConfigs
  import opened Prefixes

  datatype Json =
    | JNull
    | JBool(b: bool)
    | JNumber(n: int)
    | JString(s: string)
    | JArray(items: seq<Json>)
    | JObject(fields: map<FieldName, Json>)

  /** The member names that printer and parser use. */
  datatype FieldName =
    | HopTypeField | PrivateKey | DeviceIpv4Address | DeviceIpv6Address | ServerPublicKey | ServerPskKey
    | ServerIpv4AddrIn | ServerIpv6AddrIn | ServerPort | DeviceMtu | ServerIpv4Gateway | ServerIpv6Gateway
    | PrimaryDnsServer | SecondaryDnsServer | AllowedRanges | ExcludedAddresses | AllowedDnsServers
    | VpnDisabledApps | KillSwitchOption | AddressField | RangeField | IsIpv6Field
    | JunkField(junk: JunkName) | SpecialField(special: SpecialName)

  type Fields = map<FieldName, Json>

  /** Qt's conversions: address to and from text, `QString::toInt` (0 if it fails), the truth value
      of a text, and whether an empty JSON string reads back as a null string. */
  datatype Conversions = Conversions(
    host: string -> HostAddress,
    show: HostAddress -> string,
    toInt: string -> int,
    truth: string -> bool,
    emptyReadsNull: bool)

  ghost predicate Faithful(q: Conversions) {
    && (forall a: HostAddress :: a != NullAddress ==> q.host(q.show(a)) == a)
    && q.toInt("") == 0 && !q.truth("")
  }

  const DEFAULT_MTU := 1420
  function HopName(hop: HopType): string {
    match hop
    case SingleHop => "SingleHop"
    case MultiHopEntry => "MultiHopEntry"
    case MultiHopExit => "MultiHopExit"
  }

  function HopOf(name: string): Option<HopType> {
    if name == "SingleHop" then Some(SingleHop)
    else if name == "MultiHopEntry" then Some(MultiHopEntry)
    else if name == "MultiHopExit" then Some(MultiHopExit)
    else None
  }

  lemma HopNameReadsBack(hop: HopType)
    ensures HopOf(HopName(hop)) == Some(hop)
  {
    assert |"SingleHop"| == 9 && |"MultiHopEntry"| == 13 && |"MultiHopExit"| == 12;
  }

  // ---- InterfaceConfig::toJson

  function RangeJson(q: Conversions, ip: IpAddress): Json {
    JObject(map[AddressField := JString(q.show(ip.address)),
                RangeField := JNumber(ip.prefixLength),
                IsIpv6Field := JBool(ip.address.Ipv6?)])
  }

  function RangesJson(q: Conversions, ranges: seq<IpAddress>): seq<Json> {
    seq(|ranges|, i requires 0 <= i < |ranges| => RangeJson(q, ranges[i]))
  }

  function TextsJson(texts: seq<string>): seq<Json> {
    seq(|texts|, i requires 0 <= i < |texts| => JString(texts[i]))
  }

  method PrintRanges(q: Conversions, ranges: seq<IpAddress>) returns (items: seq<Json>)
    ensures items == RangesJson(q, ranges)
  {
    items := [];
    for i := 0 to |ranges|
      invariant items == RangesJson(q, ranges[..i])
    {
      items := items + [RangeJson(q, ranges[i])];
    }
    assert ranges[..|ranges|] == ranges;
  }

  method PrintTexts(texts: seq<string>) returns (items: seq<Json>)
    ensures items == TextsJson(texts)
  {
    items := [];
    for i := 0 to |texts|
      invariant items == TextsJson(texts[..i])
    {
      items := items + [JString(texts[i])];
    }
    assert texts[..|texts|] == texts;
  }

  /** The printed texts and numbers of every hop. */
  function MemberFields(c: InterfaceConfig): Fields {
    map[HopTypeField := JString(HopName(c.hopType)),
        PrivateKey := JString(c.privateKey),
        DeviceIpv4Address := JString(c.deviceIpv4Address),
        DeviceIpv6Address := JString(c.deviceIpv6Address),
        ServerPublicKey := JString(c.serverPublicKey),
        ServerPskKey := JString(c.serverPskKey),
        ServerIpv4AddrIn := JString(c.serverIpv4AddrIn),
        ServerIpv6AddrIn := JString(c.serverIpv6AddrIn),
        ServerPort := JNumber(c.serverPort),
        DeviceMtu := JNumber(c.deviceMtu)]
  }

  /** Only a hop with resolvers has these. */
  function WithResolvers(c: InterfaceConfig, f: Fields): Fields {
    if !HasResolvers(c.hopType) then f else
      f[ServerIpv4Gateway := JString(c.serverIpv4Gateway)]
       [ServerIpv6Gateway := JString(c.serverIpv6Gateway)]
       [PrimaryDnsServer := JString(c.primaryDnsServer)]
       [SecondaryDnsServer := JString(c.secondaryDnsServer)]
  }

  function WithLists(q: Conversions, c: InterfaceConfig, f: Fields): Fields {
    f[AllowedRanges := JArray(RangesJson(q, c.allowedIPAddressRanges))]
     [ExcludedAddresses := JArray(TextsJson(c.excludedAddresses))]
     [AllowedDnsServers := JArray(TextsJson(c.allowedDnsServers))]
     [VpnDisabledApps := JArray(TextsJson(c.vpnDisabledApps))]
  }

  function Printed(q: Conversions, c: InterfaceConfig): Fields {
    WithLists(q, c, WithResolvers(c, MemberFields(c)))
  }

  /** `toJson`, member by member: the texts and numbers first. */
  method PrintMembers(c: InterfaceConfig) returns (json: Fields)
    ensures json == MemberFields(c)
  {
    json := map[HopTypeField := JString(HopName(c.hopType))];
    json := json[PrivateKey := JString(c.privateKey)];
    json := json[DeviceIpv4Address := JString(c.deviceIpv4Address)];
    json := json[DeviceIpv6Address := JString(c.deviceIpv6Address)];
    json := json[ServerPublicKey := JString(c.serverPublicKey)];
    json := json[ServerPskKey := JString(c.serverPskKey)];
    json := json[ServerIpv4AddrIn := JString(c.serverIpv4AddrIn)];
    json := json[ServerIpv6AddrIn := JString(c.serverIpv6AddrIn)];
    json := json[ServerPort := JNumber(c.serverPort)];
    json := json[DeviceMtu := JNumber(c.deviceMtu)];
  }

  /** Then the resolvers and the lists. */
  method ToJson(q: Conversions, c: InterfaceConfig) returns (json: Fields)
    ensures json == Printed(q, c)
  {
    json := PrintMembers(c);
    if c.hopType == MultiHopExit || c.hopType == SingleHop {
      json := json[ServerIpv4Gateway := JString(c.serverIpv4Gateway)];
      json := json[ServerIpv6Gateway := JString(c.serverIpv6Gateway)];
      json := json[PrimaryDnsServer := JString(c.primaryDnsServer)];
      json := json[SecondaryDnsServer := JString(c.secondaryDnsServer)];
    }
    var ranges := PrintRanges(q, c.allowedIPAddressRanges);
    json := json[AllowedRanges := JArray(ranges)];
    var excluded := PrintTexts(c.excludedAddresses);
    json := json[ExcludedAddresses := JArray(excluded)];
    var dns := PrintTexts(c.allowedDnsServers);
    json := json[AllowedDnsServers := JArray(dns)];
    var apps := PrintTexts(c.vpnDisabledApps);
    json := json[VpnDisabledApps := JArray(apps)];
  }

  // ---- Daemon::parseConfig

  /** `QJsonValue::toString` of a member: empty unless it is a string. */
  function TextAt(f: Fields, name: FieldName): string {
    if name in f && f[name].JString? then f[name].s else ""
  }

  predicate IsText(f: Fields, name: FieldName) {
    name in f && f[name].JString?
  }

  /** The text of a member is a null string. */
  predicate NullAt(q: Conversions, f: Fields, name: FieldName) {
    !IsText(f, name) || (q.emptyReadsNull && f[name].s == "")
  }

  /** The texts of an array, if all its items are strings. */
  function AllTexts(items: seq<Json>): Option<seq<string>> {
    if items == [] then Some([])
    else
      var init := AllTexts(items[..|items| - 1]);
      if init.None? || !items[|items| - 1].JString? then None
      else Some(init.value + [items[|items| - 1].s])
  }

  /** `parseStringList`: a missing member is an empty list. */
  function TextList(f: Fields, name: FieldName): Option<seq<string>> {
    if name !in f then Some([]) else if !f[name].JArray? then None else AllTexts(f[name].items)
  }

  function RangeOfJson(q: Conversions, j: Json): Option<IpAddress> {
    if j.JObject? && IsText(j.fields, AddressField)
       && RangeField in j.fields && j.fields[RangeField].JNumber?
       && IsIpv6Field in j.fields && j.fields[IsIpv6Field].JBool?
    then Some(IpAddress(q.host(j.fields[AddressField].s), j.fields[RangeField].n))
    else None
  }

  function AllRanges(q: Conversions, items: seq<Json>): Option<seq<IpAddress>> {
    if items == [] then Some([])
    else
      var init, last := AllRanges(q, items[..|items| - 1]), RangeOfJson(q, items[|items| - 1]);
      if init.None? || last.None? then None else Some(init.value + [last.value])
  }

  method ParseStringList(f: Fields, name: FieldName) returns (list: Option<seq<string>>)
    ensures list == TextList(f, name)
  {
    if name !in f {
      return Some([]);
    }
    if !f[name].JArray? {
      return None;
    }
    var items, texts := f[name].items, [];
    for i := 0 to |items|
      invariant AllTexts(items[..i]) == Some(texts)
    {
      assert items[..i + 1][..i] == items[..i];
      if !items[i].JString? {
        TextsStayUnreadable(items, i + 1);
        return None;
      }
      texts := texts + [items[i].s];
    }
    assert items[..|items|] == items;
    return Some(texts);
  }

  lemma {:induction false} TextsStayUnreadable(items: seq<Json>, i: nat)
    requires i <= |items| && AllTexts(items[..i]).None?
    ensures AllTexts(items).None?
    decreases |items| - i
  {
    if i == |items| {
      assert items[..i] == items;
    } else {
      assert items[..i + 1][..i] == items[..i];
      TextsStayUnreadable(items, i + 1);
    }
  }

  lemma {:induction false} RangesStayUnreadable(q: Conversions, items: seq<Json>, i: nat)
    requires i <= |items| && AllRanges(q, items[..i]).None?
    ensures AllRanges(q, items).None?
    decreases |items| - i
  {
    if i == |items| {
      assert items[..i] == items;
    } else {
      assert items[..i + 1][..i] == items[..i];
      RangesStayUnreadable(q, items, i + 1);
    }
  }

  /** One turn of the loop over the ranges. */
  method ParseRange(q: Conversions, item: Json) returns (range: Option<IpAddress>)
    ensures range == RangeOfJson(q, item)
  {
    if !item.JObject? {
      return None;
    }
    var f := item.fields;
    if AddressField !in f || !f[AddressField].JString? {
      return None;
    }
    if RangeField !in f || !f[RangeField].JNumber? {
      return None;
    }
    if IsIpv6Field !in f || !f[IsIpv6Field].JBool? {
      return None;
    }
    return Some(IpAddress(q.host(f[AddressField].s), f[RangeField].n));
  }

  method ParseRanges(q: Conversions, items: seq<Json>) returns (ranges: Option<seq<IpAddress>>)
    ensures ranges == AllRanges(q, items)
  {
    var list := [];
    for i := 0 to |items|
      invariant AllRanges(q, items[..i]) == Some(list)
    {
      assert items[..i + 1][..i] == items[..i];
      var range := ParseRange(q, items[i]);
      if range.None? {
        RangesStayUnreadable(q, items, i + 1);
        return None;
      }
      list := list + [range.value];
    }
    assert items[..|items|] == items;
    return Some(list);
  }

  /** The configuration has the parts that the parser insists on. */
  predicate Acceptable(q: Conversions, f: Fields) {
    && AcceptableKeys(f) && AcceptablePlaces(q, f) && AcceptableLists(q, f)
  }

  predicate AcceptableKeys(f: Fields) {
    IsText(f, PrivateKey) && IsText(f, ServerPublicKey) && ServerPort in f && f[ServerPort].JNumber?
  }

  predicate AcceptablePlaces(q: Conversions, f: Fields) {
    && !(NullAt(q, f, DeviceIpv4Address) && NullAt(q, f, DeviceIpv6Address))
    && !(NullAt(q, f, ServerIpv4AddrIn) && NullAt(q, f, ServerIpv6AddrIn))
    && (PrimaryDnsServer in f ==> f[PrimaryDnsServer].JString?)
    && (SecondaryDnsServer in f ==> f[SecondaryDnsServer].JString?)
    && (HopTypeField in f ==> f[HopTypeField].JString? && HopOf(f[HopTypeField].s).Some?)
  }

  predicate AcceptableLists(q: Conversions, f: Fields) {
    && AllowedRanges in f && f[AllowedRanges].JArray? && AllRanges(q, f[AllowedRanges].items).Some?
    && TextList(f, ExcludedAddresses).Some? && TextList(f, VpnDisabledApps).Some?
    && TextList(f, AllowedDnsServers).Some?
  }

  function MtuAt(q: Conversions, f: Fields): int {
    if DeviceMtu !in f || q.toInt(TextAt(f, DeviceMtu)) == 0 then DEFAULT_MTU else q.toInt(TextAt(f, DeviceMtu))
  }

  predicate NullJson(f: Fields, name: FieldName) {
    name in f && f[name].JNull?
  }

  function JunkAt(f: Fields): map<JunkName, string> {
    map k: JunkName | true :: if NullJson(f, JunkField(k)) then "" else TextAt(f, JunkField(k))
  }

  function SpecialAt(f: Fields): map<SpecialName, string> {
    map k: SpecialName | !NullJson(f, SpecialField(k)) :: TextAt(f, SpecialField(k))
  }

  /** The parsed configuration with its ranges as listed. */
  function Read(q: Conversions, f: Fields): InterfaceConfig
    requires Acceptable(q, f)
  {
    ReadLists(q, f, ReadPlaces(f, ReadKeys(q, f, BLANK_CONFIG)))
  }

  /** Keys, port and MTU of the parsed configuration, the other members as given. */
  function ReadKeys(q: Conversions, f: Fields, c: InterfaceConfig): InterfaceConfig
    requires AcceptableKeys(f)
  {
    c.(privateKey := TextAt(f, PrivateKey),
       serverPublicKey := TextAt(f, ServerPublicKey),
       serverPskKey := TextAt(f, ServerPskKey),
       serverPort := f[ServerPort].n,
       deviceMtu := MtuAt(q, f))
  }

  /** Addresses, gateways, resolvers and hop of the parsed configuration. */
  function ReadPlaces(f: Fields, c: InterfaceConfig): InterfaceConfig
    requires HopTypeField in f ==> f[HopTypeField].JString? && HopOf(f[HopTypeField].s).Some?
  {
    c.(deviceIpv4Address := TextAt(f, DeviceIpv4Address),
       deviceIpv6Address := TextAt(f, DeviceIpv6Address),
       serverIpv4AddrIn := TextAt(f, ServerIpv4AddrIn),
       serverIpv6AddrIn := TextAt(f, ServerIpv6AddrIn),
       serverIpv4Gateway := TextAt(f, ServerIpv4Gateway),
       serverIpv6Gateway := TextAt(f, ServerIpv6Gateway),
       primaryDnsServer := TextAt(f, PrimaryDnsServer),
       secondaryDnsServer := TextAt(f, SecondaryDnsServer),
       hopType := if HopTypeField in f then HopOf(f[HopTypeField].s).value else SingleHop)
  }

  /** The lists of the parsed configuration, the other members as given. */
  function ReadLists(q: Conversions, f: Fields, c: InterfaceConfig): InterfaceConfig
    requires AcceptableLists(q, f)
  {
    c.(allowedIPAddressRanges := AllRanges(q, f[AllowedRanges].items).value,
       excludedAddresses := TextList(f, ExcludedAddresses).value,
       vpnDisabledApps := TextList(f, VpnDisabledApps).value,
       allowedDnsServers := TextList(f, AllowedDnsServers).value,
       killSwitchEnabled := q.truth(TextAt(f, KillSwitchOption)),
       junk := JunkAt(f),
       specialJunk := SpecialAt(f))
  }

  /** A configuration as it is constructed. */
  const BLANK_CONFIG := InterfaceConfig(SingleHop, "", "", "", "", "", "", "", "", "", 0, DEFAULT_MTU, "", "",
                                        [], [], [], [], false, map[], map[])

  method ParseConfig(q: Conversions, f: Fields) returns (r: Option<InterfaceConfig>)
    ensures r.Some? <==> Acceptable(q, f)
    // the ranges come sorted by decreasing prefix length; all else is as read
    ensures r.Some? ==>
              && r.value == Read(q, f).(allowedIPAddressRanges := r.value.allowedIPAddressRanges)
              && Sorted(r.value.allowedIPAddressRanges)
              && multiset(r.value.allowedIPAddressRanges) == multiset(Read(q, f).allowedIPAddressRanges)
  {
    var keys := ParseKeys(q, f, BLANK_CONFIG);
    if keys.None? {
      return None;
    }
    var places := ParsePlaces(q, f, keys.value);
    if places.None? {
      return None;
    }
    r := ParseLists(q, f, places.value);
  }

  /** `parseConfig` up to the MTU. */
  method ParseKeys(q: Conversions, f: Fields, start: InterfaceConfig) returns (r: Option<InterfaceConfig>)
    requires start.deviceMtu == DEFAULT_MTU
    ensures r.Some? <==> AcceptableKeys(f)
    ensures r.Some? ==> r.value == ReadKeys(q, f, start)
  {
    var c := start;
    if !IsText(f, PrivateKey) {
      return None;
    }
    c := c.(privateKey := f[PrivateKey].s);
    if !IsText(f, ServerPublicKey) {
      return None;
    }
    c := c.(serverPublicKey := f[ServerPublicKey].s);
    if !(ServerPort in f && f[ServerPort].JNumber?) {
      return None;
    }
    c := c.(serverPort := f[ServerPort].n);
    c := c.(serverPskKey := TextAt(f, ServerPskKey));
    if !(DeviceMtu !in f || q.toInt(TextAt(f, DeviceMtu)) == 0) {
      c := c.(deviceMtu := q.toInt(TextAt(f, DeviceMtu)));
    }
    return Some(c);
  }

  /** `parseConfig` from the device addresses to the hop type. */
  method ParsePlaces(q: Conversions, f: Fields, start: InterfaceConfig) returns (r: Option<InterfaceConfig>)
    requires start.hopType == SingleHop && start.primaryDnsServer == "" && start.secondaryDnsServer == ""
    ensures r.Some? <==> AcceptablePlaces(q, f)
    ensures r.Some? ==> r.value == ReadPlaces(f, start)
  {
    var c := start;
    c := c.(deviceIpv4Address := TextAt(f, DeviceIpv4Address));
    c := c.(deviceIpv6Address := TextAt(f, DeviceIpv6Address));
    if NullAt(q, f, DeviceIpv4Address) && NullAt(q, f, DeviceIpv6Address) {
      return None;
    }
    c := c.(serverIpv4AddrIn := TextAt(f, ServerIpv4AddrIn));
    c := c.(serverIpv6AddrIn := TextAt(f, ServerIpv6AddrIn));
    if NullAt(q, f, ServerIpv4AddrIn) && NullAt(q, f, ServerIpv6AddrIn) {
      return None;
    }
    c := c.(serverIpv4Gateway := TextAt(f, ServerIpv4Gateway));
    c := c.(serverIpv6Gateway := TextAt(f, ServerIpv6Gateway));
    if PrimaryDnsServer in f {
      if !f[PrimaryDnsServer].JString? {
        return None;
      }
      c := c.(primaryDnsServer := f[PrimaryDnsServer].s);
    }
    if SecondaryDnsServer in f {
      if !f[SecondaryDnsServer].JString? {
        return None;
      }
      c := c.(secondaryDnsServer := f[SecondaryDnsServer].s);
    }
    if HopTypeField in f {
      if !f[HopTypeField].JString? || HopOf(f[HopTypeField].s).None? {
        return None;
      }
      c := c.(hopType := HopOf(f[HopTypeField].s).value);
    }
    return Some(c);
  }

  /** The parameters in `done` are as read, the others as constructed. */
  ghost predicate JunkSoFar(f: Fields, junk: map<JunkName, string>, done: set<JunkName>) {
    forall k: JunkName :: k in junk
      && junk[k] == if k in done && !NullJson(f, JunkField(k)) then TextAt(f, JunkField(k)) else ""
  }

  ghost predicate SpecialSoFar(f: Fields, special: map<SpecialName, string>, done: set<SpecialName>) {
    && (forall k: SpecialName :: k in special <==> k in done && !NullJson(f, SpecialField(k)))
    && (forall k: SpecialName :: k in special ==> special[k] == TextAt(f, SpecialField(k)))
  }

  /** One parameter: a JSON null leaves it as it is. */
  method TakeJunk(f: Fields, name: JunkName, junk: map<JunkName, string>, ghost done: set<JunkName>)
      returns (next: map<JunkName, string>, ghost more: set<JunkName>)
    requires JunkSoFar(f, junk, done)
    ensures more == done + {name} && JunkSoFar(f, next, more)
  {
    next, more := junk, done + {name};
    if !NullJson(f, JunkField(name)) {
      next := next[name := TextAt(f, JunkField(name))];
    }
  }

  method TakeSpecial(f: Fields, name: SpecialName, special: map<SpecialName, string>, ghost done: set<SpecialName>)
      returns (next: map<SpecialName, string>, ghost more: set<SpecialName>)
    requires SpecialSoFar(f, special, done)
    ensures more == done + {name} && SpecialSoFar(f, next, more)
  {
    next, more := special, done + {name};
    if !NullJson(f, SpecialField(name)) {
      next := next[name := TextAt(f, SpecialField(name))];
    }
  }

  method TakePackets(f: Fields, junk: map<JunkName, string>, ghost done: set<JunkName>)
      returns (next: map<JunkName, string>, ghost more: set<JunkName>)
    requires JunkSoFar(f, junk, done)
    ensures more == done + {Jc, Jmin, Jmax} && JunkSoFar(f, next, more)
  {
    next, more := junk, done;
    next, more := TakeJunk(f, Jc, next, more);
    next, more := TakeJunk(f, Jmin, next, more);
    next, more := TakeJunk(f, Jmax, next, more);
  }

  method TakeSizes(f: Fields, junk: map<JunkName, string>, ghost done: set<JunkName>)
      returns (next: map<JunkName, string>, ghost more: set<JunkName>)
    requires JunkSoFar(f, junk, done)
    ensures more == done + {S1, S2, S3, S4} && JunkSoFar(f, next, more)
  {
    next, more := junk, done;
    next, more := TakeJunk(f, S1, next, more);
    next, more := TakeJunk(f, S2, next, more);
    next, more := TakeJunk(f, S3, next, more);
    next, more := TakeJunk(f, S4, next, more);
  }

  method TakeHeaders(f: Fields, junk: map<JunkName, string>, ghost done: set<JunkName>)
      returns (next: map<JunkName, string>, ghost more: set<JunkName>)
    requires JunkSoFar(f, junk, done)
    ensures more == done + {H1, H2, H3, H4} && JunkSoFar(f, next, more)
  {
    next, more := junk, done;
    next, more := TakeJunk(f, H1, next, more);
    next, more := TakeJunk(f, H2, next, more);
    next, more := TakeJunk(f, H3, next, more);
    next, more := TakeJunk(f, H4, next, more);
  }

  method ParseJunk(f: Fields) returns (junk: map<JunkName, string>)
    ensures junk == JunkAt(f)
  {
    junk := NO_JUNK;
    ghost var done: set<JunkName> := {};
    junk, done := TakePackets(f, junk, done);
    junk, done := TakeSizes(f, junk, done);
    junk, done := TakeHeaders(f, junk, done);
    AllNamesAreDone(f, junk, done);
  }

  lemma AllNamesAreDone(f: Fields, junk: map<JunkName, string>, done: set<JunkName>)
    requires JunkSoFar(f, junk, done) && done == {Jc, Jmin, Jmax} + {S1, S2, S3, S4} + {H1, H2, H3, H4}
    ensures junk == JunkAt(f)
  {
    forall k: JunkName
      ensures k in done
    {
      NameIsListed(k);
    }
  }

  lemma NameIsListed(k: JunkName)
    ensures k in {Jc, Jmin, Jmax, S1, S2, S3, S4, H1, H2, H3, H4}
  {
    assert k.Jc? || k.Jmin? || k.Jmax? || k.S1? || k.S2? || k.S3? || k.S4? || k.H1? || k.H2? || k.H3? || k.H4?;
  }

  method ParseSpecial(f: Fields) returns (special: map<SpecialName, string>)
    ensures special == SpecialAt(f)
  {
    special := map[];
    ghost var done: set<SpecialName> := {};
    special, done := TakeSpecial(f, I1, special, done);
    special, done := TakeSpecial(f, I2, special, done);
    special, done := TakeSpecial(f, I3, special, done);
    special, done := TakeSpecial(f, I4, special, done);
    special, done := TakeSpecial(f, I5, special, done);
    forall k: SpecialName
      ensures k in done
    {
      assert k.I1? || k.I2? || k.I3? || k.I4? || k.I5?;
    }
  }

  /** The rest of `parseConfig`: the ranges and their sort, the lists, kill switch and junk. */
  method ParseLists(q: Conversions, f: Fields, start: InterfaceConfig) returns (r: Option<InterfaceConfig>)
    ensures r.Some? <==> AcceptableLists(q, f)
    ensures r.Some? ==>
              && r.value == ReadLists(q, f, start).(allowedIPAddressRanges := r.value.allowedIPAddressRanges)
              && Sorted(r.value.allowedIPAddressRanges)
              && multiset(r.value.allowedIPAddressRanges) == multiset(AllRanges(q, f[AllowedRanges].items).value)
  {
    var c := start;
    if AllowedRanges !in f || !f[AllowedRanges].JArray? {
      return None;
    }
    var ranges := ParseRanges(q, f[AllowedRanges].items);
    if ranges.None? {
      return None;
    }
    var sorted := SortByPrefixLength(ranges.value);
    c := c.(allowedIPAddressRanges := sorted);
    var excluded := ParseStringList(f, ExcludedAddresses);
    if excluded.None? {
      return None;
    }
    c := c.(excludedAddresses := excluded.value);
    var apps := ParseStringList(f, VpnDisabledApps);
    if apps.None? {
      return None;
    }
    c := c.(vpnDisabledApps := apps.value);
    var dns := ParseStringList(f, AllowedDnsServers);
    if dns.None? {
      return None;
    }
    c := c.(allowedDnsServers := dns.value);
    c := c.(killSwitchEnabled := q.truth(TextAt(f, KillSwitchOption)));
    var junk := ParseJunk(f);
    var special := ParseSpecial(f);
    c := c.(junk := junk, specialJunk := special);
    return Some(c);
  }

  // ---- the round trip

  lemma {:induction false} TextsReadBack(texts: seq<string>)
    ensures AllTexts(TextsJson(texts)) == Some(texts)
  {
    if texts == [] {
    } else {
      var n := |texts| - 1;
      TextsReadBack(texts[..n]);
      assert TextsJson(texts)[..n] == TextsJson(texts[..n]);
      assert texts[..n] + [texts[n]] == texts;
    }
  }

  lemma {:induction false} RangesReadBack(q: Conversions, ranges: seq<IpAddress>)
    requires Faithful(q) && forall i :: 0 <= i < |ranges| ==> ranges[i].address != NullAddress
    ensures AllRanges(q, RangesJson(q, ranges)) == Some(ranges)
  {
    if ranges == [] {
    } else {
      var n := |ranges| - 1;
      RangesReadBack(q, ranges[..n]);
      assert RangesJson(q, ranges)[..n] == RangesJson(q, ranges[..n]);
      assert RangeOfJson(q, RangeJson(q, ranges[n])) == Some(ranges[n]);
      assert ranges[..n] + [ranges[n]] == ranges;
    }
  }

  const NO_JUNK := map k: JunkName | true :: ""
  const EMPTY_SPECIAL := map k: SpecialName | true :: ""

  /** What of a configuration survives printing and parsing. */
  function Carried(c: InterfaceConfig): InterfaceConfig {
    var d := c.(deviceMtu := DEFAULT_MTU, killSwitchEnabled := false, junk := NO_JUNK, specialJunk := EMPTY_SPECIAL);
    if HasResolvers(c.hopType) then d
    else d.(serverIpv4Gateway := "", serverIpv6Gateway := "", primaryDnsServer := "", secondaryDnsServer := "")
  }

  predicate HasAddresses(c: InterfaceConfig) {
    (c.deviceIpv4Address != "" || c.deviceIpv6Address != "") && (c.serverIpv4AddrIn != "" || c.serverIpv6AddrIn != "")
  }

  ghost predicate NoJunkIn(f: Fields) {
    (forall k :: JunkField(k) !in f) && (forall k :: SpecialField(k) !in f)
  }

  /** The members of a printed configuration, one by one. */
  ghost predicate Members(q: Conversions, c: InterfaceConfig, f: Fields) {
    && NoJunkIn(f) && KillSwitchOption !in f
    && TextMembers(c, f) && ResolverMembers(c, f) && ListMembers(q, c, f)
  }

  ghost predicate TextMembers(c: InterfaceConfig, f: Fields) {
    && HopTypeField in f && f[HopTypeField] == JString(HopName(c.hopType))
    && PrivateKey in f && f[PrivateKey] == JString(c.privateKey)
    && DeviceIpv4Address in f && f[DeviceIpv4Address] == JString(c.deviceIpv4Address)
    && DeviceIpv6Address in f && f[DeviceIpv6Address] == JString(c.deviceIpv6Address)
    && ServerPublicKey in f && f[ServerPublicKey] == JString(c.serverPublicKey)
    && ServerPskKey in f && f[ServerPskKey] == JString(c.serverPskKey)
    && ServerIpv4AddrIn in f && f[ServerIpv4AddrIn] == JString(c.serverIpv4AddrIn)
    && ServerIpv6AddrIn in f && f[ServerIpv6AddrIn] == JString(c.serverIpv6AddrIn)
    && ServerPort in f && f[ServerPort] == JNumber(c.serverPort)
    && DeviceMtu in f && f[DeviceMtu] == JNumber(c.deviceMtu)
  }

  ghost predicate ListMembers(q: Conversions, c: InterfaceConfig, f: Fields) {
    && AllowedRanges in f && f[AllowedRanges] == JArray(RangesJson(q, c.allowedIPAddressRanges))
    && ExcludedAddresses in f && f[ExcludedAddresses] == JArray(TextsJson(c.excludedAddresses))
    && AllowedDnsServers in f && f[AllowedDnsServers] == JArray(TextsJson(c.allowedDnsServers))
    && VpnDisabledApps in f && f[VpnDisabledApps] == JArray(TextsJson(c.vpnDisabledApps))
  }

  ghost predicate ResolverMembers(c: InterfaceConfig, f: Fields) {
    if HasResolvers(c.hopType) then
      && ServerIpv4Gateway in f && f[ServerIpv4Gateway] == JString(c.serverIpv4Gateway)
      && ServerIpv6Gateway in f && f[ServerIpv6Gateway] == JString(c.serverIpv6Gateway)
      && PrimaryDnsServer in f && f[PrimaryDnsServer] == JString(c.primaryDnsServer)
      && SecondaryDnsServer in f && f[SecondaryDnsServer] == JString(c.secondaryDnsServer)
    else
      && ServerIpv4Gateway !in f && ServerIpv6Gateway !in f
      && PrimaryDnsServer !in f && SecondaryDnsServer !in f
  }

  /** Nothing but the texts and numbers. */
  ghost predicate OnlyTexts(c: InterfaceConfig, f: Fields) {
    && TextMembers(c, f) && NoJunkIn(f) && KillSwitchOption !in f
    && ServerIpv4Gateway !in f && ServerIpv6Gateway !in f && PrimaryDnsServer !in f && SecondaryDnsServer !in f
  }

  lemma MemberFieldsAreTexts(c: InterfaceConfig)
    ensures OnlyTexts(c, MemberFields(c))
  {
  }

  lemma ResolversAdded(c: InterfaceConfig, f: Fields)
    requires OnlyTexts(c, f)
    ensures TextMembers(c, WithResolvers(c, f)) && ResolverMembers(c, WithResolvers(c, f))
    ensures NoJunkIn(WithResolvers(c, f)) && KillSwitchOption !in WithResolvers(c, f)
  {
  }

  lemma ListsAdded(q: Conversions, c: InterfaceConfig, f: Fields)
    requires TextMembers(c, f) && ResolverMembers(c, f) && NoJunkIn(f) && KillSwitchOption !in f
    ensures Members(q, c, WithLists(q, c, f))
  {
  }

  lemma PrintedHasMembers(q: Conversions, c: InterfaceConfig)
    ensures Members(q, c, Printed(q, c))
  {
    MemberFieldsAreTexts(c);
    ResolversAdded(c, MemberFields(c));
    ListsAdded(q, c, WithResolvers(c, MemberFields(c)));
  }

  /** The lists and the hop read back. */
  ghost predicate ListsReadBack(q: Conversions, c: InterfaceConfig) {
    && HopOf(HopName(c.hopType)) == Some(c.hopType)
    && AllRanges(q, RangesJson(q, c.allowedIPAddressRanges)) == Some(c.allowedIPAddressRanges)
    && AllTexts(TextsJson(c.excludedAddresses)) == Some(c.excludedAddresses)
    && AllTexts(TextsJson(c.vpnDisabledApps)) == Some(c.vpnDisabledApps)
    && AllTexts(TextsJson(c.allowedDnsServers)) == Some(c.allowedDnsServers)
  }

  lemma MembersAreAcceptable(q: Conversions, c: InterfaceConfig, f: Fields)
    requires Members(q, c, f) && ListsReadBack(q, c)
    ensures Acceptable(q, f) <==> !q.emptyReadsNull || HasAddresses(c)
  {
  }

  lemma MembersReadBack(q: Conversions, c: InterfaceConfig, f: Fields)
    requires Faithful(q) && Members(q, c, f) && ListsReadBack(q, c) && Acceptable(q, f)
    ensures Read(q, f) == Carried(c)
  {
    var r, d := Read(q, f), Carried(c);
    assert r.junk == NO_JUNK && r.specialJunk == EMPTY_SPECIAL;
    assert r.deviceMtu == DEFAULT_MTU && !r.killSwitchEnabled;
  }

  /** Parsing a printed configuration succeeds exactly if its addresses do not read back as null, and
      gives what is carried. */
  lemma PrintedReadsBack(q: Conversions, c: InterfaceConfig)
    requires Faithful(q)
    requires forall i :: 0 <= i < |c.allowedIPAddressRanges| ==> c.allowedIPAddressRanges[i].address != NullAddress
    ensures Acceptable(q, Printed(q, c)) <==> !q.emptyReadsNull || HasAddresses(c)
    ensures Acceptable(q, Printed(q, c)) ==> Read(q, Printed(q, c)) == Carried(c)
  {
    HopNameReadsBack(c.hopType);
    RangesReadBack(q, c.allowedIPAddressRanges);
    TextsReadBack(c.excludedAddresses);
    TextsReadBack(c.vpnDisabledApps);
    TextsReadBack(c.allowedDnsServers);
    var f := Printed(q, c);
    PrintedHasMembers(q, c);
    MembersAreAcceptable(q, c, f);
    if Acceptable(q, f) {
      MembersReadBack(q, c, f);
    }
  }

  /** Everything is carried exactly by a configuration with the default MTU, no kill switch, no junk,
      empty special packets and, on an entry hop, no gateways and resolvers. */
  lemma CarriedIsWholeExactlyWhen(c: InterfaceConfig)
    ensures Carried(c) == c <==>
              && c.deviceMtu == DEFAULT_MTU && !c.killSwitchEnabled && c.junk == NO_JUNK && c.specialJunk == EMPTY_SPECIAL
              && (!HasResolvers(c.hopType) ==>
                    && c.serverIpv4Gateway == "" && c.serverIpv6Gateway == ""
                    && c.primaryDnsServer == "" && c.secondaryDnsServer == "")
  {
  }

  /** Printing and parsing: the ranges come back rearranged by decreasing prefix length, so that a
      scan for the first match is longest-prefix match on the list that was printed. */
  method RoundTrip(q: Conversions, c: InterfaceConfig) returns (r: Option<InterfaceConfig>)
    requires Faithful(q)
    requires forall i :: 0 <= i < |c.allowedIPAddressRanges| ==> c.allowedIPAddressRanges[i].address != NullAddress
    ensures r.Some? <==> !q.emptyReadsNull || HasAddresses(c)
    ensures r.Some? ==>
              && r.value == Carried(c).(allowedIPAddressRanges := r.value.allowedIPAddressRanges)
              && multiset(r.value.allowedIPAddressRanges) == multiset(c.allowedIPAddressRanges)
              && forall d :: FirstMatch(r.value.allowedIPAddressRanges, d) == Longest(c.allowedIPAddressRanges, d)
  {
    var json := ToJson(q, c);
    PrintedReadsBack(q, c);
    r := ParseConfig(q, json);
    if r.Some? {
      forall d
        ensures FirstMatch(r.value.allowedIPAddressRanges, d) == Longest(c.allowedIPAddressRanges, d)
      {
        FirstMatchIsLongestPrefixMatch(c.allowedIPAddressRanges, r.value.allowedIPAddressRanges, d);
      }
    }
  }
}
