/** The tunnel configuration the client sends and the daemon stores. */
module InterfaceConfigs {
  import opened Addresses

  datatype HopType = SingleHop | MultiHopEntry | MultiHopExit

  /** The obfuscation parameters, by their JSON names: counts and sizes of junk packets, junk in
      packets of the protocol, and magic headers. */
  datatype JunkName = Jc | Jmin | Jmax | S1 | S2 | S3 | S4 | H1 | H2 | H3 | H4

  datatype SpecialName = I1 | I2 | I3 | I4 | I5

  /** `InterfaceConfig`. A null `QString` and an empty one compare equal and are one value here;
      `junk` holds the eleven obfuscation parameters, `specialJunk` the map of special packets. */
  datatype InterfaceConfig = InterfaceConfig(
    hopType: HopType,
    privateKey: string,
    deviceIpv4Address: string,
    deviceIpv6Address: string,
    serverIpv4Gateway: string,
    serverIpv6Gateway: string,
    serverPublicKey: string,
    serverPskKey: string,
    serverIpv4AddrIn: string,
    serverIpv6AddrIn: string,
    serverPort: int,
    deviceMtu: int,
    primaryDnsServer: string,
    secondaryDnsServer: string,
    allowedIPAddressRanges: seq<IpAddress>,
    excludedAddresses: seq<string>,
    vpnDisabledApps: seq<string>,
    allowedDnsServers: seq<string>,
    killSwitchEnabled: bool,
    junk: map<JunkName, string>,
    specialJunk: map<SpecialName, string>)

  /** Only the hop nearest the user's traffic carries gateways and resolvers. */
  predicate HasResolvers(hop: HopType) {
    hop == MultiHopExit || hop == SingleHop
  }
}
