/** Host addresses, prefixes, and the two ways the client turns text into a prefix. */
module Addresses {
  import opened Bytes

  datatype Option<+T> = None | Some(value: T)

  /** `QHostAddress`: no address, or the bits of an IPv4 or IPv6 one. */
  datatype HostAddress = NullAddress | Ipv4(v4: Word32) | Ipv6(v6: Word128)

  /** `IPAddress`: an address with a prefix length, compared field by field. */
  datatype IpAddress = IpAddress(address: HostAddress, prefixLength: int)

  /** Qt's text parsers `QHostAddress(s)` and `QHostAddress::parseSubnet(s)`. */
  datatype Parsers = Parsers(host: string -> HostAddress, subnet: string -> (HostAddress, int))

  /** What Qt documents of its parsers: a host never contains a slash, a subnet that does not parse
      is reported as (null, -1), and one that does has a length. */
  ghost predicate Lawful(qt: Parsers) {
    && (forall s: string :: '/' in s ==> qt.host(s) == NullAddress)
    && (forall s: string :: if qt.subnet(s).0 == NullAddress then qt.subnet(s).1 == -1 else qt.subnet(s).1 >= 0)
  }

  /** `IPAddress(const QString&)`. */
  function FromText(qt: Parsers, s: string): IpAddress {
    var (a, n) := if '/' in s then qt.subnet(s) else (qt.host(s), 999999);
    IpAddress(a, if a.Ipv4? && n >= 32 then 32 else if a.Ipv6? && n >= 128 then 128 else n)
  }

  /** `IPAddress(const QHostAddress&)`; a null address gets 128 once assertions are compiled out. */
  function FromHost(a: HostAddress): IpAddress {
    IpAddress(a, if a.Ipv4? then 32 else 128)
  }

  /** The key `QHostAddress(s)` converts to. */
  function HostKey(qt: Parsers, s: string): IpAddress {
    FromHost(qt.host(s))
  }

  /** The key that every entry which is not a plain host address converts to. */
  const NULL_KEY := IpAddress(NullAddress, 128)

  /** A plain host address: no slash, and it parses. */
  predicate Plain(qt: Parsers, s: string) {
    '/' !in s && qt.host(s) != NullAddress
  }

  /** The key a route is added under and the key it is removed under agree exactly for plain
      host addresses; any other entry is removed under a key that nothing is ever added under. */
  lemma KeysAgreeExactlyWhenPlain(qt: Parsers, s: string)
    requires Lawful(qt)
    ensures FromText(qt, s) == HostKey(qt, s) <==> Plain(qt, s)
    ensures HostKey(qt, s) == NULL_KEY <==> !Plain(qt, s)
    ensures FromText(qt, s) != NULL_KEY
  {
    if '/' in s {
      assert qt.host(s) == NullAddress;
      assert qt.subnet(s).0 == NullAddress ==> qt.subnet(s).1 == -1;
    }
  }
}
