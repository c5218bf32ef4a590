/** From a route mode and a list of sites to allowed and excluded ranges, across the client, the
    controller and the daemon. */
module SplitTunnel {
  import opened Addresses
  import opened Prefixes

  datatype RouteMode = VpnAllSites | VpnOnlyForwardSites | VpnAllExceptSites

  /** The text parsers the pipeline uses: Qt's, `QString::toInt` and C's `atoi`. */
  datatype TextParsers = TextParsers(qt: Parsers, toInt: string -> Option<int>, atoi: string -> int)

  const ALL_IPV4 := "0.0.0.0/0"
  const ALL_IPV6 := "::/0"
  const DEFAULT_ALLOWED := [ALL_IPV4, ALL_IPV6]

  /** `QString::split('/')`. */
  function Split(s: string): (parts: seq<string>)
    ensures |parts| >= 1 && (|parts| > 1 <==> '/' in s)
    ensures '/' !in s ==> parts == [s]
  {
    if s == "" then [""]
    else
      var rest := Split(s[1..]);
      assert [s[0]] + s[1..] == s;
      if s[0] == '/' then [""] + rest else [[s[0]] + rest[0]] + rest[1..]
  }

  lemma {:induction false} SplitOnce(a: string, b: string)
    requires '/' !in a && '/' !in b
    ensures Split(a + "/" + b) == [a, b]
  {
    var s := a + "/" + b;
    if a == "" {
      assert s[1..] == b;
    } else {
      assert s[1..] == a[1..] + "/" + b && s[0] == a[0];
      SplitOnce(a[1..], b);
      assert [a[0]] + a[1..] == a;
    }
  }

  /** A text that splits in two is its parts with a slash between them. */
  lemma {:induction false} SplitInTwo(s: string)
    requires |Split(s)| == 2
    ensures s == Split(s)[0] + "/" + Split(s)[1] && '/' !in Split(s)[0] && '/' !in Split(s)[1]
  {
    var rest := Split(s[1..]);
    assert [s[0]] + s[1..] == s;
    if s[0] == '/' {
      assert s == "" + "/" + rest[0];
    } else {
      SplitInTwo(s[1..]);
      assert s == [s[0]] + (rest[0] + "/" + rest[1]);
    }
  }

  /** What the format check accepts: an address, or an address, a slash and a length from 0 to 32. */
  lemma AcceptedExactly(t: TextParsers, s: string)
    ensures CheckIpSubnetFormat(t, s)
       <==> || ('/' !in s && CheckIpv4Format(t, s))
            || exists a, n :: s == a + "/" + n && IsLengthOf(t, a, n)
  {
    if '/' in s && CheckIpSubnetFormat(t, s) {
      SplitInTwo(s);
      assert IsLengthOf(t, Split(s)[0], Split(s)[1]);
    }
    if a, n :| s == a + "/" + n && IsLengthOf(t, a, n) {
      SplitOnce(a, n);
      assert s[|a|] == '/';
    }
  }

  predicate IsLengthOf(t: TextParsers, address: string, length: string) {
    && '/' !in address && '/' !in length && CheckIpv4Format(t, address)
    && t.toInt(length).Some? && 0 <= t.toInt(length).value <= 32
  }

  function Dots(s: string): nat {
    if s == "" then 0 else (if s[0] == '.' then 1 else 0) + Dots(s[1..])
  }

  /** `NetworkUtilities::checkIPv4Format`. */
  predicate CheckIpv4Format(t: TextParsers, s: string) {
    s != "" && Dots(s) == 3 && t.qt.host(s).Ipv4?
  }

  /** `NetworkUtilities::checkIpSubnetFormat`. */
  predicate CheckIpSubnetFormat(t: TextParsers, s: string) {
    if '/' !in s then CheckIpv4Format(t, s)
    else
      var parts := Split(s);
      && |parts| == 2
      && t.toInt(parts[1]).Some? && 0 <= t.toInt(parts[1]).value <= 32
      && CheckIpv4Format(t, parts[0])
  }

  /** The addresses a site names. */
  predicate Covers(t: TextParsers, site: string, d: HostAddress) {
    Contains(RangeOf(t, site), d)
  }

  /** The range the controller sends for a text and the daemon makes of it. */
  function RangeOf(t: TextParsers, s: string): IpAddress {
    var parts := Split(s);
    if |parts| > 1 then IpAddress(t.qt.host(parts[0]), t.atoi(parts[1]))
    else IpAddress(t.qt.host(s), 32)
  }

  // ---- VpnConnection::appendSplitTunnelingConfig

  /** What the settings say: whether site-based tunnelling is on, its mode, and per site its name and
      its resolved address. */
  datatype SiteSettings = SiteSettings(enabled: bool, mode: RouteMode, sites: seq<(string, string)>)

  /** The entries with an address: the name if it is one, else the resolved address if that is. */
  function UsableSites(t: TextParsers, sites: seq<(string, string)>): seq<string> {
    if sites == [] then []
    else
      var (name, resolved) := sites[|sites| - 1];
      UsableSites(t, sites[..|sites| - 1])
      + (if CheckIpSubnetFormat(t, name) then [name]
         else if CheckIpSubnetFormat(t, resolved) then [resolved] else [])
  }

  /** The entry yields the text: its name if that is an address or a subnet, and otherwise its
      resolved address if that is. */
  predicate IsSiteOf(t: TextParsers, entry: (string, string), s: string) {
    || (s == entry.0 && CheckIpSubnetFormat(t, entry.0))
    || (s == entry.1 && CheckIpSubnetFormat(t, entry.1) && !CheckIpSubnetFormat(t, entry.0))
  }

  /** A text is collected if and only if some entry yields it. */
  lemma {:induction false} UsableSitesAre(t: TextParsers, sites: seq<(string, string)>, s: string)
    ensures s in UsableSites(t, sites) <==> exists i :: 0 <= i < |sites| && IsSiteOf(t, sites[i], s)
  {
    if sites == [] {
    } else {
      var n := |sites| - 1;
      UsableSitesAre(t, sites[..n], s);
      assert forall i :: 0 <= i < n ==> sites[..n][i] == sites[i];
    }
  }

  /** The mode and the sites that go into the configuration. */
  ghost predicate Appended(t: TextParsers, allowedIps: seq<string>, settings: SiteSettings, dns1: string, dns2: string,
                           mode: RouteMode, sites: seq<string>)
  {
    if !settings.enabled then mode == VpnAllSites && sites == []
    else if !(ALL_IPV4 in allowedIps && ALL_IPV6 in allowedIps) then mode == settings.mode && sites == []
    else
      && mode == EffectiveMode(t, settings)
      && SameTexts(sites, UsableSites(t, settings.sites) + if mode == VpnOnlyForwardSites then [dns1, dns2] else [])
  }

  /** No usable site, or none asked for: everything is tunnelled. */
  function EffectiveMode(t: TextParsers, settings: SiteSettings): RouteMode {
    if !settings.enabled || UsableSites(t, settings.sites) == [] then VpnAllSites else settings.mode
  }

  method AppendSplitTunneling(t: TextParsers, allowedIps: seq<string>, settings: SiteSettings, dns1: string, dns2: string)
      returns (mode: RouteMode, sites: seq<string>)
    ensures Appended(t, allowedIps, settings, dns1, dns2, mode, sites)
  {
    var allowSiteBased := ALL_IPV4 in allowedIps && ALL_IPV6 in allowedIps;
    mode, sites := VpnAllSites, [];
    if settings.enabled {
      mode := settings.mode;
      if allowSiteBased {
        var usable := CollectSites(t, settings.sites);
        sites := RemoveDuplicates(usable);
        assert usable != [] ==> usable[0] in sites;
        assert sites != [] ==> sites[0] in usable;
        if sites == [] {
          mode := VpnAllSites;
        } else if mode == VpnOnlyForwardSites {
          // the resolvers are reached through the tunnel
          sites := sites + [dns1];
          sites := sites + [dns2];
        }
      }
    }
  }

  ghost predicate SameTexts(a: seq<string>, b: seq<string>) {
    forall s :: s in a <==> s in b
  }

  method CollectSites(t: TextParsers, entries: seq<(string, string)>) returns (sites: seq<string>)
    ensures sites == UsableSites(t, entries)
    ensures forall s :: s in sites <==> exists i :: 0 <= i < |entries| && IsSiteOf(t, entries[i], s)
  {
    sites := [];
    for i := 0 to |entries|
      invariant sites == UsableSites(t, entries[..i])
    {
      assert entries[..i + 1][..i] == entries[..i];
      if CheckIpSubnetFormat(t, entries[i].0) {
        sites := sites + [entries[i].0];
      } else if CheckIpSubnetFormat(t, entries[i].1) {
        sites := sites + [entries[i].1];
      }
    }
    assert entries[..|entries|] == entries;
    forall s: string {
      UsableSitesAre(t, entries, s);
    }
  }

  method RemoveDuplicates(texts: seq<string>) returns (r: seq<string>)
    ensures SameTexts(r, texts)
    ensures forall i, j :: 0 <= i < j < |r| ==> r[i] != r[j]
  {
    r := [];
    for i := 0 to |texts|
      invariant SameTexts(r, texts[..i])
      invariant forall a, b :: 0 <= a < b < |r| ==> r[a] != r[b]
    {
      assert texts[..i + 1] == texts[..i] + [texts[i]];
      if texts[i] !in r {
        r := r + [texts[i]];
      }
    }
    assert texts[..|texts|] == texts;
  }

  lemma {:induction false} UsableSitesAreAddresses(t: TextParsers, sites: seq<(string, string)>)
    ensures forall s :: s in UsableSites(t, sites) ==> CheckIpSubnetFormat(t, s)
  {
    if sites == [] {
    } else {
      UsableSitesAreAddresses(t, sites[..|sites| - 1]);
    }
  }

  // ---- LocalSocketController::activate and Daemon::parseConfig

  /** The ranges of a list of texts. */
  function RangesOf(t: TextParsers, texts: seq<string>): seq<IpAddress> {
    seq(|texts|, i requires 0 <= i < |texts| => RangeOf(t, texts[i]))
  }

  /** Everything, as the controller writes it. */
  function Everything(t: TextParsers): seq<IpAddress> {
    [IpAddress(t.qt.host("0.0.0.0"), 0), IpAddress(t.qt.host("::"), 0)]
  }

  method BuildRanges(t: TextParsers, texts: seq<string>) returns (ranges: seq<IpAddress>)
    ensures ranges == RangesOf(t, texts)
  {
    ranges := [];
    for i := 0 to |texts|
      invariant ranges == RangesOf(t, texts[..i])
    {
      var parts := Split(texts[i]);
      var address, range := texts[i], 32;
      if |parts| > 1 {
        address, range := parts[0], t.atoi(parts[1]);
      }
      ranges := ranges + [IpAddress(t.qt.host(address), range)];
    }
    assert texts[..|texts|] == texts;
  }

  /** The allowed ranges before the daemon sorts them. */
  function AllowedRanges(t: TextParsers, allowedIps: seq<string>, mode: RouteMode, sites: seq<string>): seq<IpAddress> {
    if allowedIps != DEFAULT_ALLOWED && allowedIps != [] then RangesOf(t, allowedIps)
    else if mode == VpnOnlyForwardSites then RangesOf(t, sites)
    else Everything(t)
  }

  /** The allowed ranges as the daemon stores them, and the excluded entries. */
  ghost predicate Compiled(t: TextParsers, allowedIps: seq<string>, mode: RouteMode, sites: seq<string>, hostName: string,
                           allowed: seq<IpAddress>, excluded: seq<string>)
  {
    && Sorted(allowed) && multiset(allowed) == multiset(AllowedRanges(t, allowedIps, mode, sites))
    && excluded == [hostName] + if mode == VpnAllExceptSites then sites else []
  }

  method Compile(t: TextParsers, allowedIps: seq<string>, mode: RouteMode, sites: seq<string>, hostName: string)
      returns (allowed: seq<IpAddress>, excluded: seq<string>)
    ensures Compiled(t, allowedIps, mode, sites, hostName, allowed, excluded)
  {
    var ranges := [];
    if allowedIps != DEFAULT_ALLOWED && allowedIps != [] {
      // a list of its own in the configuration has priority
      ranges := BuildRanges(t, allowedIps);
    } else {
      if mode == VpnAllSites || mode == VpnAllExceptSites {
        ranges := ranges + [IpAddress(t.qt.host("0.0.0.0"), 0)];
        ranges := ranges + [IpAddress(t.qt.host("::"), 0)];
      }
      if mode == VpnOnlyForwardSites {
        ranges := BuildRanges(t, sites);
      }
    }
    assert ranges == AllowedRanges(t, allowedIps, mode, sites);
    allowed := SortByPrefixLength(ranges);
    excluded := BuildExclusions(mode, sites, hostName);
  }

  method BuildExclusions(mode: RouteMode, sites: seq<string>, hostName: string) returns (excluded: seq<string>)
    ensures excluded == [hostName] + if mode == VpnAllExceptSites then sites else []
  {
    excluded := [hostName];
    if mode == VpnAllExceptSites {
      for i := 0 to |sites|
        invariant excluded == [hostName] + sites[..i]
      {
        excluded := excluded + [sites[i]];
      }
      assert sites[..|sites|] == sites;
    }
  }
}
