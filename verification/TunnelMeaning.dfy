/** What the ranges that reach the daemon tunnel, against what the user asked for. */
module TunnelMeaning {
  import opened Addresses
  import opened Bytes
  import opened Powers
  import opened Prefixes
  import opened SplitTunnel

  /** The keys under which the daemon installs the excluded entries. */
  function ExcludedRanges(t: TextParsers, excluded: seq<string>): seq<IpAddress> {
    seq(|excluded|, i requires 0 <= i < |excluded| => FromText(t.qt, excluded[i]))
  }

  /** Longest-prefix match over allowed and excluded ranges; an excluded range wins a tie. */
  predicate Tunnelled(allowed: seq<IpAddress>, excluded: seq<IpAddress>, d: HostAddress) {
    var a, e := Longest(allowed, d), Longest(excluded, d);
    a.Some? && (e.None? || a.value > e.value)
  }

  /** The range covers the destination and is longer than every excluded one that does. */
  ghost predicate Over(excluded: seq<IpAddress>, r: IpAddress, d: HostAddress) {
    Contains(r, d) && forall e :: e in excluded && Contains(e, d) ==> e.prefixLength < r.prefixLength
  }

  lemma TunnelledMeans(allowed: seq<IpAddress>, excluded: seq<IpAddress>, d: HostAddress)
    ensures Tunnelled(allowed, excluded, d) <==> exists r :: r in allowed && Over(excluded, r, d)
  {
    LongestIsLongest(allowed, d);
    LongestIsLongest(excluded, d);
  }

  /** All that the translation depends on. */
  datatype Setup = Setup(
    t: TextParsers,
    allowedIps: seq<string>,
    settings: SiteSettings,
    dns1: string,
    dns2: string,
    hostName: string)
  {
    function Host(): HostAddress {
      t.qt.host(hostName)
    }

    function Sites(): seq<string> {
      UsableSites(t, settings.sites)
    }

    function Mode(): RouteMode {
      EffectiveMode(t, settings)
    }
  }

  /** The allowed and excluded lists come out of the client, the controller and the daemon. */
  ghost predicate Translated(u: Setup, allowed: seq<IpAddress>, excluded: seq<string>) {
    exists mode, sites ::
      && Appended(u.t, u.allowedIps, u.settings, u.dns1, u.dns2, mode, sites)
      && Compiled(u.t, u.allowedIps, mode, sites, u.hostName, allowed, excluded)
  }

  predicate PlainIpv4(t: TextParsers, s: string) {
    '/' !in s && t.qt.host(s).Ipv4?
  }

  /** Qt's parsers on the few texts that the code itself writes. */
  ghost predicate Basics(t: TextParsers) {
    && Lawful(t.qt)
    && t.qt.host("") == NullAddress
    && t.qt.host("0.0.0.0") == Ipv4(0) && t.qt.host("::") == Ipv6(0)
    && t.atoi("0") == 0
  }

  /** An IPv4 range has an IPv4 length. */
  predicate InRange(t: TextParsers, s: string) {
    RangeOf(t, s).address.Ipv4? ==> 0 <= RangeOf(t, s).prefixLength <= 32
  }

  /** An IPv4 host, IPv4 resolvers or none, and no range of an impossible length. */
  ghost predicate Sensible(u: Setup) {
    && Basics(u.t) && PlainIpv4(u.t, u.hostName)
    && (PlainIpv4(u.t, u.dns1) || u.dns1 == "") && (PlainIpv4(u.t, u.dns2) || u.dns2 == "")
    && (forall s :: s in u.allowedIps ==> InRange(u.t, s))
    && (forall s :: s in u.Sites() ==> InRange(u.t, s))
  }

  /** Some text of the list covers the address. */
  ghost predicate Named(t: TextParsers, texts: seq<string>, d: HostAddress) {
    exists s :: s in texts && Covers(t, s, d)
  }

  ghost predicate SiteOrResolver(u: Setup, d: HostAddress) {
    Named(u.t, u.Sites(), d) || d == u.t.qt.host(u.dns1) || d == u.t.qt.host(u.dns2)
  }

  /** The entry of the user's list names the address: by its name if that is an address or a subnet,
      and otherwise by the address it was resolved to, if that is one. */
  predicate EntryNames(t: TextParsers, entry: (string, string), d: HostAddress) {
    if CheckIpSubnetFormat(t, entry.0) then Covers(t, entry.0, d)
    else CheckIpSubnetFormat(t, entry.1) && Covers(t, entry.1, d)
  }

  ghost predicate NamedByUser(u: Setup, d: HostAddress) {
    exists i :: 0 <= i < |u.settings.sites| && EntryNames(u.t, u.settings.sites[i], d)
  }

  /** Some entry of the user's list stands for an address at all. */
  ghost predicate SomeEntryUsable(u: Setup) {
    exists i :: 0 <= i < |u.settings.sites| && IsUsable(u.t, u.settings.sites[i])
  }

  predicate IsUsable(t: TextParsers, entry: (string, string)) {
    CheckIpSubnetFormat(t, entry.0) || CheckIpSubnetFormat(t, entry.1)
  }

  /** What the user asked for with their list: everything; what is on it, and the resolvers; all
      that is not on it. Without a usable entry, or without asking, everything. */
  ghost predicate Asked(u: Setup, d: HostAddress) {
    u.settings.enabled && SomeEntryUsable(u) ==>
      match u.settings.mode
      case VpnAllSites => true
      case VpnOnlyForwardSites => NamedByUser(u, d) || d == u.t.qt.host(u.dns1) || d == u.t.qt.host(u.dns2)
      case VpnAllExceptSites => !NamedByUser(u, d)
  }

  /** The same in terms of the texts that the client collects. */
  ghost predicate AskedOfSites(u: Setup, d: HostAddress) {
    match u.Mode()
    case VpnAllSites => true
    case VpnOnlyForwardSites => SiteOrResolver(u, d)
    case VpnAllExceptSites => !Named(u.t, u.Sites(), d)
  }

  /** The host itself is never tunnelled. */
  ghost predicate Wanted(u: Setup, d: HostAddress) {
    d != u.Host() && Asked(u, d)
  }

  lemma EntryIsCollected(u: Setup, i: nat)
    requires i < |u.settings.sites| && IsUsable(u.t, u.settings.sites[i])
    ensures var e := u.settings.sites[i];
            (if CheckIpSubnetFormat(u.t, e.0) then e.0 else e.1) in u.Sites()
  {
    var e := u.settings.sites[i];
    var s := if CheckIpSubnetFormat(u.t, e.0) then e.0 else e.1;
    assert IsSiteOf(u.t, e, s);
    UsableSitesAre(u.t, u.settings.sites, s);
  }

  lemma CollectedIsEntry(u: Setup, s: string) returns (i: nat)
    requires s in u.Sites()
    ensures i < |u.settings.sites| && IsSiteOf(u.t, u.settings.sites[i], s)
  {
    UsableSitesAre(u.t, u.settings.sites, s);
    i :| 0 <= i < |u.settings.sites| && IsSiteOf(u.t, u.settings.sites[i], s);
  }

  lemma CollectedIsNamed(u: Setup, d: HostAddress)
    ensures Named(u.t, u.Sites(), d) <==> NamedByUser(u, d)
  {
    var sites := u.settings.sites;
    if i: nat :| i < |sites| && EntryNames(u.t, sites[i], d) {
      EntryIsCollected(u, i);
    }
    if s :| s in u.Sites() && Covers(u.t, s, d) {
      var i := CollectedIsEntry(u, s);
      assert EntryNames(u.t, sites[i], d);
    }
  }

  lemma CollectedIsUsable(u: Setup)
    ensures u.Sites() != [] <==> SomeEntryUsable(u)
  {
    var sites := u.settings.sites;
    if i: nat :| i < |sites| && IsUsable(u.t, sites[i]) {
      EntryIsCollected(u, i);
    }
    if u.Sites() != [] {
      var i := CollectedIsEntry(u, u.Sites()[0]);
      assert IsUsable(u.t, sites[i]);
    }
  }

  lemma AskedBySites(u: Setup, d: HostAddress)
    ensures Asked(u, d) <==> AskedOfSites(u, d)
  {
    CollectedIsNamed(u, d);
    CollectedIsUsable(u);
  }

  /** The translation is right: it tunnels exactly the IPv4 destinations that the user asked for. */
  ghost predicate Right(u: Setup, allowed: seq<IpAddress>, excluded: seq<string>) {
    forall d: HostAddress :: d.Ipv4? ==> (Tunnelled(allowed, ExcludedRanges(u.t, excluded), d) <==> Wanted(u, d))
  }

  /** The configuration allows everything, in whatever words. */
  predicate AllowsEverything(u: Setup) {
    ALL_IPV4 in u.allowedIps && ALL_IPV6 in u.allowedIps
  }

  /** The key of some site covers the address, and no allowed range that covers it is longer. */
  ghost predicate ShutOut(u: Setup, d: HostAddress) {
    exists s :: s in u.Sites() && Contains(FromText(u.t.qt, s), d)
      && forall r :: r in u.allowedIps && Covers(u.t, r, d) ==>
           RangeOf(u.t, r).prefixLength <= FromText(u.t.qt, s).prefixLength
  }

  /** What the ranges tunnel apart from the host. */
  ghost predicate Reached(u: Setup, d: HostAddress) {
    if u.allowedIps == [] then !(u.settings.enabled && u.settings.mode == VpnOnlyForwardSites)
    else if u.allowedIps == DEFAULT_ALLOWED && u.Mode() == VpnOnlyForwardSites then SiteOrResolver(u, d)
    else Named(u.t, u.allowedIps, d)
         && !(AllowsEverything(u) && u.Mode() == VpnAllExceptSites && ShutOut(u, d))
  }

  lemma AddressIsOneRange(t: TextParsers, s: string, d: HostAddress)
    requires Basics(t) && (PlainIpv4(t, s) || s == "") && d.Ipv4?
    ensures RangeOf(t, s).prefixLength == 32
    ensures Covers(t, s, d) <==> d == t.qt.host(s)
    ensures s != "" ==> FromText(t.qt, s) == RangeOf(t, s)
  {
  }

  lemma KeyLength(t: TextParsers, s: string, d: HostAddress)
    requires Basics(t) && d.Ipv4? && Contains(FromText(t.qt, s), d)
    ensures 0 <= FromText(t.qt, s).prefixLength <= 32
  {
    assert t.qt.subnet(s).0 != NullAddress ==> t.qt.subnet(s).1 >= 0;
  }

  /** The text allows the address, with a longer prefix than every key of the others that covers it. */
  ghost predicate Beats(t: TextParsers, r: string, out: seq<string>, d: HostAddress) {
    Covers(t, r, d) && forall s :: s in out && Contains(FromText(t.qt, s), d) ==>
      FromText(t.qt, s).prefixLength < RangeOf(t, r).prefixLength
  }

  /** A destination is tunnelled exactly if it is not the host and a text of the list allows it with
      a longer prefix than everything that is left out. */
  lemma TunnelledByTexts(u: Setup, texts: seq<string>, out: seq<string>, allowed: seq<IpAddress>, d: HostAddress)
    requires Sensible(u) && d.Ipv4? && multiset(allowed) == multiset(RangesOf(u.t, texts))
    requires forall s :: s in texts ==> InRange(u.t, s)
    ensures Tunnelled(allowed, ExcludedRanges(u.t, [u.hostName] + out), d)
       <==> d != u.Host() && exists r :: r in texts && Beats(u.t, r, out, d)
  {
    var keys := ExcludedRanges(u.t, [u.hostName] + out);
    SameElements(allowed, RangesOf(u.t, texts));
    MembersOfRanges(u.t, texts);
    TunnelledMeans(allowed, keys, d);
    forall r | r in texts
      ensures Over(keys, RangeOf(u.t, r), d) <==> d != u.Host() && Beats(u.t, r, out, d)
    {
      OverKeys(u, r, out, d);
    }
    if Tunnelled(allowed, keys, d) {
      var p :| p in allowed && Over(keys, p, d);
      var r :| r in texts && p == RangeOf(u.t, r);
      assert Beats(u.t, r, out, d);
    }
    if r :| r in texts && Beats(u.t, r, out, d) && d != u.Host() {
      assert RangeOf(u.t, r) in allowed;
      assert Over(keys, RangeOf(u.t, r), d);
    }
  }

  lemma OverKeys(u: Setup, r: string, out: seq<string>, d: HostAddress)
    requires Sensible(u) && d.Ipv4? && InRange(u.t, r)
    ensures Over(ExcludedRanges(u.t, [u.hostName] + out), RangeOf(u.t, r), d)
       <==> d != u.Host() && Beats(u.t, r, out, d)
  {
    var keys, host := ExcludedRanges(u.t, [u.hostName] + out), FromText(u.t.qt, u.hostName);
    MembersOfKeys(u.t, u.hostName, out);
    AddressIsOneRange(u.t, u.hostName, d);
    assert host in keys;
    assert forall s :: s in out ==> FromText(u.t.qt, s) in keys;
  }

  lemma MembersOfRanges(t: TextParsers, texts: seq<string>)
    ensures forall p :: p in RangesOf(t, texts) <==> exists s :: s in texts && p == RangeOf(t, s)
  {
    var ranges := RangesOf(t, texts);
    forall p | p in ranges
      ensures exists s :: s in texts && p == RangeOf(t, s)
    {
      var i :| 0 <= i < |ranges| && ranges[i] == p;
      assert texts[i] in texts;
    }
    forall s | s in texts
      ensures RangeOf(t, s) in ranges
    {
      var i :| 0 <= i < |texts| && texts[i] == s;
      assert ranges[i] == RangeOf(t, s);
    }
  }

  lemma MembersOfKeys(t: TextParsers, hostName: string, out: seq<string>)
    ensures var keys := ExcludedRanges(t, [hostName] + out);
            forall p :: p in keys <==> p == FromText(t.qt, hostName) || exists s :: s in out && p == FromText(t.qt, s)
  {
    var texts := [hostName] + out;
    var keys := ExcludedRanges(t, texts);
    assert keys[0] == FromText(t.qt, hostName);
    forall p | p in keys
      ensures p == FromText(t.qt, hostName) || exists s :: s in out && p == FromText(t.qt, s)
    {
      var i :| 0 <= i < |keys| && keys[i] == p;
      assert i > 0 ==> out[i - 1] in out;
    }
    forall s | s in out
      ensures FromText(t.qt, s) in keys
    {
      var i :| 0 <= i < |out| && out[i] == s;
      assert keys[i + 1] == FromText(t.qt, s);
    }
  }

  lemma AllIpv4Parses(t: TextParsers)
    requires Basics(t)
    ensures RangeOf(t, ALL_IPV4) == IpAddress(Ipv4(0), 0)
  {
    SplitOnce("0.0.0.0", "0");
    assert ALL_IPV4 == "0.0.0.0" + "/" + "0";
  }

  lemma AllIpv6Parses(t: TextParsers)
    requires Basics(t)
    ensures RangeOf(t, ALL_IPV6) == IpAddress(Ipv6(0), 0)
  {
    SplitOnce("::", "0");
    assert ALL_IPV6 == "::" + "/" + "0";
  }

  /** What the controller writes for everything is what the default list reads as. */
  lemma DefaultIsEverything(t: TextParsers)
    requires Basics(t)
    ensures Everything(t) == RangesOf(t, DEFAULT_ALLOWED)
    ensures InRange(t, ALL_IPV4) && InRange(t, ALL_IPV6)
    ensures forall s :: s in DEFAULT_ALLOWED <==> s == ALL_IPV4 || s == ALL_IPV6
  {
    AllIpv4Parses(t);
    AllIpv6Parses(t);
    TwoRanges(t, DEFAULT_ALLOWED, ALL_IPV4, ALL_IPV6);
    TwoTexts(DEFAULT_ALLOWED, ALL_IPV4, ALL_IPV6);
  }

  lemma TwoRanges(t: TextParsers, texts: seq<string>, a: string, b: string)
    requires texts == [a, b]
    ensures RangesOf(t, texts) == [RangeOf(t, a), RangeOf(t, b)]
  {
  }

  /** A list that allows everything names every IPv4 address. */
  lemma EverythingIsNamed(u: Setup, d: HostAddress)
    requires Basics(u.t) && ALL_IPV4 in u.allowedIps && d.Ipv4?
    ensures Named(u.t, u.allowedIps, d)
  {
    AllIpv4Parses(u.t);
    ZeroCovers(u.t, u.allowedIps, ALL_IPV4);
  }

  /** Some site's key covers the address, and the longest such key is among them. */
  lemma LongestKey(t: TextParsers, out: seq<string>, d: HostAddress, s: string) returns (best: string)
    requires s in out && Contains(FromText(t.qt, s), d)
    ensures best in out && Contains(FromText(t.qt, best), d)
    ensures forall o :: o in out && Contains(FromText(t.qt, o), d) ==>
              FromText(t.qt, o).prefixLength <= FromText(t.qt, best).prefixLength
    decreases |out|
  {
    var init, last := out[..|out| - 1], out[|out| - 1];
    assert out == init + [last];
    if o :| o in init && Contains(FromText(t.qt, o), d) {
      best := LongestKey(t, init, d, o);
      if Contains(FromText(t.qt, last), d) && FromText(t.qt, last).prefixLength > FromText(t.qt, best).prefixLength {
        best := last;
      }
    } else {
      best := last;
    }
  }

  /** Nothing beats the sites exactly if the list does not name the address or the sites shut it out. */
  lemma BeatenExactly(u: Setup, out: seq<string>, d: HostAddress)
    requires SameTexts(out, u.Sites())
    ensures (exists r :: r in u.allowedIps && Beats(u.t, r, out, d))
       <==> Named(u.t, u.allowedIps, d) && !ShutOut(u, d)
  {
    if Named(u.t, u.allowedIps, d) && !ShutOut(u, d) {
      if s :| s in out && Contains(FromText(u.t.qt, s), d) {
        var best := LongestKey(u.t, out, d, s);
        assert best in u.Sites();
        var r :| r in u.allowedIps && Covers(u.t, r, d)
                 && RangeOf(u.t, r).prefixLength > FromText(u.t.qt, best).prefixLength;
        assert Beats(u.t, r, out, d);
      } else {
        var r :| r in u.allowedIps && Covers(u.t, r, d);
        assert Beats(u.t, r, out, d);
      }
    }
  }

  /** With nothing left out, whatever the list names is allowed. */
  lemma NothingToBeat(t: TextParsers, texts: seq<string>, d: HostAddress)
    ensures (exists r :: r in texts && Beats(t, r, [], d)) <==> Named(t, texts, d)
  {
    if r :| r in texts && Covers(t, r, d) {
      assert Beats(t, r, [], d);
    }
  }

  /** Texts that read as what the controller writes for everything. */
  lemma EverythingInTexts(t: TextParsers) returns (texts: seq<string>)
    requires Basics(t)
    ensures Everything(t) == RangesOf(t, texts) && forall s :: s in texts ==> InRange(t, s)
    ensures forall d: HostAddress :: d.Ipv4? ==> Named(t, texts, d)
  {
    texts := DEFAULT_ALLOWED;
    DefaultIsEverything(t);
    AllIpv4Parses(t);
    ZeroCovers(t, texts, ALL_IPV4);
  }

  lemma ZeroCovers(t: TextParsers, texts: seq<string>, zero: string)
    requires zero in texts && RangeOf(t, zero) == IpAddress(Ipv4(0), 0)
    ensures forall d: HostAddress :: d.Ipv4? ==> Named(t, texts, d)
  {
    forall d: HostAddress | d.Ipv4?
      ensures Named(t, texts, d)
    {
      assert Covers(t, zero, d);
    }
  }

  lemma NothingCompiled(u: Setup, allowed: seq<IpAddress>, excluded: seq<string>)
    requires Translated(u, allowed, excluded) && u.allowedIps == []
    ensures excluded == [u.hostName] + []
    ensures multiset(allowed) == multiset(if u.settings.enabled && u.settings.mode == VpnOnlyForwardSites then []
                                          else Everything(u.t))
  {
    var mode, sites :| Appended(u.t, u.allowedIps, u.settings, u.dns1, u.dns2, mode, sites)
                       && Compiled(u.t, u.allowedIps, mode, sites, u.hostName, allowed, excluded);
    assert sites == [] && RangesOf(u.t, sites) == [];
  }

  lemma ReachedWithoutList(u: Setup, allowed: seq<IpAddress>, excluded: seq<string>, d: HostAddress)
    requires Sensible(u) && Translated(u, allowed, excluded) && d.Ipv4? && u.allowedIps == []
    ensures Tunnelled(allowed, ExcludedRanges(u.t, excluded), d) <==> d != u.Host() && Reached(u, d)
  {
    NothingCompiled(u, allowed, excluded);
    var texts := EverythingInTexts(u.t);
    if u.settings.enabled && u.settings.mode == VpnOnlyForwardSites {
      texts := [];
      assert RangesOf(u.t, texts) == [];
    }
    TunnelledByTexts(u, texts, [], allowed, d);
    NothingToBeat(u.t, texts, d);
  }

  lemma SitesCompiled(u: Setup, allowed: seq<IpAddress>, excluded: seq<string>) returns (sites: seq<string>)
    requires Translated(u, allowed, excluded) && u.allowedIps == DEFAULT_ALLOWED && u.Mode() == VpnOnlyForwardSites
    ensures multiset(allowed) == multiset(RangesOf(u.t, sites)) && excluded == [u.hostName] + []
    ensures SameTexts(sites, u.Sites() + [u.dns1, u.dns2])
  {
    var mode, more :| Appended(u.t, u.allowedIps, u.settings, u.dns1, u.dns2, mode, more)
                      && Compiled(u.t, u.allowedIps, mode, more, u.hostName, allowed, excluded);
    DefaultAllowsEverything(u);
    sites := more;
  }

  lemma TwoTexts(texts: seq<string>, a: string, b: string)
    requires texts == [a, b]
    ensures forall s :: s in texts <==> s == a || s == b
  {
  }

  lemma ReachedBySites(u: Setup, sites: seq<string>, d: HostAddress)
    requires Sensible(u) && d.Ipv4? && SameTexts(sites, u.Sites() + [u.dns1, u.dns2])
    ensures Named(u.t, sites, d) <==> SiteOrResolver(u, d)
    ensures forall s :: s in sites ==> InRange(u.t, s)
  {
    AddressIsOneRange(u.t, u.dns1, d);
    AddressIsOneRange(u.t, u.dns2, d);
    var all := u.Sites() + [u.dns1, u.dns2];
    assert forall s :: s in all <==> s in u.Sites() || s == u.dns1 || s == u.dns2;
  }

  /** What goes into the configuration besides the allowed ranges. */
  lemma ModeAndSites(u: Setup, mode: RouteMode, sites: seq<string>)
    requires Appended(u.t, u.allowedIps, u.settings, u.dns1, u.dns2, mode, sites)
    ensures AllowsEverything(u) ==> mode == u.Mode()
    ensures var out := if mode == VpnAllExceptSites then sites else [];
            if AllowsEverything(u) && u.Mode() == VpnAllExceptSites then SameTexts(out, u.Sites()) else out == []
  {
    assert u.Sites() + [] == u.Sites();
  }

  lemma RangesOfList(t: TextParsers, texts: seq<string>, mode: RouteMode, sites: seq<string>)
    requires Basics(t) && texts != [] && !(texts == DEFAULT_ALLOWED && mode == VpnOnlyForwardSites)
    ensures AllowedRanges(t, texts, mode, sites) == RangesOf(t, texts)
  {
    DefaultIsEverything(t);
  }

  lemma DefaultAllowsEverything(u: Setup)
    requires u.allowedIps == DEFAULT_ALLOWED
    ensures AllowsEverything(u)
  {
    TwoTexts(u.allowedIps, ALL_IPV4, ALL_IPV6);
  }

  lemma ListCompiled(u: Setup, allowed: seq<IpAddress>, excluded: seq<string>) returns (out: seq<string>)
    requires Basics(u.t) && Translated(u, allowed, excluded)
    requires u.allowedIps != [] && !(u.allowedIps == DEFAULT_ALLOWED && u.Mode() == VpnOnlyForwardSites)
    ensures multiset(allowed) == multiset(RangesOf(u.t, u.allowedIps)) && excluded == [u.hostName] + out
    ensures if AllowsEverything(u) && u.Mode() == VpnAllExceptSites then SameTexts(out, u.Sites()) else out == []
  {
    var mode, sites :| Appended(u.t, u.allowedIps, u.settings, u.dns1, u.dns2, mode, sites)
                       && Compiled(u.t, u.allowedIps, mode, sites, u.hostName, allowed, excluded);
    ModeAndSites(u, mode, sites);
    if u.allowedIps == DEFAULT_ALLOWED {
      DefaultAllowsEverything(u);
    }
    RangesOfList(u.t, u.allowedIps, mode, sites);
    out := if mode == VpnAllExceptSites then sites else [];
  }

  lemma ReachedByList(u: Setup, out: seq<string>, d: HostAddress)
    requires if AllowsEverything(u) && u.Mode() == VpnAllExceptSites then SameTexts(out, u.Sites()) else out == []
    ensures (exists r :: r in u.allowedIps && Beats(u.t, r, out, d))
       <==> Named(u.t, u.allowedIps, d) && !(AllowsEverything(u) && u.Mode() == VpnAllExceptSites && ShutOut(u, d))
  {
    if AllowsEverything(u) && u.Mode() == VpnAllExceptSites {
      BeatenExactly(u, out, d);
    } else {
      NothingToBeat(u.t, u.allowedIps, d);
    }
  }

  /** What the ranges tunnel, for every list of allowed ranges, every mode and every site list. */
  lemma ReachedExactly(u: Setup, allowed: seq<IpAddress>, excluded: seq<string>, d: HostAddress)
    requires Sensible(u) && Translated(u, allowed, excluded) && d.Ipv4?
    ensures Tunnelled(allowed, ExcludedRanges(u.t, excluded), d) <==> d != u.Host() && Reached(u, d)
  {
    if u.allowedIps == [] {
      ReachedWithoutList(u, allowed, excluded, d);
    } else if u.allowedIps == DEFAULT_ALLOWED && u.Mode() == VpnOnlyForwardSites {
      var sites := SitesCompiled(u, allowed, excluded);
      ReachedBySites(u, sites, d);
      TunnelledByTexts(u, sites, [], allowed, d);
      NothingToBeat(u.t, sites, d);
    } else {
      var out := ListCompiled(u, allowed, excluded);
      TunnelledByTexts(u, u.allowedIps, out, allowed, d);
      ReachedByList(u, out, d);
    }
  }

  /** The site names the host and nothing else. */
  predicate OnlyHost(u: Setup, s: string) {
    RangeOf(u.t, s) == IpAddress(u.Host(), 32)
  }

  /** There is nothing to tunnel: every site and every resolver is the host. */
  ghost predicate NothingAsked(u: Setup) {
    && (forall s :: s in u.Sites() ==> OnlyHost(u, s))
    && (u.dns1 == "" || u.t.qt.host(u.dns1) == u.Host())
    && (u.dns2 == "" || u.t.qt.host(u.dns2) == u.Host())
  }

  /** When the translation is right. Without a list the sites are dropped, so they must not matter.
      The default list is right in the first two modes. Any other list that allows everything is
      right in the first; in the second sites, resolvers and host must cover all; in the third
      exactly the sites must be shut out. A list of another kind must cover just what was asked for. */
  ghost predicate Condition(u: Setup) {
    if u.allowedIps == [] then
      u.settings.enabled ==>
        match u.settings.mode
        case VpnAllSites => true
        case VpnOnlyForwardSites => u.Sites() != [] && NothingAsked(u)
        case VpnAllExceptSites => forall s :: s in u.Sites() ==> OnlyHost(u, s)
    else if AllowsEverything(u) then
      match u.Mode()
      case VpnAllSites => true
      case VpnOnlyForwardSites =>
        u.allowedIps == DEFAULT_ALLOWED || (forall d :: Elsewhere(u, d) ==> SiteOrResolver(u, d))
      case VpnAllExceptSites => forall d :: Elsewhere(u, d) ==> (ShutOut(u, d) <==> Named(u.t, u.Sites(), d))
    else forall d :: Elsewhere(u, d) ==> (Named(u.t, u.allowedIps, d) <==> AskedOfSites(u, d))
  }

  /** An IPv4 address other than the host. */
  predicate Elsewhere(u: Setup, d: HostAddress) {
    d.Ipv4? && d != u.Host()
  }

  /** A site that names more than the host names another address. */
  lemma SiteElsewhere(u: Setup, s: string) returns (d: HostAddress)
    requires Sensible(u) && CheckIpSubnetFormat(u.t, s) && InRange(u.t, s) && !OnlyHost(u, s)
    ensures Elsewhere(u, d) && Covers(u.t, s, d)
  {
    var p := RangeOf(u.t, s);
    d := p.address;
    if d == u.Host() {
      var b := SiblingAddress(d.v4, 32);
      assert SameLeading(d.v4, b, 32, p.prefixLength);
      d := Ipv4(b);
    }
  }

  lemma SomewhereElse(u: Setup) returns (d: HostAddress)
    ensures Elsewhere(u, d)
  {
    d := if u.Host() == Ipv4(0) then Ipv4(1) else Ipv4(0);
  }

  /** The sites name nothing but the host exactly if each of them is the host. */
  lemma SitesNameOnlyHost(u: Setup)
    requires Sensible(u)
    ensures (forall d :: Elsewhere(u, d) ==> !Named(u.t, u.Sites(), d)) <==> forall s :: s in u.Sites() ==> OnlyHost(u, s)
  {
    UsableSitesAreAddresses(u.t, u.settings.sites);
    if forall d :: Elsewhere(u, d) ==> !Named(u.t, u.Sites(), d) {
      forall s | s in u.Sites()
        ensures OnlyHost(u, s)
      {
        if !OnlyHost(u, s) {
          var d := SiteElsewhere(u, s);
          assert Named(u.t, u.Sites(), d);
        }
      }
    }
  }

  lemma NothingIsAsked(u: Setup)
    requires Sensible(u)
    ensures (forall d :: Elsewhere(u, d) ==> !SiteOrResolver(u, d)) <==> NothingAsked(u)
  {
    SitesNameOnlyHost(u);
    if forall d :: Elsewhere(u, d) ==> !SiteOrResolver(u, d) {
      assert forall d :: Elsewhere(u, d) ==> !Named(u.t, u.Sites(), d);
      assert !Elsewhere(u, u.t.qt.host(u.dns1)) && !Elsewhere(u, u.t.qt.host(u.dns2));
    }
  }

  lemma ConditionOfEverything(u: Setup)
    requires u.allowedIps != [] && AllowsEverything(u)
    requires forall d :: Elsewhere(u, d) ==> Named(u.t, u.allowedIps, d)
    ensures (forall d :: Elsewhere(u, d) ==> (Reached(u, d) <==> AskedOfSites(u, d))) <==> Condition(u)
  {
    match u.Mode()
    case VpnAllSites =>
    case VpnOnlyForwardSites =>
      if u.allowedIps != DEFAULT_ALLOWED {
        assert forall d :: Elsewhere(u, d) ==> Reached(u, d);
      }
    case VpnAllExceptSites =>
      assert forall d :: Elsewhere(u, d) ==> (Reached(u, d) <==> !ShutOut(u, d));
  }

  lemma ConditionOfOther(u: Setup)
    requires u.allowedIps != [] && u.allowedIps != DEFAULT_ALLOWED && !AllowsEverything(u)
    ensures (forall d :: Elsewhere(u, d) ==> (Reached(u, d) <==> AskedOfSites(u, d))) <==> Condition(u)
  {
    assert forall d :: Elsewhere(u, d) ==> (Reached(u, d) <==> Named(u.t, u.allowedIps, d));
  }

  /** What is reached is what was asked for exactly if the condition holds. */
  lemma ConditionIsExact(u: Setup)
    requires Sensible(u)
    ensures (forall d :: Elsewhere(u, d) ==> (Reached(u, d) <==> AskedOfSites(u, d))) <==> Condition(u)
  {
    if u.allowedIps == [] {
      ConditionWithoutList(u);
    } else if AllowsEverything(u) {
      forall d | Elsewhere(u, d)
        ensures Named(u.t, u.allowedIps, d)
      {
        EverythingIsNamed(u, d);
      }
      ConditionOfEverything(u);
    } else {
      if u.allowedIps == DEFAULT_ALLOWED {
        DefaultAllowsEverything(u);
      }
      ConditionOfOther(u);
    }
  }

  lemma ConditionWithoutList(u: Setup)
    requires Sensible(u) && u.allowedIps == []
    ensures (forall d :: Elsewhere(u, d) ==> (Reached(u, d) <==> AskedOfSites(u, d))) <==> Condition(u)
  {
    NothingIsAsked(u);
    SitesNameOnlyHost(u);
    var d := SomewhereElse(u);
    assert u.Sites() == [] ==> AskedOfSites(u, d);
  }

  /** For every list of allowed ranges, every mode, every site list and whatever the parsers make of
      them: the translation is right if and only if the condition holds. */
  lemma TranslationIsRightExactlyWhen(u: Setup, allowed: seq<IpAddress>, excluded: seq<string>)
    requires Sensible(u) && Translated(u, allowed, excluded)
    ensures Right(u, allowed, excluded) <==> Condition(u)
  {
    ConditionIsExact(u);
    forall d: HostAddress | d.Ipv4?
      ensures Tunnelled(allowed, ExcludedRanges(u.t, excluded), d) <==> Elsewhere(u, d) && Reached(u, d)
      ensures Asked(u, d) <==> AskedOfSites(u, d)
    {
      ReachedExactly(u, allowed, excluded, d);
      AskedBySites(u, d);
    }
    if Right(u, allowed, excluded) {
      forall d | Elsewhere(u, d)
        ensures Reached(u, d) <==> AskedOfSites(u, d)
      {
        AskedBySites(u, d);
        assert Tunnelled(allowed, ExcludedRanges(u.t, excluded), d) <==> Wanted(u, d);
      }
    }
  }

  // ---- the third mode: what a site is allowed as and what it is excluded as

  /** The range a text is allowed as and the key it is excluded under are the same prefix. */
  predicate ReadsAlike(t: TextParsers, s: string) {
    var p, q := FromText(t.qt, s), RangeOf(t, s);
    && p.address.Ipv4? && q.address.Ipv4?
    && p.prefixLength == q.prefixLength && SameLeading(p.address.v4, q.address.v4, 32, q.prefixLength)
  }

  lemma SameLeadingJoins(a: Word32, b: Word32, d: Word32, length: int)
    requires SameLeading(a, b, 32, length)
    ensures SameLeading(a, d, 32, length) <==> SameLeading(b, d, 32, length)
  {
  }

  /** Of two prefixes of different lengths the shorter covers an address that the longer does not. */
  lemma ShorterCoversMore(a: Word32, m: int, b: Word32, n: int) returns (d: Word32)
    requires 0 <= m < n <= 32
    ensures SameLeading(a, d, 32, m) && !SameLeading(b, d, 32, n)
  {
    d := a;
    if SameLeading(b, a, 32, n) {
      d := SiblingAddress(a, n);
      assert SameLeading(a, d, 32, m);
      SameLeadingJoins(b, a, d, n);
    }
  }

  /** For every accepted site: the key and the range cover the same addresses if and only if the
      parsers agree on the length and on the leading bits. */
  lemma ReadingsAgreeExactly(t: TextParsers, s: string)
    requires Basics(t) && CheckIpSubnetFormat(t, s) && InRange(t, s)
    ensures (forall d: HostAddress :: d.Ipv4? ==> (Contains(FromText(t.qt, s), d) <==> Covers(t, s, d)))
       <==> ReadsAlike(t, s)
  {
    var p, q := FromText(t.qt, s), RangeOf(t, s);
    if ReadsAlike(t, s) {
      forall d: HostAddress | d.Ipv4?
        ensures Contains(p, d) <==> Contains(q, d)
      {
        SameLeadingJoins(p.address.v4, q.address.v4, d.v4, q.prefixLength);
      }
    } else if Contains(p, q.address) {
      KeyLength(t, s, q.address);
      var a, b := p.address.v4, q.address.v4;
      if p.prefixLength < q.prefixLength {
        var d := ShorterCoversMore(a, p.prefixLength, b, q.prefixLength);
        assert Contains(p, Ipv4(d)) && !Contains(q, Ipv4(d));
      } else {
        var d := ShorterCoversMore(b, q.prefixLength, a, p.prefixLength);
        assert Contains(q, Ipv4(d)) && !Contains(p, Ipv4(d));
      }
    }
  }

  /** An allowed range that covers the address is longer than every site that does. */
  ghost predicate Overridden(u: Setup, d: HostAddress) {
    exists r :: r in u.allowedIps && Covers(u.t, r, d)
      && forall s :: s in u.Sites() && Covers(u.t, s, d) ==>
           RangeOf(u.t, s).prefixLength < RangeOf(u.t, r).prefixLength
  }

  /** Exactly the sites are shut out. */
  ghost predicate SitesStayOut(u: Setup) {
    forall d :: Elsewhere(u, d) ==> (ShutOut(u, d) <==> Named(u.t, u.Sites(), d))
  }

  lemma ConditionInThirdMode(u: Setup)
    requires AllowsEverything(u) && u.Mode() == VpnAllExceptSites
    ensures Condition(u) <==> SitesStayOut(u)
  {
    assert u.allowedIps != [];
  }

  /** If every site reads alike, a list that allows everything is right in the third mode if and only
      if no address of a site is overridden by a longer range of the list. */
  lemma ThirdModeWhenAlike(u: Setup)
    requires Sensible(u) && AllowsEverything(u) && u.Mode() == VpnAllExceptSites
    requires forall s :: s in u.Sites() ==> ReadsAlike(u.t, s)
    ensures Condition(u) <==> forall d :: Elsewhere(u, d) && Named(u.t, u.Sites(), d) ==> !Overridden(u, d)
  {
    ConditionInThirdMode(u);
    StayOutWhenAlike(u);
  }

  lemma StayOutWhenAlike(u: Setup)
    requires Sensible(u) && forall s :: s in u.Sites() ==> ReadsAlike(u.t, s)
    ensures SitesStayOut(u) <==> forall d :: Elsewhere(u, d) && Named(u.t, u.Sites(), d) ==> !Overridden(u, d)
  {
    forall d | Elsewhere(u, d)
      ensures ShutOut(u, d) <==> Named(u.t, u.Sites(), d) && !Overridden(u, d)
    {
      ShutOutWhenAlike(u, d);
    }
  }

  lemma ShutOutWhenAlike(u: Setup, d: HostAddress)
    requires Sensible(u) && d.Ipv4?
    requires forall s :: s in u.Sites() ==> ReadsAlike(u.t, s)
    ensures ShutOut(u, d) <==> Named(u.t, u.Sites(), d) && !Overridden(u, d)
  {
    forall s | s in u.Sites()
      ensures Contains(FromText(u.t.qt, s), d) <==> Covers(u.t, s, d)
    {
      SameLeadingJoins(FromText(u.t.qt, s).address.v4, RangeOf(u.t, s).address.v4, d.v4, RangeOf(u.t, s).prefixLength);
    }
    if o :| o in u.Sites() && Covers(u.t, o, d) {
      var s := LongestKey(u.t, u.Sites(), d, o);
      if !ShutOut(u, d) {
        var r :| r in u.allowedIps && Covers(u.t, r, d)
                 && RangeOf(u.t, r).prefixLength > FromText(u.t.qt, s).prefixLength;
        assert Overridden(u, d);
      }
    }
  }

  /** The default list overrides nothing: in the third mode it is right if and only if keys and
      ranges of the sites cover the same addresses besides the host. */
  lemma ThirdModeOfDefault(u: Setup)
    requires Sensible(u) && u.allowedIps == DEFAULT_ALLOWED && u.Mode() == VpnAllExceptSites
    ensures Condition(u)
       <==> forall d :: Elsewhere(u, d) ==> (Keyed(u.t, u.Sites(), d) <==> Named(u.t, u.Sites(), d))
  {
    DefaultAllowsEverything(u);
    ConditionInThirdMode(u);
    DefaultIsFlat(u);
    StayOutWhenFlat(u);
  }

  /** No range of the list is longer than any other. */
  ghost predicate Flat(u: Setup) {
    forall r :: r in u.allowedIps ==> RangeOf(u.t, r).prefixLength == 0
  }

  lemma DefaultIsFlat(u: Setup)
    requires Sensible(u) && u.allowedIps == DEFAULT_ALLOWED
    ensures Flat(u)
  {
    AllIpv4Parses(u.t);
    AllIpv6Parses(u.t);
    TwoTexts(u.allowedIps, ALL_IPV4, ALL_IPV6);
  }

  lemma StayOutWhenFlat(u: Setup)
    requires Sensible(u) && Flat(u)
    ensures SitesStayOut(u)
       <==> forall d :: Elsewhere(u, d) ==> (Keyed(u.t, u.Sites(), d) <==> Named(u.t, u.Sites(), d))
  {
    forall d | Elsewhere(u, d)
      ensures ShutOut(u, d) <==> Keyed(u.t, u.Sites(), d)
    {
      if s :| s in u.Sites() && Contains(FromText(u.t.qt, s), d) {
        KeyLength(u.t, s, d);
        assert ShutOut(u, d);
      }
    }
  }

  ghost predicate Keyed(t: TextParsers, texts: seq<string>, d: HostAddress) {
    exists s :: s in texts && Contains(FromText(t.qt, s), d)
  }

  /** The sites that are excluded read alike. */
  ghost predicate SitesReadAlike(u: Setup) {
    u.Mode() == VpnAllExceptSites ==> forall s :: s in u.Sites() ==> ReadsAlike(u.t, s)
  }

  /** The translation preserves meaning: a configuration that allows exactly everything tunnels all
      but the host; the sites and the resolvers but not the host; all but the sites and the host.
      Without a usable site everything is tunnelled. */
  lemma TranslationPreservesMeaning(u: Setup, allowed: seq<IpAddress>, excluded: seq<string>)
    requires Sensible(u) && u.allowedIps == DEFAULT_ALLOWED && SitesReadAlike(u)
    requires Translated(u, allowed, excluded)
    ensures Right(u, allowed, excluded)
  {
    TranslationIsRightExactlyWhen(u, allowed, excluded);
    DefaultAllowsEverything(u);
    if u.Mode() == VpnAllExceptSites {
      ThirdModeOfDefault(u);
      UsableSitesAreAddresses(u.t, u.settings.sites);
      forall s | s in u.Sites()
        ensures forall d: HostAddress :: d.Ipv4? ==> (Contains(FromText(u.t.qt, s), d) <==> Covers(u.t, s, d))
      {
        ReadingsAgreeExactly(u.t, s);
      }
    }
  }

  /** A site given by its name only: the address it was resolved to is tunnelled in the second mode and
      left out in the third. */
  lemma ResolvedSiteCounts(u: Setup, allowed: seq<IpAddress>, excluded: seq<string>, i: nat)
    requires Sensible(u) && u.allowedIps == DEFAULT_ALLOWED && SitesReadAlike(u) && Translated(u, allowed, excluded)
    requires u.settings.enabled && i < |u.settings.sites|
    requires var (name, resolved) := u.settings.sites[i];
             !CheckIpSubnetFormat(u.t, name) && '/' !in resolved && CheckIpSubnetFormat(u.t, resolved)
    requires u.t.qt.host(u.settings.sites[i].1) != u.Host()
    ensures var d := u.t.qt.host(u.settings.sites[i].1);
            && (u.settings.mode == VpnOnlyForwardSites ==> Tunnelled(allowed, ExcludedRanges(u.t, excluded), d))
            && (u.settings.mode == VpnAllExceptSites ==> !Tunnelled(allowed, ExcludedRanges(u.t, excluded), d))
  {
    var d := u.t.qt.host(u.settings.sites[i].1);
    assert EntryNames(u.t, u.settings.sites[i], d) && IsUsable(u.t, u.settings.sites[i]);
    TranslationPreservesMeaning(u, allowed, excluded);
  }

  /** The whole way from the settings to the daemon. */
  method Translate(u: Setup) returns (allowed: seq<IpAddress>, excluded: seq<string>)
    requires Sensible(u)
    ensures Right(u, allowed, excluded) <==> Condition(u)
    ensures u.allowedIps == DEFAULT_ALLOWED && SitesReadAlike(u) ==> Right(u, allowed, excluded)
  {
    var mode, sites := AppendSplitTunneling(u.t, u.allowedIps, u.settings, u.dns1, u.dns2);
    allowed, excluded := Compile(u.t, u.allowedIps, mode, sites, u.hostName);
    assert Translated(u, allowed, excluded);
    TranslationIsRightExactlyWhen(u, allowed, excluded);
    if u.allowedIps == DEFAULT_ALLOWED && SitesReadAlike(u) {
      TranslationPreservesMeaning(u, allowed, excluded);
    }
  }

  // ---- inputs on which the translation is wrong

  lemma EverythingIsReached(u: Setup, d: HostAddress)
    requires Basics(u.t) && AllowsEverything(u) && d.Ipv4?
    requires u.Mode() == VpnOnlyForwardSites ==> u.allowedIps != DEFAULT_ALLOWED
    requires u.Mode() == VpnAllExceptSites ==> !ShutOut(u, d)
    ensures Reached(u, d)
  {
    EverythingIsNamed(u, d);
    assert u.allowedIps != [];
  }

  /** 10.0.0.0/8 is the one site, there are no resolvers, and the host is elsewhere. */
  ghost predicate TenSlashEight(u: Setup, site: string) {
    && Sensible(u) && u.settings.enabled && u.Sites() == [site] && ReadsAlike(u.t, site)
    && RangeOf(u.t, site) == IpAddress(Ipv4(0x0a00_0000), 8)
    && u.dns1 == "" && u.dns2 == "" && u.Host() == Ipv4(0xc000_0201)
  }

  lemma TenSlashEightCovers(u: Setup, site: string, d: HostAddress)
    requires TenSlashEight(u, site) && d.Ipv4?
    ensures Named(u.t, u.Sites(), d) <==> 0x0a00_0000 <= d.v4 < 0x0b00_0000
    ensures SiteOrResolver(u, d) <==> Named(u.t, u.Sites(), d)
  {
    Pow2Of32();
    assert Named(u.t, u.Sites(), d) <==> Covers(u.t, site, d) by {
      assert site in u.Sites();
    }
  }

  /** Any list that allows everything but is not the default one: in the second mode 8.8.8.8 is
      tunnelled as well. */
  lemma OtherListForwardsTooMuch(u: Setup, site: string, allowed: seq<IpAddress>, excluded: seq<string>)
    requires TenSlashEight(u, site) && u.settings.mode == VpnOnlyForwardSites
    requires AllowsEverything(u) && u.allowedIps != DEFAULT_ALLOWED && Translated(u, allowed, excluded)
    ensures Tunnelled(allowed, ExcludedRanges(u.t, excluded), Ipv4(0x0808_0808)) && !Wanted(u, Ipv4(0x0808_0808))
  {
    var d := Ipv4(0x0808_0808);
    TenSlashEightCovers(u, site, d);
    AskedBySites(u, d);
    assert u.Mode() == VpnOnlyForwardSites;
    EverythingIsReached(u, d);
    ReachedExactly(u, allowed, excluded, d);
  }

  /** The two default ranges in the other order are such a list. */
  lemma SwappedDefaultIsOther(u: Setup)
    requires u.allowedIps == [ALL_IPV6, ALL_IPV4]
    ensures AllowsEverything(u) && u.allowedIps != DEFAULT_ALLOWED
  {
    assert u.allowedIps[0] == ALL_IPV6 && u.allowedIps[1] == ALL_IPV4;
    assert |ALL_IPV4| != |ALL_IPV6|;
    assert u.allowedIps[0] != DEFAULT_ALLOWED[0];
  }

  /** No allowed ranges: in the second mode 10.0.0.1 is not tunnelled, in the third it is. */
  lemma NoListDropsTheSites(u: Setup, site: string, allowed: seq<IpAddress>, excluded: seq<string>)
    requires TenSlashEight(u, site) && u.settings.mode != VpnAllSites
    requires u.allowedIps == [] && Translated(u, allowed, excluded)
    ensures Tunnelled(allowed, ExcludedRanges(u.t, excluded), Ipv4(0x0a00_0001)) <==> !Wanted(u, Ipv4(0x0a00_0001))
  {
    TenSlashEightCovers(u, site, Ipv4(0x0a00_0001));
    AskedBySites(u, Ipv4(0x0a00_0001));
    ReachedExactly(u, allowed, excluded, Ipv4(0x0a00_0001));
  }

  /** A longer range inside the site: in the third mode 10.1.0.1 is tunnelled all the same. */
  lemma LongerRangeOverrides(u: Setup, site: string, longer: string, allowed: seq<IpAddress>, excluded: seq<string>)
    requires TenSlashEight(u, site) && u.settings.mode == VpnAllExceptSites
    requires longer in u.allowedIps && RangeOf(u.t, longer) == IpAddress(Ipv4(0x0a01_0000), 16)
    requires AllowsEverything(u) && Translated(u, allowed, excluded)
    ensures Tunnelled(allowed, ExcludedRanges(u.t, excluded), Ipv4(0x0a01_0001)) && !Wanted(u, Ipv4(0x0a01_0001))
  {
    LongerRangeIsNotAskedFor(u, site, longer);
    EverythingIsReached(u, Ipv4(0x0a01_0001));
    ReachedExactly(u, allowed, excluded, Ipv4(0x0a01_0001));
  }

  lemma LongerRangeIsNotAskedFor(u: Setup, site: string, longer: string)
    requires TenSlashEight(u, site) && u.settings.mode == VpnAllExceptSites
    requires longer in u.allowedIps && RangeOf(u.t, longer) == IpAddress(Ipv4(0x0a01_0000), 16)
    ensures u.Mode() == VpnAllExceptSites && !ShutOut(u, Ipv4(0x0a01_0001))
    ensures Elsewhere(u, Ipv4(0x0a01_0001)) && !Wanted(u, Ipv4(0x0a01_0001))
  {
    TenSlashEightCovers(u, site, Ipv4(0x0a01_0001));
    AskedBySites(u, Ipv4(0x0a01_0001));
    LongerRangeWins(u, site, longer);
  }

  lemma LongerRangeWins(u: Setup, site: string, longer: string)
    requires TenSlashEight(u, site)
    requires longer in u.allowedIps && RangeOf(u.t, longer) == IpAddress(Ipv4(0x0a01_0000), 16)
    ensures !ShutOut(u, Ipv4(0x0a01_0001))
  {
    Pow2Of32();
    assert Covers(u.t, longer, Ipv4(0x0a01_0001));
    assert FromText(u.t.qt, site).prefixLength == 8;
  }

  // ---- such a setup exists

  /** The texts of an example: a site, a range inside it, and the host. */
  datatype Texts = Texts(address: string, length: string, inner: string, innerLength: string, hostName: string)
  {
    function Site(): string {
      address + "/" + length
    }

    function Longer(): string {
      inner + "/" + innerLength
    }

    /** The texts can be told apart, and the address looks like one. */
    predicate Distinct() {
      && '/' !in address && '/' !in length && '/' !in inner && '/' !in innerLength && '/' !in hostName
      && Dots(address) == 3 && address != inner
      && |address| == |inner| == 8 && |hostName| == 9 && length == "8" && innerLength == "16"
    }
  }

  /** Parsers that know these texts, and no others than the code writes. */
  function ExampleParsers(x: Texts): TextParsers {
    TextParsers(
      Parsers(
        (s: string) =>
          if s == x.address then Ipv4(0x0a00_0000)
          else if s == x.inner then Ipv4(0x0a01_0000)
          else if s == x.hostName then Ipv4(0xc000_0201)
          else if s == "0.0.0.0" then Ipv4(0)
          else if s == "::" then Ipv6(0)
          else NullAddress,
        (s: string) => if s == x.Site() then (Ipv4(0x0a00_0000), 8) else (NullAddress, -1)),
      (s: string) => if s == x.length then Some(8) else None,
      (s: string) => if s == x.length then 8 else if s == x.innerLength then 16 else 0)
  }

  lemma ExampleBasics(x: Texts)
    requires x.Distinct()
    ensures var t := ExampleParsers(x);
            Basics(t) && PlainIpv4(t, x.hostName) && t.qt.host(x.hostName) == Ipv4(0xc000_0201)
  {
    assert |"0.0.0.0"| == 7 && |"::"| == 2 && |"0"| != |"16"| && "0" != "8";
    var t := ExampleParsers(x);
    assert forall s: string :: '/' in s ==> t.qt.host(s) == NullAddress;
  }

  lemma ExampleRanges(x: Texts)
    requires x.Distinct()
    ensures var t := ExampleParsers(x);
            && CheckIpSubnetFormat(t, x.Site()) && ReadsAlike(t, x.Site())
            && RangeOf(t, x.Site()) == IpAddress(Ipv4(0x0a00_0000), 8)
            && RangeOf(t, x.Longer()) == IpAddress(Ipv4(0x0a01_0000), 16)
  {
    SplitOnce(x.address, x.length);
    SplitOnce(x.inner, x.innerLength);
    assert |x.length| != |x.innerLength|;
    assert x.Site()[|x.address|] == '/';
  }

  lemma OneSite(u: Setup, site: string)
    requires u.settings.sites == [(site, "")] && CheckIpSubnetFormat(u.t, site)
    ensures u.Sites() == [site]
  {
    var sites := u.settings.sites;
    assert sites[..|sites| - 1] == [] && sites[|sites| - 1] == (site, "");
    assert UsableSites(u.t, sites) == UsableSites(u.t, []) + [site];
  }

  const EXAMPLE_TEXTS := Texts("10.0.0.0", "8", "10.1.0.0", "16", "192.0.2.1")

  lemma ExampleTextsAreDistinct()
    ensures EXAMPLE_TEXTS.Distinct()
  {
    assert Dots(".0") == 1;
    assert Dots(".0.0") == 2;
    assert Dots("10.0.0.0") == 3;
    assert "10.0.0.0"[3] != "10.1.0.0"[3];
  }

  /** For every mode and every list of ranges with possible lengths there is a setup with that site. */
  lemma ExampleExists(allowedIps: seq<string>, mode: RouteMode) returns (u: Setup, site: string)
    requires forall s :: s in allowedIps ==> InRange(ExampleParsers(EXAMPLE_TEXTS), s)
    ensures TenSlashEight(u, site) && u.allowedIps == allowedIps && u.settings.mode == mode
  {
    ExampleTextsAreDistinct();
    u, site := ExampleSetup(EXAMPLE_TEXTS, allowedIps, mode);
  }

  lemma ExampleSetup(x: Texts, allowedIps: seq<string>, mode: RouteMode) returns (u: Setup, site: string)
    requires x.Distinct() && forall s :: s in allowedIps ==> InRange(ExampleParsers(x), s)
    ensures u.t == ExampleParsers(x) && site == x.Site()
    ensures TenSlashEight(u, site) && u.allowedIps == allowedIps && u.settings.mode == mode
  {
    site := x.Site();
    u := Setup(ExampleParsers(x), allowedIps, SiteSettings(true, mode, [(site, "")]), "", "", x.hostName);
    ExampleBasics(x);
    ExampleRanges(x);
    OneSite(u, site);
  }

  /** In particular with the two default ranges in the other order, in the second mode. */
  lemma SwappedExampleExists() returns (u: Setup, site: string)
    ensures TenSlashEight(u, site) && u.settings.mode == VpnOnlyForwardSites && u.allowedIps == [ALL_IPV6, ALL_IPV4]
  {
    ExampleTextsAreDistinct();
    u, site := SwappedExample(EXAMPLE_TEXTS);
  }

  lemma SwappedExample(x: Texts) returns (u: Setup, site: string)
    requires x.Distinct()
    ensures TenSlashEight(u, site) && u.settings.mode == VpnOnlyForwardSites && u.allowedIps == [ALL_IPV6, ALL_IPV4]
  {
    ExampleBasics(x);
    DefaultIsEverything(ExampleParsers(x));
    var list := TwoInRange(ExampleParsers(x), ALL_IPV6, ALL_IPV4);
    u, site := ExampleSetup(x, list, VpnOnlyForwardSites);
  }

  lemma TwoInRange(t: TextParsers, a: string, b: string) returns (texts: seq<string>)
    requires InRange(t, a) && InRange(t, b)
    ensures texts == [a, b] && forall s :: s in texts ==> InRange(t, s)
  {
    texts := [a, b];
  }

  /** And with a longer range inside the site, in the third mode. */
  lemma LongerExampleExists() returns (u: Setup, site: string, longer: string)
    ensures TenSlashEight(u, site) && u.settings.mode == VpnAllExceptSites && AllowsEverything(u)
    ensures longer in u.allowedIps && RangeOf(u.t, longer) == IpAddress(Ipv4(0x0a01_0000), 16)
  {
    ExampleTextsAreDistinct();
    u, site, longer := LongerExample(EXAMPLE_TEXTS);
  }

  lemma LongerExample(x: Texts) returns (u: Setup, site: string, longer: string)
    requires x.Distinct()
    ensures TenSlashEight(u, site) && u.settings.mode == VpnAllExceptSites && AllowsEverything(u)
    ensures longer in u.allowedIps && RangeOf(u.t, longer) == IpAddress(Ipv4(0x0a01_0000), 16)
  {
    longer := x.Longer();
    ExampleBasics(x);
    ExampleRanges(x);
    DefaultIsEverything(ExampleParsers(x));
    var list := ThreeTexts(ExampleParsers(x), ALL_IPV4, ALL_IPV6, longer);
    u, site := ExampleSetup(x, list, VpnAllExceptSites);
  }

  lemma ThreeTexts(t: TextParsers, a: string, b: string, c: string) returns (texts: seq<string>)
    requires InRange(t, a) && InRange(t, b) && InRange(t, c)
    ensures a in texts && b in texts && c in texts && forall s :: s in texts ==> InRange(t, s)
  {
    texts := [a, b, c];
  }
}
