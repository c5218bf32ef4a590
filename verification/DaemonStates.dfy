/** The daemon's state as a value: what is stored, counted and polled, the invariant that ties it
    to the world, and what an activation or a poll leaves behind. */
module DaemonStates {
  import opened Addresses
  import opened InterfaceConfigs
  import opened DaemonEvents
  import opened DaemonFrames
  import opened ExclusionCounts

  /** `ConnectionState`: the configuration and the date of its handshake, if any. */
  datatype ConnectionState = ConnectionState(config: InterfaceConfig, date: Option<int>)

  type Connections = map<HopType, ConnectionState>

  ghost function BagAt(qt: Parsers, c: Connections, hop: HopType): multiset<IpAddress> {
    if hop in c then TextBag(qt, c[hop].config.excludedAddresses) else multiset{}
  }

  /** The exclusion keys held by all stored configurations, with multiplicity. */
  ghost function StoredBag(qt: Parsers, c: Connections): multiset<IpAddress> {
    BagAt(qt, c, SingleHop) + BagAt(qt, c, MultiHopEntry) + BagAt(qt, c, MultiHopExit)
  }

  /** The keys held by the hops other than `hop`. */
  ghost function OtherBag(qt: Parsers, c: Connections, hop: HopType): multiset<IpAddress> {
    (if hop == SingleHop then multiset{} else BagAt(qt, c, SingleHop))
    + (if hop == MultiHopEntry then multiset{} else BagAt(qt, c, MultiHopEntry))
    + (if hop == MultiHopExit then multiset{} else BagAt(qt, c, MultiHopExit))
  }

  ghost function RangesAt(c: Connections, hop: HopType): set<IpAddress> {
    if hop in c then ToSet(c[hop].config.allowedIPAddressRanges) else {}
  }

  ghost function PeersAt(c: Connections, hop: HopType): set<string> {
    if hop in c then {c[hop].config.serverPublicKey} else {}
  }

  /** The prefix routes and the peers that the stored configurations ask for. */
  ghost function RangeSet(c: Connections): set<IpAddress> {
    RangesAt(c, SingleHop) + RangesAt(c, MultiHopEntry) + RangesAt(c, MultiHopExit)
  }

  ghost function PeerSet(c: Connections): set<string> {
    PeersAt(c, SingleHop) + PeersAt(c, MultiHopEntry) + PeersAt(c, MultiHopExit)
  }

  ghost predicate Pending(c: Connections) {
    exists hop :: hop in c && c[hop].date.None?
  }

  function Same(a: InterfaceConfig, b: InterfaceConfig): bool {
    && a.privateKey == b.privateKey
    && a.deviceIpv4Address == b.deviceIpv4Address
    && a.deviceIpv6Address == b.deviceIpv6Address
    && a.serverIpv4Gateway == b.serverIpv4Gateway
    && a.serverIpv6Gateway == b.serverIpv6Gateway
  }

  function ResolversFor(qt: Parsers, config: InterfaceConfig): seq<HostAddress> {
    [qt.host(config.primaryDnsServer)]
    + (if config.secondaryDnsServer != "" then [qt.host(config.secondaryDnsServer)] else [])
    + (if config.primaryDnsServer == config.serverIpv4Gateway then [qt.host(config.serverIpv6Gateway)] else [])
  }

  /** The prefixes that a switch to `config` may not drop on the way: those both configurations of
      the hop exclude, and those another hop excludes. */
  ghost function Kept(qt: Parsers, c: Connections, config: InterfaceConfig): set<IpAddress> {
    set p | p in StoredBag(qt, c)
            && (p in OtherBag(qt, c, config.hopType) || p in TextBag(qt, config.excludedAddresses))
  }

  lemma StoredBagSplits(qt: Parsers, c: Connections, hop: HopType)
    ensures StoredBag(qt, c) == OtherBag(qt, c, hop) + BagAt(qt, c, hop)
  {
  }

  lemma StoredBagAfterStore(qt: Parsers, c: Connections, hop: HopType, s: ConnectionState)
    ensures StoredBag(qt, c[hop := s]) == OtherBag(qt, c, hop) + TextBag(qt, s.config.excludedAddresses)
  {
    StoredBagSplits(qt, c[hop := s], hop);
    assert OtherBag(qt, c[hop := s], hop) == OtherBag(qt, c, hop);
  }

  /** Conservation of counts: each is what stored configurations hold plus what leaked. */
  ghost predicate Ledger(qt: Parsers, c: Connections, m: Counts, leaked: multiset<IpAddress>, trusted: bool) {
    && Lawful(qt) && Positive(m) && NULL_KEY !in m
    && (trusted ==> Tallies(m, StoredBag(qt, c) + leaked))
  }

  /** While exclusion calls succeed, the installed exclusions are the counted ones. */
  ghost predicate Synced(m: Counts, w: World) {
    && (w.exclusionCallsOk ==> w.exclusions == m.Keys)
    && (w.allOk ==> w.exclusionCallsOk && w.trusted)
  }

  /** States are stored under their hop and, while polls list each key once, have emitted
      `connected` exactly as often as they have a date. */
  ghost predicate Recording(c: Connections, s: Signals) {
    && (forall hop :: hop in c ==> c[hop].config.hopType == hop)
    && (s.pollsDistinct ==>
          forall hop :: hop in c ==> s.emissions[hop] == if c[hop].date.Some? then 1 else 0)
  }

  /** A pending state is polled, unless it was stored and no timer started since. */
  ghost predicate Polling(c: Connections, armed: bool, s: Signals) {
    Recording(c, s) && (Pending(c) ==> armed || s.lapsed)
  }

  lemma StoreKeepsPolling(c: Connections, armed: bool, s: Signals, config: InterfaceConfig)
    requires Polling(c, armed, s)
    ensures Polling(c[config.hopType := ConnectionState(config, None)], armed,
                    SignalEffect(s, Stored(config.hopType)))
  {
  }

  /** What is counted once a switch has given back the old configuration's references: the other
      hops' keys, the new keys, what had leaked, and the old stray keys. */
  ghost function BagAfterSwitch(qt: Parsers, c: Connections, leaked: multiset<IpAddress>, config: InterfaceConfig): multiset<IpAddress>
    requires config.hopType in c
  {
    OtherBag(qt, c, config.hopType) + TextBag(qt, config.excludedAddresses) + leaked
    + StrayBag(qt, c[config.hopType].config.excludedAddresses)
  }

  lemma BagsOfSwitch(other: multiset<IpAddress>, last: multiset<IpAddress>, next: multiset<IpAddress>, leaked: multiset<IpAddress>)
    ensures (other + last) + (leaked + next) == (other + next + leaked) + last
  {
  }

  lemma BagsAreStorable(qt: Parsers, c: Connections, leaked: multiset<IpAddress>, config: InterfaceConfig)
    requires config.hopType in c
    ensures BagAfterSwitch(qt, c, leaked, config)
         == OtherBag(qt, c, config.hopType) + TextBag(qt, config.excludedAddresses)
            + (leaked + StrayBag(qt, c[config.hopType].config.excludedAddresses))
  {
  }

  /** The installed exclusions that are also in `rest`. */
  ghost function InUse(w: World, rest: multiset<IpAddress>): set<IpAddress> {
    set p | p in w.exclusions && p in rest
  }

  /** The network without the old routes and the old peer, as far as they are not the new ones. */
  ghost function WithoutOld(n: Network, last: InterfaceConfig, config: InterfaceConfig): Network {
    n.(routes := n.routes - (ToSet(last.allowedIPAddressRanges) - ToSet(config.allowedIPAddressRanges)),
       peers := n.peers - if config.serverPublicKey != last.serverPublicKey then {last.serverPublicKey} else {})
  }

  /** The network after a switch in which every call succeeds. */
  ghost function Switched(n: Network, last: InterfaceConfig, config: InterfaceConfig): Network {
    WithoutOld(n.(routes := n.routes + ToSet(config.allowedIPAddressRanges),
                  peers := n.peers + {config.serverPublicKey}), last, config)
  }

  /** In a trusted state what a switch keeps is installed, and a stretch that drops nothing keeps it. */
  lemma KeptIsInstalled(w0: World, m0: Counts, qt: Parsers, c: Connections, leaked: multiset<IpAddress>,
                        config: InterfaceConfig, t: Trace, t0: Trace)
    requires w0 == WorldOf(t0) && Ledger(qt, c, m0, leaked, w0.trusted) && Synced(m0, w0)
    requires Throughout(t, t0, w0.exclusions)
    ensures w0.trusted && w0.exclusionCallsOk ==> Throughout(t, t0, Kept(qt, c, config))
  {
    if w0.trusted && w0.exclusionCallsOk {
      forall p | p in Kept(qt, c, config)
        ensures p in w0.exclusions
      {
        assert Count(m0, p) == (StoredBag(qt, c) + leaked)[p];
      }
      ThroughoutWeakens(t, t0, w0.exclusions, Kept(qt, c, config));
    }
  }

  /** A stretch that drops nothing referenced besides the old configuration keeps what a switch keeps. */
  lemma KeptIsInUse(qt: Parsers, c: Connections, leaked: multiset<IpAddress>, config: InterfaceConfig,
                    t2: Trace, t1: Trace, t0: Trace)
    requires Throughout(t1, t0, Kept(qt, c, config))
    requires Throughout(t2, t1, InUse(WorldOf(t1),
               OtherBag(qt, c, config.hopType) + TextBag(qt, config.excludedAddresses) + leaked))
    ensures Throughout(t2, t0, Kept(qt, c, config))
  {
    var rest := OtherBag(qt, c, config.hopType) + TextBag(qt, config.excludedAddresses) + leaked;
    ThroughoutWeakens(t2, t1, InUse(WorldOf(t1), rest), Kept(qt, c, config));
    ThroughoutJoins(t2, t1, t0, Kept(qt, c, config));
  }

  lemma SomeHop(c: Connections)
    requires c != map[]
    ensures SingleHop in c || MultiHopEntry in c || MultiHopExit in c
  {
    var hop :| hop in c;
    assert hop.SingleHop? || hop.MultiHopEntry? || hop.MultiHopExit?;
  }

  /** `m_connections.first()`: the stored state of the lowest hop. */
  function First(c: Connections): ConnectionState
    requires c != map[]
  {
    SomeHop(c);
    if SingleHop in c then c[SingleHop]
    else if MultiHopEntry in c then c[MultiHopEntry]
    else c[MultiHopExit]
  }

  /** The place of a hop type in its enumeration, which is the order of `m_connections`. */
  function Rank(hop: HopType): nat {
    match hop
    case SingleHop => 0
    case MultiHopEntry => 1
    case MultiHopExit => 2
  }

  lemma FirstIsLowest(c: Connections)
    requires c != map[]
    ensures exists hop :: hop in c && First(c) == c[hop] && forall other :: other in c ==> Rank(hop) <= Rank(other)
  {
    SomeHop(c);
    var hop := if SingleHop in c then SingleHop else if MultiHopEntry in c then MultiHopEntry else MultiHopExit;
    forall other | other in c
      ensures Rank(hop) <= Rank(other)
    {
      assert other.SingleHop? || other.MultiHopEntry? || other.MultiHopExit?;
    }
    assert hop in c && First(c) == c[hop];
  }

  /** The primary server comes first. Another server is asked if and only if it is a configured
      secondary one, or the IPv6 gateway while the primary one is the IPv4 gateway. */
  lemma ResolversAre(qt: Parsers, config: InterfaceConfig)
    ensures var r := ResolversFor(qt, config);
            && r[0] == qt.host(config.primaryDnsServer)
            && (forall a :: a in r[1..] <==>
                  || (config.secondaryDnsServer != "" && a == qt.host(config.secondaryDnsServer))
                  || (config.primaryDnsServer == config.serverIpv4Gateway && a == qt.host(config.serverIpv6Gateway)))
            && (config.secondaryDnsServer != "" ==> r[1] == qt.host(config.secondaryDnsServer))
  {
    var r := ResolversFor(qt, config);
    var second := if config.secondaryDnsServer != "" then [qt.host(config.secondaryDnsServer)] else [];
    var third := if config.primaryDnsServer == config.serverIpv4Gateway then [qt.host(config.serverIpv6Gateway)] else [];
    assert r == [qt.host(config.primaryDnsServer)] + second + third;
    assert r[1..] == second + third;
  }

  /** The network after a deactivation in which every call succeeds. */
  ghost function TornDown(n: Network, c: Connections): Network {
    Network(n.routes - RangeSet(c), n.peers - PeerSet(c), Removed(n.iface), None,
            if c == map[] then n.lastRun else Some((Down, First(c).config)))
  }

  ghost function NewResolvers(qt: Parsers, before: Option<seq<HostAddress>>, config: InterfaceConfig): Option<seq<HostAddress>> {
    if HasResolvers(config.hopType) then Some(ResolversFor(qt, config)) else before
  }

  /** The interface after it was asked for: as it is, or created now. */
  function Ensured(i: Interface, config: InterfaceConfig): Interface {
    if i.up then i else Created(i, config)
  }

  /** The network after a first activation of the hop in which every call succeeds. */
  ghost function BroughtUp(qt: Parsers, n: Network, config: InterfaceConfig): Network {
    Network(n.routes + ToSet(config.allowedIPAddressRanges), n.peers + {config.serverPublicKey}, Ensured(n.iface, config),
            NewResolvers(qt, n.resolvers, config), Some((Up, config)))
  }

  /** The network after an activation in which every call succeeds. */
  ghost function Activated(qt: Parsers, n: Network, c: Connections, config: InterfaceConfig): Network {
    if config.hopType !in c then BroughtUp(qt, n, config)
    else if Same(c[config.hopType].config, config) then
      Switched(n, c[config.hopType].config, config)
        .(resolvers := NewResolvers(qt, None, config), lastRun := Some((Switch, config)))
    else BroughtUp(qt, TornDown(n, c), config)
  }

  /** The stored states after a successful activation. */
  ghost function Recorded(c: Connections, config: InterfaceConfig): Connections {
    if config.hopType in c && !Same(c[config.hopType].config, config)
    then map[config.hopType := ConnectionState(config, None)]
    else c[config.hopType := ConnectionState(config, None)]
  }

  /** Entries that were taken for a hop without a state can be stored for it. */
  lemma TakenCanBeStored(qt: Parsers, c: Connections, m: Counts, leaked: multiset<IpAddress>, trusted: bool, config: InterfaceConfig)
    requires config.hopType !in c
    requires Ledger(qt, c, m, leaked + TextBag(qt, config.excludedAddresses), trusted)
    ensures trusted ==>
              Tallies(m, OtherBag(qt, c, config.hopType) + TextBag(qt, config.excludedAddresses) + leaked)
  {
    StoredBagSplits(qt, c, config.hopType);
    assert StoredBag(qt, c) + (leaked + TextBag(qt, config.excludedAddresses))
        == OtherBag(qt, c, config.hopType) + TextBag(qt, config.excludedAddresses) + leaked;
  }

  /** Entries that are stored for a hop can be stored again. */
  lemma StoredCanBeStored(qt: Parsers, c: Connections, m: Counts, leaked: multiset<IpAddress>, trusted: bool, config: InterfaceConfig)
    requires config.hopType in c && c[config.hopType].config == config
    requires Ledger(qt, c, m, leaked, trusted)
    ensures trusted ==>
              Tallies(m, OtherBag(qt, c, config.hopType) + TextBag(qt, config.excludedAddresses) + leaked)
  {
    StoredBagSplits(qt, c, config.hopType);
  }

  /** The daemon's state as a value. */
  datatype Snapshot = Snapshot(connections: Connections, counts: Counts, armed: bool, leaked: multiset<IpAddress>, world: World)

  ghost predicate Switching(c: Connections, config: InterfaceConfig) {
    config.hopType in c && Same(c[config.hopType].config, config)
  }

  /** What a successful activation leaves behind. */
  ghost predicate Succeeded(qt: Parsers, a: Snapshot, b: Snapshot, config: InterfaceConfig) {
    && b.connections == Recorded(a.connections, config)
    && b.armed && !b.world.signals.lapsed
    && b.world.net.lastRun == Some((if Switching(a.connections, config) then Switch else Up, config))
    && (HasResolvers(config.hopType) ==> b.world.net.resolvers == Some(ResolversFor(qt, config)))
    && b.leaked == if config.hopType !in a.connections then a.leaked
                   else if Switching(a.connections, config)
                   then a.leaked + StrayBag(qt, a.connections[config.hopType].config.excludedAddresses)
                   else multiset{}
  }

  /** A failed activation leaves the stored states as they were or empty, unless it failed after
      the switch: then the new state is stored and no poll timer was started for it. */
  ghost predicate Failed(a: Snapshot, b: Snapshot, config: InterfaceConfig) {
    && b.armed == a.armed
    && (|| (b.connections == a.connections && (b.world.signals.lapsed ==> a.world.signals.lapsed))
        || (b.connections == map[] && !b.world.signals.lapsed)
        || PastSwitch(a, b, config))
  }

  /** The activation got as far as storing the switched state, and no timer was started since. */
  ghost predicate PastSwitch(a: Snapshot, b: Snapshot, config: InterfaceConfig) {
    && Switching(a.connections, config)
    && b.connections == a.connections[config.hopType := ConnectionState(config, None)]
    && b.world.signals.lapsed
  }

  /** No assertion was false and no activation failed in between. */
  ghost predicate Undisturbed(a: Snapshot, b: Snapshot) {
    b.world.assertions == a.world.assertions && b.world.signals.failures == a.world.signals.failures
  }

  /** What an activation leaves behind: its result, the assertions it tripped, the network. */
  ghost predicate Outcome(qt: Parsers, a: Snapshot, b: Snapshot, config: InterfaceConfig, ok: bool) {
    && (if ok then Succeeded(qt, a, b, config) else Failed(a, b, config))
    && (b.world.trusted ==>
          || ((ok ==> !Switching(a.connections, config)) && b.world.assertions == a.world.assertions)
          || (&& Switching(a.connections, config)
              && b.world.assertions == a.world.assertions
                   + |StrayBag(qt, a.connections[config.hopType].config.excludedAddresses)|))
    && (Undisturbed(a, b) && a.world.clean ==> b.world.clean)
    && (Switching(a.connections, config) ==> b.world.net.iface == a.world.net.iface)
    && (b.world.allOk ==>
          ok && a.world.allOk && b.world.net == Activated(qt, a.world.net, a.connections, config))
  }

  ghost predicate NothingLeaked(s: Snapshot) {
    s.world.trusted && s.world.clean ==> s.leaked == multiset{}
  }

  /** The part of the invariant that also holds in the middle of an activation. */
  ghost predicate Sound(qt: Parsers, s: Snapshot) {
    && Ledger(qt, s.connections, s.counts, s.leaked, s.world.trusted)
    && Synced(s.counts, s.world)
    && Polling(s.connections, s.armed, s.world.signals)
  }

  /** The state after recording `config` for its hop. */
  ghost function WithStored(s: Snapshot, config: InterfaceConfig, leaked: multiset<IpAddress>): Snapshot {
    s.(connections := s.connections[config.hopType := ConnectionState(config, None)],
       leaked := leaked,
       world := s.world.(signals := SignalEffect(s.world.signals, Stored(config.hopType))))
  }

  /** The counts allow recording `config` for its hop with `leaked` left over. */
  ghost predicate CanStore(qt: Parsers, s: Snapshot, config: InterfaceConfig, leaked: multiset<IpAddress>) {
    && Lawful(qt) && Positive(s.counts) && NULL_KEY !in s.counts
    && Synced(s.counts, s.world) && Polling(s.connections, s.armed, s.world.signals)
    && (s.world.trusted ==>
          Tallies(s.counts, OtherBag(qt, s.connections, config.hopType)
                            + TextBag(qt, config.excludedAddresses) + leaked))
  }

  lemma StoreIsSound(qt: Parsers, s: Snapshot, config: InterfaceConfig, leaked: multiset<IpAddress>)
    requires CanStore(qt, s, config, leaked)
    ensures Sound(qt, WithStored(s, config, leaked))
  {
    StoredBagAfterStore(qt, s.connections, config.hopType, ConnectionState(config, None));
    StoreKeepsPolling(s.connections, s.armed, s.world.signals, config);
  }

  /** The state after starting the poll timer. */
  ghost function WithTimer(s: Snapshot): Snapshot {
    s.(armed := true, world := s.world.(signals := s.world.signals.(lapsed := false)))
  }

  lemma TimerIsSound(qt: Parsers, s: Snapshot)
    requires Sound(qt, s)
    ensures Sound(qt, WithTimer(s))
  {
  }

  /** What activating a hop without a state does, step by step. */
  ghost predicate BringUpSteps(qt: Parsers, a: Snapshot, b: Snapshot, config: InterfaceConfig, ok: bool) {
    && b.world.clean == a.world.clean && b.world.assertions == a.world.assertions
    && (b.world.trusted ==> a.world.trusted) && (b.world.allOk ==> ok && a.world.allOk)
    && b.world.signals.failures == a.world.signals.failures
    && (!ok ==>
          b.connections == a.connections && b.armed == a.armed && b.world.signals == a.world.signals)
    && (ok ==>
          && b.connections == a.connections[config.hopType := ConnectionState(config, None)]
          && b.armed && !b.world.signals.lapsed
          && b.leaked == a.leaked
          && b.world.net == BroughtUp(qt, a.world.net, config).(iface := b.world.net.iface))
    && b.world.net.iface.deleted == a.world.net.iface.deleted
    && (b.world.allOk ==> b.world.net.iface == Ensured(a.world.net.iface, config))
  }

  lemma BringUpMeetsOutcome(qt: Parsers, a: Snapshot, b: Snapshot, config: InterfaceConfig, ok: bool)
    requires config.hopType !in a.connections && NothingLeaked(a)
    requires BringUpSteps(qt, a, b, config, ok)
    ensures Outcome(qt, a, b, config, ok) && (ok ==> NothingLeaked(b))
  {
  }

  /** What the end of an activation by switching does, once the new state is stored. */
  ghost predicate FinishSteps(qt: Parsers, a: Snapshot, b: Snapshot, config: InterfaceConfig, ok: bool) {
    && b.connections == a.connections && b.leaked == a.leaked
    && OnlyNetwork(b.world.(signals := a.world.signals), a.world) && b.world.trusted == a.world.trusted
    && b.world.signals.failures == a.world.signals.failures && b.world.net.iface == a.world.net.iface
    && (!ok ==> !b.world.allOk && b.world.signals == a.world.signals && b.armed == a.armed)
    && (ok ==>
          && b.armed && !b.world.signals.lapsed
          && b.world.net == a.world.net.(resolvers := NewResolvers(qt, None, config), lastRun := Some((Switch, config))))
  }

  /** Storing the stored state again and starting the timer. */
  lemma StoredAgain(qt: Parsers, a: Snapshot, m: Snapshot, config: InterfaceConfig)
    requires config.hopType in a.connections && a.connections[config.hopType] == ConnectionState(config, None)
    requires m == a.(world := m.world) && OnlyNetwork(m.world, a.world) && m.world.trusted == a.world.trusted
    requires m.world.net == a.world.net.(resolvers := NewResolvers(qt, None, config), lastRun := Some((Switch, config)))
    ensures FinishSteps(qt, a, WithTimer(WithStored(m, config, m.leaked)), config, true)
  {
    assert a.connections[config.hopType := ConnectionState(config, None)] == a.connections;
  }

  /** What activating a hop by switching its state does, step by step. */
  ghost predicate SwitchSteps(qt: Parsers, a: Snapshot, b: Snapshot, config: InterfaceConfig, ok: bool)
    requires config.hopType in a.connections
  {
    var last := a.connections[config.hopType].config;
    && (b.world.clean <==> a.world.clean && b.world.assertions == a.world.assertions)
    && (b.world.trusted ==> a.world.trusted) && (b.world.allOk ==> ok && a.world.allOk)
    && b.world.signals.failures == a.world.signals.failures
    && b.world.net.iface == a.world.net.iface
    && (!ok ==>
          && b.armed == a.armed
          && (|| (b.connections == a.connections && b.world.signals == a.world.signals)
              || (&& b.connections == a.connections[config.hopType := ConnectionState(config, None)]
                  && b.world.signals.lapsed)))
    && (ok ==>
          && b.connections == a.connections[config.hopType := ConnectionState(config, None)]
          && b.armed && !b.world.signals.lapsed
          && b.leaked == a.leaked + StrayBag(qt, last.excludedAddresses)
          && b.world.net.lastRun == Some((Switch, config))
          && b.world.net.resolvers == NewResolvers(qt, None, config))
    && (b.world.trusted ==>
          || (!ok && b.world.assertions == a.world.assertions)
          || b.world.assertions == a.world.assertions + |StrayBag(qt, last.excludedAddresses)|)
    && (b.world.allOk ==>
          b.world.net == Switched(a.world.net, last, config)
                           .(resolvers := NewResolvers(qt, None, config), lastRun := Some((Switch, config))))
  }

  lemma SwitchMeetsOutcome(qt: Parsers, a: Snapshot, b: Snapshot, config: InterfaceConfig, ok: bool)
    requires Switching(a.connections, config) && NothingLeaked(a)
    requires SwitchSteps(qt, a, b, config, ok)
    ensures Outcome(qt, a, b, config, ok) && (ok ==> NothingLeaked(b))
  {
  }

  /** The date a poll gives a pending state: the last listed handshake with its key, if any. */
  function LastHandshake(statuses: seq<PeerStatus>, key: string): Option<int> {
    if statuses == [] then None
    else
      var last := statuses[|statuses| - 1];
      if last.pubkey == key && last.handshake != 0 then Some(last.handshake)
      else LastHandshake(statuses[..|statuses| - 1], key)
  }

  /** How many listed handshakes a key has. */
  function Hits(statuses: seq<PeerStatus>, key: string): nat {
    if statuses == [] then 0
    else
      var last := statuses[|statuses| - 1];
      Hits(statuses[..|statuses| - 1], key) + if last.pubkey == key && last.handshake != 0 then 1 else 0
  }

  /** A key that is listed once has as many handshakes as it gets dates. */
  lemma {:induction false} HitsAreDates(statuses: seq<PeerStatus>, key: string)
    ensures Hits(statuses, key) > 0 <==> LastHandshake(statuses, key).Some?
    ensures DistinctKeys(statuses) ==> Hits(statuses, key) <= 1
    ensures (forall i :: 0 <= i < |statuses| ==> statuses[i].pubkey != key) ==> Hits(statuses, key) == 0
  {
    if statuses == [] {
    } else {
      var init := statuses[..|statuses| - 1];
      HitsAreDates(init, key);
      if DistinctKeys(statuses) && statuses[|statuses| - 1].pubkey == key {
        assert forall i :: 0 <= i < |init| ==> init[i].pubkey != key;
      }
    }
  }

  /** The entry lists a handshake of the key. */
  predicate Handshook(status: PeerStatus, key: string) {
    status.pubkey == key && status.handshake != 0
  }

  /** The date is that of the last listed handshake of the key. */
  lemma {:induction false} LastHandshakeIsLast(statuses: seq<PeerStatus>, key: string)
    ensures match LastHandshake(statuses, key)
            case None => forall i :: 0 <= i < |statuses| ==> !Handshook(statuses[i], key)
            case Some(date) =>
              exists i :: 0 <= i < |statuses| && Handshook(statuses[i], key) && statuses[i].handshake == date
                && forall j :: i < j < |statuses| ==> !Handshook(statuses[j], key)
  {
    if statuses == [] {
    } else {
      var n := |statuses| - 1;
      var init := statuses[..n];
      LastHandshakeIsLast(init, key);
      if Handshook(statuses[n], key) {
        assert LastHandshake(statuses, key) == Some(statuses[n].handshake);
      } else if LastHandshake(init, key).Some? {
        var i :| 0 <= i < |init| && Handshook(init[i], key) && init[i].handshake == LastHandshake(init, key).value
                 && forall j :: i < j < |init| ==> !Handshook(init[j], key);
        assert Handshook(statuses[i], key);
        assert forall j :: i < j < |statuses| && j < n ==> statuses[j] == init[j];
      }
    }
  }

  /** A poll never changes a configuration or a date that is there, and the date it gives is that of
      the last listed handshake of the state's own key. */
  lemma PollDates(c: Connections, statuses: seq<PeerStatus>, hop: HopType)
    requires hop in c
    ensures var s, t := c[hop], Dated(c, statuses)[hop];
            && t.config == s.config && (s.date.Some? ==> t.date == s.date)
            && (s.date.None? ==>
                  match t.date
                  case None => forall i :: 0 <= i < |statuses| ==> !Handshook(statuses[i], s.config.serverPublicKey)
                  case Some(date) =>
                    exists i :: 0 <= i < |statuses| && Handshook(statuses[i], s.config.serverPublicKey)
                      && statuses[i].handshake == date
                      && forall j :: i < j < |statuses| ==> !Handshook(statuses[j], s.config.serverPublicKey))
  {
    LastHandshakeIsLast(statuses, c[hop].config.serverPublicKey);
  }

  predicate PendingAt(c: Connections, hop: HopType) {
    hop in c && c[hop].date.None?
  }

  /** A stored state after a poll has looked at it. */
  ghost function DatedState(s: ConnectionState, statuses: seq<PeerStatus>): ConnectionState {
    if s.date.None? then s.(date := LastHandshake(statuses, s.config.serverPublicKey)) else s
  }

  /** The stored states after a poll has looked at one hop, and at all of them. */
  ghost function DatedAt(c: Connections, hop: HopType, statuses: seq<PeerStatus>): Connections {
    if hop in c then c[hop := DatedState(c[hop], statuses)] else c
  }

  ghost function Dated(c: Connections, statuses: seq<PeerStatus>): Connections {
    map hop | hop in c :: DatedState(c[hop], statuses)
  }

  ghost function WithEmissions(w: World, hop: HopType, n: nat): World {
    w.(signals := w.signals.(emissions := w.signals.emissions[hop := w.signals.emissions[hop] + n]))
  }

  lemma EmissionsAddUp(w: World, hop: HopType, m: nat, n: nat)
    ensures WithEmissions(w, hop, 0) == w
    ensures WithEmissions(WithEmissions(w, hop, m), hop, n) == WithEmissions(w, hop, m + n)
  {
    var e := w.signals.emissions;
    assert e[hop := e[hop] + 0] == e;
    assert e[hop := e[hop] + m][hop := e[hop] + m + n] == e[hop := e[hop] + (m + n)];
  }

  /** The peers of the stored states. */
  ghost function PeerKeys(c: Connections): map<HopType, string> {
    map hop | hop in c :: c[hop].config.serverPublicKey
  }

  /** Every `connected` signal after `from` names the peer of its hop. */
  ghost predicate Announced(t: Trace, from: Trace, keys: map<HopType, string>) {
    || t == from
    || (t.Then? && (t.event.Connected? ==> t.event.hop in keys && t.event.key == keys[t.event.hop])
        && Announced(t.prev, from, keys))
  }

  lemma {:induction false} AnnouncedJoins(t2: Trace, t1: Trace, t0: Trace, keys: map<HopType, string>)
    requires Announced(t2, t1, keys) && Announced(t1, t0, keys)
    ensures Announced(t2, t0, keys)
  {
    if t2 == t1 {
    } else {
      AnnouncedJoins(t2.prev, t1, t0, keys);
    }
  }

  lemma AnnouncedThen(t: Trace, from: Trace, event: Event, keys: map<HopType, string>)
    requires Announced(t, from, keys) && !event.Connected?
    ensures Announced(Then(t, event), from, keys)
  {
  }

  lemma {:induction false} AnnouncedOfOne(t: Trace, from: Trace, hop: HopType, keys: map<HopType, string>)
    requires hop in keys && Announced(t, from, map[hop := keys[hop]])
    ensures Announced(t, from, keys)
  {
    if t == from {
    } else {
      AnnouncedOfOne(t.prev, from, hop, keys);
    }
  }

  lemma DatingKeepsKeys(c: Connections, hop: HopType, statuses: seq<PeerStatus>)
    ensures PeerKeys(DatedAt(c, hop, statuses)) == PeerKeys(c)
  {
  }

  /** The connected signals a poll emits for one hop. */
  ghost function HitsAt(c: Connections, hop: HopType, statuses: seq<PeerStatus>): nat {
    if PendingAt(c, hop) then Hits(statuses, c[hop].config.serverPublicKey) else 0
  }

  lemma PollKeepsBagAt(qt: Parsers, c: Connections, statuses: seq<PeerStatus>, hop: HopType)
    ensures BagAt(qt, Dated(c, statuses), hop) == BagAt(qt, c, hop)
  {
    if hop in c {
      assert Dated(c, statuses)[hop].config == c[hop].config;
    }
  }

  lemma PollKeepsLedger(qt: Parsers, c: Connections, m: Counts, leaked: multiset<IpAddress>, trusted: bool, statuses: seq<PeerStatus>)
    requires Ledger(qt, c, m, leaked, trusted)
    ensures Ledger(qt, Dated(c, statuses), m, leaked, trusted)
  {
    PollKeepsBagAt(qt, c, statuses, SingleHop);
    PollKeepsBagAt(qt, c, statuses, MultiHopEntry);
    PollKeepsBagAt(qt, c, statuses, MultiHopExit);
  }

  lemma HitsUndisturbed(c: Connections, polled: HopType, hop: HopType, statuses: seq<PeerStatus>)
    requires polled != hop
    ensures HitsAt(DatedAt(c, polled, statuses), hop, statuses) == HitsAt(c, hop, statuses)
  {
  }

  lemma PendingSomewhere(c: Connections)
    ensures Pending(c) <==> PendingAt(c, SingleHop) || PendingAt(c, MultiHopEntry) || PendingAt(c, MultiHopExit)
  {
    if Pending(c) {
      var hop :| hop in c && c[hop].date.None?;
      assert hop.SingleHop? || hop.MultiHopEntry? || hop.MultiHopExit?;
    }
  }

  lemma DatedHopByHop(c: Connections, statuses: seq<PeerStatus>)
    ensures DatedAt(DatedAt(DatedAt(c, SingleHop, statuses), MultiHopEntry, statuses), MultiHopExit, statuses)
         == Dated(c, statuses)
  {
    var d := DatedAt(DatedAt(DatedAt(c, SingleHop, statuses), MultiHopEntry, statuses), MultiHopExit, statuses);
    forall hop | hop in c
      ensures d[hop] == DatedState(c[hop], statuses)
    {
      assert hop.SingleHop? || hop.MultiHopEntry? || hop.MultiHopExit?;
    }
  }

  ghost function AllEmissions(w: World, c: Connections, statuses: seq<PeerStatus>): World {
    WithEmissions(WithEmissions(WithEmissions(w,
      SingleHop, HitsAt(c, SingleHop, statuses)),
      MultiHopEntry, HitsAt(c, MultiHopEntry, statuses)),
      MultiHopExit, HitsAt(c, MultiHopExit, statuses))
  }

  /** The poll of one hop. */
  ghost predicate PolledAt(w: World, v: World, c: Connections, d: Connections, hop: HopType, statuses: seq<PeerStatus>) {
    d == DatedAt(c, hop, statuses) && v == WithEmissions(w, hop, HitsAt(c, hop, statuses))
  }

  /** The polls of the three hops add up. */
  lemma PollsAddUp(w: World, w1: World, w2: World, w3: World,
                   c: Connections, c1: Connections, c2: Connections, c3: Connections, statuses: seq<PeerStatus>)
    requires PolledAt(w, w1, c, c1, SingleHop, statuses)
    requires PolledAt(w1, w2, c1, c2, MultiHopEntry, statuses)
    requires PolledAt(w2, w3, c2, c3, MultiHopExit, statuses)
    ensures c3 == Dated(c, statuses) && w3 == AllEmissions(w, c, statuses)
    ensures Pending(c3) <==> PendingAt(c1, SingleHop) || PendingAt(c2, MultiHopEntry) || PendingAt(c3, MultiHopExit)
    ensures PeerKeys(c1) == PeerKeys(c) && PeerKeys(c2) == PeerKeys(c) && PeerKeys(c3) == PeerKeys(c)
  {
    DatedHopByHop(c, statuses);
    HitsUndisturbed(c, SingleHop, MultiHopEntry, statuses);
    HitsUndisturbed(c, SingleHop, MultiHopExit, statuses);
    HitsUndisturbed(c1, MultiHopEntry, MultiHopExit, statuses);
    PendingSomewhere(c3);
    DatingKeepsKeys(c, SingleHop, statuses);
    DatingKeepsKeys(c1, MultiHopEntry, statuses);
    DatingKeepsKeys(c2, MultiHopExit, statuses);
  }

  lemma EmissionsPerHop(w: World, c: Connections, statuses: seq<PeerStatus>)
    ensures var v := AllEmissions(w, c, statuses);
            && v == w.(signals := w.signals.(emissions := v.signals.emissions))
            && forall hop :: v.signals.emissions[hop] == w.signals.emissions[hop] + HitsAt(c, hop, statuses)
  {
    var v := AllEmissions(w, c, statuses);
    forall hop: HopType
      ensures v.signals.emissions[hop] == w.signals.emissions[hop] + HitsAt(c, hop, statuses)
    {
      assert hop.SingleHop? || hop.MultiHopEntry? || hop.MultiHopExit?;
    }
  }

  /** A poll emits `connected` once per listed handshake of each pending state, and nothing else. */
  ghost predicate SignalsAfterPoll(s: Signals, s0: Signals, c: Connections, statuses: seq<PeerStatus>) {
    && s.failures == s0.failures && s.disconnects == s0.disconnects
    && s.pollsDistinct == (s0.pollsDistinct && DistinctKeys(statuses))
    && s.lapsed == (s0.lapsed && !Pending(Dated(c, statuses)))
    && forall hop :: s.emissions[hop] == s0.emissions[hop] + HitsAt(c, hop, statuses)
  }

  /** If each key is listed once, a state that has emitted once per date still has after a poll. */
  lemma PollKeepsRecording(c: Connections, s: Signals, s0: Signals, statuses: seq<PeerStatus>)
    requires Recording(c, s0) && SignalsAfterPoll(s, s0, c, statuses)
    ensures Recording(Dated(c, statuses), s)
  {
    if s.pollsDistinct {
      forall hop | hop in c
        ensures s.emissions[hop] == if DatedState(c[hop], statuses).date.Some? then 1 else 0
      {
        HitsAreDates(statuses, c[hop].config.serverPublicKey);
      }
    }
  }

  /** A poll followed by the restart of the timer if a state is still pending. */
  ghost function PolledWorld(w: World, c: Connections, statuses: seq<PeerStatus>): World {
    var v := AllEmissions(w.(signals := SignalEffect(w.signals, Polled(statuses))), c, statuses);
    if Pending(Dated(c, statuses)) then v.(signals := v.signals.(lapsed := false)) else v
  }

  lemma PollSignals(w: World, c: Connections, statuses: seq<PeerStatus>)
    ensures var v := PolledWorld(w, c, statuses);
            v == w.(signals := v.signals) && SignalsAfterPoll(v.signals, w.signals, c, statuses)
  {
    EmissionsPerHop(w.(signals := SignalEffect(w.signals, Polled(statuses))), c, statuses);
  }

  /** The state after a poll. */
  ghost function AfterPoll(a: Snapshot, statuses: seq<PeerStatus>): Snapshot {
    var c := Dated(a.connections, statuses);
    Snapshot(c, a.counts, a.armed || Pending(c), a.leaked, PolledWorld(a.world, a.connections, statuses))
  }

  lemma PollKeepsOrder(qt: Parsers, a: Snapshot, statuses: seq<PeerStatus>)
    requires Ledger(qt, a.connections, a.counts, a.leaked, a.world.trusted) && Synced(a.counts, a.world)
    requires Recording(a.connections, a.world.signals) && NothingLeaked(a)
    ensures var b := AfterPoll(a, statuses);
            && Sound(qt, b) && NothingLeaked(b)
            && b.world == a.world.(signals := b.world.signals)
            && SignalsAfterPoll(b.world.signals, a.world.signals, a.connections, statuses)
  {
    var b := AfterPoll(a, statuses);
    PollSignals(a.world, a.connections, statuses);
    PollKeepsLedger(qt, a.connections, a.counts, a.leaked, a.world.trusted, statuses);
    PollKeepsRecording(a.connections, b.world.signals, a.world.signals, statuses);
  }

  /** A deactivation that went through: nothing is stored or counted any more. */
  ghost predicate Emptied(a: Snapshot, b: Snapshot, emitSignals: bool) {
    && b.connections == map[] && b.counts == map[] && b.leaked == multiset{}
    && b.world.trusted && b.world.clean
    && b.world.signals == a.world.signals.(lapsed := false, disconnects :=
         a.world.signals.disconnects + if emitSignals then 1 else 0)
  }

  /** A deactivation that the `run` hook refused: nothing changed. */
  ghost predicate Refused(a: Snapshot, b: Snapshot) {
    && a.connections != map[]
    && b == a.(world := a.world.(allOk := false))
  }

  /** Deleting the interface comes last, and its result is that of the deactivation. */
  function DeletedIf(i: Interface, ok: bool): Interface {
    if ok then Removed(i) else i
  }

  /** What a deactivation leaves behind. */
  ghost predicate Stopped(a: Snapshot, b: Snapshot, emitSignals: bool, ok: bool) {
    && b.armed == a.armed && b.world.assertions == a.world.assertions
    && (|| (Emptied(a, b, emitSignals) && b.world.net.iface == DeletedIf(a.world.net.iface, ok))
        || (!ok && Refused(a, b)))
    && (b.world.allOk ==>
          && ok && a.world.allOk && b.world.exclusions == {}
          && b.world.net == TornDown(a.world.net, a.connections))
  }

  /** What a deactivation does once the `run` hook agreed. */
  ghost predicate TearDownSteps(a: Snapshot, b: Snapshot, emitSignals: bool, ok: bool) {
    && Emptied(a, b, emitSignals) && b.armed == a.armed && b.world.assertions == a.world.assertions
    && b.world.net.iface == DeletedIf(a.world.net.iface, ok)
    && (b.world.allOk ==>
          && ok && a.world.allOk && b.world.exclusions == {}
          && b.world.net == TornDown(a.world.net, a.connections).(lastRun := a.world.net.lastRun))
  }

  /** What a deactivation does to everything but signals and the interface. */
  ghost predicate CleanUpSteps(a: Snapshot, b: Snapshot) {
    && b.connections == map[] && b.counts == map[] && b.leaked == multiset{} && b.armed == a.armed
    && b.world.trusted && b.world.clean && b.world.assertions == a.world.assertions
    && b.world.signals == a.world.signals.(lapsed := false) && b.world.net.iface == a.world.net.iface
    && (b.world.allOk ==>
          && a.world.allOk
          && b.world.net == a.world.net.(routes := a.world.net.routes - RangeSet(a.connections),
                                         peers := a.world.net.peers - PeerSet(a.connections),
                                         resolvers := None))
  }

  lemma CleanedUpIsTornDown(qt: Parsers, a: Snapshot, b: Snapshot, c: Snapshot, d: Snapshot, emitSignals: bool, ok: bool)
    requires Lawful(qt) && CleanUpSteps(b, c) && Synced(c.counts, c.world)
    requires b == a.(world := a.world.(signals := a.world.signals.(disconnects :=
               a.world.signals.disconnects + if emitSignals then 1 else 0)))
    requires d == c.(world := d.world) && OnlyNetwork(d.world, c.world) && d.world.trusted == c.world.trusted
    requires d.world.net == (if ok then c.world.net.(iface := Removed(c.world.net.iface)) else c.world.net) && (!ok ==> !d.world.allOk)
    ensures Sound(qt, d) && NothingLeaked(d) && TearDownSteps(a, d, emitSignals, ok)
  {
  }

  lemma DownThenTornDown(a: Snapshot, b: Snapshot, c: Snapshot, emitSignals: bool, ok: bool)
    requires b == a.(world := a.world.(net := a.world.net.(lastRun :=
               if a.connections == map[] then a.world.net.lastRun else Some((Down, First(a.connections).config)))))
    requires TearDownSteps(b, c, emitSignals, ok)
    ensures Stopped(a, c, emitSignals, ok)
  {
  }

  lemma StopFailureMeetsOutcome(qt: Parsers, a: Snapshot, b: Snapshot, config: InterfaceConfig)
    requires config.hopType in a.connections && !Switching(a.connections, config)
    requires Stopped(a, b, false, false)
    ensures Outcome(qt, a, b, config, false)
  {
  }

  /** Deactivating and activating again meets the contract of one activation. */
  lemma ReactivateMeetsOutcome(qt: Parsers, a: Snapshot, b: Snapshot, c: Snapshot, config: InterfaceConfig, ok: bool)
    requires config.hopType in a.connections && !Switching(a.connections, config)
    requires Stopped(a, b, false, true) && Outcome(qt, b, c, config, ok)
    ensures Outcome(qt, a, c, config, ok)
  {
  }

  /** The ranges and peers of the hops other than `hop`. */
  ghost function OtherRanges(c: Connections, hop: HopType): set<IpAddress> {
    RangeSet(c - {hop})
  }

  ghost function OtherPeers(c: Connections, hop: HopType): set<string> {
    PeerSet(c - {hop})
  }

  /** The installed prefix routes and peers are exactly what the stored configurations ask for. */
  ghost predicate Exact(s: Snapshot) {
    ExactNet(s.world.net, s.connections)
  }

  /** A switch to `config` gives up no range and no peer that another hop asks for. */
  ghost predicate Undisturbing(c: Connections, config: InterfaceConfig) {
    Switching(c, config) ==>
      && (RangesAt(c, config.hopType) - ToSet(config.allowedIPAddressRanges)) !! OtherRanges(c, config.hopType)
      && (PeersAt(c, config.hopType) - {config.serverPublicKey}) !! OtherPeers(c, config.hopType)
  }

  lemma SetsSplit(c: Connections, hop: HopType)
    ensures RangeSet(c) == RangesAt(c, hop) + OtherRanges(c, hop)
    ensures PeerSet(c) == PeersAt(c, hop) + OtherPeers(c, hop)
  {
    var d := c - {hop};
    assert RangesAt(d, hop) == {} && PeersAt(d, hop) == {};
    match hop
    case SingleHop =>
      assert RangesAt(d, MultiHopEntry) == RangesAt(c, MultiHopEntry) && RangesAt(d, MultiHopExit) == RangesAt(c, MultiHopExit);
      assert PeersAt(d, MultiHopEntry) == PeersAt(c, MultiHopEntry) && PeersAt(d, MultiHopExit) == PeersAt(c, MultiHopExit);
    case MultiHopEntry =>
      assert RangesAt(d, SingleHop) == RangesAt(c, SingleHop) && RangesAt(d, MultiHopExit) == RangesAt(c, MultiHopExit);
      assert PeersAt(d, SingleHop) == PeersAt(c, SingleHop) && PeersAt(d, MultiHopExit) == PeersAt(c, MultiHopExit);
    case MultiHopExit =>
      assert RangesAt(d, SingleHop) == RangesAt(c, SingleHop) && RangesAt(d, MultiHopEntry) == RangesAt(c, MultiHopEntry);
      assert PeersAt(d, SingleHop) == PeersAt(c, SingleHop) && PeersAt(d, MultiHopEntry) == PeersAt(c, MultiHopEntry);
  }

  lemma SetsOfOneHop(c: Connections, hop: HopType)
    requires c.Keys <= {hop}
    ensures RangeSet(c) == RangesAt(c, hop) && PeerSet(c) == PeersAt(c, hop)
  {
    SetsSplit(c, hop);
    assert c - {hop} == map[];
  }

  lemma SetsAfterStore(c: Connections, config: InterfaceConfig)
    ensures var d := c[config.hopType := ConnectionState(config, None)];
            && RangeSet(d) == ToSet(config.allowedIPAddressRanges) + OtherRanges(c, config.hopType)
            && PeerSet(d) == {config.serverPublicKey} + OtherPeers(c, config.hopType)
  {
    var d := c[config.hopType := ConnectionState(config, None)];
    SetsSplit(d, config.hopType);
    assert d - {config.hopType} == c - {config.hopType};
  }

  /** Adding the new and removing what only the old had keeps the rest exactly if no rest is lost. */
  lemma ReplacementIsExact<T>(old_: set<T>, new_: set<T>, rest: set<T>)
    ensures (old_ + rest) + new_ - (old_ - new_) == new_ + rest <==> (old_ - new_) !! rest
  {
    if (old_ - new_) !! rest {
      assert (old_ + rest) + new_ - (old_ - new_) == new_ + rest;
    } else {
      var x :| x in old_ - new_ && x in rest;
      assert x in new_ + rest && x !in (old_ + rest) + new_ - (old_ - new_);
    }
  }

  ghost predicate ExactNet(n: Network, c: Connections) {
    n.routes == RangeSet(c) && n.peers == PeerSet(c)
  }

  lemma SwitchExactness(n: Network, c: Connections, config: InterfaceConfig)
    requires ExactNet(n, c) && Switching(c, config)
    ensures ExactNet(Switched(n, c[config.hopType].config, config),
                     c[config.hopType := ConnectionState(config, None)])
       <==> Undisturbing(c, config)
  {
    var hop := config.hopType;
    SetsSplit(c, hop);
    SetsAfterStore(c, config);
    ReplacementIsExact(RangesAt(c, hop), ToSet(config.allowedIPAddressRanges), OtherRanges(c, hop));
    ReplacementIsExact(PeersAt(c, hop), {config.serverPublicKey}, OtherPeers(c, hop));
  }

  lemma BringUpExactness(qt: Parsers, n: Network, c: Connections, config: InterfaceConfig)
    requires ExactNet(n, c) && config.hopType !in c
    ensures ExactNet(BroughtUp(qt, n, config), c[config.hopType := ConnectionState(config, None)])
  {
    SetsAfterStore(c, config);
    assert c - {config.hopType} == c;
  }

  /** When every backend call succeeds, an activation from an exact state ends in an exact state
      if and only if it gives up nothing that another hop asks for. */
  lemma ActivationExactness(qt: Parsers, n: Network, c: Connections, config: InterfaceConfig)
    requires ExactNet(n, c)
    ensures ExactNet(Activated(qt, n, c, config), Recorded(c, config)) <==> Undisturbing(c, config)
  {
    if Switching(c, config) {
      SwitchExactness(n, c, config);
    } else if config.hopType in c {
      BringUpExactness(qt, TornDown(n, c), map[], config);
      assert Recorded(c, config) == (var none: Connections := map[]; none[config.hopType := ConnectionState(config, None)]);
    } else {
      BringUpExactness(qt, n, c, config);
    }
  }

  /** If deleting the old peer fails in a switch, the old configuration stays stored although its
      references were given back. The counts still cover the stored configurations if and only if
      the old plain entries are made up for by the new configuration's and the leaked ones. */
  lemma FailedPeerDeletion(qt: Parsers, c: Connections, m: Counts, leaked: multiset<IpAddress>, config: InterfaceConfig)
    requires config.hopType in c && Tallies(m, BagAfterSwitch(qt, c, leaked, config))
    ensures (forall p :: Count(m, p) >= StoredBag(qt, c)[p])
       <==> PlainBag(qt, c[config.hopType].config.excludedAddresses)
            <= leaked + TextBag(qt, config.excludedAddresses)
  {
    var entries := c[config.hopType].config.excludedAddresses;
    var spare := leaked + TextBag(qt, config.excludedAddresses);
    StoredBagSplits(qt, c, config.hopType);
    BagSplits(qt, entries);
    forall p
      ensures Count(m, p) == StoredBag(qt, c)[p] + spare[p] - PlainBag(qt, entries)[p]
    {
      assert Count(m, p) == BagAfterSwitch(qt, c, leaked, config)[p];
    }
    if forall p :: Count(m, p) >= StoredBag(qt, c)[p] {
      forall p
        ensures PlainBag(qt, entries)[p] <= spare[p]
      {
        assert Count(m, p) >= StoredBag(qt, c)[p];
      }
    }
  }

  /** A configuration with nothing in it but a key. */
  function Bare(hop: HopType, key: string): InterfaceConfig {
    InterfaceConfig(hop, "", "", "", "", "", key, "", "", "", 0, 0, "", "", [], [], [], [], false, map[], map[])
  }

  lemma OnePlainHost(qt: Parsers, host: string)
    requires Plain(qt, host)
    ensures TextBag(qt, [host]) == multiset{FromText(qt, host)} && StrayBag(qt, [host]) == multiset{}
  {
    assert [host][..0] == [];
  }

  /** The old configuration excludes one plain host, the new one nothing, and nothing had leaked: after
      the failed deletion the stored configuration's reference is not counted. */
  lemma FailedPeerDeletionUncovers(qt: Parsers, host: string)
    requires Plain(qt, host)
    ensures var c: Connections := map[SingleHop := ConnectionState(Bare(SingleHop, "old").(excludedAddresses := [host]), None)];
            var m: Counts := map[];
            && Tallies(m, BagAfterSwitch(qt, c, multiset{}, Bare(SingleHop, "new")))
            && Count(m, FromText(qt, host)) < StoredBag(qt, c)[FromText(qt, host)]
  {
    var c: Connections := map[SingleHop := ConnectionState(Bare(SingleHop, "old").(excludedAddresses := [host]), None)];
    OnePlainHost(qt, host);
    assert c[SingleHop].config.excludedAddresses == [host];
    assert OtherBag(qt, c, SingleHop) == multiset{} && TextBag(qt, []) == multiset{};
    assert BagAt(qt, c, SingleHop) == multiset{FromText(qt, host)};
  }

  /** Two hops route the same range. Switching one of them to a configuration without it takes the
      range away from the other. */
  lemma SharedRangeIsLost(qt: Parsers, range: IpAddress)
    ensures var entry, exit := Bare(MultiHopEntry, "a").(allowedIPAddressRanges := [range]),
                               Bare(MultiHopExit, "b").(allowedIPAddressRanges := [range]);
            var c: Connections := map[MultiHopEntry := ConnectionState(entry, None), MultiHopExit := ConnectionState(exit, None)];
            var n := Network({range}, {"a", "b"}, Interface(true, None, 1, 0), None, None);
            var config := Bare(MultiHopEntry, "a");
            && ExactNet(n, c) && Switching(c, config) && !Undisturbing(c, config)
            && range in RangesAt(Recorded(c, config), MultiHopExit)
            && range !in Activated(qt, n, c, config).routes
  {
    var entry, exit := Bare(MultiHopEntry, "a").(allowedIPAddressRanges := [range]),
                       Bare(MultiHopExit, "b").(allowedIPAddressRanges := [range]);
    var c: Connections := map[MultiHopEntry := ConnectionState(entry, None), MultiHopExit := ConnectionState(exit, None)];
    assert ToSet([range]) == {range};
    assert range in RangesAt(c, MultiHopEntry) && range in RangesAt(c - {MultiHopEntry}, MultiHopExit);
    assert RangeSet(c) == {range} && PeerSet(c) == {"a", "b"};
  }
}
