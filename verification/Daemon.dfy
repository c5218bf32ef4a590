/** The WireGuard daemon: activation, server switching, deactivation and handshake polling
    over a backend each of whose calls may fail. */
module DaemonMachine {
  import opened Addresses
  import opened InterfaceConfigs
  import opened DaemonEvents
  import opened DaemonFrames
  import opened ExclusionCounts
  import opened DaemonStates

  class Daemon {
    const qt: Parsers
    const supportsIpUtils: bool
    var connections: Connections
    var excluded: Counts
    var timerArmed: bool
    ghost var trace: Trace
    /** Keys that are counted but held by no stored configuration. */
    ghost var leaked: multiset<IpAddress>

    ghost function W(): World reads this {
      WorldOf(trace)
    }

    ghost function Now(): Snapshot reads this {
      Snapshot(connections, excluded, timerArmed, leaked, W())
    }

    ghost predicate Core() reads this {
      Sound(qt, Now())
    }

    ghost predicate Valid() reads this {
      Core() && NothingLeaked(Now())
    }

    constructor (qt: Parsers, supportsIpUtils: bool)
      requires Lawful(qt)
      ensures Valid() && trace == Start && connections == map[] && excluded == map[] && !timerArmed
      ensures this.qt == qt && this.supportsIpUtils == supportsIpUtils
    {
      this.qt, this.supportsIpUtils := qt, supportsIpUtils;
      connections, excluded, timerArmed := map[], map[], false;
      trace, leaked := Start, multiset{};
    }

    /** A backend call: its result is arbitrary. */
    method Invoke(op: Op) returns (ok: bool)
      modifies this`trace
      ensures trace == Then(old(trace), Call(op, ok)) && W() == CallEffect(old(W()), op, ok)
    {
      ok := *;
      trace := Then(trace, Call(op, ok));
    }

    /** A backend call that is not about exclusion routes. */
    method InvokeNetwork(op: Op) returns (ok: bool)
      requires !op.AddExclusion? && !op.DeleteExclusion?
      modifies this`trace
      ensures trace == Then(old(trace), Call(op, ok))
      ensures OnlyNetwork(W(), old(W()))
      ensures W().net == NetworkEffect(old(W().net), op, ok)
      ensures !ok && !op.InterfaceExists? ==> !W().allOk
      ensures W().allOk && op.InterfaceExists? ==> ok == old(W().net.iface.up)
      ensures W().trusted == (old(W().trusted) && (ok || !op.DeletePeer?))
      ensures Throughout(trace, old(trace), old(W().exclusions))
    {
      ok := Invoke(op);
    }

    /** `Q_ASSERT` in a build that goes on after a false assertion. */
    method QAssert(condition: bool)
      modifies this`trace
      ensures condition ==> trace == old(trace)
      ensures !condition ==>
                && trace == Then(old(trace), AssertionFailed)
                && W() == old(W()).(assertions := old(W()).assertions + 1, clean := false)
    {
      if !condition {
        trace := Then(trace, AssertionFailed);
      }
    }

    method AddExclusionRoute(prefix: IpAddress) returns (ok: bool)
      modifies this`trace, this`excluded
      ensures OnlyExclusions(W(), old(W())) && W().assertions == old(W().assertions)
      ensures excluded == if ok then Raise(old(excluded), prefix) else old(excluded)
      ensures !ok ==> !W().trusted
      ensures W().exclusionCallsOk && old(W().exclusions == excluded.Keys) ==> W().exclusions == excluded.Keys
      ensures Throughout(trace, old(trace), old(W().exclusions))
    {
      if prefix in excluded {
        excluded := excluded[prefix := excluded[prefix] + 1];
        return true;
      }
      var added := Invoke(AddExclusion(prefix));
      if !added {
        return false;
      }
      excluded := excluded[prefix := 1];
      return true;
    }

    method DelExclusionRoute(prefix: IpAddress, ghost kept: set<IpAddress>) returns (ok: bool)
      requires kept <= W().exclusions && (prefix in kept ==> Count(excluded, prefix) > 1)
      modifies this`trace, this`excluded
      ensures OnlyExclusions(W(), old(W())) && W().trusted == old(W().trusted)
      ensures W().assertions == old(W().assertions) + if prefix in old(excluded) then 0 else 1
      ensures excluded == Lower(old(excluded), prefix)
      ensures W().exclusionCallsOk && old(W().exclusions == excluded.Keys) ==> W().exclusions == excluded.Keys
      ensures Throughout(trace, old(trace), kept)
    {
      QAssert(prefix in excluded);
      if prefix in excluded && excluded[prefix] > 1 {
        excluded := excluded[prefix := excluded[prefix] - 1];
        return true;
      }
      excluded := excluded - {prefix};
      ok := Invoke(DeleteExclusion(prefix));
    }

    method AddExclusions(entries: seq<string>)
      requires NULL_KEY !in excluded && Positive(excluded) && Lawful(qt)
      modifies this`trace, this`excluded
      ensures NULL_KEY !in excluded && Positive(excluded)
      ensures OnlyExclusions(W(), old(W())) && W().assertions == old(W().assertions)
      ensures W().trusted ==> excluded == RaiseAll(old(excluded), qt, entries)
      ensures W().exclusionCallsOk && old(W().exclusions == excluded.Keys) ==> W().exclusions == excluded.Keys
      ensures Throughout(trace, old(trace), old(W().exclusions))
    {
      ghost var kept := W().exclusions;
      for i := 0 to |entries|
        invariant NULL_KEY !in excluded && Positive(excluded)
        invariant OnlyExclusions(W(), old(W())) && W().assertions == old(W().assertions)
        invariant W().trusted ==> excluded == RaiseAll(old(excluded), qt, entries[..i])
        invariant W().exclusionCallsOk && old(W().exclusions == excluded.Keys) ==> W().exclusions == excluded.Keys
        invariant Throughout(trace, old(trace), kept)
      {
        KeysAgreeExactlyWhenPlain(qt, entries[i]);
        LowerAllStep(old(excluded), qt, entries, i);
        ghost var t := trace;
        var _ := AddExclusionRoute(FromText(qt, entries[i]));
        ThroughoutExtends(trace, t, old(trace), kept);
      }
      assert entries[..|entries|] == entries;
    }

    /** Removal under the host keys; `kept` are installed prefixes that never lose their last reference. */
    method DelExclusions(entries: seq<string>, ghost kept: set<IpAddress>)
      requires kept <= W().exclusions && Survives(excluded, qt, entries, kept)
      modifies this`trace, this`excluded
      ensures OnlyExclusions(W(), old(W())) && W().trusted == old(W().trusted)
      ensures W().assertions == old(W().assertions) + Misses(old(excluded), qt, entries)
      ensures excluded == LowerAll(old(excluded), qt, entries)
      ensures W().exclusionCallsOk && old(W().exclusions == excluded.Keys) ==> W().exclusions == excluded.Keys
      ensures Throughout(trace, old(trace), kept)
    {
      for i := 0 to |entries|
        invariant OnlyExclusions(W(), old(W())) && W().trusted == old(W().trusted)
        invariant W().assertions == old(W().assertions) + Misses(old(excluded), qt, entries[..i])
        invariant excluded == LowerAll(old(excluded), qt, entries[..i])
        invariant W().exclusionCallsOk && old(W().exclusions == excluded.Keys) ==> W().exclusions == excluded.Keys
        invariant Throughout(trace, old(trace), kept)
      {
        LowerAllStep(old(excluded), qt, entries, i);
        ghost var t := trace;
        var _ := DelExclusionRoute(HostKey(qt, entries[i]), kept);
        ThroughoutJoins(trace, t, old(trace), kept);
      }
      assert entries[..|entries|] == entries;
    }

    /** The entries are counted, and held by no stored configuration yet. */
    method TakeExclusions(entries: seq<string>)
      requires Ledger(qt, connections, excluded, leaked, W().trusted) && Synced(excluded, W())
      modifies this`trace, this`excluded, this`leaked
      ensures Ledger(qt, connections, excluded, leaked, W().trusted) && Synced(excluded, W())
      ensures leaked == old(leaked) + TextBag(qt, entries)
      ensures OnlyExclusions(W(), old(W())) && W().assertions == old(W().assertions)
      ensures Throughout(trace, old(trace), old(W().exclusions))
    {
      ghost var bag := StoredBag(qt, connections) + leaked;
      AddExclusions(entries);
      leaked := leaked + TextBag(qt, entries);
      if W().trusted {
        RaisedTally(old(excluded), qt, entries, bag);
        assert StoredBag(qt, connections) + leaked == bag + TextBag(qt, entries);
      }
    }

    /** The entries' references are given back, all but the stray ones, each of which trips the
        assertion; what is installed and referenced besides stays installed throughout. */
    method ReturnExclusions(entries: seq<string>, ghost rest: multiset<IpAddress>)
      requires Lawful(qt) && Positive(excluded) && NULL_KEY !in excluded && Synced(excluded, W())
      requires W().trusted ==> Tallies(excluded, rest + TextBag(qt, entries))
      modifies this`trace, this`excluded
      ensures Positive(excluded) && NULL_KEY !in excluded && Synced(excluded, W())
      ensures OnlyExclusions(W(), old(W())) && W().trusted == old(W().trusted)
      ensures W().trusted ==>
                && Tallies(excluded, rest + StrayBag(qt, entries))
                && W().assertions == old(W().assertions) + |StrayBag(qt, entries)|
                && Throughout(trace, old(trace), InUse(old(W()), rest))
    {
      ghost var kept := if W().trusted then InUse(W(), rest) else {};
      LowerAllKeeps(excluded, qt, entries);
      if W().trusted {
        RestSurvives(excluded, qt, entries, rest, kept);
        LoweredTally(excluded, qt, entries, rest);
      }
      DelExclusions(entries, kept);
    }

    /** Sets the prefix routes in turn and stops at the first that fails. */
    method UpdateRoutes(ranges: seq<IpAddress>) returns (ok: bool)
      modifies this`trace
      ensures OnlyRoutes(W(), old(W()))
      ensures ok ==> W().net.routes == old(W().net.routes) + ToSet(ranges)
      ensures !ok ==> !W().allOk
      ensures Throughout(trace, old(trace), old(W().exclusions))
    {
      for i := 0 to |ranges|
        invariant OnlyRoutes(W(), old(W()))
        invariant W().net.routes == old(W().net.routes) + ToSet(ranges[..i])
        invariant Throughout(trace, old(trace), old(W().exclusions))
      {
        var updated := Invoke(UpdateRoutePrefix(ranges[i]));
        if !updated {
          return false;
        }
        assert ToSet(ranges[..i + 1]) == ToSet(ranges[..i]) + {ranges[i]};
      }
      assert ranges[..|ranges|] == ranges;
      return true;
    }

    /** Removes the prefix routes that are not among `keep`. */
    method DeleteRoutes(ranges: seq<IpAddress>, keep: seq<IpAddress>)
      modifies this`trace
      ensures OnlyRoutes(W(), old(W()))
      ensures W().allOk ==> W().net.routes == old(W().net.routes) - (ToSet(ranges) - ToSet(keep))
      ensures Throughout(trace, old(trace), old(W().exclusions))
    {
      for i := 0 to |ranges|
        invariant OnlyRoutes(W(), old(W()))
        invariant W().allOk ==>
                    W().net.routes == old(W().net.routes) - (ToSet(ranges[..i]) - ToSet(keep))
        invariant Throughout(trace, old(trace), old(W().exclusions))
      {
        assert ToSet(ranges[..i + 1]) == ToSet(ranges[..i]) + {ranges[i]};
        if ranges[i] !in keep {
          var _ := Invoke(DeleteRoutePrefix(ranges[i]));
        }
      }
      assert ranges[..|ranges|] == ranges;
    }

    /** Records a fresh state for the configuration's hop. */
    method Store(config: InterfaceConfig, ghost newLeaked: multiset<IpAddress>)
      requires CanStore(qt, Now(), config, newLeaked)
      modifies this`trace, this`connections, this`leaked
      ensures Core() && Now() == WithStored(old(Now()), config, newLeaked)
      ensures trace == Then(old(trace), Stored(config.hopType))
    {
      StoreIsSound(qt, Now(), config, newLeaked);
      connections := connections[config.hopType := ConnectionState(config, None)];
      leaked := newLeaked;
      trace := Then(trace, Stored(config.hopType));
    }

    /** `switchServer` up to the removal of the old entries; they are still counted afterwards. */
    method InstallNew(config: InterfaceConfig) returns (ok: bool)
      requires Ledger(qt, connections, excluded, leaked, W().trusted) && Synced(excluded, W())
      modifies this`trace, this`excluded, this`leaked
      ensures Ledger(qt, connections, excluded, leaked, W().trusted) && Synced(excluded, W())
      ensures leaked == old(leaked) + TextBag(qt, config.excludedAddresses)
      ensures Forward(W(), old(W())) && W().assertions == old(W().assertions)
      ensures W().exclusionCallsOk && old(W().trusted) ==> W().trusted
      ensures W().net == if ok
                         then old(W().net).(routes := W().net.routes,
                                            peers := old(W().net.peers) + {config.serverPublicKey})
                         else old(W().net)
      ensures W().allOk ==>
                ok && W().net.routes == old(W().net.routes) + ToSet(config.allowedIPAddressRanges)
      ensures Throughout(trace, old(trace), old(W().exclusions))
    {
      ghost var kept := W().exclusions;
      TakeExclusions(config.excludedAddresses);
      ghost var t := trace;
      ok := InvokeNetwork(UpdatePeer(config.serverPublicKey));
      ThroughoutExtends(trace, t, old(trace), kept);
      if !ok {
        return;
      }
      t := trace;
      var _ := UpdateRoutes(config.allowedIPAddressRanges);
      ThroughoutExtends(trace, t, old(trace), kept);
    }

    /** The end of `switchServer`: the old routes and the old peer go, unless they are also the new. */
    method DropOldPeer(last: InterfaceConfig, config: InterfaceConfig) returns (ok: bool)
      modifies this`trace
      ensures OnlyNetwork(W(), old(W()))
      ensures W().trusted == (old(W().trusted) && ok)
      ensures W().net == old(W().net).(routes := W().net.routes, peers := W().net.peers)
      ensures W().allOk ==> ok && W().net == WithoutOld(old(W().net), last, config)
      ensures Throughout(trace, old(trace), old(W().exclusions))
    {
      DeleteRoutes(last.allowedIPAddressRanges, config.allowedIPAddressRanges);
      ok := true;
      if config.serverPublicKey != last.serverPublicKey {
        ghost var t := trace;
        ok := InvokeNetwork(DeletePeer(last.serverPublicKey));
        ThroughoutExtends(trace, t, old(trace), old(W().exclusions));
      }
    }

    /** `switchServer` from the removal of the old entries to the removal of the old peer. */
    method RemoveOld(last: InterfaceConfig, config: InterfaceConfig, ghost rest: multiset<IpAddress>) returns (ok: bool)
      requires Lawful(qt) && Positive(excluded) && NULL_KEY !in excluded && Synced(excluded, W())
      requires W().trusted ==> Tallies(excluded, rest + TextBag(qt, last.excludedAddresses))
      modifies this`trace, this`excluded
      ensures Positive(excluded) && NULL_KEY !in excluded && Synced(excluded, W())
      ensures Forward(W(), old(W())) && (ok ==> W().trusted == old(W().trusted)) && (!ok ==> !W().trusted)
      ensures old(W().trusted) ==>
                && Tallies(excluded, rest + StrayBag(qt, last.excludedAddresses))
                && W().assertions == old(W().assertions) + |StrayBag(qt, last.excludedAddresses)|
                && Throughout(trace, old(trace), InUse(old(W()), rest))
      ensures W().net == old(W().net).(routes := W().net.routes, peers := W().net.peers)
      ensures W().allOk ==> ok && W().net == WithoutOld(old(W().net), last, config)
    {
      ReturnExclusions(last.excludedAddresses, rest);
      ghost var t := trace;
      ok := DropOldPeer(last, config);
      if old(W().trusted) {
        ThroughoutExtends(trace, t, old(trace), InUse(old(W()), rest));
      }
    }

    /** `switchServer` up to the new state: what is not given back is leaked, and no exclusion in
        use is dropped on the way. */
    method ExchangePeer(config: InterfaceConfig, last: InterfaceConfig) returns (ok: bool)
      requires Core() && config.hopType in connections && last == connections[config.hopType].config
      modifies this`trace, this`excluded, this`leaked
      ensures Positive(excluded) && NULL_KEY !in excluded && Synced(excluded, W())
      ensures Forward(W(), old(W()))
      ensures !ok ==> Ledger(qt, connections, excluded, leaked, W().trusted)
      ensures !ok && W().trusted ==> W().assertions == old(W().assertions)
      ensures ok ==> leaked == old(leaked) + StrayBag(qt, last.excludedAddresses)
      ensures ok && W().trusted ==>
                W().assertions == old(W().assertions) + |StrayBag(qt, last.excludedAddresses)|
      ensures W().exclusionCallsOk && old(W().trusted) ==>
                && Throughout(trace, old(trace), Kept(qt, connections, config))
                && (!W().trusted ==> !ok && Tallies(excluded, BagAfterSwitch(qt, connections, old(leaked), config)))
      ensures ok && W().trusted ==> Tallies(excluded, BagAfterSwitch(qt, connections, old(leaked), config))
      ensures W().net == old(W().net).(routes := W().net.routes, peers := W().net.peers)
      ensures W().allOk ==> ok && W().net == Switched(old(W().net), last, config)
    {
      ghost var other := OtherBag(qt, connections, config.hopType);
      ghost var rest := other + TextBag(qt, config.excludedAddresses) + leaked;
      StoredBagSplits(qt, connections, config.hopType);

      ok := InstallNew(config);
      ghost var t := trace;
      KeptIsInstalled(old(W()), old(excluded), qt, connections, old(leaked), config, t, old(trace));
      if !ok {
        return;
      }
      leaked := old(leaked) + StrayBag(qt, last.excludedAddresses);
      BagsOfSwitch(other, TextBag(qt, last.excludedAddresses), TextBag(qt, config.excludedAddresses), old(leaked));
      ok := RemoveOld(last, config, rest);
      if W().exclusionCallsOk && old(W().trusted) {
        KeptIsInUse(qt, connections, old(leaked), config, trace, t, old(trace));
      }
    }

    method SwitchServer(config: InterfaceConfig) returns (ok: bool)
      requires Core() && config.hopType in connections
      modifies this`trace, this`excluded, this`connections, this`leaked
      ensures Core()
      // the stored state
      ensures connections == if ok then old(connections)[config.hopType := ConnectionState(config, None)]
                             else old(connections)
      ensures W().signals == if ok then SignalEffect(old(W().signals), Stored(config.hopType))
                             else old(W().signals)
      // the counts: what is not given back is leaked
      ensures ok ==> leaked == old(leaked) + StrayBag(qt, old(connections)[config.hopType].config.excludedAddresses)
      ensures ok && W().trusted ==>
                W().assertions == old(W().assertions)
                  + |StrayBag(qt, old(connections)[config.hopType].config.excludedAddresses)|
      ensures !ok && W().trusted ==> W().assertions == old(W().assertions)
      ensures W().clean <==> old(W().clean) && W().assertions == old(W().assertions)
      ensures W().trusted ==> old(W().trusted)
      ensures W().allOk ==> old(W().allOk)
      // no exclusion in use is dropped on the way
      ensures W().exclusionCallsOk && old(W().trusted) ==>
                Throughout(trace, old(trace), old(Kept(qt, connections, config)))
      // the old peer could not be deleted: its references are given back all the same
      ensures W().exclusionCallsOk && old(W().trusted) && !W().trusted ==>
                !ok && Tallies(excluded, old(BagAfterSwitch(qt, connections, leaked, config)))
      // the network
      ensures W().net == old(W().net).(routes := W().net.routes, peers := W().net.peers)
      ensures W().allOk ==> ok && W().net == Switched(old(W().net), old(connections)[config.hopType].config, config)
    {
      ok := ExchangePeer(config, connections[config.hopType].config);
      if ok {
        BagsAreStorable(qt, connections, old(leaked), config);
        Store(config, leaked);
      }
    }

    method MaybeUpdateResolvers(config: InterfaceConfig) returns (ok: bool)
      modifies this`trace
      ensures OnlyNetwork(W(), old(W())) && W().trusted == old(W().trusted)
      ensures !ok ==> !W().allOk
      ensures W().net == if ok && HasResolvers(config.hopType)
                         then old(W().net).(resolvers := Some(ResolversFor(qt, config))) else old(W().net)
    {
      ok := true;
      if config.hopType == MultiHopExit || config.hopType == SingleHop {
        var resolvers := [qt.host(config.primaryDnsServer)];
        if config.secondaryDnsServer != "" {
          resolvers := resolvers + [qt.host(config.secondaryDnsServer)];
        }
        // a resolver that is not the gateway was chosen by the user and stands alone
        if config.primaryDnsServer == config.serverIpv4Gateway {
          resolvers := resolvers + [qt.host(config.serverIpv6Gateway)];
        }
        assert resolvers == ResolversFor(qt, config);
        ok := InvokeNetwork(UpdateResolvers(resolvers));
      }
    }

    method DropConnection(hop: HopType)
      modifies this`trace
      ensures OnlyNetwork(W(), old(W()))
      ensures W().net == old(W().net).(routes := W().net.routes, peers := W().net.peers)
      ensures W().allOk ==>
                && W().net.routes == old(W().net.routes) - RangesAt(connections, hop)
                && W().net.peers == old(W().net.peers) - PeersAt(connections, hop)
    {
      if hop in connections {
        DeleteRoutes(connections[hop].config.allowedIPAddressRanges, []);
        var _ := InvokeNetwork(DeletePeer(connections[hop].config.serverPublicKey));
      }
    }

    /** Deletes the routes and the peer of every stored configuration, in key order. */
    method DropConnections()
      modifies this`trace
      ensures OnlyNetwork(W(), old(W()))
      ensures W().net == old(W().net).(routes := W().net.routes, peers := W().net.peers)
      ensures W().allOk ==>
                && W().net.routes == old(W().net.routes) - RangeSet(connections)
                && W().net.peers == old(W().net.peers) - PeerSet(connections)
    {
      DropConnection(SingleHop);
      DropConnection(MultiHopEntry);
      DropConnection(MultiHopExit);
    }

    method DropExclusion(prefix: IpAddress)
      modifies this`trace
      ensures OnlyExclusions(W(), old(W())) && W().assertions == old(W().assertions)
      ensures W().exclusionCallsOk ==> W().exclusions == old(W().exclusions) - {prefix}
    {
      var _ := Invoke(DeleteExclusion(prefix));
    }

    /** Deletes every counted exclusion route. */
    method DropExclusions()
      modifies this`trace
      ensures OnlyExclusions(W(), old(W())) && W().assertions == old(W().assertions)
      ensures W().exclusionCallsOk ==> W().exclusions == old(W().exclusions) - excluded.Keys
    {
      var todo := excluded.Keys;
      while todo != {}
        invariant todo <= excluded.Keys
        invariant OnlyExclusions(W(), old(W())) && W().assertions == old(W().assertions)
        invariant W().exclusionCallsOk ==> W().exclusions == old(W().exclusions) - (excluded.Keys - todo)
        decreases |todo|
      {
        var prefix :| prefix in todo;
        todo := todo - {prefix};
        DropExclusion(prefix);
      }
    }

    /** Removes everything that stored configurations and counts account for; nothing stops it. */
    method CleanUp()
      requires Synced(excluded, W())
      modifies this`trace, this`excluded, this`connections, this`leaked
      ensures Synced(excluded, W()) && CleanUpSteps(old(Now()), Now())
    {
      var _ := InvokeNetwork(RestoreResolvers);
      DropConnections();
      DropExclusions();
      excluded, connections := map[], map[];
      leaked := multiset{};
      trace := Then(trace, Cleared);
    }

    /** The `run` hook on the first stored configuration, if there is one. */
    method RunDown() returns (ok: bool)
      modifies this`trace
      ensures !ok ==> connections != map[] && W() == old(W()).(allOk := false)
      ensures ok ==> W() == old(W()).(net := old(W().net).(lastRun :=
                if connections == map[] then old(W().net.lastRun) else Some((Down, First(connections).config))))
    {
      ok := true;
      if connections != map[] {
        ok := Invoke(Run(Down, First(connections).config));
      }
    }

    method EmitDisconnected(emitSignals: bool)
      modifies this`trace
      ensures W() == old(W()).(signals := W().signals)
      ensures W().signals == old(W().signals).(disconnects :=
                old(W().signals.disconnects) + if emitSignals then 1 else 0)
    {
      if emitSignals {
        trace := Then(trace, Disconnected);
      }
    }

    method Deactivate(emitSignals: bool) returns (ok: bool)
      requires Valid()
      modifies this`trace, this`excluded, this`connections, this`leaked
      ensures Valid() && Stopped(old(Now()), Now(), emitSignals, ok)
    {
      ok := RunDown();
      if !ok {
        return;
      }
      ghost var between := Now();
      ok := TearDown(emitSignals);
      DownThenTornDown(old(Now()), between, Now(), emitSignals, ok);
    }

    /** A deactivation once the `run` hook agreed. */
    method TearDown(emitSignals: bool) returns (ok: bool)
      requires Lawful(qt) && Synced(excluded, W())
      modifies this`trace, this`excluded, this`connections, this`leaked
      ensures Valid() && TearDownSteps(old(Now()), Now(), emitSignals, ok)
    {
      EmitDisconnected(emitSignals);
      ghost var before := Now();
      CleanUp();
      ghost var after := Now();
      ok := InvokeNetwork(DeleteInterface);
      CleanedUpIsTornDown(qt, old(Now()), before, after, Now(), emitSignals, ok);
    }

    method StartTimer()
      requires Core()
      modifies this`trace, this`timerArmed
      ensures Core() && Now() == WithTimer(old(Now()))
    {
      TimerIsSound(qt, Now());
      timerArmed := true;
      trace := Then(trace, TimerStarted);
    }

    /** Stores the state and starts the poll timer. */
    method StoreAndPoll(config: InterfaceConfig, ghost newLeaked: multiset<IpAddress>)
      requires CanStore(qt, Now(), config, newLeaked)
      modifies this`trace, this`connections, this`leaked, this`timerArmed
      ensures Core() && Now() == WithTimer(WithStored(old(Now()), config, newLeaked))
    {
      Store(config, newLeaked);
      StartTimer();
    }

    /** Creates the interface if it is missing and, where the platform supports it, addresses it and
        brings it up. */
    method EnsureInterface(config: InterfaceConfig) returns (ok: bool)
      modifies this`trace
      ensures ok && supportsIpUtils ==>
                && trace.Then? && trace.event == Call(SetMtuAndUp(config), true)
                && trace.prev.Then? && trace.prev.event == Call(AddInterfaceIps(config), true)
      ensures OnlyNetwork(W(), old(W())) && W().trusted == old(W().trusted)
      ensures W().net == old(W().net).(iface := W().net.iface)
      ensures ok ==> W().net.iface.up
      ensures W().net.iface.deleted == old(W().net.iface.deleted)
      ensures W().allOk ==> W().net.iface == Ensured(old(W().net.iface), config)
      ensures !ok ==> !W().allOk
    {
      var present := InvokeNetwork(InterfaceExists);
      if !present {
        ok := InvokeNetwork(AddInterface(config));
        if !ok {
          return;
        }
      }
      ok := true;
      if supportsIpUtils {
        ok := InvokeNetwork(AddInterfaceIps(config));
        if ok {
          ok := InvokeNetwork(SetMtuAndUp(config));
        }
      }
    }

    /** A first activation from the peer on: peer, resolvers, routes, hook. */
    method ConnectPeer(config: InterfaceConfig) returns (ok: bool)
      modifies this`trace
      ensures OnlyNetwork(W(), old(W())) && W().trusted == old(W().trusted)
      ensures !ok ==> !W().allOk
      ensures W().net.iface == old(W().net.iface)
      ensures ok && old(W().net.iface.up) ==> W().net == BroughtUp(qt, old(W().net), config)
    {
      ok := InvokeNetwork(UpdatePeer(config.serverPublicKey));
      if !ok {
        return;
      }
      ok := MaybeUpdateResolvers(config);
      if !ok {
        return;
      }
      ok := UpdateRoutes(config.allowedIPAddressRanges);
      if !ok {
        return;
      }
      ok := InvokeNetwork(Run(Up, config));
    }

    /** An activation of a hop that has no stored state. */
    method BringUp(config: InterfaceConfig) returns (ok: bool)
      requires Core() && config.hopType !in connections
      modifies this`trace, this`excluded, this`connections, this`leaked, this`timerArmed
      ensures Core() && BringUpSteps(qt, old(Now()), Now(), config, ok)
    {
      ok := EnsureInterface(config);
      if !ok {
        return;
      }
      TakeExclusions(config.excludedAddresses);
      ok := ConnectPeer(config);
      if ok {
        TakenCanBeStored(qt, connections, excluded, old(leaked), W().trusted, config);
        StoreAndPoll(config, old(leaked));
      }
    }

    /** An activation of a hop whose stored state can be switched in place. */
    method SwitchOver(config: InterfaceConfig) returns (ok: bool)
      requires Core() && config.hopType in connections
      modifies this`trace, this`excluded, this`connections, this`leaked, this`timerArmed
      ensures Core() && SwitchSteps(qt, old(Now()), Now(), config, ok)
    {
      ok := SwitchServer(config);
      if !ok {
        return;
      }
      ok := FinishSwitch(config);
    }

    /** The rest of an activation by switching, once the new state is stored. */
    method FinishSwitch(config: InterfaceConfig) returns (ok: bool)
      requires Core() && config.hopType in connections
      requires connections[config.hopType] == ConnectionState(config, None)
      modifies this`trace, this`connections, this`leaked, this`timerArmed
      ensures Core() && FinishSteps(qt, old(Now()), Now(), config, ok)
    {
      ok := AnnounceSwitch(config);
      if ok {
        ghost var announced := Now();
        StoredCanBeStored(qt, connections, excluded, leaked, W().trusted, config);
        StoreAndPoll(config, leaked);
        StoredAgain(qt, old(Now()), announced, config);
      }
    }

    /** Resolvers and hook of a switch. */
    method AnnounceSwitch(config: InterfaceConfig) returns (ok: bool)
      modifies this`trace
      ensures OnlyNetwork(W(), old(W())) && W().trusted == old(W().trusted)
      ensures !ok ==> !W().allOk
      ensures W().net.iface == old(W().net.iface)
      ensures ok ==> W().net == old(W().net).(resolvers := NewResolvers(qt, None, config),
                                              lastRun := Some((Switch, config)))
    {
      ok := InvokeNetwork(RestoreResolvers);
      if !ok {
        return;
      }
      ok := MaybeUpdateResolvers(config);
      if !ok {
        return;
      }
      ok := InvokeNetwork(Run(Switch, config));
    }

    /** An activation of a hop whose stored state cannot be switched. */
    method Reactivate(config: InterfaceConfig) returns (ok: bool)
      requires Valid() && config.hopType in connections && !Switching(connections, config)
      modifies this`trace, this`excluded, this`connections, this`leaked, this`timerArmed
      ensures Core() && (ok ==> Valid())
      ensures Outcome(qt, old(Now()), Now(), config, ok)
      ensures W().signals.failures == old(W().signals.failures)
              || (!ok && W().signals.failures == old(W().signals.failures) + 1)
      decreases 1, 0
    {
      ok := Deactivate(false);
      if !ok {
        StopFailureMeetsOutcome(qt, old(Now()), Now(), config);
        return;
      }
      QAssert(config.hopType !in connections);
      ghost var between := Now();
      ok := Activate(config);
      ReactivateMeetsOutcome(qt, old(Now()), between, Now(), config, ok);
    }

    /** `activate` without its scope guard: true if the guard was dismissed. */
    method TryActivate(config: InterfaceConfig) returns (ok: bool)
      requires Valid()
      modifies this`trace, this`excluded, this`connections, this`leaked, this`timerArmed
      ensures Core() && (ok ==> Valid())
      ensures Outcome(qt, old(Now()), Now(), config, ok)
      ensures W().signals.failures == old(W().signals.failures)
              || (!ok && config.hopType in old(connections)
                  && W().signals.failures == old(W().signals.failures) + 1)
      decreases if config.hopType in connections then 1 else 0, 1
    {
      if config.hopType in connections {
        if Same(connections[config.hopType].config, config) {
          ok := SwitchOver(config);
          SwitchMeetsOutcome(qt, old(Now()), Now(), config, ok);
        } else {
          ok := Reactivate(config);
        }
      } else {
        ok := BringUp(config);
        BringUpMeetsOutcome(qt, old(Now()), Now(), config, ok);
      }
    }

    /** Emits `activationFailure` unless the guard was dismissed. */
    method Guard(ok: bool)
      modifies this`trace
      ensures W() == if ok then old(W()) else
                old(W()).(clean := false,
                          signals := old(W().signals).(failures := old(W().signals.failures) + 1))
    {
      if !ok {
        trace := Then(trace, ActivationFailure);
      }
    }

    method Activate(config: InterfaceConfig) returns (ok: bool)
      requires Valid()
      modifies this`trace, this`excluded, this`connections, this`leaked, this`timerArmed
      ensures Valid()
      ensures Outcome(qt, old(Now()), Now(), config, ok)
      ensures ok <==> W().signals.failures == old(W().signals.failures)
      ensures old(W().signals.failures) <= W().signals.failures
              <= old(W().signals.failures) + if config.hopType in old(connections) then 2 else 1
      decreases if config.hopType in connections then 1 else 0, 2
    {
      ok := TryActivate(config);
      Guard(ok);
    }

    method EmitConnected(hop: HopType, key: string)
      modifies this`trace
      ensures W() == WithEmissions(old(W()), hop, 1)
      ensures trace == Then(old(trace), Connected(hop, key))
    {
      trace := Then(trace, Connected(hop, key));
    }

    /** The poll's inner loop for one pending state. */
    method AwaitHandshake(hop: HopType, key: string, statuses: seq<PeerStatus>) returns (date: Option<int>)
      modifies this`trace
      ensures Announced(trace, old(trace), map[hop := key])
      ensures date == LastHandshake(statuses, key)
      ensures W() == WithEmissions(old(W()), hop, Hits(statuses, key))
    {
      date := None;
      EmissionsAddUp(W(), hop, 0, 0);
      for i := 0 to |statuses|
        invariant date == LastHandshake(statuses[..i], key)
        invariant Announced(trace, old(trace), map[hop := key])
        invariant W() == WithEmissions(old(W()), hop, Hits(statuses[..i], key))
      {
        assert statuses[..i + 1][..i] == statuses[..i];
        if key == statuses[i].pubkey && statuses[i].handshake != 0 {
          date := Some(statuses[i].handshake);
          EmissionsAddUp(old(W()), hop, Hits(statuses[..i], key), 1);
          EmitConnected(hop, statuses[i].pubkey);
        }
      }
      assert statuses[..|statuses|] == statuses;
    }

    /** One turn of the poll's loop over stored states. */
    method PollHop(hop: HopType, statuses: seq<PeerStatus>) returns (pending: bool)
      modifies this`trace, this`connections
      ensures PolledAt(old(W()), W(), old(connections), connections, hop, statuses)
      ensures pending <==> PendingAt(connections, hop)
      ensures Announced(trace, old(trace), PeerKeys(old(connections)))
    {
      if hop !in connections || connections[hop].date.Some? {
        EmissionsAddUp(W(), hop, 0, 0);
        return false;
      }
      var config := connections[hop].config;
      var date := AwaitHandshake(hop, config.serverPublicKey, statuses);
      AnnouncedOfOne(trace, old(trace), hop, PeerKeys(connections));
      connections := connections[hop := ConnectionState(config, date)];
      pending := date.None?;
    }

    /** The poll of all hops, in key order. */
    method PollHops(statuses: seq<PeerStatus>) returns (pending: bool)
      modifies this`trace, this`connections
      ensures connections == Dated(old(connections), statuses)
      ensures pending <==> Pending(connections)
      ensures W() == AllEmissions(old(W()), old(connections), statuses)
      ensures Announced(trace, old(trace), PeerKeys(old(connections)))
    {
      ghost var c, t, w := connections, trace, W();
      var first := PollHop(SingleHop, statuses);
      ghost var c1, t1, w1 := connections, trace, W();
      var second := PollHop(MultiHopEntry, statuses);
      ghost var c2, t2, w2 := connections, trace, W();
      var third := PollHop(MultiHopExit, statuses);
      PollsAddUp(w, w1, w2, W(), c, c1, c2, connections, statuses);
      AnnouncedJoins(t2, t1, t, PeerKeys(c));
      AnnouncedJoins(trace, t2, t, PeerKeys(c));
      pending := first || second || third;
    }

    method Rearm(pending: bool)
      modifies this`trace, this`timerArmed
      ensures Now() == if pending then WithTimer(old(Now())) else old(Now())
      ensures trace == if pending then Then(old(trace), TimerStarted) else old(trace)
    {
      if pending {
        timerArmed := true;
        trace := Then(trace, TimerStarted);
      }
    }

    method RecordPoll(statuses: seq<PeerStatus>)
      modifies this`trace
      ensures W() == old(W()).(signals := SignalEffect(old(W().signals), Polled(statuses)))
      ensures trace == Then(old(trace), Polled(statuses))
    {
      trace := Then(trace, Polled(statuses));
    }

    method Poll(statuses: seq<PeerStatus>)
      modifies this`trace, this`connections, this`timerArmed
      ensures Now() == AfterPoll(old(Now()), statuses)
      ensures Announced(trace, old(trace), PeerKeys(old(connections)))
    {
      ghost var keys, t := PeerKeys(connections), trace;
      RecordPoll(statuses);
      AnnouncedThen(t, t, Polled(statuses), keys);
      ghost var recorded := trace;
      var pending := PollHops(statuses);
      AnnouncedJoins(trace, recorded, t, keys);
      AnnouncedThen(trace, t, TimerStarted, keys);
      Rearm(pending);
    }

    /** The poll; the timer is started again if a handshake is still missing. */
    method CheckHandshake(statuses: seq<PeerStatus>)
      requires Ledger(qt, connections, excluded, leaked, W().trusted) && Synced(excluded, W())
      requires Recording(connections, W().signals) && NothingLeaked(Now())
      modifies this`trace, this`connections, this`timerArmed
      ensures Valid()
      ensures connections == Dated(old(connections), statuses)
      ensures timerArmed <==> old(timerArmed) || Pending(connections)
      ensures W() == old(W()).(signals := W().signals)
      ensures SignalsAfterPoll(W().signals, old(W().signals), old(connections), statuses)
      ensures Announced(trace, old(trace), PeerKeys(old(connections)))
    {
      PollKeepsOrder(qt, Now(), statuses);
      Poll(statuses);
    }

    /** The single-shot poll timer fires. */
    method OnTimeout(statuses: seq<PeerStatus>)
      requires Valid() && timerArmed
      modifies this`trace, this`connections, this`timerArmed
      ensures Valid()
      ensures connections == Dated(old(connections), statuses)
      ensures timerArmed <==> Pending(connections)
      ensures W() == old(W()).(signals := W().signals)
      ensures SignalsAfterPoll(W().signals, old(W().signals), old(connections), statuses)
      ensures Announced(trace, old(trace), PeerKeys(old(connections)))
    {
      timerArmed := false;
      CheckHandshake(statuses);
    }
  }
}
