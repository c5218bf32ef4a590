/** Every run of the daemon: any sequence of requests, whatever the backend answers. */
module DaemonRuns {
  import opened Addresses
  import opened InterfaceConfigs
  import opened DaemonEvents
  import opened DaemonFrames
  import opened ExclusionCounts
  import opened DaemonStates
  import opened DaemonMachine

  datatype Request =
    | ActivateRequest(config: InterfaceConfig)
    | DeactivateRequest(emitSignals: bool)
    | PollRequest(statuses: seq<PeerStatus>)    // the poll timer fires, if it is armed

  ghost predicate InOrder(qt: Parsers, s: Snapshot) {
    Sound(qt, s) && NothingLeaked(s)
  }

  /** What one request may do. */
  ghost predicate Step(qt: Parsers, a: Snapshot, b: Snapshot, request: Request) {
    && InOrder(qt, b)
    && match request
       case ActivateRequest(config) =>
         && a.world.signals.failures <= b.world.signals.failures
         && Outcome(qt, a, b, config, b.world.signals.failures == a.world.signals.failures)
       case DeactivateRequest(emitSignals) => exists ok :: Stopped(a, b, emitSignals, ok)
       case PollRequest(statuses) =>
         if a.armed then
           && b.connections == Dated(a.connections, statuses)
           && (b.armed <==> Pending(b.connections))
           && b.world == a.world.(signals := b.world.signals)
           && SignalsAfterPoll(b.world.signals, a.world.signals, a.connections, statuses)
         else b == a
  }

  /** `history` lists the states of a run that serves the requests. */
  ghost predicate Run(qt: Parsers, history: seq<Snapshot>, requests: seq<Request>) {
    && |history| == |requests| + 1
    && InOrder(qt, history[0])
    && forall k :: 0 <= k < |requests| ==> Step(qt, history[k], history[k + 1], requests[k])
  }

  method ServeOne(daemon: Daemon, request: Request)
    requires daemon.Valid()
    modifies daemon
    ensures daemon.Valid()
    ensures Step(daemon.qt, old(daemon.Now()), daemon.Now(), request)
  {
    match request {
      case ActivateRequest(config) =>
        var _ := daemon.Activate(config);
      case DeactivateRequest(emitSignals) =>
        var ok := daemon.Deactivate(emitSignals);
        assert Stopped(old(daemon.Now()), daemon.Now(), emitSignals, ok);
      case PollRequest(statuses) =>
        if daemon.timerArmed {
          daemon.OnTimeout(statuses);
        }
    }
  }

  /** Serves any requests in turn. */
  method Serve(daemon: Daemon, requests: seq<Request>) returns (ghost history: seq<Snapshot>)
    requires daemon.Valid()
    modifies daemon
    ensures daemon.Valid()
    ensures Run(daemon.qt, history, requests)
    ensures history[0] == old(daemon.Now()) && history[|requests|] == daemon.Now()
  {
    history := [daemon.Now()];
    for i := 0 to |requests|
      invariant daemon.Valid()
      invariant |history| == i + 1 && history[0] == old(daemon.Now()) && history[i] == daemon.Now()
      invariant InOrder(daemon.qt, history[0])
      invariant forall k :: 0 <= k < i ==> Step(daemon.qt, history[k], history[k + 1], requests[k])
    {
      ServeOne(daemon, requests[i]);
      history := history + [daemon.Now()];
    }
  }

  /** Every state of a run keeps the invariant. */
  lemma RunStaysInOrder(qt: Parsers, history: seq<Snapshot>, requests: seq<Request>, k: nat)
    requires Run(qt, history, requests) && k < |history|
    ensures InOrder(qt, history[k])
  {
    if k > 0 {
      assert Step(qt, history[k - 1], history[k], requests[k - 1]);
    }
  }

  /** In every state of every run: while additions and peer deletions have succeeded since the last
      clearing, each count covers the stored configurations, and is exactly their number of
      references if moreover no activation failed and no assertion was false since then. */
  lemma CountsCoverStored(qt: Parsers, history: seq<Snapshot>, requests: seq<Request>, k: nat, p: IpAddress)
    requires Run(qt, history, requests) && k < |history| && history[k].world.trusted
    ensures Count(history[k].counts, p) >= StoredBag(qt, history[k].connections)[p]
    ensures history[k].world.clean ==> Count(history[k].counts, p) == StoredBag(qt, history[k].connections)[p]
  {
    RunStaysInOrder(qt, history, requests, k);
    var s := history[k];
    assert Count(s.counts, p) == (StoredBag(qt, s.connections) + s.leaked)[p];
  }

  ghost predicate AllPlain(qt: Parsers, config: InterfaceConfig) {
    forall s :: s in config.excludedAddresses ==> Plain(qt, s)
  }

  ghost predicate StoredPlain(qt: Parsers, c: Connections) {
    forall hop :: hop in c ==> AllPlain(qt, c[hop].config)
  }

  lemma StepKeepsPlain(qt: Parsers, a: Snapshot, b: Snapshot, request: Request)
    requires Step(qt, a, b, request) && StoredPlain(qt, a.connections)
    requires request.ActivateRequest? ==> AllPlain(qt, request.config)
    ensures StoredPlain(qt, b.connections)
    ensures b.world.trusted ==> b.world.assertions == a.world.assertions
  {
    if request.ActivateRequest? && Switching(a.connections, request.config) {
      NoStrayExactlyWhenAllPlain(qt, a.connections[request.config.hopType].config.excludedAddresses);
    }
  }

  /** A run in which additions and peer deletions succeed and every excluded entry is a plain host. */
  ghost predicate PlainRun(qt: Parsers, history: seq<Snapshot>, requests: seq<Request>) {
    && Run(qt, history, requests) && StoredPlain(qt, history[0].connections)
    && (forall i :: 0 <= i < |requests| && requests[i].ActivateRequest? ==> AllPlain(qt, requests[i].config))
    && (forall i :: 0 <= i < |history| ==> history[i].world.trusted)
  }

  ghost predicate PlainStep(qt: Parsers, a: Snapshot, b: Snapshot) {
    StoredPlain(qt, a.connections) ==>
      StoredPlain(qt, b.connections) && b.world.assertions == a.world.assertions
  }

  lemma {:induction false} PlainChain(qt: Parsers, history: seq<Snapshot>, k: nat)
    requires k < |history| && StoredPlain(qt, history[0].connections)
    requires forall i :: 0 <= i < k ==> PlainStep(qt, history[i], history[i + 1])
    ensures StoredPlain(qt, history[k].connections)
    ensures history[k].world.assertions == history[0].world.assertions
  {
    if k == 0 {
    } else {
      PlainChain(qt, history, k - 1);
      assert PlainStep(qt, history[k - 1], history[k - 1 + 1]);
    }
  }

  /** Over every run in which additions and peer deletions succeed and every excluded entry is a
      plain host address, no assertion is ever false, whatever other calls fail. */
  lemma PlainRunsTripNoAssertion(qt: Parsers, history: seq<Snapshot>, requests: seq<Request>, k: nat)
    requires PlainRun(qt, history, requests) && k < |history|
    ensures StoredPlain(qt, history[k].connections)
    ensures history[k].world.assertions == history[0].world.assertions
  {
    forall i | 0 <= i < k
      ensures PlainStep(qt, history[i], history[i + 1])
    {
      assert Step(qt, history[i], history[i + 1], requests[i]);
      if StoredPlain(qt, history[i].connections) {
        StepKeepsPlain(qt, history[i], history[i + 1], requests[i]);
      }
    }
    PlainChain(qt, history, k);
  }

  /** What a step that trips no assertion does to the record. */
  ghost predicate CleanStep(a: Snapshot, b: Snapshot) {
    && a.world.signals.failures <= b.world.signals.failures
    && (a.world.signals.failures == b.world.signals.failures && a.world.clean ==> b.world.clean)
  }

  lemma StepKeepsClean(qt: Parsers, a: Snapshot, b: Snapshot, request: Request)
    requires Step(qt, a, b, request) && b.world.assertions == a.world.assertions
    ensures CleanStep(a, b)
  {
    assert a.world.signals.failures == b.world.signals.failures ==> Undisturbed(a, b);
  }

  lemma PlainStepsAreClean(qt: Parsers, history: seq<Snapshot>, requests: seq<Request>, k: nat)
    requires PlainRun(qt, history, requests) && k < |requests|
    ensures CleanStep(history[k], history[k + 1])
  {
    PlainRunsTripNoAssertion(qt, history, requests, k + 1);
    PlainRunsTripNoAssertion(qt, history, requests, k);
    StepKeepsClean(qt, history[k], history[k + 1], requests[k]);
  }

  /** Up to which state no activation has failed since a clean one, the record is clean. */
  lemma {:induction false} StaysClean(history: seq<Snapshot>, j: nat, k: nat)
    requires j <= k < |history| && history[j].world.clean
    requires forall i :: j <= i < k ==> CleanStep(history[i], history[i + 1])
    ensures history[j].world.signals.failures <= history[k].world.signals.failures
    ensures history[j].world.signals.failures == history[k].world.signals.failures ==> history[k].world.clean
    decreases k
  {
    if j == k {
    } else {
      StaysClean(history, j, k - 1);
      assert CleanStep(history[k - 1], history[k - 1 + 1]);
    }
  }

  /** Over such a run each count is exact in every state up to which no activation failed since a
      clean one, such as the first or any after a deactivation. */
  lemma PlainRunsCountExactly(qt: Parsers, history: seq<Snapshot>, requests: seq<Request>, j: nat, k: nat, p: IpAddress)
    requires PlainRun(qt, history, requests) && j <= k < |history| && history[j].world.clean
    requires history[j].world.signals.failures == history[k].world.signals.failures
    ensures Count(history[k].counts, p) == StoredBag(qt, history[k].connections)[p]
  {
    forall i | j <= i < k
      ensures CleanStep(history[i], history[i + 1])
    {
      PlainStepsAreClean(qt, history, requests, i);
    }
    StaysClean(history, j, k);
    CountsCoverStored(qt, history, requests, k, p);
  }

  lemma ActivationKeepsExact(qt: Parsers, a: Snapshot, b: Snapshot, config: InterfaceConfig)
    requires Outcome(qt, a, b, config, true) && b.world.allOk
    requires Exact(a) && a.connections.Keys <= {config.hopType}
    ensures Exact(b) && b.connections.Keys <= {config.hopType}
  {
    assert a.connections - {config.hopType} == map[];
    ActivationExactness(qt, a.world.net, a.connections, config);
  }

  lemma StepKeepsExact(qt: Parsers, a: Snapshot, b: Snapshot, request: Request, hop: HopType)
    requires Step(qt, a, b, request) && Exact(a) && a.connections.Keys <= {hop} && b.world.allOk
    requires request.ActivateRequest? ==> request.config.hopType == hop
    ensures a.world.allOk && Exact(b) && b.connections.Keys <= {hop}
  {
    match request {
      case ActivateRequest(config) =>
        ActivationKeepsExact(qt, a, b, config);
      case DeactivateRequest(emitSignals) =>
      case PollRequest(statuses) =>
        if a.armed {
          PollKeepsSets(a.connections, statuses);
        }
    }
  }

  lemma PollKeepsSets(c: Connections, statuses: seq<PeerStatus>)
    ensures RangeSet(Dated(c, statuses)) == RangeSet(c) && PeerSet(Dated(c, statuses)) == PeerSet(c)
  {
    var d := Dated(c, statuses);
    assert forall hop :: hop in c ==> d[hop].config == c[hop].config;
    assert RangesAt(d, SingleHop) == RangesAt(c, SingleHop) && PeersAt(d, SingleHop) == PeersAt(c, SingleHop);
    assert RangesAt(d, MultiHopEntry) == RangesAt(c, MultiHopEntry) && PeersAt(d, MultiHopEntry) == PeersAt(c, MultiHopEntry);
    assert RangesAt(d, MultiHopExit) == RangesAt(c, MultiHopExit) && PeersAt(d, MultiHopExit) == PeersAt(c, MultiHopExit);
  }

  /** Over every run on one hop type in which every backend call succeeds, after each request the
      prefix routes are the current configuration's ranges and the only peer is its key, and there
      are none when nothing is stored. */
  lemma {:induction false} OneHopRunsAreExact(qt: Parsers, history: seq<Snapshot>, requests: seq<Request>, hop: HopType, k: nat)
    requires Run(qt, history, requests) && k < |history|
    requires forall i :: 0 <= i < |requests| && requests[i].ActivateRequest? ==> requests[i].config.hopType == hop
    requires history[0].connections.Keys <= {hop} && Exact(history[0])
    requires forall i :: 0 <= i < |history| ==> history[i].world.allOk
    ensures Exact(history[k]) && history[k].connections.Keys <= {hop}
    ensures var s := history[k];
            if hop in s.connections
            then s.world.net.routes == ToSet(s.connections[hop].config.allowedIPAddressRanges)
                 && s.world.net.peers == {s.connections[hop].config.serverPublicKey}
            else s.world.net.routes == {} && s.world.net.peers == {}
  {
    if k == 0 {
    } else {
      OneHopRunsAreExact(qt, history, requests, hop, k - 1);
      assert Step(qt, history[k - 1], history[k], requests[k - 1]);
      StepKeepsExact(qt, history[k - 1], history[k], requests[k - 1], hop);
    }
    SetsOfOneHop(history[k].connections, hop);
  }

  /** The five members that an activation compares with the stored ones. */
  predicate SameTunnel(a: InterfaceConfig, b: InterfaceConfig) {
    && IdentityOf(a) == IdentityOf(b)
    && (a.serverIpv4Gateway, a.serverIpv6Gateway) == (b.serverIpv4Gateway, b.serverIpv6Gateway)
  }

  /** When every call succeeds, activating a stored hop deletes the interface and creates it anew
      exactly if own key, own addresses or gateways change, and otherwise touches it not at all. */
  lemma InterfaceIsReplacedExactlyWhen(qt: Parsers, a: Snapshot, b: Snapshot, config: InterfaceConfig)
    requires Step(qt, a, b, ActivateRequest(config)) && b.world.allOk && config.hopType in a.connections
    ensures var last, i, j := a.connections[config.hopType].config, a.world.net.iface, b.world.net.iface;
            if SameTunnel(last, config)
            then j == i && b.world.net.lastRun == Some((Switch, config))
            else && (j.deleted, j.created) == (i.deleted + 1, i.created + 1)
                 && j.identity == Some(IdentityOf(config)) && b.world.net.lastRun == Some((Up, config))
  {
  }

  /** Whatever calls fail, an activation that changes none of the five leaves the interface alone. */
  lemma SwitchLeavesInterface(qt: Parsers, a: Snapshot, b: Snapshot, config: InterfaceConfig)
    requires Step(qt, a, b, ActivateRequest(config)) && config.hopType in a.connections
    requires SameTunnel(a.connections[config.hopType].config, config)
    ensures b.world.net.iface == a.world.net.iface
  {
  }

  /** The interface is the one the stored configuration asks for, and there is none without one. */
  ghost predicate InterfaceFits(s: Snapshot, hop: HopType) {
    var i := s.world.net.iface;
    if hop in s.connections
    then i.up && i.identity == Some(IdentityOf(s.connections[hop].config))
    else !i.up && i.identity == None
  }

  ghost predicate InterfaceStep(a: Snapshot, b: Snapshot, hop: HopType) {
    a.connections.Keys <= {hop} && InterfaceFits(a, hop) ==> b.connections.Keys <= {hop} && InterfaceFits(b, hop)
  }

  lemma ActivationKeepsInterface(qt: Parsers, a: Snapshot, b: Snapshot, config: InterfaceConfig)
    requires Outcome(qt, a, b, config, true) && b.world.allOk
    ensures InterfaceStep(a, b, config.hopType)
  {
    var n := Activated(qt, a.world.net, a.connections, config);
    assert b.world.net.iface == n.iface && b.connections == Recorded(a.connections, config);
  }

  lemma PollKeepsInterface(a: Snapshot, b: Snapshot, statuses: seq<PeerStatus>, hop: HopType)
    requires b.connections == Dated(a.connections, statuses) && b.world.net == a.world.net
    ensures InterfaceStep(a, b, hop)
  {
    assert b.connections.Keys == a.connections.Keys;
  }

  lemma StepKeepsInterface(qt: Parsers, a: Snapshot, b: Snapshot, request: Request, hop: HopType)
    requires Step(qt, a, b, request) && b.world.allOk
    requires request.ActivateRequest? ==> request.config.hopType == hop
    ensures InterfaceStep(a, b, hop)
  {
    match request {
      case ActivateRequest(config) =>
        ActivationKeepsInterface(qt, a, b, config);
      case DeactivateRequest(emitSignals) =>
      case PollRequest(statuses) =>
        if a.armed {
          PollKeepsInterface(a, b, statuses, hop);
        }
    }
  }

  lemma {:induction false} InterfaceChain(history: seq<Snapshot>, hop: HopType, k: nat)
    requires k < |history| && history[0].connections.Keys <= {hop} && InterfaceFits(history[0], hop)
    requires forall i :: 0 <= i < k ==> InterfaceStep(history[i], history[i + 1], hop)
    ensures history[k].connections.Keys <= {hop} && InterfaceFits(history[k], hop)
  {
    if k == 0 {
    } else {
      InterfaceChain(history, hop, k - 1);
      assert InterfaceStep(history[k - 1], history[k - 1 + 1], hop);
    }
  }

  /** Over every run on one hop type in which every backend call succeeds, after each request the
      interface has the stored configuration's own key and addresses, and there is none when
      nothing is stored. */
  lemma OneHopRunsKeepTheInterface(qt: Parsers, history: seq<Snapshot>, requests: seq<Request>, hop: HopType, k: nat)
    requires Run(qt, history, requests) && k < |history|
    requires forall i :: 0 <= i < |requests| && requests[i].ActivateRequest? ==> requests[i].config.hopType == hop
    requires history[0].connections.Keys <= {hop} && InterfaceFits(history[0], hop)
    requires forall i :: 0 <= i < |history| ==> history[i].world.allOk
    ensures InterfaceFits(history[k], hop)
  {
    forall i | 0 <= i < k
      ensures InterfaceStep(history[i], history[i + 1], hop)
    {
      StepKeepsInterface(qt, history[i], history[i + 1], requests[i], hop);
    }
    InterfaceChain(history, hop, k);
  }

  /** The request gives up no range and no peer that another hop asks for. */
  ghost predicate Considerate(a: Snapshot, request: Request) {
    request.ActivateRequest? ==> Undisturbing(a.connections, request.config)
  }

  lemma StepExactness(qt: Parsers, a: Snapshot, b: Snapshot, request: Request)
    requires Step(qt, a, b, request) && Exact(a) && b.world.allOk
    ensures Exact(b) <==> Considerate(a, request)
  {
    match request {
      case ActivateRequest(config) =>
        ActivationExactness(qt, a.world.net, a.connections, config);
      case DeactivateRequest(emitSignals) =>
      case PollRequest(statuses) =>
        if a.armed {
          PollKeepsSets(a.connections, statuses);
        }
    }
  }

  ghost predicate ExactStep(a: Snapshot, b: Snapshot, request: Request) {
    Exact(a) ==> (Exact(b) <==> Considerate(a, request))
  }

  lemma {:induction false} ExactChain(history: seq<Snapshot>, requests: seq<Request>, k: nat)
    requires |history| == |requests| + 1 && k < |history| && Exact(history[0])
    requires forall i :: 0 <= i < k ==> ExactStep(history[i], history[i + 1], requests[i])
    ensures (forall i :: 0 <= i <= k ==> Exact(history[i]))
       <==> forall i :: 0 <= i < k ==> Considerate(history[i], requests[i])
  {
    if k == 0 {
    } else {
      ExactChain(history, requests, k - 1);
      assert ExactStep(history[k - 1], history[k - 1 + 1], requests[k - 1]);
    }
  }

  /** Over every run on any number of hops in which every backend call succeeds: routes and peers are
      exactly what the stored configurations ask for after every request if and only if no request
      gives up what another hop asks for. */
  lemma RunsAreExactExactlyWhen(qt: Parsers, history: seq<Snapshot>, requests: seq<Request>, k: nat)
    requires Run(qt, history, requests) && k < |history| && Exact(history[0])
    requires forall i :: 0 <= i < |history| ==> history[i].world.allOk
    ensures (forall i :: 0 <= i <= k ==> Exact(history[i]))
       <==> forall i :: 0 <= i < k ==> Considerate(history[i], requests[i])
  {
    forall i | 0 <= i < k
      ensures ExactStep(history[i], history[i + 1], requests[i])
    {
      assert Step(qt, history[i], history[i + 1], requests[i]);
      if Exact(history[i]) {
        StepExactness(qt, history[i], history[i + 1], requests[i]);
      }
    }
    ExactChain(history, requests, k);
  }

  /** The activation got past `switchServer` and still failed. */
  ghost predicate FailedPastSwitch(a: Snapshot, b: Snapshot, request: Request) {
    && request.ActivateRequest?
    && b.world.signals.failures != a.world.signals.failures
    && PastSwitch(a, b, request.config)
  }

  lemma StepLapse(qt: Parsers, a: Snapshot, b: Snapshot, request: Request)
    requires Step(qt, a, b, request) && !FailedPastSwitch(a, b, request) && !a.world.signals.lapsed
    ensures !b.world.signals.lapsed
  {
  }

  /** Over every run in which each activation that gets past the switch succeeds, a stored state
      without a handshake date is being polled. */
  lemma {:induction false} PendingIsPolled(qt: Parsers, history: seq<Snapshot>, requests: seq<Request>, k: nat)
    requires Run(qt, history, requests) && k < |history|
    requires !history[0].world.signals.lapsed
    requires forall i :: 0 <= i < |requests| ==> !FailedPastSwitch(history[i], history[i + 1], requests[i])
    ensures !history[k].world.signals.lapsed
    ensures Pending(history[k].connections) ==> history[k].armed
  {
    RunStaysInOrder(qt, history, requests, k);
    if k == 0 {
    } else {
      PendingIsPolled(qt, history, requests, k - 1);
      assert Step(qt, history[k - 1], history[k], requests[k - 1]);
      StepLapse(qt, history[k - 1], history[k], requests[k - 1]);
    }
  }

  /** An activation that fails past the switch leaves its pending state polled if and only if the
      timer happened to be armed before. */
  lemma LapseCondition(qt: Parsers, a: Snapshot, b: Snapshot, config: InterfaceConfig)
    requires Step(qt, a, b, ActivateRequest(config)) && FailedPastSwitch(a, b, ActivateRequest(config))
    ensures Pending(b.connections)
    ensures (Pending(b.connections) ==> b.armed) <==> a.armed
  {
    assert b.connections[config.hopType].date.None?;
  }

  /** Over every run whose polls list each key once, `connected` has been emitted for a stored
      state exactly once if it has a date and not at all otherwise. */
  lemma ConnectedAtMostOnce(qt: Parsers, history: seq<Snapshot>, requests: seq<Request>, k: nat, hop: HopType)
    requires Run(qt, history, requests) && k < |history| && hop in history[k].connections
    requires history[k].world.signals.pollsDistinct
    ensures history[k].world.signals.emissions[hop] == if history[k].connections[hop].date.Some? then 1 else 0
  {
    RunStaysInOrder(qt, history, requests, k);
  }

  // ---- a run that leaves a pending state without a poll timer

  function ExampleConfig(): InterfaceConfig {
    Bare(SingleHop, "key")
  }

  /** A daemon as it is constructed. */
  ghost function Constructed(): Snapshot {
    Snapshot(map[], map[], false, multiset{}, WorldOf(Start))
  }

  ghost function ExampleState(date: Option<int>, armed: bool, t: Trace): Snapshot {
    Snapshot(map[SingleHop := ConnectionState(ExampleConfig(), date)], map[], armed, multiset{}, WorldOf(t))
  }

  /** A first activation in which the interface has to be created and every call succeeds. */
  ghost function Activating(qt: Parsers): Trace {
    var c := ExampleConfig();
    Then(Then(Then(Then(Then(Then(Then(Start,
      Call(InterfaceExists, false)), Call(AddInterface(c), true)), Call(UpdatePeer("key"), true)),
      Call(UpdateResolvers(ResolversFor(qt, c)), true)), Call(Op.Run(Up, c), true)), Stored(SingleHop)), TimerStarted)
  }

  /** The poll that finds the handshake. */
  ghost function HandshakeFound(qt: Parsers): Trace {
    Then(Then(Activating(qt), Polled([PeerStatus("key", 1)])), Connected(SingleHop, "key"))
  }

  /** An activation of the same configuration again, in which restoring the resolvers fails. */
  ghost function Failing(qt: Parsers): Trace {
    Then(Then(Then(Then(HandshakeFound(qt),
      Call(UpdatePeer("key"), true)), Stored(SingleHop)), Call(RestoreResolvers, false)), ActivationFailure)
  }

  ghost function ExampleHistory(qt: Parsers): seq<Snapshot> {
    [Constructed(), ExampleState(None, true, Activating(qt)), ExampleState(Some(1), false, HandshakeFound(qt)),
     ExampleState(None, false, Failing(qt))]
  }

  function ExampleRequests(): seq<Request> {
    [ActivateRequest(ExampleConfig()), PollRequest([PeerStatus("key", 1)]), ActivateRequest(ExampleConfig())]
  }

  lemma ExampleStateIsInOrder(qt: Parsers, date: Option<int>, armed: bool, t: Trace)
    requires Lawful(qt) && WorldOf(t).exclusions == {}
    requires WorldOf(t).allOk ==> WorldOf(t).exclusionCallsOk && WorldOf(t).trusted
    requires WorldOf(t).signals.emissions[SingleHop] == if date.Some? then 1 else 0
    requires date.None? ==> armed || WorldOf(t).signals.lapsed
    ensures InOrder(qt, ExampleState(date, armed, t))
  {
    var s := ExampleState(date, armed, t);
    assert StoredBag(qt, s.connections) == multiset{};
    assert forall hop :: hop in s.connections ==> hop == SingleHop;
  }

  ghost function ExampleNetwork(qt: Parsers): Network {
    Network({}, {"key"}, Interface(true, Some(IdentityOf(ExampleConfig())), 1, 0), Some(ResolversFor(qt, ExampleConfig())), Some((Up, ExampleConfig())))
  }

  lemma ActivatingWorld(qt: Parsers)
    ensures WorldOf(Activating(qt)) == EMPTY_WORLD.(net := ExampleNetwork(qt))
  {
    var c, none: multiset<HopType> := ExampleConfig(), multiset{};
    assert none[SingleHop := 0] == none;
    var t2 := Then(Then(Start, Call(InterfaceExists, false)), Call(AddInterface(c), true));
    assert WorldOf(t2) == Effect(WorldOf(t2.prev), t2.event);
    var t4 := Then(Then(t2, Call(UpdatePeer("key"), true)), Call(UpdateResolvers(ResolversFor(qt, c)), true));
    assert WorldOf(t4) == Effect(WorldOf(t4.prev), t4.event);
    var t6 := Then(Then(t4, Call(Op.Run(Up, c), true)), Stored(SingleHop));
    assert WorldOf(t6) == Effect(WorldOf(t6.prev), t6.event);
    assert Activating(qt) == Then(t6, TimerStarted);
  }

  lemma PollingWorld(qt: Parsers)
    ensures WorldOf(HandshakeFound(qt)) == EMPTY_WORLD.(net := ExampleNetwork(qt),
                                                  signals := EMPTY_WORLD.signals.(emissions := multiset{SingleHop}))
  {
    ActivatingWorld(qt);
    assert DistinctKeys([PeerStatus("key", 1)]);
    var none: multiset<HopType> := multiset{};
    assert none + multiset{SingleHop} == multiset{SingleHop};
  }

  lemma FirstStep(qt: Parsers)
    requires Lawful(qt)
    ensures InOrder(qt, Constructed())
    ensures Step(qt, Constructed(), ExampleState(None, true, Activating(qt)), ActivateRequest(ExampleConfig()))
  {
    ActivatingWorld(qt);
    ExampleStateIsInOrder(qt, None, true, Activating(qt));
    var none: Connections := map[];
    assert none[SingleHop := ConnectionState(ExampleConfig(), None)] == map[SingleHop := ConnectionState(ExampleConfig(), None)];
  }

  lemma SecondStep(qt: Parsers)
    requires Lawful(qt)
    ensures Step(qt, ExampleState(None, true, Activating(qt)), ExampleState(Some(1), false, HandshakeFound(qt)),
                 PollRequest([PeerStatus("key", 1)]))
  {
    ActivatingWorld(qt);
    PollingWorld(qt);
    ExampleStateIsInOrder(qt, Some(1), false, HandshakeFound(qt));
    var c, statuses := ExampleState(None, true, Activating(qt)).connections, [PeerStatus("key", 1)];
    assert statuses[..0] == [] && LastHandshake(statuses, "key") == Some(1) && Hits(statuses, "key") == 1;
    assert Dated(c, statuses) == map[SingleHop := ConnectionState(ExampleConfig(), Some(1))];
    assert HitsAt(c, SingleHop, statuses) == 1 && HitsAt(c, MultiHopEntry, statuses) == 0 && HitsAt(c, MultiHopExit, statuses) == 0;
  }

  lemma FailingWorld(qt: Parsers)
    ensures WorldOf(Failing(qt)) == EMPTY_WORLD.(net := ExampleNetwork(qt), clean := false, allOk := false,
                                                 signals := EMPTY_WORLD.signals.(failures := 1, lapsed := true))
  {
    PollingWorld(qt);
    var t := HandshakeFound(qt);
    var t1 := Then(t, Call(UpdatePeer("key"), true));
    assert WorldOf(t1) == WorldOf(t);
    var t2 := Then(t1, Stored(SingleHop));
    assert multiset{SingleHop}[SingleHop := 0] == multiset{};
    assert WorldOf(t2) == Effect(WorldOf(t1), Stored(SingleHop));
    var t3 := Then(t2, Call(RestoreResolvers, false));
    assert WorldOf(t3) == Effect(WorldOf(t2), Call(RestoreResolvers, false));
    assert Failing(qt) == Then(t3, ActivationFailure);
  }

  lemma ThirdStep(qt: Parsers)
    requires Lawful(qt)
    ensures var a, b := ExampleState(Some(1), false, HandshakeFound(qt)), ExampleState(None, false, Failing(qt));
            var request := ActivateRequest(ExampleConfig());
            Step(qt, a, b, request) && FailedPastSwitch(a, b, request) && Pending(b.connections)
  {
    PollingWorld(qt);
    FailingWorld(qt);
    ExampleStateIsInOrder(qt, None, false, Failing(qt));
    var b := ExampleState(None, false, Failing(qt));
    assert PendingAt(b.connections, SingleHop);
  }

  /** A run from the constructed daemon: it connects, the poll finds the handshake, and activating
      again fails past the switch. The stored state is then pending and no timer is armed. */
  lemma FailedRestoreLapses(qt: Parsers)
    requires Lawful(qt)
    ensures Run(qt, ExampleHistory(qt), ExampleRequests())
    ensures FailedPastSwitch(ExampleHistory(qt)[2], ExampleHistory(qt)[3], ExampleRequests()[2])
    ensures Pending(ExampleHistory(qt)[3].connections) && !ExampleHistory(qt)[3].armed
  {
    FirstStep(qt);
    SecondStep(qt);
    ThirdStep(qt);
  }
}
