/** What the daemon does to the outside world, as a trace of events, and what a trace adds up to. */
module DaemonEvents {
  import opened Addresses
  import opened InterfaceConfigs

  datatype RunKind = Up | Down | Switch

  /** A call on `WireguardUtils`, `IPUtils`, `DnsUtils` or the `run` hook. */
  datatype Op =
    | InterfaceExists
    | AddInterface(config: InterfaceConfig)
    | DeleteInterface
    | AddInterfaceIps(config: InterfaceConfig)
    | SetMtuAndUp(config: InterfaceConfig)
    | UpdatePeer(key: string)
    | DeletePeer(key: string)
    | UpdateRoutePrefix(ip: IpAddress)
    | DeleteRoutePrefix(ip: IpAddress)
    | AddExclusion(ip: IpAddress)
    | DeleteExclusion(ip: IpAddress)
    | UpdateResolvers(resolvers: seq<HostAddress>)
    | RestoreResolvers
    | Run(kind: RunKind, config: InterfaceConfig)

  datatype PeerStatus = PeerStatus(pubkey: string, handshake: int)

  datatype Event =
    | Call(op: Op, ok: bool)          // a backend call and its Boolean result
    | Stored(hop: HopType)            // a fresh ConnectionState was recorded for the hop
    | Cleared                         // connections and exclusion counts were emptied
    | TimerStarted                    // the handshake poll timer was (re)started
    | Polled(statuses: seq<PeerStatus>)
    | Connected(hop: HopType, key: string)
    | ActivationFailure
    | Disconnected
    | AssertionFailed                 // a Q_ASSERT was reached with a false condition

  datatype Trace = Start | Then(prev: Trace, event: Event)

  /** What an interface is created with: its own key and addresses. */
  datatype Identity = Identity(privateKey: string, deviceIpv4Address: string, deviceIpv6Address: string)

  function IdentityOf(config: InterfaceConfig): Identity {
    Identity(config.privateKey, config.deviceIpv4Address, config.deviceIpv6Address)
  }

  /** The interface, and how often one was created and deleted. */
  datatype Interface = Interface(up: bool, identity: Option<Identity>, created: nat, deleted: nat)

  function Created(i: Interface, config: InterfaceConfig): Interface {
    Interface(true, Some(IdentityOf(config)), i.created + 1, i.deleted)
  }

  function Removed(i: Interface): Interface {
    Interface(false, None, i.created, i.deleted + 1)
  }

  /** The tunnel as the backend has set it up. */
  datatype Network = Network(
    routes: set<IpAddress>,           // installed prefix routes
    peers: set<string>,               // peers on the interface
    iface: Interface,
    resolvers: Option<seq<HostAddress>>,
    lastRun: Option<(RunKind, InterfaceConfig)>)

  /** What listeners and the poll timer have seen. */
  datatype Signals = Signals(
    failures: nat,                    // activationFailure signals
    disconnects: nat,                 // disconnected signals
    emissions: multiset<HopType>,     // connected signals per hop since its state was stored
    lapsed: bool,                     // a state was stored and no poll timer started since
    pollsDistinct: bool)              // every poll listed each key once

  /** The sum of a trace. A backend call that returns false changes nothing. */
  datatype World = World(
    exclusions: set<IpAddress>,       // installed exclusion routes
    net: Network,
    signals: Signals,
    assertions: nat,                  // false assertions
    trusted: bool,                    // since Cleared: every AddExclusion and DeletePeer succeeded
    clean: bool,                      // since Cleared: no failed activation, no false assertion
    exclusionCallsOk: bool,           // every AddExclusion and DeleteExclusion succeeded
    allOk: bool)                      // every backend call succeeded, and told the truth about the interface

  const EMPTY_WORLD :=
    World({}, Network({}, {}, Interface(false, None, 0, 0), None, None), Signals(0, 0, multiset{}, false, true), 0, true, true, true, true)

  predicate DistinctKeys(statuses: seq<PeerStatus>) {
    forall i, j :: 0 <= i < j < |statuses| ==> statuses[i].pubkey != statuses[j].pubkey
  }

  function NetworkEffect(n: Network, op: Op, ok: bool): Network {
    match op
    case InterfaceExists => n.(iface := n.iface.(up := ok, identity := if ok then n.iface.identity else None))
    case AddInterface(config) => if ok then n.(iface := Created(n.iface, config)) else n
    case DeleteInterface => if ok then n.(iface := Removed(n.iface)) else n
    case UpdatePeer(key) => if ok then n.(peers := n.peers + {key}) else n
    case DeletePeer(key) => if ok then n.(peers := n.peers - {key}) else n
    case UpdateRoutePrefix(ip) => if ok then n.(routes := n.routes + {ip}) else n
    case DeleteRoutePrefix(ip) => if ok then n.(routes := n.routes - {ip}) else n
    case UpdateResolvers(resolvers) => if ok then n.(resolvers := Some(resolvers)) else n
    case RestoreResolvers => if ok then n.(resolvers := None) else n
    case Run(kind, config) => if ok then n.(lastRun := Some((kind, config))) else n
    case _ => n
  }

  function CallEffect(w: World, op: Op, ok: bool): World {
    match op
    case AddExclusion(ip) =>
      if ok then w.(exclusions := w.exclusions + {ip})
      else w.(trusted := false, exclusionCallsOk := false, allOk := false)
    case DeleteExclusion(ip) =>
      if ok then w.(exclusions := w.exclusions - {ip})
      else w.(exclusionCallsOk := false, allOk := false)
    case _ =>
      w.(net := NetworkEffect(w.net, op, ok),
         allOk := w.allOk && if op.InterfaceExists? then ok == w.net.iface.up else ok,
         trusted := w.trusted && (ok || !op.DeletePeer?))
  }

  function SignalEffect(s: Signals, e: Event): Signals {
    match e
    case Stored(hop) => s.(emissions := s.emissions[hop := 0], lapsed := true)
    case Cleared => s.(lapsed := false)
    case TimerStarted => s.(lapsed := false)
    case Polled(statuses) => s.(pollsDistinct := s.pollsDistinct && DistinctKeys(statuses))
    case Connected(hop, key) => s.(emissions := s.emissions + multiset{hop})
    case ActivationFailure => s.(failures := s.failures + 1)
    case Disconnected => s.(disconnects := s.disconnects + 1)
    case _ => s
  }

  function Effect(w: World, e: Event): World {
    match e
    case Call(op, ok) => CallEffect(w, op, ok)
    case AssertionFailed => w.(assertions := w.assertions + 1, clean := false)
    case Cleared => w.(signals := SignalEffect(w.signals, e), trusted := true, clean := true)
    case ActivationFailure => w.(signals := SignalEffect(w.signals, e), clean := false)
    case _ => w.(signals := SignalEffect(w.signals, e))
  }

  function WorldOf(t: Trace): World {
    match t
    case Start => EMPTY_WORLD
    case Then(prev, e) => Effect(WorldOf(prev), e)
  }

  /** At every point from `from` on, both ends included, the prefixes in `kept` are installed. */
  ghost predicate Throughout(t: Trace, from: Trace, kept: set<IpAddress>) {
    && kept <= WorldOf(t).exclusions
    && (t == from || (t.Then? && Throughout(t.prev, from, kept)))
  }
}
