# Verified model of the VPN client's core

A Dafny model of the parts of the VPN client and its privileged service that hold state over long
runs or compute with bits, and proofs about them.

| part | files |
|---|---|
| WireGuard daemon: activation, server switch, deactivation, reference-counted exclusion routes, handshake polling | `Addresses`, `InterfaceConfigs`, `DaemonEvents`, `DaemonFrames`, `ExclusionCounts`, `DaemonStates`, `Daemon`, `DaemonRuns` |
| Socket between client and daemon: newline framing, controller life cycle | `Framing`, `Controller` |
| Split tunnelling: from a mode and a site list to allowed and excluded ranges, and what they tunnel; prefix arithmetic | `Prefixes`, `SplitTunnel`, `TunnelMeaning`, `PrefixSubtraction` |
| Tunnel configuration as JSON, from the client's document to the daemon's configuration | `ConfigJson`, `ClientDocument` |
| Encrypted settings store with a cache, backup and restoration | `SecureSettings`, `SettingsRuns`, `SettingsBackup` |
| Ping checksum, ring and statistics | `Checksum`, `PingStatistics`, `PingRing` |
| BSD route helper: netmasks and routing messages | `Netmask`, `RouteMessage`, `Bytes` |

How the daemon is modelled. Every backend call (`WireguardUtils`, `IPUtils`, `DnsUtils`, the `run`
hook) returns an arbitrary Boolean and is recorded in a trace. `WorldOf` folds a trace into what is
installed and what was signalled. A backend call that returns false changes nothing. `Throughout`
says that prefixes are installed at every point of a stretch of the trace. A ghost multiset `leaked`
makes the reference counts a conservation law: each count is the number of references from stored
configurations plus the leaked ones. A false `Q_ASSERT` is recorded and execution goes on, as in a
release build. `DaemonRuns` quantifies over every sequence of requests and every backend behaviour.

What comes from outside is a parameter: Qt's text parsers (`Parsers`, `TextParsers`, `Conversions`,
with what Qt documents of them stated as `Lawful`, `Basics`, `Faithful`), serialiser, cipher and
keychain of the settings (`Codec`, `Working`, `keychainWorks`), JSON conversion (`Converter`), the clock,
the peer list of a poll, and what socket reads return.

Properties that do not hold of the code, each with its exact condition:

- An excluded subnet is counted under its text key and given back under the null key, so a server
  switch never frees it and trips an assertion. Counting and giving back agree exactly for plain host
  addresses (`KeysAgreeExactlyWhenPlain`, `MissesAreStrays`, `SubnetIsNeverGivenBack`).
- A failed `deletePeer` in a switch leaves the old configuration stored with its references given
  back (`SwitchServer`, `FailedPeerDeletion`).
- An activation that fails after the switch stores a state and starts no poll timer; it is polled if
  and only if the timer was armed before (`LapseCondition`).
- A switch can remove a range or a peer that another hop uses (`ActivationExactness`).
- The client's buffer survives a reconnection (`LeftoverIsHarmlessExactlyWhenBlank`).
- A valid status reply while a retry is due emits `initialized`, and the retry can make it come again;
  an emission is the last one, whatever follows, if and only if it is no such reply
  (`InitializedIsLastExactlyWhen`, `EarlyStatusInitializesTwice`).
- Only the default list of allowed ranges, as it is written, makes all three route modes mean what they
  say. Any other list that allows everything makes the second mode ignore the sites and lets a longer
  range override a site in the third; an empty list drops the sites in both; and the third mode
  depends on two parsers agreeing on each site (`TranslationIsRightExactlyWhen`,
  `ThirdModeWhenAlike`, `ReadingsAgreeExactly`). The comment in `activate` speaks of the WireGuard
  list having priority; the code compares arrays, so order and repetition count.
- Data before initialization trips the assertion of `readData`; the exact condition for all three
  assertions is `AssertionsHoldExactlyWhenTimely`.
- A store opened for the first time while the keychain does not work sets the flag and leaves the list of
  servers in clear; afterwards nothing is in clear if and only if nothing was before, or the conversion
  ran with a working keychain (`constructor`, `FlagWithoutEncryption`).
- A keychain read that fails once makes the code overwrite the secret that is there (`LoadThrough`).
- `/0` given for a net that is not zero is taken as no length at all (`MakeNetAndMask`).
- `mask_addr` with a mask of zeros erases the destination's family (`MaskDestination`).
- Before the first ping a reply with sequence number 0 is taken (`PingReceived`).
- A plain value that carries the encryption marker stands for what decoding makes of it, and the cache
  disagrees unless that is the value itself (`SetValue`).
- `remove` of a group leaves the group's cached values (`Remove`).
- Restoring a backup deletes nothing (`BackupRestores`).
- The printed MTU is a number where the parser reads a string, so it always comes back as 1420; kill
  switch and junk parameters are not printed (`CarriedIsWholeExactlyWhen`).
- Taking a prefix out of another whose host bits differ reaches a false assertion or leaves the address in
  the result (`ExcludeOne`).

## Model

| member | source | states |
|---|---|---|
| `Addresses.KeysAgreeExactlyWhenPlain` | client/mozilla/shared/ipaddress.cpp:13-58 | the text constructor and the host-address constructor give the same key if and only if the text is a plain host address; every other text has the null key as host key, under which nothing is ever added |
| `ExclusionCounts.NoStrayExactlyWhenAllPlain` | client/daemon/daemon.cpp:536-538 | a configuration leaves no stray references if and only if all its excluded entries are plain host addresses |
| `ExclusionCounts.LowerAllCounts` | client/daemon/daemon.cpp:536-538 | giving back a configuration's entries lowers each count by exactly the number of its plain entries with that key |
| `ExclusionCounts.MissesAreStrays` | client/daemon/daemon.cpp:224-232 | if the counts cover the plain entries, the assertion is false exactly once per entry that is not a plain host address |
| `ExclusionCounts.MoreReferencesSurvive` | client/daemon/daemon.cpp:224-232 | a prefix with more references than the configuration gives back is never on its last reference while it is given back |
| `ExclusionCounts.LoweredTally` | client/daemon/daemon.cpp:536-538 | conservation: counts that tally the rest and the old entries tally the rest and the old stray entries afterwards |
| `ExclusionCounts.SubnetIsNeverGivenBack` | client/daemon/daemon.cpp:518-538 | counterexample: adding and removing `10.0.0.0/8` leaves its count raised and trips the assertion once |
| `DaemonMachine.Daemon.AddExclusionRoute` | client/daemon/daemon.cpp:212-222 | the count goes up by one or, if a first reference cannot be installed, nothing changes; no installed exclusion is dropped and the installed ones stay the counted ones |
| `DaemonMachine.Daemon.DelExclusionRoute` | client/daemon/daemon.cpp:224-232 | the count goes down by one and the last reference uninstalls; the assertion is false exactly for a prefix without a count; a prefix with another reference stays installed |
| `DaemonMachine.Daemon.TakeExclusions` | client/daemon/daemon.cpp:134-137 | adding a configuration's entries keeps the conservation law with the entries as leaked, and drops nothing |
| `DaemonMachine.Daemon.ReturnExclusions` | client/daemon/daemon.cpp:535-538 | giving back a configuration's entries leaves the rest and its stray entries counted, trips the assertion once per stray entry, and everything referenced besides stays installed throughout |
| `DaemonMachine.Daemon.UpdateRoutes` | client/daemon/daemon.cpp:149-155 | on success exactly the given prefix routes are added; on failure a call failed; exclusions are not touched |
| `DaemonMachine.Daemon.DeleteRoutes` | client/daemon/daemon.cpp:539-543 | if all calls succeed, exactly the given routes that are not to be kept are removed |
| `DaemonMachine.Daemon.InstallNew` | client/daemon/daemon.cpp:518-533 | the first half of a switch: new entries counted, peer and routes added, nothing dropped; a failed peer update changes no route and no peer |
| `DaemonMachine.Daemon.DropOldPeer` | client/daemon/daemon.cpp:539-550 | old routes and the old peer are removed unless they are also the new ones; it fails exactly if the peer cannot be deleted; exclusions are not touched |
| `DaemonMachine.Daemon.RemoveOld` | client/daemon/daemon.cpp:535-550 | the second half of a switch: old plain references given back, old routes and peer removed unless the new configuration has them; it fails exactly if the peer cannot be deleted, with the references given back all the same |
| `DaemonMachine.Daemon.SwitchServer` | client/daemon/daemon.cpp:509-554 | keeps the invariant; from a trusted state every prefix that both configurations or another hop exclude is installed at every intermediate step; stored state, leaked references, assertions and network as functions of the state before, also if the old peer cannot be deleted |
| `DaemonMachine.Daemon.MaybeUpdateResolvers` | client/daemon/daemon.cpp:168-190 | resolvers are set for single and exit hops only, to the two servers and, only if the first is the gateway, the IPv6 gateway |
| `DaemonMachine.Daemon.Deactivate` | client/daemon/daemon.cpp:447-487 | keeps the invariant; either the hook refused and nothing changed, or nothing is stored or counted any more whatever calls failed, and the interface is gone exactly if its deletion succeeded; if all succeed, the network is what it was without the stored configurations' routes, peers and exclusions |
| `DaemonMachine.Daemon.EnsureInterface` | client/daemon/daemon.cpp:115-132 | on success the interface exists and, where supported, was given its addresses and then its MTU, both from the configuration; if all calls succeed it is the one that was there, or a new one with the configuration's own key and addresses; on failure a call failed |
| `DaemonMachine.Daemon.BringUp` | client/daemon/daemon.cpp:113-165 | activating a hop without a state: on success exactly the configuration's routes and peer are added, the state stored and the timer started; on failure stored states and timer are untouched |
| `DaemonMachine.Daemon.SwitchOver` | client/daemon/daemon.cpp:74-97 | activating by switching: outcome of every path, including failure after the new state is stored |
| `DaemonMachine.Daemon.Reactivate` | client/daemon/daemon.cpp:100-110 | deactivating and activating again meets the contract of one activation |
| `DaemonMachine.Daemon.Activate` | client/daemon/daemon.cpp:56-166 | ends after at most one recursive call whatever the backend returns; returns true exactly if it emitted no `activationFailure` (at most two otherwise); on true the requested configuration is stored for its hop and the timer armed; keeps the invariant |
| `DaemonMachine.Daemon.AwaitHandshake` | client/daemon/daemon.cpp:601-609 | the date is the last listed handshake with the key, and `connected` is emitted once per listed handshake, for that hop and key |
| `DaemonMachine.Daemon.CheckHandshake` | client/daemon/daemon.cpp:587-621 | every pending state gets its date, `connected` is emitted once per listed handshake and names the peer of its hop, dated states are left alone, and the timer is started again exactly if a state is still pending |
| `DaemonStates.FirstIsLowest` | client/daemon/daemon.cpp:450-456 | the state whose configuration the hook gets on deactivation is that of the lowest hop type stored |
| `DaemonStates.ResolversAre` | client/daemon/daemon.cpp:170-186 | the primary server comes first, and another one is asked if and only if it is a configured secondary one, or the IPv6 gateway while the primary one is the IPv4 gateway |
| `DaemonStates.LastHandshakeIsLast` | client/daemon/daemon.cpp:601-609 | the date is that of the last listed entry with the key and a handshake, and there is none exactly if no entry is such |
| `DaemonStates.PollDates` | client/daemon/daemon.cpp:587-614 | the same for every stored state of a poll, with its configuration unchanged and an earlier date kept |
| `DaemonStates.FailedPeerDeletion` | client/daemon/daemon.cpp:545-550 | after a failed peer deletion the counts cover the stored configurations if and only if the old plain entries are made up for by the new and the leaked ones |
| `DaemonStates.FailedPeerDeletionUncovers` | client/daemon/daemon.cpp:545-550 | counterexample: one plain old entry, a new configuration without it, nothing leaked |
| `DaemonStates.HitsAreDates` | client/daemon/daemon.cpp:601-614 | a key gets a date if and only if it has a listed handshake, and at most one if keys are listed once |
| `DaemonStates.PollKeepsOrder` | client/daemon/daemon.cpp:587-621 | a poll keeps the whole invariant, including one emission per date |
| `DaemonStates.ReactivateMeetsOutcome` | client/daemon/daemon.cpp:100-110 | the outcomes of a deactivation and of an activation compose to that of one activation |
| `DaemonStates.SwitchExactness` | client/daemon/daemon.cpp:526-550 | after a switch routes and peers are exactly those of the stored configurations if and only if nothing given up is used by another hop |
| `DaemonStates.ActivationExactness` | client/daemon/daemon.cpp:73-166 | the same for every kind of activation |
| `DaemonStates.SharedRangeIsLost` | client/daemon/daemon.cpp:539-543 | counterexample: two hops share a range and one is switched to a configuration without it |
| `DaemonRuns.Serve` | client/daemon/daemon.cpp:56-166 | any sequence of activations, deactivations and polls is a run in the sense of the lemmas below and keeps the invariant |
| `DaemonRuns.CountsCoverStored` | client/daemon/daemon.cpp:212-232 | over every run, while additions and peer deletions succeed, each count is at least its references in stored configurations, and equal if no activation failed and no assertion was false since the last clearing |
| `DaemonRuns.PlainRunsTripNoAssertion` | client/daemon/daemon.cpp:225 | over every run with plain entries in which additions and peer deletions succeed, no assertion is ever false, whatever other calls fail |
| `DaemonRuns.PlainRunsCountExactly` | client/daemon/daemon.cpp:212-232 | over such a run each count is exact in every state up to which no activation failed since a clean one |
| `DaemonRuns.OneHopRunsAreExact` | client/daemon/daemon.cpp:73-166 | over every run on one hop type in which all calls succeed, after each request routes and peer are exactly the current configuration's, and none when nothing is stored |
| `DaemonRuns.RunsAreExactExactlyWhen` | client/daemon/daemon.cpp:73-166 | over every run on any number of hops in which all calls succeed, routes and peers are exact after every request if and only if no request gives up what another hop asks for |
| `DaemonRuns.InterfaceIsReplacedExactlyWhen` | client/daemon/daemon.cpp:489-507 | if all calls succeed, activating a stored hop deletes the interface and creates one with the new key and addresses if and only if own key, own addresses or gateways differ, and otherwise leaves it as it is |
| `DaemonRuns.SwitchLeavesInterface` | client/daemon/daemon.cpp:74-97 | the second half whatever calls fail |
| `DaemonRuns.OneHopRunsKeepTheInterface` | client/daemon/daemon.cpp:56-166 | over every run on one hop type in which all calls succeed, after each request the interface has the stored configuration's own key and addresses, and there is none when nothing is stored |
| `DaemonRuns.PendingIsPolled` | client/daemon/daemon.cpp:617-620 | over every run in which each activation that gets past the switch succeeds, a state without a handshake date implies that the timer is armed |
| `DaemonRuns.LapseCondition` | client/daemon/daemon.cpp:78-98 | an activation that fails past the switch leaves its pending state polled if and only if the timer was armed before |
| `DaemonRuns.FailedRestoreLapses` | client/daemon/daemon.cpp:77-83 | counterexample, a run from the constructed daemon with all its calls: it connects, a poll finds the handshake, activating again fails at restoring the resolvers; the state is then pending and no timer runs |
| `DaemonRuns.ConnectedAtMostOnce` | client/daemon/daemon.cpp:587-621 | over every run whose polls list each key once, `connected` was emitted exactly once for a stored state with a date and never for one without |
| `Framing.ClientReader.ReadData` | client/mozilla/localsocketcontroller.cpp:364-390 | the commands passed on and the buffer are those of reading the input byte by byte |
| `Framing.ClientReader.ReadAll` | client/mozilla/localsocketcontroller.cpp:364-390 | however a stream is cut into reads, the result depends on the whole stream only |
| `Framing.DaemonReader.ReadData` | client/daemon/daemonlocalserverconnection.cpp:48-76 | the daemon's loop, which reads on until nothing is left, gives the same result for every cutting |
| `Framing.DaemonReader.ReadAll` | client/daemon/daemonlocalserverconnection.cpp:48-76 | the same over any sequence of notifications |
| `Framing.ReaderFindsTheLines` | client/mozilla/localsocketcontroller.cpp:371-389 | the commands are the trimmed non-blank complete lines of the stream in order, and the buffer is the unfinished tail |
| `Framing.EveryStreamSplits` | client/mozilla/localsocketcontroller.cpp:371-389 | every byte stream has such lines and such a tail |
| `Framing.TrimIsTheMiddle` | client/mozilla/localsocketcontroller.cpp:381-382 | trimming takes exactly the spaces around a stretch that neither starts nor ends with one |
| `Framing.EveryLineHasAMiddle` | client/mozilla/localsocketcontroller.cpp:381-382 | every line is such a stretch with spaces around it |
| `Framing.Sender.WriteAll` | client/mozilla/localsocketcontroller.cpp:553-558 | the messages are put on the socket each followed by a newline |
| `Framing.MessagesAreRecovered` | client/daemon/daemonlocalserverconnection.cpp:169-172 | every sequence of compact JSON messages is recovered exactly, with nothing left over |
| `Framing.ClientToDaemon` | client/mozilla/localsocketcontroller.cpp:553-558 | whatever messages the client writes and however the stream is cut into notifications and chunks, the daemon is delivered exactly the messages |
| `Framing.DaemonToClient` | client/daemon/daemonlocalserverconnection.cpp:169-172 | likewise from the daemon to the client |
| `Framing.NothingIsDeliveredEarly` | client/mozilla/localsocketcontroller.cpp:364-390 | at every point of a transfer what was delivered is a prefix of what was sent |
| `Framing.LeftoverIsHarmlessExactlyWhenBlank` | client/mozilla/localsocketcontroller.cpp:364-369 | the buffer kept from a broken connection leaves every later stream's commands as sent if and only if it is blank |
| `Framing.LeftoverCorrupts` | client/mozilla/localsocketcontroller.cpp:364-369 | counterexample: a leftover that is not blank is delivered as a command of the new connection |
| `Controller.Serve` | client/mozilla/localsocketcontroller.cpp:64-122 | any run of the controller follows the specification from the constructed state |
| `Controller.OrderlyRunsStayInLine` | client/mozilla/localsocketcontroller.cpp:64-122 | over every run with one initialization before any socket event and no status reply between an error and the next attempt: timer armed only while initializing, started at most ten times, `initialized` emitted at most once |
| `Controller.WellBehavedRunsTripNoAssertion` | client/mozilla/localsocketcontroller.cpp:96-121 | over every run in which initialization comes first and once, each connection answers the latest attempt with no error in between, and data arrives only on a connection, none of the three assertions is ever false |
| `Controller.WellBehavedRunsAreOrderly` | client/mozilla/localsocketcontroller.cpp:64-122 | every such run, with any number and order of errors, keeps the bounds on the timer, the retries and `initialized` |
| `Controller.AssertionsHoldExactlyWhenTimely` | client/mozilla/localsocketcontroller.cpp:364-368 | over every run, no assertion is false if and only if initialization precedes all errors and other initializations, data follows one of them, and each connection comes while the last attempt is open: no status reply since, and every error since answered by the retry timer |
| `Controller.EarlyDataTripsTheAssertion` | client/mozilla/localsocketcontroller.cpp:368 | counterexample: a reply before anything else |
| `Controller.TimerStaysWithInitializing` | client/mozilla/localsocketcontroller.cpp:409-410 | an input keeps the timer armed only while initializing if and only if it is not a status reply while a retry is due |
| `Controller.InitializedIsLastExactlyWhen` | client/mozilla/localsocketcontroller.cpp:409-432 | an input that emits `initialized` is the last to do so, whatever follows but another initialization, if and only if it is not a status reply that arrives while a retry is due |
| `Controller.RunInitializesOnceExactlyWhen` | client/mozilla/localsocketcontroller.cpp:64-122 | the same over every run and every continuation of it |
| `Controller.SignalsMeanWhatTheySay` | client/mozilla/localsocketcontroller.cpp:64-122 | over every run, from what was seen before: `initialized(true, c)` is emitted exactly on a valid reply with `connected` equal to `c` while a connection is waited for; `initialized(false, c)` exactly on an error then that finds ten retries used up, with `c` false; and likewise for every other signal, connection attempt, timer start and request sent |
| `Controller.EarlyStatusInitializesTwice` | client/mozilla/localsocketcontroller.cpp:409-432 | counterexample: a valid reply while a retry is due, the retry and one more valid reply emit `initialized` twice |
| `Controller.OneErrorArmsTheTimer` | client/mozilla/localsocketcontroller.cpp:64-72 | an orderly run reaches the state that the counterexample starts from |
| `Prefixes.FirstMatchIsLongestPrefixMatch` | client/daemon/daemon.cpp:373-378 | on every sorted rearrangement of a range list the first match is the longest-prefix match on the list |
| `Prefixes.SortByPrefixLength` | client/daemon/daemon.cpp:373-378 | the sort is a permutation with non-increasing prefix lengths |
| `SplitTunnel.AppendSplitTunneling` | client/vpnConnection.cpp:421-458 | the mode falls back to all sites if no site is usable; the sites are the usable ones without repetition, with the resolvers in the second mode, and none unless the configuration allows everything |
| `SplitTunnel.CollectSites` | client/vpnConnection.cpp:434-441 | a text is collected if and only if it is some entry's name and an address or a subnet, or the resolved address of an entry whose name is neither; in the order of the entries |
| `SplitTunnel.AcceptedExactly` | client/core/utils/networkUtilities.cpp:142-170 | the format check accepts exactly an IPv4 address, or one followed by a slash and a length from 0 to 32 |
| `SplitTunnel.RemoveDuplicates` | client/vpnConnection.cpp:442 | the same texts, each once |
| `SplitTunnel.Compile` | client/mozilla/localsocketcontroller.cpp:170-239 | the ranges and excluded entries that reach the daemon, sorted there |
| `TunnelMeaning.TunnelledByTexts` | client/mozilla/localsocketcontroller.cpp:170-239 | under longest-prefix match, excluded first on a tie, a destination is tunnelled if and only if it is not the host and some listed text covers it with a longer prefix than every excluded site that does |
| `TunnelMeaning.ReachedExactly` | client/mozilla/localsocketcontroller.cpp:170-239 | for every list of allowed ranges, every mode and every site list: exactly which IPv4 destinations are tunnelled |
| `TunnelMeaning.TranslationIsRightExactlyWhen` | client/vpnConnection.cpp:421-458 | for every list of allowed ranges, every mode, every site list and whatever the parsers make of the sites, exactly the destinations asked for are tunnelled if and only if a stated condition on list, mode and sites holds |
| `TunnelMeaning.ReadingsAgreeExactly` | client/core/utils/networkUtilities.cpp:154-169 | for every accepted site: the range it is allowed as and the key it is excluded under cover the same addresses if and only if the parsers agree on its length and leading bits |
| `TunnelMeaning.ThirdModeOfDefault` | client/mozilla/localsocketcontroller.cpp:230-239 | with the default list the third mode is right if and only if keys and ranges of the sites cover the same addresses besides the host |
| `TunnelMeaning.ThirdModeWhenAlike` | client/mozilla/localsocketcontroller.cpp:175-192 | with any list that allows everything, and sites that read alike, the third mode is right if and only if no address of a site lies under a longer range of the list |
| `TunnelMeaning.TranslationPreservesMeaning` | client/mozilla/localsocketcontroller.cpp:170-239 | for a configuration that allows exactly `0.0.0.0/0, ::/0` and every IPv4 destination: tunnelled if and only if asked for by the entries of the user's list (all but the host; entries and resolvers without the host; all but entries and host), an entry standing for its name if that is an address or a subnet and else for its resolved address |
| `TunnelMeaning.ResolvedSiteCounts` | client/vpnConnection.cpp:434-441 | in particular the address that a site given by name was resolved to is tunnelled in the second mode and not in the third |
| `TunnelMeaning.Translate` | client/vpnConnection.cpp:421-458 | both results for the composed code from the settings to the daemon |
| `TunnelMeaning.OtherListForwardsTooMuch` | client/mozilla/localsocketcontroller.cpp:175-192 | counterexample: with any other list that allows everything and the one site `10.0.0.0/8`, the second mode tunnels 8.8.8.8 |
| `TunnelMeaning.ExampleExists` | client/vpnConnection.cpp:429-455 | the setup with that site, host and no resolvers exists for every mode and every list with possible lengths |
| `TunnelMeaning.SwappedExampleExists` | client/mozilla/localsocketcontroller.cpp:172-175 | in particular with the two default ranges in the other order, in the second mode |
| `TunnelMeaning.LongerExampleExists` | client/mozilla/localsocketcontroller.cpp:175-192 | and with a list that allows everything and holds a text that reads as `10.1.0.0/16`, in the third mode |
| `TunnelMeaning.SwappedDefaultIsOther` | client/mozilla/localsocketcontroller.cpp:172-175 | the two default ranges in the other order are such a list |
| `TunnelMeaning.NoListDropsTheSites` | client/mozilla/localsocketcontroller.cpp:175 | counterexample: without allowed ranges the second mode does not tunnel 10.0.0.1 of that site and the third does |
| `TunnelMeaning.LongerRangeOverrides` | client/mozilla/localsocketcontroller.cpp:175-192 | counterexample: with `10.1.0.0/16` in the list the third mode tunnels 10.1.0.1 of that site |
| `PrefixSubtraction.ContainsIsSpans` | client/mozilla/shared/ipaddress.cpp:149-184 | `contains` is membership in an interval, whatever host bits are set |
| `PrefixSubtraction.HalvesSplit` | client/mozilla/shared/ipaddress.cpp:201-233 | the two subnets split the interval in the middle if the next bit is clear, and are both the upper half otherwise |
| `PrefixSubtraction.InsideOrApart` | client/mozilla/shared/ipaddress.cpp:141-147 | of two prefixes the longer lies inside the shorter or apart from it, decided by its own address |
| `PrefixSubtraction.ExcludeOne` | client/mozilla/shared/ipaddress.cpp:258-284 | for every two prefixes of which one spans the other's address: result and prefix are pairwise disjoint and make up the whole if and only if the two have the same host bits; otherwise an assertion fails or the result still covers the address |
| `PrefixSubtraction.ExcludeAddresses` | client/mozilla/shared/ipaddress.cpp:236-256 | if all prefixes have the same host bits, as canonical ones do, the result covers exactly the addresses some source prefix covers and no excluded prefix does |
| `ConfigJson.ParseStringList` | client/daemon/daemon.cpp:193-210 | a missing list is empty; anything but an array of strings is refused |
| `ConfigJson.ParseRanges` | client/daemon/daemon.cpp:338-371 | all ranges in order, or refusal if one item is malformed |
| `ConfigJson.ParseConfig` | client/daemon/daemon.cpp:235-445 | succeeds if and only if the members it insists on are there with their types; the ranges come as a sorted permutation, all else as read |
| `ConfigJson.PrintedReadsBack` | client/daemon/interfaceconfig.cpp:13-66 | a printed configuration is accepted if and only if its addresses do not read back as null, and reads back as what is carried |
| `ConfigJson.CarriedIsWholeExactlyWhen` | client/daemon/daemon.cpp:255-259 | everything is carried if and only if MTU, kill switch, junk and an entry hop's gateways and resolvers have their default values |
| `ConfigJson.RoundTrip` | client/daemon/daemon.cpp:235-445 | printing and parsing keeps all that is carried; a first-match scan of the parsed ranges is longest-prefix match on the printed list |
| `ClientDocument.ActivationDocument` | client/mozilla/localsocketcontroller.cpp:124-296 | the document has each member exactly if the client's configuration defines it and it is to be sent: the second resolver not beside the own one, the obfuscation parameters for the protocol that has them or if all eleven are there |
| `ClientDocument.HasTextExactlyWhen` | client/mozilla/localsocketcontroller.cpp:165-166 | the resolver test holds exactly if the address is part of the text |
| `ClientDocument.DocumentIsRead` | client/daemon/daemon.cpp:235-445 | what the parser makes of any such document, member by member |
| `ClientDocument.Deliver` | client/mozilla/localsocketcontroller.cpp:124-296 | client and daemon composed: an activation is refused if and only if a key or the server is missing; otherwise keys, addresses, port, MTU (1420 if missing or no number), resolvers, lists, kill switch and every junk and special parameter are the client's, the hop is the single one, and the ranges are a sorted permutation |
| `SecureSettings.SealOpens` | client/secureQSettings.cpp:89-98 | an encrypted value is marked and decodes to itself |
| `SecureSettings.NewSecretsChangeNothing` | client/secureQSettings.cpp:224-241 | secrets are made only while nothing is encrypted, so making them changes no value |
| `SecureSettings.LoadThrough` | client/secureQSettings.cpp:224-244 | with a keychain each of whose calls may fail on its own, a kept secret survives if and only if the first read succeeds, the write fails or the new secret is the old one; a secret is returned exactly if it was read, or made and read back |
| `SecureSettings.RemovedGroupStaysCached` | client/secureQSettings.cpp:111-117 | counterexample: `Conf/theme` is cached and `Conf` is removed |
| `SecureSettings.MarkedValueIsDecoded` | client/secureQSettings.cpp:57-72 | counterexample: an encrypted value written under a plain key reads back as what was encrypted |
| `SecureSettings.SecureQSettings.constructor` | client/secureQSettings.cpp:24-39 | migration changes no value but the flag, even without a keychain, and no other entry; afterwards no entry that is to be encrypted is in clear if and only if none was before or the conversion ran with a working keychain; every cached value is the decoded stored one |
| `SecureSettings.FlagWithoutEncryption` | client/secureQSettings.cpp:30-38 | counterexample: opened without a keychain, the flag is set and the list of servers stays in clear |
| `SecureSettings.SecureQSettings.Value` | client/secureQSettings.cpp:41-83 | answers from the plain map that the entries stand for, changes nothing in it, and keeps the cache coherent |
| `SecureSettings.SecureQSettings.SetValue` | client/secureQSettings.cpp:85-109 | updates the plain map at one key, for a plain key with what the value decodes to, and then keeps the cache coherent if and only if that is the value itself; without secrets an entry that has to be encrypted is neither stored nor cached |
| `SecureSettings.SecureQSettings.Remove` | client/secureQSettings.cpp:111-117 | removes the key and its group; the cache stays coherent if and only if it held no other key of the group |
| `SecureSettings.SecureQSettings.ClearSettings` | client/secureQSettings.cpp:174-179 | leaves the empty map |
| `SecureSettings.SecureQSettings.GetEncKey` | client/secureQSettings.cpp:217-245 | the key is the one kept in the keychain, made if there was none; the plain map does not change |
| `SecureSettings.SecureQSettings.GetEncIv` | client/secureQSettings.cpp:247-273 | likewise for the initialisation vector |
| `SettingsRuns.Serve` | client/secureQSettings.cpp:24-117 | refinement: every run of reads, writes, removals, clearings and new processes gives the answers and contents of a plain map; where encryption is required, no entry that is to be encrypted is in clear after the run if none was before it |
| `SettingsBackup.NeedToBackup` | client/secureQSettings.cpp:125-140 | exactly the keys in the two groups, without the installation's identity |
| `SettingsBackup.BackupAppConfig` | client/secureQSettings.cpp:119-153 | the document holds exactly the selected entries' values; nothing changes |
| `SettingsBackup.RestoreAppConfig` | client/secureQSettings.cpp:155-172 | an empty document is refused; otherwise all its entries are written, but for the identity and what cannot be encrypted |
| `SettingsBackup.BackupRestores` | client/secureQSettings.cpp:119-172 | a restored backup gives exactly the backed-up selected entries if and only if no other selected entry had come up and the skipped ones were right |
| `SettingsBackup.BackupRunRestore` | client/secureQSettings.cpp:119-172 | on the store itself: backup, any run with new processes, restoration; only selected entries change, and they are the backed-up ones again if and only if the run left no selected entry of another name |
| `SettingsBackup.LaterSettingSurvivesRestore` | client/secureQSettings.cpp:155-172 | counterexample: a selected setting made after the backup is still there after restoring |
| `Checksum.AddWords` | client/mozilla/pingsender.cpp:22-41 | the loop and the odd byte sum the message's words without overflow |
| `Checksum.InetChecksum` | client/mozilla/pingsender.cpp:13-48 | the result is the complement of the ones' complement sum (section 1 of RFC 1071) |
| `Checksum.StandardExample` | client/mozilla/pingsender.cpp:13-48 | the numerical example of section 3 of RFC 1071, in both byte orders |
| `Checksum.AccumulatorHoldsExactlyWhenFits` | client/mozilla/pingsender.cpp:31-41 | the signed 32-bit accumulator holds every message of a length if and only if it is at most 65536 bytes, or 65537 on a little-endian host |
| `Checksum.TwoFoldsSuffice` | client/mozilla/pingsender.cpp:43-46 | two folds are enough for every value of the accumulator |
| `Checksum.OnesSumIsFoldedSum` | client/mozilla/pingsender.cpp:26-45 | adding carries back at the end is ones' complement addition |
| `Checksum.ByteOrderIndependent` | client/mozilla/pingsender.cpp:31-47 | hosts of either byte order compute the same two bytes (section 2(B) of RFC 1071) |
| `Checksum.StoredChecksumVerifies` | client/mozilla/pingsender.cpp:13-48 | stored in a zeroed aligned field it makes the recomputed checksum 0 |
| `PingStatistics.Latency` | client/mozilla/pinghelper.cpp:116-135 | within half a unit of the mean, and between the smallest and the largest answer |
| `PingStatistics.Maximum` | client/mozilla/pinghelper.cpp:157-170 | the largest answered latency below 2^32 - 1, or 0 |
| `PingStatistics.MeanBelowMaximum` | client/mozilla/pinghelper.cpp:116-170 | the rounded mean is never above the maximum |
| `PingStatistics.StdDev` | client/mozilla/pinghelper.cpp:137-155 | n times the accumulated sum exceeds n times the sum of squares less the square of the sum by at most n²/4; the result is the integer part of the root of its mean; no 64-bit overflow up to 2^29 - 1 ms |
| `PingStatistics.SpreadAbout` | client/mozilla/pinghelper.cpp:142-148 | the squared distances from any value, against those from the mean |
| `PingStatistics.Loss` | client/mozilla/pinghelper.cpp:172-192 | the share of slots with a ping lost for more than a second, in [0, 1] |
| `PingRing.PingHelper.Start` | client/mozilla/pinghelper.cpp:62-68 | all slots unused |
| `PingRing.PingHelper.NextPing` | client/mozilla/pinghelper.cpp:84-99 | after any number of pings each used slot holds the latest ping with its index modulo 32, under wraparound of the sequence number |
| `PingRing.PingHelper.PingReceived` | client/mozilla/pinghelper.cpp:101-114 | a reply is taken if and only if its number is that of one of the last 32 pings (or 0 before the first), and its latency is measured from that ping |
| `PingRing.SlotMatchesExactlyRecent` | client/mozilla/pinghelper.cpp:101-103 | a slot shows a reply's number if and only if a recent ping had it, and that ping is unique |
| `PingRing.OneMorePing` | client/mozilla/pinghelper.cpp:92-98 | one more ping overwrites its own slot only |
| `Netmask.CheckMask` | service/server/helper_route_mac.c:837-846 | the two loops accept exactly the values 2^32 - 2^k for k from 0 to 32 |
| `Netmask.MakeNetAndMask` | service/server/helper_route_mac.c:876-913 | the net is shifted by whole bytes until its top byte is not zero; a given length gives 2^32 - 2^(32-bits) if and only if it is not 0 for a net that is not; without one the mask is the shortest byte-aligned one that covers the net |
| `Netmask.NormaliseNet` | service/server/helper_route_mac.c:886-888 | the normalising loop ends |
| `Netmask.PrefixLen` | service/server/helper_route_mac.c:1146-1190 | the byte-wise mask is the number 2^max - 2^(max-len) for IPv4 and IPv6; a length out of range leaves it alone |
| `Netmask.BuildersAgree` | service/server/helper_route_mac.c:1177-1185 | byte-wise and word-wise mask are the same number, and contiguous |
| `RouteMessage.Pack` | service/server/helper_route_mac.c:1253-1291 | the flagged addresses lie one after the other in the order of their bits, zeros after them; the message length is the header plus the rounded lengths |
| `RouteMessage.Unpack` | service/server/helper_route_mac.c:1541-1564 | the reader finds each flagged address at the offset where the writer put it and ends after the last |
| `RouteMessage.RoundTrip` | service/server/helper_route_mac.c:239-241 | writing and reading: each address is found with its length and bytes |
| `RouteMessage.RoundUpIsLeast` | service/server/helper_route_mac.c:239-240 | the space of an address is the least number of whole words, and at least one, that holds it |
| `RouteMessage.TrimMask` | service/server/helper_route_mac.c:1313-1323 | zero-extended, the trimmed mask is the mask it was apart from its length byte, and it is the shortest |
| `RouteMessage.MaskDestination` | service/server/helper_route_mac.c:1335-1341 | what lies beyond the mask is cleared, what lies under it masked; the destination's family survives if and only if the mask is not empty, or there was none to lose |

## Left out

- `toWgConf`, `getStatus`, `prepareActivation`, logs and backend failure commands: field copying and plumbing.
- A backend call that fails is taken to change nothing, and one that succeeds to do what its name says.
- The iteration orders of `QHash` and `QSettings::allKeys` are arbitrary in the model; that of `QMap` is by hop type.
- Per-platform branches: the Windows minimum MTU of 1280, and encryption switched off on Linux, which is a parameter.
- Mutexes and threads: each operation runs to its end.
- The lexing of JSON, and the reading of allowed ranges out of a native configuration text.
- ClientDocument.Deliver: members of the client's configuration are texts or undefined, and lists hold texts, as the client writes them; JSON values of other types there are not modelled. How ranges and exclusions come about is in `Compile`.
- Killswitch, router, IPC, UI and network watcher.
- TunnelMeaning.Translate: destinations are IPv4; IPv6 destinations, an IPv6 host and per-application tunnelling are not covered, and IPv4 ranges have lengths from 0 to 32, as the assertions of the `IPAddress` constructor ask.
- PrefixSubtraction.ExcludeAddresses: states its result for lists that share their host bits; for mixed ones a later excluded prefix can hide the harm of an earlier one, and `ExcludeOne` has the exact condition for each step.
- Netmask.MakeNetAndMask: lengths above 32, which C leaves undefined, are not modelled.
- RouteMessage.Pack: an overflow of the 512 bytes of address space is not modelled, since the code does not check for it.
- RouteMessage.MaskDestination: a mask or destination that fills its whole union makes the code write one byte past it; those lengths are not modelled.
- PingStatistics.StdDev: the floating-point square root is replaced by the integer part of the exact root; overflow of the 64-bit sum beyond 2^29 - 1 ms is not modelled.
- PingStatistics.Latency: for latencies of 2^32 - 1 ms or more the result is only said to be 32 bits wide.
- Checksum.InetChecksum: longer messages than the accumulator can hold are not modelled, since signed overflow is undefined.
- SecureSettings.SecureQSettings.GetEncKey: the salt generator always gives 32 bytes, and in the store's invariant the keychain either works throughout or not at all; calls that fail one by one are in `LoadThrough`.
- SecureSettings.SecureQSettings.GetEncIv: likewise.
- ConfigJson.ParseConfig: ports and prefix lengths are integers; the conversion of JSON doubles is not modelled.
