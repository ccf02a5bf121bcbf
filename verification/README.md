# Verified model of resocks5's network core

resocks5 dials chains of upstream proxies on behalf of local clients. This
project models the parts of its network crate whose correctness is not visible
from any one function, and proves what they promise with Dafny:

- **Chains.** The gate-linked proxy descriptors and the identity of a chain
  (`ChainIdentity`), and the lazy plan that enumerates gate layers × exits like an
  odometer while nodes die and chains are excluded under way (`Odometer`,
  `ChainPlanning`), and the way back from a pick to the rotators
  (`ChainResolving`).
- **The hedged race** (`Hedge`): attempts, the handshake mutex, the `won` flag,
  the coordinator and the drain as one transition system; every interleaving is a
  sequence of atomic steps, the tick's look at the mutex and its launch among them.
- **What the peer said first.** TLS handshake reassembly (`TlsRecords`), the
  server-name parser and its "could more bytes change this?" probe
  (`RecoverHost`), exactly which data a name can still come from (`Entries`,
  `SniFits`), their round trip with an encoder of section 4.1.2 of RFC 8446 and
  section 3 of RFC 6066 (`ClientHello`), and the HTTP `Host` parser with
  its probe (`HttpHosts`, `Utf8Prefix`), code points and white space
  (`CodePoints`) and requests to read back (`HttpRequests`).
- **HTTP CONNECT.** The two response readers against one specification
  (`HeaderEnd`, `ConnectResponse`), and the inbound head reader, line splitter and
  prefixed stream (`InboundHttp`).
- **SOCKS5 on both ends** (sections 3, 4 and 6 of RFC 1928, section 2 of RFC
  1929). Each end is a machine (`Machines`, `SocksPeers`); the client's and the
  server's code are proved to follow theirs (`Following`, `SocksClient`,
  `SocksServer`); what each end says to any bytes is told octet by octet
  (`SocksWire`); and the two are composed over byte channels with arbitrary
  delivery (`SocksDialogue`, `SocksDelivery`), down to the `host:port` text
  (`HostPorts`).
- **The rotator.** The sticky cache of a map and two ordered sets against a
  least-recently-used list (`Lru`, `StickyCaching`), what its callers see of it
  over any history of calls (`StickyLinks`), and the identity index against linear
  search (`IdentityIndex`).
- **Ratings.** The quarantine cell and its runs (`Quarantine`, `QuarantineRuns`),
  the sand model over exact reals (`SandModel`), weighted selection
  (`Selection`), and the set that combines them (`Ratings`).

`dafny verify dfyconfig.toml` checks everything.

## How the source is modelled

Byte streams deliver their bytes in any chunks (`Streams.Inbound`), so every
result about a reader holds for every segmentation. Time is a natural number of
nanoseconds passed in explicitly, with a largest representable instant
(`horizon`); durations and counters saturate where the machine types do. Strings
on the wire are their UTF-8 bytes.

Long functions of the source appear as one method for each phase. Fields that
exist only for proofs are ghost (`ChainPlan.returned`, `StickyCache.list`). A
chain plan keeps its `live` and `index` counters in two sequences beside the
layers instead of inside each layer.

These are parameters, and every theorem holds for all their values: selection
orders handed to a chain plan, random draws, hash functions, the exponential and
the logarithm (with the laws in `SandModel.Lawful`), readers and printers of IP
literals (with the laws in `HostPorts.LawfulIp`), and the host's decision about
credentials.

The code and its documentation disagree in three places, and the model follows the
code.

- `http_host_might_still_appear` is documented to say no only when further bytes
  are irrelevant. It says no in more cases: `HttpHosts.NoCanBeWrong` gives three
  inputs after which a host can still be parsed, `HttpHosts.WrongNoExactly` says
  exactly when, and `HttpHosts.TameNoIsFinal` that on data starting with a letter,
  with no bare line feed, the probe's no is final.
- `sni_might_still_appear` is documented to say yes if more bytes could still bring
  a name. It also says yes where none can, when a length that has arrived overruns
  what declares it or a name is malformed: `SniFits.WrongYesExactly` says exactly
  when.
- `connect_hedged` is documented to launch on a tick only while no handshake is
  active. It drops the guard of its check before it launches:
  `Hedge.LaunchBesideHandshake` is a run in which an attempt starts its handshake
  in between, and `Hedge.LaunchesBesideExactly` says for which calls there is one.

## Model

| member | source | states |
|---|---|---|
| ChainIdentity.Nodes | crates/resocks5-net/src/types/proxy_config.rs:140-149 | the walk lists the chain outermost first, exit last |
| ChainIdentity.Outermost | crates/resocks5-net/src/types/proxy_config.rs:152-158 | the walk ends at the first node of the list |
| ChainIdentity.ChainLen | crates/resocks5-net/src/types/chain.rs:31-39 | the count is the number of listed nodes |
| ChainIdentity.Chain | crates/resocks5-net/src/types/chain.rs:12-23 | folding links each node to the chain of those before it; empty input gives none |
| ChainIdentity.NodesOfLinked | crates/resocks5-net/src/types/chain.rs:9-28 | listing the nodes of a built chain gives back the input nodes, each with the link the fold gave it, and the same identity sequence |
| ChainIdentity.LinkedNodesOf | crates/resocks5-net/src/types/chain.rs:9-28 | rebuilding a chain from its own nodes gives exactly that chain |
| ChainIdentity.KeyEq | crates/resocks5-net/src/types/chain.rs:61-85 | the exit-first comparison answers whether the outermost-first identity sequences are equal |
| ChainIdentity.Hash | crates/resocks5-net/src/types/chain.rs:89-105 | the hasher receives the node count and six values a node, a function of the key alone |
| ChainIdentity.SameNode | crates/resocks5-net/src/types/chain.rs:61-85 | two nodes have the same identity if and only if protocol, host, port, user, password and gate level are equal |
| ChainIdentity.FeedInOrder | crates/resocks5-net/src/types/chain.rs:89-105 | the hasher receives those six values of each node, in this order, outermost node first |
| ChainIdentity.FeedDeterminesKey | crates/resocks5-net/src/types/chain.rs:42-105 | two keys feed the hasher equal data if and only if they are equal |
| ChainIdentity.ResolveGates | crates/resocks5-net/src/session/chain/mod.rs:50-90 | gates resolve if and only if every node has its level's rank and its rotator holds that identity; each hop comes from its level's rotator |
| ChainIdentity.Resolve | crates/resocks5-net/src/session/chain/mod.rs:50-90 | a chain resolves if and only if its length, gate ranks and all identities fit the rotators, and then with the same key |
| ChainIdentity.PickResolves | crates/resocks5-net/src/session/chain/mod.rs:44-90 | a pick of the configured rotators resolves back if and only if every gate hop has its level's rank |
| ChainResolving.DeliveredResolves | crates/resocks5-net/src/session/chain/mod.rs:50-331 | a pick delivered by a plan drawn from the configured rotators has the key of its own chain, every hop from its level's rotator, and resolves back if and only if the ranks of its gate hops agree |
| ChainResolving.RankedRotators | crates/resocks5-net/src/session/chain/mod.rs:50-331 | which they do if every gate rotator holds nodes of its level's rank only |
| Odometer.CarryIsBump | crates/resocks5-net/src/session/chain/mod.rs:304-331 | the digit-by-digit carry moves exactly one pivot and zeroes everything behind it, or wraps to the end |
| Odometer.CarryGap | crates/resocks5-net/src/session/chain/mod.rs:304-331 | a carry out of place f jumps over nothing but vectors sharing the prefix up to f |
| Odometer.RankGrows | crates/resocks5-net/src/session/chain/mod.rs:237-331 | lexicographic order is mixed-radix rank order, the termination measure of the plan |
| Odometer.ProductIsBox | crates/resocks5-net/src/session/chain/mod.rs:174-180 | the Cartesian product used as the specification lists every index vector once, ascending |
| ChainPlanning.FirstOccurrencesCover | crates/resocks5-net/src/session/chain/mod.rs:334-348 | de-duplication repeats no identity, loses none and invents no hop |
| ChainPlanning.FirstOccurrencesChosen | crates/resocks5-net/src/session/chain/mod.rs:186-218 | for any orders, the candidates are the hops at exactly the pairs of order and position with no earlier pair of the same identity, in lexicographic order |
| ChainPlanning.Deduplicate | crates/resocks5-net/src/session/chain/mod.rs:334-348 | computes the first occurrences in order |
| ChainPlanning.ExitCandidates | crates/resocks5-net/src/session/chain/mod.rs:203-218 | the exit layer is the picks, rotator by rotator and in the order drawn, whose identity occurs at no earlier pair of rotator and position |
| ChainPlanning.KeyAtInjective | crates/resocks5-net/src/session/chain/mod.rs:292-354 | different index vectors are different chains |
| ChainPlanning.SurvivesExactly | crates/resocks5-net/src/session/chain/mod.rs:237-302 | a vector is still to be dialled if and only if no node it names is dead and the sequence of their identities is not excluded; its pick has those hops and that sequence as its key |
| ChainPlanning.CountLiveAfterDeath | crates/resocks5-net/src/session/chain/mod.rs:269-286 | one more dead key costs a layer exactly one live candidate or none, so `live` never underflows |
| ChainPlanning.CarryKeeps | crates/resocks5-net/src/session/chain/mod.rs:304-331 | a carry keeps the sweep complete: all survivors behind the position were returned, in order |
| ChainPlanning.JumpKeeps | crates/resocks5-net/src/session/chain/mod.rs:314-331 | jumping a dead subtree condemns only vectors that contain the dead node |
| ChainPlanning.VisitKeeps | crates/resocks5-net/src/session/chain/mod.rs:292-312 | stepping past a returned or excluded vector keeps the sweep complete |
| ChainPlanning.GrowthKeeps | crates/resocks5-net/src/session/chain/mod.rs:269-290 | deaths and exclusions between calls unsettle nothing; an emptied layer condemns every vector left |
| ChainPlanning.RunJump | crates/resocks5-net/src/session/chain/mod.rs:237-331 | one more consecutive jump is paid for by a forward move or one full pass of the layers reset |
| ChainPlanning.RunBounded | crates/resocks5-net/src/session/chain/mod.rs:237-331 | a run of jumps is shorter than twice the sum of the layer sizes |
| ChainPlanning.PassedOverCount | crates/resocks5-net/src/session/chain/mod.rs:237-290 | one call passes over at most as many vectors as there are exclusions |
| ChainPlanning.BudgetIsLinear | crates/resocks5-net/src/session/chain/mod.rs:237-331 | the work bound of one call is (exclusions + 1) × (2 × sum of layer sizes + 1), no product of sizes |
| ChainPlanning.SurvivorsAreSome | crates/resocks5-net/src/session/chain/mod.rs:174-180 | the filtered product holds exactly the vectors with no dead node and no exclusion, ascending |
| ChainPlanning.FinishedPlan | crates/resocks5-net/src/session/chain/mod.rs:237-331 | a finished plan during which nothing died has returned the filtered product, in order |
| ChainPlanning.ChainPlan.constructor | crates/resocks5-net/src/session/chain/mod.rs:186-234 | each gate layer is that rotator's picks in the order drawn, at the positions whose identity occurs at no earlier one; the exit layer the same over the pairs of rotator and position; done exactly when a layer is empty |
| ChainPlanning.ChainPlan.DeadLayer | crates/resocks5-net/src/session/chain/mod.rs:241-249 | finds the first layer whose current candidate is dead, or that none is |
| ChainPlanning.ChainPlan.CurrentPick | crates/resocks5-net/src/session/chain/mod.rs:292-302 | the chain at the index vector, keyed by its identities |
| ChainPlanning.ChainPlan.Advance | crates/resocks5-net/src/session/chain/mod.rs:304-312 | moves to the next vector in lexicographic order, or ends the plan |
| ChainPlanning.ChainPlan.JumpSubtree | crates/resocks5-net/src/session/chain/mod.rs:314-331 | moves past every vector sharing the prefix up to the dead layer, or ends the plan |
| ChainPlanning.ChainPlan.NextPick | crates/resocks5-net/src/session/chain/mod.rs:237-257 | the pick is the next survivor in lexicographic order (`Valid` keeps: everything behind the position is returned, dead or excluded), within the linear work bound; `None` only when every vector is settled |
| ChainPlanning.ChainPlan.Collect | crates/resocks5-net/src/session/chain/mod.rs:416-422 | draining a plan gives exactly the filtered lexicographic product |
| ChainPlanning.ChainPlan.MarkDead | crates/resocks5-net/src/session/chain/mod.rs:269-286 | keeps `Valid` with the node added to the dead, every `live` count exact, and ends the plan exactly when a layer ran out |
| ChainPlanning.ChainPlan.Exclude | crates/resocks5-net/src/session/chain/mod.rs:288-290 | keeps `Valid` with the chain added to the excluded |
| Hedge.StepKeepsInv | crates/resocks5-net/src/connect/proxy_connect/hedged.rs:144-372 | every atomic step keeps mutual exclusion, the single winner, the report books and the coordinator's bounds |
| Hedge.RunKeepsInv | crates/resocks5-net/src/connect/proxy_connect/hedged.rs:144-372 | so they hold after every interleaving |
| Hedge.ExclusiveHandshake | crates/resocks5-net/src/connect/proxy_connect/hedged.rs:144-178 | at most one attempt is handshaking, at most one ever succeeds, and never both |
| Hedge.NoHandshakeAfterSuccess | crates/resocks5-net/src/connect/proxy_connect/hedged.rs:144-178 | once an attempt succeeded, no step starts another handshake |
| Hedge.ReportsAreTrue | crates/resocks5-net/src/connect/proxy_connect/hedged.rs:180-215 | `Lost` is reported only after another attempt's success and with the flag set, `Won` only for the winner, a late success never, no attempt twice; a report's index is that of its candidate in the input |
| Hedge.ReportsFollowJoins | crates/resocks5-net/src/connect/proxy_connect/hedged.rs:180-328 | each join makes one report, in order, of the attempt joined; a failure is marked as after the win exactly if the drain joined it |
| Hedge.LastIsLatest | crates/resocks5-net/src/connect/proxy_connect/hedged.rs:322-327 | the error kept for the caller is that of the failure the coordinator joined last |
| Hedge.NoQueueAfterWin | crates/resocks5-net/src/connect/proxy_connect/hedged.rs:144-158 | once the win is published no attempt joins the queue for the slot |
| Hedge.DrainMeetsNoSuccess | crates/resocks5-net/src/connect/proxy_connect/hedged.rs:180-215 | the drain never meets a successful attempt |
| Hedge.AllReportedOnce | crates/resocks5-net/src/connect/proxy_connect/hedged.rs:204-215 | after the call and the drain, every launched attempt has exactly one report |
| Hedge.ErrorMeansAllFailed | crates/resocks5-net/src/connect/proxy_connect/hedged.rs:281-348 | an error is returned only after every candidate of the input was launched and failed |
| Hedge.WinnerSucceeded | crates/resocks5-net/src/connect/proxy_connect/hedged.rs:281-348 | a returned connection is the one successful handshake, of a launched candidate, reported won |
| Hedge.SequentialWithoutDelay | crates/resocks5-net/src/connect/proxy_connect/hedged.rs:219-348 | with a zero delay at most one attempt is unfinished at any time |
| Hedge.LaunchesInOrder | crates/resocks5-net/src/connect/proxy_connect/hedged.rs:281-372 | one candidate is launched at a time, the next one of the input: when nothing runs, and then nobody holds the slot, or on a tick |
| Hedge.InputOrder | crates/resocks5-net/src/connect/proxy_connect/hedged.rs:281-372 | on every run the launched candidates and those still pending are the input, in order, with one attempt for each launched |
| Hedge.LaunchesBesideExactly | crates/resocks5-net/src/connect/proxy_connect/hedged.rs:331-346 | a call can launch an attempt beside a handshake in progress if and only if it hedges between at least two candidates |
| Hedge.LaunchBesideHandshake | crates/resocks5-net/src/connect/proxy_connect/hedged.rs:331-346 | the run in which it happens, for any such call: an attempt handshakes between the check and the launch |
| Hedge.TickLaunchesBeside | crates/resocks5-net/src/connect/proxy_connect/hedged.rs:331-346 | a launch on a tick is beside an attempt that holds the slot exactly when one took it since the check |
| Hedge.BusyTickLaunchesNone | crates/resocks5-net/src/connect/proxy_connect/hedged.rs:337-344 | a tick launches only if its look at the slot found it free |
| Hedge.ArmedExactly | crates/resocks5-net/src/connect/proxy_connect/hedged.rs:219-337 | a tick is due if and only if the last launch of an idle loop or the last tick left candidates, in a hedging call, and its next instant can be represented |
| Hedge.JoinSeesWin | crates/resocks5-net/src/connect/proxy_connect/hedged.rs:309-330 | when a success is joined `won` is already set, and a joined `Lost` finds it set: the coordinator's own store and load change nothing |
| Hedge.StepsDoWork | crates/resocks5-net/src/connect/proxy_connect/hedged.rs:281-372 | the coordinator's turns (entering the select, a tick, its check of the slot) leave the work left unchanged; every other step of any party lowers it |
| Hedge.EveryRunIsBounded | crates/resocks5-net/src/connect/proxy_connect/hedged.rs:281-372 | in every run at most 9 × candidates + 1 steps launch, move an attempt, join, drain or return, and at most 18 × candidates + 3 + 4 × ticks steps are taken at all: only ticks can keep a run going |
| Hedge.IdleTicksRecur | crates/resocks5-net/src/connect/proxy_connect/hedged.rs:331-346 | and they can, for any number of them: during a handshake a tick launches nothing and leads back to the same state |
| Hedge.NeverStuck | crates/resocks5-net/src/connect/proxy_connect/hedged.rs:281-372 | while the race is not over, some step is possible |
| TlsRecords.HandshakePrefix | crates/resocks5-net/src/connect/tls/tls_records.rs:82-124 | the record loop decides completeness, length and type as the concatenated handshake stream does, and `extendable` by what follows the record it stopped at |
| TlsRecords.AfterAll | crates/resocks5-net/src/connect/tls/tls_records.rs:82-124 | for an incomplete message that is what follows all leading Handshake records |
| TlsRecords.ClientHelloIsComplete | crates/resocks5-net/src/connect/tls/tls_records.rs:52-54 | yes exactly when the stream starts with a whole handshake message that is a ClientHello |
| TlsRecords.MessageBytes | crates/resocks5-net/src/connect/tls/tls_records.rs:126-143 | the copying loop returns the first bytes of the handshake stream, across records |
| TlsRecords.AssembleHandshakeMessage | crates/resocks5-net/src/connect/tls/tls_records.rs:39-45 | the assembled message is the one the stream declares, and `complete` says whether all of it is there |
| TlsRecords.ClientHelloMightContinue | crates/resocks5-net/src/connect/tls/tls_records.rs:56-68 | the probe says yes exactly when the data is a ClientHello prefix that is not complete and not interrupted |
| TlsRecords.StreamGrows | crates/resocks5-net/src/connect/tls/tls_records.rs:155-168 | more bytes only extend the handshake stream, clipped records included, and change nothing behind an interrupting record |
| TlsRecords.StreamOfFrames | crates/resocks5-net/src/connect/tls/tls_records.rs:82-168 | framing a stream into any handshake records and reading it back gives the stream |
| TlsRecords.SplitMessageReassembles | crates/resocks5-net/src/connect/tls/tls_records.rs:39-168 | any split of a message into records, coalesced with later messages and followed by any bytes, reassembles to the message; on every prefix to a prefix of it |
| TlsRecords.WholeMessage | crates/resocks5-net/src/connect/tls/tls_records.rs:39-168 | with all records present the result is the message and `complete` |
| TlsRecords.StreamCanGrow | crates/resocks5-net/src/connect/tls/tls_records.rs:82-168 | unless a record of another type interrupts it, any bytes can be appended to the handshake stream, wherever the data was cut |
| RecoverHost.ParseServerNameExt | crates/resocks5-net/src/connect/util/recover_host.rs:89-108 | the entry loop finds the first host name of the list, lowercased, or none when malformed |
| RecoverHost.ParseSni | crates/resocks5-net/src/connect/util/recover_host.rs:40-85 | the cursor loop computes the server name of the reassembled message |
| RecoverHost.SniIsStable | crates/resocks5-net/src/connect/util/recover_host.rs:40-108 | once a name is found, no further bytes change it |
| RecoverHost.SniIsFinal | crates/resocks5-net/src/connect/util/recover_host.rs:160-172 | when the probe says no, the answer is final for every continuation, name or none |
| RecoverHost.NeverDecidedButMissed | crates/resocks5-net/src/connect/util/recover_host.rs:40-172 | no prefix of a stream that carries a name is ever decided without it |
| Entries.EntriesDecide | crates/resocks5-net/src/connect/util/recover_host.rs:73-108 | for lists of typed, length-prefixed entries of any width: if it is decided which beginnings of a payload can be filled up to its length, `EntriesFit` decides it for the list; the name list, the `server_name` body and the extensions are three such layers |
| SniFits.NamesDecide | crates/resocks5-net/src/connect/util/recover_host.rs:97-104 | a host name of n bytes can still become valid if and only if it is completable UTF-8 and its shortest completion fits |
| SniFits.HelloForeseen | crates/resocks5-net/src/connect/util/recover_host.rs:52-72 | a body that names a server was foreseen from every beginning of it: unread lengths count as the least they can become, the room of the extensions as the most |
| SniFits.FillHello | crates/resocks5-net/src/connect/util/recover_host.rs:52-72 | and every beginning that fits can be filled up to a body of exactly the declared length that names a server |
| SniFits.NameCanArrive | crates/resocks5-net/src/connect/util/recover_host.rs:40-172 | some continuation of the data carries a name if and only if it has one, or the probe says yes and the lengths that have arrived leave room for one |
| SniFits.SniIsFinalExactly | crates/resocks5-net/src/connect/util/recover_host.rs:40-172 | no continuation changes the parser's answer if and only if a decidable condition on the data holds |
| SniFits.WrongYesExactly | crates/resocks5-net/src/connect/util/recover_host.rs:154-172 | the probe's yes is wrong, that is no continuation has a name, if and only if it says yes, there is no name yet, and the lengths that have arrived leave no room for one |
| SniFits.WaitsInVain | crates/resocks5-net/src/connect/util/recover_host.rs:154-172 | so with any message declared under 54 bytes |
| SniFits.ProbeWaitsForever | crates/resocks5-net/src/connect/util/recover_host.rs:154-172 | and there is such data on which the probe says yes |
| RecoverHost.ReadRecoveryPrefix | crates/resocks5/src/server/tunnel/recovery.rs:21-42 | whatever the chunking, no byte is lost, and the prefix read gives the server name or the HTTP host that all bytes within the limit would, whichever came first, on data where the HTTP probe can be trusted |
| Utf8Prefix.CompletionCompletes | crates/resocks5-net/src/connect/util/recover_host.rs:115-145 | scalars followed by a scalar cut short can be completed to UTF-8 |
| Utf8Prefix.PrefixIsCompletable | crates/resocks5-net/src/connect/util/recover_host.rs:115-145 | and nothing else begins UTF-8 |
| Utf8Prefix.CompletionIsShortest | crates/resocks5-net/src/connect/util/recover_host.rs:100 | and no shorter bytes than its completion make it valid |
| CodePoints.TextExactly | crates/resocks5-net/src/connect/util/recover_host.rs:129 | bytes are text if and only if they are the encoding of code points, surrogates excluded (section 3 of RFC 3629) |
| CodePoints.TrimmedExactly | crates/resocks5-net/src/connect/util/recover_host.rs:129-131 | trimming drops the code points with the property White_Space at both ends, and nothing else |
| HttpHosts.ParseHttpHost | crates/resocks5-net/src/connect/util/recover_host.rs:115-154 | the line loop computes the host of the first `Host` line of an open or finished header section |
| HttpHosts.HttpHostMightStillAppear | crates/resocks5-net/src/connect/util/recover_host.rs:183-202 | the probe says yes exactly when the data starts with a letter, its first line feed ends an HTTP/1 request line, and no empty line or doubled line feed is in it |
| HttpHosts.ProbeInBytes | crates/resocks5-net/src/connect/util/recover_host.rs:183-202 | that condition in bytes: the first between 65 and 90 or 97 and 122, 13 10 after a version before any other 10, no 13 10 13 10, no 10 10 |
| HttpHosts.RequestLineExactly | crates/resocks5-net/src/connect/util/recover_host.rs:152-154 | a request line is anything followed by a space, HTTP/1. and 0 or 1 |
| HttpHosts.HostNameExactly | crates/resocks5-net/src/connect/util/recover_host.rs:128 | the name of a Host line is the letters of host, each in either case, with ASCII white space around them |
| HttpHosts.HeadersGrow | crates/resocks5-net/src/connect/util/recover_host.rs:115-150 | a scan of more headers is the same scan resumed at the open line, unless it was over |
| HttpHosts.HostIsFinal | crates/resocks5-net/src/connect/util/recover_host.rs:115-150 | the parser's answer is the same for every continuation if and only if its scan is over or it is in a `Host` line that cannot be UTF-8 any more |
| HttpHosts.TameNoIsFinal | crates/resocks5-net/src/connect/util/recover_host.rs:174-202 | the probe's no is final on data starting with a letter and without bare line feeds |
| HttpHosts.WrongNoExactly | crates/resocks5-net/src/connect/util/recover_host.rs:174-202 | the probe's no is wrong, that is some continuation changes the answer, exactly when it says no and the scan is not decided |
| HttpHosts.NoCanBeWrong | crates/resocks5-net/src/connect/util/recover_host.rs:174-202 | and this happens: three inputs after which it says no and a host can still be parsed |
| HttpRequests.HostRoundTrip | crates/resocks5-net/src/connect/util/recover_host.rs:115-150 | any request line, any header lines that are not `Host`, and a `Host` line in any case, padded with any white space, with or without a port, followed by anything: the parsed host is the name, lowercased |
| Bytes.LowercaseExactly | crates/resocks5-net/src/connect/util/recover_host.rs:142 | two strings are lowercased to the same if and only if they differ in the case of ASCII letters only, and no upper-case letter is left |
| HttpRequests.RequestNeverMissed | crates/resocks5-net/src/connect/util/recover_host.rs:115-150 | on every prefix of such a request the parser has the name or the scan is not decided |
| HttpRequests.ProbeNeverMisses | crates/resocks5-net/src/connect/util/recover_host.rs:174-202 | and if its head starts with a letter and has no bare line feed, the parser has the name or the probe asks for more |
| ClientHello.FindsServerName | crates/resocks5-net/src/connect/util/recover_host.rs:67-84 | the extension walk finds the server name behind any other extensions |
| ClientHello.HelloRoundTrip | crates/resocks5-net/src/connect/util/recover_host.rs:40-108 | the name put into any well-formed ClientHello, however framed, is the name parsed, lowercased |
| ClientHello.HelloNeverMissed | crates/resocks5-net/src/connect/util/recover_host.rs:40-172 | on every prefix of it the parser has the name or the probe asks for more |
| HeaderEnd.FindHeaderEnd | crates/resocks5-net/src/connect/proxy_connect/connect_http_proxy.rs:245-247 | finds the first CRLFCRLF |
| HeaderEnd.OverlapScan | crates/resocks5-net/src/server/mod.rs:519-543 | scanning only the new bytes and three before them finds the same first end as scanning everything |
| ConnectResponse.AnswerOneHead | crates/resocks5-net/src/connect/proxy_connect/connect_http_proxy.rs:205-243 | what the specification does with one head followed by anything |
| ConnectResponse.StatusDecides | crates/resocks5-net/src/connect/proxy_connect/connect_http_proxy.rs:205-243 | in bytes, for any version and digits a, b, c, any reason and headers: accepted with exactly the head consumed if a is 2, on to the next head if it is 1 and b, c are not 0, 1, else rejected with the number and the line |
| ConnectResponse.OtherLineIsRefused | crates/resocks5-net/src/connect/proxy_connect/connect_http_proxy.rs:205-243 | a first line of any other form is rejected without a number |
| ConnectResponse.NoHeadInBytes | crates/resocks5-net/src/connect/proxy_connect/connect_http_proxy.rs:97-126 | with no end of a head within the budget, the answer is too large or an early end, by the length of the stream |
| ConnectResponse.PayloadIsIntact | crates/resocks5-net/src/connect/proxy_connect/connect_http_proxy.rs:97-126 | any number of interim heads and a final one within the budget are consumed exactly, and not one byte of the payload |
| ConnectResponse.AcceptedShape | crates/resocks5-net/src/connect/proxy_connect/connect_http_proxy.rs:161-243 | conversely, an accepted stream is heads that start HTTP/1.0 or HTTP/1.1 and a status of 1xx, one such head with 2xx, and the untouched payload, all in bytes |
| ConnectResponse.ResponseHead.Advance | crates/resocks5-net/src/connect/proxy_connect/connect_http_proxy.rs:205-243 | the buffered head is judged by its status line alone: accept, reset for the next head, or reject with the code |
| ConnectResponse.NoOvershoot | crates/resocks5-net/src/connect/proxy_connect/connect_http_proxy.rs:106-121 | a read limited by the buffer's suffix can end a head only at its last byte |
| ConnectResponse.HttpConnectHandshake | crates/resocks5-net/src/connect/proxy_connect/connect_http_proxy.rs:97-126 | the suffix-limited reader consumes and answers as the specification does, for every chunking |
| ConnectResponse.ReadConnectResponseTcp | crates/resocks5-net/src/connect/proxy_connect/connect_http_proxy.rs:161-178 | the peeking reader consumes and answers as the same specification does, for every chunking |
| InboundHttp.ReadHead | crates/resocks5-net/src/server/mod.rs:519-543 | the framing result is that of the whole stream, and the buffer is every byte taken from it |
| InboundHttp.FramedInBytes | crates/resocks5-net/src/server/mod.rs:519-543 | a head is framed up to its first CRLFCRLF if that ends within 16384 bytes; a stream with a later one is too large; one with none is too large beyond 16384 bytes, else ended too soon |
| InboundHttp.ByteLines.Next | crates/resocks5-net/src/server/mod.rs:482-504 | one line and what remains after its CRLF |
| InboundHttp.LinesRejoin | crates/resocks5-net/src/server/mod.rs:482-504 | lines rejoined with CRLF give back the head, and no line contains one |
| InboundHttp.JoinedLinesSplit | crates/resocks5-net/src/server/mod.rs:482-504 | splitting joined unbroken lines gives back the lines |
| InboundHttp.HeadIsItsLines | crates/resocks5-net/src/server/mod.rs:482-543 | a framed head is its lines rejoined, closed by one empty line |
| InboundHttp.Prefixed.PollRead | crates/resocks5-net/src/server/prefixed.rs:64-83 | a read serves the prefix first, then the stream, and takes exactly what it returns |
| InboundHttp.Prefixed.IntoParts | crates/resocks5-net/src/server/prefixed.rs:46-50 | the unserved prefix and the stream still hold everything not served |
| InboundHttp.DrainAll | crates/resocks5-net/src/server/prefixed.rs:64-83 | reading to the end in any sizes gives prefix and stream, no byte lost, repeated or reordered |
| InboundHttp.HeadThenPayload | crates/resocks5-net/src/server/mod.rs:519-558 | the head and everything read through the prefixed stream are the client's bytes |
| Lru.VictimIsRight | crates/resocks5-net/src/session/rotator/mod.rs:157-190 | the entry making room is an expired one if any exists, else the least recently touched |
| Lru.EvictsWhenFull | crates/resocks5-net/src/session/rotator/mod.rs:157-190 | an eviction happens only when the list holds the limit and the linked address is not in it; it takes an expired entry if there is one, else the one touched least recently |
| Lru.FullListEvicts | crates/resocks5-net/src/session/rotator/mod.rs:157-190 | and then it does happen |
| Lru.RunIsFaithful | crates/resocks5-net/src/session/rotator/mod.rs:110-199 | after every run the list holds distinct addresses within the limit, ordered by last touch, each with the proxy and expiry of its governing link |
| Lru.MissingWasLost | crates/resocks5-net/src/session/rotator/mod.rs:139-199 | a linked address is missing only because it was since unlinked, evicted or found expired |
| Lru.LookupIsLatestLink | crates/resocks5-net/src/session/rotator/mod.rs:139-155 | a lookup returns a proxy if and only if the address has a latest link not unlinked since, less than the ttl ago (never, if its end is not representable), and no operation since has evicted or expired it; the proxy is that link's, and touches do not extend it |
| Lru.OnlyEvictionLoses | crates/resocks5-net/src/session/rotator/mod.rs:139-199 | while the clock does not run backwards, eviction is the only way to lose an entry whose ttl has not passed |
| StickyCaching.DropStores | crates/resocks5-net/src/session/rotator/mod.rs:192-199 | removing an entry from map and both ordered sets removes it from the list |
| StickyCaching.AddStores | crates/resocks5-net/src/session/rotator/mod.rs:157-190 | adding an entry to all three puts it at the back of the list |
| StickyCaching.FirstRecency | crates/resocks5-net/src/session/rotator/mod.rs:157-190 | the first record of the recency set is the front of the list |
| StickyCaching.FirstExpiry | crates/resocks5-net/src/session/rotator/mod.rs:157-190 | the first record of the expiry set is the entry that expires soonest |
| StickyCaching.SizesAgree | crates/resocks5-net/src/session/rotator/mod.rs:157-190 | map and list have the same size |
| StickyCaching.StickyCache.Lookup | crates/resocks5-net/src/session/rotator/mod.rs:139-155 | refines the list's lookup |
| StickyCaching.StickyCache.Link | crates/resocks5-net/src/session/rotator/mod.rs:157-190 | refines the list's insertion, eviction and expiry included; `Lru.LookupIsLatestLink` says when the entry is over |
| StickyCaching.StickyCache.RemoveEntry | crates/resocks5-net/src/session/rotator/mod.rs:192-199 | refines the list's removal and says whether the address was cached |
| StickyLinks.Links.LinkProxy | crates/resocks5-net/src/session/rotator/mod.rs:423-428 | after any history of calls the cache holds what the least-recently-used list does; a link extends the history |
| StickyLinks.Links.UnlinkProxy | crates/resocks5-net/src/session/rotator/mod.rs:431-433 | so does an unlink |
| StickyLinks.Links.GetLinked | crates/resocks5-net/src/session/rotator/mod.rs:443-449 | after any history of calls a proxy is returned if and only if the address has a latest link, not unlinked since, less than the ttl ago and not evicted, whose upstream is not quarantined; it is that link's proxy |
| IdentityIndex.FindSlot | crates/resocks5-net/src/session/rotator/mod.rs:484-490 | the bucket search finds a slot of that identity if one exists |
| IdentityIndex.NextSlot | crates/resocks5-net/src/session/rotator/mod.rs:380-415 | a proxy opens a slot exactly when its identity is new |
| IdentityIndex.IndexGrows | crates/resocks5-net/src/session/rotator/mod.rs:380-415 | adding a slot to its bucket keeps the index exact, whatever collides |
| IdentityIndex.UniqueSlots | crates/resocks5-net/src/session/rotator/mod.rs:380-415 | no two slots have the same identity |
| IdentityIndex.Rotator.constructor | crates/resocks5-net/src/session/rotator/mod.rs:374-420 | the slots are the first occurrences of each identity, in order, with an exact index |
| IdentityIndex.Rotator.IndexOf | crates/resocks5-net/src/session/rotator/mod.rs:484-490 | for every hash function the answer is the one slot of that identity, the gate link ignored |
| Quarantine.DurationFor | crates/resocks5-net/src/session/rating/quarantine.rs:127-138 | the loop with its early exit and saturation computes min(max, initial · 2^(trips − 1)) |
| Quarantine.BackoffSaturates | crates/resocks5-net/src/session/rating/quarantine.rs:127-138 | the saturating trip counter never shows in a backoff |
| Quarantine.Cell.OnHardFailure | crates/resocks5-net/src/session/rating/quarantine.rs:188-205 | the new cell and reported length; failures inside a quarantine are ignored |
| Quarantine.Cell.OnTripNow | crates/resocks5-net/src/session/rating/quarantine.rs:210-217 | the new cell and length of a trip without waiting for the threshold |
| Quarantine.Cell.OnTryLease | crates/resocks5-net/src/session/rating/quarantine.rs:258-267 | a lease is granted on probation when none is held, and then held |
| Quarantine.Cell.OnRestore | crates/resocks5-net/src/session/rating/quarantine.rs:231-249 | the cell a saved record leaves |
| QuarantineRuns.RunReachable | crates/resocks5-net/src/session/rating/quarantine.rs:188-267 | on every run, restored records of any content among its events: trips counted, streak at or above the threshold while tripped, deadline within `max` of the last trip or restore |
| QuarantineRuns.HealthyExactly | crates/resocks5-net/src/session/rating/quarantine.rs:188-228 | a cell is healthy if and only if since the last success it was neither tripped by a call nor restored and has failed hard less than `threshold` times |
| QuarantineRuns.TripsExactly | crates/resocks5-net/src/session/rating/quarantine.rs:188-217 | an event trips if and only if it is an explicit call, a hard failure on probation, or the `threshold`-th hard failure of a healthy cell |
| QuarantineRuns.QuarantineLasts | crates/resocks5-net/src/session/rating/quarantine.rs:154-205 | from the k-th trip since the last success, at t, a cell is quarantined until t + min(max, initial · 2^(k − 1)) and on probation from then on, until the next outcome; an end that is not representable is a hundred years away, or t |
| QuarantineRuns.RestoredLasts | crates/resocks5-net/src/session/rating/quarantine.rs:231-249 | a restored record is quarantined until its time left, up to `max`, has passed, and on probation from then on |
| QuarantineRuns.RestoredCounts | crates/resocks5-net/src/session/rating/quarantine.rs:231-249 | the trips of a restored record, at least one, count on |
| QuarantineRuns.BackoffOfEachTrip | crates/resocks5-net/src/session/rating/quarantine.rs:127-205 | the k-th trip since the last success lasts min(max, initial · 2^(k − 1)) |
| QuarantineRuns.TrippedCell | crates/resocks5-net/src/session/rating/quarantine.rs:171-217 | failures inside a quarantine change nothing, one on probation trips at once, probation comes within `max` of the last trip, no record ever has more than `max` left |
| QuarantineRuns.LeasesDoNotOverlap | crates/resocks5-net/src/session/rating/quarantine.rs:258-267 | a cell is handed out again only after its lease ended or an outcome; a lease whose end is not representable ends at once |
| QuarantineRuns.LeaseIsExact | crates/resocks5-net/src/session/rating/quarantine.rs:258-267 | and once it ended the next request gets it: without an outcome, the lease is all that stands in the way |
| QuarantineRuns.GrantsExactly | crates/resocks5-net/src/session/rating/quarantine.rs:258-267 | a probe is granted if and only if the cell is on probation and the lease of the last grant, if no outcome came since, has ended |
| QuarantineRuns.RestoredIsShifted | crates/resocks5-net/src/session/rating/quarantine.rs:220-249 | saving and restoring a tripped cell gives the same cell shifted in time; the cap does not bite |
| QuarantineRuns.ShiftedRuns | crates/resocks5-net/src/session/rating/quarantine.rs:188-267 | the shift survives every further run of events |
| QuarantineRuns.RestoredBehavesAlike | crates/resocks5-net/src/session/rating/health.rs:57-98 | after the same events the restored cell is in the same state and reports the same lengths as the original would |
| SandModel.Sand.ObserveFailure | crates/resocks5-net/src/session/rating/sand.rs:40-43 | the pile after a failure |
| SandModel.Sand.ObserveSuccess | crates/resocks5-net/src/session/rating/sand.rs:46-49 | the pile after a success |
| SandModel.LevelStaysInRange | crates/resocks5-net/src/session/rating/sand.rs:29-49 | on every run the level is between 0 and `sand_max` |
| SandModel.LevelHalves | crates/resocks5-net/src/session/rating/sand.rs:29-37 | after n half-lives the level is a 2^n-th part, or nothing below a millionth of the ceiling |
| SandModel.AmountsObserved | crates/resocks5-net/src/session/rating/sand.rs:40-49 | to that level a failure adds exactly the penalty, up to the ceiling, and a success multiplies it by its factor |
| SandModel.DecayAdds | crates/resocks5-net/src/session/rating/sand.rs:29-37 | decay over two stretches of time is that over both |
| SandModel.WeightsMultiply | crates/resocks5-net/src/session/rating/sand.rs:52-54 | no sand is full weight, and the weight of two amounts together is the product of theirs |
| SandModel.WeightAtCeiling | crates/resocks5-net/src/session/rating/policy.rs:61-63 | `k` makes the weight at the ceiling exactly `min_weight` |
| SandModel.WeightStaysInRange | crates/resocks5-net/src/session/rating/sand.rs:52-54 | on every run, at every instant, the weight is between `min_weight` and 1 |
| SandModel.WeightsAreUnitFree | crates/resocks5-net/src/session/rating/sand.rs:29-54 | scaling penalty and ceiling by any positive factor changes no weight on any run |
| Selection.WeightedIndex | crates/resocks5-net/src/session/rating/select.rs:15-44 | the index is the one whose cumulative interval the draw falls in; without weight it is 0; the fallback is unreachable |
| Selection.HitsIsUnique | crates/resocks5-net/src/session/rating/select.rs:15-44 | the intervals do not overlap |
| Selection.ShareIsWeight | crates/resocks5-net/src/session/rating/select.rs:15-44 | the interval of an index is as long as its weight |
| Selection.EveryDartHits | crates/resocks5-net/src/session/rating/select.rs:15-44 | and the intervals leave no gap |
| Selection.OrderKeys | crates/resocks5-net/src/session/rating/select.rs:76-79 | a permutation of the positions, sorted by key and then by position |
| Selection.WeightedOrder | crates/resocks5-net/src/session/rating/select.rs:54-56 | the order is that of the keys of the weights and draws; zero draws and weights that are not positive sort last |
| Selection.OrderHasAll | crates/resocks5-net/src/session/rating/select.rs:47-56 | an order has every index exactly as often as there are weights |
| Selection.OrderIsDetermined | crates/resocks5-net/src/session/rating/select.rs:76-79 | keys and positions leave nothing open: two orders of the same keys are equal |
| Selection.KeysOrderPowers | crates/resocks5-net/src/session/rating/select.rs:50-53 | comparing `ln(-ln(u)) - ln(w)` upwards compares `u^(1/w)` downwards |
| Selection.HighestPowerFirst | crates/resocks5-net/src/session/rating/select.rs:50-56 | so among positive weights the item with the highest `u^(1/w)` comes first, ties by position |
| Selection.ScaleKeepsOrder | crates/resocks5-net/src/session/rating/select.rs:50-74 | a common positive factor in all weights changes no order |
| Ratings.SlotRuns | crates/resocks5-net/src/session/rating/mod.rs:139-300 | operations on a set act on each slot as its own run of cell events |
| Ratings.SlotHealthyExactly | crates/resocks5-net/src/session/rating/mod.rs:139-178 | a slot is healthy if and only if its own hard failures since its last success are fewer than the threshold and nothing tripped or restored it since |
| Ratings.SelectionNeverRunsDry | crates/resocks5-net/src/session/rating/mod.rs:211-300 | someone is eligible unless the set is empty, and everyone with quarantine off; while one is healthy, no probed upstream is eligible |
| Ratings.ProbesDoNotOverlap | crates/resocks5-net/src/session/rating/mod.rs:289-300 | on every run of the set a slot is handed out twice only after its lease or an outcome about that slot |
| Ratings.SavedAndRestored | crates/resocks5-net/src/session/rating/health.rs:57-98 | after any run, a slot saved and restored into a fresh set is the same slot shifted if it was tripped, fresh otherwise |
| Ratings.Ratings.constructor | crates/resocks5-net/src/session/rating/mod.rs:73-90 | a set of fresh cells and empty piles |
| Ratings.Ratings.OnFailure | crates/resocks5-net/src/session/rating/mod.rs:117-126 | only the sand of that slot changes, and only with the model enabled |
| Ratings.Ratings.OnHardFailureAt | crates/resocks5-net/src/session/rating/mod.rs:139-151 | the whole new state and the reported length, unknown slots and disabled models included |
| Ratings.Ratings.QuarantineNow | crates/resocks5-net/src/session/rating/mod.rs:157-165 | the whole new state and the reported length |
| Ratings.Ratings.OnSuccess | crates/resocks5-net/src/session/rating/mod.rs:168-178 | the slot's cell is cleared and its sand reduced, nothing else changes |
| Ratings.Ratings.TakeProbesAt | crates/resocks5-net/src/session/rating/mod.rs:289-300 | hands out exactly the due slots, ascending, and leases them |
| Ratings.Ratings.PickAt | crates/resocks5-net/src/session/rating/mod.rs:211-234 | the pick is eligible and the one whose share of the eligible weight the draw falls in |
| Ratings.Ratings.PickOrderAt | crates/resocks5-net/src/session/rating/mod.rs:248-276 | each eligible slot exactly once, in the order of the keys made of its weight and the number drawn for it, ties by slot |
| Ratings.Ratings.HealthAt | crates/resocks5-net/src/session/rating/health.rs:57-72 | a snapshot of every slot, in slot order |
| Ratings.Ratings.RestoreHealthAt | crates/resocks5-net/src/session/rating/health.rs:81-98 | applied exactly to tripped records of known slots under an enabled policy; only that slot changes |
| HostPorts.PortRoundTrip | crates/resocks5-net/src/connect/util/host_port.rs:34-57 | a printed port parses to itself |
| HostPorts.PortTextIsDecimal | crates/resocks5-net/src/connect/util/host_port.rs:62-68 | ports are printed in decimal, most significant digit first |
| HostPorts.PortExactly | crates/resocks5-net/src/connect/util/host_port.rs:34-57 | a port is read from exactly these: the decimal digits of a number up to 65535, after any zeros, after at most one plus sign |
| HostPorts.ParseExactly | crates/resocks5-net/src/connect/util/host_port.rs:34-57 | text parses to a host and a port if and only if it is an IPv6 literal in brackets, a colon and a port, or a nonempty host that starts with no bracket and has no colon unless it is an IPv6 literal, a colon and a port |
| HostPorts.FormatRoundTrip | crates/resocks5-net/src/connect/util/host_port.rs:34-69 | formatted text parses to the same host and port if and only if the host is an IPv6 literal or a nonempty name with no colon and no leading bracket |
| HostPorts.ParsedRoundTrip | crates/resocks5-net/src/connect/util/host_port.rs:34-69 | whatever was parsed is formatted into text that parses to the same |
| Machines.Resume | crates/resocks5-net/src/connect/util/handshake_over_stream.rs:52-202 | a handshake over more input is the one over less, resumed: nothing said is taken back and segmentation is invisible |
| SocksClient.Handshake | crates/resocks5-net/src/connect/util/handshake_over_stream.rs:52-202 | for every stream the client says, consumes and returns what its machine does, errors and early ends included |
| SocksWire.NoTarget | crates/resocks5-net/src/connect/util/handshake_over_stream.rs:61-63 | without a host or a port nothing is said or read |
| SocksWire.MethodJudged | crates/resocks5-net/src/connect/util/handshake_over_stream.rs:64-130 | in bytes: the client says 5 1 2 with credentials and 5 1 0 without, and any answer but 5 and that method ends it |
| SocksWire.LongCredentialsKept | crates/resocks5-net/src/connect/util/handshake_over_stream.rs:82-91 | credentials longer than 255 bytes are not sent |
| SocksWire.AuthJudged | crates/resocks5-net/src/connect/util/handshake_over_stream.rs:93-112 | others are sent with their lengths, and any answer but 1 0 ends it |
| SocksWire.LongNameKept | crates/resocks5-net/src/connect/util/handshake_over_stream.rs:131-145 | a name longer than 255 bytes is not asked for |
| SocksWire.ReplyJudged | crates/resocks5-net/src/connect/util/handshake_over_stream.rs:131-202 | the request in bytes (type 1 and four octets, type 4 and sixteen, type 3, length and name; the port), and the first wrong byte of the reply, version, code, reserved or type, decides the error |
| SocksWire.BoundSkipped | crates/resocks5-net/src/connect/util/handshake_over_stream.rs:175-202 | of a successful reply exactly 4 + 6 bytes are read for type 1, 5 + n + 2 for type 3 and length n, 4 + 18 for type 4, and what follows is left |
| SocksWire.EmptyBoundRefused | crates/resocks5-net/src/connect/util/handshake_over_stream.rs:180-186 | a bound name of length 0 ends it after that length |
| SocksServer.Serve | crates/resocks5-net/src/server/mod.rs:250-461 | for every stream the server says, consumes and returns what its machine does, from the first byte on |
| SocksWire.FirstByte | crates/resocks5-net/src/server/mod.rs:260-277 | a first byte but 5 ends the SOCKS session there, with nothing said |
| SocksWire.MethodChosen | crates/resocks5-net/src/server/mod.rs:306-319 | for every list of methods: 5 2 if and only if the server takes passwords and 2 is offered, 5 0 if and only if not that and it needs none and 0 is offered; else 5 255, after exactly the list, and the end |
| SocksWire.AuthHeaderJudged | crates/resocks5-net/src/server/mod.rs:321-336 | in bytes, after 5 2: a version but 1 ends it in silence, an empty name with 1 1 |
| SocksWire.EmptyPasswordRefused | crates/resocks5-net/src/server/mod.rs:337-346 | an empty password ends it with 1 1 |
| SocksWire.CredentialsRefused | crates/resocks5-net/src/server/mod.rs:347-388 | credentials that are not UTF-8 (unless raw ones are taken) or that the host turns down end it with 1 1, and which of the three it was is reported |
| SocksWire.RequestHeaderJudged | crates/resocks5-net/src/server/mod.rs:395-451 | in bytes, after any login: a version but 5 ends it in silence, a command but 1 with code 7, an address type but 1, 3 and 4 with code 8 |
| SocksWire.OctetsGranted | crates/resocks5-net/src/server/mod.rs:411-461 | type 1 is followed by four octets, type 4 by sixteen, then two of the port: the host gets exactly that target, in brackets for type 4, the name and the credentials it retains |
| SocksWire.NameJudged | crates/resocks5-net/src/server/mod.rs:424-461 | type 3 is followed by a length, a name and the port: bytes that are not UTF-8 end it in silence, a name that is empty, not visible or not parsable with code 4, any other is granted |
| SocksDialogue.ServerAuthenticates | crates/resocks5-net/src/server/mod.rs:325-394 | the client's credentials reach the server's decision byte for byte |
| SocksDialogue.ServerHearsRequest | crates/resocks5-net/src/server/mod.rs:398-452 | the client's request is decoded to the address and port it was encoded from |
| SocksDialogue.NameGrammar | crates/resocks5-net/src/server/mod.rs:431-448 | which names the server accepts: nonempty, no control or whitespace byte, no colon outside an IPv6 literal |
| SocksDialogue.Exchange | crates/resocks5-net/src/connect/util/handshake_over_stream.rs:66-131 | one exchange of a dialogue leaves the rest of it in the same relation |
| SocksDialogue.EveryDialogueEnds | crates/resocks5-net/src/connect/util/handshake_over_stream.rs:52-202 | for every job and server, how the client returns; ready exactly when the server granted the formatted canonical target with the exact credentials, and then both channels are empty |
| SocksDelivery.ScriptIsAtRest | crates/resocks5-net/src/connect/util/handshake_over_stream.rs:52-202 | a dialogue that can succeed has a script on which both ends agree |
| SocksDelivery.EveryDeliveryIsOnScript | crates/resocks5-net/src/server/mod.rs:296-461 | at every moment of every delivery both directions are prefixes of that script, neither end has given up, and there is more to deliver until it is finished |

## Left out

- RecoverHost.ReadRecoveryPrefix: what it promises about the HTTP host is limited to data on which the probe's no is final; deadlines and the rest of the recovery phase are not modelled.
- StickyCaching.StickyCache.Lookup: requires a clock that does not run backwards and a generation counter that has not wrapped; callers read the clock under the lock. The same holds for `Link`, and for the calls of `StickyLinks.Links`, where the counter cannot have wrapped in a history of fewer than 2^64 calls.
- QuarantineRuns.RestoredBehavesAlike: a probe lease held at the time of saving is not part of a record and is not carried over.
- Hedge.AllReportedOnce: assumes no task panics and the call is not cancelled.
- Selection.WeightedIndex: exact reals; rounding, infinities and NaN are not modelled, and neither is the quality of the random numbers. The same holds for `WeightedOrder`.
- ConnectResponse.HttpConnectHandshake: starts after the request was written; request writing and Base64 are not part of this model.
- SocksClient.Handshake: I/O errors other than an early end of the stream, flushing and deadlines are not modelled. The same holds for the server.
- SocksServer.Serve: a first byte other than 5 is handed back; the HTTP request head is in `InboundHttp`, and the rest of the HTTP request (authentication header, strict checks) is not modelled. The lossy text of credentials that are not UTF-8 is not modelled, their bytes are.
- A rotator refusing an empty list of proxies, `GateLevels::new` sorting its levels, and `ChainPlan::record_failure` attributing an error to a hop.
- Memory ordering of the atomics in the race: each load, store and lock is one atomic step.
- Sockets, TLS, the connection pool, keep-alive, logging, configuration, credential redaction and wiping: I/O and plumbing.
- IP literal syntax: reading and printing are parameters with their round-trip laws.
