# Flow router: model and proofs

A Dafny model of a small DPDK router: worker threads that parse, look up, rewrite and forward
packets in bursts, a control side that replaces the whole rule set while they run, and an owner
thread that sets everything up and gives it back in order.

- `Bytes`, `Checksum`: network-order words; the Internet checksum as a loop and by its specification.
- `Parser`, `Grammar`: the parser over an mbuf's bytes; a declarative packet grammar with
  `Serialize` and `Dissect`; the parser accepts exactly the encodings of supported packets.
- `Actions`, `Rewrite`, `RewriteLaws`: the rewrite in place on the mbuf's array; what a rewrite
  means without saying how it is computed; the two determine each other.
- `FrameBytes`, `ReceiverView`: parser and rewrite said of the bytes of a frame alone, offset by offset.
- `UdpFrame`: the frame builder and the receiver-side checksum test of the TAP script.
- `Rules`, `RuleIndex`, `RuleStore`: rule sets, their validation and normalization; hash, prefix
  table and action store built from them; configure, publish and teardown on real snapshots.
- `RuleMeaning`: what rules mean in numbers: prefixes as ranges, flows as five equal fields, wire values.
- `Router`, `RouterMeaning`: one pure function from a rule set and a received buffer to the frame to
  send, and the same from bytes to bytes without naming it.
- `PacketStats`, `Worker`: the sixteen 64-bit counters; processing, in-place compaction, TX
  ownership and the worker loop, all proved against `Router`.
- `Publication`, `PublicationSafety`, `PublicationProgress`: N workers, the publishers and the owner
  as interleaved steps over the QSBR token and the per-reader counters; safety after every sequence
  of events, and progress on every infinite schedule in which whoever has work to do gets a turn.
- `PublicationRequests`, `RunOutcome`: what becomes of each publish request, of each delivered burst,
  of each worker's registration and of the run's return code, told from the events alone.
- `PublicationRefinement`: those steps are what the packet code does under the held tables.
- `Lifecycle`: ownership flags of ports, pool and EAL through every history of control calls.
- `RuleManager`: the Go copy of the rules, on slices, against the native `RuleStore`.

How the parts meet. `Router.Route` is the one specification. `RuleIndex` shows that a built snapshot
decides like the rule lists, `Worker` that a turn of the loop under a snapshot that so decides sends
`RouteAll` of its packets, and `Publication` processes each packet by `Route` under the rules of the
snapshot the worker holds, which is proved to be a live one, of a single published generation, for
the whole burst. `PublicationRefinement` joins the two: a step of the protocol and the packet code
give the same outcome when the tables index the held rules, which are proved valid in every run.

Definitions that code and specification share are tied down by statements that do not use them. The
parser's outcome and fields, both checksums of a rewritten, built or accepted frame, and the rewrite
as a whole are stated on bytes at numeric offsets (`FrameBytes.ParserOnBytes`,
`ReceiverView.RewriteOnBytes`, `UdpFrame.BuiltOnBytes`); lookup, validity and the rules document on
fields and ranges of addresses (`RuleMeaning`); publication on the rules that the event taking the lock
brought (`PublicationRequests`). `RouterMeaning.RouteMeans` puts parser, lookup and rewrite together.

What progress asks of a schedule. `PublicationProgress.FairTo` says of one actor that whenever it has
work to do (a publisher while it holds the lock, a worker while it is not at rest, the owner while it
runs or tears down) it is scheduled now or later. Nothing is asked once the work is done, so
publications may be few or none. `PublicationProgress.FairScheduleExists` gives, for every reachable
state, a schedule that meets all these conditions at once and lets no new publisher in.

A property that does not hold of the code: a teardown that returns 0 does not always let
`dp_runtime_cleanup` proceed. A failed `rte_eth_dev_stop` followed by a successful close leaves
`started` set on a port that is no longer owned; a later teardown skips that port and reports
success. `Lifecycle.StaleStartRefusesCleanup` gives the calls, and `Lifecycle.CleanupRefusedIff` the
exact condition on entry to the teardown. The Go owner tears down once, and there the condition never
arises (`Lifecycle.FirstTeardownClean`, `Lifecycle.FinishLifecycle`).

## Model

| member | source | states |
|---|---|---|
| Checksum.InternetChecksum | scripts/verify_tap_forwarding.py:31-38 | the padding and the carry loop end and give the complement of the one's-complement sum of its 16-bit words, for every byte string |
| Checksum.WordSumByBytes | scripts/verify_tap_forwarding.py:33-35 | adding words in network order is adding bytes, 256 times those at even offsets, with or without the padding byte |
| Checksum.FoldPreserves | scripts/verify_tap_forwarding.py:36-37 | folding keeps the sum modulo 65535, and only a zero sum folds to zero |
| Checksum.ChecksumVerifies | scripts/verify_tap_forwarding.py:31-56 | storing the checksum in a zeroed, aligned field makes all words sum to all ones |
| Checksum.AllOnesVerifies | scripts/verify_tap_forwarding.py:58-61 | RFC 768: a computed zero stored as all ones still verifies |
| Checksum.ChecksumUnique | scripts/verify_tap_forwarding.py:78-95 | only one stored value verifies, up to the two encodings of zero |
| Parser.ParsePacket | dataplane/native/dp_parser.c:110-142 | result and metadata on every mbuf; each byte read lies below data_len |
| Parser.ParseIpv4 | dataplane/native/dp_parser.c:61-108 | header, length, fragment and protocol checks in the code's order, with its three outcomes |
| Parser.ParseTcp | dataplane/native/dp_parser.c:14-38 | accepts exactly a data offset that covers the header and stays within the payload |
| Parser.ParseUdp | dataplane/native/dp_parser.c:40-59 | accepts exactly a datagram length between 8 and the payload length |
| Parser.ParsedLengthsFit | dataplane/native/dp_parser.c:83-106 | on OK the L2, L3 and L4 lengths and the UDP length fit the frame, so no 16-bit sum wraps |
| FrameBytes.ParserOnBytes | dataplane/native/dp_parser.c:61-142 | OK and UNSUPPORTED exactly on mbufs whose bytes say so: ether type 8, 0; byte 14; lengths; fragments by the low six bits of byte 20 and byte 21; protocol 6 or 17 |
| FrameBytes.MetaOnBytes | dataplane/native/dp_parser.c:95-106 | on OK every metadata field is the number at its byte offset |
| FrameBytes.DontFragmentIgnored | dataplane/native/dp_parser.c:91-93 | changing DF or the reserved bit changes no outcome and no field |
| Grammar.ParseSerialize | dataplane/native/dp_parser.c:61-142 | every supported packet (options, any padding, UDP shorter than the IP payload) parses, to its own fields |
| Grammar.SerializeDissect | dataplane/native/dp_parser.c:61-142 | every frame the parser accepts is the encoding of the supported packet read from it |
| Grammar.ParseOkIffSupported | dataplane/native/dp_parser.c:14-142 | OK exactly on the frames of the declarative grammar |
| Grammar.DissectSerialize | dataplane/native/dp_parser.c:14-142 | round trip: a supported packet is recovered from its bytes |
| Grammar.PaddingIgnored | dataplane/native/dp_parser.c:87-89 | trailing Ethernet padding does not change an OK outcome |
| Actions.ValidateAction | dataplane/native/dp_lookup.c:21-36 | succeeds exactly on actions whose reserved byte is zero and whose mask suits their type |
| Rewrite.ApplyAction | dataplane/native/dp_action.c:12-72 | return code and resulting bytes for every action on every frame the parser accepted, metadata of another protocol included: refused after the addresses are written |
| Rewrite.RewriteTcp | dataplane/native/dp_action.c:42-46 | both checksum fields cleared and recomputed in the code's order leave the encoding of the packet with the checksums of its blanked form |
| Rewrite.RewriteUdp | dataplane/native/dp_action.c:56-68 | the same for UDP |
| Rewrite.PutUdpChecksum | dataplane/native/dp_action.c:60-68 | with total_length shrunk to the datagram and restored afterwards, only the UDP checksum changes, to that of the datagram |
| RewriteLaws.RewriteMeetsSpec | dataplane/native/dp_action.c:27-70 | the rewritten packet has exactly the masked fields replaced, both checksums verify, each in its canonical encoding |
| RewriteLaws.RewriteUnique | dataplane/native/dp_action.c:27-70 | no other packet meets that specification |
| RewriteLaws.RewriteInPlace | dataplane/native/dp_worker.c:82-86 | the REWRITE branch changes the mbuf exactly when the mask is not empty |
| RewriteLaws.ReparseRewritten | dataplane/native/dp_action.c:27-70 | parsing and rewriting commute: OK again, with the masked metadata fields replaced |
| ReceiverView.RewriteVerified | dataplane/native/dp_action.c:42-68 | for every accepted frame and every mask, header words, and address words plus protocol plus length plus segment words, read from the rewritten bytes, add up to all ones, in the encoding a sender uses |
| ReceiverView.RewriteOnBytes | dataplane/native/dp_action.c:27-70 | of all byte strings the rewrite is exactly the one that equals the frame outside ports, addresses and checksums, has the action's values where mask bits 1, 2, 4, 8 are set and the old ones elsewhere, and passes the receiver's sums |
| ReceiverView.VerifiedOnBytes | dataplane/native/dp_action.c:42-68 | the packet's two checksum tests are sums over the bytes of its encoding |
| RewriteLaws.OnlyMaskedBytesChange | dataplane/native/dp_action.c:31-68 | every byte outside the masked fields and the two checksum fields is unchanged |
| UdpFrame.BuiltFrame | scripts/verify_tap_forwarding.py:41-62 | the built bytes are the encoding of the intended packet with the rewrite's checksums |
| UdpFrame.BuiltOnBytes | scripts/verify_tap_forwarding.py:41-62 | of all byte strings the builder returns exactly the one with these fields at these offsets whose checksums come out for a receiver |
| UdpFrame.RewriteEqualsRebuild | scripts/verify_tap_forwarding.py:246-249 | rewriting destination address and port of a built frame gives, byte for byte, the frame built for the new destination |
| UdpFrame.ScriptAcceptsIff | scripts/verify_tap_forwarding.py:78-95 | the script's test accepts a plain UDP packet exactly when both checksums verify canonically |
| UdpFrame.ScriptAcceptsVerified | scripts/verify_tap_forwarding.py:78-95 | on every plain UDP frame the script's test is the receiver's sums over the bytes, UDP length included |
| UdpFrame.BuiltFrameAccepted | scripts/verify_tap_forwarding.py:41-95 | every built frame passes the script's own test and parses to its own fields |
| Rules.ValidateRules | control/dataplane/rules.go:276-316 | reports no error exactly on valid rule sets, else the first offence, flows before routes |
| RuleMeaning.ValidOnWire | control/dataplane/rules.go:258-316 | valid is: at most 1024 of each, protocol 6 or 17, prefixes that are multiples of their range size, actions 0, 1 or 2 with masks 0 or 1..15, no two rules with equal fields |
| RuleMeaning.MaskedStarts | control/dataplane/rules.go:299-304 | masking an address gives the one multiple of 2^(32-depth) in whose range it lies |
| Rules.ValidateRuleAction | control/dataplane/rules.go:258-274 | accepts exactly the actions the native check accepts |
| Rules.ParseAction | control/dataplane/rules.go:88-136 | the action a document denotes, or an error exactly when it denotes none |
| Rules.ActionOfValid | control/dataplane/rules.go:101-135 | every action a document denotes passes the native action check |
| Rules.DenotedRulesValid | control/dataplane/rules.go:163-211 | a normalized flow or route is valid by itself: the prefix is already masked |
| Rules.NormalizeRules | control/dataplane/rules.go:149-215 | succeeds exactly on the documents that denote a valid rule set, and returns it in order |
| RuleMeaning.ActionMeans | control/dataplane/rules.go:88-136 | the action of a document by its wire numbers: type, one mask bit per field given, the fields' values |
| RuleMeaning.FlowMeans | control/dataplane/rules.go:162-188 | the flow of a document, field by field, tcp as 6 and udp as 17 |
| RuleMeaning.RouteMeans | control/dataplane/rules.go:191-212 | the prefix stored for a route document starts the range its address lies in |
| RuleIndex.SnapshotFree | dataplane/native/dp_lookup.c:51-77 | releases exactly the objects the snapshot owns and records exactly those |
| RuleIndex.SnapshotBuild | dataplane/native/dp_lookup.c:79-218 | succeeds exactly for a valid rule set in a granting environment, and then indexes it; a failed build leaves no object behind and returns the code of the first check that failed |
| RuleIndex.InsertFlows | dataplane/native/dp_lookup.c:148-177 | fills the hash and the store, or fails exactly at an invalid, duplicate or refused flow, with the code of the first such flow |
| RuleIndex.InsertRoutes | dataplane/native/dp_lookup.c:179-211 | the same for the prefix table |
| RuleIndex.LookupPacket | dataplane/native/dp_lookup.c:359-384 | hit kind and action of hash, then prefix table, then miss, without a snapshot too |
| RuleIndex.IndexAgreesWithLists | dataplane/native/dp_lookup.c:148-211 | on a built snapshot the lookup is the naive scan: exact flow, else longest prefix, else miss |
| RuleMeaning.LookupMeans | dataplane/native/dp_lookup.c:359-384 | the scan of a valid set gives the one answer there is: the action of the flow with equal addresses, ports and protocol; else of the route with the smallest range around the destination; else none |
| RuleMeaning.TablesMean | dataplane/native/dp_lookup.c:359-384 | so do the tables of a snapshot built from it |
| RuleIndex.ScanRoutesLongest | dataplane/native/dp_lookup.c:376-382 | the scan's route matches and no matching route is deeper; none means none matches |
| RuleIndex.LongestMatchUnique | dataplane/native/dp_lookup.c:190-203 | with normalized, duplicate-free prefixes the longest match is one rule |
| RuleIndex.OrderIrrelevant | dataplane/native/dp_lookup.c:148-211 | reordering the rules changes no decision |
| RuleStore.Store.ConfigureRules | dataplane/native/dp_lookup.c:244-269 | generation 1 is active exactly when the guards, QSBR and build let it; a failure leaves everything else as it was and returns the code of what failed |
| RuleStore.Store.PublishRules | dataplane/native/dp_lookup.c:271-320 | all or nothing: generation, rules and live objects after success, and nothing but the failure count after failure |
| RuleStore.Store.RulesTeardown | dataplane/native/dp_lookup.c:386-404 | no snapshot object is left alive |
| RuleStore.Store.CurrentDecides | dataplane/native/dp_lookup.c:322-326 | after any of these operations the current snapshot decides every packet as the published rules do |
| Router.KeptOrDropped | dataplane/native/dp_worker.c:138-146 | each received item is kept or dropped, exactly once |
| RouterMeaning.RouteMeans | dataplane/native/dp_worker.c:46-92 | for a valid set the routed frame is determined by bytes and rule numbers: nothing unless one acceptable segment is answered by a rule of kind 1, the same bytes, or 2, the rewritten ones |
| PacketStats.Stats.Bump | dataplane/native/dp_worker.c:48-91 | one counter moves, modulo 2^64, and no other |
| PacketStats.BurstKeepsBalance | dataplane/native/dp_worker.c:128-154 | the five equations survive every burst, whatever its packets, rules and TX outcome |
| PacketStats.CountsTell | dataplane/native/dp_worker.c:46-92 | each counter rises by the number of packets of the burst it is about |
| PacketStats.BurstTells | dataplane/native/dp_worker.c:128-154 | all sixteen counters after a burst, from its packets and the number TX accepted |
| PacketStats.WrappedBalanced | dataplane/native/dp_runtime.c:186-195 | counters that wrapped any number of times satisfy the equations modulo 2^64 |
| PacketStats.OfferedRoutes | dataplane/native/dp_worker.c:142-150 | as many packets are offered to TX as the pure router sends |
| PacketStats.AddStats | dataplane/native/dp_runtime.c:36-56 | whatever exact counts the two wrapped statistics stand for, the result stands for their sum |
| PacketStats.TotalSums | dataplane/native/dp_runtime.c:118-140 | each counter of the total is the sum of that counter over the workers |
| PacketStats.GetStats | dataplane/native/dp_runtime.c:92-142 | refused while running; otherwise each counter is the sum over all workers modulo 2^64 |
| PacketStats.AggregateBalanced | dataplane/native/dp_runtime.c:118-140 | the aggregate after the join satisfies the five equations |
| Worker.ProcessPacket | dataplane/native/dp_worker.c:37-93 | the mbuf carries the routed frame and is returned, or is freed once, with the counters of its verdict |
| Worker.BuiltDecides | dataplane/native/dp_lookup.c:359-384 | a snapshot built from valid rules decides every packet as those rules |
| Worker.CompleteTx | dataplane/native/dp_tx.c:9-18 | counts accepted and unsent and frees exactly the unsent tail |
| Worker.ProcessNext | dataplane/native/dp_worker.c:139-146 | compaction in place keeps the kept mbufs and their frames in front, in order, and leaves the unprocessed ones untouched |
| Worker.ProcessBurst | dataplane/native/dp_worker.c:138-146 | the first tx_count mbufs are the kept ones in RX order and carry RouteAll of the burst; the others are freed |
| Worker.OfferBurst | dataplane/native/dp_worker.c:148-154 | the PMD owns the first sent mbufs, the rest is freed, for every short return |
| Worker.Turn | dataplane/native/dp_worker.c:122-159 | one turn, empty poll included: counters, frames offered, mbufs sent and freed |
| Worker.WorkerLoop | dataplane/native/dp_worker.c:122-167 | after any run every received mbuf is settled, the counters tell the truth and balance; none is pending |
| Worker.SettledOnce | dataplane/native/dp_worker.c:161-167 | settled means freed exactly once or sent exactly once, never both |
| PublicationSafety.WorkOk | dataplane/native/dp_worker.c:95-168 | each step of a worker keeps its counter, its held snapshot and its log right, without a fault |
| PublicationSafety.HeldThroughGrace | dataplane/native/dp_lookup.c:306-310 | because the token is taken after the exchange, a reader that may hold the prior snapshot is behind it |
| PublicationSafety.HeldThroughScan | dataplane/native/dp_lookup.c:311 | the scan passes no reader that still holds the prior snapshot |
| PublicationSafety.HeldThroughFinish | dataplane/native/dp_lookup.c:312 | the free takes no held snapshot |
| PublicationSafety.PublishOk | dataplane/native/dp_lookup.c:271-320 | each step of a publisher keeps heap, counters and token right, without a fault |
| PublicationSafety.StepKeeps | dataplane/native/dp_worker.c:95-226 | the invariant survives every step of every thread |
| PublicationSafety.NoUseAfterFree | dataplane/native/dp_lookup.c:306-312 | in no run of N workers, publishers and owner is freed memory touched, and from the load to the store of the quiescent counter the held snapshot is alive |
| PublicationSafety.BurstsLinearize | dataplane/native/dp_worker.c:126-154 | each burst sends RouteAll under one valid published generation, not older than any publication returned before its load; a worker's generations never decrease |
| PublicationRequests.ConfigureDecided | dataplane/native/dp_lookup.c:244-269 | configure publishes its rules as generation 1 exactly with QSBR, valid rules and a granted build, else nothing |
| PublicationRequests.RequestDecided | dataplane/native/dp_lookup.c:271-320 | a publisher that finds the lock free takes it, and when it gives it back the published rules have grown by the ones it brought and they are current, exactly if the runtime was configured, they are valid and the build was granted; else only the failure count has moved; the result says which |
| PublicationRequests.RequestServed | dataplane/native/dp_lookup.c:271-320 | on fair schedules every such request comes to that end |
| PublicationRequests.RequestScheduleExists | dataplane/native/dp_lookup.c:271-320 | from every reachable state with a free lock, and for any rules, some schedule meets the conditions of RequestServed |
| PublicationRequests.PublishedAreAccepted | dataplane/native/dp_lookup.c:271-320 | after every run the published rules are those of configure and of the successful requests, in order |
| PublicationRequests.BurstsServeRequests | dataplane/native/dp_worker.c:126-154 | each burst sends RouteAll of its packets under the rules of the g-th accepted request, g its generation |
| RunOutcome.NothingLost | dataplane/native/dp_worker.c:122-159 | what RX delivered to a worker, at most 32 packets at a time, is what it has completed, in order, and the burst in hand; at its end nothing is in hand |
| RunOutcome.ArrivalsRouted | dataplane/native/dp_worker.c:122-159 | the k-th delivered burst is routed whole under the rules of one accepted request |
| RunOutcome.WorkerResult | dataplane/native/dp_worker.c:102-168 | a worker returns the answer to its registration, processes bursts only after a good one and then leaves only once stop is requested |
| RunOutcome.RunReturns | dataplane/native/dp_worker.c:170-226 | the run returns the error of the launch that failed, with stop requested, else the first negative worker result in order, else 0; a setup that succeeded is torn down only after that |
| PublicationSafety.LoadSeesCurrent | dataplane/native/dp_worker.c:126 | the generation of a burst is the current one at the load |
| PublicationSafety.SnapshotsAccounted | dataplane/native/dp_lookup.c:290-318 | publish_success equals generation, reclaimed trails by one outside a grace period, at most two snapshots live, every other one freed exactly once |
| PublicationSafety.NotRunningIsStopped | dataplane/native/dp_runtime.c:21-34 | outside dp_dataplane_run both counts are zero and no flag is set |
| PublicationSafety.RunReturnsStopped | dataplane/native/dp_worker.c:170-226 | for every pattern of launch failure, worker failure and stop, the run returns only with all workers stopped, and teardown is not refused |
| PublicationSafety.TeardownFreesAll | dataplane/native/dp_lookup.c:386-404 | after teardown no snapshot and no QSBR object is left, and each snapshot ever built was freed exactly once |
| PublicationProgress.LagFalls | dataplane/native/dp_worker.c:122-162 | every step of a reader brings it nearer to the token; empty polls, stop and a failed start count as well |
| PublicationProgress.PublicationCompletes | dataplane/native/dp_lookup.c:271-320 | from any reachable state the lock holder gives the lock back on every schedule that schedules it while it holds the lock and the workers while they are at work, and the last published generation has returned; what it published is PublicationRequests.RequestServed |
| PublicationProgress.PublicationCompletesAlone | control/dataplane/dataplane.go:166-173 | after the run the publisher in flight finishes by its own steps alone, whether or not others follow, so teardown cannot deadlock with it |
| PublicationProgress.TeardownCompletes | control/dataplane/dataplane.go:163-173 | once the run has returned and publication is closed, teardown gets the lock and completes on every schedule that schedules the publisher in flight while it holds the lock and the owner until it is done |
| PublicationProgress.StoppedRunReturns | dataplane/native/dp_worker.c:122-226 | once stop is requested, the run returns with every worker stopped, on every schedule fair to the owner and the workers while they have steps to take |
| PublicationProgress.RequestedStopReturns | dataplane/native/dp_worker.c:28-34 | a stop request at any moment of the run has that effect |
| PublicationProgress.FairScheduleExists | control/dataplane/dataplane.go:163-173 | the conditions of the progress results, closed publication included, are met together by some schedule from every reachable state |
| PublicationProgress.FailureStops | dataplane/native/dp_worker.c:112-118 | a worker whose start failed makes everyone stop |
| PublicationRefinement.RouteByRules | dataplane/native/dp_worker.c:46-92 | routing by the tables of a built snapshot is routing by its rules |
| PublicationRefinement.HeldRulesValid | dataplane/native/dp_lookup.c:282-293 | in every run the rules behind a held snapshot are valid |
| PublicationRefinement.StepFollowsTables | dataplane/native/dp_worker.c:139-146 | in every run the next packet of a burst goes the way the tables of the held snapshot say |
| PublicationRefinement.PacketFollowsStep | dataplane/native/dp_worker.c:37-93 | processing that packet with those tables has the outcome of the protocol's step |
| PublicationRefinement.TurnFollowsLog | dataplane/native/dp_worker.c:122-159 | a turn that receives a logged burst offers, sends and frees what the log says |
| Lifecycle.Runtime.WorkersStopped | dataplane/native/dp_runtime.c:21-34 | true exactly when both counts are zero and no worker is flagged |
| Lifecycle.Runtime.SetupPort | dataplane/native/dp_port.c:40-81 | what each failing call leaves open and started |
| Lifecycle.Runtime.DataplaneSetup | dataplane/native/dp_port.c:128-182 | guards, and ownership recorded before the pool and the ports can fail |
| Lifecycle.Runtime.ReleasePort | dataplane/native/dp_port.c:194-212 | stop and close of one port, first error kept, closes counted |
| Lifecycle.Runtime.FreePool | dataplane/native/dp_port.c:213-224 | the pool goes exactly when both ports are released and no mbuf is in use, and the statistics say so |
| Lifecycle.Runtime.DataplaneTeardown | dataplane/native/dp_port.c:184-225 | refused while running or while a worker is alive; else flags, statistics and return code for every answer of the environment |
| Lifecycle.Runtime.RuntimeCleanup | dataplane/native/dp_runtime.c:200-216 | refused while anything is held or a worker is alive, else the EAL is left |
| Lifecycle.HistorySafe | dataplane/native/dp_port.c:165-225 | after every history of calls an open port is owned and has its pool, and a runtime that was left holds nothing |
| Lifecycle.PoolFreedLast | dataplane/native/dp_port.c:213-223 | the pool is freed only by a teardown that finds both ports closed and no mbuf in use |
| Lifecycle.CleanupEntersLast | dataplane/native/dp_runtime.c:204-215 | the EAL is left only with nothing held, no worker or reader alive and no port open |
| Lifecycle.CleanupRefusedIff | dataplane/native/dp_runtime.c:205-212 | after a teardown that returned 0, cleanup is refused exactly when some port entered it started but not owned |
| Lifecycle.StaleIff | dataplane/native/dp_port.c:198-211 | a port becomes so exactly by a failed stop with a successful close |
| Lifecycle.FirstTeardownClean | control/dataplane/dataplane.go:117-132 | no history without an earlier teardown contains such a port |
| Lifecycle.StaleStartRefusesCleanup | dataplane/native/dp_port.c:198-211 | six calls after which teardown reported success and cleanup is refused |
| Lifecycle.OrderlyLife | dataplane/native/dp_port.c:128-225 | the calls of a whole life in order do their work, those out of order are turned away, and nothing is held at the end |
| Lifecycle.FinishLifecycle | control/dataplane/dataplane.go:117-132 | statistics fetched either way and their error kept; cleanup only after a teardown without error, never refused then; a pool whose port stayed open is kept |
| RuleManager.CloneRules | control/dataplane/rules.go:251-256 | new arrays with the same rules |
| RuleManager.Runtime.constructor | control/dataplane/dataplane.go:155-160 | publication opens with both sides in agreement |
| RuleManager.Runtime.DecidesAsCurrent | dataplane/native/dp_lookup.c:359-384 | while publication is open the native snapshot decides every packet by the rules the Go side holds |
| RuleManager.Runtime.PublishSnapshot | control/dataplane/rules.go:349-360 | the Go copy and generation change exactly with the native store, and a failure changes neither |
| RuleManager.Runtime.ReplaceRules | control/dataplane/rules.go:362-371 | succeeds exactly for a valid set, open publication and a native build that gets what it needs |
| RuleManager.Runtime.AddOneFlow | control/dataplane/rules.go:373-389 | the same with the flow appended; a duplicate key is refused |
| RuleManager.Runtime.DeleteOneFlow | control/dataplane/rules.go:391-408 | the same with the flow of that key removed; a missing key is refused |
| RuleManager.Runtime.AddOneRoute | control/dataplane/rules.go:410-426 | the same for routes |
| RuleManager.Runtime.DeleteOneRoute | control/dataplane/rules.go:428-445 | the same for routes |
| RuleManager.ReplaceMeans | control/dataplane/rules.go:362-371 | replacing asks for exactly the given rules, and succeeds exactly if they are valid by their numbers and the build is granted |
| RuleManager.AddMeans | control/dataplane/rules.go:373-426 | adding appends the rule, exactly if there is room, the rule is well formed and no rule has its fields |
| RuleManager.DeleteMeans | control/dataplane/rules.go:391-445 | deleting takes out the one rule with these fields and keeps the others in order, exactly if there is one |
| RuleManager.Runtime.CloseRules | control/dataplane/dataplane.go:169-170 | closing changes neither side; every later request fails, by the operations' own contracts |
| RuleManager.DeletionStaysValid | control/dataplane/rules.go:391-408 | deletion needs no validation |
| RuleManager.AddThenDelete | control/dataplane/rules.go:373-408 | adding a flow and deleting its key gives back the rule set |
| RuleManager.AfterIsValid | control/dataplane/rules.go:349-445 | keys stay unique through every history |
| RuleManager.PerformAll | control/dataplane/rules.go:349-445 | after every history with any native failures both sides hold the same rules and generation: the requests that succeed, in order |
| RuleManager.ReplaceThenScribble | control/dataplane/rules.go:362-371 | whatever a caller later writes into both its slices reaches neither side: the rules are those of the request if it succeeded, else the former ones |

## Left out

- Weak memory: steps are sequentially consistent; the acquire, release and relaxed orders of the C code are not modelled.
- DPDK: `rte_hash` is a map, `rte_lpm` a map from prefix and depth searched from depth 32 down, `rte_rcu_qsbr` a token with one counter per reader, `rte_ipv4_cksum` and `rte_ipv4_udptcp_cksum` the RFC 1071 sum with the UDP all-ones rule; allocation, insertion, launch, RX, TX and device calls answer anything their contract allows.
- The checksum helpers add words in network order; the DPDK ones add them in host order and store the result unswapped, which gives the same bytes.
- Publication: publishers start only once configure has returned, as the Go ready channel makes them; building a snapshot and updating the two publication counters under the lock are one step each, and so is the read of all flags by `dp_workers_stopped`.
- Publication: a build that fails gives the one code -EINVAL there; which code it is in which case is `RuleIndex.SnapshotBuild`.
- Publication: waiting for the writer lock is not scheduled; the holder is proved to release it, and a waiting publisher starts whenever its step finds the lock free.
- Publication: one configure epoch. A second configure after a teardown without a run in between is only in `RuleStore`.
- Publication: the snapshots of its heap are the rule sets they index; `PublicationRefinement` ties them to tables.
- RuleStore.Store.PublishRules: contains no grace period, because the lock holder runs alone there; the token and the scan are `Publication.StartGrace` and `Publication.Scan`.
- Lifecycle.HistorySafe: a run returns only with its workers stopped, which is proved as `PublicationSafety.RunReturnsStopped` and taken over here.
- Worker.WorkerLoop: one mbuf object stands for one receipt of a buffer, so a buffer that the pool hands out again is a new object.
- Parser.ParsePacket: null arguments are excluded by the types.
- Rules.NormalizeRules: starts at the decoded document; JSON decoding, file reading and the text-to-address library calls are not part of the model, and addresses and CIDRs come in as numbers.
- Error texts: errors are distinguished by kind and index, not by message.
- cgo marshalling, argument vectors and the reserved bytes of the C structs, which the binding zeroes.
- Argument checks of setup (worker count, device names, driver, sockets, queue capacity) are one answer of the environment.
- Test hooks and failure injectors appear only as failures of the environment.
- Cache-line alignment, NUMA placement, RSS spread, benchmarks, TAP orchestration, signals and the command line.
