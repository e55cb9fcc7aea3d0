# Whispera: a verified model of its hard parts

This project models, in Dafny, the parts of Whispera whose correctness rests on an
argument rather than on reading one function: the split-tunnel rule compiler, the
framed keep-alive stream protocol, the idle connection pool, the module registry,
the error-correcting datagram lane, session accounting, token replay protection,
ClientHello fragmentation, the QUIC Initial probe, the API rate bucket and the
router cache.

`dafny verify dfyconfig.toml` checks everything.

## How it is organised

| file | what it is about |
|---|---|
| `Wrappers`, `Lists`, `Powers`, `Bytes` | shared: optional values, insertion into lists, powers and quotients, big-endian numbers |
| `Addresses`, `Networks`, `RangeEvents`, `FlattenRanges`, `SplitRules`, `SplitTunnel` | CIDR arithmetic on bytes, prefixes and their intervals, the boundary sweep and binary search, sort and dedup of rules, the published tables and the lookups |
| `Graphs`, `StartOrder`, `Registry`, `ChainGraph` | walks and cycles, Kahn's algorithm, the module lifecycle over every run, the outbound chain check |
| `Framed`, `Session`, `Splice` | records, one framed stream, many streams on one connection, the switch to raw bytes |
| `IdlePool` | the pool's locked operations, and every interleaving of put, watch, take, reclaim, eviction and close |
| `FecBlocks`, `FecSender`, `FecReceiver`, `FecSweep`, `FecGaps`, `FecRace` | blocks of ten data and four parity packets, the sender, the receiver, end to end, when a sweep delivers a block, how gaps are filled, and every interleaving of the receiver's two goroutines |
| `KeyLimits`, `KeyManager`, `TokenReplay`, `RateBucket`, `RouterCache` | accounting over interleavings, retention against validity, idle cleanup, cache truthfulness |
| `HelloFragments`, `HelloNames`, `QuicInitial`, `QuicParser` | cutting, reassembling and replaying a ClientHello; where its server name is; building and parsing the Initial packet; what the parser makes of any client's packet |

Objects that the program changes in place are classes whose methods are proved
against functions on values; what the program promises is proved about those
functions, for all inputs, all runs or all interleavings.

## Main results

* **First match wins.** For every rule list and every 128-bit address, the sweep's
  output is sorted and disjoint, the interval of a rule holds exactly the addresses
  of its prefix (`Networks.IntervalIsNetwork`; for IPv4, those that agree on its
  first bits, `Networks.V4Network`), and the binary search finds exactly
  the first enabled rule whose prefix contains the address (`FlattenRanges.Flatten`,
  `SplitTunnel.RuleForAddr`); the same for host names (`SplitTunnel.RuleForHost`).
  Adding rules in portions equals adding them at once
  (`SplitRules.CompileInPortions`), so for any history of enabled rules the
  published verdict is that of the first matching rule in priority order
  (`SplitTunnel.Manager.DirectHost`, `SplitTunnel.Manager.DirectAddr`).
* **Start order.** `StartOrder.ComputeStartOrder` decides acyclicity, and its result
  is a function of the graph alone. Over every run no running module lacks a
  running dependency (`Registry.EmptySupported`), and a start that fails has started
  exactly the modules before the first that does not come up
  (`Registry.StartOutcome`).
* **Framing.** What is written is read back exactly, for every chunking, padding,
  filler and buffer size (`Framed.DeliveredExactly`); a whole session of streams is
  recovered with every header at the right byte, and ends at the first stream whose
  answer side does not allow reuse (`Session.SessionRoundTrip`,
  `Session.SessionStops`); the switch to raw bytes loses and repeats nothing
  (`Splice.SpliceEndToEnd`).
* **Hello.** A ClientHello is split exactly in the middle of its first server name
  (`HelloNames.SplitOfNamed`, `HelloNames.SplitMeansNamed`), and the peek finds it
  again however it was cut (`HelloFragments.FragmentThenPeek`,
  `HelloFragments.PeekFound`). The QUIC parser gets the hello out of the probe
  (`QuicInitial.ProbeRoundTrip`) and out of any client's Initial packet
  (`QuicParser.InitialParsed`).
* **Idle pool.** In every interleaving each pooled connection has exactly one owner
  and is handed out only untouched (`IdlePool.EveryRun`, `IdlePool.CloseIsSafe`), and
  one put into an open pool can be had back at once (`IdlePool.PutThenTake`).
* **Datagram lane.** When no packet of the block arrives during its delivery, any ten
  packets of a block give back its payloads in order, also while the sender's last
  block is still open (`FecReceiver.LaneEndToEnd`, `FecRace.QuietIsInLine`). Over
  every run of arrivals and sweeps a sweep delivers exactly the blocks that are
  complete or whose first packet came at least 30 milliseconds ago
  (`FecSweep.SweepTakes`, `FecSweep.SweepDelivers`).
* **Accounting.** Caps hold over every interleaving (`KeyLimits.EveryRun`), and each
  reason to refuse a session is given exactly when its limit is the first without
  room (`KeyLimits.AdmitDecides`); a token string consumed when it is verified is
  never accepted twice (`TokenReplay.NeverTwice`); a request is allowed if and only if
  no span since an earlier request of its key has used up 60 requests and 30 more per
  second (`RateBucket.AllowedIff`).

Six promises do not hold as one might first state them; each has its exact condition:

* Removing repeated rules keeps the winning rule if and only if no earlier rule has
  its key (`SplitRules.DedupKeepsWinner`), and so for all hosts and addresses if and
  only if no disabled rule stands before one with its key that can win
  (`SplitRules.DedupKeepsAllIff`). With every rule enabled that is always so
  (`SplitRules.DedupKeepsVerdict`), but the key ignores whether a rule is enabled,
  so a disabled rule can hide an enabled one
  (`SplitRules.DisabledRuleHidesEnabledOne`).
* The session counter equals live sessions plus pending decrements if and only if no
  admission of the run was of a session live at that moment (`KeyLimits.EveryRun`);
  `Admit` does not check that, and admitting one id twice counts two for one session
  (`KeyLimits.DoubleAdmission`). The caps hold either way.
* In any run a token string is accepted twice if and only if two of its presentations
  pass the window check and are consumed at least 90 seconds apart
  (`TokenReplay.TwiceIffLate`). That is ruled out over all runs exactly when tokens
  are consumed at the clock reading at which they were verified: one second in
  between is enough, for a token of any window (`TokenReplay.RetentionIsExact`,
  `TokenReplay.LateConsumptionReplays`).
* A MAC, as opposed to a token string, is accepted at most once if and only if in
  addition no two different strings that decode to it are presented and pass
  (`TokenReplay.MacTwiceIff`).
* The router's cache, keyed by destination address and port, answers like a scan for
  every choice of tests and destinations if and only if every rule that can match
  and stands behind no unconditional rule reads only destination address and port
  (`RouterCache.CacheRightIffSafe`); a rule that reads the source breaks it
  (`RouterCache.SourceRuleGoesStale`).
* A datagram block whose packets arrive while it is delivered may come out wrong:
  decoding, filling the gaps and taking the payloads are separate steps under two
  locks. A block of ten different payloads of which ten packets were decoded is
  right when it is taken for the first time if and only if every data packet that was
  missing at the filling behind one noted too late for the decoder has been noted
  between filling and taking (`FecRace.FullBlockIff`; `FecRace.DeliveredIff` for
  blocks closed early). Otherwise the recovered payloads are shifted
  (`FecRace.LatePacketMisplaces`); the missing packets themselves repair it
  (`FecRace.PacketsRepair`), and both happen (`FecRace.SecondPacketRepairs`).

## Model

| member | source | states |
|---|---|---|
| `Addresses.IncAddr` | common/split_tunnel/split_tunnel.go:301-309 | adds one to the address as a number; fails exactly at the last address |
| `Addresses.DecAddr` | common/split_tunnel/split_tunnel.go:311-320 | subtracts one, wrapping at zero |
| `Addresses.LexLessIsLess` | common/split_tunnel/split_tunnel.go:357-362 | comparing bytes compares the numbers, so the sweep may be read on naturals |
| `Addresses.RangeOf` | common/split_tunnel/geoip.go:71-90 | for every network: from its address to the last address of its prefix, which for an IPv4 network of n bits has the last 32 - n bits set and for an IPv6 network the last 128 - n; no interval exactly for a non-IP or an empty mask |
| `Addresses.FillHostBits` | common/split_tunnel/geoip.go:86-88 | for any address and mask length, setting the host bits gives the last address of the prefix |
| `Addresses.PrefixIsInterval` | common/split_tunnel/geoip.go:71-90 | sharing the leading bits of a masked address is lying between it and the last address of its prefix |
| `Networks.FindInterval` | common/split_tunnel/split_tunnel.go:283-294 | computes the interval of a rule's network or single address |
| `Networks.IntervalIsNetwork` | common/split_tunnel/split_tunnel.go:283-294 | the interval holds exactly the addresses that share the network's prefix, or the one address named |
| `Networks.V4Network` | common/split_tunnel/geoip.go:71-90 | an IPv4 network of n bits takes exactly the IPv4 addresses that agree with it on the first n bits |
| `Networks.V4NetworkOnly` | common/split_tunnel/geoip.go:71-90 | and no address that is not IPv4 |
| `Networks.V6Network` | common/split_tunnel/geoip.go:71-90 | an IPv6 network likewise |
| `Addresses.WireNumbers` | core/relay/relay.go:690-730 | two and four bytes on the wire are big-endian numbers |
| `RangeEvents.BuildEvents` | common/split_tunnel/split_tunnel.go:346-356 | start and end events of every range, and no end event for one that ends at the last address |
| `RangeEvents.SortEvents` | common/split_tunnel/split_tunnel.go:357-362 | a rearrangement by ascending address, starts before ends at one address |
| `FlattenRanges.Push` | common/split_tunnel/split_tunnel.go:328-340 | the heap as a multiset with its minimum in front |
| `FlattenRanges.AbsorbGroup` | common/split_tunnel/split_tunnel.go:368-375 | all events of one address are taken in and the sweep invariant is kept |
| `FlattenRanges.DropEnded` | common/split_tunnel/split_tunnel.go:376-378 | lazy deletion keeps the invariant and leaves a live rule in front |
| `FlattenRanges.StretchWinner` | common/split_tunnel/split_tunnel.go:367-391 | between two event addresses the front of the heap is the winner of every address, and an empty heap means no match |
| `FlattenRanges.Emit` | common/split_tunnel/split_tunnel.go:392-398 | appending or merging a segment keeps the answers right up to its end |
| `FlattenRanges.Sweep` | common/split_tunnel/split_tunnel.go:364-401 | sorted disjoint segments that answer every address below 2^128 |
| `FlattenRanges.Flatten` | common/split_tunnel/split_tunnel.go:346-401 | for every list of ranges: sorted, disjoint, and each address is in a segment exactly if some range covers it, with the smallest such rule |
| `FlattenRanges.Search` | common/split_tunnel/split_tunnel.go:488-490 | the first segment that does not end before the address |
| `FlattenRanges.Lookup` | common/split_tunnel/split_tunnel.go:485-493 | a rule exactly if some range covers the address, and then the smallest index |
| `Networks.SpaceOfAddresses` | common/split_tunnel/split_tunnel.go:301-320 | sixteen bytes are exactly the numbers the sweep works on |
| `SplitRules.FirstFiringIs` | common/split_tunnel/oldmatch_test.go:12-34 | the reference: nothing before the first matching enabled rule matches |
| `SplitRules.RuleTakesHost` | common/split_tunnel/split_tunnel.go:265-282 | a domain rule, with or without a leading star, takes the domain and names ending in a dot and the domain; an exact rule the name; a keyword rule names with the keyword in them; an address rule or a disabled rule none |
| `SplitRules.NormalHostIs` | common/split_tunnel/split_tunnel.go:521 | one dot at the end and letter case do not matter |
| `SplitRules.LowerLetters` | common/split_tunnel/split_tunnel.go:521 | the capital letters become the small ones, and nothing else changes |
| `SplitRules.SortedIsStable` | common/split_tunnel/split_tunnel.go:403-407 | descending priority, a rearrangement, and insertion order within one priority |
| `SplitRules.DedupTwice` | common/split_tunnel/split_tunnel.go:238-251 | removing repeats again, also under more keys, is removing them once |
| `SplitRules.DedupInsert` | common/split_tunnel/split_tunnel.go:238-251 | removing repeats before inserting changes nothing |
| `SplitRules.CompileInPortions` | common/split_tunnel/split_tunnel.go:203-251 | adding rules in portions leaves the list of adding them at once |
| `SplitRules.DedupKeepsWinner` | common/split_tunnel/split_tunnel.go:238-251 | dedup keeps the winning rule if and only if no earlier rule has its key |
| `SplitRules.DedupKeepsAllIff` | common/split_tunnel/split_tunnel.go:238-251 | dedup changes the winner for no host or address if and only if no rule that can win has a disabled rule of its key before it |
| `SplitRules.DedupAddsNothing` | common/split_tunnel/split_tunnel.go:238-251 | where nothing matched, nothing matches afterwards |
| `SplitRules.DedupKeepsVerdict` | common/split_tunnel/split_tunnel.go:238-251 | with all rules enabled dedup never changes the verdict |
| `SplitRules.DisabledRuleHidesEnabledOne` | common/split_tunnel/split_tunnel.go:238-251 | the counterexample with a disabled rule |
| `SplitTunnel.PublishRule` | common/split_tunnel/split_tunnel.go:265-296 | one rule's table entries, the first rule of a value winning |
| `SplitTunnel.Publish` | common/split_tunnel/split_tunnel.go:253-299 | tables that hold, for each value, the first enabled rule, all keywords, and the flattened ranges |
| `SplitTunnel.RuleForAddr` | common/split_tunnel/split_tunnel.go:485-498 | the fast lookup by address is the first enabled rule whose prefix contains the address, and none exactly if there is none |
| `SplitTunnel.RuleTakes` | common/split_tunnel/split_tunnel.go:283-294 | what an address rule takes, in the address's own bytes: agreement on the leading bits of an IPv4 or IPv6 network, or the single address itself |
| `SplitTunnel.AddrValueIs` | common/split_tunnel/split_tunnel.go:485-490 | the address looked up: its sixteen bytes, with the IPv4 prefix for four, all zero for anything else |
| `SplitTunnel.AddrFiring` | common/split_tunnel/split_tunnel.go:485-498 | a winning range is a first matching rule, and no range means no rule |
| `SplitTunnel.StripLabel` | common/split_tunnel/split_tunnel.go:527-536 | label-boundary suffixes are the name and those of the name without its first label |
| `SplitTunnel.BestSuffix` | common/split_tunnel/split_tunnel.go:523-536 | the label walk finds the best exact or suffix rule |
| `SplitTunnel.BestKeyword` | common/split_tunnel/split_tunnel.go:537-544 | the keyword scan with its early skip leaves the best rule of all |
| `SplitTunnel.RuleForHost` | common/split_tunnel/split_tunnel.go:520-549 | the fast lookup by name is the first matching rule of the list |
| `SplitTunnel.StableSort` | common/split_tunnel/split_tunnel.go:403-407 | computes the stable order |
| `SplitTunnel.Manager.AddRules` | common/split_tunnel/split_tunnel.go:203-226 | whatever the history, the rules are those of adding everything at once, and the tables are published for them |
| `SplitTunnel.Manager.Recompile` | common/split_tunnel/split_tunnel.go:238-251 | repeats removed and tables published |
| `SplitTunnel.PublishedVerdict` | common/split_tunnel/split_tunnel.go:203-251 | for any history of enabled rules the compiled list decides like the sorted history |
| `SplitTunnel.Manager.DirectHost` | common/split_tunnel/split_tunnel.go:507-549 | the published verdict for a name is that of the first matching rule, for enabled rules of the whole history in priority order |
| `SplitTunnel.Manager.DirectAddr` | common/split_tunnel/split_tunnel.go:485-493 | the same for an address |
| `Graphs.TrappedMeansCycle` | common/runtime/registry/dependency_order.go:52-56 | a non-empty set of modules each waiting for one of the set contains a cycle |
| `Graphs.OrderedMeansAcyclic` | common/runtime/registry/dependency_order.go:52-56 | a dependency order of all modules rules out cycles |
| `StartOrder.BuildDegrees` | common/runtime/registry/dependency_order.go:9-25 | in-degrees and reverse lists of the multigraph, or a dependency that is not registered |
| `StartOrder.InitialQueue` | common/runtime/registry/dependency_order.go:27-34 | the sorted roots, whatever the map order |
| `StartOrder.Round` | common/runtime/registry/dependency_order.go:37-50 | one round keeps Kahn's invariant and is a function of the graph |
| `StartOrder.RelaxKeeps` | common/runtime/registry/dependency_order.go:44-49 | degrees drop by the number of edges, and a name is queued exactly when its degree reaches zero |
| `StartOrder.SortedUnique` | common/runtime/registry/dependency_order.go:34-43 | there is one sorted list of a multiset, so map order cannot show |
| `StartOrder.LeftoverMeansCycle` | common/runtime/registry/dependency_order.go:52-54 | modules left over contain a real cycle |
| `StartOrder.ComputeStartOrder` | common/runtime/registry/dependency_order.go:8-57 | fails exactly on an unregistered dependency or a cycle; otherwise each module once, behind its dependencies, in an order fixed by the graph |
| `StartOrder.CanonicalOrderIsOrder` | common/runtime/registry/dependency_order.go:8-57 | that order exists and is a dependency order for every acyclic graph |
| `Registry.StartKeeps` | common/runtime/registry/registry.go:163-203 | starting in order, failing anywhere, never leaves a running module unsupported; success means all run |
| `Registry.StopKeeps` | common/runtime/registry/registry.go:205-239 | stopping in reverse order, with failures, keeps support; afterwards nothing runs |
| `Registry.ApplyKeeps` | common/runtime/registry/registry.go:89-239 | every operation keeps it |
| `Registry.AlwaysSupported` | common/runtime/registry/registry.go:89-239 | every run of operations keeps it |
| `Registry.EmptySupported` | common/runtime/registry/registry.go:89-239 | in every reachable state each running module has its dependencies running |
| `Registry.ModuleRegistry.RegisterModule` | common/runtime/registry/registry.go:89-112 | refuses the empty and the repeated name, else a new uninitialised module |
| `Registry.ModuleRegistry.StartModules` | common/runtime/registry/registry.go:163-203 | the whole new state and outcome of a start |
| `Registry.StartOutcome` | common/runtime/registry/registry.go:163-203 | no order exactly for an unknown dependency or a cycle; else success if and only if every module not yet running comes up, and then all run; a failure names the first that does not, those before it run and the rest are untouched |
| `Registry.StopOutcome` | common/runtime/registry/registry.go:205-239 | every running module is asked to stop, each ends as its own answer says, and the stop fails exactly if one failed |
| `Registry.RegisterOutcome` | common/runtime/registry/registry.go:89-112 | refused exactly for the empty or a repeated name; else one module more, not initialised, and the others as they were |
| `Registry.ModuleRegistry.StopModules` | common/runtime/registry/registry.go:205-239 | the whole new state and outcome of a stop |
| `ChainGraph.Visit` | core/outbound/outbound.go:253-270 | either no walk from the tag runs into the stack or itself, or such a walk exists |
| `ChainGraph.ValidateChainGraph` | core/outbound/outbound.go:247-278 | terminates, and accepts exactly the acyclic chain graphs |
| `Framed.RecordRoundTrip` | core/protocol/framed.go:518-548 | every record is read back as what it is: no data is taken for an end, a filler or a switch |
| `Framed.LongRecordRefused` | core/protocol/framed.go:518-530 | the size limit is exact |
| `Framed.HeaderDecides` | core/protocol/framed.go:518-535 | another type or an impossible length is refused at the fifth byte, and anything less than the announced record is waited for |
| `Framed.DrainEnded` | core/protocol/framed.go:518-548 | a whole stream yields its bytes and stops behind the end marker |
| `Framed.DrainSwitched` | core/protocol/framed.go:518-548 | up to a switch likewise |
| `Framed.ReadKeeps` | core/protocol/framed.go:492-516 | a read returns the next bytes owed, and the end exactly when nothing is owed |
| `Framed.ReadManyExact` | core/protocol/framed.go:492-516 | over any buffer sizes: a prefix, then everything, consumed exactly through the end marker |
| `Framed.StreamRoundTrip` | core/protocol/framed.go:452-548 | written and read back over any records and buffer sizes |
| `Framed.ShapedChunk` | core/protocol/framed.go:75-103 | every draw stays between one and what is left, below the record limit |
| `Framed.ChunkLen` | core/protocol/framed.go:192-215 | every draw makes progress and respects the configured bounds |
| `Framed.ShapePadLen` | core/protocol/framed.go:250-263 | padding never exceeds the room |
| `Framed.FramedConn.TakePadding` | core/protocol/framed.go:291-304 | padding fits the room and the budget goes down by one |
| `Framed.FramedConn.Write` | core/protocol/framed.go:452-490 | whatever the shape knobs read for each record, all input is sent as valid records, or nothing once ended |
| `Framed.LongFillerBreaks` | core/protocol/framed.go:405-422 | a filler above the reader's limit breaks the stream off behind the bytes before it |
| `Framed.FramedConn.WriteFiller` | core/protocol/framed.go:405-422 | for any length: the filler record is sent unless the stream has ended; up to the reader's limit it carries no bytes and keeps the stream readable |
| `Framed.FramedConn.EndStream` | core/protocol/framed.go:580-590 | one end marker, however often it is called |
| `Framed.FramedConn.SwitchToRaw` | core/protocol/framed.go:550-578 | one switch marker unless the stream has ended |
| `Framed.FramedConn.NextRecord` | core/protocol/framed.go:518-548 | reads the next non-filler record |
| `Framed.FramedConn.ReadInto` | core/protocol/framed.go:492-516 | refines the reader on values |
| `Framed.DeliveredExactly` | core/protocol/framed.go:452-548 | whatever a connection was given to write, the other side reads exactly that, then the end |
| `Session.FlagsRoundTrip` | core/tunnel/datapath.go:140-173 | protocol number and flags survive, the splice wish replacing the caller's bit |
| `Session.HeaderRoundTrip` | core/relay/relay.go:690-730 | a header is read back field by field, protocol number, keep-alive, torrent and splice bit, address and port, and not taken for a filler, if and only if the address has 1 to 255 bytes |
| `Session.ClientHeaderRead` | core/relay/relay.go:690-730 | what the server reads is what the client asked for: its protocol, wishes, address and port |
| `Session.FillerSkipped` | core/protocol/framed.go:436-450 | a filler is never taken for a header |
| `Session.LongFillerEndsSession` | core/protocol/framed.go:436-450 | a filler above the reader's limit ends the session |
| `Session.StreamServed` | core/relay/relay.go:769-881 | one stream yields its header and payload if its target is reached, as far as the target takes it, and the next header is read exactly if all was taken and the answer stayed framed and was ended |
| `Session.SessionRoundTrip` | core/relay/relay.go:315-345 | any run of streams and fillers is recovered exactly, each with the protocol, wishes, address, port and bytes its client gave, for as long as the answers allow reuse |
| `Session.SessionStops` | core/relay/relay.go:315-345 | the first answer that does not allow reuse ends the session: all streams so far, and none after |
| `Session.LastStream` | core/relay/relay.go:852-853 | a stream without keep-alive takes the rest of the connection |
| `Session.ReadStreamHeader` | core/relay/relay.go:690-730 | computes the header reader whose fields `Session.HeaderRoundTrip` states |
| `Session.RelayUpstream` | core/relay/relay.go:877-880 | the payload up to where writing to the target fails, and where the next header starts if the stream was done |
| `Session.HandleStream` | core/relay/relay.go:769-881 | what one stream adds, and where the next header starts if the connection is reusable |
| `Session.RunSession` | core/relay/relay.go:315-345 | the loop serves exactly the streams on the wire, one answer each, up to the first that ends it |
| `Splice.DeliverPrefix` | core/tunnel/keepalive.go:171-186 | wherever the wire is cut, the client has a prefix of the source |
| `Splice.DeliverAll` | core/tunnel/keepalive.go:171-186 | with the whole wire it has everything |
| `Splice.SpliceFrom` | core/relay/relay.go:383-415 | framed part plus raw part are the source; the switch comes exactly when the threshold is reached, at most one read past it |
| `Splice.SplicedFrom` | core/relay/relay.go:383-415 | what is on the wire is a framed prefix, a closing marker and the raw tail |
| `Splice.SpliceEndToEnd` | core/relay/relay.go:383-415 | composed with the client: a prefix at every moment, all of it at the end |
| `Splice.SpliceTo` | core/tunnel/keepalive.go:171-186 | the client's copy delivers exactly that |
| `IdlePool.IdleSet.Put` | core/tunnel/keepalive.go:116-138 | closed pool: the newcomer is to be closed; full pool: the oldest |
| `IdlePool.PutOutcome` | core/tunnel/keepalive.go:116-138 | open pool: the newcomer comes last, the order is kept, and only the oldest over eight go out; closed pool: the newcomer alone |
| `IdlePool.PutsKeepNewest` | core/tunnel/keepalive.go:116-138 | after any number of puts the last eight are parked in order and all before them went out, oldest first |
| `IdlePool.RemoveOutcome` | core/tunnel/keepalive.go:74-83 | a removal takes the entry out where it stands |
| `IdlePool.PutThenTake` | core/tunnel/keepalive.go:64-138 | from any state with the pool open, a connection just put is the one the next taker gets, and the pool keeps the rest |
| `IdlePool.ReadByteNeverHanded` | core/tunnel/keepalive.go:64-95 | in every interleaving an entry whose watcher read a byte is never handed out |
| `IdlePool.ClosedStaysEmpty` | core/tunnel/keepalive.go:116-155 | once closed, the pool parks nothing until it is opened again, whatever the threads do |
| `IdlePool.ReopenedTakes` | core/tunnel/keepalive.go:140-144 | opened again it takes connections as before |
| `IdlePool.IdleSet.Pop` | core/tunnel/keepalive.go:97-114 | takes the newest |
| `IdlePool.IdleSet.Remove` | core/tunnel/keepalive.go:74-83 | removes the entry if it is still there, and says whether it was |
| `IdlePool.IdleSet.CloseAll` | core/tunnel/keepalive.go:146-155 | all entries are to be closed and the pool is closed |
| `IdlePool.StepPlaces` | core/tunnel/keepalive.go:64-155 | no step but a put creates, loses or doubles an entry |
| `IdlePool.KeepsCleanHandover` | core/tunnel/keepalive.go:64-114 | a handed-out entry's watcher has finished without consuming a byte |
| `IdlePool.StepKeepsInv` | core/tunnel/keepalive.go:64-155 | every step of every thread keeps the invariant |
| `IdlePool.RunKeepsInv` | core/tunnel/keepalive.go:64-155 | every interleaving keeps it |
| `IdlePool.EveryRun` | core/tunnel/keepalive.go:64-155 | in every interleaving each entry is in exactly one place, a handed-out one is never closed by the pool, and at most eight rest |
| `IdlePool.CloseIsSafe` | core/tunnel/keepalive.go:64-155 | what the pool closes is not handed out and not closed before, and earlier entries of the same connection were handed out |
| `IdlePool.NothingLeaks` | core/tunnel/keepalive.go:64-155 | when all threads are done each entry is parked, closed once or handed out once |
| `FecBlocks.ReconstructExact` | core/protocol/quic/fec.go:208-270 | with ten shards and a gap, exactly the missing payloads in order |
| `FecBlocks.ParityHeld` | core/protocol/quic/fec.go:216-237 | the longest held shard has the length of the codeword, because a parity shard is held |
| `FecSender.Extend` | core/protocol/quic/fec.go:98-107 | extending a pooled buffer in place pads with zeros, whatever it held before |
| `FecSender.GetBuf` | core/protocol/quic/fec.go:22-29 | capacity for every protected payload |
| `FecSender.Sender.EncodeFec` | core/protocol/quic/fec.go:62-91 | the packet, and the shard kept |
| `FecSender.Sender.ParityPackets` | core/protocol/quic/fec.go:93-150 | the parity packets of the block under the next four numbers |
| `FecSender.Sender.Flush` | core/protocol/quic/datagram.go:125-140 | fills the open block with empty payloads and closes it |
| `FecSender.Sender.Encode` | core/protocol/quic/datagram.go:142-165 | large payloads go raw; otherwise a stale block is flushed first, every packet has its number, and the accepted payloads grow by this one |
| `FecSender.PayloadsFillBlocks` | core/protocol/quic/datagram.go:142-165 | payloads sent without a pause fill blocks of ten in order, and the open block holds the remainder |
| `FecSender.FlushedIs` | core/protocol/quic/datagram.go:125-140 | a flush completes an open block with empty payloads and does nothing else |
| `FecReceiver.PacketFields` | core/protocol/quic/datagram.go:184-215 | what the receiver reads from a packet is what the sender meant |
| `FecReceiver.IngestKeeps` | core/protocol/quic/datagram.go:184-215 | every arrival keeps the receiver faithful |
| `FecReceiver.DeliverKeeps` | core/protocol/quic/datagram.go:245-287 | delivery keeps it faithful and forgets the block |
| `FecReceiver.DeliverExact` | core/protocol/quic/datagram.go:245-287 | ten packets held: exactly the block's payloads in order |
| `FecReceiver.DeliverPartial` | core/protocol/quic/datagram.go:245-287 | fewer: exactly the block's payloads at the positions that arrived, in order |
| `FecReceiver.RunIsFaithful` | core/protocol/quic/datagram.go:184-287 | over every run of arrivals and deliveries |
| `FecReceiver.RunDelivers` | core/protocol/quic/datagram.go:184-287 | any ten of a block's packets since it was last delivered give its payloads |
| `FecReceiver.RunDeliversPart` | core/protocol/quic/datagram.go:184-287 | fewer give the payloads of the data packets that arrived |
| `FecReceiver.Lane.IngestPacket` | core/protocol/quic/datagram.go:184-215 | without interference, refines the arrival on values, malformed packets included |
| `FecReceiver.Lane.NotePacket` | core/protocol/quic/datagram.go:193-207 | the part under the receiver's lock |
| `FecReceiver.Lane.StorePacket` | core/protocol/quic/fec.go:179-198 | the part under the decoder's lock |
| `FecReceiver.Lane.DeliverOne` | core/protocol/quic/datagram.go:245-287 | refines the delivery |
| `FecReceiver.Lane.Sweep` | core/protocol/quic/datagram.go:217-243 | takes exactly the due blocks, each once, delivers them in the order taken, and says whether any is still waiting |
| `FecSweep.RunKnows` | core/protocol/quic/datagram.go:184-243 | over every run of arrivals and sweeps: the receiver waits for exactly the blocks with a packet since they were last taken, each with the time of the first such packet, and holds exactly those packets |
| `FecSweep.SweepTakes` | core/protocol/quic/datagram.go:217-243 | a sweep takes a block if and only if all its data packets came or its first packet came at least 30 milliseconds before |
| `FecSweep.DeliveredInTime` | core/protocol/quic/datagram.go:217-243 | so no block waits past a sweep 30 milliseconds after its first packet |
| `FecSweep.SweepDelivers` | core/protocol/quic/datagram.go:217-287 | what a sweep puts out: for each block taken its payloads if ten packets came, else those of the data packets that came |
| `FecReceiver.SenderPackets` | core/protocol/quic/datagram.go:142-165 | every packet a sender has put out is that packet of its blocks, the open one included |
| `FecReceiver.LaneEndToEnd` | core/protocol/quic/datagram.go:125-287 | sender to receiver, with any sent packets arriving: a block with ten arrivals delivers its share of the accepted payloads |
| `FecReceiver.OpenBlockEndToEnd` | core/protocol/quic/datagram.go:125-287 | of a block still open, the payloads that arrived are delivered in order |
| `FecGaps.FillIs` | core/protocol/quic/datagram.go:258-268 | each gap gets the recovered payload whose turn it is, by the number of gaps before it |
| `FecGaps.TakenIff` | core/protocol/quic/datagram.go:258-280 | for a block with different payloads and then empty ones: what is taken is right if and only if each patched gap got its own payload or, in the empty part, an empty one |
| `FecGaps.SettledIffRepaired` | core/protocol/quic/datagram.go:258-280 | for ten payloads, exactly if nothing missing behind a late packet is still patched |
| `FecRace.StepKeepsInv` | core/protocol/quic/datagram.go:184-287 | every locked section of either goroutine keeps the invariant |
| `FecRace.EveryDelivery` | core/protocol/quic/datagram.go:184-287 | at every taking in every interleaving: a block decoded from ten packets with its patched gaps in line comes out whole, one with fewer comes out with the payloads noted |
| `FecRace.InLineIff` | core/protocol/quic/datagram.go:245-280 | at a first delivery the gaps are in line exactly if every packet missing at the filling behind a late one has come in since |
| `FecRace.QuietIsInLine` | core/protocol/quic/datagram.go:245-280 | they are if none of the block's packets is on its way at the decoding or noted before the filling, whatever comes between filling and taking |
| `FecRace.DeliveredIff` | core/protocol/quic/datagram.go:245-287 | the exact condition when a block, closed early or not, is first taken: right if and only if each gap not repaired had no more missed packets before it, or before the empty part, than gaps |
| `FecRace.FullBlockIff` | core/protocol/quic/datagram.go:245-287 | for ten different payloads: if and only if every data packet missing at the filling behind one noted too late has been noted between filling and taking |
| `FecRace.LatePacketMisplaces` | core/protocol/quic/datagram.go:245-280 | in any run: two data packets missed by the decoder, the earlier noted before the filling, the later not noted before the taking, and what is taken is wrong |
| `FecRace.PacketsRepair` | core/protocol/quic/datagram.go:193-207 | in any run: once all packets missing at the filling are noted before the taking, what is taken is right |
| `FecRace.SecondPacketRepairs` | core/protocol/quic/datagram.go:184-287 | there is a run that would deliver the block wrong at one moment and right at the next |
| `KeyLimits.DeleteAllCounts` | core/keylimits/keylimits.go:102-115 | deletions count exactly what they delete |
| `KeyLimits.DeleteAllKeeps` | core/keylimits/keylimits.go:102-115 | they keep the caps and leave no empty key |
| `KeyLimits.AdmitKeepsCaps` | core/keylimits/keylimits.go:117-176 | an admission keeps the per-key caps; a refusal leaves no empty key behind |
| `KeyLimits.AdmitKeepsCount` | core/keylimits/keylimits.go:117-176 | and the counter's relation to the live sessions |
| `KeyLimits.AdmitDecides` | core/keylimits/keylimits.go:117-176 | each reason is given exactly when its limit is the first in order without room, and a session is let in exactly when every limit has room |
| `KeyLimits.AdmitChanges` | core/keylimits/keylimits.go:117-176 | an admission adds this session with its address and time and changes no other; a refusal changes none |
| `KeyLimits.DeleteChanges` | core/keylimits/keylimits.go:102-115 | a deletion removes exactly the sessions named |
| `KeyLimits.CollectChanges` | core/keylimits/keylimits.go:443-471 | collecting removes exactly the sessions idle past their limit that no closer holds |
| `KeyLimits.WindowsForgotten` | core/keylimits/keylimits.go:467-471 | attempt windows are dropped exactly after five minutes, and no later decision changes |
| `KeyLimits.MarkChanges` | core/keylimits/keylimits.go:188-206 | marking changes one field of one live session |
| `KeyLimits.TouchChanges` | core/keylimits/keylimits.go:188-206 | touching likewise |
| `KeyLimits.WindowIsExact` | core/keylimits/keylimits.go:123-134 | within a window exactly the first allowed number of attempts passes |
| `KeyLimits.StepKeepsInv` | core/keylimits/keylimits.go:102-482 | every step, a late decrement included, keeps the invariant |
| `KeyLimits.EveryRun` | core/keylimits/keylimits.go:102-482 | in every interleaving live sessions stay within the global cap and the per-key caps; the counter is live sessions plus pending decrements if and only if no admission of the run was of a session live at that moment |
| `KeyLimits.StepCounts` | core/keylimits/keylimits.go:102-482 | only such an admission moves the counter away from what it counts, by one |
| `KeyLimits.DoubleAdmission` | core/keylimits/keylimits.go:167-175 | the failing input: one id admitted twice gives a count of two, one live session and nothing pending |
| `KeyManager.NormalCount` | core/keylimits/keylimits.go:178-186 | counts the sessions that are not torrents |
| `KeyManager.CountUniqueIps` | core/keylimits/keylimits.go:483-490 | counts the distinct addresses with the new one |
| `KeyManager.OldestSessions` | core/keylimits/keylimits.go:244-256 | as many as asked for or there are, none younger than one left out |
| `KeyManager.Manager.AdmitOne` | core/keylimits/keylimits.go:117-176 | the new state and the reason of `KeyLimits.AdmitDecides` and `KeyLimits.AdmitChanges` |
| `KeyManager.Manager.DeleteSessions` | core/keylimits/keylimits.go:208-211 | the locked part of releases and evictions |
| `KeyManager.Manager.SettleDecrement` | core/keylimits/keylimits.go:212-214 | the counter update behind the lock |
| `KeyManager.Manager.EvictOldest` | core/keylimits/keylimits.go:237-271 | without interference: exactly the oldest sessions are gone, the counter has followed, and their closers are called |
| `KeyManager.Manager.EvictSnapshot` | core/keylimits/keylimits.go:237-285 | whatever happened since the snapshot was taken: exactly its oldest sessions are gone, the counter follows by those still live, and their registered closers are taken out and called |
| `KeyManager.Manager.Release` | core/keylimits/keylimits.go:208-224 | the session and its closer are gone and the counter follows if it was live |
| `KeyManager.Manager.CollectExpired` | core/keylimits/keylimits.go:443-482 | exactly the expired sessions are gone |
| `TokenReplay.Verify` | core/protocol/pathgen.go:41-52 | accepts exactly the three candidate windows |
| `TokenReplay.AcceptedFromTo` | core/protocol/pathgen.go:47-52 | a token of window k passes at every second from 30 (k - 1) to 30 (k + 2) - 1, and at no other |
| `TokenReplay.SpanBelowRetention` | core/protocol/config.go:116 | two acceptable moments are at most 89 seconds apart |
| `TokenReplay.NeverTwice` | core/protocol/tokenset.go:35-68 | over every run with sweeps and cleanups, consuming at the clock reading of the check, no token string is accepted twice |
| `TokenReplay.TwiceIffLate` | core/protocol/tokenset.go:35-68 | in every run a token string is accepted twice if and only if two passing presentations are consumed a whole retention apart |
| `TokenReplay.MacTwiceIff` | core/protocol/listener.go:535-544 | a MAC is accepted twice if and only if one of its strings is, or two of its strings are presented and pass |
| `TokenReplay.MacNeverTwiceIff` | core/protocol/listener.go:535-544 | with consumption at the check, exactly if two strings that pass decode alike |
| `TokenReplay.LateConsumptionReplays` | core/protocol/tokenset.go:35-54 | for a token of any window, one second between verifying and consuming lets it in twice |
| `TokenReplay.RetentionIsExact` | core/protocol/tokenset.go:35-68 | no replay in any run if and only if consuming never lags behind verifying |
| `TokenReplay.TokenSeenSet.ConsumeToken` | core/protocol/tokenset.go:35-54 | refines the consumption, threshold cleanup included |
| `TokenReplay.ConsumeLeaves` | core/protocol/tokenset.go:35-54 | what a consumption leaves: nothing changes on a refusal; else the token with its time and the others, without the expired ones once the shard is over the threshold |
| `TokenReplay.TokenSeenSet.SweepShards` | core/protocol/tokenset.go:56-68 | exactly the expired tokens are forgotten |
| `HelloFragments.SniSplitOffset` | core/asn_bypass/asn_bypass.go:129-172 | computes the split position, -1 for anything malformed |
| `HelloFragments.SplitInsideName` | core/asn_bypass/asn_bypass.go:129-172 | a position found is strictly inside a name whose length stands in front of it |
| `HelloNames.HelloSplitInName` | core/asn_bypass/asn_bypass.go:129-172 | in every well-formed hello the middle of the server name is found |
| `HelloNames.SplitOfNamed` | core/asn_bypass/asn_bypass.go:129-172 | for any hello put together from its fields, extensions and a server name extension with anything behind: the split is the middle of the name if the extension holds one of two bytes or more, else there is none |
| `HelloNames.SplitMeansNamed` | core/asn_bypass/asn_bypass.go:129-172 | a split is found in no other bytes |
| `HelloFragments.WriteFragmented` | core/asn_bypass/asn_bypass.go:174-236 | 1 to the budgeted number of well-framed non-empty records that add up to the payload, none but the last of the budget longer than half as much again as the base size, none but the last and the one cut at the name shorter than half of it or 8, and a cut inside the name unless the budget is used up |
| `HelloFragments.BaseSizeIs` | core/asn_bypass/asn_bypass.go:183-193 | the base size is the least that is at least 8, at least what was asked for, and enough for the budget |
| `HelloFragments.FragmentThenPeek` | core/protocol/camouflage.go:56-117 | the peek reassembles exactly the message from any fragments, consuming exactly them |
| `HelloFragments.PeekFound` | core/protocol/camouflage.go:56-117 | whatever hello is found is a whole ClientHello message the parser accepts, at the front of the payloads of whole handshake records, and the bytes kept are exactly those records |
| `HelloFragments.JudgeIs` | core/protocol/camouflage.go:88-107 | the verdict on collected bytes: too many, not a ClientHello, a whole message with or without more behind it, or the beginning of one |
| `HelloFragments.PeekStops` | core/protocol/camouflage.go:67-80 | where no whole record follows: cut off, not a handshake, or an impossible length, and what is kept |
| `HelloFragments.PeekClientHello` | core/protocol/camouflage.go:56-117 | refines the peek, with every reason to refuse |
| `HelloFragments.PeekKeepsAll` | core/protocol/camouflage.go:56-117 | from the first byte on: found or refused, whatever the listener replays to the tunnel or the decoy is all that was consumed, so with the rest it is the stream; every refusal but an unfinished handshake is replayed |
| `HelloFragments.PrefixConn.Read` | core/protocol/camouflage.go:136-143 | replays consumed bytes before the rest, none lost |
| `QuicInitial.VarintRoundTrip` | core/protocol/quic/initial.go:107-133 | every value below 2^62 survives, whatever follows it |
| `QuicInitial.VarintShortest` | core/protocol/quic/initial.go:107-118 | the encoding is the shortest of 1, 2, 4 or 8 bytes |
| `QuicInitial.ParseVarint` | core/protocol/quic/initial.go:120-133 | refines the varint parser |
| `QuicInitial.ExtractFrame` | core/protocol/quic/initial.go:392-424 | the CRYPTO frame before any padding gives its data |
| `QuicInitial.ExtractCrypto` | core/protocol/quic/initial.go:392-424 | refines the frame walk |
| `QuicInitial.Protected` | core/protocol/quic/initial.go:232-245 | header protection is undone, and leaves the sample and the type bits alone |
| `QuicInitial.HeaderParses` | core/protocol/quic/initial.go:276-329 | the header parser finds connection id, packet number offset and length |
| `QuicInitial.DecryptsTo` | core/protocol/quic/initial.go:331-364 | unprotecting and opening gives the payload |
| `QuicInitial.ProbeSize` | core/protocol/quic/initial.go:180-248 | every probe has at least 1200 bytes (section 14.1 of RFC 9000) |
| `QuicInitial.ProbeSizeIs` | core/protocol/quic/initial.go:205-220 | and no more than needed: 1200, one more where padding lengthens the length field, or what the hello takes |
| `QuicInitial.ProbeRoundTrip` | core/protocol/quic/initial.go:180-390 | parsing any probe gives its connection id and exactly the ClientHello |
| `QuicParser.VarintValue` | core/protocol/quic/initial.go:107-118 | a varint is its value as a big-endian number with the length in the two top bits |
| `QuicParser.HeaderRead` | core/protocol/quic/initial.go:276-329 | every version 1 Initial header is read, with any connection ids, token and varint lengths, exactly if the rest is as long as it says |
| `QuicParser.OnlyHeaders` | core/protocol/quic/initial.go:276-329 | and no other bytes are |
| `QuicParser.FramesRead` | core/protocol/quic/initial.go:392-424 | of any sequence of padding and CRYPTO frames the data is put together in the order the frames stand in; less than four bytes are refused |
| `QuicParser.OnlyFrames` | core/protocol/quic/initial.go:392-424 | and nothing else is accepted |
| `QuicParser.DecryptAny` | core/protocol/quic/initial.go:331-364 | a packet sealed for its header and protected with the mask of the sixteen bytes four behind the packet number is opened, for packet numbers of one to four bytes |
| `QuicParser.InitialParsed` | core/protocol/quic/initial.go:276-424 | any client's Initial packet, with other packets behind it: connection id and CRYPTO data are found |
| `RateBucket.CleaningIsInvisible` | core/apiserver/middleware.go:257-287 | dropping idle buckets changes no later decision |
| `RateBucket.DecisionsWithoutCleaning` | core/apiserver/middleware.go:257-287 | from the start, decisions are those without cleaning |
| `RateBucket.AllowedBudget` | core/apiserver/middleware.go:257-287 | allowances never exceed what is available plus the refill |
| `RateBucket.RateLimited` | core/apiserver/middleware.go:257-287 | at most 60 + 30 T requests in any span of T seconds |
| `RateBucket.AvailableIs` | core/apiserver/middleware.go:272-281 | the tokens of a key are the least, over its earlier requests and the full bucket, of what the refill since then and the allowances since then leave |
| `RateBucket.AllowedIff` | core/apiserver/middleware.go:257-287 | from a fresh server a request is allowed if and only if for each earlier request of its key the allowances since, with this one, are at most 60 and 30 per second since |
| `RateBucket.ForgottenIff` | core/apiserver/middleware.go:260-268 | a request drops another bucket exactly if it was idle for more than ten minutes and the last cleaning is more than five minutes ago |
| `RateBucket.NothingOldIsKept` | core/apiserver/middleware.go:260-268 | over every run no bucket is kept that was idle for fifteen minutes |
| `RateBucket.Limiter.Allow` | core/apiserver/middleware.go:257-287 | the whole new state and the decision |
| `RouterCache.SameKeySameScan` | core/router/router.go:90-140 | rules whose reachable part reads destination fields cannot tell packets of one cache key apart |
| `RouterCache.ConditionReads` | core/router/router.go:253-300 | which end and which field of the packet each condition reads; a missing address and an unknown field fail |
| `RouterCache.ApplyTruthful` | core/router/router.go:208-460 | every operation, evictions included, keeps the cache truthful |
| `RouterCache.CachedIsUncached` | core/router/router.go:208-243 | in every run over such rules the cached route is the scan of the current rules |
| `RouterCache.CacheRightIffSafe` | core/router/router.go:355-368 | the fields decide: for every choice of tests and destinations the cache is right after every run of routes and evictions, if and only if every reachable rule that can match reads only destination fields |
| `RouterCache.UnsafeGoesStale` | core/router/router.go:355-368 | a reachable rule that reads anything else goes wrong for some test after one routed packet |
| `RouterCache.SourceRuleGoesStale` | core/router/router.go:355-368 | one rule on the source: having routed a packet from one source, the engine routes one from another source like it, against its own rules |
| `RouterCache.Router.RoutePacket` | core/router/router.go:208-243 | refines the cached route |
| `RouterCache.Router.AddRule` | core/router/router.go:370-403 | accepted exactly for a new non-empty id with room; then sorted, complete, cache dropped |
| `RouterCache.Router.RemoveRule` | core/router/router.go:405-428 | fails exactly for an unknown id; otherwise the rules with another id are left, in order, and the cache is dropped |
| `RouterCache.WithoutIs` | core/router/router.go:413-418 | what is left is exactly the rules with another id, in their order |
| `RouterCache.RemovedRoutes` | core/router/router.go:405-428 | afterwards a packet goes where the first matching rule with another id sends it, or to the default |
| `RouterCache.Router.UpdateRules` | core/router/router.go:430-460 | all or nothing: rejected for an empty or repeated id |

## Left out

Hypotheses about foreign code, stated as predicates the theorems take:

- The Reed-Solomon library is `FecBlocks.Mds`: any ten shards of equal length determine all fourteen.
- AEAD and header protection are `QuicInitial.ValidCrypto`: opening undoes sealing, sealing adds 16 bytes, masks have 16 bytes. Key derivation is not modelled.
- Parsing CIDR and IP text is a function parameter that gives a network, a single address or neither; `SplitRules.ValidParser` asks that host bits are clear, that a single address has sixteen bytes, and that letter case does not matter. TLS parsing of a ClientHello body is a parameter too.
- Decoding a token string to its MAC, and the window a MAC was made for, are parameters of `TokenReplay.World`.

Weaker or narrower than the program:

- Framed.ShapedChunk: the learned size distribution is any draw from the listed buckets.
- Framed.LongFillerBreaks: for a length that fits the 16-bit field; what the reader makes of a length that wraps is not stated.
- Session.RunSession: what the other side came to (target reached, bytes it took, switched to raw, end marker sent) is given per stream; dialing and routing, the datagram framing inside a UDP stream, timeouts and the copy towards the client are not modelled here.
- FecReceiver.RunDelivers: says nothing about delivering a block once only; late packets reopen a delivered block. The 32-bit packet number must not wrap.
- FecReceiver.LaneEndToEnd: as long as the packet numbers, the open block's included, fit 32 bits.
- FecReceiver.Lane.IngestPacket: one call without interference between its two locked sections, `NotePacket` and `StorePacket`; `FecRace` interleaves them.
- FecReceiver.Lane.DeliverOne: one call without interference between its locked sections; `FecRace` interleaves them.
- FecSweep.SweepTakes: for calls without interference and a clock that does not go backwards.
- FecRace.DeliveredIff: for the first delivery of a block whose payloads differ, up to empty ones at the end; when a block is due is left open, so any block may be checked at any time.
- IdlePool.EveryRun: assumes of callers that a connection is put only when every earlier entry of it has been handed out (`IdlePool.Enabled`), that is, that nobody puts a connection that is still parked.
- KeyManager.Manager.EvictOldest: for a negative count, where the program's allocation fails, nothing is evicted here; one call without interference; `EvictSnapshot` is the call with anything in between the snapshot and the deletion, and between deletion and decrement the steps of `KeyLimits` interleave.
- KeyManager.Manager.Release: one call without interference; its deletion and its decrement are separate steps of `KeyLimits`.
- QuicInitial.ProbeRoundTrip: for a hello of 4 bytes to 2^61 bytes, so that every length is a varint.
- RateBucket.RateLimited: over exact real numbers, not floating point.
- RouterCache.CachedIsUncached: `Route` is one step; which entry the LRU evicts is arbitrary.
- TokenReplay.TwiceIffLate: for runs in which the clock does not go backwards.

Not modelled:

- `GeoIPSet.Contains`, the country lists and the per-host verdict cache behind the rule lookups.
- Letter case beyond ASCII in rule values and host names.
- The sorting library and `container/heap` as such: any sorted rearrangement by insertion, and an ascending list, stand for them.
- Write errors, deadlines, timers and goroutine scheduling, except where the interleavings above make them steps.
- `writeShaped`, `FramedConn.Reset`, write batching and buffer pools, except the capacity that `fec.go` relies on.
- The mutable stack of `validateChainGraph` is passed by value; what it holds during each visit is the same.
- The neural traffic policy, CLI, configuration, HTTP handlers, updater, kill switch and logging.
