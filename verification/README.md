# LEACH sensor network: a verified model

A Dafny model of the algorithms inside an ns-3 simulation of a LEACH wireless sensor network, with proofs of what they
guarantee over whole runs. `dafny verify dfyconfig.toml` checks everything.

| file | what it models |
|---|---|
| `Packets.dfy`, `PacketQueue.dfy`, `Sequences.dfy`, `Options.dfy` | packets as bytes, 56-byte records, the queue, sequence facts |
| `Reassembly.dfy`, `ReassemblyStreams.dfy` | the chained hash table that reassembles aggregated packets, and its runs |
| `Gaps.dfy` | packets of which fragments were discarded on the way |
| `OptimalTransmission.dfy`, `TransmitPolicies.dfy` | the dynamic program of `OptTM`, and the transmit policies |
| `ProposalGuarantee.dfy` | deadlines over runs of the `Proposal` policy |
| `Sink.dfy`, `Conservation.dfy` | the sink, and record conservation in a network of nodes |
| `Provenance.dfy` | where queued records come from, and why they leave |
| `Election.dfy`, `LeachNode.dfy`, `RoutingTable.dfy` | cluster-head election, joining and routes |
| `RoundTimers.dfy`, `ElectionTiming.dfy` | a node's timers, and the timers of all nodes together |
| `RadioEnergy.dfy` | radio energy accounting with re-entrant state changes |
| `Traffic.dfy`, `Deferred.dfy` | packet generation, and packets that wait for a route |

## How the system is read

- Objects whose methods update fields are classes here: packets, the queue, the hash nodes and their table, the routing
  protocol, the routing table, a node, the sink, the radio, the application and the deferred queue. Each method is proved
  against a function of the old state, and the properties over runs are proved about those same functions: a run of
  fragments uses the functions of `EnqueuePacket`'s contract, and the timed runs those of the node's timers.
- Aggregation is modelled as the `DA` build has it. A header is 40 opaque bytes, and how its deadline is read is a
  parameter. `DeAggregate` makes a fresh zero payload, so what survives a hop is the header, not the payload bytes.
- `double` is `real`. Times in the routing protocol are integer nanoseconds, and seconds are rounded down to them; times
  in `RoundTimers.dfy` are the microseconds of the timers. Timers due at one instant fire in the order they were set, and
  setting a timer while it is pending ends the program, as ns-3's `Timer` does; a run ends there.
- The rewards of `OptTM` are cut to 32 bits at every addition, as in the code. The eight-bit pending counter of the radio
  wraps, as in the code. `Round` and `step` are unbounded here.
- Random draws, clocks, route lookups, how packets are cut into fragments and what the energy source calls back are
  parameters or left open, so that every statement is for all of them.

## What the proofs show beyond the comments in the code

- The dynamic program of `OptTM` always comes down to "transmit if no later slot has a greater reward", and from the
  ninth call on (counting the calls of all nodes, which share one static counter) it transmits whatever is queued, unless
  the first reward does not fit in 32 bits; with larger rewards it need not.
- `Proposal` keeps its promise for calls up to 1/lambda seconds further apart than the bound it is written for, and not
  beyond. After a call at a cluster head without members it keeps it for 1/lambda seconds, and after a call at a head
  with members for no time at all.
- A node that joins a cluster head does not get a route to the sink. `RoutingTableEntry::Copy` has an empty body
  (`leach-routing-table.h:51-55`), so the entries that the comment "Add routing to routingTable" announces are not the
  ones installed. The model follows the code.
- The live `ChangeState` ignores a switch to OFF that is made while another change is under way, although its comment
  describes that switch as the one that should win; and `GetTotalEnergyConsumption` counts the current stay twice when
  updating the energy source changes the state.
- The hash table keeps 32 bits of a uid, and ns-3's uids have 64. Packets with larger uids are never put together, and
  what they leave behind mixes with a packet that has the same bucket and the same 32 bits.
- Advertisements precede joins in the first fifty rounds if a round lasts 101 ms, and in the first round only if it lasts
  49 ms but not 101: a node that has not yet joined can be head of its next round by then. In shorter rounds no node
  ever joins.
- An application that is stopped after its packet's airtime, while it waits for its interval, counts more bits than the
  packet has; when it is started again, the difference wraps and the packet waits for some four billion bits.
- If a node's route is lost and comes back between two fragments of a packet, what it queues of the packet can be no
  record at all. It is harmless exactly if each 56 bytes that arrive start with 40 that were one header.

## Model

| member | source | states |
|---|---|---|
| Packets.SplitResumes | leach-routing-protocol.cc:860-871 | taking records off a byte string can stop anywhere and resume from the left-over bytes |
| Packets.SerializeSplits | leach-routing-protocol.cc:860-871 | taking the records off an aggregated packet gives exactly the headers it was built from, in order, and leaves nothing |
| PacketQueues.PacketQueue.Enqueue | leach-routing-queue.cc:24-38 | the entry goes to the end |
| PacketQueues.PacketQueue.Drop | leach-routing-queue.cc:40-44 | exactly the entry at the index leaves |
| PacketQueues.PacketQueue.Dequeue | leach-routing-queue.cc:46-60 | takes the oldest entry for the destination and none if there is none; the other destinations' entries keep their order |
| PacketQueues.PacketQueue.Find | leach-routing-queue.cc:62-74 | true exactly if some entry is for the destination |
| PacketQueues.PacketQueue.GetCountForPacketsWithDst | leach-routing-queue.cc:76-88 | the number of entries for the destination |
| PacketQueues.MergedRecords | leach-routing-protocol.cc:966-968 | merging queued records gives a packet of whole records that carries exactly their headers, in order |
| PacketQueues.MergedIsAll | leach-routing-protocol.cc:966-968 | merging keeps every byte of every queued packet, in order |
| Reassembly.Reassembler.constructor | leach-routing-protocol.cc:150-151 | the empty table is valid and holds nothing for any slot |
| Reassembly.EntriesForAt | leach-routing-protocol.cc:841-854 | there is one entry for each whole record, in order: its header and sixteen zeros, for the given destination, due when its own header says |
| Reassembly.Reassembler.Find | leach-routing-protocol.cc:827-832 | the chain walk ends, and finds a node exactly for the uids that fit 32 bits and whose bucket and key are in use, and then the newest node with that key |
| Reassembly.Reassembler.ChainsEnd | leach-routing-protocol.cc:872-885 | in every valid table the links of a chain lead to older nodes and end, and no node occurs twice; the work is in every method keeping the table valid |
| Reassembly.Reassembler.KeysAreUidsIff | leach-routing-protocol.cc:872-885 | in every valid table the keys of a chain are distinct and each stored packet's uid is its node's key if and only if no uid of 2^32 or more has ever arrived; the methods keep count of those |
| Reassembly.Reassembler.Insert | leach-routing-protocol.cc:879-885 | a new node in front of a chain, with the uid cut to 32 bits, takes over its slot and leaves every other slot and node as it is |
| Reassembly.Reassembler.DeAggregate | leach-routing-protocol.cc:857-890 | takes one record off a packet that has one; otherwise the rest becomes what the table holds for its slot, and the table is valid |
| Reassembly.Reassembler.QueueRecords | leach-routing-protocol.cc:841-854 | queues one entry for every whole record, in order, and stores the rest |
| Reassembly.Reassembler.EnqueuePacket | leach-routing-protocol.cc:810-855 | for every uid, a fragment and the bytes held for its uid give entries for all their whole records; the rest is held in its slot, and all other slots are untouched |
| ReassemblyStreams.StreamsAreIndependent | leach-routing-protocol.cc:810-890 | at any moment of any interleaving, each uid below 2^32 that shares its bucket and key with no other uid has queued exactly the whole records of its own bytes and holds the rest |
| ReassemblyStreams.ReassemblyRoundTrip | leach-routing-protocol.cc:810-890 | packets with uids below 2^32, cut into fragments at any points and interleaved in any way, are reassembled to exactly their headers, in order, with nothing left |
| ReassemblyStreams.ReassembledIff | leach-routing-protocol.cc:827-837 | a packet is reassembled in every run with given other uids if and only if its uid is below 2^32 and none of them has its bucket and key |
| ReassemblyStreams.ReassembledBelowIff | leach-routing-protocol.h:180-185 | with all uids below a bound, every packet is reassembled in every run if and only if the bound is at most 2^32 |
| TransmitPolicies.RoutingProtocol.DropExpired | leach-routing-protocol.cc:934-946 | the index-stepping loop leaves exactly the unexpired entries and counts the others |
| TransmitPolicies.DropIsStable | leach-routing-protocol.cc:1050-1058 | unexpired entries keep their order and expired ones theirs, each moving up by those of its own kind before it, and none is lost |
| TransmitPolicies.RoutingProtocol.MergeSinkBound | leach-routing-protocol.cc:964-968 | the drain loop ends and appends exactly the sink-bound packets, oldest first, leaving the other entries |
| TransmitPolicies.MergeIsStable | leach-routing-protocol.cc:1034-1037 | sink-bound entries leave in the order they came, and the others keep theirs |
| TransmitPolicies.MergeKeepsWholeRecords | leach-routing-protocol.cc:430-430 | a packet whose size is a multiple of 56 keeps such a size when records are merged into it |
| TransmitPolicies.RoutingProtocol.CountDue | leach-routing-protocol.cc:948-953 | counts the entries due before the bound |
| TransmitPolicies.RoutingProtocol.Proposal | leach-routing-protocol.cc:914-973 | decision, queue, drop counter and packet after a call, for heads and members |
| TransmitPolicies.ProposalSendsIff | leach-routing-protocol.cc:914-973 | it sends if and only if it is past 48.5 s, or at least one entry, at a head one more than it has members, is due within queue size/lambda seconds, away from heads 0.064 + 1/lambda more; and what leaves, is dropped and stays |
| TransmitPolicies.RoutingProtocol.ControlLimit | leach-routing-protocol.cc:1046-1070 | decision, queue, drop counter and packet after a call, for every threshold |
| TransmitPolicies.ControlLimitSendsIff | leach-routing-protocol.cc:1046-1070 | it sends if and only if it is past 48.5 s or the unexpired entries reach the threshold; and what leaves, is dropped and stays |
| TransmitPolicies.RoutingProtocol.RewardAt | leach-routing-protocol.cc:985-994 | the reward of a slot, added up in 32 bits, is the sum of slack and bonus modulo 2^32 |
| TransmitPolicies.RoutingProtocol.FillRewards | leach-routing-protocol.cc:983-996 | the table of the hundred rewards |
| TransmitPolicies.RoutingProtocol.BestAfter | leach-routing-protocol.cc:1013-1021 | the backward loop computes the value of waiting, slot by slot |
| TransmitPolicies.RoutingProtocol.FillActions | leach-routing-protocol.cc:998-1028 | the table of the hundred actions |
| TransmitPolicies.RoutingProtocol.OptTM | leach-routing-protocol.cc:975-1043 | decision, queue and packet after a call, and the shared counter one higher |
| TransmitPolicies.OptTMSendsIff | leach-routing-protocol.cc:975-1043 | it sends if and only if it is past 48.5 s or none of the hundred slots 1/lambda seconds apart has a greater reward than the present one, with the reward in closed form; and what leaves and stays |
| TransmitPolicies.RoutingProtocol.DataAggregation | leach-routing-protocol.cc:892-912 | the selected policy decides; with none selected every packet is sent as it is |
| TransmitPolicies.RoutingProtocol.RouteOutput | leach-routing-protocol.cc:410-458 | without an interface an error and no change; a packet of whole records gets its route exactly if the policy sends it and there is one; otherwise it takes the loopback route, and so it comes back with what was merged into it |
| OptimalTransmission.RewardClosedForm | leach-routing-protocol.cc:983-996 | every reward is the sum of max(0, deadline - slot time) in ms plus 30000m - 2000m(m+1) with m = min(7, max(0, i+step-1)), modulo 2^32 |
| OptimalTransmission.ValuesBounded | leach-routing-protocol.cc:1017-1021 | waiting is worth less than any bound on the rewards that is at least one |
| OptimalTransmission.ActionCollapses | leach-routing-protocol.cc:998-1028 | for every reward table a slot transmits exactly if its reward is the greatest of all; slot 98 also needs it to be positive, and slot 99 never does |
| OptimalTransmission.TransmitsNowIffGreatest | leach-routing-protocol.cc:1031-1031 | OptTM transmits now exactly if no slot has a greater reward than slot 0 |
| OptimalTransmission.NinthCallTransmitsIff | leach-routing-protocol.cc:981-1031 | with the first reward below a bound, OptTM transmits from the ninth call on whatever is queued, if and only if the bound is at most 2^32 |
| TransmitPolicies.NinthCallSends | leach-routing-protocol.cc:975-1043 | so from the ninth call on OptTM sends and merges all the sink-bound entries, as long as the first reward fits in 32 bits |
| OptimalTransmission.EmptyQueueTransmitsIff | leach-routing-protocol.cc:981-1031 | with nothing queued OptTM transmits exactly from the ninth call on |
| ProposalGuarantee.RunsAreSafe | leach-routing-protocol.cc:914-973 | over any run of calls as head or not, each close enough to the one before it, no sink-bound entry that survived a call is dropped later, and what is left is not due before the longest gap has passed |
| ProposalGuarantee.ProposalNeverDropsLate | leach-routing-protocol.cc:926-970 | over all runs with any destinations and any mix of head and member calls, late drops never happen if and only if the next call waits at most Seconds(1/lambda) + Seconds(0.064 + 1/lambda) after a call away from heads, Seconds(1/lambda) after one at a head without members, and not at all after one at a head with members |
| ProposalGuarantee.HeadMayDropLate | leach-routing-protocol.cc:954-962 | a head with any number of members keeps an entry that is due now and drops it at any later call |
| Sinks.Sink.Unpack | main.cc:196-211 | every whole record of a packet is counted once, as decompressed exactly if its deadline is still ahead, and the rest is ignored |
| Sinks.Sink.ReceivePacket | main.cc:184-218 | the loop over the socket empties it, and counts every packet, byte and whole record in it once |
| Sinks.BytesInAll | main.cc:197-197 | the bytes counted are all the bytes of the packets |
| Sinks.InTimeCounts | main.cc:208-209 | a record counts as decompressed exactly if its deadline is still ahead |
| Sinks.SinkSeesAll | main.cc:191-209 | out of packets of whole records come exactly the headers of all their records, in order |
| Conservation.OutcomeConserves | leach-routing-protocol.cc:914-1070 | every policy keeps, drops or sends each queued record exactly once |
| Conservation.SendRecord | leach-routing-protocol.cc:410-458 | what the network model says of a packet that sets out is what RouteOutput does with it: its bytes, its way, and what stays behind |
| Conservation.OriginateKeeps | leach-routing-protocol.cc:429-458 | handing over a record, with or without a route, keeps the balance and the uids apart |
| Conservation.ForwardKeeps | leach-routing-protocol.cc:810-855 | a fragment that arrives moves whole records from transit to the queue, and keeps the balance |
| Conservation.DiscardKeeps | leach-routing-protocol.cc:373-405 | a node without a route at that moment discards one fragment; the packet's headers leave transit, and the balance is kept |
| Conservation.DeliverKeeps | main.cc:193-213 | delivery moves a packet's records from transit to the sink's counters |
| Conservation.RecordsConserved | leach-routing-protocol.cc:429-458 | in every world of every run each header taken in, or queued out of a broken packet, is queued, dropped as late, in transit, was in a packet when a fragment of it was discarded, or is delivered, as often as it came in; m_dropped counts the late ones and the sink's counters the delivered ones |
| Conservation.NothingBroken | leach-routing-protocol.cc:373-390 | if no fragment is discarded, no packet is broken and nothing is queued out of one, so that only the headers taken in are counted |
| Conservation.NothingStuck | leach-routing-protocol.cc:857-890 | once no fragment is on its way, nothing is held in any reassembly table but for broken packets |
| Provenance.LeavesForItsOwnReason | leach-routing-protocol.cc:810-1070 | over every run and policy a record is dropped only after the deadline in its own header, and sent on to the sink only if a packet addressed to the sink brought it |
| Gaps.GapsKeepOrder | leach-routing-protocol.cc:810-890 | of a packet that arrives with gaps, among any others, headers of its records are queued in their order and each at most once, if each record's worth of arriving bytes starts with a header in one piece |
| Gaps.GapsHarmlessIff | leach-routing-protocol.cc:810-890 | whatever the records are, only their headers are queued if and only if that is so |
| Election.EqualShare | leach-routing-protocol.cc:596-598 | for every cycle length, being passed over in the first k rounds and elected in round k has chance 1/n |
| Election.HeadRoundIsFirstBelow | leach-routing-protocol.cc:598-630 | a node's head round in a cycle is the first whose draw is below its threshold |
| Election.OncePerCycle | leach-routing-protocol.cc:609-624 | in every aligned cycle of ten rounds a node is head exactly once, whatever is drawn |
| Election.ElectionIsFair | leach-routing-protocol.cc:591-632 | after k rounds a node has been head between floor(k/10) and ceil(k/10) times |
| Election.HeadAgainWithinNineteen | leach-routing-protocol.cc:591-632 | head rounds of a node are at most nineteen apart |
| Election.ValidIsSetBeforeRead | leach-routing-protocol.cc:609-617 | the first content of valid, which the constructor leaves unset, never matters |
| LeachNodes.LeachNode.constructor | leach-routing-protocol.cc:182-204 | the state after Start, with the loopback and broadcast routes installed and the first round scheduled unless the node is the sink; what the source leaves unset is left open |
| LeachNodes.LeachNode.PeriodicUpdate | leach-routing-protocol.cc:591-632 | the whole state at the start of a round, and which timers are set to when |
| LeachNodes.LeachNode.RecvLeach | leach-routing-protocol.cc:484-536 | the state after an advertisement or a join; the sink ignores both |
| LeachNodes.LeachNode.SendBroadcast | leach-routing-protocol.cc:569-589 | the advertisement sent, and the head's own route to the sink |
| LeachNodes.LeachNode.RespondToClusterHead | leach-routing-protocol.cc:538-567 | a join goes to the target exactly if there is one; the table is changed as the empty copies leave it |
| LeachNodes.RespondAdds | leach-routing-protocol.cc:538-567 | joining changes nothing but the table, and there adds the default entry exactly if a head was chosen |
| LeachNodes.NearestHead | leach-routing-protocol.cc:507-535 | after any messages of a round, at a head as elsewhere, distance, target and best route are those of the first advertisement at the least dx*dx + dy*dy below 1e100, else the sink for a head and none for others; the members are the joins in order, and only the routes to the sink and the old target are gone |
| LeachNodes.SinkRouteIffSent | leach-routing-protocol.cc:538-589 | over any timed run with rounds of any length a node has a route to the sink exactly if it has broadcast since its last round began, and it is the direct one from its own address; the table gains no other entry than one for the default address |
| LeachNodes.OnlyHeadsReachSinkIff | leach-routing-protocol.cc:549-560 | that only heads have a route to the sink holds in every run if and only if a round lasts at least 50 ms, or less than 4 ms |
| RoutingTables.RoutingTable.LookupRoute | leach-routing-table.cc:43-58 | the route for the destination, if any |
| RoutingTables.RoutingTable.DeleteRoute | leach-routing-table.cc:82-90 | removes the route for the destination and says whether there was one |
| RoutingTables.RoutingTable.AddRoute | leach-routing-table.cc:98-104 | adds a route unless its destination has one |
| RoutingTables.RoutingTable.Update | leach-routing-table.cc:106-116 | overwrites a route only if its destination has one |
| RoutingTables.RoutingTable.DeleteAllRouteFromInterface | leach-routing-table.cc:118-138 | erasing while walking removes exactly the routes of the interface |
| ElectionTiming.RunsAreInOrder | leach-routing-protocol.cc:625-631 | over any run round r starts at every node within 1000(r+1) - 10 microseconds, each head advertises in its own round if rounds last 50 ms, each join is in its own round if they last 101 ms, and under 49 ms no node starts a third round |
| ElectionTiming.AdvertsPrecedeIff | leach-routing-protocol.cc:591-632 | whenever a respond timer fires in one of the first so many rounds, every node has started that round and every head of it has advertised, for any number of nodes and any draws, if and only if it is one round, or at most fifty of at least 101 ms, or rounds are shorter than 49 ms |
| ElectionTiming.FiftyIsSharp | leach-routing-protocol.cc:591-632 | two nodes, each elected once in every ten rounds, can draw delays such that in the fifty-first round one joins before the other has advertised, however long a round is |
| ElectionTiming.ShortRounds | leach-routing-protocol.cc:591-632 | in rounds of 49 to 101 ms a node can join as a head of its second round, before it has advertised |
| RadioEnergy.WifiRadioEnergyModel.ChargeElapsed | src/wifi/model/wifi-radio-energy-model.cc:384-423 | the time since the last update, and its energy, go to the current state |
| RadioEnergy.CostPerState | src/wifi/model/wifi-radio-energy-model.cc:389-419 | each state is charged its own current, and being off nothing |
| RadioEnergy.WifiRadioEnergyModel.ChangeState | src/wifi/model/wifi-radio-energy-model.cc:378-448 | the state after a change with any tree of nested changes |
| RadioEnergy.WifiRadioEnergyModel.SetIfOutermost | src/wifi/model/wifi-radio-energy-model.cc:437-447 | only an outermost call sets the state, and never from OFF |
| RadioEnergy.WifiRadioEnergyModel.GetTotalEnergyConsumption | src/wifi/model/wifi-radio-energy-model.cc:139-155 | what is returned, and what updating the source does meanwhile |
| RadioEnergy.ChangeIsPlain | src/wifi/model/wifi-radio-energy-model.cc:425-447 | nested changes of up to 254 levels leave a change of state what it is without them |
| RadioEnergy.ReentrancySafeIff | src/wifi/model/wifi-radio-energy-model.cc:425-447 | that holds for a number of levels if and only if the eight-bit counter does not run over |
| RadioEnergy.NestedOffIsLost | src/wifi/model/wifi-radio-energy-model.cc:430-445 | a switch to OFF from inside another change is lost |
| RadioEnergy.ConsumptionExactIff | src/wifi/model/wifi-radio-energy-model.cc:144-154 | the consumption returned is what a change at that instant would store if and only if updating the source changes no state or nothing was used |
| RadioEnergy.TotalsFollowStays | src/wifi/model/wifi-radio-energy-model.cc:384-423 | over every run, with calls nested to any depth and currents that change, the total is the energy of the stays between changes, and the three times are the times spent in those states |
| RadioEnergy.StateFollowsEvents | src/wifi/model/wifi-radio-energy-model.cc:425-447 | the radio is always in the state last asked for from outside, or OFF once that was asked for, for nesting of up to 254 levels |
| RadioEnergy.TotalIsTraceIntegral | src/wifi/model/wifi-radio-energy-model.cc:384-423 | with fixed currents and voltage the total is the sum, written out state by state, of time there times the current of that state times voltage |
| RadioEnergy.TimesAddUp | src/wifi/model/wifi-radio-energy-model.cc:384-423 | the radio's idle, TX and RX times and the time in the other states add up to the time of the last update |
| Traffic.QuantileExists | wsn-application.cc:230-234 | for every draw below one the search has an end |
| Traffic.Term | wsn-application.cc:236-237 | dividing the power step by step gives the term with the factorial |
| Traffic.PoissonSearch | wsn-application.cc:229-240 | the nested loops end, and k is the least value whose Poisson distribution function reaches the draw |
| Traffic.IsPoisson | wsn-application.cc:229-240 | the chances are Poisson's: exp(-rate) for none, and each rate/n times the one before |
| Traffic.WsnApplication.ScheduleNextTx | wsn-application.cc:208-261 | when the next packet leaves or the search is repeated, for every pattern, and that nothing is scheduled at the byte limit |
| Traffic.WsnApplication.CancelEvents | wsn-application.cc:182-196 | a pending packet is called off, and unless the rate has changed the bits of the time since the last start are added to the residual bits in 32 bits |
| Traffic.ResumesIff | wsn-application.cc:182-216 | a packet called off and resumed takes the rest of its airtime to within one bit if and only if the bits counted do not exceed the packet |
| Traffic.WsnApplication.Spacing | wsn-application.cc:208-261 | when the packet after one leaves, for every pattern: its airtime, and the interval drawn; a draw of none is repeated a second later |
| Traffic.WsnApplication.SendPacket | wsn-application.cc:263-302 | one packet is counted with its bytes, and another is scheduled exactly if the limit is not reached |
| Traffic.WsnApplication.SilentExactlyAtLimit | wsn-application.cc:212-260 | the application stops exactly when the packets sent are the byte limit divided by the packet size, rounded up |
| Deferred.DeferredQueue.EnqueueForNoDA | leach-routing-protocol.cc:461-471 | the packet waits, and a flush is scheduled 100 ms later |
| Deferred.DeferredQueue.AutoDequeueNoDA | leach-routing-protocol.cc:473-482 | everything that waits is forwarded, oldest first |
| Deferred.ForwardedOnceInOrder | leach-routing-protocol.cc:461-482 | over every run packets are forwarded once and in order of arrival, none waits more than 100 ms, one that waits has a flush scheduled within its time, and none waits after a flush |

## Left out

- RadioEnergy.TotalIsTraceIntegral: is for fixed currents and voltage, as a sum over states has to be; `TotalsFollowStays` is for currents that change.
- ElectionTiming.AdvertsPrecedeIff: is about sending, not about how long a broadcast travels.
- Election.EqualShare: multiplies the chances of the single draws; that the draws are uniform and independent is part of the statement's reading, not of the model.
- Conservation.RecordsConserved: is for as many packets as there are 32-bit uids. A node without an interface, and local delivery at a node other than the sink, are not part of this model.
- Sinks.Sink.ReceivePacket: supposes that no packet waits twice at a socket.
- The byte layout of a header, whose serialization and deserialization order their fields differently.
- The threshold constant of ControlLimit, which is a parameter.
- Traffic.WsnApplication.ScheduleNextTx: is for calls with no packet scheduled, as in every run in which the application is not started again while a search is still to be repeated.
- The closing of sockets when the application stops.
- The printed statistics of the sink.
- Recorded timelines and transmission times.
- The limit of five packets per destination that a comment on the queue describes; nothing enforces it.
- The switch-off event that is scheduled from the remaining energy, the energy source itself, how the TX current is computed and the PHY listener, which only calls ChangeState.
- Input routing of ordinary packets, sockets, interfaces that go down, mobility, tracing and logging.
- Wrap-around of the round, step and packet counters.
