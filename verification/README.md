# Verified models of ns-2 protocol cores

This project models the stateful algorithms of the ns-2.35 simulator tree that carry real
correctness arguments, and proves them: two on-demand routing protocols (AODV and its
multipath variant AOMDV) as networks of agents, the progressive-filling rate computation and
the RED operating point of the analytical simulator `asim`, multi-hop reservation signalling,
the token bucket filter, the reassembly queue and sender bookkeeping of BayFullTcp, the AODV
send buffer, and the IVS loss meter.

`dafny verify dfyconfig.toml` checks everything.

## How it is laid out

Each component has a model on values (functions that say what one handler or operation does,
and the runs built from them), the lemmas about all runs of that model, and one or more
classes whose methods follow the source statement by statement and are proved to compute the
functions of the model.

| files | what they cover |
|---|---|
| `AodvModel`, `AodvLoopFreedom`, `AodvHopBound`, `AodvLocalRepair`, `AodvRoutes`, `AodvAgent` | AODV: step functions and network, loop freedom and sequence discipline, hop counts, the effect of local repair, what each event does to the routes and what it makes a node send, the agent object |
| `AomdvModel`, `AomdvLoopFreedom`, `AomdvHopBound`, `AomdvDisjointness`, `AomdvRoutes`, `AomdvTable`, `AomdvAgent` | AOMDV in its shipped, node-disjoint configuration: the same, with path lists, and the disjointness of the relays behind them |
| `AsimModel`, `AsimFilling`, `AsimSim` | weighted max-min fairness, the filling loop, the arrays it works on |
| `RedRouter` | the drop probability and queue length of a RED link |
| `Reservation`, `SaLink` | reservation signalling of many flows over many links, the link object |
| `TbfModel`, `TbfFilter` | the token bucket filter and its rate bound |
| `ReassemblyModel`, `ReassemblyQueue` | the reassembly queue on values, and as a doubly linked list |
| `BaySender`, `BayAgent` | the sender's sequence numbers |
| `SendBufferModel`, `SendBuffer` | the buffer for packets without a route, as a sequence and as a linked list |
| `IvsModel`, `IvsReceiver` | the loss meter and its linked list of holes |
| `Basics`, `Progress` | options, maxima, products and positions in sequences; a loop over the keys of a map |

### The routing networks

A network state is the node at each address and the set of all packets ever sent. Any packet
in that set can be delivered to any node, at any later moment, any number of times or never,
so loss, duplication, reordering and mobility are all covered. Timers, the clock, link-layer
failures and application packets are events. A run is any finite sequence of events, from the
state in which every node is new.

For AODV the shipped header switches on local repair (`aodv/aodv.h:49`). Its timer takes a
route down without raising the sequence number (`aodv/aodv.cc:201-205`), and that does create
routing loops: `LoopFreeExactlyWithoutLocalRepair` proves that all runs are loop free if and
only if local repair is off, with a concrete run of three nodes for the other half. The main
theorem is a little stronger than that: runs with local repair stay loop free as long as no
repair is abandoned.

Safety alone would also hold of nodes that do nothing. `AodvRoutes` and `AomdvRoutes` say, for every
event, which entries change and how, and which packets go out, in terms of the fields of entries
and packets: what a request, a reply, an error, a lost neighbour and an expiry teach or cost, who
answers, who passes on and who stays silent. `DiscoveryRun` is an ordinary discovery in each.

For AOMDV, distinct next and last hops (`PathSets`) are what a node checks; that the nodes between
differ too is a property of the whole network. `EveryPathHasTrail` follows each stored path back to
its destination along the messages that made it, and `PathsAreNodeDisjoint` shows that two paths
that came by requests of one flood share no relay, as long as no node forgets the flood
(`BCAST_ID_SAVE` seconds, `aomdv/aomdv.h:143`). Replies about the originator are outside that
theorem: a node may send several of them, with different last hops.

### asim

Arithmetic is over exact reals. The code multiplies capacities by 1.05 and leaves links on
which the short flows alone exceed that. The results say exactly what happens then
(`Filled`), that the outcome is feasible if and only if no link with bulk traffic is in that
state, and that it is then the unique weighted max-min fair allocation.

### Token bucket filter

The rate bound holds for packets that fit into the bucket. `RateBoundExactlyWhenPacketsFit`
proves that it holds exactly then (or without a queue, when larger packets are dropped): one
oversized packet is sent whole when its timer fires, although the bucket cannot hold that
much.

### Reservation signalling

`SA_Agent::stop` sends a teardown each time it is called, whatever became of the flow
(`adc/sa.cc:136-143`), and each link takes the rate off what is reserved. In the model a flow may be
stopped in any phase and any number of times, and its teardowns travel independently. What a link
has reserved is the sum of what its pending and accepted flows asked for, in exactly the runs in
which every teardown that passes a link finds its flow accepted, confirmed there and not torn down
there before (`ConservedExactly`; flows without a rate do no harm). The scripts shipped with it
schedule one stop, for accepted flows only (`tcl/ex/test-suite-intserv.tcl:167`). There is a run for
each of the other cases: a rejected flow that is stopped (`StoppedRejectOvercommits`), a flow stopped
before its answer is back (`StoppedEarlyBreaks`), and one stopped twice (`StoppedTwiceBreaks`).

### BayFullTcp

`add` is correct exactly for segments that repeat a queued one or overlap none
(`AddIsRightExactlyWhenFitting`). `recv` trims a partly old segment at its front, but `add`
queues it with its untrimmed length. So it goes wrong for every such segment while something
waits: either the next byte jumps past data that never arrived, or it stays at one that has
(`ReceiveFindsGapExactly`). `ReassemblyExactly` says for which sequences of segments the
receiver is right at every moment.

On the sending side, `listen` may be called at any time (`baytcp/tcp-full-bay.cc:1213-1217`), and
the SYN that follows sets `t_seqno_` back to the initial number. So what is acknowledged can lie
beyond what comes next: in exactly the runs in which a connection is accepted while something
beyond the initial number stands acknowledged (`SenderOrderedExactly`; `ReopenedRun` is one).

Also, `maxseq_` is documented as the largest sequence number sent
(`baytcp/tcp-full-bay.cc:356-359`), but a fast retransmission can raise it beyond that. The
condition is on the state before the call (`FastRetransmitOverstates`, `MaxSeqWasSentExactly`),
and `FastRetransmitRun` is an ordinary run that meets it.

## Model

| member | source | states |
|---|---|---|
| AodvLoopFreedom.LoopFreedom | aodv/aodv.cc:347-430 | in every run of any number of nodes in which no local repair is abandoned, following the next hops of usable routes to any destination never closes a cycle |
| AodvLoopFreedom.SequenceDiscipline | aodv/aodv.cc:354-369 | one more step of any such run: usable routes have even numbers, routes that are down odd ones or 0; numbers never fall, hop counts never grow under one number, and a route goes down only under a higher number |
| AodvLoopFreedom.StepKeepsInv | aodv/aodv.cc:618-650 | every event keeps the global invariant: behind each usable route and each advertisement in flight stands its sender, at least as fresh and one hop nearer |
| AodvLoopFreedom.RunKeepsInv | aodv/aodv.cc:138-156 | the invariant holds after every run from newly created nodes |
| AodvLoopFreedom.LegalKeepsInv | aodv/aodv.cc:402-430 | any change that only keeps, properly improves, or discounts entries, and advertises no more than the table says, keeps the global invariant |
| AodvLoopFreedom.EntriesImprove | aodv/aodv.cc:697-736 | no entry of any node ever becomes worse in the order of numbers and hop counts |
| AodvLoopFreedom.BackedStays | aodv/aodv.cc:846-934 | a sender stands behind what it once advertised for ever after |
| AodvLoopFreedom.RequestIsLegal | aodv/aodv.cc:654-820 | receiving a request only adopts a strictly better reverse route that the request advertised, and answers or forwards no more than the table holds |
| AodvLoopFreedom.ReverseRouteIsLegal | aodv/aodv.cc:697-736 | the entry for the originator is kept or replaced by the advertised route, and is then at least as good as the request |
| AodvLoopFreedom.AnswerIsLegal | aodv/aodv.cc:752-818 | the reply of a destination, of an intermediate node with a fresh route, and the forwarded request each advertise only what stands in the table |
| AodvLoopFreedom.AnswerKeepsRoutes | aodv/aodv.cc:752-818 | answering changes precursor lists but no route |
| AodvLoopFreedom.ReplyIsLegal | aodv/aodv.cc:824-934 | receiving a reply only adopts a strictly better forward route, and relays it one hop longer |
| AodvLoopFreedom.ErrorIsLegal | aodv/aodv.cc:939-993 | an error takes routes down only under a number above the one they had, and passes on only discounted numbers |
| AodvLoopFreedom.LinkFailureIsLegal | aodv/aodv.cc:348-383 | a lost neighbour takes down exactly under raised numbers |
| AodvLoopFreedom.PurgeIsLegal | aodv/aodv.cc:504-550 | expiry takes routes down under raised numbers |
| AodvLoopFreedom.SendRequestIsLegal | aodv/aodv.cc:1063-1183 | a new request carries an even, higher number of its own and leaves all routes alone |
| AodvLoopFreedom.ResolveIsLegal | aodv/aodv.cc:437-501 | a data packet without a route only triggers a request or a discounted error |
| AodvLoopFreedom.LinkLayerFailedIsLegal | aodv/aodv.cc:295-345 | a link-layer failure either starts a repair or loses the neighbour, both legally |
| AodvLoopFreedom.ReactIsLegal | aodv/aodv.cc:557-650 | every event except an abandoned repair changes a disciplined node legally |
| AodvLoopFreedom.ForwardingClimbs | aodv/aodv.cc:1001-1060 | each forwarding hop leads to a node with a strictly better entry, unless it is the destination |
| AodvLoopFreedom.WalkClimbs | aodv/aodv.cc:1001-1060 | so does every forwarding walk that avoids the destination |
| AodvLoopFreedom.InvForbidsLoops | aodv/aodv.cc:1001-1060 | a state that satisfies the invariant has no forwarding cycle for any destination |
| AodvLoopFreedom.RepairOffNeverAbandons | aodv/aodv.h:49 | runs of a build without local repair are covered by the theorem |
| AodvLocalRepair.LoopFreeExactlyWithoutLocalRepair | aodv/aodv.cc:187-210 | all runs of the build are loop free if and only if local repair is switched off |
| AodvLocalRepair.AbandonedRepairLoops | aodv/aodv.cc:187-210 | a run with one abandoned repair that ends with two nodes forwarding to each other |
| AodvLocalRepair.DiscoveryRun | aodv/aodv.cc:654-934 | an ordinary discovery over three nodes establishes the expected routes |
| AodvRoutes.OneRequestPerNode | aodv/aodv.cc:673-688 | in every run in which nobody forgets the flood, no node sends two different requests of it |
| AodvRoutes.SecondCopyChangesNothing | aodv/aodv.cc:663-682 | delivering a request to its originator, or to a node that has seen its flood, leaves the whole network as it is |
| AodvRoutes.RunKeepsOneEach | aodv/aodv.cc:221-256 | in every run, who sent a request of a remembered flood remembers it or has used up its number |
| AodvRoutes.LostNeighbour | aodv/aodv.cc:348-383 | a lost neighbour costs exactly the routes over it, each down under the next number with its old hop count on record, and is no precursor of anything; an error goes out if and only if some route was lost, naming exactly those and their new numbers |
| AodvRoutes.ErrorHeard | aodv/aodv.cc:939-993 | an error takes down exactly the routes over its sender that it names under no lower number, under the number it gives, and is passed on for exactly those with precursors |
| AodvRoutes.RoutesExpire | aodv/aodv.cc:504-550 | expiry takes down exactly the usable routes that expired, each under the next number, and sends nothing |
| AodvRoutes.RepairFails | aodv/aodv.cc:187-210 | a repair that fails leaves its route down under the number it had |
| AodvRoutes.RequestTeaches | aodv/aodv.cc:684-736 | the first copy of a request is remembered, and gives the route over its sender if and only if that improves the entry for the originator; no other route changes |
| AodvRoutes.RequestAnswered | aodv/aodv.cc:752-818 | the destination answers a first copy under a new even number above its own and the one asked for; a node that knows a way as fresh as asked for answers with it and records both neighbours on it as precursors; any other passes the request on, one hop further, unless its time to live is over |
| AodvRoutes.ReplyTeaches | aodv/aodv.cc:846-890 | a reply gives the route over its sender if and only if that improves the entry; nothing else changes but precursors |
| AodvRoutes.ReplyRelayed | aodv/aodv.cc:895-934 | a reply that taught something goes on to the next hop towards who asked, one hop longer, where there is a way back; no other reply goes on |
| AodvRoutes.SearchGoesOn | aodv/aodv.cc:1063-1183 | a search sends one request under new numbers, in the next ring or through the whole network, and stays silent while a route is up, an answer may still come, or after too many requests |
| AodvRoutes.SearchPauses | aodv/aodv.cc:1090-1150 | a search that nobody answers pauses, after a number of requests that the entry determines |
| AodvRoutes.DataResolved | aodv/aodv.cc:437-501 | a data packet is left to a route that is up; without one its source searches, and any other node reports the destination unless it is repairing the route |
| AodvRoutes.LinkLayerGivesUp | aodv/aodv.cc:295-345 | a packet that came further than it has to go starts a repair, any other costs the neighbour |
| AodvRoutes.HelloHeard | aodv/aodv.cc:1308-1335 | a hello makes its sender a neighbour, under a new own number if it is a new one |
| AodvHopBound.HopCountBound | aodv/aodv.cc:697-736 | in every run no route in use is longer than the network diameter plus the number of nodes, and no packet claims more than one hop beyond that |
| AodvHopBound.SmallNetworksNeverOverflow | aodv/aodv_rtable.h:41 | up to 223 nodes no hop count reaches the 8-bit value that means no route |
| AodvHopBound.AdoptionPays | aodv/aodv.cc:402-412 | each node that adopts a longer claim is new among those that reach it, which is what bounds counting upwards |
| AodvHopBound.RunKeepsHopInv | aodv/aodv.cc:402-430 | the counting invariant holds in every run, and no node appears or disappears |
| AodvAgent.AgentsAreAlwaysCalm | aodv/aodv.cc:354-369 | in every run without local repair, in networks of any size, every node and packet satisfies what the assertions on flags and sequence numbers need |
| AodvAgent.AgentsAreAlwaysReady | aodv/aodv.cc:508-545 | with at most 223 nodes, also what the assertions on hop counts need |
| AodvAgent.NothingUnderRepair | aodv/aodv.cc:386-400 | without local repair no entry is ever under repair |
| AodvAgent.Agent.constructor | aodv/aodv.cc:138-156 | a new agent is a new node |
| AodvAgent.Agent.SendRequest | aodv/aodv.cc:1063-1183 | computes the expanding ring search step; the assertions of the source hold |
| AodvAgent.RepliesTakeReverseRoute | aodv/aodv.cc:1186-1226 | every reply to a request leaves over the next hop of the reverse route; that route is usable if and only if the request was accepted for it or it was usable before; what the reply says about another destination is what the table says |
| AodvAgent.Agent.RecvRequest | aodv/aodv.cc:654-820 | computes the model's step for a request; the assertions on the reverse route hold |
| AodvAgent.Agent.LearnReverseRoute | aodv/aodv.cc:690-736 | updates exactly the originator's entry, by the acceptance rule |
| AodvAgent.Agent.AnswerRequest | aodv/aodv.cc:752-818 | replies as destination, replies from a fresh route, or forwards, as the model says |
| AodvAgent.Agent.RecvReply | aodv/aodv.cc:824-935 | computes the model's step for a reply |
| AodvAgent.Agent.LearnForwardRoute | aodv/aodv.cc:846-890 | updates exactly the entry for the destination, and suppresses the reply exactly when it is not better |
| AodvAgent.Agent.RelayReply | aodv/aodv.cc:900-934 | relays to the next hop of the reverse route; the assertion that it is up holds |
| AodvAgent.Agent.RecvError | aodv/aodv.cc:939-993 | the loop over the unreachable destinations takes down exactly the routes concerned and reports exactly those with precursors |
| AodvAgent.Agent.LoseRoute | aodv/aodv.cc:949-980 | one destination of an error; the assertions that its route is up and even hold |
| AodvAgent.Agent.HandleLinkFailure | aodv/aodv.cc:348-383 | the loop over the table takes down exactly the routes through the neighbour and reports them with raised numbers; the assertions hold |
| AodvAgent.Agent.NbDelete | aodv/aodv.cc:1354-1376 | forgets the neighbour and handles the failure |
| AodvAgent.Agent.RtPurge | aodv/aodv.cc:504-550 | takes down exactly the expired usable routes; the assertions hold |
| AodvAgent.Agent.RtResolve | aodv/aodv.cc:437-501 | routes, requests or reports an error as the model says |
| AodvAgent.Agent.RecvHello | aodv/aodv.cc:1308-1335 | a new neighbour is added with a new own number |
| AomdvLoopFreedom.LoopFreedom | aomdv/aomdv.cc:837-907 | in every run, whichever stored path each node picks for each packet, no packet for any destination loops |
| AomdvLoopFreedom.AdvertisementsAreStable | aomdv/aomdv.cc:955-983 | any two packets ever sent by a node about one destination under one number carry the same hop count |
| AomdvLoopFreedom.PathSets | aomdv/aomdv_rtable.cc:180-246 | in every run the stored paths have distinct next hops and distinct last hops, are at most max(1, the limit), an entry is up exactly when it has a path, and no path goes through the node itself |
| AomdvLoopFreedom.StepKeepsInv | aomdv/aomdv.cc:746-780 | every event keeps the invariant on entries, packets, stable advertisements, and paths continuing what their neighbour advertised |
| AomdvLoopFreedom.RunKeepsInv | aomdv/aomdv.cc:202-226 | it holds in every run |
| AomdvLoopFreedom.LegalKeepsInv | aomdv/aomdv.cc:837-907 | any legal change of one node keeps the invariant |
| AomdvLoopFreedom.SentStand | aomdv/aomdv.cc:1043-1046 | packets that repeat the advertised hop count keep all advertisements stable |
| AomdvLoopFreedom.HearRequestIsLegal | aomdv/aomdv.cc:837-907 | a request restarts an entry under a higher number or adds a path shorter than what the entry advertises |
| AomdvLoopFreedom.HearReplyIsLegal | aomdv/aomdv.cc:1098-1143 | the same for a reply |
| AomdvLoopFreedom.RequestIsLegal | aomdv/aomdv.cc:784-1054 | receiving a request is legal |
| AomdvLoopFreedom.ReplyIsLegal | aomdv/aomdv.cc:1058-1269 | receiving a reply is legal |
| AomdvLoopFreedom.ErrorIsLegal | aomdv/aomdv.cc:1273-1338 | receiving an error is legal |
| AomdvLoopFreedom.LinkFailureIsLegal | aomdv/aomdv.cc:473-519 | losing a neighbour is legal |
| AomdvLoopFreedom.PurgeIsLegal | aomdv/aomdv.cc:635-681 | expiry of paths and routes is legal |
| AomdvLoopFreedom.AdvertiseUp | aomdv/aomdv.cc:966-968 | the hop count a usable entry advertises is fixed from then on and at least 1 |
| AomdvLoopFreedom.ForwardingClimbs | aomdv/aomdv.cc:1346-1409 | every stored path leads to a node with a higher number or a strictly smaller advertised hop count |
| AomdvLoopFreedom.NoPathThroughSelf | aomdv/aomdv.cc:881-907 | no node stores a path through itself |
| AomdvHopBound.HopCountBound | aomdv/aomdv.cc:955-983 | hop counts on the air stay below the number of nodes, and stored paths do not exceed it |
| AomdvHopBound.Supporters | aomdv/aomdv.cc:955-983 | behind a claim of h hops stand h + 1 different nodes |
| AomdvDisjointness.PathsAreNodeDisjoint | aomdv/aomdv.cc:809-820 | in every run in which nobody forgets the flood, two different paths that a node stores under the number of the flood and that came by requests have no relay in common, and neither comes back to the node |
| AomdvDisjointness.EveryPathHasTrail | aomdv/aomdv.cc:1043-1046 | in every run, behind every stored path stands a chain of messages about its destination under its number, from its next hop back to the destination, at strictly falling distances, each passing on the last hop the one before it gave |
| AomdvDisjointness.OneRequestPerNode | aomdv/aomdv.cc:1030-1036 | in every run in which nobody forgets the flood, no node sends two different requests of it |
| AomdvDisjointness.LastHopIsLast | aomdv/aomdv.cc:818-820 | on such a chain without replies, the last hop recorded with the path is the relay next to the destination |
| AomdvDisjointness.TrailAvoidsSelf | aomdv/aomdv.cc:837-907 | no such chain comes back to the node that stores the path |
| AomdvDisjointness.RunKeepsFloods | aomdv/aomdv.cc:809-820 | in every run the number of a flood and the sequence number it carries determine each other, and every forwarder of a remembered flood remembers it |
| AomdvDisjointness.ReactExplained | aomdv/aomdv.cc:746-780 | whatever happens to a node, each of its paths was there before under the same number or comes from the message just heard |
| AomdvDisjointness.ReactFromPaths | aomdv/aomdv.cc:1043-1050 | what a node advertises about another carries the last hop of one of its paths, which is no longer than it says |
| AomdvRoutes.ReplyTeaches | aomdv/aomdv.cc:1098-1143 | a reply with a higher number leaves the entry up with exactly the path it brings; one with the same number, if shorter than what is advertised, adds its path if that shares no end with the others and there is room; otherwise the paths stay; no other entry changes its paths |
| AomdvRoutes.RequestTeaches | aomdv/aomdv.cc:822-907 | the same for a request and its originator, which itself drops it |
| AomdvRoutes.RequestAnswered | aomdv/aomdv.cc:909-1051 | a request whose path is stored is answered by the destination each time, under an even number not below its own and the one asked for; once per flood by a node that knows the way, with its first path; and is passed on by any other node once per flood |
| AomdvRoutes.RequestNotStored | aomdv/aomdv.cc:868-907 | one whose path is not stored goes on all the same, unless its path shares no end with the others and is too long, or it is at the destination without a path of the same last hop that is no shorter |
| AomdvRoutes.StaleRequestIsDropped | aomdv/aomdv.cc:851-907 | one with a lower number, or as long as what is advertised, is not answered and changes no entry |
| AomdvRoutes.VainRequestIsDropped | aomdv/aomdv.cc:868-890 | with a negative difference of path lengths, a request whose path joins the others is dropped |
| AomdvRoutes.ReplyRelayed | aomdv/aomdv.cc:1145-1269 | a reply whose path is stored goes on over the first path back to who asked, once per flood, with the hop count and last hop that the entry advertises; no other goes on |
| AomdvRoutes.RequestTimes | aomdv/aomdv.cc:837-890 | a new reverse path lives for `REV_ROUTE_LIFE`, one heard again at least as long, the others as before |
| AomdvRoutes.ReplyTimes | aomdv/aomdv.cc:1098-1143 | a new forward path lives as long as the reply says, one heard again at least as long, the others as before |
| AomdvRoutes.LostNeighbour | aomdv/aomdv.cc:473-519 | a lost neighbour costs every entry exactly its path over it; an entry that had no other is down above its number and any heard of; the error reports exactly those of them that others had been told of |
| AomdvRoutes.ErrorHeard | aomdv/aomdv.cc:1273-1338 | an error costs exactly the entries it names under no lower number the path over its sender; those without another are down under the number noted; it is passed on for exactly those of them that others had been told of |
| AomdvRoutes.RoutesExpire | aomdv/aomdv.cc:635-681 | expiry leaves each entry exactly the paths that have not expired, in order, and takes down those without any |
| AomdvRoutes.SearchGoesOn | aomdv/aomdv.cc:1413-1533 | a search sends one request under new numbers, in the next ring or through the whole network |
| AomdvRoutes.DataResolved | aomdv/aomdv.cc:568-631 | a data packet goes out over the first path, which lives on; without one its source searches and any other node reports the destination |
| AomdvRoutes.HelloTeaches | aomdv/aomdv.cc:1667-1690 | a hello gives the one-hop path to its sender and is not answered |
| AomdvRoutes.HelloSaid | aomdv/aomdv.cc:235-246 | a node says hello exactly while some route is up |
| AomdvRoutes.DiscoveryRun | aomdv/aomdv.cc:784-1269 | an ordinary discovery over three nodes establishes the expected paths |
| AomdvTable.RtEntry.PathInsert | aomdv/aomdv_rtable.cc:181-204 | the new path becomes the last, and the count goes up by one |
| AomdvTable.RtEntry.PathLookup | aomdv/aomdv_rtable.cc:207-217 | finds the first path through a next hop, or there is none |
| AomdvTable.RtEntry.DisjointPathLookup | aomdv/aomdv_rtable.cc:220-231 | finds the first path with this next and last hop, or there is none |
| AomdvTable.RtEntry.IsNewDisjointPath | aomdv/aomdv_rtable.cc:234-245 | true exactly when no path shares the next or the last hop |
| AomdvTable.RtEntry.PathLookupLasthop | aomdv/aomdv_rtable.cc:248-259 | finds the first path with this last hop, or there is none |
| AomdvTable.RtEntry.PathDelete | aomdv/aomdv_rtable.cc:262-274 | removes exactly the first path through the next hop |
| AomdvTable.RtEntry.PathDeleteAll | aomdv/aomdv_rtable.cc:277-285 | leaves no path and count 0 |
| AomdvTable.RtEntry.PathDeleteLongest | aomdv/aomdv_rtable.cc:288-306 | removes one path of greatest length and keeps the others in order |
| AomdvTable.RtEntry.GetMaxHopcount | aomdv/aomdv_rtable.cc:347-359 | the greatest hop count of the paths |
| AomdvTable.RtEntry.GetMinHopcount | aomdv/aomdv_rtable.cc:362-373 | the least hop count of the paths |
| AomdvTable.RtEntry.PathPurge | aomdv/aomdv_rtable.cc:389-406 | the restarting loop removes exactly the expired paths and keeps the order of the rest |
| AomdvTable.PurgedSkips | aomdv/aomdv_rtable.cc:389-406 | removing one expired path does not change what purging leaves |
| AomdvTable.RtEntry.HearRequest | aomdv/aomdv.cc:837-907 | updates the reverse path in place as the model says, where the entry is consistent with the packet |
| AomdvTable.RtEntry.HearReply | aomdv/aomdv.cc:1098-1143 | the same for the forward path |
| AomdvTable.RtEntry.RtDown | aomdv/aomdv.cc:539-561 | takes the entry down once, with no path and a hop count above all |
| AomdvTable.RtEntry.Error | aomdv/aomdv.cc:1290-1324 | drops the path through the sender, and the route with its last path |
| AomdvTable.RtEntry.Break | aomdv/aomdv.cc:485-506 | drops the path through the lost neighbour, and the route with its last path |
| AomdvTable.RtEntry.Purge | aomdv/aomdv.cc:640-675 | drops expired paths, and the route with its last path |
| AomdvTable.RtEntry.Use | aomdv/aomdv.cc:1346-1409 | forwarding extends the path in use only |
| AomdvAgent.AssertionsHold | aomdv/aomdv.cc:856-864 | in every run every packet agrees with every entry: same number means the entry is up and a path heard again has the same length |
| AomdvAgent.Agent.RecvRequest | aomdv/aomdv.cc:784-1054 | computes the model's step on the route table object |
| AomdvAgent.Agent.RecvReply | aomdv/aomdv.cc:1058-1269 | computes the model's step on the route table object |
| AomdvAgent.Agent.RecvError | aomdv/aomdv.cc:1273-1338 | the loop over the destinations changes exactly the entries concerned |
| AomdvAgent.Agent.HandleLinkFailure | aomdv/aomdv.cc:473-519 | the loop over the table changes exactly the entries through the neighbour and reports those lost |
| AomdvAgent.Agent.RtPurge | aomdv/aomdv.cc:635-681 | the loop over the table purges every entry |
| AomdvAgent.Agent.SendRequest | aomdv/aomdv.cc:1413-1533 | computes the expanding ring search step |
| AomdvAgent.Agent.RtResolve | aomdv/aomdv.cc:568-631 | forwards along a path, requests a route or reports an error |
| AomdvAgent.Agent.RecvHello | aomdv/aomdv.cc:1667-1690 | computes the model's step for a hello |
| AomdvAgent.Agent.NbDelete | aomdv/aomdv.cc:1728-1775 | forgets the neighbour and handles the failure |
| AsimFilling.FilledIsFair | asim/asim.cc:845-962 | with room on every link that bulk flows use, what the loop leaves is a weighted max-min fair allocation, and the only one |
| AsimFilling.FeasibleExactlyWithRoom | asim/asim.cc:849-870 | the result respects all capacities if and only if the short flows leave room on every link that bulk flows use |
| AsimFilling.RatiosFall | asim/asim.cc:930-944 | the ratio of the next chosen link never exceeds that of the one before |
| AsimFilling.RoundDone | asim/asim.cc:905-932 | a round exhausts the chosen link exactly and leaves every fixed flow stuck on a full link where nobody has a larger factor |
| AsimFilling.ChoiceIsGood | asim/asim.cc:879-889 | the chosen link has capacity left and an open bulk flow, and its ratio is the largest |
| AsimFilling.BottleneckIsFull | asim/asim.cc:905-932 | a round leaves its link without capacity and without open flows |
| AsimFilling.ExhaustedIsFull | asim/asim.cc:905-958 | such a link carries exactly 1.05 times its capacity |
| AsimFilling.ExhaustedStays | asim/asim.cc:905-958 | and stays so whatever link is filled later |
| AsimFilling.LoopEnd | asim/asim.cc:905-958 | when no link is left to choose, every bulk flow with a usable link has a bottleneck |
| AsimModel.BottleneckedIsFair | asim/asim.cc:845-962 | a feasible allocation in which every bulk flow has a bottleneck is weighted max-min fair |
| AsimModel.FairIsUnique | asim/asim.cc:845-962 | two weighted max-min fair allocations are equal |
| AsimSim.Asim.constructor | asim/asim.cc:487-528 | builds, for each link, the list of its flows with repetitions and the rate of its short flows |
| AsimSim.Asim.Incidence | asim/asim.cc:487-528 | the two inner loops compute them for one link |
| AsimSim.FlowsOnContains | asim/asim.cc:487-528 | a flow is listed at a link exactly when its route crosses it |
| AsimSim.Asim.NewUpdate | asim/asim.cc:845-962 | for positive bulk rates the loop ends, with the result characterised by `Filled`; the choices of the loop are on record, each made by the scan on the books that the one before left, with ratios that never increase; at the end every chosen link carries exactly 1.05 times its capacity, after `newupdate(0)` also as its arrival rate, and every bulk flow for which some link has room crosses one of them |
| AsimSim.Asim.FillRound | asim/asim.cc:905-944 | a round turns the books over as recorded: all flows of the link are fixed at its ratio, at least one more than before, and the next ratio is no larger |
| AsimSim.Asim.FixLink | asim/asim.cc:909-928 | all bulk flows of the link are scaled, each once |
| AsimSim.Asim.FixFlow | asim/asim.cc:915-927 | one flow is scaled and taken out of the accounts of all links on its route |
| AsimSim.Asim.Choose | asim/asim.cc:879-889 | finds a link with the largest ratio among those with capacity left |
| AsimSim.Asim.InitAccounts | asim/asim.cc:849-870 | opens the accounts: capacities less short flows, and the demand of the bulk flows |
| AsimSim.Asim.Enter | asim/asim.cc:859-869 | one flow is entered in the accounts of all links on its route |
| AsimSim.Asim.UpdateHelper | asim/asim.cc:679-696 | computes the load that the rates put on each link |
| AsimSim.Asim.Update | asim/asim.cc:699-722 | damps the arrival rate of each link, or replaces it in iteration 0 |
| AsimSim.DampingConverges | asim/asim.cc:699-722 | while the same rate is offered, each damped iteration halves the distance of the arrival rate to what is offered, or to 1.1 times `mu` if that is less |
| AsimSim.RoundFixesSome | asim/asim.cc:905-958 | the set of open flows strictly shrinks, so the loop ends |
| TbfModel.RateBoundExactlyWhenPacketsFit | adc/tbf.cc:74-149 | between any two instants of any run at most bucket + rate * time is sent, if and only if no packet is larger than the bucket or there is no queue |
| TbfModel.TimerNeverAborts | adc/tbf.cc:126-149 | in every run the timer is pending exactly while packets wait, never fires on an empty queue, and finds exactly the tokens the head packet needs, up to the bucket depth |
| TbfModel.FirstInFirstOut | adc/tbf.cc:74-149 | in every run packets sent, then those waiting, are the accepted arrivals in order, and every arrival is sent, waiting or dropped |
| TbfModel.DropsOnlyWhenFull | adc/tbf.cc:87-113 | a packet is dropped if and only if the queue is full, or there is none and tokens are missing |
| TbfModel.UncheckedSendIsCovered | adc/tbf.cc:133-141 | the send at the timer, which checks no tokens, leaves no debt if and only if the packet fits into the bucket |
| TbfModel.TokensStayInBucket | adc/tbf.cc:115-124 | without oversized packets the tokens stay between 0 and the bucket depth in every run |
| TbfModel.WindowIsBounded | adc/tbf.cc:74-149 | the rate bound for one window of a run |
| TbfModel.OversizeBreaksBound | adc/tbf.cc:133-141 | any size above the bucket breaks the bound |
| TbfModel.BalanceNeverRises | adc/tbf.cc:115-124 | what was sent and could be sent at once, less what the rate has earned, never rises along a run |
| TbfModel.TimeoutKeepsTimed | adc/tbf.cc:126-149 | the timer is set again for exactly the moment at which the next packet is covered |
| TbfModel.RecvKeepsTimed | adc/tbf.cc:74-113 | a packet that has to wait sets the timer for exactly the moment at which it is covered |
| TbfModel.ArrivalServed | adc/tbf.cc:74-113 | an arrival that finds nobody waiting and tokens for it is sent at once and paid for; any other waits behind those that do, if there is room, and the first sets the timer for the moment at which its tokens will be there |
| TbfModel.FirstServed | adc/tbf.cc:126-149 | the timer sends exactly the first packet and is set for the next one |
| TbfModel.FullRateWhileWaiting | adc/tbf.cc:115-149 | while packets that fit into the bucket wait, what is sent is exactly what the rate earns, in every such stretch of every run |
| TbfFilter.Tbf.Receive | adc/tbf.cc:74-113 | the object computes the model's step for an arrival |
| TbfFilter.Tbf.GetUpdatedTokens | adc/tbf.cc:115-124 | adds what was earned since the last update, up to the bucket depth |
| TbfFilter.Tbf.Expire | adc/tbf.cc:126-149 | the object computes the model's step for the timer |
| ReassemblyModel.Reassembly | baytcp/tcp-full-bay.cc:1314-1404 | for all arrivals that pairwise carry the same bytes or none in common, in any order and with repetitions: the next expected byte is the first one missing, and the queue holds, in order, exactly the segments beyond it |
| ReassemblyModel.AddFindsGap | baytcp/tcp-full-bay.cc:1373-1404 | one call moves the next byte exactly to the first missing one and keeps exactly the segments beyond it, in order |
| ReassemblyModel.AddTakesRun | baytcp/tcp-full-bay.cc:1373-1404 | the segments consumed are a prefix of the list and exactly their flags are returned |
| ReassemblyModel.AddIsRightExactlyWhenFitting | baytcp/tcp-full-bay.cc:1340-1356 | a call keeps the queue in order if and only if the segment repeats or avoids each queued one, and finds the first missing byte if and only if that or it does not start at the next byte |
| ReassemblyModel.InsertKeepsOrder | baytcp/tcp-full-bay.cc:1340-1371 | the search finds the place that keeps the list in order |
| ReassemblyModel.InsertAdds | baytcp/tcp-full-bay.cc:1357-1371 | the list gains the new segment and loses none |
| ReassemblyModel.NestedSegmentsStopEarly | baytcp/tcp-full-bay.cc:1379-1402 | three nested segments after which the next byte is one that has arrived: the loop passes through 30 and ends at 20 |
| ReassemblyModel.ReceiveFindsGapExactly | baytcp/tcp-full-bay.cc:801-828 | `recv` moves the next byte to the first one missing if and only if the segment is wholly old, nothing waits, or it is wholly new and fits the queue or leaves the gap open; so every partly old segment goes wrong while something waits |
| ReassemblyModel.TrimmedSegmentOvershoots | baytcp/tcp-full-bay.cc:801-828 | a partly old segment that fits once trimmed takes the next byte past its end, where nothing has arrived |
| ReassemblyModel.TrimmedSegmentStalls | baytcp/tcp-full-bay.cc:801-828 | one that does not fit leaves the next byte where it is, although it has arrived, and the queue out of order |
| ReassemblyModel.TrimmedSegmentsGoWrong | baytcp/tcp-full-bay.cc:801-828 | a segment for each of the two |
| ReassemblyModel.ReassemblyExactly | baytcp/tcp-full-bay.cc:1057-1094 | for all sequences of segments that are not empty, the receiver is up to date at every moment if and only if each segment, when it came, was wholly old, found nothing waiting, or was wholly new and fitted the queue |
| ReassemblyModel.FastPathAgrees | baytcp/tcp-full-bay.cc:1057-1094 | taking an in-order segment at once does what queueing it would do |
| ReassemblyQueue.Queue.Add | baytcp/tcp-full-bay.cc:1314-1404 | the linked list stays well formed both ways, and contents, next byte and flags are those of the model |
| ReassemblyQueue.Queue.LinkAfter | baytcp/tcp-full-bay.cc:1357-1371 | linking in keeps the list well formed and inserts at exactly that position |
| ReassemblyQueue.Queue.Unlink | baytcp/tcp-full-bay.cc:1387-1395 | unlinking keeps the list well formed and removes exactly that node |
| ReassemblyQueue.Queue.ConsumeRun | baytcp/tcp-full-bay.cc:1379-1403 | the loop consumes exactly the run up to the first gap and collects its flags |
| ReassemblyQueue.Queue.SegmentAfter | baytcp/tcp-full-bay.cc:1346-1349 | the search stops at the first segment that begins no earlier than the new one ends |
| ReassemblyQueue.Queue.Clear | baytcp/tcp-full-bay.cc:1297-1307 | the list is empty afterwards |
| ReassemblyQueue.Receiver.TakeData | baytcp/tcp-full-bay.cc:801-828 | duplicates are dropped, in-order data is taken at once, the rest is queued |
| BaySender.SenderOrderedExactly | baytcp/tcp-full-bay.cc:751-757 | for all runs from a state in order, acknowledged <= next <= largest number holds at every moment if and only if no connection is accepted while something beyond the initial number stands acknowledged |
| BaySender.NothingIsTakenBack | baytcp/tcp-full-bay.cc:538-560 | for all runs, in order or not: nothing beyond the largest number is acknowledged or next, and neither what is acknowledged nor the largest number decreases before the next restart |
| BaySender.AckedIsLargest | baytcp/tcp-full-bay.cc:538-585 | for all runs without a restart, what counts as acknowledged is the largest of its start value and of the numbers acknowledged after they had been sent |
| BaySender.NewDataAcked | baytcp/tcp-full-bay.cc:945-979 | an acknowledgement of something new moves the window to it, carries the next number along, ends the count of duplicates, opens a connection that waits for it, and sends nothing |
| BaySender.TooMuchAcked | baytcp/tcp-full-bay.cc:946-951 | one beyond everything sent moves nothing and is answered |
| BaySender.SynAcked | baytcp/tcp-full-bay.cc:758-786 | the answer to a SYN opens the connection unless it acknowledges more than was sent |
| BaySender.DuplicateAcked | baytcp/tcp-full-bay.cc:884-925 | duplicates are counted, and exactly the one that reaches the threshold sends again from the acknowledged number, as much as a segment, the data at hand and the window allow, after which sending goes on where it was |
| BaySender.TimedOut | baytcp/tcp-full-bay.cc:638-657 | a timeout goes back to the first byte not acknowledged |
| BaySender.ConnectionBegins | baytcp/tcp-full-bay.cc:186-200 | a restart, a connect and an accepted SYN begin from the initial number |
| BaySender.OutputSends | baytcp/tcp-full-bay.cc:367-466 | a packet carries exactly as much as a segment, the data at hand and the window allow; it is a FIN exactly when the connection closes and no data is left behind; the numbers move on by what is sent for the first time |
| BaySender.OutputGoes | baytcp/tcp-full-bay.cc:395-430 | something goes out whenever an acknowledgement, a SYN or a FIN is due, a whole segment or the last data can be sent, or anything again |
| BaySender.ReopenedRun | baytcp/tcp-full-bay.cc:1213-1217 | a run in which the sender listens again without a restart, after which 0 comes next although 1 is acknowledged |
| BaySender.MaxSeqWasSentExactly | baytcp/tcp-full-bay.cc:454-466 | for all runs, some packet reached as far as the largest number at every moment if and only if no event oversteps: no fast retransmission or connect sends from behind the next number so much that the sum passes everything sent |
| BaySender.FastRetransmitOverstates | baytcp/tcp-full-bay.cc:592-600 | a fast retransmission, with or without SYN or FIN, leaves the largest number within what was sent if and only if the state before it does not overstate |
| BaySender.OutputOverstatesExactly | baytcp/tcp-full-bay.cc:367-466 | the same for `output` from any number |
| BaySender.FastRetransmitRun | baytcp/tcp-full-bay.cc:592-600 | a run from a restart to a third duplicate acknowledgement after which the largest number is 2001 and nothing beyond 1001 was sent |
| BaySender.OutputStaysInWindow | baytcp/tcp-full-bay.cc:367-393 | data that goes out is at most a segment, is at hand, and lies in the window |
| BaySender.StepOrderedExactly | baytcp/tcp-full-bay.cc:751-757 | an event keeps the order if and only if it does not accept a connection over an acknowledged number |
| BayAgent.BayFullTcpAgent.Output | baytcp/tcp-full-bay.cc:367-485 | the object computes the model's step |
| BayAgent.BayFullTcpAgent.FastRetransmit | baytcp/tcp-full-bay.cc:592-600 | the object computes the model's step |
| BayAgent.BayFullTcpAgent.RecvAck | baytcp/tcp-full-bay.cc:856-979 | the object computes the model's step |
| BayAgent.BayFullTcpAgent.NewAck | baytcp/tcp-full-bay.cc:538-560 | the object computes the model's step |
| BayAgent.BayFullTcpAgent.Timeout | baytcp/tcp-full-bay.cc:638-657 | the object computes the model's step |
| RedRouter.RedRouter.ComputeProbability | asim/asim.h:89-112 | in the middle region the result is a drop probability in (0, MaxP] whose queue lies exactly on the RED line; below it no drops, above it the queue stays at MaxTh |
| RedRouter.RedRouter.AgreesAtThresholds | asim/asim.h:79-87 | at both thresholds the neighbouring branches give the same probability and queue |
| RedRouter.OperatingPointIsUnique | asim/asim.h:99-111 | no other drop probability puts the queue on the line |
| RedRouter.ExcessIsQuadratic | asim/asim.h:100-104 | the quadratic solved is the balance between the line and the queue |
| RedRouter.OperatesWhenBalanced | asim/asim.h:100-111 | a point is on the line if and only if the balance is 0 |
| RedRouter.RedRouter.MiddleOperates | asim/asim.h:99-111 | a positive solution is a probability up to MaxP and operates |
| Reservation.ReservedIsHeld | adc/param-adc.cc:78-96 | over any interleaving of flows whose teardowns are proper, the rate reserved on a link is the sum of the rates of its pending and accepted flows, and never above what may be reserved |
| Reservation.OutcomeReachesAllLinks | adc/salink.cc:114-126 | in every run, whoever is stopped, when and how often: once its confirmation has passed, a rejected flow holds nothing anywhere and an accepted one that is not stopped its rate on exactly its path; once a teardown has passed the whole path, nothing |
| Reservation.ConservedExactly | adc/sa.cc:136-172 | for all runs, the accounts of all links are right at every moment if and only if no flow with a rate is torn down on a link where it was rejected, is not confirmed yet, or was torn down before |
| Reservation.ImproperTeardownBreaks | adc/sa.cc:160-172 | any such teardown, in any phase of its flow, leaves its link with less reserved than its flows hold, by the rate of that flow |
| Reservation.StoppedRejectOvercommits | adc/sa.cc:136-172 | a run in which a rejected flow is stopped and the link then admits a flow that holds more than may be reserved |
| Reservation.StoppedEarlyBreaks | adc/sa.cc:136-143 | a run in which a flow is stopped before its answer is back: nothing is reserved for it although it is about to be accepted |
| Reservation.StoppedTwiceBreaks | adc/sa.cc:136-143 | a run in which an accepted flow is stopped twice: the accounts are right after the first teardown, and then the link owes the rate |
| Reservation.StepKeepsInv | adc/salink.cc:86-132 | every signalling step, every stop and every proper teardown keeps the accounts of all links |
| Reservation.AdmittedExactly | adc/param-adc.cc:89-96 | a link admits a flow if and only if what its flows hold leaves room for its rate; it then reserves that rate and keeps a slot, and otherwise stays as it is and the flow will be rejected |
| Reservation.OutcomeKnown | adc/sa.cc:176-200 | a flow is accepted if and only if no link of its path refused it |
| Reservation.ConfirmationPasses | adc/salink.cc:114-126 | a confirmation frees the slot of its flow, and a rejection also gives back the rate where the flow had one |
| Reservation.StepKeepsStructure | adc/salink.cc:86-132 | every step keeps the slots of all links in agreement with the phases of all flows |
| Reservation.RequestAccounted | adc/salink.cc:87-110 | a request changes the account of its link by exactly what the flow then holds |
| Reservation.ConfirmAccounted | adc/salink.cc:114-126 | so does a confirmation, unless a teardown came before it |
| Reservation.TearAccounted | adc/salink.cc:127-132 | a proper teardown takes exactly what its flow holds |
| Reservation.HeldAfter | adc/param-adc.cc:78-96 | when one flow moves, the sum over all flows changes by its share |
| SaLink.SALink.Receive | adc/salink.cc:74-142 | the object computes the model's step for each packet type, and exits exactly when an admitted flow finds no slot |
| SaLink.SALink.Lookup | adc/salink.cc:185-207 | finds the first slot of a flow, or none |
| SaLink.SALink.AdmitFlow | adc/param-adc.cc:89-96 | admits exactly what fits, and reserves it |
| SendBufferModel.HeadPurgeWouldDo | aodv/aodv_rqueue.cc:205-260 | with a clock that does not run backwards, in every run, the scanning purge leaves what purging from the head leaves, time stamps are sorted and the limit is kept |
| SendBufferModel.PurgeIsHeadPurge | aodv/aodv_rqueue.cc:205-260 | the two purges agree if and only if no stale packet stands behind a fresh one |
| SendBufferModel.DequeForTakesOldest | aodv/aodv_rqueue.cc:107-138 | the packet taken is the first fresh one for its destination, none exactly if there is none, and the others keep their order |
| SendBufferModel.NewestIsKept | aodv/aodv_rqueue.cc:51-85 | a packet that is queued comes last with its time stamp, behind exactly the fresh packets in order, of which a full buffer gives up the oldest |
| SendBufferModel.OldestIsHandedOut | aodv/aodv_rqueue.cc:89-103 | what is taken is the oldest fresh packet, and the rest stays |
| SendBufferModel.QueuedUntil | aodv/aodv_rqueue.cc:51-138 | for all runs, a packet that is queued stays until it is stale, is handed out, or as many packets as the limit have been queued after it |
| SendBufferModel.StepKeepsInv | aodv/aodv_rqueue.cc:51-85 | each operation keeps the order of time stamps and the limit |
| SendBuffer.Queue.PurgeStale | aodv/aodv_rqueue.cc:233-260 | the loop that scans again after each removal leaves exactly the fresh packets, in order |
| SendBuffer.Queue.Enqueue | aodv/aodv_rqueue.cc:51-85 | the linked list holds what the model says |
| SendBuffer.Queue.Dequeue | aodv/aodv_rqueue.cc:89-103 | the linked list holds what the model says |
| SendBuffer.Queue.DequeueFor | aodv/aodv_rqueue.cc:107-138 | the linked list holds what the model says |
| SendBuffer.Queue.RemoveHead | aodv/aodv_rqueue.cc:160-174 | takes the first packet and keeps head, tail and length right |
| SendBuffer.Queue.VerifyQueue | aodv/aodv_rqueue.cc:191-203 | the assertions of the check always hold |
| IvsModel.EveryNumberIsAccountedFor | common/ivs.cc:282-364 | with a clock that does not run backwards, in every run, holes are ordered in time and number, and packets accepted plus all holes ever noticed add up to the advance of the sequence number |
| IvsModel.LostIsMissing | common/ivs.cc:349-364 | the packets counted as lost are as many as the different sequence numbers missing in the window |
| IvsModel.RecentIsSuffix | common/ivs.cc:349-364 | removal always takes a prefix of an ordered list |
| IvsModel.MeterKeepsInv | common/ivs.cc:282-364 | each packet keeps the holes ordered and below the next number |
| IvsModel.PacketMeasured | common/ivs.cc:282-364 | a number beyond the expected one leaves a hole noticed now; exactly the holes of a window of one round trip that ends two deviations ago, or later ones, are left; the loss is the number of different sequence numbers missing in that window |
| IvsModel.DelayAveraged | common/ivs.cc:325-336 | the averages go an eighth of the way to what was measured |
| IvsModel.VerdictLimits | common/ivs.cc:370-399 | no load up to 5 percent of the packets of a round trip, congestion above 15, if 15 percent are at least 2 packets; otherwise one loss is load and two are congestion |
| IvsModel.VerdictGrows | common/ivs.cc:370-399 | more losses never give a milder verdict |
| IvsReceiver.LastIsKept | common/ivs.cc:349-364 | what is left of a list in order of time ends with the same node, so the tail pointer stays valid |
| IvsReceiver.Receiver.Measure | common/ivs.cc:271-399 | the object computes the model's step and verdict, and its tail pointer is valid whenever the list is not empty |
| IvsReceiver.Receiver.SweepAll | common/ivs.cc:341-364 | of holes in order, what is left is what the model says, and the tail pointer stays valid though it is not set |
| IvsReceiver.Receiver.Sweep | common/ivs.cc:349-364 | the loop with in-place deletion removes exactly the old holes of any list, and counts those in the window |

## Left out

- Timers, random jitter, the scheduler and packet memory: events and their parameters take their place. Tcl bindings, tracing, nam output, log files and file parsing are not modelled.
- Floating point: all rates, times and probabilities are exact reals. The Padhye and M/M/1/K formulas of asim are not modelled.
- Integer widths: sequence numbers and hop counts are unbounded. The hop count theorems say when the 8-bit fields cannot overflow; wrap-around of sequence numbers is not modelled.
- Data packets and their buffers inside the routing agents are not part of the routing models; the AODV send buffer is modelled by itself.
- AODV and AOMDV route tables are maps from addresses; the order of the linked table, duplicate entries (which lookups before insertion exclude) and the packet format of errors (at most 100 destinations) are not modelled.
- AODV: route expiry times are events that name the routes expired; the period between requests and the round-trip estimate are the flags `early` and `waiting`; gratuitous replies (`RREQ_GRAT_RREP`, not in the shipped build) are left out.
- AODV: the time to live of a first request follows the code. A new entry starts with `rt_last_hop_count` at `INFINITY2`, so the first search uses the network diameter and not `TTL_START`, which the comments suggest.
- AodvAgent.Agent.RecvRequest: needs what the source asserts; `AgentsAreAlwaysCalm` and `AgentsAreAlwaysReady` show it in every run without local repair. The agent object has no local repair methods; local repair is in the model.
- AodvAgent.AgentsAreAlwaysReady: only for networks in which the 8-bit hop counts cannot reach 255, which the assertions on hop counts presuppose.
- AomdvTable.RtEntry.PathInsert: the path list is a sequence, so the walk to the last link and the links themselves are not modelled.
- AOMDV: the link-disjoint build, packet salvaging and local repair, which the shipped configuration does not reach, are left out; `INFINITY`, whose definition is not part of this model, is a value above every hop count. A new entry starts with `rt_advertised_hops` at `INFINITY2` (`aomdv/aomdv_rtable.cc:85-90`); the model starts it like one that was never advertised, which differs only for sequence number 0, and that is never heard of. The assertions on `rt_hops`, which the constructor of an entry leaves without a value, are not modelled.
- AomdvDisjointness.PathsAreNodeDisjoint: paths that came by replies, and floods forgotten while still on the air, are not covered.
- AomdvRoutes.ReplyTimes: leaves out replies addressed to the very node they are about; relaying one would also use the path, and so prolong it.
- AomdvTable.RtEntry.HearRequest: needs an entry that is consistent with the packet; `AssertionsHold` shows it in every run.
- asim: `Update2`, `Update3` and the outer iteration that combines them with the loss formulas.
- RedRouter.RedRouter.ComputeProbability: takes the square root as a parameter and needs MinTh < MaxTh and 0 < MaxP <= 1.
- TbfModel.TimerNeverAborts: needs a positive token rate; with rate 0 the code divides by zero.
- Reservation: signalling packets are not lost, and each flow is started once, as in the shipped scripts, which delete the agent after its stop (`tcl/ex/test-suite-intserv.tcl:174-184`); requests of two starts under one flow number would share slots. The count of admitted flows, tracing, the other admission policies and the bucket parameter, which this policy ignores, are left out.
- ReassemblyModel.Reassembly: data segments without FIN. A FIN takes a sequence number on the direct path but none in the queue, and clears the queue.
- BaySender: congestion window, round-trip estimation, timers and `send_much`'s loop appear as parameters and as separate sends; that loop need not end when `output` declines to send. Receiving-side state changes are the event `Move`.
- SendBufferModel: what happens to purged packets (the code neither frees nor reports them) is not modelled.
- IvsReceiver.Receiver.Measure: needs holes in order, as `EveryNumberIsAccountedFor` shows in every run whose clock does not run backwards; the sender and the rest of the receiver are left out.
- The fixed tables of `common/fsm.cc`, applications, classifiers, `common/heap.h`, `aomdv/aomdv_rqueue.cc` and `asim/asimstd.cc` are not modelled.
