# Verified model of the broker and its mesh

A Dafny model of the hard parts of this MQTT 3.1.1 broker: the mesh route table
and the gossip and flooding protocols above it, the local topic table with its
fan-out, the QoS 1 and QoS 2 state machines, persistent sessions, the wire
codecs, and the mesh's shard ownership and router election.  `dafny verify
dfyconfig.toml` checks all of it.

What the program changes in place is a class over arrays here, with the source's
loops; each method is proved to do to the arrays what a function does to the
values they stand for, and the theorems are about those functions, over every
input, every run or every reachable state.  What runs across several brokers
(gossip, publish flooding) is a step relation over brokers and frames in flight.

| module | what it covers |
|---|---|
| `TopicFilter` | filter validation and the three wildcard matchers, with their level-by-level meaning and differences |
| `RouteModel`, `RouteMeaning`, `RouteTable` | the mesh route table as values, what its operations do and answer in terms of subscriptions, and the table as node slots, tombstone hash table and wildcard table |
| `MeshRouting` | subscription gossip between brokers |
| `MeshPublish`, `MeshDelivery`, `MeshPeer` | publish flooding, full-mesh delivery, and one broker's part of it |
| `MeshSetup`, `MeshReach` | what gossip leaves in the tables of a full mesh, and of any connected mesh with delivery in it |
| `MeshGossip`, `MeshEcho` | whether gossip ends, and when a publisher gets its own publish back |
| `TopicModel`, `TopicTable` | the local subscriptions as values, and threaded on hash-bucket and wildcard lists |
| `Qos2`, `Inflight`, `Session` | the two QoS 2 receivers, outbound retransmission, sessions that outlive a connection |
| `Packet`, `PublishCodec`, `PeerFrame` | remaining length and socket loops, the PUBLISH packet, the mesh publish frame |
| `Election`, `ShardKey`, `ShardOwner`, `ShardCache` | router election, shard keys, shard owners, the owner caches |
| `Common`, `Probing`, `ExchangeSort` | counting and searching, open-addressing probes, the in-place exchange sort |

Capacities are parameters.  Hash functions, clocks, random choices and what other
parts of the broker report are parameters too.  A C string is the text before its
NUL; a node id is a natural number, ordered as `memcmp` orders ids, and 0 stands
for the all-zero id.

## What the proofs show about the code

Some properties one would expect hold only under a condition.  The model keeps the
code as it is; the condition is part of the theorem, and a lemma, named here, gives or
constructs an input on which the property fails.

- `src/p2p_router.c:314-318` moves an owner's next hop before the slot check at 330.
  An owner offered a new filter over a different, better hop while its slots are
  full keeps routes over the old hop: `RouteModel.SubscribeSync` shows this is the
  only way the route tables and the subscriptions part, and `RouteModel.StaleMove` is
  one such table.
- Such a move leaves routes that outlive their node exactly when the new hop is not
  the owner (`RouteModel.OrphansIffStrands`).  The old hop was then the all-zero id,
  which a peer may present and which also means "not set".  A zero hop strands no
  route otherwise: `RouteModel.RunKeepsSound` excludes this one step only, and
  `RouteModel.ZeroHopLeavesOrphan` is a run in which it happens.
- The mesh matcher (`src/p2p_router.c:268-294`) has neither the rule that `a/#`
  matches `a` nor the rule for topics starting with `$`; the local one
  (`src/topic.c:235-273`) has both.  `TopicFilter.LocalAgainstRouter` says exactly
  where they differ.  The third matcher, of the publishes kept for later
  (`src/p2p_peer.c:209-239`), also refuses `a/` for `a/#`
  (`TopicFilter.PendingAgainstLocal`).  `TopicFilter.MatchersPart` has a topic for each
  difference.
- `+` never matches an empty last level, because the loop at `src/topic.c:245` has
  already ended.  The local matcher therefore agrees with sections 4.7.1 and 4.7.2
  of MQTT 3.1.1 exactly on non-empty topics not ending in `/`
  (`TopicFilter.AgreesWithStandard`).
- A client with overlapping subscriptions gets a message at the QoS of the
  subscription found first.  That is the highest for every publish exactly when its
  exact subscription, if it has one, is at least each of its matching wildcards, and
  otherwise its first matching wildcard is at least the others
  (`TopicModel.HighestQosIff`); `TopicModel.OverlapBelowHighest` is a table where it
  is not.
- A client's full QoS 2 table still answers PUBREC (`src/client.c:719-725`), so the
  handshake completes and the message is never published
  (`Qos2.FullTableLosesMessage`, `Qos2.SecondOfTwoIsLost`); the mesh ingress path
  closes the connection instead.
- The client path also closes, without an answer, on a publish to an empty or wildcard
  topic and on a PUBREL with id 0 or a malformed header (`src/client.c:245-330`,
  `src/client.c:684-688`); the mesh ingress path tests none of these
  (`Qos2.RefusedParts`).  The two receivers send the same replies exactly when what
  comes before the first refused packet does not overflow the table and the mesh path
  has nothing to answer from there on (`Qos2.SameRepliesIff`).
- A message resumed after a disconnect is the original with DUP set exactly when it
  was not sent as a retained message: the queue does not keep the RETAIN bit
  (`Session.ResumeIsByteIdentical`, `Session.RetainedComesBackPlain`).
- The socket loops reject the four-byte remaining lengths that the decoder accepts
  and section 2.2.3 of MQTT 3.1.1 allows; such packets are over the packet limit
  unless the field is padded (`Packet.ShortFieldsAgree`, `Packet.FourByteFields`).
- The PUBLISH decoder accepts empty topics and topics with wildcards, which the
  encoder refuses (`PublishCodec.BuildInvertsParse`, `WildcardTopicParsed`).
- A mesh frame whose topic holds a zero byte parses, but to a shorter topic
  (`PeerFrame.BuildInvertsParse`, `PeerFrame.ZeroByteCuts`).
- A publisher does not record its own publish, so a copy that comes back to it is
  handled there like anywhere else.  In a full mesh one can come back exactly when a
  broker the publish is sent to forwards it to a third one, and that one has a route
  over the publisher (`MeshEcho.EchoIff`); `MeshEcho.EchoIsHandled` is such a run.
- Next hops are free of loops while no broker presents the all-zero id.  With one that
  does, a hop learned over it counts as unset, and next hops can form a ring that never
  reaches the owner (`MeshGossip.ZeroIdLoops`).
- Relayed subscriptions are not remembered; they stop where they change nothing.  While
  each filter of an owner has one QoS the frames of a run are bounded
  (`MeshGossip.GossipEnds`).  Two announcements of one filter at different QoS values
  can follow one another round a ring for ever (`MeshGossip.TwoQosNeverEnd`).
- In any connected mesh of routers a publish reaches every subscriber, unless it is
  handed to the shard owner and that one's route to the subscriber is back over the
  publisher (`MeshReach.MeshDelivers`); in the chain of `MeshReach.ChainMisses` it
  never does.
- A filter is sharded with the topics it matches exactly when it has no wildcard or
  two slashes before its first one; for the others some matching topic has another
  key (`ShardKey.SharesKeyIffPinned`).
- A name such as `/` or `//x` has the empty key, for which every node answers its
  own id (`src/p2p_shard.c:194-196`).  Nodes that know the same routers name the same
  owner exactly when the key is not empty and there is a router
  (`ShardOwner.AnswersAgreeIff`), and a pinned filter meets its topics under the same
  condition (`ShardOwner.FilterMeetsTopicIff`); `ShardOwner.DoubleSlashSplits` is the
  case `//x`.

## Model

| member | source | states |
|---|---|---|
| TopicFilter.TopicMatchLoop | src/topic.c:235-273 | the in-place walk answers as the recursive matcher does, for every filter and topic |
| TopicFilter.RouterMatchLoop | src/p2p_router.c:268-294 | the same for the mesh matcher |
| TopicFilter.FilterValidLoop | src/topic.c:209-232 | accepts exactly the non-empty filters whose wildcards are all well placed |
| TopicFilter.FilterValidIsLevelwise | src/topic.c:209-232 | accepted if and only if every level is literal, a lone `+`, or a final `#` |
| TopicFilter.WalkIsLevelwise | src/topic.c:241-272 | the character walk is level-by-level matching in which `+` refuses an empty last level |
| TopicFilter.TopicMatchMeaning | src/topic.c:235-273 | for every valid filter and every topic, the local matcher is level-wise matching with the leading-`$` rule |
| TopicFilter.RouterMatchMeaning | src/p2p_router.c:268-294 | for every valid filter, the mesh matcher is level-wise matching without the parent rule and the `$` rule |
| TopicFilter.DollarRule | src/topic.c:236-239 | the local matcher refuses a filter starting with `+` or `#` for a topic starting with `$`, and the mesh matcher does not |
| TopicFilter.AgreesWithStandard | src/topic.c:235-273 | for all valid filters equal to sections 4.7.1 and 4.7.2 of MQTT 3.1.1 if and only if the topic is non-empty and does not end in `/` |
| TopicFilter.LocalAgainstRouter | src/p2p_router.c:268-294 | exactly which filter and topic pairs one matcher accepts and the other refuses |
| TopicFilter.ExactMatchesItself | src/p2p_router.c:431-455 | a filter without wildcards matches its own text only, which is why an exact topic is looked up by hash |
| TopicFilter.PendingMatchLoop | src/p2p_peer.c:209-239 | the third walk answers as its recursive matcher does |
| TopicFilter.PendingAgainstLocal | src/p2p_peer.c:209-239 | for every valid filter, it leaves out what the local matcher takes if and only if the filter ends in `#` and matches without it, and lacks the `$` rule only |
| TopicFilter.MatchersPart | src/p2p_router.c:268-294 | a filter and a topic for each difference between the three matchers and the standard |
| RouteModel.SubscribeShape | src/p2p_router.c:296-345 | what a subscribe does to the node slots: at most one slot changes, the new subscription is there, no other is lost |
| RouteModel.SubscribeKeepsHoused | src/p2p_router.c:296-345 | owners, keys and routes stay unique and every route keeps its subscription, over any next hop and with full tables too |
| RouteModel.SubscribeKeepsSound | src/p2p_router.c:296-345 | so does what a peer's removal relies on, for every subscribe that strands no route |
| RouteModel.SubscribeSoundIff | src/p2p_router.c:314-330 | with routes and subscriptions in step, it stays if and only if the subscribe does not move an unset hop to another peer than the owner with all slots used |
| RouteModel.OrphansIffStrands | src/p2p_router.c:314-384 | and the new hop's removal then leaves a route without its subscription if and only if the subscribe was such a move |
| RouteModel.UnsubscribeKeepsSound | src/p2p_router.c:347-369 | the same for a withdrawal |
| RouteModel.RemoveKeepsSound | src/p2p_router.c:371-384 | the same when a peer leaves |
| RouteModel.RunKeepsSound | src/p2p_router.c:296-384 | in every state reached without such a move, zero next hops and full tables included, no live route lacks its subscription |
| RouteModel.SubscribeSync | src/p2p_router.c:314-342 | for every next hop, routes stay exactly the live subscriptions over their nodes' hops if and only if the subscribe does not move the hop of a node whose slots are full |
| RouteModel.StaleMove | src/p2p_router.c:314-330 | a full node whose hop moves to its owner keeps its route over the old hop |
| RouteModel.UnsubscribeSync | src/p2p_router.c:347-369 | a withdrawal keeps routes and subscriptions equal |
| RouteModel.RemoveSync | src/p2p_router.c:371-384 | so does removing a peer |
| RouteModel.RunKeepsSync | src/p2p_router.c:296-384 | over every run without such a move, zero next hops included, routes are exactly the live subscriptions |
| RouteModel.ZeroHopLeavesOrphan | src/p2p_router.c:314-318 | a run with a stranding move, from a zero next hop, that ends with a route without its subscription |
| RouteModel.HopsArePlainScan | src/p2p_router.c:421-496 | the query over the route index names a hop if and only if a scan of all node slots finds a matching filter over it |
| RouteModel.RoutesFit | src/p2p_router.c:18-20 | live routes inject into the subscription slots, so there are never more of them |
| RouteMeaning.SubscribeHeld | src/p2p_router.c:319-336 | afterwards the subscription is held at its new QoS if there was a slot for it, and everything else is held as before |
| RouteMeaning.SubscribeHops | src/p2p_router.c:314-318 | the owner is then reached over the sender exactly when the sender is the owner, or there was no hop but the zero id; other owners as before |
| RouteMeaning.SubscribeAnswer | src/p2p_router.c:330-344 | the answer is true if and only if there was a slot and the subscription is new, or at another QoS, or its owner's next hop was set |
| RouteMeaning.UnsubscribeMeaning | src/p2p_router.c:347-369 | exactly the one subscription goes, and the answer is true if and only if it was held |
| RouteMeaning.UnsubscribeNodes | src/p2p_router.c:347-369 | a node is kept over its hop while it holds another filter, and given up otherwise |
| RouteMeaning.RemoveHeld | src/p2p_router.c:371-384 | the subscriptions of the peer and of owners reached over it go, and no other |
| RouteTable.EmptyEndsProbe | src/p2p_router.c:433-455 | stopping at the first empty slot misses no live route of the filter |
| RouteTable.FillKeepsReachable | src/p2p_router.c:112-134 | filling a slot reached before any empty one keeps every live route reachable from its home |
| RouteTable.AlwaysRoom | src/p2p_router.c:330-342 | whenever a subscription slot was found, both route tables have room for its route, however many tombstones there are |
| RouteTable.WriteIsPut | src/p2p_router.c:121-134 | the write that ends an upsert replaces the key's route or adds it, and touches no other key |
| RouteTable.EraseIsDrop | src/p2p_router.c:170-180 | turning the key's slot into a tombstone removes its route and no other |
| RouteTable.Router.constructor | src/p2p_router.c:18-54 | the empty table satisfies the invariant |
| RouteTable.Router.ExactUpsert | src/p2p_router.c:99-135 | never fails, never stores a key twice, keeps every route reachable |
| RouteTable.Router.WildcardUpsert | src/p2p_router.c:137-168 | the same over the linear table |
| RouteTable.Router.ExactRemove | src/p2p_router.c:170-180 | drops exactly the key and leaves a tombstone that keeps later routes reachable |
| RouteTable.Router.WildcardRemove | src/p2p_router.c:182-192 | drops exactly the key |
| RouteTable.Router.ExactRemoveNode | src/p2p_router.c:194-203 | drops exactly the routes owned by or going over the peer |
| RouteTable.Router.WildcardRemoveNode | src/p2p_router.c:205-214 | the same for wildcard routes |
| RouteTable.Router.NodeRoutesRefresh | src/p2p_router.c:224-232 | every live subscription of the node gets a route over its next hop |
| RouteTable.Router.FindNode | src/p2p_router.c:234-256 | the owner's slot, or a free one made its own, or none |
| RouteTable.Router.RecordSub | src/p2p_router.c:312-336 | the node's slot after the hop is settled and the filter recorded, and whether anything changed |
| RouteTable.Router.RemoteSubscribe | src/p2p_router.c:296-345 | over any next hop, tables and return value are those of the value-level subscribe; no route is ever lost for want of a slot |
| RouteTable.Router.RemoteUnsubscribe | src/p2p_router.c:347-369 | exactly the one subscription goes from the tables, and the answer, on which the withdrawal is relayed, is whether it was held |
| RouteTable.Router.RemoveNodeAndRoutes | src/p2p_router.c:371-384 | clears exactly the nodes and routes of the peer, and keeps the invariant when no route was stranded |
| RouteTable.Router.ExactHops | src/p2p_router.c:431-464 | the probe collects every wanted hop of the topic's own filter, without repeats |
| RouteTable.Router.FindNextHops | src/p2p_router.c:421-496 | without repeats, only wanted hops, and as many of them as the caller has room for |
| MeshRouting.KnownAfter | src/p2p_peer.c:982-992 | after a SUB frame an owner is known over its old hop, or newly over the sender, which replaces an old hop only as the owner itself or when that hop is the zero id; nobody is forgotten |
| MeshRouting.ReceiveRelays | src/p2p_peer.c:982-992 | a router that learns from a frame sends it on to each linked broker but the sender; a leaf, or one that learns nothing, sends nothing |
| MeshRouting.ReceiveKeepsInv | src/p2p_peer.c:982-992 | among brokers that do not present the zero id, recording and relaying one frame keeps: every hop is the owner or learned of it strictly earlier |
| MeshRouting.RunKeepsInv | src/p2p_peer.c:982-992 | while no broker presents the zero id, the invariant holds in every reachable state of the mesh |
| MeshRouting.WalkDescends | src/p2p_router.c:314-318 | along a walk of next hops the time of first learning strictly falls |
| MeshRouting.LoopFree | src/p2p_router.c:314-318 | while no broker presents the zero id, in every reachable state no walk over next hops or routes to an owner visits a broker twice, and none is stuck before the owner |
| MeshRouting.NextHopsEndAtOwner | src/p2p_router.c:314-318 | under the same guard, from every broker that has a next hop for an owner, following next hops ends at the owner |
| MeshGossip.ZeroIdLoops | src/p2p_router.c:314-318 | a run with a broker of the zero id after which next hops go round a ring and never reach the owner |
| MeshGossip.SubscribeLowers | src/p2p_router.c:312-342 | with one QoS for each filter of an owner, a subscribe that changes something uses up one of the changes its table can still take |
| MeshGossip.GossipEnds | src/p2p_peer.c:982-992 | under that condition the frames received in a run and those on the way are at most brokers squared times table size, plus brokers per announcement |
| MeshGossip.TwoQosNeverEnd | src/p2p_peer.c:982-992 | after two announcements of one filter at different QoS values there are runs with as many receptions as one likes |
| MeshPublish.SeenMeaning | src/p2p_peer.c:721-743 | a lookup hits if and only if the key was looked up before and no other key fell into its slot since |
| MeshPublish.PublishSends | src/p2p_peer.c:1458-1513 | one frame to the linked shard owner, else to each linked next hop, else to every linked peer, under the next running number |
| MeshPublish.ReceiveSends | src/p2p_peer.c:854-891 | a frame seen before is dropped; another is delivered once, and by a router sent to each linked hop |
| MeshPublish.KeysDiffer | src/p2p_peer.c:1478 | two publishes of a broker have different keys while it makes fewer than 65536 from one to the other |
| MeshPublish.RunKeepsMemory | src/p2p_peer.c:721-743 | whatever the route queries answer meanwhile, while its slot is kept a broker's cache holds a publish exactly when the broker has handled it, once |
| MeshPublish.HandledAtMostOnce | src/p2p_peer.c:854-891 | while its cache slot is kept, a publish is handled at most once by each broker, in every run and over changing route tables |
| MeshPublish.StepMeasure | src/p2p_peer.c:854-891 | each delivery lowers the measure: unseen brokers times (peers + 1) plus frames on the way |
| MeshPublish.FramesBounded | src/p2p_peer.c:854-891 | over changing route tables too, frames of one publish delivered or on the way are at most brokers times (peers + 1), plus peers per publication |
| MeshDelivery.QueryCoversOthers | src/p2p_router.c:421-476 | in a full mesh the route query names every other broker with a matching filter and only linked ones, even when a broker's own filters were relayed back to it |
| MeshDelivery.PublishHandsOver | src/p2p_peer.c:1496-1498 | a publish sent to its shard owner leaves a frame at the owner and has not been handled anywhere |
| MeshDelivery.PublishSpreads | src/p2p_peer.c:1489-1506 | a publisher that owns the shard, or is not linked to its owner, covers every other subscriber |
| MeshDelivery.OwnerForwards | src/p2p_peer.c:882-890 | handling at the shard owner covers every other subscriber |
| MeshDelivery.FullMeshDelivers | src/p2p_peer.c:1458-1513 | when no frame of a publish is left, every broker but the publisher with a matching filter has handled it, on both branches |
| MeshEcho.EchoNeeds | src/p2p_peer.c:854-891 | in a full mesh, over every run, a publisher handles its own publish only if a target forwards it to a third broker with a route over the publisher |
| MeshEcho.EchoVia | src/p2p_peer.c:854-891 | and whenever that is so there is a run in which it does |
| MeshEcho.EchoIff | src/p2p_peer.c:854-891 | some run brings a publish back to its publisher if and only if the tables hold such a way |
| MeshEcho.EchoIsHandled | src/p2p_peer.c:1496-1513 | a publish of a subscriber to its shard owner that comes back, in a mesh of three |
| MeshSetup.AlwaysSlot | src/p2p_router.c:234-256 | in a mesh whose brokers fit the tables, an announced filter always finds a node and a slot |
| MeshSetup.RunTold | src/p2p_peer.c:893-916 | in every reachable state a filter announced to a broker is on the way to it or held over its owner, whatever was relayed before or after |
| MeshSetup.GossipMakesDirect | src/p2p_peer.c:982-992 | with every filter announced to everyone and no frame left, each table holds every other broker's filters over their owners |
| MeshSetup.AnnouncedMeshDelivers | src/p2p_peer.c:854-891 | after such a gossip a publish reaches every other broker with a matching filter by the time none of its frames is left |
| MeshReach.RunSpreads | src/p2p_peer.c:982-992 | in every reachable state a neighbour of a broker that has a filter has it or will be told |
| MeshReach.EveryoneHas | src/p2p_peer.c:982-992 | in a connected mesh of routers every broker has every filter when gossip is over |
| MeshReach.GossipLeads | src/p2p_router.c:312-342 | every broker then has a route for each of them, over a link, to the owner or a broker that learned of it earlier |
| MeshReach.HandlerSends | src/p2p_peer.c:854-891 | a broker that handles a publish sends it on towards a subscriber, or has it from its own next hop |
| MeshReach.MeshDelivers | src/p2p_peer.c:1458-1513 | over such tables every other subscriber has handled a publish when none of its frames is left, unless the shard owner alone had it from the publisher and routes back over it |
| MeshReach.GossipDelivers | src/p2p_peer.c:1458-1513 | the same over the tables gossip leaves in any connected mesh |
| MeshReach.ChainMisses | src/p2p_peer.c:1496-1498 | a run in which the exception holds and the subscriber never has the publish |
| MeshPeer.Peer.SeenBefore | src/p2p_peer.c:721-743 | the in-place cache does what the value-level lookup does |
| MeshPeer.Peer.SendFromRouter | src/p2p_peer.c:435-465 | sends once to each connected next hop of a route query |
| MeshPeer.Peer.PublishFromLocal | src/p2p_peer.c:1458-1513 | drops what may not be published, else takes the next running number and sends to the peers the step relation names; kept for later exactly above QoS 0 when routes were found and none of their hops is connected |
| MeshPeer.Peer.HandlePublish | src/p2p_peer.c:854-891 | delivers if and only if the publish was not seen, and forwards as the step relation says |
| TopicModel.SummaryIsMaximum | src/topic.c:124-142 | the count-and-maximum pass gives the largest QoS among a filter's live subscriptions |
| TopicModel.SummaryAfterWrite | src/topic.c:293-359 | how a filter's largest QoS follows a written slot, and that no other filter's changes |
| TopicModel.SummaryAfterFree | src/topic.c:379-425 | how it follows a freed slot |
| TopicModel.NoteChange | src/topic.c:317-357 | notifying exactly on a change keeps the replayed notifications equal to the table and all of them effective |
| TopicModel.SubscribedUnique | src/topic.c:290-342 | a client never holds a filter in two slots |
| TopicModel.SubscribedMeaning | src/topic.c:275-363 | one slot, free or the client's own for the filter, takes the subscription at its new QoS, if there is one; all others stay |
| TopicModel.SubscribedServes | src/topic.c:535-586 | the client is then served wherever the filter matches, and everyone as before elsewhere |
| TopicModel.UnsubscribedMeaning | src/topic.c:365-427 | exactly the client's slot for the filter is freed |
| TopicModel.UnsubscribedServes | src/topic.c:535-586 | the client is then served if and only if another of its subscriptions matches, and others as before |
| TopicModel.FirstIsHighestMeaning | src/topic.c:588-622 | a client's source subscription is its largest match if and only if the exact one covers the wildcards, or without it the first listed wildcard the others |
| TopicModel.HighestQosIff | src/topic.c:588-642 | a client is served at min(publish, largest matching subscription) for every publish QoS if and only if that holds |
| TopicModel.OverlapBelowHighest | src/topic.c:588-608 | a table in which a client with a matching subscription at QoS 2 is served at QoS 0 |
| TopicTable.ChainInsert | src/topic.c:82-94 | a slot put in front of a list gives the chain with that slot first |
| TopicTable.ChainRemove | src/topic.c:96-121 | unlinking a member gives the chain without it, at the head or inside |
| TopicTable.PartitionAfterFill | src/topic.c:82-94 | each live slot is on the list of its own bucket, or on the wildcard list, and on no other |
| TopicTable.PartitionAfterFree | src/topic.c:96-121 | the same after a slot is freed |
| TopicTable.Table.constructor | src/topic.c:196-206 | the initial table satisfies the invariant, with nothing advertised |
| TopicTable.Table.ExactListInsert | src/topic.c:82-88 | the bucket's list gains the slot in front, all others stay |
| TopicTable.Table.ExactListRemove | src/topic.c:96-108 | the bucket's list loses exactly the slot |
| TopicTable.Table.WildcardListInsert | src/topic.c:90-94 | the wildcard list gains the slot in front |
| TopicTable.Table.WildcardListRemove | src/topic.c:110-121 | the wildcard list loses exactly the slot |
| TopicTable.Table.Subscribe | src/topic.c:275-363 | the slots are those of the plain table, lists stay acyclic and partition the live slots, and at most one notification keeps the advertised summary exact |
| TopicTable.Table.Unsubscribe | src/topic.c:365-427 | exactly the client's slot for the filter is freed, lists stay acyclic and partition the live slots, and at most one notification keeps the advertised summary exact |
| TopicTable.Table.UnsubscribeAll | src/topic.c:429-485 | frees exactly the client's slots, one step and notification at a time |
| TopicTable.HitsAreSubscribers | src/topic.c:535-586 | the matches on the topic's bucket and on the wildcard list are exactly those of a scan of the table |
| TopicTable.Table.PublishQos0 | src/topic.c:535-586 | reaches exactly the clients owning a matching subscription, each once; both walks terminate |
| TopicTable.Table.PublishQos | src/topic.c:588-642 | the same set, each client once, at min(publish, subscription) QoS of its exact subscription if any, else its most recently inserted matching wildcard, with its next packet id |
| TopicTable.NumberedMeaning | src/topic.c:509-530 | above QoS 0 a delivery takes its client's counter plus one, never zero, and the counter keeps it; at QoS 0 it takes none |
| TopicTable.Table.DeliveredAtHighest | src/topic.c:588-642 | under that condition a delivery of the in-place publish is at min(publish, largest matching subscription) |
| TopicTable.ExactSource | src/topic.c:596-608 | the slot met on the topic's bucket is the client's source subscription |
| TopicTable.WildSource | src/topic.c:610-622 | so is the first matching wildcard slot of a client not met before |
| Qos2.StartInStep | src/client.c:702-727 | both receivers take the same slot when a handshake starts |
| Qos2.FinishInStep | src/broker.c:716-730 | on release the mesh path publishes what the client path published before |
| Qos2.ClientAnswers | src/client.c:684-734 | the client path closes exactly on what is listed there, and to all else sends the answer its QoS calls for |
| Qos2.ClientPublishes | src/client.c:702-734 | what it publishes and which slot changes, for every packet |
| Qos2.MeshAnswers | src/broker.c:651-730 | the mesh path closes only on a new QoS 2 id with no slot left; what it answers, publishes and stores otherwise |
| Qos2.MeshTracks | src/broker.c:651-671 | over every trace that fits, refused packets included, the mesh path holds exactly the open handshakes and has published the completed ones |
| Qos2.ReceiversAgree | src/broker.c:651-671 | over every trace that fits and holds nothing refused, same ids in the same slots, same replies, published multisets differing by the pending messages, each handshake publishing once |
| Qos2.OverflowCloses | src/broker.c:651-671 | a trace that does not fit closes the mesh ingress connection |
| Qos2.ClosesAtRefused | src/client.c:303-330 | the client path answers what comes before the first refused packet and nothing more |
| Qos2.SameRepliesIff | src/client.c:684-727 | the two receivers send the same replies if and only if what comes before the first refused packet fits and the mesh path has nothing to answer from there on |
| Qos2.SameRepliesIffFits | src/client.c:702-727 | with nothing refused, if and only if the trace fits |
| Qos2.RefusedParts | src/client.c:684-688 | a publish to `#` and a PUBREL with id 0 after which the mesh path answers and the client path does not |
| Qos2.FullTableLosesMessage | src/client.c:719-725 | with all slots taken the handshake of a packet that is not refused is answered in full and its message never published |
| Qos2.SecondOfTwoIsLost | src/client.c:719-725 | so it is with one slot and two messages |
| Qos2.ClientReceiver.HandlePublish | src/client.c:670-734 | the topic check and the publish-on-receipt step, in place |
| Qos2.ClientReceiver.HandleRelease | src/client.c:245-378 | the checks on a PUBREL and the release step, in place |
| Qos2.MeshReceiver.Find | src/broker.c:480-488 | the slot of an open handshake, or none |
| Qos2.MeshReceiver.Alloc | src/broker.c:490-498 | the first free slot, or none |
| Qos2.MeshReceiver.HandlePublish | src/broker.c:651-671 | the store-then-release step, in place |
| Qos2.MeshReceiver.HandleRelease | src/broker.c:716-730 | the release step, in place; nothing is sent for id 0 |
| Packet.RemainingLengthInverts | src/packet.c:9-53 | every length below 2^28 decodes back whatever bytes follow (section 2.2.3 of MQTT 3.1.1) |
| Packet.ShortFieldsAgree | src/client.c:515-530 | a shorter bound reads the same length if and only if the field does not use the last byte |
| Packet.FourByteFields | src/client.c:515-530 | two fields the decoder takes and the socket loops refuse |
| Packet.DecodeRemainingLen | src/packet.c:9-32 | the loop computes the decoding function |
| Packet.EncodeRemainingLen | src/packet.c:34-53 | succeeds exactly below 2^28, writes exactly the encoding and nothing beyond four bytes |
| Packet.RecvPacket | src/client.c:503-544 | reads off exactly one frame, or closes |
| Packet.RecvMqttPacket | src/broker.c:346-376 | reads the same frame as the client path from every stream |
| Packet.ReceiveInvertsFraming | src/client.c:503-544 | a framed packet is received as it was and the stream goes on after it |
| Packet.TooLongIsRefused | src/client.c:531-535 | a packet of more than 704 bytes is not received |
| PublishCodec.ParseInvertsBuild | src/packet.c:207-248 | parsing a built PUBLISH returns the message, whatever the limits and earlier id |
| PublishCodec.PublishLayout | src/packet.c:390-429 | the bytes of a PUBLISH, section 3.3 of MQTT 3.1.1 |
| PublishCodec.BuildInvertsParse | src/packet.c:390-429 | rebuilding a parsed PUBLISH returns its bytes if and only if its topic is neither empty nor with wildcards and the buffer is large enough |
| PublishCodec.WildcardTopicParsed | src/packet.c:207-248 | a packet to topic `#` is parsed and cannot be rebuilt |
| PublishCodec.BuildInjective | src/packet.c:390-429 | different messages have different frames |
| PublishCodec.SetDupIsDup | src/client.c:466-486 | setting the DUP bit in a stored frame is building the message with DUP |
| PublishCodec.BuildPublish | src/packet.c:390-429 | the buffer holds exactly the frame, or the call fails when it cannot fit |
| PublishCodec.ParsePublish | src/packet.c:207-248 | the reads by position compute the parsing function, errors included |
| PublishCodec.ReadStrAt | src/packet.c:62-81 | a length-prefixed string at a position, or an error |
| PeerFrame.ParseInvertsBuild | src/p2p_peer.c:650-678 | parsing a built mesh frame returns the message, on either byte order |
| PeerFrame.FrameLayout | src/p2p_peer.c:615-648 | the bytes of a mesh frame, field by field, on either byte order |
| PeerFrame.BuildInvertsParse | src/p2p_peer.c:615-648 | rebuilding a parsed mesh frame returns its bytes if and only if the topic field holds no zero byte |
| PeerFrame.ZeroByteCuts | src/p2p_peer.c:650-678 | a frame with a zero byte in its topic, read as a shorter one |
| PeerFrame.BuildFrame | src/p2p_peer.c:615-648 | the buffer holds exactly the frame, or the call fails |
| Inflight.LivesOk | src/client.c:436-486 | in every run each stored message resends its PUBLISH, differing in DUP only, until PUBREC, then only its PUBREL (sections 3.3.1.1 and 4.3.3 of MQTT 3.1.1) |
| Inflight.NextKeepsInv | src/client.c:341-362 | each step keeps that, and that no two slots carry the same message |
| Inflight.RetryGrows | src/client.c:466-486 | at a retry a message grows its log by one resend if its slot was last sent at least five seconds ago, and by nothing otherwise |
| Inflight.InFlightIsResent | src/client.c:466-486 | so in every reachable state a message in flight is resent at each retry that comes five seconds after it was last sent |
| Inflight.PubrecMeaning | src/client.c:341-362 | the first slot waiting for a PUBREC answers it with its PUBREL, once; a PUBREC nothing waits for does nothing |
| Inflight.AckMeaning | src/client.c:454-464 | the first slot holding the id is freed, whatever its QoS, and nothing else happens |
| Inflight.StoreMeaning | src/client.c:436-452 | the first free slot takes the message, of which nothing was resent yet; with none free nothing happens |
| Inflight.FreedIsSilent | src/client.c:454-464 | once its slot is freed a message is never sent again, over every run that follows |
| Inflight.AckedIsSilent | src/client.c:454-464 | so an acknowledged message is never sent again |
| Inflight.AckFrees | src/client.c:454-464 | an acknowledgement frees the message of the first slot holding the id |
| Inflight.Table.StoreFrame | src/client.c:436-452 | the first free slot, or the message is not tracked |
| Inflight.Table.Acknowledge | src/client.c:454-464 | frees that slot and no other |
| Inflight.Table.HandlePubrec | src/client.c:341-362 | turns the first waiting QoS 2 slot into its PUBREL and sends it |
| Inflight.Table.RetryDue | src/client.c:466-486 | resends exactly the due slots, in slot order, setting DUP on a PUBLISH only |
| Session.ResumeIsByteIdentical | src/client.c:156-179 | a QoS 1 frame in flight, decoded, queued and rebuilt is the original with DUP set if and only if it was not retained |
| Session.RetainedComesBackPlain | src/session.c:160-173 | a retained message in flight that comes back as one that is not |
| Session.DecodesFrame | src/client.c:156-179 | the saved message is the one the frame was built from, marked as duplicate |
| Session.FillsInOrder | src/session.c:139-158 | filling an empty queue keeps arrival order and drops what comes when it is full |
| Session.QueueHoldsOwed | src/session.c:139-224 | in every reachable state the queue holds what is owed, oldest first, as far as its slots reach |
| Session.DrainOrder | src/session.c:160-185 | a drain emits the saved frames in slot order, then the accepted offline messages in publish order |
| Session.SavedComeFirst | src/session.c:160-185 | while a client stays away, what it is owed starts with the frames saved at its disconnect |
| Session.NothingMissed | src/session.c:187-224 | for a client that is here, at QoS 0, or without a matching subscription above QoS 0, nothing is queued |
| Session.MissedMeaning | src/session.c:187-224 | otherwise the publish is queued in the first free slot with its topic, payload and DUP, at the smaller QoS, under the next id, never zero |
| Session.DisconnectMeaning | src/session.c:124-137 | a disconnect keeps the first four subscriptions, a return empties the queue |
| Session.MissedIsDelivered | src/session.c:160-224 | in every reachable state with room, what a client will be sent on its return grows by a frame that parses to the publish with only QoS, id and RETAIN replaced |
| Session.MissedIsStored | src/session.c:160-185 | and that frame is then in flight under its id and QoS |
| Session.ResumeResends | src/client.c:156-179 | the QoS 1 frames unacknowledged in any reachable in-flight state are the first sent on return, in slot order, byte for byte with DUP, and in flight again under their ids |
| Session.PersistentSession.EnqueueMsg | src/session.c:139-158 | the first free slot, or the message is dropped |
| Session.PersistentSession.SaveInflight | src/client.c:156-179 | every decodable QoS 1 slot is queued in slot order |
| Session.PersistentSession.DecodeSlot | src/client.c:160-175 | the decoding of a slot, errors included |
| Session.PersistentSession.Disconnected | src/client.c:150-179 | keeps the subscriptions and saves the frames, as one step of a session's life |
| Session.PersistentSession.PublishWhileAway | src/session.c:187-224 | queues at the QoS of the first matching saved subscription, with a fresh packet id |
| Session.PersistentSession.Drain | src/session.c:160-185 | sends the queue's encoded messages in slot order, puts those above QoS 0 in flight again, and empties it |
| ExchangeSort.Sort | src/p2p_election.c:256-264 | the exchange loops leave a sorted arrangement of the same elements |
| ExchangeSort.SortedIsUnique | src/p2p_shard.c:229-237 | of the arrangements of distinct elements one only is sorted, so the start order does not matter |
| Election.LogIsFloor | src/p2p_election.c:37-45 | the logarithm is the only number between the neighbouring powers of two |
| Election.FloorLog2 | src/p2p_election.c:37-45 | the doubling loop computes it |
| Election.BestCandidate | src/p2p_election.c:70-102 | the running maximum ends at the least candidate of maximal reward |
| Election.TargetCount | src/p2p_election.c:54-104 | the fixed count, everyone, or the best candidate, as configured |
| Election.RewardTerms | src/p2p_election.c:81-93 | the reward of a candidate count, with its weights |
| Election.TargetCases | src/p2p_election.c:54-104 | the count in each case: few nodes, few busy nodes, a configured count, the least best candidate |
| Election.TargetIsUnique | src/p2p_election.c:54-104 | there is one such count, between 1 and the number of nodes |
| Election.WinnerCount | src/p2p_election.c:266-274 | exactly the target number of places, or all of them, have fewer than that many ahead |
| Election.ElectedAreBest | src/p2p_election.c:256-274 | the nodes in the first places number min(k, n); with one of them are all of a higher score, and those of the same score and a smaller id |
| Election.NodesElectTheBest | src/p2p_election.c:227-295 | n running nodes with the same scores in any table order and the same fixed count k hold exactly min(k, n) router roles: those of the highest scores, among equals those of the smallest ids |
| Election.SelfDecides | src/p2p_election.c:266-274 | finding oneself among the first places of the sorted table is having fewer than the target ahead |
| Election.HeardReplacesPlace | src/p2p_election.c:323-358 | an announcement replaces its sender's place and no other |
| Election.Node.constructor | src/p2p_election.c:297-309 | a new node knows itself only and is a router |
| Election.Node.ExpireOldPeers | src/p2p_election.c:204-214 | clears exactly the peers not heard of for the timeout, never the node itself |
| Election.Node.RecomputeRole | src/p2p_election.c:227-295 | expires, refreshes the own slot, and takes the role its place among the scores calls for |
| Election.Node.UpdatePeer | src/p2p_election.c:323-358 | stores an announcement in its sender's slot or a free one, or drops it, then recomputes |
| ShardKey.KeyFromStr | src/p2p_shard.c:147-174 | the copying loop and the trimming loop compute the key |
| ShardKey.KeyOfOneLevel | src/p2p_shard.c:147-174 | the key of a name of one level is the name, up to 127 characters |
| ShardKey.KeyOfTwoLevels | src/p2p_shard.c:147-174 | the key of a longer name is its first two levels, whatever follows |
| ShardKey.EmptyKeyIff | src/p2p_shard.c:147-174 | the names with an empty key are the empty one, those starting with a wildcard, `/`, and those starting with `/` and a slash or wildcard |
| ShardKey.SharesKeyIffPinned | src/p2p_shard.c:147-174 | a valid filter has the key of every topic it matches if and only if it has no wildcard or two slashes before its first |
| ShardKey.PinnedSharesKey | src/p2p_shard.c:147-174 | that half holds for filters and topics of any length |
| ShardOwner.ChooseOwner | src/p2p_shard.c:217-239 | the router whose rank by id is the key's hash modulo their number, or none without routers |
| ShardOwner.OwnerAgreement | src/p2p_shard.c:217-239 | a key has at most one owner among given routers, whatever the table order |
| ShardOwner.OwnsItsShare | src/p2p_shard.c:217-239 | each router owns exactly the keys whose hash leaves its rank, and there is such a remainder for each |
| ShardOwner.AnswersAgreeIff | src/p2p_shard.c:186-248 | two nodes that know the same routers give the same answer if and only if the key is not empty and there is a router |
| ShardOwner.FilterMeetsTopicIff | src/p2p_shard.c:250-264 | a pinned filter placed at one node and a topic it matches published at another get the same owner under the same condition |
| ShardOwner.DoubleSlashSplits | src/p2p_shard.c:194-196 | the valid pinned filter `//x` matches itself and every node takes it for its own |
| Probing.WrappedProbe | src/p2p_shard.c:72 | probing from an unreduced 32-bit hash whose sum wraps visits consecutive slots when the size divides 2^32 |
| ShardCache.StoreKeeps | src/p2p_shard.c:96-114 | a store leaves the table sound, holds the new fact, and without eviction every fact of another key |
| ShardCache.SharedCache.Lookup | src/p2p_shard.c:66-83 | misses only keys not held; a hit is the owner last stored for that signature and key |
| ShardCache.SharedCache.Store | src/p2p_shard.c:96-114 | the key's slot, the first empty one, or the home slot of a full table |
| ShardCache.ThreadCache.Lookup | src/p2p_shard.c:117-131 | a hit is exactly one of the latest eight results |
| ShardCache.ThreadCache.Store | src/p2p_shard.c:133-144 | the new result takes the place of the oldest |
| ShardCache.Locator.OwnerFromKey | src/p2p_shard.c:186-248 | an empty key is one's own; otherwise a remembered or computed owner, and the right answer whenever signatures have determined the routers |
| ShardCache.Locator.OwnerForName | src/p2p_shard.c:250-264 | the same for a topic or filter, through its key |

## Left out

- Sockets, poll loops, threads, timers and mutexes: each locked operation or received packet is one atomic step, and sending to a connected peer succeeds.
- Discovery over UDP, static seeds and their retry, connection set-up and teardown in `src/p2p_peer.c`: links are given and stay.
- SUB resynchronisation, the publishes held for a subscription that has not arrived (`pending_qos_store`, `flush_pending_qos_for_filter`), and UNSUB frames in `MeshRouting`: loop freedom is claimed for announcing and relaying over stable links.
- MeshDelivery.FullMeshDelivers: all brokers are routers, and route tables stay as gossip left them while publishes travel; so in `MeshReach`.
- MeshReach.MeshDelivers: what becomes of the excepted subscribers is not characterised; another way may reach them.
- MeshGossip.GossipEnds: announcements are counted, not bounded; QoS changes of a subscription are bounded by nothing, as `MeshGossip.TwoQosNeverEnd` shows.
- MeshRouting: the next hops of nodes not announced are not claimed to exist; what is claimed is that those that exist lead to the owner.
- RouteTable.Router.RemoteSubscribe: requires tables whose routes all have their subscriptions, so a subscribe after a stranded route has outlived its node is not covered.
- MeshPeer.Peer.PublishFromLocal: says whether a publish is kept for peers not yet connected, not what becomes of it; an empty topic, which uses up a running number, is no step of `MeshPublish`. The frame bytes sent are in `PeerFrame`.
- PeerFrame: parsing is a function, since the source reads fixed offsets without a loop.
- Retained messages, wills, CONNECT and SUBSCRIBE parsing, authentication, admission limits and keep-alive.
- The session pool (`session_find`, `session_create`, `session_delete`): one persistent session is modelled.
- Session: a drain reads the clock once here, and once for each stored frame in the code.
- Inflight: the copy of the same machine for mesh ingress clients (`src/broker.c:500-582`) is not modelled a second time.
- Inflight: the client path also closes the connection on an acknowledgement with id 0, which matches no slot here.
- Inflight.Table.StoreFrame: with all slots in use the message is sent but not tracked, as in the code; nothing is claimed for it.
- Packet ids across a resume can repeat; their uniqueness is not claimed.
- The mesh ingress clients' own subscriptions and their share in advertisements (`src/broker.c:67-92`, `src/broker.c:416-466`): the advertised summary is that of `src/topic.c` alone.
- TopicTable: each operation and its notification are one step; the build without the mesh is not modelled.
- Election: the topology signature and the resynchronisation it triggers, the peer budget (the same best-candidate loop with other weights), and the computation of a node's own score, which is a parameter.
- Election.TargetCount: rewards are assumed to fit a C `int`.
- ShardCache.Locator.OwnerFromKey: a signature hashes the own role from before it was recomputed, so that signatures determine the routers is a condition here, not a claim.
- ShardCache.SharedCache.Lookup: the table size divides 2^32, as both configured sizes do.
- Strings are assumed to fit their buffers, except in `ShardKey`, which models the cut at 127 characters.
- The hash functions are parameters; nothing is said about their spread.
- HTTP dashboard, command line, tools and platform shims.
