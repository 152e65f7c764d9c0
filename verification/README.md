# Sentel: a verified model of the broker core

Sentel is an IoT platform whose heart is an MQTT broker. This project models the broker's stateful
core and three smaller stateful pieces in Dafny, and proves properties of the model that hold for
every input, every history and every interleaving:

- the topic tree and the session manager that drives it (`Texts`, `Topics`, `TopicModel`,
  `TopicSearch`, `TopicTree`, `SessionDestroy`, `SessionManagers`, `Queues`);
- the blocking queue, as a state machine over the steps of any number of threads (`SyncQueue`,
  `SyncLinear`);
- the MQTT packet codec, the connection and the session (`Codec`, `Transport`, `PacketObject`,
  `Packets`, `Connects`, `Options`, `Connection`, `TransientLists`, `Outbound`, `Deliveries`,
  `SessionModel`, `SessionRuns`, `SessionWire`, `SessionPackets`, `Sessions`);
- the LRU cache (`LruCache`, `LruHistory`), the rule engine (`RuleModel`, `RuleEngines`) and the QPS
  monitor (`QpsMonitors`).

Objects that the Go code updates in place are classes whose methods are proved against functions on
values; the theorems about whole histories are lemmas about those functions. A Go string is a sequence
of bytes. Concurrency appears as a step relation (the queue) or as a sequence of inputs (the session's
main loop, whose inputs include the messages that other goroutines put into its queue). Clocks, map
iteration order, the network with its failing writes and the answers of other services are parameters or
are left open, so that every theorem holds whatever they are.

`dafny verify dfyconfig.toml` checks everything.

## Main results

1. Publishing reaches exactly the clients whose last operation on the topic was a subscribe, once
   each, with the qos of that subscription and all other fields as published, whatever order the tree's
   maps are iterated in
   (`SessionManagers.SessionManager.OnTopicPublish`, `TopicSearch.DeliveryExact`,
   `TopicModel.HistoryRefines`), as long as no "+" or live "#" node competes with the published path; for
   a topic that somebody is subscribed on that condition is exact, and for any other the exact condition
   is that no walk of the search leads to a subscription (`TopicSearch.ExactIffUnrivalled`,
   `TopicSearch.ServesIff`).
2. No wakeup is lost in any interleaving (`SyncQueue.RunInvariant`, `SyncQueue.StuckMeansServed`), and the
   queue is linearisable: every call takes effect once, while it is under way, and buffer, flag and answers
   are those of a queue that one thread uses on its own (`SyncLinear.Linearisable`,
   `SyncLinear.AnswersInPlace`); `close` releases every sleeper if and only if there is at most one
   (`SyncQueue.CloseReleasesAllIff`).
3. Round trips: remaining length, PUBLISH from the sender's buffer to the receiver's fields, streams of
   PUBACK, lists of SUBSCRIBE filters, CONNECT and the request options in it, each with its exact
   condition. The readers are also sound: whatever PUBLISH, SUBSCRIBE, UNSUBSCRIBE, CONNECT or request
   options are accepted have the form that the round trip starts from (`Packets.PublishSound`,
   `Packets.FiltersSound`, `Packets.TopicsSound`, `Connects.ConnectSound`, `Options.OptionsSound`).
4. The session's main loop does, for every sequence of inputs, packets that arrived in pieces included,
   and for every pattern of failing writes, what a step function on values says: state, events, bytes on
   the wire, queue and result (`Sessions.MqttSession.Handle`). For every such run the states move forward,
   the channels close once, SessionDestroy comes once and last, and the will is published exactly when the end is an error and a
   will is stored (`SessionRuns.RunRests`, `SessionRuns.WillIffAborted`); a run ends in an error exactly
   when its last input has one of seven named faults, without one exactly when its last input is a valid
   DISCONNECT, and it crashes or hangs exactly when the input, the queue, the retained list and the writes
   that the connection will still take say so (`SessionRuns.RunEndsIff`, `Outbound.NotifyEnds`).
5. QoS 1 messages are conserved over every run, whether or not writes fail (`Outbound.Conservation`,
   `SessionRuns.SessionConserves`, `Outbound.LedgerBalances`).
6. Over a connection that does not fail, every byte of a run is accounted for: the frames of the retained
   and the queued messages in order, under identifiers that count up (`Deliveries.NotifyWrites`,
   `SessionWire.RunWrites`), and for each type of packet the literal events and bytes of the answer
   (`SessionPackets.ConnectStep`, `SessionPackets.PublishStep`, `SessionPackets.SubscribeStep` and the
   lemmas beside them).
7. The LRU cache of capacity c holds a key exactly when fewer than c other keys were set since
   (`LruHistory.ResidentIff`), the rule engine refines a flat table and its cleaner is invisible
   (`RuleModel.EngineRefinesTable`, `RuleModel.CleanIsInvisible`), and the QPS monitor is exact if and
   only if every second pulsed before the window has been overwritten
   (`QpsMonitors.ExactIffRefreshed`, and `QpsMonitors.ExactAtIff` when it is asked later).

## Where the code falls short of its intent

Each of these is a theorem with an exact condition, and where useful a concrete example.

- Destroying a session iterates the index it is shifting: in a tidy index every second topic survives
  except the last, so all subscriptions go if and only if there are at most two
  (`SessionDestroy.DestroyClearsIffAtMostTwo`, `SessionDestroy.DestroyThreeLeavesMiddle`).
- `close` says that after it pop returns without blocking; it signals one sleeper only
  (`SyncQueue.CloseReleasesAllIff`, `SyncQueue.CloseStrandsSecondSleeper`).
- `writeUint16` keeps four bits of each byte: a topic length or packet identifier survives if and only
  if both of its bytes are below 16 (`Codec.Uint16RoundTrip`, `Packets.PublishRoundTrip`).
- A remaining length of 0 is encoded as no byte at all (`Codec.LengthRoundTrip`), and PINGRESP is sent
  with a remaining length of 1 (`Sessions.MqttSession.HandlePingReq`).
- A body that arrives in more than one chunk keeps only the last chunk (`Transport.CopyNWholeIff`).
  Indexing behind it goes out of range, while slicing reaches on into the copy buffer and finds what is
  left of earlier chunks (`Transport.TwoChunks`, `PacketObject.Packet.ReadByte`,
  `PacketObject.Packet.ReadBytes`). A packet that is all there never does this, whatever it contains
  (`SessionRuns.WholeNeverBeyond`); a PUBACK whose two bytes come apart kills every session
  (`SessionRuns.SplitPubAckKills`).
- A flush whose writes fail for ever sends the same message again and again (`Outbound.HangIsForever`).
  It hangs if and only if the connection is dead and will take fewer writes than messages that fit a
  packet are to be sent (`Outbound.FlushEnds`).
- The retained list loses a slot of its buffer with every removal; fifteen removals are always safe and
  sixteen can be fatal (`TransientLists.SafeBelowSixteen`, `TransientLists.SixteenthRemovalBreaks`); a run
  goes out of range exactly when it pushes onto a list without slots (`TransientLists.OutOfRangeIff`).
- Retained messages keep packet identifier 0. A PUBACK therefore releases something if and only if it
  carries identifier 0 and a message is retained, and then always the oldest (`Outbound.AckReleasesIff`);
  the PUBACK for the identifier under which a message was last sent finds that message if and only if the
  identifier is 0 and the message is the oldest (`Outbound.AckFindsItsMessageIff`,
  `Outbound.SecondAckLost`).
- Packet identifier 0 is handed out, twice in a row at each wrap (`Outbound.PacketIdsRepeatOnlyAtWrap`),
  although section 2.3.1 of MQTT Version 3.1.1 asks for non-zero identifiers.
- CONNECT refuses an empty client identifier even from a clean session, and every client without both
  username and password (`Connects.ConnectRoundTrip`), although sections 3.1.2.8 and 3.1.2.9 of MQTT
  Version 3.1.1 allow both to be absent, or the password alone.
- The comment on the request options closes them with a second bar; no such identifier is ever accepted
  (`Options.ClosingBarRefused`).
- A notification or a well-formed PUBACK before CONNECT kills the session (`SessionRuns.StepEndsIff`).
- `updateRule` installs a rule without a pipeline, so executing a started rule fails if and only if some
  started rule was updated (`RuleModel.ExecuteFailsIff`).
- After a silent stretch the QPS monitor counts old pulses (`QpsMonitors.SilenceMisleads`); asked in a later
  second than that of the last pulse, it still reports the count of that second, which is right only when a
  whole window has passed and all pulses went to one slot (`QpsMonitors.ExactAtIff`); and with a
  window above a minute it spreads the pulses of one minute over the whole window
  (`QpsMonitors.LongWindowDilutes`).

## Model

| member | source | states |
|---|---|---|
| `Topics.Split` | broker/sessionmgr/topic_tree_simple.go:70-73 | splitting a topic gives at least one level, none of which contains a slash: the "Invalid topic" error cannot happen |
| `Texts.JoinOfSplit` | broker/sessionmgr/topic_tree_simple.go:70 | joining the parts gives the text back |
| `Topics.SplitInjective` | broker/sessionmgr/topic_tree_simple.go:70 | different topics have different paths |
| `Texts.SplitOfJoin` | broker/sessionmgr/topic_tree_simple.go:70 | every non-empty list of parts without the separator is the split of its join |
| `TopicModel.ShiftedOut` | broker/sessionmgr/topic_tree_simple.go:127-138 | the in-place shift keeps the length of the index and moves every entry behind the removed one down by one, doubling the last |
| `TopicModel.RunQueuesOwned` | broker/sessionmgr/session_manager.go:184-200 | a stored subscription always carries its own client's queue |
| `TopicModel.HistoryRefines` | broker/sessionmgr/topic_tree_simple.go:65-140 | after any history the tree holds (client, topic) if and only if the client's last operation on that topic was a subscribe, and holds the data of that subscribe |
| `TopicModel.RunSound` | broker/sessionmgr/topic_tree_simple.go:65-140 | in every reachable tree the paths are prefix-closed, subscriptions sit on the path of their topic, and every live subscription is in its client's index |
| `TopicModel.LiveIsIndexed` | broker/sessionmgr/topic_tree_simple.go:82-88 | no live subscription is ever missing from its client's topic index, despite the in-place shift |
| `TopicSearch.OutcomeExists` | broker/sessionmgr/topic_tree_simple.go:143-160 | for every tree and topic the search has a result under some iteration order |
| `TopicSearch.SearchSound` | broker/sessionmgr/topic_tree_simple.go:143-160 | whatever the iteration order, a node that is found exists and its path matches the published levels under the wildcard rules of section 4.7.1 of MQTT Version 3.1.1 |
| `TopicSearch.UnrivalledIsExact` | broker/sessionmgr/topic_tree_simple.go:143-160 | without a competing wildcard node along the path every iteration order finds exactly the published path, or nothing when it is absent |
| `TopicSearch.RivalMisleads` | broker/sessionmgr/topic_tree_simple.go:143-160 | with a competing wildcard node some iteration order misses an existing exact path |
| `TopicSearch.ExactIffUnrivalled` | broker/sessionmgr/topic_tree_simple.go:143-160 | every iteration order finds an existing exact path if and only if no wildcard node competes |
| `TopicSearch.OutcomeIffLeads` | broker/sessionmgr/topic_tree_simple.go:143-160 | some iteration order ends at a node if and only if a walk leads there: every step but the last takes the next level or "+", and the last one the last level, "+", or a "#" with children |
| `TopicSearch.RivalExample` | broker/sessionmgr/topic_tree_simple.go:143-160 | with nodes "a" and "+" both are possible answers for topic "a" |
| `TopicSearch.UnrivalledWhenWildcardFree` | broker/sessionmgr/topic_tree_simple.go:65-89 | a history of wildcard-free filters never creates a competing node |
| `TopicSearch.DeliveryExact` | broker/sessionmgr/topic_tree_simple.go:163-185 | when nothing competes, the clients served and the subscriptions used are exactly those whose last operation on the topic was a subscribe |
| `TopicSearch.ServesIff` | broker/sessionmgr/topic_tree_simple.go:163-185 | after any history, every iteration order serves exactly the clients subscribed on the topic, through those subscriptions, if and only if nothing competes with its path, or, when nobody is subscribed on it, no walk leads to a subscription |
| `TopicSearch.DeliveryWildcardFree` | broker/sessionmgr/topic_tree_simple.go:163-185 | the same for every history of wildcard-free filters, every topic and every iteration order |
| `TopicTree.SimpleTopicTree.constructor` | broker/sessionmgr/topic_tree_simple.go:240-249 | a new tree is the tree of the empty history |
| `TopicTree.SimpleTopicTree.AddNode` | broker/sessionmgr/topic_tree_simple.go:51-62 | keeps the heap shape (one node per path, children and paths agree) and gives the node one level down, creating it only if it is missing |
| `TopicTree.SimpleTopicTree.MakePath` | broker/sessionmgr/topic_tree_simple.go:77-80 | the node reached is the node of the whole path, and exactly its missing prefixes are created |
| `TopicTree.SimpleTopicTree.AddSubscription` | broker/sessionmgr/topic_tree_simple.go:65-89 | the heap tree stays the tree of its history, which grows by this subscribe |
| `TopicTree.SimpleTopicTree.Walk` | broker/sessionmgr/topic_tree_simple.go:116-123 | following child pointers finds the node of the path if and only if the tree has one |
| `TopicTree.SimpleTopicTree.GetSubscription` | broker/sessionmgr/topic_tree_simple.go:223-238 | succeeds if and only if the client's last operation on the topic was a subscribe, and returns that subscription |
| `TopicTree.SimpleTopicTree.RemoveSubscription` | broker/sessionmgr/topic_tree_simple.go:112-140 | the heap tree stays the tree of its history, which grows by this unsubscribe; an error means that there was nothing to remove |
| `TopicTree.SimpleTopicTree.ShiftIndex` | broker/sessionmgr/topic_tree_simple.go:127-138 | the loop shifts the first occurrence out of the client's index in place |
| `TopicTree.SimpleTopicTree.SearchNode` | broker/sessionmgr/topic_tree_simple.go:143-160 | terminates, and its result is one of the outcomes the search relation allows, with an arbitrary iteration order |
| `TopicTree.SimpleTopicTree.AddMessage` | broker/sessionmgr/topic_tree_simple.go:163-185 | each open queue in the tree receives one copy, with its subscription's qos, no dup flag and every other field unchanged, if its client is subscribed at the node found, and nothing otherwise |
| `TopicTree.Deliver` | broker/sessionmgr/topic_tree_simple.go:169-184 | the loop over the subscribers, in any order, enqueues one copy per client, with that client's qos and no dup flag |
| `SessionDestroy.SnapshotClears` | broker/sessionmgr/session_manager.go:169-172 | removing every topic of a snapshot of the index leaves the client no subscription, after any history |
| `SessionDestroy.DestroySurvivors` | broker/sessionmgr/session_manager.go:169-172 | the literal loop over the shared array leaves exactly the topics its walk does not visit |
| `SessionDestroy.DestroyLeavesExactly` | broker/sessionmgr/session_manager.go:169-172 | after any history a subscription survives the loop if and only if the shifting walk skips it and it is not the last index entry |
| `SessionDestroy.DestroyedHistory` | broker/sessionmgr/session_manager.go:158-175 | what the loop leaves of a client is unchanged, and every other client keeps every subscription with its data |
| `SessionDestroy.TidySurvivor` | broker/sessionmgr/session_manager.go:169-172 | in an index without repetitions or dead entries, exactly the odd positions before the last survive |
| `SessionDestroy.DestroyClearsIffAtMostTwo` | broker/sessionmgr/session_manager.go:169-172 | for such a client the loop removes everything if and only if the index has at most two topics |
| `SessionDestroy.DestroyThreeLeavesMiddle` | broker/sessionmgr/session_manager.go:169-172 | with any three different topics the middle one survives |
| `SessionManagers.SessionManager.OnTopicSubscribe` | broker/sessionmgr/session_manager.go:178-202 | the tree's history grows by the subscribe if the event is local or persistent and the client has a queue, and otherwise not |
| `SessionManagers.SessionManager.OnTopicUnsubscribe` | broker/sessionmgr/session_manager.go:205-213 | the tree's history grows by the unsubscribe if the event is local or persistent |
| `SessionManagers.SessionManager.OnTopicPublish` | broker/sessionmgr/session_manager.go:216-225 | unless a wildcard node competes with the published path, exactly the open queues of clients whose last operation on the topic was a subscribe gain one message, given field by field: topic, payload and retain flag of the event, the qos of that subscribe, no dup flag, identifier 0; all others are unchanged |
| `SessionManagers.SessionManager.OnSessionDestroy` | broker/sessionmgr/session_manager.go:158-175 | a persistent session is left alone; any other loses its session and queue, its subscriptions that remain are exactly those the shifting walk misses, unchanged, and no other client loses anything |
| `Queues.MessageQueue.Pushback` | broker/queue/queue_transient.go:46-53 | appends the message unless the queue is closed |
| `Queues.MessageQueue.TryPop` | broker/queue/sync_queue.go:65-80 | takes the oldest message; on an empty queue it answers ok exactly when the queue is closed |
| `SyncQueue.MoveExclusive` | broker/queue/sync_queue.go:38-109 | every step keeps mutual exclusion |
| `SyncQueue.MoveNoLostWakeup` | broker/queue/sync_queue.go:38-109 | every step keeps the balance of items, pending signals and woken threads while a popper sleeps |
| `SyncQueue.RunInvariant` | broker/queue/sync_queue.go:38-109 | mutual exclusion, no lost wakeup, linearisation and delivery hold in every reachable state, for any number of threads |
| `SyncQueue.SleepersAreCovered` | broker/queue/sync_queue.go:38-54 | whenever the lock is free and a popper sleeps, there are at most as many items as woken poppers |
| `SyncQueue.StuckMeansServed` | broker/queue/sync_queue.go:38-54 | when no thread can move, every thread has finished or sleeps, and sleepers are left only on an empty buffer |
| `SyncQueue.MoveLinear` | broker/queue/sync_queue.go:38-90 | every step keeps the accepted items equal to the items taken followed by the buffer |
| `SyncQueue.MoveDelivered` | broker/queue/sync_queue.go:38-80 | every step keeps the items taken and the threads that return them in agreement |
| `SyncQueue.Linearised` | broker/queue/sync_queue.go:38-90 | in every interleaving the accepted items are those popped, in lock order, followed by the buffer; an empty pop or an ok empty tryPop happens only when the queue is closed and drained |
| `SyncLinear.Linearisable` | broker/queue/sync_queue.go:38-109 | every interleaving: each call takes effect exactly once, as the call it is and while it is under way; buffer, closed flag and every answer are those of a sequential queue given the effects in order; the items accepted are exactly those pushed before the first close |
| `SyncLinear.AnswersInPlace` | broker/queue/sync_queue.go:38-80 | in the order of effects a pop returns the oldest item, or nothing from a closed and empty queue; a tryPop the oldest item with ok, or nothing, with ok if and only if a close came before |
| `SyncQueue.SettledForever` | broker/queue/sync_queue.go:83-109 | once the queue is closed and the close signal has been sent, no sleeper is ever woken again |
| `SyncQueue.CloseReleasesAllIff` | broker/queue/sync_queue.go:102-109 | close wakes the one sleeper it signals and no other, in every continuation: all are released if and only if there was at most one |
| `SyncQueue.CloseStrandsSecondSleeper` | broker/queue/sync_queue.go:100-109 | two sleeping poppers and a close: whichever is signalled, the other sleeps forever, against the comment on close |
| `Codec.EncodeRefuses` | broker/mqtt/mqtt_packet.go:148-159 | a remaining length is refused if and only if it exceeds 268435455 |
| `Codec.LengthRoundTrip` | broker/mqtt/mqtt_packet.go:146-156 | decoding an encoded length, whatever follows it, gives the length back and consumes exactly its bytes, if and only if the length is not 0 |
| `Codec.DecodeBounds` | broker/mqtt/mqtt_packet.go:207-223 | the decoder consumes between one and four bytes and its value fits in that many |
| `Codec.EncodingMinimal` | broker/mqtt/mqtt_packet.go:146-156 | no byte string that decodes to a length is shorter than its encoding |
| `Codec.EncodingPrefixFree` | broker/mqtt/mqtt_packet.go:146-156 | of two different lengths other than 0 neither encoding is a prefix of the other |
| `Codec.Uint16RoundTrip` | broker/mqtt/mqtt_packet.go:319-342 | a written 16-bit integer is read back if and only if both of its bytes are below 16 |
| `Codec.StringRoundTrip` | broker/mqtt/mqtt_packet.go:292-316 | a written string is read back if and only if its length survives the mask |
| `Codec.FullStringAt` | broker/mqtt/mqtt_packet.go:292-304 | a string written as section 1.5.3 of MQTT Version 3.1.1 asks is always read back |
| `Transport.CopyNTakes` | broker/mqtt/mqtt_packet.go:187-190 | copying n bytes from a segmented stream consumes the first n bytes, or all there are |
| `Transport.CopyNWholeIff` | broker/mqtt/mqtt_packet.go:187-190 | the buffer holds all n bytes if and only if they arrive in one chunk that fits the copy buffer; otherwise it is too short |
| `Transport.TwoChunks` | broker/mqtt/mqtt_packet.go:187-190 | after a body in two chunks the copy buffer holds the second chunk, then what it left of the first, then zeros |
| `Transport.StoredLast` | broker/mqtt/mqtt_packet.go:187-190 | however many chunks there are, the copy buffer keeps its length and has the last chunk at its front |
| `Transport.ReadLengthDecodes` | broker/mqtt/mqtt_packet.go:207-223 | reading the length byte by byte gives the same answer however the stream is segmented |
| `Transport.FrameArrives` | broker/mqtt/mqtt_packet.go:198-241 | a frame is decoded to its header and length and the stream is left just behind it; the body is whole if and only if it arrives in one chunk, and too short otherwise |
| `PacketObject.Packet.InitializePacket` | broker/mqtt/mqtt_packet.go:143-179 | fails exactly on lengths the encoding refuses; otherwise the buffer has room for exactly header and body, the header is written and the rest is zero |
| `PacketObject.Packet.EncodeRemaining` | broker/mqtt/mqtt_packet.go:146-159 | the loop writes the length encoding, cut off after five bytes |
| `PacketObject.Packet.WriteByte` | broker/mqtt/mqtt_packet.go:259-266 | appends the byte if the buffer has room |
| `PacketObject.Packet.WriteBytes` | broker/mqtt/mqtt_packet.go:279-289 | appends all bytes or none |
| `PacketObject.Packet.WriteUint16` | broker/mqtt/mqtt_packet.go:332-342 | appends as many of the two masked bytes as there is room for, and fails if not both fit |
| `PacketObject.Packet.WriteString` | broker/mqtt/mqtt_packet.go:307-316 | appends the masked length and the string, or as much of the length as fits when the string does not |
| `PacketObject.Packet.ReadByte` | broker/mqtt/mqtt_packet.go:249-256 | reads the next byte or fails at the end; crashes exactly when the header promises a byte beyond the slice |
| `PacketObject.Packet.ReadBytes` | broker/mqtt/mqtt_packet.go:269-276 | reads the next bytes if the header promises enough, stale ones beyond the slice included; crashes exactly beyond its capacity |
| `PacketObject.Packet.ReadUint16` | broker/mqtt/mqtt_packet.go:319-329 | reads a 16-bit integer, most significant byte first, fails without moving, or crashes at the end of the slice |
| `PacketObject.Packet.ReadString` | broker/mqtt/mqtt_packet.go:292-304 | reads a length-prefixed string within the promised length, and when it does not fit stays behind the length; crashes exactly when the length lies beyond the slice or the string beyond its capacity |
| `PacketObject.Packet.CopyFrom` | broker/mqtt/mqtt_packet.go:187-190 | every chunk replaces the slice, so the last one remains, over what earlier ones left in the buffer |
| `PacketObject.Packet.DecodeRemaining` | broker/mqtt/mqtt_packet.go:207-223 | the loop over the packet's counter and multiplier computes the decoded length and refuses a fifth byte |
| `PacketObject.Packet.DecodeFromReader` | broker/mqtt/mqtt_packet.go:198-241 | succeeds exactly when a whole packet is in the stream, and leaves the packet and the stream as the decoding function says |
| `Packets.PublishHeaderFields` | broker/mqtt/mqtt_session.go:615-619 | the flags handlePublish extracts are those initializePacket assembled |
| `Packets.PublishRoundTrip` | broker/mqtt/mqtt_session.go:609-648 | parsing what sendPublish builds recovers every field if and only if the topic length and, above QoS 0, the identifier survive the mask |
| `Packets.PublishBytes` | broker/mqtt/mqtt_session.go:809-832 | the frame in literal bytes: type, dup and qos flags, length, masked topic length, topic, masked identifier above QoS 0, payload |
| `Packets.PublishReads` | broker/mqtt/mqtt_session.go:609-648 | every body written as section 3.3 of MQTT Version 3.1.1 asks is read back field by field, unless the payload exceeds the configured size |
| `Packets.PublishSound` | broker/mqtt/mqtt_session.go:609-648 | no other body is ever accepted |
| `Packets.PublishDelivered` | broker/mqtt/mqtt_session.go:809-832 | such a frame, sent over any connection that delivers its body in one chunk, is received field by field whatever follows it |
| `Packets.AcksRoundTrip` | broker/mqtt/mqtt_session.go:768-780 | a stream of PUBACKs reads back as the list of identifiers sent, in order |
| `Packets.FiltersRoundTrip` | broker/mqtt/mqtt_session.go:543-573 | every well-formed list of filters is read back in order |
| `Packets.FiltersSound` | broker/mqtt/mqtt_session.go:543-573 | from any body exactly the filters that stand there are read, up to bytes that are none; the list is accepted if and only if nothing follows it |
| `Packets.SubAckIdentifier` | broker/mqtt/mqtt_session.go:753-765 | the client finds its identifier in the SUBACK if and only if it survives the mask |
| `Packets.TopicsRoundTrip` | broker/mqtt/mqtt_session.go:590-603 | every well-formed list of topics to unsubscribe is read back in order |
| `Packets.TopicsSound` | broker/mqtt/mqtt_session.go:590-603 | from any body exactly the topics that stand there are read, up to bytes that are none; the list is accepted if and only if nothing follows it |
| `Connects.ConnectRoundTrip` | broker/mqtt/mqtt_session.go:281-383 | the verdict on every well-formed CONNECT, with or without username and password: code 2 for an empty identifier, else code 4 unless both are there, else the request read back whole |
| `Connects.ConnectSound` | broker/mqtt/mqtt_session.go:281-397 | whatever is accepted is a complete well-formed request in its own bytes, behind a protocol name and version that go together; only the high bit of the version and, for 3.1, the lowest flag and the header flags go unchecked |
| `Options.ParseRequestOptions` | broker/mqtt/mqtt_session.go:855-895 | the loop over the options computes the parsing function of the round trip |
| `Options.OptionsRoundTrip` | broker/mqtt/mqtt_session.go:855-895 | identifier, device, product and every list of options without separators inside are read back, the options taken in order |
| `Options.AtoiReads` | broker/mqtt/mqtt_session.go:875-888 | decimal digits of n read as n, with either sign, within 64 bits and not beyond |
| `Options.OptionsMean` | broker/mqtt/mqtt_session.go:855-895 | such a request is accepted if and only if every option is securemode with a number, signmethod, or timestamp with an unsigned number, and then each field of the result has its last value |
| `Options.OptionsSound` | broker/mqtt/mqtt_session.go:855-895 | whatever is accepted has that form |
| `Options.ClosingBarRefused` | broker/mqtt/mqtt_session.go:852-870 | an identifier that closes its options with a bar, as the comment has it, is never accepted |
| `Connection.Conn.WritePacket` | broker/mqtt/mqtt_session.go:834-850 | a packet goes out whole if and only if no write fails; a failing write leaves on the wire the bytes it took |
| `Connection.WriteCases` | broker/mqtt/mqtt_session.go:834-850 | a write leaves the whole frame on the wire, the part before the failure, or on a dead connection nothing |
| `TransientLists.TransientList.Resize` | broker/queue/list_transient.go:30-34 | the buffer gets twice the count and no element is lost |
| `TransientLists.TransientList.Pushback` | broker/queue/list_transient.go:42-48 | appends, doubling a full buffer, and goes out of range exactly when the buffer has no slot |
| `TransientLists.TransientList.Get` | broker/queue/list_transient.go:51-56 | the element at an index below the count, else nothing |
| `TransientLists.TransientList.Remove` | broker/queue/list_transient.go:59-70 | drops the first element with that identifier, keeps the order of the rest, and shrinks the buffer by its slot; a buffer of more than sixteen slots that is then exactly a quarter full is halved |
| `TransientLists.PushedIs` | broker/queue/list_transient.go:42-48 | the slots after a push: doubled exactly when the buffer was full |
| `TransientLists.RemovedIs` | broker/queue/list_transient.go:59-70 | messages and slots after a removal, with or without a match, in literal numbers |
| `TransientLists.ListRefinesSeq` | broker/queue/list_transient.go:30-70 | any run that does not go out of range holds what a plain sequence would, and its buffer loses at most one slot per removal |
| `TransientLists.SafeBelowSixteen` | broker/queue/list_transient.go:30-70 | every run with fewer than sixteen effective removals stays in range |
| `TransientLists.OutOfRangeIff` | broker/queue/list_transient.go:30-70 | a run goes out of range if and only if it pushes onto a list that the operations before have left without slots |
| `TransientLists.SixteenthRemovalBreaks` | broker/queue/list_transient.go:30-70 | sixteen push and remove cycles leave a buffer without slots, and the next push goes out of range |
| `Outbound.PacketIdClosedForm` | broker/mqtt/mqtt_session.go:799-807 | the n-th identifier is n modulo 65536, except 0 where that residue is 65535 |
| `Outbound.PacketIdsRepeatOnlyAtWrap` | broker/mqtt/mqtt_session.go:799-807 | within 65536 calls two identifiers are equal if and only if both are the 0s around a wrap |
| `Outbound.Conservation` | broker/mqtt/mqtt_session.go:207-235 | over any run and any connection the retained list followed by the queued QoS 1 messages is the ledger of pending arrivals, the retained part marked dup |
| `Outbound.HangIsForever` | broker/mqtt/mqtt_session.go:218-232 | a flush that hangs makes no progress in any number of rounds |
| `Outbound.FlushEnds` | broker/mqtt/mqtt_session.go:218-232 | every flush: it hangs if and only if the connection is dead and will take fewer writes than messages that fit a packet are to be sent; otherwise it goes out of range if and only if the retained list has no slot and a QoS 1 message is queued; otherwise it ends well |
| `Outbound.NotifyEnds` | broker/mqtt/mqtt_session.go:207-235 | the same for a notification, whose resending uses up one write for each retained message that fits a packet |
| `Deliveries.CounterAhead` | broker/mqtt/mqtt_session.go:799-807 | the counter after n more identifiers is its value plus n modulo 65536 |
| `Deliveries.NotifyWrites` | broker/mqtt/mqtt_session.go:207-235 | over a connection that does not fail, a notification writes and logs exactly the retained messages and then the queued ones, in order and once each, dup flag included, under identifiers that count up from the counter; a list without a slot stops it behind the first QoS 1 message |
| `Deliveries.WireIsLog` | broker/mqtt/mqtt_session.go:207-235 | over any run on such a connection the wire is the frames of the log, and everything logged was written |
| `Outbound.FewAcksNeverPanic` | broker/queue/list_transient.go:42-70 | with fewer than sixteen messages acknowledged no run takes the retained list out of range |
| `Outbound.PendingInOrder` | broker/mqtt/mqtt_session.go:207-235 | pending messages keep their order of arrival |
| `Outbound.LedgerBalances` | broker/mqtt/mqtt_session.go:687-699 | arrivals are exactly pending plus acknowledged, pending in order, and each PUBACK removes at most one |
| `Outbound.AckReleasesIff` | broker/mqtt/mqtt_session.go:687-699 | a PUBACK releases a message if and only if its identifier is 0 and one is retained, and then exactly the oldest |
| `Outbound.NonzeroAcksReleaseNothing` | broker/mqtt/mqtt_session.go:809-832 | so a run of PUBACKs with other identifiers leaves every QoS 1 arrival pending |
| `Outbound.LastIdsLogged` | broker/mqtt/mqtt_session.go:809-832 | the identifier kept for each retained message is one it was sent under |
| `Outbound.AckFindsItsMessageIff` | broker/mqtt/mqtt_session.go:687-699 | the PUBACK for the identifier a retained message was last sent under finds it if and only if the identifier is 0 and the message is the oldest |
| `Outbound.SecondAckLost` | broker/mqtt/mqtt_session.go:687-699 | two messages go out under 0 and 1, and the PUBACK for 1 releases nothing |
| `Sessions.MqttSession.constructor` | broker/mqtt/mqtt_session.go:73-102 | a session starts as the model's new session |
| `Sessions.MqttSession.MakePacketId` | broker/mqtt/mqtt_session.go:799-807 | draws the identifier and moves the counter as the closed form assumes |
| `Sessions.MqttSession.SendPublish` | broker/mqtt/mqtt_session.go:809-832 | writes the PUBLISH frame as far as the connection takes it, draws an identifier only above QoS 0 and reports exactly whether the write succeeded |
| `Sessions.MqttSession.BuildPublish` | broker/mqtt/mqtt_session.go:817-831 | the writers fill the allocated buffer exactly with the frame; an oversized message leaves it empty |
| `Sessions.MqttSession.SendCommandWithPacketId` | broker/mqtt/mqtt_session.go:768-780 | writes the acknowledgement with both identifier bytes in full and reports exactly whether the write succeeded |
| `Sessions.MqttSession.SendConnAck` | broker/mqtt/mqtt_session.go:740-750 | writes a CONNACK with the given flag and return code, as far as the connection takes it |
| `Sessions.MqttSession.SendSubAck` | broker/mqtt/mqtt_session.go:753-765 | writes a SUBACK with the masked identifier and the return codes and reports whether the write succeeded |
| `Sessions.MqttSession.ResendList` | broker/mqtt/mqtt_session.go:208-217 | sends every retained message again, in order, whether or not writes fail, and changes neither list nor queue |
| `Sessions.MqttSession.FlushQueue` | broker/mqtt/mqtt_session.go:218-232 | drains the queue in order, retrying failed writes, and retains the QoS 1 messages; ends, goes out of range or hangs as the model says |
| `Sessions.MqttSession.HandleDataAvailable` | broker/mqtt/mqtt_session.go:207-235 | takes the delivery step of the conservation model, over any connection |
| `Sessions.MqttSession.HandlePubAck` | broker/mqtt/mqtt_session.go:687-699 | removes the retained message selected by the identifier; a promised length other than two is an error; before CONNECT, or when the two bytes are not there, it crashes |
| `Sessions.MqttSession.HandlePublish` | broker/mqtt/mqtt_session.go:609-684 | one event per packet that parses, is permitted and has QoS 0 or 1, with a PUBACK carrying the received identifier for QoS 1, whose loss is an error; otherwise an error or a crash without any effect |
| `Sessions.MqttSession.TakePublish` | broker/mqtt/mqtt_session.go:609-645 | reads the packet as the parsing function of the round trip does, over a body of any number of chunks |
| `Sessions.MqttSession.HandleSubscribe` | broker/mqtt/mqtt_session.go:533-579 | one event per filter in order up to the first that is malformed or not there, and a SUBACK with the requested qos list exactly when the packet is well formed; its loss is an error |
| `Sessions.MqttSession.TakeFilter` | broker/mqtt/mqtt_session.go:543-560 | each round reads one filter and moves the position by at least three bytes, fails or crashes |
| `Sessions.MqttSession.HandleUnsubscribe` | broker/mqtt/mqtt_session.go:582-606 | one event per topic in order up to the first that is malformed or not there, and an UNSUBACK exactly when the packet is well formed; its loss is an error |
| `Sessions.MqttSession.HandlePubRel` | broker/mqtt/mqtt_session.go:702-717 | a PUBCOMP with the received identifier, or an error or a crash without any effect; its loss is an error |
| `Sessions.MqttSession.HandlePingReq` | broker/mqtt/mqtt_session.go:720-737 | the bytes of PINGRESP, with a remaining length of 1; their loss is an error |
| `Sessions.MqttSession.Disconnect` | broker/mqtt/mqtt_session.go:501-530 | ends an open session once, the will first if the reason is an error, and does nothing to a session that has ended |
| `Sessions.MqttSession.HandleDisconnect` | broker/mqtt/mqtt_session.go:483-498 | a valid DISCONNECT discards the will and ends the session; an invalid one is an error that changes nothing |
| `Sessions.MqttSession.TakeConnect` | broker/mqtt/mqtt_session.go:281-383 | reads the request as the verdict function says, records protocol and keep alive as far as they were read, and answers a refusal with its return code |
| `Sessions.MqttSession.HandleConnect` | broker/mqtt/mqtt_session.go:277-480 | the model's CONNECT step: only a new session accepts, an unreadable request gets the answer of its first fault, bad options none, a failed authentication ends the session, and any other request brings up the session it asks for |
| `Sessions.MqttSession.Admit` | broker/mqtt/mqtt_session.go:399-479 | will, identifier and clean flag are those requested, CONNACK with the session-present flag first, then every waiting message as the delivery model says |
| `Sessions.MqttSession.HandleRequest` | broker/mqtt/mqtt_session.go:184-203 | each packet type gets the reply of its own handler, in any session state |
| `Sessions.MqttSession.HandleMqttPacket` | broker/mqtt/mqtt_session.go:177-204 | every packet, CONNECT and DISCONNECT included, has exactly the effect and the outcome of the model's step |
| `Sessions.MqttSession.HandleInput` | broker/mqtt/mqtt_session.go:152-163 | packets, notifications, arriving messages and read errors have exactly the effect and the outcome of the model's step |
| `Sessions.MqttSession.Handle` | broker/mqtt/mqtt_session.go:152-174 | for every sequence of inputs, whole packets or not, and every pattern of failing writes, the session, the result and the number of inputs taken are those of the model's run |
| `SessionRuns.RunRests` | broker/mqtt/mqtt_session.go:152-174 | every run: states only move forward; a run that ends has closed the channels once, with SessionDestroy last and the will just before it exactly when the end is an error and a will is stored; one that goes on, crashes or hangs has said and closed nothing of the kind |
| `SessionRuns.WillIffAborted` | broker/mqtt/mqtt_session.go:501-530 | over the life of a new session there is one will event if the run ended in an error with a will stored, else none, and one SessionDestroy and one closing if it ended, else none |
| `SessionRuns.StepEndsIff` | broker/mqtt/mqtt_session.go:152-174 | every round: it ends with an error exactly when the input has one of seven named faults in that state; without one exactly on a valid DISCONNECT; in a crash exactly when there is no queue for a notification or PUBACK, a packet is read beyond what is there, or the retained list has no slot for a message to be sent; in a hang exactly when a notification or an accepted CONNECT has more fitting messages to send than a dead connection takes |
| `SessionRuns.RunEndsIff` | broker/mqtt/mqtt_session.go:152-174 | the same for the last input of any run and the state it meets |
| `SessionRuns.JudgedKeeps` | broker/mqtt/mqtt_session.go:277-480 | a readable CONNECT leaves a connected session with the requested will, an ended one, or an open one in front of an error |
| `SessionRuns.ConnectEnds` | broker/mqtt/mqtt_session.go:277-480 | how every CONNECT ends: in a named fault, in a crash when it is read beyond what is there, or as the delivery of what is waiting ends after one write for CONNACK |
| `SessionRuns.WholeNeverBeyond` | broker/mqtt/mqtt_packet.go:249-329 | no packet of any type that is all there is read beyond its end |
| `SessionRuns.SplitPubAckKills` | broker/mqtt/mqtt_session.go:687-699 | a PUBACK whose two bytes arrive in two chunks crashes every session |
| `SessionRuns.AnswersInOrder` | broker/mqtt/mqtt_session.go:177-204 | over a connection that does not fail, events and bytes of any run of packets other than CONNECT, DISCONNECT and PUBACK are the replies in order, up to the first that is refused or crashes |
| `SessionRuns.AcksInOrder` | broker/mqtt/mqtt_session.go:609-684 | over any run of accepted PUBLISH packets the wire reads back as exactly the received QoS 1 identifiers in order, with one event per packet in order |
| `SessionRuns.SessionConserves` | broker/mqtt/mqtt_session.go:152-235 | whatever the inputs and the connection, as long as a run goes on, retained and queued QoS 1 messages are the ledger of arrivals less acknowledgements |
| `SessionWire.RunWrites` | broker/mqtt/mqtt_session.go:152-235 | the whole wire of any run, however it ends, over a connection that does not fail: in order the answers to packets, CONNACK in literal bytes, and with every notification and accepted CONNECT the frames of the messages to send |
| `SessionPackets.ConnectAccepted` | broker/mqtt/mqtt_session.go:399-479 | over any connection an accepted CONNECT leaves a connected session with the requested protocol, will, clean flag and keep alive and the identifier in front of the bar, announced as resumed if a persistent session was known and as created |
| `SessionPackets.ConnectWrites` | broker/mqtt/mqtt_session.go:456-479 | it writes 20 02, the session-present flag and 00, and then the frames of the waiting messages; the flag is 1 exactly for a known client that keeps its session and speaks 3.1.1 |
| `SessionPackets.ConnectStep` | broker/mqtt/mqtt_session.go:277-480 | both together for an empty queue, after which the session goes on |
| `SessionPackets.IncompleteConnectFails` | broker/mqtt/mqtt_session.go:340-393 | 20 02 00 02 for an empty identifier, else 20 02 00 04 for a missing user name or password, and the end of the session |
| `SessionPackets.OtherVersionFails` | broker/mqtt/mqtt_session.go:295-307 | 20 02 00 01 for a known protocol name with another version |
| `SessionPackets.RejectedConnectFails` | broker/mqtt/mqtt_session.go:394-411 | 20 02 00 05 for a client that is not authorised, no answer for options that cannot be read or another failure |
| `SessionPackets.NoQueueFails` | broker/mqtt/mqtt_session.go:445-452 | without a queue there is no answer, and the will of the request is published |
| `SessionPackets.SecondConnectFails` | broker/mqtt/mqtt_session.go:277-280 | a second CONNECT, and a read error, end the session with its will |
| `SessionPackets.PublishStep` | broker/mqtt/mqtt_session.go:609-684 | a permitted PUBLISH of QoS 0 or 1 and legal size is announced once with its own topic, qos, retain flag and payload, and at QoS 1 answered by 40 02 and its identifier; any other is not announced and ends the session |
| `SessionPackets.PublishOnly` | broker/mqtt/mqtt_session.go:609-645 | a PUBLISH with a body of any other form ends the session |
| `SessionPackets.SubscribeStep` | broker/mqtt/mqtt_session.go:533-579 | one event per filter with its topic and qos, in order; 90, the length, the masked identifier and the qos values if the list is whole, otherwise the end of the session |
| `SessionPackets.SubscribeBodies` | broker/mqtt/mqtt_session.go:533-579 | every body of two bytes or more is one of those that the step covers |
| `SessionPackets.UnsubscribeStep` | broker/mqtt/mqtt_session.go:582-606 | one event per topic in order; B0 02 and the identifier in full if the list is whole, otherwise the end of the session |
| `SessionPackets.UnsubscribeBodies` | broker/mqtt/mqtt_session.go:582-606 | every body of two bytes or more is one of those that the step covers |
| `SessionPackets.ShortPacketFails` | broker/mqtt/mqtt_session.go:533-606 | without an identifier they end the session |
| `SessionPackets.PubRelStep` | broker/mqtt/mqtt_session.go:702-717 | 70 02 and the identifier in full |
| `SessionPackets.PingStep` | broker/mqtt/mqtt_session.go:720-737 | D0 01 00, whatever the packet contains |
| `SessionPackets.WrongFlagsFail` | broker/mqtt/mqtt_session.go:535-537 | a 3.1.1 session ends on a PUBREL, SUBSCRIBE or UNSUBSCRIBE whose flags are not 2 |
| `SessionPackets.StrangePacketFails` | broker/mqtt/mqtt_session.go:177-204 | a packet of a server's type, or of none, ends the session |
| `SessionPackets.PubAckStep` | broker/mqtt/mqtt_session.go:687-699 | the first retained message with that identifier goes, everything else stays, and nothing is said or written |
| `SessionPackets.OtherPubAckFails` | broker/mqtt/mqtt_session.go:687-699 | another length ends the session; before CONNECT it crashes |
| `SessionPackets.DisconnectStep` | broker/mqtt/mqtt_session.go:483-498 | an empty DISCONNECT, with flags 0 for 3.1.1, ends the session without its will; any other ends it with an error |
| `SessionPackets.ArrivalStep` | broker/queue/queue_transient.go:46-53 | a message joins the end of the queue once there is one |
| `SessionPackets.WillOfConnect` | broker/mqtt/mqtt_session.go:501-530 | when a run that began with an accepted CONNECT ends in an error, the last events publish topic, qos, retain flag and payload of the will in that CONNECT and end the session, over any connection |
| `LruCache.Cache.constructor` | broker/quto/lru_cache.go:34-39 | a new cache is empty |
| `LruCache.Cache.Set` | broker/quto/lru_cache.go:45-69 | the entry moves or comes to the front and the oldest goes when the capacity is exceeded; map and list agree one to one |
| `LruCache.Cache.Get` | broker/quto/lru_cache.go:71-81 | returns the value of a resident key and moves it to the front |
| `LruCache.Cache.Remove` | broker/quto/lru_cache.go:83-94 | removes the key from map and list, and reports whether it was there |
| `LruCache.AgreeFront` | broker/quto/lru_cache.go:45-81 | moving a node to the front keeps map and list in one-to-one agreement |
| `LruHistory.CachedIsRecent` | broker/quto/lru_cache.go:45-69 | after any sets the list is the first c entries of the keys ordered by their last set |
| `LruHistory.Inclusion` | broker/quto/lru_cache.go:45-69 | the smaller cache is a prefix of the larger one |
| `LruHistory.ResidentIff` | broker/quto/lru_cache.go:45-69 | a key is resident if and only if it was set and fewer than c other keys were set since; its value is the last one set |
| `LruHistory.RunBounded` | broker/quto/lru_cache.go:45-94 | under any mix of Set, Get and Remove the keys are distinct and the size never exceeds the capacity |
| `LruHistory.InclusionWithRemovals` | broker/quto/lru_cache.go:45-94 | inclusion holds under sets and removals together |
| `LruHistory.GetKeepsInclusionIff` | broker/quto/lru_cache.go:71-81 | a Get keeps inclusion unless it hits the larger cache only while the smaller one is not empty |
| `RuleModel.DispatchRefines` | whaler/engine/engine.go:153-191 | one dispatch on the two-level table answers and acts as on a flat table of (product, rule) |
| `RuleModel.EngineRefinesTable` | whaler/engine/engine.go:142-191 | after any history of dispatches and cleanings the engine agrees with the flat table, in state and in every answer |
| `RuleModel.CleanIsInvisible` | whaler/engine/engine.go:142-150 | inserting a cleaning anywhere changes no answer and no rule |
| `RuleModel.RuleIs` | whaler/engine/executor.go:124-190 | each rule by itself: it is there if and only if it was created from a known product and a supported record and not removed since, and its status is the one given last by a start, a stop, an update or its creation |
| `RuleModel.AnswerIs` | whaler/engine/executor.go:124-190 | Create succeeds exactly for an installable rule that is not there, Update for one that is there and in the registry, Remove, Start and Stop for one that is there |
| `RuleModel.PipelineLostIffUpdated` | whaler/engine/executor.go:149-159 | a rule lacks its pipeline if and only if some successful update of it has no successful create after it |
| `RuleModel.ExecuteFailsIff` | whaler/engine/executor.go:193-205 | executing fails if and only if some started rule was updated since it was last created |
| `RuleModel.ExecuteFeedsStarted` | whaler/engine/executor.go:193-205 | without updates executing feeds exactly the started rules |
| `RuleEngines.RuleExecutor.CreateRule` | whaler/engine/executor.go:124-135 | changes the rule table as the model's create step |
| `RuleEngines.RuleExecutor.UpdateRule` | whaler/engine/executor.go:149-159 | changes the rule table as the model's update step |
| `RuleEngines.RuleExecutor.StartRule` | whaler/engine/executor.go:162-178 | starts the executor if need be, then the rule |
| `RuleEngines.RuleExecutor.Execute` | whaler/engine/executor.go:193-205 | feeds the started rules, or fails on one without a pipeline, in any iteration order |
| `RuleEngines.RuleEngine.DispatchRule` | whaler/engine/engine.go:153-191 | the engine stays the engine of its history with every executor started, and answers as the flat table does |
| `RuleEngines.RuleEngine.CleanExecutors` | whaler/engine/engine.go:142-150 | the engine stays the engine of its history, which grows by a cleaning |
| `QpsMonitors.QpsMonitor.constructor` | mns/client/qps_monitor.go:47-56 | the window is at least five seconds and the ring is empty |
| `QpsMonitors.QpsMonitor.Pulse` | mns/client/qps_monitor.go:26-35 | all indices are in range and the ring stays the ring of the pulses so far |
| `QpsMonitors.QpsMonitor.Qps` | mns/client/qps_monitor.go:37-45 | the divisor is not zero and the result is the 32-bit count of the pulses still held outside the current slot, divided by the window less one |
| `QpsMonitors.RingHolds` | mns/client/qps_monitor.go:26-35 | each bucket counts exactly the pulses of its slot since its last reset, modulo 32 bits |
| `QpsMonitors.RingTotal` | mns/client/qps_monitor.go:37-45 | the wrapping sum of the buckets is the wrapped number of pulses counted |
| `QpsMonitors.ExactIffNoStale` | mns/client/qps_monitor.go:26-45 | the pulses of the window always count, and the count is theirs exactly when no older pulse is held |
| `QpsMonitors.NoStaleIffRefreshed` | mns/client/qps_monitor.go:26-35 | no older pulse is held exactly when each older pulsed second, outside the current residue, was pulsed again later with a second of another residue pulsed in between |
| `QpsMonitors.ExactIffRefreshed` | mns/client/qps_monitor.go:26-45 | for a window dividing 60 and ordered pulses, the count is never too low, and it equals the exact count of the previous seconds if and only if that condition on the pulsed seconds holds |
| `QpsMonitors.ExactAtIff` | mns/client/qps_monitor.go:26-45 | asked in any second from the last pulse on, the pulses counted are those of the previous seconds if and only if, in the second of that pulse, the same condition holds, and later, a whole window has passed and all pulses went to one slot |
| `QpsMonitors.GaplessRateExact` | mns/client/qps_monitor.go:26-45 | with no silent second the rate is the floor of the exact average |
| `QpsMonitors.LongWindowDilutes` | mns/client/qps_monitor.go:26-45 | with a window of a minute or more and no silent second, only the pulses of the last minute count: too few exactly when some pulse of the window is a minute old |
| `QpsMonitors.SilenceMisleads` | mns/client/qps_monitor.go:26-45 | after six silent seconds four old pulses are reported as a rate of one |

## Left out

- `retainSubscription`, `retainMessage` and `deleteMessageWithValidator` of the topic tree: retained messages are not modelled.
- Delivery completeness for wildcard filters: the search follows one branch, so it is not a property of the code; soundness and the exact condition for the exact path are proved instead.
- `onSessionCreate`, virtual sessions, the session registry and the event loop of the session manager; a subscribe event finds its queue in a map that stands for the queue service.
- The observer call in `transientQueue.Pushback`; availability notifications are inputs of the session instead.
- The persistent queue and every other use of MongoDB, Redis and Kafka.
- `len` and `front` of the blocking queue: they only read.
- SessionPackets.SubscribeStep: the lemmas of `SessionPackets` are about packets that are all there; `SessionRuns.StepEndsIff` covers the others.
- Liveness of the session: the reader goroutine, the keep-alive timer and channel rendezvous. Timer and read errors are inputs.
- Writers that take fewer bytes than they were given without an error: an `io.Writer` must not do that; `writePacket` would then slice its buffer with the wrong bound.
- Sessions.MqttSession.HandleConnect: the authentication, the search for an old session and the contents of the allocated queue are answers from outside; registering the session and the metadata calls for the will have no effect here, and the queue object is the session's own, other goroutines reaching it through the inputs.
- Sessions.MqttSession.HandlePublish: the access check is an answer from outside, and the dup flag of the event, which depends on a message store, is not recorded.
- SessionRuns.SessionConserves: the queue allocated for a client is empty, as a transient one is.
- QpsMonitors.ExactIffRefreshed: for windows below a minute that do not divide 60 the slots of neighbouring minutes do not line up and no exactness is claimed; `QpsMonitors.RingHolds` and `QpsMonitors.RingTotal` cover every window.
- RuleModel.EngineRefinesTable: the registry's answers do not change during a history, and a pipeline is only present or absent.
- `Recovery` of the rule engine, which passes an action name that `dispatchRule` does not know.
- The conductor, goshiro, the mns server, the REST handlers, configuration, gRPC code, metrics and logging.
