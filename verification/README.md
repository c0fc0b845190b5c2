# pd-edge in Dafny

A model of the stateful core of pd-edge, an edge proxy runtime, with proofs of what
it guarantees. Nothing here replaces the Rust code; each module restates one
component in Dafny, and the lemmas beside it say what holds in every run. To verify
the whole project: `dafny verify dfyconfig.toml`.

| file | component |
|---|---|
| `Lru.dfy`, `LruTraces.dfy` | the bounded LRU store, in place; cache inclusion and exactness over whole traces |
| `Sharded.dfy` | the sharded store: capacity split, interleaved calls, one value per key |
| `StreamHandles.dfy` | the table of proxy byte-stream handles and their write state |
| `WriteCloseWait.dfy` | the close/wait handshake on one handle, any number of waiters and closers |
| `Relay.dfy` | the two pump loops of `proxy::forward`, and `proxy::pipe` as the one-pump run |
| `MqttCodec.dfy`, `MqttPackets.dfy`, `MqttTopics.dfy`, `MqttSession.dfy` | the MQTT 5 sample broker |
| `Latency.dfy` | the latency sample queues and their percentiles |
| `AsyncOps.dfy` | the table of pending asynchronous host operations |
| `RateLimiter.dfy` | the fixed-window rate limiter |
| `Recording.dfy` | debug recording sessions: store slot, capture, outbox |
| `HostTable.dfy`, `HostInstall.dfy` | composition of the host function table, and its installation |
| `AtomicMax.dfy` | the compare-exchange maximum of the lock metrics |
| `Queues.dfy`, `Division.dfy`, `Wrappers.dfy`, `Bytes.dfy` | shared vocabulary |

## How the model is built

State that the code updates in place is a class whose methods are proved equal to
functions on its abstract value (`Contents() == Inserted(old(Contents()), key, value)`);
the properties are lemmas about those functions. Concurrent code is a step system:
one step is one critical section, one `Notify` operation, one atomic operation or
one completed endpoint call, and a run is any sequence of enabled steps.

Assumptions about code outside the repository:

- a `Notified` future completes if `notify_waiters` is called after it was created
  (the documented meaning of tokio's `Notify`);
- atomics are relaxed: a load or a failed exchange may return any value the cell has
  had, but no older one than the same call saw before;
- the response of an HTTP exchange never becomes unavailable again, and an exchange
  refuses request bytes once its response is there
  (`src/abi_impl/http/state.rs`, lines 856-863 and 2384-2424);
- a registry transaction that returns an error leaves the registry as it was;
- a host operation identifier has at least 16 bits; hashing is any function; clock
  readings are integers; a negative elapsed time counts as zero, as in
  `Instant::duration_since`.

Where a property the design suggests is not true of the code, the model keeps the
code and states when it holds:

- both directions of a forward can wait for each other if and only if both streams are
  exchanges without a response that were written, and not closed, before the forward
  started (`BothWaitOnlyIfWritten`, `BothCanPark`);
- one value per key needs a capacity of at least one (`OneValue`,
  `ZeroCapacityKeepsNothing`);
- recording sequence numbers strictly increase if and only if at most one encoded
  capture has the largest `u32` as its number (`OutboxOfEveryRun`); for a target and a
  number of calls in flight this is guaranteed if and only if
  `target + calls - 1` fits a `u32` (`OrderKept`, `SaturationRepeats`);
- what is accepted as SUBSCRIBE or UNSUBSCRIBE is a well-formed packet, or an
  identifier followed by a property length that overruns the packet, which counts as
  one without filters (`SubscribeAccepted`, `UnsubscribeAccepted`);
- a composed host table has no repeated name if and only if the ABI has none
  (`ComposedNames`); a repeated ABI name makes installation fail (`ComposedAccepted`).

Where comments and code differ, the model follows the code:

- `src/abi_impl/registry.rs`, lines 16-18, says descriptors are ordered by name before
  the transaction; only the checks run in name order, the transaction installs them in
  the order composed. The result is the same, since names are unique by then.
- A packet type the sample broker does not know ends its session as if the client had
  disconnected.
- A SUBSCRIBE or UNSUBSCRIBE without any filter is accepted, whether its property length
  overruns the packet or not (`MalformedSubscribeAccepted`,
  `MalformedUnsubscribeAccepted`); sections 3.8.3 and 3.10.3 of MQTT 5.0 require at least
  one.

## Model

| member | source | states |
|---|---|---|
| Lru.StepValid | src/cache.rs:57-125 | every operation keeps the queue free of repetition, its keys those of the map, and the capacity respected |
| Lru.RunValid | src/cache.rs:57-125 | the same over every run |
| Lru.InsertEvictsAtMostTheOldest | src/cache.rs:65-75 | an insert stores its key, evicts at most one key and only when full, the oldest and never its own, and leaves other values alone |
| Lru.InsertedIsEvicted | src/cache.rs:65-75 | pushing the key and running the eviction loop is the one-step insert of the specification |
| Lru.RetainedLooksUp | src/cache.rs:84-93 | retaining keeps an entry exactly if it is accepted, with its value and its place in the recency order |
| Lru.RemovedLooksUp | src/cache.rs:78-81 | removing takes that key and leaves every other lookup and their order alone |
| Lru.UpdatedLooksUp | src/cache.rs:57-63 | a mutable lookup changes the value of its key, if stored, and no other |
| Lru.TouchLast | src/cache.rs:96-106 | the shortcut for a key already in last place is what moving it would give |
| Lru.BoundedLruStore.constructor | src/cache.rs:35-41 | a new store is empty |
| Lru.BoundedLruStore.Peek | src/cache.rs:52-54 | finds what is stored and changes nothing |
| Lru.BoundedLruStore.GetMut | src/cache.rs:57-63 | a hit moves the key to the back and hands out its value for update; a miss changes nothing |
| Lru.BoundedLruStore.Insert | src/cache.rs:65-75 | the store becomes the specified one, also with capacity zero, and the previous value is returned |
| Lru.BoundedLruStore.Remove | src/cache.rs:78-81 | the key leaves map and queue and its value is returned |
| Lru.BoundedLruStore.Retain | src/cache.rs:84-93 | removing the rejected keys one by one leaves exactly the kept entries, in the same recency order |
| Lru.BoundedLruStore.TouchKey | src/cache.rs:96-106 | the key becomes the most recent, others keep their order |
| Lru.BoundedLruStore.EvictToCapacity | src/cache.rs:108-115 | the loop drops oldest keys until the map fits |
| Lru.BoundedLruStore.RemoveFromLru | src/cache.rs:117-125 | the rebuilt queue is the old one without the key |
| LruTraces.StepCovers | src/cache.rs:57-125 | one operation keeps the simulation between capacities c and c+1: one queue is the other with at most one key missing, and shared values agree |
| LruTraces.Inclusion | src/cache.rs:57-125 | for any two capacities, after the same trace the smaller store's queue is the larger one's restricted to its keys, with equal values and at most the difference in extra keys |
| LruTraces.RecencyOf | src/cache.rs:57-75 | the recency queue of a use log lists each used key once, by last use |
| LruTraces.RunIsLastUsed | src/cache.rs:57-75 | after any run of inserts and lookups the queue is the last c keys of the recency queue of its own uses |
| LruTraces.Exactness | src/cache.rs:57-125 | a key is stored exactly when at most c distinct keys were used since its last use, and the queue is in order of last use |
| Sharded.ShardOfHash | src/cache.rs:270-277 | a key goes to the shard its hash leaves as remainder, so every shard gets keys |
| Sharded.CapacitySplit | src/cache.rs:155-167 | there is one shard per entry up to 32; shard capacities sum to the requested capacity, differ by at most one, and none is zero unless the capacity is |
| Sharded.RunKeepsInv | src/cache.rs:183-232 | every interleaving keeps every shard well formed and every key in the shard its hash names |
| Sharded.ShardedBound | src/cache.rs:155-167 | in every interleaving the entries never exceed the requested capacity, and a key is only in its own shard |
| Sharded.PutStores | src/cache.rs:183-193 | a put is found afterwards; another key keeps its value or is evicted, and only from the same shard |
| Sharded.ClearForgets | src/cache.rs:195-201 | clearing a shard forgets its keys and no others |
| Sharded.CallsFinish | src/cache.rs:204-232 | a get-or-insert returns at its first phase exactly if the key is there, and else at its second, the value stored by then or its own |
| Sharded.ApplyHolds | src/cache.rs:204-232 | a value returned is the one stored, and a stored value stays until it is overwritten, evicted or cleared |
| Sharded.OneValue | src/cache.rs:204-232 | with capacity at least one, all get-or-insert calls on a key in a stretch without overwrite, eviction or clear return one value, however the two lock phases interleave |
| Sharded.ZeroCapacityKeepsNothing | src/cache.rs:65-69 | with capacity zero two calls return different values with nothing in between |
| Sharded.ShardedRwLruStore.constructor | src/cache.rs:155-167 | builds the empty shards with the split capacities |
| Sharded.ShardedRwLruStore.PeekCloned | src/cache.rs:169-181 | looks the key up in its own shard |
| Sharded.ShardedRwLruStore.Insert | src/cache.rs:183-193 | only the key's own shard changes, and the invariant is kept |
| Sharded.ShardedRwLruStore.GetOrInsertWithCloned | src/cache.rs:204-232 | returns the stored value, or creates, stores and returns it |
| Sharded.ShardedRwLruStore.Clear | src/cache.rs:195-201 | afterwards no key is found and capacities are unchanged |
| StreamHandles.ReservedHandlesInvert | src/abi_impl/proxy.rs:85-115 | the two reserved tables are inverse to each other, disjoint from allocated handles, and have these values |
| StreamHandles.ProxyStreamRegistry.AllocateHandle | src/abi_impl/proxy.rs:130-146 | a new handle was unknown, others keep their view; fails exactly when the handle space is used up |
| StreamHandles.ProxyStreamRegistry.EnsureState | src/abi_impl/proxy.rs:148-164 | creating a reserved handle on demand changes no handle's view; only an unknown handle fails |
| StreamHandles.ProxyStreamRegistry.StateOf | src/abi_impl/proxy.rs:166-178 | the read-only view equals the view after creation on demand |
| StreamHandles.ProxyStreamRegistry.PrepareWrite | src/abi_impl/proxy.rs:259-272 | marks the stream written unless it is write-closed, which is refused |
| StreamHandles.ProxyStreamRegistry.MarkWriteClosed | src/abi_impl/proxy.rs:274-295 | closes the stream; only the call that closes it owes a notification, and only if a waiter asked |
| StreamHandles.ProxyStreamRegistry.WriteClosedFlag | src/abi_impl/proxy.rs:297-306 | reports the flag, false for a reserved handle not used yet |
| StreamHandles.ProxyStreamRegistry.RequestNotify | src/abi_impl/proxy.rs:308-315 | records that a waiter asked, and nothing else |
| WriteCloseWait.StepKeepsInv | src/abi_impl/proxy.rs:274-329 | every step keeps the handshake invariant, and a closed stream stays closed |
| WriteCloseWait.NoLostWakeup | src/abi_impl/proxy.rs:274-329 | in every interleaving no waiter sleeps on a closed stream unless a closer still owes the notification, and a waiter returns only when the stream is closed |
| WriteCloseWait.NotifiedAtMostOnce | src/abi_impl/proxy.rs:274-295 | however many tasks close, the waiters are notified at most once, and not for a stream closed before |
| WriteCloseWait.RunsEnd | src/abi_impl/proxy.rs:317-329 | no interleaving is longer than the work measure of its start |
| WriteCloseWait.AllWaitersReturn | src/abi_impl/proxy.rs:317-329 | when nothing can step any more and someone closed, every waiter has returned |
| Relay.MoveConserves | src/abi_impl/proxy.rs:857-884 | one step of a pump keeps its books: accepted bytes plus the chunk in hand are the bytes produced |
| Relay.CancelConserves | src/abi_impl/proxy.rs:915-918 | a pump dropped because the other failed, in the middle of a write or not, leaves a prefix with its destination |
| Relay.ByteConservation | src/abi_impl/proxy.rs:529-638 | at every point of every run, a cancelled write included, the bytes accepted are a prefix of those produced, the destination is closed only after the source's end was read, which the pump then does; on success it is closed and the two are equal; and what has accepted bytes is marked written |
| Relay.FailureHasReason | src/abi_impl/proxy.rs:857-920 | with a destination open at the start, a pump fails exactly if an endpoint call of its own failed or it was dropped |
| Relay.ClosedTakesNothing | src/abi_impl/proxy.rs:259-272 | once a destination is write-closed and no write is under way, it accepts nothing more |
| Relay.OwnMove | src/abi_impl/proxy.rs:432-473 | what is known of a pump and its source survives every step of that pump |
| Relay.OtherMove | src/abi_impl/proxy.rs:857-884 | and every step of the opposite pump |
| Relay.BothWaitOnlyIfWritten | src/abi_impl/proxy.rs:453-473 | both pumps waiting means both handles were written exchanges before the forward began |
| Relay.BothCanPark | src/abi_impl/proxy.rs:857-920 | and from such a start they can put each other to sleep for good: whatever happens afterwards, a response included, both stay asleep |
| Relay.BothSleepOn | src/abi_impl/proxy.rs:317-329 | two sleeping pumps stay asleep in every continuation, since only a write close wakes them |
| Relay.ForwardNeverSelfBlocks | src/abi_impl/proxy.rs:857-920 | from any other start, two unwritten handles among them, the pumps never both wait, a sleeping pump faces a live one, and a finished pump has closed the handle the other may wait on |
| Relay.ForwardProgresses | src/abi_impl/proxy.rs:857-920 | from any such start, every reachable state has a failed pump, or both finished, or a pump that can step |
| Relay.ForwardBetweenNewHandles | src/abi_impl/proxy.rs:57-65 | all of this holds between two handles as they are created |
| Relay.LiveMeansEnabled | src/abi_impl/proxy.rs:857-884 | a live pump always has a step it can take |
| Relay.PipeNeverWaits | src/abi_impl/proxy.rs:886-904 | a pipe that passes its entry check never waits for a write close |
| MqttCodec.VarIntRoundTrip | src/sample_echo.rs:787-814 | reading back an encoded integer succeeds exactly when it is below 128 to the limit, and consumes exactly its bytes |
| MqttCodec.VarIntIsShortest | src/sample_echo.rs:801-814 | the writer's encoding is the shortest of its value |
| MqttCodec.VarIntDigits | src/sample_echo.rs:801-814 | the bytes are the base-128 digits of the value, low end first, with the top bit on all but the last |
| MqttCodec.EncodeVariableInt | src/sample_echo.rs:801-814 | the loop writes the encoding of section 1.5.5 |
| MqttCodec.DecodeVariableInt | src/sample_echo.rs:787-798 | the loop with its running multiplier reads the recursive definition, at most four bytes |
| MqttCodec.DecodeUtf8 | src/sample_echo.rs:827-850 | on success the offset moves past the length and the string, within the input |
| MqttCodec.ValidUtf8Means | src/sample_echo.rs:842-847 | what is accepted as UTF-8 is exactly what some sequence of Unicode scalar values is encoded to |
| MqttCodec.U16HighFirst | src/sample_echo.rs:817-824 | two-byte integers are sent high end first |
| MqttCodec.Utf8RoundTrip | src/sample_echo.rs:817-850 | a written string is read back from any position |
| MqttCodec.LengthFieldDecodes | src/sample_echo.rs:597-618 | the length loop stops exactly where the decoder stops |
| MqttCodec.LengthNeverInvalid | src/sample_echo.rs:613-618 | the "remaining length is invalid" branch cannot be reached |
| MqttCodec.FrameRoundTrip | src/sample_echo.rs:586-622 | a written frame is read back, whatever follows, exactly when its body fits the four-byte length |
| MqttCodec.CutFrame | src/sample_echo.rs:586-622 | a frame cut off anywhere behind its first byte is an error, not the end of the stream |
| MqttCodec.ReadFrameBounds | src/sample_echo.rs:586-622 | a body that was read is within the bound and the input gets shorter |
| MqttCodec.FramesRoundTrip | src/sample_echo.rs:586-622 | any list of frames is read back from its concatenation, to the last byte |
| MqttCodec.ReadLengthField | src/sample_echo.rs:597-611 | the loop consumes exactly the length field, with its two errors |
| MqttCodec.ReadFrameFrom | src/sample_echo.rs:586-622 | reading from the stream gives the specified frame and leaves the rest |
| MqttPackets.FilterCount | src/sample_echo.rs:737-749 | a subscription has at most a third of its bytes in filters |
| MqttPackets.ReadAnswerable | src/sample_echo.rs:586-784 | every packet read fits the replies built from it; QoS is at most 1 and has an identifier exactly when it is 1 |
| MqttPackets.ClientPublishParsed | src/sample_echo.rs:673-718 | every well-formed PUBLISH of QoS 0 or 1, with any properties, is parsed to its own topic, payload, flags and identifier |
| MqttPackets.PublishIsWellFormed | src/sample_echo.rs:673-718 | and only those: a PUBLISH that parses is the well-formed body of its fields |
| MqttPackets.ClientSubscribeParsed | src/sample_echo.rs:719-750 | every well-formed SUBSCRIBE is parsed to its identifier and its filters with the requested QoS, in order |
| MqttPackets.SubscribeAccepted | src/sample_echo.rs:719-750 | exactly what is accepted: a well-formed SUBSCRIBE with its filters, or an overrunning property length with none |
| MqttPackets.MalformedSubscribeAccepted | src/sample_echo.rs:736-749 | inputs that are accepted without a filter, with and without overrun |
| MqttPackets.ClientUnsubscribeParsed | src/sample_echo.rs:751-778 | every well-formed UNSUBSCRIBE is parsed to its identifier and its filters, in order |
| MqttPackets.UnsubscribeAccepted | src/sample_echo.rs:751-778 | exactly what is accepted, likewise |
| MqttPackets.MalformedUnsubscribeAccepted | src/sample_echo.rs:768-777 | inputs that are accepted without a filter, with and without overrun |
| MqttPackets.WrittenPropertyBlock | src/sample_echo.rs:787-798 | the length and bytes a client writes for its properties are a property block |
| MqttPackets.ClientConnectParsed | src/sample_echo.rs:632-672 | a CONNECT of an MQTT 5 client is accepted whatever its flags, properties and payload |
| MqttPackets.ConnectIsWellFormed | src/sample_echo.rs:632-672 | and only such a CONNECT is |
| MqttPackets.SentIsRead | src/sample_echo.rs:586-784 | every well-formed packet of a client, under the header byte its section assigns, is read as that packet, and what follows is left |
| MqttPackets.OtherTypesEnd | src/sample_echo.rs:779-783 | a packet of any other type is read as the end of the stream |
| MqttPackets.PublishRoundTrip | src/sample_echo.rs:916-936 | a written PUBLISH reads back as written with QoS 0, exactly when it fits |
| MqttPackets.EchoIsReadable | src/sample_echo.rs:548-564 | the echo of any accepted PUBLISH can be written and reads back with the same topic, payload and retain flag |
| MqttPackets.PublishStreamRoundTrip | src/sample_echo.rs:916-936 | any list of PUBLISH packets is read back from its concatenation, in order and to the last byte |
| MqttPackets.ParseFilters | src/sample_echo.rs:737-749 | the offset loop reads the recursive definition, with its errors |
| MqttPackets.ParseNames | src/sample_echo.rs:769-777 | the same for UNSUBSCRIBE |
| MqttPackets.ParseConnect | src/sample_echo.rs:632-672 | the offset code accepts and rejects as specified |
| MqttPackets.ParsePublish | src/sample_echo.rs:673-718 | the offset code reads the specified fields, with its errors |
| MqttPackets.ParsePacket | src/sample_echo.rs:625-784 | every packet type, error and ignored type as specified |
| MqttPackets.ReadPacketFrom | src/sample_echo.rs:586-622 | the next packet of the stream and the rest of it |
| MqttTopics.SplitInjective | src/sample_echo.rs:940-941 | different names have different levels |
| MqttTopics.MatchLevelsMeans | src/sample_echo.rs:939-966 | the wildcard recursion of section 4.7.1 position by position: every level fits, or a final `#` whose parent levels fit; any other `#` matches nothing |
| MqttTopics.LiteralMatchesItself | src/sample_echo.rs:939-966 | a filter without wildcard levels matches only itself |
| MqttTopics.SubtreeFilter | src/sample_echo.rs:939-966 | `f/#` matches exactly `f` and what continues `f/` |
| MqttTopics.TopicMatches | src/sample_echo.rs:939-966 | the two-index loop computes the wildcard recursion |
| MqttSession.GrantedCodes | src/sample_echo.rs:565-572 | one reason code per filter, in order, the requested QoS but at most 1 |
| MqttSession.SubsAreActive | src/sample_echo.rs:535-583 | a filter is held exactly when its last subscribe is later than its last unsubscribe |
| MqttSession.SessionFollowsHistory | src/sample_echo.rs:518-583 | the output is one block of replies per packet, each read off the history: PUBACK before the echo, the echo once and only if an active filter matches, one code per filter |
| MqttSession.SessionOf | src/sample_echo.rs:518-583 | for every input: the replies after CONNACK follow the history, every publish answered has QoS 0 or 1 and an identifier exactly for QoS 1, and the PUBACKs are exactly one per QoS 1 publish, in order |
| MqttSession.HandlesSent | src/sample_echo.rs:537-583 | any list of well-formed packets between CONNECT and DISCONNECT is handled one by one, and then what follows them |
| MqttSession.SessionEnds | src/sample_echo.rs:537-583 | a session ends with the stream, an unreadable packet, DISCONNECT, a second CONNECT or another packet type, and how |
| MqttSession.SessionOfClient | src/sample_echo.rs:518-583 | a client's whole session: CONNACK and then the replies to its packets as sent; nothing at all if it does not begin with CONNECT |
| MqttSession.ReplyRoundTrip | src/sample_echo.rs:853-936 | every reply, laid out as its section of MQTT 5.0 says, is recovered from its frame by a client |
| MqttSession.SessionOutputReadable | src/sample_echo.rs:853-936 | for every input, a client reads what the broker sends as exactly its replies, frame by frame and in order |
| MqttSession.AnswerPublish | src/sample_echo.rs:548-564 | acknowledges QoS 1 and echoes on a match |
| MqttSession.AddFilters | src/sample_echo.rs:565-570 | the loop pushes every filter and grants its code, in order |
| MqttSession.RetainFilters | src/sample_echo.rs:574 | keeps the subscriptions that are not named, in order |
| MqttSession.Answer | src/sample_echo.rs:541-581 | writes the specified replies and updates the subscriptions |
| MqttSession.ServeLoop | src/sample_echo.rs:535-583 | the loop sends the replies of all packets it handles, in order, and ends as specified |
| MqttSession.RunSession | src/sample_echo.rs:518-583 | a whole session, with CONNECT first |
| Latency.SortSorts | src/runtime.rs:667 | sorting gives the same samples in order |
| Latency.SortBelow | src/runtime.rs:659-679 | sorting two lists independently keeps a pointwise bound between them |
| Latency.PercentileMeaning | src/runtime.rs:659-679 | each of the three reported numbers is a sample below which lies at most its part of the others, and more than that part at or below it; no samples report zeros |
| Latency.RunAligned | src/runtime.rs:599-616 | in every run the queues have equal length and position by position the total is the sum of the other two |
| Latency.PercentileDominance | src/runtime.rs:599-679 | after any run each total percentile is at least the upstream and the edge-added one |
| Latency.QueuesHoldNewest | src/runtime.rs:599-616 | each queue holds the newest samples of its own kind since the last drain |
| Latency.ReportMeans | src/runtime.rs:618-635 | each of the nine numbers of every report is that percentile of the last 4096 totals, clamped upstream times or differences recorded since the previous report, or zero |
| Latency.RuntimeMetrics.RecordLatencyMs | src/runtime.rs:599-609 | pushes the total, the clamped upstream part and the difference |
| Latency.RuntimeMetrics.PushLatencySample | src/runtime.rs:611-616 | the loop keeps the newest samples |
| Latency.RuntimeMetrics.TakeLatencyPercentilesMs | src/runtime.rs:618-635 | reports the three groups and empties the queues |
| AsyncOps.CandidatesDistinct | src/abi_impl/mod.rs:128-139 | a search never tries an identifier twice, even across the wrap-around |
| AsyncOps.SearchMeans | src/abi_impl/mod.rs:128-139 | an identifier found is not pending and the counter moves past it; the search fails exactly when all it tries are pending |
| AsyncOps.SearchFindsFirst | src/abi_impl/mod.rs:128-139 | what is found is the first free identifier from the counter on |
| AsyncOps.SearchSucceeds | src/abi_impl/mod.rs:128-139 | with fewer than 65535 operations pending the search cannot fail |
| AsyncOps.RunKeepsInv | src/abi_impl/mod.rs:186-233 | every schedule and poll keeps identifiers and operations in one-to-one correspondence |
| AsyncOps.ExactlyOnce | src/abi_impl/mod.rs:186-233 | in every run an operation is delivered at most once, and one not delivered still waits under one identifier |
| AsyncOps.ScheduleAdds | src/abi_impl/mod.rs:141-194 | with fewer than 65535 pending, scheduling enters the operation under a free identifier and changes nothing else |
| AsyncOps.DeliveredWhenReady | src/abi_impl/mod.rs:220-233 | nothing is delivered but by a poll that finds its operation ready |
| AsyncOps.AllCanBeDelivered | src/abi_impl/mod.rs:196-233 | from every reachable state, ready polls deliver everything that was ever scheduled |
| AsyncOps.VmAsyncOps.AllocateOpId | src/abi_impl/mod.rs:128-139 | the bounded loop is the search, and the counter moves past what it tried |
| AsyncOps.VmAsyncOps.InsertPending | src/abi_impl/mod.rs:186-194 | enters the operation, or refuses a pending identifier and changes nothing |
| AsyncOps.VmAsyncOps.Schedule | src/abi_impl/mod.rs:141-184 | the duplicate-identifier error never occurs; the only errors are exhaustion, not with fewer than 65535 pending, and a future without runtime whose thread cannot be spawned |
| AsyncOps.VmAsyncOps.PollOp | src/abi_impl/mod.rs:196-233 | an operation leaves the table exactly when its result or cancellation is handed out |
| RateLimiter.UsedAfter | src/abi_impl/mod.rs:668-699 | after any calls with any limits and windows, every bucket that exists has admitted a call in its window |
| RateLimiter.RateBound | src/abi_impl/mod.rs:668-699 | for readings in any order in a span T, whatever the bucket held, admitted calls are at most the exact bound, hence at most limit times (T div W + 2) |
| RateLimiter.BoundAttained | src/abi_impl/mod.rs:668-699 | the exact bound is reached for every limit, window and span |
| RateLimiter.KeysIndependent | src/abi_impl/mod.rs:668-699 | in any trace the decisions for a key are those of its bucket alone, also when keys share a shard |
| RateLimiter.TraceBound | src/abi_impl/mod.rs:668-699 | the exact bound for a key in any stretch of any trace of the whole store, whatever came before and whatever other keys do; nothing is admitted for a zero limit or window |
| RateLimiter.TraceBoundAttained | src/abi_impl/mod.rs:668-699 | and a trace from the empty store reaches it, for every key, limit, window and span |
| RateLimiter.RefusalHasReason | src/abi_impl/mod.rs:684-698 | a refused call, with any limits and readings in any order, has a window started less than one window before it and at least `limit` calls admitted from there on |
| RateLimiter.RefusalInOrder | src/abi_impl/mod.rs:684-698 | if readings come in order, at least `limit` calls were admitted in the window that ends with the refused one |
| RateLimiter.RateLimiterStore.constructor | src/abi_impl/mod.rs:659-666 | 64 shards without buckets |
| RateLimiter.RateLimiterStore.AllowCall | src/abi_impl/mod.rs:668-699 | decides as specified and changes only the key's bucket; a zero limit or window refuses and changes nothing |
| Recording.ArtifactFacts | src/debug_session.rs:411-439 | an artifact is marked completed exactly when its sequence number has reached the target |
| Recording.SequencesIncrease | src/debug_session.rs:411-417 | sequence numbers strictly increase exactly while at most one encoded capture has the last u32 number |
| Recording.StepConserves | src/debug_session.rs:390-514 | every step keeps the counters of a session and moves artifacts only from capture to outbox to drain |
| Recording.RunConserves | src/debug_session.rs:390-514 | in every interleaving, what was drained followed by what waits is what the captures produced, in order |
| Recording.OutboxOfEveryRun | src/debug_session.rs:390-514 | for a session from its start: nothing lost or drained twice, the completed marks, and the sequence order with its exact condition |
| Recording.OrderKept | src/debug_session.rs:392-417 | if target plus calls in flight less one fits a u32, sequence numbers strictly increase in every run |
| Recording.SaturationRepeats | src/debug_session.rs:413-414 | and if not, there is a run from the empty store with that many calls in flight in which two artifacts share the last number |
| Recording.Overshoot | src/debug_session.rs:392-417 | with at most n calls between check and capture, captures pass the target by at most n-1 |
| Recording.OvershootAttained | src/debug_session.rs:392-417 | and for every target and n there is a run that does |
| Recording.StoppedSession | src/debug_session.rs:294-306 | a stopped session never returns to the slot, captures at most once per call that held it, and its outbox is never drained unless a drain already held it |
| Recording.RunWellFormed | src/debug_session.rs:271-306 | in every run the active flag says whether the slot is taken, and every recording session has a target |
| Recording.StartTakesFreeSlot | src/debug_session.rs:184-283 | a start takes a free slot with a new session and does nothing to a taken one |
| Recording.SlotIsKept | src/debug_session.rs:524-537 | a session stays in the slot until it is stopped or itself detached |
| Recording.TakenOut | src/debug_session.rs:294-306 | a stop or detach frees the slot, and the session never comes back |
| Recording.DetachTakesOut | src/debug_session.rs:369-389 | an interactive run that ends detached takes its session out |
| Recording.DrainReturnsAll | src/debug_session.rs:497-514 | a drain of the session in the slot returns its whole outbox |
| Recording.DebugSession.constructor | src/debug_session.rs:258-280 | a session starts with nothing captured and sequence 1 |
| Recording.DebugSession.CaptureRecording | src/debug_session.rs:410-449 | counters saturate, the session completes at its target, and only an encoded recording reaches the outbox |
| Recording.DebugSession.DrainOutbox | src/debug_session.rs:508-513 | the loop returns the outbox in order and leaves it empty |
| Recording.DebugSessionStore.Start | src/debug_session.rs:158-292 | which error is returned in which order, that a failed start changes nothing, and the session a successful one installs |
| Recording.DebugSessionStore.StopSession | src/debug_session.rs:294-306 | empties the slot and says whether there was a session |
| Recording.DebugSessionStore.StopIfMatch | src/debug_session.rs:524-537 | stops the given session and never another |
| Recording.DebugSessionStore.DrainArtifacts | src/debug_session.rs:497-514 | drains the session in the slot if it records, and otherwise returns nothing |
| HostTable.ScopesMask | src/abi_impl/registry.rs:88-101 | the accumulated mask contains a scope exactly when the list does |
| HostTable.SortKeepsLast | src/abi_impl/registry.rs:105-113 | sorting by name is stable, so it keeps which descriptor of a name is last |
| HostTable.AscendingUnique | src/abi_impl/registry.rs:131-133 | a list sorted by distinct names is determined by its elements, so hash order cannot show |
| HostTable.ComposedNames | src/abi_impl/registry.rs:117-135 | the composed names repeat exactly when the ABI's own do, whatever the inventory |
| HostTable.ComposedEntry | src/abi_impl/registry.rs:117-135 | for every name the composed list has the mask's implementation, or else the placeholder of a published name, or else nothing |
| HostTable.ComposedOrder | src/abi_impl/registry.rs:117-135 | the list is in the order of the ABI, and behind it by name |
| HostTable.ExpectedMeans | src/abi_impl/registry.rs:88-113 | in terms of the scopes asked for: their functions are bound to their own descriptors, other published names to placeholders, nothing else to anything |
| HostTable.Composition | src/abi_impl/registry.rs:117-135 | with unique names every ABI name and every function in the mask occurs once, and unbound are exactly the published names the mask does not implement |
| HostTable.CompleteScopeDescriptors | src/abi_impl/registry.rs:117-135 | filling and draining the table gives the composed list, in whatever order the table yields its values |
| HostInstall.ContractMeans | src/abi_impl/descriptor.rs:574-596 | a contract holds exactly for a published name with this very schema, or an unpublished reviewed extension; which error otherwise |
| HostInstall.ProblemIsFirst | src/abi_impl/descriptor.rs:419-428 | the problem reported is that of the first descriptor with one, and a repeated name comes before its contract |
| HostInstall.NoProblem | src/abi_impl/descriptor.rs:419-428 | the checks pass exactly when no name repeats and every contract holds |
| HostInstall.ComposedAccepted | src/abi_impl/descriptor.rs:413-428 | the duplicate check never rejects a composed list whose ABI names are unique; what can fail is the contract of a function in the mask |
| HostInstall.HostFunctionRegistry.CheckDescriptors | src/abi_impl/descriptor.rs:417-428 | the loop with its growing set finds the first problem in name order |
| HostInstall.HostFunctionRegistry.InstallAll | src/abi_impl/descriptor.rs:431-438 | either all descriptors are installed and authorized or nothing changes |
| HostInstall.HostFunctionRegistry.InstallEdgeDescriptors | src/abi_impl/descriptor.rs:413-439 | a list is accepted exactly when all checks pass, and a rejected one leaves the registry untouched |
| HostInstall.RegistryForScopeMask | src/abi_impl/registry.rs:137-141 | a registry built for a mask binds every name to what is expected there and no other name |
| AtomicMax.StepKeepsInv | src/lock_metrics.rs:377-385 | every load, exchange, failed exchange and return keeps the history ascending and made of arguments |
| AtomicMax.RunKeepsInv | src/lock_metrics.rs:377-385 | in every interleaving the cell never decreases |
| AtomicMax.MaximumReached | src/lock_metrics.rs:377-385 | once all calls have returned the cell is the maximum of the initial value and all arguments |
| AtomicMax.ReturnedIsCovered | src/lock_metrics.rs:377-385 | at any time the cell is at least the argument of every call that has returned |
| AtomicMax.StepDoesWork | src/lock_metrics.rs:379-383 | every step, a failed exchange in particular, shrinks what is left to do |
| AtomicMax.RunsEnd | src/lock_metrics.rs:377-385 | no run is longer than the work at its start |
| AtomicMax.NoneIsStuck | src/lock_metrics.rs:377-385 | a call that has not returned can always step |

## Left out

- Relay.ForwardNeverSelfBlocks: speaks of waiting for a write close only; a read of a dynamic TCP or TLS stream that stays pending holds the stream's lock (`src/abi_impl/proxy.rs`, lines 474-487), so nothing is claimed about progress there.
- Relay.ByteConservation: two handles that name one endpoint, and other host calls that write to the two handles during a forward, are not modelled; nor are the native tunnels that `proxy::forward` tries first.
- MqttTopics.TopicMatches: topics that begin with `$` have no special rule, as in the code (section 4.7.2 of MQTT 5.0 is not implemented there).
- MqttCodec.ReadFrameFrom: what is left of the input after an error is not stated, since the session ends; I/O errors other than the end of the stream are left out.
- Latency.RuntimeMetrics.TakeLatencyPercentilesMs: the library's unstable sort is the function `Sort`; equal samples cannot be told apart.
- AsyncOps.VmAsyncOps.PollOp: what polling the future finds is a parameter; wakers, the runtime handle and the helper thread are left out.
- RateLimiter.RateLimiterStore.AllowCall: the clock reading is a parameter; buckets are never removed, as in the code.
- Recording.DebugSessionStore.Start: text fields arrive trimmed, and header-name syntax and the TCP bind are given as functions; session identifiers, request identifiers and frame counts of an artifact are left out because they are copied through.
- Recording.StepConserves: the relaxed load of the active flag may be stale, so it is not used to restrict which requests look at the slot.
- HostInstall.HostFunctionRegistry.InstallEdgeDescriptors: the raw-handle check, the catalog lookup and the adapter kinds are given as functions.
- AtomicMax.MaximumReached: the loop is modelled as interleaved steps only, not as a sequential method, since alone it never fails an exchange.
- What the debugger does in an interactive session, remote debugger commands and status reports.
- The match of a request against a session's header and path, which only decides which requests take part.
- Sockets, HTTP, TLS, QUIC, WebRTC and WebSocket transports, and task scheduling.
- The virtual machine, its registry internals and the control plane.
- Lazy header handling of the HTTP fast path.
- Command line, logging, build scripts, macros and ABI declaration files.
