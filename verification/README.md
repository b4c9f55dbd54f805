# Liteway in Dafny

Liteway is a mesh VPN daemon. Nodes find each other through lighthouses, shake hands
with hybrid post-quantum keys, and keep sessions alive directly or through relays. This
project models the daemon's decisions (which session wins, when a packet is a replay,
when a path is dead, where a packet goes) and its wire formats, and proves what they
guarantee over every run. Check it with `dafny verify dfyconfig.toml`.

Sockets, clocks and random choices are parameters: a step takes the time, the source
address, tokens, nonces and session ids it uses. Times are milliseconds. The
cryptographic libraries are one record of function values (`Crypto.Suite`) constrained
only by their functional laws: decryption undoes encryption (section 2.8 of RFC 8439),
Diffie-Hellman commutes (section 6.1 of RFC 7748), decapsulation undoes encapsulation
(FIPS 203), verification accepts honest signatures, and printed addresses and
certificates parse back.

| file | part of the daemon |
|---|---|
| `Bits.dfy`, `Types.dfy` | words with shifts and masks, big-endian integers, shared values |
| `Replay.dfy` | the 64-bit sliding replay window (the scheme of section 3.4.3 of RFC 4303), and both ends of one direction composed |
| `Crypto.dfy`, `Reading.dfy`, `Packet.dfy` | library laws, the field cursor, session packets |
| `Handshake.dfy` | the two handshake messages and their key agreement |
| `Fragments.dfy`, `Reassembly.dfy`, `Delivery.dfy` | splitting, the bounded reassembly buffer, and the two composed |
| `Peers.dfy`, `Liveness.dfy`, `History.dfy` | per-session path and keepalive state, its timing over whole runs, and every decision told from the events |
| `Retry.dfy`, `Transmissions.dfy`, `Fallback.dfy` | handshake retransmission: when, where to, and when the relay fallback is certain |
| `Cache.dfy` | the handshake response cache against an unbounded memory |
| `Routes.dfy` | authorised networks and longest-prefix routing |
| `Node.dfy`, `NodeRuns.dfy`, `Admission.dfy` | peers, pending handshakes and the indexes over them; what admission and removal do |
| `Session.dfy`, `Divergence.dfy` | two nodes establishing a session over an unreliable network, and what follows when they disagree |

Where the daemon changes state in place, a class carries its fields and each method is
proved against a function of the old state; the theorems are about those functions.

Three promises turned out to hold only under a condition, which is proved exact:

- *Both ends settle on one session.* After crossing dials they do if and only if the
  lower-id node handled the other's handshake_1 before its own handshake_2, and the
  higher-id node did not answer that dial while dialling itself and still holding an
  older session of the lower-id node (`Sessions.CrossingDialsConverge`). In the first
  case the pending entry is already gone (`litewayd/src/main.rs:1253`) and the dial no
  longer counts as simultaneous; in the second the tie-break takes the leftover for the
  winner. `Divergence.DivergenceIsReachable` and `Divergence.LeftoverDivergenceIsReachable`
  give such runs for any two identities. A dial the other does not cross settles if and
  only if the dialling node holds nothing, or a session of its own, or has the lower id
  (`Sessions.SoleDialConverges`). The damage is bounded: nothing crosses, both ends drop
  the session within keepalive interval + timeout + two tick gaps
  (`Divergence.DivergenceHeals`), and then stand where a new pair of dials may start.
- *The relay is tried before a handshake is given up.* The configuration check promises
  this of any fallback below the timeout (`liteway-core/src/config.rs:153-160`). It is so
  under every tick schedule if and only if the fallback is at most 21.5 s, when the tenth
  attempt is spent, and, whichever attempt is the last before the fallback, the next one
  is served before the timeout (`Fallback.FallbackGuaranteedExactly`, a condition on the
  configuration and the tick gap alone). The defaults meet it; 25 s under 60 s runs out
  of attempts, and 19 s under 20 s runs out of time.
- *A payload comes back as it was sent.* True if and only if it is shorter than 2^32
  bytes, since its length prefix is cut to 32 bits (`Packet.OversizedPayloadIsLost`). The
  daemon reads packets into buffers of 65535 bytes (`litewayd/src/main.rs:318`), so it
  builds no such payload itself.

## Model

| member | source | states |
|---|---|---|
| `Sessions.RunKeepsInv` | litewayd/src/main.rs:1107-1307 | in every run of dials, deliveries in any order and number, retransmissions, cache sweeps and third-party traffic, each node holds exactly the session its history calls for |
| `Sessions.CrossingDialsConverge` | litewayd/src/main.rs:1107-1286 | once all four messages are handled, whatever sessions they held before, both ends hold mirrored keys and session ids if and only if the lower-id node answered the other's dial while its own was unanswered and the other was not stuck on a leftover; the shared session is then the lower-id node's |
| `Sessions.SoleDialConverges` | litewayd/src/main.rs:1218-1286 | a sole dial settles both ends on its session if and only if the dialling node held nothing, or a session of its own, or has the lower id |
| `Sessions.SoleDialOutcome` | litewayd/src/main.rs:1107-1286 | the other end always takes a sole dial's session, whatever it held; the dialling end takes it or keeps what it held |
| `Divergence.DivergenceIsReachable` | litewayd/src/main.rs:1167-1201 | for any two identities there is a legal run that handles all four messages and leaves the ends on different sessions |
| `Divergence.LeftoverDivergenceIsReachable` | litewayd/src/state.rs:539-560 | for any two identities, a restart of the lower-id node has a legal run that diverges although that node answered before it completed |
| `Divergence.PacketsCrossExactlyWhenConverged` | litewayd/src/main.rs:1341-1389 | once settled, a packet of either end is matched to the session and opens at the other if and only if the ends converged; otherwise neither direction works |
| `Divergence.DivergenceHeals` | litewayd/src/main.rs:924-1005 | ends that settled on different sessions both drop them by the settlement time plus interval, timeout and two tick gaps |
| `Divergence.HealedIsAtRest` | litewayd/src/main.rs:608-641 | with both sessions dropped the two nodes meet the hypothesis of the convergence theorem again |
| `Sessions.RepeatedHear1` | litewayd/src/main.rs:1120-1137 | while its answer is cached, a repeated handshake_1 gets the same reply and leaves the session alone |
| `Sessions.FirstHear1` | litewayd/src/main.rs:1139-1201 | hearing the other's dial for the first time keeps the node on the session its history calls for, and the reply is remembered for repeats |
| `Sessions.FirstHear2` | litewayd/src/main.rs:1218-1286 | a verified reply consumes the pending entry and keeps the node on the session its history calls for: it displaces a session the other end initiated at the lower-id node only |
| `Sessions.LinksOfSettled` | litewayd/src/state.rs:539-560 | the keys and session ids the tie-break leaves at each end once both exchanges are complete |
| `Replay.ReplayWindow.Accept` | litewayd/src/state.rs:122-151 | the bitmap accepts a number exactly when it was never accepted and nothing accepted is 64 or more ahead, and represents the set of all accepted numbers |
| `Replay.RunWindow` | litewayd/src/state.rs:122-151 | over every call sequence the bitmap decides each call as the full history would |
| `Replay.AdmissibleCases` | litewayd/src/state.rs:130-148 | the history's verdict told from the highest number: above it, or unseen and less than 64 behind |
| `Replay.AdvanceKeepsHistory` | litewayd/src/state.rs:130-140 | shifting the bitmap forward loses no bit that still matters |
| `Replay.NeverAcceptedTwice` | litewayd/src/state.rs:122-151 | no number is accepted twice in any run |
| `Replay.ProcessedAtMostOnce` | litewayd/src/main.rs:1376-1389 | until the counter wraps, every interleaving of senders gets the numbers 1, 2, 3 and so on, and no packet's body is processed twice however often it is delivered |
| `Replay.DeliveredInWindowIsProcessedOnce` | litewayd/src/main.rs:1376-1389 | a packet delivered while less than 64 behind everything processed has then been processed exactly once |
| `Replay.ReserveKeepsInvariant` | litewayd/src/state.rs:221-224 | taking the next sequence number continues the count from 1 without gap or repeat |
| `Fragments.SendFragmented` | liteway-core/src/frag.rs:72-134 | refuses exactly a limit below one byte of payload or more than 255 chunks; otherwise every datagram fits the limit, is read back as its fragment, and the chunks join to the message |
| `Fragments.ReadInvertsSeal` | liteway-core/src/frag.rs:158-176 | a sealed fragment is read back as itself and costs the packet overhead only |
| `Fragments.ChunksCover` | liteway-core/src/frag.rs:112-118 | the chunks joined are the message |
| `Fragments.ChunksCounted` | liteway-core/src/frag.rs:88-89 | the rounded-up quotient (at least one) is the number of chunks |
| `Delivery.ReassemblyUndoesFragmentation` | liteway-core/src/frag.rs:153-256 | in every run with headroom, each awaited fragment is buffered until every index has arrived once, and the last one yields exactly the message and frees its entry |
| `Delivery.MessageArrivesIntact` | liteway-core/src/frag.rs:72-256 | the bytes given to the splitter come out whole, the empty message included, under any order, repeats and losses over several attempts |
| `Delivery.EveryRunStaysBounded` | liteway-core/src/frag.rs:153-284 | all message and byte caps hold after every run of arbitrary datagrams and sweeps, and no stored message is complete |
| `Delivery.FragmentArrives` | liteway-core/src/frag.rs:180-253 | one more fragment is stored, or completes the message, whatever has arrived before |
| `Reassembly.FragmentAssembler.Feed` | liteway-core/src/frag.rs:153-256 | answers and stores as the reference over bare partial messages does, with both byte counters exact, so no saturating step ever saturates |
| `Reassembly.FragmentAssembler.StoreChunk` | liteway-core/src/frag.rs:198-256 | storing into an open entry follows the reference, error branches included |
| `Reassembly.FragmentAssembler.OpenEntry` | liteway-core/src/frag.rs:179-196 | a new entry is opened exactly when both message caps allow it |
| `Reassembly.FragmentAssembler.WriteChunk` | liteway-core/src/frag.rs:225-255 | replacing a chunk by a longer or shorter one keeps both counters exact, and a finished message leaves with its bytes |
| `Reassembly.FragmentAssembler.CleanupExpired` | liteway-core/src/frag.rs:258-269 | drops exactly the entries of 30 s and more and keeps the counters exact |
| `Reassembly.FragmentAssembler.RemovePending` | liteway-core/src/frag.rs:280-284 | removes one entry and its bytes from the count |
| `Reassembly.FragmentAssembler.SourceUsage` | liteway-core/src/frag.rs:271-278 | the number and bytes of one source's partial messages |
| `Reassembly.FeedKeepsWellFormed` | liteway-core/src/frag.rs:153-256 | every fragment keeps the global, per-source and per-message caps |
| `Reassembly.FeedTouchesOnlyItsKey` | liteway-core/src/frag.rs:178-256 | a fragment changes no other (source, id) entry |
| `Reassembly.WriteStaysSound` | liteway-core/src/frag.rs:225-255 | entry bytes and total stay the sums of what is stored, within range |
| `Reassembly.SurvivesExactly` | liteway-core/src/frag.rs:258-269 | a sweep keeps exactly the messages begun less than 30 s ago |
| `Reassembly.ConflictDiscards` | liteway-core/src/frag.rs:202-213 | a fragment that disagrees about the count or makes its message too long discards the message |
| `Reassembly.RefusedChangesNothing` | liteway-core/src/frag.rs:174-188 | a senseless fragment, or one message too many, changes nothing |
| `Reassembly.FullBufferKeepsChunks` | liteway-core/src/frag.rs:215-221 | a fragment the byte caps do not admit leaves every chunk as it was |
| `Reassembly.StoredChunkIsTheLatest` | liteway-core/src/frag.rs:189-235 | the latest copy of a chunk is kept, the others and the message's age stay |
| `Reassembly.CleanupTotal` | liteway-core/src/frag.rs:258-269 | bytes are conserved: what a sweep keeps and what it drops add up |
| `Fallback.FallbackGuaranteedExactly` | litewayd/src/main.rs:825-919 | for every positive fallback and tick gap and every timeout, a copy goes to a relay under every tick schedule if and only if the fallback is at most the nine delays and each attempt that can be the last before it leaves time for the next |
| `Fallback.RelayFallbackHappens` | litewayd/src/main.rs:825-919 | under that condition an unanswered handshake to a known peer is copied to a relay before it is abandoned |
| `Fallback.AmpleTimeoutSuffices` | litewayd/src/state.rs:415-454 | a fallback of at most 21.5 s with one retry delay and one tick gap to spare meets the condition |
| `Fallback.TransmissionAnywhere` | litewayd/src/state.rs:415-454 | the n-th transmission can fall at any time between its delay sum and that plus n - 1 late ticks |
| `Fallback.NoTimeLeft` | litewayd/src/main.rs:849-898 | an attempt that leaves no time for the next has a schedule in which the relay is never tried |
| `Fallback.DefaultsGuaranteeFallback` | liteway-core/src/config.rs:98-104 | the default 5 s under 20 s with 250 ms ticks is safe |
| `Fallback.SpacingDefeatsFallback` | liteway-core/src/config.rs:153-160 | 19 s under 20 s passes the check and is not safe at any tick gap |
| `Fallback.LateFallbackNeverHappens` | litewayd/src/main.rs:860-898 | a fallback after the last attempt never reaches a relay, whatever the timeout |
| `Fallback.ValidationDoesNotImplyFallback` | liteway-core/src/config.rs:153-160 | 25 s under 60 s passes the check and never tries the relay |
| `Fallback.FallbackTargetIsARelay` | litewayd/src/main.rs:866-888 | the fallback address was a connected relay other than the peer dialled |
| `Retry.TransmissionBudget` | litewayd/src/state.rs:394-454 | the n-th transmission is no earlier than the first n - 1 delays allow, and n is at most 10 |
| `Transmissions.DelaySchedule` | litewayd/src/state.rs:450-454 | the waits are 0.5, 1, 2 and then 3 s each |
| `Transmissions.SendsExactlyWhenDue` | litewayd/src/state.rs:415-430 | over every run a tick sends if and only if the handshake has not timed out, fewer than ten copies went out and the delay since the last has passed |
| `Transmissions.CopiesGoTo` | litewayd/src/state.rs:439-447 | every copy goes to the address first dialled, and also to the relay from the tick on that chose one |
| `Transmissions.GivenUpExactly` | litewayd/src/main.rs:849-860 | a handshake is abandoned if and only if some tick came at or after its timeout |
| `Transmissions.UnknownPeerHasNoRelay` | litewayd/src/state.rs:432-436 | a handshake to a peer of unknown id never uses a relay |
| `Retry.NineDelays` | litewayd/src/state.rs:450-454 | the first nine retry delays add up to 21.5 s |
| `Retry.HandshakeTable.RetransmitHandshakes` | litewayd/src/main.rs:825-919 | one tick drops what expired, arms fallbacks and resends exactly what is due, for every entry |
| `Liveness.DeadDirectionIsDropped` | litewayd/src/state.rs:299-326 | a peer that answers nothing is gone by start + interval + timeout + two tick gaps, whatever traffic it sends |
| `Liveness.DroppedByDeadline` | litewayd/src/state.rs:299-326 | in a silent run that goes on past that time, some tick up to it drops the peer |
| `Liveness.TimeoutExactlyWhenUnanswered` | litewayd/src/state.rs:273-326 | a tick reports a keepalive timeout if and only if one token has gone unanswered for the whole timeout |
| `Liveness.KeepaliveBudget` | litewayd/src/state.rs:299-310 | a token sent n times satisfies (n - 1) * min(interval, 2 s) < timeout |
| `Liveness.ProbesBackOff` | litewayd/src/state.rs:334-359 | between resets the k-th interval is min(base * 2^k, 30 s) and probes keep that distance |
| `PeerHistory.DroppedExactly` | litewayd/src/state.rs:299-326 | over every run a tick drops the peer if and only if a token waited the whole timeout, or nothing is outstanding and no packet came for the expiry time |
| `PeerHistory.ExpiredExactlyWhenUnseen` | litewayd/src/state.rs:312-314 | a peer is dropped as expired if and only if nothing is outstanding and the last packet of the run (or its start) is at least the expiry time ago |
| `PeerHistory.KeepaliveStartsExactly` | litewayd/src/state.rs:299-326 | a fresh keepalive goes out if and only if the peer has not expired and the last acknowledgement of the run is at least the interval ago |
| `PeerHistory.KeepaliveRepeatsExactly` | litewayd/src/state.rs:300-310 | an unanswered keepalive times out, is repeated with its own token, or waits, by the times of its first and last copy |
| `PeerHistory.AcknowledgedExactly` | litewayd/src/state.rs:273-285 | an ack counts if and only if its token is the outstanding keepalive's or the last unanswered punch's |
| `PeerHistory.AddressIsLastAdopted` | litewayd/src/state.rs:238-270 | packets go to the source of the last packet that was neither relayed to a direct session nor a hole punch to a relayed one |
| `PeerHistory.LeavingRelayGoesDirect` | litewayd/src/state.rs:238-270 | a session that left its relay sends to an address a packet came from directly |
| `PeerHistory.EndpointIsLastNamed` | litewayd/src/state.rs:252-268 | the direct endpoint is the last one the run named |
| `PeerHistory.ProbeFiresExactly` | litewayd/src/state.rs:334-359 | a probe fires, and towards which endpoint, exactly by the relayed status, the last endpoint named and the backoff since the last reset |
| `Peers.MoveIsReported` | litewayd/src/state.rs:260-269 | the address left behind is reported exactly when the address changed |
| `Peers.RelayedUntilDirectTraffic` | litewayd/src/state.rs:238-270 | a session is relayed if and only if it began so and no non-keepalive packet came from a new non-relay source; a direct one has no scheduled probe and no probe token |
| `Peers.DirectStaysDirect` | litewayd/src/state.rs:238-270 | once direct, always direct, and every single move of the address is to the source of a packet that arrived at that moment without a relay |
| `Peers.PeerState.Seen` | litewayd/src/state.rs:238-270 | the new state and the address left behind |
| `Peers.PeerState.Acknowledge` | litewayd/src/state.rs:273-285 | an ack clears what it answers and nothing else |
| `Peers.PeerState.MaintenanceTick` | litewayd/src/state.rs:299-326 | drop, repeat with the old token, start anew, or idle |
| `Peers.PeerState.ProbePath` | litewayd/src/state.rs:334-359 | whether to punch, look up or wait, and the next interval |
| `Peers.PeerState.NoteEndpoint` | litewayd/src/main.rs:1310-1331 | a newly learned endpoint restarts probing; a known one changes nothing |
| `Cache.CacheAgreesExactlyWhenRoomy` | litewayd/src/state.rs:479-512 | after every step of any run the bounded cache answers as an unbounded memory would, if and only if no 60 s window holds more than 256 digests |
| `Cache.RepeatGetsTheSameReply` | litewayd/src/main.rs:1107-1165 | a repeated handshake_1 gets the byte-identical reply and inserts nothing |
| `Cache.FoundExactlyWhileYoung` | litewayd/src/state.rs:479-483 | an entry is served for exactly 60 s |
| `Cache.CachedReplyIsRecent` | litewayd/src/main.rs:1120-1137 | in any run, a reply served from the cache was computed for the same request less than 60 s before |
| `Cache.EvictedIsOldest` | litewayd/src/state.rs:489-498 | a young entry that made room is no newer than any that stayed |
| `Cache.AlwaysBounded` | litewayd/src/state.rs:485-507 | the cache never holds more than 256 entries |
| `Cache.HandshakeCache.Insert` | litewayd/src/state.rs:485-507 | expired entries go first, and an oldest one only if the cache is still full |
| `Cache.HandshakeCache.Get` | litewayd/src/state.rs:479-483 | only entries younger than 60 s are found |
| `Cache.HandshakeCache.Cleanup` | litewayd/src/state.rs:509-512 | no lookup from then on is affected, and nothing expired is left |
| `Cache.PutEntry` | litewayd/src/state.rs:485-507 | the insertion both the cache and the handshake handler use, naming the entry that made room |
| `Cache.PutKeepsYoung` | litewayd/src/state.rs:485-507 | with room for one more, an insertion leaves every other young entry alone |
| `Cache.FindOldest` | litewayd/src/state.rs:490-494 | the entry found is no younger than any other |
| `NodeRuns.IndexesAlwaysAgree` | litewayd/src/main.rs:520-641 | after every sequence of handler steps each rx session, route and bound lighthouse names a live peer, and a session id names the peer that uses it |
| `NodeRuns.PeersAlwaysFindable` | litewayd/src/main.rs:567-582 | with fresh session ids every live peer is found through its own id |
| `Admission.NodeRoutesByLongestPrefix` | litewayd/src/main.rs:1781-1822 | over every run of a node a lookup finds the peer whose admitted network is the longest match, the latest admitted among equals |
| `Admission.RoutesFollowTheLog` | litewayd/src/main.rs:590-594 | over every run the node's table is what the log of its admissions and removals makes of it |
| `Admission.AdmittedPeerIsRouted` | litewayd/src/main.rs:590-594 | each network of an admitted peer is routed to it, and no other network's holder changes |
| `Admission.RemovedPeerIsNotRouted` | litewayd/src/main.rs:632-634 | a removed peer is routed nothing, and no other peer loses a network |
| `Admission.AdmissionTouchesOnlyOne` | litewayd/src/main.rs:520-604 | every slot with the peer's address or name is bound to it; no other session, slot or pending handshake changes |
| `Admission.RemovalTouchesOnlyOne` | litewayd/src/main.rs:608-641 | one peer and what names it is forgotten, and nothing else |
| `Admission.ResponderSessionStarts` | litewayd/src/main.rs:1167-1192 | the address, direct endpoint and relayed status a responder's session starts with |
| `Admission.InitiatorSessionStarts` | litewayd/src/main.rs:1266-1286 | an initiator's session keeps the dialled endpoint and is relayed exactly when the reply came from elsewhere |
| `Admission.RepeatTeachesEndpoint` | litewayd/src/main.rs:1310-1331 | a repeated handshake_1 teaches the endpoint it came from unless that is a relay's |
| `Admission.MovedLighthouseIsUnknown` | litewayd/src/main.rs:724-742 | a lighthouse that moved is no longer known to be any peer |
| `Admission.DialsExactlyWhenNotInFlight` | litewayd/src/main.rs:439-490 | a dial is refused if and only if one to the same peer, or to the same address where an id is unknown, is in flight |
| `NodeRuns.DialsStayDistinct` | litewayd/src/main.rs:446-463 | at most one handshake is in flight to each known peer id |
| `NodeRuns.BootsConsistent` | litewayd/src/main.rs:255-285 | a booted node satisfies the index properties |
| `NodeRuns.Daemon.AddPeer` | litewayd/src/main.rs:492-606 | the whole new state of every index, and whether the session was admitted |
| `NodeRuns.Daemon.RemovePeer` | litewayd/src/main.rs:608-648 | the whole new state of every index |
| `NodeRuns.Daemon.Route` | litewayd/src/main.rs:1781-1822 | the last of the longest matching entries of the node's table |
| `NodeRuns.Daemon.StartHandshake` | litewayd/src/main.rs:439-490 | files a new dial unless one to the same peer is in flight |
| `NodeRuns.Daemon.HandleHandshake1` | litewayd/src/main.rs:1107-1201 | a reply cached less than 60 s ago, refusal of the own identity, or a fresh reply, cache entry and session |
| `NodeRuns.Daemon.HandleHandshake2` | litewayd/src/main.rs:1218-1286 | only a reply to a pending request from the expected peer is taken |
| `NodeRuns.BindLighthouse` | litewayd/src/main.rs:656-664 | every slot matching by address or name is bound, no other changes |
| `Nodes.AddKeepsConsistent` | litewayd/src/main.rs:520-604 | admission keeps the indexes pointing at live peers even when a session id collides |
| `Nodes.RemoveKeepsConsistent` | litewayd/src/main.rs:608-641 | removal leaves no index entry naming the peer |
| `Nodes.FindableExactlyWhenFree` | litewayd/src/main.rs:567-582 | an admitted session leaves every peer findable if and only if its id is not another live peer's |
| `Handshake.ExchangeAgrees` | liteway-core/src/handshake.rs:80-212 | both ends derive one session key, crossed session ids and matching directional keys, whatever the padding, and the reply is addressed to the initiator's pending entry |
| `Handshake.ResponderAnswers` | liteway-core/src/handshake.rs:123-179 | an honest request is answered if and only if its timestamp and certificate are acceptable |
| `Handshake.InitiatorCompletes` | liteway-core/src/handshake.rs:181-212 | a reply completes exactly when it hashes our request and its timestamp and certificate are acceptable |
| `Handshake.ParseInvertsCreate1` | liteway-core/src/handshake.rs:285-321 | the parser recovers the fields of a handshake_1, or refuses it for its time or certificate only |
| `Handshake.ParseInvertsCreate2` | liteway-core/src/handshake.rs:323-367 | the parser recovers the fields of a handshake_2, or refuses it for its time, request hash or certificate only |
| `Handshake.OpenInvertsSeal` | liteway-core/src/handshake.rs:214-283 | opening a sealed handshake or fragment gives back header and payload |
| `Handshake.OpensExactly` | liteway-core/src/handshake.rs:258-283 | a datagram opens to a plaintext if and only if it is genuine and sealing that plaintext gives its header and payload |
| `Handshake.AcceptedWithinSkew` | liteway-core/src/handshake.rs:470-478 | with valid certificates each message is accepted if and only if the clocks differ by at most 300 s |
| `Handshake.Accepted1IsSigned` | liteway-core/src/handshake.rs:285-321 | whatever the bytes, an accepted handshake_1 is signed from its first byte through its certificate |
| `Handshake.Accepted2IsSigned` | liteway-core/src/handshake.rs:323-367 | an accepted handshake_2 is signed likewise and carries the hash of the request |
| `Handshake.SessionKeyNamesItsExchange` | liteway-core/src/handshake.rs:398-408 | barring a collision of the inputs, equal session keys come from the same two messages and shared secrets |
| `Handshake.TrafficKeyNamesItsDirection` | liteway-core/src/packet.rs:413-423 | barring a collision of the inputs, equal traffic keys are of one session and one direction |
| `Handshake.TakePreambleWithFlags` | liteway-core/src/handshake.rs:289-303 | with any flags a preamble is read back within the skew, and the relay flag is the lowest bit |
| `Handshake.TakePreambleInverts` | liteway-core/src/handshake.rs:289-303 | a preamble is read back exactly when its timestamp is within the clock skew |
| `Handshake.TakeAuthenticationInverts` | liteway-core/src/handshake.rs:369-388 | an honest signature is accepted exactly when its certificate is valid; padding plays no part |
| `Packet.DecryptInvertsEncrypt` | liteway-core/src/packet.rs:88-364 | decrypting a sealed packet returns the header sent and the same body, for all eight kinds and every padding |
| `Packet.OversizedPayloadIsLost` | liteway-core/src/packet.rs:562-566 | the payload of a data or relay-forward packet comes back if and only if it is shorter than 2^32 bytes |
| `Packet.DecryptPacket` | liteway-core/src/packet.rs:291-364 | the cursor-based decoder computes the reference decoding of every byte string, never reading out of bounds |
| `Packet.ReadFields` | liteway-core/src/packet.rs:313-362 | the fields of each body kind are read off the cursor as the reference reads them |
| `Packet.DecodePlaintextInverts` | liteway-core/src/packet.rs:305-362 | a body's plaintext, padded, decodes to the body |
| `Packet.DecodedMatchesHeader` | liteway-core/src/packet.rs:291-364 | whatever the bytes, a decoded body is of the kind its header names, with the sequence number its plaintext starts with |
| `Packet.KnownKindsExactly` | liteway-core/src/packet.rs:493-525 | exactly the eleven kinds are known |
| `Packet.ReadNetworkHeader` | liteway-core/src/packet.rs:401-411 | the copy-free header read equals deserialize-then-unmask on every byte string |
| `Packet.DecodeInvertsEncode` | liteway-core/src/packet.rs:483-525 | exactly the known kinds survive encoding, unchanged |
| `Packet.HeaderLayout` | liteway-core/src/packet.rs:483-491 | where each header field lies on the wire |
| `Packet.MaskFlipsExactly` | liteway-core/src/packet.rs:465-481 | masking flips exactly the bits the mask has set |
| `Packet.AadIsTheWireHeader` | liteway-core/src/packet.rs:555-560 | what is authenticated besides the body is everything sent before the nonce |
| `Packet.BodyLayout` | liteway-core/src/packet.rs:88-290 | every body starts with its kind and big-endian sequence number |
| `Packet.EncodeInvertsDecode` | liteway-core/src/packet.rs:493-525 | any bytes that decode re-encode to themselves |
| `Packet.MaskNetworkHeader` | liteway-core/src/packet.rs:465-481 | unmasking gives the header back |
| `Packet.UnmaskInvertsMask` | liteway-core/src/packet.rs:527-553 | masking is undone for exactly the known kinds |
| `Packet.DeserializeInvertsSerialize` | liteway-core/src/packet.rs:366-399 | a well-sized packet survives the wire |
| `Packet.SerializeInvertsDeserialize` | liteway-core/src/packet.rs:366-399 | packets are canonical: any bytes that deserialize serialize back to themselves |
| `Reading.Reader.ReadBytes` | liteway-core/src/packet.rs:591-598 | takes the next bytes or refuses without moving; the position stays in bounds |
| `Reading.Reader.ReadVec` | liteway-core/src/packet.rs:612-615 | takes a length-prefixed field |
| `Reading.TakeVecInverts` | liteway-core/src/packet.rs:562-566 | a length-prefixed field shorter than 2^32 is read back |
| `Routes.LookupIsLongestPrefix` | litewayd/src/state.rs:81-96 | after any run of insertions and removals a lookup gives the holder of the longest matching network, latest insertion first among equals, or nothing exactly when none matches |
| `Routes.LongestMatchIsUnique` | litewayd/src/state.rs:86-92 | with canonical networks the longest match is unique |
| `Routes.TableListsHolders` | litewayd/src/state.rs:81-96 | the table lists each held network once, in insertion order, with its latest holder |
| `Routes.RouteTable.Lookup` | litewayd/src/state.rs:86-92 | over the table's whole history: the holder of the longest network containing the address, the latest among equals, or nothing exactly when none contains it |
| `Routes.FindBest` | litewayd/src/state.rs:86-92 | the last of the longest matching entries |
| `Routes.RouteTable.Insert` | litewayd/src/state.rs:81-84 | the network now belongs to this peer as the newest; every other network keeps its holder |
| `Routes.RouteTable.RemovePeer` | litewayd/src/state.rs:94-96 | the peer holds nothing; every other network keeps its holder and place |
| `Routes.AuthorizedPeerRoutes` | litewayd/src/main.rs:1981-2030 | exactly the host route and the granted, non-default subnets, each once, in order |
| `Routes.RouteGrantedByCert` | litewayd/src/main.rs:2032-2048 | granted if and only if some group grants everything or a network covering the route |
| `Routes.ContainsExactly` | litewayd/src/state.rs:86-92 | a network contains exactly the addresses of its family whose first prefix bits are its own |
| `Routes.HostRouteIsExact` | litewayd/src/main.rs:1952-1959 | a host route contains its own address and no other |
| `Routes.DefaultRouteIsTotal` | litewayd/src/main.rs:2050-2052 | a route of prefix 0 contains its whole family |
| `Routes.GrantCoversExactly` | litewayd/src/main.rs:2032-2048 | a network grant covers a route if and only if every address of the route lies inside it |
| `Routes.GrantContainsRoute` | litewayd/src/main.rs:2032-2048 | every address of an accepted subnet lies inside the grant |

## Left out

- Cryptographic primitives and key zeroizing: library code, kept as function values with functional laws; nothing is claimed about secrecy or forgery.
- Sockets, TUN device, routing tables of the host, DNS, signals, logging, command line, TOML and JSON: input and output only. A failed send of the first handshake_1 (`litewayd/src/main.rs:471-479`) is therefore not modelled.
- Locks: handlers are atomic steps. The daemon releases locks between the updates of `add_peer` and `remove_peer`, and a cleanup may run in between.
- Sessions.CrossingDialsConverge: messages and session keys are named rather than computed (a reply by its request, a key by the two messages; `Handshake.ExchangeAgrees` ties such a pair to one key). Runs in which a repeated handshake_1 comes after its reply left the 60 s cache, or in which more than 256 handshakes a minute flood it, session ids in flight collide, a node dials the other twice, or the dial or session times out before both have settled are not covered. Sessions held before the dials are taken not to be derived from them, since requests are random.
- Divergence.DivergenceHeals: a packet under another key is taken not to open, which is a property of the cipher and not of the daemon; keepalives are enabled.
- Delivery.ReassemblyUndoesFragmentation: other traffic must leave the message its headroom and not reuse its (source, id), since the assembler gives no promise otherwise; a copy that arrives after completion opens a new entry, as in the source.
- Handshake.ParseInvertsCreate1 and Handshake.ParseInvertsCreate2: builders and parsers of the handshake are functions on byte strings; growing buffers and the moving cursor are modelled only for session packets.
- NodeRuns.Daemon.AddPeer: peers are values in a map rather than objects, the certificate is reduced to name and authorised networks, and the host's routes are not touched.
- Routes.AuthorizedPeerRoutes: sorts and removes duplicates while inserting instead of in a final pass; warnings for malformed subnets are dropped.
- Retry.HandshakeTable.RetransmitHandshakes: the connected relays are a parameter, in any order.
- The mode with keepalives disabled, the shutdown notice, relay forwarding, lighthouse queries and discovery rate limits: easy or environmental. Nothing in the source bounds relay hops, so freedom from forwarding loops is not claimed.
- That every peer's networks are in the routing table: false in the source, where an equal network is taken over and not given back.
