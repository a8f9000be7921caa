# Verified model of the media server's protocol logic

A Dafny model of the parts of the server in which protocol state is kept: the STUN codec and the ICE connectivity check
built on it, the choice of connections to ping and to use, the queues between the threads, session
descriptions, and four smaller pieces (UDP send backlog, DTLS record walk, state aggregation, request framing). Objects
that the server updates in place are classes whose methods are proved against functions on values; threads are state
machines over single steps; the main results are lemmas about those functions and machines over all inputs and all runs.

| file | contents |
|---|---|
| `Octets.dfy`, `Text.dfy` | fixed-width integers, bytes and bit operations; splitting, searching and decimal numbers |
| `StunAttributes.dfy`, `StunFormat.dfy`, `Stun.dfy` | attributes, messages, integrity and fingerprint (RFC 5389, sections 6, 15, 15.4 and 15.5); the message object |
| `StunTransaction.dfy`, `ConnectivityCheck.dfy` | request, acceptance, response, refusal and pending requests of a connectivity check; one pair with its pings as requests |
| `Priority.dfy`, `IceConnection.dfy` | priorities (RFC 5245, sections 4.1.2.1, 5.7.2 and 7.1.2.1); one candidate pair over all runs |
| `PingScheduling.dfy`, `Selection.dfy`, `IceController.dfy`, `IceTransportChannel.dfy`, `CheckedChannel.dfy` | whom to ping, whom to use, the channel and its state, the channel with the requests of its pairs |
| `LockFreeQueue.dfy`, `QueueInterleaving.dfy`, `Mailbox.dfy`, `Pipeline.dfy`, `FinePipeline.dfy` | the queue call by call and step by step, queues with their pipes, the path from signaling to workers with whole calls and with single steps |
| `Sdp.dfy`, `Offer.dfy`, `PeerConnection.dfy` | printing and parsing SSRC lines (RFC 5576, sections 4.1 and 4.2) and credentials, whole descriptions, as functions and as loops |
| `UdpBacklog.dfy`, `DtlsRecords.dfy`, `StateAggregation.dfy`, `Framing.dfy` | the four smaller pieces (the record walk follows RFC 6347, section 4.1) |

`dafny verify dfyconfig.toml` checks everything.

What enters as a parameter: HMAC-SHA1 and CRC-32 are arbitrary functions (the HMAC always yields 20 bytes), every clock
reading is an argument, a socket answers each attempt as an arbitrary function says, the request handler is an arbitrary
function of the request, which texts make a fingerprint is an arbitrary predicate, the text of a candidate's address is
given, and addresses of new queue nodes are any that are not allocated, including deleted ones.

Where the code and what is said about it differ, the model follows the code:

- The pair priority doubles the larger priority in 32 bits; `PairPriorityIsFormula` says exactly when that is harmless.
- The candidate priority joins its fields with an or; `CandidatePriorityFallsShortByAnd` says exactly what that loses.
- The deadline of the fifth unanswered ping is kept in an `int`; `DeadlineIsExact` says exactly when that matters.
- The framing loop sets the number of processed bytes to 65535 after a request instead of counting; `RestsExactly`
  says exactly on which streams that works.
- Destroying the selected connection clears the channel's pointer but not the controller's; `OnConnectionDestroyed` says
  exactly when the two agree again.
- An audio section is printed with its SSRC groups and read without them; `DescriptionRoundTrip` says what comes back.
- A selection that is no longer ready is kept until one appears that is faster by 10; `UnreadySelectionIsKept` says
  exactly when.

## Model

| member | source | states |
|---|---|---|
| StunFormat.SignThenVerify | src/ice/stun.cpp:31-175 | sign, optionally fingerprint, write, read, validate: the bytes read back, and validation with any key says ok exactly when that key gives the signed bytes the signer's digest, for every HMAC and CRC; the fingerprint check holds too |
| StunFormat.VerifierHashesSignedBytes | src/ice/stun.cpp:73-175 | the verifier's walk ends on MESSAGE-INTEGRITY and, after its length rewrite, hashes the very bytes that were signed, with or without a fingerprint behind |
| StunFormat.WalkPasses | src/ice/stun.cpp:84-101 | the walk over a written message steps over every attribute of another type, whatever it carries, and lands on the next one |
| StunFormat.FingerprintVerifies | src/ice/stun.cpp:31-54 | every message finished with a fingerprint passes the static check on its written bytes |
| StunFormat.FingerprintIsAppended | src/ice/stun.cpp:31-54 | for any bytes: the static check accepts exactly whole words under the magic cookie that end in 80 28 00 04 and the CRC of everything before, xor 0x5354554e |
| StunFormat.IntegrityIsDigest | src/ice/stun.cpp:73-126 | for any bytes: validation holds exactly when the message is whole and the 20 bytes of its first MESSAGE-INTEGRITY are the digest of what stands before it, under a length that ends with it |
| StunFormat.FinishedBytes | src/ice/stun.cpp:127-206 | a signed and fingerprinted message byte by byte: header, attributes, MESSAGE-INTEGRITY over both under the length it ends at, FINGERPRINT over all of it |
| StunFormat.HeaderRead | src/ice/stun.cpp:208-252 | for any bytes: a message is read exactly when bit 11 of its type is clear, its length field counts the rest and its attributes parse; the id is the 12 bytes behind the cookie, or 16 without it |
| StunFormat.FindsTheFirst | src/ice/stun.cpp:310-330 | a lookup finds the first attribute of the type, and nothing exactly when there is none |
| StunFormat.ReadUndoesWrite | src/ice/stun.cpp:188-283 | a written message reads back exactly when bit 0x0800 is clear and the body is below 65536 bytes; then type, id and the known attributes return in order |
| StunFormat.WrittenSize | src/ice/stun.cpp:177-206 | after any sequence of additions the wire form is 20 bytes plus a multiple of 4 that the length field counts modulo 2^16 |
| StunFormat.CountedAdd | src/ice/stun.cpp:177-186 | one addition keeps the length field equal to the wire size of the body modulo 2^16 |
| StunAttributes.ParseBody | src/ice/stun.cpp:254-304 | the attribute loop returns exactly the attributes of known types, in order and with their values, and skips the rest |
| StunAttributes.ReaderAccepts | src/ice/stun.cpp:254-304 | for any bytes: the reader accepts exactly the concatenations of whole attributes, where a known type has the size its class asks for and only the last byte string may lack its padding, and returns the known ones in order |
| StunAttributes.WireSize | src/ice/stun.cpp:177-186 | the size an attribute takes on the wire agrees with what the addition counted, modulo 2^16 |
| StunAttributes.BodyIsAligned | src/ice/stun.cpp:360-366 | padding makes every body a multiple of 4 bytes (RFC 5389 section 15) |
| StunAttributes.XorAddressUnmasks | src/ice/stun.cpp:433-480 | a client undoing the mask of RFC 5389 section 15.2 recovers the IPv4 address and port |
| Octets.BitByBit | src/ice/stun.cpp:433-480 | the exclusive or of the mask, and the or and and of the priorities, bit by bit |
| Stun.StunMessage.AddAttribute | src/ice/stun.cpp:177-186 | the object after the call is the specified addition: the attribute last, the length advanced by its padded footprint in 16 bits |
| Stun.StunMessage.Write | src/ice/stun.cpp:188-206 | the loop writes the specified encoding, and nothing when some attribute cannot be written |
| Stun.StunMessage.Read | src/ice/stun.cpp:208-283 | success exactly when the bytes parse; then the fields are the parsed ones and the buffer is kept |
| Stun.StunMessage.ReadAttributes | src/ice/stun.cpp:254-283 | the loop collects what the recursive parser of the body yields, and fails when it does |
| Stun.ReadAttribute | src/ice/stun.cpp:261-279 | one attribute taken off the front leaves a shorter rest with the same parse |
| Stun.StunMessage.AddMessageIntegrity | src/ice/stun.cpp:145-175 | placeholder, hash and in-place fill come to the signed message of the specification, or to the failed state when it cannot be written |
| Stun.StunMessage.AddFingerprint | src/ice/stun.cpp:127-143 | placeholder, checksum and patch come to the fingerprinted message of the specification |
| Stun.StunMessage.ValidateMessageIntegrity | src/ice/stun.cpp:56-71 | not set without the attribute, otherwise ok exactly when the received bytes carry the digest of their covered part |
| Stun.ValidateIntegrityOfType | src/ice/stun.cpp:73-126 | the loop, the length rewrite and the comparison decide exactly the specified condition on the received bytes |
| StunTransaction.CheckTransaction | src/ice/ice_connection.cpp:266-303 | between agents holding each other's credentials the request is answered, the IPv4 answer settles exactly the pending request as a success, and a repeat of it settles nothing |
| StunTransaction.RequestAtPort | src/ice/udp_port.cpp:116-186 | a prepared request is accepted exactly when neither fragment has a colon, the port owns the named fragment and its password gives the signer's digest; then it yields the sender's fragment and advertised priority |
| StunTransaction.RequestVerdict | src/ice/udp_port.cpp:116-163 | for every datagram, whoever wrote it: a fingerprinted binding request is refused with 400 exactly when USERNAME or MESSAGE-INTEGRITY is missing, and accepted exactly when both are there, the user name is the port's fragment and another around the only colon, and the port's password gives its digest; every other one is refused with 401 |
| StunTransaction.ActionVerdict | src/ice/ice_connection.cpp:266-303 | for every datagram: a pair answers exactly the requests authenticated with the port's password that name both fragments, and settles exactly on 0x0101 and 0x0111 with a digest made with the peer's password |
| StunTransaction.RequestBytes | src/ice/ice_connection.cpp:16-31 | the request byte by byte: USERNAME, ICE-CONTROLLING, USE-CANDIDATE and PRIORITY in this order, then digest and fingerprint |
| StunTransaction.ResponseAtSender | src/ice/ice_connection.cpp:230-265 | an IPv4 success response arrives with the request's id, and its integrity is ok for exactly the keys with the signer's digest |
| StunTransaction.AnswerBytes | src/ice/ice_connection.cpp:230-247 | the 64 bytes of the answer: the request's id, XOR-MAPPED-ADDRESS from which a client unmasks exactly the address given, digest and fingerprint |
| StunTransaction.OnlyInet4IsSent | src/ice/stun.cpp:433-480 | a response can be written exactly for IPv4 addresses |
| StunTransaction.UsernameRoundTrip | src/ice/udp_port.cpp:165-186 | the user name made from two fragments parses back to them exactly when neither holds a colon, and is refused otherwise |
| Text.SplitJoins | src/ice/udp_port.cpp:174-180 | splitting any text is undone by joining its fields, none of which holds the delimiter |
| StunTransaction.AcceptedHasTransactionId | src/ice/udp_port.cpp:116-163 | what a port accepts always has a 12-byte transaction id, the bytes 8 to 20 of the datagram |
| StunTransaction.UdpPort.GetStunMessage | src/ice/udp_port.cpp:116-163 | the verdict on a datagram: not STUN, refused with 400 or 401, or accepted with the remote fragment; and with a refusal the error response that goes out; `RequestVerdict` says which datagram gets which |
| StunTransaction.UdpPort.SendBindingErrorResponse | src/ice/udp_port.cpp:195-229 | the datagram sent is the encoded error response, signed unless its code is 400 or 401, and fingerprinted |
| StunTransaction.ErrorAtSender | src/ice/udp_port.cpp:195-229 | an error response reads back with the request's id, and it settles a request exactly when its code is neither 400 nor 401 and it was signed with the peer's key; otherwise it is dropped |
| StunTransaction.RefusalBytes | src/ice/udp_port.cpp:195-229 | the bytes of the refusals 400 and 401: the request's id, ERROR-CODE of class 4 with number and reason, a fingerprint and no digest |
| StunTransaction.Prepare | src/ice/ice_connection.cpp:16-31 | the message object becomes the signed and fingerprinted binding request of the specification |
| StunTransaction.AnswerRequest | src/ice/ice_connection.cpp:230-265 | nothing without USERNAME or for an unmaskable address, otherwise the signed success response, from whose bytes 24 to 32 exactly the given address is unmasked |
| StunTransaction.StunRequestManager.CheckResponse | src/ice/stun_request.cpp:30-50 | the callback that runs is decided by the pending request and the response type; a matched request is gone afterwards whatever the type |
| StunTransaction.OutcomeByType | src/ice/stun_request.cpp:30-50 | a pending binding request succeeds on 0x0101 and fails on 0x0111; any other type runs no callback |
| StunTransaction.RequestsAreConserved | src/ice/stun_request.cpp:16-62 | over any run every request sent is settled once, displaced by one with its id, or still pending |
| StunTransaction.DeliveredAtMostOnce | src/ice/stun_request.cpp:30-62 | a request sent once is answered at most once, however often its response arrives |
| ConnectivityChecks.RunIsSound | src/ice/ice_connection.cpp:107-332 | over every run of pings, answers and updates each unanswered ping of a living pair has its pending request; the pair itself makes exactly a monotone run of its own; and while the run is shorter than 2^31 ms the round-trip estimate is never negative nor longer than the run |
| ConnectivityChecks.LivesUntilRefused | src/ice/ice_connection.cpp:197-213 | over every run: a pair lives exactly until an error answers one of its outstanding requests, and while it lives the requests that were sent and not answered since are pending |
| ConnectivityChecks.AnyAnswerCounts | src/ice/ice_connection.cpp:107-135 | the peer's answer to any unanswered ping, however late, is taken as a response, makes the pair writable with nothing unanswered and a sample measured from when the latest request with its id was written; the same answer again changes nothing |
| ConnectivityChecks.ConnectivityCheck.Ping | src/ice/ice_connection.cpp:323-332 | a ping joins the unanswered ones, its request is pending under its id, and what goes out is the signed binding request of that id |
| ConnectivityChecks.ConnectivityCheck.OnReadPacket | src/ice/ice_connection.cpp:266-303 | the action on a datagram, the reply sent, and the effect on the pair and its pending requests: an authenticated response settles its request, anything else changes nothing |
| CheckedChannels.CheckedChannel.OnCheckAndPing | src/ice/ice_transport_channel.cpp:282-313 | the channel's timer with its requests: every pair is updated, the pinged one has the new id unanswered and pending, what goes out is the signed binding request of that id, and every pair of the channel keeps what holds of its own history and requests |
| CheckedChannels.CheckedChannel.OnReadPacket | src/ice/ice_connection.cpp:266-303 | a datagram of one pair of a channel: action and reply as decided; an authenticated response settles its request with the channel's reactions, an error response ends the pair, and every other pair stays as it was |
| CheckedChannels.CheckedChannel.OnFirstPacket | src/ice/udp_port.cpp:93-114 | a datagram from an address without a pair: an accepted request with a priority makes the pair with its priority, fragment and the password known so far and is answered; a refused one gets its error response; anything else is ignored |
| CheckedChannels.RequestIntroduces | src/ice/ice_transport_channel.cpp:94-131 | a prepared request for this port is such a request: the sender's fragment and advertised priority are read and the success response with its id goes out |
| CheckedChannels.TickKeepsAllGood | src/ice/ice_connection.cpp:172-332 | a tick keeps for every pair that unanswered pings are pending requests and that its fields are consistent with the clock |
| CheckedChannels.AnswerKeepsAllGood | src/ice/ice_connection.cpp:107-209 | an answer to any pair keeps the same for every pair that is left |
| Priorities.PairPriorityIsFormula | src/ice/ice_connection.cpp:215-221 | the 32/64-bit code equals the formula of RFC 5245 section 5.7.2 exactly when both priorities are below 2^31 |
| Priorities.WrappedPriorityMisorders | src/ice/ice_connection.cpp:215-221 | beside a lower local priority, a remote priority of 2^31 or more against one below 2^31: the formula always prefers it, the code exactly when the other is below the local priority or below what wrapping leaves |
| Priorities.HostPriorityIsBelow2To31 | src/ice/ice_connection.cpp:215-221 | a host candidate's own priority is always below 2^31, so only a received one wraps, and for every host priority a peer's 2^31 loses to an equal priority |
| Priorities.PairPriorityIsLexicographic | src/ice/ice_connection.cpp:215-221 | below 2^31 pairs are ordered by minimum, then maximum, then the controlling side |
| Priorities.PairPriorityIsInjective | src/ice/ice_connection.cpp:215-221 | below 2^31 different pairs never tie |
| Priorities.LocalPreferenceIsSum | src/ice/candidate.cpp:16-18 | the or of adapter and address preference adds while the address part fits a byte |
| Priorities.CandidatePriorityIsFormula | src/ice/candidate.cpp:16-20 | for local preferences below 2^16 the or of shifts is the sum of RFC 5245 section 4.1.2.1 |
| Priorities.CandidatePriorityFallsShortByAnd | src/ice/candidate.cpp:16-20 | for local preferences up to 2^24 the or falls short of the sum by exactly the bits that type preference and overflowing local preference share; it is the sum exactly when they share none |
| Priorities.WideLocalPreferenceLosesABit | src/ice/candidate.cpp:16-20 | at the host type preference bit 16 of the local preference is harmless and bit 17 is lost |
| Priorities.AdvertisedIsPeerReflexive | src/ice/ice_connection.cpp:25-28 | the advertised PRIORITY is what the candidate would have as peer reflexive (RFC 5245 section 7.1.2.1) |
| IceConnections.RunIsConsistent | src/ice/ice_connection.cpp:107-195 | over every run with a monotone clock: unanswered pings sorted and none older than the last response, INIT means no response yet, UNRELIABLE at least 5 unanswered and the oldest over 5 s, TIMEOUT the oldest over 15 s; pings, last ping, last response and both counts are what the history says |
| IceConnections.ReceivingIsHistory | src/ice/ice_connection.cpp:89-105 | over every run: after a response or an update the pair receives exactly when its last ping was answered since or its last response is less than 2.5 s old; a ping changes nothing of it |
| IceConnections.StableIsHistory | src/ice/ice_connection.cpp:311-321 | over every run: stable exactly from the fifth response on, while the oldest open ping waits no longer than two round trips |
| IceConnections.UpdateIsExact | src/ice/ice_connection.cpp:155-195 | the write state after an update, for every pair and clock, with both tests and the limits 100, 60000, 5000 and 15000 ms written out |
| IceConnections.OnlyResponsesImprove | src/ice/ice_connection.cpp:79-195 | a response always makes the pair writable; any other change of state is an update that makes it worse |
| IceConnections.EstimateMovesAQuarter | src/ice/ice_connection.cpp:107-118 | a later sample moves the round-trip estimate a quarter of the way, never past the sample |
| IceConnections.DegradesExactly | src/ice/ice_connection.cpp:155-195 | a writable pair that hears nothing leaves that state exactly when some update found the fifth ping past its narrowed deadline and the oldest over 5 s, and times out exactly when one found it over 15 s |
| IceConnections.DeadlineIsExact | src/ice/ice_connection.cpp:155-162 | the deadline kept in 32 bits is the real one exactly when it is below 2^31 or has passed anyway; beyond 2^31 ms of clock five unanswered pings always are too many |
| IceConnections.ConnectTimesOutExactly | src/ice/ice_connection.cpp:164-195 | a new pair that hears nothing times out exactly when an update comes over 15 s after its first ping |
| IceConnections.IceConnection.RecordResponse | src/ice/ice_connection.cpp:107-121 | estimate, sample count, response time and cleared pings, before any signal |
| IceConnections.IceConnection.FindsReceiving | src/ice/ice_connection.cpp:89-99 | receiving exactly when a response came after the last ping or within 2.5 s; `ReceivingIsHistory` says it of whole runs |
| IceConnections.IceConnection.FindsUnreliable | src/ice/ice_connection.cpp:155-186 | the first test of the update, with the clamped round trip, agrees with the specified degradation |
| IceConnections.IceConnection.MaybeSetRemoteIceParams | src/ice/ice_connection.cpp:305-309 | a password is taken over only for the right fragment and only once |
| PingScheduling.EveryRunIsFair | src/ice/ice_controller.cpp:13-29 | over every run of additions, removals and checks the sets partition the connections and nothing unpinged was pinged later than something pinged |
| PingScheduling.ChoiceIsLeastRecentlyPinged | src/ice/ice_controller.cpp:82-129 | outside the selected-first branch the choice is least recently pinged among all pingable connections, as if one list were scanned; none exactly when nothing is pingable |
| PingScheduling.RoundRobin | src/ice/ice_controller.cpp:82-129 | with n connections pingable throughout, any n consecutive pings hit each of them exactly once; `RunTimer` shows that the timer of a channel makes such runs |
| PingScheduling.NoneStarves | src/ice/ice_controller.cpp:82-129 | with pings of the selected connection in between and changing sets of pingable ones, a connection that may be pinged at every scan is pinged before as many scans are over as there are candidates |
| PingScheduling.LongestWaitingIsChosen | src/ice/ice_controller.cpp:96-112 | a connection pinged since a moment is not chosen while another has waited since before it |
| Selection.BeforeIsLexicographic | src/ice/ice_controller.cpp:153-201 | the comparison chain is the lexicographic order on write state, receiving, priority and round trip |
| Selection.BeforeIsStrictWeakOrder | src/ice/ice_controller.cpp:153-201 | it is a strict weak order in which only equal keys tie |
| Selection.StableSortIsStable | src/ice/ice_controller.cpp:193-201 | the sort is in order and keeps every class of ties in its original order |
| Selection.OrderedClassesDecide | src/ice/ice_controller.cpp:193-201 | order and stability determine the result: any list with both is the same list |
| Selection.TopIsBest | src/ice/ice_controller.cpp:208-211 | the first of the sorted list is beaten by none and is the earliest of its ties |
| Selection.SwitchIsSoundAndSettles | src/ice/ice_controller.cpp:193-222 | a switch takes a ready, unbeaten connection whose round trip is at least 10 below the one it replaces; running it again with unchanged measurements never switches |
| Selection.UnreadySelectionIsKept | src/ice/ice_controller.cpp:208-221 | a selection that is no longer ready is replaced exactly when some ready pair that no other beats has a round trip at least 10 below its own |
| IceControllers.IceController.AddConnection | src/ice/ice_controller.cpp:13-16 | the connection joins the list and the unpinged set: the scheduler's addition |
| IceControllers.IceController.OnConnectionDestroyed | src/ice/ice_controller.cpp:18-29 | the connection leaves both sets and its first place in the list: the scheduler's removal |
| IceControllers.IceController.HasPingableConnection | src/ice/ice_controller.cpp:31-39 | true exactly when some connection may be pinged now |
| IceControllers.IceController.FindNextPingable | src/ice/ice_controller.cpp:82-113 | the selected connection when it is due, otherwise refill and scan as the scheduler specifies; under a strong selection the chosen one rested 48, 900 or 2500 ms |
| IceControllers.IceController.DueMeans | src/ice/ice_controller.cpp:42-151 | over the fields: what may be pinged while the selected pair is missing, silent or strong, after rests of 48, 900 or 2500 ms; when the selected pair goes first; when more pings are needed |
| IceControllers.IceController.ScanUnpinged | src/ice/ice_controller.cpp:101-112 | the loop over the unpinged set ends on a pingable one pinged no later than the others |
| IceControllers.IceController.SelectConnectionToPing | src/ice/ice_controller.cpp:60-79 | no choice before the interval is over; the interval is 48 ms while weak or short of pings and 480 ms otherwise |
| IceControllers.IceController.MarkConnectionPinged | src/ice/ice_controller.cpp:224-228 | the marking completes the scheduler's step |
| IceControllers.IceController.SortAndSwitch | src/ice/ice_controller.cpp:193-222 | the list becomes the stable sort of itself and the result is the specified switch; over the fields: no pair stands behind one it beats in write state, receiving, pair priority and round trip, in this order; the first takes over exactly when it can carry data and is 10 ms faster than the selected, if any, and one that hears nothing does so only when none of its write state hears anything |
| IceControllers.IceController.JudgeTop | src/ice/ice_controller.cpp:208-221 | the tests on the sorted list decide the specified switch |
| IceControllers.SortedKeepsMembers | src/ice/ice_controller.cpp:193-201 | sorting neither loses nor repeats a connection |
| IceTransportChannels.StateIsHistory | src/ice/ice_transport_channel.cpp:133-240 | after each update the state is exactly what the history says: connected exactly when writable, failed exactly when a connection once existed and none is active, new only before the first, never checking once it was writable; every channel object carries such a history |
| IceTransportChannels.FlagsAreHistory | src/ice/ice_transport_channel.cpp:133-182 | the two flags record exactly whether a connection was ever added and whether the channel was ever writable |
| IceTransportChannels.IceTransportChannel.UpdateState | src/ice/ice_transport_channel.cpp:194-212 | the loops leave flags, receiving and state as the refresh specifies |
| IceTransportChannels.IceTransportChannel.ComputeIceTransportState | src/ice/ice_transport_channel.cpp:214-240 | the cascade after its loop is the specified state |
| IceTransportChannels.IceTransportChannel.OnConnectionStateChange | src/ice/ice_transport_channel.cpp:160-168 | the list is re-sorted, in order of the fields, and its first pair takes over in both pointers exactly when it can carry data and is 10 ms faster than the selected, if any; the state is refreshed and pinging starts when something is pingable |
| IceTransportChannels.IceTransportChannel.SettledMeans | src/ice/ice_transport_channel.cpp:194-240 | at every moment between calls of a channel, its flags and its state are exactly what its own recorded history and its connections say |
| IceTransportChannels.IceTransportChannel.NeverGoesBack | src/ice/ice_transport_channel.cpp:194-240 | over any stretch of a channel's life: once writable never checking again, once it had a connection never new |
| IceTransportChannels.IceTransportChannel.AddConnection | src/ice/ice_transport_channel.cpp:133-141 | after a new pair the channel is healthy: settled, with a possible history and a fair schedule; it had a connection, and the scheduler gained it |
| IceTransportChannels.IceTransportChannel.OnUnknownAddress | src/ice/ice_transport_channel.cpp:94-131 | a first request without PRIORITY leaves the channel as it was; any other creates the peer reflexive pair with its priority, fragment and the password known so far |
| IceTransportChannels.IceTransportChannel.OnConnectionDestroyed | src/ice/ice_transport_channel.cpp:147-158 | a destroyed selection is replaced exactly when the best of the others, as they stood before the call, is ready and at least 10 faster than it, and the two selected pointers agree afterwards exactly then; the pings' distances and fairness carry over |
| IceTransportChannels.IceTransportChannel.UpdateConnection | src/ice/ice_connection.cpp:172-195 | one update with a reaction to each of its signals changes the pair as specified and leaves the channel settled |
| IceTransportChannels.IceTransportChannel.OnPingResponse | src/ice/ice_connection.cpp:107-125 | a response with its two signals makes the pair writable with nothing unanswered and leaves the channel settled |
| IceTransportChannels.IceTransportChannel.UpdateConnectionStates | src/ice/ice_transport_channel.cpp:302-308 | every connection is updated once, though the reactions reorder the list |
| IceTransportChannels.IceTransportChannel.SelectNext | src/ice/ice_transport_channel.cpp:282-288 | the selection is one possible scheduler step; while nothing is selected it scans all credentialed connections |
| IceTransportChannels.IceTransportChannel.PingConnection | src/ice/ice_transport_channel.cpp:289-293 | the ping and the marking together move the scheduler and the pair as one step |
| IceTransportChannels.IceTransportChannel.OnCheckAndPing | src/ice/ice_transport_channel.cpp:282-313 | every pair updated and at most one pinged, at least 43 ms after the previous ping, or 475 ms when the selection is strong and all had three pings; the scheduler makes exactly the returned step, the ping joins the log, and the channel stays healthy |
| IceTransportChannels.IceTransportChannel.RunTimer | src/ice/ice_transport_channel.cpp:282-313 | over any sequence of ticks the steps are a run of the scheduler at the ticks' times; while nothing is selected it is a steady scan, and as many steps as there are credentialed connections ping each of them exactly once |
| IceTransportChannels.PingsAreApart | src/ice/ice_transport_channel.cpp:282-313 | in the log every healthy channel carries, n pings take at least 43 (n - 1) ms |
| IceTransportChannels.IceTransportChannel.SetRemoteIceParams | src/ice/ice_transport_channel.cpp:51-61 | the password reaches exactly the pairs of that fragment that have none, and is kept for later pairs |
| QueueInterleavings.EveryRunIsSafe | src/base/lock_free_queue.h:32-54 | in every interleaving of one producer and one consumer: no null or deleted node is followed, first reaches divider reaches last, taken, stored and passing values add up in order to those offered, the counter is off by exactly the calls between moving a pointer and counting, and no node leaks |
| QueueInterleavings.TakenIsPrefix | src/base/lock_free_queue.h:32-54 | results come in the order of the arguments; at rest the counter is their difference |
| QueueInterleavings.EmptyMeansDrained | src/base/lock_free_queue.h:43-52 | a consume fails exactly when everything offered is taken or has not yet moved the last pointer |
| QueueInterleavings.ReturnsWhenReclaimed | src/base/lock_free_queue.h:37-41 | in every interleaving a produce returns exactly when no node is allocated besides the divider's and those of values nobody has taken yet |
| QueueInterleavings.StepKeepsInv | src/base/lock_free_queue.h:32-54 | each single read or write keeps the shape of the list and the accounts |
| LockFreeQueues.LockFreeQueue.Produce | src/base/lock_free_queue.h:32-42 | the value is appended to the contents and every spent node before the divider is dropped |
| LockFreeQueues.LockFreeQueue.Reclaim | src/base/lock_free_queue.h:37-41 | the loop drops exactly the nodes before the divider and keeps the contents |
| LockFreeQueues.LockFreeQueue.Consume | src/base/lock_free_queue.h:43-52 | false exactly when empty; otherwise the oldest value leaves |
| LockFreeQueues.LockFreeQueue.SizeCounts | src/base/lock_free_queue.h:53-54 | between calls the counter is the number of values |
| Mailboxes.StepKeepsSound | src/server/signaling_worker.cpp:566-584 | each push, token write, token read and pop keeps one token or thread per queued message and the order of the messages |
| Mailboxes.QuietMeansDrained | src/server/signaling_worker.cpp:566-584 | when nobody is in the middle of anything no message is left; otherwise somebody can move |
| Mailboxes.SharedStepKeepsSound | src/server/signaling_worker.cpp:198-217 | two queues behind one pipe: every token is dispatched to the queue it was written for and neither queue misses |
| Mailboxes.EverySharedRunIsSound | src/server/signaling_worker.cpp:198-217 | over every run from the empty worker both queues keep their order and miss nothing, each holds one entry per token of its kind, per sender and per owner in between, and at rest both are drained |
| Mailboxes.EveryTokenFindsAMessage | src/server/signaling_worker.cpp:198-217 | the token at the front of the pipe always finds a message or a connection to dispatch |
| Pipelines.NothingIsStranded | src/server/rtc_server.cpp:145-204 | in every interleaving each queue holds one message per token, per sender between push and write and per owner between read and pop, at the server and at every worker |
| Pipelines.StreamsKeepTheirOrder | src/server/rtc_worker.cpp:78-118 | messages of a stream are dequeued by the one worker its name selects in the order they reached the server; no other worker sees one |
| Pipelines.QuietMeansDelivered | src/server/rtc_worker.cpp:78-118 | with all threads at rest and no token left every message was dequeued by its worker |
| Pipelines.NeverStuck | src/server/rtc_server.cpp:188-204 | while anything is undelivered some thread can move |
| Pipelines.DeliveryTakesSevenSteps | src/server/rtc_server.cpp:188-204 | over any run the steps besides sends and the work still to come are seven per message, and no work is left exactly when all threads are at rest: delivery cannot be put off for ever |
| Pipelines.RoutedKeepsStreams | src/server/rtc_server.cpp:179-186 | routing by checksum keeps each stream whole and in order at one worker |
| Pipelines.WorkerIsRemainder | src/server/rtc_server.cpp:179-186 | the worker's index is below their number and the checksum is that much more than a multiple of it |
| Pipelines.StepKeepsInv | src/server/rtc_server.cpp:145-204 | each step of each thread keeps the accounts of all mailboxes and the routing |
| FinePipelines.StepRefines | src/base/lock_free_queue.h:32-54 | every read or write that the two threads make in a worker's queue, and every token, is one event of the mailbox or none: a push takes effect when the last pointer moves, a pop when the divider does |
| FinePipelines.EveryFineRunRefines | src/server/rtc_server.cpp:179-204 | every run of the pipeline in which each queue access of the server thread and of the workers is a step of its own is a run of the coarse pipeline |
| FinePipelines.FineRunsDeliver | src/server/rtc_worker.cpp:78-118 | so with the queues taken apart no worker that has read a token finds its queue empty, no access faults, and what it has taken of a stream is a prefix of what reached the server, at the stream's worker only |
| FinePipelines.FineQuietMeansDelivered | src/server/rtc_worker.cpp:78-118 | and once all threads rest every worker has taken exactly its messages in order |
| Sdp.TextRoundTrip | src/pc/peer_connection.cpp:307-423 | after any lines that open the video medium and are accepted, the printed SSRC lines, on the text with its line ends, read back to the same tracks: order, SSRCs, groups, cname and stream id |
| Sdp.RefusedLines | src/pc/peer_connection.cpp:156-389 | for every line: refused exactly when it opens a medium with fewer than three words or a first word of one character, or holds a credential, SSRC or (in the video section) group that is not well-formed |
| Sdp.TransportLinesRead | src/pc/session_description.cpp:296-306 | the printed fragment, password and fingerprint lines read back as those credentials, the algorithm in lower case |
| Sdp.LinesRoundTrip | src/pc/peer_connection.cpp:190-305 | line by line, parsing and rebuilding undoes printing |
| Sdp.TracksLinesRead | src/pc/peer_connection.cpp:190-281 | reading the printed lines collects every SSRC and every group once and in order |
| Sdp.InfoLinesRead | src/pc/peer_connection.cpp:190-248 | the four lines of a new SSRC leave one complete entry |
| Sdp.SsrcLineReads | src/pc/peer_connection.cpp:190-248 | a printed line sets that attribute of that SSRC and nothing else |
| Sdp.GroupLineReads | src/pc/peer_connection.cpp:250-281 | a printed group line yields that group |
| Sdp.MsidSets | src/pc/peer_connection.cpp:234-246 | an msid value gives both names back exactly when neither has a space |
| Sdp.TracksRebuilt | src/pc/peer_connection.cpp:283-305 | the entries rebuild the tracks in order with all their SSRCs |
| Sdp.TracksCollect | src/pc/peer_connection.cpp:283-305 | for any entries, not only printed ones: every track they name is made once and has the SSRCs of exactly its entries in their order, with the names the last of them gives |
| Sdp.GroupsReattached | src/pc/peer_connection.cpp:401-412 | each group returns to its own track and to no other |
| Sdp.AllAttachedAt | src/pc/peer_connection.cpp:401-412 | for any tracks and groups: each track keeps its place and takes, in their order, exactly the groups whose first SSRC is its own |
| Sdp.EndedTokenizes | src/pc/peer_connection.cpp:307-339 | cutting the text at line feeds gives the printed lines |
| Offers.DescriptionRoundTrip | src/pc/session_description.cpp:254-320 | a whole printed description, with header, audio and video sections, candidates, credentials, codecs and tracks, reads back to the video tracks, the audio tracks without groups, and the credentials of both media; nothing else in it disturbs the reader |
| Offers.AudioMirrors | src/pc/peer_connection.cpp:367-389 | whatever lines do to the video side they do to the audio side, except that groups are not looked for |
| Offers.SectionCarries | src/pc/session_description.cpp:291-317 | every candidate, codec, feedback and codec parameter of a section has its line, and so have mid, direction, mux and role |
| Offers.CandidateReads | src/pc/session_description.cpp:208-223 | splitting a candidate line gives foundation, component, protocol, priority, host, port and type in their places |
| Offers.MapReads | src/pc/session_description.cpp:178-189 | splitting a map line gives payload type, name, clock rate and, for audio only, channels |
| Offers.FeedbackReads | src/pc/session_description.cpp:156-164 | splitting a feedback line gives payload type, name and the value unless it is empty |
| Offers.FormatReads | src/pc/session_description.cpp:166-176 | splitting a format line gives the payload type and every parameter in its order |
| Offers.MediaReads | src/pc/session_description.cpp:280-289 | splitting a media line gives the medium, port 9, the transport and every payload type in its order |
| Offers.BundleReads | src/pc/session_description.cpp:266-276 | splitting the bundle line gives the names in their order |
| Offers.CodecsOfContents | src/pc/session_description.cpp:12-55 | the codecs every content starts with can be printed: none of their parameters looks like a line of its own |
| Offers.ToText | src/pc/session_description.cpp:254-320 | the loops print exactly the specified lines |
| Text.DecimalReads | src/pc/peer_connection.cpp:204-209 | a printed number reads back |
| PeerConnections.BuildSsrc | src/pc/session_description.cpp:230-252 | the nested loops print exactly the specified lines, groups first and empty groups left out |
| PeerConnections.ParseSsrcInfo | src/pc/peer_connection.cpp:190-248 | the updated entries, or the error, of the specification for every line |
| PeerConnections.ParseSsrcGroupInfo | src/pc/peer_connection.cpp:250-281 | the appended group, or the error, of the specification for every line |
| PeerConnections.ParseTransportInfo | src/pc/peer_connection.cpp:156-188 | the credential, with the algorithm in lower case, or the error, of the specification for every line |
| PeerConnections.CreateTrackFromSsrcInfo | src/pc/peer_connection.cpp:283-305 | the nested loops build the specified tracks |
| PeerConnections.AttachGroups | src/pc/peer_connection.cpp:401-412 | every group goes to each track that has its first SSRC |
| PeerConnections.SetRemoteSdp | src/pc/peer_connection.cpp:307-417 | for every text the tracks and credentials of both media, or an error as soon as one line is bad |
| UdpBacklogs.EveryRunIsSound | src/base/async_udp_socket.cpp:56-132 | for every sequence of calls, write events and socket outcomes each datagram has exactly one fate, datagrams leave in call order and before all that wait, and write interest is armed while any waits |
| UdpBacklogs.OnlyFailuresCost | src/base/async_udp_socket.cpp:56-132 | over every run: as many datagrams left as attempts were sent; no more calls are refused and no more datagrams dropped than attempts failed, at most one a call or event; so while none fails, a socket that would block costs nothing |
| UdpBacklogs.StepAnswers | src/base/async_udp_socket.cpp:56-132 | one call or event has at most one failed attempt; a call is refused exactly when it had one; a failed drain drops the oldest unsent datagram; while anything waits the last attempt was not sent; a write event without failure leaves write interest armed exactly while something waits |
| UdpBacklogs.DrainedKeeps | src/base/async_udp_socket.cpp:56-77 | draining loses nothing, keeps the order and ends as the first failure or block dictates |
| UdpBacklogs.AsyncUdpSocket.AddUdpPacket | src/base/async_udp_socket.cpp:88-132 | the loop and its exits perform the specified offer; an error return means exactly that this datagram was rejected, and `StepAnswers` that an attempt failed |
| UdpBacklogs.AsyncUdpSocket.SendData | src/base/async_udp_socket.cpp:56-82 | the write event performs the specified flush and disarms only an empty backlog |
| DtlsRecords.HandleDtlsPacket | src/pc/dtls_transport.cpp:372-391 | the loop ends and accepts exactly the concatenations of records of 13 bytes plus their length |
| DtlsRecords.DecompositionIsUnique | src/pc/dtls_transport.cpp:372-391 | a datagram is such a concatenation in only one way |
| DtlsRecords.RecordsFound | src/pc/dtls_transport.cpp:372-391 | the walk finds exactly the records that were written |
| StateAggregation.ComputeIceState | src/ice/ice_agent.cpp:45-72 | counting and cascading come to the quantified precedence over the channels; the default is never kept by fall-through |
| StateAggregation.LastCaseIsCertain | src/ice/ice_agent.cpp:60-72 | when the last test is reached every channel is connected, completed or closed |
| StateAggregation.AgentStateMeans | src/ice/ice_agent.cpp:45-72 | for every list of channels: exactly when the agent is failed, disconnected, new, completed or connected, said of the channels alone |
| StateAggregation.ControllerStateMeans | src/pc/transport_controller.cpp:85-115 | the same of a peer connection that is failed, disconnected or new |
| StateAggregation.IceAgent.UpdateState | src/ice/ice_agent.cpp:74-81 | the state is the aggregate and the announcements are those of the change |
| StateAggregation.AnnouncementsStep | src/ice/ice_agent.cpp:74-81 | over any run announcements never repeat, never jump from checking to completed, and end at the current state |
| StateAggregation.TransportController.ComputePcState | src/pc/transport_controller.cpp:85-115 | the summed counts and the cascade come to the quantified precedence; the last test is always true when reached |
| StateAggregation.ConnectedMeans | src/pc/transport_controller.cpp:85-115 | connected exactly when every DTLS transport is connected or closed, every ICE channel connected, completed or closed, and not all are closed |
| StateAggregation.ConnectedImpliesAgent | src/pc/transport_controller.cpp:85-115 | a connected peer connection has a connected or completed agent unless all the agent's channels are closed, whatever channels the agent has as long as each of their states is among those counted |
| Framing.TcpConnection.ReadAll | src/server/signaling_worker.cpp:276-344 | however the stream is cut into reads, unless it is endless the handler runs once, as soon as 36 bytes and the body are there, on exactly those bytes; a wrong magic number closes |
| Framing.StreamMeans | src/server/signaling_worker.cpp:320-344 | what a stream determines, byte by byte: the magic number at 24, the length of the body at 32, lowest byte first, what the handler is called with, and when the connection closes |
| Framing.TcpConnection.ProcessQueryBuffer | src/server/signaling_worker.cpp:320-344 | the loop ends in the state the buffer alone determines |
| Framing.TcpConnection.ReadQuery | src/server/signaling_worker.cpp:276-305 | appending and processing keep the connection as the stream so far determines |
| Framing.RestsBelowTheLimit | src/server/signaling_worker.cpp:320-344 | after a request the loop rests exactly below 65571 bytes; from there every turn handles the first request again |
| Framing.RestsExactly | src/server/signaling_worker.cpp:320-344 | on every stream the loop rests after some turns exactly when it is not the case that a complete, accepted request has 65571 bytes or more in its buffer |
| Framing.AcceptedRequestRepeats | src/server/signaling_worker.cpp:320-344 | every request the handler accepts makes such a stream with any bytes behind it, exactly from 65571 bytes on |
| Framing.AnswerRepeats | src/server/signaling_worker.cpp:346-417 | in particular the request with the body {"cmdno":3}, once accepted, is handled over and over exactly with 65524 bytes or more behind it |
| Framing.ClosedStaysClosed | src/server/signaling_worker.cpp:320-344 | what the bytes so far decided is not changed by later bytes |

## Left out

- Stun.StunMessage.Read: says nothing about the type, length, id and attributes of a message that fails to read, because every caller discards it.
- Stun.ValidateIntegrityOfType: a MESSAGE-INTEGRITY attribute cut off by the end of the buffer counts as bad; the source compares bytes behind the buffer there.
- StunTransaction.CheckTransaction: fragments of together 65472 bytes or more, which overflow the 16-bit length field; `ReadUndoesWrite` says such messages are not read.
- IceTransportChannels.IceTransportChannel.OnCheckAndPing: asks that the controller's pointer refers to no destroyed connection; after the selected one was destroyed without replacement the source reads a deleted object here.
- IceTransportChannels.IceTransportChannel.SelectNext: asks the same of the controller's pointer.
- IceTransportChannels.IceTransportChannel.RunTimer: asks the same of the controller's pointer.
- IceTransportChannels.IceTransportChannel.OnConnectionStateChange: is proved, as are `AddConnection`, `UpdateConnection`, `OnPingResponse` and `SetRemoteIceParams`, also while that pointer refers to a destroyed connection, whose last measurements it then compares; the source reads a deleted object there.
- IceConnections.RunIsConsistent: a clock that runs backwards, and round trips from about 2^29 ms, where the moving average overflows an `int`.
- ConnectivityChecks.RunIsSound: the same bound on round trips.
- Offers.DescriptionRoundTrip: asks for names without line feeds, equals signs and, where they are separated by them, spaces and leading colons (`MsidSets` shows that a space in an msid is never recovered), for credentials that are not empty and hold none of their delimiters, for other text without line feeds and equals signs, and for codec parameters whose names do not end in `a` or `m`, behind which an equals sign could look like the start of an attribute or a media line.
- PeerConnections.SetRemoteSdp: the BUNDLE group and which contents are added to the description; a `substr` past the end, which throws in the source, is an error.
- Text.DecimalReads: numbers are plain digits; what the number reader does with leading blanks or trailing text is not modelled.
- QueueInterleavings.EveryRunIsSafe: sequential consistency with exactly one producer and one consumer; the C++ memory model of the plain pointer fields is not modelled.
- LockFreeQueues.LockFreeQueue.Produce: deletion is unlinking; what a deleted node holds is the subject of the step-by-step model.
- Pipelines.NothingIsStranded: pipes that never fail, certificates that are always there, and a worker for every configured index; otherwise the source drops the message. QUIT tokens are left out.
- Pipelines.StreamsKeepTheirOrder: a push to or a pop from a worker's queue is one step here; `FinePipelines` takes them apart.
- Mailboxes.SharedStepKeepsSound: the queue of accepted connections is pushed to and popped from in one step.
- Framing.TcpConnection.ReadAll: asks the same of the stream as ProcessQueryBuffer.
- Framing.TcpConnection.ReadQuery: asks the same of the stream as ProcessQueryBuffer.
- Framing.TcpConnection.ProcessQueryBuffer: asks that the stream is not endless: on a complete, accepted request with 65571 bytes or more in the buffer the loop never ends, as `RestsExactly` says.
- UdpBacklogs.AsyncUdpSocket.AddUdpPacket: a datagram is sent whole or not at all, and the length returned on success is only told apart from the error.
- StateAggregation.TransportController.ComputePcState: the placeholder `k_num_values` as a DTLS state.
- Destruction inside callbacks: `fail_and_destroy` frees the request manager that is still running; here the pair is gone once the callback is over.
- The candidate-pair state enumeration and the `_selected` flag, which are only logged or never read.
- The map from addresses to connections of a port, from which a destroyed connection is never removed, candidate gathering, and the check that data may be sent on the selected connection.
- IceTransportChannels.IceTransportChannel.OnUnknownAddress: the answer to the request, which is in `CheckedChannels.CheckedChannel.OnFirstPacket`, and the answer with code 500 when no connection could be created, which cannot happen because creating one never fails.
- CheckedChannels.CheckedChannel.OnCheckAndPing: asks that the controller's pointer refers to no destroyed connection; the requests of a pair are a value in a map of the channel, where the source has a manager object inside the pair (`ConnectivityCheck` is that object for one pair).
- The error-code attribute of received messages: the reader skips it as an unknown type, so its value is always the default.
- IPv6 in masked addresses, for which writing fails, beyond that failure itself.
- The reply path of a signaling worker: `_write_reply` retries without bound when a socket would block; JSON and the response text.
- What the reader does with a BUNDLE line: it is printed with one prefix and looked for with another.
- Sockets, the event loop, threads, configuration, logging, certificates, SRTP, RTP header peeks, and stream manager maps.
