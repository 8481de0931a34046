# Verified model of newppp

newppp is a proxy tunnel: a client opens TCP streams and UDP relays to a server over WebTransport, or over one shared
HTTPS channel when WebTransport is not available. This project models the parts of it where a mistake would corrupt a
stream, leak a quota, reuse a nonce or admit a replay, and proves what those parts promise, for every input and every
run. `dafny verify dfyconfig.toml` checks the whole project.

Concurrent code is modelled as a labelled transition system: each task of the program is a small state machine whose
steps are the program's atomic operations, and a run is any interleaving of any number of tasks. Sequential code that
updates objects in place is modelled by classes with `modifies` clauses whose methods are proved against functions on
values; the laws are proved about those functions.

- **The shared channel** (`MuxSession`, `MuxInvariant`, `MuxSystem`, `MuxReach`, `SidAllocator`). Each session has an open
  handshake, an upward side and a downward side. The channel is two FIFO queues of frames with one writer and one
  reader on each side. `Isolation` shows that to one session the shared channel looks like a private one; the
  invariant of that private pipeline gives stream safety and conservation of bytes. `EveryStreamArrives` shows that
  the runs are there: any two streams can be carried in full.
- **Admission** (`Counting`, `Quota`, `QuotaLeak`, `QuotaReach`, `UnauthGate`, `TokenBucket`, `SessionTable`). The session quota, the gate for
  unauthenticated connections, the rate limiter and the idle reaper.
- **Frames** (`Bytes`, `FrameCodec`, `FrameReader`, `FrameLimit`, `Datagram`). The header codec, the incremental
  decoder, the reader over a chunked stream, limit negotiation and datagrams. The AEAD is a pair of functions with the
  round-trip law and the sealed length.
- **Nonces and replay** (`Nonce`, `Bits`, `ReplayWindow`, `Text`, `Bearer`, `ReplayCache`, `Authenticator`). Counter
  ranges, the 64-bit sliding window, bearer tokens, and the purging nonce cache behind both ways of authenticating.
- **Codecs and smaller cores** (`Utf8`, `HandshakeCodec`, `UdpAddress`, `CivilDate`, `HttpDate`, `ConfigMerge`,
  `Egress`, `UdpDns`, `Breaker`).

Where the code and its comments disagree, the model follows the code, and says exactly when the comment holds:

- The config comments say a later line wins. Repeated `mode` lines do not: both tokens stay (`ConfigMerge.ModesPileUp`).
  A replaced value that starts with a dash stays behind as a token of its own (`ConfigMerge.DashValueStays`);
  `ConfigMerge.StripExact` says when exactly a removal takes the right tokens.
- The nonce cache comment says a bearer is accepted exactly once. `ReplayCache.AcceptedAgainExactly` says when exactly it
  is accepted again; `ReplayCache.AtMostOnce` that this cannot happen on a clock past its first minute with under 60
  seconds between verification and recording; `SlowRecordingRepeats` and `FirstMinuteRepeats` that both are needed.
- The per-connection cap is checked before registration, so it can be passed: by at most what `Quota.BoundedOvershoot`
  allows, and that is reached (`QuotaReach.OvershootReached`).
- A mode-A worker aborted between registration and hand-over leaves its quota taken, for good
  (`QuotaReach.AbortedWorkerKeepsQuota`, `QuotaLeak.StrandedForGood`). `QuotaLeak.LeakExact` says that nothing else does.
- A datagram that ends in an incomplete frame can leave bytes in the decoder: exactly when `Datagram.ResidueExact` says.
  They are glued to the next datagram, which is then lost (`Datagram.ShortCostsADatagram`).
- The breaker comment speaks of one half-open probe. Every caller is let through until a failure is recorded
  (`Breaker.ProbesPassExactly`, `Breaker.TwoProbes`).
- IPv6 in the SOCKS5 UDP header uses type byte 2, not the 4 of section 5 of RFC 1928: a built header carries the
  standard's type if and only if the address is not IPv6, and type 4 is refused (`UdpAddress.RfcTypeExactly`,
  `UdpAddress.RfcIpv6Refused`).

## Model

| member | source | states |
|---|---|---|
| MuxSystem.Isolation | src/proto/mux.rs:459-543 | for every step of the shared channel, a session that does not see the step is unchanged in every field and queue; a step it sees is exactly a step of its own private pipeline, except a fetch that lands on a sid used before, which changes no session but that one |
| MuxInvariant.InvKept | src/proto/mux.rs:292-374 | every step of the open handshake, the four pumps, the writers, the routers and the channel's death keeps the pipeline invariant (which task may be in which state, which frames may be in flight, where each message is) |
| MuxSystem.SidsAreFresh | src/proto/mux.rs:214-221 | before the 32-bit counter wraps, the sid handed out was never used on the channel before |
| MuxSystem.RunInv | src/proto/mux.rs:579-705 | the invariant holds of every session after every run |
| MuxSystem.StreamSafety | src/server/hub.rs:455-526 | in every run, for every session: the target has a prefix of what the user sent and the user a prefix of what the target sent; a shut-down target has all of it; a route ended by a FIN frame has everything the target sent already queued, and a user drained after it has got everything |
| MuxSystem.Conservation | src/server/hub.rs:272-304 | while a route stands and its reader runs, delivered bytes followed by the bytes in transit are exactly the bytes accepted, in order, in both directions |
| MuxSystem.NoChunkTooLarge | src/proto/mux.rs:262-274 | no frame of any session, in any run, is ever dropped by a writer for being above the limit |
| MuxReach.EveryStreamArrives | src/proto/mux.rs:292-374 | for every two byte streams in any chunks of up to 16 KiB, some run opens a session, carries both in full and ends both directions cleanly |
| SidAllocator.MuxInner.AllocSid | src/proto/mux.rs:214-221 | the loop ends while fewer than 2^32 - 1 ids are in use, with the first non-zero unused id at or after the wrapping counter |
| Quota.ConservedKept | src/server/state.rs:105-136 | every atomic step of admission, registration, removal and release keeps the conservation law |
| Quota.QuotaConservation | src/server/state.rs:248-273 | in every run the counter is registered handles + acquired-not-registered + removed-not-released, lies in [0, max_sessions], no release underflows, and with all tasks idle it is the number of handles |
| Quota.BoundedOvershoot | src/server/hub.rs:223-241 | if at most k tasks are ever between the session-count check and registration, a connection never holds more than max_per_conn - 1 + k sessions |
| QuotaReach.OvershootReached | src/server/hub.rs:223-241 | for every cap and every k >= 1 some run with at most k tasks in that window ends with exactly max_per_conn - 1 + k sessions, on a mode-A connection too for every k the permits allow |
| Quota.PermitsBound | src/proto/mux.rs:585-612 | on a mode-A connection at most 32 tasks work at once, in every run |
| Quota.MuxedOvershoot | src/proto/mux.rs:585-612 | so a mode-A connection never passes its cap by more than 31 |
| QuotaReach.MuxedOvershootReached | src/proto/mux.rs:585-612 | and passes it by 31 in some run |
| QuotaLeak.LeakExact | src/server/fallback.rs:287-297 | in every run: once no task of a connection dials or owns a session, the sessions it still holds are exactly its orphans; once no task at all holds quota or owes a drop, the counter is exactly the number of orphans, so zero if and only if there is none |
| QuotaLeak.OrphansAreForsaken | src/proto/mux.rs:626-628 | an orphan is a registered handle of an ended mode-A loop whose own worker was aborted while dialing; no task owes its drop |
| QuotaLeak.StrandedForGood | src/server/state.rs:293-334 | an orphan whose loop has ended, whose connection left the table and whose sid no task serves keeps its quota in every continuation |
| QuotaReach.AbortedWorkerKeepsQuota | src/proto/mux.rs:626-628 | a run after which every task is idle, one unit of quota is taken, and its handle is stranded in that sense |
| UnauthGate.InvKept | src/server/limit.rs:34-78 | every step of admission, roll-back and guard drop keeps the counts |
| UnauthGate.GateConservation | src/server/limit.rs:34-99 | in every run the global count is the live guards, each address count is the connections of that address holding a slot, the map holds exactly the positive counts, neither cap is passed, and no decrement is lost to saturation |
| SessionTable.ConnState.TryRegister | src/server/state.rs:105-120 | registers exactly when the sid is free; a taken sid is not overwritten |
| SessionTable.ConnState.DropSession | src/server/state.rs:125-136 | removes handle and routes of one sid only, cancels exactly that handle's token, and answers true exactly when the table shrinks by one |
| SessionTable.ConnState.Touch | src/server/state.rs:138-144 | refreshes the connection, and the session if it exists, and nothing else |
| SessionTable.ConnState.ReapSessions | src/server/state.rs:306-327 | exactly the expired sessions and their routes go, exactly their tokens are cancelled, and the releases counted are exactly the handles removed |
| SessionTable.ServerState.ReapIdle | src/server/state.rs:293-334 | with a clock reading per session and connection: on every connection exactly the expired sessions go; quota minus registered sessions is unchanged and never negative; a connection leaves the table exactly when it has no session and was idle over three times the limit |
| TokenBucket.RunBound | src/server/limit.rs:132-162 | over every run of passes by any tasks at nondecreasing times, tokens stay in [0, cap], and grants plus what is left never exceed what was there plus what was earned |
| TokenBucket.IntervalBound | src/server/limit.rs:132-162 | in every interval of every run the bytes granted are at most cap + rate x length |
| TokenBucket.LimiterBound | src/server/limit.rs:116-162 | a limiter of m Mbit/s shared by any tasks with requests up to 64 KiB: in every interval of every run the bytes sent are at most max(64 KiB, one second's worth) plus the rate times the length |
| TokenBucket.RetryExact | src/server/limit.rs:148-160 | when no other grant came between, a retry succeeds if and only if the computed wait is over |
| TokenBucket.RateLimiter.TryAcquire | src/server/limit.rs:138-155 | one pass under the lock does what the bucket function says, and returns the wait exactly when refused |
| TokenBucket.RateLimiter.Acquire | src/server/limit.rs:132-162 | alone on its bucket, the loop ends after at most one sleep, at the computed time, and a disabled limiter never waits |
| FrameCodec.HeaderRoundTrip | src/proto/frame.rs:145-184 | a parsed built header gives back type, flags, sid, length, counter and the twelve bytes of additional data |
| FrameCodec.ChunkingInvariance | src/proto/frame.rs:298-339 | any split of a byte stream into reads, empty ones included, gives the same frames, the same decoder and the same first error as feeding it whole |
| FrameCodec.DrainStops | src/proto/frame.rs:298-339 | after a drain without error fewer than 20 + limit + 16 bytes remain buffered |
| FrameCodec.StreamRoundTrip | src/proto/frame.rs:216-235 | a stream of encoded frames decodes to exactly those frames with nothing left over |
| FrameCodec.ChunkedRoundTrip | src/proto/frame.rs:216-339 | the same for any split of the stream into reads |
| FrameCodec.HandoverRoundTrip | src/proto/frame.rs:279-282 | the raw Auth frame opens under the static key, and every byte already buffered behind it is decoded under the session key: none is lost at the handover |
| FrameReader.StreamAsRead.PollRead | src/proto/stream.rs:29-54 | each poll moves bytes from the items to the caller without loss or reordering, whatever the sizes of items and buffer |
| FrameReader.FrameDecoder.NextFrame | src/proto/frame.rs:298-339 | the in-place decoder computes the function the laws are about |
| FrameReader.Reader.ReadFrame | src/proto/frame.rs:380-393 | a read returns the next frame of the whole stream, or reports suspension, end, truncation or error, and an abandoned read loses nothing |
| FrameReader.Reader.ReadToEnd | src/proto/mux.rs:439-457 | reading to the end over any item sizes and suspensions gives exactly the frames of the whole stream |
| FrameReader.ServeChannel | src/server/fallback.rs:221-297 | a whole channel through the objects: however the stream is cut into items and suspended, the raw Auth frame opens to its payload and, after the cipher and limit change, exactly the frames sent under the session key are read, to a clean end |
| FrameReader.FrameEncoder.EncodeInto | src/proto/frame.rs:216-235 | appends exactly the encoded frame, with the next counter, or nothing when the payload is above the limit |
| FrameLimit.Agreement | src/proto/frame.rs:49-53 | for all advertisements the client adopts exactly the server's limit, between 16 KiB and 1 MiB |
| FrameLimit.ExchangeAgrees | src/client/fallback.rs:363-370 | the same through the padded Auth payload and the four-byte reply |
| FrameLimit.LengthCheckExact | src/proto/frame.rs:305-310 | a decoder delivers an encoded frame if and only if its payload is within the limit, and otherwise reports the length |
| FrameLimit.PeersAccept | src/client/wt.rs:425-430 | everything one peer may encode, 16 KiB chunks included, the other decodes |
| FrameLimit.ConfiguredIsKept | src/config.rs:470-477 | two configured limits go through the whole exchange and end as the smaller of the two on both sides, never clamped |
| Datagram.ReceiveDatagram | src/server/wt.rs:302-345 | the feed, drain and clear-on-error loop computes the datagram function |
| Datagram.ForgeriesIgnored | src/server/wt.rs:310-342 | in any run of datagrams of any number of whole frames, removing every one that does not begin with an authentic frame changes neither the frames delivered nor the window |
| Datagram.NoCounterTwice | src/proto/frame.rs:318-330 | over every run of datagrams whatsoever no counter is delivered twice, and the window represents exactly the delivered ones |
| Datagram.CutRejoins | src/proto/frame.rs:298-316 | cutting bytes into whole frames and a rest loses nothing |
| Datagram.ResidueExact | src/server/wt.rs:310-342 | for every datagram and whatever was buffered before: the bytes behind the last whole frame stay if and only if every whole frame opens and passes the window and those bytes are incomplete; otherwise nothing stays |
| Datagram.ShortIsGlued | src/server/wt.rs:310-342 | an incomplete datagram followed by another is received exactly as the two glued together |
| Datagram.ShortCostsADatagram | src/server/wt.rs:310-342 | so nothing is delivered and nothing changes unless the two together begin with an authentic frame; after a stray byte other than the version the next datagram is always lost |
| Nonce.NonceUnique | src/proto/crypto.rs:46-50 | in every interleaving of stream frames and datagrams of both peers within the ranges' capacities, no counter overflows and no two frames share a nonce |
| Nonce.PastCapacityRepeats | src/proto/crypto.rs:107-118 | one frame past a channel's capacity takes the same nonce as the first frame of the channel above it |
| Nonce.PastCapacityOverflows | src/proto/crypto.rs:162-164 | one frame past the last channel's capacity overflows the counter |
| Nonce.DistinctExactly | src/proto/crypto.rs:107-118 | with every channel in use, counters are distinct 64-bit values if and only if the run is within the capacities |
| Nonce.DrawAll | src/proto/crypto.rs:123-165 | the four generator objects, drawn in any order, hand out exactly the counters the law is about |
| ReplayWindow.CheckRefines | src/proto/crypto.rs:188-215 | one check admits exactly what the set of accepted counters admits, and the new window represents the new set |
| ReplayWindow.ReplayExact | src/proto/crypto.rs:188-215 | over every call sequence a counter is accepted if and only if it is non-zero, never accepted before and less than 64 below the highest accepted |
| ReplayWindow.ReplayFilter.CheckCounter | src/proto/crypto.rs:188-215 | the object's fields follow the window function |
| Text.UnhexHex | src/proto/crypto.rs:300-327 | decoding undoes encoding |
| Text.HexUnhex | src/proto/crypto.rs:300-327 | encoding undoes decoding up to letter case |
| Text.PrintHex | src/proto/crypto.rs:300-307 | the encoding loop |
| Text.ParseHex | src/proto/crypto.rs:314-327 | the decoding loop, odd lengths and bad digits included |
| Bearer.BearerRoundTrip | src/proto/crypto.rs:240-298 | a made token verifies, to the timestamp and nonce it was made from, if and only if its uid has no dot and its time is in the window |
| Bearer.BearerSound | src/proto/crypto.rs:251-298 | a verified token is the made one up to letter case in its hex and the spelling of its timestamp, and its time is in the window |
| Bearer.SameBytes | src/proto/crypto.rs:287-297 | the accumulate-differences loop decides equality |
| HandshakeCodec.AuthRoundTrip | src/proto/crypto.rs:348-412 | an Auth payload decodes to the original under any appended tail |
| HandshakeCodec.AuthV1RoundTrip | src/proto/crypto.rs:396-401 | a version 1 payload decodes with the 16 KiB limit |
| HandshakeCodec.AuthUnique | src/proto/crypto.rs:371-412 | whatever decodes is a prefix that encoding reproduces; nothing is normalised |
| HandshakeCodec.OpenRoundTrip | src/proto/frame.rs:456-490 | an Open payload decodes to the original under any tail if and only if the host has 1 to 255 bytes |
| HandshakeCodec.OpenUnique | src/proto/frame.rs:480-490 | whatever decodes starts with its own encoding |
| ReplayCache.KeyInjective | src/server/state.rs:277 | two messages share a cache key if and only if uid, timestamp and nonce are equal, even for uids that contain the separator |
| ReplayCache.AcceptedAgainExactly | src/server/state.rs:275-288 | for every log of calls, a message is accepted again after its last acceptance if and only if some call strictly in between went through the cache and purged its timestamp, and the purged cache has room |
| ReplayCache.TwiceNeedsPurge | src/server/state.rs:275-288 | so between any two acceptances of a message some call that was not refused as a duplicate had a cutoff at or past its timestamp |
| ReplayCache.AtMostOnce | src/server/mod.rs:296-361 | over every run on a clock past 60 that never runs back, with under 60 s from verification to recording, each (uid, timestamp, nonce) is accepted at most once |
| ReplayCache.RefusedOnlyForCause | src/server/state.rs:275-288 | a message is refused only if the same one was accepted before, or the cache is full after purging |
| ReplayCache.CacheBounded | src/server/state.rs:283-285 | the cache never exceeds 50000 entries |
| ReplayCache.SlowRecordingRepeats | src/server/state.rs:281-282 | with 60 s between verification and recording a message is accepted twice, for any 16-byte nonces |
| ReplayCache.FirstMinuteRepeats | src/server/state.rs:281-282 | with the clock at 30 a zero timestamp is accepted twice, for any 16-byte nonces |
| Authenticator.ServerAuth.CheckAndRemember | src/server/state.rs:275-288 | one call extends the log by one attempt, answers whether it was accepted, and leaves exactly the purged cache plus the new key |
| Authenticator.ServerAuth.BearerUser | src/server/mod.rs:296-312 | a header that does not verify changes nothing; one that does is recorded and admitted exactly when fresh |
| Authenticator.ServerAuth.AuthFromFrame | src/server/mod.rs:333-361 | the first user whose key fits decides: a version mismatch changes nothing, a verified payload is recorded and admitted exactly when fresh, and if no key fits nothing changes |
| Authenticator.ClientFrameCarries | src/server/mod.rs:333-345 | a client's padded Auth frame is read back as the payload it sealed |
| Authenticator.ClientHeaderClaims | src/server/mod.rs:296-306 | a client's header is accepted as its uid, timestamp and nonce exactly while the two clocks agree to a minute |
| Authenticator.AdmitAll | src/server/mod.rs:296-361 | over every sequence of headers and Auth frames, with the promises of the clock, no two requests are admitted on the same uid, timestamp and nonce |
| UdpAddress.AddrRoundTrip | src/proto/addr.rs:25-97 | an address followed by data decodes, in both port orders, to that address (without flow label and scope) and exactly that data |
| UdpAddress.AddrUnique | src/proto/addr.rs:64-97 | whatever is accepted re-encodes to the same bytes |
| UdpAddress.Socks5RoundTrip | src/proto/addr.rs:143-160 | a built SOCKS5 UDP packet parses to its address and payload |
| UdpAddress.Socks5Rebuilds | src/proto/addr.rs:143-160 | an accepted packet rebuilds to the same bytes |
| UdpAddress.RfcTypeExactly | src/proto/addr.rs:154-160 | a built header carries the address type of RFC 1928 if and only if the address is not IPv6 |
| UdpAddress.RfcIpv6Refused | src/proto/addr.rs:143-151 | a packet with the standard's IPv6 type is refused, and accepted packets name type 1, 2 or 3 |
| UdpAddress.Reader.ReadBytes | src/proto/addr.rs:126-132 | takes exactly n bytes or nothing, and never leaves the input |
| UdpAddress.Reader.ReadU8 | src/proto/addr.rs:109-114 | takes one byte or nothing |
| UdpAddress.Reader.Decode | src/proto/addr.rs:64-97 | the cursor decoder computes the decoding function and stands behind the address |
| UdpAddress.Reader.Rest | src/proto/addr.rs:134-138 | hands out all that is left |
| UdpAddress.ReadSocks5 | src/proto/addr.rs:143-151 | the parser through the cursor computes the parsing function |
| CivilDate.GregorianCorrect | src/clock.rs:233-240 | for every year from 0 on, every month and any day, the era formula is the day-by-day Gregorian count from 1970-01-01 |
| CivilDate.NextDayIsNext | src/clock.rs:233-240 | in every year, negative ones included, the next calendar day has the next number |
| CivilDate.OrderExact | src/clock.rs:233-242 | timestamps order exactly as valid calendar date-times do |
| CivilDate.NoOverflow | src/clock.rs:209-242 | no intermediate value leaves 64 bits for the years the parser lets through |
| HttpDate.ParseExact | src/clock.rs:188-243 | the parser accepts exactly the words that spell a date in range (section 7.1.1.1 of RFC 7231), and returns the naively counted Unix time |
| HttpDate.DateRoundTrip | src/clock.rs:188-243 | every date-time in range, written out, parses to its own Unix time |
| ConfigMerge.LastLineWins | src/config.rs:577-633 | when no value starts with a dash, the merged file is exactly the lines that stand, in their order: append options and modes all, any other option only its last line |
| ConfigMerge.EffectiveIsWinners | src/config.rs:747-780 | what remains after the command line is exactly the lines whose option it does not name |
| ConfigMerge.EachOptionOnce | src/config.rs:747-780 | no two remaining lines share a single-value option, and none is named on the command line |
| ConfigMerge.LastLineReaches | src/config.rs:747-780 | an option not on the command line keeps its last line, and an append option all of them |
| ConfigMerge.WithoutMore | src/config.rs:774-776 | removing options one by one is removing their set, so the order of removal cannot matter |
| ConfigMerge.ModesPileUp | src/config.rs:600-613 | two mode lines leave both mode tokens |
| ConfigMerge.DashValueStays | src/config.rs:706-711 | a replaced value that starts with a dash is left behind |
| ConfigMerge.StripExact | src/config.rs:700-718 | removing an option removes exactly its items if and only if each of its values does not start with a dash or is itself taken for an occurrence, and no value of another option is taken for one |
| ConfigMerge.Argv.RemoveEarlier | src/config.rs:700-718 | the in-place removal loop |
| ConfigMerge.Argv.ParseFile | src/config.rs:577-633 | the line loop, failing exactly when some line is bad |
| ConfigMerge.OrderIsIrrelevant | src/config.rs:774-776 | when no value starts with a dash, every order of removing the overridden options leaves the same tokens |
| ConfigMerge.Argv.StripOverridden | src/config.rs:747-780 | strips exactly the options the command line names, in some order, and the mode tokens exactly when it gives a mode |
| ConfigMerge.FindKeys | src/config.rs:751-773 | the scan that skips values finds exactly the single-value options named by any token |
| ConfigMerge.Merge | src/config.rs:565-633 | fails exactly when a line is bad; the command line always ends the arguments, and when no value starts with a dash exactly the winning lines come before it |
| Egress.PublicIsOutsideBlocks | src/server/hub.rs:161-185 | an IPv4 address passes if and only if its number lies in none of the fourteen special-purpose blocks |
| Egress.Public6IsOutsideBlocks | src/server/hub.rs:186-208 | an IPv6 address that embeds no IPv4 address passes if and only if it lies in none of the eight special-purpose blocks |
| Egress.TranslationAgrees | src/server/hub.rs:131-156 | every translated IPv6 form of an IPv4 address is judged exactly as the address |
| Egress.EmbeddedIsTranslated | src/server/hub.rs:131-156 | an address found to embed another is one of the five forms of it |
| UdpDns.KeyInjective | src/server/hub.rs:105 | two targets share a key exactly when host, up to letter case, and port agree |
| UdpDns.AllowedPasses | src/server/hub.rs:68-72 | the filter keeps exactly the addresses that pass the policy |
| UdpDns.ReuseIsForTheName | src/server/hub.rs:104-114 | a reused address was looked up for the same host, up to letter case, and the same port, at most one TTL ago |
| UdpDns.TakenExactly | src/server/state.rs:233-246 | a lookup is taken by the table exactly when caching is on and there is room, if need be after dropping expired entries |
| UdpDns.DnsCache.Cached | src/server/state.rs:217-228 | over every run at nondecreasing times, answers exactly the address of the last lookup the table took under that key, if it is at most one TTL old, however entries were replaced or purged since; and only addresses that pass the policy |
| UdpDns.DnsCache.Store | src/server/state.rs:233-246 | expired entries go only when the table is full, a still full table is left alone, and it never exceeds 4096 entries |
| UdpDns.DnsCache.ResolveTarget | src/server/hub.rs:54-78 | a failed lookup fails to dial, an answer the policy empties is denied, otherwise the allowed addresses in order |
| UdpDns.DnsCache.ResolveUdp | src/server/hub.rs:82-124 | over every run: whatever is handed out passes the policy; a name is answered from the cache exactly when its last taken lookup is at most one TTL old, and is then never denied; otherwise the first allowed address of a new lookup is handed out and the lookup recorded |
| Breaker.RunExact | src/client/outbound.rs:101-150 | over every run the breaker holds exactly the deadline of the failure streak since the last success, and counts exactly that streak until it trips |
| Breaker.SkipIsJustified | src/client/outbound.rs:114-117 | the primary is skipped only after a full threshold of failures since the last success, one of them less than a cooldown ago |
| Breaker.OpenIgnoresFailures | src/client/outbound.rs:130-135 | failures while open, however many, never extend the deadline |
| Breaker.ProbeFailureTrips | src/client/outbound.rs:136-140 | a failed probe after the deadline trips for exactly one more cooldown |
| Breaker.ProbesPassExactly | src/client/outbound.rs:114-117 | after the deadline every probe passes, however many ask, if and only if no failure was recorded since; with one, none passes for a cooldown |
| Breaker.TwoProbes | src/client/outbound.rs:114-117 | two callers that ask before either has its answer are both let through |
| Breaker.SuccessCloses | src/client/outbound.rs:124-128 | after a success it takes a full threshold of failures to skip again |
| Breaker.CircuitBreaker.RecordSuccess | src/client/outbound.rs:124-128 | closes the breaker |
| Breaker.CircuitBreaker.RecordFailure | src/client/outbound.rs:130-150 | the object's fields follow the run |
| Breaker.OpenTcp | src/client/outbound.rs:197-226 | skipped exactly when open, and then nothing is recorded; success and any refusal by the target record a success, only a transport failure records a failure |

## Left out

- MuxSystem.StreamSafety: assumes at most 2^32 sid draws per channel; after the 32-bit counter wraps an old sid may be met again.
- MuxSystem.Conservation: the routing tables, queues and pumps are values advanced by step functions, not objects in place, because tasks interleave between any two operations.
- Quota.QuotaConservation: the counter, the session maps and the tasks are values advanced by steps; the session-count read is one atomic step.
- UnauthGate.GateConservation: as for the quota, the atomic counter and the sharded map are values advanced by steps.
- TokenBucket.IntervalBound: over real numbers; the rounding of 64-bit floats and of durations is not modelled.
- TokenBucket.RateLimiter.Acquire: the loop of one task alone on its bucket; contention is in the runs of passes.
- SessionTable.ServerState.ReapIdle: one call without interference, over connections as a sequence; interference is in the quota runs. Cancelling UDP relays is not modelled.
- ConfigMerge.Merge: starts from the lines already split and trimmed, with quotes removed.
- HttpDate.ParseExact: starts from the words of the header; splitting at Unicode white space is not modelled.
- Authenticator.ServerAuth.AuthFromFrame: the map of static keys is visited in a given order; HMAC, HKDF and the AEAD are functions.
- UdpDns.DnsCache.ResolveUdp: one call at a time; the lookup's answer is a parameter, and a literal host is part of it.
- Datagram.ForgeriesIgnored: for datagrams with nothing incomplete at their end, as the sender makes them; with an incomplete end it fails, as `Datagram.ShortCostsADatagram` shows.
- QuotaLeak.LeakExact: the permit of a worker is returned at hand-over, a step before the worker's reply is sent, which allows more runs than the code.
- Nonce.NonceUnique: for session keys; the Auth frame sealed under the static key is outside it.
- Liveness: that tasks are scheduled, timeouts fire and streams finish.
- UDP relays beyond their share of the sid namespace, the frame queue and the address codec.
- TLS, ECH, certificate pinning, QUIC tuning, ACME, listeners, HTTP routing, the WebSocket and POST transports, the SOCKS5 and HTTP inbound handlers.
- The WebTransport pool: heartbeats, back-off and connection selection.
- Validation of the remaining options, the clock synchronisation loop, logging and graceful shutdown.
