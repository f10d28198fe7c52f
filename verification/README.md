# pktauth, modelled in Dafny

pktauth puts a keyed tag in every QUIC connection ID and checks it at the UDP
socket before Quinn parses the datagram. This project models that scheme and
proves what it promises.

| file | component |
|---|---|
| `Wire.dfy`, `Io.dfy` | bytes, addresses, encodings; error kinds, datagrams, the wrapping counters |
| `Auth.dfy`, `TokenCount.dfy` | the token: assembling, verifying, path binding, issuing, counting |
| `Header.dfy` | locating the destination connection ID; the authenticator |
| `Receive.dfy`, `ReceiveRuns.dfy`, `ReceiveErrors.dfy` | `poll_recv` as code, its specification, whole runs of it, and its error reports |
| `Send.dfy`, `SendRuns.dfy` | `try_send` and `poll_send` as code, and whole transmits |
| `Interleaving.dfy` | the shared counters under every interleaving |
| `Protocol.dfy` | one server, any number of clients, a hostile network |
| `EndToEnd.dfy` | the protocol and the receive loop together |
| `SplitMix.dfy`, `Blaster.dfy`, `InitialPacket.dfy` | the flood generator and a reader of what it sends |
| `Ping.dfy` | the ping payload |

## How it is modelled

- **The cipher** is a parameter: a function from key and block to block. Every
  result holds for all of them; per-key injectivity is assumed only where a
  lemma says so. The random nonce is an input.
- **The kernel** is an arbitrary script: what each readiness poll answers (a
  function of the poll's number) and what each `recv_from` or `send_to`
  returns (a finite list). A finished script never reports readiness again, so
  the outer loops of `poll_recv` and `poll_send` terminate on the length of
  that list: every round that finds the socket ready consumes an entry. With
  no buffers at all `poll_recv` reads nothing and re-polls, so it returns
  exactly if the socket stops being readable.
- **In-place state** stays in place: receive buffers and metas are arrays, the
  counters, the sender's future and the packet template are objects. Each
  method is proved equal to a specification function, and what the source
  promises is proved of those functions over runs of any length.
- **Bit-level code** is on bit-vectors: bytes are `bv8`, the generator's words
  `bv64`. The byte order, which `to_ne_bytes` takes from the machine, is a
  parameter of `Blast`; the theorems about packets hold for both.

## Where the code and its documentation part

- A CID minted for an unknown peer is documented as never authenticating.
  `Auth.FallbackCid` shows that it does authenticate a source of 0.0.0.0, and
  any source whose truncated tag collides with that address's.
- Tokens are documented as valid only on their path. With an 80-bit tag that
  holds up to truncation collisions: `Auth.MintedElsewhere` gives the exact
  condition, `Auth.PathBindingNotUnconditional` an injective cipher under which
  binding fails.
- A test flips one bit in each byte of a token and expects every flip to be
  caught. `Auth.CorruptedByte`: always so in the selector and the tag, in the
  nonce exactly when the truncated tags differ; `Auth.CorruptedNonceUnnoticed`
  gives an injective cipher under which six bytes of every nonce can be changed
  at will.
- The template builder asserts that its length field always fits.
  `Blaster.InitialTemplate.New`: sizes 16434 to 65535 pass both size errors and
  fail the assertion.
- A batch split into segments resends its earlier segments after a mid-batch
  WouldBlock: `SendRuns.AtMostOnceIff`.
- Buffers below 26 bytes can turn an accepted datagram into a refused one:
  `Header.TruncationThreshold` gives the exact bound the run theorems ask for.
  The reverse never happens, whatever the size: `Header.TruncationNeverAdmits`.
- Meta slots are assumed to be as many as buffers; with fewer, an accepted
  datagram is counted as received but neither handed over nor counted as
  rejected: `ReceiveRuns.NothingLostIff`.
- An unrecoverable receive error met behind datagrams already kept is consumed
  and not reported: `ReceiveErrors.ErrorSwallowed` is the smallest case, and
  `ReceiveErrors.ErrorFate` says of any script, before the call, whether its
  first such error is reported, swallowed or left for later.
- `counts` can show more rejected than received although no state ever does:
  `Interleaving.SnapshotNotAtomic` from any initial state, and
  `Interleaving.ReadingConsistentIff` the exact number of refusals during the
  reading it takes.
- Two blaster threads do not stay on separate connection IDs: whatever their
  seeds, one thread's packets are the other's from some position on
  (`Blaster.ThreadsOverlap`). `Blaster.ThreadsDisjointIff` says for how many
  packets they do. The seeds themselves, drawn from one generator, do differ,
  so no two threads are ever in step (`Blaster.ThreadsNeverInStep`).

## Model

| member | source | states |
|---|---|---|
| Auth.ConstantTimeEqIsEquality | src/auth.rs:250-258 | the OR-of-XORs fold is equality, for all lengths |
| Auth.ComputeTag | src/auth.rs:175-189 | filling the block slice by slice yields the truncated cipher of nonce, source, destination |
| Auth.AssembleToken | src/auth.rs:191-197 | filling the token field by field yields selector, nonce, tag |
| Auth.TokenLayout | src/auth.rs:99-197 | the twenty bytes in either direction: selector 0 1 or 0 2, the nonce, and ten bytes of the cipher under that direction's literal key over nonce, source and destination |
| Auth.VerifyExact | src/auth.rs:213-248 | `verify` accepts a string if and only if it is assembled from some nonce for that direction and path |
| Auth.VerifyErrors | src/auth.rs:219-247 | each error exactly when: length first, then selector, then direction, then tag |
| Auth.MessageInjective | src/auth.rs:178-181 | distinct nonce, source or destination give distinct blocks |
| Auth.MessageSurjective | src/auth.rs:178-181 | every block is the message of the nonce and addresses found at bytes 0, 8 and 12 |
| Auth.MintedElsewhere | src/auth.rs:235-247 | the exact verdict on any token on any path: wrong direction, or accepted if and only if the truncated tags coincide |
| Auth.RelabelledToken | src/auth.rs:126-138 | a token relabelled with the other direction's selector verifies if and only if the two keys give the same 80 bits, in both directions |
| Auth.MintedVerifies | src/auth.rs:150-210 | minting for a pair of peers then verifying succeeds, client to server on that way and server to client on the way back |
| Auth.OffPathIsTruncationCollision | src/auth.rs:186-188 | under an injective cipher, off-path acceptance is blocks equal in 80 bits and different in the last 48 |
| Auth.PathBindingNotUnconditional | src/auth.rs:414-434 | a concrete injective cipher and two sources between which a token carries over |
| Auth.CorruptedByte | src/auth.rs:436-447 | a changed byte is accepted if and only if it is in the nonce and the truncated tags coincide |
| Auth.CorruptedNonceUnnoticed | src/auth.rs:436-447 | an injective cipher under which any change to the last six bytes of any nonce still verifies |
| Auth.IssuedCid | src/auth.rs:343-354 | a CID issued for an IPv4 peer authenticates a source if and only if it is that peer or collides with it |
| Auth.FallbackCid | src/auth.rs:335-352 | the fallback CIDs authenticate exactly 0.0.0.0 and sources colliding with it |
| TokenCount.ValidTokenCount | src/auth.rs:213-248 | exactly 256^8 strings verify on a path, whatever the cipher |
| TokenCount.OneTokenPerNonce | src/auth.rs:243-247 | changing only selector or tag bytes of a valid token always invalidates it |
| Header.LongRoundTrip | src/auth.rs:268-275 | the locator inverts writing an ID into a long header, and finds none above 20 bytes |
| Header.ShortRoundTrip | src/auth.rs:276-279 | the locator inverts writing a token into a short header |
| Header.DestinationCidExact | src/auth.rs:265-281 | an ID is located exactly in the packets one of the two writers builds around it |
| Header.CheckExact | src/auth.rs:299-305 | `check` accepts if and only if the source is IPv4 and a full-length ID field holds a token for that source, this receiver and its direction |
| Header.CheckErrors | src/auth.rs:299-305 | the refusals about the datagram itself, each exactly when |
| Header.CheckTokenErrors | src/auth.rs:231-247 | the refusals of a token that was found: wrong direction, bad tag and unknown selector, each exactly when |
| Header.TruncationThreshold | src/auth.rs:265-305 | a receive buffer never changes any verdict if and only if it has at least 26 bytes |
| Header.TruncationNeverAdmits | src/auth.rs:265-305 | for every buffer size, a datagram accepted once truncated is accepted whole |
| Receive.PacketSocket.TryRecvFrom | src/socket.rs:162-163 | the next script entry, at most a buffer's worth of it copied in place |
| Receive.PacketSocket.ReadChecked | src/socket.rs:162-180 | one read, counted with its length, judged by the gate, counted again if rejected |
| Receive.PacketSocket.Fill | src/socket.rs:160-213 | the inner loop in place: slot i holds datagram i with its meta, rejected slots reused, counters advanced by what was read |
| Receive.FilledMeta | src/socket.rs:185-197 | a filled slot's meta gives the source, the length, a stride covering the whole datagram, and nothing else |
| ReceiveRuns.OnePerBuffer | src/socket.rs:194-196 | cutting a filled buffer every stride gives back the one datagram it holds |
| Receive.PacketSocket.PollRecv | src/socket.rs:147-219 | the whole call in place equals its specification, buffers, metas, counters and script included, for any buffers on which it returns |
| Receive.FillConsumes | src/socket.rs:161-213 | a round with a buffer consumes the script, the measure of the outer loop |
| Receive.CountingSums | src/socket.rs:164-177 | modulo 2^64 the counters advance by reads, bytes read, and reads that did not pass |
| Io.WrapsAround | src/socket.rs:164-168 | `fetch_add` past the width starts again from zero |
| ReceiveRuns.CallDeliversSurvivors | src/socket.rs:154-218 | a call delivers exactly what passed, in order, when metas suffice; a call that delivers nothing accepted nothing |
| ReceiveErrors.ErrorReportedIff | src/socket.rs:199-211 | a call reports an error if and only if its last readiness poll failed with it, or it consumed it as a receive error neither WouldBlock nor transient and kept nothing |
| ReceiveErrors.ErrorFate | src/socket.rs:154-218 | from the script, the buffers and the readiness answers alone: the first unrecoverable error is consumed if and only if nothing passes in earlier rounds, every poll up to its round finds the socket readable and its own round's passing datagrams leave a buffer; consumed, it is reported if and only if none pass in its round, else they are handed over and it is gone |
| ReceiveErrors.SplitAtError | src/socket.rs:199-211 | every script with an unrecoverable error splits as the previous row asks |
| ReceiveErrors.ErrorSwallowed | src/socket.rs:206-211 | one passing datagram followed by an unrecoverable error gives a ready call, an empty script and no report |
| ReceiveErrors.LoneError | src/socket.rs:199-211 | kind by kind, what a call on that error alone returns |
| ReceiveRuns.RunDeliversSurvivors | src/socket.rs:147-219 | over any run, what passed is what was delivered plus what was lost; nothing is lost when metas suffice |
| ReceiveRuns.RunReadsArrivals | src/socket.rs:162-168 | over any run, what was read is a prefix of the script's arrivals, position by position, each cut to exactly the length of one of the buffers |
| ReceiveRuns.RunFiltersArrivals | src/socket.rs:147-219 | over any run with buffers of 26 bytes or more, Quinn is handed the consumed arrivals that pass, in order, each cut to exactly the length of the buffer it lands in |
| ReceiveRuns.RunDeliversEverything | src/socket.rs:154-218 | as many calls as script entries on a socket that stays readable hand over every arrival that passes, cut to the buffer it lands in |
| ReceiveRuns.OpenGate | src/socket.rs:172-180 | without an authenticator every datagram passes |
| ReceiveRuns.RunDrains | src/socket.rs:154-218 | one call per script entry drains a socket that stays readable |
| ReceiveRuns.RunCounts | src/socket.rs:164-197 | over any run, modulo 2^64, received is rejected plus delivered plus lost, and the bytes are their sum |
| ReceiveRuns.NothingLostIff | src/socket.rs:182-184 | no script loses an accepted datagram if and only if metas are at least as many as buffers |
| ReceiveRuns.ReceiveAll | src/socket.rs:147-219 | the code itself driven over any sequence of calls, reading out each filled slot, hands over what the run theorems speak of |
| Send.ChunksExact | src/socket.rs:129-133 | the segments join to the contents, all full but the last, at most one exactly when the contents fit |
| Send.SegmentsExact | src/socket.rs:127-133 | a transmit's segments join to its contents and go to its destination; without a segment size there is exactly one |
| Send.SendSocket.SendDatagram | src/socket.rs:113-121 | a datagram is on the wire and counted exactly when the kernel accepted it |
| Send.SendSocket.TrySend | src/socket.rs:123-136 | segments go out in order up to the first error, each counted |
| Send.PassIsPrefix | src/socket.rs:127-135 | a pass puts out a prefix of the segments, all of them exactly when it meets no error |
| Send.PassExact | src/socket.rs:123-136 | from the position of the first refusal: what a pass put on the wire, its error and the answers left |
| Send.WritableFuture.Poll | src/socket.rs:272-282 | a future may be polled only while it has not completed |
| Send.PacketSender.PollWritable | src/socket.rs:272-283 | installing, polling and dropping the future: one stays installed exactly when it has not completed |
| Send.PacketSender.PollSend | src/socket.rs:265-298 | pending leaves an incomplete future installed, anything else none; wire, counters and script as specified |
| Send.CountingSums | src/socket.rs:114-119 | modulo 2^64, sent counts the datagrams put on the wire and sent_bytes their lengths |
| SendRuns.CallTrace | src/socket.rs:271-297 | a call's wire is one proper prefix per blocked pass and one concluding prefix exactly when ready |
| SendRuns.CallBlocks | src/socket.rs:286-290 | a call blocks once for every WouldBlock it is answered, and once more exactly when the script runs dry in a pass |
| SendRuns.OnlyFutureErrors | src/socket.rs:284-295 | a call reports an error exactly when its last poll of the future failed |
| SendRuns.TransmitTrace | src/socket.rs:265-298 | over any number of calls for one transmit, the wire is one proper prefix per WouldBlock answered and one concluding prefix |
| SendRuns.TransmitDelivered | src/socket.rs:265-298 | an accepting kernel gets the whole contents once, to their destination, in one datagram when there is no segment size |
| SendRuns.SendAll | src/socket.rs:265-298 | the code itself polled until it is no longer pending puts on the wire what the transmit theorems speak of, all of the contents when the kernel accepts |
| SendRuns.SingleSegmentOnce | src/socket.rs:286-296 | a single-segment transmit reaches the wire at most once |
| SendRuns.BatchResends | src/socket.rs:129-133 | a batch blocked after its first segment puts that segment out twice |
| SendRuns.AtMostOnceIff | src/socket.rs:123-136 | no script duplicates a segment if and only if there is at most one |
| SendRuns.TransmitOnceIff | src/socket.rs:123-136 | a transmit is never duplicated if and only if it has no segment size or fits one segment |
| Interleaving.ReceiverMatchesCode | src/socket.rs:164-197 | the receiver's atomic steps for one datagram, delivered, refused or lost, count what the receive loop counts |
| Interleaving.SenderMatchesCode | src/socket.rs:114-119 | a sender's atomic steps count what `send_datagram` counts |
| Interleaving.BalancedAlways | src/socket.rs:113-197 | in every state of every interleaving each counter is its exact value modulo 2^64 |
| Interleaving.QuiescentCounts | src/socket.rs:113-197 | at quiescence received is rejected plus delivered plus lost, sent is what was put on the wire, bytes are the sums |
| Interleaving.RejectedWithinReceived | src/socket.rs:164-177 | without wraparound rejected never exceeds received, mid-update states included |
| Interleaving.SnapshotBracketed | src/socket.rs:100-109 | each field of a `counts` result lies between the counter's value at the start of the call and now |
| Interleaving.UndisturbedReading | src/socket.rs:100-109 | a reading nothing interferes with is the five counters, each in its place |
| Interleaving.ReadingConsistentIff | src/socket.rs:100-109 | begun in a reachable state, a reading shows no more rejected than received in every interleaving with at most k refusals, if and only if rejected is at least k behind received then, or further than can be made up without wraparound |
| Interleaving.SnapshotNotAtomic | src/socket.rs:100-109 | from any initial state a reading can show one rejected and none received |
| Protocol.InvStep | src/auth.rs:299-375 | every step keeps: grants are tokens of their path, honest packets authenticate, the log records the checks |
| Protocol.HonestPacketsAuthenticate | src/lib.rs:155-201 | in every run honest packets in flight authenticate and none was ever refused |
| Protocol.AcceptedIsAssembled | src/auth.rs:297-305 | in every run whatever was accepted carries a token for its own source, receiver and direction |
| Protocol.ReplayExact | src/auth.rs:235-247 | in every run a granted ID replayed anywhere is accepted if and only if direction and truncated tag are those of its path |
| Protocol.GrantedIds | src/lib.rs:155-201 | in every run a granted ID is a client-to-server token from a client's address to the server's, or a server-to-client token the other way |
| Protocol.DirectionsSeparate | src/auth.rs:235-239 | in every run an ID granted for packets to a client is refused by the server as the wrong direction from any source in any packet, and one for packets to the server by every client |
| Protocol.ExchangesHappen | src/lib.rs:155-201 | for every client there are runs in which its first packet, a later packet under an issued ID and the server's packet are accepted |
| Protocol.NetworkIsHostile | src/auth.rs:297-305 | from any reachable state any bytes from any source can be checked by any party, any packet in flight replayed, any lost |
| Protocol.PacketsConserved | src/lib.rs:143-201 | in every run each packet that entered the network is in flight, dropped or checked once |
| EndToEnd.HonestTrafficDelivered | src/socket.rs:170-180 | through any flood, any run of receive calls hands over every honest datagram it consumed, in order, and the bytes it hands over always carry a token of their path |
| SplitMix.MixInverse | src/bin/blaster.rs:168-171 | the mixer is a bijection, with its inverse |
| SplitMix.StatePeriod | src/bin/blaster.rs:167 | three steps at a time, the state returns exactly every 2^64 rounds |
| SplitMix.SeedsShareOneCycle | src/bin/blaster.rs:254-260 | every seed lies on every other seed's walk |
| SplitMix.DrawsDistinct | src/bin/blaster.rs:166-172 | any 2^64 successive words of a generator are pairwise distinct |
| SplitMix.KnownWords | src/bin/blaster.rs:166-172 | the published SplitMix64 words for seeds 0 and 1234567, and the first seed `main` draws |
| SplitMix.Generator.constructor | src/bin/blaster.rs:162 | the state is the seed and the output function is the mixer |
| SplitMix.Generator.Next | src/bin/blaster.rs:166-172 | the state advances by the step and the word is the output function at the new state |
| Blaster.InitialTemplate.New | src/bin/blaster.rs:84-137 | which sizes give a packet, an error or the failed assertion, and the packet's bytes |
| Blaster.InitialTemplate.RandomizeDcid | src/bin/blaster.rs:141-154 | only the ID field changes, to the leading bytes of three successive words |
| Blaster.CidInjective | src/bin/blaster.rs:146-153 | IDs from different states differ, in either byte order |
| Blaster.CidByte | src/bin/blaster.rs:146-153 | each of the 20 bytes of an ID as a byte of one of the next three words, in either byte order |
| Blaster.SentByte | src/bin/blaster.rs:141-172 | each byte of the ID in a thread's i-th packet as a byte of the seed's word 3i, 3i+1 or 3i+2 |
| Blaster.Blast | src/bin/blaster.rs:191-212 | 64 packets a batch, packet i the template with the i-th ID, every send counted once as sent, with the length reported, or as an error |
| Blaster.AcceptsCounts | src/bin/blaster.rs:198-208 | sent is the number of positions at which the socket accepted |
| Blaster.WholePackets | src/bin/blaster.rs:198-202 | a socket that takes packets whole makes the byte count the size times the packets sent |
| Blaster.PacketsRepeat | src/bin/blaster.rs:141-172 | two packets of a thread are equal if and only if their positions agree modulo 2^64 |
| Blaster.DistinctWithinPeriod | src/bin/blaster.rs:383-393 | any 2^64 consecutive connection IDs are pairwise distinct |
| Blaster.ThreadsOverlap | src/bin/blaster.rs:254-263 | for any two seeds, one thread's packets are the other's from some position on |
| Blaster.ThreadsCollideIff | src/bin/blaster.rs:254-263 | packet i of one thread is packet j of another if and only if their positions on the common walk agree modulo 2^64 |
| Blaster.ThreadsDisjointIff | src/bin/blaster.rs:254-263 | the first n packets of two threads have none in common if and only if each seed is at least n packets from the other on the cycle |
| Blaster.DrawSeeds | src/bin/blaster.rs:254-260 | one generator's successive words, pairwise distinct among any 2^64 threads |
| Blaster.ThreadsNeverInStep | src/bin/blaster.rs:254-263 | two threads seeded that way never send the same packet at the same position |
| InitialPacket.LengthFieldDecodes | src/bin/blaster.rs:112-123 | the 2-byte varint decodes to the length it was built from |
| InitialPacket.PacketParses | src/bin/blaster.rs:95-136 | every legal packet parses as a version 1 Initial whose length covers the rest, its ID where the authenticator looks |
| InitialPacket.FloodIsDistinctInitials | src/bin/blaster.rs:191-212 | all of the above for everything a thread hands to its socket |
| Ping.PingPayload | src/lib.rs:207-216 | the payload filled in place has the requested size, the number's leading bytes and the filler |
| Ping.SequenceRecoverable | src/lib.rs:203-206 | from 8 bytes on the sequence number can be read back |
| Ping.EchoExact | src/lib.rs:207-216 | any echo is accepted if and only if it has the size sent and, byte by byte, the big-endian number then the count modulo 251 |
| Ping.EchoAccepted | src/lib.rs:280-288 | a ping accepts another's echo if and only if their numbers agree in the bytes carried; from 8 bytes on only its own |

## Left out

- AES itself, key secrecy and unforgeability: the cipher is any function.
- The quality of random nonces: the nonce is an input.
- Quinn, TLS, certificates, streams and the echo server: foreign code behind thin configuration.
- The Tokio reactor, wakers and socket binding: replaced by scripts; `local_addr` and the segment limits are constants.
- Relaxed memory order: `Interleaving` takes every atomic access as one step of a single interleaving, so loads that see stale values across different counters are not modelled.
- ReceiveRuns.RunOf: takes every call of a run to have a buffer; a call without one reads nothing, and returns only if the socket stops being readable.
- Send.SendSocket.SendDatagram: takes `send_to` to report the datagram's own length, so a kernel that reports another one is not modelled.
- Send.SendSocket.TrySend: excludes a segment size of zero, on which `chunks` panics.
- Blaster.Blast: the stop flag is a number of batches and the statistics do not wrap around; pacing and sleeping are not modelled.
- The error branches of `verify` and `InitialTemplate::new` that earlier conditions make unreachable (src/auth.rs:223-229, src/bin/blaster.rs:114-118).
- Retry, version negotiation and stateless reset packets, migration and NAT rebinding: the scheme does not support them.
- Header protection: Initial packets are read as laid out, since the blaster never encrypts.
- IPv6 addresses are opaque values; the code only tells them from IPv4.
- `src/bin/client.rs` and `src/bin/server.rs` beyond the authenticators they bind (src/bin/client.rs:75, src/bin/server.rs:65).
