# construct-transport: a verified model

The crate carries gRPC messages over QUIC/HTTP-3: a length-prefixed framing, a client with a
connection lifecycle, a reverse proxy to an HTTP/2 upstream, an echo server, an FFI surface for
concurrent callers, a UDP socket that does not spin on errors, and an optional obfuscation of every
datagram. This project models that behaviour in Dafny and proves what it is for.

`dafny verify dfyconfig.toml` checks the whole project.

## How it is modelled

Code that runs on its own is imperative: loops, classes and arrays, each method proved against what
its result means. Code whose point is interleaving is a machine of small steps: `Step(s, label)` is
total (a step whose condition does not hold changes nothing), `Run(labels)` starts from the initial
state, and a theorem about `Run(labels)` for all `labels` covers every interleaving, every cut of a
byte stream and every failure. Each machine has invariants of every run, what later steps never take
back, and what can still be completed from every state. quinn, h3, hyper, tokio and the network are
the labels, the oracles and the scripts; nothing is assumed about them beyond what a file's comments
say.

| file | what it models |
|---|---|
| `Grpc.dfy` | the buffer, `encode_frame`, `take_frame`, and the parse of a whole stream |
| `Receiver.dfy` | both `recv_message` loops and `split` |
| `Proxy.dfy`, `ResponseGrammar.dfy` | sender, pump A, the bounded channel, an echoing upstream, pump B and receiver as one system; the order of response frames |
| `EchoServer.dfy` | the echo server's connection handler |
| `Ffi.dfy` | concurrent calls on one exported stream, as spawned tasks and, for comparison, inside their callers' futures |
| `Gauge.dfy` | `retire` from many threads and the live-connection gauge |
| `Dial.dfy`, `Sockets.dfy` | candidates, time plan, dial loop, handshake, socket recipes |
| `Migration.dfy` | `rebind`, its sockets and its verdict |
| `SpinFree.dfy` | the receive poll, the loop it replaces, the driver above it, the error counters |
| `Salamander.dfy`, `ObfSocket.dfy` | the in-place datagram codec and the socket around it |
| `Tls.dfy` | the certificate store across restarts |

BLAKE2b is a parameter known only by the length of its result. Framing bytes are integers below 256;
datagram bytes are bit-vectors, because they are XORed. `usize` is taken to be 64 bits wide, so
`5 + len` does not overflow. Atomics are sequentially consistent.

## What turned out not to hold

* A message of 2^32 bytes or more does not survive framing, because its length is cast to 32 bits.
  `Grpc.EncodeThenTake` and `Grpc.WireRoundTrip` give the exact condition, and what is cut instead.
* A clean end of a proxied response does not prove that the request went through: a read error ends
  the upstream body as a half-close does. `Proxy.ReadErrorLooksClean` is such a run,
  `Proxy.EndMeansAllIffNothingLeft` the exact condition, `Proxy.MessageCanReturn` a run of the good
  case.
* The comment on `rebind` says that the connection accepted a datagram since the swap
  (src/client.rs:431-432). The code samples the counter before it binds and swaps
  (src/client.rs:437, 443), so the accepted datagram may predate the swap, and it need not be the one
  the new socket counted. The model follows the code. What a success does prove is in the contract of
  `Migration.QuicClient.Rebind`; it also proves an acceptance since the swap exactly when the counter
  at the swap is still the sampled one (`Migration.AcceptedSinceSwapIff`), and an acceptance on the
  new socket exactly when, besides, the old socket delivers nothing after the swap
  (`Migration.ConfirmedOnNewSocket`).
* A stored certificate pair is not always kept matching. `Tls.AlwaysMatchingIffSafe` characterises
  the start states and `Tls.MatchingIffNoneBreaks` the write failures: from a safe disk only a key
  write that stops part-way behind a whole new certificate does harm.
* An error of the readiness wait itself leaves the receive poll uncounted and unconverted, so the
  driver above it retries a connection reset reported there: once for each wait that reports one
  (`SpinFree.Drive`).

## Model

| member | source | states |
|---|---|---|
| Grpc.U32RoundTrip | src/grpc.rs:20 | the four length bytes keep a length modulo 2^32 |
| Grpc.U32BytesInvert | src/grpc.rs:31 | every four bytes are the length bytes of the value they decode to |
| Grpc.BigEndian | src/grpc.rs:20 | lengths are ordered as their bytes are: the most significant comes first |
| Grpc.EncodeFrame | src/grpc.rs:17-23 | the frame of a body: flag zero, 32-bit big-endian length, the body; exactly one whole frame if the length fits |
| Grpc.TakeFrame | src/grpc.rs:27-38 | waits and leaves the buffer alone exactly while it holds an unfinished frame; otherwise yields the first body and keeps everything behind it |
| Grpc.TakeWhole | src/grpc.rs:31-37 | a buffer that starts with a whole frame, whatever its flag, yields its body and leaves the rest |
| Grpc.TakeWaitsIffUnfinished | src/grpc.rs:28-34 | no frame is taken exactly when some continuation makes the buffer one frame |
| Grpc.EncodeThenTake | src/grpc.rs:17-38 | encode then take is the identity exactly for lengths below 2^32, and what is taken otherwise |
| Grpc.TakeThenEncode | src/grpc.rs:17-38 | a whole frame is the encoding of its own body exactly when its flag byte is zero |
| Grpc.TakeStable | src/grpc.rs:27-38 | bytes arriving later never change a frame already complete |
| Grpc.ParseUnique | src/grpc.rs:27-38 | any split of a stream into whole frames and an unfinished tail is the one repeated taking finds |
| Grpc.ParseExists | src/grpc.rs:27-38 | every stream has such a split; the leftover is always an unfinished frame |
| Grpc.ParseConcat | src/grpc.rs:27-38 | a stream may be parsed in any two pieces, carrying the leftover over |
| Grpc.WireRoundTrip | src/grpc.rs:17-38 | the messages sent are the messages parsed, with nothing left over, exactly when every length fits |
| Grpc.CutOfWire | src/grpc.rs:17-38 | any cut of a sent stream shows a prefix of the messages, all of them only at its end |
| Receiver.RecvCallIgnoresChunking | src/client.rs:608-621 | one call returns the first message of all bytes at hand or drains them, wherever the chunks were cut; it reports the end only after a half-close, an error only after a reset, and otherwise waits; a partial frame at the end is kept and not reported |
| Receiver.RecvCallIsLazy | src/client.rs:610-617 | a call reads no chunk it does not need |
| Receiver.ReceiveLoop | src/client.rs:609-620 | the loop over buffer and chunks computes that call, with the end, the error and the waiting each only on a stream that stands so |
| Receiver.QuicStream.RecvMessage | src/client.rs:608-621 | the call on an unsplit stream |
| Receiver.QuicRecvStream.RecvMessage | src/client.rs:694-706 | the same call on the receive half |
| Receiver.QuicStream.Split | src/client.rs:648-657 | the receive half gets the stream and the bytes already buffered |
| Receiver.RunIsParse | src/client.rs:608-657 | over any run of arrivals, calls and the split, results and bytes held join into one parse of everything that arrived |
| Receiver.ReceiveAcrossSplit | src/client.rs:608-706 | with the stream, its split and the receive half as objects: calls before and after the split return the parse of every byte that arrived |
| Receiver.DrainedIsParse | src/client.rs:694-706 | when a call reports no message, all messages that arrived were returned and the buffer is an unfinished frame |
| Receiver.ChunkingInvariance | src/client.rs:694-706 | two drained runs over the same bytes, cut and interleaved in any two ways, return the same messages and hold the same leftover |
| Receiver.ArrivedIsBytesIn | src/client.rs:613-618 | everything that arrives before the end counts, and nothing after it |
| Receiver.CallsReturnEverything | src/client.rs:694-706 | from any run on, enough calls return every message of all bytes in, and the last tells how the stream stands |
| ResponseGrammar.ValidIffPrefixOfResponse | src/proxy.rs:181-206 | the frame orders the phases accept are exactly the prefixes of HEADERS DATA* [TRAILERS] FIN |
| ResponseGrammar.ClosedIffComplete | src/proxy.rs:206 | and the last phase is reached exactly by complete responses |
| ResponseGrammar.OrderedIffPrefix | src/proxy.rs:181-206 | prefixes and complete responses told by their frames alone: HEADERS at the front only, FIN at the end only, nothing but FIN behind TRAILERS |
| Proxy.EveryRunKeeps | src/proxy.rs:113-210 | the invariant of the whole system, in every run |
| Proxy.ReceivedIsPrefix | src/proxy.rs:156-206 | messages received are at all times a prefix of messages sent; all of them exactly when no byte is outstanding |
| Proxy.EndMeansAllIffNothingLeft | src/proxy.rs:158-206 | at the end of a complete echo everything was received exactly when pump A left nothing unread; it ended by the half-close, which leaves nothing, or by a read error |
| Proxy.PumpsConserve | src/proxy.rs:138-173 | bytes from the client are, in order, delivered, queued, dropped, in hand or unread; at most 64 chunks are queued; bytes are dropped only after the receiver is gone or pump A was aborted |
| Proxy.ResponseInOrder | src/proxy.rs:181-206 | the frames sent to the client are a prefix of a response, complete exactly after `finish`, and carry exactly the bytes received and on the way |
| Proxy.ReadErrorLooksClean | src/proxy.rs:165-173 | a read error in pump A can end in headers, trailers, FIN and end of stream although the message was lost |
| Proxy.MessageCanReturn | src/proxy.rs:156-206 | a run in which the message goes up, is echoed, comes back and ends cleanly |
| Proxy.EverythingCanReturn | src/proxy.rs:156-210 | from every state of every run in which nothing has gone wrong, the system can still bring back every message and end a complete response, with trailers or without |
| Proxy.NothingIsTakenBack | src/proxy.rs:156-210 | histories only grow; what has ended, failed or gone away stays so and sends, reads or takes nothing more |
| Proxy.SilentUntilAnswered | src/proxy.rs:176-188 | the client is sent nothing before the upstream answers |
| Proxy.RefusedSendsNothing | src/proxy.rs:176-179 | and nothing at all, whatever follows, when it refuses |
| Proxy.FailureEndsResponse | src/proxy.rs:186-206 | a failing pump B sends nothing more and never completes its response |
| Proxy.BrokenNeverCompletes | src/proxy.rs:192-193 | a response whose upstream body breaks off is never completed |
| Proxy.EarlyEndIsFinal | src/proxy.rs:192-206 | an upstream that ends its response early takes nothing more of the request |
| Proxy.StoppedPumpReadsNothing | src/proxy.rs:158-173 | pump A stopped by a read error, a lost receiver or the abort reads nothing more; the chunk in hand is lost |
| Proxy.DroppedBodyTakesNothing | src/proxy.rs:161-163 | nothing is delivered once the upstream dropped its request body |
| Proxy.QueueCanFill | src/proxy.rs:138 | all 64 places of the channel can be used |
| EchoServer.EchoChunks | src/echo_server.rs:79-82 | every chunk is sent back before the next is read; success exactly when the client half-closes and every send succeeds |
| EchoServer.ServeRequest | src/echo_server.rs:67-89 | the events of one request are a beginning of headers, echoes, trailers, FIN; it stops exactly at the first frame too many, or at a reset |
| EchoServer.HandleConn | src/echo_server.rs:60-91 | requests are served one after the other; the first that fails stops where it must and leaves every later one untouched |
| EchoServer.FullLogIsResponse | src/echo_server.rs:72-88 | a served request puts exactly one response on its stream: its chunks in order, with trailers |
| EchoServer.EchoFramesInOrder | src/echo_server.rs:67-89 | however far a request gets, its frames are a prefix of a response and headers precede any read |
| EchoServer.MessagesComeBack | src/echo_server.rs:79-82 | whatever the chunks, the response parses into a prefix of the messages sent, and into all of them when served to the trailers |
| Ffi.EveryRunKeeps | src/ffi.rs:237-279 | the invariants of both locked halves, in every run of either variant |
| Ffi.FramesInLockOrder | src/ffi.rs:246-255 | concurrent senders never mix frames, whoever is dropped: the wire is the successful calls' frames in lock order, then at most the next ones'; nothing follows a half-close |
| Ffi.PeerParsesIffNoFrameCut | src/ffi.rs:46-54 | with the lock free and no failure the peer parses exactly the successful calls' messages if and only if no sender was cancelled inside its frame, which never happens to spawned tasks |
| Ffi.InlineCallsMixFrames | src/ffi.rs:46-54 | run inside its caller's future instead, a dropped sender leaves half a frame in front of the next, successful one |
| Ffi.InlineCallDiesWithCaller | src/ffi.rs:46-54 | inside its caller's future, a call that has not returned is gone with the caller, locks included |
| Ffi.MessagesArePartitioned | src/ffi.rs:264-267 | concurrent receivers share the incoming messages out without loss or duplication, in either variant, and the end is reported after the last |
| Ffi.EveryCallCanReturn | src/ffi.rs:246-255 | from every run in which no send failed and no message waits behind a half-close, every call made can still return success, and the peer parses exactly their messages |
| Ffi.ReceiverCanReturn | src/ffi.rs:264-267 | a queued receiver can return: the next message if it has arrived, else the end or the error if there is one, and else it holds on |
| Ffi.NothingIsTakenBack | src/ffi.rs:246-267 | results stay, wire and messages only grow, and after a half-close or a failed send nothing more is written |
| Ffi.FailedSendEndsWriting | src/ffi.rs:248 | a send that fails says so and frees the lock; nothing is written after it |
| Ffi.FinIffFinishReturned | src/ffi.rs:252-255 | the send side is half-closed exactly when some `finish` has returned |
| Ffi.DroppedCallersChangeNothing | src/ffi.rs:46-54 | whoever is dropped, spawned calls do what calls inside undropped callers' futures would have done |
| Gauge.EveryRunKeeps | src/client.rs:498-507 | the invariant of gauge, flags and threads, in every run |
| Gauge.GaugeIsExact | src/client.rs:78-88 | the gauge is the unretired clients plus the threads between swap and subtract; it never underflows |
| Gauge.RetiredOnceAndTornDown | src/client.rs:498-507 | each client is subtracted once; the flag means connection, driver and endpoint were closed; no retirement returns without it |
| Gauge.CloseRetires | src/client.rs:488-507 | from every reachable state, a `close()` is done after five steps: everything closed, the flag set, the gauge down by one exactly if no one had retired the client before |
| Gauge.DropRetires | src/client.rs:137-139 | so is the final drop, and no one can enter after it |
| Gauge.ConnectCounts | src/client.rs:390 | a connection counts at once and can be closed once its caller has it |
| Gauge.DropperIsAlwaysAlone | src/client.rs:137-139 | the final drop has `retire` to itself |
| Sockets.BindAddrFor | src/client.rs:192-197 | the socket has the peer's family and a port the system chooses |
| Sockets.SameObfuscationDecodes | src/obf_socket.rs:32-46 | sockets that obfuscate alike deliver every packet unchanged |
| Sockets.MixedObfuscationNeverDecodes | src/obf_socket.rs:26-31 | an obfuscating and a plain socket never deliver any packet unchanged |
| Dial.FirstsAreFirstOccurrences | src/client.rs:254-267 | candidates are the resolver's addresses in its order, each at its first occurrence |
| Dial.FirstOccurrencesUnique | src/client.rs:254-267 | and no other list is |
| Dial.FirstsIdempotent | src/client.rs:259-267 | a list of candidates is its own list of candidates |
| Dial.DialCandidates | src/client.rs:259-267 | the loop computes that list |
| Dial.PlanFitsWindow | src/client.rs:269-282 | for general constants, the plan is pinned: slices fill the window and no more, one candidate gets all of it, every slice reaches the minimum exactly when the window does, and candidates are left out only when one more minimum attempt would not fit |
| Dial.PlanOfTheSource | src/client.rs:277-282 | with the constants of the source: up to four attempts, of a second divided among them; resolution and handshakes add up to the connect budget |
| Dial.Process.Handshake | src/client.rs:343-400 | success keeps the endpoint, starts one driver and raises the gauge; every failure closes the endpoint and changes nothing else; which failure is which |
| Dial.Process.TryOne | src/client.rs:316-327 | one turn of the dial loop gains exactly one connection or nothing |
| Dial.Process.Dial | src/client.rs:309-337 | the winner is the earliest candidate whose attempt succeeds; success gains exactly one connection, failure none and says why for each address; never two endpoints at once; the timed waits fit the handshake window |
| Dial.Process.ResolveAll | src/client.rs:295-305 | resolution ends within its own timeout, with candidates or a failure |
| Dial.Process.Connect | src/client.rs:203-226 | succeeds exactly when the resolver answers in time and a candidate the plan has room for works, then with the earliest; answering within the minimum attempt is enough for the first four; no address is tried twice; the timed waits fit the connect budget; resources move by exactly the connection won |
| Migration.AwaitProof | src/client.rs:451-468 | the verdict is that of the first turn that decides, within the budget |
| Migration.QuicClient.Rebind | src/client.rs:436-469 | the first deciding turn decides: success exactly with no close reason, a datagram on the new socket after the swap and an acceptance after the sample; unconfirmed only after the budget; every early failure; a new socket that matches the recipe, or the old one |
| Migration.QuicClient.Send | src/client.rs:90-98 | after connect and any rebinds, every datagram sent decodes at a peer with the connection's obfuscation |
| Migration.ConfirmedIffBothWitnesses | src/client.rs:437-460 | a turn confirms exactly when the new socket got a datagram after the swap and the connection accepted one after the sample |
| Migration.AcceptedSinceSwapIff | src/client.rs:426-443 | a success means an acceptance since the swap, whatever follows the swap, exactly when the counter did not move between sample and swap (or the connection was closed before) |
| Migration.ConfirmedOnNewSocket | src/client.rs:426-443 | and an acceptance on the new socket exactly when, besides, the old socket delivers nothing after the swap |
| Migration.WitnessesMayDiffer | src/client.rs:437-460 | the smallest run whose two witnesses are two datagrams, the accepted one older than the swap |
| Migration.WeakerChecksAdmitFalseOk | src/client.rs:414-432 | a check of the connection's counter alone, or of the swap alone, succeeds where the new socket heard nothing |
| SpinFree.EndpointReceiveError | src/spin_free_socket.rs:136-142 | no error leaves as a connection reset, every other kind unchanged |
| SpinFree.SpinFreeUdpSocket.PollRecv | src/spin_free_socket.rs:268-297 | at most one attempt more than readiness events; every answer of the kernel but WouldBlock ends the poll, an error counted and converted; an error returned without a failed attempt is the last wait's own; only a wait reports Pending |
| SpinFree.SpinFreeUdpSocket.TrySend | src/spin_free_socket.rs:253-266 | only backpressure is returned; only a failure that is neither backpressure nor an oversized probe is counted |
| SpinFree.QuinnPollRecv | src/spin_free_socket.rs:7-20 | on a persistent error the replaced loop takes more than any given number of turns |
| SpinFree.Drive | src/spin_free_socket.rs:131-142 | in every environment the driver polls once more than waits reported a reset; a failed receive attempt is the last, ends it and is counted once; on a ready socket whose next receive fails it keeps retrying exactly if every wait reports a reset |
| Salamander.Salamander.DecodeEncode | src/salamander.rs:45-71 | every plaintext comes back under every salt, eight bytes longer on the wire |
| Salamander.Salamander.EncodeDecode | src/salamander.rs:45-71 | every datagram of at least eight bytes is the encoding of what it decodes to |
| Salamander.Salamander.OpensIffSameKey | src/salamander.rs:45-71 | another obfuscator gets a plaintext back exactly when its key for the salt agrees as far as the plaintext reaches |
| Salamander.Salamander.KeysDiffer | src/salamander.rs:36-41 | with a collision-free hash, keys tell both the pre-shared key and the salt apart |
| Salamander.Salamander.Obfuscate | src/salamander.rs:45-52 | the buffer starts with a datagram that decodes to the plaintext, and is unchanged behind it |
| Salamander.Salamander.DeobfuscateInPlace | src/salamander.rs:57-71 | the overlapping in-place decode computes the simple one and changes nothing at or past the plaintext's end |
| ObfSocket.ObfuscatedUdpSocket.TrySend | src/obf_socket.rs:108-122 | one decodable datagram reaches the wire if the path takes it; it fits the MTU bound exactly when the packet fits the lowered one (src/tls.rs:128-142) |
| ObfSocket.ObfuscatedUdpSocket.PollRecv | src/obf_socket.rs:124-151 | each filled buffer ends up with its own plaintext, length and stride; short datagrams become empty; the rest of the batch is untouched |
| ObfSocket.ObfuscatedUdpSocket.DecodeEntry | src/obf_socket.rs:133-146 | one turn of that loop |
| ObfSocket.TakenIsVisible | src/obf_socket.rs:108-151 | over any series of sends, retries included, every datagram the path took decodes to its contents, in order |
| ObfSocket.SendAll | src/obf_socket.rs:108-122 | the calls of a series put exactly the encodings of what the path took on the wire |
| ObfSocket.Transfer | src/obf_socket.rs:108-151 | carried from one socket to another and received there, exactly the contents taken end up in the batch, buffer by buffer |
| Tls.Files.LoadOrGenerate | src/tls.rs:44-63 | reuses a whole pair, otherwise generates and writes certificate then key; the disk and the result after every failure |
| Tls.StablePin | src/tls.rs:37-63 | once a start returned a pair, every later start that returns one returns the same, and none writes |
| Tls.HealthyStartReturns | src/tls.rs:49-62 | a start in which everything works returns a pair on any disk |
| Tls.WhatAStartLeaves | src/tls.rs:57-61 | the key is written only behind a whole certificate, and each file ends as its own write did |
| Tls.AlwaysMatchingIffSafe | src/tls.rs:49-62 | exactly the disks without a leftover key or mismatched pair keep every stored pair matching, whatever else fails |
| Tls.StartBreaksIff | src/tls.rs:58-62 | the one write failure that breaks a safe disk |
| Tls.MatchingIffNoneBreaks | src/tls.rs:44-63 | over any series of starts and failures from a safe disk, the stored pair matches exactly when no start broke it |
| Tls.TornKeyIsReturned | src/tls.rs:58-62 | a key write stopped part-way makes the next start return halves as a pair |

## Left out

- The internals of quinn, h3, hyper, tokio, rustls, rcgen and BLAKE2b are not part of this model; only their interface behaviour is, as chosen by the environment.
- Proxy: the main task and pump A are steps of a machine on values, because their interleaving with the rest is the point; the channel and the futures are not objects.
- Proxy: copying headers and choosing the upstream URI are a one-pass filter; requests are modelled from the body on.
- Ffi: the runtime and the locks are steps of a machine; the order in which waiting calls get a lock is any order, where tokio's is first come, first served.
- Ffi: after a failed send nothing more reaches the wire; what h3 does with a stream after an error is not part of this model.
- Ffi: the variant with calls inside their callers' futures is a comparison, not code of the repository; a cancelled call leaves on the wire what it had written and frees the lock.
- Ffi: `recv_response` and `recv_trailers` take the receive lock like any receive call and touch no message; they are not modelled.
- Gauge: the relaxed memory order of the atomics is modelled as sequentially consistent.
- Dial.PlanFitsWindow: the count is not reduced to 32 bits before the division, because the number of attempts is at most the window over the minimum, four with the constants of the source.
- Dial: timers are exact; the granularity of tokio's timer is not modelled.
- Migration: overlapping `rebind` calls on one client; one at a time is assumed, since the local address is read from the shared endpoint after the swap.
- ObfSocket: several datagrams in one buffer; segment offload is off on this path (src/obf_socket.rs:157-164), so each buffer holds one.
- Keep-alive and idle timeouts: the timers are in quinn.
- TLS configuration, certificate contents, tracing and error texts: plumbing without state.
- The binaries under `src/bin` and `src/main.rs`: argument parsing, printing and network diagnostics.
