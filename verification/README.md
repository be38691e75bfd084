# NexusLink: a verified model of the tunnel's core

NexusLink is a reverse tunnel: a server with public ports, clients behind NAT, authenticated data channels
between them, and an earlier C engine that carries its own SHA-256 and HMAC. This project models the parts of it
whose behaviour is hard to see from one function, and proves what they promise.

| file | what it holds |
|---|---|
| Bytes, Options | bytes, big-endian integers, bitwise or and exclusive or, concatenation; optional values |
| Sha256Spec, Sha256Constants, Sha256Stream, Hmac | FIPS 180-4 as a definition; the C streaming context, HMAC, tag comparison and replay window as methods over arrays, proved against it |
| Stream, Auth, Protocol, Forward | connections with arbitrary segmentation and tear-down; signed packets and frames; control messages and UDP envelopes; the two forwarding loops end to end |
| UdpSessions, UdpRouting, UdpBuffer | the session table; users, server, lossy network and client as one state machine; the buffer that waits for the client's address |
| Rendezvous, Registry, Traffic | waiters and the acceptor; proxies and their owners; traffic totals and the quota notice |
| ConnGuard, Lockout | connection admission and bans; the Go and the JavaScript login lockout |

Each concurrent part is a state machine with one step per critical section or system call. `Exec(events)` is the
state after any sequence of steps, in any interleaving; an event that is not possible in a state changes nothing.
The theorems quantify over every such sequence. The fields that a mutex guards are also a class, whose methods are
the critical sections as the source writes them, proved to make the machine's step.
Time, dialling, listening and the access list are parameters; sockets and channels are numbers.

## What turned out differently

- The Go timestamp test computes its bounds in uint64. Below clock 300, and in the last 300 seconds of the 64-bit
  clock, one bound wraps and every packet is refused, even one stamped now. `Auth.WindowExact` gives the exact
  condition and `Auth.WindowWrapsAtZero` an instance. The Go window contains the C window outside those ranges, and
  again in the last minute, where the C window is empty (`Auth.WindowContainsC`, an equivalence).
- The C test allows 60 seconds into the future on one line and takes it back on the next, where the unsigned
  difference wraps: `Hmac.TimestampWindow` states the window that results.
- An envelope survives marshalling exactly when its id is shorter than 65536 bytes (`Protocol.UnmarshalMarshal`);
  `Protocol.UnmarshalAny` says what comes back of any other. The server's ids always have 16 bytes.
- Session ids are distinct exactly in runs that create at most 2^64 sessions of a proxy
  (`UdpRouting.IdsDistinctExactly`). The routing theorems are about those runs.
- `sendUDPToClient` gives up its lock between finding no address and appending to the buffer, so one envelope can
  be left there for ever (`UdpBuffer.StrandingHappens`), exactly when the client registers in between
  (`UdpBuffer.StrandedExactly`), and never more than one.
- A data connection can be sent to a waiter that has just timed out, and then stays in its channel
  (`Rendezvous.LateSendIsLost`). Of the connections given away those are lost, and no others
  (`Rendezvous.LostExactly`).
- The Go panel refuses a body such as `{"password":5}` without counting it; the JavaScript panel counts it as a
  failure. A body that is not JSON is refused by the JavaScript panel before its lock is looked at. So the two
  lockouts agree exactly under the condition of `Lockout.PanelsAgree`; `Lockout.NumbersPartThem` is a sequence on
  which they part.

## Model

| member | source | states |
|---|---|---|
| `Sha256Spec.PadZerosLeast` | src/sha256.c:72-82 | the number of zero bytes is the least that section 5.1.1 of FIPS 180-4 allows |
| `Sha256Spec.ChChooses` | src/sha256.c:6 | on every set of bits CH takes y where x is one and z where x is zero |
| `Sha256Spec.MajVotes` | src/sha256.c:7 | MAJ is one where at least two arguments are |
| `Sha256Spec.RotrRotates` | src/sha256.c:4 | the shift-and-or macro is a rotation for each of the ten amounts in use |
| `Sha256Spec.SigmasOfOne` | src/sha256.c:8-11 | where each of the four sigmas sends a single bit |
| `Sha256Constants.Constants0` | src/sha256.c:14-15 | round constants 0 to 7 are the first 32 bits of the fractional parts of the cube roots of the primes |
| `Sha256Constants.Constants1` | src/sha256.c:16-17 | round constants 8 to 15 are the first 32 bits of the fractional parts of the cube roots of the primes |
| `Sha256Constants.Constants2` | src/sha256.c:18-19 | round constants 16 to 23 are the first 32 bits of the fractional parts of the cube roots of the primes |
| `Sha256Constants.Constants3` | src/sha256.c:20-21 | round constants 24 to 31 are the first 32 bits of the fractional parts of the cube roots of the primes |
| `Sha256Constants.Constants4` | src/sha256.c:22-23 | round constants 32 to 39 are the first 32 bits of the fractional parts of the cube roots of the primes |
| `Sha256Constants.Constants5` | src/sha256.c:24-25 | round constants 40 to 47 are the first 32 bits of the fractional parts of the cube roots of the primes |
| `Sha256Constants.Constants6` | src/sha256.c:26-27 | round constants 48 to 55 are the first 32 bits of the fractional parts of the cube roots of the primes |
| `Sha256Constants.Constants7` | src/sha256.c:28-29 | round constants 56 to 63 are the first 32 bits of the fractional parts of the cube roots of the primes |
| `Sha256Constants.Initial` | src/sha256.c:52-58 | the initial hash value is that of the square roots of the first eight primes |
| `Sha256Spec.PadShape` | src/sha256.c:72-91 | a padded message is the message, a one bit, zeros and the bit length in the last eight bytes of whole blocks |
| `Sha256Spec.PadInjective` | src/sha256.c:72-91 | two messages under 2^61 bytes with the same padding are equal |
| `Sha256Spec.HashBlocksAppend` | src/sha256.c:60-70 | hashing whole blocks and then the rest is hashing the concatenation |
| `Sha256Spec.PackSpells` | src/sha256.c:34-35 | a word is the number its four bytes spell |
| `Sha256Spec.DigestSpellsWords` | src/sha256.c:93-102 | read four bytes at a time, the digest spells the eight state words |
| `Sha256Stream.ShiftOrIsPack` | src/sha256.c:34-35 | four bytes shifted into place and or-ed are the big-endian word of section 5.2.1 |
| `Sha256Stream.Expand` | src/sha256.c:34-37 | the two loops fill in the message schedule of section 6.2.2 |
| `Sha256Stream.RunRounds` | src/sha256.c:38-46 | the loop that rotates eight variables makes the 64 rounds of section 6.2.2 |
| `Sha256Stream.Context.Init` | src/sha256.c:52-58 | an initialised context has absorbed nothing |
| `Sha256Stream.Context.Transform` | src/sha256.c:32-50 | in place, the state becomes the compression of the old state and the block |
| `Sha256Stream.Context.Update` | src/sha256.c:60-70 | after any update the context holds exactly the old message followed by the new bytes: buffer, bit counter modulo 2^64 and state words all agree with it |
| `Sha256Stream.PadOneBlock` | src/sha256.c:74-76 | under 56 buffered bytes the first branch completes exactly the section 5.1.1 padding |
| `Sha256Stream.PadTwoBlocks` | src/sha256.c:77-82 | from 56 buffered bytes on the second branch, with its extra block, does |
| `Sha256Stream.Context.PadBranches` | src/sha256.c:73-82 | after either branch the blocks hashed so far and the buffer are the padded message, but for the length |
| `Sha256Stream.PutLength` | src/sha256.c:84-91 | eight byte stores are the big-endian bit length |
| `Sha256Stream.Context.PutDigest` | src/sha256.c:93-102 | the output loop, by shifts, writes 32 bytes that spell the eight words, and nothing past them |
| `Sha256Stream.Context.Final` | src/sha256.c:72-103 | the 32 output bytes are the FIPS 180-4 digest of everything absorbed, and nothing past them changes |
| `Sha256Stream.HashChunks` | src/sha256.c:52-103 | init, any updates, final: the digest of the concatenation, for every way of cutting the message |
| `Hmac.BlockKeyExact` | src/hmac.c:17-23 | a key of up to 64 bytes is kept, a longer one replaced by its hash, and zeros follow |
| `Hmac.PadKey` | src/hmac.c:25-31 | the pads are the zero-extended key xor 0x36 or 0x5c at every position |
| `Hmac.HashPair` | src/hmac.c:33-41 | one inner or outer pass is the hash of the concatenation, also when an input is the output buffer |
| `Hmac.Compute` | src/hmac.c:8-42 | `hmac_sha256` is section 2 of RFC 2104 for every key length and message, whatever `out` aliases |
| `Hmac.Verify` | src/hmac.c:44-51 | the or-accumulating loop returns 1 if and only if the 32 bytes agree |
| `Hmac.TimestampWindow` | src/hmac.c:53-57 | accepted if and only if 300 seconds back to now, and now + 60 has not wrapped |
| `Auth.WindowExact` | pkg/auth/auth.go:76-80 | the uint64 test accepts exactly 300 seconds either way, except where a bound wraps and nothing passes |
| `Auth.WindowWrapsAtZero` | pkg/auth/auth.go:76-80 | at clock 0 a packet stamped 0 is refused |
| `Auth.WindowContainsC` | src/hmac.c:53-57 | the Go window contains the C window if and only if neither Go bound has wrapped or the C window is empty, in the last minute of the clock |
| `Auth.SignVerify` | pkg/auth/auth.go:42-94 | a signed packet is accepted exactly in its window and gives its data back |
| `Auth.VerifySound` | pkg/auth/auth.go:65-94 | an accepted packet is the signing of the returned data at some time in the window |
| `Auth.VerifyFramedIsVerify` | pkg/auth/auth.go:122-152 | `VerifyFramed(f)` is `Verify(f[4..44+len])`; trailing bytes are ignored |
| `Auth.ReadFrame` | pkg/auth/auth.go:99-187 | a frame at the front of any stream is read back, or refused for age alone, and exactly its bytes are consumed |
| `Auth.ReadFramedSound` | pkg/auth/auth.go:156-187 | the bytes consumed are exactly the frame of the returned data for some time in the window |
| `Auth.ReadFramedExact` | pkg/auth/auth.go:156-187 | both at once, as an equivalence |
| `Auth.RefusedForLength` | pkg/auth/auth.go:156-187 | a whole frame is returned if and only if its data is at most 16 MiB and it is read in its window; a longer one is refused at any clock |
| `Auth.ReadManyFrames` | pkg/auth/auth.go:99-187 | any payloads up to 16 MiB, framed and concatenated, are read back as that sequence at any clocks in the window, consuming exactly those bytes |
| `Auth.Sign` | pkg/auth/auth.go:42-62 | the filled buffer is signature, timestamp, data |
| `Auth.SignFramed` | pkg/auth/auth.go:99-119 | the filled buffer is length, signature, timestamp, data |
| `Auth.Receive` | pkg/auth/auth.go:156-187 | over a reader with any segmentation, the result and what is left depend only on the bytes |
| `Stream.Reader.Fill` | pkg/auth/auth.go:157-173 | io.ReadFull gives the first n bytes, or fails and says whether any came, however the stream is cut |
| `Protocol.ReadEncoded` | pkg/protocol/message.go:131-192 | a message of a valid type and at most 10 MiB is read back from any stream it starts |
| `Protocol.ReadMessageSound` | pkg/protocol/message.go:149-192 | whatever is returned, the bytes consumed encode it |
| `Protocol.ReadMessageExact` | pkg/protocol/message.go:149-192 | both at once, as an equivalence |
| `Protocol.RefusedExactly` | pkg/protocol/message.go:149-192 | which header is refused for magic, version, type or length, in its bytes, and when a message is returned |
| `Protocol.DeclaredTypesAreRead` | pkg/protocol/message.go:30-56 | each of the eleven declared types is read back |
| `Protocol.ReadAllEncoded` | pkg/protocol/message.go:131-192 | any sequence of messages is read back in order, consuming exactly its bytes |
| `Protocol.WriteMessage` | pkg/protocol/message.go:131-146 | header and body on the wire are the encoding |
| `Protocol.Receive` | pkg/protocol/message.go:149-192 | over a reader with any segmentation, message, refusal and rest depend only on the bytes |
| `Protocol.UnmarshalMarshal` | pkg/protocol/message.go:221-248 | an envelope survives the round trip if and only if its id is shorter than 65536 bytes |
| `Protocol.UnmarshalAny` | pkg/protocol/message.go:221-248 | of any envelope, id and data together come back, cut at the length of the id modulo 65536 |
| `Protocol.LongIdIsLost` | pkg/protocol/message.go:221-248 | a 65536-byte id comes back empty, its bytes in front of the data |
| `Protocol.MarshalUnmarshal` | pkg/protocol/message.go:234-248 | every accepted input is the marshalling of what it gives; accepted are exactly the marshallings of envelopes with short ids |
| `Protocol.PayloadLimit` | cmd/server/main.go:907-910 | with a 16-byte id a payload passes the 65507-byte check if and only if it is at most 65448 bytes |
| `Protocol.OpenPacketExact` | cmd/client/main.go:702-709 | verify then unmarshal yields an envelope if and only if the packet is the signing of it at a time in the window |
| `Forward.DeliverExact` | cmd/server/main.go:827-876 | of any part of the wire that arrived, the far side writes the chunks of the frames that came through whole and fresh, and nothing else |
| `Forward.DeliveredIsPrefix` | cmd/server/main.go:827-876 | the bytes delivered are a prefix of the bytes sent |
| `Forward.EndToEnd` | cmd/client/main.go:610-659 | with any segmentation and any tear-down on either side, what is written is a prefix of what was read |
| `Forward.Tunnel` | cmd/client/main.go:610-659 | both loops with any cut of what was sent into segments: what is written is a prefix of what there was to read, and all of it if nothing broke and every frame was read in its window |
| `Forward.NothingRefused` | cmd/server/main.go:829-872 | whatever part of the wire arrived, once a frame of a forwarder is there whole ReadFramed at its place returns exactly its data, or fails if and only if it is read outside its window |
| `Forward.EverythingArrives` | cmd/server/main.go:827-876 | when the whole wire arrives and is read in the window, every byte sent is delivered |
| `Forward.SignLoop` | cmd/server/main.go:835-854 | the chunks are a partition of the bytes read, what was sent is their frames, cut only where the connection broke, and unless it broke everything is read and sent |
| `Forward.VerifyLoop` | cmd/server/main.go:857-872 | what is written is what the frames deliver, cut only where the connection broke |
| `UdpSessions.SessionIdSpells` | cmd/server/main.go:997 | an id is sixteen lower-case hexadecimal digits that spell the counter |
| `UdpSessions.SessionIdInjective` | cmd/server/main.go:997 | sixteen hexadecimal digits determine the 64-bit counter |
| `UdpSessions.IdOfInjective` | cmd/server/main.go:997 | the ids of two sessions are equal if and only if the 64-bit counter has gone round between them |
| `UdpSessions.CreateKeepsInverse` | cmd/server/main.go:986-1001 | creating keeps the two maps inverse if and only if the id is not in use |
| `UdpSessions.ReuseKeepsInverse` | cmd/server/main.go:990-996 | reuse keeps them inverse and refreshes the user's own session |
| `UdpSessions.CloseKeepsInverse` | cmd/server/main.go:973-979 | a close keeps them inverse, removes the session and no other |
| `UdpSessions.ExpireKeepsInverse` | cmd/server/main.go:1013-1019 | cleanup keeps them inverse and leaves exactly the sessions active within five minutes |
| `UdpSessions.SessionTable.GetOrCreateSession` | cmd/server/main.go:986-1001 | table, id and flag are those of the specification, both maps lead from the user to the refreshed session and back, and they stay inverse if and only if a new id was not in use |
| `UdpSessions.SessionTable.CloseSession` | cmd/server/main.go:974-979 | the session is gone from both maps, which stay inverse |
| `UdpSessions.SessionTable.CleanupIdle` | cmd/server/main.go:1012-1020 | deleting while iterating, in any order, leaves exactly the sessions active within five minutes and keeps the maps inverse |
| `UdpRouting.StepKeeps` | cmd/server/main.go:880-1001 | every step of users, server, network and client keeps the routing invariant and only extends the history |
| `UdpRouting.RunKeeps` | cmd/server/main.go:880-1001 | the invariant holds in every state of every run that creates at most 2^64 sessions |
| `UdpRouting.RoutingSafety` | cmd/server/main.go:880-1001 | a reply that reached a user came from a socket opened for a session given to that user, and each thing written to that socket is a particular datagram of that user |
| `UdpRouting.NoSharedBackend` | cmd/client/main.go:689-777 | everything written to a backend socket and everything answered from it belongs to one user |
| `UdpRouting.HistoryOnlyGrows` | cmd/server/main.go:986-1001 | over any longer run an id keeps its user and a socket its session, so a stale id never names another user |
| `UdpRouting.SessionsAgreeWithHistory` | cmd/server/main.go:986-1001 | a live session belongs to the user its id was first given to, and that user's index entry points back |
| `UdpRouting.IdsOverHistory` | cmd/server/main.go:986-1001 | in every run, of any length, the k-th session created gets the id of k modulo 2^64, whatever was closed or cleaned up in between |
| `UdpRouting.IdsDistinctExactly` | cmd/server/main.go:986-1001 | no id is given out twice in a run if and only if it creates at most 2^64 sessions |
| `UdpRouting.CreateExtends` | cmd/server/main.go:997-1000 | a new session leaves every id with its first user if and only if its id was never given to another |
| `UdpRouting.DatagramArrives` | cmd/client/main.go:711-727 | from any reachable state with the loops at rest, a datagram whose packet is delivered is written to an open socket of the sender's own session |
| `UdpRouting.RegistrationOpens` | cmd/client/main.go:712-713 | the registration of a new session, once delivered, opens a socket for it |
| `UdpRouting.AnswerArrives` | cmd/client/main.go:754-777 | from any reachable state with the server at rest, an answer from the socket of a live session, once delivered, is written to the user that session was given to |
| `UdpRouting.ByeCloses` | cmd/client/main.go:773-776 | when a backend is gone and its notice delivered, the socket is closed, the id is in none of the maps and no other session is touched |
| `UdpRouting.ActiveWhenSeen` | cmd/server/main.go:967-971 | in every run a live session was last active at its last datagram or reply |
| `UdpRouting.CleanupExactly` | cmd/server/main.go:1012-1020 | a pass of the cleanup keeps exactly the live sessions with a datagram or reply in the last five minutes |
| `UdpRouting.BackendTable.GetOrCreateBackend` | cmd/client/main.go:730-751 | reuse, or dial and remember; the socket returned belongs to the session |
| `UdpRouting.BackendTable.CloseBackendSession` | cmd/client/main.go:780-787 | the session's present socket is closed and forgotten, and no other socket changes |
| `UdpBuffer.StepConserves` | cmd/server/main.go:906-949 | a step moves an envelope from one place to another and loses or copies none |
| `UdpBuffer.RunKeeps` | cmd/server/main.go:906-949 | conservation, the bound of 1024, and at most one envelope in or near the buffer once the address is known, in every reachable state |
| `UdpBuffer.Conservation` | cmd/server/main.go:906-949 | every envelope given to `sendUDPToClient` is in exactly one place: oversize, overflow, buffer, flusher, running call, or written once |
| `UdpBuffer.FitsExactly` | cmd/server/main.go:907-910 | an envelope fits if and only if its signed packet has at most 65507 bytes |
| `UdpBuffer.WaitsInOrder` | cmd/server/main.go:906-925 | before the address is known the fitting envelopes are, in the order handed in, the buffer, then those dropped because 1024 were waiting, then the one in the running call; what does not fit is dropped |
| `UdpBuffer.WritesInOrder` | cmd/server/main.go:936-949 | after the registration the receiving goroutine writes, in order, what was waiting, and the sending one, in the order handed in, every later envelope that fits |
| `UdpBuffer.StrandedForever` | cmd/server/main.go:936-949 | after the one flush nothing leaves the buffer again and it never holds more than one envelope |
| `UdpBuffer.StrandedExactly` | cmd/server/main.go:912-949 | once the address is known the buffer is empty or holds one envelope, and holds it if and only if the sender had found no address and not yet appended it when the client registered, and has since ended that call |
| `UdpBuffer.WrittenExactly` | cmd/server/main.go:906-949 | with the address known and both goroutines at rest, every envelope not dropped has been written, except one copy of the one that lost that race |
| `UdpBuffer.StrandingHappens` | cmd/server/main.go:912-922 | a run that strands one |
| `UdpBuffer.Outbox.Enqueue` | cmd/server/main.go:916-922 | the envelope goes to the end of the buffer, or is dropped when 1024 are waiting, as the machine's step does |
| `UdpBuffer.Outbox.Arrive` | cmd/server/main.go:936-949 | the first packet registers its address and takes the whole buffer; later ones change nothing |
| `Rendezvous.StepKeeps` | cmd/server/main.go:782-824 | every step of waiters, timers and acceptor keeps the rendezvous invariant, with colliding ids allowed |
| `Rendezvous.RunKeeps` | cmd/server/main.go:1027-1066 | the invariant holds in every reachable state |
| `Rendezvous.SendNeverBlocks` | cmd/server/main.go:1060-1061 | whenever the acceptor sends, the channel is empty; no channel is sent to twice |
| `Rendezvous.RendezvousIsExclusive` | cmd/server/main.go:798-818 | a waiter gets only a connection that announced its id, and no two get the same one |
| `Rendezvous.GaveUpIsForgotten` | cmd/server/main.go:812-817 | in every run no id leads to a waiter that gave up |
| `Rendezvous.LookUpExactly` | cmd/server/main.go:1053-1064 | a connection whose id nobody waits for is closed, any other is taken to the waiter of its id, whose entry goes |
| `Rendezvous.GivenIsKept` | cmd/server/main.go:1060-1061 | in every run a connection given to a waiter was received by it or is the only thing in its channel |
| `Rendezvous.StuckForever` | cmd/server/main.go:809-818 | a connection given to a waiter that has taken its timer stays so over every longer run |
| `Rendezvous.LostExactly` | cmd/server/main.go:809-818 | a connection given away is never received in any continuation if and only if its waiter has taken its timer; otherwise it is received already or by the next receive |
| `Rendezvous.Meets` | cmd/server/main.go:1027-1066 | from any reachable state with a free acceptor, a new waiter whose connection comes in time gets it |
| `Rendezvous.LateSendIsLost` | cmd/server/main.go:809-818 | a run in which a connection goes to a waiter that has given up |
| `Rendezvous.Pending.Claim` | cmd/server/main.go:1053-1064 | found, it is removed and sent to; not found, the connection is closed |
| `Registry.RemovedKeeps` | cmd/server/main.go:590-608 | removing any proxies keeps owners live and the open sockets exactly those registered |
| `Registry.NewProxyKeeps` | cmd/server/main.go:639-768 | so does a request, on every failure branch |
| `Registry.NewProxyExact` | cmd/server/main.go:653-768 | a proxy is registered if and only if the name is allowed and free, the type known and both listens succeed; it is the requester's, with two new sockets; otherwise nothing is registered or left open |
| `Registry.RunKeeps` | cmd/server/main.go:552-768 | in every reachable state owners are live, the open sockets are exactly those of registered proxies, and no proxies share one |
| `Registry.ClientsAreOnline` | cmd/server/main.go:533-545 | the live clients are those whose last word was to connect |
| `Registry.RequestIsExact` | cmd/server/main.go:639-768 | in every run a request registers a proxy if and only if its client is live and those conditions hold |
| `Registry.DisconnectIsExact` | cmd/server/main.go:573-581 | a disconnect removes exactly that client and its proxies and leaves the others with their sockets open |
| `Registry.CloseIsExact` | cmd/server/main.go:219-231 | a close from the panel removes the named proxy, closes its sockets and its quit channel, and leaves every other proxy as it was; an unknown name changes nothing |
| `Registry.ClosesOnce` | cmd/server/main.go:219-231 | from whichever side, a proxy leaves the registry together with a quit channel that was open until then and is nobody else's |
| `Registry.Server.CleanupProxy` | cmd/server/main.go:590-608 | never closes a quit channel twice; removes one proxy with its sockets |
| `Registry.Server.CloseProxy` | cmd/server/main.go:219-231 | the named proxy is gone with its sockets and quit channel, the others are untouched; an unknown name is an error and changes nothing |
| `Registry.Server.HandleNewProxy` | cmd/server/main.go:639-768 | success and the new registry are those of the specification; a failed second listen closes the first socket again |
| `Registry.Server.HandleDisconnect` | cmd/server/main.go:573-581 | deleting while iterating, in any order, is the removal of all the client's proxies at once |
| `Traffic.StepDue` | cmd/server/main.go:1133-1185 | while a reached quota is unmarked some call has still to see it, whatever the interleaving |
| `Traffic.RunKeeps` | cmd/server/main.go:1133-1185 | single notice and its custody hold in every reachable state |
| `Traffic.TotalsAreSums` | cmd/server/main.go:1133-1145 | from the events alone: what a managed client has in, and out, is the sum of its chunks; the unnamed and the default client have nothing |
| `Traffic.NoticeExactlyOnce` | cmd/server/main.go:1133-1185 | the notice is sent at most once, and only when a managed client's chunks have carried its positive quota; with no call in progress it has been sent if and only if they have |
| `Traffic.Meter.Add` | cmd/server/main.go:1134-1145 | in and out of a managed client each grow by the chunk's own, every other total stays |
| `Traffic.Meter.IsOver` | cmd/server/main.go:1164-1171 | true exactly when a positive quota is reached |
| `Traffic.Meter.Mark` | cmd/server/main.go:1172-1178 | true for the one call that gets to send the notice |
| `ConnGuard.StepKeeps` | pkg/security/connguard.go:72-227 | every call keeps counters, offences, bans and spacing in agreement with the calls and answers so far, for every address |
| `ConnGuard.RunKeeps` | pkg/security/connguard.go:72-227 | they agree in every run whose clock never goes back |
| `ConnGuard.BanAgreesWithHistory` | pkg/security/connguard.go:92-101 | over the calls and their answers: an address is banned at t if and only if a BanIP or a third offence of it is less than a minute old, and while it is a limited address is refused |
| `ConnGuard.AdmittedExactly` | pkg/security/connguard.go:72-133 | a limited address is let in if and only if the calls so far show no ban within a minute, no admission within a second, and fewer than 200 admitted and unreleased connections |
| `ConnGuard.ThirdStrikeBans` | pkg/security/connguard.go:103-127 | after the third offence since the last clear or threshold ban a limited address is refused for a minute, whatever happens meanwhile |
| `ConnGuard.OffenceBansExactly` | pkg/security/connguard.go:165-179 | an offence of an address that is not banned, a report or a refused Check, bans it if and only if it is the third |
| `ConnGuard.FastConnectionsBan` | pkg/security/connguard.go:103-115 | four connections within a second: one let in, three refused, and then a minute of refusals |
| `ConnGuard.WhitelistedIsExempt` | pkg/security/connguard.go:76-79 | a whitelisted address is always admitted, changes nothing and is never banned |
| `ConnGuard.LoopbackIsAdmitted` | pkg/security/connguard.go:80-87 | a local address is always let in and counted |
| `ConnGuard.CountsAreLive` | cmd/server/main.go:446-449 | with one Check per new connection and one Release per admitted one, the counter of an address is the number of its connections admitted and not released, 0 on the whitelist, and at most 200 for a limited address |
| `ConnGuard.AdmissionRate` | pkg/security/connguard.go:103-132 | any window of length w holds at most floor(w / interval) + 1 admissions of a limited address |
| `ConnGuard.ConnectionGuard.Check` | pkg/security/connguard.go:72-133 | new maps and answer; for a new connection the history stays in agreement and the connection is live if and only if it was let in |
| `ConnGuard.ConnectionGuard.Release` | pkg/security/connguard.go:153-161 | the counter goes down, never below zero; for a live connection the history stays in agreement and the connection is live no more |
| `ConnGuard.ConnectionGuard.BanForBadBehavior` | pkg/security/connguard.go:165-179 | one offence, or nothing for a whitelisted address |
| `ConnGuard.ConnectionGuard.ClearMisbehavior` | pkg/security/connguard.go:182-186 | the offences start over |
| `ConnGuard.ConnectionGuard.BanIP` | pkg/security/connguard.go:189-196 | a ban now, or nothing for a whitelisted address |
| `ConnGuard.ConnectionGuard.IsBannedNow` | pkg/security/connguard.go:199-207 | true if and only if the history holds a ban less than the ban duration old |
| `ConnGuard.ConnectionGuard.GetStats` | pkg/security/connguard.go:210-227 | the number of addresses of the history with a recent ban, and of admitted and unreleased connections off the whitelist; expired bans are dropped and nothing else changes |
| `Lockout.InForce` | pkg/web/security.go:172-190 | positive settings are used as they are; otherwise 5 failures and 15 minutes |
| `Lockout.RunKeepsWindow` | pkg/web/server.go:358-392 | the count is of the failures since the one that set the lock, in every run |
| `Lockout.FailureWindow` | pkg/web/server.go:358-385 | every half-open window as long as the lock time holds at most RateLimitMax of the failures evaluated since the last success |
| `Lockout.DecidedExactly` | pkg/web/server.go:436-468 | from the attempts alone, successes included: denied if and only if the failures evaluated since the last success are a positive multiple of RateLimitMax and the last is less than the lock time old; otherwise answered by the body |
| `Lockout.CleanupIsInvisible` | pkg/web/server.go:411-417 | with cleanup anywhere or nowhere every attempt is decided alike |
| `Lockout.LoginsMatch` | web/server/index.js:333-368 | from corresponding entries one attempt is answered alike if and only if, locked, the JavaScript panel parses the body and, not locked, both make the same of it; then the entries correspond again |
| `Lockout.PanelsAgree` | web/server/index.js:83-126 | for every timed sequence of attempts the Go panel at 5 failures and 15 minutes and the JavaScript panel decide alike if and only if every attempt meets that condition |
| `Lockout.PanelsAgreeOnJson` | web/server/index.js:345-359 | for JSON bodies: if and only if every body that Go cannot decode arrives while the address is locked |
| `Lockout.NumbersPartThem` | web/server/index.js:345-359 | after five numeric passwords the right one succeeds in Go and is denied in JavaScript |
| `Lockout.FailedLogins.RecordFailedLogin` | pkg/web/server.go:370-385 | the entry counts up, or locks and starts over; other addresses are untouched |
| `Lockout.FailedLogins.HandleLogin` | pkg/web/server.go:436-468 | decision and entry of one attempt; other addresses are untouched |
| `Lockout.FailedLogins.CleanupFailed` | pkg/web/server.go:411-417 | deleting while iterating, in any order, drops exactly the entries with no count and no lock in force |
| `Lockout.LoginAttempts.CheckLoginRateLimit` | web/server/index.js:83-104 | allowed or not, and an expired lock is forgotten |
| `Lockout.LoginAttempts.RecordLoginFailure` | web/server/index.js:107-121 | the entry counts up and locks at five |
| `Lockout.LoginAttempts.HandleLogin` | web/server/index.js:333-368 | decision and entry of one attempt; other addresses are untouched |

## Left out

- Sockets, TLS, JSON, YAML, SQLite, logging and webhooks are not modelled; sockets are numbers and JSON bodies byte strings.
- pkg/store, the /api/v1 handlers, the SDKs, the HTML and Vue panels, scripts and docs are thin wrappers or user interface and are not modelled.
- src/server.c and src/client.c, the unfinished event loops of the C engine, are not part of this model.
- Unforgeability of HMAC is not a property of this code: UdpRouting lets the network drop, duplicate and reorder the packets of both sides but not invent them or reflect them to their sender.
- UdpRouting: runs that create more than 2^64 sessions of one proxy are outside the routing theorems, because ids then repeat (`UdpRouting.IdsDistinctExactly`).
- UdpRouting: the sender's buffer is the subject of UdpBuffer; here a packet it holds or drops is one the network delays or drops.
- UdpBuffer: how the writes of the two goroutines interleave is left out; the order of each is not.
- Sha256Spec.PadInjective: is about messages under 2^61 bytes, because section 5.1.1 of FIPS 180-4 stops there; longer ones are hashed with the low 64 bits of their bit length, as the code does.
- Sha256Stream.Context.Update: the input may not be the context's own buffer, which no caller can reach.
- Forward.EndToEnd: the byte counters that the loops also update are left out.
- Registry.RunKeeps: the ids of live control connections are taken to be distinct; they hold the address and the connection time in nanoseconds.
- Registry: the client's registration replies, its re-registration after a reconnect and the close of its own `udpQuit` are left out; the code does not keep them in step.
- Rendezvous: a data connection that fails before it announces an id is closed at once and is left out.
- Traffic.NoticeExactlyOnce: quotas are fixed and totals do not wrap at 2^63.
- Per-client `reportTraffic`, the tunnel quota MaxTunnels and the agreement of `managedByToken` with the database are left out; the code does not keep them.
- ConnGuard: the theorems about runs take handleClient's discipline, one Check for each new connection and one Release for each admitted one, which is the only use the server makes of them.
- ConnGuard: parsing of addresses and CIDR ranges; whitelist and loopback are fixed sets. The clock readings within one locked call are one reading.
- Lockout: attempts from one address are handled one at a time, and settings do not change. How a body is parsed is a parameter of the attempt, one reading per panel. Manual unlocking is left out.
