# Proofs about chaosd and the Ivory emulator

A Dafny model of three parts of the Genera emulator and of its Chaosnet daemon, with proofs of
what they are for. `dafny verify dfyconfig.toml` checks the whole project.

**The Chaosnet NCP** (`chaosd/chaos-core.c`).
`ChaosConn` is the connection record: 16-bit counters, two 64-slot rings, timers, updated in place
statement for statement. Beside it stands the *simple form* (`Connection`): the same protocol over
unbounded packet numbers, where the sender is the list of all it ever numbered and the receiver a
map. Every method of the record is proved to take the simple form exactly one step and to put
exactly that step's messages on the wire. `Network` joins two simple forms by a network that keeps
every message for ever and may deliver it never, once or often and in any order; `Endpoint` shows
that the record's methods are that network's actions. `Answers` and `Repeats` say in true numbers,
and not in terms of the simple form's own functions, what every step does and sends: how marks move,
where a packet goes, what is answered, repeated, given up. `Integrity` then proves the two-ended theorems over
all runs, `Lasting` that no step takes back what has arrived or the end of the stream, and `Recovery`
that nothing is lost for good: from every reachable state, even when everything in flight is lost,
what is repeated from there on can bring the reader all that was written and both ends to a close,
with one exception that is proved exact.
`Pair` closes the circle: two records whose methods are called in any order, with any frame
one has sent carried to the other at any time, form such a run, so that the theorems hold of the
records themselves. `ArpCache` and `ConnTable` are the address cache and the table of connections
with its recycled indices.

**The stream socket** (`chaosd/chaos-stream.c`).
`RequestLines` is the line protocol and its grammar; `StreamClient` is one client's state machine
over its three buffers. It drives an `Endpoint`, so its byte conservation joins up with the
two-ended theorem: `SocketToSocket` speaks of what one program wrote to its socket and what the
other end of the network read.

**The Ivory processor** (`c-emulator/`).
`Ivory` has tagged words and the packed control register, `Instructions` calls, returns, pre-traps
and dynamic binding on values, and `Processor` the same on the packed register and the stack cache.
`Programs` gives arbitrarily nested programs two readings: running them on the machine, where
bindings are undone along the chain of cleanup bits, and a reference meaning with neither binding
stack nor control word, where every frame keeps its own list of saved cells. `Bracketing` proves
that they agree and that a call leaves the value its body left; `Frames` says what a callee and a trap
handler find. `InstructionCache` proves that running along the links of the decoded-instruction
cache executes what fetching every instruction from memory would, and `InstructionOrder` what order
and which bits that is. `ApplyArguments` spreads cdr-coded lists, and `Arrays` and `ArrayLayout` show
that packed arrays behave as plain ones and where their elements stand.

**Assumptions.**
The network may not deliver a number that has come round: `Fresh` asks that a packet number be less
than 2^16 behind the end of the receiver's window and an acknowledgement less than 2^16 behind the
last number sent. That is weaker than keeping every packet less than 2^15 numbers old, and it cannot
be weakened further at either end (`StalePacketIsMistaken`, `StaleAckIsMistaken`). The over-window
branch of the receiver is reached by exactly the packets that are 2^15 or more numbers behind what
has been received (`OverWindowIsStale`), so for younger ones it is unreachable. Times are read
from a clock far from overflowing 64 bits. An address that is not resolved counts as a lost frame.
The binding theorem keeps the binding stack apart from the bound cells, wants balanced bindings
between the start and the finish of a call, and leaves catch blocks out. It also asks that bit 6 be
clear in the tag of the first locative that a frame binds through: the source ORs the cleanup bit
into whatever cdr code the locative carries and tests its type only. That condition is exact
(`FirstLocativeDecides`), and `MarkedLocativeOverruns` is a frame that undoes a binding of its
caller's; later locatives may carry any cdr code. The instruction cache is for code words that do
not change and lie 32 words or more from the ends of the address space: in the lowest block a link
before the line goes unnoticed (`FirstLinkIsGuarded`), and in the highest one the bound wraps round
to 0, so that the loop never fills the line.

Three things a reader of the code might not expect: a connection whose user has read the peer's EOF
can no longer get its own data through, because the acknowledgement of that EOF closes the peer
before it looks at the data (`LossIsRecovered` makes this exact); the sequence comparison, described there as "less
than", holds both ways at distance 2^15 (`LtBothWays`); and a word whose cdr code is 0 is decoded as
two packed instructions whatever its type, which `Fetch` follows.

## Model

| member | source | states |
|---|---|---|
| `PacketNumbers.LtIsExact` | chaosd/chaos-core.c:45-49 | within 2^15 the modular comparison orders the unbounded numbers |
| `PacketNumbers.LtBothWays` | chaosd/chaos-core.c:45-49 | the comparison holds both ways exactly at distance 2^15, where section 3.2 of RFC 1982 leaves it undefined |
| `PacketNumbers.LtIsTotal` | chaosd/chaos-core.c:45-49 | two numbers are ordered one way or the other exactly when they differ |
| `PacketNumbers.DiffIsExact` | chaosd/chaos-core.c:51-54 | the modular difference is the true distance below 2^16 |
| `PacketNumbers.LtUnwrap` | chaosd/chaos-core.c:46-49 | comparing a counter with a number from the wire decides which of the unbounded numbers is ahead |
| `Rings.WindowFitsRing` | chaosd/chaos-core.h:68-69 | two numbers of one window never share a slot if and only if the window is at most 64 |
| `Rings.SendSlotAt` | chaosd/chaos-core.c:368-382 | the slot of every unreceipted number holds that packet |
| `Rings.SendRingPush` | chaosd/chaos-core.c:351-366 | the slot of the next number is empty, so no unreceipted packet is overwritten |
| `Rings.RcvSlotAt` | chaosd/chaos-core.c:638-684 | a number in reach of the window has arrived exactly when its slot is full, and then it is that packet |
| `Rings.RcvRingPut` | chaosd/chaos-core.c:662-669 | a packet that is neither a duplicate nor over the window finds its slot empty |
| `Connection.InputOk` | chaosd/chaos-core.c:777-870 | any frame at all keeps the counters ordered, at most 50 unacknowledged, the received mark the longest run without a gap, and half a window advertised |
| `Connection.ConsumeOk` | chaosd/chaos-core.c:578-606 | a read of any size keeps the receiving half well formed |
| `Connection.SendOk` | chaosd/chaos-core.c:534-551 | a write of any size keeps the sending half within its window |
| `Connection.TickOk` | chaosd/chaos-core.c:896-947 | so does a tick at any time |
| `Connection.AdvanceRuns` | chaosd/chaos-core.c:671-681 | the in-order mark runs to the first gap, or stops at an EOF |
| `Answers.AckMoves` | chaosd/chaos-core.c:428-452 | a true acknowledgement moves the marks forward, closes the connection as finished if it covers the EOF, and else sends the EOF exactly if it is wanted and now has room |
| `Answers.AbsurdAckIsIgnored` | chaosd/chaos-core.c:433-434 | an acknowledgement or receipt of a number never sent changes nothing |
| `Answers.PacketIsTaken` | chaosd/chaos-core.c:638-684 | an awaited packet is put in its place, everything else is kept, the mark runs to the next gap or EOF, and a report goes out exactly if there is a gap before it or it was not awaited |
| `Answers.DataIsTaken` | chaosd/chaos-core.c:829-835 | data first acknowledges and is taken unless that closes the connection |
| `Answers.NextIsReadable` | chaosd/chaos-core.c:662-684 | the next packet's bytes are readable at once, behind those that were |
| `Answers.SenseIsAnswered` | chaosd/chaos-core.c:853-857 | a SNS is answered with a report |
| `Answers.ReportIsHeeded` | chaosd/chaos-core.c:839-852 | an STS sets the window, moves the marks and has repeated what they leave out |
| `Answers.OthersAreAnswered` | chaosd/chaos-core.c:858-869 | on an open connection an OPN is answered with a report, a CLS or LOS closes with its reason, and the rest is ignored |
| `Answers.ClosedAnswers` | chaosd/chaos-core.c:767-826 | a connection that is closed or not in use answers with an LOS what is not an answer itself |
| `Answers.RfcMayFail` | chaosd/chaos-core.c:798-818 | what may come instead of an OPN closes with its kind and reason |
| `Answers.WriteIsAccepted` | chaosd/chaos-core.c:523-541 | a write is accepted as far as the window has room for full packets |
| `Answers.WriteIsSent` | chaosd/chaos-core.c:542-550 | every packet a write numbers is sent at once, in order, and all but the last are full |
| `Answers.FinishSends` | chaosd/chaos-core.c:553-562 | finishing notes the wish and sends the EOF at once exactly if it has room |
| `Answers.EofIsReported` | chaosd/chaos-core.c:608-617 | a reader who reaches the EOF has the peer told at once |
| `Answers.ReleaseTells` | chaosd/chaos-core.c:621-632 | a release tells the peer of an open connection and nobody else |
| `Answers.TickGivesUp` | chaosd/chaos-core.c:905-930 | what each expired timer closes with, and says |
| `Answers.TickSays` | chaosd/chaos-core.c:932-947 | otherwise a tick says what is late, a report if one is due and not yet given, and a SNS if something is unacknowledged, the window is shut or the peer has long been silent |
| `ChaosConnection.ChaosConn.SendControlledPkt` | chaosd/chaos-core.c:351-366 | numbers and sends one packet as the simple form does, writing one slot only |
| `ChaosConnection.ChaosConn.Retransmit` | chaosd/chaos-core.c:368-382 | the modular loop ends after visiting exactly the unreceipted numbers, repeats exactly those sent long enough ago and notes the time of those and no others |
| `Repeats.RetransmitRepeats` | chaosd/chaos-core.c:368-382 | every unreceipted packet that has waited long enough is sent again with the acknowledgement of now, each once, in ascending order, and nothing else is |
| `Repeats.TickRepeats` | chaosd/chaos-core.c:905-932 | so does every tick of a waiting or open connection that does not give up, before it says anything else |
| `Repeats.StsRepeats` | chaosd/chaos-core.c:839-852 | and every STS that leaves the connection open, for what its marks leave unreceipted |
| `ChaosConnection.ChaosConn.SetClosed` | chaosd/chaos-core.c:384-400 | closing empties the send ring and keeps what was received |
| `ChaosConnection.ChaosConn.MaybeSendEof` | chaosd/chaos-core.c:416-426 | the EOF goes out once, when it is wanted and the window has room |
| `ChaosConnection.ChaosConn.MoveMarks` | chaosd/chaos-core.c:428-445 | an acknowledgement, even an absurd one, moves the marks only forward and empties exactly the slots receipted |
| `ChaosConnection.ChaosConn.ProcessAck` | chaosd/chaos-core.c:428-452 | is the simple form's step, closing when the EOF is acknowledged |
| `ChaosConnection.ChaosConn.Send` | chaosd/chaos-core.c:523-551 | accepts exactly the smaller of what is offered and what there is room for |
| `ChaosConnection.ChaosConn.Finish` | chaosd/chaos-core.c:553-562 | is the simple form's step, and starts the clock of the finish |
| `ChaosConnection.ChaosConn.Recv` | chaosd/chaos-core.c:578-619 | returns what the simple form's read returns, acknowledges when it does and otherwise sets the acknowledgement's time once |
| `ChaosConnection.ChaosConn.Wanted` | chaosd/chaos-core.c:644-661 | the three modular tests refuse exactly the duplicates and what is over the window |
| `ChaosConnection.ChaosConn.QueueInput` | chaosd/chaos-core.c:638-684 | queues a packet and advances the mark as the simple form does |
| `ChaosConnection.ChaosConn.Input` | chaosd/chaos-core.c:777-870 | every frame in every state is one step of the simple form, with its replies, and counts as having heard the peer |
| `ChaosConnection.ChaosConn.Tick` | chaosd/chaos-core.c:896-947 | timeouts, retransmission, due acknowledgements and probes, as the simple form |
| `ChaosConnection.ChaosConn.ClockReads` | chaosd/chaos-core.c:896-945 | the limits of the timers, and which packets are late |
| `ChaosConnection.ChaosConn.Release` | chaosd/chaos-core.c:621-632 | tells the peer if the connection is open, and marks the record free |
| `ChaosConnection.ChaosConn.PeerLearned` | chaosd/chaos-core.c:212-219 | every unreceipted packet goes out again when the peer's MAC becomes known, each once and in order |
| `Streams.SegmentsCarryAll` | chaosd/chaos-core.c:542-549 | the packets cut from a byte string carry exactly that string |
| `Streams.SendAppends` | chaosd/chaos-core.c:523-551 | a write appends to the stream the bytes it accepted and no others |
| `Streams.ConsumeTakesPrefix` | chaosd/chaos-core.c:586-606 | a read returns the first bytes of the stream, as many as asked for or all there are, and leaves the rest |
| `Streams.ReadSizesDoNotMatter` | chaosd/chaos-core.c:578-606 | any series of reads returns the same bytes as one read of the total |
| `Network.DoKeepsSide` | chaosd/chaos-core.c:320-382 | whatever a side does, everything it has said stays true of it |
| `Network.WroteStays` | chaosd/chaos-core.c:534-551 | the numbered DATs always carry exactly the bytes accepted from the writer |
| `Lasting.StepsKeepTheStream` | chaosd/chaos-core.c:384-400 | no step but a read, closings of every kind included, takes back a byte that was in order; what arrives is added behind |
| `Lasting.EofIsFinal` | chaosd/chaos-core.c:586-590 | over every run, once a reader has had the peer's EOF the EOF stays and nothing more is ever returned, whatever is still delivered or asked for |
| `Integrity.HandshakeMatches` | chaosd/chaos-core.c:779-797 | however long the client has waited and repeated its RFC, an OPN that acknowledges it leaves both ends matched, which is where runs start |
| `Integrity.WaitingIsIdle` | chaosd/chaos-core.c:896-912 | until it is answered or gives up, a client that has sent its RFC changes nothing and says nothing but that RFC |
| `Integrity.RunKeepsInv` | chaosd/chaos-core.c:534-870 | the two-ended invariant holds in every state of every run over a lossy, duplicating, reordering network |
| `Integrity.StreamIntegrity` | chaosd/chaos-core.c:534-684 | at each end the bytes returned to the reader are a prefix of the bytes accepted from the other end's writer, across any number of wraps |
| `Integrity.WindowSafety` | chaosd/chaos-core.c:410-445 | acknowledged, receipted, read, received and sent are in order across the two ends, and nothing in flight is beyond the window |
| `Integrity.OverWindowIsStale` | chaosd/chaos-core.c:650-655 | at both ends the over-window branch is taken for exactly the packets 2^15 or more numbers behind |
| `Integrity.AcknowledgedIsConsumed` | chaosd/chaos-core.c:428-444 | what is acknowledged has been consumed by the other user, byte for byte |
| `Integrity.GracefulClose` | chaosd/chaos-core.c:416-449 | one EOF, nothing numbered after it, and a connection that closed as finished has delivered every byte and the EOF |
| `Recovery.LossIsRecovered` | chaosd/chaos-core.c:368-452 | from every state of every run with both ends open, and even if all that is in flight is lost, there is a way on that brings the reader all that was written so far, if and only if the writer's own user has not read the peer's EOF or nothing is missing; in both directions |
| `Recovery.FinishIsReached` | chaosd/chaos-core.c:416-452 | and if the writer has finished there is a way on that closes it as finished with everything read and the EOF reached |
| `Integrity.StalePacketIsMistaken` | chaosd/chaos-core.c:644-669 | a packet 2^16 behind a number in the window is taken for it, so the freshness assumption is sharp |
| `Integrity.StaleAckIsMistaken` | chaosd/chaos-core.c:431-444 | and an acknowledgement 2^16 old acknowledges everything |
| `Integrity.ConsumptionIsAdvertised` | chaosd/chaos-core.c:608-617 | every open state of every run keeps less than half a window unadvertised, and an STS due if anything is |
| `Integrity.HalfWindowTellsAtOnce` | chaosd/chaos-core.c:608-617 | a read that reaches half a window tells the peer itself |
| `Integrity.DueTickTells` | chaosd/chaos-core.c:932-935 | the first tick at which the STS is due tells the rest |
| `Endpoints.Endpoint.Send` | chaosd/chaos-core.c:534-551 | is the network's write, and the stream grows by the bytes accepted |
| `Endpoints.Endpoint.Recv` | chaosd/chaos-core.c:578-619 | is the network's read |
| `Endpoints.Endpoint.Input` | chaosd/chaos-core.c:730-870 | is the delivery of one message of the network |
| `Endpoints.Endpoint.Tick` | chaosd/chaos-core.c:896-947 | is the network's timer action |
| `Endpoints.Endpoint.RecvReady` | chaosd/chaos-core.c:564-569 | comparing the wrapped marks decides whether anything is left to read |
| `Pairs.Pair.StreamsAreWhole` | chaosd/chaos-core.c:523-947 | two records whose methods are called in any order, with any frame of either carried over any number of times, always satisfy stream integrity and graceful close |
| `Pairs.Pair.Carry` | chaosd/chaos-core.c:730-870 | handing one record a frame the other has sent is one more step of the run |
| `ArpCaches.ArpCache.Find` | chaosd/chaos-core.c:139-165 | the address's own entry, or a free one, or the one learned longest ago |
| `ArpCaches.ArpCache.Learn` | chaosd/chaos-core.c:192-220 | the new MAC replaces the old and is dated now, at most one other address is forgotten and none while there is room, and the result says whether it was news |
| `ArpCaches.ArpCache.Lookup` | chaosd/chaos-core.c:222-230 | a hit is the MAC most recently learned; 0 and our own address are never known |
| `ArpCaches.ArpCache.Resolve` | chaosd/chaos-core.c:232-251 | answers exactly what is known, and asks exactly when a request is due |
| `ArpCaches.ArpCache.Input` | chaosd/chaos-core.c:872-891 | ARP frames of others teach, requests for us are answered, our own echoes are ignored |
| `ArpCaches.GivenForgets` | chaosd/chaos-core.c:139-165 | giving a slot away teaches nothing about other addresses and forgets at most its old one |
| `ArpCaches.EncodeDecode` | chaosd/chaos-core.c:253-284 | the 38 bytes of a request or reply read back as the fields written |
| `ArpCaches.FrameLayout` | chaosd/chaos-core.c:167-190 | where each field stands and in which byte order |
| `ArpCaches.RequestAndReply` | chaosd/chaos-core.c:167-284 | a request goes to everybody and a reply to the asker alone, with the addresses of each |
| `ArpCaches.AskedWhenDue` | chaosd/chaos-core.c:239-249 | how often an unknown address and how late a known one is asked for |
| `ArpCaches.Acquaint` | chaosd/chaos-core.c:235-284 | a transmission that asks for the address, as it does whenever no live entry answers it, teaches both hosts each other's MAC by one request and its reply |
| `ConnTables.LifeGoesOnward` | chaosd/chaos-core.c:777-947 | until released a connection goes only from RFC sent to open to closed, and opens only on an OPN |
| `ConnTables.IndexRecurs` | chaosd/chaos-core.c:504-508 | an index is given again only after a multiple of 2047 opens |
| `ConnTables.ConnTable.IndicesAreDistinct` | chaosd/chaos-core.c:496-508 | live indices differ, are not 0 and name their slot; a slot's earlier index is the present one only 2047 opens apart |
| `ConnTables.ConnTable.OpenConn` | chaosd/chaos-core.c:488-521 | takes the first free slot and touches no other, sends the RFC to index 0 of the host, or fails exactly when there is no slot or the contact does not fit |
| `ConnTables.ConnTable.HandleChaos` | chaosd/chaos-core.c:757-789 | a frame changes the one connection whose index and peer it names and no other; an OPN has the peer's index noted, to which the report then goes and from which later frames are this connection's; an RFC is answered; anything else is answered with an LOS unless it is a reply itself |
| `ConnTables.ConnTable.HandleRfc` | chaosd/chaos-core.c:686-719 | the contact is what stands before a space or a NUL; STATUS, in any case, is answered with the host's name in 32 bytes and all else is refused by name, and no connection changes |
| `ConnTables.RequestIsAnswered` | chaosd/chaos-core.c:686-719 | to the byte: who gets the answer, which contacts are STATUS, and what each is told |
| `ConnTables.ConnTable.ReleaseConn` | chaosd/chaos-core.c:621-632 | frees the slot, and sends the peer of an open connection a CLS |
| `RequestLines.FeedAppend` | chaosd/chaos-stream.c:289-374 | two reads do what one read of the same bytes does, even when cut between CR and LF |
| `RequestLines.ChunksDoNotMatter` | chaosd/chaos-stream.c:289-374 | however the client's bytes are split into reads, the same request line and the same stream result |
| `RequestLines.FeedMeans` | chaosd/chaos-stream.c:289-327 | the line is what stands before the first CR, LF or CRLF within 600 bytes, and the stream is all behind it |
| `RequestLines.ParseIsExact` | chaosd/chaos-stream.c:234-263 | a line is accepted with a host and a contact if and only if it has the form of a request with them |
| `RequestLines.ReadRequest` | chaosd/chaos-stream.c:234-263 | the walk over the line computes that parse |
| `RequestLines.ShownAddressResolves` | chaosd/chaos-stream.c:209-231 | the octal address of an OPN line, given as a host, is that address |
| `RequestLines.ResolveFinds` | chaosd/chaos-stream.c:224-231 | a name is that of the first host so called, wherever it stands, in any case, or of none |
| `RequestLines.StatusIsOneLine` | chaosd/chaos-stream.c:183-201 | whatever bytes a reason holds, the status is one printable line with CRLF at its end |
| `RequestLines.StatusShowsText` | chaosd/chaos-stream.c:183-201 | the verb and as much of the text as fits are on it, each byte in its place |
| `StreamClients.StreamClient.LineInput` | chaosd/chaos-stream.c:289-327 | takes a chunk as the framing says, and refuses or opens as the request deserves |
| `StreamClients.StreamClient.ClientRead` | chaosd/chaos-stream.c:329-374 | every byte read is in the line, the connection's stream or the input buffer |
| `StreamClients.StreamClient.Say` | chaosd/chaos-stream.c:174-181 | what is appended to the output buffer is never cut short |
| `StreamClients.StreamClient.Flush` | chaosd/chaos-stream.c:376-393 | the socket is given the first of what is pending, as much as it takes or all; written and pending bytes together stay what is due |
| `StreamClients.StreamClient.PassIn` | chaosd/chaos-stream.c:459-473 | the connection accepts what it has room for of the bytes held; accepted and held bytes together stay the client's stream, and the finish is issued exactly when the client has shut and nothing is held |
| `StreamClients.StreamClient.PassOut` | chaosd/chaos-stream.c:474-478 | the bytes in order, as many as the output buffer has room for, are read and put behind what is pending |
| `StreamClients.StreamClient.EndIfDone` | chaosd/chaos-stream.c:481-496 | the socket is shut exactly when the peer's EOF is reached and all is written, the client closed exactly when the connection is closed, nothing is left to read and all is written |
| `StreamClients.StreamClient.ClientService` | chaosd/chaos-stream.c:395-508 | one turn moves the bytes in both directions as far as window, buffer and socket allow; barring socket errors a stream client ends exactly when its connection is closed, everything in order is read and all due is written; failures are reported in full and drained |
| `StreamClients.WillingSocketIsTold` | chaosd/chaos-stream.c:474-480 | a client whose socket takes everything has, after one turn, all that was pending and all that was in order and fits |
| `StreamClients.ConnectsWhenItCan` | chaosd/chaos-stream.c:234-287 | a request opens a connection exactly when host and contact are good and there is room |
| `StreamClients.ReportSays` | chaosd/chaos-stream.c:416-441 | by which kind of packet a request failed and with what reason |
| `StreamClients.SocketToSocket` | chaosd/chaos-stream.c:445-495 | in every run that ends in the client's connection, the peer reads a prefix of what the client wrote behind its request, and the client is told a prefix of what the peer wrote |
| `Ivory.PackUnpack` | c-emulator/ivory.h:391-430 | the control word is exactly its fields |
| `Ivory.UnpackPack` | c-emulator/ivory.h:391-430 | and the fields are exactly the word's |
| `Ivory.ClearCleanupBits` | c-emulator/ivory.h:396-424 | the three cleanup bits are read and cleared together without touching the rest |
| `IvoryProcessor.Processor.StartCall` | c-emulator/emulator.c:2831-2900 | starts a frame for compiled code, a closure or the interpreter, as the instruction on values |
| `IvoryProcessor.Processor.FinishCall` | c-emulator/emulator.c:2909-3008 | packs the sizes into the control word and enters the frame, for frames of less than 256 words |
| `Frames.CallStarts` | c-emulator/emulator.c:2831-2900 | which objects can be called, where each call goes and what is pushed: the caller's two words and a closure's environment or the object itself |
| `Frames.CalleeIsEntered` | c-emulator/emulator.c:2831-3008 | a callee finds its caller's two words, its extra argument and its arguments, runs at the code called and will return behind the call |
| `IvoryProcessor.Processor.BindToValue` | c-emulator/emulator.c:3406-3431 | saves the cell with the old cleanup bit set in whatever tag the locative has, and stores the value |
| `IvoryProcessor.Processor.UnbindAll` | c-emulator/emulator.c:3183-3189 | the loop over the cleanup bit undoes what the instruction on values does |
| `IvoryProcessor.Processor.ReturnSingle` | c-emulator/emulator.c:3156-3233 | pops frames without catch blocks until one was not called for RETURN, and delivers the value there as its disposition says |
| `IvoryProcessor.Processor.TakePreTrap` | c-emulator/traps.c:274-361 | drops the instruction's pushes, saves its frame of less than 256 words and enters the handler, or declines exactly when no vector holds a PC |
| `Frames.HandlerIsEntered` | c-emulator/traps.c:274-361 | a handler finds the interrupted frame's words, the trap's number, the PC and the arguments, at the PC its vector holds and the higher trap mode |
| `IvoryProcessor.Processor.PushOneFakeFrame` | c-emulator/initialization.c:70-84 | pushes a frame that saves the whole state |
| `Bracketing.UnbindAllUndoes` | c-emulator/emulator.c:645-663 | the chain of cleanup bits stops at the frame's first binding and undoes exactly the frame's own |
| `Bracketing.ChainEndsIff` | c-emulator/emulator.c:645-663 | unbinding a chain ends at its first binding if and only if that one's saved bit is clear |
| `Bracketing.FirstLocativeDecides` | c-emulator/emulator.c:3406-3454 | a frame that binds gets its binding stack pointer back, however many bindings it makes, if and only if bit 6 of the first locative's tag was clear |
| `Bracketing.MarkedLocativeOverruns` | c-emulator/emulator.c:3413-3429 | a frame that binds through a locative with cdr code 1 undoes its caller's binding as well |
| `Bracketing.UndoGivesBackTheFirst` | c-emulator/emulator.c:645-663 | every bound cell, however often rebound, gets back its first type and data and keeps its cdr code |
| `Bracketing.UndoTouchesBoundOnly` | c-emulator/emulator.c:645-663 | undoing touches no cell that was not bound, and no cell's cdr code |
| `Bracketing.StoreIsExact` | c-emulator/emulator.c:3406-3431 | a store gives a cell the object's type and data, leaves the cell its cdr code and touches no other cell |
| `Bracketing.CallsAreBracketed` | c-emulator/emulator.c:2831-3233 | whatever is nested in a call, the caller gets back frame, control word, continuation, bindings and cells, with the value that the body left, or that the call which ended it returned, on its stack |
| `Bracketing.TailCallReturnsForIt` | c-emulator/emulator.c:3156-3233 | a call for RETURN returns the value of its own body as the outer frame's own |
| `Bracketing.TrapsResume` | c-emulator/traps.c:289-361 | a pre-trap whose handler returns resumes at the trapped instruction with the stack that it started from |
| `Bracketing.FakeFramesAreBracketed` | c-emulator/initialization.c:70-96 | a fake frame is popped without a trace, except that the local pointer is computed afresh |
| `Bracketing.TwoFakeFramesAreBracketed` | c-emulator/initialization.c:150-151 | so are the two that start the machine, the second pushed with the first one's local pointer |
| `InstructionCache.FillKeepsSound` | c-emulator/dispatch.c:2191-2304 | filling a line keeps every legal entry linked to its successor or to a lookup |
| `InstructionCache.LinkIsLookup` | c-emulator/emulator.c:966-970 | following a link arrives where looking the next address up would |
| `InstructionCache.HitIsRight` | c-emulator/emulator.c:1004-1011 | an address hit is the right decoded instruction although the parity is not compared |
| `InstructionCache.FirstLinkIsGuarded` | c-emulator/dispatch.c:2287-2290 | the test for a link before the line works for every block but the lowest |
| `InstructionCache.Cache.FillWord` | c-emulator/dispatch.c:2212-2284 | both halves of a word get the instruction memory holds, its successor and a counted link |
| `InstructionCache.Cache.Miss` | c-emulator/dispatch.c:2191-2304 | fills the one line of the block and leaves the others |
| `InstructionCache.Cache.Run` | c-emulator/emulator.c:966-1012 | any run along the links, with any jumps, executes what fetching every instruction from memory would |
| `InstructionOrder.PackedRunIsInOrder` | c-emulator/dispatch.c:2221-2227 | a straight run over packed words executes both halves of each word, the even one first |
| `InstructionOrder.CodeZeroRunsOn` | c-emulator/dispatch.c:2221-2227 | words of cdr code 0 are executed half by half, upwards |
| `InstructionOrder.CodeTwoRunsBack` | c-emulator/dispatch.c:2239-2246 | words of cdr code 2 are executed half by half, downwards |
| `InstructionOrder.CodeThreeTakesEvens` | c-emulator/dispatch.c:2230-2237 | of words of cdr code 3 the even halves are executed, and from an odd half the next word is skipped |
| `InstructionOrder.HalvesAreTheWord` | c-emulator/dispatch.c:2269-2284 | the two instructions of a packed word are its lower 36 bits |
| `InstructionOrder.FullWordIsOne` | c-emulator/dispatch.c:2248-2267 | any other word is one instruction, decoded by its type, or none |
| `ApplyArguments.PullApplyArgsQuickly` | c-emulator/emulator.c:571-641 | pushed arguments and remaining tail are the list; the argument size grows by what is pushed; the apply bit goes exactly when the list is used up |
| `ApplyArguments.ListStays` | c-emulator/emulator.c:571-641 | a list below the stack top is not disturbed by what is pushed |
| `ApplyArguments.RowIsList` | c-emulator/emulator.c:571-641 | words in a row are the list of those words, ending as the last one's cdr code says |
| `ApplyArguments.RowGoesOn` | c-emulator/emulator.c:571-641 | or going on where the pointer behind them points |
| `BitFields.LdbOfDpb` | c-emulator/emulator.h:20-21 | a deposited field reads back modulo its size |
| `BitFields.LdbElsewhere` | c-emulator/emulator.h:20-21 | a deposit changes no field that does not overlap |
| `Arrays.PackedRefinesPlain` | c-emulator/emulator.c:410-496 | for every packing, offset and base address, wrapping at the end of the address space, a stored element reads back reduced to its size and every other element is what it was |
| `ArrayLayout.ElementIsAt` | c-emulator/ivory.h:132-135 | in which word and at which bit an element stands |
| `ArrayLayout.ElementsMakeTheWord` | c-emulator/ivory.h:132-135 | the elements of a word, from its low end up, make up the word |
| `ArrayLayout.ElementIsRead` | c-emulator/emulator.c:410-451 | an element is read from there, counted from the array's offset |
| `ArrayLayout.StoreTouchesOneWord` | c-emulator/emulator.c:453-496 | a store changes one word and not its tag |
| `ArrayLayout.StoreDeclines` | c-emulator/emulator.c:453-496 | a store is declined exactly when word, type or size is wrong |
| `Arrays.ArefInPlace` | c-emulator/emulator.c:410-451 | reads the element as the array on values |
| `Arrays.AsetInPlace` | c-emulator/emulator.c:453-496 | stores one element and no other, or declines and changes nothing |

## Left out

- Everything that needs a socket, a descriptor or vmnet: listening, polling, adopting, frames on a real network. One read or write of a socket is a parameter that says what it came to.
- `ConnTables.ConnTable` holds the simple form of each connection, not the record; that the record follows the simple form is proved in `ChaosConn`. The loop of the tick over the table is not modelled.
- `Connection` and `ChaosConn` take a frame's loss for want of a MAC as a loss by the network; `ArpCache` is proved by itself, and what it resolves is not tied to each frame.
- `ChaosConnection.ChaosConn.Release`: the record is only marked free, where the source clears all of it; nothing reads a free record before it is opened again.
- `ArpCaches.ArpCache.Learn`: says whether the address was news and leaves the resending to every connection of that address to the caller; what one connection then resends is `ChaosConnection.ChaosConn.PeerLearned`.
- `StreamClients.SocketToSocket`: takes the run as given; that the methods of two records make one is `Pairs.Pair.StreamsAreWhole`, and no pair is built around a client's record.
- The Ethernet and Chaos headers around a frame are taken apart before `Frame`; only the fields a connection looks at appear.
- `InstructionCache` takes the two dispatch tables and the operand decoders as parameters. A return instruction whose decoder stores no operand keeps whatever operand the entry had, and the model says so.
- `Programs.Exec` stops with no result where the processor would: illegal operands, open catch blocks and unwind-protect, a trap on exit, deep binding, sizes of 256 words or more. A call for RETURN may only end a body.
- `Bracketing` has the binding stack end below the top of the address space, so that its addresses do not wrap, and takes the PC behind a call as part of the call.
- `IvoryProcessor.Processor.FinishCall`: frames of 256 words or more are left out; the source ORs the size into the control word unmasked, which spoils the fields beside it.
- `IvoryProcessor.Processor.TakePreTrap`: leaves out the same frames, for the same reason.
- `IvoryProcessor.Processor.ReturnSingle`: a frame with open catch blocks or a trap on exit is left out, as catch blocks are everywhere.
- `IvoryProcessor` never scrolls the stack cache, meters nothing and reads no forwarded cell; a preempt request noted by an unbind is not kept.
- `ApplyArguments.PullApplyArgsQuickly`: the list lies in the stack cache below its pointer, as the arguments of an apply do, and is well formed; a bad cdr code is not followed. Counts that reach the end of the cache or make a frame of 256 words are left out.
- `Arrays`: in an unpacked character array the source shifts by the width of a word, which C leaves undefined; the model takes the whole word.
- `StreamClients.StreamClient`: a client whose connection record is gone is handled as the source does, but nothing in the model takes it away.
- Post-traps, value returns of several values, message dispatch, floats, logic variables, the coprocessor and internal registers.
- Liveness: that a lossy network does deliver in the end. `Recovery` proves that it always can, which needs no fairness; bounds in real time are those of one tick.
