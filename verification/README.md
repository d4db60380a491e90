# Screen-streaming protocol: model and proofs

This project models the part of the repository that moves a screen from a host to a client, and the
small server protocol that brings the two together, and proves properties of every run of it.

## What is modelled

**Cutting frames into packets** (`Words`, `Arithmetic`, `Packets`, `Sequencing`). The host cuts each
encoded frame into stream packets of at most `chunkSize` bytes and numbers the packets of the whole
stream consecutively. Every cast to WORD, DWORD, SIZE_T and int is written out: a value wraps around until
it is in range (`Words.WrapIsRemainder`: this is the remainder), and products and
quotients of two variables are computed by repeated addition and subtraction so that the proofs stay
linear (`Arithmetic.TimesIsProduct`, `Arithmetic.QuotientIsDivision`). The proofs hold for any
header size up to 127 and any chunk size up to 65535 that exceeds it; the programs are built with 36
and 4096. A `Session` is the list of frames the host will encode, with the limits under which the
numbering cannot wrap: fewer than 2^32 packets, and frames that the WORD count of packets and the int
offset can express. What happens to a frame beyond the count is stated exactly
(`Packets.SplitIsLosslessIff`).

**The host** (`HostPacketManager`, `Transport`, `HostProgress`). `PacketManager` is a class with the source's fields and
loops. `Transport` takes the same functions as steps of three threads: the sender sends a packet and
saves it in a later step, the receiver drops what is acknowledged, the acker resends what is saved and
clears the map when it holds more than 200 packets. The network is a bag in each direction with
explicit steps that lose and duplicate a datagram; it delivers in any order and never alters one.

**The client** (`Reassembly`, `FrameTable`, `SemaphoreQueue`, `ThreadSafeQueues`, `VideoClient`, `Screen`,
`Display`). `FrameTable` has the buffers of `activeFrames` as heap objects updated in place, `Reassembly`
says what any history of deliveries makes of a buffer. The queues are modelled in their two halves (the
queue under its critical section, the semaphore outside it), once for any number of threads and `Clear`
calls (`EmptyQueue` says exactly when a `Pop` can throw), and once inside the client, where `dataMutex` is explicit and receiver, consumer, decoder, window
and timer interleave step by step.

**The whole system** (`ExactlyOnce`, `Streaming`, `SystemRuns`, `Continuations`, `Progress`, `Redelivery`,
`Copies`). Host, network and client run
together and share only the client's read of a datagram. The main theorems quantify over every sequence of
steps from the initial state, and speak of one frame at a time, whatever happens to the others. `SystemRuns`
and `Continuations` put particular runs together; `Progress` shows that the whole stream can get through to
the window, `Redelivery` uses them for the harm that resending can do,
and `Copies` says exactly what host and network must do so that it does none.

**Meeting** (`Handshake`, `Rooms`, `RoomEnding`). The fixed-width record of the first exchange, byte by
byte; the server's map of rooms, where a lookup inserts a null room; and the messages that end a room,
composed with the loops in which the peers read them.

The central question is what the client's cheap completion test, `totalSize == expectedSize`, is worth.
The answer, for every history of deliveries: when it succeeds, every chunk has arrived and the byte total
has not wrapped if and only if no chunk was delivered twice (`Reassembly.CompletionIsExact`). From there
the proofs go to whole runs: what is decoded is the host's frame exactly if the frame is zero where nothing
arrived (`Streaming.DecodedFramesAreTheHosts`), and the frames decoded by a client that has worked off its
queues are exactly those of which some first part of the deliveries passes the test
(`Streaming.QuiescentClientHasDecodedExactly`), both without any hypothesis on the run. If no packet of a
frame is delivered twice, it is decoded and painted once at most, as the host's frame, and it has been decoded
exactly if it was delivered in full (`Streaming.ExactlyOnceDelivery`,
`Streaming.QuiescentClientHasDecodedAll`). A packet can come to be delivered twice exactly when the network
duplicates it or a pass of the acker meets it saved while it is in flight or already received
(`Copies.RedeliveryIff`).

### Where the code falls short of its intention

- The completion test does not filter repetitions, so a frame can be declared complete with a chunk missing
  (`Reassembly.RepetitionHidesALoss`), or never although every chunk has come
  (`Reassembly.RepetitionHidesAFrame`). The network need not be at fault: the acker resends what is not yet
  acknowledged, and runs without any loss or duplication decode a wrong picture
  (`Redelivery.ResendSpoilsAFrame`) or lose a frame delivered in full (`Redelivery.ResendLosesAFrame`).
- The DWORD byte total can wrap and complete a buffer again (`Reassembly.WrapCompletesAgain`); a run over a
  faultless network queues a frame number twice that way (`Redelivery.WrapQueuesAFrameTwice`). A frame stays
  pending once at most exactly as long as no buffer of it completes twice (`Streaming.PendingOnceIff`).
- A frame of more than 65535 packets is sent truncated (`Packets.SplitIsLosslessIff`).
- The library consumer in `RDIBY/client.cpp` places chunks at a stride of the packet size, not the payload
  size: of a frame of several packets the last copy runs past the end of the buffer
  (`Strides.LibraryStaysInsideIff`).
- The prompts ask for names of at most 15 letters, the code accepts 16; a 16-letter name survives
  only if the byte after its field is zero (`Handshake.HandshakeSurvivesIff`, `Handshake.LongRoomNameRunsOn`).
- `createNewRoom` reports success when a null room left by an earlier lookup makes it do nothing
  (`Rooms.CreationAfterProbeIsLost`).
- `Clear` leaves the semaphore alone, so a later `Pop` can pass its wait and find the queue empty: exactly
  when items were cleared whose units are neither spent nor lost (`EmptyQueue.ReachedStateCanThrowIff`).

## Model

| member | source | states |
|---|---|---|
| Streaming.DecodedFramesAreTheHosts | VideoClient/main.cpp:226-285 | In every run of host, network and client: a buffer handed to decodeImage into which anything was delivered is the host's frame iff the frame is zero wherever nothing arrived; and at any delivery at which the completion test succeeded, none had come twice iff all chunks had arrived and the total had not wrapped; once all have arrived the decoded bytes are the host's frame |
| Streaming.DecodedFramesHadCompleted | VideoClient/main.cpp:263-278 | In every run in which no buffer of its frame completes twice, a decoded buffer had passed the completion test at some delivery |
| Streaming.QuiescentClientHasDecodedExactly | VideoClient/main.cpp:226-285 | In every run, with any repetitions and wraps: a client that has worked off its queues has decoded frame n iff some first part of the packets of n delivered to it passes the completion test |
| Progress.StreamCanBeShown | VideoHost/host.h:47-91 | Every session has a run without any fault in which every nonempty frame is sent, delivered, decoded and painted as the host's frame, and nothing is left under way or waiting |
| Progress.DecodesAreTheSteps | VideoClient/main.cpp:273-283 | In every run: the decodes are what the run's decode steps found in the buffers, in order, each with the outcome of decodeImage; the pictures queued so far, then the one in hand, are those of the steps at which decodeImage returned a bitmap, in order |
| Progress.CanShowAll | VideoClient/main.cpp:522-548 | From every state, ticks and paints alone empty the picture queue, and paint every picture in it once for each time it waits |
| Progress.LiftHostRuns | VideoHost/main.cpp:46-84 | Whatever host and network can do on their own they can do in every state of the client |
| Streaming.PartsMoveFreely | VideoHost/main.cpp:46-84 | Host, network and client restrict each other in nothing: a delivery needs a datagram in flight and a client that listens, every other step only its own part |
| Copies.RedeliveryIff | VideoHost/host.cpp:78-97 | For any run careful of frame n so far with at most MAXINT packets and frame numbers ever under way in the client, and any step of host or network: with no further copy made, some continuation delivers a packet of n twice iff the step duplicates one or is a pass that meets one in flight or already received |
| Copies.CarefulRunsDeliverOnce | VideoHost/host.cpp:78-97 | A run without such steps for frame n, with any losses, order and interleaving, delivers no packet of n twice |
| Copies.CarefulRunsAreExact | VideoClient/main.cpp:226-285 | So in such a run, whatever happens to other frames: every decode of n is of the host's frame, n is decoded and painted once at most, and a client that has worked everything off has decoded n iff it was delivered in full |
| Redelivery.ResendSpoilsAFrame | VideoHost/host.cpp:88-92 | The counterexample over a faultless network, for every session whose first frame is two full chunks with a nonzero byte in the second: the acker resends the first chunk, and the frame decoded is not the host's |
| Redelivery.ResendLosesAFrame | VideoHost/host.cpp:88-92 | The counterexample over a faultless network, for every session whose first frame is a full chunk and a part of one: all its packets are delivered, the first one twice, and the client at rest has not decoded it |
| Redelivery.WrapQueuesAFrameTwice | VideoClient/main.cpp:254-265 | A run over a faultless network in which 2^30 resends of a four-byte frame wrap the total and its number is pending twice |
| Streaming.PendingOnceIff | VideoClient/main.cpp:263-282 | Over any run, a frame stays pending once at most iff no buffer of it passes the completion test twice before its erase |
| Streaming.DecodedBytesAreWhatArrived | VideoClient/main.cpp:246-278 | In every run, even with wraps: what is decoded is empty if nothing was delivered into the buffer, and otherwise has the size of the host's frame, with the frame's byte where its chunk arrived and zero elsewhere |
| Streaming.ExactlyOnceDelivery | VideoClient/main.cpp:226-285 | If no packet of frame n is delivered twice, whatever happens to other frames: every decode of n is of the host's frame, n is decoded once at most, every picture painted under n shows the host's frame |
| Streaming.QuiescentClientHasDecodedAll | VideoClient/main.cpp:226-285 | If no packet of frame n is delivered twice, a client that has worked off its queues has decoded n iff n was delivered in full |
| Streaming.AllFramesExactlyOnce | VideoClient/main.cpp:226-285 | If that holds of every frame: all decodes are right, no frame is decoded or painted twice, and a client at rest has decoded exactly the frames delivered in full |
| Streaming.DistinctDeliveries | VideoClient/main.cpp:202-222 | It does hold of every frame in a run that delivers no datagram twice |
| Streaming.BoundedDeliveriesCompleteOnce | VideoClient/main.cpp:254-265 | A frame of which fewer than 2^32 / payload packets are delivered, repeated or not, or none twice, never completes twice, at any point of the run, across erased and re-created buffers |
| Streaming.ClientStopsIff | VideoClient/main.cpp:192-285 | In every reachable state: no client thread can step iff each side is idle or waits for a unit that is not there; the consumer waiting with dataMutex held finds a unit iff fewer releases failed than packets are queued |
| Streaming.NoDeadlock | VideoClient/main.cpp:218-221 | In every run with never more than MAXINT packets and frame numbers under way in the client: the consumer waiting for a packet with dataMutex held finds a unit, and some client thread can step iff anything is under way |
| Streaming.FewDeliveriesStayWithin | VideoClient/datastructures.h:14-17 | Never more than MAXINT packets and frame numbers are under way in a run that delivers at most MAXINT datagrams |
| Streaming.EveryRunCanFinish | VideoClient/main.cpp:192-285 | Every run with never more than MAXINT packets and frame numbers under way in the client can be continued by client thread steps alone, at most as many as the work measure says, until nothing is under way; exactly the frames of which some first part of the deliveries passes the test have then been decoded |
| Streaming.PendingFramesAreSafe | VideoClient/main.cpp:263-282 | While no buffer of frame n has completed twice, n is pending once at most between the completion test and the erase, and then has its buffer, which has completed and whose total has reached its size unless it wrapped |
| Streaming.PaintedFramesInOrder | VideoClient/main.cpp:522-548 | In every run, wraps included, a frame painted after one with a larger number was queued only after that one was painted; what is painted was decoded under that number |
| Streaming.PicturesAreConserved | VideoClient/main.cpp:277-282 | In every run, with no hypothesis on duplicates or wrapping: the bitmaps decoded are, with multiplicity, the one in the decoder's hand, those waiting and those painted; failed decodes appear nowhere |
| Streaming.NoFrameIsPaintedTwice | VideoClient/main.cpp:526-539 | A frame none of whose packets is delivered twice is painted once at most |
| Streaming.SentPacketsAreAccountedFor | VideoHost/host.cpp:39-60 | In every run, each packet whose sendPacket returned was read by the client exactly as sent, or is saved exactly as sent, or was discarded by an overflow clear |
| Reassembly.CompletionIsExact | VideoClient/main.cpp:246-265 | For every history of deliveries into one buffer, at a moment the completion test succeeds: no chunk came twice iff every chunk has arrived and the byte total stayed below 2^32 |
| Reassembly.CompleteMeansAllArrivedIff | VideoClient/main.cpp:254-265 | Below 2^32 bytes the test means the bytes delivered are the frame's size, and all chunks arrived iff none came twice |
| Reassembly.RepetitionHidesALoss | VideoClient/main.cpp:254-265 | For every frame of at least two full chunks there is a history that passes the test, without a wrap, in which chunk 1 never came; it is the frame iff that chunk is zero |
| Reassembly.RepetitionHidesAFrame | VideoClient/main.cpp:254-265 | For every frame of two chunks or more whose last is not full there is a history that brings every chunk and passes the test at none of its deliveries |
| Reassembly.WrapCompletesAgain | VideoClient/main.cpp:255-263 | For a four-byte frame the history of 2^30 + 1 deliveries passes the test at its first and at its last delivery |
| Reassembly.ReplayContent | VideoClient/main.cpp:246-260 | After any deliveries, in any order and with repetitions, a byte of the buffer is the frame's if its chunk was delivered and zero otherwise |
| Reassembly.ReplayTotals | VideoClient/main.cpp:254-255 | The two counters are the number of deliveries and the bytes delivered with repetition, each modulo 2^32 |
| Reassembly.RedeliveryIsIdempotent | VideoClient/main.cpp:257-260 | A chunk delivered again changes no byte of the buffer |
| Reassembly.BufferIsFrameIff | VideoClient/main.cpp:246-260 | The buffer is the host's frame iff the frame is zero in every chunk that never came |
| Reassembly.AllArrivedIsFrame | VideoClient/main.cpp:246-260 | Once all chunks have come, however often and in whatever order, the buffer is the frame |
| Reassembly.BytesConserved | VideoClient/main.cpp:254-255 | Bytes delivered are the bytes of the distinct chunks held plus the bytes of the repetitions |
| Reassembly.HeldAll | VideoClient/main.cpp:263 | The chunks held amount to the frame's size iff none is missing, and never to more |
| Reassembly.AnyOrderCompletesAtTheLast | VideoClient/main.cpp:246-265 | For every order of the chunks, each delivered once: the test succeeds at the last delivery and at none before, and the buffer is then the frame |
| Reassembly.BufferIgnoresOrder | VideoClient/main.cpp:246-260 | Two histories that are permutations of each other leave equal buffers, counters included |
| Reassembly.BytesGrow | VideoClient/main.cpp:255 | Every further delivery strictly increases the bytes delivered |
| VideoClient.StepKeepsFlow | VideoClient/main.cpp:192-285 | Every step of every client thread, wrap or not, keeps: locks and semaphores balance, every packet on its way is the host's, every active buffer and every decode is what its deliveries make of an empty buffer |
| VideoClient.StepKeepsInv | VideoClient/main.cpp:192-285 | Every step that leaves no buffer of frame n completed twice, wrapped or not, keeps in addition: n is pending once if its active buffer has completed and not otherwise; every decode of n was of a completed buffer |
| VideoClient.StepKeepsLocks | VideoClient/datastructures.h:29-60 | With pushes and pops in halves: semaphore count + failed releases + half-done calls = queue length on both queues, dataMutex has the holder its threads' positions say, and a consumer or decoder past isEmpty() still finds an item |
| VideoClient.ConsumerWaitsForAUnit | VideoClient/main.cpp:234-237 | Waiting on packetQueue with dataMutex held, the consumer has a packet queued, and a unit iff failed releases are fewer than queued packets; past a wait there is always an item to pop |
| VideoClient.HandOffBlocksIff | VideoClient/main.cpp:218-237 | Receiver and consumer block each other iff every queued packet's release failed; nothing the other threads do can then resolve it |
| VideoClient.ClientStopsIff | VideoClient/main.cpp:192-285 | Exactly when no client thread can step, whether or not releases have failed |
| VideoClient.ReceiverCanStepIff | VideoClient/main.cpp:192-223 | The receiver waits for a datagram or for dataMutex, and for nothing else |
| VideoClient.ConsumerCanStepIff | VideoClient/main.cpp:226-268 | The consumer waits for a queued packet, for dataMutex or for a semaphore unit, and for nothing else |
| VideoClient.DecoderCanStepIff | VideoClient/main.cpp:271-285 | The decoder waits for a queued frame or for a unit; decodeImage may succeed or fail whenever it is called |
| VideoClient.DecodedIsShown | VideoClient/main.cpp:274-282 | From the frame held to the erase: the bytes of its buffer are decoded, and a picture of them is queued exactly if decodeImage returned a bitmap |
| VideoClient.WindowSteps | VideoClient/main.cpp:288-294 | A waiting picture can be painted iff a tick has come and no waiting number is less; a paint takes one copy of it and the tick; a tick is always possible |
| VideoClient.ReleasesFailIff | VideoClient/datastructures.h:34-37 | A release of either queue adds a unit below 2^31 - 1 of them and fails at that count |
| VideoClient.ReleasesSucceed | VideoClient/datastructures.h:34-37 | While at most MAXINT packets and frame numbers are under way no release fails |
| VideoClient.ThreadStepsUseUpWork | VideoClient/main.cpp:226-285 | Every step of receiver, consumer or decoder lowers one measure of the work under way |
| VideoClient.ThreadsDrain | VideoClient/main.cpp:226-285 | With nothing new from the socket, the threads can take no more steps than that measure, in any interleaving: no livelock |
| VideoClient.CanFinish | VideoClient/main.cpp:192-285 | Thread steps alone, within that measure, lead to a client with nothing under way |
| VideoClient.PendingFramesAreThere | VideoClient/main.cpp:263-283 | A number between completion and erase occurs once, has its completed buffer, with totalSize at least expectedSize unless the total wrapped, and the decoder's lookup creates nothing |
| VideoClient.CompletionIsFirst | VideoClient/main.cpp:263-265 | In a buffer that completes once, wrapped or not, the delivery at which the test succeeds finds it incomplete: one life enqueues its number once |
| VideoClient.SecondCompletionIsAWrap | VideoClient/main.cpp:254-265 | Between two completions of one buffer at least 2^32 bytes are delivered into it |
| VideoClient.SecondCompletionRepeats | VideoClient/main.cpp:263-265 | The step at which a buffer completes a second time makes its frame pending twice |
| VideoClient.UnwrappedCompletesOnce | VideoClient/main.cpp:254-265 | A buffer into which fewer than 2^32 bytes are delivered completes once at most |
| VideoClient.AbsorbExtendsLife | VideoClient/main.cpp:237-261 | A host packet always fits the buffer it finds or creates, so the copy stays inside, and the buffer is then the replay of its history and this packet |
| VideoClient.DecodeIsFaithful | VideoClient/main.cpp:274-278 | For a decoded buffer and a completion point of it: no chunk had come twice by then iff all had arrived and the total had not wrapped; all arrived makes the decoded bytes the frame |
| VideoClient.DecodedIsFrameIff | VideoClient/main.cpp:274-278 | Decoded bytes are the host's frame iff the frame is zero in every chunk that never came |
| VideoClient.StepsMatchFrameTable | VideoClient/main.cpp:246-282 | On the buffers alone the client's steps do what the methods of FrameTable.ActiveFrames do, and only three of them touch the table |
| ExactlyOnce.StepKeepsPipeline | VideoClient/main.cpp:202-240 | Datagrams read = packets absorbed followed by those under way, in order: no client step loses, repeats or reorders a packet |
| ExactlyOnce.StepKeepsTraced | VideoClient/main.cpp:202-283 | Every step also keeps: the deliveries of a frame are those in its erased buffers followed by those in its present one, and each decode has a buffer of its own |
| ExactlyOnce.BuffersApart | VideoClient/main.cpp:246-282 | With no packet of the frame read twice, a decoded buffer received nothing twice and shares no chunk with a later decoded buffer of the frame |
| ExactlyOnce.DecodedOnceAndFaithfully | VideoClient/main.cpp:226-285 | With no packet of frame n read twice, every decode of n is of the host's frame and n is decoded once at most |
| ExactlyOnce.StepKeepsQueueTraced | VideoClient/main.cpp:263-283 | Every step keeps, with any repetitions and wraps: a frame has come to be pending or decoded iff some first part of what was delivered of it passes the test |
| ExactlyOnce.DecodedIffCompleted | VideoClient/main.cpp:226-285 | A client with nothing left to do has decoded n iff some first part of the packets of n it read passes the test |
| ExactlyOnce.DistinctCompletesIff | VideoClient/main.cpp:254-265 | A history without repetitions passes the test at some delivery iff every chunk has arrived |
| ExactlyOnce.DecodedIffAllRead | VideoClient/main.cpp:226-285 | So with no packet of n read twice: iff all packets of n were read |
| ExactlyOnce.DistinctReadsCompleteOnce | VideoClient/main.cpp:255 | With no packet of n read twice no buffer's total exceeds the frame, so none wraps and none completes twice |
| ExactlyOnce.FewReadsCompleteOnce | VideoClient/main.cpp:255 | Nor, repeated or not, while fewer than 2^32 / payload packets of n are read |
| Transport.NoSilentLoss | VideoHost/host.cpp:39-97 | After any run of the host's threads and the network: each packet whose sendPacket returned was received, or is saved byte for byte, or was saved when an overflow clear ran; every saved packet is the one its key codes. An acknowledgement may be handled between send and save |
| Transport.StepKeepsInv | VideoHost/host.cpp:39-97 | Every step keeps the invariant behind it: the counter, the genuineness of what travels, acknowledgements only for packets received |
| Transport.NothingLostWithoutOverflow | VideoHost/host.cpp:93-96 | While no pass finds more than 200 packets, every packet sent is received or still saved |
| Transport.OnlyOverflowDrops | VideoHost/host.cpp:93-96 | Nothing but an overflow clear discards a packet |
| Transport.PassClearsIff | VideoHost/host.cpp:78-97 | A pass over at most 200 saved packets leaves them all saved; over more it leaves none, and exactly those become discarded |
| Transport.PassIsFree | VideoHost/host.cpp:81-91 | A pass can be made in every state |
| Transport.DatagramsMove | VideoClient/main.cpp:202-215 | Exactly the datagrams in flight can be read, lost or duplicated; each changes the number of copies by one, a read adds one acknowledgement, nothing else changes |
| Transport.AcknowledgementsMove | VideoHost/host.cpp:62-76 | The same of acknowledgements; handling one drops the packet it names and no other |
| HostProgress.SenderCanStepIff | VideoHost/host.h:52-90 | In every state of every run, the sender can step iff it is not past the last frame |
| HostProgress.RunSends | VideoHost/host.h:47-91 | Over every run, what has been put in flight by sends is the stream up to the counter, each packet once, in order |
| HostProgress.CanSendAll | VideoHost/host.h:47-91 | From every state the sender alone can bring the stream to its end: each packet not yet sent goes in flight once, in order |
| Transport.OnlySaveEnlarges | VideoHost/host.cpp:52-97 | No step but a save adds to or alters recentPackets; acknowledging a saved packet shrinks it by one; a pass leaves at most 200 |
| Transport.SaveAddsOne | VideoHost/host.cpp:52-55 | A save always finds its key free, so emplace stores the packet just sent |
| Transport.SendThenSave | VideoHost/host.cpp:39-50 | The two steps of the machine, undisturbed, change counter, map and network by the function that specifies HostPacketManager.PacketManager.SendNext |
| Transport.StepDoesNotRevive | VideoHost/host.cpp:52-60 | A packet that was sent and is out of the map does not come back in any step |
| Transport.GoneStaysGone | VideoHost/host.cpp:52-60 | Over any run, a packet whose acknowledgement is handled is out of the map at the end |
| Transport.AcknowledgedPassDrains | VideoHost/host.cpp:78-97 | If each packet saved at a pass is acknowledged later, every packet sent before the pass is out of the map, whatever else happens in between |
| Transport.PassResendsEachOnce | VideoHost/host.cpp:88-92 | A pass puts exactly one more copy of each saved packet in flight and of no other |
| Transport.SavedPacketCanGetThrough | VideoHost/host.cpp:78-97 | From every reachable state, a saved packet can reach the client and leave the map in three steps, without the sender |
| HostPacketManager.PacketManager.AddRecentPacket | VideoHost/host.cpp:52-55 | The new map: a key already there keeps its packet, as emplace does |
| HostPacketManager.PacketManager.SendPacket | VideoHost/host.cpp:39-50 | The packet goes on the wire and, if asked, into the map |
| HostPacketManager.PacketManager.HandleIncomingPacket | VideoHost/host.cpp:62-76 | Packets of type 2 acknowledge, those of type 0 change nothing here, and exactly the other types end in the call of a null pointer |
| HostPacketManager.PacketManager.AckPass | VideoHost/host.cpp:78-97 | One pass sends every saved packet once, in some iteration order of the map; up to 200 packets stay saved, and of more none |
| HostPacketManager.PacketManager.SendNext | VideoHost/host.h:67-88 | One packet filled in, numbered, sent and saved, the DWORD counter advanced |
| HostPacketManager.PacketManager.SendFrame | VideoHost/host.h:56-89 | The loop over a frame sends exactly its packets in order, from any counter value, including one that wraps, and every field of each is as the frame demands |
| HostPacketManager.FramePacketsDescribed | VideoHost/host.h:67-88 | The packets of a frame carry, field by field, what the frame and the counter demand |
| HostPacketManager.PacketManager.SendStream | VideoHost/host.h:47-91 | Over a whole session the k-th datagram on the wire is the packet that number k codes, and the map holds each under its own number |
| HostPacketManager.FrameIsSegment | VideoHost/host.h:67-90 | What is sent for frame f is the stretch of the stream between two prefix sums |
| HostPacketManager.EmplaceStream | VideoHost/host.cpp:52-55 | Saving the stream packet by packet never hits a taken key: the map is the stream by number |
| Sequencing.SequenceNumbersAreACode | VideoHost/host.h:48-90 | Below 2^32 packets, sequence numbers and pairs of frame and offset determine each other, both ways, over all of them |
| Sequencing.SeqOfOrders | VideoHost/host.h:67-90 | Numbers are ordered as frames and then offsets are, in both directions |
| Sequencing.Session.Locate | VideoHost/host.h:60-90 | The search for a number yields a packet of the session that has that number |
| Sequencing.GenuineByNumber | VideoHost/host.cpp:52-55 | Two packets of a session with one number are the same packet |
| Sequencing.SessionsCovered | VideoHost/host.h:48-63 | The theorems cover every session with headers up to 127 and chunks up to 65535 bytes, frames below 2^31 bytes and 65535 packets, and fewer than 2^32 frames and packets |
| Packets.SplitIsLosslessIff | VideoHost/host.h:53-84 | The payloads joined are the frame iff it needs at most 65535 packets |
| Packets.DeployedSplitIsLosslessIff | VideoHost/host.h:53-84 | For the sizes the programs are built with the same holds of every frame, as no product overflows |
| Packets.HeadersDescribeFrame | VideoHost/host.h:72-84 | Every field of every header: place and bytes of the payload, the frame's size, the count of packets, and flags 1 on exactly the packet that ends the frame, 0 on the others |
| Packets.HeadersOfAnyFrame | VideoHost/host.h:59-82 | The fields for a frame of any size, with the remainders that the casts leave of its size, its count of packets and the packet's size |
| Packets.DeployedPackets | VideoHost/host.h:9-84 | With the deployed sizes no datagram exceeds 4096 bytes, 36 of them header, and all but a frame's last are full |
| Packets.ChunksTile | VideoHost/host.h:67-69 | Each byte of a frame lies in exactly one chunk, the one its position divided by the payload size names |
| Packets.SplitArithmetic | VideoHost/host.h:53-75 | No cast changes an offset or size, no chunk is empty, no product overflows an int |
| Packets.CountIsExact | VideoHost/host.h:59-63 | Up to 65535 packets the WORD count is the least number of packets that hold the frame |
| Packets.ReadsInside | VideoHost/host.h:60-84 | For every frame size, also beyond the limits, each packet is copied from inside the frame |
| Packets.StrideRestoresIff | RDIBY/client.cpp:299-302 | Placing chunk i at i times a stride restores every source position iff the stride is the payload size or there is one chunk only |
| Strides.StaysInsideIff | RDIBY/client.cpp:299-302 | Every copy stays inside the buffer iff the stride is at most the payload size or there is one chunk only |
| Strides.LibraryStaysInsideIff | RDIBY/client.cpp:299-302 | With the library's stride, the packet size: iff the frame is one chunk |
| Strides.StrideRestoresFramesIff | RDIBY/client.cpp:288-302 | A stride that stays inside leaves every frame of a size in the buffer iff it is the payload size or there is one chunk only |
| FrameTable.FrameBuffer.Deliver | VideoClient/main.cpp:246-260 | In place: the buffer's new value is the specification function whose whole-history properties are the Reassembly lemmas; storage is reused or new |
| FrameTable.FrameBuffer.CopyIn | VideoClient/main.cpp:257-260 | The copy changes exactly its stretch of the array |
| FrameTable.ActiveFrames.At | VideoClient/main.cpp:246 | operator[] inserts an empty buffer for an absent number and changes no other entry |
| FrameTable.ActiveFrames.Consume | VideoClient/main.cpp:244-265 | One iteration of the consumer changes one entry and leaves every other buffer's bytes alone although all are on the heap; its result is the completion test |
| FrameTable.ActiveFrames.Bytes | VideoClient/main.cpp:275-278 | The decoder's lookup yields the entry's bytes and changes nothing if it is there, and creates an empty entry if not |
| FrameTable.ActiveFrames.Erase | VideoClient/main.cpp:282 | One entry goes, the others stay |
| SemaphoreQueue.QueueAccounting | VideoClient/datastructures.h:29-88 | For any number of threads and clears, in every interleaving of the half-steps: count + pushers and poppers in between + throws + failed releases = queued + cleared; throws never exceed items cleared; dequeued, cleared and queued items are the enqueued ones; the dequeued are a subsequence of them |
| SemaphoreQueue.FifoWithoutClear | VideoClient/datastructures.h:29-60 | Without Clear: dequeued followed by queued = enqueued in order, "empty queue" is never thrown, every popper past its wait has an item |
| SemaphoreQueue.BlockedOnlyWhenClaimed | VideoClient/datastructures.h:47-60 | Without Clear and failed releases, a Pop blocks iff every queued item is claimed by a thread between its halves |
| EmptyQueue.PopCanThrowIff | VideoClient/datastructures.h:47-60 | With nothing more enqueued or cleared, some continuation makes a Pop throw iff items were cleared whose units are neither spent on throws nor lost to failed releases, that is, iff units and half-done calls outnumber the items |
| EmptyQueue.ReachedStateCanThrowIff | VideoClient/datastructures.h:84-88 | The same for every state reached by any number of threads |
| SemaphoreQueue.ClearMakesPopThrow | VideoClient/datastructures.h:84-88 | Such a run of five half-steps |
| SemaphoreQueue.ReleaseFailsIff | VideoClient/datastructures.h:34-37 | A release adds a unit below the limit and fails at it |
| SemaphoreQueue.CountStaysWithin | VideoClient/datastructures.h:16 | Over any run the semaphore's count never exceeds the limit |
| SemaphoreQueue.ThreadsAreFree | VideoClient/datastructures.h:29-88 | A thread's half-step depends on its own position and, for the wait, on a unit, whatever the others do; Clear is always possible |
| SemaphoreQueue.StepKeepsBalanced | VideoClient/datastructures.h:29-88 | Each half-step keeps the ledger of semaphore units and items |
| SemaphoreQueue.StepKeepsOrder | VideoClient/datastructures.h:29-88 | Each half-step keeps the order of items, and splits those gone into dequeued and cleared |
| ThreadSafeQueues.ThreadSafeQueue.Push | VideoClient/datastructures.h:29-38 | The call is its two half-steps; the item is queued even when the release fails, which the result tells |
| ThreadSafeQueues.ThreadSafeQueue.Pop | VideoClient/datastructures.h:47-60 | The oldest item, or "empty queue" with the semaphore unit spent |
| ThreadSafeQueues.ThreadSafePrioQueue.Push | VideoClient/datastructures.h:116-125 | One picture more, one unit more unless the release fails |
| ThreadSafeQueues.ThreadSafePrioQueue.Pop | VideoClient/datastructures.h:134-147 | Removes one picture whose frame number is least, or reports an empty queue |
| Screen.TopExists | VideoClient/main.cpp:61-67 | Under CompareNumBmpPairs a nonempty queue has an element that goes before no other, and exactly the elements with the least frame number are such |
| ThreadSafeQueues.PaintState.QueuePicture | VideoClient/main.cpp:278-281 | Keeps units and failed releases together equal to the pictures under bmpMutex and every recorded paint lawful; below MAXINT pictures no release fails |
| ThreadSafeQueues.PaintState.OnPaint | VideoClient/main.cpp:522-548 | Shows nothing exactly without a tick or a picture, waits for ever exactly when every queued picture has lost its release, otherwise shows a picture with a least number and uses up the tick; the pop cannot throw |
| Screen.LateFramesWereQueuedLate | VideoClient/main.cpp:526-533 | Over whole histories: a smaller frame number painted later was queued after the larger one was painted |
| Screen.PaintsArePaced | VideoClient/main.cpp:288-294 | Between any two paints there is a timer tick |
| Screen.PaintKeepsInv | VideoClient/main.cpp:526-538 | A paint of a least picture keeps the recorded history lawful and in step with the queue and the flag |
| Screen.QueuedIsWaitingOrPainted | VideoClient/datastructures.h:116-147 | In a lawful history the pictures queued are, with multiplicity, those waiting and those painted |
| Display.StepKeepsDisplayed | VideoClient/main.cpp:277-282 | Every client step keeps: pictures queued, then the bitmap in hand, are the successful decodes in decode order |
| Display.PaintedWasDecoded | VideoClient/main.cpp:526-539 | Whatever is painted is a bitmap that decodeImage returned, under its frame number |
| Display.NoFramePaintedTwice | VideoClient/main.cpp:526-539 | If no frame was decoded twice none is painted twice |
| Handshake.FirstServerInteraction | RDIBY/client.cpp:142-166 | Refuses exactly names over 16 characters, otherwise sends 52 bytes with the names, their lengths and the host flag at their places |
| Handshake.PutField | RDIBY/client.cpp:152-162 | The copying loop changes exactly its field's first bytes and the length byte |
| Handshake.WrittenIsEncode | RDIBY/client.cpp:152-164 | The seven writes disturb each other nowhere: each byte of the record has one author |
| Handshake.ReadStringIff | RDIBY/server.cpp:136-138 | A NUL-terminated read at a position gives a text iff that text is there, NUL-free and followed by a NUL inside the record |
| Handshake.HandshakeSurvivesIff | RDIBY/server.cpp:136-152 | Exactly when each name the server reads is the one the client wrote, for every accepted client; the host flag always survives |
| Handshake.PromptedNamesSurvive | RDIBY/server.cpp:136-152 | Names of at most 15 NUL-free characters are all read back as written |
| Handshake.SameNameSameRoom | RDIBY/server.cpp:137-141 | For names within the prompts: same room name, same room key, for any hash; different room names are read as different |
| Handshake.LongRoomNameRunsOn | RDIBY/server.cpp:137 | A 16-character room name is read with the client's name appended |
| Rooms.RoomManager.CreateNewRoom | RDIBY/room.cpp:15-20 | Reports success; the map changes only if the id was absent |
| Rooms.RoomManager.GetRoomPtr | RDIBY/room.cpp:53-55 | The entry, where an absent id becomes a null room |
| Rooms.RoomManager.AddClientToRoom | RDIBY/room.cpp:28-37 | Succeeds iff client and room are both there; appends to that room in join order; an absent id becomes a null room |
| Rooms.FirstTouchDecides | RDIBY/room.cpp:15-55 | After any sequence of calls the entry of an id is what its first touch since its last deletion left, and there is one iff there was such a touch |
| Rooms.ResolvesIff | RDIBY/room.cpp:15-55 | An id resolves to a room iff that first touch was the creation of that very room |
| Rooms.CreationAfterProbeIsLost | RDIBY/room.cpp:15-37 | A lookup before the creation makes the creation ineffective, without it the room resolves |
| RoomEnding.ServerManager.TellHost | RDIBY/server.cpp:30-46 | The host is sent exactly the listed messages through two buffers, one zeroed and refilled for each client, the other kept for the clients |
| RoomEnding.ServerManager.TellClients | RDIBY/server.cpp:49-61 | Each client gets the kept buffer and then the refilled one, and is marked as leaving |
| RoomEnding.ServerManager.SendOff | RDIBY/server.cpp:64-68 | Each client gets a LEAVE |
| RoomEnding.ServerManager.EndRoom | RDIBY/server.cpp:16-75 | All messages on all sockets, who is marked as leaving in either case, and the room gone from the map; without a room, a null one left behind and nothing sent |
| RoomEnding.CollectAddresses | RDIBYClient/clienttest.cpp:85-97 | The peers' loop collects the punch addresses before the first LEAVE and stops there, or is still waiting if none comes |
| RoomEnding.CollectsUpToFirstLeave | RDIBYClient/clienttest.cpp:85-97 | For any stream: the loop stops iff a LEAVE comes, at the first one, with the addresses of the punches before it, and otherwise waits with those of all punches |
| RoomEnding.CollectsUntilLeave | RDIBYClient/clienttest.cpp:177-192 | From addresses followed by one LEAVE it collects exactly those, in order, and reads everything |
| RoomEnding.EndedOnHost | RDIBY/server.cpp:28-73 | With distinct sockets, the host's stream gets its own address, all clients' in join order, and one LEAVE, out of all the interleaved sends |
| RoomEnding.EndedOnClient | RDIBY/server.cpp:28-73 | Each client's stream gets the host's address, its own, and one LEAVE |
| RoomEnding.EndedOnOthers | RDIBY/server.cpp:28-73 | Sockets outside the room get nothing |
| RoomEnding.ClosedRoomOnlyLeaves | RDIBY/server.cpp:64-70 | Without streaming everyone gets one LEAVE and no address |
| RoomEnding.PeersLearnTheRoom | RDIBYClient/clienttest.cpp:85-97 | endRoom composed with the loops: the host collects its own address and every client's in join order, each client the host's and its own, and every loop ends on the last message it was sent |

## Left out

- Streaming.DecodedFramesHadCompleted: needs that no buffer of the frame completes twice, as the decoder otherwise finds no buffer for the repeated number and decodes an empty one. The same hypothesis of VideoClient.StepKeepsInv and Streaming.PendingFramesAreSafe is exact (Streaming.PendingOnceIff), and Streaming.BoundedDeliveriesCompleteOnce gives it from a count of deliveries.
- Streaming.ExactlyOnceDelivery: requires that no packet of the frame is delivered twice, as does NoFrameIsPaintedTwice; what host and network must do for that is Copies.RedeliveryIff, and what holds without it is Streaming.DecodedFramesAreTheHosts and Streaming.QuiescentClientHasDecodedExactly.
- Copies.RedeliveryIff: requires that never more than MAXINT packets and frame numbers are under way in the client, since with failed releases it can stop before it reads the second copy; that a careful step is harmless does not need it (Copies.CarefulRunsDeliverOnce).
- In the step machine of the client the push of a picture always succeeds, which takes at most MAXINT pictures waiting; beyond that see ThreadSafeQueues.PaintState.
- Packets.SplitIsLosslessIff: requires that i * payloadSize stays an int, as signed overflow is undefined; with the deployed sizes it always does (Packets.DeployedSplitIsLosslessIff).
- HostPacketManager.PacketManager.HandleIncomingPacket: says that the call of a null function pointer happens, not what it does.
- HostPacketManager.PacketManager.SendStream: one thread on its own, without acknowledgements in between; with them the statement is Transport.NoSilentLoss. Sessions are limited to 2^32 packets, beyond which numbers repeat.
- ThreadSafeQueues.ThreadSafeQueue.Pop: requires a semaphore unit, since the source waits without a timeout; waiting is modelled in SemaphoreQueue.
- RoomEnding.ServerManager.EndRoom: says that a null room's pointer is followed, as after a deletion or at a second start by the same host, not what that does.
- The chunk size is taken to be the same for every frame; the race between setFrameSize and the sender's first read of it is not modelled.
- Each access to activeFrames together with its use is one step, as is the decoder's unlocked access and the unlocked isEmpty(); data races inside such a step are not modelled.
- A pass of the acker is one step, since it holds recentPacketsMutex; so is the client's read of a datagram with its acknowledgement.
- Datagrams and TCP messages are values; the byte layout of the stream packet's header is not modelled (the handshake record's is). The network does not corrupt, so malformed packets do not occur.
- The inside of std::priority_queue: it is a multiset whose pop removes some least frame number. std::hash is any function. A socket address is one opaque number.
- removeClientFromRoom, whose bound counts the host and is not adjusted after an erase, and endRoom(id, false) followed by a handler's own removal.
- The rest of the server's client handler: password check, message loop, ServerMediator, threads and events.
- The globalOn and isProgramOn flags: the threads are modelled while they are on. latestFrame and the other unused globals.
- Screen capture, JPEG, GDI+, window procedures other than WM_PAINT's queue step: a frame is a byte sequence, decodeImage succeeds or fails arbitrarily.
- Keyboard and mouse hooks, eventSenderThread and the host's event handler, whose body is commented out.
- Sockets, connection set-up, ThreadManager, ConThread, ConditionVariable, the encrypted-socket stubs, and all timing and priorities; fairness is not assumed, so delivery is stated as possible (Transport.SavedPacketCanGetThrough), not as inevitable.
- Size() and the destructors, which only add trivial members.
