# A verified model of the TCP/UDP publish-subscribe broker

The broker keeps a table of clients, each with an ID, a socket or -1, its subscriptions and a queue
of missed messages. Publishers send UDP datagrams; subscribers hold TCP connections. This project
models the server, the message layouts and the subscriber, and proves what they do on every run.

## Layers

| files | content |
|---|---|
| `Buffer.dfy`, `Queue.dfy` | the growable array and the linked FIFO as classes, refining sequences |
| `Interests.dfy`, `Waiting.dfy`, `ClientRecord.dfy`, `ClientTable.dfy`, `ServerProcess.dfy` | the heap server: handlers, loops over the table, and the descriptor scan, each method proved equal to a step of the value model |
| `Broker.dfy`, `Dispatch.dfy`, `Rounds.dfy` | the value model: one client, the table, the shared receive buffer with the `receiveID` flag, select rounds |
| `Subscriptions.dfy`, `History.dfy`, `Handshake.dfy` | theorems about the value model: the delete loop, store and forward over whole histories, sessions, noninterference, the registry |
| `StoredAddress.dfy` | the queue of addresses as `action.c:86-88` writes it, beside the intended one |
| `Wire.dfy`, `Messages.dfy`, `Subscriber.dfy` | byte layouts, decoding, the receive loop |
| `Single.dfy`, `Numbers.dfy` | single-precision rounding defined over the reals, and the numeric payloads |
| `Conversation.dfy` | what clients and publishers do, the messages they send for it, and when the server understands them |
| `Sockets.dfy` | what each subscriber's socket carries, and when that is its client's session |
| `EndToEnd.dfy` | publisher to printed line |
| `Bytes.dfy`, `Seqs.dfy`, `Options.dfy` | memory blocks, C strings, integers, small helpers |

A client's `sent` field is the list of `send` calls made for it, with socket and frame, over all its
sessions. `History.Expected` reads off the event history alone what a client is owed: each
publication once per subscription entry that is live when it is published (client online, or flag 1).
The central theorem says that `sent` followed by the queue is exactly that, for every ID on every run.
It needs no assumption about the order of events: the `receiveID` flag is modelled as it is, one
global flag, and where that makes a property fail the exact condition is proved instead.

That theorem is about records. A subscriber reads a socket, and because of the flag two records can come
to share one: `Sockets.FrameIsDoubled` is a run on which a subscriber then reads a publication twice.
`Sockets.Wired` is what a descriptor carries since it was accepted, and `SocketsAreSessionsIff` proves that
sockets and sessions agree, whatever follows, exactly on the runs that read no ID from a client's own socket.
The end-to-end theorems are about those sockets and those runs.

## Where the text has no defined behaviour

In these places C leaves the written program undefined. The model takes the documented meaning, and
where the written text can be followed at all a second member says exactly when it agrees.

- `utils/lib/buffer.c:71-80` shifts from the wrong place and runs past the live slots. `DelPos`
  removes and shifts as the repository's `README.md:62` says. `Buffer.DelPosAsWritten` runs the written loop and is
  defined exactly for the last element; `TopicSF.DeleteAllAsWritten` and `AsWrittenDefinedIff` carry
  that to the unsubscribe loop.
- `utils/lib/action.c:88` queues the address of a block-local variable. The model queues the heap copy
  made two lines above. If the variable outlived its block, in one place for the whole run,
  every queued address would lead to the frame stored last, for whichever client:
  `StoredAddress.WrittenQueueIsRightIff` says, for every run, exactly when a client's stream would still be right.
- `utils/lib/action.c:263-264` compares an uninitialised topic. The model decodes it as line 258 does.
- `utils/lib/client.c:93` multiplies: magnitude 2^31 with sign 1 overflows `int` (`IntIsExactIff` keeps it apart).
- `utils/include/action.h:12` leaves no room for the terminator of a ten-byte ID (`IdFieldHoldsIff`);
  `utils/lib/client.c:181-183` writes one byte behind its topic buffer, which changes no value.

The delete loop (`utils/lib/action.c:135-149`) skips the entry that slides into a freed place. That is
what it does over the repaired removal, and the model keeps it: `unsubscribe` can leave entries behind,
and `History.SecondSubscriptionStays` is a run on which it does. Over the removal as written every such
call is undefined before it gets there (`SkippingNeedsTheRepair`).

One more departure from the documentation is defined behaviour: the console hands `unsubscribe` its
topic with the newline still on it (`utils/lib/client.c:64`).

## Model

| member | source | states |
|---|---|---|
| EndToEnd.RoundsSettle | server.c:76-125 | after any select rounds with any inputs, every client's sends plus queue are exactly what the history owes its ID, and nothing waits while it is online |
| EndToEnd.PrintedIsPublished | subscriber.c:80-124 | on every possible run that reads no ID from a client's own socket: receiving one by one the frames its socket has carried, a subscriber online prints exactly the datagrams published for its ID since it was last online, stored first and then live, in order and number; where a datagram is a well-formed publication its line shows sender, port, topic and value, FLOAT within its bound |
| EndToEnd.ConversationIsPrinted | server.c:76-125 | on every possible conversation whose messages come in turn and with one ID to a connection, what is printed off the socket is exactly the publications owed by the clients' own actions |
| EndToEnd.SessionReadsAsReports | utils/lib/action.c:166-211 | on every run, what a record is sent in a session goes out on its socket and reads as the datagrams published for its ID since it was last online |
| EndToEnd.DatagramIsRead | utils/lib/client.c:173-217 | any datagram, malformed ones included, becomes a frame that decodes to its own line, and to the publication's fields if it was made for one |
| Sockets.SocketsAreSessionsIff | server.c:96-123 | after every part of a run, whatever follows short of another such ID: every client online has an open socket that has carried its session and nothing else, if and only if the run reads no ID from a client's own socket |
| Sockets.SocketsAreSessions | utils/lib/action.c:66-94 | on every such run each socket carries its client's session, and a connection without client carries nothing |
| Sockets.HijackLeaks | utils/lib/action.c:155-211 | after an ID is read from a client's socket, either that socket is closed under it or one more subscription and one publication make it carry more than the session |
| Sockets.FrameIsDoubled | server.c:115-119 | a concrete possible run puts a publication twice on the socket of a client that is sent it once |
| EndToEnd.PrintedAndStoredIsPublished | utils/lib/action.c:43-96 | after every run, frames sent plus frames stored read as the datagrams owed to the ID, and nothing is stored for a client online |
| EndToEnd.OwedIsReported | utils/lib/client.c:173-217 | frame by frame, what the history owes a client reads as the datagrams it is owed |
| Conversation.UnderstoodIffInTurn | server.c:96-123 | the handler calls of a whole run of client messages are the ones meant if and only if IDs come while one is awaited, requests while none is, and full-length unsubscriptions find their missing byte clear |
| Conversation.ActIsUnderstoodIff | utils/lib/action.c:245-267 | one message, whatever the shared buffer holds: its handler call is the one meant exactly in its turn |
| Conversation.ServerCarries | server.c:74-121 | flag and stale byte after a run are those the actions determine |
| Conversation.NeverHijackedIffOneIdEach | server.c:107-121 | on every possible conversation in turn, no ID is read from a client's own socket exactly if no connection sends a second ID |
| Conversation.PublicationIsPublished | utils/lib/action.c:43-59 | a well-formed datagram is published under its own topic as a frame that reads as the publication |
| History.StoreAndForward | utils/lib/action.c:43-243 | for every ID and history: session and subscriptions are those of the history, sends then queue equal what is owed, and the queue is empty while online |
| History.BrokerSettles | utils/lib/action.c:43-243 | the same for the record found in the client table; online at the end means all owed frames have been sent |
| History.DeliverIsRepeat | utils/lib/action.c:73-92 | the match loop hands out one copy per live entry, on the wire if online and in the queue otherwise |
| History.PublicationHasItsPlace | utils/lib/action.c:73-92 | the copies of a publication come right after everything owed before it, at every later time |
| History.OnlySubscribedIsDelivered | utils/lib/action.c:79-83 | every frame owed was published while some entry for its topic was live |
| History.SendsUseTheCurrentSession | utils/lib/action.c:81-82 | a step only appends sends, all on the socket the client has afterwards |
| History.StoredFramesStay | utils/lib/action.c:83-89 | queued frames stay unchanged and in place until one session takes all of them, oldest first |
| History.SessionIsReplayThenLive | utils/lib/action.c:179-188 | since a session began exactly the queue of that moment and then everything owed since has been sent, on the session's socket alone |
| History.SessionIsOwed | utils/lib/action.c:73-92 | a session goes out on its own socket and is what was owed since the ID was last online before |
| History.SessionAfter | utils/lib/action.c:73-92 | a session begins with what the step to it sends and grows by what each later step sends |
| History.OwedTogether | utils/lib/action.c:73-92 | frames, datagrams and actions owed stand for the same publications, place by place |
| History.SentUpToLastOnline | utils/lib/action.c:79-89 | all an ID has been sent is what it was owed when it was last online |
| History.SecondSubscriptionStays | utils/lib/action.c:135-149 | two subscriptions to a topic and one unsubscription leave one entry, and the next publication is still delivered |
| History.OneEntryIsDueIff | utils/lib/action.c:79-83 | an entry yields one copy exactly if it names the topic and its client is online or has flag 1 |
| History.EntriesOutliveSessions | utils/lib/action.c:115-116 | entries stand newest first, survive the hang-up and are there again in the next session |
| StoredAddress.WrittenQueueIsRightIff | utils/lib/action.c:86-88 | with the queued addresses all leading to one place that every store overwrites, a record's stream is the intended one exactly if each of its reconnections finds nothing waiting but the last frame stored for anyone |
| StoredAddress.RunsMirror | utils/lib/action.c:86-88 | on every run the written server keeps records equal to the intended ones but for what replays sent, and the place holds the last frame stored |
| History.RunIsSolo | utils/lib/action.c:66-94 | in the whole table, each ID's record evolves as if run alone |
| History.Noninterference | utils/lib/action.c:98-211 | a client's record is that of a run on its own session and subscription events and the publications |
| History.SameOwnHistorySameClient | utils/lib/action.c:98-211 | two runs that agree on those agree on the client, whatever the others do |
| Subscriptions.UnsubscribeHalvesRuns | utils/lib/action.c:135-149 | of each maximal run of r entries for the topic the loop leaves the floor(r/2) entries at odd places, and all others |
| Subscriptions.UnsubscribeKeepsOthers | utils/lib/action.c:135-149 | entries for other topics keep order and flag |
| Subscriptions.UnsubscribeRemovesTopicIff | utils/lib/action.c:135-149 | the topic is gone afterwards exactly when no two of its entries were neighbours |
| Subscriptions.AsWrittenDefinedIff | utils/lib/buffer.c:71-84 | over the written shifting loop, unsubscribing is defined exactly when the topic occurs at most as the oldest entry, and then agrees |
| Subscriptions.AsWrittenThenRemovesTopic | utils/lib/buffer.c:71-84 | and then it removes exactly the topic's entries |
| Subscriptions.SkippingNeedsTheRepair | utils/lib/action.c:135-149 | whenever the loop would leave an entry for the topic, it is undefined over the written removal |
| Subscriptions.SomeCopyIffSomeLiveEntry | utils/lib/action.c:79-83 | a publication yields a copy exactly when some entry is live |
| Handshake.StepKeepsRegistryIff | utils/lib/action.c:155-243 | a step keeps IDs distinct, sockets distinct and sockets open exactly when it is not an ID read from a socket that already belongs to a client |
| Handshake.RunKeepsRegistryIff | server.c:96-123 | over every possible run, the registry is consistent after each part of it if and only if no step of it is such an ID read |
| Handshake.IdsAlwaysDistinct | utils/lib/action.c:159-211 | IDs are pairwise distinct after every run, whatever the flag does |
| Handshake.LiveIdIsTurnedAway | utils/lib/action.c:166-176 | a second connection under a live ID changes no record and is closed |
| Handshake.HangUpCloses | utils/lib/action.c:214-243 | a hang-up takes a descriptor out of the set exactly if it belongs to a client; without one nothing at all changes |
| Handshake.OpenAfterIff | utils/lib/action.c:9-243 | after any possible input a descriptor is open exactly if it was just accepted, or was open and is not closed by a client's hang-up or by the ID of a client that is online |
| Handshake.OneRecordChanges | utils/lib/action.c:98-153 | while the registry is consistent, a request or hang-up changes at most one record |
| Handshake.FlagIsRightIff | server.c:115-121 | the flag decides as a per-connection protocol would exactly when it is up for data from a connection without client and down for one with |
| Handshake.OrderlyRunsFollowTheProtocol | server.c:99-123 | if no connection is accepted or speaks while another owes its ID, whole runs equal the flagless protocol, with at most one connection without client throughout |
| Handshake.BootIsOrderly | server.c:64-74 | the freshly started server has no client, the flag down and exactly its own descriptors open, and is in a state those runs may begin in |
| Handshake.FirstClientIsDuplicated | server.c:74-119 | a concrete possible run of four inputs ends with two records under one socket |
| Handshake.HijackBreaks | utils/lib/action.c:155-212 | each such ID read breaks the registry, whether the ID is new, offline or live |
| Handshake.OrderlyStep | server.c:99-123 | one orderly step keeps the registry and at most one connection without client, and equals the protocol step |
| Handshake.IdentificationShows | utils/lib/action.c:155-212 | an identification never has the effect of a request |
| Dispatch.ServeIsRun | server.c:96-123 | a server run is a broker run on the handler calls it makes |
| Dispatch.QuietRoundsUnderstandUnsubscriptions | server.c:82-110 | clearing the buffer once a round suffices for every unsubscription of a legal topic until a datagram leaves a byte behind the 51 sent |
| Dispatch.RequestsAreQuiet | utils/lib/client.c:10-46 | the client's own requests never leave that byte set |
| Dispatch.IdFieldHoldsIff | utils/lib/action.c:203 | the ten copied bytes hold a terminated copy of the ID exactly when it is shorter than ten |
| Dispatch.EveryMessageIsRead | utils/lib/action.c:245-267 | any non-empty message while no ID is awaited, over any buffer: a subscription exactly if byte 0 is 115, an unsubscription exactly if it is 117, with topic and flag at their places; otherwise the registry does not change |
| Dispatch.EveryIdIsRead | utils/lib/action.c:155-166 | any non-empty message while an ID is awaited is read as the string from byte 0 |
| Dispatch.EveryDatagramIsPublished | utils/lib/action.c:43-59 | any datagram, whatever the buffer held, is published under the string in its first 50 bytes in a frame given byte by byte |
| Dispatch.LastWriterWins | server.c:82-110 | after any run each byte of the shared receive buffer is that of the last input that reached it |
| Dispatch.FlagIsLastWord | server.c:74-121 | after any run the flag is up exactly if the last input among connections and non-empty messages was a connection |
| Rounds.RoundIsCompleteAndFresh | server.c:72-124 | a round serves every ready descriptor exactly once, ascending, and none that was closed when it began; no open descriptor ever lies above fdClients |
| Rounds.ScriptFollowsTheScan | server.c:96-123 | the inputs of a round are met in the scan's order |
| Rounds.RoundsAreOneRun | server.c:76-125 | the rounds of a run are one run on all their inputs |
| Rounds.ServeStaysBounded | utils/lib/action.c:23-26 | open descriptors stay at or below fdClients on every run |
| Rounds.BootIsBounded | server.c:64-72 | the started server's bound is the higher of its two descriptors, and nothing is open above it |
| Rounds.BoundIsReached | utils/lib/action.c:23-26 | the bound after a run is the one it began with or a descriptor accepted since |
| Rounds.EveryRoundServesAll | server.c:76-125 | in every round of every run from the start, the buffer is cleared and then each ready descriptor is served once, ascending, with no assumption on the bound |
| Rounds.AcceptedIsOpen | utils/lib/action.c:9-27 | a descriptor accepted in a round is open and inside the next scan's bound when the round ends |
| ServerProcesses.ServerProcess.ServeAll | server.c:76-125 | the heap server's select loop equals the value model over all rounds |
| ServerProcesses.ServerProcess.RunServer | server.c:64-125 | started with two descriptors and run for any rounds, the heap server equals the value model, with no assumption on its bound |
| ServerProcesses.ServerProcess.ServeRound | server.c:79-124 | one round of the scan, with fdClients growing meanwhile, equals the value model's round |
| ServerProcesses.ServerProcess.HandleClient | server.c:107-122 | data, ID or hang-up on a client descriptor lead to the model's step, stale buffer bytes included |
| ServerProcesses.ServerProcess.AcceptNewConnection | utils/lib/action.c:9-27 | new descriptor active, bound raised, flag up, nothing else |
| ServerProcesses.ServerProcess.ReceiveUdpMessage | utils/lib/action.c:43-96 | the datagram's frame reaches every client as the model says, through one shared format buffer |
| ServerProcesses.ServerProcess.HandleIdClient | utils/lib/action.c:155-212 | reconnection with replay, refusal or registration, as the model says |
| ServerProcesses.ServerProcess.DisconnectClient | utils/lib/action.c:214-243 | every record with the socket goes offline, and the descriptor is closed only if there is one |
| ServerProcesses.ServerProcess.HandleRequest | utils/lib/action.c:245-267 | subscription, unsubscription or nothing, as decoded from the buffer |
| ClientTables.ClientTable.Publish | utils/lib/action.c:66-94 | the nested loops make every record take the publication's step |
| ClientTables.ClientTable.Subscribe | utils/lib/action.c:98-120 | every record with the socket gets the entry in front, others nothing |
| ClientTables.ClientTable.Unsubscribe | utils/lib/action.c:122-153 | every record with the socket runs the delete loop, others nothing |
| ClientTables.ClientTable.Disconnect | utils/lib/action.c:214-243 | every record with the socket goes offline; says whether there was one |
| ClientTables.ClientTable.Identify | utils/lib/action.c:155-211 | search, reconnect with replay or append a fresh record; says whether the ID was live |
| ClientRecords.ClientRecord.Publish | utils/lib/action.c:73-92 | the match loop over the heap record equals the model's step |
| ClientRecords.ClientRecord.Drain | utils/lib/action.c:183-188 | the replay loop ends and sends the whole queue oldest first |
| Interests.TopicSF.Add | utils/lib/action.c:115-116 | both buffers grow in lockstep: entry j of one belongs to entry j of the other |
| Interests.TopicSF.DeleteAll | utils/lib/action.c:135-149 | both buffers shrink in lockstep, leaving what the delete loop leaves |
| Interests.TopicSF.DeleteAllAsWritten | utils/lib/action.c:135-149 | with the written removal: defined exactly if the topic is not before the last entry, and then the same |
| WaitingFrames.FrameQueue.Store | utils/lib/action.c:86-88 | the queue grows by a private copy of the shared format buffer |
| WaitingFrames.FrameQueue.Next | utils/lib/action.c:186 | the oldest copy comes out with the bytes that went in |
| Buffers.Buffer.AddPos | utils/lib/buffer.c:40-61 | sequence insertion; a full buffer grows by half its capacity, which makes room from 2 on; slots moved by growth stay below four times the insertions |
| Buffers.Buffer.DelPos | utils/lib/buffer.c:63-85 | sequence removal, as documented, for every position with an element |
| Buffers.Buffer.DelPosAsWritten | utils/lib/buffer.c:63-85 | for every position with an element, the written loop stays inside live elements exactly for the last one, where it is sequence removal |
| Buffers.Buffer.GetPos | utils/lib/buffer.c:31-38 | the element at the position; none at `len`, which the guard lets through |
| Buffers.Buffer.constructor | utils/lib/buffer.c:3-24 | an empty sequence of the asked capacity |
| Buffers.GrowthMakesRoomIff | utils/lib/buffer.c:48-52 | growing makes room exactly from capacity 2 on, by at least a third |
| Queues.Queue.Enq | utils/lib/queue.c:15-26 | appends, as one fresh cell behind the chain |
| Queues.Queue.Deq | utils/lib/queue.c:28-36 | removes the front; the chain stays acyclic and tail may go stale |
| Queues.Queue.Peek | utils/lib/queue.c:38-42 | the front element |
| Queues.Queue.Destroy | utils/lib/queue.c:44-52 | takes off every cell once, in order, and ends |
| Queues.Cell.constructor | utils/lib/list.c:3-9 | a cell in front of a list |
| Wire.FormatBuffer | utils/lib/action.c:29-41 | the copies at fixed offsets make datagram, address, port and separator in a row, 1570 bytes |
| Wire.FrameBytes | utils/lib/action.c:29-41 | every byte of a frame: datagram, address padded with NULs, port high byte first, 13 at place 1569 |
| Wire.EncodeSubscribe | utils/lib/client.c:10-28 | the bytes sent are letter, topic field, flag and terminator |
| Wire.EncodeUnsubscribe | utils/lib/client.c:30-46 | the bytes sent are letter and topic field, 51 in all |
| Wire.EncodeId | subscriber.c:46-52 | the eleven bytes sent are the ID in its zero-padded field and a terminator |
| Wire.IdBytes | subscriber.c:46-52 | every byte of the ID message |
| Wire.RequestBytes | utils/lib/client.c:10-46 | every byte of both requests: 115 or 117, topic, flag least significant byte first |
| Wire.IdRoundTrip | server.c:107-119 | the server reads back the ID, whatever the buffer held, exactly up to ten bytes |
| Wire.SubscribeRoundTrip | utils/lib/action.c:255-262 | a subscription is decoded as sent, whatever the buffer held, exactly for topics of at most 51 bytes |
| Wire.UnsubscribeRoundTrip | utils/lib/action.c:255-264 | an unsubscription is decoded as sent exactly if the topic is below 50 bytes or byte 51 of the shared buffer is clear |
| Wire.TypedUnsubscribeNamesTopicIff | utils/lib/client.c:62-65 | typed at the console, it names its topic exactly if the topic has 50 bytes |
| Messages.PublicationRoundTrip | utils/lib/client.c:173-213 | all offsets agree: of every well-formed publication sender, port, topic and value are read back, FLOAT within its bound and with its sign |
| Messages.EveryFrameIsRead | utils/lib/client.c:82-217 | what any 1570 bytes print: invalid exactly if byte 50 is above 3; otherwise topic, address, port and the value of that type from literal places, most significant byte first, negated exactly for sign 1 |
| Messages.ProcessMessage | utils/lib/client.c:173-217 | the decoder, with the division loop run as written, equals its specification |
| Messages.ValueArrives | utils/lib/client.c:82-171 | INT, SHORT_REAL and STRING decode to the published value, FLOAT to within the bound of n/10^point, negated exactly for sign 1 |
| Messages.FloatConveys | utils/lib/client.c:117-132 | for every sign, magnitude and exponent byte, the value passed to printf is within the bound of n/10^point, negated exactly for sign 1 |
| Messages.FrameLayout | utils/lib/action.c:36-40 | the client's offsets find the server's fields, separator last |
| Numbers.ConvertNumber | utils/lib/client.c:123-132 | the loop equals the k-fold rounded quotient with the sign |
| Numbers.EveryStepIsNearest | utils/lib/client.c:111-128 | conversion and each division give a single-precision number, and none is nearer to the exact result of that step; so does SHORT_REAL's division |
| Numbers.FloatError | utils/lib/client.c:123-132 | for every magnitude n and exponent k, within n/10^k * ((1+2^-24)^(k+1) - 1) of n/10^k plus one smallest subnormal |
| Numbers.FloatIsAccurate | utils/lib/client.c:123-132 | for every magnitude and exponents up to 37, without the extra term and the factor at most linear in k; never subnormal except zero, which is exact |
| Numbers.ZeroIsExact | utils/lib/client.c:123-132 | magnitude zero is computed as zero for every exponent |
| Numbers.ExactIsDecimal | utils/lib/client.c:128 | the k-fold exact quotient is n/10^k |
| Numbers.GrowthIsLinear | utils/lib/client.c:128 | (1+2^-24)^(k+1) stays below 1 + (k+1) * 2^-24 * (1+2^-16) for every exponent byte |
| Numbers.ShortRealPrintsExactly | utils/lib/client.c:104-114 | the single-precision quotient of every 16-bit value is within 2^-15 and prints its two decimals exactly |
| Numbers.IntIsExactIff | utils/lib/client.c:82-96 | INT is computed without overflow and exact exactly for magnitudes below 2^31; only 2^31 with sign 1 overflows |
| SingleFacts.RoundIsNearest | utils/lib/client.c:111-128 | the rounding used for float is representable, no representable value is nearer, and between two equally near ones its significand is even |
| SingleFacts.RoundIsExactOn | utils/lib/client.c:111-126 | representable values are not changed |
| SingleFacts.RoundingError | utils/lib/client.c:111-128 | relative error at most 2^-24, and 2^-150 more only below the normal range |
| Subscriber.Receive | subscriber.c:60-126 | the main loop prints the decoded buffers the specification hands on, stale bytes included |
| Subscriber.EveryHandedBuffer | subscriber.c:80-122 | for arbitrary chunks: at each place the first buffer handed on holds the byte of the last chunk that reached there, up to and including the first chunk with a 13, and 0 where none did; the rest starts from a cleared buffer |
| Subscriber.UnseparatedIsLost | subscriber.c:88-100 | chunks without a separator before the stream ends or closes are never handed on |
| Subscriber.FramesArriveIffAligned | subscriber.c:88-122 | the frames sent are the frames handed on if and only if every recv returned one whole frame |
| Subscriber.AlignedFramesArrive | subscriber.c:88-122 | whole frames are handed on unchanged |

## Left out

- ServerProcesses.ServerProcess.HandleIdClient: an ID of ten or more bytes is kept whole here; in C its copy is unterminated and later comparisons read on into the record (`Dispatch.IdFieldHoldsIff` is the bound).
- Buffers.Buffer.GetPos: positions above `len`, on which `buffer.c:35` ends the process, are not modelled; no caller passes them.
- Buffers.Buffer.DelPos: at `len`, which `buffer.c:67` lets through, nothing is removed; the source frees what the slot behind the last element holds and still drops the last element, which is defined while that slot is fresh from `calloc`; no caller passes it.
- Buffers.Buffer.DelPosAsWritten: likewise at `len`, where it reports an access outside the live elements.
- Buffers.Buffer.AddPos: capacities and lengths are unbounded, where C has `int`; allocation succeeds, and freed memory is only seen as a slot that leads nowhere.
- Queues.Queue.Destroy: freeing is the list of cells taken off; the server never calls it.
- Single.Round: overflow, infinities, NaN and negative zero, which no decoded value reaches; negation is exact.
- Numbers.IntIsExactIff: the conversion of magnitudes above 2^31-1 to `int` is taken as two's complement.
- EndToEnd.ConversationIsPrinted: IDs have fewer than ten bytes and every message arrives in one recv of its own; other inputs are covered by `PrintedIsPublished`, whose history is that of the server's handler calls.
- Numbers.FloatIsAccurate: the six decimals printed by "%f" are not modelled, only the value passed to it.
- Wire.SubscribeRoundTrip: a topic field without terminator is read as its 51 bytes; C would compare on behind it.
- Subscriber.Receive: the copy from behind the receive buffer (`subscriber.c:119`) is left out; it lands in memory that is cleared before it is read.
- Socket set-up, `select`, `recv`, `accept` and `send` themselves: their results are inputs, `send` is recorded; failures and partial sends are not modelled.
- `command_exit`, `DIE` and console messages: process shutdown and text output.
- `inet_ntoa`, `strtok`, `atoi`, `printf`: the address is a dotted string below 16 bytes; the tokenising of console lines is not modelled beyond the newline it leaves.
- Requests split by TCP: a request arrives as whatever one recv returns, and is decoded over the bytes left from before, as in C; reassembly is not claimed.
- The UDP load generator and the test driver.
