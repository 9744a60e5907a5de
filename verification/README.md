# DTChat: a verified model of the message path

DTChat sends chat messages over delay-tolerant links and shows, per recipient, whether each one was
acknowledged. This project models the path such a message takes and proves what that path promises:

- **Codec.** A message becomes a protobuf, the protobuf becomes base64 text. Both layers are modelled
  byte by byte (`Protobuf`, `Schema`, `Base64`), with the reader as the field loop it is: unknown
  fields are skipped, repeated ones overwrite, wrong wire types and stray end-group keys are errors.
  `WireFormat` states the bytes themselves, against the numbers of the schema.
- **Damage.** On its way through AF_BP and ION a payload gains a length byte, loses its last byte, and
  runs on into stray heap bytes. `Legs` says what the decoder, which tries offsets 0 and 1, makes of it:
  after the send leg alone exactly the sent message or nothing, by the length modulo 3. `StrayHeap`
  settles the stray bytes: over both legs a message is safe from every heap if and only if its protobuf
  length is 1 modulo 3, over the receive leg alone if and only if it is not 0. `Misreadings` settles
  the wire lengths: 48, 52 and 56 are exactly those for which the length byte can be read as text (the
  application's own messages never have them).
- **Message list.** `ChatModels` holds the class with its binary-search insertion, stable re-sorting
  and in-place acknowledgement, and proves order and contents over whole runs.
- **Mesh.** `Mesh` puts nodes, the codec and the list together as a transition system over a network
  that delivers, drops and duplicates; deliveries decode real wire bytes. `MeshInvariant`, `MeshSteps`
  and `MeshRuns` prove that no delivery is lost track of, that acknowledgements are honest, and that
  traffic dies out; `MeshArrivals` counts the copies each recipient has, marked messages included;
  `MeshExchange` shows that exchanges complete. `Handlers` holds the sending and
  receiving handlers as methods and ties them to the steps.
- **AF_BP table.** `AfBp` models the kernel's socket list and queues and the daemon's request/deliver
  cycle as classes over a value-level machine; `AfBpRuns` proves uniqueness, most-recent-binding
  delivery, first-in-first-out conservation and the bound by requests.
- **Endpoint ids.** `Eid` follows an ipn address through parser, kernel checks, daemon printing and the
  prediction key.
- **Bridge.** `Bridge` models the AAP2 bridge's inbound loops over an environment whose every answer is
  recorded, and proves that an ADU is reported as delivered if and only if it was handed over.

Strings are sequences of bytes with a UTF-8 predicate, times are nanoseconds in chrono's range, and
fixed-width integers are subset types. What the environment decides (uuids, clocks, predicted arrivals,
network and socket outcomes) is a parameter or a step of its own. A frame that cannot
be sent (`GenericSocket::new` or `send` returning an error) is a sent frame that is dropped.

Code and comments differ in one place that matters: the comment in `src/utils/proto.rs:42-44` says the
send leg drops a `=` pad and the receive leg may append stray bytes, and that both are tolerated. The
send leg drops the last byte whatever it is, so a message whose protobuf length is a multiple of three is
lost (`Legs.DamagedFrame`). And stray bytes are told from the message only by a pad that is still there:
any message, of any content, whose length is not 1 modulo 3 can be changed unnoticed over both legs by
heap bytes that happen to be letters, which the decoder takes for further fields
(`StrayHeap.FieldsOverBothLegs`). The model follows the code.

## Model

| member | source | states |
|---|---|---|
| Base64.DecodeEncode | src/utils/proto.rs:34 | every byte string is what its own encoding decodes to |
| Base64.EncodeDecode | src/utils/proto.rs:84 | the engine is canonical: any text it accepts is the encoding of the result, pads and trailing bits included |
| Base64.UnpaddedInjective | src/utils/proto.rs:34 | different byte strings keep different encodings even without their pads |
| Base64.AlphabetExact | src/utils/proto.rs:1 | the letters are those of the standard alphabet, the pad is '=' |
| Base64.GroupIsBigEndian | src/utils/proto.rs:34 | three bytes are the same 24-bit number as their four letters |
| Base64.RestIsBigEndian | src/utils/proto.rs:34 | one or two bytes left over are padded with zero bits and with two pads or one |
| Bytes.ValidIsEncoding | src/utils/proto.rs:54 | every valid text is the encoding of some sequence of Unicode scalar values |
| Bytes.EncodingIsValid | src/utils/proto.rs:54 | every such encoding is a valid text |
| Adu.DecodeAduBase64 | src/utils/proto.rs:65-85 | the two scans, the length test and the re-padding loop compute the one-line meaning: decode the re-padded leading letters |
| Adu.TwoScans | src/utils/proto.rs:66-72 | scanning for alphabet-or-pad and then for the first pad finds the maximal run of non-pad letters |
| Adu.DecodeAduExact | src/utils/proto.rs:65-85 | the stage returns b if and only if b is non-empty and the leading letters are b's encoding without pads |
| Adu.PadsAndJunk | src/utils/proto.rs:63-85 | with any number of its pads left and any bytes behind, an encoding is recovered if and only if a pad is left or what follows does not start with a letter |
| Protobuf.ReadVarintOf | src/utils/proto.rs:31 | every 64-bit number is read back from its varint, whatever follows |
| Protobuf.ReadVarintCut | src/utils/proto.rs:54 | no proper prefix of a varint is read as a number |
| Protobuf.ReadFieldOf | src/utils/proto.rs:54 | a written field is read back with its number and payload, whatever follows |
| Protobuf.ReadFieldCut | src/utils/proto.rs:54 | a field cut short is not read as any field |
| Protobuf.MergeWritten | src/utils/proto.rs:54 | reading a written sequence of fields merges exactly those fields, in order |
| Protobuf.MergeCut | src/utils/proto.rs:54 | reading a cut copy fails or merges only a proper prefix of the fields |
| Protobuf.StrayEndGroup | src/utils/proto.rs:54 | a buffer that starts with an end-group key is rejected, whatever follows |
| Schema.ProtoRoundTrip | src/proto/message.proto:4-48 | every message with every kind of content decodes from its own encoding to itself |
| Schema.CutNeverHasContent | src/utils/proto.rs:54-58 | no proper prefix of an encoded message decodes to a message with content |
| WireFormat.MessageExact | src/proto/message.proto:4-16 | every message byte by byte, with the schema's numbers as literal keys, defaults left out and the content last |
| WireFormat.FileExact | src/proto/message.proto:23-31 | the same for file transfers |
| WireFormat.DeliveryExact | src/proto/message.proto:44-48 | the same for delivery statuses |
| WireFormat.VarintExact | src/utils/proto.rs:31 | a varint is seven bits a byte, least significant first, and as short as it can be |
| WireFormat.ReadVarintExact | src/utils/proto.rs:54 | exactly which byte sequences are read as a number, and as which: up to ten bytes, the tenth at most 1 |
| WireFormat.SignedExact | src/proto/message.proto:7 | negative timestamps travel as 64-bit two's complement |
| WireFormat.BadKeys | src/utils/proto.rs:54 | keys with wire type 6 or 7, without a field number or beyond 32 bits are errors |
| WireFormat.FixedAreSkipped | src/utils/proto.rs:54 | fields of 64 and 32 bits are skipped whole, or are errors when cut |
| WireFormat.GroupsAreSkipped | src/utils/proto.rs:54 | unknown groups are skipped to their end if and only if at most a hundred lie one in another |
| WireFormat.GroupsMustMatch | src/utils/proto.rs:54 | a group closed under another field's number is an error |
| WireFormat.FieldsExact | src/proto/message.proto:4-16 | known fields must have their wire type and UTF-8 text, the last one wins, unknown ones change nothing |
| WireFormat.InnerFieldsExact | src/proto/message.proto:18-48 | the same inside the contents, with 32-bit numbers cut to their low bits |
| WireFormat.ContentsExact | src/proto/message.proto:10-15 | a content field merges into content of its own kind and replaces any other |
| Messages.StampInPlace | src/utils/message.rs:64-74 | the loop over deliveries stamps what the specification stamps, and answers whether it found one |
| Messages.StampFirstExact | src/utils/message.rs:66-73 | only the first delivery to the acker changes, and only its stamp; with none, nothing changes |
| Messages.MarkAckAnswer | src/utils/message.rs:64-74 | the answer is true if and only if the message is one of ours with a delivery to the acker |
| Messages.MarkAckAdvances | src/utils/message.rs:64-74 | marking changes nothing but stamps and never removes one |
| Messages.MillisRoundTrip | src/utils/proto.rs:100-130 | a time sent as milliseconds comes back floored to the millisecond, for every time |
| Codec.DecodeProtoTolerant | src/utils/proto.rs:45-61 | the loop over the two offsets returns the first attempt that yields a message with content |
| Codec.AttemptOnEncoding | src/utils/proto.rs:51-58 | an attempt whose base64 stage gives a message's encoding yields that message |
| Codec.WireWithJunk | src/utils/proto.rs:42-61 | a wire text with some pads lost and junk behind decodes to its message whenever a pad is left or the junk does not start with a letter |
| Codec.WireRoundTrip | src/utils/proto.rs:27-61 | the undamaged wire of any message with content decodes to that message |
| Codec.ChatRoundTrip | src/utils/proto.rs:27-40 | every chat message comes back with its uuid, text and reply, its time floored to milliseconds and its sender looked up among the peers |
| Messages.FindPeerExact | src/utils/proto.rs:87-89 | the sender is the first listed peer with the uuid |
| Codec.AckRoundTrip | src/utils/ack.rs:33-71 | every ACK comes back with its message uuid, acker, read flag and time floored to milliseconds |
| WireFormat.ApplicationMessages | src/utils/proto.rs:99-117 | what the application writes for a chat message and for an ACK, field by field, times floored to milliseconds |
| WireFormat.ExtractExact | src/utils/proto.rs:119-162 | what comes of each kind of content; nothing exactly when there is none or the time is out of range |
| WireFormat.FileText | src/utils/proto.rs:141-144 | the placeholder shown for a file |
| WireFormat.PresenceText | src/utils/proto.rs:145-148 | the placeholder shown for a presence update |
| Handlers.UnlistedSender | src/utils/proto.rs:87-125 | a message from an unlisted sender is shown as from the default peer and acknowledged to nobody, unless a listed peer goes by its uuid |
| Legs.WireIsNulFree | src/utils/proto.rs:32-34 | wire text holds no NUL |
| Legs.CStringOfPayload | bp-socket/daemon/ion.c:76-85 | the C-string cut takes nothing off a NUL-free payload and adds the heap up to its first NUL |
| Legs.OddLetterIsEndGroup | src/utils/proto.rs:47-53 | text that starts with an odd letter and one of the first sixteen decodes to bytes that start with an end-group key |
| Legs.OffsetZeroFails | src/utils/proto.rs:42-53 | the attempt at offset 0 never accepts a length byte in front of a wire, unless the length is 48, 52 or 56 |
| Legs.DamagedFrame | bp-socket/daemon/ion.c:15-22 | after the send leg: the message itself when the protobuf length is 1 or 2 modulo 3, nothing when it is 0 |
| Legs.BothLegs | bp-socket/daemon/bp_genl_handlers.c:78-95 | what both legs leave for heaps that do not go on with a letter, by the length modulo 3; for length 1 modulo 3 the message itself for every heap (the rest is `StrayHeap.BothLegsExact`) |
| StrayHeap.BothLegsExact | bp-socket/daemon/ion.c:15-85 | over both legs, a message comes out unchanged or not at all for every heap, and also comes out for every heap, if and only if its protobuf length is 1 modulo 3 |
| StrayHeap.FieldsOverBothLegs | src/utils/proto.rs:63-85 | otherwise, for any further fields there is a heap that makes the decoder merge them into the message |
| StrayHeap.FieldsBehind | src/utils/proto.rs:54 | fields behind an encoded message are merged into it, in order |
| StrayHeap.EncodingGoesOn | src/utils/proto.rs:63-85 | when a length is 0 or 2 modulo 3, an encoding is a prefix of the encodings of longer data that start with a small byte |
| Legs.ReceiveLegAlone | src/utils/proto.rs:32-34 | after the receive leg alone, the message for every heap if the wire ends in a pad, else for every heap that does not go on with a letter |
| StrayHeap.ReceiveLegExact | src/utils/proto.rs:32-34 | over the receive leg alone, the message comes out for every heap, or is at least never changed, if and only if its protobuf length is not 0 modulo 3 |
| Legs.ApplicationWireIsOnSendLeg | src/utils/proto.rs:99-117 | whatever the application sends has a wire of at least 68 bytes, so the exactness above covers it |
| Legs.ChatOverBothLegs | src/utils/proto.rs:37-61 | a chat message over both legs deserializes as the undamaged one would, or to nothing when its length is 0 modulo 3; for lengths other than 1 modulo 3 the heap must not go on with a letter |
| Legs.OneStrayLetter | src/utils/proto.rs:63-85 | when the lost byte was a letter and the heap goes on with one letter, the decoder reads the protobuf with that letter's bits at its end |
| Legs.StrayLetterGoesUnnoticed | src/utils/proto.rs:63-85 | for a reply-less text that is a text with a changed last character, if it is still UTF-8 |
| Legs.AckSize | src/utils/ack.rs:39-51 | an unread ACK takes 98 bytes and the acker's id, hence 100 between two-character ids |
| Legs.AckOverBothLegs | src/utils/ack.rs:39-71 | when the length of the acker's id is 2 modulo 3, an ACK survives both legs whatever the heap holds |
| StrayHeap.AckExact | src/utils/ack.rs:39-71 | an ACK survives every heap if and only if the length of the acker's id is 2 modulo 3 |
| Misreadings.ShiftedLetters | src/utils/proto.rs:47-53 | what the attempt at offset 0 reads when the length byte is a letter: the same bits, six places on |
| Misreadings.LengthsExact | src/utils/proto.rs:42-61 | the send leg changes no message with a wire of n bytes if and only if n is not 48, 52 or 56 |
| Misreadings.Misread48 | src/utils/proto.rs:45-61 | a message with a wire of 48 bytes that the send leg turns into a different message |
| Misreadings.Misread52 | src/utils/proto.rs:45-61 | one with a wire of 52 bytes |
| Misreadings.Misread56 | src/utils/proto.rs:45-61 | one with a wire of 56 bytes |
| Misreadings.StrayLetterChangesText | bp-socket/daemon/ion.c:76-85 | a message with text AAA that arrives over both legs as AAB |
| ChatModels.CmpIsTotalPreorder | src/app.rs:37-56 | both comparators are total preorders |
| ChatModels.BinarySearch | src/app.rs:101-111 | the halving loop finds the insertion point of the specification |
| ChatModels.SearchFromSplits | src/app.rs:101-111 | on a sorted list nothing before the insertion point is greater and nothing from it on is less |
| ChatModels.AddKeepsOrder | src/app.rs:101-112 | adding keeps the list sorted and adds exactly the new message |
| ChatModels.StableSortCorrect | src/app.rs:123-132 | sorting gives a sorted permutation that keeps the order of ties |
| ChatModels.StableSortIsUnique | src/app.rs:123-132 | there is only one such list, so the specification is `sort_by` |
| ChatModels.SortedExact | src/app.rs:28-56 | a list is in Standard order if and only if it is in arrival order, and in Relative order if and only if it is as that peer saw it |
| ChatModels.RelativeOrder | src/app.rs:43-56 | after choosing a peer, messages stand by that peer's sending times, others' arrival times and our sending times, pair by pair |
| ChatModels.ArrivalOrder | src/app.rs:28-41 | in Standard order, messages stand by arrival if received, by sending if ours, then by sending |
| ChatModels.StandardThenRelative | src/app.rs:37-56 | switching from Standard to one peer's view orders by that peer's times, then arrival, then sending time |
| ChatModels.SwitchToSilentPeer | src/app.rs:44-56 | switching to a peer that authored no received message changes nothing |
| ChatModels.BackToStandard | src/app.rs:123-132 | returning to Standard restores the sequence of arrival and sending times |
| ChatModels.AckInExact | src/app.rs:134-147 | only the first message with the uuid is marked; with none, nothing changes |
| ChatModels.AckInAnswer | src/app.rs:134-147 | the answer is true if and only if the first message with the uuid is one of ours with a delivery to the acker |
| ChatModels.RunKeepsList | src/app.rs:101-147 | after any adds, sorts and ACKs the list is sorted under the selected strategy and its messages, stamps aside, are the initial ones and all added ones |
| ChatModels.RunAdvances | src/app.rs:134-147 | over any run every message keeps all its stamps |
| ChatModels.ChatModel.AddMessage | src/app.rs:101-121 | the new list is the old one with the message inserted, still sorted, and the one event raised says so in the source's words |
| ChatModels.ChatModel.SortMessages | src/app.rs:123-132 | the new list is the old one stably sorted under the new strategy |
| ChatModels.ChatModel.UpdateMessageWithAck | src/app.rs:134-147 | the loop marks what the specification marks and answers whether a delivery was stamped |
| ChatModels.ChatModel.OnAckReceived | src/app.rs:156-171 | the model is updated, and an event is raised only if a delivery was stamped |
| Controller.AckEndpointIsBest | src/utils/socket.rs:455-487 | the endpoint chosen is of the family the message came in on if there is one, otherwise valid and the best of BP, TCP, UDP |
| Controller.AckEndpointOfFamily | src/utils/socket.rs:460-469 | the first endpoint of the family the message came in on is chosen, valid or not |
| Controller.UsableExact | src/utils/socket.rs:49-127 | an endpoint gets a socket if and only if it is two accepted numerals in ipn form, or an IP address that parses |
| Controller.ValidExact | src/utils/socket.rs:34-47 | a Bp address is valid if and only if it has a known scheme and no placeholder in it |
| Controller.DecimalIsUsable | src/utils/socket.rs:77-91 | every decimal ipn address is valid and usable |
| Controller.DecimalIsAcked | src/utils/socket.rs:418-451 | a listed sender with such an endpoint gets an ACK for every unmarked message |
| Controller.AckTargetExact | src/utils/socket.rs:418-451 | nobody gets an ACK exactly when the text is marked, the sender is not listed, no endpoint can be chosen or no socket made; else the sender does |
| Controller.AckedUnlessMarked | src/utils/socket.rs:418-451 | with a reachable sender among the peers, exactly the messages not marked [ACK] are acknowledged, to their sender |
| Handlers.ManageSend | src/layout/rooms/message_prompt.rs:47-131 | the message is listed once with one unstamped delivery per recipient; a copy goes out for exactly the other peers whose first endpoint gets a socket, an error is raised for exactly those whose first endpoint does not |
| Handlers.RecipientsExact | src/layout/rooms/message_prompt.rs:51-56 | recipients are the peers with endpoints other than the local one, in order |
| Handlers.OnSendError | src/layout/rooms/message_prompt.rs:112-119 | a copy whose send fails raises one error naming the peer |
| Handlers.ManageSendIsSend | src/layout/rooms/message_prompt.rs:47-131 | for a node's own message this is the mesh's Send step, of whose frames those without a socket are dropped |
| Handlers.DefaultSocketController.SendAckIfNeeded | src/utils/socket.rs:418-451 | nothing goes out exactly when the text is marked, there is no local peer, the sender is not listed, no endpoint can be chosen or no socket made; else one ACK for the message, to its sender |
| Handlers.DefaultSocketController.HandlePayload | src/utils/socket.rs:235-260 | a chat payload is acknowledged and listed as received, an ACK payload marks, anything else changes nothing; and the events raised are those |
| Handlers.HandlingIsDeliverAndNotify | src/utils/socket.rs:243-254 | the handler is the mesh's Deliver step, followed for a chat message by its Notify step |
| MeshSteps.ReceiveChatIs | src/utils/socket.rs:240-248 | delivering a chat frame's bytes leaves its copy pending and answers with an ACK unless it is marked |
| MeshSteps.NextKeeps | src/utils/socket.rs:240-260 | every step of the mesh keeps the invariant |
| MeshRuns.ReachableIsGood | src/utils/socket.rs:240-260 | the invariant holds in every reachable state, loss and duplication included |
| MeshRuns.FramesAddUp | src/layout/rooms/message_prompt.rs:47-89 | for each delivery of an unmarked message: frames in flight, dropped, and ACKs handled make one more than the frames duplicated; stamped means an ACK was handled |
| MeshRuns.NothingLostTrackOf | src/layout/rooms/message_prompt.rs:47-89 | without duplication each such delivery is in exactly one place: chat in flight, ACK in flight, dropped, or acked |
| MeshRuns.QuietMeshIsAcked | src/utils/message.rs:64-74 | when the network is empty and dropped nothing, every such delivery is acked, even with duplication |
| MeshRuns.SentStaysListed | src/layout/rooms/message_prompt.rs:81-88 | every sent message stays in its sender's list, exactly once, changed at most in its stamps |
| MeshRuns.ListsStaySorted | src/app.rs:101-132 | every node's list is sorted in every reachable state |
| MeshArrivals.CopiesAddUp | src/layout/rooms/message_prompt.rs:81-88 | for every sent message, marked or not, and recipient: chat frames in flight, those dropped and the copies the recipient has make one more than the chat frames duplicated |
| MeshArrivals.HadAtMostOnce | src/utils/socket.rs:240-254 | without duplication nobody has a message twice, and in a quiet mesh that dropped nothing everybody has it exactly once |
| MeshArrivals.ReceivedAsSent | src/utils/socket.rs:240-254 | what anybody received under a sent message's uuid is that message, unchanged, and was addressed to them |
| MeshArrivals.QuietMeshLists | src/utils/socket.rs:489-496 | in a quiet mesh that dropped nothing, each recipient whose observers were told lists each message as sent |
| MeshRuns.AckedMeansRecorded | src/utils/socket.rs:244-252 | a stamped delivery means the named peer lists the message or is about to, and the message is not marked |
| MeshRuns.AckInFlightMatches | src/utils/socket.rs:418-451 | an ACK in flight is for a message its addressee lists as sent, with a delivery to the acker, who has the message |
| MeshRuns.DeliveryCreates | src/utils/socket.rs:243-254 | delivering a chat frame creates at most one frame, an ACK; delivering an ACK creates none |
| MeshRuns.DeliveryLightens | src/utils/socket.rs:243-254 | twice the chat frames plus the ACKs in flight strictly decreases on every delivery |
| MeshRuns.NoAckStorm | src/utils/socket.rs:323-349 | over any run, the frames delivered or dropped are at most the initial weight plus two per recipient addressed and two per duplication |
| MeshExchange.ExchangeIsStamped | src/utils/socket.rs:243-254 | from every reachable state: delivering an unmarked chat frame and then the ACK it brings about leaves the sender's delivery stamped |
| MeshExchange.ExchangesHappen | src/layout/rooms/message_prompt.rs:47-89 | a mesh of two nodes with any endpoints in order has a reachable state with such a stamp and an empty network, so the theorems about reachable states are not about nothing |
| MeshExchange.ExchangesHappenOverBp | src/utils/socket.rs:77-91 | in particular over BP between any two ipn addresses, without any IP address |
| MeshExchange.ExchangesHappenOverTcp | src/utils/socket.rs:161-169 | and over TCP between any two addresses that parse |
| Eid.ParseOfPrintEid | src/utils/socket.rs:77-91 | printing then parsing is the identity on all pairs of 32-bit numbers, within the daemon's 64-byte buffer |
| Eid.SentEidIsCanonical | bp-socket/daemon/bp_genl_handlers.c:22-33 | an address gets through if and only if it parses to node 1 to 2^31-1 and service 1 to 255; what leaves names the same two in canonical numerals, and is the address itself if and only if that was canonical |
| Eid.IonIdOfAddress | src/layout/rooms/message_prompt.rs:14-21 | the id cut from an accepted address is its node numeral, which is the node's canonical name if and only if it is written canonically |
| Eid.PredictionKey | src/layout/rooms/message_prompt.rs:33-41 | a peer's prediction key: its uuid without a Bp endpoint, else the node numeral of the first one, canonical if and only if configured so |
| Eid.ExtractExact | src/layout/rooms/message_prompt.rs:14-21 | what is cut from any address at all, accepted or not |
| Eid.ParsedIsPrintedIff | src/utils/socket.rs:86-91 | a numeral the parser accepts is its value's printed form if and only if it has no sign and no leading zero |
| Eid.NumberExact | src/utils/socket.rs:86-91 | exactly which texts are numbers, and which |
| Eid.SockaddrExact | src/utils/socket.rs:70-126 | exactly which addresses are accepted, and as what |
| AfBp.Kernel.Bind | bp-socket/bp_socket/af_bp.c:86-161 | the socket is put at the head of the list, or the error of the first failing check is returned and nothing changes |
| AfBp.BindExact | bp-socket/bp_socket/af_bp.c:95-154 | who gets an address, and which error who does not, against the interface's numbers |
| AfBp.RequestExact | bp-socket/bp_socket/bp_genl.c:112-153 | a request is for the asking socket's service, service 0 if it was never bound |
| AfBp.Kernel.Release | bp-socket/bp_socket/af_bp.c:163-184 | the socket leaves the list, its queue is purged and it is dead |
| AfBp.Kernel.RequestBundle | bp-socket/bp_socket/af_bp.c:268 | one request for the socket's service, if it gets through |
| AfBp.Kernel.FinishReceive | bp-socket/bp_socket/af_bp.c:270-319 | for any socket, listed, released or never bound: the oldest payload is returned if and only if it fits, the copy succeeds, the wait was not interrupted and the socket is not dead; each error has its own exact condition; a payload that is too large or cannot be copied is taken too |
| AfBp.TakeExact | bp-socket/bp_socket/af_bp.c:297-315 | the same of the table's step |
| AfBp.Kernel.DeliverBundle | bp-socket/bp_socket/bp_genl.c:155-205 | the payload is appended to the queue of the first listed socket of the service, or dropped |
| AfBp.Kernel.HandleDeliverBundle | bp-socket/daemon/bp_genl_handlers.c:78-114 | a request is answered by at most one delivery |
| AfBpRuns.AddressesAreUnique | bp-socket/bp_socket/af_bp.c:133-154 | no two listed sockets share node and service, after any run |
| AfBpRuns.QueuesAreFifo | bp-socket/bp_socket/af_bp.c:260-319 | at every address, all payloads queued are, in order, those returned, discarded or purged followed by those still queued |
| AfBpRuns.EachRequestIsAnsweredOnce | bp-socket/daemon/bp_genl_handlers.c:40-114 | per service, requests taken up are those being served plus those answered, each once |
| AfBpRuns.QueuedAtMostAsked | bp-socket/bp_socket/af_bp.c:268 | at no address more was queued than was requested for its service |
| AfBpRuns.ScanFindsMostRecent | bp-socket/bp_socket/bp_genl.c:188-202 | the list scan finds the most recently bound live socket of the service, and none if and only if none is live |
| AfBpRuns.DeliveryGoesToMostRecent | bp-socket/bp_socket/bp_genl.c:155-205 | a bundle is queued at an address if and only if that is the most recently bound live one of its service; the node id plays no part |
| Bridge.ForwardInbound | scripts/aap2_bridge/aap2_bridge.py:150-177 | true if and only if some attempt's connection, sending of the whole payload and shutdown all returned; false only after 12 attempts or with the stop event set |
| Bridge.TryOnce | scripts/aap2_bridge/aap2_bridge.py:162-166 | one attempt succeeds if and only if those three calls return |
| Bridge.Drain | scripts/aap2_bridge/aap2_bridge.py:180-203 | a session's calls follow the protocol up to its end |
| Bridge.RunReceiver | scripts/aap2_bridge/aap2_bridge.py:206-240 | the calls of all sessions follow the protocol, and the loop ends only with the stop event set |
| Bridge.StatusTellsTheTruth | scripts/aap2_bridge/aap2_bridge.py:190-201 | SUCCESS is reported if and only if the ADU that arrived last was handed over by calls that returned; FAILURE only after 12 attempts or with the stop event set; nothing but its forwarding comes in between |
| Bridge.WhatFollows | scripts/aap2_bridge/aap2_bridge.py:185-203 | every announced ADU is read next, every keepalive leads back to the loop's top, a hand-over is reported at once |
| Bridge.WaitsAfterFailure | scripts/aap2_bridge/aap2_bridge.py:167-170 | after a failed attempt but the last, and after a failed setup, the bridge waits |
| Bridge.WaitsBetweenSessions | scripts/aap2_bridge/aap2_bridge.py:235-240 | between sessions it looks at the stop event and waits unless it is set |
| Bridge.LooksBeforeConnecting | scripts/aap2_bridge/aap2_bridge.py:159-162 | no connection is tried without a look at the stop event right before, which finds it not set |
| Bridge.SessionEnds | scripts/aap2_bridge/aap2_bridge.py:185-240 | a session ends only with the stop event set, closed by uD3TN, or after a call that raised |
| Bridge.EachAduIsAccountedFor | scripts/aap2_bridge/aap2_bridge.py:185-201 | announced ADUs are those answered, those cut off by a call that raised, and the one being dealt with |
| Bridge.AtMostOneCutOffPerSession | scripts/aap2_bridge/aap2_bridge.py:224-240 | a session cuts off at most one ADU |
| Bridge.ConnectionsAreBounded | scripts/aap2_bridge/aap2_bridge.py:144-203 | over all sessions, at most 12 connections for each ADU that arrived |

## Left out

- Views, menus, colours, avatars, plots and time formatting: user interface only.
- The prediction router: a library. A predicted arrival is an arbitrary optional time per recipient.
- Sockets, tokio tasks, netlink, ION and libevent calls: only their framing and the steps they induce.
- IP socket addresses: whether one parses is a parameter; ipn addresses are parsed byte by byte.
- UDP and BP receive buffers of 1024 bytes (src/utils/socket.rs:226): the mesh delivers whole payloads.
- Wires longer than 255 bytes on the AF_BP send leg: the one-byte length is the documented case.
- Mesh.State: assumes a consistent full mesh (unique uuids, mutual peer lists, reachable endpoints) and message uuids that are never drawn twice.
- MeshRuns.Init: nodes start with the model registered as observer; the start-up window before that is not modelled.
- Mesh.Frame: frames in the mesh arrive as they were sent or not at all; what the AF_BP legs do to the bytes is `Legs`.
- Protobuf.ReadRecord: a field is read whole before it is merged, while the generated decoder interleaves the checks; accepted inputs and results are the same. The payload of skipped field kinds is not kept.
- ChatModels.ChatModel: rooms and the prediction configuration are not fields, and observers appear as the log of events they were sent.
- Handlers.DefaultSocketController: has the one observer the application registers.
- Messages.ChatMessage: deliveries are values inside messages; the in-place loop over them is `StampInPlace`.
- AfBp.Kernel.Bind: a bind is one step; the gap between its two lock sections is not modelled, nor is a second successful bind of a listed socket, which would damage the kernel's list.
- AfBp.Kernel.FinishReceive: the wait is not a step of its own; it ends in any way at any time, so an empty queue after it gives EAGAIN.
- bp_sendmsg: its address checks are `Eid.KernelAccepts`; the copy to the daemon has no state.
- Allocation failures, mutex poisoning, logging, YAML loading, scripts and Makefiles.
- Bridge.World: environments that answer finitely often and then stop the bridge; a run that never stops is covered up to any point by one of these.
- The bridge's outbound half: each connection's bytes are passed on as one ADU, with no loop or retry to get wrong.
