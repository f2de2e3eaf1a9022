# The MQTT client, its wire codec and its packet readers, verified

A Dafny model of an embedded MQTT client (MQTT Version 3.1.1): the C++ `Client` with its session state, the C
client, the packet codec, and the blocking and non-blocking packet readers.  Each routine that
changes buffers or fields is a method over arrays and fields, proved against a function on values; what MQTT
promises is then proved of those functions, over all inputs, all fragmentations and all runs.

| files | what they hold |
|---|---|
| `Bytes`, `RemainingLength`, `FixedHeader` | fields, the base-128 length, the header byte and the frame of a packet |
| `PublishCodec`, `SubscribeCodec`, `UnsubscribeCodec`, `ConnectCodec` | serializers and deserializers, their inverse laws and where they fail |
| `KnownPackets` | whole packets, and the fronts of packets, as literal bytes |
| `Transport`, `PacketReader`, `NonBlockingReader`, `ReaderAgreement`, `PacketStream`, `PacketBoundaries` | the network and the clock, both readers, their agreement under every fragmentation, whole streams, and where a read leaves the stream |
| `TopicMatcher`, `MessageHandlers`, `QoS2Ids` | the topic matcher, the handler table, the table of incoming QoS 2 ids, packet ids |
| `Session`, `Timing` | the session as a state machine on values: its steps, their events and `Run`s of them; and what the steps have to do with clock and network |
| `Effects`, `PingTimers` | what a cycle shows to the outside: handler calls, bytes and return code, said without the functions that compute them; and when the keepalive timers run out |
| `QoS2Safety`, `AckOrder`, `InflightRetention`, `KeepAliveRuns` | theorems about every run |
| `Handshake`, `ClientHandshake`, `EndToEnd` | QoS 2 end to end: a sender, lossy connections, other traffic and the client |
| `CalmRuns`, `LostMessage`, `SlowReads`, `RefusedConnect` | runs in which the code fails, and that the conditions of the theorems are exact |
| `Client`, `ClientProperties` | the C++ client as a class that records its steps, and the theorems read off its fields |
| `CClient` | the C client as a class: what each call sends, delivers and returns, and that FAILURE leaves no connected session |

## How the environment is modelled

- The network is a script of answers to reads and writes, the clock a script of ticks, one for each look at a timer.
  A timer is the time, in milliseconds, at which it runs out.  After its script the clock has passed every deadline.
  Reading takes no time of its own.
- What a read gives is a function of the answers (`ReadOutcome`), what a send lets through one of answers, ticks and
  deadline (`Push`).
- Nothing is assumed about network and clock, with one exception.  `EndToEnd` asks that no read leaves the client inside
  a packet with the connection still standing (`Tidy`, which can be seen before the read): a length field that is
  broken off gives no packet, and a body comes up short, or is too long, only in a session.
  `PacketBoundaries.ReadsWholeExactly` shows that exactly then a read keeps to the boundaries of packets or ends the
  session; `SlowReads.SlowReadDeliversTwice` and `ShortBodyDeliversTwice` show what happens otherwise.
- A class client starts with what its network and clock have for it (`source`, `began`).  `Valid` says that its cycles
  have read just what came in (`Drawn`), and that each of its steps has met just the answers and the times that were
  there, one after the other (`Lived`).
- An out-parameter that a C function leaves unset keeps a previous value, and an uninitialised variable an
  arbitrary one.  Of a string that does not fit the length is stored and the data is not: it reads as the previous
  data up to that length, and zeros after it.  Reading past the end of a buffer gives zeros, so that every reader is
  total.
- A handler is known by a number; it does not call back into the client.  "Handed over" is handed to
  `deliverMessage`, which calls the handlers it finds (`MessageHandlers.DeliveryByFilter`).  `sendPacket`'s events
  say whether all of a packet went out or only its first bytes.
- Buffers for reading hold at least five bytes.  `char` is signed.  Both QoS options of the C++ client are on.

## What the code does where its documentation says otherwise

- "1 is success", of packets too short for their fields.  Where the topic of a PUBLISH, a filter of an UNSUBSCRIBE, the
  id of an acknowledgement or SUBACK, or the two bytes of a CONNACK do not fit, the deserializers return the number of
  length bytes, which is 1 for a one-byte length.  The packet ids of PUBLISH, SUBSCRIBE and UNSUBSCRIBE are not checked at all: they are
  taken from beyond the packet, with code 1 whatever the size of the length.  For each packet there is the exact
  condition (`PublishSuccessIsReal`, `AckSuccessIsReal`, `ConnackSuccessIsReal`, `SubackSuccessIsReal`,
  `SubscribeSuccessIsReal`, `UnsubscribeSuccessIsReal`) and there are failing inputs (`HalfReadTopicReportsSuccess`,
  `CutIdReportsSuccess`, `EmptyAckReportsSuccess`, `EmptyConnackAccepts`, `EmptySubackReportsSuccess`,
  `EmptySubscribeReportsSuccess`, `EmptyUnsubscribeReportsSuccess`, `CutFilterReportsSuccess`).  An empty CONNACK opens
  a session.
- An acknowledgement without an id is read as one for what an uninitialised variable holds (`AckReadsAs`): an empty
  PUBACK can empty the slot of any kept publish (`EmptyPubackEmptiesSlot`, `ClearedByItsIdExactly`).
- No SUBACK code is read as 0x80, because it is read as a signed `char` (`NoCodeIsFailure`, `CodesComeBackExactly`,
  `FailureCodeIsNegative`).  The C client asks for 0x80 before it installs the handler, so a refused subscription
  always installs it (`CClient.Client.Granted`).
- `MQTTSubscribe`, `MQTTUnsubscribe` and `MQTTPublish` can return SUCCESS with the session closed: a packet of an
  unexpected type closes it, but does not end the wait (`CClient.Client.Waitfor`).
- A length field whose bytes do not come in time is taken for what has come of it.  A PUBREL read that way frees the
  id that an uninitialised variable holds (`SlowReads.CutReleaseFrees`), and a QoS 2 message is handed over twice with
  no send failed and no connection lost (`SlowReads.SlowReadDeliversTwice`).
- `MQTTSerialize_connectLength` is 12 bytes short for any version other than 3 and 4 (`ConnectLengthExactly`), and
  a CONNECT with an empty password, or an empty user name at its end, is refused (`ConnectAcceptedExactly`).
- A ping outstanding when a connect fails stays outstanding (`FailedConnectLeavesPing` is such a run).  Once it is
  overdue no later connect with keepalive on and no publish kept can succeed, unless a PINGRESP comes or the session
  is closed by hand (`StalePingBlocksConnect`; `ConnackReturnsExactly` says when a cycle returns CONNACK).
- A PUBLISH that meets a full id table is acknowledged and handed to nobody (`FullTableLosesMessage`), and so
  exactly-once holds just when the table has a place for every exchange (`ExactlyOnceExactly`).
- `connect` replaces the result of CONNACK by that of the resent publish, so that a refused connect can return SUCCESS
  (`RefusedYetConnected`); SUCCESS means an accepted connection if and only if no publish is kept
  (`RefusedConnect.AcceptedExactly`).
- The matcher misses what section 4.7.1 matches under `+` and `#` with empty levels and at the parent level
  (`StandardMatchesMissed`).
- The C client's `sendPacket` asks for the whole length at every write, so that a first write that takes a part can make
  the counts add up to more than the length, and the send fail (`CClient.SecondWriteOvershoots`).
- A body that comes up short makes the C++ `readPacket` return 1, the type of CONNECT, and the C one return 0.

## Model

| member | source | states |
|---|---|---|
| RemainingLength.EncodingIsUniqueMinimalField | MQTTPacket/src/MQTTPacket.c:29-45 | section 2.2.3: the encoding of a length up to 268435455 is a field of one to four bytes, and the only minimal one with that value |
| RemainingLength.DecodeInvertsEncode | MQTTPacket/src/MQTTPacket.c:54-81 | decoding an encoded length, wherever it stands in a buffer, gives the length and its size back |
| RemainingLength.ReencodingNeverGrows | MQTTPacket/src/MQTTPacket.c:29-81 | re-encoding the value of any terminated field of at most four bytes takes no more bytes than the field had |
| RemainingLength.PacketLenIsSafe | MQTTPacket/src/MQTTPacket.c:84-98 | the size estimate is at least the size of the packet exactly up to 268435455, and one too large exactly at four lengths |
| RemainingLength.PacketEncode | MQTTPacket/src/MQTTPacket.c:29-45 | the loop writes exactly the encoding and nothing else |
| RemainingLength.PacketDecodeBuf | MQTTPacket/src/MQTTPacket.c:103-119 | the decoding loop over a buffer computes the value and the bytes of the first field |
| FixedHeader.HeaderFields | MQTTPacket/src/MQTTPacket.h:53-73 | the four bit-fields of a header byte do not disturb each other |
| Bytes.ReadString | MQTTPacket/src/MQTTPacket.c:215-235 | the string at the cursor and the bytes left, or nothing when the data is too short |
| Bytes.WriteString | MQTTPacket/src/MQTTPacket.c:178-207 | a string of either representation goes out as two length bytes and its content |
| Bytes.StringRoundTrip | MQTTPacket/src/MQTTPacket.c:194-235 | a written string of up to 65535 bytes is read back, with the cursor after it |
| PublishCodec.PublishRoundTrip | MQTTPacket/src/MQTTDeserializePublish.c:36-69 | deserializing a serialized PUBLISH gives every field back, the id only above QoS 0 |
| PublishCodec.SerializePublish | MQTTPacket/src/MQTTSerializePublish.c:31-91 | writes nothing and reports too short, or writes exactly the packet, its first byte 48 + 8 dup + 2 QoS + retain, within the buffer |
| PublishCodec.SerializeAck | MQTTPacket/src/MQTTSerializePublish.c:104-126 | the four bytes of an acknowledgement, or nothing in a shorter buffer |
| PublishCodec.DeserializePublish | MQTTPacket/src/MQTTDeserializePublish.c:36-69 | the buffer reader computes the deserializing function, early exits included |
| PublishCodec.DeserializeAck | MQTTPacket/src/MQTTDeserializePublish.c:82-107 | the same for acknowledgements |
| PublishCodec.AckRoundTrip | MQTTPacket/src/MQTTDeserializePublish.c:82-107 | kind, dup and id of every acknowledgement come back |
| PublishCodec.PublishSuccessIsReal | MQTTPacket/src/MQTTDeserializePublish.c:46-67 | when the return code 1 means that topic and id were there, in both directions |
| PublishCodec.HalfReadTopicReportsSuccess | MQTTPacket/src/MQTTPacket.c:215-235 | a PUBLISH that ends after its topic's length is read as one with a topic of that length and stale data |
| PublishCodec.CutIdReportsSuccess | MQTTPacket/src/MQTTDeserializePublish.c:56-65 | a QoS 1 PUBLISH that ends at its id is read with code 1, the id from beyond it and a payload of length -2 |
| PublishCodec.PayloadLengthNegative | MQTTPacket/src/MQTTDeserializePublish.c:56-65 | the payload length is negative exactly for packets that end inside their packet id |
| PublishCodec.AckSuccessIsReal | MQTTPacket/src/MQTTDeserializePublish.c:94-104 | when an acknowledgement's return code 1 means success, in both directions |
| PublishCodec.AckReadsAs | MQTTPacket/src/MQTTDeserializePublish.c:94-104 | an acknowledgement is read as one for an id if and only if it carries that id, or none while the variable for it holds that id |
| PublishCodec.EmptyAckReportsSuccess | MQTTPacket/src/MQTTDeserializePublish.c:94-104 | an empty PUBREL is read as carrying whatever id was there before |
| SubscribeCodec.SubscribeRoundTrip | MQTTPacket/src/MQTTSubscribeServer.c:35-75 | a SUBSCRIBE of any length comes back: dup, id, count, filters and QoS in order |
| SubscribeCodec.SubscribeOverflow | MQTTPacket/src/MQTTSubscribeServer.c:60-63 | a list longer than the room is refused after exactly the entries that fit |
| SubscribeCodec.SubscribeSuccessIsReal | MQTTPacket/src/MQTTSubscribeServer.c:45-75 | the return code 1 means an id and a list that fit if and only if there are two bytes for the id |
| SubscribeCodec.EmptySubscribeReportsSuccess | MQTTPacket/src/MQTTSubscribeServer.c:51-73 | an empty SUBSCRIBE is read with return code 1 and an id from beyond it |
| SubscribeCodec.SerializeSubscribe | MQTTPacket/src/MQTTSubscribeClient.c:50-88 | all or nothing: the exact packet within the buffer, its first byte 130 or with dup 138, or an unchanged buffer |
| SubscribeCodec.SubscribeLength | MQTTPacket/src/MQTTSubscribeClient.c:28-36 | the accumulated length is the length of what is written |
| SubscribeCodec.DeserializeSubscribe | MQTTPacket/src/MQTTSubscribeServer.c:35-75 | the loop stores the entries of the deserializing function in the two arrays |
| SubscribeCodec.SubackRoundTrip | MQTTPacket/src/MQTTSubscribeClient.c:100-135 | the granted codes come back in order, up to one more than the room asked for |
| SubscribeCodec.FailureCodeIsNegative | MQTTPacket/src/MQTTSubscribeClient.c:121-130 | the failure code 0x80 comes back as -128 with return code 1 |
| SubscribeCodec.NoCodeIsFailure | MQTTPacket/src/MQTTSubscribeClient.c:121-130 | for every buffer the codes read are between -128 and 127 |
| SubscribeCodec.CodesComeBackExactly | MQTTPacket/src/MQTTSubscribeClient.c:121-130 | the codes of a SUBACK come back as sent if and only if each is below 128 |
| SubscribeCodec.SubackSuccessIsReal | MQTTPacket/src/MQTTSubscribeClient.c:100-135 | when the return code 1 does mean success, in both directions |
| SubscribeCodec.EmptySubackReportsSuccess | MQTTPacket/src/MQTTSubscribeClient.c:113-115 | an empty SUBACK is read with return code 1 and no code |
| SubscribeCodec.SerializeSuback | MQTTPacket/src/MQTTSubscribeServer.c:88-116 | the exact SUBACK, given the room that its own check leaves out |
| SubscribeCodec.DeserializeSuback | MQTTPacket/src/MQTTSubscribeClient.c:100-135 | the loop stores exactly the codes of the deserializing function |
| UnsubscribeCodec.UnsubscribeRoundTrip | MQTTPacket/src/MQTTUnsubscribeServer.c:34-66 | an UNSUBSCRIBE of any length comes back: dup, id, count and filters in order |
| UnsubscribeCodec.UnsubscribeSuccessIsReal | MQTTPacket/src/MQTTUnsubscribeServer.c:34-66 | when the return code 1 means an id and filters that fit, in both directions |
| UnsubscribeCodec.EmptyUnsubscribeReportsSuccess | MQTTPacket/src/MQTTUnsubscribeServer.c:48-62 | an empty UNSUBSCRIBE is read with return code 1 and an id from beyond it |
| UnsubscribeCodec.CutFilterReportsSuccess | MQTTPacket/src/MQTTUnsubscribeServer.c:54-60 | a byte where a filter should be is read with return code 1 and no filter |
| UnsubscribeCodec.SerializeUnsubscribe | MQTTPacket/src/MQTTUnsubscribeClient.c:49-83 | all or nothing: the exact packet, its first byte 162 or with dup 170, or an unchanged buffer |
| UnsubscribeCodec.DeserializeUnsubscribe | MQTTPacket/src/MQTTUnsubscribeServer.c:34-66 | the loop stores the filters of the deserializing function and nothing else |
| ConnectCodec.ConnectRoundTrip | MQTTPacket/src/MQTTConnectServer.c:51-108 | section 3.1: CONNECT comes back field for field for versions 3 and 4, with any will, user name, password, flags and keepalive |
| ConnectCodec.ConnectAcceptedExactly | MQTTPacket/src/MQTTConnectServer.c:93-103 | a sound CONNECT is accepted exactly when no password comes without a user name and the last field is not empty |
| ConnectCodec.ConnectLengthExactly | MQTTPacket/src/MQTTConnectClient.c:27-48 | the precomputed length is the written length exactly for versions 3 and 4 |
| ConnectCodec.SerializeConnect | MQTTPacket/src/MQTTConnectClient.c:58-121 | all or nothing: the exact CONNECT within the buffer, its first byte 16, or an unchanged buffer |
| ConnectCodec.DeserializeConnect | MQTTPacket/src/MQTTConnectServer.c:51-108 | the flag-driven parser computes the deserializing function with all its early exits |
| ConnectCodec.ConnackRoundTrip | MQTTPacket/src/MQTTConnectClient.c:132-159 | session-present flag and return code come back |
| ConnectCodec.ConnackSuccessIsReal | MQTTPacket/src/MQTTConnectClient.c:132-159 | when the return code 1 does mean success, in both directions |
| ConnectCodec.EmptyConnackAccepts | MQTTPacket/src/MQTTConnectClient.c:144-148 | an empty CONNACK is read with return code 1, and to a client stands for an accepted connection |
| ConnectCodec.DeserializeConnack | MQTTPacket/src/MQTTConnectClient.c:132-159 | the CONNACK reader over a buffer, its early exits included |
| KnownPackets.FirstBytes | MQTTPacket/src/MQTTSubscribeClient.c:66-71 | section 2.2: the first bytes of PUBLISH, SUBSCRIBE, UNSUBSCRIBE and CONNECT as numbers |
| KnownPackets.SubscribeBytes | MQTTPacket/src/MQTTSubscribeClient.c:50-88 | a whole SUBSCRIBE as its eight bytes |
| KnownPackets.UnsubscribeBytes | MQTTPacket/src/MQTTUnsubscribeClient.c:49-82 | a whole UNSUBSCRIBE as its seven bytes |
| KnownPackets.PublishBytes | MQTTPacket/src/MQTTSerializePublish.c:55-91 | a whole retained PUBLISH of QoS 1 as its eight bytes, the id most significant byte first |
| KnownPackets.ShortPackets | MQTTPacket/src/MQTTConnectClient.c:170-212 | PINGREQ is 192 0 and DISCONNECT 224 0 |
| KnownPackets.ConnectFront | MQTTPacket/src/MQTTConnectClient.c:74-88 | section 3.1.2: CONNECT begins with 16 and its length, and its body with the name and level of the protocol, for both versions |
| KnownPackets.ConnectBytes | MQTTPacket/src/MQTTConnectClient.c:58-121 | a whole CONNECT with clean session and a keepalive of 60 seconds, as bytes |
| KnownPackets.FullConnectBytes | MQTTPacket/src/MQTTConnectClient.c:58-121 | a whole CONNECT with will, user name and password, as bytes: flags 236, and the fields in order |
| KnownPackets.FlagBits | MQTTPacket/src/MQTTConnectClient.c:90-102 | section 3.1.2.3: the flag bytes without a will |
| KnownPackets.ServerBytes | MQTTPacket/src/MQTTSubscribeServer.c:88-116 | CONNACK and a SUBACK with one code, as bytes |
| PacketReader.PacketRead | MQTTPacket/src/MQTTPacket.c:290-315 | the blocking reader computes its outcome, buffer and bytes consumed for every answer of the network |
| NonBlockingReader.MqttTransport.PacketReadNb | MQTTPacket/src/MQTTPacket.c:362-411 | one call of the three-state reader, from any place where it may have stopped |
| NonBlockingReader.MqttTransport.PacketDecodeNb | MQTTPacket/src/MQTTPacket.c:324-352 | the resumable length loop computes the loop over the bytes to come |
| ReaderAgreement.NonBlockingAgrees | MQTTPacket/src/MQTTPacket.c:362-411 | however the stream is cut, the non-blocking reader ends with the packet type, buffer prefix and consumed bytes of the uncut stream, and it ends once there is data enough |
| ReaderAgreement.BlockingReadsUncut | MQTTPacket/src/MQTTPacket.c:290-315 | on the uncut stream the blocking reader gives the same |
| ReaderAgreement.ReadersAgree | MQTTPacket/src/MQTTPacket.c:290-411 | the two readers agree, the packet that does not fit included |
| PacketStream.StreamRoundTrip | MQTTPacket/src/MQTTPacket.c:362-411 | a list of PUBLISH, SUBSCRIBE and UNSUBSCRIBE, serialized, joined, cut up anyhow, read and deserialized, is the list |
| PacketBoundaries.ReadsWholeExactly | MQTTClient/src/MQTTClient.h:412-478 | on a stream of packets a read takes the whole packet, or none of it, or ends its session, if and only if a broken length field gives no packet and a short or too long body comes only in a session |
| TopicMatcher.IsTopicMatched | MQTTClient/src/MQTTClient.h:493-522 | the two-cursor loop computes the matching function |
| TopicMatcher.CursorsMatchLevels | MQTTClient/src/MQTTClient.h:493-522 | on a well-formed filter matching is level by level: literal levels equal, `+` one non-empty level, `#` the rest |
| TopicMatcher.MatcherAgainstStandard | MQTTClient/src/MQTTClient.h:493-522 | against section 4.7.1: it matches exactly when the standard does and every wildcard faces a non-empty level |
| TopicMatcher.MatcherComplete | MQTTClient/src/MQTTClient.h:493-522 | so it misses nothing when the name has no empty level and as many levels as the filter |
| TopicMatcher.StandardMatchesMissed | MQTTClient/src/MQTTClient.h:503-521 | concrete names that the standard matches and the code does not |
| MessageHandlers.SetMessageHandler | MQTTClient/src/MQTTClient.h:809-849 | the two searches over the array compute the table update |
| MessageHandlers.SetRefines | MQTTClient/src/MQTTClient.h:809-849 | an update is insertion, replacement or removal in a bounded map; it fails exactly when the table is full and the filter new, or absent, and then changes nothing |
| MessageHandlers.HistoryRefinesMap | MQTTClient/src/MQTTClient.h:298-302 | every history of set, replace, remove and clean leaves the bounded map, with no filter in two slots |
| MessageHandlers.DeliverMessage | MQTTClient/src/MQTTClient.h:526-554 | the calls made, in order, and SUCCESS exactly when there was one |
| MessageHandlers.HitsInOrder | MQTTClient/src/MQTTClient.h:532-544 | every matching attached slot is called exactly once, in slot order |
| MessageHandlers.DeliveryByFilter | MQTTClient/src/MQTTClient.h:526-554 | a handler is called exactly when its bound filter matches level by level, the default handler exactly when none does |
| QoS2Ids.UseQoS2MsgId | MQTTClient/src/MQTTClient.h:349-361 | the first free place takes the id |
| QoS2Ids.FreeQoS2MsgId | MQTTClient/src/MQTTClient.h:364-375 | the first match is cleared |
| QoS2Ids.IsQoS2MsgIdFree | MQTTClient/src/MQTTClient.h:337-346 | whether the id is nowhere in the table |
| QoS2Ids.UseIds | MQTTClient/src/MQTTClient.h:349-361 | using a new id adds it to the set of ids held |
| QoS2Ids.FreeIds | MQTTClient/src/MQTTClient.h:364-375 | with no id held twice, clearing the first match removes the id |
| QoS2Ids.FullTable | MQTTClient/src/MQTTClient.h:349-361 | a table without a free place holds as many ids as it has places |
| QoS2Ids.PacketIdsPermute | MQTTClient/src/MQTTClient.h:83-99 | section 2.3.1: any 65535 ids in a row are 1 to 65535, each once |
| QoS2Safety.RunSafe | MQTTClient/src/MQTTClient.h:600-656 | in every run the table holds no id twice and exactly the ids delivered and not released |
| QoS2Safety.DeliveriesAreReleased | MQTTClient/src/MQTTClient.h:600-656 | between two deliveries with one QoS 2 id lies a clean session, or a PUBREL that carries the id, or none at all, and right after it a PUBCOMP for the id that went out whole |
| QoS2Safety.OnReleaseSafe | MQTTClient/src/MQTTClient.h:641-656 | an id is given up only after its PUBCOMP went out whole |
| AckOrder.AnswersInOrder | MQTTClient/src/MQTTClient.h:578-676 | section 4.6: with no failed send, what goes out besides PINGREQ is the in-order image of what comes in, ids kept, whatever packets of a server come between |
| AckOrder.CycleReplies | MQTTClient/src/MQTTClient.h:578-676 | one cycle answers a packet of a conforming peer with exactly the acknowledgement the protocol asks for |
| InflightRetention.SlotDecodes | MQTTClient/src/MQTTClient.h:1001-1019 | in every reachable state a slot in use deserializes as a PUBLISH with its id and QoS |
| InflightRetention.KeptUntilEnded | MQTTClient/src/MQTTClient.h:934-980 | in a persistent session the slot is unchanged until the acknowledgement that ends its delivery is taken, and empty after; that is one that carries its id, or none while an uninitialised variable holds the id |
| InflightRetention.AckedExactly | MQTTClient/src/MQTTClient.h:941-970 | taking an acknowledgement empties the slot if and only if it carries the slot's id, or none while the variable holds it; nothing else changes |
| InflightRetention.ClearedByItsIdExactly | MQTTClient/src/MQTTClient.h:941-970 | "cleared only by the acknowledgement with its id" holds if and only if an id is carried or the variable holds another one |
| InflightRetention.EmptyPubackEmptiesSlot | MQTTClient/src/MQTTClient.h:941-970 | an empty PUBACK ends the delivery of a publish whose id the variable happens to hold |
| InflightRetention.ResendsOriginal | MQTTClient/src/MQTTClient.h:775-781 | a connect after any such run hands over the bytes of the original publish |
| KeepAliveRuns.PingsAreSpaced | MQTTClient/src/MQTTClient.h:679-710 | between two PINGREQs that went out lies a PINGRESP, the end of a session or a fresh connect |
| KeepAliveRuns.DeadlineClosesSession | MQTTClient/src/MQTTClient.h:661-676 | a cycle that gets to its keepalive check fails exactly when a ping is overdue or a due one cannot go out, and leaves no connected session |
| KeepAliveRuns.OverduePingEndsSession | MQTTClient/src/MQTTClient.h:661-697 | in every run a cycle that looks past the deadline of an unanswered PINGREQ fails, and ends the session |
| KeepAliveRuns.DeadlineIsOfSender | MQTTClient/src/MQTTClient.h:698-707 | in every run that deadline is one keepalive interval after the PINGREQ went out |
| KeepAliveRuns.ConnackReturnsExactly | MQTTClient/src/MQTTClient.h:666-675 | a cycle that reads CONNACK returns it unless keepalive is on and a ping is overdue, or due and not to be sent |
| KeepAliveRuns.FailedConnectLeavesPing | MQTTClient/src/MQTTClient.h:731-790 | a fresh client's connect that ends with its ping outstanding and no session |
| Transport.PushEnds | MQTTClient/src/MQTTClient.h:385-393 | a send stops short only after an error or with its deadline passed |
| Transport.WillingNetwork | MQTTClient/src/MQTTClient.h:385-393 | a network that lets something through at every write, in time, lets everything through |
| Timing.CycleInOrder | MQTTClient/src/MQTTClient.h:578-710 | the times at which a cycle reads, answers and looks at its timers lie in the cycle, in order |
| Timing.LivedAt | MQTTClient/src/MQTTClient.h:380-409 | in a client's history each step met the clock and the write answers that were there at its time, and time only goes on |
| Timing.OverdueByClock | MQTTClient/src/MQTTClient.h:661-697 | a cycle begun after the deadline of an unanswered PINGREQ that gets to its check fails and ends the session |
| Effects.CycleCalls | MQTTClient/src/MQTTClient.h:600-639 | the handlers that a cycle calls, in order and with what message: those for the topic, when the cycle reads a whole PUBLISH that is not a QoS 2 message held already or without a place; nobody in every other cycle |
| Effects.MessageReachesHandlers | MQTTClient/src/MQTTClient.h:600-622 | so every legal message of QoS 0 or 1, and every new one of QoS 2 with a place for it, is handed as it was sent to every handler whose filter matches |
| Effects.CycleWire | MQTTClient/src/MQTTClient.h:578-710 | all that a cycle puts on the wire, as bytes: the acknowledgement [64, 80, 98 or 112, 2, id] that its packet asks for, then PINGREQ [192, 0] when one is due, each as far as it went out |
| Effects.CycleReturns | MQTTClient/src/MQTTClient.h:578-676 | what a cycle returns: the type of what was read, or FAILURE exactly for a QoS 3 message, an acknowledgement that does not read well, an answer cut short, or a ping overdue or cut short |
| Effects.IdleClientPings | MQTTClient/src/MQTTClient.h:698-707 | after a keepalive interval without a send, or without a receive, a cycle with nothing to read puts 192 0 on the wire, as far as network and clock let it through in a second, and nothing else |
| PingTimers.TimersFollow | MQTTClient/src/MQTTClient.h:395-401 | in every run the send timer runs out 1000 * interval after the last whole send, and the receive timer that long after the last packet read |
| PingTimers.PingsWhenDue | MQTTClient/src/MQTTClient.h:679-710 | in every run a cycle hands a PINGREQ to `sendPacket` if and only if it gets to its keepalive check with keepalive on and none outstanding, and a look comes an interval after the last whole send or the last packet read |
| PingTimers.NoPingTooSoon | MQTTClient/src/MQTTClient.h:477-478 | so none is sent less than an interval after both |
| KeepAliveRuns.StalePingBlocksConnect | MQTTClient/src/MQTTClient.h:731-790 | with keepalive on and no publish kept, an overdue ping left by a failed connect keeps every later one from seeing CONNACK |
| Handshake.ReadPubKeeps | MQTTClient/src/MQTTClient.h:600-639 | per id: taking a PUBLISH keeps the invariant, and hands over only what was not handed over |
| Handshake.ReadRelKeeps | MQTTClient/src/MQTTClient.h:641-656 | per id: taking a PUBREL keeps the invariant whether or not the answer gets out |
| Handshake.ReadReplyKeeps | MQTTClient/src/MQTTClient.h:600-656 | per id: the sender's reaction to PUBREC and PUBCOMP keeps the invariant |
| ClientHandshake.PublishCycle | MQTTClient/src/MQTTClient.h:600-639 | a cycle on a QoS 2 PUBLISH: handed over exactly with room and a new id, the table, and PUBREC |
| ClientHandshake.ReleaseCycle | MQTTClient/src/MQTTClient.h:641-656 | a cycle on a PUBREL: nothing handed over, PUBCOMP, and the id freed unless the send failed |
| ClientHandshake.AsideStep | MQTTClient/src/MQTTClient.h:578-676 | every other step leaves the table alone, hands over no QoS 2 message and sends no PUBREC or PUBCOMP |
| EndToEnd.MoveKeeps | MQTTClient/src/MQTTClient.h:600-656 | every move of sender, client and network, a read from the byte stream of packets included, keeps the invariant over sender, channels and id table |
| EndToEnd.AtMostOnce | MQTTClient/src/MQTTClient.h:600-656 | section 4.3.3: on every play whose reads keep to the boundaries of packets, or end the session, no message is handed over twice, and each as it was sent |
| EndToEnd.ExactlyOnce | MQTTClient/src/MQTTClient.h:600-656 | on those plays exactly once by the time the sender sees PUBCOMP, when the table has a place for every exchange that can be under way |
| EndToEnd.ShortReadEnds | MQTTClient/src/MQTTClient.h:464-474 | a body that comes up short or does not fit ends the session |
| LostMessage.FullTableLosesMessage | MQTTClient/src/MQTTClient.h:615-629 | a message that meets a full table is acknowledged and handed to nobody |
| LostMessage.SmallTableLoses | MQTTClient/src/MQTTClient.h:615-656 | from every start with a window larger than the table some play completes a message that is never handed over |
| LostMessage.ExactlyOnceExactly | MQTTClient/src/MQTTClient.h:600-656 | exactly-once holds on all those plays if and only if the table has a place for every exchange that can be under way |
| SlowReads.CutReleaseRead | MQTTClient/src/MQTTClient.h:412-478 | a PUBREL whose length byte is late is read as one of length zero, its other bytes left in the stream |
| SlowReads.CutReleaseFrees | MQTTClient/src/MQTTClient.h:641-656 | such a PUBREL is answered, and an id freed, for whatever an uninitialised variable holds |
| SlowReads.SlowReadDeliversTwice | MQTTClient/src/MQTTClient.h:412-656 | a run over one late byte in which a QoS 2 message is handed over twice, with no send failed and no session closed |
| SlowReads.ShortBodyDeliversTwice | MQTTClient/src/MQTTClient.h:466-474 | a run outside a session over one body that comes up short in which a QoS 2 message is handed over twice |
| Client.Client.constructor | MQTTClient/src/MQTTClient.h:327-333 | a fresh client: empty table, handlers and slot, not connected |
| Client.Client.WriteAll | MQTTClient/src/MQTTClient.h:385-393 | under arbitrary partial writes exactly as much of the packet goes out as the answers and the clock let through |
| Client.Client.SendPacket | MQTTClient/src/MQTTClient.h:380-409 | those bytes go out, SUCCESS exactly when they are the whole packet, and only then the send timer restarts at 1000 * interval from now |
| Client.Client.ReadPacket | MQTTClient/src/MQTTClient.h:447-490 | packet type, buffer and bytes taken from the network for every answer of the network; a whole packet, and only that, sets the receive timer to 1000 * interval from now |
| Client.Client.CleanSession | MQTTClient/src/MQTTClient.h:298-314 | every filter, the slot and every place of the table are emptied, the callbacks kept, and nothing else changed |
| Client.Client.CloseSession | MQTTClient/src/MQTTClient.h:318-324 | no ping, no connection; a clean session leaves slot and table empty, a persistent one everything as it was |
| Client.Client.Accept | MQTTClient/src/MQTTClient.h:610-622 | table and handler calls for a PUBLISH are those of the session |
| Client.Client.OnPublish | MQTTClient/src/MQTTClient.h:600-639 | the PUBLISH branch: state, wire, calls and code are those of the session |
| Client.Client.OnRelease | MQTTClient/src/MQTTClient.h:641-656 | the PUBREC and PUBREL branch, likewise |
| Client.Client.KeepAlive | MQTTClient/src/MQTTClient.h:679-710 | timers, ping flag, wire and code are those of the session, whose bytes `Effects.CycleWire` gives, for the looks at the clock and the answer to the PINGREQ that there were |
| Client.Client.Cycle | MQTTClient/src/MQTTClient.h:578-676 | one recorded step on what network and clock give: the handlers called and the bytes sent, both outright; the return code; the receive timer 1000 * interval after the read; connected after exactly when it was before and the code is that of an expected packet or of none |
| Client.Client.Waitfor | MQTTClient/src/MQTTClient.h:714-728 | cycles, with one look at the timer before each, until one returns the awaited type or a failure or the timer has run out, and no further; the code is that of the last, or FAILURE without one, and all the codes decide whether the session is up |
| Client.Client.Yield | MQTTClient/src/MQTTClient.h:559-575 | the same until one fails or the time is up; FAILURE exactly when the last one failed; connected after exactly when it was before and no cycle met an unexpected packet |
| Client.Client.FinishPublish | MQTTClient/src/MQTTClient.h:935-979 | the inner publish after its send: what is awaited, what is taken, and the session closed after any failure |
| Client.Client.Publish | MQTTClient/src/MQTTClient.h:984-1022 | the whole course of a publish: id, keeping in a persistent session, the exact packet on the wire as far as it goes, waiting for the awaited type, a failure or the timer's end, verdict |
| Client.Client.Republish | MQTTClient/src/MQTTClient.h:764-781 | a kept publish goes out again as far as it can, and its result replaces the one so far, whatever CONNACK said |
| Client.Client.Connect | MQTTClient/src/MQTTClient.h:731-790 | the whole course of a connect: CONNECT on the wire as far as it goes; connected exactly on SUCCESS; once CONNECT is out the result is that of the kept publish sent again, and without one that of the CONNACK that came last, or FAILURE after a failed cycle or with the time up |
| RefusedConnect.RefusedYetConnected | MQTTClient/src/MQTTClient.h:751-789 | from every unconnected state with a kept publish a course in which CONNACK refuses, and connect returns SUCCESS with the session up |
| RefusedConnect.AcceptedExactly | MQTTClient/src/MQTTClient.h:751-789 | SUCCESS means an accepting CONNACK on every course if and only if no publish is kept |
| Client.Client.Disconnect | MQTTClient/src/MQTTClient.h:1041-1050 | 224 0 goes out, as far as it goes, and the session is closed whatever becomes of it |
| Client.Client.SetTopicHandler | MQTTClient/src/MQTTClient.h:809-849 | the client's handler array after the call, and nothing else changed |
| ClientProperties.TableHoldsUnreleased | MQTTClient/src/MQTTClient.h:287-290 | the client's array holds no id twice and exactly the ids delivered and not released in its life |
| ClientProperties.PubbufDecodes | MQTTClient/src/MQTTClient.h:276-279 | the client's `pubbuf` deserializes whenever its slot is in use |
| ClientProperties.PublishIsRetained | MQTTClient/src/MQTTClient.h:984-1022 | a kept publish stays in the client's fields until the acknowledgement that ends it, with its id or with none, is taken |
| ClientProperties.CleanEndEmpties | MQTTClient/src/MQTTClient.h:298-324 | the end of a clean session, by call or by a failed cycle, leaves the slot empty, no id in the table and no filter |
| ClientProperties.TimersFollowTraffic | MQTTClient/src/MQTTClient.h:395-478 | the client's two timers run out 1000 * interval after its last whole send and its last packet read |
| ClientProperties.PingFlagIsHonest | MQTTClient/src/MQTTClient.h:258-260 | `ping_outstanding` says exactly that a PINGREQ went out and nothing settled it |
| ClientProperties.OverdueCyclesFail | MQTTClient/src/MQTTClient.h:661-697 | every cycle that the client began with its clock past the deadline of an unanswered PINGREQ, and that got to its check, failed and left no session |
| ClientProperties.PingDeadlineIsNear | MQTTClient/src/MQTTClient.h:698-707 | an outstanding PINGREQ went out in the past, at the end of its cycle, and is overdue one keepalive interval after that |
| ClientProperties.HandlersAreMap | MQTTClient/src/MQTTClient.h:265-271 | after any calls of the modelled methods the handler array is the bounded map of the calls and clean sessions so far |
| CClient.Client.Cycle | MQTTClient-C/src/MQTTClient.c:257-338 | what a cycle returns, exactly; who is called and what is answered, outright; [192, 0] when a ping is due; a session is up after it exactly when it was before and the code is that of an expected packet or of none, and when it ends a clean one leaves no filter |
| CClient.Client.SendPacket | MQTTClient-C/src/MQTTClient.c:34-56 | SUCCESS exactly when the counts of its writes, one look at the timer before each, add up to the length; the bytes that go out are those of the buffer from its front, as many as the counts say; the send timer |
| CClient.OneWriteSends | MQTTClient-C/src/MQTTClient.c:39-56 | one write that takes everything, in time, is enough for SUCCESS |
| CClient.SecondWriteOvershoots | MQTTClient-C/src/MQTTClient.c:39-56 | after a first write that takes a part a second one that takes all it is asked to makes the send fail |
| CClient.Client.SendWhole | MQTTClient-C/src/MQTTClient.c:34-54 | on SUCCESS the packet at the front of the buffer is on the wire, whole and once |
| CClient.Client.ReadPacket | MQTTClient-C/src/MQTTClient.c:109-148 | packet type, buffer, bytes taken and receive timer for every answer of the network |
| CClient.Client.OnPublish | MQTTClient-C/src/MQTTClient.c:277-302 | a PUBLISH that reads well is handed to every handler for its topic, and on SUCCESS answered with the bytes it asks for |
| CClient.Client.KeepAlive | MQTTClient-C/src/MQTTClient.c:212-236 | it fails exactly when a timer ran out at its look and a ping is unanswered or does not get out in a second; otherwise a due one puts 192 0 on the wire and is then outstanding, and one that is not due nothing |
| CClient.Client.Waitfor | MQTTClient-C/src/MQTTClient.c:395-408 | cycles until one returns the awaited type or a failure or the timer has run out, at least one when it has not at first; the session is up as all their codes say |
| CClient.Client.Yield | MQTTClient-C/src/MQTTClient.c:341-359 | FAILURE exactly when the last cycle failed, and then not connected; SUCCESS only with the time up, and then connected exactly when it was before and no cycle met an unexpected packet |
| CClient.Client.Publish | MQTTClient-C/src/MQTTClient.c:617-676 | FAILURE leaves no session, no ping and of a clean session no filter; on SUCCESS the exact PUBLISH is on the wire, whole, and the awaited acknowledgement came last; once the packet is out, SUCCESS exactly when an acknowledgement that came last is read with code 1 |
| CClient.Client.Subscribe | MQTTClient-C/src/MQTTClient.c:517-562 | on SUCCESS the exact SUBSCRIBE is on the wire, whole, SUBACK came last, and the handler is bound to the filter unless that SUBACK does not read with code 1; once the packet is out and SUBACK has come last in a session still up, the code and the handler table are those of setting the handler; FAILURE leaves no session |
| CClient.Client.Granted | MQTTClient-C/src/MQTTClient.c:541-551 | the handler goes in exactly when the SUBACK is read with code 1, refused or not |
| CClient.Client.Unsubscribe | MQTTClient-C/src/MQTTClient.c:573-614 | on SUCCESS the exact UNSUBSCRIBE is on the wire, whole, and the handler for the filter is gone; once the packet is out, SUCCESS exactly when UNSUBACK came last; FAILURE leaves no session |
| CClient.Client.Disconnect | MQTTClient-C/src/MQTTClient.c:679-700 | SUCCESS exactly when 224 0 went out; no session afterwards, and of a clean one no filter |
| CClient.Client.Connect | MQTTClient-C/src/MQTTClient.c:413-465 | connected afterwards exactly on SUCCESS, with the exact CONNECT on the wire, which is when CONNACK came last and its code, as read, accepts; interval, clean flag and receive timer are set; a call while connected fails and changes nothing |

## Left out

- Sockets, platform timers, threads and mutexes: scripts of answers and ticks stand for them.
- `MQTTFormat.c`, logging and the member-function casts of `FP.h`: printing and callback plumbing.
- The C++ client's `subscribe` and `unsubscribe`: their steps are those of `connect` without the kept publish; the C client's are modelled.
- Exactly-once for outgoing QoS 2: `pubrel` is never set, so the resend of PUBREL is dead code; retention of the PUBLISH is proved instead.
- `keepAliveInterval` before the first connect, which the constructor leaves unset: taken as 0.
- `ping_sent` is one timer for all clients of a program; one client is modelled.
- An `MQTTString` with both representations filled in: each value has one.
- `writeInt` of a string longer than 65535 bytes: lengths are written modulo 65536, and the round trips ask for no more.
- `MQTTSerialize_connack` and `MQTTSerialize_unsuback`: a server's two short packets; only their bytes are used.
- Length fields that do not end within four bytes: the two readers differ there.
- CClient.Client.SendPacket: each write asks for the whole length again and may read past the buffer, which is undefined in C; the bytes beyond it are zeros here.
- Bytes.Peek: a read past the end of a buffer, undefined in C, is a zero.
- EndToEnd.AtMostOnce: a switch from a persistent to a clean session is not a move of the play; and neither are reads in which a broken length field gives a packet, or in which a body comes up short or is too long outside a session, because the code then fails (`SlowReads.SlowReadDeliversTwice`, `SlowReads.ShortBodyDeliversTwice`).
- LostMessage.ExactlyOnceExactly: for read buffers of at least six bytes, the size of the smallest PUBLISH of QoS 2.
- PublishCodec.DeserializePublish: the data pointer of a topic that did not fit, which is null or stale in C, is some previous data; what the C code reads through it is undefined.
