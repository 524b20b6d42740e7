# A verified model of the Zenoh client and its ROS2 layer

This project models the protocol logic of a `no_std` Zenoh version 9 client with a ROS2 layer, and proves what that
logic promises. Each source file that changes state step by step is modelled by methods over buffers, queues and
objects; what they compute is given by functions, and the results below are lemmas about those functions, for every
input, every run or every interleaving.

What is modelled, file by file:

- `Common`, `Writer`, `Utf8`: bytes, little-endian numbers, a buffer that is filled from the front, RFC 3629.
- `VByte`, `Grammar`, `Encode`, `Decode`, `Completeness`: the wire codec. `Grammar` gives the messages and their bytes
  as data; the encoders append exactly these bytes, and the decoders read every message of the grammar back.
- `Others`, `Attachments`, `Vectors`, `CdrVectors`: what the decoders pass over or refuse, what a ROS2 peer reads from an
  attachment, and the formats in literal bytes, among them the strings of the library's own tests.
- `Cdr`, `CdrProofs`, `CdrCanonical`, `CdrCodec`: CDR, section 9.3 of CORBA 3.3 Part 2, over a recursive universe of types and values.
- `Names`, `Liveliness`: topic keys, QoS strings and liveliness tokens.
- `Transmit`, `Packing`, `Failures`, `Drain`, `Refinement`, `Numbering`, `Runs`, `Arrivals`: what draining the publishers puts
  on the wire, what a failed write loses, why batching changes nothing, the numbers of the frames, what all of this
  comes to over runs of connections, and messages that arrive during a drain.
- `Queues`, `Routing`, `Delivery`, `Fragments`, `Receive`: the publisher and subscription queues, local and network
  delivery and runs of them, reassembly, and waiting for the answer to a service call.
- `Framing`, `Handshake`, `Node`, `Calls`, `Session`: length-prefixed frames over a link, opening a session, the node with its
  tables, counters, declarations, service calls and spin loop, and whole sessions of operations on a node.
- `Senders`, `Clock`: interleaved senders of one publisher; timers, how long nothing is sent, and reconnection delays.

A `Link` holds the bytes already written, the bytes still to be read, and the number of frames that can be written
before the connection breaks. A write is one step that happens or fails, and after a failed write every later one
fails. `ClipAll(p.Pending())` is what a publisher has to send, the retry slot first. `DrainRun` is the whole drain as a
function of the queues, the next sequence number and the link.

Where the source and its comments disagree, the model follows the code:

- The comment of the assembler says that a new sequence replaces an unfinished one (src/transport/fragment.rs:14-15).
  The code appends to it (src/transport/fragment.rs:49-63); `Fragments.AbandonedIsJoined` says what comes out then.
- `spin_and_backoff` is described as exponential backoff, but starts the policy afresh each time
  (src/sdk/node.rs:784-789); `Nodes.Node.SpinAndBackoff` shows that the wait never grows.
- The drain is described as keeping the most recent message for retry (src/sdk/node.rs:890-893). It does, but the rest of
  the frame whose write failed is gone: all of it when more frames would have followed, and all but its last message when
  it was the last one. `Failures.DrainConserves` says exactly which messages are lost and when none is, and
  `Failures.FirstOfTwoIsLost` gives a queue that loses one.
- Half the lease is promised as the longest silence (src/sdk/node.rs:696-700), but a keepalive is sent only when a read
  times out (src/sdk/node.rs:710-735); `Nodes.Node.Spin` counts them, and `Clock.SilenceWithinLease` says for which runs
  of rounds the silence stays within the lease.
- Local matching drops all leading slashes of a name, the network key only one (src/sdk/node.rs:1003-1016,
  src/ros2/keyexpr.rs:57); `Names.MatchingAgreesWithKeys` says for which pairs of names they agree, and
  `Names.EveryTopicDisagrees` that every topic is in a pair for which they do not.
- A frame may carry several messages, and this client sends such frames, but on receipt only the first is delivered
  (src/sdk/node.rs:1043-1047); `Receiving.DeliveredWhole` says when nothing is lost by that, `Receiving.SecondIsLost` gives
  a frame that loses a message.
- A remote-only subscription is described as skipped by remote-only publishers (src/ros2/locality.rs:53-54); local
  dispatch skips it for every publisher (src/sdk/node.rs:993-996).

## Model

| member | source | states |
|---|---|---|
| VByte.EncodeVByte | src/transport/codec.rs:13-31 | The encoder appends exactly the groups of the value, or reports that they do not fit, in which case they do not. |
| VByte.DecodeVByte | src/transport/codec.rs:35-49 | The shift-and-or loop computes the value of the groups as a sum, the part of a tenth byte above bit 63 being lost. |
| VByte.VBytesMinimal | src/transport/codec.rs:13-31 | `k` bytes are enough exactly for the values below 128 to the power of `k`: no shorter encoding exists. |
| VByte.VBytesLength | src/transport/codec.rs:13-31 | Every `u64` takes 1 to 10 bytes, with the bounds the batching estimate rests on. |
| VByte.VByteRoundTrip | src/transport/codec.rs:13-49 | Decoding what was encoded, whatever bytes follow, returns the value and its length. |
| VByte.VBytePrefixFree | src/transport/codec.rs:13-31 | No encoding is a proper prefix of another. |
| VByte.VByteReencodes | src/transport/codec.rs:35-49 | Re-encoding a decoded value gives back the consumed bytes if and only if they are in shortest form. |
| VByte.VByteNotInjective | src/transport/codec.rs:38-45 | Two ten-byte inputs that differ in dropped bits decode to the same value. |
| Vectors.LowFirst | src/transport/codec.rs:13-31 | Groups and bytes in literals: 300 is AC 02, and a length prefix has its low byte first. |
| Decode.SkipExtensions | src/transport/codec.rs:738-763 | The cursor loop ends where the chain of extensions ends, with the same error if a body is cut short. |
| Decode.DecodePushPut | src/transport/codec.rs:770-859 | The decoder agrees with its specification on every input, errors and non-Push messages included. |
| Decode.DecodeResponse | src/transport/codec.rs:1132-1262 | The same for Response, Reply, Put and ResponseFinal; the request id keeps its low 32 bits. |
| Decode.DecodeFrameHeader | src/transport/codec.rs:436-453 | The same for a frame header with optional extensions. |
| Decode.DecodeFragmentHeader | src/transport/codec.rs:460-477 | The same for a fragment header, with its more-flag. |
| Completeness.ExtsAt | src/transport/codec.rs:738-763 | Every well-formed chain of Unit, Z64 and ZBuf extensions is skipped exactly to its end. |
| Completeness.PutComplete | src/transport/codec.rs:802-859 | Every Put of the grammar, schema or not, decodes to exactly its payload and length if and only if it has no schema, or it has extensions and the chain that the decoder sees in the bytes of the schema stops where a number with the length of the payload is read that ends at the payload. |
| Completeness.EndsAtPayload | src/transport/codec.rs:837-845 | In particular when that chain stops exactly in front of the payload. |
| Completeness.EndsBeforePayload | src/transport/codec.rs:837-845 | It may also stop earlier: a Put whose payload is read from inside its last extension, because the length was read with padding. |
| Completeness.PushPutComplete | src/transport/codec.rs:770-859 | Every Push of a Put of the grammar (mapped or inline key, timestamp, encoding with or without schema, any extensions on both), followed by any bytes, decodes to exactly its scope, suffix and payload and consumes exactly its length, if and only if its Put reads back in this sense; so whenever it has no schema. |
| Completeness.SchemaTakenForPayload | src/transport/codec.rs:837-845 | A Put with a schema and without extensions is never read back: the schema is returned as the payload, and the decoder stops in front of the payload. |
| Completeness.ResponseComplete | src/transport/codec.rs:1132-1262 | The same for every Response of a Reply of a Put; and every ResponseFinal is read back. |
| OtherMessages.OtherPushIsNothing | src/transport/codec.rs:811-816 | Every Push whose body is not a Put, with any key, extensions and bytes behind, decodes to nothing. |
| OtherMessages.OtherResponseIsNothing | src/transport/codec.rs:1185-1192 | So does every Response whose body is not a Reply. |
| OtherMessages.OtherReplyIsNothing | src/transport/codec.rs:1210-1220 | So does every Reply whose body is not a Put. |
| OtherMessages.OtherKinds | src/transport/codec.rs:770-784 | So does whatever begins with the identifier of another message. |
| OtherMessages.PushCut | src/transport/codec.rs:770-859 | Every strict prefix of a Push without extensions, but the empty one, is an error. |
| OtherMessages.ResponseCut | src/transport/codec.rs:1132-1262 | The same for Responses and ResponseFinals. |
| OtherMessages.BadSuffix | src/transport/codec.rs:785-800 | A Push whose suffix is not UTF-8 is an error. |
| Utf8.Utf8Exactly | src/transport/codec.rs:792-797 | Bytes pass as a string if and only if they are the encoding of a sequence of Unicode scalar values. |
| Vectors.PushVectors | src/transport/codec.rs:770-859 | Two Pushes in literal bytes, with timestamp and extensions, and what they decode to. |
| Vectors.ResponseVectors | src/transport/codec.rs:1132-1262 | Two Responses and a ResponseFinal in literal bytes. |
| Completeness.FrameHeaderComplete | src/transport/codec.rs:411-453 | The frame header decoder inverts the encoder, with any extensions and any body behind it. |
| Completeness.FragmentHeaderComplete | src/transport/codec.rs:460-477 | The same for fragment headers. |
| Completeness.RequestSelfConsistent | src/transport/codec.rs:990-1101 | In a request the client encoded, skipping the extensions at the Target lands on the Query header, and skipping those behind it lands on the end: lengths and more-bits agree. |
| Attachments.RequestRead | src/transport/codec.rs:990-1101 | A reader of any request finds its number, its key, the target 2, the payload behind encoding 0, and an attachment with sequence number, timestamp and sender. |
| Encode.EncodeSlice | src/transport/codec.rs:80-89 | Appends length and data, or fails exactly when they do not fit. |
| Encode.EncodeFrameHeader | src/transport/codec.rs:411-430 | Appends the frame header of the grammar, or fails exactly when it does not fit. |
| Encode.EncodePushPut | src/transport/codec.rs:485-524 | Appends the Push of the grammar without attachment; the encoding only when its id is not zero. |
| Encode.EncodePushPutWithAttachment | src/transport/codec.rs:540-616 | Appends the Push of the grammar with the 33-byte attachment, which `PushPutComplete` reads back. |
| Attachments.AttachmentRead | src/transport/codec.rs:585-600 | The attachment says, as little-endian signed numbers in this order, sequence number and timestamp, then 16 and the identifier with zeros behind it. |
| Attachments.PushStampComplete | src/transport/codec.rs:540-616 | Of every Push without schema a peer finds the data of the first extension 3 of the Put as the attachment. |
| Vectors.PushBytes | src/transport/codec.rs:540-616 | A published message in literal bytes. |
| Vectors.PlainPushBytes | src/transport/codec.rs:485-524 | Two Pushes without attachment in literal bytes. |
| Encode.EncodeDeclareInline | src/transport/codec.rs:624-663 | Appends the declaration of a key, or likewise of a token (src/transport/codec.rs:902-939), with an inline key that is left out when empty. |
| Encode.EncodeDeclareSubscriber | src/transport/codec.rs:868-896 | Appends a subscriber declaration under a mapped key id. |
| Vectors.DeclareRead | src/transport/codec.rs:624-663 | A reader of any declaration of a key or token finds its kind, its identifier and then the whole key. |
| Vectors.SubscriberRead | src/transport/codec.rs:868-896 | And of any declaration of a subscriber its identifier and the key id it refers to. |
| Encode.EncodeRequestQuery | src/transport/codec.rs:990-1101 | Appends Request, Target, Query, QueryBody and Attachment as the grammar has them. |
| Encode.DataPushSize | src/transport/codec.rs:540-616 | A data Push takes between 40 and 42 bytes beyond key and payload; the drain estimates 64. |
| Encode.DeclareSizes | src/sdk/node.rs:815-885 | Declarations take at most 10 bytes beyond their key, so the buffers of 512, 128 and 768 bytes always hold them. |
| Encode.RequestSize | src/transport/codec.rs:990-1101 | A request takes between 45 and 51 bytes beyond key and payload. |
| CdrCodec.CdrSerializer.Align | src/cdr/ser.rs:26-39 | The padding loop writes exactly the zeros up to the next multiple, and touches nothing behind its position. |
| CdrCodec.CdrSerializer.Serialize | src/cdr/ser.rs:72-248 | Writes exactly the encoding of the value at the current position and nothing else, and fails exactly when it does not fit. |
| CdrCodec.CdrDeserializer.Deserialize | src/cdr/de.rs:74-352 | The cursor decoder agrees with the decoding function, value and position, on every input and every type. |
| CdrCodec.SerializeWithHeader | src/cdr/mod.rs:96-104 | Succeeds if and only if the computed size fits the buffer; then exactly that many bytes are written and those behind them are unchanged. |
| CdrCodec.DeserializeWithHeader | src/cdr/mod.rs:120-132 | Agrees with the decoding function, header checks included. |
| CdrProofs.EncPhase | src/cdr/ser.rs:26-39 | The bytes of every value depend on its position only modulo 8. |
| CdrProofs.DecOfEnc | src/cdr/de.rs:74-352 | For every type and value, decoding at the position of the encoding, whatever stands around it, returns the value with its characters cut to a byte, and consumes exactly what was written. |
| CdrProofs.CdrRoundTrip | src/cdr/ser.rs:124-127 | Decoding an encoding always succeeds and consumes exactly its bytes; it returns the value itself if and only if all characters of the value are at most U+00FF. |
| CdrProofs.DecOfCut | src/cdr/de.rs:37-44 | Every strict prefix of an encoding is rejected as an underflow. |
| CdrProofs.DecSound | src/cdr/de.rs:74-352 | Whatever the bytes, a decoded value has the requested type and only narrow characters. |
| CdrProofs.DecodedIsStable | src/cdr/de.rs:74-352 | A decoded value, written again at any position, is read as the same value. |
| CdrCanonical.CdrReencodes | src/cdr/de.rs:74-352 | Written again at a position of the same phase, a decoded value gives exactly the bytes it was read from if and only if these have zero padding, zero terminators and no length of 0 in front of a string. |
| CdrCodec.HeaderRoundTrip | src/cdr/mod.rs:96-132 | The round trip, with the encapsulation header and any bytes behind the message, under the same exact condition. |
| CdrCodec.HeaderCutShort | src/cdr/mod.rs:120-132 | Every strict prefix of a message with header is rejected as an underflow. |
| CdrCodec.StringFits | src/cdr/mod.rs:39-44 | The capacity computed for strings of a length holds a string message if and only if the string is at most that long. |
| CdrCodec.NumbersSize | src/cdr/mod.rs:68-81 | The size computed for `n` numbers of one width is exact. |
| CdrVectors.CdrNumbers | src/cdr/ser.rs:72-127 | Numbers, booleans and characters in literal bytes, padding included. |
| CdrVectors.CdrBytes | src/cdr/ser.rs:129-153 | Strings with length and terminator, byte strings, and options, in literal bytes. |
| CdrVectors.CdrSeq | src/cdr/ser.rs:180-248 | A sequence in literal bytes; likewise `CdrEnum` and `CdrStruct`. |
| CdrVectors.BadTag | src/cdr/de.rs:78-86 | Booleans and options that begin with neither 0 nor 1 are refused as such. |
| CdrVectors.BadString | src/cdr/de.rs:138-149 | A string is accepted if and only if it is UTF-8, whatever its last byte; a length of 0 gives the empty string. |
| CdrVectors.BadVariant | src/cdr/de.rs:320-332 | A variant that the type does not have is refused. |
| CdrVectors.BadHeader | src/cdr/mod.rs:120-132 | Exactly the first two bytes of the header are checked. |
| Names.PushDecimal | src/ros2/keyexpr.rs:213-227 | The digit loop never leaves its ten-byte buffer and pushes the canonical numeral. |
| Names.DecimalInjective | src/ros2/keyexpr.rs:213-227 | Different numbers have different numerals. |
| Vectors.DecimalDenotes | src/ros2/keyexpr.rs:213-227 | A numeral denotes its number, and has no leading zero. |
| Names.ToKeyExpr | src/ros2/keyexpr.rs:49-70 | Returns the key of the topic if and only if it has at most 256 bytes. |
| Vectors.Keys | src/ros2/keyexpr.rs:266-276 | Keys in literals: domain, name without one leading slash, type, hash. |
| Names.KeyExprInjective | src/ros2/keyexpr.rs:49-70 | When type and hash contain no slash, the key determines domain, topic without one leading slash, type and hash, although topics may contain slashes. |
| Names.KeyDetermines | src/ros2/keyexpr.rs:49-70 | Among all topics, and among all valid ones, whatever their types and hashes contain, the key determines the parts of a topic if and only if none of them contains a slash, the leading one of the name aside. |
| Names.KeyPartner | src/ros2/keyexpr.rs:49-70 | For every topic with a slash in its name, type or hash, another topic of valid text and the same domain with the same key. |
| Names.MatchingAgreesWithKeys | src/sdk/node.rs:1009-1016 | Topics of one type and hash, whatever these contain, have the same key if and only if domain and name, one leading slash aside, agree, and then they match locally. Topics that match locally have the same key if and only if their names begin with equally many slashes, or with at most one each. |
| Names.EveryTopicDisagrees | src/sdk/node.rs:1009-1016 | Every topic, whatever its name, matches another one locally that has another key. |
| Names.PushQos | src/ros2/qos.rs:130-174 | Appends the QoS string with the defaults left out. |
| Names.QosInjective | src/ros2/qos.rs:130-174 | The QoS string determines the profile, despite the omitted defaults and keep-all as depth 0. |
| Vectors.QosStrings | src/ros2/qos.rs:255-311 | The five QoS strings of the tests. |
| Liveliness.PushMangled | src/ros2/liveliness.rs:152-165 | The mangling loop replaces each slash; an empty name or a bare slash becomes a percent sign. |
| Liveliness.PushMangledAbsolute | src/ros2/liveliness.rs:176-193 | The same, with a leading percent sign for names that lack the leading slash. |
| Liveliness.PushHex | src/ros2/liveliness.rs:74-78 | Pushes two hexadecimal digits for each byte of the identifier. |
| Liveliness.BuildLivelinessToken | src/ros2/liveliness.rs:51-121 | Returns the token if and only if it has at most 512 bytes. |
| Liveliness.TokenFields | src/ros2/liveliness.rs:51-121 | Splitting a token at its slashes always gives exactly its thirteen fields. |
| Vectors.TokenVector | src/ros2/liveliness.rs:231-251 | The thirteen fields of the token of a test, in literals. |
| Liveliness.TokenSame | src/ros2/liveliness.rs:51-121 | Any two entities have the same token if and only if their numbers, types and profiles are equal and their names are once they are mangled. |
| Liveliness.TokenInjective | src/ros2/liveliness.rs:51-121 | For names without percent signs this means that they agree in every field up to the normal form of names. |
| Liveliness.TokenDetermines | src/ros2/liveliness.rs:152-193 | Among all entities, and among all valid ones with names in UTF-8, the token determines an entity, up to the normal form of its names, if and only if no normal form has a slash or percent sign other than the leading slash of an absolute name. |
| Liveliness.TokenPartner | src/ros2/liveliness.rs:152-193 | For every other entity, a different one with the same token, which is valid and has names in UTF-8 if the first is and has. |
| Transmit.FlattenPack | src/sdk/node.rs:927-971 | Packing into frames keeps every message, once and in order. |
| Transmit.EstimateSound | src/sdk/node.rs:935-965 | Whenever the rule lets a message into a frame, the frame still has at most 1024 bytes, for every key up to 256, payload up to 512 and number. |
| Transmit.PackedFramesFit | src/sdk/node.rs:935-965 | No frame of a packing is empty or longer than 1024 bytes. |
| Packings.PackingExactly | src/sdk/node.rs:935-965 | A grouping of the messages is the packing if and only if no frame is empty, each but the first message of a frame had 64 bytes, the key and itself to spare in 1024, and the first message of the next frame had not. |
| Packings.GreedyUnique | src/sdk/node.rs:935-965 | This rule determines the grouping. |
| Transmit.FrameHoldsAtMost | src/sdk/node.rs:935-965 | A frame that fits holds at most 25 messages. |
| Transmit.ReceiveFrame | src/sdk/node.rs:950-965 | Repeated decoding of a frame gives its number and its messages, each once and in order, with key, payload, sequence number, timestamp and sender. |
| Transmit.FramesContents | src/sdk/node.rs:950-955 | However messages are grouped, the frames carry them all in order, under numbers that count up modulo two to the power of 64. |
| Transmit.BatchingRefines | src/sdk/node.rs:899-982 | The batched frames and the one-message frames of a queue carry the same messages in the same order, and there are no more of the former. |
| Failures.DrainConserves | src/sdk/node.rs:939-979 | Acknowledged, lost and kept messages are the drained ones cut into three pieces in this order, and after a failure something is kept. A frame that fails before the last one is lost whole, the last one but for its last message; nothing is lost if and only if no write fails, or only that of a last frame with one message. |
| Failures.RunConserves | src/sdk/node.rs:934-979 | Over every run of connections no message is duplicated or invented, order is kept, and each failure loses at most 25 messages. |
| Failures.NothingLost | src/sdk/node.rs:934-979 | A run loses nothing if and only if on each of its connections no write fails, or only that of a last frame with one message. |
| Failures.FirstOfTwoIsLost | src/sdk/node.rs:973-979 | Any two short messages share a frame; when the write of that frame fails, the first is gone. |
| Failures.AckedContents | src/sdk/node.rs:934-979 | The frames that one drain writes before a failure decode to exactly its acknowledged messages. |
| Runs.RunContents | src/sdk/node.rs:934-979 | Over every run of connections a receiver of all frames written reads exactly the acknowledged messages of the run, in order, and the drains leave queued exactly what the run does. |
| Runs.Reconnect | src/sdk/node.rs:899-982 | A publisher that is the only one of its node, on any number of connections that break at any frame, drained by `DrainPublishers` and filled in between, goes through exactly such a run. |
| ArrivingMessages.ArrivalsAreQueued | src/sdk/node.rs:927-979 | A packing loop into whose queue messages arrive while it writes sends the same frames, fails in the same way and keeps the same messages as a drain that finds those messages queued at the start. |
| Drains.TakeNext | src/sdk/node.rs:927-931 | Takes the next message, retry slot first, cut to the scratch buffer, and dispatches it locally unless the publisher is remote-only. |
| Drains.StartFrame | src/sdk/node.rs:950-955 | The header always fits into an empty frame buffer: the encoder's error cannot occur. |
| Drains.AddMessage | src/sdk/node.rs:957-965 | A message that the rule lets in always fits: the encoder's error cannot occur. |
| Drains.LocalEndToEnd | src/sdk/node.rs:927-931 | Values encoded, queued, drained and dispatched to an empty subscription: it holds the first ones, as many as its capacity, and returns each as it was sent if and only if its characters are at most U+00FF. |
| Drains.StashDispatchedTwice | src/sdk/node.rs:927-946 | After a failed write the kept messages are the end of the queue from the last message dispatched locally on. |
| Runs.FailedThenPassed | src/sdk/node.rs:927-979 | A failed drain and the one that passes after it, with arrivals in between, together dispatch the messages up to and including the kept one, and then the kept one again and everything behind it. |
| Runs.LocalRunRepeats | src/sdk/node.rs:927-979 | Over every run of connections the local subscriptions are offered the stream of all messages in order, with one step back of one message for each failed write. |
| Runs.RepeatingCounts | src/sdk/node.rs:927-979 | Counted with repetitions this is every message reached once, and one message more for each failure that another drain followed. |
| Runs.NoneLeftOut | src/sdk/node.rs:927-979 | What was dispatched and what is still queued is the whole stream; only the message kept by a last drain that failed is in both. |
| Nodes.Node.MakeRoom | src/sdk/node.rs:935-948 | The flush before a message that might not fit; when its write fails, that message is put into the retry slot, which is empty then, in front of what is still queued. |
| Nodes.Node.Finish | src/sdk/node.rs:973-979 | The last flush; when its write fails, the last message, still in the scratch buffer, is what is kept. |
| Nodes.Node.DrainToNetwork | src/sdk/node.rs:920-979 | The packing loop sends exactly the frames of the packing that the link takes, leaves exactly the kept messages queued, and dispatches locally exactly the messages it took. |
| Nodes.Node.DrainOneByOne | src/ros2/node.rs:408-434 | The simple loop sends one frame for each message; the message whose write fails is gone. |
| Nodes.Node.DrainPublishers | src/sdk/node.rs:899-982 | Frames, next number, queues, local deliveries and result of the whole drain are those of `DrainRun`; the numbering stays without a gap. |
| Refinement.BatchedRefinesPlain | src/sdk/node.rs:899-982 | Whenever no write of the simple drain fails, the batched drain of the same queues has the same result, delivers the same messages in the same order to the network and the same ones locally, leaves the same queues and needs no more frames. |
| Refinement.PassedRunDelivers | src/sdk/node.rs:899-982 | A drain that passes empties every queue and delivers each message exactly once, in the order of its queue, publishers registered twice included. |
| Refinement.PassedRunOffers | src/sdk/node.rs:899-931 | Such a drain leaves in every local subscription what was there and then, as far as there was room, each message once for each matching entry, publisher by publisher, and nothing of remote-only publishers. |
| Refinement.SessionLocalStaysHere | src/sdk/node.rs:902-912 | Session-local publishers send nothing and take no number. |
| Refinement.FailedRunDelivers | src/sdk/node.rs:899-982 | A drain over any table that fails delivers the publishers before the failing one in full and that one up to its acknowledged messages, leaves the later ones as they were, and loses at most 25 messages in all, or one with one message per frame; without a key nothing is sent or lost. |
| Refinement.RunNumbers | src/sdk/node.rs:950-955 | Over all publishers the frames of a drain have consecutive numbers; only a failed write uses up a number without a frame. |
| Numbering.DrainKeepsNumbers | src/sdk/node.rs:950-955 | A drain, failed or not, continues the numbering of the session. |
| Queues.Publisher.Prepare | src/ros2/publisher.rs:157-171 | A message that fits takes the next number, wrapping as an `i64`; one that does not fit takes none. |
| Queues.Publisher.Enqueue | src/ros2/publisher.rs:173-180 | A message enters at the end of the queue exactly when there is room. |
| Queues.Publisher.TrySend | src/ros2/publisher.rs:195-213 | Enters with number and timestamp 0, or reports which of encoding and room was missing. |
| Queues.Publisher.TryDrainInto | src/ros2/publisher.rs:238-252 | Takes the retry slot first, then the front of the queue; nothing else changes. |
| Queues.Publisher.StashRetry | src/ros2/publisher.rs:254-266 | Fills the retry slot and leaves the queue alone. |
| Queues.Subscription.Push | src/session/subscriber.rs:50-58 | Cuts to the message size and drops when the queue is full. |
| Queues.Subscription.TryRecv | src/ros2/subscription.rs:114-121 | Takes the front of the queue and decodes it. |
| Queues.Subscription.Clear | src/session/subscriber.rs:45-47 | Empties the queue. |
| Queues.OfferAllTakesFirst | src/session/subscriber.rs:50-58 | Of a run of payloads a queue takes the first ones, in order, as many as there was room for. |
| Queues.LocalPathRoundTrip | src/ros2/publisher.rs:157-181 | A message that fits everywhere is received as it was sent if and only if its characters are at most U+00FF. |
| Senders.EveryInterleaving | src/ros2/publisher.rs:157-181 | In every interleaving of senders and drains the numbers taken are 0, 1, 2 and so on, distinct up to two to the power of 64, nothing is lost or duplicated, and each sender's messages leave in its order. |
| Senders.Interleave | src/ros2/publisher.rs:157-252 | The methods of a publisher, called in the order of any such run, go through exactly the states of the machine. |
| Senders.NumbersOvertake | src/ros2/publisher.rs:161-179 | Between senders a later number can be drained first. |
| Senders.LeaveInOrder | src/ros2/publisher.rs:161-179 | In every interleaving messages enter and leave the queue in the order of their numbers, none skipped, if and only if each enters while it holds the lowest number not yet entered. |
| Senders.OneSendAtATime | src/ros2/publisher.rs:157-181 | So it is whenever at most one send is in progress at any time. |
| Routing.DispatchLocal | src/sdk/node.rs:988-1001 | The loop changes the queues as dispatching does, also when one subscription is registered twice. |
| Routing.DispatchReaches | src/sdk/node.rs:988-1001 | Every subscription gets a payload once for each of its entries of the same domain and name, leading slashes aside, that is not remote-only; no other queue changes. |
| Routing.OthersGetNothing | src/sdk/node.rs:988-1016 | A subscription all of whose entries are remote-only, of another domain or of another name gets nothing. |
| Routing.LocalDeliveryFifo | src/sdk/node.rs:988-1001 | Of one batch of dispatched payloads a subscription takes, in order, the first ones that its queue has room for, each once for each of its matching entries. |
| Deliveries.ReceivedInOrder | src/sdk/node.rs:988-1085 | In every run of local dispatches, network deliveries and receives, what was received from a subscription followed by what is queued is what was queued at first followed by exactly the offered payloads that met a queue with room, in order. |
| Deliveries.Deliver | src/ros2/subscription.rs:114-121 | The methods, called in the order of any such run, go through its states, and the application gets the decoded form of exactly what was taken. |
| Routing.RouteToSubscribers | src/sdk/node.rs:1073-1085 | First match and break delivers to one subscription, the target of the scope, or to none. |
| Routing.FirstMatch | src/sdk/node.rs:1073-1085 | In any table, also one whose key ids have wrapped, the target is the first entry declared under the scope. |
| Routing.RoutesToDeclared | src/sdk/node.rs:1073-1085 | For a scope below 65536 the target is exactly the entry declared under it; session-local entries never get network data. |
| Routing.LargeScopeMisrouted | src/sdk/node.rs:1074-1080 | A larger scope, under which nothing is declared, is delivered all the same if and only if its low 16 bits are a declared key id. |
| Fragments.FragmentAssembler.Feed | src/transport/fragment.rs:44-73 | One fragment changes buffer, length and activity as the abstract step on the bytes under way; an overflow leaves nothing under way. |
| Fragments.StreamReassembled | src/transport/fragment.rs:44-73 | Whatever pieces the messages of a stream were cut into, what comes out is exactly these messages, in order, if and only if each is within the capacity. |
| Fragments.WhatComesOut | src/transport/fragment.rs:49-66 | What comes out for a message behind any unfinished one: the bytes under way and the message if they fit together, and otherwise nothing or a strictly shorter rest of the message that fits; nothing stays under way. |
| Fragments.Intact | src/transport/fragment.rs:49-66 | The message comes out intact if and only if no byte was under way and it is within the capacity. |
| Fragments.AbandonedIsJoined | src/transport/fragment.rs:49-63 | Behind abandoned fragments of any lengths the message comes out intact if and only if it is within the capacity and what the abandoned fragments leave under way, after any overflow of their own, is empty. |
| Receiving.DispatchFrame | src/sdk/node.rs:1027-1071 | What a received message does to queues and assembler, for every kind of message and every error. |
| Receiving.OtherArrivals | src/sdk/node.rs:1066-1071 | Whatever is neither frame nor fragment changes nothing; only a Close ends the session. |
| Receiving.OtherPushIgnored | src/sdk/node.rs:1043-1047 | A Push of anything but a Put delivers nothing and answers no call. |
| Receiving.CutArrivals | src/sdk/node.rs:1041-1050 | A frame or fragment without a number passes, and a Push that is cut short delivers nothing. |
| Receiving.FragmentedIsUnfragmented | src/sdk/node.rs:1041-1065 | Any stream of bodies within the capacity, each cut into any pieces, under any numbers, gives the same deliveries as these bodies in frames of their own. |
| Receiving.OnlyFirstDelivered | src/sdk/node.rs:1043-1047 | Of a frame with several messages exactly the first is delivered, to the target of its scope. |
| Receiving.DeliveredWhole | src/sdk/node.rs:1043-1047 | A frame of messages is delivered as routing each of them would if and only if every message behind the first has no target, or one whose queue is full once the first was delivered. |
| Receiving.SecondIsLost | src/sdk/node.rs:1043-1047 | Of two payloads in one frame for a subscription with room for both, the second is lost. |
| Receiving.AwaitReply | src/sdk/node.rs:492-532 | The waiting loop returns the answer and the queues of its specification on every stream. |
| Receiving.PushWhileWaiting | src/sdk/node.rs:519-522 | A published message that comes while a call waits, under any number and with anything behind it, goes to the target of its scope, and the wait goes on. |
| Receiving.WaitingDelivers | src/sdk/node.rs:497-532 | Whatever published messages come before the answer, each is routed, in order, and the call ends with that answer. |
| Receiving.IgnoredWhileWaiting | src/sdk/node.rs:519-526 | Fragments, keepalives and all other messages leave a wait and the queues as they are. |
| Receiving.EndsWaiting | src/sdk/node.rs:523-530 | A Close ends the wait, and so does the end of the stream. |
| Receiving.ResponseReacts | src/sdk/node.rs:503-518 | Every response ends the wait if and only if its request id agrees with ours in the low 32 bits, with its payload or as final. |
| Receiving.OtherResponseIgnored | src/sdk/node.rs:503-518 | A Response without a Reply, or with a Reply of anything but a Put, is no answer. |
| Receiving.FirstAnswerWins | src/sdk/node.rs:497-532 | The first answer on the stream is the one returned; everything before it is delivered as usual. |
| Framing.Link.WriteFrame | src/transport/frame.rs:17-33 | A frame of at most 65535 bytes is written whole behind the others, or nothing is. |
| Framing.Link.ReadFrame | src/transport/frame.rs:38-59 | Reads the next frame into the buffer, with the error for a frame that is too long or a stream that ends. |
| Framing.ReadRefused | src/transport/frame.rs:38-59 | A frame longer than the buffer is refused, and one of which not all has come is the end of the stream. |
| Framing.StreamRoundTrip | src/transport/frame.rs:17-59 | Any sequence of frames is read back frame by frame, whatever follows. |
| Framing.Link.OutputIsSent | src/transport/frame.rs:17-59 | The other end of a link reads exactly the frames that were sent. |
| Handshakes.ClientHandshake | src/transport/handshake.rs:34-88 | What the client sends and how the handshake ends are those of its specification, on every stream of answers. |
| Handshakes.InitAckComplete | src/transport/codec.rs:203-306 | Every InitAck is read back, with any unused bits and extensions; only a cookie of more than 256 bytes is refused. |
| Handshakes.OpenAckComplete | src/transport/codec.rs:337-376 | Every OpenAck is read back, with its lease in milliseconds. |
| Handshakes.EchoRead | src/transport/handshake.rs:63-71 | OpenSyn carries the cookie byte for byte, with lease 10000 and first number 0. |
| Handshakes.EchoSize | src/sdk/node.rs:164-168 | For every accepted cookie OpenSyn takes at most 262 bytes, so the 512-byte buffer always holds it. |
| Vectors.HelloBytes | src/transport/codec.rs:140-196 | The first message in literals: version 9, the role of a client, and the identifier with its length. |
| Vectors.EchoBytes | src/transport/codec.rs:311-331 | The second message in literals. |
| Vectors.AckBytes | src/transport/codec.rs:203-376 | An InitAck and two OpenAcks in literal bytes, and what they decode to. |
| Handshakes.Agreement | src/transport/handshake.rs:34-88 | With a router that checks its cookie the handshake succeeds if and only if the router speaks version 9 and its cookie has at most 256 bytes, and fails with the error for the one or the other; on success both sides agree on both leases and both first numbers. |
| Handshakes.SuccessMeans | src/transport/handshake.rs:53-87 | Against any peer, success means that a version 9 InitAck and an OpenAck were read, and that OpenSyn echoed the cookie of that InitAck. |
| Sessions.Build | src/sdk/node.rs:159-195 | A node starts with the number that its OpenSyn announced, numbered without a gap, and with a lease of at least two seconds. |
| Sessions.Perform | src/sdk/node.rs:296-533 | For every sequence of operations (publisher, subscription, send, receive, drain, keepalive, spin, call) on a node, each request that left a gap was too long for its frame; if there is none, all frames are numbered without a gap. Before the wrap every entry that is not session-local has a key id of its own other than 0. |
| Sessions.RunSession | src/sdk/node.rs:159-533 | The same from the handshake on: if key and request of every call take at most 962 bytes together, no frame number is ever left out, and fewer than 65535 network subscriptions have distinct ids other than 0. |
| Nodes.Node.DeclareKeyExpr | src/sdk/node.rs:815-829 | The declaration always fits, so the number it takes is on the wire unless the link is down; key ids count up modulo 65536. |
| Nodes.Node.DeclareSubscriber | src/sdk/node.rs:831-842 | The same for a subscriber. |
| Nodes.Node.DeclareLiveliness | src/sdk/node.rs:844-885 | The same for a token; one that is too long takes an entity id but no number. |
| Nodes.Node.TokenSays | src/sdk/node.rs:844-867 | Field by field what the token of an entity of this node says. |
| Nodes.Node.CreatePublisher | src/sdk/node.rs:296-307 | Declares a token unless the publisher is session-local, then registers it if fewer than eight are; keeps the numbering. |
| Nodes.Node.CreateSubscription | src/sdk/node.rs:336-371 | Sends exactly the three declarations of a network subscription and none for a session-local one; registers it if fewer than four are; says when it passes and where both id counters stand; keeps the numbering and, before the key ids wrap, distinct key ids other than 0. |
| Nodes.Node.SendKeepalive | src/sdk/node.rs:1018-1025 | Sends one keepalive, which is no frame and takes no number. |
| Nodes.Node.StartCall | src/sdk/node.rs:446-483 | Starts a service call and takes its ids; the numbering stays without a gap if and only if the request fits into its frame or the link is down. |
| Nodes.Node.CallSays | src/sdk/node.rs:463-478 | What the service reads from the request: request id, key, request, and as attachment the request id as sequence number, timestamp 0 and the identifier of the node. |
| Nodes.Node.WhatFits | src/sdk/node.rs:463-478 | Key and request of at most 962 bytes together always fit, of more than 977 never. |
| Nodes.Node.CallService | src/sdk/node.rs:432-533 | The result is that of the first answer on the stream; what arrives before it is delivered; the numbering has a gap exactly when the call is refused because its request does not fit. |
| Calls.CallReturns | src/sdk/node.rs:497-532 | When the service replied with an encoded value, the call returns it if and only if its characters are at most U+00FF, whatever was delivered before. |
| Calls.CallFails | src/sdk/node.rs:497-532 | What the call returns when the service has no answer, the router closes the session or the stream ends. |
| Nodes.Node.SpinOnce | src/sdk/node.rs:704-736 | One round: the drain of `DrainRun`, then exactly one received message handled, or a second drain and one keepalive. |
| Nodes.Node.Spin | src/sdk/node.rs:695-738 | Over every run the frames stay numbered without a gap and there is exactly one keepalive for each timeout, so none under steady traffic; a round sends something if and only if its drain does or it times out. |
| Nodes.Node.SpinAndBackoff | src/sdk/node.rs:785-789 | The wait after a dropped connection is always the initial delay, and a limit on the attempts counts one of them only. |
| Clock.SilenceBound | src/sdk/node.rs:695-738 | The longest time in which nothing is sent is within a bound if and only if the waits of every stretch of rounds without a drained frame or a timeout inside together are. |
| Clock.SilenceWithinLease | src/sdk/node.rs:695-738 | With reads of at most half the lease the silence stays within the lease, however messages are timed, if and only if no three rounds in a row form such a stretch. |
| Clock.FireTimers | src/sdk/node.rs:1136-1144 | Every timer that is due fires once and no other does. |
| Clock.NextDeadline | src/sdk/node.rs:1146-1161 | The deadline never passes a timer or the keepalive, and is tight. |
| Clock.TimerSpacing | src/sdk/node.rs:1136-1144 | However irregularly it is looked at, a timer never fires early and two of its calls are at least a period apart. |
| Clock.ReconnectPolicy.WaitAndAdvance | src/session/reconnect.rs:51-56 | After `k` attempts the delay is the initial one times the factor to the power of `k`, at most the maximum; before the first it is the initial one. |

## Left out

- Sockets, executors, logging, error display, the SPI and WASI adapters: input and output without a property to prove.
- Cancellation of a read or a send in the middle: a timeout is a choice made for each round of `Spin`, and `call_service` sees a lost connection where the source would time out.
- Partial bytes of a failed write, and a link that works again after one: a failed write leaves nothing on the wire, and every later write fails too.
- Integer overflow of `usize` sums, of a lease in seconds times 1000, of a delay times the backoff factor, and of the entity id counter, which must stay below two to the power of 32; a length prefix is not cut to 32 bits.
- serde's visitors and derive macro: replaced by types and values walked as the serializer walks them; a map is a sequence of pairs, unit and newtype variants carry the unit or the payload, and floats are bit patterns.
- Nodes.Node: the drain of the simple node of `src/ros2/node.rs` is a mode of the batching node, as a separate method, and a session-local publisher has a loop of its own. The rest of the simple node is left out: it registers publishers without declaring them (src/ros2/node.rs:216-218), declares no token for a subscription (src/ros2/node.rs:240-269), and has neither fragments nor service calls.
- Embassy channels and mutexes: bounded queues that change in atomic steps; a sender waiting for room holds its message.
- Nodes.Node.DrainPublishers: its queues change through the drain only. In the source senders go on while a frame is written, so a drain that passes leaves what arrives during its last write, or at a publisher already drained; `ArrivingMessages.ArrivalsAreQueued` covers what arrives before.
- Runs.Reconnect: for nodes with one publisher; of a table with several, single drains are covered, those that pass by `Refinement.PassedRunDelivers` and those that fail by `Refinement.FailedRunDelivers`.
- Nodes.Node.Spin: the time of a round is what its read waits; draining and handling messages take none.
- Publisher and subscription handles, `src/session/session.rs`, `src/ros2/topic_publisher.rs`, `src/ros2/topic_subscriber.rs`, `src/ros2/config.rs`: thin or superseded duplicates.
- Action clients and feedback: calls of `call_service` and `create_subscription` with other keys.
- Callbacks: `dispatch_frame_with_callbacks` routes as `dispatch_frame` does and then calls the application.
- `ZenohId::from_name`, which folds a name into eight bytes: identifiers are any 1 to 16 bytes.
- Encoders that nothing here calls (`encode_close`, `encode_zenoh_id`, the unmapped subscriber and the mapped token).
- The 128-byte buffer of the QoS string, which no profile fills, and the error types of bounded strings, which become a missing result.
- `BufferPool`, `KeepAliveManager`, `is_compatible` and message metadata constants: they would only add easy members.
