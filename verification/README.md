# A model of phabrik's codec, message layer, request table and node ids

The project models, in Dafny, how phabrik talks to Service Fabric: the object codec (package `serialization`), the
message layer on top of it (package `transport`), the table that matches replies to requests, and the generation of
node ids (package `federation`).

Code that changes things in place is modelled by classes and loops, each proved equal to a function of its inputs;
the theorems are lemmas about those functions.

| file | models |
|---|---|
| `Bytes.dfy`, `Utf16.dfy` | bytes, little-endian words, results; UTF-16 as in sections 2.1 and 2.2 of RFC 2781 |
| `Compress.dfy` | the compressed integer code |
| `Schema.dfy` | the Go types the codec sees, their values, embedded structs, maps built entry by entry |
| `Codec.dfy` | what is written for a value, and what any bytes are read as, as functions |
| `Evolution.dfy`, `Versioning.dfy` | readers of another version of a type; round trips; embedding |
| `Wire.dfy`, `HeaderWire.dfy` | the bytes of items, header blocks and frames, in numbers |
| `Encoder.dfy`, `Decoder.dfy` | the encoder's stack of buffers and the decoder's cursor, as classes |
| `Headers.dfy`, `HeaderTheorems.dfy`, `ShortBodies.dfy` | message header records and their round trip |
| `Frames.dfy`, `Proxy.dfy`, `Transport.dfy` | frames, messages, the forwarding loop; the same on streams, step by step |
| `NegativeRetry.dfy`, `Panics.dfy` | a message a hop does not pass on as it is; what makes the program panic |
| `Tls.dfy`, `TlsPipe.dfy` | the connection the TLS handshake runs over |
| `Factory.dfy`, `RequestTable.dfy` | message ids; requests, replies, channels and threads |
| `PearsonTable.dfy`, `NodeIds.dfy` | the hash of names and the spread of instance numbers |

## What the code does where one might expect otherwise

* Re-encoding what the unsigned compressed reader accepted can take more bytes than were read: exactly when the first
  byte carried the sign bit and fewer than ten bytes were read (`Compress.UnsignedReencode`); the byte 0x40 is such an
  input (`Compress.UnsignedGrows`).
* A negative `RetryCount` is received (`NegativeRetry.RetryReceived`) but not written
  (`transport/messageheaders.go:189`), so it never comes back (`Proxy.BackIffSettled`), and a proxy hop turns it into
  zero (`Proxy.HopTransparent`; `NegativeRetry.NegativeRetryLost` for one message).
* A header block cut exactly before a record's size, or before a non-empty record body, parses as if it had ended
  before that record; any other cut inside a record is an error (`HeaderTheorems.ParsePrefix`).
* An empty write during the handshake makes the other end's read report the end of the stream
  (`TlsPipe.EmptyWriteEndsStream`).
* The error of a framed handshake write is not looked at (`transport/tls.go:88`). Handshake messages can always be
  marshalled (`Tls.HandshakeSendable`), so only I/O errors are lost.
* `readObjectBegin` does not look at the error of reading the header (`serialization/unmarshal.go:100`); the missing
  ScopeBegin is what fails.
* A signed byte read under the unsigned tag, or the reverse, panics in `reflect`; so do a frame header length beyond
  the frame and a node name without separator. These are `Err(Panic)`; the lemmas of `Panics.dfy` say exactly when
  each happens.

## Model

| member | source | states |
|---|---|---|
| Compress.RoundTrip | serialization/bytecompress.go:13-88 | A non-zero signed or unsigned integer written at width 2, 4 or 8 and read at the same or a greater width comes back, whatever surrounds the code, and the cursor stops right after it |
| Compress.GroupsLength | serialization/bytecompress.go:61-87 | The code has at most n bytes exactly when the value fits a 7n-bit two's complement number, so its length is the least such n |
| Compress.Shortest | serialization/bytecompress.go:50-88 | No byte string that stands for the same number is shorter than the code written for it |
| Compress.FitsBuffer | serialization/bytecompress.go:55-57 | The code of any value of a width fits the buffer of ceil(8*size/7) bytes, so the backward index stays in bounds |
| Compress.GroupsContinue | serialization/bytecompress.go:69-72 | Every byte of the code but the last has the continuation bit, the last has not |
| Compress.PrefixFree | serialization/bytecompress.go:50-88 | Two codes followed by anything are the same bytes only if values and followers are the same |
| Compress.CodeBytes | serialization/bytecompress.go:66-90 | The k-th byte from the end of a code is the k-th group of seven bits of the value, with the high bit set on all but the last byte |
| Compress.ValGroups | serialization/bytecompress.go:13-48 | Any byte string, shortest or not, stands for the two's complement number of its seven-bit groups |
| Compress.TruncateKeeps | serialization/unmarshal.go:185-209 | Fitting a number into a width changes it by a multiple of the number of values of that width |
| Wire.CodeAccepted | serialization/bytecompress.go:29-45 | A compressed integer is read exactly when a byte without the high bit comes within 3, 5 or 10 bytes, and up to the first such byte |
| Compress.SignedReencode | serialization/bytecompress.go:13-48 | On any input the reader takes at most ceil(8*size/7) bytes; an accepted signed value, wrapped around or not, is re-encoded in no more bytes than were read and, if not zero, reads back |
| Compress.UnsignedReencode | serialization/bytecompress.go:13-48 | An accepted unsigned value needs more bytes than were read exactly when the first byte had the sign bit and fewer than ten bytes were read |
| Compress.UnsignedGrows | serialization/bytecompress.go:13-48 | One accepted byte whose value needs more than a byte when written again |
| Compress.WrapShortens | serialization/bytecompress.go:30-31 | When fitting the folded number into 64 bits keeps its code from growing, as an if-and-only-if |
| Decoder.WrapStep | serialization/bytecompress.go:30-31 | Wrapping around after every seven-bit shift, as the loop does, is wrapping the whole number around once |
| Utf16.RunesOfUnits | serialization/marshal.go:204 | UTF-16 decoding undoes encoding for every sequence of Unicode scalar values |
| Utf16.UnPairsOfPairs | serialization/marshal.go:209 | Code units written as little-endian byte pairs read back |
| Utf16.SurrogatePair | serialization/marshal.go:204 | Which code units a scalar value is written as |
| Utf16.Unpaired | serialization/unmarshal.go:242 | A surrogate that is not part of a pair reads as U+FFFD and nothing else is lost |
| Bytes.ByteOf | serialization/marshal.go:20-22 | Words are written with the least significant byte first |
| Wire.BoolWire | serialization/marshal.go:94-100 | True is 42 and false is 72, when written and when read, and a bool is read from nothing else |
| Wire.CharWire | serialization/marshal.go:151-164 | The bytes of one-byte integers: 03 or 04 and the byte, 43 or 44 for zero |
| Wire.NumWire | serialization/marshal.go:166-191 | The tag of each width and sign, 05 to 0A, before the compressed value; for zero the tag plus 40 alone |
| Wire.FloatWire | serialization/marshal.go:192-196 | 0B and eight bytes, 4B for zero |
| Wire.StrWire | serialization/marshal.go:198-209 | 8D, the count of code units and the units, CD for the empty string |
| Wire.GuidWire | serialization/guid.go:109-119 | 0C and the fields in order, 4C for the empty GUID |
| Wire.NodeWire | federation/nodeid.go:58-69 | 84 10 and the two words, high first; a range is two of these |
| Wire.PtrWire | serialization/marshal.go:210-217 | 01 and the item pointed to, 41 for nil |
| Wire.SliceWire | serialization/marshal.go:236-267 | The tag by element type, a count and the elements; the tag plus 40 alone when empty; an error for slices and maps as elements |
| Wire.MapWire | serialization/marshal.go:268-293 | 80, a count and structs of a key and a value, C0 for the empty map |
| Wire.StructWire | serialization/marshal.go:49-87 | 00, the size counting header and closing tags, no flags, 1F, the fields, 2F 3F |
| Wire.FieldsWire | serialization/marshal.go:227-231 | Fields are encoded one after another |
| Wire.ElemsWire | serialization/marshal.go:263-267 | Elements are encoded one after another |
| Wire.FlattenWire | serialization/common.go:73-85 | The fields reached, in declaration order, an embedded struct's in its place, hidden ones left out |
| Wire.AcceptedTags | serialization/unmarshal.go:147-301 | On any input an item is decoded only under the tags of its type; under a tag with the bit 40 it is the zero value and nothing is read |
| Wire.NumDecodes | serialization/unmarshal.go:185-209 | A number read is the one in the compressed code, modulo the number of values of its width |
| Wire.TypeInformationSkipped | serialization/unmarshal.go:100-117 | A struct whose object carries type information, of whatever bytes, is read as if it did not |
| Schema.CollectFields | serialization/common.go:56-81 | The loop over declared fields gathers the fields reached by the codec, embedded structs flattened to any depth, each with its value |
| Schema.PutGet | serialization/common.go:56-81 | Storing decoded values through the flattened field list leaves a well-typed struct whose fields are exactly those values |
| Schema.PutSame | serialization/common.go:56-81 | Storing a struct's own field values, over any target, gives that struct, hidden fields aside |
| Schema.SetAllDistinct | serialization/unmarshal.go:343-350 | Storing entries with distinct keys one by one keeps them all |
| Schema.SetAllTyped | serialization/unmarshal.go:343-350 | Storing any entries, keys repeated or not, gives a map with distinct, well-typed keys and values |
| Schema.LastWins | serialization/unmarshal.go:346-351 | Of entries with one key the last one stored stays |
| Codec.Decode | serialization/unmarshal.go:147-360 | On arbitrary bytes, a decoded value has the type of its target |
| Codec.ReadGuid | serialization/guid.go:121-128 | A GUID read is well-formed whatever the sixteen bytes |
| Evolution.GuidAt | serialization/guid.go:109-128 | The sixteen bytes of any GUID read back as it, anywhere in the input |
| Evolution.NodeAt | federation/nodeid.go:58-87 | A node id's tag, count and words read back as it and are consumed exactly |
| Evolution.NodeLands | federation/nodeid_range.go:35-62 | A node id, or a range emitting two tagged items, starts with no ScopeEnd, reads back, and leaves the cursor after its last item |
| Evolution.EmptyLands | serialization/marshal.go:93-139 | Every zero value's single tag is no ScopeEnd and decodes to the zero value, or to the bool it stands for |
| Evolution.ScopeAt | serialization/marshal.go:49-87 | The Size of an object, counted from its header through ObjectEnd, takes the reader to its ScopeEnd, and closing it there leaves the cursor right after the object |
| Evolution.EvolveAll | serialization/unmarshal.go:268-281 | The field loop under a reader with more or fewer fields: shared fields converted, the reader's further fields untouched |
| Evolution.EvolveElems | serialization/unmarshal.go:307-322 | The element loop gives the converted elements and stops after the last one |
| Evolution.ElemsLength | serialization/marshal.go:259-267 | Each element takes at least a byte, so a count fits 32 bits whenever the encoding's length does |
| Evolution.Evolve | serialization/unmarshal.go:147-360 | Schema evolution for one item anywhere in the input: it starts with no ScopeEnd, decodes to exactly the converted value, and is consumed exactly |
| Versioning.SchemaEvolution | serialization/unmarshal.go:362-380 | Unmarshalling, under any compatible reader type and whatever follows, gives exactly the converted value |
| Versioning.CursorExact | serialization/unmarshal.go:147-360 | ... and the cursor ends exactly after the encoding |
| Versioning.SharedFields | serialization/unmarshal.go:268-281 | Field by field what conversion means: the writer's value where it has the field, the target's own otherwise |
| Versioning.StructFields | serialization/unmarshal.go:258-287 | The fields reached in a converted struct are those SharedFields lists |
| Versioning.SupportedEncodes | serialization/marshal.go:145-299 | Every value of a type with an encoder case at every level is encoded |
| Versioning.SameConvert | serialization/unmarshal.go:147-360 | Under the writer's own type conversion changes nothing, whatever the target held |
| Versioning.RoundTrip | serialization/marshal.go:301-324 | Every value of a supported type marshals, and if the result is shorter than 2^32 bytes, unmarshals to itself from any bytes that start with it |
| Versioning.UniquelyDecodable | serialization/marshal.go:145-299 | Two encodings of one type shorter than 2^32 bytes, followed by anything, are the same bytes only if the values and the followers are the same |
| Versioning.EmbeddingInvisible | serialization/common.go:56-81 | Structs embedded to any depth encode to the same bytes as their fields written inline |
| Versioning.EmbeddingInvisibleToReader | serialization/common.go:56-81 | Any input decodes into either form with the same fields, the same failures and the same cursor |
| Versioning.BaseReadsDerived | serialization/unmarshal.go:258-287 | A reader of a first-embedded base recovers the base of any derived value that is encoded in fewer than 2^32 bytes |
| Encoder.FillBackwards | serialization/bytecompress.go:55-90 | The backward loop ends within the buffer, and what it filled is the code |
| Encoder.EncodeState.PushBuffer | serialization/marshal.go:28-32 | A new empty buffer on top of the unchanged stack |
| Encoder.EncodeState.PopBuffer | serialization/marshal.go:34-42 | The top is returned, the buffer below is current again |
| Encoder.EncodeState.ObjectScopeEnd | serialization/marshal.go:49-87 | The popped buffer, framed with its exact size, is appended to the buffer below |
| Encoder.EncodeState.WriteCompressed | serialization/bytecompress.go:50-104 | Exactly the compressed code is appended, and nothing for zero |
| Encoder.EncodeState.WriteEmpty | serialization/marshal.go:93-139 | The single empty tag is appended, or nothing and an error |
| Encoder.EncodeState.Value | serialization/marshal.go:145-299 | Success appends exactly the encoding to the current buffer and restores the stack; the buffers below never change |
| Encoder.EncodeState.Fields | serialization/marshal.go:223-235 | The same for an object scope |
| Encoder.EncodeState.Elements | serialization/marshal.go:236-267 | The same for a tag, a count and elements |
| Encoder.Marshal | serialization/marshal.go:301-324 | Byte slices pass through; anything else but a struct is refused; for a struct the root buffer ends up as the encoding, or there is an error exactly when there is none |
| Decoder.DecodeState.ReadCompressed | serialization/bytecompress.go:13-48 | The loop, wrapping at 64 bits in every step, reads what the code stands for, or fails where ReadAt does |
| Decoder.DecodeState.ReadObjectBegin | serialization/unmarshal.go:88-124 | The announced end and the position of the first field, type information skipped, on any input |
| Decoder.DecodeState.ConsumeObjectEnd | serialization/unmarshal.go:126-145 | Seeks to the announced end and requires ScopeEnd and ObjectEnd there |
| Decoder.DecodeState.Value | serialization/unmarshal.go:147-360 | The cursor-driven decoder computes Codec.Decode on any input, errors included |
| Decoder.DecodeState.Fields | serialization/unmarshal.go:268-281 | The field loop computes Codec.DecodeAll, leaving off at ScopeEnd |
| Decoder.DecodeState.Elements | serialization/unmarshal.go:302-322 | The count and the element loop compute Codec.DecodeElems |
| Decoder.UnmarshalInto | serialization/unmarshal.go:362-380 | Unmarshalling into a target computes Codec.Unmarshal |
| HeaderTheorems.ParseBlock | transport/messageheaders.go:256-374 | Parsing a block of records is applying them in order |
| HeaderTheorems.NextOfCut | transport/messageheaders.go:232-254 | Which cuts of a record look like the end of the block and which are errors |
| HeaderTheorems.CutAt | transport/messageheaders.go:232-254 | Every proper prefix of a block is some whole records and fewer bytes of the next one than it has |
| HeaderTheorems.ParsePrefix | transport/messageheaders.go:232-271 | A block cut after any number of bytes parses to the headers of its whole records or to an error, never to a part of a record |
| HeaderTheorems.FixedBack | transport/messageheaders.go:117-197 | All fixed headers come back from their records, defaults from absent ones |
| HeaderTheorems.ListApplied | transport/messageheaders.go:199-205 | The records of one id are appended in order, typed where an activator is registered, or the parse fails where one cannot be received |
| HeaderTheorems.CustomApplied | transport/messageheaders.go:357-371 | The custom headers in a given order of ids are added to the parsed map |
| HeaderTheorems.AnyOrder | transport/messageheaders.go:199-205 | What arrives does not depend on the order the map is enumerated in |
| HeaderTheorems.HeadersRoundTrip | transport/messageheaders.go:117-374 | For every enumeration order, parsing what was written gives the fixed headers and per id the ordered custom headers, or fails exactly when one of these cannot be received |
| HeaderTheorems.TypedArrives | transport/messageheaders.go:359-367 | A typed custom header read under another version of its type arrives converted |
| HeaderWire.RecordWire | transport/messageheaders.go:210-230 | The bytes of a record: id, size, body |
| HeaderWire.RecordReads | transport/messageheaders.go:232-254 | What is read from any bytes, and which shortages look like the end of the block |
| HeaderWire.FixedIds | transport/messageheaders.go:117-197 | Which ids are written for which headers, in which order, and when |
| HeaderWire.ListWire | transport/messageheaders.go:199-205 | The custom headers of an id are one record each, in order |
| HeaderWire.SetsFlag | transport/messageheaders.go:304-330 | 8005, 8009 and 8008 set the reply, priority and idempotency flags and nothing else, or fail as their bodies do |
| HeaderWire.SetsActor | transport/messageheaders.go:286-294 | 8001 sets the actor and nothing else |
| HeaderWire.SetsAction | transport/messageheaders.go:295-303 | 8002 sets the action and nothing else |
| HeaderWire.SetsRetry | transport/messageheaders.go:347-356 | 8006 sets the retry count and nothing else |
| HeaderWire.SetsFault | transport/messageheaders.go:334-345 | 8007 sets the error code and whether there is a fault body, and nothing else |
| HeaderWire.SetsId | transport/messageheaders.go:278-285 | 8003 and 8004 set the message id and the one related to, decoded over what was there |
| HeaderWire.OtherIds | transport/messageheaders.go:273-275 | 8000 and 8048 are skipped; any other id adds a custom header |
| Frames.FrameRoundTrip | transport/frame.go:39-119 | A frame whose lengths fit is read back with its provider, its header/body split and nothing of what follows, or refused: exactly when a checksum is not accepted |
| HeaderWire.FrameWire | transport/frame.go:88-119 | The bytes of a frame, its header checksum being that of the header with both checksums zero |
| HeaderWire.FrameReads | transport/frame.go:39-78 | Reading a frame from any twelve bytes or more fails exactly when the message is not there or a checked checksum is wrong; otherwise where its parts lie |
| Frames.MessageRoundTrip | transport/message.go:21-72 | A message is read back from the front of a stream: headers as they arrive, body, and the rest of the stream |
| Frames.StreamRoundTrip | transport/message.go:50-72 | Messages written back to back are read back in order, and the stream ends cleanly |
| Proxy.ParseSettles | transport/messageheaders.go:256-374 | Whatever bytes are parsed, the custom headers are of the kind that survives being written again |
| Proxy.SettledArrives | transport/messageheaders.go:357-371 | Such custom headers arrive unchanged |
| Proxy.BackIffSettled | transport/messageheaders.go:117-374 | Headers come back identical exactly when the retry count is not negative and the custom headers are settled: under ids of their own, no list empty, typed where an activator is registered and raw elsewhere |
| Proxy.PassOn | transport/piper.go:113-150 | One forwarded message reads again as the same headers and body, but for a negative retry count |
| Proxy.HopTransparent | transport/piper.go:111-152 | An unfiltered direction sends on the messages it reads, in order, whatever order it rewrites custom headers in; unchanged exactly when no retry count is negative |
| Proxy.FilterLaw | transport/piper.go:130-150 | A filtered direction delivers exactly the messages the filter returns, in order, and nothing for those it drops |
| Proxy.FilterStops | transport/piper.go:148-150 | It ends at the first message it cannot marshal: what came before is delivered, nothing after |
| Proxy.ProxyTransparent | transport/piper.go:111-152 | The same for any number of hops from the first read to the last |
| NegativeRetry.RetryReceived | transport/messageheaders.go:347-356 | A header block with any retry count, negative ones too, parses to it |
| NegativeRetry.NegativeRetryLost | transport/piper.go:111-152 | A received message with a negative retry count leaves one unfiltered hop with none |
| Panics.UnmarshalPanicsExactly | serialization/unmarshal.go:169-183 | Some input makes unmarshalling into a type panic exactly when the type has a one-byte integer at some depth |
| Panics.ItemPanics | serialization/unmarshal.go:169-183 | For each such type one item that does, wherever it lies and whatever the target holds |
| Panics.MessagePanicsExactly | transport/message.go:59-72 | If no type registered for custom headers has a one-byte integer, reading a message panics exactly when its header length exceeds its frame |
| Panics.RegisteredTypePanics | transport/messageheaders.go:359-367 | A registered type with one, if its item fits a header, allows a header block that panics |
| Panics.GeneratorPanicsExactly | federation/nodeid_generator.go:92-95 | Generating a node id panics exactly when the name has no separator, and has no other error |
| Transport.WriteMessageHeader | transport/messageheaders.go:210-230 | One record is appended to the stream |
| Transport.WriteHeaders | transport/messageheaders.go:117-208 | The writes in sequence append the block of all records, in the order the map was enumerated |
| Transport.NextMessageHeader | transport/messageheaders.go:232-254 | Reads the next record and leaves the stream after it |
| Transport.ParseHeaders | transport/messageheaders.go:256-374 | The loop filling in headers computes Headers.Parse |
| Transport.WriteFrame | transport/frame.go:88-119 | Exactly the frame, checksums as configured, is appended |
| Transport.ReadFrame | transport/frame.go:39-78 | Reads exactly one frame, or fails as NextFrame does |
| Transport.WriteMessageWithFrame | transport/message.go:21-57 | The frame of a message is appended, or nothing when it cannot be marshalled |
| Transport.ReadMessage | transport/message.go:59-72 | Reads exactly one message, or fails as NextMessage does |
| Transport.CopyLoop | transport/piper.go:111-152 | What the loop sends delivers the messages read, or those the filter returns for them, to every reader the checksums suit |
| Factory.GuidV4NotEmpty | serialization/guid.go:38-53 | Whatever the random bytes, the GUID has version 4 and the RFC 4122 variant, so it is not empty |
| Factory.IdsDistinct | transport/message.go:96-104 | Two ids of one factory are equal exactly when a multiple of 2^32 draws lies between them; none is empty |
| HeaderWire.Draws | transport/message.go:102-104 | The first id has index 1, every further one the next, wrapping around after 2^32 |
| HeaderWire.PrefixBytes | serialization/guid.go:38-53 | The prefix is the random bytes but for the four version and the two variant bits |
| Factory.MessageFactory.Next | transport/message.go:102-104 | The next id of the wrapping counter |
| Factory.MessageFactory.FillMessageId | transport/message.go:96-100 | Only an empty id is replaced, and only then is one drawn |
| Tls.HandshakeSendable | transport/tls.go:76-90 | Every handshake message whose frame length fits can be marshalled and fits its size fields, the negotiation header included |
| Tls.HandshakeBack | transport/tls.go:60-65 | A handshake message is read back from the front of the wire: its body and nothing of what follows |
| Tls.HandshakeNegotiates | transport/tls.go:76-92 | On the wire: a frame of provider 1 whose header block holds exactly one record with id 8048, offering both kinds of framing, if it is the first, and none if not |
| Tls.SecureConn.Read | transport/tls.go:56-73 | Buffered bytes first, then the next handshake message, or raw bytes once the handshake is complete |
| Tls.SecureConn.Write | transport/tls.go:75-98 | A framed message, whose bytes carry the negotiation record exactly when none was sent before, or the raw bytes once the handshake is complete |
| Tls.SecureConn.constructor | transport/tls.go:20-28 | The initial buffer counts as received |
| TlsPipe.StepKeeps | transport/tls.go:52-98 | Every write, read and switch keeps what was sent equal to what was received, buffered and in flight, and no read fails |
| TlsPipe.BytePipe | transport/tls.go:20-98 | After every run the bytes sent, initial buffer first, are in order those received, those buffered, the bodies of the handshake messages on the wire and the raw bytes after them, and the wire holds nothing else; the bytes of the first framed write, and of no other, carry a record with id 8048 that offers framing |
| TlsPipe.EmptyWriteEndsStream | transport/tls.go:59-69 | A framed read into a non-empty buffer succeeds exactly when the message read is not empty |
| RequestTable.StepKeeps | transport/requesttable.go:20-80 | Every atomic step of every thread keeps the invariant |
| RequestTable.ChannelSafety | transport/requesttable.go:20-80 | In every interleaving, even with reused ids, a channel carries at most one message or at most one close, never both; no send on and no close of a closed channel ever happens or is about to |
| RequestTable.NeverSendsOnClosed | transport/requesttable.go:68-80 | From any state of the invariant no thread is about to send on a closed channel |
| RequestTable.Correlation | transport/requesttable.go:34-45 | A reply returned names its request, which has not the empty id, came through a Feed and is returned by no other call; a cancellation means a Close removed the request; a request whose call returned is out of the table |
| RequestTable.ReplyWasFed | transport/requesttable.go:34-80 | In every run a returned reply is, content and all, a message that was fed |
| RequestTable.AnswersFed | transport/requesttable.go:34-80 | In every run a message is returned at most as often as it was fed |
| RequestTable.OutcomeHappened | transport/requesttable.go:34-45 | Every outcome returned is one that happened to that very call: a delivery, its channel seen closed, its context ended, its request not sent |
| RequestTable.CanBeAnswered | transport/conn.go:295-306 | From any state a request sent, and answered while it waits, returns exactly that reply and leaves the table |
| RequestTable.CanBeCancelled | transport/requesttable.go:20-45 | From any state a waiting request is cancelled by a Close of it and leaves the table |
| RequestTable.CanTimeOut | transport/requesttable.go:34-45 | From any state a waiting request whose context ends returns that, closing its own channel on the way |
| RequestTable.UnrelatedFeed | transport/requesttable.go:68-80 | A message with the empty id, or one not in the table, changes nothing |
| RequestTable.Conservation | transport/requesttable.go:20-80 | Requests put = in the table + removed by a Feed + removed by a Close + replaced, each in one place |
| RequestTable.DistinctRequests | transport/conn.go:295-306 | With distinct ids nothing is replaced, a reply reaches only the request it names, and when a call has returned its id is not in the table |
| RequestTable.FactoryRequests | transport/conn.go:295-306 | In every run in which the ids put were drawn from one factory within 2^32 draws, in whatever order they were put, the same holds, and no request has the empty id that Feed ignores |
| RequestTable.Machine.Store | transport/requesttable.go:56-66 | A new open channel, stored under its id, replacing what was there |
| RequestTable.Machine.LoadAndDelete | transport/requesttable.go:68-80 | The lookup of a Feed or a Close, in place, is that step of the state machine |
| RequestTable.Machine.CloseOnce | transport/requesttable.go:26-29 | The once-only close, in place, is that step |
| RequestTable.Machine.Deliver | transport/requesttable.go:74 | A send meeting a receive, in place, is that step |
| RequestTable.Machine.Leave | transport/requesttable.go:34-45 | A waiter leaving its select for its deferred Close, in place, is that step |
| PearsonTable.Permutation | federation/nodeid_generator.go:45-62 | The table is a permutation |
| PearsonTable.Looked | federation/nodeid_generator.go:45-62 | Looking up by halving finds the entry of the table as it is written down |
| NodeIds.HashSteps | federation/nodeid_generator.go:72-79 | The hash of one more input byte is the table entry of the exclusive or of it and the hash so far; the j-th byte starts from the first input byte plus j |
| NodeIds.XorBitAt | federation/nodeid_generator.go:76 | Exclusive or, bit by bit |
| NodeIds.PaddedBytes | federation/nodeid_generator.go:67-70 | What is hashed: the name in little-endian UTF-16 between "UTzJ" and "X3if" |
| NodeIds.HashHalves | federation/nodeid_generator.go:84-88 | The first eight bytes of the hash are Hi, the other eight Lo, least significant byte first |
| NodeIds.HashInPlace | federation/nodeid_generator.go:65-82 | The nested loops fill in the sixteen bytes of the hash |
| NodeIds.HashBytesDistinct | federation/nodeid_generator.go:72-79 | For every input the sixteen hash bytes are pairwise distinct |
| NodeIds.OneByteChangesAll | federation/nodeid_generator.go:72-79 | Inputs that differ in one byte hash to results that differ in all sixteen positions |
| NodeIds.GenerateV4 | federation/nodeid_generator.go:84-113 | The step-by-step generator, its early returns and its panic included, computes NodeIdFromV4 |
| NodeIds.SpreadInjective | federation/nodeid_generator.go:104-106 | Instances are spread to the same 24 bits exactly when they agree modulo 2^24; the product never overflows 64 bits |
| NodeIds.SpreadOnto | federation/nodeid_generator.go:104-106 | Every 24-bit value is the spread of an instance below 2^24 |
| NodeIds.ParseUintExactly | federation/nodeid_generator.go:97-100 | Exactly the decimal notations of n, with any number of leading zeros, parse to n, for every n below 2^64 |
| NodeIds.SameDigits | federation/nodeid_generator.go:97-100 | Digit strings of one length that stand for one number are the same |
| NodeIds.InstanceId | federation/nodeid_generator.go:92-112 | The id of role, separator and instance in decimal: the top 24 bits of Hi from the role's hash and the instance, all other bits those of the whole name's hash |
| NodeIds.InstancesSpread | federation/nodeid_generator.go:92-110 | For two names of one role with decimal instances a and b, the top 24 bits of Hi are equal exactly when a and b agree modulo 2^24 |

## Left out

- Go types: `float32`; recursive types (a schema is finite, so a struct cannot point back to itself); arrays, channels,
  functions and interfaces are one unsupported type.
- Hidden fields (unexported ones, embedded non-structs) have no contents in the model; nothing reads or writes them.
  Embedded custom marshalers, which promote their methods, are not modelled.
- Decode targets are values returned on success: a target changed halfway by a decode that fails is not captured, nor is
  aliasing between targets. The cursor after a failing decode is not stated.
- Map keys are compared by content; the Go maps compare pointers by address and floats by IEEE equality.
- Versioning.SchemaEvolution: encodings of 2^32 bytes or more, whose Size field wraps around, are not covered; nor are
  they by the round trips and the unique decodability built on it.
- Allocation: a count read is allocated before its items are; running out of memory is not modelled.
- Polymorphic objects: type information is skipped, as in the code; the encoder never produces it.
- The results of checksums are arbitrary functions of the bytes; random bytes and the order a map is enumerated in are
  parameters or any choice; MD5 node ids and `NodeIDFromHex` are not modelled.
- `GUIDFromString` and the `String` methods: text forms with no part in the protocols.
- Strings are sequences of Unicode scalar values; Go strings that are not valid UTF-8 are not covered.
- Errors are kinds, not texts.
- Sockets, dialling, listening, `tls.Conn` itself, deadlines, logging and timers: only the byte streams and atomic
  steps they induce. Write errors of connections are not modelled.
- Proxy.HopTransparent: messages whose parts outgrow the size fields when rewritten are not covered; sizes are a
  requirement.
- TlsPipe.BytePipe: the reader switches at the point of the stream where the writer did, which the TLS handshake
  ensures and this model takes as given.
- RequestTable.StepKeeps: the steps are a state machine on values so that all interleavings can be quantified over; the
  class Machine performs the table and channel operations in place. `RequestTable.Close` is a number of `Close` calls, one per
  entry it meets. That a Feed is ever received is not stated: one whose waiter left stays blocked.
- RequestTable.DistinctRequests: the network between the ends is any source of replies; a peer that answers with a wrong
  `RelatesTo` is covered only as a reply to the request it names.
- Heartbeats, connection authentication and callbacks of `connection.Wait`: only its call of Feed is modelled.
- `Piper.handle`, which forwards the first message before the loops start.
- `AppendCustomHeader` called repeatedly: it stores only under a new id; messages here have the headers they have.
- `NodeIdRange.Contains`, the partner table, lease and naming messages.
