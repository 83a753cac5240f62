# sockify, modelled and proved in Dafny

sockify accepts WebSocket connections and relays their payload to a TCP target and back. This project
models the parts of it that are hard to get right and proves what they are for:

- **the session** (`Session.dfy`, `SessionSpec.dfy`, `SessionSteps.dfy`): one class with the fields of the
  session record, whose methods are the functions of `src/proxy/proxy.c`. The two transports
  (`Transport.dfy`) are oracles: each call moves any number of bytes, would block, or fails. A session is
  compared with a snapshot of every byte that crossed either leg, and `Session.RunSession` proves the
  promises for every buffer size, budget, order of events and behaviour of the peers. `Intake.dfy` says
  which client bytes a full ring makes the session drop, and `SessionLimits.dfy` gives the exact ring sizes that
  its promises need;
- **the frame format** (`WsSpec.dfy`), sections 5.2 to 5.5 of RFC 6455: an encoder, a whole-stream decoder
  and a byte-at-a-time automaton, with the theorems that tie the three together; **the streaming parser**
  (`WsParser.dfy`), proved against the automaton; **the frame writer** (`WsWriter.dfy`), proved against the
  decoder of a client. `WsLaws.dfy` states the format once more in the numbers of the standard, without the
  definitions that these share, with examples of its section 5.7;
- **the ring buffer** (`Ring.dfy`) as a bounded queue, **the handshake** (`Handshake.dfy`) as a declarative
  verdict on lines, **SHA-1** (`Sha1.dfy`) against RFC 3174, **Base64** (`Base64.dfy`) against RFC 4648, with the
  sample digest of RFC 3174 and the sample exchange of RFC 6455 computed (`Sha1Samples.dfy`,
  `HandshakeSamples.dfy`), and
  **the session list** (`SessionList.dfy`) with its accept, tick and shutdown loops.

Bytes are integers below 256 and sizes are unbounded integers; the widths that matter are written out: the
64-bit length field and its top bit, the 32-bit words and the 64-bit byte count of SHA-1, the effective ring
size of at most 65536. Null checks are left to Dafny's non-null types.

Main results, by name:

- client to target: `SessionSpec.RelaysToTarget`, `SessionSpec.TargetGotPrefix`, `Intake.DropsExactly`
- target to client: `SessionSpec.RelaysToClient`, `SessionSpec.ClientWireLanguage`
- every run: `Session.RunSession` (what each event of the schedule does, and before and after each of them both
  relays, wire language, capacity, interest masks, closing only for cause)
- parser: `WsParser.FeedStream`, `WsSpec.AutomatonRefinesDecoder`, `WsSpec.DecodeEncode`, `WsSpec.EncodeDecode`,
  `WsLaws.LegalExactly`, `WsLaws.RejectedByGrammar`
- handshake: `Handshake.AcceptedExactly`, `Handshake.JudgeChunks`, `Handshake.UpgradeAccepted`,
  `HandshakeSamples.SampleExchange`
- session list: `SessionList.RunServer`

Where code and documentation differ, the model follows the code. The repository's README speaks of high and
low water marks; a session consults only the high one. Three properties hold under an exact condition:

- Back-pressure cannot deadlock if and only if a ring holds at least two bytes (`SessionLimits.NoDeadlockExactly`).
  With one byte, every session whose response is sent waits for nothing (`SessionLimits.OneByteRingsAreStuck`, and
  the clause of `Session.RunSession` for rings of one byte).
- The client bytes that come in the same read as the end of the request may outgrow the ring: the zero-capacity
  return of `session_process_ws_bytes` then drops the rest of them. `SessionSpec.Heard` is the client's stream
  without these bytes, as a function of the input and the ring size, and the relay to the target is proved for what
  is heard, in all runs. Bytes are dropped if and only if a part of the early bytes that is not the whole carries
  exactly as much data as the ring holds, with no illegal header, CLOSE, PING or oversized control frame in it
  (`Intake.DropsExactly`). Rings of 4087 bytes or more never drop anything, and every smaller one drops the end of
  some input after a request that is accepted (`SessionLimits.RingSizeExactly`, `SessionLimits.OverfullDrops`).

- A control frame that does not fit the ring closes the session. No read that the session asks for can lead to that
  with rings of 16849 bytes or more, and with every smaller ring of at least two bytes some read does
  (`SessionLimits.ReadSizeExactly`); `Session.RunSession` carries the bound through all runs.

## Model

| member | source | states |
|---|---|---|
| `Core.XorLaw` | src/ws/ws_frame.c:240-243 | exclusive or: each bit of the result is set exactly where the bits of the two bytes differ |
| `Core.XorInvolution` | src/ws/ws_frame.c:240-243 | masking twice with the same key byte gives the byte back |
| `Core.BeValueOfBytes` | src/core/byte_order.c:28-52 | the big-endian bytes of a number that fits denote that number |
| `Core.BeBytesOfValue` | src/core/byte_order.c:3-26 | the number read from big-endian bytes writes back to the same bytes |
| `Core.ReadBe16Value` | src/core/byte_order.c:3-6 | the 16-bit reader computes the big-endian value |
| `Core.ReadBe64Value` | src/core/byte_order.c:16-26 | the 64-bit reader computes the big-endian value |
| `Core.WriteBe16` | src/core/byte_order.c:28-32 | stores the two big-endian bytes and touches nothing else |
| `Core.WriteBe64` | src/core/byte_order.c:42-52 | stores the eight big-endian bytes and touches nothing else |
| `WsSpec.StepWellFormed` | src/ws/ws_frame.c:164-268 | every byte keeps the state in range: offset inside the frame, header legal, fragment opcode 0, TEXT or BINARY |
| `WsSpec.RunConcat` | src/ws/ws_frame.c:164-268 | cutting the input anywhere changes neither the events nor the state |
| `WsSpec.RunWellFormed` | src/ws/ws_frame.c:36-128 | every state reached without an error is well formed |
| `WsSpec.RunPayload` | src/ws/ws_frame.c:236-260 | a block of payload gives its bytes unmasked with the right key phase, and the end of the frame exactly at its length |
| `WsSpec.AutomatonRefinesDecoder` | src/ws/ws_frame.c:138-269 | for every stream the automaton rejects exactly the illegal ones and reports exactly the decoded frames and the payload of the unfinished one |
| `WsSpec.DecodeEncode` | src/ws/ws_frame.c:83-115 | completeness: every legal frame list under any mask keys decodes to itself |
| `WsSpec.EncodeDecode` | src/ws/ws_frame.c:83-115 | soundness: whatever is decoded is legal and encodes to the bytes read |
| `WsSpec.RejectedExactly` | src/ws/ws_frame.c:165-221 | a stream is rejected if and only if it is legal frames followed by an illegal header |
| `WsLaws.LegalExactly` | src/ws/ws_frame.c:83-97 | a list of frames is legal if and only if control frames are whole and short, a CONTINUATION stands only inside an open message, and no message begins inside another |
| `WsLaws.BadHeaderExactly` | src/ws/ws_frame.c:165-211 | the headers that are refused, by their bytes |
| `WsLaws.RejectedByGrammar` | src/ws/ws_frame.c:165-221 | a stream is rejected if and only if it is frames that obey the grammar followed by a header that is refused |
| `WsLaws.KindsExactly` | src/proxy/proxy.c:458-478 | the opcodes 0, 1 and 2 carry data, 9 asks for an answer, 8 ends the session |
| `WsLaws.DataIsRelayed` | src/proxy/proxy.c:458-469 | what goes to the target is the joined payload of the frames with opcodes below 8 before the first with opcode 8 |
| `WsLaws.MaskedHello` | src/ws/ws_frame.c:236-260 | the masked example of section 5.7 of RFC 6455 is decoded to "Hello" |
| `WsSpec.RelayedFrames` | src/proxy/proxy.c:458-499 | what is relayed from the events is the joined payload of the data frames before the first CLOSE |
| `WsSpec.RelayedMonotone` | src/proxy/proxy.c:502-544 | more input only adds to what is relayed, and nothing after a CLOSE |
| `WsSpec.DecodedIsClose` | src/proxy/proxy.c:478-487 | the CLOSE payload that the automaton reports is that of the first CLOSE frame that the decoder finds |
| `WsParser.FeedStream` | src/ws/ws_frame.c:138-269 | any stream in any chunks with any room in each call: the messages delivered are exactly the events of the automaton, all of the stream is consumed unless it is illegal or a call had room for less than 125 bytes, and the encoding of any legal frame list delivers that list |
| `WsParser.FeedChunk` | src/ws/ws_frame.c:138-269 | one chunk is consumed to its end, to the byte that is rejected, or to a call with too little room |
| `WsParser.Parser.constructor` | src/ws/ws_frame.c:12-19 | a new parser is valid and at the start |
| `WsParser.Parser.ResetFrame` | src/ws/ws_frame.c:36-68 | ends a frame with the right fragment state; its two protocol errors cannot happen after a legal header |
| `WsParser.Parser.ValidateFrameHeader` | src/ws/ws_frame.c:83-97 | accepts exactly the headers that are legal in the current fragment state |
| `WsParser.Parser.FinishLength` | src/ws/ws_frame.c:99-115 | accepts exactly minimal lengths without the top bit under a legal header, and stores the length |
| `WsParser.Parser.TakeHeaderByte` | src/ws/ws_frame.c:165-200 | each of the first two bytes makes the automaton's step or is rejected exactly when the automaton rejects |
| `WsParser.Parser.TakeLengthByte` | src/ws/ws_frame.c:201-211 | each extended length byte does the same |
| `WsParser.Parser.TakeMaskByte` | src/ws/ws_frame.c:212-221 | each key byte makes the automaton's step; an empty frame ends with its key |
| `WsParser.Parser.TakePayload` | src/ws/ws_frame.c:222-260 | unmasks the longest block that data, room and frame allow and reports exactly its events |
| `WsParser.Parser.Feed` | src/ws/ws_frame.c:138-269 | one call agrees with the automaton in all four outcomes, keeps the parser valid unless it reports a protocol error, and never overflows with room for 125 bytes |
| `WsWriter.WriteHeader` | src/ws/ws_frame.c:305-314 | writes the first byte and the minimal length field |
| `WsWriter.WriteFrame` | src/ws/ws_frame.c:271-322 | exactly when it fails and how; on success the encoding of the frame, the rest of the output untouched |
| `WsWriter.DecodeEncodeOuts` | src/ws/ws_frame.c:293-319 | the joined output of any list of writes decodes to that list, whatever follows |
| `WsWriter.EncodeOutsInjective` | src/ws/ws_frame.c:293-319 | two frame lists with the same bytes are equal |
| `WsWriter.DecodeOutMonotone` | src/ws/ws_frame.c:271-322 | what a client decodes from a prefix is a prefix of what it decodes later |
| `WsLaws.OutBytes` | src/ws/ws_frame.c:293-319 | the bytes of a frame: 0x80 and the opcode, the shortest length field, the payload |
| `WsLaws.UnmaskedLengths` | src/ws/ws_frame.c:305-314 | the headers of the 256-byte and 64 KiB examples of section 5.7 of RFC 6455 |
| `Ring.WrapIsMod` | src/core/buffer.c:84-87 | the wrapped position is the sum modulo the capacity |
| `Ring.WindowPush` | src/core/buffer.c:82-89 | storing at the write position appends to the contents |
| `Ring.WindowDrop` | src/core/buffer.c:145-150 | advancing the read position drops a prefix of the contents |
| `Ring.Init` | src/core/buffer.c:10-31 | refuses exactly an empty store and water marks out of order; else an empty valid ring |
| `Ring.Buffer.Clear` | src/core/buffer.c:33-41 | the ring is empty |
| `Ring.Buffer.Write` | src/core/buffer.c:63-98 | appends exactly the longest prefix that fits and reports overflow if that is not all |
| `Ring.Buffer.Peek` | src/core/buffer.c:100-130 | copies the oldest bytes out and changes nothing |
| `Ring.Buffer.Consume` | src/core/buffer.c:132-156 | removes the oldest bytes |
| `Ring.Buffer.Read` | src/core/buffer.c:158-180 | removes and returns the oldest bytes |
| `Ring.RunOps` | src/core/buffer.c:33-180 | every sequence of operations agrees with a bounded first-in first-out queue, in contents and in all bytes handed out |
| `Base64.DecodeEncode` | src/core/base64.c:23-66 | decoding recovers every input, padded tails included, and the length is four for every three bytes begun |
| `Base64.EncodeInto` | src/core/base64.c:6-67 | overflows exactly when the text and its NUL do not fit, else writes the encoding and the NUL |
| `Base64.EncodeTail` | src/core/base64.c:43-60 | the one- and two-byte tails with their padding |
| `HandshakeSamples.DigitsInOrder` | src/core/base64.c:3-4 | the digits are those of table 1 of RFC 4648 |
| `Sha1.PadInjective` | src/core/sha1.c:109-129 | no two messages have the same padding |
| `Sha1.PaddingStops` | src/core/sha1.c:119-122 | the padding loop stops after exactly the wanted number of zero bytes, although the block position wraps at 64 |
| `Sha1.WrappedLength` | src/core/sha1.c:115 | the wrapped 64-bit length has the low eight bytes of the true bit length |
| `Sha1.HashBlocksExtend` | src/core/sha1.c:93-107 | later bytes do not change the fold over earlier blocks |
| `Sha1.Context.constructor` | src/core/sha1.c:22-31 | the initial state of section 6.1 of RFC 3174 |
| `Sha1.Context.Schedule` | src/core/sha1.c:43-51 | the 80 words of the message schedule |
| `Sha1.Context.Process` | src/core/sha1.c:33-91 | one compression of the block into the state |
| `Sha1.Context.Absorb` | src/core/sha1.c:101-105 | one byte keeps state, block and position in step with all bytes absorbed |
| `Sha1.Context.Update` | src/core/sha1.c:93-107 | absorbs data; the state depends only on all bytes absorbed, not on the calls |
| `Sha1.Context.FillBlock` | src/core/sha1.c:119-122 | absorbs the zero bytes of the padding and terminates |
| `Sha1.Context.PutLength` | src/core/sha1.c:124-129 | absorbs the eight length bytes |
| `Sha1.Context.Final` | src/core/sha1.c:109-137 | the digest of the padded message; for 2^61 bytes and more the length field wraps as in the code |
| `Sha1.Sum` | src/core/sha1.c:139-148 | the digest of the input |
| `Sha1Samples.AbcDigest` | src/core/sha1.c:139-148 | the digest of "abc" is the one that RFC 3174 gives |
| `Sha1Samples.SampleAccept` | src/ws/ws_handshake.c:127-158 | the accept value of the sample key is the one that section 1.3 of RFC 6455 gives |
| `Handshake.FindHeaderEnd` | src/ws/ws_handshake.c:108-125 | finds the first CRLF CRLF, asks for more, or refuses a request above 8192 bytes |
| `Handshake.JoinLines` | src/ws/ws_handshake.c:245-293 | the lines of a header, each with its CRLF, and the empty line are exactly the header |
| `Handshake.LinesJoin` | src/ws/ws_handshake.c:245-293 | splitting gives back any joined lines |
| `Handshake.LineStartInBlock` | src/ws/ws_handshake.c:246-249 | the scanner meets an empty line only two bytes before the end of the header |
| `Handshake.FindLineEnd` | src/ws/ws_handshake.c:219-225 | finds the end of a line |
| `Handshake.ContainsToken` | src/ws/ws_handshake.c:45-67 | true exactly when some maximal run without separators equals the token, ignoring case |
| `Handshake.TrimSpan` | src/ws/ws_handshake.c:69-87 | the span with no blank at either end, outside which there are only blanks |
| `Handshake.TrimExactly` | src/ws/ws_handshake.c:69-87 | that span is the only one |
| `Handshake.MemoryContains` | src/ws/ws_handshake.c:89-106 | true exactly when the needle occurs |
| `Handshake.CiEqualN` | src/ws/ws_handshake.c:17-27 | equality ignoring ASCII case |
| `Handshake.CiEqualMeans` | src/ws/ws_handshake.c:9-27 | equality ignoring case: at each place the bytes are equal or the two cases of one ASCII letter |
| `HandshakeSamples.SeparatorsExactly` | src/ws/ws_handshake.c:40-43 | the separators are comma, space, tab, CR and LF; blanks are space and tab |
| `HandshakeSamples.TokenBetween` | src/ws/ws_handshake.c:45-67 | a token between any two separators is found |
| `Handshake.CheckRequestLine` | src/ws/ws_handshake.c:227-236 | the conditions on the request line |
| `Handshake.SplitField` | src/ws/ws_handshake.c:259-270 | the name before the first colon and the trimmed value |
| `Handshake.NoteField` | src/ws/ws_handshake.c:272-290 | what one header line adds to what was seen |
| `Handshake.ScanLines` | src/ws/ws_handshake.c:245-293 | the line loop computes the fold over the header lines and stops exactly at two bytes before the end |
| `Handshake.ScanMeaning` | src/ws/ws_handshake.c:246-297 | the fold means: every line has a colon, each flag is set if and only if some line sets it, the key is the last usable one |
| `Handshake.AcceptedExactly` | src/ws/ws_handshake.c:219-297 | a header is accepted with a key if and only if its request line and header lines satisfy the stated conditions |
| `Handshake.UpgradeAccepted` | src/ws/ws_handshake.c:177-343 | the usual upgrade request is accepted with its key, for every usable key |
| `Handshake.JudgeChunks` | src/ws/ws_handshake.c:108-125 | the verdict is pending until the header is complete, depends on the header alone and is not changed by later bytes |
| `Handshake.ResponseShape` | src/ws/ws_handshake.c:309-331 | the response is 129 bytes and carries the Base64 of the SHA-1 of key and GUID |
| `Handshake.AcceptKey` | src/ws/ws_handshake.c:127-158 | the accept value of the key as a C string; refuses an empty key and one above 219 bytes |
| `Handshake.Answer` | src/ws/ws_handshake.c:299-341 | the whole response for a key, or why not |
| `Handshake.BuildResponse` | src/ws/ws_handshake.c:177-343 | the result code, response and consumed length for each verdict |
| `HandshakeSamples.RequestLimit` | src/ws/ws_handshake.c:108-125 | a request is too long from 8193 bytes on |
| `HandshakeSamples.FieldLimits` | src/ws/ws_handshake.c:280-290 | a key counts with 1 to 127 bytes, and the version must be 13 |
| `HandshakeSamples.SampleExchange` | src/ws/ws_handshake.c:177-343 | the request with the sample key, in full, is accepted, and its answer is the 101 response in full |
| `Transport.Leg.Read` | src/net/net_posix.c:251-277 | any number of bytes up to the size, or blocked, or failed |
| `Transport.Leg.Write` | src/net/net_posix.c:279-305 | any non-empty prefix of the data, or blocked, or failed |
| `Transport.Leg.Connect` | src/proxy/proxy.c:271-299 | connecting or registering fails, succeeds at once or takes a while |
| `Transport.Leg.FinishConnect` | src/net/net_posix.c:307-323 | a connection in progress succeeded or failed |
| `Intake.FeedTaken` | src/proxy/proxy.c:515-537 | one parser call, in all its outcomes, agrees with the byte-at-a-time account of what is taken |
| `Intake.DropsExactly` | src/proxy/proxy.c:517-519 | input is dropped if and only if a part of it that is not the whole fills the ring with nothing before that stops the session |
| `Intake.TakenAll` | src/proxy/proxy.c:556-563 | input no longer than the room is never dropped |
| `Intake.RelayedCost` | src/ws/ws_frame.c:165-221 | relaying n bytes of data takes at least n + 6 bytes of input, and n + 8 beyond 125 |
| `Intake.DropThreshold` | src/proxy/proxy.c:517-519 | some input below a limit is dropped if and only if the limit leaves room for the cheapest input that fills the ring and one byte more; that input is dropped |
| `Intake.NoStall` | src/ws/ws_frame.c:230-235 | with 118 bytes more room than input, and at least 125, no control frame in the input is too large |
| `SessionSpec.HeardExactly` | src/proxy/proxy.c:438-448 | the whole stream is heard if and only if the ring has room for all early bytes, and always from 4087 bytes on |
| `SessionLimits.RingSizeExactly` | src/proxy/proxy.c:517-519 | no session with an accepted request drops anything if and only if the ring holds 4087 bytes or more |
| `SessionLimits.OverfullDrops` | src/proxy/proxy.c:517-519 | for each smaller ring, a session with an accepted request that drops bytes |
| `SessionLimits.ReadSizeExactly` | src/proxy/proxy.c:556-563 | some read that a session asks for makes the parser give up on a control frame if and only if the rings hold from 2 to 16848 bytes |
| `SessionLimits.NextFrameBytes` | src/proxy/proxy.c:651-667 | the bytes of the next data frame: at most 4096 of those that wait, in order |
| `SessionSteps.EarlyBytes` | src/proxy/proxy.c:402-443 | the early bytes are what follows the request in the read that completed it |
| `SessionSteps.NeverStalls` | src/proxy/proxy.c:515-537 | a parser that stands before an oversized control frame had little room at the start of its input |
| `SessionSpec.OnMessageOpen` | src/proxy/proxy.c:452-500 | handling any message keeps the session invariant or closes the session |
| `SessionSpec.FedNothing` | src/proxy/proxy.c:531-534 | input that completes no piece of payload keeps the invariant |
| `SessionSpec.RelaysToTarget` | src/proxy/proxy.c:502-596 | for every ring size, bytes sent to the target and bytes waiting are exactly the data payload that the whole-stream decoder finds in the client bytes heard, up to the first CLOSE, and the PONG payload is that of the PINGs |
| `SessionSpec.TargetGotPrefix` | src/proxy/proxy.c:711-747 | even in a closed session the target has got a prefix of that |
| `SessionSpec.RelaysToClient` | src/proxy/proxy.c:598-709 | the client wire with client_out is the response and then frames; decoding them and appending the ring gives exactly the bytes read from the target |
| `SessionSpec.ClientWireLanguage` | src/proxy/proxy.c:184-224 | in every state the client wire is a prefix of the response and whole frames (BINARY or PONG)* then at most one CLOSE |
| `SessionSpec.ShapeOnWire` | src/proxy/proxy.c:470-497 | these frames begin with the bytes 0x82, 0x8a and, at the end, 0x88 |
| `SessionSpec.MessageEchoes` | src/proxy/proxy.c:478-497 | a CLOSE keeps the payload of the first CLOSE frame that is heard, as far as it is heard |
| `SessionSpec.InvariantKeepsPromise` | src/proxy/proxy.c:792-851 | the invariant implies all promises about bytes |
| `SessionLimits.NoDeadlockExactly` | src/proxy/proxy.c:749-790 | in all sessions with an accepted request, a full ring has write interest on at its draining leg, if and only if the ring holds two bytes or more |
| `SessionLimits.OneByteRingsAreStuck` | src/proxy/proxy.c:900-909 | with one-byte rings a session whose response to an accepted request is sent has no interest at all |
| `SessionSpec.AlwaysWaiting` | src/proxy/proxy.c:758-789 | an open session waits for some event, and for writing while it is closing |
| `SessionSpec.RejectedIsIllegal` | src/proxy/proxy.c:585-589 | a session closed for its stream received an illegal one |
| `SessionSpec.OpenIsLegal` | src/proxy/proxy.c:585-589 | a session that goes on has heard nothing illegal |
| `SessionSpec.CloseWasSent` | src/proxy/proxy.c:636-649 | a session that closes after draining has sent its CLOSE frame last |
| `Session.Session.constructor` | src/proxy/proxy.c:853-937 | a new session is valid, open and registered for reading |
| `Session.Session.Close` | src/proxy/proxy.c:149-182 | closing is terminal and removes both legs from the event loop |
| `Session.Session.SetClientOut` | src/proxy/proxy.c:184-200 | fills an empty client_out, or says why not, changing nothing |
| `Session.Session.MakeWsFrame` | src/proxy/proxy.c:202-224 | queues exactly the encoded frame when client_out is empty and the frame fits |
| `Session.Session.HandleWsMessage` | src/proxy/proxy.c:452-500 | the exact new state for every opcode |
| `Session.Session.HandleClose` | src/proxy/proxy.c:478-499 | keeps the close payload and builds or postpones the CLOSE frame; its payload is that of the CLOSE received, by the invariant |
| `Session.Session.FeedOnce` | src/proxy/proxy.c:515-537 | one parser call and its message keep the invariant and leave exactly the rest due, close the session, or give the evidence for closing it |
| `Session.Session.ProcessWsBytes` | src/proxy/proxy.c:502-544 | returns AGAIN if and only if the ring has no room for all the input; else all bytes reach the parser unless a CLOSE or an error stops it; with 118 bytes more room than input, and at least 125, nothing overflows |
| `Session.Session.StartTarget` | src/proxy/proxy.c:271-299 | registers the target, connecting or connected, exactly when the connection could be started |
| `Session.Session.Accumulate` | src/proxy/proxy.c:402-409 | the handshake buffer holds all client bytes, or they exceed 8192 |
| `Session.Session.Upgrade` | src/proxy/proxy.c:411-439 | answers the request by its verdict and hands on exactly the bytes after the header |
| `Session.Session.HandleHandshakeBytes` | src/proxy/proxy.c:391-450 | keeps the invariant, whatever the chunks of the request |
| `Session.Session.ReadClient` | src/proxy/proxy.c:546-596 | keeps the invariant and goes on until the client blocks, the budget ends, the ring is high or the request needs more |
| `Session.Session.WriteClient` | src/proxy/proxy.c:598-672 | sends a prefix of client_out; if that was all, builds exactly the next frame or closes; else it was blocked, out of budget or failed |
| `Session.Session.NextFrame` | src/proxy/proxy.c:633-671 | pending CLOSE, then closing, then data, in this order |
| `Session.Session.SendData` | src/proxy/proxy.c:651-671 | the frame build cannot fail |
| `Session.Session.ReadTarget` | src/proxy/proxy.c:674-709 | all bytes read go into the ring in order; stops when the ring is high, the budget ends or the target blocks |
| `Session.Session.WriteTarget` | src/proxy/proxy.c:711-747 | exactly the bytes written leave the ring; stops when the ring is empty, the budget ends or the target blocks |
| `Session.Session.UpdateEvents` | src/proxy/proxy.c:749-790 | both masks are the interest that the state calls for, and nothing else changes |
| `Session.Session.HandleClientEvent` | src/proxy/proxy.c:792-817 | an error closes; reading goes on until the client blocks, the budget ends, the ring is high or the request needs more; writing sends and builds the next frame; asked-for reads with 16849-byte rings never find them too small |
| `Session.Session.CompleteConnect` | src/proxy/proxy.c:301-341 | the connection is complete, or it failed and the session is closed for that |
| `Session.Session.HandleTargetEvent` | src/proxy/proxy.c:819-851 | an error closes; the session is connected, has filled one ring and drained the other, each until the target blocks, the budget ends, or the ring is high or empty; if it ends closed, exactly what was read and written before |
| `Session.Session.Expire` | src/proxy/proxy.c:1031-1034 | an expired session is closed, with all it had sent unchanged |
| `Session.Create` | src/proxy/proxy.c:853-937 | a fresh valid session with the effective buffer size |
| `Session.Deliver` | src/proxy/proxy.c:229-248 | any event, asked for or not, does to the session what its handler promises; an event for a leg that is not registered does nothing |
| `Session.RunSession` | src/proxy/proxy.c:792-851 | every run: it starts as created, every event of the schedule in turn does what its handler promises, and before and after each event: both relays, the wire language after the 101 response to the first accepted request, a CLOSE answered with its own payload, the early bytes as the reads returned them and exactly which bytes are heard, all from 4087 bytes on, no buffer too small from 16849, READ registered exactly below the water marks and WRITE exactly where bytes wait, no session with two-byte rings waiting for nothing, closed only with evidence for its reason, open only without |
| `SessionList.LaterTick` | src/proxy/proxy.c:981-1037 | a later tick makes an earlier one superfluous: an expired session stays expired |
| `SessionList.IdleExpiry` | src/proxy/proxy.c:1000-1005 | a connected session expires by its last activity alone |
| `SessionList.HandshakeExpiry` | src/proxy/proxy.c:994-999 | a session without its request expires by its age alone |
| `SessionList.ConnectExpiry` | src/proxy/proxy.c:987-993 | a connecting session expires by the time that connecting takes, or when idle |
| `SessionList.Server.TickKeepsBusy` | src/proxy/proxy.c:1009-1037 | a connected session with recent activity survives the tick, whenever it was created |
| `SessionList.Server.Link` | src/proxy/proxy.c:926-932 | puts the session at the head of a well-formed list and counts it |
| `SessionList.Server.Unlink` | src/proxy/proxy.c:121-139 | takes exactly this session out of the list, or does nothing if it is not in it |
| `SessionList.Server.CloseSession` | src/proxy/proxy.c:149-182 | a closed session is out of the list, the others keep their places and clocks |
| `SessionList.Server.Accept` | src/proxy/proxy.c:939-979 | the sessions are those that the arrivals give: in front of the old ones, at most the budget, never above the limit, with the clock fields of a new session |
| `SessionList.AcceptedFront` | src/proxy/proxy.c:956-978 | the old sessions stay behind at most a budget of new ones |
| `SessionList.AcceptedAll` | src/proxy/proxy.c:956-978 | with room and budget every client gets a session |
| `SessionList.AliveStep` | src/proxy/proxy.c:1029-1036 | keeping or closing the current session leaves the same survivors to come |
| `SessionList.Server.Tick` | src/proxy/proxy.c:1009-1037 | leaves exactly the sessions that have not expired, in order |
| `SessionList.Server.Shutdown` | src/proxy/proxy.c:1195-1197 | terminates with no session left, and all of them closed |
| `SessionList.RunServer` | src/proxy/proxy.c:939-1037 | over every run of accepts, ticks, closes and clock changes the linked list is well formed, within the limit, and holds exactly the sessions of the list machine on values |
| `SessionList.RunToShutdown` | src/proxy/proxy.c:1195-1197 | after any run the shutdown loop ends with an empty list, and the sessions that the operations had left are closed |

## Left out

- TLS on either leg (`src/tls`, the TLS branches of `proxy.c`): library behaviour that is not part of this model.
- Sockets, name resolution and the event backends (`src/net`, `src/event`): the legs are oracles, and the event
  loop is the pair of interest masks that a session registers; modifying a registration is taken to succeed.
- Object lifetime: `session_close` frees the session and its callers still read `closing`; here a closed session
  is a terminal state that keeps its fields.
- Allocation failure, logging, the command line, endpoint parsing and the Windows backend: they add no hard property.
- One PONG for each PING: a control frame split across reads is answered piece by piece, so only the joined PONG
  payload is proved equal to the joined PING payload. A CLOSE is answered with what had been read of its payload.
- Liveness: what is proved is that write interest is on wherever bytes wait and that every loop goes on until its
  leg blocks, its budget ends or its work is done, not that a peer ever accepts bytes.
- The clock fields of a session change in the list model by an operation of their own; which step of a session
  touches them is not tied to the session model.
