# Nuki lock bridge: a verified model

A Dafny model of the firmware of a Bluetooth bridge for Nuki locks, and proofs about it. It covers four linked parts:

- **Cryptography** (`Limbs`, `Poly1305Spec`, `Poly1305`, `Salsa20Spec`, `Salsa20`, `Stream`, `SecretBox`, `Crc16`,
  `CrcTheory`, `CrcDivision`, `CrcParity`). The 17-limb Poly1305 computes the tag of section 2.5 of RFC 8439; the round-then-transpose
  Salsa20 core computes the functions of sections 3-9 of the Salsa20 specification and the HSalsa20 of section 2 of
  "Extending the Salsa20 nonce"; decryption is the exact inverse of encryption; the CRC is a polynomial remainder that
  detects every 16-bit burst and every odd number of flipped bits.
- **Messaging** (`Frames`, `Transport`, `Fragments`, `Command`, `Keyturner`, `Conversation`, `Peers`, `Pairing`,
  `Handshake`). Frames, reassembly of arbitrarily fragmented indications, encrypted and plain receivers, the bounded drain loop, a whole
  lock action, and the pairing handshake as a protocol between two parties.
- **UART** (`UartDecoder`, `UartResponse`, `UartPort`, `Remote`). The interrupt-driven decoder against a whole-stream
  grammar; interrupt, four-deep queue and thread under every interleaving; and the way from a request's bytes to what the
  lock reads.
- **Application** (`Connection`, `Attempts`, `Bridge`, `Poller`). The connect-on-demand callbacks and the poller as transition systems.

State that the firmware changes in place is a class or an array here, and every method that changes it is proved equal to
a function on values (`Channel.View`, `Uart.View`, `Globals.View`, `Thread.View`, `a[..]`); the theorems about whole runs
are about those functions. Calls outside the firmware are parameters: indications, deadlines and write results are the
`events` and `writes` of a `Link`; X25519 and HMAC-SHA256 are the functions of a `Provider`; random bytes are arguments;
the results of the Bluetooth stack are arguments of the events in `Connection`; what the application answers to a UART
request is an `App`.

Three places where the code and its surroundings disagree, and what the model does:

- A comment above the drain loop (`src/nuki_command.c:165-168`) says that the first state update is captured. The loop
  overwrites, so the last one is kept; `Keyturner.DrainMeaning` states that, `Conversation.SecondStateReported` gives an
  input on which the two differ and `Conversation.FirstIsLastIff` states exactly when they agree.
- The receiver parses the authorization id of a message and does not compare it. `Command.DecodeIff` states exactly which
  streams are accepted: the id in the header is free and the one under the encryption may be any.
- A failed connect leaves its connection to be dropped later. `Connection.ForeignLossIff` states exactly when that late
  loss can end the next attempt: when the old connection is still held as the new attempt starts.
  `Connection.LateLossHappens` is a run from boot in which it does.

`dafny verify dfyconfig.toml` checks the whole project.

## Model

| member | source | states |
|---|---|---|
| `Poly1305Spec.HornerIsPolynomial` | src/nuki_crypto.c:201-238 | block-at-a-time evaluation equals, modulo 2^130-5, the sum of block_i * r^(q-i+1) of section 2.5 of RFC 8439, for every message, point and start value |
| `Poly1305.Add1305` | src/nuki_crypto.c:166-175 | limb addition leaves 17 byte digits whose value is the exact sum modulo 2^136; no 32-bit sum wraps |
| `Poly1305.ColumnValue` | src/nuki_crypto.c:212-216 | moving limbs past position 16 with the factor 320 multiplies by 256^j, exactly up to a counted multiple of 64(2^130-5) |
| `Poly1305.RowsValue` | src/nuki_crypto.c:212-216 | the folded schoolbook product differs from the true product by exactly a counted multiple of 64(2^130-5) |
| `Poly1305.Limb` | src/nuki_crypto.c:213-216 | one product limb is the folded inner product and stays at or below 353736000, so no 32-bit sum or product wraps |
| `Poly1305.Multiply` | src/nuki_crypto.c:212-220 | h becomes h * r modulo 2^130-5, with bounded limbs |
| `Poly1305.CarryLow` | src/nuki_crypto.c:223-227 | a carry pass keeps the value of sixteen limbs plus the carry in, and leaves byte digits |
| `Poly1305.FoldTop` | src/nuki_crypto.c:221-230 | the first pass splits the value into sixteen digits, two bits of the top limb and a quotient, and hands on five times the quotient |
| `Poly1305.Squeeze` | src/nuki_crypto.c:221-237 | both passes keep the value modulo 2^130-5 and leave h[0..15] <= 255, h[16] <= 4 and value < 2(2^130-5) |
| `Poly1305.LoadR` | src/nuki_crypto.c:187-199 | the limbs of r denote the clamped first half of the key |
| `Poly1305.LoadBlock` | src/nuki_crypto.c:202-210 | the limbs of a block, full or short, denote its bytes followed by a 0x01 byte |
| `Poly1305.Absorb` | src/nuki_crypto.c:201-238 | a block iteration keeps the reduced form and computes (h + block) * r modulo 2^130-5; its addition loses no carry |
| `Poly1305.Evaluate` | src/nuki_crypto.c:201-238 | the block loop evaluates the message polynomial for every message length |
| `Poly1305.FreezeChoice` | src/nuki_crypto.c:240-247 | the sign of h - p, read from one bit, picks the fully reduced value |
| `Poly1305.Freeze` | src/nuki_crypto.c:240-247 | one masked subtraction reduces completely |
| `Poly1305.Authenticate` | src/nuki_crypto.c:182-257 | for every message and 32-byte key the sixteen bytes written are the RFC 8439 tag, and nothing else is written |
| `Salsa20.Rotl32` | src/nuki_crypto.c:26-29 | two shifts are a rotation |
| `Salsa20.LoadLe32` | src/nuki_crypto.c:31-38 | four bytes become the little-endian word at their index |
| `Salsa20.StoreLe32` | src/nuki_crypto.c:40-46 | a word becomes its four little-endian bytes, and no other byte changes |
| `Salsa20.QuarterInPlace` | src/nuki_crypto.c:70-73 | the four in-place updates are the quarterround function of section 3 of the Salsa20 specification |
| `Salsa20.Round` | src/nuki_crypto.c:65-81 | one loop iteration is a columnround followed by a transposition |
| `Salsa20Spec.TwoTurns` | src/nuki_crypto.c:65-81 | two iterations are one doubleround: a columnround, then a rowround |
| `Salsa20Spec.TurnsAreDoubleRounds` | src/nuki_crypto.c:65-81 | 2n iterations are n doublerounds, for every n |
| `Salsa20Spec.RoundsBijective` | src/nuki_crypto.c:65-81 | the twenty rounds are a bijection on states: each state has exactly one preimage, given by the inverse rounds |
| `Salsa20.TwentyRounds` | src/nuki_crypto.c:65-81 | the loop computes ten doublerounds in place |
| `Salsa20.LoadState` | src/nuki_crypto.c:54-59 | the loading loop produces the layout of section 9 |
| `Salsa20.PublicTail` | src/nuki_crypto.c:83-94 | adding the start state and then subtracting the public words cancels on the eight words output |
| `Salsa20.SalsaCore` | src/nuki_crypto.c:49-100 | h=0 writes the 64-byte Salsa20 block, h=1 the 32 bytes of HSalsa20 without feed-forward; nothing else is written |
| `Salsa20.CoreSalsa20` | src/nuki_crypto.c:102-105 | the same with the "expand 32-byte k" constants, 64 bytes |
| `Salsa20.CoreHSalsa20` | src/nuki_crypto.c:107-110 | the same, HSalsa20 |
| `Salsa20.SigmaText` | src/nuki_crypto.c:24-24 | the constants are the bytes of "expand 32-byte k" |
| `Stream.Increment` | src/nuki_crypto.c:129-134 | the byte-wise carry chain over z[8..16) is +1 modulo 2^64 and leaves the nonce alone |
| `Stream.StreamXor` | src/nuki_crypto.c:115-147 | for every length, byte i of the output is m[i] (or 0 for a null message) xor byte i mod 64 of the block with counter i/64 |
| `SecretBox.KeystreamPrefix` | src/nuki_crypto.c:115-147 | a shorter keystream is a prefix of a longer one |
| `SecretBox.XSalsa20Xor` | src/nuki_crypto.c:153-160 | the XSalsa20 keystream xored into the message, or alone for a null message |
| `SecretBox.OneTimeKey` | src/nuki_crypto.c:385-416 | the Poly1305 key cut from the padded message by e1 and the one generated separately by d1 agree |
| `SecretBox.OpenIffBox` | src/nuki_crypto.c:375-426 | decryption yields m if and only if the input is the encryption of m, for every key, nonce and input |
| `SecretBox.ConstantTimeEq16` | src/nuki_crypto.c:259-267 | accumulated differences are zero if and only if the sixteen bytes are equal |
| `SecretBox.E1` | src/nuki_crypto.c:375-397 | writes the box of the message, refuses more than 256 bytes, writes nothing on failure |
| `SecretBox.D1` | src/nuki_crypto.c:399-426 | returns 0 exactly when the box opens and then writes the plaintext; -EBADMSG or -EINVAL otherwise with nothing written |
| `SecretBox.DeriveKey` | src/nuki_crypto.c:340-345 | the long-term key is HSalsa20 of the shared secret with a zero input |
| `Crc16.Compute` | src/nuki_crypto.c:428-444 | the loops compute the byte-wise register |
| `Crc16.RegisterIsFeed` | src/nuki_crypto.c:428-444 | the byte-wise register equals the bit-serial one on every byte string |
| `Crc16.StepLinear` | src/nuki_crypto.c:435-440 | a register step is linear over xor in the register and the message bit |
| `CrcTheory.CrcByLongDivision` | src/nuki_crypto.c:428-444 | the register after a message holds what long division by the generator leaves |
| `CrcDivision.GeneratorTerms` | src/nuki_crypto.c:436-436 | the constant 0x1021 with its implied leading term is x^16+x^12+x^5+1 |
| `CrcDivision.DivisionUnique` | src/nuki_crypto.c:428-444 | a polynomial over two elements is q times the generator plus sixteen coefficients r, with multiplication defined coefficient by coefficient, if and only if q and r are those of long division |
| `CrcDivision.CrcIsRemainder` | src/nuki_crypto.c:428-444 | the CRC is the remainder by x^16+x^12+x^5+1 of the message times x^16 with its first sixteen coefficients inverted, and the only one |
| `CrcTheory.CrcAffine` | src/nuki_crypto.c:428-444 | the difference of two CRCs depends only on the difference of the messages |
| `CrcTheory.StepInjective` | src/nuki_crypto.c:435-440 | a register step loses nothing |
| `CrcTheory.WindowInjective` | src/nuki_crypto.c:428-444 | different 16-bit windows never leave the same register |
| `CrcTheory.BurstDetected` | src/nuki_crypto.c:428-444 | two different bodies of any equal length that differ only within 16 consecutive bits never share a CRC |
| `CrcParity.CrcParity` | src/nuki_crypto.c:428-444 | the CRC has the bit parity of the message |
| `CrcParity.FrameParityEven` | src/nuki_protocol.c:28-32 | a body with its CRC stored behind it has an even number of one bits |
| `Frames.BuildPlain` | src/nuki_protocol.c:16-33 | writes the frame and nothing behind it, or returns 0 and writes nothing when it does not fit |
| `Frames.BuildAuth` | src/nuki_protocol.c:56-74 | the same for authenticated frames |
| `Frames.PlainInverse` | src/nuki_protocol.c:16-54 | parsing accepts a frame with a command and payload if and only if building them gives that frame |
| `Frames.AuthInverse` | src/nuki_protocol.c:56-96 | the same for authenticated frames, with the authorization id |
| `Frames.OddFlipsBreak` | src/nuki_protocol.c:35-54 | flipping any odd number of bits anywhere, CRC included, makes the check fail |
| `Frames.BurstBreaks` | src/nuki_protocol.c:76-96 | corrupting the body within sixteen consecutive bits, or the CRC field in any way, makes the check fail |
| `Frames.CorruptionRejected` | src/nuki_protocol.c:35-96 | both parsers answer -EBADMSG to such corruptions of a frame they accept |
| `Frames.StateRoundTrip` | src/nuki_protocol.c:98-133 | parsing gives back every field a lock has written; the door sensor is byte 18, or 0xFF in a shorter payload |
| `Frames.StateIff` | src/nuki_protocol.c:98-133 | a payload parses as a state if and only if it has at least 13 bytes and these are what a lock writes for that state |
| `Transport.Channel.Notify` | src/nuki_transport.c:10-35 | what fits is appended, the rest is dropped, nothing else changes |
| `Transport.Channel.WaitMin` | src/nuki_transport.c:122-144 | the waiting loop is the function Wait on the link |
| `Transport.Channel.Peek` | src/nuki_transport.c:146-152 | the first bytes of the accumulator, unchanged |
| `Transport.Channel.Clear` | src/nuki_transport.c:154-160 | empties the accumulator, and whatever lands before the reset is lost with it |
| `Transport.Channel.Send` | src/nuki_transport.c:97-120 | the code of a refused, unconfirmed or completed write; a refused frame does not leave, every other one does |
| `Transport.WaitSeesFlow` | src/nuki_transport.c:122-144 | waiting succeeds if and only if enough bytes arrive before the deadline, keeps the byte stream, and leaves a prefix of it, whatever the fragmentation |
| `Transport.WaitLeaves` | src/nuki_transport.c:122-144 | a successful wait takes exactly the events it needs; a failed one keeps every byte that has arrived |
| `Fragments.WaitAndReset` | src/nuki_transport.c:122-160 | waiting for one of several fragmented messages and resetting leaves exactly the later ones |
| `Command.SendEncrypted` | src/nuki_command.c:16-45 | writes the wire message, or returns -EINVAL and writes nothing when the payload exceeds 152 bytes |
| `Command.BuildWire` | src/nuki_command.c:16-42 | the filled buffers hold nonce, authorization id, length, tag and ciphertext of the authenticated frame, every write in bounds |
| `Command.RecvEncrypted` | src/nuki_command.c:47-105 | the receiver on the channel is the function Recv on the link, whose result and remaining link RecvLeaves gives |
| `Command.RecvIgnoresFragmentation` | src/nuki_command.c:47-105 | its result is that of a decoder on the unfragmented stream |
| `Command.RecvLeaves` | src/nuki_command.c:62-82 | a missed deadline leaves what has arrived; every other outcome, accepted or refused for length, tag, CRC or size, leaves an empty accumulator and exactly the events behind the message and its overruns |
| `Command.DecryptIff` | src/nuki_command.c:84-105 | a message is decrypted if and only if the ciphertext is the box of one of its authenticated frames and the payload fits |
| `Command.DecodeIff` | src/nuki_command.c:47-105 | exactly which streams yield a message, both directions |
| `Command.DecodeWire` | src/nuki_command.c:16-105 | a stream that starts with a wire message of up to 192 payload bytes yields its command and payload |
| `Command.EndToEnd` | src/nuki_command.c:16-105 | for every id, command, payload, key, nonce and fragmentation the receiver returns exactly what was sent |
| `Command.SentIsReceived` | src/nuki_command.c:16-105 | what send_encrypted writes for a payload of up to 152 bytes, recv_encrypted returns under any fragmentation; a larger one is refused and not written |
| `Command.WireConveys` | src/nuki_command.c:32-43 | the bytes written carry the nonce, the authorization id in header and plaintext, the command and the payload |
| `Command.OversizeRefused` | src/nuki_command.c:69-74 | a larger message is refused from its header alone |
| `Keyturner.DrainUntilComplete` | src/nuki_command.c:170-223 | the loop is the function Drain; the state is written exactly when got_state is set |
| `Keyturner.DrainMeaning` | src/nuki_command.c:170-223 | the loop returns the verdict of the first message that does not merely continue, and the last parseable state before it; otherwise -ETIMEDOUT |
| `Keyturner.DrainSucceedsIff` | src/nuki_command.c:170-223 | it returns 0 if and only if one of the first ten messages is a one-byte Status COMPLETE preceded only by continuing ones |
| `Peers.DrainLeaves` | src/nuki_command.c:170-223 | the loop takes the ending message and those before it off the link, and nothing more |
| `Peers.WriteMeaning` | src/nuki_transport.c:97-120 | a write returns 0 if and only if it completes without error, and otherwise the stack's code, -ETIMEDOUT or -EIO; the frame leaves unless the stack refuses it |
| `Peers.ChallengeIff` | src/nuki_command.c:137-163 | a challenge is obtained if and only if the request is written and the next message is a 32-byte Challenge; the code otherwise, and the link afterwards |
| `Peers.ChallengedIff` | src/nuki_command.c:137-276 | against any peer a challenged command returns 0 if and only if both requests are written, the first message is a 32-byte Challenge and COMPLETE comes within ten more |
| `Peers.LockActionIff` | src/nuki_command.c:225-251 | the same for a lock action, and the lock then reads the action, the application id and the challenge received |
| `Peers.CalibrationIff` | src/nuki_command.c:253-276 | the same for a calibration, with the PIN |
| `Peers.NoChallengeNoCommand` | src/nuki_command.c:137-163 | without a 32-byte Challenge nothing but the request for one is sent, and the code says why |
| `Keyturner.RequestChallenge` | src/nuki_command.c:137-163 | result, nonce and link of the challenge request, including every error path |
| `Keyturner.PayloadFields` | src/nuki_command.c:238-266 | a lock reads action, application id, flags, nonce and PIN back at their documented offsets |
| `Keyturner.PerformLockAction` | src/nuki_command.c:225-251 | challenge, action and drain: result, link and reported state |
| `Keyturner.PerformCalibrate` | src/nuki_command.c:253-276 | challenge, calibration request and drain |
| `Conversation.RecvReply` | src/nuki_command.c:47-105 | with several fragmented messages to come, a receive takes exactly the first |
| `Conversation.NthReply` | src/nuki_command.c:47-105 | the k-th message received is the k-th message sent |
| `Conversation.NthWhole` | src/nuki_command.c:47-105 | of a script of whole messages, good or bad, the k-th receive judges the k-th |
| `Conversation.GoodAfterRefused` | src/nuki_command.c:47-105 | a good message is received whatever refused ones came before it |
| `Conversation.RefusedMessages` | src/nuki_command.c:69-97 | an implausible length, a ciphertext that is no box, and a box of a frame with a wrong CRC give -EBADMSG |
| `Conversation.ChallengedSucceeds` | src/nuki_command.c:137-276 | against a lock that sends a challenge, at most nine continuing messages and COMPLETE, a challenged command returns 0 and the lock decodes two requests, each under its own nonce and with the authorization id, the second built from its own challenge |
| `Conversation.LockActionSucceeds` | src/nuki_command.c:225-251 | then a lock action reports the last state pushed, and the lock reads the action, the application id, no flags and its challenge |
| `Conversation.CalibrationSucceeds` | src/nuki_command.c:253-276 | then a calibration succeeds, and the lock reads its challenge and the PIN |
| `Conversation.FirstIsLastIff` | src/nuki_command.c:205-213 | the state reported is the first one if and only if the first and the last parseable reply carry the same |
| `Conversation.SecondStateReported` | src/nuki_command.c:205-213 | of two different state updates before COMPLETE, the second is reported |
| `Pairing.SendPlainTo` | src/nuki_pairing.c:17-27 | writes the plain frame, or returns -EINVAL |
| `Pairing.RecvPlainFrom` | src/nuki_pairing.c:39-110 | the receiver on the channel is the function RecvPlain on the link |
| `Pairing.RecvPlainIgnoresFragmentation` | src/nuki_pairing.c:39-110 | its result is that of a judgement on the unfragmented stream |
| `Pairing.HeardIffFrame` | src/nuki_pairing.c:39-110 | for every expectation the handshake uses, a payload is returned if and only if the stream starts with the frame built from it, despite the length dispatch |
| `Pairing.ReportsHeard` | src/nuki_pairing.c:56-105 | whatever is awaited, an ErrorReport is recognised from its seven bytes and an unexpected Status from its five |
| `Pairing.RecvPlainLeaves` | src/nuki_pairing.c:39-110 | a missed deadline leaves what has arrived, any complete frame, wanted or not, an empty accumulator |
| `Pairing.PairingRun` | src/nuki_pairing.c:112-297 | the whole handshake is the function Pair; the result is written on success only |
| `Handshake.ClientCompletes` | src/nuki_pairing.c:112-297 | the client's side of an honest run under any fragmentation: the result stored and the five frames sent |
| `Handshake.LockCompletes` | src/nuki_pairing.c:112-297 | a lock following the handshake accepts those five frames and sends the five replies |
| `Handshake.HonestPairing` | src/nuki_pairing.c:112-297 | assuming Diffie-Hellman agreement, pairing succeeds, both sides hold the same key, authorization id and application id, and the lock the name "NRF52840 Central" |
| `Handshake.SuccessExplained` | src/nuki_pairing.c:112-297 | against any peer, success means the five expected frames were received in order, with a matching authenticator and COMPLETE, and the stored values come from them |
| `Handshake.ForgedIdRejected` | src/nuki_pairing.c:227-250 | a wrong authenticator in AuthorizationId gives -EBADMSG and the confirmation is never sent |
| `Handshake.OtherStatusRejected` | src/nuki_pairing.c:277-287 | a status other than COMPLETE gives -EBADMSG |
| `Handshake.PrimitivesFail` | src/nuki_pairing.c:143-189 | without a backend, key pair, shared secret or authenticator pairing fails with that code after no, one or two frames |
| `UartDecoder.Step` | src/nuki_uart_proto.c:100-134 | one byte keeps the payload index below the length and the length at most 32 |
| `UartDecoder.FeedConcat` | src/nuki_uart_proto.c:96-135 | dividing the stream into bursts changes neither state nor frames |
| `UartDecoder.StepMeaning` | src/nuki_uart_proto.c:100-134 | what one byte does to the frames the grammar finds |
| `UartDecoder.FeedIsGrammar` | src/nuki_uart_proto.c:96-135 | from any state the decoder emits exactly the requests a whole-stream grammar finds |
| `UartDecoder.NoisyRoundTrip` | src/nuki_uart_proto.c:96-135 | a decoder hunting for SOF decodes requests in noise free of 0xA5 to exactly those requests |
| `UartDecoder.Resynchronises` | src/nuki_uart_proto.c:96-135 | from any state 34 bytes other than 0xA5 restore synchronisation |
| `UartDecoder.ThirtyThreeDoNotSuffice` | src/nuki_uart_proto.c:96-135 | 34 is the least such number |
| `UartResponse.SendFrame` | src/nuki_uart_proto.c:142-160 | SOF, command, length and payload |
| `UartResponse.HandleState` | src/nuki_uart_proto.c:205-221 | the cached state, or -ENODATA and zeros |
| `UartResponse.HandleLockAction` | src/nuki_uart_proto.c:223-244 | one action performed, its result, and the cached state if it succeeded and zeros otherwise |
| `UartResponse.HandleCalibrate` | src/nuki_uart_proto.c:246-259 | a calibration with the PIN of exactly two payload bytes, or -EINVAL and none |
| `UartResponse.DispatchFrame` | src/nuki_uart_proto.c:261-289 | exactly one response for every frame and exactly the operations it stands for, each once, as CommandTable spells them out |
| `UartResponse.StaleBytesIgnored` | src/nuki_uart_proto.c:261-289 | bytes left from earlier frames influence neither the response nor the operations performed |
| `UartResponse.ResponseReads` | src/nuki_uart_proto.c:142-289 | a client reads back the echoed command and the result code; all bytes behind a non-zero code are zero |
| `UartResponse.CommandTable` | src/nuki_uart_proto.c:162-289 | for every command byte the code and the bytes a client reads and the operations performed: LOCK performs 2, UNLOCK 1, UNLATCH 3, STATUS shows paired, connected, ready, CALIBRATE its PIN |
| `UartResponse.StateLayout` | src/nuki_uart_proto.c:188-203 | every field of a state response at its documented offset |
| `UartPort.Uart.Receive` | src/nuki_uart_proto.c:100-134 | the switch for one byte, in place, with the queue |
| `UartPort.Uart.SerialCb` | src/nuki_uart_proto.c:80-135 | a burst is its bytes one after another |
| `UartPort.Uart.Fetch` | src/nuki_uart_proto.c:298-298 | the thread takes the oldest pending frame |
| `UartPort.Uart.Dispatch` | src/nuki_uart_proto.c:298-300 | the thread answers the frame it took |
| `UartPort.OneResponseEach` | src/nuki_uart_proto.c:261-301 | over any interleaving the bytes sent are one response for each frame answered, in order |
| `UartPort.KeptAreWelcome` | src/nuki_uart_proto.c:96-301 | over any interleaving the frames answered and then pending are those pending before and then exactly the completed ones that met fewer than four queued frames, in order: a frame is lost if and only if four are queued |
| `UartPort.CompletedIsFed` | src/nuki_uart_proto.c:96-135 | the completed frames of a run are those the decoder makes of the bytes received |
| `UartPort.InOrder` | src/nuki_uart_proto.c:96-301 | answered and pending frames are an in-order subsequence of what was pending and decoded, short by the frames that met a full queue |
| `UartPort.PortServesGrammar` | src/nuki_uart_proto.c:80-301 | from boot the frames answered and pending are the completed ones that met no full queue; if none did, their requests are exactly those the grammar finds |
| `UartPort.EveryRequestAnswered` | src/nuki_uart_proto.c:80-301 | once nothing is pending and no frame met a full queue, the responses sent are those of the grammar's requests, one for one |
| `UartPort.CallsAreRequested` | src/nuki_uart_proto.c:261-301 | over any interleaving the operations performed are those the answered frames stand for, each once and in order |
| `UartPort.EveryRequestPerformed` | src/nuki_uart_proto.c:80-301 | once nothing is pending and no frame met a full queue, the operations performed are those of the grammar's requests |
| `Remote.RequestPerforms` | src/nuki_uart_proto.c:80-301 | from boot, the bytes A5 04 00 lead to lock action 2 and to nothing else, A5 05 00 to 1, A5 06 00 to 3, A5 02 00 to a pairing |
| `Remote.ActionReachesLock` | src/nuki_uart_proto.c:223-281 | after a LOCK, UNLOCK or UNLATCH frame a cooperating lock reads action 2, 1 or 3 |
| `Remote.PinReachesLock` | src/nuki_uart_proto.c:246-259 | after a CALIBRATE frame a cooperating lock reads the PIN of its payload |
| `Connection.ConnectedKeeps` | src/nuki_app.c:451-467 | keeps the invariant, and no reference is left after a failed connection |
| `Connection.DisconnectedKeeps` | src/nuki_app.c:469-495 | keeps the invariant, and no reference is left after the loss of the held connection |
| `Connection.StepKeepsInv` | src/nuki_app.c:242-537 | every callback and thread step keeps the reference count, the ready flags and the attempt's bookkeeping; no reference is released that is not held |
| `Connection.ReachableInv` | src/nuki_app.c:369-495 | in every reachable state references = connection held + GDIO ready + USDIO ready, a ready flag implies a live connection, and the semaphore is at most 1 |
| `Connection.BootReachesInv` | src/nuki_app.c:369-495 | from boot, no reference is outstanding whenever no connection is held |
| `Connection.FirstResultStays` | src/nuki_app.c:242-257 | no event before the next attempt changes a recorded first result |
| `Connection.ReturnsFirstResult` | src/nuki_app.c:504-537 | an attempt returns the first result reported, -ETIMEDOUT or why scanning did not start; 0 only if the Keyturner transport was ready when recorded |
| `Attempts.RunTracks` | src/nuki_app.c:242-537 | connection, discovery in progress, ready services and reported results after any run are those read off the events alone |
| `Attempts.AttemptResult` | src/nuki_app.c:504-537 | a waiting thread can be woken if and only if an ending event has happened; woken it returns the outcome of the first one, and -ETIMEDOUT if it gives up |
| `Attempts.ReturnsZeroIff` | src/nuki_app.c:399-537 | connect_to_lock returns 0 if and only if it is woken and the first event that ended the attempt is a Keyturner discovery with its characteristic and a successful subscription |
| `Attempts.ScanFailureReturned` | src/nuki_app.c:516-521 | an attempt whose scan does not start returns why, whatever happens later |
| `Attempts.BootReady` | src/nuki_app.c:399-537 | a run from boot that returns 0 with the Keyturner transport ready |
| `Attempts.BootPairing` | src/nuki_app.c:369-537 | a run from boot for pairing that returns 0 with both transports ready |
| `Connection.FailedConnectIff` | src/nuki_app.c:451-457 | a failed connected, which does not look at its connection, keeps the reference count in order if and only if no transport is ready on the connection held |
| `Connection.ForeignLossIff` | src/nuki_app.c:504-537 | a connection of an earlier attempt can end a new one if and only if one is still held when the new one starts |
| `Connection.LateLossHappens` | src/nuki_app.c:504-537 | a run from boot in which the second attempt ends with the loss of the connection the first created |
| `Bridge.Globals.FinishConnectAttempt` | src/nuki_app.c:242-257 | the update of the globals is the step's |
| `Bridge.Globals.DeviceFound` | src/nuki_app.c:259-305 | the callback is its atomic step and keeps the invariant |
| `Bridge.Globals.DiscoverKeyturnerService` | src/nuki_app.c:341-349 | starts discovery, or reports why it did not start |
| `Bridge.Globals.TransportInit` | src/nuki_transport.c:57-86 | takes a reference, and gives it back if subscribing fails |
| `Bridge.Globals.TransportRelease` | src/nuki_transport.c:88-95 | gives back the reference the pointer stands for and clears the pointer; does nothing without a connection |
| `Bridge.Globals.GdioDiscovered` | src/nuki_app.c:369-391 | the callback is its atomic step and keeps the invariant |
| `Bridge.Globals.UsdioDiscovered` | src/nuki_app.c:399-427 | the callback is its atomic step and keeps the invariant |
| `Bridge.Globals.ConnectedCb` | src/nuki_app.c:429-467 | the callback, with the start of discovery, is its atomic step and keeps the invariant |
| `Bridge.Globals.DisconnectedCb` | src/nuki_app.c:469-495 | the callback is its atomic step and keeps the invariant |
| `Bridge.Globals.BeginConnect` | src/nuki_app.c:504-523 | an attempt starts with a drained semaphore and no result |
| `Bridge.Globals.EndConnect` | src/nuki_app.c:525-537 | the value returned is the first result reported, or -ETIMEDOUT |
| `Poller.Thread.Fetch` | src/nuki_app.c:561-570 | the first half of an iteration is its step |
| `Poller.Thread.Settle` | src/nuki_app.c:571-593 | the second half is its step, and the sleep it chooses |
| `Poller.Thread.PushState` | src/nuki_app.c:720-727 | a lock action stores the state it was pushed |
| `Poller.BoundedRetries` | src/nuki_app.c:551-594 | over any run the retry counter stays at most 3 and any four consecutive iterations include a full 15-minute sleep |
| `Poller.SleepsExactly` | src/nuki_app.c:551-594 | over any run the counter is the number of failed polls since the last success or give-up; a failed poll sleeps 3 s if that number was below three, every other iteration 900 s |
| `Poller.CacheIsObserved` | src/nuki_app.c:551-594 | once valid the cache stays valid and always holds a state that a successful operation returned |
| `Poller.CacheIsLastWrite` | src/nuki_app.c:561-593 | after any run the cache is the last state pushed, or stored from a successful poll, and valid once there was one |
| `Poller.FailedPollsKeepCache` | src/nuki_app.c:578-590 | taking every failed or skipped poll out of any run, whatever else it pushes or fetches, leaves the cache the same |
| `Poller.NewestIff` | src/nuki_app.c:569-575 | in any run, once no success waits to be stored, the cache is the newest observation if and only if that was not pushed while a poll with a different state was waiting |
| `Poller.UndisturbedIsNewest` | src/nuki_app.c:569-575 | in every run without a push between a successful poll and its store the cache is then the newest observation |
| `Poller.StaleStore` | src/nuki_app.c:569-575 | a run from boot that leaves the older state in the cache |

## Left out

- X25519, HMAC-SHA256, key generation and random numbers: foreign calls, represented by functions and arguments; only Diffie-Hellman agreement and a mac that does not fail are assumed, and only for the honest run.
- Cryptographic strength and constant-time behaviour: not decided by this code.
- `nuki_command_get_state` and the `*_locked` wrappers: the first sends one request and parses one reply; the others look up the pairing, connect, run one command and disconnect.
- Advertisement matching, GATT lookup, MTU exchange, logging, settings, the UART driver, the shell and start-up: outside results are arguments of the modelled steps.
- `nuki_lock_state_to_str` and `nuki_door_sensor_state_to_str`: settled by reading.
- Real time: a deadline is an event that may come at any point of a wait; sleeps are recorded, not measured; the age in a state response is an argument.
- `nuki_transport_wait_min`'s own semaphore: a wait sees each indication once it is delivered; counts of spurious wake-ups are not modelled.
- `Command.EndToEnd`: gives the result of the receive; bytes that land before the reset are lost with it, which `Transport.Channel.Clear` models by `Overrun` events, so several messages in a row are stated (`Conversation.NthReply`) for messages that do not overrun.
- `Frames.BurstBreaks`: bursts of the frame that straddle body and CRC are not covered, because the CRC is stored low byte first.
- `Frames.StateRoundTrip`: covers battery charges in even percent up to 126, the only ones the battery byte can carry.
- `Handshake.HonestPairing`: the lock is the one the handshake describes; its firmware is not part of this model.
- `Poly1305.Freeze`: the masked selection is done on limbs narrowed to bytes and widened to 32 bits again; the limbs are at most 255 there.
- `Salsa20.SalsaCore`: the feed-forward of h=0 is added in place before storing instead of while storing, and the loops of the h=1 tail are written out.
- `Connection.ConnectedKeeps`: a failed connected is taken to arrive only while the connection is being dialed, although the callback (`src/nuki_app.c:451-457`) checks neither that nor its argument; `Connection.FailedConnectIff` states what it does to the reference count otherwise. Without a held connection it would release a null pointer, which is not modelled.
- `Connection.StepKeepsInv`: a discovery is taken to complete only for the connection that is up (`src/nuki_app.c:369-427` do not check it); later reports of an earlier discovery can only be errors, the `StaleDiscovery` events.
- `Bridge.Globals.ConnectedCb`: the same precondition on failed connections as `Connection.ConnectedKeeps`.
- `Bridge.Globals.BeginConnect`: stopping the scan, cancelling the scan timer and asking for a disconnect have no effect of their own on the modelled state; their consequences arrive as later events.
