# Verified models of the litep2p stream and connection machines

litep2p is a peer-to-peer networking library. This project models its byte-stream and
connection machines in Dafny and proves what every run of them keeps:

- the Noise socket, an encrypting writer and a read-ahead decryptor over one buffer;
- multistream-select: its message codec, its length-delimited framing, the dialer and the
  listener, the optimistic (lazy) dialer stream and the one-shot WebRTC variant;
- the transport service of a protocol: connections per peer, outbound substreams, keep-alive
  timeouts, and the strong and weak handles that keep a connection open;
- substream framing with its backpressure;
- the yamux control loop and its reply obligations.

The machines are classes with the fields of the originals, and their methods are the original
`poll_*` functions. Everything they depend on is arbitrary: `Io.Source` and `Io.Sink` answer
each inner read and write from a tape of any answers (pending, any short read or write, an
error, end of file), the clock is a number that may grow, and the remote side is either
arbitrary or the modelled peer behind a reliable network. So a contract that holds for all tapes
holds for every schedule and every chunking. The streams count what they answer (waits, ends, errors,
writes that took nothing, flushes), and the contracts account for each of these answers: a poll is
pending exactly if an inner stream was, an end or an error of an inner stream is reported by the poll
that met it, and a flush is reported exactly if there was one. `Valid()` of a class is its invariant: the
constructor establishes it and every method keeps it, and the `Run` methods apply any list of
moves. Histories (bytes received, items accepted, events handed out) are ghost fields. Large
invariants stand behind a constant predicate that has to be mentioned to unfold them; `Io` explains it.

| file | content |
|---|---|
| `Io` | the environment: byte streams that answer from tapes, and what reading keeps |
| `NoiseFraming`, `NoiseReader`, `NoiseWriter`, `NoiseLink` | the Noise socket: a one-shot reference reader, the two halves, and both joined by a network |
| `Varint`, `Delimited` | unsigned varints and streams of length-prefixed frames, with a one-shot reference reader |
| `Multistream`, `LengthDelimited`, `MessageIo` | the message codec and the framed stream |
| `Negotiation` | what dialer and listener do, message by message, and agreement on every cut of a run |
| `Select`, `Agreement`, `Session` | the two futures, agreement of their states, and whole runs |
| `Negotiated` | the stream a negotiation returns, still to be confirmed or complete |
| `Upgrade`, `LazySession` | the boundary between negotiation and data, and whole runs of the optimistic dialer, the listener and both applications |
| `WebRtc`, `WebRtcMeaning` | the one-shot negotiation over data channels, and what its answers mean byte for byte |
| `KeepAlive`, `Connections`, `Books`, `TransportService` | the transport service: its timers, the connections of a peer, the invariants as facts about values, and the service itself |
| `Permits` | connection handles and permits |
| `Substream`, `SubstreamLink` | framing, sink and stream of a substream, and both ends joined by a network |
| `YamuxControl` | the yamux control loop |

## Main results

- Noise, every schedule (`NoiseLink.Link.Run`): what the reader has delivered is a prefix of
  what the writer has accepted, and all of it once everything is flushed, carried and read; every
  hang-up and every error of the network has been reported to the reader's caller once, or is still
  ahead of it.
- Multistream-select, every run (`Session.Session.Run`): a selected name is the dialer's first
  name that the listener supports, on both sides; neither side sees a protocol violation; a side
  fails only if there is no such name or the other side lost its stream, and streams are lost only
  if an inner stream failed; the two never both wait on empty channels. Without a failing inner
  stream both verdicts are exactly the specified one.
- Optimistic negotiation, every run (`LazySession.LazySession.Run`), from the moment a lazy dialer
  settles (`LazySession.Settle`), with both applications reading and writing at any time: taking the
  stream back never finds negotiation bytes unsent; if the listener supports the name, its
  application's stream is for that name and yields exactly the dialer's data from the first byte on;
  the dialer's stream completes only if the name is supported and then yields exactly the listener's
  data; it is refused only if the name is not supported, ends early only if the listener dropped it,
  fails only if an inner stream failed or the listener dropped it inside a message, and sees no
  protocol violation and no unreadable length. If the listener supports the name, its verdict is
  that name, a failure only if the dialer is gone, or an I/O error with its cause. In every such state
  reading hands out what is under way (`LazySession.LazySession.ReadUpListener`, `ReadUpDialer`).
- Multistream-select, any peer (`Negotiation.DialerMeans`, `ListenerMeans`, `AnswersInTurn`): where a
  dialer or a listener stands, and what it has answered, in closed form of all it was sent.
- WebRTC, any payload (`WebRtcMeaning.ResponseMeans`, `AnswerMeans`): which bytes get which answer, both
  ways.
- Transport service (`TransportService.TransportService.ReportedOnce`, `ReportedBeforeClosed`,
  `PassedOnOnce`, `TracksOpenConnections`, `OneTimer`, `PollToQuiescence`, `PollNext`): each requested
  substream is reported exactly once and before its peer is reported closed; every substream, failure
  and failed dial received is handed out exactly once, in order; tracked connections are the open ones;
  established and closed alternate in all that was handed out; exactly the active connections are
  watched, and exactly those idle for the whole timeout become inactive.
- Permits, every run (`Permits.Connection.Run`): the strong count is exactly the active handles
  and the permits, queued ones included; zero means that nobody holds a reference, and is final.
- Substreams, every run (`SubstreamLink.Link.Run`), as long as the sender is not used after an inner
  write error: the items returned are the first of those accepted, and all of them once all is written
  and carried; with a varint codec nothing is ever rejected; every end and error of the network has ended
  or failed one poll, or is still ahead.
- Yamux control, every run (`YamuxControl.ControlledConnection.Run`): every accepted command has
  been answered exactly once when the machine finishes, and the streams returned are exactly those the
  connection gave, in order.

## What the proofs brought out

- A Noise chunk of the full `MAX_FRAME_LEN` (65520 bytes) seals to 65536 bytes, one more than
  the 65535 that section 3 of the Noise Protocol Framework allows. So `poll_write` never accepts
  a buffer of 65520 bytes or more, it fails with `InvalidData` or is pending; and since only
  such a buffer is cut in chunks, a non-empty buffer is accepted whole or not at all
  (`NoiseWriter.Writer.PollWrite`).
- When a connection closes that the service does not track, a third one it had ignored, the
  secondary connection is forgotten (`Connections.ThirdConnectionDropsSecondary`). Closing
  forgets the right connection exactly when it was tracked or there is no secondary
  (`Connections.CloseForgetsOne`). The service is therefore proved for at most two connections
  per peer, which its documentation promises.
- A substream with the identity codec panics when it is read if and only if its payload size is
  above the initial buffer of 1024 bytes (`Substream.Reader.PollNext`, and `Substream.OversizedPanics`
  for 1025); a payload size of zero ends the stream at once, given that an inner read into an empty
  buffer returns nothing at once, and so items of size zero do not arrive
  (`Substream.IdentityRoundTrip`).
- An inner write error makes a substream drop the chunk in hand while its bytes stay counted
  (`Substream.FrameIsLost`). From then on a flush that succeeds no longer means that all accepted items
  are written: it does if and only if nothing was lost (`Substream.Writer.PollFlush`).
- A single protocol name survives encoding and decoding exactly when it starts with a slash,
  holds no line feed and is not the header's name (`Multistream.NameSurvives`).
- After an inbound error the yamux control loop drains commands without closing the channel, so
  it closes the connection only when every control is gone (`YamuxControl.ControlledConnection.PollNext`).
- `Negotiated::poll` goes on reading when flushing ended in an error of kind `WriteZero`, its own or
  one of the inner stream, so the assertion in `into_inner` can fail: exactly if the confirmation is
  heard while negotiation bytes are unsent, which takes an inner stream that took nothing or said so
  (`Negotiated.Negotiated.Poll`). `Negotiated.TakenBackTooEarly` is such a run for either case, with a
  peer that confirms a name it has not been sent; with the modelled listener there is none
  (`LazySession.LazySession.ConfirmedMeansSent`).
- Activity on a connection after its close leaves the keep-alive tracker with two timers for it
  (`KeepAlive.ActivityAfterClose`). The service sees no such activity, and each connection it watches
  has one timer (`TransportService.TransportService.OneTimer`).

## Model

| member | source | states |
|---|---|---|
| `NoiseFraming.SealedOpens` | src/crypto/noise/mod.rs:756-764 | chunks sealed under consecutive nonces are frames that a reader accepts, and open in order to the plaintext |
| `NoiseFraming.PlaintextOfWire` | src/crypto/noise/mod.rs:499-599 | the one-shot reader on a run of good frames followed by anything returns their decryptions, each under its own nonce, and then goes on with the rest |
| `NoiseFraming.BadFrameWithin` | src/crypto/noise/mod.rs:580-663 | every malformed stream is good frames, then one that is too short or does not open |
| `NoiseFraming.BadFrameSpoils` | src/crypto/noise/mod.rs:580-663 | good frames and then such a frame are malformed, whatever follows, and carry the plaintext of the good ones only |
| `NoiseFraming.PrefixOfWire` | src/crypto/noise/mod.rs:499-599 | of any part of a writer's wire the one-shot reader returns a prefix of the plaintext and rejects nothing; of the whole wire all of it |
| `NoiseReader.Reader.constructor` | src/crypto/noise/mod.rs:417-445 | the read buffer is the canonical part plus an auxiliary region for one frame; all invariants hold |
| `NoiseReader.Reader.ResetReadState` | src/crypto/noise/mod.rs:447-463 | the odd byte survives the move to the front and the panic branch is not reached |
| `NoiseReader.Reader.FillBuffer` | src/crypto/noise/mod.rs:476-498 | one inner read into a non-empty slice inside the buffer; it loses nothing; end of file, an error and pending are reported exactly if the inner stream reported them |
| `NoiseReader.Reader.TakeFrameSize` | src/crypto/noise/mod.rs:526-536 | the big-endian length, kept from before or taken from the buffer, is that of the frame in progress |
| `NoiseReader.Reader.ParseFrameLen` | src/crypto/noise/mod.rs:499-599 | the next state keeps every frame inside the buffer, also in the auxiliary region; failure only if the received stream is malformed and everything before the bad frame has been delivered |
| `NoiseReader.Reader.BadFrame` | src/crypto/noise/mod.rs:580-590 | a buffered frame that is too short or does not open makes the received stream malformed for the one-shot reader, and nothing in or behind it counts |
| `NoiseReader.Reader.DeliverPending` | src/crypto/noise/mod.rs:605-627 | the next bytes of a partly delivered frame, as many as fit, and the frame is finished when none is left |
| `NoiseReader.Reader.Decrypt` | src/crypto/noise/mod.rs:628-663 | the frame is opened under the next nonce; refusal only if the received stream is malformed and everything before is delivered; the plaintext is 16 bytes shorter |
| `NoiseReader.Reader.DeliverFrame` | src/crypto/noise/mod.rs:628-690 | the caller gets the whole plaintext of the frame or a full buffer of it, the rest is kept; a non-empty buffer gets at least one byte |
| `NoiseReader.Reader.DeliversPrefix` | src/crypto/noise/mod.rs:467-694 | in every reachable state what was delivered is a prefix of what the received bytes mean |
| `NoiseReader.Reader.WaitingMeansDrained` | src/crypto/noise/mod.rs:545-578 | while the reader waits for data it has delivered everything that the received bytes mean |
| `NoiseReader.Reader.PollRead` | src/crypto/noise/mod.rs:467-694 | hands out the next plaintext in order, the rest of a frame or a full buffer; never zero bytes to a non-empty buffer; pending exactly when the inner stream was, with everything received delivered; an end and an error are reported exactly when the inner stream reports them, and a malformed stream only after all before the bad frame was delivered; it terminates |
| `NoiseWriter.Writer.constructor` | src/crypto/noise/mod.rs:417-445 | an empty buffer with room for at least one frame |
| `NoiseWriter.Writer.Drain` | src/crypto/noise/mod.rs:705-733 | buffered bytes go out in order until none is left, the stream blocks, fails or takes nothing |
| `NoiseWriter.Writer.PackChunk` | src/crypto/noise/mod.rs:756-764 | one more chunk is sealed and framed behind the buffered frames |
| `NoiseWriter.Writer.PackChunks` | src/crypto/noise/mod.rs:745-770 | all of the data is framed, or none; none if there is no room for its first chunk, or the cipher refuses it, which is when it has 65520 bytes |
| `NoiseWriter.Writer.PollWrite` | src/crypto/noise/mod.rs:698-812 | bytes sent plus bytes buffered are always the framing of the accepted plaintext; a buffer is accepted whole or not at all, and only below 65520 bytes; pending only if there is no room for its first chunk and the inner stream was pending; all that was accepted before is sent first unless the stream was pending; errors exactly as the inner stream reports them |
| `NoiseWriter.Writer.PollFlush` | src/crypto/noise/mod.rs:814-842 | success means that the framing of all accepted plaintext has been sent and the inner stream was flushed; every other answer is exactly that of the inner stream |
| `NoiseWriter.Writer.PollClose` | src/crypto/noise/mod.rs:844-849 | success means that everything was sent and flushed first and the inner stream closed |
| `NoiseLink.NothingToReject` | src/crypto/noise/mod.rs:580-590 | no part of a writer's wire is malformed |
| `NoiseLink.EndToEnd` | src/crypto/noise/mod.rs:466-850 | delivered is a prefix of accepted for every reachable pair of states, and equal once flushed, arrived and read |
| `NoiseLink.Link.Run` | src/crypto/noise/mod.rs:466-850 | the same over every list of writes, flushes, reads and network moves; every end and every error of the network was reported by a read once or is still to come |
| `Varint.DecodeEncode` | src/substream/mod.rs:384-387 | an encoded length followed by anything decodes to itself and its extent |
| `Varint.EncodeDecode` | src/substream/mod.rs:506-522 | only the minimal encoding of a value decodes to it |
| `Varint.UsizeLength` | src/substream/mod.rs:507 | a length below 2^64 takes at most ten bytes |
| `Varint.TwoBytes` | src/multistream_select/length_delimited.rs:30-31 | a length takes at most two bytes exactly up to 16383 |
| `Delimited.ItemsOfWire` | src/multistream_select/length_delimited.rs:150-214 | the one-shot decoder on a run of legal frames followed by anything |
| `Delimited.PrefixOfWire` | src/multistream_select/length_delimited.rs:150-214 | of any part of a run of frames the one-shot decoder sees a prefix of the frames; of all of it, all |
| `Delimited.BadForever` | src/multistream_select/length_delimited.rs:163-194 | a bad length stays bad, whatever follows |
| `Delimited.WireInjective` | src/multistream_select/length_delimited.rs:239-258 | which frames were written can be read off the wire |
| `LengthDelimited.Framed.TakeLengthByte` | src/multistream_select/length_delimited.rs:163-194 | one byte of the length: more to come, an empty frame, a payload to read, or a length that no continuation makes legal |
| `LengthDelimited.WaitsForFrame` | src/multistream_select/length_delimited.rs:163-194 | whatever is neither a frame nor bad begins some legal frame, so a reader does not wait in vain |
| `LengthDelimited.Framed.TakeData` | src/multistream_select/length_delimited.rs:195-210 | payload bytes go to their place, and the frame is returned when it is complete |
| `LengthDelimited.Framed.ReturnsItems` | src/multistream_select/length_delimited.rs:150-214 | in every reachable state the frames returned are those of a one-shot decode of the received bytes |
| `LengthDelimited.Framed.PollNext` | src/multistream_select/length_delimited.rs:150-214 | one more frame; at each frame nothing beyond it has been read and the read buffer is empty; an end inside a frame is an error, and so is exactly a malformed stream, whose bad length directly follows the frames returned; ends, errors and waits are reported exactly as the inner stream reports them |
| `LengthDelimited.Framed.PollWriteBuffer` | src/multistream_select/length_delimited.rs:118-141 | sent plus buffered are what was submitted; success means that all is sent; it blocks exactly if the stream does; taking nothing, or an inner error of kind `WriteZero`, is told apart from other errors, each exactly when it occurs |
| `LengthDelimited.Framed.PollReady` | src/multistream_select/length_delimited.rs:222-237 | below one maximal frame nothing is written; from there on success means that all is |
| `LengthDelimited.Framed.StartSend` | src/multistream_select/length_delimited.rs:239-258 | a frame is queued exactly if it has at most 16383 bytes; the buffer stays within 2 * 16383 + 1 bytes |
| `LengthDelimited.Framed.PollFlush` | src/multistream_select/length_delimited.rs:260-288 | success means that everything submitted was sent and the inner stream flushed |
| `LengthDelimited.Framed.PollWriteThrough` | src/multistream_select/length_delimited.rs:333-350 | data is written only after all buffered frames |
| `Multistream.EncodedLen` | src/multistream_select/protocol.rs:135-151 | the announced length is that of the encoding |
| `Multistream.AppendMessage` | src/multistream_select/protocol.rs:154-192 | the encoding is appended to the buffer |
| `Multistream.DecodeMessage` | src/multistream_select/protocol.rs:195-246 | the loop decodes exactly as the reference parser, error cases included |
| `Multistream.DecodeUndoesEncode` | src/multistream_select/protocol.rs:154-246 | every canonical message decodes to itself |
| `Multistream.EncodeUndoesDecode` | src/multistream_select/protocol.rs:154-246 | whatever decodes is the encoding of the result |
| `Multistream.NamesSkip` | src/multistream_select/protocol.rs:195-246 | names at the front of a list are read, and what follows them decides |
| `Multistream.NamesFault` | src/multistream_select/protocol.rs:195-246 | which lists are refused with which error, told by the bytes behind the good names |
| `Multistream.NameSurvives` | src/multistream_select/protocol.rs:195-216 | a single name decodes to itself if and only if it is canonical |
| `Multistream.DecodedNameIsCanonical` | src/multistream_select/protocol.rs:195-216 | a name that was received can be sent back |
| `MessageIo.MessageIo.PollNext` | src/multistream_select/protocol.rs:450-469 | messages consumed are the decodings of the frames read, in order; undecodable frames, ends, errors and waits are told apart exactly |
| `MessageIo.MessageIo.StartSend` | src/multistream_select/protocol.rs:353-357 | a message is submitted exactly if its encoding fits a frame |
| `MessageIo.MessageIo.PollWrite` | src/multistream_select/protocol.rs:425-431 | application data follows all submitted messages on the wire |
| `MessageIo.MessageIo.Submits` | src/multistream_select/protocol.rs:343-366 | what has been sent is a part of the framed messages and the data behind them |
| `Negotiation.ListenerOnProposals` | src/multistream_select/listener_select.rs:174-262 | what a listener that is fed proposals answers and where it stands: the first supported name is chosen, the ones before it rejected |
| `Negotiation.DialerOnReplies` | src/multistream_select/dialer_select.rs:228-283 | where a dialer that is fed such answers stands |
| `Negotiation.AgreementOnCuts` | src/multistream_select/dialer_select.rs:122-288 | on every cut of a run both sides stand as the first common name says, and neither is broken |
| `Negotiation.DialerMeans` | src/multistream_select/dialer_select.rs:228-283 | whatever a dialer was sent: it waits for the answer to the name behind those rejected, has exactly that one confirmed, or has none left; one header may come at any time, and anything else breaks the protocol |
| `Negotiation.ListenerMeans` | src/multistream_select/listener_select.rs:137-262 | whatever a listener was sent: it listens after a header, requests for the list and unsupported proposals, has chosen exactly the first supported name behind these, and anything else breaks the protocol |
| `Negotiation.AnswersInTurn` | src/multistream_select/listener_select.rs:137-262 | unless the protocol was broken each message has exactly its answer: the header, the list, the name or a rejection |
| `Negotiation.ListingDisturbsNothing` | src/multistream_select/listener_select.rs:223-232 | a request for the list is answered with the supported names, and everything else goes on as without it |
| `Select.Dialer.constructor` | src/multistream_select/dialer_select.rs:60-81 | a dialer that has sent and received nothing |
| `Select.Dialer.Open` | src/multistream_select/dialer_select.rs:127-150 | the header is sent and the first name taken, or the dialer fails for lack of names |
| `Select.Dialer.Propose` | src/multistream_select/dialer_select.rs:152-205 | the open name is proposed, a bad one is a violation, and exactly the lazy version settles on its last name |
| `Select.Dialer.StepFlush` | src/multistream_select/dialer_select.rs:207-226 | waiting for an answer starts when everything is sent and the inner stream was flushed |
| `Select.Dialer.Consume` | src/multistream_select/dialer_select.rs:249-282 | the answer moves the dialer as the message-level protocol says; when it confirms, both buffers are empty, so the stream can be taken back |
| `Select.Dialer.StepAwait` | src/multistream_select/dialer_select.rs:228-283 | one message is heard, or the end, an undecodable frame, an unreadable length and an error are told apart, each exactly when it occurs |
| `Select.Dialer.Poll` | src/multistream_select/dialer_select.rs:122-288 | every poll keeps the trace: what was consumed and submitted determine the state, and each verdict has its cause; pending exactly if the inner stream was; an end or failure of the inner stream ends the negotiation, and an I/O error comes only from one; it terminates, and reading loses nothing |
| `Select.Supported` | src/multistream_select/listener_select.rs:57-74 | the valid names of the listener, no others |
| `Select.Listener.constructor` | src/multistream_select/listener_select.rs:57-82 | a listener that has sent and received nothing |
| `Select.Listener.Consume` | src/multistream_select/listener_select.rs:137-262 | a message moves the listener as the message-level protocol says and leaves it owing the answer |
| `Select.Listener.StepRecv` | src/multistream_select/listener_select.rs:137-262 | one message is heard, or the listener gives up as below; each exactly when it occurs |
| `Select.Listener.GiveUp` | src/multistream_select/listener_select.rs:174-221 | an end between messages is a failed negotiation, and after a rejection so is an end inside one or an invalid message; otherwise these are an I/O error and a violation |
| `Select.Listener.Reply` | src/multistream_select/listener_select.rs:264-293 | the owed answer is submitted and it is remembered whether it was a rejection |
| `Select.Listener.StepFlush` | src/multistream_select/listener_select.rs:295-318 | a name is settled when its confirmation is sent and the inner stream flushed, and both buffers are empty then |
| `Select.Listener.Poll` | src/multistream_select/listener_select.rs:132-323 | every poll keeps the trace, and each verdict has its cause; pending exactly if the inner stream was; an end or failure of the inner stream ends the negotiation, and an I/O error comes only from one; it terminates, and reading loses nothing |
| `Agreement.HearsMessages` | src/multistream_select/protocol.rs:450-469 | of any part of a run of messages a prefix is heard, and of all of it all; nothing is garbled |
| `Agreement.Standing` | src/multistream_select/dialer_select.rs:122-288 | in every joint state both machines stand as the first common name says |
| `Agreement.Agree` | src/multistream_select/listener_select.rs:132-323 | a selected name is the first common one; no protocol violation; failure only without common name or after the other side's I/O error; an I/O error only if an inner stream failed |
| `Agreement.DialerLost` | src/multistream_select/dialer_select.rs:233-247 | an end of the stream inside a message means that the listener lost its stream |
| `Agreement.ListenerLost` | src/multistream_select/listener_select.rs:174-221 | an end of the stream inside a message means that the dialer lost its stream |
| `Agreement.NoDeadlock` | src/multistream_select/dialer_select.rs:228-247 | when both sides wait to read, a byte is under way |
| `Agreement.SupportedIsEnough` | src/multistream_select/listener_select.rs:63-74 | leaving out the listener's invalid names does not change the first common name |
| `Session.WayGives` | src/multistream_select/length_delimited.rs:150-214 | over a reliable network what was received is a part of what was sent, and all of it at the end |
| `Session.Session.AreJoined` | src/multistream_select/dialer_select.rs:122-288 | every state of a run is a joint state |
| `Session.Session.Run` | src/multistream_select/dialer_select.rs:122-288 | agreement, no violation, justified failure and no deadlock after any list of polls and network moves, in both versions; exactly the specified verdicts if no inner stream fails; a lazy dialer may settle on its last name |
| `Session.Start` | src/multistream_select/dialer_select.rs:60-81 | a dialer of either version and a listener joined by an empty network |
| `Negotiated.Negotiated.constructor` | src/multistream_select/negotiated.rs:100-112 | a stream that expects the header and the confirmation |
| `Negotiated.Negotiated.Complete` | src/multistream_select/negotiated.rs:92-96 | a complete stream: what it will read starts behind the last message and nothing is unsent |
| `Negotiated.Negotiated.Consume` | src/multistream_select/negotiated.rs:171-200 | one message of the confirmation: the stream completes if and only if it is the name and all is sent, the assertion when it is taken back fails if and only if it is the name and bytes are unsent, a second header is a bad message, and anything else is a refusal |
| `Negotiated.Negotiated.Await` | src/multistream_select/negotiated.rs:143-202 | one message, the end, an undecodable frame or an error, each exactly when it occurs; the panic if and only if the confirmation is heard with bytes unsent |
| `Negotiated.Negotiated.Poll` | src/multistream_select/negotiated.rs:122-206 | completion means that the confirmation was heard and everything is sent; afterwards the stream starts at the first byte behind the confirmation; the panic if and only if the confirmation was heard with bytes unsent, and then the inner stream took nothing or reported `WriteZero`; the stream is flushed once in every poll; each error has its cause, ends, errors and waits are exactly those of the inner stream, and reading and writing lose nothing |
| `Negotiated.Negotiated.PollWrite` | src/multistream_select/negotiated.rs:296-306 | data goes behind the negotiation while that is open and directly afterwards; the answer is exactly that of the inner stream |
| `Negotiated.Negotiated.PollRead` | src/multistream_select/negotiated.rs:249-268 | the bytes handed out are those behind the confirmation, in order; a completed stream gives exactly what the inner stream gives, no bytes only at its end; the panic and the errors as in a poll; what was written is untouched |
| `Negotiated.Negotiated.ReadOn` | src/multistream_select/negotiated.rs:255-257 | one inner read, whose bytes, end, error or wait is passed on as it is |
| `Negotiated.TakenBackTooEarly` | src/multistream_select/negotiated.rs:126-137 | an inner stream that takes nothing, or reports an error of kind `WriteZero`, and a peer that confirms at once: the assertion of `into_inner` fails |
| `Upgrade.HeardComparable` | src/multistream_select/protocol.rs:450-469 | of a stream that begins with some messages, whatever data follows, what is heard is a part of them or begins with them, and all of them are heard only when all their bytes arrived |
| `Upgrade.NextIsReadable` | src/multistream_select/length_delimited.rs:163-194 | while messages are to come, no part of the stream shows a bad length |
| `Upgrade.HeardOfOne` | src/multistream_select/protocol.rs:450-469 | the same of a stream of which only the first messages are known |
| `Upgrade.OutComparable` | src/multistream_select/listener_select.rs:137-262 | whatever data follows the proposals, what a listener answers begins the answers to the proposals or begins with them |
| `Upgrade.AnswersNeedProposals` | src/multistream_select/listener_select.rs:137-262 | all answers are given only when all proposals have been heard |
| `Upgrade.ChosenExactly` | src/multistream_select/listener_select.rs:295-318 | if the last name is the first supported one, a listener that settles has heard exactly the proposals and settles on it |
| `Upgrade.StillProposals` | src/multistream_select/listener_select.rs:137-262 | if the last name is the first supported one, a listener that consumes messages only while it listens has consumed proposals only and is not broken, and while it listens a proposal is to come |
| `Upgrade.BeforeTheLast` | src/multistream_select/dialer_select.rs:228-283 | a dialer that waits for the answer to its last name has heard all others rejected |
| `Upgrade.StillAnswers` | src/multistream_select/negotiated.rs:147-201 | while the confirmation is incomplete answers are to come |
| `Upgrade.ConfirmedIsAll` | src/multistream_select/negotiated.rs:186-198 | the last name is confirmed only if it is the first supported one, and then all answers have been heard |
| `Upgrade.RefusedIsUnsupported` | src/multistream_select/negotiated.rs:200 | an answer that is no confirmation means that the last name is not supported |
| `LazySession.SettledOnLast` | src/multistream_select/dialer_select.rs:189-202 | a lazy dialer that has settled has proposed all its names, heard all but the last rejected, and heard and written nothing else |
| `LazySession.LazySession.constructor` | src/multistream_select/dialer_select.rs:189-202 | a session whose lazy dialer has settled meets the invariant of the lazy session |
| `LazySession.Settle` | src/multistream_select/dialer_select.rs:189-202 | the dialer of any reachable session that has settled optimistically returns a stream that meets it |
| `LazySession.LazySession.ConfirmationComesLast` | src/multistream_select/negotiated.rs:186-198 | the confirmation is heard only if the name is supported and after all negotiation bytes reached the listener |
| `LazySession.LazySession.ConfirmedMeansSent` | src/multistream_select/length_delimited.rs:96-100 | when the confirmation is heard the write buffer is empty, so taking the stream back does not fail |
| `LazySession.LazySession.UpgradeBoundary` | src/multistream_select/listener_select.rs:295-318 | if the listener supports the name, its application's stream is for it and yields the dialer's data from the first byte on, all of it once all has arrived |
| `LazySession.LazySession.AnswersComeFirst` | src/multistream_select/negotiated.rs:249-268 | a completed dialer stream yields the listener's data from the first byte behind the confirmation on, all of it once all has arrived |
| `LazySession.LazySession.RefusalIsRight` | src/multistream_select/negotiated.rs:200 | the dialer's stream is refused only if the listener does not support the name |
| `LazySession.LazySession.NoViolation` | src/multistream_select/negotiated.rs:153-184 | the dialer's stream meets neither an undecodable frame nor an unreadable length nor a second header |
| `LazySession.LazySession.Understood` | src/multistream_select/negotiated.rs:153 | until it completes, the dialer's stream has read nothing but messages and parts of them |
| `LazySession.LazySession.EndIsRight` | src/multistream_select/negotiated.rs:163-168 | the dialer's stream ends early only if the listener dropped it, and then all it sent has been read |
| `LazySession.LazySession.LossIsRight` | src/multistream_select/negotiated.rs:153 | the dialer's stream fails only if an inner stream failed or the listener dropped it inside a message |
| `LazySession.LazySession.ListenerVerdict` | src/multistream_select/listener_select.rs:132-323 | if the listener supports the name, its verdict is that name, a failure only if the dialer dropped its stream, or an I/O error from a failed inner stream or a drop inside a message |
| `LazySession.LazySession.Run` | src/multistream_select/negotiated.rs:122-306 | all this after any list of polls, reads, writes and drops of both sides and of network moves; the panic never occurs |
| `LazySession.LazySession.ReadUpListener` | src/multistream_select/negotiated.rs:249-268 | from any state of a run, reading the listener's stream hands out every byte under way, and all the dialer's data once all is under way |
| `LazySession.LazySession.ReadUpDialer` | src/multistream_select/negotiated.rs:249-268 | the same for the dialer's completed stream |
| `WebRtc.EncodePayload` | src/multistream_select/protocol.rs:253-296 | the payload is the framed message, with the framed header before it if asked for; refused if too long |
| `WebRtc.ParsedWasFramed` | src/multistream_select/listener_select.rs:354-385 | a payload that parses is the framed encoding of the message, followed by the rest |
| `WebRtc.ListenerNegotiate` | src/multistream_select/listener_select.rs:392-473 | the answer to an arbitrary payload, error cases included, as characterized byte for byte below |
| `WebRtc.AcceptedEchoesPayload` | src/multistream_select/listener_select.rs:451-461 | an accepting answer is byte for byte the proposal |
| `WebRtc.WebRtcDialer.constructor` | src/multistream_select/dialer_select.rs:341-365 | the fallback names are kept so that the most preferred comes first |
| `WebRtc.WebRtcDialer.ProposeNextFallback` | src/multistream_select/dialer_select.rs:371-388 | the next name in order of preference is proposed, without header once one was received |
| `WebRtc.WebRtcDialer.RegisterResponse` | src/multistream_select/dialer_select.rs:391-487 | the loop consumes an arbitrary payload as the reference function says, whose answers are characterized byte for byte below |
| `WebRtc.OnlyTheProposalSucceeds` | src/multistream_select/dialer_select.rs:391-487 | whatever the payload, success is only the proposed name and only after a header |
| `WebRtc.OnlyAHeaderCounts` | src/multistream_select/dialer_select.rs:391-487 | a dialer stops waiting for the header only by a payload that starts with one |
| `WebRtc.Converse` | src/multistream_select/dialer_select.rs:371-487 | over any list of payloads, with fallbacks after refusals, each success is the name proposed last and comes after a header |
| `WebRtc.Negotiate` | src/multistream_select/dialer_select.rs:341-487 | a whole negotiation against the modelled listener selects the first supported name, and none if there is none |
| `WebRtc.NegotiateInTwo` | src/multistream_select/listener_select.rs:404-411 | a negotiation in which header and name travel in two payloads selects the same name |
| `WebRtcMeaning.ResponseMeans` | src/multistream_select/dialer_select.rs:391-487 | the dialer waits on if and only if the payload is used up with the header, is refused if and only if the framed rejection comes first or directly behind the header, and succeeds if and only if its framed name does |
| `WebRtcMeaning.BehindHeader` | src/multistream_select/dialer_select.rs:391-487 | behind the header: waiting, a payload without a whole frame, a rejection and a request for the list, each if and only if the bytes say so |
| `WebRtcMeaning.NameBehindHeader` | src/multistream_select/dialer_select.rs:391-487 | success if and only if the first frame carries the proposed name, failure if and only if it carries another |
| `WebRtcMeaning.OddBehindHeader` | src/multistream_select/dialer_select.rs:391-487 | a state mismatch if and only if the first frame carries a second header, a list or nothing that decodes |
| `WebRtcMeaning.BeforeHeader` | src/multistream_select/dialer_select.rs:391-487 | before the header: a header leads on to what follows it, and which failure anything else is |
| `WebRtcMeaning.ProposalMeans` | src/multistream_select/listener_select.rs:392-449 | a proposal is read if and only if the payload is the framed name, behind the framed header if that was outstanding, and nothing more |
| `WebRtcMeaning.AnswerMeans` | src/multistream_select/listener_select.rs:392-473 | accepted, or too long to accept, if and only if a supported name is proposed, rejected if and only if another; an accepting answer echoes the payload and a rejection is the framed one |
| `WebRtcMeaning.PendingMeans` | src/multistream_select/listener_select.rs:404-411 | the listener waits for the name, echoing the payload, if and only if the payload is the outstanding header alone |
| `WebRtcMeaning.UnexpectedMeans` | src/multistream_select/listener_select.rs:392-473 | unexpected if and only if the first frame carries a message out of turn |
| `KeepAlive.KeepAliveTracker.SubstreamActivity` | src/protocol/transport_service.rs:156-191 | activity is recorded for any connection; every tracked one keeps a timer due no later than the end of its idle period, and no second one unless it was closed before |
| `KeepAlive.ActivityAfterClose` | src/protocol/transport_service.rs:161-175 | activity on a closed connection sets a second timer beside the one the close left |
| `KeepAlive.KeepAliveTracker.OnConnectionClosed` | src/protocol/transport_service.rs:161-163 | the connection is forgotten and a timer it leaves is harmless |
| `KeepAlive.KeepAliveTracker.Fire` | src/protocol/transport_service.rs:205-256 | a fired timer is ignored, set again for exactly the rest of the idle period, or its connection reported, exactly if it was idle for the whole timeout; no other timer changes |
| `KeepAlive.KeepAliveTracker.PollNext` | src/protocol/transport_service.rs:197-259 | a connection is reported only after a full idle timeout, each poll with a fired timer makes progress, and one without changes nothing |
| `KeepAlive.KeepAliveTracker.QuietMeansFresh` | src/protocol/transport_service.rs:197-259 | when no timer is due, no tracked connection has been idle for the whole timeout |
| `KeepAlive.KeepAliveTracker.PollToQuiescence` | src/protocol/transport_service.rs:197-259 | polling until nothing fires reports exactly the connections idle for the whole timeout |
| `Connections.CloseForgetsOne` | src/protocol/transport_service.rs:468-520 | closing forgets that connection and no other if and only if it was tracked or there is no secondary |
| `Connections.ThirdConnectionDropsSecondary` | src/protocol/transport_service.rs:500-520 | the close of an ignored third connection drops the secondary |
| `Connections.MatchEstablished` | src/protocol/transport_service.rs:379-425 | a new connection keeps the tracked connections equal to the open ones, the oldest as primary |
| `Connections.MatchClosed` | src/protocol/transport_service.rs:455-520 | a close keeps them equal |
| `Connections.FailAll` | src/protocol/transport_service.rs:441-453 | failing the substreams of a closed connection reports each of them once and no other |
| `Connections.DowngradeKeeps` | src/protocol/transport_service.rs:745-760 | making an idle handle weak changes no other handle, and exactly the active ones stay watched |
| `Books.KeptEstablished` | src/protocol/transport_service.rs:362-426 | a new connection keeps all the books: tracked and open connections, timers, reports, and the order of events |
| `Books.KeptClosed` | src/protocol/transport_service.rs:429-521 | so does a close, which reports the connection's substreams first and the peer last |
| `Books.KeptReported` | src/protocol/transport_service.rs:699-742 | so does an event about a substream |
| `Books.KeptRequested` | src/protocol/transport_service.rs:577-622 | so does a request on an open connection |
| `TransportService.TransportService.OnConnectionEstablished` | src/protocol/transport_service.rs:362-426 | primary, secondary or ignored, and reported exactly if it is the peer's first |
| `TransportService.TransportService.FailOutbound` | src/protocol/transport_service.rs:441-453 | exactly the pending substreams of the connection are reported, once each |
| `TransportService.TransportService.OnConnectionClosed` | src/protocol/transport_service.rs:429-521 | failures come before the peer's close, which is queued exactly for its last connection |
| `TransportService.TransportService.ReceiveEstablished` | src/protocol/transport_service.rs:679-690 | an established connection keeps every invariant, is reported exactly if it is the peer's first, and counts as activity |
| `TransportService.TransportService.ReceiveClosed` | src/protocol/transport_service.rs:691-698 | a closed connection keeps every invariant and is no longer watched |
| `TransportService.TransportService.ReceiveOpened` | src/protocol/transport_service.rs:699-732 | an opened substream is no longer pending, is handed out once, and makes its connection active exactly if it is this protocol's and keeps connections alive |
| `TransportService.TransportService.Receive` | src/protocol/transport_service.rs:673-742 | one received event: a substream, a failure to open one or a failed dial is handed out at once, a close hands out what it queued first, and what counts as activity |
| `TransportService.TransportService.Downgrade` | src/protocol/transport_service.rs:745-760 | connections are downgraded until the tracker has nothing to report, and only those idle for the whole timeout |
| `TransportService.TransportService.PollNext` | src/protocol/transport_service.rs:661-763 | queued events first; events are received in order and none is lost; a substream, failure or failed dial handed out is the event received last; pending exactly if none is queued or received, after the idle connections were downgraded; the end exactly when the channel ended |
| `TransportService.TransportService.PollToQuiescence` | src/protocol/transport_service.rs:661-763 | polling until no timer is due makes inactive exactly the active connections that have been idle for the whole timeout |
| `TransportService.TransportService.OpenSubstream` | src/protocol/transport_service.rs:577-622 | a fresh id is requested on the primary connection, or nothing is requested, and which error is returned when; an attempt that reaches the connection counts as activity exactly if substreams keep connections alive, and nothing else does |
| `TransportService.TransportService.ReportedOnce` | src/protocol/transport_service.rs:429-521 | a requested substream is reported at most once, exactly once when its connection is closed and the queue drained, and no other ever |
| `TransportService.TransportService.PassedOnOnce` | src/protocol/transport_service.rs:699-742 | every substream, failure to open one and failed dial received has been handed out exactly once, in order, and nothing else of these kinds |
| `TransportService.TransportService.ReportedBeforeClosed` | src/protocol/transport_service.rs:441-521 | between a request and its report the peer is not reported closed |
| `TransportService.TransportService.OneTimer` | src/protocol/transport_service.rs:156-191 | exactly the active connections are watched, and every connection watched is open and has exactly one timer, due in time |
| `TransportService.TransportService.TracksOpenConnections` | src/protocol/transport_service.rs:362-521 | a peer is tracked exactly while it has an open connection, by exactly those, the oldest primary; in all that was handed out established and closed alternate, and once the queue is drained the protocol's view agrees |
| `Permits.ConnectionHandle.New` | src/protocol/connection.rs:59-64 | an active handle holds one strong reference |
| `Permits.ConnectionHandle.Downgrade` | src/protocol/connection.rs:71-83 | the strong reference moves to a new handle |
| `Permits.ConnectionHandle.Close` | src/protocol/connection.rs:91-95 | an active handle gives its reference up, an inactive one nothing |
| `Permits.ConnectionHandle.TryUpgrade` | src/protocol/connection.rs:98-104 | it ends up active exactly if someone holds a reference |
| `Permits.ConnectionHandle.TryGetPermit` | src/protocol/connection.rs:107-112 | a permit is granted exactly if someone holds a reference |
| `Permits.ConnectionHandle.OpenSubstream` | src/protocol/connection.rs:116-141 | the permit travels with the command or is dropped with it |
| `Permits.ConnectionHandle.SendForceClose` | src/protocol/connection.rs:144-155 | queued, or refused because there is no reference, the receiver is gone or the queue is full; the count stays |
| `Permits.Connection.ReportEstablished` | src/protocol/protocol_set.rs:438-447 | each protocol gets an active handle of its own to this connection, the old ones are kept, the connection's own becomes weak, and the count changes by exactly these |
| `Permits.Connection.StrongCounts` | src/protocol/connection.rs:46-141 | the count is exactly the active handles, the permits held and those in queued commands |
| `Permits.Connection.ZeroMeansNone` | src/protocol/connection.rs:46-112 | at zero no handle is active and no permit is held or queued |
| `Permits.Connection.Run` | src/protocol/connection.rs:46-155 | the count stays exact over every run; at zero nobody holds a reference, and it stays zero |
| `Substream.ReadPayloadSize` | src/substream/mod.rs:506-522 | the scan finds the length that the varint reader finds, or tells exactly why not |
| `Substream.Writer.StartSend` | src/substream/mod.rs:694-732 | an item is queued exactly if the codec takes it, behind everything queued before, and the byte count grows by its encoding |
| `Substream.AcceptsWhatIsLegal` | src/substream/mod.rs:694-732 | a sender takes exactly the items that the peer's stream does not reject |
| `Substream.Writer.PollFlush` | src/substream/mod.rs:734-777 | the count is exactly the bytes of accepted items not written; success means that the stream was flushed and that all are written if and only if no chunk was lost to an error; before a loss written plus queued bytes are the framing of the accepted items, and up to the loss what is written begins it; pending, an error and taking nothing are each reported exactly when they occur |
| `Substream.FrameIsLost` | src/substream/mod.rs:752-753 | a write error on the first chunk loses it |
| `Substream.Writer.PollReady` | src/substream/mod.rs:675-692 | below 65536 bytes nothing is done; from there on success means a flush |
| `Substream.Writer.Send` | src/substream/mod.rs:675-732 | with ready before send the queue stays below 65536 bytes and one encoded item |
| `Substream.SendFramed` | src/substream/mod.rs:373-394 | the direct path writes the same bytes as the sink and flushes, or fails because the item is too long or the stream failed, took nothing or never became ready |
| `Substream.Reader.TakeSizeByte` | src/substream/mod.rs:610-659 | one byte of the length, which never goes past the tenth: more, an empty item, a payload to read, or a malformed stream |
| `Substream.Reader.TakeData` | src/substream/mod.rs:586-607 | payload bytes; the item is returned when it is complete |
| `Substream.Reader.TakePart` | src/substream/mod.rs:551-562 | the same for items of a fixed size |
| `Substream.Reader.PollNext` | src/substream/mod.rs:527-668 | one more item in order; failure exactly on a malformed stream, right behind the items returned, or a failed one with the identity codec, and no item is lost or made up by it; each end of the inner stream ends a poll, with a varint codec each error too; pending exactly if the inner stream was; the panic if and only if the payload size is above 1024; a payload size of zero ends the stream |
| `Substream.OversizedPanics` | src/substream/mod.rs:535-537 | the first read with a payload size of 1025 panics |
| `Substream.ReturnsItems` | src/substream/mod.rs:567-664 | the items returned are those of a one-shot decode of the received bytes, and until a failure these are not malformed |
| `Substream.NothingToReject` | src/substream/mod.rs:610-659 | no part of what a sender has written is malformed, and it carries a prefix of the accepted items |
| `Substream.RoundTrip` | src/substream/mod.rs:567-777 | the peer gets a prefix of the accepted items, empty ones included, and all of them once all is written and received |
| `Substream.IdentityRoundTrip` | src/substream/mod.rs:535-566 | the same for items of a fixed positive size; of size zero none arrives |
| `SubstreamLink.Link.constructor` | src/substream/mod.rs:527-777 | two fresh ends of a substream over an empty network |
| `SubstreamLink.Link.Run` | src/substream/mod.rs:527-777 | over every list of sends, flushes, polls and network moves, as long as the sender is not used after an inner error: the items returned are a prefix of the accepted ones, all of them once drained, and nothing is rejected unless the stream failed under the identity codec; every end and error of the network was met by one poll or is still to come |
| `YamuxControl.ControlledConnection.PollCommand` | src/yamux/control.rs:110-133 | commands come in order, and the channel ends when it is closed or no control is left |
| `YamuxControl.ControlledConnection.StepIdle` | src/yamux/control.rs:83-137 | inbound streams first, then one command; a stream, the end and an error of the connection are returned as they are; after an inbound error the machine is closing and never polls inbound again |
| `YamuxControl.ControlledConnection.StepOpening` | src/yamux/control.rs:138-152 | the stream opened, or the failure, goes to the command that asked |
| `YamuxControl.ControlledConnection.StepDraining` | src/yamux/control.rs:153-189 | queued commands are refused or acknowledged in order; it ends exactly when no command can come any more |
| `YamuxControl.ControlledConnection.StepClosing` | src/yamux/control.rs:190-213 | the close request is acknowledged when the connection is closed, and only then is the machine poisoned; the result is that of closing |
| `YamuxControl.ControlledConnection.PollNext` | src/yamux/control.rs:80-217 | each poll terminates and returns exactly the inbound answer, or the answer to closing, that the connection gave in it; the machine is poisoned exactly by its last result; pending in idle or draining means an empty queue that can still grow, and otherwise that the connection was pending |
| `YamuxControl.ControlledConnection.AllAnswered` | src/yamux/control.rs:80-217 | a finished machine has answered every accepted command exactly once |
| `YamuxControl.ControlledConnection.Run` | src/yamux/control.rs:80-217 | over every run each received command is answered once in order or held, and all are answered at the end; the streams returned are, in order, exactly those the connection gave |

## Left out

- Cryptography and the Noise handshake: the cipher is any pair of functions that opens what was sealed under the same nonce, adds 16 bytes and refuses messages above 65535 bytes. Exhausted nonces are not modelled.
- The two halves of a Noise socket are separate classes, since they share only the cipher.
- A read-ahead factor and a write buffer size of at least one are required, as every caller passes.
- The `unsigned-varint` crate is not part of this model: varints follow the multiformats unsigned-varint specification (minimal encodings, at most ten bytes, values below 2^64).
- Wakers, pinning, the executor and logging: a poll is a method call, and the clock is a number.
- Of the errors of an inner stream only those of kind `WriteZero` are told apart.
- `poll_close` of the optimistic stream: it would add easy members.
- An inner read into an empty buffer returns nothing at once; some streams may be pending there.
- LazySession.LazySession.Run: classifies the listener's verdict only if it supports the name; otherwise the listener reads the dialer's data as messages, and nothing is stated about it.
- Polling a substream again after it has rejected its stream.
- Vectored writes, QUIC chunk writes and the mock substream: they duplicate the modelled paths.
- The queue of already decoded frames of a substream, which nothing ever fills, and `SubstreamSet`.
- Substream ids are unbounded numbers; the wrap-around of the shared counter is not modelled.
- Dialing, addresses, `force_close` of the service and unregistering a protocol: plumbing that keeps no state of the service.
- TransportService.TransportService.PollNext: relies on an environment in which a peer has at most two connections, connection ids are not reused, and a connection reports a substream once and before its own close.
- The maps of `ProtocolSet`, its fallback names and keep-alive settings; only its handle to the connection is modelled.
- The transport manager, the transports, Kademlia, notifications, request-response, identify, ping, mDNS and the codecs in `src/codec`, which wrap an external crate.
