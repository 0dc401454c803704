# A verified model of the NFSv4.1 client stack

This project models the protocol stack of an NFSv4.1 client written in Rust, from
the bytes of a TCP connection up to path resolution, and the two data buffers of
its mount layer, and proves properties of the model in Dafny. `dafny verify
dfyconfig.toml` checks everything.

The layers, bottom up:

- **Bytes** (`Wire.dfy`): machine integers, big-endian words, the append-only output
  buffer and the consuming input cursor.
- **XDR** (`Xdr.dfy`, `XdrLaws.dfy`, `XdrStructs.dfy`, `XdrCodec.dfy`): one universe of
  types and values, what the codecs write and read for each (verdict, bytes left over
  and bytes already written also on failure), the imperative codecs proved against
  that, and the laws, proved once for all types: round trip exactly for well-formed
  values, final verdicts, prefixes always too short, conservation of bytes.
- **The derive macro** (`XdrDerive.dfy`): a compiler from a Rust item to the code of its
  encoder and decoder; the generated pair is the codec of a schema and inherits its laws.
- **NFS results** (`Nfs4Types.dfy`, `ResultValues.dfy`, `Compound.dfy`, `Sendable.dfy`,
  `CompoundLaws.dfy`, `OpenChoices.dfy`, `Bitmap.dfy`): the 18 operation results, status-guarded bodies, the
  READDIR chain, opcode dispatch, the COMPOUND response, what a response needs to be
  readable, and attribute bitmaps as sets.
- **RPC** (`Rpc.dfy`, `Record.dfy`, `Tcp.dfy`): credentials, calls and replies, record
  marking with the incremental reader, and one call over a chunked connection.
- **Client** (`Args.dfy`, `Client.dfy`, `Mount.dfy`, `NfsPath.dfy`): requests and their
  builder, connect and disconnect, path resolution, Windows paths.
- **Sessions** (`Session.dfy`): the slot table, and N tasks against a server over all
  interleavings.
- **Whole-system results** (`EndToEnd.dfy`, `Server.dfy`, `PathResolution.dfy`,
  `Lifecycle.dfy`, `Size.dfy`, `Feasible.dfy`): a response from the server to the caller
  through every layer, path resolution as a walk down a tree, a whole life from connect to
  disconnect, and that such a life can take place: bounds on reply sizes, and a server
  that answers each call in one chunk.
- **Buffers** (`WriteBuf.dfy`, `ReadBuf.dfy`): the write coalescer and the read-ahead buffer.
- **Layouts and reports** (`WireForms.dfy`, `RequestForms.dfy`, `ResultForms.dfy`,
  `MessageForms.dfy`, `Verdicts.dfy`, `Written.dfy`, `Utf8.dfy`, `Reports.dfy`): the bytes of
  every request, result and message written out field by field, with opcodes and constants
  in figures, and proved to be what the encoders write; what the decoders make of bytes that
  no encoder writes; when a value can be written at all; UTF-8 as sequences of scalar values;
  and what the client reports for every answer a server may give. These say independently
  what the pairs of codecs and the modelled server agree on.

Choices a reader should know:

- Integer widths are modelled where they matter. `sequence_ids[idx] += 1` and
  `len() - 1` in the slot table wrap, as a release build does; `as u32` casts of lengths
  are remainders; the xid counter wraps. `usize` is 64 bits wide.
- `XdrError.Panic` is not a value of the source's error type. It marks the one decoder
  path that aborts inside `Bytes::advance` (AUTH_NONE with a body longer than the buffer);
  `NfsError.Aborted` marks the indexing of an empty result array in `connect`. Both are
  modelled as outcomes so that no input has to be excluded.
- A Rust `String` is its UTF-8 bytes (`Utf8`); validity follows RFC 3629 section 4.
- A socket is the bytes written, the list of chunks that its reads will return, and the
  number of requests it still takes. An empty chunk or the end of the list is the peer's
  close or a read that fails, and a request beyond that number is a write that fails: the
  source reports all three as `RpcError::Transport`, the model as `Closed`.
- After `RecordTooLarge` the fragment header is already consumed, so the reader is not
  used again; `Records` stops there too.
- Writing to and reading from the buffers requires offset plus length to stay below 2^64,
  which the source leaves to its callers. The fourfold length in `fetch_plan` wraps.
- Where the code is laxer than the RFCs it is followed: an AUTH_SYS length word is ignored,
  unknown flavors are read as none, and padding bytes need not be zero. Where `connect`
  returns before the release (client.rs:173) the model leaks the slot too.

## Model

| member | source | states |
|---|---|---|
| EndToEnd.ResponseArrivesIff | crates/onc-rpc/src/tcp.rs:34-96 | For every encodable request, sendable response, verifier and way of cutting the bytes, and whatever follows them: the caller of compound gets exactly the response the server sent if and only if the request can be written and the reply fits a record; otherwise the call fails, and is never given another response |
| EndToEnd.FragmentedResponseArrives | crates/onc-rpc/src/tcp.rs:65-82 | The same when the peer cuts its reply into any fragments, empty ones included |
| EndToEnd.Exchanged | crates/onc-rpc/src/tcp.rs:65-82 | A reply that arrives in chunks of its own is returned and leaves the later chunks unread, so calls on one connection do not disturb each other |
| EndToEnd.CutIsConsumed | crates/onc-rpc/src/tcp.rs:65-79 | Reading a framed record chunk by chunk stops exactly at its end, for every cut into non-empty chunks |
| EndToEnd.RequestSent | crates/onc-rpc/src/tcp.rs:43-63 | A request that fits is sent as one framed call with the current xid, and the answer is sought in the bytes that come in |
| EndToEnd.CompoundAnswers | crates/nfs4-client/src/client.rs:43-60 | Whatever comes in: compound returns a response only out of the reply to its own call, passes on the accept status of that reply when it is no success, reports a body it cannot decode, and refuses a reply with another xid by that xid |
| EndToEnd.NotSent | crates/onc-rpc/src/tcp.rs:43-63 | A request whose lengths do not fit leaves the connection as it was; a credential that does not fit, or a write that fails, costs the xid and no more |
| PathResolution.ResolveIsWalk | crates/nfs-mount/src/mount.rs:64-133 | Against a server in step with the client, resolve_path returns the handle that walking the components from the root reaches, and otherwise the status of the first LOOKUP that fails; its SEQUENCE is new to the server, the slot is free again, and the two stay in step |
| PathResolution.ResolveAnyServer | crates/nfs-mount/src/mount.rs:64-133 | Against a server in any state: if it takes the SEQUENCE as new, the answer is the walk and the server has moved on by this request; if not, the answer is the status of its refusal and the server is as before. Either way the slot is free again and its sequence id has moved on |
| PathResolution.LossOpensGap | crates/nfs-mount/src/mount.rs:73-100 | A resolution that the server never sees leaves the client one sequence id ahead on the slot it takes next |
| PathResolution.LostRequestBlocks | crates/nfs-mount/src/mount.rs:73-100 | From then on, with calls one after the other: first fit takes that slot again every time, every answer is SEQ_MISORDERED, and the server never moves, until the ids have gone all the way round |
| PathResolution.ResolutionsAreWalks | crates/nfs-mount/src/mount.rs:64-133 | The same over any run of resolutions: every answer is its walk, and at the end the same slots are free and client and server still in step |
| PathResolution.SlotAlwaysFreed | crates/nfs-mount/src/mount.rs:73-100 | Whatever the network, server or path: after resolve_path the same slots are in use, and only the sequence id of the lowest free slot has moved, by one; with no free slot nothing happens at all |
| PathResolution.ServeWalks | crates/nfs-mount/src/mount.rs:82-95 | The COMPOUND that resolve_path builds, run in order with a stop at the first error, yields the results of the walk and their status |
| PathResolution.HandleTaken | crates/nfs-mount/src/mount.rs:102-132 | The last result and the status of that response give the walk's handle or its error |
| PathResolution.WalkSendable | crates/nfs4-types/src/compound.rs:275-293 | Such a response has a body exactly where its status is Ok and can be put on the wire |
| PathResolution.RequestFits | crates/xdr-codec/src/variable.rs:37-47 | Every path of fewer than 2^32 - 5 bytes gives a request that can be encoded |
| SessionLifecycle.WholeLife | crates/nfs4-client/src/client.rs:64-201 | Connect, any run of path resolutions, disconnect against the server: every step succeeds, every answer is the walk, nothing is left on the line, and the session is gone on both sides |
| SessionLifecycle.ConnectSucceeds | crates/nfs4-client/src/client.rs:64-181 | The handshake with the server's replies cut anywhere gives a session with the granted number of slots, all free, in step with the server |
| SessionLifecycle.ConnectLeaksIff | crates/nfs4-client/src/client.rs:160-174 | From a client without a session, connect leaves a slot of the new session taken exactly when the RECLAIM_COMPLETE call itself fails, and then reports that failure |
| SessionLifecycle.ConnectLeaksOnLineIff | crates/nfs4-client/src/client.rs:160-174 | With the server's first two replies on the line: slot 0 of the new session stays taken exactly when the third call cannot be written or the remaining bytes are no readable answer to it, and connect reports why |
| SessionLifecycle.CloseLeaksSlot | crates/nfs4-client/src/client.rs:160-174 | It does happen, for every server and client: when the peer closes after the second reply, connect returns the close and leaves a session whose slot 0 is taken |
| SessionLifecycle.LeakedSingleSlotBlocks | crates/nfs4-client/src/session.rs:57-70 | If that was the only slot, every later path resolution, however many and whatever the network, is refused by the client itself |
| SessionLifecycle.ConnectAbortsIff | crates/nfs4-client/src/client.rs:76-152 | Connect aborts exactly when the answer to its first or to its second call has status Ok and no results |
| SessionLifecycle.ConnectOutcome | crates/nfs4-client/src/client.rs:72-181 | After success every slot is free and the first was used once; when the third call is never made, the session is the old one, or is new and empty because the server granted no slot |
| SessionLifecycle.HandshakeServed | crates/nfs4-client/src/client.rs:66-172 | What the server makes of the three requests of the handshake: its answers and its state after them |
| Feasibility.LifeHappens | crates/nfs4-client/src/client.rs:64-201 | For every server tree with short handles, slot count, owner, credential, verifier of at most 400 bytes and paths of at most 60,000 bytes: when the server answers each call in one chunk, connect, all resolutions and disconnect succeed and every answer is the walk |
| Feasibility.LifeCanArrive | crates/onc-rpc/src/tcp.rs:34-96 | Those replies are the ones that the theorem on a whole life asks to find on the line |
| Feasibility.AnswersCanArrive | crates/nfs-mount/src/mount.rs:64-133 | So are the replies to any run of resolutions, whatever the server's state |
| Feasibility.ReplyFits | crates/onc-rpc/src/record.rs:8-8 | A reply whose results weigh at most 160 bytes each fits a record, for up to 60,004 results |
| EncodedSize.SizeBound | crates/xdr-codec/src/variable.rs:37-140 | For all types and values, an encoding is at most as long as a bound that depends on the value alone |
| Reports.ExchangeReports | crates/nfs4-client/src/client.rs:72-97 | For every first answer: connect goes on only from status Ok with an EXCHANGE_ID body; otherwise it reports the failure of the call, the status of the response or of the operation, the wrong operation or the missing body, and keeps the session it had |
| Reports.CreateReports | crates/nfs4-client/src/client.rs:99-150 | CREATE_SESSION carries the client id and the sequence id of the first answer, whatever they are; its answer is reported in the same way |
| Reports.ReclaimReports | crates/nfs4-client/src/client.rs:152-181 | The new session has the id and the slots of the second answer; RECLAIM_COMPLETE goes out on slot 0 with sequence id 1 and the last slot as the highest; connect succeeds exactly when its answer has status Ok, and reports any other status, or the failure of the call |
| Reports.ReclaimDecides | crates/nfs4-client/src/client.rs:172-180 | Whenever the third answer has come, connect returns Done if its status is Ok and that status otherwise |
| Reports.DisconnectReports | crates/nfs4-client/src/client.rs:184-201 | DESTROY_SESSION names the session there is; any answer ends it and its status is reported; without an answer the session stays |
| Reports.ResolveReports | crates/nfs-mount/src/mount.rs:96-133 | For every answer: resolve_path returns a handle only out of the last result of an Ok response, and otherwise reports the first thing that is wrong |
| MessageForms.CompoundOnWire | crates/nfs4-client/src/client.rs:35-48 | What one compound writes, in bytes: a flagged record length, xid, call, RPC version 2, program 100003, version 4, procedure 1, credential, no verifier, and the request |
| MessageForms.ExchangeRequest | crates/nfs4-client/src/client.rs:66-71 | The request of the first call: minor version 1, one operation, flags 0, no protection, no implementation id |
| MessageForms.CreateRequest | crates/nfs4-client/src/client.rs:103-124 | The request of the second call: flags 0, the default channel in figures both ways, callback program 0 and one callback without authentication |
| MessageForms.ReclaimRequest | crates/nfs4-client/src/client.rs:168-172 | The request of the third call: SEQUENCE on the granted slot, then RECLAIM_COMPLETE |
| MessageForms.DestroyRequest | crates/nfs4-client/src/client.rs:188-193 | The request of disconnect |
| MessageForms.ResolveRequest | crates/nfs-mount/src/mount.rs:82-95 | The request of resolve_path: SEQUENCE, PUTROOTFH, one LOOKUP for each component in order, GETFH |
| MessageForms.TagBytes | crates/nfs4-client/src/client.rs:67-69 | The tags of the five requests, letter by letter |
| NfsClient.Nfs4Client.Compound | crates/nfs4-client/src/client.rs:35-61 | One COMPOUND: request encoded, called, status and body decoded, every error passed on; state of the connection included |
| NfsClient.Nfs4Client.Connect | crates/nfs4-client/src/client.rs:64-181 | Connect moves connection and session as the handshake state machine says, in every case |
| NfsClient.Nfs4Client.Disconnect | crates/nfs4-client/src/client.rs:184-201 | Disconnect moves connection and session as the state machine says, in every case |
| Mount.MountHandle.ResolvePath | crates/nfs-mount/src/mount.rs:64-133 | Allocates, calls, releases before looking at the answer, and returns what the specification function says |
| Mount.MountHandle.BuildArgs | crates/nfs-mount/src/mount.rs:82-95 | The builder loop appends SEQUENCE, PUTROOTFH, one LOOKUP per component in order, GETFH |
| Mount.Names | crates/nfs-mount/src/mount.rs:65-65 | The components of a path are valid strings |
| Transport.TcpTransport.Call | crates/onc-rpc/src/tcp.rs:34-96 | Whatever the chunks, a call writes one framed record, answers what the incoming bytes amount to, and uses up one xid |
| Transport.TcpTransport.ReadRecord | crates/onc-rpc/src/tcp.rs:65-79 | The read loop returns the first record of all bytes read, or the close, or the oversize, and leaves the right chunks unread |
| Transport.TcpTransport.NextXid | crates/onc-rpc/src/tcp.rs:28-30 | The counter yields consecutive xids and wraps |
| Transport.OwnReplyIff | crates/onc-rpc/src/tcp.rs:65-96 | A call returns exactly the first reply to come in, and only if it has the xid of the call; a reply with another xid is XidMismatch with both numbers |
| Transport.NeverAnothersReply | crates/onc-rpc/src/tcp.rs:84-89 | No call, encodable or not, returns a reply with another xid |
| Transport.IncomingForm | crates/onc-rpc/src/tcp.rs:68-75 | What comes in is chunk after chunk up to the first empty one |
| Transport.ReplyArrivesIff | crates/onc-rpc/src/tcp.rs:65-95 | A framed reply is received, whatever follows it, exactly when it fits a record; a truncated one is never taken for it |
| Transport.ReplyExtends | crates/onc-rpc/src/message.rs:192-213 | A decoded reply stands when bytes are appended, except that a successful result swallows them |
| Transport.TruncatedReplyDiffers | crates/onc-rpc/src/message.rs:147-151 | A reply cut short and still decodable is a success whose body misses exactly the bytes cut off |
| MessageForms.AuthOnWire | crates/onc-rpc/src/auth.rs:23-45 | A credential in bytes: flavor, length of the body, and the five fields of AUTH_SYS in order |
| MessageForms.CallOnWire | crates/onc-rpc/src/message.rs:42-57 | A call in bytes: xid, 0, RPC version 2, program, version, procedure, credential, verifier, arguments |
| MessageForms.ReplyOnWire | crates/onc-rpc/src/message.rs:181-190 | A reply in bytes: xid, 1, 0, verifier, status |
| MessageForms.StatusOnWire | crates/onc-rpc/src/message.rs:114-141 | Each accept status by its code and what comes with it |
| Verdicts.ReplyRefused | crates/onc-rpc/src/message.rs:192-208 | A message of another type, or not accepted, is refused with the word that says so |
| Verdicts.CallRefused | crates/onc-rpc/src/message.rs:59-76 | A message that is no call, or not of RPC version 2, likewise |
| Verdicts.StatusRefused | crates/onc-rpc/src/message.rs:163-167 | An unknown accept status is refused with its code |
| Verdicts.OtherFlavors | crates/onc-rpc/src/auth.rs:47-84 | Every flavor but AUTH_SYS is skipped and read as none; one that announces too much aborts the decoder when it is AUTH_NONE and is too short otherwise |
| Verdicts.SysLength | crates/onc-rpc/src/auth.rs:57-70 | AUTH_SYS reads its five fields whatever its length word says |
| Rpc.EncodeAuthInto | crates/onc-rpc/src/auth.rs:23-45 | The credential encoder with its temporary body buffer writes what the specification says, also when the body fails |
| Rpc.DecodeAuthFrom | crates/onc-rpc/src/auth.rs:47-84 | The credential decoder gives the specified verdict and leaves the specified bytes on every input |
| Rpc.AuthRoundTrip | crates/onc-rpc/src/auth.rs:23-84 | A credential survives the wire with any suffix untouched when its lengths fit, and is refused with LengthExceeded otherwise; a wrapped body length does no harm |
| Rpc.SysWrittenIff | crates/onc-rpc/src/auth.rs:30-43 | The body of AUTH_SYS is encoded exactly when name and group list fit their length words |
| Rpc.AuthMonotoneIff | crates/onc-rpc/src/auth.rs:50-58 | The credential decoder's verdict stands under appended bytes exactly unless the input is an AUTH_NONE announcing more bytes than there are |
| Rpc.AuthAbortsIff | crates/onc-rpc/src/auth.rs:50-58 | The credential decoder aborts exactly on an AUTH_NONE announcing more bytes than there are |
| Rpc.ReplyAbortsIff | crates/onc-rpc/src/message.rs:192-213 | The reply decoder aborts exactly when message type and reply status are right and the verifier is such a credential |
| Transport.CallAbortsIff | crates/onc-rpc/src/tcp.rs:65-84 | A call aborts exactly when it can be encoded and sent and the first record that comes back is such a reply |
| Rpc.EncodeStatusInto | crates/onc-rpc/src/message.rs:114-141 | The accept-status encoder writes what the specification says |
| Rpc.DecodeStatusFrom | crates/onc-rpc/src/message.rs:143-169 | The accept-status decoder gives the specified verdict and leaves the specified bytes on every input |
| Rpc.StatusRoundTrip | crates/onc-rpc/src/message.rs:114-169 | Every accept status survives the wire; only a success takes the bytes that follow |
| Rpc.EncodeReplyInto | crates/onc-rpc/src/message.rs:181-190 | The reply encoder writes what the specification says, also when the verifier fails |
| Rpc.DecodeReplyFrom | crates/onc-rpc/src/message.rs:192-213 | The reply decoder gives the specified verdict and leaves the specified bytes on every input |
| Rpc.ReplyRoundTripIff | crates/onc-rpc/src/message.rs:181-213 | A reply survives the wire exactly when its verifier fits and nothing follows a successful result |
| Rpc.EncodeCallInto | crates/onc-rpc/src/message.rs:42-57 | The call encoder writes what the specification says, also when a credential fails |
| Rpc.DecodeCallFrom | crates/onc-rpc/src/message.rs:59-94 | The call decoder gives the specified verdict and leaves the specified bytes on every input |
| Rpc.CallRoundTrip | crates/onc-rpc/src/message.rs:42-94 | A call survives the wire when its credentials fit, with bytes that follow joining its arguments, and is refused otherwise |
| Rpc.CallIsNoReply | crates/onc-rpc/src/message.rs:192-201 | No encoded call is ever decoded as a reply |
| RecordMarking.RecordReader.Read | crates/onc-rpc/src/record.rs:69-116 | On every input the incremental reader delivers what the one-shot parser finds in all bytes seen, keeps the rest for later calls, stays within the record limit, and terminates |
| RecordMarking.RecordReader.constructor | crates/onc-rpc/src/record.rs:53-61 | A new reader has seen nothing |
| RecordMarking.WriteRecord | crates/onc-rpc/src/record.rs:26-37 | Appends the flagged length word, cut to 31 bits, and the data |
| RecordMarking.ReadEach | crates/onc-rpc/src/record.rs:63-116 | Calling the reader on chunk after chunk delivers what the specification of a run of reads says |
| RecordMarking.ChunkingInvisible | crates/onc-rpc/src/record.rs:63-116 | For every stream and every cut, empty reads included: the reads deliver the stream's records in order, what is not delivered is what the held bytes contain, and an oversized record stops both after the same records |
| RecordMarking.CutsAgree | crates/onc-rpc/src/record.rs:63-116 | Two cuts of one stream deliver the same once drained |
| RecordMarking.EmptyReadsDrain | crates/onc-rpc/src/record.rs:71-110 | Empty reads deliver every buffered record |
| RecordMarking.OutcomeMonotone | crates/onc-rpc/src/record.rs:72-115 | A record or an oversize, once decided, is unchanged by later bytes |
| RecordMarking.RecordIff | crates/onc-rpc/src/record.rs:69-116 | What a record is: a stream begins with it exactly when it begins with fragments of it, each shorter than 2^31 bytes and only the last one flagged, of 10,485,760 bytes together at most |
| RecordMarking.TooLargeIff | crates/onc-rpc/src/record.rs:82-88 | A stream is refused exactly when its open fragments stay within that limit up to a header that goes beyond; the sum is what is reported |
| RecordMarking.FrameForm | crates/onc-rpc/src/record.rs:26-31 | The header of a framed record in figures |
| RecordMarking.FrameReadBack | crates/onc-rpc/src/record.rs:26-37 | What any framed data is read back as, truncation beyond 31 bits included |
| RecordMarking.FrameReadBackIff | crates/onc-rpc/src/record.rs:26-37 | Framed data is read back whole, with what follows untouched, exactly when it is within the record limit |
| RecordMarking.FragmentsReassemble | crates/onc-rpc/src/record.rs:72-115 | However a record within the limit is cut into fragments, empty ones included, it is put together again |
| RecordMarking.FlagIsModulo | crates/onc-rpc/src/record.rs:27-29 | The or-ed length word is the flag plus the length modulo 2^31 |
| CompoundLaws.CompoundRoundTripIff | crates/nfs4-types/src/compound.rs:287-306 | A COMPOUND response survives the wire, any suffix untouched, exactly when it is sendable: all 18 results, unbounded result array and READDIR chain |
| CompoundLaws.CompoundPrefixTooShort | crates/nfs4-types/src/compound.rs:295-306 | Every strict prefix of a response's encoding fails with exactly BufferTooShort |
| CompoundLaws.CompoundMonotone | crates/nfs4-types/src/compound.rs:295-306 | A decoded response, or an error other than BufferTooShort, is unchanged by appended bytes |
| CompoundLaws.CompoundConservation | crates/nfs4-types/src/compound.rs:287-306 | Whenever decoding succeeds, also on odd padding: whole words are consumed, as many bytes as re-encoding writes, and the re-encoding decodes to the same response |
| SendableResults.SendableIff | crates/nfs4-types/src/compound.rs:275-306 | Sendable (result by result: a body exactly when the status is Ok, handles of at most 128 bytes, lengths below 2^32) is exactly what the schema asks |
| SendableResults.ReadableIff | crates/nfs4-types/src/compound.rs:146-263 | The same for one operation result, over all 18 |
| ResultForms.ResultOnWire | crates/nfs4-types/src/compound.rs:146-223 | Each of the 18 results in bytes: opcode, status, and the fields of its body in order if there is one, READDIR entries behind their markers included |
| MessageForms.ResponseOnWire | crates/nfs4-types/src/compound.rs:287-293 | A COMPOUND response in bytes: status, tag, count, results |
| Compound.EncodeResOpInto | crates/nfs4-types/src/compound.rs:146-223 | The encoder's dispatch writes what the schema of the results says |
| Compound.DecodeResOpFrom | crates/nfs4-types/src/compound.rs:225-263 | The decoder's dispatch gives the schema's verdict on every input, unknown opcodes included |
| Compound.DecodeResOpAt | crates/nfs4-types/src/compound.rs:227-262 | Behind each opcode the decoder of that operation runs, and its value becomes that operation's result |
| Compound.DecodeResOpUnknown | crates/nfs4-types/src/compound.rs:257-262 | Any other opcode is an invalid NfsResOp4 with that number |
| Compound.EncodeCompoundInto | crates/nfs4-types/src/compound.rs:287-293 | Status, tag and the loop over the results, written as specified also when one fails |
| Compound.DecodeCompoundFrom | crates/nfs4-types/src/compound.rs:295-306 | Status, tag and the loop over the results, decoded as specified also when one fails |
| Compound.CompoundInjective | crates/nfs4-types/src/compound.rs:281-285 | Different responses have different values |
| ResultValues.ResOpInjective | crates/nfs4-types/src/compound.rs:125-144 | Different operation results have different values |
| CompoundLaws.CompoundAligned | crates/nfs4-types/src/compound.rs:287-293 | Every response is a whole number of words |
| OpenChoices.EncodeFlagInto | crates/nfs4-types/src/ops/data.rs:44-55 | The open-how encoder writes what the nested union's schema says |
| OpenChoices.DecodeFlagFrom | crates/nfs4-types/src/ops/data.rs:57-82 | The open-how decoder gives the specified verdict on every input |
| OpenChoices.EncodeClaimInto | crates/nfs4-types/src/ops/data.rs:94-104 | The claim encoder writes what the union's schema says |
| OpenChoices.DecodeClaimFrom | crates/nfs4-types/src/ops/data.rs:106-121 | The claim decoder gives the specified verdict on every input |
| OpenChoices.FlagRoundTripIff | crates/nfs4-types/src/ops/data.rs:44-82 | Open-how survives the wire, any suffix untouched, exactly when its attributes fit |
| OpenChoices.ClaimRoundTripIff | crates/nfs4-types/src/ops/data.rs:94-121 | The claim survives the wire, any suffix untouched, exactly when its name fits |
| RequestForms.RequestOnWire | crates/nfs4-types/src/compound.rs:40-114 | Each of the 18 requests in bytes: opcode in figures, then every argument in the order of the protocol, OPEN with its unions included |
| RequestForms.SequenceBytes | crates/nfs4-types/src/ops/session.rs:257-265 | SEQUENCE written out: 53, session id, sequence id, slot id, highest slot id, 0 or 1 |
| MessageForms.ArgsOnWire | crates/nfs4-types/src/compound.rs:268-273 | A COMPOUND request in bytes: tag, minor version, count, operations |
| Writable.RequestWrittenIff | crates/nfs4-types/src/compound.rs:40-114 | A request is written exactly when its lengths fit; otherwise encoding it fails with LengthExceeded |
| CompoundArgs.EncodeArgOpInto | crates/nfs4-types/src/compound.rs:40-114 | The dispatch over the 18 operations writes opcode and arguments as the schema of the requests says, failures included |
| CompoundArgs.EncodeArgsInto | crates/nfs4-types/src/compound.rs:268-273 | Tag, minor version and the loop over the operations, written as specified also when one fails |
| CompoundArgs.RequestUnambiguous | crates/nfs4-types/src/compound.rs:40-114 | A request that fits, of any of the 18 operations, is encoded, and its bytes are neither those of another request nor the beginning of one |
| CompoundArgs.ArgsFormed | crates/nfs4-types/src/compound.rs:268-273 | Which requests are well-formed: names, handles, data and lists whose lengths fit a length word (a PUTFH handle is written whatever its length) |
| CompoundArgs.CompoundBuilder.Sequence | crates/nfs4-client/src/compound.rs:26-41 | Appends SEQUENCE, never asking for a cached reply, at the end |
| CompoundArgs.CompoundBuilder.PutRootFh | crates/nfs4-client/src/compound.rs:43-46 | Appends PUTROOTFH at the end |
| CompoundArgs.CompoundBuilder.PutFh | crates/nfs4-client/src/compound.rs:48-51 | Appends PUTFH at the end |
| CompoundArgs.CompoundBuilder.Lookup | crates/nfs4-client/src/compound.rs:53-57 | Appends LOOKUP at the end |
| CompoundArgs.CompoundBuilder.GetFh | crates/nfs4-client/src/compound.rs:59-62 | Appends GETFH at the end |
| CompoundArgs.CompoundBuilder.GetAttr | crates/nfs4-client/src/compound.rs:64-68 | Appends GETATTR at the end |
| CompoundArgs.CompoundBuilder.SetAttr | crates/nfs4-client/src/compound.rs:70-76 | Appends SETATTR at the end |
| CompoundArgs.CompoundBuilder.OpenByName | crates/nfs4-client/src/compound.rs:78-96 | Appends OPEN without creation, by name, denying nothing, at the end |
| CompoundArgs.CompoundBuilder.Close | crates/nfs4-client/src/compound.rs:98-104 | Appends CLOSE at the end |
| CompoundArgs.CompoundBuilder.Read | crates/nfs4-client/src/compound.rs:106-113 | Appends READ at the end |
| CompoundArgs.CompoundBuilder.Write | crates/nfs4-client/src/compound.rs:115-129 | Appends WRITE at the end |
| CompoundArgs.CompoundBuilder.ReadDir | crates/nfs4-client/src/compound.rs:131-147 | Appends READDIR at the end |
| CompoundArgs.CompoundBuilder.Remove | crates/nfs4-client/src/compound.rs:149-153 | Appends REMOVE at the end |
| CompoundArgs.CompoundBuilder.Rename | crates/nfs4-client/src/compound.rs:155-161 | Appends RENAME at the end |
| CompoundArgs.CompoundBuilder.ExchangeId | crates/nfs4-client/src/compound.rs:163-171 | Appends EXCHANGE_ID without implementation ids at the end |
| CompoundArgs.CompoundBuilder.CreateSession | crates/nfs4-client/src/compound.rs:173-192 | Appends CREATE_SESSION with callback program 0 and one AUTH_NONE callback at the end |
| CompoundArgs.CompoundBuilder.DestroySession | crates/nfs4-client/src/compound.rs:194-200 | Appends DESTROY_SESSION at the end |
| CompoundArgs.CompoundBuilder.ReclaimComplete | crates/nfs4-client/src/compound.rs:202-208 | Appends RECLAIM_COMPLETE at the end |
| CompoundArgs.CompoundBuilder.Build | crates/nfs4-client/src/compound.rs:210-216 | The request holds tag, minor version 1 and the operations in append order |
| XdrLaws.RoundTrip | crates/xdr-codec/src/variable.rs:37-140 | For all types and values: a well-formed value encodes, and decoding the encoding with any suffix returns the value and exactly the suffix |
| XdrLaws.RoundTripIff | crates/xdr-codec/src/variable.rs:37-140 | A value survives the wire exactly when it is well-formed |
| XdrLaws.Monotone | crates/xdr-codec/src/variable.rs:49-140 | For all types: a value, or an error other than BufferTooShort, is unchanged when bytes are appended |
| XdrLaws.PrefixTooShort | crates/xdr-codec/src/variable.rs:49-140 | Every strict prefix of a valid encoding fails with exactly BufferTooShort |
| XdrLaws.PrefixFree | crates/xdr-codec/src/variable.rs:37-140 | No encoding is the beginning of another |
| XdrLaws.Sound | crates/xdr-codec/src/variable.rs:49-140 | What a decoder accepts is a well-formed value of its type, and as many bytes are gone as re-encoding writes |
| XdrLaws.Conservation | crates/xdr-codec/src/variable.rs:7-64 | A successful decode consumes whole words, as many bytes as the re-encoding has, and the re-encoding decodes to the value |
| XdrLaws.NeverPanics | crates/xdr-codec/src/variable.rs:49-140 | No decoder built from primitives, strings, lists, options, structs, enums and the hand-written shapes aborts, on any bytes |
| Writable.WrittenIff | crates/xdr-codec/src/variable.rs:37-129 | For all types and values: the encoder succeeds exactly when every string, handle and list in the value is shorter than 2^32, and reports LengthExceeded otherwise |
| WireForms.OpaqueForm | crates/xdr-codec/src/variable.rs:37-47 | Opaque data in bytes: length, data, zeros up to a multiple of four |
| WireForms.TwosShows | crates/xdr-codec/src/primitives.rs:63-80 | A signed 64-bit number in bytes: two's complement, most significant byte first |
| Verdicts.StringVerdicts | crates/xdr-codec/src/variable.rs:49-90 | Opaque data, strings and handles are read with any padding; invalid UTF-8 and overlong handles are refused |
| Verdicts.OpaqueRead | crates/xdr-codec/src/variable.rs:49-64 | What the length word asks for, padding included, must be there |
| Verdicts.WordVerdicts | crates/xdr-codec/src/primitives.rs:89-98 | Booleans and options take 0 and 1, and codes and enums what they list; any other word is reported |
| Verdicts.StatusRead | crates/nfs4-types/src/status.rs:8-140 | Every status code of the enum is read, by ranges |
| Verdicts.ChoiceVerdicts | crates/nfs4-types/src/ops/data.rs:57-149 | The one-choice unions and OPEN's unions take their discriminants and report any other under their own names |
| Verdicts.SignedRead | crates/xdr-codec/src/primitives.rs:25-42 | The upper half of the words are negative numbers |
| Utf8Scalars.ValidUtf8Iff | crates/xdr-codec/src/variable.rs:76-90 | A byte string is a valid string exactly when it is the UTF-8 encoding of a sequence of Unicode scalar values |
| Wire.BigEndianBytes | crates/xdr-codec/src/primitives.rs:6-61 | The bytes of a word and of a double word, each as a quotient, most significant first |
| Wire.WordBytes | crates/xdr-codec/src/primitives.rs:13-23 | A word is its four bytes weighed by powers of 256, and they are its encoding |
| XdrLaws.OpaqueLaw | crates/xdr-codec/src/variable.rs:37-64 | Opaque data of a length that fits survives with its padding |
| XdrLaws.U32Law | crates/xdr-codec/src/primitives.rs:6-23 | A u32 survives the wire |
| XdrLaws.U64Law | crates/xdr-codec/src/primitives.rs:44-61 | A u64 survives the wire |
| XdrLaws.LeafRoundTrip | crates/xdr-codec/src/primitives.rs:6-98 | Every primitive, signed ones in two's complement included, survives the wire |
| Wire.WordOfBigEndian | crates/xdr-codec/src/primitives.rs:6-80 | The n big-endian bytes of a number that fits are read back as that number |
| Wire.Word32OfBigEndian | crates/xdr-codec/src/primitives.rs:6-23 | Four big-endian bytes are read back as the word |
| Wire.Word64OfBigEndian | crates/xdr-codec/src/primitives.rs:44-61 | Eight big-endian bytes are read back as the word |
| Xdr.Padding | crates/xdr-codec/src/variable.rs:7-9 | The padding makes the length a multiple of four |
| XdrCodec.EncodeOpaqueInto | crates/xdr-codec/src/variable.rs:37-47 | Length, data and zero padding, or LengthExceeded with nothing written |
| XdrCodec.DecodeOpaqueFrom | crates/xdr-codec/src/variable.rs:49-64 | Length word, bounds check over data and padding, data, padding skipped |
| XdrCodec.EncodeLeafInto | crates/xdr-codec/src/primitives.rs:6-87 | The primitive and fixed-size encoders write what the specification says |
| XdrCodec.DecodeLeafFrom | crates/nfs4-types/src/base.rs:14-22 | The primitive, fixed-size and bounded-handle decoders give the specified verdict |
| XdrCodec.DecodeBoolFrom | crates/xdr-codec/src/primitives.rs:89-98 | Only 0 and 1 are booleans |
| XdrCodec.EncodeInto | crates/xdr-codec/src/variable.rs:92-129 | Vec, Option, structs, enums and the hand-written shapes write what the specification says, failures included |
| XdrCodec.DecodeFrom | crates/xdr-codec/src/variable.rs:104-140 | The decoders of all types give the specified verdict and leave the specified bytes |
| XdrCodec.EncodeItemsInto | crates/xdr-codec/src/variable.rs:92-102 | The element loop writes the items in order and stops at the first failure |
| XdrCodec.DecodeItemsFrom | crates/xdr-codec/src/variable.rs:104-114 | The element loop reads the counted items in order and stops at the first failure |
| XdrCodec.EncodeChainInto | crates/nfs4-types/src/ops/data.rs:392-406 | The READDIR loop writes true and the entry for each, then false |
| XdrCodec.DecodeChainFrom | crates/nfs4-types/src/ops/data.rs:408-428 | The READDIR loop reads entries while the flag is true; it terminates on every input |
| XdrCodec.EncodeGuardedInto | crates/nfs4-types/src/ops/data.rs:185-193 | A status-guarded result writes the status and the body if there is one |
| XdrDerive.DerivedForm | crates/xdr-derive/src/lib.rs:60-209 | The generated encoder writes a struct as its fields in the order of their declaration, and a variant as its discriminant and then its fields |
| XdrDerive.DiscriminantRule | crates/xdr-derive/src/lib.rs:122-152 | A variant's discriminant is the first xdr(discriminant = n) attribute, if it fits a u32, and without one that of the declaration |
| XdrDerive.UnknownVariant | crates/xdr-derive/src/lib.rs:240-254 | A discriminant no variant has is refused under the name of the enum |
| XdrDerive.DerivedRoundTripIff | crates/xdr-derive/src/lib.rs:60-254 | For every item and value: the generated decoder applied to the generated encoding with any suffix returns value and suffix exactly when the fields are well-formed and no earlier variant has the same discriminant |
| XdrDerive.EncoderIsSchema | crates/xdr-derive/src/lib.rs:60-209 | The generated encoder writes what the item's schema writes |
| XdrDerive.DecoderIsSchema | crates/xdr-derive/src/lib.rs:84-254 | On any bytes the generated decoder gives the schema's verdict and leaves the same bytes |
| XdrDerive.MacroAcceptsIff | crates/xdr-derive/src/lib.rs:122-152 | The macro refuses an enum exactly when a variant has no discriminant, and always unions |
| XdrDerive.VariantsAccepted | crates/xdr-derive/src/lib.rs:211-254 | Arms follow the variants: pattern, name and fields of each, in order |
| XdrDerive.UnitEnumIsCodes | crates/xdr-derive/src/lib.rs:211-254 | An enum without payloads decodes as its set of codes |
| XdrDerive.LowerInstanceInjective | crates/xdr-derive/src/lib.rs:84-120 | Values of an item with different fields are different schema values |
| SessionSlots.AllocFirstFit | crates/nfs4-client/src/session.rs:57-70 | For every valid table: the lowest free slot, its own sequence id, the last slot as the highest, and the table otherwise unchanged; none exactly when all are in use |
| SessionSlots.SlotTable.TryAllocSlot | crates/nfs4-client/src/session.rs:57-70 | First fit: the lowest free slot with its sequence id and the last slot's id as the highest, or none |
| SessionSlots.SlotTable.ReleaseSlot | crates/nfs4-client/src/session.rs:72-79 | Frees the slot and moves its sequence id on, wrapping; an unknown slot changes nothing |
| SessionSlots.ReleaseForm | crates/nfs4-client/src/session.rs:72-79 | For every valid table and slot number: that slot is free and its sequence id one further, 2^32 - 1 becoming 0; all else stays |
| SessionSlots.FreshForm | crates/nfs4-client/src/session.rs:23-40 | A new table has as many slots as granted, all free, all sequence ids 1 |
| SessionSlots.SlotTable.constructor | crates/nfs4-client/src/session.rs:23-40 | All slots free, sequence ids 1 |
| SlotProtocol.SlotSafety | crates/nfs4-client/src/session.rs:57-79 | In every reachable state over all interleavings: held slots are distinct, in range and marked; an allocation is lowest-free-first, carries the number of this use of the slot, names the last slot as the highest, and fails exactly when all are in use |
| SlotProtocol.FreeSlotAccounting | crates/nfs4-client/src/session.rs:72-79 | On every free slot the client's next id is the server's last accepted id plus 1 plus the number of released requests the server did not accept, modulo 2^32 |
| SlotProtocol.ArrivalVerdict | crates/nfs4-client/src/session.rs:57-79 | Any request that reaches the server, in time or long after its slot was released, is new exactly when as many of its slot were accepted as were granted before it, and a false replay exactly when one more was, modulo 2^32 |
| SlotProtocol.AllAcceptedIff | crates/nfs4-client/src/session.rs:57-79 | Over every run: the server takes every request that reaches it as new if and only if each arrives when as many of its slot were accepted as were granted before it, modulo 2^32 |
| SlotProtocol.HeldIsAheadByLost | crates/nfs4-client/src/session.rs:57-79 | While a request is held, the number that decides its verdict is that of the requests of its slot released without being accepted, modulo 2^32 |
| SlotProtocol.ReliableRunsAllNew | crates/nfs4-client/src/session.rs:57-79 | In particular, when every request arrives before its slot is released, each is new |
| SlotProtocol.RunsKeepInv | crates/nfs4-client/src/session.rs:57-79 | The invariant behind these holds in every state of every run |
| PathResolution.SlotGivenBack | crates/nfs4-client/src/session.rs:57-79 | Allocating and releasing changes nothing but one sequence id |
| AttributeBitmap.Bitmap.Set | crates/nfs4-types/src/bitmap.rs:15-22 | The loop grows the words as needed and sets the bit |
| AttributeBitmap.Bitmap.Test | crates/nfs4-types/src/bitmap.rs:25-29 | is_set reads the bit, and false beyond the words |
| AttributeBitmap.OneBit | crates/nfs4-types/src/bitmap.rs:15-22 | A single attribute goes out as its power of two, in figures, in word n/32 behind words of zero |
| AttributeBitmap.OrAdds | crates/nfs4-types/src/bitmap.rs:15-22 | Setting a bit adds its power of two to the word, unless it is set already |
| AttributeBitmap.WithBitAdds | crates/nfs4-types/src/bitmap.rs:15-29 | Setting a bit adds exactly that bit to the set |
| AttributeBitmap.SetAllIsTheSet | crates/nfs4-types/src/bitmap.rs:15-29 | After any settings exactly those bits are set, and there are as many words as the highest needs |
| AttributeBitmap.BitmapSurvivesTheWire | crates/nfs4-types/src/bitmap.rs:6-7 | The peer reads exactly the bits that were set |
| NfsPath.SeparatorsAre | crates/nfs-mount/src/path.rs:1-6 | Backslash (0x5C) and slash (0x2F) separate and nothing else does: components of joined paths, of paths without either, and what no component contains |
| NfsPath.PathForm | crates/nfs-mount/src/path.rs:8-14 | The path made of components: a slash (0x2F) in front of each, and a slash alone for none |
| NfsPath.ParentNameOf | crates/nfs-mount/src/path.rs:16-23 | The parent is every component but the last, the name the last |
| NfsPath.PathReadBackIff | crates/nfs-mount/src/path.rs:1-14 | A list of names is read back from its path exactly when every name is non-empty and free of separators |
| NfsPath.NormaliseIsCanonical | crates/nfs-mount/src/path.rs:1-14 | Normalising keeps the components, is idempotent, and decides whether two paths mean the same |
| NfsPath.ComponentsAppend | crates/nfs-mount/src/path.rs:1-6 | Paths joined by either separator have the components of both in order |
| NfsPath.ComponentsClean | crates/nfs-mount/src/path.rs:1-6 | Components are non-empty, free of separators, and valid strings |
| NfsPath.ParentNameRejoined | crates/nfs-mount/src/path.rs:16-23 | Parent and name rejoined give the same components; only a path without components has neither |
| WriteCoalescing.WriteBuf.Write | crates/nfs-mount/src/write_buf.rs:24-42 | A write flushes what cannot be joined and gathers the rest |
| WriteCoalescing.WriteBuf.Flush | crates/nfs-mount/src/write_buf.rs:44-50 | Hands out what is gathered and empties the buffer |
| WriteCoalescing.WriteBuf.TakeFlush | crates/nfs-mount/src/write_buf.rs:52-60 | Hands out what is gathered and resets the fields |
| WriteCoalescing.WriteEach | crates/nfs-mount/src/write_buf.rs:24-60 | Driving the buffer through any run of writes and flushes hands out what the specification of a run says |
| WriteCoalescing.BufferedEqualsDirect | crates/nfs-mount/src/write_buf.rs:24-60 | For any run of writes and flushes, overlapping, sparse or empty: applying what the buffer hands out gives the zero-filled file of direct writes |
| WriteCoalescing.FewestFlushes | crates/nfs-mount/src/write_buf.rs:24-42 | No order-preserving grouping of the same writes into contiguous runs within the limit, or single writes, has fewer groups |
| WriteCoalescing.OutputsAreGreedy | crates/nfs-mount/src/write_buf.rs:24-42 | The buffer hands out the greedy groups, each merged |
| ReadAhead.ReadAheadBuf.TryRead | crates/nfs-mount/src/read_buf.rs:20-36 | A read hits exactly when the buffer covers the range, and counts sequential reads either way |
| ReadAhead.ReadAheadBuf.Fill | crates/nfs-mount/src/read_buf.rs:38-41 | Replaces the buffered range |
| ReadAhead.ReadAheadBuf.FetchPlan | crates/nfs-mount/src/read_buf.rs:43-49 | The plan of the current mode, for every length, the wrapped product included |
| ReadAhead.ReadAheadBuf.Invalidate | crates/nfs-mount/src/read_buf.rs:51-54 | Empties the buffer |
| ReadAhead.HitsAreCurrentIff | crates/nfs-mount/src/read_buf.rs:20-54 | For every schedule of reads, refills, invalidations and changes: all hits are the file's current bytes, whatever the file holds, if and only if no read of at least one byte hits between a change and the next refill or invalidate |
| ReadAhead.ReadsAgree | crates/nfs-mount/src/read_buf.rs:20-54 | Over every such schedule every hit is exactly the file's current bytes |
| ReadAhead.PlanExact | crates/nfs-mount/src/read_buf.rs:43-49 | The plan in numbers: what was asked for with a streak below 2, and from 2 on the smaller of the limit and four times as much |
| ReadAhead.SequentialIff | crates/nfs-mount/src/read_buf.rs:20-26 | Over runs: that mode is on exactly when each of the last two reads started where the last hit before it ended, whatever came between and since |
| ReadAhead.NotYet | crates/nfs-mount/src/read_buf.rs:20-26 | After a single read from a buffer without a streak it is off |
| ReadAhead.HitForm | crates/nfs-mount/src/read_buf.rs:28-36 | A read within the buffered range gets exactly the bytes at its place; any other gets nothing |
| ReadAhead.RetryHitsIff | crates/nfs-mount/src/read_buf.rs:20-49 | After a miss, filling the planned range makes the retry hit, except exactly in sequential mode for a request above the limit or one whose fourfold wraps below it |
| ReadAhead.ProductWraps | crates/nfs-mount/src/read_buf.rs:43-49 | The fourfold does not wrap below 2^62 bytes and falls below the length from there to a third of 2^64; at 2^62 the plan is to fetch nothing |
| ReadAhead.Cache.Plan | crates/nfs-mount/src/read_buf.rs:43-49 | A plan never exceeds the larger of request and limit |

## Left out

- Decoders of the operation arguments: the client only sends them (OPEN's unions are modelled both ways).
- The decoders of StateProtect4a and CallbackSecParms4: single-choice unions that the client only sends.
- OpenDelegation4 and StateProtect4r have one choice each; the typed results leave the constant out, the schemas keep it.
- Transport.Socket.WriteAll: the bytes a failing write has already passed on are not counted as written, and every later write on that connection fails too.
- Cancellation of a call between allocation and release.
- Locks and scheduling: tasks are atomic steps at the boundaries of the slot table's mutex; the keepalive loop is one more such task.
- TLS, timers, configuration, attribute and directory caches, the handle table, credentials of the cloud provider, the file-system driver, the command line.
- Error texts: the payload of a UTF-8 error and the printed form of unexpected results.
- Allocation behaviour (Vec::with_capacity on an announced length).
- Lease time in the session manager: stored and returned, never used.
- WriteBuf.is_dirty, buffered_len and ReadAheadBuf.is_sequential: field accessors.
- Server: a modelled peer, not part of the repository; its SEQUENCE answers a replay with RETRY_UNCACHED_REP because the client never asks for cached replies, and it refuses the ten operations that neither sessions nor path resolution use with NOTSUPP.
