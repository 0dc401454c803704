/** One RPC call over a TCP connection: the call is framed and written, then the
    socket is read chunk by chunk until a record is complete. The socket is the
    bytes written so far, the chunks its reads will return, in order, and the number
    of requests it still takes: beyond that a write fails. An empty chunk, or no chunk
    left, is the peer's close or a read that fails; the source reports all of these as
    one error. It reads at most 8192 bytes at a time; nothing here depends on the
    sizes. */
module Transport {
  import opened Wire
  import opened Xdr
  import opened Rpc
  import opened RecordMarking
  import opened Options
  import Laws = XdrLaws

  datatype RpcError =
    | BadXdr(error: XdrError)
    | XidMismatch(expected: u32, actual: u32)
    | Closed // by the peer, or a read or write that fails
    | Oversized(size: nat, max: nat)

  datatype Answer<+T> = Reply(value: T) | Error(error: RpcError)

  // ------------------------------------------------------- what a call returns

  /** Every byte the reads return before the connection closes. */
  function Incoming(chunks: seq<seq<byte>>): seq<byte> {
    if chunks == [] || chunks[0] == [] then [] else chunks[0] + Incoming(chunks[1..])
  }

  /** The chunks that are left once the record that `seen` begins is decided. What
      the last chunk holds behind that record is left nowhere: the reader that
      holds it ends with the call. */
  function Unread(seen: seq<byte>, chunks: seq<seq<byte>>): seq<seq<byte>>
    decreases |chunks|
  {
    if chunks == [] then []
    else if chunks[0] == [] then chunks[1..]
    else if NextRecord([], seen + chunks[0]).More? then Unread(seen + chunks[0], chunks[1..])
    else chunks[1..]
  }

  /** The answer that a stream of bytes amounts to, however it arrives. */
  function AnswerIn(xid: u32, stream: seq<byte>): Answer<RpcReply> {
    match NextRecord([], stream)
    case More => Error(Closed)
    case TooLarge(size) => Error(Oversized(size, MAX_RECORD_SIZE))
    case Record(payload, _) =>
      match DecodeReply(payload)
      case Failed(e, _) => Error(BadXdr(e))
      case Got(reply, _) => if reply.xid == xid then Reply(reply) else Error(XidMismatch(xid, reply.xid))
  }

  /** A connection as a value: the next xid, the bytes written, the chunks still to
      be read, and how many requests can still be written. */
  datatype Line = Line(nextXid: u32, written: seq<byte>, chunks: seq<seq<byte>>, sends: nat)

  /** The connection after a call whose message is `bytes`. */
  function Sent(line: Line, bytes: seq<byte>): Line {
    var nextXid := (line.nextXid + 1) % U32_MODULUS;
    if line.sends == 0 then line.(nextXid := nextXid)
    else Line(nextXid, line.written + Frame(bytes), Unread([], line.chunks), line.sends - 1)
  }

  function AnswerOn(line: Line, xid: u32): Answer<RpcReply> {
    if line.sends == 0 then Error(Closed) else AnswerIn(xid, Incoming(line.chunks))
  }

  /** One call: one framed record written and the answer that the incoming bytes
      amount to. A call that cannot be encoded or written uses up its xid and nothing
      else. */
  function CallStep(line: Line, call: RpcCall): (Line, Answer<RpcReply>) {
    match EncodeCall(call)
    case Stuck(e, _) => (line.(nextXid := (line.nextXid + 1) % U32_MODULUS), Error(BadXdr(e)))
    case Wrote(bytes) => (Sent(line, bytes), AnswerOn(line, call.xid))
  }

  class Socket {
    var written: seq<byte>
    var chunks: seq<seq<byte>>
    var sends: nat

    constructor (arriving: seq<seq<byte>>, takes: nat)
      ensures written == [] && chunks == arriving && sends == takes
    {
      written, chunks, sends := [], arriving, takes;
    }

    /** write_all and flush. What a failing write has already passed on is not
        counted as written. */
    method WriteAll(s: seq<byte>) returns (ok: bool)
      modifies this`written, this`sends
      ensures ok <==> old(sends) > 0
      ensures ok ==> written == old(written) + s && sends == old(sends) - 1
      ensures !ok ==> written == old(written) && sends == old(sends)
    {
      ok := sends > 0;
      if ok {
        written, sends := written + s, sends - 1;
      }
    }

    method Read() returns (chunk: seq<byte>)
      modifies this`chunks
      ensures old(chunks) == [] ==> chunk == [] && chunks == []
      ensures old(chunks) != [] ==> chunk == old(chunks)[0] && chunks == old(chunks)[1..]
    {
      if chunks == [] {
        return [];
      }
      chunk := chunks[0];
      chunks := chunks[1..];
    }
  }

  class TcpTransport {
    const stream: Socket
    var nextXid: u32

    constructor (s: Socket)
      ensures stream == s && nextXid == 1
    {
      stream, nextXid := s, 1;
    }

    /** fetch_add: the counter wraps. */
    method NextXid() returns (xid: u32)
      modifies this
      ensures xid == old(nextXid) && nextXid == (xid + 1) % U32_MODULUS
    {
      xid := nextXid;
      nextXid := (xid + 1) % U32_MODULUS;
    }

    ghost function View(): Line
      reads this, stream
    {
      Line(nextXid, stream.written, stream.chunks, stream.sends)
    }

    method Call(program: u32, version: u32, procedure: u32, args: seq<byte>, cred: AuthFlavor, verf: AuthFlavor)
      returns (r: Answer<RpcReply>)
      modifies this, stream
      ensures (View(), r)
              == CallStep(old(View()), RpcCall(old(nextXid), program, version, procedure, cred, verf, args))
    {
      hide EncodeCall, DecodeReply, NextRecord, Incoming, Unread, Frame;
      var xid := NextXid();
      var msg := new BytesMut();
      var encoded := EncodeCallInto(RpcCall(xid, program, version, procedure, cred, verf, args), msg);
      if encoded.Err? {
        return Error(BadXdr(encoded.error));
      }
      var wire := new BytesMut();
      WriteRecord(msg.data, wire);
      assert [] + Frame(msg.data) == Frame(msg.data);
      assert msg.data == EncodeCall(RpcCall(xid, program, version, procedure, cred, verf, args)).bytes;
      var sent := stream.WriteAll(wire.data);
      if !sent {
        return Error(Closed);
      }
      var record := ReadRecord();
      if record.Error? {
        return Error(record.error);
      }
      var bytes := new Bytes(record.value);
      var reply := DecodeReplyFrom(bytes);
      if reply.Err? {
        return Error(BadXdr(reply.error));
      }
      if reply.value.xid != xid {
        return Error(XidMismatch(xid, reply.value.xid));
      }
      return Reply(reply.value);
    }

    /** The read loop of call. */
    method ReadRecord() returns (r: Answer<seq<byte>>)
      modifies stream`chunks
      ensures match NextRecord([], Incoming(old(stream.chunks)))
        case More => r == Error(Closed)
        case TooLarge(size) => r == Error(Oversized(size, MAX_RECORD_SIZE))
        case Record(payload, _) => r == Reply(payload)
      ensures stream.chunks == Unread([], old(stream.chunks))
    {
      hide NextRecord;
      var reader := new RecordReader();
      ghost var all := Incoming(stream.chunks);
      assert [] + all == all;
      NothingYet();
      while true
        invariant fresh(reader) && reader.Valid() && NextRecord([], reader.Seen()).More?
        invariant reader.Seen() + Incoming(stream.chunks) == all
        invariant Unread(reader.Seen(), stream.chunks) == Unread([], old(stream.chunks))
        decreases |stream.chunks|
      {
        ghost var seen, later := reader.Seen(), stream.chunks;
        var chunk := stream.Read();
        if |chunk| == 0 {
          assert seen + [] == seen;
          return Error(Closed);
        }
        assert all == seen + chunk + Incoming(later[1..]);
        OutcomeMonotone([], seen + chunk, Incoming(later[1..]));
        var result := reader.Read(chunk);
        match result {
          case Complete(payload) => return Reply(payload);
          case RecordTooLarge(size, max) => return Error(Oversized(size, max));
          case Incomplete =>
        }
      }
    }
  }

  lemma {:induction false} NothingYet()
    ensures NextRecord([], []).More?
  {
  }

  // ------------------------------------------------------------- main results

  /** The bytes that come in: chunk after chunk up to the first empty one, or the end. */
  lemma {:induction false} IncomingForm(chunks: seq<seq<byte>>, later: seq<seq<byte>>)
    requires forall i | 0 <= i < |chunks| :: chunks[i] != []
    ensures Incoming(chunks) == Concat(chunks)
    ensures Incoming(chunks + [[]] + later) == Concat(chunks)
  {
    if chunks == [] {
      assert (chunks + [[]] + later)[0] == [];
    } else {
      assert (chunks + [[]] + later)[0] == chunks[0] && (chunks + [[]] + later)[1..] == chunks[1..] + [[]] + later;
      IncomingForm(chunks[1..], later);
    }
  }

  /** A decoded reply stands when bytes are appended to its record, except that a
      successful result swallows them. */
  lemma {:induction false} ReplyExtends(b: seq<byte>, s: seq<byte>)
    requires DecodeReply(b).Got?
    ensures var Got(r, rest) := DecodeReply(b);
      DecodeReply(b + s) == if r.status.Success? then Got(r.(status := Success(r.status.body + s)), []) else Got(r,
          rest + s)
  {
    hide DecodeAuth, DecodeStatus, DecodeU32;
    Laws.U32Monotone(b, s);
    var r1 := DecodeU32(b).rest;
    Laws.U32Monotone(r1, s);
    var r2 := DecodeU32(r1).rest;
    Laws.U32Monotone(r2, s);
    var r3 := DecodeU32(r2).rest;
    NoAbort(r3);
    AuthMonotone(r3, s);
    StatusExtends(DecodeAuth(r3).rest, s);
  }

  lemma {:induction false} NoAbort(b: seq<byte>)
    requires DecodeAuth(b).Got?
    ensures !Aborts(b)
  {
    hide Decode, HasType, SysOf;
  }

  lemma {:induction false} StatusExtends(b: seq<byte>, s: seq<byte>)
    requires DecodeStatus(b).Got?
    ensures var Got(r, rest) := DecodeStatus(b);
      DecodeStatus(b + s) == if r.Success? then Got(Success(r.body + s), []) else Got(r, rest + s)
  {
    hide DecodeU32;
    Laws.U32Monotone(b, s);
    var r1 := DecodeU32(b).rest;
    Laws.U32Monotone(r1, s);
    if DecodeU32(r1).Got? {
      Laws.U32Monotone(DecodeU32(r1).rest, s);
    }
  }

  /** A call aborts exactly when it can be encoded and sent and the first record that comes back is
      one that the reply decoder aborts on. */
  lemma {:induction false} CallAbortsIff(line: Line, call: RpcCall)
    ensures CallStep(line, call).1 == Error(BadXdr(Panic)) <==>
            Short(call.cred) && Short(call.verf) && line.sends > 0
            && var first := NextRecord([], Incoming(line.chunks));
            first.Record? && ReplyAborts(first.payload)
  {
    hide EncodeCall, DecodeCall, DecodeReply, ReplyAborts, NextRecord, Incoming, Unread, Frame, Short;
    CallRoundTrip(call, []);
    var first := NextRecord([], Incoming(line.chunks));
    if first.Record? {
      ReplyAbortsIff(first.payload);
    }
  }

  /** The first record that comes in, decoded, if the call was sent at all. */
  function FirstReply(line: Line): Option<RpcReply> {
    var first := NextRecord([], Incoming(line.chunks));
    if line.sends > 0 && first.Record? && DecodeReply(first.payload).Got? then Some(DecodeReply(first.payload).value)
    else None
  }

  /** What a call returns is the first reply to come in, and only if it is the reply to
      this call; a reply to another call, such as one given up, is refused by its xid. */
  lemma {:induction false} OwnReplyIff(line: Line, call: RpcCall, r: RpcReply)
    requires Short(call.cred) && Short(call.verf)
    ensures CallStep(line, call).1 == Reply(r) <==> FirstReply(line) == Some(r) && r.xid == call.xid
    ensures FirstReply(line) == Some(r) && r.xid != call.xid ==>
              CallStep(line, call).1 == Error(XidMismatch(call.xid, r.xid))
  {
    hide EncodeCall, DecodeCall, DecodeReply, NextRecord, Incoming, Unread, Frame, Short;
    CallRoundTrip(call, []);
  }

  /** Encodable or not, no call returns a reply with another xid. */
  lemma {:induction false} NeverAnothersReply(line: Line, call: RpcCall)
    ensures CallStep(line, call).1.Reply? ==> CallStep(line, call).1.value.xid == call.xid
  {
    hide EncodeCall, DecodeReply, NextRecord, Incoming, Unread, Frame;
  }

  /** A server's reply reaches the caller, however it is cut and whatever follows
      it, exactly when it fits a record; a longer one is never taken for it. */
  lemma {:induction false} ReplyArrivesIff(reply: RpcReply, later: seq<byte>)
    requires EncodeReply(reply).Wrote? && Short(reply.verf)
    ensures AnswerIn(reply.xid, Frame(EncodeReply(reply).bytes) + later) == Reply(reply)
            <==> |EncodeReply(reply).bytes| <= MAX_RECORD_SIZE
  {
    hide EncodeReply, DecodeReply, NextRecord, Frame;
    var data := EncodeReply(reply).bytes;
    FrameReadBack(data, later);
    ReplyRoundTripIff(reply, []);
    assert data + [] == data;
    if |data| <= MAX_RECORD_SIZE {
      assert data[..|data|] == data;
    } else {
      var cut := |data| % LAST_FRAGMENT;
      if cut <= MAX_RECORD_SIZE && DecodeReply(data[..cut]).Got? {
        TruncatedReplyDiffers(reply, data, cut);
      }
    }
  }

  lemma {:induction false} TruncatedReplyDiffers(reply: RpcReply, data: seq<byte>, cut: nat)
    requires cut < |data| && DecodeReply(data) == Got(reply, [])
    requires DecodeReply(data[..cut]).Got?
    ensures DecodeReply(data[..cut]).value != reply
    ensures var got := DecodeReply(data[..cut]).value;
      got.status.Success? && reply == got.(status := Success(got.status.body + data[cut..]))
  {
    hide DecodeReply;
    assert data[..cut] + data[cut..] == data;
    ReplyExtends(data[..cut], data[cut..]);
    var got := DecodeReply(data[..cut]).value;
    if got.status.Success? {
      assert |got.status.body + data[cut..]| > |got.status.body|;
    }
  }
}
