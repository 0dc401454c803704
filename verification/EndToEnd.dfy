/** A COMPOUND from end to end: encoded, wrapped in a reply, framed, cut into
    chunks, read by the call loop and decoded twice. */
module EndToEnd {
  import opened Wire
  import opened Xdr
  import opened Rpc
  import opened RecordMarking
  import opened Transport
  import opened Nfs4Types
  import opened Compound
  import opened SendableResults
  import opened CompoundLaws
  import opened CompoundArgs
  import opened NfsClient
  import opened Writable

  /** The reply that carries a response. */
  function ReplyWith(xid: u32, verf: AuthFlavor, res: Compound4res): RpcReply {
    RpcReply(xid, verf, AcceptStatus.Success(EncodeCompound(res).bytes))
  }

  function ReplyBytes(xid: u32, verf: AuthFlavor, res: Compound4res): seq<byte> {
    EncodeReply(ReplyWith(xid, verf, res)).bytes
  }

  lemma {:induction false} Encodable(xid: u32, verf: AuthFlavor, res: Compound4res)
    requires Sendable(res) && Short(verf)
    ensures EncodeCompound(res).Wrote? && DecodeCompound(EncodeCompound(res).bytes) == Got(res, [])
    ensures EncodeReply(ReplyWith(xid, verf, res)).Wrote?
    ensures DecodeReply(ReplyBytes(xid, verf, res)) == Got(ReplyWith(xid, verf, res), [])
  {
    hide Sendable, EncodeCompound, DecodeCompound, EncodeReply, DecodeReply, Short;
    CompoundRoundTripIff(res, []);
    assert EncodeCompound(res).bytes + [] == EncodeCompound(res).bytes;
    ReplyRoundTripIff(ReplyWith(xid, verf, res), []);
    assert ReplyBytes(xid, verf, res) + [] == ReplyBytes(xid, verf, res);
  }

  /** Whatever the request and however the peer's bytes are cut into chunks, the
      caller gets the response the server sent exactly when the request can be written
      and the reply fits a record. A longer one is refused or misses its end; it is
      never taken for another response. */
  lemma {:induction false} ResponseArrivesIff(line: Line, auth: AuthFlavor, args: Compound4args, verf: AuthFlavor,
      res: Compound4res, later: seq<byte>)
    requires ArgsFit(args) && Short(auth) && Sendable(res) && Short(verf)
    requires Incoming(line.chunks) == Frame(ReplyBytes(line.nextXid, verf, res)) + later
    ensures var arrives := line.sends > 0 && |ReplyBytes(line.nextXid, verf, res)| <= MAX_RECORD_SIZE;
      && (CompoundStep(line, auth, args).1 == Done(res) <==> arrives)
      && (CompoundStep(line, auth, args).1.Fault? <==> !arrives)
  {
    hide ArgsFit, Short, Sendable, Incoming, Frame, EncodeCompound, DecodeCompound, EncodeReply, DecodeReply,
      NextRecord, EncodeArgs, EncodeCall, Unread;
    var reply, bytes := ReplyWith(line.nextXid, verf, res), ReplyBytes(line.nextXid, verf, res);
    Encodable(line.nextXid, verf, res);
    RequestSent(line, auth, args);
    ReplyArrivesIff(reply, later);
    if |bytes| > MAX_RECORD_SIZE {
      FrameReadBack(bytes, later);
      var cut := |bytes| % LAST_FRAGMENT;
      if cut <= MAX_RECORD_SIZE && DecodeReply(bytes[..cut]).Got? {
        TruncatedReplyDiffers(reply, bytes, cut);
        BodyCutShort(DecodeReply(bytes[..cut]).value.status.body, bytes[cut..], res);
      }
    }
  }

  /** What is not sent: a request that does not fit leaves the connection as it was; a
      credential that does not fit, or a write that fails, costs the xid and no more. */
  lemma {:induction false} NotSent(line: Line, auth: AuthFlavor, args: Compound4args)
    ensures !ArgsFit(args) ==>
              CompoundStep(line, auth, args) == (line, Fault(InXdr(LengthExceeded(0xFFFF_FFFF, 0))))
    ensures ArgsFit(args) && !Short(auth) ==>
              CompoundStep(line, auth, args)
              == (line.(nextXid := (line.nextXid + 1) % 0x1_0000_0000),
                  Fault(OverRpc(BadXdr(LengthExceeded(0xFFFF_FFFF, 0)))))
    ensures ArgsFit(args) && Short(auth) && line.sends == 0 ==>
              CompoundStep(line, auth, args)
              == (line.(nextXid := (line.nextXid + 1) % 0x1_0000_0000), Fault(OverRpc(Closed)))
  {
    hide ArgsFit, EncodeArgs, EncodeCall, DecodeCall, AnswerIn, Incoming, Unread, Frame;
    RequestWrittenIff(args);
    if ArgsFit(args) {
      var call := CompoundCall(line.nextXid, auth, EncodeArgs(args).bytes);
      CallRoundTrip(call, []);
    }
  }

  /** Whatever comes in: compound returns a response only out of the reply to its own
      call, passes on the accept status of that reply when it is no success, and refuses
      any other reply by its xid. */
  lemma {:induction false} CompoundAnswers(line: Line, auth: AuthFlavor, args: Compound4args)
    requires ArgsFit(args) && Short(auth)
    ensures var answer := CompoundStep(line, auth, args).1;
      match FirstReply(line)
      case None => answer.Fault? && answer.error.OverRpc?
      case Some(reply) =>
        if reply.xid != line.nextXid then answer == Fault(OverRpc(XidMismatch(line.nextXid, reply.xid)))
        else if !reply.status.Success? then answer == Fault(Rejected(reply.status))
        else
          match DecodeCompound(reply.status.body)
          case Got(res, _) => answer == Done(res)
          case Failed(e, _) => answer == Fault(InXdr(e))
  {
    hide ArgsFit, Short, Incoming, DecodeCompound, DecodeReply, NextRecord, EncodeArgs, EncodeCall, Sent,
      CompoundStep;
    RequestSent(line, auth, args);
  }

  /** The same for a peer that sends its reply in several fragments, empty ones
      included. */
  lemma {:induction false} FragmentedResponseArrives(line: Line, auth: AuthFlavor, args: Compound4args,
                                                     verf: AuthFlavor, res: Compound4res, parts: seq<seq<byte>>,
                                                     later: seq<byte>)
    requires ArgsFit(args) && Short(auth) && Sendable(res) && Short(verf)
    requires parts != [] && Concat(parts) == ReplyBytes(line.nextXid, verf, res) && |Concat(parts)| <= MAX_RECORD_SIZE
    requires forall i | 0 <= i < |parts| :: |parts[i]| < LAST_FRAGMENT
    requires Incoming(line.chunks) == Fragments(parts) + later && line.sends > 0
    ensures CompoundStep(line, auth, args).1 == Done(res)
  {
    hide ArgsFit, Short, Sendable, Incoming, EncodeCompound, DecodeCompound, EncodeReply, DecodeReply, NextRecord,
      EncodeArgs, EncodeCall, Unread, Concat, Fragments;
    Encodable(line.nextXid, verf, res);
    RequestSent(line, auth, args);
    FragmentsReassemble([], parts, later);
    assert [] + Concat(parts) == Concat(parts);
  }

  /** What a call sends and where it looks for the answer. */
  lemma {:induction false} RequestSent(line: Line, auth: AuthFlavor, args: Compound4args)
    requires ArgsFit(args) && Short(auth)
    ensures EncodeArgs(args).Wrote?
    ensures var call := CompoundCall(line.nextXid, auth, EncodeArgs(args).bytes);
      && EncodeCall(call).Wrote?
      && CompoundStep(line, auth, args)
         == (Sent(line, EncodeCall(call).bytes), Unpack(AnswerOn(line, line.nextXid)))
  {
    hide ArgsFit, Incoming, Frame, EncodeArgs, EncodeCall, Unread, AnswerOn, Sent, Unpack, CompoundStep;
    RequestWritten(args);
    var call := CompoundCall(line.nextXid, auth, EncodeArgs(args).bytes);
    CallWritten(call);
    Stepped(line, auth, args);
  }

  lemma {:induction false} RequestWritten(args: Compound4args)
    requires ArgsFit(args)
    ensures EncodeArgs(args).Wrote?
  {
    hide ArgsFit, EncodeArgs;
    RequestUnambiguous(args, args, [], []);
  }

  lemma {:induction false} CallWritten(call: RpcCall)
    requires Short(call.cred) && Short(call.verf)
    ensures EncodeCall(call).Wrote?
  {
    hide EncodeCall, DecodeCall, Short;
    CallRoundTrip(call, []);
  }

  lemma {:induction false} Stepped(line: Line, auth: AuthFlavor, args: Compound4args)
    requires EncodeArgs(args).Wrote?
    requires EncodeCall(CompoundCall(line.nextXid, auth, EncodeArgs(args).bytes)).Wrote?
    ensures var call := CompoundCall(line.nextXid, auth, EncodeArgs(args).bytes);
      CompoundStep(line, auth, args)
      == (Sent(line, EncodeCall(call).bytes), Unpack(AnswerOn(line, line.nextXid)))
  {
    hide Incoming, Frame, EncodeArgs, EncodeCall, Unread, AnswerOn, Sent, Unpack;
  }

  lemma {:induction false} BodyCutShort(body: seq<byte>, missing: seq<byte>, res: Compound4res)
    requires Sendable(res) && EncodeCompound(res).Wrote? && EncodeCompound(res).bytes == body + missing && missing != []
    ensures DecodeCompound(body).Failed?
  {
    hide Sendable, EncodeCompound, DecodeCompound;
    CompoundPrefixTooShort(res, |body|);
    assert (body + missing)[..|body|] == body;
  }

  // ------------------------------------------------------------ several calls

  /** A cut of a byte string into non-empty chunks. */
  predicate IsCut(cut: seq<seq<byte>>, bytes: seq<byte>) {
    Concat(cut) == bytes && forall i | 0 <= i < |cut| :: cut[i] != []
  }

  /** The line takes a request, and the server's reply to it comes next, cut anywhere. */
  predicate ComesNext(line: Line, verf: AuthFlavor, res: Compound4res, cut: seq<seq<byte>>, rest: seq<seq<byte>>) {
    var bytes := ReplyBytes(line.nextXid, verf, res);
    line.sends > 0 && |bytes| <= MAX_RECORD_SIZE && IsCut(cut, Frame(bytes)) && line.chunks == cut + rest
  }

  /** A call whose reply comes in chunks of its own leaves the later ones unread. */
  lemma {:induction false} CutIsConsumed(seen: seq<byte>, cut: seq<seq<byte>>, data: seq<byte>, rest: seq<seq<byte>>)
    requires |data| <= MAX_RECORD_SIZE && seen + Concat(cut) == Frame(data)
    requires (forall i | 0 <= i < |cut| :: cut[i] != []) && cut != []
    ensures Unread(seen, cut + rest) == rest
    ensures Incoming(cut + rest) == Concat(cut) + Incoming(rest)
    decreases |cut|
  {
    hide NextRecord, Frame;
    var more := Concat(cut[1..]);
    assert (cut + rest)[0] == cut[0] && (cut + rest)[1..] == cut[1..] + rest;
    AppendAssociative(seen, cut[0], more);
    FrameOnly(data);
    OutcomeMonotone([], seen + cut[0], more);
    if cut[1..] == [] {
      assert cut[1..] + rest == rest;
      NothingMore(seen + cut[0]);
      NothingMore(cut[0]);
    } else {
      assert |more| > 0 by { assert more == cut[1] + Concat(cut[1..][1..]); }
      assert NextRecord([], seen + cut[0]).More?;
      CutIsConsumed(seen + cut[0], cut[1..], data, rest);
      AppendAssociative(cut[0], more, Incoming(rest));
    }
  }

  lemma {:induction false} NothingMore(s: seq<byte>)
    ensures s + [] == s
  {
  }

  /** A framed record is the whole of its bytes. */
  lemma {:induction false} FrameOnly(data: seq<byte>)
    requires |data| <= MAX_RECORD_SIZE
    ensures NextRecord([], Frame(data)) == Record(data, [])
  {
    hide NextRecord, Frame;
    NothingMore(Frame(data));
    FrameReadBackIff(data, []);
  }

  /** One exchange: the server's reply to this call comes first, in chunks of its
      own; the call returns the response and leaves the rest of the line alone. */
  lemma {:induction false} Exchanged(line: Line, auth: AuthFlavor, args: Compound4args, verf: AuthFlavor,
      res: Compound4res, cut: seq<seq<byte>>, rest: seq<seq<byte>>)
    requires ArgsFit(args) && Short(auth) && Sendable(res) && Short(verf)
    requires ComesNext(line, verf, res, cut, rest)
    ensures CompoundStep(line, auth, args).1 == Done(res)
    ensures CompoundStep(line, auth, args).0.chunks == rest
    ensures CompoundStep(line, auth, args).0.nextXid == (line.nextXid + 1) % U32_MODULUS
    ensures CompoundStep(line, auth, args).0.sends == line.sends - 1
  {
    hide ArgsFit, Short, Sendable, Incoming, ReplyBytes, CompoundStep, NextRecord, Unread, EncodeArgs, EncodeCall,
      AnswerOn, Unpack;
    var data := ReplyBytes(line.nextXid, verf, res);
    assert [] + Concat(cut) == Frame(data);
    CutIsConsumed([], cut, data, rest);
    ResponseArrivesIff(line, auth, args, verf, res, Incoming(rest));
    RequestSent(line, auth, args);
  }
}
