/** ONC RPC messages (RFC 5531 section 9): the credential codec with its nested
    length-prefixed body, calls and accepted replies. Call arguments and the
    results of a successful reply are not length-prefixed: they are whatever the
    record holds after the header. */
module Rpc {
  import opened Wire
  import opened Xdr
  import opened XdrStructs
  import opened XdrCodec
  import Laws = XdrLaws

  const AUTH_NONE: u32 := 0
  const AUTH_SYS: u32 := 1
  const MSG_TYPE_CALL: u32 := 0
  const MSG_TYPE_REPLY: u32 := 1
  const RPC_VERSION: u32 := 2
  const MSG_ACCEPTED: u32 := 0

  datatype AuthSys = AuthSys(stamp: u32, machineName: Utf8, uid: u32, gid: u32, gids: seq<u32>)
  datatype AuthFlavor = NoAuth | Sys(sys: AuthSys)

  datatype AcceptStatus =
    | Success(body: seq<byte>)
    | ProgramUnavailable
    | ProgramMismatch(low: u32, high: u32)
    | ProcedureUnavailable
    | GarbageArgs
    | SystemError

  datatype RpcCall = RpcCall(
    xid: u32, program: u32, version: u32, procedure: u32, cred: AuthFlavor, verf: AuthFlavor, body: seq<byte>)
  datatype RpcReply = RpcReply(xid: u32, verf: AuthFlavor, status: AcceptStatus)

  // ------------------------------------------------------------- credentials

  /** The five fields of an AUTH_SYS body. */
  const SYS_BODY := S5(U32, Text, U32, U32, Vec(U32))

  function SysValue(s: AuthSys): (v: Value)
    ensures HasType(SYS_BODY, v)
  {
    hide HasType;
    WordTyped(s.stamp);
    WordTyped(s.uid);
    WordTyped(s.gid);
    TextTyped(s.machineName);
    Typed5(U32, Text, U32, U32, Vec(U32),
           Num(s.stamp), Data(s.machineName), Num(s.uid), Num(s.gid), Words(s.gids));
    V5(Num(s.stamp), Data(s.machineName), Num(s.uid), Num(s.gid), Words(s.gids))
  }

  function SysOf(v: Value): (s: AuthSys)
    requires HasType(SYS_BODY, v)
    ensures SysValue(s) == v
  {
    hide HasType, Words, ValidUtf8;
    Fields5(U32, Text, U32, U32, Vec(U32), v);
    WordOf(v.x);
    TextOf(v.y.x);
    WordOf(v.y.y.x);
    WordOf(v.y.y.y.x);
    AuthSys(v.x.n, v.y.x.d, v.y.y.x.n, v.y.y.y.x.n, WordsOf(v.y.y.y.y.x))
  }

  lemma {:induction false} SysInjective(s: AuthSys, t: AuthSys)
    requires SysValue(s) == SysValue(t)
    ensures s == t
  {
    hide HasType, Words, ValidUtf8;
    WordsInjective(s.gids, t.gids);
  }

  /** AUTH_SYS: the body is encoded on its own first; its length word is cut to
      32 bits, and nothing but the flavor is written when the body fails. */
  function EncodeAuth(a: AuthFlavor): Encoded {
    match a
    case NoAuth => Wrote(BigEndian32(AUTH_NONE) + BigEndian32(0))
    case Sys(s) =>
      match Encode(SYS_BODY, SysValue(s))
      case Stuck(e, _) => Stuck(e, BigEndian32(AUTH_SYS))
      case Wrote(body) => Wrote(BigEndian32(AUTH_SYS) + BigEndian32(|body| % U32_MODULUS) + body)
  }

  /** AUTH_NONE skips its body without looking whether it is all there; AUTH_SYS
      ignores the length word; any other flavor is skipped and read as none. */
  function DecodeAuth(b: seq<byte>): (r: Decoded<AuthFlavor>)
    ensures |r.rest| <= |b|
  {
    hide HasType, Decode, Encode;
    var (flavor, r) :- DecodeU32(b);
    var (len, r') :- DecodeU32(r);
    if flavor == AUTH_NONE then
      if len > |r'| then Failed(Panic, r') else Got(NoAuth, r'[len..])
    else if flavor == AUTH_SYS then
      match Decode(SYS_BODY, r')
      case Failed(e, rest) => Failed(e, rest)
      case Got(v, rest) => Laws.Sound(SYS_BODY, r'); Got(Sys(SysOf(v)), rest)
    else if |r'| < len then Failed(BufferTooShort(len, |r'|), r')
    else Got(NoAuth, r'[len..])
  }

  method EncodeAuthInto(a: AuthFlavor, buf: BytesMut) returns (r: Result<()>)
    modifies buf
    ensures r == EncodeAuth(a).Verdict()
    ensures buf.data == old(buf.data) + EncodeAuth(a).bytes
  {
    hide HasType, Encode, BigEndian32, SysValue;
    match a {
      case NoAuth =>
        AppendAssociative(buf.data, BigEndian32(AUTH_NONE), BigEndian32(0));
        buf.PutU32(AUTH_NONE);
        buf.PutU32(0);
        return Ok(());
      case Sys(s) =>
        ghost var start := buf.data;
        buf.PutU32(AUTH_SYS);
        var body := new BytesMut();
        var _ :- EncodeInto(SYS_BODY, SysValue(s), body);
        assert body.data == Encode(SYS_BODY, SysValue(s)).bytes;
        var len: u32 := |body.data| % U32_MODULUS;
        AppendAssociative(start, BigEndian32(AUTH_SYS), BigEndian32(len));
        AppendAssociative(start, BigEndian32(AUTH_SYS) + BigEndian32(len), body.data);
        buf.PutU32(len);
        buf.PutSlice(body.data);
        return Ok(());
    }
  }

  /** The aborting case is reported as Panic rather than run into. */
  method DecodeAuthFrom(buf: Bytes) returns (r: Result<AuthFlavor>)
    modifies buf
    ensures r == DecodeAuth(old(buf.data)).Verdict()
    ensures buf.data == DecodeAuth(old(buf.data)).rest
  {
    hide HasType, Decode, Encode, DecodeU32, SysOf;
    var flavor :- DecodeU32From(buf);
    var len :- DecodeU32From(buf);
    match flavor {
      case 0 => // AUTH_NONE
        if len > |buf.data| {
          return Err(Panic);
        }
        var _ := buf.SplitTo(len);
        return Ok(NoAuth);
      case 1 => // AUTH_SYS
        ghost var b := buf.data;
        var v :- DecodeFrom(SYS_BODY, buf);
        Laws.Sound(SYS_BODY, b);
        return Ok(Sys(SysOf(v)));
      case _ =>
        if |buf.data| < len {
          return Err(BufferTooShort(len, |buf.data|));
        }
        var _ := buf.SplitTo(len);
        return Ok(NoAuth);
    }
  }

  /** What a credential needs to survive the wire. */
  predicate Short(a: AuthFlavor) {
    a.Sys? ==> |a.sys.machineName| < MAX_LEN && |a.sys.gids| < MAX_LEN
  }

  /** The body as a struct: what its well-formedness and its encoding come from. */
  lemma {:induction false} SysParts(s: AuthSys)
    ensures HasType(Text, Data(s.machineName)) && HasType(U32, Num(s.stamp)) && HasType(U32, Num(s.uid))
        && HasType(U32, Num(s.gid))
    ensures WellFormed(SYS_BODY, SysValue(s)) <==>
            WellFormed(U32, Num(s.stamp)) && WellFormed(Text, Data(s.machineName)) && WellFormed(U32, Num(s.uid))
            && WellFormed(U32, Num(s.gid)) && WellFormed(Vec(U32), Words(s.gids))
    ensures Encode(SYS_BODY, SysValue(s)) ==
            Encode(U32, Num(s.stamp)).Then(Encode(Text, Data(s.machineName)).Then(Encode(U32, Num(s.uid)).Then(
              Encode(U32, Num(s.gid)).Then(Encode(Vec(U32), Words(s.gids)).Then(Wrote([]))))))
  {
    hide HasType, Words, ValidUtf8, WellFormed, Encode, Encoded.Then;
    var words := Words(s.gids);
    var name, stamp, uid, gid := Data(s.machineName), Num(s.stamp), Num(s.uid), Num(s.gid);
    NilEncodes();
    WordTyped(s.stamp);
    WordTyped(s.uid);
    WordTyped(s.gid);
    TextTyped(s.machineName);
    Typed1(Vec(U32), words);
    Typed2(U32, Vec(U32), gid, words);
    Typed3(U32, U32, Vec(U32), uid, gid, words);
    Typed4(Text, U32, U32, Vec(U32), name, uid, gid, words);
    EncodePair(U32, S4(Text, U32, U32, Vec(U32)), stamp, V4(name, uid, gid, words));
    EncodePair(Text, S3(U32, U32, Vec(U32)), name, V3(uid, gid, words));
    EncodePair(U32, S2(U32, Vec(U32)), uid, V2(gid, words));
    EncodePair(U32, S1(Vec(U32)), gid, V1(words));
    EncodePair(Vec(U32), Unit, words, Nil);
  }

  lemma {:induction false} NilEncodes()
    ensures HasType(Unit, Nil) && WellFormed(Unit, Nil) && Encode(Unit, Nil) == Wrote([])
  {
  }

  lemma {:induction false} FieldFits(name: Utf8, ids: seq<u32>)
    requires HasType(Text, Data(name))
    ensures WellFormed(Text, Data(name)) <==> |name| < MAX_LEN
    ensures WellFormed(Vec(U32), Words(ids)) <==> |ids| < MAX_LEN
    ensures |name| < MAX_LEN ==> Encode(Text, Data(name)).Wrote?
    ensures |name| >= MAX_LEN ==> Encode(Text, Data(name)) == Stuck(LengthExceeded(0xFFFF_FFFF, 0), [])
    ensures |ids| >= MAX_LEN ==> Encode(Vec(U32), Words(ids)) == Stuck(LengthExceeded(0xFFFF_FFFF, 0), [])
  {
    hide BigEndian32, ValidUtf8;
  }

  lemma {:induction false} WordFits(n: u32)
    requires HasType(U32, Num(n))
    ensures WellFormed(U32, Num(n)) && Encode(U32, Num(n)).Wrote?
  {
    hide BigEndian32;
  }

  /** A body encoder fails exactly on a length that does not fit a word. */
  lemma {:induction false} SysWrittenIff(s: AuthSys)
    ensures WellFormed(SYS_BODY, SysValue(s)) <==> Short(Sys(s))
    ensures if Short(Sys(s)) then Encode(SYS_BODY, SysValue(s)).Wrote?
            else Encode(SYS_BODY, SysValue(s)).Stuck?
                 && Encode(SYS_BODY, SysValue(s)).error == LengthExceeded(0xFFFF_FFFF, 0)
  {
    hide HasType, Words, ValidUtf8, WellFormed, Encode, SysValue;
    SysParts(s);
    FieldFits(s.machineName, s.gids);
    WordFits(s.stamp);
    WordFits(s.uid);
    WordFits(s.gid);
    if Short(Sys(s)) {
      Laws.RoundTrip(SYS_BODY, SysValue(s), []);
    }
  }

  /** A credential survives the wire, with what follows it untouched, when its name
      and its group list have lengths that fit a word, and is refused otherwise. The
      length word of the whole body may wrap: it is not looked at. */
  lemma {:induction false} AuthRoundTrip(a: AuthFlavor, suffix: seq<byte>)
    ensures if Short(a) then EncodeAuth(a).Wrote? && DecodeAuth(EncodeAuth(a).bytes + suffix) == Got(a, suffix)
            else EncodeAuth(a).Verdict() == Err(LengthExceeded(0xFFFF_FFFF, 0))
  {
    hide HasType, Encode, Decode, WellFormed, BigEndian32, DecodeU32, SysValue, SysOf;
    match a {
      case NoAuth =>
        TwoWords(AUTH_NONE, 0, suffix);
        assert EncodeAuth(a).bytes + suffix == BigEndian32(AUTH_NONE) + BigEndian32(0) + suffix;
      case Sys(s) =>
        SysWrittenIff(s);
        var enc := Encode(SYS_BODY, SysValue(s));
        if Short(a) {
          Laws.RoundTrip(SYS_BODY, SysValue(s), suffix);
          var len := |enc.bytes| % U32_MODULUS;
          TwoWords(AUTH_SYS, len, enc.bytes + suffix);
          assert EncodeAuth(a).bytes + suffix
              == BigEndian32(AUTH_SYS) + BigEndian32(len) + (enc.bytes + suffix);
          SysInjective(SysOf(SysValue(s)), s);
        }
    }
  }

  lemma {:induction false} TwoWords(x: u32, y: u32, s: seq<byte>)
    ensures DecodeU32(BigEndian32(x) + BigEndian32(y) + s) == Got(x, BigEndian32(y) + s)
    ensures DecodeU32(BigEndian32(y) + s) == Got(y, s)
  {
    Laws.WordThen(x, BigEndian32(y), s);
    Laws.U32Law(y, s);
  }

  /** The input on which the decoder aborts: an AUTH_NONE that announces a longer
      body than there are bytes. */
  predicate Aborts(b: seq<byte>) {
    |b| >= 8 && Word32(b) == AUTH_NONE && Word32(b[4..]) > |b| - 8
  }

  /** On such an input the decoder aborts, and on no other. */
  lemma {:induction false} AuthAbortsIff(b: seq<byte>)
    ensures Laws.Panics(DecodeAuth(b)) <==> Aborts(b)
  {
    hide HasType, Decode, SysOf, Word32;
    if |b| >= 8 {
      Laws.NeverPanics(SYS_BODY, b[4..][4..]);
    }
  }

  /** A credential's verdict stands when bytes are appended (a value, or an error
      other than BufferTooShort), whatever the bytes, exactly when the input is not
      one that makes the decoder abort. */
  lemma {:induction false} AuthMonotoneIff(b: seq<byte>)
    ensures (forall s: seq<byte> :: Laws.Extends(DecodeAuth(b), DecodeAuth(b + s), s)) <==> !Aborts(b)
  {
    hide DecodeAuth, Laws.Extends;
    if Aborts(b) {
      var more := Zeros(Word32(b[4..]));
      AbortCured(b, more);
      assert !Laws.Extends(DecodeAuth(b), DecodeAuth(b + more), more);
    } else {
      forall s: seq<byte>
        ensures Laws.Extends(DecodeAuth(b), DecodeAuth(b + s), s)
      {
        AuthMonotone(b, s);
      }
    }
  }

  lemma {:induction false} AbortCured(b: seq<byte>, more: seq<byte>)
    requires Aborts(b) && |more| == Word32(b[4..])
    ensures !Laws.Extends(DecodeAuth(b), DecodeAuth(b + more), more)
  {
    hide Word32;
    Laws.U32Monotone(b, more);
    Laws.U32Monotone(b[4..], more);
    assert (b + more)[4..] == b[4..] + more;
  }

  lemma {:induction false} AuthMonotone(b: seq<byte>, s: seq<byte>)
    requires !Aborts(b)
    ensures Laws.Extends(DecodeAuth(b), DecodeAuth(b + s), s)
  {
    hide HasType, Decode, Encode, SysOf, Word32;
    Laws.U32Monotone(b, s);
    if |b| >= 8 {
      var r := b[4..];
      assert (b + s)[4..] == r + s;
      Laws.U32Monotone(r, s);
      var len, r' := Word32(r), r[4..];
      assert (r + s)[4..] == r' + s;
      Laws.Monotone(SYS_BODY, r', s);
      if len <= |r'| {
        assert (r' + s)[len..] == r'[len..] + s;
      }
    } else if |b| >= 4 {
      assert (b + s)[4..] == b[4..] + s;
      Laws.U32Monotone(b[4..], s);
    }
  }

  // ----------------------------------------------------------------- replies

  function EncodeStatus(s: AcceptStatus): (b: seq<byte>) {
    match s
    case Success(body) => BigEndian32(0) + body
    case ProgramUnavailable => BigEndian32(1)
    case ProgramMismatch(low, high) => BigEndian32(2) + BigEndian32(low) + BigEndian32(high)
    case ProcedureUnavailable => BigEndian32(3)
    case GarbageArgs => BigEndian32(4)
    case SystemError => BigEndian32(5)
  }

  function DecodeStatus(b: seq<byte>): (r: Decoded<AcceptStatus>)
    ensures |r.rest| <= |b|
  {
    var (stat, r) :- DecodeU32(b);
    match stat
    case 0 => Got(Success(r), [])
    case 1 => Got(ProgramUnavailable, r)
    case 2 =>
      var (low, r') :- DecodeU32(r);
      var (high, r'') :- DecodeU32(r');
      Got(ProgramMismatch(low, high), r'')
    case 3 => Got(ProcedureUnavailable, r)
    case 4 => Got(GarbageArgs, r)
    case 5 => Got(SystemError, r)
    case other => Failed(InvalidEnum(other, "AcceptStatus"), r)
  }

  function EncodeReply(r: RpcReply): Encoded {
    Wrote(BigEndian32(r.xid) + BigEndian32(MSG_TYPE_REPLY) + BigEndian32(MSG_ACCEPTED))
      .Then(EncodeAuth(r.verf)).Then(Wrote(EncodeStatus(r.status)))
  }

  function DecodeReply(b: seq<byte>): (r: Decoded<RpcReply>)
    ensures |r.rest| <= |b|
  {
    var (xid, r1) :- DecodeU32(b);
    var (msgType, r2) :- DecodeU32(r1);
    if msgType != MSG_TYPE_REPLY then Failed(InvalidEnum(msgType, "MsgType (expected REPLY=1)"), r2)
    else
      var (replyStat, r3) :- DecodeU32(r2);
      if replyStat != MSG_ACCEPTED then Failed(InvalidEnum(replyStat, "ReplyStat (expected ACCEPTED=0)"), r3)
      else
        var (verf, r4) :- DecodeAuth(r3);
        var (status, r5) :- DecodeStatus(r4);
        Got(RpcReply(xid, verf, status), r5)
  }

  method EncodeStatusInto(s: AcceptStatus, buf: BytesMut)
    modifies buf
    ensures buf.data == old(buf.data) + EncodeStatus(s)
  {
    hide BigEndian32;
    match s {
      case Success(body) => buf.PutU32(0); buf.PutSlice(body);
      case ProgramUnavailable => buf.PutU32(1);
      case ProgramMismatch(low, high) => buf.PutU32(2); buf.PutU32(low); buf.PutU32(high);
      case ProcedureUnavailable => buf.PutU32(3);
      case GarbageArgs => buf.PutU32(4);
      case SystemError => buf.PutU32(5);
    }
  }

  method DecodeStatusFrom(buf: Bytes) returns (r: Result<AcceptStatus>)
    modifies buf
    ensures r == DecodeStatus(old(buf.data)).Verdict()
    ensures buf.data == DecodeStatus(old(buf.data)).rest
  {
    hide DecodeU32;
    var stat :- DecodeU32From(buf);
    match stat {
      case 0 =>
        var body := buf.TakeAll();
        return Ok(Success(body));
      case 1 => return Ok(ProgramUnavailable);
      case 2 =>
        var low :- DecodeU32From(buf);
        var high :- DecodeU32From(buf);
        return Ok(ProgramMismatch(low, high));
      case 3 => return Ok(ProcedureUnavailable);
      case 4 => return Ok(GarbageArgs);
      case 5 => return Ok(SystemError);
      case other => return Err(InvalidEnum(other, "AcceptStatus"));
    }
  }

  method EncodeReplyInto(reply: RpcReply, buf: BytesMut) returns (r: Result<()>)
    modifies buf
    ensures r == EncodeReply(reply).Verdict()
    ensures buf.data == old(buf.data) + EncodeReply(reply).bytes
  {
    hide BigEndian32, EncodeAuth, EncodeStatus;
    buf.PutU32(reply.xid);
    buf.PutU32(MSG_TYPE_REPLY);
    buf.PutU32(MSG_ACCEPTED);
    var _ :- EncodeAuthInto(reply.verf, buf);
    EncodeStatusInto(reply.status, buf);
    return Ok(());
  }

  method DecodeReplyFrom(buf: Bytes) returns (r: Result<RpcReply>)
    modifies buf
    ensures r == DecodeReply(old(buf.data)).Verdict()
    ensures buf.data == DecodeReply(old(buf.data)).rest
  {
    hide DecodeU32, DecodeAuth, DecodeStatus;
    var xid :- DecodeU32From(buf);
    var msgType :- DecodeU32From(buf);
    if msgType != MSG_TYPE_REPLY {
      return Err(InvalidEnum(msgType, "MsgType (expected REPLY=1)"));
    }
    var replyStat :- DecodeU32From(buf);
    if replyStat != MSG_ACCEPTED {
      return Err(InvalidEnum(replyStat, "ReplyStat (expected ACCEPTED=0)"));
    }
    var verf :- DecodeAuthFrom(buf);
    var status :- DecodeStatusFrom(buf);
    return Ok(RpcReply(xid, verf, status));
  }

  lemma {:induction false} StatusRoundTrip(s: AcceptStatus, suffix: seq<byte>)
    ensures DecodeStatus(EncodeStatus(s) + suffix)
            == if s.Success? then Got(Success(s.body + suffix), []) else Got(s, suffix)
  {
    hide BigEndian32, DecodeU32;
    match s {
      case Success(body) => Laws.WordThen(0, body, suffix);
      case ProgramUnavailable => Laws.U32Law(1, suffix);
      case ProgramMismatch(low, high) =>
        assert EncodeStatus(s) + suffix == BigEndian32(2) + (BigEndian32(low) + BigEndian32(high) + suffix);
        Laws.U32Law(2, BigEndian32(low) + BigEndian32(high) + suffix);
        TwoWords(low, high, suffix);
      case ProcedureUnavailable => Laws.U32Law(3, suffix);
      case GarbageArgs => Laws.U32Law(4, suffix);
      case SystemError => Laws.U32Law(5, suffix);
    }
  }

  lemma {:induction false} ReplyHeader(xid: u32, verf: seq<byte>, status: seq<byte>, suffix: seq<byte>)
    ensures
      var b := BigEndian32(xid) + BigEndian32(MSG_TYPE_REPLY) + BigEndian32(MSG_ACCEPTED) + verf + status + suffix;
      match DecodeAuth(verf + (status + suffix))
      case Failed(e, r) => DecodeReply(b) == Failed(e, r)
      case Got(a, r) =>
        match DecodeStatus(r)
        case Failed(e, r') => DecodeReply(b) == Failed(e, r')
        case Got(s, r') => DecodeReply(b) == Got(RpcReply(xid, a, s), r')
  {
    hide BigEndian32, DecodeU32, DecodeAuth, DecodeStatus;
    var tail := verf + (status + suffix);
    assert BigEndian32(xid) + BigEndian32(MSG_TYPE_REPLY) + BigEndian32(MSG_ACCEPTED) + verf + status + suffix
        == BigEndian32(xid) + BigEndian32(MSG_TYPE_REPLY) + (BigEndian32(MSG_ACCEPTED) + tail);
    TwoWords(xid, MSG_TYPE_REPLY, BigEndian32(MSG_ACCEPTED) + tail);
    Laws.U32Law(MSG_ACCEPTED, tail);
  }

  /** A reply survives the wire exactly when its verifier does and nothing follows
      a successful result, which takes every byte up to the end of the record. */
  lemma {:induction false} ReplyRoundTripIff(r: RpcReply, suffix: seq<byte>)
    ensures (EncodeReply(r).Wrote? && DecodeReply(EncodeReply(r).bytes + suffix) == Got(r, suffix))
            <==> Short(r.verf) && (r.status.Success? ==> suffix == [])
  {
    hide BigEndian32, EncodeAuth, DecodeAuth, EncodeStatus, DecodeStatus, DecodeReply;
    AuthRoundTrip(r.verf, EncodeStatus(r.status) + suffix);
    if Short(r.verf) {
      ReplyHeader(r.xid, EncodeAuth(r.verf).bytes, EncodeStatus(r.status), suffix);
      StatusRoundTrip(r.status, suffix);
      if r.status.Success? {
        assert |r.status.body + suffix| == |r.status.body| + |suffix|;
        assert suffix == [] ==> r.status.body + suffix == r.status.body;
      }
    }
  }

  /** The record on which the reply decoder aborts: an accepted reply whose verifier is
      such an AUTH_NONE. */
  predicate ReplyAborts(b: seq<byte>) {
    && |b| >= 12 && Word32(b[4..]) == MSG_TYPE_REPLY && Word32(b[8..]) == MSG_ACCEPTED
    && Aborts(b[12..])
  }

  lemma {:induction false} ReplyAbortsIff(b: seq<byte>)
    ensures Laws.Panics(DecodeReply(b)) <==> ReplyAborts(b)
  {
    hide DecodeAuth, Aborts, Word32;
    if |b| >= 12 {
      assert b[4..][4..] == b[8..] && b[8..][4..] == b[12..];
      AuthAbortsIff(b[12..]);
      if DecodeAuth(b[12..]).Got? {
        StatusNeverPanics(DecodeAuth(b[12..]).rest);
      }
    }
  }

  lemma {:induction false} StatusNeverPanics(b: seq<byte>)
    ensures !Laws.Panics(DecodeStatus(b))
  {
    hide Word32;
  }

  // ------------------------------------------------------------------- calls

  function CallPrefix(c: RpcCall): seq<byte> {
    BigEndian32(c.xid) + BigEndian32(MSG_TYPE_CALL) + BigEndian32(RPC_VERSION)
    + BigEndian32(c.program) + BigEndian32(c.version) + BigEndian32(c.procedure)
  }

  function EncodeCall(c: RpcCall): Encoded {
    Wrote(CallPrefix(c))
      .Then(EncodeAuth(c.cred)).Then(EncodeAuth(c.verf)).Then(Wrote(c.body))
  }

  function DecodeCall(b: seq<byte>): (r: Decoded<RpcCall>)
    ensures |r.rest| <= |b|
  {
    var (xid, r1) :- DecodeU32(b);
    var (msgType, r2) :- DecodeU32(r1);
    if msgType != MSG_TYPE_CALL then Failed(InvalidEnum(msgType, "MsgType (expected CALL=0)"), r2)
    else
      var (rpcVers, r3) :- DecodeU32(r2);
      if rpcVers != RPC_VERSION then Failed(InvalidEnum(rpcVers, "RpcVersion (expected 2)"), r3)
      else
        var (program, r4) :- DecodeU32(r3);
        var (version, r5) :- DecodeU32(r4);
        var (procedure, r6) :- DecodeU32(r5);
        var (cred, r7) :- DecodeAuth(r6);
        var (verf, r8) :- DecodeAuth(r7);
        Got(RpcCall(xid, program, version, procedure, cred, verf, r8), [])
  }

  lemma {:induction false} SixWords(s: seq<byte>, a: seq<byte>, b: seq<byte>, c: seq<byte>, d: seq<byte>,
      e: seq<byte>, f: seq<byte>)
    ensures s + a + b + c + d + e + f == s + (a + b + c + d + e + f)
  {
  }

  method EncodeCallInto(c: RpcCall, buf: BytesMut) returns (r: Result<()>)
    modifies buf
    ensures r == EncodeCall(c).Verdict()
    ensures buf.data == old(buf.data) + EncodeCall(c).bytes
  {
    hide BigEndian32, EncodeAuth;
    ghost var start := buf.data;
    buf.PutU32(c.xid);
    buf.PutU32(MSG_TYPE_CALL);
    buf.PutU32(RPC_VERSION);
    buf.PutU32(c.program);
    buf.PutU32(c.version);
    buf.PutU32(c.procedure);
    SixWords(start, BigEndian32(c.xid), BigEndian32(MSG_TYPE_CALL), BigEndian32(RPC_VERSION), BigEndian32(c.program),
             BigEndian32(c.version), BigEndian32(c.procedure));
    ghost var done := CallPrefix(c);
    AppendAssociative(start, done, EncodeAuth(c.cred).bytes);
    var _ :- EncodeAuthInto(c.cred, buf);
    done := done + EncodeAuth(c.cred).bytes;
    AppendAssociative(start, done, EncodeAuth(c.verf).bytes);
    var _ :- EncodeAuthInto(c.verf, buf);
    AppendAssociative(start, done + EncodeAuth(c.verf).bytes, c.body);
    buf.PutSlice(c.body);
    return Ok(());
  }

  method DecodeCallFrom(buf: Bytes) returns (r: Result<RpcCall>)
    modifies buf
    ensures r == DecodeCall(old(buf.data)).Verdict()
    ensures buf.data == DecodeCall(old(buf.data)).rest
  {
    hide DecodeU32, DecodeAuth;
    var xid :- DecodeU32From(buf);
    var msgType :- DecodeU32From(buf);
    if msgType != MSG_TYPE_CALL {
      return Err(InvalidEnum(msgType, "MsgType (expected CALL=0)"));
    }
    var rpcVers :- DecodeU32From(buf);
    if rpcVers != RPC_VERSION {
      return Err(InvalidEnum(rpcVers, "RpcVersion (expected 2)"));
    }
    var program :- DecodeU32From(buf);
    var version :- DecodeU32From(buf);
    var procedure :- DecodeU32From(buf);
    var cred :- DecodeAuthFrom(buf);
    var verf :- DecodeAuthFrom(buf);
    var body := buf.TakeAll();
    return Ok(RpcCall(xid, program, version, procedure, cred, verf, body));
  }

  lemma {:induction false} CallHeader(c: RpcCall, tail: seq<byte>)
    ensures var b := CallPrefix(c) + tail;
      match DecodeAuth(tail)
      case Failed(e, r) => DecodeCall(b) == Failed(e, r)
      case Got(cred, r) =>
        match DecodeAuth(r)
        case Failed(e, r') => DecodeCall(b) == Failed(e, r')
        case Got(verf, r') => DecodeCall(b) == Got(c.(cred := cred, verf := verf, body := r'), [])
  {
    hide BigEndian32, DecodeU32, DecodeAuth;
    var w4, w5, w6 := BigEndian32(c.program), BigEndian32(c.version), BigEndian32(c.procedure);
    var t6 := w6 + tail;
    var t4 := w4 + (w5 + t6);
    assert CallPrefix(c) + tail == BigEndian32(c.xid) + BigEndian32(MSG_TYPE_CALL) + (BigEndian32(RPC_VERSION) + t4);
    TwoWords(c.xid, MSG_TYPE_CALL, BigEndian32(RPC_VERSION) + t4);
    Laws.U32Law(RPC_VERSION, t4);
    Laws.U32Law(c.program, w5 + t6);
    Laws.U32Law(c.version, t6);
    Laws.U32Law(c.procedure, tail);
  }

  /** A call survives the wire when its credentials do; its arguments take every
      byte up to the end of the record, so bytes that follow join them. */
  lemma {:induction false} CallRoundTrip(c: RpcCall, suffix: seq<byte>)
    ensures if Short(c.cred) && Short(c.verf)
            then EncodeCall(c).Wrote?
                && DecodeCall(EncodeCall(c).bytes + suffix) == Got(c.(body := c.body + suffix), [])
            else EncodeCall(c).Verdict() == Err(LengthExceeded(0xFFFF_FFFF, 0))
  {
    hide CallPrefix, EncodeAuth, DecodeAuth, DecodeCall;
    var cred, verf := EncodeAuth(c.cred).bytes, EncodeAuth(c.verf).bytes;
    AuthRoundTrip(c.cred, verf + (c.body + suffix));
    AuthRoundTrip(c.verf, c.body + suffix);
    if Short(c.cred) && Short(c.verf) {
      var tail := cred + (verf + (c.body + suffix));
      CallHeader(c, tail);
      assert CallPrefix(c) + cred + verf + c.body + suffix == CallPrefix(c) + tail;
    }
  }

  /** No call is ever taken for a reply. */
  lemma {:induction false} CallIsNoReply(c: RpcCall)
    requires EncodeCall(c).Wrote?
    ensures DecodeReply(EncodeCall(c).bytes).Verdict() == Err(InvalidEnum(MSG_TYPE_CALL, "MsgType (expected REPLY=1)"))
  {
    hide BigEndian32, EncodeAuth, DecodeAuth, DecodeU32;
    var cred, verf := EncodeAuth(c.cred).bytes, EncodeAuth(c.verf).bytes;
    var later := BigEndian32(RPC_VERSION)
                 + (BigEndian32(c.program) + BigEndian32(c.version) + BigEndian32(c.procedure) + cred + verf + c.body);
    assert EncodeCall(c).bytes == BigEndian32(c.xid) + BigEndian32(MSG_TYPE_CALL) + later;
    TwoWords(c.xid, MSG_TYPE_CALL, later);
  }
}
