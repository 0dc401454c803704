/** Whole messages as they go over the wire: credentials, calls and replies, the COMPOUND
    request and response, and what each operation of the client writes. */
module MessageForms {
  import opened Wire
  import opened Xdr
  import opened XdrStructs
  import opened Rpc
  import opened RecordMarking
  import opened Transport
  import opened Nfs4Types
  import opened Compound
  import opened SendableResults
  import opened CompoundArgs
  import opened SessionSlots
  import opened NfsClient
  import opened Mount
  import opened EndToEnd
  import opened WireForms
  import RequestForms
  import ResultForms

  // --------------------------------------------------------------- credentials

  function SysForm(s: AuthSys): Form
    requires Fits(s.machineName) && Fits(s.gids)
  {
    [W32(s.stamp), Str(s.machineName), W32(s.uid), W32(s.gid)] + WordsForm(s.gids)
  }

  /** Flavor, length of the body, body. */
  function AuthForm(a: AuthFlavor): Form
    requires Short(a)
  {
    match a
    case NoAuth => [W32(0), W32(0)]
    case Sys(s) => [W32(1), W32(|Concat(SysForm(s))| % 0x1_0000_0000)] + SysForm(s)
  }

  lemma {:induction false} SysShows(s: AuthSys)
    requires Fits(s.machineName) && Fits(s.gids)
    ensures Shows(SYS_BODY, SysValue(s), SysForm(s))
  {
    hide Shows, W32, Str, WordsForm, Words, ValidUtf8;
    WordShows(s.stamp);
    TextShows(s.machineName);
    WordShows(s.uid);
    WordShows(s.gid);
    WordsShow(s.gids);
    Shows5(U32, Text, U32, U32, Vec(U32), Num(s.stamp), Data(s.machineName), Num(s.uid), Num(s.gid), Words(s.gids),
           [W32(s.stamp)], [Str(s.machineName)], [W32(s.uid)], [W32(s.gid)], WordsForm(s.gids));
    assert [W32(s.stamp)] + ([Str(s.machineName)] + ([W32(s.uid)] + ([W32(s.gid)] + WordsForm(s.gids)))) == SysForm(s);
  }

  lemma {:induction false} TwoWords(a: seq<byte>, b: seq<byte>)
    ensures Concat([a, b]) == a + b
  {
    assert [a, b][1..] == [b];
    ConcatOne(b);
  }

  lemma {:induction false} AuthOnWire(a: AuthFlavor)
    requires Short(a)
    ensures EncodeAuth(a) == Wrote(Concat(AuthForm(a)))
  {
    hide W32, SysForm, Encode, HasType, BigEndian32, SysValue;
    match a
    case NoAuth =>
      WordShows(0);
      TwoWords(W32(0), W32(0));
    case Sys(s) =>
      SysShows(s);
      var n := |Concat(SysForm(s))| % 0x1_0000_0000;
      WordShows(1);
      WordShows(n);
      TwoWords(W32(1), W32(n));
      ConcatJoin([W32(1), W32(n)], SysForm(s));
  }

  // --------------------------------------------------------- calls and replies

  /** xid, call, RPC version 2, program, version, procedure, credential, verifier. */
  function CallForm(c: RpcCall): Form
    requires Short(c.cred) && Short(c.verf)
  {
    [W32(c.xid), W32(0), W32(2), W32(c.program), W32(c.version), W32(c.procedure)]
    + AuthForm(c.cred) + AuthForm(c.verf) + [c.body]
  }

  lemma {:induction false} SixWords(a: seq<byte>, b: seq<byte>, c: seq<byte>, d: seq<byte>, e: seq<byte>, f: seq<byte>)
    ensures Concat([a, b, c]) == a + b + c
    ensures Concat([a, b, c, d, e, f]) == a + b + c + d + e + f
  {
    TwoWords(b, c);
    assert [a, b, c] == [a] + [b, c] && [a, b, c, d, e, f] == [a, b, c] + [d, e, f];
    ConcatJoin([a, b, c], [d, e, f]);
    TwoWords(e, f);
    assert [d, e, f][1..] == [e, f] && [a, b, c][1..] == [b, c];
    assert a + (b + c) == a + b + c;
    assert a + b + c + (d + (e + f)) == a + b + c + d + e + f;
  }

  lemma {:induction false} CallOnWire(c: RpcCall)
    requires Short(c.cred) && Short(c.verf)
    ensures EncodeCall(c) == Wrote(Concat(CallForm(c)))
  {
    hide W32, AuthForm, EncodeAuth, Short, BigEndian32;
    WordShows(c.xid);
    WordShows(0);
    WordShows(2);
    WordShows(c.program);
    WordShows(c.version);
    WordShows(c.procedure);
    AuthOnWire(c.cred);
    AuthOnWire(c.verf);
    var head := [W32(c.xid), W32(0), W32(2), W32(c.program), W32(c.version), W32(c.procedure)];
    SixWords(W32(c.xid), W32(0), W32(2), W32(c.program), W32(c.version), W32(c.procedure));
    ConcatJoin(head, AuthForm(c.cred));
    ConcatJoin(head + AuthForm(c.cred), AuthForm(c.verf));
    ConcatJoin(head + AuthForm(c.cred) + AuthForm(c.verf), [c.body]);
    ConcatOne(c.body);
  }

  /** The code of each status and what comes with it. */
  function StatusForm(s: AcceptStatus): Form {
    match s
    case Success(body) => [W32(0), body]
    case ProgramUnavailable => [W32(1)]
    case ProgramMismatch(low, high) => [W32(2), W32(low), W32(high)]
    case ProcedureUnavailable => [W32(3)]
    case GarbageArgs => [W32(4)]
    case SystemError => [W32(5)]
  }

  /** xid, reply, accepted, verifier, status. */
  function ReplyForm(r: RpcReply): Form
    requires Short(r.verf)
  {
    [W32(r.xid), W32(1), W32(0)] + AuthForm(r.verf) + StatusForm(r.status)
  }

  lemma {:induction false} StatusOnWire(s: AcceptStatus)
    ensures EncodeStatus(s) == Concat(StatusForm(s))
  {
    hide W32, BigEndian32, Concat;
    match s
    case Success(body) =>
      WordShows(0);
      TwoWords(W32(0), body);
    case ProgramUnavailable =>
      WordShows(1);
      ConcatOne(W32(1));
    case ProgramMismatch(low, high) =>
      WordShows(2);
      WordShows(low);
      WordShows(high);
      SixWords(W32(2), W32(low), W32(high), [], [], []);
    case ProcedureUnavailable =>
      WordShows(3);
      ConcatOne(W32(3));
    case GarbageArgs =>
      WordShows(4);
      ConcatOne(W32(4));
    case SystemError =>
      WordShows(5);
      ConcatOne(W32(5));
  }

  lemma {:induction false} ReplyOnWire(r: RpcReply)
    requires Short(r.verf)
    ensures EncodeReply(r) == Wrote(Concat(ReplyForm(r)))
  {
    hide W32, AuthForm, StatusForm, EncodeAuth, EncodeStatus, Short, BigEndian32;
    WordShows(r.xid);
    WordShows(1);
    WordShows(0);
    AuthOnWire(r.verf);
    StatusOnWire(r.status);
    var head := [W32(r.xid), W32(1), W32(0)];
    SixWords(W32(r.xid), W32(1), W32(0), [], [], []);
    ConcatJoin(head, AuthForm(r.verf));
    ConcatJoin(head + AuthForm(r.verf), StatusForm(r.status));
  }

  // ------------------------------------------------------------------ COMPOUND

  function OpForm(op: NfsArgOp4): Form
    requires ArgFits(op)
  {
    [W32(RequestForms.RequestLayout(op).opcode)] + RequestForms.RequestLayout(op).fields
  }

  function ArgsForm(args: Compound4args): Form
    requires ArgsFit(args)
  {
    [Str(args.tag), W32(args.minorversion)] + Listed(args.argarray, OpForm)
  }

  lemma {:induction false} ArgsOnWire(args: Compound4args)
    requires ArgsFit(args)
    ensures EncodeArgs(args) == Wrote(Concat(ArgsForm(args)))
  {
    hide Shows, W32, Str, ArgArms, ArgValue, ArgFits, OpForm, Listed, ValidUtf8;
    TextShows(args.tag);
    WordShows(args.minorversion);
    var ops := OpsValue(args.argarray);
    OpsShow(args.argarray);
    ArgsValueIs(args);
    Shows3(Text, U32, Vec(ARG_OP), Data(args.tag), Num(args.minorversion), ops, [Str(args.tag)],
           [W32(args.minorversion)], Listed(args.argarray, OpForm));
    assert [Str(args.tag)] + ([W32(args.minorversion)] + Listed(args.argarray, OpForm)) == ArgsForm(args);
    AsEncoded(COMPOUND_ARGS, ArgsValue(args), ArgsForm(args));
  }

  lemma {:induction false} AsEncoded(ty: Ty, v: Value, f: Form)
    requires Shows(ty, v, f)
    ensures HasType(ty, v) && Encode(ty, v) == Wrote(Concat(f))
  {
  }

  lemma {:induction false} OpsShow(ops: seq<NfsArgOp4>)
    requires Fits(ops) && forall i | 0 <= i < |ops| :: ArgFits(ops[i])
    ensures Shows(Vec(ARG_OP), OpsValue(ops), Listed(ops, OpForm))
  {
    hide Shows, W32, ArgArms, ArgValue, ArgFits, Listed, RequestForms.RequestLayout;
    var vs := OpsValue(ops).vs;
    forall i | 0 <= i < |ops|
      ensures Shows(ARG_OP, vs[i], OpForm(ops[i]))
    {
      RequestForms.RequestShows(ops[i]);
    }
    VecShows(ARG_OP, vs, ops, OpForm);
  }

  function ResultForm(op: NfsResOp4): Form
    requires ResultForms.BodyFits(op)
  {
    var l := ResultForms.ResultLayout(op);
    [W32(l.opcode)] + ([W32(l.status)] + l.body)
  }

  predicate ResponseFits(res: Compound4res) {
    Fits(res.tag) && Fits(res.resarray) && forall i | 0 <= i < |res.resarray| :: ResultForms.BodyFits(res.resarray[i])
  }

  function ResponseForm(res: Compound4res): Form
    requires ResponseFits(res)
  {
    [W32(res.status), Str(res.tag)] + Listed(res.resarray, ResultForm)
  }

  lemma {:induction false} ResponseOnWire(res: Compound4res)
    requires ResponseFits(res)
    ensures EncodeCompound(res) == Wrote(Concat(ResponseForm(res)))
  {
    hide Shows, W32, Str, ResArms, ResOpValue, ResultForms.BodyFits, ResultForm, Listed, StatusCodes, IsStatus,
      ValidUtf8;
    StatusShows(res.status);
    TextShows(res.tag);
    ResultsShow(res.resarray);
    CompoundValueIs(res);
    Shows3(STAT, Text, Vec(RES_OP), Num(res.status), Data(res.tag), ResultsValue(res.resarray), [W32(res.status)],
           [Str(res.tag)], Listed(res.resarray, ResultForm));
    assert [W32(res.status)] + ([Str(res.tag)] + Listed(res.resarray, ResultForm)) == ResponseForm(res);
    AsEncoded(COMPOUND_RES, CompoundValue(res), ResponseForm(res));
  }

  lemma {:induction false} ResultsShow(ops: seq<NfsResOp4>)
    requires Fits(ops) && forall i | 0 <= i < |ops| :: ResultForms.BodyFits(ops[i])
    ensures Shows(Vec(RES_OP), ResultsValue(ops), Listed(ops, ResultForm))
  {
    hide Shows, W32, ResArms, ResOpValue, ResultForms.BodyFits, Listed, ResultForms.ResultLayout, StatusCodes,
      IsStatus, ValidUtf8;
    var vs := ResultsValue(ops).vs;
    forall i | 0 <= i < |ops|
      ensures Shows(RES_OP, vs[i], ResultForm(ops[i]))
    {
      ResultForms.ResultShows(ops[i]);
    }
    VecShows(RES_OP, vs, ops, ResultForm);
  }

  // ------------------------------------------------------- what a client writes

  /** A COMPOUND call: program 100003, version 4, procedure 1, no verifier. */
  function CompoundForm(xid: u32, auth: AuthFlavor, args: Compound4args): Form
    requires Short(auth) && ArgsFit(args)
  {
    [W32(xid), W32(0), W32(2), W32(100003), W32(4), W32(1)] + AuthForm(auth) + [W32(0), W32(0)] + ArgsForm(args)
  }

  /** It is written as one record: the flagged length, then the call. */
  lemma {:induction false} CompoundOnWire(line: Line, auth: AuthFlavor, args: Compound4args)
    requires ArgsFit(args) && Short(auth) && line.sends > 0
    ensures var call := Concat(CompoundForm(line.nextXid, auth, args));
      |call| < 0x8000_0000 ==>
        CompoundStep(line, auth, args).0.written == line.written + (W32(0x8000_0000 + |call|) + call)
  {
    hide ArgsFit, Short, W32, AuthForm, ArgsForm, CompoundStep, EncodeArgs, EncodeCall, AnswerOn, Unpack, Frame,
      Unread, Concat;
    RequestSent(line, auth, args);
    ArgsOnWire(args);
    var body := EncodeArgs(args).bytes;
    var call := CompoundCall(line.nextXid, auth, body);
    NoAuthForm();
    CallOnWire(call);
    var head := [W32(line.nextXid), W32(0), W32(2), W32(100003), W32(4), W32(1)] + AuthForm(auth) + [W32(0), W32(0)];
    assert CallForm(call) == head + [body];
    ConcatJoin(head, [body]);
    ConcatJoin(head, ArgsForm(args));
    ConcatOne(body);
    var bytes := EncodeCall(call).bytes;
    if |bytes| < 0x8000_0000 {
      FrameForm(bytes);
      WordShows(0x8000_0000 + |bytes|);
    }
  }

  lemma {:induction false} NoAuthForm()
    ensures Short(NoAuth) && AuthForm(NoAuth) == [W32(0), W32(0)]
  {
  }

  lemma {:induction false} EachJoin(a: seq<NfsArgOp4>, b: seq<NfsArgOp4>)
    requires (forall i | 0 <= i < |a| :: ArgFits(a[i])) && (forall i | 0 <= i < |b| :: ArgFits(b[i]))
    ensures forall i | 0 <= i < |a + b| :: ArgFits((a + b)[i])
    ensures Each(a + b, OpForm) == Each(a, OpForm) + Each(b, OpForm)
  {
    hide OpForm, ArgFits;
    if a == [] {
      assert a + b == b;
    } else {
      assert (a + b)[0] == a[0] && (a + b)[1..] == a[1..] + b;
      EachJoin(a[1..], b);
    }
  }

  lemma {:induction false} EachOne(op: NfsArgOp4)
    requires ArgFits(op)
    ensures Each([op], OpForm) == OpForm(op)
  {
    hide OpForm, ArgFits;
    assert [op][1..] == [] && OpForm(op) + [] == OpForm(op);
  }

  lemma {:induction false} EachTwo(a: NfsArgOp4, b: NfsArgOp4)
    requires ArgFits(a) && ArgFits(b)
    ensures Each([a, b], OpForm) == OpForm(a) + OpForm(b)
  {
    hide OpForm, ArgFits;
    EachOne(a);
    EachOne(b);
    EachJoin([a], [b]);
    assert [a] + [b] == [a, b];
  }

  /** Default channel: 1 MiB requests and responses, 64 KiB of them cached, 64 operations
      and 32 requests. */
  function DefaultForm(): Form {
    [W32(0), W32(1_048_576), W32(1_048_576), W32(65_536), W32(64), W32(32), W32(0)]
  }

  lemma {:induction false} DefaultShows()
    ensures ChannelForm(DEFAULT_CHANNEL) == DefaultForm()
  {
    hide W32;
    assert WordsForm([]) == [W32(0)];
  }

  /** The tags. */
  lemma {:induction false} TagBytes()
    ensures ExchangeTag() == [0x65, 0x78, 0x63, 0x68, 0x61, 0x6E, 0x67, 0x65, 0x5F, 0x69, 0x64]
    ensures CreateTag() == [0x63, 0x72, 0x65, 0x61, 0x74, 0x65, 0x5F, 0x73, 0x65, 0x73, 0x73, 0x69, 0x6F, 0x6E]
    ensures ReclaimTag()
            == [0x72, 0x65, 0x63, 0x6C, 0x61, 0x69, 0x6D, 0x5F, 0x63, 0x6F, 0x6D, 0x70, 0x6C, 0x65, 0x74, 0x65]
    ensures DestroyTag()
            == [0x64, 0x65, 0x73, 0x74, 0x72, 0x6F, 0x79, 0x5F, 0x73, 0x65, 0x73, 0x73, 0x69, 0x6F, 0x6E]
    ensures ResolveTag() == [0x72, 0x65, 0x73, 0x6F, 0x6C, 0x76, 0x65, 0x5F, 0x70, 0x61, 0x74, 0x68]
  {
    hide ValidUtf8;
  }

  /** EXCHANGE_ID, as connect sends it: tag, minor version 1, one operation, flags 0, no
      state protection, no implementation id. */
  lemma {:induction false} ExchangeRequest(owner: ClientOwner4)
    requires Fits(owner.ownerid)
    ensures ArgsFit(ExchangeArgs(owner))
    ensures ArgsForm(ExchangeArgs(owner))
            == [Str(ExchangeTag()), W32(1), W32(1), W32(42), owner.verifier, Str(owner.ownerid), W32(0), W32(0),
                W32(0)]
  {
    hide W32, Str, ExchangeTag, ReclaimTag, DestroyTag, OpForm, ValidUtf8;
    var op := NfsArgOp4.ExchangeId(owner, 0, []);
    EachOne(op);
    ExchangeOpForm(owner);
  }

  lemma {:induction false} ExchangeOpForm(owner: ClientOwner4)
    requires Fits(owner.ownerid)
    ensures ArgFits(NfsArgOp4.ExchangeId(owner, 0, []))
    ensures OpForm(NfsArgOp4.ExchangeId(owner, 0, []))
            == [W32(42), owner.verifier, Str(owner.ownerid), W32(0), W32(0), W32(0)]
  {
    hide W32, Str, ValidUtf8;
    var ids: seq<NfsImplId4> := [];
    assert Each(ids, ImplForm) == [];
  }

  /** CREATE_SESSION: the ids given, flags 0, the default channel both ways, callback
      program 0, one callback without authentication. */
  lemma {:induction false} CreateRequest(clientid: u64, sequence: u32)
    ensures ArgsFit(CreateArgs(clientid, sequence))
    ensures ArgsForm(CreateArgs(clientid, sequence))
            == [Str(CreateTag()), W32(1), W32(1), W32(43), W64(clientid), W32(sequence), W32(0)]
               + DefaultForm() + DefaultForm() + [W32(0), W32(1), W32(0), W32(0)]
  {
    hide W32, W64, Str, CreateTag, OpForm, DefaultForm, ValidUtf8;
    CreateOpForm(clientid, sequence);
    EachOne(NfsArgOp4.CreateSession(clientid, sequence, 0, DEFAULT_CHANNEL, DEFAULT_CHANNEL, 0, [CallbackAuthNone]));
    var op := [W32(43), W64(clientid), W32(sequence), W32(0)] + DefaultForm() + DefaultForm()
      + [W32(0), W32(1), W32(0), W32(0)];
    assert [Str(CreateTag()), W32(1)] + ([W32(1)] + op)
        == [Str(CreateTag()), W32(1), W32(1), W32(43), W64(clientid), W32(sequence), W32(0)]
           + DefaultForm() + DefaultForm() + [W32(0), W32(1), W32(0), W32(0)];
  }

  lemma {:induction false} CreateOpForm(clientid: u64, sequence: u32)
    ensures var op := NfsArgOp4.CreateSession(clientid, sequence, 0, DEFAULT_CHANNEL, DEFAULT_CHANNEL, 0,
                                              [CallbackAuthNone]);
      ArgFits(op)
      && OpForm(op) == [W32(43), W64(clientid), W32(sequence), W32(0)] + DefaultForm() + DefaultForm()
                       + [W32(0), W32(1), W32(0), W32(0)]
  {
    hide W32, W64, DefaultForm, ChannelForm;
    DefaultShows();
    assert [CallbackAuthNone][1..] == [];
    assert Listed([CallbackAuthNone], RequestForms.CallbackForm) == [W32(1), W32(0), W32(0)];
    RegroupedCreate(W32(43), W64(clientid), W32(sequence), W32(0), DefaultForm(), [W32(1), W32(0), W32(0)]);
    assert [W32(0)] + [W32(1), W32(0), W32(0)] == [W32(0), W32(1), W32(0), W32(0)];
  }

  lemma {:induction false} RegroupedCreate(o: seq<byte>, a: seq<byte>, b: seq<byte>, z: seq<byte>, f: Form, g: Form)
    ensures [o] + ([a, b, z] + f + f + [z] + g) == [o, a, b, z] + f + f + ([z] + g)
  {
  }

  lemma {:induction false} SequenceOpForm(id: SessionId4, grant: Grant)
    requires grant.slot < U32_MODULUS
    ensures var op := NfsArgOp4.Sequence(id, grant.sequence, grant.slot, grant.highest, false);
      ArgFits(op)
      && OpForm(op) == [W32(53), id, W32(grant.sequence), W32(grant.slot), W32(grant.highest), W32(0)]
  {
    hide W32;
    WordShows(0);
    assert Truth(false) == W32(0) by { BigEndianBytes(0, 0); }
  }

  /** RECLAIM_COMPLETE behind its SEQUENCE, for all file systems, no cached reply. */
  lemma {:induction false} ReclaimRequest(id: SessionId4, grant: Grant)
    requires grant.slot < U32_MODULUS
    ensures ArgsFit(ReclaimArgs(id, grant))
    ensures ArgsForm(ReclaimArgs(id, grant))
            == [Str(ReclaimTag()), W32(1), W32(2), W32(53), id, W32(grant.sequence), W32(grant.slot),
                W32(grant.highest), W32(0), W32(58), W32(0)]
  {
    hide W32, Str, ExchangeTag, ReclaimTag, DestroyTag, OpForm, ValidUtf8;
    SequenceOpForm(id, grant);
    ShortOpForms(id);
    EachTwo(NfsArgOp4.Sequence(id, grant.sequence, grant.slot, grant.highest, false), NfsArgOp4.ReclaimComplete(false));
  }

  lemma {:induction false} ShortOpForms(id: SessionId4)
    ensures ArgFits(NfsArgOp4.ReclaimComplete(false)) && OpForm(NfsArgOp4.ReclaimComplete(false)) == [W32(58), W32(0)]
    ensures ArgFits(NfsArgOp4.DestroySession(id)) && OpForm(NfsArgOp4.DestroySession(id)) == [W32(44), id]
    ensures ArgFits(NfsArgOp4.PutRootFh) && OpForm(NfsArgOp4.PutRootFh) == [W32(24)]
    ensures ArgFits(NfsArgOp4.GetFh) && OpForm(NfsArgOp4.GetFh) == [W32(10)]
  {
    WordShows(0);
    assert Truth(false) == W32(0) by { BigEndianBytes(0, 0); }
  }

  /** DESTROY_SESSION, of the session given. */
  lemma {:induction false} DestroyRequest(id: SessionId4)
    ensures ArgsFit(DestroyArgs(id))
    ensures ArgsForm(DestroyArgs(id)) == [Str(DestroyTag()), W32(1), W32(1), W32(44), id]
  {
    hide W32, Str, ExchangeTag, ReclaimTag, DestroyTag, OpForm, ValidUtf8;
    ShortOpForms(id);
    EachOne(NfsArgOp4.DestroySession(id));
  }

  /** LOOKUP of a name. */
  function LookupForm(name: Utf8): Form
    requires Fits(name)
  {
    [W32(15), Str(name)]
  }

  lemma {:induction false} LookupsShow(names: seq<Utf8>)
    requires forall i | 0 <= i < |names| :: Fits(names[i])
    ensures |Lookups(names)| == |names| && forall i | 0 <= i < |names| :: ArgFits(Lookups(names)[i])
    ensures Each(Lookups(names), OpForm) == Each(names, LookupForm)
  {
    hide W32, Str, ValidUtf8;
    if names != [] {
      var first := NfsArgOp4.Lookup(names[0]);
      assert Lookups(names) == [first] + Lookups(names[1..]);
      LookupsShow(names[1..]);
      EachOne(first);
      EachJoin([first], Lookups(names[1..]));
    }
  }

  /** resolve_path: SEQUENCE, PUTROOTFH, one LOOKUP for each name in order, GETFH. */
  lemma {:induction false} ResolveRequest(id: SessionId4, grant: Grant, names: seq<Utf8>)
    requires grant.slot < U32_MODULUS && |names| + 3 < 0x1_0000_0000
    requires forall i | 0 <= i < |names| :: Fits(names[i])
    ensures ArgsFit(ResolveArgs(id, grant, names))
    ensures ArgsForm(ResolveArgs(id, grant, names))
            == [Str(ResolveTag()), W32(1), W32(|names| + 3)]
               + [W32(53), id, W32(grant.sequence), W32(grant.slot), W32(grant.highest), W32(0)]
               + [W32(24)] + Each(names, LookupForm) + [W32(10)]
  {
    hide W32, Str, ResolveTag, OpForm, LookupForm, Lookups, ArgFits, ValidUtf8;
    SequenceOpForm(id, grant);
    ShortOpForms(id);
    LookupsShow(names);
    var sequence := NfsArgOp4.Sequence(id, grant.sequence, grant.slot, grant.highest, false);
    EachTwo(sequence, NfsArgOp4.PutRootFh);
    EachOne(NfsArgOp4.GetFh);
    EachJoin([sequence, NfsArgOp4.PutRootFh], Lookups(names));
    EachJoin([sequence, NfsArgOp4.PutRootFh] + Lookups(names), [NfsArgOp4.GetFh]);
    RegroupedResolve(Str(ResolveTag()), W32(1), W32(|names| + 3), OpForm(sequence), [W32(24)],
                     Each(names, LookupForm), [W32(10)]);
  }

  lemma {:induction false} RegroupedResolve(a: seq<byte>, b: seq<byte>, c: seq<byte>, f: Form, g: Form, h: Form,
      k: Form)
    ensures [a, b] + ([c] + (f + g + h + k)) == [a, b, c] + f + g + h + k
  {
  }
}
