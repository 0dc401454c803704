/** The server's replies fit a record, so its conversation with the client can take
    place: what the theorems on path resolution and on a session's life assume of the
    bytes on the line, a server that answers each call in one chunk provides. */
module Feasibility {
  import opened Wire
  import opened Xdr
  import opened XdrStructs
  import opened Rpc
  import RecordMarking
  import opened Transport
  import opened Nfs4Types
  import opened Compound
  import opened SendableResults
  import opened CompoundArgs
  import opened SessionSlots
  import opened NfsClient
  import opened NfsServer
  import opened NfsPath
  import opened Mount
  import opened Options
  import opened EndToEnd
  import opened PathResolution
  import opened SessionLifecycle
  import opened EncodedSize

  // ------------------------------------------------------------ sizes of replies

  const LIGHT: nat := 160
  const MAX_PATH: nat := 60_000

  /** A result of at most 160 bytes. */
  predicate Light(op: NfsResOp4) { Weight(ResOpValue(op)) <= LIGHT }

  /** A response with a short tag and a bounded number of such results. */
  predicate Modest(res: Compound4res) {
    |res.tag| <= 64 && |res.resarray| <= MAX_PATH + 4 && forall i | 0 <= i < |res.resarray| :: Light(res.resarray[i])
  }

  /** A verifier with a body of at most 400 bytes (RFC 5531 section 8.2). */
  predicate ShortVerifier(verf: AuthFlavor) { Short(verf) && |EncodeAuth(verf).bytes| <= 408 }

  lemma {:induction false} PayloadWeight(op: NfsResOp4)
    ensures Weight(ResOpValue(op)) == 4 + Weight(Payload(op))
  {
    hide Payload, StatusCodes, IsStatus, ValidUtf8;
  }

  lemma {:induction false} StatusLight(op: NfsResOp4)
    requires op.PutRootFh? || op.Lookup? || op.DestroySession? || op.ReclaimComplete?
    ensures Light(op)
  {
    hide StatusCodes, IsStatus, ValidUtf8, ResOpValue;
    PayloadWeight(op);
  }

  lemma {:induction false} ResWeight<T>(r: Res<T>, body: T -> Value)
    ensures Weight(ResValue(r, body)) <= 12 + if r.resok.Some? then Weight(body(r.resok.value)) else 0
  {
    hide StatusCodes, IsStatus, ValidUtf8;
    if r.resok.Some? {
      assert Weight(Present(body(r.resok.value))) == 4 + Weight(body(r.resok.value));
    }
  }

  lemma {:induction false} GetFhLight(r: Res<NfsFh4>)
    requires r.resok.Some? ==> |r.resok.value| <= 128
    ensures Light(NfsResOp4.GetFh(r))
  {
    hide StatusCodes, IsStatus, ValidUtf8, ResOpValue, ResValue;
    PayloadWeight(NfsResOp4.GetFh(r));
    ResWeight(r, FhValue);
  }

  lemma {:induction false} SequenceLight(r: Res<Sequence4resok>)
    ensures Light(NfsResOp4.Sequence(r))
  {
    hide StatusCodes, IsStatus, ValidUtf8, ResOpValue, ResValue, V6;
    PayloadWeight(NfsResOp4.Sequence(r));
    ResWeight(r, SequenceValue);
    if r.resok.Some? {
      var x := r.resok.value;
      Weight7(Nil, Data(x.sessionid), Num(x.sequenceid), Num(x.slotid), Num(x.highestSlotid),
              Num(x.targetHighestSlotid), Num(x.statusFlags));
    }
  }

  lemma {:induction false} ExchangeWeight(x: ExchangeId4resok)
    requires x.serverOwner.majorId == [] && x.serverScope == [] && x.serverImplId == []
    ensures Weight(ExchangeIdValue(x)) == 54
  {
    hide HasType, StatusCodes, IsStatus, ValidUtf8, V6, V7;
    assert Weight(SP_NONE) == 4;
    assert Weight(V1(Data([]))) == 7;
    assert Weight(ServerOwnerValue(x.serverOwner)) == 15;
    assert Weight(ImplIdsValue([])) == 4;
    Weight7(Num(x.clientid), Num(x.sequenceid), Num(x.flags), SP_NONE, ServerOwnerValue(x.serverOwner),
            Data(x.serverScope), ImplIdsValue(x.serverImplId));
  }

  lemma {:induction false} ExchangeLight(r: Res<ExchangeId4resok>)
    requires r.resok.Some? ==> Weight(ExchangeIdValue(r.resok.value)) <= 54
    ensures Light(NfsResOp4.ExchangeId(r))
  {
    hide HasType, StatusCodes, IsStatus, ValidUtf8, ResOpValue, ResValue, ExchangeIdValue;
    PayloadWeight(NfsResOp4.ExchangeId(r));
    ResWeight(r, ExchangeIdValue);
  }

  lemma {:induction false} ChannelWeight(c: ChannelAttrs4)
    requires c.rdmaIrd == []
    ensures Weight(ChannelValue(c)) == 52
  {
    hide HasType, StatusCodes, IsStatus, ValidUtf8, V6, V7;
    assert Weight(Words([])) == 4;
    Weight7(Num(c.headerPadSize), Num(c.maxRequestSize), Num(c.maxResponseSize), Num(c.maxResponseSizeCached),
            Num(c.maxOperations), Num(c.maxRequests), Words(c.rdmaIrd));
  }

  lemma {:induction false} CreateWeight(x: CreateSession4resok)
    requires x.foreChanAttrs.rdmaIrd == [] && x.backChanAttrs.rdmaIrd == []
    ensures Weight(CreateSessionValue(x)) == 143
  {
    hide HasType, StatusCodes, IsStatus, ValidUtf8, V5, ChannelValue;
    ChannelWeight(x.foreChanAttrs);
    ChannelWeight(x.backChanAttrs);
    Weight5(Data(x.sessionid), Num(x.sequence), Num(x.flags), ChannelValue(x.foreChanAttrs),
            ChannelValue(x.backChanAttrs));
  }

  lemma {:induction false} CreateLight(r: Res<CreateSession4resok>)
    requires r.resok.Some? ==> Weight(CreateSessionValue(r.resok.value)) <= 143
    ensures Light(NfsResOp4.CreateSession(r))
  {
    hide HasType, StatusCodes, IsStatus, ValidUtf8, ResOpValue, ResValue, CreateSessionValue;
    PayloadWeight(NfsResOp4.CreateSession(r));
    ResWeight(r, CreateSessionValue);
  }

  // ------------------------------------------------------- the server's replies

  lemma {:induction false} HandshakeModest(srv: Server, id: SessionId4, grant: Grant)
    ensures Modest(ExchangeRes(srv)) && Modest(CreateRes(srv)) && Modest(DestroyRes())
    ensures Expects(srv, id, grant) ==> Modest(ReclaimRes(srv, id, grant))
  {
    hide HasType, StatusCodes, IsStatus, ValidUtf8, Light, ExchangeTag, CreateTag, DestroyTag, ReclaimTag, Expects,
      ExchangeIdValue, CreateSessionValue;
    var exchange := ExchangeRes(srv).resarray[0].exchangeId;
    ExchangeWeight(exchange.resok.value);
    ExchangeLight(exchange);
    var create := CreateRes(srv).resarray[0].createSession;
    CreateWeight(create.resok.value);
    CreateLight(create);
    StatusLight(NfsResOp4.DestroySession(NFS4_OK));
    StatusLight(NfsResOp4.ReclaimComplete(NFS4_OK));
    if Expects(srv, id, grant) {
      SequenceLight(SequenceOk(srv, id, grant).sequence);
    }
  }

  lemma {:induction false} WalkLight(root: Node, names: seq<Utf8>)
    requires ShortHandles(root)
    ensures |WalkResults(root, names)| <= |names| + 1
    ensures forall i | 0 <= i < |WalkResults(root, names)| :: Light(WalkResults(root, names)[i])
  {
    hide HasType, StatusCodes, IsStatus, ValidUtf8, Light;
    StatusLight(NfsResOp4.Lookup(NFS4_OK));
    WalkShort(root, names);
    match Walk(root, names)
    case Reached(n) =>
      GetFhLight(if n.Locked? then Res(n.why, None) else Res(NFS4_OK, Some(n.fh)));
    case Stopped(_, why) =>
      StatusLight(NfsResOp4.Lookup(why));
  }

  /** The reply to a path resolution fits a record, whatever the server's state. */
  lemma {:induction false} ResolveModest(srv: Server, id: SessionId4, grant: Grant, names: seq<Utf8>)
    requires grant.slot < U32_MODULUS && ShortHandles(srv.root) && |names| <= MAX_PATH + 1
    ensures Modest(Serve(srv, ResolveArgs(id, grant, names)).1)
  {
    hide HasType, StatusCodes, IsStatus, ValidUtf8, Light, Serve, ResolveArgs, ResolveTag, WalkResults,
      ShortHandles, Expects, SequenceVerdict;
    if Expects(srv, id, grant) {
      ServeWalks(srv, id, grant, names);
      WalkLight(srv.root, names);
      SequenceLight(SequenceOk(srv, id, grant).sequence);
      StatusLight(NfsResOp4.PutRootFh(NFS4_OK));
    } else {
      ServeRefuses(srv, id, grant, names);
      SequenceLight(Res(SequenceVerdict(srv, id, grant), None));
    }
  }

  lemma {:induction false} ResponseSize(res: Compound4res)
    requires Modest(res)
    ensures |EncodeCompound(res).bytes| <= 83 + (LIGHT + 4) * |res.resarray|
  {
    hide HasType, Encode, ResOpValue, StatusCodes, IsStatus, ValidUtf8, V3;
    SizeBound(COMPOUND_RES, CompoundValue(res));
    CompoundValueIs(res);
    var vs := ResultsValue(res.resarray).vs;
    Weight3(Num(res.status), Data(res.tag), ResultsValue(res.resarray));
    forall i | 0 <= i < |vs|
      ensures Weight(vs[i]) <= LIGHT
    {
      assert vs[i] == ResOpValue(res.resarray[i]);
      assert Light(res.resarray[i]);
    }
    WeightOfMany(vs, LIGHT);
  }

  lemma {:induction false} ReplyLength(xid: u32, verf: AuthFlavor, res: Compound4res)
    requires EncodeReply(ReplyWith(xid, verf, res)).Wrote?
    ensures |ReplyBytes(xid, verf, res)| == 16 + |EncodeAuth(verf).bytes| + |EncodeCompound(res).bytes|
  {
    hide EncodeCompound, EncodeAuth, BigEndian32;
  }

  /** The reply to such a response fits a record. */
  lemma {:induction false} ReplyFits(xid: u32, verf: AuthFlavor, res: Compound4res)
    requires Modest(res) && Sendable(res) && ShortVerifier(verf)
    ensures |ReplyBytes(xid, verf, res)| <= RecordMarking.MAX_RECORD_SIZE
  {
    hide Sendable, EncodeCompound, DecodeCompound, EncodeAuth, DecodeReply, Short, Light, ReplyBytes, EncodeReply;
    ResponseSize(res);
    Encodable(xid, verf, res);
    ReplyLength(xid, verf, res);
  }

  lemma {:induction false} ResolveReplyFits(xid: u32, verf: AuthFlavor, srv: Server, id: SessionId4, grant: Grant,
                                            path: Utf8)
    requires grant.slot < U32_MODULUS && ShortHandles(srv.root) && |path| <= MAX_PATH && ShortVerifier(verf)
    ensures var res := Serve(srv, ResolveArgs(id, grant, Names(path))).1;
      Sendable(res) && |ReplyBytes(xid, verf, res)| <= RecordMarking.MAX_RECORD_SIZE
  {
    hide Serve, ResolveArgs, ShortHandles, Sendable, Modest, ReplyBytes, EncodeAuth, ToNfsComponents, StatusCodes,
      IsStatus, ValidUtf8;
    ComponentSizes(path);
    AnySendable(srv, id, grant, Names(path));
    ResolveModest(srv, id, grant, Names(path));
    ReplyFits(xid, verf, Serve(srv, ResolveArgs(id, grant, Names(path))).1);
  }

  // --------------------------------------------------- one call, one chunk

  function Hearing(line: Line, chunks: seq<seq<byte>>): Line { line.(chunks := chunks) }

  /** The server's reply to the next call, in one piece. */
  function OneChunk(line: Line, verf: AuthFlavor, res: Compound4res): seq<seq<byte>> {
    [RecordMarking.Frame(ReplyBytes(line.nextXid, verf, res))]
  }

  lemma {:induction false} OneChunkComes(line: Line, verf: AuthFlavor, res: Compound4res, rest: seq<seq<byte>>)
    requires |ReplyBytes(line.nextXid, verf, res)| <= RecordMarking.MAX_RECORD_SIZE && line.sends > 0
    ensures ComesNext(Hearing(line, OneChunk(line, verf, res) + rest), verf, res, OneChunk(line, verf, res), rest)
  {
    hide ReplyBytes;
    var bytes := ReplyBytes(line.nextXid, verf, res);
    var frame := RecordMarking.Frame(bytes);
    assert |frame| >= 4;
    assert Concat([frame]) == frame + Concat([]);
    assert frame + [] == frame;
  }

  /** What a call sends does not depend on what it hears; hearing the reply, it
      returns the response and leaves what comes after. */
  lemma {:induction false} Heard(line: Line, auth: AuthFlavor, args: Compound4args, verf: AuthFlavor,
      res: Compound4res, rest: seq<seq<byte>>)
    requires ArgsFit(args) && Short(auth) && Sendable(res) && Short(verf)
    requires |ReplyBytes(line.nextXid, verf, res)| <= RecordMarking.MAX_RECORD_SIZE && line.sends > 0
    ensures CompoundStep(line, auth, args).0.sends == line.sends - 1
    ensures var hearing, chunk := Hearing(line, OneChunk(line, verf, res) + rest), OneChunk(line, verf, res);
      && ComesNext(hearing, verf, res, chunk, rest)
      && CompoundStep(hearing, auth, args) == (Hearing(CompoundStep(line, auth, args).0, rest), Outcome.Done(res))
  {
    hide ArgsFit, Short, Sendable, ReplyBytes, OneChunk, ComesNext, CompoundStep, RecordMarking.Frame, EncodeCall,
      EncodeArgs, AnswerOn, Unpack, Unread, Incoming;
    var chunk := OneChunk(line, verf, res);
    OneChunkComes(line, verf, res, rest);
    Exchanged(Hearing(line, chunk + rest), auth, args, verf, res, chunk, rest);
    RequestSent(line, auth, args);
    RequestSent(Hearing(line, chunk + rest), auth, args);
  }

  // ------------------------------------------------------------- resolutions

  function Listening(st: ClientState, chunks: seq<seq<byte>>): (heard: ClientState)
    ensures st.Valid() ==> heard.Valid()
  {
    st.(line := Hearing(st.line, chunks))
  }

  lemma {:induction false} StepHeard(st: ClientState, srv: Server, auth: AuthFlavor, verf: AuthFlavor, path: Utf8,
                                     rest: seq<seq<byte>>)
    requires st.Valid() && st.session.Some? && st.session.value.slots.Alloc().1.Some?
    requires ShortHandles(srv.root) && |path| <= MAX_PATH && Short(auth) && ShortVerifier(verf) && st.line.sends > 0
    ensures ResolveStep(st, auth, path).0.line.sends == st.line.sends - 1
    ensures var chunk := OneChunk(st.line, verf, ServedNext(st, srv, path).1);
      var hearing := Listening(st, chunk + rest);
      && ReplyArrives(hearing, srv, path, verf, chunk, rest)
      && ResolveStep(hearing, auth, path).0 == Listening(ResolveStep(st, auth, path).0, rest)
  {
    hide Slots.Alloc, Slots.Release, Serve, ResolveArgs, ShortHandles, Sendable, ReplyBytes, EncodeAuth, Short,
      OneChunk, ComesNext, CompoundStep, TakeHandle, ArgsFit, Names, StatusCodes, IsStatus, ValidUtf8;
    var s := st.session.value;
    var grant := s.slots.Alloc().1.value;
    var args := ResolveArgs(s.sessionId, grant, Names(path));
    ResolveReplyFits(st.line.nextXid, verf, srv, s.sessionId, grant, path);
    RequestFits(s.sessionId, grant, path);
    Heard(st.line, auth, args, verf, ServedNext(st, srv, path).1, rest);
  }

  /** The server's replies to a run of resolutions. */
  function RepliesTo(st: ClientState, srv: Server, auth: AuthFlavor, verf: AuthFlavor, paths: seq<Utf8>)
    : (cuts: seq<seq<seq<byte>>>)
    requires st.Valid()
    decreases |paths|
  {
    hide ResolveStep, Slots.Alloc, ServedNext, OneChunk;
    if paths == [] || st.session.None? || st.session.value.slots.Alloc().1.None? then []
    else
      var (srv', res) := ServedNext(st, srv, paths[0]);
      [OneChunk(st.line, verf, res)] + RepliesTo(ResolveStep(st, auth, paths[0]).0, srv', auth, verf, paths[1..])
  }

  /** Such a server answers every one of them, whatever its state. */
  lemma {:induction false} AnswersCanArrive(st: ClientState, srv: Server, auth: AuthFlavor, verf: AuthFlavor,
                                            paths: seq<Utf8>, rest: seq<seq<byte>>)
    requires st.Valid() && st.session.Some? && false in st.session.value.slots.inUse
    requires ShortHandles(srv.root) && Short(auth) && ShortVerifier(verf) && st.line.sends >= |paths|
    requires forall i | 0 <= i < |paths| :: |paths[i]| <= MAX_PATH
    ensures ResolveAll(st, auth, paths).0.line.sends == st.line.sends - |paths|
    ensures var cuts := RepliesTo(st, srv, auth, verf, paths);
      var hearing := Listening(st, Joined(cuts) + rest);
      && Answers(hearing, srv, auth, verf, paths, cuts, rest)
      && ResolveAll(hearing, auth, paths).0 == Listening(ResolveAll(st, auth, paths).0, rest)
    decreases |paths|
  {
    hide ResolveStep, Slots.Alloc, ServedNext, ReplyArrives, OneChunk, ShortHandles, Short, EncodeAuth, Expects,
      SequenceVerdict, WalkOutcome, Names, StatusCodes, IsStatus, ValidUtf8;
    var cuts := RepliesTo(st, srv, auth, verf, paths);
    if paths == [] {
      assert Joined(cuts) + rest == rest;
    } else {
      SlotGivenBack(st.session.value.slots);
      var (srv', res) := ServedNext(st, srv, paths[0]);
      var st' := ResolveStep(st, auth, paths[0]).0;
      var cuts' := RepliesTo(st', srv', auth, verf, paths[1..]);
      var later := Joined(cuts') + rest;
      var chunk := OneChunk(st.line, verf, res);
      assert cuts == [chunk] + cuts' && cuts[1..] == cuts';
      assert Joined(cuts) + rest == chunk + later;
      StepHeard(st, srv, auth, verf, paths[0], later);
      SameServed(st, chunk + later, srv, paths[0]);
      ResolveAnyServer(Listening(st, chunk + later), srv, auth, paths[0], verf, chunk, later);
      AnswersCanArrive(st', srv', auth, verf, paths[1..], rest);
    }
  }

  lemma {:induction false} SameServed(st: ClientState, chunks: seq<seq<byte>>, srv: Server, path: Utf8)
    requires st.Valid() && st.session.Some? && st.session.value.slots.Alloc().1.Some?
    ensures ServedNext(Listening(st, chunks), srv, path) == ServedNext(st, srv, path)
  {
    hide Slots.Alloc, Serve, ResolveArgs, Names;
  }

  // ------------------------------------------------------------ a whole life

  lemma {:induction false} ModestHeard(line: Line, auth: AuthFlavor, args: Compound4args, verf: AuthFlavor,
                                       res: Compound4res, rest: seq<seq<byte>>)
    requires ArgsFit(args) && Short(auth) && Sendable(res) && Modest(res) && ShortVerifier(verf) && line.sends > 0
    ensures CompoundStep(line, auth, args).0.sends == line.sends - 1
    ensures var hearing, chunk := Hearing(line, OneChunk(line, verf, res) + rest), OneChunk(line, verf, res);
      && ComesNext(hearing, verf, res, chunk, rest)
      && CompoundStep(hearing, auth, args) == (Hearing(CompoundStep(line, auth, args).0, rest), Outcome.Done(res))
  {
    hide ArgsFit, Short, Sendable, Modest, EncodeAuth, ReplyBytes, OneChunk, ComesNext, CompoundStep;
    ReplyFits(line.nextXid, verf, res);
    Heard(line, auth, args, verf, res, rest);
  }

  /** The three calls of the handshake, as they follow one another on a line. */
  function Second(line: Line, auth: AuthFlavor, owner: ClientOwner4): Line {
    hide CompoundStep, ExchangeArgs;
    CompoundStep(line, auth, ExchangeArgs(owner)).0
  }

  function Third(line: Line, srv: Server, auth: AuthFlavor, owner: ClientOwner4): Line {
    hide CompoundStep, CreateArgs, Second;
    CompoundStep(Second(line, auth, owner), auth, CreateArgs(srv.clientid, 1)).0
  }

  /** The client the handshake makes. */
  function Made(line: Line, srv: Server, auth: AuthFlavor, owner: ClientOwner4): ClientState {
    hide CompoundStep, ReclaimArgs, Third;
    ClientState(CompoundStep(Third(line, srv, auth, owner), auth, ReclaimArgs(srv.nextId, FirstSlot(srv.slots))).0,
                Some(SessionState(srv.nextId, srv.clientid, Fresh(srv.slots).Alloc().0.Release(0))))
  }

  lemma {:induction false} HandshakeCanArrive(st: ClientState, srv: Server, auth: AuthFlavor, owner: ClientOwner4,
                                              verf: AuthFlavor, rest: seq<seq<byte>>)
    requires srv.slots > 0 && Fits(owner.ownerid) && Short(auth) && ShortVerifier(verf) && st.line.sends >= 3
    ensures Made(st.line, srv, auth, owner).line.sends == st.line.sends - 3
    ensures var shaken := Shake(srv, owner);
      var c1 := OneChunk(st.line, verf, shaken.exchange);
      var c2 := OneChunk(Second(st.line, auth, owner), verf, shaken.create);
      var c3 := OneChunk(Third(st.line, srv, auth, owner), verf, shaken.reclaim);
      var hearing := Listening(st, c1 + (c2 + (c3 + rest)));
      && HandshakeArrives(hearing.line, srv, auth, owner, verf, c1, c2, c3, rest)
      && ConnectStep(hearing, auth, owner).0 == Listening(Made(st.line, srv, auth, owner), rest)
  {
    hide ArgsFit, Short, Sendable, Modest, EncodeAuth, OneChunk, ComesNext, CompoundStep, Shake, ExchangeArgs,
      CreateArgs, ReclaimArgs, ExchangeRes, CreateRes, ReclaimRes, Expects, ExchangeReply, CreateReply, StatusReply,
      Slots.Alloc, Slots.Release, Fresh, StatusCodes, IsStatus, ValidUtf8;
    var grant := FirstSlot(srv.slots);
    HandshakeServed(srv, owner);
    HandshakeFits(srv, owner, srv.nextId, grant);
    HandshakeSendable(srv, srv.nextId, grant);
    HandshakeSendable(WithSession(srv), srv.nextId, grant);
    HandshakeModest(srv, srv.nextId, grant);
    HandshakeModest(WithSession(srv), srv.nextId, grant);
    var shaken := Shake(srv, owner);
    var line2, line3 := Second(st.line, auth, owner), Third(st.line, srv, auth, owner);
    var c2, c3 := OneChunk(line2, verf, shaken.create), OneChunk(line3, verf, shaken.reclaim);
    ModestHeard(st.line, auth, ExchangeArgs(owner), verf, shaken.exchange, c2 + (c3 + rest));
    ModestHeard(line2, auth, CreateArgs(srv.clientid, 1), verf, shaken.create, c3 + rest);
    ModestHeard(line3, auth, ReclaimArgs(srv.nextId, grant), verf, shaken.reclaim, rest);
    RepliesRead(srv);
    FirstGrant(srv.slots);
  }

  lemma {:induction false} MadeInStep(line: Line, srv: Server, auth: AuthFlavor, owner: ClientOwner4)
    requires srv.slots > 0
    ensures var made := Made(line, srv, auth, owner);
      && made.session.Some? && made.session.value.sessionId == srv.nextId
      && made.Valid() && InStep(made.session.value, Connected(srv)) && false in made.session.value.slots.inUse
  {
    hide CompoundStep, ReclaimArgs, Third, Connected, InStep, Slots.Alloc, Slots.Release, Fresh;
    FirstGrant(srv.slots);
    UsedOnceSize(srv.slots);
    StartsInStep(srv, Made(line, srv, auth, owner).session.value);
    assert !Made(line, srv, auth, owner).session.value.slots.inUse[0];
  }

  /** The server's side of a life: one chunk for each call. */
  function LifeReplies(st: ClientState, srv: Server, auth: AuthFlavor, owner: ClientOwner4, verf: AuthFlavor,
                       paths: seq<Utf8>): Cuts
    requires srv.slots > 0
  {
    hide Made, Second, Third, OneChunk, RepliesTo, ResolveAll, Shake, DestroyRes, InStep, Connected;
    MadeInStep(st.line, srv, auth, owner);
    var shaken, made := Shake(srv, owner), Made(st.line, srv, auth, owner);
    Cuts(OneChunk(st.line, verf, shaken.exchange), OneChunk(Second(st.line, auth, owner), verf, shaken.create),
         OneChunk(Third(st.line, srv, auth, owner), verf, shaken.reclaim),
         RepliesTo(made, shaken.server, auth, verf, paths),
         OneChunk(ResolveAll(made, auth, paths).0.line, verf, DestroyRes()))
  }

  function InOrder(cuts: Cuts, rest: seq<seq<byte>>): seq<seq<byte>> {
    cuts.exchange + (cuts.create + (cuts.reclaim + (Joined(cuts.resolve) + (cuts.destroy + rest))))
  }

  lemma {:induction false} LifeCanArrive(st: ClientState, srv: Server, auth: AuthFlavor, owner: ClientOwner4,
                                         verf: AuthFlavor, paths: seq<Utf8>, rest: seq<seq<byte>>)
    requires st.Valid() && srv.slots > 0 && Fits(owner.ownerid) && Short(auth) && ShortVerifier(verf)
    requires ShortHandles(srv.root) && forall i | 0 <= i < |paths| :: |paths[i]| <= MAX_PATH
    requires st.line.sends >= |paths| + 4
    ensures var cuts := LifeReplies(st, srv, auth, owner, verf, paths);
      LifeArrives(Listening(st, InOrder(cuts, rest)), srv, auth, owner, verf, paths, cuts, rest)
  {
    hide ArgsFit, Short, EncodeAuth, OneChunk, ComesNext, CompoundStep, Shake, DestroyArgs, DestroyRes, Fits,
      ShortHandles, InStep, Connected, ConnectStep, ResolveAll, Answers, HandshakeArrives, Made, Second, Third,
      RepliesTo, Serve, WalkOutcome, Names, Sendable, Modest, ServerEnd, StatusCodes, IsStatus, ValidUtf8;
    var shaken, made := Shake(srv, owner), Made(st.line, srv, auth, owner);
    var cuts := LifeReplies(st, srv, auth, owner, verf, paths);
    var later := cuts.destroy + rest;
    HandshakeServed(srv, owner);
    ConnectedRoot(srv);
    MadeInStep(st.line, srv, auth, owner);
    HandshakeCanArrive(st, srv, auth, owner, verf, Joined(cuts.resolve) + later);
    AnswersCanArrive(made, shaken.server, auth, verf, paths, later);
    var st1 := Listening(made, Joined(cuts.resolve) + later);
    ResolutionsAreWalks(st1, shaken.server, auth, verf, paths, cuts.resolve, later);
    var end := ResolveAll(made, auth, paths).0;
    LastReply(end.line, verf, srv, end.session.value,
              ServerEnd(st1, shaken.server, auth, verf, paths, cuts.resolve, later), rest);
  }

  lemma {:induction false} LastReply(line: Line, verf: AuthFlavor, srv: Server, s: SessionState, end: Server,
                                     rest: seq<seq<byte>>)
    requires InStep(s, end) && s.sessionId == srv.nextId && ShortVerifier(verf) && line.sends > 0
    ensures ComesNext(Hearing(line, OneChunk(line, verf, DestroyRes()) + rest), verf,
                      Serve(end, DestroyArgs(srv.nextId)).1, OneChunk(line, verf, DestroyRes()), rest)
  {
    hide EncodeAuth, Short, OneChunk, ComesNext, DestroyArgs, DestroyRes, Sendable, Modest, Serve, ReplyBytes;
    ServeDestroy(end, srv.nextId);
    HandshakeSendable(srv, srv.nextId, FirstSlot(1));
    HandshakeModest(srv, srv.nextId, FirstSlot(1));
    ReplyFits(line.nextXid, verf, DestroyRes());
    OneChunkComes(line, verf, DestroyRes(), rest);
  }

  /** A client that connects to such a server, resolves any paths and disconnects
      succeeds at every step, and every answer is the walk down the server's tree. */
  lemma {:induction false} LifeHappens(st: ClientState, srv: Server, auth: AuthFlavor, owner: ClientOwner4,
                                       verf: AuthFlavor, paths: seq<Utf8>)
    requires st.Valid() && srv.slots > 0 && Fits(owner.ownerid) && Short(auth) && ShortVerifier(verf)
    requires ShortHandles(srv.root) && forall i | 0 <= i < |paths| :: |paths[i]| <= MAX_PATH
    requires st.line.sends >= |paths| + 4
    ensures var cuts := LifeReplies(st, srv, auth, owner, verf, paths);
      var life := Life(Listening(st, InOrder(cuts, [])), auth, owner, paths);
      Succeeds(life, srv.root, paths) && life.end.line.chunks == []
  {
    hide Life, Succeeds, LifeReplies, LifeArrives, InOrder, WalkOutcome, Names, ShortHandles, Short, EncodeAuth,
      Fits, StatusCodes, IsStatus, ValidUtf8, ServerAtEnd;
    var cuts := LifeReplies(st, srv, auth, owner, verf, paths);
    LifeCanArrive(st, srv, auth, owner, verf, paths, []);
    WholeLife(Listening(st, InOrder(cuts, [])), srv, auth, owner, verf, paths, cuts, []);
  }
}
