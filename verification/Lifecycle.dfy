/** The session from connect to disconnect: what the handshake leaves behind in
    every case, and a whole life against the server. */
module SessionLifecycle {
  import opened Wire
  import opened Xdr
  import opened XdrStructs
  import opened Rpc
  import RecordMarking
  import opened Transport
  import opened Nfs4Types
  import opened Compound
  import opened SendableResults
  import opened CompoundArgs
  import opened SessionSlots
  import opened SlotProtocol
  import opened NfsClient
  import opened NfsServer
  import opened Mount
  import opened Options
  import opened EndToEnd
  import opened PathResolution

  // ------------------------------------------------ the handshake, in any case

  /** The answer to the third call of the handshake, if it comes to that. */
  function ReclaimAnswer(st: ClientState, auth: AuthFlavor, owner: ClientOwner4): Option<Outcome<Compound4res>> {
    hide CompoundStep, Negotiate, ReclaimArgs, Slots.Alloc;
    var (line, terms) := Negotiate(st.line, auth, owner);
    if terms.Fault? then None
    else
      match Fresh(terms.value.maxSlots).Alloc().1
      case None => None
      case Some(grant) => Some(CompoundStep(line, auth, ReclaimArgs(terms.value.sessionId, grant)).1)
  }

  /** A table whose slots are all free, the first used once. */
  predicate UsedOnce(s: Slots) {
    && 0 < |s.inUse| == |s.sequence|
    && (forall k | 0 <= k < |s.inUse| :: !s.inUse[k])
    && s.sequence[0] == 2 && forall k | 1 <= k < |s.sequence| :: s.sequence[k] == 1
  }

  lemma {:induction false} FirstGrant(n: u32)
    ensures var (taken, grant) := Fresh(n).Alloc();
      if n == 0 then grant.None? && taken == Fresh(n)
      else
        && grant == Some(Grant(0, 1, Highest(n)))
        && |taken.inUse| == n && taken.inUse[0]
        && UsedOnce(taken.Release(0))
  {
    if n > 0 {
      assert !Fresh(n).inUse[0];
    }
  }

  /** A new session comes out of connect with a slot still taken exactly when the
      third call fails on the way; connect then reports that failure. */
  lemma {:induction false} ConnectLeaksIff(st: ClientState, auth: AuthFlavor, owner: ClientOwner4)
    requires st.session.None?
    ensures var (st', r) := ConnectStep(st, auth, owner);
      var leaks := st'.session.Some? && true in st'.session.value.slots.inUse;
      && (leaks <==> ReclaimAnswer(st, auth, owner).Some? && ReclaimAnswer(st, auth, owner).value.Fault?)
      && (leaks ==> r.Fault?)
  {
    hide CompoundStep, Negotiate, ReclaimArgs, StatusReply, Slots.Alloc, Slots.Release, Fresh, StatusCodes,
      IsStatus, ValidUtf8;
    var terms := Negotiate(st.line, auth, owner).1;
    if terms.Done? {
      FirstGrant(terms.value.maxSlots);
      if terms.value.maxSlots == 0 {
        AllFree(0);
      }
    }
  }

  lemma {:induction false} AllFree(n: u32)
    ensures true !in Fresh(n).inUse
  {
  }

  predicate OkButEmpty(answer: Outcome<Compound4res>) {
    answer.Done? && answer.value.status == NFS4_OK && answer.value.resarray == []
  }

  /** Connect aborts exactly when the answer to its first call, or to its second, has
      status Ok and no results. */
  lemma {:induction false} ConnectAbortsIff(st: ClientState, auth: AuthFlavor, owner: ClientOwner4)
    ensures ConnectStep(st, auth, owner).1 == Fault(Aborted) <==>
            var (line1, answer1) := CompoundStep(st.line, auth, ExchangeArgs(owner));
            || OkButEmpty(answer1)
            || (ExchangeReply(answer1).Done?
                && var exchange := ExchangeReply(answer1).value;
                OkButEmpty(CompoundStep(line1, auth, CreateArgs(exchange.clientid, exchange.sequenceid)).1))
  {
    hide CompoundStep, ExchangeArgs, CreateArgs, ReclaimArgs, ExchangeReply, CreateReply, StatusReply, Slots.Alloc,
      Slots.Release, Fresh, OkButEmpty, StatusCodes, IsStatus, ValidUtf8;
    var (line1, answer1) := CompoundStep(st.line, auth, ExchangeArgs(owner));
    CallNeverAborts(st.line, auth, ExchangeArgs(owner));
    ReplyAbortedIff(answer1);
    if ExchangeReply(answer1).Done? {
      var exchange := ExchangeReply(answer1).value;
      var args2 := CreateArgs(exchange.clientid, exchange.sequenceid);
      var (line2, answer2) := CompoundStep(line1, auth, args2);
      CallNeverAborts(line1, auth, args2);
      ReplyAbortedIff(answer2);
      if CreateReply(answer2).Done? {
        var grant := Fresh(CreateReply(answer2).value.foreChanAttrs.maxRequests).Alloc().1;
        if grant.Some? {
          var args3 := ReclaimArgs(CreateReply(answer2).value.sessionid, grant.value);
          CallNeverAborts(line2, auth, args3);
          ReplyAbortedIff(CompoundStep(line2, auth, args3).1);
        }
      }
    }
  }

  lemma {:induction false} CallNeverAborts(line: Line, auth: AuthFlavor, args: Compound4args)
    ensures CompoundStep(line, auth, args).1 != Fault(Aborted)
  {
    hide EncodeArgs, CallStep, DecodeCompound;
  }

  lemma {:induction false} ReplyAbortedIff(answer: Outcome<Compound4res>)
    requires answer != Fault(Aborted)
    ensures ExchangeReply(answer) == Fault(Aborted) <==> OkButEmpty(answer)
    ensures CreateReply(answer) == Fault(Aborted) <==> OkButEmpty(answer)
    ensures StatusReply(answer) != Fault(Aborted)
  {
    hide StatusCodes, IsStatus, ValidUtf8;
  }

  /** What connect and disconnect leave: after success a session whose slots are all
      free; a failure of the first two calls leaves the old session; disconnect ends
      the session exactly when its call is answered, whatever the answer. */
  lemma {:induction false} ConnectOutcome(st: ClientState, auth: AuthFlavor, owner: ClientOwner4)
    ensures var (st', r) := ConnectStep(st, auth, owner);
      && (r.Done? ==> st'.session.Some? && UsedOnce(st'.session.value.slots))
      && (st'.session != st.session && ReclaimAnswer(st, auth, owner).None? ==>
            r == Fault(NoSession) && st'.session.Some? && st'.session.value.slots == Fresh(0))
  {
    hide CompoundStep, Negotiate, ReclaimArgs, StatusReply, Slots.Alloc, Slots.Release, Fresh, UsedOnce,
      StatusCodes, IsStatus, ValidUtf8;
    var terms := Negotiate(st.line, auth, owner).1;
    if terms.Done? {
      FirstGrant(terms.value.maxSlots);
    }
  }

  lemma {:induction false} DisconnectOutcome(st: ClientState, auth: AuthFlavor)
    ensures var (st', r) := DisconnectStep(st, auth);
      && (st.session.None? ==> st' == st && r == Fault(NoSession))
      && (st.session.Some? ==>
            var answer := CompoundStep(st.line, auth, DestroyArgs(st.session.value.sessionId)).1;
            && (st'.session.None? <==> answer.Done?)
            && (st'.session.Some? ==> st'.session == st.session && r == Fault(answer.error))
            && (r.Done? <==> answer.Done? && answer.value.status == NFS4_OK))
  {
    hide CompoundStep, DestroyArgs, StatusCodes, IsStatus, ValidUtf8;
  }

  // ---------------------------------------------------- against the server

  function ExchangeRes(srv: Server): Compound4res {
    Compound4res(NFS4_OK, ExchangeTag(), [NfsResOp4.ExchangeId(Res(NFS4_OK, Some(
      ExchangeId4resok(srv.clientid, 1, 0, ServerOwner4(0, []), [], []))))])
  }

  function CreateRes(srv: Server): Compound4res {
    Compound4res(NFS4_OK, CreateTag(), [NfsResOp4.CreateSession(Res(NFS4_OK, Some(
      CreateSession4resok(srv.nextId, 1, 0, DEFAULT_CHANNEL.(maxRequests := srv.slots), DEFAULT_CHANNEL))))])
  }

  /** The server with the session it has just created. */
  function WithSession(srv: Server): Server {
    srv.(session := Some(ServerSession(srv.nextId, seq(srv.slots, _ => 0))))
  }

  function ReclaimRes(srv: Server, id: SessionId4, grant: Grant): Compound4res
    requires Expects(srv, id, grant)
  {
    Compound4res(NFS4_OK, ReclaimTag(), [SequenceOk(srv, id, grant), NfsResOp4.ReclaimComplete(NFS4_OK)])
  }

  function DestroyRes(): Compound4res {
    Compound4res(NFS4_OK, DestroyTag(), [NfsResOp4.DestroySession(NFS4_OK)])
  }

  lemma {:induction false} ServeExchange(srv: Server, owner: ClientOwner4)
    ensures Serve(srv, ExchangeArgs(owner)) == (srv, ExchangeRes(srv))
  {
    hide Run, ExchangeTag, StatusCodes, IsStatus, ValidUtf8;
    RunLast(srv, None, NfsArgOp4.ExchangeId(owner, 0, []));
  }

  lemma {:induction false} ServeCreate(srv: Server)
    ensures Serve(srv, CreateArgs(srv.clientid, 1)) == (WithSession(srv), CreateRes(srv))
  {
    hide Run, CreateTag, StatusCodes, IsStatus, ValidUtf8;
    RunLast(srv, None, NfsArgOp4.CreateSession(srv.clientid, 1, 0, DEFAULT_CHANNEL, DEFAULT_CHANNEL, 0,
                                               [CallbackAuthNone]));
  }

  lemma {:induction false} ServeReclaim(srv: Server, id: SessionId4, grant: Grant)
    requires Expects(srv, id, grant)
    ensures Serve(srv, ReclaimArgs(id, grant)) == (AfterSequence(srv, grant), ReclaimRes(srv, id, grant))
  {
    hide Run, Do, ReclaimTag, Judge, AfterSequence, SequenceOk, StatusIn, StatusCodes, IsStatus, ValidUtf8;
    SequenceAccepted(srv, id, grant);
    var sequence := NfsArgOp4.Sequence(id, grant.sequence, grant.slot, grant.highest, false);
    ReclaimDone(AfterSequence(srv, grant));
    RunLast(AfterSequence(srv, grant), None, NfsArgOp4.ReclaimComplete(false));
    RunGoesOn(srv, None, sequence, [NfsArgOp4.ReclaimComplete(false)]);
    assert [sequence] + [NfsArgOp4.ReclaimComplete(false)] == [sequence, NfsArgOp4.ReclaimComplete(false)];
    assert [SequenceOk(srv, id, grant)] + [NfsResOp4.ReclaimComplete(NFS4_OK)]
        == [SequenceOk(srv, id, grant), NfsResOp4.ReclaimComplete(NFS4_OK)];
  }

  lemma {:induction false} ReclaimDone(srv: Server)
    ensures Do(srv, None, NfsArgOp4.ReclaimComplete(false))
            == NfsServer.Done(srv, None, NfsResOp4.ReclaimComplete(NFS4_OK))
    ensures StatusIn(NfsResOp4.ReclaimComplete(NFS4_OK)) == NFS4_OK
  {
    hide DoLookup, DoGetFh, DoCreateSession, DoDestroySession, DoSequence, StatusCodes, IsStatus;
  }

  lemma {:induction false} ServeDestroy(srv: Server, id: SessionId4)
    requires srv.session.Some? && srv.session.value.id == id
    ensures Serve(srv, DestroyArgs(id)) == (srv.(session := None), DestroyRes())
  {
    hide Run, DestroyTag, StatusCodes, IsStatus, ValidUtf8;
    RunLast(srv, None, NfsArgOp4.DestroySession(id));
  }

  lemma {:induction false} HandshakeSendable(srv: Server, id: SessionId4, grant: Grant)
    ensures Sendable(ExchangeRes(srv)) && Sendable(CreateRes(srv)) && Sendable(DestroyRes())
    ensures Expects(srv, id, grant) ==> Sendable(ReclaimRes(srv, id, grant))
  {
    hide StatusCodes, IsStatus, ValidUtf8, ExchangeTag, CreateTag, DestroyTag, ReclaimTag, SequenceOk, Expects;
    if Expects(srv, id, grant) {
      HeadReadable(srv, id, grant);
    }
  }

  lemma {:induction false} HandshakeFits(srv: Server, owner: ClientOwner4, id: SessionId4, grant: Grant)
    requires Fits(owner.ownerid) && grant.slot < U32_MODULUS
    ensures ArgsFit(ExchangeArgs(owner)) && ArgsFit(CreateArgs(srv.clientid, 1))
    ensures ArgsFit(ReclaimArgs(id, grant)) && ArgsFit(DestroyArgs(id))
  {
    hide ValidUtf8, ExchangeTag, CreateTag, DestroyTag, ReclaimTag;
  }

  const FIRST_SEQUENCE: u32 := 1

  function FirstSlot(n: u32): Grant { Grant(0, FIRST_SEQUENCE, Highest(n)) }

  lemma {:induction false} NewSessionExpects(srv: Server)
    requires srv.slots > 0
    ensures Expects(WithSession(srv), srv.nextId, FirstSlot(srv.slots))
  {
  }

  /** The server once the handshake is over. */
  function Connected(srv: Server): Server
    requires srv.slots > 0
  {
    AfterSequence(WithSession(srv), FirstSlot(srv.slots))
  }

  /** The server through the three requests of the handshake. */
  datatype Shaken = Shaken(server: Server, exchange: Compound4res, create: Compound4res, reclaim: Compound4res)

  function Shake(srv: Server, owner: ClientOwner4): Shaken {
    var (srv1, exchange) := Serve(srv, ExchangeArgs(owner));
    var (srv2, create) := Serve(srv1, CreateArgs(srv.clientid, 1));
    var (srv3, reclaim) := Serve(srv2, ReclaimArgs(srv.nextId, FirstSlot(srv.slots)));
    Shaken(srv3, exchange, create, reclaim)
  }

  lemma {:induction false} HandshakeServed(srv: Server, owner: ClientOwner4)
    requires srv.slots > 0
    ensures Expects(WithSession(srv), srv.nextId, FirstSlot(srv.slots))
    ensures Shake(srv, owner) == Shaken(Connected(srv), ExchangeRes(srv), CreateRes(srv),
                                        ReclaimRes(WithSession(srv), srv.nextId, FirstSlot(srv.slots)))
  {
    hide Serve, ExchangeRes, CreateRes, ReclaimRes, WithSession, ExchangeArgs, CreateArgs, ReclaimArgs, Expects,
      AfterSequence;
    ServeExchange(srv, owner);
    ServeCreate(srv);
    NewSessionExpects(srv);
    ServeReclaim(WithSession(srv), srv.nextId, FirstSlot(srv.slots));
  }

  /** The server's three replies come one after the other, cut anywhere. */
  predicate HandshakeArrives(line: Line, srv: Server, auth: AuthFlavor, owner: ClientOwner4, verf: AuthFlavor,
                             c1: seq<seq<byte>>, c2: seq<seq<byte>>, c3: seq<seq<byte>>, rest: seq<seq<byte>>)
  {
    hide CompoundStep, ExchangeArgs, CreateArgs, Shake;
    var line1 := CompoundStep(line, auth, ExchangeArgs(owner)).0;
    var line2 := CompoundStep(line1, auth, CreateArgs(srv.clientid, 1)).0;
    var shaken := Shake(srv, owner);
    && ComesNext(line, verf, shaken.exchange, c1, c2 + (c3 + rest))
    && ComesNext(line1, verf, shaken.create, c2, c3 + rest)
    && ComesNext(line2, verf, shaken.reclaim, c3, rest)
  }

  lemma {:induction false} RepliesRead(srv: Server)
    requires srv.slots > 0 && Expects(WithSession(srv), srv.nextId, FirstSlot(srv.slots))
    ensures var exchange := ExchangeReply(Outcome.Done(ExchangeRes(srv)));
      exchange.Done? && exchange.value.clientid == srv.clientid && exchange.value.sequenceid == 1
    ensures var created := CreateReply(Outcome.Done(CreateRes(srv)));
      created.Done? && created.value.sessionid == srv.nextId && created.value.foreChanAttrs.maxRequests == srv.slots
    ensures var reclaimed := ReclaimRes(WithSession(srv), srv.nextId, FirstSlot(srv.slots));
      StatusReply(Outcome.Done(reclaimed)) == Outcome.Done(())
  {
    hide ExchangeTag, CreateTag, ReclaimTag, StatusCodes, IsStatus, ValidUtf8, Expects;
  }

  lemma {:induction false} StartsInStep(srv: Server, s: SessionState)
    requires srv.slots > 0 && s.sessionId == srv.nextId && UsedOnce(s.slots) && |s.slots.inUse| == srv.slots
    ensures InStep(s, Connected(srv))
  {
  }

  /** The handshake against the server gives a session with every slot free, in step
      with the server. */
  lemma {:induction false} ConnectSucceeds(st: ClientState, srv: Server, auth: AuthFlavor, owner: ClientOwner4,
                                           verf: AuthFlavor, c1: seq<seq<byte>>, c2: seq<seq<byte>>,
                                           c3: seq<seq<byte>>, rest: seq<seq<byte>>)
    requires srv.slots > 0 && Fits(owner.ownerid) && Short(auth) && Short(verf)
    requires HandshakeArrives(st.line, srv, auth, owner, verf, c1, c2, c3, rest)
    ensures var (st', r) := ConnectStep(st, auth, owner);
      && r == Outcome.Done(()) && st'.Valid() && st'.session.Some?
      && st'.session.value.sessionId == srv.nextId && st'.session.value.clientId == srv.clientid
      && UsedOnce(st'.session.value.slots) && InStep(st'.session.value, Shake(srv, owner).server)
      && st'.line.chunks == rest
  {
    hide CompoundStep, ExchangeArgs, CreateArgs, ReclaimArgs, ExchangeReply, CreateReply, StatusReply, Slots.Alloc,
      Slots.Release, Fresh, StatusCodes, IsStatus, ValidUtf8, ExchangeRes, CreateRes, ReclaimRes, Expects,
      ComesNext, ArgsFit, Sendable, Short, InStep, UsedOnce, Connected, Shake;
    HandshakeServed(srv, owner);
    var grant := FirstSlot(srv.slots);
    HandshakeSendable(srv, srv.nextId, grant);
    HandshakeSendable(WithSession(srv), srv.nextId, grant);
    HandshakeFits(srv, owner, srv.nextId, grant);
    RepliesRead(srv);
    FirstGrant(srv.slots);
    Exchanged(st.line, auth, ExchangeArgs(owner), verf, ExchangeRes(srv), c1, c2 + (c3 + rest));
    var line1 := CompoundStep(st.line, auth, ExchangeArgs(owner)).0;
    Exchanged(line1, auth, CreateArgs(srv.clientid, 1), verf, CreateRes(srv), c2, c3 + rest);
    var line2 := CompoundStep(line1, auth, CreateArgs(srv.clientid, 1)).0;
    Exchanged(line2, auth, ReclaimArgs(srv.nextId, grant), verf, ReclaimRes(WithSession(srv), srv.nextId, grant),
        c3, rest);
    UsedOnceSize(srv.slots);
    var slots := Fresh(srv.slots).Alloc().0.Release(0);
    StartsInStep(srv, SessionState(srv.nextId, srv.clientid, slots));
  }

  lemma {:induction false} UsedOnceSize(n: u32)
    requires n > 0
    ensures Fresh(n).Valid() && |Fresh(n).Alloc().0.Release(0).inUse| == n
    ensures Fresh(n).Alloc().0.Release(0).Valid()
  {
    FirstGrant(n);
  }

  // ------------------------------------------------------- the leaked slot

  /** A table of n slots, all free but perhaps the first. */
  predicate FirstOnly(s: Slots, n: nat, taken: bool) {
    |s.inUse| == n && forall k | 0 <= k < n :: s.inUse[k] <==> taken && k == 0
  }

  lemma {:induction false} OneTaken(n: u32)
    requires n > 0
    ensures Fresh(n).Alloc().1 == Some(FirstSlot(n))
    ensures FirstOnly(Fresh(n).Alloc().0, n, true) && FirstOnly(Fresh(n).Alloc().0.Release(0), n, false)
  {
    FirstGrant(n);
    assert !Fresh(n).inUse[0];
  }

  /** What the third call leaves, given the bytes it finds. */
  lemma {:induction false} ThirdCall(line: Line, auth: AuthFlavor, id: SessionId4, clientId: u64, n: u32)
    requires n > 0 && Short(auth)
    ensures var (st', r) := ReclaimStep(line, auth, id, clientId, n);
      var third := Unpack(AnswerOn(line, line.nextXid));
      && st'.session.Some? && FirstOnly(st'.session.value.slots, n, third.Fault?)
      && (third.Fault? ==> r == Fault(third.error))
  {
    hide CompoundStep, ReclaimArgs, StatusReply, Slots.Alloc, Slots.Release, Fresh, FirstOnly, AnswerOn, Sent,
      Unpack, ArgsFit, Short, StatusCodes, IsStatus, ValidUtf8;
    OneTaken(n);
    ReclaimFits(id, FirstSlot(n));
    RequestSent(line, auth, ReclaimArgs(id, FirstSlot(n)));
  }

  lemma {:induction false} ReclaimFits(id: SessionId4, grant: Grant)
    requires grant.slot < U32_MODULUS
    ensures ArgsFit(ReclaimArgs(id, grant))
  {
    hide ValidUtf8, ReclaimTag;
  }

  /** The line after the first two calls. */
  function AfterCreate(line: Line, srv: Server, auth: AuthFlavor, owner: ClientOwner4): Line {
    hide CompoundStep, ExchangeArgs, CreateArgs;
    CompoundStep(CompoundStep(line, auth, ExchangeArgs(owner)).0, auth, CreateArgs(srv.clientid, 1)).0
  }

  /** The server's first two replies come one after the other, cut anywhere. */
  predicate TwoArrive(line: Line, srv: Server, auth: AuthFlavor, owner: ClientOwner4, verf: AuthFlavor,
                      c1: seq<seq<byte>>, c2: seq<seq<byte>>, rest: seq<seq<byte>>)
  {
    hide CompoundStep, ExchangeArgs, Shake;
    && ComesNext(line, verf, Shake(srv, owner).exchange, c1, c2 + rest)
    && ComesNext(CompoundStep(line, auth, ExchangeArgs(owner)).0, verf, Shake(srv, owner).create, c2, rest)
  }

  lemma {:induction false} TwoCallsDone(st: ClientState, srv: Server, auth: AuthFlavor, owner: ClientOwner4,
                                        verf: AuthFlavor, c1: seq<seq<byte>>, c2: seq<seq<byte>>, rest: seq<seq<byte>>)
    requires srv.slots > 0 && Fits(owner.ownerid) && Short(auth) && Short(verf)
    requires TwoArrive(st.line, srv, auth, owner, verf, c1, c2, rest)
    ensures var line := AfterCreate(st.line, srv, auth, owner);
      && ConnectStep(st, auth, owner) == ReclaimStep(line, auth, srv.nextId, srv.clientid, srv.slots)
      && line.chunks == rest && line.nextXid == (st.line.nextXid + 2) % U32_MODULUS
      && line.sends == st.line.sends - 2
  {
    hide CompoundStep, ExchangeArgs, CreateArgs, ReclaimStep, ExchangeReply, CreateReply, StatusReply, StatusCodes,
      IsStatus, ValidUtf8, ExchangeRes, CreateRes, ReclaimRes, Expects, ComesNext, ArgsFit, Sendable, Short,
      Connected, Shake;
    HandshakeServed(srv, owner);
    HandshakeSendable(srv, srv.nextId, FirstSlot(srv.slots));
    HandshakeFits(srv, owner, srv.nextId, FirstSlot(srv.slots));
    RepliesRead(srv);
    Exchanged(st.line, auth, ExchangeArgs(owner), verf, ExchangeRes(srv), c1, c2 + rest);
    var line1 := CompoundStep(st.line, auth, ExchangeArgs(owner)).0;
    Exchanged(line1, auth, CreateArgs(srv.clientid, 1), verf, CreateRes(srv), c2, rest);
  }

  /** What the bytes that come amount to, as the answer to the third call from here. */
  function ThirdAnswer(line: Line, rest: seq<seq<byte>>): Outcome<Compound4res> {
    Unpack(if line.sends <= 2 then Error(Closed) else AnswerIn((line.nextXid + 2) % U32_MODULUS, Incoming(rest)))
  }

  /** With the server's first two replies on the line, what comes after them decides:
      slot 0 of the new session stays taken exactly when the third call cannot be
      written or the remaining bytes do not amount to a readable answer to it, and
      connect reports why. */
  lemma {:induction false} ConnectLeaksOnLineIff(st: ClientState, srv: Server, auth: AuthFlavor, owner: ClientOwner4,
                                                 verf: AuthFlavor, c1: seq<seq<byte>>, c2: seq<seq<byte>>,
                                                 rest: seq<seq<byte>>)
    requires srv.slots > 0 && Fits(owner.ownerid) && Short(auth) && Short(verf)
    requires TwoArrive(st.line, srv, auth, owner, verf, c1, c2, rest)
    ensures var (st', r) := ConnectStep(st, auth, owner);
      var third := ThirdAnswer(st.line, rest);
      && st'.session.Some? && FirstOnly(st'.session.value.slots, srv.slots, third.Fault?)
      && (third.Fault? ==> r == Fault(third.error))
  {
    hide ConnectStep, ReclaimStep, AfterCreate, TwoArrive, FirstOnly, AnswerIn, Unpack, Incoming, Short, Fits,
      StatusCodes, IsStatus, ValidUtf8;
    TwoCallsDone(st, srv, auth, owner, verf, c1, c2, rest);
    ThirdCall(AfterCreate(st.line, srv, auth, owner), auth, srv.nextId, srv.clientid, srv.slots);
  }

  /** It does happen: the peer closes after the second reply. Connect reports the close,
      and slot 0 of the session it leaves behind is taken for good. */
  lemma {:induction false} CloseLeaksSlot(st: ClientState, srv: Server, auth: AuthFlavor, owner: ClientOwner4,
                                          verf: AuthFlavor, c1: seq<seq<byte>>, c2: seq<seq<byte>>)
    requires srv.slots > 0 && Fits(owner.ownerid) && Short(auth) && Short(verf)
    requires TwoArrive(st.line, srv, auth, owner, verf, c1, c2, [])
    ensures var (st', r) := ConnectStep(st, auth, owner);
      r == Fault(OverRpc(Closed)) && st'.session.Some? && FirstOnly(st'.session.value.slots, srv.slots, true)
  {
    hide ConnectStep, TwoArrive, FirstOnly, Short, Fits, RecordMarking.NextRecord, StatusCodes, IsStatus, ValidUtf8;
    ConnectLeaksOnLineIff(st, srv, auth, owner, verf, c1, c2, []);
    NothingYet();
  }

  /** Then, if the server granted a single slot, the session is of no use: every path
      resolution from there on, however many and whatever the network, is refused on the
      client's side. */
  lemma {:induction false} LeakedSingleSlotBlocks(st: ClientState, auth: AuthFlavor, paths: seq<Utf8>)
    requires st.Valid() && st.session.Some?
    requires |st.session.value.slots.inUse| == 1 && st.session.value.slots.inUse[0]
    ensures var (end, answers) := ResolveAll(st, auth, paths);
      end == st && forall i | 0 <= i < |paths| :: answers[i] == Fault(NoSession)
    decreases |paths|
  {
    hide ResolveStep, StatusCodes, IsStatus, ValidUtf8;
    if paths != [] {
      SlotAlwaysFreed(st, auth, paths[0]);
      LeakedSingleSlotBlocks(st, auth, paths[1..]);
    }
  }

  /** Connect, any run of path resolutions, disconnect. */
  datatype Lived = Lived(
    connected: Outcome<()>, answers: seq<Outcome<NfsFh4>>, disconnected: Outcome<()>, end: ClientState)

  function Life(st: ClientState, auth: AuthFlavor, owner: ClientOwner4, paths: seq<Utf8>): Lived
    requires st.Valid()
  {
    hide ConnectStep, ResolveAll, DisconnectStep;
    var (st1, connected) := ConnectStep(st, auth, owner);
    var (st2, answers) := ResolveAll(st1, auth, paths);
    var (st3, disconnected) := DisconnectStep(st2, auth);
    Lived(connected, answers, disconnected, st3)
  }

  /** Every step succeeds, every answer is the walk, and the session is gone. */
  predicate Succeeds(life: Lived, root: Node, paths: seq<Utf8>) {
    && life.connected == Outcome.Done(()) && life.disconnected == Outcome.Done(())
    && |life.answers| == |paths|
    && (forall i | 0 <= i < |paths| :: life.answers[i] == WalkOutcome(root, Names(paths[i])))
    && life.end.session.None?
  }

  /** The server's replies to all of these calls, in order and cut anywhere. */
  datatype Cuts = Cuts(exchange: seq<seq<byte>>, create: seq<seq<byte>>, reclaim: seq<seq<byte>>,
                       resolve: seq<seq<seq<byte>>>, destroy: seq<seq<byte>>)

  predicate LifeArrives(st: ClientState, srv: Server, auth: AuthFlavor, owner: ClientOwner4, verf: AuthFlavor,
                        paths: seq<Utf8>, cuts: Cuts, rest: seq<seq<byte>>)
    requires st.Valid()
  {
    hide ConnectStep, ResolveAll, HandshakeArrives, ComesNext, Answers, Shake, Serve, ServerEnd, DestroyArgs;
    var st1 := ConnectStep(st, auth, owner).0;
    && HandshakeArrives(st.line, srv, auth, owner, verf, cuts.exchange, cuts.create, cuts.reclaim,
                        Joined(cuts.resolve) + (cuts.destroy + rest))
    && var srv1, later := Shake(srv, owner).server, cuts.destroy + rest;
    && Answers(st1, srv1, auth, verf, paths, cuts.resolve, later)
    && var srv2 := ServerEnd(st1, srv1, auth, verf, paths, cuts.resolve, later);
    && ComesNext(ResolveAll(st1, auth, paths).0.line, verf, Serve(srv2, DestroyArgs(srv.nextId)).1, cuts.destroy, rest)
  }

  /** The server after the last call. */
  function ServerAtEnd(st: ClientState, srv: Server, auth: AuthFlavor, owner: ClientOwner4, verf: AuthFlavor,
                       paths: seq<Utf8>, cuts: Cuts, rest: seq<seq<byte>>): Server
    requires st.Valid() && LifeArrives(st, srv, auth, owner, verf, paths, cuts, rest)
  {
    hide ConnectStep, ResolveAll, HandshakeArrives, ComesNext, Answers, Shake, Serve, ServerEnd, DestroyArgs;
    var st1, srv1 := ConnectStep(st, auth, owner).0, Shake(srv, owner).server;
    Serve(ServerEnd(st1, srv1, auth, verf, paths, cuts.resolve, cuts.destroy + rest), DestroyArgs(srv.nextId)).0
  }

  /** A whole life against the server: every step succeeds, every answer is the walk
      down the tree, nothing is left over on the line, and the session is gone on both
      sides. */
  lemma {:induction false} WholeLife(st: ClientState, srv: Server, auth: AuthFlavor, owner: ClientOwner4,
                                     verf: AuthFlavor, paths: seq<Utf8>, cuts: Cuts, rest: seq<seq<byte>>)
    requires st.Valid() && srv.slots > 0 && Fits(owner.ownerid) && Short(auth) && Short(verf) && ShortHandles(srv.root)
    requires forall i | 0 <= i < |paths| :: |paths[i]| + 5 < MAX_LEN
    requires LifeArrives(st, srv, auth, owner, verf, paths, cuts, rest)
    ensures Succeeds(Life(st, auth, owner, paths), srv.root, paths) && Life(st, auth, owner,
        paths).end.line.chunks == rest
    ensures ServerAtEnd(st, srv, auth, owner, verf, paths, cuts, rest).session.None?
  {
    hide ConnectStep, ResolveAll, HandshakeArrives, Answers, ComesNext, InStep, UsedOnce, Connected, WalkOutcome,
      Names, ShortHandles, Short, Fits, Sendable, CompoundStep, ArgsFit, Serve, DestroyArgs, DestroyRes, ServerEnd,
      StatusCodes, IsStatus, ValidUtf8, DisconnectStep, Shake;
    var later := Joined(cuts.resolve) + (cuts.destroy + rest);
    ConnectSucceeds(st, srv, auth, owner, verf, cuts.exchange, cuts.create, cuts.reclaim, later);
    var st1 := ConnectStep(st, auth, owner).0;
    var srv1 := Shake(srv, owner).server;
    HandshakeServed(srv, owner);
    ConnectedRoot(srv);
    ResolutionsAreWalks(st1, srv1, auth, verf, paths, cuts.resolve, cuts.destroy + rest);
    var st2 := ResolveAll(st1, auth, paths).0;
    var srv2 := ServerEnd(st1, srv1, auth, verf, paths, cuts.resolve, cuts.destroy + rest);
    LastCall(st2, srv2, auth, verf, cuts.destroy, rest, srv.nextId, owner);
  }

  lemma {:induction false} ConnectedRoot(srv: Server)
    requires srv.slots > 0
    ensures Connected(srv).root == srv.root
  {
  }

  lemma {:induction false} LastCall(st: ClientState, srv: Server, auth: AuthFlavor, verf: AuthFlavor,
                                    cut: seq<seq<byte>>, rest: seq<seq<byte>>, id: SessionId4, owner: ClientOwner4)
    requires st.session.Some? && st.session.value.sessionId == id && InStep(st.session.value, srv)
    requires ComesNext(st.line, verf, Serve(srv, DestroyArgs(id)).1, cut, rest)
    requires Short(auth) && Short(verf) && Fits(owner.ownerid)
    ensures var (st', r) := DisconnectStep(st, auth);
      r == Outcome.Done(()) && st'.session.None? && st'.line.chunks == rest
    ensures Serve(srv, DestroyArgs(id)).0.session.None?
  {
    hide ComesNext, Short, Fits, Sendable, CompoundStep, ArgsFit, Serve, DestroyArgs, StatusCodes, IsStatus,
      ValidUtf8, Judge, DestroyTag;
    ServeDestroy(srv, id);
    HandshakeFits(srv, owner, id, FirstSlot(1));
    HandshakeSendable(srv, id, FirstSlot(1));
    Exchanged(st.line, auth, DestroyArgs(id), verf, DestroyRes(), cut, rest);
  }
}
