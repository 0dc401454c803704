/** What the client sends and what it reports, call by call and for every answer a
    server may give, in terms of the answers themselves. */
module Reports {
  import opened Xdr
  import opened XdrStructs
  import opened Rpc
  import opened Transport
  import opened Nfs4Types
  import opened CompoundArgs
  import opened SessionSlots
  import opened NfsClient
  import opened Mount
  import opened Options
  import opened SessionLifecycle

  /** An answer whose status is Ok and whose first result is `first`. */
  predicate Opens(answer: Outcome<Compound4res>, first: NfsResOp4) {
    answer.Done? && answer.value.status == 0 && answer.value.resarray != [] && answer.value.resarray[0] == first
  }

  /** What any call that expects a first result with a body reports when it gets none:
      the failure of the call, the status of the response, an abort on no results, the
      wrong operation, the operation's own status, or the missing body. */
  predicate Refused<T>(answer: Outcome<Compound4res>, own: NfsResOp4 -> Option<Res<T>>, opName: string,
                       bodyName: string, error: NfsError)
  {
    match answer
    case Fault(e) => error == e
    case Done(res) =>
      if res.status != 0 then error == Nfs(res.status)
      else if res.resarray == [] then error == Aborted
      else
        match own(res.resarray[0])
        case None => error == UnexpectedResponse(opName)
        case Some(r) =>
          if r.status != 0 then error == Nfs(r.status)
          else r.resok.None? && error == UnexpectedResponse(bodyName)
  }

  function AsExchange(op: NfsResOp4): Option<Res<ExchangeId4resok>> {
    if op.ExchangeId? then Some(op.exchangeId) else None
  }

  function AsCreate(op: NfsResOp4): Option<Res<CreateSession4resok>> {
    if op.CreateSession? then Some(op.createSession) else None
  }

  /** EXCHANGE_ID: connect goes on only from an Ok answer with a body, and otherwise
      reports what was wrong and keeps the session it had. */
  lemma {:induction false} ExchangeReports(st: ClientState, auth: AuthFlavor, owner: ClientOwner4)
    ensures var (line, answer) := CompoundStep(st.line, auth, ExchangeArgs(owner));
      var (st', r) := ConnectStep(st, auth, owner);
      || (exists x :: Opens(answer, NfsResOp4.ExchangeId(Res(0, Some(x)))))
      || (r.Fault? && Refused(answer, AsExchange, "ExchangeId", "ExchangeId4resok", r.error)
          && st' == ClientState(line, st.session))
  {
    hide CompoundStep, ExchangeArgs, CreateArgs, ReclaimStep, CreateReply, StatusCodes, IsStatus, ValidUtf8;
    var answer := CompoundStep(st.line, auth, ExchangeArgs(owner)).1;
    if ExchangeReply(answer).Done? {
      assert Opens(answer, NfsResOp4.ExchangeId(Res(0, Some(ExchangeReply(answer).value))));
    }
  }

  /** CREATE_SESSION carries the client id and the sequence id of the first answer. */
  lemma {:induction false} CreateReports(st: ClientState, auth: AuthFlavor, owner: ClientOwner4, x: ExchangeId4resok)
    requires Opens(CompoundStep(st.line, auth, ExchangeArgs(owner)).1, NfsResOp4.ExchangeId(Res(0, Some(x))))
    ensures var line1 := CompoundStep(st.line, auth, ExchangeArgs(owner)).0;
      var (line2, answer) := CompoundStep(line1, auth, CreateArgs(x.clientid, x.sequenceid));
      var (st', r) := ConnectStep(st, auth, owner);
      || (exists c :: Opens(answer, NfsResOp4.CreateSession(Res(0, Some(c)))))
      || (r.Fault? && Refused(answer, AsCreate, "CreateSession", "CreateSession4resok", r.error)
          && st' == ClientState(line2, st.session))
  {
    hide CompoundStep, ExchangeArgs, CreateArgs, ReclaimStep, StatusCodes, IsStatus, ValidUtf8;
    var line1 := CompoundStep(st.line, auth, ExchangeArgs(owner)).0;
    var answer := CompoundStep(line1, auth, CreateArgs(x.clientid, x.sequenceid)).1;
    if CreateReply(answer).Done? {
      assert Opens(answer, NfsResOp4.CreateSession(Res(0, Some(CreateReply(answer).value))));
    }
  }

  /** The connection after the first two calls, the second with what the first gave. */
  function SecondLine(line: Line, auth: AuthFlavor, owner: ClientOwner4, x: ExchangeId4resok): Line {
    hide CompoundStep, ExchangeArgs, CreateArgs;
    CompoundStep(CompoundStep(line, auth, ExchangeArgs(owner)).0, auth, CreateArgs(x.clientid, x.sequenceid)).0
  }

  /** The two calls have given these. */
  predicate Given(line: Line, auth: AuthFlavor, owner: ClientOwner4, x: ExchangeId4resok, c: CreateSession4resok) {
    hide CompoundStep, ExchangeArgs, CreateArgs, Opens;
    var (line1, answer1) := CompoundStep(line, auth, ExchangeArgs(owner));
    && Opens(answer1, NfsResOp4.ExchangeId(Res(0, Some(x))))
    && Opens(CompoundStep(line1, auth, CreateArgs(x.clientid, x.sequenceid)).1,
             NfsResOp4.CreateSession(Res(0, Some(c))))
  }

  /** The new session has the id and the fore channel's slots of the second answer and
      the client id of the first. */
  predicate Founded(st: ClientState, x: ExchangeId4resok, c: CreateSession4resok, leaked: bool) {
    && st.session.Some? && st.session.value.sessionId == c.sessionid && st.session.value.clientId == x.clientid
    && FirstOnly(st.session.value.slots, c.foreChanAttrs.maxRequests, leaked)
  }

  lemma {:induction false} GivenTerms(line: Line, auth: AuthFlavor, owner: ClientOwner4, x: ExchangeId4resok,
                                      c: CreateSession4resok)
    requires Given(line, auth, owner, x, c)
    ensures Negotiate(line, auth, owner)
            == (SecondLine(line, auth, owner, x), Outcome.Done(Terms(c.sessionid, x.clientid,
                c.foreChanAttrs.maxRequests)))
  {
    hide CompoundStep, ExchangeArgs, CreateArgs, StatusCodes, IsStatus, ValidUtf8;
  }

  /** RECLAIM_COMPLETE goes out on slot 0 with sequence id 1, naming the last slot as the
      highest; connect succeeds exactly when it is answered with status Ok, and reports
      any other status, or the failure of the call. */
  predicate Reclaimed(line: Line, auth: AuthFlavor, x: ExchangeId4resok, c: CreateSession4resok, st: ClientState,
                      r: Outcome<()>)
  {
    hide CompoundStep, ReclaimArgs, Founded;
    var n := c.foreChanAttrs.maxRequests;
    if n == 0 then r == Fault(NoSession) && st.line == line && Founded(st, x, c, false)
    else
      var (line', answer) := CompoundStep(line, auth, ReclaimArgs(c.sessionid, Grant(0, 1, n - 1)));
      && st.line == line' && Founded(st, x, c, answer.Fault?)
      && r == (match answer
               case Fault(e) => Fault(e)
               case Done(res) => if res.status == 0 then Outcome.Done(()) else Fault(Nfs(res.status)))
  }

  lemma {:induction false} ReclaimReports(st: ClientState, auth: AuthFlavor, owner: ClientOwner4, x: ExchangeId4resok,
                                          c: CreateSession4resok)
    requires Given(st.line, auth, owner, x, c)
    ensures var (st', r) := ConnectStep(st, auth, owner);
      Reclaimed(SecondLine(st.line, auth, owner, x), auth, x, c, st', r)
  {
    hide CompoundStep, SecondLine, Negotiate, Given, ReclaimArgs, Fresh, Slots.Alloc, Slots.Release, FirstOnly,
      StatusReply, StatusCodes, IsStatus, ValidUtf8;
    var line2, n := SecondLine(st.line, auth, owner, x), c.foreChanAttrs.maxRequests;
    GivenTerms(st.line, auth, owner, x, c);
    FirstGrant(n);
    if n == 0 {
      NoSlots();
    } else {
      OneTaken(n);
      StatusReported(CompoundStep(line2, auth, ReclaimArgs(c.sessionid, Grant(0, 1, n - 1))).1);
    }
  }

  lemma {:induction false} StatusReported(answer: Outcome<Compound4res>)
    ensures StatusReply(answer) ==
            match answer
            case Fault(e) => Fault(e)
            case Done(res) => if res.status == 0 then Outcome.Done(()) else Fault(Nfs(res.status))
  {
    hide StatusCodes, IsStatus, ValidUtf8;
  }

  lemma {:induction false} NoSlots()
    ensures FirstOnly(Fresh(0), 0, false)
  {
  }

  /** The same seen from the third answer alone: once it has come, it decides. */
  lemma {:induction false} ReclaimDecides(st: ClientState, auth: AuthFlavor, owner: ClientOwner4, res: Compound4res)
    requires ReclaimAnswer(st, auth, owner) == Some(Outcome.Done(res))
    ensures ConnectStep(st, auth, owner).1
            == if res.status == 0 then Outcome.Done(()) else Fault(Nfs(res.status))
  {
    hide CompoundStep, Negotiate, ReclaimArgs, Slots.Alloc, Slots.Release, Fresh, StatusReply, StatusCodes,
      IsStatus, ValidUtf8;
    StatusReported(Outcome.Done(res));
    var (line, terms) := Negotiate(st.line, auth, owner);
    assert ConnectStep(st, auth, owner).1
        == ReclaimStep(line, auth, terms.value.sessionId, terms.value.clientId, terms.value.maxSlots).1;
  }

  /** Disconnect sends the id of the session it has; an answer ends the session, Ok or
      not, and its status is reported; without an answer the session stays. */
  lemma {:induction false} DisconnectReports(st: ClientState, auth: AuthFlavor)
    ensures var (st', r) := DisconnectStep(st, auth);
      match st.session
      case None => st' == st && r == Fault(NoSession)
      case Some(s) =>
        var (line, answer) := CompoundStep(st.line, auth, DestroyArgs(s.sessionId));
        match answer
        case Fault(e) => st' == ClientState(line, st.session) && r == Fault(e)
        case Done(res) =>
          st' == ClientState(line, None) && r == if res.status == 0 then Outcome.Done(()) else Fault(Nfs(res.status))
  {
    hide CompoundStep, DestroyArgs, StatusReply, StatusCodes, IsStatus, ValidUtf8;
    if st.session.Some? {
      StatusReported(CompoundStep(st.line, auth, DestroyArgs(st.session.value.sessionId)).1);
    }
  }

  /** What resolve_path makes of an answer. */
  predicate Resolved(answer: Outcome<Compound4res>, r: Outcome<NfsFh4>) {
    match answer
    case Fault(e) => r == Fault(e)
    case Done(res) =>
      var n := |res.resarray|;
      if res.status != 0 then r == Fault(Nfs(res.status))
      else if n == 0 || !res.resarray[n - 1].GetFh? then r == Fault(UnexpectedResponse("GetFh"))
      else
        match res.resarray[n - 1].getFh
        case Res(status, handle) =>
          if status != 0 then r == Fault(Nfs(status))
          else if handle.None? then r == Fault(UnexpectedResponse("GetFh4res with object"))
          else r == Outcome.Done(handle.value)
  }

  /** resolve_path returns a handle only out of the last result of an Ok response, and
      otherwise reports the first thing that is wrong with the answer. */
  lemma {:induction false} ResolveReports(st: ClientState, auth: AuthFlavor, path: Utf8)
    requires st.Valid() && st.session.Some? && st.session.value.slots.Alloc().1.Some?
    ensures var s := st.session.value;
      var args := ResolveArgs(s.sessionId, s.slots.Alloc().1.value, Names(path));
      var (line, answer) := CompoundStep(st.line, auth, args);
      var (st', r) := ResolveStep(st, auth, path);
      st'.line == line && Resolved(answer, r)
  {
    hide CompoundStep, ResolveArgs, Slots.Alloc, Slots.Release, Names, TakeHandle, Resolved, StatusCodes, IsStatus,
      ValidUtf8;
    var s := st.session.value;
    var args := ResolveArgs(s.sessionId, s.slots.Alloc().1.value, Names(path));
    HandleTakenFrom(CompoundStep(st.line, auth, args).1);
  }

  lemma {:induction false} HandleTakenFrom(answer: Outcome<Compound4res>)
    ensures Resolved(answer, TakeHandle(answer))
  {
    hide StatusCodes, IsStatus, ValidUtf8;
  }
}
