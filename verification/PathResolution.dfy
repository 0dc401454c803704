/** resolve_path against the server: its answer is a walk down the tree, over any
    sequence of calls and however the replies are cut on the way. */
module PathResolution {
  import opened Wire
  import opened Xdr
  import opened XdrStructs
  import opened Rpc
  import RecordMarking
  import opened Nfs4Types
  import opened SendableResults
  import opened CompoundArgs
  import opened SessionSlots
  import opened SlotProtocol
  import opened NfsClient
  import opened NfsServer
  import opened NfsPath
  import opened Mount
  import opened Options
  import opened EndToEnd

  /** What resolve_path must answer. */
  function WalkOutcome(root: Node, names: seq<Utf8>): Outcome<NfsFh4> {
    match Walk(root, names)
    case Reached(n) => if n.Locked? then Fault(Nfs(n.why)) else Outcome.Done(n.fh)
    case Stopped(_, why) => Fault(Nfs(why))
  }

  // ------------------------------------------------------- the server's answer

  /** The results of the LOOKUPs and the GETFH. */
  function WalkResults(root: Node, names: seq<Utf8>): seq<NfsResOp4> {
    match Walk(root, names)
    case Reached(n) => Passed(|names|) + [NfsResOp4.GetFh(if n.Locked? then Res(n.why, None) else Res(NFS4_OK,
        Some(n.fh)))]
    case Stopped(k, why) => Passed(k) + [NfsResOp4.Lookup(why)]
  }

  function Passed(n: nat): seq<NfsResOp4> {
    seq(n, _ => NfsResOp4.Lookup(NFS4_OK))
  }

  function WalkStatus(root: Node, names: seq<Utf8>): NfsStat4 {
    match Walk(root, names)
    case Reached(n) => if n.Locked? then n.why else NFS4_OK
    case Stopped(_, why) => why
  }

  lemma {:induction false} RunFinds(srv: Server, n: Node, names: seq<Utf8>)
    ensures Run(srv, Some(n), Lookups(names) + [NfsArgOp4.GetFh])
            == Ran(srv, WalkResults(n, names), WalkStatus(n, names))
    decreases |names|
  {
    hide Enter, StatusCodes, IsStatus;
    var ops := Lookups(names) + [NfsArgOp4.GetFh];
    if names == [] {
      assert ops == [NfsArgOp4.GetFh];
      RunLast(srv, Some(n), NfsArgOp4.GetFh);
      assert Passed(0) == [];
    } else {
      assert ops == [NfsArgOp4.Lookup(names[0])] + (Lookups(names[1..]) + [NfsArgOp4.GetFh]);
      match Enter(n, names[0]) {
        case Refused(why) =>
          RunStops(srv, Some(n), NfsArgOp4.Lookup(names[0]), Lookups(names[1..]) + [NfsArgOp4.GetFh]);
          assert Passed(0) == [];
        case At(m) =>
          RunFinds(srv, m, names[1..]);
          RunGoesOn(srv, Some(n), NfsArgOp4.Lookup(names[0]), Lookups(names[1..]) + [NfsArgOp4.GetFh]);
          WalkResultsStep(n, m, names);
      }
    }
  }

  lemma {:induction false} WalkResultsStep(n: Node, m: Node, names: seq<Utf8>)
    requires names != [] && Enter(n, names[0]) == At(m)
    ensures WalkResults(n, names) == [NfsResOp4.Lookup(NFS4_OK)] + WalkResults(m, names[1..])
    ensures WalkStatus(n, names) == WalkStatus(m, names[1..])
  {
    hide Enter, StatusCodes, IsStatus;
    match Walk(m, names[1..]) {
      case Reached(_) => assert Passed(|names|) == [NfsResOp4.Lookup(NFS4_OK)] + Passed(|names| - 1);
      case Stopped(k, _) => assert Passed(k + 1) == [NfsResOp4.Lookup(NFS4_OK)] + Passed(k);
    }
  }

  lemma {:induction false} RunGoesOn(srv: Server, current: Option<Node>, op: NfsArgOp4, ops: seq<NfsArgOp4>)
    requires StatusIn(Do(srv, current, op).result) == NFS4_OK
    ensures var d := Do(srv, current, op);
      var later := Run(d.server, d.current, ops);
      Run(srv, current, [op] + ops) == later.(results := [d.result] + later.results)
  {
    hide Do, StatusCodes, IsStatus;
    assert ([op] + ops)[1..] == ops;
  }

  lemma {:induction false} RunStops(srv: Server, current: Option<Node>, op: NfsArgOp4, ops: seq<NfsArgOp4>)
    requires StatusIn(Do(srv, current, op).result) != NFS4_OK
    ensures var d := Do(srv, current, op);
      Run(srv, current, [op] + ops) == Ran(d.server, [d.result], StatusIn(d.result))
  {
    hide Do, StatusCodes, IsStatus;
  }

  lemma {:induction false} RunLast(srv: Server, current: Option<Node>, op: NfsArgOp4)
    ensures var d := Do(srv, current, op);
      Run(srv, current, [op]) == Ran(d.server, [d.result], StatusIn(d.result))
  {
    hide Do, StatusCodes, IsStatus;
    var ops := [op];
    assert ops[1..] == [];
    assert Run(Do(srv, current, op).server, Do(srv, current, op).current, []).results == [];
  }

  /** What the server says to a SEQUENCE with this grant of a slot. */
  function SequenceVerdict(srv: Server, id: SessionId4, grant: Grant): NfsStat4 {
    if srv.session.None? || srv.session.value.id != id then Nfs4ErrBadSession()
    else if grant.slot >= |srv.session.value.last| then Nfs4ErrBadSlot()
    else
      match Judge(srv.session.value.last[grant.slot], grant.sequence)
      case New => NFS4_OK
      case Replay => Nfs4ErrRetryUncachedRep()
      case Misordered => Nfs4ErrSeqMisordered()
  }

  /** The server takes the grant as the next new request of its slot. */
  predicate Expects(srv: Server, id: SessionId4, grant: Grant) {
    && srv.session.Some? && srv.session.value.id == id
    && grant.slot < |srv.session.value.last| && grant.slot < U32_MODULUS
    && Judge(srv.session.value.last[grant.slot], grant.sequence) == New
  }

  function AfterSequence(srv: Server, grant: Grant): Server
    requires srv.session.Some? && grant.slot < |srv.session.value.last|
  {
    var s := srv.session.value;
    srv.(session := Some(s.(last := s.last[grant.slot := grant.sequence])))
  }

  function SequenceOk(srv: Server, id: SessionId4, grant: Grant): NfsResOp4
    requires Expects(srv, id, grant)
  {
    var top: u32 := (|srv.session.value.last| - 1) % U32_MODULUS;
    NfsResOp4.Sequence(Res(NFS4_OK, Some(Sequence4resok(id, grant.sequence, grant.slot, top, top, 0))))
  }

  function WalkResponse(srv: Server, id: SessionId4, grant: Grant, names: seq<Utf8>): Compound4res
    requires Expects(srv, id, grant)
  {
    Compound4res(WalkStatus(srv.root, names), ResolveTag(),
                 [SequenceOk(srv, id, grant), NfsResOp4.PutRootFh(NFS4_OK)] + WalkResults(srv.root, names))
  }

  lemma {:induction false} SequenceAccepted(srv: Server, id: SessionId4, grant: Grant)
    requires Expects(srv, id, grant)
    ensures Do(srv, None, NfsArgOp4.Sequence(id, grant.sequence, grant.slot, grant.highest, false))
            == NfsServer.Done(AfterSequence(srv, grant), None, SequenceOk(srv, id, grant))
    ensures StatusIn(SequenceOk(srv, id, grant)) == NFS4_OK
    ensures AfterSequence(srv, grant).root == srv.root
  {
    hide Judge, Nfs4ErrBadSession, Nfs4ErrBadSlot, Nfs4ErrSeqMisordered, Nfs4ErrRetryUncachedRep, DoLookup, DoGetFh,
      DoCreateSession, DoDestroySession, StatusCodes, IsStatus;
  }

  lemma {:induction false} SequenceRefused(srv: Server, id: SessionId4, grant: Grant)
    requires grant.slot < U32_MODULUS && !Expects(srv, id, grant)
    ensures var status := SequenceVerdict(srv, id, grant);
      && status != NFS4_OK
      && Do(srv, None, NfsArgOp4.Sequence(id, grant.sequence, grant.slot, grant.highest, false))
         == NfsServer.Done(srv, None, NfsResOp4.Sequence(Res(status, None)))
  {
    hide DoLookup, DoGetFh, DoCreateSession, DoDestroySession, Judge, StatusCodes, IsStatus, ValidUtf8;
  }

  lemma {:induction false} RootTaken(srv: Server)
    ensures Do(srv, None, NfsArgOp4.PutRootFh) == NfsServer.Done(srv, Some(srv.root), NfsResOp4.PutRootFh(NFS4_OK))
    ensures StatusIn(NfsResOp4.PutRootFh(NFS4_OK)) == NFS4_OK
  {
    hide DoLookup, DoGetFh, DoCreateSession, DoDestroySession, DoSequence, StatusCodes, IsStatus;
  }

  lemma {:induction false} ServeWalks(srv: Server, id: SessionId4, grant: Grant, names: seq<Utf8>)
    requires Expects(srv, id, grant)
    ensures Serve(srv, ResolveArgs(id, grant, names)) == (AfterSequence(srv, grant), WalkResponse(srv, id, grant,
        names))
  {
    hide Run, Do, ResolveTag, WalkResults, WalkStatus, Lookups, Judge, AfterSequence, SequenceOk, StatusIn,
      StatusCodes, IsStatus;
    var tail := Lookups(names) + [NfsArgOp4.GetFh];
    var sequence := NfsArgOp4.Sequence(id, grant.sequence, grant.slot, grant.highest, false);
    SequenceAccepted(srv, id, grant);
    var after := AfterSequence(srv, grant);
    RunFinds(after, srv.root, names);
    RootTaken(after);
    RunGoesOn(after, None, NfsArgOp4.PutRootFh, tail);
    RunGoesOn(srv, None, sequence, [NfsArgOp4.PutRootFh] + tail);
    Prepended(sequence, NfsArgOp4.PutRootFh, Lookups(names), [NfsArgOp4.GetFh]);
    Prepended(SequenceOk(srv, id, grant), NfsResOp4.PutRootFh(NFS4_OK), WalkResults(srv.root, names), []);
    assert WalkResults(srv.root, names) + [] == WalkResults(srv.root, names);
    assert [SequenceOk(srv, id, grant), NfsResOp4.PutRootFh(NFS4_OK)] + WalkResults(srv.root, names) + []
        == [SequenceOk(srv, id, grant), NfsResOp4.PutRootFh(NFS4_OK)] + WalkResults(srv.root, names);
  }

  function RefusedResponse(status: NfsStat4): Compound4res {
    Compound4res(status, ResolveTag(), [NfsResOp4.Sequence(Res(status, None))])
  }

  lemma {:induction false} ServeRefuses(srv: Server, id: SessionId4, grant: Grant, names: seq<Utf8>)
    requires grant.slot < U32_MODULUS && !Expects(srv, id, grant)
    ensures Serve(srv, ResolveArgs(id, grant, names)) == (srv, RefusedResponse(SequenceVerdict(srv, id, grant)))
  {
    hide Run, Do, ResolveTag, Lookups, Expects, SequenceVerdict, StatusCodes, IsStatus, ValidUtf8;
    var sequence := NfsArgOp4.Sequence(id, grant.sequence, grant.slot, grant.highest, false);
    var tail := [NfsArgOp4.PutRootFh] + (Lookups(names) + [NfsArgOp4.GetFh]);
    SequenceRefused(srv, id, grant);
    RunStops(srv, None, sequence, tail);
    Prepended(sequence, NfsArgOp4.PutRootFh, Lookups(names), [NfsArgOp4.GetFh]);
  }

  lemma {:induction false} RefusedSendable(status: NfsStat4)
    requires status != NFS4_OK
    ensures Sendable(RefusedResponse(status))
    ensures TakeHandle(Outcome.Done(RefusedResponse(status))) == Fault(Nfs(status))
  {
    hide ResolveTag, StatusCodes, IsStatus, ValidUtf8;
  }

  lemma {:induction false} Prepended<T>(x: T, y: T, s: seq<T>, t: seq<T>)
    ensures [x, y] + s + t == [x] + ([y] + (s + t))
  {
  }

  lemma {:induction false} LastResult(n: Node, names: seq<Utf8>)
    ensures var rs := WalkResults(n, names);
      rs != [] && rs[|rs| - 1] ==
                  match Walk(n, names)
                  case Reached(m) => NfsResOp4.GetFh(if m.Locked? then Res(m.why, None) else Res(NFS4_OK, Some(m.fh)))
                  case Stopped(_, why) => NfsResOp4.Lookup(why)
  {
    hide Walk, StatusCodes, IsStatus;
  }

  lemma {:induction false} LastOf<T>(head: seq<T>, tail: seq<T>)
    requires tail != []
    ensures head + tail != [] && (head + tail)[|head + tail| - 1] == tail[|tail| - 1]
  {
  }

  lemma {:induction false} HandleTaken(srv: Server, id: SessionId4, grant: Grant, names: seq<Utf8>)
    requires Expects(srv, id, grant)
    ensures TakeHandle(Outcome.Done(WalkResponse(srv, id, grant, names))) == WalkOutcome(srv.root, names)
  {
    hide ResolveTag, Walk, WalkResults, SequenceOk, Expects, StatusCodes, IsStatus, TakeHandle, ValidUtf8,
      SlotProtocol.Judge;
    LastResult(srv.root, names);
    LastOf([SequenceOk(srv, id, grant), NfsResOp4.PutRootFh(NFS4_OK)], WalkResults(srv.root, names));
    TakenFromLast(WalkResponse(srv, id, grant, names));
  }

  lemma {:induction false} TakenFromLast(res: Compound4res)
    requires res.resarray != []
    ensures TakeHandle(Outcome.Done(res)) ==
            if res.status != NFS4_OK then Fault(Nfs(res.status))
            else
              match res.resarray[|res.resarray| - 1]
              case GetFh(r) => BodyOf(r, "GetFh4res with object")
              case _ => Fault(UnexpectedResponse("GetFh"))
  {
    hide StatusCodes, IsStatus;
  }

  lemma {:induction false} WalkShort(n: Node, names: seq<Utf8>)
    requires ShortHandles(n)
    ensures Walk(n, names).Reached? ==> ShortHandles(Walk(n, names).node)
    ensures Walk(n, names).Stopped? ==> Walk(n, names).at < |names|
    decreases |names|
  {
    if names != [] && Enter(n, names[0]).At? {
      WalkShort(Enter(n, names[0]).node, names[1..]);
    }
  }

  lemma {:induction false} WalkReadable(n: Node, names: seq<Utf8>)
    requires ShortHandles(n)
    ensures |WalkResults(n, names)| <= |names| + 1
    ensures forall i | 0 <= i < |WalkResults(n, names)| :: Readable(WalkResults(n, names)[i])
  {
    hide Walk, StatusCodes, IsStatus;
    WalkShort(n, names);
  }

  /** The server's answer can be sent. */
  lemma {:induction false} WalkSendable(srv: Server, id: SessionId4, grant: Grant, names: seq<Utf8>)
    requires Expects(srv, id, grant) && ShortHandles(srv.root) && |names| + 3 < MAX_LEN
    ensures Sendable(WalkResponse(srv, id, grant, names))
  {
    hide WalkResults, WalkStatus, ResolveTag, ShortHandles, Expects, StatusCodes, IsStatus, Readable, SequenceOk;
    var res := WalkResponse(srv, id, grant, names);
    WalkReadable(srv.root, names);
    HeadReadable(srv, id, grant);
    BothReadable([SequenceOk(srv, id, grant), NfsResOp4.PutRootFh(NFS4_OK)], WalkResults(srv.root, names));
  }

  lemma {:induction false} BothReadable(a: seq<NfsResOp4>, b: seq<NfsResOp4>)
    requires (forall i | 0 <= i < |a| :: Readable(a[i])) && (forall i | 0 <= i < |b| :: Readable(b[i]))
    ensures forall i | 0 <= i < |a + b| :: Readable((a + b)[i])
  {
    hide Readable, StatusCodes, IsStatus;
  }

  lemma {:induction false} HeadReadable(srv: Server, id: SessionId4, grant: Grant)
    requires Expects(srv, id, grant)
    ensures Readable(SequenceOk(srv, id, grant)) && Readable(NfsResOp4.PutRootFh(NFS4_OK))
  {
    hide StatusCodes, IsStatus;
  }

  // ---------------------------------------------------------------- the client

  /** Client and server agree on every free slot: its next request is new. */
  predicate InStep(s: SessionState, srv: Server) {
    && s.slots.Valid()
    && srv.session.Some? && srv.session.value.id == s.sessionId
    && |srv.session.value.last| == |s.slots.sequence|
    && forall k | 0 <= k < |s.slots.inUse| ::
         !s.slots.inUse[k] ==> Judge(srv.session.value.last[k], s.slots.sequence[k]) == New
  }

  /** The slot's sequence id has moved on, nothing else has. */
  function MovedOn(s: Slots, k: nat): Slots {
    if k < |s.sequence| then Slots(s.sequence[k := (s.sequence[k] + 1) % U32_MODULUS], s.inUse) else s
  }

  /** What a slot taken and given back leaves behind. */
  lemma {:induction false} SlotGivenBack(s: Slots)
    requires s.Valid()
    ensures var (taken, grant) := s.Alloc();
      if false in s.inUse then
        && grant.Some? && !s.inUse[grant.value.slot] && grant.value.sequence == s.sequence[grant.value.slot]
        && taken.Release(grant.value.slot) == MovedOn(s, grant.value.slot)
      else grant.None? && taken == s
  {
    var i := s.FirstFree(0);
    if i < |s.inUse| {
      assert s.inUse[i := true][i := false] == s.inUse;
    }
  }

  /** Whatever the network, the server or the path: after resolve_path the same slots
      are in use as before, the session is the same, and at most one sequence id has
      moved on, that of the lowest free slot, by one. */
  lemma {:induction false} SlotAlwaysFreed(st: ClientState, auth: AuthFlavor, path: Utf8)
    requires st.Valid() && st.session.Some?
    ensures var s, st' := st.session.value, ResolveStep(st, auth, path).0;
      && st'.session.Some?
      && st'.session.value == s.(slots := MovedOn(s.slots, s.slots.FirstFree(0)))
    ensures false !in st.session.value.slots.inUse ==> ResolveStep(st, auth, path) == (st, Fault(NoSession))
  {
    hide CompoundStep, ResolveArgs, TakeHandle, StatusCodes, IsStatus, ValidUtf8;
    SlotGivenBack(st.session.value.slots);
  }

  lemma {:induction false} AllFit(a: seq<NfsArgOp4>, b: seq<NfsArgOp4>)
    requires (forall i | 0 <= i < |a| :: ArgFits(a[i])) && (forall i | 0 <= i < |b| :: ArgFits(b[i]))
    ensures forall i | 0 <= i < |a + b| :: ArgFits((a + b)[i])
  {
    hide ArgFits;
  }

  lemma {:induction false} LookupsFit(names: seq<Utf8>)
    requires forall i | 0 <= i < |names| :: Fits(names[i])
    ensures |Lookups(names)| == |names| && forall i | 0 <= i < |names| :: ArgFits(Lookups(names)[i])
  {
    hide ValidUtf8;
    forall i | 0 <= i < |names|
      ensures ArgFits(Lookups(names)[i])
    {
      assert Lookups(names)[i] == NfsArgOp4.Lookup(names[i]);
    }
  }

  lemma {:induction false} RequestOfFits(id: SessionId4, grant: Grant, names: seq<Utf8>)
    requires grant.slot < U32_MODULUS && |names| + 3 < MAX_LEN
    requires forall i | 0 <= i < |names| :: Fits(names[i])
    ensures ArgsFit(ResolveArgs(id, grant, names))
  {
    hide ResolveTag, Lookups, ValidUtf8, ArgFits;
    LookupsFit(names);
    var head := [NfsArgOp4.Sequence(id, grant.sequence, grant.slot, grant.highest, false), NfsArgOp4.PutRootFh];
    EndsFit(id, grant);
    AllFit(head, Lookups(names));
    AllFit(head + Lookups(names), [NfsArgOp4.GetFh]);
  }

  lemma {:induction false} EndsFit(id: SessionId4, grant: Grant)
    requires grant.slot < U32_MODULUS
    ensures ArgFits(NfsArgOp4.Sequence(id, grant.sequence, grant.slot, grant.highest, false))
    ensures ArgFits(NfsArgOp4.PutRootFh) && ArgFits(NfsArgOp4.GetFh)
  {
  }

  /** A path short enough for its request to be encoded. */
  lemma {:induction false} RequestFits(id: SessionId4, grant: Grant, path: Utf8)
    requires grant.slot < U32_MODULUS && |path| + 5 < MAX_LEN
    ensures ArgsFit(ResolveArgs(id, grant, Names(path)))
    ensures |Names(path)| + 3 < MAX_LEN
  {
    hide ResolveArgs, ArgsFit, ToNfsComponents, ValidUtf8;
    ComponentSizes(path);
    RequestOfFits(id, grant, Names(path));
  }

  lemma {:induction false} ComponentSizes(path: seq<byte>)
    ensures |ToNfsComponents(path)| <= |path| + 1
    ensures forall i | 0 <= i < |ToNfsComponents(path)| :: |ToNfsComponents(path)[i]| <= |path|
  {
    hide Split, NonEmpty, StatusCodes, IsStatus;
    SplitSizes(path);
    NonEmptySizes(Split(path), |path|);
  }

  lemma {:induction false} SplitSizes(s: seq<byte>)
    ensures |Split(s)| <= |s| + 1
    ensures forall i | 0 <= i < |Split(s)| :: |Split(s)[i]| <= |s|
  {
    if s != [] {
      SplitSizes(s[1..]);
    }
  }

  lemma {:induction false} NonEmptySizes(pieces: seq<seq<byte>>, n: nat)
    requires forall i | 0 <= i < |pieces| :: |pieces[i]| <= n
    ensures |NonEmpty(pieces)| <= |pieces|
    ensures forall i | 0 <= i < |NonEmpty(pieces)| :: |NonEmpty(pieces)[i]| <= n
  {
    if pieces != [] {
      NonEmptySizes(pieces[1..], n);
    }
  }

  // ------------------------------------------------------------- main results

  /** What the server makes of the resolve_path that the client is about to send. */
  function ServedNext(st: ClientState, srv: Server, path: Utf8): (Server, Compound4res)
    requires st.Valid() && st.session.Some? && st.session.value.slots.Alloc().1.Some?
  {
    hide Slots.Alloc;
    var s := st.session.value;
    Serve(srv, ResolveArgs(s.sessionId, s.slots.Alloc().1.value, Names(path)))
  }

  /** The chunks begin with the server's reply, cut anywhere. */
  predicate ReplyArrives(st: ClientState, srv: Server, path: Utf8, verf: AuthFlavor, cut: seq<seq<byte>>,
      rest: seq<seq<byte>>)
    requires st.Valid() && st.session.Some? && st.session.value.slots.Alloc().1.Some?
  {
    ComesNext(st.line, verf, ServedNext(st, srv, path).1, cut, rest)
  }

  lemma {:induction false} GrantExpected(s: SessionState, srv: Server)
    requires InStep(s, srv) && s.slots.Alloc().1.Some?
    ensures Expects(srv, s.sessionId, s.slots.Alloc().1.value)
  {
    hide Judge, StatusCodes, IsStatus;
    SlotGivenBack(s.slots);
  }

  /** The response is sendable whatever the server's state. */
  lemma {:induction false} AnySendable(srv: Server, id: SessionId4, grant: Grant, names: seq<Utf8>)
    requires grant.slot < U32_MODULUS && ShortHandles(srv.root) && |names| + 3 < MAX_LEN
    ensures Sendable(Serve(srv, ResolveArgs(id, grant, names)).1)
  {
    hide Serve, ResolveArgs, Sendable, ShortHandles, Expects, SequenceVerdict, StatusCodes, IsStatus, ValidUtf8;
    if Expects(srv, id, grant) {
      ServeWalks(srv, id, grant, names);
      WalkSendable(srv, id, grant, names);
    } else {
      ServeRefuses(srv, id, grant, names);
      SequenceRefused(srv, id, grant);
      RefusedSendable(SequenceVerdict(srv, id, grant));
    }
  }

  /** The server's response reaches the client. */
  lemma {:induction false} ResponseTaken(st: ClientState, srv: Server, auth: AuthFlavor, path: Utf8, verf: AuthFlavor,
                                         cut: seq<seq<byte>>, rest: seq<seq<byte>>)
    requires st.Valid() && st.session.Some? && st.session.value.slots.Alloc().1.Some?
    requires ShortHandles(srv.root) && |path| + 5 < MAX_LEN && Short(auth) && Short(verf)
    requires ReplyArrives(st, srv, path, verf, cut, rest)
    ensures var s := st.session.value;
      var grant := s.slots.Alloc().1.value;
      var (line, answer) := CompoundStep(st.line, auth, ResolveArgs(s.sessionId, grant, Names(path)));
      && answer == Outcome.Done(ServedNext(st, srv, path).1)
      && line.chunks == rest && line.nextXid == (st.line.nextXid + 1) % U32_MODULUS
  {
    hide Slots.Alloc, CompoundStep, Serve, ResolveArgs, ReplyBytes, IsCut, Short, ShortHandles, Sendable, ArgsFit,
      Names, RecordMarking.Frame, StatusCodes, IsStatus;
    var s := st.session.value;
    var grant := s.slots.Alloc().1.value;
    RequestFits(s.sessionId, grant, path);
    AnySendable(srv, s.sessionId, grant, Names(path));
    var args := ResolveArgs(s.sessionId, grant, Names(path));
    Exchanged(st.line, auth, args, verf, ServedNext(st, srv, path).1, cut, rest);
  }

  /** The answer to a resolution: the walk if the server takes the SEQUENCE as new,
      and otherwise the server's refusal. */
  function ResolveAnswer(srv: Server, id: SessionId4, grant: Grant, names: seq<Utf8>): Outcome<NfsFh4> {
    if Expects(srv, id, grant) then WalkOutcome(srv.root, names) else Fault(Nfs(SequenceVerdict(srv, id, grant)))
  }

  /** The server after it: moved on by this request, or as before. */
  function SequenceServed(srv: Server, id: SessionId4, grant: Grant): Server {
    if Expects(srv, id, grant) then AfterSequence(srv, grant) else srv
  }

  /** resolve_path against a server in any state. Whatever it answers, the client's
      slot is free again and its sequence id has moved on. */
  lemma {:induction false} ResolveAnyServer(st: ClientState, srv: Server, auth: AuthFlavor, path: Utf8,
                                            verf: AuthFlavor, cut: seq<seq<byte>>, rest: seq<seq<byte>>)
    requires st.Valid() && st.session.Some? && st.session.value.slots.Alloc().1.Some?
    requires ShortHandles(srv.root) && |path| + 5 < MAX_LEN && Short(auth) && Short(verf)
    requires ReplyArrives(st, srv, path, verf, cut, rest)
    ensures var (st', answer) := ResolveStep(st, auth, path);
      var s := st.session.value;
      var grant := s.slots.Alloc().1.value;
      && answer == ResolveAnswer(srv, s.sessionId, grant, Names(path))
      && ServedNext(st, srv, path).0 == SequenceServed(srv, s.sessionId, grant)
      && st'.session == Some(s.(slots := MovedOn(s.slots, grant.slot)))
      && st'.line.chunks == rest && st'.line.nextXid == (st.line.nextXid + 1) % U32_MODULUS
  {
    hide Slots.Alloc, Slots.Release, CompoundStep, TakeHandle, WalkOutcome, WalkResponse, ResolveArgs, ReplyArrives,
      Short, ShortHandles, Names, Expects, SequenceVerdict, RefusedResponse, AfterSequence, Serve, StatusCodes,
      IsStatus, ValidUtf8;
    var s := st.session.value;
    var grant := s.slots.Alloc().1.value;
    SlotGivenBack(s.slots);
    ResponseTaken(st, srv, auth, path, verf, cut, rest);
    if Expects(srv, s.sessionId, grant) {
      ServeWalks(srv, s.sessionId, grant, Names(path));
      HandleTaken(srv, s.sessionId, grant, Names(path));
    } else {
      ServeRefuses(srv, s.sessionId, grant, Names(path));
      SequenceRefused(srv, s.sessionId, grant);
      RefusedSendable(SequenceVerdict(srv, s.sessionId, grant));
    }
  }

  /** resolve_path is a walk: against a server in step with the client, it returns
      the handle of the node that the path's components lead to from the root, and
      otherwise the status of the first LOOKUP that fails. The slot is free again,
      and the two are still in step. */
  lemma {:induction false} ResolveIsWalk(st: ClientState, srv: Server, auth: AuthFlavor, path: Utf8, verf: AuthFlavor,
                                         cut: seq<seq<byte>>, rest: seq<seq<byte>>)
    requires st.Valid() && st.session.Some? && InStep(st.session.value, srv) && st.session.value.slots.Alloc().1.Some?
    requires ShortHandles(srv.root) && |path| + 5 < MAX_LEN && Short(auth) && Short(verf)
    requires ReplyArrives(st, srv, path, verf, cut, rest)
    ensures var (st', answer) := ResolveStep(st, auth, path);
      && answer == WalkOutcome(srv.root, Names(path))
      && st'.Valid() && st'.session.Some? && st'.session.value.slots.inUse == st.session.value.slots.inUse
      && st'.session.value.sessionId == st.session.value.sessionId
      && var grant, srv' := st.session.value.slots.Alloc().1.value, ServedNext(st, srv, path).0;
      && grant.slot < |srv.session.value.last| && Judge(srv.session.value.last[grant.slot], grant.sequence) == New
      && InStep(st'.session.value, srv') && srv'.root == srv.root
      && st'.line.chunks == rest && st'.line.nextXid == (st.line.nextXid + 1) % U32_MODULUS
  {
    hide Slots.Alloc, ResolveStep, WalkOutcome, ReplyArrives, ServedNext, Short, ShortHandles, Names, Expects,
      InStep, SequenceVerdict, Judge, StatusCodes, IsStatus, ValidUtf8;
    var s := st.session.value;
    var grant := s.slots.Alloc().1.value;
    GrantExpected(s, srv);
    ResolveAnyServer(st, srv, auth, path, verf, cut, rest);
    StaysInStep(s, srv, grant);
    ExpectedIsNew(srv, s.sessionId, grant);
  }

  lemma {:induction false} ExpectedIsNew(srv: Server, id: SessionId4, grant: Grant)
    requires Expects(srv, id, grant)
    ensures grant.slot < |srv.session.value.last| && Judge(srv.session.value.last[grant.slot], grant.sequence) == New
  {
  }

  lemma {:induction false} StaysInStep(s: SessionState, srv: Server, grant: Grant)
    requires InStep(s, srv) && s.slots.Alloc().1 == Some(grant)
    ensures InStep(s.(slots := MovedOn(s.slots, grant.slot)), SequenceServed(srv, s.sessionId, grant))
  {
  }

  // ------------------------------------------------------------------- runs

  /** Any number of resolutions, one after the other. */
  function ResolveAll(st: ClientState, auth: AuthFlavor, paths: seq<Utf8>): (r: (ClientState, seq<Outcome<NfsFh4>>))
    requires st.Valid()
    ensures |r.1| == |paths|
    decreases |paths|
  {
    hide ResolveStep;
    if paths == [] then (st, [])
    else
      var (st', answer) := ResolveStep(st, auth, paths[0]);
      var (end, answers) := ResolveAll(st', auth, paths[1..]);
      (end, [answer] + answers)
  }

  function Joined(cuts: seq<seq<seq<byte>>>): seq<seq<byte>> {
    if cuts == [] then [] else cuts[0] + Joined(cuts[1..])
  }

  /** The server answers each of the resolutions in turn: its i-th reply arrives as
      the i-th cut. */
  predicate Answers(st: ClientState, srv: Server, auth: AuthFlavor, verf: AuthFlavor, paths: seq<Utf8>,
                    cuts: seq<seq<seq<byte>>>, rest: seq<seq<byte>>)
    requires st.Valid()
    decreases |paths|
  {
    && |cuts| == |paths|
    && if paths == [] then st.line.chunks == rest
       else
         && st.session.Some? && st.session.value.slots.Alloc().1.Some?
         && ReplyArrives(st, srv, paths[0], verf, cuts[0], Joined(cuts[1..]) + rest)
         && Answers(ResolveStep(st, auth, paths[0]).0, ServedNext(st, srv, paths[0]).0, auth, verf, paths[1..],
                    cuts[1..], rest)
  }

  /** The server after all of them. */
  function ServerEnd(st: ClientState, srv: Server, auth: AuthFlavor, verf: AuthFlavor, paths: seq<Utf8>,
                     cuts: seq<seq<seq<byte>>>, rest: seq<seq<byte>>): Server
    requires st.Valid() && Answers(st, srv, auth, verf, paths, cuts, rest)
    decreases |paths|
  {
    hide ResolveStep, Slots.Alloc, ReplyArrives, ServedNext;
    if paths == [] then srv
    else
      ServerEnd(ResolveStep(st, auth, paths[0]).0, ServedNext(st, srv, paths[0]).0, auth, verf, paths[1..], cuts[1..],
                rest)
  }

  /** Over any run of resolutions every answer is the walk, and in the end the same
      slots are free and client and server are still in step. */
  lemma {:induction false} ResolutionsAreWalks(st: ClientState, srv: Server, auth: AuthFlavor, verf: AuthFlavor,
                                               paths: seq<Utf8>, cuts: seq<seq<seq<byte>>>, rest: seq<seq<byte>>)
    requires st.Valid() && st.session.Some? && InStep(st.session.value, srv)
    requires ShortHandles(srv.root) && Short(auth) && Short(verf)
    requires forall i | 0 <= i < |paths| :: |paths[i]| + 5 < MAX_LEN
    requires Answers(st, srv, auth, verf, paths, cuts, rest)
    ensures var (end, answers) := ResolveAll(st, auth, paths);
      && (forall i | 0 <= i < |paths| :: answers[i] == WalkOutcome(srv.root, Names(paths[i])))
      && end.Valid() && end.session.Some? && end.session.value.slots.inUse == st.session.value.slots.inUse
      && end.session.value.sessionId == st.session.value.sessionId
      && InStep(end.session.value, ServerEnd(st, srv, auth, verf, paths, cuts, rest))
      && end.line.chunks == rest
    decreases |paths|
  {
    hide ResolveStep, Slots.Alloc, ReplyArrives, ServedNext, ShortHandles, Short, WalkOutcome, Names, InStep,
      StatusCodes, IsStatus, ValidUtf8, AfterSequence, Judge;
    if paths != [] {
      ResolveIsWalk(st, srv, auth, paths[0], verf, cuts[0], Joined(cuts[1..]) + rest);
      var st' := ResolveStep(st, auth, paths[0]).0;
      ResolutionsAreWalks(st', ServedNext(st, srv, paths[0]).0, auth, verf, paths[1..], cuts[1..], rest);
    }
  }

  // --------------------------------------------------------- a lost request

  /** How far the client's next request on the lowest free slot runs ahead of what the
      server expects there. */
  function Gap(s: SessionState, srv: Server): nat
    requires s.slots.Valid() && s.slots.Alloc().1.Some? && srv.session.Some?
    requires s.slots.Alloc().1.value.slot < |srv.session.value.last|
  {
    var grant := s.slots.Alloc().1.value;
    (grant.sequence - srv.session.value.last[grant.slot] - 1) % U32_MODULUS
  }

  lemma {:induction false} GapVerdict(s: SessionState, srv: Server)
    requires s.slots.Valid() && s.slots.Alloc().1.Some? && srv.session.Some? && srv.session.value.id == s.sessionId
    requires s.slots.Alloc().1.value.slot < |srv.session.value.last|
    ensures var status := SequenceVerdict(srv, s.sessionId, s.slots.Alloc().1.value);
      && (Gap(s, srv) == 0 <==> Expects(srv, s.sessionId, s.slots.Alloc().1.value))
      && (0 < Gap(s, srv) < U32_MODULUS - 1 ==> status == Nfs4ErrSeqMisordered())
      && (Gap(s, srv) == U32_MODULUS - 1 ==> status == Nfs4ErrRetryUncachedRep())
  {
    hide StatusCodes, IsStatus, ValidUtf8;
  }

  lemma {:induction false} GapGrows(s: SessionState, srv: Server)
    requires s.slots.Valid() && s.slots.Alloc().1.Some? && srv.session.Some?
    requires s.slots.Alloc().1.value.slot < |srv.session.value.last|
    ensures var grant := s.slots.Alloc().1.value;
      var s' := s.(slots := MovedOn(s.slots, grant.slot));
      && s'.slots.Valid() && s'.slots.Alloc().1.Some? && s'.slots.Alloc().1.value.slot == grant.slot
      && Gap(s', srv) == (Gap(s, srv) + 1) % U32_MODULUS
  {
    AllocIs(s.slots);
    var k := s.slots.FirstFree(0);
    var t := MovedOn(s.slots, k);
    SameFirstFree(s.slots, t, 0);
    AllocIs(t);
    GapArithmetic(s.slots.sequence[k], srv.session.value.last[k]);
    hide Slots.Alloc, Slots.FirstFree;
  }

  lemma {:induction false} AllocIs(s: Slots)
    requires s.Valid()
    ensures var k := s.FirstFree(0);
      if k == |s.inUse| then s.Alloc().1.None?
      else s.Alloc().1 == Some(Grant(k, s.sequence[k], Highest(|s.inUse|)))
  {
    hide Slots.FirstFree, Highest;
  }

  lemma {:induction false} GapArithmetic(sequence: u32, last: u32)
    ensures ((sequence + 1) % U32_MODULUS - last - 1) % U32_MODULUS
            == ((sequence - last - 1) % U32_MODULUS + 1) % U32_MODULUS
  {
  }

  lemma {:induction false} SameFirstFree(s: Slots, t: Slots, from: nat)
    requires s.inUse == t.inUse && from <= |s.inUse|
    ensures s.FirstFree(from) == t.FirstFree(from)
    decreases |s.inUse| - from
  {
    if from < |s.inUse| && s.inUse[from] {
      SameFirstFree(s, t, from + 1);
    }
  }

  /** A resolution the server never sees opens a gap of one. */
  lemma {:induction false} LossOpensGap(st: ClientState, srv: Server, auth: AuthFlavor, path: Utf8)
    requires st.Valid() && st.session.Some? && InStep(st.session.value, srv) && st.session.value.slots.Alloc().1.Some?
    ensures var st' := ResolveStep(st, auth, path).0;
      && st'.session.Some? && st'.session.value.sessionId == st.session.value.sessionId
      && var s' := st'.session.value;
      && s'.slots.Alloc().1.Some? && s'.slots.Alloc().1.value.slot < |srv.session.value.last|
      && Gap(s', srv) == 1
  {
    hide Slots.Alloc, Slots.FirstFree, Gap, Expects, InStep, ResolveStep, SequenceVerdict, StatusCodes, IsStatus,
      ValidUtf8;
    var s := st.session.value;
    GrantExpected(s, srv);
    GrantInRange(s, srv);
    GapVerdict(s, srv);
    GapGrows(s, srv);
    SlotAlwaysFreed(st, auth, path);
    AllocIs(s.slots);
  }

  lemma {:induction false} GrantInRange(s: SessionState, srv: Server)
    requires InStep(s, srv) && s.slots.Alloc().1.Some?
    ensures s.slots.Valid() && srv.session.Some? && srv.session.value.id == s.sessionId
    ensures s.slots.Alloc().1.value.slot < |srv.session.value.last|
  {
    hide Judge;
  }

  /** One request lost on the lowest free slot blocks path resolution: first fit takes
      that slot again every time, the server refuses every request as misordered and
      stays where it is, and the gap only grows, until it has gone round. */
  lemma {:induction false} LostRequestBlocks(st: ClientState, srv: Server, auth: AuthFlavor, verf: AuthFlavor,
                                             paths: seq<Utf8>, cuts: seq<seq<seq<byte>>>, rest: seq<seq<byte>>)
    requires st.Valid() && st.session.Some? && st.session.value.slots.Alloc().1.Some?
    requires srv.session.Some? && srv.session.value.id == st.session.value.sessionId
    requires st.session.value.slots.Alloc().1.value.slot < |srv.session.value.last|
    requires 0 < Gap(st.session.value, srv) && Gap(st.session.value, srv) + |paths| < U32_MODULUS
    requires ShortHandles(srv.root) && Short(auth) && Short(verf)
    requires forall i | 0 <= i < |paths| :: |paths[i]| + 5 < MAX_LEN
    requires Answers(st, srv, auth, verf, paths, cuts, rest)
    ensures var (end, answers) := ResolveAll(st, auth, paths);
      && (forall i | 0 <= i < |paths| :: answers[i] == Fault(Nfs(Nfs4ErrSeqMisordered())))
      && end.session.Some? && end.session.value.slots.inUse == st.session.value.slots.inUse
    ensures ServerEnd(st, srv, auth, verf, paths, cuts, rest) == srv
    decreases |paths|
  {
    hide ResolveStep, Slots.Alloc, ReplyArrives, ServedNext, ShortHandles, Short, WalkOutcome, Names, Gap, Expects,
      SequenceVerdict, StatusCodes, IsStatus, ValidUtf8, AfterSequence, Judge;
    if paths != [] {
      var s := st.session.value;
      ResolveAnyServer(st, srv, auth, paths[0], verf, cuts[0], Joined(cuts[1..]) + rest);
      GapVerdict(s, srv);
      GapGrows(s, srv);
      var st' := ResolveStep(st, auth, paths[0]).0;
      LostRequestBlocks(st', srv, auth, verf, paths[1..], cuts[1..], rest);
    }
  }
}
