/** A server to resolve paths against: a tree of nodes, one client, one session
    with a sequence id per slot. It runs the operations of a COMPOUND in order and
    stops at the first that fails (sections 16.2 and 18.46 of RFC 8881). */
module NfsServer {
  import opened Wire
  import opened XdrStructs
  import opened Nfs4Types
  import opened CompoundArgs
  import opened SlotProtocol
  import opened Options

  // ---------------------------------------------------------------- statuses

  function Nfs4ErrNoEnt(): NfsStat4 { 2 }
  function Nfs4ErrNotDir(): NfsStat4 { 20 }
  function Nfs4ErrNotSupp(): NfsStat4 { 10004 }
  function Nfs4ErrNoFileHandle(): NfsStat4 { 10020 }
  function Nfs4ErrStaleClientId(): NfsStat4 { 10022 }
  function Nfs4ErrBadSession(): NfsStat4 { 10052 }
  function Nfs4ErrBadSlot(): NfsStat4 { 10053 }
  function Nfs4ErrSeqMisordered(): NfsStat4 { 10063 }
  function Nfs4ErrRetryUncachedRep(): NfsStat4 { 10068 }

  // -------------------------------------------------------------------- tree

  type Failure = s: NfsStat4 | s != NFS4_OK witness Nfs4ErrNoEnt()

  /** Locked is an entry that cannot be looked up, for whatever reason. */
  datatype Node =
    | Directory(fh: NfsFh4, entries: map<Utf8, Node>)
    | File(fh: NfsFh4)
    | Locked(why: Failure)

  datatype Step = At(node: Node) | Refused(why: Failure)

  function Enter(n: Node, name: Utf8): Step {
    match n
    case Directory(_, entries) =>
      if name !in entries then Refused(Nfs4ErrNoEnt())
      else if entries[name].Locked? then Refused(entries[name].why)
      else At(entries[name])
    case File(_) => Refused(Nfs4ErrNotDir())
    case Locked(why) => Refused(why)
  }

  /** Where a list of names leads from a node: to a node, or to the name it stops at. */
  datatype Walked = Reached(node: Node) | Stopped(at: nat, why: Failure)

  function Walk(n: Node, names: seq<Utf8>): Walked {
    if names == [] then Reached(n)
    else
      match Enter(n, names[0])
      case Refused(why) => Stopped(0, why)
      case At(m) =>
        match Walk(m, names[1..])
        case Reached(end) => Reached(end)
        case Stopped(k, why) => Stopped(k + 1, why)
  }

  /** Every handle in the tree is short enough to be sent. */
  predicate ShortHandles(n: Node) {
    match n
    case Directory(fh, entries) => |fh| <= 128 && forall name | name in entries :: ShortHandles(entries[name])
    case File(fh) => |fh| <= 128
    case Locked(_) => true
  }

  // --------------------------------------------------------------- operations

  datatype ServerSession = ServerSession(id: SessionId4, last: seq<u32>)

  /** The session id and the slots the next CREATE_SESSION will grant are part of
      the server. */
  datatype Server = Server(
    root: Node, clientid: u64, nextId: SessionId4, slots: u32, session: Option<ServerSession>)

  /** What one operation does: the server after it, the current filehandle, the result. */
  datatype Done = Done(server: Server, current: Option<Node>, result: NfsResOp4)

  function DoSequence(srv: Server, current: Option<Node>, id: SessionId4, sequenceid: u32, slot: u32): Done {
    if srv.session.None? || srv.session.value.id != id then
      Done(srv, current, NfsResOp4.Sequence(Res(Nfs4ErrBadSession(), None)))
    else if slot >= |srv.session.value.last| then
      Done(srv, current, NfsResOp4.Sequence(Res(Nfs4ErrBadSlot(), None)))
    else
      var s := srv.session.value;
      match Judge(s.last[slot], sequenceid)
      case New =>
        var top: u32 := (|s.last| - 1) % U32_MODULUS;
        Done(srv.(session := Some(s.(last := s.last[slot := sequenceid]))), current,
             NfsResOp4.Sequence(Res(NFS4_OK, Some(Sequence4resok(id, sequenceid, slot, top, top, 0)))))
      case Replay => Done(srv, current, NfsResOp4.Sequence(Res(Nfs4ErrRetryUncachedRep(), None)))
      case Misordered => Done(srv, current, NfsResOp4.Sequence(Res(Nfs4ErrSeqMisordered(), None)))
  }

  function DoLookup(srv: Server, current: Option<Node>, name: Utf8): Done {
    match current
    case None => Done(srv, current, NfsResOp4.Lookup(Nfs4ErrNoFileHandle()))
    case Some(n) =>
      match Enter(n, name)
      case At(m) => Done(srv, Some(m), NfsResOp4.Lookup(NFS4_OK))
      case Refused(why) => Done(srv, current, NfsResOp4.Lookup(why))
  }

  function DoGetFh(srv: Server, current: Option<Node>): Done {
    match current
    case None => Done(srv, current, NfsResOp4.GetFh(Res(Nfs4ErrNoFileHandle(), None)))
    case Some(n) =>
      Done(srv, current,
           NfsResOp4.GetFh(if n.Locked? then Res(n.why, None) else Res(NFS4_OK, Some(n.fh))))
  }

  function DoCreateSession(srv: Server, current: Option<Node>, clientid: u64, sequence: u32, fore: ChannelAttrs4,
      back: ChannelAttrs4): Done {
    if clientid != srv.clientid then
      Done(srv, current, NfsResOp4.CreateSession(Res(Nfs4ErrStaleClientId(), None)))
    else
      Done(srv.(session := Some(ServerSession(srv.nextId, seq(srv.slots, _ => 0)))), current,
           NfsResOp4.CreateSession(Res(NFS4_OK, Some(
             CreateSession4resok(srv.nextId, sequence, 0, fore.(maxRequests := srv.slots), back)))))
  }

  function DoDestroySession(srv: Server, current: Option<Node>, id: SessionId4): Done {
    if srv.session.None? || srv.session.value.id != id then
      Done(srv, current, NfsResOp4.DestroySession(Nfs4ErrBadSession()))
    else Done(srv.(session := None), current, NfsResOp4.DestroySession(NFS4_OK))
  }

  function Do(srv: Server, current: Option<Node>, op: NfsArgOp4): Done {
    match op
    case PutRootFh => Done(srv, Some(srv.root), NfsResOp4.PutRootFh(NFS4_OK))
    case Lookup(name) => DoLookup(srv, current, name)
    case GetFh => DoGetFh(srv, current)
    case ExchangeId(_, _, _) =>
      Done(srv, current, NfsResOp4.ExchangeId(Res(NFS4_OK, Some(
        ExchangeId4resok(srv.clientid, 1, 0, ServerOwner4(0, []), [], [])))))
    case CreateSession(id, sequence, _, fore, back, _, _) => DoCreateSession(srv, current, id, sequence, fore, back)
    case DestroySession(id) => DoDestroySession(srv, current, id)
    case Sequence(id, sequenceid, slot, _, _) => DoSequence(srv, current, id, sequenceid, slot)
    case ReclaimComplete(_) => Done(srv, current, NfsResOp4.ReclaimComplete(NFS4_OK))
    case _ => Done(srv, current, Unsupported(op))
  }

  /** The server has a tree to look names up in and nothing to read or change. */
  function Unsupported(op: NfsArgOp4): NfsResOp4
    requires op.PutFh? || op.GetAttr? || op.SetAttr? || op.Open? || op.Close? || op.Read? || op.Write?
      || op.ReadDir? || op.Remove? || op.Rename?
  {
    match op
    case PutFh(_) => NfsResOp4.PutFh(Nfs4ErrNotSupp())
    case GetAttr(_) => NfsResOp4.GetAttr(Res(Nfs4ErrNotSupp(), None))
    case SetAttr(_, _) => NfsResOp4.SetAttr(Res(Nfs4ErrNotSupp(), None))
    case Open(_, _, _, _, _, _) => NfsResOp4.Open(Res(Nfs4ErrNotSupp(), None))
    case Close(_, _) => NfsResOp4.Close(Res(Nfs4ErrNotSupp(), None))
    case Read(_, _, _) => NfsResOp4.Read(Res(Nfs4ErrNotSupp(), None))
    case Write(_, _, _, _) => NfsResOp4.Write(Res(Nfs4ErrNotSupp(), None))
    case ReadDir(_, _, _, _, _) => NfsResOp4.ReadDir(Res(Nfs4ErrNotSupp(), None))
    case Remove(_) => NfsResOp4.Remove(Res(Nfs4ErrNotSupp(), None))
    case Rename(_, _) => NfsResOp4.Rename(Res(Nfs4ErrNotSupp(), None))
  }

  function StatusIn(op: NfsResOp4): NfsStat4 {
    match op
    case PutRootFh(s) => s
    case PutFh(s) => s
    case Lookup(s) => s
    case GetFh(r) => r.status
    case GetAttr(r) => r.status
    case SetAttr(r) => r.status
    case Open(r) => r.status
    case Close(r) => r.status
    case Read(r) => r.status
    case Write(r) => r.status
    case ReadDir(r) => r.status
    case Remove(r) => r.status
    case Rename(r) => r.status
    case ExchangeId(r) => r.status
    case CreateSession(r) => r.status
    case DestroySession(s) => s
    case Sequence(r) => r.status
    case ReclaimComplete(s) => s
  }

  datatype Ran = Ran(server: Server, results: seq<NfsResOp4>, status: NfsStat4)

  /** Results up to and including the first failure, whose status is the whole's. */
  function Run(srv: Server, current: Option<Node>, ops: seq<NfsArgOp4>): Ran
    decreases |ops|
  {
    if ops == [] then Ran(srv, [], NFS4_OK)
    else
      var d := Do(srv, current, ops[0]);
      if StatusIn(d.result) != NFS4_OK then Ran(d.server, [d.result], StatusIn(d.result))
      else
        var later := Run(d.server, d.current, ops[1..]);
        later.(results := [d.result] + later.results)
  }

  function Serve(srv: Server, args: Compound4args): (Server, Compound4res) {
    var ran := Run(srv, None, args.argarray);
    (ran.server, Compound4res(ran.status, args.tag, ran.results))
  }
}
