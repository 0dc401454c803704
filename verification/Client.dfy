/** The NFS client: one COMPOUND over the transport, the session it establishes
    and gives up, and path resolution on top. Each method is proved against a
    function from the state before to the state after. */
module NfsClient {
  import opened Wire
  import opened Xdr
  import opened XdrStructs
  import opened Rpc
  import opened Transport
  import opened Nfs4Types
  import opened Compound
  import opened CompoundArgs
  import opened SessionSlots
  import opened Options

  const NFS4_PROGRAM: u32 := 100003
  const NFS4_VERSION: u32 := 4
  const NFSPROC4_COMPOUND: u32 := 1

  /** Aborted is no error value of the source: it stands for indexing an empty array. */
  datatype NfsError =
    | Nfs(status: NfsStat4)
    | OverRpc(rpc: RpcError)
    | Rejected(accept: AcceptStatus)
    | InXdr(xdr: XdrError)
    | NoSession
    | UnexpectedResponse(expected: string)
    | Aborted

  datatype Outcome<+T> = Done(value: T) | Fault(error: NfsError) {
    predicate IsFailure() { Fault? }

    function PropagateFailure<U>(): Outcome<U>
      requires Fault?
    {
      Fault(error)
    }

    function Extract(): T
      requires Done?
    {
      value
    }
  }

  // ------------------------------------------------------------- one COMPOUND

  function Unpack(answer: Answer<RpcReply>): Outcome<Compound4res> {
    match answer
    case Error(e) => Fault(OverRpc(e))
    case Reply(reply) =>
      match reply.status
      case Success(data) =>
        (match DecodeCompound(data)
         case Got(res, _) => Done(res)
         case Failed(e, _) => Fault(InXdr(e)))
      case other => Fault(Rejected(other))
  }

  function CompoundCall(xid: u32, auth: AuthFlavor, body: seq<byte>): RpcCall {
    RpcCall(xid, NFS4_PROGRAM, NFS4_VERSION, NFSPROC4_COMPOUND, auth, NoAuth, body)
  }

  function CompoundStep(line: Line, auth: AuthFlavor, args: Compound4args): (Line, Outcome<Compound4res>) {
    match EncodeArgs(args)
    case Stuck(e, _) => (line, Fault(InXdr(e)))
    case Wrote(body) =>
      var (line', answer) := CallStep(line, CompoundCall(line.nextXid, auth, body));
      (line', Unpack(answer))
  }

  // ------------------------------------------------------------------ sessions

  datatype SessionState = SessionState(sessionId: SessionId4, clientId: u64, slots: Slots)

  datatype ClientState = ClientState(line: Line, session: Option<SessionState>) {
    predicate Valid() { session.Some? ==> session.value.slots.Valid() }
  }

  class SessionManager {
    const sessionId: SessionId4
    const clientId: u64
    const table: SlotTable

    constructor (id: SessionId4, client: u64, maxSlots: u32)
      ensures sessionId == id && clientId == client && fresh(table) && fresh(table.inUse) && fresh(table.sequenceIds)
      ensures table.Valid() && table.State() == Fresh(maxSlots)
    {
      sessionId, clientId := id, client;
      table := new SlotTable(maxSlots);
    }

    ghost function State(): SessionState
      reads table, table.inUse, table.sequenceIds
    {
      SessionState(sessionId, clientId, table.State())
    }
  }

  /** A name in plain ASCII. */
  function Ascii(s: string): (b: Utf8)
    requires forall i | 0 <= i < |s| :: s[i] < 128 as char
  {
    var b := seq(|s|, i requires 0 <= i < |s| => s[i] as byte);
    AsciiValid(b);
    b
  }

  lemma {:induction false} AsciiValid(b: seq<byte>)
    requires forall i | 0 <= i < |b| :: b[i] < 0x80
    ensures ValidUtf8(b)
  {
    if b != [] {
      AsciiValid(b[1..]);
    }
  }

  function ExchangeTag(): (t: Utf8)
    ensures |t| == 11
  {
    Ascii("exchange_id")
  }

  function CreateTag(): (t: Utf8)
    ensures |t| == 14
  {
    Ascii("create_session")
  }

  function ReclaimTag(): (t: Utf8)
    ensures |t| == 16
  {
    Ascii("reclaim_complete")
  }

  function DestroyTag(): (t: Utf8)
    ensures |t| == 15
  {
    Ascii("destroy_session")
  }

  const DEFAULT_CHANNEL := ChannelAttrs4(0, 1_048_576, 1_048_576, 65_536, 64, 32, [])

  function ExchangeArgs(owner: ClientOwner4): Compound4args {
    Compound4args(ExchangeTag(), NFS4_MINOR_VERSION, [NfsArgOp4.ExchangeId(owner, 0, [])])
  }

  function CreateArgs(clientId: u64, sequence: u32): Compound4args {
    Compound4args(CreateTag(), NFS4_MINOR_VERSION,
                  [NfsArgOp4.CreateSession(clientId, sequence, 0, DEFAULT_CHANNEL, DEFAULT_CHANNEL, 0,
                                           [CallbackAuthNone])])
  }

  function ReclaimArgs(id: SessionId4, grant: Grant): Compound4args
    requires grant.slot < U32_MODULUS
  {
    Compound4args(ReclaimTag(), NFS4_MINOR_VERSION,
                  [NfsArgOp4.Sequence(id, grant.sequence, grant.slot, grant.highest, false),
                   NfsArgOp4.ReclaimComplete(false)])
  }

  function DestroyArgs(id: SessionId4): Compound4args {
    Compound4args(DestroyTag(), NFS4_MINOR_VERSION, [NfsArgOp4.DestroySession(id)])
  }

  /** The first result of a response that succeeded as a whole. */
  function FirstResult(res: Compound4res): Outcome<NfsResOp4> {
    if res.status != NFS4_OK then Fault(Nfs(res.status))
    else if res.resarray == [] then Fault(Aborted)
    else Done(res.resarray[0])
  }

  function BodyOf<T>(r: Res<T>, name: string): Outcome<T> {
    if r.status != NFS4_OK then Fault(Nfs(r.status))
    else if r.resok.None? then Fault(UnexpectedResponse(name))
    else Done(r.resok.value)
  }

  function ExchangeReply(answer: Outcome<Compound4res>): Outcome<ExchangeId4resok> {
    var res :- answer;
    var first :- FirstResult(res);
    if first.ExchangeId? then BodyOf(first.exchangeId, "ExchangeId4resok") else Fault(UnexpectedResponse("ExchangeId"))
  }

  function CreateReply(answer: Outcome<Compound4res>): Outcome<CreateSession4resok> {
    var res :- answer;
    var first :- FirstResult(res);
    if first.CreateSession? then BodyOf(first.createSession, "CreateSession4resok")
    else Fault(UnexpectedResponse("CreateSession"))
  }

  function StatusReply(answer: Outcome<Compound4res>): Outcome<()> {
    var res :- answer;
    if res.status == NFS4_OK then Done(()) else Fault(Nfs(res.status))
  }

  /** The new session, and RECLAIM_COMPLETE on its first slot. When that call itself
      fails the slot is not given back. */
  function ReclaimStep(line: Line, auth: AuthFlavor, id: SessionId4, clientId: u64, maxSlots: u32)
    : (r: (ClientState, Outcome<()>))
    ensures r.0.Valid()
  {
    hide CompoundStep, ReclaimArgs, Slots.Alloc, Slots.Release;
    var slots := Fresh(maxSlots);
    var session := SessionState(id, clientId, slots);
    var (taken, grant) := slots.Alloc();
    if grant.None? then (ClientState(line, Some(session.(slots := taken))), Fault(NoSession))
    else
      var (line', answer) := CompoundStep(line, auth, ReclaimArgs(id, grant.value));
      if answer.Fault? then (ClientState(line', Some(session.(slots := taken))), Fault(answer.error))
      else (ClientState(line', Some(session.(slots := taken.Release(grant.value.slot)))), StatusReply(answer))
  }

  /** What the first two calls settle. */
  datatype Terms = Terms(sessionId: SessionId4, clientId: u64, maxSlots: u32)

  /** EXCHANGE_ID, then CREATE_SESSION with what it returned. */
  function Negotiate(line: Line, auth: AuthFlavor, owner: ClientOwner4): (Line, Outcome<Terms>) {
    hide CompoundStep, ExchangeArgs, CreateArgs;
    var (line1, answer1) := CompoundStep(line, auth, ExchangeArgs(owner));
    match ExchangeReply(answer1)
    case Fault(e) => (line1, Fault(e))
    case Done(exchange) =>
      var (line2, answer2) := CompoundStep(line1, auth, CreateArgs(exchange.clientid, exchange.sequenceid));
      match CreateReply(answer2)
      case Fault(e) => (line2, Fault(e))
      case Done(created) =>
        (line2, Done(Terms(created.sessionid, exchange.clientid, created.foreChanAttrs.maxRequests)))
  }

  /** EXCHANGE_ID, CREATE_SESSION, then RECLAIM_COMPLETE. */
  function ConnectStep(st: ClientState, auth: AuthFlavor, owner: ClientOwner4): (r: (ClientState, Outcome<()>))
    ensures st.Valid() ==> r.0.Valid()
  {
    hide Negotiate, ReclaimStep;
    var (line, terms) := Negotiate(st.line, auth, owner);
    match terms
    case Fault(e) => (ClientState(line, st.session), Fault(e))
    case Done(t) => ReclaimStep(line, auth, t.sessionId, t.clientId, t.maxSlots)
  }

  function DisconnectStep(st: ClientState, auth: AuthFlavor): (ClientState, Outcome<()>) {
    if st.session.None? then (st, Fault(NoSession))
    else
      var (line, answer) := CompoundStep(st.line, auth, DestroyArgs(st.session.value.sessionId));
      (ClientState(line, if answer.Done? then None else st.session), StatusReply(answer))
  }

  class Nfs4Client {
    const transport: TcpTransport
    const auth: AuthFlavor
    var session: SessionManager?

    constructor (t: TcpTransport, a: AuthFlavor)
      ensures transport == t && auth == a && session == null
    {
      transport, auth, session := t, a, null;
    }

    ghost predicate Valid()
      reads this
      reads if session == null then {} else {session.table, session.table.inUse, session.table.sequenceIds}
    {
      session != null ==> session.table.Valid()
    }

    ghost function View(): ClientState
      reads this, transport, transport.stream
      reads if session == null then {} else {session.table, session.table.inUse, session.table.sequenceIds}
    {
      ClientState(transport.View(), if session == null then None else Some(session.State()))
    }

    method Compound(args: Compound4args) returns (r: Outcome<Compound4res>)
      modifies transport, transport.stream
      ensures (transport.View(), r) == CompoundStep(old(transport.View()), auth, args)
    {
      hide EncodeArgs, CallStep, DecodeCompound;
      var buf := new BytesMut();
      var encoded := EncodeArgsInto(args, buf);
      if encoded.Err? {
        return Fault(InXdr(encoded.error));
      }
      assert [] + EncodeArgs(args).bytes == EncodeArgs(args).bytes;
      var response := transport.Call(NFS4_PROGRAM, NFS4_VERSION, NFSPROC4_COMPOUND, buf.data, auth, NoAuth);
      if response.Error? {
        return Fault(OverRpc(response.error));
      }
      match response.value.status {
        case Success(data) =>
          var bytes := new Bytes(data);
          var res := DecodeCompoundFrom(bytes);
          return if res.Ok? then Done(res.value) else Fault(InXdr(res.error));
        case other => return Fault(Rejected(other));
      }
    }

    method AskExchange(owner: ClientOwner4) returns (r: Outcome<Compound4res>)
      modifies transport, transport.stream
      ensures (transport.View(), r) == CompoundStep(old(transport.View()), auth, ExchangeArgs(owner))
    {
      hide CompoundStep;
      var builder := new CompoundBuilder();
      builder.Tag(ExchangeTag());
      builder.ExchangeId(owner, 0);
      var args := builder.Build();
      assert args == ExchangeArgs(owner);
      r := Compound(args);
    }

    method AskCreate(clientId: u64, sequence: u32) returns (r: Outcome<Compound4res>)
      modifies transport, transport.stream
      ensures (transport.View(), r) == CompoundStep(old(transport.View()), auth, CreateArgs(clientId, sequence))
    {
      hide CompoundStep;
      var builder := new CompoundBuilder();
      builder.Tag(CreateTag());
      builder.CreateSession(clientId, sequence, 0, DEFAULT_CHANNEL, DEFAULT_CHANNEL);
      var args := builder.Build();
      assert args == CreateArgs(clientId, sequence);
      r := Compound(args);
    }

    method AskReclaim(id: SessionId4, grant: Grant) returns (r: Outcome<Compound4res>)
      requires grant.slot < U32_MODULUS
      modifies transport, transport.stream
      ensures (transport.View(), r) == CompoundStep(old(transport.View()), auth, ReclaimArgs(id, grant))
    {
      hide CompoundStep;
      var builder := new CompoundBuilder();
      builder.Tag(ReclaimTag());
      builder.Sequence(id, grant.sequence, grant.slot, grant.highest);
      builder.ReclaimComplete(false);
      var args := builder.Build();
      assert args == ReclaimArgs(id, grant);
      r := Compound(args);
    }

    method Connect(owner: ClientOwner4) returns (r: Outcome<()>)
      requires Valid()
      modifies this, transport, transport.stream
      ensures Valid() && (View(), r) == ConnectStep(old(View()), auth, owner)
    {
      hide CompoundStep, ExchangeArgs, CreateArgs, ReclaimArgs, Slots.Alloc, Slots.Release, Fresh, ExchangeReply,
        CreateReply, StatusReply;
      var answer1 := AskExchange(owner);
      var exchange :- ExchangeReply(answer1);
      var answer2 := AskCreate(exchange.clientid, exchange.sequenceid);
      var created :- CreateReply(answer2);
      session := new SessionManager(created.sessionid, exchange.clientid, created.foreChanAttrs.maxRequests);
      var grant := session.table.TryAllocSlot();
      if grant.None? {
        return Fault(NoSession);
      }
      var answer3 := AskReclaim(created.sessionid, grant.value);
      if answer3.Fault? {
        return Fault(answer3.error);
      }
      session.table.ReleaseSlot(grant.value.slot);
      return StatusReply(answer3);
    }

    method Disconnect() returns (r: Outcome<()>)
      requires Valid()
      modifies this, transport, transport.stream
      ensures Valid() && (View(), r) == DisconnectStep(old(View()), auth)
    {
      hide CompoundStep, StatusReply;
      if session == null {
        return Fault(NoSession);
      }
      var builder := new CompoundBuilder();
      builder.Tag(DestroyTag());
      builder.DestroySession(session.sessionId);
      var args := builder.Build();
      assert [] + [NfsArgOp4.DestroySession(session.sessionId)] == [NfsArgOp4.DestroySession(session.sessionId)];
      var answer := Compound(args);
      if answer.Done? {
        session := null;
      }
      return StatusReply(answer);
    }
  }
}
