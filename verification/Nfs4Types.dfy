/** The NFSv4.1 result types of the wire (RFC 8881), their schemas, and the two
    directions between a typed result and its Xdr value. */
module Nfs4Types {
  import opened Wire
  import opened Xdr
  import opened XdrStructs
  import opened Options

  // ------------------------------------------------------------ basic types

  /** The codes of the variants of NfsStat4; Ok is 0. */
  function StatusCodes(): set<int> {
    {
      0, 1, 2, 5, 6, 13, 17, 18, 20, 21, 22, 27, 28, 30, 31, 63, 66, 69, 70,
      10001, 10003, 10004, 10005, 10006, 10007, 10008, 10009, 10010, 10011, 10012, 10013, 10014, 10015,
      10016, 10019, 10020, 10021, 10022, 10023, 10024, 10025, 10026, 10029, 10032, 10036, 10038, 10044,
      10047, 10048, 10052, 10053, 10054, 10055, 10063, 10064, 10065, 10066, 10067, 10068, 10069, 10070,
      10071, 10076, 10077, 10078
    }
  }

  predicate IsStatus(code: u32) { code in StatusCodes() }

  /** A status is the code its variant carries. */
  type NfsStat4 = s: u32 | IsStatus(s) witness 0

  const NFS4_OK: NfsStat4 := 0

  type Verifier4 = v: seq<byte> | |v| == 8 witness Zeros(8)
  type SessionId4 = v: seq<byte> | |v| == 16 witness Zeros(16)
  type StateIdOther = v: seq<byte> | |v| == 12 witness Zeros(12)
  type NfsFh4 = seq<byte>

  datatype StateId4 = StateId4(seqid: u32, other: StateIdOther)
  datatype ChangeInfo4 = ChangeInfo4(atomic: bool, before: u64, after: u64)
  datatype NfsTime4 = NfsTime4(seconds: i64, nseconds: u32)
  datatype Bitmap4 = Bitmap4(words: seq<u32>)
  datatype Fattr4 = Fattr4(attrmask: Bitmap4, attrVals: seq<byte>)
  datatype NfsImplId4 = NfsImplId4(domain: Utf8, name: Utf8, date: NfsTime4)
  datatype ServerOwner4 = ServerOwner4(minorId: u64, majorId: seq<byte>)
  datatype ChannelAttrs4 = ChannelAttrs4(
    headerPadSize: u32, maxRequestSize: u32, maxResponseSize: u32, maxResponseSizeCached: u32,
    maxOperations: u32, maxRequests: u32, rdmaIrd: seq<u32>)

  // ---------------------------------------------------------------- results

  /** A status and, for some operations, a body meant for status Ok only. The
      type itself does not tie the two together. */
  datatype Res<T> = Res(status: NfsStat4, resok: Option<T>)

  datatype GetAttr4resok = GetAttr4resok(objAttributes: Fattr4)
  datatype SetAttr4resok = SetAttr4resok(attrsset: Bitmap4)
  /** SP_NONE and OPEN_DELEGATE_NONE are the only choices of their unions. */
  datatype Open4resok = Open4resok(stateid: StateId4, cinfo: ChangeInfo4, rflags: u32, attrset: Bitmap4)
  datatype Close4resok = Close4resok(openStateid: StateId4)
  datatype Read4resok = Read4resok(eof: bool, data: seq<byte>)
  datatype Write4resok = Write4resok(count: u32, committed: u32, writeverf: Verifier4)
  datatype Entry4 = Entry4(cookie: u64, name: Utf8, attrs: Fattr4)
  datatype ReadDir4resok = ReadDir4resok(cookieverf: Verifier4, entries: seq<Entry4>, eof: bool)
  datatype Remove4resok = Remove4resok(cinfo: ChangeInfo4)
  datatype Rename4resok = Rename4resok(sourceCinfo: ChangeInfo4, targetCinfo: ChangeInfo4)
  datatype ExchangeId4resok = ExchangeId4resok(
    clientid: u64, sequenceid: u32, flags: u32, serverOwner: ServerOwner4,
    serverScope: seq<byte>, serverImplId: seq<NfsImplId4>)
  datatype CreateSession4resok = CreateSession4resok(
    sessionid: SessionId4, sequence: u32, flags: u32, foreChanAttrs: ChannelAttrs4, backChanAttrs: ChannelAttrs4)
  datatype Sequence4resok = Sequence4resok(
    sessionid: SessionId4, sequenceid: u32, slotid: u32, highestSlotid: u32, targetHighestSlotid: u32,
    statusFlags: u32)

  datatype NfsResOp4 =
    | PutRootFh(s: NfsStat4)
    | PutFh(s: NfsStat4)
    | Lookup(s: NfsStat4)
    | GetFh(getFh: Res<NfsFh4>)
    | GetAttr(getAttr: Res<GetAttr4resok>)
    | SetAttr(setAttr: Res<SetAttr4resok>)
    | Open(open: Res<Open4resok>)
    | Close(close: Res<Close4resok>)
    | Read(read: Res<Read4resok>)
    | Write(write: Res<Write4resok>)
    | ReadDir(readDir: Res<ReadDir4resok>)
    | Remove(remove: Res<Remove4resok>)
    | Rename(rename: Res<Rename4resok>)
    | ExchangeId(exchangeId: Res<ExchangeId4resok>)
    | CreateSession(createSession: Res<CreateSession4resok>)
    | DestroySession(s: NfsStat4)
    | Sequence(sequence: Res<Sequence4resok>)
    | ReclaimComplete(s: NfsStat4)

  datatype Compound4res = Compound4res(status: NfsStat4, tag: Utf8, resarray: seq<NfsResOp4>)

  // ---------------------------------------------------------------- schemas

  const STAT := Codes("NfsStat4", StatusCodes())
  const FILE_HANDLE := Handle(128)
  const STATE_ID := S2(U32, Fixed(12))
  const CHANGE_INFO := S3(Bool, U64, U64)
  const TIME := S2(I64, U32)
  const BITMAP := S1(Vec(U32))
  const FATTR := S2(BITMAP, Opaque)
  const IMPL_ID := S3(Text, Text, TIME)
  const SERVER_OWNER := S2(U64, Opaque)
  const CHANNEL_ATTRS := S7(U32, U32, U32, U32, U32, U32, Vec(U32))
  const STATE_PROTECT := Enum("StateProtect4r", [Arm(0, Unit)])
  const DELEGATION := Enum("OpenDelegation4", [Arm(0, Unit)])
  const SP_NONE := Variant(0, Nil)

  const GETATTR_OK := S1(FATTR)
  const SETATTR_OK := S1(BITMAP)
  const OPEN_OK := S5(STATE_ID, CHANGE_INFO, U32, BITMAP, DELEGATION)
  const CLOSE_OK := S1(STATE_ID)
  const READ_OK := S2(Bool, Opaque)
  const WRITE_OK := S3(U32, U32, Fixed(8))
  const ENTRY := S3(U64, Text, FATTR)
  const READDIR_OK := S3(Fixed(8), Chain(ENTRY), Bool)
  const REMOVE_OK := S1(CHANGE_INFO)
  const RENAME_OK := S2(CHANGE_INFO, CHANGE_INFO)
  const EXCHANGE_ID_OK := S7(U64, U32, U32, STATE_PROTECT, SERVER_OWNER, Opaque, Vec(IMPL_ID))
  const CREATE_SESSION_OK := S5(Fixed(16), U32, U32, CHANNEL_ATTRS, CHANNEL_ATTRS)
  const SEQUENCE_OK := S6(Fixed(16), U32, U32, U32, U32, U32)

  const OP_CLOSE: u32 := 4
  const OP_GETATTR: u32 := 9
  const OP_GETFH: u32 := 10
  const OP_LOOKUP: u32 := 15
  const OP_OPEN: u32 := 18
  const OP_PUTFH: u32 := 22
  const OP_PUTROOTFH: u32 := 24
  const OP_READ: u32 := 25
  const OP_READDIR: u32 := 26
  const OP_REMOVE: u32 := 28
  const OP_RENAME: u32 := 29
  const OP_SETATTR: u32 := 34
  const OP_WRITE: u32 := 38
  const OP_EXCHANGE_ID: u32 := 42
  const OP_CREATE_SESSION: u32 := 43
  const OP_DESTROY_SESSION: u32 := 44
  const OP_SEQUENCE: u32 := 53
  const OP_RECLAIM_COMPLETE: u32 := 58

  function ResArms(): seq<Arm> {
    [
      Arm(OP_PUTROOTFH, STAT),
      Arm(OP_PUTFH, STAT),
      Arm(OP_LOOKUP, STAT),
      Arm(OP_GETFH, Guarded(STAT, FILE_HANDLE)),
      Arm(OP_GETATTR, Guarded(STAT, GETATTR_OK)),
      Arm(OP_SETATTR, Guarded(STAT, SETATTR_OK)),
      Arm(OP_OPEN, Guarded(STAT, OPEN_OK)),
      Arm(OP_CLOSE, Guarded(STAT, CLOSE_OK)),
      Arm(OP_READ, Guarded(STAT, READ_OK)),
      Arm(OP_WRITE, Guarded(STAT, WRITE_OK)),
      Arm(OP_READDIR, Guarded(STAT, READDIR_OK)),
      Arm(OP_REMOVE, Guarded(STAT, REMOVE_OK)),
      Arm(OP_RENAME, Guarded(STAT, RENAME_OK)),
      Arm(OP_EXCHANGE_ID, Guarded(STAT, EXCHANGE_ID_OK)),
      Arm(OP_CREATE_SESSION, Guarded(STAT, CREATE_SESSION_OK)),
      Arm(OP_DESTROY_SESSION, STAT),
      Arm(OP_SEQUENCE, Guarded(STAT, SEQUENCE_OK)),
      Arm(OP_RECLAIM_COMPLETE, STAT)
    ]
  }

  const RES_OP := Enum("NfsResOp4", ResArms())
  const COMPOUND_RES := S3(STAT, Text, Vec(RES_OP))

  // ------------------------------------------------- typed results as values

  function StateIdValue(x: StateId4): (v: Value)
    ensures HasType(STATE_ID, v)
  {
    Typed2(U32, Fixed(12), Num(x.seqid), Data(x.other));
    V2(Num(x.seqid), Data(x.other))
  }

  function StateIdOf(v: Value): (x: StateId4)
    requires HasType(STATE_ID, v)
    ensures StateIdValue(x) == v
  {
    Fields2(U32, Fixed(12), v);
    StateId4(v.x.n, v.y.x.d)
  }

  function ChangeInfoValue(x: ChangeInfo4): (v: Value)
    ensures HasType(CHANGE_INFO, v)
  {
    Typed3(Bool, U64, U64, Flag(x.atomic), Num(x.before), Num(x.after));
    V3(Flag(x.atomic), Num(x.before), Num(x.after))
  }

  function ChangeInfoOf(v: Value): (x: ChangeInfo4)
    requires HasType(CHANGE_INFO, v)
    ensures ChangeInfoValue(x) == v
  {
    Fields3(Bool, U64, U64, v);
    ChangeInfo4(v.x.b, v.y.x.n, v.y.y.x.n)
  }

  function BitmapValue(x: Bitmap4): (v: Value)
    ensures HasType(BITMAP, v)
  {
    Typed1(Vec(U32), Words(x.words));
    V1(Words(x.words))
  }

  function BitmapOf(v: Value): (x: Bitmap4)
    requires HasType(BITMAP, v)
    ensures BitmapValue(x) == v
  {
    Fields1(Vec(U32), v);
    Bitmap4(WordsOf(v.x))
  }

  function FattrValue(x: Fattr4): (v: Value)
    ensures HasType(FATTR, v)
  {
    Typed2(BITMAP, Opaque, BitmapValue(x.attrmask), Data(x.attrVals));
    V2(BitmapValue(x.attrmask), Data(x.attrVals))
  }

  function FattrOf(v: Value): (x: Fattr4)
    requires HasType(FATTR, v)
    ensures FattrValue(x) == v
  {
    Fields2(BITMAP, Opaque, v);
    Fattr4(BitmapOf(v.x), v.y.x.d)
  }

  function ImplIdValue(x: NfsImplId4): (v: Value)
    ensures HasType(IMPL_ID, v)
  {
    var date := V2(Num(x.date.seconds), Num(x.date.nseconds));
    Typed2(I64, U32, Num(x.date.seconds), Num(x.date.nseconds));
    Typed3(Text, Text, TIME, Data(x.domain), Data(x.name), date);
    V3(Data(x.domain), Data(x.name), V2(Num(x.date.seconds), Num(x.date.nseconds)))
  }

  function ImplIdOf(v: Value): (x: NfsImplId4)
    requires HasType(IMPL_ID, v)
    ensures ImplIdValue(x) == v
  {
    Fields3(Text, Text, TIME, v);
    Fields2(I64, U32, v.y.y.x);
    NfsImplId4(v.x.d, v.y.x.d, NfsTime4(v.y.y.x.x.n, v.y.y.x.y.x.n))
  }

  function ChannelValue(x: ChannelAttrs4): (v: Value)
    ensures HasType(CHANNEL_ATTRS, v)
  {
    Typed7(U32, U32, U32, U32, U32, U32, Vec(U32),
           Num(x.headerPadSize), Num(x.maxRequestSize), Num(x.maxResponseSize), Num(x.maxResponseSizeCached),
           Num(x.maxOperations), Num(x.maxRequests), Words(x.rdmaIrd));
    V7(Num(x.headerPadSize), Num(x.maxRequestSize), Num(x.maxResponseSize), Num(x.maxResponseSizeCached),
       Num(x.maxOperations), Num(x.maxRequests), Words(x.rdmaIrd))
  }

  function ChannelOf(v: Value): (x: ChannelAttrs4)
    requires HasType(CHANNEL_ATTRS, v)
    ensures ChannelValue(x) == v
  {
    Fields7(U32, U32, U32, U32, U32, U32, Vec(U32), v);
    ChannelAttrs4(v.x.n, v.y.x.n, v.y.y.x.n, v.y.y.y.x.n, v.y.y.y.y.x.n, v.y.y.y.y.y.x.n,
                  WordsOf(v.y.y.y.y.y.y.x))
  }

  function EntryValue(x: Entry4): (v: Value)
    ensures HasType(ENTRY, v)
  {
    Typed3(U64, Text, FATTR, Num(x.cookie), Data(x.name), FattrValue(x.attrs));
    V3(Num(x.cookie), Data(x.name), FattrValue(x.attrs))
  }

  function EntryOf(v: Value): (x: Entry4)
    requires HasType(ENTRY, v)
    ensures EntryValue(x) == v
  {
    Fields3(U64, Text, FATTR, v);
    Entry4(v.x.n, v.y.x.d, FattrOf(v.y.y.x))
  }

  function ServerOwnerValue(x: ServerOwner4): (v: Value)
    ensures HasType(SERVER_OWNER, v)
  {
    hide HasType, StatusCodes, IsStatus, ValidUtf8;
    Typed2(U64, Opaque,
           Num(x.minorId), Data(x.majorId));
    V2(Num(x.minorId), Data(x.majorId))
  }

  function ServerOwnerOf(v: Value): (x: ServerOwner4)
    requires HasType(SERVER_OWNER, v)
    ensures ServerOwnerValue(x) == v
  {
    hide HasType, StatusCodes, IsStatus, ValidUtf8;
    Fields2(U64, Opaque, v);
    ServerOwner4(v.x.n, v.y.x.d)
  }

  function GetAttrValue(x: GetAttr4resok): (v: Value)
    ensures HasType(GETATTR_OK, v)
  {
    hide HasType, StatusCodes, IsStatus, ValidUtf8;
    Typed1(FATTR,
           FattrValue(x.objAttributes));
    V1(FattrValue(x.objAttributes))
  }

  function GetAttrOf(v: Value): (x: GetAttr4resok)
    requires HasType(GETATTR_OK, v)
    ensures GetAttrValue(x) == v
  {
    hide HasType, StatusCodes, IsStatus, ValidUtf8;
    Fields1(FATTR, v);
    GetAttr4resok(FattrOf(v.x))
  }

  function SetAttrValue(x: SetAttr4resok): (v: Value)
    ensures HasType(SETATTR_OK, v)
  {
    hide HasType, StatusCodes, IsStatus, ValidUtf8;
    Typed1(BITMAP,
           BitmapValue(x.attrsset));
    V1(BitmapValue(x.attrsset))
  }

  function SetAttrOf(v: Value): (x: SetAttr4resok)
    requires HasType(SETATTR_OK, v)
    ensures SetAttrValue(x) == v
  {
    hide HasType, StatusCodes, IsStatus, ValidUtf8;
    Fields1(BITMAP, v);
    SetAttr4resok(BitmapOf(v.x))
  }

  function OpenValue(x: Open4resok): (v: Value)
    ensures HasType(OPEN_OK, v)
  {
    hide HasType, StatusCodes, IsStatus, ValidUtf8;
    ChoiceTyped(DELEGATION);
    Typed5(STATE_ID, CHANGE_INFO, U32, BITMAP, DELEGATION,
           StateIdValue(x.stateid), ChangeInfoValue(x.cinfo), Num(x.rflags), BitmapValue(x.attrset), SP_NONE);
    V5(StateIdValue(x.stateid), ChangeInfoValue(x.cinfo), Num(x.rflags), BitmapValue(x.attrset), SP_NONE)
  }

  function OpenOf(v: Value): (x: Open4resok)
    requires HasType(OPEN_OK, v)
    ensures OpenValue(x) == v
  {
    hide HasType, StatusCodes, IsStatus, ValidUtf8;
    Fields5(STATE_ID, CHANGE_INFO, U32, BITMAP, DELEGATION, v);
    OnlyChoice(DELEGATION, v.y.y.y.y.x);
    Open4resok(StateIdOf(v.x), ChangeInfoOf(v.y.x), v.y.y.x.n, BitmapOf(v.y.y.y.x))
  }

  function CloseValue(x: Close4resok): (v: Value)
    ensures HasType(CLOSE_OK, v)
  {
    hide HasType, StatusCodes, IsStatus, ValidUtf8;
    Typed1(STATE_ID,
           StateIdValue(x.openStateid));
    V1(StateIdValue(x.openStateid))
  }

  function CloseOf(v: Value): (x: Close4resok)
    requires HasType(CLOSE_OK, v)
    ensures CloseValue(x) == v
  {
    hide HasType, StatusCodes, IsStatus, ValidUtf8;
    Fields1(STATE_ID, v);
    Close4resok(StateIdOf(v.x))
  }

  function ReadValue(x: Read4resok): (v: Value)
    ensures HasType(READ_OK, v)
  {
    hide HasType, StatusCodes, IsStatus, ValidUtf8;
    Typed2(Bool, Opaque,
           Flag(x.eof), Data(x.data));
    V2(Flag(x.eof), Data(x.data))
  }

  function ReadOf(v: Value): (x: Read4resok)
    requires HasType(READ_OK, v)
    ensures ReadValue(x) == v
  {
    hide HasType, StatusCodes, IsStatus, ValidUtf8;
    Fields2(Bool, Opaque, v);
    Read4resok(v.x.b, v.y.x.d)
  }

  function WriteValue(x: Write4resok): (v: Value)
    ensures HasType(WRITE_OK, v)
  {
    hide HasType, StatusCodes, IsStatus, ValidUtf8;
    Typed3(U32, U32, Fixed(8),
           Num(x.count), Num(x.committed), Data(x.writeverf));
    V3(Num(x.count), Num(x.committed), Data(x.writeverf))
  }

  function WriteOf(v: Value): (x: Write4resok)
    requires HasType(WRITE_OK, v)
    ensures WriteValue(x) == v
  {
    hide HasType, StatusCodes, IsStatus, ValidUtf8;
    Fields3(U32, U32, Fixed(8), v);
    Write4resok(v.x.n, v.y.x.n, v.y.y.x.d)
  }

  lemma {:induction false} ChoiceTyped(ty: Ty)
    requires ty.Enum? && ty.arms == [Arm(0, Unit)]
    ensures HasType(ty, SP_NONE)
  {
  }

  lemma {:induction false} OnlyChoice(ty: Ty, v: Value)
    requires ty.Enum? && ty.arms == [Arm(0, Unit)] && HasType(ty, v)
    ensures v == SP_NONE
  {
  }

  function EntriesValue(es: seq<Entry4>): (v: Value)
    ensures HasType(Chain(ENTRY), v)
  {
    List(seq(|es|, i requires 0 <= i < |es| => EntryValue(es[i])))
  }

  function EntriesOf(v: Value): (es: seq<Entry4>)
    requires HasType(Chain(ENTRY), v)
    ensures EntriesValue(es) == v
  {
    var es := seq(|v.vs|, i requires 0 <= i < |v.vs| => EntryOf(v.vs[i]));
    assert EntriesValue(es).vs == v.vs;
    es
  }

  function ImplIdsValue(ids: seq<NfsImplId4>): (v: Value)
    ensures HasType(Vec(IMPL_ID), v)
  {
    List(seq(|ids|, i requires 0 <= i < |ids| => ImplIdValue(ids[i])))
  }

  function ImplIdsOf(v: Value): (ids: seq<NfsImplId4>)
    requires HasType(Vec(IMPL_ID), v)
    ensures ImplIdsValue(ids) == v
  {
    var ids := seq(|v.vs|, i requires 0 <= i < |v.vs| => ImplIdOf(v.vs[i]));
    assert ImplIdsValue(ids).vs == v.vs;
    ids
  }

  function ReadDirValue(x: ReadDir4resok): (v: Value)
    ensures HasType(READDIR_OK, v)
  {
    hide HasType, StatusCodes, IsStatus, ValidUtf8;
    Typed3(Fixed(8), Chain(ENTRY), Bool,
           Data(x.cookieverf), EntriesValue(x.entries), Flag(x.eof));
    V3(Data(x.cookieverf), EntriesValue(x.entries), Flag(x.eof))
  }

  function ReadDirOf(v: Value): (x: ReadDir4resok)
    requires HasType(READDIR_OK, v)
    ensures ReadDirValue(x) == v
  {
    hide HasType, StatusCodes, IsStatus, ValidUtf8;
    Fields3(Fixed(8), Chain(ENTRY), Bool, v);
    ReadDir4resok(v.x.d, EntriesOf(v.y.x), v.y.y.x.b)
  }

  function RemoveValue(x: Remove4resok): (v: Value)
    ensures HasType(REMOVE_OK, v)
  {
    hide HasType, StatusCodes, IsStatus, ValidUtf8;
    Typed1(CHANGE_INFO,
           ChangeInfoValue(x.cinfo));
    V1(ChangeInfoValue(x.cinfo))
  }

  function RemoveOf(v: Value): (x: Remove4resok)
    requires HasType(REMOVE_OK, v)
    ensures RemoveValue(x) == v
  {
    hide HasType, StatusCodes, IsStatus, ValidUtf8;
    Fields1(CHANGE_INFO, v);
    Remove4resok(ChangeInfoOf(v.x))
  }

  function RenameValue(x: Rename4resok): (v: Value)
    ensures HasType(RENAME_OK, v)
  {
    hide HasType, StatusCodes, IsStatus, ValidUtf8;
    Typed2(CHANGE_INFO, CHANGE_INFO,
           ChangeInfoValue(x.sourceCinfo), ChangeInfoValue(x.targetCinfo));
    V2(ChangeInfoValue(x.sourceCinfo), ChangeInfoValue(x.targetCinfo))
  }

  function RenameOf(v: Value): (x: Rename4resok)
    requires HasType(RENAME_OK, v)
    ensures RenameValue(x) == v
  {
    hide HasType, StatusCodes, IsStatus, ValidUtf8;
    Fields2(CHANGE_INFO, CHANGE_INFO, v);
    Rename4resok(ChangeInfoOf(v.x), ChangeInfoOf(v.y.x))
  }

  function ExchangeIdValue(x: ExchangeId4resok): (v: Value)
    ensures HasType(EXCHANGE_ID_OK, v)
  {
    hide HasType, StatusCodes, IsStatus, ValidUtf8;
    ChoiceTyped(STATE_PROTECT);
    Typed7(U64, U32, U32, STATE_PROTECT, SERVER_OWNER, Opaque, Vec(IMPL_ID),
           Num(x.clientid), Num(x.sequenceid), Num(x.flags), SP_NONE, ServerOwnerValue(x.serverOwner),
               Data(x.serverScope), ImplIdsValue(x.serverImplId));
    V7(Num(x.clientid), Num(x.sequenceid), Num(x.flags), SP_NONE, ServerOwnerValue(x.serverOwner),
        Data(x.serverScope), ImplIdsValue(x.serverImplId))
  }

  function ExchangeIdOf(v: Value): (x: ExchangeId4resok)
    requires HasType(EXCHANGE_ID_OK, v)
    ensures ExchangeIdValue(x) == v
  {
    hide HasType, StatusCodes, IsStatus, ValidUtf8;
    Fields7(U64, U32, U32, STATE_PROTECT, SERVER_OWNER, Opaque, Vec(IMPL_ID), v);
    OnlyChoice(STATE_PROTECT, v.y.y.y.x);
    ExchangeId4resok(v.x.n, v.y.x.n, v.y.y.x.n, ServerOwnerOf(v.y.y.y.y.x), v.y.y.y.y.y.x.d, ImplIdsOf(v.y.y.y.y.y.y.x))
  }

  function CreateSessionValue(x: CreateSession4resok): (v: Value)
    ensures HasType(CREATE_SESSION_OK, v)
  {
    hide HasType, StatusCodes, IsStatus, ValidUtf8;
    Typed5(Fixed(16), U32, U32, CHANNEL_ATTRS, CHANNEL_ATTRS,
           Data(x.sessionid), Num(x.sequence), Num(x.flags), ChannelValue(x.foreChanAttrs),
               ChannelValue(x.backChanAttrs));
    V5(Data(x.sessionid), Num(x.sequence), Num(x.flags), ChannelValue(x.foreChanAttrs), ChannelValue(x.backChanAttrs))
  }

  function CreateSessionOf(v: Value): (x: CreateSession4resok)
    requires HasType(CREATE_SESSION_OK, v)
    ensures CreateSessionValue(x) == v
  {
    hide HasType, StatusCodes, IsStatus, ValidUtf8;
    Fields5(Fixed(16), U32, U32, CHANNEL_ATTRS, CHANNEL_ATTRS, v);
    CreateSession4resok(v.x.d, v.y.x.n, v.y.y.x.n, ChannelOf(v.y.y.y.x), ChannelOf(v.y.y.y.y.x))
  }

  function SequenceValue(x: Sequence4resok): (v: Value)
    ensures HasType(SEQUENCE_OK, v)
  {
    hide HasType, StatusCodes, IsStatus, ValidUtf8;
    Typed6(Fixed(16), U32, U32, U32, U32, U32,
           Data(x.sessionid), Num(x.sequenceid), Num(x.slotid), Num(x.highestSlotid), Num(x.targetHighestSlotid),
               Num(x.statusFlags));
    V6(Data(x.sessionid), Num(x.sequenceid), Num(x.slotid), Num(x.highestSlotid), Num(x.targetHighestSlotid),
        Num(x.statusFlags))
  }

  function SequenceOf(v: Value): (x: Sequence4resok)
    requires HasType(SEQUENCE_OK, v)
    ensures SequenceValue(x) == v
  {
    hide HasType, StatusCodes, IsStatus, ValidUtf8;
    Fields6(Fixed(16), U32, U32, U32, U32, U32, v);
    Sequence4resok(v.x.d, v.y.x.n, v.y.y.x.n, v.y.y.y.x.n, v.y.y.y.y.x.n, v.y.y.y.y.y.x.n)
  }

  // ------------------------------------------------- status-guarded results

  function GuardValue(status: NfsStat4, body: Value): Value {
    Both(Num(status), body)
  }

  lemma {:induction false} TypedGuard(ok: Ty, status: NfsStat4, body: Value)
    requires body.Absent? || (body.Present? && HasType(ok, body.v))
    ensures HasType(Guarded(STAT, ok), GuardValue(status, body))
  {
    StatusTyped(status);
  }

  lemma {:induction false} FieldsGuard(ok: Ty, v: Value)
    requires HasType(Guarded(STAT, ok), v)
    ensures v.Both? && HasType(STAT, v.x) && (v.y.Absent? || (v.y.Present? && HasType(ok, v.y.v)))
  {
    hide StatusCodes, IsStatus, ValidUtf8;
  }

  function StatusOf(v: Value): (s: NfsStat4)
    requires HasType(STAT, v)
    ensures Num(s) == v
  {
    hide StatusCodes;
    v.n
  }

  function FhValue(fh: NfsFh4): (v: Value)
    ensures HasType(FILE_HANDLE, v)
  {
    Data(fh)
  }

  function FhOf(v: Value): (fh: NfsFh4)
    requires HasType(FILE_HANDLE, v)
    ensures FhValue(fh) == v
  {
    v.d
  }

  /** The value of a guarded result, given the value of its body. */
  function ResValue<T>(r: Res<T>, body: T -> Value): Value {
    GuardValue(r.status, if r.resok.Some? then Present(body(r.resok.value)) else Absent)
  }

  lemma {:induction false} ResTyped<T>(ok: Ty, r: Res<T>, body: T -> Value)
    requires r.resok.Some? ==> HasType(ok, body(r.resok.value))
    ensures HasType(Guarded(STAT, ok), ResValue(r, body))
  {
    hide HasType, StatusCodes, IsStatus;
    TypedGuard(ok, r.status, if r.resok.Some? then Present(body(r.resok.value)) else Absent);
  }

  /** The guarded result of a value, given the body of a value. */
  function ResOf<T>(ok: Ty, v: Value, of: Value --> T): Res<T>
    requires HasType(Guarded(STAT, ok), v)
    requires forall w | HasType(ok, w) :: of.requires(w)
  {
    hide HasType, StatusCodes, IsStatus;
    FieldsGuard(ok, v);
    Res(StatusOf(v.x), if v.y.Absent? then None else Some(of(v.y.v)))
  }

  lemma {:induction false} ResOfValue<T>(ok: Ty, v: Value, of: Value --> T, body: T -> Value)
    requires HasType(Guarded(STAT, ok), v)
    requires forall w | HasType(ok, w) :: of.requires(w) && body(of(w)) == w
    ensures ResValue(ResOf(ok, v, of), body) == v
  {
    hide HasType, StatusCodes, IsStatus;
    FieldsGuard(ok, v);
  }

  /** What equal values of guarded results say about their bodies. */
  lemma {:induction false} ResBodies<T>(x: Res<T>, y: Res<T>, body: T -> Value)
    requires ResValue(x, body) == ResValue(y, body)
    ensures x.status == y.status && (x.resok.Some? <==> y.resok.Some?)
    ensures x.resok.Some? ==> body(x.resok.value) == body(y.resok.value)
  {
    hide StatusCodes, IsStatus;
  }

  // ------------------------------------------------------ results and COMPOUND

  function ArmIndex(op: NfsResOp4): (k: nat)
    ensures k < 18
  {
    match op
    case PutRootFh(_) => 0
    case PutFh(_) => 1
    case Lookup(_) => 2
    case GetFh(_) => 3
    case GetAttr(_) => 4
    case SetAttr(_) => 5
    case Open(_) => 6
    case Close(_) => 7
    case Read(_) => 8
    case Write(_) => 9
    case ReadDir(_) => 10
    case Remove(_) => 11
    case Rename(_) => 12
    case ExchangeId(_) => 13
    case CreateSession(_) => 14
    case DestroySession(_) => 15
    case Sequence(_) => 16
    case ReclaimComplete(_) => 17
  }

  function Payload(op: NfsResOp4): Value {
    match op
    case PutRootFh(s) => Num(s)
    case PutFh(s) => Num(s)
    case Lookup(s) => Num(s)
    case GetFh(r) => ResValue(r, FhValue)
    case GetAttr(r) => ResValue(r, GetAttrValue)
    case SetAttr(r) => ResValue(r, SetAttrValue)
    case Open(r) => ResValue(r, OpenValue)
    case Close(r) => ResValue(r, CloseValue)
    case Read(r) => ResValue(r, ReadValue)
    case Write(r) => ResValue(r, WriteValue)
    case ReadDir(r) => ResValue(r, ReadDirValue)
    case Remove(r) => ResValue(r, RemoveValue)
    case Rename(r) => ResValue(r, RenameValue)
    case ExchangeId(r) => ResValue(r, ExchangeIdValue)
    case CreateSession(r) => ResValue(r, CreateSessionValue)
    case DestroySession(s) => Num(s)
    case Sequence(r) => ResValue(r, SequenceValue)
    case ReclaimComplete(s) => Num(s)
  }

  /** The opcode and the schema of the k-th arm. */
  function OpAt(k: nat): u32
    requires k < 18
  {
    match k
    case 0 => OP_PUTROOTFH
    case 1 => OP_PUTFH
    case 2 => OP_LOOKUP
    case 3 => OP_GETFH
    case 4 => OP_GETATTR
    case 5 => OP_SETATTR
    case 6 => OP_OPEN
    case 7 => OP_CLOSE
    case 8 => OP_READ
    case 9 => OP_WRITE
    case 10 => OP_READDIR
    case 11 => OP_REMOVE
    case 12 => OP_RENAME
    case 13 => OP_EXCHANGE_ID
    case 14 => OP_CREATE_SESSION
    case 15 => OP_DESTROY_SESSION
    case 16 => OP_SEQUENCE
    case _ => OP_RECLAIM_COMPLETE
  }

  function BodyAt(k: nat): Ty
    requires k < 18
  {
    match k
    case 0 => STAT
    case 1 => STAT
    case 2 => STAT
    case 3 => Guarded(STAT, FILE_HANDLE)
    case 4 => Guarded(STAT, GETATTR_OK)
    case 5 => Guarded(STAT, SETATTR_OK)
    case 6 => Guarded(STAT, OPEN_OK)
    case 7 => Guarded(STAT, CLOSE_OK)
    case 8 => Guarded(STAT, READ_OK)
    case 9 => Guarded(STAT, WRITE_OK)
    case 10 => Guarded(STAT, READDIR_OK)
    case 11 => Guarded(STAT, REMOVE_OK)
    case 12 => Guarded(STAT, RENAME_OK)
    case 13 => Guarded(STAT, EXCHANGE_ID_OK)
    case 14 => Guarded(STAT, CREATE_SESSION_OK)
    case 15 => STAT
    case 16 => Guarded(STAT, SEQUENCE_OK)
    case _ => STAT
  }

  lemma {:induction false} FirstBodies()
    ensures BodyAt(0) == STAT
    ensures BodyAt(1) == STAT
    ensures BodyAt(2) == STAT
    ensures BodyAt(3) == Guarded(STAT, FILE_HANDLE)
    ensures BodyAt(4) == Guarded(STAT, GETATTR_OK)
  {
    hide S1, S2, S3, S4, S5, S6, S7, StatusCodes;
  }

  lemma {:induction false} SecondBodies()
    ensures BodyAt(5) == Guarded(STAT, SETATTR_OK)
    ensures BodyAt(6) == Guarded(STAT, OPEN_OK)
    ensures BodyAt(7) == Guarded(STAT, CLOSE_OK)
    ensures BodyAt(8) == Guarded(STAT, READ_OK)
  {
    hide S1, S2, S3, S4, S5, S6, S7, StatusCodes;
  }

  lemma {:induction false} ThirdBodies()
    ensures BodyAt(9) == Guarded(STAT, WRITE_OK)
    ensures BodyAt(10) == Guarded(STAT, READDIR_OK)
    ensures BodyAt(11) == Guarded(STAT, REMOVE_OK)
    ensures BodyAt(12) == Guarded(STAT, RENAME_OK)
  {
    hide S1, S2, S3, S4, S5, S6, S7, StatusCodes;
  }

  lemma {:induction false} LastBodies()
    ensures BodyAt(13) == Guarded(STAT, EXCHANGE_ID_OK)
    ensures BodyAt(14) == Guarded(STAT, CREATE_SESSION_OK)
    ensures BodyAt(15) == STAT
    ensures BodyAt(16) == Guarded(STAT, SEQUENCE_OK)
    ensures BodyAt(17) == STAT
  {
    hide S1, S2, S3, S4, S5, S6, S7, StatusCodes;
  }

  lemma {:induction false} Opcodes()
    ensures OpAt(0) == OP_PUTROOTFH && OpAt(1) == OP_PUTFH && OpAt(2) == OP_LOOKUP
    ensures OpAt(3) == OP_GETFH && OpAt(4) == OP_GETATTR && OpAt(5) == OP_SETATTR
    ensures OpAt(6) == OP_OPEN && OpAt(7) == OP_CLOSE && OpAt(8) == OP_READ
    ensures OpAt(9) == OP_WRITE && OpAt(10) == OP_READDIR && OpAt(11) == OP_REMOVE
    ensures OpAt(12) == OP_RENAME && OpAt(13) == OP_EXCHANGE_ID && OpAt(14) == OP_CREATE_SESSION
    ensures OpAt(15) == OP_DESTROY_SESSION && OpAt(16) == OP_SEQUENCE && OpAt(17) == OP_RECLAIM_COMPLETE
  {
  }

  lemma {:induction false} ArmAt(k: nat)
    requires k < 18
    ensures |ResArms()| == 18 && ResArms()[k] == Arm(OpAt(k), BodyAt(k))
  {
    hide StatusCodes, IsStatus, ValidUtf8;
  }

  lemma {:induction false} OpcodesDistinct()
    ensures |ResArms()| == 18
    ensures forall i, j | 0 <= i < j < 18 :: OpAt(i) != OpAt(j)
  {
    hide StatusCodes, IsStatus, ValidUtf8;
  }

  lemma {:induction false} PayloadTypedFirst(op: NfsResOp4)
    requires ArmIndex(op) < 7
    ensures HasType(BodyAt(ArmIndex(op)), Payload(op))
  {
    hide HasType, BodyAt, S1, S2, S3, S5, S6, S7, StatusCodes, IsStatus, ValidUtf8, ResValue, FhValue, GetAttrValue,
      SetAttrValue, OpenValue;
    FirstBodies();
    SecondBodies();
    match op {
      case PutRootFh(s) => StatusTyped(s);
      case PutFh(s) => StatusTyped(s);
      case Lookup(s) => StatusTyped(s);
      case GetFh(r) => ResTyped(FILE_HANDLE, r, FhValue);
      case GetAttr(r) => ResTyped(GETATTR_OK, r, GetAttrValue);
      case SetAttr(r) => ResTyped(SETATTR_OK, r, SetAttrValue);
      case Open(r) => ResTyped(OPEN_OK, r, OpenValue);
    }
  }

  lemma {:induction false} PayloadTypedMiddle(op: NfsResOp4)
    requires 7 <= ArmIndex(op) < 12
    ensures HasType(BodyAt(ArmIndex(op)), Payload(op))
  {
    hide HasType, BodyAt, S1, S2, S3, S5, S6, S7, StatusCodes, IsStatus, ValidUtf8, ResValue, CloseValue, ReadValue,
      WriteValue, ReadDirValue, RemoveValue;
    SecondBodies();
    ThirdBodies();
    match op {
      case Close(r) => ResTyped(CLOSE_OK, r, CloseValue);
      case Read(r) => ResTyped(READ_OK, r, ReadValue);
      case Write(r) => ResTyped(WRITE_OK, r, WriteValue);
      case ReadDir(r) => ResTyped(READDIR_OK, r, ReadDirValue);
      case Remove(r) => ResTyped(REMOVE_OK, r, RemoveValue);
    }
  }

  lemma {:induction false} PayloadTypedLast(op: NfsResOp4)
    requires op.Rename? || op.ExchangeId? || op.CreateSession?
      || op.DestroySession? || op.Sequence? || op.ReclaimComplete?
    ensures HasType(BodyAt(ArmIndex(op)), Payload(op))
  {
    hide HasType, BodyAt, S1, S2, S3, S5, S6, S7, StatusCodes, IsStatus, ValidUtf8, ResValue, RenameValue,
      ExchangeIdValue, CreateSessionValue, SequenceValue;
    ThirdBodies();
    LastBodies();
    match op {
      case Rename(r) => ResTyped(RENAME_OK, r, RenameValue);
      case ExchangeId(r) => ResTyped(EXCHANGE_ID_OK, r, ExchangeIdValue);
      case CreateSession(r) => ResTyped(CREATE_SESSION_OK, r, CreateSessionValue);
      case DestroySession(s) => StatusTyped(s);
      case Sequence(r) => ResTyped(SEQUENCE_OK, r, SequenceValue);
      case ReclaimComplete(s) => StatusTyped(s);
    }
  }

  lemma {:induction false} PayloadTyped(op: NfsResOp4)
    ensures HasType(BodyAt(ArmIndex(op)), Payload(op))
  {
    hide HasType, BodyAt, Payload, StatusCodes, IsStatus, ValidUtf8;
    if ArmIndex(op) < 7 {
      PayloadTypedFirst(op);
    } else if ArmIndex(op) < 12 {
      PayloadTypedMiddle(op);
    } else {
      PayloadTypedLast(op);
    }
  }

  lemma {:induction false} StatusTyped(s: NfsStat4)
    ensures HasType(STAT, Num(s))
  {
    hide StatusCodes;
    assert IsStatus(s);
    assert STAT.codes == StatusCodes();
  }

  function ResOpValue(op: NfsResOp4): (v: Value)
    ensures HasType(RES_OP, v)
  {
    hide StatusCodes, IsStatus, ValidUtf8;
    PayloadTyped(op);
    ArmAt(ArmIndex(op));
    Variant(ArmIndex(op), Payload(op))
  }
}
