/** The 18 results of a COMPOUND as they go over the wire: opcode, status, and the body
    field by field if there is one. */
module ResultForms {
  import opened Wire
  import opened Xdr
  import opened XdrStructs
  import opened Nfs4Types
  import opened Compound
  import opened SendableResults
  import opened WireForms

  function ServerForm(o: ServerOwner4): Form
    requires Fits(o.majorId)
  {
    [W64(o.minorId), Str(o.majorId)]
  }

  function EntryForm(e: Entry4): Form
    requires EntryFits(e)
  {
    [W64(e.cookie), Str(e.name)] + FattrForm(e.attrs)
  }

  /** An entry of a directory, behind the word that says there is one. */
  function MarkedForm(e: Entry4): Form
    requires EntryFits(e)
  {
    [W32(1)] + EntryForm(e)
  }

  function EntriesForm(es: seq<Entry4>): Form
    requires forall i | 0 <= i < |es| :: EntryFits(es[i])
  {
    Each(es, MarkedForm) + [W32(0)]
  }

  function GetAttrBody(x: GetAttr4resok): Form
    requires FattrFits(x.objAttributes)
  {
    FattrForm(x.objAttributes)
  }

  function SetAttrBody(x: SetAttr4resok): Form
    requires Fits(x.attrsset.words)
  {
    WordsForm(x.attrsset.words)
  }

  function OpenBody(x: Open4resok): Form
    requires Fits(x.attrset.words)
  {
    StateForm(x.stateid) + ChangeForm(x.cinfo) + [W32(x.rflags)] + WordsForm(x.attrset.words) + [W32(0)]
  }

  function CloseBody(x: Close4resok): Form {
    StateForm(x.openStateid)
  }

  function ReadBody(x: Read4resok): Form
    requires Fits(x.data)
  {
    [Truth(x.eof), Str(x.data)]
  }

  function WriteBody(x: Write4resok): Form {
    [W32(x.count), W32(x.committed), x.writeverf]
  }

  function ReadDirBody(x: ReadDir4resok): Form
    requires DirFits(x)
  {
    [x.cookieverf] + EntriesForm(x.entries) + [Truth(x.eof)]
  }

  function RemoveBody(x: Remove4resok): Form {
    ChangeForm(x.cinfo)
  }

  function RenameBody(x: Rename4resok): Form {
    ChangeForm(x.sourceCinfo) + ChangeForm(x.targetCinfo)
  }

  function ExchangeIdBody(x: ExchangeId4resok): Form
    requires ServerFits(x)
  {
    [W64(x.clientid), W32(x.sequenceid), W32(x.flags), W32(0)] + ServerForm(x.serverOwner) + [Str(x.serverScope)] +
      Listed(x.serverImplId, ImplForm)
  }

  function CreateSessionBody(x: CreateSession4resok): Form
    requires SessionFits(x)
  {
    [x.sessionid, W32(x.sequence), W32(x.flags)] + ChannelForm(x.foreChanAttrs) + ChannelForm(x.backChanAttrs)
  }

  function SequenceBody(x: Sequence4resok): Form {
    [x.sessionid, W32(x.sequenceid), W32(x.slotid), W32(x.highestSlotid), W32(x.targetHighestSlotid),
      W32(x.statusFlags)]
  }

  /** Lengths that fit their length words; whether body and status belong together is
      no matter here. */
  predicate BodyFits(op: NfsResOp4) {
    match op
    case GetFh(r) => r.resok.Some? ==> Fits(r.resok.value)
    case GetAttr(r) => r.resok.Some? ==> FattrFits(r.resok.value.objAttributes)
    case SetAttr(r) => r.resok.Some? ==> Fits(r.resok.value.attrsset.words)
    case Open(r) => r.resok.Some? ==> Fits(r.resok.value.attrset.words)
    case Read(r) => r.resok.Some? ==> Fits(r.resok.value.data)
    case ReadDir(r) => r.resok.Some? ==> DirFits(r.resok.value)
    case ExchangeId(r) => r.resok.Some? ==> ServerFits(r.resok.value)
    case CreateSession(r) => r.resok.Some? ==> SessionFits(r.resok.value)
    case _ => true
  }

  /** An opcode, a status, and the fields of the body. */
  datatype Layout = Layout(opcode: u32, status: u32, body: Form)

  function ResultLayout(op: NfsResOp4): Layout
    requires BodyFits(op)
  {
    match op
    case PutRootFh(s) => Layout(24, s, [])
    case PutFh(s) => Layout(22, s, [])
    case Lookup(s) => Layout(15, s, [])
    case GetFh(r) => Layout(10, r.status, if r.resok.Some? then [Str(r.resok.value)] else [])
    case GetAttr(r) => Layout(9, r.status, if r.resok.Some? then GetAttrBody(r.resok.value) else [])
    case SetAttr(r) => Layout(34, r.status, if r.resok.Some? then SetAttrBody(r.resok.value) else [])
    case Open(r) => Layout(18, r.status, if r.resok.Some? then OpenBody(r.resok.value) else [])
    case Close(r) => Layout(4, r.status, if r.resok.Some? then CloseBody(r.resok.value) else [])
    case Read(r) => Layout(25, r.status, if r.resok.Some? then ReadBody(r.resok.value) else [])
    case Write(r) => Layout(38, r.status, if r.resok.Some? then WriteBody(r.resok.value) else [])
    case ReadDir(r) => Layout(26, r.status, if r.resok.Some? then ReadDirBody(r.resok.value) else [])
    case Remove(r) => Layout(28, r.status, if r.resok.Some? then RemoveBody(r.resok.value) else [])
    case Rename(r) => Layout(29, r.status, if r.resok.Some? then RenameBody(r.resok.value) else [])
    case ExchangeId(r) => Layout(42, r.status, if r.resok.Some? then ExchangeIdBody(r.resok.value) else [])
    case CreateSession(r) => Layout(43, r.status, if r.resok.Some? then CreateSessionBody(r.resok.value) else [])
    case DestroySession(s) => Layout(44, s, [])
    case Sequence(r) => Layout(53, r.status, if r.resok.Some? then SequenceBody(r.resok.value) else [])
    case ReclaimComplete(s) => Layout(58, s, [])
  }

  // ------------------------------------------------------------------ structs

  lemma {:induction false} OnlyChoiceShows(ty: Ty)
    requires ty.Enum? && ty.arms == [Arm(0, Unit)]
    ensures Shows(ty, SP_NONE, [W32(0)])
  {
    hide Shows, W32;
    UnitShows();
    ArmShows(ty.name, ty.arms, 0, Nil, []);
    assert [W32(0)] + [] == [W32(0)];
  }

  lemma {:induction false} ServerShows(o: ServerOwner4)
    requires Fits(o.majorId)
    ensures Shows(SERVER_OWNER, ServerOwnerValue(o), ServerForm(o))
  {
    hide Shows, Str, W64;
    LongShows(o.minorId);
    OpaqueShows(o.majorId);
    Shows2(U64, Opaque, Num(o.minorId), Data(o.majorId), [W64(o.minorId)], [Str(o.majorId)]);
    assert [W64(o.minorId)] + [Str(o.majorId)] == ServerForm(o);
  }

  lemma {:induction false} EntryShows(e: Entry4)
    requires EntryFits(e)
    ensures Shows(ENTRY, EntryValue(e), EntryForm(e))
  {
    hide Shows, Str, W64, FattrForm, FattrValue, FattrFits, ValidUtf8;
    LongShows(e.cookie);
    TextShows(e.name);
    FattrShows(e.attrs);
    Shows3(U64, Text, FATTR, Num(e.cookie), Data(e.name), FattrValue(e.attrs), [W64(e.cookie)], [Str(e.name)],
           FattrForm(e.attrs));
    assert [W64(e.cookie)] + ([Str(e.name)] + FattrForm(e.attrs)) == EntryForm(e);
  }

  lemma {:induction false} ChainWritten(vs: seq<Value>, es: seq<Entry4>)
    requires |vs| == |es| && (forall i | 0 <= i < |es| :: EntryFits(es[i]))
    requires forall i | 0 <= i < |es| :: Shows(ENTRY, vs[i], EntryForm(es[i]))
    ensures forall i | 0 <= i < |vs| :: HasType(ENTRY, vs[i])
    ensures EncodeChain(ENTRY, vs) == Wrote(Concat(EntriesForm(es)))
    decreases |es|
  {
    hide HasType, Encode, Concat, EntryForm, EntryFits, BigEndian32, W32;
    assert forall i | 0 <= i < |vs| :: Shows(ENTRY, vs[i], EntryForm(es[i]));
    WordShows(0);
    WordShows(1);
    ConcatOne(W32(0));
    ConcatOne(W32(1));
    if es == [] {
      assert EntriesForm(es) == [W32(0)];
    } else {
      ChainWritten(vs[1..], es[1..]);
      ConcatJoin([W32(1)], EntryForm(es[0]));
      ConcatJoin(MarkedForm(es[0]), EntriesForm(es[1..]));
      assert EntriesForm(es) == MarkedForm(es[0]) + EntriesForm(es[1..]);
    }
  }

  lemma {:induction false} EntriesShow(es: seq<Entry4>)
    requires forall i | 0 <= i < |es| :: EntryFits(es[i])
    ensures Shows(Chain(ENTRY), EntriesValue(es), EntriesForm(es))
  {
    hide EntryForm, EntryFits, EntryValue, EntriesForm, EncodeChain, HasType;
    var vs := EntriesValue(es).vs;
    forall i | 0 <= i < |es|
      ensures Shows(ENTRY, vs[i], EntryForm(es[i]))
    {
      EntryShows(es[i]);
    }
    ChainWritten(vs, es);
  }

  // ------------------------------------------------------------------- bodies

  lemma {:induction false} Regrouped(a: seq<byte>, b: seq<byte>, c: seq<byte>, f: Form, g: Form)
    ensures [a] + ([b] + ([c] + (f + g))) == [a, b, c] + f + g
  {
    assert [a] + ([b] + ([c] + f)) == [a, b, c] + f;
  }

  lemma {:induction false} RegroupedOpen(f: Form, g: Form, a: seq<byte>, h: Form, b: seq<byte>)
    ensures f + (g + ([a] + (h + [b]))) == f + g + [a] + h + [b]
  {
  }

  lemma {:induction false} RegroupedServer(a: seq<byte>, b: seq<byte>, c: seq<byte>, d: seq<byte>, f: Form,
                                           e: seq<byte>, g: Form)
    ensures [a] + ([b] + ([c] + ([d] + (f + ([e] + g))))) == [a, b, c, d] + f + [e] + g
  {
    assert [a] + ([b] + ([c] + ([d] + f))) == [a, b, c, d] + f;
  }

  lemma {:induction false} GetAttrShows(x: GetAttr4resok)
    requires FattrFits(x.objAttributes)
    ensures Shows(GETATTR_OK, GetAttrValue(x), GetAttrBody(x))
  {
    hide Shows, W32, W64, Str, Truth, StateForm, ChangeForm, FattrForm, WordsForm, ChannelForm, ServerForm,
      EntriesForm, Listed, BitmapValue, FattrValue, StateIdValue, ChangeInfoValue, ChannelValue, ImplIdsValue,
      EntriesValue, ServerOwnerValue, FattrFits, ImplFits, EntryFits, StatusCodes, IsStatus, ValidUtf8;
    FattrShows(x.objAttributes);
    Shows1(FATTR, FattrValue(x.objAttributes), FattrForm(x.objAttributes));
  }

  lemma {:induction false} SetAttrShows(x: SetAttr4resok)
    requires Fits(x.attrsset.words)
    ensures Shows(SETATTR_OK, SetAttrValue(x), SetAttrBody(x))
  {
    hide Shows, W32, W64, Str, Truth, StateForm, ChangeForm, FattrForm, WordsForm, ChannelForm, ServerForm,
      EntriesForm, Listed, BitmapValue, FattrValue, StateIdValue, ChangeInfoValue, ChannelValue, ImplIdsValue,
      EntriesValue, ServerOwnerValue, FattrFits, ImplFits, EntryFits, StatusCodes, IsStatus, ValidUtf8;
    BitmapShows(x.attrsset);
    Shows1(BITMAP, BitmapValue(x.attrsset), WordsForm(x.attrsset.words));
  }

  lemma {:induction false} OpenShows(x: Open4resok)
    requires Fits(x.attrset.words)
    ensures Shows(OPEN_OK, OpenValue(x), OpenBody(x))
  {
    hide Shows, W32, W64, Str, Truth, StateForm, ChangeForm, FattrForm, WordsForm, ChannelForm, ServerForm,
      EntriesForm, Listed, BitmapValue, FattrValue, StateIdValue, ChangeInfoValue, ChannelValue, ImplIdsValue,
      EntriesValue, ServerOwnerValue, FattrFits, ImplFits, EntryFits, StatusCodes, IsStatus, ValidUtf8;
    StateShows(x.stateid);
    ChangeShows(x.cinfo);
    WordShows(x.rflags);
    BitmapShows(x.attrset);
    OnlyChoiceShows(DELEGATION);
    Shows5(STATE_ID, CHANGE_INFO, U32, BITMAP, DELEGATION, StateIdValue(x.stateid), ChangeInfoValue(x.cinfo),
           Num(x.rflags), BitmapValue(x.attrset), SP_NONE, StateForm(x.stateid), ChangeForm(x.cinfo), [W32(x.rflags)],
           WordsForm(x.attrset.words), [W32(0)]);
    RegroupedOpen(StateForm(x.stateid), ChangeForm(x.cinfo), W32(x.rflags), WordsForm(x.attrset.words), W32(0));
  }

  lemma {:induction false} CloseShows(x: Close4resok)
    ensures Shows(CLOSE_OK, CloseValue(x), CloseBody(x))
  {
    hide Shows, W32, W64, Str, Truth, StateForm, ChangeForm, FattrForm, WordsForm, ChannelForm, ServerForm,
      EntriesForm, Listed, BitmapValue, FattrValue, StateIdValue, ChangeInfoValue, ChannelValue, ImplIdsValue,
      EntriesValue, ServerOwnerValue, FattrFits, ImplFits, EntryFits, StatusCodes, IsStatus, ValidUtf8;
    StateShows(x.openStateid);
    Shows1(STATE_ID, StateIdValue(x.openStateid), StateForm(x.openStateid));
  }

  lemma {:induction false} ReadShows(x: Read4resok)
    requires Fits(x.data)
    ensures Shows(READ_OK, ReadValue(x), ReadBody(x))
  {
    hide Shows, W32, W64, Str, Truth, StateForm, ChangeForm, FattrForm, WordsForm, ChannelForm, ServerForm,
      EntriesForm, Listed, BitmapValue, FattrValue, StateIdValue, ChangeInfoValue, ChannelValue, ImplIdsValue,
      EntriesValue, ServerOwnerValue, FattrFits, ImplFits, EntryFits, StatusCodes, IsStatus, ValidUtf8;
    TruthShows(x.eof);
    OpaqueShows(x.data);
    Shows2(Bool, Opaque, Flag(x.eof), Data(x.data), [Truth(x.eof)], [Str(x.data)]);
    assert [Truth(x.eof)] + ([Str(x.data)]) == ReadBody(x);
  }

  lemma {:induction false} WriteShows(x: Write4resok)
    ensures Shows(WRITE_OK, WriteValue(x), WriteBody(x))
  {
    hide Shows, W32, W64, Str, Truth, StateForm, ChangeForm, FattrForm, WordsForm, ChannelForm, ServerForm,
      EntriesForm, Listed, BitmapValue, FattrValue, StateIdValue, ChangeInfoValue, ChannelValue, ImplIdsValue,
      EntriesValue, ServerOwnerValue, FattrFits, ImplFits, EntryFits, StatusCodes, IsStatus, ValidUtf8;
    WordShows(x.count);
    WordShows(x.committed);
    FixedShows(x.writeverf);
    Shows3(U32, U32, Fixed(8), Num(x.count), Num(x.committed), Data(x.writeverf), [W32(x.count)], [W32(x.committed)],
           [x.writeverf]);
    assert [W32(x.count)] + ([W32(x.committed)] + ([x.writeverf])) == WriteBody(x);
  }

  lemma {:induction false} ReadDirShows(x: ReadDir4resok)
    requires DirFits(x)
    ensures Shows(READDIR_OK, ReadDirValue(x), ReadDirBody(x))
  {
    hide Shows, W32, W64, Str, Truth, StateForm, ChangeForm, FattrForm, WordsForm, ChannelForm, ServerForm,
      EntriesForm, Listed, BitmapValue, FattrValue, StateIdValue, ChangeInfoValue, ChannelValue, ImplIdsValue,
      EntriesValue, ServerOwnerValue, FattrFits, ImplFits, EntryFits, StatusCodes, IsStatus, ValidUtf8;
    FixedShows(x.cookieverf);
    EntriesShow(x.entries);
    TruthShows(x.eof);
    Shows3(Fixed(8), Chain(ENTRY), Bool, Data(x.cookieverf), EntriesValue(x.entries), Flag(x.eof), [x.cookieverf],
           EntriesForm(x.entries), [Truth(x.eof)]);
    assert [x.cookieverf] + (EntriesForm(x.entries) + ([Truth(x.eof)])) == ReadDirBody(x);
  }

  lemma {:induction false} RemoveShows(x: Remove4resok)
    ensures Shows(REMOVE_OK, RemoveValue(x), RemoveBody(x))
  {
    hide Shows, W32, W64, Str, Truth, StateForm, ChangeForm, FattrForm, WordsForm, ChannelForm, ServerForm,
      EntriesForm, Listed, BitmapValue, FattrValue, StateIdValue, ChangeInfoValue, ChannelValue, ImplIdsValue,
      EntriesValue, ServerOwnerValue, FattrFits, ImplFits, EntryFits, StatusCodes, IsStatus, ValidUtf8;
    ChangeShows(x.cinfo);
    Shows1(CHANGE_INFO, ChangeInfoValue(x.cinfo), ChangeForm(x.cinfo));
  }

  lemma {:induction false} RenameShows(x: Rename4resok)
    ensures Shows(RENAME_OK, RenameValue(x), RenameBody(x))
  {
    hide Shows, W32, W64, Str, Truth, StateForm, ChangeForm, FattrForm, WordsForm, ChannelForm, ServerForm,
      EntriesForm, Listed, BitmapValue, FattrValue, StateIdValue, ChangeInfoValue, ChannelValue, ImplIdsValue,
      EntriesValue, ServerOwnerValue, FattrFits, ImplFits, EntryFits, StatusCodes, IsStatus, ValidUtf8;
    ChangeShows(x.sourceCinfo);
    ChangeShows(x.targetCinfo);
    Shows2(CHANGE_INFO, CHANGE_INFO, ChangeInfoValue(x.sourceCinfo), ChangeInfoValue(x.targetCinfo),
           ChangeForm(x.sourceCinfo), ChangeForm(x.targetCinfo));
    assert ChangeForm(x.sourceCinfo) + (ChangeForm(x.targetCinfo)) == RenameBody(x);
  }

  lemma {:induction false} ExchangeIdShows(x: ExchangeId4resok)
    requires ServerFits(x)
    ensures Shows(EXCHANGE_ID_OK, ExchangeIdValue(x), ExchangeIdBody(x))
  {
    hide Shows, W32, W64, Str, Truth, StateForm, ChangeForm, FattrForm, WordsForm, ChannelForm, ServerForm,
      EntriesForm, Listed, BitmapValue, FattrValue, StateIdValue, ChangeInfoValue, ChannelValue, ImplIdsValue,
      EntriesValue, ServerOwnerValue, FattrFits, ImplFits, EntryFits, StatusCodes, IsStatus, ValidUtf8;
    LongShows(x.clientid);
    WordShows(x.sequenceid);
    WordShows(x.flags);
    OnlyChoiceShows(STATE_PROTECT);
    ServerShows(x.serverOwner);
    OpaqueShows(x.serverScope);
    ImplsShow(x.serverImplId);
    Shows7(U64, U32, U32, STATE_PROTECT, SERVER_OWNER, Opaque, Vec(IMPL_ID), Num(x.clientid), Num(x.sequenceid),
           Num(x.flags), SP_NONE, ServerOwnerValue(x.serverOwner), Data(x.serverScope), ImplIdsValue(x.serverImplId),
           [W64(x.clientid)], [W32(x.sequenceid)], [W32(x.flags)], [W32(0)], ServerForm(x.serverOwner),
           [Str(x.serverScope)], Listed(x.serverImplId, ImplForm));
    RegroupedServer(W64(x.clientid), W32(x.sequenceid), W32(x.flags), W32(0), ServerForm(x.serverOwner),
                    Str(x.serverScope), Listed(x.serverImplId, ImplForm));
  }

  lemma {:induction false} CreateSessionShows(x: CreateSession4resok)
    requires SessionFits(x)
    ensures Shows(CREATE_SESSION_OK, CreateSessionValue(x), CreateSessionBody(x))
  {
    hide Shows, W32, W64, Str, Truth, StateForm, ChangeForm, FattrForm, WordsForm, ChannelForm, ServerForm,
      EntriesForm, Listed, BitmapValue, FattrValue, StateIdValue, ChangeInfoValue, ChannelValue, ImplIdsValue,
      EntriesValue, ServerOwnerValue, FattrFits, ImplFits, EntryFits, StatusCodes, IsStatus, ValidUtf8;
    FixedShows(x.sessionid);
    WordShows(x.sequence);
    WordShows(x.flags);
    ChannelShows(x.foreChanAttrs);
    ChannelShows(x.backChanAttrs);
    Shows5(Fixed(16), U32, U32, CHANNEL_ATTRS, CHANNEL_ATTRS, Data(x.sessionid), Num(x.sequence), Num(x.flags),
           ChannelValue(x.foreChanAttrs), ChannelValue(x.backChanAttrs), [x.sessionid], [W32(x.sequence)],
           [W32(x.flags)], ChannelForm(x.foreChanAttrs), ChannelForm(x.backChanAttrs));
    Regrouped(x.sessionid, W32(x.sequence), W32(x.flags), ChannelForm(x.foreChanAttrs), ChannelForm(x.backChanAttrs));
  }

  lemma {:induction false} SequenceShows(x: Sequence4resok)
    ensures Shows(SEQUENCE_OK, SequenceValue(x), SequenceBody(x))
  {
    hide Shows, W32, W64, Str, Truth, StateForm, ChangeForm, FattrForm, WordsForm, ChannelForm, ServerForm,
      EntriesForm, Listed, BitmapValue, FattrValue, StateIdValue, ChangeInfoValue, ChannelValue, ImplIdsValue,
      EntriesValue, ServerOwnerValue, FattrFits, ImplFits, EntryFits, StatusCodes, IsStatus, ValidUtf8;
    FixedShows(x.sessionid);
    WordShows(x.sequenceid);
    WordShows(x.slotid);
    WordShows(x.highestSlotid);
    WordShows(x.targetHighestSlotid);
    WordShows(x.statusFlags);
    Shows6(Fixed(16), U32, U32, U32, U32, U32, Data(x.sessionid), Num(x.sequenceid), Num(x.slotid),
           Num(x.highestSlotid), Num(x.targetHighestSlotid), Num(x.statusFlags), [x.sessionid], [W32(x.sequenceid)],
           [W32(x.slotid)], [W32(x.highestSlotid)], [W32(x.targetHighestSlotid)], [W32(x.statusFlags)]);
    assert [x.sessionid] + ([W32(x.sequenceid)] + ([W32(x.slotid)] + ([W32(x.highestSlotid)] +
        ([W32(x.targetHighestSlotid)] + ([W32(x.statusFlags)]))))) == SequenceBody(x);
  }

  // ------------------------------------------------------------- the 18 results

  lemma {:induction false} BehindOpcode(op: NfsResOp4, f: Form)
    requires Shows(BodyAt(ArmIndex(op)), Payload(op), f)
    ensures Shows(RES_OP, ResOpValue(op), [W32(OpAt(ArmIndex(op)))] + f)
  {
    hide Shows, BodyAt, Payload, ResArms, OpAt, W32, StatusCodes, IsStatus;
    ArmAt(ArmIndex(op));
    ArmShows("NfsResOp4", ResArms(), ArmIndex(op), Payload(op), f);
  }

  predicate OnWire(op: NfsResOp4)
    requires BodyFits(op)
  {
    var l := ResultLayout(op);
    Shows(RES_OP, ResOpValue(op), [W32(l.opcode)] + ([W32(l.status)] + l.body))
  }

  lemma {:induction false} HandleShows(fh: NfsFh4)
    requires Fits(fh)
    ensures Shows(FILE_HANDLE, FhValue(fh), [Str(fh)])
  {
    hide Shows, Str;
    OpaqueShows(fh);
  }

  lemma {:induction false} FirstOnWire(op: NfsResOp4)
    requires ArmIndex(op) < 5
    requires BodyFits(op)
    ensures OnWire(op)
  {
    hide Shows, BodyAt, OpAt, S1, S2, S3, S5, S6, S7, ResOpValue, ResValue, W32, Str, Fits, FattrFits, DirFits,
      ServerFits, SessionFits, StatusCodes, IsStatus, ValidUtf8, FhValue, GetAttrValue, GetAttrBody;
    FirstBodies();
    Opcodes();
    match op {
      case PutRootFh(s) => StatusShows(s);
      case PutFh(s) => StatusShows(s);
      case Lookup(s) => StatusShows(s);
      case GetFh(r) =>
        if r.resok.Some? {
          HandleShows(r.resok.value);
        }
        GuardShows(FILE_HANDLE, r, FhValue, ResultLayout(op).body);
      case GetAttr(r) =>
        if r.resok.Some? {
          GetAttrShows(r.resok.value);
        }
        GuardShows(GETATTR_OK, r, GetAttrValue, ResultLayout(op).body);
    }
    var l := ResultLayout(op);
    assert [W32(l.status)] + [] == [W32(l.status)];
    BehindOpcode(op, [W32(l.status)] + l.body);
  }

  lemma {:induction false} SecondOnWire(op: NfsResOp4)
    requires 5 <= ArmIndex(op) < 9
    requires BodyFits(op)
    ensures OnWire(op)
  {
    hide Shows, BodyAt, OpAt, S1, S2, S3, S5, S6, S7, ResOpValue, ResValue, W32, Str, Fits, FattrFits, DirFits,
      ServerFits, SessionFits, StatusCodes, IsStatus, ValidUtf8, SetAttrValue, OpenValue, CloseValue, ReadValue,
      SetAttrBody, OpenBody, CloseBody, ReadBody;
    SecondBodies();
    Opcodes();
    match op {
      case SetAttr(r) =>
        if r.resok.Some? {
          SetAttrShows(r.resok.value);
        }
        GuardShows(SETATTR_OK, r, SetAttrValue, ResultLayout(op).body);
      case Open(r) =>
        if r.resok.Some? {
          OpenShows(r.resok.value);
        }
        GuardShows(OPEN_OK, r, OpenValue, ResultLayout(op).body);
      case Close(r) =>
        if r.resok.Some? {
          CloseShows(r.resok.value);
        }
        GuardShows(CLOSE_OK, r, CloseValue, ResultLayout(op).body);
      case Read(r) =>
        if r.resok.Some? {
          ReadShows(r.resok.value);
        }
        GuardShows(READ_OK, r, ReadValue, ResultLayout(op).body);
    }
    var l := ResultLayout(op);
    assert [W32(l.status)] + [] == [W32(l.status)];
    BehindOpcode(op, [W32(l.status)] + l.body);
  }

  lemma {:induction false} ThirdOnWire(op: NfsResOp4)
    requires 9 <= ArmIndex(op) < 13
    requires BodyFits(op)
    ensures OnWire(op)
  {
    hide Shows, BodyAt, OpAt, S1, S2, S3, S5, S6, S7, ResOpValue, ResValue, W32, Str, Fits, FattrFits, DirFits,
      ServerFits, SessionFits, StatusCodes, IsStatus, ValidUtf8, WriteValue, ReadDirValue, RemoveValue, RenameValue,
      WriteBody, ReadDirBody, RemoveBody, RenameBody;
    ThirdBodies();
    Opcodes();
    match op {
      case Write(r) =>
        if r.resok.Some? {
          WriteShows(r.resok.value);
        }
        GuardShows(WRITE_OK, r, WriteValue, ResultLayout(op).body);
      case ReadDir(r) =>
        if r.resok.Some? {
          ReadDirShows(r.resok.value);
        }
        GuardShows(READDIR_OK, r, ReadDirValue, ResultLayout(op).body);
      case Remove(r) =>
        if r.resok.Some? {
          RemoveShows(r.resok.value);
        }
        GuardShows(REMOVE_OK, r, RemoveValue, ResultLayout(op).body);
      case Rename(r) =>
        if r.resok.Some? {
          RenameShows(r.resok.value);
        }
        GuardShows(RENAME_OK, r, RenameValue, ResultLayout(op).body);
    }
    var l := ResultLayout(op);
    assert [W32(l.status)] + [] == [W32(l.status)];
    BehindOpcode(op, [W32(l.status)] + l.body);
  }

  lemma {:induction false} LastOnWire(op: NfsResOp4)
    requires op.ExchangeId? || op.CreateSession? || op.DestroySession? || op.Sequence? || op.ReclaimComplete?
    requires BodyFits(op)
    ensures OnWire(op)
  {
    hide Shows, BodyAt, OpAt, S1, S2, S3, S5, S6, S7, ResOpValue, ResValue, W32, Str, Fits, FattrFits, DirFits,
      ServerFits, SessionFits, StatusCodes, IsStatus, ValidUtf8, ExchangeIdValue, CreateSessionValue, SequenceValue,
      ExchangeIdBody, CreateSessionBody, SequenceBody;
    LastBodies();
    Opcodes();
    match op {
      case ExchangeId(r) =>
        if r.resok.Some? {
          ExchangeIdShows(r.resok.value);
        }
        GuardShows(EXCHANGE_ID_OK, r, ExchangeIdValue, ResultLayout(op).body);
      case CreateSession(r) =>
        if r.resok.Some? {
          CreateSessionShows(r.resok.value);
        }
        GuardShows(CREATE_SESSION_OK, r, CreateSessionValue, ResultLayout(op).body);
      case DestroySession(s) => StatusShows(s);
      case Sequence(r) =>
        if r.resok.Some? {
          SequenceShows(r.resok.value);
        }
        GuardShows(SEQUENCE_OK, r, SequenceValue, ResultLayout(op).body);
      case ReclaimComplete(s) => StatusShows(s);
    }
    var l := ResultLayout(op);
    assert [W32(l.status)] + [] == [W32(l.status)];
    BehindOpcode(op, [W32(l.status)] + l.body);
  }

  lemma {:induction false} ResultShows(op: NfsResOp4)
    requires BodyFits(op)
    ensures OnWire(op)
  {
    hide OnWire, BodyFits;
    if ArmIndex(op) < 5 {
      FirstOnWire(op);
    } else if ArmIndex(op) < 9 {
      SecondOnWire(op);
    } else if ArmIndex(op) < 13 {
      ThirdOnWire(op);
    } else {
      LastOnWire(op);
    }
  }

  /** Every result is written as its layout says: the opcode, the status, and the body,
      if there is one, field by field in the order of the protocol. */
  lemma {:induction false} ResultOnWire(op: NfsResOp4)
    requires BodyFits(op)
    ensures var l := ResultLayout(op);
      EncodeResOp(op) == Wrote(W32(l.opcode) + (W32(l.status) + Concat(l.body)))
  {
    hide Encode, BodyFits, ResOpValue, ResultLayout, W32, HasType, StatusCodes, IsStatus, ValidUtf8;
    ResultShows(op);
    var l := ResultLayout(op);
    ConcatOne(W32(l.opcode));
    ConcatOne(W32(l.status));
    ConcatJoin([W32(l.status)], l.body);
    ConcatJoin([W32(l.opcode)], [W32(l.status)] + l.body);
  }
}
