/** What a COMPOUND response needs to survive the wire, spelled out result by
    result: a body exactly when the status is Ok, filehandles of at most 128 bytes,
    and lengths that fit a length word. */
module SendableResults {
  import opened Xdr
  import opened XdrStructs
  import opened Nfs4Types
  import opened Compound

  /** A body is present exactly when the status is Ok. */
  predicate Consistent<T>(r: Res<T>) {
    r.status == NFS4_OK <==> r.resok.Some?
  }

  predicate FattrFits(a: Fattr4) { Fits(a.attrmask.words) && Fits(a.attrVals) }

  predicate EntryFits(e: Entry4) { Fits(e.name) && FattrFits(e.attrs) }

  predicate ImplFits(i: NfsImplId4) { Fits(i.domain) && Fits(i.name) }

  predicate ServerFits(r: ExchangeId4resok) {
    && Fits(r.serverOwner.majorId) && Fits(r.serverScope) && Fits(r.serverImplId)
    && forall i | 0 <= i < |r.serverImplId| :: ImplFits(r.serverImplId[i])
  }

  predicate SessionFits(r: CreateSession4resok) {
    Fits(r.foreChanAttrs.rdmaIrd) && Fits(r.backChanAttrs.rdmaIrd)
  }

  predicate DirFits(r: ReadDir4resok) {
    forall i | 0 <= i < |r.entries| :: EntryFits(r.entries[i])
  }

  predicate Readable(op: NfsResOp4) {
    match op
    case GetFh(r) => Consistent(r) && (r.resok.Some? ==> |r.resok.value| <= 128)
    case GetAttr(r) => Consistent(r) && (r.resok.Some? ==> FattrFits(r.resok.value.objAttributes))
    case SetAttr(r) => Consistent(r) && (r.resok.Some? ==> Fits(r.resok.value.attrsset.words))
    case Open(r) => Consistent(r) && (r.resok.Some? ==> Fits(r.resok.value.attrset.words))
    case Close(r) => Consistent(r)
    case Read(r) => Consistent(r) && (r.resok.Some? ==> Fits(r.resok.value.data))
    case Write(r) => Consistent(r)
    case ReadDir(r) => Consistent(r) && (r.resok.Some? ==> DirFits(r.resok.value))
    case Remove(r) => Consistent(r)
    case Rename(r) => Consistent(r)
    case ExchangeId(r) => Consistent(r) && (r.resok.Some? ==> ServerFits(r.resok.value))
    case CreateSession(r) => Consistent(r) && (r.resok.Some? ==> SessionFits(r.resok.value))
    case Sequence(r) => Consistent(r)
    case _ => true
  }

  predicate Sendable(res: Compound4res) {
    Fits(res.tag) && Fits(res.resarray) && forall i | 0 <= i < |res.resarray| :: Readable(res.resarray[i])
  }

  /** It is exactly what the schema of the response asks of its value. */
  lemma {:induction false} SendableIff(res: Compound4res)
    ensures Sendable(res) <==> WellFormed(COMPOUND_RES, CompoundValue(res))
  {
    hide HasType, WellFormed, StatusCodes, ResArms, ResOpValue, Readable, CompoundValue, ValidUtf8, IsStatus;
    var vs := ResultsValue(res.resarray);
    StatusTyped(res.status);
    TextTyped(res.tag);
    CompoundValueIs(res);
    Formed3(STAT, Text, Vec(RES_OP), Num(res.status), Data(res.tag), vs);
    StatusFormed(res.status);
    TextFormed(res.tag);
    ResultsFormed(res.resarray);
  }

  lemma {:induction false} CompoundValueIs(res: Compound4res)
    ensures CompoundValue(res) == V3(Num(res.status), Data(res.tag), ResultsValue(res.resarray))
  {
    hide HasType, StatusCodes, IsStatus, ValidUtf8;
  }

  lemma {:induction false} ResultsFormed(ops: seq<NfsResOp4>)
    ensures WellFormed(Vec(RES_OP), ResultsValue(ops))
            <==> Fits(ops) && forall i | 0 <= i < |ops| :: Readable(ops[i])
  {
    hide HasType, StatusCodes, ResArms, ResOpValue, Readable, IsStatus, ValidUtf8;
    var vs := ResultsValue(ops).vs;
    VecFormed(RES_OP, ResultsValue(ops));
    assert |vs| == |ops|;
    forall i | 0 <= i < |ops|
      ensures WellFormed(RES_OP, vs[i]) <==> Readable(ops[i])
    {
      assert vs[i] == ResOpValue(ops[i]);
      ReadableIff(ops[i]);
    }
  }

  // ------------------------------------------------------------------ fields

  lemma {:induction false} StatusFormed(s: NfsStat4)
    ensures HasType(STAT, Num(s)) && WellFormed(STAT, Num(s))
  {
    hide StatusCodes, IsStatus, ValidUtf8;
    StatusTyped(s);
  }

  lemma {:induction false} BitmapFormed(x: Bitmap4)
    ensures WellFormed(BITMAP, BitmapValue(x)) <==> Fits(x.words)
  {
    hide HasType, WellFormed, Words;
    Formed1(Vec(U32), Words(x.words));
    WordsFormed(x.words);
  }

  lemma {:induction false} FattrFormed(x: Fattr4)
    ensures WellFormed(FATTR, FattrValue(x)) <==> FattrFits(x)
  {
    hide HasType, WellFormed, BitmapValue;
    OpaqueFormed(x.attrVals);
    Formed2(BITMAP, Opaque, BitmapValue(x.attrmask), Data(x.attrVals));
    BitmapFormed(x.attrmask);
  }

  lemma {:induction false} StateIdFormed(x: StateId4)
    ensures WellFormed(STATE_ID, StateIdValue(x))
  {
  }

  lemma {:induction false} ChangeInfoFormed(x: ChangeInfo4)
    ensures WellFormed(CHANGE_INFO, ChangeInfoValue(x))
  {
    Formed3(Bool, U64, U64, Flag(x.atomic), Num(x.before), Num(x.after));
  }

  lemma {:induction false} EntryFormed(x: Entry4)
    ensures WellFormed(ENTRY, EntryValue(x)) <==> EntryFits(x)
  {
    hide WellFormed, FattrValue, ValidUtf8;
    PlainFormed(Num(x.cookie));
    TextFormed(x.name);
    Formed3(U64, Text, FATTR, Num(x.cookie), Data(x.name), FattrValue(x.attrs));
    FattrFormed(x.attrs);
  }

  lemma {:induction false} ImplIdFormed(x: NfsImplId4)
    ensures WellFormed(IMPL_ID, ImplIdValue(x)) <==> ImplFits(x)
  {
    hide WellFormed, ValidUtf8;
    var date := V2(Num(x.date.seconds), Num(x.date.nseconds));
    PlainFormed(Num(x.date.seconds));
    PlainFormed(Num(x.date.nseconds));
    TextFormed(x.domain);
    TextFormed(x.name);
    Formed2(I64, U32, Num(x.date.seconds), Num(x.date.nseconds));
    Formed3(Text, Text, TIME, Data(x.domain), Data(x.name), date);
  }

  lemma {:induction false} ChannelFormed(x: ChannelAttrs4)
    ensures WellFormed(CHANNEL_ATTRS, ChannelValue(x)) <==> Fits(x.rdmaIrd)
  {
    hide HasType, WellFormed, Words;
    NumberFormed(x.headerPadSize);
    NumberFormed(x.maxRequestSize);
    NumberFormed(x.maxResponseSize);
    NumberFormed(x.maxResponseSizeCached);
    NumberFormed(x.maxOperations);
    NumberFormed(x.maxRequests);
    WordsFormed(x.rdmaIrd);
    Formed7(U32, U32, U32, U32, U32, U32, Vec(U32),
            Num(x.headerPadSize), Num(x.maxRequestSize), Num(x.maxResponseSize), Num(x.maxResponseSizeCached),
            Num(x.maxOperations), Num(x.maxRequests), Words(x.rdmaIrd));
  }

  // ----------------------------------------------------------------- results

  lemma {:induction false} GuardedFormed(ok: Ty, v: Value)
    requires HasType(Guarded(STAT, ok), v)
    ensures v.Both? && (v.y.Present? ==> HasType(ok, v.y.v))
    ensures WellFormed(Guarded(STAT, ok), v)
            <==> (v.x == OK <==> v.y.Present?) && (v.y.Present? ==> WellFormed(ok, v.y.v))
  {
    hide StatusCodes, IsStatus, ValidUtf8;
    assert WellFormed(STAT, v.x);
    if v.y.Present? {
      assert WellFormed(Guarded(STAT, ok), v) <==> v.x == OK && WellFormed(ok, v.y.v);
    } else {
      assert WellFormed(Guarded(STAT, ok), v) <==> v.x != OK;
    }
  }

  /** A guarded result, given what its body needs. */
  lemma {:induction false} ResFormed<T>(ok: Ty, r: Res<T>, body: T -> Value, fits: bool)
    requires r.resok.Some?
             ==> HasType(ok, body(r.resok.value)) && (WellFormed(ok, body(r.resok.value)) <==> fits)
    ensures HasType(Guarded(STAT, ok), ResValue(r, body))
    ensures WellFormed(Guarded(STAT, ok), ResValue(r, body)) <==> Consistent(r) && (r.resok.Some? ==> fits)
  {
    hide HasType, WellFormed, StatusCodes, IsStatus, ValidUtf8;
    ResTyped(ok, r, body);
    GuardedFormed(ok, ResValue(r, body));
  }

  lemma {:induction false} ChoiceFormed(ty: Ty)
    requires ty.Enum? && ty.arms == [Arm(0, Unit)] && HasType(ty, SP_NONE)
    ensures WellFormed(ty, SP_NONE)
  {
    assert WellFormed(Unit, Nil);
  }

  lemma {:induction false} ServerOwnerFormed(x: ServerOwner4)
    ensures WellFormed(SERVER_OWNER, ServerOwnerValue(x)) <==> Fits(x.majorId)
  {
    hide HasType, WellFormed;
    LongFormed(x.minorId);
    OpaqueFormed(x.majorId);
    Formed2(U64, Opaque, Num(x.minorId), Data(x.majorId));
  }

  lemma {:induction false} EntriesFormed(es: seq<Entry4>)
    ensures WellFormed(Chain(ENTRY), EntriesValue(es)) <==> forall i | 0 <= i < |es| :: EntryFits(es[i])
  {
    hide HasType, EntryValue, EntryFits;
    var vs := EntriesValue(es).vs;
    ChainFormed(ENTRY, EntriesValue(es));
    assert |vs| == |es|;
    forall i | 0 <= i < |es|
      ensures WellFormed(ENTRY, vs[i]) <==> EntryFits(es[i])
    {
      assert vs[i] == EntryValue(es[i]);
      EntryFormed(es[i]);
    }
  }

  lemma {:induction false} ImplIdsFormed(ids: seq<NfsImplId4>)
    ensures WellFormed(Vec(IMPL_ID), ImplIdsValue(ids)) <==> Fits(ids) && forall i | 0 <= i < |ids| :: ImplFits(ids[i])
  {
    hide HasType, ImplIdValue, ImplFits;
    var vs := ImplIdsValue(ids).vs;
    VecFormed(IMPL_ID, ImplIdsValue(ids));
    assert |vs| == |ids|;
    forall i | 0 <= i < |ids|
      ensures WellFormed(IMPL_ID, vs[i]) <==> ImplFits(ids[i])
    {
      assert vs[i] == ImplIdValue(ids[i]);
      ImplIdFormed(ids[i]);
    }
  }

  lemma {:induction false} GetAttrBodyFormed(x: GetAttr4resok)
    ensures WellFormed(GETATTR_OK, GetAttrValue(x)) <==> FattrFits(x.objAttributes)
  {
    hide HasType, WellFormed, StatusCodes, BitmapValue, ChangeInfoValue, ChannelValue, EntriesValue, FattrValue,
      ImplIdsValue, ServerOwnerValue, StateIdValue, IsStatus, ValidUtf8;
    FattrFormed(x.objAttributes);
    Formed1(FATTR, FattrValue(x.objAttributes));
  }

  lemma {:induction false} SetAttrBodyFormed(x: SetAttr4resok)
    ensures WellFormed(SETATTR_OK, SetAttrValue(x)) <==> Fits(x.attrsset.words)
  {
    hide HasType, WellFormed, StatusCodes, BitmapValue, ChangeInfoValue, ChannelValue, EntriesValue, FattrValue,
      ImplIdsValue, ServerOwnerValue, StateIdValue, IsStatus, ValidUtf8;
    BitmapFormed(x.attrsset);
    Formed1(BITMAP, BitmapValue(x.attrsset));
  }

  lemma {:induction false} OpenBodyFormed(x: Open4resok)
    ensures WellFormed(OPEN_OK, OpenValue(x)) <==> Fits(x.attrset.words)
  {
    hide HasType, WellFormed, StatusCodes, BitmapValue, ChangeInfoValue, ChannelValue, EntriesValue, FattrValue,
      ImplIdsValue, ServerOwnerValue, StateIdValue, IsStatus, ValidUtf8;
    StateIdFormed(x.stateid);
    ChangeInfoFormed(x.cinfo);
    NumberFormed(x.rflags);
    BitmapFormed(x.attrset);
    ChoiceTyped(DELEGATION);
    ChoiceFormed(DELEGATION);
    Formed5(STATE_ID, CHANGE_INFO, U32, BITMAP, DELEGATION,
            StateIdValue(x.stateid), ChangeInfoValue(x.cinfo), Num(x.rflags), BitmapValue(x.attrset), SP_NONE);
  }

  lemma {:induction false} CloseBodyFormed(x: Close4resok)
    ensures WellFormed(CLOSE_OK, CloseValue(x))
  {
    hide HasType, WellFormed, StatusCodes, BitmapValue, ChangeInfoValue, ChannelValue, EntriesValue, FattrValue,
      ImplIdsValue, ServerOwnerValue, StateIdValue, IsStatus, ValidUtf8;
    StateIdFormed(x.openStateid);
    Formed1(STATE_ID, StateIdValue(x.openStateid));
  }

  lemma {:induction false} ReadBodyFormed(x: Read4resok)
    ensures WellFormed(READ_OK, ReadValue(x)) <==> Fits(x.data)
  {
    hide HasType, WellFormed, StatusCodes, BitmapValue, ChangeInfoValue, ChannelValue, EntriesValue, FattrValue,
      ImplIdsValue, ServerOwnerValue, StateIdValue, IsStatus, ValidUtf8;
    FlagFormed(x.eof);
    OpaqueFormed(x.data);
    Formed2(Bool, Opaque, Flag(x.eof), Data(x.data));
  }

  lemma {:induction false} WriteBodyFormed(x: Write4resok)
    ensures WellFormed(WRITE_OK, WriteValue(x))
  {
    hide HasType, WellFormed, StatusCodes, BitmapValue, ChangeInfoValue, ChannelValue, EntriesValue, FattrValue,
      ImplIdsValue, ServerOwnerValue, StateIdValue, IsStatus, ValidUtf8;
    NumberFormed(x.count);
    NumberFormed(x.committed);
    FixedFormed(x.writeverf);
    Formed3(U32, U32, Fixed(8), Num(x.count), Num(x.committed), Data(x.writeverf));
  }

  lemma {:induction false} ReadDirBodyFormed(x: ReadDir4resok)
    ensures WellFormed(READDIR_OK, ReadDirValue(x)) <==> DirFits(x)
  {
    hide HasType, WellFormed, StatusCodes, BitmapValue, ChangeInfoValue, ChannelValue, EntriesValue, FattrValue,
      ImplIdsValue, ServerOwnerValue, StateIdValue, IsStatus, ValidUtf8;
    FixedFormed(x.cookieverf);
    EntriesFormed(x.entries);
    FlagFormed(x.eof);
    Formed3(Fixed(8), Chain(ENTRY), Bool, Data(x.cookieverf), EntriesValue(x.entries), Flag(x.eof));
  }

  lemma {:induction false} RemoveBodyFormed(x: Remove4resok)
    ensures WellFormed(REMOVE_OK, RemoveValue(x))
  {
    hide HasType, WellFormed, StatusCodes, BitmapValue, ChangeInfoValue, ChannelValue, EntriesValue, FattrValue,
      ImplIdsValue, ServerOwnerValue, StateIdValue, IsStatus, ValidUtf8;
    ChangeInfoFormed(x.cinfo);
    Formed1(CHANGE_INFO, ChangeInfoValue(x.cinfo));
  }

  lemma {:induction false} RenameBodyFormed(x: Rename4resok)
    ensures WellFormed(RENAME_OK, RenameValue(x))
  {
    hide HasType, WellFormed, StatusCodes, BitmapValue, ChangeInfoValue, ChannelValue, EntriesValue, FattrValue,
      ImplIdsValue, ServerOwnerValue, StateIdValue, IsStatus, ValidUtf8;
    ChangeInfoFormed(x.sourceCinfo);
    ChangeInfoFormed(x.targetCinfo);
    Formed2(CHANGE_INFO, CHANGE_INFO, ChangeInfoValue(x.sourceCinfo), ChangeInfoValue(x.targetCinfo));
  }

  lemma {:induction false} ExchangeIdBodyFormed(x: ExchangeId4resok)
    ensures WellFormed(EXCHANGE_ID_OK, ExchangeIdValue(x)) <==> ServerFits(x)
  {
    hide HasType, WellFormed, StatusCodes, BitmapValue, ChangeInfoValue, ChannelValue, EntriesValue, FattrValue,
      ImplIdsValue, ServerOwnerValue, StateIdValue, IsStatus, ValidUtf8;
    LongFormed(x.clientid);
    NumberFormed(x.sequenceid);
    NumberFormed(x.flags);
    ChoiceTyped(STATE_PROTECT);
    ChoiceFormed(STATE_PROTECT);
    ServerOwnerFormed(x.serverOwner);
    OpaqueFormed(x.serverScope);
    ImplIdsFormed(x.serverImplId);
    Formed7(U64, U32, U32, STATE_PROTECT, SERVER_OWNER, Opaque, Vec(IMPL_ID),
            Num(x.clientid), Num(x.sequenceid), Num(x.flags), SP_NONE, ServerOwnerValue(x.serverOwner),
            Data(x.serverScope), ImplIdsValue(x.serverImplId));
  }

  lemma {:induction false} CreateSessionBodyFormed(x: CreateSession4resok)
    ensures WellFormed(CREATE_SESSION_OK, CreateSessionValue(x)) <==> SessionFits(x)
  {
    hide HasType, WellFormed, StatusCodes, BitmapValue, ChangeInfoValue, ChannelValue, EntriesValue, FattrValue,
      ImplIdsValue, ServerOwnerValue, StateIdValue, IsStatus, ValidUtf8;
    FixedFormed(x.sessionid);
    NumberFormed(x.sequence);
    NumberFormed(x.flags);
    ChannelFormed(x.foreChanAttrs);
    ChannelFormed(x.backChanAttrs);
    Formed5(Fixed(16), U32, U32, CHANNEL_ATTRS, CHANNEL_ATTRS,
            Data(x.sessionid), Num(x.sequence), Num(x.flags), ChannelValue(x.foreChanAttrs),
                ChannelValue(x.backChanAttrs));
  }

  lemma {:induction false} SequenceBodyFormed(x: Sequence4resok)
    ensures WellFormed(SEQUENCE_OK, SequenceValue(x))
  {
    hide HasType, WellFormed, StatusCodes, BitmapValue, ChangeInfoValue, ChannelValue, EntriesValue, FattrValue,
      ImplIdsValue, ServerOwnerValue, StateIdValue, IsStatus, ValidUtf8;
    FixedFormed(x.sessionid);
    NumberFormed(x.sequenceid);
    NumberFormed(x.slotid);
    NumberFormed(x.highestSlotid);
    NumberFormed(x.targetHighestSlotid);
    NumberFormed(x.statusFlags);
    Formed6(Fixed(16), U32, U32, U32, U32, U32,
            Data(x.sessionid), Num(x.sequenceid), Num(x.slotid), Num(x.highestSlotid), Num(x.targetHighestSlotid),
                Num(x.statusFlags));
  }

  lemma {:induction false} ResOpFormed(op: NfsResOp4)
    ensures HasType(BodyAt(ArmIndex(op)), Payload(op))
    ensures WellFormed(RES_OP, ResOpValue(op)) <==> WellFormed(BodyAt(ArmIndex(op)), Payload(op))
  {
    hide HasType, StatusCodes, OpAt, BodyAt, Payload, ResArms, IsStatus, ValidUtf8;
    PayloadTyped(op);
    OpcodesDistinct();
    var k := ArmIndex(op);
    forall i | 0 <= i <= k
      ensures ResArms()[i].discriminant == OpAt(i)
    {
      ArmAt(i);
    }
    ArmAt(k);
    assert Unshadowed(ResArms(), k);
  }

  lemma {:induction false} FhBodyFormed(fh: NfsFh4)
    ensures WellFormed(FILE_HANDLE, FhValue(fh)) <==> |fh| <= 128
  {
  }

  lemma {:induction false} ReadableFirst(op: NfsResOp4)
    requires ArmIndex(op) < 6
    ensures HasType(BodyAt(ArmIndex(op)), Payload(op))
    ensures WellFormed(BodyAt(ArmIndex(op)), Payload(op)) <==> Readable(op)
  {
    hide HasType, BodyAt, S1, S2, S3, S5, S6, S7, WellFormed, StatusCodes, IsStatus, ValidUtf8, Consistent,
      FattrFits, Fits, DirFits, ServerFits, SessionFits, ResValue, FhValue, GetAttrValue, SetAttrValue;
    FirstBodies();
    SecondBodies();
    match op {
      case PutRootFh(s) => StatusFormed(s);
      case PutFh(s) => StatusFormed(s);
      case Lookup(s) => StatusFormed(s);
      case GetFh(r) =>
        if r.resok.Some? {
          FhBodyFormed(r.resok.value);
        }
        ResFormed(FILE_HANDLE, r, FhValue, r.resok.Some? ==> |r.resok.value| <= 128);
      case GetAttr(r) =>
        if r.resok.Some? {
          GetAttrBodyFormed(r.resok.value);
        }
        ResFormed(GETATTR_OK, r, GetAttrValue, r.resok.Some? ==> FattrFits(r.resok.value.objAttributes));
      case SetAttr(r) =>
        if r.resok.Some? {
          SetAttrBodyFormed(r.resok.value);
        }
        ResFormed(SETATTR_OK, r, SetAttrValue, r.resok.Some? ==> Fits(r.resok.value.attrsset.words));
    }
  }

  lemma {:induction false} ReadableMiddle(op: NfsResOp4)
    requires 6 <= ArmIndex(op) < 11
    ensures HasType(BodyAt(ArmIndex(op)), Payload(op))
    ensures WellFormed(BodyAt(ArmIndex(op)), Payload(op)) <==> Readable(op)
  {
    hide HasType, BodyAt, S1, S2, S3, S5, S6, S7, WellFormed, StatusCodes, IsStatus, ValidUtf8, Consistent,
      FattrFits, Fits, DirFits, ServerFits, SessionFits, ResValue, OpenValue, CloseValue, ReadValue, WriteValue,
      ReadDirValue;
    SecondBodies();
    ThirdBodies();
    match op {
      case Open(r) =>
        if r.resok.Some? {
          OpenBodyFormed(r.resok.value);
        }
        ResFormed(OPEN_OK, r, OpenValue, r.resok.Some? ==> Fits(r.resok.value.attrset.words));
      case Close(r) =>
        if r.resok.Some? {
          CloseBodyFormed(r.resok.value);
        }
        ResFormed(CLOSE_OK, r, CloseValue, true);
      case Read(r) =>
        if r.resok.Some? {
          ReadBodyFormed(r.resok.value);
        }
        ResFormed(READ_OK, r, ReadValue, r.resok.Some? ==> Fits(r.resok.value.data));
      case Write(r) =>
        if r.resok.Some? {
          WriteBodyFormed(r.resok.value);
        }
        ResFormed(WRITE_OK, r, WriteValue, true);
      case ReadDir(r) =>
        if r.resok.Some? {
          ReadDirBodyFormed(r.resok.value);
        }
        ResFormed(READDIR_OK, r, ReadDirValue, r.resok.Some? ==> DirFits(r.resok.value));
    }
  }

  lemma {:induction false} ReadableLast(op: NfsResOp4)
    requires op.Remove? || op.Rename? || op.ExchangeId?
      || op.CreateSession? || op.DestroySession? || op.Sequence? || op.ReclaimComplete?
    ensures HasType(BodyAt(ArmIndex(op)), Payload(op))
    ensures WellFormed(BodyAt(ArmIndex(op)), Payload(op)) <==> Readable(op)
  {
    hide HasType, BodyAt, S1, S2, S3, S5, S6, S7, WellFormed, StatusCodes, IsStatus, ValidUtf8, Consistent,
      FattrFits, Fits, DirFits, ServerFits, SessionFits, ResValue, RemoveValue, RenameValue, ExchangeIdValue,
      CreateSessionValue, SequenceValue;
    ThirdBodies();
    LastBodies();
    match op {
      case Remove(r) =>
        if r.resok.Some? {
          RemoveBodyFormed(r.resok.value);
        }
        ResFormed(REMOVE_OK, r, RemoveValue, true);
      case Rename(r) =>
        if r.resok.Some? {
          RenameBodyFormed(r.resok.value);
        }
        ResFormed(RENAME_OK, r, RenameValue, true);
      case ExchangeId(r) =>
        if r.resok.Some? {
          ExchangeIdBodyFormed(r.resok.value);
        }
        ResFormed(EXCHANGE_ID_OK, r, ExchangeIdValue, r.resok.Some? ==> ServerFits(r.resok.value));
      case CreateSession(r) =>
        if r.resok.Some? {
          CreateSessionBodyFormed(r.resok.value);
        }
        ResFormed(CREATE_SESSION_OK, r, CreateSessionValue, r.resok.Some? ==> SessionFits(r.resok.value));
      case DestroySession(s) => StatusFormed(s);
      case Sequence(r) =>
        if r.resok.Some? {
          SequenceBodyFormed(r.resok.value);
        }
        ResFormed(SEQUENCE_OK, r, SequenceValue, true);
      case ReclaimComplete(s) => StatusFormed(s);
    }
  }

  lemma {:induction false} ReadableIff(op: NfsResOp4)
    ensures WellFormed(RES_OP, ResOpValue(op)) <==> Readable(op)
  {
    hide HasType, WellFormed, StatusCodes, ResArms, ResOpValue, Readable, IsStatus, ValidUtf8;
    ResOpFormed(op);
    if ArmIndex(op) < 6 {
      ReadableFirst(op);
    } else if ArmIndex(op) < 11 {
      ReadableMiddle(op);
    } else {
      ReadableLast(op);
    }
  }
}
