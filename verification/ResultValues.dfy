/** Typed results and their Xdr values tell each other apart. */
module ResultValues {
  import opened Xdr
  import opened XdrStructs
  import opened Nfs4Types

  lemma {:induction false} StateIdInjective(x: StateId4, y: StateId4)
    requires StateIdValue(x) == StateIdValue(y)
    ensures x == y
  {
    hide HasType;
  }

  lemma {:induction false} ChangeInfoInjective(x: ChangeInfo4, y: ChangeInfo4)
    requires ChangeInfoValue(x) == ChangeInfoValue(y)
    ensures x == y
  {
    hide HasType;
  }

  lemma {:induction false} BitmapInjective(x: Bitmap4, y: Bitmap4)
    requires BitmapValue(x) == BitmapValue(y)
    ensures x == y
  {
    hide HasType, Words;
    WordsInjective(x.words, y.words);
  }

  lemma {:induction false} FattrInjective(x: Fattr4, y: Fattr4)
    requires FattrValue(x) == FattrValue(y)
    ensures x == y
  {
    hide HasType, BitmapValue;
    BitmapInjective(x.attrmask, y.attrmask);
  }

  lemma {:induction false} ImplIdInjective(x: NfsImplId4, y: NfsImplId4)
    requires ImplIdValue(x) == ImplIdValue(y)
    ensures x == y
  {
    hide HasType;
  }

  lemma {:induction false} ImplIdsInjective(x: seq<NfsImplId4>, y: seq<NfsImplId4>)
    requires ImplIdsValue(x) == ImplIdsValue(y)
    ensures x == y
  {
    hide HasType, ImplIdValue;
    assert |ImplIdsValue(x).vs| == |x| && |ImplIdsValue(y).vs| == |y|;
    forall i | 0 <= i < |x|
      ensures x[i] == y[i]
    {
      assert ImplIdsValue(x).vs[i] == ImplIdValue(x[i]) && ImplIdsValue(y).vs[i] == ImplIdValue(y[i]);
      ImplIdInjective(x[i], y[i]);
    }
  }

  lemma {:induction false} ChannelInjective(x: ChannelAttrs4, y: ChannelAttrs4)
    requires ChannelValue(x) == ChannelValue(y)
    ensures x == y
  {
    hide HasType, Words;
    WordsInjective(x.rdmaIrd, y.rdmaIrd);
  }

  lemma {:induction false} EntryInjective(x: Entry4, y: Entry4)
    requires EntryValue(x) == EntryValue(y)
    ensures x == y
  {
    hide HasType, FattrValue;
    FattrInjective(x.attrs, y.attrs);
  }

  lemma {:induction false} EntriesInjective(x: seq<Entry4>, y: seq<Entry4>)
    requires EntriesValue(x) == EntriesValue(y)
    ensures x == y
  {
    hide HasType, EntryValue;
    assert |EntriesValue(x).vs| == |x| && |EntriesValue(y).vs| == |y|;
    forall i | 0 <= i < |x|
      ensures x[i] == y[i]
    {
      assert EntriesValue(x).vs[i] == EntryValue(x[i]) && EntriesValue(y).vs[i] == EntryValue(y[i]);
      EntryInjective(x[i], y[i]);
    }
  }

  lemma {:induction false} ServerOwnerInjective(x: ServerOwner4, y: ServerOwner4)
    requires ServerOwnerValue(x) == ServerOwnerValue(y)
    ensures x == y
  {
    hide HasType;
  }

  lemma {:induction false} FhInjective(x: NfsFh4, y: NfsFh4)
    requires FhValue(x) == FhValue(y)
    ensures x == y
  {
    hide HasType;
  }

  lemma {:induction false} GetAttrInjective(x: GetAttr4resok, y: GetAttr4resok)
    requires GetAttrValue(x) == GetAttrValue(y)
    ensures x == y
  {
    hide HasType, FattrValue;
    FattrInjective(x.objAttributes, y.objAttributes);
  }

  lemma {:induction false} SetAttrInjective(x: SetAttr4resok, y: SetAttr4resok)
    requires SetAttrValue(x) == SetAttrValue(y)
    ensures x == y
  {
    hide HasType, BitmapValue;
    BitmapInjective(x.attrsset, y.attrsset);
  }

  lemma {:induction false} OpenInjective(x: Open4resok, y: Open4resok)
    requires OpenValue(x) == OpenValue(y)
    ensures x == y
  {
    hide HasType, BitmapValue, ChangeInfoValue, StateIdValue;
    StateIdInjective(x.stateid, y.stateid);
    ChangeInfoInjective(x.cinfo, y.cinfo);
    BitmapInjective(x.attrset, y.attrset);
  }

  lemma {:induction false} CloseInjective(x: Close4resok, y: Close4resok)
    requires CloseValue(x) == CloseValue(y)
    ensures x == y
  {
    hide HasType, StateIdValue;
    StateIdInjective(x.openStateid, y.openStateid);
  }

  lemma {:induction false} ReadInjective(x: Read4resok, y: Read4resok)
    requires ReadValue(x) == ReadValue(y)
    ensures x == y
  {
    hide HasType;
  }

  lemma {:induction false} WriteInjective(x: Write4resok, y: Write4resok)
    requires WriteValue(x) == WriteValue(y)
    ensures x == y
  {
    hide HasType;
  }

  lemma {:induction false} ReadDirInjective(x: ReadDir4resok, y: ReadDir4resok)
    requires ReadDirValue(x) == ReadDirValue(y)
    ensures x == y
  {
    hide HasType, EntriesValue;
    EntriesInjective(x.entries, y.entries);
  }

  lemma {:induction false} RemoveInjective(x: Remove4resok, y: Remove4resok)
    requires RemoveValue(x) == RemoveValue(y)
    ensures x == y
  {
    hide HasType, ChangeInfoValue;
    ChangeInfoInjective(x.cinfo, y.cinfo);
  }

  lemma {:induction false} RenameInjective(x: Rename4resok, y: Rename4resok)
    requires RenameValue(x) == RenameValue(y)
    ensures x == y
  {
    hide HasType, ChangeInfoValue;
    ChangeInfoInjective(x.sourceCinfo, y.sourceCinfo);
    ChangeInfoInjective(x.targetCinfo, y.targetCinfo);
  }

  lemma {:induction false} ExchangeIdInjective(x: ExchangeId4resok, y: ExchangeId4resok)
    requires ExchangeIdValue(x) == ExchangeIdValue(y)
    ensures x == y
  {
    hide HasType, ImplIdsValue, ServerOwnerValue;
    ServerOwnerInjective(x.serverOwner, y.serverOwner);
    ImplIdsInjective(x.serverImplId, y.serverImplId);
  }

  lemma {:induction false} CreateSessionInjective(x: CreateSession4resok, y: CreateSession4resok)
    requires CreateSessionValue(x) == CreateSessionValue(y)
    ensures x == y
  {
    hide HasType, ChannelValue;
    ChannelInjective(x.foreChanAttrs, y.foreChanAttrs);
    ChannelInjective(x.backChanAttrs, y.backChanAttrs);
  }

  lemma {:induction false} SequenceInjective(x: Sequence4resok, y: Sequence4resok)
    requires SequenceValue(x) == SequenceValue(y)
    ensures x == y
  {
    hide HasType;
  }

  lemma {:induction false} PayloadFirst(x: NfsResOp4, y: NfsResOp4)
    requires ArmIndex(x) < 7 && ArmIndex(x) == ArmIndex(y) && Payload(x) == Payload(y)
    ensures x == y
  {
    hide HasType, StatusCodes, IsStatus, ValidUtf8, ResValue, FhValue, GetAttrValue, SetAttrValue, OpenValue;
    match x {
      case PutRootFh(_) =>
      case PutFh(_) =>
      case Lookup(_) =>
      case GetFh(r) =>
        ResBodies(r, y.getFh, FhValue);
        if r.resok.Some? {
          FhInjective(r.resok.value, y.getFh.resok.value);
        }
      case GetAttr(r) =>
        ResBodies(r, y.getAttr, GetAttrValue);
        if r.resok.Some? {
          GetAttrInjective(r.resok.value, y.getAttr.resok.value);
        }
      case SetAttr(r) =>
        ResBodies(r, y.setAttr, SetAttrValue);
        if r.resok.Some? {
          SetAttrInjective(r.resok.value, y.setAttr.resok.value);
        }
      case Open(r) =>
        ResBodies(r, y.open, OpenValue);
        if r.resok.Some? {
          OpenInjective(r.resok.value, y.open.resok.value);
        }
    }
  }

  lemma {:induction false} PayloadMiddle(x: NfsResOp4, y: NfsResOp4)
    requires 7 <= ArmIndex(x) < 12 && ArmIndex(x) == ArmIndex(y) && Payload(x) == Payload(y)
    ensures x == y
  {
    hide HasType, StatusCodes, IsStatus, ValidUtf8, ResValue, CloseValue, ReadValue, WriteValue, ReadDirValue,
      RemoveValue;
    match x {
      case Close(r) =>
        ResBodies(r, y.close, CloseValue);
        if r.resok.Some? {
          CloseInjective(r.resok.value, y.close.resok.value);
        }
      case Read(r) =>
        ResBodies(r, y.read, ReadValue);
        if r.resok.Some? {
          ReadInjective(r.resok.value, y.read.resok.value);
        }
      case Write(r) =>
        ResBodies(r, y.write, WriteValue);
        if r.resok.Some? {
          WriteInjective(r.resok.value, y.write.resok.value);
        }
      case ReadDir(r) =>
        ResBodies(r, y.readDir, ReadDirValue);
        if r.resok.Some? {
          ReadDirInjective(r.resok.value, y.readDir.resok.value);
        }
      case Remove(r) =>
        ResBodies(r, y.remove, RemoveValue);
        if r.resok.Some? {
          RemoveInjective(r.resok.value, y.remove.resok.value);
        }
    }
  }

  lemma {:induction false} PayloadLast(x: NfsResOp4, y: NfsResOp4)
    requires x.Rename? || x.ExchangeId? || x.CreateSession? || x.DestroySession? || x.Sequence? || x.ReclaimComplete?
    requires ArmIndex(x) == ArmIndex(y) && Payload(x) == Payload(y)
    ensures x == y
  {
    hide HasType, StatusCodes, IsStatus, ValidUtf8, ResValue, RenameValue, ExchangeIdValue, CreateSessionValue,
      SequenceValue;
    match x {
      case Rename(r) =>
        ResBodies(r, y.rename, RenameValue);
        if r.resok.Some? {
          RenameInjective(r.resok.value, y.rename.resok.value);
        }
      case ExchangeId(r) =>
        ResBodies(r, y.exchangeId, ExchangeIdValue);
        if r.resok.Some? {
          ExchangeIdInjective(r.resok.value, y.exchangeId.resok.value);
        }
      case CreateSession(r) =>
        ResBodies(r, y.createSession, CreateSessionValue);
        if r.resok.Some? {
          CreateSessionInjective(r.resok.value, y.createSession.resok.value);
        }
      case DestroySession(_) =>
      case Sequence(r) =>
        ResBodies(r, y.sequence, SequenceValue);
        if r.resok.Some? {
          SequenceInjective(r.resok.value, y.sequence.resok.value);
        }
      case ReclaimComplete(_) =>
    }
  }

  lemma {:induction false} ResOpInjective(x: NfsResOp4, y: NfsResOp4)
    requires ResOpValue(x) == ResOpValue(y)
    ensures x == y
  {
    hide HasType, StatusCodes, IsStatus, ValidUtf8, Payload;
    if ArmIndex(x) < 7 {
      PayloadFirst(x, y);
    } else if ArmIndex(x) < 12 {
      PayloadMiddle(x, y);
    } else {
      PayloadLast(x, y);
    }
  }
}
