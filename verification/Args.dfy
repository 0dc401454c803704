/** COMPOUND requests: the arguments of the 18 operations, the builder that
    collects them, and their encoding. */
module CompoundArgs {
  import opened Wire
  import opened Xdr
  import opened XdrStructs
  import opened XdrCodec
  import opened Nfs4Types
  import opened ResultValues
  import opened SendableResults
  import opened OpenChoices
  import Laws = XdrLaws

  datatype ClientOwner4 = ClientOwner4(verifier: Verifier4, ownerid: seq<byte>)
  datatype OpenOwner4 = OpenOwner4(clientid: u64, owner: seq<byte>)
  datatype CallbackSecParms4 = CallbackAuthNone

  /** SP_NONE, the only state protection there is, needs no field. */
  datatype NfsArgOp4 =
    | PutRootFh
    | PutFh(fh: NfsFh4)
    | Lookup(name: Utf8)
    | GetFh
    | GetAttr(attrRequest: Bitmap4)
    | SetAttr(stateid: StateId4, fattr: Fattr4)
    | Open(seqid: u32, access: u32, deny: u32, openOwner: OpenOwner4, how: OpenFlag4, claim: OpenClaim4)
    | Close(seqid: u32, openStateid: StateId4)
    | Read(stateid: StateId4, offset: u64, count: u32)
    | Write(stateid: StateId4, offset: u64, stable: u32, data: seq<byte>)
    | ReadDir(cookie: u64, cookieverf: Verifier4, dircount: u32, maxcount: u32, entryRequest: Bitmap4)
    | Remove(target: Utf8)
    | Rename(oldname: Utf8, newname: Utf8)
    | ExchangeId(owner: ClientOwner4, flags: u32, implIds: seq<NfsImplId4>)
    | CreateSession(clientid: u64, sequence: u32, csFlags: u32, fore: ChannelAttrs4, back: ChannelAttrs4,
                    cbProgram: u32, secParms: seq<CallbackSecParms4>)
    | DestroySession(dead: SessionId4)
    | Sequence(sessionid: SessionId4, sequenceid: u32, slotid: u32, highest: u32, cacheThis: bool)
    | ReclaimComplete(oneFs: bool)

  datatype Compound4args = Compound4args(tag: Utf8, minorversion: u32, argarray: seq<NfsArgOp4>)

  const NFS4_MINOR_VERSION: u32 := 1

  /** Collects operations; every method but Tag appends one at the end. */
  class CompoundBuilder {
    var tag: Utf8
    var ops: seq<NfsArgOp4>

    constructor ()
      ensures tag == [] && ops == []
    {
      tag, ops := [], [];
    }

    method Tag(t: Utf8)
      modifies this
      ensures tag == t && ops == old(ops)
    {
      tag := t;
    }

    method Sequence(sessionid: SessionId4, sequenceid: u32, slotid: u32, highest: u32)
      modifies this
      ensures tag == old(tag) && ops == old(ops) + [NfsArgOp4.Sequence(sessionid, sequenceid, slotid, highest, false)]
    {
      ops := ops + [NfsArgOp4.Sequence(sessionid, sequenceid, slotid, highest, false)];
    }

    method PutRootFh()
      modifies this
      ensures tag == old(tag) && ops == old(ops) + [NfsArgOp4.PutRootFh]
    {
      ops := ops + [NfsArgOp4.PutRootFh];
    }

    method PutFh(fh: NfsFh4)
      modifies this
      ensures tag == old(tag) && ops == old(ops) + [NfsArgOp4.PutFh(fh)]
    {
      ops := ops + [NfsArgOp4.PutFh(fh)];
    }

    method Lookup(name: Utf8)
      modifies this
      ensures tag == old(tag) && ops == old(ops) + [NfsArgOp4.Lookup(name)]
    {
      ops := ops + [NfsArgOp4.Lookup(name)];
    }

    method GetFh()
      modifies this
      ensures tag == old(tag) && ops == old(ops) + [NfsArgOp4.GetFh]
    {
      ops := ops + [NfsArgOp4.GetFh];
    }

    method GetAttr(request: Bitmap4)
      modifies this
      ensures tag == old(tag) && ops == old(ops) + [NfsArgOp4.GetAttr(request)]
    {
      ops := ops + [NfsArgOp4.GetAttr(request)];
    }

    method SetAttr(stateid: StateId4, fattr: Fattr4)
      modifies this
      ensures tag == old(tag) && ops == old(ops) + [NfsArgOp4.SetAttr(stateid, fattr)]
    {
      ops := ops + [NfsArgOp4.SetAttr(stateid, fattr)];
    }

    method OpenByName(name: Utf8, access: u32, owner: seq<byte>)
      modifies this
      ensures tag == old(tag)
      ensures ops == old(ops) + [NfsArgOp4.Open(0, access, 0, OpenOwner4(0, owner), NoCreate, ClaimNull(name))]
    {
      ops := ops + [NfsArgOp4.Open(0, access, 0, OpenOwner4(0, owner), NoCreate, ClaimNull(name))];
    }

    method Close(stateid: StateId4)
      modifies this
      ensures tag == old(tag) && ops == old(ops) + [NfsArgOp4.Close(0, stateid)]
    {
      ops := ops + [NfsArgOp4.Close(0, stateid)];
    }

    method Read(stateid: StateId4, offset: u64, count: u32)
      modifies this
      ensures tag == old(tag) && ops == old(ops) + [NfsArgOp4.Read(stateid, offset, count)]
    {
      ops := ops + [NfsArgOp4.Read(stateid, offset, count)];
    }

    method Write(stateid: StateId4, offset: u64, data: seq<byte>, stable: u32)
      modifies this
      ensures tag == old(tag) && ops == old(ops) + [NfsArgOp4.Write(stateid, offset, stable, data)]
    {
      ops := ops + [NfsArgOp4.Write(stateid, offset, stable, data)];
    }

    method ReadDir(cookie: u64, cookieverf: Verifier4, dircount: u32, maxcount: u32, request: Bitmap4)
      modifies this
      ensures tag == old(tag) && ops == old(ops) + [NfsArgOp4.ReadDir(cookie, cookieverf, dircount, maxcount, request)]
    {
      ops := ops + [NfsArgOp4.ReadDir(cookie, cookieverf, dircount, maxcount, request)];
    }

    method Remove(target: Utf8)
      modifies this
      ensures tag == old(tag) && ops == old(ops) + [NfsArgOp4.Remove(target)]
    {
      ops := ops + [NfsArgOp4.Remove(target)];
    }

    method Rename(oldname: Utf8, newname: Utf8)
      modifies this
      ensures tag == old(tag) && ops == old(ops) + [NfsArgOp4.Rename(oldname, newname)]
    {
      ops := ops + [NfsArgOp4.Rename(oldname, newname)];
    }

    method ExchangeId(owner: ClientOwner4, flags: u32)
      modifies this
      ensures tag == old(tag) && ops == old(ops) + [NfsArgOp4.ExchangeId(owner, flags, [])]
    {
      ops := ops + [NfsArgOp4.ExchangeId(owner, flags, [])];
    }

    method CreateSession(clientid: u64, sequence: u32, flags: u32, fore: ChannelAttrs4, back: ChannelAttrs4)
      modifies this
      ensures tag == old(tag)
      ensures ops == old(ops) + [NfsArgOp4.CreateSession(clientid, sequence, flags, fore, back, 0, [CallbackAuthNone])]
    {
      ops := ops + [NfsArgOp4.CreateSession(clientid, sequence, flags, fore, back, 0, [CallbackAuthNone])];
    }

    method DestroySession(dead: SessionId4)
      modifies this
      ensures tag == old(tag) && ops == old(ops) + [NfsArgOp4.DestroySession(dead)]
    {
      ops := ops + [NfsArgOp4.DestroySession(dead)];
    }

    method ReclaimComplete(oneFs: bool)
      modifies this
      ensures tag == old(tag) && ops == old(ops) + [NfsArgOp4.ReclaimComplete(oneFs)]
    {
      ops := ops + [NfsArgOp4.ReclaimComplete(oneFs)];
    }

    method Build() returns (args: Compound4args)
      ensures args == Compound4args(tag, NFS4_MINOR_VERSION, ops)
    {
      return Compound4args(tag, NFS4_MINOR_VERSION, ops);
    }
  }

  // ---------------------------------------------------------------- encoding

  const CLIENT_OWNER := S2(Fixed(8), Opaque)
  const PROTECT_ARG := Enum("StateProtect4a", [Arm(0, Unit)])
  /** AUTH_NONE and its empty body: two zero words. */
  const CALLBACK_PARMS := S2(U32, U32)
  const OPEN_OWNER := S2(U64, Opaque)

  const SETATTR_ARGS := S2(STATE_ID, FATTR)
  const OPEN_ARGS := S6(U32, U32, U32, OPEN_OWNER, OPEN_FLAG, OPEN_CLAIM)
  const CLOSE_ARGS := S2(U32, STATE_ID)
  const READ_ARGS := S3(STATE_ID, U64, U32)
  const WRITE_ARGS := S4(STATE_ID, U64, U32, Opaque)
  const READDIR_ARGS := S5(U64, Fixed(8), U32, U32, BITMAP)
  const RENAME_ARGS := S2(Text, Text)
  const EXCHANGE_ID_ARGS := S4(CLIENT_OWNER, U32, PROTECT_ARG, Vec(IMPL_ID))
  const CREATE_SESSION_ARGS := S7(U64, U32, U32, CHANNEL_ATTRS, CHANNEL_ATTRS, U32, Vec(CALLBACK_PARMS))
  const SEQUENCE_ARGS := S5(Fixed(16), U32, U32, U32, Bool)

  function ArgArms(): seq<Arm> {
    [
      Arm(OP_PUTROOTFH, Unit),
      Arm(OP_PUTFH, S1(Opaque)),
      Arm(OP_LOOKUP, S1(Text)),
      Arm(OP_GETFH, Unit),
      Arm(OP_GETATTR, S1(BITMAP)),
      Arm(OP_SETATTR, SETATTR_ARGS),
      Arm(OP_OPEN, OPEN_ARGS),
      Arm(OP_CLOSE, CLOSE_ARGS),
      Arm(OP_READ, READ_ARGS),
      Arm(OP_WRITE, WRITE_ARGS),
      Arm(OP_READDIR, READDIR_ARGS),
      Arm(OP_REMOVE, S1(Text)),
      Arm(OP_RENAME, RENAME_ARGS),
      Arm(OP_EXCHANGE_ID, EXCHANGE_ID_ARGS),
      Arm(OP_CREATE_SESSION, CREATE_SESSION_ARGS),
      Arm(OP_DESTROY_SESSION, S1(Fixed(16))),
      Arm(OP_SEQUENCE, SEQUENCE_ARGS),
      Arm(OP_RECLAIM_COMPLETE, S1(Bool))
    ]
  }

  const ARG_OP := Enum("NfsArgOp4", ArgArms())
  const COMPOUND_ARGS := S3(Text, U32, Vec(ARG_OP))

  function ArgIndex(op: NfsArgOp4): (k: nat)
    ensures k < 18
  {
    match op
    case PutRootFh => 0
    case PutFh(_) => 1
    case Lookup(_) => 2
    case GetFh => 3
    case GetAttr(_) => 4
    case SetAttr(_, _) => 5
    case Open(_, _, _, _, _, _) => 6
    case Close(_, _) => 7
    case Read(_, _, _) => 8
    case Write(_, _, _, _) => 9
    case ReadDir(_, _, _, _, _) => 10
    case Remove(_) => 11
    case Rename(_, _) => 12
    case ExchangeId(_, _, _) => 13
    case CreateSession(_, _, _, _, _, _, _) => 14
    case DestroySession(_) => 15
    case Sequence(_, _, _, _, _) => 16
    case ReclaimComplete(_) => 17
  }

  function ArgBody(k: nat): Ty
    requires k < 18
  {
    match k
    case 0 => Unit
    case 1 => S1(Opaque)
    case 2 => S1(Text)
    case 3 => Unit
    case 4 => S1(BITMAP)
    case 5 => SETATTR_ARGS
    case 6 => OPEN_ARGS
    case 7 => CLOSE_ARGS
    case 8 => READ_ARGS
    case 9 => WRITE_ARGS
    case 10 => READDIR_ARGS
    case 11 => S1(Text)
    case 12 => RENAME_ARGS
    case 13 => EXCHANGE_ID_ARGS
    case 14 => CREATE_SESSION_ARGS
    case 15 => S1(Fixed(16))
    case 16 => SEQUENCE_ARGS
    case _ => S1(Bool)
  }

  lemma {:induction false} FirstArgBodies()
    ensures ArgBody(0) == Unit
    ensures ArgBody(1) == S1(Opaque)
    ensures ArgBody(2) == S1(Text)
    ensures ArgBody(3) == Unit
    ensures ArgBody(4) == S1(BITMAP)
  {
    hide S1, S2, S3, S4, S5, S6, S7;
  }

  lemma {:induction false} SecondArgBodies()
    ensures ArgBody(5) == SETATTR_ARGS
    ensures ArgBody(6) == OPEN_ARGS
    ensures ArgBody(7) == CLOSE_ARGS
    ensures ArgBody(8) == READ_ARGS
  {
    hide S1, S2, S3, S4, S5, S6, S7;
  }

  lemma {:induction false} ThirdArgBodies()
    ensures ArgBody(9) == WRITE_ARGS
    ensures ArgBody(10) == READDIR_ARGS
    ensures ArgBody(11) == S1(Text)
    ensures ArgBody(12) == RENAME_ARGS
  {
    hide S1, S2, S3, S4, S5, S6, S7;
  }

  lemma {:induction false} LastArgBodies()
    ensures ArgBody(13) == EXCHANGE_ID_ARGS
    ensures ArgBody(14) == CREATE_SESSION_ARGS
    ensures ArgBody(15) == S1(Fixed(16))
    ensures ArgBody(16) == SEQUENCE_ARGS
    ensures ArgBody(17) == S1(Bool)
  {
    hide S1, S2, S3, S4, S5, S6, S7;
  }

  /** Requests and results use the same opcodes. */
  lemma {:induction false} ArgArmAt(k: nat)
    requires k < 18
    ensures |ArgArms()| == 18 && ArgArms()[k] == Arm(OpAt(k), ArgBody(k))
  {
  }

  lemma {:induction false} ArgUnshadowed(k: nat)
    requires k < 18
    ensures |ArgArms()| == 18 && Unshadowed(ArgArms(), k)
  {
    hide ArgArms, ArgBody, OpAt;
    OpcodesDistinct();
    ArgArmAt(k);
    forall i | 0 <= i <= k
      ensures ArgArms()[i].discriminant == OpAt(i)
    {
      ArgArmAt(i);
    }
  }

  function OwnerValue(o: ClientOwner4): Value {
    V2(Data(o.verifier), Data(o.ownerid))
  }

  function OpenOwnerValue(o: OpenOwner4): Value {
    V2(Num(o.clientid), Data(o.owner))
  }

  function ParmsValue(parms: seq<CallbackSecParms4>): Value {
    List(seq(|parms|, i requires 0 <= i < |parms| => V2(Num(0), Num(0))))
  }

  function ArgPayload(op: NfsArgOp4): Value {
    match op
    case PutRootFh => Nil
    case PutFh(fh) => V1(Data(fh))
    case Lookup(name) => V1(Data(name))
    case GetFh => Nil
    case GetAttr(request) => V1(BitmapValue(request))
    case SetAttr(stateid, fattr) => V2(StateIdValue(stateid), FattrValue(fattr))
    case Open(seqid, access, deny, owner, how, claim) =>
      V6(Num(seqid), Num(access), Num(deny), OpenOwnerValue(owner), FlagValue(how), ClaimValue(claim))
    case Close(seqid, stateid) => V2(Num(seqid), StateIdValue(stateid))
    case Read(stateid, offset, count) => V3(StateIdValue(stateid), Num(offset), Num(count))
    case Write(stateid, offset, stable, data) => V4(StateIdValue(stateid), Num(offset), Num(stable), Data(data))
    case ReadDir(cookie, verf, dircount, maxcount, request) =>
      V5(Num(cookie), Data(verf), Num(dircount), Num(maxcount), BitmapValue(request))
    case Remove(target) => V1(Data(target))
    case Rename(oldname, newname) => V2(Data(oldname), Data(newname))
    case ExchangeId(owner, flags, ids) => V4(OwnerValue(owner), Num(flags), SP_NONE, ImplIdsValue(ids))
    case CreateSession(id, seqid, flags, fore, back, program, parms) =>
      V7(Num(id), Num(seqid), Num(flags), ChannelValue(fore), ChannelValue(back), Num(program), ParmsValue(parms))
    case DestroySession(dead) => V1(Data(dead))
    case Sequence(id, seqid, slot, highest, cache) => V5(Data(id), Num(seqid), Num(slot), Num(highest), Flag(cache))
    case ReclaimComplete(oneFs) => V1(Flag(oneFs))
  }

  function ArgValue(op: NfsArgOp4): (v: Value)
    ensures HasType(ARG_OP, v)
  {
    hide HasType, ArgPayload, ArgBody, ArgArms, ArgFits;
    ArgFormed(op);
    ArgTyped(ArgIndex(op), ArgPayload(op));
    Variant(ArgIndex(op), ArgPayload(op))
  }

  lemma {:induction false} ArgTyped(k: nat, payload: Value)
    requires k < 18 && HasType(ArgBody(k), payload)
    ensures HasType(ARG_OP, Variant(k, payload))
    ensures WellFormed(ARG_OP, Variant(k, payload)) <==> WellFormed(ArgBody(k), payload)
  {
    hide ArgBody, ArgArms, OpAt;
    ArgArmAt(k);
    ArgUnshadowed(k);
  }

  predicate OpenFits(owner: OpenOwner4, how: OpenFlag4, claim: OpenClaim4) {
    Fits(owner.owner) && (how.CreateUnchecked? ==> FattrFits(how.attrs)) && (claim.ClaimNull? ==> Fits(claim.name))
  }

  /** What a request needs to be encodable: names, handles, lists and data whose
      lengths fit a length word. */
  predicate ArgFits(op: NfsArgOp4) {
    match op
    case PutFh(fh) => Fits(fh)
    case Lookup(name) => Fits(name)
    case GetAttr(request) => Fits(request.words)
    case SetAttr(stateid, fattr) => FattrFits(fattr)
    case Open(seqid, access, deny, owner, how, claim) => OpenFits(owner, how, claim)
    case Write(stateid, offset, stable, data) => Fits(data)
    case ReadDir(cookie, verf, dircount, maxcount, request) => Fits(request.words)
    case Remove(target) => Fits(target)
    case Rename(oldname, newname) => Fits(oldname) && Fits(newname)
    case ExchangeId(owner, flags, ids) =>
      Fits(owner.ownerid) && Fits(ids) && forall i | 0 <= i < |ids| :: ImplFits(ids[i])
    case CreateSession(id, seqid, flags, fore, back, program, parms) =>
      Fits(fore.rdmaIrd) && Fits(back.rdmaIrd) && Fits(parms)
    case _ => true
  }

  predicate ArgsFit(args: Compound4args) {
    Fits(args.tag) && Fits(args.argarray) && forall i | 0 <= i < |args.argarray| :: ArgFits(args.argarray[i])
  }

  lemma {:induction false} NilFormed()
    ensures HasType(Unit, Nil) && WellFormed(Unit, Nil)
  {
  }

  lemma {:induction false} OwnerFormed(o: ClientOwner4)
    ensures HasType(CLIENT_OWNER, OwnerValue(o)) && (WellFormed(CLIENT_OWNER, OwnerValue(o)) <==> Fits(o.ownerid))
  {
    hide HasType, WellFormed;
    FixedFormed(o.verifier);
    OpaqueFormed(o.ownerid);
    Formed2(Fixed(8), Opaque, Data(o.verifier), Data(o.ownerid));
  }

  lemma {:induction false} OpenOwnerFormed(o: OpenOwner4)
    ensures HasType(OPEN_OWNER, OpenOwnerValue(o)) && (WellFormed(OPEN_OWNER, OpenOwnerValue(o)) <==> Fits(o.owner))
  {
    hide HasType, WellFormed;
    LongFormed(o.clientid);
    OpaqueFormed(o.owner);
    Formed2(U64, Opaque, Num(o.clientid), Data(o.owner));
  }

  lemma {:induction false} ParmsFormed(parms: seq<CallbackSecParms4>)
    ensures HasType(Vec(CALLBACK_PARMS), ParmsValue(parms))
    ensures WellFormed(Vec(CALLBACK_PARMS), ParmsValue(parms)) <==> Fits(parms)
  {
    NumberFormed(0);
    Formed2(U32, U32, Num(0), Num(0));
  }

  lemma {:induction false} SetAttrArgsFormed(op: NfsArgOp4)
    requires op.SetAttr?
    ensures HasType(SETATTR_ARGS, ArgPayload(op)) && (WellFormed(SETATTR_ARGS, ArgPayload(op)) <==> ArgFits(op))
  {
    hide HasType, WellFormed, StatusCodes, IsStatus, ValidUtf8, BitmapValue, ChannelValue, FattrValue, ImplIdsValue,
      StateIdValue, OwnerValue, OpenOwnerValue, FlagValue, ClaimValue, ParmsValue, FattrFits;
    var SetAttr(stateid, fattr) := op;
    StateIdFormed(stateid);
    FattrFormed(fattr);
    Formed2(STATE_ID, FATTR, StateIdValue(stateid), FattrValue(fattr));
  }

  lemma {:induction false} OpenArgsFormed(op: NfsArgOp4)
    requires op.Open?
    ensures HasType(OPEN_ARGS, ArgPayload(op)) && (WellFormed(OPEN_ARGS, ArgPayload(op)) <==> ArgFits(op))
  {
    hide HasType, WellFormed, StatusCodes, IsStatus, ValidUtf8, BitmapValue, ChannelValue, FattrValue, ImplIdsValue,
      StateIdValue, OwnerValue, OpenOwnerValue, FlagValue, ClaimValue, ParmsValue, FattrFits;
    var Open(seqid, access, deny, owner, how, claim) := op;
    NumberFormed(seqid);
    NumberFormed(access);
    NumberFormed(deny);
    OpenOwnerFormed(owner);
    FlagFormedIff(how);
    ClaimFormedIff(claim);
    Formed6(U32, U32, U32, OPEN_OWNER, OPEN_FLAG, OPEN_CLAIM, Num(seqid), Num(access), Num(deny), OpenOwnerValue(owner),
            FlagValue(how), ClaimValue(claim));
  }

  lemma {:induction false} CloseArgsFormed(op: NfsArgOp4)
    requires op.Close?
    ensures HasType(CLOSE_ARGS, ArgPayload(op)) && (WellFormed(CLOSE_ARGS, ArgPayload(op)) <==> ArgFits(op))
  {
    hide HasType, WellFormed, StatusCodes, IsStatus, ValidUtf8, BitmapValue, ChannelValue, FattrValue, ImplIdsValue,
      StateIdValue, OwnerValue, OpenOwnerValue, FlagValue, ClaimValue, ParmsValue, FattrFits;
    var Close(seqid, stateid) := op;
    NumberFormed(seqid);
    StateIdFormed(stateid);
    Formed2(U32, STATE_ID, Num(seqid), StateIdValue(stateid));
  }

  lemma {:induction false} ReadArgsFormed(op: NfsArgOp4)
    requires op.Read?
    ensures HasType(READ_ARGS, ArgPayload(op)) && (WellFormed(READ_ARGS, ArgPayload(op)) <==> ArgFits(op))
  {
    hide HasType, WellFormed, StatusCodes, IsStatus, ValidUtf8, BitmapValue, ChannelValue, FattrValue, ImplIdsValue,
      StateIdValue, OwnerValue, OpenOwnerValue, FlagValue, ClaimValue, ParmsValue, FattrFits;
    var Read(stateid, offset, count) := op;
    StateIdFormed(stateid);
    LongFormed(offset);
    NumberFormed(count);
    Formed3(STATE_ID, U64, U32, StateIdValue(stateid), Num(offset), Num(count));
  }

  lemma {:induction false} WriteArgsFormed(op: NfsArgOp4)
    requires op.Write?
    ensures HasType(WRITE_ARGS, ArgPayload(op)) && (WellFormed(WRITE_ARGS, ArgPayload(op)) <==> ArgFits(op))
  {
    hide HasType, WellFormed, StatusCodes, IsStatus, ValidUtf8, BitmapValue, ChannelValue, FattrValue, ImplIdsValue,
      StateIdValue, OwnerValue, OpenOwnerValue, FlagValue, ClaimValue, ParmsValue, FattrFits;
    var Write(stateid, offset, stable, data) := op;
    StateIdFormed(stateid);
    LongFormed(offset);
    NumberFormed(stable);
    OpaqueFormed(data);
    Formed4(STATE_ID, U64, U32, Opaque, StateIdValue(stateid), Num(offset), Num(stable), Data(data));
  }

  lemma {:induction false} ReadDirArgsFormed(op: NfsArgOp4)
    requires op.ReadDir?
    ensures HasType(READDIR_ARGS, ArgPayload(op)) && (WellFormed(READDIR_ARGS, ArgPayload(op)) <==> ArgFits(op))
  {
    hide HasType, WellFormed, StatusCodes, IsStatus, ValidUtf8, BitmapValue, ChannelValue, FattrValue, ImplIdsValue,
      StateIdValue, OwnerValue, OpenOwnerValue, FlagValue, ClaimValue, ParmsValue, FattrFits;
    var ReadDir(cookie, verf, dircount, maxcount, request) := op;
    LongFormed(cookie);
    FixedFormed(verf);
    NumberFormed(dircount);
    NumberFormed(maxcount);
    BitmapFormed(request);
    Formed5(U64, Fixed(8), U32, U32, BITMAP, Num(cookie), Data(verf), Num(dircount), Num(maxcount),
            BitmapValue(request));
  }

  lemma {:induction false} RenameArgsFormed(op: NfsArgOp4)
    requires op.Rename?
    ensures HasType(RENAME_ARGS, ArgPayload(op)) && (WellFormed(RENAME_ARGS, ArgPayload(op)) <==> ArgFits(op))
  {
    hide HasType, WellFormed, StatusCodes, IsStatus, ValidUtf8, BitmapValue, ChannelValue, FattrValue, ImplIdsValue,
      StateIdValue, OwnerValue, OpenOwnerValue, FlagValue, ClaimValue, ParmsValue, FattrFits;
    var Rename(oldname, newname) := op;
    TextTyped(oldname);
    TextTyped(newname);
    TextFormed(oldname);
    TextFormed(newname);
    Formed2(Text, Text, Data(oldname), Data(newname));
  }

  lemma {:induction false} ExchangeIdArgsFormed(op: NfsArgOp4)
    requires op.ExchangeId?
    ensures HasType(EXCHANGE_ID_ARGS, ArgPayload(op)) && (WellFormed(EXCHANGE_ID_ARGS, ArgPayload(op)) <==> ArgFits(op))
  {
    hide HasType, WellFormed, StatusCodes, IsStatus, ValidUtf8, BitmapValue, ChannelValue, FattrValue, ImplIdsValue,
      StateIdValue, OwnerValue, OpenOwnerValue, FlagValue, ClaimValue, ParmsValue, FattrFits;
    var ExchangeId(owner, flags, ids) := op;
    OwnerFormed(owner);
    NumberFormed(flags);
    ChoiceTyped(PROTECT_ARG);
    ChoiceFormed(PROTECT_ARG);
    ImplIdsFormed(ids);
    Formed4(CLIENT_OWNER, U32, PROTECT_ARG, Vec(IMPL_ID), OwnerValue(owner), Num(flags), SP_NONE, ImplIdsValue(ids));
  }

  lemma {:induction false} CreateSessionArgsFormed(op: NfsArgOp4)
    requires op.CreateSession?
    ensures HasType(CREATE_SESSION_ARGS, ArgPayload(op)) && (WellFormed(CREATE_SESSION_ARGS,
        ArgPayload(op)) <==> ArgFits(op))
  {
    hide HasType, WellFormed, StatusCodes, IsStatus, ValidUtf8, BitmapValue, ChannelValue, FattrValue, ImplIdsValue,
      StateIdValue, OwnerValue, OpenOwnerValue, FlagValue, ClaimValue, ParmsValue, FattrFits;
    var CreateSession(id, seqid, flags, fore, back, program, parms) := op;
    LongFormed(id);
    NumberFormed(seqid);
    NumberFormed(flags);
    NumberFormed(program);
    ChannelFormed(fore);
    ChannelFormed(back);
    ParmsFormed(parms);
    Formed7(U64, U32, U32, CHANNEL_ATTRS, CHANNEL_ATTRS, U32, Vec(CALLBACK_PARMS), Num(id), Num(seqid), Num(flags),
            ChannelValue(fore), ChannelValue(back), Num(program), ParmsValue(parms));
  }

  lemma {:induction false} SequenceArgsFormed(op: NfsArgOp4)
    requires op.Sequence?
    ensures HasType(SEQUENCE_ARGS, ArgPayload(op)) && (WellFormed(SEQUENCE_ARGS, ArgPayload(op)) <==> ArgFits(op))
  {
    hide HasType, WellFormed, StatusCodes, IsStatus, ValidUtf8, BitmapValue, ChannelValue, FattrValue, ImplIdsValue,
      StateIdValue, OwnerValue, OpenOwnerValue, FlagValue, ClaimValue, ParmsValue, FattrFits;
    var Sequence(id, seqid, slot, highest, cache) := op;
    FixedFormed(id);
    NumberFormed(seqid);
    NumberFormed(slot);
    NumberFormed(highest);
    FlagFormed(cache);
    Formed5(Fixed(16), U32, U32, U32, Bool, Data(id), Num(seqid), Num(slot), Num(highest), Flag(cache));
  }

  lemma {:induction false} ArgFormedFirst(op: NfsArgOp4)
    requires ArgIndex(op) < 7
    ensures HasType(ArgBody(ArgIndex(op)), ArgPayload(op))
    ensures WellFormed(ArgBody(ArgIndex(op)), ArgPayload(op)) <==> ArgFits(op)
  {
    hide HasType, ArgBody, WellFormed, StatusCodes, IsStatus, ValidUtf8, BitmapValue, FattrFits;
    FirstArgBodies();
    SecondArgBodies();
    match op {
      case PutRootFh => NilFormed();
      case PutFh(fh) =>
        OpaqueFormed(fh);
        Formed1(Opaque, Data(fh));
      case Lookup(name) =>
        TextTyped(name);
        TextFormed(name);
        Formed1(Text, Data(name));
      case GetFh => NilFormed();
      case GetAttr(request) =>
        BitmapFormed(request);
        Formed1(BITMAP, BitmapValue(request));
      case SetAttr(_, _) => SetAttrArgsFormed(op);
      case Open(_, _, _, _, _, _) => OpenArgsFormed(op);
    }
  }

  lemma {:induction false} ArgFormedMiddle(op: NfsArgOp4)
    requires 7 <= ArgIndex(op) < 12
    ensures HasType(ArgBody(ArgIndex(op)), ArgPayload(op))
    ensures WellFormed(ArgBody(ArgIndex(op)), ArgPayload(op)) <==> ArgFits(op)
  {
    hide HasType, ArgBody, WellFormed, StatusCodes, IsStatus, ValidUtf8, BitmapValue, FattrFits;
    SecondArgBodies();
    ThirdArgBodies();
    match op {
      case Close(_, _) => CloseArgsFormed(op);
      case Read(_, _, _) => ReadArgsFormed(op);
      case Write(_, _, _, _) => WriteArgsFormed(op);
      case ReadDir(_, _, _, _, _) => ReadDirArgsFormed(op);
      case Remove(target) =>
        TextTyped(target);
        TextFormed(target);
        Formed1(Text, Data(target));
    }
  }

  lemma {:induction false} ArgFormedLast(op: NfsArgOp4)
    requires op.Rename? || op.ExchangeId? || op.CreateSession?
      || op.DestroySession? || op.Sequence? || op.ReclaimComplete?
    ensures HasType(ArgBody(ArgIndex(op)), ArgPayload(op))
    ensures WellFormed(ArgBody(ArgIndex(op)), ArgPayload(op)) <==> ArgFits(op)
  {
    hide HasType, ArgBody, WellFormed, StatusCodes, IsStatus, ValidUtf8, BitmapValue, FattrFits;
    ThirdArgBodies();
    LastArgBodies();
    match op {
      case Rename(_, _) => RenameArgsFormed(op);
      case ExchangeId(_, _, _) => ExchangeIdArgsFormed(op);
      case CreateSession(_, _, _, _, _, _, _) => CreateSessionArgsFormed(op);
      case DestroySession(dead) =>
        FixedFormed(dead);
        Formed1(Fixed(16), Data(dead));
      case Sequence(_, _, _, _, _) => SequenceArgsFormed(op);
      case ReclaimComplete(oneFs) =>
        FlagFormed(oneFs);
        Formed1(Bool, Flag(oneFs));
    }
  }

  lemma {:induction false} ArgFormed(op: NfsArgOp4)
    ensures HasType(ArgBody(ArgIndex(op)), ArgPayload(op))
    ensures WellFormed(ArgBody(ArgIndex(op)), ArgPayload(op)) <==> ArgFits(op)
  {
    hide HasType, WellFormed, ArgBody, ArgPayload, ArgFits;
    if ArgIndex(op) < 7 {
      ArgFormedFirst(op);
    } else if ArgIndex(op) < 12 {
      ArgFormedMiddle(op);
    } else {
      ArgFormedLast(op);
    }
  }

  lemma {:induction false} ArgValueFormed(op: NfsArgOp4)
    ensures WellFormed(ARG_OP, ArgValue(op)) <==> ArgFits(op)
  {
    hide HasType, WellFormed, ArgPayload, ArgBody, ArgArms, ArgFits;
    ArgFormed(op);
    ArgTyped(ArgIndex(op), ArgPayload(op));
  }

  function OpsValue(ops: seq<NfsArgOp4>): (v: Value)
    ensures HasType(Vec(ARG_OP), v)
  {
    hide ArgArms, ArgValue;
    List(seq(|ops|, i requires 0 <= i < |ops| => ArgValue(ops[i])))
  }

  function ArgsValue(args: Compound4args): (v: Value)
    ensures HasType(COMPOUND_ARGS, v)
  {
    hide HasType, ArgArms, OpsValue;
    TextTyped(args.tag);
    NumberFormed(args.minorversion);
    Typed3(Text, U32, Vec(ARG_OP), Data(args.tag), Num(args.minorversion), OpsValue(args.argarray));
    V3(Data(args.tag), Num(args.minorversion), OpsValue(args.argarray))
  }

  function EncodeArgs(args: Compound4args): Encoded {
    Encode(COMPOUND_ARGS, ArgsValue(args))
  }

  /** One operation: its opcode, then its arguments, if it has any. */
  lemma {:induction false} EncodeArgOpIs(op: NfsArgOp4)
    ensures HasType(ArgBody(ArgIndex(op)), ArgPayload(op))
    ensures Encode(ARG_OP, ArgValue(op))
            == Wrote(BigEndian32(OpAt(ArgIndex(op)))).Then(Encode(ArgBody(ArgIndex(op)), ArgPayload(op)))
  {
    hide HasType, WellFormed, ArgBody, ArgPayload, ArgArms, ArgFits, OpAt, BigEndian32;
    ArgFormed(op);
    ArgArmAt(ArgIndex(op));
  }

  /** The two calls of every arm that has arguments. */
  method EncodeTaggedArgs(ghost op: NfsArgOp4, opnum: u32, ty: Ty, v: Value, buf: BytesMut) returns (r: Result<()>)
    requires opnum == OpAt(ArgIndex(op)) && ty == ArgBody(ArgIndex(op)) && v == ArgPayload(op)
    modifies buf
    ensures var e := Encode(ARG_OP, ArgValue(op));
      r == e.Verdict() && buf.data == old(buf.data) + e.bytes
  {
    hide HasType, Encode, ArgValue, ArgBody, ArgPayload, OpAt, BigEndian32;
    EncodeArgOpIs(op);
    buf.PutU32(opnum);
    r := EncodeInto(ty, v, buf);
  }

  /** PUTROOTFH and GETFH are their opcode alone. */
  lemma {:induction false} BareOpcode(op: NfsArgOp4)
    requires op.PutRootFh? || op.GetFh?
    ensures Encode(ARG_OP, ArgValue(op)) == Wrote(BigEndian32(OpAt(ArgIndex(op))))
  {
    hide HasType, ArgValue, BigEndian32;
    EncodeArgOpIs(op);
    var word := BigEndian32(OpAt(ArgIndex(op)));
    assert Encode(Unit, Nil) == Wrote([]);
    assert word + [] == word;
  }

  method EncodeArgOpInto(op: NfsArgOp4, buf: BytesMut) returns (r: Result<()>)
    modifies buf
    ensures var e := Encode(ARG_OP, ArgValue(op));
      r == e.Verdict() && buf.data == old(buf.data) + e.bytes
  {
    hide HasType, ArgBody, OpAt, S1, S2, S3, S4, S5, S6, S7, Encode, ArgValue, ArgPayload, BigEndian32,
      Encoded.Then, StatusCodes, IsStatus, ValidUtf8;
    FirstArgBodies();
    SecondArgBodies();
    ThirdArgBodies();
    LastArgBodies();
    Opcodes();
    match op {
      case PutRootFh =>
        BareOpcode(op);
        buf.PutU32(OP_PUTROOTFH);
        return Ok(());
      case PutFh(_) => r := EncodeTaggedArgs(op, OP_PUTFH, S1(Opaque), ArgPayload(op), buf);
      case Lookup(_) => r := EncodeTaggedArgs(op, OP_LOOKUP, S1(Text), ArgPayload(op), buf);
      case GetFh =>
        BareOpcode(op);
        buf.PutU32(OP_GETFH);
        return Ok(());
      case GetAttr(_) => r := EncodeTaggedArgs(op, OP_GETATTR, S1(BITMAP), ArgPayload(op), buf);
      case SetAttr(_, _) => r := EncodeTaggedArgs(op, OP_SETATTR, SETATTR_ARGS, ArgPayload(op), buf);
      case Open(_, _, _, _, _, _) => r := EncodeTaggedArgs(op, OP_OPEN, OPEN_ARGS, ArgPayload(op), buf);
      case Close(_, _) => r := EncodeTaggedArgs(op, OP_CLOSE, CLOSE_ARGS, ArgPayload(op), buf);
      case Read(_, _, _) => r := EncodeTaggedArgs(op, OP_READ, READ_ARGS, ArgPayload(op), buf);
      case Write(_, _, _, _) => r := EncodeTaggedArgs(op, OP_WRITE, WRITE_ARGS, ArgPayload(op), buf);
      case ReadDir(_, _, _, _, _) => r := EncodeTaggedArgs(op, OP_READDIR, READDIR_ARGS, ArgPayload(op), buf);
      case Remove(_) => r := EncodeTaggedArgs(op, OP_REMOVE, S1(Text), ArgPayload(op), buf);
      case Rename(_, _) => r := EncodeTaggedArgs(op, OP_RENAME, RENAME_ARGS, ArgPayload(op), buf);
      case ExchangeId(_, _, _) => r := EncodeTaggedArgs(op, OP_EXCHANGE_ID, EXCHANGE_ID_ARGS, ArgPayload(op), buf);
      case CreateSession(_, _, _, _, _, _, _) =>
        r := EncodeTaggedArgs(op, OP_CREATE_SESSION, CREATE_SESSION_ARGS, ArgPayload(op), buf);
      case DestroySession(_) => r := EncodeTaggedArgs(op, OP_DESTROY_SESSION, S1(Fixed(16)), ArgPayload(op), buf);
      case Sequence(_, _, _, _, _) => r := EncodeTaggedArgs(op, OP_SEQUENCE, SEQUENCE_ARGS, ArgPayload(op), buf);
      case ReclaimComplete(_) => r := EncodeTaggedArgs(op, OP_RECLAIM_COMPLETE, S1(Bool), ArgPayload(op), buf);
    }
  }

  method EncodeArgsInto(args: Compound4args, buf: BytesMut) returns (r: Result<()>)
    modifies buf
    ensures r == EncodeArgs(args).Verdict()
    ensures buf.data == old(buf.data) + EncodeArgs(args).bytes
  {
    hide HasType, Encode, EncodeArgs, ArgArms, ArgValue, BigEndian32, ValidUtf8;
    var n := |args.argarray|;
    ghost var vs := OpsValue(args.argarray).vs;
    ArgsParts(args);
    var _ :- EncodeInto(Text, Data(args.tag), buf);
    var _ :- EncodeInto(U32, Num(args.minorversion), buf);
    if n >= MAX_LEN {
      return Err(LengthExceeded(0xFFFF_FFFF, 0));
    }
    buf.PutU32(n);
    r := EncodeArgOpsInto(args.argarray, buf);
  }

  lemma {:induction false} ArgsParts(args: Compound4args)
    ensures HasType(Text, Data(args.tag)) && HasType(U32, Num(args.minorversion))
    ensures var vs := OpsValue(args.argarray).vs;
      |vs| == |args.argarray| && (forall i | 0 <= i < |vs| :: HasType(ARG_OP, vs[i]))
      && EncodeArgs(args)
         == Encode(Text, Data(args.tag)).Then(Encode(U32, Num(args.minorversion)).Then(
              if |vs| >= MAX_LEN then Stuck(LengthExceeded(0xFFFF_FFFF, 0), [])
              else Wrote(BigEndian32(|vs|)).Then(EncodeItems(ARG_OP, vs))))
  {
    hide ArgArms, ArgValue, BigEndian32, ValidUtf8;
    TextTyped(args.tag);
    NumberFormed(args.minorversion);
    ArgsValueIs(args);
    var ops := OpsValue(args.argarray);
    assert HasType(Vec(ARG_OP), ops);
    EncodeStruct3(Text, U32, Vec(ARG_OP), Data(args.tag), Num(args.minorversion), ops);
  }

  /** The loop over the operations: each one goes through the dispatch. */
  method EncodeArgOpsInto(ops: seq<NfsArgOp4>, buf: BytesMut) returns (r: Result<()>)
    modifies buf
    ensures var e := EncodeItems(ARG_OP, OpsValue(ops).vs);
      r == e.Verdict() && buf.data == old(buf.data) + e.bytes
  {
    hide HasType, Encode, EncodeItems, ArgArms, ArgValue, Encoded.Then;
    ghost var vs := OpsValue(ops).vs;
    ghost var done: seq<byte> := [];
    assert vs[0..] == vs;
    AfterNothing(EncodeItems(ARG_OP, vs));
    for i := 0 to |ops|
      invariant buf.data == old(buf.data) + done
      invariant EncodeItems(ARG_OP, vs) == Wrote(done).Then(EncodeItems(ARG_OP, vs[i..]))
    {
      ItemsLink(ARG_OP, vs, i);
      assert vs[i] == ArgValue(ops[i]);
      ghost var item := Encode(ARG_OP, vs[i]);
      ThenAssociative(done, item, EncodeItems(ARG_OP, vs[i + 1..]));
      AppendAssociative(old(buf.data), done, item.bytes);
      var _ :- EncodeArgOpInto(ops[i], buf);
      done := done + item.bytes;
    }
    ItemsEnd(ARG_OP, done);
    assert vs[|vs|..] == [];
    return Ok(());
  }

  lemma {:induction false} OpsFormed(ops: seq<NfsArgOp4>)
    ensures WellFormed(Vec(ARG_OP), OpsValue(ops)) <==> Fits(ops) && forall i | 0 <= i < |ops| :: ArgFits(ops[i])
  {
    hide HasType, ArgValue, ArgArms, ArgFits;
    var vs := OpsValue(ops).vs;
    VecFormed(ARG_OP, OpsValue(ops));
    assert |vs| == |ops|;
    forall i | 0 <= i < |ops|
      ensures WellFormed(ARG_OP, vs[i]) <==> ArgFits(ops[i])
    {
      assert vs[i] == ArgValue(ops[i]);
      ArgValueFormed(ops[i]);
    }
  }

  lemma {:induction false} ArgsFormed(args: Compound4args)
    ensures WellFormed(COMPOUND_ARGS, ArgsValue(args)) <==> ArgsFit(args)
  {
    hide HasType, WellFormed, ArgArms, OpsValue, ArgFits, Fits, ValidUtf8;
    TextTyped(args.tag);
    TextFormed(args.tag);
    NumberFormed(args.minorversion);
    OpsFormed(args.argarray);
    Formed3(Text, U32, Vec(ARG_OP), Data(args.tag), Num(args.minorversion), OpsValue(args.argarray));
    ArgsValueIs(args);
  }

  lemma {:induction false} ArgsValueIs(args: Compound4args)
    ensures ArgsValue(args) == V3(Data(args.tag), Num(args.minorversion), OpsValue(args.argarray))
  {
    hide HasType, ArgArms, OpsValue;
  }

  // ------------------------------------------------------------- main results

  lemma {:induction false} FlagInjective(x: OpenFlag4, y: OpenFlag4)
    requires FlagValue(x) == FlagValue(y)
    ensures x == y
  {
    hide HasType, FattrValue;
    if x.CreateUnchecked? && y.CreateUnchecked? {
      FattrInjective(x.attrs, y.attrs);
    }
  }

  lemma {:induction false} ParmsInjective(x: seq<CallbackSecParms4>, y: seq<CallbackSecParms4>)
    requires ParmsValue(x) == ParmsValue(y)
    ensures x == y
  {
    assert |ParmsValue(x).vs| == |x| && |ParmsValue(y).vs| == |y|;
    assert forall i | 0 <= i < |x| :: x[i] == CallbackAuthNone && y[i] == CallbackAuthNone;
  }

  lemma {:induction false} ArgInjectiveFirst(x: NfsArgOp4, y: NfsArgOp4)
    requires ArgIndex(x) < 7 && ArgIndex(x) == ArgIndex(y) && ArgPayload(x) == ArgPayload(y)
    ensures x == y
  {
    hide HasType, StatusCodes, IsStatus, ValidUtf8, BitmapValue, ChannelValue, FattrValue, ImplIdsValue,
      StateIdValue, FlagValue, ParmsValue;
    match x {
      case PutRootFh =>
      case PutFh(_) =>
      case Lookup(_) =>
      case GetFh =>
      case GetAttr(_) => BitmapInjective(x.attrRequest, y.attrRequest);
      case SetAttr(_, _) =>
        StateIdInjective(x.stateid, y.stateid);
        FattrInjective(x.fattr, y.fattr);
      case Open(_, _, _, _, _, _) => FlagInjective(x.how, y.how);
    }
  }

  lemma {:induction false} ArgInjectiveMiddle(x: NfsArgOp4, y: NfsArgOp4)
    requires 7 <= ArgIndex(x) < 12 && ArgIndex(x) == ArgIndex(y) && ArgPayload(x) == ArgPayload(y)
    ensures x == y
  {
    hide HasType, StatusCodes, IsStatus, ValidUtf8, BitmapValue, ChannelValue, FattrValue, ImplIdsValue,
      StateIdValue, FlagValue, ParmsValue;
    match x {
      case Close(_, _) => StateIdInjective(x.openStateid, y.openStateid);
      case Read(_, _, _) => StateIdInjective(x.stateid, y.stateid);
      case Write(_, _, _, _) => StateIdInjective(x.stateid, y.stateid);
      case ReadDir(_, _, _, _, _) => BitmapInjective(x.entryRequest, y.entryRequest);
      case Remove(_) =>
    }
  }

  lemma {:induction false} ArgInjectiveLast(x: NfsArgOp4, y: NfsArgOp4)
    requires x.Rename? || x.ExchangeId? || x.CreateSession? || x.DestroySession? || x.Sequence? || x.ReclaimComplete?
    requires ArgIndex(x) == ArgIndex(y) && ArgPayload(x) == ArgPayload(y)
    ensures x == y
  {
    hide HasType, StatusCodes, IsStatus, ValidUtf8, BitmapValue, ChannelValue, FattrValue, ImplIdsValue,
      StateIdValue, FlagValue, ParmsValue;
    match x {
      case Rename(_, _) =>
      case ExchangeId(_, _, _) => ImplIdsInjective(x.implIds, y.implIds);
      case CreateSession(_, _, _, _, _, _, _) =>
        ChannelInjective(x.fore, y.fore);
        ChannelInjective(x.back, y.back);
        ParmsInjective(x.secParms, y.secParms);
      case DestroySession(_) =>
      case Sequence(_, _, _, _, _) =>
      case ReclaimComplete(_) =>
    }
  }

  lemma {:induction false} ArgInjective(x: NfsArgOp4, y: NfsArgOp4)
    requires ArgValue(x) == ArgValue(y)
    ensures x == y
  {
    hide HasType, ArgPayload;
    if ArgIndex(x) < 7 {
      ArgInjectiveFirst(x, y);
    } else if ArgIndex(x) < 12 {
      ArgInjectiveMiddle(x, y);
    } else {
      ArgInjectiveLast(x, y);
    }
  }

  lemma {:induction false} ArgsInjective(x: Compound4args, y: Compound4args)
    requires ArgsValue(x) == ArgsValue(y)
    ensures x == y
  {
    hide HasType, ArgValue, ArgArms;
    var xs, ys := OpsValue(x.argarray).vs, OpsValue(y.argarray).vs;
    assert xs == ys && |xs| == |x.argarray| && |ys| == |y.argarray|;
    forall i | 0 <= i < |x.argarray|
      ensures x.argarray[i] == y.argarray[i]
    {
      assert xs[i] == ArgValue(x.argarray[i]) && ys[i] == ArgValue(y.argarray[i]);
      ArgInjective(x.argarray[i], y.argarray[i]);
    }
  }

  /** A request that fits is encoded, and its bytes are those of no other request,
      nor the beginning of one: a server can only read what the client meant. */
  lemma {:induction false} RequestUnambiguous(x: Compound4args, y: Compound4args, s: seq<byte>, t: seq<byte>)
    requires ArgsFit(x) && ArgsFit(y)
    ensures EncodeArgs(x).Wrote? && EncodeArgs(y).Wrote?
    ensures EncodeArgs(x).bytes + s == EncodeArgs(y).bytes + t ==> x == y && s == t
  {
    hide HasType, WellFormed, Encode, ArgArms, ArgsValue, ArgsFit;
    ArgsFormed(x);
    ArgsFormed(y);
    Laws.RoundTrip(COMPOUND_ARGS, ArgsValue(x), s);
    Laws.RoundTrip(COMPOUND_ARGS, ArgsValue(y), t);
    if EncodeArgs(x).bytes + s == EncodeArgs(y).bytes + t {
      Laws.PrefixFree(COMPOUND_ARGS, ArgsValue(x), ArgsValue(y), s, t);
      ArgsInjective(x, y);
    }
  }
}
