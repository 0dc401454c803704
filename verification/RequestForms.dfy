/** The 18 requests of a COMPOUND as they go over the wire: opcode, then the arguments
    field by field (sections 18.2 to 18.51 of RFC 8881). */
module RequestForms {
  import opened Wire
  import opened Xdr
  import opened XdrStructs
  import opened Nfs4Types
  import opened SendableResults
  import opened OpenChoices
  import opened CompoundArgs
  import opened WireForms

  function OpenOwnerForm(o: OpenOwner4): Form
    requires Fits(o.owner)
  {
    [W64(o.clientid), Str(o.owner)]
  }

  function HowForm(how: OpenFlag4): Form
    requires how.CreateUnchecked? ==> FattrFits(how.attrs)
  {
    match how
    case NoCreate => [W32(0)]
    case CreateUnchecked(attrs) => [W32(1), W32(0)] + FattrForm(attrs)
  }

  function ClaimForm(claim: OpenClaim4): Form
    requires claim.ClaimNull? ==> Fits(claim.name)
  {
    match claim
    case ClaimNull(name) => [W32(0), Str(name)]
    case ClaimFh => [W32(4)]
  }

  function OwnerForm(o: ClientOwner4): Form
    requires Fits(o.ownerid)
  {
    [o.verifier, Str(o.ownerid)]
  }

  /** AUTH_NONE and the length of its empty body. */
  function CallbackForm(c: CallbackSecParms4): Form { [W32(0), W32(0)] }

  /** An opcode and the fields behind it. */
  datatype Layout = Layout(opcode: u32, fields: Form)

  function RequestLayout(op: NfsArgOp4): Layout
    requires ArgFits(op)
  {
    match op
    case PutRootFh => Layout(24, [])
    case PutFh(fh) => Layout(22, [Str(fh)])
    case Lookup(name) => Layout(15, [Str(name)])
    case GetFh => Layout(10, [])
    case GetAttr(request) => Layout(9, WordsForm(request.words))
    case SetAttr(stateid, fattr) => Layout(34, StateForm(stateid) + FattrForm(fattr))
    case Open(seqid, access, deny, owner, how, claim) =>
      Layout(18, [W32(seqid), W32(access), W32(deny)] + OpenOwnerForm(owner) + HowForm(how) + ClaimForm(claim))
    case Close(seqid, stateid) => Layout(4, [W32(seqid)] + StateForm(stateid))
    case Read(stateid, offset, count) => Layout(25, StateForm(stateid) + [W64(offset), W32(count)])
    case Write(stateid, offset, stable, data) =>
      Layout(38, StateForm(stateid) + [W64(offset), W32(stable), Str(data)])
    case ReadDir(cookie, verf, dircount, maxcount, request) =>
      Layout(26, [W64(cookie), verf, W32(dircount), W32(maxcount)] + WordsForm(request.words))
    case Remove(target) => Layout(28, [Str(target)])
    case Rename(oldname, newname) => Layout(29, [Str(oldname), Str(newname)])
    case ExchangeId(owner, flags, ids) => Layout(42, OwnerForm(owner) + [W32(flags), W32(0)] + Listed(ids, ImplForm))
    case CreateSession(id, seqid, flags, fore, back, program, parms) =>
      Layout(43, [W64(id), W32(seqid), W32(flags)] + ChannelForm(fore) + ChannelForm(back) + [W32(program)] +
             Listed(parms, CallbackForm))
    case DestroySession(dead) => Layout(44, [dead])
    case Sequence(id, seqid, slot, highest, cache) =>
      Layout(53, [id, W32(seqid), W32(slot), W32(highest), Truth(cache)])
    case ReclaimComplete(oneFs) => Layout(58, [Truth(oneFs)])
  }

  // ------------------------------------------------------------------ structs

  lemma {:induction false} OpenOwnerShows(o: OpenOwner4)
    requires Fits(o.owner)
    ensures Shows(OPEN_OWNER, OpenOwnerValue(o), OpenOwnerForm(o))
  {
    hide Shows, Str, W64;
    LongShows(o.clientid);
    OpaqueShows(o.owner);
    Shows2(U64, Opaque, Num(o.clientid), Data(o.owner), [W64(o.clientid)], [Str(o.owner)]);
    assert [W64(o.clientid)] + [Str(o.owner)] == OpenOwnerForm(o);
  }

  lemma {:induction false} OwnerShows(o: ClientOwner4)
    requires Fits(o.ownerid)
    ensures Shows(CLIENT_OWNER, OwnerValue(o), OwnerForm(o))
  {
    hide Shows, Str;
    FixedShows(o.verifier);
    OpaqueShows(o.ownerid);
    Shows2(Fixed(8), Opaque, Data(o.verifier), Data(o.ownerid), [o.verifier], [Str(o.ownerid)]);
    assert [o.verifier] + [Str(o.ownerid)] == OwnerForm(o);
  }

  lemma {:induction false} NoCreateShows()
    ensures Shows(OPEN_FLAG, Variant(0, Nil), [W32(0)])
  {
    hide Shows, W32;
    UnitShows();
    ArmShows("OpenFlag4", OPEN_FLAG.arms, 0, Nil, []);
    assert [W32(0)] + [] == [W32(0)];
  }

  lemma {:induction false} CreateShows(v: Value, f: Form)
    requires Shows(FATTR, v, f)
    ensures Shows(OPEN_FLAG, Variant(1, Variant(0, v)), [W32(1), W32(0)] + f)
  {
    hide Shows, W32;
    ArmShows("createhow4", CREATE_HOW.arms, 0, v, f);
    ArmShows("OpenFlag4", OPEN_FLAG.arms, 1, Variant(0, v), [W32(0)] + f);
    assert [W32(1)] + ([W32(0)] + f) == [W32(1), W32(0)] + f;
  }

  lemma {:induction false} HowShows(how: OpenFlag4)
    requires how.CreateUnchecked? ==> FattrFits(how.attrs)
    ensures Shows(OPEN_FLAG, FlagValue(how), HowForm(how))
  {
    hide Shows, W32, FattrForm, FattrValue, FattrFits;
    NoCreateShows();
    if how.CreateUnchecked? {
      FattrShows(how.attrs);
      CreateShows(FattrValue(how.attrs), FattrForm(how.attrs));
    }
  }

  lemma {:induction false} ClaimShows(claim: OpenClaim4)
    requires claim.ClaimNull? ==> Fits(claim.name)
    ensures Shows(OPEN_CLAIM, ClaimValue(claim), ClaimForm(claim))
  {
    hide Shows, W32, Str, ValidUtf8;
    match claim
    case ClaimNull(name) =>
      TextShows(name);
      ArmShows("OpenClaim4", OPEN_CLAIM.arms, 0, Data(name), [Str(name)]);
      assert [W32(0)] + [Str(name)] == ClaimForm(claim);
    case ClaimFh =>
      UnitShows();
      ArmShows("OpenClaim4", OPEN_CLAIM.arms, 1, Nil, []);
      assert [W32(4)] + [] == [W32(4)];
  }

  lemma {:induction false} NoProtection()
    ensures Shows(PROTECT_ARG, SP_NONE, [W32(0)])
  {
    hide Shows, W32;
    UnitShows();
    ArmShows("StateProtect4a", PROTECT_ARG.arms, 0, Nil, []);
    assert [W32(0)] + [] == [W32(0)];
  }

  lemma {:induction false} ParmsShow(parms: seq<CallbackSecParms4>)
    requires Fits(parms)
    ensures Shows(Vec(CALLBACK_PARMS), ParmsValue(parms), Listed(parms, CallbackForm))
  {
    hide Shows, W32;
    var vs := ParmsValue(parms).vs;
    forall i | 0 <= i < |parms|
      ensures Shows(CALLBACK_PARMS, vs[i], CallbackForm(parms[i]))
    {
      WordShows(0);
      Shows2(U32, U32, Num(0), Num(0), [W32(0)], [W32(0)]);
      assert [W32(0)] + [W32(0)] == [W32(0), W32(0)];
    }
    VecShows(CALLBACK_PARMS, vs, parms, CallbackForm);
  }

  // ------------------------------------------------------------ the 18 requests

  lemma {:induction false} Regrouped(a: seq<byte>, b: seq<byte>, c: seq<byte>, f: Form, g: Form, d: seq<byte>, l: Form)
    ensures [a] + ([b] + ([c] + (f + (g + ([d] + l))))) == [a, b, c] + f + g + [d] + l
  {
    assert [a] + ([b] + ([c] + f)) == [a, b, c] + f;
  }

  lemma {:induction false} BehindOpcode(op: NfsArgOp4, f: Form)
    requires Shows(ArgBody(ArgIndex(op)), ArgPayload(op), f)
    ensures Shows(ARG_OP, ArgValue(op), [W32(OpAt(ArgIndex(op)))] + f)
  {
    hide Shows, ArgBody, ArgPayload, ArgArms, OpAt, W32;
    ArgArmAt(ArgIndex(op));
    ArmShows("NfsArgOp4", ArgArms(), ArgIndex(op), ArgPayload(op), f);
  }

  lemma {:induction false} PutFhShows(fh: seq<byte>)
    requires Fits(fh)
    ensures Shows(S1(Opaque), V1(Data(fh)), [Str(fh)])
  {
    hide Shows, W32, W64, Str, Truth, StateForm, FattrForm, WordsForm, ChannelForm, OpenOwnerForm, OwnerForm,
      HowForm, ClaimForm, Listed, BitmapValue, FattrValue, StateIdValue, ChannelValue, ImplIdsValue, ParmsValue,
      OpenOwnerValue, OwnerValue, FlagValue, ClaimValue, FattrFits, OpenFits, StatusCodes, IsStatus, ValidUtf8;
    OpaqueShows(fh);
    Shows1(Opaque, Data(fh), [Str(fh)]);
  }

  lemma {:induction false} LookupShows(name: Utf8)
    requires Fits(name)
    ensures Shows(S1(Text), V1(Data(name)), [Str(name)])
  {
    hide Shows, W32, W64, Str, Truth, StateForm, FattrForm, WordsForm, ChannelForm, OpenOwnerForm, OwnerForm,
      HowForm, ClaimForm, Listed, BitmapValue, FattrValue, StateIdValue, ChannelValue, ImplIdsValue, ParmsValue,
      OpenOwnerValue, OwnerValue, FlagValue, ClaimValue, FattrFits, OpenFits, StatusCodes, IsStatus, ValidUtf8;
    TextShows(name);
    Shows1(Text, Data(name), [Str(name)]);
  }

  lemma {:induction false} GetAttrShows(request: Bitmap4)
    requires Fits(request.words)
    ensures Shows(S1(BITMAP), V1(BitmapValue(request)), WordsForm(request.words))
  {
    hide Shows, W32, W64, Str, Truth, StateForm, FattrForm, WordsForm, ChannelForm, OpenOwnerForm, OwnerForm,
      HowForm, ClaimForm, Listed, BitmapValue, FattrValue, StateIdValue, ChannelValue, ImplIdsValue, ParmsValue,
      OpenOwnerValue, OwnerValue, FlagValue, ClaimValue, FattrFits, OpenFits, StatusCodes, IsStatus, ValidUtf8;
    BitmapShows(request);
    Shows1(BITMAP, BitmapValue(request), WordsForm(request.words));
  }

  lemma {:induction false} SetAttrShows(stateid: StateId4, fattr: Fattr4)
    requires FattrFits(fattr)
    ensures Shows(SETATTR_ARGS, V2(StateIdValue(stateid), FattrValue(fattr)), StateForm(stateid) + FattrForm(fattr))
  {
    hide Shows, W32, W64, Str, Truth, StateForm, FattrForm, WordsForm, ChannelForm, OpenOwnerForm, OwnerForm,
      HowForm, ClaimForm, Listed, BitmapValue, FattrValue, StateIdValue, ChannelValue, ImplIdsValue, ParmsValue,
      OpenOwnerValue, OwnerValue, FlagValue, ClaimValue, FattrFits, OpenFits, StatusCodes, IsStatus, ValidUtf8;
    StateShows(stateid);
    FattrShows(fattr);
    Shows2(STATE_ID, FATTR, StateIdValue(stateid), FattrValue(fattr), StateForm(stateid), FattrForm(fattr));
    assert StateForm(stateid) + (FattrForm(fattr)) == StateForm(stateid) + FattrForm(fattr);
  }

  lemma {:induction false} OpenShows(seqid: u32, access: u32, deny: u32, owner: OpenOwner4, how: OpenFlag4, claim:
                                     OpenClaim4)
    requires OpenFits(owner, how, claim)
    ensures Shows(OPEN_ARGS, V6(Num(seqid), Num(access), Num(deny), OpenOwnerValue(owner), FlagValue(how),
                  ClaimValue(claim)), [W32(seqid), W32(access), W32(deny)] + OpenOwnerForm(owner) + HowForm(how) +
                  ClaimForm(claim))
  {
    hide Shows, W32, W64, Str, Truth, StateForm, FattrForm, WordsForm, ChannelForm, OpenOwnerForm, OwnerForm,
      HowForm, ClaimForm, Listed, BitmapValue, FattrValue, StateIdValue, ChannelValue, ImplIdsValue, ParmsValue,
      OpenOwnerValue, OwnerValue, FlagValue, ClaimValue, FattrFits, StatusCodes, IsStatus, ValidUtf8;
    WordShows(seqid);
    WordShows(access);
    WordShows(deny);
    OpenOwnerShows(owner);
    HowShows(how);
    ClaimShows(claim);
    Shows6(U32, U32, U32, OPEN_OWNER, OPEN_FLAG, OPEN_CLAIM, Num(seqid), Num(access), Num(deny),
           OpenOwnerValue(owner), FlagValue(how), ClaimValue(claim), [W32(seqid)], [W32(access)], [W32(deny)],
           OpenOwnerForm(owner), HowForm(how), ClaimForm(claim));
    assert [W32(seqid)] + ([W32(access)] + ([W32(deny)] + (OpenOwnerForm(owner) + (HowForm(how) +
        (ClaimForm(claim)))))) == [W32(seqid), W32(access), W32(deny)] + OpenOwnerForm(owner) + HowForm(how) +
        ClaimForm(claim);
  }

  lemma {:induction false} CloseShows(seqid: u32, stateid: StateId4)
    ensures Shows(CLOSE_ARGS, V2(Num(seqid), StateIdValue(stateid)), [W32(seqid)] + StateForm(stateid))
  {
    hide Shows, W32, W64, Str, Truth, StateForm, FattrForm, WordsForm, ChannelForm, OpenOwnerForm, OwnerForm,
      HowForm, ClaimForm, Listed, BitmapValue, FattrValue, StateIdValue, ChannelValue, ImplIdsValue, ParmsValue,
      OpenOwnerValue, OwnerValue, FlagValue, ClaimValue, FattrFits, OpenFits, StatusCodes, IsStatus, ValidUtf8;
    WordShows(seqid);
    StateShows(stateid);
    Shows2(U32, STATE_ID, Num(seqid), StateIdValue(stateid), [W32(seqid)], StateForm(stateid));
    assert [W32(seqid)] + (StateForm(stateid)) == [W32(seqid)] + StateForm(stateid);
  }

  lemma {:induction false} ReadShows(stateid: StateId4, offset: u64, count: u32)
    ensures Shows(READ_ARGS, V3(StateIdValue(stateid), Num(offset), Num(count)), StateForm(stateid) + [W64(offset),
                  W32(count)])
  {
    hide Shows, W32, W64, Str, Truth, StateForm, FattrForm, WordsForm, ChannelForm, OpenOwnerForm, OwnerForm,
      HowForm, ClaimForm, Listed, BitmapValue, FattrValue, StateIdValue, ChannelValue, ImplIdsValue, ParmsValue,
      OpenOwnerValue, OwnerValue, FlagValue, ClaimValue, FattrFits, OpenFits, StatusCodes, IsStatus, ValidUtf8;
    StateShows(stateid);
    LongShows(offset);
    WordShows(count);
    Shows3(STATE_ID, U64, U32, StateIdValue(stateid), Num(offset), Num(count), StateForm(stateid), [W64(offset)],
           [W32(count)]);
    assert StateForm(stateid) + ([W64(offset)] + ([W32(count)])) == StateForm(stateid) + [W64(offset), W32(count)];
  }

  lemma {:induction false} WriteShows(stateid: StateId4, offset: u64, stable: u32, data: seq<byte>)
    requires Fits(data)
    ensures Shows(WRITE_ARGS, V4(StateIdValue(stateid), Num(offset), Num(stable), Data(data)), StateForm(stateid) +
                  [W64(offset), W32(stable), Str(data)])
  {
    hide Shows, W32, W64, Str, Truth, StateForm, FattrForm, WordsForm, ChannelForm, OpenOwnerForm, OwnerForm,
      HowForm, ClaimForm, Listed, BitmapValue, FattrValue, StateIdValue, ChannelValue, ImplIdsValue, ParmsValue,
      OpenOwnerValue, OwnerValue, FlagValue, ClaimValue, FattrFits, OpenFits, StatusCodes, IsStatus, ValidUtf8;
    StateShows(stateid);
    LongShows(offset);
    WordShows(stable);
    OpaqueShows(data);
    Shows4(STATE_ID, U64, U32, Opaque, StateIdValue(stateid), Num(offset), Num(stable), Data(data),
           StateForm(stateid), [W64(offset)], [W32(stable)], [Str(data)]);
    assert StateForm(stateid) + ([W64(offset)] + ([W32(stable)] + ([Str(data)]))) == StateForm(stateid) +
        [W64(offset), W32(stable), Str(data)];
  }

  lemma {:induction false} ReadDirShows(cookie: u64, verf: Verifier4, dircount: u32, maxcount: u32, request: Bitmap4)
    requires Fits(request.words)
    ensures Shows(READDIR_ARGS, V5(Num(cookie), Data(verf), Num(dircount), Num(maxcount), BitmapValue(request)),
                  [W64(cookie), verf, W32(dircount), W32(maxcount)] + WordsForm(request.words))
  {
    hide Shows, W32, W64, Str, Truth, StateForm, FattrForm, WordsForm, ChannelForm, OpenOwnerForm, OwnerForm,
      HowForm, ClaimForm, Listed, BitmapValue, FattrValue, StateIdValue, ChannelValue, ImplIdsValue, ParmsValue,
      OpenOwnerValue, OwnerValue, FlagValue, ClaimValue, FattrFits, OpenFits, StatusCodes, IsStatus, ValidUtf8;
    LongShows(cookie);
    FixedShows(verf);
    WordShows(dircount);
    WordShows(maxcount);
    BitmapShows(request);
    Shows5(U64, Fixed(8), U32, U32, BITMAP, Num(cookie), Data(verf), Num(dircount), Num(maxcount),
           BitmapValue(request), [W64(cookie)], [verf], [W32(dircount)], [W32(maxcount)], WordsForm(request.words));
    assert [W64(cookie)] + ([verf] + ([W32(dircount)] + ([W32(maxcount)] + (WordsForm(request.words))))) ==
        [W64(cookie), verf, W32(dircount), W32(maxcount)] + WordsForm(request.words);
  }

  lemma {:induction false} RenameShows(oldname: Utf8, newname: Utf8)
    requires Fits(oldname) && Fits(newname)
    ensures Shows(RENAME_ARGS, V2(Data(oldname), Data(newname)), [Str(oldname), Str(newname)])
  {
    hide Shows, W32, W64, Str, Truth, StateForm, FattrForm, WordsForm, ChannelForm, OpenOwnerForm, OwnerForm,
      HowForm, ClaimForm, Listed, BitmapValue, FattrValue, StateIdValue, ChannelValue, ImplIdsValue, ParmsValue,
      OpenOwnerValue, OwnerValue, FlagValue, ClaimValue, FattrFits, OpenFits, StatusCodes, IsStatus, ValidUtf8;
    TextShows(oldname);
    TextShows(newname);
    Shows2(Text, Text, Data(oldname), Data(newname), [Str(oldname)], [Str(newname)]);
    assert [Str(oldname)] + ([Str(newname)]) == [Str(oldname), Str(newname)];
  }

  lemma {:induction false} ExchangeIdShows(owner: ClientOwner4, flags: u32, ids: seq<NfsImplId4>)
    requires Fits(owner.ownerid) && Fits(ids) && forall i | 0 <= i < |ids| :: ImplFits(ids[i])
    ensures Shows(EXCHANGE_ID_ARGS, V4(OwnerValue(owner), Num(flags), SP_NONE, ImplIdsValue(ids)), OwnerForm(owner) +
                  [W32(flags), W32(0)] + Listed(ids, ImplForm))
  {
    hide Shows, W32, W64, Str, Truth, StateForm, FattrForm, WordsForm, ChannelForm, OpenOwnerForm, OwnerForm,
      HowForm, ClaimForm, Listed, BitmapValue, FattrValue, StateIdValue, ChannelValue, ImplIdsValue, ParmsValue,
      OpenOwnerValue, OwnerValue, FlagValue, ClaimValue, FattrFits, OpenFits, StatusCodes, IsStatus, ValidUtf8;
    OwnerShows(owner);
    WordShows(flags);
    NoProtection();
    ImplsShow(ids);
    Shows4(CLIENT_OWNER, U32, PROTECT_ARG, Vec(IMPL_ID), OwnerValue(owner), Num(flags), SP_NONE, ImplIdsValue(ids),
           OwnerForm(owner), [W32(flags)], [W32(0)], Listed(ids, ImplForm));
    assert OwnerForm(owner) + ([W32(flags)] + ([W32(0)] + (Listed(ids, ImplForm)))) == OwnerForm(owner) + [W32(flags),
        W32(0)] + Listed(ids, ImplForm);
  }

  lemma {:induction false} CreateSessionShows(id: u64, seqid: u32, flags: u32, fore: ChannelAttrs4, back:
                                              ChannelAttrs4, program: u32, parms: seq<CallbackSecParms4>)
    requires Fits(fore.rdmaIrd) && Fits(back.rdmaIrd) && Fits(parms)
    ensures Shows(CREATE_SESSION_ARGS, V7(Num(id), Num(seqid), Num(flags), ChannelValue(fore), ChannelValue(back),
                  Num(program), ParmsValue(parms)), [W64(id), W32(seqid), W32(flags)] + ChannelForm(fore) +
                  ChannelForm(back) + [W32(program)] + Listed(parms, CallbackForm))
  {
    hide Shows, W32, W64, Str, Truth, StateForm, FattrForm, WordsForm, ChannelForm, OpenOwnerForm, OwnerForm,
      HowForm, ClaimForm, Listed, BitmapValue, FattrValue, StateIdValue, ChannelValue, ImplIdsValue, ParmsValue,
      OpenOwnerValue, OwnerValue, FlagValue, ClaimValue, FattrFits, OpenFits, StatusCodes, IsStatus, ValidUtf8;
    LongShows(id);
    WordShows(seqid);
    WordShows(flags);
    ChannelShows(fore);
    ChannelShows(back);
    WordShows(program);
    ParmsShow(parms);
    Shows7(U64, U32, U32, CHANNEL_ATTRS, CHANNEL_ATTRS, U32, Vec(CALLBACK_PARMS), Num(id), Num(seqid), Num(flags),
           ChannelValue(fore), ChannelValue(back), Num(program), ParmsValue(parms), [W64(id)], [W32(seqid)],
           [W32(flags)], ChannelForm(fore), ChannelForm(back), [W32(program)], Listed(parms, CallbackForm));
    Regrouped(W64(id), W32(seqid), W32(flags), ChannelForm(fore), ChannelForm(back), W32(program), Listed(parms,
              CallbackForm));
  }

  lemma {:induction false} DestroySessionShows(dead: SessionId4)
    ensures Shows(S1(Fixed(16)), V1(Data(dead)), [dead])
  {
    hide Shows, W32, W64, Str, Truth, StateForm, FattrForm, WordsForm, ChannelForm, OpenOwnerForm, OwnerForm,
      HowForm, ClaimForm, Listed, BitmapValue, FattrValue, StateIdValue, ChannelValue, ImplIdsValue, ParmsValue,
      OpenOwnerValue, OwnerValue, FlagValue, ClaimValue, FattrFits, OpenFits, StatusCodes, IsStatus, ValidUtf8;
    FixedShows(dead);
    Shows1(Fixed(16), Data(dead), [dead]);
  }

  lemma {:induction false} SequenceShows(id: SessionId4, seqid: u32, slot: u32, highest: u32, cache: bool)
    ensures Shows(SEQUENCE_ARGS, V5(Data(id), Num(seqid), Num(slot), Num(highest), Flag(cache)), [id, W32(seqid),
                  W32(slot), W32(highest), Truth(cache)])
  {
    hide Shows, W32, W64, Str, Truth, StateForm, FattrForm, WordsForm, ChannelForm, OpenOwnerForm, OwnerForm,
      HowForm, ClaimForm, Listed, BitmapValue, FattrValue, StateIdValue, ChannelValue, ImplIdsValue, ParmsValue,
      OpenOwnerValue, OwnerValue, FlagValue, ClaimValue, FattrFits, OpenFits, StatusCodes, IsStatus, ValidUtf8;
    FixedShows(id);
    WordShows(seqid);
    WordShows(slot);
    WordShows(highest);
    TruthShows(cache);
    Shows5(Fixed(16), U32, U32, U32, Bool, Data(id), Num(seqid), Num(slot), Num(highest), Flag(cache), [id],
           [W32(seqid)], [W32(slot)], [W32(highest)], [Truth(cache)]);
    assert [id] + ([W32(seqid)] + ([W32(slot)] + ([W32(highest)] + ([Truth(cache)])))) == [id, W32(seqid), W32(slot),
        W32(highest), Truth(cache)];
  }

  lemma {:induction false} ReclaimCompleteShows(oneFs: bool)
    ensures Shows(S1(Bool), V1(Flag(oneFs)), [Truth(oneFs)])
  {
    hide Shows, W32, W64, Str, Truth, StateForm, FattrForm, WordsForm, ChannelForm, OpenOwnerForm, OwnerForm,
      HowForm, ClaimForm, Listed, BitmapValue, FattrValue, StateIdValue, ChannelValue, ImplIdsValue, ParmsValue,
      OpenOwnerValue, OwnerValue, FlagValue, ClaimValue, FattrFits, OpenFits, StatusCodes, IsStatus, ValidUtf8;
    TruthShows(oneFs);
    Shows1(Bool, Flag(oneFs), [Truth(oneFs)]);
  }

  predicate OnWire(op: NfsArgOp4)
    requires ArgFits(op)
  {
    Shows(ARG_OP, ArgValue(op), [W32(RequestLayout(op).opcode)] + RequestLayout(op).fields)
  }

  lemma {:induction false} FirstOnWire(op: NfsArgOp4)
    requires ArgIndex(op) < 5
    requires ArgFits(op)
    ensures OnWire(op)
  {
    hide Shows, ArgValue, ArgBody, OpAt, S1, S2, S3, S4, S5, S6, S7, V1, V2, V3, V4, V5, V6, V7, W32, W64, Str,
      Truth, StateForm, FattrForm, WordsForm, ChannelForm, OpenOwnerForm, OwnerForm, HowForm, ClaimForm, Listed,
      BitmapValue, FattrValue, StateIdValue, ChannelValue, ImplIdsValue, ParmsValue, OpenOwnerValue, OwnerValue,
      FlagValue, ClaimValue, FattrFits, OpenFits, StatusCodes, IsStatus, ValidUtf8;
    FirstArgBodies();
    Opcodes();
    match op {
      case PutRootFh => UnitShows();
      case PutFh(fh) => PutFhShows(fh);
      case Lookup(name) => LookupShows(name);
      case GetFh => UnitShows();
      case GetAttr(request) => GetAttrShows(request);
    }
    BehindOpcode(op, RequestLayout(op).fields);
  }

  lemma {:induction false} SecondOnWire(op: NfsArgOp4)
    requires 5 <= ArgIndex(op) < 9
    requires ArgFits(op)
    ensures OnWire(op)
  {
    hide Shows, ArgValue, ArgBody, OpAt, S1, S2, S3, S4, S5, S6, S7, V1, V2, V3, V4, V5, V6, V7, W32, W64, Str,
      Truth, StateForm, FattrForm, WordsForm, ChannelForm, OpenOwnerForm, OwnerForm, HowForm, ClaimForm, Listed,
      BitmapValue, FattrValue, StateIdValue, ChannelValue, ImplIdsValue, ParmsValue, OpenOwnerValue, OwnerValue,
      FlagValue, ClaimValue, FattrFits, OpenFits, StatusCodes, IsStatus, ValidUtf8;
    SecondArgBodies();
    Opcodes();
    match op {
      case SetAttr(stateid, fattr) => SetAttrShows(stateid, fattr);
      case Open(seqid, access, deny, owner, how, claim) => OpenShows(seqid, access, deny, owner, how, claim);
      case Close(seqid, stateid) => CloseShows(seqid, stateid);
      case Read(stateid, offset, count) => ReadShows(stateid, offset, count);
    }
    BehindOpcode(op, RequestLayout(op).fields);
  }

  lemma {:induction false} ThirdOnWire(op: NfsArgOp4)
    requires 9 <= ArgIndex(op) < 13
    requires ArgFits(op)
    ensures OnWire(op)
  {
    hide Shows, ArgValue, ArgBody, OpAt, S1, S2, S3, S4, S5, S6, S7, V1, V2, V3, V4, V5, V6, V7, W32, W64, Str,
      Truth, StateForm, FattrForm, WordsForm, ChannelForm, OpenOwnerForm, OwnerForm, HowForm, ClaimForm, Listed,
      BitmapValue, FattrValue, StateIdValue, ChannelValue, ImplIdsValue, ParmsValue, OpenOwnerValue, OwnerValue,
      FlagValue, ClaimValue, FattrFits, OpenFits, StatusCodes, IsStatus, ValidUtf8;
    ThirdArgBodies();
    Opcodes();
    match op {
      case Write(stateid, offset, stable, data) => WriteShows(stateid, offset, stable, data);
      case ReadDir(cookie, verf, dircount, maxcount, request) => ReadDirShows(cookie, verf, dircount, maxcount,
          request);
      case Remove(target) => LookupShows(target);
      case Rename(oldname, newname) => RenameShows(oldname, newname);
    }
    BehindOpcode(op, RequestLayout(op).fields);
  }

  lemma {:induction false} LastOnWire(op: NfsArgOp4)
    requires op.ExchangeId? || op.CreateSession? || op.DestroySession? || op.Sequence? || op.ReclaimComplete?
    requires ArgFits(op)
    ensures OnWire(op)
  {
    hide Shows, ArgValue, ArgBody, OpAt, S1, S2, S3, S4, S5, S6, S7, V1, V2, V3, V4, V5, V6, V7, W32, W64, Str,
      Truth, StateForm, FattrForm, WordsForm, ChannelForm, OpenOwnerForm, OwnerForm, HowForm, ClaimForm, Listed,
      BitmapValue, FattrValue, StateIdValue, ChannelValue, ImplIdsValue, ParmsValue, OpenOwnerValue, OwnerValue,
      FlagValue, ClaimValue, FattrFits, OpenFits, StatusCodes, IsStatus, ValidUtf8;
    LastArgBodies();
    Opcodes();
    match op {
      case ExchangeId(owner, flags, ids) => ExchangeIdShows(owner, flags, ids);
      case CreateSession(id, seqid, flags, fore, back, program, parms) => CreateSessionShows(id, seqid, flags,
          fore, back, program, parms);
      case DestroySession(dead) => DestroySessionShows(dead);
      case Sequence(id, seqid, slot, highest, cache) => SequenceShows(id, seqid, slot, highest, cache);
      case ReclaimComplete(oneFs) => ReclaimCompleteShows(oneFs);
    }
    BehindOpcode(op, RequestLayout(op).fields);
  }

  lemma {:induction false} RequestShows(op: NfsArgOp4)
    requires ArgFits(op)
    ensures OnWire(op)
  {
    hide OnWire, ArgFits;
    if ArgIndex(op) < 5 {
      FirstOnWire(op);
    } else if ArgIndex(op) < 9 {
      SecondOnWire(op);
    } else if ArgIndex(op) < 13 {
      ThirdOnWire(op);
    } else {
      LastOnWire(op);
    }
  }

  /** Every request is written as its layout says: the opcode, then every argument, in
      the order of the protocol. */
  lemma {:induction false} RequestOnWire(op: NfsArgOp4)
    requires ArgFits(op)
    ensures var l := RequestLayout(op);
      Encode(ARG_OP, ArgValue(op)) == Wrote(W32(l.opcode) + Concat(l.fields))
  {
    hide Encode, ArgFits, ArgValue, RequestLayout, W32, HasType;
    RequestShows(op);
    var l := RequestLayout(op);
    ConcatOne(W32(l.opcode));
    ConcatJoin([W32(l.opcode)], l.fields);
  }

  /** SEQUENCE, for one, written out. */
  lemma {:induction false} SequenceBytes(id: SessionId4, sequenceid: u32, slotid: u32, highest: u32, cache: bool)
    ensures Encode(ARG_OP, ArgValue(NfsArgOp4.Sequence(id, sequenceid, slotid, highest, cache)))
            == Wrote([0, 0, 0, 53] + id + BigEndian32(sequenceid) + BigEndian32(slotid) + BigEndian32(highest)
                     + [0, 0, 0, if cache then 1 else 0])
  {
    hide Encode, ArgValue, HasType, BigEndian32, W32, Truth;
    var op := NfsArgOp4.Sequence(id, sequenceid, slotid, highest, cache);
    RequestOnWire(op);
    WordShows(sequenceid);
    WordShows(slotid);
    WordShows(highest);
    SmallWords(cache);
    FiveFields(id, W32(sequenceid), W32(slotid), W32(highest), Truth(cache));
    FromTheLeft([0, 0, 0, 53], id, W32(sequenceid), W32(slotid), W32(highest), Truth(cache));
    assert RequestLayout(op).fields == [id, W32(sequenceid), W32(slotid), W32(highest), Truth(cache)];
  }

  lemma {:induction false} SmallWords(cache: bool)
    ensures W32(53) == [0, 0, 0, 53] && Truth(cache) == [0, 0, 0, if cache then 1 else 0]
  {
  }

  lemma {:induction false} FiveFields(a: seq<byte>, b: seq<byte>, c: seq<byte>, d: seq<byte>, e: seq<byte>)
    ensures Concat([a, b, c, d, e]) == a + (b + (c + (d + e)))
  {
    assert [a, b, c, d, e][1..] == [b, c, d, e] && [b, c, d, e][1..] == [c, d, e] && [c, d, e][1..] == [d, e];
    assert [d, e][1..] == [e];
    ConcatOne(e);
    assert Concat([d, e]) == d + e;
    assert Concat([c, d, e]) == c + (d + e);
    assert Concat([b, c, d, e]) == b + (c + (d + e));
  }

  lemma {:induction false} FromTheLeft(o: seq<byte>, a: seq<byte>, b: seq<byte>, c: seq<byte>, d: seq<byte>,
                                       e: seq<byte>)
    ensures o + (a + (b + (c + (d + e)))) == o + a + b + c + d + e
  {
    AppendAssociative(o, a, b + (c + (d + e)));
    AppendAssociative(o + a, b, c + (d + e));
    AppendAssociative(o + a + b, c, d + e);
    AppendAssociative(o + a + b + c, d, e);
  }
}
