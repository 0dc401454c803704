/** The laws of the COMPOUND response: it survives the wire exactly when it is
    sendable, its decoder's verdicts are final, and decoding conserves bytes. */
module CompoundLaws {
  import opened Wire
  import opened Xdr
  import opened XdrStructs
  import opened Nfs4Types
  import opened Compound
  import opened SendableResults
  import Laws = XdrLaws

  /** A response survives the wire, with whatever follows it left untouched,
      exactly when it is sendable. */
  lemma {:induction false} CompoundRoundTripIff(res: Compound4res, suffix: seq<byte>)
    ensures (EncodeCompound(res).Wrote? && DecodeCompound(EncodeCompound(res).bytes + suffix) == Got(res, suffix))
            <==> Sendable(res)
  {
    hide HasType, WellFormed, Encode, Decode, StatusCodes, ResArms, CompoundValue, CompoundOf, Sendable, IsStatus,
      ValidUtf8;
    SendableIff(res);
    Laws.RoundTripIff(COMPOUND_RES, CompoundValue(res), suffix);
    if EncodeCompound(res).Wrote? {
      var b := EncodeCompound(res).bytes + suffix;
      if Decode(COMPOUND_RES, b).Got? {
        Laws.Sound(COMPOUND_RES, b);
        var v := Decode(COMPOUND_RES, b).value;
        if v == CompoundValue(res) {
          CompoundInjective(CompoundOf(v), res);
        }
      }
    }
  }

  /** A response cut short anywhere is reported as too short, never misread. */
  lemma {:induction false} CompoundPrefixTooShort(res: Compound4res, n: nat)
    requires Sendable(res) && EncodeCompound(res).Wrote? && n < |EncodeCompound(res).bytes|
    ensures DecodeCompound(EncodeCompound(res).bytes[..n]).Failed?
    ensures DecodeCompound(EncodeCompound(res).bytes[..n]).error.BufferTooShort?
  {
    hide HasType, WellFormed, Encode, Decode, StatusCodes, ResArms, CompoundValue, CompoundOf, Sendable, IsStatus,
      ValidUtf8;
    SendableIff(res);
    Laws.PrefixTooShort(COMPOUND_RES, CompoundValue(res), n);
  }

  /** Verdicts are final: appending bytes changes neither a decoded response nor
      any error other than BufferTooShort. */
  lemma {:induction false} CompoundMonotone(b: seq<byte>, s: seq<byte>)
    ensures match DecodeCompound(b)
      case Got(res, rest) => DecodeCompound(b + s) == Got(res, rest + s)
      case Failed(e, rest) => e.BufferTooShort? || DecodeCompound(b + s) == Failed(e, rest + s)
  {
    hide HasType, Encode, Decode, StatusCodes, ResArms, CompoundOf, IsStatus, ValidUtf8;
    Laws.Monotone(COMPOUND_RES, b, s);
    if Decode(COMPOUND_RES, b).Got? {
      Laws.Sound(COMPOUND_RES, b);
    }
  }

  lemma {:induction false} SchemasAligned()
    ensures Laws.Aligned(STATE_ID) && Laws.Aligned(CHANGE_INFO) && Laws.Aligned(BITMAP) && Laws.Aligned(FATTR)
    ensures Laws.Aligned(IMPL_ID) && Laws.Aligned(SERVER_OWNER) && Laws.Aligned(CHANNEL_ATTRS) && Laws.Aligned(ENTRY)
    ensures Laws.Aligned(STATE_PROTECT) && Laws.Aligned(DELEGATION)
  {
    hide Laws.Aligned;
    PlainAligned();
    UnionsAligned();
    Aligned2(U32, Fixed(12));
    Aligned3(Bool, U64, U64);
    GuardedAligned(U32);
    GuardedAligned(Vec(U32));
    Aligned2(BITMAP, Opaque);
    Aligned2(I64, U32);
    Aligned3(Text, Text, TIME);
    Aligned2(U64, Opaque);
    Aligned7(U32, U32, U32, U32, U32, U32, Vec(U32));
    Aligned3(U64, Text, FATTR);
  }

  lemma {:induction false} UnionsAligned()
    ensures Laws.Aligned(STATE_PROTECT) && Laws.Aligned(DELEGATION)
  {
    assert Laws.Aligned(Unit);
  }

  lemma {:induction false} GuardedAligned(ok: Ty)
    requires Laws.Aligned(ok)
    ensures Laws.Aligned(Guarded(STAT, ok)) && Laws.Aligned(S1(ok)) && Laws.Aligned(Guarded(STAT, S1(ok)))
    ensures Laws.Aligned(Vec(ok)) && Laws.Aligned(Chain(ok))
  {
    hide StatusCodes, IsStatus, ValidUtf8;
    assert Laws.Aligned(S1(ok));
  }

  lemma {:induction false} BodyAligned(k: nat)
    requires k < 18
    ensures Laws.Aligned(BodyAt(k))
  {
    hide StatusCodes, Laws.Aligned, IsStatus, ValidUtf8;
    SchemasAligned();
    GuardedAligned(FATTR);
    GuardedAligned(BITMAP);
    GuardedAligned(STATE_ID);
    GuardedAligned(CHANGE_INFO);
    match k {
      case 6 =>
        PlainAligned();
        Aligned5(STATE_ID, CHANGE_INFO, U32, BITMAP, DELEGATION);
        GuardedAligned(OPEN_OK);
      case 8 =>
        PlainAligned();
        Aligned2(Bool, Opaque);
        GuardedAligned(READ_OK);
      case 9 =>
        PlainAligned();
        Aligned3(U32, U32, Fixed(8));
        GuardedAligned(WRITE_OK);
      case 10 =>
        PlainAligned();
        GuardedAligned(ENTRY);
        Aligned3(Fixed(8), Chain(ENTRY), Bool);
        GuardedAligned(READDIR_OK);
      case 12 =>
        Aligned2(CHANGE_INFO, CHANGE_INFO);
        GuardedAligned(RENAME_OK);
      case 13 =>
        PlainAligned();
        GuardedAligned(IMPL_ID);
        Aligned7(U64, U32, U32, STATE_PROTECT, SERVER_OWNER, Opaque, Vec(IMPL_ID));
        GuardedAligned(EXCHANGE_ID_OK);
      case 14 =>
        PlainAligned();
        Aligned5(Fixed(16), U32, U32, CHANNEL_ATTRS, CHANNEL_ATTRS);
        GuardedAligned(CREATE_SESSION_OK);
      case 16 =>
        PlainAligned();
        Aligned6(Fixed(16), U32, U32, U32, U32, U32);
        GuardedAligned(SEQUENCE_OK);
      case _ =>
        PlainAligned();
        GuardedAligned(FILE_HANDLE);
    }
  }

  lemma {:induction false} PlainAligned()
    ensures Laws.Aligned(U32) && Laws.Aligned(U64) && Laws.Aligned(Bool) && Laws.Aligned(Opaque) && Laws.Aligned(Text)
    ensures Laws.Aligned(I64) && Laws.Aligned(Fixed(8)) && Laws.Aligned(Fixed(12)) && Laws.Aligned(Fixed(16))
        && Laws.Aligned(FILE_HANDLE) && Laws.Aligned(STAT)
  {
    hide StatusCodes, IsStatus, ValidUtf8;
  }

  lemma {:induction false} CompoundAligned()
    ensures Laws.Aligned(COMPOUND_RES)
  {
    OpcodesDistinct();
    forall k | 0 <= k < |ResArms()|
      ensures Laws.Aligned(ResArms()[k].body)
    {
      ArmAt(k);
      BodyAligned(k);
    }
    ResultsAligned();
    PlainAligned();
    Aligned3(STAT, Text, Vec(RES_OP));
  }

  lemma {:induction false} ResultsAligned()
    requires forall k | 0 <= k < |ResArms()| :: Laws.Aligned(ResArms()[k].body)
    ensures Laws.Aligned(Vec(RES_OP))
  {
    hide ResArms;
    assert Laws.Aligned(RES_OP);
  }

  /** Conservation: decoding a response, also one with odd padding, consumes whole
      words, as many bytes as encoding the result writes, and that encoding decodes
      to the same response. */
  lemma {:induction false} CompoundConservation(b: seq<byte>)
    requires DecodeCompound(b).Got?
    ensures var Got(res, rest) := DecodeCompound(b);
      && Sendable(res) && EncodeCompound(res).Wrote?
      && |b| - |rest| == |EncodeCompound(res).bytes|
      && (|b| - |rest|) % 4 == 0
      && rest == b[|b| - |rest|..]
      && DecodeCompound(EncodeCompound(res).bytes + rest) == Got(res, rest)
  {
    hide HasType, WellFormed, Encode, Decode, StatusCodes, ResArms, CompoundOf, CompoundValue, Sendable, IsStatus,
      ValidUtf8;
    CompoundAligned();
    Laws.Sound(COMPOUND_RES, b);
    Laws.Conservation(COMPOUND_RES, b);
    SendableIff(DecodeCompound(b).value);
    CompoundRoundTripIff(DecodeCompound(b).value, DecodeCompound(b).rest);
  }
}
