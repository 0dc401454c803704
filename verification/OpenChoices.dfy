/** The two unions of OPEN's arguments: how to open (with the nested createhow4)
    and what to open. */
module OpenChoices {
  import opened Wire
  import opened Xdr
  import opened XdrStructs
  import opened XdrCodec
  import opened Nfs4Types
  import opened SendableResults
  import opened ResultValues
  import Laws = XdrLaws

  datatype OpenFlag4 = NoCreate | CreateUnchecked(attrs: Fattr4)
  datatype OpenClaim4 = ClaimNull(name: Utf8) | ClaimFh

  const CREATE_HOW := Enum("createhow4", [Arm(0, FATTR)])
  const OPEN_FLAG := Enum("OpenFlag4", [Arm(0, Unit), Arm(1, CREATE_HOW)])
  const OPEN_CLAIM := Enum("OpenClaim4", [Arm(0, Text), Arm(4, Unit)])

  function FlagValue(f: OpenFlag4): Value {
    match f
    case NoCreate => Variant(0, Nil)
    case CreateUnchecked(attrs) => Variant(1, Variant(0, FattrValue(attrs)))
  }

  function ClaimValue(c: OpenClaim4): Value {
    match c
    case ClaimNull(name) => Variant(0, Data(name))
    case ClaimFh => Variant(1, Nil)
  }

  lemma {:induction false} HowFormed(p: Value)
    requires HasType(FATTR, p)
    ensures HasType(CREATE_HOW, Variant(0, p))
    ensures WellFormed(CREATE_HOW, Variant(0, p)) <==> WellFormed(FATTR, p)
    ensures Encode(CREATE_HOW, Variant(0, p)) == Wrote(BigEndian32(0)).Then(Encode(FATTR, p))
  {
    hide BigEndian32;
  }

  lemma {:induction false} FlagFormedIff(f: OpenFlag4)
    ensures HasType(OPEN_FLAG, FlagValue(f))
    ensures WellFormed(OPEN_FLAG, FlagValue(f)) <==> f.CreateUnchecked? ==> FattrFits(f.attrs)
    ensures Encode(OPEN_FLAG, FlagValue(f)) ==
            match f
            case NoCreate => Wrote(BigEndian32(0))
            case CreateUnchecked(attrs) =>
              Wrote(BigEndian32(1)).Then(Wrote(BigEndian32(0)).Then(Encode(FATTR, FattrValue(attrs))))
  {
    hide BigEndian32, FattrValue, FattrFits;
    match f {
      case NoCreate =>
        assert WellFormed(Unit, Nil);
        assert BigEndian32(0) + [] == BigEndian32(0);
      case CreateUnchecked(attrs) =>
        FattrFormed(attrs);
        HowFormed(FattrValue(attrs));
    }
  }

  lemma {:induction false} ClaimFormedIff(c: OpenClaim4)
    ensures HasType(OPEN_CLAIM, ClaimValue(c))
    ensures WellFormed(OPEN_CLAIM, ClaimValue(c)) <==> c.ClaimNull? ==> Fits(c.name)
    ensures Encode(OPEN_CLAIM, ClaimValue(c)) ==
            match c
            case ClaimNull(name) => Wrote(BigEndian32(0)).Then(EncodeOpaque(name))
            case ClaimFh => Wrote(BigEndian32(4))
  {
    hide BigEndian32, ValidUtf8;
    match c {
      case ClaimNull(name) =>
        TextTyped(name);
        TextFormed(name);
      case ClaimFh =>
        assert WellFormed(Unit, Nil);
        assert BigEndian32(4) + [] == BigEndian32(4);
    }
  }

  method EncodeFlagInto(f: OpenFlag4, buf: BytesMut) returns (r: Result<()>)
    modifies buf
    ensures HasType(OPEN_FLAG, FlagValue(f))
    ensures r == Encode(OPEN_FLAG, FlagValue(f)).Verdict()
    ensures buf.data == old(buf.data) + Encode(OPEN_FLAG, FlagValue(f)).bytes
  {
    hide BigEndian32, Encode, HasType, FattrValue;
    FlagFormedIff(f);
    match f {
      case NoCreate =>
        buf.PutU32(0);
        return Ok(());
      case CreateUnchecked(attrs) =>
        ghost var body := Encode(FATTR, FattrValue(attrs)).bytes;
        AppendAssociative(buf.data, BigEndian32(1), BigEndian32(0) + body);
        AppendAssociative(buf.data + BigEndian32(1), BigEndian32(0), body);
        buf.PutU32(1);
        buf.PutU32(0);
        r := EncodeInto(FATTR, FattrValue(attrs), buf);
    }
  }

  method EncodeClaimInto(c: OpenClaim4, buf: BytesMut) returns (r: Result<()>)
    modifies buf
    ensures HasType(OPEN_CLAIM, ClaimValue(c))
    ensures r == Encode(OPEN_CLAIM, ClaimValue(c)).Verdict()
    ensures buf.data == old(buf.data) + Encode(OPEN_CLAIM, ClaimValue(c)).bytes
  {
    hide BigEndian32, Encode, HasType, EncodeOpaque;
    ClaimFormedIff(c);
    match c {
      case ClaimNull(name) =>
        AppendAssociative(buf.data, BigEndian32(0), EncodeOpaque(name).bytes);
        buf.PutU32(0);
        r := EncodeOpaqueInto(name, buf);
      case ClaimFh =>
        buf.PutU32(4);
        return Ok(());
    }
  }

  // ---------------------------------------------------------------- decoding

  function DecodeFlag(b: seq<byte>): Decoded<OpenFlag4> {
    hide Decode, HasType, Encode, WellFormed;
    var (disc, r) :- DecodeU32(b);
    match disc
    case 0 => Got(NoCreate, r)
    case 1 =>
      var (how, r') :- DecodeU32(r);
      if how != 0 then Failed(InvalidEnum(how, "createhow4"), r')
      else
        (match Decode(FATTR, r')
         case Failed(e, rest) => Failed(e, rest)
         case Got(v, rest) => Laws.Sound(FATTR, r'); Got(CreateUnchecked(FattrOf(v)), rest))
    case other => Failed(InvalidEnum(other, "OpenFlag4"), r)
  }

  function DecodeClaim(b: seq<byte>): Decoded<OpenClaim4> {
    var (disc, r) :- DecodeU32(b);
    match disc
    case 0 =>
      var (name, r') :- DecodeOpaque(r);
      if ValidUtf8(name) then Got(ClaimNull(name), r') else Failed(StringNotUtf8, r')
    case 4 => Got(ClaimFh, r)
    case other => Failed(InvalidEnum(other, "OpenClaim4"), r)
  }

  method DecodeFlagFrom(buf: Bytes) returns (r: Result<OpenFlag4>)
    modifies buf
    ensures r == DecodeFlag(old(buf.data)).Verdict() && buf.data == DecodeFlag(old(buf.data)).rest
  {
    hide Decode, DecodeU32, HasType, Encode, FattrOf;
    var disc :- DecodeU32From(buf);
    match disc {
      case 0 => return Ok(NoCreate);
      case 1 =>
        var how :- DecodeU32From(buf);
        match how {
          case 0 =>
            ghost var b := buf.data;
            var v :- DecodeFrom(FATTR, buf);
            Laws.Sound(FATTR, b);
            return Ok(CreateUnchecked(FattrOf(v)));
          case other => return Err(InvalidEnum(other, "createhow4"));
        }
      case other => return Err(InvalidEnum(other, "OpenFlag4"));
    }
  }

  method DecodeClaimFrom(buf: Bytes) returns (r: Result<OpenClaim4>)
    modifies buf
    ensures r == DecodeClaim(old(buf.data)).Verdict() && buf.data == DecodeClaim(old(buf.data)).rest
  {
    hide DecodeU32, DecodeOpaque, ValidUtf8;
    var disc :- DecodeU32From(buf);
    match disc {
      case 0 =>
        var name :- DecodeOpaqueFrom(buf);
        if !ValidUtf8(name) {
          return Err(StringNotUtf8);
        }
        return Ok(ClaimNull(name));
      case 4 => return Ok(ClaimFh);
      case other => return Err(InvalidEnum(other, "OpenClaim4"));
    }
  }

  /** Both unions survive the wire, with what follows untouched, exactly when their
      lengths fit. */
  lemma {:induction false} FlagRoundTripIff(f: OpenFlag4, suffix: seq<byte>)
    ensures HasType(OPEN_FLAG, FlagValue(f))
    ensures var e := Encode(OPEN_FLAG, FlagValue(f));
      (e.Wrote? && DecodeFlag(e.bytes + suffix) == Got(f, suffix)) <==> (f.CreateUnchecked? ==> FattrFits(f.attrs))
  {
    hide BigEndian32, Encode, Decode, HasType, WellFormed, DecodeU32, FattrValue, FattrOf, FattrFits;
    FlagFormedIff(f);
    match f {
      case NoCreate => Laws.U32Law(0, suffix);
      case CreateUnchecked(attrs) =>
        var body := Encode(FATTR, FattrValue(attrs));
        FattrFormed(attrs);
        Laws.RoundTripIff(FATTR, FattrValue(attrs), suffix);
        if body.Wrote? {
          assert BigEndian32(1) + (BigEndian32(0) + body.bytes) + suffix
              == BigEndian32(1) + (BigEndian32(0) + (body.bytes + suffix));
          Laws.U32Law(1, BigEndian32(0) + (body.bytes + suffix));
          Laws.U32Law(0, body.bytes + suffix);
          if Decode(FATTR, body.bytes + suffix).Got? {
            Laws.Sound(FATTR, body.bytes + suffix);
            var v := Decode(FATTR, body.bytes + suffix).value;
            if v == FattrValue(attrs) {
              FattrInjective(FattrOf(v), attrs);
            }
          }
        }
    }
  }

  lemma {:induction false} ClaimRoundTripIff(c: OpenClaim4, suffix: seq<byte>)
    ensures HasType(OPEN_CLAIM, ClaimValue(c))
    ensures var e := Encode(OPEN_CLAIM, ClaimValue(c));
      (e.Wrote? && DecodeClaim(e.bytes + suffix) == Got(c, suffix)) <==> (c.ClaimNull? ==> Fits(c.name))
  {
    hide BigEndian32, Encode, HasType, WellFormed, DecodeU32, DecodeOpaque, ValidUtf8;
    ClaimFormedIff(c);
    match c {
      case ClaimNull(name) =>
        if Fits(name) {
          Laws.OpaqueLaw(name, suffix);
          Laws.WordThen(0, EncodeOpaque(name).bytes, suffix);
        }
      case ClaimFh => Laws.U32Law(4, suffix);
    }
  }
}
