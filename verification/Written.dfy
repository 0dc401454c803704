/** When a value can be written at all: exactly when every length in it fits its length
    word. */
module Writable {
  import opened Wire
  import opened Xdr
  import opened XdrStructs
  import opened Nfs4Types
  import opened OpenChoices
  import opened CompoundArgs

  /** Strings, handles and lists shorter than 2^32, wherever they are in the value. */
  predicate LengthsFit(ty: Ty, v: Value)
    requires HasType(ty, v)
    decreases ty
  {
    match ty
    case Opaque => |v.d| < 0x1_0000_0000
    case Text => |v.d| < 0x1_0000_0000
    case Handle(_) => |v.d| < 0x1_0000_0000
    case Vec(elem) => |v.vs| < 0x1_0000_0000 && forall i | 0 <= i < |v.vs| :: LengthsFit(elem, v.vs[i])
    case Opt(elem) => v.Present? ==> LengthsFit(elem, v.v)
    case Pair(first, second) => LengthsFit(first, v.x) && LengthsFit(second, v.y)
    case Enum(_, arms) => LengthsFit(arms[v.index].body, v.payload)
    case Guarded(status, ok) => LengthsFit(status, v.x) && (v.y.Present? ==> LengthsFit(ok, v.y.v))
    case Chain(entry) => forall i | 0 <= i < |v.vs| :: LengthsFit(entry, v.vs[i])
    case _ => true
  }

  predicate TooLong(e: Encoded) { e.Stuck? && e.error == LengthExceeded(0xFFFF_FFFF, 0) }

  /** For all types and values: the encoder succeeds exactly when the lengths fit, and
      otherwise reports LengthExceeded. */
  lemma {:induction false} WrittenIff(ty: Ty, v: Value)
    requires HasType(ty, v)
    ensures if LengthsFit(ty, v) then Encode(ty, v).Wrote? else TooLong(Encode(ty, v))
    decreases ty, 0
  {
    hide BigEndian32, BigEndian64;
    match ty
    case Vec(elem) => ItemsWrittenIff(elem, v.vs);
    case Opt(elem) =>
      if v.Present? {
        WrittenIff(elem, v.v);
      }
    case Pair(first, second) =>
      WrittenIff(first, v.x);
      WrittenIff(second, v.y);
    case Enum(_, arms) => WrittenIff(arms[v.index].body, v.payload);
    case Guarded(status, ok) =>
      WrittenIff(status, v.x);
      if v.y.Present? {
        WrittenIff(ok, v.y.v);
      }
    case Chain(entry) => ChainWrittenIff(entry, v.vs);
    case _ =>
  }

  lemma {:induction false} ItemsWrittenIff(elem: Ty, vs: seq<Value>)
    requires forall i | 0 <= i < |vs| :: HasType(elem, vs[i])
    ensures if forall i | 0 <= i < |vs| :: LengthsFit(elem, vs[i]) then EncodeItems(elem, vs).Wrote?
            else TooLong(EncodeItems(elem, vs))
    decreases elem, |vs| + 1
  {
    hide HasType, Encode, LengthsFit, BigEndian32;
    if vs != [] {
      WrittenIff(elem, vs[0]);
      ItemsWrittenIff(elem, vs[1..]);
      assert forall i | 0 < i < |vs| :: vs[i] == vs[1..][i - 1];
    }
  }

  lemma {:induction false} ChainWrittenIff(entry: Ty, vs: seq<Value>)
    requires forall i | 0 <= i < |vs| :: HasType(entry, vs[i])
    ensures if forall i | 0 <= i < |vs| :: LengthsFit(entry, vs[i]) then EncodeChain(entry, vs).Wrote?
            else TooLong(EncodeChain(entry, vs))
    decreases entry, |vs| + 1
  {
    hide HasType, Encode, LengthsFit, BigEndian32;
    if vs != [] {
      WrittenIff(entry, vs[0]);
      ChainWrittenIff(entry, vs[1..]);
      assert forall i | 0 < i < |vs| :: vs[i] == vs[1..][i - 1];
    }
  }

  /** Nothing but lengths decides: no guarded result, no bounded handle, no shadowed
      variant. */
  predicate LengthsDecide(ty: Ty)
    decreases ty
  {
    match ty
    case Handle(_) => false
    case Vec(elem) => LengthsDecide(elem)
    case Opt(elem) => LengthsDecide(elem)
    case Pair(first, second) => LengthsDecide(first) && LengthsDecide(second)
    case Enum(_, arms) => forall i | 0 <= i < |arms| :: Unshadowed(arms, i) && LengthsDecide(arms[i].body)
    case Guarded(_, _) => false
    case Chain(entry) => LengthsDecide(entry)
    case _ => true
  }

  lemma {:induction false} FormedIsFitting(ty: Ty, v: Value)
    requires LengthsDecide(ty) && HasType(ty, v)
    ensures WellFormed(ty, v) <==> LengthsFit(ty, v)
    decreases ty
  {
    match ty
    case Vec(elem) =>
      forall i | 0 <= i < |v.vs|
        ensures WellFormed(elem, v.vs[i]) <==> LengthsFit(elem, v.vs[i])
      {
        FormedIsFitting(elem, v.vs[i]);
      }
    case Opt(elem) =>
      if v.Present? {
        FormedIsFitting(elem, v.v);
      }
    case Pair(first, second) =>
      FormedIsFitting(first, v.x);
      FormedIsFitting(second, v.y);
    case Enum(_, arms) =>
      assert Unshadowed(arms, v.index) && LengthsDecide(arms[v.index].body);
      FormedIsFitting(arms[v.index].body, v.payload);
    case Chain(entry) =>
      forall i | 0 <= i < |v.vs|
        ensures WellFormed(entry, v.vs[i]) <==> LengthsFit(entry, v.vs[i])
      {
        FormedIsFitting(entry, v.vs[i]);
      }
    case _ =>
  }

  // Structs of fields for which lengths decide.

  lemma {:induction false} Decide1(a: Ty)
    requires LengthsDecide(a)
    ensures LengthsDecide(S1(a)) && LengthsDecide(Vec(a))
  {
    assert LengthsDecide(Unit);
  }

  lemma {:induction false} Decide2(a: Ty, b: Ty)
    requires LengthsDecide(a) && LengthsDecide(b)
    ensures LengthsDecide(S2(a, b))
  {
    Decide1(b);
    hide S1;
  }

  lemma {:induction false} Decide3(a: Ty, b: Ty, c: Ty)
    requires LengthsDecide(a) && LengthsDecide(b) && LengthsDecide(c)
    ensures LengthsDecide(S3(a, b, c))
  {
    Decide2(b, c);
    hide S2;
  }

  lemma {:induction false} Decide4(a: Ty, b: Ty, c: Ty, d: Ty)
    requires LengthsDecide(a) && LengthsDecide(b) && LengthsDecide(c) && LengthsDecide(d)
    ensures LengthsDecide(S4(a, b, c, d))
  {
    Decide3(b, c, d);
    hide S3;
  }

  lemma {:induction false} Decide5(a: Ty, b: Ty, c: Ty, d: Ty, e: Ty)
    requires LengthsDecide(a) && LengthsDecide(b) && LengthsDecide(c) && LengthsDecide(d) && LengthsDecide(e)
    ensures LengthsDecide(S5(a, b, c, d, e))
  {
    Decide4(b, c, d, e);
    hide S4;
  }

  lemma {:induction false} Decide6(a: Ty, b: Ty, c: Ty, d: Ty, e: Ty, f: Ty)
    requires LengthsDecide(a) && LengthsDecide(b) && LengthsDecide(c) && LengthsDecide(d) && LengthsDecide(e)
        && LengthsDecide(f)
    ensures LengthsDecide(S6(a, b, c, d, e, f))
  {
    Decide5(b, c, d, e, f);
    hide S5;
  }

  lemma {:induction false} Decide7(a: Ty, b: Ty, c: Ty, d: Ty, e: Ty, f: Ty, g: Ty)
    requires LengthsDecide(a) && LengthsDecide(b) && LengthsDecide(c) && LengthsDecide(d) && LengthsDecide(e)
        && LengthsDecide(f) && LengthsDecide(g)
    ensures LengthsDecide(S7(a, b, c, d, e, f, g))
  {
    Decide6(b, c, d, e, f, g);
    hide S6;
  }

  lemma {:induction false} LeavesDecide()
    ensures LengthsDecide(U32) && LengthsDecide(U64) && LengthsDecide(I64) && LengthsDecide(Bool) && LengthsDecide(Unit)
    ensures LengthsDecide(Opaque) && LengthsDecide(Text)
    ensures LengthsDecide(Fixed(8)) && LengthsDecide(Fixed(12)) && LengthsDecide(Fixed(16))
  {
  }

  lemma {:induction false} UnionsDecide()
    requires LengthsDecide(FATTR)
    ensures LengthsDecide(PROTECT_ARG) && LengthsDecide(OPEN_FLAG) && LengthsDecide(OPEN_CLAIM)
  {
    hide FATTR;
    LeavesDecide();
    assert LengthsDecide(CREATE_HOW);
  }

  lemma {:induction false} PartsDecide()
    ensures LengthsDecide(STATE_ID) && LengthsDecide(FATTR) && LengthsDecide(BITMAP)
    ensures LengthsDecide(IMPL_ID) && LengthsDecide(CHANNEL_ATTRS)
    ensures LengthsDecide(CLIENT_OWNER) && LengthsDecide(OPEN_OWNER) && LengthsDecide(CALLBACK_PARMS)
  {
    hide LengthsDecide;
    LeavesDecide();
    Decide1(U32);
    Decide1(Vec(U32));
    Decide2(U32, Fixed(12));
    Decide2(BITMAP, Opaque);
    Decide2(I64, U32);
    Decide3(Text, Text, TIME);
    Decide7(U32, U32, U32, U32, U32, U32, Vec(U32));
    Decide2(Fixed(8), Opaque);
    Decide2(U64, Opaque);
    Decide2(U32, U32);
  }

  lemma {:induction false} ArgumentsDecide(k: nat)
    requires k < 18
    ensures LengthsDecide(ArgBody(k))
  {
    hide LengthsDecide;
    LeavesDecide();
    PartsDecide();
    UnionsDecide();
    match k {
      case 1 => Decide1(Opaque);
      case 4 => Decide1(BITMAP);
      case 5 => Decide2(STATE_ID, FATTR);
      case 6 => Decide6(U32, U32, U32, OPEN_OWNER, OPEN_FLAG, OPEN_CLAIM);
      case 7 => Decide2(U32, STATE_ID);
      case 8 => Decide3(STATE_ID, U64, U32);
      case 9 => Decide4(STATE_ID, U64, U32, Opaque);
      case 10 => Decide5(U64, Fixed(8), U32, U32, BITMAP);
      case 12 => Decide2(Text, Text);
      case 13 =>
        Decide1(IMPL_ID);
        Decide4(CLIENT_OWNER, U32, PROTECT_ARG, Vec(IMPL_ID));
      case 14 =>
        Decide1(CALLBACK_PARMS);
        Decide7(U64, U32, U32, CHANNEL_ATTRS, CHANNEL_ATTRS, U32, Vec(CALLBACK_PARMS));
      case 15 => Decide1(Fixed(16));
      case 16 => Decide5(Fixed(16), U32, U32, U32, Bool);
      case 17 => Decide1(Bool);
      case _ => Decide1(Text);
    }
  }

  lemma {:induction false} OperationsDecide()
    requires forall k | 0 <= k < |ArgArms()| :: Unshadowed(ArgArms(), k) && LengthsDecide(ArgArms()[k].body)
    ensures LengthsDecide(ARG_OP)
  {
    hide ArgArms;
  }

  lemma {:induction false} RequestsDecide()
    ensures LengthsDecide(COMPOUND_ARGS)
  {
    hide LengthsDecide, ArgArms, ArgBody, OpAt;
    ArgUnshadowed(0);
    forall k | 0 <= k < |ArgArms()|
      ensures Unshadowed(ArgArms(), k) && LengthsDecide(ArgArms()[k].body)
    {
      ArgUnshadowed(k);
      ArgArmAt(k);
      ArgumentsDecide(k);
    }
    OperationsDecide();
    Decide1(ARG_OP);
    LeavesDecide();
    Decide3(Text, U32, Vec(ARG_OP));
  }

  /** A request is written exactly when its lengths fit; otherwise encoding it fails with
      LengthExceeded. */
  lemma {:induction false} RequestWrittenIff(args: Compound4args)
    ensures if ArgsFit(args) then EncodeArgs(args).Wrote? else TooLong(EncodeArgs(args))
  {
    hide HasType, WellFormed, Encode, LengthsDecide, LengthsFit, ArgsValue, ArgsFit, ArgArms;
    ArgsFormed(args);
    RequestsDecide();
    FormedIsFitting(COMPOUND_ARGS, ArgsValue(args));
    WrittenIff(COMPOUND_ARGS, ArgsValue(args));
  }
}
