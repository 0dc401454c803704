/** What the decoders make of bytes that no encoder writes: any padding, words out of
    range, unknown codes, foreign messages and credentials. With the round trips and the
    layouts, this fixes every verdict. */
module Verdicts {
  import opened Wire
  import opened Xdr
  import opened XdrStructs
  import opened Rpc
  import opened Nfs4Types
  import opened OpenChoices
  import opened WireForms
  import Laws = XdrLaws

  /** The bytes up to a multiple of four. */
  function Gap(n: nat): nat { match n % 4 case 0 => 0 case 1 => 3 case 2 => 2 case _ => 1 }

  lemma {:induction false} WordRead(n: u32, rest: seq<byte>)
    ensures DecodeU32(W32(n) + rest) == Got(n, rest)
  {
    hide BigEndian32, W32, Word32;
    WordShows(n);
    Word32OfBigEndian(n, rest);
  }

  lemma {:induction false} TooShort(b: seq<byte>, n: nat)
    ensures |b| < 4 ==> Decode(U32, b) == Failed(BufferTooShort(4, |b|), b)
    ensures |b| < 4 ==> Decode(Opaque, b) == Failed(BufferTooShort(4, |b|), b)
    ensures |b| < 8 ==> Decode(U64, b) == Failed(BufferTooShort(8, |b|), b)
    ensures |b| < n ==> Decode(Fixed(n), b) == Failed(BufferTooShort(n, |b|), b)
  {
  }

  /** Padding is skipped, whatever it is; what there must be of it counts for the length. */
  lemma {:induction false} OpaqueRead(n: u32, r: seq<byte>)
    ensures DecodeOpaque(W32(n) + r) ==
            if |r| < n + Gap(n) then Failed(BufferTooShort(n + Gap(n), |r|), r) else Got(r[..n], r[n + Gap(n)..])
  {
    hide DecodeU32, W32;
    WordRead(n, r);
    assert Padding(n) == Gap(n);
  }

  lemma {:induction false} StringVerdicts(d: seq<byte>, pad: seq<byte>, rest: seq<byte>, max: u32)
    requires Fits(d) && |pad| == Gap(|d|)
    ensures var b := W32(|d|) + (d + pad + rest);
      && Decode(Opaque, b) == Got(Data(d), rest)
      && Decode(Text, b) == (if ValidUtf8(d) then Got(Data(d), rest) else Failed(StringNotUtf8, rest))
      && Decode(Handle(max), b)
         == if |d| > max then Failed(LengthExceeded(max, |d|), rest) else Got(Data(d), rest)
  {
    hide DecodeOpaque, W32, ValidUtf8;
    var r := d + pad + rest;
    OpaqueRead(|d|, r);
    assert r[..|d|] == d && r[|d| + Gap(|d|)..] == rest;
  }

  lemma {:induction false} WordVerdicts(n: u32, rest: seq<byte>, name: string, codes: set<int>, arms: seq<Arm>,
      elem: Ty)
    ensures var b := W32(n) + rest;
      && Decode(Bool, b) == (if n == 0 then Got(Flag(false), rest) else if n == 1 then Got(Flag(true), rest)
                             else Failed(InvalidBool(n), rest))
      && (n > 1 ==> Decode(Opt(elem), b) == Failed(InvalidBool(n), rest))
      && (n !in codes ==> Decode(Codes(name, codes), b) == Failed(InvalidEnum(n, name), rest))
      && ((forall i | 0 <= i < |arms| :: arms[i].discriminant != n) ==>
            Decode(Enum(name, arms), b) == Failed(InvalidEnum(n, name), rest))
  {
    hide DecodeU32, W32;
    WordRead(n, rest);
  }

  /** A negative number comes back negative. */
  lemma {:induction false} SignedRead(n: u32, rest: seq<byte>)
    ensures Decode(I32, W32(n) + rest) == Got(Num(if n < 0x8000_0000 then n else n - 0x1_0000_0000), rest)
  {
    hide DecodeU32, W32;
    WordRead(n, rest);
  }

  /** The codes of NfsStat4, by ranges. */
  predicate KnownStatus(n: u32) {
    || n <= 2 || 5 <= n <= 6 || n == 13 || 17 <= n <= 18 || 20 <= n <= 22 || 27 <= n <= 28 || 30 <= n <= 31
    || n == 63 || n == 66 || 69 <= n <= 70 || n == 10001 || 10003 <= n <= 10016 || 10019 <= n <= 10026
    || n == 10029 || n == 10032 || n == 10036 || n == 10038 || n == 10044 || 10047 <= n <= 10048
    || 10052 <= n <= 10055 || 10063 <= n <= 10071 || 10076 <= n <= 10078
  }

  /** All of them are read. */
  lemma {:induction false} StatusRead(n: u32, rest: seq<byte>)
    requires KnownStatus(n)
    ensures Decode(STAT, W32(n) + rest) == Got(Num(n), rest)
  {
    hide DecodeU32, W32, StatusCodes;
    WordRead(n, rest);
    KnownCodes(n);
  }

  lemma {:induction false} KnownCodes(n: u32)
    requires KnownStatus(n)
    ensures n in StatusCodes()
  {
    if n <= 70 {
      assert n in StatusCodes();
    } else if n <= 10016 {
      assert n in StatusCodes();
    } else if n <= 10044 {
      assert n in StatusCodes();
    } else {
      assert n in StatusCodes();
    }
  }

  /** The unions with one choice, and OPEN's two, take their discriminants and report any
      other under their own names. */
  lemma {:induction false} ChoiceVerdicts(n: u32, rest: seq<byte>)
    ensures Decode(DELEGATION, W32(n) + rest)
            == if n == 0 then Got(SP_NONE, rest) else Failed(InvalidEnum(n, "OpenDelegation4"), rest)
    ensures Decode(STATE_PROTECT, W32(n) + rest)
            == if n == 0 then Got(SP_NONE, rest) else Failed(InvalidEnum(n, "StateProtect4r"), rest)
    ensures n > 1 ==> DecodeFlag(W32(n) + rest) == Failed(InvalidEnum(n, "OpenFlag4"), rest)
    ensures n > 0 ==> DecodeFlag(W32(1) + (W32(n) + rest)) == Failed(InvalidEnum(n, "createhow4"), rest)
    ensures n != 0 && n != 4 ==> DecodeClaim(W32(n) + rest) == Failed(InvalidEnum(n, "OpenClaim4"), rest)
  {
    hide DecodeU32, W32, DecodeOpaque, FATTR;
    WordRead(n, rest);
    TwoWordsRead(1, n, rest);
    assert Decode(Unit, rest) == Got(Nil, rest);
  }

  // ----------------------------------------------------------------- messages

  lemma {:induction false} TwoWordsRead(a: u32, b: u32, rest: seq<byte>)
    ensures DecodeU32(W32(a) + (W32(b) + rest)) == Got(a, W32(b) + rest)
    ensures DecodeU32(W32(b) + rest) == Got(b, rest)
  {
    WordRead(a, W32(b) + rest);
    WordRead(b, rest);
  }

  /** A message that is no reply, or no accepted one, is refused with the word that says so. */
  lemma {:induction false} ReplyRefused(xid: u32, kind: u32, stat: u32, rest: seq<byte>)
    ensures kind != 1 ==>
              DecodeReply(W32(xid) + (W32(kind) + rest))
              == Failed(InvalidEnum(kind, "MsgType (expected REPLY=1)"), rest)
    ensures stat != 0 ==>
              DecodeReply(W32(xid) + (W32(1) + (W32(stat) + rest)))
              == Failed(InvalidEnum(stat, "ReplyStat (expected ACCEPTED=0)"), rest)
  {
    hide DecodeU32, W32, DecodeAuth, DecodeStatus;
    TwoWordsRead(xid, kind, rest);
    TwoWordsRead(xid, 1, W32(stat) + rest);
    WordRead(stat, rest);
  }

  /** A message that is no call, or not of RPC version 2, likewise. */
  lemma {:induction false} CallRefused(xid: u32, kind: u32, version: u32, rest: seq<byte>)
    ensures kind != 0 ==>
              DecodeCall(W32(xid) + (W32(kind) + rest))
              == Failed(InvalidEnum(kind, "MsgType (expected CALL=0)"), rest)
    ensures version != 2 ==>
              DecodeCall(W32(xid) + (W32(0) + (W32(version) + rest)))
              == Failed(InvalidEnum(version, "RpcVersion (expected 2)"), rest)
  {
    hide DecodeU32, W32, DecodeAuth;
    TwoWordsRead(xid, kind, rest);
    TwoWordsRead(xid, 0, W32(version) + rest);
    WordRead(version, rest);
  }

  lemma {:induction false} StatusRefused(code: u32, rest: seq<byte>)
    ensures code > 5 ==> DecodeStatus(W32(code) + rest) == Failed(InvalidEnum(code, "AcceptStatus"), rest)
  {
    hide DecodeU32, W32;
    WordRead(code, rest);
  }

  /** Any flavor but AUTH_SYS is skipped, body and all, and read as none. One that
      announces more than there is aborts the decoder when it is AUTH_NONE, and is too
      short otherwise. */
  lemma {:induction false} OtherFlavors(flavor: u32, n: u32, r: seq<byte>)
    requires flavor != 1
    ensures DecodeAuth(W32(flavor) + (W32(n) + r)) ==
            if n <= |r| then Got(NoAuth, r[n..])
            else Failed(if flavor == 0 then Panic else BufferTooShort(n, |r|), r)
  {
    hide DecodeU32, W32, Decode, HasType;
    TwoWordsRead(flavor, n, r);
  }

  /** AUTH_SYS reads its five fields and pays no attention to its length word. */
  lemma {:induction false} SysLength(n: u32, s: AuthSys, rest: seq<byte>)
    requires Fits(s.machineName) && Fits(s.gids)
    ensures Encode(SYS_BODY, SysValue(s)).Wrote?
    ensures DecodeAuth(W32(1) + (W32(n) + (Encode(SYS_BODY, SysValue(s)).bytes + rest))) == Got(Sys(s), rest)
  {
    hide DecodeU32, W32, Decode, Encode, HasType, WellFormed, SysValue, SysOf;
    var body := Encode(SYS_BODY, SysValue(s)).bytes;
    SysWrittenIff(s);
    Laws.RoundTrip(SYS_BODY, SysValue(s), rest);
    TwoWordsRead(1, n, body + rest);
    Laws.Sound(SYS_BODY, body + rest);
    SysInjective(SysOf(SysValue(s)), s);
  }
}
