/** COMPOUND4res: the dispatch over the 18 operation results and the codec of the
    whole response, on the typed values of Nfs4Types. */
module Compound {
  import opened Wire
  import opened Xdr
  import opened XdrCodec
  import opened XdrStructs
  import opened Nfs4Types
  import opened ResultValues
  import Laws = XdrLaws

  // -------------------------------------------------- from values to results

  lemma {:induction false} FieldsResOp(v: Value)
    requires HasType(RES_OP, v)
    ensures v.Variant? && v.index < 18 && HasType(BodyAt(v.index), v.payload)
  {
    hide StatusCodes, IsStatus, ValidUtf8;
    assert |ResArms()| == 18;
    ArmAt(v.index);
  }

  /** The result that arm k makes of its decoded payload. */
  function ResOpAt(k: nat, p: Value): NfsResOp4
    requires k < 18 && HasType(BodyAt(k), p)
  {
    hide HasType, StatusCodes, IsStatus, ValidUtf8;
    match k
    case 0 => PutRootFh(StatusOf(p))
    case 1 => PutFh(StatusOf(p))
    case 2 => Lookup(StatusOf(p))
    case 3 => GetFh(ResOf(FILE_HANDLE, p, FhOf))
    case 4 => GetAttr(ResOf(GETATTR_OK, p, GetAttrOf))
    case 5 => SetAttr(ResOf(SETATTR_OK, p, SetAttrOf))
    case 6 => Open(ResOf(OPEN_OK, p, OpenOf))
    case 7 => Close(ResOf(CLOSE_OK, p, CloseOf))
    case 8 => Read(ResOf(READ_OK, p, ReadOf))
    case 9 => Write(ResOf(WRITE_OK, p, WriteOf))
    case 10 => ReadDir(ResOf(READDIR_OK, p, ReadDirOf))
    case 11 => Remove(ResOf(REMOVE_OK, p, RemoveOf))
    case 12 => Rename(ResOf(RENAME_OK, p, RenameOf))
    case 13 => ExchangeId(ResOf(EXCHANGE_ID_OK, p, ExchangeIdOf))
    case 14 => CreateSession(ResOf(CREATE_SESSION_OK, p, CreateSessionOf))
    case 15 => DestroySession(StatusOf(p))
    case 16 => Sequence(ResOf(SEQUENCE_OK, p, SequenceOf))
    case _ => ReclaimComplete(StatusOf(p))
  }

  lemma {:induction false} ResOpAtFirst(k: nat, p: Value)
    requires k < 7 && HasType(BodyAt(k), p)
    ensures ArmIndex(ResOpAt(k, p)) == k && Payload(ResOpAt(k, p)) == p
  {
    hide HasType, StatusCodes, IsStatus, ValidUtf8, ResValue, ResOf, FhValue, FhOf, GetAttrValue, GetAttrOf,
      SetAttrValue, SetAttrOf, OpenValue, OpenOf;
    match k {
      case 0 =>
      case 1 =>
      case 2 =>
      case 3 => ResOfValue(FILE_HANDLE, p, FhOf, FhValue);
      case 4 => ResOfValue(GETATTR_OK, p, GetAttrOf, GetAttrValue);
      case 5 => ResOfValue(SETATTR_OK, p, SetAttrOf, SetAttrValue);
      case _ => ResOfValue(OPEN_OK, p, OpenOf, OpenValue);
    }
  }

  lemma {:induction false} ResOpAtMiddle(k: nat, p: Value)
    requires 7 <= k < 12 && HasType(BodyAt(k), p)
    ensures ArmIndex(ResOpAt(k, p)) == k && Payload(ResOpAt(k, p)) == p
  {
    hide HasType, StatusCodes, IsStatus, ValidUtf8, ResValue, ResOf, CloseValue, CloseOf, ReadValue, ReadOf,
      WriteValue, WriteOf, ReadDirValue, ReadDirOf, RemoveValue, RemoveOf;
    match k {
      case 7 => ResOfValue(CLOSE_OK, p, CloseOf, CloseValue);
      case 8 => ResOfValue(READ_OK, p, ReadOf, ReadValue);
      case 9 => ResOfValue(WRITE_OK, p, WriteOf, WriteValue);
      case 10 => ResOfValue(READDIR_OK, p, ReadDirOf, ReadDirValue);
      case _ => ResOfValue(REMOVE_OK, p, RemoveOf, RemoveValue);
    }
  }

  lemma {:induction false} ResOpAtLast(k: nat, p: Value)
    requires 12 <= k < 18 && HasType(BodyAt(k), p)
    ensures ArmIndex(ResOpAt(k, p)) == k && Payload(ResOpAt(k, p)) == p
  {
    hide HasType, StatusCodes, IsStatus, ValidUtf8, ResValue, ResOf, RenameValue, RenameOf, ExchangeIdValue,
      ExchangeIdOf, CreateSessionValue, CreateSessionOf, SequenceValue, SequenceOf;
    match k {
      case 12 => ResOfValue(RENAME_OK, p, RenameOf, RenameValue);
      case 13 => ResOfValue(EXCHANGE_ID_OK, p, ExchangeIdOf, ExchangeIdValue);
      case 14 => ResOfValue(CREATE_SESSION_OK, p, CreateSessionOf, CreateSessionValue);
      case 15 =>
      case 16 => ResOfValue(SEQUENCE_OK, p, SequenceOf, SequenceValue);
      case _ =>
    }
  }

  lemma {:induction false} ResOpAtValue(k: nat, p: Value)
    requires k < 18 && HasType(BodyAt(k), p)
    ensures ArmIndex(ResOpAt(k, p)) == k && Payload(ResOpAt(k, p)) == p
  {
    hide HasType, StatusCodes, IsStatus, ValidUtf8, ResOpAt, BodyAt, Payload;
    if k < 7 {
      ResOpAtFirst(k, p);
    } else if k < 12 {
      ResOpAtMiddle(k, p);
    } else {
      ResOpAtLast(k, p);
    }
  }

  function ResOpOf(v: Value): (op: NfsResOp4)
    requires HasType(RES_OP, v)
    ensures ResOpValue(op) == v
  {
    FieldsResOp(v);
    ResOpAtValue(v.index, v.payload);
    ResOpAt(v.index, v.payload)
  }

  // ---------------------------------------------- one result: what it is on the wire

  function EncodeResOp(op: NfsResOp4): Encoded {
    Encode(RES_OP, ResOpValue(op))
  }

  function DecodeResOp(b: seq<byte>): (r: Decoded<NfsResOp4>)
    ensures |r.rest| <= |b|
  {
    hide HasType, StatusCodes, Encode, IsStatus, ValidUtf8;
    match Decode(RES_OP, b)
    case Failed(e, rest) => Failed(e, rest)
    case Got(v, rest) =>
      Laws.Sound(RES_OP, b);
      Got(ResOpOf(v), rest)
  }

  lemma {:induction false} EncodeResOpIs(op: NfsResOp4)
    ensures HasType(BodyAt(ArmIndex(op)), Payload(op))
    ensures EncodeResOp(op)
            == Wrote(BigEndian32(OpAt(ArmIndex(op)))).Then(Encode(BodyAt(ArmIndex(op)), Payload(op)))
  {
    hide HasType, StatusCodes, BigEndian32, BodyAt, OpAt, Payload, ResArms, IsStatus, ValidUtf8;
    PayloadTyped(op);
    ArmAt(ArmIndex(op));
  }

  /** The opcode of arm k selects arm k. */
  lemma {:induction false} OpcodeSelects(k: nat)
    requires k < 18
    ensures FirstArm(ResArms(), OpAt(k)) == k
  {
    hide StatusCodes, IsStatus, ValidUtf8;
    OpcodesDistinct();
    forall i | 0 <= i <= k
      ensures ResArms()[i].discriminant == OpAt(i)
    {
      ArmAt(i);
    }
  }

  /** Behind the opcode of arm k, the result is decoded by arm k. */
  lemma {:induction false} DecodeResOpAt(b: seq<byte>, k: nat)
    requires k < 18 && DecodeU32(b).Got? && DecodeU32(b).value == OpAt(k)
    ensures match Decode(BodyAt(k), DecodeU32(b).rest)
      case Failed(e, rest) => DecodeResOp(b) == Failed(e, rest)
      case Got(v, rest) => HasType(BodyAt(k), v) && DecodeResOp(b) == Got(ResOpAt(k, v), rest)
  {
    hide HasType, StatusCodes, BodyAt, OpAt, ResOpAt, ResArms, DecodeU32, IsStatus, ValidUtf8;
    OpcodeSelects(k);
    ArmAt(k);
    var r := DecodeU32(b).rest;
    if Decode(BodyAt(k), r).Got? {
      Laws.Sound(BodyAt(k), r);
    }
  }

  lemma {:induction false} DecodeResOpUnknown(b: seq<byte>)
    requires DecodeU32(b).Got? && forall k | 0 <= k < 18 :: DecodeU32(b).value != OpAt(k)
    ensures DecodeResOp(b) == Failed(InvalidEnum(DecodeU32(b).value, "NfsResOp4"), DecodeU32(b).rest)
  {
    hide HasType, StatusCodes, OpAt, DecodeU32, IsStatus, ValidUtf8;
    OpcodesDistinct();
    var k := FirstArm(ResArms(), DecodeU32(b).value);
    if k < 18 {
      ArmAt(k);
    }
  }

  // ---------------------------------------------------- one result: the dispatch

  /** The two calls of every encoder arm: the opcode, then the result. */
  method EncodeTagged(ghost op: NfsResOp4, opnum: u32, ty: Ty, v: Value, buf: BytesMut) returns (r: Result<()>)
    requires opnum == OpAt(ArmIndex(op)) && ty == BodyAt(ArmIndex(op)) && v == Payload(op)
    modifies buf
    ensures r == EncodeResOp(op).Verdict()
    ensures buf.data == old(buf.data) + EncodeResOp(op).bytes
  {
    hide HasType, Encode, EncodeResOp, BigEndian32, OpAt, BodyAt, Payload, StatusCodes, IsStatus, ValidUtf8;
    EncodeResOpIs(op);
    buf.PutU32(opnum);
    r := EncodeInto(ty, v, buf);
  }

  method EncodeResOpInto(op: NfsResOp4, buf: BytesMut) returns (r: Result<()>)
    modifies buf
    ensures r == EncodeResOp(op).Verdict()
    ensures buf.data == old(buf.data) + EncodeResOp(op).bytes
  {
    hide Encoded.Then, BodyAt, OpAt, S1, S2, S3, S5, S6, S7, HasType, StatusCodes, BigEndian32, Encode, EncodeResOp,
      ResValue, IsStatus, ValidUtf8;
    FirstBodies();
    SecondBodies();
    ThirdBodies();
    LastBodies();
    Opcodes();
    match op {
      case PutRootFh(s) => r := EncodeTagged(op, OP_PUTROOTFH, STAT, Num(s), buf);
      case PutFh(s) => r := EncodeTagged(op, OP_PUTFH, STAT, Num(s), buf);
      case Lookup(s) => r := EncodeTagged(op, OP_LOOKUP, STAT, Num(s), buf);
      case GetFh(res) => r := EncodeTagged(op, OP_GETFH, Guarded(STAT, FILE_HANDLE), ResValue(res, FhValue), buf);
      case GetAttr(res) => r := EncodeTagged(op, OP_GETATTR, Guarded(STAT, GETATTR_OK), ResValue(res,
          GetAttrValue), buf);
      case SetAttr(res) => r := EncodeTagged(op, OP_SETATTR, Guarded(STAT, SETATTR_OK), ResValue(res,
          SetAttrValue), buf);
      case Open(res) => r := EncodeTagged(op, OP_OPEN, Guarded(STAT, OPEN_OK), ResValue(res, OpenValue), buf);
      case Close(res) => r := EncodeTagged(op, OP_CLOSE, Guarded(STAT, CLOSE_OK), ResValue(res, CloseValue), buf);
      case Read(res) => r := EncodeTagged(op, OP_READ, Guarded(STAT, READ_OK), ResValue(res, ReadValue), buf);
      case Write(res) => r := EncodeTagged(op, OP_WRITE, Guarded(STAT, WRITE_OK), ResValue(res, WriteValue), buf);
      case ReadDir(res) => r := EncodeTagged(op, OP_READDIR, Guarded(STAT, READDIR_OK), ResValue(res,
          ReadDirValue), buf);
      case Remove(res) => r := EncodeTagged(op, OP_REMOVE, Guarded(STAT, REMOVE_OK), ResValue(res, RemoveValue), buf);
      case Rename(res) => r := EncodeTagged(op, OP_RENAME, Guarded(STAT, RENAME_OK), ResValue(res, RenameValue), buf);
      case ExchangeId(res) =>
        r := EncodeTagged(op, OP_EXCHANGE_ID, Guarded(STAT, EXCHANGE_ID_OK),
                          ResValue(res, ExchangeIdValue), buf);
      case CreateSession(res) =>
        r := EncodeTagged(op, OP_CREATE_SESSION, Guarded(STAT, CREATE_SESSION_OK),
                          ResValue(res, CreateSessionValue), buf);
      case DestroySession(s) => r := EncodeTagged(op, OP_DESTROY_SESSION, STAT, Num(s), buf);
      case Sequence(res) => r := EncodeTagged(op, OP_SEQUENCE, Guarded(STAT, SEQUENCE_OK), ResValue(res,
          SequenceValue), buf);
      case ReclaimComplete(s) => r := EncodeTagged(op, OP_RECLAIM_COMPLETE, STAT, Num(s), buf);
    }
  }

  method DecodeResOpFrom(buf: Bytes) returns (r: Result<NfsResOp4>)
    modifies buf
    ensures r == DecodeResOp(old(buf.data)).Verdict()
    ensures buf.data == DecodeResOp(old(buf.data)).rest
  {
    hide HasType, StatusCodes, Decode, DecodeU32, DecodeResOp, ResOf, IsStatus, ValidUtf8;
    ghost var b := buf.data;
    var opnum :- DecodeHeadFrom(buf);
    match opnum {
      case 24 => // OP_PUTROOTFH
        DecodeResOpAt(b, 0);
        var v :- DecodeFrom(STAT, buf);
        return Ok(PutRootFh(StatusOf(v)));
      case 22 => // OP_PUTFH
        DecodeResOpAt(b, 1);
        var v :- DecodeFrom(STAT, buf);
        return Ok(PutFh(StatusOf(v)));
      case 15 => // OP_LOOKUP
        DecodeResOpAt(b, 2);
        var v :- DecodeFrom(STAT, buf);
        return Ok(Lookup(StatusOf(v)));
      case 10 => // OP_GETFH
        DecodeResOpAt(b, 3);
        var v :- DecodeFrom(Guarded(STAT, FILE_HANDLE), buf);
        return Ok(GetFh(ResOf(FILE_HANDLE, v, FhOf)));
      case 9 => // OP_GETATTR
        DecodeResOpAt(b, 4);
        var v :- DecodeFrom(Guarded(STAT, GETATTR_OK), buf);
        return Ok(GetAttr(ResOf(GETATTR_OK, v, GetAttrOf)));
      case 34 => // OP_SETATTR
        DecodeResOpAt(b, 5);
        var v :- DecodeFrom(Guarded(STAT, SETATTR_OK), buf);
        return Ok(SetAttr(ResOf(SETATTR_OK, v, SetAttrOf)));
      case 18 => // OP_OPEN
        DecodeResOpAt(b, 6);
        var v :- DecodeFrom(Guarded(STAT, OPEN_OK), buf);
        return Ok(Open(ResOf(OPEN_OK, v, OpenOf)));
      case 4 => // OP_CLOSE
        DecodeResOpAt(b, 7);
        var v :- DecodeFrom(Guarded(STAT, CLOSE_OK), buf);
        return Ok(Close(ResOf(CLOSE_OK, v, CloseOf)));
      case 25 => // OP_READ
        DecodeResOpAt(b, 8);
        var v :- DecodeFrom(Guarded(STAT, READ_OK), buf);
        return Ok(Read(ResOf(READ_OK, v, ReadOf)));
      case 38 => // OP_WRITE
        DecodeResOpAt(b, 9);
        var v :- DecodeFrom(Guarded(STAT, WRITE_OK), buf);
        return Ok(Write(ResOf(WRITE_OK, v, WriteOf)));
      case 26 => // OP_READDIR
        DecodeResOpAt(b, 10);
        var v :- DecodeFrom(Guarded(STAT, READDIR_OK), buf);
        return Ok(ReadDir(ResOf(READDIR_OK, v, ReadDirOf)));
      case 28 => // OP_REMOVE
        DecodeResOpAt(b, 11);
        var v :- DecodeFrom(Guarded(STAT, REMOVE_OK), buf);
        return Ok(Remove(ResOf(REMOVE_OK, v, RemoveOf)));
      case 29 => // OP_RENAME
        DecodeResOpAt(b, 12);
        var v :- DecodeFrom(Guarded(STAT, RENAME_OK), buf);
        return Ok(Rename(ResOf(RENAME_OK, v, RenameOf)));
      case 42 => // OP_EXCHANGE_ID
        DecodeResOpAt(b, 13);
        var v :- DecodeFrom(Guarded(STAT, EXCHANGE_ID_OK), buf);
        return Ok(ExchangeId(ResOf(EXCHANGE_ID_OK, v, ExchangeIdOf)));
      case 43 => // OP_CREATE_SESSION
        DecodeResOpAt(b, 14);
        var v :- DecodeFrom(Guarded(STAT, CREATE_SESSION_OK), buf);
        return Ok(CreateSession(ResOf(CREATE_SESSION_OK, v, CreateSessionOf)));
      case 44 => // OP_DESTROY_SESSION
        DecodeResOpAt(b, 15);
        var v :- DecodeFrom(STAT, buf);
        return Ok(DestroySession(StatusOf(v)));
      case 53 => // OP_SEQUENCE
        DecodeResOpAt(b, 16);
        var v :- DecodeFrom(Guarded(STAT, SEQUENCE_OK), buf);
        return Ok(Sequence(ResOf(SEQUENCE_OK, v, SequenceOf)));
      case 58 => // OP_RECLAIM_COMPLETE
        DecodeResOpAt(b, 17);
        var v :- DecodeFrom(STAT, buf);
        return Ok(ReclaimComplete(StatusOf(v)));
      case other =>
        DecodeResOpUnknown(b);
        return Err(InvalidEnum(other, "NfsResOp4"));
    }
  }

  method DecodeHeadFrom(buf: Bytes) returns (r: Result<u32>)
    modifies buf
    ensures match DecodeU32(old(buf.data))
      case Got(n, rest) => r == Ok(n) && buf.data == rest
      case Failed(e, rest) =>
        r == Err(e) && buf.data == rest && DecodeResOp(old(buf.data)) == Failed(e, rest)
  {
    hide HasType, StatusCodes, ResArms, IsStatus, ValidUtf8;
    r := DecodeU32From(buf);
  }

  // ------------------------------------------------------ the whole response

  function ResultsValue(ops: seq<NfsResOp4>): (v: Value)
    ensures HasType(Vec(RES_OP), v)
  {
    List(seq(|ops|, i requires 0 <= i < |ops| => ResOpValue(ops[i])))
  }

  function ResultsOf(v: Value): (ops: seq<NfsResOp4>)
    requires HasType(Vec(RES_OP), v)
    ensures ResultsValue(ops) == v
  {
    hide StatusCodes, ResArms, ResOpValue, ResOpOf, IsStatus, ValidUtf8;
    var ops := seq(|v.vs|, i requires 0 <= i < |v.vs| => ResOpOf(v.vs[i]));
    assert ResultsValue(ops).vs == v.vs;
    ops
  }

  function CompoundValue(res: Compound4res): (v: Value)
    ensures HasType(COMPOUND_RES, v)
  {
    hide HasType, StatusCodes, IsStatus, ValidUtf8;
    StatusTyped(res.status);
    TextTyped(res.tag);
    Typed3(STAT, Text, Vec(RES_OP), Num(res.status), Data(res.tag), ResultsValue(res.resarray));
    V3(Num(res.status), Data(res.tag), ResultsValue(res.resarray))
  }

  function CompoundOf(v: Value): (res: Compound4res)
    requires HasType(COMPOUND_RES, v)
    ensures CompoundValue(res) == v
  {
    hide HasType, StatusCodes, ResultsValue, IsStatus, ValidUtf8;
    Fields3(STAT, Text, Vec(RES_OP), v);
    TextOf(v.y.x);
    Compound4res(StatusOf(v.x), v.y.x.d, ResultsOf(v.y.y.x))
  }

  lemma {:induction false} CompoundInjective(x: Compound4res, y: Compound4res)
    requires CompoundValue(x) == CompoundValue(y)
    ensures x == y
  {
    hide HasType, StatusCodes, ResOpValue, IsStatus, ValidUtf8;
    var xs, ys := ResultsValue(x.resarray).vs, ResultsValue(y.resarray).vs;
    assert xs == ys && |xs| == |x.resarray| && |ys| == |y.resarray|;
    forall i | 0 <= i < |x.resarray|
      ensures x.resarray[i] == y.resarray[i]
    {
      assert xs[i] == ResOpValue(x.resarray[i]) && ys[i] == ResOpValue(y.resarray[i]);
      ResOpInjective(x.resarray[i], y.resarray[i]);
    }
  }

  function EncodeCompound(res: Compound4res): Encoded {
    Encode(COMPOUND_RES, CompoundValue(res))
  }

  function DecodeCompound(b: seq<byte>): (r: Decoded<Compound4res>)
    ensures |r.rest| <= |b|
  {
    hide HasType, StatusCodes, Encode, IsStatus, ValidUtf8;
    match Decode(COMPOUND_RES, b)
    case Failed(e, rest) => Failed(e, rest)
    case Got(v, rest) =>
      Laws.Sound(COMPOUND_RES, b);
      Got(CompoundOf(v), rest)
  }

  method EncodeCompoundInto(res: Compound4res, buf: BytesMut) returns (r: Result<()>)
    modifies buf
    ensures r == EncodeCompound(res).Verdict()
    ensures buf.data == old(buf.data) + EncodeCompound(res).bytes
  {
    hide HasType, StatusCodes, Encode, ResArms, ResOpValue, BigEndian32, IsStatus, ValidUtf8;
    var n := |res.resarray|;
    ghost var vs := ResultsValue(res.resarray).vs;
    StatusTyped(res.status);
    TextTyped(res.tag);
    CompoundParts(res);
    var _ :- EncodeInto(STAT, Num(res.status), buf);
    var _ :- EncodeInto(Text, Data(res.tag), buf);
    if n >= MAX_LEN {
      return Err(LengthExceeded(0xFFFF_FFFF, 0));
    }
    buf.PutU32(n);
    r := EncodeResultsInto(res.resarray, buf);
  }

  lemma {:induction false} CompoundParts(res: Compound4res)
    ensures HasType(STAT, Num(res.status)) && HasType(Text, Data(res.tag))
    ensures var vs := ResultsValue(res.resarray).vs;
      |vs| == |res.resarray| && (forall i | 0 <= i < |vs| :: HasType(RES_OP, vs[i]))
      && EncodeCompound(res)
         == Encode(STAT, Num(res.status)).Then(Encode(Text, Data(res.tag)).Then(
              if |vs| >= MAX_LEN then Stuck(LengthExceeded(0xFFFF_FFFF, 0), [])
              else Wrote(BigEndian32(|vs|)).Then(EncodeItems(RES_OP, vs))))
  {
    hide StatusCodes, ResArms, ResOpValue, BigEndian32, IsStatus, ValidUtf8;
    StatusTyped(res.status);
    TextTyped(res.tag);
    var results := ResultsValue(res.resarray);
    assert HasType(Vec(RES_OP), results);
    EncodeStruct3(STAT, Text, Vec(RES_OP), Num(res.status), Data(res.tag), results);
  }

  /** The loop over the results: each one goes through the dispatch. */
  method EncodeResultsInto(ops: seq<NfsResOp4>, buf: BytesMut) returns (r: Result<()>)
    modifies buf
    ensures var e := EncodeItems(RES_OP, ResultsValue(ops).vs);
      r == e.Verdict() && buf.data == old(buf.data) + e.bytes
  {
    hide HasType, StatusCodes, Encode, EncodeItems, ResArms, ResOpValue, Encoded.Then, IsStatus, ValidUtf8;
    ghost var vs := ResultsValue(ops).vs;
    ghost var done: seq<byte> := [];
    assert vs[0..] == vs;
    AfterNothing(EncodeItems(RES_OP, vs));
    for i := 0 to |ops|
      invariant buf.data == old(buf.data) + done
      invariant EncodeItems(RES_OP, vs) == Wrote(done).Then(EncodeItems(RES_OP, vs[i..]))
    {
      ItemsLink(RES_OP, vs, i);
      assert vs[i] == ResOpValue(ops[i]);
      ghost var item := EncodeResOp(ops[i]);
      ThenAssociative(done, item, EncodeItems(RES_OP, vs[i + 1..]));
      AppendAssociative(old(buf.data), done, item.bytes);
      var _ :- EncodeResOpInto(ops[i], buf);
      done := done + item.bytes;
    }
    ItemsEnd(RES_OP, done);
    assert vs[|vs|..] == [];
    return Ok(());
  }

  method DecodeCompoundFrom(buf: Bytes) returns (r: Result<Compound4res>)
    modifies buf
    ensures r == DecodeCompound(old(buf.data)).Verdict()
    ensures buf.data == DecodeCompound(old(buf.data)).rest
  {
    hide HasType, StatusCodes, Decode, DecodeU32, DecodeResults, DecodeCompound, ValidUtf8, IsStatus;
    DecodeParts(buf.data);
    var status :- DecodeFrom(STAT, buf);
    var tag :- DecodeFrom(Text, buf);
    var n :- DecodeU32From(buf);
    var results :- DecodeResultsFrom(n, buf);
    return Ok(Compound4res(StatusOf(status), tag.d, results));
  }

  /** The results one after another, as the decoding loop finds them. */
  function DecodeResults(n: nat, b: seq<byte>): (r: Decoded<seq<NfsResOp4>>)
    ensures |r.rest| <= |b|
    decreases n
  {
    if n == 0 then Got([], b)
    else
      var (op, r) :- DecodeResOp(b);
      var (ops, r') :- DecodeResults(n - 1, r);
      Got([op] + ops, r')
  }

  lemma {:induction false} ResultsAgree(n: nat, b: seq<byte>)
    ensures match DecodeItems(RES_OP, n, b)
      case Failed(e, r) => DecodeResults(n, b) == Failed(e, r)
      case Got(vs, r) => HasType(Vec(RES_OP), List(vs)) && DecodeResults(n, b) == Got(ResultsOf(List(vs)), r)
    decreases n
  {
    hide HasType, StatusCodes, Decode, Encode, ResArms, ResOpOf, IsStatus, ValidUtf8;
    if n == 0 {
      EmptyTyped();
      assert ResultsOf(List([])) == [];
    } else if Decode(RES_OP, b).Got? {
      Laws.Sound(RES_OP, b);
      var Got(v, r) := Decode(RES_OP, b);
      ResultsAgree(n - 1, r);
      if DecodeItems(RES_OP, n - 1, r).Got? {
        var vs := DecodeItems(RES_OP, n - 1, r).value;
        ConsTyped(v, vs);
        ConsResults(v, vs);
      }
    }
  }

  lemma {:induction false} ConsResults(v: Value, vs: seq<Value>)
    requires HasType(RES_OP, v) && HasType(Vec(RES_OP), List(vs)) && HasType(Vec(RES_OP), List([v] + vs))
    ensures ResultsOf(List([v] + vs)) == [ResOpOf(v)] + ResultsOf(List(vs))
  {
    hide HasType, StatusCodes, ResArms, ResOpOf, IsStatus, ValidUtf8;
  }

  lemma {:induction false} EmptyTyped()
    ensures HasType(Vec(RES_OP), List([]))
  {
  }

  lemma {:induction false} ConsTyped(v: Value, vs: seq<Value>)
    requires HasType(RES_OP, v) && HasType(Vec(RES_OP), List(vs))
    ensures HasType(Vec(RES_OP), List([v] + vs))
  {
    hide StatusCodes, ResArms, IsStatus, ValidUtf8;
    var all := List([v] + vs);
    assert forall i | 0 <= i < |all.vs| :: HasType(RES_OP, all.vs[i]);
  }

  /** Decoding the response is decoding its three fields in turn. */
  lemma {:induction false} DecodeParts(b: seq<byte>)
    ensures match Decode(STAT, b)
      case Failed(e, r) => DecodeCompound(b) == Failed(e, r)
      case Got(s, r) =>
        match Decode(Text, r)
        case Failed(e, r') => DecodeCompound(b) == Failed(e, r')
        case Got(t, r') =>
          match DecodeU32(r')
          case Failed(e, r'') => DecodeCompound(b) == Failed(e, r'')
          case Got(n, r'') =>
            match DecodeResults(n, r'')
            case Failed(e, end) => DecodeCompound(b) == Failed(e, end)
            case Got(ops, end) =>
              HasType(STAT, s) && HasType(Text, t) && t.Data? && ValidUtf8(t.d)
              && DecodeCompound(b) == Got(Compound4res(StatusOf(s), t.d, ops), end)
  {
    hide HasType, StatusCodes, Decode, DecodeU32, DecodeItems, DecodeResults, Encode, ResArms, ValidUtf8, IsStatus;
    DecodeStruct3(STAT, Text, Vec(RES_OP), b);
    if Decode(STAT, b).Got? {
      Laws.Sound(STAT, b);
      var r := Decode(STAT, b).rest;
      if Decode(Text, r).Got? {
        Laws.Sound(Text, r);
        TextOf(Decode(Text, r).value);
        var r' := Decode(Text, r).rest;
        DecodeVec(RES_OP, r');
        if DecodeU32(r').Got? {
          ResultsAgree(DecodeU32(r').value, DecodeU32(r').rest);
        }
      }
    }
  }

  /** The loop over the results: each one goes through the dispatch. */
  method DecodeResultsFrom(n: nat, buf: Bytes) returns (r: Result<seq<NfsResOp4>>)
    modifies buf
    ensures r == DecodeResults(n, old(buf.data)).Verdict()
    ensures buf.data == DecodeResults(n, old(buf.data)).rest
  {
    hide DecodeResOp;
    var ops: seq<NfsResOp4> := [];
    AheadNone(DecodeResults(n, buf.data));
    for i := 0 to n
      invariant DecodeResults(n, old(buf.data)) == Ahead(ops, DecodeResults(n - i, buf.data))
    {
      var op :- DecodeResOpFrom(buf);
      AheadOne(ops, op, DecodeResults(n - i - 1, buf.data));
      ops := ops + [op];
    }
    assert ops + [] == ops;
    return Ok(ops);
  }

  ghost function Ahead(done: seq<NfsResOp4>, d: Decoded<seq<NfsResOp4>>): Decoded<seq<NfsResOp4>> {
    match d
    case Got(ops, rest) => Got(done + ops, rest)
    case Failed(e, rest) => Failed(e, rest)
  }

  lemma {:induction false} AheadNone(d: Decoded<seq<NfsResOp4>>)
    ensures Ahead([], d) == d
  {
    if d.Got? {
      assert [] + d.value == d.value;
    }
  }

  lemma {:induction false} AheadOne(done: seq<NfsResOp4>, op: NfsResOp4, d: Decoded<seq<NfsResOp4>>)
    ensures Ahead(done + [op], d)
            == match d
               case Got(ops, rest) => Ahead(done, Got([op] + ops, rest))
               case Failed(e, rest) => Failed(e, rest)
  {
    if d.Got? {
      assert done + ([op] + d.value) == done + [op] + d.value;
    }
  }
}
