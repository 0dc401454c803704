/** The codecs as they run: encoders append to a BytesMut, decoders advance a
    Bytes cursor. Each method does exactly what Xdr.Encode or Xdr.Decode says,
    in its verdict and in the bytes it leaves behind, also when it fails. */
module XdrCodec {
  import opened Wire
  import opened Xdr

  method EncodeOpaqueInto(d: seq<byte>, buf: BytesMut) returns (r: Result<()>)
    modifies buf
    ensures r == EncodeOpaque(d).Verdict()
    ensures buf.data == old(buf.data) + EncodeOpaque(d).bytes
  {
    if |d| >= MAX_LEN {
      return Err(LengthExceeded(0xFFFF_FFFF, 0));
    }
    buf.PutU32(|d|);
    buf.PutSlice(d);
    var pad := Padding(|d|);
    if pad > 0 {
      buf.PutSlice(Zeros(pad));
    }
    return Ok(());
  }

  method EncodeLeafInto(ty: Ty, v: Value, buf: BytesMut) returns (r: Result<()>)
    requires HasType(ty, v) && IsLeaf(ty)
    modifies buf
    ensures r == Encode(ty, v).Verdict()
    ensures buf.data == old(buf.data) + Encode(ty, v).bytes
  {
    hide BigEndian32, BigEndian64, EncodeOpaque, ValidUtf8;
    match ty {
      case U32 => buf.PutU32(v.n);
      case I32 => buf.PutU32(Unsigned(v.n, U32_MODULUS));
      case U64 => buf.PutU64(v.n);
      case I64 => buf.PutU64(Unsigned(v.n, U64_MODULUS));
      case Bool => buf.PutU32(if v.b then 1 else 0);
      case Fixed(_) => buf.PutSlice(v.d);
      case Opaque => r := EncodeOpaqueInto(v.d, buf); return;
      case Text => r := EncodeOpaqueInto(v.d, buf); return;
      case Handle(_) => r := EncodeOpaqueInto(v.d, buf); return;
      case Unit =>
      case Codes(_, _) => buf.PutU32(v.n);
    }
    return Ok(());
  }

  method EncodeInto(ty: Ty, v: Value, buf: BytesMut) returns (r: Result<()>)
    requires HasType(ty, v)
    modifies buf
    ensures r == Encode(ty, v).Verdict()
    ensures buf.data == old(buf.data) + Encode(ty, v).bytes
    decreases ty, 1
  {
    hide BigEndian32, BigEndian64, EncodeOpaque, ValidUtf8;
    match ty {
      case Vec(elem) =>
        if |v.vs| >= MAX_LEN {
          return Err(LengthExceeded(0xFFFF_FFFF, 0));
        }
        buf.PutU32(|v.vs|);
        r := EncodeItemsInto(elem, v.vs, buf);
      case Opt(_) => r := EncodeOptInto(ty, v, buf);
      case Pair(first, second) =>
        var _ :- EncodeInto(first, v.x, buf);
        r := EncodeInto(second, v.y, buf);
      case Enum(_, arms) =>
        buf.PutU32(arms[v.index].discriminant);
        r := EncodeInto(arms[v.index].body, v.payload, buf);
      case Guarded(_, _) => r := EncodeGuardedInto(ty, v, buf);
      case Chain(entry) => r := EncodeChainInto(entry, v.vs, buf);
      case _ => r := EncodeLeafInto(ty, v, buf);
    }
  }

  method EncodeOptInto(ty: Ty, v: Value, buf: BytesMut) returns (r: Result<()>)
    requires ty.Opt? && HasType(ty, v)
    modifies buf
    ensures r == Encode(ty, v).Verdict()
    ensures buf.data == old(buf.data) + Encode(ty, v).bytes
    decreases ty, 0
  {
    hide BigEndian32;
    if v.Absent? {
      buf.PutU32(0);
      r := Ok(());
    } else {
      buf.PutU32(1);
      r := EncodeInto(ty.elem, v.v, buf);
    }
  }

  /** A status, then the body if there is one. */
  method EncodeGuardedInto(ty: Ty, v: Value, buf: BytesMut) returns (r: Result<()>)
    requires ty.Guarded? && HasType(ty, v)
    modifies buf
    ensures r == Encode(ty, v).Verdict()
    ensures buf.data == old(buf.data) + Encode(ty, v).bytes
    decreases ty, 0
  {
    r := EncodeInto(ty.status, v.x, buf);
    if r.Ok? && v.y.Present? {
      r := EncodeInto(ty.ok, v.y.v, buf);
    }
  }

  /** The loop of Vec<T>::encode. */
  method EncodeItemsInto(elem: Ty, vs: seq<Value>, buf: BytesMut) returns (r: Result<()>)
    requires forall i | 0 <= i < |vs| :: HasType(elem, vs[i])
    modifies buf
    ensures r == EncodeItems(elem, vs).Verdict()
    ensures buf.data == old(buf.data) + EncodeItems(elem, vs).bytes
    decreases elem, 2
  {
    hide Encode, HasType, EncodeItems, Encoded.Then;
    ghost var done: seq<byte> := [];
    assert vs[0..] == vs;
    AfterNothing(EncodeItems(elem, vs));
    for i := 0 to |vs|
      invariant buf.data == old(buf.data) + done
      invariant EncodeItems(elem, vs) == Wrote(done).Then(EncodeItems(elem, vs[i..]))
    {
      ItemsLink(elem, vs, i);
      ghost var item := Encode(elem, vs[i]);
      ThenAssociative(done, item, EncodeItems(elem, vs[i + 1..]));
      AppendAssociative(old(buf.data), done, item.bytes);
      var _ :- EncodeInto(elem, vs[i], buf);
      done := done + item.bytes;
    }
    ItemsEnd(elem, done);
    assert vs[|vs|..] == [];
    return Ok(());
  }

  lemma {:induction false} ItemsLink(elem: Ty, vs: seq<Value>, i: nat)
    requires i < |vs| && forall k | 0 <= k < |vs| :: HasType(elem, vs[k])
    ensures EncodeItems(elem, vs[i..]) == Encode(elem, vs[i]).Then(EncodeItems(elem, vs[i + 1..]))
  {
    hide Encode, HasType;
    assert vs[i..][1..] == vs[i + 1..];
  }

  lemma {:induction false} ItemsEnd(elem: Ty, done: seq<byte>)
    ensures Wrote(done).Then(EncodeItems(elem, [])) == Wrote(done)
  {
    assert done + [] == done;
  }

  lemma {:induction false} AfterNothing(e: Encoded)
    ensures Wrote([]).Then(e) == e
  {
    assert [] + e.bytes == e.bytes;
  }

  lemma {:induction false} ThenAssociative(done: seq<byte>, item: Encoded, others: Encoded)
    ensures Wrote(done).Then(item.Then(others))
            == if item.Wrote? then Wrote(done + item.bytes).Then(others) else Stuck(item.error, done + item.bytes)
  {
    assert done + (item.bytes + others.bytes) == done + item.bytes + others.bytes;
  }

  /** The for loop of ReadDir4resok::encode, with the closing false. */
  method EncodeChainInto(entry: Ty, vs: seq<Value>, buf: BytesMut) returns (r: Result<()>)
    requires forall i | 0 <= i < |vs| :: HasType(entry, vs[i])
    modifies buf
    ensures r == EncodeChain(entry, vs).Verdict()
    ensures buf.data == old(buf.data) + EncodeChain(entry, vs).bytes
    decreases entry, 3
  {
    hide Encode, HasType, BigEndian32, EncodeChain, EncodeLink, Encoded.Then;
    ghost var done: seq<byte> := [];
    assert vs[0..] == vs;
    AfterNothing(EncodeChain(entry, vs));
    for i := 0 to |vs|
      invariant buf.data == old(buf.data) + done
      invariant EncodeChain(entry, vs) == Wrote(done).Then(EncodeChain(entry, vs[i..]))
    {
      ChainLink(entry, vs, i);
      ghost var item := EncodeLink(entry, vs[i]);
      ThenAssociative(done, item, EncodeChain(entry, vs[i + 1..]));
      AppendAssociative(old(buf.data), done, item.bytes);
      var _ :- EncodeLinkInto(entry, vs[i], buf);
      done := done + item.bytes;
    }
    ChainEnd(entry, done);
    assert vs[|vs|..] == [];
    AppendAssociative(old(buf.data), done, BigEndian32(0));
    buf.PutU32(0);
    return Ok(());
  }

  /** true, then the entry. */
  ghost function EncodeLink(entry: Ty, v: Value): Encoded
    requires HasType(entry, v)
  {
    Wrote(BigEndian32(1)).Then(Encode(entry, v))
  }

  method EncodeLinkInto(entry: Ty, v: Value, buf: BytesMut) returns (r: Result<()>)
    requires HasType(entry, v)
    modifies buf
    ensures r == EncodeLink(entry, v).Verdict()
    ensures buf.data == old(buf.data) + EncodeLink(entry, v).bytes
    decreases entry, 2
  {
    hide Encode, HasType, BigEndian32;
    buf.PutU32(1);
    r := EncodeInto(entry, v, buf);
  }

  lemma {:induction false} ChainLink(entry: Ty, vs: seq<Value>, i: nat)
    requires i < |vs| && forall k | 0 <= k < |vs| :: HasType(entry, vs[k])
    ensures EncodeChain(entry, vs[i..])
            == EncodeLink(entry, vs[i]).Then(EncodeChain(entry, vs[i + 1..]))
  {
    hide Encode, HasType, BigEndian32;
    assert vs[i..][1..] == vs[i + 1..];
  }

  lemma {:induction false} ChainEnd(entry: Ty, done: seq<byte>)
    ensures Wrote(done).Then(EncodeChain(entry, [])) == Wrote(done + BigEndian32(0))
  {
    hide BigEndian32;
  }

  // ---------------------------------------------------------------- decoding

  method DecodeU32From(buf: Bytes) returns (r: Result<u32>)
    modifies buf
    ensures r == DecodeU32(old(buf.data)).Verdict()
    ensures buf.data == DecodeU32(old(buf.data)).rest
  {
    if |buf.data| < 4 {
      return Err(BufferTooShort(4, |buf.data|));
    }
    var n := buf.GetU32();
    return Ok(n);
  }

  method DecodeU64From(buf: Bytes) returns (r: Result<u64>)
    modifies buf
    ensures r == DecodeU64(old(buf.data)).Verdict()
    ensures buf.data == DecodeU64(old(buf.data)).rest
  {
    if |buf.data| < 8 {
      return Err(BufferTooShort(8, |buf.data|));
    }
    var n := buf.GetU64();
    return Ok(n);
  }

  method DecodeBoolFrom(buf: Bytes) returns (r: Result<bool>)
    modifies buf
    ensures r == DecodeBool(old(buf.data)).Verdict()
    ensures buf.data == DecodeBool(old(buf.data)).rest
  {
    var n :- DecodeU32From(buf);
    match n {
      case 0 => return Ok(false);
      case 1 => return Ok(true);
      case other => return Err(InvalidBool(other));
    }
  }

  method DecodeOpaqueFrom(buf: Bytes) returns (r: Result<seq<byte>>)
    modifies buf
    ensures r == DecodeOpaque(old(buf.data)).Verdict()
    ensures buf.data == DecodeOpaque(old(buf.data)).rest
  {
    var len :- DecodeU32From(buf);
    var padded := len + Padding(len);
    if |buf.data| < padded {
      return Err(BufferTooShort(padded, |buf.data|));
    }
    var d := buf.SplitTo(len);
    var pad := Padding(len);
    if pad > 0 {
      var _ := buf.SplitTo(pad);
    }
    return Ok(d);
  }

  method DecodeLeafFrom(ty: Ty, buf: Bytes) returns (r: Result<Value>)
    requires IsLeaf(ty)
    modifies buf
    ensures r == Decode(ty, old(buf.data)).Verdict()
    ensures buf.data == Decode(ty, old(buf.data)).rest
  {
    hide DecodeU32, DecodeU64, DecodeBool, DecodeOpaque, Word32, Word64, ValidUtf8;
    match ty {
      case U32 => var n :- DecodeU32From(buf); return Ok(Num(n));
      case I32 => var n :- DecodeU32From(buf); return Ok(Num(Signed(n, U32_MODULUS)));
      case U64 => var n :- DecodeU64From(buf); return Ok(Num(n));
      case I64 => var n :- DecodeU64From(buf); return Ok(Num(Signed(n, U64_MODULUS)));
      case Bool => var f :- DecodeBoolFrom(buf); return Ok(Flag(f));
      case Fixed(len) =>
        if |buf.data| < len {
          return Err(BufferTooShort(len, |buf.data|));
        }
        var d := buf.SplitTo(len);
        return Ok(Data(d));
      case Opaque => var d :- DecodeOpaqueFrom(buf); return Ok(Data(d));
      case Text =>
        var d :- DecodeOpaqueFrom(buf);
        return if ValidUtf8(d) then Ok(Data(d)) else Err(StringNotUtf8);
      case Handle(max) =>
        var d :- DecodeOpaqueFrom(buf);
        return if |d| > max then Err(LengthExceeded(max, |d| % U32_MODULUS)) else Ok(Data(d));
      case Unit => return Ok(Nil);
      case Codes(name, codes) =>
        var d :- DecodeU32From(buf);
        return if d in codes then Ok(Num(d)) else Err(InvalidEnum(d, name));
    }
  }

  method DecodeFrom(ty: Ty, buf: Bytes) returns (r: Result<Value>)
    modifies buf
    ensures r == Decode(ty, old(buf.data)).Verdict()
    ensures buf.data == Decode(ty, old(buf.data)).rest
    decreases ty, 0
  {
    hide DecodeU32, DecodeU64, DecodeBool, DecodeOpaque, Word32, Word64, ValidUtf8;
    match ty {
      case Vec(elem) =>
        var len :- DecodeU32From(buf);
        var vs :- DecodeItemsFrom(elem, len, buf);
        return Ok(List(vs));
      case Opt(elem) =>
        var d :- DecodeU32From(buf);
        match d {
          case 0 => return Ok(Absent);
          case 1 => var v :- DecodeFrom(elem, buf); return Ok(Present(v));
          case other => return Err(InvalidBool(other));
        }
      case Pair(first, second) =>
        var x :- DecodeFrom(first, buf);
        var y :- DecodeFrom(second, buf);
        return Ok(Both(x, y));
      case Enum(name, arms) =>
        var d :- DecodeU32From(buf);
        var k := FirstArm(arms, d);
        if k == |arms| {
          return Err(InvalidEnum(d, name));
        }
        var v :- DecodeFrom(arms[k].body, buf);
        return Ok(Variant(k, v));
      case Guarded(status, ok) =>
        var x :- DecodeFrom(status, buf);
        if x == OK {
          var y :- DecodeFrom(ok, buf);
          return Ok(Both(x, Present(y)));
        }
        return Ok(Both(x, Absent));
      case Chain(entry) =>
        var vs :- DecodeChainFrom(entry, buf);
        return Ok(List(vs));
      case _ => r := DecodeLeafFrom(ty, buf);
    }
  }

  /** d with the items of `done` in front of what it decoded. */
  ghost function Prepend(done: seq<Value>, d: Decoded<seq<Value>>): Decoded<seq<Value>> {
    match d
    case Got(vs, rest) => Got(done + vs, rest)
    case Failed(e, rest) => Failed(e, rest)
  }

  lemma {:induction false} PrependNone(d: Decoded<seq<Value>>)
    ensures Prepend([], d) == d
  {
    if d.Got? {
      assert [] + d.value == d.value;
    }
  }

  lemma {:induction false} PrependOne(done: seq<Value>, v: Value, d: Decoded<seq<Value>>)
    requires d.Got?
    ensures Prepend(done, Got([v] + d.value, d.rest)) == Prepend(done + [v], d)
  {
    assert done + ([v] + d.value) == done + [v] + d.value;
  }

  /** The loop of Vec<T>::decode. */
  method DecodeItemsFrom(elem: Ty, n: nat, buf: Bytes) returns (r: Result<seq<Value>>)
    modifies buf
    ensures r == DecodeItems(elem, n, old(buf.data)).Verdict()
    ensures buf.data == DecodeItems(elem, n, old(buf.data)).rest
    decreases elem, 1
  {
    hide Decode;
    var items: seq<Value> := [];
    PrependNone(DecodeItems(elem, n, buf.data));
    for i := 0 to n
      invariant DecodeItems(elem, n, old(buf.data)) == Prepend(items, DecodeItems(elem, n - i, buf.data))
    {
      ghost var before := buf.data;
      var v :- DecodeFrom(elem, buf);
      if DecodeItems(elem, n - i - 1, buf.data).Got? {
        PrependOne(items, v, DecodeItems(elem, n - i - 1, buf.data));
      }
      items := items + [v];
    }
    assert items + [] == items;
    return Ok(items);
  }

  /** The loop of ReadDir4resok::decode: it ends because every round consumes
      the flag word. */
  method DecodeChainFrom(entry: Ty, buf: Bytes) returns (r: Result<seq<Value>>)
    modifies buf
    ensures r == DecodeChain(entry, old(buf.data)).Verdict()
    ensures buf.data == DecodeChain(entry, old(buf.data)).rest
    decreases entry, 1
  {
    hide Decode, DecodeBool;
    var entries: seq<Value> := [];
    PrependNone(DecodeChain(entry, buf.data));
    while true
      invariant DecodeChain(entry, old(buf.data)) == Prepend(entries, DecodeChain(entry, buf.data))
      decreases |buf.data|
    {
      var more :- DecodeBoolFrom(buf);
      if !more {
        assert entries + [] == entries;
        return Ok(entries);
      }
      var v :- DecodeFrom(entry, buf);
      if DecodeChain(entry, buf.data).Got? {
        PrependOne(entries, v, DecodeChain(entry, buf.data));
      }
      entries := entries + [v];
    }
  }
}
