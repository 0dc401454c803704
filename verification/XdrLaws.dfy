/** The codec laws, proved once for every type of Xdr.Ty. */
module XdrLaws {
  import opened Wire
  import opened Xdr

  // ------------------------------------------------ words and opaque strings

  lemma {:induction false} U32Law(x: u32, suffix: seq<byte>)
    ensures DecodeU32(BigEndian32(x) + suffix) == Got(x, suffix)
  {
    Word32OfBigEndian(x, suffix);
  }

  lemma {:induction false} U64Law(x: u64, suffix: seq<byte>)
    ensures DecodeU64(BigEndian64(x) + suffix) == Got(x, suffix)
  {
    Word64OfBigEndian(x, suffix);
  }

  lemma {:induction false} BoolLaw(f: bool, suffix: seq<byte>)
    ensures DecodeBool(BigEndian32(if f then 1 else 0) + suffix) == Got(f, suffix)
  {
    U32Law(if f then 1 else 0, suffix);
  }

  lemma {:induction false} OpaqueLaw(d: seq<byte>, suffix: seq<byte>)
    requires |d| < MAX_LEN
    ensures EncodeOpaque(d).Wrote?
    ensures DecodeOpaque(EncodeOpaque(d).bytes + suffix) == Got(d, suffix)
  {
    var pad := Zeros(Padding(|d|));
    var tail := d + pad + suffix;
    assert EncodeOpaque(d).bytes + suffix == BigEndian32(|d|) + tail;
    U32Law(|d|, tail);
    assert tail[..|d|] == d;
    assert tail[|d| + Padding(|d|)..] == suffix;
  }

  // -------------------------------------------------------------- round trip

  /** A leading word is read back and the cursor stands on what follows. */
  lemma {:induction false} WordThen(x: u32, body: seq<byte>, suffix: seq<byte>)
    ensures DecodeU32(BigEndian32(x) + body + suffix) == Got(x, body + suffix)
    ensures x <= 1 ==> DecodeBool(BigEndian32(x) + body + suffix) == Got(x == 1, body + suffix)
  {
    hide BigEndian32, DecodeU32;
    assert BigEndian32(x) + body + suffix == BigEndian32(x) + (body + suffix);
    U32Law(x, body + suffix);
  }

  lemma {:induction false} CutOff(d: seq<byte>, suffix: seq<byte>)
    ensures (d + suffix)[..|d|] == d && (d + suffix)[|d|..] == suffix
  {
  }

  lemma {:induction false} LeafRoundTrip(ty: Ty, v: Value, suffix: seq<byte>)
    requires HasType(ty, v) && WellFormed(ty, v) && IsLeaf(ty)
    ensures Encode(ty, v).Wrote?
    ensures Decode(ty, Encode(ty, v).bytes + suffix) == Got(v, suffix)
  {
    hide BigEndian32, Word32, BigEndian64, Word64, EncodeOpaque, DecodeOpaque, DecodeU32, DecodeU64, DecodeBool,
      ValidUtf8;
    match ty {
      case U32 => U32Law(v.n, suffix);
      case I32 => U32Law(Unsigned(v.n, U32_MODULUS), suffix);
      case U64 => U64Law(v.n, suffix);
      case I64 => U64Law(Unsigned(v.n, U64_MODULUS), suffix);
      case Bool => BoolLaw(v.b, suffix);
      case Fixed(_) => CutOff(v.d, suffix);
      case Opaque => OpaqueLaw(v.d, suffix);
      case Text => OpaqueLaw(v.d, suffix);
      case Handle(_) => OpaqueLaw(v.d, suffix);
      case Codes(_, _) => U32Law(v.n, suffix);
      case Unit => assert [] + suffix == suffix;
    }
  }

  /** A well-formed value encodes, and decoding the encoding followed by anything
      gives the value back and leaves exactly what followed. */
  lemma {:induction false} RoundTrip(ty: Ty, v: Value, suffix: seq<byte>)
    requires HasType(ty, v) && WellFormed(ty, v)
    ensures Encode(ty, v).Wrote?
    ensures Decode(ty, Encode(ty, v).bytes + suffix) == Got(v, suffix)
    decreases ty, 0
  {
    hide BigEndian32, Word32, BigEndian64, Word64, DecodeU32, DecodeBool;
    match ty {
      case Vec(elem) =>
        RoundTripItems(elem, v.vs, suffix);
        WordThen(|v.vs|, EncodeItems(elem, v.vs).bytes, suffix);
      case Opt(elem) =>
        if v.Absent? {
          U32Law(0, suffix);
        } else {
          RoundTrip(elem, v.v, suffix);
          WordThen(1, Encode(elem, v.v).bytes, suffix);
        }
      case Pair(first, second) =>
        RoundTrip(second, v.y, suffix);
        RoundTrip(first, v.x, Encode(second, v.y).bytes + suffix);
        AppendAssociative(Encode(first, v.x).bytes, Encode(second, v.y).bytes, suffix);
      case Enum(_, arms) =>
        RoundTrip(arms[v.index].body, v.payload, suffix);
        WordThen(arms[v.index].discriminant, Encode(arms[v.index].body, v.payload).bytes, suffix);
      case Guarded(status, ok) =>
        if v.y.Present? {
          RoundTrip(ok, v.y.v, suffix);
          RoundTrip(status, v.x, Encode(ok, v.y.v).bytes + suffix);
          AppendAssociative(Encode(status, v.x).bytes, Encode(ok, v.y.v).bytes, suffix);
        } else {
          RoundTrip(status, v.x, suffix);
        }
      case Chain(entry) => RoundTripChain(entry, v.vs, suffix);
      case _ => LeafRoundTrip(ty, v, suffix);
    }
  }

  lemma {:induction false} RoundTripItems(elem: Ty, vs: seq<Value>, suffix: seq<byte>)
    requires forall i | 0 <= i < |vs| :: HasType(elem, vs[i]) && WellFormed(elem, vs[i])
    ensures EncodeItems(elem, vs).Wrote?
    ensures DecodeItems(elem, |vs|, EncodeItems(elem, vs).bytes + suffix) == Got(vs, suffix)
    decreases elem, |vs| + 1
  {
    hide HasType, WellFormed, Encode, Decode;
    if vs == [] {
      assert [] + suffix == suffix;
    } else {
      RoundTripItems(elem, vs[1..], suffix);
      var items := EncodeItems(elem, vs[1..]).bytes;
      RoundTrip(elem, vs[0], items + suffix);
      AppendAssociative(Encode(elem, vs[0]).bytes, items, suffix);
      assert [vs[0]] + vs[1..] == vs;
    }
  }

  lemma {:induction false} RoundTripChain(entry: Ty, vs: seq<Value>, suffix: seq<byte>)
    requires forall i | 0 <= i < |vs| :: HasType(entry, vs[i]) && WellFormed(entry, vs[i])
    ensures EncodeChain(entry, vs).Wrote?
    ensures DecodeChain(entry, EncodeChain(entry, vs).bytes + suffix) == Got(vs, suffix)
    decreases entry, |vs| + 1
  {
    hide HasType, WellFormed, Encode, Decode, BigEndian32, DecodeBool, DecodeChain;
    if vs == [] {
      ChainStops(entry, suffix);
    } else {
      RoundTripChain(entry, vs[1..], suffix);
      var first, others := Encode(entry, vs[0]).bytes, EncodeChain(entry, vs[1..]).bytes;
      RoundTrip(entry, vs[0], others + suffix);
      ChainGoesOn(entry, vs[0], vs[1..], first, others, suffix);
      assert [vs[0]] + vs[1..] == vs;
    }
  }

  lemma {:induction false} ChainStops(entry: Ty, suffix: seq<byte>)
    ensures DecodeChain(entry, BigEndian32(0) + suffix) == Got([], suffix)
  {
    hide BigEndian32;
    BoolLaw(false, suffix);
  }

  lemma {:induction false} ChainGoesOn(entry: Ty, v: Value, vs: seq<Value>, first: seq<byte>, others: seq<byte>,
      suffix: seq<byte>)
    requires Decode(entry, first + (others + suffix)) == Got(v, others + suffix)
    requires DecodeChain(entry, others + suffix) == Got(vs, suffix)
    ensures DecodeChain(entry, BigEndian32(1) + first + others + suffix) == Got([v] + vs, suffix)
  {
    hide Decode, BigEndian32, DecodeBool;
    assert BigEndian32(1) + first + others + suffix == BigEndian32(1) + (first + (others + suffix));
    BoolLaw(true, first + (others + suffix));
  }

  // ------------------------------------------------------ verdicts and bytes

  /** r' is r with s appended to the input: a value or a final error stands. */
  predicate Extends<T(==)>(r: Decoded<T>, r': Decoded<T>, s: seq<byte>) {
    match r
    case Got(v, rest) => r' == Got(v, rest + s)
    case Failed(e, rest) => e.BufferTooShort? || r' == Failed(e, rest + s)
  }

  lemma {:induction false} U32Monotone(b: seq<byte>, s: seq<byte>)
    ensures Extends(DecodeU32(b), DecodeU32(b + s), s)
  {
    hide Word32;
    WordOfPrefix(b, s);
  }

  lemma {:induction false} OpaqueMonotone(b: seq<byte>, s: seq<byte>)
    ensures Extends(DecodeOpaque(b), DecodeOpaque(b + s), s)
  {
    U32Monotone(b, s);
    if DecodeU32(b).Got? {
      var Got(len, r) := DecodeU32(b);
      var padded := len + Padding(len);
      if |r| >= padded {
        assert (r + s)[..len] == r[..len];
        assert (r + s)[padded..] == r[padded..] + s;
      }
    }
  }

  lemma {:induction false} U64Monotone(b: seq<byte>, s: seq<byte>)
    ensures Extends(DecodeU64(b), DecodeU64(b + s), s)
  {
    hide Word64;
    WordOfPrefix(b, s);
  }

  lemma {:induction false} BoolMonotone(b: seq<byte>, s: seq<byte>)
    ensures Extends(DecodeBool(b), DecodeBool(b + s), s)
  {
    hide DecodeU32;
    U32Monotone(b, s);
  }

  lemma {:induction false} FixedMonotone(len: nat, b: seq<byte>, s: seq<byte>)
    requires len <= |b|
    ensures (b + s)[..len] == b[..len] && (b + s)[len..] == b[len..] + s
  {
  }

  lemma {:induction false} MonotoneLeaf(ty: Ty, b: seq<byte>, s: seq<byte>)
    requires IsLeaf(ty)
    ensures Extends(Decode(ty, b), Decode(ty, b + s), s)
  {
    hide DecodeU32, DecodeU64, DecodeBool, DecodeOpaque, ValidUtf8;
    match ty {
      case U64 => U64Monotone(b, s);
      case I64 => U64Monotone(b, s);
      case Fixed(len) => if len <= |b| { FixedMonotone(len, b, s); }
      case Bool => BoolMonotone(b, s);
      case Opaque => OpaqueMonotone(b, s);
      case Text => OpaqueMonotone(b, s);
      case Handle(_) => OpaqueMonotone(b, s);
      case _ => U32Monotone(b, s);
    }
  }

  /** A value, or any error but BufferTooShort, is unchanged when bytes are
      appended to the input. */
  lemma {:induction false} Monotone(ty: Ty, b: seq<byte>, s: seq<byte>)
    ensures Extends(Decode(ty, b), Decode(ty, b + s), s)
    decreases ty, 0
  {
    hide DecodeU32, DecodeU64, DecodeOpaque, ValidUtf8;
    match ty {
      case Vec(elem) =>
        U32Monotone(b, s);
        if DecodeU32(b).Got? { MonotoneItems(elem, DecodeU32(b).value, DecodeU32(b).rest, s); }
      case Opt(elem) =>
        U32Monotone(b, s);
        if DecodeU32(b).Got? { Monotone(elem, DecodeU32(b).rest, s); }
      case Pair(first, second) =>
        Monotone(first, b, s);
        if Decode(first, b).Got? { Monotone(second, Decode(first, b).rest, s); }
      case Enum(_, arms) =>
        U32Monotone(b, s);
        if DecodeU32(b).Got? && FirstArm(arms, DecodeU32(b).value) < |arms| {
          Monotone(arms[FirstArm(arms, DecodeU32(b).value)].body, DecodeU32(b).rest, s);
        }
      case Guarded(status, ok) =>
        Monotone(status, b, s);
        if Decode(status, b).Got? { Monotone(ok, Decode(status, b).rest, s); }
      case Chain(entry) => MonotoneChain(entry, b, s);
      case _ => MonotoneLeaf(ty, b, s);
    }
  }

  lemma {:induction false} MonotoneItems(elem: Ty, n: nat, b: seq<byte>, s: seq<byte>)
    ensures Extends(DecodeItems(elem, n, b), DecodeItems(elem, n, b + s), s)
    decreases elem, n + 1
  {
    hide Decode;
    if n > 0 {
      Monotone(elem, b, s);
      if Decode(elem, b).Got? { MonotoneItems(elem, n - 1, Decode(elem, b).rest, s); }
    }
  }

  lemma {:induction false} MonotoneChain(entry: Ty, b: seq<byte>, s: seq<byte>)
    ensures Extends(DecodeChain(entry, b), DecodeChain(entry, b + s), s)
    decreases entry, |b| + 1
  {
    hide Decode, DecodeBool;
    BoolMonotone(b, s);
    if DecodeBool(b).Got? && DecodeBool(b).value {
      var r := DecodeBool(b).rest;
      Monotone(entry, r, s);
      if Decode(entry, r).Got? { MonotoneChain(entry, Decode(entry, r).rest, s); }
    }
  }

  // ------------------------------------------------- soundness, conservation

  /** Every fixed-size opaque inside is a whole number of words. */
  predicate Aligned(ty: Ty) {
    match ty
    case Fixed(len) => len % 4 == 0
    case Vec(elem) => Aligned(elem)
    case Opt(elem) => Aligned(elem)
    case Pair(first, second) => Aligned(first) && Aligned(second)
    case Enum(_, arms) => forall k | 0 <= k < |arms| :: Aligned(arms[k].body)
    case Guarded(status, ok) => Aligned(status) && Aligned(ok)
    case Chain(entry) => Aligned(entry)
    case _ => true
  }

  /** The bytes between b and rest: a front part of b, as long as `enc` wrote,
      whole words if `aligned`. */
  predicate Consumes(b: seq<byte>, rest: seq<byte>, enc: Encoded, aligned: bool) {
    && enc.Wrote?
    && |rest| <= |b| && rest == b[|b| - |rest|..]
    && |enc.bytes| == |b| - |rest|
    && (aligned ==> |enc.bytes| % 4 == 0)
  }

  lemma {:induction false} ConsumesThen(b: seq<byte>, r: seq<byte>, r': seq<byte>, e: Encoded, e': Encoded,
      whole: bool, whole': bool)
    requires Consumes(b, r, e, whole) && Consumes(r, r', e', whole')
    ensures Consumes(b, r', e.Then(e'), whole && whole')
  {
  }

  lemma {:induction false} ConsumesWeaker(b: seq<byte>, r: seq<byte>, e: Encoded, whole: bool, less: bool)
    requires Consumes(b, r, e, whole) && (less ==> whole)
    ensures Consumes(b, r, e, less)
  {
  }

  lemma {:induction false} WordConsumed(b: seq<byte>)
    requires DecodeU32(b).Got?
    ensures Consumes(b, DecodeU32(b).rest, Wrote(BigEndian32(DecodeU32(b).value)), true)
  {
  }

  /** What a decoder accepts is a well-formed value of the type, and it consumed
      exactly as many bytes as re-encoding that value writes. Padding need not
      be zero, so the bytes themselves may differ. */
  lemma {:induction false} Sound(ty: Ty, b: seq<byte>)
    requires Decode(ty, b).Got?
    ensures var Got(v, rest) := Decode(ty, b);
      HasType(ty, v) && WellFormed(ty, v) && Consumes(b, rest, Encode(ty, v), Aligned(ty))
    decreases ty, 1
  {
    hide BigEndian32, Consumes, DecodeU32;
    match ty {
      case Vec(_) => SoundVec(ty, b);
      case Opt(_) => SoundOpt(ty, b);
      case Pair(first, second) =>
        Sound(first, b);
        var Got(x, r) := Decode(first, b);
        Sound(second, r);
        var Got(y, r') := Decode(second, r);
        ConsumesThen(b, r, r', Encode(first, x), Encode(second, y), Aligned(first), Aligned(second));
      case Enum(name, arms) => SoundEnum(name, arms, b);
      case Guarded(_, _) => SoundGuarded(ty, b);
      case Chain(entry) => SoundChain(entry, b);
      case _ => SoundLeaf(ty, b);
    }
  }

  lemma {:induction false} SoundVec(ty: Ty, b: seq<byte>)
    requires ty.Vec? && Decode(ty, b).Got?
    ensures var Got(v, rest) := Decode(ty, b);
      HasType(ty, v) && WellFormed(ty, v) && Consumes(b, rest, Encode(ty, v), Aligned(ty))
    decreases ty, 0
  {
    hide BigEndian32, Consumes, DecodeU32;
    var Got(n, r) := DecodeU32(b);
    SoundItems(ty.elem, n, r);
    WordConsumed(b);
    var Got(vs, r') := DecodeItems(ty.elem, n, r);
    ConsumesThen(b, r, r', Wrote(BigEndian32(n)), EncodeItems(ty.elem, vs), true, Aligned(ty.elem));
  }

  lemma {:induction false} SoundOpt(ty: Ty, b: seq<byte>)
    requires ty.Opt? && Decode(ty, b).Got?
    ensures var Got(v, rest) := Decode(ty, b);
      HasType(ty, v) && WellFormed(ty, v) && Consumes(b, rest, Encode(ty, v), Aligned(ty))
    decreases ty, 0
  {
    hide BigEndian32, Consumes, DecodeU32;
    var Got(d, r) := DecodeU32(b);
    WordConsumed(b);
    ConsumesWeaker(b, r, Wrote(BigEndian32(d)), true, Aligned(ty));
    if d == 1 {
      Sound(ty.elem, r);
      var Got(v, r') := Decode(ty.elem, r);
      ConsumesThen(b, r, r', Wrote(BigEndian32(1)), Encode(ty.elem, v), true, Aligned(ty.elem));
    }
  }

  lemma {:induction false} SoundGuarded(ty: Ty, b: seq<byte>)
    requires ty.Guarded? && Decode(ty, b).Got?
    ensures var Got(v, rest) := Decode(ty, b);
      HasType(ty, v) && WellFormed(ty, v) && Consumes(b, rest, Encode(ty, v), Aligned(ty))
    decreases ty, 0
  {
    hide BigEndian32, Consumes, DecodeU32;
    Sound(ty.status, b);
    var Got(x, r) := Decode(ty.status, b);
    ConsumesWeaker(b, r, Encode(ty.status, x), Aligned(ty.status), Aligned(ty));
    if x == OK {
      Sound(ty.ok, r);
      var Got(y, r') := Decode(ty.ok, r);
      ConsumesThen(b, r, r', Encode(ty.status, x), Encode(ty.ok, y), Aligned(ty.status), Aligned(ty.ok));
    }
  }

  lemma {:induction false} SoundEnum(name: string, arms: seq<Arm>, b: seq<byte>)
    requires Decode(Enum(name, arms), b).Got?
    ensures var ty := Enum(name, arms);
      var Got(v, rest) := Decode(ty, b);
      HasType(ty, v) && WellFormed(ty, v) && Consumes(b, rest, Encode(ty, v), Aligned(ty))
    decreases Enum(name, arms), 0
  {
    hide BigEndian32, Consumes, DecodeU32;
    var ty := Enum(name, arms);
    var Got(d, r) := DecodeU32(b);
    var body := arms[FirstArm(arms, d)].body;
    Sound(body, r);
    WordConsumed(b);
    var Got(v, r') := Decode(body, r);
    ConsumesThen(b, r, r', Wrote(BigEndian32(d)), Encode(body, v), true, Aligned(body));
    ConsumesWeaker(b, r', Wrote(BigEndian32(d)).Then(Encode(body, v)), Aligned(body), Aligned(ty));
  }

  lemma {:induction false} SoundLeaf(ty: Ty, b: seq<byte>)
    requires Decode(ty, b).Got? && IsLeaf(ty)
    ensures var Got(v, rest) := Decode(ty, b);
      HasType(ty, v) && WellFormed(ty, v) && Consumes(b, rest, Encode(ty, v), Aligned(ty))
  {
    hide DecodeU32, DecodeU64, BigEndian32, BigEndian64, DecodeOpaque, EncodeOpaque, ValidUtf8, Consumes;
    match ty {
      case Opaque => OpaqueSound(b);
      case Text => OpaqueSound(b);
      case Handle(_) => OpaqueSound(b);
      case Fixed(_) => FixedSound(ty.len, b);
      case U64 => DoubleWordConsumed(b);
      case I64 => DoubleWordConsumed(b);
      case Unit => UnitConsumed(b);
      case _ => WordConsumed(b);
    }
  }

  lemma {:induction false} OpaqueSound(b: seq<byte>)
    requires DecodeOpaque(b).Got?
    ensures |DecodeOpaque(b).value| < MAX_LEN
    ensures Consumes(b, DecodeOpaque(b).rest, EncodeOpaque(DecodeOpaque(b).value), true)
  {
    hide BigEndian32, Word32;
  }

  lemma {:induction false} FixedSound(len: nat, b: seq<byte>)
    requires len <= |b|
    ensures Consumes(b, b[len..], Wrote(b[..len]), len % 4 == 0)
  {
  }

  lemma {:induction false} UnitConsumed(b: seq<byte>)
    ensures Consumes(b, b, Wrote([]), true)
  {
  }

  lemma {:induction false} DoubleWordConsumed(b: seq<byte>)
    requires DecodeU64(b).Got?
    ensures Consumes(b, DecodeU64(b).rest, Wrote(BigEndian64(DecodeU64(b).value)), true)
  {
  }

  lemma {:induction false} SoundItems(elem: Ty, n: nat, b: seq<byte>)
    requires DecodeItems(elem, n, b).Got?
    ensures var Got(vs, rest) := DecodeItems(elem, n, b);
      |vs| == n && (forall i | 0 <= i < n :: HasType(elem, vs[i]) && WellFormed(elem, vs[i]))
      && Consumes(b, rest, EncodeItems(elem, vs), Aligned(elem))
    decreases elem, n + 2
  {
    hide HasType, WellFormed, Encode, Decode, Aligned;
    if n > 0 {
      Sound(elem, b);
      var Got(v, r) := Decode(elem, b);
      SoundItems(elem, n - 1, r);
      var Got(vs, r') := DecodeItems(elem, n - 1, r);
      assert ([v] + vs)[1..] == vs;
      ConsumesThen(b, r, r', Encode(elem, v), EncodeItems(elem, vs), Aligned(elem), Aligned(elem));
    }
  }

  lemma {:induction false} SoundChain(entry: Ty, b: seq<byte>)
    requires DecodeChain(entry, b).Got?
    ensures var Got(vs, rest) := DecodeChain(entry, b);
      (forall i | 0 <= i < |vs| :: HasType(entry, vs[i]) && WellFormed(entry, vs[i]))
      && Consumes(b, rest, EncodeChain(entry, vs), Aligned(entry))
    decreases entry, |b| + 2
  {
    hide HasType, WellFormed, Encode, Decode, Aligned, BigEndian32, Word32, Consumes, DecodeU32;
    var Got(more, r) := DecodeBool(b);
    WordConsumed(b);
    ConsumesWeaker(b, r, Wrote(BigEndian32(DecodeU32(b).value)), true, Aligned(entry));
    if more {
      Sound(entry, r);
      var Got(v, r') := Decode(entry, r);
      SoundChain(entry, r');
      var Got(vs, r'') := DecodeChain(entry, r');
      assert ([v] + vs)[1..] == vs;
      ConsumesThen(b, r, r', Wrote(BigEndian32(1)), Encode(entry, v), true, Aligned(entry));
      ConsumesThen(b, r', r'', Wrote(BigEndian32(1)).Then(Encode(entry, v)), EncodeChain(entry, vs),
          Aligned(entry), Aligned(entry));
    }
  }

  // ------------------------------------------------------------ consequences

  /** A value survives the wire exactly when it is well formed. */
  lemma {:induction false} RoundTripIff(ty: Ty, v: Value, suffix: seq<byte>)
    requires HasType(ty, v)
    ensures (Encode(ty, v).Wrote? && Decode(ty, Encode(ty, v).bytes + suffix) == Got(v, suffix))
            <==> WellFormed(ty, v)
  {
    hide Encode, Decode, HasType, WellFormed;
    if WellFormed(ty, v) {
      RoundTrip(ty, v, suffix);
    } else if Encode(ty, v).Wrote? && Decode(ty, Encode(ty, v).bytes + suffix) == Got(v, suffix) {
      Sound(ty, Encode(ty, v).bytes + suffix);
    }
  }

  /** Cutting a valid encoding short anywhere gives BufferTooShort, nothing else. */
  lemma {:induction false} PrefixTooShort(ty: Ty, v: Value, n: nat)
    requires HasType(ty, v) && WellFormed(ty, v)
    requires Encode(ty, v).Wrote? && n < |Encode(ty, v).bytes|
    ensures Decode(ty, Encode(ty, v).bytes[..n]).Failed?
    ensures Decode(ty, Encode(ty, v).bytes[..n]).error.BufferTooShort?
  {
    hide Encode, Decode, HasType, WellFormed;
    var all := Encode(ty, v).bytes;
    assert all[..n] + all[n..] == all;
    assert all + [] == all;
    RoundTrip(ty, v, []);
    Monotone(ty, all[..n], all[n..]);
  }

  /** No encoding is the beginning of another: a stream of values of one type
      can be cut back into those values in only one way. */
  lemma {:induction false} PrefixFree(ty: Ty, v: Value, w: Value, s: seq<byte>, t: seq<byte>)
    requires HasType(ty, v) && WellFormed(ty, v) && HasType(ty, w) && WellFormed(ty, w)
    requires Encode(ty, v).bytes + s == Encode(ty, w).bytes + t
    ensures v == w && s == t
  {
    hide Encode, Decode, HasType, WellFormed;
    RoundTrip(ty, v, s);
    RoundTrip(ty, w, t);
  }

  /** Conservation: a successful decode consumed a whole number of words, as many
      bytes as the value re-encodes to, and the re-encoding decodes to the value. */
  lemma {:induction false} Conservation(ty: Ty, b: seq<byte>)
    requires Decode(ty, b).Got? && Aligned(ty)
    ensures var Got(v, rest) := Decode(ty, b);
      && HasType(ty, v) && Encode(ty, v).Wrote?
      && |b| - |rest| == |Encode(ty, v).bytes|
      && (|b| - |rest|) % 4 == 0
      && rest == b[|b| - |rest|..]
      && Decode(ty, Encode(ty, v).bytes + rest) == Got(v, rest)
  {
    hide Encode, Decode, HasType, WellFormed, Aligned;
    Sound(ty, b);
    RoundTrip(ty, Decode(ty, b).value, Decode(ty, b).rest);
  }

  // ---------------------------------------------------------------- no panic

  predicate Panics<T>(r: Decoded<T>) { r.Failed? && r.error.Panic? }

  /** No decoder of the schema universe aborts, whatever the bytes. */
  lemma {:induction false} NeverPanics(ty: Ty, b: seq<byte>)
    ensures !Panics(Decode(ty, b))
    decreases ty, 0
  {
    hide Word32, Word64, ValidUtf8;
    match ty {
      case Vec(elem) => if DecodeU32(b).Got? { NoPanicItems(elem, DecodeU32(b).value, DecodeU32(b).rest); }
      case Opt(elem) => if DecodeU32(b).Got? { NeverPanics(elem, DecodeU32(b).rest); }
      case Pair(first, second) =>
        NeverPanics(first, b);
        if Decode(first, b).Got? { NeverPanics(second, Decode(first, b).rest); }
      case Enum(_, arms) =>
        if DecodeU32(b).Got? {
          var k := FirstArm(arms, DecodeU32(b).value);
          if k < |arms| { NeverPanics(arms[k].body, DecodeU32(b).rest); }
        }
      case Guarded(status, ok) =>
        NeverPanics(status, b);
        if Decode(status, b).Got? { NeverPanics(ok, Decode(status, b).rest); }
      case Chain(entry) => NoPanicChain(entry, b);
      case _ =>
    }
  }

  lemma {:induction false} NoPanicItems(elem: Ty, n: nat, b: seq<byte>)
    ensures !Panics(DecodeItems(elem, n, b))
    decreases elem, n + 1
  {
    hide Decode;
    if n > 0 {
      NeverPanics(elem, b);
      if Decode(elem, b).Got? { NoPanicItems(elem, n - 1, Decode(elem, b).rest); }
    }
  }

  lemma {:induction false} NoPanicChain(entry: Ty, b: seq<byte>)
    ensures !Panics(DecodeChain(entry, b))
    decreases entry, |b| + 1
  {
    hide Decode, Word32;
    if DecodeBool(b).Got? && DecodeBool(b).value {
      var r := DecodeBool(b).rest;
      NeverPanics(entry, r);
      if Decode(entry, r).Got? { NoPanicChain(entry, Decode(entry, r).rest); }
    }
  }
}
