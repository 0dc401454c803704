/** XDR (RFC 4506): what the encoders append and what the decoders make of a
    byte string, for every type the derive macro and the hand-written codecs
    can build.

    A Rust type is a `Ty`, a Rust value of it a `Value`. Structs are right-nested
    pairs ending in Unit; an enum is its list of match arms in source order. Two
    shapes are not derived but written by hand in the NFS types: a status that
    guards its result body (`Guarded`) and the READDIR entry chain (`Chain`). */
module Xdr {
  import opened Wire

  const MAX_LEN: nat := 0x1_0000_0000

  /** `Panic` is not a value of the source's error type: it stands for
      aborting inside Bytes::advance. It propagates as an error does. */
  datatype XdrError =
    | BufferTooShort(needed: nat, available: nat)
    | InvalidBool(value: u32)
    | InvalidEnum(discriminant: u32, typeName: string)
    | StringNotUtf8
    | LengthExceeded(max: u32, actual: u32)
    | Panic

  /** The Result of the source's encode and decode functions. */
  datatype Result<+T> = Ok(value: T) | Err(error: XdrError) {
    predicate IsFailure() { Err? }

    function PropagateFailure<U>(): Result<U>
      requires Err?
    {
      Err(error)
    }

    function Extract(): T
      requires Ok?
    {
      value
    }
  }

  /** A decoder's verdict and the bytes its cursor has left. */
  datatype Decoded<+T> =
    | Got(value: T, rest: seq<byte>)
    | Failed(error: XdrError, rest: seq<byte>)
  {
    predicate IsFailure() { Failed? }

    function PropagateFailure<U>(): Decoded<U>
      requires Failed?
    {
      Failed(error, rest)
    }

    function Extract(): (T, seq<byte>)
      requires Got?
    {
      (value, rest)
    }

    function Verdict(): Result<T> {
      match this
      case Got(v, _) => Ok(v)
      case Failed(e, _) => Err(e)
    }
  }

  /** An encoder's verdict and the bytes it has appended. */
  datatype Encoded =
    | Wrote(bytes: seq<byte>)
    | Stuck(error: XdrError, bytes: seq<byte>)
  {
    function Verdict(): Result<()> {
      match this
      case Wrote(_) => Ok(())
      case Stuck(e, _) => Err(e)
    }

    /** This encoder, then, if it succeeded, the next one. */
    function Then(next: Encoded): Encoded {
      match this
      case Stuck(_, _) => this
      case Wrote(mine) =>
        match next
        case Wrote(more) => Wrote(mine + more)
        case Stuck(e, more) => Stuck(e, mine + more)
    }
  }

  datatype Ty =
    | U32 | I32 | U64 | I64 | Bool
    | Fixed(len: nat)                       // [u8; N] newtypes, unpadded
    | Opaque
    | Text
    | Handle(max: u32)                      // opaque refused when longer than max
    | Vec(elem: Ty)
    | Opt(elem: Ty)
    | Unit
    | Pair(first: Ty, second: Ty)
    | Enum(name: string, arms: seq<Arm>)
    | Codes(name: string, codes: set<int>)  // an enum without payloads, by code
    | Guarded(status: Ty, ok: Ty)
    | Chain(entry: Ty)

  /** A type without parts that are encoded on their own. */
  predicate IsLeaf(ty: Ty) {
    match ty
    case Vec(_) => false case Opt(_) => false case Pair(_, _) => false
    case Enum(_, _) => false case Guarded(_, _) => false case Chain(_) => false
    case _ => true
  }

  datatype Arm = Arm(discriminant: u32, body: Ty)

  datatype Value =
    | Num(n: int)
    | Flag(b: bool)
    | Data(d: seq<byte>)
    | List(vs: seq<Value>)
    | Absent
    | Present(v: Value)
    | Nil
    | Both(x: Value, y: Value)
    | Variant(index: nat, payload: Value)

  /** The value of NfsStat4::Ok. */
  const OK := Num(0)

  function Padding(len: nat): (p: nat)
    ensures p < 4 && (len + p) % 4 == 0
  {
    (4 - len % 4) % 4
  }

  /** Length of the UTF-8 scalar that s starts with (RFC 3629 section 4), or 0. */
  function ScalarLength(s: seq<byte>): (n: nat)
    ensures n <= |s|
  {
    if s == [] then 0
    else if s[0] < 0x80 then 1
    else if 0xC2 <= s[0] < 0xE0 && |s| >= 2 && Tail(s[1]) then 2
    else if 0xE0 <= s[0] < 0xF0 && |s| >= 3 && Tail(s[1]) && Tail(s[2])
            && (s[0] == 0xE0 ==> s[1] >= 0xA0) && (s[0] == 0xED ==> s[1] < 0xA0) then 3
    else if 0xF0 <= s[0] < 0xF5 && |s| >= 4 && Tail(s[1]) && Tail(s[2]) && Tail(s[3])
            && (s[0] == 0xF0 ==> s[1] >= 0x90) && (s[0] == 0xF4 ==> s[1] < 0x90) then 4
    else 0
  }

  predicate Tail(b: byte) { 0x80 <= b < 0xC0 }

  predicate ValidUtf8(s: seq<byte>) {
    s == [] || (ScalarLength(s) > 0 && ValidUtf8(s[ScalarLength(s)..]))
  }

  /** v is a value the Rust type admits. */
  predicate HasType(ty: Ty, v: Value)
    decreases ty
  {
    match ty
    case U32 => v.Num? && 0 <= v.n < U32_MODULUS
    case I32 => v.Num? && -0x8000_0000 <= v.n < 0x8000_0000
    case U64 => v.Num? && 0 <= v.n < U64_MODULUS
    case I64 => v.Num? && -0x8000_0000_0000_0000 <= v.n < 0x8000_0000_0000_0000
    case Bool => v.Flag?
    case Fixed(len) => v.Data? && |v.d| == len
    case Opaque => v.Data?
    case Text => v.Data? && ValidUtf8(v.d)
    case Handle(_) => v.Data?
    case Vec(elem) => v.List? && forall i | 0 <= i < |v.vs| :: HasType(elem, v.vs[i])
    case Opt(elem) => v.Absent? || (v.Present? && HasType(elem, v.v))
    case Unit => v == Nil
    case Pair(first, second) => v.Both? && HasType(first, v.x) && HasType(second, v.y)
    case Enum(_, arms) => v.Variant? && v.index < |arms| && HasType(arms[v.index].body, v.payload)
    case Codes(_, codes) => v.Num? && 0 <= v.n < U32_MODULUS && v.n in codes
    case Guarded(status, ok) =>
      v.Both? && HasType(status, v.x) && (v.y.Absent? || (v.y.Present? && HasType(ok, v.y.v)))
    case Chain(entry) => v.List? && forall i | 0 <= i < |v.vs| :: HasType(entry, v.vs[i])
  }

  /** What a value needs, beyond its type, to survive the wire: lengths that fit
      the length word, handles within their bound, a body exactly when the status
      is Ok, and a variant whose discriminant no earlier arm takes. */
  predicate WellFormed(ty: Ty, v: Value)
    requires HasType(ty, v)
    decreases ty
  {
    match ty
    case Opaque => |v.d| < MAX_LEN
    case Text => |v.d| < MAX_LEN
    case Handle(max) => |v.d| <= max
    case Vec(elem) => |v.vs| < MAX_LEN && forall i | 0 <= i < |v.vs| :: WellFormed(elem, v.vs[i])
    case Opt(elem) => v.Present? ==> WellFormed(elem, v.v)
    case Pair(first, second) => WellFormed(first, v.x) && WellFormed(second, v.y)
    case Enum(_, arms) => Unshadowed(arms, v.index) && WellFormed(arms[v.index].body, v.payload)
    case Guarded(status, ok) =>
      WellFormed(status, v.x) && (v.x == OK <==> v.y.Present?)
      && (v.y.Present? ==> WellFormed(ok, v.y.v))
    case Chain(entry) => forall i | 0 <= i < |v.vs| :: WellFormed(entry, v.vs[i])
    case _ => true
  }

  /** No earlier match arm takes the discriminant of arm k. */
  predicate Unshadowed(arms: seq<Arm>, k: nat)
    requires k < |arms|
  {
    forall i | 0 <= i < k :: arms[i].discriminant != arms[k].discriminant
  }

  /** The first match arm for d, or the number of arms. */
  function FirstArm(arms: seq<Arm>, d: u32): (k: nat)
    ensures k <= |arms|
    ensures forall i | 0 <= i < k :: arms[i].discriminant != d
    ensures k < |arms| ==> arms[k].discriminant == d
  {
    if arms == [] || arms[0].discriminant == d then 0 else 1 + FirstArm(arms[1..], d)
  }

  // ---------------------------------------------------------------- encoding

  function EncodeOpaque(d: seq<byte>): Encoded {
    if |d| >= MAX_LEN then Stuck(LengthExceeded(0xFFFF_FFFF, 0), [])
    else Wrote(BigEndian32(|d|) + d + Zeros(Padding(|d|)))
  }

  function Encode(ty: Ty, v: Value): Encoded
    requires HasType(ty, v)
    decreases ty, 0
  {
    match ty
    case U32 => Wrote(BigEndian32(v.n))
    case I32 => Wrote(BigEndian32(Unsigned(v.n, U32_MODULUS)))
    case U64 => Wrote(BigEndian64(v.n))
    case I64 => Wrote(BigEndian64(Unsigned(v.n, U64_MODULUS)))
    case Bool => Wrote(BigEndian32(if v.b then 1 else 0))
    case Fixed(_) => Wrote(v.d)
    case Opaque => EncodeOpaque(v.d)
    case Text => EncodeOpaque(v.d)
    case Handle(_) => EncodeOpaque(v.d)
    case Vec(elem) =>
      if |v.vs| >= MAX_LEN then Stuck(LengthExceeded(0xFFFF_FFFF, 0), [])
      else Wrote(BigEndian32(|v.vs|)).Then(EncodeItems(elem, v.vs))
    case Opt(elem) =>
      if v.Absent? then Wrote(BigEndian32(0)) else Wrote(BigEndian32(1)).Then(Encode(elem, v.v))
    case Unit => Wrote([])
    case Pair(first, second) => Encode(first, v.x).Then(Encode(second, v.y))
    case Enum(_, arms) =>
      Wrote(BigEndian32(arms[v.index].discriminant)).Then(Encode(arms[v.index].body, v.payload))
    case Codes(_, _) => Wrote(BigEndian32(v.n))
    case Guarded(status, ok) =>
      if v.y.Present? then Encode(status, v.x).Then(Encode(ok, v.y.v)) else Encode(status, v.x)
    case Chain(entry) => EncodeChain(entry, v.vs)
  }

  function EncodeItems(elem: Ty, vs: seq<Value>): Encoded
    requires forall i | 0 <= i < |vs| :: HasType(elem, vs[i])
    decreases elem, |vs| + 1
  {
    if vs == [] then Wrote([]) else Encode(elem, vs[0]).Then(EncodeItems(elem, vs[1..]))
  }

  /** true, entry, true, entry, ..., false. */
  function EncodeChain(entry: Ty, vs: seq<Value>): Encoded
    requires forall i | 0 <= i < |vs| :: HasType(entry, vs[i])
    decreases entry, |vs| + 1
  {
    if vs == [] then Wrote(BigEndian32(0))
    else Wrote(BigEndian32(1)).Then(Encode(entry, vs[0])).Then(EncodeChain(entry, vs[1..]))
  }

  // ---------------------------------------------------------------- decoding

  function DecodeU32(b: seq<byte>): (r: Decoded<u32>)
    ensures |r.rest| <= |b|
  {
    if |b| < 4 then Failed(BufferTooShort(4, |b|), b) else Got(Word32(b), b[4..])
  }

  function DecodeU64(b: seq<byte>): (r: Decoded<u64>)
    ensures |r.rest| <= |b|
  {
    if |b| < 8 then Failed(BufferTooShort(8, |b|), b) else Got(Word64(b), b[8..])
  }

  function DecodeBool(b: seq<byte>): (r: Decoded<bool>)
    ensures |r.rest| <= |b| && (r.Got? ==> |r.rest| < |b|)
  {
    var (n, r) :- DecodeU32(b);
    if n == 0 then Got(false, r) else if n == 1 then Got(true, r) else Failed(InvalidBool(n), r)
  }

  function DecodeOpaque(b: seq<byte>): (r: Decoded<seq<byte>>)
    ensures |r.rest| <= |b|
  {
    var (len, r) :- DecodeU32(b);
    var padded := len + Padding(len);
    if |r| < padded then Failed(BufferTooShort(padded, |r|), r) else Got(r[..len], r[padded..])
  }

  function Decode(ty: Ty, b: seq<byte>): (r: Decoded<Value>)
    ensures |r.rest| <= |b|
    decreases ty, 0
  {
    match ty
    case U32 => var (n, r) :- DecodeU32(b); Got(Num(n), r)
    case I32 => var (n, r) :- DecodeU32(b); Got(Num(Signed(n, U32_MODULUS)), r)
    case U64 => var (n, r) :- DecodeU64(b); Got(Num(n), r)
    case I64 => var (n, r) :- DecodeU64(b); Got(Num(Signed(n, U64_MODULUS)), r)
    case Bool => var (f, r) :- DecodeBool(b); Got(Flag(f), r)
    case Fixed(len) =>
      if |b| < len then Failed(BufferTooShort(len, |b|), b) else Got(Data(b[..len]), b[len..])
    case Opaque => var (d, r) :- DecodeOpaque(b); Got(Data(d), r)
    case Text =>
      var (d, r) :- DecodeOpaque(b);
      if ValidUtf8(d) then Got(Data(d), r) else Failed(StringNotUtf8, r)
    case Handle(max) =>
      var (d, r) :- DecodeOpaque(b);
      if |d| > max then Failed(LengthExceeded(max, |d| % U32_MODULUS), r) else Got(Data(d), r)
    case Vec(elem) =>
      var (len, r) :- DecodeU32(b);
      var (vs, r') :- DecodeItems(elem, len, r);
      Got(List(vs), r')
    case Opt(elem) =>
      var (d, r) :- DecodeU32(b);
      if d == 0 then Got(Absent, r)
      else if d == 1 then var (v, r') :- Decode(elem, r); Got(Present(v), r')
      else Failed(InvalidBool(d), r)
    case Unit => Got(Nil, b)
    case Pair(first, second) =>
      var (x, r) :- Decode(first, b);
      var (y, r') :- Decode(second, r);
      Got(Both(x, y), r')
    case Enum(name, arms) =>
      var (d, r) :- DecodeU32(b);
      var k := FirstArm(arms, d);
      if k == |arms| then Failed(InvalidEnum(d, name), r)
      else var (v, r') :- Decode(arms[k].body, r); Got(Variant(k, v), r')
    case Codes(name, codes) =>
      var (d, r) :- DecodeU32(b);
      if d in codes then Got(Num(d), r) else Failed(InvalidEnum(d, name), r)
    case Guarded(status, ok) =>
      var (x, r) :- Decode(status, b);
      if x == OK then var (y, r') :- Decode(ok, r); Got(Both(x, Present(y)), r')
      else Got(Both(x, Absent), r)
    case Chain(entry) => var (vs, r) :- DecodeChain(entry, b); Got(List(vs), r)
  }

  function DecodeItems(elem: Ty, n: nat, b: seq<byte>): (r: Decoded<seq<Value>>)
    ensures |r.rest| <= |b|
    decreases elem, n + 1
  {
    if n == 0 then Got([], b)
    else
      var (v, r) :- Decode(elem, b);
      var (vs, r') :- DecodeItems(elem, n - 1, r);
      Got([v] + vs, r')
  }

  function DecodeChain(entry: Ty, b: seq<byte>): (r: Decoded<seq<Value>>)
    ensures |r.rest| <= |b|
    decreases entry, |b| + 1
  {
    var (more, r) :- DecodeBool(b);
    if !more then Got([], r)
    else
      var (v, r') :- Decode(entry, r);
      var (vs, r'') :- DecodeChain(entry, r');
      Got([v] + vs, r'')
  }
}
