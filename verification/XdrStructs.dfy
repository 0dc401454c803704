/** Structs as the codecs nest them: right-nested pairs ending in Unit. How the
    type, the encoding and the alignment of a struct follow from its fields. */
module XdrStructs {
  import opened Wire
  import opened Xdr
  import Laws = XdrLaws

  /** A Rust String, as its bytes. */
  type Utf8 = s: seq<byte> | ValidUtf8(s) witness []

  function S1(a: Ty): Ty { Pair(a, Unit) }
  function S2(a: Ty, b: Ty): Ty { Pair(a, S1(b)) }
  function S3(a: Ty, b: Ty, c: Ty): Ty { Pair(a, S2(b, c)) }
  function S4(a: Ty, b: Ty, c: Ty, d: Ty): Ty { Pair(a, S3(b, c, d)) }
  function S5(a: Ty, b: Ty, c: Ty, d: Ty, e: Ty): Ty { Pair(a, S4(b, c, d, e)) }
  function S6(a: Ty, b: Ty, c: Ty, d: Ty, e: Ty, f: Ty): Ty { Pair(a, S5(b, c, d, e, f)) }
  function S7(a: Ty, b: Ty, c: Ty, d: Ty, e: Ty, f: Ty, g: Ty): Ty { Pair(a, S6(b, c, d, e, f, g)) }

  function V1(a: Value): Value { Both(a, Nil) }
  function V2(a: Value, b: Value): Value { Both(a, V1(b)) }
  function V3(a: Value, b: Value, c: Value): Value { Both(a, V2(b, c)) }
  function V4(a: Value, b: Value, c: Value, d: Value): Value { Both(a, V3(b, c, d)) }
  function V5(a: Value, b: Value, c: Value, d: Value, e: Value): Value { Both(a, V4(b, c, d, e)) }
  function V6(a: Value, b: Value, c: Value, d: Value, e: Value, f: Value): Value { Both(a, V5(b, c, d, e, f)) }
  function V7(a: Value, b: Value, c: Value, d: Value, e: Value, f: Value, g: Value): Value {
    Both(a, V6(b, c, d, e, f, g))
  }

  // A struct's value has a struct's type exactly when its fields have theirs.

  lemma {:induction false} Typed1(a: Ty, x0: Value)
    requires HasType(a, x0)
    ensures HasType(S1(a), V1(x0))
  {
  }

  lemma {:induction false} Fields1(a: Ty, v: Value)
    requires HasType(S1(a), v)
    ensures v.Both? && v.y == Nil
    ensures HasType(a, v.x)
  {
  }

  lemma {:induction false} Typed2(a: Ty, b: Ty, x0: Value, x1: Value)
    requires HasType(a, x0) && HasType(b, x1)
    ensures HasType(S2(a, b), V2(x0, x1))
  {
    Typed1(b, x1);
  }

  lemma {:induction false} Fields2(a: Ty, b: Ty, v: Value)
    requires HasType(S2(a, b), v)
    ensures v.Both? && v.y.Both? && v.y.y == Nil
    ensures HasType(a, v.x) && HasType(b, v.y.x)
  {
    Fields1(b, v.y);
  }

  lemma {:induction false} Typed3(a: Ty, b: Ty, c: Ty, x0: Value, x1: Value, x2: Value)
    requires HasType(a, x0) && HasType(b, x1) && HasType(c, x2)
    ensures HasType(S3(a, b, c), V3(x0, x1, x2))
  {
    Typed2(b, c, x1, x2);
  }

  lemma {:induction false} Fields3(a: Ty, b: Ty, c: Ty, v: Value)
    requires HasType(S3(a, b, c), v)
    ensures v.Both? && v.y.Both? && v.y.y.Both? && v.y.y.y == Nil
    ensures HasType(a, v.x) && HasType(b, v.y.x) && HasType(c, v.y.y.x)
  {
    Fields2(b, c, v.y);
  }

  lemma {:induction false} Typed4(a: Ty, b: Ty, c: Ty, d: Ty, x0: Value, x1: Value, x2: Value, x3: Value)
    requires HasType(a, x0) && HasType(b, x1) && HasType(c, x2) && HasType(d, x3)
    ensures HasType(S4(a, b, c, d), V4(x0, x1, x2, x3))
  {
    Typed3(b, c, d, x1, x2, x3);
  }

  lemma {:induction false} Fields4(a: Ty, b: Ty, c: Ty, d: Ty, v: Value)
    requires HasType(S4(a, b, c, d), v)
    ensures v.Both? && v.y.Both? && v.y.y.Both? && v.y.y.y.Both? && v.y.y.y.y == Nil
    ensures HasType(a, v.x) && HasType(b, v.y.x) && HasType(c, v.y.y.x) && HasType(d, v.y.y.y.x)
  {
    Fields3(b, c, d, v.y);
  }

  lemma {:induction false} Typed5(a: Ty, b: Ty, c: Ty, d: Ty, e: Ty, x0: Value, x1: Value, x2: Value, x3: Value,
      x4: Value)
    requires HasType(a, x0) && HasType(b, x1) && HasType(c, x2) && HasType(d, x3) && HasType(e, x4)
    ensures HasType(S5(a, b, c, d, e), V5(x0, x1, x2, x3, x4))
  {
    Typed4(b, c, d, e, x1, x2, x3, x4);
  }

  lemma {:induction false} Fields5(a: Ty, b: Ty, c: Ty, d: Ty, e: Ty, v: Value)
    requires HasType(S5(a, b, c, d, e), v)
    ensures v.Both? && v.y.Both? && v.y.y.Both? && v.y.y.y.Both? && v.y.y.y.y.Both? && v.y.y.y.y.y == Nil
    ensures HasType(a, v.x) && HasType(b, v.y.x) && HasType(c, v.y.y.x) && HasType(d, v.y.y.y.x) && HasType(e,
        v.y.y.y.y.x)
  {
    Fields4(b, c, d, e, v.y);
  }

  lemma {:induction false} Typed6(a: Ty, b: Ty, c: Ty, d: Ty, e: Ty, f: Ty, x0: Value, x1: Value, x2: Value,
      x3: Value, x4: Value, x5: Value)
    requires HasType(a, x0) && HasType(b, x1) && HasType(c, x2) && HasType(d, x3) && HasType(e, x4) && HasType(f, x5)
    ensures HasType(S6(a, b, c, d, e, f), V6(x0, x1, x2, x3, x4, x5))
  {
    Typed5(b, c, d, e, f, x1, x2, x3, x4, x5);
  }

  lemma {:induction false} Fields6(a: Ty, b: Ty, c: Ty, d: Ty, e: Ty, f: Ty, v: Value)
    requires HasType(S6(a, b, c, d, e, f), v)
    ensures v.Both? && v.y.Both? && v.y.y.Both? && v.y.y.y.Both? && v.y.y.y.y.Both? && v.y.y.y.y.y.Both?
        && v.y.y.y.y.y.y == Nil
    ensures HasType(a, v.x) && HasType(b, v.y.x) && HasType(c, v.y.y.x) && HasType(d, v.y.y.y.x) && HasType(e,
        v.y.y.y.y.x) && HasType(f, v.y.y.y.y.y.x)
  {
    Fields5(b, c, d, e, f, v.y);
  }

  lemma {:induction false} Typed7(a: Ty, b: Ty, c: Ty, d: Ty, e: Ty, f: Ty, g: Ty, x0: Value, x1: Value, x2: Value,
      x3: Value, x4: Value, x5: Value, x6: Value)
    requires HasType(a, x0) && HasType(b, x1) && HasType(c, x2) && HasType(d, x3) && HasType(e, x4)
        && HasType(f, x5) && HasType(g, x6)
    ensures HasType(S7(a, b, c, d, e, f, g), V7(x0, x1, x2, x3, x4, x5, x6))
  {
    Typed6(b, c, d, e, f, g, x1, x2, x3, x4, x5, x6);
  }

  lemma {:induction false} Fields7(a: Ty, b: Ty, c: Ty, d: Ty, e: Ty, f: Ty, g: Ty, v: Value)
    requires HasType(S7(a, b, c, d, e, f, g), v)
    ensures v.Both? && v.y.Both? && v.y.y.Both? && v.y.y.y.Both? && v.y.y.y.y.Both? && v.y.y.y.y.y.Both?
        && v.y.y.y.y.y.y.Both? && v.y.y.y.y.y.y.y == Nil
    ensures HasType(a, v.x) && HasType(b, v.y.x) && HasType(c, v.y.y.x) && HasType(d, v.y.y.y.x) && HasType(e,
        v.y.y.y.y.x) && HasType(f, v.y.y.y.y.y.x) && HasType(g, v.y.y.y.y.y.y.x)
  {
    Fields6(b, c, d, e, f, g, v.y);
  }

  function Words(ws: seq<u32>): (v: Value)
    ensures HasType(Vec(U32), v)
  {
    List(seq(|ws|, i requires 0 <= i < |ws| => Num(ws[i])))
  }

  function WordsOf(v: Value): (ws: seq<u32>)
    requires HasType(Vec(U32), v)
    ensures Words(ws) == v
  {
    var ws := seq(|v.vs|, i requires 0 <= i < |v.vs| => v.vs[i].n);
    assert Words(ws).vs == v.vs;
    ws
  }

  lemma {:induction false} WordsInjective(a: seq<u32>, b: seq<u32>)
    requires Words(a) == Words(b)
    ensures a == b
  {
    assert |Words(a).vs| == |a| && |Words(b).vs| == |b|;
    assert forall i | 0 <= i < |a| :: Words(a).vs[i].n == a[i] && Words(b).vs[i].n == b[i];
  }

  lemma {:induction false} WordTyped(n: u32)
    ensures HasType(U32, Num(n))
  {
  }

  lemma {:induction false} WordOf(v: Value)
    requires HasType(U32, v)
    ensures v.Num? && 0 <= v.n < U32_MODULUS
  {
  }

  lemma {:induction false} TextTyped(t: Utf8)
    ensures HasType(Text, Data(t))
  {
  }

  lemma {:induction false} TextOf(v: Value)
    requires HasType(Text, v)
    ensures v.Data? && ValidUtf8(v.d)
  {
  }

  lemma {:induction false} EncodePair(a: Ty, b: Ty, x: Value, y: Value)
    requires HasType(a, x) && HasType(b, y)
    ensures HasType(Pair(a, b), Both(x, y))
    ensures Encode(Pair(a, b), Both(x, y)) == Encode(a, x).Then(Encode(b, y))
    ensures WellFormed(Pair(a, b), Both(x, y)) <==> WellFormed(a, x) && WellFormed(b, y)
  {
  }

  lemma {:induction false} EncodeStruct3(a: Ty, b: Ty, c: Ty, x: Value, y: Value, z: Value)
    requires HasType(a, x) && HasType(b, y) && HasType(c, z)
    ensures HasType(S3(a, b, c), V3(x, y, z))
    ensures Encode(S3(a, b, c), V3(x, y, z)) == Encode(a, x).Then(Encode(b, y).Then(Encode(c, z)))
  {
    Typed3(a, b, c, x, y, z);
    Typed2(b, c, y, z);
    Typed1(c, z);
    EncodePair(a, S2(b, c), x, V2(y, z));
    EncodePair(b, S1(c), y, V1(z));
    EncodePair(c, Unit, z, Nil);
    hide HasType;
    var e := Encode(c, z);
    assert e.bytes + [] == e.bytes;
  }

  lemma {:induction false} DecodePair(x: Ty, y: Ty, b: seq<byte>)
    ensures Decode(Pair(x, y), b) ==
            match Decode(x, b)
            case Failed(e, r) => Failed(e, r)
            case Got(u, r) =>
              match Decode(y, r)
              case Failed(e, r') => Failed(e, r')
              case Got(v, r') => Got(Both(u, v), r')
  {
  }

  lemma {:induction false} DecodeStruct3(x: Ty, y: Ty, z: Ty, b: seq<byte>)
    ensures Decode(S3(x, y, z), b) ==
            match Decode(x, b)
            case Failed(e, r) => Failed(e, r)
            case Got(u, r) =>
              match Decode(y, r)
              case Failed(e, r') => Failed(e, r')
              case Got(v, r') =>
                match Decode(z, r')
                case Failed(e, r'') => Failed(e, r'')
                case Got(w, r'') => Got(V3(u, v, w), r'')
  {
    DecodePair(x, S2(y, z), b);
    if Decode(x, b).Got? {
      var r := Decode(x, b).rest;
      DecodePair(y, S1(z), r);
      if Decode(y, r).Got? {
        DecodePair(z, Unit, Decode(y, r).rest);
      }
    }
  }

  lemma {:induction false} DecodeVec(elem: Ty, b: seq<byte>)
    ensures Decode(Vec(elem), b) ==
            match DecodeU32(b)
            case Failed(e, r) => Failed(e, r)
            case Got(n, r) =>
              match DecodeItems(elem, n, r)
              case Failed(e, r') => Failed(e, r')
              case Got(vs, r') => Got(List(vs), r')
  {
  }

  lemma {:induction false} Aligned2(a: Ty, b: Ty)
    requires Laws.Aligned(a) && Laws.Aligned(b)
    ensures Laws.Aligned(S2(a, b))
  {
    assert Laws.Aligned(S1(b));
  }

  lemma {:induction false} Aligned3(a: Ty, b: Ty, c: Ty)
    requires Laws.Aligned(a) && Laws.Aligned(b) && Laws.Aligned(c)
    ensures Laws.Aligned(S3(a, b, c))
  {
    Aligned2(b, c);
  }

  lemma {:induction false} Aligned4(a: Ty, b: Ty, c: Ty, d: Ty)
    requires Laws.Aligned(a) && Laws.Aligned(b) && Laws.Aligned(c) && Laws.Aligned(d)
    ensures Laws.Aligned(S4(a, b, c, d))
  {
    Aligned3(b, c, d);
  }

  lemma {:induction false} Aligned5(a: Ty, b: Ty, c: Ty, d: Ty, e: Ty)
    requires Laws.Aligned(a) && Laws.Aligned(b) && Laws.Aligned(c) && Laws.Aligned(d) && Laws.Aligned(e)
    ensures Laws.Aligned(S5(a, b, c, d, e))
  {
    Aligned4(b, c, d, e);
  }

  lemma {:induction false} Aligned6(a: Ty, b: Ty, c: Ty, d: Ty, e: Ty, f: Ty)
    requires Laws.Aligned(a) && Laws.Aligned(b) && Laws.Aligned(c) && Laws.Aligned(d) && Laws.Aligned(e)
        && Laws.Aligned(f)
    ensures Laws.Aligned(S6(a, b, c, d, e, f))
  {
    Aligned5(b, c, d, e, f);
  }

  lemma {:induction false} Aligned7(a: Ty, b: Ty, c: Ty, d: Ty, e: Ty, f: Ty, g: Ty)
    requires Laws.Aligned(a) && Laws.Aligned(b) && Laws.Aligned(c) && Laws.Aligned(d) && Laws.Aligned(e)
        && Laws.Aligned(f) && Laws.Aligned(g)
    ensures Laws.Aligned(S7(a, b, c, d, e, f, g))
  {
    Aligned6(b, c, d, e, f, g);
  }

  // A struct is well-formed exactly when its fields are.

  lemma {:induction false} Formed1(a: Ty, x0: Value)
    requires HasType(a, x0)
    ensures HasType(S1(a), V1(x0)) && (WellFormed(S1(a), V1(x0)) <==> WellFormed(a, x0))
  {
    assert WellFormed(Unit, Nil);
  }

  lemma {:induction false} Formed2(a: Ty, b: Ty, x0: Value, x1: Value)
    requires HasType(a, x0) && HasType(b, x1)
    ensures HasType(S2(a, b), V2(x0, x1))
    ensures WellFormed(S2(a, b), V2(x0, x1)) <==>
            WellFormed(a, x0) && WellFormed(b, x1)
  {
    Formed1(b, x1);
  }

  lemma {:induction false} Formed3(a: Ty, b: Ty, c: Ty, x0: Value, x1: Value, x2: Value)
    requires HasType(a, x0) && HasType(b, x1) && HasType(c, x2)
    ensures HasType(S3(a, b, c), V3(x0, x1, x2))
    ensures WellFormed(S3(a, b, c), V3(x0, x1, x2)) <==>
            WellFormed(a, x0) && WellFormed(b, x1) && WellFormed(c, x2)
  {
    Formed2(b, c, x1, x2);
  }

  lemma {:induction false} Formed4(a: Ty, b: Ty, c: Ty, d: Ty, x0: Value, x1: Value, x2: Value, x3: Value)
    requires HasType(a, x0) && HasType(b, x1) && HasType(c, x2) && HasType(d, x3)
    ensures HasType(S4(a, b, c, d), V4(x0, x1, x2, x3))
    ensures WellFormed(S4(a, b, c, d), V4(x0, x1, x2, x3)) <==>
            WellFormed(a, x0) && WellFormed(b, x1) && WellFormed(c, x2) && WellFormed(d, x3)
  {
    Formed3(b, c, d, x1, x2, x3);
  }

  lemma {:induction false} Formed5(a: Ty, b: Ty, c: Ty, d: Ty, e: Ty, x0: Value, x1: Value, x2: Value, x3: Value,
      x4: Value)
    requires HasType(a, x0) && HasType(b, x1) && HasType(c, x2) && HasType(d, x3) && HasType(e, x4)
    ensures HasType(S5(a, b, c, d, e), V5(x0, x1, x2, x3, x4))
    ensures WellFormed(S5(a, b, c, d, e), V5(x0, x1, x2, x3, x4)) <==>
            WellFormed(a, x0) && WellFormed(b, x1) && WellFormed(c, x2) && WellFormed(d, x3) && WellFormed(e, x4)
  {
    Formed4(b, c, d, e, x1, x2, x3, x4);
  }

  lemma {:induction false} Formed6(a: Ty, b: Ty, c: Ty, d: Ty, e: Ty, f: Ty, x0: Value, x1: Value, x2: Value,
      x3: Value, x4: Value, x5: Value)
    requires HasType(a, x0) && HasType(b, x1) && HasType(c, x2) && HasType(d, x3) && HasType(e, x4) && HasType(f, x5)
    ensures HasType(S6(a, b, c, d, e, f), V6(x0, x1, x2, x3, x4, x5))
    ensures WellFormed(S6(a, b, c, d, e, f), V6(x0, x1, x2, x3, x4, x5)) <==>
            WellFormed(a, x0) && WellFormed(b, x1) && WellFormed(c, x2) && WellFormed(d, x3)
            && WellFormed(e, x4) && WellFormed(f, x5)
  {
    Formed5(b, c, d, e, f, x1, x2, x3, x4, x5);
  }

  lemma {:induction false} Formed7(a: Ty, b: Ty, c: Ty, d: Ty, e: Ty, f: Ty, g: Ty, x0: Value, x1: Value,
      x2: Value, x3: Value, x4: Value, x5: Value, x6: Value)
    requires HasType(a, x0) && HasType(b, x1) && HasType(c, x2) && HasType(d, x3) && HasType(e, x4)
        && HasType(f, x5) && HasType(g, x6)
    ensures HasType(S7(a, b, c, d, e, f, g), V7(x0, x1, x2, x3, x4, x5, x6))
    ensures WellFormed(S7(a, b, c, d, e, f, g), V7(x0, x1, x2, x3, x4, x5, x6)) <==>
            WellFormed(a, x0) && WellFormed(b, x1) && WellFormed(c, x2) && WellFormed(d, x3)
            && WellFormed(e, x4) && WellFormed(f, x5) && WellFormed(g, x6)
  {
    Formed6(b, c, d, e, f, g, x1, x2, x3, x4, x5, x6);
  }

  // Single fields: what each needs beyond its type.

  /** The length fits the length word. */
  predicate Fits<T>(s: seq<T>) { |s| < MAX_LEN }

  lemma {:induction false} TextFormed(t: Utf8)
    requires HasType(Text, Data(t))
    ensures WellFormed(Text, Data(t)) <==> Fits(t)
  {
    hide ValidUtf8;
  }

  lemma {:induction false} VecFormed(elem: Ty, v: Value)
    requires HasType(Vec(elem), v)
    ensures WellFormed(Vec(elem), v) <==> Fits(v.vs) && forall i | 0 <= i < |v.vs| :: WellFormed(elem, v.vs[i])
  {
  }

  lemma {:induction false} ChainFormed(elem: Ty, v: Value)
    requires HasType(Chain(elem), v)
    ensures WellFormed(Chain(elem), v) <==> forall i | 0 <= i < |v.vs| :: WellFormed(elem, v.vs[i])
  {
  }

  lemma {:induction false} PlainFormed(v: Value)
    ensures HasType(U32, v) ==> WellFormed(U32, v)
    ensures HasType(U64, v) ==> WellFormed(U64, v)
    ensures HasType(I64, v) ==> WellFormed(I64, v)
    ensures HasType(Bool, v) ==> WellFormed(Bool, v)
    ensures HasType(Fixed(8), v) ==> WellFormed(Fixed(8), v)
    ensures HasType(Fixed(12), v) ==> WellFormed(Fixed(12), v)
    ensures HasType(Fixed(16), v) ==> WellFormed(Fixed(16), v)
  {
  }

  lemma {:induction false} OpaqueFormed(d: seq<byte>)
    ensures HasType(Opaque, Data(d)) && (WellFormed(Opaque, Data(d)) <==> Fits(d))
  {
  }

  lemma {:induction false} WordsFormed(ws: seq<u32>)
    ensures WellFormed(Vec(U32), Words(ws)) <==> Fits(ws)
  {
  }

  lemma {:induction false} NumberFormed(n: u32)
    ensures HasType(U32, Num(n)) && WellFormed(U32, Num(n))
  {
  }

  lemma {:induction false} FlagFormed(b: bool)
    ensures HasType(Bool, Flag(b)) && WellFormed(Bool, Flag(b))
  {
  }

  lemma {:induction false} LongFormed(n: u64)
    ensures HasType(U64, Num(n)) && WellFormed(U64, Num(n))
  {
  }

  lemma {:induction false} FixedFormed(d: seq<byte>)
    ensures HasType(Fixed(|d|), Data(d)) && WellFormed(Fixed(|d|), Data(d))
  {
  }
}
