/** How long an encoding can be: a bound read off the value alone. */
module EncodedSize {
  import opened Xdr
  import opened XdrStructs

  /** At most this many bytes, whatever the type of the value. */
  function Weight(v: Value): nat
    decreases v
  {
    match v
    case Num(_) => 8
    case Flag(_) => 4
    case Data(d) => |d| + 7
    case List(vs) => 4 + WeightAll(vs)
    case Absent => 4
    case Present(w) => 4 + Weight(w)
    case Nil => 0
    case Both(x, y) => Weight(x) + Weight(y)
    case Variant(_, payload) => 4 + Weight(payload)
  }

  function WeightAll(vs: seq<Value>): nat
    decreases vs
  {
    if vs == [] then 0 else 4 + Weight(vs[0]) + WeightAll(vs[1..])
  }

  lemma {:induction false} SizeBound(ty: Ty, v: Value)
    requires HasType(ty, v)
    ensures |Encode(ty, v).bytes| <= Weight(v)
    decreases ty, 0
  {
    match ty
    case Vec(elem) =>
      SizeBoundItems(elem, v.vs);
    case Opt(elem) =>
      if v.Present? {
        SizeBound(elem, v.v);
      }
    case Pair(first, second) =>
      SizeBound(first, v.x);
      SizeBound(second, v.y);
    case Enum(_, arms) =>
      SizeBound(arms[v.index].body, v.payload);
    case Guarded(status, ok) =>
      SizeBound(status, v.x);
      if v.y.Present? {
        SizeBound(ok, v.y.v);
      }
    case Chain(entry) =>
      SizeBoundChain(entry, v.vs);
    case _ =>
  }

  lemma {:induction false} SizeBoundItems(elem: Ty, vs: seq<Value>)
    requires forall i | 0 <= i < |vs| :: HasType(elem, vs[i])
    ensures |EncodeItems(elem, vs).bytes| <= WeightAll(vs)
    decreases elem, |vs| + 1
  {
    if vs != [] {
      SizeBound(elem, vs[0]);
      SizeBoundItems(elem, vs[1..]);
    }
  }

  lemma {:induction false} SizeBoundChain(entry: Ty, vs: seq<Value>)
    requires forall i | 0 <= i < |vs| :: HasType(entry, vs[i])
    ensures |EncodeChain(entry, vs).bytes| <= 4 + WeightAll(vs)
    decreases entry, |vs| + 1
  {
    if vs != [] {
      SizeBound(entry, vs[0]);
      SizeBoundChain(entry, vs[1..]);
    }
  }

  /** A list of values none of which is heavier than w. */
  lemma {:induction false} WeightOfMany(vs: seq<Value>, w: nat)
    requires forall i | 0 <= i < |vs| :: Weight(vs[i]) <= w
    ensures WeightAll(vs) <= |vs| * (w + 4)
    decreases |vs|
  {
    if vs != [] {
      WeightOfMany(vs[1..], w);
      assert |vs| * (w + 4) == (|vs| - 1) * (w + 4) + (w + 4);
    }
  }

  // Structs weigh what their fields weigh.

  lemma {:induction false} Weight3(a: Value, b: Value, c: Value)
    ensures Weight(V3(a, b, c)) == Weight(a) + Weight(b) + Weight(c)
  {
    assert Weight(V1(c)) == Weight(c);
    assert Weight(V2(b, c)) == Weight(b) + Weight(V1(c));
  }

  lemma {:induction false} Weight5(a: Value, b: Value, c: Value, d: Value, e: Value)
    ensures Weight(V5(a, b, c, d, e)) == Weight(a) + Weight(b) + Weight(c) + Weight(d) + Weight(e)
  {
    hide V3;
    Weight3(c, d, e);
    assert Weight(V4(b, c, d, e)) == Weight(b) + Weight(V3(c, d, e));
  }

  lemma {:induction false} Weight7(a: Value, b: Value, c: Value, d: Value, e: Value, f: Value, g: Value)
    ensures Weight(V6(b, c, d, e, f, g)) == Weight(b) + Weight(c) + Weight(d) + Weight(e) + Weight(f) + Weight(g)
    ensures Weight(V7(a, b, c, d, e, f, g)) == Weight(a) + Weight(V6(b, c, d, e, f, g))
  {
    hide V5;
    Weight5(c, d, e, f, g);
  }
}
