/** What goes over the wire, byte by byte: the layout of each shape written out on its
    own, from which the layouts of requests, results and messages are put together. A
    form is the list of the byte strings that follow one another. */
module WireForms {
  import opened Wire
  import opened Xdr
  import opened XdrStructs
  import opened Nfs4Types
  import opened SendableResults

  type Form = seq<seq<byte>>

  function W32(n: u32): seq<byte> {
    [n / 0x100_0000, n / 0x1_0000 % 0x100, n / 0x100 % 0x100, n % 0x100]
  }

  function W64(n: u64): seq<byte> {
    var high := n / 0x1_0000_0000;
    [high / 0x100_0000, high / 0x1_0000 % 0x100, high / 0x100 % 0x100, high % 0x100,
     n / 0x100_0000 % 0x100, n / 0x1_0000 % 0x100, n / 0x100 % 0x100, n % 0x100]
  }

  /** A signed number in two's complement. */
  function Twos(n: i64): seq<byte> {
    W64(if n >= 0 then n else n + 0x1_0000_0000_0000_0000)
  }

  function Truth(b: bool): seq<byte> { if b then [0, 0, 0, 1] else [0, 0, 0, 0] }

  /** Length, bytes, and zeros up to a multiple of four. */
  function Str(d: seq<byte>): seq<byte>
    requires Fits(d)
  {
    W32(|d|) + d + (match |d| % 4 case 0 => [] case 1 => [0, 0, 0] case 2 => [0, 0] case _ => [0])
  }

  /** Count, then the items one after the other. */
  function Listed<T>(items: seq<T>, form: T --> Form): Form
    requires Fits(items) && forall i | 0 <= i < |items| :: form.requires(items[i])
  {
    [W32(|items|)] + Each(items, form)
  }

  function Each<T>(items: seq<T>, form: T --> Form): Form
    requires forall i | 0 <= i < |items| :: form.requires(items[i])
  {
    if items == [] then [] else form(items[0]) + Each(items[1..], form)
  }

  /** v of type ty is written as the form f. */
  predicate Shows(ty: Ty, v: Value, f: Form) {
    HasType(ty, v) && Encode(ty, v) == Wrote(Concat(f))
  }

  // ------------------------------------------------------------------ leaves

  lemma {:induction false} ConcatOne(d: seq<byte>)
    ensures Concat([d]) == d
  {
    assert [d][1..] == [] && Concat([]) == [];
  }

  lemma {:induction false} ConcatJoin(f: Form, g: Form)
    ensures Concat(f + g) == Concat(f) + Concat(g)
  {
    if f == [] {
      assert f + g == g;
    } else {
      assert (f + g)[0] == f[0] && (f + g)[1..] == f[1..] + g;
      ConcatJoin(f[1..], g);
    }
  }

  lemma {:induction false} WordShows(n: u32)
    ensures Shows(U32, Num(n), [W32(n)]) && BigEndian32(n) == W32(n)
  {
    BigEndianBytes(n, 0);
    ConcatOne(W32(n));
  }

  lemma {:induction false} StatusShows(s: NfsStat4)
    ensures Shows(STAT, Num(s), [W32(s)])
  {
    hide StatusCodes, IsStatus, BigEndian32;
    StatusTyped(s);
    WordShows(s);
    ConcatOne(W32(s));
  }

  lemma {:induction false} LongBytes(n: u64)
    ensures BigEndian64(n) == W64(n)
  {
    BigEndianBytes(0, n);
  }

  lemma {:induction false} LongShows(n: u64)
    ensures Shows(U64, Num(n), [W64(n)])
  {
    hide W64, BigEndian64;
    LongBytes(n);
    ConcatOne(W64(n));
  }

  lemma {:induction false} TwosShows(n: i64)
    ensures Shows(I64, Num(n), [Twos(n)])
  {
    hide W64, BigEndian64;
    var m: u64 := if n >= 0 then n else n + 0x1_0000_0000_0000_0000;
    assert Unsigned(n, U64_MODULUS) == m;
    LongBytes(m);
    ConcatOne(Twos(n));
  }

  lemma {:induction false} TruthShows(b: bool)
    ensures Shows(Bool, Flag(b), [Truth(b)])
  {
    WordShows(if b then 1 else 0);
    ConcatOne(Truth(b));
  }

  lemma {:induction false} FixedShows(d: seq<byte>)
    ensures Shows(Fixed(|d|), Data(d), [d])
  {
    ConcatOne(d);
  }

  lemma {:induction false} UnitShows()
    ensures Shows(Unit, Nil, [])
  {
  }

  lemma {:induction false} OpaqueForm(d: seq<byte>)
    ensures EncodeOpaque(d) == if |d| < 0x1_0000_0000 then Wrote(Str(d)) else Stuck(LengthExceeded(0xFFFF_FFFF, 0), [])
  {
    if Fits(d) {
      WordShows(|d|);
      match |d| % 4
      case 0 => assert Zeros(Padding(|d|)) == [];
      case 1 => assert Zeros(Padding(|d|)) == [0, 0, 0];
      case 2 => assert Zeros(Padding(|d|)) == [0, 0];
      case _ => assert Zeros(Padding(|d|)) == [0];
    }
  }

  lemma {:induction false} OpaqueShows(d: seq<byte>)
    requires Fits(d)
    ensures Shows(Opaque, Data(d), [Str(d)]) && Shows(Handle(128), Data(d), [Str(d)])
  {
    hide Str, EncodeOpaque;
    OpaqueForm(d);
    ConcatOne(Str(d));
  }

  lemma {:induction false} TextShows(t: Utf8)
    requires Fits(t)
    ensures Shows(Text, Data(t), [Str(t)])
  {
    hide Str, EncodeOpaque, ValidUtf8;
    OpaqueForm(t);
    ConcatOne(Str(t));
  }

  // ------------------------------------------------------------------ shapes

  lemma {:induction false} PairShows(a: Ty, x: Value, f: Form, b: Ty, y: Value, g: Form)
    requires Shows(a, x, f) && Shows(b, y, g)
    ensures Shows(Pair(a, b), Both(x, y), f + g)
  {
    hide HasType, Encode, Concat;
    EncodePair(a, b, x, y);
    ConcatJoin(f, g);
  }

  lemma {:induction false} Shows1(a: Ty, x: Value, f: Form)
    requires Shows(a, x, f)
    ensures Shows(S1(a), V1(x), f)
  {
    hide Shows;
    UnitShows();
    PairShows(a, x, f, Unit, Nil, []);
    assert f + [] == f;
  }

  lemma {:induction false} Shows2(a: Ty, b: Ty, x: Value, y: Value, f: Form, g: Form)
    requires Shows(a, x, f) && Shows(b, y, g)
    ensures Shows(S2(a, b), V2(x, y), f + g)
  {
    hide Shows;
    Shows1(b, y, g);
    PairShows(a, x, f, S1(b), V1(y), g);
  }

  lemma {:induction false} Shows3(a: Ty, b: Ty, c: Ty, x: Value, y: Value, z: Value, f: Form, g: Form, h: Form)
    requires Shows(a, x, f) && Shows(b, y, g) && Shows(c, z, h)
    ensures Shows(S3(a, b, c), V3(x, y, z), f + (g + h))
  {
    hide Shows;
    Shows2(b, c, y, z, g, h);
    PairShows(a, x, f, S2(b, c), V2(y, z), g + h);
  }

  lemma {:induction false} Shows4(a: Ty, b: Ty, c: Ty, d: Ty, x0: Value, x1: Value, x2: Value, x3: Value, f0: Form,
      f1: Form, f2: Form, f3: Form)
    requires Shows(a, x0, f0) && Shows(b, x1, f1) && Shows(c, x2, f2) && Shows(d, x3, f3)
    ensures Shows(S4(a, b, c, d), V4(x0, x1, x2, x3), f0 + (f1 + (f2 + (f3))))
  {
    hide Shows;
    Shows3(b, c, d, x1, x2, x3, f1, f2, f3);
    PairShows(a, x0, f0, S3(b, c, d), V3(x1, x2, x3), f1 + (f2 + (f3)));
  }

  lemma {:induction false} Shows5(a: Ty, b: Ty, c: Ty, d: Ty, e: Ty, x0: Value, x1: Value, x2: Value, x3: Value,
      x4: Value, f0: Form, f1: Form, f2: Form, f3: Form, f4: Form)
    requires Shows(a, x0, f0) && Shows(b, x1, f1) && Shows(c, x2, f2) && Shows(d, x3, f3) && Shows(e, x4, f4)
    ensures Shows(S5(a, b, c, d, e), V5(x0, x1, x2, x3, x4), f0 + (f1 + (f2 + (f3 + (f4)))))
  {
    hide Shows;
    Shows4(b, c, d, e, x1, x2, x3, x4, f1, f2, f3, f4);
    PairShows(a, x0, f0, S4(b, c, d, e), V4(x1, x2, x3, x4), f1 + (f2 + (f3 + (f4))));
  }

  lemma {:induction false} Shows6(a: Ty, b: Ty, c: Ty, d: Ty, e: Ty, f: Ty, x0: Value, x1: Value, x2: Value,
      x3: Value, x4: Value, x5: Value, f0: Form, f1: Form, f2: Form, f3: Form, f4: Form, f5: Form)
    requires Shows(a, x0, f0) && Shows(b, x1, f1) && Shows(c, x2, f2) && Shows(d, x3, f3) && Shows(e, x4, f4)
        && Shows(f, x5, f5)
    ensures Shows(S6(a, b, c, d, e, f), V6(x0, x1, x2, x3, x4, x5), f0 + (f1 + (f2 + (f3 + (f4 + (f5))))))
  {
    hide Shows;
    Shows5(b, c, d, e, f, x1, x2, x3, x4, x5, f1, f2, f3, f4, f5);
    PairShows(a, x0, f0, S5(b, c, d, e, f), V5(x1, x2, x3, x4, x5), f1 + (f2 + (f3 + (f4 + (f5)))));
  }

  lemma {:induction false} Shows7(a: Ty, b: Ty, c: Ty, d: Ty, e: Ty, f: Ty, g: Ty, x0: Value, x1: Value, x2: Value,
      x3: Value, x4: Value, x5: Value, x6: Value, f0: Form, f1: Form, f2: Form, f3: Form, f4: Form, f5: Form, f6: Form)
    requires Shows(a, x0, f0) && Shows(b, x1, f1) && Shows(c, x2, f2) && Shows(d, x3, f3) && Shows(e, x4, f4)
        && Shows(f, x5, f5) && Shows(g, x6, f6)
    ensures Shows(S7(a, b, c, d, e, f, g), V7(x0, x1, x2, x3, x4, x5, x6), f0 + (f1 + (f2 + (f3 + (f4 + (f5 + (f6)))))))
  {
    hide Shows;
    Shows6(b, c, d, e, f, g, x1, x2, x3, x4, x5, x6, f1, f2, f3, f4, f5, f6);
    PairShows(a, x0, f0, S6(b, c, d, e, f, g), V6(x1, x2, x3, x4, x5, x6), f1 + (f2 + (f3 + (f4 + (f5 + (f6))))));
  }

  lemma {:induction false} ArmShows(name: string, arms: seq<Arm>, k: nat, payload: Value, f: Form)
    requires k < |arms| && Shows(arms[k].body, payload, f)
    ensures Shows(Enum(name, arms), Variant(k, payload), [W32(arms[k].discriminant)] + f)
  {
    hide BigEndian32, W32;
    var n := arms[k].discriminant;
    WordShows(n);
    ConcatOne(W32(n));
    ConcatJoin([W32(n)], f);
  }

  lemma {:induction false} GuardShows<T>(ok: Ty, r: Res<T>, body: T -> Value, f: Form)
    requires r.resok.Some? ==> Shows(ok, body(r.resok.value), f)
    requires r.resok.None? ==> f == []
    ensures Shows(Guarded(STAT, ok), ResValue(r, body), [W32(r.status)] + f)
  {
    hide StatusCodes, IsStatus, W32;
    StatusShows(r.status);
    ConcatOne(W32(r.status));
    ConcatJoin([W32(r.status)], f);
    assert [W32(r.status)] + [] == [W32(r.status)];
  }

  /** A list whose items show their forms. */
  predicate EachShows<T>(elem: Ty, vs: seq<Value>, items: seq<T>, form: T --> Form)
    requires forall i | 0 <= i < |items| :: form.requires(items[i])
  {
    |vs| == |items| && forall i | 0 <= i < |items| :: Shows(elem, vs[i], form(items[i]))
  }

  lemma {:induction false} ItemsShow<T>(elem: Ty, vs: seq<Value>, items: seq<T>, form: T --> Form)
    requires forall i | 0 <= i < |items| :: form.requires(items[i])
    requires EachShows(elem, vs, items, form)
    ensures forall i | 0 <= i < |vs| :: HasType(elem, vs[i])
    ensures EncodeItems(elem, vs) == Wrote(Concat(Each(items, form)))
    decreases |items|
  {
    hide HasType, Encode;
    assert forall i | 0 <= i < |vs| :: Shows(elem, vs[i], form(items[i]));
    if items == [] {
      assert Each(items, form) == [];
    } else {
      ItemsShow(elem, vs[1..], items[1..], form);
      ConcatJoin(form(items[0]), Each(items[1..], form));
    }
  }

  lemma {:induction false} VecShows<T>(elem: Ty, vs: seq<Value>, items: seq<T>, form: T --> Form)
    requires Fits(items) && forall i | 0 <= i < |items| :: form.requires(items[i])
    requires EachShows(elem, vs, items, form)
    ensures Shows(Vec(elem), List(vs), Listed(items, form))
  {
    hide BigEndian32, W32, EncodeItems;
    ItemsShow(elem, vs, items, form);
    WordShows(|vs|);
    ConcatOne(W32(|items|));
    ConcatJoin([W32(|items|)], Each(items, form));
  }

  // --------------------------------------------------- structs of NFS and RPC

  function WordForm(n: u32): Form { [W32(n)] }

  function WordsForm(ws: seq<u32>): Form
    requires Fits(ws)
  {
    Listed(ws, WordForm)
  }

  lemma {:induction false} WordsShow(ws: seq<u32>)
    requires Fits(ws)
    ensures Shows(Vec(U32), Words(ws), WordsForm(ws))
  {
    hide Shows, W32;
    var vs := Words(ws).vs;
    forall i | 0 <= i < |ws|
      ensures Shows(U32, vs[i], WordForm(ws[i]))
    {
      WordShows(ws[i]);
    }
    VecShows(U32, vs, ws, WordForm);
  }

  function StateForm(s: StateId4): Form { [W32(s.seqid), s.other] }

  function ChangeForm(c: ChangeInfo4): Form { [Truth(c.atomic), W64(c.before), W64(c.after)] }

  function FattrForm(a: Fattr4): Form
    requires FattrFits(a)
  {
    WordsForm(a.attrmask.words) + [Str(a.attrVals)]
  }

  function ImplForm(i: NfsImplId4): Form
    requires ImplFits(i)
  {
    [Str(i.domain), Str(i.name), Twos(i.date.seconds), W32(i.date.nseconds)]
  }

  function ChannelForm(c: ChannelAttrs4): Form
    requires Fits(c.rdmaIrd)
  {
    [W32(c.headerPadSize), W32(c.maxRequestSize), W32(c.maxResponseSize), W32(c.maxResponseSizeCached),
     W32(c.maxOperations), W32(c.maxRequests)] + WordsForm(c.rdmaIrd)
  }

  lemma {:induction false} StateShows(s: StateId4)
    ensures Shows(STATE_ID, StateIdValue(s), StateForm(s))
  {
    hide Shows, W32;
    WordShows(s.seqid);
    FixedShows(s.other);
    Shows2(U32, Fixed(12), Num(s.seqid), Data(s.other), [W32(s.seqid)], [s.other]);
    assert [W32(s.seqid)] + [s.other] == StateForm(s);
  }

  lemma {:induction false} ChangeShows(c: ChangeInfo4)
    ensures Shows(CHANGE_INFO, ChangeInfoValue(c), ChangeForm(c))
  {
    hide Shows, W64, Truth;
    TruthShows(c.atomic);
    LongShows(c.before);
    LongShows(c.after);
    Shows3(Bool, U64, U64, Flag(c.atomic), Num(c.before), Num(c.after), [Truth(c.atomic)], [W64(c.before)],
           [W64(c.after)]);
    assert [Truth(c.atomic)] + ([W64(c.before)] + [W64(c.after)]) == ChangeForm(c);
  }

  lemma {:induction false} BitmapShows(b: Bitmap4)
    requires Fits(b.words)
    ensures Shows(BITMAP, BitmapValue(b), WordsForm(b.words))
  {
    hide Shows, WordsForm, Words;
    WordsShow(b.words);
    Shows1(Vec(U32), Words(b.words), WordsForm(b.words));
  }

  lemma {:induction false} FattrShows(a: Fattr4)
    requires FattrFits(a)
    ensures Shows(FATTR, FattrValue(a), FattrForm(a))
  {
    hide Shows, WordsForm, Str, BitmapValue;
    BitmapShows(a.attrmask);
    OpaqueShows(a.attrVals);
    Shows2(BITMAP, Opaque, BitmapValue(a.attrmask), Data(a.attrVals), WordsForm(a.attrmask.words), [Str(a.attrVals)]);
  }

  lemma {:induction false} ImplShows(i: NfsImplId4)
    requires ImplFits(i)
    ensures Shows(IMPL_ID, ImplIdValue(i), ImplForm(i))
  {
    hide Shows, Str, Twos, W32, ValidUtf8;
    TextShows(i.domain);
    TextShows(i.name);
    TwosShows(i.date.seconds);
    WordShows(i.date.nseconds);
    var date := V2(Num(i.date.seconds), Num(i.date.nseconds));
    var dateForm := [Twos(i.date.seconds)] + [W32(i.date.nseconds)];
    Shows2(I64, U32, Num(i.date.seconds), Num(i.date.nseconds), [Twos(i.date.seconds)], [W32(i.date.nseconds)]);
    Shows3(Text, Text, TIME, Data(i.domain), Data(i.name), date, [Str(i.domain)], [Str(i.name)], dateForm);
    assert [Str(i.domain)] + ([Str(i.name)] + dateForm) == ImplForm(i);
  }

  lemma {:induction false} ImplsShow(ids: seq<NfsImplId4>)
    requires Fits(ids) && forall i | 0 <= i < |ids| :: ImplFits(ids[i])
    ensures Shows(Vec(IMPL_ID), ImplIdsValue(ids), Listed(ids, ImplForm))
  {
    hide Shows, ImplForm, ImplFits, ImplIdValue;
    var vs := ImplIdsValue(ids).vs;
    forall i | 0 <= i < |ids|
      ensures Shows(IMPL_ID, vs[i], ImplForm(ids[i]))
    {
      ImplShows(ids[i]);
    }
    VecShows(IMPL_ID, vs, ids, ImplForm);
  }

  lemma {:induction false} ChannelShows(c: ChannelAttrs4)
    requires Fits(c.rdmaIrd)
    ensures Shows(CHANNEL_ATTRS, ChannelValue(c), ChannelForm(c))
  {
    hide Shows, W32, WordsForm, Words;
    WordShows(c.headerPadSize);
    WordShows(c.maxRequestSize);
    WordShows(c.maxResponseSize);
    WordShows(c.maxResponseSizeCached);
    WordShows(c.maxOperations);
    WordShows(c.maxRequests);
    WordsShow(c.rdmaIrd);
    Shows7(U32, U32, U32, U32, U32, U32, Vec(U32),
           Num(c.headerPadSize), Num(c.maxRequestSize), Num(c.maxResponseSize), Num(c.maxResponseSizeCached),
           Num(c.maxOperations), Num(c.maxRequests), Words(c.rdmaIrd),
           [W32(c.headerPadSize)], [W32(c.maxRequestSize)], [W32(c.maxResponseSize)], [W32(c.maxResponseSizeCached)],
           [W32(c.maxOperations)], [W32(c.maxRequests)], WordsForm(c.rdmaIrd));
    assert [W32(c.headerPadSize)] + ([W32(c.maxRequestSize)] + ([W32(c.maxResponseSize)]
        + ([W32(c.maxResponseSizeCached)] + ([W32(c.maxOperations)] + ([W32(c.maxRequests)]
        + WordsForm(c.rdmaIrd)))))) == ChannelForm(c);
  }
}
