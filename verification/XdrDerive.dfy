/** The derive macro: a compiler from a Rust item to the code of its encoder and
    decoder. The item's syntax, the generated code and what that code does on a
    value and a buffer are all modelled; the generated pair is proved to be the
    codec of Xdr.Ty for the item, and so inherits its laws. */
module XdrDerive {
  import opened Wire
  import opened Xdr
  import opened Options
  import Laws = XdrLaws

  // ------------------------------------------------- what the macro is given

  datatype Expr = IntLit(n: nat) | OtherExpr

  datatype NameValue = NameValue(path: string, value: Expr)

  /** An attribute's argument list, parsed; None when it is not name = value. */
  datatype Meta = ArgList(nested: Option<NameValue>) | OtherMeta

  datatype Attr = Attr(path: string, meta: Meta)

  datatype Field = Field(name: string, ty: Ty)

  datatype Fields = Named(named: seq<Field>) | Unnamed(types: seq<Ty>) | NoFields

  datatype VariantItem = VariantItem(ident: string, attrs: seq<Attr>, discriminant: Option<Expr>, fields: Fields)

  datatype Item =
    | StructItem(name: string, fields: Fields)
    | EnumItem(name: string, variants: seq<VariantItem>)
    | UnionItem(name: string)

  // --------------------------------------------------- what the macro yields

  /** self.name or self.0; in a match arm the binding of that field. */
  datatype Key = Ident(name: string) | Index(i: nat)

  /** The codec of a field is the one of its type, found by inference. */
  datatype Stmt = EncodeWord(d: u32) | EncodeField(key: Key, ty: Ty)

  datatype Init = Init(key: Key, ty: Ty)

  datatype EncodeArm = EncodeArm(ident: string, body: seq<Stmt>)

  datatype DecodeArm = DecodeArm(pattern: u32, ident: string, inits: seq<Init>)

  datatype EncodeCode = EncodeFields(body: seq<Stmt>) | MatchSelf(arms: seq<EncodeArm>)

  datatype DecodeCode = Construct(inits: seq<Init>) | MatchWord(arms: seq<DecodeArm>, typeName: string)

  function EncodeStructFields(fields: Fields): seq<Stmt> {
    match fields
    case Named(named) =>
      seq(|named|, i requires 0 <= i < |named| => EncodeField(Ident(named[i].name), named[i].ty))
    case Unnamed(types) =>
      seq(|types|, i requires 0 <= i < |types| => EncodeField(Index(i), types[i]))
    case NoFields => []
  }

  function DecodeStructFields(fields: Fields): seq<Init> {
    match fields
    case Named(named) => seq(|named|, i requires 0 <= i < |named| => Init(Ident(named[i].name), named[i].ty))
    case Unnamed(types) => seq(|types|, i requires 0 <= i < |types| => Init(Index(i), types[i]))
    case NoFields => []
  }

  function ParseU32(e: Expr): Option<u32> {
    if e.IntLit? && e.n < U32_MODULUS then Some(e.n) else None
  }

  /** The first xdr(discriminant = literal) attribute decides, even when its
      literal does not fit; only without one does the Rust discriminant count. */
  function GetDiscriminant(v: VariantItem): Option<u32> {
    AttrDiscriminant(v.attrs, if v.discriminant.Some? then ParseU32(v.discriminant.value) else None)
  }

  function AttrDiscriminant(attrs: seq<Attr>, fallback: Option<u32>): Option<u32> {
    if attrs == [] then fallback
    else if IsDiscriminant(attrs[0]) then ParseU32(attrs[0].meta.nested.value.value)
    else AttrDiscriminant(attrs[1..], fallback)
  }

  predicate IsDiscriminant(a: Attr) {
    a.path == "xdr" && a.meta.ArgList? && a.meta.nested.Some?
    && a.meta.nested.value.path == "discriminant" && a.meta.nested.value.value.IntLit?
  }

  /** None: the macro panics, because a variant has no discriminant. */
  function EncodeEnumVariants(variants: seq<VariantItem>): Option<seq<EncodeArm>> {
    if variants == [] then Some([])
    else
      var d, others := GetDiscriminant(variants[0]), EncodeEnumVariants(variants[1..]);
      if d.None? || others.None? then None
      else
        Some([EncodeArm(variants[0].ident, [EncodeWord(d.value)] + EncodeStructFields(variants[0].fields))]
             + others.value)
  }

  function DecodeEnumVariants(variants: seq<VariantItem>): Option<seq<DecodeArm>> {
    if variants == [] then Some([])
    else
      var d, others := GetDiscriminant(variants[0]), DecodeEnumVariants(variants[1..]);
      if d.None? || others.None? then None
      else Some([DecodeArm(d.value, variants[0].ident, DecodeStructFields(variants[0].fields))] + others.value)
  }

  function DeriveEncode(item: Item): Option<EncodeCode> {
    match item
    case StructItem(_, fields) => Some(EncodeFields(EncodeStructFields(fields)))
    case EnumItem(_, variants) =>
      var arms := EncodeEnumVariants(variants);
      if arms.None? then None else Some(MatchSelf(arms.value))
    case UnionItem(_) => None
  }

  function DeriveDecode(item: Item): Option<DecodeCode> {
    match item
    case StructItem(_, fields) => Some(Construct(DecodeStructFields(fields)))
    case EnumItem(name, variants) =>
      var arms := DecodeEnumVariants(variants);
      if arms.None? then None else Some(MatchWord(arms.value, name))
    case UnionItem(_) => None
  }

  // -------------------------------------------- what the generated code does

  /** A value of the item: its variant (none for a struct) and its fields. */
  datatype Instance = Instance(variant: string, members: map<Key, Value>)

  predicate Runnable(body: seq<Stmt>, m: map<Key, Value>) {
    forall s | s in body && s.EncodeField? :: s.key in m && HasType(s.ty, m[s.key])
  }

  function RunBody(body: seq<Stmt>, m: map<Key, Value>): Encoded
    requires Runnable(body, m)
  {
    if body == [] then Wrote([])
    else
      var first := match body[0]
        case EncodeWord(d) => Wrote(BigEndian32(d))
        case EncodeField(key, ty) => Encode(ty, m[key]);
      first.Then(RunBody(body[1..], m))
  }

  /** match self: the arm of the value's variant. */
  function RunEncodeArms(arms: seq<EncodeArm>, x: Instance): Encoded
    requires forall a | a in arms && a.ident == x.variant :: Runnable(a.body, x.members)
  {
    if arms == [] then Wrote([])
    else if arms[0].ident == x.variant then RunBody(arms[0].body, x.members)
    else RunEncodeArms(arms[1..], x)
  }

  function RunInits(inits: seq<Init>, b: seq<byte>): Decoded<map<Key, Value>>
    decreases |inits|
  {
    if inits == [] then Got(map[], b)
    else
      var (v, r) :- Decode(inits[0].ty, b);
      var (m, r') :- RunInits(inits[1..], r);
      Got(m[inits[0].key := v], r')
  }

  /** match discriminant: the first arm whose pattern it is. */
  function RunDecodeArms(arms: seq<DecodeArm>, typeName: string, d: u32, b: seq<byte>): Decoded<Instance> {
    if arms == [] then Failed(InvalidEnum(d, typeName), b)
    else if arms[0].pattern == d then
      var (m, r) :- RunInits(arms[0].inits, b);
      Got(Instance(arms[0].ident, m), r)
    else RunDecodeArms(arms[1..], typeName, d, b)
  }

  function RunDecode(code: DecodeCode, b: seq<byte>): Decoded<Instance> {
    match code
    case Construct(inits) => var (m, r) :- RunInits(inits, b); Got(Instance("", m), r)
    case MatchWord(arms, typeName) =>
      var (d, r) :- DecodeU32(b);
      RunDecodeArms(arms, typeName, d, r)
  }

  // ------------------------------------------------------ the schema it is

  function Lower(inits: seq<Init>): Ty {
    if inits == [] then Unit else Pair(inits[0].ty, Lower(inits[1..]))
  }

  /** The schema of a derived item. */
  function SchemaOf(code: DecodeCode): Ty {
    match code
    case Construct(inits) => Lower(inits)
    case MatchWord(arms, typeName) =>
      Enum(typeName, LowerArms(arms))
  }

  function KeysOf(inits: seq<Init>): set<Key> {
    set i | 0 <= i < |inits| :: inits[i].key
  }

  /** What rustc checks: no field name twice. */
  predicate Distinct(inits: seq<Init>) {
    forall i, j | 0 <= i < j < |inits| :: inits[i].key != inits[j].key
  }

  predicate FieldsTyped(inits: seq<Init>, m: map<Key, Value>) {
    forall i | 0 <= i < |inits| :: inits[i].key in m && HasType(inits[i].ty, m[inits[i].key])
  }

  function LowerFields(inits: seq<Init>, m: map<Key, Value>): (v: Value)
    requires FieldsTyped(inits, m)
    ensures HasType(Lower(inits), v)
  {
    if inits == [] then Nil
    else
      assert FieldsTyped(inits[1..], m);
      Both(m[inits[0].key], LowerFields(inits[1..], m))
  }

  /** The statements the encoder runs for the same fields. */
  function Statements(inits: seq<Init>): seq<Stmt> {
    seq(|inits|, i requires 0 <= i < |inits| => EncodeField(inits[i].key, inits[i].ty))
  }

  lemma SameFields(fields: Fields)
    ensures EncodeStructFields(fields) == Statements(DecodeStructFields(fields))
  {
  }

  lemma {:induction false} EncodeLowers(inits: seq<Init>, m: map<Key, Value>)
    requires FieldsTyped(inits, m)
    ensures Runnable(Statements(inits), m)
    ensures RunBody(Statements(inits), m) == Encode(Lower(inits), LowerFields(inits, m))
  {
    hide HasType;
    if inits != [] {
      assert FieldsTyped(inits[1..], m);
      EncodeLowers(inits[1..], m);
      assert Statements(inits)[1..] == Statements(inits[1..]);
      EncodePair(inits, m);
    }
  }

  lemma {:induction false} EncodePair(inits: seq<Init>, m: map<Key, Value>)
    requires FieldsTyped(inits, m) && inits != []
    ensures FieldsTyped(inits[1..], m)
    ensures Encode(Lower(inits), LowerFields(inits, m))
            == Encode(inits[0].ty, m[inits[0].key]).Then(Encode(Lower(inits[1..]), LowerFields(inits[1..], m)))
  {
  }

  /** The decoder's verdict is the schema's, field by field. */
  predicate SameVerdict(inits: seq<Init>, run: Decoded<map<Key, Value>>, dec: Decoded<Value>) {
    match run
    case Failed(e, rest) => dec == Failed(e, rest)
    case Got(m, rest) =>
      dec.Got? && dec.rest == rest && m.Keys == KeysOf(inits) && FieldsTyped(inits, m)
      && dec.value == LowerFields(inits, m)
  }

  lemma {:induction false} DecodeLowers(inits: seq<Init>, b: seq<byte>)
    requires Distinct(inits)
    ensures SameVerdict(inits, RunInits(inits, b), Decode(Lower(inits), b))
    decreases |inits|
  {
    hide HasType, Encode;
    if inits != [] {
      var first := Decode(inits[0].ty, b);
      if first.Got? {
        FirstFieldTyped(inits[0].ty, b);
        var later := inits[1..];
        DecodeLowers(later, first.rest);
        var run := RunInits(later, first.rest);
        if run.Got? {
          FieldsUpdate(inits, first.value, run.value);
        }
      }
    }
  }

  lemma {:induction false} FirstFieldTyped(ty: Ty, b: seq<byte>)
    requires Decode(ty, b).Got?
    ensures HasType(ty, Decode(ty, b).value)
  {
    Laws.Sound(ty, b);
  }

  lemma {:induction false} KeysUpdate(inits: seq<Init>, m: map<Key, Value>, v: Value)
    requires inits != [] && m.Keys == KeysOf(inits[1..])
    ensures m[inits[0].key := v].Keys == KeysOf(inits)
  {
    var later := inits[1..];
    forall k
      ensures k in KeysOf(inits) <==> k == inits[0].key || k in KeysOf(later)
    {
      if k in KeysOf(inits) && k != inits[0].key {
        var i :| 0 <= i < |inits| && inits[i].key == k;
        assert later[i - 1].key == k;
      }
      if k in KeysOf(later) {
        var i :| 0 <= i < |later| && later[i].key == k;
        assert inits[i + 1].key == k;
      }
    }
  }

  lemma {:induction false} FieldsUpdate(inits: seq<Init>, v: Value, m: map<Key, Value>)
    requires inits != [] && Distinct(inits) && HasType(inits[0].ty, v)
    requires m.Keys == KeysOf(inits[1..]) && FieldsTyped(inits[1..], m)
    ensures var m' := m[inits[0].key := v];
      && m'.Keys == KeysOf(inits) && FieldsTyped(inits, m')
      && LowerFields(inits, m') == Both(v, LowerFields(inits[1..], m))
  {
    KeysUpdate(inits, m, v);
    hide KeysOf, HasType;
    var later, m' := inits[1..], m[inits[0].key := v];
    forall i | 0 < i < |inits|
      ensures inits[i].key in m' && m'[inits[i].key] == m[inits[i].key] && HasType(inits[i].ty, m'[inits[i].key])
    {
      assert later[i - 1] == inits[i];
    }
    forall i | 0 <= i < |later|
      ensures later[i].key in m' && m'[later[i].key] == m[later[i].key]
    {
      assert later[i] == inits[i + 1];
    }
    LowerFieldsAgree(later, m, m');
  }

  /** Lowering looks at the fields, and lowered values tell the fields apart. */
  lemma {:induction false} LowerFieldsAgree(inits: seq<Init>, m: map<Key, Value>, m': map<Key, Value>)
    requires FieldsTyped(inits, m) && FieldsTyped(inits, m')
    ensures LowerFields(inits, m) == LowerFields(inits, m')
            <==> forall i | 0 <= i < |inits| :: m[inits[i].key] == m'[inits[i].key]
  {
    hide HasType;
    if inits != [] {
      var later := inits[1..];
      assert FieldsTyped(later, m) && FieldsTyped(later, m');
      LowerFieldsAgree(later, m, m');
      forall i | 0 <= i < |inits|
        ensures i > 0 ==> inits[i] == later[i - 1]
      {
      }
    }
  }

  // -------------------------------------------------------- arms and items

  function LowerArms(arms: seq<DecodeArm>): seq<Arm> {
    seq(|arms|, i requires 0 <= i < |arms| => Arm(arms[i].pattern, Lower(arms[i].inits)))
  }

  /** The arm of the variant called ident, or the number of arms. */
  function ArmNamed(arms: seq<DecodeArm>, ident: string): (k: nat)
    ensures k <= |arms|
    ensures forall i | 0 <= i < k :: arms[i].ident != ident
    ensures k < |arms| ==> arms[k].ident == ident
  {
    if arms == [] || arms[0].ident == ident then 0 else 1 + ArmNamed(arms[1..], ident)
  }

  /** What rustc checks: no variant name twice, and no field name twice. */
  predicate Legal(code: DecodeCode) {
    match code
    case Construct(inits) => Distinct(inits)
    case MatchWord(arms, _) =>
      && (forall i, j | 0 <= i < j < |arms| :: arms[i].ident != arms[j].ident)
      && (forall i | 0 <= i < |arms| :: Distinct(arms[i].inits))
  }

  /** x is a value of the item that `code` decodes. */
  predicate InstanceOf(code: DecodeCode, x: Instance) {
    match code
    case Construct(inits) =>
      x.variant == "" && x.members.Keys == KeysOf(inits) && FieldsTyped(inits, x.members)
    case MatchWord(arms, _) =>
      var k := ArmNamed(arms, x.variant);
      k < |arms| && x.members.Keys == KeysOf(arms[k].inits) && FieldsTyped(arms[k].inits, x.members)
  }

  function LowerInstance(code: DecodeCode, x: Instance): (v: Value)
    requires InstanceOf(code, x)
    ensures HasType(SchemaOf(code), v)
  {
    match code
    case Construct(inits) => LowerFields(inits, x.members)
    case MatchWord(arms, _) =>
      var k := ArmNamed(arms, x.variant);
      Variant(k, LowerFields(arms[k].inits, x.members))
  }

  predicate EncodeRunnable(code: EncodeCode, x: Instance) {
    match code
    case EncodeFields(body) => Runnable(body, x.members)
    case MatchSelf(arms) => forall a | a in arms && a.ident == x.variant :: Runnable(a.body, x.members)
  }

  function RunEncode(code: EncodeCode, x: Instance): Encoded
    requires EncodeRunnable(code, x)
  {
    match code
    case EncodeFields(body) => RunBody(body, x.members)
    case MatchSelf(arms) => RunEncodeArms(arms, x)
  }

  /** The encoder's arms, seen from the decoder's. */
  function EncodeArmsOf(arms: seq<DecodeArm>): seq<EncodeArm> {
    seq(|arms|, i requires 0 <= i < |arms| =>
      EncodeArm(arms[i].ident, [EncodeWord(arms[i].pattern)] + Statements(arms[i].inits)))
  }

  lemma {:induction false} ArmsCorrespond(variants: seq<VariantItem>)
    ensures EncodeEnumVariants(variants).None? <==> DecodeEnumVariants(variants).None?
    ensures DecodeEnumVariants(variants).Some? ==>
              EncodeEnumVariants(variants).value == EncodeArmsOf(DecodeEnumVariants(variants).value)
  {
    if variants != [] {
      ArmsCorrespond(variants[1..]);
      SameFields(variants[0].fields);
    }
  }

  lemma {:induction false} EncodeArmRuns(arms: seq<DecodeArm>, k: nat, x: Instance)
    requires k < |arms| && FieldsTyped(arms[k].inits, x.members)
    requires forall i | 0 <= i < |arms| :: arms[i].ident == x.variant <==> i == k
    ensures EncodeRunnable(MatchSelf(EncodeArmsOf(arms)), x)
    ensures RunEncodeArms(EncodeArmsOf(arms), x)
            == Wrote(BigEndian32(arms[k].pattern)).Then(Encode(Lower(arms[k].inits), LowerFields(arms[k].inits,
                x.members)))
    decreases |arms|
  {
    hide HasType, Encode, BigEndian32;
    var code, inits := EncodeArmsOf(arms), arms[k].inits;
    EncodeLowers(inits, x.members);
    assert code[k].body[1..] == Statements(inits);
    forall a | a in code && a.ident == x.variant
      ensures Runnable(a.body, x.members)
    {
      var i :| 0 <= i < |code| && code[i] == a;
      assert i == k;
    }
    if k > 0 {
      var later := arms[1..];
      assert later[k - 1] == arms[k] && code[1..] == EncodeArmsOf(later);
      assert code[0].ident == arms[0].ident;
      EncodeArmRuns(later, k - 1, x);
    }
  }

  lemma {:induction false} FirstArmRuns(arms: seq<DecodeArm>, name: string, d: u32, b: seq<byte>)
    ensures var k := FirstArm(LowerArms(arms), d);
      RunDecodeArms(arms, name, d, b)
      == if k == |arms| then Failed(InvalidEnum(d, name), b)
         else
           match RunInits(arms[k].inits, b)
           case Got(m, r) => Got(Instance(arms[k].ident, m), r)
           case Failed(e, r) => Failed(e, r)
    decreases |arms|
  {
    hide RunInits, Lower;
    if arms != [] {
      FirstArmRuns(arms[1..], name, d, b);
      assert LowerArms(arms)[1..] == LowerArms(arms[1..]);
    }
  }

  // ------------------------------------------------------------ main results

  /** The generated encoder writes what the item's schema writes. */
  lemma {:induction false} EncoderIsSchema(item: Item, x: Instance)
    requires DeriveDecode(item).Some? && Legal(DeriveDecode(item).value)
    requires InstanceOf(DeriveDecode(item).value, x)
    ensures DeriveEncode(item).Some? && EncodeRunnable(DeriveEncode(item).value, x)
    ensures var code := DeriveDecode(item).value;
      RunEncode(DeriveEncode(item).value, x) == Encode(SchemaOf(code), LowerInstance(code, x))
  {
    hide HasType, RunInits, RunBody, BigEndian32, RunEncodeArms, Encode;
    match item {
      case StructItem(_, fields) =>
        SameFields(fields);
        EncodeLowers(DecodeStructFields(fields), x.members);
      case EnumItem(_, variants) =>
        ArmsCorrespond(variants);
        var arms := DeriveDecode(item).value.arms;
        var k := ArmNamed(arms, x.variant);
        EncodeArmRuns(arms, k, x);
        EncodeEnum(item.name, LowerArms(arms), k, LowerFields(arms[k].inits, x.members));
    }
  }

  lemma {:induction false} EncodeEnum(name: string, arms: seq<Arm>, k: nat, payload: Value)
    requires k < |arms| && HasType(arms[k].body, payload)
    ensures Encode(Enum(name, arms), Variant(k, payload))
            == Wrote(BigEndian32(arms[k].discriminant)).Then(Encode(arms[k].body, payload))
  {
    hide BigEndian32;
  }

  /** On any bytes the generated decoder gives the schema's verdict, leaves the
      same bytes, and its value lowers to the schema's value. */
  lemma {:induction false} DecoderIsSchema(code: DecodeCode, b: seq<byte>)
    requires Legal(code)
    ensures match RunDecode(code, b)
      case Failed(e, rest) => Decode(SchemaOf(code), b) == Failed(e, rest)
      case Got(x, rest) => InstanceOf(code, x) && Decode(SchemaOf(code), b) == Got(LowerInstance(code, x), rest)
  {
    hide HasType, RunInits, RunDecodeArms, DecodeU32, Encode, KeysOf, FieldsTyped;
    match code {
      case Construct(inits) => DecodeLowers(inits, b);
      case MatchWord(arms, name) =>
        if DecodeU32(b).Got? {
          var Got(d, r) := DecodeU32(b);
          FirstArmRuns(arms, name, d, r);
          var k := FirstArm(LowerArms(arms), d);
          if k < |arms| {
            DecodeLowers(arms[k].inits, r);
            assert ArmNamed(arms, arms[k].ident) == k;
          }
        }
    }
  }

  lemma {:induction false} LowerInstanceInjective(code: DecodeCode, x: Instance, y: Instance)
    requires InstanceOf(code, x) && InstanceOf(code, y) && LowerInstance(code, x) == LowerInstance(code, y)
    ensures x == y
  {
    hide HasType;
    var inits :=
      match code
      case Construct(inits) => inits
      case MatchWord(arms, _) => arms[ArmNamed(arms, x.variant)].inits;
    LowerFieldsAgree(inits, x.members, y.members);
    assert x.members == y.members;
  }

  /** A value survives the derived codec, whatever follows it in the buffer,
      exactly when its fields are well formed and, in an enum, no earlier variant
      was declared with the same discriminant. */
  lemma {:induction false} DerivedRoundTripIff(item: Item, x: Instance, suffix: seq<byte>)
    requires DeriveDecode(item).Some? && Legal(DeriveDecode(item).value)
    requires InstanceOf(DeriveDecode(item).value, x)
    ensures DeriveEncode(item).Some? && EncodeRunnable(DeriveEncode(item).value, x)
    ensures var code, encoded := DeriveDecode(item).value, RunEncode(DeriveEncode(item).value, x);
      (encoded.Wrote? && RunDecode(code, encoded.bytes + suffix) == Got(x, suffix))
      <==> WellFormed(SchemaOf(code), LowerInstance(code, x))
  {
    hide HasType, WellFormed, Encode, Decode, RunDecode, RunEncode, SchemaOf, LowerInstance, Legal;
    var code := DeriveDecode(item).value;
    var v := LowerInstance(code, x);
    EncoderIsSchema(item, x);
    Laws.RoundTripIff(SchemaOf(code), v, suffix);
    var encoded := RunEncode(DeriveEncode(item).value, x);
    if encoded.Wrote? {
      DecoderIsSchema(code, encoded.bytes + suffix);
      var run := RunDecode(code, encoded.bytes + suffix);
      if run.Got? && LowerInstance(code, run.value) == v {
        LowerInstanceInjective(code, run.value, x);
      }
    }
  }

  /** The macro refuses an enum exactly when some variant has no discriminant, and
      it always refuses unions. */
  lemma {:induction false} MacroAcceptsIff(item: Item)
    ensures DeriveEncode(item).Some? <==> DeriveDecode(item).Some?
    ensures DeriveDecode(item).Some? <==>
            match item
            case StructItem(_, _) => true
            case EnumItem(_, variants) => forall i | 0 <= i < |variants| :: GetDiscriminant(variants[i]).Some?
            case UnionItem(_) => false
  {
    if item.EnumItem? {
      ArmsCorrespond(item.variants);
      VariantsAccepted(item.variants);
    }
  }

  lemma {:induction false} VariantsAccepted(variants: seq<VariantItem>)
    ensures DecodeEnumVariants(variants).Some? <==> forall i | 0 <= i < |variants| :: GetDiscriminant(variants[i]).Some?
    ensures DecodeEnumVariants(variants).Some? ==>
              var arms := DecodeEnumVariants(variants).value;
              |arms| == |variants|
              && forall i | 0 <= i < |arms| ::
                   arms[i].pattern == GetDiscriminant(variants[i]).value && arms[i].ident == variants[i].ident
                   && arms[i].inits == DecodeStructFields(variants[i].fields)
  {
    if variants != [] {
      var later := variants[1..];
      VariantsAccepted(later);
      assert forall i | 0 < i < |variants| :: variants[i] == later[i - 1];
    }
  }

  function Patterns(arms: seq<DecodeArm>): set<int> {
    set i | 0 <= i < |arms| :: arms[i].pattern
  }

  /** An enum without payloads decodes as its set of codes does: the Codes type,
      which NfsStat4 is an instance of, is what the macro makes of such an enum. */
  lemma {:induction false} UnitEnumIsCodes(arms: seq<DecodeArm>, name: string, b: seq<byte>)
    requires forall i | 0 <= i < |arms| :: arms[i].inits == []
    ensures match RunDecode(MatchWord(arms, name), b)
      case Failed(e, rest) => Decode(Codes(name, Patterns(arms)), b) == Failed(e, rest)
      case Got(x, rest) =>
        && x.members == map[]
        && exists k :: 0 <= k < |arms| && x.variant == arms[k].ident
                       && Decode(Codes(name, Patterns(arms)), b) == Got(Num(arms[k].pattern), rest)
  {
    if DecodeU32(b).Got? {
      var Got(d, r) := DecodeU32(b);
      FirstArmRuns(arms, name, d, r);
      var k := FirstArm(LowerArms(arms), d);
      if k < |arms| {
        assert arms[k].pattern == d && d in Patterns(arms);
      } else {
        assert forall i | 0 <= i < |arms| :: arms[i].pattern == LowerArms(arms)[i].discriminant;
      }
    }
  }

  // -------------------------------------------------------- what is generated

  /** One encoder after the other, up to the first that fails. */
  function InOrder(es: seq<Encoded>): Encoded {
    if es == [] then Wrote([]) else es[0].Then(InOrder(es[1..]))
  }

  predicate Has(fields: Fields, m: map<Key, Value>) {
    match fields
    case Named(named) =>
      forall i | 0 <= i < |named| :: Ident(named[i].name) in m && HasType(named[i].ty, m[Ident(named[i].name)])
    case Unnamed(types) => forall i | 0 <= i < |types| :: Index(i) in m && HasType(types[i], m[Index(i)])
    case NoFields => true
  }

  /** The encodings of the fields, in the order of their declaration. */
  function FieldEncodings(fields: Fields, m: map<Key, Value>): seq<Encoded>
    requires Has(fields, m)
  {
    match fields
    case Named(named) =>
      seq(|named|, i requires 0 <= i < |named| => Encode(named[i].ty, m[Ident(named[i].name)]))
    case Unnamed(types) => seq(|types|, i requires 0 <= i < |types| => Encode(types[i], m[Index(i)]))
    case NoFields => []
  }

  lemma {:induction false} BodyInOrder(body: seq<Stmt>, es: seq<Encoded>, m: map<Key, Value>)
    requires Runnable(body, m) && |es| == |body|
    requires forall i | 0 <= i < |body| ::
               body[i].EncodeField? && body[i] in body && es[i] == Encode(body[i].ty, m[body[i].key])
    ensures RunBody(body, m) == InOrder(es)
  {
    hide HasType, Encode;
    if body != [] {
      BodyInOrder(body[1..], es[1..], m);
    }
  }

  lemma {:induction false} FieldsInOrder(fields: Fields, m: map<Key, Value>)
    requires Has(fields, m)
    ensures Runnable(EncodeStructFields(fields), m)
    ensures RunBody(EncodeStructFields(fields), m) == InOrder(FieldEncodings(fields, m))
  {
    hide HasType, Encode, RunBody, InOrder;
    BodyInOrder(EncodeStructFields(fields), FieldEncodings(fields, m), m);
  }

  /** A struct is its fields in the order of their declaration; a variant is its
      discriminant, then its fields. */
  lemma {:induction false} DerivedForm(item: Item, x: Instance, k: nat)
    requires DeriveEncode(item).Some?
    requires item.StructItem? ==> Has(item.fields, x.members)
    requires item.EnumItem? ==>
               && k < |item.variants| && Has(item.variants[k].fields, x.members)
               && forall i | 0 <= i < |item.variants| :: item.variants[i].ident == x.variant <==> i == k
    ensures EncodeRunnable(DeriveEncode(item).value, x)
    ensures item.StructItem? ==>
              RunEncode(DeriveEncode(item).value, x) == InOrder(FieldEncodings(item.fields, x.members))
    ensures item.EnumItem? ==>
              && GetDiscriminant(item.variants[k]).Some?
              && RunEncode(DeriveEncode(item).value, x)
                 == Wrote(BigEndian32(GetDiscriminant(item.variants[k]).value))
                      .Then(InOrder(FieldEncodings(item.variants[k].fields, x.members)))
  {
    hide HasType, Encode, RunBody, InOrder, BigEndian32, FieldEncodings;
    if item.StructItem? {
      FieldsInOrder(item.fields, x.members);
    } else if item.EnumItem? {
      VariantInOrder(item.variants, x, k);
    }
  }

  lemma {:induction false} VariantInOrder(variants: seq<VariantItem>, x: Instance, k: nat)
    requires EncodeEnumVariants(variants).Some?
    requires k < |variants| && Has(variants[k].fields, x.members)
    requires forall i | 0 <= i < |variants| :: variants[i].ident == x.variant <==> i == k
    ensures var arms := EncodeEnumVariants(variants).value;
      && GetDiscriminant(variants[k]).Some?
      && (forall a | a in arms && a.ident == x.variant :: Runnable(a.body, x.members))
      && RunEncodeArms(arms, x)
         == Wrote(BigEndian32(GetDiscriminant(variants[k]).value))
              .Then(InOrder(FieldEncodings(variants[k].fields, x.members)))
  {
    hide HasType, Encode, BigEndian32, FieldEncodings, InOrder;
    var arms, later := EncodeEnumVariants(variants).value, variants[1..];
    if k == 0 {
      FieldsInOrder(variants[0].fields, x.members);
      assert arms[0].body[1..] == EncodeStructFields(variants[0].fields);
      NoOtherArm(later, x.variant);
    } else {
      assert later[k - 1] == variants[k];
      assert forall i | 0 <= i < |later| :: later[i] == variants[i + 1];
      VariantInOrder(later, x, k - 1);
    }
  }

  lemma {:induction false} NoOtherArm(variants: seq<VariantItem>, ident: string)
    requires EncodeEnumVariants(variants).Some?
    requires forall i | 0 <= i < |variants| :: variants[i].ident != ident
    ensures forall a | a in EncodeEnumVariants(variants).value :: a.ident != ident
  {
    if variants != [] {
      NoOtherArm(variants[1..], ident);
    }
  }

  /** A discriminant that no variant has is refused under the name of the enum. */
  lemma {:induction false} UnknownVariant(item: Item, d: u32, rest: seq<byte>)
    requires item.EnumItem? && DeriveDecode(item).Some?
    requires forall i | 0 <= i < |item.variants| :: GetDiscriminant(item.variants[i]) != Some(d)
    ensures RunDecode(DeriveDecode(item).value, BigEndian32(d) + rest) == Failed(InvalidEnum(d, item.name), rest)
  {
    hide BigEndian32, DecodeU32, GetDiscriminant, RunInits;
    var arms := DeriveDecode(item).value.arms;
    VariantsAccepted(item.variants);
    Laws.U32Law(d, rest);
    FirstArmRuns(arms, item.name, d, rest);
    assert forall i | 0 <= i < |arms| :: LowerArms(arms)[i].discriminant == arms[i].pattern != d;
  }

  /** The attribute xdr(discriminant = n). */
  function Declared(n: nat): Attr { Attr("xdr", ArgList(Some(NameValue("discriminant", IntLit(n))))) }

  ghost predicate Declares(a: Attr) { exists n :: a == Declared(n) }

  lemma {:induction false} DeclaresIff(a: Attr)
    ensures Declares(a) <==> IsDiscriminant(a)
  {
    if IsDiscriminant(a) {
      assert a == Declared(a.meta.nested.value.value.n);
    }
  }

  /** Where a variant's discriminant comes from: the first attribute xdr(discriminant = n),
      even if n does not fit a u32, and without one the discriminant of the declaration. */
  lemma {:induction false} DiscriminantRule(v: VariantItem, before: seq<Attr>, n: nat, behind: seq<Attr>)
    requires forall i | 0 <= i < |before| :: !Declares(before[i])
    ensures v.attrs == before + [Declared(n)] + behind ==>
              GetDiscriminant(v) == if n < 0x1_0000_0000 then Some(n) else None
    ensures v.attrs == before ==>
              GetDiscriminant(v) == match v.discriminant
                                    case Some(IntLit(d)) => if d < 0x1_0000_0000 then Some(d) else None
                                    case _ => None
  {
    var fallback := if v.discriminant.Some? then ParseU32(v.discriminant.value) else None;
    Undeclared(before, [Declared(n)] + behind, fallback);
    Undeclared(before, [], fallback);
    assert before + [Declared(n)] + behind == before + ([Declared(n)] + behind) && before + [] == before;
  }

  lemma {:induction false} Undeclared(before: seq<Attr>, behind: seq<Attr>, fallback: Option<u32>)
    requires forall i | 0 <= i < |before| :: !Declares(before[i])
    ensures AttrDiscriminant(before + behind, fallback) == AttrDiscriminant(behind, fallback)
  {
    if before == [] {
      assert before + behind == behind;
    } else {
      DeclaresIff(before[0]);
      assert (before + behind)[1..] == before[1..] + behind;
      Undeclared(before[1..], behind, fallback);
    }
  }
}
