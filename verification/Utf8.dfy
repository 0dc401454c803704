/** UTF-8 from the other side: a byte string is valid exactly when it is the encoding of
    a sequence of Unicode scalar values (RFC 3629 section 3). */
module Utf8Scalars {
  import opened Wire
  import opened Xdr

  predicate IsScalar(c: int) { 0 <= c < 0xD800 || 0xE000 <= c < 0x11_0000 }

  function Encoding(c: int): seq<byte>
    requires IsScalar(c)
  {
    if c < 0x80 then [c]
    else if c < 0x800 then [0xC0 + c / 0x40, 0x80 + c % 0x40]
    else if c < 0x1_0000 then [0xE0 + c / 0x1000, 0x80 + c / 0x40 % 0x40, 0x80 + c % 0x40]
    else [0xF0 + c / 0x4_0000, 0x80 + c / 0x1000 % 0x40, 0x80 + c / 0x40 % 0x40, 0x80 + c % 0x40]
  }

  function Encodings(cs: seq<int>): seq<byte>
    requires forall i | 0 <= i < |cs| :: IsScalar(cs[i])
  {
    if cs == [] then [] else Encoding(cs[0]) + Encodings(cs[1..])
  }

  lemma {:induction false} EncodingIsScalar(c: int, rest: seq<byte>)
    requires IsScalar(c)
    ensures ScalarLength(Encoding(c) + rest) == |Encoding(c)| > 0
    ensures (Encoding(c) + rest)[|Encoding(c)|..] == rest
  {
    var s := Encoding(c) + rest;
    if 0x800 <= c < 0x1_0000 {
      assert s[0] == 0xE0 + c / 0x1000 && s[1] == 0x80 + c / 0x40 % 0x40 && s[2] == 0x80 + c % 0x40;
      assert c / 0x1000 == 0 ==> c / 0x40 >= 0x20;
      assert c / 0x1000 == 0xD ==> c < 0xD800;
    } else if c >= 0x1_0000 {
      assert s[0] == 0xF0 + c / 0x4_0000 && s[1] == 0x80 + c / 0x1000 % 0x40;
      assert c / 0x4_0000 == 0 ==> c / 0x1000 >= 0x10;
      assert c / 0x4_0000 == 4 ==> c / 0x1000 < 0x110;
    }
  }

  lemma {:induction false} Digits(x: nat, y: nat, z: nat)
    requires y < 0x40 && z < 0x40
    ensures var c := x * 0x1000 + y * 0x40 + z;
      c / 0x1000 == x && c / 0x40 % 0x40 == y && c % 0x40 == z
  {
    var c := x * 0x1000 + y * 0x40 + z;
    assert c / 0x40 == x * 0x40 + y;
  }

  lemma {:induction false} ThreeBytes(a: byte, b: byte, d: byte)
    requires 0xE0 <= a < 0xF0 && Tail(b) && Tail(d) && (a == 0xE0 ==> b >= 0xA0) && (a == 0xED ==> b < 0xA0)
    ensures var c := (a as int - 0xE0) * 0x1000 + (b as int - 0x80) * 0x40 + (d as int - 0x80);
      IsScalar(c) && Encoding(c) == [a, b, d]
  {
    Digits(a as int - 0xE0, b as int - 0x80, d as int - 0x80);
  }

  lemma {:induction false} FourBytes(a: byte, b: byte, d: byte, e: byte)
    requires 0xF0 <= a < 0xF5 && Tail(b) && Tail(d) && Tail(e)
    requires (a == 0xF0 ==> b >= 0x90) && (a == 0xF4 ==> b < 0x90)
    ensures var c := ((a as int - 0xF0) * 0x40 + (b as int - 0x80)) * 0x1000 + (d as int - 0x80) * 0x40
                     + (e as int - 0x80);
      IsScalar(c) && Encoding(c) == [a, b, d, e]
  {
    var high := (a as int - 0xF0) * 0x40 + (b as int - 0x80);
    Digits(high, d as int - 0x80, e as int - 0x80);
    var c := high * 0x1000 + (d as int - 0x80) * 0x40 + (e as int - 0x80);
    assert c / 0x1000 == high && c / 0x4_0000 == high / 0x40;
  }

  /** The scalar value that s starts with. */
  lemma {:induction false} ScalarIsEncoding(s: seq<byte>) returns (c: int)
    requires ScalarLength(s) > 0
    ensures IsScalar(c) && Encoding(c) == s[..ScalarLength(s)]
  {
    var n := ScalarLength(s);
    if n == 1 {
      c := s[0];
      assert s[..1] == [s[0]];
    } else if n == 2 {
      c := (s[0] as int - 0xC0) * 0x40 + (s[1] as int - 0x80);
      assert s[..2] == [s[0], s[1]];
    } else if n == 3 {
      c := (s[0] as int - 0xE0) * 0x1000 + (s[1] as int - 0x80) * 0x40 + (s[2] as int - 0x80);
      hide Encoding;
      ThreeBytes(s[0], s[1], s[2]);
      assert s[..3] == [s[0], s[1], s[2]];
    } else {
      c := ((s[0] as int - 0xF0) * 0x40 + (s[1] as int - 0x80)) * 0x1000 + (s[2] as int - 0x80) * 0x40
        + (s[3] as int - 0x80);
      hide Encoding;
      FourBytes(s[0], s[1], s[2], s[3]);
      assert s[..4] == [s[0], s[1], s[2], s[3]];
    }
  }

  lemma {:induction false} Decoded(s: seq<byte>) returns (cs: seq<int>)
    requires ValidUtf8(s)
    ensures forall i | 0 <= i < |cs| :: IsScalar(cs[i])
    ensures s == Encodings(cs)
    decreases |s|
  {
    hide ScalarLength, Encoding;
    if s == [] {
      cs := [];
    } else {
      var n := ScalarLength(s);
      var c := ScalarIsEncoding(s);
      var later := Decoded(s[n..]);
      cs := [c] + later;
      PutTogether(s, n);
      assert cs[1..] == later;
    }
  }

  lemma {:induction false} PutTogether(s: seq<byte>, n: nat)
    requires n <= |s|
    ensures s[..n] + s[n..] == s
  {
  }

  lemma {:induction false} EncodingsValid(cs: seq<int>)
    requires forall i | 0 <= i < |cs| :: IsScalar(cs[i])
    ensures ValidUtf8(Encodings(cs))
  {
    if cs != [] {
      hide ScalarLength, Encoding;
      EncodingIsScalar(cs[0], Encodings(cs[1..]));
      EncodingsValid(cs[1..]);
    }
  }

  lemma {:induction false} ValidUtf8Iff(s: seq<byte>)
    ensures ValidUtf8(s) <==>
            exists cs: seq<int> :: (forall i | 0 <= i < |cs| :: IsScalar(cs[i])) && s == Encodings(cs)
  {
    hide ValidUtf8, Encodings;
    if ValidUtf8(s) {
      var cs := Decoded(s);
    }
    if exists cs: seq<int> :: (forall i | 0 <= i < |cs| :: IsScalar(cs[i])) && s == Encodings(cs) {
      var cs: seq<int> :| (forall i | 0 <= i < |cs| :: IsScalar(cs[i])) && s == Encodings(cs);
      EncodingsValid(cs);
    }
  }
}
