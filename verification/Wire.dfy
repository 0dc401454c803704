/** Bytes on the wire: machine integers, big-endian words and the two buffer
    objects every codec works on (the append-only BytesMut and the consuming
    cursor Bytes). */
module Wire {

  type byte = b: int | 0 <= b < 0x100
  type u32 = x: int | 0 <= x < 0x1_0000_0000
  type i32 = x: int | -0x8000_0000 <= x < 0x8000_0000
  type u64 = x: int | 0 <= x < 0x1_0000_0000_0000_0000
  type i64 = x: int | -0x8000_0000_0000_0000 <= x < 0x8000_0000_0000_0000

  const U32_MODULUS: int := 0x1_0000_0000
  const U64_MODULUS: int := 0x1_0000_0000_0000_0000

  lemma {:induction false} AppendAssociative(a: seq<byte>, b: seq<byte>, c: seq<byte>)
    ensures a + b + c == a + (b + c)
  {
  }

  function Pow256(n: nat): (p: nat)
    ensures p > 0
  {
    if n == 0 then 1 else 0x100 * Pow256(n - 1)
  }

  /** The n low bytes of x, most significant first. */
  function BigEndian(x: nat, n: nat): (b: seq<byte>)
    ensures |b| == n
    decreases n, x
  {
    if n == 0 then [] else BigEndian(x / 0x100, n - 1) + [x % 0x100]
  }

  /** The number whose digits to base 256 are b. */
  function Word(b: seq<byte>): (x: nat)
    ensures x < Pow256(|b|)
  {
    if b == [] then 0 else Word(b[..|b| - 1]) * 0x100 + b[|b| - 1] as int
  }

  lemma {:induction false} WordOfBigEndian(x: nat, n: nat)
    requires x < Pow256(n)
    ensures Word(BigEndian(x, n)) == x
  {
    if n > 0 {
      var b := BigEndian(x, n);
      WordOfBigEndian(x / 0x100, n - 1);
      assert b[..n - 1] == BigEndian(x / 0x100, n - 1) && b[n - 1] == x % 0x100;
    }
  }

  lemma {:induction false} WordSizes()
    ensures Pow256(4) == U32_MODULUS && Pow256(8) == U64_MODULUS
  {
    assert Pow256(2) == 0x1_0000;
    assert Pow256(4) == 0x1_0000_0000;
    assert Pow256(6) == 0x1_0000_0000_0000;
  }

  function BigEndian32(x: u32): (b: seq<byte>)
    ensures |b| == 4
  {
    BigEndian(x, 4)
  }

  /** The word in the first four bytes. */
  function Word32(b: seq<byte>): u32
    requires |b| >= 4
  {
    WordSizes();
    Word(b[..4])
  }

  function BigEndian64(x: u64): (b: seq<byte>)
    ensures |b| == 8
  {
    BigEndian(x, 8)
  }

  function Word64(b: seq<byte>): u64
    requires |b| >= 8
  {
    WordSizes();
    Word(b[..8])
  }

  lemma {:induction false} Word32OfBigEndian(x: u32, suffix: seq<byte>)
    ensures Word32(BigEndian32(x) + suffix) == x
    ensures (BigEndian32(x) + suffix)[4..] == suffix
  {
    hide BigEndian, Word;
    WordSizes();
    WordOfBigEndian(x, 4);
    assert (BigEndian32(x) + suffix)[..4] == BigEndian32(x);
  }

  lemma {:induction false} Word64OfBigEndian(x: u64, suffix: seq<byte>)
    ensures Word64(BigEndian64(x) + suffix) == x
    ensures (BigEndian64(x) + suffix)[8..] == suffix
  {
    hide BigEndian, Word;
    WordSizes();
    WordOfBigEndian(x, 8);
    assert (BigEndian64(x) + suffix)[..8] == BigEndian64(x);
  }

  /** The bytes themselves, most significant first. */
  lemma {:induction false} BigEndianBytes(x: u32, y: u64)
    ensures BigEndian32(x) == [x / 0x100_0000, x / 0x1_0000 % 0x100, x / 0x100 % 0x100, x % 0x100]
    ensures var high := y / 0x1_0000_0000;
      BigEndian64(y)
      == [high / 0x100_0000, high / 0x1_0000 % 0x100, high / 0x100 % 0x100, high % 0x100,
          y / 0x100_0000 % 0x100, y / 0x1_0000 % 0x100, y / 0x100 % 0x100, y % 0x100]
  {
    FourBytes(x);
    FourBytes(y / 0x1_0000_0000);
    LastFour(y, 8);
  }

  lemma {:induction false} FourBytes(x: u32)
    ensures BigEndian(x, 4) == [x / 0x100_0000, x / 0x1_0000 % 0x100, x / 0x100 % 0x100, x % 0x100]
  {
    LastFour(x, 4);
  }

  lemma {:induction false} LastFour(x: nat, n: nat)
    requires n >= 4
    ensures BigEndian(x, n)
            == BigEndian(x / 0x1_0000_0000, n - 4)
               + [x / 0x100_0000 % 0x100, x / 0x1_0000 % 0x100, x / 0x100 % 0x100, x % 0x100]
  {
    var a, b, c := x / 0x100, x / 0x1_0000, x / 0x100_0000;
    assert a / 0x100 == b && b / 0x100 == c && c / 0x100 == x / 0x1_0000_0000;
    assert BigEndian(x, n) == BigEndian(a, n - 1) + [x % 0x100];
    assert BigEndian(a, n - 1) == BigEndian(b, n - 2) + [a % 0x100];
    assert BigEndian(b, n - 2) == BigEndian(c, n - 3) + [b % 0x100];
    assert BigEndian(c, n - 3) == BigEndian(x / 0x1_0000_0000, n - 4) + [c % 0x100];
  }

  /** And back: what a word is in numbers, and that its bytes are those it was read from. */
  lemma {:induction false} WordBytes(b: seq<byte>)
    requires |b| >= 4
    ensures Word32(b) == b[0] as int * 0x100_0000 + b[1] as int * 0x1_0000 + b[2] as int * 0x100 + b[3] as int
    ensures BigEndian32(Word32(b)) == b[..4]
  {
    var w := b[..4];
    assert w[..3] == b[..3] && w[..3][..2] == b[..2] && w[..3][..2][..1] == b[..1] && b[..1][..0] == [];
    assert Word(b[..1]) == b[0];
    assert Word(b[..2]) == b[0] as int * 0x100 + b[1] as int;
    assert Word(b[..3]) == (b[0] as int * 0x100 + b[1] as int) * 0x100 + b[2] as int;
    BigEndianOfWord(w);
  }

  lemma {:induction false} BigEndianOfWord(b: seq<byte>)
    ensures BigEndian(Word(b), |b|) == b
  {
    if b != [] {
      var front, last := b[..|b| - 1], b[|b| - 1];
      BigEndianOfWord(front);
      LastDigit(Word(front), last);
      assert front + [last] == b;
      hide Word, BigEndian;
    }
  }

  lemma {:induction false} LastDigit(high: nat, low: byte)
    ensures (high * 0x100 + low as int) / 0x100 == high && (high * 0x100 + low as int) % 0x100 == low
  {
  }

  /** A word is read from its own bytes alone. */
  lemma {:induction false} WordOfPrefix(b: seq<byte>, s: seq<byte>)
    ensures |b| >= 4 ==> Word32(b + s) == Word32(b) && (b + s)[4..] == b[4..] + s
    ensures |b| >= 8 ==> Word64(b + s) == Word64(b) && (b + s)[8..] == b[8..] + s
  {
    hide Word;
    if |b| >= 4 {
      assert (b + s)[..4] == b[..4];
    }
    if |b| >= 8 {
      assert (b + s)[..8] == b[..8];
    }
  }

  /** Two's complement: what put_i32 and put_i64 write, and what get_i32 and
      get_i64 read back. */
  function Unsigned(x: int, modulus: int): int
    requires modulus > 0
  {
    x % modulus
  }

  function Signed(x: int, modulus: int): int {
    if x < modulus / 2 then x else x - modulus
  }

  function Zeros(n: nat): (b: seq<byte>)
    ensures |b| == n
  {
    seq(n, _ => 0)
  }

  function Concat(chunks: seq<seq<byte>>): seq<byte> {
    if chunks == [] then [] else chunks[0] + Concat(chunks[1..])
  }

  /** The growing output buffer. */
  class BytesMut {
    var data: seq<byte>

    constructor ()
      ensures data == []
    {
      data := [];
    }

    method PutU32(x: u32)
      modifies this
      ensures data == old(data) + BigEndian32(x)
    {
      data := data + BigEndian32(x);
    }

    method PutU64(x: u64)
      modifies this
      ensures data == old(data) + BigEndian64(x)
    {
      data := data + BigEndian64(x);
    }

    method PutSlice(s: seq<byte>)
      modifies this
      ensures data == old(data) + s
    {
      data := data + s;
    }
  }

  /** The input cursor: reading drops bytes from the front. */
  class Bytes {
    var data: seq<byte>

    constructor (d: seq<byte>)
      ensures data == d
    {
      data := d;
    }

    method GetU32() returns (x: u32)
      requires |data| >= 4
      modifies this
      ensures x == Word32(old(data)) && data == old(data)[4..]
    {
      x := Word32(data);
      data := data[4..];
    }

    method GetU64() returns (x: u64)
      requires |data| >= 8
      modifies this
      ensures x == Word64(old(data)) && data == old(data)[8..]
    {
      x := Word64(data);
      data := data[8..];
    }

    /** to_vec, then advance past the end. */
    method TakeAll() returns (s: seq<byte>)
      modifies this
      ensures s == old(data) && data == []
    {
      s := data;
      data := [];
    }

    method SplitTo(n: nat) returns (s: seq<byte>)
      requires n <= |data|
      modifies this
      ensures s == old(data)[..n] && data == old(data)[n..]
    {
      s := data[..n];
      data := data[n..];
    }
  }
}
