/** Bits of one machine word. */
module BitWords {
  lemma {:induction false} OrBit(w: bv32, p: bv32, q: bv32)
    requires p < 32 && q < 32
    ensures ((w | (1 << p)) >> q) & 1 == 1 <==> (w >> q) & 1 == 1 || p == q
  {
  }

  lemma {:induction false} OrAdds(w: bv32, p: bv32)
    requires p < 32
    ensures if (w >> p) & 1 == 1 then w | (1 << p) == w else w | (1 << p) == w + (1 << p)
  {
  }
}

/** Attribute bitmaps as sets of bit numbers: what `set` and `is_set` make of the
    words, and that the set survives the wire. */
module AttributeBitmap {
  import opened Wire
  import opened Xdr
  import opened XdrStructs
  import opened Nfs4Types
  import opened ResultValues
  import BitWords
  import Laws = XdrLaws

  type Word = bv32

  /** The bit of w at a position. */
  predicate Bit(w: Word, pos: nat)
    requires pos < 32
  {
    (w >> pos) & 1 == 1
  }

  predicate IsSet(words: seq<Word>, bit: u32) {
    bit / 32 < |words| && Bit(words[bit / 32], bit % 32)
  }

  /** The words, with the bit set, zero words added as needed. */
  function WithBit(words: seq<Word>, bit: u32): seq<Word> {
    var grown := Grown(words, bit / 32 + 1);
    grown[bit / 32 := OrInto(grown[bit / 32], bit % 32)]
  }

  /** w |= 1 << pos. */
  function OrInto(w: Word, pos: nat): Word
    requires pos < 32
  {
    w | (1 << pos)
  }

  function Grown(words: seq<Word>, n: nat): (g: seq<Word>)
    ensures |g| == if |words| < n then n else |words|
  {
    if |words| < n then words + seq(n - |words|, _ => 0) else words
  }

  class Bitmap {
    var words: seq<Word>

    constructor ()
      ensures words == []
    {
      words := [];
    }

    method Set(bit: u32)
      modifies this
      ensures words == WithBit(old(words), bit)
    {
      hide OrInto;
      var word, pos := bit / 32, bit % 32;
      while |words| <= word
        invariant Grown(words, word + 1) == Grown(old(words), word + 1)
        invariant |words| <= word + 1 || words == old(words)
        decreases word + 1 - |words|
      {
        words := words + [0];
      }
      words := words[word := OrInto(words[word], pos)];
    }

    method Test(bit: u32) returns (b: bool)
      ensures b == IsSet(words, bit)
    {
      var word, pos := bit / 32, bit % 32;
      return word < |words| && (words[word] >> pos) & 1 == 1;
    }
  }

  // -------------------------------------------------------------- one setting

  lemma {:induction false} OrBit(w: Word, p: nat, q: nat)
    requires p < 32 && q < 32
    ensures Bit(OrInto(w, p), q) <==> Bit(w, q) || p == q
  {
    BitWords.OrBit(w, p as Word, q as Word);
  }

  lemma {:induction false} ZeroBit(q: nat)
    requires q < 32
    ensures !Bit(0, q)
  {
  }

  /** Growing changes no bit. */
  lemma {:induction false} GrownSame(words: seq<Word>, n: nat, c: u32)
    ensures IsSet(Grown(words, n), c) <==> IsSet(words, c)
  {
    hide Bit;
    ZeroBit(c % 32);
    var k := c / 32;
    if |words| <= k < n {
      assert Grown(words, n)[k] == 0;
    } else if k < |words| {
      assert Grown(words, n)[k] == words[k];
    }
  }

  /** Setting a bit adds that bit to the set and nothing else. */
  lemma {:induction false} WithBitAdds(words: seq<Word>, bit: u32, c: u32)
    ensures IsSet(WithBit(words, bit), c) <==> IsSet(words, c) || c == bit
    ensures |WithBit(words, bit)| == if |words| <= bit / 32 then bit / 32 + 1 else |words|
  {
    hide Bit, OrInto, Grown;
    GrownSame(words, bit / 32 + 1, c);
    var grown := Grown(words, bit / 32 + 1);
    OrBit(grown[bit / 32], bit % 32, c % 32);
    assert c == bit <==> c / 32 == bit / 32 && c % 32 == bit % 32;
  }

  // ------------------------------------------------------------- main results

  /** The words after setting every bit of a list, in order. */
  function SetAll(bits: seq<u32>): seq<Word> {
    if bits == [] then [] else WithBit(SetAll(bits[..|bits| - 1]), bits[|bits| - 1])
  }

  function WordsFor(bits: seq<u32>): nat {
    if bits == [] then 0
    else
      var before, here := WordsFor(bits[..|bits| - 1]), bits[|bits| - 1] / 32 + 1;
      if before < here then here else before
  }

  /** After any settings, exactly those bits are set, and the words reach as far as
      the highest one. */
  lemma {:induction false} SetAllIsTheSet(bits: seq<u32>, c: u32)
    ensures IsSet(SetAll(bits), c) <==> c in bits
    ensures |SetAll(bits)| == WordsFor(bits)
    ensures |SetAll(bits)| > 0 ==> exists i :: 0 <= i < |bits| && bits[i] / 32 + 1 == |SetAll(bits)|
    ensures forall i | 0 <= i < |bits| :: bits[i] / 32 < |SetAll(bits)|
  {
    hide WithBit, IsSet;
    if bits == [] {
      NothingSet(c);
    } else {
      var n := |bits| - 1;
      var before := bits[..n];
      SetAllIsTheSet(before, c);
      WithBitAdds(SetAll(before), bits[n], c);
      assert bits == before + [bits[n]];
      if |SetAll(before)| > bits[n] / 32 {
        var i :| 0 <= i < |before| && before[i] / 32 + 1 == |SetAll(before)|;
        assert bits[i] == before[i];
      }
    }
  }

  lemma {:induction false} NothingSet(c: u32)
    ensures !IsSet([], c)
  {
  }

  /** The words as the codec carries them, and back. */
  function Numbers(words: seq<Word>): Bitmap4 {
    Bitmap4(seq(|words|, i requires 0 <= i < |words| => words[i] as u32))
  }

  function FromNumbers(b: Bitmap4): seq<Word> {
    seq(|b.words|, i requires 0 <= i < |b.words| => b.words[i] as Word)
  }

  lemma {:induction false} NumbersBack(words: seq<Word>)
    ensures FromNumbers(Numbers(words)) == words
  {
    assert forall i | 0 <= i < |words| :: FromNumbers(Numbers(words))[i] == (words[i] as u32) as Word;
  }

  /** Two to the power of a bit's place in its word. */
  function Power(pos: nat): nat
    requires pos < 32
  {
    match pos
    case 0 => 0x1 case 1 => 0x2 case 2 => 0x4 case 3 => 0x8
    case 4 => 0x10 case 5 => 0x20 case 6 => 0x40 case 7 => 0x80
    case 8 => 0x100 case 9 => 0x200 case 10 => 0x400 case 11 => 0x800
    case 12 => 0x1000 case 13 => 0x2000 case 14 => 0x4000 case 15 => 0x8000
    case 16 => 0x1_0000 case 17 => 0x2_0000 case 18 => 0x4_0000 case 19 => 0x8_0000
    case 20 => 0x10_0000 case 21 => 0x20_0000 case 22 => 0x40_0000 case 23 => 0x80_0000
    case 24 => 0x100_0000 case 25 => 0x200_0000 case 26 => 0x400_0000 case 27 => 0x800_0000
    case 28 => 0x1000_0000 case 29 => 0x2000_0000 case 30 => 0x4000_0000 case _ => 0x8000_0000
  }

  lemma {:induction false} PowerBit(pos: nat)
    requires pos < 32
    ensures (1 as Word << pos) as int == Power(pos) && 1 as Word << pos == Power(pos) as Word
  {
    hide Power;
    if pos < 16 {
      LowPower(pos);
    } else {
      HighPower(pos);
    }
  }

  lemma {:induction false} LowPower(pos: nat)
    requires pos < 16
    ensures (1 as Word << pos) as int == Power(pos) && 1 as Word << pos == Power(pos) as Word
  {
    match pos {
      case 0 => case 1 => case 2 => case 3 => case 4 => case 5 => case 6 => case 7 =>
      case 8 => case 9 => case 10 => case 11 => case 12 => case 13 => case 14 => case _ =>
    }
  }

  lemma {:induction false} HighPower(pos: nat)
    requires 16 <= pos < 32
    ensures (1 as Word << pos) as int == Power(pos) && 1 as Word << pos == Power(pos) as Word
  {
    match pos {
      case 16 => case 17 => case 18 => case 19 => case 20 => case 21 => case 22 => case 23 =>
      case 24 => case 25 => case 26 => case 27 => case 28 => case 29 => case 30 => case _ =>
    }
  }

  /** Setting a bit adds its power of two, unless it is set already. */
  lemma {:induction false} OrAdds(w: Word, pos: nat)
    requires pos < 32
    ensures OrInto(w, pos) == if Bit(w, pos) then w else w + (Power(pos) as Word)
  {
    hide Power;
    PowerBit(pos);
    BitWords.OrAdds(w, pos as Word);
  }

  /** What goes on the wire for one attribute: its power of two in its word, behind words
      of zero. */
  lemma {:induction false} OneBit(bit: u32)
    ensures Numbers(SetAll([bit])).words == seq(bit / 32, _ => 0) + [Power(bit % 32)]
  {
    hide Power;
    assert [bit][..0] == [] && SetAll([]) == [];
    PowerBit(bit % 32);
    OrZero(bit % 32);
    var words := SetAll([bit]);
    assert |words| == bit / 32 + 1;
    assert words[bit / 32] == OrInto(0, bit % 32);
    assert forall i | 0 <= i < bit / 32 :: words[i] == 0;
  }

  lemma {:induction false} OrZero(pos: nat)
    requires pos < 32
    ensures OrInto(0, pos) == 1 as Word << pos
  {
    OrZeroWord(1 as Word << pos);
  }

  lemma {:induction false} OrZeroWord(w: Word)
    ensures 0 | w == w
  {
  }

  /** The bits set are the bits the peer reads, whatever follows the bitmap. */
  lemma {:induction false} BitmapSurvivesTheWire(bits: seq<u32>, c: u32, suffix: seq<byte>)
    ensures var e := Encode(BITMAP, BitmapValue(Numbers(SetAll(bits))));
      && e.Wrote?
      && var d := Decode(BITMAP, e.bytes + suffix);
      && d.Got? && d.rest == suffix && HasType(BITMAP, d.value)
      && (IsSet(FromNumbers(BitmapOf(d.value)), c) <==> c in bits)
  {
    hide Encode, Decode, HasType, WellFormed, BitmapValue, BitmapOf, IsSet, Numbers, FromNumbers;
    var words := SetAll(bits);
    var v := BitmapValue(Numbers(words));
    SetAllIsTheSet(bits, c);
    ShortEnough(bits);
    Laws.RoundTrip(BITMAP, v, suffix);
    BitmapInjective(BitmapOf(v), Numbers(words));
    NumbersBack(words);
  }

  lemma {:induction false} ShortEnough(bits: seq<u32>)
    ensures WellFormed(BITMAP, BitmapValue(Numbers(SetAll(bits))))
  {
    hide IsSet, WithBit;
    var b := Numbers(SetAll(bits));
    SetAllIsTheSet(bits, 0);
    assert |b.words| < MAX_LEN;
    Formed1(Vec(U32), Words(b.words));
    assert WellFormed(Vec(U32), Words(b.words));
  }
}
