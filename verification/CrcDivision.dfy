/** Which checksum it is: the remainder of the message by the generator of CRC-32 (section 8.1.1.6.2 of ITU-T V.42). */
module CrcDivision {
  import opened Octets
  import opened Gf2
  import opened Crc32

  /** x^32 + x^26 + x^23 + x^22 + x^16 + x^12 + x^11 + x^10 + x^8 + x^7 + x^5 + x^4 + x^2 + x + 1. */
  const GENERATOR: Poly := {32, 26, 23, 22, 16, 12, 11, 10, 8, 7, 5, 4, 2, 1, 0}

  // ---- The constants of the program ----

  /** A word written out as four octets, lowest first. */
  lemma WordBits(n: nat, b0: byte, b1: byte, b2: byte, b3: byte)
    requires LE32(n) == [b0, b1, b2, b3]
    ensures Bits(n, 32) == Bits(b0, 8) + (Bits(b1, 8) + (Bits(b2, 8) + Bits(b3, 8)))
  {
    hide Bits, BitStream;
    BitStreamOfLE32(n);
    FourOctets([b0, b1, b2, b3]);
    assert Bits(b3, 8) + [] == Bits(b3, 8);
  }

  lemma ValueFrom(bits: seq<bool>, k: nat)
    requires k < |bits|
    ensures Value(bits[k..]) == Bit(bits[k]) + 2 * Value(bits[k + 1..])
  {
    assert bits[k..][1..] == bits[k + 1..];
  }

  lemma NoBits(bits: seq<bool>)
    requires bits == []
    ensures Value(bits) == 0
  {
  }

  function Bit(b: bool): nat {
    if b then 1 else 0
  }

  /** Eight bits and the octet they make. */
  lemma OctetBits(bits: seq<bool>)
    requires |bits| == 8
    ensures var high := Bit(bits[4]) + 2 * (Bit(bits[5]) + 2 * (Bit(bits[6]) + 2 * Bit(bits[7])));
      Value(bits) == Bit(bits[0]) + 2 * (Bit(bits[1]) + 2 * (Bit(bits[2]) + 2 * (Bit(bits[3]) + 2 * high)))
    ensures Bits(Value(bits), 8) == bits
  {
    hide Bits, Value, Bit;
    BitsOfValue(bits);
    NoBits(bits[8..]);
    ValueFrom(bits, 7);
    ValueFrom(bits, 6);
    ValueFrom(bits, 5);
    ValueFrom(bits, 4);
    ValueFrom(bits, 3);
    ValueFrom(bits, 2);
    ValueFrom(bits, 1);
    ValueFrom(bits, 0);
    assert bits[0..] == bits;
  }

  lemma PolynomialWord()
    ensures POLYNOMIAL == [false, false, false, false, false, true, false, false]
                          + ([true, true, false, false, false, false, false, true]
                             + ([false, false, false, true, true, true, false, true]
                                + [true, false, true, true, false, true, true, true]))
  {
    hide Bits, Value;
    WordBits(0xedb8_8320, 0x20, 0x83, 0xb8, 0xed);
    OctetBits([false, false, false, false, false, true, false, false]);
    OctetBits([true, true, false, false, false, false, false, true]);
    OctetBits([false, false, false, true, true, true, false, true]);
    OctetBits([true, false, true, true, false, true, true, true]);
  }

  /** The constant of the program holds the generator below its leading term, lowest bit for the highest power. */
  lemma PolynomialIsGenerator(i: nat)
    requires i < 32
    ensures POLYNOMIAL[i] <==> 31 - i in GENERATOR
  {
    hide Bits;
    PolynomialWord();
  }

  lemma AllOnesIsOnes(i: nat)
    requires i < 32
    ensures ALL_ONES[i]
  {
    hide Bits, Value;
    WordBits(U32_MAX, 0xff, 0xff, 0xff, 0xff);
    OctetBits([true, true, true, true, true, true, true, true]);
  }

  // ---- The residue ----

  /** The program's register as the machine holds it. */
  function StepBv(c: bv32): bv32 {
    if c & 1 != 0 then 0xedb8_8320 ^ (c >> 1) else c >> 1
  }

  function StepsBv(c: bv32, n: nat): bv32
    decreases n
  {
    if n == 0 then c else StepsBv(StepBv(c), n - 1)
  }

  /** The word and the machine word have the same bits. */
  predicate Same(w: Word, c: bv32) {
    && (w[0] <==> c & 0x0000_0001 != 0) && (w[1] <==> c & 0x0000_0002 != 0) && (w[2] <==> c & 0x0000_0004 != 0)
    && (w[3] <==> c & 0x0000_0008 != 0) && (w[4] <==> c & 0x0000_0010 != 0) && (w[5] <==> c & 0x0000_0020 != 0)
    && (w[6] <==> c & 0x0000_0040 != 0) && (w[7] <==> c & 0x0000_0080 != 0) && (w[8] <==> c & 0x0000_0100 != 0)
    && (w[9] <==> c & 0x0000_0200 != 0) && (w[10] <==> c & 0x0000_0400 != 0) && (w[11] <==> c & 0x0000_0800 != 0)
    && (w[12] <==> c & 0x0000_1000 != 0) && (w[13] <==> c & 0x0000_2000 != 0) && (w[14] <==> c & 0x0000_4000 != 0)
    && (w[15] <==> c & 0x0000_8000 != 0) && (w[16] <==> c & 0x0001_0000 != 0) && (w[17] <==> c & 0x0002_0000 != 0)
    && (w[18] <==> c & 0x0004_0000 != 0) && (w[19] <==> c & 0x0008_0000 != 0) && (w[20] <==> c & 0x0010_0000 != 0)
    && (w[21] <==> c & 0x0020_0000 != 0) && (w[22] <==> c & 0x0040_0000 != 0) && (w[23] <==> c & 0x0080_0000 != 0)
    && (w[24] <==> c & 0x0100_0000 != 0) && (w[25] <==> c & 0x0200_0000 != 0) && (w[26] <==> c & 0x0400_0000 != 0)
    && (w[27] <==> c & 0x0800_0000 != 0) && (w[28] <==> c & 0x1000_0000 != 0) && (w[29] <==> c & 0x2000_0000 != 0)
    && (w[30] <==> c & 0x4000_0000 != 0) && (w[31] <==> c & 0x8000_0000 != 0)
  }

  lemma SameStep(w: Word, c: bv32)
    requires Same(w, c)
    ensures Same(Step(w), StepBv(c))
  {
    hide Bits, Step;
    PolynomialWord();
    StepAt(w, 0); StepAt(w, 1); StepAt(w, 2); StepAt(w, 3); StepAt(w, 4); StepAt(w, 5);
    StepAt(w, 6); StepAt(w, 7); StepAt(w, 8); StepAt(w, 9); StepAt(w, 10); StepAt(w, 11);
    StepAt(w, 12); StepAt(w, 13); StepAt(w, 14); StepAt(w, 15); StepAt(w, 16); StepAt(w, 17);
    StepAt(w, 18); StepAt(w, 19); StepAt(w, 20); StepAt(w, 21); StepAt(w, 22); StepAt(w, 23);
    StepAt(w, 24); StepAt(w, 25); StepAt(w, 26); StepAt(w, 27); StepAt(w, 28); StepAt(w, 29);
    StepAt(w, 30); StepAt(w, 31);
  }

  lemma {:induction false} SameSteps(w: Word, c: bv32, n: nat)
    requires Same(w, c)
    ensures Same(Steps(w, n), StepsBv(c, n))
    decreases n
  {
    hide Same, Step, StepBv;
    if n > 0 {
      SameStep(w, c);
      SameSteps(Step(w), StepBv(c), n - 1);
    }
  }

  function Four(c: bv32): bv32 {
    StepBv(StepBv(StepBv(StepBv(c))))
  }

  lemma FourMore(c: bv32, n: nat)
    ensures StepsBv(c, n + 4) == StepsBv(Four(c), n)
  {
    hide StepBv;
    assert StepsBv(c, n + 4) == StepsBv(StepBv(c), n + 3);
    assert StepsBv(StepBv(c), n + 3) == StepsBv(StepBv(StepBv(c)), n + 2);
  }

  lemma FirstSixteen()
    ensures Four(0xffff_ffff) == 0xb242_0de3
    ensures Four(0xb242_0de3) == 0x2dfd_1072
    ensures Four(0x2dfd_1072) == 0x39b1_f1cf
    ensures Four(0x39b1_f1cf) == 0xbe26_ed00
  {
  }

  lemma LastSixteen()
    ensures Four(0xbe26_ed00) == 0x0be2_6ed0
    ensures Four(0x0be2_6ed0) == 0x00be_26ed
    ensures Four(0x00be_26ed) == 0x86d8_30ba
    ensures Four(0x86d8_30ba) == 0xdebb_20e3
  {
  }

  lemma OnesAfter32()
    ensures StepsBv(0xffff_ffff, 32) == 0xdebb_20e3
  {
    hide Four;
    FirstSixteen();
    LastSixteen();
    FourMore(0xffff_ffff, 28);
    FourMore(0xb242_0de3, 24);
    FourMore(0x2dfd_1072, 20);
    FourMore(0x39b1_f1cf, 16);
    FourMore(0xbe26_ed00, 12);
    FourMore(0x0be2_6ed0, 8);
    FourMore(0x00be_26ed, 4);
    FourMore(0x86d8_30ba, 0);
    assert StepsBv(0xdebb_20e3, 0) == 0xdebb_20e3;
  }

  /** The fixed word that a body followed by its checksum gives. */
  lemma ResidueIs()
    ensures Xor(Steps(ALL_ONES, 32), ALL_ONES) == Bits(0x2144_df1c, 32)
  {
    ResidueWord();
    hide Bits, Steps, Value;
    forall i | 0 <= i < 32 ensures ALL_ONES[i] {
      AllOnesIsOnes(i);
    }
    SameOnes();
    SameSteps(ALL_ONES, 0xffff_ffff, 32);
    OnesAfter32();
    hide StepsBv;
    var w := Steps(ALL_ONES, 32);
    assert Same(w, 0xdebb_20e3);
  }

  lemma SameOnes()
    ensures Same(ALL_ONES, 0xffff_ffff)
  {
    hide Bits;
    forall i | 0 <= i < 32 ensures ALL_ONES[i] {
      AllOnesIsOnes(i);
    }
  }

  lemma ResidueWord()
    ensures Bits(0x2144_df1c, 32) == [false, false, true, true, true, false, false, false]
                                     + ([true, true, true, true, true, false, true, true]
                                        + ([false, false, true, false, false, false, true, false]
                                           + [true, false, false, false, false, true, false, false]))
  {
    hide Bits, Value;
    WordBits(0x2144_df1c, 0x1c, 0xdf, 0x44, 0x21);
    OctetBits([false, false, true, true, true, false, false, false]);
    OctetBits([true, true, true, true, true, false, true, true]);
    OctetBits([false, false, true, false, false, false, true, false]);
    OctetBits([true, false, false, false, false, true, false, false]);
  }

  /** The checksum of any body followed by its own checksum, as it is stored, is 0x2144DF1C. */
  lemma SelfCheckWord(body: seq<byte>)
    ensures Crc(body + LE32(Value(Crc(body)))) == Bits(0x2144_df1c, 32)
  {
    hide Bits, Value, LE32, Crc, Steps, Xor;
    SelfCheck(body);
    ResidueIs();
  }

  // ---- Long division ----

  /** The coefficient of x^e in a register: its lowest bit is the highest power. */
  predicate Coefficient(w: Word, e: nat)
    requires e < 32
  {
    w[31 - e]
  }

  /** The register as a polynomial. */
  ghost function RegisterPoly(w: Word): Poly {
    set e: nat | 0 <= e < 32 && Coefficient(w, e)
  }

  /** Message and start value: the message, first bit for the highest power, times x^32, plus the start value times the
      power that the message takes up. */
  ghost function Dividend(start: Word, bits: seq<bool>): Poly {
    set e: nat | 0 <= e < |bits| + 32 && Started(start, bits, e)
  }

  predicate Started(start: Word, bits: seq<bool>, e: nat)
    requires e < |bits| + 32
  {
    (e >= 32 && bits[|bits| - 1 - (e - 32)]) != (e >= |bits| && start[31 - (e - |bits|)])
  }

  /** The dividend one bit further on. */
  lemma DividendNext(start: Word, bits: seq<bool>, bit: bool, e: nat)
    ensures e in Dividend(start, bits + [bit]) <==>
      ((e > 0 && e - 1 in Dividend(start, bits)) != (e == 32 && bit))
  {
    var n := |bits|;
    var more := bits + [bit];
    assert 32 < e < n + 33 ==> more[n - (e - 32)] == bits[n - 1 - (e - 1 - 32)];
  }

  /** The register one bit further on. */
  lemma RegisterNext(w: Word, bit: bool, e: nat)
    requires e < 32
    ensures e in RegisterPoly(Feed(w, bit)) <==>
      ((e > 0 && e - 1 in RegisterPoly(w)) != ((w[0] != bit) && e in GENERATOR))
  {
    hide Feed;
    FeedAt(w, bit, 31 - e);
    PolynomialIsGenerator(31 - e);
  }

  /** One step of long division. */
  lemma DivideNext(start: Word, bits: seq<bool>, bit: bool, w: Word, q: Poly)
    requires Divides(Dividend(start, bits), GENERATOR, q, RegisterPoly(w))
    ensures Divides(Dividend(start, bits + [bit]), GENERATOR, Next(q, w[0] != bit), RegisterPoly(Feed(w, bit)))
  {
    hide InProduct, Next, Dividend;
    var carry := w[0] != bit;
    forall e: nat
      ensures e in Dividend(start, bits + [bit]) <==>
        (InProduct(Next(q, carry), GENERATOR, e) != (e in RegisterPoly(Feed(w, bit))))
    {
      DividendNext(start, bits, bit, e);
      NextProduct(q, carry, GENERATOR, e);
      DivideAt(start, bits, w, q, e);
      TermNext(w, bit, e);
    }
  }

  lemma DivideAt(start: Word, bits: seq<bool>, w: Word, q: Poly, e: nat)
    requires Divides(Dividend(start, bits), GENERATOR, q, RegisterPoly(w))
    ensures e > 0 ==>
      (e - 1 in Dividend(start, bits) <==> (InProduct(q, GENERATOR, e - 1) != (e - 1 in RegisterPoly(w))))
  {
    hide InProduct, Dividend, RegisterPoly;
    if e > 0 {
      var d: nat := e - 1;
      assert d in Dividend(start, bits) <==> (InProduct(q, GENERATOR, d) != (d in RegisterPoly(w)));
    }
  }

  /** The register loses its leading term to the generator. */
  lemma TermNext(w: Word, bit: bool, e: nat)
    ensures var carry := w[0] != bit;
      e in RegisterPoly(Feed(w, bit)) <==>
      (((e > 0 && e - 1 in RegisterPoly(w)) != (e == 32 && bit)) != (carry && e in GENERATOR))
  {
    hide Feed;
    if e < 32 {
      RegisterNext(w, bit, e);
    }
  }

  lemma {:induction false} FeedDivides(start: Word, bits: seq<bool>) returns (q: Poly)
    ensures Divides(Dividend(start, bits), GENERATOR, q, RegisterPoly(FeedAll(start, bits)))
  {
    hide InProduct, Feed;
    if bits == [] {
      q := {};
      DivideNothing(start);
    } else {
      hide Divides, Dividend, RegisterPoly;
      var front, last := bits[..|bits| - 1], bits[|bits| - 1];
      var w := FeedAll(start, front);
      var before := FeedDivides(start, front);
      assert bits == front + [last];
      FeedAllConcat(start, front, [last]);
      FeedOne(w, last);
      q := Next(before, w[0] != last);
      DivideNext(start, front, last, w, before);
    }
  }

  lemma FeedOne(w: Word, bit: bool)
    ensures FeedAll(w, [bit]) == Feed(w, bit)
  {
    hide Feed;
    assert FeedAll(Feed(w, bit), []) == Feed(w, bit);
  }

  lemma DivideNothing(start: Word)
    ensures Divides(Dividend(start, []), GENERATOR, {}, RegisterPoly(start))
  {
    forall e: nat ensures !InProduct({}, GENERATOR, e) {
      assert Pairs({}, GENERATOR, e) == {};
    }
  }

  /** The message polynomial of CRC-32: bits in the order they are sent, lowest bit of every octet first, times x^32,
      with the first 32 bits complemented. */
  ghost function Message(body: seq<byte>): Poly {
    set e: nat | 0 <= e < |BitStream(body)| + 32 && Sent(BitStream(body), e)
  }

  predicate Sent(bits: seq<bool>, e: nat)
    requires e < |bits| + 32
  {
    (e >= 32 && bits[|bits| - 1 - (e - 32)]) != (e >= |bits|)
  }

  /** The checksum as a polynomial, complemented as the standard asks. */
  ghost function Complement(w: Word): Poly {
    set e: nat | 0 <= e < 32 && !Coefficient(w, e)
  }

  lemma StartIsOnes(body: seq<byte>)
    ensures Dividend(ALL_ONES, BitStream(body)) == Message(body)
  {
    hide Bits, BitStream;
    forall i | 0 <= i < 32 ensures ALL_ONES[i] {
      AllOnesIsOnes(i);
    }
  }

  lemma FinishIsComplement(w: Word)
    ensures RegisterPoly(w) == Complement(Xor(w, ALL_ONES))
  {
    hide Bits;
    forall i | 0 <= i < 32 ensures ALL_ONES[i] {
      AllOnesIsOnes(i);
    }
  }

  /** The checksum of every file is the remainder of its message by the CRC-32 generator, and the only one. */
  lemma CrcIsRemainder(body: seq<byte>)
    ensures IsRemainder(Message(body), GENERATOR, 32, Complement(Crc(body)))
    ensures forall r :: IsRemainder(Message(body), GENERATOR, 32, r) ==> r == Complement(Crc(body))
  {
    hide Divides, Bits, BitStream, FeedAll, UpdateAll;
    var q := FeedDivides(ALL_ONES, BitStream(body));
    StartIsOnes(body);
    UpdateAllIsSerial(ALL_ONES, body);
    FinishIsComplement(UpdateAll(ALL_ONES, body));
    hide Message, Xor;
    assert IsRemainder(Message(body), GENERATOR, 32, Complement(Crc(body)));
    forall r | IsRemainder(Message(body), GENERATOR, 32, r) ensures r == Complement(Crc(body)) {
      RemainderUnique(Message(body), GENERATOR, 32, r, Complement(Crc(body)));
    }
  }
}
