/**
 * CRC-32 as the two exporters compute it: bit by bit over buffered reads on the server,
 * through a 256-entry table in the browser. A `u32` is its 32 bits, least significant first.
 */
module Crc32 {
  import opened Octets

  type Word = w: seq<bool> | |w| == 32 witness Bits(0, 32)

  const POLYNOMIAL: Word := Bits(0xedb8_8320, 32)
  const ALL_ONES: Word := Bits(U32_MAX, 32)

  function Xor(a: Word, b: Word): Word {
    seq(32, i requires 0 <= i < 32 => a[i] != b[i])
  }

  function Zeros(n: nat): seq<bool> {
    seq(n, i => false)
  }

  /** `crc >> n` for `n <= 32`. */
  function Shr(crc: Word, n: nat): Word
    requires n <= 32
  {
    crc[n..] + Zeros(n)
  }

  /** One turn of the innermost loop. */
  function Step(crc: Word): Word {
    if crc[0] then Xor(POLYNOMIAL, Shr(crc, 1)) else Shr(crc, 1)
  }

  function Steps(crc: Word, n: nat): Word
    decreases n
  {
    if n == 0 then crc else Steps(Step(crc), n - 1)
  }

  /** `u32::from(byte)`. */
  function Extend(b: byte): Word {
    Bits(b, 32)
  }

  function Update(crc: Word, b: byte): Word {
    Steps(Xor(crc, Extend(b)), 8)
  }

  function Fold(update: (Word, byte) -> Word, crc: Word, body: seq<byte>): Word
    decreases |body|
  {
    if body == [] then crc else Fold(update, update(crc, body[0]), body[1..])
  }

  function UpdateAll(crc: Word, body: seq<byte>): Word {
    Fold(Update, crc, body)
  }

  function Crc(body: seq<byte>): Word {
    Xor(UpdateAll(ALL_ONES, body), ALL_ONES)
  }

  // ---- The reference: a linear feedback shift register fed one message bit at a time ----

  function Feed(crc: Word, bit: bool): Word {
    if crc[0] != bit then Xor(POLYNOMIAL, Shr(crc, 1)) else Shr(crc, 1)
  }

  function FeedAll(crc: Word, bits: seq<bool>): Word
    decreases |bits|
  {
    if bits == [] then crc else FeedAll(Feed(crc, bits[0]), bits[1..])
  }

  lemma StepAt(crc: Word, i: nat)
    requires i < 32
    ensures i < 31 ==> Step(crc)[i] == ((crc[0] && POLYNOMIAL[i]) != crc[i + 1])
    ensures i == 31 ==> Step(crc)[i] == (crc[0] && POLYNOMIAL[i])
  {
  }

  lemma StepLinear(a: Word, b: Word)
    ensures Step(Xor(a, b)) == Xor(Step(a), Step(b))
  {
    hide Step;
    forall i | 0 <= i < 32
      ensures Step(Xor(a, b))[i] == Xor(Step(a), Step(b))[i]
    {
      StepAt(a, i);
      StepAt(b, i);
      StepAt(Xor(a, b), i);
    }
  }

  lemma {:induction false} StepsLinear(a: Word, b: Word, n: nat)
    ensures Steps(Xor(a, b), n) == Xor(Steps(a, n), Steps(b, n))
    decreases n
  {
    if n > 0 {
      StepLinear(a, b);
      StepsLinear(Step(a), Step(b), n - 1);
    }
  }

  lemma PowersOfTwo()
    ensures Shl(1, 31) == 0x8000_0000
  {
    ShlOctet(1);
    ShlOctet(0x100);
    ShlOctet(0x1_0000);
    ShlSum(1, 8, 8);
    ShlSum(1, 8, 16);
    ShlSum(1, 7, 24);
    assert Shl(0x100_0000, 7) == 0x8000_0000 by {
      ShlSum(0x100_0000, 4, 3);
    }
  }

  lemma TopBit(lo: nat, k: nat)
    requires lo < Shl(1, k)
    ensures Bits(lo + Shl(1, k), k + 1)[k]
  {
    BitsAppend(lo, k, 1, 1);
  }

  lemma PolynomialTopBit()
    ensures POLYNOMIAL[31]
  {
    PowersOfTwo();
    TopBit(0x6db8_8320, 31);
  }

  /** The bit shifted out of the register survives as its top bit, so no state is lost. */
  lemma StepInjectiveAt(a: Word, b: Word, i: nat)
    requires Step(a) == Step(b) && i < 32
    ensures a[i] == b[i]
  {
    PolynomialTopBit();
    StepAt(a, 31);
    StepAt(b, 31);
    if i > 0 {
      StepAt(a, i - 1);
      StepAt(b, i - 1);
    }
  }

  lemma StepInjective(a: Word, b: Word)
    requires Step(a) == Step(b)
    ensures a == b
  {
    forall i | 0 <= i < 32
      ensures a[i] == b[i]
    {
      StepInjectiveAt(a, b, i);
    }
  }

  lemma {:induction false} StepsInjective(a: Word, b: Word, n: nat)
    requires Steps(a, n) == Steps(b, n)
    ensures a == b
    decreases n
  {
    if n > 0 {
      StepsInjective(Step(a), Step(b), n - 1);
      StepInjective(a, b);
    }
  }

  // ---- Eight steps on a byte are eight bits through the shift register ----

  lemma {:induction false} BitsOfZero(k: nat)
    ensures Bits(0, k) == Zeros(k)
  {
    if k > 0 {
      BitsOfZero(k - 1);
    }
  }

  lemma ExtendIsPadding(b: byte)
    ensures Extend(b) == Pad(Bits(b, 8))
  {
    ShlOctet(1);
    ShlOctet(0);
    BitsAppend(b, 8, 0, 24);
    BitsOfZero(24);
  }

  /** Up to 32 message bits lined up with the low end of the register. */
  function Pad(bits: seq<bool>): Word
    requires |bits| <= 32
  {
    bits + Zeros(32 - |bits|)
  }

  lemma FeedAt(crc: Word, bit: bool, i: nat)
    requires i < 32
    ensures i < 31 ==> Feed(crc, bit)[i] == (((crc[0] != bit) && POLYNOMIAL[i]) != crc[i + 1])
    ensures i == 31 ==> Feed(crc, bit)[i] == ((crc[0] != bit) && POLYNOMIAL[i])
  {
  }

  lemma FeedShifts(crc: Word, bits: seq<bool>)
    requires 0 < |bits| <= 32
    ensures Step(Xor(crc, Pad(bits))) == Xor(Feed(crc, bits[0]), Pad(bits[1..]))
  {
    forall i | 0 <= i < 32
      ensures Step(Xor(crc, Pad(bits)))[i] == Xor(Feed(crc, bits[0]), Pad(bits[1..]))[i]
    {
      StepAt(Xor(crc, Pad(bits)), i);
      FeedAt(crc, bits[0], i);
    }
  }

  /** The loop of the code (combine first, then shift) against the register fed bit by bit. */
  lemma {:induction false} SerialByShifting(crc: Word, bits: seq<bool>)
    requires |bits| <= 32
    ensures FeedAll(crc, bits) == Steps(Xor(crc, Pad(bits)), |bits|)
    decreases |bits|
  {
    if bits == [] {
      assert Xor(crc, Pad(bits)) == crc;
    } else {
      FeedShifts(crc, bits);
      SerialByShifting(Feed(crc, bits[0]), bits[1..]);
    }
  }

  lemma UpdateIsSerial(crc: Word, b: byte)
    ensures Update(crc, b) == FeedAll(crc, Bits(b, 8))
  {
    ExtendIsPadding(b);
    SerialByShifting(crc, Bits(b, 8));
  }

  lemma {:induction false} FeedAllConcat(crc: Word, a: seq<bool>, b: seq<bool>)
    ensures FeedAll(crc, a + b) == FeedAll(FeedAll(crc, a), b)
    decreases |a|
  {
    if a == [] {
      assert a + b == b;
    } else {
      FeedAllConcat(Feed(crc, a[0]), a[1..], b);
      assert (a + b)[1..] == a[1..] + b;
    }
  }

  /** Both checksum programs compute the shift-register remainder of the message bits. */
  lemma {:induction false} UpdateAllIsSerial(crc: Word, body: seq<byte>)
    ensures UpdateAll(crc, body) == FeedAll(crc, BitStream(body))
    decreases |body|
  {
    if body != [] {
      UpdateIsSerial(crc, body[0]);
      UpdateAllIsSerial(Update(crc, body[0]), body[1..]);
      FeedAllConcat(crc, Bits(body[0], 8), BitStream(body[1..]));
    }
  }

  // ---- The table ----

  lemma {:induction false} ShiftOutZeros(crc: Word, n: nat)
    requires n <= 32 && forall i :: 0 <= i < n ==> !crc[i]
    ensures Steps(crc, n) == Shr(crc, n)
    decreases n
  {
    if n == 0 {
      assert Shr(crc, 0) == crc;
    } else {
      ShiftOutZeros(Shr(crc, 1), n - 1);
      assert Shr(Shr(crc, 1), n - 1) == Shr(crc, n);
    }
  }

  /** `table[i]`. */
  function TableEntry(i: byte): Word {
    Steps(Extend(i), 8)
  }

  /** `(crc ^ byte) & 0xff` as a table index. */
  function Index(crc: Word, b: byte): (i: nat)
  {
    Value(Xor(crc, Extend(b))[..8])
  }

  lemma IndexIsByte(crc: Word, b: byte)
    ensures Index(crc, b) < 256
    ensures Bits(Index(crc, b), 8) == Xor(crc, Extend(b))[..8]
  {
    ShlOctet(1);
    BitsOfValue(Xor(crc, Extend(b))[..8]);
  }

  /** Eight steps act on the low octet alone; the rest of the word just shifts down. */
  lemma LowOctetDecides(x: Word)
    ensures Steps(x, 8) == Xor(Steps(Pad(x[..8]), 8), Shr(x, 8))
  {
    var high: Word := Zeros(8) + x[8..];
    assert x == Xor(Pad(x[..8]), high);
    StepsLinear(Pad(x[..8]), high, 8);
    ShiftOutZeros(high, 8);
    assert Shr(high, 8) == Shr(x, 8);
  }

  lemma ShiftPastOctet(crc: Word, b: byte)
    ensures Shr(Xor(crc, Extend(b)), 8) == Shr(crc, 8)
  {
    ExtendIsPadding(b);
  }

  /** One table lookup does the work of eight shift-and-subtract steps. */
  lemma TableLookup(crc: Word, b: byte)
    ensures Index(crc, b) < 256
    ensures Update(crc, b) == Xor(TableEntry(Index(crc, b)), Shr(crc, 8))
  {
    IndexIsByte(crc, b);
    ExtendIsPadding(Index(crc, b));
    ShiftPastOctet(crc, b);
    LowOctetDecides(Xor(crc, Extend(b)));
  }

  // ---- What the checksum detects ----

  /** Thirty-two message bits meet the register bit for bit, so they can be told apart. */
  lemma WindowInjective(crc: Word, w1: seq<bool>, w2: seq<bool>)
    requires |w1| == |w2| <= 32
    requires FeedAll(crc, w1) == FeedAll(crc, w2)
    ensures w1 == w2
  {
    SerialByShifting(crc, w1);
    SerialByShifting(crc, w2);
    StepsInjective(Xor(crc, Pad(w1)), Xor(crc, Pad(w2)), |w1|);
    forall i | 0 <= i < |w1|
      ensures w1[i] == w2[i]
    {
      assert Xor(crc, Pad(w1))[i] == Xor(crc, Pad(w2))[i];
    }
  }

  lemma FeedInjective(a: Word, b: Word, bit: bool)
    requires Feed(a, bit) == Feed(b, bit)
    ensures a == b
  {
    var flip: Word := Pad([bit]);
    assert Feed(a, bit) == Step(Xor(a, flip)) && Feed(b, bit) == Step(Xor(b, flip)) by {
      FeedShifts(a, [bit]);
      FeedShifts(b, [bit]);
      assert Xor(Feed(a, bit), Pad([])) == Feed(a, bit) && Xor(Feed(b, bit), Pad([])) == Feed(b, bit);
    }
    StepInjective(Xor(a, flip), Xor(b, flip));
    forall i | 0 <= i < 32
      ensures a[i] == b[i]
    {
      assert Xor(a, flip)[i] == Xor(b, flip)[i];
    }
    assert a == b;
  }

  lemma {:induction false} FeedAllInjective(a: Word, b: Word, bits: seq<bool>)
    requires FeedAll(a, bits) == FeedAll(b, bits)
    ensures a == b
    decreases |bits|
  {
    if bits != [] {
      FeedAllInjective(Feed(a, bits[0]), Feed(b, bits[0]), bits[1..]);
      FeedInjective(a, b, bits[0]);
    }
  }

  lemma XorOnesInjective(a: Word, b: Word)
    requires Xor(a, ALL_ONES) == Xor(b, ALL_ONES)
    ensures a == b
  {
    forall i | 0 <= i < 32
      ensures a[i] == b[i]
    {
      assert Xor(a, ALL_ONES)[i] == Xor(b, ALL_ONES)[i];
    }
    assert a == b;
  }

  /** Every burst of at most 32 wrong bits, at any bit position of any message, changes the checksum. */
  lemma BurstDetected(a: seq<byte>, b: seq<byte>, before: seq<bool>, w1: seq<bool>, w2: seq<bool>, after: seq<bool>)
    requires BitStream(a) == before + w1 + after && BitStream(b) == before + w2 + after
    requires |w1| == |w2| <= 32 && w1 != w2
    ensures Crc(a) != Crc(b)
  {
    if Crc(a) == Crc(b) {
      XorOnesInjective(UpdateAll(ALL_ONES, a), UpdateAll(ALL_ONES, b));
      UpdateAllIsSerial(ALL_ONES, a);
      UpdateAllIsSerial(ALL_ONES, b);
      FeedAllConcat(ALL_ONES, before + w1, after);
      FeedAllConcat(ALL_ONES, before + w2, after);
      FeedAllConcat(ALL_ONES, before, w1);
      FeedAllConcat(ALL_ONES, before, w2);
      var c := FeedAll(ALL_ONES, before);
      FeedAllInjective(FeedAll(c, w1), FeedAll(c, w2), after);
      WindowInjective(c, w1, w2);
    }
  }

  lemma {:induction false} BitStreamInjective(a: seq<byte>, b: seq<byte>)
    requires |a| == |b| && BitStream(a) == BitStream(b)
    ensures a == b
  {
    if a != [] {
      var sa, sb := BitStream(a), BitStream(b);
      assert Bits(a[0], 8) == sa[..8] && Bits(b[0], 8) == sb[..8];
      assert BitStream(a[1..]) == sa[8..] && BitStream(b[1..]) == sb[8..];
      BitStreamInjective(a[1..], b[1..]);
      ShlOctet(1);
      ValueOfBits(a[0], 8);
      ValueOfBits(b[0], 8);
      assert a == [a[0]] + a[1..] && b == [b[0]] + b[1..];
    }
  }

  /** Two files that differ only inside one run of at most four octets never share a checksum. */
  lemma FourOctetsDetected(before: seq<byte>, x: seq<byte>, y: seq<byte>, after: seq<byte>)
    requires |x| == |y| <= 4 && x != y
    ensures Crc(before + x + after) != Crc(before + y + after)
  {
    BitStreamConcat(before + x, after);
    BitStreamConcat(before + y, after);
    BitStreamConcat(before, x);
    BitStreamConcat(before, y);
    if BitStream(x) == BitStream(y) {
      BitStreamInjective(x, y);
    }
    BurstDetected(before + x + after, before + y + after,
                  BitStream(before), BitStream(x), BitStream(y), BitStream(after));
  }

  lemma FeedComplement(crc: Word)
    ensures FeedAll(crc, Xor(crc, ALL_ONES)) == Steps(ALL_ONES, 32)
  {
    var field := Xor(crc, ALL_ONES);
    SerialByShifting(crc, field);
    assert Pad(field) == field;
    assert Xor(crc, field) == ALL_ONES;
  }

  /** The checksum of any file followed by its own stored checksum is one fixed word. */
  lemma SelfCheck(body: seq<byte>)
    ensures Crc(body + LE32(Value(Crc(body)))) == Xor(Steps(ALL_ONES, 32), ALL_ONES)
  {
    var crc := Crc(body);
    var field := LE32(Value(crc));
    BitsOfValue(crc);
    BitStreamOfLE32(Value(crc));
    BitStreamConcat(body, field);
    UpdateAllIsSerial(ALL_ONES, body);
    UpdateAllIsSerial(ALL_ONES, body + field);
    FeedAllConcat(ALL_ONES, BitStream(body), crc);
    FeedComplement(UpdateAll(ALL_ONES, body));
  }

  // ---- The two programs ----

  lemma {:induction false} FoldConcat(update: (Word, byte) -> Word, crc: Word, a: seq<byte>, b: seq<byte>)
    ensures Fold(update, crc, a + b) == Fold(update, Fold(update, crc, a), b)
    decreases |a|
  {
    if a == [] {
      assert a + b == b;
    } else {
      FoldConcat(update, update(crc, a[0]), a[1..], b);
      assert (a + b)[1..] == a[1..] + b;
    }
  }

  lemma {:induction false} StepsSnoc(crc: Word, n: nat)
    ensures Steps(crc, n + 1) == Step(Steps(crc, n))
    decreases n
  {
    if n > 0 {
      StepsSnoc(Step(crc), n - 1);
    }
  }

  /** The innermost loop, common to both programs. */
  method EightSteps(start: Word) returns (crc: Word)
    ensures crc == Steps(start, 8)
  {
    crc := start;
    for bit := 0 to 8
      invariant crc == Steps(start, bit)
    {
      StepsSnoc(start, bit);
      crc := if crc[0] then Xor(POLYNOMIAL, Shr(crc, 1)) else Shr(crc, 1);
    }
  }

  method UpdateBuffer(start: Word, buf: seq<byte>) returns (crc: Word)
    ensures crc == UpdateAll(start, buf)
  {
    crc := start;
    for j := 0 to |buf|
      invariant UpdateAll(crc, buf[j..]) == UpdateAll(start, buf)
    {
      assert buf[j..][1..] == buf[j + 1..];
      crc := EightSteps(Xor(crc, Extend(buf[j])));
    }
  }

  /**
   * The server's checksum pass. `chunks` are the non-empty buffers the operating system chose to
   * deliver before end of file; the result does not depend on where it cut the file.
   */
  method Crc32File(chunks: seq<seq<byte>>) returns (crc32: Word, size: nat)
    requires forall k :: 0 <= k < |chunks| ==> 0 < |chunks[k]| <= 64 * 1024
    ensures crc32 == Crc(Flatten(chunks))
    ensures size == |Flatten(chunks)|
  {
    var crc: Word := ALL_ONES;
    size := 0;
    for k := 0 to |chunks|
      invariant UpdateAll(crc, Flatten(chunks[k..])) == UpdateAll(ALL_ONES, Flatten(chunks))
      invariant size + |Flatten(chunks[k..])| == |Flatten(chunks)|
    {
      assert chunks[k..][1..] == chunks[k + 1..];
      FoldConcat(Update, crc, chunks[k], Flatten(chunks[k + 1..]));
      size := size + |chunks[k]|;
      crc := UpdateBuffer(crc, chunks[k]);
    }
    crc32 := Xor(crc, ALL_ONES);
  }

  /** `table` holds, for every octet, what eight steps make of it. */
  ghost predicate IsTable(table: seq<Word>) {
    |table| == 256 && forall i :: 0 <= i < 256 ==> table[i] == TableEntry(i)
  }

  /** The browser's table. */
  method Crc32Table() returns (table: array<Word>)
    ensures fresh(table) && IsTable(table[..])
  {
    table := new Word[256](_ => ALL_ONES);
    ghost var entries: seq<Word> := [];
    for i := 0 to table.Length
      invariant table[..i] == entries
      invariant forall k :: 0 <= k < i ==> entries[k] == TableEntry(k)
    {
      var value := EightSteps(Extend(i));
      table[i] := value;
      entries := entries + [value];
    }
  }

  method UpdateByTable(table: array<Word>, crc: Word, b: byte) returns (r: Word)
    requires IsTable(table[..])
    ensures r == Update(crc, b)
  {
    TableLookup(crc, b);
    r := Xor(table[Index(crc, b)], Shr(crc, 8));
  }

  /** The browser's table-driven checksum gives the server's answer on every file. */
  method Crc32ByTable(body: seq<byte>) returns (crc32: Word)
    ensures crc32 == Crc(body)
  {
    var table := Crc32Table();
    var crc: Word := ALL_ONES;
    for j := 0 to |body|
      invariant IsTable(table[..])
      invariant Fold(Update, crc, body[j..]) == Fold(Update, ALL_ONES, body)
    {
      assert body[j..][1..] == body[j + 1..];
      crc := UpdateByTable(table, crc, body[j]);
    }
    crc32 := Xor(crc, ALL_ONES);
  }
}
