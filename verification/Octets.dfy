/** Octets, their bits, and the little-endian numbers that binary headers are made of. */
module Octets {
  type byte = x: int | 0 <= x < 256

  type u8 = byte
  type u32 = x: int | 0 <= x <= U32_MAX

  /** The most that is sampled to detect line endings or encodings. */
  const SAMPLE_LIMIT := 64 * 1024

  const U16_MAX: nat := 0xffff
  const U32_MAX: nat := 0xffff_ffff

  /** What `write_u16` emits for `value as u16`: the cast drops the high bits. */
  function LE16(value: nat): (s: seq<byte>)
    ensures |s| == 2
  {
    [value % 256, value / 256 % 256]
  }

  /** What `write_u32` emits for `value as u32`. */
  function LE32(value: nat): (s: seq<byte>)
    ensures |s| == 4
  {
    [value % 256, value / 256 % 256, value / 0x1_0000 % 256, value / 0x100_0000 % 256]
  }

  function FromLE16(b0: nat, b1: nat): nat {
    b0 + 256 * b1
  }

  function FromLE32(b0: nat, b1: nat, b2: nat, b3: nat): nat {
    b0 + 256 * b1 + 0x1_0000 * b2 + 0x100_0000 * b3
  }

  /** A 16-bit field reads back as the value modulo 2^16: the cast is lossless exactly below that. */
  lemma LE16RoundTrip(value: nat)
    ensures FromLE16(LE16(value)[0], LE16(value)[1]) == value % 0x1_0000
  {
    assert value == 0x1_0000 * (value / 256 / 256) + 256 * (value / 256 % 256) + value % 256;
  }

  lemma LE32Digits(value: nat) returns (q1: nat, q2: nat, q3: nat, q4: nat)
    ensures var s := LE32(value);
      value == s[0] + 256 * q1 && q1 == s[1] + 256 * q2 && q2 == s[2] + 256 * q3 && q3 == s[3] + 256 * q4
  {
    q1, q2, q3, q4 := value / 256, value / 0x1_0000, value / 0x100_0000, value / 0x1_0000_0000;
  }

  lemma FromDigits(value: nat, b0: byte, b1: byte, b2: byte, b3: byte, q4: nat)
    requires value == FromLE32(b0, b1, b2, b3) + 0x1_0000_0000 * q4
    ensures FromLE32(b0, b1, b2, b3) == value % 0x1_0000_0000
  {
  }

  lemma LE32RoundTrip(value: nat)
    ensures var s := LE32(value); FromLE32(s[0], s[1], s[2], s[3]) == value % 0x1_0000_0000
  {
    var s := LE32(value);
    var q1, q2, q3, q4 := LE32Digits(value);
    FromDigits(value, s[0], s[1], s[2], s[3], q4);
  }

  function Flatten<T>(parts: seq<seq<T>>): seq<T> {
    if parts == [] then [] else parts[0] + Flatten(parts[1..])
  }

  lemma {:induction false} FlattenSnoc<T>(parts: seq<seq<T>>, last: seq<T>)
    ensures Flatten(parts + [last]) == Flatten(parts) + last
  {
    if parts == [] {
      assert parts + [last] == [last] && Flatten([last]) == last + Flatten([]);
    } else {
      FlattenSnoc(parts[1..], last);
      assert (parts + [last])[1..] == parts[1..] + [last];
    }
  }

  // ---- Bits, least significant first ----

  /** The low `k` bits of `n`. */
  function Bits(n: nat, k: nat): (s: seq<bool>)
    ensures |s| == k
  {
    if k == 0 then [] else [n % 2 == 1] + Bits(n / 2, k - 1)
  }

  function Value(bits: seq<bool>): nat {
    if bits == [] then 0 else (if bits[0] then 1 else 0) + 2 * Value(bits[1..])
  }

  /** `n << k` without wrap-around. */
  function Shl(n: nat, k: nat): nat {
    if k == 0 then n else 2 * Shl(n, k - 1)
  }

  lemma ShlOctet(n: nat)
    ensures Shl(n, 8) == 256 * n
  {
    assert Shl(n, 0) == n && Shl(n, 1) == 2 * n && Shl(n, 2) == 4 * n && Shl(n, 3) == 8 * n && Shl(n, 4) == 16 * n;
    assert Shl(n, 5) == 32 * n && Shl(n, 6) == 64 * n && Shl(n, 7) == 128 * n;
  }

  lemma {:induction false} ShlSum(n: nat, a: nat, b: nat)
    ensures Shl(n, a + b) == Shl(Shl(n, b), a)
    decreases a
  {
    if a > 0 {
      ShlSum(n, a - 1, b);
    }
  }

  lemma {:induction false} BitsOfValue(bits: seq<bool>)
    ensures Bits(Value(bits), |bits|) == bits
    ensures Value(bits) < Shl(1, |bits|)
  {
    if bits != [] {
      BitsOfValue(bits[1..]);
      assert Value(bits) / 2 == Value(bits[1..]);
      assert bits == [bits[0]] + bits[1..];
    }
  }

  lemma {:induction false} ValueOfBits(n: nat, k: nat)
    requires n < Shl(1, k)
    ensures Value(Bits(n, k)) == n
  {
    if k > 0 {
      ValueOfBits(n / 2, k - 1);
    }
  }

  /** The bits of a byte string in the order the checksum sees them. */
  function BitStream(body: seq<byte>): (s: seq<bool>)
    ensures |s| == 8 * |body|
  {
    if body == [] then [] else Bits(body[0], 8) + BitStream(body[1..])
  }

  lemma {:induction false} BitStreamConcat(a: seq<byte>, b: seq<byte>)
    ensures BitStream(a + b) == BitStream(a) + BitStream(b)
  {
    if a == [] {
      assert a + b == b;
    } else {
      var rest := a[1..];
      BitStreamConcat(rest, b);
      assert (a + b)[1..] == rest + b && (a + b)[0] == a[0];
    }
  }

  lemma {:induction false} BitsAppend(lo: nat, j: nat, hi: nat, k: nat)
    requires lo < Shl(1, j)
    ensures Bits(lo + Shl(hi, j), j + k) == Bits(lo, j) + Bits(hi, k)
  {
    if j > 0 {
      BitsAppend(lo / 2, j - 1, hi, k);
      assert (lo + Shl(hi, j)) / 2 == lo / 2 + Shl(hi, j - 1) && (lo + Shl(hi, j)) % 2 == lo % 2;
    }
  }

  /** Four base-2^w digits, least significant first, carry the bits of the number they spell. */
  lemma DigitsAreBits(s: seq<nat>, w: nat, q1: nat, q2: nat, q3: nat, q4: nat)
    requires |s| == 4
    requires s[0] < Shl(1, w) && s[1] < Shl(1, w) && s[2] < Shl(1, w) && s[3] < Shl(1, w)
    requires q1 == s[1] + Shl(q2, w) && q2 == s[2] + Shl(q3, w) && q3 == s[3] + Shl(q4, w)
    ensures Bits(s[0] + Shl(q1, w), w + (w + (w + (w + 0))))
         == Bits(s[0], w) + (Bits(s[1], w) + (Bits(s[2], w) + (Bits(s[3], w) + [])))
  {
    hide Bits, Shl;
    BitsAppend(s[3], w, q4, 0);
    BitsAppend(s[2], w, q3, w + 0);
    BitsAppend(s[1], w, q2, w + (w + 0));
    BitsAppend(s[0], w, q1, w + (w + (w + 0)));
  }

  lemma FourOctets(s: seq<byte>)
    requires |s| == 4
    ensures BitStream(s) == Bits(s[0], 8) + (Bits(s[1], 8) + (Bits(s[2], 8) + (Bits(s[3], 8) + [])))
  {
    var s1, s2, s3 := s[1..], s[2..], s[3..];
    assert s1[1..] == s2 && s2[1..] == s3 && s3[1..] == [];
    assert BitStream(s3) == Bits(s[3], 8) + [];
    assert BitStream(s2) == Bits(s[2], 8) + BitStream(s3);
    assert BitStream(s1) == Bits(s[1], 8) + BitStream(s2);
  }

  /** The wire form of a 32-bit number carries exactly its bits. */
  lemma BitStreamOfLE32(value: nat)
    ensures BitStream(LE32(value)) == Bits(value, 32)
  {
    var s := LE32(value);
    var q1, q2, q3, q4 := LE32Digits(value);
    ShlOctet(1);
    ShlOctet(q1);
    ShlOctet(q2);
    ShlOctet(q3);
    ShlOctet(q4);
    FourOctets(s);
    DigitsAreBits(s, 8, q1, q2, q3, q4);
  }
}
