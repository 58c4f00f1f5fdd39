/** Well-formed UTF-8 (table 3-7 of the Unicode Standard) and `String::from_utf8_lossy`. */
module Utf8 {
  import opened Octets

  /** How many bytes a character that starts with `b` takes; 0 if none does. */
  function Width(b: byte): nat {
    if b <= 0x7f then 1
    else if 0xc2 <= b <= 0xdf then 2
    else if 0xe0 <= b <= 0xef then 3
    else if 0xf0 <= b <= 0xf4 then 4
    else 0
  }

  predicate IsContinuation(b: byte) {
    0x80 <= b <= 0xbf
  }

  /** The second byte is restricted after some first bytes: no overlong forms, no surrogates, nothing above U+10FFFF. */
  predicate MayFollow(first: byte, second: byte) {
    if first == 0xe0 then 0xa0 <= second <= 0xbf
    else if first == 0xed then 0x80 <= second <= 0x9f
    else if first == 0xf0 then 0x90 <= second <= 0xbf
    else if first == 0xf4 then 0x80 <= second <= 0x8f
    else IsContinuation(second)
  }

  /** How many bytes at the front belong to one character, as far as they go. */
  function Fitting(s: seq<byte>): (n: nat)
    ensures n <= |s| && n <= 4
  {
    if s == [] || Width(s[0]) == 0 then 0
    else if Width(s[0]) == 1 || |s| < 2 || !MayFollow(s[0], s[1]) then 1
    else if Width(s[0]) == 2 || |s| < 3 || !IsContinuation(s[2]) then 2
    else if Width(s[0]) == 3 || |s| < 4 || !IsContinuation(s[3]) then 3
    else 4
  }

  /** A whole character stands at the front. */
  predicate StartsWithChar(s: seq<byte>) {
    s != [] && Width(s[0]) > 0 && Fitting(s) == Width(s[0])
  }

  predicate IsUtf8(s: seq<byte>) {
    s == [] || (StartsWithChar(s) && IsUtf8(s[Fitting(s)..]))
  }

  /** U+FFFD. */
  const REPLACEMENT: seq<byte> := [0xef, 0xbf, 0xbd]

  /** Each maximal piece that cannot be part of a character becomes one replacement character. */
  function Lossy(s: seq<byte>): seq<byte> {
    if s == [] then []
    else if StartsWithChar(s) then s[..Fitting(s)] + Lossy(s[Fitting(s)..])
    else REPLACEMENT + Lossy(s[if Fitting(s) == 0 then 1 else Fitting(s)..])
  }

  /** A character is told from its own bytes. */
  lemma CharAlone(s: seq<byte>, tail: seq<byte>)
    requires StartsWithChar(s)
    ensures var t := s[..Fitting(s)] + tail; StartsWithChar(t) && Fitting(t) == Fitting(s) && t[Fitting(t)..] == tail
  {
    var t := s[..Fitting(s)] + tail;
    assert forall i :: 0 <= i < Fitting(s) ==> t[i] == s[i];
  }

  lemma ReplacementIsChar(tail: seq<byte>)
    ensures var t := REPLACEMENT + tail; StartsWithChar(t) && Fitting(t) == 3 && t[3..] == tail
  {
    var t := REPLACEMENT + tail;
    assert t[0] == 0xef && t[1] == 0xbf && t[2] == 0xbd;
  }

  lemma {:induction false} LossyIsUtf8(s: seq<byte>)
    ensures IsUtf8(Lossy(s))
    decreases |s|
  {
    hide Fitting, StartsWithChar;
    if s != [] {
      FittingHelps(s);
      if StartsWithChar(s) {
        var tail := Lossy(s[Fitting(s)..]);
        LossyIsUtf8(s[Fitting(s)..]);
        CharAlone(s, tail);
      } else {
        var rest := s[if Fitting(s) == 0 then 1 else Fitting(s)..];
        LossyIsUtf8(rest);
        ReplacementIsChar(Lossy(rest));
      }
    }
  }

  lemma FittingHelps(s: seq<byte>)
    ensures StartsWithChar(s) ==> Fitting(s) > 0
  {
  }

  lemma {:induction false} LossyKeepsUtf8(s: seq<byte>)
    requires IsUtf8(s)
    ensures Lossy(s) == s
    decreases |s|
  {
    hide Fitting, StartsWithChar;
    if s != [] {
      FittingHelps(s);
      LossyKeepsUtf8(s[Fitting(s)..]);
      assert s == s[..Fitting(s)] + s[Fitting(s)..];
    }
  }

  /** The conversion leaves exactly the well-formed strings alone. */
  lemma LossyIff(s: seq<byte>)
    ensures Lossy(s) == s <==> IsUtf8(s)
  {
    LossyIsUtf8(s);
    if IsUtf8(s) {
      LossyKeepsUtf8(s);
    }
  }

  lemma {:induction false} AsciiIsUtf8(s: seq<byte>)
    requires forall i :: 0 <= i < |s| ==> s[i] <= 0x7f
    ensures IsUtf8(s)
  {
    if s != [] {
      AsciiIsUtf8(s[1..]);
    }
  }

  // ---- The same strings, as encodings of code points ----

  predicate IsScalar(c: nat) {
    c < 0xd800 || 0xe000 <= c <= 0x10_ffff
  }

  /** The encoding form of section 3.9 of the Unicode Standard. */
  function EncodeScalar(c: nat): (s: seq<byte>)
    requires IsScalar(c)
    ensures 1 <= |s| <= 4
  {
    if c < 0x80 then [c]
    else if c < 0x800 then [0xc0 + c / 64, 0x80 + c % 64]
    else if c < 0x1_0000 then [0xe0 + c / 4096, 0x80 + c / 64 % 64, 0x80 + c % 64]
    else [0xf0 + c / 262_144, 0x80 + c / 4096 % 64, 0x80 + c / 64 % 64, 0x80 + c % 64]
  }

  type CodePoint = c: nat | IsScalar(c) witness 0

  function EncodeScalars(cs: seq<CodePoint>): seq<byte> {
    if cs == [] then [] else EncodeScalar(cs[0]) + EncodeScalars(cs[1..])
  }

  /** Every code point is encoded as one whole character. */
  lemma ScalarIsChar(c: CodePoint, tail: seq<byte>)
    ensures var s := EncodeScalar(c) + tail; StartsWithChar(s) && Fitting(s) == |EncodeScalar(c)|
  {
    var s := EncodeScalar(c) + tail;
    if c >= 0x1_0000 {
      assert 0xf0 <= s[0] <= 0xf4;
      assert s[1] == 0x80 + c / 4096 % 64;
    }
  }

  lemma TwoBytes(a: int, b: int) returns (c: CodePoint)
    requires 0xc2 <= a <= 0xdf && 0x80 <= b <= 0xbf
    ensures EncodeScalar(c) == [a, b]
  {
    c := (a - 0xc0) * 64 + (b - 0x80);
  }

  lemma ThreeBytes(a: int, b: int, d: int) returns (c: CodePoint)
    requires 0xe0 <= a <= 0xef && 0x80 <= b <= 0xbf && MayFollow(a, b) && 0x80 <= d <= 0xbf
    ensures EncodeScalar(c) == [a, b, d]
  {
    c := (a - 0xe0) * 4096 + (b - 0x80) * 64 + (d - 0x80);
    assert c / 64 == (a - 0xe0) * 64 + (b - 0x80);
  }

  lemma FourBytes(a: int, b: int, d: int, e: int) returns (c: CodePoint)
    requires 0xf0 <= a <= 0xf4 && 0x80 <= b <= 0xbf && MayFollow(a, b) && 0x80 <= d <= 0xbf && 0x80 <= e <= 0xbf
    ensures EncodeScalar(c) == [a, b, d, e]
  {
    c := (a - 0xf0) * 262_144 + (b - 0x80) * 4096 + (d - 0x80) * 64 + (e - 0x80);
    assert c / 64 == (a - 0xf0) * 4096 + (b - 0x80) * 64 + (d - 0x80);
    assert c / 4096 == (a - 0xf0) * 64 + (b - 0x80);
  }

  /** Every whole character is the encoding of one code point. */
  lemma CharIsScalar(s: seq<byte>) returns (c: CodePoint)
    requires StartsWithChar(s)
    ensures EncodeScalar(c) == s[..Fitting(s)]
  {
    var n := Fitting(s);
    if n == 1 {
      c := s[0];
      return;
    }
    hide EncodeScalar;
    if n == 2 {
      c := TwoBytes(s[0], s[1]);
    } else if n == 3 {
      c := ThreeBytes(s[0], s[1], s[2]);
    } else {
      c := FourBytes(s[0], s[1], s[2], s[3]);
    }
  }

  lemma {:induction false} EncodedIsUtf8(cs: seq<CodePoint>)
    ensures IsUtf8(EncodeScalars(cs))
  {
    hide Fitting, StartsWithChar, EncodeScalar;
    if cs != [] {
      EncodedIsUtf8(cs[1..]);
      ScalarIsChar(cs[0], EncodeScalars(cs[1..]));
    }
  }

  lemma {:induction false} Utf8IsEncoded(s: seq<byte>) returns (cs: seq<CodePoint>)
    requires IsUtf8(s)
    ensures EncodeScalars(cs) == s
    decreases |s|
  {
    hide Fitting, StartsWithChar, EncodeScalar;
    if s == [] {
      cs := [];
    } else {
      FittingHelps(s);
      var c := CharIsScalar(s);
      var rest := Utf8IsEncoded(s[Fitting(s)..]);
      cs := [c] + rest;
      assert s == s[..Fitting(s)] + s[Fitting(s)..];
    }
  }

  /** Well-formed strings are exactly the encodings of sequences of code points. */
  lemma Utf8Iff(s: seq<byte>)
    ensures IsUtf8(s) <==> exists cs :: EncodeScalars(cs) == s
  {
    hide IsUtf8, EncodeScalars;
    if IsUtf8(s) {
      var cs := Utf8IsEncoded(s);
    }
    if cs :| EncodeScalars(cs) == s {
      EncodedIsUtf8(cs);
    }
  }
}
