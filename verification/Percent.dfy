/** Percent-encoding of sections 2.1 and 2.3 of RFC 3986, as the CLI writes it and both ends read it. */
module Percent {
  import opened Octets
  import opened Results
  import opened Utf8

  const PERCENT: byte := 0x25
  const PLUS: byte := 0x2b
  const SPACE: byte := 0x20

  predicate IsAlphanumeric(b: byte) {
    0x30 <= b <= 0x39 || 0x41 <= b <= 0x5a || 0x61 <= b <= 0x7a
  }

  /** Letters, digits, `-`, `.`, `_` and `~`. */
  predicate IsUnreserved(b: byte) {
    IsAlphanumeric(b) || b == 0x2d || b == 0x2e || b == 0x5f || b == 0x7e
  }

  function HexVal(b: byte): (v: Option<nat>)
    ensures v.Some? ==> v.value < 16
  {
    if 0x30 <= b <= 0x39 then Some(b - 0x30)
    else if 0x61 <= b <= 0x66 then Some(b - 0x61 + 10)
    else if 0x41 <= b <= 0x46 then Some(b - 0x41 + 10)
    else None
  }

  /** An upper-case hexadecimal digit. */
  function HexDigit(v: nat): byte
    requires v < 16
  {
    if v < 10 then 0x30 + v else 0x41 + v - 10
  }

  function EncodeByte(b: byte): seq<byte> {
    if IsUnreserved(b) then [b] else [PERCENT, HexDigit(b / 16), HexDigit(b % 16)]
  }

  function Encode(s: seq<byte>): seq<byte> {
    if s == [] then [] else EncodeByte(s[0]) + Encode(s[1..])
  }

  /** Does an escape start here? */
  predicate IsEscape(s: seq<byte>, i: nat) {
    i + 2 < |s| && s[i] == PERCENT && HexVal(s[i + 1]).Some? && HexVal(s[i + 2]).Some?
  }

  function Decode(s: seq<byte>): seq<byte> {
    if s == [] then []
    else if IsEscape(s, 0) then [16 * HexVal(s[1]).value + HexVal(s[2]).value] + Decode(s[3..])
    else [if s[0] == PLUS then SPACE else s[0]] + Decode(s[1..])
  }

  /** Decoded bytes as text. */
  function DecodeText(s: seq<byte>): seq<byte> {
    Lossy(Decode(s))
  }

  // ---- The programs ----

  lemma EncodeStep(s: seq<byte>, i: nat, out: seq<byte>)
    requires i < |s|
    ensures out + Encode(s[i..]) == out + EncodeByte(s[i]) + Encode(s[i + 1..])
  {
    assert s[i..][1..] == s[i + 1..];
  }

  /** `pct_encode` in the CLI. */
  method PctEncode(s: seq<byte>) returns (out: seq<byte>)
    ensures out == Encode(s)
  {
    hide Encode;
    out := [];
    assert s[0..] == s;
    for i := 0 to |s|
      invariant out + Encode(s[i..]) == Encode(s)
    {
      EncodeStep(s, i, out);
      if IsAlphanumeric(s[i]) || s[i] == 0x2d || s[i] == 0x2e || s[i] == 0x5f || s[i] == 0x7e {
        out := out + [s[i]];
      } else {
        out := out + [PERCENT, HexDigit(s[i] / 16), HexDigit(s[i] % 16)];
      }
    }
    EncodeEmpty(s[|s|..], out);
  }

  lemma EncodeEmpty(s: seq<byte>, out: seq<byte>)
    requires s == []
    ensures out + Encode(s) == out
  {
  }

  /** One turn of either decoding loop. */
  lemma DecodeStep(s: seq<byte>, i: nat, out: seq<byte>)
    requires i < |s|
    ensures IsEscape(s, i) ==>
      out + Decode(s[i..]) == out + [16 * HexVal(s[i + 1]).value + HexVal(s[i + 2]).value] + Decode(s[i + 3..])
    ensures !IsEscape(s, i) ==>
      out + Decode(s[i..]) == out + [if s[i] == PLUS then SPACE else s[i]] + Decode(s[i + 1..])
  {
    var rest := s[i..];
    assert IsEscape(rest, 0) <==> IsEscape(s, i);
    if IsEscape(s, i) {
      assert rest[3..] == s[i + 3..];
      assert rest[1] == s[i + 1] && rest[2] == s[i + 2];
    } else {
      assert rest[1..] == s[i + 1..];
    }
  }

  lemma DecodeEmpty(s: seq<byte>, out: seq<byte>)
    requires s == []
    ensures out + Decode(s) == out
  {
  }

  /** `pct_decode` in the CLI. */
  method PctDecode(bytes: seq<byte>) returns (text: seq<byte>)
    ensures text == DecodeText(bytes)
  {
    hide Decode, HexVal;
    var out: seq<byte> := [];
    var i := 0;
    assert bytes[0..] == bytes;
    while i < |bytes|
      invariant 0 <= i <= |bytes|
      invariant out + Decode(bytes[i..]) == Decode(bytes)
    {
      DecodeStep(bytes, i, out);
      if bytes[i] == PERCENT && i + 2 < |bytes| {
        var h, l := HexVal(bytes[i + 1]), HexVal(bytes[i + 2]);
        if h.Some? && l.Some? {
          out := out + [16 * h.value + l.value];
          i := i + 3;
          continue;
        }
      }
      out := out + [if bytes[i] == PLUS then SPACE else bytes[i]];
      i := i + 1;
    }
    DecodeEmpty(bytes[i..], out);
    return Lossy(out);
  }

  /** `percent_decode` on the server, which branches on the byte first. */
  method PercentDecode(bytes: seq<byte>) returns (text: seq<byte>)
    ensures text == DecodeText(bytes)
  {
    hide Decode, HexVal;
    var out: seq<byte> := [];
    var i := 0;
    assert bytes[0..] == bytes;
    while i < |bytes|
      invariant 0 <= i <= |bytes|
      invariant out + Decode(bytes[i..]) == Decode(bytes)
    {
      DecodeStep(bytes, i, out);
      if bytes[i] == PLUS {
        out := out + [SPACE];
        i := i + 1;
      } else if bytes[i] == PERCENT && i + 2 < |bytes| {
        var hi, lo := HexVal(bytes[i + 1]), HexVal(bytes[i + 2]);
        if hi.Some? && lo.Some? {
          out := out + [16 * hi.value + lo.value];
          i := i + 3;
        } else {
          out := out + [bytes[i]];
          i := i + 1;
        }
      } else {
        out := out + [bytes[i]];
        i := i + 1;
      }
    }
    DecodeEmpty(bytes[i..], out);
    return Lossy(out);
  }

  // ---- Round trips ----

  lemma HexRoundTrip(v: nat)
    requires v < 16
    ensures HexVal(HexDigit(v)) == Some(v)
  {
  }

  lemma DecodeEncodedByte(b: byte, tail: seq<byte>)
    ensures Decode(EncodeByte(b) + tail) == [b] + Decode(tail)
  {
    HexRoundTrip(b / 16);
    HexRoundTrip(b % 16);
    var s := EncodeByte(b) + tail;
    if IsUnreserved(b) {
      assert s[1..] == tail;
    } else {
      assert s[3..] == tail;
    }
  }

  /** Decoding undoes encoding for every byte string, whatever follows it. */
  lemma {:induction false} DecodeEncode(s: seq<byte>, tail: seq<byte>)
    ensures Decode(Encode(s) + tail) == s + Decode(tail)
  {
    hide EncodeByte, Decode;
    if s == [] {
      assert Encode(s) + tail == tail;
    } else {
      var rest := Encode(s[1..]) + tail;
      assert Encode(s) + tail == EncodeByte(s[0]) + rest;
      DecodeEncodedByte(s[0], rest);
      DecodeEncode(s[1..], tail);
      assert s == [s[0]] + s[1..];
    }
  }

  lemma RoundTrip(s: seq<byte>)
    ensures Decode(Encode(s)) == s
  {
    DecodeEncode(s, []);
    assert Encode(s) + [] == Encode(s);
  }

  /** Text comes back exactly when it was text: when it is well-formed UTF-8. */
  lemma RoundTripIff(s: seq<byte>)
    ensures DecodeText(Encode(s)) == s <==> IsUtf8(s)
  {
    hide Lossy, IsUtf8;
    RoundTrip(s);
    LossyIff(s);
  }

  /** Unreserved characters and percent signs only. */
  predicate Safe(s: seq<byte>) {
    forall i :: 0 <= i < |s| ==> IsUnreserved(s[i]) || s[i] == PERCENT
  }

  lemma {:induction false} EncodeSafe(s: seq<byte>)
    ensures Safe(Encode(s))
  {
    if s != [] {
      EncodeSafe(s[1..]);
      assert IsUnreserved(HexDigit(s[0] / 16)) && IsUnreserved(HexDigit(s[0] % 16));
    }
  }

  /** Text without percent and plus signs decodes to itself. */
  lemma {:induction false} DecodePlain(s: seq<byte>)
    requires forall i :: 0 <= i < |s| ==> s[i] != PERCENT && s[i] != PLUS
    ensures Decode(s) == s
  {
    if s != [] {
      DecodePlain(s[1..]);
    }
  }

  /** ASCII text without percent and plus signs is read as it stands. */
  lemma DecodeTextPlain(s: seq<byte>)
    requires forall i :: 0 <= i < |s| ==> s[i] != PERCENT && s[i] != PLUS && s[i] <= 0x7f
    ensures DecodeText(s) == s
  {
    hide Decode, Lossy, IsUtf8;
    DecodePlain(s);
    AsciiIsUtf8(s);
    LossyIff(s);
  }

  // ---- What every spelling means ----

  /** A byte as it may be written: as itself, as a plus sign, or as an escape in either case. */
  datatype Piece = Bare(b: byte) | Plus | Escaped(b: byte, upperFirst: bool, upperSecond: bool)

  function Digit(v: nat, upper: bool): byte
    requires v < 16
  {
    if v < 10 then '0' as int + v else (if upper then 'A' else 'a') as int + v - 10
  }

  function Spelling(p: Piece): seq<byte> {
    match p
    case Bare(b) => [b]
    case Plus => ['+' as int]
    case Escaped(b, first, second) => ['%' as int, Digit(b / 16, first), Digit(b % 16, second)]
  }

  function Meaning(p: Piece): byte {
    if p.Plus? then ' ' as int else p.b
  }

  function Spell(ps: seq<Piece>): seq<byte> {
    if ps == [] then [] else Spelling(ps[0]) + Spell(ps[1..])
  }

  predicate Unambiguous(ps: seq<Piece>) {
    forall i :: 0 <= i < |ps| ==> ps[i].Bare? ==> ps[i].b != '%' as int && ps[i].b != '+' as int
  }

  lemma DecodePiece(p: Piece, tail: seq<byte>)
    requires p.Bare? ==> p.b != '%' as int && p.b != '+' as int
    ensures Decode(Spelling(p) + tail) == [Meaning(p)] + Decode(tail)
  {
    var s := Spelling(p) + tail;
    if p.Escaped? {
      assert HexVal(Digit(p.b / 16, p.upperFirst)) == Some(p.b / 16);
      assert HexVal(Digit(p.b % 16, p.upperSecond)) == Some(p.b % 16);
      assert s[3..] == tail;
    } else {
      assert s[1..] == tail;
    }
  }

  /** However its bytes are spelled, a string decodes to what they mean, whatever follows it. */
  lemma {:induction false} DecodeSpelled(ps: seq<Piece>, tail: seq<byte>)
    requires Unambiguous(ps)
    ensures Decode(Spell(ps) + tail) == seq(|ps|, i requires 0 <= i < |ps| => Meaning(ps[i])) + Decode(tail)
  {
    hide Decode, Spelling, Meaning;
    if ps == [] {
      assert Spell(ps) + tail == tail;
    } else {
      var rest := Spell(ps[1..]) + tail;
      assert Spell(ps) + tail == Spelling(ps[0]) + rest;
      DecodePiece(ps[0], rest);
      DecodeSpelled(ps[1..], tail);
    }
  }

  /** Is this the code of a hexadecimal digit in either case? */
  predicate IsHexDigit(b: byte) {
    '0' as int <= b <= '9' as int || 'a' as int <= b <= 'f' as int || 'A' as int <= b <= 'F' as int
  }

  lemma HexIff(b: byte)
    ensures HexVal(b).Some? <==> IsHexDigit(b)
  {
  }

  /** A percent sign without two hexadecimal digits after it stands for itself. */
  lemma StrayPercent(tail: seq<byte>)
    requires |tail| < 2 || !IsHexDigit(tail[0]) || !IsHexDigit(tail[1])
    ensures Decode(['%' as int] + tail) == ['%' as int] + Decode(tail)
  {
    hide HexVal;
    var s := ['%' as int] + tail;
    assert s[1..] == tail;
    if |tail| >= 2 {
      HexIff(tail[0]);
      HexIff(tail[1]);
    }
  }

  /** The writer leaves exactly the unreserved characters bare, and escapes the rest with upper-case digits. */
  lemma EncodeByteIs(b: byte)
    ensures EncodeByte(b) == Spelling(
      if 'a' as int <= b <= 'z' as int || 'A' as int <= b <= 'Z' as int || '0' as int <= b <= '9' as int
         || b == '-' as int || b == '.' as int || b == '_' as int || b == '~' as int then Bare(b)
      else Escaped(b, true, true))
  {
  }

  // ---- When decoding changes nothing ----

  /** The number of ASCII octets, which no decoder increases. */
  function Weight(s: seq<byte>): nat {
    if s == [] then 0 else (if s[0] <= 0x7f then 1 else 0) + Weight(s[1..])
  }

  lemma {:induction false} WeightConcat(a: seq<byte>, b: seq<byte>)
    ensures Weight(a + b) == Weight(a) + Weight(b)
  {
    if a == [] {
      assert a + b == b;
    } else {
      assert (a + b)[1..] == a[1..] + b;
      WeightConcat(a[1..], b);
    }
  }

  lemma {:induction false} Weightless(s: seq<byte>)
    requires forall i :: 0 <= i < |s| ==> s[i] > 0x7f
    ensures Weight(s) == 0
  {
    if s != [] {
      Weightless(s[1..]);
    }
  }

  /** What the lossy conversion takes off the front when no character starts there. */
  function Damage(s: seq<byte>): (n: nat)
    requires s != []
    ensures 0 < n <= |s|
  {
    if Fitting(s) == 0 then 1 else Fitting(s)
  }

  lemma DamageWeightless(s: seq<byte>)
    requires s != [] && !StartsWithChar(s)
    ensures Weight(s[..Damage(s)]) == 0
  {
    assert forall i :: 0 <= i < Damage(s) ==> s[i] > 0x7f;
    Weightless(s[..Damage(s)]);
  }

  lemma {:induction false} LossyWeight(s: seq<byte>)
    ensures Weight(Lossy(s)) == Weight(s)
    decreases |s|
  {
    hide Fitting, StartsWithChar, Weight;
    if s == [] {
    } else if StartsWithChar(s) {
      FittingHelps(s);
      var n := Fitting(s);
      LossyWeight(s[n..]);
      WeightConcat(s[..n], Lossy(s[n..]));
      WeightConcat(s[..n], s[n..]);
      assert s == s[..n] + s[n..];
    } else {
      var n := Damage(s);
      LossyWeight(s[n..]);
      WeightConcat(REPLACEMENT, Lossy(s[n..]));
      Weightless(REPLACEMENT);
      DamageWeightless(s);
      WeightConcat(s[..n], s[n..]);
      assert s == s[..n] + s[n..];
    }
  }

  /** A percent sign with two hexadecimal digits after it. */
  ghost predicate HasEscape(s: seq<byte>) {
    exists i: nat :: IsEscape(s, i)
  }

  lemma HasEscapeIff(s: seq<byte>)
    ensures HasEscape(s) <==>
      exists i :: 0 <= i < |s| - 2 && s[i] == '%' as int && IsHexDigit(s[i + 1]) && IsHexDigit(s[i + 2])
  {
    hide HexVal, IsHexDigit;
    forall i | 0 <= i < |s| - 2
      ensures IsEscape(s, i) <==> s[i] == '%' as int && IsHexDigit(s[i + 1]) && IsHexDigit(s[i + 2])
    {
      HexIff(s[i + 1]);
      HexIff(s[i + 2]);
    }
  }

  lemma EscapeLater(s: seq<byte>)
    requires s != []
    ensures HasEscape(s) <==> IsEscape(s, 0) || HasEscape(s[1..])
  {
    hide HexVal;
    var t := s[1..];
    if i: nat :| IsEscape(s, i) {
      assert i > 0 ==> IsEscape(t, i - 1);
    }
    if j: nat :| IsEscape(t, j) {
      assert IsEscape(s, j + 1);
    }
  }

  /** Decoding never adds an ASCII octet, and every escape costs at least two. */
  lemma {:induction false} DecodeWeight(s: seq<byte>)
    ensures Weight(Decode(s)) <= Weight(s)
    ensures HasEscape(s) ==> Weight(Decode(s)) < Weight(s)
    decreases |s|
  {
    if s == [] {
    } else if IsEscape(s, 0) {
      DecodeWeight(s[3..]);
      EscapeWeight(s);
      WeightConcat(Decode(s)[..1], Decode(s[3..]));
    } else {
      hide HasEscape, IsEscape;
      DecodeWeight(s[1..]);
      EscapeLater(s);
    }
  }

  lemma EscapeWeight(s: seq<byte>)
    requires IsEscape(s, 0)
    ensures Weight(s) == Weight(s[3..]) + 3
  {
    assert s[1..][1..] == s[2..] && s[2..][1..] == s[3..];
    assert Weight(s[2..]) == 1 + Weight(s[3..]);
    assert Weight(s[1..]) == 1 + Weight(s[2..]);
  }

  lemma {:induction false} DecodeNoEscape(s: seq<byte>)
    requires !HasEscape(s)
    ensures PLUS !in Decode(s) && (PLUS !in s ==> Decode(s) == s)
  {
    hide HasEscape, HexVal;
    if s != [] {
      EscapeLater(s);
      DecodeNoEscape(s[1..]);
    }
  }

  lemma {:induction false} LossyWithout(s: seq<byte>, b: byte)
    requires b <= 0x7f && b !in s
    ensures b !in Lossy(s)
    decreases |s|
  {
    hide Fitting, StartsWithChar;
    if s != [] {
      FittingHelps(s);
      LossyWithout(s[if StartsWithChar(s) then Fitting(s) else Damage(s)..], b);
    }
  }

  /** Text that decoding leaves alone: no plus sign and no escape anywhere. */
  ghost predicate Literal(s: seq<byte>) {
    '+' as int !in s && !HasEscape(s)
  }

  lemma LiteralIff(s: seq<byte>)
    ensures DecodeText(s) == s <==> IsUtf8(s) && Literal(s)
  {
    hide Decode, Lossy, IsUtf8, HasEscape, Weight;
    LossyWeight(Decode(s));
    DecodeWeight(s);
    LossyIff(s);
    if !HasEscape(s) {
      DecodeNoEscape(s);
      LossyWithout(Decode(s), PLUS);
    }
  }

  lemma DecodeTextWeight(s: seq<byte>)
    ensures Weight(DecodeText(s)) <= Weight(s)
  {
    LossyWeight(Decode(s));
    DecodeWeight(s);
  }
}
