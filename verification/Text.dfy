/** The string operations of the standard library that the URI code uses, on UTF-8 bytes. */
module Text {
  import opened Octets
  import opened Results
  import opened Utf8

  type Text = seq<byte>

  /** The bytes of an ASCII literal. */
  function Ascii(s: string): (t: Text)
    ensures |t| == |s|
  {
    seq(|s|, i requires 0 <= i < |s| => (s[i] as int) % 128)
  }

  // ---- Splitting and joining ----

  function SplitOnce(s: Text, sep: byte): (r: Option<(Text, Text)>)
    ensures r.None? <==> sep !in s
    ensures r.Some? ==> sep !in r.value.0 && s == r.value.0 + [sep] + r.value.1
  {
    if s == [] then None
    else if s[0] == sep then Some(([], s[1..]))
    else match SplitOnce(s[1..], sep)
      case None => None
      case Some((before, after)) => Some(([s[0]] + before, after))
  }

  /** The first separator decides, so what stands before it must not hold one. */
  lemma {:induction false} SplitOnceAt(before: Text, sep: byte, after: Text)
    requires sep !in before
    ensures SplitOnce(before + [sep] + after, sep) == Some((before, after))
  {
    var s := before + [sep] + after;
    if before == [] {
      assert s[1..] == after;
    } else {
      assert s[1..] == before[1..] + [sep] + after;
      SplitOnceAt(before[1..], sep, after);
      assert before == [before[0]] + before[1..];
    }
  }

  function Split(s: Text, sep: byte): (parts: seq<Text>)
    ensures |parts| > 0
    decreases |s|
  {
    match SplitOnce(s, sep)
    case None => [s]
    case Some((before, after)) => [before] + Split(after, sep)
  }

  function Join(parts: seq<Text>, sep: byte): Text {
    if parts == [] then []
    else if |parts| == 1 then parts[0]
    else parts[0] + [sep] + Join(parts[1..], sep)
  }

  lemma {:induction false} SplitJoin(parts: seq<Text>, sep: byte)
    requires parts != [] && forall i :: 0 <= i < |parts| ==> sep !in parts[i]
    ensures Split(Join(parts, sep), sep) == parts
  {
    if |parts| > 1 {
      SplitOnceAt(parts[0], sep, Join(parts[1..], sep));
      SplitJoin(parts[1..], sep);
    }
  }

  lemma {:induction false} JoinWithout(parts: seq<Text>, sep: byte, b: byte)
    requires b != sep && forall i :: 0 <= i < |parts| ==> b !in parts[i]
    ensures b !in Join(parts, sep)
  {
    if |parts| > 1 {
      JoinWithout(parts[1..], sep, b);
    }
  }

  // ---- Trimming Unicode white space ----

  /** Is `s` the UTF-8 form of one character with the White_Space property? */
  predicate IsSpace(s: Text) {
    (|s| == 1 && (0x09 <= s[0] <= 0x0d || s[0] == 0x20))
    || (|s| == 2 && s[0] == 0xc2 && (s[1] == 0x85 || s[1] == 0xa0))
    || (|s| == 3 && s[0] == 0xe1 && s[1] == 0x9a && s[2] == 0x80)
    || (|s| == 3 && s[0] == 0xe2 && s[1] == 0x80
        && (0x80 <= s[2] <= 0x8a || s[2] == 0xa8 || s[2] == 0xa9 || s[2] == 0xaf))
    || (|s| == 3 && s[0] == 0xe2 && s[1] == 0x81 && s[2] == 0x9f)
    || (|s| == 3 && s[0] == 0xe3 && s[1] == 0x80 && s[2] == 0x80)
  }

  /** The code points with the White_Space property. */
  predicate WhiteSpace(c: nat) {
    0x09 <= c <= 0x0d || c == 0x20 || c == 0x85 || c == 0xa0 || c == 0x1680 || 0x2000 <= c <= 0x200a
    || c == 0x2028 || c == 0x2029 || c == 0x202f || c == 0x205f || c == 0x3000
  }

  lemma SpaceIsEncoded(s: Text) returns (c: CodePoint)
    requires IsSpace(s)
    ensures WhiteSpace(c) && EncodeScalar(c) == s
  {
    if |s| == 1 {
      c := s[0];
    } else if |s| == 2 {
      c := s[1];
    } else {
      var a: int, b: int, d: int := s[0], s[1], s[2];
      c := (a - 0xe0) * 4096 + (b - 0x80) * 64 + (d - 0x80);
      assert c / 64 == (a - 0xe0) * 64 + (b - 0x80);
    }
  }

  lemma EncodedIsSpace(c: CodePoint)
    requires WhiteSpace(c)
    ensures IsSpace(EncodeScalar(c))
  {
    if 0x800 <= c {
      var s := EncodeScalar(c);
      assert c / 4096 == s[0] - 0xe0 && c / 64 % 64 == s[1] - 0x80 && c % 64 == s[2] - 0x80;
    }
  }

  /** Trimming takes off the encodings of these code points and nothing else. */
  lemma SpaceIff(s: Text)
    ensures IsSpace(s) <==> exists c: CodePoint :: WhiteSpace(c) && EncodeScalar(c) == s
  {
    hide IsSpace, EncodeScalar, WhiteSpace;
    if IsSpace(s) {
      var c := SpaceIsEncoded(s);
    }
    if c: CodePoint :| WhiteSpace(c) && EncodeScalar(c) == s {
      EncodedIsSpace(c);
    }
  }

  function LeadingSpace(s: Text): (n: nat)
    ensures n <= |s|
  {
    if |s| >= 1 && IsSpace(s[..1]) then 1
    else if |s| >= 2 && IsSpace(s[..2]) then 2
    else if |s| >= 3 && IsSpace(s[..3]) then 3
    else 0
  }

  function TrailingSpace(s: Text): (n: nat)
    ensures n <= |s|
  {
    if |s| >= 1 && IsSpace(s[|s| - 1..]) then 1
    else if |s| >= 2 && IsSpace(s[|s| - 2..]) then 2
    else if |s| >= 3 && IsSpace(s[|s| - 3..]) then 3
    else 0
  }

  function TrimStart(s: Text): (t: Text)
    ensures LeadingSpace(t) == 0
    decreases |s|
  {
    if LeadingSpace(s) == 0 then s else TrimStart(s[LeadingSpace(s)..])
  }

  function TrimEnd(s: Text): (t: Text)
    ensures TrailingSpace(t) == 0 && t <= s
    decreases |s|
  {
    if TrailingSpace(s) == 0 then s else TrimEnd(s[..|s| - TrailingSpace(s)])
  }

  function Trim(s: Text): Text {
    TrimEnd(TrimStart(s))
  }

  /** White-space characters one after the other. */
  predicate Blank(s: Text)
    decreases |s|
  {
    s == [] || (LeadingSpace(s) > 0 && Blank(s[LeadingSpace(s)..]))
  }

  lemma {:induction false} TrimStartParts(s: Text) returns (a: Text)
    ensures s == a + TrimStart(s) && Blank(a)
    decreases |s|
  {
    hide IsSpace, LeadingSpace;
    var n := LeadingSpace(s);
    if n == 0 {
      a := [];
    } else {
      var rest := TrimStartParts(s[n..]);
      a := s[..n] + rest;
      LeadingSame(s, a);
      assert a[n..] == rest;
    }
  }

  /** How much white space stands in front is told from those characters alone. */
  lemma LeadingSame(s: Text, a: Text)
    requires LeadingSpace(s) > 0 && s[..LeadingSpace(s)] <= a
    ensures LeadingSpace(a) == LeadingSpace(s)
  {
    hide IsSpace;
    var n := LeadingSpace(s);
    SpaceWidth(s[..n]);
    assert a[..n] == s[..n];
    assert n >= 1 ==> a[..1] == s[..1];
    assert n >= 2 ==> a[..2] == s[..2];
  }

  lemma SpaceWidth(s: Text)
    ensures IsSpace(s) ==> 1 <= |s| <= 3
  {
  }

  lemma {:induction false} TrimEndParts(s: Text) returns (b: Text)
    ensures s == TrimEnd(s) + b && Blank(b)
    decreases |s|
  {
    hide IsSpace, LeadingSpace, Blank, TrailingSpace;
    var n := TrailingSpace(s);
    if n == 0 {
      b := [];
      NothingBlank();
    } else {
      var c := s[|s| - n..];
      TrailingIs(s);
      var rest := TrimEndParts(s[..|s| - n]);
      b := rest + c;
      OneBlank(c);
      BlankConcat(rest, c);
    }
  }

  lemma NothingBlank()
    ensures Blank([])
  {
  }

  lemma TrailingIs(s: Text)
    ensures TrailingSpace(s) > 0 ==> IsSpace(s[|s| - TrailingSpace(s)..])
  {
  }

  lemma OneBlank(c: Text)
    requires IsSpace(c)
    ensures Blank(c)
  {
    SpaceAlone(c);
    assert c[|c|..] == [];
  }

  /** No white-space character begins with another. */
  lemma SpaceAlone(c: Text)
    requires IsSpace(c)
    ensures LeadingSpace(c) == |c| > 0
  {
    assert c[..|c|] == c;
    assert |c| >= 2 ==> c[..1][0] == c[0];
    assert |c| == 3 ==> c[..2][0] == c[0];
  }

  lemma {:induction false} BlankConcat(a: Text, b: Text)
    requires Blank(a) && Blank(b)
    ensures Blank(a + b)
    decreases |a|
  {
    hide IsSpace, LeadingSpace;
    if a == [] {
      assert a + b == b;
    } else {
      var n := LeadingSpace(a);
      LeadingSame(a, a + b);
      BlankConcat(a[n..], b);
      assert (a + b)[n..] == a[n..] + b;
    }
  }

  /** Only white space is trimmed, and all of it. */
  lemma TrimParts(s: Text) returns (a: Text, b: Text)
    ensures s == a + Trim(s) + b && Blank(a) && Blank(b)
    ensures LeadingSpace(Trim(s)) == 0 && TrailingSpace(Trim(s)) == 0
  {
    hide IsSpace, LeadingSpace, TrailingSpace, TrimStart, TrimEnd, Blank;
    a := TrimStartParts(s);
    b := TrimEndParts(TrimStart(s));
    NoNewLeadingSpace(TrimStart(s), Trim(s));
  }

  lemma NoNewLeadingSpace(s: Text, t: Text)
    requires LeadingSpace(s) == 0 && t <= s
    ensures LeadingSpace(t) == 0
  {
    assert |t| >= 1 ==> t[..1] == s[..1];
    assert |t| >= 2 ==> t[..2] == s[..2];
    assert |t| >= 3 ==> t[..3] == s[..3];
  }

  /** Cutting the end never uncovers white space at the start, so one pass each way is enough. */
  lemma TrimIdempotent(s: Text)
    ensures Trim(Trim(s)) == Trim(s)
  {
    NoNewLeadingSpace(TrimStart(s), Trim(s));
  }

  /** Text that begins and ends with visible ASCII is left alone. */
  lemma TrimVisible(s: Text)
    requires s != [] && 0x21 <= s[0] <= 0x7e && 0x21 <= s[|s| - 1] <= 0x7e
    ensures Trim(s) == s
  {
    assert !IsSpace(s[..1]) && !IsSpace(s[|s| - 1..]);
    assert |s| >= 2 ==> !IsSpace(s[..2]) && !IsSpace(s[|s| - 2..]);
    assert |s| >= 3 ==> !IsSpace(s[..3]) && !IsSpace(s[|s| - 3..]);
  }

  /** A white-space character is a whole character and does not begin like the inside of one. */
  lemma SpaceIsChar(s: Text, n: nat)
    requires n <= |s| && IsSpace(s[..n])
    ensures StartsWithChar(s) && Fitting(s) == n
  {
    assert forall i :: 0 <= i < n ==> s[i] == s[..n][i];
  }

  lemma {:induction false} TrimStartUtf8(s: Text)
    requires IsUtf8(s)
    ensures IsUtf8(TrimStart(s))
    decreases |s|
  {
    hide IsSpace, Fitting, StartsWithChar;
    var n := LeadingSpace(s);
    if n > 0 {
      assert IsSpace(s[..n]);
      SpaceIsChar(s, n);
      TrimStartUtf8(s[n..]);
    }
  }

  /** What stands before a whole character is well-formed if the whole is. */
  lemma {:induction false} BeforeChar(a: Text, c: Text)
    requires IsUtf8(a + c) && c != [] && !IsContinuation(c[0])
    ensures IsUtf8(a)
    decreases |a|
  {
    if a != [] {
      var s := a + c;
      var m := Fitting(s);
      CharInside(s, |a|);
      assert s[..m] + a[m..] == a;
      CharAlone(s, a[m..]);
      assert s[m..] == a[m..] + c;
      BeforeChar(a[m..], c);
    }
  }

  lemma CharInside(s: Text, k: nat)
    requires StartsWithChar(s) && 0 < k < |s| && !IsContinuation(s[k])
    ensures 0 < Fitting(s) <= k
  {
  }

  lemma SpaceStart(s: Text)
    requires IsSpace(s)
    ensures s != [] && !IsContinuation(s[0])
  {
  }

  lemma {:induction false} TrimEndUtf8(s: Text)
    requires IsUtf8(s)
    ensures IsUtf8(TrimEnd(s))
    decreases |s|
  {
    hide IsSpace, IsUtf8;
    var n := TrailingSpace(s);
    if n > 0 {
      var a, c := s[..|s| - n], s[|s| - n..];
      SpaceStart(c);
      assert a + c == s;
      BeforeChar(a, c);
      TrimEndUtf8(a);
    }
  }

  lemma TrimUtf8(s: Text)
    requires IsUtf8(s)
    ensures IsUtf8(Trim(s))
  {
    TrimStartUtf8(s);
    TrimEndUtf8(TrimStart(s));
  }
}
