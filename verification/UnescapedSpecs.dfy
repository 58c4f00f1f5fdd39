/** Serial and process URIs: several strings share one query, and none of them is escaped but for its spaces. */
module UnescapedSpecs {
  import opened ChannelSpec
  import opened Decimals
  import opened Octets
  import opened Percent
  import opened Results
  import opened Text
  import opened Utf8

  // ---- Escaping spaces is invisible to the decoder ----

  lemma {:induction false} EscapeKeepsEscape(s: Text)
    ensures IsEscape(EscapeSpaces(s), 0) <==> IsEscape(s, 0) || (s != [] && s[0] == SPACE)
  {
    hide HexVal;
    SpaceEscape();
    if s != [] && s[0] != SPACE {
      var t := EscapeSpaces(s);
      EscapeFront(s[1..]);
      assert t == [s[0]] + EscapeSpaces(s[1..]);
      if |s| >= 2 && s[1] != SPACE {
        EscapeFront(s[2..]);
        assert s[1..][1..] == s[2..];
      }
    }
  }

  lemma SpaceEscape()
    ensures Ascii("%20") == [PERCENT, 0x32, 0x30] && HexVal(0x32) == Some(2) && HexVal(0x30) == Some(0)
    ensures HexVal(PERCENT) == None && HexVal(SPACE) == None
  {
  }

  lemma EscapeFront(s: Text)
    ensures EscapeSpaces(s) == [] <==> s == []
    ensures s != [] ==> EscapeSpaces(s)[0] == if s[0] == SPACE then PERCENT else s[0]
  {
    SpaceEscape();
  }

  /** Text with its spaces escaped decodes like the text itself. */
  lemma {:induction false} DecodeEscaped(s: Text)
    ensures Decode(EscapeSpaces(s)) == Decode(s)
    decreases |s|
  {
    hide HexVal;
    SpaceEscape();
    EscapeKeepsEscape(s);
    var t := EscapeSpaces(s);
    if s == [] {
    } else if IsEscape(s, 0) {
      EscapeThree(s);
      DecodeEscaped(s[3..]);
    } else {
      DecodeEscaped(s[1..]);
      if s[0] == SPACE {
        assert t[3..] == EscapeSpaces(s[1..]);
      } else {
        assert t[1..] == EscapeSpaces(s[1..]);
      }
    }
  }

  lemma EscapeThree(s: Text)
    requires IsEscape(s, 0)
    ensures EscapeSpaces(s) == s[..3] + EscapeSpaces(s[3..])
  {
    hide HexVal;
    SpaceEscape();
    assert s[1..][1..] == s[2..] && s[2..][1..] == s[3..];
    assert EscapeSpaces(s[2..]) == [s[2]] + EscapeSpaces(s[3..]);
    assert EscapeSpaces(s[1..]) == [s[1]] + EscapeSpaces(s[2..]);
  }

  // ---- Nor does it move a separator ----

  predicate IsSeparator(b: byte) {
    b == AMP || b == EQUALS || b == SEMICOLON || b == QUESTION
  }

  lemma SplitOnceEscaped(s: Text, sep: byte)
    requires IsSeparator(sep)
    ensures SplitOnce(EscapeSpaces(s), sep) ==
      match SplitOnce(s, sep) case None => None case Some((a, b)) => Some((EscapeSpaces(a), EscapeSpaces(b)))
  {
    hide EscapeSpaces, SplitOnce;
    match SplitOnce(s, sep)
    case None =>
      EscapedWithout(s, sep);
    case Some((a, b)) =>
      EscapeConcat(a + [sep], b);
      EscapeConcat(a, [sep]);
      NoSpaces([sep]);
      EscapedWithout(a, sep);
      SplitOnceAt(EscapeSpaces(a), sep, EscapeSpaces(b));
  }

  function EscapeAll(parts: seq<Text>): (r: seq<Text>)
    ensures |r| == |parts| && forall i :: 0 <= i < |r| ==> r[i] == EscapeSpaces(parts[i])
  {
    seq(|parts|, i requires 0 <= i < |parts| => EscapeSpaces(parts[i]))
  }

  lemma {:induction false} SplitEscaped(s: Text, sep: byte)
    requires IsSeparator(sep)
    ensures Split(EscapeSpaces(s), sep) == EscapeAll(Split(s, sep))
    decreases |s|
  {
    hide EscapeSpaces;
    SplitOnceEscaped(s, sep);
    match SplitOnce(s, sep)
    case None =>
    case Some((a, b)) =>
      SplitEscaped(b, sep);
  }

  function Lookup(q: Query, key: Text): Option<Text> {
    if key in q then Some(q[key]) else None
  }

  lemma {:induction false} SpaceShows(s: Text)
    ensures SPACE in s ==> PERCENT in EscapeSpaces(s)
  {
    if s != [] {
      SpaceEscape();
      SpaceShows(s[1..]);
    }
  }

  lemma KeyEscaped(k: Text, key: Text)
    requires SPACE !in key && PERCENT !in key
    ensures EscapeSpaces(k) == key <==> k == key
  {
    hide EscapeSpaces;
    SpaceShows(k);
    NoSpaces(key);
    if SPACE !in k {
      NoSpaces(k);
    }
  }

  /** The query parser sees the same values under every key without spaces and percent signs. */
  lemma {:induction false} QueryEscaped(parts: seq<Text>, key: Text)
    requires SPACE !in key && PERCENT !in key
    ensures QueryOf(EscapeAll(parts)).Ok? <==> QueryOf(parts).Ok?
    ensures QueryOf(parts).Ok? ==> Lookup(QueryOf(EscapeAll(parts)).value, key) == Lookup(QueryOf(parts).value, key)
  {
    hide EscapeSpaces, Decode, Lossy, SplitOnce;
    if parts != [] {
      var front, last := parts[..|parts| - 1], parts[|parts| - 1];
      QueryEscaped(front, key);
      assert EscapeAll(parts)[..|front|] == EscapeAll(front);
      EscapeFront(last);
      SplitOnceEscaped(last, EQUALS);
      if last != [] && SplitOnce(last, EQUALS).Some? {
        var (k, v) := SplitOnce(last, EQUALS).value;
        KeyEscaped(k, key);
        DecodeEscaped(v);
      }
    }
  }

  // ---- One unescaped value in a query ----

  function Setting(key: Text, value: Text): Text {
    key + [EQUALS] + value
  }

  /** Does this piece of a query set `key`? */
  predicate Sets(piece: Text, key: Text) {
    var kv := SplitOnce(piece, EQUALS);
    kv.Some? && kv.value.0 == key
  }

  function ValueOf(piece: Text): Text
    requires SplitOnce(piece, EQUALS).Some?
  {
    SplitOnce(piece, EQUALS).value.1
  }

  lemma SettingSets(key: Text, value: Text)
    requires EQUALS !in key
    ensures Sets(Setting(key, value), key) && ValueOf(Setting(key, value)) == value
  {
    SplitOnceAt(key, EQUALS, value);
  }

  /** The last piece that sets a key decides. */
  lemma {:induction false} LastSets(parts: seq<Text>, key: Text, m: nat) returns (j: nat)
    requires QueryOf(parts).Ok? && m < |parts| && Sets(parts[m], key)
    ensures m <= j < |parts| && Sets(parts[j], key)
    ensures Lookup(QueryOf(parts).value, key) == Some(DecodeText(ValueOf(parts[j])))
  {
    hide SplitOnce, DecodeText;
    var front, last := parts[..|parts| - 1], parts[|parts| - 1];
    if Sets(last, key) {
      j := |front|;
    } else {
      j := LastSets(front, key, m);
    }
  }

  /** No piece weighs more than the whole, and each weighs less if there are several. */
  lemma {:induction false} PieceWeight(s: Text, i: nat)
    requires i < |Split(s, AMP)|
    ensures Weight(Split(s, AMP)[i]) <= Weight(s) && (AMP in s ==> Weight(Split(s, AMP)[i]) < Weight(s))
    decreases |s|
  {
    hide Weight;
    match SplitOnce(s, AMP)
    case None =>
    case Some((a, b)) =>
      WeightConcat(a + [AMP], b);
      WeightConcat(a, [AMP]);
      AmpWeight();
      if i > 0 {
        PieceWeight(b, i - 1);
      }
  }

  lemma AmpWeight()
    ensures Weight([AMP]) == 1
  {
  }

  lemma ValueWeight(piece: Text)
    requires SplitOnce(piece, EQUALS).Some?
    ensures Weight(ValueOf(piece)) <= Weight(piece)
  {
    hide Weight;
    var (k, v) := SplitOnce(piece, EQUALS).value;
    WeightConcat(k + [EQUALS], v);
  }

  /** A value with ampersands in it falls apart: only its first piece is set under its own key. */
  lemma SplitSetting(key: Text, value: Text)
    requires AMP !in key
    ensures var parts := Split(value, AMP); Split(Setting(key, value), AMP) == [Setting(key, parts[0])] + parts[1..]
  {
    match SplitOnce(value, AMP)
    case None =>
      assert AMP !in Setting(key, value);
    case Some((a, b)) =>
      assert Setting(key, value) == Setting(key, a) + [AMP] + b;
      SplitOnceAt(Setting(key, a), AMP, b);
  }

  lemma ParamValue(pre: seq<Text>, key: Text, value: Text, post: seq<Text>) returns (v: Text)
    requires EQUALS !in key && AMP !in key && forall i :: 0 <= i < |post| ==> !Sets(post[i], key)
    requires QueryOf(pre + Split(Setting(key, value), AMP) + post).Ok?
    ensures var q := QueryOf(pre + Split(Setting(key, value), AMP) + post).value; Lookup(q, key) == Some(DecodeText(v))
    ensures if AMP in value then Weight(v) < Weight(value) else v == value
  {
    hide SplitOnce, DecodeText, QueryOf, Setting, Weight, Split, Lookup;
    var own := Split(Setting(key, value), AMP);
    var parts, pieces := pre + own + post, Split(value, AMP);
    SplitSetting(key, value);
    SettingSets(key, pieces[0]);
    assert parts[|pre|] == Setting(key, pieces[0]);
    var j := LastSets(parts, key, |pre|);
    v := ValueOf(parts[j]);
    var i := j - |pre|;
    assert i < |pieces| && (i > 0 ==> parts[j] == pieces[i]);
    PieceWeight(value, i);
    if i > 0 {
      ValueWeight(pieces[i]);
    }
    if AMP !in value {
      SplitWhole(value);
    } else {
      SplitSeveral(value);
    }
  }

  lemma SplitWhole(s: Text)
    requires AMP !in s
    ensures Split(s, AMP) == [s]
  {
  }

  lemma SplitSeveral(s: Text)
    requires AMP in s
    ensures |Split(s, AMP)| > 1
  {
  }

  /** Such a value is read back exactly when it holds no ampersand, no plus sign and no escape. */
  lemma ParamIff(pre: seq<Text>, key: Text, value: Text, post: seq<Text>)
    requires EQUALS !in key && AMP !in key && forall i :: 0 <= i < |post| ==> !Sets(post[i], key)
    requires QueryOf(pre + Split(Setting(key, value), AMP) + post).Ok? && IsUtf8(value)
    ensures var q := QueryOf(pre + Split(Setting(key, value), AMP) + post).value;
      Lookup(q, key).Some? && (Lookup(q, key) == Some(value) <==> AMP !in value && Literal(value))
  {
    hide DecodeText, QueryOf, Setting, Weight, Split, Lookup, IsUtf8, Literal;
    var v := ParamValue(pre, key, value, post);
    DecodeTextWeight(v);
    LiteralIff(value);
  }

  // ---- A query of several unescaped values ----

  type Settings = seq<(Text, Text)>

  function SettingPieces(xs: Settings): seq<Text> {
    if xs == [] then [] else Split(Setting(xs[0].0, xs[0].1), AMP) + SettingPieces(xs[1..])
  }

  predicate IsKey(key: Text) {
    EQUALS !in key && AMP !in key && SPACE !in key && PERCENT !in key
  }

  /** Different keys without special characters, and values that are text. */
  ghost predicate WellKeyed(xs: Settings) {
    && (forall i :: 0 <= i < |xs| ==> IsKey(xs[i].0) && IsUtf8(xs[i].1))
    && (forall i, j :: 0 <= i < j < |xs| ==> xs[i].0 != xs[j].0)
  }

  /** Text that a query can carry as it stands. */
  ghost predicate Portable(value: Text) {
    '&' as int !in value && Literal(value)
  }

  ghost predicate AllPortable(xs: Settings) {
    forall i :: 0 <= i < |xs| ==> Portable(xs[i].1)
  }

  ghost predicate AllRead(q: Query, xs: Settings) {
    forall i :: 0 <= i < |xs| ==> Lookup(q, xs[i].0) == Some(xs[i].1)
  }

  lemma {:induction false} PortablePieces(xs: Settings)
    requires WellKeyed(xs) && AllPortable(xs)
    ensures |SettingPieces(xs)| == |xs|
    ensures forall i :: 0 <= i < |xs| ==> SettingPieces(xs)[i] == Setting(xs[i].0, xs[i].1)
  {
    hide Setting, IsUtf8, Literal, Split;
    if xs != [] {
      var piece := Setting(xs[0].0, xs[0].1);
      PortablePieces(xs[1..]);
      SettingWhole(xs[0].0, xs[0].1);
      SplitWhole(piece);
    }
  }

  lemma SettingWhole(key: Text, value: Text)
    requires AMP !in key && AMP !in value
    ensures AMP !in Setting(key, value)
  {
  }

  lemma {:induction false} AllSetMeansOk(parts: seq<Text>)
    requires forall i :: 0 <= i < |parts| ==> SplitOnce(parts[i], EQUALS).Some?
    ensures QueryOf(parts).Ok?
  {
    hide SplitOnce;
    if parts != [] {
      AllSetMeansOk(parts[..|parts| - 1]);
    }
  }

  lemma PortableOk(xs: Settings)
    requires WellKeyed(xs) && AllPortable(xs)
    ensures QueryOf(SettingPieces(xs)).Ok?
  {
    hide SplitOnce, Setting, SettingPieces, QueryOf, Portable, IsUtf8;
    PortablePieces(xs);
    forall i | 0 <= i < |xs| ensures SplitOnce(SettingPieces(xs)[i], EQUALS).Some? {
      SettingSets(xs[i].0, xs[i].1);
    }
    AllSetMeansOk(SettingPieces(xs));
  }

  lemma OthersSet(xs: Settings, key: Text)
    requires WellKeyed(xs) && AllPortable(xs) && forall i :: 0 <= i < |xs| ==> xs[i].0 != key
    ensures forall i :: 0 <= i < |SettingPieces(xs)| ==> !Sets(SettingPieces(xs)[i], key)
  {
    hide Setting, SettingPieces, Portable, IsUtf8, SplitOnce;
    PortablePieces(xs);
    forall i | 0 <= i < |xs| ensures !Sets(SettingPieces(xs)[i], key) {
      SettingSets(xs[i].0, xs[i].1);
    }
  }

  /** Each value that follows only portable ones is read back exactly when it is portable. */
  lemma {:induction false} ReadIffPortable(pre: seq<Text>, xs: Settings)
    requires WellKeyed(xs) && QueryOf(pre + SettingPieces(xs)).Ok?
    ensures AllRead(QueryOf(pre + SettingPieces(xs)).value, xs) <==> AllPortable(xs)
    decreases |xs|
  {
    hide Setting, IsUtf8, Portable, Split, QueryOf, Lookup, Sets;
    if xs != [] {
      var own, rest := Split(Setting(xs[0].0, xs[0].1), AMP), xs[1..];
      var post := SettingPieces(rest);
      assert pre + SettingPieces(xs) == (pre + own) + post;
      var q := QueryOf(pre + SettingPieces(xs)).value;
      ReadIffPortable(pre + own, rest);
      ReadRest(q, xs);
      if AllPortable(rest) {
        OthersSet(rest, xs[0].0);
        ReadFirst(pre, xs[0].0, xs[0].1, post);
      }
    }
  }

  lemma ReadRest(q: Query, xs: Settings)
    requires xs != []
    ensures AllRead(q, xs) <==> Lookup(q, xs[0].0) == Some(xs[0].1) && AllRead(q, xs[1..])
    ensures AllPortable(xs) <==> Portable(xs[0].1) && AllPortable(xs[1..])
  {
    hide Lookup, Portable;
    var rest := xs[1..];
    assert forall i :: 0 < i < |xs| ==> xs[i] == rest[i - 1];
    assert forall i :: 0 <= i < |rest| ==> rest[i] == xs[i + 1];
  }

  lemma ReadFirst(pre: seq<Text>, key: Text, value: Text, post: seq<Text>)
    requires IsKey(key) && IsUtf8(value) && forall i :: 0 <= i < |post| ==> !Sets(post[i], key)
    requires QueryOf((pre + Split(Setting(key, value), AMP)) + post).Ok?
    ensures var q := QueryOf((pre + Split(Setting(key, value), AMP)) + post).value;
      Lookup(q, key).Some? && (Lookup(q, key) == Some(value) <==> Portable(value))
  {
    hide Setting, IsUtf8, Split, QueryOf, Lookup, Sets, Literal;
    ParamIff(pre, key, value, post);
  }

  lemma {:induction false} PiecesAt(xs: Settings, i: nat)
    requires i <= |xs|
    ensures SettingPieces(xs) == SettingPieces(xs[..i]) + SettingPieces(xs[i..])
  {
    hide Setting, Split;
    if i == 0 {
      assert xs[0..] == xs && xs[..0] == [];
    } else {
      PiecesAt(xs[1..], i - 1);
      assert xs[..i][1..] == xs[1..][..i - 1] && xs[i..] == xs[1..][i - 1..];
    }
  }

  /** The `i`-th value, when all after it are portable. */
  lemma ReadAt(xs: Settings, i: nat)
    requires WellKeyed(xs) && i < |xs| && AllPortable(xs[i + 1..]) && QueryOf(SettingPieces(xs)).Ok?
    ensures var q := QueryOf(SettingPieces(xs)).value;
      Lookup(q, xs[i].0).Some? && (Lookup(q, xs[i].0) == Some(xs[i].1) <==> Portable(xs[i].1))
  {
    hide Setting, IsUtf8, Portable, Split, QueryOf, Lookup, Sets, SettingPieces, IsKey, WellKeyed, AllPortable;
    var key, value, rest := xs[i].0, xs[i].1, xs[i + 1..];
    PiecesAt(xs, i);
    PiecesOne(xs, i);
    KeyedRest(xs, i);
    OthersSet(rest, key);
    assert SettingPieces(xs) == (SettingPieces(xs[..i]) + Split(Setting(key, value), AMP)) + SettingPieces(rest);
    ReadFirst(SettingPieces(xs[..i]), key, value, SettingPieces(rest));
  }

  lemma KeyedRest(xs: Settings, i: nat)
    requires WellKeyed(xs) && i < |xs|
    ensures var rest := xs[i + 1..];
      WellKeyed(rest) && IsKey(xs[i].0) && IsUtf8(xs[i].1) && forall j :: 0 <= j < |rest| ==> rest[j].0 != xs[i].0
  {
    hide IsKey, IsUtf8;
    var rest := xs[i + 1..];
    assert forall j :: 0 <= j < |rest| ==> rest[j] == xs[i + 1 + j];
  }

  /** The same value, read from the query with its spaces escaped. */
  lemma ReadEscapedAt(xs: Settings, i: nat)
    requires WellKeyed(xs) && i < |xs| && AllPortable(xs[i + 1..]) && QueryOf(EscapeAll(SettingPieces(xs))).Ok?
    ensures var q := QueryOf(EscapeAll(SettingPieces(xs))).value;
      Lookup(q, xs[i].0).Some? && (Lookup(q, xs[i].0) == Some(xs[i].1) <==> Portable(xs[i].1))
  {
    hide IsUtf8, Portable, QueryOf, Lookup, SettingPieces, EscapeAll, AllPortable;
    QueryEscaped(SettingPieces(xs), xs[i].0);
    ReadAt(xs, i);
  }

  lemma PiecesOne(xs: Settings, i: nat)
    requires i < |xs|
    ensures SettingPieces(xs[i..]) == Split(Setting(xs[i].0, xs[i].1), AMP) + SettingPieces(xs[i + 1..])
  {
    hide Setting, Split;
    assert xs[i..][1..] == xs[i + 1..];
  }

  function SettingTexts(xs: Settings): (r: seq<Text>)
    ensures |r| == |xs| && forall i :: 0 <= i < |r| ==> r[i] == Setting(xs[i].0, xs[i].1)
  {
    seq(|xs|, i requires 0 <= i < |xs| => Setting(xs[i].0, xs[i].1))
  }

  lemma {:induction false} SplitConcat(a: Text, sep: byte, b: Text)
    ensures Split(a + [sep] + b, sep) == Split(a, sep) + Split(b, sep)
    decreases |a|
  {
    match SplitOnce(a, sep)
    case None =>
      SplitOnceAt(a, sep, b);
    case Some((x, y)) =>
      assert a + [sep] + b == x + [sep] + (y + [sep] + b);
      SplitOnceAt(x, sep, y + [sep] + b);
      SplitConcat(y, sep, b);
  }

  lemma {:induction false} SplitSettings(xs: Settings)
    requires xs != []
    ensures Split(Join(SettingTexts(xs), AMP), AMP) == SettingPieces(xs)
  {
    hide Setting, Split;
    var texts := SettingTexts(xs);
    if |xs| > 1 {
      assert texts[1..] == SettingTexts(xs[1..]);
      SplitConcat(texts[0], AMP, Join(texts[1..], AMP));
      SplitSettings(xs[1..]);
    } else {
      assert SettingPieces(xs[1..]) == [];
    }
  }

  /** A query of unescaped values, as it arrives with its spaces escaped, is read back in full exactly when every value
      is portable. */
  lemma SettingsIff(xs: Settings)
    requires xs != [] && WellKeyed(xs)
    ensures var r := QueryOf(Split(EscapeSpaces(Join(SettingTexts(xs), AMP)), AMP));
      r.Ok? && AllRead(r.value, xs) <==> AllPortable(xs)
  {
    hide EscapeSpaces, QueryOf, Split, Join, SettingTexts, SettingPieces, Lookup, Portable, IsUtf8;
    var text := Join(SettingTexts(xs), AMP);
    var parts := SettingPieces(xs);
    SplitEscaped(text, AMP);
    SplitSettings(xs);
    forall i | 0 <= i < |xs|
      ensures QueryOf(EscapeAll(parts)).Ok? <==> QueryOf(parts).Ok?
      ensures QueryOf(parts).Ok? ==>
        Lookup(QueryOf(EscapeAll(parts)).value, xs[i].0) == Lookup(QueryOf(parts).value, xs[i].0)
    {
      QueryEscaped(parts, xs[i].0);
    }
    if AllPortable(xs) {
      PortableOk(xs);
    }
    QueryEscaped(parts, xs[0].0);
    if QueryOf(parts).Ok? {
      assert [] + parts == parts;
      ReadIffPortable([], xs);
    }
  }

  // ---- Serial ports ----

  function SerialSettings(s: ChannelSpec): Settings
    requires s.Serial?
  {
    [(Ascii("baud"), Decimal(s.baud)), (Ascii("data"), Decimal(s.dataBits)), (Ascii("parity"), s.parity),
     (Ascii("stop"), Decimal(s.stopBits)), (Ascii("flow"), s.flow)]
  }

  lemma SerialKeys()
    ensures IsKey(Ascii("baud")) && IsKey(Ascii("data")) && IsKey(Ascii("parity")) && IsKey(Ascii("stop"))
    ensures IsKey(Ascii("flow")) && IsKey(Ascii("args"))
  {
    hide IsKey, Ascii, IsWord;
    SerialAreWords();
    WordIsKey("baud");
    WordIsKey("data");
    WordIsKey("parity");
    WordIsKey("stop");
    WordIsKey("flow");
    WordIsKey("args");
  }

  lemma SerialAreWords()
    ensures IsWord("baud") && IsWord("data") && IsWord("parity") && IsWord("stop") && IsWord("flow") && IsWord("args")
  {
  }

  lemma WordIsKey(s: string)
    requires IsWord(s)
    ensures IsKey(Ascii(s))
  {
    var t := Ascii(s);
    forall i | 0 <= i < |t| ensures t[i] >= 0x5f || t[i] == 0x2d {
      assert 'a' <= s[i] <= 'z' || s[i] == '_' || s[i] == '-';
    }
  }

  lemma SerialInitials()
    ensures Ascii("baud")[0] == 0x62 && Ascii("data")[0] == 0x64 && Ascii("parity")[0] == 0x70
    ensures Ascii("stop")[0] == 0x73 && Ascii("flow")[0] == 0x66
  {
  }

  lemma DecimalPortable(n: nat)
    ensures IsUtf8(Decimal(n)) && Portable(Decimal(n))
  {
    AsciiIsUtf8(Decimal(n));
  }

  lemma SerialWellKeyed(s: ChannelSpec)
    requires s.Serial? && IsUtf8(s.parity) && IsUtf8(s.flow)
    ensures WellKeyed(SerialSettings(s))
    ensures AllPortable(SerialSettings(s)) <==> Portable(s.parity) && Portable(s.flow)
  {
    hide Ascii, Decimal, IsUtf8, Portable, IsKey;
    SerialKeys();
    SerialInitials();
    DecimalPortable(s.baud);
    DecimalPortable(s.dataBits);
    DecimalPortable(s.stopBits);
    var xs := SerialSettings(s);
    if Portable(s.parity) && Portable(s.flow) {
      forall i | 0 <= i < |xs| ensures Portable(xs[i].1) {
      }
    } else {
      assert !Portable(xs[2].1) || !Portable(xs[4].1);
    }
  }

  lemma SerialWords()
    ensures Ascii("?baud=") == [QUESTION] + Ascii("baud") + [EQUALS]
    ensures Ascii("&data=") == [AMP] + Ascii("data") + [EQUALS]
    ensures Ascii("&parity=") == [AMP] + Ascii("parity") + [EQUALS]
    ensures Ascii("&stop=") == [AMP] + Ascii("stop") + [EQUALS]
    ensures Ascii("&flow=") == [AMP] + Ascii("flow") + [EQUALS]
  {
  }

  lemma JoinFive(a: Text, b: Text, c: Text, d: Text, e: Text)
    ensures Join([a, b, c, d, e], AMP) == a + [AMP] + (b + [AMP] + (c + [AMP] + (d + [AMP] + e)))
  {
    hide Join;
    JoinOne(e);
    JoinMore(d, [e]);
    JoinMore(c, [d, e]);
    JoinMore(b, [c, d, e]);
    JoinMore(a, [b, c, d, e]);
    assert [a] + [b, c, d, e] == [a, b, c, d, e] && [b] + [c, d, e] == [b, c, d, e];
    assert [c] + [d, e] == [c, d, e] && [d] + [e] == [d, e];
  }

  lemma JoinOne(x: Text)
    ensures Join([x], AMP) == x
  {
  }

  lemma JoinMore(x: Text, rest: seq<Text>)
    requires rest != []
    ensures Join([x] + rest, AMP) == x + [AMP] + Join(rest, AMP)
  {
    assert ([x] + rest)[1..] == rest;
  }

  lemma SerialRaw(s: ChannelSpec)
    requires s.Serial?
    ensures RenderRaw(s) ==
      Ascii("serial") + SCHEME_END + (s.port + [QUESTION] + Join(SettingTexts(SerialSettings(s)), AMP))
  {
    hide Ascii, Decimal, Join, Setting;
    var xs := SettingTexts(SerialSettings(s));
    SerialWords();
    JoinFive(xs[0], xs[1], xs[2], xs[3], xs[4]);
    assert xs == [xs[0], xs[1], xs[2], xs[3], xs[4]];
    SerialConcat(s.port, Decimal(s.baud), Decimal(s.dataBits), s.parity, Decimal(s.stopBits), s.flow);
  }

  lemma SerialConcat(port: Text, baud: Text, data: Text, parity: Text, stop: Text, flow: Text)
    ensures Ascii("serial") + SCHEME_END + port + ([QUESTION] + Ascii("baud") + [EQUALS]) + baud
            + ([AMP] + Ascii("data") + [EQUALS]) + data + ([AMP] + Ascii("parity") + [EQUALS]) + parity
            + ([AMP] + Ascii("stop") + [EQUALS]) + stop + ([AMP] + Ascii("flow") + [EQUALS]) + flow
         == Ascii("serial") + SCHEME_END + (port + [QUESTION]
            + (Setting(Ascii("baud"), baud) + [AMP] + (Setting(Ascii("data"), data) + [AMP]
            + (Setting(Ascii("parity"), parity) + [AMP] + (Setting(Ascii("stop"), stop) + [AMP]
            + Setting(Ascii("flow"), flow))))))
  {
    hide Ascii;
  }

  lemma SerialDispatch(body: Text, q: Query)
    ensures ParseKind(Ascii("serial"), body, q) == ParseSerial(body, q)
  {
    hide ParsePcap, ParseSerial, ParseArgv, DecodeText;
    assert |Ascii("serial")| == 6 && |Ascii("file")| == 4 && |Ascii("tcp")| == 3 && |Ascii("udp")| == 3;
    assert |Ascii("pcap")| == 4;
  }

  /** A port alone: everything else takes its default. */
  lemma DefaultSerial(port: Text)
    requires QUESTION !in port
    ensures Parse(Ascii("serial") + SCHEME_END + port) ==
      Ok(Serial(port, 115_200, 8, Ascii("none"), 1, Ascii("none")))
  {
    hide Ascii, SplitScheme, ParseKind, IsWord;
    SerialWord();
    SchemeWord("serial");
    SchemeAt(Ascii("serial"), port);
    ParseWithout(Ascii("serial") + SCHEME_END + port, Ascii("serial"), port);
    SerialDispatch(port, map[]);
  }

  /** What the query must say for a serial spec to be read back. */
  lemma ParseSerialIff(s: ChannelSpec, body: Text, q: Query)
    requires s.Serial?
    ensures AllRead(q, SerialSettings(s)) ==> (ParseSerial(body, q) == Ok(s) <==> body == s.port)
    ensures ParseSerial(body, q) == Ok(s) ==> body == s.port
    ensures ParseSerial(body, q) == Ok(s) && Ascii("parity") in q ==> q[Ascii("parity")] == s.parity
    ensures ParseSerial(body, q) == Ok(s) && Ascii("flow") in q ==> q[Ascii("flow")] == s.flow
  {
    hide Ascii, Decimal, ParseUnsigned;
    var xs := SerialSettings(s);
    NumBack(s.baud, U32_MAX);
    NumBack(s.dataBits, 255);
    NumBack(s.stopBits, 255);
    if AllRead(q, xs) {
      assert Lookup(q, xs[0].0) == Some(xs[0].1) && Lookup(q, xs[1].0) == Some(xs[1].1);
      assert Lookup(q, xs[2].0) == Some(xs[2].1) && Lookup(q, xs[3].0) == Some(xs[3].1);
      assert Lookup(q, xs[4].0) == Some(xs[4].1);
    }
  }

  lemma SerialQueryIff(s: ChannelSpec, body: Text, q: Query)
    requires s.Serial? && IsUtf8(s.parity) && IsUtf8(s.flow)
    requires QueryOf(Split(EscapeSpaces(Join(SettingTexts(SerialSettings(s)), AMP)), AMP)) == Ok(q)
    ensures ParseSerial(body, q) == Ok(s) <==> body == s.port && Portable(s.parity) && Portable(s.flow)
  {
    hide Ascii, Decimal, Portable, IsUtf8, Split, Join, QueryOf, EscapeSpaces, ParseSerial, SettingPieces, SettingTexts;
    var xs := SerialSettings(s);
    SerialWellKeyed(s);
    SettingsIff(xs);
    ParseSerialIff(s, body, q);
    SplitEscaped(Join(SettingTexts(xs), AMP), AMP);
    SplitSettings(xs);
    if ParseSerial(body, q) == Ok(s) {
      ReadEscapedAt(xs, 4);
      assert Portable(s.flow);
      DecimalPortable(s.stopBits);
      assert AllPortable(xs[3..]);
      ReadEscapedAt(xs, 2);
    }
  }

  /** What `parse` does after the scheme. */
  function ParseRest(scheme: Text, rest: Text): Result<ChannelSpec, SpecError> {
    match SplitOnce(rest, QUESTION)
    case None => ParseKind(scheme, rest, map[])
    case Some((body, q)) => ParseQueried(scheme, body, QueryOf(Split(q, AMP)))
  }

  function ParseQueried(scheme: Text, body: Text, query: Result<Query, SpecError>): Result<ChannelSpec, SpecError> {
    match query case Err(e) => Err(e) case Ok(q) => ParseKind(scheme, body, q)
  }

  lemma ParseRendered(scheme: string, rest: Text)
    requires IsWord(scheme)
    ensures Parse(EscapeSpaces(Ascii(scheme) + SCHEME_END + rest)) == ParseRest(Ascii(scheme), EscapeSpaces(rest))
  {
    hide SplitScheme, EscapeSpaces, ParseKind, QueryOf, Split, SplitOnce, Ascii;
    var head := Ascii(scheme) + SCHEME_END;
    SchemeWord(scheme);
    EscapeConcat(head, rest);
    NoSpaces(head);
    SchemeAt(Ascii(scheme), EscapeSpaces(rest));
  }

  /** The rest is cut at its first question mark, before or after its spaces are escaped. */
  lemma ParseCut(scheme: Text, body: Text, query: Text)
    requires QUESTION !in body
    ensures ParseRest(scheme, EscapeSpaces(body + [QUESTION] + query)) ==
      ParseQueried(scheme, EscapeSpaces(body), QueryOf(Split(EscapeSpaces(query), AMP)))
  {
    hide EscapeSpaces, ParseKind, QueryOf, Split, SplitOnce;
    SplitOnceAt(body, QUESTION, query);
    SplitOnceEscaped(body + [QUESTION] + query, QUESTION);
  }

  lemma SerialWord()
    ensures IsWord("serial") && IsWord("process")
  {
  }

  /** A serial spec comes back exactly when its port holds no space and no question mark, and its parity and flow
      words hold no ampersand, no plus sign and no escape. */
  lemma SerialRoundTripIff(s: ChannelSpec)
    requires s.Serial? && IsUtf8(s.parity) && IsUtf8(s.flow)
    ensures Parse(Render(s)) == Ok(s) <==>
      ' ' as int !in s.port && '?' as int !in s.port && Portable(s.parity) && Portable(s.flow)
  {
    hide Ascii, Portable, IsUtf8, Split, Join, QueryOf, EscapeSpaces, ParseSerial, SettingTexts, RenderRaw, ParseRest;
    hide Parse, ParseKind, IsWord, SplitOnce;
    var query := Join(SettingTexts(SerialSettings(s)), AMP);
    var rest := s.port + [QUESTION] + query;
    SerialRaw(s);
    SerialWord();
    ParseRendered("serial", rest);
    var (body, tail) := SplitOnce(rest, QUESTION).value;
    ParseCut(Ascii("serial"), body, tail);
    var parsed := QueryOf(Split(EscapeSpaces(tail), AMP));
    if parsed.Ok? {
      SerialDispatch(EscapeSpaces(body), parsed.value);
      ParseSerialIff(s, EscapeSpaces(body), parsed.value);
    }
    EscapedWithout(body, QUESTION);
    if QUESTION !in s.port {
      SplitOnceAt(s.port, QUESTION, query);
      PlainWhole(s.port);
      EscapeLonger(s.port);
      SettingsOf(s, parsed);
    }
  }

  lemma SettingsOf(s: ChannelSpec, parsed: Result<Query, SpecError>)
    requires s.Serial? && IsUtf8(s.parity) && IsUtf8(s.flow)
    requires parsed == QueryOf(Split(EscapeSpaces(Join(SettingTexts(SerialSettings(s)), AMP)), AMP))
    ensures Portable(s.parity) && Portable(s.flow) ==> parsed.Ok?
    ensures parsed.Ok? ==> (ParseSerial(EscapeSpaces(s.port), parsed.value) == Ok(s) <==>
      EscapeSpaces(s.port) == s.port && Portable(s.parity) && Portable(s.flow))
  {
    hide Ascii, Portable, IsUtf8, Split, Join, QueryOf, EscapeSpaces, ParseSerial, SettingTexts;
    SerialWellKeyed(s);
    SettingsIff(SerialSettings(s));
    if parsed.Ok? {
      SerialQueryIff(s, EscapeSpaces(s.port), parsed.value);
    }
  }

  // ---- Processes ----

  lemma {:induction false} TrimEscaped(s: Text)
    ensures TrimSlashes(EscapeSpaces(s)) == EscapeSpaces(TrimSlashes(s))
  {
    EscapeFront(s);
    if s != [] && s[0] == SLASH {
      TrimEscaped(s[1..]);
    }
  }

  lemma {:induction false} TrimWeight(s: Text)
    ensures Weight(TrimSlashes(s)) <= Weight(s)
    ensures s != [] && s[0] == SLASH ==> Weight(TrimSlashes(s)) < Weight(s)
  {
    if s != [] && s[0] == SLASH {
      TrimWeight(s[1..]);
    }
  }

  /** The program as it is read back from a body that starts with a slash. */
  lemma ProgramRead(body: Text)
    ensures DecodeText(TrimSlashes(EscapeSpaces([SLASH] + body))) == DecodeText(TrimSlashes(body))
    ensures EscapeSpaces([SLASH] + body) != []
  {
    hide Decode, Lossy, EscapeSpaces;
    EscapeFront([SLASH] + body);
    TrimEscaped([SLASH] + body);
    assert ([SLASH] + body)[1..] == body;
    DecodeEscaped(TrimSlashes(body));
  }

  lemma ProgramIff(prog: Text)
    requires IsUtf8(prog)
    ensures DecodeText(TrimSlashes(prog)) == prog <==> (prog == [] || prog[0] != SLASH) && Literal(prog)
  {
    hide DecodeText, IsUtf8, Literal, Weight;
    if prog == [] || prog[0] != SLASH {
      LiteralIff(prog);
    } else {
      TrimWeight(prog);
      DecodeTextWeight(TrimSlashes(prog));
    }
  }

  /** A program cut at a question mark is not the program. */
  lemma ProgramCut(before: Text, after: Text)
    ensures DecodeText(TrimSlashes(before)) != before + [QUESTION] + after
  {
    hide DecodeText, Weight;
    TrimWeight(before);
    DecodeTextWeight(TrimSlashes(before));
    WeightConcat(before + [QUESTION], after);
    WeightConcat(before, [QUESTION]);
    QuestionWeight();
  }

  lemma QuestionWeight()
    ensures Weight([QUESTION]) == 1 && Weight([SEMICOLON]) == 1
  {
  }

  function WeightAll(parts: seq<Text>): nat {
    if parts == [] then 0 else Weight(parts[0]) + WeightAll(parts[1..])
  }

  lemma {:induction false} WeightJoin(parts: seq<Text>)
    requires parts != []
    ensures Weight(Join(parts, SEMICOLON)) == WeightAll(parts) + |parts| - 1
  {
    hide Weight;
    if |parts| == 1 {
      assert WeightAll(parts[1..]) == 0;
    } else {
      WeightConcat(parts[0] + [SEMICOLON], Join(parts[1..], SEMICOLON));
      WeightConcat(parts[0], [SEMICOLON]);
      QuestionWeight();
      WeightJoin(parts[1..]);
    }
  }

  lemma {:induction false} JoinSplit(s: Text, sep: byte)
    ensures Join(Split(s, sep), sep) == s
    ensures forall i :: 0 <= i < |Split(s, sep)| ==> sep !in Split(s, sep)[i]
    decreases |s|
  {
    match SplitOnce(s, sep)
    case None =>
    case Some((a, b)) =>
      JoinSplit(b, sep);
      assert Split(s, sep)[1..] == Split(b, sep);
  }

  lemma {:induction false} NonEmptyWeight(parts: seq<Text>)
    ensures WeightAll(NonEmpty(parts)) == WeightAll(parts) && |NonEmpty(parts)| <= |parts|
    ensures |NonEmpty(parts)| == |parts| <==> NonEmpty(parts) == parts
    ensures forall i :: 0 <= i < |NonEmpty(parts)| ==> NonEmpty(parts)[i] != []
  {
    if parts != [] {
      NonEmptyWeight(parts[1..]);
      if parts[0] != [] {
        assert NonEmpty(parts)[1..] == NonEmpty(parts[1..]);
      } else {
        assert NonEmpty(parts) == NonEmpty(parts[1..]);
      }
    }
  }

  lemma {:induction false} NonEmptyKeeps(parts: seq<Text>)
    requires forall i :: 0 <= i < |parts| ==> parts[i] != []
    ensures NonEmpty(parts) == parts
  {
    if parts != [] {
      NonEmptyKeeps(parts[1..]);
    }
  }

  /** Arguments that survive being joined and split. */
  predicate Separable(args: seq<Text>) {
    forall i :: 0 <= i < |args| ==> args[i] != [] && SEMICOLON !in args[i]
  }

  lemma SeparableBack(args: seq<Text>)
    requires args != [] && Separable(args)
    ensures NonEmpty(Split(Join(args, SEMICOLON), SEMICOLON)) == args
  {
    hide NonEmpty, Split, Join;
    SplitJoin(args, SEMICOLON);
    NonEmptyKeeps(args);
  }

  /** If the pieces of a text that weighs no more than the joined arguments are the arguments, it is the joined
      arguments. */
  lemma ArgsForced(args: seq<Text>, text: Text)
    requires args != [] && NonEmpty(Split(text, SEMICOLON)) == args
    requires Weight(text) <= Weight(Join(args, SEMICOLON))
    ensures text == Join(args, SEMICOLON) && Separable(args)
  {
    hide NonEmpty, Split, Join, Weight, WeightAll;
    var parts := Split(text, SEMICOLON);
    JoinSplit(text, SEMICOLON);
    WeightJoin(parts);
    WeightJoin(args);
    NonEmptyWeight(parts);
  }

  lemma ArgsIff(args: seq<Text>, v: Text)
    requires args != [] && IsUtf8(Join(args, SEMICOLON))
    requires var j := Join(args, SEMICOLON); if AMP in j then Weight(v) < Weight(j) else v == j
    ensures NonEmpty(Split(DecodeText(v), SEMICOLON)) == args <==>
      Separable(args) && Portable(Join(args, SEMICOLON))
  {
    hide NonEmpty, Split, Join, Weight, IsUtf8, DecodeText, Separable, Literal;
    var j := Join(args, SEMICOLON);
    DecodeTextWeight(v);
    LiteralIff(j);
    if NonEmpty(Split(DecodeText(v), SEMICOLON)) == args {
      ArgsForced(args, DecodeText(v));
    }
    if Separable(args) {
      SeparableBack(args);
    }
  }

  // ---- Joined arguments are portable when each of them is ----

  lemma {:induction false} JoinContains(parts: seq<Text>, b: byte, i: nat)
    requires i < |parts| && b in parts[i]
    ensures b in Join(parts, SEMICOLON)
  {
    if |parts| > 1 && i > 0 {
      JoinContains(parts[1..], b, i - 1);
    }
  }

  lemma EscapeAcross(a: Text, b: Text)
    ensures HasEscape(a + [SEMICOLON] + b) <==> HasEscape(a) || HasEscape(b)
  {
    hide HexVal;
    var s := a + [SEMICOLON] + b;
    NoHexSemicolon();
    if i: nat :| IsEscape(s, i) {
      assert if i + 2 < |a| then IsEscape(a, i) else IsEscape(b, i - |a| - 1);
    }
    if i: nat :| IsEscape(a, i) {
      assert IsEscape(s, i);
    }
    if i: nat :| IsEscape(b, i) {
      assert IsEscape(s, i + |a| + 1);
    }
  }

  lemma NoHexSemicolon()
    ensures HexVal(SEMICOLON).None? && SEMICOLON != PERCENT
  {
  }

  lemma {:induction false} JoinEscapes(parts: seq<Text>)
    requires parts != []
    ensures HasEscape(Join(parts, SEMICOLON)) <==> exists i :: 0 <= i < |parts| && HasEscape(parts[i])
  {
    hide HasEscape;
    if |parts| > 1 {
      var rest := parts[1..];
      JoinEscapes(rest);
      EscapeAcross(parts[0], Join(rest, SEMICOLON));
      if i :| 0 <= i < |rest| && HasEscape(rest[i]) {
        assert HasEscape(parts[i + 1]);
      }
      if i :| 0 <= i < |parts| && HasEscape(parts[i]) {
        assert i > 0 ==> HasEscape(rest[i - 1]);
      }
    }
  }

  ghost predicate EachPortable(parts: seq<Text>) {
    forall i :: 0 <= i < |parts| ==> Portable(parts[i])
  }

  lemma JoinPortable(parts: seq<Text>)
    requires parts != []
    ensures Portable(Join(parts, SEMICOLON)) <==> EachPortable(parts)
  {
    hide HasEscape, Join;
    JoinEscapes(parts);
    if EachPortable(parts) {
      JoinWithout(parts, SEMICOLON, AMP);
      JoinWithout(parts, SEMICOLON, PLUS);
    } else {
      var i :| 0 <= i < |parts| && !Portable(parts[i]);
      if AMP in parts[i] {
        JoinContains(parts, AMP, i);
      } else if PLUS in parts[i] {
        JoinContains(parts, PLUS, i);
      } else {
        assert HasEscape(parts[i]);
      }
    }
  }

  lemma {:induction false} Utf8Across(a: Text, b: Text)
    requires IsUtf8(a) && IsUtf8(b)
    ensures IsUtf8(a + [SEMICOLON] + b)
    decreases |a|
  {
    hide Fitting, StartsWithChar;
    var s := a + [SEMICOLON] + b;
    if a == [] {
      SemicolonIsChar(b);
      assert s == [SEMICOLON] + b;
    } else {
      var n := Fitting(a);
      FittingHelps(a);
      var tail := a[n..] + [SEMICOLON] + b;
      Utf8Across(a[n..], b);
      CharAlone(a, tail);
      assert s == a[..n] + tail;
    }
  }

  lemma SemicolonIsChar(b: Text)
    ensures var s := [SEMICOLON] + b; StartsWithChar(s) && Fitting(s) == 1 && s[1..] == b
  {
  }

  lemma {:induction false} JoinUtf8(parts: seq<Text>)
    requires forall i :: 0 <= i < |parts| ==> IsUtf8(parts[i])
    ensures IsUtf8(Join(parts, SEMICOLON))
  {
    hide IsUtf8;
    if parts == [] {
      AsciiIsUtf8([]);
    } else if |parts| > 1 {
      JoinUtf8(parts[1..]);
      Utf8Across(parts[0], Join(parts[1..], SEMICOLON));
    }
  }

  // ---- The whole process spec ----

  function ArgsQuery(argv: seq<Text>): Text {
    if |argv| <= 1 then [] else [QUESTION] + Setting(Ascii("args"), Join(argv[1..], SEMICOLON))
  }

  function Program(argv: seq<Text>): Text {
    if argv == [] then [] else argv[0]
  }

  lemma ProcessRaw(argv: seq<Text>)
    ensures RenderRaw(Process(argv)) == Ascii("process") + SCHEME_END + ([SLASH] + Program(argv) + ArgsQuery(argv))
  {
    hide Join, Ascii, Program, ArgsQuery;
    ProcessWords();
    ProcessConcat(Ascii("process") + SCHEME_END, Program(argv), ArgsQuery(argv));
    ProcessArgs(argv);
  }

  lemma ProcessConcat(head: Text, prog: Text, query: Text)
    ensures head + [SLASH] + prog + query == head + ([SLASH] + prog + query)
  {
  }

  lemma ProcessArgs(argv: seq<Text>)
    ensures Program(argv) == if argv == [] then [] else argv[0]
    ensures ArgsQuery(argv) ==
      if |argv| <= 1 then [] else [QUESTION] + Ascii("args") + [EQUALS] + Join(argv[1..], SEMICOLON)
  {
    hide Join, Ascii;
  }

  lemma ProcessWords()
    ensures Ascii("process:///") == Ascii("process") + SCHEME_END + [SLASH]
    ensures Ascii("?args=") == [QUESTION] + Ascii("args") + [EQUALS]
  {
  }

  lemma ProcessDispatch(body: Text, q: Query)
    ensures ParseKind(Ascii("process"), body, q) == ParseArgv(body, q)
  {
    hide ParsePcap, ParseSerial, ParseArgv, DecodeText;
    assert |Ascii("process")| == 7 && |Ascii("file")| == 4 && |Ascii("tcp")| == 3 && |Ascii("udp")| == 3;
    assert |Ascii("pcap")| == 4 && |Ascii("serial")| == 6;
  }

  /** What a body with its leading slash and a query are read back as. */
  lemma ArgvRead(body: Text, q: Query, argv: seq<Text>)
    ensures var args := if Ascii("args") in q then NonEmpty(Split(q[Ascii("args")], SEMICOLON)) else [];
      ParseArgv(EscapeSpaces([SLASH] + body), q) == Ok(Process(argv)) <==>
      argv != [] && DecodeText(TrimSlashes(body)) == argv[0] && args == argv[1..]
  {
    hide EscapeSpaces, DecodeText, TrimSlashes, NonEmpty, Split, Ascii;
    ProgramRead(body);
    var program := DecodeText(TrimSlashes(body));
    var args := if Ascii("args") in q then NonEmpty(Split(q[Ascii("args")], SEMICOLON)) else [];
    assert ParseArgv(EscapeSpaces([SLASH] + body), q) == Ok(Process([program] + args));
    if argv != [] {
      assert argv == [argv[0]] + argv[1..];
      assert ([program] + args)[1..] == args;
    }
  }

  /** The arguments as they are read back. */
  lemma ArgsRead(args: seq<Text>)
    requires args != [] && forall i :: 0 <= i < |args| ==> IsUtf8(args[i])
    ensures var r := QueryOf(Split(EscapeSpaces(Setting(Ascii("args"), Join(args, SEMICOLON))), AMP));
      (r.Ok? && Ascii("args") in r.value && NonEmpty(Split(r.value[Ascii("args")], SEMICOLON)) == args) <==>
      Separable(args) && EachPortable(args)
  {
    hide Ascii, NonEmpty, Join, IsUtf8, EscapeSpaces, QueryOf, Setting, Separable, Split, IsKey, EachPortable;
    var key, j := Ascii("args"), Join(args, SEMICOLON);
    SerialKeys();
    JoinUtf8(args);
    JoinPortable(args);
    SplitEscaped(Setting(key, j), AMP);
    KeyPlain(key);
    QueryEscaped(Split(Setting(key, j), AMP), key);
    ArgsReadPlain(args, key);
  }

  lemma KeyPlain(key: Text)
    requires IsKey(key)
    ensures SPACE !in key && PERCENT !in key && EQUALS !in key && AMP !in key
  {
  }

  lemma ArgsReadPlain(args: seq<Text>, key: Text)
    requires args != [] && IsUtf8(Join(args, SEMICOLON)) && IsKey(key)
    ensures var r := QueryOf(Split(Setting(key, Join(args, SEMICOLON)), AMP));
      (r.Ok? && key in r.value && NonEmpty(Split(r.value[key], SEMICOLON)) == args) <==>
      Separable(args) && Portable(Join(args, SEMICOLON))
  {
    hide NonEmpty, Join, IsUtf8, QueryOf, Setting, DecodeText, Separable, Weight, Split, Portable, IsKey;
    var j := Join(args, SEMICOLON);
    var parts := Split(Setting(key, j), AMP);
    KeyPlain(key);
    assert [] + parts + [] == parts;
    if QueryOf(parts).Ok? {
      var v := ParamValue([], key, j, []);
      ArgsIff(args, v);
    }
    if Portable(j) {
      OneSetting(key, j);
      PortableOk([(key, j)]);
    }
  }

  lemma OneSetting(key: Text, value: Text)
    requires IsKey(key) && IsUtf8(value) && Portable(value)
    ensures WellKeyed([(key, value)]) && AllPortable([(key, value)])
    ensures SettingPieces([(key, value)]) == Split(Setting(key, value), AMP)
  {
    hide IsKey, IsUtf8, Portable, Setting, Split;
    assert SettingPieces([(key, value)][1..]) == [];
  }

  /** The exact condition under which a process spec survives. */
  ghost predicate ProcessPortable(argv: seq<Text>) {
    && argv != []
    && '?' as int !in argv[0] && Literal(argv[0]) && (argv[0] == [] || argv[0][0] != '/' as int)
    && forall i :: 1 <= i < |argv| ==> argv[i] != [] && ';' as int !in argv[i] && Portable(argv[i])
  }

  lemma PortableParts(argv: seq<Text>)
    requires argv != []
    ensures ProcessPortable(argv) <==>
      && QUESTION !in argv[0] && Literal(argv[0]) && (argv[0] == [] || argv[0][0] != SLASH)
      && Separable(argv[1..]) && EachPortable(argv[1..])
  {
    hide Literal, Portable;
    var args := argv[1..];
    assert forall i :: 1 <= i < |argv| ==> argv[i] == args[i - 1];
    assert forall i :: 0 <= i < |args| ==> args[i] == argv[i + 1];
  }

  /** Without a question mark in the program, the program and the arguments are read separately. */
  lemma ProcessParses(argv: seq<Text>)
    requires argv != [] && QUESTION !in argv[0] && forall i :: 0 <= i < |argv| ==> IsUtf8(argv[i])
    ensures ParseRest(Ascii("process"), EscapeSpaces([SLASH] + argv[0] + ArgsQuery(argv))) == Ok(Process(argv))
       <==> ProcessPortable(argv)
  {
    hide Ascii, IsUtf8, EscapeSpaces, DecodeText, TrimSlashes, NonEmpty, Split, Join, QueryOf, ParseKind, ParseArgv;
    hide ProcessPortable, Literal, Separable, EachPortable, SplitOnce, Setting;
    var prog, args, key := argv[0], argv[1..], Ascii("args");
    var body := [SLASH] + prog;
    PortableParts(argv);
    ProgramIff(prog);
    if args == [] {
      NothingToSplit();
      EscapedWithout(body, QUESTION);
      assert body + ArgsQuery(argv) == body;
      ProcessDispatch(EscapeSpaces(body), map[]);
      ArgvRead(prog, map[], argv);
    } else {
      var query := Setting(key, Join(args, SEMICOLON));
      assert body + ArgsQuery(argv) == body + [QUESTION] + query;
      ParseCut(Ascii("process"), body, query);
      ArgsRead(args);
      var r := QueryOf(Split(EscapeSpaces(query), AMP));
      if r.Ok? {
        ProcessDispatch(EscapeSpaces(body), r.value);
        ArgvRead(prog, r.value, argv);
      }
    }
  }

  lemma NothingToSplit()
    ensures Separable([]) && EachPortable([])
  {
  }

  /** A question mark in the program ends it early. */
  lemma ProcessCut(argv: seq<Text>)
    requires argv != [] && QUESTION in argv[0]
    ensures ParseRest(Ascii("process"), EscapeSpaces([SLASH] + argv[0] + ArgsQuery(argv))) != Ok(Process(argv))
  {
    hide Ascii, EscapeSpaces, DecodeText, TrimSlashes, NonEmpty, Split, Join, QueryOf, ParseKind, ParseArgv;
    hide SplitOnce, Setting, ArgsQuery;
    var (before, after) := SplitOnce(argv[0], QUESTION).value;
    var rest := after + ArgsQuery(argv);
    assert [SLASH] + argv[0] + ArgsQuery(argv) == [SLASH] + before + [QUESTION] + rest;
    ParseCut(Ascii("process"), [SLASH] + before, rest);
    ProgramCut(before, after);
    var r := QueryOf(Split(EscapeSpaces(rest), AMP));
    if r.Ok? {
      ProcessDispatch(EscapeSpaces([SLASH] + before), r.value);
      ArgvRead(before, r.value, argv);
    }
  }

  /** A process spec comes back exactly when it has a program without question mark, leading slash, plus sign and
      escape, and arguments that are not empty and hold no semicolon, ampersand, plus sign and escape. */
  lemma ProcessRoundTripIff(argv: seq<Text>)
    requires forall i :: 0 <= i < |argv| ==> IsUtf8(argv[i])
    ensures Parse(Render(Process(argv))) == Ok(Process(argv)) <==> ProcessPortable(argv)
  {
    hide Ascii, IsUtf8, EscapeSpaces, Parse, ParseRest, ArgsQuery, RenderRaw, IsWord, ProcessPortable;
    ProcessRaw(argv);
    SerialWord();
    ParseRendered("process", [SLASH] + Program(argv) + ArgsQuery(argv));
    if argv == [] {
      NoProgramIsRead();
    } else if QUESTION in argv[0] {
      ProcessCut(argv);
      NotPortable(argv);
    } else {
      ProcessParses(argv);
    }
  }

  lemma NotPortable(argv: seq<Text>)
    requires argv != [] && QUESTION in argv[0]
    ensures !ProcessPortable(argv)
  {
  }

  /** A spec without a program renders to one with an empty program. */
  lemma NoProgramIsRead()
    ensures ParseRest(Ascii("process"), EscapeSpaces([SLASH] + Program([]) + ArgsQuery([]))) != Ok(Process([]))
    ensures !ProcessPortable([])
  {
    hide Ascii, EscapeSpaces, DecodeText, TrimSlashes, NonEmpty, Split, QueryOf, ParseKind, ParseArgv, SplitOnce;
    var body: Text := [SLASH];
    assert [SLASH] + Program([]) + ArgsQuery([]) == body && [SLASH] + [] == body;
    EscapedWithout(body, QUESTION);
    ProcessDispatch(EscapeSpaces(body), map[]);
    ArgvRead([], map[], []);
  }
}
