/** Scoring text encodings on a sample, and deciding whether to depart from the configured one. */
module EncodingChoice {
  import opened Octets
  import opened Occurrences

  datatype Label = Utf8 | ShiftJis | Cp932 | EucJp | Iso2022Jp

  const SUPPORTED := [Utf8, ShiftJis, Cp932, EucJp, Iso2022Jp]

  function Rank(name: Label): nat {
    match name case Utf8 => 0 case ShiftJis => 1 case Cp932 => 2 case EucJp => 3 case Iso2022Jp => 4
  }

  datatype Family = Of(name: Label) | ShiftJisFamily

  function FamilyOf(name: Label): Family {
    if name == ShiftJis || name == Cp932 then ShiftJisFamily else Of(name)
  }

  /** Shift_JIS and its Windows superset count as one; every other label stands alone. */
  lemma FamiliesAre(a: Label, b: Label)
    ensures FamilyOf(a) == FamilyOf(b) <==> a == b || {a, b} == {ShiftJis, Cp932}
  {
    assert a in {a, b} && b in {a, b};
    assert ShiftJis in {ShiftJis, Cp932} && Cp932 in {ShiftJis, Cp932};
  }

  datatype Candidate = Candidate(name: Label, confidence: u8)

  /** A sample decoded under one label; decoding itself is a library. */
  datatype Decoding = Decoding(text: string, hadErrors: bool)

  // ---- Confidence ----

  function SaturatingAdd(a: u8, b: u8): u8 {
    if a + b > 255 then 255 else a + b
  }

  function SaturatingSub(a: u8, b: u8): u8 {
    if a < b then 0 else a - b
  }

  function Min(a: int, b: int): int {
    if a < b then a else b
  }

  function Max(a: int, b: int): int {
    if a < b then b else a
  }

  predicate IsReplacement(c: char) {
    c as int == 0xfffd
  }

  /** A control character other than the ones that lay out text. */
  predicate IsControl(c: char) {
    var n := c as int;
    (n < 0x20 || 0x7f <= n < 0xa0) && n != 0x09 && n != 0x0a && n != 0x0d
  }

  predicate IsJapanese(c: char) {
    var n := c as int;
    0x3040 <= n <= 0x30ff || 0x3400 <= n <= 0x4dbf || 0x4e00 <= n <= 0x9fff || 0xff66 <= n <= 0xff9f
  }

  function Count(text: string, p: char -> bool): (n: nat)
    ensures n <= |text|
  {
    if text == "" then 0 else Count(text[..|text| - 1], p) + if p(text[|text| - 1]) then 1 else 0
  }

  lemma {:induction false} CountDisjoint(text: string, p: char -> bool, q: char -> bool)
    requires forall c :: !(p(c) && q(c))
    ensures Count(text, p) + Count(text, q) <= |text|
  {
    if text != "" {
      CountDisjoint(text[..|text| - 1], p, q);
    }
  }

  /** Percentage of characters that are neither replacements nor controls; an empty text counts as printable. */
  function PrintableRatio(text: string): (r: nat)
    ensures r <= 100
  {
    var total := Max(|text|, 1);
    CountDisjoint(text, IsReplacement, IsControl);
    var printable := total - Count(text, IsReplacement) - Count(text, IsControl);
    RatioBound(printable, total);
    printable * 100 / total
  }

  lemma RatioBound(part: int, total: int)
    requires 0 <= part <= total && total > 0
    ensures 0 <= part * 100 / total <= 100
  {
  }

  /** The score of a text in one formula: a start for clean or broken decoding, a bonus for printable text,
      penalties for at most five replacement and eight control characters, and a ceiling for samples with NUL bytes. */
  function TextScore(sample: seq<byte>, d: Decoding): (c: int)
    ensures 0 <= c <= 93
  {
    var plain := (if d.hadErrors then 28 else 68) + PrintableRatio(d.text) / 4;
    var penalised :=
      Max(0, plain - 8 * Min(Count(d.text, IsReplacement), 5) - 4 * Min(Count(d.text, IsControl), 8));
    if 0 in sample then Min(penalised, 25) else penalised
  }

  /** `text_confidence`, step by step in eight-bit arithmetic: no step overflows or is cut off at 100. */
  method TextConfidence(sample: seq<byte>, d: Decoding) returns (confidence: u8)
    ensures confidence == TextScore(sample, d)
  {
    hide Count, PrintableRatio;
    var replacements := Count(d.text, IsReplacement);
    var controls := Count(d.text, IsControl);
    var ratio: u8 := PrintableRatio(d.text);
    confidence := if d.hadErrors then 28 else 68;
    confidence := Min(SaturatingAdd(confidence, ratio / 4), 100);
    if replacements > 0 {
      confidence := SaturatingSub(confidence, Min(replacements, 5) * 8);
    }
    if controls > 0 {
      confidence := SaturatingSub(confidence, Min(controls, 8) * 4);
    }
    if 0 in sample {
      confidence := Min(confidence, 25);
    }
  }

  predicate HasBom(sample: seq<byte>) {
    |sample| >= 3 && sample[0] == 0xef && sample[1] == 0xbb && sample[2] == 0xbf
  }

  predicate EscapeAt(sample: seq<byte>, i: int)
    requires 0 <= i && i + 2 < |sample|
  {
    sample[i] == 0x1b
    && ((sample[i + 1] == 0x24 && (sample[i + 2] == 0x42 || sample[i + 2] == 0x40))
        || (sample[i + 1] == 0x28 && (sample[i + 2] == 0x42 || sample[i + 2] == 0x4a)))
  }

  predicate HasEscape(sample: seq<byte>) {
    exists i :: 0 <= i < |sample| - 2 && EscapeAt(sample, i)
  }

  predicate HasJapanese(text: string) {
    exists i :: 0 <= i < |text| && IsJapanese(text[i])
  }

  function Bonus(c: int): int {
    Min(c + 4, 100)
  }

  /** The final score. `validUtf8` says whether the sample is valid UTF-8. */
  function Score(sample: seq<byte>, name: Label, d: Decoding, validUtf8: bool): (c: int)
    ensures 0 <= c <= 100
  {
    if sample == [] then 0
    else
      var text := TextScore(sample, d);
      var marked :=
        if name == Utf8 && HasBom(sample) then 100
        else if name == Iso2022Jp && HasEscape(sample) then Max(text, 95)
        else text;
      var valid := if name == Utf8 && validUtf8 && !d.hadErrors then Bonus(marked) else marked;
      if HasJapanese(d.text) then Bonus(valid) else valid
  }

  /** `score_encoding`. */
  method ScoreEncoding(sample: seq<byte>, name: Label, d: Decoding, validUtf8: bool) returns (c: Candidate)
    ensures c == Candidate(name, Score(sample, name, d, validUtf8))
  {
    hide TextScore, HasEscape, HasJapanese;
    if sample == [] {
      return Candidate(name, 0);
    }
    var confidence := TextConfidence(sample, d);
    if name == Utf8 && HasBom(sample) {
      confidence := Max(confidence, 100);
    }
    if name == Iso2022Jp && HasEscape(sample) {
      confidence := Max(confidence, 95);
    }
    if name == Utf8 && validUtf8 && !d.hadErrors {
      confidence := Min(SaturatingAdd(confidence, 4), 100);
    }
    if HasJapanese(d.text) {
      confidence := Min(SaturatingAdd(confidence, 4), 100);
    }
    return Candidate(name, confidence);
  }

  // ---- What the scores are worth ----

  /** No replacement character, and no control character but tab, line feed and carriage return. */
  predicate IsCleanText(text: string) {
    forall i :: 0 <= i < |text| ==> IsCleanChar(text[i])
  }

  predicate IsCleanChar(c: char) {
    c == '\t' || c == '\n' || c == '\r' || ' ' <= c <= '~' || 0xa0 <= c as int < 0xfffd || 0xfffd < c as int
  }

  /** One of the escape sequences of ISO-2022-JP stands at place `i`. */
  predicate EscapeStands(sample: seq<byte>, i: int) {
    Occurs(sample, [0x1b, 0x24, 0x42], i) || Occurs(sample, [0x1b, 0x24, 0x40], i)
    || Occurs(sample, [0x1b, 0x28, 0x42], i) || Occurs(sample, [0x1b, 0x28, 0x4a], i)
  }

  /** Nothing in the sample itself speaks for this label: no byte order mark for UTF-8, no escape for ISO-2022-JP. */
  ghost predicate Unmarked(sample: seq<byte>, name: Label) {
    (name == Utf8 ==> !([0xef, 0xbb, 0xbf] <= sample))
    && (name == Iso2022Jp ==> forall i :: !EscapeStands(sample, i))
  }

  lemma {:induction false} CountNone(text: string, p: char -> bool)
    requires forall i :: 0 <= i < |text| ==> !p(text[i])
    ensures Count(text, p) == 0
  {
    if text != "" {
      CountNone(text[..|text| - 1], p);
    }
  }

  lemma {:induction false} CountSome(text: string, p: char -> bool, i: nat)
    requires i < |text| && p(text[i])
    ensures Count(text, p) > 0
  {
    if i < |text| - 1 {
      CountSome(text[..|text| - 1], p, i);
    }
  }

  /** Clean text is text in which nothing is counted against it. */
  lemma CleanIff(text: string)
    ensures IsCleanText(text) <==> Count(text, IsReplacement) == 0 && Count(text, IsControl) == 0
  {
    hide Count;
    if IsCleanText(text) {
      CountNone(text, IsReplacement);
      CountNone(text, IsControl);
    } else {
      var i :| 0 <= i < |text| && !IsCleanChar(text[i]);
      if IsReplacement(text[i]) {
        CountSome(text, IsReplacement, i);
      } else {
        CountSome(text, IsControl, i);
      }
    }
  }

  /** The share of printable characters runs from none to all. */
  lemma RatioEnds(text: string)
    ensures IsCleanText(text) ==> PrintableRatio(text) == 100
    ensures text != "" && (forall i :: 0 <= i < |text| ==> !IsCleanChar(text[i])) ==> PrintableRatio(text) == 0
  {
    if IsCleanText(text) {
      CleanCounts(Decoding(text, false));
    }
    if text != "" && forall i :: 0 <= i < |text| ==> !IsCleanChar(text[i]) {
      CountAll(text);
    }
  }

  lemma {:induction false} CountAll(text: string)
    requires forall i :: 0 <= i < |text| ==> !IsCleanChar(text[i])
    ensures Count(text, IsReplacement) + Count(text, IsControl) == |text|
  {
    if text != "" {
      var c := text[|text| - 1];
      CountAll(text[..|text| - 1]);
      assert !IsCleanChar(c);
      assert IsReplacement(c) != IsControl(c);
    }
  }

  lemma EscapeIs(sample: seq<byte>, i: int)
    requires 0 <= i < |sample| - 2
    ensures EscapeAt(sample, i) <==> EscapeStands(sample, i)
  {
    assert sample[i..i + 3] == [sample[i], sample[i + 1], sample[i + 2]];
  }

  lemma EscapeIff(sample: seq<byte>)
    ensures HasEscape(sample) <==> exists i :: EscapeStands(sample, i)
  {
    hide EscapeAt;
    forall i | 0 <= i < |sample| - 2 ensures EscapeAt(sample, i) <==> EscapeStands(sample, i) {
      EscapeIs(sample, i);
    }
  }

  lemma UnmarkedMeans(sample: seq<byte>, name: Label)
    requires Unmarked(sample, name)
    ensures !(name == Utf8 && HasBom(sample)) && !(name == Iso2022Jp && HasEscape(sample))
  {
    hide EscapeStands, HasEscape;
    EscapeIff(sample);
  }

  lemma CleanCounts(d: Decoding)
    requires IsCleanText(d.text)
    ensures Count(d.text, IsReplacement) == 0 && Count(d.text, IsControl) == 0 && PrintableRatio(d.text) == 100
  {
    CountNone(d.text, IsReplacement);
    CountNone(d.text, IsControl);
    Whole(Max(|d.text|, 1));
  }

  lemma Whole(total: int)
    requires total > 0
    ensures total * 100 / total == 100
  {
  }

  /** Text decoded without errors, replacements or controls, from a sample without NUL, scores at least 93. */
  lemma CleanScores(sample: seq<byte>, name: Label, d: Decoding, validUtf8: bool)
    requires sample != [] && 0 !in sample && !d.hadErrors && IsCleanText(d.text)
    ensures Score(sample, name, d, validUtf8) >= 93
  {
    hide Count, PrintableRatio, HasEscape, HasJapanese, HasBom;
    CleanCounts(d);
  }

  /** A decoding with errors and no mark stays at or below 57. */
  lemma BrokenScores(sample: seq<byte>, name: Label, d: Decoding, validUtf8: bool)
    requires d.hadErrors && Unmarked(sample, name)
    ensures Score(sample, name, d, validUtf8) <= 57
  {
    hide Count, PrintableRatio, HasJapanese;
    UnmarkedMeans(sample, name);
  }

  /** A sample with NUL and no mark stays at or below 33. */
  lemma NulScores(sample: seq<byte>, name: Label, d: Decoding, validUtf8: bool)
    requires 0 in sample && Unmarked(sample, name)
    ensures Score(sample, name, d, validUtf8) <= 33
  {
    hide Count, PrintableRatio, HasJapanese;
    UnmarkedMeans(sample, name);
  }

  /** Five replacement characters cost 40 points, eight control characters 32. */
  lemma PenaltiesBite(sample: seq<byte>, name: Label, d: Decoding, validUtf8: bool)
    requires Unmarked(sample, name)
    ensures Count(d.text, IsReplacement) >= 5 ==> Score(sample, name, d, validUtf8) <= 61
    ensures Count(d.text, IsControl) >= 8 ==> Score(sample, name, d, validUtf8) <= 69
  {
    hide Count, PrintableRatio, HasJapanese;
    UnmarkedMeans(sample, name);
  }

  lemma MulMonotone(t: int, x: int, y: int)
    requires t > 0
    ensures x <= y ==> t * x <= t * y
  {
  }

  lemma DivMonotone(a: int, b: int, t: int)
    requires 0 <= a <= b && t > 0
    ensures a / t <= b / t
  {
    var p, q := a / t, b / t;
    assert a == t * p + a % t && b == t * q + b % t;
    assert t * (q + 1) == t * q + t;
    MulMonotone(t, q + 1, p);
  }

  lemma RatioFalls(d: Decoding, e: Decoding)
    requires |d.text| == |e.text|
    requires Count(d.text, IsReplacement) <= Count(e.text, IsReplacement)
    requires Count(d.text, IsControl) <= Count(e.text, IsControl)
    ensures PrintableRatio(e.text) <= PrintableRatio(d.text)
  {
    hide Count;
    var total := Max(|d.text|, 1);
    CountDisjoint(e.text, IsReplacement, IsControl);
    DivMonotone((total - Count(e.text, IsReplacement) - Count(e.text, IsControl)) * 100,
                (total - Count(d.text, IsReplacement) - Count(d.text, IsControl)) * 100, total);
  }

  lemma TextScoreFalls(sample: seq<byte>, d: Decoding, e: Decoding)
    requires |d.text| == |e.text| && (d.hadErrors ==> e.hadErrors)
    requires Count(d.text, IsReplacement) <= Count(e.text, IsReplacement)
    requires Count(d.text, IsControl) <= Count(e.text, IsControl)
    ensures TextScore(sample, e) <= TextScore(sample, d)
  {
    hide Count, PrintableRatio;
    RatioFalls(d, e);
  }

  /** More replacement or control characters never raise the score, and neither do errors. */
  lemma DamageNeverHelps(sample: seq<byte>, name: Label, d: Decoding, e: Decoding, validUtf8: bool)
    requires |d.text| == |e.text| && HasJapanese(d.text) == HasJapanese(e.text) && (d.hadErrors ==> e.hadErrors)
    requires Count(d.text, IsReplacement) <= Count(e.text, IsReplacement)
    requires Count(d.text, IsControl) <= Count(e.text, IsControl)
    ensures Score(sample, name, e, validUtf8) <= Score(sample, name, d, validUtf8)
  {
    hide Count, TextScore, HasJapanese, HasEscape, HasBom;
    TextScoreFalls(sample, d, e);
  }

  /** The first five replacement characters cost eight points each, the first eight controls four each, and no score
      falls below zero. */
  lemma PenaltiesExactly(sample: seq<byte>, d: Decoding, e: Decoding)
    requires 0 !in sample && d.hadErrors == e.hadErrors && PrintableRatio(d.text) == PrintableRatio(e.text)
    ensures var r, s := Count(d.text, IsReplacement), Count(e.text, IsReplacement);
      r < s && Count(d.text, IsControl) == Count(e.text, IsControl) && TextScore(sample, e) > 0 ==>
        TextScore(sample, d) - TextScore(sample, e) == if s <= 5 then 8 * (s - r) else if r < 5 then 8 * (5 - r) else 0
    ensures var r, s := Count(d.text, IsControl), Count(e.text, IsControl);
      r < s && Count(d.text, IsReplacement) == Count(e.text, IsReplacement) && TextScore(sample, e) > 0 ==>
        TextScore(sample, d) - TextScore(sample, e) == if s <= 8 then 4 * (s - r) else if r < 8 then 4 * (8 - r) else 0
    ensures d.hadErrors && Count(d.text, IsReplacement) >= 5 && Count(d.text, IsControl) >= 4 ==>
      TextScore(sample, d) == 0
  {
    hide Count, PrintableRatio;
  }

  /** An empty sample scores nothing; a byte order mark settles it for UTF-8; an escape sequence all but settles it for
      ISO-2022-JP. */
  lemma MarksScore(sample: seq<byte>, d: Decoding, validUtf8: bool)
    ensures sample == [] ==> forall name :: Score(sample, name, d, validUtf8) == 0
    ensures [0xef, 0xbb, 0xbf] <= sample ==> Score(sample, Utf8, d, validUtf8) == 100
    ensures (exists i :: EscapeStands(sample, i)) ==>
      Score(sample, Iso2022Jp, d, validUtf8) == if ShowsJapanese(d.text) then 99 else 95
  {
    hide TextScore, EscapeStands, HasEscape;
    EscapeIff(sample);
    EscapeNeedsBytes(sample);
  }

  lemma EscapeNeedsBytes(sample: seq<byte>)
    ensures HasEscape(sample) ==> sample != []
  {
  }

  /** Clean text without kana or kanji and without a mark scores exactly 93, or 97 as valid UTF-8; kana or kanji add
      4. */
  lemma CleanScoresExactly(sample: seq<byte>, name: Label, d: Decoding, validUtf8: bool)
    requires sample != [] && 0 !in sample && !d.hadErrors && IsCleanText(d.text) && Unmarked(sample, name)
    ensures Score(sample, name, d, validUtf8) ==
      Min(100, 93 + (if name == Utf8 && validUtf8 then 4 else 0) + (if ShowsJapanese(d.text) then 4 else 0))
  {
    hide Count, PrintableRatio, HasEscape, HasBom;
    CleanCounts(d);
    UnmarkedMeans(sample, name);
  }

  /** Hiragana, katakana, the common kanji blocks and half-width katakana. */
  predicate ShowsJapanese(text: string) {
    exists i :: 0 <= i < |text|
                && var n := text[i] as int;
                   0x3040 <= n < 0x3100 || 0x3400 <= n < 0x4dc0 || 0x4e00 <= n < 0xa000 || 0xff66 <= n < 0xffa0
  }

  // ---- Ranking ----

  /** Higher confidence first; equal confidence in the order of the supported labels. */
  predicate Precedes(a: Candidate, b: Candidate) {
    a.confidence > b.confidence || (a.confidence == b.confidence && Rank(a.name) <= Rank(b.name))
  }

  ghost predicate Ranked(cs: seq<Candidate>) {
    forall i, j :: 0 <= i < j < |cs| ==> Precedes(cs[i], cs[j])
  }

  /** One candidate put in its place. */
  method Insert(cs: seq<Candidate>, c: Candidate) returns (out: seq<Candidate>)
    requires Ranked(cs)
    ensures Ranked(out) && multiset(out) == multiset(cs) + multiset{c}
  {
    var i := 0;
    while i < |cs| && Precedes(cs[i], c)
      invariant 0 <= i <= |cs| && forall k :: 0 <= k < i ==> Precedes(cs[k], c)
    {
      i := i + 1;
    }
    out := cs[..i] + [c] + cs[i..];
    assert cs == cs[..i] + cs[i..];
  }

  /** Every supported label with its score, in the order of the labels. */
  function AllScores(sample: seq<byte>, decode: Label -> Decoding, validUtf8: bool): (all: seq<Candidate>)
    ensures |all| == 5
    ensures forall i :: 0 <= i < 5 ==> all[i] == ScoreOf(sample, decode, validUtf8, SUPPORTED[i])
  {
    seq(5, i requires 0 <= i < 5 => ScoreOf(sample, decode, validUtf8, SUPPORTED[i]))
  }

  function ScoreOf(sample: seq<byte>, decode: Label -> Decoding, validUtf8: bool, name: Label): (c: Candidate)
    ensures c.name == name
  {
    Candidate(name, Score(sample, name, decode(name), validUtf8))
  }

  /** `detect_encodings`: every supported label once, with its own score, best first. */
  method DetectEncodings(sample: seq<byte>, decode: Label -> Decoding, validUtf8: bool) returns (cs: seq<Candidate>)
    ensures Ranked(cs) && multiset(cs) == multiset(AllScores(sample, decode, validUtf8))
  {
    hide Score, Ranked;
    cs := [];
    ghost var all := AllScores(sample, decode, validUtf8);
    NoneRanked();
    for i := 0 to 5
      invariant Ranked(cs) && multiset(cs) == multiset(all[..i])
    {
      var c := ScoreEncoding(sample, SUPPORTED[i], decode(SUPPORTED[i]), validUtf8);
      cs := Insert(cs, c);
      assert all[..i + 1] == all[..i] + [all[i]];
    }
    assert all[..5] == all;
  }

  lemma NoneRanked()
    ensures Ranked([])
  {
  }

  // ---- The decision ----

  datatype Mode = Off | Configured | Suggest | Auto

  datatype Settings = Settings(mode: Mode, minConfidence: u8, minDelta: u8)

  /** Confidence of the first candidate, from place `i` on, that belongs to another family; 0 if there is none. */
  function FirstOther(cs: seq<Candidate>, family: Family, i: nat): u8
    decreases |cs| - i
  {
    if i >= |cs| then 0
    else if FamilyOf(cs[i].name) != family then cs[i].confidence
    else FirstOther(cs, family, i + 1)
  }

  /** `effective_encoding`. */
  function Effective(configured: Label, cs: seq<Candidate>, settings: Settings): Label {
    if settings.mode != Auto || cs == [] then configured
    else
      var second := FirstOther(cs, FamilyOf(cs[0].name), 1);
      if cs[0].confidence >= settings.minConfidence
         && SaturatingSub(cs[0].confidence, second) >= settings.minDelta
      then cs[0].name
      else configured
  }

  /** In a ranking, the first candidate of another family is the strongest rival. */
  lemma {:induction false} FirstOtherIsBest(cs: seq<Candidate>, family: Family, i: nat)
    requires Ranked(cs)
    ensures forall j :: i <= j < |cs| && FamilyOf(cs[j].name) != family ==>
      cs[j].confidence <= FirstOther(cs, family, i)
    ensures FirstOther(cs, family, i) == 0
      || exists j :: i <= j < |cs| && FamilyOf(cs[j].name) != family && cs[j].confidence == FirstOther(cs, family, i)
    decreases |cs| - i
  {
    if i < |cs| && FamilyOf(cs[i].name) == family {
      FirstOtherIsBest(cs, family, i + 1);
    }
  }

  /** The best candidate is confident enough, and ahead of every candidate of another family by the required gap. */
  ghost predicate ClearWinner(cs: seq<Candidate>, settings: Settings)
    requires cs != []
  {
    cs[0].confidence >= settings.minConfidence && cs[0].confidence >= settings.minDelta
    && forall j :: 0 <= j < |cs| && FamilyOf(cs[j].name) != FamilyOf(cs[0].name) ==>
         cs[0].confidence >= cs[j].confidence + settings.minDelta
  }

  /** Automatic mode takes the best candidate exactly when it is a clear winner; nothing else changes the label. */
  lemma EffectiveIff(configured: Label, cs: seq<Candidate>, settings: Settings)
    requires Ranked(cs)
    ensures Effective(configured, cs, settings) ==
      if settings.mode == Auto && cs != [] && ClearWinner(cs, settings) then cs[0].name else configured
  {
    if settings.mode == Auto && cs != [] {
      FirstOtherIsBest(cs, FamilyOf(cs[0].name), 1);
    }
  }

  lemma AllLabels(sample: seq<byte>, decode: Label -> Decoding, validUtf8: bool, cs: seq<Candidate>, name: Label)
    requires multiset(cs) == multiset(AllScores(sample, decode, validUtf8))
    ensures ScoreOf(sample, decode, validUtf8, name) in cs
  {
    hide ScoreOf;
    var all := AllScores(sample, decode, validUtf8);
    assert SUPPORTED[Rank(name)] == name;
    assert all[Rank(name)] in multiset(all);
    assert all[Rank(name)] in multiset(cs);
  }

  lemma OnlyScores(sample: seq<byte>, decode: Label -> Decoding, validUtf8: bool, cs: seq<Candidate>, i: nat)
    requires multiset(cs) == multiset(AllScores(sample, decode, validUtf8)) && i < |cs|
    ensures cs[i] == ScoreOf(sample, decode, validUtf8, cs[i].name)
  {
    hide ScoreOf;
    var all := AllScores(sample, decode, validUtf8);
    assert cs[i] in multiset(cs);
    assert cs[i] in multiset(all);
  }

  /** The label ranks first, meets the threshold, and is ahead of every label of another family by the required gap. */
  ghost predicate Wins(sample: seq<byte>, decode: Label -> Decoding, validUtf8: bool, settings: Settings, best: Label) {
    var score := ScoreOf(sample, decode, validUtf8, best);
    score.confidence >= settings.minConfidence && score.confidence >= settings.minDelta
    && forall l: Label ::
         Precedes(score, ScoreOf(sample, decode, validUtf8, l))
         && (FamilyOf(l) != FamilyOf(best) ==>
               score.confidence >= ScoreOf(sample, decode, validUtf8, l).confidence + settings.minDelta)
  }

  /** The first in the ranking wins if it is clear. */
  lemma ClearWins(
    sample: seq<byte>, decode: Label -> Decoding, validUtf8: bool, settings: Settings, cs: seq<Candidate>)
    requires Ranked(cs) && multiset(cs) == multiset(AllScores(sample, decode, validUtf8))
    requires cs != [] && ClearWinner(cs, settings)
    ensures Wins(sample, decode, validUtf8, settings, cs[0].name)
  {
    hide ScoreOf, AllScores;
    OnlyScores(sample, decode, validUtf8, cs, 0);
    forall l: Label
      ensures Precedes(cs[0], ScoreOf(sample, decode, validUtf8, l))
      ensures FamilyOf(l) != FamilyOf(cs[0].name) ==>
        cs[0].confidence >= ScoreOf(sample, decode, validUtf8, l).confidence + settings.minDelta
    {
      AllLabels(sample, decode, validUtf8, cs, l);
      var j :| 0 <= j < |cs| && cs[j] == ScoreOf(sample, decode, validUtf8, l);
    }
  }

  /** Only the first in the ranking can win, and only if it is clear. */
  lemma WinsIsClear(
    sample: seq<byte>, decode: Label -> Decoding, validUtf8: bool, settings: Settings, cs: seq<Candidate>, best: Label)
    requires Ranked(cs) && multiset(cs) == multiset(AllScores(sample, decode, validUtf8)) && cs != []
    requires Wins(sample, decode, validUtf8, settings, best)
    ensures best == cs[0].name && ClearWinner(cs, settings)
  {
    hide ScoreOf, AllScores;
    OnlyScores(sample, decode, validUtf8, cs, 0);
    AllLabels(sample, decode, validUtf8, cs, best);
    var j :| 0 <= j < |cs| && cs[j] == ScoreOf(sample, decode, validUtf8, best);
    assert Precedes(cs[j], ScoreOf(sample, decode, validUtf8, cs[0].name));
    assert j > 0 ==> Precedes(cs[0], cs[j]);
    RankInjective(best, cs[0].name);
    forall k | 0 <= k < |cs| && FamilyOf(cs[k].name) != FamilyOf(best)
      ensures cs[0].confidence >= cs[k].confidence + settings.minDelta
    {
      OnlyScores(sample, decode, validUtf8, cs, k);
      assert cs[k] == ScoreOf(sample, decode, validUtf8, cs[k].name);
    }
  }

  lemma RankInjective(a: Label, b: Label)
    ensures Rank(a) == Rank(b) ==> a == b
  {
  }

  lemma FirstOfTwo(sample: seq<byte>, decode: Label -> Decoding, validUtf8: bool, a: Label, b: Label) returns (c: Label)
    ensures Precedes(ScoreOf(sample, decode, validUtf8, c), ScoreOf(sample, decode, validUtf8, a))
    ensures Precedes(ScoreOf(sample, decode, validUtf8, c), ScoreOf(sample, decode, validUtf8, b))
  {
    hide Score;
    c := if Precedes(ScoreOf(sample, decode, validUtf8, a), ScoreOf(sample, decode, validUtf8, b)) then a else b;
  }

  /** Some label ranks first. */
  lemma FirstExists(sample: seq<byte>, decode: Label -> Decoding, validUtf8: bool) returns (best: Label)
    ensures forall l: Label :: Precedes(ScoreOf(sample, decode, validUtf8, best), ScoreOf(sample, decode, validUtf8, l))
  {
    hide ScoreOf;
    var a := FirstOfTwo(sample, decode, validUtf8, Utf8, ShiftJis);
    var b := FirstOfTwo(sample, decode, validUtf8, a, Cp932);
    var c := FirstOfTwo(sample, decode, validUtf8, b, EucJp);
    best := FirstOfTwo(sample, decode, validUtf8, c, Iso2022Jp);
    forall l: Label ensures Precedes(ScoreOf(sample, decode, validUtf8, best), ScoreOf(sample, decode, validUtf8, l)) {
      match l
      case Utf8 =>
      case ShiftJis =>
      case Cp932 =>
      case EucJp =>
      case Iso2022Jp =>
    }
  }

  /** The sample decodes cleanly as `clean`, and every label of another family has errors and no mark. */
  ghost predicate OnlyClean(sample: seq<byte>, decode: Label -> Decoding, clean: Label) {
    sample != [] && 0 !in sample && !decode(clean).hadErrors && IsCleanText(decode(clean).text)
    && forall l: Label :: FamilyOf(l) != FamilyOf(clean) ==> decode(l).hadErrors && Unmarked(sample, l)
  }

  /** If one family alone decodes cleanly, the winner is of that family, and there is one. */
  lemma OnlyCleanWins(
    sample: seq<byte>, decode: Label -> Decoding, validUtf8: bool, settings: Settings, clean: Label)
    requires OnlyClean(sample, decode, clean) && settings.minConfidence <= 93 && settings.minDelta <= 36
    ensures exists best :: Wins(sample, decode, validUtf8, settings, best)
    ensures forall best :: Wins(sample, decode, validUtf8, settings, best) ==> FamilyOf(best) == FamilyOf(clean)
  {
    hide Score, IsCleanText, Unmarked;
    CleanScores(sample, clean, decode(clean), validUtf8);
    forall l: Label | FamilyOf(l) != FamilyOf(clean) ensures ScoreOf(sample, decode, validUtf8, l).confidence <= 57 {
      BrokenScores(sample, l, decode(l), validUtf8);
    }
    var best := FirstExists(sample, decode, validUtf8);
    assert Precedes(ScoreOf(sample, decode, validUtf8, best), ScoreOf(sample, decode, validUtf8, clean));
    assert Wins(sample, decode, validUtf8, settings, best);
  }

  /** Every label decodes the sample to the same clean text without kana or kanji, as plain ASCII does. */
  ghost predicate Ambiguous(sample: seq<byte>, decode: Label -> Decoding, text: string) {
    sample != [] && 0 !in sample && IsCleanText(text) && !ShowsJapanese(text)
    && forall l: Label :: decode(l) == Decoding(text, false) && Unmarked(sample, l)
  }

  /** Text that every label reads alike has no winner, as long as the gap asked for is more than the four points that
      being valid UTF-8 is worth. */
  lemma AmbiguousHasNoWinner(
    sample: seq<byte>, decode: Label -> Decoding, validUtf8: bool, settings: Settings, text: string, best: Label)
    requires Ambiguous(sample, decode, text) && settings.minDelta > 4
    ensures !Wins(sample, decode, validUtf8, settings, best)
  {
    hide Score, IsCleanText, Unmarked, ShowsJapanese;
    var rival := if best == EucJp then Iso2022Jp else EucJp;
    assert decode(best) == Decoding(text, false) && Unmarked(sample, best);
    assert decode(rival) == Decoding(text, false) && Unmarked(sample, rival);
    CleanScoresExactly(sample, best, decode(best), validUtf8);
    CleanScoresExactly(sample, rival, decode(rival), validUtf8);
    assert ScoreOf(sample, decode, validUtf8, best).confidence
           < ScoreOf(sample, decode, validUtf8, rival).confidence + settings.minDelta;
  }

  /** What `detect_content` makes of the label: in automatic mode it is the winner, if there is one; otherwise it is the
      configured label. */
  method ChooseEncoding(
    sample: seq<byte>, decode: Label -> Decoding, validUtf8: bool, configured: Label, settings: Settings)
    returns (chosen: Label)
    ensures if settings.mode == Auto && exists best :: Wins(sample, decode, validUtf8, settings, best)
            then Wins(sample, decode, validUtf8, settings, chosen)
            else chosen == configured
    ensures settings.mode == Auto && settings.minConfidence <= 93 && settings.minDelta <= 36 ==>
      forall clean :: OnlyClean(sample, decode, clean) ==> FamilyOf(chosen) == FamilyOf(clean)
    ensures settings.minDelta > 4 ==> forall text :: Ambiguous(sample, decode, text) ==> chosen == configured
  {
    hide ScoreOf, Effective, Ranked, Wins, AllScores, OnlyClean, Ambiguous;
    if settings.minConfidence <= 93 && settings.minDelta <= 36 {
      forall clean | OnlyClean(sample, decode, clean)
        ensures exists best :: Wins(sample, decode, validUtf8, settings, best)
        ensures forall best :: Wins(sample, decode, validUtf8, settings, best) ==> FamilyOf(best) == FamilyOf(clean)
      {
        OnlyCleanWins(sample, decode, validUtf8, settings, clean);
      }
    }
    if settings.minDelta > 4 {
      forall text, best | Ambiguous(sample, decode, text) ensures !Wins(sample, decode, validUtf8, settings, best) {
        AmbiguousHasNoWinner(sample, decode, validUtf8, settings, text, best);
      }
    }
    if settings.mode == Off {
      return configured;
    }
    var cs := DetectEncodings(sample, decode, validUtf8);
    chosen := Effective(configured, cs, settings);
    EffectiveIff(configured, cs, settings);
    FiveCandidates(sample, decode, validUtf8, cs);
    if ClearWinner(cs, settings) {
      ClearWins(sample, decode, validUtf8, settings, cs);
    }
    forall best: Label | Wins(sample, decode, validUtf8, settings, best)
      ensures best == cs[0].name && ClearWinner(cs, settings)
    {
      WinsIsClear(sample, decode, validUtf8, settings, cs, best);
    }
  }

  lemma FiveCandidates(sample: seq<byte>, decode: Label -> Decoding, validUtf8: bool, cs: seq<Candidate>)
    requires multiset(cs) == multiset(AllScores(sample, decode, validUtf8))
    ensures cs != []
  {
    AllLabels(sample, decode, validUtf8, cs, Utf8);
  }
}
