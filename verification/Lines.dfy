/** Line endings: detection and splitting. */
module Lines {
  import opened Octets
  import opened Results
  import opened Occurrences

  datatype Eol = Lf | Crlf | Cr | Auto

  const CR: byte := 0x0d
  const LF: byte := 0x0a

  // ---- Detection ----

  /** A line of convention `e` ends at place `k`; the two bytes of a CRLF end no other kind of line. */
  predicate EndsAt(b: seq<byte>, e: Eol, k: int)
    requires 0 <= k < |b|
  {
    match e
    case Crlf => b[k] == CR && k + 1 < |b| && b[k + 1] == LF
    case Cr => b[k] == CR && !(k + 1 < |b| && b[k + 1] == LF)
    case Lf => b[k] == LF && !(k > 0 && b[k - 1] == CR)
    case Auto => false
  }

  ghost function Places(b: seq<byte>, e: Eol, n: int): set<int>
    requires n <= |b|
  {
    set k | 0 <= k < n && EndsAt(b, e, k)
  }

  function Sample(s: seq<byte>): seq<byte> {
    if |s| <= SAMPLE_LIMIT then s else s[..SAMPLE_LIMIT]
  }

  /** How many lines of convention `e` end in the sample. */
  ghost function Count(s: seq<byte>, e: Eol): nat {
    |Places(Sample(s), e, |Sample(s)|)|
  }

  ghost function Detected(s: seq<byte>): Eol {
    if Count(s, Crlf) > 0 && Count(s, Crlf) >= Count(s, Lf) && Count(s, Crlf) >= Count(s, Cr) then Crlf
    else if Count(s, Cr) > Count(s, Lf) then Cr
    else Lf
  }

  lemma PlacesStep(b: seq<byte>, e: Eol, n: int)
    requires 0 <= n < |b|
    ensures |Places(b, e, n + 1)| == |Places(b, e, n)| + if EndsAt(b, e, n) then 1 else 0
  {
    hide EndsAt;
    if EndsAt(b, e, n) {
      assert Places(b, e, n + 1) == Places(b, e, n) + {n};
    } else {
      assert Places(b, e, n + 1) == Places(b, e, n);
    }
  }

  ghost predicate Counted(b: seq<byte>, n: int, crlf: nat, cr: nat, lf: nat)
    requires n <= |b|
  {
    crlf == |Places(b, Crlf, n)| && cr == |Places(b, Cr, n)| && lf == |Places(b, Lf, n)|
  }

  lemma CountedStep(b: seq<byte>, n: int, crlf: nat, cr: nat, lf: nat)
    requires 0 <= n < |b| && Counted(b, n, crlf, cr, lf)
    ensures Counted(b, n + 1, crlf + (if EndsAt(b, Crlf, n) then 1 else 0), cr + (if EndsAt(b, Cr, n) then 1 else 0),
                    lf + (if EndsAt(b, Lf, n) then 1 else 0))
  {
    PlacesStep(b, Crlf, n);
    PlacesStep(b, Cr, n);
    PlacesStep(b, Lf, n);
  }

  lemma CountedNone(b: seq<byte>)
    ensures Counted(b, 0, 0, 0, 0)
  {
    assert Places(b, Crlf, 0) == {} && Places(b, Cr, 0) == {} && Places(b, Lf, 0) == {};
  }

  /** `Eol::detect`. */
  method Detect(sample: seq<byte>) returns (e: Eol)
    ensures e == Detected(sample)
  {
    hide Counted;
    var buf := Sample(sample);
    var crlf, cr, lf := 0, 0, 0;
    var i := 0;
    CountedNone(buf);
    while i < |buf|
      invariant 0 <= i <= |buf| && Counted(buf, i, crlf, cr, lf)
      invariant 0 < i < |buf| && buf[i] == LF ==> buf[i - 1] != CR
    {
      CountedStep(buf, i, crlf, cr, lf);
      if buf[i] == CR && i + 1 < |buf| && buf[i + 1] == LF {
        crlf := crlf + 1;
        CountedStep(buf, i + 1, crlf, cr, lf);
        i := i + 2;
        continue;
      } else if buf[i] == CR {
        cr := cr + 1;
      } else if buf[i] == LF {
        lf := lf + 1;
      }
      i := i + 1;
    }
    CountsAre(sample, crlf, cr, lf);
    if crlf >= lf && crlf >= cr && crlf > 0 {
      return Crlf;
    } else if cr > lf && cr > 0 {
      return Cr;
    } else {
      return Lf;
    }
  }

  lemma CountsAre(s: seq<byte>, crlf: nat, cr: nat, lf: nat)
    requires Counted(Sample(s), |Sample(s)|, crlf, cr, lf)
    ensures crlf == Count(s, Crlf) && cr == Count(s, Cr) && lf == Count(s, Lf)
  {
  }

  /** Every carriage return and line feed belongs to exactly one line ending. */
  lemma EndsPartition(b: seq<byte>, k: int)
    requires 0 <= k < |b|
    ensures EndsAt(b, Crlf, k) <==> k + 1 < |b| && b[k..k + 2] == [0x0d, 0x0a]
    ensures var within := k > 0 && EndsAt(b, Crlf, k - 1);
      && (b[k] == 0x0d <==> EndsAt(b, Cr, k) || EndsAt(b, Crlf, k)) && !(EndsAt(b, Cr, k) && EndsAt(b, Crlf, k))
      && (b[k] == 0x0a <==> EndsAt(b, Lf, k) || within) && !(EndsAt(b, Lf, k) && within)
  {
    if k + 1 < |b| {
      assert b[k..k + 2] == [b[k], b[k + 1]];
    }
  }

  /** The detected convention is a most frequent one; CRLF wins every tie, and LF wins against CR. */
  lemma DetectedIsMost(s: seq<byte>, e: Eol)
    ensures Detected(s) != Auto && Count(s, e) <= Count(s, Detected(s))
    ensures Detected(s) == Lf ==> Count(s, Crlf) == 0 || Count(s, Crlf) < Count(s, Lf)
    ensures Detected(s) == Cr ==> Count(s, Lf) < Count(s, Cr) && (Count(s, Crlf) == 0 || Count(s, Crlf) < Count(s, Cr))
  {
    hide Count;
    if e == Auto {
      AutoNowhere(s);
    }
  }

  lemma AutoNowhere(s: seq<byte>)
    ensures Count(s, Auto) == 0
  {
    assert Places(Sample(s), Auto, |Sample(s)|) == {};
  }

  // ---- Splitting ----

  function Terminator(e: Eol): seq<byte> {
    match e case Crlf => [CR, LF] case Cr => [CR] case _ => [LF]
  }

  /** The first occurrence at or after `i`. */
  function PositionFrom(buf: seq<byte>, term: seq<byte>, i: nat): (r: Option<nat>)
    ensures r.Some? ==> i <= r.value && Occurs(buf, term, r.value)
    ensures r.Some? ==> forall j :: i <= j < r.value ==> !Occurs(buf, term, j)
    ensures r.None? ==> forall j :: i <= j ==> !Occurs(buf, term, j)
    decreases |buf| - i
  {
    if i + |term| > |buf| then None
    else if Occurs(buf, term, i) then Some(i)
    else if i == |buf| then None
    else PositionFrom(buf, term, i + 1)
  }

  function Position(buf: seq<byte>, term: seq<byte>): (r: Option<nat>)
    ensures r.Some? ==> Occurs(buf, term, r.value) && forall j :: 0 <= j < r.value ==> !Occurs(buf, term, j)
    ensures r.Some? ==> r.value + |term| <= |buf|
    ensures r.None? ==> forall j :: 0 <= j ==> !Occurs(buf, term, j)
  {
    PositionFrom(buf, term, 0)
  }

  ghost function Resolve(buf: seq<byte>, e: Eol): Eol {
    if e == Auto then Detected(buf) else e
  }

  /** A line and the bytes that ended it; none for trailing data. */
  datatype Chunk = Chunk(line: seq<byte>, end: seq<byte>)

  ghost function Chunks(buf: seq<byte>, e: Eol): seq<Chunk>
    decreases |buf|
  {
    var term := Terminator(Resolve(buf, e));
    match Position(buf, term)
    case Some(i) => [Chunk(buf[..i], term)] + Chunks(buf[i + |term|..], e)
    case None => if buf == [] then [] else [Chunk(buf, [])]
  }

  class LineIter {
    var buf: seq<byte>
    const eol: Eol
    var done: bool

    /** What is still to come. */
    ghost function Remaining(): seq<Chunk>
      reads this
    {
      if done then [] else Chunks(buf, eol)
    }

    constructor (buf: seq<byte>, eol: Eol)
      ensures Remaining() == Chunks(buf, eol) && this.eol == eol
    {
      this.buf, this.eol, this.done := buf, eol, false;
    }

    method Next() returns (line: Option<seq<byte>>)
      modifies this
      ensures old(Remaining()) == [] ==> line == None && Remaining() == []
      ensures old(Remaining()) != [] ==> line == Some(old(Remaining())[0].line) && Remaining() == old(Remaining())[1..]
    {
      hide Position, Detected;
      if done {
        return None;
      }
      var resolved := eol;
      if eol == Auto {
        resolved := Detect(buf);
      }
      var term := Terminator(resolved);
      match Position(buf, term)
      case Some(i) =>
        line := Some(buf[..i]);
        buf := buf[i + |term|..];
      case None =>
        done := true;
        if buf == [] {
          return None;
        }
        line := Some(buf);
        buf := [];
    }
  }

  function LinesOf(chunks: seq<Chunk>): (lines: seq<seq<byte>>)
    ensures |lines| == |chunks|
    ensures forall i :: 0 <= i < |chunks| ==> lines[i] == chunks[i].line
  {
    seq(|chunks|, i requires 0 <= i < |chunks| => chunks[i].line)
  }

  /** `split_lines`, with the iterator run to its end. */
  method SplitLines(buf: seq<byte>, eol: Eol) returns (lines: seq<seq<byte>>)
    ensures lines == LinesOf(Chunks(buf, eol))
  {
    hide Chunks;
    var it := new LineIter(buf, eol);
    lines := [];
    ghost var all := it.Remaining();
    while true
      invariant |lines| <= |all| && it.Remaining() == all[|lines|..]
      invariant forall i :: 0 <= i < |lines| ==> lines[i] == all[i].line
      decreases |all| - |lines|
    {
      var line := it.Next();
      if line.None? {
        break;
      }
      lines := lines + [line.value];
    }
  }

  // ---- Every byte is kept ----

  function Bytes(chunks: seq<Chunk>): seq<byte> {
    if chunks == [] then [] else chunks[0].line + chunks[0].end + Bytes(chunks[1..])
  }

  predicate IsTerminator(end: seq<byte>) {
    end == [0x0d, 0x0a] || end == [0x0d] || end == [0x0a]
  }

  lemma BytesCons(c: Chunk, chunks: seq<Chunk>)
    ensures Bytes([c] + chunks) == c.line + c.end + Bytes(chunks)
  {
    assert ([c] + chunks)[1..] == chunks;
  }

  /** The lines and terminators are the buffer, cut up: nothing is lost, repeated or reordered. */
  lemma {:induction false} Partition(buf: seq<byte>, e: Eol)
    ensures Bytes(Chunks(buf, e)) == buf
    decreases |buf|
  {
    hide Resolve, Position, Bytes;
    var term := Terminator(Resolve(buf, e));
    match Position(buf, term)
    case Some(i) =>
      var rest := buf[i + |term|..];
      Partition(rest, e);
      BytesCons(Chunk(buf[..i], term), Chunks(rest, e));
      assert buf[i..i + |term|] == term;
      assert buf == buf[..i] + buf[i..i + |term|] + rest;
    case None =>
      BytesNone();
      if buf != [] {
        BytesCons(Chunk(buf, []), []);
        assert [Chunk(buf, [])] + [] == [Chunk(buf, [])];
      }
  }

  lemma BytesNone()
    ensures Bytes([]) == []
  {
  }

  /** Every line was ended by a terminator, except that the last may be a non-empty rest. */
  lemma {:induction false} EndsAreTerminators(buf: seq<byte>, e: Eol, k: nat)
    requires k < |Chunks(buf, e)|
    ensures IsTerminator(Chunks(buf, e)[k].end)
      || (k == |Chunks(buf, e)| - 1 && Chunks(buf, e)[k].end == [] && Chunks(buf, e)[k].line != [])
    decreases |buf|
  {
    hide Resolve, Position, Terminator;
    var term := Terminator(Resolve(buf, e));
    TerminatorIs(Resolve(buf, e));
    match Position(buf, term)
    case Some(i) =>
      if k > 0 {
        EndsAreTerminators(buf[i + |term|..], e, k - 1);
      }
    case None =>
  }

  lemma TerminatorIs(e: Eol)
    ensures IsTerminator(Terminator(e))
  {
  }

  // ---- Splitting undoes joining ----

  ghost predicate Free(line: seq<byte>, e: Eol) {
    forall i :: 0 <= i ==> !Occurs(line, Terminator(e), i)
  }

  function Joined(lines: seq<seq<byte>>, rest: seq<byte>, e: Eol): seq<byte> {
    if lines == [] then rest else lines[0] + Terminator(e) + Joined(lines[1..], rest, e)
  }

  function WithRest(lines: seq<seq<byte>>, rest: seq<byte>): seq<seq<byte>> {
    if rest == [] then lines else lines + [rest]
  }

  lemma OccursInPrefix(line: seq<byte>, more: seq<byte>, term: seq<byte>, j: int)
    requires 0 <= j <= |line| - |term|
    ensures Occurs(line + more, term, j) <==> Occurs(line, term, j)
  {
    assert (line + more)[j..j + |term|] == line[j..j + |term|];
  }

  /** A CRLF cannot start in the last byte of a line that another CRLF follows. */
  lemma NoOverlap(line: seq<byte>, tail: seq<byte>, j: int)
    requires j == |line| - 1 && 0 <= j
    ensures !Occurs(line + [CR, LF] + tail, [CR, LF], j)
  {
    var buf := line + [CR, LF] + tail;
    assert buf[j..j + 2][1] == buf[|line|] == CR;
  }

  /** In a line free of the terminator followed by one, the first occurrence is the one that follows. */
  lemma FirstTerminator(line: seq<byte>, e: Eol, tail: seq<byte>)
    requires Free(line, e)
    ensures Position(line + Terminator(e) + tail, Terminator(e)) == Some(|line|)
  {
    hide Position, Occurs;
    var term := Terminator(e);
    var buf := line + term + tail;
    assert buf == line + (term + tail);
    HereItIs(line, term, tail);
    forall j | 0 <= j < |line| ensures !Occurs(buf, term, j) {
      if j <= |line| - |term| {
        OccursInPrefix(line, term + tail, term, j);
      } else {
        NoOverlap(line, tail, j);
      }
    }
  }

  lemma HereItIs(line: seq<byte>, term: seq<byte>, tail: seq<byte>)
    ensures Occurs(line + term + tail, term, |line|)
  {
  }

  /** One line taken off the front of a joined buffer. */
  lemma TakeLine(line: seq<byte>, e: Eol, tail: seq<byte>)
    requires e != Auto && Free(line, e)
    ensures Chunks(line + Terminator(e) + tail, e) == [Chunk(line, Terminator(e))] + Chunks(tail, e)
  {
    hide Position, Free;
    var buf := line + Terminator(e) + tail;
    FirstTerminator(line, e, tail);
    assert buf[..|line|] == line && buf[|line| + |Terminator(e)|..] == tail;
  }

  lemma LinesCons(c: Chunk, chunks: seq<Chunk>)
    ensures LinesOf([c] + chunks) == [c.line] + LinesOf(chunks)
  {
  }

  lemma RestCons(lines: seq<seq<byte>>, rest: seq<byte>)
    requires lines != []
    ensures WithRest(lines, rest) == [lines[0]] + WithRest(lines[1..], rest)
  {
  }

  lemma {:induction false} SplitUndoesJoin(lines: seq<seq<byte>>, rest: seq<byte>, e: Eol)
    requires e != Auto && Free(rest, e) && forall i :: 0 <= i < |lines| ==> Free(lines[i], e)
    ensures LinesOf(Chunks(Joined(lines, rest, e), e)) == WithRest(lines, rest)
    decreases |lines|
  {
    hide Terminator, Free, Chunks;
    if lines == [] {
      RestOnly(rest, e);
    } else {
      hide LinesOf, WithRest;
      var tail := Joined(lines[1..], rest, e);
      TakeLine(lines[0], e, tail);
      LinesCons(Chunk(lines[0], Terminator(e)), Chunks(tail, e));
      SplitUndoesJoin(lines[1..], rest, e);
      RestCons(lines, rest);
    }
  }

  lemma RestOnly(rest: seq<byte>, e: Eol)
    requires e != Auto && Free(rest, e)
    ensures Chunks(rest, e) == if rest == [] then [] else [Chunk(rest, [])]
  {
    NoTerminator(rest, e);
  }

  lemma NoTerminator(rest: seq<byte>, e: Eol)
    requires Free(rest, e)
    ensures Position(rest, Terminator(e)) == None
  {
  }

  lemma {:induction false} LinesAreFree(buf: seq<byte>, e: Eol, k: nat)
    requires e != Auto && k < |Chunks(buf, e)|
    ensures Free(Chunks(buf, e)[k].line, e)
    decreases |buf|
  {
    hide Position;
    var term := Terminator(e);
    match Position(buf, term)
    case Some(i) =>
      if k > 0 {
        LinesAreFree(buf[i + |term|..], e, k - 1);
      } else {
        assert buf == buf[..i] + buf[i..];
        forall j | 0 <= j ensures !Occurs(buf[..i], term, j) {
          if j <= i - |term| {
            OccursInPrefix(buf[..i], buf[i..], term, j);
          }
        }
      }
    case None =>
  }

  /** Joined lines come back exactly when none of them contains the terminator. */
  lemma SplitUndoesJoinIff(lines: seq<seq<byte>>, rest: seq<byte>, e: Eol)
    requires e != Auto
    ensures LinesOf(Chunks(Joined(lines, rest, e), e)) == WithRest(lines, rest)
      <==> Free(rest, e) && forall i :: 0 <= i < |lines| ==> Free(lines[i], e)
  {
    hide Chunks, Joined, Free;
    var chunks := Chunks(Joined(lines, rest, e), e);
    if LinesOf(chunks) == WithRest(lines, rest) {
      forall k | 0 <= k < |chunks| ensures Free(LinesOf(chunks)[k], e) {
        LinesAreFree(Joined(lines, rest, e), e, k);
      }
      EmptyFree(e);
      assert rest != [] ==> LinesOf(chunks)[|lines|] == rest;
      assert forall i :: 0 <= i < |lines| ==> LinesOf(chunks)[i] == lines[i];
    }
    if Free(rest, e) && forall i :: 0 <= i < |lines| ==> Free(lines[i], e) {
      SplitUndoesJoin(lines, rest, e);
    }
  }

  lemma EmptyFree(e: Eol)
    ensures Free([], e)
  {
  }

  // ---- Automatic mode ----

  /** Automatic mode looks again before every line, so one buffer can be cut by two conventions; and the tie between
      CRLF and LF in the first look goes to CRLF. */
  lemma AutoFlips()
    ensures Chunks([0x61, 0x0d, 0x0a, 0x62, 0x0a], Auto) == [Chunk([0x61], [0x0d, 0x0a]), Chunk([0x62], [0x0a])]
  {
    hide Detected, Position;
    var a, b := [0x61, CR, LF, 0x62, LF], [0x62, LF];
    DetectExamples();
    assert a[1..3] == [CR, LF] && a[0] != CR && a[0..2][0] == a[0];
    assert Occurs(a, [CR, LF], 1) && !Occurs(a, [CR, LF], 0);
    assert a[..1] == [0x61] && a[3..] == b;
    assert b[1..2] == [LF] && b[0..1][0] == 0x62;
    assert Occurs(b, [LF], 1) && !Occurs(b, [LF], 0);
    assert b[..1] == [0x62] && b[2..] == [];
    assert Chunks([], Auto) == [];
    assert Chunks(b, Auto) == [Chunk([0x62], [LF])];
  }

  lemma DetectExamples()
    ensures Detected([0x61, CR, LF, 0x62, LF]) == Crlf && Detected([0x62, LF]) == Lf
  {
    var a, b := [0x61, CR, LF, 0x62, LF], [0x62, LF];
    assert Places(a, Crlf, 5) == {1} && Places(a, Lf, 5) == {4} && Places(a, Cr, 5) == {};
    assert Places(b, Crlf, 2) == {} && Places(b, Cr, 2) == {};
  }

  /** A line of the cut by `e` starts at `p`. */
  ghost predicate LineStart(buf: seq<byte>, e: Eol, p: int) {
    p == 0 || Occurs(buf, Terminator(e), p - |Terminator(e)|)
  }

  /** Looking at `rest`, automatic mode finds `e`, or it makes no difference because there is nothing to cut. */
  ghost predicate Agrees(rest: seq<byte>, e: Eol) {
    Detected(rest) == e || (Free(rest, e) && Free(rest, Detected(rest)))
  }

  /** Every look finds `e`, wherever a line of `e` starts. */
  ghost predicate Steady(buf: seq<byte>, e: Eol) {
    forall p :: 0 <= p <= |buf| && LineStart(buf, e, p) ==> Agrees(buf[p..], e)
  }

  lemma DetectedNotAuto(buf: seq<byte>)
    ensures Detected(buf) != Auto
  {
    hide Count;
  }

  /** The first cut: both modes make the same one exactly when the look agrees. */
  lemma FirstCut(buf: seq<byte>, e: Eol)
    requires e != Auto
    ensures !Agrees(buf, e) ==> Chunks(buf, Auto) != Chunks(buf, e)
    ensures Agrees(buf, e) && Position(buf, Terminator(e)).None? ==> Chunks(buf, Auto) == Chunks(buf, e)
    ensures Agrees(buf, e) && Position(buf, Terminator(e)).Some? ==>
      var rest := buf[Position(buf, Terminator(e)).value + |Terminator(e)|..];
      Chunks(buf, Auto) == Chunks(buf, e) <==> Chunks(rest, Auto) == Chunks(rest, e)
  {
    hide Detected, Position, Occurs;
    var d := Detected(buf);
    DetectedNotAuto(buf);
    FreeIffNone(buf, e);
    FreeIffNone(buf, d);
    if d == e {
      match Position(buf, Terminator(e))
      case None =>
      case Some(i) =>
        var first, rest := Chunk(buf[..i], Terminator(e)), buf[i + |Terminator(e)|..];
        assert Chunks(buf, Auto) == [first] + Chunks(rest, Auto) && Chunks(buf, e) == [first] + Chunks(rest, e);
        assert Chunks(buf, Auto)[1..] == Chunks(rest, Auto) && Chunks(buf, e)[1..] == Chunks(rest, e);
    } else if !Agrees(buf, e) {
      CutsDiffer(buf, d, e);
    }
  }

  lemma FreeIffNone(buf: seq<byte>, e: Eol)
    ensures Free(buf, e) <==> Position(buf, Terminator(e)).None?
  {
    hide Occurs;
  }

  /** Two conventions cut off differently ended lines, if either finds a terminator. */
  lemma CutsDiffer(buf: seq<byte>, d: Eol, e: Eol)
    requires d != e && d != Auto && e != Auto && d == Detected(buf)
    requires Position(buf, Terminator(d)).Some? || Position(buf, Terminator(e)).Some?
    ensures Chunks(buf, Auto) != Chunks(buf, e)
  {
    hide Detected, Position;
    var a, b := Chunks(buf, Auto), Chunks(buf, e);
    assert Terminator(d) != Terminator(e) by {
      assert |Terminator(d)| == |Terminator(e)| ==> Terminator(d)[0] != Terminator(e)[0];
    }
    assert Position(buf, Terminator(d)).Some? ==> a != [] && a[0].end == Terminator(d);
    assert Position(buf, Terminator(e)).Some? ==> b != [] && b[0].end == Terminator(e);
    assert Position(buf, Terminator(d)).None? && a != [] ==> a[0].end == [];
    assert Position(buf, Terminator(e)).None? && b != [] ==> b[0].end == [];
  }

  lemma OccursInSuffix(buf: seq<byte>, n: nat, term: seq<byte>, q: int)
    requires n <= |buf| && 0 <= q
    ensures Occurs(buf[n..], term, q) <==> Occurs(buf, term, n + q)
  {
    if q <= |buf| - n - |term| {
      assert buf[n..][q..q + |term|] == buf[n + q..n + q + |term|];
    }
  }

  /** After the first terminator, the line starts of the rest are the line starts of the buffer. */
  lemma StartsShift(buf: seq<byte>, e: Eol, i: nat, p: int)
    requires e != Auto && Position(buf, Terminator(e)) == Some(i)
    ensures var n := i + |Terminator(e)|;
      && n <= |buf|
      && (0 < p <= |buf| && LineStart(buf, e, p) ==> n <= p)
      && (n <= p <= |buf| ==>
            (LineStart(buf, e, p) <==> LineStart(buf[n..], e, p - n)) && buf[p..] == buf[n..][p - n..])
  {
    var term := Terminator(e);
    var n, j := i + |term|, p - |term|;
    NoOverlapAfter(buf, e, i, j);
    hide Position, Occurs, Terminator;
    OccursBounds(buf, term, j);
    assert n <= p <= |buf| ==> buf[p..] == buf[n..][p - n..];
    if n <= j {
      OccursInSuffix(buf, n, term, j - n);
    } else {
      OccursBounds(buf[n..], term, j - n);
    }
  }

  lemma OccursBounds(buf: seq<byte>, term: seq<byte>, i: int)
    ensures Occurs(buf, term, i) ==> 0 <= i
  {
  }

  /** Two terminators never overlap. */
  lemma NoOverlapAfter(buf: seq<byte>, e: Eol, i: int, j: int)
    requires Occurs(buf, Terminator(e), i) && forall k :: 0 <= k < i ==> !Occurs(buf, Terminator(e), k)
    ensures Occurs(buf, Terminator(e), j) ==> j == i || i + |Terminator(e)| <= j
  {
    assert e == Crlf ==> buf[i..i + 2][1] == buf[i + 1];
    assert e == Crlf && 0 <= j <= |buf| - 2 ==> buf[j..j + 2][0] == buf[j];
  }

  lemma SteadyStep(buf: seq<byte>, e: Eol, i: nat)
    requires e != Auto && Position(buf, Terminator(e)) == Some(i)
    ensures i + |Terminator(e)| <= |buf|
    ensures Steady(buf, e) <==> Agrees(buf, e) && Steady(buf[i + |Terminator(e)|..], e)
  {
    hide Position, Agrees, Occurs;
    var n := i + |Terminator(e)|;
    StartsShift(buf, e, i, 0);
    var rest := buf[n..];
    assert buf[0..] == buf;
    if Steady(buf, e) {
      assert LineStart(buf, e, 0);
      forall q | 0 <= q <= |rest| && LineStart(rest, e, q) ensures Agrees(rest[q..], e) {
        StartsShift(buf, e, i, q + n);
        assert LineStart(buf, e, q + n);
      }
    }
    if Agrees(buf, e) && Steady(rest, e) {
      forall p | 0 <= p <= |buf| && LineStart(buf, e, p) ensures Agrees(buf[p..], e) {
        StartsShift(buf, e, i, p);
        if p > 0 {
          assert LineStart(rest, e, p - n);
        }
      }
    }
  }

  lemma SteadyAlone(buf: seq<byte>, e: Eol)
    requires Position(buf, Terminator(e)).None?
    ensures Steady(buf, e) <==> Agrees(buf, e)
  {
    hide Position, Agrees;
    assert buf[0..] == buf && LineStart(buf, e, 0);
  }

  /** Automatic mode cuts the whole buffer by convention `e` if and only if every look, at every line start, finds
      `e` or finds nothing to cut. */
  lemma {:induction false} AutoIff(buf: seq<byte>, e: Eol)
    requires e != Auto
    ensures Chunks(buf, Auto) == Chunks(buf, e) <==> Steady(buf, e)
    decreases |buf|
  {
    hide Chunks, Position, Steady, Agrees;
    FirstCut(buf, e);
    match Position(buf, Terminator(e))
    case None => SteadyAlone(buf, e);
    case Some(i) =>
      SteadyStep(buf, e, i);
      AutoIff(buf[i + |Terminator(e)|..], e);
  }

  // ---- Buffers with one kind of line ending ----

  /** No line ending of another kind. */
  ghost predicate Pure(buf: seq<byte>, e: Eol) {
    match e
    case Lf => CR !in buf
    case Cr => LF !in buf
    case Crlf =>
      (forall k :: 0 <= k < |buf| && buf[k] == CR ==> k + 1 < |buf| && buf[k + 1] == LF)
      && (forall k :: 0 <= k < |buf| && buf[k] == LF ==> k > 0 && buf[k - 1] == CR)
    case Auto => false
  }

  /** Every terminated line, with its terminator, fits in one sample. */
  ghost predicate ShortLines(chunks: seq<Chunk>) {
    forall k :: 0 <= k < |chunks| && chunks[k].end != [] ==> |chunks[k].line| + |chunks[k].end| <= 65_536
  }

  lemma PureRest(buf: seq<byte>, e: Eol, i: nat)
    requires Pure(buf, e) && Occurs(buf, Terminator(e), i)
    ensures Pure(buf[i + |Terminator(e)|..], e)
  {
    var n := i + |Terminator(e)|;
    assert e == Crlf ==> buf[i..n][1] == buf[n - 1] == LF;
    assert forall k :: 0 <= k < |buf[n..]| ==> buf[n..][k] == buf[n + k];
  }

  lemma DetectedPureLf(buf: seq<byte>)
    requires CR !in buf
    ensures Detected(buf) == Lf
  {
    var b := Sample(buf);
    assert forall k :: 0 <= k < |b| ==> b[k] == buf[k];
    assert Places(b, Crlf, |b|) == {} && Places(b, Cr, |b|) == {};
  }

  lemma DetectedPureCr(buf: seq<byte>, i: nat)
    requires LF !in buf && i < |buf| && buf[i] == CR && CR !in buf[..i]
    ensures Detected(buf) == Cr <==> i + 1 <= SAMPLE_LIMIT
  {
    var b := Sample(buf);
    assert forall k :: 0 <= k < |b| ==> b[k] == buf[k];
    assert forall k :: 0 <= k < i ==> buf[k] == buf[..i][k];
    assert Places(b, Crlf, |b|) == {} && Places(b, Lf, |b|) == {};
    if i < SAMPLE_LIMIT {
      assert i in Places(b, Cr, |b|);
    } else {
      assert Places(b, Cr, |b|) == {};
    }
  }

  lemma DetectedPureCrlf(buf: seq<byte>, i: nat)
    requires Pure(buf, Crlf) && i < |buf| && buf[i] == CR && CR !in buf[..i]
    ensures Detected(buf) == Crlf <==> i + 2 <= SAMPLE_LIMIT
  {
    var b := Sample(buf);
    assert forall k :: 0 <= k < |b| ==> b[k] == buf[k];
    assert forall k :: 0 <= k < i ==> buf[k] == buf[..i][k];
    assert Places(b, Lf, |b|) == {};
    var last := {|b| - 1};
    assert Places(b, Cr, |b|) <= last;
    SubsetSize(Places(b, Cr, |b|), last);
    if i + 2 <= SAMPLE_LIMIT {
      assert i in Places(b, Crlf, |b|);
    } else {
      assert Places(b, Crlf, |b|) == {};
    }
  }

  /** What a look at a pure buffer finds. */
  lemma PureAgrees(buf: seq<byte>, e: Eol)
    requires Pure(buf, e)
    ensures Agrees(buf, e) <==> match Position(buf, Terminator(e))
                                case None => true
                                case Some(i) => e == Lf || i + |Terminator(e)| <= SAMPLE_LIMIT
  {
    hide Detected, Position;
    FreeIffNone(buf, e);
    match Position(buf, Terminator(e))
    case None => PureNothing(buf, e);
    case Some(i) =>
      PureFirst(buf, e, i);
  }

  lemma CrIsEnd(buf: seq<byte>, e: Eol, k: nat)
    requires Pure(buf, e) && e != Lf && k < |buf| && buf[k] == CR
    ensures Occurs(buf, Terminator(e), k)
  {
    assert buf[k..k + |Terminator(e)|] == Terminator(e);
  }

  lemma NoBareLf(buf: seq<byte>, e: Eol, k: nat)
    requires Pure(buf, e) && e != Lf && CR !in buf && k < |buf|
    ensures buf[k] != LF
  {
    assert k > 0 ==> buf[k - 1] in buf;
  }

  lemma NoLfHere(buf: seq<byte>, j: int)
    requires forall k :: 0 <= k < |buf| ==> buf[k] != LF
    ensures !Occurs(buf, [LF], j)
  {
    assert 0 <= j < |buf| ==> buf[j..j + 1][0] == buf[j];
  }

  lemma PureNothing(buf: seq<byte>, e: Eol)
    requires Pure(buf, e) && Free(buf, e)
    ensures Agrees(buf, e)
  {
    hide Detected;
    if e != Lf {
      forall k | 0 <= k < |buf| && buf[k] == CR ensures Occurs(buf, Terminator(e), k) {
        CrIsEnd(buf, e, k);
      }
      hide Occurs;
      forall k | 0 <= k < |buf| ensures buf[k] != LF {
        NoBareLf(buf, e, k);
      }
      forall j: int ensures !Occurs(buf, [LF], j) {
        NoLfHere(buf, j);
      }
    }
    DetectedPureLf(buf);
  }

  lemma PureFirst(buf: seq<byte>, e: Eol, i: nat)
    requires Pure(buf, e) && Position(buf, Terminator(e)) == Some(i)
    ensures Detected(buf) == e <==> e == Lf || i + |Terminator(e)| <= SAMPLE_LIMIT
  {
    hide Detected, Position;
    if e == Lf {
      DetectedPureLf(buf);
    } else {
      assert buf[i] == buf[i..i + |Terminator(e)|][0] == CR;
      forall k | 0 <= k < |buf| && buf[k] == CR ensures Occurs(buf, Terminator(e), k) {
        CrIsEnd(buf, e, k);
      }
      if e == Cr {
        DetectedPureCr(buf, i);
      } else {
        DetectedPureCrlf(buf, i);
      }
    }
  }

  /** A buffer with one kind of line ending: LF always comes out as LF; CR and CRLF come out as what they are if and
      only if no terminated line is longer than the sample. */
  lemma {:induction false} AutoOnPureIff(buf: seq<byte>, e: Eol)
    requires Pure(buf, e)
    ensures Chunks(buf, Auto) == Chunks(buf, e) <==> e == Lf || ShortLines(Chunks(buf, e))
    decreases |buf|
  {
    hide Position, Agrees, Pure, Occurs, ShortLines, Detected;
    PureNotAuto(buf, e);
    FirstCut(buf, e);
    PureAgrees(buf, e);
    match Position(buf, Terminator(e))
    case None => ShortAlone(buf);
    case Some(i) =>
      var rest := buf[i + |Terminator(e)|..];
      PureRest(buf, e, i);
      AutoOnPureIff(rest, e);
      ShortCons(Chunk(buf[..i], Terminator(e)), Chunks(rest, e));
  }

  lemma ShortAlone(buf: seq<byte>)
    ensures ShortLines([]) && ShortLines([Chunk(buf, [])])
  {
  }

  lemma PureNotAuto(buf: seq<byte>, e: Eol)
    requires Pure(buf, e)
    ensures e != Auto
  {
  }

  lemma ShortCons(c: Chunk, chunks: seq<Chunk>)
    requires c.end != []
    ensures ShortLines([c] + chunks) <==> |c.line| + |c.end| <= SAMPLE_LIMIT && ShortLines(chunks)
  {
    var all := [c] + chunks;
    assert all[0] == c && forall k :: 0 <= k < |chunks| ==> all[k + 1] == chunks[k];
  }
}
