/**
 * The stored (uncompressed) subset of the ZIP format: sections 4.3.7, 4.3.12, 4.3.16 and 4.4.7 of
 * PKWARE's APPNOTE.TXT, first as the bytes the writers emit, then as a reader.
 */
module ZipFormat {
  import opened Octets
  import opened Results
  import Crc32

  const LOCAL_SIGNATURE: nat := 0x0403_4b50
  const CENTRAL_SIGNATURE: nat := 0x0201_4b50
  const END_SIGNATURE: nat := 0x0605_4b50
  const VERSION: nat := 20
  const UTF8_NAMES: nat := 0x0800

  datatype File = File(name: seq<byte>, body: seq<byte>)
  datatype Stamp = Stamp(time: nat, date: nat)
  datatype Entry = Entry(name: seq<byte>, crc32: nat, size: nat, localOffset: nat)

  function LocalHeader(e: Entry, stamp: Stamp): (s: seq<byte>)
    ensures |s| == 30 + |e.name|
  {
    LE32(LOCAL_SIGNATURE) + (LE16(VERSION) + (LE16(UTF8_NAMES) + (LE16(0) +
    (LE16(stamp.time) + (LE16(stamp.date) + (LE32(e.crc32) + (LE32(e.size) + (LE32(e.size) +
    (LE16(|e.name|) + (LE16(0) + e.name))))))))))
  }

  function CentralHeader(e: Entry, stamp: Stamp): (s: seq<byte>)
    ensures |s| == 46 + |e.name|
  {
    LE32(CENTRAL_SIGNATURE) + (LE16(VERSION) + (LE16(VERSION) + (LE16(UTF8_NAMES) + (LE16(0) +
    (LE16(stamp.time) + (LE16(stamp.date) + (LE32(e.crc32) + (LE32(e.size) + (LE32(e.size) +
    (LE16(|e.name|) + (LE16(0) + (LE16(0) + (LE16(0) + (LE16(0) + (LE32(0) +
    (LE32(e.localOffset) + e.name))))))))))))))))
  }

  function EndRecord(count: nat, centralSize: nat, centralOffset: nat): (s: seq<byte>)
    ensures |s| == 22
  {
    LE32(END_SIGNATURE) + (LE16(0) + (LE16(0) + (LE16(count) + (LE16(count) +
    (LE32(centralSize) + (LE32(centralOffset) + LE16(0)))))))
  }

  /** Bytes taken by the first `k` files with their local headers. */
  function LocalSize(files: seq<File>, k: nat): nat
    requires k <= |files|
  {
    if k == 0 then 0 else LocalSize(files, k - 1) + 30 + |files[k - 1].name| + |files[k - 1].body|
  }

  function CentralSize(files: seq<File>, k: nat): nat
    requires k <= |files|
  {
    if k == 0 then 0 else CentralSize(files, k - 1) + 46 + |files[k - 1].name|
  }

  /** The directory entry of the `k`-th file. */
  function Describe(files: seq<File>, k: nat): Entry
    requires k < |files|
  {
    Entry(files[k].name, Value(Crc32.Crc(files[k].body)), |files[k].body|, LocalSize(files, k))
  }

  function Locals(files: seq<File>, stamp: Stamp, k: nat): (s: seq<byte>)
    requires k <= |files|
    ensures |s| == LocalSize(files, k)
  {
    if k == 0 then []
    else Locals(files, stamp, k - 1) + (LocalHeader(Describe(files, k - 1), stamp) + files[k - 1].body)
  }

  function Centrals(files: seq<File>, stamp: Stamp, k: nat): (s: seq<byte>)
    requires k <= |files|
    ensures |s| == CentralSize(files, k)
  {
    if k == 0 then [] else Centrals(files, stamp, k - 1) + CentralHeader(Describe(files, k - 1), stamp)
  }

  /** A whole archive, with every length and offset pushed through its narrowing cast. */
  function Archive(files: seq<File>, stamp: Stamp): seq<byte> {
    var n := |files|;
    Locals(files, stamp, n) + Centrals(files, stamp, n) + EndRecord(n, CentralSize(files, n), LocalSize(files, n))
  }

  /** Every length and offset an archive of `files` stores fits its 16- or 32-bit field. */
  ghost predicate Fits(files: seq<File>) {
    && |files| <= U16_MAX
    && LocalSize(files, |files|) <= U32_MAX
    && CentralSize(files, |files|) <= U32_MAX
    && forall k :: 0 <= k < |files| ==> |files[k].name| <= U16_MAX && |files[k].body| <= U32_MAX
  }

  // ---- The reader: end record, then central directory, then local headers ----

  datatype Member = Member(name: seq<byte>, crc32: nat, body: seq<byte>)

  function U16At(z: seq<byte>, off: nat): nat
    requires off + 2 <= |z|
  {
    FromLE16(z[off], z[off + 1])
  }

  function U32At(z: seq<byte>, off: nat): nat
    requires off + 4 <= |z|
  {
    FromLE32(z[off], z[off + 1], z[off + 2], z[off + 3])
  }

  /** Search backwards for an end record whose comment runs to the end of the file. */
  function FindEnd(z: seq<byte>, pos: nat): (end: Option<nat>)
    requires pos + 22 <= |z|
    ensures end.Some? ==> end.value <= pos
  {
    if U32At(z, pos) == END_SIGNATURE && pos + 22 + U16At(z, pos + 20) == |z| then Some(pos)
    else if pos == 0 then None
    else FindEnd(z, pos - 1)
  }

  /** The body behind a directory entry, if its local header agrees with the directory. */
  function ReadLocal(z: seq<byte>, e: Entry): Option<seq<byte>> {
    var off := e.localOffset;
    if off + 30 > |z| || U32At(z, off) != LOCAL_SIGNATURE || U16At(z, off + 8) != 0 then None
    else if U32At(z, off + 14) != e.crc32 || U32At(z, off + 18) != e.size || U32At(z, off + 22) != e.size then None
    else
      var nameEnd := off + 30 + U16At(z, off + 26);
      var start := nameEnd + U16At(z, off + 28);
      if start + e.size > |z| || z[off + 30..nameEnd] != e.name then None
      else
        var body := z[start..start + e.size];
        if Value(Crc32.Crc(body)) != e.crc32 then None else Some(body)
  }

  function ReadCentral(z: seq<byte>, pos: nat, end: nat, count: nat): Option<seq<Member>>
    requires end <= |z|
    decreases count
  {
    if count == 0 then (if pos == end then Some([]) else None)
    else if pos + 46 > end || U32At(z, pos) != CENTRAL_SIGNATURE || U16At(z, pos + 10) != 0 then None
    else
      var nameEnd := pos + 46 + U16At(z, pos + 28);
      var next := nameEnd + U16At(z, pos + 30) + U16At(z, pos + 32);
      if next > end || U32At(z, pos + 20) != U32At(z, pos + 24) then None
      else
        var e := Entry(z[pos + 46..nameEnd], U32At(z, pos + 16), U32At(z, pos + 20), U32At(z, pos + 42));
        match ReadLocal(z, e)
        case None => None
        case Some(body) =>
          match ReadCentral(z, next, end, count - 1)
          case None => None
          case Some(rest) => Some([Member(e.name, e.crc32, body)] + rest)
  }

  function ReadArchive(z: seq<byte>): Option<seq<Member>> {
    if |z| < 22 then None
    else
      match FindEnd(z, |z| - 22)
      case None => None
      case Some(end) =>
        if U16At(z, end + 8) != U16At(z, end + 10) || U32At(z, end + 16) + U32At(z, end + 12) != end then None
        else ReadCentral(z, U32At(z, end + 16), end, U16At(z, end + 10))
  }

  function MembersFrom(files: seq<File>, k: nat): seq<Member>
    requires k <= |files|
    decreases |files| - k
  {
    if k == |files| then []
    else [Member(files[k].name, Value(Crc32.Crc(files[k].body)), files[k].body)] + MembersFrom(files, k + 1)
  }

  /** What a reader should see of `files`: every name, checksum and body, in order. */
  function Members(files: seq<File>): seq<Member> {
    MembersFrom(files, 0)
  }

  // ---- Fields found where the layout put them ----

  ghost predicate At(z: seq<byte>, off: nat, s: seq<byte>) {
    off + |s| <= |z| && z[off..off + |s|] == s
  }

  lemma Peel(z: seq<byte>, off: nat, a: seq<byte>, b: seq<byte>)
    requires At(z, off, a + b)
    ensures At(z, off, a) && At(z, off + |a|, b)
  {
    var s := z[off..off + |a + b|];
    assert a == s[..|a|] && b == s[|a|..];
  }

  lemma Slice(z: seq<byte>, off: nat, s: seq<byte>)
    requires At(z, off, s)
    ensures off + |s| <= |z| && z[off..off + |s|] == s
  {
  }

  lemma Field16(z: seq<byte>, off: nat, value: nat, rest: seq<byte>)
    requires At(z, off, LE16(value) + rest)
    ensures off + 2 <= |z| && U16At(z, off) == value % 0x1_0000
    ensures At(z, off + 2, rest)
  {
    Peel(z, off, LE16(value), rest);
    LE16RoundTrip(value);
    assert z[off] == z[off..off + 2][0] && z[off + 1] == z[off..off + 2][1];
  }

  lemma Field32(z: seq<byte>, off: nat, value: nat, rest: seq<byte>)
    requires At(z, off, LE32(value) + rest)
    ensures off + 4 <= |z| && U32At(z, off) == value % 0x1_0000_0000
    ensures At(z, off + 4, rest)
  {
    Peel(z, off, LE32(value), rest);
    LE32RoundTrip(value);
    var s := z[off..off + 4];
    assert z[off] == s[0] && z[off + 1] == s[1] && z[off + 2] == s[2] && z[off + 3] == s[3];
  }

  lemma LocalFields(z: seq<byte>, off: nat, e: Entry, stamp: Stamp)
    requires At(z, off, LocalHeader(e, stamp))
    ensures U32At(z, off) == 0x0403_4b50 && U16At(z, off + 4) == 20 && U16At(z, off + 6) == 0x0800
    ensures U16At(z, off + 8) == 0
    ensures U16At(z, off + 10) == stamp.time % 0x1_0000 && U16At(z, off + 12) == stamp.date % 0x1_0000
    ensures U32At(z, off + 14) == e.crc32 % 0x1_0000_0000
    ensures U32At(z, off + 18) == U32At(z, off + 22) == e.size % 0x1_0000_0000
    ensures U16At(z, off + 26) == |e.name| % 0x1_0000 && U16At(z, off + 28) == 0
    ensures At(z, off + 30, e.name)
  {
    hide At, U16At, U32At, LE16, LE32;
    var r0 := LE16(0) + e.name;
    var r1 := LE16(|e.name|) + r0;
    var r2 := LE32(e.size) + r1;
    var r3 := LE32(e.size) + r2;
    var r4 := LE32(e.crc32) + r3;
    var r5 := LE16(stamp.date) + r4;
    var r6 := LE16(stamp.time) + r5;
    var r7 := LE16(0) + r6;
    var r8 := LE16(UTF8_NAMES) + r7;
    var r9 := LE16(VERSION) + r8;
    Field32(z, off, LOCAL_SIGNATURE, r9);
    Field16(z, off + 4, VERSION, r8);
    Field16(z, off + 6, UTF8_NAMES, r7);
    Field16(z, off + 8, 0, r6);
    Field16(z, off + 10, stamp.time, r5);
    Field16(z, off + 12, stamp.date, r4);
    Field32(z, off + 14, e.crc32, r3);
    Field32(z, off + 18, e.size, r2);
    Field32(z, off + 22, e.size, r1);
    Field16(z, off + 26, |e.name|, r0);
    Field16(z, off + 28, 0, e.name);
  }

  lemma CentralFields(z: seq<byte>, off: nat, e: Entry, stamp: Stamp)
    requires At(z, off, CentralHeader(e, stamp))
    ensures U32At(z, off) == 0x0201_4b50 && U16At(z, off + 4) == U16At(z, off + 6) == 20
    ensures U16At(z, off + 8) == 0x0800 && U16At(z, off + 10) == 0
    ensures U16At(z, off + 12) == stamp.time % 0x1_0000 && U16At(z, off + 14) == stamp.date % 0x1_0000
    ensures U32At(z, off + 16) == e.crc32 % 0x1_0000_0000
    ensures U32At(z, off + 20) == U32At(z, off + 24) == e.size % 0x1_0000_0000
    ensures U16At(z, off + 28) == |e.name| % 0x1_0000 && U16At(z, off + 30) == 0 && U16At(z, off + 32) == 0
    ensures U16At(z, off + 34) == 0 && U16At(z, off + 36) == 0 && U32At(z, off + 38) == 0
    ensures U32At(z, off + 42) == e.localOffset % 0x1_0000_0000
    ensures At(z, off + 46, e.name)
  {
    hide At, U16At, U32At, LE16, LE32;
    var r0 := LE32(e.localOffset) + e.name;
    var r1 := LE32(0) + r0;
    var r2 := LE16(0) + r1;
    var r3 := LE16(0) + r2;
    var r4 := LE16(0) + r3;
    var r5 := LE16(0) + r4;
    var r6 := LE16(|e.name|) + r5;
    var r7 := LE32(e.size) + r6;
    var r8 := LE32(e.size) + r7;
    var r9 := LE32(e.crc32) + r8;
    var r10 := LE16(stamp.date) + r9;
    var r11 := LE16(stamp.time) + r10;
    var r12 := LE16(0) + r11;
    var r13 := LE16(UTF8_NAMES) + r12;
    var r14 := LE16(VERSION) + r13;
    var r15 := LE16(VERSION) + r14;
    Field32(z, off, CENTRAL_SIGNATURE, r15);
    Field16(z, off + 4, VERSION, r14);
    Field16(z, off + 6, VERSION, r13);
    Field16(z, off + 8, UTF8_NAMES, r12);
    Field16(z, off + 10, 0, r11);
    Field16(z, off + 12, stamp.time, r10);
    Field16(z, off + 14, stamp.date, r9);
    Field32(z, off + 16, e.crc32, r8);
    Field32(z, off + 20, e.size, r7);
    Field32(z, off + 24, e.size, r6);
    Field16(z, off + 28, |e.name|, r5);
    Field16(z, off + 30, 0, r4);
    Field16(z, off + 32, 0, r3);
    Field16(z, off + 34, 0, r2);
    Field16(z, off + 36, 0, r1);
    Field32(z, off + 38, 0, r0);
    Field32(z, off + 42, e.localOffset, e.name);
  }

  lemma EndFields(z: seq<byte>, off: nat, count: nat, centralSize: nat, centralOffset: nat)
    requires At(z, off, EndRecord(count, centralSize, centralOffset))
    ensures U32At(z, off) == 0x0605_4b50 && U16At(z, off + 4) == 0 && U16At(z, off + 6) == 0
    ensures U16At(z, off + 8) == U16At(z, off + 10) == count % 0x1_0000
    ensures U32At(z, off + 12) == centralSize % 0x1_0000_0000
    ensures U32At(z, off + 16) == centralOffset % 0x1_0000_0000
    ensures U16At(z, off + 20) == 0
  {
    hide At, U16At, U32At, LE16, LE32;
    var r0 := LE16(0);
    var r1 := LE32(centralOffset) + r0;
    var r2 := LE32(centralSize) + r1;
    var r3 := LE16(count) + r2;
    var r4 := LE16(count) + r3;
    var r5 := LE16(0) + r4;
    var r6 := LE16(0) + r5;
    Field32(z, off, END_SIGNATURE, r6);
    Field16(z, off + 4, 0, r5);
    Field16(z, off + 6, 0, r4);
    Field16(z, off + 8, count, r3);
    Field16(z, off + 10, count, r2);
    Field32(z, off + 12, centralSize, r1);
    Field32(z, off + 16, centralOffset, r0);
    assert r0 == LE16(0) + [];
    Field16(z, off + 20, 0, []);
  }

  // ---- Where each part of an archive lies ----

  lemma {:induction false} LocalAt(z: seq<byte>, files: seq<File>, stamp: Stamp, n: nat, k: nat)
    requires k < n <= |files| && At(z, 0, Locals(files, stamp, n))
    ensures At(z, LocalSize(files, k), LocalHeader(Describe(files, k), stamp) + files[k].body)
    ensures LocalSize(files, k) + 30 + |files[k].name| + |files[k].body| <= LocalSize(files, n)
    decreases n
  {
    hide At, LocalHeader, Describe;
    Peel(z, 0, Locals(files, stamp, n - 1), LocalHeader(Describe(files, n - 1), stamp) + files[n - 1].body);
    if k < n - 1 {
      LocalAt(z, files, stamp, n - 1, k);
    }
  }

  lemma {:induction false} CentralAt(z: seq<byte>, base: nat, files: seq<File>, stamp: Stamp, n: nat, k: nat)
    requires k < n <= |files| && At(z, base, Centrals(files, stamp, n))
    ensures At(z, base + CentralSize(files, k), CentralHeader(Describe(files, k), stamp))
    ensures CentralSize(files, k) + 46 + |files[k].name| <= CentralSize(files, n)
    decreases n
  {
    hide At, CentralHeader, Describe;
    Peel(z, base, Centrals(files, stamp, n - 1), CentralHeader(Describe(files, n - 1), stamp));
    if k < n - 1 {
      CentralAt(z, base, files, stamp, n - 1, k);
    }
  }

  lemma ArchiveParts(files: seq<File>, stamp: Stamp)
    ensures var z, n := Archive(files, stamp), |files|;
      var l, c := LocalSize(files, n), CentralSize(files, n);
      && |z| == l + c + 22
      && At(z, 0, Locals(files, stamp, n)) && At(z, l, Centrals(files, stamp, n)) && At(z, l + c, EndRecord(n, c, l))
  {
    hide Locals, Centrals, EndRecord, LocalSize, CentralSize;
  }

  lemma CrcFitsWord(body: seq<byte>)
    ensures Value(Crc32.Crc(body)) <= U32_MAX
  {
    var w := Crc32.Crc(body);
    BitsOfValue(w);
    BitStreamOfLE32(Value(w));
    Crc32.PowersOfTwo();
    assert Shl(1, 32) == 2 * Shl(1, 31);
  }

  lemma ReadLocalBack(z: seq<byte>, files: seq<File>, stamp: Stamp, k: nat)
    requires k < |files| && At(z, 0, Locals(files, stamp, |files|))
    requires |files[k].name| <= U16_MAX && |files[k].body| <= U32_MAX
    ensures ReadLocal(z, Describe(files, k)) == Some(files[k].body)
  {
    hide At, LocalHeader, U16At, U32At, Crc32.Crc, Value;
    var e, body := Describe(files, k), files[k].body;
    var off := e.localOffset;
    LocalAt(z, files, stamp, |files|, k);
    Peel(z, off, LocalHeader(e, stamp), body);
    LocalFields(z, off, e, stamp);
    CrcFitsWord(body);
    Slice(z, off + 30, e.name);
    Slice(z, off + 30 + |e.name|, body);
  }

  /** One directory entry read from where the writer put it. */
  lemma ReadCentralStep(z: seq<byte>, pos: nat, end: nat, count: nat, e: Entry, stamp: Stamp)
    requires At(z, pos, CentralHeader(e, stamp)) && pos + 46 + |e.name| <= end <= |z| && count > 0
    requires e.crc32 <= U32_MAX && e.size <= U32_MAX && e.localOffset <= U32_MAX && |e.name| <= U16_MAX
    requires ReadLocal(z, e).Some? && ReadCentral(z, pos + 46 + |e.name|, end, count - 1).Some?
    ensures ReadCentral(z, pos, end, count)
         == Some([Member(e.name, e.crc32, ReadLocal(z, e).value)]
                 + ReadCentral(z, pos + 46 + |e.name|, end, count - 1).value)
  {
    hide At, CentralHeader, U16At, U32At, ReadLocal;
    CentralFields(z, pos, e, stamp);
    Slice(z, pos + 46, e.name);
  }

  lemma {:induction false} ReadCentralBack(z: seq<byte>, files: seq<File>, stamp: Stamp, k: nat)
    requires k <= |files|
    requires At(z, 0, Locals(files, stamp, |files|))
    requires At(z, LocalSize(files, |files|), Centrals(files, stamp, |files|))
    requires LocalSize(files, |files|) + CentralSize(files, |files|) <= |z|
    requires Fits(files)
    ensures var n := |files|; var l := LocalSize(files, n);
      ReadCentral(z, l + CentralSize(files, k), l + CentralSize(files, n), n - k) == Some(MembersFrom(files, k))
    decreases |files| - k
  {
    hide At, CentralHeader, Crc32.Crc, Value, ReadLocal, Locals, Centrals, LocalSize, U16At, U32At;
    var n := |files|;
    var l := LocalSize(files, n);
    if k < n {
      hide ReadCentral;
      CentralAt(z, l, files, stamp, n, k);
      LocalAt(z, files, stamp, n, k);
      CrcFitsWord(files[k].body);
      ReadLocalBack(z, files, stamp, k);
      ReadCentralBack(z, files, stamp, k + 1);
      ReadCentralStep(z, l + CentralSize(files, k), l + CentralSize(files, n), n - k, Describe(files, k), stamp);
    }
  }

  /** What the end record of an archive tells a reader. */
  lemma ReadEnd(files: seq<File>, stamp: Stamp)
    ensures var z, n := Archive(files, stamp), |files|;
      var l, c := LocalSize(files, n), CentralSize(files, n);
      var base, size := l % 0x1_0000_0000, c % 0x1_0000_0000;
      && l + c <= |z|
      && ReadArchive(z) == if base + size != l + c then None else ReadCentral(z, base, l + c, n % 0x1_0000)
  {
    hide At, EndRecord, U16At, U32At, ReadCentral, Archive, Locals, Centrals, LocalSize, CentralSize;
    var z, n := Archive(files, stamp), |files|;
    var l, c := LocalSize(files, n), CentralSize(files, n);
    ArchiveParts(files, stamp);
    EndFields(z, l + c, n, c, l);
  }

  lemma FitsBounds(files: seq<File>)
    requires Fits(files)
    ensures |files| <= U16_MAX && LocalSize(files, |files|) <= U32_MAX && CentralSize(files, |files|) <= U32_MAX
  {
  }

  /** The round trip: an archive whose numbers fit their fields reads back as the files put in. */
  lemma RoundTrip(files: seq<File>, stamp: Stamp)
    requires Fits(files)
    ensures ReadArchive(Archive(files, stamp)) == Some(Members(files))
  {
    hide At, ReadArchive, ReadCentral, Archive, Locals, Centrals, LocalSize, MembersFrom, Fits;
    ArchiveParts(files, stamp);
    ReadEnd(files, stamp);
    ReadCentralBack(Archive(files, stamp), files, stamp, 0);
    FitsBounds(files);
    var n := |files|;
    var l, c := LocalSize(files, n), CentralSize(files, n);
    assert l % 0x1_0000_0000 == l && c % 0x1_0000_0000 == c && n % 0x1_0000 == n;
  }

  /** When the directory has outgrown 32-bit offsets, no files come back. */
  lemma OverflowUnreadable(files: seq<File>, stamp: Stamp)
    requires LocalSize(files, |files|) > U32_MAX || CentralSize(files, |files|) > U32_MAX
    ensures ReadArchive(Archive(files, stamp)) == None
  {
    hide ReadArchive, ReadCentral, Archive, LocalSize, CentralSize;
    ReadEnd(files, stamp);
  }
}
