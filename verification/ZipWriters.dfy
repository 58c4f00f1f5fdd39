/** The two programs that write archives: the server's streaming writer and the browser's fallback. */
module ZipWriters {
  import opened Octets
  import opened Results
  import opened ZipFormat
  import Crc32

  datatype ZipError = NameTooLong | TooLarge | TooManyFiles

  /** The server always stamps entries with 1980-01-01 00:00. */
  const EPOCH: Stamp := Stamp(0, 33)

  const BACKSLASH: byte := 0x5c
  const SLASH: byte := 0x2f

  /** `name.replace('\\', "/")`. */
  function Normalize(name: seq<byte>): (r: seq<byte>)
    ensures |r| == |name|
    ensures forall i :: 0 <= i < |r| ==> r[i] == if name[i] == '\\' as int then '/' as int else name[i]
  {
    seq(|name|, i requires 0 <= i < |name| => if name[i] == BACKSLASH then SLASH else name[i])
  }

  // ---- Appending a file leaves what was written before it in place ----

  lemma {:induction false} SizesExtend(files: seq<File>, f: File, k: nat)
    requires k <= |files|
    ensures LocalSize(files + [f], k) == LocalSize(files, k)
    ensures CentralSize(files + [f], k) == CentralSize(files, k)
  {
    if k > 0 {
      SizesExtend(files, f, k - 1);
    }
  }

  lemma DescribeExtend(files: seq<File>, f: File, k: nat)
    requires k < |files|
    ensures Describe(files + [f], k) == Describe(files, k)
  {
    SizesExtend(files, f, k);
  }

  lemma {:induction false} LocalsExtend(files: seq<File>, f: File, stamp: Stamp, k: nat)
    requires k <= |files|
    ensures Locals(files + [f], stamp, k) == Locals(files, stamp, k)
  {
    hide LocalHeader, Describe;
    if k > 0 {
      LocalsExtend(files, f, stamp, k - 1);
      DescribeExtend(files, f, k - 1);
    }
  }

  lemma {:induction false} CentralsExtend(files: seq<File>, f: File, stamp: Stamp, k: nat)
    requires k <= |files|
    ensures Centrals(files + [f], stamp, k) == Centrals(files, stamp, k)
  {
    hide CentralHeader, Describe;
    if k > 0 {
      CentralsExtend(files, f, stamp, k - 1);
      DescribeExtend(files, f, k - 1);
    }
  }

  lemma AppendOne(files: seq<File>, f: File, stamp: Stamp)
    ensures var all, n := files + [f], |files|;
      && Describe(all, n) == Entry(f.name, Value(Crc32.Crc(f.body)), |f.body|, LocalSize(files, n))
      && Locals(all, stamp, n + 1) == Locals(files, stamp, n) + (LocalHeader(Describe(all, n), stamp) + f.body)
      && LocalSize(all, n + 1) == LocalSize(files, n) + 30 + |f.name| + |f.body|
      && CentralSize(all, n + 1) == CentralSize(files, n) + 46 + |f.name|
      && Centrals(all, stamp, n + 1) == Centrals(files, stamp, n) + CentralHeader(Describe(all, n), stamp)
  {
    hide LocalHeader, CentralHeader, Crc32.Crc, Value;
    SizesExtend(files, f, |files|);
    LocalsExtend(files, f, stamp, |files|);
    CentralsExtend(files, f, stamp, |files|);
  }

  /**
   * The running offset is the number of bytes written, the directory describes exactly the files
   * written, and nothing written so far lost bits to a cast.
   */
  ghost predicate Written(files: seq<File>, out: seq<byte>, central: seq<Entry>, offset: nat) {
    && out == Locals(files, EPOCH, |files|)
    && offset == |out|
    && |central| == |files|
    && (forall k :: 0 <= k < |files| ==> central[k] == Describe(files, k))
    && (forall k :: 0 <= k < |files| ==>
          |files[k].name| <= U16_MAX && |files[k].body| <= U32_MAX && central[k].localOffset <= U32_MAX)
  }

  lemma WrittenOffset(files: seq<File>, out: seq<byte>, central: seq<Entry>, offset: nat)
    requires Written(files, out, central, offset)
    ensures offset == LocalSize(files, |files|)
  {
    hide Locals, Describe;
  }

  lemma WrittenAppend(files: seq<File>, out: seq<byte>, central: seq<Entry>, offset: nat, f: File, entry: Entry)
    requires Written(files, out, central, offset)
    requires |f.name| <= U16_MAX && |f.body| <= U32_MAX && offset <= U32_MAX
    requires entry == Entry(f.name, Value(Crc32.Crc(f.body)), |f.body|, offset)
    ensures Written(files + [f], out + (LocalHeader(entry, EPOCH) + f.body), central + [entry],
                    offset + 30 + |f.name| + |f.body|)
  {
    hide LocalHeader, Crc32.Crc, Value, Locals, LocalSize, Describe;
    var all, central' := files + [f], central + [entry];
    AppendOne(files, f, EPOCH);
    forall k | 0 <= k < |all|
      ensures central'[k] == Describe(all, k) && central'[k].localOffset <= U32_MAX
    {
      if k < |files| {
        DescribeExtend(files, f, k);
      }
    }
  }

  lemma DescribeFits(files: seq<File>, k: nat)
    requires k < |files|
    ensures Describe(files, k).name == files[k].name && Describe(files, k).size == |files[k].body|
  {
  }

  class StoredZipWriter {
    var out: seq<byte>
    var central: seq<Entry>
    var offset: nat
    ghost var files: seq<File>

    ghost predicate Valid()
      reads this
    {
      Written(files, out, central, offset)
    }

    constructor Create()
      ensures Valid() && files == []
    {
      out, central, offset, files := [], [], 0, [];
    }

    /**
     * `append_file_from_path`: `chunks` are the buffers in which the checksum pass reads the file,
     * whose content is the same when it is copied.
     */
    method AppendFile(name: seq<byte>, chunks: seq<seq<byte>>) returns (r: Result<(), ZipError>)
      requires Valid()
      requires forall k :: 0 <= k < |chunks| ==> 0 < |chunks[k]| <= 64 * 1024
      modifies this
      ensures Valid()
      ensures |name| > U16_MAX ==> r == Err(NameTooLong)
      ensures |name| <= U16_MAX && (|Flatten(chunks)| > U32_MAX || old(offset) > U32_MAX) ==> r == Err(TooLarge)
      ensures |name| <= U16_MAX && |Flatten(chunks)| <= U32_MAX && old(offset) <= U32_MAX ==> r.Ok?
      ensures files == old(files) + if r.Ok? then [File(Normalize(name), Flatten(chunks))] else []
    {
      hide Written, LocalHeader, Crc32.Crc, Value;
      var normalized := Normalize(name);
      if |normalized| > U16_MAX {
        return Err(NameTooLong);
      }
      var crc32, size := Crc32.Crc32File(chunks);
      if size > U32_MAX || offset > U32_MAX {
        return Err(TooLarge);
      }
      var entry := Entry(normalized, Value(crc32), size, offset);
      var body := Flatten(chunks);
      WrittenAppend(files, out, central, offset, File(normalized, body), entry);
      out := out + (LocalHeader(entry, EPOCH) + body);
      offset := offset + 30 + |normalized|;
      offset := offset + size;
      central := central + [entry];
      files := files + [File(normalized, body)];
      return Ok(());
    }

    /** The loop of `finish`. Its own range checks cannot fire: `AppendFile` already made them. */
    method WriteDirectory() returns (centralSize: nat)
      requires Valid()
      modifies this
      ensures out == old(out) + Centrals(files, EPOCH, |files|) && centralSize == CentralSize(files, |files|)
      ensures files == old(files) && central == old(central) && offset == old(offset)
    {
      hide Locals, Describe, LocalHeader, CentralHeader;
      centralSize := 0;
      for k := 0 to |central|
        invariant files == old(files) && central == old(central) && offset == old(offset)
        invariant out == old(out) + Centrals(files, EPOCH, k)
        invariant centralSize == CentralSize(files, k)
      {
        var entry := central[k];
        DescribeFits(files, k);
        if entry.size > U32_MAX || entry.localOffset > U32_MAX || |entry.name| > U16_MAX {
          assert false;
        }
        out := out + CentralHeader(entry, EPOCH);
        centralSize := centralSize + 46 + |entry.name|;
      }
    }

    /**
     * `finish`: the directory is written before the size checks, so a refused archive is left
     * behind without an end record.
     */
    method Finish() returns (r: Result<(), ZipError>)
      requires Valid()
      modifies this
      ensures r == if Fits(files) then Ok(()) else Err(TooLarge)
      ensures files == old(files)
      ensures r.Ok? ==> out == Archive(files, Stamp(0, 33)) && ReadArchive(out) == Some(Members(files))
    {
      hide Locals, Centrals, Describe, EndRecord, ReadArchive, Members, LocalSize, CentralSize;
      assert offset == LocalSize(files, |files|) && |central| == |files|;
      assert out == Locals(files, EPOCH, |files|);
      var centralOffset := offset;
      var centralSize := WriteDirectory();
      if |central| > 0xffff || centralSize > U32_MAX || centralOffset > U32_MAX {
        return Err(TooLarge);
      }
      out := out + EndRecord(|central|, centralSize, centralOffset);
      RoundTrip(files, EPOCH);
      return Ok(());
    }
  }

  // ---- The browser's writer ----

  /** A moment on the local clock. */
  datatype Clock = Clock(year: int, month: nat, day: nat, hour: nat, minute: nat, second: nat) {
    predicate Valid() {
      1 <= month <= 12 && 1 <= day <= 31 && hour < 24 && minute < 60 && second < 60
    }
  }

  /** `dosDateTime`: the shifted fields do not overlap, so the program's `|` adds them. */
  function DosDateTime(c: Clock): Stamp
    requires c.Valid()
  {
    var year := if c.year < 1980 then 1980 else if c.year > 2107 then 2107 else c.year;
    Stamp(c.hour * 2048 + c.minute * 32 + c.second / 2, (year - 1980) * 512 + c.month * 32 + c.day)
  }

  /** The moment a 16-bit date and time stand for, by the layout of section 4.4.6 of APPNOTE.TXT. */
  function FromDos(s: Stamp): Clock {
    Clock(1980 + s.date / 512, s.date / 32 % 16, s.date % 32, s.time / 2048, s.time / 32 % 64, s.time % 32 * 2)
  }

  lemma DosTime(hour: nat, minute: nat, half: nat)
    requires hour < 24 && minute < 60 && half < 30
    ensures var t := hour * 2048 + minute * 32 + half;
      t <= U16_MAX && t / 2048 == hour && t / 32 % 64 == minute && t % 32 == half
  {
    var t := hour * 2048 + minute * 32 + half;
    assert t / 32 == hour * 64 + minute;
  }

  lemma DosDate(years: nat, month: nat, day: nat)
    requires years < 128 && month <= 12 && day <= 31
    ensures var d := years * 512 + month * 32 + day;
      d <= U16_MAX && d / 512 == years && d / 32 % 16 == month && d % 32 == day
  {
    var d := years * 512 + month * 32 + day;
    assert d / 32 == years * 16 + month;
  }

  /** A time stamp keeps the moment to the even second, with the year drawn into 1980 to 2107; the server's stamp is
      the first moment it can express. */
  lemma DosRoundTrip(c: Clock)
    requires c.Valid()
    ensures var s := DosDateTime(c); s.time <= U16_MAX && s.date <= U16_MAX
    ensures var back := FromDos(DosDateTime(c));
      && back.(year := c.year, second := c.second) == c
      && back.second == c.second - c.second % 2
      && back.year == if c.year < 1980 then 1980 else if c.year > 2107 then 2107 else c.year
    ensures FromDos(EPOCH) == Clock(1980, 1, 1, 0, 0, 0)
  {
    hide U16_MAX;
    var year := if c.year < 1980 then 1980 else if c.year > 2107 then 2107 else c.year;
    DosTime(c.hour, c.minute, c.second / 2);
    DosDate(year - 1980, c.month, c.day);
  }

  function NormalizeAll(files: seq<File>): (r: seq<File>)
    ensures |r| == |files|
  {
    seq(|files|, i requires 0 <= i < |files| => File(Normalize(files[i].name), files[i].body))
  }

  lemma NormalizeAllAt(files: seq<File>, k: nat)
    requires k < |files|
    ensures NormalizeAll(files)[k] == File(Normalize(files[k].name), files[k].body)
  {
  }

  /** The checks `createStoredZip` makes on each entry: its name, its body, and the offset before it. */
  ghost predicate EntryFits(files: seq<File>, k: nat)
    requires k < |files|
  {
    |files[k].name| <= U16_MAX && |files[k].body| <= U32_MAX && LocalSize(files, k) <= U32_MAX
  }

  ghost predicate BrowserAccepts(files: seq<File>) {
    |files| <= U16_MAX && forall k :: 0 <= k < |files| ==> EntryFits(files, k)
  }

  /** What the loop of `createStoredZip` has built after `k` files. */
  ghost predicate Built(files: seq<File>, stamp: Stamp, k: nat, chunks: seq<byte>, central: seq<byte>,
                        offset: int, centralSize: int)
  {
    && k <= |files|
    && chunks == Locals(files, stamp, k) && offset == LocalSize(files, k)
    && central == Centrals(files, stamp, k) && centralSize == CentralSize(files, k)
    && forall j :: 0 <= j < k ==> EntryFits(files, j)
  }

  lemma BuiltNothing(files: seq<File>, stamp: Stamp)
    ensures Built(files, stamp, 0, [], [], 0, 0)
  {
  }

  lemma BuiltStep(files: seq<File>, stamp: Stamp, k: nat, chunks: seq<byte>, central: seq<byte>,
                  offset: int, centralSize: int, entry: Entry)
    requires Built(files, stamp, k, chunks, central, offset, centralSize) && k < |files|
    requires entry.name == files[k].name && entry.size == |files[k].body| && entry.localOffset == offset <= U32_MAX
    requires entry.crc32 == Value(Crc32.Crc(files[k].body))
    requires |files[k].name| <= U16_MAX && |files[k].body| <= U32_MAX
    ensures Built(files, stamp, k + 1, chunks + (LocalHeader(entry, stamp) + files[k].body),
                  central + CentralHeader(entry, stamp),
                  offset + 30 + |files[k].name| + |files[k].body|, centralSize + 46 + |files[k].name|)
  {
    NextFile(files, stamp, k);
    assert EntryFits(files, k);
    hide EntryFits, LocalHeader, CentralHeader, Locals, Centrals, LocalSize, CentralSize, Describe;
  }

  lemma NextFile(files: seq<File>, stamp: Stamp, k: nat)
    requires k < |files|
    ensures Locals(files, stamp, k + 1) ==
      Locals(files, stamp, k) + (LocalHeader(Describe(files, k), stamp) + files[k].body)
    ensures Centrals(files, stamp, k + 1) == Centrals(files, stamp, k) + CentralHeader(Describe(files, k), stamp)
    ensures LocalSize(files, k + 1) == LocalSize(files, k) + 30 + |files[k].name| + |files[k].body|
    ensures CentralSize(files, k + 1) == CentralSize(files, k) + 46 + |files[k].name|
    ensures Describe(files, k) ==
      Entry(files[k].name, Value(Crc32.Crc(files[k].body)), |files[k].body|, LocalSize(files, k))
  {
    hide LocalHeader, CentralHeader, Crc32.Crc, Value;
  }

  lemma BuiltRefuses(files: seq<File>, stamp: Stamp, k: nat, chunks: seq<byte>, central: seq<byte>,
                     offset: int, centralSize: int)
    requires Built(files, stamp, k, chunks, central, offset, centralSize) && k < |files|
    requires |files[k].name| > U16_MAX || |files[k].body| > U32_MAX || offset > U32_MAX
    ensures !BrowserAccepts(files)
  {
    hide Locals, Centrals, LocalSize, CentralSize;
    assert !EntryFits(files, k);
  }

  lemma BuiltDone(files: seq<File>, stamp: Stamp, chunks: seq<byte>, central: seq<byte>, offset: int, centralSize: int)
    requires Built(files, stamp, |files|, chunks, central, offset, centralSize) && |files| <= U16_MAX
    ensures BrowserAccepts(files) && offset == LocalSize(files, |files|) && centralSize == CentralSize(files, |files|)
    ensures chunks + central + EndRecord(|files|, CentralSize(files, |files|), LocalSize(files, |files|)) ==
      Archive(files, stamp)
  {
    hide EndRecord;
  }

  /** The head of the loop body: the range checks and the checksum of one file. */
  method BrowserEntry(name: seq<byte>, body: seq<byte>, offset: nat) returns (r: Result<Entry, ZipError>)
    ensures r.Ok? <==> |name| <= U16_MAX && |body| <= U32_MAX && offset <= U32_MAX
    ensures r.Ok? ==> r.value == Entry(name, Value(Crc32.Crc(body)), |body|, offset)
    ensures r.Err? ==> r.error == if |name| > U16_MAX then NameTooLong else TooLarge
  {
    if |name| > 0xffff {
      return Err(NameTooLong);
    }
    if |body| > 0xffff_ffff || offset > 0xffff_ffff {
      return Err(TooLarge);
    }
    var checksum := Crc32.Crc32ByTable(body);
    return Ok(Entry(name, Value(checksum), |body|, offset));
  }

  /** `createStoredZip`. It never checks where the directory ended up. */
  method CreateStoredZip(input: seq<File>, stamp: Stamp) returns (r: Result<seq<byte>, ZipError>)
    ensures r.Ok? <==> BrowserAccepts(NormalizeAll(input))
    ensures r.Ok? ==> r.value == Archive(NormalizeAll(input), stamp)
  {
    hide LocalHeader, CentralHeader, EndRecord, Archive, Crc32.Crc, Value;
    hide Built, Locals, Centrals, LocalSize, CentralSize, Normalize, NormalizeAll;
    if |input| > 0xffff {
      return Err(TooManyFiles);
    }
    hide BrowserAccepts;
    var chunks: seq<byte>, centralChunks: seq<byte> := [], [];
    var offset: nat, centralSize: nat := 0, 0;
    ghost var files := NormalizeAll(input);
    BuiltNothing(files, stamp);
    for k := 0 to |input|
      invariant Built(files, stamp, k, chunks, centralChunks, offset, centralSize)
    {
      var name, body := Normalize(input[k].name), input[k].body;
      NormalizeAllAt(input, k);
      var entry := BrowserEntry(name, body, offset);
      if entry.Err? {
        BuiltRefuses(files, stamp, k, chunks, centralChunks, offset, centralSize);
        return Err(entry.error);
      }
      BuiltStep(files, stamp, k, chunks, centralChunks, offset, centralSize, entry.value);
      chunks := chunks + (LocalHeader(entry.value, stamp) + body);
      centralChunks := centralChunks + CentralHeader(entry.value, stamp);
      offset := offset + 30 + |name| + |body|;
      centralSize := centralSize + 46 + |name|;
    }
    BuiltDone(files, stamp, chunks, centralChunks, offset, centralSize);
    return Ok(chunks + centralChunks + EndRecord(|input|, centralSize, offset));
  }

  /** The browser's archives read back exactly when the directory still lies within 32-bit reach. */
  lemma BrowserReadsBackIff(files: seq<File>, stamp: Stamp)
    requires BrowserAccepts(files)
    ensures ReadArchive(Archive(files, stamp)) == Some(Members(files))
       <==> LocalSize(files, |files|) <= U32_MAX && CentralSize(files, |files|) <= U32_MAX
  {
    hide ReadArchive, Archive, Members, LocalSize, CentralSize;
    if LocalSize(files, |files|) <= U32_MAX && CentralSize(files, |files|) <= U32_MAX {
      forall k | 0 <= k < |files|
        ensures |files[k].name| <= U16_MAX && |files[k].body| <= U32_MAX
      {
        assert EntryFits(files, k);
      }
      RoundTrip(files, stamp);
    } else {
      OverflowUnreadable(files, stamp);
    }
  }

  /** One file of 2^32 - 1 octets passes every check, but the offset in its end record is cut to 32 bits, and the
      reader refuses an archive whose directory does not end at the end record. */
  lemma BrowserOverflow(stamp: Stamp) returns (files: seq<File>)
    ensures BrowserAccepts(files) && ReadArchive(Archive(files, stamp)) == None
  {
    hide ReadArchive, Archive;
    files := [File([], seq(U32_MAX, _ => 0))];
    assert LocalSize(files, 1) == LocalSize(files, 0) + 30 + U32_MAX;
    OverflowUnreadable(files, stamp);
  }
}
