/**
 * The ZIP writer that streams (`zipStream`) and the reader of what it makes (`readZip`): PKWARE APPNOTE.TXT, sections
 * 4.3.7 (local headers), 4.3.9 (data descriptors), 4.3.12 (the directory) and 4.3.16 (its end). Names are their bytes;
 * deflate is a pair of functions of which only inflate-after-deflate is known.
 */
module Zip {
  import opened Wrappers
  import opened Texts
  import opened Crc

  const LIMIT := 0xffff_ffff
  const SLASH: byte := 0x2f
  const LOCAL_SIGNATURE := 0x0403_4b50
  const TAIL_SIGNATURE := 0x0807_4b50
  const RECORD_SIGNATURE := 0x0201_4b50
  const END_SIGNATURE := 0x0605_4b50

  datatype Data = Known(bytes: seq<byte>) | Streamed(chunks: seq<seq<byte>>)

  datatype Entry = Entry(name: seq<byte>, data: Data, store: bool)

  /** A compressor turns a run of chunks into a run of parts. */
  datatype Codec = Codec(deflate: seq<seq<byte>> -> seq<seq<byte>>, inflate: seq<byte> -> Option<seq<byte>>)

  ghost predicate Lossless(c: Codec) {
    forall chunks :: c.inflate(Joined(c.deflate(chunks))) == Some(Joined(chunks))
  }

  /** What the writer keeps of an entry for the directory. */
  datatype Written = Written(name: seq<byte>, way: nat, flags: nat, crc: nat, compressed: nat, size: nat, offset: nat)

  // ---------------------------------------------------------------------------------------------------------------
  // Little-endian fields, wrapping as a DataView's setters do
  // ---------------------------------------------------------------------------------------------------------------

  function LE16(x: nat): (r: seq<byte>)
    ensures |r| == 2
  {
    [x % 256, x / 256 % 256]
  }

  function LE32(x: nat): (r: seq<byte>)
    ensures |r| == 4
  {
    LE16(x) + LE16(x / 0x1_0000)
  }

  function U16(s: seq<byte>, at: nat): nat
    requires at + 2 <= |s|
  {
    s[at] as int + 256 * (s[at + 1] as int)
  }

  function U32(s: seq<byte>, at: nat): nat
    requires at + 4 <= |s|
  {
    U16(s, at) + 0x1_0000 * U16(s, at + 2)
  }

  lemma Bytes16(x: nat)
    ensures x % 256 + 256 * (x / 256 % 256) == x % 0x1_0000
  {
    var q := x / 0x1_0000;
    var r := x - 0x1_0000 * q;
    assert x / 256 == 256 * q + r / 256;
  }

  lemma Fields16(x: nat)
    ensures U16(LE16(x), 0) == x % 0x1_0000
  {
    Bytes16(x);
  }

  lemma Words(x: nat)
    ensures x % 0x1_0000_0000 == x % 0x1_0000 + 0x1_0000 * (x / 0x1_0000 % 0x1_0000)
  {
  }

  /** A field reads back as written, but for what does not fit in it. */
  lemma Fields32(x: nat)
    ensures U32(LE32(x), 0) == x % 0x1_0000_0000
  {
    Fields16(x);
    Fields16(x / 0x1_0000);
    Words(x);
  }

  method SetUint16(a: array<byte>, at: nat, x: nat)
    requires at + 2 <= a.Length
    modifies a
    ensures a[..at + 2] == old(a[..at]) + LE16(x)
    ensures forall i :: at + 2 <= i < a.Length ==> a[i] == old(a[i])
  {
    a[at] := x % 256;
    a[at + 1] := x / 256 % 256;
    assert a[..at] == old(a[..at]);
  }

  method SetUint32(a: array<byte>, at: nat, x: nat)
    requires at + 4 <= a.Length
    modifies a
    ensures a[..at + 4] == old(a[..at]) + LE32(x)
    ensures forall i :: at + 4 <= i < a.Length ==> a[i] == old(a[i])
  {
    SetUint16(a, at, x);
    SetUint16(a, at + 2, x / 0x1_0000);
  }

  /** `bytes.set(name, at)` at the end of a buffer. */
  method SetBytes(a: array<byte>, at: nat, bytes: seq<byte>)
    requires at + |bytes| == a.Length
    modifies a
    ensures a[..] == old(a[..at]) + bytes
  {
    forall i | 0 <= i < |bytes| { a[at + i] := bytes[i]; }
    assert a[..at] == old(a[..at]) && a[at..] == bytes;
    assert a[..] == a[..at] + a[at..];
  }

  // ---------------------------------------------------------------------------------------------------------------
  // The layout of an archive
  // ---------------------------------------------------------------------------------------------------------------

  /** The time and the date of writing, as DOS packs them: the reader does not look at them. */
  datatype Stamp = Stamp(time: nat, date: nat)

  /** The general purpose flags, the compression method and the stamp. */
  function Kind(w: Written, stamp: Stamp): (r: seq<byte>)
    ensures |r| == 8
  {
    LE16(w.flags) + LE16(w.way) + LE16(stamp.time) + LE16(stamp.date)
  }

  function Sizes(crc: nat, compressed: nat, size: nat): (r: seq<byte>)
    ensures |r| == 12
  {
    LE32(crc) + LE32(compressed) + LE32(size)
  }

  function LocalHeader(w: Written, stamp: Stamp, known: bool): (r: seq<byte>)
    ensures |r| == 30 + |w.name|
  {
    LE32(LOCAL_SIGNATURE) + LE16(20) + Kind(w, stamp) + (if known then Sizes(w.crc, w.compressed, w.size) else Sizes(0, 0, 0))
    + LE16(|w.name|) + Blank(2) + w.name
  }

  /** The data descriptor that follows data whose length was not known before. */
  function Tail(w: Written): (r: seq<byte>)
    ensures |r| == 16
  {
    LE32(TAIL_SIGNATURE) + Sizes(w.crc, w.compressed, w.size)
  }

  function Record(w: Written, stamp: Stamp): (r: seq<byte>)
    ensures |r| == 46 + |w.name|
  {
    LE32(RECORD_SIGNATURE) + LE16(20) + LE16(20) + Kind(w, stamp) + Sizes(w.crc, w.compressed, w.size) + LE16(|w.name|)
    + Blank(12) + LE32(w.offset) + w.name
  }

  function Blank(n: nat): (r: seq<byte>)
    ensures |r| == n
  {
    seq(n, _ => 0)
  }

  function EndRecord(count: nat, length: nat, start: nat): (r: seq<byte>)
    ensures |r| == 22
  {
    LE32(END_SIGNATURE) + Blank(4) + LE16(count) + LE16(count) + LE32(length) + LE32(start) + Blank(2)
  }

  function Plain(data: Data): seq<byte> {
    match data
    case Known(bytes) => bytes
    case Streamed(chunks) => Joined(chunks)
  }

  function Chunks(data: Data): seq<seq<byte>> {
    match data
    case Known(bytes) => [bytes]
    case Streamed(chunks) => chunks
  }

  /** The bytes between an entry's header and what follows it. */
  function Payload(c: Codec, e: Entry): seq<byte> {
    if e.store && e.data.Known? then e.data.bytes else Joined(c.deflate(Chunks(e.data)))
  }

  function CrcOf(bytes: seq<byte>): (r: nat)
    ensures r < 0x1_0000_0000
  {
    Crc32(bytes, 0) as int
  }

  function Describe(c: Codec, e: Entry, start: nat): Written {
    Written(e.name, if e.store then 0 else 8, if e.data.Known? then 0x800 else 0x808,
            CrcOf(Plain(e.data)), |Payload(c, e)|, |Plain(e.data)|, start)
  }

  function Local(c: Codec, e: Entry, stamp: Stamp, start: nat): seq<byte> {
    var w := Describe(c, e, start);
    LocalHeader(w, stamp, e.data.Known?) + Payload(c, e) + if e.data.Known? then [] else Tail(w)
  }

  function Body(c: Codec, entries: seq<Entry>, stamp: Stamp, start: nat): seq<byte>
    decreases entries
  {
    if entries == [] then []
    else
      var first := Local(c, entries[0], stamp, start);
      first + Body(c, entries[1..], stamp, start + |first|)
  }

  function Table(c: Codec, entries: seq<Entry>, stamp: Stamp, start: nat): (r: seq<Written>)
    ensures |r| == |entries|
    decreases entries
  {
    if entries == [] then []
    else [Describe(c, entries[0], start)]
         + Table(c, entries[1..], stamp, start + |Local(c, entries[0], stamp, start)|)
  }

  function Directory(table: seq<Written>, stamp: Stamp): seq<byte> {
    if table == [] then [] else Record(table[0], stamp) + Directory(table[1..], stamp)
  }

  function Archive(c: Codec, entries: seq<Entry>, stamp: Stamp): seq<byte> {
    var body, directory := Body(c, entries, stamp, 0), Directory(Table(c, entries, stamp, 0), stamp);
    body + directory + EndRecord(|entries|, |directory|, |body|)
  }

  /** Neither an entry nor the archive up to its end record reaches 4 GiB, and the entries can be counted in 16 bits. */
  ghost predicate Writable(c: Codec, entries: seq<Entry>, stamp: Stamp) {
    && |entries| <= 0xffff
    && |Archive(c, entries, stamp)| - 22 < LIMIT
    && forall e <- entries :: |Plain(e.data)| < LIMIT
  }

  // ---------------------------------------------------------------------------------------------------------------
  // Writing
  // ---------------------------------------------------------------------------------------------------------------

  method SetKind(a: array<byte>, at: nat, w: Written, stamp: Stamp)
    requires at + 8 <= a.Length
    modifies a
    ensures a[..at + 8] == old(a[..at]) + Kind(w, stamp)
    ensures forall i :: at + 8 <= i < a.Length ==> a[i] == old(a[i])
  {
    SetUint16(a, at, w.flags);
    SetUint16(a, at + 2, w.way);
    SetUint16(a, at + 4, stamp.time);
    SetUint16(a, at + 6, stamp.date);
  }

  method SetSizes(a: array<byte>, at: nat, crc: nat, compressed: nat, size: nat)
    requires at + 12 <= a.Length
    modifies a
    ensures a[..at + 12] == old(a[..at]) + Sizes(crc, compressed, size)
    ensures forall i :: at + 12 <= i < a.Length ==> a[i] == old(a[i])
  {
    SetUint32(a, at, crc);
    SetUint32(a, at + 4, compressed);
    SetUint32(a, at + 8, size);
  }

  /** A field the writer leaves as it is: a new buffer's bytes are 0. */
  lemma Untouched(a: array<byte>, at: nat, n: nat)
    requires at + n <= a.Length && forall i :: at <= i < at + n ==> a[i] == 0
    ensures a[..at + n] == a[..at] + Blank(n)
  {
  }

  method MakeLocalHeader(w: Written, stamp: Stamp, known: bool) returns (a: array<byte>)
    ensures fresh(a) && a[..] == LocalHeader(w, stamp, known)
  {
    hide LE16, LE32, Kind, Sizes, Blank;
    a := new byte[30 + |w.name|](_ => 0);
    SetUint32(a, 0, LOCAL_SIGNATURE);
    SetUint16(a, 4, 20);
    SetKind(a, 6, w, stamp);
    SetSizes(a, 14, if known then w.crc else 0, if known then w.compressed else 0, if known then w.size else 0);
    SetUint16(a, 26, |w.name|);
    Untouched(a, 28, 2);
    SetBytes(a, 30, w.name);
  }

  method MakeTail(w: Written) returns (a: array<byte>)
    ensures fresh(a) && a[..] == Tail(w)
  {
    a := new byte[16](_ => 0);
    SetUint32(a, 0, TAIL_SIGNATURE);
    SetSizes(a, 4, w.crc, w.compressed, w.size);
    assert a[..16] == a[..];
  }

  method MakeRecord(w: Written, stamp: Stamp) returns (a: array<byte>)
    ensures fresh(a) && a[..] == Record(w, stamp)
  {
    hide LE16, LE32, Kind, Sizes, Blank;
    a := new byte[46 + |w.name|](_ => 0);
    SetUint32(a, 0, RECORD_SIGNATURE);
    SetUint16(a, 4, 20);
    SetUint16(a, 6, 20);
    SetKind(a, 8, w, stamp);
    SetSizes(a, 16, w.crc, w.compressed, w.size);
    SetUint16(a, 28, |w.name|);
    Untouched(a, 30, 12);
    SetUint32(a, 42, w.offset);
    SetBytes(a, 46, w.name);
  }

  method MakeEnd(count: nat, length: nat, start: nat) returns (a: array<byte>)
    ensures fresh(a) && a[..] == EndRecord(count, length, start)
  {
    hide LE16, LE32, Blank;
    a := new byte[22](_ => 0);
    SetUint32(a, 0, END_SIGNATURE);
    Untouched(a, 4, 4);
    SetUint16(a, 8, count);
    SetUint16(a, 10, count);
    SetUint32(a, 12, length);
    SetUint32(a, 16, start);
    Untouched(a, 20, 2);
    assert a[..22] == a[..];
  }

  method Collect(parts: seq<seq<byte>>) returns (all: seq<byte>)
    ensures all == Joined(parts)
  {
    all := [];
    for i := 0 to |parts|
      invariant all + Joined(parts[i..]) == Joined(parts)
    {
      all := all + parts[i];
    }
  }

  /** The length and the checksum of the chunks together. */
  method Count(crcTable: seq<bv32>, chunks: seq<seq<byte>>) returns (crc: bv32, size: nat)
    requires IsTable(crcTable)
    ensures crc == Crc32(Joined(chunks), 0) && size == |Joined(chunks)|
  {
    crc, size := 0, 0;
    for i := 0 to |chunks|
      invariant ChunkedCrc(chunks[i..], crc) == ChunkedCrc(chunks, 0)
      invariant size + |Joined(chunks[i..])| == |Joined(chunks)|
    {
      crc := Compute(crcTable, chunks[i], crc);
      size := size + |chunks[i]|;
    }
    ChunkingDoesNotMatter(chunks, 0);
  }

  method PassOn(parts: seq<seq<byte>>, start: nat) returns (out: seq<byte>, compressed: nat, offset: nat)
    ensures out == Joined(parts) && compressed == |out| && offset == start + |out|
  {
    out, compressed, offset := [], 0, start;
    for i := 0 to |parts|
      invariant out + Joined(parts[i..]) == Joined(parts)
      invariant compressed == |out| && offset == start + |out|
    {
      compressed := compressed + |parts[i]|;
      offset := offset + |parts[i]|;
      out := out + parts[i];
    }
  }

  method WriteKnown(c: Codec, crcTable: seq<bv32>, e: Entry, stamp: Stamp, start: nat)
    returns (out: seq<byte>, w: Written, offset: nat)
    requires IsTable(crcTable) && e.data.Known?
    ensures out == Local(c, e, stamp, start) && w == Describe(c, e, start) && offset == start + |out|
    ensures w.size == |Plain(e.data)| && w.compressed <= |out|
  {
    var bytes := e.data.bytes;
    var crc := Compute(crcTable, bytes, 0);
    var deflated := bytes;
    if !e.store { deflated := Collect(c.deflate([bytes])); }
    w := Written(e.name, if e.store then 0 else 8, 0x800, crc as int, |deflated|, |bytes|, start);
    var head := MakeLocalHeader(w, stamp, true);
    out := head[..] + deflated;
    offset := start + head.Length + |deflated|;
  }

  method WriteStreamed(c: Codec, crcTable: seq<bv32>, e: Entry, stamp: Stamp, start: nat)
    returns (out: seq<byte>, w: Written, offset: nat)
    requires IsTable(crcTable) && e.data.Streamed?
    ensures out == Local(c, e, stamp, start) && w == Describe(c, e, start) && offset == start + |out|
    ensures w.size == |Plain(e.data)| && w.compressed <= |out|
  {
    var way := if e.store then 0 else 8;
    var head := MakeLocalHeader(Written(e.name, way, 0x808, 0, 0, 0, start), stamp, false);
    var crc, size := Count(crcTable, e.data.chunks);
    var payload, compressed, end := PassOn(c.deflate(e.data.chunks), start + head.Length);
    w := Written(e.name, way, 0x808, crc as int, compressed, size, start);
    var tail := MakeTail(w);
    out := head[..] + payload + tail[..];
    offset := end + tail.Length;
  }

  lemma Regroup<T>(a: seq<T>, b: seq<T>, c: seq<T>)
    ensures (a + b) + c == a + (b + c)
  {
  }

  lemma NextRecord(written: seq<Written>, stamp: Stamp, i: nat)
    requires i < |written|
    ensures Directory(written[i..], stamp) == Record(written[i], stamp) + Directory(written[i + 1..], stamp)
  {
    assert written[i..][1..] == written[i + 1..];
  }

  lemma NextLocal(c: Codec, entries: seq<Entry>, stamp: Stamp, i: nat, start: nat)
    requires i < |entries|
    ensures var part := Local(c, entries[i], stamp, start);
            Body(c, entries[i..], stamp, start) == part + Body(c, entries[i + 1..], stamp, start + |part|)
  {
    hide Local, Describe;
    var rest := entries[i..];
    assert rest[0] == entries[i] && rest[1..] == entries[i + 1..];
  }

  lemma NextWritten(c: Codec, entries: seq<Entry>, stamp: Stamp, i: nat, start: nat)
    requires i < |entries|
    ensures Table(c, entries[i..], stamp, start) ==
            [Describe(c, entries[i], start)] + Table(c, entries[i + 1..], stamp, start + |Local(c, entries[i], stamp, start)|)
  {
    hide Local, Describe;
    var rest := entries[i..];
    assert rest[0] == entries[i] && rest[1..] == entries[i + 1..];
  }

  /** What the entries' turns leave: refused at the first one that is, or that ends, past the limit. */
  method WriteEntries(c: Codec, crcTable: seq<bv32>, entries: seq<Entry>, stamp: Stamp)
    returns (ok: bool, out: seq<byte>, written: seq<Written>, offset: nat)
    requires IsTable(crcTable)
    ensures ok ==> out == Body(c, entries, stamp, 0) && written == Table(c, entries, stamp, 0) && offset == |out|
    ensures ok <==> |Body(c, entries, stamp, 0)| < LIMIT && forall e <- entries :: |Plain(e.data)| < LIMIT
  {
    hide Local, Describe;
    out, written, offset := [], [], 0;
    for i := 0 to |entries|
      invariant offset == |out| < LIMIT
      invariant out + Body(c, entries[i..], stamp, offset) == Body(c, entries, stamp, 0)
      invariant written + Table(c, entries[i..], stamp, offset) == Table(c, entries, stamp, 0)
      invariant forall k :: 0 <= k < i ==> |Plain(entries[k].data)| < LIMIT
    {
      var e, part, w, after := entries[i], [], Written([], 0, 0, 0, 0, 0, 0), 0;
      if e.data.Known? {
        part, w, after := WriteKnown(c, crcTable, e, stamp, offset);
      } else {
        part, w, after := WriteStreamed(c, crcTable, e, stamp, offset);
      }
      NextLocal(c, entries, stamp, i, offset);
      NextWritten(c, entries, stamp, i, offset);
      Regroup(out, part, Body(c, entries[i + 1..], stamp, after));
      Regroup(written, [w], Table(c, entries[i + 1..], stamp, after));
      if w.compressed >= LIMIT || w.size >= LIMIT || after >= LIMIT {
        assert w.size >= LIMIT ==> e in entries;
        ok := false;
        return;
      }
      out := out + part;
      written := written + [w];
      offset := after;
    }
    ok := true;
  }

  method WriteDirectory(written: seq<Written>, stamp: Stamp, start: nat) returns (out: seq<byte>, offset: nat)
    ensures out == Directory(written, stamp) && offset == start + |out|
  {
    out, offset := [], start;
    for i := 0 to |written|
      invariant offset == start + |out|
      invariant out + Directory(written[i..], stamp) == Directory(written, stamp)
    {
      NextRecord(written, stamp, i);
      var record := MakeRecord(written[i], stamp);
      Regroup(out, record[..], Directory(written[i + 1..], stamp));
      out := out + record[..];
      offset := offset + record.Length;
    }
  }

  /** The archive, or a refusal exactly where it could not be written rightly. */
  method ZipStream(c: Codec, crcTable: seq<bv32>, entries: seq<Entry>, stamp: Stamp) returns (r: Option<seq<byte>>)
    requires IsTable(crcTable)
    ensures r.Some? <==> Writable(c, entries, stamp)
    ensures r.Some? ==> r.value == Archive(c, entries, stamp)
  {
    hide Body, Table, Directory, EndRecord;
    var ok, body, written, directoryStart := WriteEntries(c, crcTable, entries, stamp);
    if !ok { return None; }
    var directory, offset := WriteDirectory(written, stamp, directoryStart);
    var end := MakeEnd(|written|, offset - directoryStart, directoryStart);
    if |written| > 0xffff || offset >= LIMIT { return None; }
    r := Some(body + directory + end[..]);
  }

  // ---------------------------------------------------------------------------------------------------------------
  // Reading
  // ---------------------------------------------------------------------------------------------------------------

  datatype ReadError = NotZip | DamagedDirectory | OutOfRange | UnknownWay | Damaged | TooLarge

  /** An entry as the directory describes it. */
  datatype File = File(name: seq<byte>, way: nat, crc: nat, compressed: nat, size: nat, local: nat)

  /** `subarray`: ends past the end are cut. */
  function Part(a: seq<byte>, lo: nat, hi: nat): seq<byte>
    requires lo <= hi
  {
    if lo >= |a| then [] else if hi >= |a| then a[lo..] else a[lo..hi]
  }

  predicate EndAt(a: seq<byte>, i: int) {
    0 <= i && |a| - 22 - 0xffff <= i <= |a| - 22 && U32(a, i) == END_SIGNATURE
  }

  /** The end record nearest the end of the file, within the reach of a comment. */
  ghost predicate LastEnd(a: seq<byte>, i: int) {
    EndAt(a, i) && forall j :: EndAt(a, j) ==> j <= i
  }

  function FileAt(a: seq<byte>, at: nat): File
    requires at + 46 <= |a|
  {
    File(Part(a, at + 46, at + 46 + U16(a, at + 28)), U16(a, at + 10), U32(a, at + 16), U32(a, at + 20), U32(a, at + 24),
         U32(a, at + 42))
  }

  function NextAt(a: seq<byte>, at: nat): nat
    requires at + 46 <= |a|
  {
    at + 46 + U16(a, at + 28) + U16(a, at + 30) + U16(a, at + 32)
  }

  /** A directory, not a file. */
  predicate IsFolder(name: seq<byte>) {
    |name| > 0 && name[|name| - 1] == SLASH
  }

  function Prepended(files: seq<File>, rest: Result<seq<File>, ReadError>): Result<seq<File>, ReadError> {
    if rest.Ok? then Ok(files + rest.value) else rest
  }

  /** `count` records from `at` on, the directories left out. */
  function ReadRecords(a: seq<byte>, at: nat, count: nat): Result<seq<File>, ReadError>
    decreases count
  {
    if count == 0 then Ok([])
    else if at + 4 > |a| then Err(OutOfRange)
    else if U32(a, at) != RECORD_SIGNATURE then Err(DamagedDirectory)
    else if at + 46 > |a| then Err(OutOfRange)
    else
      var f := FileAt(a, at);
      Prepended(if IsFolder(f.name) then [] else [f], ReadRecords(a, NextAt(a, at), count - 1))
  }

  method FindEnd(a: seq<byte>) returns (end: int)
    ensures end >= 0 ==> LastEnd(a, end)
    ensures end < 0 ==> forall i :: !EndAt(a, i)
  {
    end := -1;
    var i := |a| - 22;
    while i >= 0 && i >= |a| - 22 - 0xffff
      invariant i <= |a| - 22 && forall j :: EndAt(a, j) ==> j <= i
      decreases i
    {
      if U32(a, i) == END_SIGNATURE {
        end := i;
        return;
      }
      i := i - 1;
    }
  }

  lemma NextRead(a: seq<byte>, at: nat, count: nat, files: seq<File>)
    requires count > 0 && at + 46 <= |a| && U32(a, at) == RECORD_SIGNATURE
    ensures var f := FileAt(a, at);
            Prepended(files, ReadRecords(a, at, count)) ==
            Prepended(if IsFolder(f.name) then files else files + [f], ReadRecords(a, NextAt(a, at), count - 1))
  {
    var f, rest := FileAt(a, at), ReadRecords(a, NextAt(a, at), count - 1);
    if rest.Ok? {
      assert files + ([] + rest.value) == files + rest.value;
      assert files + ([f] + rest.value) == (files + [f]) + rest.value;
    }
  }

  method ReadLoop(a: seq<byte>, start: nat, count: nat) returns (r: Result<seq<File>, ReadError>)
    ensures r == ReadRecords(a, start, count)
  {
    hide FileAt, NextAt, U16, U32, IsFolder;
    var at: nat, files := start, [];
    assert ReadRecords(a, start, count).Ok? ==> [] + ReadRecords(a, start, count).value == ReadRecords(a, start, count).value;
    for n := 0 to count
      invariant Prepended(files, ReadRecords(a, at, count - n)) == ReadRecords(a, start, count)
    {
      if at + 4 > |a| { return Err(OutOfRange); }
      if U32(a, at) != RECORD_SIGNATURE { return Err(DamagedDirectory); }
      if at + 46 > |a| { return Err(OutOfRange); }
      NextRead(a, at, count - n, files);
      var f := FileAt(a, at);
      at := NextAt(a, at);
      if !IsFolder(f.name) { files := files + [f]; }
    }
    assert files + [] == files;
    r := Ok(files);
  }

  /** The files of an archive: those of the directory that its last end record names. */
  method ReadZip(a: seq<byte>) returns (r: Result<seq<File>, ReadError>)
    ensures (forall i :: !EndAt(a, i)) ==> r == Err(NotZip)
    ensures forall i :: LastEnd(a, i) ==> r == ReadRecords(a, U32(a, i + 16), U16(a, i + 10))
  {
    var end := FindEnd(a);
    if end < 0 { return Err(NotZip); }
    var count, at := U16(a, end + 10), U32(a, end + 16);
    r := ReadLoop(a, at, count);
    hide U16, U32, ReadRecords;
    forall i | LastEnd(a, i) ensures i == end {
      assert EndAt(a, i) && EndAt(a, end);
    }
  }

  /** A file's bytes, checked against its size and its checksum; with `max`, refused where it unpacks past it. */
  function Unpacked(c: Codec, a: seq<byte>, f: File, max: Option<nat>): Result<seq<byte>, ReadError> {
    if f.local + 30 > |a| then Err(OutOfRange)
    else
      var dataStart := f.local + 30 + U16(a, f.local + 26) + U16(a, f.local + 28);
      var raw := Part(a, dataStart, dataStart + f.compressed);
      var out := if f.way == 0 then Some(raw) else if f.way == 8 then c.inflate(raw) else None;
      if f.way != 0 && f.way != 8 then Err(UnknownWay)
      else if out.None? then Err(Damaged)
      else if max.Some? && |out.value| > max.value then Err(TooLarge)
      else if |out.value| != f.size || CrcOf(out.value) != f.crc then Err(Damaged)
      else Ok(out.value)
  }

  // ---------------------------------------------------------------------------------------------------------------
  // Reading what was written
  // ---------------------------------------------------------------------------------------------------------------

  /** Every field of the record holds its value unwrapped. */
  ghost predicate Fits(w: Written) {
    && |w.name| < 0x1_0000 && w.way < 0x1_0000
    && w.crc < 0x1_0000_0000 && w.compressed < 0x1_0000_0000 && w.size < 0x1_0000_0000 && w.offset < 0x1_0000_0000
  }

  lemma RecordParts(w: Written, stamp: Stamp)
    ensures var r := Record(w, stamp);
            && r[0..4] == LE32(RECORD_SIGNATURE) && r[10..12] == LE16(w.way) && r[16..20] == LE32(w.crc)
            && r[20..24] == LE32(w.compressed) && r[24..28] == LE32(w.size) && r[28..30] == LE16(|w.name|)
            && r[30..42] == Blank(12) && r[42..46] == LE32(w.offset) && r[46..] == w.name
  {
    hide LE16, LE32, Blank;
    var r := Record(w, stamp);
    assert r[8..16] == Kind(w, stamp);
    assert r[8..16][2..4] == LE16(w.way);
    assert r[16..28] == Sizes(w.crc, w.compressed, w.size);
  }

  lemma Same16(s: seq<byte>, at: nat, field: seq<byte>)
    requires at + 2 <= |s| && s[at..at + 2] == field
    ensures U16(s, at) == U16(field, 0)
  {
    assert field[0] == s[at] && field[1] == s[at + 1];
  }

  lemma Same32(s: seq<byte>, at: nat, field: seq<byte>)
    requires at + 4 <= |s| && s[at..at + 4] == field
    ensures U32(s, at) == U32(field, 0)
  {
    assert field[0] == s[at] && field[1] == s[at + 1] && field[2] == s[at + 2] && field[3] == s[at + 3];
  }

  lemma Wide16(s: seq<byte>, at: nat, x: nat)
    requires at + 2 <= |s| && s[at..at + 2] == LE16(x) && x < 0x1_0000
    ensures U16(s, at) == x
  {
    Same16(s, at, LE16(x));
    Fields16(x);
  }

  lemma Wide32(s: seq<byte>, at: nat, x: nat)
    requires at + 4 <= |s| && s[at..at + 4] == LE32(x) && x < 0x1_0000_0000
    ensures U32(s, at) == x
  {
    Same32(s, at, LE32(x));
    Fields32(x);
  }

  lemma RecordFields(w: Written, stamp: Stamp)
    requires Fits(w)
    ensures var r := Record(w, stamp);
            && U32(r, 0) == RECORD_SIGNATURE && U16(r, 10) == w.way && U32(r, 16) == w.crc && U32(r, 20) == w.compressed
            && U32(r, 24) == w.size && U16(r, 28) == |w.name| && U16(r, 30) == 0 && U16(r, 32) == 0
            && U32(r, 42) == w.offset && r[46..] == w.name
  {
    RecordParts(w, stamp);
    hide Record, LE16, LE32, U32;
    var r := Record(w, stamp);
    Wide32(r, 0, RECORD_SIGNATURE);
    Wide16(r, 10, w.way);
    Wide32(r, 16, w.crc);
    Wide32(r, 20, w.compressed);
    Wide32(r, 24, w.size);
    Wide16(r, 28, |w.name|);
    assert r[30..42][0] == 0 && r[30..42][1] == 0 && r[30..42][2] == 0 && r[30..42][3] == 0;
    Wide32(r, 42, w.offset);
  }

  function FileOf(w: Written): File {
    File(w.name, w.way, w.crc, w.compressed, w.size, w.offset)
  }

  function FilesOf(table: seq<Written>): seq<File> {
    if table == [] then []
    else (if IsFolder(table[0].name) then [] else [FileOf(table[0])]) + FilesOf(table[1..])
  }

  /** The entries that are files. */
  function FileEntries(entries: seq<Entry>): seq<Entry> {
    if entries == [] then []
    else (if IsFolder(entries[0].name) then [] else [entries[0]]) + FileEntries(entries[1..])
  }

  lemma SliceOfSlice<T>(a: seq<T>, at: nat, b: seq<T>, lo: nat, hi: nat)
    requires at + |b| <= |a| && a[at..at + |b|] == b && lo <= hi <= |b|
    ensures a[at + lo..at + hi] == b[lo..hi]
  {
    forall i | 0 <= i < hi - lo ensures a[at + lo..at + hi][i] == b[lo..hi][i] {
      assert a[at..at + |b|][lo + i] == b[lo + i];
    }
  }

  lemma PartInside(a: seq<byte>, lo: nat, hi: nat)
    requires lo <= hi <= |a|
    ensures Part(a, lo, hi) == a[lo..hi]
  {
  }

  lemma Read16(a: seq<byte>, at: nat, b: seq<byte>, i: nat)
    requires at + |b| <= |a| && a[at..at + |b|] == b && i + 2 <= |b|
    ensures U16(a, at + i) == U16(b, i)
  {
    assert b[i] == a[at + i] && b[i + 1] == a[at + i + 1];
  }

  lemma Read32(a: seq<byte>, at: nat, b: seq<byte>, i: nat)
    requires at + |b| <= |a| && a[at..at + |b|] == b && i + 4 <= |b|
    ensures U32(a, at + i) == U32(b, i)
  {
    Read16(a, at, b, i);
    Read16(a, at, b, i + 2);
  }

  /** A record in the directory is read as it was written. */
  lemma RecordReads(a: seq<byte>, at: nat, w: Written, stamp: Stamp)
    requires Fits(w) && at + 46 + |w.name| <= |a| && a[at..at + 46 + |w.name|] == Record(w, stamp)
    ensures U32(a, at) == RECORD_SIGNATURE && FileAt(a, at) == FileOf(w) && NextAt(a, at) == at + 46 + |w.name|
  {
    RecordFields(w, stamp);
    hide Record, U16, U32;
    var r := Record(w, stamp);
    Read32(a, at, r, 0);
    Read16(a, at, r, 10);
    Read32(a, at, r, 16);
    Read32(a, at, r, 20);
    Read32(a, at, r, 24);
    Read16(a, at, r, 28);
    Read16(a, at, r, 30);
    Read16(a, at, r, 32);
    Read32(a, at, r, 42);
    SliceOfSlice(a, at, r, 46, |r|);
    assert r[46..] == r[46..|r|];
    PartInside(a, at + 46, at + |r|);
  }

  lemma {:induction false} DirectoryReads(a: seq<byte>, at: nat, table: seq<Written>, stamp: Stamp)
    requires forall w <- table :: Fits(w)
    requires at + |Directory(table, stamp)| <= |a| && a[at..at + |Directory(table, stamp)|] == Directory(table, stamp)
    ensures ReadRecords(a, at, |table|) == Ok(FilesOf(table))
    decreases table
  {
    hide Record, U16, U32, FileAt, NextAt, IsFolder;
    if table != [] {
      var r, rest := Record(table[0], stamp), Directory(table[1..], stamp);
      SliceOfSlice(a, at, r + rest, 0, |r|);
      SliceOfSlice(a, at, r + rest, |r|, |r + rest|);
      assert (r + rest)[..|r|] == r && (r + rest)[|r|..] == rest;
      RecordReads(a, at, table[0], stamp);
      DirectoryReads(a, at + |r|, table[1..], stamp);
    }
  }

  lemma LocalParts(c: Codec, e: Entry, stamp: Stamp, start: nat)
    ensures var l, n, z := Local(c, e, stamp, start), |e.name|, |Payload(c, e)|;
            && |l| >= 30 + n + z && l[26..28] == LE16(n) && l[28..30] == Blank(2) && l[30 + n..30 + n + z] == Payload(c, e)
  {
    hide LE16, LE32, Blank, Kind, Sizes, Payload;
    var w := Describe(c, e, start);
    var h := LocalHeader(w, stamp, e.data.Known?);
    assert h[26..28] == LE16(|e.name|) && h[28..30] == Blank(2);
    var l := Local(c, e, stamp, start);
    assert l[..|h|] == h;
    assert l[26..28] == h[26..28] && l[28..30] == h[28..30];
  }

  /** The entry's bytes come back whole, or the caller's limit refuses them. */
  ghost predicate Gives(c: Codec, a: seq<byte>, f: File, e: Entry) {
    && f.name == e.name
    && forall max :: Unpacked(c, a, f, max) ==
                     if max.Some? && |Plain(e.data)| > max.value then Err(TooLarge) else Ok(Plain(e.data))
  }

  ghost predicate AllGive(c: Codec, a: seq<byte>, files: seq<File>, entries: seq<Entry>) {
    |files| == |entries| && forall k :: 0 <= k < |files| ==> Gives(c, a, files[k], entries[k])
  }

  lemma JoinedOne(b: seq<byte>)
    ensures Joined([b]) == b
  {
    assert [b][1..] == [];
    assert Joined([]) == [];
  }

  lemma PayloadOpens(c: Codec, e: Entry)
    requires Lossless(c) && (e.store ==> e.data.Known?)
    ensures (if e.store then Some(Payload(c, e)) else c.inflate(Payload(c, e))) == Some(Plain(e.data))
  {
    if e.data.Known? { JoinedOne(e.data.bytes); }
  }

  /** Where the local header is, its lengths lead to the payload. */
  lemma LocalReads(c: Codec, a: seq<byte>, e: Entry, stamp: Stamp, start: nat)
    requires |e.name| < 0x1_0000
    requires var l := Local(c, e, stamp, start); start + |l| <= |a| && a[start..start + |l|] == l
    ensures start + 30 <= |a| && U16(a, start + 26) == |e.name| && U16(a, start + 28) == 0
    ensures var at := start + 30 + |e.name|; Part(a, at, at + |Payload(c, e)|) == Payload(c, e)
  {
    LocalParts(c, e, stamp, start);
    ZeroField();
    hide Local, Payload, LE16, U16, Blank, Part;
    var l, n, z := Local(c, e, stamp, start), |e.name|, |Payload(c, e)|;
    Wide16(l, 26, n);
    Wide16(l, 28, 0);
    Read16(a, start, l, 26);
    Read16(a, start, l, 28);
    SliceOfSlice(a, start, l, 30 + n, 30 + n + z);
    PartInside(a, start + 30 + n, start + 30 + n + z);
  }

  lemma ZeroField() ensures Blank(2) == LE16(0) {}

  lemma EntryReads(c: Codec, a: seq<byte>, e: Entry, stamp: Stamp, start: nat)
    requires Lossless(c) && |e.name| < 0x1_0000 && (e.store ==> e.data.Known?)
    requires var l := Local(c, e, stamp, start); start + |l| <= |a| && a[start..start + |l|] == l
    ensures Gives(c, a, FileOf(Describe(c, e, start)), e)
  {
    LocalReads(c, a, e, stamp, start);
    PayloadOpens(c, e);
    hide Local, Payload, Plain, LE16, U16, CrcOf, Part;
    var f := FileOf(Describe(c, e, start));
    forall max: Option<nat>
      ensures Unpacked(c, a, f, max) ==
              if max.Some? && |Plain(e.data)| > max.value then Err(TooLarge) else Ok(Plain(e.data))
    {
    }
  }

  /** Names that fit their field, and nothing stored that was not known up front. */
  ghost predicate Plainly(entries: seq<Entry>) {
    forall e <- entries :: |e.name| < 0x1_0000 && (e.store ==> e.data.Known?)
  }

  /** Where an archive holds the entries' bodies, the directory's offsets lead to their bytes. */
  lemma {:induction false} BodyReads(c: Codec, a: seq<byte>, entries: seq<Entry>, stamp: Stamp, start: nat)
    requires Lossless(c) && Plainly(entries)
    requires var b := Body(c, entries, stamp, start); start + |b| <= |a| && a[start..start + |b|] == b
    ensures AllGive(c, a, FilesOf(Table(c, entries, stamp, start)), FileEntries(entries))
    decreases entries
  {
    hide Local, Describe, Gives, IsFolder;
    if entries != [] {
      var l := Local(c, entries[0], stamp, start);
      var rest := Body(c, entries[1..], stamp, start + |l|);
      SliceOfSlice(a, start, l + rest, 0, |l|);
      SliceOfSlice(a, start, l + rest, |l|, |l + rest|);
      assert (l + rest)[..|l|] == l && (l + rest)[|l|..] == rest;
      EntryReads(c, a, entries[0], stamp, start);
      DescribedName(c, entries[0], start);
      BodyReads(c, a, entries[1..], stamp, start + |l|);
    }
  }

  lemma DescribedName(c: Codec, e: Entry, start: nat) ensures Describe(c, e, start).name == e.name {}

  /** Nothing in the record wraps, and its offset is that of the entry's own local header. */
  ghost predicate Points(c: Codec, a: seq<byte>, e: Entry, stamp: Stamp, w: Written) {
    var l := Local(c, e, stamp, w.offset);
    Fits(w) && w == Describe(c, e, w.offset) && w.offset + |l| <= |a| && a[w.offset..w.offset + |l|] == l
  }

  lemma PayloadInside(c: Codec, e: Entry, stamp: Stamp, start: nat)
    ensures |Payload(c, e)| <= |Local(c, e, stamp, start)|
  {
  }

  ghost predicate AllPoint(c: Codec, a: seq<byte>, entries: seq<Entry>, stamp: Stamp, table: seq<Written>)
    requires |table| == |entries|
  {
    forall k :: 0 <= k < |entries| ==> Points(c, a, entries[k], stamp, table[k])
  }

  lemma OneMorePoints(c: Codec, a: seq<byte>, entries: seq<Entry>, stamp: Stamp, table: seq<Written>)
    requires |table| == |entries| > 0
    requires Points(c, a, entries[0], stamp, table[0]) && AllPoint(c, a, entries[1..], stamp, table[1..])
    ensures AllPoint(c, a, entries, stamp, table)
  {
    hide Points;
    forall k | 0 <= k < |entries| ensures Points(c, a, entries[k], stamp, table[k]) {
      if k > 0 { assert entries[k] == entries[1..][k - 1] && table[k] == table[1..][k - 1]; }
    }
  }

  lemma {:induction false} TablePoints(c: Codec, a: seq<byte>, entries: seq<Entry>, stamp: Stamp, start: nat)
    requires Plainly(entries) && forall e <- entries :: |Plain(e.data)| < LIMIT
    requires var b := Body(c, entries, stamp, start); start + |b| <= |a| && start + |b| < LIMIT && a[start..start + |b|] == b
    ensures AllPoint(c, a, entries, stamp, Table(c, entries, stamp, start))
    decreases entries
  {
    hide Local, Describe, Fits, Points, Payload, Plain, AllPoint;
    if entries == [] {
      NonePoint(c, a, stamp);
    } else {
      PayloadInside(c, entries[0], stamp, start);
      var l := Local(c, entries[0], stamp, start);
      var rest := Body(c, entries[1..], stamp, start + |l|);
      SliceOfSlice(a, start, l + rest, 0, |l|);
      SliceOfSlice(a, start, l + rest, |l|, |l + rest|);
      assert (l + rest)[..|l|] == l && (l + rest)[|l|..] == rest;
      FirstPoints(c, a, entries[0], stamp, start);
      TablePoints(c, a, entries[1..], stamp, start + |l|);
      var table := Table(c, entries, stamp, start);
      assert table[1..] == Table(c, entries[1..], stamp, start + |l|);
      OneMorePoints(c, a, entries, stamp, table);
    }
  }

  lemma NonePoint(c: Codec, a: seq<byte>, stamp: Stamp) ensures AllPoint(c, a, [], stamp, []) {}

  lemma FirstPoints(c: Codec, a: seq<byte>, e: Entry, stamp: Stamp, start: nat)
    requires |e.name| < 0x1_0000 && |Plain(e.data)| < LIMIT && |Payload(c, e)| < LIMIT && start < LIMIT
    requires var l := Local(c, e, stamp, start); start + |l| <= |a| && a[start..start + |l|] == l
    ensures Points(c, a, e, stamp, Describe(c, e, start))
  {
    hide Local, Payload, Plain;
  }

  // ---------------------------------------------------------------------------------------------------------------
  // The round trip
  // ---------------------------------------------------------------------------------------------------------------

  lemma EndParts(count: nat, length: nat, start: nat)
    ensures var r := EndRecord(count, length, start);
            r[0..4] == LE32(END_SIGNATURE) && r[10..12] == LE16(count) && r[16..20] == LE32(start)
  {
    hide LE16, LE32, Blank;
  }

  /** The end record is found at once, and names the directory. */
  lemma EndReads(a: seq<byte>, front: seq<byte>, count: nat, length: nat, start: nat)
    requires a == front + EndRecord(count, length, start) && count < 0x1_0000 && start < 0x1_0000_0000
    ensures LastEnd(a, |a| - 22) && U16(a, |front| + 10) == count && U32(a, |front| + 16) == start
  {
    EndParts(count, length, start);
    hide EndRecord, LE16, LE32, U16, U32;
    var r := EndRecord(count, length, start);
    assert a[|front|..|front| + 22] == r;
    Wide32(r, 0, END_SIGNATURE);
    Wide16(r, 10, count);
    Wide32(r, 16, start);
    Read32(a, |front|, r, 0);
    Read16(a, |front|, r, 10);
    Read32(a, |front|, r, 16);
  }

  /** What `readZip` is proved to return on an archive whose last end record is at `end`. */
  function FilesAt(a: seq<byte>, end: nat): Result<seq<File>, ReadError>
    requires end + 22 <= |a|
  {
    ReadRecords(a, U32(a, end + 16), U16(a, end + 10))
  }

  /**
   * The archive holds exactly these entries: its last end record is at its end; no field of its directory wraps and
   * each offset there is its entry's; reading gives the entries in order (folders left out), each with its name and,
   * unless the caller's limit refuses it, exactly its bytes.
   */
  ghost predicate Holds(c: Codec, a: seq<byte>, entries: seq<Entry>, stamp: Stamp) {
    && |a| >= 22 && LastEnd(a, |a| - 22)
    && AllPoint(c, a, entries, stamp, Table(c, entries, stamp, 0))
    && var r := FilesAt(a, |a| - 22);
       r.Ok? && AllGive(c, a, r.value, FileEntries(entries))
  }

  /** A finished archive reads back. */
  lemma ReadsBack(c: Codec, entries: seq<Entry>, stamp: Stamp)
    requires Lossless(c) && Plainly(entries) && Writable(c, entries, stamp)
    ensures Holds(c, Archive(c, entries, stamp), entries, stamp)
  {
    hide Body, Directory, Table, EndRecord, ReadRecords, Points, Gives, LE16, LE32, U16, U32, Plain;
    var table := Table(c, entries, stamp, 0);
    var body, directory := Body(c, entries, stamp, 0), Directory(table, stamp);
    var end := EndRecord(|entries|, |directory|, |body|);
    var a := Archive(c, entries, stamp);
    assert a == body + directory + end;
    EndReads(a, body + directory, |entries|, |directory|, |body|);
    assert a[0..|body|] == body;
    assert a[|body|..|body| + |directory|] == directory;
    TablePoints(c, a, entries, stamp, 0);
    forall w | w in table ensures Fits(w) {
      var k :| 0 <= k < |table| && table[k] == w;
      PointsFit(c, a, entries[k], stamp, w);
    }
    DirectoryReads(a, |body|, table, stamp);
    BodyReads(c, a, entries, stamp, 0);
  }

  lemma PointsFit(c: Codec, a: seq<byte>, e: Entry, stamp: Stamp, w: Written)
    requires Points(c, a, e, stamp, w)
    ensures Fits(w)
  {
  }
}
