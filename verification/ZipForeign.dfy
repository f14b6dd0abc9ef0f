/**
 * Reading archives that other programs wrote: directory records and local headers with extra fields and comments of any
 * length, and entries that may be damaged.
 */
module ZipForeign {
  import opened Wrappers
  import opened Texts
  import opened Zip

  /**
   * A record of a directory (PKWARE APPNOTE.TXT, section 4.3.12): the fields that are read, and the bytes that are not,
   * the versions and flags, the time and date, and the disk and attributes.
   */
  datatype Listed = Listed(w: Written, versions: seq<byte>, when_: seq<byte>, attributes: seq<byte>, extra: seq<byte>,
                           comment: seq<byte>)

  ghost predicate IsListed(x: Listed) {
    && Fits(x.w) && |x.versions| == 6 && |x.when_| == 4 && |x.attributes| == 8
    && |x.extra| < 0x1_0000 && |x.comment| < 0x1_0000
  }

  function ShowListed(x: Listed): seq<byte> {
    LE32(RECORD_SIGNATURE) + x.versions + LE16(x.w.way) + x.when_ + LE32(x.w.crc) + LE32(x.w.compressed) + LE32(x.w.size)
    + LE16(|x.w.name|) + LE16(|x.extra|) + LE16(|x.comment|) + x.attributes + LE32(x.w.offset)
    + x.w.name + x.extra + x.comment
  }

  function ShowAll(xs: seq<Listed>): seq<byte> {
    if xs == [] then [] else ShowListed(xs[0]) + ShowAll(xs[1..])
  }

  function FilesListed(xs: seq<Listed>): seq<File> {
    if xs == [] then [] else (if IsFolder(xs[0].w.name) then [] else [FileOf(xs[0].w)]) + FilesListed(xs[1..])
  }

  /** The fields in three parts: those before the lengths, the lengths, and what follows them. */
  function Front(x: Listed): seq<byte> {
    LE32(RECORD_SIGNATURE) + x.versions + LE16(x.w.way) + x.when_ + LE32(x.w.crc) + LE32(x.w.compressed) + LE32(x.w.size)
  }

  function Lengths(x: Listed): seq<byte> {
    LE16(|x.w.name|) + LE16(|x.extra|) + LE16(|x.comment|)
  }

  function Back(x: Listed): seq<byte> {
    x.attributes + LE32(x.w.offset) + x.w.name + x.extra + x.comment
  }

  lemma FrontParts(x: Listed)
    requires IsListed(x)
    ensures var r := Front(x);
            && |r| == 28 && r[0..4] == LE32(RECORD_SIGNATURE) && r[10..12] == LE16(x.w.way) && r[16..20] == LE32(x.w.crc)
            && r[20..24] == LE32(x.w.compressed) && r[24..28] == LE32(x.w.size)
  {
    hide LE16, LE32, Fits;
  }

  lemma BackParts(x: Listed)
    requires IsListed(x)
    ensures var r, n := Back(x), 12 + |x.w.name|;
            |r| == n + |x.extra| + |x.comment| && r[8..12] == LE32(x.w.offset) && r[12..n] == x.w.name
  {
    hide LE32, Fits;
  }

  lemma ThreeParts(x: Listed)
    ensures ShowListed(x) == Front(x) + Lengths(x) + Back(x)
  {
    hide LE16, LE32;
  }

  lemma InFirst<T>(a: seq<T>, b: seq<T>, c: seq<T>, lo: nat, hi: nat)
    requires lo <= hi <= |a|
    ensures (a + b + c)[lo..hi] == a[lo..hi]
  {
  }

  lemma InSecond<T>(a: seq<T>, b: seq<T>, c: seq<T>, lo: nat, hi: nat)
    requires lo <= hi <= |b|
    ensures (a + b + c)[|a| + lo..|a| + hi] == b[lo..hi]
  {
  }

  lemma InThird<T>(a: seq<T>, b: seq<T>, c: seq<T>, lo: nat, hi: nat)
    requires lo <= hi <= |c|
    ensures (a + b + c)[|a| + |b| + lo..|a| + |b| + hi] == c[lo..hi]
  {
  }

  lemma ListedParts(x: Listed)
    requires IsListed(x)
    ensures var r, n := ShowListed(x), 46 + |x.w.name|;
            && |r| == n + |x.extra| + |x.comment|
            && r[0..4] == LE32(RECORD_SIGNATURE) && r[10..12] == LE16(x.w.way) && r[16..20] == LE32(x.w.crc)
            && r[20..24] == LE32(x.w.compressed) && r[24..28] == LE32(x.w.size) && r[28..30] == LE16(|x.w.name|)
            && r[30..32] == LE16(|x.extra|) && r[32..34] == LE16(|x.comment|) && r[42..46] == LE32(x.w.offset)
            && r[46..n] == x.w.name
  {
    FrontParts(x);
    BackParts(x);
    ThreeParts(x);
    var a, b, c := Front(x), Lengths(x), Back(x);
    assert b[0..2] == LE16(|x.w.name|) && b[2..4] == LE16(|x.extra|) && b[4..6] == LE16(|x.comment|) && |b| == 6;
    hide ShowListed, Front, Lengths, Back, LE16, LE32, Fits;
    InFirst(a, b, c, 0, 4);
    InFirst(a, b, c, 10, 12);
    InFirst(a, b, c, 16, 20);
    InFirst(a, b, c, 20, 24);
    InFirst(a, b, c, 24, 28);
    InSecond(a, b, c, 0, 2);
    InSecond(a, b, c, 2, 4);
    InSecond(a, b, c, 4, 6);
    InThird(a, b, c, 8, 12);
    InThird(a, b, c, 12, 12 + |x.w.name|);
  }

  lemma ListedFields(x: Listed)
    requires IsListed(x)
    ensures var r := ShowListed(x);
            && |r| == 46 + |x.w.name| + |x.extra| + |x.comment|
            && U32(r, 0) == RECORD_SIGNATURE && U16(r, 10) == x.w.way && U32(r, 16) == x.w.crc
            && U32(r, 20) == x.w.compressed && U32(r, 24) == x.w.size && U16(r, 28) == |x.w.name|
            && U16(r, 30) == |x.extra| && U16(r, 32) == |x.comment| && U32(r, 42) == x.w.offset
            && r[46..46 + |x.w.name|] == x.w.name
  {
    ListedParts(x);
    hide ShowListed, LE16, LE32, U32, U16;
    var r := ShowListed(x);
    Wide32(r, 0, RECORD_SIGNATURE);
    Wide16(r, 10, x.w.way);
    Wide32(r, 16, x.w.crc);
    Wide32(r, 20, x.w.compressed);
    Wide32(r, 24, x.w.size);
    Wide16(r, 28, |x.w.name|);
    Wide16(r, 30, |x.extra|);
    Wide16(r, 32, |x.comment|);
    Wide32(r, 42, x.w.offset);
  }

  /** Any record is read as what it lists, and the next one is looked for behind its extra field and its comment. */
  lemma ListedReads(a: seq<byte>, at: nat, x: Listed)
    requires IsListed(x) && at + |ShowListed(x)| <= |a| && a[at..at + |ShowListed(x)|] == ShowListed(x)
    ensures |ShowListed(x)| >= 46 && U32(a, at) == RECORD_SIGNATURE && FileAt(a, at) == FileOf(x.w)
    ensures NextAt(a, at) == at + |ShowListed(x)|
  {
    ListedFields(x);
    hide ShowListed, U16, U32, Fits;
    var r, n := ShowListed(x), |x.w.name|;
    Read32(a, at, r, 0);
    Read16(a, at, r, 10);
    Read32(a, at, r, 16);
    Read32(a, at, r, 20);
    Read32(a, at, r, 24);
    Read16(a, at, r, 28);
    Read16(a, at, r, 30);
    Read16(a, at, r, 32);
    Read32(a, at, r, 42);
    SliceOfSlice(a, at, r, 46, 46 + n);
    PartInside(a, at + 46, at + 46 + n);
  }

  /** Any directory is read as what its records list, folders left out. */
  lemma {:induction false} ForeignDirectoryReads(a: seq<byte>, at: nat, xs: seq<Listed>)
    requires forall x <- xs :: IsListed(x)
    requires at + |ShowAll(xs)| <= |a| && a[at..at + |ShowAll(xs)|] == ShowAll(xs)
    ensures ReadRecords(a, at, |xs|) == Ok(FilesListed(xs))
    decreases xs
  {
    hide ShowListed, U16, U32, FileAt, NextAt, IsFolder, IsListed;
    if xs != [] {
      var r, rest := ShowListed(xs[0]), ShowAll(xs[1..]);
      SliceOfSlice(a, at, r + rest, 0, |r|);
      SliceOfSlice(a, at, r + rest, |r|, |r + rest|);
      assert (r + rest)[..|r|] == r && (r + rest)[|r|..] == rest;
      ListedReads(a, at, xs[0]);
      ForeignDirectoryReads(a, at + |r|, xs[1..]);
    }
  }

  /** The archive's last end record names this directory: so does what is read, whatever else is in the file. */
  lemma ForeignArchiveReads(a: seq<byte>, end: nat, at: nat, xs: seq<Listed>)
    requires end + 22 <= |a| && U32(a, end + 16) == at && U16(a, end + 10) == |xs| && forall x <- xs :: IsListed(x)
    requires at + |ShowAll(xs)| <= |a| && a[at..at + |ShowAll(xs)|] == ShowAll(xs)
    ensures FilesAt(a, end) == Ok(FilesListed(xs))
  {
    ForeignDirectoryReads(a, at, xs);
  }

  /** Where an entry's data begins: behind the name and the extra field of its own header. */
  ghost predicate DataAt(a: seq<byte>, f: File, data: nat) {
    f.local + 30 <= |a| && data == f.local + 30 + U16(a, f.local + 26) + U16(a, f.local + 28)
  }

  /** What the stored bytes of an entry stand for. */
  function Unpacks(c: Codec, way: nat, stored: seq<byte>): Option<seq<byte>> {
    if way == 0 then Some(stored) else if way == 8 then c.inflate(stored) else None
  }

  /** The bytes that lie there, as many as the directory says or as there are. */
  ghost predicate StoredAt(a: seq<byte>, data: nat, length: nat, stored: seq<byte>) {
    && |stored| == (if data >= |a| then 0 else if data + length <= |a| then length else |a| - data)
    && forall i :: 0 <= i < |stored| ==> stored[i] == a[data + i]
  }

  lemma PartIsStored(a: seq<byte>, data: nat, length: nat)
    ensures StoredAt(a, data, length, Part(a, data, data + length))
  {
  }

  lemma StoredIsPart(a: seq<byte>, data: nat, length: nat, stored: seq<byte>)
    requires StoredAt(a, data, length, stored)
    ensures stored == Part(a, data, data + length)
  {
  }

  /**
   * Whatever the archive: an entry's bytes are given exactly where its data unpacks to them, they are as many as the
   * directory says and have its checksum, and they are no more than the caller allows. Else the refusal says which.
   */
  lemma GivenExactlyTheRecorded(c: Codec, a: seq<byte>, f: File, max: Option<nat>, data: nat, stored: seq<byte>)
    requires DataAt(a, f, data) && StoredAt(a, data, f.compressed, stored)
    ensures var r, out := Unpacked(c, a, f, max), Unpacks(c, f.way, stored);
            && (forall bytes :: r == Ok(bytes) <==>
                  out == Some(bytes) && |bytes| == f.size && CrcOf(bytes) == f.crc && (max.None? || |bytes| <= max.value))
            && (r == Err(UnknownWay) <==> f.way != 0 && f.way != 8)
            && (r == Err(TooLarge) <==> out.Some? && max.Some? && |out.value| > max.value)
            && r != Err(OutOfRange)
  {
    StoredIsPart(a, data, f.compressed, stored);
    hide Part, StoredAt, U16, CrcOf;
  }

  lemma HeaderMissing(c: Codec, a: seq<byte>, f: File, max: Option<nat>)
    ensures Unpacked(c, a, f, max) == Err(OutOfRange) <==> f.local + 30 > |a|
  {
    hide CrcOf, U16;
  }
}
