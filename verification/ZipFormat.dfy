/**
 * What the writer writes is the format that other programs read (PKWARE APPNOTE.TXT, sections 4.3.7, 4.3.9, 4.3.12 and
 * 4.3.16), field by field: from front to back without the directory, and by the directory.
 */
module ZipFormat {
  import opened Wrappers
  import opened Texts
  import opened Zip

  // ---------------------------------------------------------------------------------------------------------------
  // The format
  // ---------------------------------------------------------------------------------------------------------------

  predicate Is16(a: seq<byte>, at: nat, x: nat) {
    at + 2 <= |a| && U16(a, at) == x
  }

  predicate Is32(a: seq<byte>, at: nat, x: nat) {
    at + 4 <= |a| && U32(a, at) == x
  }

  predicate IsText(a: seq<byte>, at: nat, text: seq<byte>) {
    at + |text| <= |a| && a[at..at + |text|] == text
  }

  predicate AreSizes(a: seq<byte>, at: nat, crc: nat, packed: nat, size: nat) {
    Is32(a, at, crc) && Is32(a, at + 4, packed) && Is32(a, at + 8, size)
  }

  /** Flags, method, time and date. Two flags: 0x800 for names in UTF-8, and 8 where a descriptor comes after the data. */
  predicate IsKind(a: seq<byte>, at: nat, e: Entry, stamp: Stamp) {
    && Is16(a, at, if e.data.Known? then 0x800 else 0x808) && Is16(a, at + 2, if e.store then 0 else 8)
    && Is16(a, at + 4, stamp.time) && Is16(a, at + 6, stamp.date)
  }

  /** An entry from its header to the next one, `packed` bytes of data between: a reader needs nothing else. */
  ghost predicate IsLocal(c: Codec, a: seq<byte>, e: Entry, stamp: Stamp, at: nat, next: nat, packed: nat) {
    var data, plain := at + 30 + |e.name|, Plain(e.data);
    && Is32(a, at, LOCAL_SIGNATURE) && Is16(a, at + 4, 20) && IsKind(a, at + 6, e, stamp)
    && Is16(a, at + 26, |e.name|) && Is16(a, at + 28, 0) && IsText(a, at + 30, e.name)
    && data + packed <= |a|
    && (if e.store then Some(a[data..data + packed]) else c.inflate(a[data..data + packed])) == Some(plain)
    && if e.data.Known?
       then next == data + packed && AreSizes(a, at + 14, CrcOf(plain), packed, |plain|)
       else && next == data + packed + 16 && AreSizes(a, at + 14, 0, 0, 0)
            && Is32(a, data + packed, TAIL_SIGNATURE) && AreSizes(a, data + packed + 4, CrcOf(plain), packed, |plain|)
  }

  /** A record of the directory, to the next one. */
  ghost predicate IsRecord(a: seq<byte>, e: Entry, stamp: Stamp, at: nat, next: nat, start: nat, packed: nat) {
    var plain := Plain(e.data);
    && Is32(a, at, RECORD_SIGNATURE) && Is16(a, at + 4, 20) && Is16(a, at + 6, 20) && IsKind(a, at + 8, e, stamp)
    && AreSizes(a, at + 16, CrcOf(plain), packed, |plain|)
    && Is16(a, at + 28, |e.name|) && IsText(a, at + 30, Blank(12)) && Is32(a, at + 42, start)
    && IsText(a, at + 46, e.name) && next == at + 46 + |e.name|
  }

  predicate IsEnd(a: seq<byte>, at: nat, count: nat, start: nat) {
    && Is32(a, at, END_SIGNATURE) && IsText(a, at + 4, Blank(4)) && Is16(a, at + 8, count) && Is16(a, at + 10, count)
    && start <= at && Is32(a, at + 12, at - start) && Is32(a, at + 16, start) && Is16(a, at + 20, 0) && |a| == at + 22
  }

  /** Entries, records and end stand one behind the other, with nothing between them. */
  ghost predicate IsLayout(c: Codec, a: seq<byte>, entries: seq<Entry>, stamp: Stamp, starts: seq<nat>, places: seq<nat>,
                           packed: seq<nat>)
  {
    var n := |entries|;
    && |starts| == |places| == n + 1 && |packed| == n && starts[0] == 0 && places[0] == starts[n]
    && (forall k :: 0 <= k < n ==> IsLocal(c, a, entries[k], stamp, starts[k], starts[k + 1], packed[k]))
    && (forall k :: 0 <= k < n ==> IsRecord(a, entries[k], stamp, places[k], places[k + 1], starts[k], packed[k]))
    && IsEnd(a, places[n], n, starts[n])
  }

  // ---------------------------------------------------------------------------------------------------------------
  // Fields
  // ---------------------------------------------------------------------------------------------------------------

  predicate Has(a: seq<byte>, at: nat, field: seq<byte>) {
    at + |field| <= |a| && a[at..at + |field|] == field
  }

  lemma Has16(a: seq<byte>, at: nat, x: nat)
    requires Has(a, at, LE16(x)) && x < 0x1_0000
    ensures Is16(a, at, x)
  {
    hide LE16, U16;
    Wide16(a, at, x);
  }

  lemma Has32(a: seq<byte>, at: nat, x: nat)
    requires Has(a, at, LE32(x)) && x < 0x1_0000_0000
    ensures Is32(a, at, x)
  {
    hide LE32, U32;
    Wide32(a, at, x);
  }

  /** What stands in a part stands in the whole. */
  lemma HasInside(a: seq<byte>, at: nat, part: seq<byte>, i: nat, field: seq<byte>)
    requires Has(a, at, part) && Has(part, i, field)
    ensures Has(a, at + i, field)
  {
    SliceOfSlice(a, at, part, i, i + |field|);
  }

  lemma HasJoined(x: seq<byte>, y: seq<byte>, z: seq<byte>)
    ensures Has(x + y + z, |x|, y)
  {
  }

  lemma HasKind(a: seq<byte>, at: nat, e: Entry, w: Written, stamp: Stamp)
    requires Has(a, at, Kind(w, stamp)) && stamp.time < 0x1_0000 && stamp.date < 0x1_0000
    requires w.flags == (if e.data.Known? then 0x800 else 0x808) && w.way == (if e.store then 0 else 8)
    ensures IsKind(a, at, e, stamp)
  {
    var k := Kind(w, stamp);
    assert Has(k, 0, LE16(w.flags)) && Has(k, 2, LE16(w.way)) && Has(k, 4, LE16(stamp.time)) && Has(k, 6, LE16(stamp.date));
    hide Kind, LE16, Has;
    HasInside(a, at, k, 0, LE16(w.flags));
    HasInside(a, at, k, 2, LE16(w.way));
    HasInside(a, at, k, 4, LE16(stamp.time));
    HasInside(a, at, k, 6, LE16(stamp.date));
    Has16(a, at, w.flags);
    Has16(a, at + 2, w.way);
    Has16(a, at + 4, stamp.time);
    Has16(a, at + 6, stamp.date);
  }

  lemma HasSizes(a: seq<byte>, at: nat, crc: nat, packed: nat, size: nat)
    requires Has(a, at, Sizes(crc, packed, size))
    requires crc < 0x1_0000_0000 && packed < 0x1_0000_0000 && size < 0x1_0000_0000
    ensures AreSizes(a, at, crc, packed, size)
  {
    var s := Sizes(crc, packed, size);
    assert Has(s, 0, LE32(crc)) && Has(s, 4, LE32(packed)) && Has(s, 8, LE32(size)) by { hide LE32; }
    hide Sizes, LE32, Has;
    HasInside(a, at, s, 0, LE32(crc));
    HasInside(a, at, s, 4, LE32(packed));
    HasInside(a, at, s, 8, LE32(size));
    Has32(a, at, crc);
    Has32(a, at + 4, packed);
    Has32(a, at + 8, size);
  }

  // ---------------------------------------------------------------------------------------------------------------
  // What the writer's parts hold
  // ---------------------------------------------------------------------------------------------------------------

  lemma HeaderHas(w: Written, stamp: Stamp, known: bool)
    ensures var h := LocalHeader(w, stamp, known);
            && Has(h, 0, LE32(LOCAL_SIGNATURE)) && Has(h, 4, LE16(20)) && Has(h, 6, Kind(w, stamp))
            && Has(h, 14, if known then Sizes(w.crc, w.compressed, w.size) else Sizes(0, 0, 0))
            && Has(h, 26, LE16(|w.name|)) && Has(h, 28, LE16(0)) && Has(h, 30, w.name)
  {
    ZeroField();
    hide LE16, LE32, Kind, Sizes, Blank;
  }

  lemma HeaderIs(a: seq<byte>, at: nat, e: Entry, w: Written, stamp: Stamp)
    requires Fits(w) && w.name == e.name && Has(a, at, LocalHeader(w, stamp, e.data.Known?))
    requires stamp.time < 0x1_0000 && stamp.date < 0x1_0000
    requires w.flags == (if e.data.Known? then 0x800 else 0x808) && w.way == (if e.store then 0 else 8)
    ensures Is32(a, at, LOCAL_SIGNATURE) && Is16(a, at + 4, 20) && IsKind(a, at + 6, e, stamp)
    ensures Is16(a, at + 26, |e.name|) && Is16(a, at + 28, 0) && IsText(a, at + 30, e.name)
    ensures if e.data.Known? then AreSizes(a, at + 14, w.crc, w.compressed, w.size) else AreSizes(a, at + 14, 0, 0, 0)
  {
    var known := e.data.Known?;
    HeaderHas(w, stamp, known);
    var h, sizes := LocalHeader(w, stamp, known), if known then Sizes(w.crc, w.compressed, w.size) else Sizes(0, 0, 0);
    assert Has(a, at + 30, e.name) ==> IsText(a, at + 30, e.name);
    hide LocalHeader, LE16, LE32, Kind, Sizes, Has, Is16, Is32, IsKind, AreSizes, IsText;
    HasInside(a, at, h, 0, LE32(LOCAL_SIGNATURE));
    HasInside(a, at, h, 4, LE16(20));
    HasInside(a, at, h, 6, Kind(w, stamp));
    HasInside(a, at, h, 14, sizes);
    HasInside(a, at, h, 26, LE16(|w.name|));
    HasInside(a, at, h, 28, LE16(0));
    HasInside(a, at, h, 30, w.name);
    Has32(a, at, LOCAL_SIGNATURE);
    Has16(a, at + 4, 20);
    HasKind(a, at + 6, e, w, stamp);
    if known { HasSizes(a, at + 14, w.crc, w.compressed, w.size); } else { HasSizes(a, at + 14, 0, 0, 0); }
    Has16(a, at + 26, |w.name|);
    Has16(a, at + 28, 0);
  }

  lemma TailIs(a: seq<byte>, at: nat, w: Written)
    requires Fits(w) && Has(a, at, Tail(w))
    ensures Is32(a, at, TAIL_SIGNATURE) && AreSizes(a, at + 4, w.crc, w.compressed, w.size)
  {
    var t, sizes := Tail(w), Sizes(w.crc, w.compressed, w.size);
    assert Has(t, 0, LE32(TAIL_SIGNATURE)) && Has(t, 4, sizes) by { hide LE32, Sizes; }
    hide Tail, LE32, Sizes, Has, Is32, AreSizes;
    HasInside(a, at, t, 0, LE32(TAIL_SIGNATURE));
    HasInside(a, at, t, 4, sizes);
    Has32(a, at, TAIL_SIGNATURE);
    HasSizes(a, at + 4, w.crc, w.compressed, w.size);
  }

  lemma LocalHas(c: Codec, e: Entry, stamp: Stamp, start: nat)
    ensures var w, l, payload := Describe(c, e, start), Local(c, e, stamp, start), Payload(c, e);
            && Has(l, 0, LocalHeader(w, stamp, e.data.Known?)) && Has(l, 30 + |e.name|, payload)
            && |l| == 30 + |e.name| + |payload| + (if e.data.Known? then 0 else 16)
            && (e.data.Streamed? ==> Has(l, 30 + |e.name| + |payload|, Tail(w)))
  {
    hide LocalHeader, Tail, Payload;
  }

  /** What a record points at is its entry. */
  lemma PointedIsLocal(c: Codec, a: seq<byte>, e: Entry, stamp: Stamp, w: Written)
    requires Lossless(c) && Points(c, a, e, stamp, w) && (e.store ==> e.data.Known?)
    requires stamp.time < 0x1_0000 && stamp.date < 0x1_0000
    ensures IsLocal(c, a, e, stamp, w.offset, w.offset + |Local(c, e, stamp, w.offset)|, w.compressed)
  {
    hide Lossless, Describe, Local, LocalHeader, Tail, Payload, Has, IsLocal, Fits, Plain;
    PayloadOpens(c, e);
    LocalHas(c, e, stamp, w.offset);
    PointedHas(c, a, e, stamp, w);
    var l, at, n, payload := Local(c, e, stamp, w.offset), w.offset, |e.name|, Payload(c, e);
    DescribedIs(c, e, w);
    HasInside(a, at, l, 0, LocalHeader(w, stamp, e.data.Known?));
    HasInside(a, at, l, 30 + n, payload);
    if e.data.Streamed? { HasInside(a, at, l, 30 + n + |payload|, Tail(w)); }
    LocalIs(c, a, e, stamp, w, payload);
  }

  lemma PointedHas(c: Codec, a: seq<byte>, e: Entry, stamp: Stamp, w: Written)
    requires Points(c, a, e, stamp, w)
    ensures Has(a, w.offset, Local(c, e, stamp, w.offset))
  {
    hide Local, Fits, Describe;
  }

  lemma DescribedIs(c: Codec, e: Entry, w: Written)
    requires w == Describe(c, e, w.offset)
    ensures w.name == e.name && w.flags == (if e.data.Known? then 0x800 else 0x808) && w.way == (if e.store then 0 else 8)
    ensures w.crc == CrcOf(Plain(e.data)) && w.size == |Plain(e.data)| && w.compressed == |Payload(c, e)|
  {
  }

  lemma LocalIs(c: Codec, a: seq<byte>, e: Entry, stamp: Stamp, w: Written, payload: seq<byte>)
    requires Fits(w) && w.name == e.name && w.flags == (if e.data.Known? then 0x800 else 0x808)
    requires w.way == (if e.store then 0 else 8) && stamp.time < 0x1_0000 && stamp.date < 0x1_0000
    requires w.crc == CrcOf(Plain(e.data)) && w.size == |Plain(e.data)| && w.compressed == |payload|
    requires (if e.store then Some(payload) else c.inflate(payload)) == Some(Plain(e.data))
    requires Has(a, w.offset, LocalHeader(w, stamp, e.data.Known?)) && Has(a, w.offset + 30 + |e.name|, payload)
    requires e.data.Streamed? ==> Has(a, w.offset + 30 + |e.name| + |payload|, Tail(w))
    ensures IsLocal(c, a, e, stamp, w.offset,
                    w.offset + 30 + |e.name| + |payload| + (if e.data.Known? then 0 else 16), w.compressed)
  {
    hide LocalHeader, Tail, Plain, Has, Is16, Is32, IsKind, AreSizes, IsText, CrcOf, Fits;
    HeaderIs(a, w.offset, e, w, stamp);
    HasPart(a, w.offset + 30 + |e.name|, payload);
    if e.data.Streamed? { TailIs(a, w.offset + 30 + |e.name| + |payload|, w); }
  }

  lemma HasPart(a: seq<byte>, at: nat, part: seq<byte>)
    requires Has(a, at, part)
    ensures at + |part| <= |a| && a[at..at + |part|] == part
  {
  }

  lemma RecordHas(w: Written, stamp: Stamp)
    ensures var r := Record(w, stamp);
            && Has(r, 0, LE32(RECORD_SIGNATURE)) && Has(r, 4, LE16(20)) && Has(r, 6, LE16(20)) && Has(r, 8, Kind(w, stamp))
            && Has(r, 16, Sizes(w.crc, w.compressed, w.size)) && Has(r, 28, LE16(|w.name|)) && Has(r, 30, Blank(12))
            && Has(r, 42, LE32(w.offset)) && Has(r, 46, w.name)
  {
    hide LE16, LE32, Kind, Sizes, Blank;
  }

  lemma RecordIs(c: Codec, a: seq<byte>, at: nat, e: Entry, w: Written, stamp: Stamp)
    requires Fits(w) && w == Describe(c, e, w.offset) && Has(a, at, Record(w, stamp))
    requires stamp.time < 0x1_0000 && stamp.date < 0x1_0000
    ensures IsRecord(a, e, stamp, at, at + 46 + |e.name|, w.offset, w.compressed)
  {
    hide Describe, Record, LE16, LE32, Kind, Sizes, Blank, Plain, Payload, Has, Is16, Is32, IsKind, AreSizes, IsText, CrcOf;
    DescribedIs(c, e, w);
    RecordHas(w, stamp);
    var r, sizes := Record(w, stamp), Sizes(w.crc, w.compressed, w.size);
    HasInside(a, at, r, 0, LE32(RECORD_SIGNATURE));
    HasInside(a, at, r, 4, LE16(20));
    HasInside(a, at, r, 6, LE16(20));
    HasInside(a, at, r, 8, Kind(w, stamp));
    HasInside(a, at, r, 16, sizes);
    HasInside(a, at, r, 28, LE16(|w.name|));
    HasInside(a, at, r, 30, Blank(12));
    HasInside(a, at, r, 42, LE32(w.offset));
    HasInside(a, at, r, 46, w.name);
    Has32(a, at, RECORD_SIGNATURE);
    Has16(a, at + 4, 20);
    Has16(a, at + 6, 20);
    HasKind(a, at + 8, e, w, stamp);
    HasSizes(a, at + 16, w.crc, w.compressed, w.size);
    Has16(a, at + 28, |w.name|);
    HasText(a, at + 30, Blank(12));
    Has32(a, at + 42, w.offset);
    HasText(a, at + 46, w.name);
  }

  lemma HasText(a: seq<byte>, at: nat, text: seq<byte>)
    requires Has(a, at, text)
    ensures IsText(a, at, text)
  {
  }

  lemma EndHas(count: nat, length: nat, start: nat)
    ensures var r := EndRecord(count, length, start);
            && Has(r, 0, LE32(END_SIGNATURE)) && Has(r, 4, Blank(4)) && Has(r, 8, LE16(count)) && Has(r, 10, LE16(count))
            && Has(r, 12, LE32(length)) && Has(r, 16, LE32(start)) && Has(r, 20, LE16(0))
  {
    ZeroField();
    hide LE16, LE32, Blank;
  }

  lemma EndIs(a: seq<byte>, at: nat, count: nat, start: nat)
    requires start <= at && Has(a, at, EndRecord(count, at - start, start)) && |a| == at + 22
    requires count < 0x1_0000 && at < 0x1_0000_0000
    ensures IsEnd(a, at, count, start)
  {
    hide EndRecord, LE16, LE32, Blank, Has, Is16, Is32, IsText;
    EndHas(count, at - start, start);
    var r := EndRecord(count, at - start, start);
    HasInside(a, at, r, 0, LE32(END_SIGNATURE));
    HasInside(a, at, r, 4, Blank(4));
    HasInside(a, at, r, 8, LE16(count));
    HasInside(a, at, r, 10, LE16(count));
    HasInside(a, at, r, 12, LE32(at - start));
    HasInside(a, at, r, 16, LE32(start));
    HasInside(a, at, r, 20, LE16(0));
    Has32(a, at, END_SIGNATURE);
    HasText(a, at + 4, Blank(4));
    Has16(a, at + 8, count);
    Has16(a, at + 10, count);
    Has32(a, at + 12, at - start);
    Has32(a, at + 16, start);
    Has16(a, at + 20, 0);
  }

  // ---------------------------------------------------------------------------------------------------------------
  // One behind the other
  // ---------------------------------------------------------------------------------------------------------------

  /** Where an entry begins; the one past the last is where the directory does. */
  function StartOf(c: Codec, entries: seq<Entry>, stamp: Stamp, start: nat, k: nat): nat
    requires k <= |entries|
  {
    if k < |entries| then Table(c, entries, stamp, start)[k].offset else start + |Body(c, entries, stamp, start)|
  }

  lemma {:induction false} StartsFollow(c: Codec, entries: seq<Entry>, stamp: Stamp, start: nat, k: nat)
    requires k <= |entries|
    ensures StartOf(c, entries, stamp, start, 0) == start
    ensures k < |entries| ==>
              StartOf(c, entries, stamp, start, k + 1)
                == StartOf(c, entries, stamp, start, k) + |Local(c, entries[k], stamp, StartOf(c, entries, stamp, start, k))|
    decreases entries
  {
    hide Local, Describe;
    if entries != [] {
      DescribedOffset(c, entries[0], start);
      var next := start + |Local(c, entries[0], stamp, start)|;
      if k == 0 {
        StartsFollow(c, entries[1..], stamp, next, 0);
      } else {
        StartsFollow(c, entries[1..], stamp, next, k - 1);
      }
    }
  }

  lemma DescribedOffset(c: Codec, e: Entry, start: nat) ensures Describe(c, e, start).offset == start {}

  function PlaceOf(table: seq<Written>, stamp: Stamp, start: nat, k: nat): nat
    requires k <= |table|
  {
    start + |Directory(table[..k], stamp)|
  }

  lemma {:induction false} RecordsFollow(table: seq<Written>, stamp: Stamp, k: nat)
    requires k < |table|
    ensures var at := |Directory(table[..k], stamp)|;
            && Has(Directory(table, stamp), at, Record(table[k], stamp))
            && |Directory(table[..k + 1], stamp)| == at + 46 + |table[k].name|
    decreases table
  {
    hide Record;
    var r, rest := Record(table[0], stamp), Directory(table[1..], stamp);
    assert table[..k + 1][1..] == table[1..][..k];
    if k == 0 {
      assert Directory(table[..1], stamp) == r + Directory([], stamp);
    } else {
      RecordsFollow(table[1..], stamp, k - 1);
      assert table[..k][1..] == table[1..][..k - 1];
      var at := |Directory(table[1..][..k - 1], stamp)|;
      SliceOfSlice(r + rest, |r|, rest, at, at + 46 + |table[k].name|);
    }
  }

  /** An archive is in the format: from front to back each entry, each record, and the end. */
  lemma WrittenInFormat(c: Codec, entries: seq<Entry>, stamp: Stamp) returns (starts: seq<nat>, places: seq<nat>, packed: seq<nat>)
    requires Lossless(c) && Plainly(entries) && Writable(c, entries, stamp)
    requires stamp.time < 0x1_0000 && stamp.date < 0x1_0000
    ensures IsLayout(c, Archive(c, entries, stamp), entries, stamp, starts, places, packed)
  {
    hide Body, Directory, Table, EndRecord, Points, Local, Fits, Describe, Has, IsLocal, IsRecord, IsEnd, Plain, Lossless;
    var n, table := |entries|, Table(c, entries, stamp, 0);
    var body, directory := Body(c, entries, stamp, 0), Directory(table, stamp);
    var a, end := Archive(c, entries, stamp), EndRecord(n, |directory|, |body|);
    assert a == body + directory + end;
    starts := seq(n + 1, k requires 0 <= k <= n => StartOf(c, entries, stamp, 0, k));
    places := seq(n + 1, k requires 0 <= k <= n => PlaceOf(table, stamp, |body|, k));
    packed := seq(n, k requires 0 <= k < n => table[k].compressed);
    assert a[0..|body|] == body;
    HasJoined(body, directory, end);
    TablePoints(c, a, entries, stamp, 0);
    forall k | 0 <= k < n
      ensures IsLocal(c, a, entries[k], stamp, starts[k], starts[k + 1], packed[k])
      ensures IsRecord(a, entries[k], stamp, places[k], places[k + 1], starts[k], packed[k])
    {
      EntryStands(c, a, entries, stamp, table, k);
      PointedFits(c, a, entries[k], stamp, table[k]);
      RecordStands(c, a, entries[k], stamp, table, |body|, k);
    }
    StartsFollow(c, entries, stamp, 0, 0);
    assert table[..0] == [] && table[..n] == table;
    assert a == (body + directory) + end + [];
    HasJoined(body + directory, end, []);
    NoRecords(stamp);
    EndIs(a, |body| + |directory|, n, |body|);
  }

  lemma NoRecords(stamp: Stamp) ensures Directory([], stamp) == [] {}

  lemma EntryStands(c: Codec, a: seq<byte>, entries: seq<Entry>, stamp: Stamp, table: seq<Written>, k: nat)
    requires Lossless(c) && Plainly(entries) && k < |entries| && stamp.time < 0x1_0000 && stamp.date < 0x1_0000
    requires table == Table(c, entries, stamp, 0) && Points(c, a, entries[k], stamp, table[k])
    ensures IsLocal(c, a, entries[k], stamp, StartOf(c, entries, stamp, 0, k), StartOf(c, entries, stamp, 0, k + 1), table[k].compressed)
  {
    var e, w := entries[k], table[k];
    assert e in entries;
    hide Plainly, Points, Fits, Lossless, Local, IsLocal, Table, Body;
    assert StartOf(c, entries, stamp, 0, k) == w.offset;
    StartsFollow(c, entries, stamp, 0, k);
    hide StartOf;
    PointedIsLocal(c, a, e, stamp, w);
  }

  lemma RecordStands(c: Codec, a: seq<byte>, e: Entry, stamp: Stamp, table: seq<Written>, start: nat, k: nat)
    requires k < |table| && stamp.time < 0x1_0000 && stamp.date < 0x1_0000
    requires Has(a, start, Directory(table, stamp)) && Fits(table[k]) && table[k] == Describe(c, e, table[k].offset)
    ensures IsRecord(a, e, stamp, PlaceOf(table, stamp, start, k), PlaceOf(table, stamp, start, k + 1), table[k].offset, table[k].compressed)
  {
    hide Fits, Describe, Record, Has, IsRecord, Directory, Plain, Payload;
    var w := table[k];
    DescribedIs(c, e, w);
    RecordsFollow(table, stamp, k);
    var at := |Directory(table[..k], stamp)|;
    HasInside(a, start, Directory(table, stamp), at, Record(w, stamp));
    RecordIs(c, a, start + at, e, w, stamp);
  }

  lemma PointedFits(c: Codec, a: seq<byte>, e: Entry, stamp: Stamp, w: Written)
    requires Points(c, a, e, stamp, w)
    ensures Fits(w) && w == Describe(c, e, w.offset)
  {
  }
}
