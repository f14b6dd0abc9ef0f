/**
 * CSV as it is written (`csvField`, `toCsv`, the lines of `csvBody`) and read back (`parseCsvRecords`): section 2 of
 * RFC 4180, with an unquoted `\N` for NULL. Text is a sequence of characters.
 */
module Csv {
  import opened Wrappers
  import opened Cells

  const CSV_NULL := "\\N"
  const BOM := '\U{feff}'

  datatype Style = Style(neutralise: bool, quoteAll: bool, stripEol: bool)

  // ---------------------------------------------------------------------------------------------------------------
  // Writing
  // ---------------------------------------------------------------------------------------------------------------

  /** The text on one line: each line break is one space. */
  function Flat(s: string): string {
    if s == "" then ""
    else if |s| > 1 && s[0] == '\r' && s[1] == '\n' then " " + Flat(s[2..])
    else (if s[0] == '\r' || s[0] == '\n' then " " else [s[0]]) + Flat(s[1..])
  }

  function NeutraliseFormula(s: string): string {
    if |s| > 0 && s[0] in "=+-@\t\r" then "'" + s else s
  }

  /** Every quote doubled. */
  function Doubled(s: string): string {
    if s == "" then "" else (if s[0] == '"' then "\"\"" else [s[0]]) + Doubled(s[1..])
  }

  predicate NeedsQuotes(text: string, delimiter: char, quoteAll: bool) {
    quoteAll || '"' in text || '\r' in text || '\n' in text || delimiter in text || text == CSV_NULL || text == ""
  }

  function Enclosed(text: string): string {
    "\"" + Doubled(text) + "\""
  }

  /** A value's text as a field, after what the style does to it. */
  function TextField(raw: string, delimiter: char, style: Style): string {
    var flat := if style.stripEol then Flat(raw) else raw;
    var text := if style.neutralise then NeutraliseFormula(flat) else flat;
    if NeedsQuotes(text, delimiter, style.quoteAll) then Enclosed(text) else text
  }

  /** One field; None where the text was cut, which is refused. */
  function CsvField(cell: Cell, delimiter: char, style: Style): Option<string> {
    match cell
    case Null => Some(CSV_NULL)
    case Truncated(_) => None
    case Text(text) => Some(TextField(text, delimiter, style))
    case Shown(text) => Some(TextField(text, delimiter, style))
    case Binary(bin) => Some(TextField(bin, delimiter, style))
  }

  function Fields(row: seq<Cell>, delimiter: char, style: Style): Option<seq<string>> {
    if row == [] then Some([])
    else
      var first, rest := CsvField(row[0], delimiter, style), Fields(row[1..], delimiter, style);
      if first.None? || rest.None? then None else Some([first.value] + rest.value)
  }

  function Lines(rows: seq<seq<Cell>>, delimiter: char, style: Style): Option<seq<string>> {
    if rows == [] then Some([])
    else
      var first, rest := Fields(rows[0], delimiter, style), Lines(rows[1..], delimiter, style);
      if first.None? || rest.None? then None else Some([Join(first.value, [delimiter])] + rest.value)
  }

  /** Rows joined and ended by CRLF. */
  function Table(rows: seq<seq<Cell>>, delimiter: char, style: Style): Option<string> {
    var lines := Lines(rows, delimiter, style);
    if lines.None? then None else Some(Join(lines.value, "\r\n") + "\r\n")
  }

  function Header(columns: seq<string>): seq<Cell> {
    seq(|columns|, i requires 0 <= i < |columns| => Text(columns[i]))
  }

  function ToCsv(columns: seq<string>, rows: seq<seq<Cell>>, neutralise: bool): Option<string> {
    Table([Header(columns)] + rows, ',', Style(neutralise, false, false))
  }

  // ---------------------------------------------------------------------------------------------------------------
  // Reading
  // ---------------------------------------------------------------------------------------------------------------

  datatype LineEnd = Auto | Lf | Crlf | Cr

  datatype Options = Options(delimiter: string, quote: string, escape: string, lineEnd: LineEnd)

  /** One record: its fields, and which of them were quoted. */
  datatype Record = Record(fields: seq<string>, quoted: seq<bool>)

  /** `closed` is false where a quote was never closed; the records before it were already handed out. */
  datatype Parsed = Parsed(records: seq<Record>, closed: bool)

  /** The row and the field being read. */
  datatype Reading = Reading(row: seq<string>, marks: seq<bool>, field: string, quoted: bool, wasQuoted: bool)

  const FRESH := Reading([], [], "", false, false)

  /** What reading at one place takes off the input, leaves, and perhaps completes. */
  datatype Move = Move(length: nat, next: Reading, done: Option<Record>)

  function Terminator(lineEnd: LineEnd): Option<string> {
    match lineEnd
    case Auto => None
    case Lf => Some("\n")
    case Crlf => Some("\r\n")
    case Cr => Some("\r")
  }

  function EndRow(st: Reading): Record {
    Record(st.row + [st.field], st.marks + [st.wasQuoted])
  }

  function Add(st: Reading, more: string): Reading {
    st.(field := st.field + more)
  }

  function NextQuoted(o: Options, s: string, st: Reading): Move
    requires s != ""
  {
    if o.escape != o.quote && [s[0]] == o.escape && |s| > 1 then Move(2, Add(st, [s[1]]), None)
    else if [s[0]] == o.quote then
      if o.escape == o.quote && |s| > 1 && [s[1]] == o.quote then Move(2, Add(st, o.quote), None)
      else Move(1, st.(quoted := false), None)
    else Move(1, Add(st, [s[0]]), None)
  }

  function Next(o: Options, s: string, st: Reading): (m: Move)
    requires s != ""
    ensures 0 < m.length <= |s| && (m.done.Some? ==> m.next == FRESH)
  {
    if st.quoted then NextQuoted(o, s, st)
    else if [s[0]] == o.quote && st.field == "" then Move(1, st.(quoted := true, wasQuoted := true), None)
    else if [s[0]] == o.delimiter then
      Move(1, Reading(st.row + [st.field], st.marks + [st.wasQuoted], "", false, false), None)
    else
      var terminator := Terminator(o.lineEnd);
      if terminator.Some? then
        if terminator.value <= s then Move(|terminator.value|, FRESH, Some(EndRow(st)))
        else Move(1, Add(st, [s[0]]), None)
      else if s[0] == '\r' then Move(if |s| > 1 && s[1] == '\n' then 2 else 1, FRESH, Some(EndRow(st)))
      else if s[0] == '\n' then Move(1, FRESH, Some(EndRow(st)))
      else Move(1, Add(st, [s[0]]), None)
  }

  /** A record as a blank line gives one: dropped at the end of the file. */
  predicate Blank(r: Record) {
    r.fields == [""] && r.quoted == [false]
  }

  function LastOne(r: Record): seq<Record> {
    if Blank(r) then [] else [r]
  }

  function Begun(st: Reading): bool {
    st.field != "" || st.wasQuoted || st.row != []
  }

  /** The records of what is left, from the middle of one. */
  function ParseFrom(o: Options, s: string, st: Reading): Parsed
    decreases |s|
  {
    if s == "" then
      if st.quoted then Parsed([], false)
      else Parsed(if Begun(st) then LastOne(EndRow(st)) else [], true)
    else
      var m := Next(o, s, st);
      Then(m.done, s[m.length..] == "", ParseFrom(o, s[m.length..], m.next))
  }

  /** A record completed and then the rest; the last one of the file, followed by nothing, may be dropped. */
  function Then(done: Option<Record>, last: bool, rest: Parsed): Parsed {
    if done.None? then rest
    else Parsed((if last then LastOne(done.value) else [done.value]) + rest.records, rest.closed)
  }

  function WithoutBom(s: string): string {
    if |s| > 0 && s[0] == BOM then s[1..] else s
  }

  function Parse(o: Options, text: string): Parsed {
    ParseFrom(o, WithoutBom(text), FRESH)
  }

  lemma Moved(o: Options, input: string, i: nat, st: Reading, m: Move)
    requires i < |input| && m == Next(o, input[i..], st)
    ensures ParseFrom(o, input[i..], st) ==
            Then(m.done, i + m.length == |input|, ParseFrom(o, input[i + m.length..], m.next))
  {
    assert input[i..][m.length..] == input[i + m.length..];
  }

  /** What the records handed out, the one held back and the rest to be read make together. */
  ghost predicate Together(records: seq<Record>, pending: Option<Record>, last: bool, rest: Parsed, all: Parsed) {
    var more := Then(pending, last, rest);
    all == Parsed(records + more.records, more.closed)
  }

  lemma Onwards(records: seq<Record>, pending: Option<Record>, m: Move, last: bool, rest: Parsed, all: Parsed)
    requires Together(records, pending, false, Then(m.done, last, rest), all)
    ensures Together(if pending.Some? then records + [pending.value] else records, m.done, last, rest, all)
  {
  }

  method ParseCsvRecords(text: string, o: Options) returns (records: seq<Record>, closed: bool)
    ensures Parsed(records, closed) == Parse(o, text)
  {
    hide ParseFrom, Together;
    var input := WithoutBom(text);
    var terminator := Terminator(o.lineEnd);
    var row, marks, field, quoted, wasQuoted := [], [], "", false, false;
    var pending: Option<Record>, i := None, 0;
    records := [];
    Started(o, input);
    while i < |input|
      invariant 0 <= i <= |input| && (pending.Some? ==> Reading(row, marks, field, quoted, wasQuoted) == FRESH)
      invariant Together(records, pending, i == |input|,
                         ParseFrom(o, input[i..], Reading(row, marks, field, quoted, wasQuoted)), Parse(o, text))
    {
      ghost var st, at, was, held := Reading(row, marks, field, quoted, wasQuoted), i, records, pending;
      if pending.Some? {
        records := records + [pending.value];
        pending := None;
      }
      var ch := [input[i]];
      if quoted {
        if o.escape != o.quote && ch == o.escape && i + 1 < |input| {
          field, i := field + [input[i + 1]], i + 2;
        } else if ch == o.quote {
          if o.escape == o.quote && i + 1 < |input| && [input[i + 1]] == o.quote {
            field, i := field + o.quote, i + 2;
          } else {
            quoted, i := false, i + 1;
          }
        } else {
          field, i := field + ch, i + 1;
        }
      } else if ch == o.quote && |field| == 0 {
        quoted, wasQuoted, i := true, true, i + 1;
      } else if ch == o.delimiter {
        row, marks, field, wasQuoted := row + [field], marks + [wasQuoted], "", false;
        i := i + 1;
      } else if terminator.Some? && !(terminator.value <= input[i..]) {
        field, i := field + ch, i + 1;
      } else if terminator.Some? || ch == "\r" || ch == "\n" {
        i := i + if terminator.Some? then |terminator.value| else if ch == "\r" && "\n" <= input[i + 1..] then 2 else 1;
        pending := Some(Record(row + [field], marks + [wasQuoted]));
        row, marks, field, wasQuoted := [], [], "", false;
      } else {
        field, i := field + ch, i + 1;
      }
      ghost var m := Move(i - at, Reading(row, marks, field, quoted, wasQuoted), pending);
      assert m == Next(o, input[at..], st);
      Moved(o, input, at, st, m);
      Onwards(was, held, m, i == |input|, ParseFrom(o, input[i..], m.next), Parse(o, text));
    }
    Stopped(o, input, Reading(row, marks, field, quoted, wasQuoted), records, pending, Parse(o, text));
    if quoted { return records, false; }
    if |field| > 0 || wasQuoted || |row| > 0 { pending := Some(Record(row + [field], marks + [wasQuoted])); }
    if pending.Some? && !Blank(pending.value) { records := records + [pending.value]; }
    closed := true;
  }

  lemma Started(o: Options, input: string)
    ensures Together([], None, |input| == 0, ParseFrom(o, input[0..], FRESH), ParseFrom(o, input, FRESH))
  {
    assert input[0..] == input;
  }

  /** At the end of the input: an open quote fails, what was begun is a record, and a blank last one is dropped. */
  lemma Stopped(o: Options, input: string, st: Reading, records: seq<Record>, pending: Option<Record>, all: Parsed)
    requires pending.Some? ==> st == FRESH
    requires Together(records, pending, true, ParseFrom(o, input[|input|..], st), all)
    ensures var last := if Begun(st) then Some(EndRow(st)) else pending;
            all == if st.quoted then Parsed(records, false)
                   else Parsed(records + (if last.Some? then LastOne(last.value) else []), true)
  {
    assert input[|input|..] == "";
  }

  // ---------------------------------------------------------------------------------------------------------------
  // Reading what was written
  // ---------------------------------------------------------------------------------------------------------------

  /** A field of a file: as it stands, or in quotes. */
  datatype Field = Bare(text: string) | Quoted(text: string)

  function ShowField(f: Field): string {
    match f
    case Bare(text) => text
    case Quoted(text) => Enclosed(text)
  }

  function ShowFields(fs: seq<Field>): seq<string> {
    if fs == [] then [] else [ShowField(fs[0])] + ShowFields(fs[1..])
  }

  function ShowRow(fs: seq<Field>, d: char): string {
    Join(ShowFields(fs), [d])
  }

  function ShowRows(rows: seq<seq<Field>>, d: char): seq<string> {
    if rows == [] then [] else [ShowRow(rows[0], d)] + ShowRows(rows[1..], d)
  }

  function Texts(fs: seq<Field>): seq<string> {
    if fs == [] then [] else [fs[0].text] + Texts(fs[1..])
  }

  function Marks(fs: seq<Field>): seq<bool> {
    if fs == [] then [] else [fs[0].Quoted?] + Marks(fs[1..])
  }

  function RecordOf(fs: seq<Field>): Record {
    Record(Texts(fs), Marks(fs))
  }

  function RecordsOf(rows: seq<seq<Field>>): seq<Record> {
    if rows == [] then [] else [RecordOf(rows[0])] + RecordsOf(rows[1..])
  }

  /** Text that needs no quotes to stand between delimiters. */
  predicate Clean(f: Field, d: char) {
    f.Bare? ==> '"' !in f.text && '\r' !in f.text && '\n' !in f.text && d !in f.text
  }

  predicate AllClean(fs: seq<Field>, d: char) {
    |fs| > 0 && forall f <- fs :: Clean(f, d)
  }

  /** The reader's settings for a file with delimiter `d`: records may end at any line break, or at CRLF only. */
  predicate Reads(o: Options, d: char) {
    o.delimiter == [d] && o.quote == o.escape == "\"" && (o.lineEnd.Auto? || o.lineEnd.Crlf?)
  }

  predicate Separates(d: char) {
    d != '"' && d != '\r'
  }

  lemma OneMove(o: Options, c: char, rest: string, st: Reading)
    ensures var m := Next(o, [c] + rest, st);
            m.length == 1 && m.done.None? ==> ParseFrom(o, [c] + rest, st) == ParseFrom(o, rest, m.next)
  {
    assert ([c] + rest)[1..] == rest;
  }

  lemma {:induction false} BareReads(o: Options, d: char, t: string, rest: string, st: Reading)
    requires Reads(o, d) && Separates(d) && Clean(Bare(t), d) && !st.quoted
    ensures ParseFrom(o, t + rest, st) == ParseFrom(o, rest, Add(st, t))
    decreases t
  {
    hide ParseFrom;
    if t == "" {
      assert t + rest == rest;
      assert st.field + t == st.field;
    } else {
      OneMove(o, t[0], t[1..] + rest, st);
      assert t + rest == [t[0]] + (t[1..] + rest);
      BareReads(o, d, t[1..], rest, Add(st, [t[0]]));
      assert st.field + [t[0]] + t[1..] == st.field + t;
    }
  }

  lemma QuoteCloses(o: Options, rest: string, st: Reading)
    requires o.quote == o.escape == "\"" && st.quoted && rest != "" && rest[0] != '"'
    ensures ParseFrom(o, "\"" + rest, st) == ParseFrom(o, rest, st.(quoted := false))
  {
    assert ("\"" + rest)[1..] == rest;
  }

  lemma DoubledOnwards(t: string, rest: string)
    requires t != ""
    ensures Doubled(t) + "\"" + rest == (if t[0] == '"' then "\"\"" else [t[0]]) + (Doubled(t[1..]) + "\"" + rest)
  {
  }

  /** A quoted field is read to its closing quote, which another quote does not follow. */
  lemma {:induction false} QuotedReads(o: Options, d: char, t: string, rest: string, st: Reading)
    requires Reads(o, d) && st.quoted && rest != "" && rest[0] != '"'
    ensures ParseFrom(o, Doubled(t) + "\"" + rest, st) == ParseFrom(o, rest, Add(st, t).(quoted := false))
    decreases t
  {
    hide ParseFrom;
    if t == "" {
      assert Doubled(t) + "\"" + rest == "\"" + rest;
      assert st.field + t == st.field;
      QuoteCloses(o, rest, st);
    } else {
      var more := Doubled(t[1..]) + "\"" + rest;
      QuotedReads(o, d, t[1..], rest, Add(st, [t[0]]));
      assert st.field + [t[0]] + t[1..] == st.field + t;
      DoubledOnwards(t, rest);
      hide Doubled;
      if t[0] == '"' { TwoQuotes(o, more, st); } else { OneMove(o, t[0], more, st); }
    }
  }

  lemma TwoQuotes(o: Options, rest: string, st: Reading)
    requires o.quote == o.escape == "\"" && st.quoted
    ensures ParseFrom(o, "\"\"" + rest, st) == ParseFrom(o, rest, Add(st, "\""))
  {
    assert ("\"\"" + rest)[2..] == rest;
  }

  lemma FieldReads(o: Options, d: char, f: Field, rest: string, row: seq<string>, marks: seq<bool>)
    requires Reads(o, d) && Separates(d) && Clean(f, d) && rest != "" && rest[0] != '"'
    ensures ParseFrom(o, ShowField(f) + rest, Reading(row, marks, "", false, false)) ==
            ParseFrom(o, rest, Reading(row, marks, f.text, false, f.Quoted?))
  {
    hide ParseFrom;
    var st := Reading(row, marks, "", false, false);
    assert "" + f.text == f.text;
    match f
    case Bare(t) => BareReads(o, d, t, rest, st);
    case Quoted(t) =>
      OneMove(o, '"', Doubled(t) + "\"" + rest, st);
      assert ShowField(f) + rest == ['"'] + (Doubled(t) + "\"" + rest);
      QuotedReads(o, d, t, rest, st.(quoted := true, wasQuoted := true));
  }

  lemma RowEnds(o: Options, d: char, rest: string, st: Reading)
    requires Reads(o, d) && Separates(d) && !st.quoted
    ensures ParseFrom(o, "\r\n" + rest, st) == Then(Some(EndRow(st)), rest == "", ParseFrom(o, rest, FRESH))
  {
    var s := "\r\n" + rest;
    assert s[2..] == rest;
    assert "\r\n" <= s;
  }

  lemma Regrouped<T>(a: seq<T>, b: seq<T>, c: seq<T>, d: seq<T>, e: seq<T>)
    ensures a + b + c + d + e == a + (b + (c + d + e)) && a + b + c + d == a + b + (c + d)
  {
  }

  lemma {:induction false} RowReads(o: Options, d: char, fs: seq<Field>, rest: string, row: seq<string>, marks: seq<bool>)
    requires Reads(o, d) && Separates(d) && AllClean(fs, d)
    ensures ParseFrom(o, ShowRow(fs, d) + "\r\n" + rest, Reading(row, marks, "", false, false)) ==
            Then(Some(Record(row + Texts(fs), marks + Marks(fs))), rest == "", ParseFrom(o, rest, FRESH))
    decreases fs
  {
    hide ParseFrom, Then, ShowField, ShowRow;
    var f := fs[0];
    var st := Reading(row, marks, f.text, false, f.Quoted?);
    if |fs| == 1 {
      LastField(fs, d);
      assert ShowField(f) + "\r\n" + rest == ShowField(f) + ("\r\n" + rest);
      FieldReads(o, d, f, "\r\n" + rest, row, marks);
      RowEnds(o, d, rest, st);
    } else {
      var more := ShowRow(fs[1..], d) + "\r\n" + rest;
      ShownRow(fs, d);
      Regrouped(ShowField(f), [d], ShowRow(fs[1..], d), "\r\n", rest);
      FieldReads(o, d, f, [d] + more, row, marks);
      OneMove(o, d, more, st);
      RowReads(o, d, fs[1..], rest, row + [f.text], marks + [f.Quoted?]);
      assert row + [f.text] + Texts(fs[1..]) == row + Texts(fs);
      assert marks + [f.Quoted?] + Marks(fs[1..]) == marks + Marks(fs);
    }
  }

  lemma LastField(fs: seq<Field>, d: char)
    requires |fs| == 1
    ensures Texts(fs) == [fs[0].text] && Marks(fs) == [fs[0].Quoted?] && ShowRow(fs, d) == ShowField(fs[0])
  {
    assert fs[1..] == [];
    assert ShowFields(fs) == [ShowField(fs[0])];
  }

  lemma ShownRow(fs: seq<Field>, d: char)
    requires |fs| > 1
    ensures ShowRow(fs, d) == ShowField(fs[0]) + [d] + ShowRow(fs[1..], d)
  {
    var parts := ShowFields(fs);
    assert parts[1..] == ShowFields(fs[1..]) && ShowFields(fs[1..]) == [ShowField(fs[1])] + ShowFields(fs[1..][1..]);
  }

  function File(rows: seq<seq<Field>>, d: char): string {
    Join(ShowRows(rows, d), "\r\n") + "\r\n"
  }

  lemma NextRow(rows: seq<seq<Field>>, d: char)
    requires |rows| > 0
    ensures File(rows, d) == ShowRow(rows[0], d) + "\r\n" + if |rows| == 1 then "" else File(rows[1..], d)
    ensures File(rows, d) != ""
  {
    if |rows| == 1 {
      assert ShowRow(rows[0], d) + "\r\n" + "" == ShowRow(rows[0], d) + "\r\n";
    } else {
      hide ShowRow;
      Regrouped(ShowRow(rows[0], d), "\r\n", Join(ShowRows(rows[1..], d), "\r\n"), "\r\n", "");
      var parts := ShowRows(rows, d);
      assert parts[1..] == ShowRows(rows[1..], d) && ShowRows(rows[1..], d) == [ShowRow(rows[1], d)] + ShowRows(rows[1..][1..], d);
    }
  }

  /** Every row of the file is a record, but for a last one that is only a blank line. */
  lemma {:induction false} FileReads(o: Options, d: char, rows: seq<seq<Field>>)
    requires Reads(o, d) && Separates(d) && |rows| > 0 && forall fs <- rows :: AllClean(fs, d)
    ensures var last := RecordOf(rows[|rows| - 1]);
            ParseFrom(o, File(rows, d), FRESH) == Parsed(RecordsOf(rows[..|rows| - 1]) + LastOne(last), true)
    decreases rows
  {
    hide File, ShowRow;
    NextRow(rows, d);
    var rest := if |rows| == 1 then "" else File(rows[1..], d);
    RowReads(o, d, rows[0], rest, [], []);
    assert [] + Texts(rows[0]) == Texts(rows[0]) && [] + Marks(rows[0]) == Marks(rows[0]);
    assert ShowRow(rows[0], d) + "\r\n" + rest == File(rows, d);
    if |rows| == 1 {
      assert rows[..0] == [];
    } else {
      FileReads(o, d, rows[1..]);
      NextRow(rows[1..], d);
      hide ParseFrom, RecordOf;
      var front, last := rows[..|rows| - 1], LastOne(RecordOf(rows[|rows| - 1]));
      assert rows[1..][..|rows| - 2] == front[1..];
      assert [RecordOf(rows[0])] + (RecordsOf(front[1..]) + last) == RecordsOf(front) + last;
    }
  }

  // ---------------------------------------------------------------------------------------------------------------
  // The round trip of rows of cells
  // ---------------------------------------------------------------------------------------------------------------

  /** A style that leaves the values as they are. */
  function Lossless(quoteAll: bool): Style {
    Style(false, quoteAll, false)
  }

  /** A cell's text in a file: base64 for bytes, the marker for NULL. */
  function RawText(cell: Cell): string {
    match cell
    case Null => CSV_NULL
    case Text(text) => text
    case Shown(text) => text
    case Binary(bin) => bin
    case Truncated(cut) => cut
  }

  function FieldOf(cell: Cell, d: char, quoteAll: bool): Field {
    if !cell.Null? && NeedsQuotes(RawText(cell), d, quoteAll) then Quoted(RawText(cell)) else Bare(RawText(cell))
  }

  function RowOf(row: seq<Cell>, d: char, quoteAll: bool): (r: seq<Field>)
    ensures |r| == |row|
  {
    if row == [] then [] else [FieldOf(row[0], d, quoteAll)] + RowOf(row[1..], d, quoteAll)
  }

  function RowsOf(rows: seq<seq<Cell>>, d: char, quoteAll: bool): (r: seq<seq<Field>>)
    ensures |r| == |rows|
  {
    if rows == [] then [] else [RowOf(rows[0], d, quoteAll)] + RowsOf(rows[1..], d, quoteAll)
  }

  predicate Whole(row: seq<Cell>) {
    |row| > 0 && forall cell <- row :: !cell.Truncated?
  }

  /** At least one row, and at least one column in each; no value was cut. */
  predicate Exportable(rows: seq<seq<Cell>>) {
    |rows| > 0 && forall row <- rows :: Whole(row)
  }

  /** The record holds the row's values, and an unquoted marker exactly where the row holds NULL. */
  ghost predicate Represents(r: Record, row: seq<Cell>) {
    && |r.fields| == |r.quoted| == |row|
    && forall j :: 0 <= j < |row| ==>
         r.fields[j] == RawText(row[j]) && (row[j].Null? <==> !r.quoted[j] && r.fields[j] == CSV_NULL)
  }

  ghost predicate RepresentsAll(p: Parsed, rows: seq<seq<Cell>>) {
    p.closed && |p.records| == |rows| && forall i :: 0 <= i < |rows| ==> Represents(p.records[i], rows[i])
  }

  lemma {:induction false} RowShown(row: seq<Cell>, d: char, quoteAll: bool)
    requires forall cell <- row :: !cell.Truncated?
    ensures Fields(row, d, Lossless(quoteAll)) == Some(ShowFields(RowOf(row, d, quoteAll)))
    decreases row
  {
    if row != [] { RowShown(row[1..], d, quoteAll); }
  }

  lemma {:induction false} RowsShown(rows: seq<seq<Cell>>, d: char, quoteAll: bool)
    requires forall row <- rows :: Whole(row)
    ensures Lines(rows, d, Lossless(quoteAll)) == Some(ShowRows(RowsOf(rows, d, quoteAll), d))
    decreases rows
  {
    if rows != [] {
      assert Whole(rows[0]);
      RowShown(rows[0], d, quoteAll);
      RowsShown(rows[1..], d, quoteAll);
    }
  }

  /** What the file holds, field by field. */
  lemma TableIsFile(rows: seq<seq<Cell>>, d: char, quoteAll: bool)
    requires forall row <- rows :: Whole(row)
    ensures Table(rows, d, Lossless(quoteAll)) == Some(File(RowsOf(rows, d, quoteAll), d))
  {
    RowsShown(rows, d, quoteAll);
  }

  lemma {:induction false} RowIsClean(row: seq<Cell>, d: char, quoteAll: bool)
    requires d != '\\' && d != 'N'
    ensures forall f <- RowOf(row, d, quoteAll) :: Clean(f, d)
    decreases row
  {
    if row != [] { RowIsClean(row[1..], d, quoteAll); }
  }

  lemma {:induction false} RowRepresented(row: seq<Cell>, d: char, quoteAll: bool)
    requires forall cell <- row :: !cell.Truncated?
    ensures Represents(RecordOf(RowOf(row, d, quoteAll)), row)
    decreases row
  {
    if row != [] {
      var fs := RowOf(row, d, quoteAll);
      assert fs[1..] == RowOf(row[1..], d, quoteAll);
      RowRepresented(row[1..], d, quoteAll);
      var r, rest := RecordOf(fs), RecordOf(fs[1..]);
      forall j | 0 <= j < |row|
        ensures r.fields[j] == RawText(row[j]) && (row[j].Null? <==> !r.quoted[j] && r.fields[j] == CSV_NULL)
      {
        if j > 0 { assert r.fields[j] == rest.fields[j - 1] && r.quoted[j] == rest.quoted[j - 1] && row[j] == row[1..][j - 1]; }
      }
    }
  }

  /** A row of at least one cell is never a blank line. */
  lemma RowNotBlank(row: seq<Cell>, d: char, quoteAll: bool)
    requires Whole(row)
    ensures !Blank(RecordOf(RowOf(row, d, quoteAll)))
  {
    var f := FieldOf(row[0], d, quoteAll);
    assert RecordOf(RowOf(row, d, quoteAll)).fields[0] == f.text && RecordOf(RowOf(row, d, quoteAll)).quoted[0] == f.Quoted?;
  }

  lemma {:induction false} RowsRepresented(rows: seq<seq<Cell>>, d: char, quoteAll: bool)
    requires d != '\\' && d != 'N' && forall row <- rows :: Whole(row)
    ensures RepresentsAll(Parsed(RecordsOf(RowsOf(rows, d, quoteAll)), true), rows)
    ensures forall fs <- RowsOf(rows, d, quoteAll) :: AllClean(fs, d) && !Blank(RecordOf(fs))
    decreases rows
  {
    hide Represents, Blank, AllClean, RecordOf;
    if rows != [] {
      assert Whole(rows[0]);
      RowRepresented(rows[0], d, quoteAll);
      RowNotBlank(rows[0], d, quoteAll);
      FirstClean(rows[0], d, quoteAll);
      RowsRepresented(rows[1..], d, quoteAll);
      var records, rest := RecordsOf(RowsOf(rows, d, quoteAll)), RecordsOf(RowsOf(rows[1..], d, quoteAll));
      forall i | 0 <= i < |rows| ensures |records| == |rows| && Represents(records[i], rows[i]) {
        if i > 0 { assert records[i] == rest[i - 1] && rows[i] == rows[1..][i - 1]; }
      }
    }
  }

  lemma FirstClean(row: seq<Cell>, d: char, quoteAll: bool)
    requires d != '\\' && d != 'N' && Whole(row)
    ensures AllClean(RowOf(row, d, quoteAll), d)
  {
    RowIsClean(row, d, quoteAll);
  }

  lemma {:induction false} RecordsSplit(rows: seq<seq<Field>>)
    requires |rows| > 0
    ensures RecordsOf(rows) == RecordsOf(rows[..|rows| - 1]) + [RecordOf(rows[|rows| - 1])]
    decreases rows
  {
    hide RecordOf;
    if |rows| == 1 {
      assert rows[..0] == [] && rows[1..] == [];
    } else {
      RecordsSplit(rows[1..]);
      assert rows[1..][..|rows| - 2] == rows[..|rows| - 1][1..];
    }
  }

  lemma FieldsRead(o: Options, rows: seq<seq<Cell>>, d: char, quoteAll: bool)
    requires Reads(o, d) && Separates(d) && d != '\\' && d != 'N' && Exportable(rows)
    ensures RepresentsAll(ParseFrom(o, File(RowsOf(rows, d, quoteAll), d), FRESH), rows)
  {
    hide ParseFrom, File, Blank, AllClean, RecordOf, RepresentsAll;
    var fields := RowsOf(rows, d, quoteAll);
    RowsRepresented(rows, d, quoteAll);
    FileReads(o, d, fields);
    RecordsSplit(fields);
  }

  /** The file with its optional byte order mark. */
  function WithBom(text: string, bom: bool): string {
    if bom then [BOM] + text else text
  }

  /**
   * Rows come back: with the mark in front always, without it where the first field does not itself begin with one.
   * `d` may be any character but the quote, CR, the backslash and N.
   */
  lemma RowsComeBack(o: Options, rows: seq<seq<Cell>>, d: char, quoteAll: bool, bom: bool)
    requires Reads(o, d) && Separates(d) && d != '\\' && d != 'N' && Exportable(rows)
    ensures var t := Table(rows, d, Lossless(quoteAll));
            t.Some? && (bom || t.value[..1] != [BOM] ==> RepresentsAll(Parse(o, WithBom(t.value, bom)), rows))
  {
    hide ParseFrom, File, RepresentsAll, RowsOf, Table;
    TableIsFile(rows, d, quoteAll);
    FieldsRead(o, rows, d, quoteAll);
    var t := File(RowsOf(rows, d, quoteAll), d);
    assert WithoutBom([BOM] + t) == t;
  }

  /** A file is its first field and then the same for any such field. */
  lemma FirstOfFile(rows: seq<seq<Field>>, d: char, f: Field)
    requires |rows| > 0 && |rows[0]| > 0
    ensures exists rest :: rest != "" && File(rows, d) == ShowField(rows[0][0]) + rest &&
                           File(rows[0 := rows[0][0 := f]], d) == ShowField(f) + rest
  {
    hide ShowField;
    var fs, other := rows[0], rows[0][0 := f];
    var others := rows[0 := other];
    NextRow(rows, d);
    NextRow(others, d);
    assert others[1..] == rows[1..] && other[1..] == fs[1..];
    var after := "\r\n" + if |rows| == 1 then "" else File(rows[1..], d);
    var rest := if |fs| == 1 then after else [d] + ShowRow(fs[1..], d) + after;
    hide File, ShowRow;
    if |fs| == 1 {
      LastField(fs, d);
      LastField(other, d);
    } else {
      ShownRow(fs, d);
      ShownRow(other, d);
    }
    assert File(rows, d) == ShowField(fs[0]) + rest && File(others, d) == ShowField(f) + rest;
  }

  lemma MarkedFirst(cell: Cell, d: char, quoteAll: bool, rest: string)
    requires !cell.Truncated? && (ShowField(FieldOf(cell, d, quoteAll)) + rest)[..1] == [BOM]
    ensures var f := FieldOf(cell, d, quoteAll); f.Bare? && f.text != "" && f.text[0] == BOM
  {
    var shown := ShowField(FieldOf(cell, d, quoteAll));
    assert shown != "" && (shown + rest)[..1] == [shown[0]];
  }

  /** Without its first character, the file is that of a first field without it. */
  lemma FileWithoutMark(fields: seq<seq<Field>>, d: char)
    requires |fields| > 0 && |fields[0]| > 0 && fields[0][0].Bare? && fields[0][0].text != ""
    requires fields[0][0].text[0] == BOM
    ensures WithoutBom(File(fields, d)) == File(fields[0 := fields[0][0 := Bare(fields[0][0].text[1..])]], d)
  {
    var first, cut := fields[0][0], Bare(fields[0][0].text[1..]);
    FirstOfFile(fields, d, cut);
    hide File;
    var rest :| rest != "" && File(fields, d) == ShowField(first) + rest &&
                File(fields[0 := fields[0][0 := cut]], d) == ShowField(cut) + rest;
  }

  /** A text that begins with the mark, and needs no quotes, loses it where it opens the file. */
  lemma MarkIsLost(o: Options, rows: seq<seq<Cell>>, d: char, quoteAll: bool)
    requires Reads(o, d) && Separates(d) && d != '\\' && d != 'N' && Exportable(rows)
    requires File(RowsOf(rows, d, quoteAll), d)[..1] == [BOM]
    ensures !RepresentsAll(Parse(o, File(RowsOf(rows, d, quoteAll), d)), rows)
  {
    assert Whole(rows[0]);
    var fields := RowsOf(rows, d, quoteAll);
    var first := FieldOf(rows[0][0], d, quoteAll);
    assert fields[0] == RowOf(rows[0], d, quoteAll) && fields[0][0] == first;
    FirstOfFile(fields, d, first);
    hide File, ParseFrom, ShowField, Represents;
    var rest :| rest != "" && File(fields, d) == ShowField(first) + rest;
    MarkedFirst(rows[0][0], d, quoteAll, rest);
    FileWithoutMark(fields, d);
    var cut := Bare(first.text[1..]);
    var others := fields[0 := fields[0][0 := cut]];
    RowsRepresented(rows, d, quoteAll);
    assert AllClean(fields[0], d);
    FileReads(o, d, others);
    assert RecordOf(others[0]).fields[0] == cut.text;
    if |rows| > 1 { assert others[..|rows| - 1][0] == others[0]; }
    var p := ParseFrom(o, File(others, d), FRESH);
    assert |p.records| == |rows| ==> p.records[0].fields[0] == cut.text;
    WrongFirst(p, rows);
  }

  lemma WrongFirst(p: Parsed, rows: seq<seq<Cell>>)
    requires |rows| > 0 && |rows[0]| > 0
    requires |p.records| == |rows| && |p.records[0].fields| > 0 ==> p.records[0].fields[0] != RawText(rows[0][0])
    ensures !RepresentsAll(p, rows)
  {
    assert |p.records| == |rows| ==> !Represents(p.records[0], rows[0]);
  }

  /** Without a mark of its own a file comes back exactly where its first field does not begin with one. */
  lemma ComesBackUnlessMarked(o: Options, rows: seq<seq<Cell>>, d: char, quoteAll: bool)
    requires Reads(o, d) && Separates(d) && d != '\\' && d != 'N' && Exportable(rows)
    ensures var t := Table(rows, d, Lossless(quoteAll));
            t.Some? && (RepresentsAll(Parse(o, t.value), rows) <==> t.value[..1] != [BOM])
  {
    RowsComeBack(o, rows, d, quoteAll, false);
    TableIsFile(rows, d, quoteAll);
    if File(RowsOf(rows, d, quoteAll), d)[..1] == [BOM] { MarkIsLost(o, rows, d, quoteAll); }
  }

  /** `toCsv` and the default reader: the columns and rows come back unless the first name begins with the mark. */
  lemma ToCsvComesBack(columns: seq<string>, rows: seq<seq<Cell>>)
    requires |columns| > 0 && forall row <- rows :: Whole(row)
    ensures var t := ToCsv(columns, rows, false);
            t.Some? &&
            (columns[0] == "" || columns[0][0] != BOM ==>
               RepresentsAll(Parse(Options(",", "\"", "\"", Auto), t.value), [Header(columns)] + rows))
  {
    var all := [Header(columns)] + rows;
    assert Whole(Header(columns));
    assert Exportable(all);
    RowsComeBack(Options(",", "\"", "\"", Auto), all, ',', false, false);
    TableIsFile(all, ',', false);
    var fields := RowsOf(all, ',', false);
    assert fields[0][0] == FieldOf(all[0][0], ',', false);
    FirstOfFile(fields, ',', fields[0][0]);
  }

  // ---------------------------------------------------------------------------------------------------------------
  // The delimiters that work
  // ---------------------------------------------------------------------------------------------------------------

  function Default(d: char): Options {
    Options([d], "\"", "\"", Auto)
  }

  /** The rows, written with the mark in front, are read back. */
  ghost predicate ComesBack(rows: seq<seq<Cell>>, d: char, quoteAll: bool) {
    var t := Table(rows, d, Lossless(quoteAll));
    t.Some? && RepresentsAll(Parse(Default(d), WithBom(t.value, true)), rows)
  }

  lemma FieldOfOneRow(f: Field, d: char)
    ensures File([[f]], d) == ShowField(f) + "\r\n"
  {
    NextRow([[f]], d);
    LastField([f], d);
  }

  lemma FieldsOfOneRow(f: Field, g: Field, d: char)
    ensures File([[f, g]], d) == ShowField(f) + [d] + ShowField(g) + "\r\n"
  {
    NextRow([[f, g]], d);
    ShownRow([f, g], d);
    LastField([g], d);
    assert [f, g][1..] == [g];
  }

  lemma RecordOfTwo(f: Field, g: Field)
    ensures RecordOf([f, g]) == Record([f.text, g.text], [f.Quoted?, g.Quoted?])
  {
    assert [f, g][1..] == [g] && [g][1..] == [];
    assert Texts([g]) == [g.text] && Marks([g]) == [g.Quoted?];
  }

  /** A delimiter out of the marker itself splits NULL in two. */
  lemma OneNullRow(d: char, quoteAll: bool)
    ensures RowsOf([[Null]], d, quoteAll) == [[Bare(CSV_NULL)]]
  {
    assert RowOf([Null], d, quoteAll) == [Bare(CSV_NULL)];
  }

  lemma MarkerSplits(d: char, front: string, back: string, quoteAll: bool)
    requires d == '\\' || d == 'N'
    requires front + [d] + back == CSV_NULL && Clean(Bare(front), d) && Clean(Bare(back), d)
    ensures !ComesBack([[Null]], d, quoteAll)
  {
    var rows := [[Null]];
    TableIsFile(rows, d, quoteAll);
    OneNullRow(d, quoteAll);
    FieldOfOneRow(Bare(CSV_NULL), d);
    var fields := [Bare(front), Bare(back)];
    FieldsOfOneRow(fields[0], fields[1], d);
    FileReads(Default(d), d, [fields]);
    RecordOfTwo(fields[0], fields[1]);
    assert [fields][..0] == [];
    hide ParseFrom, File, RowsOf;
    var t := File([[Bare(CSV_NULL)]], d);
    assert t == File([fields], d);
    assert WithoutBom([BOM] + t) == t;
    assert !Represents(RecordOf(fields), rows[0]);
  }

  lemma TwoEmpty(d: char, quoteAll: bool)
    ensures Table([[Text(""), Text("")]], d, Lossless(quoteAll)) == Some("\"\"" + [d] + "\"\"" + "\r\n")
  {
    var row := [Text(""), Text("")];
    TableIsFile([row], d, quoteAll);
    var q := Quoted("");
    assert row[1..] == [Text("")] && [Text("")][1..] == [];
    assert RowOf([Text("")], d, quoteAll) == [q] && RowOf(row, d, quoteAll) == [q, q];
    assert RowsOf([row], d, quoteAll) == [[q, q]];
    FieldsOfOneRow(q, q, d);
    assert ShowField(q) == "\"\"";
  }

  /** With the quote as the delimiter, five quotes in a row never close. */
  lemma QuoteFails(quoteAll: bool)
    ensures !ComesBack([[Text(""), Text("")]], '"', quoteAll)
  {
    TwoEmpty('"', quoteAll);
    hide ParseFrom, Table;
    var o, st := Default('"'), FRESH.(quoted := true, wasQuoted := true);
    var t := "\"\"" + ['"'] + "\"\"" + "\r\n";
    assert WithoutBom([BOM] + t) == t;
    assert t == ['"'] + ("\"\"" + ("\"\"" + "\r\n"));
    OneMove(o, '"', "\"\"" + ("\"\"" + "\r\n"), FRESH);
    TwoQuotes(o, "\"\"" + "\r\n", st);
    TwoQuotes(o, "\r\n", Add(st, "\""));
    BreakInQuotes(o, Add(Add(st, "\""), "\""));
  }

  lemma BreakInQuotes(o: Options, st: Reading)
    requires o.quote == o.escape == "\"" && st.quoted
    ensures ParseFrom(o, "\r\n", st) == Parsed([], false)
  {
    assert "\r\n" == ['\r'] + ['\n'] && ['\n'] == ['\n'] + "";
    OneMove(o, '\r', ['\n'], st);
    OneMove(o, '\n', "", Add(st, ['\r']));
  }

  /** With CR as the delimiter, the CR of each line end begins one more field. */
  lemma CrFails(quoteAll: bool)
    ensures !ComesBack([[Text(""), Text("")]], '\r', quoteAll)
  {
    TwoEmpty('\r', quoteAll);
    hide ParseFrom, Table;
    var o := Default('\r');
    var tail := "\"\"" + "\r\n";
    var t := "\"\"" + ['\r'] + "\"\"" + "\r\n";
    assert WithoutBom([BOM] + t) == t;
    assert t == "\"\"" + (['\r'] + tail);
    EmptyQuotes(o, ['\r'] + tail, [], []);
    OneMove(o, '\r', tail, Reading([], [], "", false, true));
    EmptyQuotes(o, "\r\n", [""], [true]);
    assert "\r\n" == ['\r'] + "\n";
    OneMove(o, '\r', "\n", Reading([""], [true], "", false, true));
    var st := Reading(["", ""], [true, true], "", false, false);
    assert [""] + [""] == ["", ""] && [true] + [true] == [true, true] && [] + [""] == [""] && [] + [true] == [true];
    LineFeed(o, st);
    var p := ParseFrom(o, t, FRESH);
    assert p == Then(Some(EndRow(st)), true, Parsed([], true));
    var rows := [[Text(""), Text("")]];
    assert p.records == [EndRow(st)];
    assert |EndRow(st).fields| == 3;
    assert !Represents(p.records[0], rows[0]);
    assert !RepresentsAll(p, rows);
    assert Parse(o, WithBom(t, true)) == p;
  }

  lemma EmptyQuotes(o: Options, rest: string, row: seq<string>, marks: seq<bool>)
    requires o.quote == o.escape == "\"" && rest != "" && rest[0] != '"'
    ensures ParseFrom(o, "\"\"" + rest, Reading(row, marks, "", false, false)) ==
            ParseFrom(o, rest, Reading(row, marks, "", false, true))
  {
    hide ParseFrom;
    assert "\"\"" + rest == ['"'] + ("\"" + rest);
    OneMove(o, '"', "\"" + rest, Reading(row, marks, "", false, false));
    QuoteCloses(o, rest, Reading(row, marks, "", true, true));
  }

  lemma LineFeed(o: Options, st: Reading)
    requires o.delimiter != "\n" && o.quote == "\"" && o.lineEnd.Auto? && !st.quoted
    ensures ParseFrom(o, "\n", st) == Then(Some(EndRow(st)), true, Parsed([], true))
  {
    assert "\n"[1..] == "";
  }

  /** Exactly the quote, CR and the two characters of the NULL marker do not work as a delimiter. */
  lemma DelimitersThatWork(d: char, quoteAll: bool)
    ensures (forall rows :: Exportable(rows) ==> ComesBack(rows, d, quoteAll))
       <==> d != '"' && d != '\r' && d != '\\' && d != 'N'
  {
    hide ComesBack;
    assert Whole([Null]) && Whole([Text(""), Text("")]);
    if d == '\\' {
      MarkerSplits(d, "", "N", quoteAll);
      assert Exportable([[Null]]);
    } else if d == 'N' {
      MarkerSplits(d, "\\", "", quoteAll);
      assert Exportable([[Null]]);
    } else if d == '"' {
      QuoteFails(quoteAll);
      assert Exportable([[Text(""), Text("")]]);
    } else if d == '\r' {
      CrFails(quoteAll);
      assert Exportable([[Text(""), Text("")]]);
    } else {
      forall rows | Exportable(rows) ensures ComesBack(rows, d, quoteAll) { Comes(rows, d, quoteAll); }
    }
  }

  lemma Comes(rows: seq<seq<Cell>>, d: char, quoteAll: bool)
    requires Exportable(rows) && Separates(d) && d != '\\' && d != 'N'
    ensures ComesBack(rows, d, quoteAll)
  {
    RowsComeBack(Default(d), rows, d, quoteAll, true);
  }
}
