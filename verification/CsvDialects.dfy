/**
 * Reading CSV in any dialect: any delimiter, quote and escape character, any kind of line end, with the last line ended
 * or not. What a file says is a list of rows of fields here, written out in the dialect.
 */
module CsvDialects {
  import opened Wrappers
  import opened Csv

  /** A dialect's characters, the setting for line ends, and the line end its files use. */
  datatype Dialect = Dialect(delimiter: char, quote: char, escape: char, lineEnd: LineEnd, eol: string)

  /** A field: as it stands, or in quotes, where a character may have been escaped. */
  datatype Piece = AsItStands(text: string) | InQuotes(letters: seq<(char, bool)>)

  ghost predicate IsDialect(v: Dialect) {
    && v.delimiter != v.quote
    && v.delimiter != '\r' && v.delimiter != '\n' && v.quote != '\r' && v.quote != '\n'
    && match v.lineEnd
       case Auto => v.eol == "\r\n" || v.eol == "\n" || v.eol == "\r"
       case Lf => v.eol == "\n"
       case Crlf => v.eol == "\r\n"
       case Cr => v.eol == "\r"
  }

  function OptionsOf(v: Dialect): Options {
    Options([v.delimiter], [v.quote], [v.escape], v.lineEnd)
  }

  // ---------------------------------------------------------------------------------------------------------------
  // Written out, and what it says
  // ---------------------------------------------------------------------------------------------------------------

  function ShowLetters(v: Dialect, letters: seq<(char, bool)>): string {
    if letters == [] then ""
    else (if letters[0].1 then [v.escape, letters[0].0] else [letters[0].0]) + ShowLetters(v, letters[1..])
  }

  function ShowPiece(v: Dialect, p: Piece): string {
    match p
    case AsItStands(text) => text
    case InQuotes(letters) => [v.quote] + (ShowLetters(v, letters) + [v.quote])
  }

  function ShowPieces(v: Dialect, ps: seq<Piece>): string {
    if ps == [] then "" else if |ps| == 1 then ShowPiece(v, ps[0])
    else ShowPiece(v, ps[0]) + ([v.delimiter] + ShowPieces(v, ps[1..]))
  }

  /** The last line is ended only if `ended`. */
  function ShowFile(v: Dialect, rows: seq<seq<Piece>>, ended: bool): string {
    if rows == [] then ""
    else ShowPieces(v, rows[0]) + ((if |rows| > 1 || ended then v.eol else "") + ShowFile(v, rows[1..], ended))
  }

  function Spelled(letters: seq<(char, bool)>): string {
    if letters == [] then "" else [letters[0].0] + Spelled(letters[1..])
  }

  function TextOf(p: Piece): string {
    match p
    case AsItStands(text) => text
    case InQuotes(letters) => Spelled(letters)
  }

  function RecordFor(ps: seq<Piece>): Record {
    Record(seq(|ps|, i requires 0 <= i < |ps| => TextOf(ps[i])), seq(|ps|, i requires 0 <= i < |ps| => ps[i].InQuotes?))
  }

  // ---------------------------------------------------------------------------------------------------------------
  // Fields that can be written so
  // ---------------------------------------------------------------------------------------------------------------

  /** No line of the file ends in it. */
  predicate OneLine(v: Dialect, text: string) {
    match v.lineEnd
    case Auto => '\r' !in text && '\n' !in text
    case Lf => '\n' !in text
    case Cr => '\r' !in text
    case Crlf => forall i :: 0 <= i < |text| - 1 ==> !(text[i] == '\r' && text[i + 1] == '\n')
  }

  /** Escaped where it has to be; where the quote escapes itself, nothing else is. */
  predicate FineLetter(v: Dialect, l: (char, bool)) {
    && (!l.1 ==> l.0 != v.quote && (v.escape != v.quote ==> l.0 != v.escape))
    && (l.1 && v.escape == v.quote ==> l.0 == v.quote)
  }

  /** A quote may stand in a field that does not begin with one. */
  predicate FinePiece(v: Dialect, p: Piece) {
    match p
    case AsItStands(text) => v.delimiter !in text && OneLine(v, text) && (text != "" ==> text[0] != v.quote)
    case InQuotes(letters) => forall l <- letters :: FineLetter(v, l)
  }

  predicate FineRow(v: Dialect, ps: seq<Piece>) {
    ps != [] && forall p <- ps :: FinePiece(v, p)
  }

  // ---------------------------------------------------------------------------------------------------------------
  // Reading a field
  // ---------------------------------------------------------------------------------------------------------------

  /** What may follow a field. */
  predicate Follows(v: Dialect, rest: string) {
    rest == "" || rest[0] == v.delimiter || v.eol <= rest
  }

  lemma Shift(v: Dialect, c: char, rest: string, st: Reading)
    ensures var m := Next(OptionsOf(v), [c] + rest, st);
            m.length == 1 && m.done.None? ==>
              ParseFrom(OptionsOf(v), [c] + rest, st) == ParseFrom(OptionsOf(v), rest, m.next)
  {
    assert ([c] + rest)[1..] == rest;
  }

  lemma BareLetter(v: Dialect, text: string, rest: string, st: Reading)
    requires IsDialect(v) && !st.quoted && text != "" && Follows(v, rest) && v.delimiter !in text && OneLine(v, text)
    requires text[0] != v.quote || st.field != ""
    ensures Next(OptionsOf(v), text + rest, st) == Move(1, Add(st, [text[0]]), None)
  {
    var s := text + rest;
    assert s[0] == text[0] && text[0] in text;
    assert |text| > 1 ==> s[1] == text[1];
    assert |text| == 1 && rest != "" ==> s[1] == rest[0];
  }

  lemma {:induction false} BareIsRead(v: Dialect, text: string, rest: string, st: Reading)
    requires IsDialect(v) && !st.quoted && Follows(v, rest) && v.delimiter !in text && OneLine(v, text)
    requires text == "" || text[0] != v.quote || st.field != ""
    ensures ParseFrom(OptionsOf(v), text + rest, st) == ParseFrom(OptionsOf(v), rest, Add(st, text))
    decreases text
  {
    hide ParseFrom;
    if text == "" {
      assert text + rest == rest && st.field + text == st.field;
    } else {
      BareLetter(v, text, rest, st);
      assert text + rest == [text[0]] + (text[1..] + rest);
      Shift(v, text[0], text[1..] + rest, st);
      assert forall c <- text[1..] :: c in text;
      assert OneLine(v, text[1..]);
      BareIsRead(v, text[1..], rest, Add(st, [text[0]]));
      assert st.field + [text[0]] + text[1..] == st.field + text;
    }
  }

  lemma LetterIsRead(v: Dialect, l: (char, bool), rest: string, st: Reading)
    requires IsDialect(v) && st.quoted && FineLetter(v, l)
    ensures ParseFrom(OptionsOf(v), (if l.1 then [v.escape, l.0] else [l.0]) + rest, st)
         == ParseFrom(OptionsOf(v), rest, Add(st, [l.0]))
  {
    if l.1 {
      var s := [v.escape, l.0] + rest;
      assert s[2..] == rest && s[1] == l.0;
    } else {
      Shift(v, l.0, rest, st);
      hide ParseFrom;
    }
  }

  lemma {:induction false} QuotedIsRead(v: Dialect, letters: seq<(char, bool)>, rest: string, st: Reading)
    requires IsDialect(v) && st.quoted && (forall l <- letters :: FineLetter(v, l)) && (rest == "" || rest[0] != v.quote)
    ensures ParseFrom(OptionsOf(v), ShowLetters(v, letters) + [v.quote] + rest, st)
         == ParseFrom(OptionsOf(v), rest, Add(st, Spelled(letters)).(quoted := false))
    decreases letters
  {
    hide ParseFrom, FineLetter, IsDialect;
    if letters == [] {
      assert ShowLetters(v, letters) + [v.quote] + rest == [v.quote] + rest;
      assert st.field + "" == st.field;
      CloseIsRead(v, rest, st);
    } else {
      var l, more := letters[0], ShowLetters(v, letters[1..]) + [v.quote] + rest;
      assert FineLetter(v, l);
      assert ShowLetters(v, letters) + [v.quote] + rest == (if l.1 then [v.escape, l.0] else [l.0]) + more;
      LetterIsRead(v, l, more, st);
      QuotedIsRead(v, letters[1..], rest, Add(st, [l.0]));
      assert st.field + [l.0] + Spelled(letters[1..]) == st.field + Spelled(letters);
    }
  }

  lemma CloseIsRead(v: Dialect, rest: string, st: Reading)
    requires st.quoted && (rest == "" || rest[0] != v.quote)
    ensures ParseFrom(OptionsOf(v), [v.quote] + rest, st) == ParseFrom(OptionsOf(v), rest, st.(quoted := false))
  {
    var s := [v.quote] + rest;
    assert s[1..] == rest;
    if rest != "" { assert s[1] == rest[0]; }
  }

  lemma PieceIsRead(v: Dialect, p: Piece, rest: string, row: seq<string>, marks: seq<bool>)
    requires IsDialect(v) && FinePiece(v, p) && Follows(v, rest)
    ensures ParseFrom(OptionsOf(v), ShowPiece(v, p) + rest, Reading(row, marks, "", false, false))
         == ParseFrom(OptionsOf(v), rest, Reading(row, marks, TextOf(p), false, p.InQuotes?))
  {
    hide ParseFrom;
    var st := Reading(row, marks, "", false, false);
    assert "" + TextOf(p) == TextOf(p);
    match p
    case AsItStands(text) => BareIsRead(v, text, rest, st);
    case InQuotes(letters) =>
      var more := ShowLetters(v, letters) + [v.quote] + rest;
      assert ShowPiece(v, p) + rest == [v.quote] + more;
      Shift(v, v.quote, more, st);
      QuotedIsRead(v, letters, rest, st.(quoted := true, wasQuoted := true));
  }

  // ---------------------------------------------------------------------------------------------------------------
  // Reading rows
  // ---------------------------------------------------------------------------------------------------------------

  /** How a line goes on: to its end and the next line, or to the end of the file. */
  predicate LineEnds(v: Dialect, end: string, rest: string) {
    (end == v.eol && (v.eol == "\r" && v.lineEnd.Auto? ==> rest == "" || rest[0] != '\n')) || (end == "" && rest == "")
  }

  function AfterLine(v: Dialect, r: Record, end: string, rest: string): Parsed {
    if end == "" then Parsed(LastOne(r), true) else Then(Some(r), rest == "", ParseFrom(OptionsOf(v), rest, FRESH))
  }

  lemma EndIsRead(v: Dialect, end: string, rest: string, st: Reading)
    requires IsDialect(v) && !st.quoted && LineEnds(v, end, rest) && |st.row| == |st.marks|
    ensures ParseFrom(OptionsOf(v), end + rest, st) == AfterLine(v, EndRow(st), end, rest)
  {
    var s := end + rest;
    if end == "" {
      assert s == "";
      if !Begun(st) { assert EndRow(st).fields == [""] && EndRow(st).quoted == [false]; }
    } else {
      assert s[|end|..] == rest && end <= s;
      if rest != "" { assert s[|end|] == rest[0]; }
      hide ParseFrom;
      EndMoves(v, end, rest, st);
      Moves(v, s, |end|, EndRow(st), rest, st);
    }
  }

  lemma EndMoves(v: Dialect, end: string, rest: string, st: Reading)
    requires IsDialect(v) && !st.quoted && LineEnds(v, end, rest) && end != ""
    ensures Next(OptionsOf(v), end + rest, st) == Move(|end|, FRESH, Some(EndRow(st)))
  {
    var s := end + rest;
    assert s[0] == end[0] && (|end| > 1 ==> s[1] == end[1]) && (|end| == 1 && rest != "" ==> s[1] == rest[0]);
    assert end <= s;
  }

  lemma Moves(v: Dialect, s: string, n: nat, r: Record, rest: string, st: Reading)
    requires s != "" && Next(OptionsOf(v), s, st) == Move(n, FRESH, Some(r)) && n <= |s| && s[n..] == rest
    ensures ParseFrom(OptionsOf(v), s, st) == Then(Some(r), rest == "", ParseFrom(OptionsOf(v), rest, FRESH))
  {
  }

  lemma DelimiterIsRead(v: Dialect, rest: string, st: Reading)
    requires IsDialect(v) && !st.quoted
    ensures ParseFrom(OptionsOf(v), [v.delimiter] + rest, st)
         == ParseFrom(OptionsOf(v), rest, Reading(st.row + [st.field], st.marks + [st.wasQuoted], "", false, false))
  {
    Shift(v, v.delimiter, rest, st);
    hide ParseFrom;
  }

  lemma {:induction false} LineIsRead(v: Dialect, ps: seq<Piece>, end: string, rest: string, row: seq<string>, marks: seq<bool>)
    requires IsDialect(v) && FineRow(v, ps) && LineEnds(v, end, rest) && |row| == |marks|
    ensures ParseFrom(OptionsOf(v), ShowPieces(v, ps) + (end + rest), Reading(row, marks, "", false, false))
         == AfterLine(v, Record(row + RecordFor(ps).fields, marks + RecordFor(ps).quoted), end, rest)
    decreases ps
  {
    hide ParseFrom, ShowPiece, TextOf, AfterLine, FinePiece;
    var p := ps[0];
    assert p in ps;
    var st := Reading(row, marks, TextOf(p), false, p.InQuotes?);
    if |ps| == 1 {
      assert Follows(v, end + rest);
      PieceIsRead(v, p, end + rest, row, marks);
      EndIsRead(v, end, rest, st);
      assert RecordFor(ps).fields == [TextOf(p)] && RecordFor(ps).quoted == [p.InQuotes?];
    } else {
      var more := ShowPieces(v, ps[1..]) + (end + rest);
      assert ShowPieces(v, ps) + (end + rest) == ShowPiece(v, p) + ([v.delimiter] + more);
      PieceIsRead(v, p, [v.delimiter] + more, row, marks);
      DelimiterIsRead(v, more, st);
      LineIsRead(v, ps[1..], end, rest, row + [TextOf(p)], marks + [p.InQuotes?]);
      assert row + [TextOf(p)] + RecordFor(ps[1..]).fields == row + RecordFor(ps).fields;
      assert marks + [p.InQuotes?] + RecordFor(ps[1..]).quoted == marks + RecordFor(ps).quoted;
    }
  }

  // ---------------------------------------------------------------------------------------------------------------
  // Reading the file
  // ---------------------------------------------------------------------------------------------------------------

  function RecordsFor(rows: seq<seq<Piece>>): seq<Record> {
    seq(|rows|, i requires 0 <= i < |rows| => RecordFor(rows[i]))
  }

  lemma BeginsNoLine(v: Dialect, ps: seq<Piece>, end: string)
    requires IsDialect(v) && FineRow(v, ps) && v.lineEnd.Auto? && (end == v.eol == "\r" || end == "")
    ensures var s := ShowPieces(v, ps) + end; s == "" || s[0] != '\n'
  {
    var p := ps[0];
    assert FinePiece(v, p);
    if p.AsItStands? && p.text != "" { assert p.text[0] in p.text; }
    if |ps| > 1 {
      assert ShowPieces(v, ps) == ShowPiece(v, p) + ([v.delimiter] + ShowPieces(v, ps[1..]));
    }
  }

  lemma {:induction false} LinesAreRead(v: Dialect, rows: seq<seq<Piece>>, ended: bool)
    requires IsDialect(v) && LastShows(rows, ended) && forall ps <- rows :: FineRow(v, ps)
    ensures var last := |rows| - 1;
            ParseFrom(OptionsOf(v), ShowFile(v, rows, ended), FRESH)
            == Parsed(RecordsFor(rows[..last]) + LastOne(RecordFor(rows[last])), true)
    decreases rows
  {
    hide ParseFrom, ShowPieces, RecordFor, LastOne, FineRow, IsDialect;
    var ps := rows[0];
    assert ps in rows;
    var end := if |rows| > 1 || ended then v.eol else "";
    var rest := ShowFile(v, rows[1..], ended);
    LineGoesOn(v, rows, ended);
    assert ShowFile(v, rows, ended) == ShowPieces(v, ps) + (end + rest);
    LineIsRead(v, ps, end, rest, [], []);
    assert [] + RecordFor(ps).fields == RecordFor(ps).fields && [] + RecordFor(ps).quoted == RecordFor(ps).quoted;
    assert Record(RecordFor(ps).fields, RecordFor(ps).quoted) == RecordFor(ps);
    if |rows| == 1 {
      assert RecordsFor(rows[..0]) == [];
      NothingAfter(v, RecordFor(ps), end);
    } else {
      LinesAreRead(v, rows[1..], ended);
      ShowsSome(v, rows[1..], ended);
      var last := |rows| - 1;
      assert rows[1..][..last - 1] == rows[..last][1..];
      assert RecordsFor(rows[..last]) == [RecordFor(ps)] + RecordsFor(rows[..last][1..]);
    }
  }

  /** Not a line with nothing on it, not even an end. */
  predicate LastShows(rows: seq<seq<Piece>>, ended: bool) {
    rows != [] && (ended || rows[|rows| - 1] != [AsItStands("")])
  }

  lemma RowShows(v: Dialect, ps: seq<Piece>)
    requires ps != [] && ps != [AsItStands("")]
    ensures ShowPieces(v, ps) != ""
  {
    if |ps| == 1 { assert ps == [ps[0]]; }
  }

  lemma ShowsSome(v: Dialect, rows: seq<seq<Piece>>, ended: bool)
    requires IsDialect(v) && LastShows(rows, ended) && forall ps <- rows :: FineRow(v, ps)
    ensures v.eol != "" && ShowFile(v, rows, ended) != ""
  {
    assert rows[0] in rows;
    if |rows| == 1 && !ended { RowShows(v, rows[0]); }
    hide ShowPieces, FineRow;
  }

  lemma NothingAfter(v: Dialect, r: Record, end: string)
    requires IsDialect(v) && (end == v.eol || end == "")
    ensures AfterLine(v, r, end, "") == Parsed([] + LastOne(r), true)
  {
    assert ParseFrom(OptionsOf(v), "", FRESH) == Parsed([], true);
    hide LastOne;
    assert LastOne(r) + [] == LastOne(r) && [] + LastOne(r) == LastOne(r);
  }

  lemma LineGoesOn(v: Dialect, rows: seq<seq<Piece>>, ended: bool)
    requires IsDialect(v) && rows != [] && forall ps <- rows :: FineRow(v, ps)
    ensures LineEnds(v, if |rows| > 1 || ended then v.eol else "", ShowFile(v, rows[1..], ended))
  {
    if |rows| > 1 && v.eol == "\r" && v.lineEnd.Auto? {
      assert rows[1..][0] in rows;
      NextBegins(v, rows[1..], ended);
    }
    hide ShowFile, FineRow;
    assert |rows| == 1 ==> ShowFile(v, rows[1..], ended) == "" by { NoRows(v, ended); }
  }

  lemma NoRows(v: Dialect, ended: bool)
    ensures ShowFile(v, [], ended) == ""
  {
  }

  lemma NextBegins(v: Dialect, rows: seq<seq<Piece>>, ended: bool)
    requires IsDialect(v) && rows != [] && FineRow(v, rows[0]) && v.eol == "\r" && v.lineEnd.Auto?
    ensures var s := ShowFile(v, rows, ended); s == "" || s[0] != '\n'
  {
    hide ShowPieces, FineRow, IsDialect;
    var a, end, more := ShowPieces(v, rows[0]), if |rows| > 1 || ended then v.eol else "", ShowFile(v, rows[1..], ended);
    BeginsNoLine(v, rows[0], end);
    if |rows| == 1 { NoRows(v, ended); }
    FirstOfThree(a, end, more);
  }

  lemma FirstOfThree(a: string, b: string, c: string)
    ensures a + (b + c) == a + b + c && (a + b != "" ==> (a + (b + c))[0] == (a + b)[0])
  {
  }

  /**
   * In every dialect, a file is read as the rows it was written for, each field with its text and whether it was quoted,
   * the last line ended or not; but a last line that is blank is no row.
   */
  lemma EveryDialectReads(v: Dialect, rows: seq<seq<Piece>>, ended: bool, marked: bool)
    requires IsDialect(v) && LastShows(rows, ended) && forall ps <- rows :: FineRow(v, ps)
    requires var s := ShowFile(v, rows, ended); marked || s == "" || s[0] != BOM
    ensures var last := |rows| - 1;
            Parse(OptionsOf(v), (if marked then [BOM] else "") + ShowFile(v, rows, ended))
            == Parsed(RecordsFor(rows[..last]) + LastOne(RecordFor(rows[last])), true)
  {
    LinesAreRead(v, rows, ended);
    hide ParseFrom, ShowFile, RecordsFor;
    var s := ShowFile(v, rows, ended);
    if marked { assert ([BOM] + s)[1..] == s; } else { assert "" + s == s; }
  }

  // ---------------------------------------------------------------------------------------------------------------
  // A quote that is never closed
  // ---------------------------------------------------------------------------------------------------------------

  /** The fields of a line that goes on, and the beginning of one in quotes, up to the end of the file. */
  function ShowOpen(v: Dialect, ps: seq<Piece>, letters: seq<(char, bool)>): string {
    if ps == [] then [v.quote] + ShowLetters(v, letters)
    else ShowPiece(v, ps[0]) + ([v.delimiter] + ShowOpen(v, ps[1..], letters))
  }

  lemma {:induction false} LettersStayOpen(v: Dialect, letters: seq<(char, bool)>, st: Reading)
    requires IsDialect(v) && st.quoted && forall l <- letters :: FineLetter(v, l)
    ensures ParseFrom(OptionsOf(v), ShowLetters(v, letters), st) == Parsed([], false)
    decreases letters
  {
    if letters != [] {
      assert letters[0] in letters;
      LetterIsRead(v, letters[0], ShowLetters(v, letters[1..]), st);
      LettersStayOpen(v, letters[1..], Add(st, [letters[0].0]));
      hide ParseFrom, FineLetter;
    }
  }

  lemma {:induction false} LineStaysOpen(v: Dialect, ps: seq<Piece>, letters: seq<(char, bool)>, row: seq<string>, marks: seq<bool>)
    requires IsDialect(v) && (forall p <- ps :: FinePiece(v, p)) && forall l <- letters :: FineLetter(v, l)
    ensures ParseFrom(OptionsOf(v), ShowOpen(v, ps, letters), Reading(row, marks, "", false, false)) == Parsed([], false)
    decreases ps
  {
    hide ParseFrom, FinePiece, FineLetter, ShowPiece, TextOf;
    if ps == [] {
      var st := Reading(row, marks, "", false, false);
      Shift(v, v.quote, ShowLetters(v, letters), st);
      LettersStayOpen(v, letters, st.(quoted := true, wasQuoted := true));
    } else {
      assert ps[0] in ps;
      var more := ShowOpen(v, ps[1..], letters);
      PieceIsRead(v, ps[0], [v.delimiter] + more, row, marks);
      DelimiterIsRead(v, more, Reading(row, marks, TextOf(ps[0]), false, ps[0].InQuotes?));
      LineStaysOpen(v, ps[1..], letters, row + [TextOf(ps[0])], marks + [ps[0].InQuotes?]);
    }
  }

  lemma OpenBegins(v: Dialect, ps: seq<Piece>, letters: seq<(char, bool)>)
    requires IsDialect(v) && v.lineEnd.Auto? && forall p <- ps :: FinePiece(v, p)
    ensures var s := ShowOpen(v, ps, letters); s != "" && s[0] != '\n'
  {
    if ps != [] {
      assert FinePiece(v, ps[0]);
      if ps[0].AsItStands? && ps[0].text != "" { assert ps[0].text[0] in ps[0].text; }
    }
  }

  lemma OpenShows(v: Dialect, ps: seq<Piece>, letters: seq<(char, bool)>)
    ensures ShowOpen(v, ps, letters) != ""
  {
  }

  /** Where a quote is never closed that is said, and the rows before its line are given. */
  lemma {:induction false} UnclosedIsTold(v: Dialect, rows: seq<seq<Piece>>, ps: seq<Piece>, letters: seq<(char, bool)>)
    requires IsDialect(v) && (forall r <- rows :: FineRow(v, r)) && (forall p <- ps :: FinePiece(v, p))
    requires forall l <- letters :: FineLetter(v, l)
    ensures ParseFrom(OptionsOf(v), ShowFile(v, rows, true) + ShowOpen(v, ps, letters), FRESH)
            == Parsed(RecordsFor(rows), false)
    decreases rows
  {
    hide ParseFrom, FinePiece, FineLetter, FineRow, ShowPieces, ShowOpen, RecordFor, IsDialect;
    var open := ShowOpen(v, ps, letters);
    if rows == [] {
      assert ShowFile(v, rows, true) + open == open;
      LineStaysOpen(v, ps, letters, [], []);
    } else {
      assert rows[0] in rows;
      var rest := ShowFile(v, rows[1..], true) + open;
      assert ShowFile(v, rows, true) + open == ShowPieces(v, rows[0]) + (v.eol + rest);
      RestBegins(v, rows[1..], ps, letters);
      LineIsRead(v, rows[0], v.eol, rest, [], []);
      UnclosedIsTold(v, rows[1..], ps, letters);
      assert [] + RecordFor(rows[0]).fields == RecordFor(rows[0]).fields && [] + RecordFor(rows[0]).quoted == RecordFor(rows[0]).quoted;
      assert RecordsFor(rows) == [RecordFor(rows[0])] + RecordsFor(rows[1..]);
    }
  }

  lemma RestBegins(v: Dialect, rows: seq<seq<Piece>>, ps: seq<Piece>, letters: seq<(char, bool)>)
    requires IsDialect(v) && (forall r <- rows :: FineRow(v, r)) && (forall p <- ps :: FinePiece(v, p))
    ensures var rest := ShowFile(v, rows, true) + ShowOpen(v, ps, letters);
            rest != "" && v.eol != "" && LineEnds(v, v.eol, rest)
  {
    hide FineRow, FinePiece, ShowPieces, ShowFile, ShowOpen;
    OpenShows(v, ps, letters);
    if rows == [] {
      NoRows(v, true);
    } else {
      assert rows[0] in rows;
      ShowsSome(v, rows, true);
    }
    if v.eol == "\r" && v.lineEnd.Auto? {
      OpenBegins(v, ps, letters);
      if rows != [] { NextBegins(v, rows, true); }
    }
  }

  /** A file that ends inside quotes is refused, whatever comes before them. */
  lemma UnclosedIsRefused(v: Dialect, rows: seq<seq<Piece>>, ps: seq<Piece>, letters: seq<(char, bool)>, marked: bool)
    requires IsDialect(v) && (forall r <- rows :: FineRow(v, r)) && (forall p <- ps :: FinePiece(v, p))
    requires forall l <- letters :: FineLetter(v, l)
    requires var s := ShowFile(v, rows, true) + ShowOpen(v, ps, letters); marked || s == "" || s[0] != BOM
    ensures Parse(OptionsOf(v), (if marked then [BOM] else "") + (ShowFile(v, rows, true) + ShowOpen(v, ps, letters)))
            == Parsed(RecordsFor(rows), false)
  {
    UnclosedIsTold(v, rows, ps, letters);
    hide ParseFrom, ShowFile, ShowOpen, RecordsFor;
    var s := ShowFile(v, rows, true) + ShowOpen(v, ps, letters);
    if marked { assert ([BOM] + s)[1..] == s; } else { assert "" + s == s; }
  }
}
