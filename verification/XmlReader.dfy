/**
 * The reader of XML exports: entities (`decodeEntities`), a scan for events (`xmlEvents`) and the tables they make
 * (`readXmlTables`). Text is a sequence of characters; the two patterns for tags are read as the grammar they are.
 */
module XmlReader {
  import opened Wrappers
  import opened Texts

  /** What a cell of an export reads as. */
  datatype RowCell = Null | Text(text: string) | Base64(base64: string)

  datatype Attr = Attr(name: string, value: string)

  datatype Event = Start(name: string, attrs: seq<Attr>) | End(name: string) | Chars(text: string)

  // ---------------------------------------------------------------------------------------------------------------
  // Characters
  // ---------------------------------------------------------------------------------------------------------------

  predicate IsLetter(c: char) {
    'a' <= c <= 'z' || 'A' <= c <= 'Z'
  }

  predicate IsDigit(c: char) {
    '0' <= c <= '9'
  }

  predicate IsHex(c: char) {
    IsDigit(c) || 'a' <= c <= 'f' || 'A' <= c <= 'F'
  }

  predicate IsNameChar(c: char) {
    IsLetter(c) || IsDigit(c) || c == '_' || c == ':' || c == '.' || c == '-'
  }

  /** How many characters of a kind a text begins with. */
  function Span(s: string, kind: char -> bool): (n: nat)
    ensures n <= |s|
  {
    if s != "" && kind(s[0]) then 1 + Span(s[1..], kind) else 0
  }

  /** The place of the first `c`, or the text's length. */
  function Find(s: string, c: char): (n: nat)
    ensures n <= |s| && (n < |s| ==> s[n] == c) && c !in s[..n]
  {
    if s == "" || s[0] == c then 0 else 1 + Find(s[1..], c)
  }

  /** What follows the first `end`, or nothing. */
  function After(s: string, end: string): (r: string)
    requires end != ""
    ensures |r| <= |s|
  {
    if s == "" then "" else if end <= s then s[|end|..] else After(s[1..], end)
  }

  /** What stands before the first `end`, or everything. */
  function Before(s: string, end: string): string {
    if s == "" || end <= s then "" else [s[0]] + Before(s[1..], end)
  }

  // ---------------------------------------------------------------------------------------------------------------
  // Entities
  // ---------------------------------------------------------------------------------------------------------------

  function HexValue(c: char): nat
    requires IsHex(c)
  {
    if IsDigit(c) then c as int - '0' as int else if c <= 'F' then c as int - 'A' as int + 10 else c as int - 'a' as int + 10
  }

  function Number(digits: string, base: nat): nat
    requires forall c <- digits :: IsHex(c)
  {
    if digits == "" then 0 else Number(digits[..|digits| - 1], base) * base + HexValue(digits[|digits| - 1])
  }

  lemma {:induction false} SpanIsKind(s: string, kind: char -> bool)
    ensures forall i :: 0 <= i < Span(s, kind) ==> kind(s[i])
    ensures Span(s, kind) < |s| ==> !kind(s[Span(s, kind)])
    decreases s
  {
    if s != "" && kind(s[0]) { SpanIsKind(s[1..], kind); }
  }

  /** The character a code stands for, where it stands for one. */
  function FromCode(code: nat): Option<string> {
    if 0 < code < 0xd800 || 0xe000 <= code <= 0x10ffff then Some([code as char]) else None
  }

  function Named(name: string): Option<string> {
    if name == "amp" then Some("&") else if name == "lt" then Some("<") else if name == "gt" then Some(">")
    else if name == "quot" then Some("\"") else if name == "apos" then Some("'") else None
  }

  /** How long the reference is that a text beginning with `&` begins with, 0 if with none; it ends with `;`. */
  function ReferenceLength(s: string): (n: nat)
    requires s != ""
    ensures n <= |s|
  {
    var start := if |s| > 1 && s[1] == '#' then (if |s| > 2 && (s[2] == 'x' || s[2] == 'X') then 3 else 2) else 1;
    var n := Span(s[start..], if start == 3 then IsHex else if start == 2 then IsDigit else IsLetter);
    if n > 0 && start + n < |s| && s[start + n] == ';' then start + n + 1 else 0
  }

  lemma ReferenceDigits(s: string)
    requires s != "" && ReferenceLength(s) > 0 && s[1] == '#'
    ensures var start := if s[2] == 'x' || s[2] == 'X' then 3 else 2;
            start < ReferenceLength(s) && forall i :: start <= i < ReferenceLength(s) - 1 ==> IsHex(s[i])
  {
    var start := if s[2] == 'x' || s[2] == 'X' then 3 else 2;
    var kind := if start == 3 then IsHex else IsDigit;
    SpanIsKind(s[start..], kind);
    forall i | start <= i < ReferenceLength(s) - 1 ensures IsHex(s[i]) { assert kind(s[start..][i - start]); }
  }

  /** What the reference of length `n` at the start of `s` stands for; any it does not know stays as written. */
  function Reference(s: string, n: nat): string
    requires s != "" && n == ReferenceLength(s) > 0
  {
    var value :=
      if s[1] == '#' then
        ReferenceDigits(s);
        if s[2] == 'x' || s[2] == 'X' then FromCode(Number(s[3..n - 1], 16)) else FromCode(Number(s[2..n - 1], 10))
      else Named(s[1..n - 1]);
    if value.Some? then value.value else s[..n]
  }

  function DecodeEntities(s: string): string
    decreases |s|
  {
    if s == "" then ""
    else
      var n := if s[0] == '&' then ReferenceLength(s) else 0;
      if n > 0 then Reference(s, n) + DecodeEntities(s[n..]) else [s[0]] + DecodeEntities(s[1..])
  }

  // ---------------------------------------------------------------------------------------------------------------
  // Tags
  // ---------------------------------------------------------------------------------------------------------------

  datatype Tag = Tag(closing: bool, name: string, attrs: seq<Attr>, selfClosing: bool, rest: string)

  function SkipSpace(s: string): (r: string)
    ensures |r| <= |s|
  {
    s[Span(s, IsSpace)..]
  }

  /** A name after at least one space, and what follows it. */
  function AttrName(s: string): (r: Option<(string, string)>)
    ensures r.Some? ==> |r.value.1| < |s|
  {
    var t := SkipSpace(s);
    var n := Span(t, IsNameChar);
    if |t| == |s| || n == 0 then None else Some((t[..n], t[n..]))
  }

  /** `=` and a value in either quotes, and what follows it. */
  function AttrValue(s: string): (r: Option<(string, string)>)
    ensures r.Some? ==> |r.value.1| < |s|
  {
    var u := SkipSpace(s);
    if u == "" || u[0] != '=' then None
    else
      var v := SkipSpace(u[1..]);
      if v == "" || (v[0] != '"' && v[0] != '\'') then None
      else
        var end := Find(v[1..], v[0]);
        if end == |v[1..]| then None else Some((v[1..][..end], v[1..][end + 1..]))
  }

  function AttrAt(s: string): (r: Option<(Attr, string)>)
    ensures r.Some? ==> |r.value.1| < |s|
  {
    var name := AttrName(s);
    if name.None? then None
    else
      var value := AttrValue(name.value.1);
      if value.None? then None else Some((Attr(name.value.0, value.value.0), value.value.1))
  }

  function AttrsAt(s: string): (r: (seq<Attr>, string))
    ensures |r.1| <= |s|
    decreases |s|
  {
    var first := AttrAt(s);
    if first.None? then ([], s)
    else
      var (more, rest) := AttrsAt(first.value.1);
      ([first.value.0] + more, rest)
  }

  /** The tag a text beginning with `<` begins with. */
  function TagAt(s: string): (r: Option<Tag>)
    requires s != ""
    ensures r.Some? ==> |r.value.rest| < |s|
  {
    var closing := |s| > 1 && s[1] == '/';
    var t := s[if closing then 2 else 1..];
    var n := Span(t, IsNameChar);
    var (attrs, u) := AttrsAt(t[n..]);
    var v := SkipSpace(u);
    var selfClosing := v != "" && v[0] == '/';
    var w := if selfClosing then v[1..] else v;
    if n == 0 || w == "" || w[0] != '>' then None else Some(Tag(closing, t[..n], attrs, selfClosing, w[1..]))
  }

  function Decoded(attrs: seq<Attr>): seq<Attr> {
    if attrs == [] then [] else [Attr(attrs[0].name, DecodeEntities(attrs[0].value))] + Decoded(attrs[1..])
  }

  /** The value of an attribute: of several of one name, the last. */
  function ValueOf(attrs: seq<Attr>, name: string): Option<string> {
    if attrs == [] then None
    else if attrs[|attrs| - 1].name == name then Some(attrs[|attrs| - 1].value)
    else ValueOf(attrs[..|attrs| - 1], name)
  }

  function TagEvents(tag: Tag): seq<Event> {
    if tag.closing then [End(tag.name)]
    else [Start(tag.name, Decoded(tag.attrs))] + if tag.selfClosing then [End(tag.name)] else []
  }

  // ---------------------------------------------------------------------------------------------------------------
  // Events
  // ---------------------------------------------------------------------------------------------------------------

  /** Comments, processing instructions, CDATA and declarations: what is taken off a text that begins with one. */
  function TakeMarkup(s: string): Option<(seq<Event>, string)> {
    if "<!--" <= s then Some(([], After(s[4..], "-->")))
    else if "<?" <= s then Some(([], After(s[2..], "?>")))
    else if "<![CDATA[" <= s then Some(([Chars(Before(s[9..], "]]>"))], After(s[9..], "]]>")))
    else if "<!" <= s then Some(([], After(s[2..], ">")))
    else None
  }

  /** What is taken off the front of the text: the events of it, and what is left. */
  function Take(s: string): (r: (seq<Event>, string))
    requires s != ""
    ensures |r.1| < |s|
  {
    if s[0] != '<' then ([Chars(DecodeEntities(s[..Find(s, '<')]))], s[Find(s, '<')..])
    else
      var markup := TakeMarkup(s);
      if markup.Some? then markup.value
      else
        var tag := TagAt(s);
        if tag.None? then ([], s[1..]) else (TagEvents(tag.value), tag.value.rest)
  }

  function Events(s: string): seq<Event>
    decreases |s|
  {
    if s == "" then [] else Take(s).0 + Events(Take(s).1)
  }

  lemma Step(s: string, at: nat, end: string)
    requires at < |s| && !(end <= s[at..]) && end != ""
    ensures Before(s[at..], end) == [s[at]] + Before(s[at + 1..], end) && After(s[at..], end) == After(s[at + 1..], end)
  {
    assert s[at..][1..] == s[at + 1..];
  }

  /** `indexOf` with a start; the text's length where there is none. */
  method IndexOf(s: string, end: string, from: nat) returns (at: nat)
    requires from <= |s| && end != ""
    ensures from <= at <= |s| && (at < |s| ==> at + |end| <= |s|)
    ensures Before(s[from..], end) == s[from..at]
    ensures After(s[from..], end) == if at < |s| then s[at + |end|..] else ""
  {
    at := from;
    hide Before, After;
    while at < |s| && !(end <= s[at..])
      invariant from <= at <= |s|
      invariant Before(s[from..], end) == s[from..at] + Before(s[at..], end)
      invariant After(s[from..], end) == After(s[at..], end)
    {
      Step(s, at, end);
      assert s[from..at + 1] == s[from..at] + [s[at]];
      at := at + 1;
    }
    Found(s, at, end);
  }

  lemma Found(s: string, at: nat, end: string)
    requires end != "" && at <= |s| && (at == |s| || end <= s[at..])
    ensures at < |s| ==> at + |end| <= |s|
    ensures Before(s[at..], end) == "" && After(s[at..], end) == if at < |s| then s[at + |end|..] else ""
  {
    if at < |s| { assert s[at..][|end|..] == s[at + |end|..]; }
  }

  predicate IsSuffix(r: string, s: string) {
    |r| <= |s| && r == s[|s| - |r|..]
  }

  lemma SuffixOn(r: string, s: string, t: string)
    requires IsSuffix(r, s) && IsSuffix(s, t)
    ensures IsSuffix(r, t)
  {
  }

  lemma Drop(r: string, n: nat, s: string)
    requires IsSuffix(r, s) && n <= |r|
    ensures IsSuffix(r[n..], s)
  {
    assert r[n..] == s[|s| - |r| + n..];
  }

  lemma SuffixSelf(s: string)
    ensures IsSuffix(s, s)
  {
  }

  lemma ValueSuffix(s: string)
    ensures AttrValue(s).Some? ==> IsSuffix(AttrValue(s).value.1, s)
  {
    hide IsSuffix, Span, Find;
    SuffixSelf(s);
    Drop(s, Span(s, IsSpace), s);
    var u := SkipSpace(s);
    if AttrValue(s).Some? {
      Drop(u, 1, s);
      Drop(u[1..], Span(u[1..], IsSpace), s);
      var v := SkipSpace(u[1..]);
      Drop(v, 1, s);
      Drop(v[1..], Find(v[1..], v[0]) + 1, s);
    }
  }

  lemma AttrSuffix(s: string)
    ensures AttrAt(s).Some? ==> IsSuffix(AttrAt(s).value.1, s)
  {
    hide IsSuffix, Span, AttrValue;
    SuffixSelf(s);
    Drop(s, Span(s, IsSpace), s);
    var t := SkipSpace(s);
    Drop(t, Span(t, IsNameChar), s);
    if AttrAt(s).Some? {
      var u := AttrName(s).value.1;
      ValueSuffix(u);
      SuffixOn(AttrAt(s).value.1, u, s);
    }
  }

  lemma {:induction false} AttrsSuffix(s: string)
    ensures IsSuffix(AttrsAt(s).1, s)
    decreases |s|
  {
    hide AttrAt;
    var first := AttrAt(s);
    if first.Some? {
      AttrSuffix(s);
      AttrsSuffix(first.value.1);
      SuffixOn(AttrsAt(s).1, first.value.1, s);
    }
  }

  lemma TagSuffix(s: string)
    requires s != ""
    ensures TagAt(s).Some? ==> IsSuffix(TagAt(s).value.rest, s)
  {
    hide AttrsAt, IsSuffix, Span;
    SuffixSelf(s);
    var closing := |s| > 1 && s[1] == '/';
    var t := s[if closing then 2 else 1..];
    Drop(s, if closing then 2 else 1, s);
    var n := Span(t, IsNameChar);
    Drop(t, n, s);
    var u := AttrsAt(t[n..]).1;
    AttrsSuffix(t[n..]);
    SuffixOn(u, t[n..], s);
    Drop(u, Span(u, IsSpace), s);
    var v := u[Span(u, IsSpace)..];
    if TagAt(s).Some? {
      if v[0] == '/' {
        Drop(v, 1, s);
        Drop(v[1..], 1, s);
      } else {
        Drop(v, 1, s);
      }
    }
  }

  lemma {:induction false} FindIsBefore(s: string, c: char)
    ensures Before(s, [c]) == s[..Find(s, c)]
    decreases s
  {
    if s != "" && s[0] != c { FindIsBefore(s[1..], c); }
  }

  method MarkupAt(xml: string, i: nat) returns (r: Option<(seq<Event>, nat)>)
    requires i < |xml|
    ensures r.None? <==> TakeMarkup(xml[i..]).None?
    ensures r.Some? ==> i < r.value.1 <= |xml| && r.value.0 == TakeMarkup(xml[i..]).value.0
                        && xml[r.value.1..] == TakeMarkup(xml[i..]).value.1
  {
    hide Before, After;
    var s := xml[i..];
    if "<!--" <= s {
      assert s[4..] == xml[i + 4..];
      var end := IndexOf(xml, "-->", i + 4);
      r := Some(([], if end < |xml| then end + 3 else end));
    } else if "<?" <= s {
      assert s[2..] == xml[i + 2..];
      var end := IndexOf(xml, "?>", i + 2);
      r := Some(([], if end < |xml| then end + 2 else end));
    } else if "<![CDATA[" <= s {
      assert s[9..] == xml[i + 9..];
      var end := IndexOf(xml, "]]>", i + 9);
      r := Some(([Chars(xml[i + 9..end])], if end < |xml| then end + 3 else end));
    } else if "<!" <= s {
      assert s[2..] == xml[i + 2..];
      var end := IndexOf(xml, ">", i + 2);
      r := Some(([], if end < |xml| then end + 1 else end));
    } else {
      r := None;
    }
  }

  /** One turn of the scan. */
  method TakeAt(xml: string, i: nat) returns (found: seq<Event>, next: nat)
    requires i < |xml|
    ensures i < next <= |xml| && found == Take(xml[i..]).0 && xml[next..] == Take(xml[i..]).1
  {
    hide TagAt, TakeMarkup, Before, After, Find, DecodeEntities, TagEvents;
    var s := xml[i..];
    found := [];
    if xml[i] != '<' {
      next := IndexOf(xml, "<", i);
      FindIsBefore(s, '<');
      FindPlace(s, next - i);
      found := [Chars(DecodeEntities(xml[i..next]))];
    } else {
      var markup := MarkupAt(xml, i);
      if markup.Some? {
        found, next := markup.value.0, markup.value.1;
      } else {
        var tag := TagAt(s);
        if tag.None? {
          next := i + 1;
        } else {
          TagSuffix(s);
          SuffixSelf(xml);
          Drop(xml, i, xml);
          SuffixOn(tag.value.rest, s, xml);
          found := TagEvents(tag.value);
          next := |xml| - |tag.value.rest|;
        }
      }
    }
  }

  lemma FindPlace(s: string, n: nat)
    requires n <= |s| && s[..Find(s, '<')] == s[..n] && s != "" && s[0] != '<'
    ensures Find(s, '<') == n && n > 0
  {
    assert |s[..n]| == n;
  }

  method XmlEvents(xml: string) returns (events: seq<Event>)
    ensures events == Events(xml)
  {
    events := [];
    var i := 0;
    assert xml[0..] == xml;
    while i < |xml|
      invariant 0 <= i <= |xml| && events + Events(xml[i..]) == Events(xml)
    {
      var found, next := TakeAt(xml, i);
      OneMore(xml[i..], events);
      events := events + found;
      i := next;
    }
    assert xml[i..] == "" && events + [] == events;
  }

  lemma OneMore(s: string, events: seq<Event>)
    requires s != ""
    ensures events + Events(s) == events + Take(s).0 + Events(Take(s).1)
  {
    hide Take;
  }

  // ---------------------------------------------------------------------------------------------------------------
  // Tables
  // ---------------------------------------------------------------------------------------------------------------

  /** A row's cells by column name, in the order they were first given. */
  type Row = seq<(string, RowCell)>

  datatype Column = Column(name: string, isNull: bool, base64: bool, text: string)

  datatype TableRows = TableRows(name: string, header: seq<string>, rows: seq<Row>)

  datatype Reading = Reading(table: string, direct: Option<Row>, row: Option<Row>, column: Option<Column>, inStructure: bool,
                             tables: seq<TableRows>)

  const START := Reading("", None, None, None, false, [])

  datatype TableRead = TableRead(name: string, header: seq<string>, rows: seq<seq<RowCell>>)

  function SetCell(row: Row, name: string, cell: RowCell): Row {
    if row == [] then [(name, cell)]
    else if row[0].0 == name then [(name, cell)] + row[1..]
    else [row[0]] + SetCell(row[1..], name, cell)
  }

  function CellOf(row: Row, name: string): RowCell {
    if row == [] then Null else if row[0].0 == name then row[0].1 else CellOf(row[1..], name)
  }

  function WithNames(header: seq<string>, row: Row): seq<string>
    decreases row
  {
    if row == [] then header
    else WithNames(if row[0].0 in header then header else header + [row[0].0], row[1..])
  }

  /** A row goes to the table of its name, which is last in line if it is new. */
  function AddRow(tables: seq<TableRows>, name: string, row: Row): seq<TableRows> {
    if tables == [] then [TableRows(name, WithNames([], row), [row])]
    else if tables[0].name == name
    then [TableRows(name, WithNames(tables[0].header, row), tables[0].rows + [row])] + tables[1..]
    else [tables[0]] + AddRow(tables[1..], name, row)
  }

  function Emit(st: Reading, row: Row, skipBlank: bool): Reading {
    if row == [] && skipBlank then st else st.(tables := AddRow(st.tables, st.table, row))
  }

  function Decimal(n: nat): string {
    (if n < 10 then "" else Decimal(n / 10)) + ["0123456789"[n % 10]]
  }

  function OnStart(st: Reading, name: string, attrs: seq<Attr>): Reading {
    if name == "table" then
      var given := ValueOf(attrs, "name");
      st.(table := if given.Some? then given.value else "table" + Decimal(|st.tables| + 1), direct := Some([]))
    else if name == "structure" then st.(inStructure := true)
    else if name == "row" then st.(row := Some([]))
    else if name == "column" && ValueOf(attrs, "name").Some? && !st.inStructure then
      st.(column := Some(Column(ValueOf(attrs, "name").value, ValueOf(attrs, "null") == Some("true"),
                                ValueOf(attrs, "encoding") == Some("base64"), "")))
    else st
  }

  /** A finished column's value. */
  function ColumnCell(c: Column): RowCell {
    if c.isNull then Null else if c.base64 then Base64(Trim(c.text)) else Text(c.text)
  }

  function OnEnd(st: Reading, name: string, skipBlank: bool): Reading {
    if name == "structure" then st.(inStructure := false)
    else if name == "column" && st.column.Some? then
      var c := st.column.value;
      var done := st.(column := None);
      if st.row.Some? then done.(row := Some(SetCell(st.row.value, c.name, ColumnCell(c))))
      else if st.direct.Some? then done.(direct := Some(SetCell(st.direct.value, c.name, ColumnCell(c))))
      else done
    else if name == "row" && st.row.Some? then Emit(st, st.row.value, skipBlank).(row := None)
    else if name == "table" then
      (if st.direct.Some? && st.direct.value != [] then Emit(st, st.direct.value, skipBlank) else st).(direct := None)
    else st
  }

  function Next(st: Reading, e: Event, skipBlank: bool): Reading {
    match e
    case Start(name, attrs) => OnStart(st, name, attrs)
    case End(name) => OnEnd(st, name, skipBlank)
    case Chars(text) =>
      if st.column.Some? then st.(column := Some(st.column.value.(text := st.column.value.text + text))) else st
  }

  function Fold(st: Reading, events: seq<Event>, skipBlank: bool): Reading
    decreases events
  {
    if events == [] then st else Fold(Next(st, events[0], skipBlank), events[1..], skipBlank)
  }

  function CellsOf(header: seq<string>, row: Row): seq<RowCell> {
    if header == [] then [] else [CellOf(row, header[0])] + CellsOf(header[1..], row)
  }

  function RowsOf(header: seq<string>, rows: seq<Row>): seq<seq<RowCell>> {
    if rows == [] then [] else [CellsOf(header, rows[0])] + RowsOf(header, rows[1..])
  }

  /** Every row of a table gets all its columns. */
  function Filled(tables: seq<TableRows>): seq<TableRead> {
    if tables == [] then []
    else [TableRead(tables[0].name, tables[0].header, RowsOf(tables[0].header, tables[0].rows))] + Filled(tables[1..])
  }

  function TablesOf(xml: string, skipBlank: bool): seq<TableRead> {
    Filled(Fold(START, Events(xml), skipBlank).tables)
  }

  method ReadXmlTables(xml: string, skipBlank: bool) returns (r: seq<TableRead>)
    ensures r == TablesOf(xml, skipBlank)
  {
    var events := XmlEvents(xml);
    var table, inStructure := "", false;
    var direct: Option<Row>, row: Option<Row>, column: Option<Column> := None, None, None;
    var tables: seq<TableRows> := [];
    hide Events, AddRow;
    for i := 0 to |events|
      invariant Fold(Reading(table, direct, row, column, inStructure, tables), events[i..], skipBlank)
             == Fold(START, events, skipBlank)
    {
      ghost var st := Reading(table, direct, row, column, inStructure, tables);
      assert events[i..][1..] == events[i + 1..];
      match events[i]
      case Start(name, attrs) =>
        if name == "table" {
          var given := ValueOf(attrs, "name");
          table := if given.Some? then given.value else "table" + Decimal(|tables| + 1);
          direct := Some([]);
        } else if name == "structure" {
          inStructure := true;
        } else if name == "row" {
          row := Some([]);
        } else if name == "column" && ValueOf(attrs, "name").Some? && !inStructure {
          column := Some(Column(ValueOf(attrs, "name").value, ValueOf(attrs, "null") == Some("true"),
                                ValueOf(attrs, "encoding") == Some("base64"), ""));
        }
      case Chars(text) =>
        if column.Some? { column := Some(column.value.(text := column.value.text + text)); }
      case End(name) =>
        if name == "structure" {
          inStructure := false;
        } else if name == "column" && column.Some? {
          var cell := ColumnCell(column.value);
          if row.Some? {
            row := Some(SetCell(row.value, column.value.name, cell));
          } else if direct.Some? {
            direct := Some(SetCell(direct.value, column.value.name, cell));
          }
          column := None;
        } else if name == "row" && row.Some? {
          if !(row.value == [] && skipBlank) { tables := AddRow(tables, table, row.value); }
          row := None;
        } else if name == "table" {
          if direct.Some? && direct.value != [] { tables := AddRow(tables, table, direct.value); }
          direct := None;
        }
      assert Reading(table, direct, row, column, inStructure, tables) == Next(st, events[i], skipBlank);
    }
    r := Filled(tables);
  }
}
