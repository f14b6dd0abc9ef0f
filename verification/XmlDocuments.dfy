/**
 * What `readXmlTables` makes of any document of tables and rows: rows with whatever columns they give, columns that
 * stand directly in a table, values written with references, CDATA sections and comments. The document is a tree here,
 * written out in the grammar, and what is read is said of the tree.
 */
module XmlDocuments {
  import opened Wrappers
  import opened Texts
  import opened XmlReader
  import opened XmlExport

  datatype Form = Decimal | LowerHex | UpperHex

  /** Text as it stands, a character by its code, or one of the five named entities. */
  datatype Part = Plain(text: string) | Coded(code: nat, form: Form) | Entity(name: string)

  datatype Markup = CData(text: string) | Comment(text: string)

  datatype Content = Content(before: seq<(seq<Part>, Markup)>, last: seq<Part>)

  /** A column: its cell, and the text before its tag. */
  datatype Given = Given(column: string, isNull: bool, base64: bool, content: Content, gap: string)

  /** What stands in a table: a row, or a column of the table's own. */
  datatype Item = RowOf(cells: seq<Given>, gap: string, tail: string) | Loose(cell: Given)

  datatype TableDoc = TableDoc(name: string, items: seq<Item>, gap: string, tail: string)

  // ---------------------------------------------------------------------------------------------------------------
  // The document written out
  // ---------------------------------------------------------------------------------------------------------------

  const LOWER := "0123456789abcdef"
  const UPPER := "0123456789ABCDEF"

  function Base(form: Form): nat {
    if form.Decimal? then 10 else 16
  }

  function Digit(n: nat, form: Form): char
    requires n < 16
  {
    if form.UpperHex? then UPPER[n] else LOWER[n]
  }

  function Digits(n: nat, form: Form): string {
    (if n < Base(form) then "" else Digits(n / Base(form), form)) + [Digit(n % Base(form), form)]
  }

  function ShowPart(p: Part): string {
    match p
    case Plain(text) => text
    case Coded(code, form) =>
      "&#" + (if form.Decimal? then "" else if form.LowerHex? then "x" else "X") + Digits(code, form) + ";"
    case Entity(name) => "&" + name + ";"
  }

  function ShowParts(parts: seq<Part>): string {
    if parts == [] then "" else ShowPart(parts[0]) + ShowParts(parts[1..])
  }

  function ShowMarkup(m: Markup): string {
    if m.CData? then "<![CDATA[" + m.text + "]]>" else "<!--" + m.text + "-->"
  }

  function ShowBefore(before: seq<(seq<Part>, Markup)>): string {
    if before == [] then "" else ShowParts(before[0].0) + ShowMarkup(before[0].1) + ShowBefore(before[1..])
  }

  function ShowContent(c: Content): string {
    ShowBefore(c.before) + ShowParts(c.last)
  }

  function GivenAttrs(g: Given): seq<Attr> {
    [NameAttr(g.column)] + (if g.isNull then [Attr("null", "true")] else [])
    + if g.base64 then [Attr("encoding", "base64")] else []
  }

  function ShowGiven(g: Given): string {
    g.gap + (OpenTag("column", GivenAttrs(g), false) + (ShowContent(g.content) + "</column>"))
  }

  function ShowGivens(cells: seq<Given>): string {
    if cells == [] then "" else ShowGiven(cells[0]) + ShowGivens(cells[1..])
  }

  function ShowItem(i: Item): string {
    if i.Loose? then ShowGiven(i.cell)
    else i.gap + (OpenTag("row", [], false) + (ShowGivens(i.cells) + (i.tail + "</row>")))
  }

  function ShowItems(items: seq<Item>): string {
    if items == [] then "" else ShowItem(items[0]) + ShowItems(items[1..])
  }

  function ShowTable(t: TableDoc): string {
    t.gap + (OpenTag("table", [NameAttr(t.name)], false) + (ShowItems(t.items) + (t.tail + "</table>")))
  }

  function ShowTables(doc: seq<TableDoc>): string {
    if doc == [] then "" else ShowTable(doc[0]) + ShowTables(doc[1..])
  }

  // ---------------------------------------------------------------------------------------------------------------
  // What it says
  // ---------------------------------------------------------------------------------------------------------------

  function PartValue(p: Part): string {
    match p
    case Plain(text) => text
    case Coded(code, _) => if code < 0xd800 || 0xe000 <= code <= 0x10ffff then [code as char] else ""
    case Entity(name) =>
      if name == "amp" then "&" else if name == "lt" then "<" else if name == "gt" then ">"
      else if name == "quot" then "\"" else "'"
  }

  function PartsValue(parts: seq<Part>): string {
    if parts == [] then "" else PartValue(parts[0]) + PartsValue(parts[1..])
  }

  function BeforeValue(before: seq<(seq<Part>, Markup)>): string {
    if before == [] then ""
    else PartsValue(before[0].0) + (if before[0].1.CData? then before[0].1.text else "") + BeforeValue(before[1..])
  }

  function Value(c: Content): string {
    BeforeValue(c.before) + PartsValue(c.last)
  }

  function CellValue(g: Given): RowCell {
    if g.isNull then Null else if g.base64 then Base64(Trim(Value(g.content))) else Text(Value(g.content))
  }

  function LooseCells(items: seq<Item>): seq<Given> {
    if items == [] then [] else (if items[0].Loose? then [items[0].cell] else []) + LooseCells(items[1..])
  }

  /** A row of the document: its table, and the cells it gives. */
  type RowGiven = (string, seq<Given>)

  function RowsIn(name: string, items: seq<Item>, skipBlank: bool): seq<RowGiven> {
    if items == [] then []
    else
      (if items[0].RowOf? && (items[0].cells != [] || !skipBlank) then [(name, items[0].cells)] else [])
      + RowsIn(name, items[1..], skipBlank)
  }

  /** The rows of a table in their order, and last its own columns, if it has any. */
  function RowsOfTable(t: TableDoc, skipBlank: bool): seq<RowGiven> {
    RowsIn(t.name, t.items, skipBlank) + if LooseCells(t.items) == [] then [] else [(t.name, LooseCells(t.items))]
  }

  function RowsGiven(doc: seq<TableDoc>, skipBlank: bool): seq<RowGiven> {
    if doc == [] then [] else RowsOfTable(doc[0], skipBlank) + RowsGiven(doc[1..], skipBlank)
  }

  // ---------------------------------------------------------------------------------------------------------------
  // Documents that can be written so
  // ---------------------------------------------------------------------------------------------------------------

  predicate FinePart(p: Part) {
    match p
    case Plain(text) => '<' !in text && '&' !in text
    case Coded(code, _) => 0 < code < 0xd800 || 0xe000 <= code <= 0x10ffff
    case Entity(name) => name == "amp" || name == "lt" || name == "gt" || name == "quot" || name == "apos"
  }

  /** The text before an end: the end does not begin in it. */
  predicate EndsAt(text: string, end: string) {
    forall i :: 0 <= i < |text| ==> !(end <= (text + end)[i..])
  }

  predicate FineMarkup(m: Markup) {
    EndsAt(m.text, if m.CData? then "]]>" else "-->")
  }

  predicate FineContent(c: Content) {
    && (forall x <- c.before :: (forall p <- x.0 :: FinePart(p)) && FineMarkup(x.1))
    && forall p <- c.last :: FinePart(p)
  }

  predicate FineGiven(g: Given) {
    '<' !in g.gap && FineContent(g.content)
  }

  predicate FineItem(i: Item) {
    if i.Loose? then FineGiven(i.cell) else '<' !in i.gap && '<' !in i.tail && forall g <- i.cells :: FineGiven(g)
  }

  predicate Fine(doc: seq<TableDoc>) {
    forall t <- doc :: '<' !in t.gap && '<' !in t.tail && forall i <- t.items :: FineItem(i)
  }

  // ---------------------------------------------------------------------------------------------------------------
  // References
  // ---------------------------------------------------------------------------------------------------------------

  lemma DigitsOfBase()
    ensures |LOWER| == 16 && |UPPER| == 16
    ensures forall n: nat, form: Form :: n < Base(form) ==>
              IsHex(Digit(n, form)) && HexValue(Digit(n, form)) == n && (form.Decimal? ==> IsDigit(Digit(n, form)))
  {
    forall n: nat, form: Form | n < Base(form)
      ensures IsHex(Digit(n, form)) && HexValue(Digit(n, form)) == n && (form.Decimal? ==> IsDigit(Digit(n, form)))
    {
      OneDigit(n);
    }
  }

  lemma OneDigit(n: nat)
    requires n < 16
    ensures |LOWER| == 16 && |UPPER| == 16
    ensures LOWER[n] as int == if n < 10 then 48 + n else 87 + n
    ensures UPPER[n] as int == if n < 10 then 48 + n else 55 + n
  {
  }

  /** The digits of a number are read as that number. */
  lemma {:induction false} NumberOfDigits(n: nat, form: Form)
    ensures var s := Digits(n, form);
            && s != "" && (forall c <- s :: IsHex(c) && (form.Decimal? ==> IsDigit(c)))
            && Number(s, Base(form)) == n
    decreases n
  {
    DigitsOfBase();
    hide IsHex, IsDigit, HexValue, Digit;
    var s, last := Digits(n, form), Digit(n % Base(form), form);
    if n < Base(form) {
      assert s == [last] && s[..0] == "";
    } else {
      NumberOfDigits(n / Base(form), form);
      var front := Digits(n / Base(form), form);
      assert s == front + [last] && s[..|s| - 1] == front;
    }
  }

  lemma MarkerIsNone(s: string, form: Form)
    requires s != "" && forall c <- s :: IsHex(c)
    ensures s[0] != 'x' && s[0] != 'X' && s[0] != ';' && s[0] != '#'
  {
    assert IsHex(s[0]);
  }

  lemma CodedText(mark: string, digits: string, rest: string)
    requires digits != ""
    ensures var s, start := "&#" + mark + digits + ";" + rest, 2 + |mark|;
            && |s| > start + |digits| && s[0] == '&' && s[1] == '#' && s[start..] == digits + (";" + rest)
            && s[start..start + |digits|] == digits && s[start + |digits|] == ';' && s[start + |digits| + 1..] == rest
            && s[2] == if mark == "" then digits[0] else mark[0]
  {
  }

  /** A reference by code is read as the character of that code. */
  lemma CodedReads(code: nat, form: Form, rest: string)
    requires FinePart(Coded(code, form))
    ensures DecodeEntities(ShowPart(Coded(code, form)) + rest) == [code as char] + DecodeEntities(rest)
  {
    NumberOfDigits(code, form);
    var digits := Digits(code, form);
    MarkerIsNone(digits, form);
    SpanOf(digits, ";" + rest, if form.Decimal? then IsDigit else IsHex);
    assert !IsHex(';') && !IsDigit(';');
    hide Digits, Span, IsHex, IsDigit, Number, DecodeEntities;
    var mark := if form.Decimal? then "" else if form.LowerHex? then "x" else "X";
    var s := "&#" + mark + digits + ";" + rest;
    assert s == ShowPart(Coded(code, form)) + rest;
    CodedText(mark, digits, rest);
    var n := 2 + |mark| + |digits| + 1;
    CodedLength(s, 2 + |mark|, digits, rest, form);
    DecodedReference(s, n, code);
  }

  lemma CodedLength(s: string, start: nat, digits: string, rest: string, form: Form)
    requires |s| > start >= 2 && s[0] == '&' && s[1] == '#' && s[start..] == digits + (";" + rest) && digits != ""
    requires if form.Decimal? then start == 2 && s[2] != 'x' && s[2] != 'X' else start == 3 && (s[2] == 'x' || s[2] == 'X')
    requires Span(s[start..], if form.Decimal? then IsDigit else IsHex) == |digits|
    ensures ReferenceLength(s) == start + |digits| + 1
  {
    hide Span;
    assert s[start + |digits|] == (digits + (";" + rest))[|digits|];
  }

  lemma DecodedReference(s: string, n: nat, code: nat)
    requires s != "" && s[0] == '&' && n == ReferenceLength(s) > 0 && |s| > 2 && s[1] == '#' && FromCode(code).Some?
    requires var start := if s[2] == 'x' || s[2] == 'X' then 3 else 2;
             start < n && (forall c <- s[start..n - 1] :: IsHex(c))
             && Number(s[start..n - 1], if start == 3 then 16 else 10) == code
    ensures DecodeEntities(s) == FromCode(code).value + DecodeEntities(s[n..])
  {
    hide Number, ReferenceLength, FromCode;
    assert Reference(s, n) == FromCode(code).value;
  }

  lemma EntityReads(name: string, rest: string)
    requires FinePart(Entity(name))
    ensures DecodeEntities(ShowPart(Entity(name)) + rest) == PartValue(Entity(name)) + DecodeEntities(rest)
  {
    hide DecodeEntities;
    NamedReads(name, PartValue(Entity(name)), rest);
  }

  lemma {:induction false} PlainReads(text: string, rest: string)
    requires '&' !in text
    ensures DecodeEntities(text + rest) == text + DecodeEntities(rest)
    decreases text
  {
    if text == "" {
      assert text + rest == rest;
    } else {
      var s := text + rest;
      assert s[0] == text[0] && s[0] in text && s[1..] == text[1..] + rest;
      PlainReads(text[1..], rest);
      assert DecodeEntities(s) == [s[0]] + DecodeEntities(s[1..]);
    }
  }

  lemma {:induction false} PartsRead(parts: seq<Part>)
    requires forall p <- parts :: FinePart(p)
    ensures DecodeEntities(ShowParts(parts)) == PartsValue(parts)
    decreases parts
  {
    if parts != [] {
      assert parts[0] in parts;
      PartsRead(parts[1..]);
      var p, rest := parts[0], ShowParts(parts[1..]);
      match p {
        case Plain(text) => PlainReads(text, rest);
        case Coded(code, form) => CodedReads(code, form, rest);
        case Entity(name) => EntityReads(name, rest);
      }
      hide DecodeEntities, ShowPart;
    }
  }

  lemma {:induction false} DigitsPlain(n: nat, form: Form)
    ensures '<' !in Digits(n, form)
    decreases n
  {
    NumberOfDigits(n, form);
    assert !IsHex('<');
  }

  lemma {:induction false} PartsAreText(parts: seq<Part>)
    requires forall p <- parts :: FinePart(p)
    ensures '<' !in ShowParts(parts)
    decreases parts
  {
    if parts != [] {
      assert parts[0] in parts;
      PartsAreText(parts[1..]);
      if parts[0].Coded? { DigitsPlain(parts[0].code, parts[0].form); }
      hide Digits;
    }
  }

  // ---------------------------------------------------------------------------------------------------------------
  // CDATA and comments
  // ---------------------------------------------------------------------------------------------------------------

  lemma {:induction false} UpToEnd(text: string, end: string, rest: string)
    requires end != "" && EndsAt(text, end)
    ensures Before(text + (end + rest), end) == text && After(text + (end + rest), end) == rest
    decreases text
  {
    var s := text + (end + rest);
    if text == "" {
      assert s == end + rest && s[..|end|] == end && s[|end|..] == rest;
    } else {
      assert s[1..] == text[1..] + (end + rest);
      assert (text + end)[0..] == text + end;
      assert s[..|text| + |end|] == text + end;
      forall i | 0 <= i < |text[1..]| ensures !(end <= (text[1..] + end)[i..]) {
        assert (text[1..] + end)[i..] == (text + end)[i + 1..];
      }
      UpToEnd(text[1..], end, rest);
    }
  }

  lemma CDataTaken(text: string, rest: string)
    requires EndsAt(text, "]]>")
    ensures TakeMarkup("<![CDATA[" + text + "]]>" + rest) == Some(([Chars(text)], rest))
  {
    UpToEnd(text, "]]>", rest);
    hide Before, After, EndsAt;
    var s := "<![CDATA[" + (text + ("]]>" + rest));
    assert s[..9] == "<![CDATA[" && s[9..] == text + ("]]>" + rest);
    assert s[1] == '!' && s[2] == '[';
    assert s == "<![CDATA[" + text + "]]>" + rest;
  }

  lemma CommentTaken(text: string, rest: string)
    requires EndsAt(text, "-->")
    ensures TakeMarkup("<!--" + text + "-->" + rest) == Some(([], rest))
  {
    UpToEnd(text, "-->", rest);
    hide Before, After, EndsAt;
    var s := "<!--" + (text + ("-->" + rest));
    assert s[..4] == "<!--" && s[4..] == text + ("-->" + rest);
    assert s == "<!--" + text + "-->" + rest;
  }

  lemma MarkupTaken(m: Markup, rest: string)
    requires FineMarkup(m)
    ensures var s := ShowMarkup(m) + rest;
            s != "" && s[0] == '<' && TakeMarkup(s) == Some((if m.CData? then [Chars(m.text)] else [], rest))
  {
    hide TakeMarkup, EndsAt;
    if m.CData? { CDataTaken(m.text, rest); } else { CommentTaken(m.text, rest); }
  }

  lemma MarkupReads(st: Reading, m: Markup, rest: string, skipBlank: bool)
    requires FineMarkup(m) && st.column.Some?
    ensures var c := st.column.value;
            ReadOn(st, ShowMarkup(m) + rest, skipBlank) ==
            ReadOn(st.(column := Some(c.(text := c.text + if m.CData? then m.text else ""))), rest, skipBlank)
  {
    MarkupTaken(m, rest);
    hide TakeMarkup, Events, ShowMarkup, Fold;
    ReadTakes(st, ShowMarkup(m) + rest, skipBlank);
    if m.CData? {
      FoldOne(st, Chars(m.text), skipBlank);
    } else {
      FoldNone(st, skipBlank);
      assert st.column.value.text + "" == st.column.value.text;
    }
  }

  lemma FoldNone(st: Reading, skipBlank: bool)
    ensures Fold(st, [], skipBlank) == st
  {
  }

  function WithText(st: Reading, text: string): Reading
    requires st.column.Some?
  {
    st.(column := Some(st.column.value.(text := st.column.value.text + text)))
  }

  lemma PartsThen(st: Reading, parts: seq<Part>, rest: string, skipBlank: bool)
    requires st.column.Some? && (forall p <- parts :: FinePart(p)) && rest != "" && rest[0] == '<'
    ensures ReadOn(st, ShowParts(parts) + rest, skipBlank) == ReadOn(WithText(st, PartsValue(parts)), rest, skipBlank)
  {
    PartsAreText(parts);
    PartsRead(parts);
    hide ReadOn, DecodeEntities, ShowParts, PartsValue;
    ColumnText(st, ShowParts(parts), rest, skipBlank);
  }

  lemma TextTwice(st: Reading, a: string, b: string)
    requires st.column.Some?
    ensures WithText(WithText(st, a), b) == WithText(st, a + b)
  {
    assert st.column.value.text + a + b == st.column.value.text + (a + b);
  }

  lemma {:induction false} BeforeReads(st: Reading, before: seq<(seq<Part>, Markup)>, rest: string, skipBlank: bool)
    requires st.column.Some? && (forall x <- before :: (forall p <- x.0 :: FinePart(p)) && FineMarkup(x.1))
    ensures ReadOn(st, ShowBefore(before) + rest, skipBlank) == ReadOn(WithText(st, BeforeValue(before)), rest, skipBlank)
    decreases before
  {
    hide ReadOn, ShowParts, ShowMarkup, PartsValue, FinePart, FineMarkup;
    if before == [] {
      assert "" + rest == rest && st.column.value.text + "" == st.column.value.text;
    } else {
      var (parts, m) := before[0];
      assert before[0] in before;
      var more := ShowBefore(before[1..]) + rest;
      assert ShowBefore(before) + rest == ShowParts(parts) + (ShowMarkup(m) + more);
      MarkupOpens(m, more);
      PartsThen(st, parts, ShowMarkup(m) + more, skipBlank);
      var a, b := PartsValue(parts), if m.CData? then m.text else "";
      MarkupReads(WithText(st, a), m, more, skipBlank);
      BeforeReads(WithText(WithText(st, a), b), before[1..], rest, skipBlank);
      TextTwice(st, a, b);
      TextTwice(st, a + b, BeforeValue(before[1..]));
    }
  }

  lemma MarkupOpens(m: Markup, rest: string)
    ensures var s := ShowMarkup(m) + rest; s != "" && s[0] == '<'
  {
  }

  lemma ContentReads(st: Reading, c: Content, rest: string, skipBlank: bool)
    requires st.column.Some? && FineContent(c) && rest != "" && rest[0] == '<'
    ensures ReadOn(st, ShowContent(c) + rest, skipBlank) == ReadOn(WithText(st, Value(c)), rest, skipBlank)
  {
    hide ReadOn, ShowBefore, ShowParts, BeforeValue, PartsValue, FinePart;
    assert ShowContent(c) + rest == ShowBefore(c.before) + (ShowParts(c.last) + rest);
    BeforeReads(st, c.before, ShowParts(c.last) + rest, skipBlank);
    PartsThen(WithText(st, BeforeValue(c.before)), c.last, rest, skipBlank);
    TextTwice(st, BeforeValue(c.before), PartsValue(c.last));
  }

  // ---------------------------------------------------------------------------------------------------------------
  // Columns and rows
  // ---------------------------------------------------------------------------------------------------------------

  lemma ValueOfMore(attrs: seq<Attr>, a: Attr, name: string)
    ensures ValueOf(attrs + [a], name) == if a.name == name then Some(a.value) else ValueOf(attrs, name)
  {
    assert (attrs + [a])[..|attrs|] == attrs;
  }

  lemma {:induction false} DecodedJoins(a: seq<Attr>, b: seq<Attr>)
    ensures Decoded(a + b) == Decoded(a) + Decoded(b)
    decreases a
  {
    if a == [] {
      assert a + b == b;
    } else {
      assert (a + b)[1..] == a[1..] + b;
      DecodedJoins(a[1..], b);
    }
  }

  lemma PlainAttr(name: string, value: string)
    requires '&' !in value
    ensures Decoded([Attr(name, value)]) == [Attr(name, value)]
  {
    DecodePlain(value);
    assert [Attr(name, value)][1..] == [];
  }

  function Marks(g: Given): seq<Attr> {
    (if g.isNull then [Attr("null", "true")] else []) + if g.base64 then [Attr("encoding", "base64")] else []
  }

  lemma MarksDecoded(g: Given)
    ensures Decoded(Marks(g)) == Marks(g)
  {
    PlainAttr("null", "true");
    PlainAttr("encoding", "base64");
    DecodedJoins([Attr("null", "true")], [Attr("encoding", "base64")]);
    hide Decoded;
    assert Decoded([]) == [] by { NothingDecodes(); }
    if g.isNull && g.base64 {
      assert Marks(g) == [Attr("null", "true")] + [Attr("encoding", "base64")];
    } else if g.isNull {
      assert Marks(g) == [Attr("null", "true")];
    } else if g.base64 {
      assert Marks(g) == [Attr("encoding", "base64")];
    } else {
      assert Marks(g) == [];
    }
  }

  lemma NothingDecodes()
    ensures Decoded([]) == []
  {
  }

  /** The column's own attribute after the name. */
  lemma ValuesOfMarks(g: Given, name: string)
    ensures ValueOf([Attr("name", g.column)] + Marks(g), name)
         == if g.base64 && name == "encoding" then Some("base64")
            else if g.isNull && name == "null" then Some("true")
            else if name == "name" then Some(g.column) else None
  {
    var b, n, e := Attr("name", g.column), Attr("null", "true"), Attr("encoding", "base64");
    ValueOfTwo(b, n, name);
    ValueOfMore([b], e, name);
    ValueOfMore([b, n], e, name);
    hide ValueOf;
    assert [b] + Marks(g) == if g.isNull then (if g.base64 then [b, n] + [e] else [b, n])
                             else if g.base64 then [b] + [e] else [b];
  }

  lemma GivenDecoded(g: Given)
    ensures Decoded(GivenAttrs(g)) == [Attr("name", g.column)] + Marks(g) && Writable(GivenAttrs(g))
  {
    MarksDecoded(g);
    DecodedTwo(g.column, Attr("null", "true"));
    GivenWritable(g);
    hide Decoded, Writable, Marks, NameAttr;
    assert GivenAttrs(g) == [NameAttr(g.column)] + Marks(g) by { AttrsAre(g); }
    DecodedJoins([NameAttr(g.column)], Marks(g));
  }

  lemma AttrsAre(g: Given)
    ensures GivenAttrs(g) == [NameAttr(g.column)] + Marks(g)
  {
    hide NameAttr;
  }

  lemma GivenWritable(g: Given)
    ensures Writable(GivenAttrs(g))
  {
    NameIsWritable(g.column);
    var n, e := Attr("null", "true"), Attr("encoding", "base64");
    assert n in [NameAttr(g.column), n] && e in [NameAttr(g.column), e];
    assert NameAttr(g.column) in [NameAttr(g.column)];
    hide NameAttr, IsName;
    assert forall a <- GivenAttrs(g) :: a == NameAttr(g.column) || a == n || a == e;
  }

  function NewColumn(g: Given): Column {
    Column(g.column, g.isNull, g.base64, "")
  }

  lemma GivenStarts(st: Reading, g: Given)
    requires !st.inStructure
    ensures OnStart(st, "column", Decoded(GivenAttrs(g))) == st.(column := Some(NewColumn(g)))
  {
    GivenDecoded(g);
    ValuesOfMarks(g, "name");
    ValuesOfMarks(g, "null");
    ValuesOfMarks(g, "encoding");
    hide Decoded, ValueOf, GivenAttrs, Marks;
  }

  /** Where a finished column goes: to the row, or where there is none to the table. */
  function PutCell(st: Reading, name: string, cell: RowCell): Reading {
    if st.row.Some? then st.(row := Some(SetCell(st.row.value, name, cell)))
    else if st.direct.Some? then st.(direct := Some(SetCell(st.direct.value, name, cell)))
    else st
  }

  lemma GivenEnds(st: Reading, g: Given, skipBlank: bool)
    requires st.column.None?
    ensures var in_ := WithText(st.(column := Some(NewColumn(g))), Value(g.content));
            OnEnd(in_, "column", skipBlank) == PutCell(st, g.column, CellValue(g))
  {
    hide Value, SetCell;
    assert "" + Value(g.content) == Value(g.content);
  }

  lemma GivenOpens(st: Reading, g: Given, rest: string, skipBlank: bool)
    requires '<' !in g.gap && st.column.None? && !st.inStructure
    ensures ReadOn(st, g.gap + (OpenTag("column", GivenAttrs(g), false) + rest), skipBlank) ==
            ReadOn(st.(column := Some(NewColumn(g))), rest, skipBlank)
  {
    GivenDecoded(g);
    GivenStarts(st, g);
    hide ReadOn, OpenTag, GivenAttrs, Decoded, OnStart, Writable, NewColumn;
    GapOpens(st, g.gap, "column", GivenAttrs(g), rest, skipBlank);
  }

  lemma ColumnEnd(rest: string)
    ensures "</column>" + rest == "</" + "column" + ">" + rest && ("</column>" + rest)[0] == '<'
  {
  }

  lemma GivenCloses(st: Reading, g: Given, rest: string, skipBlank: bool)
    requires FineContent(g.content) && st.column.None?
    ensures ReadOn(st.(column := Some(NewColumn(g))), ShowContent(g.content) + ("</column>" + rest), skipBlank) ==
            ReadOn(PutCell(st, g.column, CellValue(g)), rest, skipBlank)
  {
    GivenEnds(st, g, skipBlank);
    ColumnEnd(rest);
    assert IsName("column");
    hide ReadOn, ShowContent, Value, CellValue, OnEnd, PutCell, FineContent, WithText, IsName;
    var in_ := st.(column := Some(NewColumn(g)));
    ContentReads(in_, g.content, "</column>" + rest, skipBlank);
    CloseRead(WithText(in_, Value(g.content)), "column", rest, skipBlank);
  }

  /** A column is read into its row, or its table, as the value it was written for. */
  lemma GivenReads(st: Reading, g: Given, rest: string, skipBlank: bool)
    requires FineGiven(g) && st.column.None? && !st.inStructure
    ensures ReadOn(st, ShowGiven(g) + rest, skipBlank) == ReadOn(PutCell(st, g.column, CellValue(g)), rest, skipBlank)
  {
    hide ReadOn, OpenTag, GivenAttrs, ShowContent, CellValue, PutCell, FineContent, ShowGiven, NewColumn;
    GivenText(g, rest);
    GivenOpens(st, g, ShowContent(g.content) + ("</column>" + rest), skipBlank);
    GivenCloses(st, g, rest, skipBlank);
  }

  lemma GivenText(g: Given, rest: string)
    ensures ShowGiven(g) + rest
         == g.gap + (OpenTag("column", GivenAttrs(g), false) + (ShowContent(g.content) + ("</column>" + rest)))
  {
    hide OpenTag, ShowContent;
  }

  function RowFrom(row: Row, cells: seq<Given>): Row
    decreases cells
  {
    if cells == [] then row else RowFrom(SetCell(row, cells[0].column, CellValue(cells[0])), cells[1..])
  }

  lemma {:induction false} GivensRead(st: Reading, row: Row, cells: seq<Given>, rest: string, skipBlank: bool)
    requires InRow(st, row) && forall g <- cells :: FineGiven(g)
    ensures ReadOn(st, ShowGivens(cells) + rest, skipBlank) == ReadOn(st.(row := Some(RowFrom(row, cells))), rest, skipBlank)
    decreases cells
  {
    hide ReadOn, ShowGiven, SetCell, CellValue, FineGiven;
    if cells == [] {
      assert "" + rest == rest;
    } else {
      var g, more := cells[0], ShowGivens(cells[1..]) + rest;
      assert ShowGivens(cells) + rest == ShowGiven(g) + more;
      GivenReads(st, g, more, skipBlank);
      var next := SetCell(row, g.column, CellValue(g));
      GivensRead(st.(row := Some(next)), next, cells[1..], rest, skipBlank);
    }
  }

  /** Inside a table and outside its rows. */
  predicate AtTable(st: Reading, name: string, own: Row) {
    st.table == name && st.direct == Some(own) && st.row.None? && st.column.None? && !st.inStructure
  }

  /** Text, then a tag that opens an element. */
  lemma GapOpens(st: Reading, gap: string, name: string, attrs: seq<Attr>, rest: string, skipBlank: bool)
    requires '<' !in gap && st.column.None? && IsName(name) && Writable(attrs)
    ensures ReadOn(st, gap + (OpenTag(name, attrs, false) + rest), skipBlank) ==
            ReadOn(OnStart(st, name, Decoded(attrs)), rest, skipBlank)
  {
    hide ReadOn, OpenTag, OnStart, Decoded, Writable, IsName;
    Ignored(st, gap, OpenTag(name, attrs, false) + rest, skipBlank);
    Opens(st, name, attrs, rest, skipBlank);
  }

  lemma GapCloses(st: Reading, gap: string, name: string, rest: string, skipBlank: bool)
    requires '<' !in gap && st.column.None? && IsName(name)
    ensures ReadOn(st, gap + ("</" + name + ">" + rest), skipBlank) == ReadOn(OnEnd(st, name, skipBlank), rest, skipBlank)
  {
    hide ReadOn, OnEnd, IsName;
    Ignored(st, gap, "</" + name + ">" + rest, skipBlank);
    CloseRead(st, name, rest, skipBlank);
  }

  lemma RowItemReads(st: Reading, name: string, own: Row, i: Item, rest: string, skipBlank: bool)
    requires AtTable(st, name, own) && FineItem(i) && i.RowOf?
    ensures ReadOn(st, ShowItem(i) + rest, skipBlank) == ReadOn(Emit(st, RowFrom([], i.cells), skipBlank), rest, skipBlank)
  {
    hide ReadOn, OpenTag, ShowGivens, RowFrom, Writable, Decoded, FineGiven, Emit;
    NoAttrs();
    var in_, row := st.(row := Some([])), RowFrom([], i.cells);
    var end := i.tail + ("</" + "row" + ">" + rest);
    assert ShowItem(i) + rest == i.gap + (OpenTag("row", [], false) + (ShowGivens(i.cells) + end));
    GapOpens(st, i.gap, "row", [], ShowGivens(i.cells) + end, skipBlank);
    GivensRead(in_, [], i.cells, end, skipBlank);
    GapCloses(in_.(row := Some(row)), i.tail, "row", rest, skipBlank);
    RowEnds(st, row, skipBlank);
  }

  lemma RowEnds(st: Reading, row: Row, skipBlank: bool)
    requires st.row.None?
    ensures OnEnd(st.(row := Some(row)), "row", skipBlank) == Emit(st, row, skipBlank)
  {
    hide AddRow;
  }

  // ---------------------------------------------------------------------------------------------------------------
  // Tables
  // ---------------------------------------------------------------------------------------------------------------

  function AddAll(tables: seq<TableRows>, rows: seq<RowGiven>): seq<TableRows>
    decreases rows
  {
    if rows == [] then tables else AddAll(AddRow(tables, rows[0].0, RowFrom([], rows[0].1)), rows[1..])
  }

  lemma {:induction false} AddAllJoins(tables: seq<TableRows>, a: seq<RowGiven>, b: seq<RowGiven>)
    ensures AddAll(tables, a + b) == AddAll(AddAll(tables, a), b)
    decreases a
  {
    if a == [] {
      assert a + b == b;
    } else {
      assert (a + b)[1..] == a[1..] + b;
      AddAllJoins(AddRow(tables, a[0].0, RowFrom([], a[0].1)), a[1..], b);
    }
  }

  lemma {:induction false} RowFromSome(row: Row, cells: seq<Given>)
    ensures RowFrom(row, cells) == [] <==> row == [] && cells == []
    decreases cells
  {
    if cells != [] {
      RowFromSome(SetCell(row, cells[0].column, CellValue(cells[0])), cells[1..]);
    }
  }

  lemma {:induction false} ItemsRead(st: Reading, name: string, own: Row, items: seq<Item>, rest: string, skipBlank: bool)
    requires AtTable(st, name, own) && forall i <- items :: FineItem(i)
    ensures ReadOn(st, ShowItems(items) + rest, skipBlank) ==
            ReadOn(st.(tables := AddAll(st.tables, RowsIn(name, items, skipBlank)),
                       direct := Some(RowFrom(own, LooseCells(items)))), rest, skipBlank)
    decreases items
  {
    hide ReadOn, ShowItem, AddRow, RowFrom, FineItem;
    if items == [] {
      assert "" + rest == rest && RowFrom(own, []) == own by { RowFromNone(own); }
    } else {
      var i, more := items[0], ShowItems(items[1..]) + rest;
      assert FineItem(i);
      assert ShowItems(items) + rest == ShowItem(i) + more;
      ItemReads(st, name, own, i, more, skipBlank);
      var next := AfterItem(st, own, i, skipBlank);
      ItemsRead(next, name, if i.Loose? then RowFrom(own, [i.cell]) else own, items[1..], rest, skipBlank);
      ItemsTell(st.tables, name, own, items, skipBlank);
      if i.RowOf? { RowFromSome([], i.cells); }
    }
  }

  lemma RowFromNone(row: Row)
    ensures RowFrom(row, []) == row
  {
  }

  function AfterItem(st: Reading, own: Row, i: Item, skipBlank: bool): Reading {
    if i.Loose? then st.(direct := Some(RowFrom(own, [i.cell]))) else Emit(st, RowFrom([], i.cells), skipBlank)
  }

  lemma ItemReads(st: Reading, name: string, own: Row, i: Item, rest: string, skipBlank: bool)
    requires AtTable(st, name, own) && FineItem(i)
    ensures ReadOn(st, ShowItem(i) + rest, skipBlank) == ReadOn(AfterItem(st, own, i, skipBlank), rest, skipBlank)
  {
    hide ReadOn, ShowGiven, FineGiven, AddRow;
    if i.Loose? {
      GivenReads(st, i.cell, rest, skipBlank);
      OneFrom(own, i.cell);
    } else {
      RowItemReads(st, name, own, i, rest, skipBlank);
    }
  }

  lemma OneFrom(row: Row, g: Given)
    ensures RowFrom(row, [g]) == SetCell(row, g.column, CellValue(g))
  {
    assert [g][1..] == [];
    assert RowFrom(SetCell(row, g.column, CellValue(g)), []) == SetCell(row, g.column, CellValue(g));
  }

  lemma {:induction false} FromJoins(row: Row, a: seq<Given>, b: seq<Given>)
    ensures RowFrom(row, a + b) == RowFrom(RowFrom(row, a), b)
    decreases a
  {
    if a == [] {
      assert a + b == b;
    } else {
      assert (a + b)[1..] == a[1..] + b;
      FromJoins(SetCell(row, a[0].column, CellValue(a[0])), a[1..], b);
    }
  }

  lemma ItemsTell(tables: seq<TableRows>, name: string, own: Row, items: seq<Item>, skipBlank: bool)
    requires items != []
    ensures var i := items[0];
            && RowFrom(own, LooseCells(items)) == RowFrom(if i.Loose? then RowFrom(own, [i.cell]) else own, LooseCells(items[1..]))
            && AddAll(tables, RowsIn(name, items, skipBlank))
               == AddAll(if i.Loose? || (i.cells == [] && skipBlank) then tables else AddRow(tables, name, RowFrom([], i.cells)),
                         RowsIn(name, items[1..], skipBlank))
  {
    var i := items[0];
    hide AddRow;
    if i.Loose? { FromJoins(own, [i.cell], LooseCells(items[1..])); }
    else {
      assert [] + LooseCells(items[1..]) == LooseCells(items[1..]);
      AddAllJoins(tables, [(name, i.cells)], RowsIn(name, items[1..], skipBlank));
      AddOne(tables, name, i.cells);
    }
    hide RowFrom, AddAll;
    assert [] + RowsIn(name, items[1..], skipBlank) == RowsIn(name, items[1..], skipBlank);
  }

  lemma AddOne(tables: seq<TableRows>, name: string, cells: seq<Given>)
    ensures AddAll(tables, [(name, cells)]) == AddRow(tables, name, RowFrom([], cells))
  {
    assert [(name, cells)][1..] == [];
    assert AddAll(AddRow(tables, name, RowFrom([], cells)), []) == AddRow(tables, name, RowFrom([], cells));
  }

  lemma TableStarts(st: Reading, name: string)
    ensures Writable([NameAttr(name)]) && Decoded([NameAttr(name)]) == [Attr("name", name)]
    ensures OnStart(st, "table", [Attr("name", name)]) == st.(table := name, direct := Some([]))
  {
    NameIsWritable(name);
    DecodedTwo(name, Attr("null", "true"));
    ValueOfTwo(Attr("name", name), Attr("name", name), "name");
    hide ValueOf, Writable, Decoded, NameAttr;
  }

  function AfterTable(st: Reading, t: TableDoc, skipBlank: bool): Reading {
    st.(table := t.name, direct := None, tables := AddAll(st.tables, RowsOfTable(t, skipBlank)))
  }

  lemma TableCloses(st: Reading, t: TableDoc, skipBlank: bool)
    requires st.table == t.name && st.row.None? && st.direct == Some(RowFrom([], LooseCells(t.items)))
    ensures var own := if LooseCells(t.items) == [] then [] else [(t.name, LooseCells(t.items))];
            OnEnd(st, "table", skipBlank) == st.(direct := None, tables := AddAll(st.tables, own))
  {
    RowFromSome([], LooseCells(t.items));
    AddOne(st.tables, t.name, LooseCells(t.items));
    hide AddRow, RowFrom, LooseCells;
  }

  lemma TableText(t: TableDoc, rest: string)
    ensures ShowTable(t) + rest
         == t.gap + (OpenTag("table", [NameAttr(t.name)], false)
                     + (ShowItems(t.items) + (t.tail + ("</" + "table" + ">" + rest))))
  {
    hide OpenTag, ShowItems, NameAttr;
    assert "</table>" == "</" + "table" + ">";
  }

  /** From the table's first item to its end. */
  lemma TableGoesOn(st: Reading, t: TableDoc, rest: string, skipBlank: bool)
    requires Between(st) && '<' !in t.tail && forall i <- t.items :: FineItem(i)
    ensures ReadOn(st.(table := t.name, direct := Some([])), ShowItems(t.items) + (t.tail + ("</" + "table" + ">" + rest)), skipBlank)
         == ReadOn(AfterTable(st, t, skipBlank), rest, skipBlank)
  {
    assert IsName("table");
    hide ReadOn, ShowItems, OnEnd, FineItem, AddAll, RowFrom, RowsIn, LooseCells, IsName;
    var in_ := st.(table := t.name, direct := Some([]));
    ItemsRead(in_, t.name, [], t.items, t.tail + ("</" + "table" + ">" + rest), skipBlank);
    var rows := RowsIn(t.name, t.items, skipBlank);
    var full := in_.(tables := AddAll(st.tables, rows), direct := Some(RowFrom([], LooseCells(t.items))));
    GapCloses(full, t.tail, "table", rest, skipBlank);
    TableCloses(full, t, skipBlank);
    AddAllJoins(st.tables, rows, if LooseCells(t.items) == [] then [] else [(t.name, LooseCells(t.items))]);
  }

  lemma TableReads(st: Reading, t: TableDoc, rest: string, skipBlank: bool)
    requires Between(st) && '<' !in t.gap && '<' !in t.tail && forall i <- t.items :: FineItem(i)
    ensures ReadOn(st, ShowTable(t) + rest, skipBlank) == ReadOn(AfterTable(st, t, skipBlank), rest, skipBlank)
  {
    TableText(t, rest);
    TableStarts(st, t.name);
    assert IsName("table");
    hide ReadOn, ShowTable, OpenTag, ShowItems, Writable, Decoded, OnStart, NameAttr, FineItem, AfterTable, IsName;
    GapOpens(st, t.gap, "table", [NameAttr(t.name)], ShowItems(t.items) + (t.tail + ("</" + "table" + ">" + rest)), skipBlank);
    TableGoesOn(st, t, rest, skipBlank);
  }

  function AfterTables(st: Reading, doc: seq<TableDoc>, skipBlank: bool): Reading
    decreases doc
  {
    if doc == [] then st else AfterTables(AfterTable(st, doc[0], skipBlank), doc[1..], skipBlank)
  }

  lemma {:induction false} TablesRead(st: Reading, doc: seq<TableDoc>, rest: string, skipBlank: bool)
    requires Between(st) && Fine(doc)
    ensures ReadOn(st, ShowTables(doc) + rest, skipBlank) == ReadOn(AfterTables(st, doc, skipBlank), rest, skipBlank)
    ensures AfterTables(st, doc, skipBlank).tables == AddAll(st.tables, RowsGiven(doc, skipBlank))
    ensures Between(AfterTables(st, doc, skipBlank))
    decreases doc
  {
    hide ReadOn, ShowTable, FineItem, AddAll, RowsOfTable;
    if doc == [] {
      assert "" + rest == rest;
      NothingAdded(st.tables);
    } else {
      assert doc[0] in doc;
      var more := ShowTables(doc[1..]) + rest;
      assert ShowTables(doc) + rest == ShowTable(doc[0]) + more;
      TableReads(st, doc[0], more, skipBlank);
      TablesRead(AfterTable(st, doc[0], skipBlank), doc[1..], rest, skipBlank);
      AddAllJoins(st.tables, RowsOfTable(doc[0], skipBlank), RowsGiven(doc[1..], skipBlank));
    }
  }

  lemma NothingAdded(tables: seq<TableRows>)
    ensures AddAll(tables, []) == tables
  {
  }

  /** A document under one root element, which is none of those the reader knows. */
  function ShowFile(root: string, doc: seq<TableDoc>): string {
    OpenTag(root, [], false) + (ShowTables(doc) + ("</" + root + ">"))
  }

  /** The whole file is read as its rows, added one by one. */
  lemma FileReads(root: string, doc: seq<TableDoc>, skipBlank: bool)
    requires IsName(root) && Unused(root) && Fine(doc)
    ensures Fold(START, Events(ShowFile(root, doc)), skipBlank).tables == AddAll([], RowsGiven(doc, skipBlank))
  {
    NoAttrs();
    UnusedPassed(START, root, [], skipBlank);
    hide ReadOn, OpenTag, ShowTables, AddAll, RowsGiven, Writable, Decoded, OnStart, OnEnd;
    var end := "</" + root + ">" + "";
    assert end == "</" + root + ">";
    Opens(START, root, [], ShowTables(doc) + end, skipBlank);
    TablesRead(START, doc, end, skipBlank);
    var st := AfterTables(START, doc, skipBlank);
    CloseRead(st, root, "", skipBlank);
    UnusedPassed(st, root, [], skipBlank);
    NothingLeft(st, skipBlank);
    NothingLeft(START, skipBlank);
    ReadOnIs(START, ShowFile(root, doc), skipBlank);
  }

  lemma NothingLeft(st: Reading, skipBlank: bool)
    ensures ReadOn(st, "", skipBlank) == st
  {
  }

  lemma ReadOnIs(st: Reading, s: string, skipBlank: bool)
    ensures ReadOn(st, s, skipBlank) == Fold(st, Events(s), skipBlank)
  {
  }

  // ---------------------------------------------------------------------------------------------------------------
  // What a reading of it has to be
  // ---------------------------------------------------------------------------------------------------------------

  /** Each of what is given, once, in the order it is first given. */
  ghost predicate InFirstOrder(list: seq<string>, given: seq<string>) {
    && (forall i, j :: 0 <= i < j < |list| ==> list[i] != list[j])
    && (forall x :: x in list <==> x in given)
    && forall i, j :: 0 <= i < j < |list| ==> IsBefore(given, list[i], list[j])
  }

  ghost predicate IsBefore(given: seq<string>, a: string, b: string) {
    exists p :: 0 <= p < |given| && given[p] == a && b !in given[..p]
  }

  function RowsNamed(rows: seq<RowGiven>, name: string): seq<seq<Given>> {
    if rows == [] then []
    else
      var last := |rows| - 1;
      RowsNamed(rows[..last], name) + if rows[last].0 == name then [rows[last].1] else []
  }

  function NamesGiven(rows: seq<RowGiven>): (names: seq<string>)
    ensures |names| == |rows|
  {
    seq(|rows|, i requires 0 <= i < |rows| => rows[i].0)
  }

  function ColumnsIn(cells: seq<Given>): seq<string> {
    seq(|cells|, i requires 0 <= i < |cells| => cells[i].column)
  }

  function ColumnsGiven(rows: seq<seq<Given>>): seq<string> {
    if rows == [] then [] else ColumnsGiven(rows[..|rows| - 1]) + ColumnsIn(rows[|rows| - 1])
  }

  /** The last value a row gives a column, and NULL where it gives none. */
  ghost predicate IsCell(cells: seq<Given>, column: string, cell: RowCell) {
    || ((forall g <- cells :: g.column != column) && cell == Null)
    || exists i :: 0 <= i < |cells| && cells[i].column == column && cell == CellValue(cells[i])
                   && forall j :: i < j < |cells| ==> cells[j].column != column
  }

  ghost predicate IsRowRead(cells: seq<Given>, header: seq<string>, row: seq<RowCell>) {
    |row| == |header| && forall j :: 0 <= j < |header| ==> IsCell(cells, header[j], row[j])
  }

  ghost predicate IsTableRead(rows: seq<seq<Given>>, read: TableRead) {
    && InFirstOrder(read.header, ColumnsGiven(rows))
    && |read.rows| == |rows| && forall k :: 0 <= k < |rows| ==> IsRowRead(rows[k], read.header, read.rows[k])
  }

  function NamesRead(result: seq<TableRead>): seq<string> {
    seq(|result|, i requires 0 <= i < |result| => result[i].name)
  }

  // ---------------------------------------------------------------------------------------------------------------
  // Names in the order they are first given
  // ---------------------------------------------------------------------------------------------------------------

  function AddName(list: seq<string>, name: string): seq<string> {
    if name in list then list else list + [name]
  }

  function AddNames(list: seq<string>, names: seq<string>): seq<string>
    decreases names
  {
    if names == [] then list else AddNames(AddName(list, names[0]), names[1..])
  }

  lemma {:induction false} AddNamesJoins(list: seq<string>, a: seq<string>, b: seq<string>)
    ensures AddNames(list, a + b) == AddNames(AddNames(list, a), b)
    decreases a
  {
    if a == [] {
      assert a + b == b;
    } else {
      assert (a + b)[1..] == a[1..] + b;
      AddNamesJoins(AddName(list, a[0]), a[1..], b);
    }
  }

  lemma AddOneName(list: seq<string>, name: string)
    ensures AddNames(list, [name]) == AddName(list, name)
  {
    assert [name][1..] == [];
    assert AddNames(AddName(list, name), []) == AddName(list, name);
  }

  lemma {:induction false} NamesHeld(list: seq<string>, names: seq<string>)
    ensures forall x :: x in AddNames(list, names) <==> x in list || x in names
    decreases names
  {
    if names != [] {
      NamesHeld(AddName(list, names[0]), names[1..]);
      assert forall x :: x in names <==> x == names[0] || x in names[1..];
    }
  }

  /** Names already in order add nothing of their own. */
  lemma {:induction false} AddedTwice(list: seq<string>, a: seq<string>, b: seq<string>)
    ensures AddNames(list, AddNames(a, b)) == AddNames(list, a + b)
    decreases b
  {
    if b == [] {
      assert a + b == a;
    } else {
      AddedTwice(list, AddName(a, b[0]), b[1..]);
      assert a + b == (a + [b[0]]) + b[1..];
      AddNamesJoins(list, AddName(a, b[0]), b[1..]);
      AddNamesJoins(list, a + [b[0]], b[1..]);
      AddNamesJoins(list, a, [b[0]]);
      AddOneName(AddNames(list, a), b[0]);
      if b[0] in a { NamesHeld(list, a); }
    }
  }

  lemma FirstOrderOn(list: seq<string>, given: seq<string>, name: string)
    requires InFirstOrder(list, given)
    ensures InFirstOrder(AddName(list, name), given + [name])
  {
    var next, all := AddName(list, name), given + [name];
    assert forall x :: x in all <==> x in given || x == name;
    forall i, j | 0 <= i < j < |next| ensures IsBefore(all, next[i], next[j]) {
      if j < |list| {
        BeforeOn(given, list[i], list[j], name);
      } else {
        assert list[i] in given;
        NewIsAfter(given, list[i], name);
      }
    }
  }

  lemma BeforeOn(given: seq<string>, a: string, b: string, name: string)
    requires IsBefore(given, a, b)
    ensures IsBefore(given + [name], a, b)
  {
    var p :| 0 <= p < |given| && given[p] == a && b !in given[..p];
    var all := given + [name];
    assert all[..p] == given[..p] && all[p] == a;
  }

  lemma NewIsAfter(given: seq<string>, a: string, name: string)
    requires a in given && name !in given
    ensures IsBefore(given + [name], a, name)
  {
    var p :| 0 <= p < |given| && given[p] == a;
    var all := given + [name];
    assert all[..p] == given[..p] && all[p] == a;
  }

  lemma {:induction false} FirstOrder(names: seq<string>)
    ensures InFirstOrder(AddNames([], names), names)
    decreases |names|
  {
    if names != [] {
      var last := |names| - 1;
      FirstOrder(names[..last]);
      assert names == names[..last] + [names[last]];
      AddNamesJoins([], names[..last], [names[last]]);
      AddOneName(AddNames([], names[..last]), names[last]);
      FirstOrderOn(AddNames([], names[..last]), names[..last], names[last]);
    }
  }

  // ---------------------------------------------------------------------------------------------------------------
  // Rows
  // ---------------------------------------------------------------------------------------------------------------

  function RowNames(row: Row): seq<string> {
    if row == [] then [] else [row[0].0] + RowNames(row[1..])
  }

  lemma {:induction false} WithNamesIs(header: seq<string>, row: Row)
    ensures WithNames(header, row) == AddNames(header, RowNames(row))
    decreases row
  {
    if row != [] {
      WithNamesIs(AddName(header, row[0].0), row[1..]);
      assert RowNames(row)[1..] == RowNames(row[1..]);
    }
  }

  lemma {:induction false} SetCellNames(row: Row, name: string, cell: RowCell)
    ensures RowNames(SetCell(row, name, cell)) == AddName(RowNames(row), name)
    decreases row
  {
    if row == [] {
      assert [(name, cell)][1..] == [];
      assert RowNames([(name, cell)]) == [name] + RowNames([]);
    } else {
      SetCellNames(row[1..], name, cell);
      var next := SetCell(row, name, cell);
      assert next[1..] == if row[0].0 == name then row[1..] else SetCell(row[1..], name, cell);
      hide SetCell;
      assert RowNames(next) == [row[0].0] + RowNames(next[1..]);
    }
  }

  lemma {:induction false} SetCellOf(row: Row, name: string, cell: RowCell, other: string)
    ensures CellOf(SetCell(row, name, cell), other) == if other == name then cell else CellOf(row, other)
    decreases row
  {
    if row == [] {
      assert [(name, cell)][1..] == [];
    } else {
      SetCellOf(row[1..], name, cell, other);
      var next := SetCell(row, name, cell);
      assert next[1..] == if row[0].0 == name then row[1..] else SetCell(row[1..], name, cell);
    }
  }

  lemma {:induction false} RowFromNames(row: Row, cells: seq<Given>)
    ensures RowNames(RowFrom(row, cells)) == AddNames(RowNames(row), ColumnsIn(cells))
    decreases cells
  {
    if cells != [] {
      var next := SetCell(row, cells[0].column, CellValue(cells[0]));
      SetCellNames(row, cells[0].column, CellValue(cells[0]));
      RowFromNames(next, cells[1..]);
      assert ColumnsIn(cells)[1..] == ColumnsIn(cells[1..]);
    }
  }

  /** A cell of the row read is what the row gives. */
  lemma {:induction false} RowFromCell(cells: seq<Given>, column: string)
    ensures IsCell(cells, column, CellOf(RowFrom([], cells), column))
    decreases |cells|
  {
    if cells != [] {
      var last := |cells| - 1;
      var before, g := cells[..last], cells[last];
      assert cells == before + [g];
      RowFromCell(before, column);
      FromJoins([], before, [g]);
      OneFrom(RowFrom([], before), g);
      SetCellOf(RowFrom([], before), g.column, CellValue(g), column);
      var cell := CellOf(RowFrom([], cells), column);
      hide RowFrom, SetCell, CellOf, CellValue;
      if g.column == column {
        assert cells[last].column == column && cell == CellValue(cells[last]);
      } else if forall x <- before :: x.column != column {
        assert forall x <- cells :: x in before || x == g;
      } else {
        var i :| 0 <= i < |before| && before[i].column == column && cell == CellValue(before[i])
                 && forall j :: i < j < |before| ==> before[j].column != column;
        assert cells[i] == before[i];
        assert forall j :: i < j < |cells| ==> cells[j] == if j < last then before[j] else g;
      }
    }
  }

  lemma {:induction false} CellsAre(header: seq<string>, row: Row)
    ensures |CellsOf(header, row)| == |header|
    ensures forall j :: 0 <= j < |header| ==> CellsOf(header, row)[j] == CellOf(row, header[j])
    decreases header
  {
    if header != [] { CellsAre(header[1..], row); }
  }

  lemma {:induction false} RowsAre(header: seq<string>, rows: seq<Row>)
    ensures |RowsOf(header, rows)| == |rows|
    ensures forall k :: 0 <= k < |rows| ==> RowsOf(header, rows)[k] == CellsOf(header, rows[k])
    decreases rows
  {
    if rows != [] { RowsAre(header, rows[1..]); }
  }

  lemma {:induction false} FilledAre(tables: seq<TableRows>)
    ensures |Filled(tables)| == |tables|
    ensures forall k :: 0 <= k < |tables| ==>
              Filled(tables)[k] == TableRead(tables[k].name, tables[k].header, RowsOf(tables[k].header, tables[k].rows))
    decreases tables
  {
    if tables != [] { FilledAre(tables[1..]); }
  }

  // ---------------------------------------------------------------------------------------------------------------
  // Tables by their names
  // ---------------------------------------------------------------------------------------------------------------

  function NamesOf(tables: seq<TableRows>): seq<string> {
    if tables == [] then [] else [tables[0].name] + NamesOf(tables[1..])
  }

  function Find(tables: seq<TableRows>, name: string): Option<TableRows> {
    if tables == [] then None else if tables[0].name == name then Some(tables[0]) else Find(tables[1..], name)
  }

  lemma {:induction false} AddRowNames(tables: seq<TableRows>, name: string, row: Row)
    ensures NamesOf(AddRow(tables, name, row)) == AddName(NamesOf(tables), name)
    decreases tables
  {
    if tables == [] {
      assert AddRow(tables, name, row)[1..] == [];
      assert NamesOf(AddRow(tables, name, row)) == [name] + NamesOf([]);
    } else {
      AddRowNames(tables[1..], name, row);
      var next := AddRow(tables, name, row);
      assert next[1..] == if tables[0].name == name then tables[1..] else AddRow(tables[1..], name, row);
      hide AddRow, WithNames;
      assert NamesOf(next) == [tables[0].name] + NamesOf(next[1..]);
    }
  }

  lemma {:induction false} AddRowFinds(tables: seq<TableRows>, name: string, row: Row, other: string)
    ensures Find(AddRow(tables, name, row), other)
         == if other != name then Find(tables, other)
            else if Find(tables, name).None? then Some(TableRows(name, WithNames([], row), [row]))
            else Some(TableRows(name, WithNames(Find(tables, name).value.header, row), Find(tables, name).value.rows + [row]))
    ensures Find(tables, other).Some? ==> Find(tables, other).value.name == other
    decreases tables
  {
    hide WithNames;
    if tables == [] {
      assert AddRow(tables, name, row)[1..] == [];
    } else {
      AddRowFinds(tables[1..], name, row, other);
      var next := AddRow(tables, name, row);
      assert next[1..] == if tables[0].name == name then tables[1..] else AddRow(tables[1..], name, row);
    }
  }

  function RowsFrom(rows: seq<seq<Given>>): seq<Row> {
    seq(|rows|, i requires 0 <= i < |rows| => RowFrom([], rows[i]))
  }

  /** A table as it stands after these rows of its name. */
  function Gathered(name: string, rows: seq<seq<Given>>): Option<TableRows> {
    if rows == [] then None else Some(TableRows(name, AddNames([], ColumnsGiven(rows)), RowsFrom(rows)))
  }

  lemma GatheredOn(name: string, rows: seq<seq<Given>>, cells: seq<Given>)
    ensures var header := if rows == [] then [] else Gathered(name, rows).value.header;
            var more := if rows == [] then [] else Gathered(name, rows).value.rows;
            var row := RowFrom([], cells);
            Gathered(name, rows + [cells]) == Some(TableRows(name, WithNames(header, row), more + [row]))
  {
    var row := RowFrom([], cells);
    var before := AddNames([], ColumnsGiven(rows));
    WithNamesIs(before, row);
    RowFromNames([], cells);
    AddedTwice(before, [], ColumnsIn(cells));
    assert [] + ColumnsIn(cells) == ColumnsIn(cells);
    AddNamesJoins([], ColumnsGiven(rows), ColumnsIn(cells));
    assert (rows + [cells])[..|rows|] == rows;
    hide RowFrom, WithNames, AddNames, RowNames;
    assert RowsFrom(rows + [cells]) == RowsFrom(rows) + [row];
    if rows == [] { assert before == [] by { NothingNamed(); } }
  }

  lemma NothingNamed()
    ensures AddNames([], ColumnsGiven([])) == []
  {
  }

  lemma NamedOn(rows: seq<RowGiven>, n: string, cells: seq<Given>, name: string)
    ensures RowsNamed(rows + [(n, cells)], name) == if n == name then RowsNamed(rows, name) + [cells] else RowsNamed(rows, name)
  {
    assert (rows + [(n, cells)])[..|rows|] == rows;
  }

  lemma FindOn(tables: seq<TableRows>, rows: seq<RowGiven>, n: string, cells: seq<Given>, name: string)
    requires Find(tables, name) == Gathered(name, RowsNamed(rows, name))
    ensures Find(AddRow(tables, n, RowFrom([], cells)), name) == Gathered(name, RowsNamed(rows + [(n, cells)], name))
  {
    NamedOn(rows, n, cells, name);
    AddRowFinds(tables, n, RowFrom([], cells), name);
    GatheredOn(name, RowsNamed(rows, name), cells);
    GatheredSome(name, RowsNamed(rows, name));
    hide AddRow, RowFrom, Gathered, Find, RowsNamed, WithNames;
    assert [] + [RowFrom([], cells)] == [RowFrom([], cells)];
  }

  lemma GatheredSome(name: string, rows: seq<seq<Given>>)
    ensures Gathered(name, rows).Some? <==> rows != []
  {
  }

  lemma NamesOn(tables: seq<TableRows>, rows: seq<RowGiven>, n: string, cells: seq<Given>)
    requires NamesOf(tables) == AddNames([], NamesGiven(rows))
    ensures NamesOf(AddRow(tables, n, RowFrom([], cells))) == AddNames([], NamesGiven(rows + [(n, cells)]))
  {
    AddRowNames(tables, n, RowFrom([], cells));
    AddNamesJoins([], NamesGiven(rows), [n]);
    AddOneName(AddNames([], NamesGiven(rows)), n);
    hide AddRow, RowFrom, AddNames, NamesOf;
    assert NamesGiven(rows + [(n, cells)]) == NamesGiven(rows) + [n];
  }

  /** After all rows, each table is what the rows of its name make it, and the tables are in the order of their names. */
  lemma {:induction false} AddAllIs(rows: seq<RowGiven>, name: string)
    ensures Find(AddAll([], rows), name) == Gathered(name, RowsNamed(rows, name))
    ensures NamesOf(AddAll([], rows)) == AddNames([], NamesGiven(rows))
    decreases |rows|
  {
    hide AddRow, RowFrom;
    if rows != [] {
      hide AddAll, Gathered, AddNames, Find, NamesOf, RowsNamed, NamesGiven;
      var last := |rows| - 1;
      var before, n, cells := rows[..last], rows[last].0, rows[last].1;
      assert rows == before + [(n, cells)];
      AddAllIs(before, name);
      AddAllJoins([], before, [(n, cells)]);
      AddOne(AddAll([], before), n, cells);
      FindOn(AddAll([], before), before, n, cells, name);
      NamesOn(AddAll([], before), before, n, cells);
    }
  }

  lemma {:induction false} FoundAt(tables: seq<TableRows>, k: nat)
    requires k < |tables| && forall i, j :: 0 <= i < j < |NamesOf(tables)| ==> NamesOf(tables)[i] != NamesOf(tables)[j]
    ensures |NamesOf(tables)| == |tables| && NamesOf(tables)[k] == tables[k].name
    ensures Find(tables, tables[k].name) == Some(tables[k])
    decreases tables
  {
    NamesAre(tables);
    if k > 0 {
      var rest := tables[1..];
      NamesAre(rest);
      assert NamesOf(tables)[1..] == NamesOf(rest);
      forall i, j | 0 <= i < j < |NamesOf(rest)| ensures NamesOf(rest)[i] != NamesOf(rest)[j] {
        assert NamesOf(rest)[i] == NamesOf(tables)[i + 1] && NamesOf(rest)[j] == NamesOf(tables)[j + 1];
      }
      FoundAt(rest, k - 1);
      assert tables[0].name == NamesOf(tables)[0] && tables[k].name == NamesOf(tables)[k];
    }
  }

  lemma {:induction false} NamesAre(tables: seq<TableRows>)
    ensures |NamesOf(tables)| == |tables| && forall k :: 0 <= k < |tables| ==> NamesOf(tables)[k] == tables[k].name
    decreases tables
  {
    if tables != [] { NamesAre(tables[1..]); }
  }

  /** What is made of a table's rows is a reading of them. */
  lemma GatheredIsRead(name: string, rows: seq<seq<Given>>)
    requires rows != []
    ensures var t := Gathered(name, rows).value;
            IsTableRead(rows, TableRead(t.name, t.header, RowsOf(t.header, t.rows)))
  {
    var header := AddNames([], ColumnsGiven(rows));
    FirstOrder(ColumnsGiven(rows));
    RowsAre(header, RowsFrom(rows));
    hide InFirstOrder, AddNames, ColumnsGiven, RowsOf, CellsOf, CellOf, IsCell, RowFrom;
    forall k | 0 <= k < |rows| ensures IsRowRead(rows[k], header, RowsOf(header, RowsFrom(rows))[k]) {
      CellsAre(header, RowFrom([], rows[k]));
      forall j | 0 <= j < |header| ensures IsCell(rows[k], header[j], CellsOf(header, RowFrom([], rows[k]))[j]) {
        RowFromCell(rows[k], header[j]);
      }
    }
  }

  lemma TablesAreRead(rows: seq<RowGiven>)
    ensures var result := Filled(AddAll([], rows));
            && InFirstOrder(NamesRead(result), NamesGiven(rows))
            && forall k :: 0 <= k < |result| ==> IsTableRead(RowsNamed(rows, result[k].name), result[k])
  {
    var tables := AddAll([], rows);
    var result := Filled(tables);
    FilledAre(tables);
    AddAllIs(rows, "");
    FirstOrder(NamesGiven(rows));
    NamesAre(tables);
    hide Filled, AddAll, AddNames, NamesOf, NamesGiven, RowsOf, RowsNamed, IsTableRead;
    assert NamesRead(result) == NamesOf(tables);
    forall k | 0 <= k < |result| ensures IsTableRead(RowsNamed(rows, result[k].name), result[k]) {
      var name := tables[k].name;
      FoundAt(tables, k);
      AddAllIs(rows, name);
      GatheredSome(name, RowsNamed(rows, name));
      GatheredIsRead(name, RowsNamed(rows, name));
    }
  }

  /**
   * Any document of tables is read as what it says. Its tables are those that give a row, in the order they first do,
   * rows of one name together; the columns of a table are in the order first given; and a cell is the last value its
   * row gives the column, as written with references, CDATA and comments, and NULL where the row gives none.
   */
  lemma DocumentsAreRead(root: string, doc: seq<TableDoc>, skipBlank: bool)
    requires IsName(root) && Unused(root) && Fine(doc)
    ensures var rows, result := RowsGiven(doc, skipBlank), TablesOf(ShowFile(root, doc), skipBlank);
            && InFirstOrder(NamesRead(result), NamesGiven(rows))
            && forall k :: 0 <= k < |result| ==> IsTableRead(RowsNamed(rows, result[k].name), result[k])
  {
    FileReads(root, doc, skipBlank);
    TablesAreRead(RowsGiven(doc, skipBlank));
    hide RowsGiven, ShowFile, Fold, Events, InFirstOrder, IsTableRead, Filled, AddAll, NamesRead, NamesGiven, RowsNamed;
  }

  /** Text without white space at its ends, of which nothing else was taken. */
  lemma TrimTakesSpace(s: string)
    ensures exists a, b :: s == a + Trim(s) + b && (forall c <- a :: IsSpace(c)) && (forall c <- b :: IsSpace(c))
    ensures Trim(s) != "" ==> !IsSpace(Trim(s)[0]) && !IsSpace(Trim(s)[|Trim(s)| - 1])
  {
    var a := StartTakesSpace(s);
    var b := EndTakesSpace(TrimStart(s));
    assert s == a + Trim(s) + b;
    if Trim(s) != "" { assert TrimStart(s)[0] == Trim(s)[0]; }
  }

  lemma {:induction false} StartTakesSpace(s: string) returns (a: string)
    ensures s == a + TrimStart(s) && (forall c <- a :: IsSpace(c))
    ensures TrimStart(s) != "" ==> !IsSpace(TrimStart(s)[0])
    decreases s
  {
    a := "";
    if s != "" && IsSpace(s[0]) {
      a := StartTakesSpace(s[1..]);
      a := [s[0]] + a;
    }
  }

  lemma {:induction false} EndTakesSpace(s: string) returns (b: string)
    ensures s == TrimEnd(s) + b && (forall c <- b :: IsSpace(c))
    ensures TrimEnd(s) != "" ==> !IsSpace(TrimEnd(s)[|TrimEnd(s)| - 1])
    decreases |s|
  {
    b := "";
    if s != "" && IsSpace(s[|s| - 1]) {
      b := EndTakesSpace(s[..|s| - 1]);
      b := b + [s[|s| - 1]];
    }
  }
}
