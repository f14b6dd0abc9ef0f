/**
 * The XML export (`xmlBody`): tables with their rows, optionally their structure and the definitions of other objects,
 * and the proof that `readXmlTables` reads exactly the rows back. `b64` is base64 of a text's UTF-8 bytes.
 */
module XmlExport {
  import opened Wrappers
  import opened Texts
  import opened XmlReader
  import Cells

  type Cell = Cells.Cell

  // ---------------------------------------------------------------------------------------------------------------
  // Writing
  // ---------------------------------------------------------------------------------------------------------------

  function ReplaceAll(s: string, c: char, subst: string): string {
    if s == "" then "" else (if s[0] == c then subst else [s[0]]) + ReplaceAll(s[1..], c, subst)
  }

  function XmlEscape(s: string): string {
    ReplaceAll(ReplaceAll(ReplaceAll(ReplaceAll(s, '&', "&amp;"), '<', "&lt;"), '>', "&gt;"), '"', "&quot;")
  }

  /** Outside the characters of section 2.2 of XML 1.0, surrogates apart. */
  predicate Unrepresentable(c: char) {
    (c as int < 0x20 && c as int != 9 && c as int != 10 && c as int != 13) || c as int == 0xfffe || c as int == 0xffff
  }

  predicate XmlUnrepresentable(s: string) {
    exists c <- s :: Unrepresentable(c)
  }

  function Representable(s: string): string {
    if s == "" then "" else [if Unrepresentable(s[0]) then '\U{fffd}' else s[0]] + Representable(s[1..])
  }

  /** An attribute's value: line breaks kept as references, what XML cannot carry replaced. */
  function XmlAttribute(s: string): string {
    ReplaceAll(ReplaceAll(ReplaceAll(XmlEscape(Representable(s)), '\r', "&#13;"), '\n', "&#10;"), '\t', "&#9;")
  }

  function Attribute(name: string, value: string): string {
    " " + name + "=\"" + value + "\""
  }

  function TextColumn(b64: string -> string, name: string, value: string): string {
    if XmlUnrepresentable(value)
    then "<column" + Attribute("name", XmlEscape(name)) + Attribute("encoding", "base64") + ">" + b64(value) + "</column>"
    else "<column" + Attribute("name", XmlEscape(name)) + ">" + XmlEscape(value) + "</column>"
  }

  /** One value of a row; None where it was cut, which is refused. */
  function XmlColumn(b64: string -> string, name: string, cell: Cell): Option<string> {
    match cell
    case Null => Some("<column" + Attribute("name", XmlEscape(name)) + Attribute("null", "true") + "/>")
    case Binary(bin) =>
      Some("<column" + Attribute("name", XmlEscape(name)) + Attribute("encoding", "base64") + ">" + bin + "</column>")
    case Text(text) => Some(TextColumn(b64, name, text))
    case Shown(text) => Some(TextColumn(b64, name, text))
    case Truncated(_) => None
  }

  function Columns(b64: string -> string, columns: seq<string>, row: seq<Cell>): Option<string>
    requires |columns| == |row|
  {
    if columns == [] then Some("")
    else
      var first, rest := XmlColumn(b64, columns[0], row[0]), Columns(b64, columns[1..], row[1..]);
      if first.None? || rest.None? then None else Some("      " + first.value + "\n" + rest.value)
  }

  function XmlRow(b64: string -> string, columns: seq<string>, row: seq<Cell>): Option<string>
    requires |columns| == |row|
  {
    var cells := Columns(b64, columns, row);
    if cells.None? then None else Some("    <row>\n" + cells.value + "    </row>\n")
  }

  function XmlRows(b64: string -> string, columns: seq<string>, rows: seq<seq<Cell>>): Option<string>
    requires forall row <- rows :: |row| == |columns|
  {
    if rows == [] then Some("")
    else
      var first, rest := XmlRow(b64, columns, rows[0]), XmlRows(b64, columns, rows[1..]);
      if first.None? || rest.None? then None else Some(first.value + rest.value)
  }

  /** A column as the structure describes it; empty key, extra and comment are not written. */
  datatype Shape = Shape(name: string, kind: string, nullable: bool, default: Option<string>, key: string, extra: string,
                         comment: string)

  function ShapeAttrs(c: Shape): seq<Attr> {
    [Attr("name", c.name), Attr("type", c.kind), Attr("nullable", if c.nullable then "true" else "false")]
    + (if c.default.Some? then [Attr("default", c.default.value)] else [])
    + (if c.key != "" then [Attr("key", c.key)] else [])
    + (if c.extra != "" then [Attr("extra", c.extra)] else [])
    + (if c.comment != "" then [Attr("comment", c.comment)] else [])
  }

  function ShowAttrs(attrs: seq<Attr>): string {
    if attrs == [] then "" else Attribute(attrs[0].name, XmlAttribute(attrs[0].value)) + ShowAttrs(attrs[1..])
  }

  function Shapes(structure: seq<Shape>): string {
    if structure == [] then ""
    else "      <column" + ShowAttrs(ShapeAttrs(structure[0])) + "/>\n" + Shapes(structure[1..])
  }

  function XmlStructure(structure: seq<Shape>): string {
    "    <structure>\n" + Shapes(structure) + "    </structure>\n"
  }

  function XmlDefinition(b64: string -> string, sql: string): string {
    if XmlUnrepresentable(sql)
    then "      <definition" + Attribute("encoding", "base64") + ">" + b64(sql) + "</definition>\n"
    else "      <definition>" + XmlEscape(sql) + "</definition>\n"
  }

  /** A view, routine or trigger: what it is called and told by, and its definition where that can be read. */
  datatype Object = Object(attrs: seq<Attr>, definition: Option<string>)

  function EscapedAttrs(attrs: seq<Attr>): string {
    if attrs == [] then "" else Attribute(attrs[0].name, XmlEscape(attrs[0].value)) + EscapedAttrs(attrs[1..])
  }

  function XmlObject(b64: string -> string, kind: string, o: Object): string {
    "    <" + kind + EscapedAttrs(o.attrs) + ">\n"
    + (if o.definition.Some? then XmlDefinition(b64, o.definition.value) else "      <unreadable/>\n")
    + "    </" + kind + ">\n"
  }

  function ObjectLines(b64: string -> string, kind: string, os: seq<Object>): string {
    if os == [] then "" else XmlObject(b64, kind, os[0]) + ObjectLines(b64, kind, os[1..])
  }

  /** All of one kind; nothing where there are none. */
  function XmlObjects(b64: string -> string, kind: string, os: seq<Object>): string {
    if os == [] then "" else "  <" + kind + "s>\n" + ObjectLines(b64, kind, os) + "  </" + kind + "s>\n"
  }

  datatype Objects = Objects(views: seq<Object>, routines: seq<Object>, triggers: seq<Object>)

  datatype Table = Table(name: string, structure: seq<Shape>, columns: seq<string>, rows: seq<seq<Cell>>)

  /** Each row has a value for each column. */
  predicate Squared(t: Table) {
    forall row <- t.rows :: |row| == |t.columns|
  }

  datatype Parts = Parts(structure: bool, data: bool)

  function XmlTable(b64: string -> string, t: Table, parts: Parts): Option<string>
    requires Squared(t)
  {
    var rows := if parts.data then XmlRows(b64, t.columns, t.rows) else Some("");
    if rows.None? then None
    else
      Some("  <table" + Attribute("name", XmlEscape(t.name)) + ">\n"
           + (if parts.structure then XmlStructure(t.structure) else "") + rows.value + "  </table>\n")
  }

  function XmlTables(b64: string -> string, tables: seq<Table>, parts: Parts): Option<string>
    requires forall t <- tables :: Squared(t)
  {
    if tables == [] then Some("")
    else
      var first, rest := XmlTable(b64, tables[0], parts), XmlTables(b64, tables[1..], parts);
      if first.None? || rest.None? then None else Some(first.value + rest.value)
  }

  const INSTRUCTION := "<?xml version=\"1.0\" encoding=\"UTF-8\"?>"

  function Prologue(database: string, schema: Option<string>): string {
    INSTRUCTION + "\n<export" + Attribute("database", XmlEscape(database))
    + (if schema.Some? && schema.value != "" then Attribute("schema", XmlEscape(schema.value)) else "") + ">\n"
  }

  /** The whole file; None where a value was cut, which aborts the transfer. */
  function XmlBody(b64: string -> string, database: string, schema: Option<string>, tables: seq<Table>, parts: Parts,
                   objects: Objects): Option<string>
    requires forall t <- tables :: Squared(t)
  {
    var body := XmlTables(b64, tables, parts);
    if body.None? then None
    else
      Some(Prologue(database, schema) + body.value + XmlObjects(b64, "view", objects.views)
           + XmlObjects(b64, "routine", objects.routines) + XmlObjects(b64, "trigger", objects.triggers) + "</export>\n")
  }

  // The loops that emit the file, chunk by chunk.

  method EmitStructure(structure: seq<Shape>) returns (out: string)
    ensures out == XmlStructure(structure)
  {
    hide ShapeAttrs, ShowAttrs;
    var lines := "";
    for i := 0 to |structure|
      invariant lines + Shapes(structure[i..]) == Shapes(structure)
    {
      var line := "      <column" + ShowAttrs(ShapeAttrs(structure[i])) + "/>\n";
      assert structure[i..][1..] == structure[i + 1..];
      assert lines + (line + Shapes(structure[i + 1..])) == lines + line + Shapes(structure[i + 1..]);
      lines := lines + line;
    }
    out := "    <structure>\n" + lines + "    </structure>\n";
  }

  method EmitRows(b64: string -> string, columns: seq<string>, rows: seq<seq<Cell>>) returns (out: Option<string>)
    requires forall row <- rows :: |row| == |columns|
    ensures out == XmlRows(b64, columns, rows)
  {
    hide XmlRow;
    var lines := "";
    for i := 0 to |rows|
      invariant var all, rest := XmlRows(b64, columns, rows), XmlRows(b64, columns, rows[i..]);
                (all.None? <==> rest.None?) && (rest.Some? ==> all.value == lines + rest.value)
    {
      assert rows[i..][1..] == rows[i + 1..] && rows[i] in rows;
      var row := XmlRow(b64, columns, rows[i]);
      if row.None? { return None; }
      var rest := XmlRows(b64, columns, rows[i + 1..]);
      assert rest.Some? ==> lines + (row.value + rest.value) == lines + row.value + rest.value;
      lines := lines + row.value;
    }
    assert lines + "" == lines;
    out := Some(lines);
  }

  method EmitTable(b64: string -> string, t: Table, parts: Parts) returns (out: Option<string>)
    requires Squared(t)
    ensures out == XmlTable(b64, t, parts)
  {
    hide XmlRows, XmlStructure, XmlEscape, Attribute;
    var open := "  <table" + Attribute("name", XmlEscape(t.name)) + ">\n";
    var structure := "";
    if parts.structure { structure := EmitStructure(t.structure); }
    var rows := Some("");
    if parts.data { rows := EmitRows(b64, t.columns, t.rows); }
    if rows.None? { return None; }
    out := Some(open + structure + rows.value + "  </table>\n");
  }

  method EmitBody(b64: string -> string, database: string, schema: Option<string>, tables: seq<Table>, parts: Parts,
                  objects: Objects) returns (out: Option<string>)
    requires forall t <- tables :: Squared(t)
    ensures out == XmlBody(b64, database, schema, tables, parts, objects)
  {
    hide XmlTable, XmlObjects, Prologue;
    var body := "";
    for i := 0 to |tables|
      invariant var all, rest := XmlTables(b64, tables, parts), XmlTables(b64, tables[i..], parts);
                (all.None? <==> rest.None?) && (rest.Some? ==> all.value == body + rest.value)
    {
      assert tables[i..][1..] == tables[i + 1..] && tables[i] in tables;
      var table := EmitTable(b64, tables[i], parts);
      if table.None? { return None; }
      var rest := XmlTables(b64, tables[i + 1..], parts);
      assert rest.Some? ==> body + (table.value + rest.value) == body + table.value + rest.value;
      body := body + table.value;
    }
    assert body + "" == body;
    out := Some(Prologue(database, schema) + body + XmlObjects(b64, "view", objects.views)
                + XmlObjects(b64, "routine", objects.routines) + XmlObjects(b64, "trigger", objects.triggers) + "</export>\n");
  }

  // ---------------------------------------------------------------------------------------------------------------
  // Escaping and its undoing
  // ---------------------------------------------------------------------------------------------------------------

  lemma {:induction false} ReplaceSplits(a: string, b: string, c: char, subst: string)
    ensures ReplaceAll(a + b, c, subst) == ReplaceAll(a, c, subst) + ReplaceAll(b, c, subst)
    decreases a
  {
    if a == "" {
      assert a + b == b;
    } else {
      assert (a + b)[1..] == a[1..] + b;
      ReplaceSplits(a[1..], b, c, subst);
    }
  }

  function Escaped(c: char): string {
    if c == '&' then "&amp;" else if c == '<' then "&lt;" else if c == '>' then "&gt;" else if c == '"' then "&quot;" else [c]
  }

  lemma {:induction false} ReplaceNone(s: string, c: char, subst: string)
    requires c !in s
    ensures ReplaceAll(s, c, subst) == s
    decreases s
  {
    if s != "" { ReplaceNone(s[1..], c, subst); }
  }

  lemma ReplaceOne(x: char, c: char, subst: string)
    ensures ReplaceAll([x], c, subst) == if x == c then subst else [x]
  {
    assert [x][1..] == "";
  }

  lemma TwoNone(s: string)
    requires '>' !in s && '"' !in s
    ensures ReplaceAll(ReplaceAll(s, '>', "&gt;"), '"', "&quot;") == s
  {
    ReplaceNone(s, '>', "&gt;");
    ReplaceNone(s, '"', "&quot;");
  }

  lemma ThreeNone(s: string)
    requires '<' !in s && '>' !in s && '"' !in s
    ensures ReplaceAll(ReplaceAll(ReplaceAll(s, '<', "&lt;"), '>', "&gt;"), '"', "&quot;") == s
  {
    ReplaceNone(s, '<', "&lt;");
    TwoNone(s);
  }

  lemma EscapeAmp()
    ensures XmlEscape("&") == "&amp;"
  {
    hide ReplaceAll;
    ReplaceOne('&', '&', "&amp;");
    ThreeNone("&amp;");
  }

  lemma EscapeLt()
    ensures XmlEscape("<") == "&lt;"
  {
    hide ReplaceAll;
    ReplaceOne('<', '&', "&amp;");
    ReplaceOne('<', '<', "&lt;");
    TwoNone("&lt;");
  }

  lemma EscapeOther(c: char)
    requires c != '&' && c != '<'
    ensures XmlEscape([c]) == Escaped(c)
  {
    hide ReplaceAll;
    ReplaceOne(c, '&', "&amp;");
    ReplaceOne(c, '<', "&lt;");
    ReplaceOne(c, '>', "&gt;");
    if c == '>' { ReplaceNone("&gt;", '"', "&quot;"); } else { ReplaceOne(c, '"', "&quot;"); }
  }

  lemma EscapeOne(c: char)
    ensures XmlEscape([c]) == Escaped(c)
  {
    EscapeAmp();
    EscapeLt();
    if c != '&' && c != '<' { EscapeOther(c); }
    hide XmlEscape;
  }

  lemma EscapeSplits(a: string, b: string)
    ensures XmlEscape(a + b) == XmlEscape(a) + XmlEscape(b)
  {
    var a1, b1 := ReplaceAll(a, '&', "&amp;"), ReplaceAll(b, '&', "&amp;");
    var a2, b2 := ReplaceAll(a1, '<', "&lt;"), ReplaceAll(b1, '<', "&lt;");
    var a3, b3 := ReplaceAll(a2, '>', "&gt;"), ReplaceAll(b2, '>', "&gt;");
    ReplaceSplits(a, b, '&', "&amp;");
    ReplaceSplits(a1, b1, '<', "&lt;");
    ReplaceSplits(a2, b2, '>', "&gt;");
    ReplaceSplits(a3, b3, '"', "&quot;");
  }

  /** The four replacements, one after another, escape each character once. */
  lemma EscapeOnwards(s: string)
    requires s != ""
    ensures XmlEscape(s) == Escaped(s[0]) + XmlEscape(s[1..])
  {
    assert s == [s[0]] + s[1..];
    EscapeSplits([s[0]], s[1..]);
    EscapeOne(s[0]);
  }

  lemma {:induction false} EscapeIsPlain(s: string)
    ensures '<' !in XmlEscape(s) && '"' !in XmlEscape(s) && '>' !in XmlEscape(s)
    decreases s
  {
    if s != "" {
      EscapeOnwards(s);
      EscapeIsPlain(s[1..]);
    }
  }

  lemma NamedReads(name: string, value: string, rest: string)
    requires name != "" && (forall c <- name :: IsLetter(c)) && Named(name) == Some(value)
    ensures DecodeEntities("&" + name + ";" + rest) == value + DecodeEntities(rest)
  {
    var s := "&" + name + ";" + rest;
    assert s[1..] == name + (";" + rest);
    assert s[1] == name[0] && name[0] in name;
    SpanOf(name, ";" + rest, IsLetter);
    hide Span, Named;
    var n := |name| + 2;
    assert ReferenceLength(s) == n;
    assert s[1..n - 1] == name && s[n..] == rest;
  }

  /** The reference an escaped character begins with is read as that character. */
  lemma ReferenceReads(c: char, rest: string)
    requires c == '&' || c == '<' || c == '>' || c == '"'
    ensures DecodeEntities(Escaped(c) + rest) == [c] + DecodeEntities(rest)
  {
    hide DecodeEntities;
    if c == '&' {
      assert Escaped(c) == "&" + "amp" + ";";
      NamedReads("amp", "&", rest);
    } else if c == '<' {
      assert Escaped(c) == "&" + "lt" + ";";
      NamedReads("lt", "<", rest);
    } else if c == '>' {
      assert Escaped(c) == "&" + "gt" + ";";
      NamedReads("gt", ">", rest);
    } else {
      assert Escaped(c) == "&" + "quot" + ";";
      NamedReads("quot", "\"", rest);
    }
  }

  lemma {:induction false} SpanOf(a: string, rest: string, kind: char -> bool)
    requires (forall c <- a :: kind(c)) && (rest == "" || !kind(rest[0]))
    ensures Span(a + rest, kind) == |a|
    decreases a
  {
    if a != "" {
      assert (a + rest)[1..] == a[1..] + rest;
      SpanOf(a[1..], rest, kind);
    } else {
      assert a + rest == rest;
    }
  }

  /** Text comes back through the entities as it was. */
  lemma {:induction false} DecodeEscape(s: string)
    ensures DecodeEntities(XmlEscape(s)) == s
    decreases s
  {
    if s != "" {
      EscapeOnwards(s);
      DecodeEscape(s[1..]);
      var rest := XmlEscape(s[1..]);
      if s[0] in "&<>\"" {
        ReferenceReads(s[0], rest);
      } else {
        assert ([s[0]] + rest)[1..] == rest;
      }
    }
  }

  // ---------------------------------------------------------------------------------------------------------------
  // Reading piece by piece
  // ---------------------------------------------------------------------------------------------------------------

  /** What the reader makes of a text from a state on. */
  function ReadOn(st: Reading, s: string, skipBlank: bool): Reading {
    Fold(st, Events(s), skipBlank)
  }

  lemma {:induction false} FoldSplits(st: Reading, a: seq<Event>, b: seq<Event>, skipBlank: bool)
    ensures Fold(st, a + b, skipBlank) == Fold(Fold(st, a, skipBlank), b, skipBlank)
    decreases a
  {
    if a == [] {
      assert a + b == b;
    } else {
      assert (a + b)[1..] == a[1..] + b;
      FoldSplits(Next(st, a[0], skipBlank), a[1..], b, skipBlank);
    }
  }

  lemma ReadTakes(st: Reading, s: string, skipBlank: bool)
    requires s != ""
    ensures ReadOn(st, s, skipBlank) == ReadOn(Fold(st, Take(s).0, skipBlank), Take(s).1, skipBlank)
  {
    hide Take;
    FoldSplits(st, Take(s).0, Events(Take(s).1), skipBlank);
  }

  lemma {:induction false} FindOnwards(t: string, rest: string, c: char)
    requires c !in t
    ensures Find(t + rest, c) == |t| + Find(rest, c)
    decreases t
  {
    if t == "" {
      assert t + rest == rest;
    } else {
      assert (t + rest)[1..] == t[1..] + rest;
      FindOnwards(t[1..], rest, c);
    }
  }

  lemma FoldOne(st: Reading, e: Event, skipBlank: bool)
    ensures Fold(st, [e], skipBlank) == Next(st, e, skipBlank)
  {
    assert [e][1..] == [];
    assert Fold(Next(st, e, skipBlank), [], skipBlank) == Next(st, e, skipBlank);
  }

  /** Text outside a column is passed over up to the next tag. */
  lemma TextPassed(st: Reading, s: string, skipBlank: bool)
    requires st.column.None?
    ensures ReadOn(st, s, skipBlank) == ReadOn(st, s[Find(s, '<')..], skipBlank)
  {
    if s != "" && s[0] != '<' {
      ReadTakes(st, s, skipBlank);
      FoldOne(st, Chars(DecodeEntities(s[..Find(s, '<')])), skipBlank);
    }
  }

  lemma Ignored(st: Reading, t: string, rest: string, skipBlank: bool)
    requires '<' !in t && st.column.None?
    ensures ReadOn(st, t + rest, skipBlank) == ReadOn(st, rest, skipBlank)
  {
    hide Events, Fold, Find;
    TextPassed(st, t + rest, skipBlank);
    TextPassed(st, rest, skipBlank);
    FindOnwards(t, rest, '<');
    assert (t + rest)[|t| + Find(rest, '<')..] == rest[Find(rest, '<')..];
  }

  /** Text inside a column is added to its value. */
  lemma ColumnText(st: Reading, t: string, rest: string, skipBlank: bool)
    requires '<' !in t && rest != "" && rest[0] == '<' && st.column.Some?
    ensures var c := st.column.value;
            ReadOn(st, t + rest, skipBlank) ==
            ReadOn(st.(column := Some(c.(text := c.text + DecodeEntities(t)))), rest, skipBlank)
  {
    hide Events, Fold, DecodeEntities, TakeMarkup, TagAt;
    if t == "" {
      assert t + rest == rest;
      NothingDecoded();
      assert st.column.value.text + "" == st.column.value.text;
    } else {
      var s := t + rest;
      FindOnwards(t, rest, '<');
      assert s[..|t|] == t && s[|t|..] == rest;
      ReadTakes(st, s, skipBlank);
      FoldOne(st, Chars(DecodeEntities(t)), skipBlank);
    }
  }

  lemma NothingDecoded() ensures DecodeEntities("") == "" {}

  predicate IsName(s: string) {
    s != "" && forall c <- s :: IsNameChar(c)
  }

  /** Attributes as they can be written: names, and values without a quote. */
  predicate Writable(attrs: seq<Attr>) {
    forall a <- attrs :: IsName(a.name) && '"' !in a.value
  }

  /** Attributes with their values as they stand in the file. */
  function RawAttrs(attrs: seq<Attr>): string {
    if attrs == [] then "" else Attribute(attrs[0].name, attrs[0].value) + RawAttrs(attrs[1..])
  }

  lemma NothingSkipped(s: string)
    requires s == "" || !IsSpace(s[0])
    ensures SkipSpace(s) == s
  {
    SpanOf("", s, IsSpace);
    assert "" + s == s;
  }

  lemma OneSpace(s: string)
    requires s == "" || !IsSpace(s[0])
    ensures SkipSpace(" " + s) == s
  {
    assert (" " + s)[1..] == s;
    SpanOf("", s, IsSpace);
    assert "" + s == s;
  }

  lemma NameReads(name: string, rest: string)
    requires IsName(name) && rest != "" && !IsNameChar(rest[0])
    ensures AttrName(" " + name + rest) == Some((name, rest))
  {
    assert " " + name + rest == " " + (name + rest);
    assert (name + rest)[0] == name[0] && name[0] in name;
    OneSpace(name + rest);
    SpanOf(name, rest, IsNameChar);
    assert (name + rest)[..|name|] == name && (name + rest)[|name|..] == rest;
  }

  lemma ValueReads(value: string, rest: string)
    requires '"' !in value
    ensures AttrValue("=\"" + value + "\"" + rest) == Some((value, rest))
  {
    hide Span, SkipSpace;
    var v := "\"" + (value + ("\"" + rest));
    var s := "=\"" + value + "\"" + rest;
    assert s == "=" + v;
    NothingSkipped(s);
    assert s[1..] == v;
    NothingSkipped(v);
    var w := value + ("\"" + rest);
    assert v[1..] == w;
    FindOnwards(value, "\"" + rest, '"');
    assert w[..|value|] == value && w[|value| + 1..] == rest;
  }

  lemma AttrReads(a: Attr, rest: string)
    requires IsName(a.name) && '"' !in a.value
    ensures AttrAt(Attribute(a.name, a.value) + rest) == Some((a, rest))
  {
    hide AttrName, AttrValue;
    var more := "=\"" + a.value + "\"" + rest;
    assert Attribute(a.name, a.value) + rest == " " + a.name + more;
    NameReads(a.name, more);
    ValueReads(a.value, rest);
  }

  lemma NoAttr(s: string)
    requires s != "" && !IsSpace(s[0])
    ensures AttrsAt(s) == ([], s)
  {
    NothingSkipped(s);
  }

  lemma {:induction false} AttrsRead(attrs: seq<Attr>, rest: string)
    requires Writable(attrs) && rest != "" && !IsSpace(rest[0])
    ensures AttrsAt(RawAttrs(attrs) + rest) == (attrs, rest)
    decreases attrs
  {
    hide AttrAt;
    if attrs == [] {
      assert RawAttrs(attrs) + rest == rest;
      NoAttr(rest);
    } else {
      var more := RawAttrs(attrs[1..]) + rest;
      assert RawAttrs(attrs) + rest == Attribute(attrs[0].name, attrs[0].value) + more;
      AttrReads(attrs[0], more);
      AttrsRead(attrs[1..], rest);
      assert [attrs[0]] + attrs[1..] == attrs;
    }
  }

  /** An opening tag as it is written. */
  function OpenTag(name: string, attrs: seq<Attr>, selfClosing: bool): string {
    "<" + name + RawAttrs(attrs) + if selfClosing then "/>" else ">"
  }

  lemma RawAttrsBegin(attrs: seq<Attr>, tail: string)
    requires tail != "" && !IsNameChar(tail[0])
    ensures var s := RawAttrs(attrs) + tail; s != "" && !IsNameChar(s[0])
  {
    if attrs != [] { assert RawAttrs(attrs)[0] == ' '; }
  }

  lemma OpenTagReads(name: string, attrs: seq<Attr>, selfClosing: bool, rest: string)
    requires IsName(name) && Writable(attrs)
    ensures TagAt(OpenTag(name, attrs, selfClosing) + rest) == Some(Tag(false, name, attrs, selfClosing, rest))
  {
    hide AttrsAt, RawAttrs, Span, Writable;
    var tail := (if selfClosing then "/>" else ">") + rest;
    var s := OpenTag(name, attrs, selfClosing) + rest;
    var more := RawAttrs(attrs) + tail;
    assert s == "<" + (name + more);
    assert name[0] in name;
    assert s[1] == name[0] && s[1..] == name + more;
    RawAttrsBegin(attrs, tail);
    SpanOf(name, more, IsNameChar);
    assert (name + more)[..|name|] == name && (name + more)[|name|..] == more;
    AttrsRead(attrs, tail);
    NothingSkipped(tail);
    assert tail[if selfClosing then 2 else 1..] == rest;
    if selfClosing { assert tail[1..][1..] == rest; }
  }

  lemma CloseTagReads(name: string, rest: string)
    requires IsName(name)
    ensures TagAt("</" + name + ">" + rest) == Some(Tag(true, name, [], false, rest))
  {
    hide AttrsAt, Span;
    var s, tail := "</" + name + ">" + rest, ">" + rest;
    assert s[2..] == name + tail && s[1] == '/';
    SpanOf(name, tail, IsNameChar);
    assert (name + tail)[..|name|] == name && (name + tail)[|name|..] == tail;
    NoAttr(tail);
    NothingSkipped(tail);
    assert tail[1..] == rest;
  }

  /** An opening tag is one piece of the file, whatever follows. */
  lemma OpenRead(st: Reading, name: string, attrs: seq<Attr>, selfClosing: bool, rest: string, skipBlank: bool)
    requires IsName(name) && Writable(attrs)
    ensures ReadOn(st, OpenTag(name, attrs, selfClosing) + rest, skipBlank) ==
            ReadOn(Fold(st, TagEvents(Tag(false, name, attrs, selfClosing, "")), skipBlank), rest, skipBlank)
  {
    hide TagAt, Events, Fold, IsNameChar, Decoded, RawAttrs;
    var s := OpenTag(name, attrs, selfClosing) + rest;
    assert s[0] == '<' && s[1] == name[0] && name[0] in name;
    NotMarkup(s);
    OpenTagReads(name, attrs, selfClosing, rest);
    ReadTakes(st, s, skipBlank);
  }

  lemma NotMarkup(s: string)
    requires |s| > 1 && s[0] == '<' && (IsNameChar(s[1]) || s[1] == '/')
    ensures TakeMarkup(s).None?
  {
    assert s[1] != '!' && s[1] != '?';
  }

  lemma CloseRead(st: Reading, name: string, rest: string, skipBlank: bool)
    requires IsName(name)
    ensures ReadOn(st, "</" + name + ">" + rest, skipBlank) == ReadOn(OnEnd(st, name, skipBlank), rest, skipBlank)
  {
    hide TagAt, Events, Fold, IsNameChar, OnEnd;
    var s := "</" + name + ">" + rest;
    NotMarkup(s);
    CloseTagReads(name, rest);
    ReadTakes(st, s, skipBlank);
    FoldOne(st, End(name), skipBlank);
  }

  // ---------------------------------------------------------------------------------------------------------------
  // Reading rows
  // ---------------------------------------------------------------------------------------------------------------

  predicate IsBase64(s: string) {
    forall c <- s :: IsLetter(c) || IsDigit(c) || c == '+' || c == '/' || c == '='
  }

  /** What a cell is read as: text that XML cannot carry as the base64 of its bytes, like bytes. */
  function ReadBack(b64: string -> string, cell: Cell): RowCell {
    match cell
    case Null => RowCell.Null
    case Binary(bin) => Base64(bin)
    case Text(text) => if XmlUnrepresentable(text) then Base64(b64(text)) else RowCell.Text(text)
    case Shown(text) => if XmlUnrepresentable(text) then Base64(b64(text)) else RowCell.Text(text)
    case Truncated(cut) => RowCell.Text(cut)
  }

  /** Bytes are base64, and nothing was cut. */
  predicate Readable(cell: Cell) {
    !cell.Truncated? && (cell.Binary? ==> IsBase64(cell.bin))
  }

  lemma {:induction false} DecodePlain(s: string)
    requires '&' !in s
    ensures DecodeEntities(s) == s
    decreases s
  {
    if s != "" { DecodePlain(s[1..]); }
  }

  lemma TrimPlain(s: string)
    requires forall c <- s :: !IsSpace(c)
    ensures Trim(s) == s
  {
    if s != "" { assert s[0] in s && s[|s| - 1] in s; }
  }

  lemma Base64Plain(s: string)
    requires IsBase64(s)
    ensures '<' !in s && DecodeEntities(s) == s && Trim(s) == s
  {
    hide DecodeEntities, Trim;
    DecodePlain(s);
    TrimPlain(s);
  }

  lemma TwoAttrs(a: Attr, b: Attr)
    ensures RawAttrs([a]) == Attribute(a.name, a.value)
    ensures RawAttrs([a, b]) == Attribute(a.name, a.value) + Attribute(b.name, b.value)
  {
    assert [a][1..] == [] && [a, b][1..] == [b] && [b][1..] == [];
    assert RawAttrs([b]) == Attribute(b.name, b.value) + "";
    assert RawAttrs([a]) == Attribute(a.name, a.value) + "";
  }

  function NameAttr(name: string): Attr {
    Attr("name", XmlEscape(name))
  }

  lemma DecodedTwo(name: string, b: Attr)
    requires '&' !in b.value
    ensures Decoded([NameAttr(name)]) == [Attr("name", name)] && Decoded([NameAttr(name), b]) == [Attr("name", name), b]
  {
    DecodeEscape(name);
    DecodePlain(b.value);
    assert [NameAttr(name)][1..] == [] && [NameAttr(name), b][1..] == [b] && [b][1..] == [];
    assert Decoded([b]) == [b];
  }

  lemma ValueOfTwo(a: Attr, b: Attr, name: string)
    ensures ValueOf([a], name) == if a.name == name then Some(a.value) else None
    ensures ValueOf([a, b], name) == if b.name == name then Some(b.value) else if a.name == name then Some(a.value) else None
  {
    assert [a][..0] == [] && [a, b][..1] == [a];
  }

  /** Reading inside a row. */
  predicate InRow(st: Reading, row: Row) {
    st.row == Some(row) && st.column.None? && !st.inStructure
  }

  lemma FoldTwo(st: Reading, a: Event, b: Event, skipBlank: bool)
    ensures Fold(st, [a, b], skipBlank) == Next(Next(st, a, skipBlank), b, skipBlank)
  {
    assert [a, b] == [a] + [b];
    FoldSplits(st, [a], [b], skipBlank);
    FoldOne(st, a, skipBlank);
    FoldOne(Next(st, a, skipBlank), b, skipBlank);
  }

  lemma NameIsWritable(name: string)
    ensures Writable([NameAttr(name)]) && Writable([NameAttr(name), Attr("null", "true")])
    ensures Writable([NameAttr(name), Attr("encoding", "base64")])
  {
    EscapeIsPlain(name);
    hide XmlEscape;
  }

  /** The tag of a column sets up the column it says. */
  lemma ColumnStarts(st: Reading, name: string)
    requires !st.inStructure
    ensures var a := Attr("name", name);
            && OnStart(st, "column", [a]) == st.(column := Some(Column(name, false, false, "")))
            && OnStart(st, "column", [a, Attr("null", "true")]) == st.(column := Some(Column(name, true, false, "")))
            && OnStart(st, "column", [a, Attr("encoding", "base64")]) == st.(column := Some(Column(name, false, true, "")))
  {
    var a, n, e := Attr("name", name), Attr("null", "true"), Attr("encoding", "base64");
    ValueOfTwo(a, n, "name"); ValueOfTwo(a, n, "null"); ValueOfTwo(a, n, "encoding");
    ValueOfTwo(a, e, "name"); ValueOfTwo(a, e, "null"); ValueOfTwo(a, e, "encoding");
    hide ValueOf;
  }

  lemma ColumnEnds(st: Reading, row: Row, c: Column, skipBlank: bool)
    requires st.row == Some(row) && st.column == Some(c)
    ensures OnEnd(st, "column", skipBlank) == st.(row := Some(SetCell(row, c.name, ColumnCell(c))), column := None)
  {
  }

  lemma NullReads(st: Reading, row: Row, name: string, rest: string, skipBlank: bool)
    requires InRow(st, row)
    ensures var b := Attr("null", "true");
            ReadOn(st, OpenTag("column", [NameAttr(name), b], true) + rest, skipBlank) ==
            ReadOn(st.(row := Some(SetCell(row, name, RowCell.Null))), rest, skipBlank)
  {
    var b := Attr("null", "true");
    NameIsWritable(name);
    DecodedTwo(name, b);
    ColumnStarts(st, name);
    var c := Column(name, true, false, "");
    ColumnEnds(st.(column := Some(c)), row, c, skipBlank);
    hide Events, Fold, SetCell, Decoded, OnStart, OnEnd, Writable, OpenTag, NameAttr;
    OpenRead(st, "column", [NameAttr(name), b], true, rest, skipBlank);
    FoldTwo(st, Start("column", [Attr("name", name), b]), End("column"), skipBlank);
  }

  /** From the column's text to its end. */
  lemma ColumnCloses(st: Reading, row: Row, c: Column, text: string, rest: string, skipBlank: bool)
    requires st.row == Some(row) && st.column == Some(c) && c.text == "" && '<' !in text
    ensures ReadOn(st, text + ("</column>" + rest), skipBlank) ==
            ReadOn(st.(row := Some(SetCell(row, c.name, ColumnCell(c.(text := DecodeEntities(text))))), column := None),
                   rest, skipBlank)
  {
    hide Events, Fold, SetCell, OnEnd, DecodeEntities, ColumnCell;
    var done := c.(text := DecodeEntities(text));
    assert "</" + "column" + ">" + rest == "</column>" + rest;
    ColumnText(st, text, "</column>" + rest, skipBlank);
    assert "" + DecodeEntities(text) == DecodeEntities(text);
    CloseRead(st.(column := Some(done)), "column", rest, skipBlank);
    ColumnEnds(st.(column := Some(done)), row, done, skipBlank);
  }

  /** The tag of an element that holds something. */
  lemma Opens(st: Reading, name: string, attrs: seq<Attr>, rest: string, skipBlank: bool)
    requires IsName(name) && Writable(attrs)
    ensures ReadOn(st, OpenTag(name, attrs, false) + rest, skipBlank) == ReadOn(OnStart(st, name, Decoded(attrs)), rest, skipBlank)
  {
    hide Events, Fold, Decoded, OnStart, OpenTag, Writable;
    OpenRead(st, name, attrs, false, rest, skipBlank);
    assert TagEvents(Tag(false, name, attrs, false, "")) == [Start(name, Decoded(attrs))];
    FoldOne(st, Start(name, Decoded(attrs)), skipBlank);
  }

  function TextAttrs(name: string, base64: bool): seq<Attr> {
    if base64 then [NameAttr(name), Attr("encoding", "base64")] else [NameAttr(name)]
  }

  lemma TextColumnStarts(st: Reading, name: string, base64: bool)
    requires !st.inStructure
    ensures OnStart(st, "column", Decoded(TextAttrs(name, base64))) == st.(column := Some(Column(name, false, base64, "")))
    ensures Writable(TextAttrs(name, base64))
  {
    NameIsWritable(name);
    DecodedTwo(name, Attr("encoding", "base64"));
    ColumnStarts(st, name);
    hide OnStart, NameAttr, Decoded, Writable;
  }

  /** A column with text in it. */
  lemma FilledReads(st: Reading, row: Row, name: string, base64: bool, text: string, rest: string, skipBlank: bool)
    requires InRow(st, row) && '<' !in text
    ensures var cell := if base64 then Base64(Trim(DecodeEntities(text))) else RowCell.Text(DecodeEntities(text));
            ReadOn(st, OpenTag("column", TextAttrs(name, base64), false) + (text + ("</column>" + rest)), skipBlank) ==
            ReadOn(st.(row := Some(SetCell(row, name, cell))), rest, skipBlank)
  {
    var c := Column(name, false, base64, "");
    TextColumnStarts(st, name, base64);
    hide ReadOn, SetCell, DecodeEntities, Trim, OnStart, Writable, OpenTag, TextAttrs, Decoded;
    Opens(st, "column", TextAttrs(name, base64), text + ("</column>" + rest), skipBlank);
    ColumnCloses(st.(column := Some(c)), row, c, text, rest, skipBlank);
  }

  lemma RegroupText(a: string, b: string, c: string, d: string)
    ensures a + b + c + d == a + (b + (c + d))
  {
  }

  lemma NullShown(name: string)
    ensures "<column" + Attribute("name", XmlEscape(name)) + Attribute("null", "true") + "/>"
         == OpenTag("column", [NameAttr(name), Attr("null", "true")], true)
  {
    TwoAttrs(NameAttr(name), Attr("null", "true"));
    hide Attribute, XmlEscape;
    RegroupText("<column", Attribute("name", XmlEscape(name)), Attribute("null", "true"), "/>");
  }

  lemma TextShown(name: string, base64: bool, text: string, rest: string)
    ensures "<column" + Attribute("name", XmlEscape(name)) + (if base64 then Attribute("encoding", "base64") else "") + ">"
            + text + "</column>" + rest
         == OpenTag("column", TextAttrs(name, base64), false) + (text + ("</column>" + rest))
  {
    TwoAttrs(NameAttr(name), Attr("encoding", "base64"));
    hide Attribute, XmlEscape;
    var a, b := Attribute("name", XmlEscape(name)), if base64 then Attribute("encoding", "base64") else "";
    assert OpenTag("column", TextAttrs(name, base64), false) == "<column" + a + b + ">";
    RegroupText("<column" + a + b + ">", text, "</column>", rest);
  }

  /** A text value is read back, as text or as base64. */
  lemma TextReads(st: Reading, row: Row, b64: string -> string, name: string, value: string, rest: string, skipBlank: bool)
    requires InRow(st, row) && IsBase64(b64(value))
    ensures ReadOn(st, TextColumn(b64, name, value) + rest, skipBlank) ==
            ReadOn(st.(row := Some(SetCell(row, name, ReadBack(b64, Cells.Text(value))))), rest, skipBlank)
  {
    var base64 := XmlUnrepresentable(value);
    var text := if base64 then b64(value) else XmlEscape(value);
    Base64Plain(b64(value));
    EscapeIsPlain(value);
    DecodeEscape(value);
    TextShown(name, base64, text, rest);
    hide ReadOn, XmlUnrepresentable, XmlEscape, Attribute, OpenTag, SetCell, DecodeEntities, Trim, IsBase64;
    var a := Attribute("name", XmlEscape(name));
    assert "<column" + a + "" + ">" == "<column" + a + ">";
    FilledReads(st, row, name, base64, text, rest, skipBlank);
  }

  lemma BinaryReads(st: Reading, row: Row, name: string, bin: string, rest: string, skipBlank: bool)
    requires InRow(st, row) && IsBase64(bin)
    ensures ReadOn(st, "<column" + Attribute("name", XmlEscape(name)) + Attribute("encoding", "base64") + ">" + bin
                       + "</column>" + rest, skipBlank) ==
            ReadOn(st.(row := Some(SetCell(row, name, Base64(bin)))), rest, skipBlank)
  {
    Base64Plain(bin);
    TextShown(name, true, bin, rest);
    hide ReadOn, XmlEscape, Attribute, OpenTag, SetCell, DecodeEntities, Trim, IsBase64;
    FilledReads(st, row, name, true, bin, rest, skipBlank);
  }

  /** One value of a row is read back. */
  lemma CellReads(st: Reading, row: Row, b64: string -> string, name: string, cell: Cell, rest: string, skipBlank: bool)
    requires InRow(st, row) && Readable(cell) && forall s :: IsBase64(b64(s))
    ensures XmlColumn(b64, name, cell).Some?
    ensures ReadOn(st, XmlColumn(b64, name, cell).value + rest, skipBlank) ==
            ReadOn(st.(row := Some(SetCell(row, name, ReadBack(b64, cell)))), rest, skipBlank)
  {
    hide ReadOn, TextColumn, SetCell, Attribute, XmlEscape, IsBase64;
    match cell
    case Null =>
      NullShown(name);
      NullReads(st, row, name, rest, skipBlank);
    case Binary(bin) => BinaryReads(st, row, name, bin, rest, skipBlank);
    case Text(text) => TextReads(st, row, b64, name, text, rest, skipBlank);
    case Shown(text) => TextReads(st, row, b64, name, text, rest, skipBlank);
  }

  /** The row as it is read. */
  function ReadRow(b64: string -> string, columns: seq<string>, row: seq<Cell>): (r: Row)
    requires |columns| == |row|
    ensures |r| == |row|
  {
    if columns == [] then [] else [(columns[0], ReadBack(b64, row[0]))] + ReadRow(b64, columns[1..], row[1..])
  }

  predicate Distinct(names: seq<string>) {
    forall i, j :: 0 <= i < j < |names| ==> names[i] != names[j]
  }

  predicate Lacks(row: Row, name: string) {
    forall c <- row :: c.0 != name
  }

  lemma {:induction false} NewCell(row: Row, name: string, cell: RowCell)
    requires Lacks(row, name)
    ensures SetCell(row, name, cell) == row + [(name, cell)]
    decreases row
  {
    if row != [] { NewCell(row[1..], name, cell); }
  }

  lemma {:induction false} ColumnsRead(st: Reading, row: Row, b64: string -> string, columns: seq<string>, cells: seq<Cell>,
                                       rest: string, skipBlank: bool)
    requires |columns| == |cells| && InRow(st, row) && Distinct(columns)
    requires (forall s :: IsBase64(b64(s))) && (forall c <- cells :: Readable(c)) && forall n <- columns :: Lacks(row, n)
    ensures Columns(b64, columns, cells).Some?
    ensures ReadOn(st, Columns(b64, columns, cells).value + rest, skipBlank) ==
            ReadOn(st.(row := Some(row + ReadRow(b64, columns, cells))), rest, skipBlank)
    decreases columns
  {
    hide ReadOn, XmlColumn, SetCell, ReadBack, Readable, IsBase64;
    if columns == [] {
      assert row + [] == row;
      assert "" + rest == rest;
    } else {
      var name, cell := columns[0], ReadBack(b64, cells[0]);
      var next := st.(row := Some(row + [(name, cell)]));
      NewCell(row, name, cell);
      forall n | n in columns[1..] ensures Lacks(row + [(name, cell)], n) {
        var i :| 0 <= i < |columns[1..]| && columns[1..][i] == n;
        assert columns[0] != columns[i + 1] && columns[i + 1] in columns;
      }
      ColumnsRead(next, row + [(name, cell)], b64, columns[1..], cells[1..], rest, skipBlank);
      var more := Columns(b64, columns[1..], cells[1..]).value + rest;
      CellReads(st, row, b64, name, cells[0], "\n" + more, skipBlank);
      var text := XmlColumn(b64, name, cells[0]).value;
      Ignored(st, "      ", text + ("\n" + more), skipBlank);
      Ignored(next, "\n", more, skipBlank);
      RegroupText("      ", text, "\n", more);
      assert "      " + text + "\n" + Columns(b64, columns[1..], cells[1..]).value + rest == "      " + text + "\n" + more;
      assert row + [(name, cell)] + ReadRow(b64, columns[1..], cells[1..]) == row + ReadRow(b64, columns, cells);
    }
  }

  /** A line with an opening tag on it. */
  lemma LineOpens(st: Reading, indent: string, name: string, attrs: seq<Attr>, rest: string, skipBlank: bool)
    requires '<' !in indent && st.column.None? && IsName(name) && Writable(attrs) && OnStart(st, name, Decoded(attrs)).column.None?
    ensures ReadOn(st, indent + OpenTag(name, attrs, false) + "\n" + rest, skipBlank) ==
            ReadOn(OnStart(st, name, Decoded(attrs)), rest, skipBlank)
  {
    hide ReadOn, OpenTag, OnStart, Decoded, Writable;
    var tag := OpenTag(name, attrs, false);
    RegroupText(indent, tag, "\n", rest);
    Ignored(st, indent, tag + ("\n" + rest), skipBlank);
    Opens(st, name, attrs, "\n" + rest, skipBlank);
    Ignored(OnStart(st, name, Decoded(attrs)), "\n", rest, skipBlank);
  }

  /** A line with a closing tag on it. */
  lemma LineCloses(st: Reading, indent: string, name: string, rest: string, skipBlank: bool)
    requires '<' !in indent && st.column.None? && IsName(name)
    ensures ReadOn(st, indent + ("</" + name + ">") + "\n" + rest, skipBlank) == ReadOn(OnEnd(st, name, skipBlank), rest, skipBlank)
  {
    hide ReadOn, OnEnd, IsName;
    var tag := "</" + name + ">";
    RegroupText(indent, tag, "\n", rest);
    Ignored(st, indent, tag + ("\n" + rest), skipBlank);
    CloseRead(st, name, "\n" + rest, skipBlank);
    ColumnAfterEnd(st, name, skipBlank);
    Ignored(OnEnd(st, name, skipBlank), "\n", rest, skipBlank);
  }

  lemma ColumnAfterEnd(st: Reading, name: string, skipBlank: bool)
    requires st.column.None?
    ensures OnEnd(st, name, skipBlank).column.None?
  {
  }

  /** Reading a table, between its rows. */
  predicate InTable(st: Reading, table: string) {
    st.table == table && st.direct == Some([]) && st.row.None? && st.column.None? && !st.inStructure
  }

  /** A row of the file is one more row of its table. */
  lemma RowReads(st: Reading, table: string, b64: string -> string, columns: seq<string>, cells: seq<Cell>, rest: string, skipBlank: bool)
    requires InTable(st, table) && |columns| == |cells| > 0 && Distinct(columns)
    requires (forall s :: IsBase64(b64(s))) && forall c <- cells :: Readable(c)
    ensures XmlRow(b64, columns, cells).Some?
    ensures ReadOn(st, XmlRow(b64, columns, cells).value + rest, skipBlank) ==
            ReadOn(st.(tables := AddRow(st.tables, table, ReadRow(b64, columns, cells))), rest, skipBlank)
  {
    hide ReadOn, Columns, OpenTag, AddRow, ReadRow, IsBase64, Readable, Writable, Decoded;
    var in_, row := st.(row := Some([])), ReadRow(b64, columns, cells);
    NoAttrs();
    ColumnsRead(in_, [], b64, columns, cells, "    </row>\n" + rest, skipBlank);
    assert [] + row == row;
    var text := Columns(b64, columns, cells).value;
    var after := text + ("    </row>\n" + rest);
    LineOpens(st, "    ", "row", [], after, skipBlank);
    LineCloses(in_.(row := Some(row)), "    ", "row", rest, skipBlank);
    RowText(text, rest);
    assert OnStart(st, "row", []) == in_;
    assert OnEnd(in_.(row := Some(row)), "row", skipBlank) == st.(tables := AddRow(st.tables, table, row));
  }

  lemma NoAttrs()
    ensures Writable([]) && Decoded([]) == [] && RawAttrs([]) == ""
  {
  }

  lemma RowText(text: string, rest: string)
    ensures "    <row>\n" + text + "    </row>\n" + rest
         == "    " + OpenTag("row", [], false) + "\n" + (text + ("    " + ("</" + "row" + ">") + "\n" + rest))
    ensures "    </row>\n" + rest == "    " + ("</" + "row" + ">") + "\n" + rest
  {
    NoAttrs();
    assert OpenTag("row", [], false) == "<row>";
    assert "    " + "<row>" + "\n" == "    <row>\n";
    assert "    " + ("</" + "row" + ">") + "\n" == "    </row>\n";
    RegroupText("    <row>\n", text, "    </row>\n", rest);
  }

  function ReadRows(b64: string -> string, columns: seq<string>, rows: seq<seq<Cell>>): seq<Row>
    requires forall row <- rows :: |row| == |columns|
  {
    if rows == [] then [] else [ReadRow(b64, columns, rows[0])] + ReadRows(b64, columns, rows[1..])
  }

  function AddRows(tables: seq<TableRows>, name: string, rows: seq<Row>): seq<TableRows>
    decreases rows
  {
    if rows == [] then tables else AddRows(AddRow(tables, name, rows[0]), name, rows[1..])
  }

  predicate Exportable(t: Table) {
    |t.columns| > 0 && Distinct(t.columns) && Squared(t) && forall row <- t.rows :: forall c <- row :: Readable(c)
  }

  lemma {:induction false} RowsRead(st: Reading, table: string, b64: string -> string, columns: seq<string>, rows: seq<seq<Cell>>,
                                    rest: string, skipBlank: bool)
    requires InTable(st, table) && |columns| > 0 && Distinct(columns) && forall s :: IsBase64(b64(s))
    requires forall row <- rows :: |row| == |columns| && forall c <- row :: Readable(c)
    ensures XmlRows(b64, columns, rows).Some?
    ensures ReadOn(st, XmlRows(b64, columns, rows).value + rest, skipBlank) ==
            ReadOn(st.(tables := AddRows(st.tables, table, ReadRows(b64, columns, rows))), rest, skipBlank)
    decreases rows
  {
    hide ReadOn, XmlRow, AddRow, ReadRow, IsBase64, Readable, Distinct;
    if rows == [] {
      assert "" + rest == rest;
    } else {
      var next := st.(tables := AddRow(st.tables, table, ReadRow(b64, columns, rows[0])));
      RowsRead(next, table, b64, columns, rows[1..], rest, skipBlank);
      var more := XmlRows(b64, columns, rows[1..]).value + rest;
      RowReads(st, table, b64, columns, rows[0], more, skipBlank);
      assert XmlRow(b64, columns, rows[0]).value + more == XmlRows(b64, columns, rows).value + rest;
      assert ReadRows(b64, columns, rows)[1..] == ReadRows(b64, columns, rows[1..]);
    }
  }

  // ---------------------------------------------------------------------------------------------------------------
  // What is passed over: structure and objects
  // ---------------------------------------------------------------------------------------------------------------

  lemma {:induction false} ReplaceKeepsOut(s: string, c: char, subst: string, q: char)
    requires q !in s && q !in subst
    ensures q !in ReplaceAll(s, c, subst)
    decreases s
  {
    if s != "" { ReplaceKeepsOut(s[1..], c, subst, q); }
  }

  lemma AttributeIsPlain(s: string)
    ensures '"' !in XmlAttribute(s)
  {
    var a := XmlEscape(Representable(s));
    EscapeIsPlain(Representable(s));
    ReplaceKeepsOut(a, '\r', "&#13;", '"');
    ReplaceKeepsOut(ReplaceAll(a, '\r', "&#13;"), '\n', "&#10;", '"');
    ReplaceKeepsOut(ReplaceAll(ReplaceAll(a, '\r', "&#13;"), '\n', "&#10;"), '\t', "&#9;", '"');
  }

  predicate WellNamed(attrs: seq<Attr>) {
    forall a <- attrs :: IsName(a.name)
  }

  /** The attributes as `xmlStructure` writes their values. */
  function Raw(attrs: seq<Attr>): seq<Attr> {
    if attrs == [] then [] else [Attr(attrs[0].name, XmlAttribute(attrs[0].value))] + Raw(attrs[1..])
  }

  lemma {:induction false} RawShown(attrs: seq<Attr>)
    requires WellNamed(attrs)
    ensures ShowAttrs(attrs) == RawAttrs(Raw(attrs)) && Writable(Raw(attrs))
    decreases attrs
  {
    hide XmlAttribute, Attribute, IsName;
    if attrs != [] {
      AttributeIsPlain(attrs[0].value);
      RawShown(attrs[1..]);
    }
  }

  /** The attributes as `xmlObjects` writes their values. */
  function RawEscaped(attrs: seq<Attr>): seq<Attr> {
    if attrs == [] then [] else [Attr(attrs[0].name, XmlEscape(attrs[0].value))] + RawEscaped(attrs[1..])
  }

  lemma {:induction false} RawEscapedShown(attrs: seq<Attr>)
    requires WellNamed(attrs)
    ensures EscapedAttrs(attrs) == RawAttrs(RawEscaped(attrs)) && Writable(RawEscaped(attrs))
    decreases attrs
  {
    hide XmlEscape, Attribute, IsName;
    if attrs != [] {
      EscapeIsPlain(attrs[0].value);
      RawEscapedShown(attrs[1..]);
    }
  }

  lemma NamesJoin(a: seq<Attr>, b: seq<Attr>)
    requires WellNamed(a) && WellNamed(b)
    ensures WellNamed(a + b)
  {
  }

  lemma ShapeWords()
    ensures IsName("name") && IsName("type") && IsName("nullable") && IsName("default")
    ensures IsName("key") && IsName("extra") && IsName("comment")
  {
  }

  lemma OneNamed(name: string, value: string, written: bool)
    requires IsName(name)
    ensures WellNamed(if written then [Attr(name, value)] else [])
  {
  }

  lemma FrontNamed(a: string, b: string, c: string)
    ensures WellNamed([Attr("name", a), Attr("type", b), Attr("nullable", c)])
  {
    ShapeWords();
    hide IsName;
  }

  lemma ShapeNames(c: Shape)
    ensures WellNamed(ShapeAttrs(c))
  {
    ShapeWords();
    FrontNamed(c.name, c.kind, if c.nullable then "true" else "false");
    hide WellNamed, IsName;
    var f := [Attr("name", c.name), Attr("type", c.kind), Attr("nullable", if c.nullable then "true" else "false")];
    var d := if c.default.Some? then [Attr("default", c.default.value)] else [];
    var k := if c.key != "" then [Attr("key", c.key)] else [];
    var e := if c.extra != "" then [Attr("extra", c.extra)] else [];
    var m := if c.comment != "" then [Attr("comment", c.comment)] else [];
    OneNamed("default", if c.default.Some? then c.default.value else "", c.default.Some?);
    OneNamed("key", c.key, c.key != "");
    OneNamed("extra", c.extra, c.extra != "");
    OneNamed("comment", c.comment, c.comment != "");
    NamesJoin(f, d);
    NamesJoin(f + d, k);
    NamesJoin(f + d + k, e);
    NamesJoin(f + d + k + e, m);
  }

  /** The tag of an element that holds nothing. */
  lemma OpensAndCloses(st: Reading, name: string, attrs: seq<Attr>, rest: string, skipBlank: bool)
    requires IsName(name) && Writable(attrs)
    ensures ReadOn(st, OpenTag(name, attrs, true) + rest, skipBlank) ==
            ReadOn(OnEnd(OnStart(st, name, Decoded(attrs)), name, skipBlank), rest, skipBlank)
  {
    hide Events, Fold, Decoded, OnStart, OnEnd, OpenTag, Writable;
    OpenRead(st, name, attrs, true, rest, skipBlank);
    assert TagEvents(Tag(false, name, attrs, true, "")) == [Start(name, Decoded(attrs)), End(name)];
    FoldTwo(st, Start(name, Decoded(attrs)), End(name), skipBlank);
  }

  /** An element the reader has no use for, on a line of its own. */
  lemma LinePassed(st: Reading, indent: string, name: string, attrs: seq<Attr>, rest: string, skipBlank: bool)
    requires '<' !in indent && st.column.None? && IsName(name) && Writable(attrs)
    requires OnStart(st, name, Decoded(attrs)) == st && OnEnd(st, name, skipBlank) == st
    ensures ReadOn(st, indent + OpenTag(name, attrs, true) + "\n" + rest, skipBlank) == ReadOn(st, rest, skipBlank)
  {
    hide ReadOn, OpenTag, OnStart, OnEnd, Decoded, Writable, IsName;
    var tag := OpenTag(name, attrs, true);
    RegroupText(indent, tag, "\n", rest);
    Ignored(st, indent, tag + ("\n" + rest), skipBlank);
    OpensAndCloses(st, name, attrs, "\n" + rest, skipBlank);
    Ignored(st, "\n", rest, skipBlank);
  }

  /** A column of a structure is no column of a row. */
  lemma ShapePassed(st: Reading, attrs: seq<Attr>, rest: string, skipBlank: bool)
    requires st.column.None? && st.inStructure && Writable(attrs)
    ensures ReadOn(st, "      " + OpenTag("column", attrs, true) + "\n" + rest, skipBlank) == ReadOn(st, rest, skipBlank)
  {
    assert OnStart(st, "column", Decoded(attrs)) == st && OnEnd(st, "column", skipBlank) == st;
    hide ReadOn, OpenTag, OnStart, OnEnd, Decoded, Writable;
    LinePassed(st, "      ", "column", attrs, rest, skipBlank);
  }

  lemma {:induction false} ShapesPassed(st: Reading, structure: seq<Shape>, rest: string, skipBlank: bool)
    requires st.column.None? && st.inStructure
    ensures ReadOn(st, Shapes(structure) + rest, skipBlank) == ReadOn(st, rest, skipBlank)
    decreases structure
  {
    hide ReadOn, ShapeAttrs, ShowAttrs, RawAttrs, Writable, WellNamed, Decoded, Raw, OpenTag, OnStart, OnEnd;
    if structure == [] {
      assert "" + rest == rest;
    } else {
      ShapesPassed(st, structure[1..], rest, skipBlank);
      var attrs := ShapeAttrs(structure[0]);
      ShapeNames(structure[0]);
      RawShown(attrs);
      ShapePassed(st, Raw(attrs), Shapes(structure[1..]) + rest, skipBlank);
      ShapeLine(attrs, Shapes(structure[1..]), rest);
    }
  }

  lemma ShapeLine(attrs: seq<Attr>, more: string, rest: string)
    requires ShowAttrs(attrs) == RawAttrs(Raw(attrs))
    ensures "      <column" + ShowAttrs(attrs) + "/>\n" + more + rest
         == "      " + OpenTag("column", Raw(attrs), true) + "\n" + (more + rest)
  {
    hide ShowAttrs, RawAttrs, Raw;
    var a := ShowAttrs(attrs);
    assert "      <column" + a + "/>\n" == "      " + ("<column" + a + "/>") + "\n";
    assert OpenTag("column", Raw(attrs), true) == "<column" + a + "/>";
    RegroupText("      <column" + a + "/>\n", more, rest, "");
    assert more + (rest + "") == more + rest;
  }

  /** A table's structure is not rows. */
  lemma StructurePassed(st: Reading, table: string, structure: seq<Shape>, rest: string, skipBlank: bool)
    requires InTable(st, table)
    ensures ReadOn(st, XmlStructure(structure) + rest, skipBlank) == ReadOn(st, rest, skipBlank)
  {
    hide ReadOn, Shapes, OpenTag, Writable, Decoded;
    NoAttrs();
    var in_ := st.(inStructure := true);
    var shapes := Shapes(structure);
    LineOpens(st, "    ", "structure", [], shapes + ("    </structure>\n" + rest), skipBlank);
    ShapesPassed(in_, structure, "    </structure>\n" + rest, skipBlank);
    LineCloses(in_, "    ", "structure", rest, skipBlank);
    StructureText(shapes, rest);
    assert OnStart(st, "structure", []) == in_ && OnEnd(in_, "structure", skipBlank) == st;
  }

  lemma StructureText(text: string, rest: string)
    ensures "    <structure>\n" + text + "    </structure>\n" + rest
         == "    " + OpenTag("structure", [], false) + "\n" + (text + ("    " + ("</" + "structure" + ">") + "\n" + rest))
    ensures "    </structure>\n" + rest == "    " + ("</" + "structure" + ">") + "\n" + rest
  {
    NoAttrs();
    assert OpenTag("structure", [], false) == "<structure>";
    assert "    " + "<structure>" + "\n" == "    <structure>\n";
    assert "    " + ("</" + "structure" + ">") + "\n" == "    </structure>\n";
    RegroupText("    <structure>\n", text, "    </structure>\n", rest);
  }

  /** Outside every table. */
  predicate Between(st: Reading) {
    st.row.None? && st.column.None? && !st.inStructure
  }

  predicate Unused(name: string) {
    IsName(name) && name != "table" && name != "structure" && name != "row" && name != "column"
  }

  lemma UnusedPassed(st: Reading, name: string, attrs: seq<Attr>, skipBlank: bool)
    requires Unused(name)
    ensures OnStart(st, name, attrs) == st && OnEnd(st, name, skipBlank) == st
  {
  }

  /** An element with text in it that the reader has no use for. */
  lemma TextPassedOver(st: Reading, indent: string, name: string, attrs: seq<Attr>, text: string, rest: string, skipBlank: bool)
    requires Between(st) && Unused(name) && Writable(attrs) && '<' !in indent && '<' !in text
    ensures ReadOn(st, indent + OpenTag(name, attrs, false) + text + ("</" + name + ">") + ("\n" + rest), skipBlank)
         == ReadOn(st, rest, skipBlank)
  {
    UnusedPassed(st, name, Decoded(attrs), skipBlank);
    hide ReadOn, OpenTag, OnStart, OnEnd, Decoded, Writable;
    var tag, close := OpenTag(name, attrs, false), "</" + name + ">";
    RegroupText(indent + tag, text, close, "\n" + rest);
    var inner := text + (close + ("\n" + rest));
    assert indent + tag + inner == indent + (tag + inner);
    Ignored(st, indent, tag + inner, skipBlank);
    Opens(st, name, attrs, inner, skipBlank);
    Ignored(st, text, close + ("\n" + rest), skipBlank);
    CloseRead(st, name, "\n" + rest, skipBlank);
    Ignored(st, "\n", rest, skipBlank);
  }

  lemma EscapedIsText(sql: string)
    ensures '<' !in XmlEscape(sql)
  {
    EscapeIsPlain(sql);
  }

  function DefinitionAttrs(base64: bool): seq<Attr> {
    if base64 then [Attr("encoding", "base64")] else []
  }

  lemma TextLine(indent: string, name: string, attrs: string, text: string, rest: string)
    ensures indent + "<" + name + attrs + ">" + text + ("</" + name + ">\n") + rest
         == indent + ("<" + name + attrs + ">") + text + ("</" + name + ">") + ("\n" + rest)
  {
    var open, close := "<" + name + attrs + ">", "</" + name + ">";
    assert indent + "<" + name + attrs + ">" == indent + open;
    assert "</" + name + ">\n" == close + "\n";
    var front := indent + open + text;
    assert front + (close + "\n") + rest == front + close + ("\n" + rest);
  }

  lemma DefinitionText(b64: string -> string, sql: string, rest: string)
    ensures XmlDefinition(b64, sql) + rest
         == "      " + OpenTag("definition", DefinitionAttrs(XmlUnrepresentable(sql)), false)
            + (if XmlUnrepresentable(sql) then b64(sql) else XmlEscape(sql)) + ("</" + "definition" + ">") + ("\n" + rest)
  {
    NoAttrs();
    TwoAttrs(Attr("encoding", "base64"), Attr("encoding", "base64"));
    hide XmlUnrepresentable, XmlEscape, Attribute, RawAttrs;
    assert "      " + "<" + "definition" == "      <definition" && "</" + "definition" + ">\n" == "</definition>\n";
    if XmlUnrepresentable(sql) {
      TextLine("      ", "definition", Attribute("encoding", "base64"), b64(sql), rest);
    } else {
      assert "      " + "<" + "definition" + "" + ">" == "      <definition>";
      TextLine("      ", "definition", "", XmlEscape(sql), rest);
    }
  }

  lemma DefinitionPassed(st: Reading, b64: string -> string, sql: string, rest: string, skipBlank: bool)
    requires Between(st) && IsBase64(b64(sql))
    ensures ReadOn(st, XmlDefinition(b64, sql) + rest, skipBlank) == ReadOn(st, rest, skipBlank)
  {
    NoAttrs();
    Base64Plain(b64(sql));
    EscapedIsText(sql);
    DefinitionText(b64, sql, rest);
    EncodingIsWritable();
    hide ReadOn, XmlUnrepresentable, XmlEscape, OpenTag, XmlDefinition, Writable;
    var base64 := XmlUnrepresentable(sql);
    var attrs := DefinitionAttrs(base64);
    TextPassedOver(st, "      ", "definition", attrs, if base64 then b64(sql) else XmlEscape(sql), rest, skipBlank);
  }

  lemma EncodingIsWritable()
    ensures Writable([Attr("encoding", "base64")])
  {
  }

  /** A kind of object: its name, and the name of the list of its kind. */
  predicate IsKind(kind: string) {
    Unused(kind) && Unused(kind + "s")
  }

  lemma Kinds()
    ensures IsKind("view") && IsKind("routine") && IsKind("trigger")
  {
    assert "view" + "s" == "views" && "routine" + "s" == "routines" && "trigger" + "s" == "triggers";
  }

  lemma TagLine(indent: string, name: string, attrs: seq<Attr>, rest: string)
    ensures indent + "<" + name + RawAttrs(attrs) + ">\n" + rest == indent + OpenTag(name, attrs, false) + "\n" + rest
    ensures indent + "</" + name + ">\n" + rest == indent + ("</" + name + ">") + "\n" + rest
  {
    hide RawAttrs;
    var a := RawAttrs(attrs);
    assert indent + "<" + name + a + ">\n" == indent + ("<" + name + a + ">") + "\n";
    assert indent + "</" + name + ">\n" == indent + ("</" + name + ">") + "\n";
  }

  /** A line with a tag the reader has no use for. */
  lemma UnusedLines(st: Reading, indent: string, name: string, attrs: seq<Attr>, rest: string, skipBlank: bool)
    requires Between(st) && Unused(name) && Writable(attrs) && '<' !in indent
    ensures ReadOn(st, indent + "<" + name + RawAttrs(attrs) + ">\n" + rest, skipBlank) == ReadOn(st, rest, skipBlank)
    ensures ReadOn(st, indent + "</" + name + ">\n" + rest, skipBlank) == ReadOn(st, rest, skipBlank)
  {
    UnusedPassed(st, name, Decoded(attrs), skipBlank);
    TagLine(indent, name, attrs, rest);
    hide ReadOn, OpenTag, OnStart, OnEnd, Decoded, Writable, RawAttrs;
    LineOpens(st, indent, name, attrs, rest, skipBlank);
    LineCloses(st, indent, name, rest, skipBlank);
  }

  lemma UnreadablePassed(st: Reading, rest: string, skipBlank: bool)
    requires Between(st)
    ensures ReadOn(st, "      <unreadable/>\n" + rest, skipBlank) == ReadOn(st, rest, skipBlank)
  {
    NoAttrs();
    UnusedPassed(st, "unreadable", [], skipBlank);
    assert OpenTag("unreadable", [], true) == "<unreadable/>";
    assert "      " + "<unreadable/>" + "\n" == "      <unreadable/>\n";
    hide ReadOn, OpenTag, OnStart, OnEnd;
    LinePassed(st, "      ", "unreadable", [], rest, skipBlank);
  }

  lemma ObjectPassed(st: Reading, b64: string -> string, kind: string, o: Object, rest: string, skipBlank: bool)
    requires Between(st) && IsKind(kind) && WellNamed(o.attrs) && forall s :: IsBase64(b64(s))
    ensures ReadOn(st, XmlObject(b64, kind, o) + rest, skipBlank) == ReadOn(st, rest, skipBlank)
  {
    RawEscapedShown(o.attrs);
    hide ReadOn, XmlDefinition, RawAttrs, RawEscaped, EscapedAttrs, Writable, WellNamed, IsBase64, IsName;
    var raw := RawEscaped(o.attrs);
    var inner := if o.definition.Some? then XmlDefinition(b64, o.definition.value) else "      <unreadable/>\n";
    var end := "    </" + kind + ">\n" + rest;
    UnusedLines(st, "    ", kind, raw, inner + end, skipBlank);
    UnusedLines(st, "    ", kind, raw, rest, skipBlank);
    if o.definition.Some? {
      DefinitionPassed(st, b64, o.definition.value, end, skipBlank);
    } else {
      UnreadablePassed(st, end, skipBlank);
    }
    ObjectText(kind, RawAttrs(raw), inner, rest);
  }

  lemma ObjectText(kind: string, attrs: string, inner: string, rest: string)
    ensures "    <" + kind + attrs + ">\n" + inner + "    </" + kind + ">\n" + rest
         == "    " + "<" + kind + attrs + ">\n" + (inner + ("    " + "</" + kind + ">\n" + rest))
    ensures "    </" + kind + ">\n" + rest == "    " + "</" + kind + ">\n" + rest
  {
    assert "    " + "<" == "    <" && "    " + "</" == "    </";
    var front := "    <" + kind + attrs + ">\n";
    assert front + inner + "    </" + kind + ">\n" + rest == front + (inner + ("    </" + kind + ">\n" + rest));
  }

  lemma {:induction false} ObjectLinesPassed(st: Reading, b64: string -> string, kind: string, os: seq<Object>, rest: string,
                                             skipBlank: bool)
    requires Between(st) && IsKind(kind) && (forall o <- os :: WellNamed(o.attrs)) && forall s :: IsBase64(b64(s))
    ensures ReadOn(st, ObjectLines(b64, kind, os) + rest, skipBlank) == ReadOn(st, rest, skipBlank)
    decreases os
  {
    hide ReadOn, XmlObject, IsKind, WellNamed, IsBase64;
    if os == [] {
      assert "" + rest == rest;
    } else {
      var more := ObjectLines(b64, kind, os[1..]);
      ObjectLinesPassed(st, b64, kind, os[1..], rest, skipBlank);
      ObjectPassed(st, b64, kind, os[0], more + rest, skipBlank);
      assert XmlObject(b64, kind, os[0]) + more + rest == XmlObject(b64, kind, os[0]) + (more + rest);
    }
  }

  lemma ObjectsPassed(st: Reading, b64: string -> string, kind: string, os: seq<Object>, rest: string, skipBlank: bool)
    requires Between(st) && IsKind(kind) && (forall o <- os :: WellNamed(o.attrs)) && forall s :: IsBase64(b64(s))
    ensures ReadOn(st, XmlObjects(b64, kind, os) + rest, skipBlank) == ReadOn(st, rest, skipBlank)
  {
    NoAttrs();
    hide ReadOn, ObjectLines, WellNamed, IsBase64, RawAttrs, Writable, IsName;
    if os == [] {
      assert "" + rest == rest;
    } else {
      var inner := ObjectLines(b64, kind, os);
      var end := "  </" + kind + "s>\n" + rest;
      ObjectsText(kind, inner, rest);
      UnusedLines(st, "  ", kind + "s", [], inner + end, skipBlank);
      ObjectLinesPassed(st, b64, kind, os, end, skipBlank);
      UnusedLines(st, "  ", kind + "s", [], rest, skipBlank);
    }
  }

  lemma ObjectsText(kind: string, inner: string, rest: string)
    ensures var end := "  </" + kind + "s>\n" + rest;
            "  <" + kind + "s>\n" + inner + "  </" + kind + "s>\n" + rest == "  " + "<" + (kind + "s") + "" + ">\n" + (inner + end)
            && end == "  " + "</" + (kind + "s") + ">\n" + rest
  {
    assert "  " + "<" == "  <" && "  " + "</" == "  </";
    assert "  <" + kind + "s>\n" == "  <" + (kind + "s") + "" + ">\n";
    assert "  </" + kind + "s>\n" == "  </" + (kind + "s") + ">\n";
    var front := "  <" + kind + "s>\n";
    assert front + inner + "  </" + kind + "s>\n" + rest == front + (inner + ("  </" + kind + "s>\n" + rest));
  }

  // ---------------------------------------------------------------------------------------------------------------
  // Reading the file
  // ---------------------------------------------------------------------------------------------------------------

  /** The state after a table of the file. */
  function AfterTable(st: Reading, b64: string -> string, t: Table): Reading
    requires Squared(t)
  {
    st.(table := t.name, direct := None, tables := AddRows(st.tables, t.name, ReadRows(b64, t.columns, t.rows)))
  }

  lemma TableLine(name: string, rest: string)
    ensures "  <table" + Attribute("name", XmlEscape(name)) + ">\n" + rest
         == "  " + OpenTag("table", [NameAttr(name)], false) + "\n" + rest
    ensures "  </table>\n" + rest == "  " + ("</" + "table" + ">") + "\n" + rest
  {
    TwoAttrs(NameAttr(name), NameAttr(name));
    hide Attribute, XmlEscape, RawAttrs;
    var a := Attribute("name", XmlEscape(name));
    assert "  <table" + a + ">\n" == "  " + ("<table" + a + ">") + "\n";
    assert "  </table>\n" == "  " + ("</" + "table" + ">") + "\n";
  }

  /** A table's line begins it. */
  lemma TableBegins(st: Reading, name: string, rest: string, skipBlank: bool)
    requires Between(st)
    ensures ReadOn(st, "  <table" + Attribute("name", XmlEscape(name)) + ">\n" + rest, skipBlank) ==
            ReadOn(st.(table := name, direct := Some([])), rest, skipBlank)
  {
    NameIsWritable(name);
    DecodedTwo(name, Attr("null", "true"));
    ValueOfTwo(Attr("name", name), Attr("name", name), "name");
    TableLine(name, rest);
    hide ReadOn, OpenTag, Writable, Decoded, NameAttr, Attribute, XmlEscape, ValueOf;
    assert OnStart(st, "table", [Attr("name", name)]) == st.(table := name, direct := Some([]));
    LineOpens(st, "  ", "table", [NameAttr(name)], rest, skipBlank);
  }

  lemma TableEnds(st: Reading, rest: string, skipBlank: bool)
    requires st.column.None? && st.direct == Some([])
    ensures ReadOn(st, "  </table>\n" + rest, skipBlank) == ReadOn(st.(direct := None), rest, skipBlank)
  {
    TableLine("", rest);
    hide ReadOn, OpenTag;
    LineCloses(st, "  ", "table", rest, skipBlank);
  }

  lemma TableReads(st: Reading, b64: string -> string, t: Table, structure: bool, rest: string, skipBlank: bool)
    requires Between(st) && Exportable(t) && forall s :: IsBase64(b64(s))
    ensures XmlTable(b64, t, Parts(structure, true)).Some?
    ensures ReadOn(st, XmlTable(b64, t, Parts(structure, true)).value + rest, skipBlank) ==
            ReadOn(AfterTable(st, b64, t), rest, skipBlank)
  {
    hide ReadOn, XmlRows, XmlStructure, AddRows, ReadRows, Attribute, XmlEscape, IsBase64, Readable, Distinct;
    var in_ := st.(table := t.name, direct := Some([]));
    var full := in_.(tables := AddRows(st.tables, t.name, ReadRows(b64, t.columns, t.rows)));
    var end := "  </table>\n" + rest;
    RowsRead(in_, t.name, b64, t.columns, t.rows, end, skipBlank);
    var front := "  <table" + Attribute("name", XmlEscape(t.name)) + ">\n";
    var s := if structure then XmlStructure(t.structure) else "";
    var rows := XmlRows(b64, t.columns, t.rows).value;
    TableBegins(st, t.name, s + (rows + end), skipBlank);
    if structure { StructurePassed(in_, t.name, t.structure, rows + end, skipBlank); } else { assert "" + (rows + end) == rows + end; }
    TableEnds(full, rest, skipBlank);
    TableText(front, s, rows, "  </table>\n", rest);
  }

  lemma TableText(front: string, s: string, rows: string, end: string, rest: string)
    ensures front + s + rows + end + rest == front + (s + (rows + (end + rest)))
  {
  }

  function AfterTables(st: Reading, b64: string -> string, tables: seq<Table>): Reading
    requires forall t <- tables :: Squared(t)
    decreases tables
  {
    if tables == [] then st else AfterTables(AfterTable(st, b64, tables[0]), b64, tables[1..])
  }

  lemma {:induction false} TablesRead(st: Reading, b64: string -> string, tables: seq<Table>, structure: bool, rest: string, skipBlank: bool)
    requires Between(st) && (forall t <- tables :: Squared(t) && Exportable(t)) && forall s :: IsBase64(b64(s))
    ensures XmlTables(b64, tables, Parts(structure, true)).Some? && Between(AfterTables(st, b64, tables))
    ensures ReadOn(st, XmlTables(b64, tables, Parts(structure, true)).value + rest, skipBlank) ==
            ReadOn(AfterTables(st, b64, tables), rest, skipBlank)
    decreases tables
  {
    hide ReadOn, XmlTable, AddRows, ReadRows, IsBase64, Readable, Distinct;
    if tables == [] {
      assert "" + rest == rest;
    } else {
      var parts := Parts(structure, true);
      TablesRead(AfterTable(st, b64, tables[0]), b64, tables[1..], structure, rest, skipBlank);
      var more := XmlTables(b64, tables[1..], parts).value + rest;
      TableReads(st, b64, tables[0], structure, more, skipBlank);
      var first := XmlTable(b64, tables[0], parts).value;
      assert first + XmlTables(b64, tables[1..], parts).value + rest == first + more;
    }
  }

  lemma InstructionText(inner: string)
    requires inner == "xml version=\"1.0\" encoding=\"UTF-8\""
    ensures INSTRUCTION == "<?" + inner + "?>" && '?' !in inner
  {
  }

  lemma InstructionTaken(inner: string, rest: string)
    requires '?' !in inner
    ensures var s := "<?" + inner + "?>" + rest; TakeMarkup(s).Some? && TakeMarkup(s).value.0 == [] && TakeMarkup(s).value.1 == rest
  {
    var s := "<?" + inner + "?>" + rest;
    assert s[1] == '?';
    assert s[2..] == inner + ("?>" + rest);
    AfterFound(inner, rest);
    hide After;
  }

  lemma InstructionPassed(st: Reading, rest: string, skipBlank: bool)
    ensures ReadOn(st, INSTRUCTION + rest, skipBlank) == ReadOn(st, rest, skipBlank)
  {
    var inner := "xml version=\"1.0\" encoding=\"UTF-8\"";
    InstructionText(inner);
    InstructionTaken(inner, rest);
    hide TakeMarkup, INSTRUCTION, Events;
    ReadTakes(st, INSTRUCTION + rest, skipBlank);
  }

  lemma {:induction false} AfterFound(t: string, rest: string)
    requires '?' !in t
    ensures After(t + ("?>" + rest), "?>") == rest
    decreases t
  {
    if t == "" {
      assert t + ("?>" + rest) == "?>" + rest;
      assert ("?>" + rest)[2..] == rest;
    } else {
      assert (t + ("?>" + rest))[1..] == t[1..] + ("?>" + rest);
      assert (t + ("?>" + rest))[0] == t[0] && t[0] in t;
      AfterFound(t[1..], rest);
    }
  }

  function ExportAttrs(database: string, schema: Option<string>): seq<Attr> {
    [Attr("database", XmlEscape(database))]
    + if schema.Some? && schema.value != "" then [Attr("schema", XmlEscape(schema.value))] else []
  }

  lemma ExportAttrsShown(database: string, schema: Option<string>)
    ensures Writable(ExportAttrs(database, schema))
    ensures RawAttrs(ExportAttrs(database, schema)) ==
            Attribute("database", XmlEscape(database))
            + if schema.Some? && schema.value != "" then Attribute("schema", XmlEscape(schema.value)) else ""
  {
    EscapeIsPlain(database);
    if schema.Some? { EscapeIsPlain(schema.value); }
    var d := Attr("database", XmlEscape(database));
    var c := Attr("schema", if schema.Some? then XmlEscape(schema.value) else "");
    TwoAttrs(d, c);
    hide XmlEscape, Attribute, RawAttrs;
    assert [d] + [c] == [d, c];
  }

  lemma ExportLine(database: string, schema: Option<string>, rest: string)
    ensures Prologue(database, schema) + rest ==
            INSTRUCTION + ("\n" + "<" + "export" + RawAttrs(ExportAttrs(database, schema)) + ">\n" + rest)
  {
    ExportAttrsShown(database, schema);
    hide XmlEscape, Attribute, RawAttrs, INSTRUCTION, ExportAttrs;
    var d := Attribute("database", XmlEscape(database));
    var c := if schema.Some? && schema.value != "" then Attribute("schema", XmlEscape(schema.value)) else "";
    assert "\n" + "<" + "export" == "\n<export";
    ExportText("\n<export", d, c, rest);
  }

  lemma ExportText(front: string, d: string, c: string, rest: string)
    ensures INSTRUCTION + front + d + c + ">\n" + rest == INSTRUCTION + (front + (d + c) + ">\n" + rest)
  {
    hide INSTRUCTION;
  }

  lemma ProloguePassed(st: Reading, database: string, schema: Option<string>, rest: string, skipBlank: bool)
    requires Between(st)
    ensures ReadOn(st, Prologue(database, schema) + rest, skipBlank) == ReadOn(st, rest, skipBlank)
  {
    ExportLine(database, schema, rest);
    ExportAttrsShown(database, schema);
    hide INSTRUCTION, ReadOn, Prologue, RawAttrs, ExportAttrs, Writable;
    InstructionPassed(st, "\n" + "<" + "export" + RawAttrs(ExportAttrs(database, schema)) + ">\n" + rest, skipBlank);
    UnusedLines(st, "\n", "export", ExportAttrs(database, schema), rest, skipBlank);
  }

  lemma FileEnds(st: Reading, skipBlank: bool)
    requires Between(st)
    ensures ReadOn(st, "</export>\n", skipBlank) == st
  {
    NoAttrs();
    assert "" + "</" + "export" + ">\n" + "" == "</export>\n";
    assert ReadOn(st, "", skipBlank) == st;
    hide ReadOn, RawAttrs;
    UnusedLines(st, "", "export", [], "", skipBlank);
  }

  predicate NamedObjects(objects: Objects) {
    && (forall o <- objects.views :: WellNamed(o.attrs)) && (forall o <- objects.routines :: WellNamed(o.attrs))
    && forall o <- objects.triggers :: WellNamed(o.attrs)
  }

  /** The whole file leaves exactly the tables' rows. */
  lemma BodyReads(b64: string -> string, database: string, schema: Option<string>, tables: seq<Table>, structure: bool,
                  objects: Objects, skipBlank: bool)
    requires (forall t <- tables :: Squared(t) && Exportable(t)) && (forall s :: IsBase64(b64(s))) && NamedObjects(objects)
    ensures var body := XmlBody(b64, database, schema, tables, Parts(structure, true), objects);
            body.Some? && ReadOn(START, body.value, skipBlank) == AfterTables(START, b64, tables)
  {
    hide ReadOn, Prologue, XmlTables, XmlObjects, AfterTables, IsBase64, WellNamed, Squared;
    var parts := Parts(structure, true);
    Kinds();
    var v, r, t := XmlObjects(b64, "view", objects.views), XmlObjects(b64, "routine", objects.routines),
                   XmlObjects(b64, "trigger", objects.triggers);
    var end := "</export>\n";
    TablesRead(START, b64, tables, structure, v + (r + (t + end)), skipBlank);
    var body := XmlTables(b64, tables, parts).value;
    ProloguePassed(START, database, schema, body + (v + (r + (t + end))), skipBlank);
    var st := AfterTables(START, b64, tables);
    ObjectsPassed(st, b64, "view", objects.views, r + (t + end), skipBlank);
    ObjectsPassed(st, b64, "routine", objects.routines, t + end, skipBlank);
    ObjectsPassed(st, b64, "trigger", objects.triggers, end, skipBlank);
    FileEnds(st, skipBlank);
    var p := Prologue(database, schema);
    FileText(p, body, v, r, t, end);
  }

  lemma FileText(p: string, body: string, v: string, r: string, t: string, end: string)
    ensures p + body + v + r + t + end == p + (body + (v + (r + (t + end))))
  {
  }

  // ---------------------------------------------------------------------------------------------------------------
  // The round trip
  // ---------------------------------------------------------------------------------------------------------------

  function ReadCells(b64: string -> string, row: seq<Cell>): (r: seq<RowCell>)
    ensures |r| == |row|
  {
    if row == [] then [] else [ReadBack(b64, row[0])] + ReadCells(b64, row[1..])
  }

  function ReadCellRows(b64: string -> string, rows: seq<seq<Cell>>): (r: seq<seq<RowCell>>)
    ensures |r| == |rows|
  {
    if rows == [] then [] else [ReadCells(b64, rows[0])] + ReadCellRows(b64, rows[1..])
  }

  /** The tables as they should be read: those with rows, in order, each with its columns and its values. */
  function Expected(b64: string -> string, tables: seq<Table>): seq<TableRead> {
    if tables == [] then []
    else
      (if tables[0].rows == [] then []
       else [TableRead(tables[0].name, tables[0].columns, ReadCellRows(b64, tables[0].rows))])
      + Expected(b64, tables[1..])
  }

  /** The rows as they are gathered. */
  function Gathered(b64: string -> string, tables: seq<Table>): seq<TableRows>
    requires forall t <- tables :: Squared(t)
  {
    if tables == [] then [] else GatheredOne(b64, tables[0]) + Gathered(b64, tables[1..])
  }

  function GatheredOne(b64: string -> string, t: Table): seq<TableRows>
    requires Squared(t)
  {
    if t.rows == [] then [] else [TableRows(t.name, t.columns, ReadRows(b64, t.columns, t.rows))]
  }

  predicate NoTable(tables: seq<TableRows>, name: string) {
    forall t <- tables :: t.name != name
  }

  lemma {:induction false} FirstRow(tables: seq<TableRows>, name: string, row: Row)
    requires NoTable(tables, name)
    ensures AddRow(tables, name, row) == tables + [TableRows(name, WithNames([], row), [row])]
    decreases tables
  {
    hide WithNames;
    if tables != [] {
      assert tables[0] in tables;
      FirstRow(tables[1..], name, row);
    }
  }

  lemma {:induction false} NextRow(tables: seq<TableRows>, name: string, header: seq<string>, rows: seq<Row>, row: Row)
    requires NoTable(tables, name)
    ensures AddRow(tables + [TableRows(name, header, rows)], name, row)
         == tables + [TableRows(name, WithNames(header, row), rows + [row])]
    decreases tables
  {
    hide WithNames;
    var all := tables + [TableRows(name, header, rows)];
    if tables == [] {
      assert all[1..] == [];
    } else {
      assert tables[0] in tables;
      NextRow(tables[1..], name, header, rows, row);
      assert all[1..] == tables[1..] + [TableRows(name, header, rows)];
    }
  }

  /** The names of a row are its columns: they make the header, and add nothing to one that has them. */
  lemma {:induction false} RowNames(b64: string -> string, columns: seq<string>, cells: seq<Cell>, header: seq<string>)
    requires |columns| == |cells| && Distinct(columns)
    requires (forall n <- columns :: n !in header) || (forall n <- columns :: n in header)
    ensures WithNames(header, ReadRow(b64, columns, cells)) ==
            if columns != [] && columns[0] in header then header else header + columns
    decreases columns
  {
    if columns == [] {
      assert header + columns == header;
    } else {
      var row := ReadRow(b64, columns, cells);
      assert row[1..] == ReadRow(b64, columns[1..], cells[1..]);
      var next := if columns[0] in header then header else header + [columns[0]];
      assert columns[0] in columns;
      forall i | 0 <= i < |columns[1..]| ensures columns[1..][i] == columns[i + 1] != columns[0] {}
      RowNames(b64, columns[1..], cells[1..], next);
      assert header + [columns[0]] + columns[1..] == header + columns;
      if columns[0] in header && |columns| == 1 { assert header + columns[1..] == header; }
      if columns[0] !in header && |columns| > 1 { assert columns[1] in columns && columns[1] != columns[0]; }
    }
  }

  lemma {:induction false} RowsGathered(b64: string -> string, before: seq<TableRows>, name: string, columns: seq<string>,
                                        done: seq<Row>, rows: seq<seq<Cell>>)
    requires NoTable(before, name) && Distinct(columns) && |columns| > 0 && forall row <- rows :: |row| == |columns|
    ensures AddRows(before + [TableRows(name, columns, done)], name, ReadRows(b64, columns, rows))
         == before + [TableRows(name, columns, done + ReadRows(b64, columns, rows))]
    decreases rows
  {
    var all := ReadRows(b64, columns, rows);
    if rows == [] {
      assert done + all == done;
    } else {
      assert all[1..] == ReadRows(b64, columns, rows[1..]);
      NextRow(before, name, columns, done, all[0]);
      RowNames(b64, columns, rows[0], columns);
      RowsGathered(b64, before, name, columns, done + [all[0]], rows[1..]);
      assert done + [all[0]] + all[1..] == done + all;
    }
  }

  lemma TableGathered(b64: string -> string, before: seq<TableRows>, t: Table)
    requires NoTable(before, t.name) && Squared(t) && Exportable(t)
    ensures AddRows(before, t.name, ReadRows(b64, t.columns, t.rows)) == before + GatheredOne(b64, t)
  {
    var all := ReadRows(b64, t.columns, t.rows);
    if t.rows == [] {
      assert before + [] == before;
    } else {
      assert all[1..] == ReadRows(b64, t.columns, t.rows[1..]);
      FirstRow(before, t.name, all[0]);
      RowNames(b64, t.columns, t.rows[0], []);
      assert [] + t.columns == t.columns;
      RowsGathered(b64, before, t.name, t.columns, [all[0]], t.rows[1..]);
      assert [all[0]] + all[1..] == all;
    }
  }

  predicate DistinctNames(tables: seq<Table>) {
    forall i, j :: 0 <= i < j < |tables| ==> tables[i].name != tables[j].name
  }

  lemma TableKeepsOthers(b64: string -> string, before: seq<TableRows>, t: Table, name: string)
    requires Squared(t) && NoTable(before, name) && name != t.name
    ensures NoTable(before + GatheredOne(b64, t), name)
  {
  }

  lemma {:induction false} TablesGathered(st: Reading, b64: string -> string, tables: seq<Table>)
    requires (forall t <- tables :: Squared(t) && Exportable(t)) && DistinctNames(tables)
    requires forall t <- tables :: NoTable(st.tables, t.name)
    ensures AfterTables(st, b64, tables).tables == st.tables + Gathered(b64, tables)
    decreases tables
  {
    hide AddRows, ReadRows, Exportable, Squared, GatheredOne, NoTable;
    if tables == [] {
      assert st.tables + [] == st.tables;
    } else {
      var t := tables[0];
      assert t in tables;
      var next := AfterTable(st, b64, t);
      TableGathered(b64, st.tables, t);
      forall u | u in tables[1..] ensures NoTable(next.tables, u.name) {
        var i :| 0 <= i < |tables[1..]| && tables[1..][i] == u;
        assert tables[0].name != tables[i + 1].name && tables[i + 1] in tables;
        TableKeepsOthers(b64, st.tables, t, u.name);
      }
      assert DistinctNames(tables[1..]);
      TablesGathered(next, b64, tables[1..]);
      assert st.tables + GatheredOne(b64, t) + Gathered(b64, tables[1..]) == st.tables + Gathered(b64, tables);
    }
  }

  lemma {:induction false} CellFound(b64: string -> string, columns: seq<string>, cells: seq<Cell>, extra: Row, header: seq<string>)
    requires |columns| == |cells| && Distinct(columns) && header == columns && forall n <- columns :: Lacks(extra, n)
    ensures CellsOf(header, extra + ReadRow(b64, columns, cells)) == ReadCells(b64, cells)
    decreases columns
  {
    hide ReadBack;
    if columns != [] {
      var row, first := ReadRow(b64, columns, cells), (columns[0], ReadBack(b64, cells[0]));
      assert columns[0] in columns;
      CellPast(extra, row, columns[0]);
      assert extra + row == extra + [first] + ReadRow(b64, columns[1..], cells[1..]);
      forall n | n in columns[1..] ensures Lacks(extra + [first], n) {
        var i :| 0 <= i < |columns[1..]| && columns[1..][i] == n;
        assert columns[0] != columns[i + 1] && columns[i + 1] in columns;
      }
      CellFound(b64, columns[1..], cells[1..], extra + [first], header[1..]);
    }
  }

  lemma {:induction false} CellPast(extra: Row, row: Row, name: string)
    requires Lacks(extra, name)
    ensures CellOf(extra + row, name) == CellOf(row, name)
    decreases extra
  {
    if extra == [] {
      assert extra + row == row;
    } else {
      assert extra[0] in extra;
      assert (extra + row)[1..] == extra[1..] + row;
      CellPast(extra[1..], row, name);
    }
  }

  lemma {:induction false} RowsFilled(b64: string -> string, columns: seq<string>, rows: seq<seq<Cell>>)
    requires Distinct(columns) && forall row <- rows :: |row| == |columns|
    ensures RowsOf(columns, ReadRows(b64, columns, rows)) == ReadCellRows(b64, rows)
    decreases rows
  {
    hide ReadBack, Distinct;
    if rows != [] {
      assert ReadRows(b64, columns, rows)[1..] == ReadRows(b64, columns, rows[1..]);
      RowsFilled(b64, columns, rows[1..]);
      assert [] + ReadRow(b64, columns, rows[0]) == ReadRow(b64, columns, rows[0]);
      CellFound(b64, columns, rows[0], [], columns);
    }
  }

  lemma OneFilled(b64: string -> string, t: Table, more: seq<TableRows>)
    requires Squared(t) && Exportable(t)
    ensures Filled(GatheredOne(b64, t) + more) ==
            (if t.rows == [] then [] else [TableRead(t.name, t.columns, ReadCellRows(b64, t.rows))]) + Filled(more)
  {
    RowsFilled(b64, t.columns, t.rows);
    hide ReadRows, ReadCellRows, RowsOf;
    var one := GatheredOne(b64, t);
    if t.rows == [] {
      assert one + more == more;
      assert [] + Filled(more) == Filled(more);
    } else {
      assert (one + more)[1..] == more;
    }
  }

  lemma {:induction false} GatheredFilled(b64: string -> string, tables: seq<Table>)
    requires forall t <- tables :: Squared(t) && Exportable(t)
    ensures Filled(Gathered(b64, tables)) == Expected(b64, tables)
    decreases tables
  {
    hide ReadCellRows, GatheredOne, Squared, Exportable;
    if tables != [] {
      assert tables[0] in tables;
      GatheredFilled(b64, tables[1..]);
      OneFilled(b64, tables[0], Gathered(b64, tables[1..]));
    }
  }

  /**
   * The rows of an export come back as they were: the same tables with rows, in order, with their columns, and every
   * value as `ReadBack` says; whether the structure and the definitions of other objects are written as well makes no
   * difference.
   */
  lemma RowsComeBack(b64: string -> string, database: string, schema: Option<string>, tables: seq<Table>, structure: bool,
                     objects: Objects, skipBlank: bool)
    requires (forall t <- tables :: Squared(t) && Exportable(t)) && DistinctNames(tables)
    requires (forall s :: IsBase64(b64(s))) && NamedObjects(objects)
    ensures var body := XmlBody(b64, database, schema, tables, Parts(structure, true), objects);
            body.Some? && TablesOf(body.value, skipBlank) == Expected(b64, tables)
  {
    hide XmlBody, AfterTables, Gathered, Expected, Filled, Exportable, Squared, IsBase64, NamedObjects;
    BodyReads(b64, database, schema, tables, structure, objects, skipBlank);
    TablesGathered(START, b64, tables);
    assert START.tables + Gathered(b64, tables) == Gathered(b64, tables);
    GatheredFilled(b64, tables);
  }

  /** NULL, text (the empty one too) and bytes are read apart, and each from others of its kind. */
  lemma KeptApart(b64: string -> string, unb64: string -> string, a: Cell, b: Cell)
    requires Readable(a) && Readable(b) && ReadBack(b64, a) == ReadBack(b64, b)
    requires forall s :: unb64(b64(s)) == s
    ensures a.Null? <==> b.Null?
    ensures (a.Text? || a.Shown?) && (b.Text? || b.Shown?) ==> a.text == b.text
    ensures a.Binary? && b.Binary? ==> a.bin == b.bin
    ensures a.Binary? && (b.Text? || b.Shown?) ==> XmlUnrepresentable(b.text) && a.bin == b64(b.text)
  {
    if (a.Text? || a.Shown?) && (b.Text? || b.Shown?) {
      assert unb64(b64(a.text)) == a.text && unb64(b64(b.text)) == b.text;
    }
  }

  predicate RowCut(row: seq<Cell>) {
    exists cell <- row :: cell.Truncated?
  }

  predicate HasCut(t: Table) {
    exists row <- t.rows :: RowCut(row)
  }

  lemma {:induction false} CutRow(b64: string -> string, columns: seq<string>, row: seq<Cell>)
    requires |columns| == |row|
    ensures Columns(b64, columns, row).None? <==> RowCut(row)
    decreases columns
  {
    if columns != [] {
      CutRow(b64, columns[1..], row[1..]);
      assert row == [row[0]] + row[1..];
      hide Columns, XmlColumn;
      CutCell(b64, columns, row);
    }
  }

  lemma CutCell(b64: string -> string, columns: seq<string>, row: seq<Cell>)
    requires |columns| == |row| > 0
    ensures Columns(b64, columns, row).None? <==> row[0].Truncated? || Columns(b64, columns[1..], row[1..]).None?
  {
    hide TextColumn, Attribute, XmlEscape;
  }

  lemma {:induction false} CutRows(b64: string -> string, columns: seq<string>, rows: seq<seq<Cell>>)
    requires forall row <- rows :: |row| == |columns|
    ensures XmlRows(b64, columns, rows).None? <==> exists row <- rows :: RowCut(row)
    decreases rows
  {
    hide Columns, RowCut;
    if rows != [] {
      CutRow(b64, columns, rows[0]);
      CutRows(b64, columns, rows[1..]);
      assert rows == [rows[0]] + rows[1..];
    }
  }

  /** A transfer with rows is aborted exactly where a value was cut: a file never looks whole while it is not. */
  lemma {:induction false} CutIsRefused(b64: string -> string, tables: seq<Table>, structure: bool)
    requires forall t <- tables :: Squared(t)
    ensures XmlTables(b64, tables, Parts(structure, true)).None? <==> exists t <- tables :: HasCut(t)
    decreases tables
  {
    hide HasCut, XmlTable;
    if tables != [] {
      CutTable(b64, tables[0], structure);
      CutIsRefused(b64, tables[1..], structure);
      assert tables == [tables[0]] + tables[1..];
    }
  }

  lemma CutTable(b64: string -> string, t: Table, structure: bool)
    requires Squared(t)
    ensures XmlTable(b64, t, Parts(structure, true)).None? <==> HasCut(t)
  {
    CutRows(b64, t.columns, t.rows);
    hide XmlRows, XmlStructure, RowCut, Attribute, XmlEscape;
  }
}
