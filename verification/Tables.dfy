/** The table every export engine consumes, and the spreadsheet cells made from it. */
module Tables {
  import opened Text
  import opened Escaping

  /** A cell value together with the strings JavaScript makes of it: `toISOString` of a date,
      `JSON.stringify` and `String` of an object, `String` of anything else. */
  datatype Value =
    | Absent
    | Date(iso: string)
    | Object(json: string, shown: string)
    | Number(digits: string, finite: bool)
    | Other(text: string)

  datatype Column = Column(key: string, heading: string)

  type Row = map<string, Value>

  datatype Table = Table(title: string, subtitle: string, generatedAt: string, columns: seq<Column>, rows: seq<Row>)

  function Lookup(row: Row, key: string): Value {
    if key in row then row[key] else Absent
  }

  /** The exporters' `stringify`. */
  function Stringify(v: Value): string {
    match v
    case Absent => ""
    case Date(iso) => iso
    case Object(json, _) => json
    case Number(digits, _) => digits
    case Other(text) => text
  }

  /** JavaScript's own `String(v)`, with null and undefined as the empty string. */
  function Shown(v: Value): string {
    match v
    case Object(_, shown) => shown
    case _ => Stringify(v)
  }

  /** Every label, or every stringified cell of a row, in column order. */
  function Labels(columns: seq<Column>): (labels: seq<string>)
    ensures |labels| == |columns|
    ensures forall i :: 0 <= i < |columns| ==> labels[i] == columns[i].heading
  {
    seq(|columns|, i requires 0 <= i < |columns| => columns[i].heading)
  }

  function Cells(columns: seq<Column>, row: Row): (cells: seq<string>)
    ensures |cells| == |columns|
    ensures forall i :: 0 <= i < |columns| ==> cells[i] == Stringify(Lookup(row, columns[i].key))
  {
    seq(|columns|, i requires 0 <= i < |columns| => Stringify(Lookup(row, columns[i].key)))
  }

  // ----- Spreadsheet cells -----

  datatype Cell = Cell(kind: string, text: string)

  /** `ExcelExporter.cell`. */
  function ExporterCell(v: Value): Cell {
    match v
    case Absent => Cell("String", "")
    case Number(digits, finite) =>
      if finite then Cell("Number", digits) else Cell("String", ReplaceChain(digits, EXPORTER_RULES))
    case Date(iso) => Cell("DateTime", iso)
    case Object(json, _) => Cell("String", ReplaceChain(json, EXPORTER_RULES))
    case Other(text) => Cell("String", ReplaceChain(text, EXPORTER_RULES))
  }

  /** `cellValue` of the spreadsheet helper. */
  function UtilCell(v: Value): string {
    match v
    case Absent => ""
    case Number(digits, _) => digits
    case Date(iso) => ReplaceChain(iso, UTIL_RULES)
    case Object(_, shown) => ReplaceChain(shown, UTIL_RULES)
    case Other(text) => ReplaceChain(text, UTIL_RULES)
  }

  /** Numbers and ISO dates are written with letters, digits, signs and points only. */
  ghost predicate PlainNumerals(v: Value) {
    match v
    case Number(digits, _) => IsPlain(digits)
    case Date(iso) => IsPlain(iso)
    case _ => true
  }

  ghost predicate IsPlain(s: string) {
    forall c <- s :: '+' <= c <= 'z' && c != '<' && c != '>'
  }

  lemma {:induction false} DecodeUnescaped(s: string)
    requires IsPlain(s)
    ensures DecodeReferences(s) == Some(s)
  {
    if s != [] {
      assert s == [s[0]] + s[1..];
      assert forall c <- s[1..] :: c in s;
      DecodeUnescaped(s[1..]);
      assert s[0] in s && '>' !in s[1..];
      DecodePlain(s[0], s[1..]);
    }
  }

  /** Text without control characters, carriage returns and markup needs no escaper. */
  lemma PlainReadsBack(s: string)
    requires IsPlain(s)
    ensures AllXmlChars(s) && '\r' !in s && EolNormalised(s) == s && XmlDecode(s) == Some(s)
  {
    EolNormalisedId(s);
    DecodeUnescaped(s);
  }

  /** A spreadsheet reader decodes each cell to the string the other exporters print, with line ends normalised and
      exactly if the document may hold it; the string itself comes back exactly if it has no carriage return either.
      Numbers and dates skip the escaper without harm; the two writers differ only on objects. */
  lemma CellsReadBack(v: Value)
    requires PlainNumerals(v)
    ensures var s := Stringify(v);
            && XmlDecode(ExporterCell(v).text) == (if AllXmlChars(s) then Some(EolNormalised(s)) else None)
            && (XmlDecode(ExporterCell(v).text) == Some(s) <==> AllXmlChars(s) && '\r' !in s)
    ensures var s := Shown(v);
            && XmlDecode(UtilCell(v)) == (if AllXmlChars(s) then Some(EolNormalised(s)) else None)
            && (XmlDecode(UtilCell(v)) == Some(s) <==> AllXmlChars(s) && '\r' !in s)
    ensures ExporterCell(v).kind == if v.Date? then "DateTime" else if v.Number? && v.finite then "Number" else "String"
  {
    hide ReplaceChain, XmlDecode, EolNormalised, AllXmlChars, IsPlain;
    XmlRoundTrip(Stringify(v), EXPORTER_RULES);
    XmlRoundTrip(Shown(v), UTIL_RULES);
    if v.Number? || v.Date? { PlainReadsBack(Stringify(v)); }
    if v.Absent? {
      NothingIsPlain();
      PlainReadsBack("");
    }
  }

  lemma NothingIsPlain()
    ensures IsPlain("")
  {
  }
}
