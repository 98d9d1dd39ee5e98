/** The two CSV writers, and an RFC 4180 reader that recovers what they wrote. */
module Csv {
  import opened Text
  import opened Tables
  import opened Escaping

  const BOM := "\U{FEFF}"
  const CRLF := "\r\n"

  predicate NeedsQuoting(s: string) { ',' in s || '"' in s || '\n' in s || '\r' in s }

  function Escape(s: string): string {
    if NeedsQuoting(s) then "\"" + ReplaceAll(s, '"', "\"\"") + "\"" else s
  }

  function EscapeAll(fields: seq<string>): (r: seq<string>)
    ensures |r| == |fields| && forall i :: 0 <= i < |r| ==> r[i] == Escape(fields[i])
  {
    seq(|fields|, i requires 0 <= i < |fields| => Escape(fields[i]))
  }

  function RecordLine(fields: seq<string>): string { Join(EscapeAll(fields), ",") }

  /** Records each closed by CRLF, as section 2 of RFC 4180 has them. */
  function FileText(records: seq<seq<string>>): string {
    if records == [] then "" else RecordLine(records[0]) + CRLF + FileText(records[1..])
  }

  /** The records of a table: its labels, then the stringified cells of each row. */
  function Records(table: Table): (r: seq<seq<string>>)
    ensures |r| == |table.rows| + 1 && r[0] == Labels(table.columns)
    ensures forall i :: 0 <= i < |table.rows| ==> r[i + 1] == Cells(table.columns, table.rows[i])
  {
    [Labels(table.columns)] + seq(|table.rows|, i requires 0 <= i < |table.rows| => Cells(table.columns, table.rows[i]))
  }

  /** How a cell is printed: nothing for a missing value, dates in ISO form, objects as JSON, and everything else as
      JavaScript's `String` has it. */
  ghost predicate Prints(row: Row, key: string, text: string) {
    if key !in row then text == ""
    else
      match row[key]
      case Absent => text == ""
      case Date(iso) => text == iso
      case Object(json, _) => text == json
      case Number(digits, _) => text == digits
      case Other(s) => text == s
  }

  /** The labels of the columns, then for every row the printed value of every column, in order. */
  lemma RecordsPrint(table: Table, j: nat)
    requires j < |table.columns|
    ensures |Records(table)| == |table.rows| + 1 && |Records(table)[0]| == |table.columns|
    ensures Records(table)[0][j] == table.columns[j].heading
    ensures forall i :: 0 <= i < |table.rows| ==>
                          && |Records(table)[i + 1]| == |table.columns|
                          && Prints(table.rows[i], table.columns[j].key, Records(table)[i + 1][j])
  {
  }

  // ----- The writers -----

  function RecordLines(records: seq<seq<string>>): (lines: seq<string>)
    ensures |lines| == |records| && forall i :: 0 <= i < |lines| ==> lines[i] == RecordLine(records[i])
  {
    seq(|records|, i requires 0 <= i < |records| => RecordLine(records[i]))
  }

  lemma {:induction false} JoinedLines(records: seq<seq<string>>)
    requires records != []
    ensures Join(RecordLines(records), CRLF) + CRLF == FileText(records)
  {
    var lines := RecordLines(records);
    if |records| == 1 {
      assert records[1..] == [];
      assert FileText(records[1..]) == "";
    } else {
      assert lines[1..] == RecordLines(records[1..]);
      JoinedLines(records[1..]);
    }
  }

  /** `CsvExporter.export`. */
  method Export(table: Table) returns (text: string)
    ensures text == "\U{FEFF}" + FileText(Records(table))
  {
    hide RecordLine, FileText, Join;
    var lines := [RecordLine(Labels(table.columns))];
    for i := 0 to |table.rows|
      invariant |lines| == i + 1
      invariant forall k :: 0 <= k <= i ==> lines[k] == RecordLine(Records(table)[k])
    {
      lines := lines + [RecordLine(Cells(table.columns, table.rows[i]))];
    }
    assert lines == RecordLines(Records(table));
    text := BOM + (Join(lines, CRLF) + CRLF);
    JoinedLines(Records(table));
  }

  /** The records `toCsv` writes for a non-empty list of rows. */
  function UtilRecords(rows: seq<Row>, keys: seq<string>): (r: seq<seq<string>>)
    ensures |r| == |rows| + 1 && r[0] == keys
    ensures forall i :: 0 <= i < |rows| ==> r[i + 1] == ShownCells(keys, rows[i])
  {
    [keys] + seq(|rows|, i requires 0 <= i < |rows| => ShownCells(keys, rows[i]))
  }

  /** `toCsv` prints the values as JavaScript's `String` has them, objects included. */
  lemma UtilRecordsPrint(rows: seq<Row>, keys: seq<string>, i: nat, j: nat)
    requires i < |rows| && j < |keys|
    ensures |UtilRecords(rows, keys)| == |rows| + 1 && UtilRecords(rows, keys)[0] == keys
    ensures var record := UtilRecords(rows, keys)[i + 1];
            && |record| == |keys|
            && if keys[j] in rows[i] && rows[i][keys[j]].Object? then record[j] == rows[i][keys[j]].shown
               else Prints(rows[i], keys[j], record[j])
  {
  }

  function ShownCells(keys: seq<string>, row: Row): (cells: seq<string>)
    ensures |cells| == |keys|
    ensures forall i :: 0 <= i < |keys| ==> cells[i] == Shown(Lookup(row, keys[i]))
  {
    seq(|keys|, i requires 0 <= i < |keys| => Shown(Lookup(row, keys[i])))
  }

  /** The keys of a row, each once. */
  ghost predicate ListsKeys(keys: seq<string>, row: Row) {
    (forall key :: key in keys <==> key in row) && forall i, j :: 0 <= i < j < |keys| ==> keys[i] != keys[j]
  }

  /** What `toCsv` makes of rows under the given header: records without the last line end. Without rows the header
      is neither escaped nor closed by CRLF. */
  ghost predicate IsUtilText(text: string, rows: seq<Row>, keys: seq<string>) {
    if rows == [] then text == Join(keys, ",") + "\n" else text + CRLF == FileText(UtilRecords(rows, keys))
  }

  /** `toCsv`; `ownKeys` are the keys of the first row in the order they were put in, the header when no columns
      are given. */
  method ToCsv(rows: seq<Row>, columns: Option<seq<string>>, ownKeys: seq<string>) returns (text: string)
    requires rows != [] ==> ListsKeys(ownKeys, rows[0])
    ensures rows == [] && columns.None? ==> text == ""
    ensures rows != [] || columns.Some? ==> IsUtilText(text, rows, if columns.Some? then columns.value else ownKeys)
  {
    hide RecordLine, FileText, Join, ListsKeys, UtilRecords, ShownCells, RecordLines;
    if rows == [] { return if columns.Some? then Join(columns.value, ",") + "\n" else ""; }
    var keys := if columns.Some? then columns.value else ownKeys;
    ghost var records := UtilRecords(rows, keys);
    var lines := [RecordLine(keys)];
    for i := 0 to |rows|
      invariant |lines| == i + 1
      invariant forall k :: 0 <= k <= i ==> lines[k] == RecordLine(records[k])
    {
      assert records[i + 1] == ShownCells(keys, rows[i]);
      lines := lines + [RecordLine(ShownCells(keys, rows[i]))];
    }
    assert lines == RecordLines(records);
    text := Join(lines, CRLF);
    JoinedLines(records);
  }

  // ----- The reader -----

  datatype Parsed = Parsed(field: string, rest: string)

  /** The rest of a quoted field, after its opening quote. */
  function ParseQuoted(s: string): Option<Parsed>
    ensures ParseQuoted(s).Some? ==> |ParseQuoted(s).value.rest| < |s|
    decreases |s|
  {
    if s == [] then None
    else if s[0] != '"' then AddChar(s[0], ParseQuoted(s[1..]))
    else if |s| > 1 && s[1] == '"' then AddChar('"', ParseQuoted(s[2..]))
    else Some(Parsed("", s[1..]))
  }

  function AddChar(c: char, p: Option<Parsed>): Option<Parsed> {
    if p.None? then None else Some(Parsed([c] + p.value.field, p.value.rest))
  }

  predicate IsTextData(c: char) { c !in {',', '"', '\r', '\n'} }

  function ParseField(s: string): (p: Option<Parsed>)
    ensures p.Some? ==> |p.value.rest| <= |s|
  {
    if s != [] && s[0] == '"' then ParseQuoted(s[1..])
    else
      var n := RunLength(s, IsTextData);
      Some(Parsed(s[..n], s[n..]))
  }

  datatype ParsedRecord = ParsedRecord(fields: seq<string>, rest: string)

  function ParseRecord(s: string): (p: Option<ParsedRecord>)
    ensures p.Some? ==> |p.value.rest| < |s|
    decreases |s|
  {
    match ParseField(s)
    case None => None
    case Some(Parsed(field, rest)) =>
      if CRLF <= rest then Some(ParsedRecord([field], rest[2..]))
      else if rest != [] && rest[0] == ',' then
        match ParseRecord(rest[1..])
        case None => None
        case Some(more) => Some(ParsedRecord([field] + more.fields, more.rest))
      else None
  }

  /** The records of a file in which every record is closed by CRLF; None if it is malformed. */
  function ParseFile(s: string): Option<seq<seq<string>>>
    decreases |s|
  {
    if s == [] then Some([])
    else
      match ParseRecord(s)
      case None => None
      case Some(ParsedRecord(fields, rest)) =>
        match ParseFile(rest)
        case None => None
        case Some(more) => Some([fields] + more)
  }

  lemma QuotedEnd(rest: string)
    requires rest == [] || rest[0] != '"'
    ensures ParseQuoted(['"'] + rest) == Some(Parsed("", rest))
  {
    assert (['"'] + rest)[1..] == rest;
  }

  lemma QuotedQuote(tail: string)
    ensures ParseQuoted(['"', '"'] + tail) == AddChar('"', ParseQuoted(tail))
  {
    assert (['"', '"'] + tail)[2..] == tail;
  }

  lemma QuotedChar(c: char, tail: string)
    requires c != '"'
    ensures ParseQuoted([c] + tail) == AddChar(c, ParseQuoted(tail))
  {
    assert ([c] + tail)[1..] == tail;
  }

  lemma {:induction false} ParseQuotedReadsBack(s: string, rest: string)
    requires rest == [] || rest[0] != '"'
    ensures ParseQuoted(ReplaceAll(s, '"', "\"\"") + "\"" + rest) == Some(Parsed(s, rest))
  {
    hide ParseQuoted;
    if s == [] {
      assert ReplaceAll(s, '"', "\"\"") + "\"" + rest == ['"'] + rest;
      QuotedEnd(rest);
    } else {
      var tail := ReplaceAll(s[1..], '"', "\"\"") + "\"" + rest;
      ParseQuotedReadsBack(s[1..], rest);
      assert s == [s[0]] + s[1..];
      if s[0] == '"' {
        assert ReplaceAll(s, '"', "\"\"") + "\"" + rest == ['"', '"'] + tail;
        QuotedQuote(tail);
      } else {
        assert ReplaceAll(s, '"', "\"\"") + "\"" + rest == [s[0]] + tail;
        QuotedChar(s[0], tail);
      }
    }
  }

  lemma {:induction false} RunStops(s: string, rest: string, keep: char -> bool)
    requires forall c <- s :: keep(c)
    requires rest == [] || !keep(rest[0])
    ensures RunLength(s + rest, keep) == |s|
  {
    if s == [] {
      assert s + rest == rest;
    } else {
      assert (s + rest)[1..] == s[1..] + rest;
      RunStops(s[1..], rest, keep);
    }
  }

  lemma ParseBareReadsBack(s: string, rest: string)
    requires !NeedsQuoting(s) && (rest == [] || !IsTextData(rest[0])) && "\"" != rest[..if rest == [] then 0 else 1]
    ensures ParseField(s + rest) == Some(Parsed(s, rest))
  {
    assert forall c <- s :: IsTextData(c);
    RunStops(s, rest, IsTextData);
    assert (s + rest)[..|s|] == s && (s + rest)[|s|..] == rest;
  }

  /** Whatever a field holds, its written form followed by a comma or a line end is read back whole. */
  lemma ParseFieldReadsBack(s: string, rest: string)
    requires rest != [] && (rest[0] == ',' || rest[0] == '\r')
    ensures ParseField(Escape(s) + rest) == Some(Parsed(s, rest))
  {
    hide ReplaceAll, ParseQuoted, RunLength;
    if NeedsQuoting(s) {
      var inner := ReplaceAll(s, '"', "\"\"") + "\"" + rest;
      ParseQuotedReadsBack(s, rest);
      assert Escape(s) + rest == "\"" + inner;
      assert ("\"" + inner)[1..] == inner;
    } else {
      ParseBareReadsBack(s, rest);
    }
  }

  lemma ParseLastField(s: string, rest: string)
    ensures ParseRecord(Escape(s) + (CRLF + rest)) == Some(ParsedRecord([s], rest))
  {
    ParseFieldReadsBack(s, CRLF + rest);
    assert (CRLF + rest)[2..] == rest;
  }

  lemma ParseFieldThenMore(s: string, tail: string, more: ParsedRecord)
    requires ParseRecord(tail) == Some(more)
    ensures ParseRecord(Escape(s) + ("," + tail)) == Some(ParsedRecord([s] + more.fields, more.rest))
  {
    ParseFieldReadsBack(s, "," + tail);
    assert ("," + tail)[1..] == tail;
    assert !(CRLF <= "," + tail) by { assert ("," + tail)[0] == ','; }
  }

  lemma {:induction false} ParseRecordReadsBack(fields: seq<string>, rest: string)
    requires fields != []
    ensures ParseRecord(RecordLine(fields) + (CRLF + rest)) == Some(ParsedRecord(fields, rest))
    decreases |fields|
  {
    hide Escape, ParseRecord, EscapeAll;
    assert EscapeAll(fields)[1..] == EscapeAll(fields[1..]);
    if |fields| == 1 {
      assert fields == [fields[0]];
      ParseLastField(fields[0], rest);
    } else {
      var tail := RecordLine(fields[1..]) + (CRLF + rest);
      ParseRecordReadsBack(fields[1..], rest);
      ParseFieldThenMore(fields[0], tail, ParsedRecord(fields[1..], rest));
      assert RecordLine(fields) + (CRLF + rest) == Escape(fields[0]) + ("," + tail);
      assert fields == [fields[0]] + fields[1..];
    }
  }

  ghost predicate NoEmptyRecord(records: seq<seq<string>>) {
    forall i :: 0 <= i < |records| ==> records[i] != []
  }

  /** Reading inverts writing, for records of any contents with at least one field each. */
  lemma {:induction false} ParseInvertsWriting(records: seq<seq<string>>)
    requires NoEmptyRecord(records)
    ensures ParseFile(FileText(records)) == Some(records)
  {
    hide RecordLine, ParseRecord;
    if records != [] {
      var rest := FileText(records[1..]);
      ParseInvertsWriting(records[1..]);
      ParseRecordReadsBack(records[0], rest);
      assert FileText(records) == RecordLine(records[0]) + (CRLF + rest);
      assert records == [records[0]] + records[1..];
    }
  }

  lemma FileTextInjective(a: seq<seq<string>>, b: seq<seq<string>>)
    requires NoEmptyRecord(a) && NoEmptyRecord(b)
    ensures FileText(a) == FileText(b) <==> a == b
  {
    ParseInvertsWriting(a);
    ParseInvertsWriting(b);
  }

  /** A table is recovered from its file exactly when it has a column: without columns each
      record is read back as one empty field. */
  lemma RoundTripNeedsAColumn(table: Table)
    ensures ParseFile(FileText(Records(table))) == Some(Records(table)) <==> table.columns != []
  {
    if table.columns != [] {
      ParseInvertsWriting(Records(table));
    } else {
      var records := Records(table);
      var rest := FileText(records[1..]);
      assert RecordLine(records[0]) == "" && Escape("") == "";
      assert FileText(records) == Escape("") + (CRLF + rest);
      ParseLastField("", rest);
    }
  }

  ghost predicate SameRecords(table: Table) {
    forall i, j :: 0 <= i < |table.rows| && 0 <= j < |table.columns| ==>
                     var v := Lookup(table.rows[i], table.columns[j].key);
                     Shown(v) == Stringify(v)
  }

  function Keys(columns: seq<Column>): (keys: seq<string>)
    ensures |keys| == |columns| && forall i :: 0 <= i < |keys| ==> keys[i] == columns[i].key
  {
    seq(|columns|, i requires 0 <= i < |columns| => columns[i].key)
  }

  lemma SameRecordsAreEqual(table: Table)
    requires forall c <- table.columns :: c.key == c.heading
    ensures Records(table) == UtilRecords(table.rows, Keys(table.columns)) <==> SameRecords(table)
  {
    var ours, theirs := Records(table), UtilRecords(table.rows, Keys(table.columns));
    assert Keys(table.columns) == Labels(table.columns);
    if SameRecords(table) {
      forall i | 0 < i < |ours|
        ensures ours[i] == theirs[i]
      {
        assert ours[(i - 1) + 1] == Cells(table.columns, table.rows[i - 1]);
        assert theirs[(i - 1) + 1] == ShownCells(Keys(table.columns), table.rows[i - 1]);
      }
      assert ours == theirs;
    }
    if ours == theirs {
      forall i, j | 0 <= i < |table.rows| && 0 <= j < |table.columns|
        ensures var v := Lookup(table.rows[i], table.columns[j].key); Shown(v) == Stringify(v)
      {
        assert ours[i + 1][j] == theirs[i + 1][j];
      }
    }
  }

  lemma NoRecordIsEmpty(table: Table)
    requires table.columns != []
    ensures NoEmptyRecord(Records(table))
    ensures NoEmptyRecord(UtilRecords(table.rows, Keys(table.columns)))
  {
    var ours, theirs := Records(table), UtilRecords(table.rows, Keys(table.columns));
    forall i | 0 < i < |ours|
      ensures ours[i] != [] && theirs[i] != []
    {
      assert |ours[(i - 1) + 1]| == |table.columns| == |theirs[(i - 1) + 1]|;
    }
  }

  lemma {:induction false} ReplaceAllGrows(s: string)
    ensures |ReplaceAll(s, '"', "\"\"")| >= |s|
  {
    if s != [] { ReplaceAllGrows(s[1..]); }
  }

  lemma {:induction false} QuotingAddsTwo(fields: seq<string>)
    ensures RecordLine(fields) == Join(fields, ",") || |RecordLine(fields)| >= |Join(fields, ",")| + 2
  {
    if fields != [] {
      ReplaceAllGrows(fields[0]);
      assert EscapeAll(fields)[1..] == EscapeAll(fields[1..]);
      QuotingAddsTwo(fields[1..]);
    }
  }

  /** Without rows `toCsv` ends its header with a bare line feed, so no header makes it agree with the exporter. */
  lemma HeaderOnlyFilesDiffer(keys: seq<string>)
    ensures Join(keys, ",") + "\n" + CRLF != FileText([keys])
  {
    QuotingAddsTwo(keys);
    var ours, theirs := FileText([keys]), Join(keys, ",") + "\n" + CRLF;
    assert FileText([keys][1..]) == "";
    assert ours == RecordLine(keys) + CRLF;
    assert |theirs| == |Join(keys, ",")| + 3;
    assert |ours| == |RecordLine(keys)| + 2;
  }

  /** With labels equal to keys, `toCsv` and the exporter write the same file, but for the byte-order mark and the last
      line end, exactly when there are rows and no cell is an object that `String` and `JSON.stringify` print
      differently. */
  lemma WritersAgree(table: Table, text: string)
    requires forall c <- table.columns :: c.key == c.heading
    requires IsUtilText(text, table.rows, Keys(table.columns))
    ensures text + CRLF == FileText(Records(table)) <==> table.rows != [] && SameRecords(table)
  {
    hide FileText, Join;
    if table.rows == [] {
      assert Keys(table.columns) == Labels(table.columns);
      assert Records(table) == [Keys(table.columns)];
      HeaderOnlyFilesDiffer(Keys(table.columns));
    } else {
      SameRecordsAreEqual(table);
    }
    if table.rows != [] && table.columns != [] {
      NoRecordIsEmpty(table);
      FileTextInjective(UtilRecords(table.rows, Keys(table.columns)), Records(table));
    }
  }

  /** With its own keys as header, the first row loses no cell: reading the file back gives all its keys and values. */
  lemma OwnKeysKeepTheFirstRow(rows: seq<Row>, ownKeys: seq<string>, text: string)
    requires rows != [] && ownKeys != [] && ListsKeys(ownKeys, rows[0]) && IsUtilText(text, rows, ownKeys)
    ensures ParseFile(text + CRLF) == Some(UtilRecords(rows, ownKeys))
    ensures forall key <- rows[0] ::
              exists j :: 0 <= j < |ownKeys| && ownKeys[j] == key
                  && UtilRecords(rows, ownKeys)[1][j] == Shown(rows[0][key])
  {
    hide FileText, ParseFile;
    var records := UtilRecords(rows, ownKeys);
    forall i | 0 < i < |records|
      ensures records[i] != []
    {
      assert |records[(i - 1) + 1]| == |ownKeys|;
    }
    ParseInvertsWriting(records);
    forall key <- rows[0]
      ensures exists j :: 0 <= j < |ownKeys| && ownKeys[j] == key && records[1][j] == Shown(rows[0][key])
    {
      assert key in ownKeys;
      var j :| 0 <= j < |ownKeys| && ownKeys[j] == key;
      assert records[0 + 1] == ShownCells(ownKeys, rows[0]);
    }
  }
}
