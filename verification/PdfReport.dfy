/** An exported report read from end to end: from the last byte of the file to the texts on its pages. */
module PdfReport {
  import opened Text
  import opened Tables
  import opened Escaping
  import opened PdfFile
  import opened PdfDocument
  import opened PdfLayout

  // ----- The reader -----

  /** Bytes as a reader of a content stream takes them, one character each. */
  function Chars(b: bytes): (s: string)
    ensures |s| == |b| && forall i :: 0 <= i < |s| ==> s[i] as int == b[i]
  {
    seq(|b|, i requires 0 <= i < |b| => b[i] as char)
  }

  predicate NotParenthesis(c: char) { c != '(' }

  /** The literal strings a content stream shows with `Tj`, in order; None if a literal is open or not shown. */
  function ReadShown(s: string): Option<seq<string>>
    decreases |s|
  {
    var n := RunLength(s, NotParenthesis);
    if n == |s| then Some([])
    else
      match ReadLiteral(s[n + 1..], 0)
      case None => None
      case Some((text, rest)) => if " Tj" <= rest then Before(text, ReadShown(rest)) else None
  }

  function Before(text: string, more: Option<seq<string>>): Option<seq<string>> {
    if more.None? then None else Some([text] + more.value)
  }

  function Both(a: Option<seq<string>>, b: Option<seq<string>>): Option<seq<string>> {
    if a.None? || b.None? then None else Some(a.value + b.value)
  }

  function ReadPages(pages: seq<bytes>): Option<seq<string>> {
    if pages == [] then Some([])
    else Both(ReadPages(pages[..|pages|-1]), ReadShown(Chars(pages[|pages|-1])))
  }

  /** All texts of a report file, page after page. */
  function ReadReport(file: bytes): Option<seq<string>> {
    match ReadDocument(file)
    case None => None
    case Some(pages) => ReadPages(pages)
  }

  // ----- What the report says -----

  /** The bytes of a text. */
  function Raw(s: string): string { Chars(Utf8(s)) }

  /** Its bytes as a reader of literal strings gets them. */
  function AsRead(s: string): string { Raw(EolNormalised(s)) }

  function AllAsRead(lines: seq<string>): (r: seq<string>)
    ensures |r| == |lines| && forall i :: 0 <= i < |r| ==> r[i] == AsRead(lines[i])
  {
    seq(|lines|, i requires 0 <= i < |lines| => AsRead(lines[i]))
  }

  function AllRaw(lines: seq<string>): (r: seq<string>)
    ensures |r| == |lines| && forall i :: 0 <= i < |r| ==> r[i] == Raw(lines[i])
  {
    seq(|lines|, i requires 0 <= i < |lines| => Raw(lines[i]))
  }

  function RowLines(table: Table, from: nat, to: nat): (lines: seq<string>)
    requires from <= to <= |table.rows|
    ensures |lines| == to - from
    ensures forall k :: from <= k < to ==> lines[k - from] == RowLine(table, table.rows[k])
  {
    if from == to then [] else RowLines(table, from, to - 1) + [RowLine(table, table.rows[to - 1])]
  }

  function HeaderLines(table: Table): seq<string> {
    [Title(table)] + (if Subtitle(table) != "" then [Subtitle(table)] else []) + [HeaderLine(table)]
  }

  /** Title, subtitle if any, column labels, and every row with its cells cut to size. */
  function ReportLines(table: Table): seq<string> { HeaderLines(table) + RowLines(table, 0, |table.rows|) }

  // ----- Bytes of escaped text -----

  lemma RawConcat(a: string, b: string)
    ensures Raw(a + b) == Raw(a) + Raw(b)
  {
    Utf8Concat(a, b);
  }

  lemma RawAscii(s: string)
    requires IsAscii(s)
    ensures Raw(s) == s
  {
    Utf8Ascii(s);
  }

  /** A character that is not ASCII is written in bytes that are not ASCII either. */
  lemma RawChar(c: char)
    ensures c < '\U{0080}' ==> Raw([c]) == [c]
    ensures c >= '\U{0080}' ==> forall x <- Raw([c]) :: x >= '\U{0080}'
  {
    assert Utf8([c]) == Utf8Char(c) + Utf8([]);
  }

  lemma EscapeConcat(a: string, b: string)
    ensures PdfEscape(a + b) == PdfEscape(a) + PdfEscape(b)
  {
    ReplaceChainConcat(a, b, PDF_RULES);
  }

  lemma EscapeOther(s: string)
    requires forall c <- s :: c >= '\U{0080}'
    ensures PdfEscape(s) == s
  {
    ReplaceChainAbsent(s, PDF_RULES);
  }

  lemma EscapeChar(c: char)
    ensures PdfEscape(Raw([c])) == Raw(PdfEscape([c]))
  {
    hide PdfEscape, Raw;
    RawChar(c);
    PdfEscapeStep([c]);
    assert [c][1..] == "";
    if c < '\U{0080}' {
      RawAscii(PdfEscape([c]));
    } else {
      EscapeOther(Raw([c]));
      assert PdfEscape([c]) == [c];
    }
  }

  /** Escaping the bytes of a text is taking the bytes of the escaped text. */
  lemma {:induction false} EscapeRaw(s: string)
    ensures PdfEscape(Raw(s)) == Raw(PdfEscape(s))
  {
    hide PdfEscape, Raw;
    if s == [] {
      RawAscii([]);
      PdfEscapeStep([]);
    } else {
      EscapeRaw(s[1..]);
      EscapeChar(s[0]);
      assert s == [s[0]] + s[1..];
      RawConcat([s[0]], s[1..]);
      EscapeConcat(Raw([s[0]]), Raw(s[1..]));
      EscapeConcat([s[0]], s[1..]);
      RawConcat(PdfEscape([s[0]]), PdfEscape(s[1..]));
    }
  }

  lemma RawFirst(s: string)
    requires s != []
    ensures Raw(s) != [] && (Raw(s)[0] == '\n' <==> s[0] == '\n')
  {
    hide Raw;
    assert s == [s[0]] + s[1..];
    RawConcat([s[0]], s[1..]);
    RawChar(s[0]);
    NotEmpty(s[0]);
    assert Raw([s[0]])[0] in Raw([s[0]]);
  }

  lemma NotEmpty(c: char)
    ensures Raw([c]) != []
  {
    assert Utf8([c]) == Utf8Char(c) + Utf8([]);
  }

  /** Line ends of a text and of its bytes are the same. */
  lemma {:induction false} NormaliseRaw(s: string)
    ensures EolNormalised(Raw(s)) == Raw(EolNormalised(s))
    decreases |s|
  {
    hide Raw, EolNormalised;
    if s == [] {
      RawAscii([]);
      NormaliseNothing();
    } else {
      var c, rest := s[0], s[1..];
      assert s == [c] + rest;
      RawConcat([c], rest);
      RawChar(c);
      if c != '\r' {
        NormaliseRaw(rest);
        NormaliseConcat([c], rest);
        NormaliseConcat(Raw([c]), Raw(rest));
        RawConcat([c], EolNormalised(rest));
      } else if rest != [] && rest[0] == '\n' {
        NormaliseRaw(rest[1..]);
        assert rest == ['\n'] + rest[1..];
        RawConcat(['\n'], rest[1..]);
        RawAscii(['\n']);
        NormalisePair(rest[1..]);
        NormalisePair(Raw(rest[1..]));
        assert Raw(s) == "\r\n" + Raw(rest[1..]);
        assert s == "\r\n" + rest[1..];
        RawConcat(['\n'], EolNormalised(rest[1..]));
      } else {
        NormaliseRaw(rest);
        NormaliseLoneReturn(rest);
        if rest == [] { RawAscii([]); } else { RawFirst(rest); }
        NormaliseLoneReturn(Raw(rest));
        RawAscii(['\n']);
        RawConcat(['\n'], EolNormalised(rest));
      }
    }
  }

  lemma NormaliseNothing()
    ensures EolNormalised([]) == []
  {
  }

  // ----- Reading one page -----

  lemma SkipTo(before: string, s: string)
    requires '(' !in before
    ensures RunLength(before + s, NotParenthesis) == |before| + RunLength(s, NotParenthesis)
  {
    if before == [] {
      assert before + s == s;
    } else {
      SkipTo(before[1..], s);
      assert (before + s)[1..] == before[1..] + s;
      assert before[0] in before;
    }
  }

  lemma ReadShownSkip(before: string, s: string)
    requires '(' !in before
    ensures ReadShown(before + s) == ReadShown(s)
  {
    hide ReadLiteral;
    SkipTo(before, s);
    var n := RunLength(s, NotParenthesis);
    if n < |s| { assert (before + s)[|before| + n + 1..] == s[n + 1..]; }
  }

  lemma ReadAtParenthesis(literal: string, text: string, rest: string)
    requires ReadLiteral(literal, 0) == Some((text, rest)) && " Tj" <= rest
    ensures ReadShown("(" + literal) == Before(text, ReadShown(rest))
  {
    hide ReadLiteral;
    assert RunLength("(" + literal, NotParenthesis) == 0;
    assert ("(" + literal)[1..] == literal;
  }

  /** One shown literal, and what the stream shows after it. */
  lemma ReadShownText(before: string, u: string, rest: string)
    requires '(' !in before
    ensures ReadShown(before + ("(" + (PdfEscape(u) + (") Tj ET" + rest)))) == Before(EolNormalised(u), ReadShown(rest))
  {
    hide PdfEscape, EolNormalised, ReadLiteral, ReadShown;
    var literal := PdfEscape(u) + (") Tj ET" + rest);
    ReadShownSkip(before, "(" + literal);
    PdfLiteralReadsBack(u, " Tj ET" + rest);
    assert literal == PdfEscape(u) + ")" + (" Tj ET" + rest);
    assert " Tj" <= " Tj ET" + rest;
    ReadAtParenthesis(literal, EolNormalised(u), " Tj ET" + rest);
    ReadShownSkip(" Tj ET", rest);
  }

  /** A text operation: something before the literal, the escaped text, and the showing operator. */
  ghost predicate Shows(op: string, before: string, text: string) {
    op == before + ("(" + (PdfEscape(text) + ") Tj ET")) && IsAscii(before) && '(' !in before
  }

  ghost predicate IsShow(op: string, text: string) { exists before :: Shows(op, before, text) }

  ghost predicate AreShows(ops: seq<string>, texts: seq<string>) {
    |ops| == |texts| && forall i :: 0 <= i < |ops| ==> IsShow(ops[i], texts[i])
  }

  lemma ReadOperation(op: string, text: string, rest: string)
    requires IsShow(op, text)
    ensures ReadShown(Raw(op) + rest) == Before(AsRead(text), ReadShown(rest))
  {
    hide PdfEscape, EolNormalised, ReadShown, Raw;
    var before :| Shows(op, before, text);
    RawConcat(before, "(" + (PdfEscape(text) + ") Tj ET"));
    RawConcat("(", PdfEscape(text) + ") Tj ET");
    RawConcat(PdfEscape(text), ") Tj ET");
    RawAscii(before);
    RawAscii("(");
    RawAscii(") Tj ET");
    EscapeRaw(text);
    NormaliseRaw(text);
    ReadShownText(before, Raw(text), rest);
    assert Raw(op) + rest == before + ("(" + (PdfEscape(Raw(text)) + (") Tj ET" + rest)));
  }

  lemma {:induction false} ReadOperations(ops: seq<string>, texts: seq<string>)
    requires AreShows(ops, texts)
    ensures ReadShown(Raw(Render(ops))) == Some(AllAsRead(texts))
    decreases |ops|
  {
    hide ReadShown, Raw, IsShow, AsRead;
    RawAscii("\n");
    NothingShown();
    if ops == [] {
      assert Render(ops) == "\n";
      assert texts == [];
    } else {
      var more := Render(ops[1..]);
      ReadOperations(ops[1..], texts[1..]);
      var rest := if |ops| == 1 then "\n" else "\n" + more;
      if |ops| == 1 {
        assert ops[1..] == [] && Render(ops) == ops[0] + "\n";
      } else {
        assert Render(ops) == ops[0] + ("\n" + more);
        RawConcat("\n", more);
        ReadShownSkip("\n", Raw(more));
      }
      RawConcat(ops[0], rest);
      ReadOperation(ops[0], texts[0], Raw(rest));
      assert AllAsRead(texts) == [AsRead(texts[0])] + AllAsRead(texts[1..]);
    }
  }

  lemma NothingShown()
    ensures ReadShown("\n") == Some([])
  {
    assert "\n"[1..] == "";
  }

  // ----- Reading the whole report -----

  lemma TextOpShows(font: string, size: nat, text: string, y: nat, fill: string)
    requires IsAscii(font) && IsAscii(fill) && '(' !in font && '(' !in fill
    ensures IsShow(TextOp(font, size, text, y, fill), text)
  {
    hide PdfEscape, Decimal;
    var before := "BT " + fill + " /" + font + " " + Decimal(size) + " Tf " + Decimal(MARGIN) + " " + Decimal(y)
        + " Td ";
    DigitsArePlain(Decimal(size));
    DigitsArePlain(Decimal(MARGIN));
    DigitsArePlain(Decimal(y));
    assert IsPlainText(before) by {
      PlainConcat("BT ", fill);
      PlainConcat("BT " + fill, " /");
      PlainConcat("BT " + fill + " /", font);
      PlainConcat("BT " + fill + " /" + font, " ");
      PlainConcat("BT " + fill + " /" + font + " ", Decimal(size));
      PlainConcat("BT " + fill + " /" + font + " " + Decimal(size), " Tf ");
      PlainConcat("BT " + fill + " /" + font + " " + Decimal(size) + " Tf ", Decimal(MARGIN));
      PlainConcat("BT " + fill + " /" + font + " " + Decimal(size) + " Tf " + Decimal(MARGIN), " ");
      PlainConcat("BT " + fill + " /" + font + " " + Decimal(size) + " Tf " + Decimal(MARGIN) + " ", Decimal(y));
      PlainConcat("BT " + fill + " /" + font + " " + Decimal(size) + " Tf " + Decimal(MARGIN) + " " + Decimal(y),
          " Td ");
    }
    assert TextOp(font, size, text, y, fill) == before + ("(" + (PdfEscape(text) + ") Tj ET"));
    assert Shows(TextOp(font, size, text, y, fill), before, text);
  }

  ghost predicate IsPlainText(s: string) { IsAscii(s) && '(' !in s }

  lemma PlainConcat(a: string, b: string)
    requires IsPlainText(a) && IsPlainText(b)
    ensures IsPlainText(a + b)
  {
  }

  lemma DigitsArePlain(s: string)
    requires AllDigits(s)
    ensures IsPlainText(s)
  {
    forall i | 0 <= i < |s| ensures IsDigit(s[i]) { assert s[i] in s; }
  }

  function PageLines(table: Table, page: nat, to: nat): seq<string>
    requires FirstRow(table, page) <= to <= |table.rows|
  {
    (if page == 0 then HeaderLines(table) else []) + RowLines(table, FirstRow(table, page), to)
  }

  lemma HeaderShows(table: Table)
    ensures AreShows(HeaderOps(table), HeaderLines(table))
  {
    hide IsShow, TextOp;
    TextOpShows("F2", 16, Title(table), 770, "0 0 0 rg");
    TextOpShows("F1", 9, Subtitle(table), 752, "0.45 0.45 0.45 rg");
    TextOpShows("F2", 9, HeaderLine(table), TopBaseline(table) + LINE_HEIGHT + 2, "0.23 0.51 0.96 rg");
  }

  lemma RowsShow(table: Table, from: nat, to: nat)
    requires from <= to <= |table.rows|
    ensures AreShows(RowOps(table, from, to), RowLines(table, from, to))
  {
    hide IsShow, TextOp, RowOps, RowLines, RowLine, Baseline;
    var ops, lines := RowOps(table, from, to), RowLines(table, from, to);
    forall i | 0 <= i < |ops|
      ensures IsShow(ops[i], lines[i])
    {
      var k := from + i;
      assert ops[k - from] == RowOp(table, k) && lines[k - from] == RowLine(table, table.rows[k]);
      TextOpShows("F1", 9, RowLine(table, table.rows[k]), Baseline(table, k), "0 0 0 rg");
    }
  }

  lemma PageShows(table: Table, page: nat, to: nat)
    requires FirstRow(table, page) <= to <= |table.rows|
    ensures AreShows(PageOps(table, page, to), PageLines(table, page, to))
  {
    HeaderShows(table);
    RowsShow(table, FirstRow(table, page), to);
    hide IsShow, HeaderOps, HeaderLines, RowOps, RowLines, FirstRow;
  }

  /** The texts of each page. */
  function PageTexts(table: Table): (texts: seq<seq<string>>)
    ensures |texts| == PageCount(table)
    ensures forall p :: 0 <= p < |texts| ==>
              FirstRow(table, p) <= EndRow(table, p) && texts[p] == PageLines(table, p, EndRow(table, p))
  {
    seq(PageCount(table), p requires 0 <= p < PageCount(table) =>
      PageBounds(table, p);
      PageLines(table, p, EndRow(table, p)))
  }

  function Flat(texts: seq<seq<string>>): seq<string> {
    if texts == [] then [] else Flat(texts[..|texts|-1]) + texts[|texts|-1]
  }

  lemma {:induction false} FirstLinesAre(table: Table, n: nat)
    requires 0 < n <= PageCount(table)
    ensures Flat(PageTexts(table)[..n]) == HeaderLines(table) + RowLines(table, 0, EndRow(table, n - 1))
  {
    hide HeaderLines, RowLines, PageTexts, PageCount, PageLines, FirstRow;
    PageBounds(table, n - 1);
    var texts := PageTexts(table)[..n];
    assert texts[..n - 1] == PageTexts(table)[..n - 1];
    assert texts[n - 1] == PageLines(table, n - 1, EndRow(table, n - 1));
    if n > 1 { FirstLinesAre(table, n - 1); }
    LinesSoFar(table, n);
  }

  lemma LinesSoFar(table: Table, n: nat)
    requires 0 < n <= PageCount(table)
    ensures FirstRow(table, n - 1) <= EndRow(table, n - 1)
    ensures (if n == 1 then [] else HeaderLines(table) + RowLines(table, 0, EndRow(table, n - 2)))
            + PageLines(table, n - 1, EndRow(table, n - 1))
         == HeaderLines(table) + RowLines(table, 0, EndRow(table, n - 1))
  {
    hide HeaderLines, RowLines, PageCount;
    PageBounds(table, n - 1);
    if n > 1 {
      PageBounds(table, n - 2);
      hide EndRow, FirstRow;
      RowLinesSplit(table, 0, FirstRow(table, n - 1), EndRow(table, n - 1));
    }
  }

  lemma {:induction false} RowLinesSplit(table: Table, a: nat, b: nat, c: nat)
    requires a <= b <= c <= |table.rows|
    ensures RowLines(table, a, c) == RowLines(table, a, b) + RowLines(table, b, c)
  {
    hide RowLine;
    if b < c { RowLinesSplit(table, a, b, c - 1); }
  }

  lemma AllAsReadConcat(a: seq<string>, b: seq<string>)
    ensures AllAsRead(a + b) == AllAsRead(a) + AllAsRead(b)
  {
    hide AsRead;
  }

  lemma ReadOnePage(table: Table, p: nat)
    requires p < PageCount(table) == |Pages(table)|
    ensures FirstRow(table, p) <= EndRow(table, p)
    ensures ReadShown(Raw(Pages(table)[p])) == Some(AllAsRead(PageLines(table, p, EndRow(table, p))))
  {
    hide ReadShown, Raw, Render, PageCount, AsRead, FirstRow;
    PageBounds(table, p);
    PageShows(table, p, EndRow(table, p));
    hide PageOps, PageLines;
    ReadOperations(PageOps(table, p, EndRow(table, p)), PageLines(table, p, EndRow(table, p)));
  }

  lemma ReadOneMore(pages: seq<string>, page: string, before: seq<string>, more: seq<string>)
    requires ReadPages(Encoded(pages)) == Some(before) && ReadShown(Raw(page)) == Some(more)
    ensures ReadPages(Encoded(pages + [page])) == Some(before + more)
  {
    hide ReadShown, Chars;
    var encoded := Encoded(pages + [page]);
    assert encoded[..|pages|] == Encoded(pages);
    assert encoded[|pages|] == Utf8(page);
  }

  lemma {:induction false} ReadAllPages(pages: seq<string>, texts: seq<seq<string>>)
    requires |pages| == |texts|
    requires forall i :: 0 <= i < |pages| ==> ReadShown(Raw(pages[i])) == Some(AllAsRead(texts[i]))
    ensures ReadPages(Encoded(pages)) == Some(AllAsRead(Flat(texts)))
    decreases |pages|
  {
    hide ReadShown, AsRead, Raw;
    if pages != [] {
      var front, last := pages[..|pages|-1], |pages| - 1;
      ReadAllPages(front, texts[..last]);
      ReadOneMore(front, pages[last], AllAsRead(Flat(texts[..last])), AllAsRead(texts[last]));
      assert pages == front + [pages[last]];
      AllAsReadConcat(Flat(texts[..last]), texts[last]);
    }
  }

  /** A reader of the exported file finds the bytes of the title, the subtitle if there is one, the column labels and
      every row, cells cut to size, in order, except that line ends are read as line feeds. */
  lemma ReportReadsBack(table: Table)
    requires var objects := DocumentObjects(Pages(table)); Offset(objects, |objects|) < Pow10(10)
    ensures ReadReport(FileBytes(DocumentObjects(Pages(table)))) == Some(AllAsRead(ReportLines(table)))
  {
    hide ReadPages, ReadDocument, ReadShown, Raw, PageLines, Encoded, AsRead, Pages, DocumentObjects, FileBytes, Offset,
        Pow10, HeaderLines, RowLines, PageTexts;
    ExportReadsBack(table);
    forall p | 0 <= p < |Pages(table)|
      ensures ReadShown(Raw(Pages(table)[p])) == Some(AllAsRead(PageTexts(table)[p]))
    {
      ReadOnePage(table, p);
    }
    ReadAllPages(Pages(table), PageTexts(table));
    var n := PageCount(table);
    FirstLinesAre(table, n);
    assert PageTexts(table)[..n] == PageTexts(table);
    PageBounds(table, n - 1);
  }

  lemma {:induction false} ReturnInRaw(s: string)
    ensures '\r' in Raw(s) <==> '\r' in s
  {
    hide Raw;
    if s == [] {
      RawAscii([]);
    } else {
      ReturnInRaw(s[1..]);
      RawChar(s[0]);
      assert s == [s[0]] + s[1..];
      RawConcat([s[0]], s[1..]);
    }
  }

  lemma UnchangedWithoutReturn(s: string)
    ensures AsRead(s) == Raw(s) <==> '\r' !in s
  {
    hide Raw, EolNormalised;
    NormaliseRaw(s);
    ReturnInRaw(s);
    EolNormalisedId(Raw(s));
  }

  /** The bytes of the report are read back unchanged exactly when none of its lines has a carriage return. */
  lemma ReportSurvives(table: Table)
    requires var objects := DocumentObjects(Pages(table)); Offset(objects, |objects|) < Pow10(10)
    ensures ReadReport(FileBytes(DocumentObjects(Pages(table)))) == Some(AllRaw(ReportLines(table)))
       <==> forall line <- ReportLines(table) :: '\r' !in line
  {
    hide ReadReport, AsRead, Raw, Pages, DocumentObjects, FileBytes, ReportLines, Offset, Pow10;
    ReportReadsBack(table);
    UnchangedLines(ReportLines(table));
  }

  lemma UnchangedLines(lines: seq<string>)
    ensures AllAsRead(lines) == AllRaw(lines) <==> forall line <- lines :: '\r' !in line
  {
    hide AsRead, Raw;
    forall i | 0 <= i < |lines|
      ensures AllAsRead(lines)[i] == AllRaw(lines)[i] <==> '\r' !in lines[i]
    {
      UnchangedWithoutReturn(lines[i]);
    }
    if forall line <- lines :: '\r' !in line {
      assert AllAsRead(lines) == AllRaw(lines);
    }
    if AllAsRead(lines) == AllRaw(lines) {
      forall line <- lines ensures '\r' !in line {
        var i :| 0 <= i < |lines| && lines[i] == line;
      }
    }
  }

  // ----- Where each text is drawn -----

  /** A text on a page, with the operands of its operators: fill color, font and size, and the point it starts at. */
  datatype Drawn = Drawn(fill: string, font: string, size: nat, x: nat, y: nat, text: string)

  predicate NotSlash(c: char) { c != '/' }

  predicate NotBlank(c: char) { c != ' ' }

  function After(s: string, text: string): (rest: Option<string>)
    ensures rest.Some? ==> |rest.value| + |text| == |s|
  {
    if text <= s then Some(s[|text|..]) else None
  }

  datatype Digits = Digits(value: nat, rest: string)

  /** A numeral and the text that must follow it. */
  function ReadNumber(s: string, text: string): Option<Digits> {
    var n := RunLength(s, IsDigit);
    if n == 0 || After(s[n..], text).None? then None
    else
      assert forall c <- s[..n] :: IsDigit(c);
      Some(Digits(DecimalValue(s[..n]), After(s[n..], text).value))
  }

  /** `BT <fill> /<font> <size> Tf <x> <y> Td `, in front of a literal with the given text. */
  function ReadOperands(s: string, text: string): Option<Drawn> {
    match After(s, "BT ")
    case None => None
    case Some(r1) =>
      var n := RunLength(r1, NotSlash);
      if n == 0 || n == |r1| then None
      else
        var r2 := r1[n + 1..];
        var m := RunLength(r2, NotBlank);
        match After(r2[m..], " ")
        case None => None
        case Some(r3) => ReadSizeAndPoint(r1[..n - 1], r2[..m], r3, text)
  }

  function ReadSizeAndPoint(fill: string, font: string, s: string, text: string): Option<Drawn> {
    match ReadNumber(s, " Tf ")
    case None => None
    case Some(Digits(size, r1)) =>
      match ReadNumber(r1, " ")
      case None => None
      case Some(Digits(x, r2)) =>
        match ReadNumber(r2, " Td ")
        case None => None
        case Some(Digits(y, r3)) => if r3 == "" then Some(Drawn(fill, font, size, x, y, text)) else None
  }

  /** The texts a content stream draws, one text object after the other. */
  function ReadDrawn(s: string): Option<seq<Drawn>>
    decreases |s|
  {
    if s == "" then Some([])
    else
      var n := RunLength(s, NotParenthesis);
      if n == |s| then None
      else
        match ReadLiteral(s[n + 1..], 0)
        case None => None
        case Some((text, r1)) =>
          match After(r1, " Tj ET\n")
          case None => None
          case Some(r2) => InFront(ReadOperands(s[..n], text), ReadDrawn(r2))
  }

  function InFront(first: Option<Drawn>, more: Option<seq<Drawn>>): Option<seq<Drawn>> {
    if first.None? || more.None? then None else Some([first.value] + more.value)
  }

  function ReadDrawnPages(pages: seq<bytes>): Option<seq<seq<Drawn>>> {
    if pages == [] then Some([])
    else
      match (ReadDrawnPages(pages[..|pages|-1]), ReadDrawn(Chars(pages[|pages|-1])))
      case (Some(before), Some(page)) => Some(before + [page])
      case _ => None
  }

  /** All that a report file draws, page by page. */
  function ReadDrawing(file: bytes): Option<seq<seq<Drawn>>> {
    match ReadDocument(file)
    case None => None
    case Some(pages) => ReadDrawnPages(pages)
  }

  // ----- What is to be drawn -----

  /** Title in bold 16 points at 770, what there is of subtitle and date in grey 9 points at 752, and the labels in bold
      blue 9 points, 16 above the first row. */
  function Headings(table: Table): seq<Drawn> {
    var title := if table.title != "" then table.title else "Report";
    var date := "Generated " + table.generatedAt;
    var below :=
      if table.subtitle != "" && table.generatedAt != "" then [table.subtitle + " \U{2022} " + date]
      else if table.subtitle != "" then [table.subtitle]
      else if table.generatedAt != "" then [date] else [];
    [Drawn("0 0 0 rg", "F2", 16, 40, 770, AsRead(title))]
    + (if below != [] then [Drawn("0.45 0.45 0.45 rg", "F1", 9, 40, 752, AsRead(below[0]))] else [])
    + [Drawn("0.23 0.51 0.96 rg", "F2", 9, 40, if below != [] then 730 else 746,
             AsRead(Join(Labels(table.columns), "   ")))]
  }

  /** Row k: its cells, cut to size, in 9 points at its baseline. */
  function DrawnRow(table: Table, k: nat): Drawn
    requires k < |table.rows|
  {
    Drawn("0 0 0 rg", "F1", 9, 40, Baseline(table, k),
          AsRead(Join(TruncateAll(Cells(table.columns, table.rows[k])), "   ")))
  }

  function DrawnRows(table: Table, from: nat, to: nat): (rows: seq<Drawn>)
    requires from <= to <= |table.rows|
    ensures |rows| == to - from && forall k :: from <= k < to ==> rows[k - from] == DrawnRow(table, k)
  {
    if from == to then [] else DrawnRows(table, from, to - 1) + [DrawnRow(table, to - 1)]
  }

  /** The drawing of a page: the headings on the first, and a range of rows that is this page's. */
  ghost predicate IsDrawing(page: seq<Drawn>, table: Table, p: nat) {
    exists from: nat, to: nat :: HoldsRows(page, table, p, from, to)
  }

  ghost predicate HoldsRows(page: seq<Drawn>, table: Table, p: nat, from: nat, to: nat) {
    && from <= to <= |table.rows|
    && page == (if p == 0 then Headings(table) else []) + DrawnRows(table, from, to)
    && forall k :: 0 <= k < |table.rows| ==> (from <= k < to <==> PageOf(table, k) == p)
  }

  // ----- Reading the operands -----

  lemma {:induction false} RunStops(a: string, s: string, p: char -> bool)
    requires (forall c <- a :: p(c)) && (s == [] || !p(s[0]))
    ensures RunLength(a + s, p) == |a| && (a + s)[..|a|] == a && (a + s)[|a|..] == s
  {
    if a == [] {
      assert a + s == s;
    } else {
      assert a[0] in a;
      assert (a + s)[1..] == a[1..] + s;
      RunStops(a[1..], s, p);
    }
  }

  lemma AfterOwn(text: string, rest: string)
    ensures After(text + rest, text) == Some(rest)
  {
    assert (text + rest)[..|text|] == text && (text + rest)[|text|..] == rest;
  }

  lemma ReadOwnNumber(n: nat, text: string, rest: string)
    requires text != "" && !IsDigit(text[0])
    ensures ReadNumber(Decimal(n) + (text + rest), text) == Some(Digits(n, rest))
  {
    hide Decimal, DecimalValue;
    RunStops(Decimal(n), text + rest, IsDigit);
    AfterOwn(text, rest);
    DecimalRoundTrip(n);
  }

  lemma ReadOwnOperands(fill: string, font: string, size: nat, x: nat, y: nat, text: string)
    requires '/' !in fill && ' ' !in font
    ensures ReadOperands("BT " + (fill + " " + ("/" + (font + (" " + PointText(size, x, y))))), text)
         == Some(Drawn(fill, font, size, x, y, text))
  {
    hide PointText, RunLength, ReadSizeAndPoint;
    var r3 := PointText(size, x, y);
    var r2 := font + (" " + r3);
    var r1 := fill + " " + ("/" + r2);
    AfterOwn("BT ", r1);
    assert forall c <- fill + " " :: NotSlash(c);
    RunStops(fill + " ", "/" + r2, NotSlash);
    assert r1[..|fill|] == fill;
    assert r1[|fill| + 2..] == r2;
    RunStops(font, " " + r3, NotBlank);
    AfterOwn(" ", r3);
    PointReadsBack(fill, font, size, x, y, text);
  }

  function PointText(size: nat, x: nat, y: nat): string {
    Decimal(size) + (" Tf " + (Decimal(x) + (" " + (Decimal(y) + (" Td " + "")))))
  }

  lemma PointReadsBack(fill: string, font: string, size: nat, x: nat, y: nat, text: string)
    ensures ReadSizeAndPoint(fill, font, PointText(size, x, y), text) == Some(Drawn(fill, font, size, x, y, text))
  {
    hide Decimal, ReadNumber;
    var r2 := Decimal(y) + (" Td " + "");
    var r1 := Decimal(x) + (" " + r2);
    ReadOwnNumber(size, " Tf ", r1);
    ReadOwnNumber(x, " ", r2);
    ReadOwnNumber(y, " Td ", "");
  }

  /** The operation draws the text with these operands. */
  ghost predicate Draws(op: string, before: string, text: string, drawn: Drawn) {
    && Shows(op, before, text) && ReadOperands(before, AsRead(text)) == Some(drawn)
  }

  ghost predicate IsDraw(op: string, drawn: Drawn) { exists before, text :: Draws(op, before, text, drawn) }

  ghost predicate AreDraws(ops: seq<string>, drawn: seq<Drawn>) {
    |ops| == |drawn| && forall i :: 0 <= i < |ops| ==> IsDraw(ops[i], drawn[i])
  }

  lemma TextOpDraws(font: string, size: nat, text: string, y: nat, fill: string)
    requires IsPlainText(font) && IsPlainText(fill) && '/' !in fill && ' ' !in font
    ensures IsDraw(TextOp(font, size, text, y, fill), Drawn(fill, font, size, 40, y, AsRead(text)))
  {
    hide PdfEscape, Decimal, AsRead, ReadOperands;
    var before := "BT " + (fill + " " + ("/" + (font + (" " + PointText(size, 40, y)))));
    assert IsPlainText(before) by { OperandsArePlain(fill, font, size, 40, y); }
    assert TextOp(font, size, text, y, fill) == before + ("(" + (PdfEscape(text) + ") Tj ET"));
    ReadOwnOperands(fill, font, size, 40, y, AsRead(text));
    assert Draws(TextOp(font, size, text, y, fill), before, text, Drawn(fill, font, size, 40, y, AsRead(text)));
  }

  lemma OperandsArePlain(fill: string, font: string, size: nat, x: nat, y: nat)
    requires IsPlainText(font) && IsPlainText(fill)
    ensures IsPlainText("BT " + (fill + " " + ("/" + (font + (" " + PointText(size, x, y))))))
  {
    hide Decimal, IsPlainText;
    assert IsPlainText("BT ") && IsPlainText(" ") && IsPlainText("/") by { PlainPieces(); }
    PointIsPlain(size, x, y);
    var r3 := PointText(size, x, y);
    PlainConcat(" ", r3);
    PlainConcat(font, " " + r3);
    PlainConcat("/", font + (" " + r3));
    PlainConcat(fill, " ");
    PlainConcat(fill + " ", "/" + (font + (" " + r3)));
    PlainConcat("BT ", fill + " " + ("/" + (font + (" " + r3))));
  }

  lemma PlainPieces()
    ensures IsPlainText("BT ") && IsPlainText(" ") && IsPlainText("/") && IsPlainText(" Tf ") && IsPlainText(" Td ")
  {
  }

  lemma PointIsPlain(size: nat, x: nat, y: nat)
    ensures IsPlainText(PointText(size, x, y))
  {
    hide Decimal, IsPlainText;
    PlainPieces();
    DigitsArePlain(Decimal(size));
    DigitsArePlain(Decimal(x));
    DigitsArePlain(Decimal(y));
    assert " Td " + "" == " Td ";
    PlainConcat(Decimal(y), " Td ");
    PlainConcat(" ", Decimal(y) + " Td ");
    PlainConcat(Decimal(x), " " + (Decimal(y) + " Td "));
    PlainConcat(" Tf ", Decimal(x) + (" " + (Decimal(y) + " Td ")));
    PlainConcat(Decimal(size), " Tf " + (Decimal(x) + (" " + (Decimal(y) + " Td "))));
  }

  /** One text object, and what the stream draws after it. */
  lemma ReadDraw(before: string, u: string, rest: string)
    requires '(' !in before
    ensures ReadDrawn(before + ("(" + (PdfEscape(u) + ")" + (" Tj ET\n" + rest))))
         == InFront(ReadOperands(before, EolNormalised(u)), ReadDrawn(rest))
  {
    hide PdfEscape, EolNormalised, ReadLiteral, ReadOperands;
    var literal := PdfEscape(u) + ")" + (" Tj ET\n" + rest);
    PdfLiteralReadsBack(u, " Tj ET\n" + rest);
    AfterOwn(" Tj ET\n", rest);
    RunStops(before, "(" + literal, NotParenthesis);
    assert (before + ("(" + literal))[|before| + 1..] == literal;
  }

  lemma ReadDrawOperation(op: string, drawn: Drawn, rest: string)
    requires IsDraw(op, drawn)
    ensures ReadDrawn(Raw(op) + ("\n" + rest)) == InFront(Some(drawn), ReadDrawn(rest))
  {
    hide PdfEscape, EolNormalised, ReadDrawn, ReadOperands, Raw;
    var before, text :| Draws(op, before, text, drawn);
    RawConcat(before, "(" + (PdfEscape(text) + ") Tj ET"));
    RawConcat("(", PdfEscape(text) + ") Tj ET");
    RawConcat(PdfEscape(text), ") Tj ET");
    RawAscii(before);
    RawAscii("(");
    RawAscii(") Tj ET");
    EscapeRaw(text);
    NormaliseRaw(text);
    ReadDraw(before, Raw(text), rest);
    var escaped := PdfEscape(Raw(text));
    assert Raw(op) == before + ("(" + (escaped + ") Tj ET"));
    DrawTail(before, escaped, rest);
  }

  lemma DrawTail(before: string, escaped: string, rest: string)
    ensures before + ("(" + (escaped + ") Tj ET")) + ("\n" + rest)
         == before + ("(" + (escaped + ")" + (" Tj ET\n" + rest)))
  {
    assert ") Tj ET" + "\n" == ")" + " Tj ET\n";
  }

  lemma {:induction false} ReadDraws(ops: seq<string>, drawn: seq<Drawn>)
    requires AreDraws(ops, drawn) && ops != []
    ensures ReadDrawn(Raw(Render(ops))) == Some(drawn)
    decreases |ops|
  {
    hide ReadDrawn, Raw, IsDraw;
    RawAscii("\n");
    NothingDrawn();
    if |ops| == 1 {
      assert Render(ops) == ops[0] + "\n";
      RawConcat(ops[0], "\n");
      ReadDrawOperation(ops[0], drawn[0], "");
      assert Raw(ops[0]) + ("\n" + "") == Raw(ops[0]) + "\n";
      assert [drawn[0]] + [] == drawn;
    } else {
      var more := Render(ops[1..]);
      ReadDraws(ops[1..], drawn[1..]);
      assert Render(ops) == ops[0] + ("\n" + more);
      RawConcat(ops[0], "\n" + more);
      RawConcat("\n", more);
      ReadDrawOperation(ops[0], drawn[0], Raw(more));
      assert [drawn[0]] + drawn[1..] == drawn;
    }
  }

  lemma NothingDrawn()
    ensures ReadDrawn("") == Some([])
  {
  }

  // ----- The operations of a page -----

  lemma HeadingsAreDrawn(table: Table)
    ensures AreDraws(HeaderOps(table), Headings(table))
  {
    hide IsDraw, TextOp, AsRead, Join, IsAscii;
    FontsAndFills();
    TextOpDraws("F2", 16, Title(table), 770, "0 0 0 rg");
    TextOpDraws("F1", 9, Subtitle(table), 752, "0.45 0.45 0.45 rg");
    TextOpDraws("F2", 9, HeaderLine(table), TopBaseline(table) + LINE_HEIGHT + 2, "0.23 0.51 0.96 rg");
  }

  lemma FontsAndFills()
    ensures IsPlainText("F1") && IsPlainText("F2") && ' ' !in "F1" && ' ' !in "F2"
    ensures IsPlainText("0 0 0 rg") && IsPlainText("0.45 0.45 0.45 rg") && IsPlainText("0.23 0.51 0.96 rg")
    ensures '/' !in "0 0 0 rg" && '/' !in "0.45 0.45 0.45 rg" && '/' !in "0.23 0.51 0.96 rg"
  {
  }

  lemma RowsAreDrawn(table: Table, from: nat, to: nat)
    requires from <= to <= |table.rows|
    ensures AreDraws(RowOps(table, from, to), DrawnRows(table, from, to))
  {
    hide IsDraw, TextOp, RowOps, DrawnRows, Baseline, AsRead, Join, IsAscii;
    FontsAndFills();
    var ops, rows := RowOps(table, from, to), DrawnRows(table, from, to);
    forall i | 0 <= i < |ops|
      ensures IsDraw(ops[i], rows[i])
    {
      var k := from + i;
      assert ops[k - from] == RowOp(table, k) && rows[k - from] == DrawnRow(table, k);
      TextOpDraws("F1", 9, RowLine(table, table.rows[k]), Baseline(table, k), "0 0 0 rg");
    }
  }

  function DrawnPage(table: Table, p: nat): seq<Drawn>
    requires FirstRow(table, p) <= EndRow(table, p)
  {
    (if p == 0 then Headings(table) else []) + DrawnRows(table, FirstRow(table, p), EndRow(table, p))
  }

  lemma ReadDrawnPage(table: Table, p: nat)
    requires p < PageCount(table) == |Pages(table)|
    ensures FirstRow(table, p) <= EndRow(table, p)
    ensures ReadDrawn(Raw(Pages(table)[p])) == Some(DrawnPage(table, p))
    ensures HoldsRows(DrawnPage(table, p), table, p, FirstRow(table, p), EndRow(table, p))
  {
    PageBounds(table, p);
    PageHoldsRows(table, p);
    PageIsDrawn(table, p);
    hide ReadDrawn, Raw, Render, PageCount, FirstRow, EndRow, PageOps, DrawnPage, AreDraws, HoldsRows;
    ReadDraws(PageOps(table, p, EndRow(table, p)), DrawnPage(table, p));
  }

  lemma PageHoldsRows(table: Table, p: nat)
    requires p < PageCount(table) && FirstRow(table, p) <= EndRow(table, p)
    ensures HoldsRows(DrawnPage(table, p), table, p, FirstRow(table, p), EndRow(table, p))
  {
    assert EndRow(table, p) <= |table.rows|;
    RowsOfPage(table, p);
    hide PageCount, PageOf, FirstRow, EndRow, Headings, DrawnRows;
  }

  lemma PageIsDrawn(table: Table, p: nat)
    requires p < PageCount(table) && FirstRow(table, p) <= EndRow(table, p)
    ensures AreDraws(PageOps(table, p, EndRow(table, p)), DrawnPage(table, p))
    ensures PageOps(table, p, EndRow(table, p)) != []
  {
    hide PageCount, FirstRow, EndRow, AreDraws, HeaderOps, Headings, RowOps, DrawnRows;
    PageBounds(table, p);
    EndIsRow(table, p);
    PartsAreDrawn(table, p == 0, FirstRow(table, p), EndRow(table, p));
  }

  lemma EndIsRow(table: Table, p: nat)
    ensures EndRow(table, p) <= |table.rows|
  {
  }

  /** Headings, if this is the first page, and rows. */
  lemma PartsAreDrawn(table: Table, first: bool, from: nat, to: nat)
    requires from <= to <= |table.rows| && (first || from < to)
    ensures var ops := (if first then HeaderOps(table) else []) + RowOps(table, from, to);
            ops != [] && AreDraws(ops, (if first then Headings(table) else []) + DrawnRows(table, from, to))
  {
    HeadersAreThere(table);
    HeadingsAreDrawn(table);
    RowsAreDrawn(table, from, to);
    hide AreDraws, HeaderOps, Headings, RowOps, DrawnRows;
    NothingDraws();
    DrawsConcat(if first then HeaderOps(table) else [], if first then Headings(table) else [],
                RowOps(table, from, to), DrawnRows(table, from, to));
  }

  lemma NothingDraws()
    ensures AreDraws([], [])
  {
  }

  lemma DrawsConcat(a: seq<string>, drawnA: seq<Drawn>, b: seq<string>, drawnB: seq<Drawn>)
    requires AreDraws(a, drawnA) && AreDraws(b, drawnB)
    ensures AreDraws(a + b, drawnA + drawnB)
  {
    hide IsDraw;
  }

  lemma HeadersAreThere(table: Table)
    ensures HeaderOps(table) != []
  {
  }

  lemma RowsOfPage(table: Table, p: nat)
    requires p < PageCount(table)
    ensures forall k :: 0 <= k < |table.rows| ==>
                          (FirstRow(table, p) <= k < EndRow(table, p) <==> PageOf(table, k) == p)
  {
    hide PageCount, PageOf, FirstRow, EndRow;
    forall k | 0 <= k < |table.rows|
      ensures FirstRow(table, p) <= k < EndRow(table, p) <==> PageOf(table, k) == p
    {
      EveryRowHasItsPlace(table, k);
    }
  }

  lemma {:induction false} ReadAllDrawn(pages: seq<string>, drawn: seq<seq<Drawn>>)
    requires |pages| == |drawn|
    requires forall i :: 0 <= i < |pages| ==> ReadDrawn(Raw(pages[i])) == Some(drawn[i])
    ensures ReadDrawnPages(Encoded(pages)) == Some(drawn)
    decreases |pages|
  {
    hide ReadDrawn, Chars;
    if pages != [] {
      var last := |pages| - 1;
      ReadAllDrawn(pages[..last], drawn[..last]);
      var encoded := Encoded(pages);
      assert encoded[..last] == Encoded(pages[..last]);
      assert encoded[last] == Utf8(pages[last]);
      assert drawn == drawn[..last] + [drawn[last]];
    }
  }

  /** From the last byte of the file a reader is led to a drawing of the report: on the first page title, subtitle if
      any, and labels at their fixed places, then on each page its rows, from 40 points on, each at its baseline. */
  lemma ReportIsDrawn(table: Table) returns (pages: seq<seq<Drawn>>)
    requires var objects := DocumentObjects(Pages(table)); Offset(objects, |objects|) < Pow10(10)
    ensures ReadDrawing(FileBytes(DocumentObjects(Pages(table)))) == Some(pages)
    ensures |pages| == PageCount(table) && forall p :: 0 <= p < |pages| ==> IsDrawing(pages[p], table, p)
  {
    hide ReadDrawn, ReadDrawnPages, ReadDocument, Raw, Encoded, Pages, DocumentObjects, FileBytes, Offset, Pow10,
        PageCount, FirstRow, EndRow, DrawnPage, HoldsRows;
    ExportReadsBack(table);
    forall p | 0 <= p < PageCount(table) ensures FirstRow(table, p) <= EndRow(table, p) { PageBounds(table, p); }
    pages := seq(PageCount(table), p requires 0 <= p < PageCount(table) => DrawnPage(table, p));
    forall p | 0 <= p < |pages|
      ensures ReadDrawn(Raw(Pages(table)[p])) == Some(pages[p]) && IsDrawing(pages[p], table, p)
    {
      ReadDrawnPage(table, p);
    }
    ReadAllDrawn(Pages(table), pages);
  }

  // ----- The codes a viewer shows -----

  /** Text that is not ASCII takes more bytes than it has characters. */
  lemma {:induction false} Utf8Length(s: string)
    ensures |Utf8(s)| >= |s| && (|Utf8(s)| == |s| <==> IsAscii(s))
  {
    if s != [] {
      Utf8Length(s[1..]);
      assert IsAscii(s) <==> s[0] < '\U{0080}' && IsAscii(s[1..]) by {
        assert s == [s[0]] + s[1..];
      }
    }
  }

  /** A line that is shown as it is, one code a character. */
  ghost predicate IsPlainLine(s: string) { IsAscii(s) && '\r' !in s }

  lemma SameCodes(s: string)
    ensures AsRead(s) == s <==> IsPlainLine(s)
  {
    hide Raw, EolNormalised, IsAscii;
    EolNormalisedId(s);
    ReturnInRaw(EolNormalised(s));
    Utf8Length(s);
    assert |Raw(s)| == |Utf8(s)| by { RawLength(s); }
    if IsAscii(s) { RawAscii(s); }
  }

  lemma RawLength(s: string)
    ensures |Raw(s)| == |Utf8(s)|
  {
  }

  lemma SameCodesInAll(lines: seq<string>)
    ensures AllAsRead(lines) == lines <==> forall line <- lines :: IsPlainLine(line)
  {
    hide AsRead, IsPlainLine;
    forall i | 0 <= i < |lines|
      ensures AllAsRead(lines)[i] == lines[i] <==> IsPlainLine(lines[i])
    {
      SameCodes(lines[i]);
    }
    if forall line <- lines :: IsPlainLine(line) {
      assert AllAsRead(lines) == lines;
    }
    if AllAsRead(lines) == lines {
      forall line <- lines ensures IsPlainLine(line) {
        var i :| 0 <= i < |lines| && lines[i] == line;
      }
    }
  }

  /** The fonts take one byte for one character, but the texts are written in UTF-8. So the codes shown are the
      characters of the report exactly when every line is ASCII without a carriage return. */
  lemma ReportIsShown(table: Table)
    requires var objects := DocumentObjects(Pages(table)); Offset(objects, |objects|) < Pow10(10)
    ensures ReadReport(FileBytes(DocumentObjects(Pages(table)))) == Some(ReportLines(table))
       <==> forall line <- ReportLines(table) :: IsPlainLine(line)
  {
    hide ReadReport, AsRead, IsPlainLine, Pages, DocumentObjects, FileBytes, ReportLines, Offset, Pow10;
    ReportReadsBack(table);
    SameCodesInAll(ReportLines(table));
  }

  lemma BulletLine(table: Table)
    requires table.subtitle != "" && table.generatedAt != ""
    ensures Subtitle(table) in ReportLines(table) && !IsPlainLine(Subtitle(table))
  {
    hide RowLines, Title, HeaderLine;
    var s, n := Subtitle(table), |table.subtitle|;
    assert s[n + 1] == '\U{2022}';
    assert HeaderLines(table)[1] == s;
    assert s in HeaderLines(table);
  }

  /** A report with both a subtitle and a date is never shown as it is, because of the bullet between them. */
  lemma BulletIsNotShown(table: Table)
    requires var objects := DocumentObjects(Pages(table)); Offset(objects, |objects|) < Pow10(10)
    requires table.subtitle != "" && table.generatedAt != ""
    ensures ReadReport(FileBytes(DocumentObjects(Pages(table)))) != Some(ReportLines(table))
  {
    BulletLine(table);
    hide ReadReport, IsPlainLine, Pages, DocumentObjects, FileBytes, ReportLines, Offset, Pow10, Subtitle;
    ReportIsShown(table);
  }
}
