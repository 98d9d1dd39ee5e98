/** Pagination of a report: which row goes on which page, and where. */
module PdfLayout {
  import opened Text
  import opened Tables
  import opened Escaping
  import opened PdfFile
  import opened PdfDocument

  const PAGE_HEIGHT := 792
  const MARGIN := 40
  const LINE_HEIGHT := 14
  const BOTTOM_LIMIT := 50

  // ----- Lines of text -----

  function TextOp(font: string, size: nat, text: string, y: nat, fill: string): string {
    "BT " + fill + " /" + font + " " + Decimal(size) + " Tf " + Decimal(MARGIN) + " " + Decimal(y) + " Td ("
        + PdfEscape(text) + ") Tj ET"
  }

  /** The length JavaScript reports: a character outside the basic plane counts as two. */
  function Units(s: string): nat {
    if s == [] then 0 else CharUnits(s[0]) + Units(s[1..])
  }

  function CharUnits(c: char): nat { if c < '\U{10000}' then 1 else 2 }

  /** The characters that UTF-16 needs two units for. */
  function Supplementary(s: string): nat {
    if s == [] then 0 else (if s[0] > '\U{FFFF}' then 1 else 0) + Supplementary(s[1..])
  }

  /** The length counts every character once, and those once more. */
  lemma {:induction false} UnitsOfText(s: string)
    ensures Units(s) == |s| + Supplementary(s)
  {
    if s != [] { UnitsOfText(s[1..]); }
  }

  /** `s.slice(0, n)` as it is later encoded: half of a surrogate pair becomes U+FFFD. */
  function Slice(s: string, n: nat): (r: string)
    ensures Units(r) <= n
  {
    if s == [] || n == 0 then []
    else if CharUnits(s[0]) > n then ['\U{FFFD}']
    else
      var r := [s[0]] + Slice(s[1..], n - CharUnits(s[0]));
      assert r[1..] == Slice(s[1..], n - CharUnits(s[0]));
      r
  }

  const MAX_CELL := 95

  function Truncate(s: string): string {
    if Units(s) <= MAX_CELL then s else Slice(s, MAX_CELL - 3) + "..."
  }

  lemma {:induction false} UnitsConcat(a: string, b: string)
    ensures Units(a + b) == Units(a) + Units(b)
  {
    if a == [] {
      assert a + b == b;
    } else {
      assert (a + b)[1..] == a[1..] + b;
      UnitsConcat(a[1..], b);
    }
  }

  /** The first n units of a text: characters of it, or one fewer and U+FFFD where a surrogate pair is cut in half. */
  ghost predicate IsStart(r: string, s: string, n: nat) {
    && Units(r) == n
    && (r <= s
        || (r != [] && r[|r|-1] == '\U{FFFD}' && |r| <= |s| && r[..|r|-1] == s[..|r|-1] && s[|r|-1] >= '\U{10000}'))
  }

  lemma {:induction false} SliceIsStart(s: string, n: nat)
    requires n <= Units(s)
    ensures IsStart(Slice(s, n), s, n)
  {
    if s != [] && n > 0 && CharUnits(s[0]) <= n {
      var r := Slice(s[1..], n - CharUnits(s[0]));
      SliceIsStart(s[1..], n - CharUnits(s[0]));
      assert ([s[0]] + r)[1..] == r;
      assert s == [s[0]] + s[1..];
      if r <= s[1..] {
        assert [s[0]] + r <= s;
      } else {
        assert ([s[0]] + r)[..|r|] == [s[0]] + r[..|r|-1];
        assert s[..|r|] == [s[0]] + s[1..][..|r|-1];
      }
    } else if n > 0 {
      assert Units(['\U{FFFD}']) == 1;
    }
  }

  /** A cell of up to 95 units stays as it is; of a longer one the first 92 stay, with three dots behind them. */
  lemma TruncateBound(s: string)
    ensures Units(s) <= 95 ==> Truncate(s) == s
    ensures Units(s) > 95 ==> Units(Truncate(s)) == 95 && exists r :: IsStart(r, s, 92) && Truncate(s) == r + "..."
  {
    if Units(s) > MAX_CELL {
      SliceIsStart(s, 92);
      UnitsConcat(Slice(s, MAX_CELL - 3), "...");
      assert Units("...") == 3;
    }
  }

  function TruncateAll(cells: seq<string>): (r: seq<string>)
    ensures |r| == |cells| && forall i :: 0 <= i < |cells| ==> r[i] == Truncate(cells[i])
  {
    seq(|cells|, i requires 0 <= i < |cells| => Truncate(cells[i]))
  }

  function HeaderLine(table: Table): string { Join(Labels(table.columns), "   ") }

  function RowLine(table: Table, row: Row): string { Join(TruncateAll(Cells(table.columns, row)), "   ") }

  /** The subtitle and generation date, those that are there, joined by a bullet. */
  function Subtitle(table: Table): string {
    var generated := if table.generatedAt != "" then "Generated " + table.generatedAt else "";
    if table.subtitle == "" then generated
    else if generated == "" then table.subtitle
    else table.subtitle + " \U{2022} " + generated
  }

  function Title(table: Table): string { if table.title != "" then table.title else "Report" }

  // ----- Closed form -----

  /** Rows on the first page: 48 below a subtitle line, 49 otherwise. */
  function Capacity(table: Table): nat { if Subtitle(table) != "" then 48 else 49 }

  const FULL_PAGE := 51

  /** Baseline of the first row of the report. */
  function TopBaseline(table: Table): nat { if Subtitle(table) != "" then 714 else 730 }

  function PageCount(table: Table): nat {
    var n, c := |table.rows|, Capacity(table);
    if n <= c then 1 else 1 + (n - c + FULL_PAGE - 1) / FULL_PAGE
  }

  function FirstRow(table: Table, page: nat): nat {
    if page == 0 then 0 else Capacity(table) + FULL_PAGE * (page - 1)
  }

  /** One past the last row of a page. */
  function EndRow(table: Table, page: nat): nat {
    if FirstRow(table, page + 1) <= |table.rows| then FirstRow(table, page + 1) else |table.rows|
  }

  function PageOf(table: Table, row: nat): nat {
    if row < Capacity(table) then 0 else 1 + (row - Capacity(table)) / FULL_PAGE
  }

  function Baseline(table: Table, row: nat): (y: nat)
    ensures BOTTOM_LIMIT <= y <= PAGE_HEIGHT - MARGIN
  {
    if row < Capacity(table) then TopBaseline(table) - LINE_HEIGHT * row
    else PAGE_HEIGHT - MARGIN - LINE_HEIGHT * ((row - Capacity(table)) % FULL_PAGE)
  }

  function RowOp(table: Table, row: nat): string
    requires row < |table.rows|
  {
    RowText(table, row, Baseline(table, row))
  }

  function RowText(table: Table, row: nat, y: nat): string
    requires row < |table.rows|
  {
    TextOp("F1", 9, RowLine(table, table.rows[row]), y, "0 0 0 rg")
  }

  function RowOps(table: Table, from: nat, to: nat): (ops: seq<string>)
    requires from <= to <= |table.rows|
    ensures |ops| == to - from
    ensures forall k :: from <= k < to ==> ops[k - from] == RowOp(table, k)
  {
    if from == to then [] else RowOps(table, from, to - 1) + [RowOp(table, to - 1)]
  }

  /** Title, subtitle if any, and column headers, at their fixed baselines. */
  function HeaderOps(table: Table): seq<string> {
    [TextOp("F2", 16, Title(table), 770, "0 0 0 rg")]
    + (if Subtitle(table) != "" then [TextOp("F1", 9, Subtitle(table), 752, "0.45 0.45 0.45 rg")] else [])
    + [TextOp("F2", 9, HeaderLine(table), TopBaseline(table) + LINE_HEIGHT + 2, "0.23 0.51 0.96 rg")]
  }

  function PageOps(table: Table, page: nat, to: nat): seq<string>
    requires FirstRow(table, page) <= to <= |table.rows|
  {
    (if page == 0 then HeaderOps(table) else []) + RowOps(table, FirstRow(table, page), to)
  }

  function Render(lines: seq<string>): string { Join(lines, "\n") + "\n" }

  lemma PageBounds(table: Table, page: nat)
    requires page < PageCount(table)
    ensures FirstRow(table, page) <= EndRow(table, page)
    ensures page > 0 ==> FirstRow(table, page) < EndRow(table, page)
    ensures EndRow(table, page) == if page + 1 < PageCount(table) then FirstRow(table, page + 1) else |table.rows|
  {
  }

  /** The pages of the report, each from its closed-form range of rows. */
  function Pages(table: Table): (pages: seq<string>)
    ensures |pages| == PageCount(table)
    ensures forall p :: 0 <= p < |pages| ==>
                          FirstRow(table, p) <= EndRow(table, p)
                              && pages[p] == Render(PageOps(table, p, EndRow(table, p)))
  {
    seq(PageCount(table), p requires 0 <= p < PageCount(table) =>
      PageBounds(table, p);
      Render(PageOps(table, p, EndRow(table, p))))
  }

  // ----- The loop -----

  /** Title, subtitle and column headers: the part of `layout` before its loop. */
  method StartReport(table: Table) returns (lines: seq<string>, y: int)
    ensures lines == HeaderOps(table) && y == TopBaseline(table)
  {
    y := PAGE_HEIGHT - 22;
    lines := [TextOp("F2", 16, Title(table), y, "0 0 0 rg")];
    y := y - 18;
    if Subtitle(table) != "" {
      lines := lines + [TextOp("F1", 9, Subtitle(table), y, "0.45 0.45 0.45 rg")];
      y := y - 16;
    }
    y := y - 6;
    lines := lines + [TextOp("F2", 9, HeaderLine(table), y, "0.23 0.51 0.96 rg")];
    y := y - (LINE_HEIGHT + 2);
  }

  /** The finished pages hold exactly the rows of their ranges. */
  ghost predicate Finished(table: Table, pages: seq<string>) {
    forall p :: 0 <= p < |pages| ==>
                  && FirstRow(table, p) <= EndRow(table, p)
                  && EndRow(table, p) == FirstRow(table, p + 1)
                  && pages[p] == Render(PageOps(table, p, EndRow(table, p)))
  }

  /** `PdfExporter.layout`. */
  method Layout(table: Table) returns (pages: seq<string>)
    ensures pages == Pages(table)
  {
    hide Render, RowText, HeaderOps, PageCount, RowOps, TextOp, Baseline;
    pages := [];
    var lines, y := StartReport(table);
    assert lines == PageOps(table, 0, 0);
    for i := 0 to |table.rows|
      invariant FirstRow(table, |pages|) <= i <= FirstRow(table, |pages| + 1)
      invariant |pages| > 0 ==> FirstRow(table, |pages|) < i
      invariant lines == PageOps(table, |pages|, i)
      invariant Finished(table, pages)
      invariant y == NextBaseline(table, |pages|, i)
    {
      if y < BOTTOM_LIMIT {
        FullPage(table, pages, lines, i);
        pages := pages + [Render(lines)];
        lines := [];
        y := PAGE_HEIGHT - MARGIN;
      }
      AddRow(table, |pages|, i);
      lines := lines + [RowText(table, i, y)];
      y := y - LINE_HEIGHT;
    }
    AllPages(table, pages, lines);
    pages := pages + [Render(lines)];
  }

  lemma AddRow(table: Table, page: nat, row: nat)
    requires FirstRow(table, page) <= row < FirstRow(table, page + 1) && row < |table.rows|
    ensures NextBaseline(table, page, row) >= BOTTOM_LIMIT
    ensures PageOps(table, page, row + 1)
            == PageOps(table, page, row) + [RowText(table, row, NextBaseline(table, page, row))]
    ensures NextBaseline(table, page, row + 1) == NextBaseline(table, page, row) - LINE_HEIGHT
  {
    RowBaseline(table, page, row);
  }

  lemma AllPages(table: Table, pages: seq<string>, lines: seq<string>)
    requires FirstRow(table, |pages|) <= |table.rows| <= FirstRow(table, |pages| + 1)
    requires |pages| > 0 ==> FirstRow(table, |pages|) < |table.rows|
    requires Finished(table, pages) && lines == PageOps(table, |pages|, |table.rows|)
    ensures pages + [Render(lines)] == Pages(table)
  {
    hide Render, PageOps, PageCount, FirstRow, EndRow;
    LastPage(table, |pages|);
  }

  lemma FullPage(table: Table, pages: seq<string>, lines: seq<string>, row: nat)
    requires FirstRow(table, |pages|) <= row <= FirstRow(table, |pages| + 1) && row < |table.rows|
    requires NextBaseline(table, |pages|, row) < BOTTOM_LIMIT
    requires lines == PageOps(table, |pages|, row) && Finished(table, pages)
    ensures row == FirstRow(table, |pages| + 1)
    ensures Finished(table, pages + [Render(lines)])
    ensures PageOps(table, |pages| + 1, row) == []
  {
    hide Render, RowText, HeaderOps, FirstRow, EndRow, NextBaseline, PageOps;
    PageIsFull(table, |pages|, row);
    OnePageMore(table, pages, Render(lines));
  }

  lemma OnePageMore(table: Table, pages: seq<string>, page: string)
    requires Finished(table, pages)
             && FirstRow(table, |pages|) <= EndRow(table, |pages|) == FirstRow(table, |pages| + 1)
    requires page == Render(PageOps(table, |pages|, EndRow(table, |pages|)))
    ensures Finished(table, pages + [page])
  {
    hide Render, FirstRow, PageOps;
    var pages' := pages + [page];
    forall p | 0 <= p < |pages'|
      ensures FirstRow(table, p) <= EndRow(table, p) && EndRow(table, p) == FirstRow(table, p + 1)
      ensures pages'[p] == Render(PageOps(table, p, EndRow(table, p)))
    {
      if p < |pages| { assert pages'[p] == pages[p]; }
    }
  }

  lemma PageIsFull(table: Table, page: nat, row: nat)
    requires FirstRow(table, page) <= row <= FirstRow(table, page + 1) && row < |table.rows|
    requires NextBaseline(table, page, row) < BOTTOM_LIMIT
    ensures row == FirstRow(table, page + 1) == EndRow(table, page)
    ensures PageOps(table, page + 1, row) == []
  {
    hide HeaderOps, RowText;
  }

  /** Where the loop would put row i while on the given page. */
  function NextBaseline(table: Table, page: nat, row: nat): int {
    if page == 0 then TopBaseline(table) - LINE_HEIGHT * row
    else PAGE_HEIGHT - MARGIN - LINE_HEIGHT * (row - FirstRow(table, page))
  }

  lemma RowBaseline(table: Table, page: nat, row: nat)
    requires FirstRow(table, page) <= row < FirstRow(table, page + 1)
    ensures NextBaseline(table, page, row) == Baseline(table, row)
    ensures PageOf(table, row) == page
  {
    if page > 0 {
      var d := row - Capacity(table);
      assert d == FULL_PAGE * (page - 1) + (row - FirstRow(table, page));
      assert d / FULL_PAGE == page - 1 && d % FULL_PAGE == row - FirstRow(table, page);
    }
  }

  lemma LastPage(table: Table, page: nat)
    requires FirstRow(table, page) <= |table.rows| <= FirstRow(table, page + 1)
    requires page > 0 ==> FirstRow(table, page) < |table.rows|
    ensures PageCount(table) == page + 1
    ensures EndRow(table, page) == |table.rows|
  {
    if page > 0 {
      var d := |table.rows| - Capacity(table);
      assert FULL_PAGE * (page - 1) < d <= FULL_PAGE * page;
    }
  }

  /** `PdfExporter.export`. */
  method Export(table: Table) returns (file: bytes)
    ensures file == FileBytes(DocumentObjects(Pages(table)))
  {
    var pages := Layout(table);
    var objects := BuildObjects(pages);
    file := Assemble(objects);
  }

  // ----- Properties -----

  /** Every row is on exactly one page of the report, at a baseline between 50 and 752. The first row stands at 714 or,
      without a subtitle, at 730 on the first page. Every other one stands 14 below the row before it, unless that would
      be below 50: then it opens the next page at 752. */
  lemma EveryRowHasItsPlace(table: Table, row: nat)
    requires row < |table.rows|
    ensures PageOf(table, row) < PageCount(table)
    ensures forall p: nat :: p < PageCount(table) ==>
                               (FirstRow(table, p) <= row < EndRow(table, p) <==> p == PageOf(table, row))
    ensures 50 <= Baseline(table, row) <= 752
    ensures row == 0 ==> PageOf(table, row) == 0 &&
                         Baseline(table, row) == if table.subtitle == "" == table.generatedAt then 730 else 714
    ensures row > 0 ==>
              var above := Baseline(table, row - 1);
              if above - 14 >= 50
              then PageOf(table, row) == PageOf(table, row - 1) && Baseline(table, row) == above - 14
              else PageOf(table, row) == PageOf(table, row - 1) + 1 && Baseline(table, row) == 752
  {
    PlaceOf(table, row);
    forall p: nat | p < PageCount(table) && FirstRow(table, p) <= row < EndRow(table, p)
      ensures p == PageOf(table, row)
    {
      RowBaseline(table, p, row);
    }
    if row > 0 { PlaceOf(table, row - 1); }
  }

  lemma PlaceOf(table: Table, row: nat)
    requires row < |table.rows|
    ensures var p := PageOf(table, row);
            && p < PageCount(table) && FirstRow(table, p) <= row < EndRow(table, p)
            && NextBaseline(table, p, row) == Baseline(table, row)
  {
    var p := PageOf(table, row);
    if row >= Capacity(table) {
      var d := row - Capacity(table);
      assert d == FULL_PAGE * (d / FULL_PAGE) + d % FULL_PAGE;
      assert FirstRow(table, p) == Capacity(table) + FULL_PAGE * (d / FULL_PAGE);
      assert FirstRow(table, p + 1) == FirstRow(table, p) + FULL_PAGE;
    }
    RowBaseline(table, p, row);
    PageBeforeEnd(table, p);
  }

  lemma PageBeforeEnd(table: Table, p: nat)
    requires FirstRow(table, p) < |table.rows|
    ensures p < PageCount(table)
  {
    if p > 0 {
      var d := |table.rows| - Capacity(table);
      assert d > FULL_PAGE * (p - 1);
    }
  }

  /** The row lines of the first n pages, one page after the other. */
  function AllRowOps(table: Table, n: nat): seq<string>
    requires n <= PageCount(table)
  {
    if n == 0 then []
    else
      PageBounds(table, n - 1);
      AllRowOps(table, n - 1) + RowOps(table, FirstRow(table, n - 1), EndRow(table, n - 1))
  }

  /** Reading the pages one after the other gives every row once, in the order of the table. */
  lemma RowsAppearOnceInOrder(table: Table)
    ensures AllRowOps(table, PageCount(table)) == RowOps(table, 0, |table.rows|)
  {
    RowsOfFirstPages(table, PageCount(table));
    PageBounds(table, PageCount(table) - 1);
  }

  lemma {:induction false} RowsOfFirstPages(table: Table, n: nat)
    requires n <= PageCount(table)
    ensures n == 0 ==> AllRowOps(table, n) == []
    ensures n > 0 ==> AllRowOps(table, n) == RowOps(table, 0, EndRow(table, n - 1))
  {
    if n > 0 {
      PageBounds(table, n - 1);
      RowsOfFirstPages(table, n - 1);
      if n > 1 { PageBounds(table, n - 2); }
      RowOpsSplit(table, 0, FirstRow(table, n - 1), EndRow(table, n - 1));
    }
  }

  lemma {:induction false} RowOpsSplit(table: Table, a: nat, b: nat, c: nat)
    requires a <= b <= c <= |table.rows|
    ensures RowOps(table, a, c) == RowOps(table, a, b) + RowOps(table, b, c)
  {
    hide RowOp;
    if b < c { RowOpsSplit(table, a, b, c - 1); }
  }

  /** The exported file leads a reader to exactly these pages. */
  lemma ExportReadsBack(table: Table)
    requires var objects := DocumentObjects(Pages(table)); Offset(objects, |objects|) < Pow10(10)
    ensures ReadDocument(FileBytes(DocumentObjects(Pages(table)))) == Some(Encoded(Pages(table)))
    ensures |Encoded(Pages(table))| == PageCount(table)
  {
    DocumentReadsBack(Pages(table));
  }
}
