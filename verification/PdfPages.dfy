/** The page breaker of the text reports: it opens a new page whenever a line would cross the margin. */
module PdfPages {
  import opened Text
  import opened Escaping
  import opened PdfWrap

  const PAGE_HEIGHT := 792
  const MARGIN := 40

  /** One line of text with the operands it is written with. */
  datatype Placement = Placement(font: string, size: nat, line: string, y: int)

  /** The content stream, operator by operator; a literal is the text between its parentheses. */
  datatype Op = BeginText | Show(font: string, size: nat, y: int, literal: string) | EndText

  /** Characters a single byte cannot hold are replaced by question marks. */
  function ToLatin1(s: string): (r: string)
    ensures |r| == |s| && forall i :: 0 <= i < |r| ==> r[i] == if s[i] <= '\U{00FF}' then s[i] else '?'
  {
    seq(|s|, i requires 0 <= i < |s| => if s[i] <= '\U{00FF}' then s[i] else '?')
  }

  function Written(p: Placement): Op { Show(p.font, p.size, p.y, PdfEscape(ToLatin1(p.line))) }

  function Shows(ops: seq<Placement>): (r: seq<Op>)
    ensures |r| == |ops| && forall i :: 0 <= i < |ops| ==> r[i] == Written(ops[i])
  {
    seq(|ops|, i requires 0 <= i < |ops| => Written(ops[i]))
  }

  /** A page is one text object around its lines. */
  function PageOps(ops: seq<Placement>): seq<Op> { [BeginText] + Shows(ops) + [EndText] }

  function Flat(pages: seq<seq<Placement>>): seq<Placement> {
    if pages == [] then [] else Flat(pages[..|pages|-1]) + pages[|pages|-1]
  }

  /** A line stands inside the page body, with room for its own height above the bottom margin. */
  ghost predicate InBody(p: Placement) { MARGIN + p.size + 4 <= p.y <= PAGE_HEIGHT - MARGIN }

  ghost predicate AllInBody(ops: seq<Placement>) { forall i :: 0 <= i < |ops| ==> InBody(ops[i]) }

  ghost predicate ValidPages(pages: seq<seq<Op>>, placed: seq<seq<Placement>>) {
    && |pages| == |placed|
    && forall i :: 0 <= i < |pages| ==> pages[i] == PageOps(placed[i]) && placed[i] != [] && AllInBody(placed[i])
  }

  lemma FlatSnoc(pages: seq<seq<Placement>>, page: seq<Placement>)
    ensures Flat(pages + [page]) == Flat(pages) + page
  {
    assert (pages + [page])[..|pages|] == pages;
  }

  lemma ClosePage(pages: seq<seq<Op>>, placed: seq<seq<Placement>>, open: seq<Placement>)
    requires ValidPages(pages, placed) && open != [] && AllInBody(open)
    ensures ValidPages(pages + [[BeginText] + Shows(open) + [EndText]], placed + [open])
    ensures AllInBody([]) && Shows([]) == []
  {
    hide AllInBody;
    assert AllInBody([]) by { NoLines(); }
  }

  lemma NoLines()
    ensures AllInBody([])
  {
  }

  lemma AddLine(ops: seq<Placement>, p: Placement)
    requires AllInBody(ops) && InBody(p)
    ensures AllInBody(ops + [p]) && Shows(ops + [p]) == Shows(ops) + [Written(p)]
  {
    hide Written;
  }

  // ----- Where each line goes -----

  /** What is asked of the page breaker: white space, or a line of text. */
  datatype Move = Gap(height: nat) | Text(font: string, size: nat, line: string)

  /** The placed lines, and where the next one would go: from 722 down, in steps of the size and 4, and from 752 on a
      new page when a line would reach below 40. */
  function Drawn(moves: seq<Move>): (seq<Placement>, int) {
    if moves == [] then ([], 722)
    else
      var (ops, y) := Drawn(moves[..|moves|-1]);
      match moves[|moves|-1]
      case Gap(height) => (ops, y - height)
      case Text(font, size, line) =>
        var top := if y - (size + 4) < 40 then 752 else y;
        (ops + [Placement(font, size, line, top)], top - (size + 4))
  }

  lemma DrawnSnoc(moves: seq<Move>, move: Move)
    ensures Drawn(moves + [move]) ==
            var (ops, y) := Drawn(moves);
            match move
            case Gap(height) => (ops, y - height)
            case Text(font, size, line) =>
              var top := if y - (size + 4) < 40 then 752 else y;
              (ops + [Placement(font, size, line, top)], top - (size + 4))
  {
    assert (moves + [move])[..|moves|] == moves;
  }

  class PageBreaker {
    var stream: seq<Op>
    var y: int
    var pages: seq<seq<Op>>
    ghost var open: seq<Placement>
    ghost var closed: seq<seq<Placement>>
    ghost var written: seq<Placement>
    ghost var moves: seq<Move>

    /** Everything written is where the moves put it. */
    ghost predicate InPlace()
      reads this
    {
      Drawn(moves) == (written, y)
    }

    /** The streams are those of the placements; all lines are in the body; only the current page may be empty. */
    ghost predicate Valid()
      reads this
    {
      && stream == [BeginText] + Shows(open)
      && ValidPages(pages, closed)
      && AllInBody(open)
      && written == Flat(closed) + open
      && y <= PAGE_HEIGHT - MARGIN
      && (open == [] ==> y >= PAGE_HEIGHT - 70)
    }

    constructor ()
      ensures Valid() && written == [] && open == [] && closed == [] && moves == [] && InPlace()
    {
      stream, y, pages := [BeginText], PAGE_HEIGHT - 70, [];
      open, closed, written, moves := [], [], [], [];
    }

    method FlushPage()
      requires Valid() && open != []
      modifies this
      ensures Valid() && written == old(written) && moves == old(moves)
      ensures open == [] && y == PAGE_HEIGHT - MARGIN
      ensures closed == old(closed) + [old(open)]
    {
      hide Flat, Shows, PageOps, AllInBody;
      FlatSnoc(closed, open);
      ClosePage(pages, closed, open);
      stream := stream + [EndText];
      pages := pages + [stream];
      closed := closed + [open];
      open := [];
      stream := [BeginText];
      y := PAGE_HEIGHT - MARGIN;
    }

    method EnsureSpace(needed: nat)
      requires Valid() && needed <= 600
      modifies this
      ensures Valid() && written == old(written) && moves == old(moves)
      ensures y - needed >= MARGIN
      ensures if old(y) - needed < MARGIN
              then y == PAGE_HEIGHT - MARGIN && open == [] && closed == old(closed) + [old(open)]
              else y == old(y) && open == old(open) && closed == old(closed)
    {
      if y - needed < MARGIN { FlushPage(); }
    }

    /** One line at the current position. */
    method Append(p: Placement)
      requires Valid() && InBody(p) && p.y == y
      modifies this
      ensures Valid() && open == old(open) + [p] && written == old(written) + [p]
      ensures closed == old(closed) && y == p.y - (p.size + 4) && moves == old(moves)
    {
      AddLine(open, p);
      hide Flat, Shows, AllInBody, ValidPages;
      stream := stream + [Written(p)];
      open := open + [p];
      written := written + [p];
      y := y - (p.size + 4);
    }

    /** `emitLine`: the line follows all earlier ones, on the current page or as the first of a new one. */
    method EmitLine(font: string, size: nat, line: string)
      requires Valid() && InPlace() && (size == 9 || size == 12)
      modifies this
      ensures Valid() && InPlace() && moves == old(moves) + [Text(font, size, line)]
      ensures written == old(written) + [Placement(font, size, line, y + size + 4)]
      ensures y + size + 4 == if old(y) - (size + 4) < MARGIN then PAGE_HEIGHT - MARGIN else old(y)
      ensures open == (if old(y) - (size + 4) < MARGIN then [] else old(open))
              + [Placement(font, size, line, y + size + 4)]
      ensures closed == if old(y) - (size + 4) < MARGIN then old(closed) + [old(open)] else old(closed)
    {
      hide Valid, Drawn;
      EnsureSpace(size + 4);
      InRange();
      Append(Placement(font, size, line, y));
      DrawnSnoc(moves, Text(font, size, line));
      Note(Text(font, size, line));
    }

    ghost method Note(move: Move)
      requires Valid()
      modifies this`moves
      ensures Valid() && moves == old(moves) + [move]
    {
      moves := moves + [move];
    }

    /** When the last page is closed, the pages hold everything written. */
    lemma AllClosed()
      requires Valid() && open == [] && closed != []
      ensures pages != [] && ValidPages(pages, closed) && Flat(closed) == written
    {
      assert Flat(closed) + [] == Flat(closed);
    }

    lemma Final()
      requires InPlace()
      ensures written == Drawn(moves).0
    {
    }

    lemma InRange()
      requires Valid()
      ensures y <= PAGE_HEIGHT - MARGIN
    {
    }

    /** Vertical white space between sections. */
    method Skip(gap: nat)
      requires Valid() && InPlace() && open != []
      modifies this`y, this`moves
      ensures Valid() && InPlace() && y == old(y) - gap && moves == old(moves) + [Gap(gap)]
    {
      DrawnSnoc(moves, Gap(gap));
      y := y - gap;
      moves := moves + [Gap(gap)];
    }
  }

  // ----- A whole report -----

  /** A section as it is handed in. */
  datatype Section = Section(title: string, lines: seq<string>)

  /** A section after wrapping: the lines of its title and, for each of its lines, what that became. */
  datatype Wrapped = Wrapped(title: seq<string>, body: seq<seq<string>>)

  ghost predicate IsWrappedSection(w: Wrapped, s: Section) {
    && SetsTextBest(w.title, s.title, 12, true)
    && |w.body| == |s.lines| && forall i :: 0 <= i < |w.body| ==> SetsTextBest(w.body[i], s.lines[i], 9, false)
  }

  ghost predicate AreWrapped(wrapped: seq<Wrapped>, sections: seq<Section>) {
    |wrapped| == |sections| && forall i :: 0 <= i < |wrapped| ==> IsWrappedSection(wrapped[i], sections[i])
  }

  /** Title, subtitle if any, and the date of the report, each on a line of its own before wrapping. */
  function HeaderText(title: string, subtitle: string, generatedAt: string): string {
    title + (if subtitle != "" then "\n" + subtitle else "") + "\nGenerated " + generatedAt + "\n"
  }

  function Texts(font: string, size: nat, lines: seq<string>): seq<Move> {
    if lines == [] then [] else Texts(font, size, lines[..|lines|-1]) + [Text(font, size, lines[|lines|-1])]
  }

  function BodyMoves(body: seq<seq<string>>): seq<Move> {
    if body == [] then [] else BodyMoves(body[..|body|-1]) + Texts("F1", 9, body[|body|-1])
  }

  /** A section: 8 points down, its title, 2 points, its lines, 4 points. */
  function SectionMoves(w: Wrapped): seq<Move> {
    [Gap(8)] + Texts("F2", 12, w.title) + [Gap(2)] + BodyMoves(w.body) + [Gap(4)]
  }

  function SectionsMoves(sections: seq<Wrapped>): seq<Move> {
    if sections == [] then [] else SectionsMoves(sections[..|sections|-1]) + SectionMoves(sections[|sections|-1])
  }

  lemma TextsSnoc(font: string, size: nat, lines: seq<string>, i: nat)
    requires i < |lines|
    ensures Texts(font, size, lines[..i + 1]) == Texts(font, size, lines[..i]) + [Text(font, size, lines[i])]
  {
    assert lines[..i + 1][..i] == lines[..i];
  }

  lemma NoBody()
    ensures BodyMoves([]) == []
  {
  }

  lemma BodyMovesSnoc(body: seq<seq<string>>, lines: seq<string>)
    ensures BodyMoves(body + [lines]) == BodyMoves(body) + Texts("F1", 9, lines)
  {
    assert (body + [lines])[..|body|] == body;
  }

  lemma SectionsMovesSnoc(sections: seq<Wrapped>, w: Wrapped)
    ensures SectionsMoves(sections + [w]) == SectionsMoves(sections) + SectionMoves(w)
  {
    assert (sections + [w])[..|sections|] == sections;
  }

  method EmitLines(b: PageBreaker, font: string, size: nat, lines: seq<string>)
    requires b.Valid() && b.InPlace() && (size == 9 || size == 12)
    modifies b
    ensures b.Valid() && b.InPlace() && (lines != [] || old(b.open) != [] ==> b.open != [])
    ensures b.moves == old(b.moves) + Texts(font, size, lines)
  {
    hide PageBreaker.Valid, PageBreaker.InPlace;
    for i := 0 to |lines|
      invariant b.Valid() && b.InPlace() && (i > 0 || old(b.open) != [] ==> b.open != [])
      invariant b.moves == old(b.moves) + Texts(font, size, lines[..i])
    {
      b.EmitLine(font, size, lines[i]);
      TextsSnoc(font, size, lines, i);
    }
    assert lines[..|lines|] == lines;
  }

  /** Wraps a text and emits its lines. */
  method EmitText(b: PageBreaker, font: string, size: nat, bold: bool, text: string) returns (ghost lines: seq<string>)
    requires b.Valid() && b.InPlace() && (size == 9 || size == 12)
    modifies b
    ensures b.Valid() && b.InPlace() && b.open != []
    ensures SetsTextBest(lines, text, size, bold)
    ensures b.moves == old(b.moves) + Texts(font, size, lines)
  {
    hide Texts, PageBreaker.Valid, PageBreaker.InPlace, SetsTextBest;
    var all, cuts := Wrap(text, size, bold);
    WrappedLines(all, text, size, bold);
    EmitLines(b, font, size, all);
    lines := all;
  }

  method EmitSection(b: PageBreaker, section: Section) returns (ghost wrapped: Wrapped)
    requires b.Valid() && b.InPlace() && b.open != []
    modifies b
    ensures b.Valid() && b.InPlace() && b.open != []
    ensures IsWrappedSection(wrapped, section)
    ensures b.moves == old(b.moves) + SectionMoves(wrapped)
  {
    hide Texts, PageBreaker.Valid, PageBreaker.InPlace, SetsTextBest, BodyMoves;
    NoBody();
    b.Skip(8);
    ghost var title := EmitText(b, "F2", 12, true, section.title);
    b.Skip(2);
    ghost var headed := b.moves;
    ghost var body: seq<seq<string>> := [];
    for i := 0 to |section.lines|
      invariant b.Valid() && b.InPlace() && b.open != []
      invariant |body| == i && forall k :: 0 <= k < i ==> SetsTextBest(body[k], section.lines[k], 9, false)
      invariant b.moves == headed + BodyMoves(body)
    {
      ghost var lines := EmitText(b, "F1", 9, false, section.lines[i]);
      BodyMovesSnoc(body, lines);
      body := body + [lines];
    }
    b.Skip(4);
    wrapped := Wrapped(title, body);
  }

  method EmitSections(b: PageBreaker, sections: seq<Section>) returns (ghost wrapped: seq<Wrapped>)
    requires b.Valid() && b.InPlace() && b.open != []
    modifies b
    ensures b.Valid() && b.InPlace() && b.open != [] && AreWrapped(wrapped, sections)
    ensures b.moves == old(b.moves) + SectionsMoves(wrapped)
  {
    hide IsWrappedSection, SectionMoves, PageBreaker.Valid, PageBreaker.InPlace;
    wrapped := [];
    for i := 0 to |sections|
      invariant b.Valid() && b.InPlace() && b.open != []
      invariant |wrapped| == i && forall k :: 0 <= k < i ==> IsWrappedSection(wrapped[k], sections[k])
      invariant b.moves == old(b.moves) + SectionsMoves(wrapped)
    {
      ghost var w := EmitSection(b, sections[i]);
      SectionsMovesSnoc(wrapped, w);
      wrapped := wrapped + [w];
    }
  }

  /** The page-building part of `toPdf`: the wrapped header, then each section's wrapped title and lines, over as many
      pages as it takes. Every line is written once, in order and in its place, inside the page body, no page is empty,
      and the lines say what was handed in, in the font it belongs in. */
  method BuildPages(title: string, subtitle: string, generatedAt: string, sections: seq<Section>)
    returns (pages: seq<seq<Op>>, ghost placed: seq<seq<Placement>>, ghost header: seq<string>,
        ghost wrapped: seq<Wrapped>)
    ensures pages != [] && ValidPages(pages, placed)
    ensures SetsTextBest(header, HeaderText(title, subtitle, generatedAt), 9, false) && AreWrapped(wrapped, sections)
    ensures Flat(placed) == Drawn(Texts("F1", 9, header) + [Gap(6)] + SectionsMoves(wrapped)).0
    ensures Said(Flat(placed)) == HeaderSays(title, subtitle, generatedAt) + SectionsSay(sections)
  {
    hide SetsTextBest, AreWrapped, HeaderText, Texts, SectionsMoves, ValidPages, Flat, PageBreaker.Valid,
        PageBreaker.InPlace, Said, HeaderSays, SectionsSay;
    var b := new PageBreaker();
    header := EmitText(b, "F1", 9, false, HeaderText(title, subtitle, generatedAt));
    b.Skip(6);
    wrapped := EmitSections(b, sections);
    ghost var moves := Texts("F1", 9, header) + [Gap(6)] + SectionsMoves(wrapped);
    assert b.moves == moves;
    b.Final();
    b.FlushPage();
    b.AllClosed();
    pages, placed := b.pages, b.closed;
    DrawnSays(moves);
    PagesSay(header, title, subtitle, generatedAt, wrapped, sections);
  }

  // ----- What the pages say -----

  /** A character on a page, with the font and size it is shown in. */
  datatype Styled = Styled(font: string, size: nat, mark: Mark)

  function InStyle(font: string, size: nat, marks: seq<Mark>): (r: seq<Styled>)
    ensures |r| == |marks| && forall i :: 0 <= i < |r| ==> r[i] == Styled(font, size, marks[i])
  {
    seq(|marks|, i requires 0 <= i < |marks| => Styled(font, size, marks[i]))
  }

  /** What lines say, wherever they stand. */
  function Said(ops: seq<Placement>): seq<Styled> {
    if ops == [] then []
    else
      var last := ops[|ops|-1];
      Said(ops[..|ops|-1]) + InStyle(last.font, last.size, Marks(last.line, false))
  }

  /** What is to be said: title, subtitle and date in 9 points, every section with its title in bold 12 points and its
      lines in 9 points. */
  function HeaderSays(title: string, subtitle: string, generatedAt: string): seq<Styled> {
    InStyle("F1", 9, Marks(title, false) + Marks(subtitle, false) + Marks("Generated " + generatedAt, false))
  }

  function SectionsSay(sections: seq<Section>): seq<Styled> {
    if sections == [] then []
    else
      var last := sections[|sections|-1];
      SectionsSay(sections[..|sections|-1])
      + (InStyle("F2", 12, Marks(last.title, false)) + InStyle("F1", 9, MarksOf(last.lines)))
  }

  function Says(move: Move): seq<Styled> {
    match move
    case Gap(_) => []
    case Text(font, size, line) => InStyle(font, size, Marks(line, false))
  }

  function MovesSay(moves: seq<Move>): seq<Styled> {
    if moves == [] then [] else MovesSay(moves[..|moves|-1]) + Says(moves[|moves|-1])
  }

  lemma {:induction false} DrawnSays(moves: seq<Move>)
    ensures Said(Drawn(moves).0) == MovesSay(moves)
  {
    if moves != [] {
      var front := moves[..|moves|-1];
      DrawnSays(front);
      var ops, all := Drawn(front).0, Drawn(moves).0;
      assert all == ops || all[..|all|-1] == ops;
    }
  }

  lemma {:induction false} MovesSayConcat(a: seq<Move>, b: seq<Move>)
    ensures MovesSay(a + b) == MovesSay(a) + MovesSay(b)
    decreases |b|
  {
    hide Says;
    if b == [] {
      assert a + b == a;
    } else {
      var front, last := b[..|b|-1], b[|b|-1];
      MovesSayConcat(a, front);
      assert (a + b)[..|a + b|-1] == a + front;
      Regroup(MovesSay(a), MovesSay(front), Says(last));
    }
  }

  lemma GapSays(height: nat)
    ensures MovesSay([Gap(height)]) == []
  {
    assert [Gap(height)][..0] == [];
  }

  lemma {:induction false} TextsSay(font: string, size: nat, lines: seq<string>)
    ensures MovesSay(Texts(font, size, lines)) == InStyle(font, size, MarksOf(lines))
  {
    hide InStyle, Marks;
    if lines == [] {
      NoStyle(font, size);
    } else {
      var front, last := lines[..|lines|-1], lines[|lines|-1];
      TextsSay(font, size, front);
      StyleConcat(font, size, MarksOf(front), MarksOf([last]));
      var moves := Texts(font, size, lines);
      assert moves[..|moves|-1] == Texts(font, size, front);
      MarksOfConcat(front, [last]);
      assert lines == front + [last];
      assert MarksOf([last]) == Marks(last, false) + MarksOf([]);
    }
  }

  lemma {:induction false} BodySays(body: seq<seq<string>>, lines: seq<string>)
    requires |body| == |lines| && forall i :: 0 <= i < |body| ==> SetsTextBest(body[i], lines[i], 9, false)
    ensures MovesSay(BodyMoves(body)) == InStyle("F1", 9, MarksOf(lines))
    decreases |lines|
  {
    hide SetsTextBest, Marks, InStyle, Texts, MovesSay;
    if body == [] {
      NothingSaid();
    } else {
      var front, last := body[..|body|-1], body[|body|-1];
      var linesFront, line := lines[..|lines|-1], lines[|lines|-1];
      BodySays(front, linesFront);
      MovesSayConcat(BodyMoves(front), Texts("F1", 9, last));
      TextsSay("F1", 9, last);
      WrapKeepsText(last, line, 9, false);
      MarksOfConcat(linesFront, [line]);
      assert lines == linesFront + [line];
      assert MarksOf([line]) == Marks(line, false) + MarksOf([]);
      StyleConcat("F1", 9, MarksOf(linesFront), MarksOf([line]));
    }
  }

  lemma NoStyle(font: string, size: nat)
    ensures InStyle(font, size, []) == []
  {
  }

  lemma NothingSaid()
    ensures MovesSay(BodyMoves([])) == [] == InStyle("F1", 9, MarksOf([]))
  {
  }

  lemma StyleConcat(font: string, size: nat, a: seq<Mark>, b: seq<Mark>)
    ensures InStyle(font, size, a + b) == InStyle(font, size, a) + InStyle(font, size, b)
  {
  }

  lemma SectionSays(w: Wrapped, section: Section)
    requires IsWrappedSection(w, section)
    ensures MovesSay(SectionMoves(w))
         == InStyle("F2", 12, Marks(section.title, false)) + InStyle("F1", 9, MarksOf(section.lines))
  {
    hide SetsTextBest, MovesSay, Texts, BodyMoves, Marks, MarksOf;
    WrapKeepsText(w.title, section.title, 12, true);
    TextsSay("F2", 12, w.title);
    BodySays(w.body, section.lines);
    GapSays(8);
    GapSays(2);
    GapSays(4);
    var a := [Gap(8)] + Texts("F2", 12, w.title);
    MovesSayConcat([Gap(8)], Texts("F2", 12, w.title));
    MovesSayConcat(a, [Gap(2)]);
    MovesSayConcat(a + [Gap(2)], BodyMoves(w.body));
    MovesSayConcat(a + [Gap(2)] + BodyMoves(w.body), [Gap(4)]);
  }

  lemma {:induction false} AllSectionsSay(wrapped: seq<Wrapped>, sections: seq<Section>)
    requires AreWrapped(wrapped, sections)
    ensures MovesSay(SectionsMoves(wrapped)) == SectionsSay(sections)
    decreases |sections|
  {
    hide IsWrappedSection, SectionMoves, Marks, MarksOf;
    if sections != [] {
      var front, last := wrapped[..|wrapped|-1], wrapped[|wrapped|-1];
      AllSectionsSay(front, sections[..|sections|-1]);
      MovesSayConcat(SectionsMoves(front), SectionMoves(last));
      SectionSays(last, sections[|sections|-1]);
    }
  }

  /** A line end separates as a space does. */
  lemma LineEndSeparates(a: string, b: string)
    ensures Marks(a + "\n" + b, false) == Marks(a, false) + Marks(b, false)
  {
    MarksConcat(a, "\n" + b, false);
    assert a + "\n" + b == a + ("\n" + b);
    assert ("\n" + b)[1..] == b;
  }

  lemma HeaderIsSaid(title: string, subtitle: string, generatedAt: string)
    ensures Marks(HeaderText(title, subtitle, generatedAt), false)
         == Marks(title, false) + Marks(subtitle, false) + Marks("Generated " + generatedAt, false)
  {
    hide Marks, HeaderText;
    var head := title + if subtitle != "" then "\n" + subtitle else "";
    HeadIsSaid(title, subtitle);
    var date := "Generated " + generatedAt;
    LineEndSeparates(head, date);
    LineEndSeparates(head + "\n" + date, "");
    HeaderTextIs(title, subtitle, generatedAt);
    assert Marks("", false) == [] by { BlankHasNoMarks(""); }
  }

  lemma HeadIsSaid(title: string, subtitle: string)
    ensures Marks(title + (if subtitle != "" then "\n" + subtitle else ""), false)
         == Marks(title, false) + Marks(subtitle, false)
  {
    if subtitle != "" {
      LineEndSeparates(title, subtitle);
      Regroup(title, "\n", subtitle);
    } else {
      assert title + "" == title;
    }
  }

  lemma HeaderTextIs(title: string, subtitle: string, generatedAt: string)
    ensures HeaderText(title, subtitle, generatedAt)
         == title + (if subtitle != "" then "\n" + subtitle else "") + "\n" + ("Generated " + generatedAt) + "\n" + ""
  {
    assert "\nGenerated " == "\n" + "Generated ";
  }

  lemma PagesSay(header: seq<string>, title: string, subtitle: string, generatedAt: string, wrapped: seq<Wrapped>,
                 sections: seq<Section>)
    requires SetsTextBest(header, HeaderText(title, subtitle, generatedAt), 9, false) && AreWrapped(wrapped, sections)
    ensures MovesSay(Texts("F1", 9, header) + [Gap(6)] + SectionsMoves(wrapped))
         == HeaderSays(title, subtitle, generatedAt) + SectionsSay(sections)
  {
    hide SetsTextBest, AreWrapped, HeaderText, Marks, MarksOf, MovesSay, Texts, SectionsMoves, SectionsSay;
    HeaderIsSaid(title, subtitle, generatedAt);
    WrapKeepsText(header, HeaderText(title, subtitle, generatedAt), 9, false);
    TextsSay("F1", 9, header);
    GapSays(6);
    MovesSayConcat(Texts("F1", 9, header), [Gap(6)]);
    MovesSayConcat(Texts("F1", 9, header) + [Gap(6)], SectionsMoves(wrapped));
    AllSectionsSay(wrapped, sections);
  }

  /** A placed line of a wrapped text is written with its own font, size and height, and a reader of its literal gets
      the line back, with a question mark for every character a single byte cannot hold: wrapping leaves no line end
      that could be lost. */
  lemma LineReadsBack(lines: seq<string>, text: string, p: Placement, bold: bool, rest: string)
    requires SetsTextBest(lines, text, p.size, bold) && p.line in lines
    ensures var op := Written(p);
            && op.Show? && op.font == p.font && op.size == p.size && op.y == p.y
            && ReadLiteral(op.literal + ")" + rest, 0) == Some((ToLatin1(p.line), rest))
    ensures |ToLatin1(p.line)| == |p.line|
    ensures forall k :: 0 <= k < |p.line| ==> ToLatin1(p.line)[k] == if p.line[k] <= '\U{00FF}' then p.line[k] else '?'
    ensures ToLatin1(p.line) == p.line <==> forall c <- p.line :: c <= '\U{00FF}'
  {
    hide SetsTextBest, ReadLiteral, PdfEscape;
    WrappedLines(lines, text, p.size, bold);
    var line := p.line;
    assert '\r' !in line;
    assert '\r' !in ToLatin1(line);
    PdfLiteralRoundTrip(ToLatin1(line), rest);
    if ToLatin1(line) == line {
      forall c <- line ensures c <= '\U{00FF}' {
        var k :| 0 <= k < |line| && line[k] == c;
        assert ToLatin1(line)[k] == c;
      }
    } else {
      var k :| 0 <= k < |line| && ToLatin1(line)[k] != line[k];
      assert line[k] in line;
    }
  }

  // ----- Where the lines are shown -----

  /** The vertical position a viewer shows line k of a page at: inside one text object, each `Td` moves
      relative to the line before (ISO 32000-1, section 9.4.2). */
  function ShownAt(ops: seq<Placement>, k: nat): int
    requires k < |ops|
  {
    if k == 0 then ops[0].y else ShownAt(ops, k - 1) + ops[k].y
  }

  lemma {:induction false} ShownAtGrows(ops: seq<Placement>, k: nat)
    requires AllInBody(ops) && k < |ops|
    ensures ShownAt(ops, k) >= MARGIN * (k + 1)
  {
    assert InBody(ops[k]);
    if k > 0 { ShownAtGrows(ops, k - 1); }
  }

  /** Of the lines of a page only the first is shown where its operands say. */
  lemma OnlyFirstLineIsInPlace(ops: seq<Placement>, k: nat)
    requires AllInBody(ops) && k < |ops|
    ensures ShownAt(ops, k) == ops[k].y <==> k == 0
  {
    if k > 0 { ShownAtGrows(ops, k - 1); }
  }
}
