/** The page tree of an exported report, and a reader that walks it from the end of the file. */
module PdfDocument {
  import opened Text
  import opened PdfFile

  const CATALOG := "<< /Type /Catalog /Pages 2 0 R >>"
  const HELVETICA := "<< /Type /Font /Subtype /Type1 /BaseFont /Helvetica >>"
  const HELVETICA_BOLD := "<< /Type /Font /Subtype /Type1 /BaseFont /Helvetica-Bold >>"
  const PAGE_BOX := "<< /Type /Page /Parent 2 0 R /MediaBox [0 0 612 792] /Resources "
  const PAGE_FONTS := "<< /Font << /F1 3 0 R /F2 4 0 R >> >> /Contents "
  const PAGE_HEAD := PAGE_BOX + PAGE_FONTS
  const PAGES_HEAD := "<< /Type /Pages /Kids ["

  function PageId(i: nat): nat { 5 + 2 * i }
  function ContentId(i: nat): nat { 6 + 2 * i }

  function PageObject(contentId: nat): string { PAGE_HEAD + (Decimal(contentId) + " 0 R >>") }

  function ContentObject(page: string): string {
    "<< /Length " + (Decimal(|Utf8(page)|) + (" >>\nstream\n" + (page + "endstream")))
  }

  function Ref(id: nat): string { Decimal(id) + " 0 R" }

  function Refs(ids: seq<nat>): (refs: seq<string>)
    ensures |refs| == |ids| && forall i :: 0 <= i < |ids| ==> refs[i] == Ref(ids[i])
  {
    seq(|ids|, i requires 0 <= i < |ids| => Ref(ids[i]))
  }

  function PagesObject(ids: seq<nat>): string {
    PAGES_HEAD + (Join(Refs(ids), " ") + ("] /Count " + (Decimal(|ids|) + " >>")))
  }

  function PageIds(n: nat): (ids: seq<nat>)
    ensures |ids| == n && forall i :: 0 <= i < n ==> ids[i] == PageId(i)
  {
    seq(n, i requires 0 <= i < n => PageId(i))
  }

  /** Object number k of the report; objects are numbered from 1. */
  function DocumentObject(pages: seq<string>, k: nat): string
    requires 1 <= k <= 4 + 2 * |pages|
  {
    if k == 1 then CATALOG
    else if k == 2 then PagesObject(PageIds(|pages|))
    else if k == 3 then HELVETICA
    else if k == 4 then HELVETICA_BOLD
    else if k % 2 == 1 then PageObject(k + 1)
    else ContentObject(pages[(k - 6) / 2])
  }

  function DocumentObjects(pages: seq<string>): (objects: seq<string>)
    ensures |objects| == 4 + 2 * |pages|
  {
    Tabulate(4 + 2 * |pages|, i requires 0 <= i < 4 + 2 * |pages| => DocumentObject(pages, i + 1))
  }

  lemma ObjectAt(pages: seq<string>, k: nat)
    requires 1 <= k <= 4 + 2 * |pages|
    ensures DocumentObjects(pages)[k - 1] == DocumentObject(pages, k)
  {
    hide DocumentObject;
  }

  lemma PageObjectsOf(pages: seq<string>, i: nat)
    requires i < |pages|
    ensures DocumentObject(pages, PageId(i)) == PageObject(ContentId(i))
    ensures DocumentObject(pages, ContentId(i)) == ContentObject(pages[i])
  {
    hide PagesObject, PageObject, ContentObject;
    assert PageId(i) % 2 == 1 && PageId(i) + 1 == ContentId(i);
    assert ContentId(i) % 2 == 0 && (ContentId(i) - 6) / 2 == i;
  }

  /** The objects as they stand after the first n pages. */
  ghost predicate IsPrefix(objects: seq<string>, pages: seq<string>, n: nat)
    requires n <= |pages|
  {
    && |objects| == 4 + 2 * n
    && objects[0] == CATALOG && objects[2] == HELVETICA && objects[3] == HELVETICA_BOLD
    && forall k :: 4 < k <= |objects| ==> objects[k - 1] == DocumentObject(pages, k)
  }

  lemma EmptyPrefix(pages: seq<string>)
    ensures IsPrefix([CATALOG, "", HELVETICA, HELVETICA_BOLD], pages, 0)
  {
    hide DocumentObject;
  }

  lemma ExtendPrefix(objects: seq<string>, pages: seq<string>, n: nat, page: string, content: string)
    requires n < |pages| && IsPrefix(objects, pages, n)
    requires page == DocumentObject(pages, PageId(n)) && content == DocumentObject(pages, ContentId(n))
    ensures IsPrefix(objects + [page] + [content], pages, n + 1)
  {
    hide DocumentObject;
    var more := objects + [page] + [content];
    forall k | 4 < k <= |more|
      ensures more[k - 1] == DocumentObject(pages, k)
    {
      if k <= |objects| { assert more[k - 1] == objects[k - 1]; }
    }
  }

  lemma CompletePrefix(objects: seq<string>, pages: seq<string>)
    requires IsPrefix(objects, pages, |pages|)
    ensures |objects| > 1 && objects[1 := PagesObject(PageIds(|pages|))] == DocumentObjects(pages)
  {
    hide PagesObject, PageObject, ContentObject, DocumentObjects;
    var all := objects[1 := PagesObject(PageIds(|pages|))];
    forall k | 0 <= k < |all|
      ensures all[k] == DocumentObjects(pages)[k]
    {
      ObjectAt(pages, k + 1);
      if k >= 4 { assert objects[(k + 1) - 1] == DocumentObject(pages, k + 1); }
    }
  }

  /** The object-building part of `PdfExporter.export`: object 2 is pushed empty and filled in at the end. */
  method BuildObjects(pages: seq<string>) returns (objects: seq<string>)
    ensures objects == DocumentObjects(pages)
  {
    hide DocumentObject, PagesObject, PageObject, ContentObject, IsPrefix;
    objects := [CATALOG, "", HELVETICA, HELVETICA_BOLD];
    EmptyPrefix(pages);
    var pageIds: seq<nat> := [];
    for i := 0 to |pages|
      invariant IsPrefix(objects, pages, i)
      invariant |pageIds| == i && forall k :: 0 <= k < i ==> pageIds[k] == PageId(k)
    {
      var pageId := 5 + i * 2;
      var contentId := 6 + i * 2;
      pageIds := pageIds + [pageId];
      PageObjectsOf(pages, i);
      ExtendPrefix(objects, pages, i, PageObject(contentId), ContentObject(pages[i]));
      objects := objects + [PageObject(contentId)];
      objects := objects + [ContentObject(pages[i])];
    }
    assert pageIds == PageIds(|pages|);
    CompletePrefix(objects, pages);
    objects := objects[1 := PagesObject(pageIds)];
  }

  // ----- The reader -----

  datatype Kids = Kids(ids: seq<nat>, rest: bytes)

  function ReadKids(input: bytes): Option<Kids>
    decreases |input|
  {
    match ReadNumeral(input)
    case None => Some(Kids([], input))
    case Some(Numeral(id, r1)) =>
      match Expect(r1, " 0 R")
      case None => None
      case Some(r2) =>
        match Expect(r2, " ")
        case None => Some(Kids([id], r2))
        case Some(r3) =>
          assert |r3| <= |r2| <= |r1| < |input|;
          match ReadKids(r3)
          case None => None
          case Some(more) => Some(Kids([id] + more.ids, more.rest))
  }

  /** An array of references between two fixed texts, then the count and the closing text. */
  function ReadKidsArray(input: bytes, head: string, middle: string, tail: string): Option<seq<nat>> {
    match Expect(input, head)
    case None => None
    case Some(r1) =>
      match ReadKids(r1)
      case None => None
      case Some(Kids(ids, r2)) =>
        match ReadBetween(r2, middle, tail)
        case None => None
        case Some(Numeral(count, _)) => if count == |ids| then Some(ids) else None
  }

  /** The ids of the page objects: the /Kids array of object 2, whose /Count must agree. */
  function ReadPageIds(file: bytes): Option<seq<nat>> {
    match ReadObject(file, 2)
    case None => None
    case Some(found) => ReadKidsArray(found, PAGES_HEAD, "] /Count ", " >>")
  }

  /** The /Length bytes of a content stream, with `endstream` where the length says. */
  function ReadStream(content: bytes): Option<bytes> {
    match ReadBetween(content, "<< /Length ", " >>\nstream\n")
    case None => None
    case Some(Numeral(n, r)) =>
      if n > |r| || Expect(r[n..], "endstream").None? then None else Some(r[..n])
  }

  function ReadContentRef(page: bytes): Option<Numeral> { ReadBetween(page, PAGE_HEAD, " 0 R >>") }

  /** The content a page object points to. */
  function ReadPage(file: bytes, id: nat): Option<bytes> {
    match ReadObject(file, id)
    case None => None
    case Some(found) =>
      match ReadContentRef(found)
      case None => None
      case Some(Numeral(contentId, _)) =>
        match ReadObject(file, contentId)
        case None => None
        case Some(stream) => ReadStream(stream)
  }

  function ReadPageList(file: bytes, ids: seq<nat>): Option<seq<bytes>> {
    if ids == [] then Some([])
    else
      match ReadPage(file, ids[0])
      case None => None
      case Some(page) =>
        match ReadPageList(file, ids[1..])
        case None => None
        case Some(more) => Some([page] + more)
  }

  /** The content streams of all pages of a file, in page order. */
  function ReadDocument(file: bytes): Option<seq<bytes>> {
    match ReadPageIds(file)
    case None => None
    case Some(ids) => ReadPageList(file, ids)
  }

  // ----- Reading back what was written -----

  lemma ReadRef(id: nat, rest: bytes)
    ensures ReadNumeral(Utf8(Ref(id)) + rest) == Some(Numeral(id, Utf8(" 0 R") + rest))
    ensures Expect(Utf8(" 0 R") + rest, " 0 R") == Some(rest)
  {
    ReadRefText(id, " 0 R", rest);
  }

  lemma ReadRefText(id: nat, tail: string, rest: bytes)
    requires StartsWithoutDigit(tail)
    ensures ReadNumeral(Utf8(Decimal(id) + tail) + rest) == Some(Numeral(id, Utf8(tail) + rest))
    ensures Expect(Utf8(tail) + rest, tail) == Some(rest)
  {
    hide Decimal, ReadNumeral, Expect, Utf8Char;
    Utf8Concat(Decimal(id), tail);
    FirstByte(tail);
    assert Utf8(tail) == Utf8Char(tail[0]) + Utf8(tail[1..]);
    assert Utf8(Decimal(id)) + Utf8(tail) + rest == Utf8(Decimal(id)) + (Utf8(tail) + rest);
    ReadOwnNumeral(id, Utf8(tail) + rest);
    ExpectOwn(tail, rest);
  }

  ghost predicate EndsKids(rest: bytes) { rest != [] && !IsDigitByte(rest[0]) && rest[0] != 32 }

  lemma NoSpaceAhead(rest: bytes)
    requires EndsKids(rest)
    ensures Expect(rest, " ") == None
  {
    Utf8Ascii(" ");
  }

  lemma {:induction false} KidsReadBack(ids: seq<nat>, rest: bytes)
    requires EndsKids(rest)
    ensures ReadKids(Utf8(Join(Refs(ids), " ")) + rest) == Some(Kids(ids, rest))
    decreases |ids|
  {
    hide Ref, Refs, Join, Utf8, ReadKids, EndsKids, Decimal;
    if ids == [] {
      NoKids(rest);
    } else {
      JoinedRefs(ids);
      if |ids| == 1 {
        LastKid(ids[0], rest);
        assert ids == [ids[0]];
      } else {
        KidsReadBack(ids[1..], rest);
        KidThenMore(ids[0], Join(Refs(ids[1..]), " "), rest, Kids(ids[1..], rest));
        assert ids == [ids[0]] + ids[1..];
      }
    }
  }

  lemma JoinedRefs(ids: seq<nat>)
    requires ids != []
    ensures Join(Refs(ids), " ")
         == if |ids| == 1 then Ref(ids[0]) else Ref(ids[0]) + (" " + Join(Refs(ids[1..]), " "))
  {
    hide Ref;
    assert Refs(ids)[1..] == Refs(ids[1..]);
    if |ids| > 1 { Regroup(Ref(ids[0]), " ", Join(Refs(ids[1..]), " ")); }
  }

  lemma NoKids(rest: bytes)
    requires EndsKids(rest)
    ensures ReadKids(Utf8(Join(Refs([]), " ")) + rest) == Some(Kids([], rest))
  {
    assert Refs([]) == [];
    assert Utf8(Join(Refs([]), " ")) + rest == rest;
  }

  lemma LastKid(id: nat, rest: bytes)
    requires EndsKids(rest)
    ensures ReadKids(Utf8(Ref(id)) + rest) == Some(Kids([id], rest))
  {
    hide Utf8, Ref, ReadNumeral, Expect;
    ReadRef(id, rest);
    NoSpaceAhead(rest);
  }

  lemma KidThenMore(id: nat, text: string, rest: bytes, more: Kids)
    requires ReadKids(Utf8(text) + rest) == Some(more)
    ensures ReadKids(Utf8(Ref(id) + (" " + text)) + rest) == Some(Kids([id] + more.ids, more.rest))
  {
    Utf8Three(Ref(id), " ", text);
    var after := Utf8(" ") + (Utf8(text) + rest);
    assert Utf8(Ref(id)) + (Utf8(" ") + Utf8(text)) + rest == Utf8(Ref(id)) + after;
    ReadRef(id, after);
    ExpectOwn(" ", Utf8(text) + rest);
  }

  lemma SplitEnd(text: string, rest: bytes)
    ensures Utf8(text + "\nendobj\n") + rest == Utf8(text) + (Utf8("\nendobj\n") + rest)
  {
    Utf8Concat(text, "\nendobj\n");
  }

  /** /Kids lists the page objects in order, and /Count is their number. */
  lemma PageIdsReadBack(pages: seq<string>)
    requires Offset(DocumentObjects(pages), |DocumentObjects(pages)|) < Pow10(10)
    ensures ReadPageIds(FileBytes(DocumentObjects(pages))) == Some(PageIds(|pages|))
  {
    var rest := DocumentObjectReadsBack(pages, 2);
    PagesObjectReadsBack(FileBytes(DocumentObjects(pages)), PageIds(|pages|), rest);
  }

  lemma PagesObjectReadsBack(file: bytes, ids: seq<nat>, rest: bytes)
    requires ReadObject(file, 2) == Some(Utf8(PagesObject(ids)) + rest)
    ensures ReadPageIds(file) == Some(ids)
  {
    hide Utf8, ReadObject, ReadKidsArray, ReadKids, Join, Refs, Decimal;
    KidsArrayReadsBack(PAGES_HEAD, ids, "] /Count ", " >>", rest);
  }

  lemma KidsArrayReadsBack(head: string, ids: seq<nat>, middle: string, tail: string, rest: bytes)
    requires StartsWithoutDigit(middle) && middle[0] != ' ' && StartsWithoutDigit(tail)
    ensures ReadKidsArray(Utf8(head + (Join(Refs(ids), " ") + (middle + (Decimal(|ids|) + tail)))) + rest,
                          head, middle, tail) == Some(ids)
  {
    hide ReadKids, ReadBetween, Expect, Refs, Join, Decimal;
    var kids := Join(Refs(ids), " ");
    var count := middle + (Decimal(|ids|) + tail);
    Utf8Three(head, kids, count);
    var after := Utf8(count) + rest;
    assert Utf8(head) + (Utf8(kids) + Utf8(count)) + rest == Utf8(head) + (Utf8(kids) + after);
    ExpectOwn(head, Utf8(kids) + after);
    assert count[0] == middle[0];
    assert Utf8(count) == Utf8Char(count[0]) + Utf8(count[1..]);
    KidsReadBack(ids, after);
    ReadBetweenReadsBack(middle, |ids|, tail, rest);
  }

  /** /Length is the number of bytes between the stream keywords. */
  lemma StreamReadsBack(page: string, rest: bytes)
    ensures ReadStream(Utf8(ContentObject(page)) + rest) == Some(Utf8(page))
  {
    StreamReadsBackFrom("<< /Length ", |Utf8(page)|, " >>\nstream\n", page, "endstream", rest);
  }

  lemma StreamReadsBackFrom(head: string, n: nat, tail: string, page: string, end: string, rest: bytes)
    requires StartsWithoutDigit(tail)
    ensures ReadBetween(Utf8(head + (Decimal(n) + (tail + (page + end)))) + rest, head, tail)
         == Some(Numeral(n, Utf8(page) + (Utf8(end) + rest)))
    ensures (Utf8(page) + (Utf8(end) + rest))[|Utf8(page)|..] == Utf8(end) + rest
    ensures (Utf8(page) + (Utf8(end) + rest))[..|Utf8(page)|] == Utf8(page)
    ensures Expect(Utf8(end) + rest, end) == Some(rest)
  {
    hide Utf8, ReadBetween, Expect, Decimal;
    NumeralThenMore(head, Decimal(n), tail, page + end, rest);
    Utf8Concat(page, end);
    assert Utf8(page) + Utf8(end) + rest == Utf8(page) + (Utf8(end) + rest);
    ReadBetweenReadsBack(head, n, tail, Utf8(page) + (Utf8(end) + rest));
    ExpectOwn(end, rest);
  }

  /** An object of the report, as a reader finds it. */
  lemma DocumentObjectReadsBack(pages: seq<string>, k: nat) returns (rest: bytes)
    requires 1 <= k <= |DocumentObjects(pages)|
    requires Offset(DocumentObjects(pages), |DocumentObjects(pages)|) < Pow10(10)
    ensures ReadObject(FileBytes(DocumentObjects(pages)), k) == Some(Utf8(DocumentObject(pages, k)) + rest)
  {
    var objects := DocumentObjects(pages);
    OffsetsGrow(objects, k, |objects|);
    ObjectAt(pages, k);
    var r := ObjectReadsBack(objects, k);
    SplitEnd(objects[k - 1], r);
    rest := Utf8("\nendobj\n") + r;
  }

  /** Page object 5+2i leads to content object 6+2i, which holds page i byte for byte. */
  lemma PageReadsBack(pages: seq<string>, i: nat)
    requires i < |pages|
    requires Offset(DocumentObjects(pages), |DocumentObjects(pages)|) < Pow10(10)
    ensures ReadPage(FileBytes(DocumentObjects(pages)), PageId(i)) == Some(Utf8(pages[i]))
  {
    PageObjectsOf(pages, i);
    var r1 := DocumentObjectReadsBack(pages, PageId(i));
    var r2 := DocumentObjectReadsBack(pages, ContentId(i));
    PageThroughContent(FileBytes(DocumentObjects(pages)), PageId(i), ContentId(i), pages[i], r1, r2);
  }

  lemma ContentRefReadsBack(contentId: nat, rest: bytes)
    ensures ReadContentRef(Utf8(PageObject(contentId)) + rest) == Some(Numeral(contentId, rest))
  {
    ReadBetweenReadsBack(PAGE_HEAD, contentId, " 0 R >>", rest);
  }

  lemma PageThroughContent(file: bytes, id: nat, contentId: nat, page: string, r1: bytes, r2: bytes)
    requires ReadObject(file, id) == Some(Utf8(PageObject(contentId)) + r1)
    requires ReadObject(file, contentId) == Some(Utf8(ContentObject(page)) + r2)
    ensures ReadPage(file, id) == Some(Utf8(page))
  {
    ContentRefReadsBack(contentId, r1);
    StreamReadsBack(page, r2);
  }

  /** The catalog leads to the page tree, font object 3 is Helvetica and 4 its bold face. */
  lemma FontsReadBack(pages: seq<string>)
    requires Offset(DocumentObjects(pages), |DocumentObjects(pages)|) < Pow10(10)
    ensures Holds(ReadObject(FileBytes(DocumentObjects(pages)), 1), "<< /Type /Catalog /Pages 2 0 R >>")
    ensures Holds(ReadObject(FileBytes(DocumentObjects(pages)), 3),
                  "<< /Type /Font /Subtype /Type1 /BaseFont /Helvetica >>")
    ensures Holds(ReadObject(FileBytes(DocumentObjects(pages)), 4),
                  "<< /Type /Font /Subtype /Type1 /BaseFont /Helvetica-Bold >>")
  {
    hide DocumentObjects, FileBytes, ReadObject, Utf8, Offset, Pow10;
    var r1 := DocumentObjectReadsBack(pages, 1);
    var r3 := DocumentObjectReadsBack(pages, 3);
    var r4 := DocumentObjectReadsBack(pages, 4);
  }

  /** A page is a sheet of 612 by 792 points, on which F1 is font object 3 and F2 font object 4. */
  lemma PageResources(pages: seq<string>, i: nat)
    requires i < |pages|
    requires Offset(DocumentObjects(pages), |DocumentObjects(pages)|) < Pow10(10)
    ensures Holds(ReadObject(FileBytes(DocumentObjects(pages)), 5 + 2 * i),
                  "<< /Type /Page /Parent 2 0 R /MediaBox [0 0 612 792] /Resources "
                  + "<< /Font << /F1 3 0 R /F2 4 0 R >> >> /Contents ")
  {
    hide DocumentObjects, FileBytes, ReadObject, Utf8, Offset, Pow10, DocumentObject;
    PageObjectsOf(pages, i);
    var r := DocumentObjectReadsBack(pages, PageId(i));
    Utf8Concat(PAGE_HEAD, Decimal(ContentId(i)) + " 0 R >>");
  }

  /** What was found starts with the text. */
  ghost predicate Holds(found: Option<bytes>, text: string) { found.Some? && Utf8(text) <= found.value }

  function Encoded(pages: seq<string>): (r: seq<bytes>)
    ensures |r| == |pages| && forall i :: 0 <= i < |pages| ==> r[i] == Utf8(pages[i])
  {
    seq(|pages|, i requires 0 <= i < |pages| => Utf8(pages[i]))
  }

  lemma EncodedCons(pages: seq<string>)
    requires pages != []
    ensures Encoded(pages) == [Utf8(pages[0])] + Encoded(pages[1..])
  {
  }

  lemma {:induction false} PageListReadsBack(file: bytes, ids: seq<nat>, pages: seq<string>)
    requires |ids| == |pages|
    requires forall i :: 0 <= i < |ids| ==> ReadPage(file, ids[i]) == Some(Utf8(pages[i]))
    ensures ReadPageList(file, ids) == Some(Encoded(pages))
    decreases |ids|
  {
    if ids != [] {
      PageListReadsBack(file, ids[1..], pages[1..]);
      EncodedCons(pages);
    }
  }

  /** A reader that starts from the end of the file recovers every page, byte for byte and in order,
      whatever the pages contain, as long as the last object starts before byte 10^10. */
  lemma DocumentReadsBack(pages: seq<string>)
    requires Offset(DocumentObjects(pages), |DocumentObjects(pages)|) < Pow10(10)
    ensures ReadDocument(FileBytes(DocumentObjects(pages))) == Some(Encoded(pages))
  {
    var file := FileBytes(DocumentObjects(pages));
    PageIdsReadBack(pages);
    forall i | 0 <= i < |pages|
      ensures ReadPage(file, PageIds(|pages|)[i]) == Some(Utf8(pages[i]))
    {
      PageReadsBack(pages, i);
    }
    PageListReadsBack(file, PageIds(|pages|), pages);
  }
}
