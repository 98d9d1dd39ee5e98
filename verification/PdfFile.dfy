/** Assembly of a PDF file: numbered objects, byte offsets and the cross-reference table. */
module PdfFile {
  import opened Text

  type byte = x: int | 0 <= x < 256
  type bytes = seq<byte>

  // ----- UTF-8 -----

  function Utf8Char(c: char): (b: bytes)
    ensures b != []
  {
    var u := c as int;
    if u < 0x80 then [u]
    else if u < 0x800 then [0xC0 + u / 0x40, 0x80 + u % 0x40]
    else if u < 0x1_0000 then [0xE0 + u / 0x1000, 0x80 + u / 0x40 % 0x40, 0x80 + u % 0x40]
    else [0xF0 + u / 0x4_0000, 0x80 + u / 0x1000 % 0x40, 0x80 + u / 0x40 % 0x40, 0x80 + u % 0x40]
  }

  /** `Buffer.from(s, 'utf8')`; `Buffer.byteLength` is its length. */
  function Utf8(s: string): bytes {
    if s == [] then [] else Utf8Char(s[0]) + Utf8(s[1..])
  }

  lemma {:induction false} Utf8Concat(a: string, b: string)
    ensures Utf8(a + b) == Utf8(a) + Utf8(b)
  {
    if a == [] {
      assert a + b == b;
    } else {
      assert (a + b)[1..] == a[1..] + b;
      Utf8Concat(a[1..], b);
    }
  }

  ghost predicate IsAscii(s: string) { forall i :: 0 <= i < |s| ==> s[i] < '\U{0080}' }

  /** ASCII text takes one byte a character. */
  lemma {:induction false} Utf8Ascii(s: string)
    requires IsAscii(s)
    ensures |Utf8(s)| == |s| && forall i :: 0 <= i < |s| ==> Utf8(s)[i] == s[i] as int
  {
    if s != [] { Utf8Ascii(s[1..]); }
  }

  predicate IsTail(b: byte) { 0x80 <= b < 0xC0 }

  function Tail(b: byte): int { b - 0x80 }

  /** Characters from UTF-8 (RFC 3629, section 3); None for a sequence that is cut off or has a wrong byte. */
  function FromUtf8(b: bytes): Option<string> {
    if b == [] then Some("")
    else if b[0] < 0x80 then CodeThen(b[0], FromUtf8(b[1..]))
    else if 0xC0 <= b[0] < 0xE0 && |b| > 1 && IsTail(b[1]) then
      CodeThen(0x40 * (b[0] - 0xC0) + Tail(b[1]), FromUtf8(b[2..]))
    else if 0xE0 <= b[0] < 0xF0 && |b| > 2 && IsTail(b[1]) && IsTail(b[2]) then
      CodeThen(0x1000 * (b[0] - 0xE0) + 0x40 * Tail(b[1]) + Tail(b[2]), FromUtf8(b[3..]))
    else if 0xF0 <= b[0] && |b| > 3 && IsTail(b[1]) && IsTail(b[2]) && IsTail(b[3]) then
      CodeThen(0x4_0000 * (b[0] - 0xF0) + 0x1000 * Tail(b[1]) + 0x40 * Tail(b[2]) + Tail(b[3]), FromUtf8(b[4..]))
    else None
  }

  function CodeThen(code: int, rest: Option<string>): Option<string> {
    if rest.None? || code < 0 || 0xD800 <= code < 0xE000 || 0x11_0000 <= code then None
    else Some([code as char] + rest.value)
  }

  /** What is written in UTF-8 is read as the text itself, whatever it is. */
  lemma {:induction false} Utf8RoundTrip(s: string)
    ensures FromUtf8(Utf8(s)) == Some(s)
  {
    if s != [] {
      Utf8RoundTrip(s[1..]);
      CharRoundTrip(s[0], Utf8(s[1..]));
      assert s == [s[0]] + s[1..];
    }
  }

  lemma CharRoundTrip(c: char, rest: bytes)
    ensures FromUtf8(Utf8Char(c) + rest) == CodeThen(c as int, FromUtf8(rest))
  {
    var b := Utf8Char(c) + rest;
    assert b[|Utf8Char(c)|..] == rest;
    CodeDigits(c as int);
  }

  /** A code is made up of its six-bit digits. */
  lemma CodeDigits(u: nat)
    ensures u == 0x40 * (u / 0x40) + u % 0x40
    ensures u == 0x1000 * (u / 0x1000) + 0x40 * (u / 0x40 % 0x40) + u % 0x40
    ensures u == 0x4_0000 * (u / 0x4_0000) + 0x1000 * (u / 0x1000 % 0x40) + 0x40 * (u / 0x40 % 0x40) + u % 0x40
  {
    assert u / 0x40 / 0x40 == u / 0x1000 && u / 0x1000 / 0x40 == u / 0x4_0000;
  }

  // ----- The writer -----

  function Concat(chunks: seq<bytes>): bytes {
    if chunks == [] then [] else chunks[0] + Concat(chunks[1..])
  }

  lemma {:induction false} ConcatAppend(a: seq<bytes>, b: seq<bytes>)
    ensures Concat(a + b) == Concat(a) + Concat(b)
  {
    if a == [] {
      assert a + b == b;
    } else {
      assert (a + b)[1..] == a[1..] + b;
      ConcatAppend(a[1..], b);
    }
  }

  /** The exporter's `totalLength`. */
  function TotalLength(chunks: seq<bytes>): nat {
    if chunks == [] then 0 else TotalLength(chunks[..|chunks|-1]) + |chunks[|chunks|-1]|
  }

  lemma {:induction false} TotalLengthIsLength(chunks: seq<bytes>)
    ensures TotalLength(chunks) == |Concat(chunks)|
  {
    if chunks != [] {
      var front, last := chunks[..|chunks|-1], chunks[|chunks|-1..];
      TotalLengthIsLength(front);
      assert chunks == front + last;
      ConcatAppend(front, last);
      assert Concat(last) == last[0] + Concat(last[1..]);
    }
  }

  const HEADER := "%PDF-1.4\n"

  function ObjectHeader(k: nat): string { Decimal(k) + " 0 obj\n" }

  /** Object number `k`, from its header to the line after `endobj`. */
  function ObjectText(k: nat, body: string): string { ObjectHeader(k) + (body + "\nendobj\n") }

  function ObjectBytes(k: nat, body: string): bytes { Utf8(ObjectText(k, body)) }

  /** The file header followed by the first `n` objects. */
  function Body(objects: seq<string>, n: nat): bytes
    requires n <= |objects|
  {
    if n == 0 then Utf8(HEADER) else Body(objects, n - 1) + ObjectBytes(n, objects[n - 1])
  }

  /** Where object `k` starts: just behind everything written before it. */
  function Offset(objects: seq<string>, k: nat): nat
    requires 1 <= k <= |objects|
  {
    |Body(objects, k - 1)|
  }

  function Entry(offset: nat): string { PadStart(Decimal(offset), 10, '0') + " 00000 n \n" }

  function Entries(objects: seq<string>, n: nat): string
    requires n <= |objects|
  {
    if n == 0 then "0000000000 65535 f \n" else Entries(objects, n - 1) + Entry(Offset(objects, n))
  }

  function XrefText(objects: seq<string>): string {
    "xref\n0 " + (Decimal(|objects| + 1) + ("\n" + Entries(objects, |objects|)))
  }

  function TrailerDict(size: nat): string { "trailer\n<< /Size " + Decimal(size) + " /Root 1 0 R >>\n" }

  function TrailerText(objects: seq<string>): string {
    TrailerDict(|objects| + 1) + ("startxref\n" + (Decimal(|Body(objects, |objects|)|) + "\n%%EOF\n"))
  }

  function FileBytes(objects: seq<string>): bytes {
    Body(objects, |objects|) + Utf8(XrefText(objects) + TrailerText(objects))
  }

  /** `PdfExporter.assemble`. */
  method Assemble(objects: seq<string>) returns (file: bytes)
    ensures file == FileBytes(objects)
  {
    var chunks, offsets := WriteObjects(objects);
    var xrefStart := TotalLength(chunks);
    TotalLengthIsLength(chunks);
    var xref := WriteXref(objects, offsets);
    var trailer := TrailerDict(|objects| + 1) + ("startxref\n" + (Decimal(xrefStart) + "\n%%EOF\n"));
    Append(chunks, Utf8(xref + trailer));
    chunks := chunks + [Utf8(xref + trailer)];
    file := Concat(chunks);
  }

  /** The first loop of `assemble`: every object is written where the chunks before it end. */
  method WriteObjects(objects: seq<string>) returns (chunks: seq<bytes>, offsets: seq<nat>)
    ensures Concat(chunks) == Body(objects, |objects|)
    ensures |offsets| == |objects| && forall k :: 0 <= k < |objects| ==> offsets[k] == Offset(objects, k + 1)
  {
    hide Utf8, TotalLength, Decimal;
    Append([], Utf8(HEADER));
    assert [] + [Utf8(HEADER)] == [Utf8(HEADER)];
    chunks, offsets := [Utf8(HEADER)], [];
    for i := 0 to |objects|
      invariant Concat(chunks) == Body(objects, i)
      invariant |offsets| == i && forall k :: 0 <= k < i ==> offsets[k] == Offset(objects, k + 1)
    {
      var header := ObjectHeader(i + 1);
      var body := objects[i] + "\nendobj\n";
      TotalLengthIsLength(chunks);
      offsets := offsets + [TotalLength(chunks)];
      Append(chunks, Utf8(header + body));
      chunks := chunks + [Utf8(header + body)];
    }
  }

  /** The second loop of `assemble`. */
  method WriteXref(objects: seq<string>, offsets: seq<nat>) returns (xref: string)
    requires |offsets| == |objects| && forall k :: 0 <= k < |objects| ==> offsets[k] == Offset(objects, k + 1)
    ensures xref == XrefText(objects)
  {
    xref := "xref\n0 " + (Decimal(|objects| + 1) + ("\n" + "0000000000 65535 f \n"));
    for i := 0 to |offsets|
      invariant xref == "xref\n0 " + (Decimal(|objects| + 1) + ("\n" + Entries(objects, i)))
    {
      AppendEntry("xref\n0 ", Decimal(|objects| + 1), "\n", Entries(objects, i), Entry(offsets[i]));
      xref := xref + Entry(offsets[i]);
    }
  }

  lemma AppendEntry(a: string, b: string, c: string, d: string, e: string)
    ensures (a + (b + (c + d))) + e == a + (b + (c + (d + e)))
  {
  }

  lemma Append(chunks: seq<bytes>, last: bytes)
    ensures Concat(chunks + [last]) == Concat(chunks) + last
  {
    ConcatAppend(chunks, [last]);
    assert Concat([last]) == last + Concat([last][1..]);
  }

  /** The frame of a file: its version, the head of the table with the free entry, and the trailer that names object 1
      as the root. */
  lemma FileFrame(objects: seq<string>) returns (front: bytes, entries: string)
    ensures Utf8("%PDF-1.4\n") <= front
    ensures var n := Decimal(|objects| + 1);
            FileBytes(objects) == front + Utf8(
                "xref\n0 " + (n + ("\n" + ("0000000000 65535 f \n" + entries)))
                + ("trailer\n<< /Size " + n + " /Root 1 0 R >>\n" + ("startxref\n" + (Decimal(|front|) + "\n%%EOF\n"))))
  {
    front := Body(objects, |objects|);
    BodyStarts(objects, |objects|);
    entries := EntriesStart(objects, |objects|);
    hide Utf8, Decimal, Body, Entries;
  }

  lemma {:induction false} BodyStarts(objects: seq<string>, n: nat)
    requires n <= |objects|
    ensures Utf8(HEADER) <= Body(objects, n)
  {
    if n > 0 { BodyStarts(objects, n - 1); }
  }

  lemma {:induction false} EntriesStart(objects: seq<string>, n: nat) returns (rest: string)
    requires n <= |objects|
    ensures Entries(objects, n) == "0000000000 65535 f \n" + rest
  {
    if n == 0 {
      rest := "";
    } else {
      hide Entry, Offset;
      var front := EntriesStart(objects, n - 1);
      rest := front + Entry(Offset(objects, n));
      Regroup("0000000000 65535 f \n", front, Entry(Offset(objects, n)));
    }
  }

  // ----- The reader -----

  /** What follows `text`, when the input starts with it. */
  function Expect(input: bytes, text: string): (rest: Option<bytes>)
    ensures rest.Some? ==> |rest.value| + |Utf8(text)| == |input|
  {
    if Utf8(text) <= input then Some(input[|Utf8(text)|..]) else None
  }

  predicate IsDigitByte(b: byte) { 48 <= b < 58 }

  /** The leading decimal digits of the input. */
  function DigitRun(input: bytes): (n: nat)
    ensures n <= |input| && forall i :: 0 <= i < n ==> IsDigitByte(input[i])
    ensures n < |input| ==> !IsDigitByte(input[n])
  {
    if input == [] || !IsDigitByte(input[0]) then 0 else 1 + DigitRun(input[1..])
  }

  function DigitsValue(digits: bytes): nat
    requires forall i :: 0 <= i < |digits| ==> IsDigitByte(digits[i])
  {
    if digits == [] then 0
    else
      var last := digits[|digits|-1] as int;
      assert IsDigitByte(last);
      10 * DigitsValue(digits[..|digits|-1]) + (last - 48)
  }

  datatype Numeral = Numeral(value: nat, rest: bytes)

  function ReadNumeral(input: bytes): Option<Numeral> {
    var n := DigitRun(input);
    if n == 0 then None else Some(Numeral(DigitsValue(input[..n]), input[n..]))
  }

  /** How many of the last bytes of the input are digits. */
  function DigitTail(input: bytes): (n: nat)
    ensures n <= |input| && forall i :: |input| - n <= i < |input| ==> IsDigitByte(input[i])
  {
    if input == [] || !IsDigitByte(input[|input|-1]) then 0 else 1 + DigitTail(input[..|input|-1])
  }

  predicate EndsWith(input: bytes, suffix: bytes) {
    |suffix| <= |input| && input[|input| - |suffix|..] == suffix
  }

  /** The digits standing between `lead` and `eof` at the end of the file. */
  function TailNumeral(file: bytes, lead: bytes, eof: bytes): Option<nat> {
    if !EndsWith(file, eof) then None
    else
      var front := file[..|file| - |eof|];
      var n := DigitTail(front);
      if n == 0 || !EndsWith(front[..|front|-n], lead) then None
      else Some(DigitsValue(front[|front|-n..]))
  }

  /** The number after the last `startxref` (ISO 32000-1, section 7.5.5). */
  function StartXref(file: bytes): Option<nat> {
    TailNumeral(file, Utf8("startxref\n"), Utf8("\n%%EOF\n"))
  }

  const ENTRY_LENGTH := 20

  /** An in-use entry: ten digits and the fixed ten bytes (ISO 32000-1, section 7.5.4). */
  function ReadEntry(entry: bytes): Option<nat>
    requires |entry| == ENTRY_LENGTH
  {
    if DigitRun(entry[..10]) == 10 && entry[10..] == Utf8(" 00000 n \n") then Some(DigitsValue(entry[..10])) else None
  }

  /** A number standing between two fixed texts, and what follows. */
  function ReadBetween(input: bytes, head: string, tail: string): Option<Numeral> {
    match Expect(input, head)
    case None => None
    case Some(r1) =>
      match ReadNumeral(r1)
      case None => None
      case Some(Numeral(n, r2)) =>
        match Expect(r2, tail)
        case None => None
        case Some(rest) => Some(Numeral(n, rest))
  }

  /** The head of the table: its number of entries, and the input from its first entry on. */
  function ReadTable(input: bytes): Option<Numeral> { ReadBetween(input, "xref\n0 ", "\n") }

  /** The bytes of object `k` after its header, found the way a PDF reader finds them: the tail of the
      file gives the table, the k-th 20-byte entry gives the offset, the offset must hold the header. */
  function ReadObject(file: bytes, k: nat): Option<bytes> {
    match StartXref(file)
    case None => None
    case Some(start) =>
      if start > |file| then None
      else
        match ReadTable(file[start..])
        case None => None
        case Some(Numeral(count, entries)) => ObjectInTable(file, entries, count, k)
  }

  function ObjectInTable(file: bytes, table: bytes, count: nat, k: nat): Option<bytes> {
    if k >= count || |table| < ENTRY_LENGTH * (k + 1) then None
    else
      match ReadEntry(table[ENTRY_LENGTH * k..ENTRY_LENGTH * (k + 1)])
      case None => None
      case Some(offset) => if offset > |file| then None else Expect(file[offset..], ObjectHeader(k))
  }

  // ----- Reading back what was written -----

  lemma ExpectOwn(text: string, rest: bytes)
    ensures Expect(Utf8(text) + rest, text) == Some(rest)
  {
    var input := Utf8(text) + rest;
    assert input[..|Utf8(text)|] == Utf8(text) && input[|Utf8(text)|..] == rest;
  }

  lemma {:induction false} DigitsOfUtf8(s: string)
    requires AllDigits(s)
    ensures |Utf8(s)| == |s| && forall i :: 0 <= i < |s| ==> IsDigitByte(Utf8(s)[i])
    ensures DigitsValue(Utf8(s)) == DecimalValue(s)
  {
    assert IsAscii(s) by {
      forall i | 0 <= i < |s| ensures s[i] < '\U{0080}' { assert s[i] in s; }
    }
    Utf8Ascii(s);
    forall i | 0 <= i < |s| ensures IsDigitByte(Utf8(s)[i]) { assert s[i] in s; }
    if s != [] {
      var front, last := s[..|s|-1], s[|s|-1..];
      assert s == front + last;
      Utf8Concat(front, last);
      DigitsOfUtf8(front);
      DigitsOfLast(s, front);
    }
  }

  lemma DigitsOfLast(s: string, front: string)
    requires AllDigits(s) && s != [] && front == s[..|s|-1]
    requires |Utf8(s)| == |s| && forall i :: 0 <= i < |s| ==> IsDigitByte(Utf8(s)[i]) && Utf8(s)[i] == s[i] as int
    requires |Utf8(front)| == |front| && Utf8(front) <= Utf8(s) && DigitsValue(Utf8(front)) == DecimalValue(front)
    ensures DigitsValue(Utf8(s)) == DecimalValue(s)
  {
    assert Utf8(s)[..|s|-1] == Utf8(front);
    assert s[|s|-1] in s;
  }

  lemma {:induction false} DigitRunStops(digits: bytes, rest: bytes)
    requires forall i :: 0 <= i < |digits| ==> IsDigitByte(digits[i])
    requires rest == [] || !IsDigitByte(rest[0])
    ensures DigitRun(digits + rest) == |digits|
  {
    if digits == [] {
      assert digits + rest == rest;
    } else {
      assert (digits + rest)[1..] == digits[1..] + rest;
      DigitRunStops(digits[1..], rest);
    }
  }

  lemma ReadOwnNumeral(n: nat, rest: bytes)
    requires rest == [] || !IsDigitByte(rest[0])
    ensures ReadNumeral(Utf8(Decimal(n)) + rest) == Some(Numeral(n, rest))
  {
    var digits := Utf8(Decimal(n));
    DigitsOfUtf8(Decimal(n));
    DecimalRoundTrip(n);
    DigitRunStops(digits, rest);
    assert (digits + rest)[..|digits|] == digits && (digits + rest)[|digits|..] == rest;
  }

  lemma {:induction false} DigitTailStops(rest: bytes, digits: bytes)
    requires forall i :: 0 <= i < |digits| ==> IsDigitByte(digits[i])
    requires rest == [] || !IsDigitByte(rest[|rest|-1])
    ensures DigitTail(rest + digits) == |digits|
  {
    if digits == [] {
      assert rest + digits == rest;
    } else {
      assert (rest + digits)[..|rest + digits|-1] == rest + digits[..|digits|-1];
      DigitTailStops(rest, digits[..|digits|-1]);
    }
  }

  lemma TailNumeralReadsBack(front: bytes, lead: bytes, n: nat, eof: bytes)
    requires lead != [] && !IsDigitByte(lead[|lead|-1])
    ensures TailNumeral(front + (lead + (Utf8(Decimal(n)) + eof)), lead, eof) == Some(n)
  {
    hide Utf8, Decimal, DigitsValue, DigitTail, DecimalValue;
    var digits := Utf8(Decimal(n));
    DigitsOfUtf8(Decimal(n));
    DecimalRoundTrip(n);
    var file := front + (lead + (digits + eof));
    assert file == front + lead + digits + eof;
    assert file[..|file| - |eof|] == front + lead + digits;
    DigitTailStops(front + lead, digits);
    assert (front + lead + digits)[..|front + lead|] == front + lead;
    assert (front + lead + digits)[|front + lead|..] == digits;
  }

  lemma Utf8Three(a: string, b: string, c: string)
    ensures Utf8(a + (b + c)) == Utf8(a) + (Utf8(b) + Utf8(c))
  {
    Utf8Concat(a, b + c);
    Utf8Concat(b, c);
  }

  lemma Utf8Four(a: string, b: string, c: string, d: string)
    ensures Utf8(a + (b + (c + d))) == Utf8(a) + (Utf8(b) + (Utf8(c) + Utf8(d)))
  {
    Utf8Concat(a, b + (c + d));
    Utf8Three(b, c, d);
  }

  /** An entry has its twenty bytes exactly while the offset fits ten digits. */
  lemma EntryWidth(offset: nat)
    ensures |Utf8(Entry(offset))| == ENTRY_LENGTH <==> offset < Pow10(10)
    ensures |Utf8(Entry(offset))| >= ENTRY_LENGTH
    ensures Utf8(Entry(offset)) == Utf8(PadStart(Decimal(offset), 10, '0')) + Utf8(" 00000 n \n")
    ensures |Utf8(" 00000 n \n")| == 10
    ensures |Utf8(PadStart(Decimal(offset), 10, '0'))| == if offset < Pow10(10) then 10 else |Decimal(offset)|
  {
    hide Utf8, Decimal, PadStart, Pow10, DecimalValue;
    var digits := PadStart(Decimal(offset), 10, '0');
    DecimalWidth(offset, 10);
    PadStartShape(Decimal(offset), 10, '0');
    DigitsOfUtf8(digits);
    Utf8Concat(digits, " 00000 n \n");
    assert IsAscii(" 00000 n \n");
    Utf8Ascii(" 00000 n \n");
  }

  lemma EntryReadsBack(offset: nat)
    requires offset < Pow10(10)
    ensures |Utf8(Entry(offset))| == ENTRY_LENGTH && ReadEntry(Utf8(Entry(offset))) == Some(offset)
  {
    EntryWidth(offset);
    var digits := PadStart(Decimal(offset), 10, '0');
    PadStartShape(Decimal(offset), 10, '0');
    DigitsOfUtf8(digits);
    DecimalRoundTrip(offset);
    var entry := Utf8(Entry(offset));
    assert entry[..10] == Utf8(digits) && entry[10..] == Utf8(" 00000 n \n");
    DigitRunStops(entry[..10], []);
    assert entry[..10] + [] == entry[..10];
  }

  /** An entry that is too wide is not one a reader accepts at its place. */
  lemma WideEntryIsRejected(offset: nat)
    requires offset >= Pow10(10)
    ensures |Utf8(Entry(offset))| > ENTRY_LENGTH && ReadEntry(Utf8(Entry(offset))[..ENTRY_LENGTH]) == None
  {
    hide Decimal, PadStart, DecimalValue, DigitsValue, Pow10;
    EntryWidth(offset);
    var digits := PadStart(Decimal(offset), 10, '0');
    DecimalWidth(offset, 10);
    PadStartShape(Decimal(offset), 10, '0');
    DigitsOfUtf8(digits);
    var entry := Utf8(Entry(offset))[..ENTRY_LENGTH];
    assert entry[10..][0] == Utf8(digits)[10];
    assert IsAscii(" 00000 n \n");
    Utf8Ascii(" 00000 n \n");
    assert Utf8(" 00000 n \n")[0] == 32;
  }

  /** Entries of the first `n` objects: entry k at byte 20k as long as all offsets so far fit. */
  lemma {:induction false} EntriesLayout(objects: seq<string>, n: nat)
    requires n <= |objects|
    requires n == 0 || Offset(objects, n) < Pow10(10)
    ensures |Utf8(Entries(objects, n))| == ENTRY_LENGTH * (n + 1)
  {
    if n == 0 {
      assert IsAscii("0000000000 65535 f \n");
      Utf8Ascii("0000000000 65535 f \n");
    } else {
      if n > 1 { OffsetsGrow(objects, n - 1, n); }
      EntriesLayout(objects, n - 1);
      EntryReadsBack(Offset(objects, n));
      Utf8Concat(Entries(objects, n - 1), Entry(Offset(objects, n)));
    }
  }

  lemma {:induction false} OffsetsGrow(objects: seq<string>, j: nat, k: nat)
    requires 1 <= j <= k <= |objects|
    ensures Offset(objects, j) <= Offset(objects, k) <= |Body(objects, k)|
    decreases k
  {
    if j < k { OffsetsGrow(objects, j, k - 1); }
  }

  /** Entry k follows the entries before it. */
  lemma {:induction false} EntriesSplit(objects: seq<string>, k: nat, n: nat) returns (rest: string)
    requires 1 <= k <= n <= |objects|
    ensures Entries(objects, n) == Entries(objects, k - 1) + (Entry(Offset(objects, k)) + rest)
    decreases n
  {
    hide Entry, Offset;
    if k == n {
      rest := "";
    } else {
      var r := EntriesSplit(objects, k, n - 1);
      rest := r + Entry(Offset(objects, n));
    }
  }

  /** Everything behind the start of object k begins with that object. */
  lemma {:induction false} BodySplit(objects: seq<string>, k: nat, n: nat) returns (rest: bytes)
    requires 1 <= k <= n <= |objects|
    ensures Body(objects, n) == Body(objects, k - 1) + (ObjectBytes(k, objects[k - 1]) + rest)
    decreases n
  {
    if k == n {
      rest := [];
    } else {
      var r := BodySplit(objects, k, n - 1);
      rest := r + ObjectBytes(n, objects[n - 1]);
    }
  }

  lemma TrailerReadsBack(objects: seq<string>, front: bytes)
    ensures StartXref(front + Utf8(TrailerText(objects))) == Some(|Body(objects, |objects|)|)
  {
    TrailerReadsBackFrom(front, TrailerDict(|objects| + 1), "startxref\n", |Body(objects, |objects|)|, "\n%%EOF\n");
  }

  lemma TrailerReadsBackFrom(front: bytes, pre: string, lead: string, start: nat, eof: string)
    requires lead != "" && IsAscii(lead) && !IsDigit(lead[|lead|-1])
    ensures TailNumeral(front + Utf8(pre + (lead + (Decimal(start) + eof))), Utf8(lead), Utf8(eof)) == Some(start)
  {
    Utf8Four(pre, lead, Decimal(start), eof);
    Utf8Ascii(lead);
    var rest := Utf8(lead) + (Utf8(Decimal(start)) + Utf8(eof));
    assert front + (Utf8(pre) + rest) == (front + Utf8(pre)) + rest;
    TailNumeralReadsBack(front + Utf8(pre), Utf8(lead), start, Utf8(eof));
  }

  lemma SliceAfter(a: bytes, b: bytes)
    ensures (a + b)[|a|..] == b
  {
  }

  /** What stands where `startxref` points. */
  lemma XrefIsFound(objects: seq<string>)
    ensures StartXref(FileBytes(objects)) == Some(|Body(objects, |objects|)|)
    ensures FileBytes(objects)[|Body(objects, |objects|)|..] == Utf8(XrefText(objects)) + Utf8(TrailerText(objects))
  {
    var body, xref, trailer := Body(objects, |objects|), Utf8(XrefText(objects)), Utf8(TrailerText(objects));
    Utf8Concat(XrefText(objects), TrailerText(objects));
    SliceAfter(body, xref + trailer);
    assert body + (xref + trailer) == (body + xref) + trailer;
    TrailerReadsBack(objects, body + xref);
  }

  ghost predicate StartsWithoutDigit(text: string) { text != "" && text[0] < '\U{0080}' && !IsDigit(text[0]) }

  lemma FirstByte(text: string)
    requires StartsWithoutDigit(text)
    ensures Utf8(text) != [] && Utf8(text)[0] == text[0] as int && !IsDigitByte(Utf8(text)[0])
  {
    assert Utf8(text) == Utf8Char(text[0]) + Utf8(text[1..]);
  }

  lemma ReadBetweenReadsBack(head: string, n: nat, tail: string, rest: bytes)
    requires StartsWithoutDigit(tail)
    ensures ReadBetween(Utf8(head + (Decimal(n) + tail)) + rest, head, tail) == Some(Numeral(n, rest))
  {
    hide Utf8, Decimal, DigitRun, DigitsValue, Expect, ReadNumeral;
    Utf8Three(head, Decimal(n), tail);
    var after := Utf8(tail) + rest;
    assert Utf8(head) + (Utf8(Decimal(n)) + Utf8(tail)) + rest == Utf8(head) + (Utf8(Decimal(n)) + after);
    ExpectOwn(head, Utf8(Decimal(n)) + after);
    FirstByte(tail);
    ReadOwnNumeral(n, after);
    ExpectOwn(tail, rest);
  }

  lemma XrefReadsBack(n: nat, entries: string, tail: bytes)
    ensures ReadTable(Utf8("xref\n0 " + (Decimal(n) + ("\n" + entries))) + tail)
            == Some(Numeral(n, Utf8(entries) + tail))
  {
    ReadBetweenReadsBack("xref\n0 ", n, "\n", Utf8(entries) + tail);
    NumeralThenMore("xref\n0 ", Decimal(n), "\n", entries, tail);
  }

  lemma NumeralThenMore(a: string, b: string, c: string, d: string, tail: bytes)
    ensures Utf8(a + (b + (c + d))) + tail == Utf8(a + (b + c)) + (Utf8(d) + tail)
  {
    hide Utf8;
    Utf8Concat(a + (b + c), d);
    assert a + (b + (c + d)) == (a + (b + c)) + d;
  }

  lemma ReadObjectVia(file: bytes, start: nat, table: Numeral, k: nat)
    requires StartXref(file) == Some(start) && start <= |file|
    requires ReadTable(file[start..]) == Some(table)
    ensures ReadObject(file, k) == ObjectInTable(file, table.rest, table.value, k)
  {
  }

  /** Reading object k comes down to its entry. */
  lemma ReadObjectThroughTable(objects: seq<string>, k: nat)
    ensures ReadObject(FileBytes(objects), k)
         == ObjectInTable(FileBytes(objects), Utf8(Entries(objects, |objects|)) + Utf8(TrailerText(objects)),
             |objects| + 1, k)
  {
    XrefIsFound(objects);
    XrefReadsBack(|objects| + 1, Entries(objects, |objects|), Utf8(TrailerText(objects)));
    assert |Body(objects, |objects|)| <= |FileBytes(objects)|;
    ReadObjectVia(FileBytes(objects), |Body(objects, |objects|)|,
        Numeral(|objects| + 1, Utf8(Entries(objects, |objects|)) + Utf8(TrailerText(objects))), k);
  }

  /** Entry k of the table, whether or not it kept its width. */
  lemma EntryIsAtItsPlace(objects: seq<string>, k: nat, tail: bytes)
    requires 1 <= k <= |objects|
    requires k == 1 || Offset(objects, k - 1) < Pow10(10)
    ensures var table, entry := Utf8(Entries(objects, |objects|)) + tail, Utf8(Entry(Offset(objects, k)));
            && |entry| >= ENTRY_LENGTH && |table| >= ENTRY_LENGTH * (k + 1)
            && table[ENTRY_LENGTH * k..ENTRY_LENGTH * (k + 1)] == entry[..ENTRY_LENGTH]
  {
    hide Utf8, Entry, Entries, Offset;
    var r := EntriesSplit(objects, k, |objects|);
    EntriesLayout(objects, k - 1);
    EntryWidth(Offset(objects, k));
    EntryBehind(Entries(objects, k - 1), Entry(Offset(objects, k)), r, tail, k);
  }

  lemma EntryBehind(before: string, entry: string, r: string, tail: bytes, k: nat)
    requires |Utf8(before)| == ENTRY_LENGTH * k && |Utf8(entry)| >= ENTRY_LENGTH
    ensures var table := Utf8(before + (entry + r)) + tail;
            && |table| >= ENTRY_LENGTH * (k + 1)
            && table[ENTRY_LENGTH * k..ENTRY_LENGTH * (k + 1)] == Utf8(entry)[..ENTRY_LENGTH]
  {
    Utf8Three(before, entry, r);
    SecondPart(Utf8(before), Utf8(entry), Utf8(r), tail, ENTRY_LENGTH);
  }

  lemma SecondPart(a: bytes, b: bytes, c: bytes, d: bytes, n: nat)
    requires n <= |b|
    ensures (a + (b + c) + d)[|a|..|a| + n] == b[..n]
  {
  }

  lemma ObjectBehindOffset(objects: seq<string>, k: nat) returns (rest: bytes)
    requires 1 <= k <= |objects|
    ensures Offset(objects, k) <= |FileBytes(objects)|
    ensures Expect(FileBytes(objects)[Offset(objects, k)..], ObjectHeader(k))
            == Some(Utf8(objects[k - 1] + "\nendobj\n") + rest)
  {
    var r := BodySplit(objects, k, |objects|);
    rest := r + Utf8(XrefText(objects) + TrailerText(objects));
    ObjectBehind(Body(objects, k - 1), ObjectHeader(k), objects[k - 1] + "\nendobj\n", r,
        Utf8(XrefText(objects) + TrailerText(objects)));
  }

  lemma ObjectBehind(before: bytes, header: string, body: string, r: bytes, tail: bytes)
    ensures Expect((before + (Utf8(header + body) + r) + tail)[|before|..], header) == Some(Utf8(body) + (r + tail))
  {
    hide Utf8, Expect;
    Utf8Concat(header, body);
    assert before + (Utf8(header + body) + r) + tail == before + (Utf8(header) + (Utf8(body) + (r + tail)));
    ExpectOwn(header, Utf8(body) + (r + tail));
  }

  /** A reader finds every object whose offset fits ten digits. */
  lemma ObjectReadsBack(objects: seq<string>, k: nat) returns (rest: bytes)
    requires 1 <= k <= |objects|
    requires Offset(objects, k) < Pow10(10)
    ensures ReadObject(FileBytes(objects), k) == Some(Utf8(objects[k - 1] + "\nendobj\n") + rest)
  {
    hide Utf8, Entries, Offset, Body, ReadObject, ReadEntry, TrailerText, Pow10, Expect, ObjectHeader, FileBytes;
    if k > 1 { OffsetsGrow(objects, k - 1, k); }
    ReadObjectThroughTable(objects, k);
    EntryPointsAtObject(objects, k, Utf8(TrailerText(objects)));
    rest := ObjectBehindOffset(objects, k);
  }

  lemma EntryPointsAtObject(objects: seq<string>, k: nat, tail: bytes)
    requires 1 <= k <= |objects| && Offset(objects, k) < Pow10(10)
    requires k == 1 || Offset(objects, k - 1) < Pow10(10)
    ensures var table := Utf8(Entries(objects, |objects|)) + tail;
            && |table| >= ENTRY_LENGTH * (k + 1)
            && ReadEntry(table[ENTRY_LENGTH * k..ENTRY_LENGTH * (k + 1)]) == Some(Offset(objects, k))
  {
    hide Utf8, Entry, Entries, Offset, ReadEntry, Pow10;
    EntryIsAtItsPlace(objects, k, tail);
    EntryReadsBack(Offset(objects, k));
    assert Utf8(Entry(Offset(objects, k)))[..ENTRY_LENGTH] == Utf8(Entry(Offset(objects, k)));
  }

  /** The first object behind 10^10 bytes is lost: its entry no longer has the fixed width. */
  lemma FirstFarObjectIsLost(objects: seq<string>, k: nat)
    requires 1 <= k <= |objects|
    requires Offset(objects, k) >= Pow10(10)
    requires k == 1 || Offset(objects, k - 1) < Pow10(10)
    ensures ReadObject(FileBytes(objects), k) == None
  {
    ReadObjectThroughTable(objects, k);
    EntryIsAtItsPlace(objects, k, Utf8(TrailerText(objects)));
    WideEntryIsRejected(Offset(objects, k));
  }

  /** All objects of a file can be read through its cross-reference table exactly when the last one
      starts before byte 10^10. */
  lemma XrefIsCorrect(objects: seq<string>)
    requires objects != []
    ensures (forall k :: 1 <= k <= |objects| ==> ReadObject(FileBytes(objects), k).Some?)
       <==> Offset(objects, |objects|) < Pow10(10)
  {
    if Offset(objects, |objects|) < Pow10(10) {
      forall k | 1 <= k <= |objects|
        ensures ReadObject(FileBytes(objects), k).Some?
      {
        OffsetsGrow(objects, k, |objects|);
        var rest := ObjectReadsBack(objects, k);
      }
    } else {
      var k := FirstFar(objects, |objects|);
      FirstFarObjectIsLost(objects, k);
    }
  }

  lemma FirstFar(objects: seq<string>, n: nat) returns (k: nat)
    requires 1 <= n <= |objects| && Offset(objects, n) >= Pow10(10)
    ensures 1 <= k <= n && Offset(objects, k) >= Pow10(10)
    ensures k == 1 || Offset(objects, k - 1) < Pow10(10)
  {
    k := n;
    while k > 1 && Offset(objects, k - 1) >= Pow10(10)
      invariant 1 <= k <= n && Offset(objects, k) >= Pow10(10)
    {
      k := k - 1;
    }
  }
}
