/** The greedy line breaker of the text reports, and the page breaker behind it. */
module PdfWrap {
  import opened Text

  const CONTENT_WIDTH := 532

  /** Helvetica advance widths of the characters 32 to 126, in thousandths of the font size. */
  const HELVETICA_WIDTHS: seq<nat> :=
    [278, 278, 355, 556, 556, 889, 667, 191, 333, 333, 389, 584, 278, 333, 278, 278, 556, 556, 556,
     556, 556, 556, 556, 556, 556, 556, 278, 278, 584, 584, 584, 556, 1015, 667, 667, 722, 722, 667,
     611, 778, 722, 278, 500, 667, 556, 833, 722, 778, 667, 778, 722, 667, 611, 722, 667, 944, 667,
     667, 611, 278, 278, 278, 469, 556, 333, 556, 556, 500, 556, 556, 278, 556, 556, 222, 222, 500,
     222, 833, 556, 556, 556, 556, 333, 500, 278, 556, 500, 722, 500, 500, 500, 334, 260, 334, 584]

  const HELVETICA_BOLD_WIDTHS: seq<nat> :=
    [278, 333, 474, 556, 556, 889, 722, 238, 333, 333, 389, 584, 278, 333, 278, 278, 556, 556, 556,
     556, 556, 556, 556, 556, 556, 556, 333, 333, 584, 584, 584, 611, 975, 722, 722, 722, 722, 667,
     611, 778, 722, 278, 556, 722, 611, 833, 722, 778, 667, 778, 722, 667, 611, 722, 667, 944, 667,
     667, 611, 333, 278, 333, 584, 556, 333, 556, 611, 556, 611, 556, 333, 611, 611, 278, 278, 556,
     278, 889, 611, 611, 611, 611, 389, 556, 333, 611, 556, 778, 556, 556, 500, 389, 280, 389, 584]

  const FALLBACK_WIDTH := 500

  function CharWidth(ch: char, bold: bool): nat {
    var widths := if bold then HELVETICA_BOLD_WIDTHS else HELVETICA_WIDTHS;
    var code := ch as int;
    if 32 <= code < 32 + |widths| then widths[code - 32] else FALLBACK_WIDTH
  }

  /** Total advance of a text, in thousandths of the font size. */
  function Advance(text: string, bold: bool): nat {
    if text == "" then 0 else Advance(text[..|text|-1], bold) + CharWidth(text[|text|-1], bold)
  }

  /** `textWidth`, scaled by 1000 and the size to stay in whole numbers. */
  method TextWidth(text: string, size: nat, bold: bool) returns (w: nat)
    ensures w == Advance(text, bold) * size
  {
    hide CharWidth;
    w := 0;
    for i := 0 to |text|
      invariant w == Advance(text[..i], bold)
    {
      assert text[..i + 1][..i] == text[..i];
      w := w + CharWidth(text[i], bold);
    }
    assert text[..|text|] == text;
    w := w * size;
  }

  predicate NotSpace(c: char) { !IsSpace(c) }

  /** `text.split(/\\s+/).filter(Boolean)`. */
  function Words(text: string): (words: seq<string>)
    ensures forall w <- words :: w != []
  {
    Runs(text, NotSpace)
  }

  /** The words of one line, as they are printed. */
  function Line(words: seq<string>): string { Join(words, " ") }

  ghost predicate Fits(words: seq<string>, size: nat, bold: bool) {
    Advance(Line(words), bold) * size <= CONTENT_WIDTH * 1000
  }

  // ----- Splitting a list of words into lines -----

  /** Cut positions 0 = cuts[0] < cuts[1] < ... = n; line i holds the words from cuts[i] to cuts[i+1]. */
  ghost predicate IsSplit(cuts: seq<nat>, n: nat) {
    && |cuts| > 0 && cuts[0] == 0 && cuts[|cuts|-1] == n
    && forall i :: 0 <= i < |cuts| - 1 ==> cuts[i] < cuts[i + 1]
  }

  lemma {:induction false} CutsBounded(cuts: seq<nat>, n: nat, i: nat)
    requires IsSplit(cuts, n) && i < |cuts|
    ensures cuts[i] <= n
    decreases |cuts| - i
  {
    if i + 1 < |cuts| { CutsBounded(cuts, n, i + 1); }
  }

  /** The words of line i. */
  function LineWords(words: seq<string>, cuts: seq<nat>, i: nat): seq<string> {
    if i + 1 < |cuts| && cuts[i] <= cuts[i + 1] <= |words| then words[cuts[i]..cuts[i + 1]] else []
  }

  /** A line of several words fits; a single word may be too wide on its own. */
  ghost predicate Allowed(line: seq<string>, size: nat, bold: bool) {
    |line| == 1 || Fits(line, size, bold)
  }

  ghost predicate Feasible(words: seq<string>, cuts: seq<nat>, size: nat, bold: bool) {
    forall i :: 0 <= i < |cuts| - 1 ==> Allowed(LineWords(words, cuts, i), size, bold)
  }

  /** Line i is not the last one and could not also have taken the first word of the next. */
  ghost predicate Full(words: seq<string>, cuts: seq<nat>, i: nat, size: nat, bold: bool) {
    i + 1 < |cuts| && cuts[i] <= cuts[i + 1] < |words| && !Fits(words[cuts[i]..cuts[i + 1] + 1], size, bold)
  }

  ghost predicate Greedy(words: seq<string>, cuts: seq<nat>, size: nat, bold: bool) {
    forall i :: 0 <= i < |cuts| - 2 ==> Full(words, cuts, i, size, bold)
  }

  /** The printed lines of a split. */
  ghost predicate LinesOf(lines: seq<string>, words: seq<string>, cuts: seq<nat>) {
    |lines| == |cuts| - 1 && forall i :: 0 <= i < |lines| ==> lines[i] == Line(LineWords(words, cuts, i))
  }

  // ----- Widths grow with words -----

  lemma {:induction false} AdvanceConcat(a: string, b: string, bold: bool)
    ensures Advance(a + b, bold) == Advance(a, bold) + Advance(b, bold)
  {
    if b == "" {
      assert a + b == a;
    } else {
      assert (a + b)[..|a + b|-1] == a + b[..|b|-1];
      AdvanceConcat(a, b[..|b|-1], bold);
    }
  }

  lemma LineSnoc(words: seq<string>, word: string)
    ensures Line(words + [word]) == if words == [] then word else Line(words) + " " + word
  {
    if words == [] {
      assert words + [word] == [word];
    } else {
      JoinSnoc(words, " ", word);
    }
  }

  /** Dropping words from either end does not widen a line. */
  lemma {:induction false} SublineNarrower(words: seq<string>, a: nat, b: nat, c: nat, d: nat, bold: bool)
    requires a <= b <= c <= d <= |words|
    ensures Advance(Line(words[b..c]), bold) <= Advance(Line(words[a..d]), bold)
    decreases d - a
  {
    hide Advance, Line;
    if c < d {
      SublineNarrower(words, a, b, c, d - 1, bold);
      DropLast(words, a, d, bold);
    } else if a < b {
      SublineNarrower(words, a + 1, b, c, d, bold);
      DropFirst(words, a, d, bold);
    }
  }

  lemma DropLast(words: seq<string>, a: nat, d: nat, bold: bool)
    requires a < d <= |words|
    ensures Advance(Line(words[a..d - 1]), bold) <= Advance(Line(words[a..d]), bold)
  {
    var front := words[a..d - 1];
    assert words[a..d] == front + [words[d - 1]];
    LineSnoc(front, words[d - 1]);
    if front != [] {
      AdvanceConcat(Line(front) + " ", words[d - 1], bold);
      AdvanceConcat(Line(front), " ", bold);
    }
  }

  lemma DropFirst(words: seq<string>, a: nat, d: nat, bold: bool)
    requires a < d <= |words|
    ensures Advance(Line(words[a + 1..d]), bold) <= Advance(Line(words[a..d]), bold)
  {
    var all := words[a..d];
    assert all[1..] == words[a + 1..d];
    if |all| > 1 {
      AdvanceConcat(all[0] + " ", Line(all[1..]), bold);
    }
  }

  // ----- Optimality -----

  /** After equally many lines, the greedy split has placed at least as many words as any other. */
  lemma {:induction false} GreedyStaysAhead(words: seq<string>, greedy: seq<nat>, other: seq<nat>, size: nat,
                                            bold: bool, k: nat)
    requires IsSplit(greedy, |words|) && IsSplit(other, |words|)
    requires Greedy(words, greedy, size, bold) && Feasible(words, other, size, bold)
    requires k < |greedy| && k < |other|
    ensures other[k] <= greedy[k]
  {
    CutsBounded(other, |words|, k);
    if k > 0 && k < |greedy| - 1 && other[k] > greedy[k] {
      GreedyStaysAhead(words, greedy, other, size, bold, k - 1);
      assert Full(words, greedy, k - 1, size, bold);
      assert Allowed(LineWords(words, other, k - 1), size, bold);
      assert other[k - 1] < other[(k - 1) + 1] && greedy[k - 1] < greedy[(k - 1) + 1];
      LongerLineFails(words, greedy[k - 1], greedy[k], other[k - 1], other[k], size, bold);
    }
  }

  /** A line that covers a full line and one more word is not allowed. */
  lemma LongerLineFails(words: seq<string>, g: nat, h: nat, a: nat, b: nat, size: nat, bold: bool)
    requires a <= g < h < b <= |words|
    requires !Fits(words[g..h + 1], size, bold)
    ensures !Allowed(words[a..b], size, bold)
  {
    SublineNarrower(words, a, g, h + 1, b, bold);
    ScaleWidths(Advance(Line(words[g..h + 1]), bold), Advance(Line(words[a..b]), bold), size);
  }

  lemma ScaleWidths(a: nat, b: nat, size: nat)
    requires a <= b
    ensures a * size <= b * size
  {
  }

  /** No other way to break the words into allowed lines uses fewer lines. */
  lemma GreedyIsOptimal(words: seq<string>, greedy: seq<nat>, other: seq<nat>, size: nat, bold: bool)
    requires IsSplit(greedy, |words|) && IsSplit(other, |words|)
    requires Greedy(words, greedy, size, bold) && Feasible(words, other, size, bold)
    ensures |greedy| <= |other|
  {
    if |other| < |greedy| {
      var k := |other| - 1;
      GreedyStaysAhead(words, greedy, other, size, bold, k);
      assert greedy[k] < greedy[k + 1];
      CutsBounded(greedy, |words|, k + 1);
    }
  }

  // ----- Nothing is lost -----

  lemma {:induction false} JoinConcat(a: seq<string>, b: seq<string>)
    requires a != [] && b != []
    ensures Line(a + b) == Line(a) + " " + Line(b)
  {
    if |b| == 1 {
      assert b == [b[0]];
      LineSnoc(a, b[0]);
    } else {
      var front, last := b[..|b|-1], b[|b|-1];
      assert b == front + [last] && a + b == (a + front) + [last];
      JoinConcat(a, front);
      LineSnoc(a + front, last);
      LineSnoc(front, last);
    }
  }

  /** The lines joined with spaces are the words joined with spaces. */
  lemma {:induction false} LinesJoinBack(lines: seq<string>, words: seq<string>, cuts: seq<nat>, k: nat)
    requires IsSplit(cuts, |words|) && LinesOf(lines, words, cuts) && k <= |lines|
    ensures cuts[k] <= |words| && (k > 0 ==> cuts[k] > 0)
    ensures Join(lines[..k], " ") == Line(words[..cuts[k]])
  {
    hide Join;
    CutsBounded(cuts, |words|, k);
    if k > 0 {
      var j := k - 1;
      LinesJoinBack(lines, words, cuts, j);
      assert cuts[j] < cuts[j + 1];
      assert lines[..k] == lines[..j] + [lines[j]];
      assert words[..cuts[k]] == words[..cuts[j]] + words[cuts[j]..cuts[k]];
      LineSnoc(lines[..j], lines[j]);
      if j > 0 {
        JoinConcat(words[..cuts[j]], words[cuts[j]..cuts[k]]);
      } else {
        assert words[..cuts[k]] == words[cuts[j]..cuts[k]];
      }
    }
  }

  // ----- What the lines say, character by character -----

  /** A character that is no space, and whether the character right before it is none either. */
  datatype Mark = Mark(ch: char, joined: bool)

  /** The characters of a text that are no spaces, in order; `joined` is about the character before the text. */
  function Marks(s: string, joined: bool): seq<Mark> {
    if s == "" then []
    else if IsSpace(s[0]) then Marks(s[1..], false)
    else [Mark(s[0], joined)] + Marks(s[1..], true)
  }

  /** Those of several texts, each standing alone. */
  function MarksOf(texts: seq<string>): seq<Mark> {
    if texts == [] then [] else Marks(texts[0], false) + MarksOf(texts[1..])
  }

  lemma {:induction false} MarksConcat(a: string, b: string, joined: bool)
    ensures Marks(a + b, joined)
         == Marks(a, joined) + Marks(b, if a == "" then joined else !IsSpace(a[|a|-1]))
  {
    hide IsSpace;
    if a == "" {
      assert a + b == b;
    } else {
      assert (a + b)[1..] == a[1..] + b;
      MarksConcat(a[1..], b, !IsSpace(a[0]));
    }
  }

  lemma {:induction false} MarksOfConcat(a: seq<string>, b: seq<string>)
    ensures MarksOf(a + b) == MarksOf(a) + MarksOf(b)
  {
    if a == [] {
      assert a + b == b;
    } else {
      assert (a + b)[1..] == a[1..] + b;
      MarksOfConcat(a[1..], b);
    }
  }

  /** Taking the words of a text keeps all its characters, and keeps neighbours together and others apart. */
  lemma {:induction false} RunsMarks(s: string)
    ensures MarksOf(Runs(s, NotSpace)) == Marks(s, false)
    decreases |s|
  {
    hide IsSpace;
    if s != "" {
      if IsSpace(s[0]) {
        RunsMarks(s[1..]);
      } else {
        var n := RunLength(s, NotSpace);
        var word, rest := s[..n], s[n..];
        RunsMarks(rest);
        assert s == word + rest;
        assert word[n - 1] in word;
        MarksConcat(word, rest, false);
        var runs := Runs(s, NotSpace);
        assert runs[0] == word && runs[1..] == Runs(rest, NotSpace);
      }
    }
  }

  /** So does joining texts by single spaces. */
  lemma {:induction false} JoinMarks(texts: seq<string>)
    ensures Marks(Join(texts, " "), false) == MarksOf(texts)
  {
    if |texts| == 1 {
      assert MarksOf(texts[1..]) == [];
    } else if texts != [] {
      JoinMarks(texts[1..]);
      var tail := Join(texts[1..], " ");
      MarksConcat(texts[0], " " + tail, false);
      assert texts[0] + " " + tail == texts[0] + (" " + tail);
      assert (" " + tail)[1..] == tail;
    }
  }

  /** A line that is neither empty nor blank and has single spaces, only between words. */
  ghost predicate Tidy(line: string) {
    line != "" &&
    forall i :: 0 <= i < |line| && IsSpace(line[i]) ==>
                  line[i] == ' ' && 0 < i < |line| - 1 && !IsSpace(line[i - 1]) && !IsSpace(line[i + 1])
  }

  /** A tidy line, no wider than 532 points unless it is a single word. */
  ghost predicate SetsLine(line: string, size: nat, bold: bool) {
    Tidy(line) && (Advance(line, bold) * size <= 532_000 || forall c <- line :: !IsSpace(c))
  }

  /** Such lines that say what the text says. */
  ghost predicate SetsText(lines: seq<string>, text: string, size: nat, bold: bool) {
    MarksOf(lines) == Marks(text, false) && forall line <- lines :: SetsLine(line, size, bold)
  }

  /** The best such lines; text of spaces alone becomes one space. */
  ghost predicate SetsTextBest(lines: seq<string>, text: string, size: nat, bold: bool) {
    if forall c <- text :: IsSpace(c) then lines == [" "]
    else
      && SetsText(lines, text, size, bold)
      && forall other :: SetsText(other, text, size, bold) ==> |lines| <= |other|
  }

  ghost predicate AreWords(words: seq<string>) {
    forall i :: 0 <= i < |words| ==> words[i] != "" && forall c <- words[i] :: !IsSpace(c)
  }

  lemma RunsAreWords(text: string)
    ensures AreWords(Runs(text, NotSpace))
  {
    var words := Runs(text, NotSpace);
    forall i | 0 <= i < |words|
      ensures words[i] != "" && forall c <- words[i] :: !IsSpace(c)
    {
      assert words[i] in words;
      assert forall c <- words[i] :: NotSpace(c);
    }
  }

  /** Of a word every character but the first is joined to the one before. */
  lemma {:induction false} WordMarks(word: string, joined: bool)
    requires forall c <- word :: !IsSpace(c)
    ensures |Marks(word, joined)| == |word|
    ensures forall i :: 0 <= i < |word| ==> Marks(word, joined)[i] == Mark(word[i], i > 0 || joined)
  {
    hide IsSpace;
    if word != "" {
      assert word[0] in word;
      WordMarks(word[1..], true);
    }
  }

  lemma MoreMarks(words: seq<string>)
    requires AreWords(words)
    ensures MarksOf(words) == [] <==> words == []
    ensures words != [] ==> !MarksOf(words)[0].joined
  {
    if words != [] { WordMarks(words[0], false); }
  }

  /** Words are told by their characters and neighbours. */
  lemma {:induction false} MarksTellWords(a: seq<string>, b: seq<string>)
    requires AreWords(a) && AreWords(b) && MarksOf(a) == MarksOf(b)
    ensures a == b
    decreases |a|
  {
    hide IsSpace;
    MoreMarks(a);
    MoreMarks(b);
    if a != [] {
      MoreMarks(a[1..]);
      MoreMarks(b[1..]);
      FirstWordTold(a[0], b[0], MarksOf(a[1..]), MarksOf(b[1..]));
      MarksTellWords(a[1..], b[1..]);
      assert a == [a[0]] + a[1..] && b == [b[0]] + b[1..];
    }
  }

  lemma FirstWordTold(a: string, b: string, restA: seq<Mark>, restB: seq<Mark>)
    requires AreWords([a]) && AreWords([b])
    requires Marks(a, false) + restA == Marks(b, false) + restB
    requires (restA == [] || !restA[0].joined) && (restB == [] || !restB[0].joined)
    ensures a == b && restA == restB
  {
    assert [a][0] == a && [b][0] == b;
    WordMarks(a, false);
    WordMarks(b, false);
    var ma, mb := Marks(a, false), Marks(b, false);
    NotShorter(ma, restA, mb, restB);
    NotShorter(mb, restB, ma, restA);
    SplitEqual(ma, restA, mb, restB);
    forall i | 0 <= i < |a| ensures a[i] == b[i] { assert ma[i] == mb[i]; }
  }

  /** A first word reaches up to the next character that is not joined. */
  lemma NotShorter(a: seq<Mark>, restA: seq<Mark>, b: seq<Mark>, restB: seq<Mark>)
    requires a != [] && b != [] && a + restA == b + restB
    requires restA == [] || !restA[0].joined
    requires forall i :: 0 < i < |b| ==> b[i].joined
    ensures |b| <= |a|
  {
    var k := if |a| < |b| then |a| else 0;
    assert (b + restB)[k] == b[k];
    assert restA != [] ==> (a + restA)[|a|] == restA[0];
    assert |a + restA| == |b + restB|;
  }

  /** Words joined by single spaces make a tidy line. */
  lemma {:induction false} LineIsTidy(words: seq<string>)
    requires words != [] && AreWords(words)
    ensures Tidy(Line(words)) && !IsSpace(Line(words)[0])
    ensures (forall c <- Line(words) :: !IsSpace(c)) <==> |words| == 1
  {
    hide IsSpace;
    var word := words[0];
    assert word[0] in word;
    if |words| == 1 {
      forall i | 0 <= i < |word| ensures !IsSpace(word[i]) { assert word[i] in word; }
    } else {
      LineIsTidy(words[1..]);
      SpaceBetween();
      TidyJoined(word, Line(words[1..]));
    }
  }

  lemma SpaceBetween()
    ensures IsSpace(' ')
  {
  }

  lemma TidyJoined(word: string, tail: string)
    requires word != "" && (forall c <- word :: !IsSpace(c)) && IsSpace(' ')
    requires Tidy(tail) && !IsSpace(tail[0])
    ensures Tidy(word + " " + tail) && !IsSpace((word + " " + tail)[0]) && ' ' in word + " " + tail
  {
    hide IsSpace;
    var line, n := word + " " + tail, |word|;
    assert forall k :: 0 <= k < n ==> line[k] == word[k] && word[k] in word;
    assert forall k :: n < k < |line| ==> line[k] == tail[k - n - 1];
    assert line[n] == ' ';
    forall i | 0 <= i < |line| && IsSpace(line[i])
      ensures line[i] == ' ' && 0 < i < |line| - 1 && !IsSpace(line[i - 1]) && !IsSpace(line[i + 1])
    {
      if i < n {
        assert false;
      } else if i > n {
        assert IsSpace(tail[i - n - 1]);
      }
    }
  }

  lemma TidyRest(line: string, n: nat)
    requires Tidy(line) && n < |line| && IsSpace(line[n])
    ensures Tidy(line[n + 1..]) && line[n] == ' '
  {
    hide IsSpace;
    var rest := line[n + 1..];
    assert !IsSpace(line[n + 1]);
    forall i | 0 <= i < |rest| && IsSpace(rest[i])
      ensures rest[i] == ' ' && 0 < i < |rest| - 1 && !IsSpace(rest[i - 1]) && !IsSpace(rest[i + 1])
    {
      assert rest[i] == line[n + 1 + i];
    }
  }

  /** A tidy line is its words joined by single spaces. */
  lemma {:induction false} TidyIsLine(line: string)
    requires Tidy(line)
    ensures Line(Runs(line, NotSpace)) == line && Runs(line, NotSpace) != []
    decreases |line|
  {
    hide IsSpace;
    assert !IsSpace(line[0]);
    var n := RunLength(line, NotSpace);
    var runs := Runs(line, NotSpace);
    if n == |line| {
      assert line[..n] == line && line[n..] == "";
      assert Runs("", NotSpace) == [];
      assert runs == [line];
    } else {
      assert IsSpace(line[n]);
      var rest := line[n + 1..];
      TidyRest(line, n);
      TidyIsLine(rest);
      assert line[n..][1..] == rest;
      assert Runs(line[n..], NotSpace) == Runs(rest, NotSpace);
      assert line[n..] != "" && line[n..][0] == line[n];
      assert runs == [line[..n]] + Runs(line[n..], NotSpace);
      assert runs[1..] == Runs(rest, NotSpace);
      assert line == line[..n] + " " + rest;
    }
  }

  // ----- Any other lines are a split of the words -----

  /** The words of several lines, one line after the other. */
  function AllWords(lines: seq<string>): seq<string> {
    if lines == [] then [] else AllWords(lines[..|lines|-1]) + Runs(lines[|lines|-1], NotSpace)
  }

  lemma {:induction false} AllWordsMarks(lines: seq<string>)
    ensures MarksOf(AllWords(lines)) == MarksOf(lines) && AreWords(AllWords(lines))
  {
    if lines != [] {
      var front, last := lines[..|lines|-1], lines[|lines|-1];
      AllWordsMarks(front);
      RunsMarks(last);
      RunsAreWords(last);
      MarksOfConcat(AllWords(front), Runs(last, NotSpace));
      MarksOfConcat(front, [last]);
      assert lines == front + [last];
      assert MarksOf([last]) == Marks(last, false) + MarksOf([]);
    }
  }

  /** Where the lines cut the words. */
  ghost predicate CutsOf(cuts: seq<nat>, lines: seq<string>) {
    |cuts| == |lines| + 1 && forall i :: 0 <= i < |cuts| ==> cuts[i] == |AllWords(lines[..i])|
  }

  function CutsIn(lines: seq<string>): (cuts: seq<nat>)
    ensures CutsOf(cuts, lines)
  {
    seq(|lines| + 1, i requires 0 <= i <= |lines| => |AllWords(lines[..i])|)
  }

  lemma {:induction false} AllWordsPrefix(lines: seq<string>, i: nat)
    requires i <= |lines|
    ensures AllWords(lines[..i]) <= AllWords(lines)
    decreases |lines|
  {
    if i < |lines| {
      assert lines[..|lines|-1][..i] == lines[..i];
      AllWordsPrefix(lines[..|lines|-1], i);
    } else {
      assert lines[..i] == lines;
    }
  }

  lemma WordsOfLine(lines: seq<string>, cuts: seq<nat>, i: nat)
    requires CutsOf(cuts, lines) && i < |lines|
    ensures LineWords(AllWords(lines), cuts, i) == Runs(lines[i], NotSpace)
    ensures cuts[i + 1] == cuts[i] + |Runs(lines[i], NotSpace)|
  {
    AllWordsPrefix(lines, i + 1);
    assert lines[..i + 1][..i] == lines[..i];
    var words := AllWords(lines);
    assert words[..cuts[i + 1]] == AllWords(lines[..i]) + Runs(lines[i], NotSpace);
    assert words[cuts[i]..cuts[i + 1]] == words[..cuts[i + 1]][cuts[i]..];
  }

  /** Lines that set the text are one of the splits compared, with as many lines. */
  lemma OtherIsSplit(other: seq<string>, text: string, size: nat, bold: bool) returns (cuts: seq<nat>)
    requires SetsText(other, text, size, bold) && Words(text) != []
    ensures |cuts| == |other| + 1 && IsSplit(cuts, |Words(text)|) && Feasible(Words(text), cuts, size, bold)
  {
    cuts := CutsIn(other);
    RunsMarks(text);
    RunsAreWords(text);
    AllWordsMarks(other);
    MarksTellWords(AllWords(other), Words(text));
    assert other[..|other|] == other && other[..0] == [];
    forall i | 0 <= i < |other|
      ensures cuts[i] < cuts[i + 1] && Allowed(LineWords(Words(text), cuts, i), size, bold)
    {
      var line := other[i];
      assert SetsLine(line, size, bold);
      WordsOfLine(other, cuts, i);
      TidyIsLine(line);
      RunsAreWords(line);
      LineIsTidy(Runs(line, NotSpace));
    }
  }

  /** The lines of the words set the text. */
  lemma LinesSetText(lines: seq<string>, cuts: seq<nat>, text: string, size: nat, bold: bool)
    requires IsSplit(cuts, |Words(text)|) && LinesOf(lines, Words(text), cuts)
    requires Feasible(Words(text), cuts, size, bold) && Join(lines, " ") == Line(Words(text))
    ensures SetsText(lines, text, size, bold)
  {
    hide Words, Advance, Tidy, Marks, MarksOf, IsSpace;
    assert MarksOf(lines) == Marks(text, false) by { SameMarks(lines, text); }
    forall line <- lines
      ensures SetsLine(line, size, bold)
    {
      var i :| 0 <= i < |lines| && lines[i] == line;
      LineIsSet(lines, cuts, text, size, bold, i);
    }
  }

  lemma SameMarks(lines: seq<string>, text: string)
    requires Join(lines, " ") == Line(Words(text))
    ensures MarksOf(lines) == Marks(text, false)
  {
    RunsMarks(text);
    JoinMarks(lines);
    JoinMarks(Words(text));
  }

  lemma LineIsSet(lines: seq<string>, cuts: seq<nat>, text: string, size: nat, bold: bool, i: nat)
    requires IsSplit(cuts, |Words(text)|) && LinesOf(lines, Words(text), cuts) && i < |lines|
    requires Feasible(Words(text), cuts, size, bold)
    ensures SetsLine(lines[i], size, bold)
  {
    hide Tidy, IsSpace, Advance, Line;
    var words := Words(text);
    RunsAreWords(text);
    CutsBounded(cuts, |words|, i + 1);
    assert cuts[i] < cuts[i + 1];
    LineIsTidy(LineWords(words, cuts, i));
    assert Allowed(LineWords(words, cuts, i), size, bold);
  }

  /** A wrapped text is set in the best way: judged by its characters alone, no other way is shorter. */
  lemma WrapIsBest(lines: seq<string>, cuts: seq<nat>, text: string, size: nat, bold: bool)
    requires IsWrap(lines, cuts, text, size, bold)
    ensures SetsTextBest(lines, text, size, bold)
  {
    hide Words, Line, LineWords, SetsText, Feasible, IsSplit, LinesOf, IsSpace;
    var words := Words(text);
    BlankHasNoWords(text);
    if words != [] {
      LinesSetText(lines, cuts, text, size, bold);
      forall other | SetsText(other, text, size, bold)
        ensures |lines| <= |other|
      {
        var c := OtherIsSplit(other, text, size, bold);
        assert |lines| == |cuts| - 1 by { SplitLines(lines, words, cuts); }
      }
    }
  }

  lemma SplitLines(lines: seq<string>, words: seq<string>, cuts: seq<nat>)
    requires LinesOf(lines, words, cuts)
    ensures |lines| == |cuts| - 1
  {
  }

  lemma {:induction false} BlankHasNoWords(text: string)
    ensures Words(text) == [] <==> forall c <- text :: IsSpace(c)
    decreases |text|
  {
    hide IsSpace;
    if text != "" {
      assert text[0] in text;
      if IsSpace(text[0]) {
        BlankHasNoWords(text[1..]);
        assert text == [text[0]] + text[1..];
      }
    }
  }

  lemma {:induction false} BlankHasNoMarks(text: string)
    ensures (forall c <- text :: IsSpace(c)) ==> forall joined :: Marks(text, joined) == []
  {
    if text != "" {
      assert text[0] in text;
      assert text == [text[0]] + text[1..];
      BlankHasNoMarks(text[1..]);
    }
  }

  /** In every case the lines say what the text says. */
  lemma WrapKeepsText(lines: seq<string>, text: string, size: nat, bold: bool)
    requires SetsTextBest(lines, text, size, bold)
    ensures MarksOf(lines) == Marks(text, false)
  {
    if forall c <- text :: IsSpace(c) {
      BlankHasNoMarks(text);
      BlankHasNoMarks(" ");
      assert MarksOf([" "]) == Marks(" ", false) + MarksOf([]);
    }
  }

  // ----- The method -----

  /** The lines are the words of the text cut at `cuts`: every line with several words fits, the lines join back to
      the words, and no such split has fewer lines. A blank text is one space. */
  ghost predicate IsWrap(lines: seq<string>, cuts: seq<nat>, text: string, size: nat, bold: bool) {
    var words := Words(text);
    if words == [] then lines == [" "]
    else
      && IsSplit(cuts, |words|) && LinesOf(lines, words, cuts)
      && Feasible(words, cuts, size, bold) && Join(lines, " ") == Line(words)
      && forall other :: IsSplit(other, |words|) && Feasible(words, other, size, bold) ==> |cuts| <= |other|
  }

  /** `wrap`. The ghost result shows where the lines were cut. */
  method Wrap(text: string, size: nat, bold: bool) returns (lines: seq<string>, ghost cuts: seq<nat>)
    ensures IsWrap(lines, cuts, text, size, bold) && SetsTextBest(lines, text, size, bold)
  {
    hide SetsTextBest;
    var words := Words(text);
    cuts := [0];
    if words == [] {
      lines := [" "];
      assert IsWrap(lines, cuts, text, size, bold);
      WrapIsBest(lines, cuts, text, size, bold);
      return;
    }
    lines, cuts := BreakWords(words, size, bold);
    LinesJoinBack(lines, words, cuts, |lines|);
    assert lines[..|lines|] == lines && words[..|words|] == words;
    forall other | IsSplit(other, |words|) && Feasible(words, other, size, bold)
      ensures |cuts| <= |other|
    {
      GreedyIsOptimal(words, cuts, other, size, bold);
    }
    assert IsWrap(lines, cuts, text, size, bold);
    WrapIsBest(lines, cuts, text, size, bold);
  }

  /** The loop of `wrap`. */
  method BreakWords(words: seq<string>, size: nat, bold: bool) returns (lines: seq<string>, ghost cuts: seq<nat>)
    requires words != [] && forall w <- words :: w != []
    ensures IsSplit(cuts, |words|) && LinesOf(lines, words, cuts)
    ensures Feasible(words, cuts, size, bold) && Greedy(words, cuts, size, bold)
  {
    hide Placed, Advance, Line, Fits, IsSplit, LinesOf, Feasible, Greedy;
    lines, cuts := [], [0];
    var line := "";
    NothingPlaced(words, size, bold);
    for i := 0 to |words|
      invariant Placed(words, lines, line, cuts, i, size, bold)
    {
      var candidate := if line != "" then line + " " + words[i] else words[i];
      var width := TextWidth(candidate, size, bold);
      assert words[i] in words;
      if width <= CONTENT_WIDTH * 1000 || line == "" {
        ExtendLine(words, lines, line, candidate, cuts, i, size, bold);
        line := candidate;
      } else {
        CutLine(words, lines, line, candidate, cuts, i, size, bold);
        lines := lines + [line];
        line := words[i];
        cuts := cuts + [i];
      }
    }
    LastLine(words, lines, line, cuts, size, bold);
    if line != "" { lines := lines + [line]; }
    cuts := cuts + [|words|];
  }

  /** The state of the loop before word i: finished lines up to the last cut, then the open line. */
  ghost predicate Placed(words: seq<string>, lines: seq<string>, line: string, cuts: seq<nat>, i: nat, size: nat,
                         bold: bool)
  {
    && i <= |words|
    && |cuts| > 0 && cuts[0] == 0 && |lines| == |cuts| - 1
    && (forall k :: 0 <= k < |cuts| - 1 ==> cuts[k] < cuts[k + 1])
    && var last := cuts[|cuts|-1];
    && last <= i && (last < i <==> line != "") && (i > 0 ==> last < i)
    && line == Line(words[last..i]) && (last < i ==> Allowed(words[last..i], size, bold))
    && forall k :: 0 <= k < |lines| ==> ClosedLine(words, lines[k], cuts[k], cuts[k + 1], size, bold)
  }

  /** A finished line: allowed, printed as its words, and unable to take one more. */
  ghost predicate ClosedLine(words: seq<string>, line: string, from: nat, to: nat, size: nat, bold: bool) {
    && from < to < |words| && line == Line(words[from..to])
    && Allowed(words[from..to], size, bold) && !Fits(words[from..to + 1], size, bold)
  }

  lemma NothingPlaced(words: seq<string>, size: nat, bold: bool)
    ensures Placed(words, [], "", [0], 0, size, bold)
  {
    assert words[0..0] == [];
  }

  lemma CandidateLine(words: seq<string>, from: nat, i: nat)
    requires from <= i < |words|
    ensures Line(words[from..i + 1]) == if from == i then words[i] else Line(words[from..i]) + " " + words[i]
  {
    assert words[from..i + 1] == words[from..i] + [words[i]];
    LineSnoc(words[from..i], words[i]);
  }

  lemma ExtendLine(words: seq<string>, lines: seq<string>, line: string, candidate: string, cuts: seq<nat>, i: nat,
                   size: nat, bold: bool)
    requires i < |words| && words[i] != "" && Placed(words, lines, line, cuts, i, size, bold)
    requires candidate == if line != "" then line + " " + words[i] else words[i]
    requires Advance(candidate, bold) * size <= CONTENT_WIDTH * 1000 || line == ""
    ensures Placed(words, lines, candidate, cuts, i + 1, size, bold)
  {
    CandidateLine(words, cuts[|cuts|-1], i);
  }

  lemma CutLine(words: seq<string>, lines: seq<string>, line: string, candidate: string, cuts: seq<nat>, i: nat,
                size: nat, bold: bool)
    requires i < |words| && words[i] != "" && Placed(words, lines, line, cuts, i, size, bold)
    requires line != "" && candidate == line + " " + words[i]
    requires Advance(candidate, bold) * size > CONTENT_WIDTH * 1000
    ensures Placed(words, lines + [line], words[i], cuts + [i], i + 1, size, bold)
  {
    var last := cuts[|cuts|-1];
    CandidateLine(words, last, i);
    CandidateLine(words, i, i);
    assert ClosedLine(words, line, last, i, size, bold);
    var lines', cuts' := lines + [line], cuts + [i];
    forall k | 0 <= k < |lines'|
      ensures ClosedLine(words, lines'[k], cuts'[k], cuts'[k + 1], size, bold)
    {
      if k < |lines| { assert ClosedLine(words, lines[k], cuts[k], cuts[k + 1], size, bold); }
    }
  }

  lemma FinalLine(words: seq<string>, lines: seq<string>, line: string, cuts: seq<nat>, k: nat, size: nat, bold: bool)
    requires words != [] && Placed(words, lines, line, cuts, |words|, size, bold) && k <= |lines|
    ensures (lines + [line])[k] == Line(LineWords(words, cuts + [|words|], k))
    ensures Allowed(LineWords(words, cuts + [|words|], k), size, bold)
    ensures k < |lines| ==> Full(words, cuts + [|words|], k, size, bold)
  {
    hide Fits, Line;
    if k < |lines| {
      assert ClosedLine(words, lines[k], cuts[k], cuts[k + 1], size, bold);
    } else {
      assert cuts[k] < |words|;
    }
  }

  lemma LastLine(words: seq<string>, lines: seq<string>, line: string, cuts: seq<nat>, size: nat, bold: bool)
    requires words != [] && Placed(words, lines, line, cuts, |words|, size, bold)
    ensures line != "" && IsSplit(cuts + [|words|], |words|) && LinesOf(lines + [line], words, cuts + [|words|])
    ensures Feasible(words, cuts + [|words|], size, bold) && Greedy(words, cuts + [|words|], size, bold)
  {
    hide Fits, Line, Allowed, Full;
    forall k | 0 <= k <= |lines|
      ensures (lines + [line])[k] == Line(LineWords(words, cuts + [|words|], k))
      ensures Allowed(LineWords(words, cuts + [|words|], k), size, bold)
      ensures k < |lines| ==> Full(words, cuts + [|words|], k, size, bold)
    {
      FinalLine(words, lines, line, cuts, k, size, bold);
    }
  }

  /** The comparison of widths never meets a tie at the two font sizes in use, so exact and
      rounded arithmetic decide it alike. */
  lemma NoTies(advance: nat, size: nat)
    requires size == 9 || size == 12
    ensures advance * size != CONTENT_WIDTH * 1000
  {
  }

  /** A wrapped text has at least one line, and no line holds a line end. */
  lemma WrappedLines(lines: seq<string>, text: string, size: nat, bold: bool)
    requires SetsTextBest(lines, text, size, bold)
    ensures lines != [] && forall line <- lines :: '\r' !in line && '\n' !in line
  {
    if !forall c <- text :: IsSpace(c) {
      MarkThere(text);
      forall line <- lines
        ensures '\r' !in line && '\n' !in line
      {
        assert SetsLine(line, size, bold);
        assert forall i :: 0 <= i < |line| && IsSpace(line[i]) ==> line[i] == ' ';
      }
    }
  }

  lemma {:induction false} MarkThere(text: string)
    requires !forall c <- text :: IsSpace(c)
    ensures forall joined :: Marks(text, joined) != []
  {
    hide IsSpace;
    if IsSpace(text[0]) {
      assert text == [text[0]] + text[1..];
      MarkThere(text[1..]);
    }
  }
}
